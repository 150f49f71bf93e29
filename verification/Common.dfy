module Options {
  datatype Option<+T> = None | Some(value: T)
}

/** Arithmetic on unsigned machine words. */
module Words {
  const U64: nat := 0x1_0000_0000_0000_0000

  function Min(a: nat, b: nat): nat {
    if a <= b then a else b
  }

  function Max(a: nat, b: nat): nat {
    if a >= b then a else b
  }

  /** Saturating 64-bit addition. */
  function SatAdd(a: nat, b: nat): nat {
    Min(a + b, U64 - 1)
  }

  /** Saturating subtraction. */
  function SatSub(a: nat, b: nat): nat {
    if a >= b then a - b else 0
  }
}

module Sets {
  lemma SubsetSize(a: set<nat>, b: set<nat>)
    requires a <= b
    ensures |a| <= |b|
  {
    assert b == a + (b - a);
  }
}

/** Finite sums. */
module Sums {
  ghost function Pick(s: set<nat>): (k: nat)
    requires s != {}
    ensures k in s
  {
    var k :| k in s;
    k
  }

  ghost function Sum(f: nat -> nat, s: set<nat>): nat
    decreases s
  {
    if s == {} then 0 else f(Pick(s)) + Sum(f, s - {Pick(s)})
  }

  lemma {:induction false} SumRemove(f: nat -> nat, s: set<nat>, k: nat)
    requires k in s
    ensures Sum(f, s) == f(k) + Sum(f, s - {k})
    decreases s
  {
    var j := Pick(s);
    if j != k {
      SumRemove(f, s - {j}, k);
      SumRemove(f, s - {k}, j);
      assert s - {j} - {k} == s - {k} - {j};
    }
  }

  lemma {:induction false} SumSame(f: nat -> nat, g: nat -> nat, s: set<nat>)
    requires forall k :: k in s ==> f(k) == g(k)
    ensures Sum(f, s) == Sum(g, s)
    decreases s
  {
    if s != {} {
      SumSame(f, g, s - {Pick(s)});
    }
  }

  lemma {:induction false} SumZero(f: nat -> nat, s: set<nat>)
    requires forall k :: k in s ==> f(k) == 0
    ensures Sum(f, s) == 0
    decreases s
  {
    if s != {} {
      SumZero(f, s - {Pick(s)});
    }
  }

  /** Raising one term raises the sum by as much. */
  lemma SumRaise(f: nat -> nat, g: nat -> nat, s: set<nat>, k: nat, more: nat)
    requires k in s && g(k) == f(k) + more
    requires forall j :: j in s && j != k ==> g(j) == f(j)
    ensures Sum(g, s) == Sum(f, s) + more
  {
    SumRemove(f, s, k);
    SumRemove(g, s, k);
    SumSame(f, g, s - {k});
  }
}
