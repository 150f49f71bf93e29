/** A vector kept strictly sorted by key and edited through binary search, as a map. */
module SortedVec {
  import opened Options
  import opened Search

  /** A three-way comparison that is a strict total order. */
  ghost predicate IsOrder<K(!new)>(cmp: (K, K) -> Ordering) {
    && (forall a, b :: cmp(a, b) == Equal <==> a == b)
    && (forall a, b :: cmp(a, b) == Less <==> cmp(b, a) == Greater)
    && (forall a, b, c :: cmp(a, b) == Less && cmp(b, c) == Less ==> cmp(a, c) == Less)
  }

  ghost predicate Increasing<E, K>(s: seq<E>, key: E -> K, cmp: (K, K) -> Ordering) {
    forall i, j :: 0 <= i < j < |s| ==> cmp(key(s[i]), key(s[j])) == Less
  }

  function Find<E, K>(s: seq<E>, k: K, key: E -> K, cmp: (K, K) -> Ordering): (p: Position)
    ensures p.index <= |s| && (p.Found? ==> p.index < |s|)
  {
    SearchBy(s, (e: E) => cmp(key(e), k))
  }

  function Lookup<E, K>(s: seq<E>, k: K, key: E -> K, cmp: (K, K) -> Ordering): Option<E> {
    var p := Find(s, k, key, cmp);
    if p.Found? then Some(s[p.index]) else None
  }

  /** Insert the element, or replace the one with its key. */
  function Put<E, K>(s: seq<E>, e: E, key: E -> K, cmp: (K, K) -> Ordering): seq<E> {
    var p := Find(s, key(e), key, cmp);
    if p.Found? then s[p.index := e]
    else s[..p.index] + [e] + s[p.index..]
  }

  lemma FindCorrect<E, K(!new)>(s: seq<E>, k: K, key: E -> K, cmp: (K, K) -> Ordering)
    requires IsOrder(cmp) && Increasing(s, key, cmp)
    ensures var p := Find(s, k, key, cmp);
            && p.index <= |s|
            && (p.Found? ==> p.index < |s| && key(s[p.index]) == k)
            && (p.Missing? ==> (forall i :: 0 <= i < p.index ==> cmp(key(s[i]), k) == Less)
                               && forall i :: p.index <= i < |s| ==> cmp(k, key(s[i])) == Less)
  {
    var f := (e: E) => cmp(key(e), k);
    forall i, j | 0 <= i < j < |s|
      ensures Rank(f(s[i])) <= Rank(f(s[j]))
    {
      var a, b := key(s[i]), key(s[j]);
      assert cmp(a, b) == Less;
      if cmp(a, k) == Greater {
        assert cmp(k, a) == Less;
        assert cmp(k, b) == Less;
      }
    }
    SearchCorrect(s, f);
  }

  /** Looking a key up finds the element that carries it. */
  lemma LookupCorrect<E, K(!new)>(s: seq<E>, k: K, key: E -> K, cmp: (K, K) -> Ordering)
    requires IsOrder(cmp) && Increasing(s, key, cmp)
    ensures Lookup(s, k, key, cmp).None? <==> forall i :: 0 <= i < |s| ==> key(s[i]) != k
    ensures forall i :: 0 <= i < |s| && key(s[i]) == k ==> Lookup(s, k, key, cmp) == Some(s[i])
    ensures Lookup(s, k, key, cmp).Some? ==>
              Lookup(s, k, key, cmp).value in s && key(Lookup(s, k, key, cmp).value) == k
  {
    FindCorrect(s, k, key, cmp);
  }

  lemma PutIncreasing<E, K(!new)>(s: seq<E>, e: E, key: E -> K, cmp: (K, K) -> Ordering)
    requires IsOrder(cmp) && Increasing(s, key, cmp)
    ensures Increasing(Put(s, e, key, cmp), key, cmp)
    ensures e in Put(s, e, key, cmp)
    ensures forall x :: x in Put(s, e, key, cmp) ==> x == e || (x in s && key(x) != key(e))
    ensures forall x :: x in s && key(x) != key(e) ==> x in Put(s, e, key, cmp)
  {
    FindCorrect(s, key(e), key, cmp);
    var p, t := Find(s, key(e), key, cmp), Put(s, e, key, cmp);
    if p.Found? {
      assert t[p.index] == e;
      forall x | x in s && key(x) != key(e)
        ensures x in t
      {
        var i :| 0 <= i < |s| && s[i] == x;
        assert t[i] == x;
      }
    } else {
      assert t[p.index] == e;
      forall x | x in s
        ensures x in t
      {
        assert s == s[..p.index] + s[p.index..];
      }
    }
  }

  /** Putting an element changes the lookup of its own key and of no other. */
  lemma PutCorrect<E, K(!new)>(s: seq<E>, e: E, key: E -> K, cmp: (K, K) -> Ordering, k: K)
    requires IsOrder(cmp) && Increasing(s, key, cmp)
    ensures Increasing(Put(s, e, key, cmp), key, cmp)
    ensures Lookup(Put(s, e, key, cmp), k, key, cmp) == if k == key(e) then Some(e) else Lookup(s, k, key, cmp)
  {
    var t := Put(s, e, key, cmp);
    PutIncreasing(s, e, key, cmp);
    LookupCorrect(s, k, key, cmp);
    LookupCorrect(t, k, key, cmp);
    if k == key(e) {
      var i :| 0 <= i < |t| && t[i] == e;
    } else if x :| x in s && key(x) == k {
      var i :| 0 <= i < |t| && t[i] == x;
      var j :| 0 <= j < |s| && s[j] == x;
    }
  }

  /** A set of elements has one increasing arrangement. */
  lemma {:induction false} IncreasingUnique<E, K(!new)>(s: seq<E>, t: seq<E>, key: E -> K, cmp: (K, K) -> Ordering)
    requires IsOrder(cmp) && Increasing(s, key, cmp) && Increasing(t, key, cmp)
    requires forall x :: x in s <==> x in t
    ensures s == t
  {
    assert |s| > 0 ==> s[0] in t;
    assert |t| > 0 ==> t[0] in s;
    if |s| > 0 {
      FirstUnique(s, t, key, cmp);
      TailMembers(s, key, cmp);
      TailMembers(t, key, cmp);
      IncreasingUnique(s[1..], t[1..], key, cmp);
      assert s == [s[0]] + s[1..] && t == [t[0]] + t[1..];
    }
  }

  lemma FirstUnique<E, K(!new)>(s: seq<E>, t: seq<E>, key: E -> K, cmp: (K, K) -> Ordering)
    requires IsOrder(cmp) && Increasing(s, key, cmp) && Increasing(t, key, cmp) && |s| > 0 && |t| > 0
    requires s[0] in t && t[0] in s
    ensures s[0] == t[0]
  {
    var i :| 0 <= i < |t| && t[i] == s[0];
    var j :| 0 <= j < |s| && s[j] == t[0];
  }

  lemma TailMembers<E, K(!new)>(s: seq<E>, key: E -> K, cmp: (K, K) -> Ordering)
    requires IsOrder(cmp) && Increasing(s, key, cmp) && |s| > 0
    ensures Increasing(s[1..], key, cmp)
    ensures forall x :: x in s[1..] <==> x in s && x != s[0]
  {
    assert s == [s[0]] + s[1..];
    forall x | x in s[1..]
      ensures x != s[0]
    {
      var i :| 0 <= i < |s[1..]| && s[1..][i] == x;
      assert cmp(key(s[0]), key(s[i + 1])) == Less;
    }
  }

  /** Equal lookups, equal vectors: the representation is canonical. */
  lemma Canonical<E, K(!new)>(s: seq<E>, t: seq<E>, key: E -> K, cmp: (K, K) -> Ordering)
    requires IsOrder(cmp) && Increasing(s, key, cmp) && Increasing(t, key, cmp)
    requires forall k :: Lookup(s, k, key, cmp) == Lookup(t, k, key, cmp)
    ensures s == t
  {
    MembersFrom(s, t, key, cmp);
    MembersFrom(t, s, key, cmp);
    IncreasingUnique(s, t, key, cmp);
  }

  lemma MembersFrom<E, K(!new)>(s: seq<E>, t: seq<E>, key: E -> K, cmp: (K, K) -> Ordering)
    requires IsOrder(cmp) && Increasing(s, key, cmp) && Increasing(t, key, cmp)
    requires forall k :: Lookup(s, k, key, cmp) == Lookup(t, k, key, cmp)
    ensures forall x :: x in s ==> x in t
  {
    forall x | x in s
      ensures x in t
    {
      var i :| 0 <= i < |s| && s[i] == x;
      LookupCorrect(s, key(x), key, cmp);
      LookupCorrect(t, key(x), key, cmp);
      assert Lookup(s, key(x), key, cmp) == Some(s[i]);
    }
  }
}
