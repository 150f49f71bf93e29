/** A stable sort under a total preorder, and what sorting means. */
module Sorting {

  ghost predicate TotalPreorder<T(!new)>(le: (T, T) -> bool) {
    && (forall a, b :: le(a, b) || le(b, a))
    && (forall a, b, c :: le(a, b) && le(b, c) ==> le(a, c))
  }

  ghost predicate Sorted<T>(s: seq<T>, le: (T, T) -> bool) {
    forall i, j :: 0 <= i < j < |s| ==> le(s[i], s[j])
  }

  /** Insert after every element that is not larger. */
  function Insert<T>(x: T, s: seq<T>, le: (T, T) -> bool): seq<T> {
    if |s| == 0 || !le(s[0], x) then [x] + s else [s[0]] + Insert(x, s[1..], le)
  }

  function Sort<T>(s: seq<T>, le: (T, T) -> bool): seq<T> {
    if |s| == 0 then [] else Insert(s[|s| - 1], Sort(s[..|s| - 1], le), le)
  }

  lemma {:induction false} InsertMultiset<T>(x: T, s: seq<T>, le: (T, T) -> bool)
    ensures multiset(Insert(x, s, le)) == multiset(s) + multiset{x}
  {
    if |s| == 0 || !le(s[0], x) {
    } else {
      InsertMultiset(x, s[1..], le);
      assert s == [s[0]] + s[1..];
    }
  }

  lemma {:induction false} InsertMembers<T>(x: T, s: seq<T>, le: (T, T) -> bool)
    ensures |Insert(x, s, le)| == |s| + 1
    ensures forall y :: y in Insert(x, s, le) <==> y == x || y in s
  {
    if |s| == 0 || !le(s[0], x) {
    } else {
      InsertMembers(x, s[1..], le);
      assert s == [s[0]] + s[1..];
    }
  }

  lemma SortedCons<T>(x: T, s: seq<T>, le: (T, T) -> bool)
    requires Sorted(s, le) && forall y :: y in s ==> le(x, y)
    ensures Sorted([x] + s, le)
  {
    var t := [x] + s;
    forall i, j | 0 <= i < j < |t|
      ensures le(t[i], t[j])
    {
      assert t[j] == s[j - 1];
      if i > 0 {
        assert t[i] == s[i - 1];
      }
    }
  }

  lemma SortedTail<T>(s: seq<T>, le: (T, T) -> bool)
    requires Sorted(s, le) && |s| > 0
    ensures Sorted(s[1..], le) && forall y :: y in s[1..] ==> le(s[0], y)
  {
    forall y | y in s[1..]
      ensures le(s[0], y)
    {
      var i :| 0 <= i < |s[1..]| && s[1..][i] == y;
      assert s[i + 1] == y;
    }
  }

  lemma {:induction false} InsertSorted<T(!new)>(x: T, s: seq<T>, le: (T, T) -> bool)
    requires TotalPreorder(le) && Sorted(s, le)
    ensures Sorted(Insert(x, s, le), le)
  {
    if |s| == 0 {
      assert Insert(x, s, le) == [x];
    } else {
      SortedTail(s, le);
      if !le(s[0], x) {
        assert s == [s[0]] + s[1..];
        forall y | y in s
          ensures le(x, y)
        {
          assert le(x, s[0]);
        }
        SortedCons(x, s, le);
      } else {
        InsertSorted(x, s[1..], le);
        InsertMembers(x, s[1..], le);
        SortedCons(s[0], Insert(x, s[1..], le), le);
      }
    }
  }

  /** Sorting orders the elements and keeps exactly them. */
  lemma {:induction false} SortCorrect<T(!new)>(s: seq<T>, le: (T, T) -> bool)
    requires TotalPreorder(le)
    ensures Sorted(Sort(s, le), le) && multiset(Sort(s, le)) == multiset(s) && |Sort(s, le)| == |s|
    ensures forall y :: y in Sort(s, le) <==> y in s
  {
    if |s| > 0 {
      var m := |s| - 1;
      SortCorrect(s[..m], le);
      InsertSorted(s[m], Sort(s[..m], le), le);
      InsertMultiset(s[m], Sort(s[..m], le), le);
      InsertMembers(s[m], Sort(s[..m], le), le);
      assert s == s[..m] + [s[m]];
    }
  }

  // ---- distinct keys ------------------------------------------------------------------------------------

  ghost predicate Distinct<T, K>(s: seq<T>, key: T -> K) {
    forall i, j :: 0 <= i < j < |s| ==> key(s[i]) != key(s[j])
  }

  lemma SameKey<T, K>(s: seq<T>, key: T -> K, a: T, b: T)
    requires Distinct(s, key) && a in s && b in s && key(a) == key(b)
    ensures a == b
  {
  }

  lemma TwiceIn<T>(s: seq<T>, i: nat, j: nat)
    requires i < j < |s| && s[i] == s[j]
    ensures multiset(s)[s[i]] >= 2
  {
    assert s == s[..i + 1] + s[i + 1..];
    assert s[i] in multiset(s[..i + 1]) && s[i + 1..][j - i - 1] == s[j];
    assert s[j] in multiset(s[i + 1..]);
  }

  lemma {:induction false} OnceIn<T, K>(s: seq<T>, key: T -> K, x: T)
    requires Distinct(s, key)
    ensures multiset(s)[x] <= 1
  {
    if |s| > 0 {
      var n := |s| - 1;
      OnceIn(s[..n], key, x);
      assert s == s[..n] + [s[n]];
    }
  }

  /** Distinct elements found in another sequence are no more than it has. */
  lemma NoMore<T, K>(a: seq<T>, b: seq<T>, key: T -> K)
    requires Distinct(a, key) && forall x :: x in a ==> x in b
    ensures |a| <= |b|
  {
    forall x
      ensures multiset(a)[x] <= multiset(b)[x]
    {
      OnceIn(a, key, x);
      assert x in multiset(a) ==> x in a;
    }
    assert multiset(b) == multiset(a) + (multiset(b) - multiset(a));
    assert |multiset(b)| == |multiset(a)| + |multiset(b) - multiset(a)|;
  }

  /** Distinct elements of another sequence that are at least as many as it has are all of it. */
  lemma AllOf<T, K>(a: seq<T>, b: seq<T>, key: T -> K, x: T)
    requires Distinct(a, key) && Distinct(b, key) && (forall y :: y in a ==> y in b) && |a| >= |b| && x in b
    ensures x in a
  {
    if x !in a {
      forall i | 0 <= i < |a|
        ensures key(a[i]) != key(x)
      {
        assert a[i] in b;
      }
      NoMore(a + [x], b, key);
    }
  }

  lemma SortKeepsDistinct<T(!new), K>(s: seq<T>, key: T -> K, le: (T, T) -> bool)
    requires TotalPreorder(le) && Distinct(s, key)
    ensures Distinct(Sort(s, le), key)
  {
    var t := Sort(s, le);
    SortCorrect(s, le);
    forall i, j | 0 <= i < j < |t|
      ensures key(t[i]) != key(t[j])
    {
      if key(t[i]) == key(t[j]) {
        SameKey(s, key, t[i], t[j]);
        TwiceIn(t, i, j);
        OnceIn(s, key, t[i]);
      }
    }
  }

  // ---- one arrangement ----------------------------------------------------------------------------------

  /** Where equivalent elements are equal, a multiset has one sorted arrangement. */
  lemma {:induction false} SortedUnique<T(!new)>(a: seq<T>, b: seq<T>, le: (T, T) -> bool)
    requires TotalPreorder(le) && Sorted(a, le) && Sorted(b, le) && multiset(a) == multiset(b)
    requires forall x, y :: x in a && y in a && le(x, y) && le(y, x) ==> x == y
    ensures a == b
  {
    assert |multiset(a)| == |multiset(b)|;
    if |a| > 0 {
      SameHead(a, b, le);
      SortedTail(a, le);
      SortedTail(b, le);
      TailMultiset(a);
      TailMultiset(b);
      SortedUnique(a[1..], b[1..], le);
      assert a == [a[0]] + a[1..] && b == [b[0]] + b[1..];
    }
  }

  lemma TailMultiset<T>(a: seq<T>)
    requires |a| > 0
    ensures multiset(a[1..]) == multiset(a) - multiset{a[0]}
  {
    assert a == [a[0]] + a[1..];
  }

  lemma SameHead<T(!new)>(a: seq<T>, b: seq<T>, le: (T, T) -> bool)
    requires TotalPreorder(le) && Sorted(a, le) && Sorted(b, le) && multiset(a) == multiset(b)
    requires |a| > 0 && |b| > 0
    requires forall x, y :: x in a && y in a && le(x, y) && le(y, x) ==> x == y
    ensures a[0] == b[0]
  {
    assert a[0] in multiset(b) && b[0] in multiset(a);
    var i :| 0 <= i < |a| && a[i] == b[0];
    var j :| 0 <= j < |b| && b[j] == a[0];
    assert le(a[0], a[i]) && le(b[0], b[j]);
  }
}
