/** Binary search by comparison, as the sorted vectors of the system use it. */
module Search {

  datatype Ordering = Less | Equal | Greater

  function Rank(o: Ordering): nat {
    match o
    case Less => 0
    case Equal => 1
    case Greater => 2
  }

  /** Where the element is, or where it would have to be inserted. */
  datatype Position = Found(index: nat) | Missing(index: nat)

  /** The comparison does not decrease along the sequence. */
  ghost predicate Partitioned<T>(s: seq<T>, f: T -> Ordering) {
    forall i, j :: 0 <= i < j < |s| ==> Rank(f(s[i])) <= Rank(f(s[j]))
  }

  function SearchIn<T>(s: seq<T>, f: T -> Ordering, lo: nat, hi: nat): (p: Position)
    requires lo <= hi <= |s|
    ensures lo <= p.index <= hi && (p.Found? ==> p.index < hi && f(s[p.index]) == Equal)
    decreases hi - lo
  {
    if lo == hi then Missing(lo)
    else
      var mid := lo + (hi - lo) / 2;
      match f(s[mid])
      case Less => SearchIn(s, f, mid + 1, hi)
      case Equal => Found(mid)
      case Greater => SearchIn(s, f, lo, mid)
  }

  function SearchBy<T>(s: seq<T>, f: T -> Ordering): (p: Position)
    ensures p.index <= |s| && (p.Found? ==> p.index < |s| && f(s[p.index]) == Equal)
  {
    SearchIn(s, f, 0, |s|)
  }

  lemma {:induction false} SearchInCorrect<T>(s: seq<T>, f: T -> Ordering, lo: nat, hi: nat)
    requires lo <= hi <= |s| && Partitioned(s, f)
    requires forall i :: 0 <= i < lo ==> f(s[i]) == Less
    requires forall i :: hi <= i < |s| ==> f(s[i]) == Greater
    ensures var p := SearchIn(s, f, lo, hi);
            p.Missing? ==>
              && (forall i :: 0 <= i < p.index ==> f(s[i]) == Less)
              && forall i :: p.index <= i < |s| ==> f(s[i]) == Greater
    decreases hi - lo
  {
    if lo < hi {
      var mid := lo + (hi - lo) / 2;
      match f(s[mid])
      case Less => SearchInCorrect(s, f, mid + 1, hi);
      case Equal =>
      case Greater => SearchInCorrect(s, f, lo, mid);
    }
  }

  /** On a partitioned sequence the search finds an equal element, or the one place to put it. */
  lemma SearchCorrect<T>(s: seq<T>, f: T -> Ordering)
    requires Partitioned(s, f)
    ensures var p := SearchBy(s, f);
            p.Missing? ==>
              && (forall i :: 0 <= i < p.index ==> f(s[i]) == Less)
              && forall i :: p.index <= i < |s| ==> f(s[i]) == Greater
  {
    SearchInCorrect(s, f, 0, |s|);
  }
}
