/** The rotating epoch committee: a quorum drawn from the eligible ids by a rendezvous hash. The hash
    of (program, epoch, id) is the parameter `rank`. */
module Committee {
  import opened Messages
  import opened Options
  import opened Quorums
  import opened Sorting
  import opened Words

  const N_DEFAULT: nat := 4
  const K_DEFAULT: nat := 3

  function ByRank(rank: Id -> nat): (Id, Id) -> bool {
    (a: Id, b: Id) => rank(a) <= rank(b)
  }

  function CommitteeFor(eligible: seq<Id>, rank: Id -> nat): Option<Quorum> {
    if |eligible| == 0 then None
    else
      var ids := Sort(eligible, ByRank(rank));
      var n := Max(Min(N_DEFAULT, |ids|), 1);
      var chosen := if n <= |ids| then ids[..n] else ids;
      Some(Genesis(chosen, Max(Min(K_DEFAULT, n), n / 2 + 1)))
  }

  lemma {:induction false} DedupShorter(s: seq<Id>)
    ensures |Dedup(s)| <= |s|
  {
    if |s| > 1 {
      DedupShorter(s[..|s| - 1]);
    }
  }

  /** Whatever the census, the committee is a well-formed, intersection-sized quorum of eligible ids. */
  lemma CommitteeIsSafe(eligible: seq<Id>, rank: Id -> nat)
    ensures CommitteeFor(eligible, rank).None? <==> |eligible| == 0
    ensures |eligible| > 0 ==>
              var q := CommitteeFor(eligible, rank).value;
              && WellFormed(q) && IsIntersectionSized(q) && 1 <= |q.members| <= N_DEFAULT
              && forall m :: m in q.members ==> m in eligible
  {
    if |eligible| > 0 {
      var ids := Sort(eligible, ByRank(rank));
      SortCorrect(eligible, ByRank(rank));
      var n := Max(Min(N_DEFAULT, |ids|), 1);
      var k := Max(Min(K_DEFAULT, n), n / 2 + 1);
      GenesisCorrect(ids[..n], k);
      assert ids[0] in ids[..n];
      AtMostIsOrder();
      SortCorrect(ids[..n], AtMost());
      DedupShorter(Sort(ids[..n], AtMost()));
    }
  }

  /** Whoever is among the first n of the ranking ranks no higher than whoever is not. */
  lemma FirstAreLowest(eligible: seq<Id>, rank: Id -> nat, n: nat, m: Id, x: Id)
    requires n <= |Sort(eligible, ByRank(rank))| && m in Sort(eligible, ByRank(rank))[..n]
    requires x in eligible && x !in Sort(eligible, ByRank(rank))[..n]
    ensures rank(m) <= rank(x)
  {
    var ids := Sort(eligible, ByRank(rank));
    SortCorrect(eligible, ByRank(rank));
    assert x in multiset(ids);
    var i :| 0 <= i < n && ids[i] == m;
    var j :| 0 <= j < |ids| && ids[j] == x;
    assert forall t :: 0 <= t < n ==> ids[t] == ids[..n][t];
    assert ByRank(rank)(ids[i], ids[j]);
  }

  /** A quorum of different ids, with a threshold they can reach. */
  lemma GenesisOf(ids: seq<Id>, k: nat)
    requires Distinct(ids, Itself()) && 1 <= k <= |ids|
    ensures var q := Genesis(ids, k);
            && |q.members| == |ids| && q.threshold == k && q.seqNo == 0
            && forall x :: x in q.members <==> x in ids
  {
    GenesisCorrect(ids, k);
    SameSize(Genesis(ids, k).members, ids);
  }

  /** The committee is the four lowest-ranked of the census, or all of a smaller one, and three of four must
      sign, or all of a smaller one. */
  lemma CommitteeIsLowest(eligible: seq<Id>, rank: Id -> nat)
    requires |eligible| > 0 && Distinct(eligible, Itself())
    ensures var q := CommitteeFor(eligible, rank).value;
            && |q.members| == (if |eligible| >= 4 then 4 else |eligible|)
            && q.threshold == (if |eligible| >= 4 then 3 else |eligible|)
            && q.seqNo == 0
            && forall m, x :: m in q.members && x in eligible && x !in q.members ==> rank(m) <= rank(x)
  {
    var ids := Sort(eligible, ByRank(rank));
    SortCorrect(eligible, ByRank(rank));
    SortKeepsDistinct(eligible, Itself(), ByRank(rank));
    var n := Min(4, |ids|);
    GenesisOf(ids[..n], Min(3, n));
    forall m, x | m in ids[..n] && x in eligible && x !in ids[..n]
      ensures rank(m) <= rank(x)
    {
      FirstAreLowest(eligible, rank, n, m, x);
    }
  }

  lemma SameSize(a: seq<Id>, b: seq<Id>)
    requires StrictlyIncreasing(a) && Distinct(b, Itself()) && forall x :: x in a <==> x in b
    ensures |a| == |b|
  {
    NoMore(a, b, Itself());
    NoMore(b, a, Itself());
  }

  /** Nodes that list the same census in any order derive the same committee. */
  lemma CommitteeIsAgreed(eligible: seq<Id>, other: seq<Id>, rank: Id -> nat)
    requires multiset(eligible) == multiset(other)
    requires forall a, b :: a in eligible && b in eligible && rank(a) == rank(b) ==> a == b
    ensures CommitteeFor(eligible, rank) == CommitteeFor(other, rank)
  {
    var a, b := Sort(eligible, ByRank(rank)), Sort(other, ByRank(rank));
    assert |multiset(eligible)| == |multiset(other)|;
    SortCorrect(eligible, ByRank(rank));
    SortCorrect(other, ByRank(rank));
    SortedUnique(a, b, ByRank(rank));
  }
}
