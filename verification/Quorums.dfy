/** A named quorum: its members in canonical order, a k-of-n threshold, and a sequence number. */
module Quorums {
  import opened Messages
  import opened Options
  import opened Search
  import opened Sets
  import opened Sorting
  import opened Words

  datatype Quorum = Quorum(members: seq<Id>, threshold: nat, seqNo: nat)

  datatype MemberChange = Add(member: Id) | Remove(member: Id) | NewThreshold(threshold: nat)

  function AtMost(): (Id, Id) -> bool {
    (a: Id, b: Id) => a <= b
  }

  predicate StrictlyIncreasing(s: seq<Id>) {
    forall i, j :: 0 <= i < j < |s| ==> s[i] < s[j]
  }

  function Clamp(x: nat, lo: nat, hi: nat): nat
    requires lo <= hi
  {
    Min(Max(x, lo), hi)
  }

  /** Drop every element equal to the one before it. */
  function Dedup(s: seq<Id>): seq<Id> {
    if |s| <= 1 then s
    else
      var n := |s| - 1;
      if s[n] == s[n - 1] then Dedup(s[..n]) else Dedup(s[..n]) + [s[n]]
  }

  function Genesis(members: seq<Id>, threshold: nat): Quorum {
    var m := Dedup(Sort(members, AtMost()));
    Quorum(m, Clamp(threshold, 1, Max(|m|, 1)), 0)
  }

  function IsMember(q: Quorum, id: Id): bool {
    SearchBy(q.members, (m: Id) => Compare(m, id)).Found?
  }

  function Compare(a: Id, b: Id): Ordering {
    if a < b then Less else if a == b then Equal else Greater
  }

  predicate IsIntersectionSized(q: Quorum) {
    2 * q.threshold > |q.members|
  }

  /** 2k - n - 1, saturating at zero. */
  function ByzantineTolerance(q: Quorum): nat {
    if 2 * q.threshold > |q.members| + 1 then 2 * q.threshold - (|q.members| + 1) else 0
  }

  /** The distinct members with a valid signature over the message. */
  ghost function Signers(q: Quorum, msg: Msg, sigs: seq<MemberSignature>): set<Id> {
    set s | s in sigs && IsMember(q, s.member) && Verifies(s.member, msg, s.signature) :: s.member
  }

  method CountSigners(q: Quorum, msg: Msg, sigs: seq<MemberSignature>) returns (n: nat)
    ensures n == |Signers(q, msg, sigs)|
  {
    var counted: set<Id> := {};
    for i := 0 to |sigs|
      invariant counted == Signers(q, msg, sigs[..i])
    {
      var s := sigs[i];
      assert sigs[..i + 1] == sigs[..i] + [s];
      if IsMember(q, s.member) && Verifies(s.member, msg, s.signature) {
        counted := counted + {s.member};
      }
    }
    assert sigs[..|sigs|] == sigs;
    n := |counted|;
  }

  function Without(s: seq<Id>, id: Id): seq<Id> {
    if |s| == 0 then []
    else
      var n := |s| - 1;
      if s[n] == id then Without(s[..n], id) else Without(s[..n], id) + [s[n]]
  }

  /** One step of the quorum: the sequence number rises, with an optional change of itself. */
  function Advance(q: Quorum, change: Option<MemberChange>): Quorum {
    var next := q.(seqNo := q.seqNo + 1);
    match change
    case Some(Add(member)) =>
      if IsMember(q, member) then next else next.(members := Sort(q.members + [member], AtMost()))
    case Some(Remove(member)) =>
      var rest := Without(q.members, member);
      next.(members := rest, threshold := Min(q.threshold, Max(|rest|, 1)))
    case Some(NewThreshold(threshold)) =>
      next.(threshold := Clamp(threshold, 1, Max(|q.members|, 1)))
    case None => next
  }

  // ---- well-formed quorums stay well-formed -----------------------------------------------------

  predicate WellFormed(q: Quorum) {
    StrictlyIncreasing(q.members) && 1 <= q.threshold <= Max(|q.members|, 1)
  }

  ghost function ToSet(s: seq<Id>): set<Id> {
    set m | m in s
  }

  ghost function Members(q: Quorum): set<Id> {
    ToSet(q.members)
  }

  lemma {:induction false} ToSetSize(s: seq<Id>)
    requires StrictlyIncreasing(s)
    ensures |ToSet(s)| == |s|
  {
    if |s| > 0 {
      var n := |s| - 1;
      ToSetSize(s[..n]);
      assert s == s[..n] + [s[n]];
      assert ToSet(s) == ToSet(s[..n]) + {s[n]};
      assert s[n] !in ToSet(s[..n]);
    }
  }

  lemma AtMostIsOrder()
    ensures TotalPreorder(AtMost())
  {
  }

  lemma {:induction false} DedupCorrect(s: seq<Id>)
    requires Sorted(s, AtMost())
    ensures StrictlyIncreasing(Dedup(s))
    ensures forall x :: x in Dedup(s) <==> x in s
    ensures |s| > 0 ==> |Dedup(s)| > 0 && Dedup(s)[|Dedup(s)| - 1] == s[|s| - 1]
  {
    if |s| > 1 {
      var n := |s| - 1;
      DedupCorrect(s[..n]);
      assert s == s[..n] + [s[n]];
      assert AtMost()(s[n - 1], s[n]);
    }
  }

  /** The threshold in force among n members when `asked` was asked for: at least one, at most all of them. */
  predicate InForce(threshold: nat, asked: nat, n: nat) {
    && (asked == 0 || n == 0 ==> threshold == 1)
    && (1 <= asked <= n ==> threshold == asked)
    && (1 <= n < asked ==> threshold == n)
  }

  /** The genesis quorum is well formed, holds exactly the listed members, and has the threshold asked for where
      that is possible. */
  lemma GenesisCorrect(members: seq<Id>, threshold: nat)
    ensures WellFormed(Genesis(members, threshold)) && Genesis(members, threshold).seqNo == 0
    ensures forall x :: x in Genesis(members, threshold).members <==> x in members
    ensures InForce(Genesis(members, threshold).threshold, threshold, |Genesis(members, threshold).members|)
  {
    AtMostIsOrder();
    SortCorrect(members, AtMost());
    DedupCorrect(Sort(members, AtMost()));
  }

  lemma IsMemberCorrect(q: Quorum, id: Id)
    requires StrictlyIncreasing(q.members)
    ensures IsMember(q, id) <==> id in q.members
  {
    SearchCorrect(q.members, (m: Id) => Compare(m, id));
  }

  lemma {:induction false} WithoutCorrect(s: seq<Id>, id: Id)
    requires StrictlyIncreasing(s)
    ensures StrictlyIncreasing(Without(s, id)) && |Without(s, id)| <= |s|
    ensures forall x :: x in Without(s, id) <==> x in s && x != id
  {
    if |s| > 0 {
      var n := |s| - 1;
      WithoutCorrect(s[..n], id);
      assert s == s[..n] + [s[n]];
      var rest := Without(s[..n], id);
      forall i | 0 <= i < |rest|
        ensures rest[i] < s[n]
      {
        assert rest[i] in s[..n];
      }
    }
  }

  lemma SortDistinct(s: seq<Id>, x: Id)
    requires StrictlyIncreasing(s) && x !in s
    ensures StrictlyIncreasing(Sort(s + [x], AtMost()))
    ensures forall y :: y in Sort(s + [x], AtMost()) <==> y == x || y in s
    ensures |Sort(s + [x], AtMost())| == |s| + 1
  {
    var t := Sort(s + [x], AtMost());
    AtMostIsOrder();
    SortCorrect(s + [x], AtMost());
    SortKeepsDistinct(s + [x], Itself(), AtMost());
    forall i, j | 0 <= i < j < |t|
      ensures t[i] < t[j]
    {
      assert AtMost()(t[i], t[j]) && Itself()(t[i]) != Itself()(t[j]);
    }
  }

  function Itself(): Id -> Id {
    (x: Id) => x
  }

  lemma WithoutMembers(q: Quorum, member: Id)
    requires WellFormed(q)
    ensures StrictlyIncreasing(Without(q.members, member))
    ensures ToSet(Without(q.members, member)) == Members(q) - {member}
    ensures |Without(q.members, member)| == |Members(q) - {member}|
  {
    WithoutCorrect(q.members, member);
    ToSetSize(Without(q.members, member));
    assert ToSet(Without(q.members, member)) == Members(q) - {member};
  }

  lemma AdvanceAdds(q: Quorum, member: Id)
    requires WellFormed(q)
    ensures var next := Advance(q, Some(Add(member)));
            WellFormed(next) && Members(next) == Members(q) + {member} && next.threshold == q.threshold
  {
    IsMemberCorrect(q, member);
    if !IsMember(q, member) {
      SortDistinct(q.members, member);
    }
  }

  lemma AdvanceRemoves(q: Quorum, member: Id)
    requires WellFormed(q)
    ensures var next := Advance(q, Some(Remove(member)));
            && WellFormed(next) && Members(next) == Members(q) - {member}
            && InForce(next.threshold, q.threshold, |Members(q) - {member}|)
  {
    WithoutMembers(q, member);
  }

  /** Every step keeps the quorum well formed, and changes the members and the threshold as its action says: a
      removal leaves the threshold alone while enough members are left, and lowers it to all of them otherwise. */
  lemma AdvanceCorrect(q: Quorum, change: Option<MemberChange>)
    requires WellFormed(q)
    ensures WellFormed(Advance(q, change)) && Advance(q, change).seqNo == q.seqNo + 1
    ensures var next := Advance(q, change);
            match change {
              case Some(Add(member)) => Members(next) == Members(q) + {member} && next.threshold == q.threshold
              case Some(Remove(member)) =>
                && Members(next) == Members(q) - {member}
                && InForce(next.threshold, q.threshold, |Members(q) - {member}|)
              case Some(NewThreshold(asked)) =>
                Members(next) == Members(q) && InForce(next.threshold, asked, |q.members|)
              case None => Members(next) == Members(q) && next.threshold == q.threshold
            }
  {
    match change
    case Some(Add(member)) => AdvanceAdds(q, member);
    case Some(Remove(member)) => AdvanceRemoves(q, member);
    case _ =>
  }

  // ---- groups of signers --------------------------------------------------------------------------------

  lemma SignersAreMembers(q: Quorum, msg: Msg, sigs: seq<MemberSignature>)
    requires WellFormed(q)
    ensures Signers(q, msg, sigs) <= Members(q)
  {
    forall m | m in Signers(q, msg, sigs)
      ensures m in Members(q)
    {
      IsMemberCorrect(q, m);
    }
  }

  lemma SignersAppend(q: Quorum, msg: Msg, sigs: seq<MemberSignature>, m: Id)
    requires IsMember(q, m)
    ensures Signers(q, msg, sigs + [MemberSignature(m, Signed(m, msg))]) == Signers(q, msg, sigs) + {m}
  {
    var more := sigs + [MemberSignature(m, Signed(m, msg))];
    assert more[|sigs|] in more;
    forall x | x in Signers(q, msg, sigs)
      ensures x in Signers(q, msg, more)
    {
      var s :| s in sigs && s.member == x && Verifies(s.member, msg, s.signature);
      assert s in more;
    }
  }

  lemma {:induction false} PickSubset(s: set<Id>, n: nat) returns (t: set<Id>)
    requires n <= |s|
    ensures t <= s && |t| == n
    decreases |s|
  {
    t := s;
    if n < |s| {
      var m :| m in s;
      t := PickSubset(s - {m}, n);
    }
  }

  /** 2k - n equivocating members complete each half of the others to k. */
  lemma SplitMembers(members: set<Id>, byzantine: set<Id>, k: nat) returns (a: set<Id>, b: set<Id>)
    requires byzantine <= members && k <= |members| && |byzantine| + |members| == 2 * k
    ensures a <= members && b <= members && |a| == k && |b| == k && a * b == byzantine
  {
    var honest := members - byzantine;
    assert |honest| == |members| - |byzantine|;
    var left := PickSubset(honest, |members| - k);
    a, b := left + byzantine, (honest - left) + byzantine;
    assert |honest - left| == |honest| - |left|;
    assert |a| == |left| + |byzantine| && |b| == |honest - left| + |byzantine|;
    assert a * b == byzantine;
  }

  /** Two k-subsets of n members share more than 2k - n - 1 of them. */
  lemma QuorumsIntersect(a: set<Id>, b: set<Id>, members: set<Id>, k: nat)
    requires a <= members && b <= members && |a| >= k && |b| >= k
    ensures |a * b| + |members| >= 2 * k
  {
    SubsetSize(a + b, members);
    assert |a + b| == |a| + |b| - |a * b|;
  }

  ghost predicate AllSign(sigs: seq<MemberSignature>, signers: set<Id>, msg: Msg) {
    forall i :: 0 <= i < |sigs| ==> sigs[i].member in signers && sigs[i].signature == Signed(sigs[i].member, msg)
  }

  lemma AllSignAppend(sigs: seq<MemberSignature>, signers: set<Id>, msg: Msg, m: Id)
    requires AllSign(sigs, signers - {m}, msg) && m in signers
    ensures AllSign(sigs + [MemberSignature(m, Signed(m, msg))], signers, msg)
  {
  }

  /** Any group of members can sign a message. */
  lemma {:induction false} SignedBy(q: Quorum, signers: set<Id>, msg: Msg) returns (sigs: seq<MemberSignature>)
    requires WellFormed(q) && signers <= Members(q)
    ensures Signers(q, msg, sigs) == signers && AllSign(sigs, signers, msg)
    decreases |signers|
  {
    sigs := [];
    if signers != {} {
      var m :| m in signers;
      var rest := SignedBy(q, signers - {m}, msg);
      IsMemberCorrect(q, m);
      sigs := rest + [MemberSignature(m, Signed(m, msg))];
      SignersAppend(q, msg, rest, m);
      AllSignAppend(rest, signers, msg, m);
    }
  }
}
