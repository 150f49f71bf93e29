/** When a self-amending chain of approvals can fork, and when it cannot. */
module Forks {
  import opened Messages
  import opened Options
  import opened Quorums
  import opened Sets
  import opened Chains

  /** The members in office who signed both of two approvals. */
  ghost function Both(q: Quorum, a: Attestation, b: Attestation, domain: Domain): set<Id> {
    Signers(q, ProposalMsg(domain, a.proposal), a.signatures) * Signers(q, ProposalMsg(domain, b.proposal), b.signatures)
  }

  /** Where two chains approve different proposals, the quorum then in office is intersection-sized and no more
      of its members signed both than it tolerates. */
  ghost predicate Tolerated(q: Quorum, a: Attestation, b: Attestation, domain: Domain) {
    a.proposal != b.proposal ==> IsIntersectionSized(q) && |Both(q, a, b, domain)| <= ByzantineTolerance(q)
  }

  ghost predicate ToleratedUpTo(genesis: Quorum, xs: seq<Attestation>, ys: seq<Attestation>, domain: Domain, n: nat)
    requires n <= |xs| && n <= |ys|
  {
    forall i :: 0 <= i < n && Current(genesis, xs[..i], domain).Some? ==>
      Tolerated(Current(genesis, xs[..i], domain).value, xs[i], ys[i], domain)
  }

  /** How many members two thresholds must share. */
  function Overlap(q: Quorum): nat {
    if IsIntersectionSized(q) then 2 * q.threshold - |q.members| else 0
  }

  /** Two approvals of one position share at least that many signers. */
  lemma SharedSigners(q: Quorum, a: Attestation, b: Attestation, domain: Domain)
    requires WellFormed(q) && Authorizes(a, q, domain) && Authorizes(b, q, domain)
    ensures |Both(q, a, b, domain)| >= Overlap(q)
  {
    var m, n := ProposalMsg(domain, a.proposal), ProposalMsg(domain, b.proposal);
    SignersAreMembers(q, m, a.signatures);
    SignersAreMembers(q, n, b.signatures);
    ToSetSize(q.members);
    QuorumsIntersect(Signers(q, m, a.signatures), Signers(q, n, b.signatures), Members(q), q.threshold);
  }

  lemma NoForkHere(q: Quorum, a: Attestation, b: Attestation, domain: Domain)
    requires WellFormed(q) && Authorizes(a, q, domain) && Authorizes(b, q, domain) && Tolerated(q, a, b, domain)
    ensures a.proposal == b.proposal
  {
    SharedSigners(q, a, b, domain);
  }

  /** One position of a folding chain: the quorum in office, its approval, and the next quorum. */
  lemma StepAt(genesis: Quorum, atts: seq<Attestation>, domain: Domain, m: nat)
    requires WellFormed(genesis) && m < |atts| && Current(genesis, atts, domain).Some?
    ensures Current(genesis, atts[..m], domain).Some?
    ensures var q := Current(genesis, atts[..m], domain).value;
            && WellFormed(q) && Authorizes(atts[m], q, domain)
            && Current(genesis, atts[..m + 1], domain) == Some(Advance(q, ChangeOf(atts[m].proposal.action)))
  {
    ApprovalAt(genesis, atts, domain, m);
    FoldSound(genesis, atts[..m], domain);
    assert atts[..m + 1][..m] == atts[..m];
  }

  /** Two chains that fold from one genesis have the same quorum in office along their common prefix,
      although each amends its own as it goes. */
  lemma {:induction false} QuorumsAgree(genesis: Quorum, xs: seq<Attestation>, ys: seq<Attestation>,
                                        domain: Domain, n: nat)
    requires WellFormed(genesis) && n <= |xs| && n <= |ys|
    requires Current(genesis, xs, domain).Some? && Current(genesis, ys, domain).Some?
    requires ToleratedUpTo(genesis, xs, ys, domain, n)
    ensures Current(genesis, xs[..n], domain) == Current(genesis, ys[..n], domain)
  {
    if n > 0 {
      var m := n - 1;
      QuorumsAgree(genesis, xs, ys, domain, m);
      StepAt(genesis, xs, domain, m);
      StepAt(genesis, ys, domain, m);
      NoForkHere(Current(genesis, xs[..m], domain).value, xs[m], ys[m], domain);
    } else {
      assert xs[..n] == ys[..n];
    }
  }

  /** And so they agree proposal for proposal. */
  lemma ChainsAgree(genesis: Quorum, xs: seq<Attestation>, ys: seq<Attestation>,
                    domain: Domain, n: nat, i: nat)
    requires WellFormed(genesis) && i < n <= |xs| && n <= |ys|
    requires Current(genesis, xs, domain).Some? && Current(genesis, ys, domain).Some?
    requires ToleratedUpTo(genesis, xs, ys, domain, n)
    ensures xs[i].proposal == ys[i].proposal
  {
    QuorumsAgree(genesis, xs, ys, domain, i);
    StepAt(genesis, xs, domain, i);
    StepAt(genesis, ys, domain, i);
    NoForkHere(Current(genesis, xs[..i], domain).value, xs[i], ys[i], domain);
  }

  // ---- over what was signed ----------------------------------------------------------------------------

  /** The approvals carry no signature that was not given. */
  ghost predicate Carried(atts: seq<Attestation>, issued: set<Signature>) {
    forall a, s :: a in atts && s in a.signatures && s.signature.Signed? ==> s.signature in issued
  }

  /** Whoever is not Byzantine signs at most one proposal per sequence number. */
  ghost predicate OneProposalEach(issued: set<Signature>, byzantine: set<Id>, domain: Domain) {
    forall m: Id, p: Proposal, r: Proposal ::
      (&& m !in byzantine && p.seqNo == r.seqNo
       && Signed(m, ProposalMsg(domain, p)) in issued && Signed(m, ProposalMsg(domain, r)) in issued)
      ==> p == r
  }

  ghost predicate Withstands(q: Quorum, byzantine: set<Id>) {
    IsIntersectionSized(q) && |byzantine * Members(q)| <= ByzantineTolerance(q)
  }

  lemma OnlyByzantineSignBoth(q: Quorum, a: Attestation, b: Attestation, domain: Domain,
                              issued: set<Signature>, byzantine: set<Id>)
    requires WellFormed(q) && Carried([a, b], issued) && OneProposalEach(issued, byzantine, domain)
    requires a.proposal != b.proposal && a.proposal.seqNo == b.proposal.seqNo
    ensures |Both(q, a, b, domain)| <= |byzantine * Members(q)|
  {
    var m, n := ProposalMsg(domain, a.proposal), ProposalMsg(domain, b.proposal);
    SignersAreMembers(q, m, a.signatures);
    forall id | id in Both(q, a, b, domain)
      ensures id in byzantine * Members(q)
    {
      assert a in [a, b] && b in [a, b];
      assert Signed(id, m) in issued && Signed(id, n) in issued;
    }
    assert Both(q, a, b, domain) <= byzantine * Members(q);
    SubsetSize(Both(q, a, b, domain), byzantine * Members(q));
  }

  /** Two chains made of signatures that were really given agree on their common prefix, if whoever is not
      Byzantine signs one proposal per sequence number and, wherever the chains approve differently, the quorum
      then in office withstands its Byzantine members. */
  lemma HonestChainsAgree(genesis: Quorum, xs: seq<Attestation>, ys: seq<Attestation>, domain: Domain,
                          issued: set<Signature>, byzantine: set<Id>, n: nat, i: nat)
    requires WellFormed(genesis) && i < n <= |xs| && n <= |ys|
    requires Current(genesis, xs, domain).Some? && Current(genesis, ys, domain).Some?
    requires Carried(xs, issued) && Carried(ys, issued) && OneProposalEach(issued, byzantine, domain)
    requires forall j :: 0 <= j < n && Current(genesis, xs[..j], domain).Some? && xs[j].proposal != ys[j].proposal ==>
                           Withstands(Current(genesis, xs[..j], domain).value, byzantine)
    ensures xs[i].proposal == ys[i].proposal
  {
    forall j | 0 <= j < n && Current(genesis, xs[..j], domain).Some?
      ensures Tolerated(Current(genesis, xs[..j], domain).value, xs[j], ys[j], domain)
    {
      if xs[j].proposal != ys[j].proposal {
        ApprovalAt(genesis, xs, domain, j);
        ApprovalAt(genesis, ys, domain, j);
        FoldSound(genesis, xs[..j], domain);
        assert xs[j] in xs && ys[j] in ys;
        OnlyByzantineSignBoth(Current(genesis, xs[..j], domain).value, xs[j], ys[j], domain, issued, byzantine);
      }
    }
    ChainsAgree(genesis, xs, ys, domain, n, i);
  }

  // ---- the converse -------------------------------------------------------------------------------------

  /** Two groups of a threshold each that share exactly the given members. */
  lemma TwoGroups(members: set<Id>, both: set<Id>, k: nat) returns (a: set<Id>, b: set<Id>)
    requires both <= members && k <= |members| && |both| <= k
    requires |both| == (if 2 * k > |members| then 2 * k - |members| else 0)
    ensures a <= members && b <= members && |a| == k && |b| == k && a * b == both
  {
    if 2 * k > |members| {
      a, b := SplitMembers(members, both, k);
    } else {
      a := PickSubset(members, k);
      assert |members - a| == |members| - k;
      b := PickSubset(members - a, k);
    }
  }

  /** And that is exact: from any chain that folds, any members that are one more than tolerated (or none at
      all, where the quorum is not intersection-sized) let any two proposals both extend it. */
  lemma ForkBeyondTolerance(genesis: Quorum, atts: seq<Attestation>, domain: Domain, both: set<Id>,
                            p: Proposal, r: Proposal)
    returns (a: Attestation, b: Attestation)
    requires WellFormed(genesis) && Current(genesis, atts, domain).Some?
    requires var q := Current(genesis, atts, domain).value;
             && |q.members| > 0 && both <= Members(q) && |both| == Overlap(q)
             && p.seqNo == q.seqNo + 1 && r.seqNo == q.seqNo + 1
    ensures a.proposal == p && b.proposal == r
    ensures Current(genesis, atts + [a], domain).Some? && Current(genesis, atts + [b], domain).Some?
    ensures var q := Current(genesis, atts, domain).value;
            && Both(q, a, b, domain) == both
            && |both| == if IsIntersectionSized(q) then ByzantineTolerance(q) + 1 else 0
  {
    var q := Current(genesis, atts, domain).value;
    FoldSound(genesis, atts, domain);
    a, b := TwoApprovals(q, domain, both, p, r);
    Extends(genesis, atts, domain, a);
    Extends(genesis, atts, domain, b);
  }

  lemma TwoApprovals(q: Quorum, domain: Domain, both: set<Id>, p: Proposal, r: Proposal)
    returns (a: Attestation, b: Attestation)
    requires WellFormed(q) && |q.members| > 0 && both <= Members(q) && |both| == Overlap(q)
    requires p.seqNo == q.seqNo + 1 && r.seqNo == q.seqNo + 1
    ensures a.proposal == p && b.proposal == r && Authorizes(a, q, domain) && Authorizes(b, q, domain)
    ensures Both(q, a, b, domain) == both
  {
    ToSetSize(q.members);
    var left, right := TwoGroups(Members(q), both, q.threshold);
    var sigs := SignedBy(q, left, ProposalMsg(domain, p));
    a := Attestation(p, sigs);
    sigs := SignedBy(q, right, ProposalMsg(domain, r));
    b := Attestation(r, sigs);
  }

  lemma Extends(genesis: Quorum, atts: seq<Attestation>, domain: Domain, a: Attestation)
    requires Current(genesis, atts, domain).Some? && Authorizes(a, Current(genesis, atts, domain).value, domain)
    ensures Current(genesis, atts + [a], domain).Some?
  {
    assert (atts + [a])[..|atts|] == atts;
  }

  /** Two governors with a threshold of one, each honest: two chains that fold and differ at position one. */
  lemma GovernanceForks() returns (genesis: Quorum, xs: seq<Attestation>, ys: seq<Attestation>)
    ensures genesis == Quorum([1, 2], 1, 0) && WellFormed(genesis)
    ensures |xs| == 1 && xs[0].proposal == Proposal(SetConfig("shard_bits", 4), 1)
    ensures |ys| == 1 && ys[0].proposal == Proposal(SetConfig("shard_bits", 8), 1)
    ensures Current(genesis, xs, Governance).Some? && Current(genesis, ys, Governance).Some?
    ensures Both(genesis, xs[0], ys[0], Governance) == {}
  {
    genesis := Quorum([1, 2], 1, 0);
    var a, b := ForkBeyondTolerance(genesis, [], Governance, {}, Proposal(SetConfig("shard_bits", 4), 1),
                                    Proposal(SetConfig("shard_bits", 8), 1));
    xs, ys := [a], [b];
    assert [] + [a] == xs && [] + [b] == ys;
  }
}
