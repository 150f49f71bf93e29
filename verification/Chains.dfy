/** Self-verifying chains of k-of-n approvals: attestation chains, and the governance chain with the
    registries it derives. One model serves both; the domain tag tells them apart. */
module Chains {
  import opened Messages
  import opened Options
  import opened Quorums
  import opened Search
  import opened SortedVec
  import opened Names
  import opened Words

  datatype Attestation = Attestation(proposal: Proposal, signatures: seq<MemberSignature>)

  function ChangeOf(a: Action): Option<MemberChange> {
    match a
    case AddMember(m) => Some(Add(m))
    case RemoveMember(m) => Some(Remove(m))
    case SetThreshold(t) => Some(NewThreshold(t))
    case _ => None
  }

  ghost predicate Authorizes(a: Attestation, q: Quorum, domain: Domain) {
    && a.proposal.seqNo == q.seqNo + 1
    && |Signers(q, ProposalMsg(domain, a.proposal), a.signatures)| >= q.threshold
  }

  ghost function ApplyTo(a: Attestation, q: Quorum, domain: Domain): Option<Quorum> {
    if Authorizes(a, q, domain) then Some(Advance(q, ChangeOf(a.proposal.action))) else None
  }

  method CheckApply(a: Attestation, q: Quorum, domain: Domain) returns (r: Option<Quorum>)
    ensures r == ApplyTo(a, q, domain)
  {
    var n := CountSigners(q, ProposalMsg(domain, a.proposal), a.signatures);
    if a.proposal.seqNo == q.seqNo + 1 && n >= q.threshold {
      return Some(Advance(q, ChangeOf(a.proposal.action)));
    }
    return None;
  }

  /** Fold the approvals from genesis: the final quorum, or nothing if one of them does not extend it. */
  ghost function Current(genesis: Quorum, atts: seq<Attestation>, domain: Domain): Option<Quorum> {
    if |atts| == 0 then Some(genesis)
    else
      match Current(genesis, atts[..|atts| - 1], domain)
      case None => None
      case Some(q) => ApplyTo(atts[|atts| - 1], q, domain)
  }

  /** How many approvals from the start fold. */
  ghost function ValidPrefix(genesis: Quorum, atts: seq<Attestation>, domain: Domain): (n: nat)
    ensures n <= |atts|
    ensures Current(genesis, atts[..n], domain).Some?
    ensures n < |atts| ==> Current(genesis, atts[..n + 1], domain).None?
  {
    if |atts| == 0 then 0
    else
      var m := |atts| - 1;
      var n := ValidPrefix(genesis, atts[..m], domain);
      assert atts[..m][..n] == atts[..n];
      assert n < m ==> atts[..m][..n + 1] == atts[..n + 1];
      assert atts[..m + 1] == atts;
      if n == m && Current(genesis, atts, domain).Some? then m + 1 else n
  }

  function StatementsOf(atts: seq<Attestation>): seq<Bytes> {
    if |atts| == 0 then []
    else
      var a := atts[|atts| - 1].proposal.action;
      StatementsOf(atts[..|atts| - 1]) + if a.Statement? then [a.statement] else []
  }

  class QuorumChain {
    const genesis: Quorum
    const domain: Domain
    var attestations: seq<Attestation>

    constructor (genesis: Quorum, domain: Domain)
      ensures this.genesis == genesis && this.domain == domain && attestations == []
    {
      this.genesis := genesis;
      this.domain := domain;
      attestations := [];
    }

    method Fold() returns (r: Option<Quorum>)
      ensures r == Current(genesis, attestations, domain)
    {
      var q := genesis;
      for i := 0 to |attestations|
        invariant Current(genesis, attestations[..i], domain) == Some(q)
      {
        assert attestations[..i + 1][..i] == attestations[..i];
        var next := CheckApply(attestations[i], q, domain);
        if next.None? {
          BrokenStaysBroken(genesis, attestations, domain, i + 1);
          return None;
        }
        q := next.value;
      }
      assert attestations[..|attestations|] == attestations;
      return Some(q);
    }

    /** Append an approval exactly when the chain folds and the approval extends it. */
    method Append(a: Attestation) returns (ok: bool)
      modifies this
      ensures ok <==> Current(genesis, old(attestations) + [a], domain).Some?
      ensures attestations == if ok then old(attestations) + [a] else old(attestations)
    {
      var cur := Fold();
      assert (attestations + [a])[..|attestations|] == attestations;
      ok := false;
      if cur.Some? {
        var next := CheckApply(a, cur.value, domain);
        if next.Some? {
          attestations := attestations + [a];
          ok := true;
        }
      }
    }

    /** Replay the chain and collect what it authorised, up to the first break. */
    method AuthorizedStatements() returns (out: seq<Bytes>)
      ensures out == StatementsOf(attestations[..ValidPrefix(genesis, attestations, domain)])
    {
      var q := genesis;
      out := [];
      for i := 0 to |attestations|
        invariant Current(genesis, attestations[..i], domain) == Some(q)
        invariant out == StatementsOf(attestations[..i])
      {
        assert attestations[..i + 1][..i] == attestations[..i];
        var next := CheckApply(attestations[i], q, domain);
        if next.None? {
          PrefixUnique(genesis, attestations, domain, i);
          return;
        }
        var action := attestations[i].proposal.action;
        if action.Statement? {
          out := out + [action.statement];
        }
        q := next.value;
      }
      PrefixUnique(genesis, attestations, domain, |attestations|);
    }

    /** A statement counts as authorised exactly when the folding part of the chain states it. */
    method IsAuthorized(statement: Bytes) returns (r: bool)
      ensures r <==> exists i :: 0 <= i < ValidPrefix(genesis, attestations, domain)
                                 && attestations[i].proposal.action == Statement(statement)
    {
      var all := AuthorizedStatements();
      r := statement in all;
      ghost var n := ValidPrefix(genesis, attestations, domain);
      StatementsAre(attestations[..n], statement);
      assert forall i :: 0 <= i < n ==> attestations[..n][i] == attestations[i];
    }

    /** The registry of programs, or of configuration values, replayed from the chain. */
    method DerivedRegistry<V>(pick: Action -> Option<(string, V)>) returns (out: seq<Setting<V>>)
      ensures out == Derive(genesis.seqNo, attestations, pick)
    {
      out := [];
      var seqNo := genesis.seqNo;
      for i := 0 to |attestations|
        invariant seqNo == genesis.seqNo + i
        invariant out == Derive(genesis.seqNo, attestations[..i], pick)
      {
        assert attestations[..i + 1][..i] == attestations[..i];
        seqNo := seqNo + 1;
        var picked := pick(attestations[i].proposal.action);
        if picked.Some? {
          out := Replayed(out, picked.value.0, picked.value.1, seqNo);
        }
      }
      assert attestations[..|attestations|] == attestations;
    }

    method ProgramRegistry() returns (out: seq<Setting<nat>>)
      ensures out == Derive(genesis.seqNo, attestations, PickProgram)
    {
      out := DerivedRegistry(PickProgram);
    }

    method ConfigRegistry() returns (out: seq<Setting<int>>)
      ensures out == Derive(genesis.seqNo, attestations, PickConfig)
    {
      out := DerivedRegistry(PickConfig);
    }
  }

  lemma {:induction false} BrokenStaysBroken(genesis: Quorum, atts: seq<Attestation>, domain: Domain, i: nat)
    requires i <= |atts| && Current(genesis, atts[..i], domain).None?
    ensures Current(genesis, atts, domain).None?
  {
    if i < |atts| {
      var m := |atts| - 1;
      assert atts[..m][..i] == atts[..i];
      BrokenStaysBroken(genesis, atts[..m], domain, i);
    } else {
      assert atts[..i] == atts;
    }
  }

  lemma PrefixUnique(genesis: Quorum, atts: seq<Attestation>, domain: Domain, i: nat)
    requires i <= |atts| && Current(genesis, atts[..i], domain).Some?
    requires i < |atts| ==> Current(genesis, atts[..i + 1], domain).None?
    ensures ValidPrefix(genesis, atts, domain) == i
  {
    var n := ValidPrefix(genesis, atts, domain);
    if n < i {
      assert atts[..i][..n + 1] == atts[..n + 1];
      BrokenStaysBroken(genesis, atts[..i], domain, n + 1);
    } else if i < n {
      assert atts[..n][..i + 1] == atts[..i + 1];
      BrokenStaysBroken(genesis, atts[..n], domain, i + 1);
    }
  }

  // ---- what every folding chain satisfies ---------------------------------------------------------------

  /** A chain that folds ends in a well-formed quorum whose sequence number counts the approvals. */
  lemma {:induction false} FoldSound(genesis: Quorum, atts: seq<Attestation>, domain: Domain)
    requires WellFormed(genesis) && Current(genesis, atts, domain).Some?
    ensures WellFormed(Current(genesis, atts, domain).value)
    ensures Current(genesis, atts, domain).value.seqNo == genesis.seqNo + |atts|
  {
    if |atts| > 0 {
      var m := |atts| - 1;
      FoldSound(genesis, atts[..m], domain);
      AdvanceCorrect(Current(genesis, atts[..m], domain).value, ChangeOf(atts[m].proposal.action));
    }
  }

  /** Every approval in a folding chain carries its own position, and a threshold of the members that
      were in office at that point signed it. */
  lemma {:induction false} ApprovalAt(genesis: Quorum, atts: seq<Attestation>, domain: Domain, i: nat)
    requires WellFormed(genesis) && Current(genesis, atts, domain).Some? && i < |atts|
    ensures Current(genesis, atts[..i], domain).Some?
    ensures Authorizes(atts[i], Current(genesis, atts[..i], domain).value, domain)
    ensures atts[i].proposal.seqNo == genesis.seqNo + i + 1
  {
    var m := |atts| - 1;
    if i == m {
      FoldSound(genesis, atts[..m], domain);
    } else {
      assert atts[..m][..i] == atts[..i];
      ApprovalAt(genesis, atts[..m], domain, i);
    }
  }

  // ---- the quorum in office, read off the approved actions ----------------------------------------------

  function ActionAt(atts: seq<Attestation>, i: nat): Action
    requires i < |atts|
  {
    atts[i].proposal.action
  }

  /** Added, and not removed since. */
  ghost predicate AddedLast(atts: seq<Attestation>, id: Id) {
    exists i: nat :: i < |atts| && ActionAt(atts, i) == AddMember(id)
                     && forall j: nat :: i < j < |atts| ==> ActionAt(atts, j) != RemoveMember(id)
  }

  ghost predicate NeverRemoved(atts: seq<Attestation>, id: Id) {
    forall j: nat :: j < |atts| ==> ActionAt(atts, j) != RemoveMember(id)
  }

  lemma OneMoreAction(atts: seq<Attestation>, id: Id)
    requires |atts| > 0
    ensures var last, before := ActionAt(atts, |atts| - 1), atts[..|atts| - 1];
            && (AddedLast(atts, id) <==> last == AddMember(id) || (last != RemoveMember(id) && AddedLast(before, id)))
            && (NeverRemoved(atts, id) <==> last != RemoveMember(id) && NeverRemoved(before, id))
  {
    var n := |atts| - 1;
    var before := atts[..n];
    assert forall i: nat :: i < n ==> ActionAt(before, i) == ActionAt(atts, i);
    if ActionAt(atts, n) == AddMember(id) {
      assert AddedLast(atts, id);
    } else if ActionAt(atts, n) != RemoveMember(id) && AddedLast(before, id) {
      var i: nat :| i < |before| && ActionAt(before, i) == AddMember(id)
                    && forall j: nat :: i < j < |before| ==> ActionAt(before, j) != RemoveMember(id);
      assert ActionAt(atts, i) == AddMember(id);
    }
  }

  /** What one approved action does to the quorum in office. */
  lemma OfficeStep(genesis: Quorum, atts: seq<Attestation>, domain: Domain)
    requires WellFormed(genesis) && Current(genesis, atts, domain).Some? && |atts| > 0
    ensures Current(genesis, atts[..|atts| - 1], domain).Some?
    ensures var p, q := Current(genesis, atts[..|atts| - 1], domain).value, Current(genesis, atts, domain).value;
            match ActionAt(atts, |atts| - 1) {
              case AddMember(m) => Members(q) == Members(p) + {m} && q.threshold == p.threshold
              case RemoveMember(m) =>
                Members(q) == Members(p) - {m} && InForce(q.threshold, p.threshold, |Members(q)|) && p.threshold > 0
              case SetThreshold(t) => Members(q) == Members(p) && InForce(q.threshold, t, |Members(q)|)
              case _ => Members(q) == Members(p) && q.threshold == p.threshold
            }
  {
    var p := Current(genesis, atts[..|atts| - 1], domain).value;
    FoldSound(genesis, atts[..|atts| - 1], domain);
    AdvanceCorrect(p, ChangeOf(ActionAt(atts, |atts| - 1)));
    ToSetSize(p.members);
  }

  /** In office is who was added and not removed since, and who was there at genesis and never removed. */
  lemma {:induction false} InOfficeIff(genesis: Quorum, atts: seq<Attestation>, domain: Domain, id: Id)
    requires WellFormed(genesis) && Current(genesis, atts, domain).Some?
    ensures id in Members(Current(genesis, atts, domain).value) <==>
            AddedLast(atts, id) || (id in Members(genesis) && NeverRemoved(atts, id))
  {
    if |atts| > 0 {
      OfficeStep(genesis, atts, domain);
      InOfficeIff(genesis, atts[..|atts| - 1], domain, id);
      OneMoreAction(atts, id);
    }
  }

  /** How many members approval j left in office, but at least one. */
  ghost function LeftAfter(genesis: Quorum, atts: seq<Attestation>, domain: Domain, j: nat): nat
    requires j < |atts|
  {
    match Current(genesis, atts[..j + 1], domain)
    case None => 1
    case Some(q) => if Members(q) == {} then 1 else |Members(q)|
  }

  /** The smallest of what it was and what every removal from i on has left. */
  ghost predicate Lowered(genesis: Quorum, atts: seq<Attestation>, domain: Domain, i: nat, was: nat, t: nat) {
    && t <= was
    && (forall j: nat :: i <= j < |atts| && ActionAt(atts, j).RemoveMember? ==>
                           t <= LeftAfter(genesis, atts, domain, j))
    && (t == was || exists j: nat :: i <= j < |atts| && ActionAt(atts, j).RemoveMember?
                                     && t == LeftAfter(genesis, atts, domain, j))
  }

  lemma SameBefore(genesis: Quorum, atts: seq<Attestation>, domain: Domain, j: nat)
    requires |atts| > 0 && j < |atts| - 1
    ensures var before := atts[..|atts| - 1];
            && ActionAt(before, j) == ActionAt(atts, j)
            && LeftAfter(genesis, before, domain, j) == LeftAfter(genesis, atts, domain, j)
  {
    assert atts[..|atts| - 1][..j + 1] == atts[..j + 1];
  }

  lemma LoweredStep(genesis: Quorum, atts: seq<Attestation>, domain: Domain, i: nat, was: nat, t: nat, u: nat)
    requires i < |atts| && Lowered(genesis, atts[..|atts| - 1], domain, i, was, t)
    requires if ActionAt(atts, |atts| - 1).RemoveMember?
             then u == Min(t, LeftAfter(genesis, atts, domain, |atts| - 1))
             else u == t
    ensures Lowered(genesis, atts, domain, i, was, u)
  {
    var n := |atts| - 1;
    var before := atts[..n];
    forall j: nat | i <= j < |atts| && ActionAt(atts, j).RemoveMember?
      ensures u <= LeftAfter(genesis, atts, domain, j)
    {
      if j < n {
        SameBefore(genesis, atts, domain, j);
      }
    }
    if t != was {
      var j: nat :| i <= j < |before| && ActionAt(before, j).RemoveMember?
                    && t == LeftAfter(genesis, before, domain, j);
      SameBefore(genesis, atts, domain, j);
    }
  }

  lemma {:induction false} ThresholdSince(genesis: Quorum, atts: seq<Attestation>, domain: Domain, i: nat)
    requires WellFormed(genesis) && Current(genesis, atts, domain).Some? && i <= |atts|
    requires forall j: nat :: i <= j < |atts| ==> !ActionAt(atts, j).SetThreshold?
    ensures Current(genesis, atts[..i], domain).Some?
    ensures Lowered(genesis, atts, domain, i, Current(genesis, atts[..i], domain).value.threshold,
                    Current(genesis, atts, domain).value.threshold)
  {
    if i == |atts| {
      assert atts[..i] == atts;
    } else {
      var m := |atts| - 1;
      assert forall j: nat :: j < m ==> ActionAt(atts[..m], j) == ActionAt(atts, j);
      assert atts[..m][..i] == atts[..i] && atts[..m + 1] == atts;
      OfficeStep(genesis, atts, domain);
      ThresholdSince(genesis, atts[..m], domain, i);
      LoweredStep(genesis, atts, domain, i, Current(genesis, atts[..i], domain).value.threshold,
                  Current(genesis, atts[..m], domain).value.threshold, Current(genesis, atts, domain).value.threshold);
    }
  }

  /** The threshold in office is the one set last, as far as the members of its time allowed, or genesis' if none
      was; lowered since only to what a removal left. */
  lemma ThresholdInOffice(genesis: Quorum, atts: seq<Attestation>, domain: Domain, i: nat)
    requires WellFormed(genesis) && Current(genesis, atts, domain).Some? && i <= |atts|
    requires i > 0 ==> ActionAt(atts, i - 1).SetThreshold?
    requires forall j: nat :: i <= j < |atts| ==> !ActionAt(atts, j).SetThreshold?
    ensures Current(genesis, atts[..i], domain).Some?
    ensures var q := Current(genesis, atts[..i], domain).value;
            && (i == 0 ==> q.threshold == genesis.threshold)
            && (i > 0 ==> InForce(q.threshold, ActionAt(atts, i - 1).threshold, |Members(q)|))
            && Lowered(genesis, atts, domain, i, q.threshold, Current(genesis, atts, domain).value.threshold)
  {
    ThresholdSince(genesis, atts, domain, i);
    if i > 0 {
      assert ActionAt(atts[..i], i - 1) == ActionAt(atts, i - 1);
      OfficeStep(genesis, atts[..i], domain);
    }
  }

  /** No replay: an approval that is in a folding chain cannot be appended again, nor sit there twice. */
  lemma NoReplay(genesis: Quorum, atts: seq<Attestation>, domain: Domain, i: nat, a: Attestation)
    requires WellFormed(genesis) && Current(genesis, atts, domain).Some? && i < |atts|
    requires a.proposal.seqNo == atts[i].proposal.seqNo
    ensures Current(genesis, atts + [a], domain).None?
    ensures forall j :: 0 <= j < |atts| && j != i ==> atts[j] != a
  {
    var more := atts + [a];
    ApprovalAt(genesis, atts, domain, i);
    if Current(genesis, more, domain).Some? {
      ApprovalAt(genesis, more, domain, |atts|);
    }
    forall j | 0 <= j < |atts| && j != i
      ensures atts[j] != a
    {
      ApprovalAt(genesis, atts, domain, j);
    }
  }

  /** The authorised statements are exactly the Statement payloads, in order. */
  lemma {:induction false} StatementsAre(atts: seq<Attestation>, s: Bytes)
    ensures s in StatementsOf(atts) <==>
            exists i :: 0 <= i < |atts| && atts[i].proposal.action == Statement(s)
  {
    if |atts| > 0 {
      var m := |atts| - 1;
      StatementsAre(atts[..m], s);
      if i :| 0 <= i < |atts| && atts[i].proposal.action == Statement(s) {
        if i < m {
          assert atts[..m][i].proposal.action == Statement(s);
        }
      }
    }
  }

  /** And they come in the order of the chain. */
  lemma {:induction false} StatementsInOrder(a: seq<Attestation>, b: seq<Attestation>)
    ensures StatementsOf(a + b) == StatementsOf(a) + StatementsOf(b)
  {
    if |b| == 0 {
      assert a + b == a;
    } else {
      var m := |b| - 1;
      StatementsInOrder(a, b[..m]);
      assert (a + b)[..|a| + m] == a + b[..m] && (a + b)[|a| + m] == b[m];
    }
  }

  // ---- governed registries ------------------------------------------------------------------------------

  datatype Setting<V> = Setting(name: string, value: V, version: nat)

  function NameOf<V>(s: Setting<V>): string {
    s.name
  }

  /** Set an entry of a governed registry; the version must rise. */
  function SetEntry<V>(s: seq<Setting<V>>, name: string, value: V, version: nat): Option<seq<Setting<V>>> {
    var p := Find(s, name, NameOf, CompareText);
    if p.Found? && version <= s[p.index].version then None
    else Some(Put(s, Setting(name, value, version), NameOf, CompareText))
  }

  function ResolveSetting<V>(s: seq<Setting<V>>, name: string): Option<Setting<V>> {
    Lookup(s, name, NameOf, CompareText)
  }

  /** A setting the registry refuses is skipped. */
  function Replayed<V>(s: seq<Setting<V>>, name: string, value: V, version: nat): seq<Setting<V>> {
    match SetEntry(s, name, value, version)
    case None => s
    case Some(next) => next
  }

  /** Replay the approvals that set something, versioned by their position. `pick` selects the entries. */
  function Derive<V>(start: nat, atts: seq<Attestation>, pick: Action -> Option<(string, V)>): seq<Setting<V>> {
    if |atts| == 0 then []
    else
      var m := |atts| - 1;
      var before := Derive(start, atts[..m], pick);
      match pick(atts[m].proposal.action)
      case None => before
      case Some((name, value)) => Replayed(before, name, value, start + m + 1)
  }

  function PickProgram(a: Action): Option<(string, nat)> {
    if a.SetProgram? then Some((a.program, a.cid)) else None
  }

  function PickConfig(a: Action): Option<(string, int)> {
    if a.SetConfig? then Some((a.key, a.value)) else None
  }

  /** The last setting of a name in the chain. */
  function LastSet<V>(start: nat, atts: seq<Attestation>, pick: Action -> Option<(string, V)>, name: string)
    : Option<Setting<V>>
  {
    if |atts| == 0 then None
    else
      var m := |atts| - 1;
      match pick(atts[m].proposal.action)
      case Some((n, value)) =>
        if n == name then Some(Setting(name, value, start + m + 1)) else LastSet(start, atts[..m], pick, name)
      case None => LastSet(start, atts[..m], pick, name)
  }

  /** Some approval set the name to that, and none later set it again. */
  ghost predicate SetLast<V>(start: nat, atts: seq<Attestation>, pick: Action -> Option<(string, V)>, s: Setting<V>) {
    exists i: nat :: i < |atts| && pick(ActionAt(atts, i)) == Some((s.name, s.value)) && s.version == start + i + 1
                     && forall j: nat :: i < j < |atts| && pick(ActionAt(atts, j)).Some? ==>
                          pick(ActionAt(atts, j)).value.0 != s.name
  }

  lemma {:induction false} LastSetIs<V>(start: nat, atts: seq<Attestation>, pick: Action -> Option<(string, V)>,
                                        s: Setting<V>)
    ensures LastSet(start, atts, pick, s.name) == Some(s) <==> SetLast(start, atts, pick, s)
  {
    if |atts| > 0 {
      var m := |atts| - 1;
      var before, p := atts[..m], pick(ActionAt(atts, m));
      assert forall i: nat :: i < m ==> ActionAt(before, i) == ActionAt(atts, i);
      LastSetIs(start, before, pick, s);
      if p.Some? && p.value.0 == s.name {
        assert SetLast(start, atts, pick, s) ==> s.version == start + m + 1;
      } else if SetLast(start, before, pick, s) {
        var i: nat :| i < m && pick(ActionAt(before, i)) == Some((s.name, s.value)) && s.version == start + i + 1
                      && forall j: nat :: i < j < m && pick(ActionAt(before, j)).Some? ==>
                           pick(ActionAt(before, j)).value.0 != s.name;
        assert pick(ActionAt(atts, i)) == Some((s.name, s.value));
      }
    }
  }

  ghost predicate Before<V>(s: seq<Setting<V>>, version: nat) {
    Increasing(s, NameOf, CompareText) && forall x :: x in s ==> x.version < version
  }

  /** A setting with a fresh version always goes in, and changes its own name only. */
  lemma SetEntryCorrect<V>(s: seq<Setting<V>>, name: string, value: V, version: nat, k: string)
    requires Before(s, version)
    ensures SetEntry(s, name, value, version).Some?
    ensures Before(SetEntry(s, name, value, version).value, version + 1)
    ensures ResolveSetting(SetEntry(s, name, value, version).value, k)
            == if k == name then Some(Setting(name, value, version)) else ResolveSetting(s, k)
  {
    TextIsOrder();
    var e := Setting(name, value, version);
    var p := Find(s, name, NameOf, CompareText);
    if p.Found? {
      assert s[p.index] in s;
    }
    PutIncreasing(s, e, NameOf, CompareText);
    PutCorrect(s, e, NameOf, CompareText, k);
  }

  /** A setting is refused exactly when the name is held at that version or a later one. */
  lemma SetEntryIff<V>(s: seq<Setting<V>>, name: string, value: V, version: nat)
    requires Increasing(s, NameOf, CompareText)
    ensures SetEntry(s, name, value, version).None? <==> exists x :: x in s && x.name == name && x.version >= version
  {
    TextIsOrder();
    LookupCorrect(s, name, NameOf, CompareText);
  }

  lemma ReplayedCorrect<V>(s: seq<Setting<V>>, name: string, value: V, version: nat, k: string)
    requires Before(s, version)
    ensures Before(Replayed(s, name, value, version), version + 1)
    ensures ResolveSetting(Replayed(s, name, value, version), k)
            == if k == name then Some(Setting(name, value, version)) else ResolveSetting(s, k)
  {
    SetEntryCorrect(s, name, value, version, k);
  }

  lemma ResolveEmpty<V>(name: string)
    ensures ResolveSetting<V>([], name) == None
  {
    TextIsOrder();
    LookupCorrect<Setting<V>, string>([], name, NameOf, CompareText);
  }

  lemma BeforeLater<V>(s: seq<Setting<V>>, version: nat)
    requires Before(s, version)
    ensures Before(s, version + 1)
  {
  }

  /** A derived registry holds, for every name, exactly what the chain set last. */
  lemma {:induction false} DeriveIsLastSet<V>(start: nat, atts: seq<Attestation>,
                                              pick: Action -> Option<(string, V)>, name: string)
    ensures Before(Derive(start, atts, pick), start + |atts| + 1)
    ensures ResolveSetting(Derive(start, atts, pick), name) == LastSet(start, atts, pick, name)
  {
    if |atts| == 0 {
      ResolveEmpty<V>(name);
    } else {
      var m := |atts| - 1;
      var before := Derive(start, atts[..m], pick);
      DeriveIsLastSet(start, atts[..m], pick, name);
      match pick(atts[m].proposal.action)
      case None => BeforeLater(before, start + m + 1);
      case Some((n, value)) => ReplayedCorrect(before, n, value, start + m + 1, name);
    }
  }

  /** A program resolves to the cid that was approved for its name last, versioned by its position. */
  lemma ProgramIs(genesis: Quorum, atts: seq<Attestation>, name: string, cid: nat, version: nat)
    ensures ResolveSetting(Derive(genesis.seqNo, atts, PickProgram), name) == Some(Setting(name, cid, version)) <==>
            exists i: nat :: i < |atts| && ActionAt(atts, i) == SetProgram(name, cid)
                             && version == genesis.seqNo + i + 1
                             && forall j: nat :: i < j < |atts| && ActionAt(atts, j).SetProgram? ==>
                                  ActionAt(atts, j).program != name
  {
    DeriveIsLastSet(genesis.seqNo, atts, PickProgram, name);
    LastSetIs(genesis.seqNo, atts, PickProgram, Setting(name, cid, version));
    assert forall i: nat :: i < |atts| ==>
        (PickProgram(ActionAt(atts, i)) == Some((name, cid)) <==> ActionAt(atts, i) == SetProgram(name, cid));
  }

  /** And a configuration value likewise. */
  lemma ConfigIs(genesis: Quorum, atts: seq<Attestation>, key: string, value: int, version: nat)
    ensures ResolveSetting(Derive(genesis.seqNo, atts, PickConfig), key) == Some(Setting(key, value, version)) <==>
            exists i: nat :: i < |atts| && ActionAt(atts, i) == SetConfig(key, value)
                             && version == genesis.seqNo + i + 1
                             && forall j: nat :: i < j < |atts| && ActionAt(atts, j).SetConfig? ==>
                                  ActionAt(atts, j).key != key
  {
    DeriveIsLastSet(genesis.seqNo, atts, PickConfig, key);
    LastSetIs(genesis.seqNo, atts, PickConfig, Setting(key, value, version));
    assert forall i: nat :: i < |atts| ==>
        (PickConfig(ActionAt(atts, i)) == Some((key, value)) <==> ActionAt(atts, i) == SetConfig(key, value));
  }
}
