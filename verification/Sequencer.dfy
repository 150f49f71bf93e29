/** The ordering sequencer: per-account nonces, serialised through a k-of-n quorum of members that
    never sign two different writes at one slot. */
module Sequencer {
  import opened Messages
  import opened Options
  import opened Quorums
  import opened Sets

  type Slot = (Id, nat)

  datatype SequencedCommit = SequencedCommit(write: SequencedWrite, signatures: seq<MemberSignature>)

  function SlotOf(w: SequencedWrite): Slot {
    (w.account, w.nonce)
  }

  predicate OwnerAuthentic(w: SequencedWrite) {
    Verifies(w.account, OwnerMsg(w.account, w.nonce, w.payload), w.ownerSig)
  }

  ghost predicate Authorizes(c: SequencedCommit, q: Quorum) {
    && OwnerAuthentic(c.write) && IsIntersectionSized(q)
    && |Signers(q, OrderMsg(c.write), c.signatures)| >= q.threshold
  }

  method CheckAuthorizes(c: SequencedCommit, q: Quorum) returns (r: bool)
    ensures r <==> Authorizes(c, q)
    ensures var w := c.write;
            r <==> && w.ownerSig == Signed(w.account, OwnerMsg(w.account, w.nonce, w.payload))
                   && 2 * q.threshold > |q.members|
                   && |Signers(q, OrderMsg(c.write), c.signatures)| >= q.threshold
  {
    var n := CountSigners(q, OrderMsg(c.write), c.signatures);
    r := OwnerAuthentic(c.write) && IsIntersectionSized(q) && n >= q.threshold;
  }

  // ---- a member's signing side --------------------------------------------------------------------

  type Signing = map<Slot, SequencedWrite>

  predicate MaySign(signed: Signing, w: SequencedWrite) {
    OwnerAuthentic(w) && (SlotOf(w) in signed ==> signed[SlotOf(w)] == w)
  }

  class SequencerMember {
    const identity: Id
    var signed: Signing

    constructor (identity: Id)
      ensures this.identity == identity && signed == map[]
    {
      this.identity := identity;
      signed := map[];
    }

    /** Sign the write, unless it is unauthenticated or another write already holds its slot. */
    method Sign(w: SequencedWrite) returns (r: Option<MemberSignature>)
      modifies this
      ensures r.Some? <==> && w.ownerSig == Signed(w.account, OwnerMsg(w.account, w.nonce, w.payload))
                           && ((w.account, w.nonce) in old(signed) ==> old(signed)[(w.account, w.nonce)] == w)
      ensures r.Some? ==> r == Some(MemberSignature(identity, Signed(identity, OrderMsg(w))))
      ensures signed == if r.Some? then old(signed)[(w.account, w.nonce) := w] else old(signed)
    {
      if !OwnerAuthentic(w) {
        return None;
      }
      var slot := SlotOf(w);
      if slot in signed && signed[slot] != w {
        return None;
      }
      signed := signed[slot := w];
      return Some(MemberSignature(identity, Signed(identity, OrderMsg(w))));
    }
  }

  // ---- whole runs -----------------------------------------------------------------------------------

  /** Every signature issued so far, and the honest members' tables. */
  datatype World = World(tables: map<Id, Signing>, issued: set<Signature>)

  /** Honest members are offered writes; anyone may author writes as an account owner, or sign under
      the other domain tags; equivocating members sign whatever they like. */
  datatype Event =
    | OfferWrite(member: Id, write: SequencedWrite)
    | Equivocate(member: Id, msg: Msg)
    | Author(account: Id, nonce: nat, payload: Bytes)
    | SignOther(member: Id, msg: Msg)

  function Table(s: World, m: Id): Signing {
    if m in s.tables then s.tables[m] else map[]
  }

  function Apply(s: World, e: Event, byzantine: set<Id>): World {
    match e
    case OfferWrite(m, w) =>
      if m in byzantine || !MaySign(Table(s, m), w) then s
      else World(s.tables[m := Table(s, m)[SlotOf(w) := w]], s.issued + {Signed(m, OrderMsg(w))})
    case Equivocate(m, msg) =>
      if m in byzantine then s.(issued := s.issued + {Signed(m, msg)}) else s
    case Author(account, nonce, payload) =>
      s.(issued := s.issued + {Signed(account, OwnerMsg(account, nonce, payload))})
    case SignOther(m, msg) =>
      if msg.OrderMsg? then s else s.(issued := s.issued + {Signed(m, msg)})
  }

  function RunFrom(s: World, events: seq<Event>, byzantine: set<Id>): World {
    if |events| == 0 then s
    else Apply(RunFrom(s, events[..|events| - 1], byzantine), events[|events| - 1], byzantine)
  }

  function Run(events: seq<Event>, byzantine: set<Id>): World {
    RunFrom(World(map[], {}), events, byzantine)
  }

  lemma RunAppend(events: seq<Event>, e: Event, byzantine: set<Id>)
    ensures Run(events + [e], byzantine) == Apply(Run(events, byzantine), e, byzantine)
  {
    assert (events + [e])[..|events|] == events;
  }

  /** An honest member's ordering signatures are exactly the writes in its table. */
  ghost predicate NonEquivocating(s: World, byzantine: set<Id>) {
    forall m, w: SequencedWrite :: m !in byzantine ==>
      (Signed(m, OrderMsg(w)) in s.issued <==> SlotOf(w) in Table(s, m) && Table(s, m)[SlotOf(w)] == w)
  }

  lemma {:induction false} RunNonEquivocating(events: seq<Event>, byzantine: set<Id>)
    ensures NonEquivocating(Run(events, byzantine), byzantine)
  {
    if |events| > 0 {
      var n := |events| - 1;
      RunNonEquivocating(events[..n], byzantine);
      StepNonEquivocating(Run(events[..n], byzantine), events[n], byzantine);
    }
  }

  lemma StepNonEquivocating(s: World, e: Event, byzantine: set<Id>)
    requires NonEquivocating(s, byzantine)
    ensures NonEquivocating(Apply(s, e, byzantine), byzantine)
  {
  }

  /** In every run an honest member has signed only writes their account's owner authorised. */
  lemma {:induction false} SignsOnlyAuthentic(events: seq<Event>, byzantine: set<Id>, m: Id, w: SequencedWrite)
    requires m !in byzantine && Signed(m, OrderMsg(w)) in Run(events, byzantine).issued
    ensures w.ownerSig == Signed(w.account, OwnerMsg(w.account, w.nonce, w.payload))
  {
    var n := |events| - 1;
    if Signed(m, OrderMsg(w)) in Run(events[..n], byzantine).issued {
      SignsOnlyAuthentic(events[..n], byzantine, m, w);
    }
  }

  /** After any run, an honest member that is offered a write has signed it, now or before, exactly if the owner
      authorised it and the member signed no other write of that account and nonce. */
  lemma SignsIff(events: seq<Event>, byzantine: set<Id>, m: Id, w: SequencedWrite)
    requires m !in byzantine
    ensures Signed(m, OrderMsg(w)) in Run(events + [OfferWrite(m, w)], byzantine).issued <==>
            && w.ownerSig == Signed(w.account, OwnerMsg(w.account, w.nonce, w.payload))
            && forall v: SequencedWrite :: Signed(m, OrderMsg(v)) in Run(events, byzantine).issued ==>
                                             v == w || v.account != w.account || v.nonce != w.nonce
  {
    var s := Run(events, byzantine);
    RunAppend(events, OfferWrite(m, w), byzantine);
    RunNonEquivocating(events, byzantine);
    if Signed(m, OrderMsg(w)) in s.issued {
      SignsOnlyAuthentic(events, byzantine, m, w);
    }
    if SlotOf(w) in Table(s, m) {
      TableBySlot(events, byzantine, m, SlotOf(w));
      assert Signed(m, OrderMsg(Table(s, m)[SlotOf(w)])) in s.issued;
    }
  }

  lemma {:induction false} TableBySlot(events: seq<Event>, byzantine: set<Id>, m: Id, slot: Slot)
    requires slot in Table(Run(events, byzantine), m)
    ensures SlotOf(Table(Run(events, byzantine), m)[slot]) == slot
  {
    var n := |events| - 1;
    if slot in Table(Run(events[..n], byzantine), m) {
      TableBySlot(events[..n], byzantine, m, slot);
    }
  }

  /** Signatures cannot be forged: a commit can only carry ones that were issued. */
  predicate Available(c: SequencedCommit, s: World) {
    forall i :: 0 <= i < |c.signatures| && c.signatures[i].signature.Signed? ==> c.signatures[i].signature in s.issued
  }

  lemma SignersIssued(c: SequencedCommit, q: Quorum, s: World, m: Id)
    requires Available(c, s) && m in Signers(q, OrderMsg(c.write), c.signatures)
    ensures Signed(m, OrderMsg(c.write)) in s.issued
  {
    var sig :| sig in c.signatures && sig.member == m && Verifies(sig.member, OrderMsg(c.write), sig.signature);
    var i :| 0 <= i < |c.signatures| && c.signatures[i] == sig;
  }

  lemma HonestInBoth(a: set<Id>, b: set<Id>, byzantine: set<Id>, members: set<Id>) returns (m: Id)
    requires a <= members && b <= members && |byzantine * members| < |a * b|
    ensures m in a && m in b && m !in byzantine
  {
    if a * b <= byzantine * members {
      SubsetSize(a * b, byzantine * members);
    }
    m :| m in a * b && m !in byzantine * members;
  }

  /** Fork freedom: in every run with at most 2k - n - 1 equivocating members, no two different writes
      at one slot are ever both authorised. */
  lemma NoFork(events: seq<Event>, byzantine: set<Id>, q: Quorum, c: SequencedCommit, d: SequencedCommit)
    requires WellFormed(q) && |byzantine * Members(q)| <= ByzantineTolerance(q)
    requires Available(c, Run(events, byzantine)) && Available(d, Run(events, byzantine))
    requires Authorizes(c, q) && Authorizes(d, q) && SlotOf(c.write) == SlotOf(d.write)
    ensures c.write == d.write
  {
    var s := Run(events, byzantine);
    var a, b := Signers(q, OrderMsg(c.write), c.signatures), Signers(q, OrderMsg(d.write), d.signatures);
    RunNonEquivocating(events, byzantine);
    SignersAreMembers(q, OrderMsg(c.write), c.signatures);
    SignersAreMembers(q, OrderMsg(d.write), d.signatures);
    ToSetSize(q.members);
    QuorumsIntersect(a, b, Members(q), q.threshold);
    var m := HonestInBoth(a, b, byzantine, Members(q));
    SignersIssued(c, q, s, m);
    SignersIssued(d, q, s, m);
  }

  // ---- account sequences ------------------------------------------------------------------------------

  ghost predicate Extends(account: Id, i: nat, c: SequencedCommit, q: Quorum) {
    c.write.account == account && c.write.nonce == i && Authorizes(c, q)
  }

  ghost predicate VerifySequence(account: Id, commits: seq<SequencedCommit>, q: Quorum) {
    forall i :: 0 <= i < |commits| ==> Extends(account, i, commits[i], q)
  }

  class AccountSequence {
    const account: Id
    var commits: seq<SequencedCommit>

    constructor (account: Id)
      ensures this.account == account && commits == []
    {
      this.account := account;
      commits := [];
    }

    /** Append a commit that claims the next nonce of this account under the quorum. */
    method Append(c: SequencedCommit, q: Quorum) returns (ok: bool)
      modifies this
      ensures ok <==> c.write.account == account && c.write.nonce == |old(commits)| && Authorizes(c, q)
      ensures commits == if ok then old(commits) + [c] else old(commits)
      ensures VerifySequence(account, commits, q) <==> VerifySequence(account, old(commits), q)
    {
      ok := false;
      if c.write.account == account && c.write.nonce == |commits| {
        ok := CheckAuthorizes(c, q);
      }
      if ok {
        ghost var before := commits;
        commits := commits + [c];
        assert forall i :: 0 <= i < |before| ==> commits[i] == before[i];
      }
    }

    /** Fold the whole sequence. */
    method Verify(q: Quorum) returns (ok: bool)
      ensures ok <==> forall i :: 0 <= i < |commits| ==>
                        commits[i].write.account == account && commits[i].write.nonce == i && Authorizes(commits[i], q)
      ensures ok <==> VerifySequence(account, commits, q)
    {
      for i := 0 to |commits|
        invariant forall j :: 0 <= j < i ==> Extends(account, j, commits[j], q)
      {
        var c := commits[i];
        var good := CheckAuthorizes(c, q);
        if c.write.account != account || c.write.nonce != i || !good {
          assert !Extends(account, i, c, q);
          return false;
        }
      }
      return true;
    }
  }

  /** Any two sequences of one account that verify agree write for write on their common prefix. */
  lemma SequencesAgree(events: seq<Event>, byzantine: set<Id>, q: Quorum, account: Id,
                       cs: seq<SequencedCommit>, ds: seq<SequencedCommit>, i: nat)
    requires WellFormed(q) && |byzantine * Members(q)| <= ByzantineTolerance(q)
    requires VerifySequence(account, cs, q) && VerifySequence(account, ds, q)
    requires forall j :: 0 <= j < |cs| ==> Available(cs[j], Run(events, byzantine))
    requires forall j :: 0 <= j < |ds| ==> Available(ds[j], Run(events, byzantine))
    requires i < |cs| && i < |ds|
    ensures cs[i].write == ds[i].write
  {
    assert Extends(account, i, cs[i], q) && Extends(account, i, ds[i], q);
    NoFork(events, byzantine, q, cs[i], ds[i]);
  }

  // ---- the tolerance is exact -------------------------------------------------------------------------

  /** Members whose slot is still free, and equivocating members, can all be made to sign a write. */
  lemma {:induction false} Gather(events: seq<Event>, byzantine: set<Id>, signers: set<Id>, w: SequencedWrite)
    returns (more: seq<Event>)
    requires OwnerAuthentic(w)
    requires forall m :: m in signers && m !in byzantine ==> SlotOf(w) !in Table(Run(events, byzantine), m)
    ensures events <= more
    ensures Run(events, byzantine).issued <= Run(more, byzantine).issued
    ensures forall m :: m in signers ==> Signed(m, OrderMsg(w)) in Run(more, byzantine).issued
    ensures forall m :: m !in signers ==> Table(Run(more, byzantine), m) == Table(Run(events, byzantine), m)
    decreases |signers|
  {
    more := events;
    if signers != {} {
      var m :| m in signers;
      var e := if m in byzantine then Equivocate(m, OrderMsg(w)) else OfferWrite(m, w);
      RunAppend(events, e, byzantine);
      more := Gather(events + [e], byzantine, signers - {m}, w);
    }
  }

  lemma AvailableWhenIssued(c: SequencedCommit, signers: set<Id>, s: World)
    requires forall x :: x in c.signatures ==> x.member in signers && x.signature == Signed(x.member, OrderMsg(c.write))
    requires forall m :: m in signers ==> Signed(m, OrderMsg(c.write)) in s.issued
    ensures Available(c, s)
  {
    forall i | 0 <= i < |c.signatures|
      ensures c.signatures[i].signature in s.issued
    {
      assert c.signatures[i] in c.signatures;
    }
  }

  /** The two groups, overlapping only in equivocating members, sign conflicting writes in one run. */
  lemma SignBoth(byzantine: set<Id>, a: set<Id>, b: set<Id>, w: SequencedWrite, v: SequencedWrite)
    returns (events: seq<Event>)
    requires a * b <= byzantine && OwnerAuthentic(w) && OwnerAuthentic(v)
    ensures forall m :: m in a ==> Signed(m, OrderMsg(w)) in Run(events, byzantine).issued
    ensures forall m :: m in b ==> Signed(m, OrderMsg(v)) in Run(events, byzantine).issued
  {
    var first := Gather([], byzantine, a, w);
    forall m | m in b && m !in byzantine
      ensures SlotOf(v) !in Table(Run(first, byzantine), m)
    {
      assert m !in a;
    }
    events := Gather(first, byzantine, b, v);
  }

  /** One more equivocating member than tolerated, whichever they are, can fork any slot. */
  lemma ForkBeyondTolerance(q: Quorum, byzantine: set<Id>, w: SequencedWrite, v: SequencedWrite)
    returns (events: seq<Event>, c: SequencedCommit, d: SequencedCommit)
    requires WellFormed(q) && IsIntersectionSized(q) && |q.members| > 0
    requires byzantine <= Members(q) && |byzantine| == ByzantineTolerance(q) + 1
    requires OwnerAuthentic(w) && OwnerAuthentic(v) && SlotOf(w) == SlotOf(v) && w != v
    ensures c.write == w && d.write == v && Authorizes(c, q) && Authorizes(d, q)
    ensures Available(c, Run(events, byzantine)) && Available(d, Run(events, byzantine))
  {
    ToSetSize(q.members);
    var a, b := SplitMembers(Members(q), byzantine, q.threshold);
    events := SignBoth(byzantine, a, b, w, v);
    var sigs := SignedBy(q, a, OrderMsg(w));
    c := SequencedCommit(w, sigs);
    sigs := SignedBy(q, b, OrderMsg(v));
    d := SequencedCommit(v, sigs);
    AvailableWhenIssued(c, a, Run(events, byzantine));
    AvailableWhenIssued(d, b, Run(events, byzantine));
  }
}
