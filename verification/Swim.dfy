/** One node's converged member map: the merge order, refutation, the suspicion clock and delta gossip. */
module Swim {
  import opened Messages
  import opened Options
  import opened Words

  /** A dialable address, as parsed. */
  type Addr = nat

  /** Ordered by how dead. */
  datatype Liveness = Alive | Suspect | Dead {
    function Rank(): nat {
      match this
      case Alive => 0
      case Suspect => 1
      case Dead => 2
    }
  }

  /** Any byte other than 1 and 2 reads as Alive. */
  function FromByte(v: nat): Liveness {
    if v == 1 then Suspect else if v == 2 then Dead else Alive
  }

  /** The suspicion clock is local and never gossiped. */
  datatype Member =
    Member(addr: Addr, lastHeard: nat, incarnation: nat, state: Liveness, suspectSince: Option<nat>)

  type Members = map<Id, Member>

  /** A gossiped entry; the address is None when it does not parse. */
  datatype Entry = Entry(id: Id, addr: Option<Addr>, lastHeard: nat, incarnation: nat, state: nat)

  const GOSSIP_REPEATS: nat := 6

  function ToEntry(id: Id, m: Member): Entry {
    Entry(id, Some(m.addr), m.lastHeard, m.incarnation, m.state.Rank())
  }

  function AliveAt(addr: Addr, now: nat): Member {
    Member(addr, now, 0, Alive, None)
  }

  /** Entering Suspect stamps the clock, staying keeps it, leaving clears it. */
  function SetLiveness(m: Member, incarnation: nat, state: Liveness, now: nat): Member {
    m.(incarnation := incarnation, state := state,
       suspectSince := if state.Suspect? then (if m.suspectSince.Some? then m.suspectSince else Some(now)) else None)
  }

  // ---- merging ----------------------------------------------------------------------------------------

  predicate Wins(e: Entry, m: Member) {
    e.incarnation > m.incarnation || (e.incarnation == m.incarnation && FromByte(e.state).Rank() > m.state.Rank())
  }

  /** Liveness and freshness merge independently. */
  function Absorb(m: Member, e: Entry, addr: Addr, now: nat): Member {
    var live := if Wins(e, m) then SetLiveness(m, e.incarnation, FromByte(e.state), now) else m;
    if e.lastHeard > m.lastHeard then live.(lastHeard := e.lastHeard, addr := addr) else live
  }

  function Learn(e: Entry, addr: Addr, now: nat): Member {
    Member(addr, e.lastHeard, e.incarnation, FromByte(e.state),
           if FromByte(e.state).Suspect? then Some(now) else None)
  }

  function MergeOne(ms: Members, e: Entry, now: nat): Members {
    match e.addr
    case None => ms
    case Some(addr) => ms[e.id := if e.id in ms then Absorb(ms[e.id], e, addr, now) else Learn(e, addr, now)]
  }

  /** A new member or a liveness change is worth gossiping; fresher evidence alone is not. */
  predicate DeltaWorthy(ms: Members, e: Entry) {
    e.addr.Some? && (e.id in ms ==> Wins(e, ms[e.id]))
  }

  // ---- a node and its steps -----------------------------------------------------------------------------

  datatype Node = Node(me: Id, incarnation: nat, members: Members, dirty: map<Id, nat>)

  function Refreshed(v: Node, addr: Addr, now: nat): Node {
    v.(members := v.members[v.me := Member(addr, now, v.incarnation, Alive, None)])
  }

  predicate Accuses(e: Entry, id: Id) {
    e.id == id && !FromByte(e.state).Alive?
  }

  /** One incoming entry: an accusation of this node raises its incarnation, an entry about another merges. */
  function MergeEntry(v: Node, e: Entry, now: nat): Node {
    if e.id == v.me then
      if Accuses(e, v.me) then v.(incarnation := SatAdd(Max(e.incarnation, v.incarnation), 1)) else v
    else
      v.(members := MergeOne(v.members, e, now),
         dirty := if DeltaWorthy(v.members, e) then v.dirty[e.id := GOSSIP_REPEATS] else v.dirty)
  }

  function MergeEntries(v: Node, es: seq<Entry>, now: nat): Node {
    if |es| == 0 then v else MergeEntry(MergeEntries(v, es[..|es| - 1], now), es[|es| - 1], now)
  }

  predicate Accused(es: seq<Entry>, id: Id) {
    exists i :: 0 <= i < |es| && Accuses(es[i], id)
  }

  function Merged(v: Node, es: seq<Entry>, addr: Addr, now: nat): Node {
    var w := MergeEntries(v, es, now);
    if Accused(es, v.me) then
      var r := Refreshed(w, addr, now);
      r.(dirty := r.dirty[r.me := GOSSIP_REPEATS])
    else w
  }

  /** Only a currently Alive member becomes Suspect. */
  function Suspected(v: Node, id: Id, now: nat): Node {
    if id in v.members && v.members[id].state.Alive? then
      v.(members := v.members[id := SetLiveness(v.members[id], v.members[id].incarnation, Suspect, now)],
         dirty := v.dirty[id := GOSSIP_REPEATS])
    else v
  }

  function MarkedDead(v: Node, id: Id, now: nat): Node {
    if id in v.members then
      v.(members := v.members[id := SetLiveness(v.members[id], v.members[id].incarnation, Dead, now)],
         dirty := v.dirty[id := GOSSIP_REPEATS])
    else v
  }

  predicate Expired(m: Member, now: nat, timeout: nat) {
    m.state.Suspect? && m.suspectSince.Some? && SatSub(now, m.suspectSince.value) >= timeout
  }

  function AllMarkedDead(v: Node, ids: set<Id>, now: nat): Node {
    v.(members := map id | id in v.members ::
                    if id in ids then SetLiveness(v.members[id], v.members[id].incarnation, Dead, now) else v.members[id],
       dirty := Queue(v, ids))
  }

  function Overdue(ms: Members, now: nat, timeout: nat): set<Id> {
    set id | id in ms && Expired(ms[id], now, timeout)
  }

  function Promoted(v: Node, now: nat, timeout: nat): Node {
    AllMarkedDead(v, Overdue(v.members, now, timeout), now)
  }

  lemma MarkOneMore(v: Node, ids: set<Id>, id: Id, now: nat)
    requires id !in ids
    ensures MarkedDead(AllMarkedDead(v, ids, now), id, now) == AllMarkedDead(v, ids + {id}, now)
  {
    var a, b := MarkedDead(AllMarkedDead(v, ids, now), id, now), AllMarkedDead(v, ids + {id}, now);
    assert a.members == b.members;
    DirtyOneMore(v, ids, id);
  }

  function Queue(v: Node, ids: set<Id>): map<Id, nat> {
    v.dirty + map id | id in ids && id in v.members :: GOSSIP_REPEATS
  }

  lemma DirtyOneMore(v: Node, ids: set<Id>, id: Id)
    ensures Queue(v, ids + {id}) == if id in v.members then Queue(v, ids)[id := GOSSIP_REPEATS] else Queue(v, ids)
  {
  }

  /** A first-hand probe answer clears this node's own suspicion, at the same incarnation. */
  function Probed(v: Node, id: Id, addr: Addr, now: nat): Node {
    if id in v.members then
      var m := v.members[id].(lastHeard := now, addr := addr);
      v.(members := v.members[id := if m.state.Suspect? then SetLiveness(m, m.incarnation, Alive, now) else m])
    else
      v.(members := v.members[id := AliveAt(addr, now)], dirty := v.dirty[id := GOSSIP_REPEATS])
  }

  /** Any inbound message refreshes the sender; an unknown one is learned when it is an active peer. */
  function Heard(v: Node, id: Id, active: Option<Addr>, now: nat): Node {
    if id == v.me then v
    else if id in v.members then v.(members := v.members[id := v.members[id].(lastHeard := now)])
    else match active
      case None => v
      case Some(addr) => v.(members := v.members[id := AliveAt(addr, now)], dirty := v.dirty[id := GOSSIP_REPEATS])
  }

  function Pruned(v: Node, now: nat, retention: nat): Node {
    v.(members := map id | id in v.members && (id == v.me || SatSub(now, v.members[id].lastHeard) < retention)
                    :: v.members[id])
  }

  /** Every counter steps down; one that reaches zero retires its member. */
  function Spent(dirty: map<Id, nat>): map<Id, nat> {
    map id | id in dirty && dirty[id] > 1 :: dirty[id] - 1
  }

  function Pushed(v: Node, addr: Addr, now: nat): Node {
    var r := Refreshed(v, addr, now);
    r.(dirty := Spent(r.dirty))
  }

  function Delta(v: Node): set<Entry> {
    set id | id in v.dirty && id in v.members :: ToEntry(id, v.members[id])
  }

  // ---- the same, in place -------------------------------------------------------------------------------

  class Membership {
    const me: Id
    var selfIncarnation: nat
    var members: Members
    var dirty: map<Id, nat>

    ghost function View(): Node
      reads this
    {
      Node(me, selfIncarnation, members, dirty)
    }

    constructor (me: Id)
      ensures View() == Node(me, 0, map[], map[])
    {
      this.me := me;
      selfIncarnation, members, dirty := 0, map[], map[];
    }

    method RefreshSelf(addr: Addr, now: nat)
      modifies this
      ensures View() == Refreshed(old(View()), addr, now)
    {
      members := members[me := Member(addr, now, selfIncarnation, Alive, None)];
    }

    /** Merge one entry in place; true iff the change is delta-worthy. */
    method MergeOneEntry(e: Entry, now: nat) returns (changed: bool)
      modifies this`members
      ensures members == MergeOne(old(members), e, now)
      ensures changed == DeltaWorthy(old(members), e)
      ensures changed <==> e.id in members && (e.id in old(members) ==>
                                                 || members[e.id].incarnation != old(members)[e.id].incarnation
                                                 || members[e.id].state != old(members)[e.id].state)
    {
      if e.addr.None? {
        return false;
      }
      var state := FromByte(e.state);
      if e.id in members {
        var existing := members[e.id];
        changed := e.incarnation > existing.incarnation
        || (e.incarnation == existing.incarnation && state.Rank() > existing.state.Rank());
        if changed {
          existing := SetLiveness(existing, e.incarnation, state, now);
        }
        if e.lastHeard > existing.lastHeard {
          existing := existing.(lastHeard := e.lastHeard, addr := e.addr.value);
        }
        members := members[e.id := existing];
      } else {
        var m := Member(e.addr.value, e.lastHeard, e.incarnation, state, None);
        if state == Suspect {
          m := m.(suspectSince := Some(now));
        }
        members := members[e.id := m];
        changed := true;
      }
    }

    method MergeMembers(entries: seq<Entry>, addr: Addr, now: nat)
      modifies this
      ensures View() == Merged(old(View()), entries, addr, now)
    {
      var refute := false;
      for i := 0 to |entries|
        invariant View() == MergeEntries(old(View()), entries[..i], now)
        invariant refute == Accused(entries[..i], me)
      {
        assert entries[..i + 1][..i] == entries[..i];
        AccusedStep(entries, i, me);
        var e := entries[i];
        if e.id == me {
          if FromByte(e.state) != Alive {
            selfIncarnation := SatAdd(Max(e.incarnation, selfIncarnation), 1);
            refute := true;
          }
        } else {
          var changed := MergeOneEntry(e, now);
          if changed {
            dirty := dirty[e.id := GOSSIP_REPEATS];
          }
        }
      }
      assert entries[..|entries|] == entries;
      if refute {
        RefreshSelf(addr, now);
        dirty := dirty[me := GOSSIP_REPEATS];
      }
    }

    method MarkDead(id: Id, now: nat)
      modifies this
      ensures View() == MarkedDead(old(View()), id, now)
    {
      if id in members {
        members := members[id := SetLiveness(members[id], members[id].incarnation, Dead, now)];
        dirty := dirty[id := GOSSIP_REPEATS];
      }
    }

    method PromoteSuspects(now: nat, timeout: nat)
      modifies this
      ensures View() == Promoted(old(View()), now, timeout)
    {
      var expired := Overdue(members, now, timeout);
      ghost var marked: set<Id> := {};
      assert View().members == AllMarkedDead(View(), marked, now).members;
      assert View().dirty == AllMarkedDead(View(), marked, now).dirty;
      while expired != {}
        invariant expired !! marked && expired + marked == Overdue(old(members), now, timeout)
        invariant View() == AllMarkedDead(old(View()), marked, now)
        decreases expired
      {
        var id :| id in expired;
        MarkOneMore(old(View()), marked, id, now);
        MarkDead(id, now);
        expired, marked := expired - {id}, marked + {id};
      }
    }

    /** One gossip round: the deltas to send, and whether there are any. */
    method EpidemicPush(addr: Addr, now: nat) returns (delta: set<Entry>)
      modifies this
      ensures View() == Pushed(old(View()), addr, now)
      ensures delta == Delta(Refreshed(old(View()), addr, now))
    {
      RefreshSelf(addr, now);
      ghost var before := dirty;
      var ids := dirty.Keys;
      delta := set id | id in ids && id in members :: ToEntry(id, members[id]);
      while ids != {}
        invariant ids <= before.Keys
        invariant members == Refreshed(old(View()), addr, now).members && selfIncarnation == old(selfIncarnation)
        invariant forall id :: id in dirty ==> id in before
        invariant forall id :: id in before ==>
                    if id in ids then id in dirty && dirty[id] == before[id]
                    else (id in dirty <==> id in Spent(before)) && (id in dirty ==> dirty[id] == Spent(before)[id])
        decreases ids
      {
        var id :| id in ids;
        var left := SatSub(dirty[id], 1);
        dirty := if left == 0 then dirty - {id} else dirty[id := left];
        ids := ids - {id};
      }
      assert dirty == Spent(before);
    }
  }

  lemma AccusedStep(es: seq<Entry>, i: nat, id: Id)
    requires i < |es|
    ensures Accused(es[..i + 1], id) <==> Accused(es[..i], id) || Accuses(es[i], id)
  {
    assert es[..i + 1][i] == es[i];
    assert forall j :: 0 <= j < i ==> es[..i + 1][j] == es[..i][j];
  }
}
