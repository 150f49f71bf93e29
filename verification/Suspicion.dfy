/** One node's whole life: the suspicion clock, when it declares a member Dead, and its gossip counters. */
module Suspicion {
  import opened Messages
  import opened Options
  import opened Words
  import opened Swim
  import opened Gossip

  datatype Event =
    | Refresh(addr: Addr, now: nat)
    | Merge(entries: seq<Entry>, addr: Addr, now: nat)
    | ProbesFailed(id: Id, now: nat)
    | Promote(timeout: nat, now: nat)
    | Push(addr: Addr, now: nat)
    | ProbeOk(id: Id, addr: Addr, now: nat)
    | Hear(id: Id, active: Option<Addr>, now: nat)
    | Prune(retention: nat, now: nat)

  function Apply(v: Node, e: Event): Node {
    match e
    case Refresh(addr, now) => Refreshed(v, addr, now)
    case Merge(entries, addr, now) => Merged(v, entries, addr, now)
    case ProbesFailed(id, now) => Suspected(v, id, now)
    case Promote(timeout, now) => Promoted(v, now, timeout)
    case Push(addr, now) => Pushed(v, addr, now)
    case ProbeOk(id, addr, now) => Probed(v, id, addr, now)
    case Hear(id, active, now) => Heard(v, id, active, now)
    case Prune(retention, now) => Pruned(v, now, retention)
  }

  function ApplyAll(v: Node, events: seq<Event>): Node {
    if |events| == 0 then v else Apply(ApplyAll(v, events[..|events| - 1]), events[|events| - 1])
  }

  function Run(me: Id, events: seq<Event>): Node {
    ApplyAll(Node(me, 0, map[], map[]), events)
  }

  // ---- the clock ----------------------------------------------------------------------------------------

  predicate Clocked(m: Member) {
    m.suspectSince.Some? <==> m.state.Suspect?
  }

  ghost predicate AllClocked(ms: Members) {
    forall id :: id in ms ==> Clocked(ms[id])
  }

  lemma {:induction false} MergeClocked(v: Node, es: seq<Entry>, now: nat)
    requires AllClocked(v.members)
    ensures AllClocked(MergeEntries(v, es, now).members)
  {
    if |es| > 0 {
      MergeClocked(v, es[..|es| - 1], now);
    }
  }

  lemma StepClocked(v: Node, e: Event)
    requires AllClocked(v.members)
    ensures AllClocked(Apply(v, e).members)
  {
    if e.Merge? {
      MergeClocked(v, e.entries, e.now);
    }
  }

  /** In every run a member has a suspicion clock exactly while it is Suspect. */
  lemma {:induction false} ClockIffSuspect(me: Id, events: seq<Event>)
    ensures AllClocked(Run(me, events).members)
  {
    if |events| > 0 {
      ClockIffSuspect(me, events[..|events| - 1]);
      StepClocked(Run(me, events[..|events| - 1]), events[|events| - 1]);
    }
  }

  // ---- declaring a member Dead --------------------------------------------------------------------------

  predicate Holds(v: Node, id: Id, state: Liveness) {
    id in v.members && v.members[id].state == state
  }

  /** The clock of a Suspect member was already running, on the same reading, or starts now. */
  predicate KeptOrStarted(v: Node, w: Node, id: Id, now: nat) {
    Holds(w, id, Suspect) ==>
      || w.members[id].suspectSince == Some(now)
      || (Holds(v, id, Suspect) && v.members[id].suspectSince == w.members[id].suspectSince)
  }

  lemma {:induction false} MergeKeepsClock(v: Node, es: seq<Entry>, now: nat, id: Id)
    requires AllClocked(v.members)
    ensures KeptOrStarted(v, MergeEntries(v, es, now), id, now)
  {
    if |es| > 0 {
      MergeKeepsClock(v, es[..|es| - 1], now, id);
      MergeClocked(v, es[..|es| - 1], now);
    }
  }

  lemma StepKeepsClock(v: Node, e: Event, id: Id)
    requires AllClocked(v.members)
    ensures KeptOrStarted(v, Apply(v, e), id, e.now)
  {
    if e.Merge? {
      MergeKeepsClock(v, e.entries, e.now, id);
    }
  }

  lemma {:induction false} MergeKeepsSuspicion(v: Node, es: seq<Entry>, now: nat, id: Id)
    requires AllClocked(v.members) && id != v.me && Holds(v, id, Suspect)
    requires forall i :: 0 <= i < |es| && es[i].id == id ==> es[i].state == 1
    ensures var w := MergeEntries(v, es, now);
            Holds(w, id, Suspect) && w.members[id].suspectSince == v.members[id].suspectSince
  {
    if |es| > 0 {
      MergeKeepsSuspicion(v, es[..|es| - 1], now, id);
      MergeClocked(v, es[..|es| - 1], now);
    }
  }

  /** Being suspected again, at whatever incarnation, does not restart the clock. */
  lemma SuspicionKeepsClock(v: Node, e: Event, id: Id)
    requires AllClocked(v.members) && id != v.me && Holds(v, id, Suspect) && Holds(Apply(v, e), id, Suspect)
    requires e.Merge? ==> forall i :: 0 <= i < |e.entries| && e.entries[i].id == id ==> e.entries[i].state == 1
    ensures Apply(v, e).members[id].suspectSince == v.members[id].suspectSince
  {
    if e.Merge? {
      MergeKeepsSuspicion(v, e.entries, e.now, id);
      MeStays(v, e.entries, e.now);
    }
  }

  /** Suspect in every state after event j. */
  ghost predicate HeldSince(me: Id, events: seq<Event>, id: Id, j: nat) {
    forall i {:trigger events[..i]} :: j < i <= |events| ==> Holds(Run(me, events[..i]), id, Suspect)
  }

  /** The clock of a Suspect member reads the time of the event since which it has been held Suspect. */
  lemma {:induction false} ClockIsStart(me: Id, events: seq<Event>, id: Id) returns (j: nat)
    requires Holds(Run(me, events), id, Suspect)
    ensures j < |events| && HeldSince(me, events, id, j)
    ensures Run(me, events).members[id].suspectSince == Some(events[j].now)
  {
    var n := |events| - 1;
    var before := Run(me, events[..n]);
    ClockIffSuspect(me, events[..n]);
    StepKeepsClock(before, events[n], id);
    assert events[..|events|] == events;
    if Run(me, events).members[id].suspectSince == Some(events[n].now) {
      j := n;
    } else {
      j := ClockIsStart(me, events[..n], id);
      forall i {:trigger events[..i]} | j < i <= |events|
        ensures Holds(Run(me, events[..i]), id, Suspect)
      {
        if i <= n {
          assert events[..n][..i] == events[..i];
        }
      }
    }
  }

  /** A node itself declares a member Dead only by promotion, and only after holding it Suspect without a
      break for at least the timeout. */
  lemma DeadOnlyAfterTimeout(me: Id, events: seq<Event>, id: Id) returns (j: nat)
    requires |events| > 0 && !events[|events| - 1].Merge?
    requires !Holds(Run(me, events[..|events| - 1]), id, Dead) && Holds(Run(me, events), id, Dead)
    ensures events[|events| - 1].Promote? && j < |events| - 1
    ensures HeldSince(me, events[..|events| - 1], id, j)
    ensures SatSub(events[|events| - 1].now, events[j].now) >= events[|events| - 1].timeout
  {
    var n := |events| - 1;
    j := ClockIsStart(me, events[..n], id);
  }

  /** And promotion does declare a Suspect member Dead, exactly from the timeout on, counted from the event since
      which it has been held Suspect. */
  lemma DeadIffTimeout(me: Id, events: seq<Event>, id: Id, timeout: nat, now: nat) returns (j: nat)
    requires Holds(Run(me, events), id, Suspect)
    ensures j < |events| && HeldSince(me, events, id, j)
    ensures Holds(Apply(Run(me, events), Promote(timeout, now)), id, Dead) <==> SatSub(now, events[j].now) >= timeout
  {
    j := ClockIsStart(me, events, id);
  }

  // ---- what moves a member's liveness -------------------------------------------------------------------

  /** A first-hand probe answer, the only thing that takes a suspicion back without a new incarnation. */
  predicate Clears(e: Event, before: Member, after: Member, id: Id) {
    && e.ProbeOk? && e.id == id && before.state.Suspect? && after.state.Alive?
    && after.incarnation == before.incarnation
  }

  /** Whatever a node does, the (incarnation, state) it holds for another member only rises, except that a
      probe answer clears this node's own suspicion. Dead stays Dead until a higher incarnation arrives. */
  lemma LivenessNeverFalls(v: Node, e: Event, id: Id)
    requires id != v.me && id in v.members && id in Apply(v, e).members
    ensures var before, after := v.members[id], Apply(v, e).members[id];
            && (KeyLe(before, after) || Clears(e, before, after, id))
            && (before.state.Dead? ==> after.state.Dead? || after.incarnation > before.incarnation)
  {
    if e.Merge? {
      JoinGrows(v, e.entries, e.now, id);
    }
  }

  /** The member answered a probe, or was heard from and is known or an active peer. */
  predicate FirstHand(v: Node, e: Event, id: Id) {
    || (e.ProbeOk? && e.id == id)
    || (e.Hear? && e.id == id && (id in v.members || e.active.Some?))
  }

  /** All a node does to another member's record on its own: suspect an Alive one, clear its suspicion on a probe
      answer, promote an overdue suspicion to Dead, all at the incarnation it holds; note when it last heard from
      it, and where it answered; learn a new one as Alive at incarnation zero; forget a long silent one. */
  lemma LocalSteps(v: Node, e: Event, id: Id)
    requires !e.Merge? && id != v.me
    ensures var w := Apply(v, e);
            && (id in v.members && id in w.members ==>
                  var before, after := v.members[id], w.members[id];
                  && after.incarnation == before.incarnation
                  && after.state == (if e.ProbesFailed? && e.id == id && before.state.Alive? then Suspect
                                     else if e.ProbeOk? && e.id == id && before.state.Suspect? then Alive
                                     else if e.Promote? && Expired(before, e.now, e.timeout) then Dead
                                     else before.state)
                  && (after.addr != before.addr ==> e.ProbeOk? && e.id == id)
                  && (after.lastHeard != before.lastHeard ==> FirstHand(v, e, id) && after.lastHeard == e.now))
            && (id !in v.members ==>
                  && (id in w.members <==> FirstHand(v, e, id))
                  && (id in w.members ==> w.members[id].state.Alive? && w.members[id].incarnation == 0))
            && (id in v.members ==>
                  (id !in w.members <==> e.Prune? && SatSub(e.now, v.members[id].lastHeard) >= e.retention))
  {
  }

  /** A node's own record is never lost, and a push or a refresh makes it Alive, current and addressed. */
  lemma OwnRecordStays(v: Node, e: Event)
    ensures v.me in v.members ==> v.me in Apply(v, e).members
    ensures e.Push? || e.Refresh? ==>
              && v.me in Apply(v, e).members
              && Apply(v, e).members[v.me] == Member(e.addr, e.now, v.incarnation, Alive, None)
  {
    if e.Merge? {
      MeStays(v, e.entries, e.now);
      if v.me in v.members {
        JoinGrows(v, e.entries, e.now, v.me);
      }
    }
  }

  // ---- first-hand evidence -------------------------------------------------------------------------------

  predicate HeardSince(v: Node, id: Id, t: nat) {
    id in v.members && v.members[id].lastHeard >= t
  }

  lemma StepKeepsHeard(v: Node, e: Event, id: Id, t: nat)
    requires id != v.me && HeardSince(v, id, t) && e.now >= t
    requires e.Prune? ==> SatSub(e.now, t) < e.retention
    ensures HeardSince(Apply(v, e), id, t)
  {
    if e.Merge? {
      JoinGrows(v, e.entries, e.now, id);
    }
  }

  /** Whoever a node had first-hand evidence of stays known, with evidence at least that recent, until a pruning
      that long after; and stays in the census that long, unless it is held Dead. */
  lemma {:induction false} EvidenceLasts(me: Id, events: seq<Event>, id: Id, j: nat)
    requires j < |events| && id != me && FirstHand(Run(me, events[..j]), events[j], id)
    requires forall i :: j < i < |events| ==> events[i].now >= events[j].now
    requires forall i :: j < i < |events| && events[i].Prune? ==>
                           SatSub(events[i].now, events[j].now) < events[i].retention
    ensures HeardSince(Run(me, events), id, events[j].now)
    ensures forall now, backstop :: SatSub(now, events[j].now) < backstop && !Holds(Run(me, events), id, Dead) ==>
                                      InCensus(Run(me, events), id, now, backstop)
  {
    var n := |events| - 1;
    var v := Run(me, events[..n]);
    KeepsMe(Node(me, 0, map[], map[]), events[..n]);
    if j < n {
      assert events[..n][..j] == events[..j];
      EvidenceLasts(me, events[..n], id, j);
      StepKeepsHeard(v, events[n], id, events[j].now);
    }
  }

  /** And where it answered is the address held until something fresher comes. */
  lemma AnswerSetsAddress(v: Node, addr: Addr, now: nat, id: Id, entries: seq<Entry>, own: Addr, later: nat)
    requires id != v.me && forall i :: 0 <= i < |entries| && entries[i].id == id ==> entries[i].lastHeard <= now
    ensures var w := Apply(Apply(v, ProbeOk(id, addr, now)), Merge(entries, own, later));
            id in w.members && w.members[id].addr == addr && w.members[id].lastHeard == now
  {
    StaleKeepsAddress(Apply(v, ProbeOk(id, addr, now)), entries, later, id);
    MeStays(Apply(v, ProbeOk(id, addr, now)), entries, later);
  }

  lemma {:induction false} StaleKeepsAddress(v: Node, es: seq<Entry>, now: nat, id: Id)
    requires id != v.me && id in v.members
    requires forall i :: 0 <= i < |es| && es[i].id == id ==> es[i].lastHeard <= v.members[id].lastHeard
    ensures var w := MergeEntries(v, es, now);
            && id in w.members && w.members[id].addr == v.members[id].addr
            && w.members[id].lastHeard == v.members[id].lastHeard
  {
    if |es| > 0 {
      StaleKeepsAddress(v, es[..|es| - 1], now, id);
    }
  }

  // ---- what is queued for gossip --------------------------------------------------------------------------

  /** A step brought a new member, or moved its incarnation or state. */
  predicate Changed(v: Node, w: Node, id: Id) {
    id in w.members && (id in v.members ==>
                          || v.members[id].incarnation != w.members[id].incarnation
                          || v.members[id].state != w.members[id].state)
  }

  predicate SameCount(v: Node, w: Node, id: Id) {
    (id in w.dirty <==> id in v.dirty) && (id in w.dirty ==> w.dirty[id] == v.dirty[id])
  }

  lemma {:induction false} MergeQueues(v: Node, es: seq<Entry>, now: nat, id: Id)
    requires id != v.me
    ensures var w := MergeEntries(v, es, now);
            && (id in v.members ==> id in w.members && KeyLe(v.members[id], w.members[id]))
            && (if Changed(v, w, id) then id in w.dirty && w.dirty[id] == 6 else SameCount(v, w, id))
  {
    if |es| > 0 {
      MergeQueues(v, es[..|es| - 1], now, id);
      MeStays(v, es[..|es| - 1], now);
    }
  }

  /** Whatever a node does except push: another member that is new to it, or whose incarnation or state moved, is
      queued for six pushes, and nothing else is; only a suspicion it takes back itself is not passed on. */
  lemma ChangesAreQueued(v: Node, e: Event, id: Id)
    requires !e.Push? && id != v.me
    ensures var w := Apply(v, e);
            if Changed(v, w, id) && !(id in v.members && Clears(e, v.members[id], w.members[id], id))
            then id in w.dirty && w.dirty[id] == 6
            else SameCount(v, w, id)
  {
    if e.Merge? {
      MergeQueues(v, e.entries, e.now, id);
      MeStays(v, e.entries, e.now);
    }
  }

  lemma {:induction false} MergeLeavesOwn(v: Node, es: seq<Entry>, now: nat)
    ensures SameCount(v, MergeEntries(v, es, now), v.me)
  {
    if |es| > 0 {
      MergeLeavesOwn(v, es[..|es| - 1], now);
      MeStays(v, es[..|es| - 1], now);
    }
  }

  /** A node's own record is queued exactly when it was accused. */
  lemma AccusedIsQueued(v: Node, entries: seq<Entry>, addr: Addr, now: nat)
    ensures var w := Apply(v, Merge(entries, addr, now));
            if exists i :: 0 <= i < |entries| && entries[i].id == v.me && entries[i].state in {1, 2}
            then v.me in w.dirty && w.dirty[v.me] == 6
            else SameCount(v, w, v.me)
  {
    MergeLeavesOwn(v, entries, now);
    MeStays(v, entries, now);
    assert forall i :: 0 <= i < |entries| ==>
        (Accuses(entries[i], v.me) <==> entries[i].id == v.me && (entries[i].state == 1 || entries[i].state == 2));
  }

  // ---- delta gossip -------------------------------------------------------------------------------------

  ghost predicate Counting(v: Node) {
    forall id :: id in v.dirty ==> 1 <= v.dirty[id] <= GOSSIP_REPEATS
  }

  lemma {:induction false} MergeCounting(v: Node, es: seq<Entry>, now: nat)
    requires Counting(v)
    ensures Counting(MergeEntries(v, es, now))
  {
    if |es| > 0 {
      MergeCounting(v, es[..|es| - 1], now);
    }
  }

  /** In every run each gossip counter lies between one and six. */
  lemma {:induction false} RunCounting(me: Id, events: seq<Event>)
    ensures Counting(Run(me, events))
  {
    if |events| > 0 {
      var v, e := Run(me, events[..|events| - 1]), events[|events| - 1];
      RunCounting(me, events[..|events| - 1]);
      if e.Merge? {
        MergeCounting(v, e.entries, e.now);
      }
    }
  }

  function Pushes(events: seq<Event>): nat {
    if |events| == 0 then 0
    else Pushes(events[..|events| - 1]) + if events[|events| - 1].Push? then 1 else 0
  }

  /** Nothing but pushes touches the queue: no new member and no change of liveness. */
  ghost predicate Quiet(v: Node, events: seq<Event>) {
    |events| > 0 ==>
      var w, e := ApplyAll(v, events[..|events| - 1]), events[|events| - 1];
      Quiet(v, events[..|events| - 1]) && (e.Push? || Apply(w, e).dirty == w.dirty)
  }

  /** The push sends the member's record as it stands. */
  ghost predicate Sends(w: Node, e: Event, id: Id) {
    e.Push? && var r := Refreshed(w, e.addr, e.now); id in r.members && ToEntry(id, r.members[id]) in Delta(r)
  }

  /** How many of the pushes in a run send a member's entry. */
  ghost function TimesSent(v: Node, events: seq<Event>, id: Id): nat {
    if |events| == 0 then 0
    else
      var w, e := ApplyAll(v, events[..|events| - 1]), events[|events| - 1];
      TimesSent(v, events[..|events| - 1], id)
      + if Sends(w, e, id) then 1 else 0
  }

  ghost predicate KeptThroughout(v: Node, events: seq<Event>, id: Id) {
    forall i {:trigger events[..i]} :: 0 <= i <= |events| ==> id in ApplyAll(v, events[..i]).members
  }

  /** While nothing changes, a member queued with count c is sent by the next c pushes and by none after; for
      the node itself it need not even hold a record, since every push first writes one. */
  lemma {:induction false} SentExactly(v: Node, events: seq<Event>, id: Id)
    requires Quiet(v, events) && Counting(v) && id in v.dirty && (id == v.me || KeptThroughout(v, events, id))
    ensures TimesSent(v, events, id) == Min(v.dirty[id], Pushes(events))
  {
    if |events| > 0 {
      var n := |events| - 1;
      var w, e := ApplyAll(v, events[..n]), events[n];
      assert forall i :: 0 <= i <= n ==> events[..n][..i] == events[..i];
      SentExactly(v, events[..n], id);
      CountsDown(v, events[..n], id);
      assert id == v.me || id in w.members;
      KeepsMe(v, events[..n]);
      if e.Push? {
        SentIsQueued(w, e, id);
      }
    }
  }

  /** So whatever a merge newly learned goes out with the next six pushes, while nothing else changes. */
  lemma LearnedIsSent(v: Node, merge: Event, events: seq<Event>, id: Id)
    requires merge.Merge? && Counting(v) && id != v.me && Changed(v, Apply(v, merge), id)
    requires Quiet(Apply(v, merge), events) && KeptThroughout(Apply(v, merge), events, id)
    ensures TimesSent(Apply(v, merge), events, id) == Min(6, Pushes(events))
  {
    ChangesAreQueued(v, merge, id);
    MergeCounting(v, merge.entries, merge.now);
    SentExactly(Apply(v, merge), events, id);
  }

  lemma SentIsQueued(v: Node, e: Event, id: Id)
    requires e.Push?
    ensures Sends(v, e, id) <==> id in v.dirty && (id == v.me || id in v.members)
  {
    var r := Refreshed(v, e.addr, e.now);
    if id in v.dirty && (id == v.me || id in v.members) {
      assert id in r.dirty && id in r.members;
      assert ToEntry(id, r.members[id]) in Delta(r);
    }
  }

  lemma {:induction false} KeepsMe(v: Node, events: seq<Event>)
    ensures ApplyAll(v, events).me == v.me
  {
    if |events| > 0 {
      KeepsMe(v, events[..|events| - 1]);
      StepKeepsMe(ApplyAll(v, events[..|events| - 1]), events[|events| - 1]);
    }
  }

  lemma StepKeepsMe(v: Node, e: Event)
    ensures Apply(v, e).me == v.me
  {
    if e.Merge? {
      MeStays(v, e.entries, e.now);
    }
  }

  /** Counters step down with each push and with nothing else. */
  lemma {:induction false} CountsDown(v: Node, events: seq<Event>, id: Id)
    requires Quiet(v, events) && Counting(v)
    ensures var w := ApplyAll(v, events);
            && (id in w.dirty <==> id in v.dirty && v.dirty[id] > Pushes(events))
            && (id in w.dirty ==> w.dirty[id] == v.dirty[id] - Pushes(events))
  {
    if |events| > 0 {
      CountsDown(v, events[..|events| - 1], id);
    }
  }

  /** After the last change, six pushes empty the queue, whatever the run before. */
  lemma SixPushesDrain(me: Id, events: seq<Event>, after: seq<Event>)
    requires Quiet(Run(me, events), after) && Pushes(after) >= GOSSIP_REPEATS
    ensures ApplyAll(Run(me, events), after).dirty == map[]
  {
    var v := Run(me, events);
    RunCounting(me, events);
    forall id
      ensures id !in ApplyAll(v, after).dirty
    {
      CountsDown(v, after, id);
    }
  }
}
