/** Honest nodes, which may restart, gossiping over a network that loses, reorders and duplicates: how a node
    accused of being Suspect or Dead refutes. */
module Refutation {
  import opened Messages
  import opened Options
  import opened Words
  import opened Swim
  import opened Suspicion

  /** Every node, and every entry ever sent. Entries stay receivable for ever. */
  datatype World = World(nodes: map<Id, Node>, sent: set<Entry>)

  /** A node takes a local step, sends its whole member map, or comes back knowing nothing. */
  datatype Action = Local(node: Id, event: Event) | Sync(node: Id) | Restart(node: Id)

  function Full(v: Node): set<Entry> {
    set id | id in v.members :: ToEntry(id, v.members[id])
  }

  /** Nodes merge only what some node sent. */
  predicate Legal(w: World, a: Action) {
    && a.node in w.nodes
    && (a.Local? && a.event.Merge? ==> forall e :: e in a.event.entries ==> e in w.sent)
  }

  function Step(w: World, a: Action): World
    requires Legal(w, a)
  {
    var v := w.nodes[a.node];
    match a
    case Local(n, e) =>
      World(w.nodes[n := Apply(v, e)], w.sent + if e.Push? then Delta(Refreshed(v, e.addr, e.now)) else {})
    case Sync(n) => w.(sent := w.sent + Full(v))
    case Restart(n) => w.(nodes := w.nodes[n := Node(n, 0, map[], map[])])
  }

  ghost predicate LegalRun(ids: set<Id>, actions: seq<Action>)
    decreases |actions|, 0
  {
    |actions| > 0 ==>
      && LegalRun(ids, actions[..|actions| - 1])
      && Legal(Run(ids, actions[..|actions| - 1]), actions[|actions| - 1])
  }

  ghost function Run(ids: set<Id>, actions: seq<Action>): World
    requires LegalRun(ids, actions)
    decreases |actions|, 1
  {
    if |actions| == 0 then World(map id | id in ids :: Node(id, 0, map[], map[]), {})
    else Step(Run(ids, actions[..|actions| - 1]), actions[|actions| - 1])
  }

  lemma Extend(ids: set<Id>, actions: seq<Action>, a: Action)
    requires LegalRun(ids, actions) && Legal(Run(ids, actions), a)
    ensures LegalRun(ids, actions + [a]) && Run(ids, actions + [a]) == Step(Run(ids, actions), a)
  {
    assert (actions + [a])[..|actions|] == actions;
  }

  // ---- nobody is ahead of a node's highest incarnation ---------------------------------------------------

  /** A node's own incarnation; zero for an id that is not a node. */
  function Own(w: World, id: Id): nat {
    if id in w.nodes then w.nodes[id].incarnation else 0
  }

  ghost predicate Behind(ms: Members, bound: Id -> nat) {
    forall id :: id in ms ==> ms[id].incarnation <= bound(id)
  }

  ghost predicate SentBehind(sent: set<Entry>, bound: Id -> nat) {
    forall e :: e in sent ==> e.incarnation <= bound(e.id)
  }

  ghost predicate NodeSound(w: World, n: Id, bound: Id -> nat) {
    n in w.nodes ==>
      var v := w.nodes[n];
      v.me == n && v.incarnation < U64 && v.incarnation <= bound(n) && Behind(v.members, bound)
  }

  ghost predicate Sound(w: World, bound: Id -> nat) {
    (forall n :: NodeSound(w, n, bound)) && SentBehind(w.sent, bound)
  }

  /** The highest incarnation a node ever had in a run, over its restarts. */
  ghost function Peak(ids: set<Id>, actions: seq<Action>, id: Id): nat
    requires LegalRun(ids, actions)
  {
    if |actions| == 0 then 0
    else Max(Peak(ids, actions[..|actions| - 1], id), Own(Run(ids, actions), id))
  }

  ghost function Peaks(ids: set<Id>, actions: seq<Action>): Id -> nat
    requires LegalRun(ids, actions)
  {
    id => Peak(ids, actions, id)
  }

  lemma {:induction false} MergeBehind(v: Node, es: seq<Entry>, now: nat, bound: Id -> nat)
    requires Behind(v.members, bound)
    requires forall e :: e in es ==> e.incarnation <= bound(e.id)
    ensures Behind(MergeEntries(v, es, now).members, bound)
  {
    if |es| > 0 {
      assert es[|es| - 1] in es;
      MergeBehind(v, es[..|es| - 1], now, bound);
    }
  }

  /** A node's incarnation stays in 64 bits, never falls, and an accusation raises it while it can rise. */
  lemma {:induction false} MergeRises(v: Node, es: seq<Entry>, now: nat)
    requires v.incarnation < U64
    ensures v.incarnation <= MergeEntries(v, es, now).incarnation < U64
    ensures MergeEntries(v, es, now).me == v.me
    ensures Accused(es, v.me) ==> MergeEntries(v, es, now).incarnation >= Min(v.incarnation + 1, U64 - 1)
  {
    if |es| > 0 {
      MergeRises(v, es[..|es| - 1], now);
      AccusedStep(es, |es| - 1, v.me);
      assert es[..|es|] == es;
    }
  }

  lemma ApplyRises(v: Node, e: Event)
    requires v.incarnation < U64
    ensures v.incarnation <= Apply(v, e).incarnation < U64 && Apply(v, e).me == v.me
  {
    if e.Merge? {
      MergeRises(v, e.entries, e.now);
    }
  }

  lemma ApplyBehind(v: Node, e: Event, bound: Id -> nat)
    requires Behind(v.members, bound) && v.incarnation < U64 && Apply(v, e).incarnation <= bound(v.me)
    requires e.Merge? ==> forall x :: x in e.entries ==> x.incarnation <= bound(x.id)
    ensures Behind(Apply(v, e).members, bound)
  {
    ApplyRises(v, e);
    if e.Merge? {
      MergeBehind(v, e.entries, e.now, bound);
      MergeRises(v, e.entries, e.now);
    }
  }

  lemma BehindRises(ms: Members, bound: Id -> nat, higher: Id -> nat)
    requires Behind(ms, bound) && forall id :: bound(id) <= higher(id)
    ensures Behind(ms, higher)
  {
  }

  lemma ActorSound(w: World, a: Action, bound: Id -> nat, higher: Id -> nat)
    requires Sound(w, bound) && Legal(w, a) && a.Local?
    requires forall id :: bound(id) <= higher(id)
    requires Own(Step(w, a), a.node) <= higher(a.node)
    ensures NodeSound(Step(w, a), a.node, higher)
  {
    var v := w.nodes[a.node];
    assert NodeSound(w, a.node, bound);
    ApplyRises(v, a.event);
    BehindRises(v.members, bound, higher);
    ApplyBehind(v, a.event, higher);
  }

  lemma SentSound(w: World, a: Action, bound: Id -> nat, higher: Id -> nat)
    requires Sound(w, bound) && Legal(w, a) && forall id :: bound(id) <= higher(id)
    ensures SentBehind(Step(w, a).sent, higher)
  {
    assert NodeSound(w, a.node, bound);
    forall e | e in Step(w, a).sent
      ensures e.incarnation <= higher(e.id)
    {
      assert bound(e.id) <= higher(e.id);
    }
  }

  lemma StepSound(w: World, a: Action, bound: Id -> nat, higher: Id -> nat)
    requires Sound(w, bound) && Legal(w, a)
    requires forall id :: bound(id) <= higher(id)
    requires Own(Step(w, a), a.node) <= higher(a.node)
    ensures Sound(Step(w, a), higher)
  {
    forall n
      ensures NodeSound(Step(w, a), n, higher)
    {
      if a.Local? && n == a.node {
        ActorSound(w, a, bound, higher);
      } else {
        assert NodeSound(w, n, bound) && bound(n) <= higher(n);
      }
    }
    SentSound(w, a, bound, higher);
  }

  /** In every run, no record and no entry in flight about a node carries an incarnation above the highest that
      node ever had. */
  lemma {:induction false} NobodyIsAhead(ids: set<Id>, actions: seq<Action>)
    requires LegalRun(ids, actions)
    ensures Sound(Run(ids, actions), Peaks(ids, actions))
  {
    if |actions| > 0 {
      var before := actions[..|actions| - 1];
      NobodyIsAhead(ids, before);
      StepSound(Run(ids, before), actions[|actions| - 1], Peaks(ids, before), Peaks(ids, actions));
    }
  }

  predicate NeverRestarts(actions: seq<Action>, id: Id) {
    Restart(id) !in actions
  }

  /** Which, unless it restarted, is its incarnation now. */
  lemma {:induction false} PeakIsNow(ids: set<Id>, actions: seq<Action>, id: Id)
    requires LegalRun(ids, actions) && NeverRestarts(actions, id)
    ensures Peak(ids, actions, id) == Own(Run(ids, actions), id)
  {
    if |actions| > 0 {
      var before, a := actions[..|actions| - 1], actions[|actions| - 1];
      PeakIsNow(ids, before, id);
      NobodyIsAhead(ids, before);
      assert NodeSound(Run(ids, before), a.node, Peaks(ids, before));
      if a.Local? {
        ApplyRises(Run(ids, before).nodes[a.node], a.event);
      }
    }
  }

  // ---- refuting -----------------------------------------------------------------------------------------

  /** The largest incarnation among a node's own and the accusations it merges. */
  function Largest(own: nat, es: seq<Entry>, id: Id): nat {
    if |es| == 0 then own
    else
      var before := Largest(own, es[..|es| - 1], id);
      if Accuses(es[|es| - 1], id) then Max(before, es[|es| - 1].incarnation) else before
  }

  lemma {:induction false} MergePasses(v: Node, es: seq<Entry>, now: nat)
    requires v.incarnation < U64
    ensures MergeEntries(v, es, now).me == v.me
    ensures Accused(es, v.me) ==>
              MergeEntries(v, es, now).incarnation >= Min(Largest(v.incarnation, es, v.me) + 1, U64 - 1)
    ensures !Accused(es, v.me) ==>
              MergeEntries(v, es, now).incarnation == v.incarnation == Largest(v.incarnation, es, v.me)
  {
    if |es| > 0 {
      MergePasses(v, es[..|es| - 1], now);
      MergeRises(v, es[..|es| - 1], now);
      AccusedStep(es, |es| - 1, v.me);
      assert es[..|es|] == es;
    }
  }

  /** The record an accused node publishes. */
  lemma PublishesAlive(v: Node, e: Event)
    requires e.Merge? && Accused(e.entries, v.me) && v.incarnation < U64
    ensures var u := Apply(v, e);
            && v.me in u.members && v.me in u.dirty
            && u.members[v.me] == Member(e.addr, e.now, u.incarnation, Alive, None)
            && Min(v.incarnation + 1, U64 - 1) <= u.incarnation < U64
  {
    MergeRises(v, e.entries, e.now);
  }

  lemma HolderTurns(ms: Members, x: Id, r: Member, later: nat)
    requires x in ms && r.state.Alive?
    ensures MergeOne(ms, ToEntry(x, r), later)[x].state.Alive?
            <==> ms[x].state.Alive? || ms[x].incarnation < r.incarnation
  {
  }

  lemma Republishes(ids: set<Id>, actions: seq<Action>, x: Id, e: Event)
    requires LegalRun(ids, actions) && e.Merge? && Legal(Run(ids, actions), Local(x, e)) && Accused(e.entries, x)
    ensures var u := Apply(Run(ids, actions).nodes[x], e);
            x in u.members && u.members[x] == Member(e.addr, e.now, u.incarnation, Alive, None)
  {
    NobodyIsAhead(ids, actions);
    assert NodeSound(Run(ids, actions), x, Peaks(ids, actions));
    PublishesAlive(Run(ids, actions).nodes[x], e);
  }

  lemma HeldBelowPeak(ids: set<Id>, actions: seq<Action>, n: Id, x: Id)
    requires LegalRun(ids, actions) && n in Run(ids, actions).nodes && x in Run(ids, actions).nodes[n].members
    ensures Run(ids, actions).nodes[n].members[x].incarnation <= Peak(ids, actions, x)
  {
    NobodyIsAhead(ids, actions);
    assert NodeSound(Run(ids, actions), n, Peaks(ids, actions));
    assert Run(ids, actions).nodes[n].members[x].incarnation <= Peaks(ids, actions)(x);
  }

  lemma {:induction false} PeakFits(ids: set<Id>, actions: seq<Action>, id: Id)
    requires LegalRun(ids, actions)
    ensures Peak(ids, actions, id) < U64
  {
    if |actions| > 0 {
      PeakFits(ids, actions[..|actions| - 1], id);
      NobodyIsAhead(ids, actions);
      assert NodeSound(Run(ids, actions), id, Peaks(ids, actions));
    }
  }

  lemma SentBelowPeak(ids: set<Id>, actions: seq<Action>, stale: Entry)
    requires LegalRun(ids, actions) && stale in Run(ids, actions).sent
    ensures stale.incarnation <= Peak(ids, actions, stale.id) < U64
  {
    NobodyIsAhead(ids, actions);
    PeakFits(ids, actions, stale.id);
    assert stale.incarnation <= Peaks(ids, actions)(stale.id);
  }

  /** A node that never restarted has an incarnation at least as high as any that is around; one that did
      restart, if what it merges tells it. */
  ghost predicate Knows(ids: set<Id>, actions: seq<Action>, x: Id, es: seq<Entry>, incarnation: nat)
    requires LegalRun(ids, actions)
  {
    NeverRestarts(actions, x) || incarnation <= Largest(Own(Run(ids, actions), x), es, x)
  }

  lemma KnownIsPassed(ids: set<Id>, actions: seq<Action>, x: Id, e: Event, incarnation: nat)
    requires LegalRun(ids, actions) && e.Merge? && Legal(Run(ids, actions), Local(x, e)) && Accused(e.entries, x)
    requires incarnation <= Peak(ids, actions, x) && Knows(ids, actions, x, e.entries, incarnation)
    ensures var u := Apply(Run(ids, actions).nodes[x], e);
            Min(incarnation + 1, U64 - 1) <= u.incarnation < U64
  {
    var v := Run(ids, actions).nodes[x];
    NobodyIsAhead(ids, actions);
    assert NodeSound(Run(ids, actions), x, Peaks(ids, actions));
    MergePasses(v, e.entries, e.now);
    PublishesAlive(v, e);
    if NeverRestarts(actions, x) {
      PeakIsNow(ids, actions, x);
    }
  }

  /** After any run in which a node merges an accusation, its new record turns a record about it that another
      node holds Alive if and only if that was Alive or at a lower incarnation; which it is, if the node never
      restarted or was told of it, except exactly when it was at the largest incarnation. */
  lemma RefutationWins(ids: set<Id>, actions: seq<Action>, x: Id, e: Event, n: Id, later: nat)
    requires LegalRun(ids, actions) && e.Merge?
    requires Legal(Run(ids, actions), Local(x, e)) && Accused(e.entries, x)
    requires n != x && n in Run(ids, actions).nodes && x in Run(ids, actions).nodes[n].members
    ensures var w := Step(Run(ids, actions), Local(x, e));
            var m := w.nodes[n].members[x];
            && x in w.nodes[x].members
            && var refuted := MergeOne(w.nodes[n].members, ToEntry(x, w.nodes[x].members[x]), later)[x].state.Alive?;
            && (refuted <==> m.state.Alive? || m.incarnation < w.nodes[x].incarnation)
            && (Knows(ids, actions, x, e.entries, m.incarnation) ==>
                  (refuted <==> m.state.Alive? || m.incarnation < U64 - 1))
  {
    var w := Run(ids, actions);
    var m := w.nodes[n].members[x];
    Republishes(ids, actions, x, e);
    HolderTurns(w.nodes[n].members, x, Apply(w.nodes[x], e).members[x], later);
    HeldBelowPeak(ids, actions, n, x);
    if Knows(ids, actions, x, e.entries, m.incarnation) {
      KnownIsPassed(ids, actions, x, e, m.incarnation);
    }
  }

  /** And it outlasts every entry about it still in flight, with the same exception. */
  lemma RefutationOutlasts(ids: set<Id>, actions: seq<Action>, x: Id, e: Event, stale: Entry)
    requires LegalRun(ids, actions) && e.Merge?
    requires Legal(Run(ids, actions), Local(x, e)) && Accused(e.entries, x)
    requires stale in Run(ids, actions).sent && stale.id == x
    ensures var u := Apply(Run(ids, actions).nodes[x], e);
            && x in u.members
            && (!Wins(stale, u.members[x]) <==>
                  || stale.incarnation < u.incarnation
                  || (stale.incarnation == u.incarnation && FromByte(stale.state).Alive?))
            && (Knows(ids, actions, x, e.entries, stale.incarnation) ==>
                  (!Wins(stale, u.members[x]) <==> FromByte(stale.state).Alive? || stale.incarnation < U64 - 1))
  {
    Republishes(ids, actions, x, e);
    SentBelowPeak(ids, actions, stale);
    if Knows(ids, actions, x, e.entries, stale.incarnation) {
      KnownIsPassed(ids, actions, x, e, stale.incarnation);
    }
  }

  // ---- after a restart ----------------------------------------------------------------------------------

  lemma {:induction false} LargestCovers(own: nat, es: seq<Entry>, x: Entry)
    requires x in es && Accuses(x, x.id)
    ensures x.incarnation <= Largest(own, es, x.id)
  {
    if x in es[..|es| - 1] {
      LargestCovers(own, es[..|es| - 1], x);
    }
  }

  /** Restarted or not, a node that is sent the very record another holds of it turns that record Alive, unless
      it is at the largest incarnation. */
  lemma ToldRefutes(ids: set<Id>, actions: seq<Action>, x: Id, e: Event, n: Id, later: nat)
    requires LegalRun(ids, actions) && e.Merge? && Legal(Run(ids, actions), Local(x, e))
    requires n != x && n in Run(ids, actions).nodes && x in Run(ids, actions).nodes[n].members
    requires var m := Run(ids, actions).nodes[n].members[x]; !m.state.Alive? && ToEntry(x, m) in e.entries
    ensures var w := Step(Run(ids, actions), Local(x, e));
            && x in w.nodes[x].members
            && (MergeOne(w.nodes[n].members, ToEntry(x, w.nodes[x].members[x]), later)[x].state.Alive?
                <==> w.nodes[n].members[x].incarnation < U64 - 1)
  {
    var told := ToEntry(x, Run(ids, actions).nodes[n].members[x]);
    var i :| 0 <= i < |e.entries| && e.entries[i] == told;
    assert Accuses(e.entries[i], x);
    LargestCovers(Own(Run(ids, actions), x), e.entries, told);
    RefutationWins(ids, actions, x, e, n, later);
  }

  const FIRST: Entry := Entry(1, Some(0), 0, 0, Suspect.Rank())
  const SECOND: Entry := Entry(1, Some(0), 0, 1, Alive.Rank())

  /** Node 2 learns node 1, suspects it, and says so. */
  lemma Accusation() returns (actions: seq<Action>)
    ensures LegalRun({1, 2}, actions) && FIRST in Run({1, 2}, actions).sent
    ensures var w := Run({1, 2}, actions);
            && w.nodes.Keys == {1, 2} && w.nodes[1] == Node(1, 0, map[], map[])
            && w.nodes[2].me == 2 && w.nodes[2].members == map[1 := Member(0, 0, 0, Suspect, Some(0))]
  {
    actions := [];
    Extend({1, 2}, actions, Local(2, ProbeOk(1, 0, 0)));
    actions := actions + [Local(2, ProbeOk(1, 0, 0))];
    Extend({1, 2}, actions, Local(2, ProbesFailed(1, 0)));
    actions := actions + [Local(2, ProbesFailed(1, 0))];
    Extend({1, 2}, actions, Sync(2));
    actions := actions + [Sync(2)];
  }

  /** Node 1 refutes, node 2 believes it, and suspects it again. */
  lemma SecondAccusation() returns (actions: seq<Action>)
    ensures LegalRun({1, 2}, actions) && FIRST in Run({1, 2}, actions).sent
    ensures var w := Run({1, 2}, actions);
            && w.nodes.Keys == {1, 2}
            && w.nodes[2].members == map[1 := Member(0, 0, 1, Suspect, Some(0))]
  {
    actions := Accusation();
    OneMerged(Run({1, 2}, actions).nodes[1], FIRST);
    Extend({1, 2}, actions, Local(1, Merge([FIRST], 0, 0)));
    actions := actions + [Local(1, Merge([FIRST], 0, 0))];
    Extend({1, 2}, actions, Sync(1));
    actions := actions + [Sync(1)];
    OneMerged(Run({1, 2}, actions).nodes[2], SECOND);
    Extend({1, 2}, actions, Local(2, Merge([SECOND], 0, 0)));
    actions := actions + [Local(2, Merge([SECOND], 0, 0))];
    Extend({1, 2}, actions, Local(2, ProbesFailed(1, 0)));
    actions := actions + [Local(2, ProbesFailed(1, 0))];
  }

  lemma OneMerged(v: Node, e: Entry)
    ensures MergeEntries(v, [e], 0) == MergeEntry(v, e, 0) && (Accused([e], v.me) <==> Accuses(e, v.me))
  {
    assert [e][..0] == [] && MergeEntries(v, [], 0) == v && [e][0] == e;
  }

  /** A restarted node is behind what others hold of it, and a refutation of a stale accusation falls short. */
  lemma RestartFallsShort() returns (actions: seq<Action>, e: Event)
    ensures LegalRun({1, 2}, actions) && e.Merge? && Legal(Run({1, 2}, actions), Local(1, e)) && Accused(e.entries, 1)
    ensures var w := Run({1, 2}, actions);
            && 2 in w.nodes && 1 in w.nodes[2].members && w.nodes[2].members[1].incarnation > Own(w, 1)
            && 1 in Apply(w.nodes[1], e).members
            && MergeOne(w.nodes[2].members, ToEntry(1, Apply(w.nodes[1], e).members[1]), 0)[1].state.Suspect?
  {
    actions := SecondAccusation();
    Extend({1, 2}, actions, Restart(1));
    actions, e := actions + [Restart(1)], Merge([FIRST], 0, 0);
    OneMerged(Run({1, 2}, actions).nodes[1], FIRST);
  }

  // ---- accusations from anyone --------------------------------------------------------------------------

  /** Whoever sent the accusations: the refutation turns a record up to the largest incarnation merged or held
      Alive if and only if that record is below the largest 64-bit number. */
  lemma RefutationBeatsIff(v: Node, e: Event, m: Member, later: nat)
    requires e.Merge? && Accused(e.entries, v.me) && v.incarnation < U64
    requires !m.state.Alive? && m.incarnation <= Largest(v.incarnation, e.entries, v.me) < U64
    ensures v.me in Apply(v, e).members
    ensures MergeOne(map[v.me := m], ToEntry(v.me, Apply(v, e).members[v.me]), later)[v.me].state.Alive?
            <==> m.incarnation < U64 - 1
  {
    PublishesAlive(v, e);
    MergePasses(v, e.entries, e.now);
    HolderTurns(map[v.me := m], v.me, Apply(v, e).members[v.me], later);
  }

  /** One accusation raises the incarnation just above both, and no further. */
  lemma OneAccusation(v: Node, x: Entry, addr: Addr, now: nat)
    requires x.id == v.me && (x.state == 1 || x.state == 2) && v.incarnation < U64 && x.incarnation < U64
    ensures Apply(v, Merge([x], addr, now)).incarnation == Min(Max(v.incarnation, x.incarnation) + 1, U64 - 1)
  {
    assert [x][..0] == [] && MergeEntries(v, [], now) == v && [x][0] == x;
  }

  /** One entry at that number is enough, whatever the node held: its refutation loses to the very accusation
      it answers. */
  lemma OneEntrySilences(v: Node, addr: Addr, lastHeard: nat, p: Addr, now: nat, later: nat)
    requires v.incarnation < U64
    ensures var accusation := Entry(v.me, Some(addr), lastHeard, U64 - 1, Suspect.Rank());
            var u := Apply(v, Merge([accusation], p, now));
            && v.me in u.members && u.incarnation == U64 - 1
            && MergeOne(map[v.me := Learn(accusation, addr, now)], ToEntry(v.me, u.members[v.me]), later)[v.me]
               .state.Suspect?
  {
    var accusation := Entry(v.me, Some(addr), lastHeard, U64 - 1, Suspect.Rank());
    var es := [accusation];
    assert Accuses(es[0], v.me);
    assert es[..0] == [] && Largest(v.incarnation, [], v.me) == v.incarnation;
    MergePasses(v, es, now);
    MergeRises(v, es, now);
    PublishesAlive(v, Merge(es, p, now));
  }
}
