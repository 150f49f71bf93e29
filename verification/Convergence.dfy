/** Gossip converges over whole runs: entries arrive in any batches, at any times, in any order, repeated. */
module Convergence {
  import opened Messages
  import opened Swim
  import opened Gossip
  import opened Suspicion

  // ---- a run of merges is a join ------------------------------------------------------------------------

  /** Steps that change what a node holds about others through merging only. */
  predicate Gossiping(e: Event) {
    e.Merge? || e.Refresh? || e.Push?
  }

  ghost predicate AllGossiping(events: seq<Event>) {
    forall i :: 0 <= i < |events| ==> Gossiping(events[i])
  }

  /** The entry came in with one of the merges. */
  ghost predicate Delivered(events: seq<Event>, e: Entry) {
    exists i :: 0 <= i < |events| && events[i].Merge? && e in events[i].entries
  }

  lemma StepGrows(v: Node, ev: Event, id: Id)
    requires Gossiping(ev) && id != v.me && id in v.members
    ensures id in Apply(v, ev).members && Below(v.members[id], Apply(v, ev).members[id])
  {
    if ev.Merge? {
      JoinGrows(v, ev.entries, ev.now, id);
    }
  }

  lemma {:induction false} RunGrows(v: Node, events: seq<Event>, id: Id)
    requires AllGossiping(events) && id != v.me
    ensures ApplyAll(v, events).me == v.me
    ensures id in v.members ==>
              id in ApplyAll(v, events).members && Below(v.members[id], ApplyAll(v, events).members[id])
  {
    if |events| > 0 {
      var n := |events| - 1;
      RunGrows(v, events[..n], id);
      StepKeepsMe(ApplyAll(v, events[..n]), events[n]);
      if id in v.members {
        StepGrows(ApplyAll(v, events[..n]), events[n], id);
      }
    }
  }

  ghost predicate Dominated(e: Entry, v: Node) {
    e.id in v.members && !Wins(e, v.members[e.id]) && e.lastHeard <= v.members[e.id].lastHeard
  }

  lemma StepDominates(v: Node, ev: Event, e: Entry)
    requires Gossiping(ev) && e.id != v.me && About(e, e.id)
    requires Dominated(e, v) || (ev.Merge? && e in ev.entries)
    ensures Dominated(e, Apply(v, ev))
  {
    if Dominated(e, v) {
      StepGrows(v, ev, e.id);
    } else {
      JoinAbove(v, ev.entries, ev.now, e);
      MeStays(v, ev.entries, ev.now);
    }
  }

  lemma DeliveredSplit(events: seq<Event>, e: Entry)
    requires Delivered(events, e)
    ensures Delivered(events[..|events| - 1], e)
            || (events[|events| - 1].Merge? && e in events[|events| - 1].entries)
  {
    var i :| 0 <= i < |events| && events[i].Merge? && e in events[i].entries;
    if i < |events| - 1 {
      assert events[..|events| - 1][i].Merge?;
    }
  }

  /** Whatever arrived is below the result. */
  lemma {:induction false} RunAbove(v: Node, events: seq<Event>, e: Entry)
    requires AllGossiping(events) && e.id != v.me && About(e, e.id) && Delivered(events, e)
    ensures Dominated(e, ApplyAll(v, events))
  {
    var n := |events| - 1;
    RunGrows(v, events[..n], e.id);
    DeliveredSplit(events, e);
    if Delivered(events[..n], e) {
      RunAbove(v, events[..n], e);
    }
    StepDominates(ApplyAll(v, events[..n]), events[n], e);
  }

  /** Liveness and freshness of m each come from what v held or from something that arrived. */
  ghost predicate Sourced(v: Node, events: seq<Event>, id: Id, m: Member) {
    && ((id in v.members && v.members[id].incarnation == m.incarnation && v.members[id].state == m.state)
        || exists e :: Delivered(events, e) && About(e, id) && Carries(e, m))
    && ((id in v.members && v.members[id].lastHeard == m.lastHeard)
        || exists e :: Delivered(events, e) && About(e, id) && e.lastHeard == m.lastHeard)
  }

  lemma DeliveredMore(events: seq<Event>, e: Entry)
    requires |events| > 0
    ensures Delivered(events[..|events| - 1], e) ==> Delivered(events, e)
    ensures events[|events| - 1].Merge? && e in events[|events| - 1].entries ==> Delivered(events, e)
  {
    if Delivered(events[..|events| - 1], e) {
      var i :| 0 <= i < |events| - 1 && events[..|events| - 1][i].Merge? && e in events[..|events| - 1][i].entries;
      assert events[i].Merge?;
    }
  }

  lemma {:induction false} RunSourced(v: Node, events: seq<Event>, id: Id)
    requires AllGossiping(events) && id != v.me && id in ApplyAll(v, events).members
    ensures Sourced(v, events, id, ApplyAll(v, events).members[id])
  {
    if |events| > 0 {
      var n := |events| - 1;
      var w, ev := ApplyAll(v, events[..n]), events[n];
      RunGrows(v, events[..n], id);
      forall e
        ensures Delivered(events[..n], e) || (ev.Merge? && e in ev.entries) ==> Delivered(events, e)
      {
        DeliveredMore(events, e);
      }
      if id in w.members {
        RunSourced(v, events[..n], id);
      }
      if ev.Merge? {
        MeStays(w, ev.entries, ev.now);
        JoinAttained(w, ev.entries, ev.now, id);
      }
    }
  }

  // ---- convergence --------------------------------------------------------------------------------------

  /** Two runs deliver the same entries about a member. */
  ghost predicate SameNews(es: seq<Event>, fs: seq<Event>, id: Id) {
    forall e :: About(e, id) ==> (Delivered(es, e) <==> Delivered(fs, e))
  }

  lemma AllBelow(a: Node, b: Node, es: seq<Event>, fs: seq<Event>, id: Id)
    requires AllGossiping(es) && AllGossiping(fs) && id != a.me && id != b.me && Agree(a, b, id)
    requires SameNews(es, fs, id)
    ensures var x, y := ApplyAll(a, es), ApplyAll(b, fs);
            id in x.members ==> id in y.members && Below(x.members[id], y.members[id])
  {
    var x, y := ApplyAll(a, es), ApplyAll(b, fs);
    if id in x.members {
      RunSourced(a, es, id);
      RunGrows(b, fs, id);
      forall e | Delivered(es, e) && About(e, id)
        ensures Dominated(e, y)
      {
        RunAbove(b, fs, e);
      }
    }
  }

  /** Two nodes that agree about a third member and are delivered the same entries about it, each in its own
      batches, at its own times, in its own order and with its own repetitions, agree about it afterwards. */
  lemma GossipConverges(a: Node, b: Node, es: seq<Event>, fs: seq<Event>, id: Id)
    requires AllGossiping(es) && AllGossiping(fs) && id != a.me && id != b.me && Agree(a, b, id)
    requires SameNews(es, fs, id)
    ensures Agree(ApplyAll(a, es), ApplyAll(b, fs), id)
  {
    AllBelow(a, b, es, fs, id);
    AllBelow(b, a, fs, es, id);
  }

  /** Converged nodes hash the same row for every third member. */
  lemma ConvergedRows(a: Node, b: Node, es: seq<Event>, fs: seq<Event>, r: Row)
    requires AllGossiping(es) && AllGossiping(fs) && r.id != a.me && r.id != b.me && Agree(a, b, r.id)
    requires SameNews(es, fs, r.id)
    ensures HasRow(ApplyAll(a, es).members, r) <==> HasRow(ApplyAll(b, fs).members, r)
  {
    GossipConverges(a, b, es, fs, r.id);
  }

  // ---- the full exchange --------------------------------------------------------------------------------

  /** The whole member map on the wire, in some order. */
  ghost predicate Ships(es: seq<Entry>, v: Node) {
    forall e :: e in es <==> e.id in v.members && e == ToEntry(e.id, v.members[e.id])
  }

  lemma ShippedIsHeld(v: Node, w: Node, es: seq<Entry>, addr: Addr, now: nat, id: Id)
    requires Ships(es, v) && id in v.members && id != w.me
    ensures var m := Merged(w, es, addr, now);
            m.me == w.me && id in m.members && Below(v.members[id], m.members[id])
  {
    var e := ToEntry(id, v.members[id]);
    assert e in es;
    JoinAbove(w, es, now, e);
    MeStays(w, es, now);
  }

  lemma MergedSource(v: Node, w: Node, es: seq<Entry>, addr: Addr, now: nat, id: Id)
    requires Ships(es, v) && id != w.me && id in Merged(w, es, addr, now).members
    ensures id in v.members || id in w.members
    ensures (id in w.members ==> id in v.members && Below(w.members[id], v.members[id])) ==>
              id in v.members && Below(Merged(w, es, addr, now).members[id], v.members[id])
  {
    MeStays(w, es, now);
    JoinAttained(w, es, now, id);
  }

  /** One two-way exchange: a refreshes and ships its map, b merges it, refreshes and ships back, a merges.
      Whatever the two held before, they then agree about every third member. */
  lemma SyncAgrees(a: Node, b: Node, es: seq<Entry>, fs: seq<Entry>, p: Addr, q: Addr,
                   s: nat, t: nat, u: nat, w: nat, id: Id)
    requires Ships(es, Refreshed(a, p, s)) && Ships(fs, Refreshed(Merged(b, es, q, t), q, u))
    requires id != a.me && id != b.me
    ensures Agree(Merged(Refreshed(a, p, s), fs, p, w), Refreshed(Merged(b, es, q, t), q, u), id)
  {
    var sender, reply := Refreshed(a, p, s), Refreshed(Merged(b, es, q, t), q, u);
    var after := Merged(sender, fs, p, w);
    MeStays(b, es, t);
    if id in sender.members {
      ShippedIsHeld(sender, b, es, q, t, id);
    }
    if id in reply.members {
      ShippedIsHeld(reply, sender, fs, p, w, id);
    }
    if id in after.members {
      MergedSource(reply, sender, fs, p, w, id);
    }
  }
}
