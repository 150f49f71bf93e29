/** Member gossip converges, and what equal digests do and do not say about the census. */
module Gossip {
  import opened Messages
  import opened Options
  import opened Words
  import opened Sorting
  import opened Swim

  // ---- merging is a join --------------------------------------------------------------------------------

  predicate KeyLe(a: Member, b: Member) {
    a.incarnation < b.incarnation || (a.incarnation == b.incarnation && a.state.Rank() <= b.state.Rank())
  }

  /** Below in both orders that merge: liveness and freshness. */
  predicate Below(a: Member, b: Member) {
    KeyLe(a, b) && a.lastHeard <= b.lastHeard
  }

  predicate About(e: Entry, id: Id) {
    e.id == id && e.addr.Some?
  }

  /** Merging never loses what was held. */
  lemma {:induction false} JoinGrows(v: Node, es: seq<Entry>, now: nat, id: Id)
    requires id in v.members
    ensures var w := MergeEntries(v, es, now);
            w.me == v.me && id in w.members && Below(v.members[id], w.members[id])
  {
    if |es| > 0 {
      JoinGrows(v, es[..|es| - 1], now, id);
    }
  }

  lemma {:induction false} MeStays(v: Node, es: seq<Entry>, now: nat)
    ensures MergeEntries(v, es, now).me == v.me
  {
    if |es| > 0 {
      MeStays(v, es[..|es| - 1], now);
    }
  }

  /** Everything merged is below the result. */
  lemma {:induction false} JoinAbove(v: Node, es: seq<Entry>, now: nat, e: Entry)
    requires e in es && About(e, e.id) && e.id != v.me
    ensures var w := MergeEntries(v, es, now);
            e.id in w.members && !Wins(e, w.members[e.id]) && e.lastHeard <= w.members[e.id].lastHeard
  {
    var n := |es| - 1;
    MeStays(v, es[..n], now);
    if e in es[..n] {
      JoinAbove(v, es[..n], now, e);
    } else {
      assert e == es[n];
    }
  }

  predicate Carries(e: Entry, m: Member) {
    e.incarnation == m.incarnation && FromByte(e.state) == m.state
  }

  /** The result's liveness, and its freshness together with its address, each come from what was held or from
      something merged. */
  lemma {:induction false} JoinAttained(v: Node, es: seq<Entry>, now: nat, id: Id)
    requires id != v.me && id in MergeEntries(v, es, now).members
    ensures var m := MergeEntries(v, es, now).members[id];
            && ((id in v.members && v.members[id].incarnation == m.incarnation && v.members[id].state == m.state)
                || exists e :: e in es && About(e, id) && Carries(e, m))
            && ((id in v.members && v.members[id].lastHeard == m.lastHeard && v.members[id].addr == m.addr)
                || exists e :: e in es && About(e, id) && e.lastHeard == m.lastHeard && e.addr.value == m.addr)
  {
    if |es| > 0 {
      var n := |es| - 1;
      var w := MergeEntries(v, es[..n], now);
      MeStays(v, es[..n], now);
      assert es[n] in es && forall e :: e in es[..n] ==> e in es;
      if id in w.members {
        JoinAttained(v, es[..n], now, id);
      }
    }
  }

  /** After any merges the address held is one that came with the freshest evidence there was. */
  lemma AddressIsFreshest(v: Node, es: seq<Entry>, now: nat, id: Id)
    requires id != v.me && id in MergeEntries(v, es, now).members
    ensures var m := MergeEntries(v, es, now).members[id];
            && (id in v.members ==> v.members[id].lastHeard <= m.lastHeard)
            && (forall e :: e in es && About(e, id) ==> e.lastHeard <= m.lastHeard)
            && ((id in v.members && v.members[id].lastHeard == m.lastHeard && v.members[id].addr == m.addr)
                || exists e :: e in es && About(e, id) && e.lastHeard == m.lastHeard && e.addr == Some(m.addr))
  {
    JoinAttained(v, es, now, id);
    if id in v.members {
      JoinGrows(v, es, now, id);
    }
    forall e | e in es && About(e, id)
      ensures e.lastHeard <= MergeEntries(v, es, now).members[id].lastHeard
    {
      JoinAbove(v, es, now, e);
    }
  }

  /** A member learned from another node's entry is known as that node knows it. */
  lemma LearnedAsSent(ms: Members, id: Id, m: Member, now: nat)
    requires id !in ms
    ensures var got := MergeOne(ms, ToEntry(id, m), now);
            && id in got && got[id].addr == m.addr && got[id].lastHeard == m.lastHeard
            && got[id].incarnation == m.incarnation && got[id].state == m.state
  {
  }

  /** Two nodes agree about a member: both know it, equally, or neither does. */
  predicate Agree(a: Node, b: Node, id: Id) {
    && (id in a.members <==> id in b.members)
    && (id in a.members ==>
          && a.members[id].incarnation == b.members[id].incarnation
          && a.members[id].state == b.members[id].state
          && a.members[id].lastHeard == b.members[id].lastHeard)
  }

  // ---- digests ------------------------------------------------------------------------------------------

  datatype Row = Row(id: Id, incarnation: nat, state: nat)

  predicate NotAfter(a: Row, b: Row) {
    || a.id < b.id
    || (a.id == b.id && a.incarnation < b.incarnation)
    || (a.id == b.id && a.incarnation == b.incarnation && a.state <= b.state)
  }

  function RowOrder(): (Row, Row) -> bool {
    (a, b) => NotAfter(a, b)
  }

  predicate HasRow(ms: Members, r: Row) {
    r.id in ms && !ms[r.id].state.Dead? && r == Row(r.id, ms[r.id].incarnation, ms[r.id].state.Rank())
  }

  function Rows(ms: Members): set<Row> {
    set id | id in ms && !ms[id].state.Dead? :: Row(id, ms[id].incarnation, ms[id].state.Rank())
  }

  /** The rows that are hashed: one per member not Dead, in order. */
  method MembersDigest(ms: Members) returns (rows: seq<Row>)
    ensures Sorted(rows, RowOrder()) && multiset(rows) == multiset(Rows(ms))
  {
    var todo := Rows(ms);
    rows := [];
    while todo != {}
      invariant todo <= Rows(ms) && multiset(rows) + multiset(todo) == multiset(Rows(ms))
      decreases todo
    {
      var r :| r in todo;
      rows, todo := rows + [r], todo - {r};
    }
    RowOrderTotal();
    SortCorrect(rows, RowOrder());
    rows := Sort(rows, RowOrder());
  }

  lemma RowOrderTotal()
    ensures TotalPreorder(RowOrder())
  {
  }

  /** Digests are equal exactly when the two maps hold the same members that are not Dead, at the same
      incarnations and states. */
  lemma DigestsAgree(a: Members, b: Members, r: seq<Row>, s: seq<Row>)
    requires Sorted(r, RowOrder()) && multiset(r) == multiset(Rows(a))
    requires Sorted(s, RowOrder()) && multiset(s) == multiset(Rows(b))
    ensures r == s <==> forall x :: HasRow(a, x) <==> HasRow(b, x)
  {
    RowOrderTotal();
    if forall x :: HasRow(a, x) <==> HasRow(b, x) {
      forall x
        ensures x in Rows(a) <==> x in Rows(b)
      {
        assert HasRow(a, x) <==> x in Rows(a);
        assert HasRow(b, x) <==> x in Rows(b);
      }
      assert Rows(a) == Rows(b);
      SortedUnique(r, s, RowOrder());
    }
    if r == s {
      forall x
        ensures HasRow(a, x) <==> HasRow(b, x)
      {
        assert HasRow(a, x) <==> x in multiset(r);
        assert HasRow(b, x) <==> x in multiset(s);
      }
    }
  }

  // ---- the census ---------------------------------------------------------------------------------------

  predicate Fresh(m: Member, now: nat, backstop: nat) {
    SatSub(now, m.lastHeard) < backstop
  }

  /** The election's electorate: this node, and every known member not Dead with recent enough evidence. */
  predicate InCensus(v: Node, id: Id, now: nat, backstop: nat) {
    id == v.me || (id in v.members && !v.members[id].state.Dead? && Fresh(v.members[id], now, backstop))
  }

  predicate Listed(v: Node, id: Id) {
    id in v.members && !v.members[id].state.Dead?
  }

  /** Equal digests give equal censuses exactly when both nodes also find the same members fresh. */
  lemma SameDigestSameCensusIff(a: Node, b: Node, s: nat, t: nat, backstop: nat)
    requires forall x :: HasRow(a.members, x) <==> HasRow(b.members, x)
    requires Listed(a, a.me) && Listed(b, b.me)
    ensures (forall id :: InCensus(a, id, s, backstop) <==> InCensus(b, id, t, backstop))
            <==> forall id :: Listed(a, id) && Listed(b, id) ==>
                   ((id == a.me || Fresh(a.members[id], s, backstop))
                    <==> (id == b.me || Fresh(b.members[id], t, backstop)))
  {
    forall id
      ensures Listed(a, id) <==> Listed(b, id)
    {
      if id in a.members {
        assert HasRow(a.members, Row(id, a.members[id].incarnation, a.members[id].state.Rank())) <==> Listed(a, id);
      }
      if id in b.members {
        assert HasRow(b.members, Row(id, b.members[id].incarnation, b.members[id].state.Rank())) <==> Listed(b, id);
      }
    }
    forall id
      ensures InCensus(a, id, s, backstop) <==> Listed(a, id) && (id == a.me || Fresh(a.members[id], s, backstop))
      ensures InCensus(b, id, t, backstop) <==> Listed(b, id) && (id == b.me || Fresh(b.members[id], t, backstop))
    {
    }
  }

  /** Freshness is local, so equal digests alone do not give equal censuses. */
  lemma DigestIsNotCensus() returns (a: Node, b: Node)
    ensures forall x :: HasRow(a.members, x) <==> HasRow(b.members, x)
    ensures Listed(a, a.me) && Listed(b, b.me)
    ensures InCensus(a, 3, 1000, 600) && !InCensus(b, 3, 1000, 600)
  {
    var self, heard, silent := AliveAt(0, 1000), AliveAt(0, 401), AliveAt(0, 400);
    a := Node(1, 0, map[1 := self, 2 := self, 3 := heard], map[]);
    b := Node(2, 0, map[1 := self, 2 := self, 3 := silent], map[]);
  }
}
