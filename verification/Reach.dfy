/** Where a lookup ends: among contacts with complete or full buckets, at the nearest of the whole network. */
module Reach {
  import opened Bits
  import opened Options
  import opened Sorting
  import opened Keys
  import opened Routing
  import opened Lookup

  /** A table of real contacts in which every bucket is full or knows everyone who belongs there. */
  ghost predicate Stocked(self: Key, buckets: Buckets, everyone: seq<Contact>) {
    && Filed(self, buckets)
    && (forall c :: c in All(buckets) ==> c in everyone)
    && (forall c :: c in everyone && c.id != self ==>
          c in All(buckets) || |buckets[BucketIndex(self, c.id).value]| == K)
  }

  function InsertedAll(self: Key, cs: seq<Contact>): Buckets {
    if |cs| == 0 then seq(BUCKETS, _ => []) else Inserted(self, InsertedAll(self, cs[..|cs| - 1]), cs[|cs| - 1])
  }

  lemma EmptyIsStocked(self: Key)
    ensures Stocked(self, InsertedAll(self, []), [])
  {
    forall c
      ensures c !in All(InsertedAll(self, []))
    {
      AllMembers(InsertedAll(self, []), c);
    }
  }

  /** A table that met everyone once, in any order, is stocked. */
  lemma {:induction false} MeetingStocks(self: Key, cs: seq<Contact>)
    requires DistinctIds(cs)
    ensures Stocked(self, InsertedAll(self, cs), cs)
  {
    if |cs| == 0 {
      EmptyIsStocked(self);
    } else {
      var n := |cs| - 1;
      var before, after := InsertedAll(self, cs[..n]), InsertedAll(self, cs);
      MeetingStocks(self, cs[..n]);
      assert cs == cs[..n] + [cs[n]];
      InsertKeepsFiled(self, before, cs[n]);
      forall c | c in All(after)
        ensures c in cs
      {
        InsertedMembers(self, before, cs[n], c);
      }
      forall c | c in cs && c.id != self
        ensures c in All(after) || |after[BucketIndex(self, c.id).value]| == K
      {
        if c == cs[n] {
          InsertTakesOrIsFull(self, before, c);
        } else if c in All(before) {
          InsertedMembers(self, before, cs[n], c);
        } else {
          InsertKeepsFull(self, before, cs[n], BucketIndex(self, c.id).value);
        }
      }
    }
  }

  /** The tables of the contacts asked, at the time they answer. */
  type Tables = (nat, Contact) -> Buckets

  /** Every other contact of the network answers, whenever it is asked, with the nearest of a stocked table. The
      asker, which may come to be named and asked too, answers with any real contacts, or with none. */
  ghost predicate Answering(net: Network, tables: Tables, everyone: seq<Contact>, target: Key, me: Key) {
    && (forall i, c :: c in everyone && c.id != me ==>
          Stocked(c.id, tables(i, c), everyone) && net(i, c) == TopK(All(tables(i, c)), target, K))
    && (forall i, c, x :: c in everyone && c.id == me && x in net(i, c) ==> x in everyone)
  }

  lemma NearerIsToo(best: seq<Contact>, everyone: seq<Contact>, target: Key, x: Contact, c: Contact)
    requires Nearest(best, everyone, target, K) && x in best && c in everyone
    requires Far(target, c.id) < Far(target, x.id)
    ensures c in best
  {
    var i :| 0 <= i < |best| && best[i] == x;
  }

  /** As many contacts as are wanted, all nearer: then x is not among the nearest. */
  lemma Crowded(near: seq<Contact>, best: seq<Contact>, everyone: seq<Contact>, target: Key, x: Contact)
    requires DistinctIds(near) && |near| == K && Nearest(best, everyone, target, K)
    requires forall c :: c in near ==> c in everyone && Far(target, c.id) < Far(target, x.id)
    ensures x !in best
  {
    if x in best {
      forall c | c in near
        ensures c in best
      {
        NearerIsToo(best, everyone, target, x, c);
      }
      NearestDistinct(best, everyone, target, K);
      AllOf(near, best, Named(), x);
    }
  }

  /** The last of the nearest of a pool is no farther than the farthest of any as many from the pool. */
  lemma LastIsNear(r: seq<Contact>, pool: seq<Contact>, near: seq<Contact>, target: Key, far: nat)
    requires Nearest(r, pool, target, K) && DistinctIds(near) && |near| == K
    requires forall c :: c in near ==> c in pool && Far(target, c.id) < far
    ensures |r| == K && Far(target, r[K - 1].id) < far
  {
    NoMore(near, pool, Named());
    NearestDistinct(r, pool, target, K);
    var last := r[K - 1];
    if forall c :: c in near ==> c in r {
      AllOf(near, r, Named(), last);
    } else {
      var c :| c in near && c !in r;
      assert Far(target, r[K - 1].id) < Far(target, c.id);
    }
  }

  /** A contact of r no farther from x than any other. */
  lemma {:induction false} NearestTo(r: seq<Contact>, x: Key) returns (q: Contact)
    requires |r| > 0
    ensures q in r && forall c :: c in r ==> Far(x, q.id) <= Far(x, c.id)
  {
    if |r| == 1 {
      q := r[0];
    } else {
      q := NearestTo(r[..|r| - 1], x);
      assert r == r[..|r| - 1] + [r[|r| - 1]];
      if Far(x, r[|r| - 1].id) < Far(x, q.id) {
        q := r[|r| - 1];
      }
    }
  }

  lemma AnswerIsNearest(self: Key, buckets: Buckets, everyone: seq<Contact>, target: Key)
    requires Stocked(self, buckets, everyone)
    ensures var answer := TopK(All(buckets), target, K);
            DistinctIds(All(buckets)) && DistinctIds(answer) && Nearest(answer, All(buckets), target, K)
  {
    AllDistinct(self, buckets);
    TopKCorrect(All(buckets), target, K);
    NearestDistinct(TopK(All(buckets), target, K), All(buckets), target, K);
  }

  /** A contact whose table holds one of the network's nearest names it. */
  lemma HeldIsNamed(self: Key, buckets: Buckets, everyone: seq<Contact>,
                    best: seq<Contact>, target: Key, x: Contact)
    requires Stocked(self, buckets, everyone) && Nearest(best, everyone, target, K)
    requires x in best && x in All(buckets)
    ensures x in TopK(All(buckets), target, K)
  {
    var answer := TopK(All(buckets), target, K);
    AnswerIsNearest(self, buckets, everyone, target);
    if x !in answer {
      if |answer| < K {
        AllOf(answer, All(buckets), Named(), x);
      } else {
        Crowded(answer, best, everyone, target, x);
      }
    }
  }

  lemma FullAnswers(self: Key, buckets: Buckets, everyone: seq<Contact>, target: Key, j: nat)
    requires Stocked(self, buckets, everyone) && j < BUCKETS && |buckets[j]| == K
    ensures |TopK(All(buckets), target, K)| == K
  {
    AnswerIsNearest(self, buckets, everyone, target);
    assert BucketOk(self, buckets[j], j);
    forall c | c in buckets[j]
      ensures c in All(buckets)
    {
      AllMembers(buckets, c);
    }
    NoMore(buckets[j], All(buckets), Named());
  }

  /** When x is one of the network's nearest but unknown, and q's bucket for x is full, then something in r is
      nearer to x than q is. */
  lemma FullBucketLeads(r: seq<Contact>, pool: seq<Contact>, best: seq<Contact>, everyone: seq<Contact>, target: Key,
                        q: Key, buckets: Buckets, x: Contact) returns (l: Contact)
    requires Nearest(r, pool, target, K) && Nearest(best, everyone, target, K)
    requires forall c :: c in pool ==> c in everyone
    requires x in best && x !in pool && x.id != q
    requires Stocked(q, buckets, everyone) && |buckets[BucketIndex(q, x.id).value]| == K
    requires forall c :: c in TopK(All(buckets), target, K) ==> c in pool
    ensures l in r && Far(x.id, l.id) < Far(x.id, q)
  {
    var j := BucketIndex(q, x.id).value;
    var y := buckets[j][0];
    assert BucketOk(q, buckets[j], j);
    if y in r {
      l := y;
      BlockIsNearer(target, q, x.id, y.id, y.id, j);
    } else {
      FullAnswers(q, buckets, everyone, target, j);
      AnswerIsNearest(q, buckets, everyone, target);
      AllMembers(buckets, y);
      LastIsBetween(r, pool, best, everyone, target, TopK(All(buckets), target, K), All(buckets), x, y);
      l := r[K - 1];
      BlockIsNearer(target, q, x.id, y.id, l.id, j);
    }
  }

  /** Keys between x and y, as seen from the target, are in their block and so nearer to x than q is. */
  lemma BlockIsNearer(target: Key, q: Key, x: Key, y: Key, l: Key, j: nat)
    requires BucketIndex(q, x) == Some(j) && BucketIndex(q, y) == Some(j)
    requires l == y || Far(target, x) <= Far(target, l) <= Far(target, y)
    ensures Far(x, l) < Far(x, q)
  {
    SameBucketIsNearer(q, x, y, j);
    DistanceIsMetric(x, y, x);
    DistanceIsMetric(x, l, x);
    if l != y {
      DistanceVia(x, y, target);
      DistanceVia(x, l, target);
      BlockIsConvex(Far(target, x), Far(target, l), Far(target, y), j);
    }
  }

  /** The farthest contact of r lies between x, which is unknown, and y, which is held but not in r. */
  lemma LastIsBetween(r: seq<Contact>, pool: seq<Contact>, best: seq<Contact>, everyone: seq<Contact>, target: Key,
                      answer: seq<Contact>, held: seq<Contact>, x: Contact, y: Contact)
    requires Nearest(r, pool, target, K) && Nearest(best, everyone, target, K) && Nearest(answer, held, target, K)
    requires DistinctIds(answer) && |answer| == K && y in held
    requires (forall c :: c in pool ==> c in everyone) && forall c :: c in answer ==> c in pool
    requires x in best && x !in pool && y !in r
    ensures |r| == K && Far(target, x.id) <= Far(target, r[K - 1].id) <= Far(target, y.id)
  {
    NoMore(answer, pool, Named());
    NearestDistinct(r, pool, target, K);
    if y !in pool {
      LastIsNear(r, pool, answer, target, Far(target, y.id));
    }
    if Far(target, r[K - 1].id) < Far(target, x.id) {
      Crowded(r, best, everyone, target, x);
    }
  }

  // ---- the theorem --------------------------------------------------------------------------------------

  lemma AnswersAreReal(net: Network, tables: Tables, everyone: seq<Contact>, target: Key, me: Key, i: nat, c: Contact,
                       x: Contact)
    requires Answering(net, tables, everyone, target, me) && c in everyone && x in net(i, c)
    ensures x in everyone
  {
    if c.id != me {
      AnswerIsNearest(c.id, tables(i, c), everyone, target);
    }
  }

  /** Only contacts of the network are ever asked. */
  lemma {:induction false} AskedAreReal(start: seq<Contact>, asked: Asked, net: Network, tables: Tables,
                                        everyone: seq<Contact>, target: Key, me: Key, rounds: nat, a: (nat, Contact))
    requires Grounded(start, asked, net, rounds) && Answering(net, tables, everyone, target, me)
    requires (forall c :: c in start ==> c in everyone) && a in asked
    ensures a.1 in everyone
    decreases a.0
  {
    if a.1 !in start {
      var b :| b in asked && b.0 < a.0 && a.1 in net(b.0, b.1);
      AskedAreReal(start, asked, net, tables, everyone, target, me, rounds, b);
      AnswersAreReal(net, tables, everyone, target, me, b.0, b.1, a.1);
    }
  }

  lemma KnownAreReal(known: Known, pool: seq<Contact>, start: seq<Contact>, queried: set<Key>, asked: Asked,
                     net: Network, tables: Tables, everyone: seq<Contact>, target: Key, me: Key, c: Contact)
    requires Explored(known, start, queried, asked, net) && Lists(pool, known)
    requires Answering(net, tables, everyone, target, me) && forall s :: s in start ==> s in everyone
    requires (forall a :: a in asked ==> a.1 in everyone) && c in pool
    ensures c in everyone
  {
    assert known[c.id] == c;
    if c !in start {
      var a :| a in asked && c in net(a.0, a.1);
      AnswersAreReal(net, tables, everyone, target, me, a.0, a.1, c);
    }
  }

  /** A real contact whose id is known is known as it is. */
  lemma IdIsKnown(known: Known, pool: seq<Contact>, everyone: seq<Contact>, c: Contact)
    requires Keyed(known) && Lists(pool, known) && DistinctIds(everyone)
    requires (forall d :: d in pool ==> d in everyone) && c in everyone && c.id in known
    ensures c in pool
  {
    assert known[c.id] in pool;
    SameKey(everyone, Named(), known[c.id], c);
  }

  /** A table behind a contact of r: stocked, and what it names is known. */
  ghost predicate Backs(buckets: Buckets, q: Key, pool: seq<Contact>, everyone: seq<Contact>, target: Key) {
    Stocked(q, buckets, everyone) && forall c :: c in TopK(All(buckets), target, K) ==> c in pool
  }

  lemma AskedBacks(known: Known, pool: seq<Contact>, start: seq<Contact>, queried: set<Key>, asked: Asked,
                   net: Network, tables: Tables, everyone: seq<Contact>, target: Key, me: Key, q: Contact)
    returns (buckets: Buckets)
    requires Explored(known, start, queried, asked, net) && Lists(pool, known) && DistinctIds(everyone)
    requires Answering(net, tables, everyone, target, me) && forall c :: c in pool ==> c in everyone
    requires (forall a :: a in asked ==> a.1 in everyone) && q.id in queried && q.id != me
    ensures Backs(buckets, q.id, pool, everyone, target)
  {
    var a :| a in asked && a.1.id == q.id;
    buckets := tables(a.0, a.1);
    forall c | c in net(a.0, a.1)
      ensures c in pool
    {
      AnswersAreReal(net, tables, everyone, target, me, a.0, a.1, c);
      assert c.id in Ids(net(a.0, a.1));
      IdIsKnown(known, pool, everyone, c);
    }
  }

  lemma StartBacks(known: Known, pool: seq<Contact>, start: seq<Contact>, queried: set<Key>, asked: Asked,
                   net: Network, everyone: seq<Contact>, target: Key, me: Key, mine: Buckets)
    requires Explored(known, start, queried, asked, net) && Lists(pool, known) && DistinctIds(everyone)
    requires (forall c :: c in pool ==> c in everyone) && forall c :: c in start ==> c in everyone
    requires Stocked(me, mine, everyone) && start == TopK(All(mine), target, K)
    ensures Backs(mine, me, pool, everyone, target)
  {
    forall c | c in start
      ensures c in pool
    {
      assert c.id in Ids(start);
      IdIsKnown(known, pool, everyone, c);
    }
  }

  /** With a backing table for the contact of r nearest to x, x is known. */
  lemma NearestBackedKnows(r: seq<Contact>, pool: seq<Contact>, everyone: seq<Contact>, best: seq<Contact>, target: Key,
                           q: Contact, buckets: Buckets, x: Contact)
    requires Nearest(r, pool, target, K) && Nearest(best, everyone, target, K) && DistinctIds(everyone)
    requires (forall c :: c in pool ==> c in everyone) && x in best
    requires q in r && (forall c :: c in r ==> Far(x.id, q.id) <= Far(x.id, c.id))
    requires Backs(buckets, q.id, pool, everyone, target)
    ensures x in pool
  {
    if x !in pool {
      if x.id == q.id {
        SameKey(everyone, Named(), x, q);
      } else if x in All(buckets) {
        HeldIsNamed(q.id, buckets, everyone, best, target, x);
      } else {
        var l := FullBucketLeads(r, pool, best, everyone, target, q.id, buckets, x);
      }
    }
  }

  // ---- an asker with any table --------------------------------------------------------------------------

  /** The asker holds the last place of r, ahead of nobody but x. */
  ghost predicate AskerStandsFor(r: seq<Contact>, me: Key, target: Key, x: Contact) {
    |r| == K && r[K - 1].id == me && Far(target, r[K - 2].id) < Far(target, x.id) < Far(target, r[K - 1].id)
  }

  /** A contact of r other than the asker, no farther from x than any other such. */
  lemma {:induction false} NearestOther(r: seq<Contact>, me: Key, x: Key) returns (q: Contact)
    requires exists c :: c in r && c.id != me
    ensures q in r && q.id != me && forall c :: c in r && c.id != me ==> Far(x, q.id) <= Far(x, c.id)
  {
    var n := |r| - 1;
    assert r == r[..n] + [r[n]];
    if c :| c in r[..n] && c.id != me {
      q := NearestOther(r[..n], me, x);
      if r[n].id != me && Far(x, r[n].id) < Far(x, q.id) {
        q := r[n];
      }
    } else {
      q := r[n];
    }
  }

  lemma OtherInBucket(self: Key, buckets: Buckets, j: nat, me: Key) returns (y: Contact)
    requires Filed(self, buckets) && j < BUCKETS && |buckets[j]| == K
    ensures y in buckets[j] && y.id != me && BucketIndex(self, y.id) == Some(j)
  {
    assert BucketOk(self, buckets[j], j);
    assert Named()(buckets[j][0]) != Named()(buckets[j][1]);
    y := if buckets[j][0].id != me then buckets[j][0] else buckets[j][1];
  }

  /** With a backing table for the nearest other contact, x is known or loses the last place to the asker. */
  lemma OtherBackedKnows(r: seq<Contact>, pool: seq<Contact>, everyone: seq<Contact>, best: seq<Contact>, target: Key,
                         me: Key, q: Contact, buckets: Buckets, x: Contact)
    requires Nearest(r, pool, target, K) && Nearest(best, everyone, target, K) && DistinctIds(everyone)
    requires (forall c :: c in pool ==> c in everyone) && x in best
    requires q in r && (forall c :: c in r && c.id != me ==> Far(x.id, q.id) <= Far(x.id, c.id))
    requires Backs(buckets, q.id, pool, everyone, target)
    ensures x in pool || AskerStandsFor(r, me, target, x)
  {
    if x !in pool {
      if x.id == q.id {
        SameKey(everyone, Named(), x, q);
      } else if x in All(buckets) {
        HeldIsNamed(q.id, buckets, everyone, best, target, x);
      } else {
        var j := BucketIndex(q.id, x.id).value;
        var y := OtherInBucket(q.id, buckets, j, me);
        BlockIsNearer(target, q.id, x.id, y.id, y.id, j);
        FullAnswers(q.id, buckets, everyone, target, j);
        AnswerIsNearest(q.id, buckets, everyone, target);
        AllMembers(buckets, y);
        LastIsBetween(r, pool, best, everyone, target, TopK(All(buckets), target, K), All(buckets), x, y);
        BlockIsNearer(target, q.id, x.id, y.id, r[K - 1].id, j);
        LastButOne(r, pool, target, me, q.id, x, y, j);
      }
    }
  }

  lemma LastButOne(r: seq<Contact>, pool: seq<Contact>, target: Key, me: Key, q: Key, x: Contact, y: Contact, j: nat)
    requires Nearest(r, pool, target, K) && |r| == K && x !in pool && r[K - 1].id == me
    requires BucketIndex(q, x.id) == Some(j) && BucketIndex(q, y.id) == Some(j)
    requires Far(target, x.id) <= Far(target, r[K - 1].id) <= Far(target, y.id)
    requires forall c :: c in r && c.id != me ==> Far(x.id, q) <= Far(x.id, c.id)
    requires forall c :: c in r && c.id == x.id ==> c == x
    ensures AskerStandsFor(r, me, target, x)
  {
    var l := r[K - 2];
    NearestDistinct(r, pool, target, K);
    assert Named()(r[K - 2]) != Named()(r[K - 1]);
    if Far(target, l.id) >= Far(target, x.id) {
      BlockIsNearer(target, q, x.id, y.id, l.id, j);
    }
    DistanceIsMetric(x.id, r[K - 1].id, target);
  }

  /** Then x is exactly what is missing. */
  lemma AllButLast(r: seq<Contact>, pool: seq<Contact>, everyone: seq<Contact>, best: seq<Contact>, target: Key,
                   me: Key, x: Contact)
    requires Nearest(r, pool, target, K) && Nearest(best, everyone, target, K) && DistinctIds(everyone)
    requires (forall c :: c in pool ==> c in everyone) && x in best && AskerStandsFor(r, me, target, x)
    ensures |best| == K && r[..K - 1] == best[..K - 1]
  {
    var s := r[..K - 1] + [x];
    forall i, j | 0 <= i < j < K
      ensures Far(target, s[i].id) < Far(target, s[j].id)
    {
      assert s[i] == r[i] && i <= K - 2;
    }
    forall c | c in s
      ensures c in best
    {
      if c != x {
        var i :| 0 <= i < K && s[i] == c;
        NearerIsToo(best, everyone, target, x, c);
      }
    }
    assert Nearest(s, s, target, K);
    NearestDistinct(s, s, target, K);
    NoMore(s, best, Named());
    NearestDistinct(best, everyone, target, K);
    forall c | c in best
      ensures c in s
    {
      AllOf(s, best, Named(), c);
    }
    SameNearest(s, best, everyone, target);
    assert best[..K - 1] == s[..K - 1] == r[..K - 1];
  }

  lemma SameNearest(s: seq<Contact>, best: seq<Contact>, everyone: seq<Contact>, target: Key)
    requires Nearest(best, everyone, target, K) && DistinctIds(everyone) && |s| == |best|
    requires (forall c :: c in s <==> c in best)
    requires forall i, j :: 0 <= i < j < |s| ==> Far(target, s[i].id) < Far(target, s[j].id)
    ensures s == best
  {
    forall c, i | c in everyone && c !in s && 0 <= i < |s|
      ensures Far(target, s[i].id) < Far(target, c.id)
    {
      assert s[i] in best;
      var k :| 0 <= k < |best| && best[k] == s[i];
    }
    NearestOfAll(s, everyone, best, everyone, target, K);
  }

  /** What a lookup has when it ends, as the lookup method promises it. */
  ghost predicate Ended(r: seq<Contact>, pool: seq<Contact>, known: Known, start: seq<Contact>, queried: set<Key>,
                        asked: Asked, net: Network, rounds: nat, target: Key) {
    && Explored(known, start, queried, asked, net) && Grounded(start, asked, net, rounds)
    && Lists(pool, known) && Nearest(r, pool, target, K) && forall c :: c in r ==> c.id in queried
  }

  lemma EndedIsReal(r: seq<Contact>, pool: seq<Contact>, known: Known, start: seq<Contact>, queried: set<Key>,
                    asked: Asked, net: Network, rounds: nat, tables: Tables, everyone: seq<Contact>,
                    target: Key, me: Key)
    requires Ended(r, pool, known, start, queried, asked, net, rounds, target)
    requires Answering(net, tables, everyone, target, me) && forall c :: c in start ==> c in everyone
    ensures (forall a :: a in asked ==> a.1 in everyone) && forall c :: c in pool ==> c in everyone
  {
    forall a | a in asked
      ensures a.1 in everyone
    {
      AskedAreReal(start, asked, net, tables, everyone, target, me, rounds, a);
    }
    forall c | c in pool
      ensures c in everyone
    {
      KnownAreReal(known, pool, start, queried, asked, net, tables, everyone, target, me, c);
    }
  }

  /** Some contact of r is not the asker. */
  lemma SomeoneElse(r: seq<Contact>, pool: seq<Contact>, target: Key, me: Key, c: Contact)
    requires Nearest(r, pool, target, K) && c in pool && c.id != me
    ensures exists d :: d in r && d.id != me
  {
    NearestDistinct(r, pool, target, K);
    if |r| == 1 {
      assert |pool| == 1 && r[0] in r;
      assert r[0] == pool[0] == c;
    } else {
      assert Named()(r[0]) != Named()(r[1]);
      assert r[0] in r && r[1] in r;
    }
  }

  lemma Missing(r: seq<Contact>, pool: seq<Contact>, known: Known, start: seq<Contact>, queried: set<Key>,
                asked: Asked, net: Network, rounds: nat, tables: Tables, everyone: seq<Contact>, best: seq<Contact>,
                target: Key, me: Key, x: Contact)
    requires Ended(r, pool, known, start, queried, asked, net, rounds, target)
    requires Answering(net, tables, everyone, target, me) && forall c :: c in start ==> c in everyone
    requires |start| > 0 && start[0].id != me
    requires DistinctIds(everyone) && Nearest(best, everyone, target, K) && x in best
    ensures x in pool || AskerStandsFor(r, me, target, x)
  {
    EndedIsReal(r, pool, known, start, queried, asked, net, rounds, tables, everyone, target, me);
    assert start[0].id in Ids(start);
    IdIsKnown(known, pool, everyone, start[0]);
    SomeoneElse(r, pool, target, me, start[0]);
    var q := NearestOther(r, me, x.id);
    var buckets := AskedBacks(known, pool, start, queried, asked, net, tables, everyone, target, me, q);
    OtherBackedKnows(r, pool, everyone, best, target, me, q, buckets, x);
  }

  /** Contacts that agree but for the last place agree there too, if the one in it belongs among the others. */
  lemma SameLast(r: seq<Contact>, pool: seq<Contact>, best: seq<Contact>, everyone: seq<Contact>,
                 target: Key, c: Contact)
    requires |r| == |best| == K && r[..K - 1] == best[..K - 1] && Nearest(r, pool, target, K)
    requires DistinctIds(everyone) && r[K - 1] in everyone && c in everyone
    requires c in best && c.id == r[K - 1].id
    ensures r == best
  {
    assert forall i :: 0 <= i < K - 1 ==> best[i] == best[..K - 1][i] == r[i];
    assert forall i :: 0 <= i < K - 1 ==> Far(target, r[i].id) < Far(target, r[K - 1].id);
    assert best[K - 1] == c;
    SameKey(everyone, Named(), c, r[K - 1]);
    assert r == r[..K - 1] + [r[K - 1]] && best == best[..K - 1] + [best[K - 1]];
  }

  /** Whatever its own table holds: in a network of stocked tables a lookup that starts anywhere ends at exactly
      the twenty nearest of the whole network, if and only if the asker does not stand in the last place without
      being one of them; and every other place is right even then. A node looking itself up, as a joining one
      does, always gets exactly them. */
  lemma LookupIsExact(r: seq<Contact>, pool: seq<Contact>, known: Known, start: seq<Contact>, queried: set<Key>,
                      asked: Asked, net: Network, rounds: nat, tables: Tables, everyone: seq<Contact>,
                      best: seq<Contact>, target: Key, me: Key)
    requires Ended(r, pool, known, start, queried, asked, net, rounds, target)
    requires Answering(net, tables, everyone, target, me) && forall c :: c in start ==> c in everyone
    requires |start| > 0 && start[0].id != me
    requires DistinctIds(everyone) && Nearest(best, everyone, target, K)
    ensures r == best || (|r| == |best| == K && r[K - 1].id == me && r[..K - 1] == best[..K - 1])
    ensures r == best <==> (|r| == K && r[K - 1].id == me ==> exists c :: c in best && c.id == me)
    ensures target == me ==> r == best
  {
    EndedIsReal(r, pool, known, start, queried, asked, net, rounds, tables, everyone, target, me);
    if x :| x in best && x !in pool {
      Missing(r, pool, known, start, queried, asked, net, rounds, tables, everyone, best, target, me, x);
      AllButLast(r, pool, everyone, best, target, me, x);
      DistanceIsMetric(me, me, me);
      if c :| c in best && c.id == me {
        SameLast(r, pool, best, everyone, target, c);
      }
    } else {
      NearestOfAll(r, pool, best, everyone, target, K);
    }
  }

  /** And an asker whose own table is stocked gets exactly them, whatever the target. */
  lemma StockedAskerIsExact(r: seq<Contact>, pool: seq<Contact>, known: Known, start: seq<Contact>, queried: set<Key>,
                            asked: Asked, net: Network, rounds: nat, tables: Tables, everyone: seq<Contact>,
                            best: seq<Contact>, target: Key, me: Key, mine: Buckets)
    requires Ended(r, pool, known, start, queried, asked, net, rounds, target)
    requires Answering(net, tables, everyone, target, me)
    requires Stocked(me, mine, everyone) && |start| > 0 && start == TopK(All(mine), target, K)
    requires DistinctIds(everyone) && Nearest(best, everyone, target, K)
    ensures r == best
  {
    AnswerIsNearest(me, mine, everyone, target);
    EndedIsReal(r, pool, known, start, queried, asked, net, rounds, tables, everyone, target, me);
    StartBacks(known, pool, start, queried, asked, net, everyone, target, me, mine);
    assert start[0] in pool;
    forall x | x in best
      ensures x in pool
    {
      var q := NearestTo(r, x.id);
      var buckets := mine;
      if q.id != me {
        buckets := AskedBacks(known, pool, start, queried, asked, net, tables, everyone, target, me, q);
      }
      NearestBackedKnows(r, pool, everyone, best, target, q, buckets, x);
    }
    NearestOfAll(r, pool, best, everyone, target, K);
  }

  /** So the lookup run by any node that knows someone, from a stocked table or not. */
  method LookupIn(node: DhtNode, target: Key, net: Network, clock: nat -> nat,
                  ghost tables: Tables, ghost everyone: seq<Contact>, ghost best: seq<Contact>)
    returns (r: seq<Contact>)
    requires node.Valid() && All(node.buckets) != [] && forall c :: c in All(node.buckets) ==> c in everyone
    requires DistinctIds(everyone) && Nearest(best, everyone, target, K)
    requires Answering(net, tables, everyone, target, node.me)
    modifies node
    ensures node.Valid()
    ensures r == best || (|r| == |best| == K && r[K - 1].id == node.me && r[..K - 1] == best[..K - 1])
    ensures target == node.me || Stocked(node.me, old(node.buckets), everyone) ==> r == best
  {
    ghost var mine, me := node.buckets, node.me;
    ghost var start := TopK(All(mine), target, K);
    AllDistinct(me, mine);
    TopKCorrect(All(mine), target, K);
    InOwnBucket(me, mine, start[0]);
    ghost var known, pool, queried, asked, batches;
    r, known, pool, queried, asked, batches := node.FindNearest(target, net, clock);
    ghost var rounds :| Grounded(start, asked, net, rounds);
    LookupIsExact(r, pool, known, start, queried, asked, net, rounds, tables, everyone, best, target, me);
    if Stocked(me, mine, everyone) {
      StockedAskerIsExact(r, pool, known, start, queried, asked, net, rounds, tables, everyone, best, target, me, mine);
    }
  }
}
