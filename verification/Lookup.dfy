/** The iterative lookup, and the eviction of dead contacts. */
module Lookup {
  import opened Options
  import opened Words
  import opened Galois
  import opened Keys
  import opened Routing

  const ALPHA: nat := 3
  const EVICT_AFTER: nat := 3
  const TOMBSTONE_TTL_MS: nat := 600_000

  // ---- what a node keeps --------------------------------------------------------------------------------

  /** The routing table, consecutive failures, tombstones with their expiry, and the seeds. */
  datatype Peers = Peers(me: Key, buckets: Buckets, failures: map<Key, nat>, tombstones: map<Key, nat>, seeds: set<Key>)

  function NoteAlive(p: Peers, id: Key): Peers {
    p.(failures := p.failures - {id})
  }

  function NoteDead(p: Peers, id: Key, now: nat): Peers {
    if id in p.seeds then p
    else
      var n := (if id in p.failures then p.failures[id] else 0) + 1;
      if n >= EVICT_AFTER then
        p.(failures := p.failures - {id},
           buckets := Removed(p.me, p.buckets, id),
           tombstones := p.tombstones[id := now + TOMBSTONE_TTL_MS])
      else p.(failures := p.failures[id := n])
  }

  predicate Buried(p: Peers, id: Key, now: nat) {
    id in p.tombstones && p.tombstones[id] > now
  }

  /** A contact is taken in unless it is this node or under a live tombstone; an expired one is swept. */
  function LearnOne(p: Peers, c: Contact, now: nat): Peers {
    if c.id == p.me || Buried(p, c.id, now) then p
    else p.(tombstones := p.tombstones - {c.id}, buckets := Inserted(p.me, p.buckets, c))
  }

  function Learn(p: Peers, cs: seq<Contact>, now: nat): Peers {
    if |cs| == 0 then p else LearnOne(Learn(p, cs[..|cs| - 1], now), cs[|cs| - 1], now)
  }

  // ---- the lookup ---------------------------------------------------------------------------------------

  type Known = map<Key, Contact>

  ghost predicate Keyed(known: Known) {
    forall k :: k in known ==> known[k].id == k
  }

  /** The values of the map, in some order. */
  ghost predicate Lists(pool: seq<Contact>, known: Known) {
    DistinctIds(pool) && forall c :: c in pool <==> c.id in known && known[c.id] == c
  }

  method Values(known: Known) returns (pool: seq<Contact>)
    requires Keyed(known)
    ensures Lists(pool, known)
  {
    var todo := known.Keys;
    pool := [];
    while todo != {}
      invariant todo <= known.Keys
      invariant DistinctIds(pool)
      invariant forall c :: c in pool <==> c.id in known && c.id !in todo && known[c.id] == c
      decreases todo
    {
      var k :| k in todo;
      pool := pool + [known[k]];
      todo := todo - {k};
    }
  }

  function Unqueried(s: seq<Contact>, queried: set<Key>): seq<Contact> {
    if |s| == 0 then []
    else if s[0].id in queried then Unqueried(s[1..], queried)
    else [s[0]] + Unqueried(s[1..], queried)
  }

  lemma {:induction false} UnqueriedAre(s: seq<Contact>, queried: set<Key>, c: Contact)
    ensures c in Unqueried(s, queried) <==> c in s && c.id !in queried
  {
    if |s| > 0 {
      UnqueriedAre(s[1..], queried, c);
      assert s == [s[0]] + s[1..];
    }
  }

  function Ids(s: seq<Contact>): set<Key> {
    set c | c in s :: c.id
  }

  /** Later contacts replace earlier ones with the same id. */
  function Noted(known: Known, cs: seq<Contact>): Known {
    if |cs| == 0 then known else Noted(known, cs[..|cs| - 1])[cs[|cs| - 1].id := cs[|cs| - 1]]
  }

  lemma {:induction false} NotedKeys(known: Known, cs: seq<Contact>)
    ensures Noted(known, cs).Keys == known.Keys + Ids(cs)
    ensures Keyed(known) ==> Keyed(Noted(known, cs))
  {
    if |cs| > 0 {
      NotedKeys(known, cs[..|cs| - 1]);
      assert cs == cs[..|cs| - 1] + [cs[|cs| - 1]];
    }
  }

  /** What the network answers, contact by contact and round by round: anything at all. */
  type Network = (nat, Contact) -> seq<Contact>

  function Answers(net: Network, round: nat, batch: seq<Contact>): seq<Contact> {
    if |batch| == 0 then [] else Answers(net, round, batch[..|batch| - 1]) + net(round, batch[|batch| - 1])
  }

  // ---- the key space is finite --------------------------------------------------------------------------

  ghost function AllKeys(n: nat): set<seq<Byte>> {
    if n == 0 then {[]} else Prefixed(256, AllKeys(n - 1))
  }

  ghost function Prefixed(b: nat, s: set<seq<Byte>>): set<seq<Byte>>
    requires b <= 256
  {
    if b == 0 then {} else Prefixed(b - 1, s) + set k | k in s :: [(b - 1) as Byte] + k
  }

  lemma {:induction false} PrefixedHas(b: nat, s: set<seq<Byte>>, x: Byte, k: seq<Byte>)
    requires x < b <= 256 && k in s
    ensures [x] + k in Prefixed(b, s)
  {
    if x < b - 1 {
      PrefixedHas(b - 1, s, x, k);
    }
  }

  lemma {:induction false} AllKeysHas(k: seq<Byte>)
    ensures k in AllKeys(|k|)
  {
    if |k| > 0 {
      AllKeysHas(k[1..]);
      PrefixedHas(256, AllKeys(|k| - 1), k[0], k[1..]);
      assert k == [k[0]] + k[1..];
    }
  }

  // ---- what a lookup has explored -----------------------------------------------------------------------

  /** Contacts asked, with the round they were asked in. */
  type Asked = set<(nat, Contact)>

  ghost predicate Told(asked: Asked, net: Network, c: Contact) {
    exists a :: a in asked && c in net(a.0, a.1)
  }

  /** Known are the starting contacts and everything the asked ones answered, and nothing else; the queried
      ids are those of the asked contacts, all of them known. */
  ghost predicate Explored(known: Known, start: seq<Contact>, queried: set<Key>, asked: Asked, net: Network) {
    && Keyed(known) && Ids(start) <= known.Keys && queried <= known.Keys
    && (forall a :: a in asked ==> Ids(net(a.0, a.1)) <= known.Keys)
    && (forall k :: k in known ==> known[k] in start || Told(asked, net, known[k]))
    && queried == set a | a in asked :: a.1.id
  }

  /** Every asked contact was a starting one or named in an earlier round. */
  ghost predicate Grounded(start: seq<Contact>, asked: Asked, net: Network, round: nat) {
    forall a :: a in asked ==> a.0 < round && (a.1 in start || ToldBefore(asked, net, a.1, a.0))
  }

  ghost predicate ToldBefore(asked: Asked, net: Network, c: Contact, round: nat) {
    exists a :: a in asked && a.0 < round && c in net(a.0, a.1)
  }

  function AskedIn(round: nat, batch: seq<Contact>): Asked {
    set c | c in batch :: (round, c)
  }

  lemma {:induction false} AnswersAre(net: Network, round: nat, batch: seq<Contact>, x: Contact)
    ensures x in Answers(net, round, batch) <==> exists c :: c in batch && x in net(round, c)
  {
    if |batch| > 0 {
      var n := |batch| - 1;
      AnswersAre(net, round, batch[..n], x);
      assert batch == batch[..n] + [batch[n]];
      assert batch[n] in batch;
    }
  }

  lemma {:induction false} NotedFrom(known: Known, cs: seq<Contact>, k: Key)
    requires k in Noted(known, cs)
    ensures Noted(known, cs)[k] in cs || (k in known && Noted(known, cs)[k] == known[k])
  {
    if |cs| > 0 {
      if cs[|cs| - 1].id != k {
        NotedFrom(known, cs[..|cs| - 1], k);
      }
    }
  }

  lemma RoundExplores(known: Known, start: seq<Contact>, queried: set<Key>, asked: Asked, net: Network,
                      round: nat, batch: seq<Contact>)
    requires Explored(known, start, queried, asked, net)
    requires forall c :: c in batch ==> c.id in known
    ensures Explored(Noted(known, Answers(net, round, batch)), start, queried + Ids(batch),
                     asked + AskedIn(round, batch), net)
  {
    var answers := Answers(net, round, batch);
    var next, more := Noted(known, answers), asked + AskedIn(round, batch);
    NotedKeys(known, answers);
    forall a | a in more
      ensures Ids(net(a.0, a.1)) <= next.Keys
    {
      if a !in asked {
        forall x | x in net(a.0, a.1)
          ensures x in answers
        {
          AnswersAre(net, round, batch, x);
        }
      }
    }
    forall k | k in next
      ensures next[k] in start || Told(more, net, next[k])
    {
      NotedFrom(known, answers, k);
      if next[k] in answers {
        AnswersAre(net, round, batch, next[k]);
        var c :| c in batch && next[k] in net(round, c);
        assert (round, c) in more;
      } else if next[k] !in start {
        var a :| a in asked && next[k] in net(a.0, a.1);
        assert a in more;
      }
    }
    IdsAsked(queried, asked, round, batch);
  }

  lemma RoundGrounded(known: Known, start: seq<Contact>, queried: set<Key>, asked: Asked, net: Network,
                      round: nat, batch: seq<Contact>)
    requires Explored(known, start, queried, asked, net) && Grounded(start, asked, net, round)
    requires forall c :: c in batch ==> c.id in known && known[c.id] == c
    ensures Grounded(start, asked + AskedIn(round, batch), net, round + 1)
  {
    var more := asked + AskedIn(round, batch);
    forall a | a in more
      ensures a.0 < round + 1 && (a.1 in start || ToldBefore(more, net, a.1, a.0))
    {
      if a.1 !in start {
        if a in asked {
          var b :| b in asked && b.0 < a.0 && a.1 in net(b.0, b.1);
          assert b in more;
        } else {
          assert Told(asked, net, known[a.1.id]);
          var b :| b in asked && a.1 in net(b.0, b.1);
          assert b in more;
        }
      }
    }
  }

  lemma IdsAsked(queried: set<Key>, asked: Asked, round: nat, batch: seq<Contact>)
    requires queried == set a | a in asked :: a.1.id
    ensures queried + Ids(batch) == set a | a in asked + AskedIn(round, batch) :: a.1.id
  {
    forall c | c in batch
      ensures c.id in (set a | a in asked + AskedIn(round, batch) :: a.1.id)
    {
      assert (round, c) in asked + AskedIn(round, batch);
    }
  }

  // ---- eviction -----------------------------------------------------------------------------------------

  datatype Event =
    | Failed(id: Key, now: nat)
    | Answered(id: Key, now: nat)
    | Taught(contacts: seq<Contact>, now: nat)
    | Seeded(contacts: seq<Contact>, now: nat)

  function Apply(p: Peers, e: Event): Peers {
    match e
    case Failed(id, now) => NoteDead(p, id, now)
    case Answered(id, now) => NoteAlive(p, id)
    case Taught(cs, now) => Learn(p, cs, now)
    case Seeded(cs, now) => Learn(p.(seeds := p.seeds + Ids(cs)), cs, now)
  }

  function Run(p: Peers, events: seq<Event>): Peers {
    if |events| == 0 then p else Apply(Run(p, events[..|events| - 1]), events[|events| - 1])
  }

  lemma {:induction false} LearnFiled(p: Peers, cs: seq<Contact>, now: nat)
    requires Filed(p.me, p.buckets)
    ensures Learn(p, cs, now).me == p.me && Filed(p.me, Learn(p, cs, now).buckets)
  {
    if |cs| > 0 {
      var q := Learn(p, cs[..|cs| - 1], now);
      LearnFiled(p, cs[..|cs| - 1], now);
      InsertKeepsFiled(p.me, q.buckets, cs[|cs| - 1]);
    }
  }

  lemma StepFiled(p: Peers, e: Event)
    requires Filed(p.me, p.buckets)
    ensures Apply(p, e).me == p.me && Filed(p.me, Apply(p, e).buckets)
  {
    match e {
      case Failed(id, now) => RemoveKeepsFiled(p.me, p.buckets, id);
      case Answered(_, _) =>
      case Taught(cs, now) => LearnFiled(p, cs, now);
      case Seeded(cs, now) => LearnFiled(p.(seeds := p.seeds + Ids(cs)), cs, now);
    }
  }

  /** In every run the table stays in order: right buckets, unique ids, at most twenty per bucket. */
  lemma {:induction false} RunFiled(p: Peers, events: seq<Event>)
    requires Filed(p.me, p.buckets)
    ensures Run(p, events).me == p.me && Filed(p.me, Run(p, events).buckets)
  {
    if |events| > 0 {
      RunFiled(p, events[..|events| - 1]);
      StepFiled(Run(p, events[..|events| - 1]), events[|events| - 1]);
    }
  }

  /** Not in the table, and under a tombstone until then. */
  ghost predicate Out(p: Peers, id: Key, until: nat) {
    && id in p.tombstones && p.tombstones[id] >= until
    && forall x :: x in All(p.buckets) ==> x.id != id
  }

  lemma {:induction false} LearnKeepsOut(p: Peers, cs: seq<Contact>, now: nat, id: Key, until: nat)
    requires Filed(p.me, p.buckets) && Out(p, id, until) && now < until
    ensures Out(Learn(p, cs, now), id, until)
  {
    if |cs| > 0 {
      var c := cs[|cs| - 1];
      var q := Learn(p, cs[..|cs| - 1], now);
      LearnKeepsOut(p, cs[..|cs| - 1], now, id, until);
      LearnFiled(p, cs[..|cs| - 1], now);
      forall x | x in All(Inserted(q.me, q.buckets, c)) && c.id != id
        ensures x.id != id
      {
        InsertedMembers(q.me, q.buckets, c, x);
      }
    }
  }

  lemma DeadKeepsOut(p: Peers, dead: Key, now: nat, id: Key, until: nat)
    requires Filed(p.me, p.buckets) && Out(p, id, until) && until <= now + TOMBSTONE_TTL_MS
    ensures Out(NoteDead(p, dead, now), id, until)
  {
    forall x | x in All(Removed(p.me, p.buckets, dead))
      ensures x.id != id
    {
      RemovedMembers(p.me, p.buckets, dead, x);
    }
  }

  function Failures(p: Peers, id: Key): nat {
    if id in p.failures then p.failures[id] else 0
  }

  lemma {:induction false} LearnKeepsFailures(p: Peers, cs: seq<Contact>, now: nat)
    ensures Learn(p, cs, now).failures == p.failures && Learn(p, cs, now).seeds == p.seeds
  {
    if |cs| > 0 {
      LearnKeepsFailures(p, cs[..|cs| - 1], now);
    }
  }

  /** Not a seed, and not made one. */
  ghost predicate NeverSeeded(p: Peers, events: seq<Event>, id: Key) {
    id !in p.seeds && forall i :: 0 <= i < |events| && events[i].Seeded? ==> id !in Ids(events[i].contacts)
  }

  /** A failure that does not evict is counted, and nothing but an answer takes it back. */
  lemma StepCounts(p: Peers, e: Event, id: Key)
    requires Filed(p.me, p.buckets) && NeverSeeded(p, [e], id) && e != Answered(id, e.now)
    ensures id !in Apply(p, e).seeds
    ensures e == Failed(id, e.now) && Failures(p, id) + 1 >= EVICT_AFTER ==>
              Out(Apply(p, e), id, e.now + TOMBSTONE_TTL_MS)
    ensures e == Failed(id, e.now) && Failures(p, id) + 1 < EVICT_AFTER ==>
              Failures(Apply(p, e), id) == Failures(p, id) + 1
    ensures e != Failed(id, e.now) ==> Failures(Apply(p, e), id) == Failures(p, id)
  {
    assert [e][0] == e;
    match e {
      case Failed(dead, now) =>
        if dead == id && Failures(p, id) + 1 >= EVICT_AFTER {
          RemovedIsOut(p, id);
        }
      case Answered(_, _) =>
      case Taught(cs, now) => LearnKeepsFailures(p, cs, now);
      case Seeded(cs, now) => LearnKeepsFailures(p.(seeds := p.seeds + Ids(cs)), cs, now);
    }
  }

  // ---- who is held ----------------------------------------------------------------------------------------

  ghost predicate HoldsId(p: Peers, id: Key) {
    exists x :: x in All(p.buckets) && x.id == id
  }

  /** The last contact of that id in a lesson. */
  function LastOf(cs: seq<Contact>, id: Key): Option<Contact> {
    if |cs| == 0 then None
    else if cs[|cs| - 1].id == id then Some(cs[|cs| - 1])
    else LastOf(cs[..|cs| - 1], id)
  }

  /** What a lesson does for one id: a contact that is not this node and not under a live tombstone is held as it
      was taught last, or its bucket is full; any other id is left as it was. */
  ghost predicate LearnedRight(p: Peers, last: Option<Contact>, now: nat, q: Peers, id: Key) {
    if last.None? || id == p.me || Buried(p, id, now) then
      forall x: Contact :: x.id == id ==> (x in All(q.buckets) <==> x in All(p.buckets))
    else
      && (last.value in All(q.buckets) || |q.buckets[BucketIndex(p.me, id).value]| == K)
      && (forall x :: x in All(q.buckets) && x.id == id ==> x == last.value)
      && (HoldsId(p, id) ==> last.value in All(q.buckets))
  }

  lemma LearnOneHolds(p: Peers, c: Contact, now: nat, id: Key)
    requires Filed(p.me, p.buckets)
    ensures forall x: Contact :: x.id == id && (id != c.id || id == p.me || Buried(p, id, now)) ==>
              (x in All(LearnOne(p, c, now).buckets) <==> x in All(p.buckets))
    ensures HoldsId(p, id) ==> HoldsId(LearnOne(p, c, now), id)
  {
    forall x: Contact | x.id == id
      ensures id != c.id ==> (x in All(Inserted(p.me, p.buckets, c)) <==> x in All(p.buckets))
    {
      InsertedMembers(p.me, p.buckets, c, x);
    }
    if c.id == id && id != p.me && !Buried(p, id, now) && HoldsId(p, id) {
      HeldHasRoom(p, id);
      InsertedMembers(p.me, p.buckets, c, c);
    }
  }

  lemma HeldHasRoom(p: Peers, id: Key)
    requires Filed(p.me, p.buckets) && HoldsId(p, id) && id != p.me
    ensures HasRoom(p.me, p.buckets, id)
  {
    var x :| x in All(p.buckets) && x.id == id;
    InOwnBucket(p.me, p.buckets, x);
  }

  lemma LearnOneTakes(p: Peers, c: Contact, now: nat)
    requires Filed(p.me, p.buckets) && c.id != p.me && !Buried(p, c.id, now)
    ensures var q := LearnOne(p, c, now);
            && (c in All(q.buckets) || |q.buckets[BucketIndex(p.me, c.id).value]| == K)
            && (forall x :: x in All(q.buckets) && x.id == c.id ==> x == c)
            && (HoldsId(p, c.id) ==> c in All(q.buckets))
  {
    InsertTakesOrIsFull(p.me, p.buckets, c);
    forall x | x in All(Inserted(p.me, p.buckets, c)) && x.id == c.id
      ensures x == c
    {
      InsertedMembers(p.me, p.buckets, c, x);
    }
    if HoldsId(p, c.id) {
      HeldHasRoom(p, c.id);
      InsertedMembers(p.me, p.buckets, c, c);
    }
  }

  lemma BuriedStays(p: Peers, c: Contact, now: nat, id: Key)
    ensures Buried(LearnOne(p, c, now), id, now) <==> Buried(p, id, now)
  {
  }

  lemma SameKnowledge(p: Peers, last: Option<Contact>, now: nat, q: Peers, r: Peers, id: Key)
    requires LearnedRight(p, last, now, q, id)
    requires forall x: Contact :: x.id == id ==> (x in All(r.buckets) <==> x in All(q.buckets))
    requires id != p.me && |q.buckets[BucketIndex(p.me, id).value]| == K ==>
               |r.buckets[BucketIndex(p.me, id).value]| == K
    requires last.Some? ==> last.value.id == id
    ensures LearnedRight(p, last, now, r, id)
  {
  }

  lemma LearnOneKeepsFull(q: Peers, c: Contact, now: nat, j: nat)
    requires Filed(q.me, q.buckets) && j < BUCKETS && |q.buckets[j]| == K
    ensures |LearnOne(q, c, now).buckets[j]| == K
  {
    InsertKeepsFull(q.me, q.buckets, c, j);
  }

  lemma {:induction false} LastOfId(cs: seq<Contact>, id: Key)
    ensures LastOf(cs, id).Some? ==> LastOf(cs, id).value.id == id
  {
    if |cs| > 0 {
      LastOfId(cs[..|cs| - 1], id);
    }
  }

  /** One more contact of another id leaves what is known of this id as it was. */
  lemma OtherIsLearned(p: Peers, last: Option<Contact>, now: nat, q: Peers, c: Contact, id: Key)
    requires Filed(q.me, q.buckets) && q.me == p.me && LearnedRight(p, last, now, q, id) && c.id != id
    requires last.Some? ==> last.value.id == id
    ensures LearnedRight(p, last, now, LearnOne(q, c, now), id)
  {
    LearnOneHolds(q, c, now, id);
    if id != p.me && |q.buckets[BucketIndex(p.me, id).value]| == K {
      LearnOneKeepsFull(q, c, now, BucketIndex(p.me, id).value);
    }
    SameKnowledge(p, last, now, q, LearnOne(q, c, now), id);
  }

  lemma RefusedIsLearned(p: Peers, last: Option<Contact>, now: nat, q: Peers, c: Contact)
    requires Filed(q.me, q.buckets) && q.me == p.me && LearnedRight(p, last, now, q, c.id)
    requires c.id == p.me || (Buried(p, c.id, now) && Buried(q, c.id, now))
    ensures LearnedRight(p, Some(c), now, LearnOne(q, c, now), c.id)
  {
  }

  lemma {:induction false} LearnKeepsIds(p: Peers, cs: seq<Contact>, now: nat, id: Key)
    requires Filed(p.me, p.buckets)
    ensures Buried(Learn(p, cs, now), id, now) <==> Buried(p, id, now)
    ensures HoldsId(p, id) ==> HoldsId(Learn(p, cs, now), id)
  {
    if |cs| > 0 {
      var q := Learn(p, cs[..|cs| - 1], now);
      LearnKeepsIds(p, cs[..|cs| - 1], now, id);
      LearnFiled(p, cs[..|cs| - 1], now);
      BuriedStays(q, cs[|cs| - 1], now, id);
      LearnOneHolds(q, cs[|cs| - 1], now, id);
    }
  }

  lemma {:induction false} LearnMembers(p: Peers, cs: seq<Contact>, now: nat, id: Key)
    requires Filed(p.me, p.buckets)
    ensures LearnedRight(p, LastOf(cs, id), now, Learn(p, cs, now), id)
  {
    if |cs| > 0 {
      var n := |cs| - 1;
      var q, c := Learn(p, cs[..n], now), cs[n];
      LearnMembers(p, cs[..n], now, id);
      LearnFiled(p, cs[..n], now);
      LearnKeepsIds(p, cs[..n], now, id);
      if c.id != id {
        LastOfId(cs[..n], id);
        OtherIsLearned(p, LastOf(cs[..n], id), now, q, c, id);
      } else if id == p.me || Buried(p, id, now) {
        RefusedIsLearned(p, LastOf(cs[..n], id), now, q, c);
      } else {
        LearnOneTakes(q, c, now);
      }
    }
  }

  /** A held contact leaves the table exactly at the third failure in a row, and a seed never. */
  lemma LeavesIff(p: Peers, e: Event, id: Key)
    requires Filed(p.me, p.buckets) && HoldsId(p, id)
    ensures !HoldsId(Apply(p, e), id) <==> e == Failed(id, e.now) && id !in p.seeds && Failures(p, id) >= 2
  {
    match e {
      case Failed(dead, now) =>
        forall x
          ensures x in All(Removed(p.me, p.buckets, dead)) <==> x in All(p.buckets) && x.id != dead
        {
          RemovedMembers(p.me, p.buckets, dead, x);
        }
      case Answered(_, _) =>
      case Taught(cs, now) => LearnKeepsIds(p, cs, now, id);
      case Seeded(cs, now) => LearnKeepsIds(p.(seeds := p.seeds + Ids(cs)), cs, now, id);
    }
  }

  /** A seed that is held is held for ever. */
  lemma {:induction false} SeedsStay(p: Peers, seeds: seq<Contact>, at: nat, events: seq<Event>, c: Contact)
    requires Filed(p.me, p.buckets) && c in seeds && HoldsId(Apply(p, Seeded(seeds, at)), c.id)
    ensures HoldsId(Run(Apply(p, Seeded(seeds, at)), events), c.id)
    ensures c.id in Run(Apply(p, Seeded(seeds, at)), events).seeds
  {
    var q := Apply(p, Seeded(seeds, at));
    StepFiled(p, Seeded(seeds, at));
    LearnKeepsFailures(p.(seeds := p.seeds + Ids(seeds)), seeds, at);
    if |events| > 0 {
      var n := |events| - 1;
      SeedsStay(p, seeds, at, events[..n], c);
      RunFiled(q, events[..n]);
      LeavesIff(Run(q, events[..n]), events[n], c.id);
      StepKeepsSeeds(Run(q, events[..n]), events[n], c.id);
    }
  }

  lemma StepKeepsSeeds(p: Peers, e: Event, id: Key)
    requires id in p.seeds
    ensures id in Apply(p, e).seeds
  {
    match e {
      case Failed(_, _) =>
      case Answered(_, _) =>
      case Taught(cs, now) => LearnKeepsFailures(p, cs, now);
      case Seeded(cs, now) => LearnKeepsFailures(p.(seeds := p.seeds + Ids(cs)), cs, now);
    }
  }

  /** Failures in a row since the contact last answered, or was last put out. */
  function Streak(events: seq<Event>, id: Key): nat {
    if |events| == 0 then 0
    else
      var before, e := Streak(events[..|events| - 1], id), events[|events| - 1];
      if e == Answered(id, e.now) then 0
      else if e == Failed(id, e.now) then (if before == 2 then 0 else before + 1)
      else before
  }

  lemma {:induction false} FailuresAreStreak(p: Peers, events: seq<Event>, id: Key)
    requires Filed(p.me, p.buckets) && p.failures == map[] && NeverSeeded(p, events, id)
    ensures Failures(Run(p, events), id) == Streak(events, id) <= 2 && id !in Run(p, events).seeds
  {
    if |events| > 0 {
      var n := |events| - 1;
      var q, e := Run(p, events[..n]), events[n];
      FailuresAreStreak(p, events[..n], id);
      RunFiled(p, events[..n]);
      if e != Answered(id, e.now) {
        StepCounts(q, e, id);
      }
    }
  }

  /** After any run, a held contact that is no seed leaves the table exactly at a failure that is the third since
      it last answered: failures with an answer between them do not add up. */
  lemma EvictedIff(p: Peers, events: seq<Event>, e: Event, id: Key)
    requires Filed(p.me, p.buckets) && p.failures == map[] && NeverSeeded(p, events, id)
    requires HoldsId(Run(p, events), id)
    ensures !HoldsId(Apply(Run(p, events), e), id) <==> e == Failed(id, e.now) && Streak(events, id) == 2
  {
    RunFiled(p, events);
    FailuresAreStreak(p, events, id);
    LeavesIff(Run(p, events), e, id);
  }

  lemma {:induction false} LearnKeepsTombstone(p: Peers, cs: seq<Contact>, now: nat, id: Key)
    ensures var q := Learn(p, cs, now);
            id in q.tombstones ==> id in p.tombstones && q.tombstones[id] == p.tombstones[id]
  {
    if |cs| > 0 {
      LearnKeepsTombstone(p, cs[..|cs| - 1], now, id);
    }
  }

  lemma {:induction false} TombstonesExpire(p: Peers, events: seq<Event>, id: Key, now: nat)
    requires p.tombstones == map[]
    requires forall i :: 0 <= i < |events| && events[i] == Failed(id, events[i].now) ==> events[i].now + 600_000 <= now
    ensures id in Run(p, events).tombstones ==> Run(p, events).tombstones[id] <= now
  {
    if |events| > 0 {
      var q, e := Run(p, events[..|events| - 1]), events[|events| - 1];
      TombstonesExpire(p, events[..|events| - 1], id, now);
      match e {
        case Failed(_, _) =>
        case Answered(_, _) =>
        case Taught(cs, at) => LearnKeepsTombstone(q, cs, at, id);
        case Seeded(cs, at) => LearnKeepsTombstone(q.(seeds := q.seeds + Ids(cs)), cs, at, id);
      }
    }
  }

  /** After any run, ten minutes after its last failure a contact that is taught is held again, or its bucket is
      full. */
  lemma TaughtAgain(p: Peers, events: seq<Event>, c: Contact, now: nat)
    requires Filed(p.me, p.buckets) && p.tombstones == map[] && c.id != p.me
    requires forall i :: 0 <= i < |events| && events[i] == Failed(c.id, events[i].now) ==>
                           events[i].now + 600_000 <= now
    ensures var q := Apply(Run(p, events), Taught([c], now));
            c in All(q.buckets) || |q.buckets[BucketIndex(p.me, c.id).value]| == K
  {
    RunFiled(p, events);
    TombstonesExpire(p, events, c.id, now);
    LearnMembers(Run(p, events), [c], now, c.id);
  }

  lemma RemovedIsOut(p: Peers, id: Key)
    requires Filed(p.me, p.buckets)
    ensures forall x :: x in All(Removed(p.me, p.buckets, id)) ==> x.id != id
  {
    forall x | x in All(Removed(p.me, p.buckets, id))
      ensures x.id != id
    {
      RemovedMembers(p.me, p.buckets, id, x);
    }
  }

  function CountFailures(events: seq<Event>, id: Key): nat {
    if |events| == 0 then 0
    else (if events[0].Failed? && events[0].id == id then 1 else 0) + CountFailures(events[1..], id)
  }

  /** Enough failures with no answer between them evict at one of them. */
  lemma {:induction false} EnoughFailuresEvict(p: Peers, events: seq<Event>, id: Key) returns (m: nat)
    requires Filed(p.me, p.buckets) && NeverSeeded(p, events, id)
    requires forall i :: 0 <= i < |events| ==> events[i] != Answered(id, events[i].now)
    requires Failures(p, id) + CountFailures(events, id) >= EVICT_AFTER > Failures(p, id)
    ensures m < |events| && events[m] == Failed(id, events[m].now)
    ensures Out(Run(p, events[..m + 1]), id, events[m].now + TOMBSTONE_TTL_MS)
    decreases |events|
  {
    var e := events[0];
    var q := Apply(p, e);
    StepCounts(p, e, id);
    StepFiled(p, e);
    RunOne(p, e);
    assert events[..1] == [e];
    if e == Failed(id, e.now) && Failures(p, id) + 1 >= EVICT_AFTER {
      m := 0;
    } else {
      var rest := events[1..];
      var n := EnoughFailuresEvict(q, rest, id);
      m := n + 1;
      RunSplit(p, events[..m + 1], 1);
      assert events[..m + 1][1..] == rest[..n + 1] && events[..m + 1][..1] == [e];
    }
  }

  lemma RunOne(p: Peers, e: Event)
    ensures Run(p, [e]) == Apply(p, e)
  {
    assert [e][..0] == [] && Run(p, []) == p;
  }

  lemma {:induction false} RunSplit(p: Peers, events: seq<Event>, n: nat)
    requires n <= |events|
    ensures Run(p, events) == Run(Run(p, events[..n]), events[n..])
  {
    if n == |events| {
      assert events[..n] == events && events[n..] == [];
    } else {
      var k := |events| - 1;
      RunSplit(p, events[..k], n);
      assert events[..k][..n] == events[..n] && events[n..][..k - n] == events[..k][n..];
    }
  }

  /** An evicted contact stays out for ten minutes, whatever other nodes teach meanwhile. */
  lemma {:induction false} EvictedStaysOut(p: Peers, events: seq<Event>, id: Key, t: nat)
    requires Filed(p.me, p.buckets) && Out(p, id, t + TOMBSTONE_TTL_MS)
    requires forall i :: 0 <= i < |events| ==> t <= events[i].now < t + TOMBSTONE_TTL_MS
    ensures Out(Run(p, events), id, t + TOMBSTONE_TTL_MS)
  {
    if |events| > 0 {
      var n := |events| - 1;
      var q, e := Run(p, events[..n]), events[n];
      EvictedStaysOut(p, events[..n], id, t);
      RunFiled(p, events[..n]);
      match e {
        case Failed(dead, now) => DeadKeepsOut(q, dead, now, id, t + TOMBSTONE_TTL_MS);
        case Answered(_, _) =>
        case Taught(cs, now) => LearnKeepsOut(q, cs, now, id, t + TOMBSTONE_TTL_MS);
        case Seeded(cs, now) => LearnKeepsOut(q.(seeds := q.seeds + Ids(cs)), cs, now, id, t + TOMBSTONE_TTL_MS);
      }
    }
  }

  ghost predicate Ordered(events: seq<Event>) {
    forall i, j :: 0 <= i <= j < |events| ==> events[i].now <= events[j].now
  }

  /** Whatever happened before: after three failures of a contact that is not a seed, with no answer between
      them, it was put out at one of them, and no later event within ten minutes of that one brings it back. */
  lemma ThreeFailuresEvict(p: Peers, before: seq<Event>, events: seq<Event>, id: Key) returns (m: nat)
    requires Filed(p.me, p.buckets) && p.failures == map[] && NeverSeeded(p, before + events, id)
    requires CountFailures(events, id) >= 3
    requires forall i :: 0 <= i < |events| ==> events[i] != Answered(id, events[i].now)
    ensures m < |events| && events[m] == Failed(id, events[m].now)
    ensures forall later: seq<Event> ::
              Ordered([events[m]] + later) && NoneAfter(later, events[m].now + 600_000) ==>
              Out(Run(Run(p, before + events[..m + 1]), later), id, events[m].now + 600_000)
  {
    var q := Run(p, before);
    RunFiled(p, before);
    assert forall i :: 0 <= i < |before| ==> (before + events)[i] == before[i];
    assert forall i :: 0 <= i < |events| ==> (before + events)[|before| + i] == events[i];
    BelowThree(p, before, id);
    m := EnoughFailuresEvict(q, events, id);
    var gone := before + events[..m + 1];
    RunSplit(p, gone, |before|);
    assert gone[..|before|] == before && gone[|before|..] == events[..m + 1];
    RunFiled(p, gone);
    forall later: seq<Event> | Ordered([events[m]] + later) && NoneAfter(later, events[m].now + TOMBSTONE_TTL_MS)
      ensures Out(Run(Run(p, gone), later), id, events[m].now + TOMBSTONE_TTL_MS)
    {
      var all := [events[m]] + later;
      forall i | 0 <= i < |later|
        ensures events[m].now <= later[i].now
      {
        assert all[0] == events[m] && all[i + 1] == later[i];
      }
      EvictedStaysOut(Run(p, gone), later, id, events[m].now);
    }
  }

  predicate NoneAfter(events: seq<Event>, until: nat) {
    forall i :: 0 <= i < |events| ==> events[i].now < until
  }

  lemma {:induction false} BelowThree(p: Peers, events: seq<Event>, id: Key)
    requires Filed(p.me, p.buckets) && p.failures == map[] && NeverSeeded(p, events, id)
    ensures Failures(Run(p, events), id) < EVICT_AFTER && id !in Run(p, events).seeds
  {
    if |events| > 0 {
      var q, e := Run(p, events[..|events| - 1]), events[|events| - 1];
      BelowThree(p, events[..|events| - 1], id);
      RunFiled(p, events[..|events| - 1]);
      if e != Answered(id, e.now) {
        StepCounts(q, e, id);
      }
    }
  }

  /** What a node has learned after these rounds: the answers of each batch, at the time of its round. */
  ghost function LearnRounds(p: Peers, net: Network, clock: nat -> nat, batches: seq<seq<Contact>>): Peers {
    if |batches| == 0 then p
    else
      var n := |batches| - 1;
      Learn(LearnRounds(p, net, clock, batches[..n]), Answers(net, n, batches[n]), clock(n))
  }

  ghost function AskedInRounds(batches: seq<seq<Contact>>): Asked {
    if |batches| == 0 then {}
    else AskedInRounds(batches[..|batches| - 1]) + AskedIn(|batches| - 1, batches[|batches| - 1])
  }

  /** The twenty nearest known, and the first three of them not asked yet. */
  method NextBatch(found: Known, visited: set<Key>, target: Key)
    returns (values: seq<Contact>, shortlist: seq<Contact>, batch: seq<Contact>)
    requires Keyed(found)
    ensures Lists(values, found) && Nearest(shortlist, values, target, K) && |batch| <= 3
    ensures forall c :: c in batch ==> c.id in found && found[c.id] == c && c.id !in visited
    ensures |batch| == 0 ==> forall c :: c in shortlist ==> c.id in visited
  {
    values := Values(found);
    TopKCorrect(values, target, K);
    shortlist := TopK(values, target, K);
    var unasked := Unqueried(shortlist, visited);
    batch := unasked[..Min(ALPHA, |unasked|)];
    forall c: Contact
      ensures c in unasked <==> c in shortlist && c.id !in visited
    {
      UnqueriedAre(shortlist, visited, c);
    }
    assert |batch| == 0 ==> unasked == [];
  }

  /** The rounds so far: whom they asked, and what the node learned. */
  ghost predicate Recorded(batches: seq<seq<Contact>>, asked: Asked, p: Peers, q: Peers, net: Network,
                           clock: nat -> nat) {
    && asked == AskedInRounds(batches) && (forall i :: 0 <= i < |batches| ==> 1 <= |batches[i]| <= 3)
    && q == LearnRounds(p, net, clock, batches)
  }

  lemma RecordRound(batches: seq<seq<Contact>>, asked: Asked, p: Peers, q: Peers, net: Network, clock: nat -> nat,
                    batch: seq<Contact>)
    requires Recorded(batches, asked, p, q, net, clock) && 1 <= |batch| <= 3
    ensures var n := |batches|;
            Recorded(batches + [batch], asked + AskedIn(n, batch), p,
                     Learn(q, Answers(net, n, batch), clock(n)), net, clock)
  {
    assert (batches + [batch])[..|batches|] == batches;
  }

  // ---- the node -----------------------------------------------------------------------------------------

  class DhtNode {
    const me: Key
    var buckets: Buckets
    var failures: map<Key, nat>
    var tombstones: map<Key, nat>
    var seeds: set<Key>

    ghost function View(): Peers
      reads this
    {
      Peers(me, buckets, failures, tombstones, seeds)
    }

    ghost predicate Valid()
      reads this
    {
      Filed(me, buckets)
    }

    constructor (me: Key)
      ensures Valid() && View() == Peers(me, seq(BUCKETS, _ => []), map[], map[], {})
    {
      this.me := me;
      buckets, failures, tombstones, seeds := seq(BUCKETS, _ => []), map[], map[], {};
    }

    /** Both attempts to reach a contact failed. */
    method NoteFailure(id: Key, now: nat)
      requires Valid()
      modifies this
      ensures Valid() && View() == NoteDead(old(View()), id, now)
    {
      if id in seeds {
        return;
      }
      failures := failures[id := (if id in failures then failures[id] else 0) + 1];
      if failures[id] >= EVICT_AFTER {
        failures := failures - {id};
        RemoveKeepsFiled(me, buckets, id);
        buckets := Removed(me, buckets, id);
        tombstones := tombstones[id := now + TOMBSTONE_TTL_MS];
      }
      assert View() == NoteDead(old(View()), id, now) by {
        assert failures == NoteDead(old(View()), id, now).failures;
      }
    }

    method LearnAll(cs: seq<Contact>, now: nat)
      requires Valid()
      modifies this
      ensures Valid() && View() == Learn(old(View()), cs, now)
    {
      for i := 0 to |cs|
        invariant Valid() && View() == Learn(old(View()), cs[..i], now)
      {
        assert cs[..i + 1][..i] == cs[..i];
        var c := cs[i];
        if c.id != me {
          var buried := c.id in tombstones && tombstones[c.id] > now;
          if !buried {
            tombstones := tombstones - {c.id};
            InsertKeepsFiled(me, buckets, c);
            buckets := Inserted(me, buckets, c);
          }
        }
      }
      assert cs[..|cs|] == cs;
    }

    /** Ask the nearest unasked contacts, three at a time, until the twenty nearest known have been asked. */
    method FindNearest(target: Key, net: Network, clock: nat -> nat)
      returns (r: seq<Contact>, ghost known: Known, ghost pool: seq<Contact>, ghost queried: set<Key>,
               ghost asked: Asked, ghost batches: seq<seq<Contact>>)
      requires Valid()
      modifies this
      ensures Valid()
      ensures Lists(pool, known) && Nearest(r, pool, target, K)
      ensures forall c :: c in r ==> c.id in queried
      ensures Explored(known, TopK(All(old(buckets)), target, K), queried, asked, net)
      ensures exists rounds :: Grounded(TopK(All(old(buckets)), target, K), asked, net, rounds)
      ensures Recorded(batches, asked, old(View()), View(), net, clock)
    {
      var start := TopK(All(buckets), target, K);
      var found, visited := Noted(map[], start), {};
      NotedKeys(map[], start);
      forall k | k in found
        ensures found[k] in start
      {
        NotedFrom(map[], start, k);
      }
      asked, batches := {}, [];
      var round := 0;
      while true
        invariant Valid() && Explored(found, start, visited, asked, net) && Grounded(start, asked, net, round)
        invariant |batches| == round && Recorded(batches, asked, old(View()), View(), net, clock)
        decreases AllKeys(WIDTH) - visited
      {
        var values, shortlist, batch := NextBatch(found, visited, target);
        if |batch| == 0 {
          return shortlist, found, values, visited, asked, batches;
        }
        RoundExplores(found, start, visited, asked, net, round, batch);
        RoundGrounded(found, start, visited, asked, net, round, batch);
        AllKeysHas(batch[0].id);
        assert batch[0] in batch && batch[0].id in Ids(batch);
        RecordRound(batches, asked, old(View()), View(), net, clock, batch);
        asked, batches := asked + AskedIn(round, batch), batches + [batch];
        visited := visited + Ids(batch);
        var discovered := Answers(net, round, batch);
        LearnAll(discovered, clock(round));
        found := Noted(found, discovered);
        round := round + 1;
      }
    }
  }
}
