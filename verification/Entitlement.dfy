/** What the grant queue guarantees: exact and conservative accounting, one seeding per window, and that
    spending the oldest grant first wastes nothing another order could have saved. */
module Entitlement {
  import opened Messages
  import opened Subscription
  import opened Words

  /** Grants are queued in the order in which they expire. */
  ghost predicate InOrder(q: seq<Grant>) {
    forall i, j :: 0 <= i < j < |q| ==> q[i].expiresAt <= q[j].expiresAt
  }

  ghost predicate AllLive(q: seq<Grant>, t: nat) {
    forall i :: 0 <= i < |q| ==> q[i].expiresAt > t
  }

  lemma {:induction false} LiveHead(g: Grant, q: seq<Grant>, t: nat)
    ensures Live([g] + q, t) == (if g.expiresAt > t then g.remaining else 0) + Live(q, t)
    ensures Total([g] + q) == g.remaining + Total(q)
  {
    var s := [g] + q;
    if |q| == 0 {
      assert s[..0] == [];
    } else {
      var n := |q| - 1;
      LiveHead(g, q[..n], t);
      assert s[..n + 1] == [g] + q[..n];
    }
  }

  lemma {:induction false} LiveTotal(q: seq<Grant>, t: nat)
    ensures Live(q, t) <= Total(q)
    ensures AllLive(q, t) ==> Live(q, t) == Total(q)
  {
    if |q| > 0 {
      LiveTotal(q[..|q| - 1], t);
    }
  }

  lemma {:induction false} LiveLater(q: seq<Grant>, t: nat, u: nat)
    requires t <= u
    ensures Live(q, u) <= Live(q, t)
  {
    if |q| > 0 {
      LiveLater(q[..|q| - 1], t, u);
    }
  }

  // ---- pricing ----------------------------------------------------------------------------------------

  /** A purchase never grants a byte that was not fully paid for, and it grants every byte that was if and
      only if the floor price fits in 64 bits. */
  lemma PriceIsFloorIff(tokens: nat, bytesPerToken: nat)
    ensures BytesFor(tokens, bytesPerToken) * ONE_TOKEN <= tokens * bytesPerToken
    ensures tokens * bytesPerToken < (BytesFor(tokens, bytesPerToken) + 1) * ONE_TOKEN
            <==> tokens * bytesPerToken / ONE_TOKEN < U64
  {
    FloorCut(tokens * bytesPerToken);
  }

  lemma FloorCut(paid: nat)
    ensures paid / ONE_TOKEN % U64 * ONE_TOKEN <= paid
    ensures paid < (paid / ONE_TOKEN % U64 + 1) * ONE_TOKEN <==> paid / ONE_TOKEN < U64
  {
    var floor := paid / ONE_TOKEN;
    assert floor % U64 <= floor && (floor % U64 == floor <==> floor < U64);
  }

  /** Two tokens at 2^63 bytes each buy nothing: the floor price is 2^64 and is cut to zero. */
  lemma PriceIsCut()
    ensures BytesFor(2 * ONE_TOKEN, U64 / 2) == 0
  {
    assert 2 * ONE_TOKEN * (U64 / 2) == ONE_TOKEN * U64;
  }

  // ---- expiry and spending ----------------------------------------------------------------------------

  /** Expiry drops nothing that is live, and on an ordered queue everything that is not. */
  lemma {:induction false} ExpireCorrect(q: seq<Grant>, epoch: nat, t: nat)
    requires epoch <= t
    ensures Live(Expire(q, epoch), t) == Live(q, t)
    ensures InOrder(q) ==> InOrder(Expire(q, epoch)) && AllLive(Expire(q, epoch), epoch)
    ensures forall g :: g in Expire(q, epoch) ==> g in q
  {
    if |q| > 0 && q[0].expiresAt <= epoch {
      ExpireCorrect(q[1..], epoch, t);
      assert q == [q[0]] + q[1..];
      LiveHead(q[0], q[1..], t);
    }
  }

  /** Spending takes as much as there is. */
  lemma {:induction false} ConsumeTakes(q: seq<Grant>, want: nat)
    ensures Consume(q, want).1 == Min(want, Total(q))
    ensures Total(Consume(q, want).0) == Total(q) - Consume(q, want).1
    decreases |q|
  {
    if |q| > 0 && want > 0 {
      assert q == [q[0]] + q[1..];
      LiveHead(q[0], q[1..], 0);
      var take := Min(q[0].remaining, want);
      if take == q[0].remaining {
        ConsumeTakes(q[1..], want - take);
      } else {
        LiveHead(q[0].(remaining := q[0].remaining - take), q[1..], 0);
      }
    }
  }

  lemma {:induction false} ConsumeShape(q: seq<Grant>, want: nat, bound: nat)
    requires InOrder(q) && forall i :: 0 <= i < |q| ==> q[i].expiresAt <= bound
    ensures InOrder(Consume(q, want).0)
    ensures forall i :: 0 <= i < |Consume(q, want).0| ==> Consume(q, want).0[i].expiresAt <= bound
    decreases |q|
  {
    if |q| > 0 && want > 0 {
      var take := Min(q[0].remaining, want);
      if take == q[0].remaining {
        ConsumeShape(q[1..], want - take, bound);
      }
    }
  }

  lemma ConsumeHead(g: Grant, rest: seq<Grant>, want: nat)
    requires want > 0
    ensures Consume([g] + rest, want).0 ==
            if want < g.remaining then [g.(remaining := g.remaining - want)] + rest
            else Consume(rest, want - g.remaining).0
  {
    assert ([g] + rest)[1..] == rest;
  }

  /** If the head is late the whole queue is; otherwise what is taken from it was not late. */
  lemma HeadKeepsLate(g: Grant, rest: seq<Grant>, want: nat, t: nat, left: nat)
    requires InOrder([g] + rest) && want > 0
    requires want < g.remaining ==> left == Live([g.(remaining := g.remaining - want)] + rest, t)
    requires want >= g.remaining ==> left >= Min(Live(rest, t), SatSub(Total(rest), want - g.remaining))
    ensures left >= Min(Live([g] + rest, t), SatSub(Total([g] + rest), want))
  {
    LiveHead(g, rest, t);
    LiveHead(g.(remaining := g.remaining - Min(want, g.remaining)), rest, t);
    LiveTotal(rest, t);
    forall i | 0 <= i < |rest|
      ensures g.expiresAt <= rest[i].expiresAt
    {
      assert ([g] + rest)[0] == g && ([g] + rest)[i + 1] == rest[i];
    }
  }

  /** Oldest first: late grants are touched only once everything before them is gone. */
  lemma {:induction false} ConsumeKeepsLate(q: seq<Grant>, want: nat, t: nat)
    requires InOrder(q)
    ensures Live(Consume(q, want).0, t) >= Min(Live(q, t), SatSub(Total(q), want))
    decreases |q|
  {
    if |q| > 0 && want > 0 {
      var g, rest := q[0], q[1..];
      assert q == [g] + rest;
      ConsumeHead(g, rest, want);
      if want >= g.remaining {
        ConsumeKeepsLate(rest, want - g.remaining, t);
      }
      HeadKeepsLate(g, rest, want, t, Live(Consume(q, want).0, t));
    }
  }

  lemma LiveAppend(q: seq<Grant>, g: Grant, t: nat)
    ensures Live(q + [g], t) == Live(q, t) + if g.expiresAt > t then g.remaining else 0
    ensures Total(q + [g]) == Total(q) + g.remaining
  {
    assert (q + [g])[..|q|] == q;
  }

  /** Restoring never brings a seeding forward, and the order of a snapshot's rows does not matter. */
  lemma {:induction false} RestoreIsLatest(a: Account, rows: seq<(Id, nat)>, c: Id)
    ensures var r := Restore(a, rows, c);
            && r.grants == a.grants && r.nextSeeding >= a.nextSeeding
            && (forall i :: 0 <= i < |rows| && rows[i].0 == c ==> r.nextSeeding >= rows[i].1)
            && (r.nextSeeding == a.nextSeeding || (c, r.nextSeeding) in rows)
  {
    if |rows| > 0 {
      RestoreIsLatest(a, rows[..|rows| - 1], c);
    }
  }

  // ---- exact accounting --------------------------------------------------------------------------------

  /** What a seeding at this epoch would add. */
  function SeedBytes(a: Account, tier: nat, epoch: nat): nat {
    if epoch >= a.nextSeeding then tier else 0
  }

  /** On an ordered queue a demand is served exactly up to the live entitlement. */
  lemma SpendExact(a: Account, tier: nat, window: nat, bytes: nat, epoch: nat)
    requires InOrder(a.grants) && epoch + 1 < U64
    ensures Spend(a, tier, window, bytes, epoch).1 == Min(bytes, Live(a.grants, epoch) + SeedBytes(a, tier, epoch))
  {
    var q := Expire(a.grants, epoch);
    ExpireCorrect(a.grants, epoch, epoch);
    LiveTotal(q, epoch);
    if tier > 0 && epoch >= a.nextSeeding {
      LiveAppend(q, Grant(SatAdd(epoch, Window(window)), tier), epoch);
    }
    ConsumeTakes(Seed(a.(grants := q), tier, window, epoch).grants, bytes);
  }

  /** Without the order, the served amount still is what is left after dropping the expired front. */
  lemma SpendAny(a: Account, tier: nat, window: nat, bytes: nat, epoch: nat)
    ensures Spend(a, tier, window, bytes, epoch).1
            == Min(bytes, Total(Expire(a.grants, epoch)) + SeedBytes(a, tier, epoch))
  {
    var q := Expire(a.grants, epoch);
    if tier > 0 && epoch >= a.nextSeeding {
      LiveAppend(q, Grant(SatAdd(epoch, Window(window)), tier), epoch);
    }
    ConsumeTakes(Seed(a.(grants := q), tier, window, epoch).grants, bytes);
  }

  /** No grant with bytes left has expired behind a live one. */
  ghost predicate NoneStranded(q: seq<Grant>, epoch: nat) {
    forall i, j :: 0 <= i < j < |q| && q[i].expiresAt > epoch && q[j].expiresAt <= epoch ==> q[j].remaining == 0
  }

  lemma {:induction false} NothingDeadIff(q: seq<Grant>, t: nat)
    ensures Total(q) == Live(q, t) <==> forall j :: 0 <= j < |q| && q[j].expiresAt <= t ==> q[j].remaining == 0
  {
    if |q| > 0 {
      NothingDeadIff(q[..|q| - 1], t);
      LiveTotal(q[..|q| - 1], t);
    }
  }

  lemma {:induction false} NoneStrandedIff(q: seq<Grant>, epoch: nat)
    ensures NoneStranded(q, epoch) <==> Total(Expire(q, epoch)) == Live(Expire(q, epoch), epoch)
  {
    if |q| > 0 && q[0].expiresAt <= epoch {
      NoneStrandedIff(q[1..], epoch);
      StrandedTail(q, epoch);
    } else {
      NothingDeadIff(q, epoch);
      if |q| > 0 && NoneStranded(q, epoch) {
        assert forall j :: 0 < j < |q| && q[j].expiresAt <= epoch ==> q[j].remaining == 0;
      }
    }
  }

  lemma StrandedTail(q: seq<Grant>, epoch: nat)
    requires |q| > 0 && q[0].expiresAt <= epoch
    ensures NoneStranded(q, epoch) <==> NoneStranded(q[1..], epoch)
  {
    if NoneStranded(q[1..], epoch) {
      forall i, j | 0 <= i < j < |q| && q[i].expiresAt > epoch && q[j].expiresAt <= epoch
        ensures q[j].remaining == 0
      {
        assert q[1..][i - 1] == q[i] && q[1..][j - 1] == q[j];
      }
    }
  }

  /** Demands are served exactly up to the live entitlement, whatever is asked, if and only if no grant with
      bytes left has expired behind a live one. */
  lemma ExactIff(a: Account, tier: nat, window: nat, epoch: nat)
    ensures (forall bytes: nat :: Spend(a, tier, window, bytes, epoch).1
                                  == Min(bytes, Live(a.grants, epoch) + SeedBytes(a, tier, epoch)))
            <==> NoneStranded(a.grants, epoch)
  {
    NoneStrandedIff(a.grants, epoch);
    var left := Total(Expire(a.grants, epoch)) + SeedBytes(a, tier, epoch);
    ExpireCorrect(a.grants, epoch, epoch);
    LiveTotal(Expire(a.grants, epoch), epoch);
    SpendAny(a, tier, window, left, epoch);
    forall bytes: nat
      ensures Spend(a, tier, window, bytes, epoch).1 == Min(bytes, left)
    {
      SpendAny(a, tier, window, bytes, epoch);
    }
  }

  /** A window that governance shortens breaks the order: here an expired grant is spent. */
  lemma ShorterWindowSpendsExpired()
    ensures var a := Buy(Buy(Account([], 0), 100, 0, 10), 100, 1, 2);
            Live(a.grants, 5) == 100 && Spend(a, 0, 2, 200, 5).1 == 200
  {
    var a := Buy(Buy(Account([], 0), 100, 0, 10), 100, 1, 2);
    assert a.grants == [Grant(10, 100), Grant(3, 100)];
    assert a.grants[..1] == [Grant(10, 100)] && a.grants[..1][..0] == [];
    SpendAny(a, 0, 2, 200, 5);
    assert Live(a.grants[..1], 5) == 100 && Total(a.grants[..1]) == 100;
  }

  // ---- whole runs, against any rival -------------------------------------------------------------------

  /** Purchases and demands of one consumer at the epochs they happen, and restores of the seeding record.
      With each demand comes what a rival spends on it, grant by grant. */
  datatype Event =
    | Purchased(bytes: nat, epoch: nat)
    | Demanded(bytes: nat, epoch: nat, rival: seq<nat>)
    | Restored(next: nat)

  /** The account and its totals; and the rival, who holds the same grants and spends them in any legal way. */
  datatype Books = Books(a: Account, served: nat, granted: nat, lost: nat, seedings: nat,
                         pool: seq<Grant>, rivalServed: nat, now: nat)

  function Sum(s: seq<nat>): nat {
    if |s| == 0 then 0 else Sum(s[..|s| - 1]) + s[|s| - 1]
  }

  /** The rival's grants at a demand: the same arrivals, seeding included. */
  function PoolAt(s: Books, tier: nat, window: nat, epoch: nat): seq<Grant> {
    if tier > 0 && epoch >= s.a.nextSeeding then s.pool + [Grant(SatAdd(epoch, window), tier)] else s.pool
  }

  /** Any split of the demand over live grants that hold enough. */
  predicate LegalTake(pool: seq<Grant>, rival: seq<nat>, bytes: nat, epoch: nat) {
    && |rival| == |pool| && Sum(rival) <= bytes
    && forall i :: 0 <= i < |pool| ==> rival[i] <= pool[i].remaining && (rival[i] > 0 ==> pool[i].expiresAt > epoch)
  }

  function TakeFrom(pool: seq<Grant>, rival: seq<nat>): (r: seq<Grant>)
    requires |rival| == |pool| && forall i :: 0 <= i < |pool| ==> rival[i] <= pool[i].remaining
  {
    seq(|pool|, i requires 0 <= i < |pool| => pool[i].(remaining := pool[i].remaining - rival[i]))
  }

  predicate Legal(s: Books, e: Event, tier: nat, window: nat) {
    match e
    case Purchased(bytes, epoch) => epoch >= s.now && epoch + window < U64
    case Demanded(bytes, epoch, rival) =>
      epoch >= s.now && epoch + window < U64 && LegalTake(PoolAt(s, tier, window, epoch), rival, bytes, epoch)
    case Restored(_) => true
  }

  function Step(s: Books, e: Event, tier: nat, window: nat): Books
    requires Legal(s, e, tier, window)
  {
    match e
    case Purchased(bytes, epoch) =>
      s.(a := Buy(s.a, bytes, epoch, window), granted := s.granted + bytes,
         pool := if bytes == 0 then s.pool else s.pool + [Grant(SatAdd(epoch, window), bytes)], now := epoch)
    case Demanded(bytes, epoch, rival) =>
      var (a, used) := Spend(s.a, tier, window, bytes, epoch);
      var seeded := tier > 0 && epoch >= s.a.nextSeeding;
      ExpireTotal(s.a.grants, epoch);
      Books(a, s.served + used, s.granted + (if seeded then tier else 0),
            s.lost + (Total(s.a.grants) - Total(Expire(s.a.grants, epoch))), s.seedings + (if seeded then 1 else 0),
            TakeFrom(PoolAt(s, tier, window, epoch), rival), s.rivalServed + Sum(rival), epoch)
    case Restored(next) => s.(a := s.a.(nextSeeding := Max(s.a.nextSeeding, next)))
  }

  lemma {:induction false} ExpireTotal(q: seq<Grant>, epoch: nat)
    ensures Total(Expire(q, epoch)) <= Total(q)
  {
    if |q| > 0 && q[0].expiresAt <= epoch {
      ExpireTotal(q[1..], epoch);
      assert q == [q[0]] + q[1..];
      LiveHead(q[0], q[1..], 0);
    }
  }

  function Start(): Books {
    Books(Account([], 0), 0, 0, 0, 0, [], 0, 0)
  }

  ghost predicate LegalRun(events: seq<Event>, tier: nat, window: nat)
    decreases |events|, 0
  {
    |events| > 0 ==>
      && LegalRun(events[..|events| - 1], tier, window)
      && Legal(Run(events[..|events| - 1], tier, window), events[|events| - 1], tier, window)
  }

  ghost function Run(events: seq<Event>, tier: nat, window: nat): Books
    requires LegalRun(events, tier, window)
    decreases |events|, 1
  {
    if |events| == 0 then Start()
    else Step(Run(events[..|events| - 1], tier, window), events[|events| - 1], tier, window)
  }

  // ---- the invariant ------------------------------------------------------------------------------------

  /** Queue order: everything expires by the end of a window that starts now. */
  ghost predicate Queued(q: seq<Grant>, end: nat) {
    InOrder(q) && forall i :: 0 <= i < |q| ==> q[i].expiresAt <= end
  }

  /** Served plus what stays live after t never falls behind the rival's, for any later t. */
  ghost predicate Ahead(s: Books) {
    s.served >= s.rivalServed
    && forall t :: t >= s.now ==> s.served + Live(s.a.grants, t) >= s.rivalServed + Live(s.pool, t)
  }

  ghost predicate Balanced(s: Books) {
    s.granted == s.served + Total(s.a.grants) + s.lost
  }

  /** One seeding per window. */
  ghost predicate Seeded(s: Books, window: nat) {
    s.seedings * window <= s.a.nextSeeding && (s.seedings > 0 ==> (s.seedings - 1) * window <= s.now)
  }

  lemma {:induction false} TakeLive(pool: seq<Grant>, rival: seq<nat>, epoch: nat, t: nat)
    requires |rival| == |pool| && epoch <= t
    requires forall i :: 0 <= i < |pool| ==> rival[i] <= pool[i].remaining && (rival[i] > 0 ==> pool[i].expiresAt > epoch)
    ensures Live(TakeFrom(pool, rival), t) <= Live(pool, t)
    ensures Live(TakeFrom(pool, rival), epoch) + Sum(rival) == Live(pool, epoch)
  {
    if |pool| > 0 {
      var n := |pool| - 1;
      TakeLive(pool[..n], rival[..n], epoch, t);
      assert TakeFrom(pool, rival)[..n] == TakeFrom(pool[..n], rival[..n]);
    }
  }

  /** The exchange step: a = spent by the queue, b = spent by the rival, with what each had live now and at t. */
  lemma SpendStaysAhead(served: nat, rivalServed: nat, q: seq<Grant>, pool: seq<Grant>,
                        want: nat, rival: seq<nat>,
                        epoch: nat, t: nat)
    requires served >= rivalServed && epoch <= t && InOrder(q) && AllLive(q, epoch)
    requires LegalTake(pool, rival, want, epoch)
    requires served + Live(q, epoch) >= rivalServed + Live(pool, epoch)
    requires served + Live(q, t) >= rivalServed + Live(pool, t)
    ensures served + Consume(q, want).1 >= rivalServed + Sum(rival)
    ensures served + Consume(q, want).1 + Live(Consume(q, want).0, t)
            >= rivalServed + Sum(rival) + Live(TakeFrom(pool, rival), t)
  {
    LiveTotal(q, epoch);
    ConsumeTakes(q, want);
    ConsumeKeepsLate(q, want, t);
    TakeLive(pool, rival, epoch, t);
    LiveLater(TakeFrom(pool, rival), epoch, t);
  }

  lemma QueuedAppend(q: seq<Grant>, end: nat, later: nat, bytes: nat)
    requires Queued(q, end) && end <= later
    ensures Queued(q + [Grant(later, bytes)], later)
  {
  }

  lemma BuyStaysAhead(s: Books, e: Event, tier: nat, window: nat)
    requires e.Purchased? && Legal(s, e, tier, window) && Queued(s.a.grants, s.now + window) && Ahead(s)
    ensures Queued(Step(s, e, tier, window).a.grants, e.epoch + window) && Ahead(Step(s, e, tier, window))
  {
    var g := Grant(SatAdd(e.epoch, window), e.bytes);
    QueuedAppend(s.a.grants, s.now + window, e.epoch + window, e.bytes);
    forall t | t >= e.epoch
      ensures Live(s.a.grants + [g], t) - Live(s.a.grants, t) == Live(s.pool + [g], t) - Live(s.pool, t)
    {
      LiveAppend(s.a.grants, g, t);
      LiveAppend(s.pool, g, t);
    }
  }

  /** The queue a demand spends from: expired grants dropped, the seeding grant added. */
  function QueueAt(s: Books, tier: nat, window: nat, epoch: nat): seq<Grant> {
    Seed(s.a.(grants := Expire(s.a.grants, epoch)), tier, window, epoch).grants
  }

  lemma {:induction false} ExpireQueued(q: seq<Grant>, epoch: nat, end: nat)
    requires Queued(q, end)
    ensures Queued(Expire(q, epoch), end) && AllLive(Expire(q, epoch), epoch)
  {
    ExpireCorrect(q, epoch, epoch);
    var rest := Expire(q, epoch);
    forall i | 0 <= i < |rest|
      ensures rest[i].expiresAt <= end
    {
      assert rest[i] in q;
    }
  }

  lemma QueueAtShape(s: Books, tier: nat, window: nat, epoch: nat)
    requires window > 0 && s.now <= epoch && epoch + window < U64 && Queued(s.a.grants, s.now + window)
    ensures Queued(QueueAt(s, tier, window, epoch), epoch + window) && AllLive(QueueAt(s, tier, window, epoch), epoch)
  {
    var q := Expire(s.a.grants, epoch);
    ExpireQueued(s.a.grants, epoch, s.now + window);
    QueuedAppend(q, s.now + window, epoch + window, tier);
  }

  lemma QueueAtAhead(s: Books, tier: nat, window: nat, epoch: nat, t: nat)
    requires window > 0 && s.now <= epoch <= t && epoch + window < U64 && Ahead(s)
    ensures s.served + Live(QueueAt(s, tier, window, epoch), t) >= s.rivalServed + Live(PoolAt(s, tier, window, epoch), t)
  {
    var g := Grant(SatAdd(epoch, window), tier);
    ExpireCorrect(s.a.grants, epoch, t);
    LiveAppend(Expire(s.a.grants, epoch), g, t);
    LiveAppend(s.pool, g, t);
  }

  lemma DemandStaysAhead(s: Books, e: Event, tier: nat, window: nat)
    requires e.Demanded? && window > 0 && Legal(s, e, tier, window)
    requires Queued(s.a.grants, s.now + window) && Ahead(s)
    ensures Queued(Step(s, e, tier, window).a.grants, e.epoch + window) && Ahead(Step(s, e, tier, window))
  {
    var q, pool := QueueAt(s, tier, window, e.epoch), PoolAt(s, tier, window, e.epoch);
    QueueAtShape(s, tier, window, e.epoch);
    QueueAtAhead(s, tier, window, e.epoch, e.epoch);
    ConsumeShape(q, e.bytes, e.epoch + window);
    SpendStaysAhead(s.served, s.rivalServed, q, pool, e.bytes, e.rival, e.epoch, e.epoch);
    forall t | t >= e.epoch
      ensures s.served + Consume(q, e.bytes).1 + Live(Consume(q, e.bytes).0, t)
              >= s.rivalServed + Sum(e.rival) + Live(TakeFrom(pool, e.rival), t)
    {
      QueueAtAhead(s, tier, window, e.epoch, t);
      SpendStaysAhead(s.served, s.rivalServed, q, pool, e.bytes, e.rival, e.epoch, t);
    }
  }

  lemma StepBalanced(s: Books, e: Event, tier: nat, window: nat)
    requires window > 0 && Legal(s, e, tier, window) && Balanced(s)
    ensures Balanced(Step(s, e, tier, window))
  {
    match e
    case Purchased(bytes, epoch) => LiveAppend(s.a.grants, Grant(SatAdd(epoch, window), bytes), 0);
    case Demanded(bytes, epoch, _) =>
      ExpireTotal(s.a.grants, epoch);
      LiveAppend(Expire(s.a.grants, epoch), Grant(SatAdd(epoch, window), tier), 0);
      ConsumeTakes(QueueAt(s, tier, window, epoch), bytes);
    case Restored(_) =>
  }

  lemma StepSeeded(s: Books, e: Event, tier: nat, window: nat)
    requires window > 0 && Legal(s, e, tier, window) && Seeded(s, window)
    ensures Seeded(Step(s, e, tier, window), window)
  {
    OneMoreWindow(s.seedings, window);
  }

  lemma OneMoreWindow(n: nat, window: nat)
    ensures (n + 1) * window == n * window + window
  {
  }

  /** Whatever the interleaving: the books balance, seedings keep to one a window, and oldest-first has at
      every point served at least as much as any other legal way of spending the same grants. */
  lemma {:induction false} OldestFirstIsOptimal(events: seq<Event>, tier: nat, window: nat)
    requires window > 0 && LegalRun(events, tier, window)
    ensures var s := Run(events, tier, window);
            && s.served >= s.rivalServed
            && Ahead(s) && Queued(s.a.grants, s.now + window) && Balanced(s) && Seeded(s, window)
  {
    if |events| == 0 {
      assert forall t :: Live([], t) == 0;
    } else {
      var n := |events| - 1;
      var s, e := Run(events[..n], tier, window), events[n];
      OldestFirstIsOptimal(events[..n], tier, window);
      StepBalanced(s, e, tier, window);
      StepSeeded(s, e, tier, window);
      match e
      case Purchased(_, _) => BuyStaysAhead(s, e, tier, window);
      case Demanded(_, _, _) => DemandStaysAhead(s, e, tier, window);
      case Restored(_) =>
    }
  }

  /** By epoch E an account has been seeded at most floor(E / W) + 1 times, and never served more than was
      bought and seeded. */
  lemma LifetimeBounds(events: seq<Event>, tier: nat, window: nat)
    requires window > 0 && LegalRun(events, tier, window)
    ensures Run(events, tier, window).seedings <= Run(events, tier, window).now / window + 1
    ensures Run(events, tier, window).served <= Run(events, tier, window).granted
  {
    OldestFirstIsOptimal(events, tier, window);
    WindowsElapsed(Run(events, tier, window).seedings, Run(events, tier, window).now, window);
  }

  // ---- the seeding renews ---------------------------------------------------------------------------------

  /** A demand that finds its allowance due: no demand that found it so lies less than a window back, and no
      restored record puts the next one off. */
  ghost predicate Due(events: seq<Event>, i: nat, window: nat)
    requires i < |events|
    decreases i
  {
    && events[i].Demanded?
    && forall j: nat :: j < i ==>
         && (events[j].Demanded? && Due(events, j, window) ==> events[j].epoch + window <= events[i].epoch)
         && (events[j].Restored? ==> events[j].next <= events[i].epoch)
  }

  /** Every epoch up to which the next seeding is put off. */
  ghost predicate PutOff(events: seq<Event>, window: nat, epoch: nat) {
    exists j: nat :: j < |events|
                     && ((events[j].Demanded? && Due(events, j, window) && epoch < events[j].epoch + window)
                         || (events[j].Restored? && epoch < events[j].next))
  }

  lemma {:induction false} DueAgain(events: seq<Event>, more: seq<Event>, i: nat, window: nat)
    requires i < |events| <= |more| && more[..|events|] == events
    ensures Due(events, i, window) <==> Due(more, i, window)
    decreases i
  {
    assert forall j: nat :: j <= i ==> events[j] == more[..|events|][j] == more[j];
    forall j: nat | j < i
      ensures Due(events, j, window) <==> Due(more, j, window)
    {
      DueAgain(events, more, j, window);
    }
  }

  lemma PutOffStep(events: seq<Event>, window: nat, epoch: nat)
    requires |events| > 0
    ensures var n := |events| - 1;
            PutOff(events, window, epoch) <==>
              || PutOff(events[..n], window, epoch)
              || (events[n].Demanded? && Due(events, n, window) && epoch < events[n].epoch + window)
              || (events[n].Restored? && epoch < events[n].next)
  {
    var n := |events| - 1;
    forall j: nat | j < n
      ensures Due(events[..n], j, window) <==> Due(events, j, window)
    {
      DueAgain(events[..n], events, j, window);
    }
    assert forall j: nat :: j < n ==> events[..n][j] == events[j];
  }

  lemma DueIffNotPutOff(events: seq<Event>, i: nat, window: nat)
    requires i < |events| && events[i].Demanded?
    ensures Due(events, i, window) <==> !PutOff(events[..i], window, events[i].epoch)
  {
    forall j: nat | j < i
      ensures Due(events[..i], j, window) <==> Due(events, j, window)
    {
      DueAgain(events[..i], events, j, window);
    }
    assert forall j: nat :: j < i ==> events[..i][j] == events[j];
  }

  /** The stored epoch is exactly the end of what puts the next seeding off. */
  lemma {:induction false} NextSeedingIs(events: seq<Event>, tier: nat, window: nat, epoch: nat)
    requires window > 0 && tier > 0 && LegalRun(events, tier, window)
    ensures epoch < Run(events, tier, window).a.nextSeeding <==> PutOff(events, window, epoch)
  {
    if |events| > 0 {
      var n := |events| - 1;
      NextSeedingIs(events[..n], tier, window, epoch);
      PutOffStep(events, window, epoch);
      if events[n].Demanded? {
        NextSeedingIs(events[..n], tier, window, events[n].epoch);
        DueIffNotPutOff(events, n, window);
      }
    }
  }

  /** What one demand adds to the books. */
  ghost predicate Serves(s: Books, t: Books, e: Event, due: bool, tier: nat)
    requires e.Demanded?
  {
    && t.served - s.served == Min(e.bytes, Live(s.a.grants, e.epoch) + if due then tier else 0)
    && t.seedings == s.seedings + if due then 1 else 0
  }

  lemma DemandServes(s: Books, e: Event, tier: nat, window: nat)
    requires window > 0 && tier > 0 && e.Demanded? && Legal(s, e, tier, window) && InOrder(s.a.grants)
    ensures Serves(s, Step(s, e, tier, window), e, e.epoch >= s.a.nextSeeding, tier)
  {
    SpendExact(s.a, tier, window, e.bytes, e.epoch);
  }

  lemma OrderedAlways(events: seq<Event>, tier: nat, window: nat)
    requires window > 0 && LegalRun(events, tier, window)
    ensures InOrder(Run(events, tier, window).a.grants)
  {
    OldestFirstIsOptimal(events, tier, window);
  }

  /** The allowance renews once per window, whether or not it was spent: a demand is served from what is live and,
      exactly if it is due, one allowance more. */
  lemma SeedingRenews(events: seq<Event>, tier: nat, window: nat)
    requires window > 0 && tier > 0 && LegalRun(events, tier, window)
    requires |events| > 0 && events[|events| - 1].Demanded?
    ensures var n := |events| - 1;
            Serves(Run(events[..n], tier, window), Run(events, tier, window), events[n], Due(events, n, window), tier)
  {
    var n := |events| - 1;
    OrderedAlways(events[..n], tier, window);
    DemandServes(Run(events[..n], tier, window), events[n], tier, window);
    DueIffReached(events, tier, window);
  }

  lemma DueIffReached(events: seq<Event>, tier: nat, window: nat)
    requires window > 0 && tier > 0 && LegalRun(events, tier, window)
    requires |events| > 0 && events[|events| - 1].Demanded?
    ensures var n := |events| - 1;
            Due(events, n, window) <==> events[n].epoch >= Run(events[..n], tier, window).a.nextSeeding
  {
    var n := |events| - 1;
    NextSeedingIs(events[..n], tier, window, events[n].epoch);
    DueIffNotPutOff(events, n, window);
  }

  /** A seeding window of zero counts as one. */
  lemma ZeroWindowIsOne(a: Account, tier: nat, bytes: nat, epoch: nat)
    ensures Spend(a, tier, 0, bytes, epoch) == Spend(a, tier, 1, bytes, epoch)
  {
  }

  lemma WindowsElapsed(n: nat, now: nat, window: nat)
    requires window > 0 && (n > 0 ==> (n - 1) * window <= now)
    ensures n <= now / window + 1
  {
    var q := now / window;
    Quotient(now, window);
    if n > q + 1 {
      MulMonotone(q + 1, n - 1, window);
    }
  }

  lemma Quotient(now: nat, window: nat)
    requires window > 0
    ensures now < (now / window + 1) * window
  {
    OneMoreWindow(now / window, window);
  }

  lemma MulMonotone(a: nat, b: nat, window: nat)
    requires a <= b
    ensures a * window <= b * window
  {
  }
}
