/** Windowed egress entitlements: a queue of expiring grants per consumer, spent oldest first, with one
    seeding allowance per window. */
module Subscription {
  import opened Messages
  import opened Words

  const ONE_TOKEN: nat := 100_000_000
  const SEEDING_PAID_TIER_BYTES: nat := 0x100_0000_0000

  /** `remaining` bytes, unusable from epoch `expiresAt` on. */
  datatype Grant = Grant(expiresAt: nat, remaining: nat)

  /** Bytes bought: floor-divided by the base units of a token, then cut to 64 bits. */
  function BytesFor(tokens: nat, bytesPerToken: nat): nat {
    tokens * bytesPerToken / ONE_TOKEN % U64
  }

  // ---- one consumer's queue --------------------------------------------------------------------------

  function Expire(q: seq<Grant>, epoch: nat): seq<Grant> {
    if |q| > 0 && q[0].expiresAt <= epoch then Expire(q[1..], epoch) else q
  }

  /** Spend up to `want` from the front; the rest of the queue, and how much was spent. */
  function Consume(q: seq<Grant>, want: nat): (seq<Grant>, nat)
    decreases |q|
  {
    if |q| == 0 || want == 0 then (q, 0)
    else
      var take := Min(q[0].remaining, want);
      if take == q[0].remaining then
        var (rest, used) := Consume(q[1..], want - take);
        (rest, take + used)
      else ([q[0].(remaining := q[0].remaining - take)] + q[1..], take)
  }

  /** Bytes in grants that are still live after epoch t. */
  function Live(q: seq<Grant>, t: nat): nat {
    if |q| == 0 then 0
    else Live(q[..|q| - 1], t) + if q[|q| - 1].expiresAt > t then q[|q| - 1].remaining else 0
  }

  function Total(q: seq<Grant>): nat {
    if |q| == 0 then 0 else Total(q[..|q| - 1]) + q[|q| - 1].remaining
  }

  /** One account: its grants, and the first epoch at which it may be seeded again. */
  datatype Account = Account(grants: seq<Grant>, nextSeeding: nat)

  function Window(window: nat): nat {
    if window == 0 then 1 else window
  }

  function Seed(a: Account, tier: nat, window: nat, epoch: nat): Account {
    if tier > 0 && epoch >= a.nextSeeding then
      var end := SatAdd(epoch, Window(window));
      Account(a.grants + [Grant(end, tier)], end)
    else a
  }

  function Buy(a: Account, bytes: nat, epoch: nat, window: nat): Account {
    if bytes == 0 then a else a.(grants := a.grants + [Grant(SatAdd(epoch, window), bytes)])
  }

  function Spend(a: Account, tier: nat, window: nat, bytes: nat, epoch: nat): (Account, nat) {
    var seeded := Seed(a.(grants := Expire(a.grants, epoch)), tier, window, epoch);
    var (rest, used) := Consume(seeded.grants, bytes);
    (seeded.(grants := rest), used)
  }

  /** An account's next seeding after reading a snapshot's rows. */
  function Restore(a: Account, rows: seq<(Id, nat)>, c: Id): Account {
    if |rows| == 0 then a
    else
      var before := Restore(a, rows[..|rows| - 1], c);
      var (account, next) := rows[|rows| - 1];
      if account == c then before.(nextSeeding := Max(before.nextSeeding, next)) else before
  }

  // ---- the ledger -------------------------------------------------------------------------------------

  class SubscriptionLedger {
    var grants: map<Id, seq<Grant>>
    var seedingPaidTier: nat
    var seedingWindow: nat
    var seedingNext: map<Id, nat>

    ghost function View(c: Id): Account
      reads this
    {
      Account(if c in grants then grants[c] else [], if c in seedingNext then seedingNext[c] else 0)
    }

    constructor ()
      ensures seedingPaidTier == SEEDING_PAID_TIER_BYTES && seedingWindow == 0
      ensures forall c :: View(c) == Account([], 0)
    {
      grants, seedingNext := map[], map[];
      seedingPaidTier := SEEDING_PAID_TIER_BYTES;
      seedingWindow := 0;
    }

    method Purchase(consumer: Id, tokens: nat, bytesPerToken: nat, epoch: nat, window: nat)
      modifies this`grants
      ensures View(consumer) == Buy(old(View(consumer)), BytesFor(tokens, bytesPerToken), epoch, window)
      ensures View(consumer).nextSeeding == old(View(consumer)).nextSeeding
      ensures BytesFor(tokens, bytesPerToken) == 0 ==> View(consumer) == old(View(consumer))
      ensures BytesFor(tokens, bytesPerToken) > 0 ==>
                View(consumer).grants
                == old(View(consumer)).grants + [Grant(Min(epoch + window, U64 - 1), BytesFor(tokens, bytesPerToken))]
      ensures forall c :: c != consumer ==> View(c) == old(View(c))
    {
      var bytes := BytesFor(tokens, bytesPerToken);
      if bytes == 0 {
        return;
      }
      var q := if consumer in grants then grants[consumer] else [];
      grants := grants[consumer := q + [Grant(SatAdd(epoch, window), bytes)]];
    }

    /** Restore next-seeding epochs from a snapshot; per account the later one wins. */
    method RestoreSeedingEligibility(rows: seq<(Id, nat)>)
      modifies this`seedingNext
      ensures forall c :: View(c) == Restore(old(View(c)), rows, c)
    {
      for i := 0 to |rows|
        invariant grants == old(grants)
        invariant forall c :: View(c) == Restore(old(View(c)), rows[..i], c)
      {
        assert rows[..i + 1][..i] == rows[..i];
        var (account, next) := rows[i];
        var held := if account in seedingNext then seedingNext[account] else 0;
        seedingNext := seedingNext[account := Max(held, next)];
      }
      assert rows[..|rows|] == rows;
    }

    /** Drop expired grants from the front. */
    method ExpireFor(consumer: Id, epoch: nat)
      modifies this`grants
      ensures View(consumer) == old(View(consumer)).(grants := Expire(old(View(consumer)).grants, epoch))
      ensures forall c :: c != consumer ==> View(c) == old(View(c))
    {
      if consumer in grants {
        var q := grants[consumer];
        while |q| > 0 && q[0].expiresAt <= epoch
          invariant Expire(q, epoch) == Expire(grants[consumer], epoch)
          decreases |q|
        {
          q := q[1..];
        }
        grants := if q == [] then grants - {consumer} else grants[consumer := q];
      }
    }

    /** Consume up to `bytes` of live entitlement, oldest grant first. */
    method Allocate(consumer: Id, bytes: nat, epoch: nat) returns (used: nat)
      modifies this`grants, this`seedingNext
      ensures (View(consumer), used) == Spend(old(View(consumer)), seedingPaidTier, seedingWindow, bytes, epoch)
      ensures var next := old(View(consumer)).nextSeeding;
              View(consumer).nextSeeding
              == if seedingPaidTier == 0 || epoch < next then next
                 else Min(epoch + (if seedingWindow == 0 then 1 else seedingWindow), U64 - 1)
      ensures forall c :: c != consumer ==> View(c) == old(View(c))
    {
      ExpireFor(consumer, epoch);
      var next := if consumer in seedingNext then seedingNext[consumer] else 0;
      var q := if consumer in grants then grants[consumer] else [];
      if seedingPaidTier > 0 && epoch >= next {
        var window := if seedingWindow == 0 then 1 else seedingWindow;
        q := q + [Grant(SatAdd(epoch, window), seedingPaidTier)];
        seedingNext := seedingNext[consumer := SatAdd(epoch, window)];
      }
      ghost var start := q;
      var want := bytes;
      used := 0;
      while want > 0 && |q| > 0
        invariant used + want == bytes
        invariant Consume(start, bytes).0 == Consume(q, want).0
        invariant Consume(start, bytes).1 == used + Consume(q, want).1
        decreases want, |q|
      {
        var take := Min(q[0].remaining, want);
        var left := q[0].remaining - take;
        used, want := used + take, want - take;
        if left == 0 {
          q := q[1..];
        } else {
          q := [q[0].(remaining := left)] + q[1..];
        }
      }
      grants := if q == [] then grants - {consumer} else grants[consumer := q];
    }
  }
}
