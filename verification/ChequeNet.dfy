/** Consumers and providers that may restart, over a channel that loses, reorders and duplicates cheques. */
module ChequeNet {
  import opened Messages
  import opened Options
  import opened Cheques
  import opened Sums
  import opened Words

  /** Every node's consumer side and book, and every cheque ever signed. */
  datatype World = World(consumers: map<Id, Consumer>, signed: set<ServingCheque>, books: map<Id, Book>)

  /** A delivery may present any cheque at all: an old one, one seen before, or one never pushed. A restarted
      node has lost its totals and its book; the book it rebuilds is whatever is then delivered to it. */
  datatype Event =
    | Fetch(consumer: Id, provider: Id, bytes: nat, timestamp: nat)
    | SetPaid(consumer: Id, paid: nat)
    | Deliver(provider: Id, cheque: ServingCheque)
    | Restart(node: Id)

  function ConsumerOf(s: World, c: Id): Consumer {
    if c in s.consumers then s.consumers[c] else Consumer(map[], map[], 0, 0, 0)
  }

  function BookOf(s: World, p: Id): Book {
    if p in s.books then s.books[p] else map[]
  }

  function Issued(s: World, c: Id, p: Id): nat {
    Get(ConsumerOf(s, c).issued, p)
  }

  function Pending(s: World, c: Id, p: Id): nat {
    Get(ConsumerOf(s, c).pending, p)
  }

  /** Bytes that really moved from one provider to one consumer. */
  function Fetched(events: seq<Event>, c: Id, p: Id): nat {
    if |events| == 0 then 0
    else
      var last := events[|events| - 1];
      Fetched(events[..|events| - 1], c, p)
      + if last.Fetch? && last.consumer == c && last.provider == p then last.bytes else 0
  }

  /** The same since the consumer last restarted. */
  function FetchedSince(events: seq<Event>, c: Id, p: Id): nat {
    if |events| == 0 then 0
    else
      var last := events[|events| - 1];
      if last == Restart(c) then 0
      else
        FetchedSince(events[..|events| - 1], c, p)
        + if last.Fetch? && last.consumer == c && last.provider == p then last.bytes else 0
  }

  /** Every total stays in 64 bits, and signatures cannot be forged. */
  predicate Legal(s: World, e: Event) {
    match e
    case Fetch(c, p, bytes, _) => Issued(s, c, p) + Pending(s, c, p) + bytes < U64
    case SetPaid(_, _) => true
    case Deliver(_, cheque) => cheque.Verify() ==> cheque in s.signed
    case Restart(_) => true
  }

  function Step(s: World, e: Event): World {
    match e
    case Fetch(c, p, bytes, timestamp) =>
      var (next, total) := Receive(ConsumerOf(s, c), p, bytes);
      World(s.consumers[c := next],
            s.signed + (match total case None => {} case Some(t) => {Sign(c, p, t, timestamp)}),
            s.books)
    case SetPaid(c, paid) => s.(consumers := s.consumers[c := ConsumerOf(s, c).(myPaid := paid)])
    case Deliver(p, cheque) => s.(books := s.books[p := Record(p, BookOf(s, p), cheque)])
    case Restart(n) => s.(consumers := s.consumers - {n}, books := s.books - {n})
  }

  predicate LegalRun(events: seq<Event>)
    decreases |events|, 0
  {
    |events| > 0 ==> LegalRun(events[..|events| - 1]) && Legal(Run(events[..|events| - 1]), events[|events| - 1])
  }

  function Run(events: seq<Event>): World
    requires LegalRun(events)
    decreases |events|, 1
  {
    if |events| == 0 then World(map[], {}, map[]) else Step(Run(events[..|events| - 1]), events[|events| - 1])
  }

  lemma Extend(events: seq<Event>, e: Event)
    requires LegalRun(events) && Legal(Run(events), e)
    ensures LegalRun(events + [e]) && Run(events + [e]) == Step(Run(events), e)
  {
    assert (events + [e])[..|events|] == events;
  }

  // ---- the invariant ----------------------------------------------------------------------------------

  /** What a provider has on file was really signed, for that provider, by that consumer. */
  ghost predicate Booked(s: World, p: Id, c: Id) {
    c in BookOf(s, p) ==>
      var q := BookOf(s, p)[c];
      q in s.signed && q.server == p && q.consumer == c
  }

  /** A cheque that carries a pair's acknowledged total. */
  predicate Newest(s: World, p: Id, c: Id, q: ServingCheque) {
    q in s.signed && q.consumer == c && q.server == p && q.cumulative == Issued(s, c, p)
  }

  ghost predicate HasLatest(s: World, c: Id, p: Id) {
    Issued(s, c, p) > 0 ==> exists q :: Newest(s, p, c, q)
  }

  ghost predicate Sound(s: World) {
    && (forall c, p :: HasLatest(s, c, p))
    && (forall q :: q in s.signed ==> q.Verify())
    && (forall p, c :: Booked(s, p, c))
  }

  lemma StepLatest(s: World, e: Event, c: Id, p: Id)
    requires Legal(s, e) && HasLatest(s, c, p)
    ensures HasLatest(Step(s, e), c, p)
  {
    var t := Step(s, e);
    if e.Fetch? && c == e.consumer && p == e.provider
       && Receive(ConsumerOf(s, e.consumer), e.provider, e.bytes).1.Some? {
      assert Newest(t, p, c, Sign(c, p, Issued(t, c, p), e.timestamp));
    } else if Issued(t, c, p) > 0 {
      var q :| Newest(s, p, c, q);
      assert Newest(t, p, c, q);
    }
  }

  lemma StepSound(s: World, e: Event)
    requires Sound(s) && Legal(s, e)
    ensures Sound(Step(s, e))
  {
    var t := Step(s, e);
    forall c, p
      ensures HasLatest(t, c, p)
    {
      assert HasLatest(s, c, p);
      StepLatest(s, e, c, p);
    }
    forall p, c
      ensures Booked(t, p, c)
    {
      assert Booked(s, p, c);
    }
  }

  /** In every run, every cheque in existence verifies, the newest of a pair exists, and every book holds only
      cheques that were signed for it. */
  lemma {:induction false} RunSound(events: seq<Event>)
    requires LegalRun(events)
    ensures Sound(Run(events))
  {
    if |events| > 0 {
      RunSound(events[..|events| - 1]);
      StepSound(Run(events[..|events| - 1]), events[|events| - 1]);
    }
  }

  // ---- nothing fetched is forgotten -------------------------------------------------------------------

  lemma StepAcknowledges(s: World, e: Event, c: Id, p: Id)
    requires Legal(s, e) && Pending(s, c, p) < CREDIT_BAND
    ensures Issued(Step(s, e), c, p) + Pending(Step(s, e), c, p)
            == if e == Restart(c) then 0
               else Issued(s, c, p) + Pending(s, c, p)
                    + if e.Fetch? && e.consumer == c && e.provider == p then e.bytes else 0
    ensures Pending(Step(s, e), c, p) < CREDIT_BAND
  {
  }

  /** In every run, what a consumer has acknowledged to a provider plus what is pending is what it fetched
      from that provider since it last restarted, and less than a credit band is pending. */
  lemma {:induction false} RunAcknowledges(events: seq<Event>, c: Id, p: Id)
    requires LegalRun(events)
    ensures Issued(Run(events), c, p) + Pending(Run(events), c, p) == FetchedSince(events, c, p)
    ensures Pending(Run(events), c, p) < CREDIT_BAND
  {
    if |events| > 0 {
      RunAcknowledges(events[..|events| - 1], c, p);
      StepAcknowledges(Run(events[..|events| - 1]), events[|events| - 1], c, p);
    }
  }

  predicate NeverRestarts(events: seq<Event>, c: Id) {
    Restart(c) !in events
  }

  lemma {:induction false} SinceIsPart(events: seq<Event>, c: Id, p: Id)
    ensures FetchedSince(events, c, p) <= Fetched(events, c, p)
    ensures NeverRestarts(events, c) ==> FetchedSince(events, c, p) == Fetched(events, c, p)
  {
    if |events| > 0 {
      SinceIsPart(events[..|events| - 1], c, p);
    }
  }

  /** The consumer has paid, by what it was told last since its last restart. */
  predicate HasPaid(events: seq<Event>, c: Id) {
    |events| > 0 &&
    var last := events[|events| - 1];
    if last == Restart(c) then false
    else if last.SetPaid? && last.consumer == c then last.paid > 0
    else HasPaid(events[..|events| - 1], c)
  }

  /** Bytes fetched since the last restart while the consumer had paid, or while it had not. */
  function FetchedAs(events: seq<Event>, c: Id, p: Id, paid: bool): nat {
    if |events| == 0 then 0
    else
      var before, last := events[..|events| - 1], events[|events| - 1];
      if last == Restart(c) then 0
      else
        FetchedAs(before, c, p, paid)
        + if last.Fetch? && last.consumer == c && last.provider == p && HasPaid(before, c) == paid then last.bytes
          else 0
  }

  lemma {:induction false} FetchedSplits(events: seq<Event>, c: Id, p: Id)
    ensures FetchedAs(events, c, p, true) + FetchedAs(events, c, p, false) == FetchedSince(events, c, p)
  {
    if |events| > 0 {
      FetchedSplits(events[..|events| - 1], c, p);
    }
  }

  function Meter(s: World, c: Id, paid: bool): nat {
    if paid then ConsumerOf(s, c).paidConsumed else ConsumerOf(s, c).consumed
  }

  lemma {:induction false} PaidIsKnown(events: seq<Event>, c: Id)
    requires LegalRun(events)
    ensures ConsumerOf(Run(events), c).myPaid > 0 <==> HasPaid(events, c)
  {
    if |events| > 0 {
      PaidIsKnown(events[..|events| - 1], c);
    }
  }

  lemma StepMeter(s: World, e: Event, c: Id, paid: bool)
    ensures Meter(Step(s, e), c, paid)
            == if e == Restart(c) then 0
               else Meter(s, c, paid)
                    + if e.Fetch? && e.consumer == c && (ConsumerOf(s, c).myPaid > 0) == paid then e.bytes else 0
  {
  }

  predicate Providers(events: seq<Event>, c: Id, ps: set<Id>) {
    forall i :: 0 <= i < |events| && events[i].Fetch? && events[i].consumer == c ==> events[i].provider in ps
  }

  /** In every run, the paid meter counts what was fetched from all providers while the consumer had paid, and the
      free meter what was fetched while it had not, since the last restart. */
  lemma {:induction false} RunMeters(events: seq<Event>, c: Id, ps: set<Id>, paid: bool)
    requires LegalRun(events) && Providers(events, c, ps)
    ensures Meter(Run(events), c, paid) == Sum((p: Id) => FetchedAs(events, c, p, paid), ps)
  {
    var f := (p: Id) => FetchedAs(events, c, p, paid);
    if |events| == 0 || events[|events| - 1] == Restart(c) {
      SumZero(f, ps);
    } else {
      var before, e := events[..|events| - 1], events[|events| - 1];
      var g := (p: Id) => FetchedAs(before, c, p, paid);
      RunMeters(before, c, ps, paid);
      PaidIsKnown(before, c);
      StepMeter(Run(before), e, c, paid);
      if e.Fetch? && e.consumer == c && HasPaid(before, c) == paid {
        assert e.provider in ps;
        SumRaise(g, f, ps, e.provider, e.bytes);
      } else {
        SumSame(g, f, ps);
      }
    }
  }

  // ---- the provider's book ----------------------------------------------------------------------------

  /** What a provider has on its book for a consumer. */
  function Tally(s: World, p: Id, c: Id): nat {
    if c in BookOf(s, p) then BookOf(s, p)[c].cumulative else 0
  }

  /** No cheque acknowledges more than its consumer ever fetched; nor, if the consumer never restarted, more
      than it acknowledges now. */
  lemma {:induction false} ChequesAreTruthful(events: seq<Event>, q: ServingCheque)
    requires LegalRun(events) && q in Run(events).signed
    ensures q.cumulative <= Fetched(events, q.consumer, q.server)
    ensures NeverRestarts(events, q.consumer) ==> q.cumulative <= Issued(Run(events), q.consumer, q.server)
  {
    var c, p := q.consumer, q.server;
    var before, e := events[..|events| - 1], events[|events| - 1];
    RunAcknowledges(events, c, p);
    SinceIsPart(events, c, p);
    if q in Run(before).signed {
      ChequesAreTruthful(before, q);
      StepIssues(Run(before), e, c, p);
    } else {
      assert q.cumulative == Issued(Run(events), c, p);
    }
  }

  lemma StepIssues(s: World, e: Event, c: Id, p: Id)
    requires Legal(s, e)
    ensures e != Restart(c) ==> Issued(Step(s, e), c, p) >= Issued(s, c, p)
  {
  }

  /** The book never claims more than was ever served, whatever was lost, reordered or repeated and whoever
      restarted; nor more than the consumer acknowledges, unless that consumer restarted. */
  lemma BookNeverExceeds(events: seq<Event>, p: Id, c: Id)
    requires LegalRun(events)
    ensures Tally(Run(events), p, c) <= Fetched(events, c, p)
    ensures NeverRestarts(events, c) ==> Tally(Run(events), p, c) <= Issued(Run(events), c, p)
  {
    var s := Run(events);
    RunSound(events);
    assert Booked(s, p, c);
    if c in BookOf(s, p) {
      ChequesAreTruthful(events, BookOf(s, p)[c]);
    }
  }

  /** The cheque a fetch signs is above an earlier one of its pair if and only if the consumer has, since it
      last restarted, fetched more than that one acknowledged; without a restart it always is. */
  lemma SupersedesIff(events: seq<Event>, e: Event, q: ServingCheque, newer: ServingCheque)
    requires LegalRun(events) && Legal(Run(events), e) && q in Run(events).signed
    requires newer in Step(Run(events), e).signed && newer !in Run(events).signed
    requires newer.consumer == q.consumer && newer.server == q.server
    ensures newer.cumulative > q.cumulative <==> FetchedSince(events + [e], q.consumer, q.server) > q.cumulative
    ensures NeverRestarts(events, q.consumer) ==> newer.cumulative > q.cumulative
  {
    Extend(events, e);
    RunAcknowledges(events, q.consumer, q.server);
    RunAcknowledges(events + [e], q.consumer, q.server);
    ChequesAreTruthful(events, q);
  }

  /** A newest cheque exists once anything was acknowledged. */
  lemma NewestExists(events: seq<Event>, p: Id, c: Id) returns (q: ServingCheque)
    requires LegalRun(events) && Issued(Run(events), c, p) > 0
    ensures Newest(Run(events), p, c, q)
  {
    RunSound(events);
    assert HasLatest(Run(events), c, p);
    q :| Newest(Run(events), p, c, q);
  }

  /** The arrival of a newest cheque alone brings the book to less than a band below what was served since the
      consumer last restarted; and it makes the book exact if and only if the book was not above the consumer's
      total, which it never is for a consumer that did not restart. */
  lemma BookCatchesUpIff(events: seq<Event>, p: Id, c: Id, newest: ServingCheque)
    requires LegalRun(events) && Newest(Run(events), p, c, newest)
    ensures LegalRun(events + [Deliver(p, newest)])
    ensures var s, t := Run(events), Run(events + [Deliver(p, newest)]);
            && Issued(t, c, p) == Issued(s, c, p) && FetchedSince(events, c, p) < Tally(t, p, c) + CREDIT_BAND
            && (Tally(t, p, c) == Issued(t, c, p) <==> Tally(s, p, c) <= Issued(s, c, p))
            && (NeverRestarts(events, c) ==> Tally(t, p, c) == Issued(t, c, p))
  {
    RunSound(events);
    RunAcknowledges(events, c, p);
    BookNeverExceeds(events, p, c);
    assert newest.Verify();
    Extend(events, Deliver(p, newest));
  }

  /** A consumer that restarts starts its totals over, and the provider's book stays above them. */
  lemma RestartFallsBehind() returns (events: seq<Event>, newest: ServingCheque)
    ensures LegalRun(events) && Newest(Run(events), 2, 1, newest)
    ensures Issued(Run(events), 1, 2) == CREDIT_BAND && Tally(Run(events), 2, 1) == 2 * CREDIT_BAND
    ensures LegalRun(events + [Deliver(2, newest)])
    ensures Tally(Run(events + [Deliver(2, newest)]), 2, 1) == 2 * CREDIT_BAND
  {
    newest := Sign(1, 2, CREDIT_BAND, 1);
    events := [Fetch(1, 2, 2 * CREDIT_BAND, 0)];
    Extend([], events[0]);
    Extend(events, Deliver(2, Sign(1, 2, 2 * CREDIT_BAND, 0)));
    events := events + [Deliver(2, Sign(1, 2, 2 * CREDIT_BAND, 0))];
    Extend(events, Restart(1));
    events := events + [Restart(1)];
    Extend(events, Fetch(1, 2, CREDIT_BAND, 1));
    events := events + [Fetch(1, 2, CREDIT_BAND, 1)];
    Extend(events, Deliver(2, newest));
  }

  // ---- a book is a maximum ----------------------------------------------------------------------------

  function Best(me: Id, cs: seq<ServingCheque>, c: Id): nat {
    if |cs| == 0 then 0
    else
      var last := cs[|cs| - 1];
      var before := Best(me, cs[..|cs| - 1], c);
      if last.server == me && last.consumer == c && last.Verify() && last.cumulative > before then last.cumulative
      else before
  }

  /** However cheques arrive, a fresh book holds for each consumer the largest valid one. */
  lemma {:induction false} RecordAllIsBest(me: Id, cs: seq<ServingCheque>, c: Id)
    ensures (if c in RecordAll(me, map[], cs) then RecordAll(me, map[], cs)[c].cumulative else 0) == Best(me, cs, c)
    ensures c in RecordAll(me, map[], cs) ==> RecordAll(me, map[], cs)[c].consumer == c
  {
    if |cs| > 0 {
      RecordAllIsBest(me, cs[..|cs| - 1], c);
    }
  }

  lemma {:induction false} BestBounds(me: Id, cs: seq<ServingCheque>, c: Id)
    ensures forall q :: q in cs && q.server == me && q.consumer == c && q.Verify() ==> q.cumulative <= Best(me, cs, c)
    ensures Best(me, cs, c) > 0 ==>
              exists q :: q in cs && q.server == me && q.consumer == c && q.Verify() && q.cumulative == Best(me, cs, c)
  {
    if |cs| > 0 {
      var n := |cs| - 1;
      BestBounds(me, cs[..n], c);
      assert cs == cs[..n] + [cs[n]];
    }
  }

  predicate ValidFor(me: Id, q: ServingCheque, c: Id) {
    q.server == me && q.consumer == c && q.Verify()
  }

  /** A consumer is on a rebuilt book exactly when one of its cheques was valid, with one of those. */
  lemma {:induction false} RecordedIff(me: Id, cs: seq<ServingCheque>, c: Id)
    ensures c in RecordAll(me, map[], cs) <==> exists q :: q in cs && ValidFor(me, q, c)
    ensures c in RecordAll(me, map[], cs) ==>
              RecordAll(me, map[], cs)[c] in cs && ValidFor(me, RecordAll(me, map[], cs)[c], c)
  {
    if |cs| > 0 {
      var n := |cs| - 1;
      RecordedIff(me, cs[..n], c);
      RecordAllIsBest(me, cs[..n], c);
      assert cs == cs[..n] + [cs[n]];
      assert cs[n] in cs;
    }
  }

  /** Books rebuilt from the same cheques, in any order and with any repetition, list the same consumers with
      the same totals; and are equal when no consumer signed one total twice. */
  lemma BooksAgree(me: Id, cs: seq<ServingCheque>, ds: seq<ServingCheque>)
    requires forall q :: q in cs <==> q in ds
    ensures var a, b := RecordAll(me, map[], cs), RecordAll(me, map[], ds);
            && a.Keys == b.Keys
            && (forall c :: c in a ==> a[c].cumulative == b[c].cumulative)
            && ((forall p, q :: p in cs && q in cs && p.consumer == q.consumer && p.cumulative == q.cumulative ==> p == q)
                ==> a == b)
  {
    var a, b := RecordAll(me, map[], cs), RecordAll(me, map[], ds);
    forall c
      ensures c in a <==> c in b
      ensures c in a ==> a[c].cumulative == b[c].cumulative && a[c] in cs && b[c] in cs
                         && a[c].consumer == b[c].consumer
    {
      RecordedIff(me, cs, c);
      RecordedIff(me, ds, c);
      RecordAllIsBest(me, cs, c);
      RecordAllIsBest(me, ds, c);
      BestBounds(me, cs, c);
      BestBounds(me, ds, c);
    }
  }
}
