/** Serving cheques: signed cumulative tallies, the consumer's credit band, the provider's book, and the
    settlement of a quota. */
module Cheques {
  import opened Messages
  import opened Options
  import opened Words

  const CREDIT_BAND: nat := 4 * 1024 * 1024

  datatype ServingCheque =
    ServingCheque(server: Id, consumer: Id, cumulative: nat, timestamp: nat, signature: Signature)
  {
    predicate Verify() {
      Verifies(consumer, ChequeMsg(server, consumer, cumulative, timestamp), signature)
    }
  }

  function Sign(consumer: Id, server: Id, cumulative: nat, timestamp: nat): ServingCheque {
    ServingCheque(server, consumer, cumulative, timestamp,
                  Signed(consumer, ChequeMsg(server, consumer, cumulative, timestamp)))
  }

  function Get(m: map<Id, nat>, k: Id): nat {
    if k in m then m[k] else 0
  }

  // ---- the consumer's side ---------------------------------------------------------------------------

  /** What a consumer keeps: acknowledged totals, bytes since the last cheque, and bytes by tier. */
  datatype Consumer = Consumer(issued: map<Id, nat>, pending: map<Id, nat>, consumed: nat, paidConsumed: nat, myPaid: nat)

  /** Account for bytes from a provider; past the credit band, the cumulative to acknowledge. */
  function Receive(c: Consumer, provider: Id, bytes: nat): (Consumer, Option<nat>) {
    var routed := if c.myPaid > 0 then c.(paidConsumed := c.paidConsumed + bytes) else c.(consumed := c.consumed + bytes);
    var acc := Get(c.pending, provider) + bytes;
    if acc >= CREDIT_BAND then
      var cumulative := SatAdd(Get(c.issued, provider), acc);
      (routed.(pending := c.pending[provider := 0], issued := c.issued[provider := cumulative]), Some(cumulative))
    else (routed.(pending := c.pending[provider := acc]), None)
  }

  class ChequeService {
    const identity: Id
    var issued: map<Id, nat>
    var pending: map<Id, nat>
    var consumed: nat
    var paidConsumed: nat
    var myPaid: nat

    ghost function View(): Consumer
      reads this
    {
      Consumer(issued, pending, consumed, paidConsumed, myPaid)
    }

    constructor (identity: Id)
      ensures this.identity == identity && View() == Consumer(map[], map[], 0, 0, 0)
    {
      this.identity := identity;
      issued, pending := map[], map[];
      consumed, paidConsumed, myPaid := 0, 0, 0;
    }

    /** One verified piece arrived; past the band, the signed cheque to push. */
    method OnBytesReceived(provider: Id, bytes: nat, timestamp: nat) returns (cheque: Option<ServingCheque>)
      modifies this
      ensures View() == Receive(old(View()), provider, bytes).0
      ensures cheque == match Receive(old(View()), provider, bytes).1
                        case None => None
                        case Some(total) => Some(Sign(identity, provider, total, timestamp))
      ensures old(Get(issued, provider) + Get(pending, provider)) + bytes < U64 ==>
                Get(issued, provider) + Get(pending, provider)
                == old(Get(issued, provider) + Get(pending, provider)) + bytes
      ensures Get(pending, provider) < 4 * 1024 * 1024
      ensures cheque.Some? ==> Get(pending, provider) == 0 && Get(issued, provider)
                               == Min(old(Get(issued, provider) + Get(pending, provider)) + bytes, U64 - 1)
      ensures forall p :: p != provider ==>
                Get(issued, p) == old(Get(issued, p)) && Get(pending, p) == old(Get(pending, p))
      ensures if old(myPaid) > 0 then consumed == old(consumed) && paidConsumed == old(paidConsumed) + bytes
              else consumed == old(consumed) + bytes && paidConsumed == old(paidConsumed)
      ensures myPaid == old(myPaid)
      ensures cheque.Some? <==> old(Get(pending, provider)) + bytes >= 4 * 1024 * 1024
      ensures cheque.Some? ==> cheque.value.Verify() && cheque.value.server == provider
                               && cheque.value.consumer == identity && cheque.value.cumulative == Get(issued, provider)
    {
      if myPaid > 0 {
        paidConsumed := paidConsumed + bytes;
      } else {
        consumed := consumed + bytes;
      }
      var acc := Get(pending, provider) + bytes;
      if acc < CREDIT_BAND {
        pending := pending[provider := acc];
        return None;
      }
      pending := pending[provider := 0];
      var total := SatAdd(Get(issued, provider), acc);
      issued := issued[provider := total];
      return Some(Sign(identity, provider, total, timestamp));
    }
  }

  // ---- the provider's side ---------------------------------------------------------------------------

  type Book = map<Id, ServingCheque>

  predicate Accepts(me: Id, book: Book, c: ServingCheque) {
    && c.server == me && c.Verify()
    && (c.consumer in book ==> c.cumulative > book[c.consumer].cumulative)
  }

  function Record(me: Id, book: Book, c: ServingCheque): Book {
    if Accepts(me, book, c) then book[c.consumer := c] else book
  }

  class ChequeBook {
    const me: Id
    var received: Book

    constructor (me: Id)
      ensures this.me == me && received == map[]
    {
      this.me := me;
      received := map[];
    }

    method RecordCheque(c: ServingCheque) returns (accepted: bool)
      modifies this
      ensures accepted <==>
              && c.server == me
              && c.signature == Signed(c.consumer, ChequeMsg(me, c.consumer, c.cumulative, c.timestamp))
              && (c.consumer in old(received) ==> c.cumulative > old(received)[c.consumer].cumulative)
      ensures received == if accepted then old(received)[c.consumer := c] else old(received)
      ensures received == Record(me, old(received), c)
    {
      if c.server != me || !c.Verify() {
        return false;
      }
      if c.consumer in received && c.cumulative <= received[c.consumer].cumulative {
        return false;
      }
      received := received[c.consumer := c];
      return true;
    }
  }

  function RecordAll(me: Id, book: Book, cs: seq<ServingCheque>): Book {
    if |cs| == 0 then book else Record(me, RecordAll(me, book, cs[..|cs| - 1]), cs[|cs| - 1])
  }
}
