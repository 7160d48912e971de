/**
 Book and broker together: crates/execution's submit_order and cancel_order against the paper
 broker, with the broker's events queued for any length of time before the book applies them.
 */
module Trading {
  import opened Wrappers
  import opened Bytes
  import opened BrokerApi
  import OB = OrderBook
  import PB = PaperBroker
  import Ordered

  datatype System = System(
    orders: OB.Orders,
    broker: PB.Broker,
    inbox: seq<BrokerEvent>,    // drained from the broker, not yet applied
    applied: seq<BrokerEvent>,  // everything the book was given so far
    refused: nat)               // how many of those it refused

  datatype Op =
    | SetPrice(instrument: nat, price: i64)
    | Submit(intent: OrderIntent)
    | CancelOrder(id: string)
    | Drain
    | Deliver

  const START: System := System(map[], PB.EMPTY, [], [], 0)

  // --- the two calls that touch both sides ---

  datatype SubmitError = Refused(error: OB.TransitionError) | Gateway(reason: PB.SimError)

  datatype Submitted = Submitted(orders: OB.Orders, broker: PB.Broker, error: Option<SubmitError>)

  function SubmitOrder(orders: OB.Orders, broker: PB.Broker, intent: OrderIntent): Submitted {
    var id := intent.clientOrderId;
    var inserted := OB.Insert(orders, intent);
    if inserted.error.Some? then Submitted(inserted.orders, broker, Some(Refused(inserted.error.value))) else
    var sending := OB.Transition(OB.Transition(inserted.orders, id, Queued).orders, id, Sending);
    match PB.SendError(broker, intent)
    case Some(reason) => Submitted(OB.Transition(sending.orders, id, Unknown).orders, broker, Some(Gateway(reason)))
    case None => Submitted(OB.Transition(sending.orders, id, Sent).orders, PB.Send(broker, intent), None)
  }

  method SubmitOrderTo(book: OB.Book, gateway: PB.Exchange, intent: OrderIntent) returns (error: Option<SubmitError>)
    modifies book, gateway
    ensures Submitted(book.orders, gateway.State(), error)
              == SubmitOrder(old(book.orders), old(gateway.State()), intent)
  {
    var id := intent.clientOrderId;
    var refused := book.InsertIntent(intent);
    if refused.Some? {
      return Some(Refused(refused.value));
    }
    refused := book.Advance(id, Queued);
    assert refused.None?;
    refused := book.Advance(id, Sending);
    assert refused.None?;
    var failed := gateway.SendIntent(intent);
    if failed.Some? {
      refused := book.MarkUnknown(id);
      assert refused.None?;
      return Some(Gateway(failed.value));
    }
    refused := book.Advance(id, Sent);
    assert refused.None?;
    return None;
  }

  // A transport that refuses leaves the order ambiguous.
  function CancelIn(orders: OB.Orders, broker: PB.Broker, id: string): Submitted {
    var pending := OB.Transition(orders, id, CancelPending);
    if pending.error.Some? then Submitted(orders, broker, Some(Refused(pending.error.value)))
    else if id in broker.resting then Submitted(pending.orders, PB.Cancel(broker, id), None)
    else Submitted(OB.Transition(pending.orders, id, Unknown).orders, broker, Some(Gateway(PB.NotWorking)))
  }

  method CancelOrderIn(book: OB.Book, gateway: PB.Exchange, id: string) returns (error: Option<SubmitError>)
    modifies book, gateway
    ensures Submitted(book.orders, gateway.State(), error) == CancelIn(old(book.orders), old(gateway.State()), id)
  {
    var refused := book.Advance(id, CancelPending);
    if refused.Some? {
      assert id in book.orders ==> book.orders == old(book.orders);
      return Some(Refused(refused.value));
    }
    var failed := gateway.CancelOrder(id);
    if failed.Some? {
      refused := book.Advance(id, Unknown);
      assert refused.None?;
      return Some(Gateway(failed.value));
    }
    return None;
  }

  // --- runs ---

  function Step(s: System, op: Op): System {
    match op
    case SetPrice(instrument, price) => s.(broker := PB.SetPrice(s.broker, instrument, price))
    case Submit(intent) =>
      var after := SubmitOrder(s.orders, s.broker, intent);
      s.(orders := after.orders, broker := after.broker)
    case CancelOrder(id) =>
      var after := CancelIn(s.orders, s.broker, id);
      s.(orders := after.orders, broker := after.broker)
    case Drain => s.(broker := s.broker.(events := []), inbox := s.inbox + s.broker.events)
    case Deliver =>
      if s.inbox == [] then s else
      var booked := OB.ApplyEvent(s.orders, s.inbox[0]);
      s.(orders := booked.orders, inbox := s.inbox[1..], applied := s.applied + [s.inbox[0]],
         refused := if booked.error.Some? then s.refused + 1 else s.refused)
  }

  function Run(ops: seq<Op>): System {
    if ops == [] then START else Step(Run(ops[..|ops| - 1]), ops[|ops| - 1])
  }

  // --- the invariant, order by order ---

  function Mine(events: seq<BrokerEvent>, id: string): seq<BrokerEvent> {
    if events == [] then []
    else if events[0].clientOrderId == id then [events[0]] + Mine(events[1..], id)
    else Mine(events[1..], id)
  }

  // Events on their way to the book.
  function InFlight(s: System): seq<BrokerEvent> { s.inbox + s.broker.events }

  function AsApproved(intent: OrderIntent): OrderIntent { intent.(state := RiskApproved) }

  predicate GoodFill(intent: OrderIntent, fill: BrokerEvent) {
    && fill.Fill?
    && fill.quantityTicks == intent.quantityTicks
    && fill.priceTicks > 0
    && (intent.orderType == Limit ==> PB.LimitMet(intent, fill.priceTicks))
  }

  // The broker order id acknowledged for a resting order, and the one remembered for it.
  ghost predicate NextOne(acknowledged: string, remembered: string) {
    exists n: u64 :: acknowledged == PB.OrderId(n) && remembered == PB.OrderId(PB.NextId(n))
  }

  // Everything one order can look like: what the broker says of it, what the book says, and what is
  // still on its way from the one to the other.
  ghost predicate Consistent(record: OB.OrderRecord, b: PB.Broker, id: string, queue: seq<BrokerEvent>) {
    var state, resting := record.intent.state, id in b.resting;
    && record.filledQuantityTicks == (if state == FullyFilled then record.intent.quantityTicks else 0)
    && if id !in b.seen then state == Unknown && queue == [] && !resting else
       && id in b.accepted && b.accepted[id] == AsApproved(record.intent)
       && record.intent.quantityTicks > 0
       && (resting ==> b.resting[id] == b.accepted[id])
       && match b.seen[id]
          case Ack(_, remembered) =>
            && resting && b.seen[id].clientOrderId == id
            && ((state == Sent && |queue| == 1 && queue[0].Ack? && NextOne(queue[0].brokerOrderId, remembered))
                || (state == Acknowledged && queue == []
                    && record.brokerOrderId.Some? && NextOne(record.brokerOrderId.value, remembered)))
          case Fill(_, _, _) =>
            && !resting
            && GoodFill(record.intent, b.seen[id])
            && ((state == Sent && |queue| == 2 && queue[0].Ack? && queue[1] == b.seen[id])
                || (state in {Acknowledged, Unknown} && queue == [b.seen[id]])
                || (state == FullyFilled && queue == []))
          case Cancelled(_) =>
            !resting && ((state == CancelPending && queue == [b.seen[id]]) || (state == CancelledOrder && queue == []))
          case Reject(_, _) => false
  }

  ghost predicate Inv(s: System) {
    && s.refused == 0
    && s.broker.seen.Keys <= s.orders.Keys
    && s.broker.resting.Keys <= s.broker.seen.Keys
    && (forall instrument | instrument in s.broker.prices :: s.broker.prices[instrument] > 0)
    && (forall e | e in InFlight(s) :: e.clientOrderId in s.broker.seen)
    && (forall e | e in s.applied + InFlight(s) && e.Fill? ::
          e.clientOrderId in s.broker.seen && s.broker.seen[e.clientOrderId] == e)
    && (forall id | id in s.orders ::
          s.orders[id].intent.clientOrderId == id && Consistent(s.orders[id], s.broker, id, Mine(InFlight(s), id)))
  }

  lemma {:induction false} MineConcat(a: seq<BrokerEvent>, b: seq<BrokerEvent>, id: string)
    ensures Mine(a + b, id) == Mine(a, id) + Mine(b, id)
  {
    if a == [] {
      assert a + b == b;
    } else {
      assert (a + b)[1..] == a[1..] + b;
      MineConcat(a[1..], b, id);
    }
  }

  lemma {:induction false} MineNone(events: seq<BrokerEvent>, id: string)
    requires forall e | e in events :: e.clientOrderId != id
    ensures Mine(events, id) == []
  {
    if events != [] {
      MineNone(events[1..], id);
    }
  }

  lemma {:induction false} MineAll(events: seq<BrokerEvent>, id: string)
    requires forall e | e in events :: e.clientOrderId == id
    ensures Mine(events, id) == events
  {
    if events != [] {
      MineAll(events[1..], id);
    }
  }

  // --- what each step does to one order ---

  lemma DeliveredInOrder(record: OB.OrderRecord, b: PB.Broker, id: string, queue: seq<BrokerEvent>)
    requires Consistent(record, b, id, queue) && queue != []
    ensures OB.Apply(record, queue[0]).error.None?
    ensures Consistent(OB.Apply(record, queue[0]).record, b, id, queue[1..])
    ensures OB.Apply(record, queue[0]).record.intent.clientOrderId == record.intent.clientOrderId
  {
    if |queue| == 2 {
      assert queue[1..] == [queue[1]];
    }
  }

  lemma FilledWhileResting(record: OB.OrderRecord, b: PB.Broker, id: string, queue: seq<BrokerEvent>, price: i64)
    requires Consistent(record, b, id, queue) && id in b.resting && id in b.seen && price > 0
    requires PB.Crossed(b.resting[id], b.resting[id].instrumentId, price)
    ensures var fill := Fill(id, b.resting[id].quantityTicks, price);
            && OnlyBrokerChanges(b, PB.FillResting(b, id, price), id)
            && Consistent(record, PB.FillResting(b, id, price), id, queue + [fill])
  {
  }

  lemma CancelledWhileResting(record: OB.OrderRecord, b: PB.Broker, id: string, queue: seq<BrokerEvent>)
    requires Consistent(record, b, id, queue) && id in b.resting && id in b.seen
    requires record.intent.state == Acknowledged
    ensures OnlyBrokerChanges(b, PB.Cancel(b, id), id)
    ensures Consistent(OB.Move(record, CancelPending).record, PB.Cancel(b, id), id, queue + [Cancelled(id)])
  {
  }

  lemma LateCancel(record: OB.OrderRecord, b: PB.Broker, id: string, queue: seq<BrokerEvent>)
    requires Consistent(record, b, id, queue) && id !in b.resting
    requires OB.LegalTransition(record.intent.state, CancelPending)
    ensures var ambiguous := OB.Move(OB.Move(record, CancelPending).record, Unknown);
            ambiguous.error.None? && Consistent(ambiguous.record, b, id, queue)
  {
  }

  lemma NewlySent(b: PB.Broker, intent: OrderIntent)
    requires intent.state == RiskApproved && PB.SendError(b, intent).None?
    requires intent.clientOrderId !in b.resting
    requires b.prices[intent.instrumentId] > 0
    ensures var id := intent.clientOrderId; var after := PB.Accept(b, intent);
            && b.events <= after.events
            && Consistent(OB.OrderRecord(intent.(state := Sent), None, 0), after, id, after.events[|b.events|..])
  {
  }

  lemma NewlySentFrame(b: PB.Broker, intent: OrderIntent)
    requires PB.SendError(b, intent).None?
    ensures var id := intent.clientOrderId; var after := PB.Accept(b, intent);
            && b.events <= after.events
            && after.events == b.events + after.events[|b.events|..]
            && (forall e | e in after.events[|b.events|..] ::
                  e.clientOrderId == id && (e.Fill? ==> id in after.seen && after.seen[id] == e))
            && id in after.seen
            && OnlyBrokerChanges(b, after, id)
  {
    hide OnlyBrokerChanges;
    AcceptedOthers(b, intent);
  }

  lemma AcceptedOthers(b: PB.Broker, intent: OrderIntent)
    requires PB.SendError(b, intent).None?
    ensures OnlyBrokerChanges(b, PB.Accept(b, intent), intent.clientOrderId)
  {
  }

  // Book and broker change at most what they say of one order.
  ghost predicate OnlyChanges(s: System, t: System, id: string) {
    && t.orders.Keys == s.orders.Keys + {id}
    && (forall other | other in s.orders && other != id :: t.orders[other] == s.orders[other])
    && OnlyBrokerChanges(s.broker, t.broker, id)
  }

  ghost predicate OnlyBrokerChanges(b: PB.Broker, c: PB.Broker, id: string) {
    c.prices == b.prices && forall other | other != id :: SameWord(b, c, other)
  }

  predicate SameWord(b: PB.Broker, c: PB.Broker, id: string) {
    && (id in b.seen <==> id in c.seen)
    && (id in b.seen ==> b.seen[id] == c.seen[id])
    && (id in b.resting <==> id in c.resting)
    && (id in b.resting ==> b.resting[id] == c.resting[id])
    && (id in b.accepted ==> id in c.accepted && b.accepted[id] == c.accepted[id])
  }

  lemma OthersStay(record: OB.OrderRecord, b: PB.Broker, c: PB.Broker, id: string, queue: seq<BrokerEvent>)
    requires Consistent(record, b, id, queue) && SameWord(b, c, id)
    ensures Consistent(record, c, id, queue)
  {
  }

  // The queue of each order after some events about one of them were emitted.
  lemma Emitted(s: System, t: System, added: seq<BrokerEvent>, id: string)
    requires t.inbox == s.inbox && t.broker.events == s.broker.events + added
    requires forall e | e in added :: e.clientOrderId == id
    ensures InFlight(t) == InFlight(s) + added
    ensures Mine(InFlight(t), id) == Mine(InFlight(s), id) + added
    ensures forall other | other != id :: Mine(InFlight(t), other) == Mine(InFlight(s), other)
  {
    assert InFlight(t) == InFlight(s) + added;
    MineConcat(InFlight(s), added, id);
    MineAll(added, id);
    forall other | other != id
      ensures Mine(InFlight(t), other) == Mine(InFlight(s), other)
    {
      MineConcat(InFlight(s), added, other);
      MineNone(added, other);
    }
  }

  // What a step about one order owes: that order stays consistent, and the broker only goes back on
  // its last word while that was not a fill.
  ghost predicate Owed(s: System, t: System, id: string, added: seq<BrokerEvent>) {
    && t.inbox == s.inbox && t.broker.events == s.broker.events + added
    && t.applied == s.applied && t.refused == s.refused
    && OnlyChanges(s, t, id)
    && (id in s.broker.seen || added != [] ==> id in t.broker.seen)
    && (id in t.broker.resting ==> id in t.broker.seen)
    && (id in s.broker.seen && s.broker.seen[id].Fill? ==> t.broker.seen[id] == s.broker.seen[id])
    && (forall e | e in added :: e.clientOrderId == id && (e.Fill? ==> t.broker.seen[id] == e))
    && t.orders[id].intent.clientOrderId == id
    && Consistent(t.orders[id], t.broker, id, Mine(InFlight(s), id) + added)
  }

  lemma OneOrderStep(s: System, t: System, id: string, added: seq<BrokerEvent>)
    requires Inv(s) && Owed(s, t, id, added)
    ensures Inv(t)
  {
    hide Consistent, Mine;
    Emitted(s, t, added, id);
    forall other | other in t.orders
      ensures t.orders[other].intent.clientOrderId == other
      ensures Consistent(t.orders[other], t.broker, other, Mine(InFlight(t), other))
    {
      if other != id {
        assert SameWord(s.broker, t.broker, other);
        OthersStay(s.orders[other], s.broker, t.broker, other, Mine(InFlight(s), other));
      }
    }
    KeysStay(s, t, id, added);
    FillsStay(s, t, id, added);
  }

  lemma KeysStay(s: System, t: System, id: string, added: seq<BrokerEvent>)
    requires Inv(s) && Owed(s, t, id, added) && InFlight(t) == InFlight(s) + added
    ensures t.broker.seen.Keys <= t.orders.Keys && t.broker.resting.Keys <= t.broker.seen.Keys
    ensures forall e | e in InFlight(t) :: e.clientOrderId in t.broker.seen
  {
    hide Consistent, Mine;
    forall k | k in t.broker.resting
      ensures k in t.broker.seen
    {
      assert k != id ==> SameWord(s.broker, t.broker, k);
    }
    forall k | k in t.broker.seen
      ensures k in t.orders
    {
      assert k != id ==> SameWord(s.broker, t.broker, k);
    }
    forall e | e in InFlight(t)
      ensures e.clientOrderId in t.broker.seen
    {
      assert e.clientOrderId != id ==> SameWord(s.broker, t.broker, e.clientOrderId);
    }
  }

  lemma FillsStay(s: System, t: System, id: string, added: seq<BrokerEvent>)
    requires Inv(s) && Owed(s, t, id, added) && InFlight(t) == InFlight(s) + added
    ensures forall e | e in t.applied + InFlight(t) && e.Fill? ::
              e.clientOrderId in t.broker.seen && t.broker.seen[e.clientOrderId] == e
  {
    hide Consistent, Mine;
    forall e | e in t.applied + InFlight(t) && e.Fill?
      ensures e.clientOrderId in t.broker.seen && t.broker.seen[e.clientOrderId] == e
    {
      if e !in added {
        assert e in s.applied + InFlight(s);
        assert e.clientOrderId != id ==> SameWord(s.broker, t.broker, e.clientOrderId);
      }
    }
  }

  // --- every step keeps the invariant ---

  lemma {:induction false} FillAllKeeps(s: System, ids: seq<string>, instrument: nat, price: i64)
    requires Inv(s) && price > 0
    requires forall id | id in ids && id in s.broker.resting :: PB.Crossed(s.broker.resting[id], instrument, price)
    ensures Inv(s.(broker := PB.FillAll(s.broker, ids, price)))
    decreases |ids|
  {
    hide Inv, Consistent;
    if ids != [] {
      FillOneKeeps(s, ids[0], instrument, price);
      var t := s.(broker := PB.FillResting(s.broker, ids[0], price));
      FillAllKeeps(t, ids[1..], instrument, price);
    }
  }

  lemma FillOneKeeps(s: System, id: string, instrument: nat, price: i64)
    requires Inv(s) && price > 0
    requires id in s.broker.resting ==> PB.Crossed(s.broker.resting[id], instrument, price)
    ensures Inv(s.(broker := PB.FillResting(s.broker, id, price)))
  {
    hide Inv, Mine, Consistent, OnlyBrokerChanges;
    if id in s.broker.resting {
      var fill := Fill(id, s.broker.resting[id].quantityTicks, price);
      RestingIsWorking(s, id);
      FilledWhileResting(s.orders[id], s.broker, id, Mine(InFlight(s), id), price);
      OneOrderStep(s, s.(broker := PB.FillResting(s.broker, id, price)), id, [fill]);
    }
  }

  lemma RestingIsWorking(s: System, id: string)
    requires Inv(s) && id in s.broker.resting
    ensures id in s.orders && id in s.broker.seen && s.broker.seen[id].Ack?
    ensures s.orders[id].intent.clientOrderId == id
    ensures Consistent(s.orders[id], s.broker, id, Mine(InFlight(s), id))
  {
  }

  lemma SetPriceKeeps(s: System, instrument: nat, price: i64)
    requires Inv(s)
    ensures Inv(Step(s, SetPrice(instrument, price)))
  {
    if price > 0 {
      var t := s.(broker := s.broker.(prices := s.broker.prices[instrument := price]));
      assert InFlight(t) == InFlight(s);
      forall id | id in s.orders
        ensures Consistent(t.orders[id], t.broker, id, Mine(InFlight(t), id))
      {
        assert Consistent(s.orders[id], s.broker, id, Mine(InFlight(s), id));
      }
      FillAllKeeps(t, PB.Candidates(t.broker, instrument, price), instrument, price);
    }
  }

  lemma SubmitKeeps(s: System, intent: OrderIntent)
    requires Inv(s)
    ensures Inv(Step(s, Submit(intent)))
  {
    hide Inv, Mine, SubmitOrder, PB.Accept, OB.LegalTransition;
    var id := intent.clientOrderId;
    SubmitEffect(s, intent);
    if OB.Insert(s.orders, intent).error.None? {
      UnknownHasNothing(s, id);
      var t := Step(s, Submit(intent));
      if PB.SendError(s.broker, intent).None? {
        NewlySent(s.broker, intent);
        NewlySentFrame(s.broker, intent);
        OneOrderStep(s, t, id, t.broker.events[|s.broker.events|..]);
      } else {
        OneOrderStep(s, t, id, []);
      }
    }
  }

  lemma SubmitEffect(s: System, intent: OrderIntent)
    ensures var t := Step(s, Submit(intent)); var id := intent.clientOrderId;
            if OB.Insert(s.orders, intent).error.Some? then t == s else
            var state := if PB.SendError(s.broker, intent).Some? then Unknown else Sent;
            t == s.(broker := PB.Send(s.broker, intent),
                    orders := s.orders[id := OB.OrderRecord(intent.(state := state), None, 0)])
  {
    hide PB.Accept;
  }

  lemma UnknownHasNothing(s: System, id: string)
    requires Inv(s) && id !in s.orders
    ensures id !in s.broker.seen && id !in s.broker.resting && Mine(InFlight(s), id) == []
    ensures forall instrument | instrument in s.broker.prices :: s.broker.prices[instrument] > 0
  {
    MineNone(InFlight(s), id);
  }

  lemma CancelKeeps(s: System, id: string)
    requires Inv(s)
    ensures Inv(Step(s, CancelOrder(id)))
  {
    hide Inv, Mine, Consistent, OnlyBrokerChanges, OB.LegalTransition;
    if OB.Transition(s.orders, id, CancelPending).error.None? {
      CancellableIsSeen(s, id);
      var queue := Mine(InFlight(s), id);
      if id in s.broker.resting {
        CancelledWhileResting(s.orders[id], s.broker, id, queue);
        OneOrderStep(s, Step(s, CancelOrder(id)), id, [Cancelled(id)]);
      } else {
        LateCancel(s.orders[id], s.broker, id, queue);
        NothingChanges(s.broker, id);
        assert queue + [] == queue;
        OneOrderStep(s, Step(s, CancelOrder(id)), id, []);
      }
    }
  }

  lemma NothingChanges(b: PB.Broker, id: string)
    ensures OnlyBrokerChanges(b, b, id)
  {
  }

  // Only an acknowledged order can start cancelling, so the broker knows it.
  lemma CancellableIsSeen(s: System, id: string)
    requires Inv(s) && OB.Transition(s.orders, id, CancelPending).error.None?
    ensures id in s.orders && id in s.broker.seen && s.orders[id].intent.state == Acknowledged
    ensures s.orders[id].intent.clientOrderId == id
    ensures Consistent(s.orders[id], s.broker, id, Mine(InFlight(s), id))
  {
    assert Consistent(s.orders[id], s.broker, id, Mine(InFlight(s), id));
  }

  lemma DrainKeeps(s: System)
    requires Inv(s)
    ensures Inv(Step(s, Drain))
  {
    hide Mine;
    var t := Step(s, Drain);
    assert InFlight(t) == InFlight(s);
    forall id | id in s.orders
      ensures Consistent(t.orders[id], t.broker, id, Mine(InFlight(t), id))
    {
      assert Consistent(s.orders[id], s.broker, id, Mine(InFlight(s), id));
    }
  }

  lemma DeliverKeeps(s: System)
    requires Inv(s)
    ensures Inv(Step(s, Deliver))
  {
    hide Consistent;
    if s.inbox != [] {
      var t, e := Step(s, Deliver), s.inbox[0];
      var id := e.clientOrderId;
      assert InFlight(s)[0] == e && InFlight(s)[1..] == InFlight(t);
      assert e in InFlight(s);
      DeliveredInOrder(s.orders[id], s.broker, id, Mine(InFlight(s), id));
      assert t.applied + InFlight(t) == s.applied + InFlight(s);
      assert t.orders == s.orders[id := OB.Apply(s.orders[id], e).record];
    }
  }

  // In every run the book refuses no broker event.
  lemma {:induction false} RunKeeps(ops: seq<Op>)
    ensures Inv(Run(ops))
  {
    hide Inv, Step;
    if ops == [] {
      StartHolds();
    } else {
      var s := Run(ops[..|ops| - 1]);
      RunKeeps(ops[..|ops| - 1]);
      match ops[|ops| - 1] {
        case SetPrice(instrument, price) => SetPriceKeeps(s, instrument, price);
        case Submit(intent) => SubmitKeeps(s, intent);
        case CancelOrder(id) => CancelKeeps(s, id);
        case Drain => DrainKeeps(s);
        case Deliver => DeliverKeeps(s);
      }
    }
  }

  lemma StartHolds()
    ensures Inv(START)
  {
  }

  // --- what follows for every run ---

  lemma RunNeverRefuses(ops: seq<Op>)
    ensures Run(ops).refused == 0
  {
    RunKeeps(ops);
  }

  // How much of an order the broker says it filled.
  function BrokerFilled(b: PB.Broker, id: string): int {
    if id in b.seen && b.seen[id].Fill? then b.seen[id].quantityTicks else 0
  }

  // Every fill ever reported is for the whole order, at a positive price no worse than its limit, and
  // is the broker's last word on it.
  lemma EveryFillIsGood(ops: seq<Op>, e: BrokerEvent)
    requires var s := Run(ops); e in s.applied + InFlight(s) && e.Fill?
    ensures var s := Run(ops);
            && e.clientOrderId in s.orders && e.clientOrderId in s.broker.seen
            && GoodFill(s.orders[e.clientOrderId].intent, e)
            && s.broker.seen[e.clientOrderId] == e
  {
    RunKeeps(ops);
    var s := Run(ops);
    assert Consistent(s.orders[e.clientOrderId], s.broker, e.clientOrderId, Mine(InFlight(s), e.clientOrderId));
  }

  // --- broker order ids ---

  function Acks(events: seq<BrokerEvent>): seq<string> {
    if events == [] then [] else Acks(events[..|events| - 1]) + FirstAck(events[|events| - 1..])
  }

  function FirstAck(events: seq<BrokerEvent>): seq<string> {
    if events != [] && events[0].Ack? then [events[0].brokerOrderId] else []
  }

  lemma {:induction false} AcksConcat(a: seq<BrokerEvent>, b: seq<BrokerEvent>)
    ensures Acks(a + b) == Acks(a) + Acks(b)
  {
    hide FirstAck;
    if b == [] {
      assert a + b == a;
    } else {
      var n := |b| - 1;
      AcksConcat(a, b[..n]);
      assert (a + b)[..|a + b| - 1] == a + b[..n] && (a + b)[|a + b| - 1..] == b[n..];
      assert Acks(a) + (Acks(b[..n]) + FirstAck(b[n..])) == Acks(a) + Acks(b[..n]) + FirstAck(b[n..]);
    }
  }

  lemma AcksOfOne(e: BrokerEvent)
    ensures Acks([e]) == if e.Ack? then [e.brokerOrderId] else []
  {
    assert [e][..0] == [] && [e][0..] == [e];
  }

  // Everything the broker emitted so far.
  function Emissions(s: System): seq<BrokerEvent> { s.applied + InFlight(s) }

  predicate Counted(b: PB.Broker, emissions: seq<BrokerEvent>) {
    var acks := Acks(emissions);
    && b.nextOrderId == (if |acks| < U64_MAX then |acks| + 1 else U64_MAX)
    && forall i | 0 <= i < |acks| :: acks[i] == PB.OrderId(if i < U64_MAX then i + 1 else U64_MAX)
  }

  function NextNumber(b: PB.Broker): nat { if b.nextOrderId < U64_MAX then b.nextOrderId + 1 else U64_MAX }

  lemma OneMoreAck(b: PB.Broker, c: PB.Broker, emissions: seq<BrokerEvent>, added: seq<BrokerEvent>)
    requires Counted(b, emissions)
    requires Acks(added) == [] ==> c.nextOrderId == b.nextOrderId
    requires Acks(added) != [] ==>
               && Acks(added) == [PB.OrderId(b.nextOrderId)]
               && c.nextOrderId == NextNumber(b)
    ensures Counted(c, emissions + added)
  {
    hide Acks, PB.OrderId;
    AcksConcat(emissions, added);
  }

  // The k-th order the broker ever accepts is acknowledged as paper-k, as long as there are numbers.
  lemma {:induction false} AcksAreNumbered(ops: seq<Op>)
    ensures Counted(Run(ops).broker, Emissions(Run(ops)))
  {
    hide Counted, PB.SetPrice, PB.Send, OB.LegalTransition, Acks;
    if ops == [] {
      NothingCounted();
    } else {
      var s, t := Run(ops[..|ops| - 1]), Run(ops);
      AcksAreNumbered(ops[..|ops| - 1]);
      var added := AddedBy(s, ops[|ops| - 1]);
      OneMoreAck(s.broker, t.broker, Emissions(s), added);
    }
  }

  lemma NothingCounted()
    ensures Counted(START.broker, Emissions(START))
  {
    assert Emissions(START) == [];
  }

  // What a step emits: at most one acknowledgement, under the next number.
  lemma AddedBy(s: System, op: Op) returns (added: seq<BrokerEvent>)
    ensures var t := Step(s, op);
            && Emissions(t) == Emissions(s) + added
            && (Acks(added) == [] ==> t.broker.nextOrderId == s.broker.nextOrderId)
            && (Acks(added) != [] ==>
                  && Acks(added) == [PB.OrderId(s.broker.nextOrderId)]
                  && t.broker.nextOrderId == NextNumber(s.broker))
  {
    hide PB.SetPrice, PB.Send, PB.SendError, OB.LegalTransition, Acks, PB.OrderId, CancelIn, SubmitOrder, Emissions;
    added := [];
    NoAcks([]);
    var t := Step(s, op);
    match op {
      case SetPrice(instrument, price) =>
        if price > 0 {
          var ids := PB.PriceMoveFillsExactly(s.broker, instrument, price);
          added := PB.FillsOf(s.broker, ids, price);
          NoAcks(added);
        } else {
          NoPrice(s.broker, instrument, price);
          assert s.broker.events + [] == s.broker.events;
        }
        Appended(s, t, added);
      case Submit(intent) =>
        added := SubmitEvents(s, intent);
        Appended(s, t, added);
      case CancelOrder(id) =>
        added := CancelEvents(s.orders, s.broker, id);
        Appended(s, t, added);
      case Drain => Moved(s, t);
      case Deliver => Moved(s, t);
    }
  }

  lemma Appended(s: System, t: System, added: seq<BrokerEvent>)
    requires t.applied == s.applied && t.inbox == s.inbox && t.broker.events == s.broker.events + added
    ensures Emissions(t) == Emissions(s) + added
  {
  }

  lemma Moved(s: System, t: System)
    requires t == Step(s, Drain) || t == Step(s, Deliver)
    ensures Emissions(t) == Emissions(s) + []
  {
    hide OB.Apply;
  }

  lemma SubmitEvents(s: System, intent: OrderIntent) returns (added: seq<BrokerEvent>)
    ensures var t := Step(s, Submit(intent));
            && t.applied == s.applied && t.inbox == s.inbox && t.broker.events == s.broker.events + added
            && (Acks(added) == [] ==> t.broker.nextOrderId == s.broker.nextOrderId)
            && (Acks(added) != [] ==>
                  Acks(added) == [PB.OrderId(s.broker.nextOrderId)] && t.broker.nextOrderId == NextNumber(s.broker))
  {
    hide PB.Send, PB.SendError, Acks, PB.OrderId, SubmitOrder;
    added := [];
    NoAcks([]);
    SubmitEffect(s, intent);
    assert s.broker.events + [] == s.broker.events;
    if Step(s, Submit(intent)) != s && PB.SendError(s.broker, intent).None? {
      added := SentEvents(s.broker, intent);
    } else {
      RefusedSend(s.broker, intent);
    }
  }

  lemma RefusedSend(b: PB.Broker, intent: OrderIntent)
    ensures PB.SendError(b, intent).Some? ==> PB.Send(b, intent) == b
  {
  }

  lemma {:induction false} NoAcks(events: seq<BrokerEvent>)
    requires forall i | 0 <= i < |events| :: !events[i].Ack?
    ensures Acks(events) == []
  {
    if events != [] {
      NoAcks(events[..|events| - 1]);
    }
  }

  lemma SentEvents(b: PB.Broker, intent: OrderIntent) returns (added: seq<BrokerEvent>)
    requires PB.SendError(b, intent).None?
    ensures PB.Send(b, intent).events == b.events + added
    ensures Acks(added) == [PB.OrderId(b.nextOrderId)]
    ensures PB.Send(b, intent).nextOrderId == NextNumber(b)
  {
    hide PB.Send, Acks;
    PB.SendExactly(b, intent);
    var ack := Ack(intent.clientOrderId, PB.OrderId(b.nextOrderId));
    added := PB.Send(b, intent).events[|b.events|..];
    AcksOfOne(ack);
    if |added| == 2 {
      AcksOfOne(added[1]);
      AcksConcat([ack], [added[1]]);
      assert added == [ack] + [added[1]];
    } else {
      assert added == [ack];
    }
  }

  lemma CancelEvents(orders: OB.Orders, b: PB.Broker, id: string) returns (added: seq<BrokerEvent>)
    ensures var after := CancelIn(orders, b, id).broker;
            after.events == b.events + added && after.nextOrderId == b.nextOrderId
    ensures Acks(added) == []
  {
    hide Acks, OB.LegalTransition;
    NoAcks([]);
    NoAcks([Cancelled(id)]);
    added := if CancelIn(orders, b, id).broker == b then [] else [Cancelled(id)];
    assert b.events + [] == b.events;
  }

  // --- what rests ---

  // A resting order is a limit order of a priced instrument, and that price does not meet its limit.
  predicate Waits(b: PB.Broker, id: string) {
    id in b.resting ==>
      var intent := b.resting[id];
      && intent.orderType == Limit && intent.instrumentId in b.prices
      && !PB.LimitMet(intent, b.prices[intent.instrumentId])
  }

  lemma PriceKeepsWaiting(b: PB.Broker, instrument: nat, price: i64)
    requires forall id :: Waits(b, id)
    ensures forall id :: Waits(PB.SetPrice(b, instrument, price), id)
  {
    hide PB.SetPrice, PB.LimitMet;
    if price > 0 {
      var ids := PB.PriceMoveFillsExactly(b, instrument, price);
      var after := PB.SetPrice(b, instrument, price);
      forall id
        ensures Waits(after, id)
      {
        assert Waits(b, id);
        assert !PB.Struck(b, id, instrument, price) ==> PB.SameStanding(b, after, id);
      }
    } else {
      NoPrice(b, instrument, price);
    }
  }

  lemma NoPrice(b: PB.Broker, instrument: nat, price: i64)
    requires price <= 0
    ensures PB.SetPrice(b, instrument, price) == b
  {
  }

  lemma SendKeepsWaiting(b: PB.Broker, intent: OrderIntent)
    requires forall id :: Waits(b, id)
    ensures forall id :: Waits(PB.Send(b, intent), id)
  {
    hide PB.Send, PB.LimitMet;
    PB.SendExactly(b, intent);
    var after := PB.Send(b, intent);
    forall id
      ensures Waits(after, id)
    {
      assert Waits(b, id);
      assert after != b && id != intent.clientOrderId ==> PB.SameStanding(b, after, id);
    }
  }

  // In every run, no price that would fill a resting order is ever missed, when it comes or when the order does.
  lemma {:induction false} NothingIsMissed(ops: seq<Op>)
    ensures forall id :: Waits(Run(ops).broker, id)
  {
    hide PB.SetPrice, PB.Send, PB.SendError, OB.LegalTransition, Waits;
    if ops == [] {
      NothingWaits();
    } else {
      var s := Run(ops[..|ops| - 1]);
      NothingIsMissed(ops[..|ops| - 1]);
      match ops[|ops| - 1] {
        case SetPrice(instrument, price) => PriceKeepsWaiting(s.broker, instrument, price);
        case Submit(intent) =>
          SubmitEffect(s, intent);
          SendKeepsWaiting(s.broker, intent);
        case CancelOrder(id) => CancelKeepsWaiting(s.orders, s.broker, id);
        case Drain => SameWaiting(s.broker, s.broker.(events := []));
        case Deliver =>
      }
    }
  }

  lemma NothingWaits()
    ensures forall id :: Waits(START.broker, id)
  {
  }

  lemma CancelKeepsWaiting(orders: OB.Orders, b: PB.Broker, id: string)
    requires forall other :: Waits(b, other)
    ensures forall other :: Waits(CancelIn(orders, b, id).broker, other)
  {
    hide OB.LegalTransition, PB.LimitMet;
    forall other
      ensures Waits(CancelIn(orders, b, id).broker, other)
    {
      assert Waits(b, other);
    }
  }

  lemma SameWaiting(b: PB.Broker, c: PB.Broker)
    requires c.prices == b.prices && c.resting == b.resting && forall id :: Waits(b, id)
    ensures forall id :: Waits(c, id)
  {
    forall id
      ensures Waits(c, id)
    {
      assert Waits(b, id);
    }
  }

  // No order both rests and is finished.
  lemma RestingIsUnfinished(ops: seq<Op>, id: string)
    ensures var b := Run(ops).broker; id in b.resting ==> id in b.seen && b.seen[id].Ack?
  {
    RunKeeps(ops);
    if id in Run(ops).broker.resting {
      RestingIsWorking(Run(ops), id);
    }
  }

  // Once nothing is in flight, book and broker agree on every order.
  lemma DrainedAgree(ops: seq<Op>, id: string)
    requires InFlight(Run(ops)) == [] && id in Run(ops).orders
    ensures var s := Run(ops); var record := s.orders[id];
            && record.filledQuantityTicks == BrokerFilled(s.broker, id)
            && (record.intent.state == FullyFilled <==> id in s.broker.seen && s.broker.seen[id].Fill?)
            && (record.intent.state == CancelledOrder <==> id in s.broker.seen && s.broker.seen[id].Cancelled?)
            && (record.intent.state == Acknowledged <==> id in s.broker.resting)
            && (record.intent.state == Unknown <==> id !in s.broker.seen)
  {
    RunKeeps(ops);
    assert Mine(InFlight(Run(ops)), id) == [];
    assert Consistent(Run(ops).orders[id], Run(ops).broker, id, []);
  }

  // What the broker answers when asked for one order.
  function Reconciled(b: PB.Broker, id: string): Option<BrokerEvent> {
    if id in b.seen then Some(b.seen[id]) else None
  }

  // Asked for an order that rests, with nothing in flight, the broker names an id the book refuses; only
  // the last id there is, which the counter repeats, is answered as it was acknowledged.
  lemma RestingIsMisremembered(ops: seq<Op>, id: string)
    requires InFlight(Run(ops)) == [] && id in Run(ops).broker.resting
    ensures id in Run(ops).orders && Reconciled(Run(ops).broker, id).Some?
    ensures var s := Run(ops);
            OB.ApplyEvent(s.orders, Reconciled(s.broker, id).value) ==
              OB.Booked(s.orders, if s.orders[id].brokerOrderId == Some(PB.OrderId(U64_MAX)) then None
                                  else Some(OB.MismatchedOrder))
  {
    hide PB.OrderId;
    RunKeeps(ops);
    var s := Run(ops);
    var record := s.orders[id];
    assert Mine(InFlight(s), id) == [];
    assert Consistent(record, s.broker, id, []);
    var n: u64 :| record.brokerOrderId == Some(PB.OrderId(n)) && s.broker.seen[id] == Ack(id, PB.OrderId(PB.NextId(n)));
    PB.OrderIdInjective(n, U64_MAX);
    PB.OrderIdInjective(n, PB.NextId(n));
    assert s.orders == s.orders[id := record];
  }

  // --- positions ---

  function BookSum(orders: OB.Orders, ids: seq<string>, instrument: nat): int
    requires forall id | id in ids :: id in orders
    decreases |ids|
  {
    if ids == [] then 0 else
    var record := orders[ids[0]];
    var filled: int := record.filledQuantityTicks;
    (if record.intent.instrumentId != instrument then 0 else if record.intent.side == Buy then filled else -filled)
      + BookSum(orders, ids[1..], instrument)
  }

  // The signed fills of the whole book in one instrument.
  function BookPosition(orders: OB.Orders, instrument: nat): int {
    BookSum(orders, Ordered.Sorted(orders.Keys), instrument)
  }

  function BrokerSum(b: PB.Broker, ids: seq<string>, instrument: nat): int
    requires forall id | id in ids :: id in b.seen
    decreases |ids|
  {
    if ids == [] then 0 else
    (if b.seen[ids[0]].Fill? && ids[0] in b.accepted && b.accepted[ids[0]].instrumentId == instrument
     then PB.SignedFill(b, ids[0]) else 0)
      + BrokerSum(b, ids[1..], instrument)
  }

  lemma {:induction false} PositionsAdd(b: PB.Broker, ids: seq<string>, sums: map<nat, i64>, instrument: nat)
    requires forall id | id in ids :: id in b.seen && (b.seen[id].Fill? ==> id in b.accepted)
    ensures var added := PB.Positions(b, ids, sums);
            if added.Ok? then
              PB.Position(added.value, instrument) == PB.Position(sums, instrument) + BrokerSum(b, ids, instrument)
            else added.error == PB.PositionOverflow
    decreases |ids|
  {
    if ids != [] {
      if b.seen[ids[0]].Fill? {
        var traded := b.accepted[ids[0]].instrumentId;
        var sum := PB.Position(sums, traded) + PB.SignedFill(b, ids[0]);
        if I64_MIN <= sum <= I64_MAX {
          PositionsAdd(b, ids[1..], sums[traded := sum], instrument);
        }
      } else {
        PositionsAdd(b, ids[1..], sums, instrument);
      }
    }
  }

  predicate Distinct(ids: seq<string>) {
    forall i, j | 0 <= i < j < |ids| :: ids[i] != ids[j]
  }

  lemma {:induction false} BookSumWithout(orders: OB.Orders, ids: seq<string>, j: nat, instrument: nat)
    requires forall id | id in ids :: id in orders
    requires j < |ids|
    ensures forall id | id in ids[..j] + ids[j + 1..] :: id in orders
    ensures BookSum(orders, ids, instrument)
         == BookSum(orders, [ids[j]], instrument) + BookSum(orders, ids[..j] + ids[j + 1..], instrument)
    decreases |ids|
  {
    assert forall id | id in ids[..j] + ids[j + 1..] :: id in ids;
    if j == 0 {
      assert ids[..0] + ids[1..] == ids[1..];
    } else {
      BookSumWithout(orders, ids[1..], j - 1, instrument);
      assert (ids[..j] + ids[j + 1..])[1..] == ids[1..][..j - 1] + ids[1..][j..];
    }
  }

  lemma NoneOutside(ids: seq<string>, all: seq<string>)
    requires forall id | id in ids :: id in all
    ensures all == [] ==> ids == []
  {
    assert ids != [] ==> ids[0] in ids;
  }

  // Orders without fills do not matter to the sum, and neither does the order of the others.
  lemma {:induction false} BookSumOfSome(orders: OB.Orders, all: seq<string>, some: seq<string>, instrument: nat)
    requires forall id | id in all :: id in orders
    requires forall id | id in some :: id in all
    requires Distinct(all) && Distinct(some)
    requires forall id | id in all && id !in some :: orders[id].filledQuantityTicks == 0
    ensures BookSum(orders, all, instrument) == BookSum(orders, some, instrument)
    decreases |all|
  {
    if all == [] {
      NoneOutside(some, []);
    } else if all[0] !in some {
      forall id | id in some
        ensures id in all[1..]
      {
      }
      BookSumOfSome(orders, all[1..], some, instrument);
    } else {
      var j :| 0 <= j < |some| && some[j] == all[0];
      var rest := some[..j] + some[j + 1..];
      BookSumWithout(orders, some, j, instrument);
      Removed(some, j);
      forall id | id in rest
        ensures id in all[1..]
      {
        assert id in some && id != all[0];
      }
      BookSumOfSome(orders, all[1..], rest, instrument);
      assert BookSum(orders, [all[0]], instrument) + BookSum(orders, all[1..], instrument)
        == BookSum(orders, all, instrument);
    }
  }

  lemma Removed(ids: seq<string>, j: nat)
    requires Distinct(ids) && j < |ids|
    ensures Distinct(ids[..j] + ids[j + 1..])
    ensures forall id :: id in ids[..j] + ids[j + 1..] <==> id in ids && id != ids[j]
  {
    forall id | id in ids && id != ids[j]
      ensures id in ids[..j] + ids[j + 1..]
    {
      var k :| 0 <= k < |ids| && ids[k] == id;
      assert if k < j then (ids[..j] + ids[j + 1..])[k] == id else (ids[..j] + ids[j + 1..])[k - 1] == id;
    }
  }

  lemma {:induction false} SumsAgree(s: System, ids: seq<string>, instrument: nat)
    requires Inv(s) && InFlight(s) == []
    requires forall id | id in ids :: id in s.broker.seen
    ensures forall id | id in ids :: id in s.orders
    ensures BookSum(s.orders, ids, instrument) == BrokerSum(s.broker, ids, instrument)
    decreases |ids|
  {
    if ids != [] {
      assert Consistent(s.orders[ids[0]], s.broker, ids[0], []);
      SumsAgree(s, ids[1..], instrument);
    }
  }

  // Adding the orders up one by one, from some amount on, never leaves the range of an i64.
  predicate RunningFits(orders: OB.Orders, ids: seq<string>, instrument: nat, start: int)
    requires forall id | id in ids :: id in orders
  {
    forall k | 0 <= k <= |ids| :: I64_MIN <= start + BookSum(orders, ids[..k], instrument) <= I64_MAX
  }

  lemma BookSumFirst(orders: OB.Orders, ids: seq<string>, instrument: nat, k: nat)
    requires forall id | id in ids :: id in orders
    requires 0 < k <= |ids|
    ensures BookSum(orders, ids[..k], instrument)
              == BookSum(orders, ids[..1], instrument) + BookSum(orders, ids[1..][..k - 1], instrument)
  {
    assert ids[..k][1..] == ids[1..][..k - 1] && ids[..1][1..] == [];
    assert ids[..k][0] == ids[0] == ids[..1][0];
    assert BookSum(orders, [], instrument) == 0;
  }

  lemma RunningStep(orders: OB.Orders, ids: seq<string>, instrument: nat, start: int)
    requires forall id | id in ids :: id in orders
    requires ids != [] && I64_MIN <= start <= I64_MAX
    ensures RunningFits(orders, ids, instrument, start)
       <==> RunningFits(orders, ids[1..], instrument, start + BookSum(orders, ids[..1], instrument))
  {
    hide BookSum;
    var rest, next := ids[1..], start + BookSum(orders, ids[..1], instrument);
    forall k | 0 < k <= |ids|
      ensures start + BookSum(orders, ids[..k], instrument) == next + BookSum(orders, rest[..k - 1], instrument)
    {
      BookSumFirst(orders, ids, instrument, k);
    }
    if RunningFits(orders, ids, instrument, start) {
      forall k | 0 <= k <= |rest|
        ensures I64_MIN <= next + BookSum(orders, rest[..k], instrument) <= I64_MAX
      {
        assert next + BookSum(orders, rest[..k], instrument) == start + BookSum(orders, ids[..k + 1], instrument);
      }
    }
    assert BookSum(orders, ids[..0], instrument) == 0 by { NoSum(orders, ids, instrument); }
  }

  lemma NoSum(orders: OB.Orders, ids: seq<string>, instrument: nat)
    requires forall id | id in ids :: id in orders
    ensures BookSum(orders, ids[..0], instrument) == 0
  {
  }

  // What one order adds to the broker's position.
  function Share(b: PB.Broker, id: string, instrument: nat): int
    requires id in b.seen && id in b.accepted
  {
    if b.seen[id].Fill? && b.accepted[id].instrumentId == instrument then PB.SignedFill(b, id) else 0
  }

  lemma ShareStep(s: System, ids: seq<string>, instrument: nat, start: i64)
    requires Inv(s) && InFlight(s) == [] && ids != []
    requires forall id | id in ids :: id in s.broker.seen && id in s.orders && id in s.broker.accepted
    ensures RunningFits(s.orders, ids, instrument, start)
       <==> RunningFits(s.orders, ids[1..], instrument, start + Share(s.broker, ids[0], instrument))
  {
    hide Inv, RunningFits, BookSum;
    assert forall id | id in ids[..1] :: id in ids;
    SumsAgree(s, ids[..1], instrument);
    RunningStep(s.orders, ids, instrument, start);
    assert ids[..1][1..] == [] && BrokerSum(s.broker, [], instrument) == 0;
  }

  // In every instrument, the running sums from the given positions on stay in range.
  ghost predicate AllFit(orders: OB.Orders, ids: seq<string>, sums: map<nat, i64>)
    requires forall id | id in ids :: id in orders
  {
    forall instrument: nat :: RunningFits(orders, ids, instrument, PB.Position(sums, instrument))
  }

  lemma FitsAfterOne(s: System, ids: seq<string>, sums: map<nat, i64>, next: map<nat, i64>)
    requires Inv(s) && InFlight(s) == [] && ids != []
    requires forall id | id in ids :: id in s.broker.seen && id in s.orders && id in s.broker.accepted
    requires forall instrument: nat ::
               PB.Position(next, instrument) == PB.Position(sums, instrument) + Share(s.broker, ids[0], instrument)
    ensures AllFit(s.orders, ids, sums) <==> AllFit(s.orders, ids[1..], next)
  {
    hide Inv, RunningFits, InFlight, Share;
    forall instrument: nat
      ensures RunningFits(s.orders, ids, instrument, PB.Position(sums, instrument))
         <==> RunningFits(s.orders, ids[1..], instrument, PB.Position(next, instrument))
    {
      ShareStep(s, ids, instrument, PB.Position(sums, instrument));
    }
    if AllFit(s.orders, ids, sums) {
      forall instrument: nat
        ensures RunningFits(s.orders, ids[1..], instrument, PB.Position(next, instrument))
      {
        assert RunningFits(s.orders, ids, instrument, PB.Position(sums, instrument));
      }
    }
    if AllFit(s.orders, ids[1..], next) {
      forall instrument: nat
        ensures RunningFits(s.orders, ids, instrument, PB.Position(sums, instrument))
      {
        assert RunningFits(s.orders, ids[1..], instrument, PB.Position(next, instrument));
      }
    }
  }

  // The broker's checked sums stay in range exactly when the book's do.
  lemma {:induction false} PositionsFit(s: System, ids: seq<string>, sums: map<nat, i64>)
    requires Inv(s) && InFlight(s) == []
    requires forall id | id in ids :: id in s.broker.seen && id in s.orders && id in s.broker.accepted
    ensures PB.Positions(s.broker, ids, sums).Ok? <==> AllFit(s.orders, ids, sums)
    decreases |ids|
  {
    hide Inv, RunningFits, InFlight, AllFit;
    var b := s.broker;
    if ids == [] {
      NothingRuns(s.orders, sums);
    } else if !b.seen[ids[0]].Fill? {
      PositionsFit(s, ids[1..], sums);
      FitsAfterOne(s, ids, sums, sums);
    } else {
      var traded := b.accepted[ids[0]].instrumentId;
      var sum := PB.Position(sums, traded) + PB.SignedFill(b, ids[0]);
      if I64_MIN <= sum <= I64_MAX {
        PositionsFit(s, ids[1..], sums[traded := sum]);
        FitsAfterOne(s, ids, sums, sums[traded := sum]);
      } else {
        LeavesRange(s, ids, sums, traded);
      }
    }
  }

  lemma LeavesRange(s: System, ids: seq<string>, sums: map<nat, i64>, traded: nat)
    requires Inv(s) && InFlight(s) == [] && ids != []
    requires forall id | id in ids :: id in s.broker.seen && id in s.orders && id in s.broker.accepted
    requires !(I64_MIN <= PB.Position(sums, traded) + Share(s.broker, ids[0], traded) <= I64_MAX)
    ensures !AllFit(s.orders, ids, sums)
  {
    hide Inv, RunningFits, InFlight, Share;
    ShareStep(s, ids, traded, PB.Position(sums, traded));
    OutOfRange(s.orders, ids[1..], traded, PB.Position(sums, traded) + Share(s.broker, ids[0], traded));
  }

  lemma NothingRuns(orders: OB.Orders, sums: map<nat, i64>)
    ensures AllFit(orders, [], sums)
  {
  }

  lemma OutOfRange(orders: OB.Orders, ids: seq<string>, instrument: nat, start: int)
    requires forall id | id in ids :: id in orders
    requires !(I64_MIN <= start <= I64_MAX)
    ensures !RunningFits(orders, ids, instrument, start)
  {
    assert BookSum(orders, ids[..0], instrument) == 0;
  }

  // Orders without fills do not matter to the running sums either.
  lemma {:induction false} RunningOfSome(orders: OB.Orders, all: seq<string>, some: seq<string>, instrument: nat,
    start: i64)
    requires forall id | id in all :: id in orders
    requires forall id | id in some :: id in all
    requires Ordered.Ascending(all) && Ordered.Ascending(some)
    requires forall id | id in all && id !in some :: orders[id].filledQuantityTicks == 0
    ensures RunningFits(orders, all, instrument, start) <==> RunningFits(orders, some, instrument, start)
    decreases |all|
  {
    hide RunningFits;
    if all == [] {
      NoneOutside(some, []);
    } else {
      var id := all[0];
      assert id in all && all[..1] == [id] && [id][1..] == [];
      RunningStep(orders, all, instrument, start);
      var next := start + BookSum(orders, all[..1], instrument);
      assert all == [id] + all[1..];
      if id !in some {
        assert next == start;
        RunningOfSome(orders, all[1..], some, instrument, start);
      } else {
        LeastIsFirst(all, some);
        assert some[..1] == [id] && some == [id] + some[1..];
        RunningStep(orders, some, instrument, start);
        RestIsInRest(all, some);
        if I64_MIN <= next <= I64_MAX {
          RunningOfSome(orders, all[1..], some[1..], instrument, next);
        } else {
          OutOfRange(orders, all[1..], instrument, next);
          OutOfRange(orders, some[1..], instrument, next);
        }
      }
    }
  }

  lemma LeastIsFirst(all: seq<string>, some: seq<string>)
    requires Ordered.Ascending(all) && Ordered.Ascending(some)
    requires all != [] && all[0] in some && forall id | id in some :: id in all
    ensures some[0] == all[0]
  {
    hide Ordered.Less;
    var i :| 0 <= i < |some| && some[i] == all[0];
    if i > 0 {
      assert some[0] in some;
      var j :| 0 <= j < |all| && all[j] == some[0];
      Ordered.Trichotomy(all[0], all[j]);
    }
  }

  lemma RestIsInRest(all: seq<string>, some: seq<string>)
    requires Ordered.Ascending(all) && Ordered.Ascending(some)
    requires all != [] && some != [] && some[0] == all[0] && forall id | id in some :: id in all
    ensures forall id | id in some[1..] :: id in all[1..]
    ensures forall id | id in all[1..] && id !in some[1..] :: id in all && id !in some
  {
    Ordered.AscendingIsDistinct(all);
    Ordered.AscendingIsDistinct(some);
    forall id | id in some[1..]
      ensures id in all[1..]
    {
      assert id in some && id in all && id != all[0];
    }
    forall id | id in all[1..] && id !in some[1..]
      ensures id in all && id !in some
    {
      assert id != all[0];
    }
  }

  lemma SnapshotPositions(b: PB.Broker)
    ensures var sums := PB.Positions(b, Ordered.Sorted(b.seen.Keys), map[]);
            match PB.Snapshot(b)
            case Ok(snapshot) =>
              sums.Ok? && forall instrument: nat ::
                && PB.Position(snapshot.positions, instrument) == PB.Position(sums.value, instrument)
                && (instrument in snapshot.positions <==> PB.Position(sums.value, instrument) != 0)
            case Err(error) => sums == Err(error)
  {
    hide PB.Positions, PB.Lines;
  }

  // Both sides add up the same, in every instrument, over all orders or over those the broker knows.
  lemma InstrumentAgrees(s: System, instrument: nat)
    requires Inv(s) && InFlight(s) == []
    ensures forall id | id in s.broker.seen :: id in s.orders
    ensures var all, some := Ordered.Sorted(s.orders.Keys), Ordered.Sorted(s.broker.seen.Keys);
            && (RunningFits(s.orders, all, instrument, 0) <==> RunningFits(s.orders, some, instrument, 0))
            && var sums := PB.Positions(s.broker, some, map[]);
            if sums.Ok? then PB.Position(sums.value, instrument) == BookPosition(s.orders, instrument)
            else sums.error == PB.PositionOverflow
  {
    hide RunningFits, Inv, BookSum, PB.Positions, InFlight;
    var all, some := Ordered.Sorted(s.orders.Keys), Ordered.Sorted(s.broker.seen.Keys);
    FilledIsAccepted(s);
    UnseenIsUnfilled(s);
    Ordered.AscendingIsDistinct(all);
    Ordered.AscendingIsDistinct(some);
    PositionsAdd(s.broker, some, map[], instrument);
    SumsAgree(s, some, instrument);
    BookSumOfSome(s.orders, all, some, instrument);
    RunningOfSome(s.orders, all, some, instrument, 0);
  }

  // Once nothing is in flight, the snapshot succeeds exactly when in every instrument the book's signed
  // fills, added up order by order, never leave the range of an i64; its positions are then their sums.
  lemma SnapshotIsTheBook(ops: seq<Op>)
    requires InFlight(Run(ops)) == []
    ensures var orders := Run(ops).orders;
            match PB.Snapshot(Run(ops).broker)
            case Ok(snapshot) =>
              forall instrument: nat ::
                && RunningFits(orders, Ordered.Sorted(orders.Keys), instrument, 0)
                && PB.Position(snapshot.positions, instrument) == BookPosition(orders, instrument)
                && (instrument in snapshot.positions <==> BookPosition(orders, instrument) != 0)
            case Err(error) =>
              && error == PB.PositionOverflow
              && exists instrument: nat :: !RunningFits(orders, Ordered.Sorted(orders.Keys), instrument, 0)
  {
    hide RunningFits, Inv, InFlight, PB.Positions, PB.Snapshot, BookPosition, Run, Ordered.Sorted;
    var s := Run(ops);
    var all, some := Ordered.Sorted(s.orders.Keys), Ordered.Sorted(s.broker.seen.Keys);
    RunKeeps(ops);
    FilledIsAccepted(s);
    SnapshotPositions(s.broker);
    PositionsFit(s, some, map[]);
    forall instrument: nat
      ensures RunningFits(s.orders, all, instrument, 0)
         <==> RunningFits(s.orders, some, instrument, PB.Position(map[], instrument))
      ensures var sums := PB.Positions(s.broker, some, map[]);
              if sums.Ok? then PB.Position(sums.value, instrument) == BookPosition(s.orders, instrument)
              else sums.error == PB.PositionOverflow
    {
      InstrumentAgrees(s, instrument);
      assert PB.Position(map[], instrument) == 0;
    }
  }

  lemma UnseenIsUnfilled(s: System)
    requires Inv(s) && InFlight(s) == []
    ensures forall id | id in s.orders && id !in s.broker.seen :: s.orders[id].filledQuantityTicks == 0
  {
    forall id | id in s.orders && id !in s.broker.seen
      ensures s.orders[id].filledQuantityTicks == 0
    {
      assert Consistent(s.orders[id], s.broker, id, Mine([], id));
    }
  }

  // And its orders are the book's: one line for each order the broker knows, with the cumulative count
  // the book already has.
  lemma SnapshotOrdersAreTheBook(ops: seq<Op>, id: string)
    requires InFlight(Run(ops)) == [] && PB.Snapshot(Run(ops).broker).Ok? && id in Run(ops).orders
    ensures var s := Run(ops); var record := s.orders[id]; var lines := PB.Snapshot(s.broker).value.orders;
            && (id in s.broker.seen <==> exists i :: 0 <= i < |lines| && lines[i].clientOrderId == id)
            && (forall i | 0 <= i < |lines| && lines[i].clientOrderId == id ::
                  && lines[i].event == s.broker.seen[id]
                  && (lines[i].filledQuantityTicks.Some? <==> record.intent.state == FullyFilled)
                  && (lines[i].filledQuantityTicks.Some? ==>
                        OB.ApplyCumulative(record, lines[i].filledQuantityTicks.value) == OB.Outcome(record, None)))
  {
    hide Inv, InFlight, Run, PB.Snapshot, OB.ApplyCumulative, BrokerFilled, PB.Lines, Ordered.Sorted;
    var s := Run(ops);
    DrainedAgree(ops, id);
    SnapshotLines(s.broker);
    LinesTell(s.broker.seen, Ordered.Sorted(s.broker.seen.Keys), id);
    if id in s.broker.seen && s.broker.seen[id].Fill? {
      FillIsWhole(ops, id);
      CountIsKnown(s.orders[id], s.broker.seen[id].quantityTicks);
    }
  }

  lemma LinesTell(seen: map<string, BrokerEvent>, ids: seq<string>, id: string)
    requires forall x :: x in ids <==> x in seen
    ensures var lines := PB.Lines(seen, ids);
            && (id in seen <==> exists i :: 0 <= i < |lines| && lines[i].clientOrderId == id)
            && (id in seen ==>
                  forall i | 0 <= i < |lines| && lines[i].clientOrderId == id :: lines[i] == PB.LineOf(id, seen[id]))
  {
    var lines := PB.Lines(seen, ids);
    assert forall i | 0 <= i < |ids| :: lines[i].clientOrderId == ids[i] && ids[i] in ids;
    if id in seen {
      var i :| 0 <= i < |ids| && ids[i] == id;
      assert lines[i].clientOrderId == id;
    }
  }

  lemma SnapshotLines(b: PB.Broker)
    requires PB.Snapshot(b).Ok?
    ensures PB.Snapshot(b).value.orders == PB.Lines(b.seen, Ordered.Sorted(b.seen.Keys))
  {
    hide PB.Positions, PB.Lines;
  }

  lemma CountIsKnown(record: OB.OrderRecord, total: i64)
    requires record.filledQuantityTicks == total <= record.intent.quantityTicks
    ensures OB.ApplyCumulative(record, total) == OB.Outcome(record, None)
  {
  }

  lemma FillIsWhole(ops: seq<Op>, id: string)
    requires InFlight(Run(ops)) == [] && id in Run(ops).orders && id in Run(ops).broker.seen
               && Run(ops).broker.seen[id].Fill?
    ensures var record := Run(ops).orders[id];
            record.filledQuantityTicks == Run(ops).broker.seen[id].quantityTicks <= record.intent.quantityTicks
  {
    RunKeeps(ops);
    assert Mine(InFlight(Run(ops)), id) == [];
    assert Consistent(Run(ops).orders[id], Run(ops).broker, id, []);
  }

  lemma FilledIsAccepted(s: System)
    requires Inv(s)
    ensures forall id | id in s.broker.seen :: id in s.orders && id in s.broker.accepted
  {
    forall id | id in s.broker.seen
      ensures id in s.broker.accepted
    {
      assert Consistent(s.orders[id], s.broker, id, Mine(InFlight(s), id));
    }
  }
}
