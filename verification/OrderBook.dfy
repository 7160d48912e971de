/** The locally authoritative order records of crates/execution and their lifecycle. */
module OrderBook {
  import opened Wrappers
  import opened Bytes
  import opened BrokerApi

  datatype OrderRecord = OrderRecord(intent: OrderIntent, brokerOrderId: Option<string>, filledQuantityTicks: i64)

  datatype TransitionError =
    | UnknownOrder
    | InvalidTransition(from: OrderState, to: OrderState)
    | MismatchedOrder

  type Orders = map<string, OrderRecord>

  predicate LegalTransition(from: OrderState, to: OrderState) {
    match from
    case RiskApproved => to in {Queued, Sending, Acknowledged, PartiallyFilled, FullyFilled, RejectedOrder,
      CancelledOrder, Unknown}
    case Queued => to in {Sending, Unknown}
    case Sending => to in {Sent, Unknown}
    case Sent => to in {Acknowledged, PartiallyFilled, FullyFilled, RejectedOrder, Unknown}
    case ReplacePending => to in {Acknowledged, PartiallyFilled, FullyFilled, RejectedOrder, Unknown}
    case Acknowledged => to in {PartiallyFilled, FullyFilled, CancelPending, RejectedOrder, Unknown}
    case PartiallyFilled => to in {PartiallyFilled, FullyFilled, CancelPending, Unknown}
    case CancelPending => to in {CancelledOrder, FullyFilled, Unknown}
    case Unknown => to in {Acknowledged, RejectedOrder, PartiallyFilled, FullyFilled, CancelledOrder}
    case _ => false
  }

  // A record after an operation, and the error if the operation was refused. A refused operation may
  // still have changed the record.
  datatype Outcome = Outcome(record: OrderRecord, error: Option<TransitionError>)

  function Move(r: OrderRecord, next: OrderState): Outcome {
    if LegalTransition(r.intent.state, next)
    then Outcome(r.(intent := r.intent.(state := next)), None)
    else Outcome(r, Some(InvalidTransition(r.intent.state, next)))
  }

  function Apply(r: OrderRecord, event: BrokerEvent): Outcome {
    match event
    case Ack(_, brokerOrderId) =>
      if r.intent.state in {Acknowledged, PartiallyFilled, FullyFilled, CancelPending, CancelledOrder,
        RejectedOrder} then
        Outcome(r, if r.brokerOrderId == Some(brokerOrderId) then None else Some(MismatchedOrder))
      else
        Move(r.(brokerOrderId := Some(brokerOrderId)), Acknowledged)
    case Fill(_, quantity, price) =>
      if quantity <= 0 || price <= 0 then Outcome(r, Some(MismatchedOrder))
      else if r.intent.state == FullyFilled then Outcome(r, None)
      else
        var next := r.filledQuantityTicks + quantity;
        if next > I64_MAX || next > r.intent.quantityTicks then Outcome(r, Some(MismatchedOrder))
        else Move(r.(filledQuantityTicks := next), if next >= r.intent.quantityTicks then FullyFilled
          else PartiallyFilled)
    case Reject(_, _) =>
      if r.intent.state == RejectedOrder then Outcome(r, None) else Move(r, RejectedOrder)
    case Cancelled(_) =>
      if r.intent.state == CancelledOrder then Outcome(r, None) else Move(r, CancelledOrder)
  }

  // A broker's cumulative count, as an account snapshot reports it.
  function ApplyCumulative(r: OrderRecord, total: i64): Outcome {
    if total < r.filledQuantityTicks || total > r.intent.quantityTicks then Outcome(r, Some(MismatchedOrder))
    else if total == r.filledQuantityTicks then Outcome(r, None)
    else
      var moved := Move(r, if total >= r.intent.quantityTicks then FullyFilled else PartiallyFilled);
      if moved.error.Some? then moved else moved.(record := moved.record.(filledQuantityTicks := total))
  }

  // --- the lifecycle, state by state ---

  // Where an order may come from when it enters a state.
  predicate Enters(next: OrderState, from: OrderState) {
    match next
    case Queued => from == RiskApproved
    case Sending => from == RiskApproved || from == Queued
    case Sent => from == Sending
    case Acknowledged => from == RiskApproved || from == Sent || from == ReplacePending || from == Unknown
    case PartiallyFilled => Fillable(from)
    case FullyFilled => Fillable(from) || from == CancelPending
    case CancelPending => from == Acknowledged || from == PartiallyFilled
    case CancelledOrder => from == RiskApproved || from == CancelPending || from == Unknown
    case RejectedOrder =>
      from == RiskApproved || from == Sent || from == ReplacePending || from == Acknowledged || from == Unknown
    case Unknown => from == Queued || from == Sending || from == CancelPending || (Fillable(from) && from != Unknown)
    case _ => false
  }

  predicate Fillable(state: OrderState) {
    || state == RiskApproved || state == Sent || state == ReplacePending || state == Acknowledged
    || state == PartiallyFilled || state == Unknown
  }

  lemma MovesExactly(r: OrderRecord, next: OrderState)
    ensures Move(r, next) ==
              if Enters(next, r.intent.state) then Outcome(r.(intent := r.intent.(state := next)), None)
              else Outcome(r, Some(InvalidTransition(r.intent.state, next)))
  {
  }

  // States an acknowledgement finds already acknowledged.
  predicate PastAck(state: OrderState) {
    || state == Acknowledged || state == PartiallyFilled || state == FullyFilled || state == CancelPending
    || state == CancelledOrder || state == RejectedOrder
  }

  // Exactly which broker events are accepted, and what they leave.
  lemma EventExactly(r: OrderRecord, e: BrokerEvent)
    ensures var state := r.intent.state;
            Apply(r, e).error.None? <==>
              match e
              case Ack(_, id) => if PastAck(state) then r.brokerOrderId == Some(id) else Enters(Acknowledged, state)
              case Fill(_, quantity, price) =>
                && quantity > 0 && price > 0
                && (state == FullyFilled
                    || (r.filledQuantityTicks + quantity < r.intent.quantityTicks && Fillable(state))
                    || (r.filledQuantityTicks + quantity == r.intent.quantityTicks && Enters(FullyFilled, state)))
              case Reject(_, _) => state == RejectedOrder || Enters(RejectedOrder, state)
              case Cancelled(_) => state == CancelledOrder || Enters(CancelledOrder, state)
    ensures Apply(r, e).error.None? ==>
              Apply(r, e).record ==
                match e
                case Ack(_, id) => if PastAck(r.intent.state) then r else
                  r.(brokerOrderId := Some(id), intent := r.intent.(state := Acknowledged))
                case Fill(_, quantity, _) =>
                  if r.intent.state == FullyFilled then r else
                  var filled := r.filledQuantityTicks + quantity;
                  r.(filledQuantityTicks := filled, intent := r.intent.(state :=
                    if filled == r.intent.quantityTicks then FullyFilled else PartiallyFilled))
                case Reject(_, _) => r.(intent := r.intent.(state := RejectedOrder))
                case Cancelled(_) => r.(intent := r.intent.(state := CancelledOrder))
  {
    hide Move, Enters, LegalTransition, Fillable;
    FinalStates(r.intent.state);
    match e
    case Ack(_, id) => MovesExactly(r.(brokerOrderId := Some(id)), Acknowledged);
    case Fill(_, _, _) =>
      if e.quantityTicks > 0 && e.priceTicks > 0 && r.intent.state != FullyFilled {
        FillExactly(r, e);
      }
    case Reject(_, _) => MovesExactly(r, RejectedOrder);
    case Cancelled(_) => MovesExactly(r, CancelledOrder);
  }

  lemma FinalStates(state: OrderState)
    ensures PastAck(state) ==> !Enters(Acknowledged, state)
    ensures !Enters(PartiallyFilled, FullyFilled) && !Enters(FullyFilled, FullyFilled)
    ensures Enters(PartiallyFilled, state) <==> Fillable(state)
  {
  }

  lemma FillExactly(r: OrderRecord, e: BrokerEvent)
    requires e.Fill? && e.quantityTicks > 0 && e.priceTicks > 0 && r.intent.state != FullyFilled
    ensures var filled := r.filledQuantityTicks + e.quantityTicks;
            var next := if filled == r.intent.quantityTicks then FullyFilled else PartiallyFilled;
            && (Apply(r, e).error.None? <==> filled <= r.intent.quantityTicks && Enters(next, r.intent.state))
            && (Apply(r, e).error.None? ==>
                  Apply(r, e).record == r.(filledQuantityTicks := filled, intent := r.intent.(state := next)))
  {
    hide Move, LegalTransition, Enters;
    var filled := r.filledQuantityTicks + e.quantityTicks;
    if filled <= r.intent.quantityTicks {
      MovesExactly(r.(filledQuantityTicks := filled),
                   if filled == r.intent.quantityTicks then FullyFilled else PartiallyFilled);
    }
  }

  // --- the book as a value ---

  datatype Booked = Booked(orders: Orders, error: Option<TransitionError>)

  function Insert(orders: Orders, intent: OrderIntent): Booked {
    if intent.state != RiskApproved then Booked(orders, Some(InvalidTransition(intent.state, RiskApproved)))
    else if intent.clientOrderId in orders then Booked(orders, Some(MismatchedOrder))
    else Booked(orders[intent.clientOrderId := OrderRecord(intent, None, 0)], None)
  }

  function Store(orders: Orders, id: string, outcome: Outcome): Booked {
    Booked(orders[id := outcome.record], outcome.error)
  }

  function Transition(orders: Orders, id: string, next: OrderState): Booked {
    if id !in orders then Booked(orders, Some(UnknownOrder)) else Store(orders, id, Move(orders[id], next))
  }

  function ApplyEvent(orders: Orders, event: BrokerEvent): Booked {
    var id := event.clientOrderId;
    if id !in orders then Booked(orders, Some(UnknownOrder)) else Store(orders, id, Apply(orders[id], event))
  }

  function ApplyCumulativeFill(orders: Orders, id: string, total: i64): Booked {
    if id !in orders then Booked(orders, Some(UnknownOrder)) else Store(orders, id, ApplyCumulative(orders[id], total))
  }

  class Book {
    var orders: Orders

    constructor ()
      ensures orders == map[]
    {
      orders := map[];
    }

    method InsertIntent(intent: OrderIntent) returns (error: Option<TransitionError>)
      modifies this
      ensures Booked(orders, error) == Insert(old(orders), intent)
    {
      if intent.state != RiskApproved {
        return Some(InvalidTransition(intent.state, RiskApproved));
      }
      if intent.clientOrderId in orders {
        return Some(MismatchedOrder);
      }
      orders := orders[intent.clientOrderId := OrderRecord(intent, None, 0)];
      return None;
    }

    method Advance(id: string, next: OrderState) returns (error: Option<TransitionError>)
      modifies this
      ensures Booked(orders, error) == Transition(old(orders), id, next)
    {
      if id !in orders {
        return Some(UnknownOrder);
      }
      var record := orders[id];
      if !LegalTransition(record.intent.state, next) {
        assert orders == orders[id := record];
        return Some(InvalidTransition(record.intent.state, next));
      }
      orders := orders[id := record.(intent := record.intent.(state := next))];
      return None;
    }

    method MarkUnknown(id: string) returns (error: Option<TransitionError>)
      modifies this
      ensures Booked(orders, error) == Transition(old(orders), id, Unknown)
    {
      error := Advance(id, Unknown);
    }

    method ApplyBrokerEvent(event: BrokerEvent) returns (error: Option<TransitionError>)
      modifies this
      ensures Booked(orders, error) == ApplyEvent(old(orders), event)
    {
      var id := event.clientOrderId;
      if id !in orders {
        return Some(UnknownOrder);
      }
      var record := orders[id];
      assert orders == orders[id := record];
      match event {
        case Ack(_, brokerOrderId) =>
          if record.intent.state in {Acknowledged, PartiallyFilled, FullyFilled, CancelPending, CancelledOrder,
            RejectedOrder} {
            return if record.brokerOrderId == Some(brokerOrderId) then None else Some(MismatchedOrder);
          }
          orders := orders[id := record.(brokerOrderId := Some(brokerOrderId))];
          error := Advance(id, Acknowledged);
        case Fill(_, quantity, price) =>
          if quantity <= 0 || price <= 0 {
            return Some(MismatchedOrder);
          }
          if record.intent.state == FullyFilled {
            return None;
          }
          var next := record.filledQuantityTicks + quantity;
          if next > I64_MAX || next > record.intent.quantityTicks {
            return Some(MismatchedOrder);
          }
          orders := orders[id := record.(filledQuantityTicks := next)];
          error := Advance(id, if next >= record.intent.quantityTicks then FullyFilled else PartiallyFilled);
        case Reject(_, _) =>
          if record.intent.state != RejectedOrder {
            error := Advance(id, RejectedOrder);
          } else {
            error := None;
          }
        case Cancelled(_) =>
          if record.intent.state != CancelledOrder {
            error := Advance(id, CancelledOrder);
          } else {
            error := None;
          }
      }
    }

    method ApplyCumulativeCount(id: string, total: i64) returns (error: Option<TransitionError>)
      modifies this
      ensures Booked(orders, error) == ApplyCumulativeFill(old(orders), id, total)
    {
      if id !in orders {
        return Some(UnknownOrder);
      }
      var record := orders[id];
      assert orders == orders[id := record];
      if total < record.filledQuantityTicks || total > record.intent.quantityTicks {
        return Some(MismatchedOrder);
      }
      if total == record.filledQuantityTicks {
        return None;
      }
      error := Advance(id, if total >= record.intent.quantityTicks then FullyFilled else PartiallyFilled);
      if error.Some? {
        return;
      }
      orders := orders[id := orders[id].(filledQuantityTicks := total)];
    }
  }

  // --- replay ---

  // The record after a run of events, or nothing if one of them was refused.
  function Replay(r: OrderRecord, events: seq<BrokerEvent>): Option<OrderRecord>
    decreases |events|
  {
    if events == [] then Some(r) else
    var outcome := Apply(r, events[0]);
    if outcome.error.Some? then None else Replay(outcome.record, events[1..])
  }

  function Restarted(r: OrderRecord): OrderRecord {
    r.(intent := r.intent.(state := RiskApproved))
  }

  // Whatever the live order accepted after its send, acknowledged or ambiguous, the persisted
  // risk-approved intent accepts too, and both end in the same record.
  lemma ReplayMatchesLive(live: OrderRecord, events: seq<BrokerEvent>)
    requires live.intent.state in {Sent, Unknown}
    requires events != [] && Replay(live, events).Some?
    ensures Replay(Restarted(live), events) == Replay(live, events)
  {
    assert Apply(Restarted(live), events[0]) == Apply(live, events[0]);
  }

  // --- a live run with local moves in it ---

  // What happens to a live order: a broker event, or a cancel request or an uncertain call on this side.
  datatype LiveStep = Heard(event: BrokerEvent) | CancelAsked | BecameUncertain

  // The record after a run in which nothing was refused.
  function Live(r: OrderRecord, steps: seq<LiveStep>): Option<OrderRecord>
    decreases |steps|
  {
    if steps == [] then Some(r) else
    var outcome :=
      match steps[0]
      case Heard(event) => Apply(r, event)
      case CancelAsked => Move(r, CancelPending)
      case BecameUncertain => Move(r, Unknown);
    if outcome.error.Some? then None else Live(outcome.record, steps[1..])
  }

  function HeardIn(steps: seq<LiveStep>): seq<BrokerEvent> {
    if steps == [] then []
    else (match steps[0] case Heard(event) => [event] case _ => []) + HeardIn(steps[1..])
  }

  // The replayed record agrees up to the local moves, which are not persisted.
  predicate Shadows(live: OrderRecord, replayed: OrderRecord) {
    && replayed.(intent := replayed.intent.(state := live.intent.state)) == live
    && match live.intent.state
       case Sent => replayed.intent.state == RiskApproved
       case Unknown => replayed.intent.state in {RiskApproved, Acknowledged, PartiallyFilled}
       case CancelPending => replayed.intent.state in {Acknowledged, PartiallyFilled}
       case Acknowledged => replayed.intent.state in {Acknowledged, PartiallyFilled}
       case _ =>
         && replayed.intent.state == live.intent.state
         && live.intent.state in {PartiallyFilled, FullyFilled, CancelledOrder, RejectedOrder}
  }

  // Events that the live order may take because of a local move, and the replayed one does not.
  predicate Clashes(replayed: OrderRecord, event: BrokerEvent) {
    match event
    case Cancelled(_) => replayed.intent.state in {Acknowledged, PartiallyFilled}
    case Reject(_, _) => replayed.intent.state == PartiallyFilled
    case Ack(_, brokerOrderId) =>
      replayed.intent.state in {Acknowledged, PartiallyFilled} && replayed.brokerOrderId != Some(brokerOrderId)
    case Fill(_, _, _) => false
  }

  predicate NoClash(replayed: OrderRecord, events: seq<BrokerEvent>)
    decreases |events|
  {
    events == [] || (!Clashes(replayed, events[0]) && NoClash(Apply(replayed, events[0]).record, events[1..]))
  }

  lemma ShadowsEvent(live: OrderRecord, replayed: OrderRecord, event: BrokerEvent)
    requires Shadows(live, replayed) && Apply(live, event).error.None?
    ensures Apply(replayed, event).error.None? <==> !Clashes(replayed, event)
    ensures !Clashes(replayed, event) ==> Shadows(Apply(live, event).record, Apply(replayed, event).record)
  {
  }

  // With cancel requests and uncertain calls in the live run, the persisted intent takes the same broker
  // events exactly when none of them clashes, and then ends in the same record up to those moves.
  lemma {:induction false} ReplayShadowsLive(live: OrderRecord, replayed: OrderRecord, steps: seq<LiveStep>)
    requires Shadows(live, replayed) && Live(live, steps).Some?
    ensures Replay(replayed, HeardIn(steps)).Some? <==> NoClash(replayed, HeardIn(steps))
    ensures Replay(replayed, HeardIn(steps)).Some? ==>
              Shadows(Live(live, steps).value, Replay(replayed, HeardIn(steps)).value)
    decreases |steps|
  {
    hide Apply, Shadows, Clashes, LegalTransition;
    if steps != [] {
      match steps[0]
      case Heard(event) =>
        ShadowsEvent(live, replayed, event);
        assert HeardIn(steps)[1..] == HeardIn(steps[1..]);
        if !Clashes(replayed, event) {
          ReplayShadowsLive(Apply(live, event).record, Apply(replayed, event).record, steps[1..]);
        }
      case CancelAsked =>
        ShadowsMove(live, replayed, CancelPending);
        assert HeardIn(steps) == HeardIn(steps[1..]);
        ReplayShadowsLive(Move(live, CancelPending).record, replayed, steps[1..]);
      case BecameUncertain =>
        ShadowsMove(live, replayed, Unknown);
        assert HeardIn(steps) == HeardIn(steps[1..]);
        ReplayShadowsLive(Move(live, Unknown).record, replayed, steps[1..]);
    }
  }

  lemma ShadowsMove(live: OrderRecord, replayed: OrderRecord, next: OrderState)
    requires Shadows(live, replayed) && next in {CancelPending, Unknown} && Move(live, next).error.None?
    ensures Shadows(Move(live, next).record, replayed)
  {
  }

  lemma SentIsShadowed(live: OrderRecord)
    requires live.intent.state in {Sent, Unknown}
    ensures Shadows(live, Restarted(live))
  {
  }

  lemma LiveFirst(r: OrderRecord, step: LiveStep, rest: seq<LiveStep>, next: OrderRecord)
    requires match step
             case Heard(event) => Apply(r, event) == Outcome(next, None)
             case CancelAsked => Move(r, CancelPending) == Outcome(next, None)
             case BecameUncertain => Move(r, Unknown) == Outcome(next, None)
    ensures Live(r, [step] + rest) == Live(next, rest)
    ensures HeardIn([step] + rest) == (match step case Heard(event) => [event] case _ => []) + HeardIn(rest)
  {
    assert ([step] + rest)[1..] == rest;
  }

  // Acknowledged, asked to cancel, cancelled: the replay stops at the cancellation.
  lemma CancelIsNotReplayed(live: OrderRecord, ack: string)
    requires live.intent.state == Sent
    ensures var id := live.intent.clientOrderId;
            var steps := [Heard(Ack(id, ack)), CancelAsked, Heard(Cancelled(id))];
            && HeardIn(steps) == [Ack(id, ack), Cancelled(id)]
            && Live(live, steps).Some? && Live(live, steps).value.intent.state == CancelledOrder
            && Replay(Restarted(live), HeardIn(steps)).None?
  {
    hide Live, HeardIn, Apply, Replay, NoClash;
    var id := live.intent.clientOrderId;
    var acked := live.(brokerOrderId := Some(ack), intent := live.intent.(state := Acknowledged));
    var pending := acked.(intent := live.intent.(state := CancelPending));
    var done := acked.(intent := live.intent.(state := CancelledOrder));
    ThreeOutcomes(live, ack);
    LiveFirst(live, Heard(Ack(id, ack)), [CancelAsked, Heard(Cancelled(id))], acked);
    LiveFirst(acked, CancelAsked, [Heard(Cancelled(id))], pending);
    LiveFirst(pending, Heard(Cancelled(id)), [], done);
    LiveNothing(done);
    var steps := [Heard(Ack(id, ack)), CancelAsked, Heard(Cancelled(id))];
    assert [Heard(Ack(id, ack))] + [CancelAsked, Heard(Cancelled(id))] == steps;
    assert [CancelAsked] + [Heard(Cancelled(id))] == [CancelAsked, Heard(Cancelled(id))];
    assert [Heard(Cancelled(id))] + [] == [Heard(Cancelled(id))];
    SentIsShadowed(live);
    ReplayShadowsLive(live, Restarted(live), steps);
    AckThenCancelClashes(live, ack);
  }

  lemma LiveNothing(r: OrderRecord)
    ensures Live(r, []) == Some(r) && HeardIn([]) == []
  {
  }

  lemma ThreeOutcomes(live: OrderRecord, ack: string)
    requires live.intent.state == Sent
    ensures var id := live.intent.clientOrderId;
            var acked := live.(brokerOrderId := Some(ack), intent := live.intent.(state := Acknowledged));
            var pending := acked.(intent := live.intent.(state := CancelPending));
            && Apply(live, Ack(id, ack)) == Outcome(acked, None)
            && Apply(Restarted(live), Ack(id, ack)) == Outcome(acked, None)
            && Move(acked, CancelPending) == Outcome(pending, None)
            && Apply(pending, Cancelled(id)) == Outcome(acked.(intent := live.intent.(state := CancelledOrder)), None)
  {
  }

  lemma AckThenCancelClashes(live: OrderRecord, ack: string)
    requires live.intent.state == Sent
    ensures var id := live.intent.clientOrderId; !NoClash(Restarted(live), [Ack(id, ack), Cancelled(id)])
  {
    hide Apply;
    var id := live.intent.clientOrderId;
    ThreeOutcomes(live, ack);
    assert [Ack(id, ack), Cancelled(id)][1..] == [Cancelled(id)];
  }

  // The record after a run, refused steps included.
  function LiveAll(r: OrderRecord, steps: seq<LiveStep>): OrderRecord
    decreases |steps|
  {
    if steps == [] then r else
    var outcome :=
      match steps[0]
      case Heard(event) => Apply(r, event)
      case CancelAsked => Move(r, CancelPending)
      case BecameUncertain => Move(r, Unknown);
    LiveAll(outcome.record, steps[1..])
  }

  // The record after a run of events, refused ones included: a refusal may have changed it too.
  function ApplyAll(r: OrderRecord, events: seq<BrokerEvent>): OrderRecord
    decreases |events|
  {
    if events == [] then r else ApplyAll(Apply(r, events[0]).record, events[1..])
  }

  // A complete order is filled.
  predicate Honest(r: OrderRecord) { r.intent.state == FullyFilled ==> r.filledQuantityTicks >= r.intent.quantityTicks }

  predicate SameCount(a: OrderRecord, b: OrderRecord) {
    && Honest(a) && Honest(b)
    && a.filledQuantityTicks == b.filledQuantityTicks && a.intent.quantityTicks == b.intent.quantityTicks
  }

  lemma EventKeepsCount(a: OrderRecord, b: OrderRecord, event: BrokerEvent)
    requires SameCount(a, b)
    ensures SameCount(Apply(a, event).record, Apply(b, event).record)
  {
  }

  lemma MoveKeepsCount(a: OrderRecord, b: OrderRecord, next: OrderState)
    requires SameCount(a, b) && next != FullyFilled
    ensures SameCount(Move(a, next).record, b)
  {
  }

  // Recovery applies every event that was heard and goes on past refusals: whatever was refused or moved on
  // this side in the live run, it ends with the live order's filled count.
  lemma {:induction false} RecoveryKeepsTheCount(live: OrderRecord, replayed: OrderRecord, steps: seq<LiveStep>)
    requires SameCount(live, replayed)
    ensures SameCount(LiveAll(live, steps), ApplyAll(replayed, HeardIn(steps)))
    decreases |steps|
  {
    hide Apply, Move, SameCount;
    if steps != [] {
      match steps[0]
      case Heard(event) =>
        EventKeepsCount(live, replayed, event);
        assert HeardIn(steps)[1..] == HeardIn(steps[1..]);
        RecoveryKeepsTheCount(Apply(live, event).record, Apply(replayed, event).record, steps[1..]);
      case CancelAsked =>
        MoveKeepsCount(live, replayed, CancelPending);
        assert HeardIn(steps) == HeardIn(steps[1..]);
        RecoveryKeepsTheCount(Move(live, CancelPending).record, replayed, steps[1..]);
      case BecameUncertain =>
        MoveKeepsCount(live, replayed, Unknown);
        assert HeardIn(steps) == HeardIn(steps[1..]);
        RecoveryKeepsTheCount(Move(live, Unknown).record, replayed, steps[1..]);
    }
  }

  lemma RestartedKeepsTheCount(live: OrderRecord, steps: seq<LiveStep>)
    requires Honest(live)
    ensures ApplyAll(Restarted(live), HeardIn(steps)).filledQuantityTicks == LiveAll(live, steps).filledQuantityTicks
  {
    RecoveryKeepsTheCount(live, Restarted(live), steps);
  }

  function Fills(id: string, parts: seq<(i64, i64)>): seq<BrokerEvent> {
    if parts == [] then [] else [Fill(id, parts[0].0, parts[0].1)] + Fills(id, parts[1..])
  }

  function Total(parts: seq<(i64, i64)>): int {
    if parts == [] then 0 else parts[0].0 + Total(parts[1..])
  }

  predicate Positive(parts: seq<(i64, i64)>) {
    forall part | part in parts :: part.0 > 0 && part.1 > 0
  }

  // The states from which an order can be filled in part.
  predicate Working(state: OrderState) {
    LegalTransition(state, PartiallyFilled) && LegalTransition(state, FullyFilled)
  }

  lemma {:induction false} TotalIsPositive(parts: seq<(i64, i64)>)
    requires Positive(parts)
    ensures Total(parts) >= |parts|
  {
    if parts != [] {
      TotalIsPositive(parts[1..]);
    }
  }

  // From a working order, fills that total no more than the order leave the record that the
  // snapshot's cumulative count leaves.
  lemma {:induction false} CumulativeMatchesFills(r: OrderRecord, id: string, parts: seq<(i64, i64)>)
    requires Working(r.intent.state) && 0 <= r.filledQuantityTicks < r.intent.quantityTicks && Positive(parts)
    requires r.filledQuantityTicks + Total(parts) <= r.intent.quantityTicks
    ensures r.filledQuantityTicks <= r.filledQuantityTicks + Total(parts)
    ensures var cumulative := ApplyCumulative(r, r.filledQuantityTicks + Total(parts));
            cumulative.error.None? && Replay(r, Fills(id, parts)) == Some(cumulative.record)
    decreases |parts|
  {
    TotalIsPositive(parts);
    if parts != [] {
      TotalIsPositive(parts[1..]);
      var next := Apply(r, Fill(id, parts[0].0, parts[0].1)).record;
      if parts[1..] == [] {
        assert Replay(r, Fills(id, parts)) == Replay(next, []);
      } else {
        CumulativeMatchesFills(next, id, parts[1..]);
      }
    }
  }

  // The state a filled count calls for.
  function Target(r: OrderRecord, total: int): OrderState {
    if total >= r.intent.quantityTicks then FullyFilled else PartiallyFilled
  }

  lemma FillsSplit(id: string, parts: seq<(i64, i64)>)
    requires parts != []
    ensures Fills(id, parts)[0] == Fill(id, parts[0].0, parts[0].1) && Fills(id, parts)[1..] == Fills(id, parts[1..])
  {
  }

  // Whatever the state, fills within the order add up in the count; the state follows as far as it may.
  lemma {:induction false} FillsWithin(r: OrderRecord, id: string, parts: seq<(i64, i64)>)
    requires Positive(parts) && r.intent.state != FullyFilled
    requires parts != [] && r.filledQuantityTicks + Total(parts) <= r.intent.quantityTicks
    ensures r.filledQuantityTicks <= r.filledQuantityTicks + Total(parts) <= I64_MAX
    ensures var total := r.filledQuantityTicks + Total(parts);
            ApplyAll(r, Fills(id, parts)) ==
              if LegalTransition(r.intent.state, Target(r, total))
              then r.(filledQuantityTicks := total, intent := r.intent.(state := Target(r, total)))
              else r.(filledQuantityTicks := total)
    decreases |parts|
  {
    FillsSplit(id, parts);
    TotalIsPositive(parts);
    TotalIsPositive(parts[1..]);
    var next := Apply(r, Fill(id, parts[0].0, parts[0].1)).record;
    if parts[1..] == [] {
      assert ApplyAll(r, Fills(id, parts)) == ApplyAll(next, []);
    } else {
      FillsWithin(next, id, parts[1..]);
    }
  }

  lemma {:induction false} CountNeverFalls(r: OrderRecord, id: string, parts: seq<(i64, i64)>)
    requires Positive(parts)
    ensures ApplyAll(r, Fills(id, parts)).filledQuantityTicks >= r.filledQuantityTicks
    ensures var stuck := r.intent.state == FullyFilled
              || forall k | 0 <= k < |parts| :: r.filledQuantityTicks + parts[k].0 > r.intent.quantityTicks;
            if stuck then ApplyAll(r, Fills(id, parts)) == r
            else ApplyAll(r, Fills(id, parts)).filledQuantityTicks > r.filledQuantityTicks
    decreases |parts|
  {
    if parts != [] {
      FillsSplit(id, parts);
      CountNeverFalls(Apply(r, Fill(id, parts[0].0, parts[0].1)).record, id, parts[1..]);
      assert forall k | 0 < k < |parts| :: parts[k] == parts[1..][k - 1];
      assert parts[0] in parts;
    }
  }

  // For any state and any fills, the snapshot's cumulative count leaves the record that the fills leave,
  // exactly when the order is complete, or there are no fills, or the count is within the order and the
  // lifecycle allows the state it calls for, or no single fill fits either.
  lemma CumulativeMatchesExactly(r: OrderRecord, id: string, parts: seq<(i64, i64)>)
    requires Positive(parts) && r.filledQuantityTicks + Total(parts) <= I64_MAX
    ensures r.filledQuantityTicks <= r.filledQuantityTicks + Total(parts)
    ensures var total := r.filledQuantityTicks + Total(parts);
            ApplyAll(r, Fills(id, parts)) == ApplyCumulative(r, total).record <==>
              || r.intent.state == FullyFilled || parts == []
              || (if total <= r.intent.quantityTicks then LegalTransition(r.intent.state, Target(r, total))
                  else forall k | 0 <= k < |parts| :: r.filledQuantityTicks + parts[k].0 > r.intent.quantityTicks)
  {
    hide ApplyAll, Fills;
    TotalIsPositive(parts);
    CountNeverFalls(r, id, parts);
    var total := r.filledQuantityTicks + Total(parts);
    if r.intent.state != FullyFilled && parts != [] && total <= r.intent.quantityTicks {
      FillsWithin(r, id, parts);
    }
  }

  // A partial fill while a cancel is pending: reported as a fill it is refused but counted, reported as a
  // cumulative count it is refused and not counted.
  lemma PendingCancelDiffers(r: OrderRecord, id: string, price: i64)
    requires r.intent.state == CancelPending && r.filledQuantityTicks == 0 && r.intent.quantityTicks == 2 && price > 0
    ensures Apply(r, Fill(id, 1, price)).error.Some? && Apply(r, Fill(id, 1, price)).record.filledQuantityTicks == 1
    ensures ApplyCumulative(r, 1).error.Some? && ApplyCumulative(r, 1).record.filledQuantityTicks == 0
  {
  }

  // A completed order takes any further fill without a change.
  lemma {:induction false} CompletedIgnoresFills(r: OrderRecord, id: string, parts: seq<(i64, i64)>)
    requires r.intent.state == FullyFilled && Positive(parts)
    ensures Replay(r, Fills(id, parts)) == Some(r)
    decreases |parts|
  {
    if parts != [] {
      CompletedIgnoresFills(r, id, parts[1..]);
    }
  }

  // The fills stay within the order, or complete it to the tick before they exceed it.
  predicate WithinOrder(r: OrderRecord, parts: seq<(i64, i64)>) {
    || r.filledQuantityTicks + Total(parts) <= r.intent.quantityTicks
    || exists k | 0 < k <= |parts| :: r.filledQuantityTicks + Total(parts[..k]) == r.intent.quantityTicks
  }

  lemma WithinSplit(r: OrderRecord, parts: seq<(i64, i64)>)
    requires Positive(parts) && parts != []
    ensures var filled := r.filledQuantityTicks + parts[0].0;
            filled <= I64_MAX ==>
              (WithinOrder(r, parts) <==>
                filled == r.intent.quantityTicks || WithinOrder(r.(filledQuantityTicks := filled), parts[1..]))
    ensures r.filledQuantityTicks + parts[0].0 > r.intent.quantityTicks ==> !WithinOrder(r, parts)
  {
    var rest := parts[1..];
    TotalIsPositive(rest);
    forall k | 0 < k <= |parts|
      ensures Total(parts[..k]) == parts[0].0 + Total(rest[..k - 1]) >= parts[0].0
    {
      assert parts[..k][1..] == rest[..k - 1];
      TotalIsPositive(rest[..k - 1]);
    }
    forall k | 0 < k <= |rest|
      ensures Total(parts[..k + 1]) == parts[0].0 + Total(rest[..k])
    {
    }
    assert Total(parts[..1]) == parts[0].0 by { assert rest[..0] == []; }
  }

  // In any state, positive fills are all accepted exactly when there are none, or the order is complete, or
  // it can be filled in part and they stay within it or complete it, or it can only be completed and the
  // first one does.
  lemma {:induction false} FillsAcceptedExactly(r: OrderRecord, id: string, parts: seq<(i64, i64)>)
    requires Positive(parts)
    ensures Replay(r, Fills(id, parts)).Some? <==>
              || parts == []
              || r.intent.state == FullyFilled
              || (Working(r.intent.state) && WithinOrder(r, parts))
              || (LegalTransition(r.intent.state, FullyFilled)
                  && r.filledQuantityTicks + parts[0].0 == r.intent.quantityTicks)
    decreases |parts|
  {
    hide WithinOrder, Fills, Replay, Apply, LegalTransition;
    NothingReplays(r, id);
    if r.intent.state == FullyFilled {
      CompletedIgnoresFills(r, id, parts);
    } else if parts != [] {
      var rest := parts[1..];
      var filled := r.filledQuantityTicks + parts[0].0;
      WithinSplit(r, parts);
      FirstFill(r, id, parts);
      if filled == r.intent.quantityTicks {
        if LegalTransition(r.intent.state, FullyFilled) {
          CompletedIgnoresFills(Apply(r, Fill(id, parts[0].0, parts[0].1)).record, id, rest);
        }
      } else if filled < r.intent.quantityTicks && Working(r.intent.state) {
        var next := r.(filledQuantityTicks := filled, intent := r.intent.(state := PartiallyFilled));
        FillsAcceptedExactly(next, id, rest);
        SameWithin(next, r.(filledQuantityTicks := filled), rest);
        PartialIsWorking();
        if rest == [] {
          NothingIsWithin(next);
        } else if filled + rest[0].0 == r.intent.quantityTicks {
          FirstIsWithin(next, rest);
        }
      }
    }
  }

  lemma PartialIsWorking()
    ensures Working(PartiallyFilled)
  {
  }

  // The first of several fills of an incomplete order: completed, filled in part, or refused.
  lemma FirstFill(r: OrderRecord, id: string, parts: seq<(i64, i64)>)
    requires r.intent.state != FullyFilled && parts != [] && Positive(parts)
    ensures var filled := r.filledQuantityTicks + parts[0].0;
            var outcome := Apply(r, Fill(id, parts[0].0, parts[0].1));
            var next := if filled == r.intent.quantityTicks then FullyFilled else PartiallyFilled;
            && outcome.error.None? == (filled <= r.intent.quantityTicks && LegalTransition(r.intent.state, next))
            && (outcome.error.None? ==>
                  outcome.record == r.(filledQuantityTicks := filled, intent := r.intent.(state := next)))
            && Replay(r, Fills(id, parts)) ==
               (if outcome.error.Some? then None else Replay(outcome.record, Fills(id, parts[1..])))
    ensures LegalTransition(r.intent.state, PartiallyFilled) ==> Working(r.intent.state)
  {
    FillsSplit(id, parts);
    assert parts[0] in parts;
  }

  lemma NothingReplays(r: OrderRecord, id: string)
    ensures Replay(r, Fills(id, [])) == Some(r)
  {
  }

  lemma NothingIsWithin(r: OrderRecord)
    requires r.filledQuantityTicks <= r.intent.quantityTicks
    ensures WithinOrder(r, [])
  {
  }

  lemma SameWithin(r: OrderRecord, s: OrderRecord, parts: seq<(i64, i64)>)
    requires r.filledQuantityTicks == s.filledQuantityTicks && r.intent.quantityTicks == s.intent.quantityTicks
    ensures WithinOrder(r, parts) <==> WithinOrder(s, parts)
  {
  }

  lemma FirstIsWithin(r: OrderRecord, parts: seq<(i64, i64)>)
    requires parts != [] && r.filledQuantityTicks + parts[0].0 == r.intent.quantityTicks
    ensures WithinOrder(r, parts)
  {
    assert parts[..1][1..] == [] && Total(parts[..1]) == parts[0].0;
  }

  // A refused fill is not free of effects: the count grows although the state does not move.
  lemma RefusedFillStillCounts()
    ensures exists r: OrderRecord, e: BrokerEvent ::
              Apply(r, e).error.Some? && Apply(r, e).record.filledQuantityTicks > r.filledQuantityTicks
  {
    var intent := OrderIntent("i", 1, 1, "c", Buy, 2, Market, None, Day, CancelPending, 1);
    var r := OrderRecord(intent, None, 0);
    assert Apply(r, Fill("c", 1, 1)).error.Some?;
    assert Apply(r, Fill("c", 1, 1)).record.filledQuantityTicks == 1;
  }

  // Exactly when a refusal changes the record: a fill within bounds, or an acknowledgement, that the
  // lifecycle does not allow in the order's state.
  lemma RefusalChangesExactly(r: OrderRecord, e: BrokerEvent)
    requires Apply(r, e).error.Some?
    ensures Apply(r, e).record != r <==>
              match e
              case Fill(_, quantity, price) =>
                quantity > 0 && price > 0 && r.filledQuantityTicks + quantity <= r.intent.quantityTicks
              case Ack(_, brokerOrderId) =>
                r.brokerOrderId != Some(brokerOrderId) && r.intent.state in {Created, Queued, Sending, Expired}
              case Reject(_, _) => false
              case Cancelled(_) => false
    ensures Apply(r, e).record.intent == r.intent
  {
  }
}
