/** The deterministic paper broker of crates/exchange-sim. */
module PaperBroker {
  import opened Wrappers
  import opened Bytes
  import opened BrokerApi
  import Ordered
  import Decimal

  datatype Broker = Broker(
    prices: map<nat, i64>,
    events: seq<BrokerEvent>,
    seen: map<string, BrokerEvent>,
    accepted: map<string, OrderIntent>,
    resting: map<string, OrderIntent>,
    nextOrderId: u64)

  datatype SimError =
    | DuplicateClientOrder(existing: BrokerEvent)
    | UnknownPrice
    | InvalidQuantity
    | NotWorking
    | PositionOverflow
    | MissingIntent

  const EMPTY: Broker := Broker(map[], [], map[], map[], map[], 1)

  predicate Marketable(intent: OrderIntent, price: i64) {
    match intent.orderType
    case Market => true
    case Limit => intent.limitPriceTicks.Some? && AtOrBetter(intent.side, intent.limitPriceTicks.value, price)
  }

  // A price move looks only at the limit, whatever the order's type.
  predicate Crossed(intent: OrderIntent, instrument: nat, price: i64) {
    intent.instrumentId == instrument
    && intent.limitPriceTicks.Some? && AtOrBetter(intent.side, intent.limitPriceTicks.value, price)
  }

  function Candidates(b: Broker, instrument: nat, price: i64): seq<string> {
    Ordered.Sorted(set id | id in b.resting && Crossed(b.resting[id], instrument, price))
  }

  // One resting order leaves the book with a fill for its whole quantity.
  function FillResting(b: Broker, id: string, price: i64): Broker {
    if id !in b.resting then b else
    var fill := Fill(id, b.resting[id].quantityTicks, price);
    b.(resting := b.resting - {id}, seen := b.seen[id := fill], events := b.events + [fill])
  }

  function FillAll(b: Broker, ids: seq<string>, price: i64): Broker
    decreases |ids|
  {
    if ids == [] then b else FillAll(FillResting(b, ids[0], price), ids[1..], price)
  }

  function SetPrice(b: Broker, instrument: nat, price: i64): Broker {
    if price <= 0 then b else
    var priced := b.(prices := b.prices[instrument := price]);
    FillAll(priced, Candidates(priced, instrument, price), price)
  }

  // A price at or below a buy limit, or at or above a sell limit.
  predicate LimitMet(intent: OrderIntent, price: i64) {
    match intent.limitPriceTicks
    case None => false
    case Some(limit) => if intent.side == Buy then price <= limit else price >= limit
  }

  // The resting orders whose limit a price move meets.
  predicate Struck(b: Broker, id: string, instrument: nat, price: i64) {
    id in b.resting && b.resting[id].instrumentId == instrument && LimitMet(b.resting[id], price)
  }

  function FillsOf(b: Broker, ids: seq<string>, price: i64): (fills: seq<BrokerEvent>)
    requires forall id | id in ids :: id in b.resting
    ensures |fills| == |ids|
  {
    seq(|ids|, i requires 0 <= i < |ids| => Fill(ids[i], b.resting[ids[i]].quantityTicks, price))
  }

  lemma {:induction false} FillAllEvents(b: Broker, ids: seq<string>, price: i64)
    requires Ordered.Ascending(ids) && forall id | id in ids :: id in b.resting
    ensures var after := FillAll(b, ids, price);
            && after.(resting := b.resting, seen := b.seen, events := b.events) == b
            && after.events == b.events + FillsOf(b, ids, price)
    decreases |ids|
  {
    hide Ordered.Less;
    if ids != [] {
      Ordered.AscendingIsDistinct(ids);
      var next := FillResting(b, ids[0], price);
      assert forall id | id in ids[1..] :: id != ids[0] && next.resting[id] == b.resting[id];
      FillAllEvents(next, ids[1..], price);
      assert FillsOf(b, ids, price) == [Fill(ids[0], b.resting[ids[0]].quantityTicks, price)]
                                       + FillsOf(next, ids[1..], price);
    }
  }

  lemma {:induction false} FillAllStanding(b: Broker, ids: seq<string>, price: i64, id: string)
    requires Ordered.Ascending(ids) && forall id | id in ids :: id in b.resting
    ensures var after := FillAll(b, ids, price);
            if id in ids then id !in after.resting && id in after.seen
                              && after.seen[id] == Fill(id, b.resting[id].quantityTicks, price)
            else SameStanding(b, after, id)
    decreases |ids|
  {
    hide Ordered.Less;
    if ids != [] {
      Ordered.AscendingIsDistinct(ids);
      var next := FillResting(b, ids[0], price);
      assert forall other | other in ids[1..] :: other != ids[0] && next.resting[other] == b.resting[other];
      FillAllStanding(next, ids[1..], price, id);
      assert id in ids <==> id == ids[0] || id in ids[1..];
    }
  }

  // What the broker says of an order, and whether it rests.
  predicate SameStanding(b: Broker, c: Broker, id: string) {
    && (id in b.resting <==> id in c.resting) && (id in b.resting ==> b.resting[id] == c.resting[id])
    && (id in b.seen <==> id in c.seen) && (id in b.seen ==> b.seen[id] == c.seen[id])
  }

  // A price move fills exactly the resting orders of the instrument whose limit it meets, each whole, at
  // that price and once, in the order of their ids; every other order stays as it is.
  lemma PriceMoveFillsExactly(b: Broker, instrument: nat, price: i64) returns (ids: seq<string>)
    requires price > 0
    ensures Ordered.Ascending(ids) && forall id :: id in ids <==> Struck(b, id, instrument, price)
    ensures forall id | id in ids :: id in b.resting
    ensures var after := SetPrice(b, instrument, price);
            && after.prices == b.prices[instrument := price]
            && after.accepted == b.accepted && after.nextOrderId == b.nextOrderId
            && after.events == b.events + FillsOf(b, ids, price)
            && (forall id | Struck(b, id, instrument, price) :: id !in after.resting && id in after.seen
                  && after.seen[id] == Fill(id, b.resting[id].quantityTicks, price))
            && (forall id | !Struck(b, id, instrument, price) :: SameStanding(b, after, id))
  {
    hide FillAll, SameStanding, LimitMet;
    var priced := b.(prices := b.prices[instrument := price]);
    ids := Candidates(priced, instrument, price);
    forall id
      ensures id in ids <==> Struck(b, id, instrument, price)
    {
      CrossedExactly(b, id, instrument, price);
    }
    FillAllEvents(priced, ids, price);
    assert FillsOf(priced, ids, price) == FillsOf(b, ids, price);
    forall id
      ensures Struck(b, id, instrument, price) ==> id !in SetPrice(b, instrument, price).resting
      ensures Struck(b, id, instrument, price) ==>
                id in SetPrice(b, instrument, price).seen
                && SetPrice(b, instrument, price).seen[id] == Fill(id, b.resting[id].quantityTicks, price)
      ensures !Struck(b, id, instrument, price) ==> SameStanding(b, SetPrice(b, instrument, price), id)
    {
      FillAllStanding(priced, ids, price, id);
      StandingIgnoresPrices(b, priced, SetPrice(b, instrument, price), id);
    }
  }

  lemma CrossedExactly(b: Broker, id: string, instrument: nat, price: i64)
    ensures Struck(b, id, instrument, price) <==> id in b.resting && Crossed(b.resting[id], instrument, price)
  {
  }

  lemma StandingIgnoresPrices(b: Broker, priced: Broker, c: Broker, id: string)
    requires priced.resting == b.resting && priced.seen == b.seen
    ensures SameStanding(priced, c, id) ==> SameStanding(b, c, id)
  {
  }

  function OrderId(n: nat): string { "paper-" + Decimal.Show(n) }

  // u64 saturating_add(1)
  function NextId(n: u64): u64 { if n == U64_MAX then n else n + 1 }

  function SendError(b: Broker, intent: OrderIntent): Option<SimError> {
    if intent.quantityTicks <= 0 then Some(InvalidQuantity)
    else if intent.instrumentId !in b.prices then Some(UnknownPrice)
    else if intent.clientOrderId in b.seen then Some(DuplicateClientOrder(b.seen[intent.clientOrderId]))
    else None
  }

  function Accept(b: Broker, intent: OrderIntent): Broker
    requires SendError(b, intent).None?
  {
    var id := intent.clientOrderId;
    var price := b.prices[intent.instrumentId];
    var next := NextId(b.nextOrderId);
    var ack := Ack(id, OrderId(b.nextOrderId));
    var accepted := b.(accepted := b.accepted[id := intent], nextOrderId := next);
    if Marketable(intent, price) then
      var fill := Fill(id, intent.quantityTicks, price);
      accepted.(events := b.events + [ack, fill], seen := b.seen[id := fill])
    else
      // what is remembered carries the next order's id, not the one acknowledged
      accepted.(events := b.events + [ack], seen := b.seen[id := Ack(id, OrderId(next))],
        resting := b.resting[id := intent])
  }

  // A send is accepted exactly for a positive quantity, a known price and a new id, and then: the order is
  // acknowledged under the next number; a market order, or one whose limit the price meets, is filled
  // whole at that price at once; any other rests; nothing else changes.
  lemma SendExactly(b: Broker, intent: OrderIntent)
    ensures SendError(b, intent).None? <==>
              intent.quantityTicks > 0 && intent.instrumentId in b.prices && intent.clientOrderId !in b.seen
    ensures var id := intent.clientOrderId; var after := Send(b, intent);
            if SendError(b, intent).Some? then after == b else
            var price := b.prices[intent.instrumentId];
            var ack := Ack(id, "paper-" + Decimal.Show(b.nextOrderId));
            && after.prices == b.prices && after.accepted == b.accepted[id := intent]
            && after.nextOrderId == (if b.nextOrderId < U64_MAX then b.nextOrderId + 1 else U64_MAX)
            && (forall other | other != id :: SameStanding(b, after, other))
            && if intent.orderType == Market || LimitMet(intent, price)
               then after.resting == b.resting && after.events == b.events + [ack, after.seen[id]]
                    && after.seen[id] == Fill(id, intent.quantityTicks, price)
               else after.resting == b.resting[id := intent] && after.events == b.events + [ack]
  {
    hide Decimal.Show;
  }

  lemma OrderIdInjective(m: nat, n: nat)
    ensures OrderId(m) == OrderId(n) <==> m == n
  {
    if OrderId(m) == OrderId(n) {
      assert OrderId(m)[6..] == Decimal.Show(m) && OrderId(n)[6..] == Decimal.Show(n);
      Decimal.ShowInjective(m, n);
    }
  }

  // The event remembered for an accepted order is the last one emitted for it exactly when the order was
  // filled at once, or the counter is at its end.
  lemma RemembersLastExactly(b: Broker, intent: OrderIntent)
    requires SendError(b, intent).None?
    ensures var after := Accept(b, intent);
            && |after.events| > |b.events| && intent.clientOrderId in after.seen
            && (after.seen[intent.clientOrderId] == after.events[|after.events| - 1] <==>
                  Marketable(intent, b.prices[intent.instrumentId]) || b.nextOrderId == U64_MAX)
  {
    hide OrderId, Marketable;
    OrderIdInjective(b.nextOrderId, NextId(b.nextOrderId));
  }

  function Send(b: Broker, intent: OrderIntent): Broker {
    if SendError(b, intent).Some? then b else Accept(b, intent)
  }

  function Cancel(b: Broker, id: string): Broker {
    if id !in b.resting then b else
    b.(resting := b.resting - {id}, seen := b.seen[id := Cancelled(id)], events := b.events + [Cancelled(id)])
  }

  // --- the account snapshot ---

  function SignedFill(b: Broker, id: string): int
    requires id in b.seen && b.seen[id].Fill? && id in b.accepted
  {
    Signed(b.accepted[id].side, b.seen[id].quantityTicks)
  }

  function Position(positions: map<nat, i64>, instrument: nat): i64 {
    if instrument in positions then positions[instrument] else 0
  }

  // Adding up the fills of some orders, in order, checking every sum.
  function Positions(b: Broker, ids: seq<string>, sums: map<nat, i64>): Result<map<nat, i64>, SimError>
    requires forall id | id in ids :: id in b.seen
    decreases |ids|
  {
    if ids == [] then Ok(sums)
    else if !b.seen[ids[0]].Fill? then Positions(b, ids[1..], sums)
    else if ids[0] !in b.accepted then Err(MissingIntent)
    else
      var instrument := b.accepted[ids[0]].instrumentId;
      var sum := Position(sums, instrument) + SignedFill(b, ids[0]);
      if I64_MIN <= sum <= I64_MAX then Positions(b, ids[1..], sums[instrument := sum]) else Err(PositionOverflow)
  }

  // One order as the snapshot reports it: the broker's last word, and the filled quantity if it is a fill.
  datatype OrderLine = OrderLine(clientOrderId: string, event: BrokerEvent, filledQuantityTicks: Option<i64>)

  datatype AccountSnapshot = AccountSnapshot(orders: seq<OrderLine>, positions: map<nat, i64>)

  function LineOf(id: string, event: BrokerEvent): OrderLine {
    OrderLine(id, event, match event case Fill(_, quantity, _) => Some(quantity) case _ => None)
  }

  function Lines(seen: map<string, BrokerEvent>, ids: seq<string>): (lines: seq<OrderLine>)
    requires forall id | id in ids :: id in seen
    ensures |lines| == |ids|
  {
    seq(|ids|, i requires 0 <= i < |ids| => LineOf(ids[i], seen[ids[i]]))
  }

  // Positions that net to nothing are not reported.
  function Open(sums: map<nat, i64>): map<nat, i64> {
    map instrument | instrument in sums && sums[instrument] != 0 :: sums[instrument]
  }

  function Snapshot(b: Broker): Result<AccountSnapshot, SimError> {
    var ids := Ordered.Sorted(b.seen.Keys);
    match Positions(b, ids, map[])
    case Ok(sums) =>
      Ok(AccountSnapshot(Lines(b.seen, ids), Open(sums)))
    case Err(error) => Err(error)
  }

  class Exchange {
    var prices: map<nat, i64>
    var events: seq<BrokerEvent>
    var seen: map<string, BrokerEvent>
    var accepted: map<string, OrderIntent>
    var resting: map<string, OrderIntent>
    var nextOrderId: u64

    ghost function State(): Broker
      reads this
    {
      Broker(prices, events, seen, accepted, resting, nextOrderId)
    }

    constructor ()
      ensures State() == EMPTY
    {
      prices, events, seen, accepted, resting, nextOrderId := map[], [], map[], map[], map[], 1;
    }

    method UpdatePrice(instrument: nat, price: i64) returns (error: Option<SimError>)
      modifies this
      ensures State() == SetPrice(old(State()), instrument, price)
      ensures error == if price <= 0 then Some(UnknownPrice) else None
    {
      if price <= 0 {
        return Some(UnknownPrice);
      }
      prices := prices[instrument := price];
      MatchResting(instrument, price);
      return None;
    }

    method MatchResting(instrument: nat, price: i64)
      modifies this
      ensures State() == FillAll(old(State()), Candidates(old(State()), instrument, price), price)
    {
      var candidates := Ordered.Sorted(set id | id in resting && Crossed(resting[id], instrument, price));
      ghost var goal := FillAll(State(), candidates, price);
      for index := 0 to |candidates|
        invariant FillAll(State(), candidates[index..], price) == goal
      {
        var id := candidates[index];
        assert candidates[index..][0] == id && candidates[index..][1..] == candidates[index + 1..];
        if id in resting {
          var filled := Fill(id, resting[id].quantityTicks, price);
          resting := resting - {id};
          seen := seen[id := filled];
          events := events + [filled];
        }
      }
    }

    method DrainEvents() returns (drained: seq<BrokerEvent>)
      modifies this`events
      ensures drained == old(events) && events == []
    {
      drained := events;
      events := [];
    }

    method SendIntent(intent: OrderIntent) returns (error: Option<SimError>)
      modifies this
      ensures error == SendError(old(State()), intent)
      ensures State() == Send(old(State()), intent)
    {
      if intent.quantityTicks <= 0 {
        return Some(InvalidQuantity);
      }
      if intent.instrumentId !in prices {
        return Some(UnknownPrice);
      }
      var price := prices[intent.instrumentId];
      var id := intent.clientOrderId;
      if id in seen {
        return Some(DuplicateClientOrder(seen[id]));
      }
      ghost var before := State();
      accepted := accepted[id := intent];
      var ack := Ack(id, OrderId(nextOrderId));
      nextOrderId := NextId(nextOrderId);
      events := events + [ack];
      if Marketable(intent, price) {
        var fill := Fill(id, intent.quantityTicks, price);
        seen := seen[id := fill];
        events := events + [fill];
        assert events == before.events + [ack, fill];
      } else {
        seen := seen[id := Ack(id, OrderId(nextOrderId))];
        resting := resting[id := intent];
      }
      return None;
    }

    method CancelOrder(id: string) returns (error: Option<SimError>)
      modifies this
      ensures State() == Cancel(old(State()), id)
      ensures error == if id in old(resting) then None else Some(NotWorking)
    {
      if id !in resting {
        return Some(NotWorking);
      }
      resting := resting - {id};
      seen := seen[id := Cancelled(id)];
      events := events + [Cancelled(id)];
      return None;
    }

    method TakeSnapshot() returns (r: Result<AccountSnapshot, SimError>)
      ensures r == Snapshot(State())
    {
      hide Ordered.Ascending, Lines, Positions;
      var ids := Ordered.Sorted(seen.Keys);
      var orders := Lines(seen, ids);
      var sums :- AddPositions(ids);
      return Ok(AccountSnapshot(orders, Open(sums)));
    }

    // The loop over the fills.
    method AddPositions(ids: seq<string>) returns (r: Result<map<nat, i64>, SimError>)
      requires forall id | id in ids :: id in seen
      ensures r == Positions(State(), ids, map[])
    {
      var sums: map<nat, i64> := map[];
      ghost var b := State();
      for index := 0 to |ids|
        invariant Positions(b, ids, map[]) == Positions(b, ids[index..], sums)
      {
        var id := ids[index];
        assert ids[index..][0] == id && ids[index..][1..] == ids[index + 1..];
        if seen[id].Fill? {
          if id !in accepted {
            return Err(MissingIntent);
          }
          var intent := accepted[id];
          var sum := Position(sums, intent.instrumentId) + Signed(intent.side, seen[id].quantityTicks);
          if sum < I64_MIN || I64_MAX < sum {
            return Err(PositionOverflow);
          }
          sums := sums[intent.instrumentId := sum];
        }
      }
      return Ok(sums);
    }
  }
}
