/** The broker-neutral order contract of crates/broker-api. */
module BrokerApi {
  import opened Wrappers
  import opened Bytes

  datatype Side = Buy | Sell

  datatype OrderType = Market | Limit

  datatype TimeInForce = Day | GoodTilCancel | ImmediateOrCancel

  datatype OrderState =
    | Created | RiskApproved | Queued | Sending | Sent | Acknowledged | PartiallyFilled | FullyFilled
    | CancelPending | ReplacePending | CancelledOrder | RejectedOrder | Expired | Unknown

  datatype OrderIntent = OrderIntent(
    intentId: string,
    accountId: nat,
    instrumentId: nat,
    clientOrderId: string,
    side: Side,
    quantityTicks: i64,
    orderType: OrderType,
    limitPriceTicks: Option<i64>,
    timeInForce: TimeInForce,
    state: OrderState,
    traceId: nat)

  datatype BrokerEvent =
    | Ack(clientOrderId: string, brokerOrderId: string)
    | Fill(clientOrderId: string, quantityTicks: i64, priceTicks: i64)
    | Reject(clientOrderId: string, reason: string)
    | Cancelled(clientOrderId: string)

  // A buy limit is met at or below it, a sell limit at or above it.
  predicate AtOrBetter(side: Side, limit: int, price: int) {
    match side
    case Buy => limit >= price
    case Sell => limit <= price
  }

  // Buys count up, sells count down (i64 saturating_neg never saturates on a positive quantity).
  function Signed(side: Side, quantity: int): int {
    if side == Buy then quantity else -quantity
  }
}
