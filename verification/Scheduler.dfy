/** Child-order schedules of crates/execution: exact integer splitting of a parent order. */
module Scheduler {
  import opened Wrappers
  import opened Bytes
  import opened BrokerApi
  import opened Sums
  import Decimal

  datatype Schedule =
    | Immediate
    | Twap(slices: u64, intervalNs: u64)
    | Vwap(weights: seq<u32>)
    | Pov(participationBps: u32, intervalNs: u64, marketVolumeTicks: seq<i64>)
    | ImplementationShortfall(slices: u64, intervalNs: u64, urgencyBps: u32)
    | Adaptive(slices: u64, intervalNs: u64, urgencyBps: u32,
               spreadTicks: i64, maxSpreadTicks: i64,
               volatilityBps: u32, maxVolatilityBps: u32, marketVolumeTicks: seq<i64>)

  datatype PlanError = InvalidSchedule | InvalidChildTransition

  datatype ChildOrder = ChildOrder(
    parentClientOrderId: string,
    childSequence: nat,
    clientOrderId: string,
    quantityTicks: int,
    dueAfterNs: nat,
    side: Side,
    orderType: OrderType,
    limitPriceTicks: Option<i64>)

  // --- splitting a quantity ---

  // Equal parts, the remainder one tick each to the first ones.
  function Even(total: nat, n: nat): (q: seq<int>)
    requires n > 0
    ensures |q| == n
  {
    seq(n, i requires 0 <= i < n => total / n + (if i < total % n then 1 else 0))
  }

  function Floors(total: nat, weights: seq<int>, weight: nat): (q: seq<int>)
    requires weight > 0
    ensures |q| == |weights|
  {
    seq(|weights|, i requires 0 <= i < |weights| => total * weights[i] / weight)
  }

  function TopUp(q: seq<int>, extra: int): (r: seq<int>)
    ensures |r| == |q|
  {
    seq(|q|, i requires 0 <= i < |q| => if i < extra then q[i] + 1 else q[i])
  }

  function Leftover(total: nat, weights: seq<int>): int
    requires Sum(weights) > 0
  {
    total - Sum(Floors(total, weights, Sum(weights)))
  }

  // Parts in proportion to the weights, rounded down, what is left over one tick each to the first.
  function Shares(total: nat, weights: seq<int>): (q: seq<int>)
    requires Sum(weights) > 0
    ensures |q| == |weights|
  {
    TopUp(Floors(total, weights, Sum(weights)), Leftover(total, weights))
  }

  function FrontWeight(n: nat, urgency: nat, index: nat): int
    requires index < n
  {
    10_000 + urgency * (n - 1 - index) / n
  }

  function FrontWeights(n: nat, urgency: nat): (w: seq<int>)
    ensures |w| == n
  {
    seq(n, i requires 0 <= i < n => FrontWeight(n, urgency, i))
  }

  lemma FrontWeightsArePositive(n: nat, urgency: nat)
    requires n > 0
    ensures forall i | 0 <= i < n :: FrontWeights(n, urgency)[i] >= 10_000
    ensures Sum(FrontWeights(n, urgency)) > 0
  {
    hide FrontWeight;
    forall i | 0 <= i < n
      ensures FrontWeight(n, urgency, i) >= 10_000
    {
      FrontWeightIsPositive(n, urgency, i);
    }
    SumAtLeast(FrontWeights(n, urgency), 1);
  }

  lemma FrontWeightIsPositive(n: nat, urgency: nat, index: nat)
    requires index < n
    ensures FrontWeight(n, urgency, index) >= 10_000
  {
    QuotientNonNegative(urgency, n - 1 - index, n);
  }

  lemma QuotientNonNegative(a: nat, b: nat, d: nat)
    requires d > 0
    ensures a * b / d >= 0
  {
    ProductNonNegative(a, b);
  }

  lemma ProductNonNegative(a: nat, b: nat)
    ensures a * b >= 0
  {
  }

  function Capacity(volume: int, bps: nat): int { volume * bps / 10_000 }

  function TotalCapacity(volumes: seq<i64>, bps: nat): int
    decreases |volumes|
  {
    if volumes == [] then 0 else volumes[0] * bps / 10_000 + TotalCapacity(volumes[1..], bps)
  }

  // Taking what each slice of volume allows until nothing is left; slices that allow nothing are skipped.
  function Participate(volumes: seq<i64>, bps: nat, remaining: int): seq<int>
    decreases |volumes|
  {
    if volumes == [] || remaining == 0 then [] else
    var capacity := Capacity(volumes[0], bps);
    if capacity <= 0 then Participate(volumes[1..], bps, remaining)
    else if capacity <= remaining then [capacity] + Participate(volumes[1..], bps, remaining - capacity)
    else [remaining]
  }

  predicate Positive(q: seq<int>) { forall x | x in q :: x > 0 }

  // --- one schedule's quantities and interval ---

  function TwapQuantities(total: i64, slices: u64, interval: u64): Result<seq<int>, PlanError>
    requires total > 0
  {
    if slices == 0 || interval == 0 || slices > total then Err(InvalidSchedule) else Ok(Even(total, slices))
  }

  function VwapQuantities(total: i64, weights: seq<u32>): Result<seq<int>, PlanError>
    requires total > 0
  {
    if weights == [] || 0 in weights then Err(InvalidSchedule) else
    SumAtLeast(weights, 1);
    if Sum(weights) > U64_MAX then Err(InvalidSchedule) else
    Checked(Shares(total, weights), total)
  }

  // The last guard: nothing left over and no empty part.
  function Checked(q: seq<int>, total: int): Result<seq<int>, PlanError> {
    if Sum(q) == total && Positive(q) then Ok(q) else Err(InvalidSchedule)
  }

  function PovQuantities(total: i64, bps: u32, interval: u64, volumes: seq<i64>): Result<seq<int>, PlanError>
    requires total > 0
  {
    if bps == 0 || bps > 10_000 || interval == 0 || volumes == [] || exists v | v in volumes :: v <= 0 then
      Err(InvalidSchedule)
    else
      var q := Participate(volumes, bps, total);
      if Sum(q) == total then Ok(q) else Err(InvalidSchedule)
  }

  function FrontQuantities(total: i64, slices: u64, interval: u64, urgency: u32): Result<seq<int>, PlanError>
    requires total > 0
  {
    if slices == 0 || slices > total || interval == 0 || urgency > 10_000 then Err(InvalidSchedule)
    else
      FrontWeightsArePositive(slices, urgency);
      Checked(Shares(total, FrontWeights(slices, urgency)), total)
  }

  function Quantities(total: i64, schedule: Schedule): Result<(seq<int>, u64), PlanError>
    requires total > 0 && !schedule.Adaptive?
  {
    match schedule
    case Immediate => Ok(([total], 0))
    case Twap(slices, interval) => WithInterval(TwapQuantities(total, slices, interval), interval)
    case Vwap(weights) => WithInterval(VwapQuantities(total, weights), 0)
    case Pov(bps, interval, volumes) => WithInterval(PovQuantities(total, bps, interval, volumes), interval)
    case ImplementationShortfall(slices, interval, urgency) =>
      WithInterval(FrontQuantities(total, slices, interval, urgency), interval)
  }

  function WithInterval(q: Result<seq<int>, PlanError>, interval: u64): Result<(seq<int>, u64), PlanError> {
    match q
    case Ok(quantities) => Ok((quantities, interval))
    case Err(error) => Err(error)
  }

  // The adaptive policy picks one of two schedules, once, from the snapshot it is given.
  function Selected(total: i64, schedule: Schedule): Result<Schedule, PlanError>
    requires total > 0 && schedule.Adaptive?
    ensures Selected(total, schedule).Ok? ==> !Selected(total, schedule).value.Adaptive?
  {
    var Adaptive(slices, interval, urgency, spread, maxSpread, volatility, maxVolatility, volumes) := schedule;
    if slices == 0 || interval == 0 || urgency == 0 || urgency > 10_000 || spread < 0 || maxSpread <= 0
       || volatility > 100_000 || maxVolatility == 0 || volumes == [] || |volumes| > slices then Err(InvalidSchedule)
    else if spread <= maxSpread && volatility <= maxVolatility then Ok(Pov(urgency, interval, volumes))
    else Ok(ImplementationShortfall(if slices <= total then slices else total, interval,
                                    if urgency >= 7_500 then urgency else 7_500))
  }

  // --- children ---

  function ChildId(parent: string, sequence: nat): string { parent + "-child-" + Decimal.Show(sequence) }

  // When a child is due, relative to the plan.
  function Due(interval: u64, index: nat): nat { interval * index }

  function Child(intent: OrderIntent, index: nat, quantity: int, interval: u64): ChildOrder {
    ChildOrder(intent.clientOrderId, index + 1, ChildId(intent.clientOrderId, index + 1), quantity,
      Due(interval, index),
               intent.side, intent.orderType, intent.limitPriceTicks)
  }

  predicate Fits(n: nat, interval: u64) {
    n <= U32_MAX && (n > 0 ==> Due(interval, n - 1) <= U64_MAX)
  }

  function Children(intent: OrderIntent, q: seq<int>, interval: u64): Result<seq<ChildOrder>, PlanError> {
    if Fits(|q|, interval) then Ok(seq(|q|, i requires 0 <= i < |q| => Child(intent, i, q[i], interval)))
    else Err(InvalidSchedule)
  }

  function Plan(intent: OrderIntent, schedule: Schedule): Result<seq<ChildOrder>, PlanError>
    decreases schedule.Adaptive?
  {
    if intent.quantityTicks <= 0 then Err(InvalidSchedule)
    else if schedule.Adaptive? then
      match Selected(intent.quantityTicks, schedule)
      case Ok(selected) => Plan(intent, selected)
      case Err(error) => Err(error)
    else
      match Quantities(intent.quantityTicks, schedule)
      case Ok((q, interval)) => Children(intent, q, interval)
      case Err(error) => Err(error)
  }

  // --- the code's loops ---

  method DistributeRemainder(parts: seq<int>, leftover: int) returns (q: seq<int>, remainder: int)
    requires leftover >= 0
    ensures q == TopUp(parts, leftover)
    ensures remainder == if leftover <= |parts| then 0 else leftover - |parts|
  {
    q, remainder := parts, leftover;
    for index := 0 to |parts|
      invariant remainder == leftover - index
      invariant remainder >= 0 && |q| == |parts|
      invariant forall i | 0 <= i < index :: q[i] == parts[i] + 1
      invariant forall i | index <= i < |parts| :: q[i] == parts[i]
    {
      if remainder == 0 {
        return;
      }
      q := q[index := q[index] + 1];
      remainder := remainder - 1;
    }
  }

  lemma SumOfNothing()
    ensures Sum([]) == 0
  {
  }

  method TakeVolumes(volumes: seq<i64>, bps: nat, total: int) returns (q: seq<int>, remaining: int)
    requires total > 0 && forall v | v in volumes :: v > 0
    ensures q == Participate(volumes, bps, total)
    ensures remaining == total - Sum(q)
  {
    hide Capacity, Sum;
    assert Sum([]) == 0 by { SumOfNothing(); }
    q, remaining := [], total;
    for index := 0 to |volumes|
      invariant remaining >= 0 && remaining == total - Sum(q)
      invariant Participate(volumes, bps, total) == q + Participate(volumes[index..], bps, remaining)
    {
      if remaining == 0 {
        return;
      }
      assert volumes[index..][1..] == volumes[index + 1..];
      var capacity := Capacity(volumes[index], bps);
      if capacity > 0 {
        var quantity := if capacity <= remaining then capacity else remaining;
        SumSnoc(q, quantity);
        assert Participate(volumes[index..], bps, remaining)
          == [quantity] + Participate(volumes[index + 1..], bps, remaining - quantity);
        q := q + [quantity];
        remaining := remaining - quantity;
      }
    }
  }

  method BuildChildren(intent: OrderIntent, q: seq<int>, interval: u64) returns (r: Result<seq<ChildOrder>, PlanError>)
    ensures r == Children(intent, q, interval)
  {
    hide Due, ChildId;
    var children := [];
    for index := 0 to |q|
      invariant |children| == index
      invariant index > 0 ==> Fits(index, interval)
      invariant forall i | 0 <= i < index :: children[i] == Child(intent, i, q[i], interval)
    {
      if index + 1 > U32_MAX {
        return Err(InvalidSchedule);
      }
      if Due(interval, index) > U64_MAX {
        DueGrows(interval, index, |q| - 1);
        return Err(InvalidSchedule);
      }
      children := children + [Child(intent, index, q[index], interval)];
    }
    assert children == seq(|q|, i requires 0 <= i < |q| => Child(intent, i, q[i], interval));
    return Ok(children);
  }

  lemma DueGrows(interval: u64, i: nat, j: nat)
    requires i <= j
    ensures Due(interval, i) <= Due(interval, j)
  {
  }

  // --- what the splitting means ---

  lemma Bracket(a: int, w: int)
    requires w > 0
    ensures w * (a / w) <= a < w * (a / w) + w
  {
  }

  lemma Times(a: int, b: int, c: int)
    ensures a * (b + c) == a * b + a * c
  {
  }

  lemma PositiveProduct(a: int, b: int)
    requires a > 0 && b > 0
    ensures a * b > 0
  {
  }

  lemma Cancel(w: int, a: int, b: int)
    requires w > 0 && w * a <= w * b
    ensures a <= b
  {
    if a > b {
      PositiveProduct(w, a - b);
      Times(w, b, a - b);
    }
  }

  lemma CancelStrict(w: int, a: int, b: int)
    requires w > 0 && w * a < w * b
    ensures a < b
  {
    if a >= b {
      ProductNonNegative(w, a - b);
      Times(w, b, a - b);
    }
  }

  // Rounding down loses less than one tick per part.
  lemma {:induction false} FloorsBracket(total: nat, weights: seq<int>, w: int)
    requires w > 0 && forall i | 0 <= i < |weights| :: weights[i] >= 0
    ensures w * Sum(Floors(total, weights, w)) <= total * Sum(weights)
    ensures weights != [] ==> total * Sum(weights) < w * Sum(Floors(total, weights, w)) + w * |weights|
  {
    if weights != [] {
      var n := |weights| - 1;
      var shorter, last := weights[..n], weights[n];
      FloorsBracket(total, shorter, w);
      assert Floors(total, weights, w)[..n] == Floors(total, shorter, w);
      ProductNonNegative(total, last);
      Bracket(total * last, w);
      Times(total, Sum(shorter), last);
      Times(w, Sum(Floors(total, shorter, w)), total * last / w);
      Times(w, n, 1);
      if shorter == [] {
        assert Sum(shorter) == 0 && Sum(Floors(total, shorter, w)) == 0;
      }
    }
  }

  lemma LeftoverIsSmall(total: nat, weights: seq<int>)
    requires weights != [] && Sum(weights) > 0 && forall i | 0 <= i < |weights| :: weights[i] >= 0
    ensures 0 <= Leftover(total, weights) < |weights|
  {
    var w := Sum(weights);
    var placed := Sum(Floors(total, weights, w));
    FloorsBracket(total, weights, w);
    Cancel(w, placed, total);
    Times(w, placed, |weights|);
    CancelStrict(w, total, placed + |weights|);
  }

  lemma {:induction false} TopUpAdds(q: seq<int>, extra: int)
    requires 0 <= extra <= |q|
    ensures Sum(TopUp(q, extra)) == Sum(q) + extra
  {
    if q != [] {
      var n := |q| - 1;
      if extra == |q| {
        TopUpAdds(q[..n], n);
        assert TopUp(q, extra)[..n] == TopUp(q[..n], n);
      } else {
        TopUpAdds(q[..n], extra);
        assert TopUp(q, extra)[..n] == TopUp(q[..n], extra);
      }
    }
  }

  // Nothing is lost and nothing invented.
  lemma SharesAddUp(total: nat, weights: seq<int>)
    requires weights != [] && Sum(weights) > 0 && forall i | 0 <= i < |weights| :: weights[i] >= 0
    ensures Sum(Shares(total, weights)) == total
  {
    LeftoverIsSmall(total, weights);
    TopUpAdds(Floors(total, weights, Sum(weights)), Leftover(total, weights));
  }

  // Each part is within one tick of its exact share, total * weight / sum of weights.
  lemma SharesAreClose(total: nat, weights: seq<int>, i: nat)
    requires i < |weights| && Sum(weights) > 0 && forall i | 0 <= i < |weights| :: weights[i] >= 0
    ensures var w := Sum(weights); var part := Shares(total, weights)[i];
            w * (part - 1) <= total * weights[i] < w * (part + 1)
  {
    var w := Sum(weights);
    ProductNonNegative(total, weights[i]);
    Bracket(total * weights[i], w);
    var down := total * weights[i] / w;
    Times(w, down, 1);
    Times(w, down, 2);
    Times(w, down, -1);
    LeftoverIsSmall(total, weights);
  }

  lemma {:induction false} SumOfSame(n: nat, x: int)
    ensures Sum(seq(n, _ => x)) == n * x
  {
    if n > 0 {
      SumOfSame(n - 1, x);
      assert seq(n, _ => x)[..n - 1] == seq(n - 1, _ => x);
      Times(x, n - 1, 1);
    }
  }

  // The first k parts of an even split.
  lemma EvenPrefix(total: nat, n: nat, k: nat)
    requires 0 < n && k <= n
    ensures Sum(Even(total, n)[..k]) == k * (total / n) + (if k <= total % n then k else total % n)
  {
    var base, rest := total / n, total % n;
    var extra := if k <= rest then k else rest;
    assert Even(total, n)[..k] == TopUp(seq(k, _ => base), extra);
    SumOfSame(k, base);
    TopUpAdds(seq(k, _ => base), extra);
  }

  lemma EvenAddsUp(total: nat, n: nat)
    requires n > 0
    ensures Sum(Even(total, n)) == total
  {
    EvenPrefix(total, n, n);
    assert Even(total, n)[..n] == Even(total, n);
  }

  lemma {:induction false} ParticipateBounds(volumes: seq<i64>, bps: nat, remaining: nat)
    requires forall v | v in volumes :: v > 0
    ensures var q := Participate(volumes, bps, remaining); var capacity := TotalCapacity(volumes, bps);
            && Positive(q)
            && capacity >= 0
            && Sum(q) == if remaining <= capacity then remaining else capacity
    decreases |volumes|
  {
    if volumes != [] {
      assert volumes[0] in volumes;
      var capacity := Capacity(volumes[0], bps);
      CapacityIsNonNegative(volumes[0], bps);
      forall v | v in volumes[1..]
        ensures v > 0
      {
        assert v in volumes;
      }
      ParticipateBounds(volumes[1..], bps, remaining);
      if remaining > 0 && 0 < capacity <= remaining {
        ParticipateBounds(volumes[1..], bps, remaining - capacity);
        SumConcat([capacity], Participate(volumes[1..], bps, remaining - capacity));
      }
    }
  }

  lemma CapacityIsNonNegative(volume: nat, bps: nat)
    ensures Capacity(volume, bps) >= 0
  {
    ProductNonNegative(volume, bps);
  }

  // --- when each policy succeeds ---

  lemma TwapSucceedsExactly(total: i64, slices: u64, interval: u64)
    requires total > 0
    ensures TwapQuantities(total, slices, interval).Ok? <==> 0 < slices <= total && interval > 0
    ensures TwapQuantities(total, slices, interval).Ok? ==>
              var q := TwapQuantities(total, slices, interval).value; Sum(q) == total && Positive(q)
  {
    if 0 < slices <= total {
      EvenAddsUp(total, slices);
      AtLeastOne(total, slices);
    }
  }

  lemma AtLeastOne(a: nat, d: nat)
    requires 0 < d <= a
    ensures a / d >= 1
  {
  }

  // Participation fills the order exactly when the whole capacity covers it.
  lemma PovSucceedsExactly(total: i64, bps: u32, interval: u64, volumes: seq<i64>)
    requires total > 0
    ensures PovQuantities(total, bps, interval, volumes).Ok? <==>
              && 0 < bps <= 10_000 && interval > 0 && volumes != [] && (forall v | v in volumes :: v > 0)
              && total <= TotalCapacity(volumes, bps)
    ensures PovQuantities(total, bps, interval, volumes).Ok? ==>
              var q := PovQuantities(total, bps, interval, volumes).value; Sum(q) == total && Positive(q) && q != []
  {
    if forall v | v in volumes :: v > 0 {
      ParticipateBounds(volumes, bps, total);
    }
  }

  predicate NonIncreasing(q: seq<int>) {
    forall i, j | 0 <= i <= j < |q| :: q[i] >= q[j]
  }

  lemma DivideMonotone(a: int, b: int, d: int)
    requires d > 0 && a <= b
    ensures a / d <= b / d
  {
    Bracket(a, d);
    Bracket(b, d);
    if a / d > b / d {
      Times(d, b / d, 1);
      ProductMonotone(d, b / d + 1, a / d);
    }
  }

  lemma ProductMonotone(c: nat, a: int, b: int)
    requires a <= b
    ensures c * a <= c * b
  {
    Times(c, a, b - a);
    ProductNonNegative(c, b - a);
  }

  lemma FrontWeightsFall(n: nat, urgency: nat)
    requires n > 0
    ensures NonIncreasing(FrontWeights(n, urgency))
    ensures FrontWeights(n, urgency)[n - 1] == 10_000
  {
    forall i, j | 0 <= i <= j < n
      ensures FrontWeight(n, urgency, i) >= FrontWeight(n, urgency, j)
    {
      ProductMonotone(urgency, n - 1 - j, n - 1 - i);
      DivideMonotone(urgency * (n - 1 - j), urgency * (n - 1 - i), n);
    }
    assert urgency * (n - 1 - (n - 1)) == 0;
    assert 0 / n == 0;
  }

  lemma SharesFall(total: nat, weights: seq<int>)
    requires weights != [] && Sum(weights) > 0 && NonIncreasing(weights)
    ensures NonIncreasing(Shares(total, weights))
  {
    hide Sum;
    var w := Sum(weights);
    forall i, j | 0 <= i <= j < |weights|
      ensures Floors(total, weights, w)[i] >= Floors(total, weights, w)[j]
    {
      ProductMonotone(total, weights[j], weights[i]);
      DivideMonotone(total * weights[j], total * weights[i], w);
    }
  }

  // Front-loading keeps a tick for every child exactly when the smallest share, the last, is worth
  // one; otherwise the whole schedule is refused.
  lemma FrontSucceedsExactly(total: i64, slices: u64, interval: u64, urgency: u32)
    requires total > 0
    ensures FrontQuantities(total, slices, interval, urgency).Ok? <==>
              && 0 < slices <= total && interval > 0 && urgency <= 10_000
              && Sum(FrontWeights(slices, urgency)) <= total * 10_000
    ensures FrontQuantities(total, slices, interval, urgency).Ok? ==>
              var q := FrontQuantities(total, slices, interval, urgency).value;
              Sum(q) == total && Positive(q) && NonIncreasing(q) && |q| == slices
  {
    hide FrontWeight, Sum;
    if 0 < slices <= total {
      var weights := FrontWeights(slices, urgency);
      FrontWeightsArePositive(slices, urgency);
      var w, q := Sum(weights), Shares(total, weights);
      FrontWeightsFall(slices, urgency);
      SharesAddUp(total, weights);
      SharesFall(total, weights);
      LeftoverIsSmall(total, weights);
      assert q[slices - 1] == total * 10_000 / w;
      QuotientPositive(total * 10_000, w);
      PositiveByIndex(q);
    }
  }

  lemma QuotientPositive(a: nat, d: int)
    requires d > 0
    ensures a / d > 0 <==> d <= a
  {
    Bracket(a, d);
    if a / d > 0 && d > a {
      Times(d, 1, a / d - 1);
      ProductNonNegative(d, a / d - 1);
    }
  }

  // Two ticks in two slices at full urgency leave nothing for the second: the promise of one tick
  // per child is kept by refusing.
  lemma FullUrgencyCanRefuse()
    ensures FrontQuantities(2, 2, 1, 10_000) == Err(InvalidSchedule)
    ensures TwapQuantities(2, 2, 1) == Ok([1, 1])
  {
    var w := FrontWeights(2, 10_000);
    assert w[..1][..0] == [];
    assert w == [15_000, 10_000];
    assert Sum(w) == 25_000 by { assert w[..1] == [15_000]; assert Sum([15_000]) == 15_000; }
    FrontSucceedsExactly(2, 2, 1, 10_000);
    assert Even(2, 2) == [1, 1];
  }

  lemma VwapSucceedsExactly(total: i64, weights: seq<u32>)
    requires total > 0
    ensures VwapQuantities(total, weights).Ok? <==>
              && weights != [] && 0 !in weights && 0 < Sum(weights) <= U64_MAX
              && forall i | 0 <= i < |weights| :: Leftover(total, weights) <= i ==> Sum(weights) <= total * weights[i]
    ensures VwapQuantities(total, weights).Ok? ==>
              var q := VwapQuantities(total, weights).value; Sum(q) == total && Positive(q) && |q| == |weights|
  {
    hide Sum;
    if weights != [] && 0 !in weights {
      assert forall i | 0 <= i < |weights| :: weights[i] >= 1;
      SumAtLeast(weights, 1);
      SharesAddUp(total, weights);
      LeftoverIsSmall(total, weights);
      var q := Shares(total, weights);
      PositiveByIndex(q);
      forall i | 0 <= i < |weights|
        ensures q[i] > 0 <==> (Leftover(total, weights) <= i ==> Sum(weights) <= total * weights[i])
      {
        ShareIsPositive(total, weights, i);
      }
    }
  }

  lemma ShareIsPositive(total: nat, weights: seq<int>, i: nat)
    requires i < |weights| && Sum(weights) > 0 && weights[i] >= 0
    ensures Shares(total, weights)[i] > 0 <==> (Leftover(total, weights) <= i ==> Sum(weights) <= total * weights[i])
  {
    hide Sum;
    QuotientNonNegative(total, weights[i], Sum(weights));
    ProductNonNegative(total, weights[i]);
    QuotientPositive(total * weights[i], Sum(weights));
  }

  lemma PositiveByIndex(q: seq<int>)
    ensures Positive(q) <==> forall i | 0 <= i < |q| :: q[i] > 0
  {
    forall i | 0 <= i < |q|
      ensures q[i] in q
    {
    }
  }

  // --- front-loaded against even ---

  // Among all non-increasing splits of a quantity, the even one has done least at every point.
  lemma EvenIsSlowest(q: seq<int>, total: nat, k: nat)
    requires q != [] && k <= |q| && NonIncreasing(q) && Sum(q) == total
    ensures Sum(q[..k]) >= Sum(Even(total, |q|)[..k])
  {
    hide Sum, Even;
    var n := |q|;
    var base, rest := total / n, total % n;
    EvenPrefix(total, n, k);
    SumSplit(q, k);
    assert total == n * base + rest;
    if k == 0 || k == n {
      PrefixAtEnds(q, k);
    } else if q[if k <= rest then k - 1 else k] > base {
      HighPrefix(q, k, base);
    } else {
      LowTail(q, k, base);
    }
  }

  lemma HighPrefix(q: seq<int>, k: nat, base: nat)
    requires k <= |q| && forall i | 0 <= i < k :: q[i] > base
    ensures Sum(q[..k]) >= k * base + k
  {
    hide Sum;
    SumAtLeast(q[..k], base + 1);
    Times(k, base, 1);
  }

  lemma LowTail(q: seq<int>, k: nat, base: nat)
    requires k <= |q| && forall i | k <= i < |q| :: q[i] <= base
    ensures Sum(q[k..]) <= |q| * base - k * base
  {
    hide Sum;
    SumAtMost(q[k..], base);
    Products(base, k, |q|);
  }

  lemma Products(base: nat, k: nat, n: nat)
    requires k <= n
    ensures base * (n - k) == n * base - k * base
  {
  }

  lemma PrefixAtEnds(q: seq<int>, k: nat)
    requires k <= |q|
    ensures k == 0 ==> Sum(q[..k]) == 0
    ensures k == |q| ==> q[..k] == q
  {
  }

  // The front-loaded schedule never rises, and after any number of children it has scheduled at
  // least as much as an even schedule with as many children.
  lemma FrontLoadedLeadsTwap(total: i64, slices: u64, interval: u64, urgency: u32, k: nat)
    requires total > 0 && FrontQuantities(total, slices, interval, urgency).Ok? && k <= slices
    ensures var front := FrontQuantities(total, slices, interval, urgency).value;
            && NonIncreasing(front) && |front| == slices
            && TwapQuantities(total, slices, interval).Ok?
            && var even := TwapQuantities(total, slices, interval).value;
            && |even| == slices
            && Sum(front[..k]) >= Sum(even[..k])
  {
    hide Sum, FrontQuantities;
    FrontSucceedsExactly(total, slices, interval, urgency);
    EvenIsSlowest(FrontQuantities(total, slices, interval, urgency).value, total, k);
  }

  lemma SameQuotient(total: nat, c: int, n: int)
    requires c > 0 && n > 0
    ensures n * c > 0 && total * c / (n * c) == total / n
  {
    PositiveProduct(n, c);
    ProductNonNegative(total, c);
    var x, y := total / n, total * c / (n * c);
    Bracket(total, n);
    Bracket(total * c, n * c);
    assert n * x <= total < n * (x + 1) by { Times(n, x, 1); }
    ProductMonotone(c, n * x, total);
    ProductMonotone(c, total + 1, n * (x + 1));
    Times(c, total, 1);
    Regroup(c, n, x);
    Regroup(c, n, x + 1);
    Times(n * c, y, 1);
    CancelStrict(n * c, x, y + 1);
    CancelStrict(n * c, y, x + 1);
  }

  lemma Regroup(c: int, n: int, x: int)
    ensures c * (n * x) == (n * c) * x
  {
  }

  // With no urgency, front-loading is the even schedule, whole result for whole result.
  lemma NoUrgencyIsTwap(total: i64, slices: u64, interval: u64)
    requires total > 0
    ensures FrontQuantities(total, slices, interval, 0) == TwapQuantities(total, slices, interval)
  {
    hide Sum;
    if 0 < slices <= total && interval > 0 {
      var weights := FrontWeights(slices, 0);
      FlatWeights(slices);
      SumOfSame(slices, 10_000);
      SameQuotient(total, 10_000, slices);
      var base := total / slices;
      assert Floors(total, weights, Sum(weights)) == seq(slices, _ => base);
      SumOfSame(slices, base);
      Bracket(total, slices);
      assert Leftover(total, weights) == total % slices;
      assert Shares(total, weights) == Even(total, slices);
      TwapSucceedsExactly(total, slices, interval);
    }
  }

  lemma FlatWeights(n: nat)
    requires n > 0
    ensures FrontWeights(n, 0) == seq(n, _ => 10_000)
  {
    assert 0 / n == 0;
  }

  // --- whole plans ---

  method PlanQuantities(total: i64, schedule: Schedule) returns (r: Result<(seq<int>, u64), PlanError>)
    requires total > 0 && !schedule.Adaptive?
    ensures r == Quantities(total, schedule)
  {
    hide Sum;
    match schedule {
      case Immediate =>
        return Ok(([total], 0));
      case Twap(slices, interval) =>
        if slices == 0 || interval == 0 || slices > total {
          return Err(InvalidSchedule);
        }
        return Ok((Even(total, slices), interval));
      case Vwap(weights) =>
        if weights == [] || 0 in weights {
          return Err(InvalidSchedule);
        }
        SumAtLeast(weights, 1);
        if Sum(weights) > U64_MAX {
          return Err(InvalidSchedule);
        }
        var shared := ShareOut(total, weights);
        return WithInterval(shared, 0);
      case Pov(bps, interval, volumes) =>
        if bps == 0 || bps > 10_000 || interval == 0 || volumes == [] || exists v | v in volumes :: v <= 0 {
          return Err(InvalidSchedule);
        }
        var q, remaining := TakeVolumes(volumes, bps, total);
        if remaining != 0 {
          return Err(InvalidSchedule);
        }
        return Ok((q, interval));
      case ImplementationShortfall(slices, interval, urgency) =>
        if slices == 0 || slices > total || interval == 0 || urgency > 10_000 {
          return Err(InvalidSchedule);
        }
        FrontWeightsArePositive(slices, urgency);
        var shared := ShareOut(total, FrontWeights(slices, urgency));
        return WithInterval(shared, interval);
    }
  }

  // The part the two weighted policies have in common.
  method ShareOut(total: nat, weights: seq<int>) returns (r: Result<seq<int>, PlanError>)
    requires weights != [] && Sum(weights) > 0 && forall i | 0 <= i < |weights| :: weights[i] >= 0
    ensures r == Checked(Shares(total, weights), total)
  {
    hide Sum;
    var quantities := Floors(total, weights, Sum(weights));
    LeftoverIsSmall(total, weights);
    SharesAddUp(total, weights);
    var placed := Sum(quantities);
    var q, remainder := DistributeRemainder(quantities, total - placed);
    if remainder != 0 || exists x | x in q :: x <= 0 {
      return Err(InvalidSchedule);
    }
    return Ok(q);
  }

  method PlanChildren(intent: OrderIntent, schedule: Schedule) returns (r: Result<seq<ChildOrder>, PlanError>)
    ensures r == Plan(intent, schedule)
    decreases schedule.Adaptive?
  {
    hide Selected, Quantities, Children;
    if intent.quantityTicks <= 0 {
      return Err(InvalidSchedule);
    }
    if schedule.Adaptive? {
      var selected := Selected(intent.quantityTicks, schedule);
      if selected.Err? {
        return Err(selected.error);
      }
      r := PlanChildren(intent, selected.value);
      return;
    }
    var quantities := PlanQuantities(intent.quantityTicks, schedule);
    if quantities.Err? {
      return Err(quantities.error);
    }
    r := BuildChildren(intent, quantities.value.0, quantities.value.1);
  }

  function Interval(schedule: Schedule): u64 {
    if schedule.Immediate? || schedule.Vwap? then 0 else schedule.intervalNs
  }

  function QuantitiesOf(children: seq<ChildOrder>): seq<int> {
    seq(|children|, i requires 0 <= i < |children| => children[i].quantityTicks)
  }

  lemma QuantitiesAddUp(total: i64, schedule: Schedule)
    requires total > 0 && !schedule.Adaptive? && Quantities(total, schedule).Ok?
    ensures var (q, interval) := Quantities(total, schedule).value;
            q != [] && Positive(q) && Sum(q) == total && interval == Interval(schedule)
  {
    hide TwapQuantities, VwapQuantities, PovQuantities, FrontQuantities;
    match schedule
    case Immediate => assert [total][..0] == []; assert Sum([]) == 0;
    case Twap(slices, interval) =>
      TwapSucceedsExactly(total, slices, interval);
      NotEmpty(TwapQuantities(total, slices, interval).value);
    case Vwap(weights) => VwapSucceedsExactly(total, weights); NotEmpty(VwapQuantities(total, weights).value);
    case Pov(bps, interval, volumes) => PovSucceedsExactly(total, bps, interval, volumes);
    case ImplementationShortfall(slices, interval, urgency) => FrontSucceedsExactly(total, slices, interval, urgency);
  }

  lemma NotEmpty(q: seq<int>)
    ensures Sum(q) > 0 ==> q != []
  {
  }

  // One child of a parent: its number, its id, when it is due, and whatever it takes over from the parent.
  predicate IsChild(c: ChildOrder, intent: OrderIntent, sequence: nat, due: int) {
    && c.parentClientOrderId == intent.clientOrderId
    && c.childSequence == sequence
    && c.clientOrderId == intent.clientOrderId + "-child-" + Decimal.Show(sequence)
    && c.dueAfterNs == due <= U64_MAX
    && c.side == intent.side && c.orderType == intent.orderType && c.limitPriceTicks == intent.limitPriceTicks
  }

  lemma PlanIs(intent: OrderIntent, schedule: Schedule)
    requires Plan(intent, schedule).Ok?
    ensures var children := Plan(intent, schedule).value;
            && children != []
            && Positive(QuantitiesOf(children))
            && Sum(QuantitiesOf(children)) == intent.quantityTicks
            && forall i | 0 <= i < |children| ::
                 children[i] == Child(intent, i, children[i].quantityTicks, Interval(schedule))
                   && children[i].dueAfterNs <= U64_MAX
    decreases schedule.Adaptive?
  {
    hide Quantities, ChildId, Due;
    if schedule.Adaptive? {
      PlanIs(intent, Selected(intent.quantityTicks, schedule).value);
    } else {
      QuantitiesAddUp(intent.quantityTicks, schedule);
      var (q, interval) := Quantities(intent.quantityTicks, schedule).value;
      var children := Plan(intent, schedule).value;
      assert QuantitiesOf(children) == q;
      forall i | 0 <= i < |children|
        ensures children[i] == Child(intent, i, children[i].quantityTicks, Interval(schedule))
                  && children[i].dueAfterNs <= U64_MAX
      {
        assert children[i] == Child(intent, i, q[i], interval);
        DueGrows(interval, i, |q| - 1);
      }
    }
  }

  // For every policy, a plan that succeeds splits exactly the parent: positive children that add up
  // to it, numbered from one, due one interval apart, each under an id of its own.
  lemma PlanIsExact(intent: OrderIntent, schedule: Schedule)
    requires Plan(intent, schedule).Ok?
    ensures var children := Plan(intent, schedule).value;
            && children != []
            && Positive(QuantitiesOf(children))
            && Sum(QuantitiesOf(children)) == intent.quantityTicks
            && forall i | 0 <= i < |children| :: IsChild(children[i], intent, i + 1, i * Interval(schedule))
  {
    hide Plan, Due, Decimal.Show;
    PlanIs(intent, schedule);
    var children := Plan(intent, schedule).value;
    forall i | 0 <= i < |children|
      ensures IsChild(children[i], intent, i + 1, i * Interval(schedule))
    {
      DueIsMultiple(Interval(schedule), i);
    }
  }

  lemma DueIsMultiple(interval: u64, i: nat)
    ensures Due(interval, i) == i * interval
  {
  }

  // --- how each policy splits ---

  // Shares in proportion, rounded down, and one tick more for each of the first k.
  predicate RoundedDown(q: seq<int>, total: int, weights: seq<int>, k: int)
    requires |q| == |weights| && Sum(weights) > 0
  {
    forall i | 0 <= i < |q| :: q[i] == total * weights[i] / Sum(weights) + if i < k then 1 else 0
  }

  ghost predicate Proportional(q: seq<int>, total: int, weights: seq<int>) {
    |q| == |weights| && Sum(weights) > 0 && exists k :: RoundedDown(q, total, weights, k)
  }

  // What each slice of volume allows, if anything.
  function Allowed(volumes: seq<i64>, bps: nat): seq<int>
    decreases |volumes|
  {
    if volumes == [] then [] else
    (if volumes[0] * bps / 10_000 > 0 then [volumes[0] * bps / 10_000] else []) + Allowed(volumes[1..], bps)
  }

  // All that the first slices allow, and at most what the next one does.
  predicate Takes(q: seq<int>, allowed: seq<int>) {
    && 0 < |q| <= |allowed|
    && q[..|q| - 1] == allowed[..|q| - 1] && q[|q| - 1] <= allowed[|q| - 1]
  }

  ghost predicate SplitAs(q: seq<int>, total: i64, schedule: Schedule)
    requires total > 0
    decreases schedule.Adaptive?
  {
    match schedule
    case Immediate => q == [total]
    case Twap(slices, interval) => 0 < |q| == slices && NonIncreasing(q) && q[0] <= q[slices - 1] + 1
    case Vwap(weights) => Proportional(q, total, weights)
    case Pov(bps, interval, volumes) => Takes(q, Allowed(volumes, bps))
    case ImplementationShortfall(slices, interval, urgency) =>
      slices > 0
      && Proportional(q, total, seq(slices, i requires 0 <= i < slices => 10_000 + urgency * (slices - 1 - i) / slices))
    case Adaptive(slices, interval, urgency, spread, maxSpread, volatility, maxVolatility, volumes) =>
      if spread <= maxSpread && volatility <= maxVolatility then SplitAs(q, total, Pov(urgency, interval, volumes))
      else SplitAs(q, total, ImplementationShortfall(if slices <= total then slices else total, interval,
                                                     if urgency >= 7_500 then urgency else 7_500))
  }

  lemma EvenIsLevel(total: nat, n: nat)
    requires n > 0
    ensures NonIncreasing(Even(total, n)) && Even(total, n)[0] <= Even(total, n)[n - 1] + 1
  {
  }

  lemma SharesAreProportional(total: nat, weights: seq<int>)
    requires Sum(weights) > 0
    ensures Proportional(Shares(total, weights), total, weights)
  {
    hide Sum;
    assert RoundedDown(Shares(total, weights), total, weights, Leftover(total, weights));
  }

  lemma {:induction false} ParticipateTakes(volumes: seq<i64>, bps: nat, remaining: int)
    requires remaining > 0 && Sum(Participate(volumes, bps, remaining)) == remaining
    ensures Takes(Participate(volumes, bps, remaining), Allowed(volumes, bps))
    decreases |volumes|
  {
    hide Capacity, Sum, Takes, Allowed;
    SumOfNothing();
    CapacityIs(volumes[0], bps);
    AllowedFirst(volumes, bps);
    var capacity := Capacity(volumes[0], bps);
    if capacity <= 0 {
      assert [] + Allowed(volumes[1..], bps) == Allowed(volumes[1..], bps);
      ParticipateTakes(volumes[1..], bps, remaining);
    } else if capacity < remaining {
      var rest := Participate(volumes[1..], bps, remaining - capacity);
      SumConcat([capacity], rest);
      SumOfOne(capacity);
      ParticipateTakes(volumes[1..], bps, remaining - capacity);
      TakesMore(capacity, rest, Allowed(volumes[1..], bps));
    } else {
      TakesOne(remaining, capacity, Allowed(volumes[1..], bps));
      assert Participate(volumes, bps, remaining) == [remaining] by {
        NothingIsLeft(volumes[1..], bps);
        assert [capacity] + [] == [capacity];
      }
    }
  }

  lemma NothingIsLeft(volumes: seq<i64>, bps: nat)
    ensures Participate(volumes, bps, 0) == []
  {
  }

  lemma AllowedFirst(volumes: seq<i64>, bps: nat)
    requires volumes != []
    ensures var first := volumes[0] * bps / 10_000;
            Allowed(volumes, bps) == (if first > 0 then [first] else []) + Allowed(volumes[1..], bps)
  {
  }

  lemma TakesMore(x: int, q: seq<int>, allowed: seq<int>)
    requires Takes(q, allowed)
    ensures Takes([x] + q, [x] + allowed)
  {
    assert ([x] + q)[..|q|] == [x] + q[..|q| - 1];
  }

  lemma TakesOne(x: int, first: int, allowed: seq<int>)
    requires x <= first
    ensures Takes([x], [first] + allowed)
  {
  }

  lemma SumOfOne(x: int)
    ensures Sum([x]) == x
  {
    assert [x][..0] == [];
  }

  // For every policy, how much each child gets.
  lemma SplitExactly(intent: OrderIntent, schedule: Schedule)
    requires Plan(intent, schedule).Ok?
    ensures intent.quantityTicks > 0
    ensures SplitAs(QuantitiesOf(Plan(intent, schedule).value), intent.quantityTicks, schedule)
    decreases schedule.Adaptive?
  {
    hide Sum, Shares, Participate, Allowed, Even, FrontWeight, ChildId, Due, NonIncreasing;
    var total := intent.quantityTicks;
    if schedule.Adaptive? {
      SplitExactly(intent, Selected(total, schedule).value);
    } else {
      QuantitiesAddUp(total, schedule);
      var (q, interval) := Quantities(total, schedule).value;
      assert QuantitiesOf(Plan(intent, schedule).value) == q;
      match schedule
      case Immediate =>
      case Twap(slices, interval) => EvenIsLevel(total, slices);
      case Vwap(weights) =>
        SumAtLeast(weights, 1);
        SharesAreProportional(total, weights);
      case Pov(bps, interval, volumes) => ParticipateTakes(volumes, bps, total);
      case ImplementationShortfall(slices, interval, urgency) =>
        FrontWeightsArePositive(slices, urgency);
        SharesAreProportional(total, FrontWeights(slices, urgency));
        FrontWeightsAre(slices, urgency);
    }
  }

  lemma FrontWeightsAre(n: nat, urgency: nat)
    ensures FrontWeights(n, urgency) == seq(n, i requires 0 <= i < n => 10_000 + urgency * (n - 1 - i) / n)
  {
  }

  // How many slices of volume allow something before they cover the quantity.
  function Contributing(volumes: seq<i64>, bps: nat, open: int): nat
    decreases |volumes|
  {
    if volumes == [] || open <= 0 then 0
    else
      var capacity := volumes[0] * bps / 10_000;
      (if capacity > 0 then 1 else 0) + Contributing(volumes[1..], bps, open - capacity)
  }

  lemma CapacityIs(volume: int, bps: nat)
    ensures Capacity(volume, bps) == volume * bps / 10_000
  {
  }

  lemma {:induction false} ParticipantsCount(volumes: seq<i64>, bps: nat, open: nat)
    requires forall v | v in volumes :: v > 0
    ensures |Participate(volumes, bps, open)| == Contributing(volumes, bps, open)
    decreases |volumes|
  {
    hide Capacity;
    if volumes != [] && open > 0 {
      CapacityIs(volumes[0], bps);
      assert volumes[0] in volumes;
      CapacityIsNonNegative(volumes[0], bps);
      var capacity := Capacity(volumes[0], bps);
      assert forall v | v in volumes[1..] :: v in volumes;
      if capacity <= open {
        ParticipantsCount(volumes[1..], bps, open - capacity);
      }
    }
  }

  // What each policy asks for, in terms of what the caller gives it: parameters in range, every child worth
  // a tick, the number of children and the last due time within their types.
  predicate Feasible(total: i64, schedule: Schedule)
    requires total > 0
    decreases schedule.Adaptive?
  {
    match schedule
    case Immediate => true
    case Twap(slices, interval) => 0 < slices <= total && interval > 0 && Fits(slices, interval)
    case Vwap(weights) =>
      && weights != [] && 0 !in weights && 0 < Sum(weights) <= U64_MAX && |weights| <= U32_MAX
      && forall i | 0 <= i < |weights| :: Leftover(total, weights) <= i ==> Sum(weights) <= total * weights[i]
    case Pov(bps, interval, volumes) =>
      && 0 < bps <= 10_000 && interval > 0 && volumes != [] && (forall v | v in volumes :: v > 0)
      && total <= TotalCapacity(volumes, bps) && Fits(Contributing(volumes, bps, total), interval)
    case ImplementationShortfall(slices, interval, urgency) =>
      && 0 < slices <= total && interval > 0 && urgency <= 10_000
      && Sum(FrontWeights(slices, urgency)) <= total * 10_000 && Fits(slices, interval)
    case Adaptive(slices, interval, urgency, spread, maxSpread, volatility, maxVolatility, volumes) =>
      && slices > 0 && interval > 0 && 0 < urgency <= 10_000 && spread >= 0 && maxSpread > 0
      && volatility <= 100_000 && maxVolatility > 0 && 0 < |volumes| <= slices
      && if spread <= maxSpread && volatility <= maxVolatility then Feasible(total, Pov(urgency, interval, volumes))
         else Feasible(total, ImplementationShortfall(if slices <= total then slices else total, interval,
                                                      if urgency >= 7_500 then urgency else 7_500))
  }

  lemma ArmSucceedsExactly(total: i64, schedule: Schedule)
    requires total > 0 && !schedule.Adaptive?
    ensures Feasible(total, schedule) <==>
              && Quantities(total, schedule).Ok?
              && var (q, interval) := Quantities(total, schedule).value; Fits(|q|, interval)
  {
    hide TwapQuantities, VwapQuantities, PovQuantities, FrontQuantities, FrontWeights, Sum, Participate;
    match schedule
    case Immediate =>
    case Twap(slices, interval) =>
      TwapSucceedsExactly(total, slices, interval);
      TwapCount(total, slices, interval);
    case Vwap(weights) =>
      VwapSucceedsExactly(total, weights);
    case Pov(bps, interval, volumes) =>
      PovSucceedsExactly(total, bps, interval, volumes);
      PovCount(total, bps, interval, volumes);
    case ImplementationShortfall(slices, interval, urgency) =>
      FrontSucceedsExactly(total, slices, interval, urgency);
  }

  lemma TwapCount(total: i64, slices: u64, interval: u64)
    requires total > 0
    ensures TwapQuantities(total, slices, interval).Ok? ==> |TwapQuantities(total, slices, interval).value| == slices
  {
  }

  lemma PovCount(total: i64, bps: u32, interval: u64, volumes: seq<i64>)
    requires total > 0
    ensures PovQuantities(total, bps, interval, volumes).Ok? ==>
              |PovQuantities(total, bps, interval, volumes).value| == Contributing(volumes, bps, total)
  {
    hide Participate, Contributing, Sum;
    if forall v | v in volumes :: v > 0 {
      ParticipantsCount(volumes, bps, total);
    }
  }

  // For every policy, the adaptive one included, exactly when a plan is made.
  lemma PlanSucceedsExactly(intent: OrderIntent, schedule: Schedule)
    ensures Plan(intent, schedule).Ok? <==> intent.quantityTicks > 0 && Feasible(intent.quantityTicks, schedule)
  {
    hide Quantities, Fits, FrontWeights, Sum, Contributing, TotalCapacity, Leftover;
    if intent.quantityTicks > 0 {
      if schedule.Adaptive? {
        var selected := Selected(intent.quantityTicks, schedule);
        if selected.Ok? {
          ArmSucceedsExactly(intent.quantityTicks, selected.value);
        }
      } else {
        ArmSucceedsExactly(intent.quantityTicks, schedule);
      }
    }
  }

  lemma ChildIdsAreDistinct(parent: string, m: nat, n: nat)
    requires ChildId(parent, m) == ChildId(parent, n)
    ensures m == n
  {
    var prefix := parent + "-child-";
    assert ChildId(parent, m)[|prefix|..] == Decimal.Show(m);
    assert ChildId(parent, n)[|prefix|..] == Decimal.Show(n);
    Decimal.ShowInjective(m, n);
  }
}
