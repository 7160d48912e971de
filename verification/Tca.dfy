/** Transaction-cost analysis of crates/execution: the integer part, with every overflow check. */
module Tca {
  import opened Wrappers
  import opened Bytes
  import opened BrokerApi

  const I128_MAX: int := 0x7fff_ffff_ffff_ffff_ffff_ffff_ffff_ffff
  const I128_MIN: int := -I128_MAX - 1

  predicate InI64(n: int) { I64_MIN <= n <= I64_MAX }

  predicate InI128(n: int) { I128_MIN <= n <= I128_MAX }

  datatype Sample = Sample(quantityTicks: i64, priceTicks: i64)

  datatype TcaError = InvalidChildTransition | InvalidValue | NoFills | Overflow | InvalidTiming | MissingReference

  // --- sums over fills ---

  function Quantity(fills: seq<Sample>): int {
    if fills == [] then 0 else fills[0].quantityTicks + Quantity(fills[1..])
  }

  function Notional(fills: seq<Sample>): int {
    if fills == [] then 0 else fills[0].quantityTicks * fills[0].priceTicks + Notional(fills[1..])
  }

  // The cost against one reference price, fill by fill.
  function Shortfall(side: Side, reference: int, fills: seq<Sample>): int {
    if fills == [] then 0
    else
      var paid := fills[0].quantityTicks * (fills[0].priceTicks - reference);
      (if side == Buy then paid else -paid) + Shortfall(side, reference, fills[1..])
  }

  predicate Valid(fills: seq<Sample>) {
    forall i | 0 <= i < |fills| :: fills[i].quantityTicks > 0 && fills[i].priceTicks > 0
  }

  // checked_add folds: they stop at the first sum out of range.
  function CheckedQuantity(fills: seq<Sample>, total: int): Option<int>
    decreases |fills|
  {
    if fills == [] then Some(total) else
    var next := total + fills[0].quantityTicks;
    if InI64(next) then CheckedQuantity(fills[1..], next) else None
  }

  function CheckedNotional(fills: seq<Sample>, total: int): Option<int>
    decreases |fills|
  {
    if fills == [] then Some(total) else
    var next := total + fills[0].quantityTicks * fills[0].priceTicks;
    if InI128(next) then CheckedNotional(fills[1..], next) else None
  }

  // --- calculate_tca ---

  datatype TcaInput = TcaInput(
    side: Side,
    arrivalPriceTicks: i64,
    sentMonoNs: u64,
    ackMonoNs: Option<u64>,
    fills: seq<Sample>,
    marketVolumeTicks: Option<i64>,
    arrivalSpreadTicks: Option<i64>)

  datatype TcaResult = TcaResult(
    filledQuantityTicks: int,
    averageNumerator: int,
    shortfall: int,
    ackLatencyNs: Option<nat>,
    participationBps: Option<int>,
    arrivalSpreadTicks: Option<i64>)

  predicate Acceptable(input: TcaInput) {
    && input.arrivalPriceTicks > 0
    && input.fills != []
    && Valid(input.fills)
    && (input.marketVolumeTicks.Some? ==> input.marketVolumeTicks.value > 0)
    && (input.arrivalSpreadTicks.Some? ==> input.arrivalSpreadTicks.value >= 0)
    && (input.ackMonoNs.Some? ==> input.ackMonoNs.value >= input.sentMonoNs)
  }

  function Calculate(input: TcaInput): Result<TcaResult, TcaError> {
    if input.arrivalPriceTicks <= 0 || input.fills == []
       || (exists i | 0 <= i < |input.fills| :: input.fills[i].quantityTicks <= 0 || input.fills[i].priceTicks <= 0)
       || (input.marketVolumeTicks.Some? && input.marketVolumeTicks.value <= 0)
       || (input.arrivalSpreadTicks.Some? && input.arrivalSpreadTicks.value < 0)
       || (input.ackMonoNs.Some? && input.ackMonoNs.value < input.sentMonoNs) then Err(InvalidChildTransition) else
    match CheckedQuantity(input.fills, 0)
    case None => Err(InvalidChildTransition)
    case Some(filled) =>
      match CheckedNotional(input.fills, 0)
      case None => Err(InvalidChildTransition)
      case Some(notional) =>
        var delta := notional - filled * input.arrivalPriceTicks;
        if !InI128(filled * input.arrivalPriceTicks) || !InI128(delta)
          || !InI128(Signed(input.side, delta)) then Err(InvalidChildTransition)
        else Ok(TcaResult(filled, notional, Signed(input.side, delta),
                          if input.ackMonoNs.Some? then Some(input.ackMonoNs.value - input.sentMonoNs) else None,
                          if input.marketVolumeTicks.Some? then
                            Some(Participation(filled, input.marketVolumeTicks.value)) else None,
                          input.arrivalSpreadTicks))
  }

  function Participation(filled: int, volume: int): int
    requires volume > 0
  {
    var bps := filled * 10_000 / volume;
    if bps <= U32_MAX then bps else U32_MAX
  }

  lemma Product(a: int, b: int, c: int, d: int)
    requires 0 <= a <= c && 0 <= b <= d
    ensures 0 <= a * b <= c * d
  {
    assert a * b <= c * b;
    assert c * b <= c * d;
  }

  lemma Distribute(q: int, a: int, b: int)
    ensures q * (a + b) == q * a + q * b
    ensures q * (a - b) == q * a - q * b
    ensures (a + b) * q == a * q + b * q
  {
  }

  lemma I64Squared()
    ensures 2 * (I64_MAX * I64_MAX) < I128_MAX
  {
  }

  // A notional is bounded by the quantity at the highest representable price.
  lemma {:induction false} NotionalIsBounded(fills: seq<Sample>)
    requires Valid(fills)
    ensures |fills| <= Quantity(fills) && 0 <= Notional(fills) <= Quantity(fills) * I64_MAX
  {
    if fills != [] {
      NotionalIsBounded(fills[1..]);
      Product(fills[0].quantityTicks, fills[0].priceTicks, fills[0].quantityTicks, I64_MAX);
      Distribute(I64_MAX, fills[0].quantityTicks, Quantity(fills[1..]));
    }
  }

  lemma {:induction false} QuantityChecks(fills: seq<Sample>, total: int)
    requires Valid(fills) && 0 <= total <= I64_MAX
    ensures CheckedQuantity(fills, total) ==
              if total + Quantity(fills) <= I64_MAX then Some(total + Quantity(fills)) else None
    decreases |fills|
  {
    if fills != [] {
      NotionalIsBounded(fills[1..]);
      if total + fills[0].quantityTicks <= I64_MAX {
        QuantityChecks(fills[1..], total + fills[0].quantityTicks);
      }
    }
  }

  lemma {:induction false} NotionalChecks(fills: seq<Sample>, total: int)
    requires Valid(fills) && 0 <= total && total + Notional(fills) <= I128_MAX
    ensures CheckedNotional(fills, total) == Some(total + Notional(fills))
    decreases |fills|
  {
    if fills != [] {
      NotionalIsBounded(fills[1..]);
      Product(fills[0].quantityTicks, fills[0].priceTicks, fills[0].quantityTicks, I64_MAX);
      NotionalChecks(fills[1..], total + fills[0].quantityTicks * fills[0].priceTicks);
    }
  }

  lemma {:induction false} ShortfallIsDelta(side: Side, reference: int, fills: seq<Sample>)
    ensures Shortfall(side, reference, fills) == Signed(side, Notional(fills) - Quantity(fills) * reference)
  {
    if fills != [] {
      ShortfallIsDelta(side, reference, fills[1..]);
      Distribute(fills[0].quantityTicks, fills[0].priceTicks, reference);
      Distribute(reference, fills[0].quantityTicks, Quantity(fills[1..]));
    }
  }

  // Basis points of the volume, rounded down, as far as a u32 goes.
  predicate IsParticipation(bps: int, filled: int, volume: int) {
    && 0 <= bps <= U32_MAX && bps * volume <= filled * 10_000
    && (bps < U32_MAX ==> filled * 10_000 < (bps + 1) * volume)
  }

  lemma ParticipationIs(filled: nat, volume: int)
    requires volume > 0
    ensures IsParticipation(Participation(filled, volume), filled, volume)
  {
    var exact := filled * 10_000 / volume;
    Bracket(filled * 10_000, volume);
    QuotientIsNatural(filled * 10_000, volume);
    if exact > U32_MAX {
      Product(U32_MAX, volume, exact, volume);
    }
  }

  lemma QuotientIsNatural(a: nat, d: int)
    requires d > 0
    ensures a / d >= 0
  {
  }

  lemma Bracket(a: int, d: int)
    requires d > 0
    ensures (a / d) * d <= a < (a / d + 1) * d
  {
  }

  // Once the inputs pass, only the total quantity can overflow; otherwise the analysis succeeds, and
  // its shortfall is the signed sum over the fills.
  lemma TcaSucceedsExactly(input: TcaInput)
    ensures Calculate(input).Ok? <==> Acceptable(input) && Quantity(input.fills) <= I64_MAX
    ensures Calculate(input).Ok? ==>
              var r := Calculate(input).value;
              && r.filledQuantityTicks == Quantity(input.fills) > 0
              && r.averageNumerator == Notional(input.fills)
              && r.shortfall == Shortfall(input.side, input.arrivalPriceTicks, input.fills)
              && r.arrivalSpreadTicks == input.arrivalSpreadTicks
              && (r.ackLatencyNs.Some? <==> input.ackMonoNs.Some?)
              && (r.ackLatencyNs.Some? ==> r.ackLatencyNs.value + input.sentMonoNs == input.ackMonoNs.value)
              && (r.participationBps.Some? <==> input.marketVolumeTicks.Some?)
              && (r.participationBps.Some? ==>
                    IsParticipation(r.participationBps.value, Quantity(input.fills), input.marketVolumeTicks.value))
  {
    if Acceptable(input) {
      NotionalIsBounded(input.fills);
      QuantityChecks(input.fills, 0);
      if Quantity(input.fills) <= I64_MAX {
        I64Squared();
        Product(Quantity(input.fills), I64_MAX, I64_MAX, I64_MAX);
        Product(Quantity(input.fills), input.arrivalPriceTicks, I64_MAX, I64_MAX);
        NotionalChecks(input.fills, 0);
        ShortfallIsDelta(input.side, input.arrivalPriceTicks, input.fills);
        if input.marketVolumeTicks.Some? {
          ParticipationIs(Quantity(input.fills), input.marketVolumeTicks.value);
        }
      }
    }
  }

  lemma {:induction false} SumsConcat(side: Side, reference: int, a: seq<Sample>, b: seq<Sample>)
    ensures Quantity(a + b) == Quantity(a) + Quantity(b)
    ensures Notional(a + b) == Notional(a) + Notional(b)
    ensures Shortfall(side, reference, a + b) == Shortfall(side, reference, a) + Shortfall(side, reference, b)
  {
    if a == [] {
      assert a + b == b;
    } else {
      assert (a + b)[1..] == a[1..] + b;
      SumsConcat(side, reference, a[1..], b);
    }
  }

  // Analysing two runs of fills together adds up what analysing each gives.
  lemma TcaAdds(input: TcaInput, a: seq<Sample>, b: seq<Sample>)
    requires input.fills == a + b && Calculate(input).Ok? && a != [] && b != []
    ensures Calculate(input.(fills := a)).Ok? && Calculate(input.(fills := b)).Ok?
    ensures var whole, left, right := Calculate(input).value, Calculate(input.(fills := a)).value,
              Calculate(input.(fills := b)).value;
            && whole.filledQuantityTicks == left.filledQuantityTicks + right.filledQuantityTicks
            && whole.averageNumerator == left.averageNumerator + right.averageNumerator
            && whole.shortfall == left.shortfall + right.shortfall
  {
    hide Calculate, Quantity, Notional, Shortfall;
    SumsConcat(input.side, input.arrivalPriceTicks, a, b);
    TcaSucceedsExactly(input);
    assert forall i | 0 <= i < |a| :: a[i] == input.fills[i];
    assert forall i | 0 <= i < |b| :: b[i] == input.fills[|a| + i];
    NotionalIsBounded(a);
    NotionalIsBounded(b);
    TcaSucceedsExactly(input.(fills := a));
    TcaSucceedsExactly(input.(fills := b));
  }

  // --- the detailed report ---

  datatype Observation = Observation(
    decisionPriceTicks: i64, arrivalPriceTicks: i64, sendMidTicks: i64, acknowledgementMidTicks: i64,
    fill: Sample,
    decisionMonoNs: u64, sendMonoNs: u64, acknowledgementMonoNs: u64, fillMonoNs: u64,
    spreadTicks: i64, marketVolumeTicks: i64, postFillMidTicks: i64)

  predicate Complete(o: Observation) {
    && o.decisionPriceTicks > 0 && o.arrivalPriceTicks > 0 && o.sendMidTicks > 0 && o.acknowledgementMidTicks > 0
    && o.postFillMidTicks > 0 && o.fill.quantityTicks > 0 && o.fill.priceTicks > 0
    && o.spreadTicks >= 0 && o.marketVolumeTicks > 0
  }

  predicate Ordered(o: Observation) {
    o.decisionMonoNs <= o.sendMonoNs <= o.acknowledgementMonoNs <= o.fillMonoNs
  }

  function Adverse(side: Side, o: Observation): int { Signed(side, o.postFillMidTicks - o.fill.priceTicks) }

  datatype Totals = Totals(quantity: int, volume: int, spread: int, adverse: int, decision: int)

  const NOTHING: Totals := Totals(0, 0, 0, 0, 0)

  function Plus(side: Side, t: Totals, o: Observation): Totals {
    var q := o.fill.quantityTicks;
    Totals(t.quantity + q, t.volume + o.marketVolumeTicks, t.spread + q * o.spreadTicks,
           t.adverse + q * Adverse(side, o), t.decision + q * o.decisionPriceTicks)
  }

  // One observation, with the checks in the code's order.
  function Accumulate(side: Side, t: Totals, o: Observation): Result<Totals, TcaError> {
    var next := Plus(side, t, o);
    if o.decisionPriceTicks <= 0 || o.arrivalPriceTicks <= 0 || o.sendMidTicks <= 0 || o.acknowledgementMidTicks <= 0
       || o.postFillMidTicks <= 0 || o.fill.quantityTicks <= 0 || o.fill.priceTicks <= 0 || o.spreadTicks < 0
       || o.marketVolumeTicks <= 0 then Err(MissingReference)
    else if o.sendMonoNs < o.decisionMonoNs || o.acknowledgementMonoNs < o.sendMonoNs
            || o.fillMonoNs < o.acknowledgementMonoNs then Err(InvalidTiming)
    else if !InI64(next.quantity) || !InI64(next.volume) then Err(Overflow)
    else if !InI128(next.spread) || !InI64(Adverse(side, o)) || !InI128(next.adverse)
      || !InI128(next.decision) then Err(Overflow)
    else Ok(next)
  }

  function AccumulateAll(side: Side, t: Totals, os: seq<Observation>): Result<Totals, TcaError>
    decreases |os|
  {
    if os == [] then Ok(t) else
    match Accumulate(side, t, os[0])
    case Ok(next) => AccumulateAll(side, next, os[1..])
    case Err(error) => Err(error)
  }

  function Fills(os: seq<Observation>): seq<Sample> {
    seq(|os|, i requires 0 <= i < |os| => os[i].fill)
  }

  function Volume(os: seq<Observation>): int {
    if os == [] then 0 else os[0].marketVolumeTicks + Volume(os[1..])
  }

  // The decision prices as fills of their own.
  function Decisions(os: seq<Observation>): seq<Sample> {
    seq(|os|, i requires 0 <= i < |os| => Sample(os[i].fill.quantityTicks, os[i].decisionPriceTicks))
  }

  // The signed difference of two rounded averages.
  function Rounded(side: Side, notional: int, decision: int, quantity: int): int
    requires quantity > 0
  {
    Signed(side, notional / quantity - decision / quantity)
  }

  // TcaReport::calculate and the end of DetailedTcaReport::calculate, integer part.
  function Report(side: Side, requested: i64, arrival: i64, fills: seq<Sample>, t: Totals): Result<int, TcaError> {
    if t.quantity > requested then Err(InvalidValue)
    else if arrival <= 0 || !Valid(fills) then Err(InvalidValue)
    else
      match CheckedQuantity(fills, 0)
      case None => Err(Overflow)
      case Some(quantity) =>
        match CheckedNotional(fills, 0)
        case None => Err(Overflow)
        case Some(notional) =>
          if quantity <= 0 || t.quantity <= 0 then Err(NoFills)
          else if !InI64(notional / quantity) || !InI64(notional / quantity - arrival) then Err(Overflow)
          else
            var shortfall := Signed(side, notional / quantity - t.decision / t.quantity);
            if InI128(shortfall) && InI64(shortfall) then Ok(shortfall) else Err(Overflow)
  }

  function Detailed(side: Side, requested: i64, os: seq<Observation>): Result<int, TcaError> {
    if requested <= 0 || os == [] then Err(NoFills) else
    match AccumulateAll(side, NOTHING, os)
    case Err(error) => Err(error)
    case Ok(t) => Report(side, requested, os[0].arrivalPriceTicks, Fills(os), t)
  }

  method CalculateDetailed(side: Side, requested: i64, os: seq<Observation>) returns (r: Result<int, TcaError>)
    ensures r == Detailed(side, requested, os)
  {
    hide Accumulate, Report;
    if requested <= 0 || os == [] {
      return Err(NoFills);
    }
    var fills := [];
    var totals := NOTHING;
    for index := 0 to |os|
      invariant |fills| == index && forall i | 0 <= i < index :: fills[i] == os[i].fill
      invariant AccumulateAll(side, NOTHING, os) == AccumulateAll(side, totals, os[index..])
    {
      var observation := os[index];
      assert os[index..][0] == observation && os[index..][1..] == os[index + 1..];
      var next := Accumulate(side, totals, observation);
      if next.Err? {
        return Err(next.error);
      }
      totals := next.value;
      fills := fills + [observation.fill];
    }
    assert fills == Fills(os);
    return Report(side, requested, os[0].arrivalPriceTicks, fills, totals);
  }

  // Totals that the observed quantity and volume keep far from overflow.
  ghost predicate Small(t: Totals) {
    && 0 <= t.quantity <= I64_MAX && 0 <= t.volume <= I64_MAX
    && 0 <= t.spread <= t.quantity * I64_MAX
    && -(t.quantity * I64_MAX) <= t.adverse <= t.quantity * I64_MAX
    && 0 <= t.decision <= t.quantity * I64_MAX
  }

  lemma SmallStaysInRange(t: Totals)
    requires Small(t)
    ensures InI128(t.spread) && InI128(t.adverse) && InI128(t.decision)
  {
    I64Squared();
    Product(t.quantity, I64_MAX, I64_MAX, I64_MAX);
  }

  lemma PlusIsSmall(side: Side, t: Totals, o: Observation)
    requires Small(t) && Complete(o)
    ensures InI64(Adverse(side, o))
    ensures var next := Plus(side, t, o); next.quantity <= I64_MAX && next.volume <= I64_MAX ==> Small(next)
  {
    var q := o.fill.quantityTicks;
    var a := Adverse(side, o);
    Product(q, o.spreadTicks, q, I64_MAX);
    Product(q, o.decisionPriceTicks, q, I64_MAX);
    Product(q, if a < 0 then -a else a, q, I64_MAX);
    assert q * -a == -(q * a);
    Distribute(I64_MAX, t.quantity, q);
  }

  // The checks of one observation, in their order.
  lemma AccumulateChecks(side: Side, t: Totals, o: Observation)
    requires Small(t)
    ensures var next := Plus(side, t, o);
            Accumulate(side, t, o) ==
              if !Complete(o) then Err(MissingReference)
              else if !Ordered(o) then Err(InvalidTiming)
              else if next.quantity > I64_MAX || next.volume > I64_MAX then Err(Overflow)
              else Ok(next)
  {
    hide Adverse, Small, Plus;
    SmallFits(t);
    var next := Plus(side, t, o);
    if Complete(o) && Ordered(o) {
      PlusIsSmall(side, t, o);
      PlusAdds(side, t, o);
      StartsSmall(t, next, o);
      if next.quantity <= I64_MAX && next.volume <= I64_MAX {
        SmallStaysInRange(next);
      }
    }
  }

  lemma PlusAdds(side: Side, t: Totals, o: Observation)
    ensures Plus(side, t, o).quantity == t.quantity + o.fill.quantityTicks
    ensures Plus(side, t, o).volume == t.volume + o.marketVolumeTicks
  {
  }

  // The checks on the running totals fail only for the quantity and the market volume.
  lemma {:induction false} AccumulatesExactly(side: Side, t: Totals, os: seq<Observation>)
    requires Small(t)
    ensures AccumulateAll(side, t, os).Ok? <==>
              && (forall i | 0 <= i < |os| :: Complete(os[i]) && Ordered(os[i]))
              && t.quantity + Quantity(Fills(os)) <= I64_MAX && t.volume + Volume(os) <= I64_MAX
    ensures AccumulateAll(side, t, os).Ok? ==>
              var all := AccumulateAll(side, t, os).value;
              all.quantity == t.quantity + Quantity(Fills(os)) && all.decision == t.decision + Notional(Decisions(os))
    decreases |os|
  {
    hide Complete, Ordered, Small, Adverse, Accumulate;
    SmallFits(t);
    if os != [] {
      var o := os[0];
      AccumulateChecks(side, t, o);
      FillsOfRest(os);
      if Complete(o) && Ordered(o) {
        var next := Plus(side, t, o);
        PlusIsSmall(side, t, o);
        StartsSmall(t, next, o);
        if next.quantity <= I64_MAX && next.volume <= I64_MAX {
          SmallStaysInRange(next);
          AccumulatesExactly(side, next, os[1..]);
        } else if forall i | 0 <= i < |os| :: Complete(os[i]) && Ordered(os[i]) {
          RestIsPositive(os[1..]);
        }
        assert (forall i | 0 <= i < |os| :: Complete(os[i]) && Ordered(os[i]))
          <==> (forall i | 0 <= i < |os[1..]| :: Complete(os[1..][i]) && Ordered(os[1..][i])) by {
          assert forall i | 1 <= i < |os| :: os[i] == os[1..][i - 1];
        }
      }
    }
  }

  lemma SmallFits(t: Totals)
    requires Small(t)
    ensures 0 <= t.quantity <= I64_MAX && 0 <= t.volume <= I64_MAX
  {
  }

  lemma StartsSmall(t: Totals, next: Totals, o: Observation)
    requires Small(t) && Complete(o) && next.quantity == t.quantity + o.fill.quantityTicks
               && next.volume == t.volume + o.marketVolumeTicks
    ensures next.quantity >= 0 && next.volume >= 0
  {
  }

  lemma FillsOfRest(os: seq<Observation>)
    requires os != []
    ensures Fills(os)[1..] == Fills(os[1..]) && Decisions(os)[1..] == Decisions(os[1..])
    ensures Fills(os)[0] == os[0].fill && Decisions(os)[0] == Sample(os[0].fill.quantityTicks, os[0].decisionPriceTicks)
  {
  }

  lemma {:induction false} RestIsPositive(os: seq<Observation>)
    requires forall i | 0 <= i < |os| :: Complete(os[i])
    ensures Quantity(Fills(os)) >= 0 && Volume(os) >= 0
  {
    if os != [] {
      FillsOfRest(os);
      RestIsPositive(os[1..]);
    }
  }

  // Rounding both averages leaves less than one tick of error against the exact rational: with Q the
  // quantity, |Q * shortfall - (notional - decision notional)| < Q.
  lemma RoundedIsClose(side: Side, notional: int, decision: int, quantity: int)
    requires quantity > 0
    ensures -quantity
              < quantity * Rounded(side, notional, decision, quantity) - Signed(side, notional - decision)
              < quantity
  {
    var a, b := notional / quantity, decision / quantity;
    assert quantity * a <= notional < quantity * a + quantity;
    assert quantity * b <= decision < quantity * b + quantity;
    Distribute(quantity, a, b);
    Distribute(quantity, b, a);
  }

  lemma {:induction false} DecisionsMatch(os: seq<Observation>)
    requires forall i | 0 <= i < |os| :: Complete(os[i])
    ensures Quantity(Decisions(os)) == Quantity(Fills(os))
    ensures Valid(Fills(os)) && Valid(Decisions(os))
  {
    if os != [] {
      FillsOfRest(os);
      DecisionsMatch(os[1..]);
    }
  }

  lemma AverageInRange(fills: seq<Sample>)
    requires Valid(fills) && fills != []
    ensures Quantity(fills) > 0 && 0 <= Notional(fills) / Quantity(fills) <= I64_MAX
  {
    NotionalIsBounded(fills);
    QuotientInRange(Notional(fills), Quantity(fills), I64_MAX);
  }

  lemma QuotientInRange(n: nat, q: int, most: nat)
    requires q > 0 && n <= q * most
    ensures 0 <= n / q <= most
  {
    assert q * (n / q) <= n;
    if n / q > most {
      Product(q, most + 1, q, n / q);
      Distribute(q, most, 1);
    }
  }

  // The detailed report succeeds exactly when every observation is complete and in order, the
  // quantity stays within the order, and the market volume fits; its shortfall is then within one
  // tick of the exact one.
  lemma DetailedSucceedsExactly(side: Side, requested: i64, os: seq<Observation>)
    ensures Detailed(side, requested, os).Ok? <==>
              && requested > 0 && os != []
              && (forall i | 0 <= i < |os| :: Complete(os[i]) && Ordered(os[i]))
              && Quantity(Fills(os)) <= requested && Volume(os) <= I64_MAX
    ensures Detailed(side, requested, os).Ok? ==>
              var q := Quantity(Fills(os));
              && q > 0
              && var above := Notional(Fills(os)) - Notional(Decisions(os));
              && var exact := if side == Buy then above else -above;
              && -q < q * Detailed(side, requested, os).value - exact < q
              && var averages := Notional(Fills(os)) / q - Notional(Decisions(os)) / q;
              Detailed(side, requested, os).value == if side == Buy then averages else -averages
  {
    hide Accumulate, AccumulateAll, Complete, Ordered, Quantity, Notional, CheckedQuantity, CheckedNotional, Valid;
    AccumulatesExactly(side, NOTHING, os);
    if requested > 0 && os != [] && AccumulateAll(side, NOTHING, os).Ok? {
      var fills, decisions := Fills(os), Decisions(os);
      DecisionsMatch(os);
      AverageInRange(fills);
      AverageInRange(decisions);
      QuantityChecks(fills, 0);
      NotionalIsBounded(fills);
      I64Squared();
      Product(Quantity(fills), I64_MAX, I64_MAX, I64_MAX);
      NotionalChecks(fills, 0);
      RoundedIsClose(side, Notional(fills), Notional(decisions), Quantity(fills));
      assert Complete(os[0]);
      FirstPrice(os[0]);
    }
  }

  // The first i observations pass.
  predicate Passes(os: seq<Observation>, i: nat)
    requires i <= |os|
  {
    && (forall j | 0 <= j < i :: Complete(os[j]) && Ordered(os[j]))
    && Quantity(Fills(os[..i])) <= I64_MAX && Volume(os[..i]) <= I64_MAX
  }

  lemma {:induction false} FirstTrouble(side: Side, t: Totals, os: seq<Observation>, i: nat)
    requires Small(t) && i < |os|
    requires forall j | 0 <= j < i :: Complete(os[j]) && Ordered(os[j])
    requires t.quantity + Quantity(Fills(os[..i])) <= I64_MAX && t.volume + Volume(os[..i]) <= I64_MAX
    ensures var r := AccumulateAll(side, t, os);
            && (!Complete(os[i]) ==> r == Err(MissingReference))
            && (Complete(os[i]) && !Ordered(os[i]) ==> r == Err(InvalidTiming))
            && (Complete(os[i]) && Ordered(os[i])
                && (t.quantity + Quantity(Fills(os[..i + 1])) > I64_MAX || t.volume + Volume(os[..i + 1]) > I64_MAX) ==>
                  r == Err(Overflow))
    decreases |os|
  {
    hide Complete, Ordered, Small, Adverse, Accumulate, Plus;
    var o := os[0];
    AccumulateChecks(side, t, o);
    PlusAdds(side, t, o);
    FirstOfSome(os, i + 1);
    if i > 0 {
      var next := Plus(side, t, o);
      FirstOfSome(os, i);
      SmallFits(t);
      StartsSmall(t, next, o);
      assert forall j | 0 <= j < i - 1 :: os[1..][j] == os[j + 1];
      assert os[1..][..i - 1] == os[..i][1..] && os[1..][..i] == os[..i + 1][1..];
      RestIsPositive(os[1..][..i - 1]);
      PlusIsSmall(side, t, o);
      FirstTrouble(side, next, os[1..], i - 1);
    } else {
      assert os[..1][1..] == [];
      NoObservations();
    }
  }

  lemma NoObservations()
    ensures Quantity(Fills([])) == 0 && Volume([]) == 0
  {
  }

  lemma FirstOfSome(os: seq<Observation>, n: nat)
    requires 0 < n <= |os|
    ensures Quantity(Fills(os[..n])) == os[0].fill.quantityTicks + Quantity(Fills(os[..n][1..]))
    ensures Volume(os[..n]) == os[0].marketVolumeTicks + Volume(os[..n][1..])
  {
    FillsOfRest(os[..n]);
  }

  // Which error: the first observation that does not pass tells, an incomplete one before a disordered one
  // before one too many; after all pass, a quantity beyond the order.
  lemma DetailedFailsAs(side: Side, requested: i64, os: seq<Observation>, i: nat)
    ensures requested <= 0 || os == [] ==> Detailed(side, requested, os) == Err(NoFills)
    ensures requested > 0 && i < |os| && Passes(os, i) ==>
              && (!Complete(os[i]) ==> Detailed(side, requested, os) == Err(MissingReference))
              && (Complete(os[i]) && !Ordered(os[i]) ==> Detailed(side, requested, os) == Err(InvalidTiming))
              && (Complete(os[i]) && Ordered(os[i]) && !Passes(os, i + 1) ==>
                    Detailed(side, requested, os) == Err(Overflow))
    ensures requested > 0 && os != [] && Passes(os, |os|) && Quantity(Fills(os)) > requested ==>
              Detailed(side, requested, os) == Err(InvalidValue)
  {
    hide Accumulate, AccumulateAll, Complete, Ordered, Quantity, Volume;
    NothingIsSmall();
    if requested > 0 && os != [] {
      if i < |os| && Passes(os, i) {
        FirstTrouble(side, NOTHING, os, i);
      }
      assert os[..|os|] == os;
      AccumulatesExactly(side, NOTHING, os);
    }
  }

  lemma NothingIsSmall()
    ensures Small(NOTHING)
  {
  }

  lemma FirstPrice(o: Observation)
    requires Complete(o)
    ensures o.arrivalPriceTicks > 0
  {
  }
}
