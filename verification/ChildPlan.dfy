/** The durable child-order plan of crates/execution: idempotent claims and broker callbacks. */
module ChildPlan {
  import opened Wrappers
  import opened Bytes
  import opened BrokerApi
  import opened Sums
  import S = Scheduler

  datatype ChildState =
    | Pending | Claimed | Transmitted | Acked | Partial | Complete
    | CancelRequested | Withdrawn | Refused | Ambiguous

  datatype ChildRecord = ChildRecord(order: S.ChildOrder, state: ChildState, filledQuantityTicks: i64,
    brokerOrderId: Option<string>)

  datatype Plan = Plan(parentClientOrderId: string, createdMonoNs: u64, children: seq<ChildRecord>)

  // --- one child ---

  datatype Action = MarkSent | MarkUnknown | RequestCancel | Report(event: BrokerEvent)

  // The child after an action, or nothing if the action is refused.
  function Next(r: ChildRecord, action: Action): Option<ChildRecord> {
    match action
    case MarkSent => if r.state == Claimed then Some(r.(state := Transmitted)) else None
    case MarkUnknown => if r.state in {Claimed, Transmitted} then Some(r.(state := Ambiguous)) else None
    case RequestCancel => if r.state in {Transmitted, Acked, Partial} then Some(r.(state := CancelRequested)) else None
    case Report(Ack(_, brokerOrderId)) =>
      if r.state in {Claimed, Transmitted, Acked, Ambiguous} then
        Some(r.(state := Acked, brokerOrderId := Some(brokerOrderId))) else None
    case Report(Fill(_, quantity, _)) =>
      if quantity <= 0 || r.state !in {Claimed, Transmitted, Acked, Partial, Complete, Ambiguous} then None
      else if r.state == Complete then Some(r)
      else
        var total := r.filledQuantityTicks + quantity;
        if total > I64_MAX || total > r.order.quantityTicks then None
        else Some(r.(filledQuantityTicks := total, state := if total == r.order.quantityTicks then Complete
          else Partial))
    case Report(Cancelled(_)) =>
      if r.state in {Claimed, Transmitted, Acked, CancelRequested, Ambiguous} then Some(r.(state := Withdrawn))
        else None
    case Report(Reject(_, _)) =>
      if r.state in {Claimed, Transmitted, Acked, Ambiguous} then Some(r.(state := Refused)) else None
  }

  // What a child takes, state by state: nothing before it is claimed and nothing after it is cancelled or
  // refused; while a cancel is requested only the cancellation, so that a fill is refused then.
  predicate Takes(state: ChildState, action: Action) {
    match state
    case Pending => false
    case Claimed => action.MarkSent? || action.MarkUnknown? || action.Report?
    case Transmitted => action.MarkUnknown? || action.RequestCancel? || action.Report?
    case Ambiguous => action.Report?
    case Acked => action.RequestCancel? || action.Report?
    case Partial => action.RequestCancel? || (action.Report? && action.event.Fill?)
    case Complete => action.Report? && action.event.Fill?
    case CancelRequested => action.Report? && action.event.Cancelled?
    case Withdrawn => false
    case Refused => false
  }

  // The fill an action reports, if it is one.
  function Reported(action: Action): int {
    if action.Report? && action.event.Fill? then action.event.quantityTicks else 0
  }

  // Exactly when an action is taken, and what it leaves: a fill must be positive and, unless the child is
  // complete already, stay within its order.
  lemma ActionExactly(r: ChildRecord, action: Action)
    requires r.filledQuantityTicks <= r.order.quantityTicks <= I64_MAX
    ensures var total := r.filledQuantityTicks + Reported(action);
            && (Next(r, action).Some? <==>
                  && Takes(r.state, action)
                  && (action.Report? && action.event.Fill? ==>
                        Reported(action) > 0 && (r.state == Complete || total <= r.order.quantityTicks)))
            && (Next(r, action).Some? ==>
                  var s := Next(r, action).value;
                  && s.order == r.order
                  && s.filledQuantityTicks == (if r.state == Complete then r.filledQuantityTicks else total)
                  && s.brokerOrderId == (if action.Report? && action.event.Ack? then Some(action.event.brokerOrderId)
                                         else r.brokerOrderId))
    ensures Next(r, action).Some? ==>
              Next(r, action).value.state ==
                match action
                case MarkSent => Transmitted
                case MarkUnknown => Ambiguous
                case RequestCancel => CancelRequested
                case Report(Ack(_, _)) => Acked
                case Report(Fill(_, quantity, _)) =>
                  if r.state == Complete || r.filledQuantityTicks + quantity == r.order.quantityTicks then Complete
                  else Partial
                case Report(Cancelled(_)) => Withdrawn
                case Report(Reject(_, _)) => Refused
  {
  }

  // Broker reports are documented to apply idempotently. One that was taken is taken again without a change
  // exactly when it is an acknowledgement, or a fill of a child that it completed or found complete.
  lemma RepeatedExactly(r: ChildRecord, event: BrokerEvent)
    requires Next(r, Report(event)).Some?
    ensures var once := Next(r, Report(event)).value;
            Next(once, Report(event)) == Some(once) <==>
              || event.Ack?
              || (event.Fill? && (r.state == Complete
                                  || r.filledQuantityTicks + event.quantityTicks == r.order.quantityTicks))
  {
  }

  predicate Terminal(state: ChildState) { state in {Complete, Withdrawn, Refused} }

  // Completed, cancelled and refused children are exactly those that no action can change any more, claiming aside.
  lemma TerminalExactly(r: ChildRecord)
    requires r.filledQuantityTicks <= r.order.quantityTicks
    ensures Terminal(r.state) <==>
              r.state != Pending && forall action :: Next(r, action).None? || Next(r, action) == Some(r)
  {
    if !Terminal(r.state) && r.state != Pending {
      var action := if r.state == Acked || r.state == Partial then RequestCancel else Report(Cancelled(""));
      assert Next(r, action).Some? && Next(r, action) != Some(r);
    }
  }

  predicate IsComplete(p: Plan) {
    forall i | 0 <= i < |p.children| :: Terminal(p.children[i].state)
  }

  // --- the plan ---

  function New(intent: OrderIntent, schedule: S.Schedule, created: u64): Result<Plan, S.PlanError> {
    match S.Plan(intent, schedule)
    case Err(error) => Err(error)
    case Ok(children) =>
      if children == [] || exists i | 0 <= i < |children| ::
           children[i].parentClientOrderId != intent.clientOrderId || children[i].childSequence != i + 1
             || children[i].quantityTicks <= 0
      then Err(S.InvalidSchedule)
      else Ok(Plan(intent.clientOrderId, created,
        seq(|children|, i requires 0 <= i < |children| => ChildRecord(children[i], Pending, 0, None))))
  }

  // The first child under an id.
  function Find(children: seq<ChildRecord>, id: string): (i: nat)
    ensures i <= |children|
    ensures i < |children| ==> children[i].order.clientOrderId == id
    ensures forall j | 0 <= j < i :: children[j].order.clientOrderId != id
  {
    if children == [] || children[0].order.clientOrderId == id then 0 else 1 + Find(children[1..], id)
  }

  function Act(p: Plan, id: string, action: Action): Option<Plan> {
    var i := Find(p.children, id);
    if i == |p.children| then None else
    match Next(p.children[i], action)
    case Some(record) => Some(p.(children := p.children[i := record]))
    case None => None
  }

  predicate Overflows(created: u64, r: ChildRecord) { created + r.order.dueAfterNs > U64_MAX }

  predicate IsDue(created: u64, r: ChildRecord, now: u64) {
    r.state == Pending && created + r.order.dueAfterNs <= now
  }

  function Claim(created: u64, r: ChildRecord, now: u64): ChildRecord {
    if IsDue(created, r, now) then r.(state := Claimed) else r
  }

  datatype Claims = Claims(children: seq<ChildRecord>, claimed: seq<S.ChildOrder>, failed: bool)

  // A due time beyond u64 stops the pass, with the earlier children already claimed; what was
  // claimed is then not returned.
  function ClaimFrom(created: u64, children: seq<ChildRecord>, now: u64): Claims
    decreases |children|
  {
    if children == [] then Claims([], [], false)
    else if Overflows(created, children[0]) then Claims(children, [], true)
    else
      var rest := ClaimFrom(created, children[1..], now);
      Claims([Claim(created, children[0], now)] + rest.children,
             (if IsDue(created, children[0], now) then [children[0].order] else []) + rest.claimed, rest.failed)
  }

  // The outcome of a pass that had already dealt with some children.
  ghost function Before(done: seq<ChildRecord>, claimed: seq<S.ChildOrder>, rest: Claims): Claims {
    Claims(done + rest.children, claimed + rest.claimed, rest.failed)
  }

  lemma Unrolled(created: u64, children: seq<ChildRecord>, now: u64, done: seq<ChildRecord>, claimed: seq<S.ChildOrder>)
    requires children != [] && !Overflows(created, children[0])
    ensures Before(done, claimed, ClaimFrom(created, children, now))
         == Before(done + [Claim(created, children[0], now)],
                   claimed + (if IsDue(created, children[0], now) then [children[0].order] else []),
                   ClaimFrom(created, children[1..], now))
  {
    var rest := ClaimFrom(created, children[1..], now);
    var c, o := [Claim(created, children[0], now)], if IsDue(created, children[0], now) then [children[0].order]
      else [];
    assert done + (c + rest.children) == done + c + rest.children;
    assert claimed + (o + rest.claimed) == claimed + o + rest.claimed;
  }

  lemma Unstarted(claims: Claims)
    ensures Before([], [], claims) == claims
  {
    assert [] + claims.children == claims.children && [] + claims.claimed == claims.claimed;
  }

  lemma Stopped(created: u64, children: seq<ChildRecord>, now: u64, done: seq<ChildRecord>, claimed: seq<S.ChildOrder>)
    requires children == [] || Overflows(created, children[0])
    ensures var all := Before(done, claimed, ClaimFrom(created, children, now));
            all.children == done + children && all.failed == (children != []) && all.claimed == claimed
  {
    assert claimed + [] == claimed;
  }

  lemma NotClaimed(created: u64, r: ChildRecord, now: u64)
    requires !IsDue(created, r, now)
    ensures Claim(created, r, now) == r
  {
  }

  // The loop of claim_due over the records it updates.
  method ClaimPass(created: u64, records: seq<ChildRecord>, now: u64) returns (claims: Claims)
    ensures claims == ClaimFrom(created, records, now)
  {
    hide Overflows, IsDue, Claim, ClaimFrom, Before;
    var children, claimed := records, [];
    ghost var goal := ClaimFrom(created, records, now);
    ghost var done: seq<ChildRecord> := [];
    Unstarted(goal);
    assert records[0..] == records;
    for index := 0 to |records|
      invariant |records| == |children| && |done| == index
      invariant children == done + records[index..]
      invariant goal == Before(done, claimed, ClaimFrom(created, records[index..], now))
    {
      var record := children[index];
      var rest := records[index..];
      assert record == rest[0] && rest[1..] == records[index + 1..];
      if Overflows(created, record) {
        Stopped(created, rest, now, done, claimed);
        return Claims(children, claimed, true);
      }
      Unrolled(created, rest, now, done, claimed);
      if IsDue(created, record, now) {
        children := children[index := Claim(created, record, now)];
        claimed := claimed + [record.order];
      } else {
        assert claimed + [] == claimed;
        NotClaimed(created, record, now);
      }
      done := done + [Claim(created, record, now)];
      assert children == done + records[index + 1..];
    }
    assert records[|records|..] == [] && done + [] == done;
    Stopped(created, [], now, done, claimed);
    return Claims(children, claimed, false);
  }

  class ChildPlan {
    var parentClientOrderId: string
    var createdMonoNs: u64
    var children: seq<ChildRecord>

    ghost function State(): Plan
      reads this
    {
      Plan(parentClientOrderId, createdMonoNs, children)
    }

    constructor (plan: Plan)
      ensures State() == plan
    {
      parentClientOrderId, createdMonoNs, children := plan.parentClientOrderId, plan.createdMonoNs, plan.children;
    }

    static method Create(intent: OrderIntent, schedule: S.Schedule,
                         created: u64) returns (r: Result<ChildPlan, S.PlanError>)
      ensures match New(intent, schedule, created)
              case Ok(plan) => r.Ok? && fresh(r.value) && r.value.State() == plan
              case Err(error) => r == Err(error)
    {
      var planned := S.PlanChildren(intent, schedule);
      if planned.Err? {
        return Err(planned.error);
      }
      var orders := planned.value;
      if orders == [] || exists i | 0 <= i < |orders| ::
           orders[i].parentClientOrderId != intent.clientOrderId || orders[i].childSequence != i + 1
             || orders[i].quantityTicks <= 0 {
        return Err(S.InvalidSchedule);
      }
      var plan := new ChildPlan(Plan(intent.clientOrderId, created,
        seq(|orders|, i requires 0 <= i < |orders| => ChildRecord(orders[i], Pending, 0, None))));
      return Ok(plan);
    }

    method ClaimDue(now: u64) returns (r: Result<seq<S.ChildOrder>, S.PlanError>)
      modifies this`children
      ensures var claims := ClaimFrom(createdMonoNs, old(children), now);
              children == claims.children && r == if claims.failed then Err(S.InvalidSchedule) else Ok(claims.claimed)
    {
      hide ClaimFrom;
      var claims := ClaimPass(createdMonoNs, children, now);
      children := claims.children;
      return if claims.failed then Err(S.InvalidSchedule) else Ok(claims.claimed);
    }

    // mark_sent, mark_unknown, request_cancel and apply_broker_event: each looks the child up and
    // applies one rule to it.
    method Do(id: string, action: Action) returns (ok: bool)
      modifies this`children
      ensures match Act(old(State()), id, action)
              case Some(plan) => ok && State() == plan
              case None => !ok && State() == old(State())
    {
      var index := 0;
      while index < |children| && children[index].order.clientOrderId != id
        invariant index <= |children|
        invariant forall j | 0 <= j < index :: children[j].order.clientOrderId != id
      {
        index := index + 1;
      }
      if index == |children| {
        return false;
      }
      assert index == Find(children, id);
      var next := Next(children[index], action);
      if next.None? {
        return false;
      }
      children := children[index := next.value];
      return true;
    }
  }

  // --- runs ---

  datatype Op = ClaimDue(now: u64) | On(id: string, action: Action)

  // A plan, every child order ever handed out, and how often each child changed state.
  datatype History = History(plan: Plan, handedOut: seq<S.ChildOrder>, changes: seq<nat>)

  function Start(p: Plan): History { History(p, [], seq(|p.children|, _ => 0)) }

  function Count(before: seq<ChildRecord>, after: seq<ChildRecord>, changes: seq<nat>): seq<nat>
    requires |before| == |after| == |changes|
  {
    seq(|changes|, i requires 0 <= i < |changes| => if before[i].state != after[i].state then changes[i] + 1
      else changes[i])
  }

  // What a pass does to each child.
  lemma {:induction false} ClaimsChildren(created: u64, children: seq<ChildRecord>, now: u64)
    ensures var claims := ClaimFrom(created, children, now);
            && |claims.children| == |children|
            && (claims.failed <==> exists i | 0 <= i < |children| :: Overflows(created, children[i]))
            && (forall i | 0 <= i < |children| ::
                  claims.children[i] == children[i]
                    || (children[i].state == Pending && claims.children[i] == children[i].(state := Claimed)))
            && (!claims.failed ==> forall i | 0 <= i < |children| ::
              claims.children[i] == Claim(created, children[i], now))
    decreases |children|
  {
    hide Overflows;
    if children != [] && !Overflows(created, children[0]) {
      ClaimsChildren(created, children[1..], now);
      if i :| 0 <= i < |children[1..]| && Overflows(created, children[1..][i]) {
        assert Overflows(created, children[i + 1]);
      }
    }
  }

  // Every order a pass hands out belongs to a child it just claimed.
  lemma {:induction false} ClaimedFrom(created: u64, children: seq<ChildRecord>, now: u64)
    ensures var claims := ClaimFrom(created, children, now);
            |claims.children| == |children| &&
            forall o | o in claims.claimed :: exists i | 0 <= i < |children| ::
              children[i].order == o && children[i].state == Pending && claims.children[i].state == Claimed
    decreases |children|
  {
    if children != [] && !Overflows(created, children[0]) {
      ClaimedFrom(created, children[1..], now);
      var rest := ClaimFrom(created, children[1..], now);
      var claims := ClaimFrom(created, children, now);
      forall o | o in claims.claimed
        ensures exists i | 0 <= i < |children| :: children[i].order == o && children[i].state == Pending
                  && claims.children[i].state == Claimed
      {
        if o in rest.claimed {
          var i :| 0 <= i < |children[1..]| && children[1..][i].order == o && children[1..][i].state == Pending
            && rest.children[i].state == Claimed;
          assert children[i + 1].order == o && claims.children[i + 1].state == Claimed;
        } else {
          assert children[0].order == o;
        }
      }
    }
  }

  function Step(h: History, op: Op): History
    requires |h.changes| == |h.plan.children|
    ensures |Step(h, op).changes| == |Step(h, op).plan.children| == |h.changes|
  {
    match op
    case ClaimDue(now) =>
      ClaimsChildren(h.plan.createdMonoNs, h.plan.children, now);
      var claims := ClaimFrom(h.plan.createdMonoNs, h.plan.children, now);
      History(h.plan.(children := claims.children),
              if claims.failed then h.handedOut else h.handedOut + claims.claimed,
              Count(h.plan.children, claims.children, h.changes))
    case On(id, action) =>
      match Act(h.plan, id, action)
      case Some(plan) => History(plan, h.handedOut, Count(h.plan.children, plan.children, h.changes))
      case None => h
  }

  function Run(p: Plan, ops: seq<Op>): (h: History)
    ensures |h.changes| == |h.plan.children| == |p.children|
  {
    if ops == [] then Start(p) else Step(Run(p, ops[..|ops| - 1]), ops[|ops| - 1])
  }

  // How far along its life a child is.
  function Rank(state: ChildState): nat {
    match state
    case Pending => 0
    case Claimed => 1
    case Transmitted => 2
    case Ambiguous => 3
    case Acked => 4
    case Partial => 5
    case CancelRequested => 6
    case Complete => 6
    case Withdrawn => 7
    case Refused => 7
  }

  // Where the filled quantity lies is told by the state alone.
  predicate FilledFits(r: ChildRecord) {
    match r.state
    case Partial => 0 < r.filledQuantityTicks < r.order.quantityTicks
    case Complete => r.filledQuantityTicks == r.order.quantityTicks
    case CancelRequested => 0 <= r.filledQuantityTicks < r.order.quantityTicks
    case Withdrawn => 0 <= r.filledQuantityTicks < r.order.quantityTicks
    case _ => r.filledQuantityTicks == 0
  }

  // One child from one moment to the next: same order, and either the same state or a later one.
  predicate Later(r: ChildRecord, s: ChildRecord) {
    && s.order == r.order
    && (FilledFits(r) ==> FilledFits(s))
    && (s.state != r.state ==> Rank(s.state) > Rank(r.state))
    && (Terminal(r.state) ==> s == r)
  }

  lemma NextIsLater(r: ChildRecord, action: Action)
    requires r.order.quantityTicks > 0 && Next(r, action).Some?
    requires FilledFits(r)
    ensures Later(r, Next(r, action).value)
    ensures Next(r, action).value.state != Pending
  {
  }

  lemma ClaimIsLater(r: ChildRecord)
    requires r.order.quantityTicks > 0 && r.state == Pending && FilledFits(r)
    ensures Later(r, r.(state := Claimed))
  {
  }

  predicate WellFormed(p: Plan) {
    && (forall i | 0 <= i < |p.children| :: p.children[i].order.quantityTicks > 0 && FilledFits(p.children[i]))
    && (forall i, j | 0 <= i < j < |p.children| ::
      p.children[i].order.clientOrderId != p.children[j].order.clientOrderId)
  }

  lemma StepIsLater(h: History, op: Op, i: nat)
    requires |h.changes| == |h.plan.children| && WellFormed(h.plan) && i < |h.plan.children|
    ensures Later(h.plan.children[i], Step(h, op).plan.children[i])
    ensures Step(h, op).changes[i] - h.changes[i]
              == (if h.plan.children[i].state == Step(h, op).plan.children[i].state then 0 else 1)
  {
    hide Next, FilledFits, Rank;
    SameIsLater(h.plan.children[i]);
    match op
    case ClaimDue(now) =>
      ClaimsChildren(h.plan.createdMonoNs, h.plan.children, now);
      if h.plan.children[i].state == Pending {
        ClaimIsLater(h.plan.children[i]);
      }
    case On(id, action) =>
      var found := Find(h.plan.children, id);
      if found < |h.plan.children| && Next(h.plan.children[found], action).Some? {
        NextIsLater(h.plan.children[found], action);
      }
  }

  lemma SameIsLater(r: ChildRecord)
    ensures Later(r, r)
  {
  }

  predicate DistinctIds(orders: seq<S.ChildOrder>) {
    forall i, j | 0 <= i < j < |orders| :: orders[i].clientOrderId != orders[j].clientOrderId
  }

  lemma {:induction false} ClaimedAreDistinct(created: u64, children: seq<ChildRecord>, now: u64)
    requires forall i, j | 0 <= i < j < |children| :: children[i].order.clientOrderId != children[j].order.clientOrderId
    ensures DistinctIds(ClaimFrom(created, children, now).claimed)
    decreases |children|
  {
    hide IsDue, Overflows, Claim;
    if children != [] && !Overflows(created, children[0]) {
      ClaimedAreDistinct(created, children[1..], now);
      ClaimedFrom(created, children[1..], now);
      var rest := ClaimFrom(created, children[1..], now).claimed;
      forall k | 0 <= k < |rest|
        ensures rest[k].clientOrderId != children[0].order.clientOrderId
      {
        assert rest[k] in rest;
        var i :| 0 <= i < |children[1..]| && children[1..][i].order == rest[k];
        assert children[i + 1].order == rest[k];
      }
    }
  }

  // What every run keeps.
  ghost predicate Inv(p: Plan, h: History) {
    && |h.changes| == |h.plan.children| == |p.children|
    && h.plan.createdMonoNs == p.createdMonoNs
    && WellFormed(h.plan)
    && (forall i | 0 <= i < |p.children| ::
          h.plan.children[i].order == p.children[i].order && h.changes[i] <= Rank(h.plan.children[i].state))
    && DistinctIds(h.handedOut)
    && (forall o | o in h.handedOut :: exists i :: ClaimedChild(h.plan, o, i))
  }

  predicate ClaimedChild(p: Plan, o: S.ChildOrder, i: int) {
    0 <= i < |p.children| && p.children[i].order == o && p.children[i].state != Pending
  }

  ghost predicate Fresh(p: Plan) {
    WellFormed(p) && forall i | 0 <= i < |p.children| :: p.children[i].state == Pending
  }

  lemma StepKeeps(p: Plan, h: History, op: Op)
    requires Inv(p, h)
    ensures Inv(p, Step(h, op))
  {
    hide Step, Rank, FilledFits, Next;
    var t := Step(h, op);
    forall i | 0 <= i < |p.children|
      ensures Later(h.plan.children[i], t.plan.children[i])
      ensures t.plan.children[i].order == p.children[i].order && t.changes[i] <= Rank(t.plan.children[i].state)
      ensures t.plan.children[i].order.quantityTicks > 0 && FilledFits(t.plan.children[i])
    {
      StepIsLater(h, op, i);
    }
    StepKeepsHandedOut(p, h, op);
  }

  lemma PendingIsFirst(r: ChildRecord, s: ChildRecord)
    requires Later(r, s) && r.state != Pending
    ensures s.state != Pending
  {
  }

  lemma StepKeepsHandedOut(p: Plan, h: History, op: Op)
    requires Inv(p, h)
    requires forall i | 0 <= i < |p.children| :: Later(h.plan.children[i], Step(h, op).plan.children[i])
    ensures Step(h, op).plan.createdMonoNs == p.createdMonoNs
    ensures DistinctIds(Step(h, op).handedOut)
    ensures forall o | o in Step(h, op).handedOut :: exists i :: ClaimedChild(Step(h, op).plan, o, i)
  {
    hide Rank, FilledFits, Later, Next, ClaimFrom;
    var t := Step(h, op);
    forall o | o in h.handedOut
      ensures exists i :: ClaimedChild(t.plan, o, i)
    {
      var i :| ClaimedChild(h.plan, o, i);
      PendingIsFirst(h.plan.children[i], t.plan.children[i]);
      SameOrder(h.plan.children[i], t.plan.children[i]);
      assert ClaimedChild(t.plan, o, i);
    }
    if op.ClaimDue? {
      var children := h.plan.children;
      var claims := ClaimFrom(h.plan.createdMonoNs, children, op.now);
      ClaimsChildren(h.plan.createdMonoNs, children, op.now);
      ClaimedFrom(h.plan.createdMonoNs, children, op.now);
      ClaimedAreDistinct(h.plan.createdMonoNs, children, op.now);
      forall o | o in claims.claimed
        ensures exists i :: ClaimedChild(t.plan, o, i)
        ensures forall earlier | earlier in h.handedOut :: earlier.clientOrderId != o.clientOrderId
      {
        var i :| 0 <= i < |children| && children[i].order == o && children[i].state == Pending
          && claims.children[i].state == Claimed;
        SameOrder(children[i], t.plan.children[i]);
        assert ClaimedChild(t.plan, o, i);
        forall earlier | earlier in h.handedOut
          ensures earlier.clientOrderId != o.clientOrderId
        {
          var j :| ClaimedChild(h.plan, earlier, j);
        }
      }
    }
  }

  lemma SameOrder(r: ChildRecord, s: ChildRecord)
    requires Later(r, s)
    ensures s.order == r.order
  {
  }

  lemma {:induction false} RunKeeps(p: Plan, ops: seq<Op>)
    requires Fresh(p)
    ensures Inv(p, Run(p, ops))
  {
    if ops != [] {
      RunKeeps(p, ops[..|ops| - 1]);
      StepKeeps(p, Run(p, ops[..|ops| - 1]), ops[|ops| - 1]);
    }
  }

  // --- what follows for every run ---

  // No child order is ever handed out twice.
  lemma HandedOutOnce(p: Plan, ops: seq<Op>)
    requires Fresh(p)
    ensures DistinctIds(Run(p, ops).handedOut)
  {
    RunKeeps(p, ops);
  }

  // A pass goes on to a child if no due time up to it is beyond u64.
  predicate Reached(created: u64, children: seq<ChildRecord>, i: nat)
    requires i < |children|
  {
    forall j | 0 <= j <= i :: !Overflows(created, children[j])
  }

  predicate AllReached(created: u64, children: seq<ChildRecord>) {
    forall j | 0 <= j < |children| :: !Overflows(created, children[j])
  }

  lemma ReachedSplit(created: u64, children: seq<ChildRecord>)
    requires children != []
    ensures Reached(created, children, 0) <==> !Overflows(created, children[0])
    ensures forall i | 0 < i < |children| ::
              Reached(created, children, i) <==>
                !Overflows(created, children[0]) && Reached(created, children[1..], i - 1)
  {
    hide Overflows;
    var rest := children[1..];
    forall i | 0 < i < |children|
      ensures Reached(created, children, i) <==> !Overflows(created, children[0]) && Reached(created, rest, i - 1)
    {
      assert forall j | 0 <= j <= i - 1 :: rest[j] == children[j + 1];
      assert forall j | 0 < j <= i :: children[j] == rest[j - 1];
    }
  }

  lemma {:induction false} PassReaches(created: u64, children: seq<ChildRecord>, now: u64, i: nat)
    requires i < |children|
    ensures var claims := ClaimFrom(created, children, now);
            && |claims.children| == |children|
            && claims.children[i] ==
               (if Reached(created, children, i) then Claim(created, children[i], now) else children[i])
            && (!claims.failed && IsDue(created, children[i], now) ==> children[i].order in claims.claimed)
    decreases |children|
  {
    hide Overflows, IsDue, Claim, Reached;
    ReachedSplit(created, children);
    if !Overflows(created, children[0]) && i > 0 {
      PassReaches(created, children[1..], now, i - 1);
    } else {
      PassLength(created, children[1..], now);
    }
  }

  lemma PassLength(created: u64, children: seq<ChildRecord>, now: u64)
    ensures var claims := ClaimFrom(created, children, now);
            |claims.children| == |children| && (claims.failed <==> !AllReached(created, children))
  {
    hide Overflows, ClaimFrom;
    ClaimsChildren(created, children, now);
  }

  // The claim that takes a child out of the pending state.
  predicate ClaimTakes(p: Plan, op: Op, i: nat)
    requires i < |p.children|
  {
    && op.ClaimDue? && Reached(p.createdMonoNs, p.children, i)
    && p.createdMonoNs + p.children[i].order.dueAfterNs <= op.now
  }

  lemma SameReach(created: u64, children: seq<ChildRecord>, others: seq<ChildRecord>)
    requires |children| == |others|
    requires forall i | 0 <= i < |children| :: children[i].order == others[i].order
    ensures forall i | 0 <= i < |children| :: Reached(created, children, i) <==> Reached(created, others, i)
    ensures AllReached(created, children) <==> AllReached(created, others)
  {
    forall i | 0 <= i < |children|
      ensures Reached(created, children, i) <==> Reached(created, others, i)
    {
      assert forall j | 0 <= j <= i :: Overflows(created, children[j]) <==> Overflows(created, others[j]);
    }
    assert forall j | 0 <= j < |children| :: Overflows(created, children[j]) <==> Overflows(created, others[j]);
  }

  lemma NextIsNotPending(r: ChildRecord, action: Action)
    ensures Next(r, action).Some? ==> r.state != Pending && Next(r, action).value.state != Pending
  {
  }

  lemma StepTakes(p: Plan, h: History, op: Op, i: nat)
    requires Inv(p, h) && i < |p.children|
    ensures Step(h, op).plan.children[i].state != Pending <==>
              h.plan.children[i].state != Pending || ClaimTakes(p, op, i)
    ensures !AllReached(p.createdMonoNs, p.children) ==> Step(h, op).handedOut == h.handedOut
    ensures AllReached(p.createdMonoNs, p.children) && h.plan.children[i].state == Pending && ClaimTakes(p, op, i) ==>
              p.children[i].order in Step(h, op).handedOut
    ensures forall o | o in h.handedOut :: o in Step(h, op).handedOut
  {
    hide Next, Reached, AllReached, ClaimFrom, DistinctIds, WellFormed, Rank;
    SameReach(p.createdMonoNs, p.children, h.plan.children);
    match op
    case ClaimDue(now) =>
      PassReaches(p.createdMonoNs, h.plan.children, now, i);
      PassLength(p.createdMonoNs, h.plan.children, now);
    case On(id, action) =>
      var found := Find(h.plan.children, id);
      if found < |h.plan.children| {
        NextIsNotPending(h.plan.children[found], action);
      }
  }

  ghost predicate WasTaken(p: Plan, ops: seq<Op>, i: nat)
    requires i < |p.children|
  {
    exists k | 0 <= k < |ops| :: ClaimTakes(p, ops[k], i)
  }

  lemma TakenSnoc(p: Plan, ops: seq<Op>, i: nat)
    requires i < |p.children| && ops != []
    ensures WasTaken(p, ops, i) <==> WasTaken(p, ops[..|ops| - 1], i) || ClaimTakes(p, ops[|ops| - 1], i)
  {
    hide ClaimTakes;
    var n := |ops| - 1;
    if WasTaken(p, ops[..n], i) {
      var k :| 0 <= k < n && ClaimTakes(p, ops[..n][k], i);
      assert ClaimTakes(p, ops[k], i);
    }
    if WasTaken(p, ops, i) && !ClaimTakes(p, ops[n], i) {
      var k :| 0 <= k <= n && ClaimTakes(p, ops[k], i);
      assert ClaimTakes(p, ops[..n][k], i);
    }
  }

  // Exactly which children leave the pending state in a run, and which are handed out: a claim takes each
  // due child it reaches; what it takes is handed out exactly if no due time of the plan is beyond u64.
  lemma {:induction false} HandedOutExactly(p: Plan, ops: seq<Op>, i: nat)
    requires Fresh(p) && i < |p.children|
    ensures Run(p, ops).plan.children[i].state != Pending <==> WasTaken(p, ops, i)
    ensures p.children[i].order in Run(p, ops).handedOut <==>
              WasTaken(p, ops, i) && AllReached(p.createdMonoNs, p.children)
    ensures !AllReached(p.createdMonoNs, p.children) ==> Run(p, ops).handedOut == []
  {
    hide Step, ClaimTakes, AllReached, DistinctIds, Rank, WasTaken;
    if ops == [] {
      NothingTaken(p, i);
    } else {
      var n := |ops| - 1;
      HandedOutExactly(p, ops[..n], i);
      RunKeeps(p, ops[..n]);
      RunKeeps(p, ops);
      StepTakes(p, Run(p, ops[..n]), ops[n], i);
      TakenSnoc(p, ops, i);
      if p.children[i].order in Run(p, ops).handedOut {
        OnlyClaimed(p, Run(p, ops), i);
      }
    }
  }

  lemma NothingTaken(p: Plan, i: nat)
    requires i < |p.children|
    ensures !WasTaken(p, [], i)
  {
  }

  lemma OnlyClaimed(p: Plan, h: History, i: nat)
    requires Inv(p, h) && i < |p.children| && p.children[i].order in h.handedOut
    ensures h.plan.children[i].state != Pending
  {
    hide Rank, FilledFits, DistinctIds;
    var j :| ClaimedChild(h.plan, p.children[i].order, j);
    assert h.plan.children[j].order.clientOrderId == h.plan.children[i].order.clientOrderId;
  }

  // A child changes state at most seven times, and its state tells where its fills lie.
  lemma FewChanges(p: Plan, ops: seq<Op>, i: nat)
    requires Fresh(p) && i < |p.children|
    ensures Run(p, ops).changes[i] <= Rank(Run(p, ops).plan.children[i].state) <= 7
    ensures FilledFits(Run(p, ops).plan.children[i])
  {
    RunKeeps(p, ops);
  }

  // A completed plan never changes again.
  lemma CompleteStays(p: Plan, ops: seq<Op>, op: Op)
    requires Fresh(p) && IsComplete(Run(p, ops).plan)
    ensures Step(Run(p, ops), op).plan == Run(p, ops).plan
  {
    RunKeeps(p, ops);
    var h := Run(p, ops);
    var t := Step(h, op);
    forall i | 0 <= i < |p.children|
      ensures t.plan.children[i] == h.plan.children[i]
    {
      StepIsLater(h, op, i);
    }
    assert t.plan.children == h.plan.children;
  }

  function Filled(p: Plan): seq<int> {
    seq(|p.children|, i requires 0 <= i < |p.children| => p.children[i].filledQuantityTicks)
  }

  // Every plan that can be made can be kept, and starts out fresh.
  lemma NewIsFresh(intent: OrderIntent, schedule: S.Schedule, created: u64)
    ensures New(intent, schedule, created).Ok? <==> S.Plan(intent, schedule).Ok?
    ensures New(intent, schedule, created).Ok? ==> Fresh(New(intent, schedule, created).value)
  {
    hide S.Plan, S.ChildId, S.Due;
    if S.Plan(intent, schedule).Ok? {
      S.PlanIs(intent, schedule);
      var children := S.Plan(intent, schedule).value;
      S.PositiveByIndex(S.QuantitiesOf(children));
      forall i | 0 <= i < |children|
        ensures children[i].quantityTicks > 0
      {
        assert S.QuantitiesOf(children)[i] > 0;
      }
      forall i, j | 0 <= i < j < |children|
        ensures children[i].clientOrderId != children[j].clientOrderId
      {
        if S.ChildId(intent.clientOrderId, i + 1) == S.ChildId(intent.clientOrderId, j + 1) {
          S.ChildIdsAreDistinct(intent.clientOrderId, i + 1, j + 1);
        }
      }
    }
  }

  // Whatever is reported, the children together never fill more than the parent.
  lemma NeverOverfilled(intent: OrderIntent, schedule: S.Schedule, created: u64, ops: seq<Op>)
    requires New(intent, schedule, created).Ok?
    ensures var p := New(intent, schedule, created).value;
            Sum(Filled(Run(p, ops).plan)) <= intent.quantityTicks
  {
    hide Sum, S.Plan;
    var p := New(intent, schedule, created).value;
    var q := S.QuantitiesOf(S.Plan(intent, schedule).value);
    NewIsFresh(intent, schedule, created);
    RunKeeps(p, ops);
    S.PlanIs(intent, schedule);
    SumMonotone(Filled(Run(p, ops).plan), q);
  }

  // Claiming fails exactly when the last child's due time does not fit a u64, at whatever point of
  // the run and whatever the time.
  lemma ClaimFailsExactly(intent: OrderIntent, schedule: S.Schedule, created: u64, ops: seq<Op>, now: u64)
    requires New(intent, schedule, created).Ok?
    ensures var p := New(intent, schedule, created).value;
            && p.children != []
            && (ClaimFrom(created, Run(p, ops).plan.children, now).failed
                <==> created + p.children[|p.children| - 1].order.dueAfterNs > U64_MAX)
  {
    hide S.Plan, S.Due, S.ChildId, ClaimFrom, WellFormed;
    var p := New(intent, schedule, created).value;
    NewIsFresh(intent, schedule, created);
    RunKeeps(p, ops);
    S.PlanIs(intent, schedule);
    var children := Run(p, ops).plan.children;
    ClaimsChildren(created, children, now);
    forall i | 0 <= i < |children|
      ensures children[i].order.dueAfterNs <= p.children[|p.children| - 1].order.dueAfterNs
    {
      S.DueGrows(S.Interval(schedule), i, |children| - 1);
    }
    assert children[|children| - 1].order == p.children[|p.children| - 1].order;
    if created + p.children[|p.children| - 1].order.dueAfterNs > U64_MAX {
      assert Overflows(created, children[|children| - 1]);
    }
  }
}
