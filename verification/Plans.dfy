/** The plan store of crates/autonomy: a lifecycle whose events can be replayed. */
module Plans {
  import opened Wrappers
  import opened Bytes
  import Text

  datatype ActionType =
    | ExecuteProposal | ExecuteProposalScaled | IgnoreProposal | PauseStrategy | ResumeStrategy
    | RequestReanalysis | AddToWatch | RemoveFromWatch | ReduceAutonomy | NoAction

  // A scale is carried as the 64 bits of its floating-point number.
  datatype Action = Action(actionType: ActionType, proposalId: Option<string>, scale: Option<u64>,
    reasonCodes: seq<string>)

  datatype Plan = Plan(planId: string, generatedAt: u64, expiresAt: u64, actions: seq<Action>)

  datatype PlanState = Pending | Approved | Rejected | Expired | Executing | Completed | Failed

  datatype PlanEvent = Submitted(plan: Plan) | Transition(planId: string, state: PlanState)

  datatype Refusal = IdentityOrInterval | PlanExpired | BadAction | DuplicateProposal

  datatype PlanError =
    | Invalid(refusal: Refusal) | Duplicate | NotFound | InvalidTransition(from: PlanState, to: PlanState) | TooLate

  datatype PlanRecord = PlanRecord(plan: Plan, state: PlanState)

  type Records = map<string, PlanRecord>

  // --- validation; what makes a single action acceptable is a parameter ---

  function CheckActions(actions: seq<Action>, ids: set<string>, acceptable: Action -> bool): Result<(), Refusal> {
    if actions == [] then Ok(())
    else if !acceptable(actions[0]) then Err(BadAction)
    else
      match actions[0].proposalId
      case None => CheckActions(actions[1..], ids, acceptable)
      case Some(id) => if id in ids then Err(DuplicateProposal) else CheckActions(actions[1..], ids + {id}, acceptable)
  }

  function Validate(plan: Plan, now: u64, acceptable: Action -> bool): Result<(), Refusal> {
    if Text.Blank(plan.planId) || plan.expiresAt < plan.generatedAt then Err(IdentityOrInterval)
    else if now >= plan.expiresAt then Err(PlanExpired)
    else CheckActions(plan.actions, {}, acceptable)
  }

  method ValidatePlan(plan: Plan, now: u64, acceptable: Action -> bool) returns (r: Result<(), Refusal>)
    ensures r == Validate(plan, now, acceptable)
  {
    if Text.Blank(plan.planId) || plan.expiresAt < plan.generatedAt {
      return Err(IdentityOrInterval);
    }
    if now >= plan.expiresAt {
      return Err(PlanExpired);
    }
    var ids: set<string> := {};
    for i := 0 to |plan.actions|
      invariant CheckActions(plan.actions, {}, acceptable) == CheckActions(plan.actions[i..], ids, acceptable)
    {
      var action := plan.actions[i];
      if !acceptable(action) {
        return Err(BadAction);
      }
      match action.proposalId {
        case None =>
        case Some(id) =>
          if id in ids {
            return Err(DuplicateProposal);
          }
          ids := ids + {id};
      }
    }
    return Ok(());
  }

  predicate Repeats(actions: seq<Action>, i: int, j: int)
    requires 0 <= i < j < |actions|
  {
    actions[i].proposalId.Some? && actions[i].proposalId == actions[j].proposalId
  }

  // A plan is valid when every action is and no two concern the same proposal.
  lemma {:induction false} ActionsPassExactly(actions: seq<Action>, ids: set<string>, acceptable: Action -> bool)
    ensures CheckActions(actions, ids, acceptable).Ok? <==>
              && (forall i | 0 <= i < |actions| :: acceptable(actions[i]))
              && (forall i | 0 <= i < |actions| :: actions[i].proposalId.Some? ==> actions[i].proposalId.value !in ids)
              && (forall i, j | 0 <= i < j < |actions| :: !Repeats(actions, i, j))
  {
    if actions != [] {
      var rest := actions[1..];
      var more := if actions[0].proposalId.Some? then ids + {actions[0].proposalId.value} else ids;
      ActionsPassExactly(rest, more, acceptable);
      assert forall i | 0 <= i < |rest| :: rest[i] == actions[i + 1];
      assert forall i | 0 < i < |actions| :: actions[i] == rest[i - 1];
      if forall i, j | 0 <= i < j < |actions| :: !Repeats(actions, i, j) {
        forall i, j | 0 <= i < j < |rest|
          ensures !Repeats(rest, i, j)
        {
          assert !Repeats(actions, i + 1, j + 1);
        }
        forall i | 0 <= i < |rest|
          ensures rest[i].proposalId.Some? && actions[0].proposalId.Some? ==>
                    rest[i].proposalId.value != actions[0].proposalId.value
        {
          assert !Repeats(actions, 0, i + 1);
        }
      }
      if CheckActions(actions, ids, acceptable).Ok? {
        forall i, j | 0 <= i < j < |actions|
          ensures !Repeats(actions, i, j)
        {
          if i > 0 {
            assert !Repeats(rest, i - 1, j - 1);
          } else {
            assert actions[j] == rest[j - 1];
          }
        }
      }
    }
  }

  // --- the lifecycle ---

  predicate Legal(from: PlanState, to: PlanState) {
    match from
    case Pending => to in {Approved, Rejected, Expired}
    case Approved => to in {Executing, Expired}
    case Executing => to in {Completed, Failed}
    case _ => false
  }

  // A change of the records, the events it emits, and the answer to the caller.
  datatype Outcome = Outcome(records: Records, events: seq<PlanEvent>, result: Result<(), PlanError>)

  function SubmitTo(records: Records, plan: Plan, now: u64, acceptable: Action -> bool): Outcome {
    match Validate(plan, now, acceptable)
    case Err(refusal) => Outcome(records, [], Err(Invalid(refusal)))
    case Ok(_) =>
      if plan.planId in records then Outcome(records, [], Err(Duplicate))
      else Outcome(records[plan.planId := PlanRecord(plan, Pending)], [Submitted(plan)], Ok(()))
  }

  function TransitionIn(records: Records, planId: string, next: PlanState, now: u64): Outcome {
    if planId !in records then Outcome(records, [], Err(NotFound)) else
    var record := records[planId];
    if record.state == next then Outcome(records, [], Ok(()))
    else if now >= record.plan.expiresAt && record.state !in {Completed, Failed} then
      Outcome(records[planId := record.(state := Expired)], [Transition(planId, Expired)],
              if next != Expired then Err(TooLate) else Ok(()))
    else if !Legal(record.state, next) then Outcome(records, [], Err(InvalidTransition(record.state, next)))
    else Outcome(records[planId := record.(state := next)], [Transition(planId, next)], Ok(()))
  }

  function Restore(records: Records, event: PlanEvent, acceptable: Action -> bool): Result<Records, PlanError> {
    match event
    case Submitted(plan) =>
      (match Validate(plan, plan.generatedAt, acceptable)
       case Err(refusal) => Err(Invalid(refusal))
       case Ok(_) => if plan.planId in records then Err(Duplicate)
         else Ok(records[plan.planId := PlanRecord(plan, Pending)]))
    case Transition(planId, state) =>
      if planId !in records then Err(NotFound) else
      var record := records[planId];
      if record.state == state then Ok(records)
      else if !Legal(record.state, state) then Err(InvalidTransition(record.state, state))
      else Ok(records[planId := record.(state := state)])
  }

  class PlanStore {
    var records: Records
    var events: seq<PlanEvent>
    const acceptable: Action -> bool

    constructor (acceptable: Action -> bool)
      ensures records == map[] && events == [] && this.acceptable == acceptable
    {
      records, events := map[], [];
      this.acceptable := acceptable;
    }

    method Submit(plan: Plan, now: u64) returns (r: Result<(), PlanError>)
      modifies this
      ensures var outcome := SubmitTo(old(records), plan, now, acceptable);
              records == outcome.records && events == old(events) + outcome.events && r == outcome.result
    {
      var valid := ValidatePlan(plan, now, acceptable);
      if valid.Err? {
        return Err(Invalid(valid.error));
      }
      if plan.planId in records {
        return Err(Duplicate);
      }
      records := records[plan.planId := PlanRecord(plan, Pending)];
      events := events + [Submitted(plan)];
      return Ok(());
    }

    method TransitionPlan(planId: string, next: PlanState, now: u64) returns (r: Result<(), PlanError>)
      modifies this
      ensures var outcome := TransitionIn(old(records), planId, next, now);
              records == outcome.records && events == old(events) + outcome.events && r == outcome.result
    {
      if planId !in records {
        return Err(NotFound);
      }
      var record := records[planId];
      if record.state == next {
        return Ok(());
      }
      var emitted, late := next, false;
      if now >= record.plan.expiresAt && record.state !in {Completed, Failed} {
        emitted, late := Expired, next != Expired;
      } else if !Legal(record.state, next) {
        return Err(InvalidTransition(record.state, next));
      }
      records := records[planId := record.(state := emitted)];
      events := events + [Transition(planId, emitted)];
      return if late then Err(TooLate) else Ok(());
    }

    method RestoreEvent(event: PlanEvent) returns (r: Result<(), PlanError>)
      modifies this`records
      ensures match Restore(old(records), event, acceptable)
              case Ok(after) => r == Ok(()) && records == after
              case Err(error) => r == Err(error) && records == old(records)
    {
      match event
      case Submitted(plan) =>
        var valid := ValidatePlan(plan, plan.generatedAt, acceptable);
        if valid.Err? {
          return Err(Invalid(valid.error));
        }
        if plan.planId in records {
          return Err(Duplicate);
        }
        records := records[plan.planId := PlanRecord(plan, Pending)];
        return Ok(());
      case Transition(planId, state) =>
        if planId !in records {
          return Err(NotFound);
        }
        var record := records[planId];
        if record.state == state {
          return Ok(());
        }
        if !Legal(record.state, state) {
          return Err(InvalidTransition(record.state, state));
        }
        records := records[planId := record.(state := state)];
        return Ok(());
    }

    method DrainEvents() returns (drained: seq<PlanEvent>)
      modifies this`events
      ensures drained == old(events) && events == []
    {
      drained := events;
      events := [];
    }
  }

  // --- runs ---

  datatype Op = Submit(plan: Plan, now: u64) | Move(planId: string, next: PlanState, now: u64)

  function Do(records: Records, op: Op, acceptable: Action -> bool): Outcome {
    match op
    case Submit(plan, now) => SubmitTo(records, plan, now, acceptable)
    case Move(planId, next, now) => TransitionIn(records, planId, next, now)
  }

  // The records after a run and every event it emitted.
  function Run(ops: seq<Op>, acceptable: Action -> bool): (Records, seq<PlanEvent>) {
    if ops == [] then (map[], []) else
    var before := Run(ops[..|ops| - 1], acceptable);
    var outcome := Do(before.0, ops[|ops| - 1], acceptable);
    (outcome.records, before.1 + outcome.events)
  }

  function Replay(events: seq<PlanEvent>, acceptable: Action -> bool): Result<Records, PlanError> {
    if events == [] then Ok(map[]) else
    var before :- Replay(events[..|events| - 1], acceptable);
    Restore(before, events[|events| - 1], acceptable)
  }

  // Calls whose event a restore accepts: not a plan that expires the moment it is generated, and not
  // a transition that expires an executing or a rejected plan.
  predicate Replayable(records: Records, op: Op, acceptable: Action -> bool) {
    match op
    case Submit(plan, now) => plan.generatedAt < plan.expiresAt || SubmitTo(records, plan, now, acceptable).result.Err?
    case Move(planId, next, now) =>
      !(planId in records && records[planId].state in {Executing, Rejected} && next != records[planId].state
        && now >= records[planId].plan.expiresAt)
  }

  predicate AllReplayable(ops: seq<Op>, acceptable: Action -> bool) {
    ops == [] ||
      (AllReplayable(ops[..|ops| - 1], acceptable)
       && Replayable(Run(ops[..|ops| - 1], acceptable).0, ops[|ops| - 1], acceptable))
  }

  lemma StepReplays(records: Records, op: Op, acceptable: Action -> bool)
    ensures var outcome := Do(records, op, acceptable);
            && |outcome.events| <= 1
            && (outcome.events == [] ==> outcome.records == records && Replayable(records, op, acceptable))
            && (outcome.events != [] ==>
                  if Replayable(records, op, acceptable) then
                    Restore(records, outcome.events[0], acceptable) == Ok(outcome.records)
                  else Restore(records, outcome.events[0], acceptable).Err?)
  {
    hide CheckActions, Text.Blank;
    if op.Move? && op.planId in records {
      assert records[op.planId := records[op.planId]] == records;
    }
  }

  // Replaying what a run emitted rebuilds its records exactly when every call was replayable; else
  // the replay is refused.
  lemma {:induction false} ReplayExactly(ops: seq<Op>, acceptable: Action -> bool)
    ensures var run := Run(ops, acceptable);
            if AllReplayable(ops, acceptable) then Replay(run.1, acceptable) == Ok(run.0)
              else Replay(run.1, acceptable).Err?
  {
    hide Do, Replayable, Restore;
    if ops != [] {
      var n := |ops| - 1;
      ReplayExactly(ops[..n], acceptable);
      var before := Run(ops[..n], acceptable);
      StepReplays(before.0, ops[n], acceptable);
      var events := Do(before.0, ops[n], acceptable).events;
      if events == [] {
        assert before.1 + events == before.1;
      } else {
        assert events == [events[0]];
        assert (before.1 + events)[..|before.1|] == before.1;
      }
    }
  }

  lemma RunSnoc(ops: seq<Op>, op: Op, acceptable: Action -> bool)
    ensures Run(ops + [op], acceptable).0 == Do(Run(ops, acceptable).0, op, acceptable).records
    ensures AllReplayable(ops + [op], acceptable) <==>
              AllReplayable(ops, acceptable) && Replayable(Run(ops, acceptable).0, op, acceptable)
  {
    hide Do, Replayable;
    assert (ops + [op])[..|ops|] == ops;
  }

  lemma NotBlank()
    ensures !Text.Blank("p")
  {
    assert 'p' in "p" && !Text.IsWhite('p');
  }

  // Any transition of an executing plan at or after its expiry expires it instead, and is answered so; the
  // run replayed until then, and no longer does.
  lemma ExpiresWhileExecuting(ops: seq<Op>, id: string, next: PlanState, now: u64, acceptable: Action -> bool)
    requires AllReplayable(ops, acceptable) && id in Run(ops, acceptable).0 && next != Executing
    requires Run(ops, acceptable).0[id].state == Executing && now >= Run(ops, acceptable).0[id].plan.expiresAt
    ensures var records := Run(ops, acceptable).0;
            && Replay(Run(ops, acceptable).1, acceptable) == Ok(records)
            && Do(records, Move(id, next, now), acceptable)
                 == Outcome(records[id := records[id].(state := Expired)], [Transition(id, Expired)],
                            if next != Expired then Err(TooLate) else Ok(()))
            && Replay(Run(ops + [Move(id, next, now)], acceptable).1, acceptable).Err?
  {
    hide Run, AllReplayable, Replay;
    ReplayExactly(ops, acceptable);
    RunSnoc(ops, Move(id, next, now), acceptable);
    ReplayExactly(ops + [Move(id, next, now)], acceptable);
  }

  const RUNNING_PLAN := Plan("p", 0, 10, [])
  const RUNNING := [Submit(RUNNING_PLAN, 0), Move("p", Approved, 1), Move("p", Executing, 2)]

  // Such a run: submitted, approved and started in time, completed at the expiry.
  lemma ExpiredWhileExecuting(acceptable: Action -> bool)
    ensures Run(RUNNING, acceptable).0 == map["p" := PlanRecord(RUNNING_PLAN, Executing)]
    ensures Run(RUNNING + [Move("p", Completed, 10)], acceptable).0 == map["p" := PlanRecord(RUNNING_PLAN, Expired)]
    ensures Replay(Run(RUNNING, acceptable).1, acceptable).Ok?
    ensures Replay(Run(RUNNING + [Move("p", Completed, 10)], acceptable).1, acceptable).Err?
  {
    hide Run, AllReplayable, Replay;
    RunsOnTime(acceptable);
    RunSnoc(RUNNING, Move("p", Completed, 10), acceptable);
    ExpiresWhileExecuting(RUNNING, "p", Completed, 10, acceptable);
  }

  lemma RunsOnTime(acceptable: Action -> bool)
    ensures Run(RUNNING, acceptable).0 == map["p" := PlanRecord(RUNNING_PLAN, Executing)]
    ensures AllReplayable(RUNNING, acceptable)
  {
    hide Text.Blank, Run, AllReplayable;
    NotBlank();
    var submit, approve, start := RUNNING[0], RUNNING[1], RUNNING[2];
    RunNothing(acceptable);
    RunSnoc([], submit, acceptable);
    RunSnoc([submit], approve, acceptable);
    RunSnoc([submit, approve], start, acceptable);
    assert [] + [submit] == [submit] && [submit] + [approve] == [submit, approve];
    assert [submit, approve] + [start] == RUNNING;
    assert Run([submit], acceptable).0 == map["p" := PlanRecord(RUNNING_PLAN, Pending)];
    assert Run([submit, approve], acceptable).0 == map["p" := PlanRecord(RUNNING_PLAN, Approved)];
  }

  lemma RunNothing(acceptable: Action -> bool)
    ensures Run([], acceptable) == (map[], []) && AllReplayable([], acceptable)
  {
  }

  // A call at or after a plan's expiry can only expire it.
  lemma NothingStartsLate(records: Records, op: Op, acceptable: Action -> bool, id: string)
    requires id in records && op.now >= records[id].plan.expiresAt
    ensures var after := Do(records, op, acceptable).records;
            id in after && after[id].plan == records[id].plan
              && (after[id].state == records[id].state || after[id].state == Expired)
  {
  }

  // What a run keeps: plans stay as submitted, under their own identity, and never come back from a
  // final state.
  lemma RecordsStay(records: Records, op: Op, acceptable: Action -> bool, id: string)
    requires id in records
    ensures var after := Do(records, op, acceptable).records;
            && id in after && after[id].plan == records[id].plan
            && (records[id].state in {Completed, Failed, Expired} ==> after[id].state == records[id].state)
            && (after[id].state == records[id].state || Legal(records[id].state, after[id].state)
                || (after[id].state == Expired && op.now >= records[id].plan.expiresAt))
  {
  }

  lemma {:induction false} RunKeepsPlans(ops: seq<Op>, more: seq<Op>, acceptable: Action -> bool, id: string)
    requires id in Run(ops, acceptable).0
    ensures var before, after := Run(ops, acceptable).0, Run(ops + more, acceptable).0;
            && id in after && after[id].plan == before[id].plan
            && (before[id].state in {Completed, Failed, Expired} ==> after[id].state == before[id].state)
  {
    hide Do;
    if more == [] {
      assert ops + more == ops;
    } else {
      var n := |more| - 1;
      RunKeepsPlans(ops, more[..n], acceptable, id);
      var all := ops + more;
      assert all[..|all| - 1] == ops + more[..n];
      RecordsStay(Run(ops + more[..n], acceptable).0, more[n], acceptable, id);
    }
  }

  // --- the lifecycle, from outside ---

  // The seven ways forward.
  predicate Forward(from: PlanState, to: PlanState) {
    || (from == Pending && to == Approved) || (from == Pending && to == Rejected) || (from == Pending && to == Expired)
    || (from == Approved && to == Executing) || (from == Approved && to == Expired)
    || (from == Executing && to == Completed) || (from == Executing && to == Failed)
  }

  // Every answer to a transition: a plan not yet at its expiry moves exactly along the seven ways; at its
  // expiry it expires, unless it completed or failed; whatever is refused changes nothing.
  lemma TransitionExactly(records: Records, id: string, next: PlanState, now: u64)
    ensures var outcome := TransitionIn(records, id, next, now);
            if id !in records then outcome == Outcome(records, [], Err(NotFound))
            else
              var r := records[id];
              var late := now >= r.plan.expiresAt && r.state != Completed && r.state != Failed;
              if r.state == next then outcome == Outcome(records, [], Ok(()))
              else if late then
                && outcome.events == [Transition(id, Expired)] && (outcome.result.Ok? <==> next == Expired)
                && outcome.records == records[id := PlanRecord(r.plan, Expired)]
                && (outcome.result.Err? ==> outcome.result.error == TooLate)
              else if Forward(r.state, next) then
                outcome == Outcome(records[id := PlanRecord(r.plan, next)], [Transition(id, next)], Ok(()))
              else outcome == Outcome(records, [], Err(InvalidTransition(r.state, next)))
  {
  }

  // A restored transition is taken exactly along the same ways, whatever the time, or if it repeats the state.
  lemma RestoreExactly(records: Records, id: string, state: PlanState, acceptable: Action -> bool)
    ensures var restored := Restore(records, Transition(id, state), acceptable);
            && (restored.Ok? <==> id in records && (records[id].state == state || Forward(records[id].state, state)))
            && (restored.Ok? ==> restored.value == records[id := PlanRecord(records[id].plan, state)])
  {
    if id in records && records[id].state == state {
      assert records[id := records[id]] == records;
    }
  }

  // A plan is taken exactly when it is named, ends after now and not before it begins, every action of it is
  // acceptable, no two of them concern one proposal, and its identity is new.
  lemma SubmitExactly(records: Records, plan: Plan, now: u64, acceptable: Action -> bool)
    ensures var outcome := SubmitTo(records, plan, now, acceptable);
            && (outcome.result.Ok? <==>
                  && Text.Trim(plan.planId) != "" && plan.generatedAt <= plan.expiresAt && now < plan.expiresAt
                  && (forall i | 0 <= i < |plan.actions| :: acceptable(plan.actions[i]))
                  && (forall i, j | 0 <= i < j < |plan.actions| :: !Repeats(plan.actions, i, j))
                  && plan.planId !in records)
            && if outcome.result.Ok?
               then outcome.records == records[plan.planId := PlanRecord(plan, Pending)]
                    && outcome.events == [Submitted(plan)]
               else outcome.records == records && outcome.events == []
  {
    hide Text.Trim, Text.Blank;
    Text.BlankExactly(plan.planId);
    ActionsPassExactly(plan.actions, {}, acceptable);
  }

  // Every state is the end of some run.
  lemma EveryStateIsReached(state: PlanState, acceptable: Action -> bool) returns (ops: seq<Op>)
    ensures "p" in Run(ops, acceptable).0 && Run(ops, acceptable).0["p"].state == state
  {
    hide Run, AllReplayable, Text.Blank;
    NotBlank();
    RunsOnTime(acceptable);
    RunNothing(acceptable);
    var submit := [Submit(RUNNING_PLAN, 0)];
    RunSnoc([], submit[0], acceptable);
    assert [] + submit == submit;
    assert Run(submit, acceptable).0 == map["p" := PlanRecord(RUNNING_PLAN, Pending)];
    match state
    case Pending => ops := submit;
    case Approved => ops := submit + [Move("p", Approved, 1)]; RunSnoc(submit, Move("p", Approved, 1), acceptable);
    case Rejected => ops := submit + [Move("p", Rejected, 1)]; RunSnoc(submit, Move("p", Rejected, 1), acceptable);
    case Expired => ops := submit + [Move("p", Expired, 1)]; RunSnoc(submit, Move("p", Expired, 1), acceptable);
    case Executing => ops := RUNNING;
    case Completed => ops := RUNNING + [Move("p", Completed, 3)]; RunSnoc(RUNNING, Move("p", Completed, 3), acceptable);
    case Failed => ops := RUNNING + [Move("p", Failed, 3)]; RunSnoc(RUNNING, Move("p", Failed, 3), acceptable);
  }

  predicate Emitted(log: seq<PlanEvent>, id: string, state: PlanState) { Transition(id, state) in log }

  // The events a plan in some state must have left behind.
  ghost predicate Explained(records: Records, log: seq<PlanEvent>) {
    forall id | id in records :: records[id].plan.planId == id && ExplainedBy(records[id], log)
  }

  predicate ExplainedBy(r: PlanRecord, log: seq<PlanEvent>) {
    && Submitted(r.plan) in log
    && (r.state in {Approved, Executing, Completed, Failed} ==> Emitted(log, r.plan.planId, Approved))
    && (r.state in {Executing, Completed, Failed} ==> Emitted(log, r.plan.planId, Executing))
    && (r.state != Pending ==> Emitted(log, r.plan.planId, r.state))
  }

  lemma StillExplained(r: PlanRecord, log: seq<PlanEvent>, more: seq<PlanEvent>)
    requires ExplainedBy(r, log)
    ensures ExplainedBy(r, log + more)
  {
  }

  lemma MovedIsExplained(r: PlanRecord, log: seq<PlanEvent>, next: PlanState)
    requires ExplainedBy(r, log) && (Legal(r.state, next) || next == Expired)
    ensures ExplainedBy(r.(state := next), log + [Transition(r.plan.planId, next)])
  {
    var more := log + [Transition(r.plan.planId, next)];
    assert more[|log|] == Transition(r.plan.planId, next);
  }

  // No plan runs without having been approved, and none ends without having run: every state a run
  // reaches is explained by the events it emitted.
  lemma {:induction false} StatesAreExplained(ops: seq<Op>, acceptable: Action -> bool)
    ensures Explained(Run(ops, acceptable).0, Run(ops, acceptable).1)
  {
    hide Validate;
    if ops != [] {
      var n := |ops| - 1;
      StatesAreExplained(ops[..n], acceptable);
      StepIsExplained(Run(ops[..n], acceptable).0, Run(ops[..n], acceptable).1, ops[n], acceptable);
    }
  }

  lemma StepIsExplained(records: Records, log: seq<PlanEvent>, op: Op, acceptable: Action -> bool)
    requires Explained(records, log)
    ensures var outcome := Do(records, op, acceptable); Explained(outcome.records, log + outcome.events)
  {
    hide Validate, ExplainedBy, Legal;
    var outcome := Do(records, op, acceptable);
    assert log + [] == log;
    forall id | id in outcome.records
      ensures outcome.records[id].plan.planId == id && ExplainedBy(outcome.records[id], log + outcome.events)
    {
      if id in records {
        StillExplained(records[id], log, outcome.events);
        if outcome.records[id] != records[id] {
          MovedIsExplained(records[id], log, outcome.records[id].state);
        }
      } else {
        SubmittedIsExplained(op.plan, log);
      }
    }
  }

  lemma SubmittedIsExplained(plan: Plan, log: seq<PlanEvent>)
    ensures ExplainedBy(PlanRecord(plan, Pending), log + [Submitted(plan)])
  {
    assert (log + [Submitted(plan)])[|log|] == Submitted(plan);
  }
}
