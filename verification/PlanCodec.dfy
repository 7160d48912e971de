/** The binary form of plan events in crates/autonomy, and replay from it. */
module PlanCodec {
  import opened Wrappers
  import opened Bytes
  import opened Text
  import opened Wire
  import opened Plans

  // IT_PLAN_EVENT_V1 and a zero byte
  const PLAN_EVENT_MAGIC: seq<byte> :=
    [0x49, 0x54, 0x5F, 0x50, 0x4C, 0x41, 0x4E, 0x5F, 0x45, 0x56, 0x45, 0x4E, 0x54, 0x5F, 0x56, 0x31, 0x00]

  const MAX_PLAN_BYTES: nat := 4_194_304
  const MAX_STRING_BYTES: nat := 1_048_576
  const MAX_ACTIONS: nat := 4_096
  const MAX_REASONS: nat := 256

  datatype DecodeError = Malformed | Schema(refusal: Refusal)

  function Clamp(n: nat, maximum: nat): (r: nat)
    ensures r <= maximum && (n <= maximum ==> r == n) && (n > maximum ==> r == maximum)
  {
    if n <= maximum then n else maximum
  }

  function ActionCode(t: ActionType): (code: nat)
    ensures 1 <= code <= 10
  {
    match t
    case ExecuteProposal => 1
    case ExecuteProposalScaled => 2
    case IgnoreProposal => 3
    case PauseStrategy => 4
    case ResumeStrategy => 5
    case RequestReanalysis => 6
    case AddToWatch => 7
    case RemoveFromWatch => 8
    case ReduceAutonomy => 9
    case NoAction => 10
  }

  function DecodeAction(code: nat): Result<ActionType, DecodeError> {
    match code
    case 1 => Ok(ExecuteProposal)
    case 2 => Ok(ExecuteProposalScaled)
    case 3 => Ok(IgnoreProposal)
    case 4 => Ok(PauseStrategy)
    case 5 => Ok(ResumeStrategy)
    case 6 => Ok(RequestReanalysis)
    case 7 => Ok(AddToWatch)
    case 8 => Ok(RemoveFromWatch)
    case 9 => Ok(ReduceAutonomy)
    case 10 => Ok(NoAction)
    case _ => Err(Malformed)
  }

  function StateCode(state: PlanState): (code: nat)
    ensures 1 <= code <= 7
  {
    match state
    case Pending => 1
    case Approved => 2
    case Rejected => 3
    case Expired => 4
    case Executing => 5
    case Completed => 6
    case Failed => 7
  }

  function DecodeState(code: nat): Result<PlanState, DecodeError> {
    match code
    case 1 => Ok(Pending)
    case 2 => Ok(Approved)
    case 3 => Ok(Rejected)
    case 4 => Ok(Expired)
    case 5 => Ok(Executing)
    case 6 => Ok(Completed)
    case 7 => Ok(Failed)
    case _ => Err(Malformed)
  }

  // The codes count the states and the actions in the order of their declaration.
  lemma CodesCount(state: PlanState, actionType: ActionType)
    ensures [Pending, Approved, Rejected, Expired, Executing, Completed, Failed][StateCode(state) - 1] == state
    ensures [ExecuteProposal, ExecuteProposalScaled, IgnoreProposal, PauseStrategy, ResumeStrategy, RequestReanalysis,
             AddToWatch, RemoveFromWatch, ReduceAutonomy, NoAction][ActionCode(actionType) - 1] == actionType
    ensures DecodeState(StateCode(state)) == Ok(state) && DecodeAction(ActionCode(actionType)) == Ok(actionType)
  {
  }

  // --- writing ---

  function PushString(s: string): seq<byte> { ToLE(Clamp(Size(s), U32_MAX), 4) + Utf8(s) }

  function PushOption(s: Option<string>): seq<byte> {
    match s
    case None => ToLE(0, 1)
    case Some(value) => ToLE(1, 1) + PushString(value)
  }

  function PushReasons(reasons: seq<string>): seq<byte> {
    if reasons == [] then [] else PushString(reasons[0]) + PushReasons(reasons[1..])
  }

  function PushScale(scale: Option<u64>): seq<byte> {
    match scale
    case None => ToLE(0, 1) + ToLE(0, 8)
    case Some(bits) => ToLE(1, 1) + ToLE(bits, 8)
  }

  function PushAction(action: Action): seq<byte> {
    ToLE(ActionCode(action.actionType), 1) + (PushOption(action.proposalId) + (PushScale(action.scale)
      + (ToLE(Clamp(|action.reasonCodes|, U16_MAX), 2) + PushReasons(action.reasonCodes))))
  }

  function PushActions(actions: seq<Action>): seq<byte> {
    if actions == [] then [] else PushAction(actions[0]) + PushActions(actions[1..])
  }

  function PushPlan(plan: Plan): seq<byte> {
    PushString(plan.planId) + (ToLE(plan.generatedAt, 8) + (ToLE(plan.expiresAt, 8)
      + (ToLE(Clamp(|plan.actions|, U32_MAX), 4) + PushActions(plan.actions))))
  }

  function Encode(event: PlanEvent): seq<byte> {
    PLAN_EVENT_MAGIC +
      match event
      case Submitted(plan) => ToLE(1, 1) + PushPlan(plan)
      case Transition(planId, state) => ToLE(2, 1) + (PushString(planId) + ToLE(StateCode(state), 1))
  }

  function Ascii(s: string): seq<byte>
    requires forall i | 0 <= i < |s| :: s[i] < 128 as char
  {
    seq(|s|, i requires 0 <= i < |s| => s[i] as int)
  }

  // The bytes of a transition: the marker, kind 2, the identity behind its length, the state counted from 1.
  lemma TransitionLayout(planId: string, state: PlanState)
    requires Size(planId) <= U32_MAX
    ensures Encode(Transition(planId, state)) ==
              Ascii("IT_PLAN_EVENT_V1") + [0, 2] + ToLE(Size(planId), 4) + Utf8(planId) + [StateCode(state)]
  {
    hide Utf8, Size;
    OneByte(2);
    OneByte(StateCode(state));
    assert Ascii("IT_PLAN_EVENT_V1") + [0] == PLAN_EVENT_MAGIC;
  }

  // The bytes of a submission, up to its actions.
  lemma SubmissionLayout(plan: Plan)
    requires Size(plan.planId) <= U32_MAX && |plan.actions| <= U32_MAX
    ensures Encode(Submitted(plan)) ==
              Ascii("IT_PLAN_EVENT_V1") + [0, 1] + ToLE(Size(plan.planId), 4) + Utf8(plan.planId)
              + ToLE(plan.generatedAt, 8) + ToLE(plan.expiresAt, 8) + ToLE(|plan.actions|, 4)
              + PushActions(plan.actions)
  {
    hide Utf8, Size, PushActions;
    OneByte(1);
    assert Ascii("IT_PLAN_EVENT_V1") + [0] == PLAN_EVENT_MAGIC;
  }

  lemma OneByte(n: nat)
    requires n < 256
    ensures ToLE(n, 1) == [n]
  {
    assert ToLE(n / 256, 0) == [];
  }

  // --- reading ---

  function Lift<T>(r: Result<T, TakeError>): Result<T, DecodeError> {
    if r.Err? then Err(Malformed) else Ok(r.value)
  }

  function ReadUint(bytes: seq<byte>, width: nat): Result<(nat, seq<byte>), DecodeError> {
    Lift(TakeUint(bytes, width))
  }

  function ReadString(bytes: seq<byte>): Result<(string, seq<byte>), DecodeError> {
    Lift(TakeString(bytes, 4, MAX_STRING_BYTES))
  }

  function ReadOption(bytes: seq<byte>): Result<(Option<string>, seq<byte>), DecodeError> {
    var marker :- ReadUint(bytes, 1);
    if marker.0 == 0 then Ok((None, marker.1))
    else if marker.0 == 1 then
      var value :- ReadString(marker.1);
      Ok((Some(value.0), value.1))
    else Err(Malformed)
  }

  function ReadScale(bytes: seq<byte>): Result<(Option<u64>, seq<byte>), DecodeError> {
    var marker :- ReadUint(bytes, 1);
    if marker.0 > 1 then Err(Malformed) else
    var bits :- ReadUint(marker.1, 8);
    EightBytes(marker.1);
    Ok((if marker.0 == 1 then Some(bits.0) else None, bits.1))
  }

  function ReadReasons(bytes: seq<byte>, count: nat, read: seq<string>): Result<(seq<string>, seq<byte>), DecodeError>
    decreases count
  {
    if count == 0 then Ok((read, bytes)) else
    var reason :- ReadString(bytes);
    ReadReasons(reason.1, count - 1, read + [reason.0])
  }

  function ReadAction(bytes: seq<byte>): Result<(Action, seq<byte>), DecodeError> {
    var code :- ReadUint(bytes, 1);
    var actionType :- DecodeAction(code.0);
    var proposal :- ReadOption(code.1);
    var scale :- ReadScale(proposal.1);
    var count :- ReadUint(scale.1, 2);
    if count.0 > MAX_REASONS then Err(Malformed) else
    var reasons :- ReadReasons(count.1, count.0, []);
    Ok((Action(actionType, proposal.0, scale.0, reasons.0), reasons.1))
  }

  function ReadActions(bytes: seq<byte>, count: nat, read: seq<Action>): Result<(seq<Action>, seq<byte>), DecodeError>
    decreases count
  {
    if count == 0 then Ok((read, bytes)) else
    var action :- ReadAction(bytes);
    ReadActions(action.1, count - 1, read + [action.0])
  }

  function ReadPlan(bytes: seq<byte>): Result<(Plan, seq<byte>), DecodeError> {
    var id :- ReadString(bytes);
    var generated :- ReadUint(id.1, 8);
    var expires :- ReadUint(generated.1, 8);
    EightBytes(id.1);
    EightBytes(generated.1);
    var count :- ReadUint(expires.1, 4);
    if count.0 > MAX_ACTIONS then Err(Malformed) else
    var actions :- ReadActions(count.1, count.0, []);
    Ok((Plan(id.0, generated.0, expires.0, actions.0), actions.1))
  }

  function ReadTransition(bytes: seq<byte>): Result<((string, PlanState), seq<byte>), DecodeError> {
    var id :- ReadString(bytes);
    var code :- ReadUint(id.1, 1);
    var state :- DecodeState(code.0);
    Ok(((id.0, state), code.1))
  }

  function Decode(payload: seq<byte>, acceptable: Action -> bool): Result<PlanEvent, DecodeError> {
    if |payload| > MAX_PLAN_BYTES || !(PLAN_EVENT_MAGIC <= payload) then Err(Malformed) else
    var kind :- ReadUint(payload[|PLAN_EVENT_MAGIC|..], 1);
    match kind.0
    case 1 =>
      var plan :- ReadPlan(kind.1);
      if plan.1 != [] then Err(Malformed) else
      (match Validate(plan.0, plan.0.generatedAt, acceptable)
       case Err(refusal) => Err(Schema(refusal))
       case Ok(_) => Ok(Submitted(plan.0)))
    case 2 =>
      var transition :- ReadTransition(kind.1);
      if transition.1 != [] then Err(Malformed) else Ok(Transition(transition.0.0, transition.0.1))
    case _ => Err(Malformed)
  }

  lemma EightBytes(bytes: seq<byte>)
    ensures ReadUint(bytes, 8).Ok? ==> ReadUint(bytes, 8).value.0 <= U64_MAX
  {
    if |bytes| >= 8 {
      UintIsRead(bytes, 8);
      Widths();
    }
  }

  // --- the encoder, appending to an output buffer ---

  method AppendString(output: seq<byte>, s: string) returns (r: seq<byte>)
    ensures r == output + PushString(s)
  {
    var bytes := Utf8(s);
    r := output + ToLE(Clamp(|bytes|, U32_MAX), 4);
    r := r + bytes;
  }

  method AppendReasons(output: seq<byte>, reasons: seq<string>) returns (r: seq<byte>)
    ensures r == output + PushReasons(reasons)
  {
    hide PushString;
    r := output;
    assert reasons[0..] == reasons;
    for i := 0 to |reasons|
      invariant r + PushReasons(reasons[i..]) == output + PushReasons(reasons)
    {
      assert reasons[i..][0] == reasons[i] && reasons[i..][1..] == reasons[i + 1..];
      assert r + (PushString(reasons[i]) + PushReasons(reasons[i + 1..]))
        == r + PushString(reasons[i]) + PushReasons(reasons[i + 1..]);
      r := AppendString(r, reasons[i]);
    }
    assert r + [] == r;
  }

  method AppendAction(output: seq<byte>, action: Action) returns (r: seq<byte>)
    ensures r == output + PushAction(action)
  {
    hide PushString, PushReasons, ToLE, ActionCode, Clamp;
    r := output + ToLE(ActionCode(action.actionType), 1);
    if action.proposalId.Some? {
      r := r + ToLE(1, 1);
      r := AppendString(r, action.proposalId.value);
    } else {
      r := r + ToLE(0, 1);
    }
    r := r + ToLE(if action.scale.Some? then 1 else 0, 1);
    r := r + ToLE(if action.scale.Some? then action.scale.value else 0, 8);
    r := r + ToLE(Clamp(|action.reasonCodes|, U16_MAX), 2);
    r := AppendReasons(r, action.reasonCodes);
  }

  method AppendActions(output: seq<byte>, actions: seq<Action>) returns (r: seq<byte>)
    ensures r == output + PushActions(actions)
  {
    hide PushAction;
    r := output;
    assert actions[0..] == actions;
    for i := 0 to |actions|
      invariant r + PushActions(actions[i..]) == output + PushActions(actions)
    {
      assert actions[i..][0] == actions[i] && actions[i..][1..] == actions[i + 1..];
      assert r + (PushAction(actions[i]) + PushActions(actions[i + 1..]))
        == r + PushAction(actions[i]) + PushActions(actions[i + 1..]);
      r := AppendAction(r, actions[i]);
    }
    assert r + [] == r;
  }

  method EncodePlanEvent(event: PlanEvent) returns (output: seq<byte>)
    ensures output == Encode(event)
  {
    hide PushString, PushActions, ToLE, StateCode, Clamp;
    output := PLAN_EVENT_MAGIC;
    match event
    case Submitted(plan) =>
      output := output + ToLE(1, 1);
      output := AppendString(output, plan.planId);
      output := output + ToLE(plan.generatedAt, 8);
      output := output + ToLE(plan.expiresAt, 8);
      output := output + ToLE(Clamp(|plan.actions|, U32_MAX), 4);
      output := AppendActions(output, plan.actions);
    case Transition(planId, state) =>
      output := output + ToLE(2, 1);
      output := AppendString(output, planId);
      output := output + ToLE(StateCode(state), 1);
  }

  // --- the decoder, moving a cursor ---

  method NextUint(cursor: Cursor, width: nat) returns (r: Result<nat, DecodeError>)
    requires cursor.Valid()
    modifies cursor
    ensures cursor.Valid()
    ensures var spec := ReadUint(old(cursor.Rest()), width);
            if spec.Ok? then r == Ok(spec.value.0) && cursor.Rest() == spec.value.1 else r == Err(spec.error)
  {
    hide TakeUint;
    var taken := cursor.Uint(width);
    return Lift(taken);
  }

  method NextString(cursor: Cursor) returns (r: Result<string, DecodeError>)
    requires cursor.Valid()
    modifies cursor
    ensures cursor.Valid()
    ensures var spec := ReadString(old(cursor.Rest()));
            if spec.Ok? then r == Ok(spec.value.0) && cursor.Rest() == spec.value.1 else r == Err(spec.error)
  {
    hide TakeString;
    var taken := cursor.Str(4, MAX_STRING_BYTES);
    return Lift(taken);
  }

  method NextOption(cursor: Cursor) returns (r: Result<Option<string>, DecodeError>)
    requires cursor.Valid()
    modifies cursor
    ensures cursor.Valid()
    ensures var spec := ReadOption(old(cursor.Rest()));
            if spec.Ok? then r == Ok(spec.value.0) && cursor.Rest() == spec.value.1 else r == Err(spec.error)
  {
    hide ReadUint, ReadString;
    var marker :- NextUint(cursor, 1);
    if marker == 0 {
      return Ok(None);
    }
    if marker != 1 {
      return Err(Malformed);
    }
    var value :- NextString(cursor);
    return Ok(Some(value));
  }

  method NextScale(cursor: Cursor) returns (r: Result<Option<u64>, DecodeError>)
    requires cursor.Valid()
    modifies cursor
    ensures cursor.Valid()
    ensures var spec := ReadScale(old(cursor.Rest()));
            if spec.Ok? then r == Ok(spec.value.0) && cursor.Rest() == spec.value.1 else r == Err(spec.error)
  {
    hide ReadUint;
    var marker :- NextUint(cursor, 1);
    if marker > 1 {
      return Err(Malformed);
    }
    EightBytes(cursor.Rest());
    var bits :- NextUint(cursor, 8);
    return Ok(if marker == 1 then Some(bits) else None);
  }

  method NextAction(cursor: Cursor) returns (r: Result<Action, DecodeError>)
    requires cursor.Valid()
    modifies cursor
    ensures cursor.Valid()
    ensures var spec := ReadAction(old(cursor.Rest()));
            if spec.Ok? then r == Ok(spec.value.0) && cursor.Rest() == spec.value.1 else r == Err(spec.error)
  {
    hide ReadUint, ReadString, ReadOption, ReadScale, DecodeAction, ReadReasons;
    var code :- NextUint(cursor, 1);
    var actionType :- DecodeAction(code);
    var proposalId :- NextOption(cursor);
    var scale :- NextScale(cursor);
    var count :- NextUint(cursor, 2);
    if count > MAX_REASONS {
      return Err(Malformed);
    }
    var reasons :- NextReasons(cursor, count);
    return Ok(Action(actionType, proposalId, scale, reasons));
  }

  method NextReasons(cursor: Cursor, count: nat) returns (r: Result<seq<string>, DecodeError>)
    requires cursor.Valid()
    modifies cursor
    ensures cursor.Valid()
    ensures var spec := ReadReasons(old(cursor.Rest()), count, []);
            if spec.Ok? then r == Ok(spec.value.0) && cursor.Rest() == spec.value.1 else r == Err(spec.error)
  {
    hide ReadString;
    var reasons: seq<string> := [];
    for i := 0 to count
      invariant cursor.Valid()
      invariant ReadReasons(old(cursor.Rest()), count, []) == ReadReasons(cursor.Rest(), count - i, reasons)
    {
      var reason :- NextString(cursor);
      reasons := reasons + [reason];
    }
    return Ok(reasons);
  }

  method NextPlan(cursor: Cursor) returns (r: Result<Plan, DecodeError>)
    requires cursor.Valid()
    modifies cursor
    ensures cursor.Valid()
    ensures var spec := ReadPlan(old(cursor.Rest()));
            if spec.Ok? then r == Ok(spec.value.0) && cursor.Rest() == spec.value.1 else r == Err(spec.error)
  {
    hide ReadUint, ReadString, ReadActions;
    var planId :- NextString(cursor);
    EightBytes(cursor.Rest());
    var generatedAt :- NextUint(cursor, 8);
    EightBytes(cursor.Rest());
    var expiresAt :- NextUint(cursor, 8);
    var count :- NextUint(cursor, 4);
    if count > MAX_ACTIONS {
      return Err(Malformed);
    }
    var actions :- NextActions(cursor, count);
    return Ok(Plan(planId, generatedAt, expiresAt, actions));
  }

  method NextActions(cursor: Cursor, count: nat) returns (r: Result<seq<Action>, DecodeError>)
    requires cursor.Valid()
    modifies cursor
    ensures cursor.Valid()
    ensures var spec := ReadActions(old(cursor.Rest()), count, []);
            if spec.Ok? then r == Ok(spec.value.0) && cursor.Rest() == spec.value.1 else r == Err(spec.error)
  {
    hide ReadAction;
    var actions: seq<Action> := [];
    for i := 0 to count
      invariant cursor.Valid()
      invariant ReadActions(old(cursor.Rest()), count, []) == ReadActions(cursor.Rest(), count - i, actions)
    {
      var action :- NextAction(cursor);
      actions := actions + [action];
    }
    return Ok(actions);
  }

  method DecodePlanEvent(payload: seq<byte>, acceptable: Action -> bool) returns (r: Result<PlanEvent, DecodeError>)
    ensures r == Decode(payload, acceptable)
  {
    hide ReadUint, ReadString, ReadPlan, DecodeState, Validate;
    if |payload| > MAX_PLAN_BYTES || !(PLAN_EVENT_MAGIC <= payload) {
      return Err(Malformed);
    }
    var cursor := new Cursor(payload, |PLAN_EVENT_MAGIC|);
    var kind :- NextUint(cursor, 1);
    match kind {
      case 1 =>
        var plan :- NextPlan(cursor);
        if cursor.at != |payload| {
          return Err(Malformed);
        }
        var valid := ValidatePlan(plan, plan.generatedAt, acceptable);
        return if valid.Err? then Err(Schema(valid.error)) else Ok(Submitted(plan));
      case 2 =>
        var planId :- NextString(cursor);
        var code :- NextUint(cursor, 1);
        var state :- DecodeState(code);
        if cursor.at != |payload| {
          return Err(Malformed);
        }
        return Ok(Transition(planId, state));
      case _ =>
        return Err(Malformed);
    }
  }

  // --- what is written reads back, or is refused for its size ---

  predicate StringFits(s: string) { Size(s) <= 1_048_576 }

  predicate StringsFit(strings: seq<string>) { forall i | 0 <= i < |strings| :: StringFits(strings[i]) }

  predicate ActionFits(action: Action) {
    && (action.proposalId.Some? ==> StringFits(action.proposalId.value))
    && |action.reasonCodes| <= 256
    && StringsFit(action.reasonCodes)
  }

  predicate ActionsFit(actions: seq<Action>) { forall i | 0 <= i < |actions| :: ActionFits(actions[i]) }

  predicate PlanFits(plan: Plan) {
    && StringFits(plan.planId)
    && |plan.actions| <= 4_096
    && ActionsFit(plan.actions)
  }

  predicate EventFits(event: PlanEvent) {
    && |Encode(event)| <= 4_194_304
    && match event
       case Submitted(plan) => PlanFits(plan)
       case Transition(planId, _) => StringFits(planId)
  }

  predicate EventsFit(events: seq<PlanEvent>) { forall i | 0 <= i < |events| :: EventFits(events[i]) }

  lemma StringsFitSplit(strings: seq<string>)
    requires strings != []
    ensures StringsFit(strings) <==> StringFits(strings[0]) && StringsFit(strings[1..])
  {
    hide StringFits;
    assert forall i | 0 < i < |strings| :: strings[i] == strings[1..][i - 1];
  }

  lemma ActionsFitSplit(actions: seq<Action>)
    requires actions != []
    ensures ActionsFit(actions) <==> ActionFits(actions[0]) && ActionsFit(actions[1..])
  {
    hide ActionFits;
    assert forall i | 0 < i < |actions| :: actions[i] == actions[1..][i - 1];
  }

  lemma EventsFitSplit(events: seq<PlanEvent>)
    requires events != []
    ensures EventsFit(events) <==> EventsFit(events[..|events| - 1]) && EventFits(events[|events| - 1])
  {
    hide EventFits;
    assert forall i | 0 <= i < |events| - 1 :: events[i] == events[..|events| - 1][i];
  }

  lemma NothingToFit()
    ensures StringsFit([]) && ActionsFit([]) && EventsFit([])
  {
  }

  lemma UintBack(n: nat, width: nat, rest: seq<byte>)
    requires width in {1, 2, 4, 8} && n < Pow256(width)
    ensures ReadUint(ToLE(n, width) + rest, width) == Ok((n, rest))
  {
    UintReads(n, width, rest);
  }

  lemma StringBack(s: string, rest: seq<byte>)
    ensures ReadString(PushString(s) + rest) == if StringFits(s) then Ok((s, rest)) else Err(Malformed)
  {
    hide ToLE, Utf8, FromUtf8, TakeUint;
    Widths();
    var n := Clamp(Size(s), U32_MAX);
    assert PushString(s) + rest == ToLE(n, 4) + (Utf8(s) + rest);
    UintReads(n, 4, Utf8(s) + rest);
    if StringFits(s) {
      FromToUtf8(s);
    }
  }

  lemma OptionBack(s: Option<string>, rest: seq<byte>)
    ensures ReadOption(PushOption(s) + rest) == if s.Some? && !StringFits(s.value) then Err(Malformed)
              else Ok((s, rest))
  {
    hide ToLE, PushString, ReadString, StringFits, ReadUint;
    Widths();
    match s
    case None => UintBack(0, 1, rest);
    case Some(value) =>
      assert PushOption(s) + rest == ToLE(1, 1) + (PushString(value) + rest);
      UintBack(1, 1, PushString(value) + rest);
      StringBack(value, rest);
  }

  lemma ScaleBack(scale: Option<u64>, rest: seq<byte>)
    ensures ReadScale(PushScale(scale) + rest) == Ok((scale, rest))
  {
    hide ToLE, ReadUint;
    Widths();
    var marker, bits := if scale.Some? then 1 else 0, if scale.Some? then scale.value else 0;
    assert PushScale(scale) + rest == ToLE(marker, 1) + (ToLE(bits, 8) + rest);
    UintBack(marker, 1, ToLE(bits, 8) + rest);
    UintBack(bits, 8, rest);
  }

  lemma {:induction false} ReasonsBack(reasons: seq<string>, rest: seq<byte>, read: seq<string>)
    ensures ReadReasons(PushReasons(reasons) + rest, |reasons|, read) ==
              if StringsFit(reasons) then Ok((read + reasons, rest)) else Err(Malformed)
  {
    hide PushString, ReadString, StringFits, StringsFit;
    if reasons == [] {
      assert PushReasons(reasons) + rest == rest && read + reasons == read;
      assert StringsFit([]) by { NothingToFit(); }
    } else {
      var tail := reasons[1..];
      assert PushReasons(reasons) + rest == PushString(reasons[0]) + (PushReasons(tail) + rest);
      StringBack(reasons[0], PushReasons(tail) + rest);
      ReasonsBack(tail, rest, read + [reasons[0]]);
      assert read + [reasons[0]] + tail == read + reasons;
      StringsFitSplit(reasons);
    }
  }

  lemma ActionCodeBack(t: ActionType)
    ensures DecodeAction(ActionCode(t)) == Ok(t)
  {
  }

  lemma ReasonsPartBack(reasons: seq<string>, rest: seq<byte>)
    ensures var count := ReadUint(ToLE(Clamp(|reasons|, U16_MAX), 2) + (PushReasons(reasons) + rest), 2);
            && count == Ok((Clamp(|reasons|, U16_MAX), PushReasons(reasons) + rest))
            && (count.value.0 <= MAX_REASONS ==> count.value.0 == |reasons|)
            && (count.value.0 > MAX_REASONS ==> |reasons| > MAX_REASONS)
  {
    hide ToLE;
    Widths();
    UintBack(Clamp(|reasons|, U16_MAX), 2, PushReasons(reasons) + rest);
  }

  lemma ActionBack(action: Action, rest: seq<byte>)
    ensures ReadAction(PushAction(action) + rest) == if ActionFits(action) then Ok((action, rest)) else Err(Malformed)
  {
    hide ToLE, ReadUint, PushOption, ReadOption, PushScale, ReadScale, PushReasons, ReadReasons, StringFits,
         StringsFit, DecodeAction, ActionCode, Clamp;
    Widths();
    var reasons := action.reasonCodes;
    var last := ToLE(Clamp(|reasons|, U16_MAX), 2) + (PushReasons(reasons) + rest);
    var third := PushScale(action.scale) + last;
    var second := PushOption(action.proposalId) + third;
    ActionPieces(action, rest);
    UintBack(ActionCode(action.actionType), 1, second);
    ActionCodeBack(action.actionType);
    OptionBack(action.proposalId, third);
    ScaleBack(action.scale, last);
    ReasonsPartBack(reasons, rest);
    ReasonsBack(reasons, rest, []);
    assert [] + reasons == reasons;
  }

  lemma ActionPieces(action: Action, rest: seq<byte>)
    ensures PushAction(action) + rest ==
              ToLE(ActionCode(action.actionType), 1) + (PushOption(action.proposalId) + (PushScale(action.scale)
                + (ToLE(Clamp(|action.reasonCodes|, U16_MAX), 2) + (PushReasons(action.reasonCodes) + rest))))
  {
    hide ToLE, PushOption, PushScale, PushReasons, Clamp, ActionCode;
  }

  lemma {:induction false} ActionsBack(actions: seq<Action>, rest: seq<byte>, read: seq<Action>)
    ensures ReadActions(PushActions(actions) + rest, |actions|, read) ==
              if ActionsFit(actions) then Ok((read + actions, rest)) else Err(Malformed)
  {
    hide PushAction, ReadAction, ActionFits, ActionsFit;
    if actions == [] {
      assert PushActions(actions) + rest == rest && read + actions == read;
      assert ActionsFit([]) by { NothingToFit(); }
    } else {
      var tail := actions[1..];
      assert PushActions(actions) + rest == PushAction(actions[0]) + (PushActions(tail) + rest);
      ActionBack(actions[0], PushActions(tail) + rest);
      ActionsBack(tail, rest, read + [actions[0]]);
      assert read + [actions[0]] + tail == read + actions;
      ActionsFitSplit(actions);
    }
  }

  lemma PlanBack(plan: Plan)
    ensures ReadPlan(PushPlan(plan)) == if PlanFits(plan) then Ok((plan, [])) else Err(Malformed)
  {
    hide ToLE, ReadUint, PushString, ReadString, PushActions, ReadActions, StringFits, ActionsFit;
    Widths();
    var count := Clamp(|plan.actions|, U32_MAX);
    var fourth := ToLE(count, 4) + PushActions(plan.actions);
    var third := ToLE(plan.expiresAt, 8) + fourth;
    var second := ToLE(plan.generatedAt, 8) + third;
    StringBack(plan.planId, second);
    UintBack(plan.generatedAt, 8, third);
    UintBack(plan.expiresAt, 8, fourth);
    UintBack(count, 4, PushActions(plan.actions));
    ActionsBack(plan.actions, [], []);
    assert PushActions(plan.actions) + [] == PushActions(plan.actions) && [] + plan.actions == plan.actions;
  }

  lemma TransitionBack(planId: string, state: PlanState)
    ensures ReadTransition(PushString(planId) + ToLE(StateCode(state), 1)) ==
              if StringFits(planId) then Ok(((planId, state), [])) else Err(Malformed)
  {
    hide ToLE, ReadUint, PushString, ReadString, StringFits;
    Widths();
    StringBack(planId, ToLE(StateCode(state), 1));
    UintBack(StateCode(state), 1, []);
    assert ToLE(StateCode(state), 1) + [] == ToLE(StateCode(state), 1);
  }

  // An event reads back as itself if it is within the bounds and, for a plan, valid when generated;
  // if not, it is refused.
  lemma DecodeEncode(event: PlanEvent, acceptable: Action -> bool)
    ensures Decode(Encode(event), acceptable) ==
              if !EventFits(event) then Err(Malformed)
              else if event.Submitted? && Validate(event.plan, event.plan.generatedAt, acceptable).Err? then
                Err(Schema(Validate(event.plan, event.plan.generatedAt, acceptable).error))
              else Ok(event)
  {
    hide ToLE, ReadUint, PushString, PushPlan, ReadPlan, ReadTransition, PlanFits, StringFits, Validate;
    Widths();
    var payload := Encode(event);
    match event
    case Submitted(plan) =>
      assert payload[|PLAN_EVENT_MAGIC|..] == ToLE(1, 1) + PushPlan(plan);
      UintBack(1, 1, PushPlan(plan));
      PlanBack(plan);
    case Transition(planId, state) =>
      var tail := PushString(planId) + ToLE(StateCode(state), 1);
      assert payload[|PLAN_EVENT_MAGIC|..] == ToLE(2, 1) + tail;
      UintBack(2, 1, tail);
      TransitionBack(planId, state);
  }

  // --- replaying the stored bytes ---

  function EncodeAll(events: seq<PlanEvent>): seq<seq<byte>> {
    if events == [] then [] else EncodeAll(events[..|events| - 1]) + [Encode(events[|events| - 1])]
  }

  datatype ReplayError = Unreadable(error: DecodeError) | Refused(reason: PlanError)

  function ReplayBytes(stored: seq<seq<byte>>, acceptable: Action -> bool): Result<Records, ReplayError> {
    if stored == [] then Ok(map[]) else
    var before :- ReplayBytes(stored[..|stored| - 1], acceptable);
    match Decode(stored[|stored| - 1], acceptable)
    case Err(error) => Err(Unreadable(error))
    case Ok(event) =>
      match Restore(before, event, acceptable)
      case Err(error) => Err(Refused(error))
      case Ok(after) => Ok(after)
  }

  lemma {:induction false} BytesReplay(events: seq<PlanEvent>, acceptable: Action -> bool)
    ensures var replayed := Replay(events, acceptable);
            if EventsFit(events) && replayed.Ok? then ReplayBytes(EncodeAll(events), acceptable) == Ok(replayed.value)
            else ReplayBytes(EncodeAll(events), acceptable).Err?
  {
    hide Encode, Decode, Restore, EventFits, EventsFit, Validate;
    if events == [] {
      NothingToFit();
    } else {
      var n := |events| - 1;
      BytesReplay(events[..n], acceptable);
      DecodeEncode(events[n], acceptable);
      assert EncodeAll(events)[..|EncodeAll(events)| - 1] == EncodeAll(events[..n]);
      EventsFitSplit(events);
      if Replay(events[..n], acceptable).Ok? {
        RestoreValidates(Replay(events[..n], acceptable).value, events[n], acceptable);
      }
    }
  }

  lemma RestoreValidates(records: Records, event: PlanEvent, acceptable: Action -> bool)
    ensures Restore(records, event, acceptable).Ok? && event.Submitted? ==>
              Validate(event.plan, event.plan.generatedAt, acceptable).Ok?
  {
  }

  // Storing a run's events and replaying them rebuilds its records exactly when every event is within
  // the codec's bounds and every call was replayable; otherwise the replay stops with an error.
  lemma StoredReplayExactly(ops: seq<Op>, acceptable: Action -> bool)
    ensures var run := Run(ops, acceptable);
            var stored := ReplayBytes(EncodeAll(run.1), acceptable);
            if AllReplayable(ops, acceptable) && EventsFit(run.1) then stored == Ok(run.0)
            else stored.Err?
  {
    hide Run, AllReplayable, Replay, ReplayBytes, EncodeAll, EventsFit;
    ReplayExactly(ops, acceptable);
    BytesReplay(Run(ops, acceptable).1, acceptable);
  }
}
