/** Send admission in crates/ibkr-adapter: two critical sections around a transport call,
  and every interleaving of them. */
module IbkrGateway {
  import opened Wrappers
  import opened Bytes
  import opened BrokerApi
  import Text

  datatype SessionState = Disconnected | Connecting | Ready | Degraded

  datatype Capabilities = Capabilities(market: bool, limitOrders: bool)

  datatype SendError =
    | InvalidClientId | QuantityNotPositive | MarketUnsupported | LimitUnsupported
    | LimitPriceNotPositive | MarketWithPrice
    | NotReady(session: SessionState) | ReusedId | AlreadyInFlight

  datatype Admission = Refused(error: SendError) | AlreadyAccepted | Admitted

  const MAX_CALLBACK_QUEUE: nat := 8_192

  // What the gateway's lock protects.
  datatype State = State(session: SessionState, accepted: map<string, OrderIntent>, pending: set<string>,
    callbacks: seq<BrokerEvent>)

  const NEW := State(Disconnected, map[], {}, [])

  // The checks before the lock is taken.
  function CheckIntent(intent: OrderIntent, capabilities: Capabilities): Result<(), SendError> {
    if Text.Blank(intent.clientOrderId) || Text.Size(intent.clientOrderId) > 256 then Err(InvalidClientId)
    else if intent.quantityTicks <= 0 then Err(QuantityNotPositive)
    else
      match intent.orderType
      case Market =>
        if !capabilities.market then Err(MarketUnsupported)
          else if intent.limitPriceTicks.Some? then Err(MarketWithPrice) else Ok(())
      case Limit =>
        if !capabilities.limitOrders then Err(LimitUnsupported)
        else if intent.limitPriceTicks.None? || intent.limitPriceTicks.value <= 0 then Err(LimitPriceNotPositive)
        else Ok(())
  }

  // The first critical section.
  function Admit(s: State, intent: OrderIntent, capabilities: Capabilities): (State, Admission) {
    var checked := CheckIntent(intent, capabilities);
    if checked.Err? then (s, Refused(checked.error))
    else if s.session != Ready then (s, Refused(NotReady(s.session)))
    else if intent.clientOrderId in s.accepted then
      (s, if s.accepted[intent.clientOrderId] == intent then AlreadyAccepted else Refused(ReusedId))
    else if intent.clientOrderId in s.pending then (s, Refused(AlreadyInFlight))
    else (s.(pending := s.pending + {intent.clientOrderId}), Admitted)
  }

  // The second one: a failed call is ambiguous, so the session waits for reconciliation.
  function Complete(s: State, intent: OrderIntent, success: bool): State {
    var open := s.(pending := s.pending - {intent.clientOrderId});
    if success then open.(accepted := s.accepted[intent.clientOrderId := intent]) else open.(session := Degraded)
  }

  function CallbackOutcome(s: State, event: BrokerEvent): (State, Option<bool>) {
    if Text.Blank(event.clientOrderId) then (s, None)
    else if event in s.callbacks then (s, Some(false))
    else if |s.callbacks| >= MAX_CALLBACK_QUEUE then (s, None)
    else (s.(callbacks := s.callbacks + [event]), Some(true))
  }

  class Gateway {
    var session: SessionState
    var accepted: map<string, OrderIntent>
    var pending: set<string>
    var callbacks: seq<BrokerEvent>
    const capabilities: Capabilities

    ghost function Current(): State
      reads this
    {
      State(session, accepted, pending, callbacks)
    }

    constructor (capabilities: Capabilities)
      ensures Current() == NEW && this.capabilities == capabilities
    {
      session, accepted, pending, callbacks := Disconnected, map[], {}, [];
      this.capabilities := capabilities;
    }

    // Send up to the point where the lock is given back; only Admitted goes on to the transport.
    method BeginSend(intent: OrderIntent) returns (r: Admission)
      modifies this`pending
      ensures (Current(), r) == Admit(old(Current()), intent, capabilities)
    {
      hide Text.Blank, Text.Size;
      var checked := CheckIntent(intent, capabilities);
      if checked.Err? {
        return Refused(checked.error);
      }
      if session != Ready {
        return Refused(NotReady(session));
      }
      if intent.clientOrderId in accepted {
        return if accepted[intent.clientOrderId] == intent then AlreadyAccepted else Refused(ReusedId);
      }
      if intent.clientOrderId in pending {
        return Refused(AlreadyInFlight);
      }
      pending := pending + {intent.clientOrderId};
      return Admitted;
    }

    // Send from the transport's answer on.
    method EndSend(intent: OrderIntent, success: bool)
      modifies this
      ensures Current() == Complete(old(Current()), intent, success)
    {
      pending := pending - {intent.clientOrderId};
      if !success {
        session := Degraded;
        return;
      }
      accepted := accepted[intent.clientOrderId := intent];
    }

    method BeginConnect() returns (ok: bool)
      modifies this`session
      ensures ok == (old(session) != Ready) && session == if ok then Connecting else Ready
    {
      if session == Ready {
        return false;
      }
      session := Connecting;
      return true;
    }

    method ConnectReady()
      modifies this`session
      ensures session == Ready
    {
      session := Ready;
    }

    method MarkDegraded()
      modifies this`session
      ensures session == Degraded
    {
      session := Degraded;
    }

    method Disconnect()
      modifies this`session
      ensures session == Disconnected
    {
      session := Disconnected;
    }

    method OnCallback(event: BrokerEvent) returns (r: Option<bool>)
      modifies this`callbacks
      ensures (Current(), r) == CallbackOutcome(old(Current()), event)
    {
      hide Text.Blank;
      if Text.Blank(event.clientOrderId) {
        return None;
      }
      if event in callbacks {
        return Some(false);
      }
      if |callbacks| >= MAX_CALLBACK_QUEUE {
        return None;
      }
      callbacks := callbacks + [event];
      return Some(true);
    }

    method DrainCallbacks() returns (drained: seq<BrokerEvent>)
      modifies this`callbacks
      ensures drained == old(callbacks) && callbacks == []
    {
      drained := callbacks;
      callbacks := [];
    }
  }

  // --- interleavings ---

  // Where one call of send has got to.
  datatype Phase = Waiting | Flying | Answered(success: bool)

  datatype Call = Call(intent: OrderIntent, phase: Phase)

  // What the broker's side of the transport sees.
  datatype Signal = Started(id: string) | Ended(id: string, success: bool)

  datatype World = World(state: State, calls: map<nat, Call>, next: nat, log: seq<Signal>)

  const START := World(NEW, map[], 0, [])

  datatype Step =
    | Send(intent: OrderIntent) | Transmit(call: nat) | Answer(call: nat, success: bool) | Finish(call: nat)
    | Connect | Authenticated | Degrade | Drop | Callback(event: BrokerEvent) | Drain

  // A step that is not possible changes nothing.
  function Next(w: World, step: Step, capabilities: Capabilities): World {
    match step
    case Send(intent) =>
      var r := Admit(w.state, intent, capabilities);
      if r.1 != Admitted then w else World(r.0, w.calls[w.next := Call(intent, Waiting)], w.next + 1, w.log)
    case Transmit(call) =>
      if call in w.calls && w.calls[call].phase == Waiting then
        w.(calls := w.calls[call := w.calls[call].(phase := Flying)],
          log := w.log + [Started(w.calls[call].intent.clientOrderId)])
      else w
    case Answer(call, success) =>
      if call in w.calls && w.calls[call].phase == Flying then
        w.(calls := w.calls[call := w.calls[call].(phase := Answered(success))],
           log := w.log + [Ended(w.calls[call].intent.clientOrderId, success)])
      else w
    case Finish(call) =>
      if call in w.calls && w.calls[call].phase.Answered? then
        w.(state := Complete(w.state, w.calls[call].intent, w.calls[call].phase.success), calls := w.calls - {call})
      else w
    case Connect => if w.state.session == Ready then w else w.(state := w.state.(session := Connecting))
    case Authenticated => w.(state := w.state.(session := Ready))
    case Degrade => w.(state := w.state.(session := Degraded))
    case Drop => w.(state := w.state.(session := Disconnected))
    case Callback(event) => w.(state := CallbackOutcome(w.state, event).0)
    case Drain => w.(state := w.state.(callbacks := []))
  }

  function Run(w: World, steps: seq<Step>, capabilities: Capabilities): World {
    if steps == [] then w else Next(Run(w, steps[..|steps| - 1], capabilities), steps[|steps| - 1], capabilities)
  }

  // A call for this order is in flight.
  predicate Open(log: seq<Signal>, id: string) {
    if log == [] then false
    else if log[|log| - 1].id == id then log[|log| - 1].Started?
    else Open(log[..|log| - 1], id)
  }

  predicate Succeeded(log: seq<Signal>, id: string) { Ended(id, true) in log }

  // The broker never sees two calls for one order at a time, and none after one that succeeded.
  predicate Orderly(log: seq<Signal>) {
    forall k | 0 <= k < |log| ::
      && (log[k].Started? ==> !Open(log[..k], log[k].id) && !Succeeded(log[..k], log[k].id))
      && (log[k].Ended? ==> Open(log[..k], log[k].id))
  }

  ghost predicate HasCall(w: World, id: string, phase: Phase) {
    exists call :: call in w.calls && w.calls[call] == Call(w.calls[call].intent, phase)
      && w.calls[call].intent.clientOrderId == id
  }

  // One call at most works on an order, and only while the order is pending.
  ghost predicate Slots(w: World) {
    && (forall call | call in w.calls :: call < w.next && w.calls[call].intent.clientOrderId in w.state.pending)
    && (forall a, b | a in w.calls && b in w.calls
      && a != b :: w.calls[a].intent.clientOrderId != w.calls[b].intent.clientOrderId)
    && (forall id | id in w.state.pending :: id !in w.state.accepted)
  }

  // The log and the calls tell the same story.
  ghost predicate Told(w: World) {
    && Orderly(w.log)
    && (forall id :: Open(w.log, id) <==> HasCall(w, id, Flying))
    && (forall id :: Succeeded(w.log, id) <==> id in w.state.accepted || HasCall(w, id, Answered(true)))
  }

  lemma OpenSnoc(log: seq<Signal>, signal: Signal, id: string)
    ensures Open(log + [signal], id) <==> if signal.id == id then signal.Started? else Open(log, id)
  {
    assert (log + [signal])[..|log|] == log;
  }

  lemma OrderlySnoc(log: seq<Signal>, signal: Signal)
    requires Orderly(log)
    requires signal.Started? ==> !Open(log, signal.id) && !Succeeded(log, signal.id)
    requires signal.Ended? ==> Open(log, signal.id)
    ensures Orderly(log + [signal])
  {
    hide Open, Succeeded;
    var more := log + [signal];
    forall k | 0 <= k < |more|
      ensures more[k].Started? ==> !Open(more[..k], more[k].id) && !Succeeded(more[..k], more[k].id)
      ensures more[k].Ended? ==> Open(more[..k], more[k].id)
    {
      assert more[..k] == log[..k];
      assert k == |log| ==> log[..k] == log;
    }
  }

  lemma SlotsStay(w: World, step: Step, capabilities: Capabilities)
    requires Slots(w)
    ensures Slots(Next(w, step, capabilities))
  {
    hide CheckIntent, CallbackOutcome;
    CallbackKeeps(w.state, step);
  }

  lemma CallbackKeeps(s: State, step: Step)
    ensures step.Callback? ==> var after := CallbackOutcome(s, step.event).0; after == s.(callbacks := after.callbacks)
  {
  }

  lemma OtherCalls(w: World, call: nat, now: Call, id: string, phase: Phase)
    requires Slots(w) && call in w.calls && w.calls[call].intent == now.intent
    ensures HasCall(w.(calls := w.calls[call := now]), id, phase) <==>
              if id == now.intent.clientOrderId then phase == now.phase else HasCall(w, id, phase)
    ensures HasCall(w, now.intent.clientOrderId, phase) <==> phase == w.calls[call].phase
  {
    var after := w.(calls := w.calls[call := now]);
    assert after.calls[call] == now;
    if HasCall(w, id, phase) && id != now.intent.clientOrderId {
      var c :| c in w.calls && w.calls[c] == Call(w.calls[c].intent, phase) && w.calls[c].intent.clientOrderId == id;
      assert after.calls[c] == w.calls[c];
    }
    if HasCall(after, id, phase) && id != now.intent.clientOrderId {
      var c :| c in after.calls && after.calls[c] == Call(after.calls[c].intent, phase)
        && after.calls[c].intent.clientOrderId == id;
      assert w.calls[c] == after.calls[c];
    }
  }

  lemma FinishedCalls(w: World, call: nat, after: World, id: string, phase: Phase)
    requires Slots(w) && call in w.calls && after.calls == w.calls - {call}
    ensures HasCall(after, id, phase) <==> id != w.calls[call].intent.clientOrderId && HasCall(w, id, phase)
  {
    if HasCall(w, id, phase) && id != w.calls[call].intent.clientOrderId {
      var c :| c in w.calls && w.calls[c] == Call(w.calls[c].intent, phase) && w.calls[c].intent.clientOrderId == id;
      assert c in after.calls && after.calls[c] == w.calls[c];
    }
    if HasCall(after, id, phase) {
      var c :| c in after.calls && after.calls[c] == Call(after.calls[c].intent, phase)
        && after.calls[c].intent.clientOrderId == id;
      assert c in w.calls && w.calls[c] == after.calls[c];
    }
  }

  lemma AdmittedCalls(w: World, intent: OrderIntent, after: World, id: string, phase: Phase)
    requires Slots(w) && phase != Waiting && after.calls == w.calls[w.next := Call(intent, Waiting)]
    ensures HasCall(after, id, phase) <==> HasCall(w, id, phase)
  {
    if HasCall(w, id, phase) {
      var c :| c in w.calls && w.calls[c] == Call(w.calls[c].intent, phase) && w.calls[c].intent.clientOrderId == id;
      assert after.calls[c] == w.calls[c];
    }
    if HasCall(after, id, phase) {
      var c :| c in after.calls && after.calls[c] == Call(after.calls[c].intent, phase)
        && after.calls[c].intent.clientOrderId == id;
      assert w.calls[c] == after.calls[c];
    }
  }

  lemma SendTells(w: World, intent: OrderIntent, capabilities: Capabilities)
    requires Slots(w) && Told(w)
    ensures Told(Next(w, Send(intent), capabilities))
  {
    hide Open, Succeeded, HasCall, Slots, CheckIntent, Orderly;
    var after := Next(w, Send(intent), capabilities);
    if after != w {
      forall id
        ensures HasCall(after, id, Flying) <==> HasCall(w, id, Flying)
        ensures HasCall(after, id, Answered(true)) <==> HasCall(w, id, Answered(true))
      {
        AdmittedCalls(w, intent, after, id, Flying);
        AdmittedCalls(w, intent, after, id, Answered(true));
      }
    }
  }

  lemma TransmitTells(w: World, call: nat, capabilities: Capabilities)
    requires Slots(w) && Told(w)
    ensures Told(Next(w, Transmit(call), capabilities))
  {
    hide Open, Succeeded, HasCall, Slots, Orderly;
    var after := Next(w, Transmit(call), capabilities);
    if after != w {
      var now := w.calls[call].(phase := Flying);
      var own := now.intent.clientOrderId;
      OwnCall(w, call);
      OtherCalls(w, call, now, own, Flying);
      OtherCalls(w, call, now, own, Answered(true));
      OrderlySnoc(w.log, Started(own));
      forall id
        ensures Open(after.log, id) <==> HasCall(after, id, Flying)
        ensures Succeeded(after.log, id) <==> id in after.state.accepted || HasCall(after, id, Answered(true))
      {
        OpenSnoc(w.log, Started(own), id);
        SucceededSnoc(w.log, Started(own), id);
        OtherCalls(w, call, now, id, Flying);
        OtherCalls(w, call, now, id, Answered(true));
        SameCalls(w.(calls := w.calls[call := now]), after, id);
      }
    }
  }

  lemma OwnCall(w: World, call: nat)
    requires Slots(w) && call in w.calls
    ensures w.calls[call].intent.clientOrderId !in w.state.accepted
  {
  }

  lemma SucceededSnoc(log: seq<Signal>, signal: Signal, id: string)
    ensures Succeeded(log + [signal], id) <==> Succeeded(log, id) || signal == Ended(id, true)
  {
  }

  lemma SameCalls(a: World, b: World, id: string)
    requires a.calls == b.calls
    ensures forall phase :: HasCall(a, id, phase) <==> HasCall(b, id, phase)
  {
  }

  lemma AnswerTells(w: World, call: nat, success: bool, capabilities: Capabilities)
    requires Slots(w) && Told(w)
    ensures Told(Next(w, Answer(call, success), capabilities))
  {
    hide Open, Succeeded, HasCall, Slots, Orderly;
    var after := Next(w, Answer(call, success), capabilities);
    if after != w {
      var now := w.calls[call].(phase := Answered(success));
      var own := now.intent.clientOrderId;
      OwnCall(w, call);
      OtherCalls(w, call, now, own, Flying);
      OtherCalls(w, call, now, own, Answered(true));
      OrderlySnoc(w.log, Ended(own, success));
      forall id
        ensures Open(after.log, id) <==> HasCall(after, id, Flying)
        ensures Succeeded(after.log, id) <==> id in after.state.accepted || HasCall(after, id, Answered(true))
      {
        OpenSnoc(w.log, Ended(own, success), id);
        SucceededSnoc(w.log, Ended(own, success), id);
        OtherCalls(w, call, now, id, Flying);
        OtherCalls(w, call, now, id, Answered(true));
        SameCalls(w.(calls := w.calls[call := now]), after, id);
      }
    }
  }

  lemma FinishTells(w: World, call: nat, capabilities: Capabilities)
    requires Slots(w) && Told(w)
    ensures Told(Next(w, Finish(call), capabilities))
  {
    hide Open, Succeeded, HasCall, Slots, Orderly;
    var after := Next(w, Finish(call), capabilities);
    if after != w {
      var own := w.calls[call].intent.clientOrderId;
      OwnCall(w, call);
      OtherCalls(w, call, w.calls[call], own, Flying);
      OtherCalls(w, call, w.calls[call], own, Answered(true));
      forall id
        ensures Open(after.log, id) <==> HasCall(after, id, Flying)
        ensures Succeeded(after.log, id) <==> id in after.state.accepted || HasCall(after, id, Answered(true))
      {
        FinishedCalls(w, call, after, id, Flying);
        FinishedCalls(w, call, after, id, Answered(true));
      }
    }
  }

  lemma StepTells(w: World, step: Step, capabilities: Capabilities)
    requires Slots(w) && Told(w)
    ensures Told(Next(w, step, capabilities))
  {
    hide Open, Succeeded, Slots, Orderly, HasCall, Admit, Complete, CallbackOutcome;
    var after := Next(w, step, capabilities);
    match step
    case Send(intent) => SendTells(w, intent, capabilities);
    case Transmit(call) => TransmitTells(w, call, capabilities);
    case Answer(call, success) => AnswerTells(w, call, success, capabilities);
    case Finish(call) => FinishTells(w, call, capabilities);
    case _ =>
      CallbackKeeps(w.state, step);
      forall id
        ensures HasCall(after, id, Flying) <==> HasCall(w, id, Flying)
        ensures HasCall(after, id, Answered(true)) <==> HasCall(w, id, Answered(true))
      {
        SameCalls(w, after, id);
      }
  }

  // In every interleaving: one call per order at a time, none after a success, and an order counts as
  // accepted exactly when a call for it succeeded.
  lemma {:induction false} RunsAreOrderly(steps: seq<Step>, capabilities: Capabilities)
    ensures var w := Run(START, steps, capabilities); Slots(w) && Told(w)
  {
    hide Next, Slots, Told;
    if steps == [] {
      NothingTold();
    } else {
      RunsAreOrderly(steps[..|steps| - 1], capabilities);
      var before := Run(START, steps[..|steps| - 1], capabilities);
      SlotsStay(before, steps[|steps| - 1], capabilities);
      StepTells(before, steps[|steps| - 1], capabilities);
    }
  }

  lemma NothingTold()
    ensures Slots(START) && Told(START)
  {
  }

  // The same, in terms of what the broker sees.
  lemma NoCallAfterSuccess(steps: seq<Step>, capabilities: Capabilities, i: nat, j: nat, id: string)
    requires var log := Run(START, steps, capabilities).log; i < j < |log| && log[i] == Ended(id, true)
    ensures Run(START, steps, capabilities).log[j] != Started(id)
  {
    hide Next, Run;
    RunsAreOrderly(steps, capabilities);
    var log := Run(START, steps, capabilities).log;
    assert log[..j][i] == Ended(id, true);
  }

  // An order the broker's declared capabilities cover, under a usable identity.
  predicate Sound(intent: OrderIntent, capabilities: Capabilities) {
    && !Text.Blank(intent.clientOrderId) && Text.Size(intent.clientOrderId) <= 256
    && intent.quantityTicks > 0
    && (if intent.limitPriceTicks.None? then intent.orderType == Market && capabilities.market
        else intent.orderType == Limit && capabilities.limitOrders && intent.limitPriceTicks.value > 0)
  }

  lemma CheckedIsSound(intent: OrderIntent, capabilities: Capabilities)
    ensures CheckIntent(intent, capabilities).Ok? <==> Sound(intent, capabilities)
  {
    hide Text.Blank, Text.Size;
  }

  ghost predicate AllSound(w: World, capabilities: Capabilities) {
    && (forall call | call in w.calls :: Sound(w.calls[call].intent, capabilities))
    && (forall id | id in w.state.accepted ::
          Sound(w.state.accepted[id], capabilities) && w.state.accepted[id].clientOrderId == id)
  }

  lemma StepIsSound(w: World, step: Step, capabilities: Capabilities)
    requires AllSound(w, capabilities)
    ensures AllSound(Next(w, step, capabilities), capabilities)
  {
    hide Sound, CheckIntent, CallbackOutcome, Text.Blank, Text.Size;
    match step
    case Send(intent) => CheckedIsSound(intent, capabilities);
    case Callback(_) => CallbackKeeps(w.state, step);
    case _ =>
  }

  // Only sound orders reach the transport, and each accepted one is remembered under its own identity.
  lemma {:induction false} OnlySoundOrdersLeave(steps: seq<Step>, capabilities: Capabilities)
    ensures AllSound(Run(START, steps, capabilities), capabilities)
  {
    hide Next, AllSound;
    if steps == [] {
      NothingIsUnsound(capabilities);
    } else {
      OnlySoundOrdersLeave(steps[..|steps| - 1], capabilities);
      StepIsSound(Run(START, steps[..|steps| - 1], capabilities), steps[|steps| - 1], capabilities);
    }
  }

  lemma NothingIsUnsound(capabilities: Capabilities)
    ensures AllSound(START, capabilities)
  {
  }

  // --- after a failure ---

  predicate Quiet(steps: seq<Step>) { forall i | 0 <= i < |steps| :: steps[i] != Authenticated }

  // While the session is not ready, no call is admitted; only calls admitted before may still reach
  // the transport, each once.
  lemma {:induction false} NothingIsAdmitted(w: World, steps: seq<Step>, capabilities: Capabilities)
    requires w.state.session != Ready && Quiet(steps)
    ensures var after := Run(w, steps, capabilities);
            && after.state.session != Ready && after.calls.Keys <= w.calls.Keys
            && (forall call | call in after.calls ::
                  after.calls[call].intent == w.calls[call].intent
                    && (after.calls[call].phase == Waiting ==> w.calls[call].phase == Waiting))
  {
    hide Admit;
    if steps != [] {
      var n := |steps| - 1;
      NothingIsAdmitted(w, steps[..n], capabilities);
      var before := Run(w, steps[..n], capabilities);
      NotReadyRefuses(before, steps[n], capabilities);
      CallbackKeeps(before.state, steps[n]);
    }
  }

  lemma NotReadyRefuses(w: World, step: Step, capabilities: Capabilities)
    requires w.state.session != Ready
    ensures step.Send? ==> Next(w, step, capabilities) == w
  {
  }

  // Finishing a failed call closes the session, and nothing but connect_ready opens it again.
  lemma FailureCloses(w: World, call: nat, steps: seq<Step>, capabilities: Capabilities)
    requires call in w.calls && w.calls[call].phase == Answered(false) && Quiet(steps)
    ensures var closed := Next(w, Finish(call), capabilities);
            var after := Run(closed, steps, capabilities);
            && closed.state.session == Degraded
            && after.state.session != Ready && after.calls.Keys <= w.calls.Keys - {call}
  {
    NothingIsAdmitted(Next(w, Finish(call), capabilities), steps, capabilities);
  }

  // A call for the order starts during these steps.
  predicate Starts(w: World, steps: seq<Step>, capabilities: Capabilities, id: string) {
    var log := Run(w, steps, capabilities).log; |w.log| <= |log| && Started(id) in log[|w.log|..]
  }

  ghost predicate SomeWaits(w: World) { exists call :: call in w.calls && w.calls[call].phase == Waiting }

  ghost predicate Admits(w: World, capabilities: Capabilities) {
    exists intent :: Admit(w.state, intent, capabilities).1 == Admitted
  }

  // From any point on, a call can start without connect_ready exactly when one was admitted already and
  // waits, or the session still admits some order.
  lemma StartsExactly(w: World, capabilities: Capabilities)
    ensures (exists steps, id :: Quiet(steps) && Starts(w, steps, capabilities, id))
              <==> SomeWaits(w) || Admits(w, capabilities)
  {
    hide Next, Admit;
    if SomeWaits(w) {
      var call :| call in w.calls && w.calls[call].phase == Waiting;
      TransmitStarts(w, call, capabilities);
      assert Quiet([Transmit(call)]) && Starts(w, [Transmit(call)], capabilities, w.calls[call].intent.clientOrderId);
    }
    if Admits(w, capabilities) {
      var intent :| Admit(w.state, intent, capabilities).1 == Admitted;
      SendStarts(w, intent, capabilities);
      assert Quiet([Send(intent), Transmit(w.next)]);
      assert Starts(w, [Send(intent), Transmit(w.next)], capabilities, intent.clientOrderId);
    }
    if steps, id :| Quiet(steps) && Starts(w, steps, capabilities, id) {
      if !SomeWaits(w) && !Admits(w, capabilities) {
        NothingStarts(w, steps, capabilities, id);
      }
    }
  }

  // With the session not ready, as after a failed call is finished, only the waiting calls are left.
  lemma StartsWhenClosed(w: World, capabilities: Capabilities)
    requires w.state.session != Ready
    ensures (exists steps, id :: Quiet(steps) && Starts(w, steps, capabilities, id)) <==> SomeWaits(w)
  {
    hide Quiet, Starts, SomeWaits;
    StartsExactly(w, capabilities);
  }

  lemma SendStarts(w: World, intent: OrderIntent, capabilities: Capabilities)
    requires Admit(w.state, intent, capabilities).1 == Admitted
    ensures Run(w, [Send(intent), Transmit(w.next)], capabilities).log == w.log + [Started(intent.clientOrderId)]
  {
    hide Admit;
    RunNothing(w, capabilities);
    RunSnoc(w, [], Send(intent), capabilities);
    RunSnoc(w, [Send(intent)], Transmit(w.next), capabilities);
    assert [] + [Send(intent)] == [Send(intent)];
    assert [Send(intent)] + [Transmit(w.next)] == [Send(intent), Transmit(w.next)];
  }

  lemma TransmitStarts(w: World, call: nat, capabilities: Capabilities)
    requires call in w.calls && w.calls[call].phase == Waiting
    ensures Run(w, [Transmit(call)], capabilities).log == w.log + [Started(w.calls[call].intent.clientOrderId)]
  {
    assert Run(w, [Transmit(call)], capabilities) == Next(Run(w, [], capabilities), Transmit(call), capabilities);
  }

  // Every answer of the first critical section, in the order of its checks.
  lemma AdmitExactly(s: State, intent: OrderIntent, capabilities: Capabilities)
    ensures var id := intent.clientOrderId; var (after, answer) := Admit(s, intent, capabilities);
            && (answer == Admitted <==>
                  Sound(intent, capabilities) && s.session == Ready && id !in s.accepted && id !in s.pending)
            && (answer == AlreadyAccepted <==>
                  Sound(intent, capabilities) && s.session == Ready && id in s.accepted && s.accepted[id] == intent)
            && (answer == Refused(NotReady(s.session)) <==> Sound(intent, capabilities) && s.session != Ready)
            && (answer == Refused(ReusedId) <==>
                  Sound(intent, capabilities) && s.session == Ready && id in s.accepted && s.accepted[id] != intent)
            && (answer == Refused(AlreadyInFlight) <==>
                  Sound(intent, capabilities) && s.session == Ready && id !in s.accepted && id in s.pending)
            && after == (if answer == Admitted then s.(pending := s.pending + {id}) else s)
  {
    hide Sound, Text.Blank, Text.Size;
    CheckedIsSound(intent, capabilities);
  }

  // After a failed call is finished and the session is made ready again, the order can be sent again, with the
  // same identity; after one that succeeded it is never sent again.
  lemma FinishedOrderAgain(s: State, intent: OrderIntent, success: bool, capabilities: Capabilities)
    requires Sound(intent, capabilities) && intent.clientOrderId !in s.accepted
    ensures var done := Complete(s, intent, success);
            var answer := Admit(done.(session := Ready), intent, capabilities).1;
            && answer == (if success then AlreadyAccepted else Admitted)
            && (!success ==> done.session == Degraded && done.accepted == s.accepted)
            && (success ==> done.session == s.session && done.accepted == s.accepted[intent.clientOrderId := intent])
            && done.callbacks == s.callbacks && done.pending == s.pending - {intent.clientOrderId}
  {
    hide Sound, CheckIntent;
    CheckedIsSound(intent, capabilities);
  }

  // --- callbacks ---

  // Callbacks wait once each, under an identity, and no more of them than the queue holds.
  predicate GoodQueue(callbacks: seq<BrokerEvent>) {
    && |callbacks| <= 8_192
    && (forall i | 0 <= i < |callbacks| :: Text.Trim(callbacks[i].clientOrderId) != "")
    && (forall i, j | 0 <= i < j < |callbacks| :: callbacks[i] != callbacks[j])
  }

  // A callback is queued exactly when it has an identity, is not waiting already and there is room; one that
  // waits already is ignored, any other is refused.
  lemma CallbackExactly(s: State, event: BrokerEvent)
    ensures var (after, answer) := CallbackOutcome(s, event);
            && (answer == Some(true) <==>
                  Text.Trim(event.clientOrderId) != "" && event !in s.callbacks && |s.callbacks| < 8_192)
            && (answer == Some(false) <==> Text.Trim(event.clientOrderId) != "" && event in s.callbacks)
            && after == s.(callbacks := if answer == Some(true) then s.callbacks + [event] else s.callbacks)
  {
    hide Text.Blank, Text.Trim;
    Text.BlankExactly(event.clientOrderId);
  }

  lemma {:induction false} QueueStaysGood(steps: seq<Step>, capabilities: Capabilities)
    ensures GoodQueue(Run(START, steps, capabilities).state.callbacks)
  {
    hide Admit, CallbackOutcome, Text.Trim, Text.Blank;
    if steps != [] {
      var n := |steps| - 1;
      QueueStaysGood(steps[..n], capabilities);
      var before := Run(START, steps[..n], capabilities).state;
      if steps[n].Callback? {
        CallbackExactly(before, steps[n].event);
      } else if steps[n].Send? {
        AdmitExactly(before, steps[n].intent, capabilities);
      }
    }
  }

  // Why the first critical section turns an order away.
  predicate TurnedAway(s: State, intent: OrderIntent, capabilities: Capabilities) {
    || CheckIntent(intent, capabilities).Err? || s.session != Ready
    || intent.clientOrderId in s.accepted || intent.clientOrderId in s.pending
  }

  lemma AdmittedExactly(s: State, intent: OrderIntent, capabilities: Capabilities)
    ensures Admit(s, intent, capabilities).1 == Admitted <==> !TurnedAway(s, intent, capabilities)
  {
    hide CheckIntent;
  }

  lemma StaysTurnedAway(w: World, step: Step, intent: OrderIntent, capabilities: Capabilities)
    requires TurnedAway(w.state, intent, capabilities) && step != Authenticated
    ensures TurnedAway(Next(w, step, capabilities).state, intent, capabilities)
  {
    hide CheckIntent, CallbackOutcome;
    CallbackKeeps(w.state, step);
  }

  ghost predicate Idle(w: World, capabilities: Capabilities) {
    && (forall call | call in w.calls :: w.calls[call].phase != Waiting)
    && forall intent :: TurnedAway(w.state, intent, capabilities)
  }

  lemma IdleStep(w: World, step: Step, capabilities: Capabilities)
    requires Idle(w, capabilities) && step != Authenticated
    ensures var after := Next(w, step, capabilities);
            && Idle(after, capabilities)
            && (after.log == w.log || exists id, success :: after.log == w.log + [Ended(id, success)])
  {
    hide TurnedAway, Admit, CallbackOutcome, Complete;
    forall intent
      ensures TurnedAway(Next(w, step, capabilities).state, intent, capabilities)
    {
      StaysTurnedAway(w, step, intent, capabilities);
    }
    if step.Send? {
      AdmittedExactly(w.state, step.intent, capabilities);
    }
  }

  lemma {:induction false} NothingStarts(w: World, steps: seq<Step>, capabilities: Capabilities, id: string)
    requires !SomeWaits(w) && !Admits(w, capabilities) && Quiet(steps)
    ensures Idle(Run(w, steps, capabilities), capabilities)
    ensures w.log <= Run(w, steps, capabilities).log && Started(id) !in Run(w, steps, capabilities).log[|w.log|..]
  {
    hide Admit, TurnedAway, Next, Idle;
    if steps == [] {
      NobodyWaits(w, capabilities);
    } else {
      var n := |steps| - 1;
      NothingStarts(w, steps[..n], capabilities, id);
      IdleStep(Run(w, steps[..n], capabilities), steps[n], capabilities);
    }
  }

  lemma NobodyWaits(w: World, capabilities: Capabilities)
    requires !SomeWaits(w) && !Admits(w, capabilities)
    ensures Idle(w, capabilities)
  {
    hide Admit, TurnedAway;
    forall intent
      ensures TurnedAway(w.state, intent, capabilities)
    {
      AdmittedExactly(w.state, intent, capabilities);
    }
  }

  lemma RunSnoc(w: World, steps: seq<Step>, step: Step, capabilities: Capabilities)
    ensures Run(w, steps + [step], capabilities) == Next(Run(w, steps, capabilities), step, capabilities)
  {
    assert (steps + [step])[..|steps|] == steps;
  }

  function BothAdmitted(a: OrderIntent, b: OrderIntent): World {
    World(State(Ready, map[], {a.clientOrderId, b.clientOrderId}, []),
      map[0 := Call(a, Waiting), 1 := Call(b, Waiting)], 2, [])
  }

  function FirstFailed(a: OrderIntent, b: OrderIntent): World {
    World(State(Degraded, map[], {b.clientOrderId}, []), map[1 := Call(b, Waiting)], 2,
          [Started(a.clientOrderId), Ended(a.clientOrderId, false)])
  }

  lemma TwoAreAdmitted(a: OrderIntent, b: OrderIntent, capabilities: Capabilities)
    requires CheckIntent(a, capabilities).Ok? && CheckIntent(b, capabilities).Ok? && a.clientOrderId != b.clientOrderId
    ensures Next(Next(Next(START, Authenticated, capabilities), Send(a), capabilities), Send(b), capabilities)
              == BothAdmitted(a, b)
  {
    hide CheckIntent;
    assert {} + {a.clientOrderId} + {b.clientOrderId} == {a.clientOrderId, b.clientOrderId};
  }

  lemma FirstFails(a: OrderIntent, b: OrderIntent, capabilities: Capabilities)
    requires a.clientOrderId != b.clientOrderId
    ensures Next(Next(Next(BothAdmitted(a, b), Transmit(0), capabilities), Answer(0, false), capabilities),
                 Finish(0), capabilities)
              == FirstFailed(a, b)
  {
    var flying := Next(BothAdmitted(a, b), Transmit(0), capabilities);
    assert flying.log == [Started(a.clientOrderId)];
    var answered := Next(flying, Answer(0, false), capabilities);
    assert answered.calls == map[0 := Call(a, Answered(false)), 1 := Call(b, Waiting)];
  }

  // The second of two orders was admitted before the first one's call failed: its call still starts
  // after the failure, with the session degraded.
  lemma StartsAfterFailure(a: OrderIntent, b: OrderIntent, capabilities: Capabilities)
    requires CheckIntent(a, capabilities).Ok? && CheckIntent(b, capabilities).Ok? && a.clientOrderId != b.clientOrderId
    ensures var w := Run(START,
              [Authenticated, Send(a), Send(b), Transmit(0), Answer(0, false), Finish(0), Transmit(1)], capabilities);
            && w.log == [Started(a.clientOrderId), Ended(a.clientOrderId, false), Started(b.clientOrderId)]
            && w.state.session == Degraded
  {
    TwoAreAdmitted(a, b, capabilities);
    FirstFails(a, b, capabilities);
    SevenSteps(START, Authenticated, Send(a), Send(b), Transmit(0), Answer(0, false), Finish(0), Transmit(1),
      capabilities);
    assert Next(FirstFailed(a, b), Transmit(1), capabilities).log
        == [Started(a.clientOrderId), Ended(a.clientOrderId, false), Started(b.clientOrderId)];
  }

  // Between the transport's answer and the second critical section the session is still ready: an order
  // sent then, with no call waiting before, is admitted and starts after the failure.
  lemma StartsBeforeFailureIsSeen(a: OrderIntent, b: OrderIntent, capabilities: Capabilities)
    requires CheckIntent(a, capabilities).Ok? && CheckIntent(b, capabilities).Ok? && a.clientOrderId != b.clientOrderId
    ensures var failed := Run(START, [Authenticated, Send(a), Transmit(0), Answer(0, false)], capabilities);
            && failed.log == [Started(a.clientOrderId), Ended(a.clientOrderId, false)]
            && failed.state.session == Ready && !SomeWaits(failed)
            && Run(failed, [Send(b), Transmit(1)], capabilities).log == failed.log + [Started(b.clientOrderId)]
  {
    hide CheckIntent;
    var steps := [Authenticated, Send(a), Transmit(0), Answer(0, false)];
    OneFails(a, capabilities);
    FourSteps(START, Authenticated, Send(a), Transmit(0), Answer(0, false), capabilities);
    var failed := Run(START, steps, capabilities);
    assert failed == AnsweredOnly(a);
    SendStarts(failed, b, capabilities);
  }

  function AnsweredOnly(a: OrderIntent): World {
    World(State(Ready, map[], {a.clientOrderId}, []), map[0 := Call(a, Answered(false))], 1,
          [Started(a.clientOrderId), Ended(a.clientOrderId, false)])
  }

  lemma OneFails(a: OrderIntent, capabilities: Capabilities)
    requires CheckIntent(a, capabilities).Ok?
    ensures Next(Next(Next(Next(START, Authenticated, capabilities), Send(a), capabilities), Transmit(0), capabilities),
                 Answer(0, false), capabilities) == AnsweredOnly(a)
  {
    hide CheckIntent;
    assert {} + {a.clientOrderId} == {a.clientOrderId};
    var sent := Next(Next(START, Authenticated, capabilities), Send(a), capabilities);
    assert sent.calls == map[0 := Call(a, Waiting)];
    var flying := Next(sent, Transmit(0), capabilities);
    assert flying.calls == map[0 := Call(a, Flying)] && flying.log == [Started(a.clientOrderId)];
  }

  lemma FourSteps(w: World, s1: Step, s2: Step, s3: Step, s4: Step, capabilities: Capabilities)
    ensures Run(w, [s1, s2, s3, s4], capabilities)
              == Next(Next(Next(Next(w, s1, capabilities), s2, capabilities), s3, capabilities), s4, capabilities)
  {
    hide Next, Run;
    RunNothing(w, capabilities);
    RunSnoc(w, [], s1, capabilities);
    RunSnoc(w, [s1], s2, capabilities);
    RunSnoc(w, [s1, s2], s3, capabilities);
    RunSnoc(w, [s1, s2, s3], s4, capabilities);
    assert [] + [s1] == [s1] && [s1] + [s2] == [s1, s2] && [s1, s2] + [s3] == [s1, s2, s3];
    assert [s1, s2, s3] + [s4] == [s1, s2, s3, s4];
  }

  lemma SevenSteps(w: World, s1: Step, s2: Step, s3: Step, s4: Step, s5: Step, s6: Step, s7: Step,
                   capabilities: Capabilities)
    ensures Run(w, [s1, s2, s3, s4, s5, s6, s7], capabilities)
              == Next(Next(Next(Next(Next(Next(Next(w, s1, capabilities), s2, capabilities), s3, capabilities), s4,
                                     capabilities),
                                s5, capabilities), s6, capabilities), s7, capabilities)
  {
    hide Next, Run;
    FourSteps(w, s1, s2, s3, s4, capabilities);
    RunSnoc(w, [s1, s2, s3, s4], s5, capabilities);
    RunSnoc(w, [s1, s2, s3, s4, s5], s6, capabilities);
    RunSnoc(w, [s1, s2, s3, s4, s5, s6], s7, capabilities);
    assert [s1, s2, s3, s4] + [s5] == [s1, s2, s3, s4, s5];
    assert [s1, s2, s3, s4, s5] + [s6] == [s1, s2, s3, s4, s5, s6];
    assert [s1, s2, s3, s4, s5, s6] + [s7] == [s1, s2, s3, s4, s5, s6, s7];
  }

  lemma RunNothing(w: World, capabilities: Capabilities)
    ensures Run(w, [], capabilities) == w
  {
  }
}
