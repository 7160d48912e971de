/** Plans made durable as crates/engine does it: an event is in the journal before its state is published. */
module DurablePlans {
  import opened Wrappers
  import opened Bytes
  import opened Plans
  import opened PlanCodec
  import J = Journal
  import Text

  // The journal and the published records.
  datatype Engine = Engine(disk: J.Disk, records: Records)

  datatype Trouble = JournalTrouble(error: J.JournalError) | PlanTrouble(reason: ReplayError)

  function Payloads(records: seq<J.Record>): seq<seq<byte>> {
    seq(|records|, i requires 0 <= i < |records| => records[i].payload)
  }

  // Opens the journal and replays what it holds.
  function Boot(bytes: seq<byte>, acceptable: Action -> bool): Result<Engine, Trouble> {
    match J.OpenDisk(bytes)
    case Err(error) => Err(JournalTrouble(error))
    case Ok(disk) =>
      match J.ScanFile(disk.bytes)
      case Err(error) => Err(JournalTrouble(error))
      case Ok(scan) =>
        match ReplayBytes(Payloads(scan.records), acceptable)
        case Err(error) => Err(PlanTrouble(error))
        case Ok(records) => Ok(Engine(disk, records))
  }

  // A submission or a transition: worked out on a copy, journalled, then published.
  function Call(e: Engine, op: Op, acceptable: Action -> bool): Engine {
    var outcome := Do(e.records, op, acceptable);
    if outcome.events == [] then e else
    var payload := Encode(outcome.events[0]);
    if J.AppendError(e.disk, payload).Some? then e else Engine(J.AppendTo(e.disk, payload), outcome.records)
  }

  // The process dies after some bytes of the event's frame, and starts again.
  function CrashInCall(e: Engine, op: Op, written: nat, acceptable: Action -> bool): Result<Engine, Trouble> {
    var bytes := Call(e, op, acceptable).disk.bytes;
    Boot(bytes[..if |e.disk.bytes| + written <= |bytes| then |e.disk.bytes| + written else |bytes|], acceptable)
  }

  datatype Happening = Called(op: Op) | CrashedIn(op: Op, written: nat) | Restarted

  function After(e: Engine, h: Happening, acceptable: Action -> bool): Result<Engine, Trouble> {
    match h
    case Called(op) => Ok(Call(e, op, acceptable))
    case CrashedIn(op, written) => CrashInCall(e, op, written, acceptable)
    case Restarted => Boot(e.disk.bytes, acceptable)
  }

  function History(happenings: seq<Happening>, acceptable: Action -> bool): Result<Engine, Trouble> {
    if happenings == [] then Boot([], acceptable) else
    var e :- History(happenings[..|happenings| - 1], acceptable);
    After(e, happenings[|happenings| - 1], acceptable)
  }

  // A call whose event, if it emits one, a restart can read and restore.
  predicate Recoverable(records: Records, op: Op, acceptable: Action -> bool) {
    Replayable(records, op, acceptable) && EventsFit(Do(records, op, acceptable).events)
  }

  // The event of a call reached the journal whole.
  predicate Reaches(e: Engine, h: Happening, acceptable: Action -> bool) {
    match h
    case Restarted => false
    case Called(op) => |e.disk.bytes| < |Call(e, op, acceptable).disk.bytes|
    case CrashedIn(op, written) =>
      |e.disk.bytes| < |Call(e, op, acceptable).disk.bytes| <= |e.disk.bytes| + written
  }

  // Every call whose event reached the journal whole was recoverable.
  predicate StoredIsRecoverable(happenings: seq<Happening>, acceptable: Action -> bool) {
    happenings == [] ||
      var n := |happenings| - 1;
      var before := History(happenings[..n], acceptable);
      && StoredIsRecoverable(happenings[..n], acceptable)
      && (before.Ok? && Reaches(before.value, happenings[n], acceptable) ==>
            Recoverable(before.value.records, happenings[n].op, acceptable))
  }

  // The published records are what the journal's payloads replay to.
  ghost predicate InStep(e: Engine, log: seq<seq<byte>>, acceptable: Action -> bool) {
    J.Holds(e.disk, log) && ReplayBytes(log, acceptable) == Ok(e.records)
  }

  lemma PayloadsNumbered(log: seq<seq<byte>>)
    ensures Payloads(J.Numbered(log)) == log
  {
  }

  lemma BootOfHeld(disk: J.Disk, log: seq<seq<byte>>, acceptable: Action -> bool)
    requires J.Holds(disk, log)
    ensures Boot(disk.bytes, acceptable) ==
              match ReplayBytes(log, acceptable)
              case Err(error) => Err(PlanTrouble(error))
              case Ok(records) => Ok(Engine(disk, records))
  {
    hide J.OpenDisk, J.Frames, J.ScanBytes, J.LogSize, ReplayBytes;
    J.OpenKeeps(log, disk);
    J.ScanOfCleanFrames(J.Numbered(log));
    PayloadsNumbered(log);
  }

  // One more stored event: it replays exactly when the call was recoverable.
  lemma StoredCall(records: Records, log: seq<seq<byte>>, op: Op, acceptable: Action -> bool)
    requires ReplayBytes(log, acceptable) == Ok(records)
    ensures var outcome := Do(records, op, acceptable);
            outcome.events != [] ==>
              var replayed := ReplayBytes(log + [Encode(outcome.events[0])], acceptable);
              if Recoverable(records, op, acceptable) then replayed == Ok(outcome.records) else replayed.Err?
  {
    hide Do, Encode, Decode, Restore, EventFits, Validate, Replayable;
    StepReplays(records, op, acceptable);
    var outcome := Do(records, op, acceptable);
    if outcome.events != [] {
      var event := outcome.events[0];
      DecodeEncode(event, acceptable);
      RestoreValidates(records, event, acceptable);
      assert outcome.events == [event];
      assert (log + [Encode(event)])[..|log|] == log;
    }
  }

  // Once a call's event is in the journal, a restart comes back to the published state exactly when
  // the call was recoverable; otherwise it fails.
  lemma RestartExactly(e: Engine, log: seq<seq<byte>>, op: Op, acceptable: Action -> bool)
    requires InStep(e, log, acceptable)
    ensures var after := Call(e, op, acceptable);
            after != e ==>
              if Recoverable(e.records, op, acceptable) then
                Boot(after.disk.bytes, acceptable) == Ok(after)
                  && InStep(after, log + [Encode(Do(e.records, op, acceptable).events[0])], acceptable)
              else Boot(after.disk.bytes, acceptable).Err?
  {
    hide J.Holds, J.AppendTo, J.AppendError, Do, Encode, Boot, ReplayBytes, Recoverable;
    var outcome := Do(e.records, op, acceptable);
    if outcome.events != [] {
      var payload := Encode(outcome.events[0]);
      J.AppendHolds(log, e.disk, payload);
      StoredCall(e.records, log, op, acceptable);
      if J.AppendError(e.disk, payload).None? {
        BootOfHeld(J.AppendTo(e.disk, payload), log + [payload], acceptable);
      }
    }
  }

  // Whether a call's event reached the journal is whether the call took effect.
  lemma CallGrows(e: Engine, log: seq<seq<byte>>, op: Op, acceptable: Action -> bool)
    requires J.Holds(e.disk, log)
    ensures var after := Call(e, op, acceptable);
            && (after != e <==> |e.disk.bytes| < |after.disk.bytes|)
            && (after != e ==>
                  && Do(e.records, op, acceptable).events != []
                  && var payload := Encode(Do(e.records, op, acceptable).events[0]);
                  && J.AppendError(e.disk, payload).None?
                  && after.disk == J.AppendTo(e.disk, payload)
                  && J.Holds(after.disk, log + [payload]))
  {
    hide Do, Encode, J.Holds;
    var outcome := Do(e.records, op, acceptable);
    if outcome.events != [] {
      J.AppendHolds(log, e.disk, Encode(outcome.events[0]));
    }
  }

  // A crash before the event's frame is whole leaves the state before the call; after that the
  // journal holds the event, and the start succeeds exactly when the call was recoverable.
  lemma CrashIsAtomic(e: Engine, log: seq<seq<byte>>, op: Op, written: nat, acceptable: Action -> bool)
    requires InStep(e, log, acceptable)
    ensures var after := CrashInCall(e, op, written, acceptable);
            if !Reaches(e, CrashedIn(op, written), acceptable) then after == Ok(e)
            else if Recoverable(e.records, op, acceptable) then after == Ok(Call(e, op, acceptable))
            else after.Err?
  {
    hide J.Holds, J.OpenDisk, J.AppendTo, J.AppendError, J.Frame, Do, Encode, ReplayBytes, Recoverable, Boot, Call;
    BootOfHeld(e.disk, log, acceptable);
    CallGrows(e, log, op, acceptable);
    var done := Call(e, op, acceptable);
    var bytes := done.disk.bytes;
    assert bytes[..|bytes|] == bytes;
    if done != e {
      RestartExactly(e, log, op, acceptable);
      var payload := Encode(Do(e.records, op, acceptable).events[0]);
      if |e.disk.bytes| + written < |bytes| {
        CutIsRecovered(e.disk, log, payload, written);
        BootOfOpened(bytes[..|e.disk.bytes| + written], e.disk, log, acceptable);
      }
    }
  }

  lemma CutIsRecovered(d: J.Disk, log: seq<seq<byte>>, payload: seq<byte>, written: nat)
    requires J.Holds(d, log) && J.AppendError(d, payload).None?
    requires |d.bytes| + written < |J.AppendTo(d, payload).bytes|
    ensures J.OpenDisk(J.AppendTo(d, payload).bytes[..|d.bytes| + written]) == Ok(d)
  {
    hide J.OpenDisk, J.Frames, J.Frame;
    J.AppendHolds(log, d, payload);
    J.CrashRecovers(log, d, payload, written);
    assert J.AppendTo(d, payload).bytes[..|d.bytes| + written]
      == d.bytes + J.Frame(J.Record(|log|, payload))[..written];
  }

  // What is booted is what opening keeps.
  lemma BootOfOpened(bytes: seq<byte>, disk: J.Disk, log: seq<seq<byte>>, acceptable: Action -> bool)
    requires J.Holds(disk, log) && J.OpenDisk(bytes) == Ok(disk)
    ensures Boot(bytes, acceptable) == Boot(disk.bytes, acceptable)
  {
    hide J.OpenDisk, J.Holds, J.ScanFile, ReplayBytes;
    J.OpenKeeps(log, disk);
  }

  lemma NothingStored(acceptable: Action -> bool)
    ensures Boot([], acceptable) == Ok(Engine(J.Disk([], 0), map[]))
              && InStep(Engine(J.Disk([], 0), map[]), [], acceptable)
  {
    hide Boot;
    J.EmptyHolds();
    BootOfHeld(J.Disk([], 0), [], acceptable);
  }

  // As long as what is stored is recoverable, the engine and its journal stay in step.
  lemma StaysInStep(e: Engine, log: seq<seq<byte>>, h: Happening, acceptable: Action -> bool)
    returns (next: seq<seq<byte>>)
    requires InStep(e, log, acceptable)
    requires Reaches(e, h, acceptable) ==> Recoverable(e.records, h.op, acceptable)
    ensures After(e, h, acceptable).Ok? && InStep(After(e, h, acceptable).value, next, acceptable)
  {
    hide Recoverable, Call, CrashInCall, Boot, J.Holds, ReplayBytes;
    next := log;
    match h
    case Restarted =>
      BootOfHeld(e.disk, log, acceptable);
    case Called(op) =>
      CallGrows(e, log, op, acceptable);
      RestartExactly(e, log, op, acceptable);
      if Call(e, op, acceptable) != e {
        next := log + [Encode(Do(e.records, op, acceptable).events[0])];
      }
    case CrashedIn(op, written) =>
      CallGrows(e, log, op, acceptable);
      CrashIsAtomic(e, log, op, written, acceptable);
      RestartExactly(e, log, op, acceptable);
      if Reaches(e, h, acceptable) {
        next := log + [Encode(Do(e.records, op, acceptable).events[0])];
      }
  }

  // The journal holds an event that does not replay: whatever is added to it, no start succeeds.
  ghost predicate Doomed(e: Engine, log: seq<seq<byte>>, acceptable: Action -> bool) {
    J.Holds(e.disk, log) && ReplayBytes(log, acceptable).Err?
  }

  lemma ReplayStaysRefused(log: seq<seq<byte>>, payload: seq<byte>, acceptable: Action -> bool)
    requires ReplayBytes(log, acceptable).Err?
    ensures ReplayBytes(log + [payload], acceptable).Err?
  {
    assert (log + [payload])[..|log|] == log;
  }

  lemma StaysDoomed(e: Engine, log: seq<seq<byte>>, h: Happening, acceptable: Action -> bool)
    returns (next: seq<seq<byte>>)
    requires Doomed(e, log, acceptable)
    ensures h.Called? ==> After(e, h, acceptable).Ok? && Doomed(After(e, h, acceptable).value, next, acceptable)
    ensures !h.Called? ==> After(e, h, acceptable).Err?
  {
    hide Call, Boot, J.Holds, ReplayBytes, J.AppendTo, J.AppendError, Do, Encode, J.OpenDisk, J.Frame;
    next := log;
    BootOfHeld(e.disk, log, acceptable);
    if !h.Restarted? {
      CallGrows(e, log, h.op, acceptable);
      var done := Call(e, h.op, acceptable);
      var bytes := done.disk.bytes;
      assert bytes[..|bytes|] == bytes;
      if done != e {
        var payload := Encode(Do(e.records, h.op, acceptable).events[0]);
        ReplayStaysRefused(log, payload, acceptable);
        BootOfHeld(done.disk, log + [payload], acceptable);
        if h.Called? {
          next := log + [payload];
        } else if |e.disk.bytes| + h.written < |bytes| {
          CutIsRecovered(e.disk, log, payload, h.written);
          BootOfOpened(bytes[..|e.disk.bytes| + h.written], e.disk, log, acceptable);
        }
      }
    }
  }

  // What a history leaves: an engine in step with its journal exactly when all that is stored is
  // recoverable; otherwise a doomed journal, or a start that failed.
  lemma {:induction false} HistoryEnds(happenings: seq<Happening>, acceptable: Action -> bool)
    returns (log: seq<seq<byte>>)
    ensures var r := History(happenings, acceptable);
            if StoredIsRecoverable(happenings, acceptable) then r.Ok? && InStep(r.value, log, acceptable)
            else r.Ok? ==> Doomed(r.value, log, acceptable)
  {
    hide InStep, Doomed, Boot, After, Recoverable, Call;
    log := [];
    if happenings == [] {
      NothingStored(acceptable);
    } else {
      var n := |happenings| - 1;
      var h := happenings[n];
      var before := HistoryEnds(happenings[..n], acceptable);
      var r := History(happenings[..n], acceptable);
      if r.Ok? {
        if StoredIsRecoverable(happenings[..n], acceptable) {
          if Reaches(r.value, h, acceptable) && !Recoverable(r.value.records, h.op, acceptable) {
            log := Dooms(r.value, before, h, acceptable);
          } else {
            log := StaysInStep(r.value, before, h, acceptable);
          }
        } else {
          log := StaysDoomed(r.value, before, h, acceptable);
        }
      }
    }
  }

  lemma Dooms(e: Engine, log: seq<seq<byte>>, h: Happening, acceptable: Action -> bool)
    returns (next: seq<seq<byte>>)
    requires InStep(e, log, acceptable)
    requires Reaches(e, h, acceptable) && !Recoverable(e.records, h.op, acceptable)
    ensures After(e, h, acceptable).Ok? ==> Doomed(After(e, h, acceptable).value, next, acceptable)
  {
    hide Recoverable, Call, CrashInCall, Boot, J.Holds, ReplayBytes, Do, Encode, J.AppendTo, J.AppendError;
    CallGrows(e, log, h.op, acceptable);
    if h.CrashedIn? {
      CrashIsAtomic(e, log, h.op, h.written, acceptable);
      next := log;
    } else {
      StoredCall(e.records, log, h.op, acceptable);
      next := log + [Encode(Do(e.records, h.op, acceptable).events[0])];
    }
  }

  // In every history of calls, crashes part way through a write, and restarts: a further restart
  // succeeds, and then changes nothing, exactly when every call whose event reached the journal whole
  // was recoverable.
  lemma RestartIsInvisible(happenings: seq<Happening>, acceptable: Action -> bool)
    ensures var again := History(happenings + [Restarted], acceptable);
            && (again.Ok? <==> StoredIsRecoverable(happenings, acceptable))
            && (again.Ok? ==> again == History(happenings, acceptable))
  {
    hide J.Holds, ReplayBytes, Boot, StoredIsRecoverable;
    var log := HistoryEnds(happenings, acceptable);
    var r := History(happenings, acceptable);
    assert (happenings + [Restarted])[..|happenings|] == happenings;
    if r.Ok? {
      BootOfHeld(r.value.disk, log, acceptable);
    }
  }

  // --- a history that does not come up again ---

  // A plan that expires the moment it is generated, submitted before that.
  const STILLBORN := Plan("p", 10, 10, [])

  lemma StillbornOutcome(acceptable: Action -> bool)
    ensures Do(map[], Submit(STILLBORN, 0), acceptable)
              == Outcome(map["p" := PlanRecord(STILLBORN, Pending)], [Submitted(STILLBORN)], Ok(()))
    ensures !Recoverable(map[], Submit(STILLBORN, 0), acceptable)
  {
    hide Text.Blank, EventFits;
    NotBlank();
  }

  lemma StillbornIsSmall()
    ensures |Encode(Submitted(STILLBORN))| <= 100
  {
    hide Text.Utf8;
    Text.SizeBounds("p");
    assert PushActions([]) == [];
  }

  lemma StillbornIsStored(acceptable: Action -> bool)
    ensures var e := Engine(J.Disk([], 0), map[]);
            Call(e, Submit(STILLBORN, 0), acceptable).records == map["p" := PlanRecord(STILLBORN, Pending)]
  {
    hide Do, Encode, J.Header;
    StillbornOutcome(acceptable);
    StillbornIsSmall();
    assert Do(map[], Submit(STILLBORN, 0), acceptable).events[0] == Submitted(STILLBORN);
  }

  // The call is accepted and its event journalled, and the next start fails on it; a crash before any
  // byte of it is written leaves nothing behind.
  lemma StillbornStopsTheRestart(acceptable: Action -> bool)
    ensures var call := Called(Submit(STILLBORN, 0));
            && History([call], acceptable).Ok?
            && History([call], acceptable).value.records == map["p" := PlanRecord(STILLBORN, Pending)]
            && History([call, Restarted], acceptable).Err?
            && History([CrashedIn(Submit(STILLBORN, 0), 0)], acceptable) == History([], acceptable)
  {
    hide Call, Recoverable, Boot, InStep, J.Holds;
    var e := Engine(J.Disk([], 0), map[]);
    var op := Submit(STILLBORN, 0);
    NothingStored(acceptable);
    StillbornIsStored(acceptable);
    StillbornOutcome(acceptable);
    assert [Called(op)][..0] == [] && [CrashedIn(op, 0)][..0] == [];
    assert History([Called(op)], acceptable) == Ok(Call(e, op, acceptable));
    RestartExactly(e, [], op, acceptable);
    assert [Called(op), Restarted][..1] == [Called(op)];
    CrashIsAtomic(e, [], op, 0, acceptable);
  }

  // An executing plan found at or after its expiry, as a recovery finds it: whatever transition is asked
  // for, the engine goes on with an expired plan, and the start after that fails exactly when the event
  // could be journalled.
  lemma ExpiryStopsTheRestart(happenings: seq<Happening>, id: string, next: PlanState, now: u64,
                              acceptable: Action -> bool)
    requires StoredIsRecoverable(happenings, acceptable) && History(happenings, acceptable).Ok?
    requires var records := History(happenings, acceptable).value.records;
             id in records && records[id].state == Executing && now >= records[id].plan.expiresAt && next != Executing
    ensures var e := History(happenings, acceptable).value;
            var expired := Call(e, Move(id, next, now), acceptable);
            var stored := J.AppendError(e.disk, Encode(Transition(id, Expired))).None?;
            var late := happenings + [Called(Move(id, next, now))];
            && History(late, acceptable) == Ok(expired)
            && expired.records == (if stored then e.records[id := e.records[id].(state := Expired)] else e.records)
            && (History(late + [Restarted], acceptable).Err? <==> stored)
  {
    hide StoredIsRecoverable, History, Encode, Reaches, Recoverable, Boot, J.AppendTo, J.AppendError, J.Holds,
         ReplayBytes;
    var op := Move(id, next, now);
    var log := HistoryEnds(happenings, acceptable);
    var e := History(happenings, acceptable).value;
    LateMove(e.records, id, next, now, acceptable);
    HistorySnoc(happenings, Called(op), acceptable);
    RestartIsInvisible(happenings + [Called(op)], acceptable);
    CallGrows(e, log, op, acceptable);
    MoreStored(e, log, op, acceptable);
    if J.AppendError(e.disk, Encode(Transition(id, Expired))).None? {
      assert Call(e, op, acceptable) != e;
    }
  }

  lemma LateMove(records: Records, id: string, next: PlanState, now: u64, acceptable: Action -> bool)
    requires id in records && records[id].state == Executing && now >= records[id].plan.expiresAt && next != Executing
    ensures Do(records, Move(id, next, now), acceptable)
              == Outcome(records[id := records[id].(state := Expired)], [Transition(id, Expired)],
                         if next != Expired then Err(TooLate) else Ok(()))
    ensures records[id := records[id].(state := Expired)] != records
    ensures !Recoverable(records, Move(id, next, now), acceptable)
  {
    assert records[id := records[id].(state := Expired)][id].state == Expired;
  }

  lemma HistorySnoc(happenings: seq<Happening>, h: Happening, acceptable: Action -> bool)
    requires History(happenings, acceptable).Ok?
    ensures var e := History(happenings, acceptable).value;
            && History(happenings + [h], acceptable) == After(e, h, acceptable)
            && (StoredIsRecoverable(happenings + [h], acceptable) <==>
                  StoredIsRecoverable(happenings, acceptable)
                  && (Reaches(e, h, acceptable) ==> Recoverable(e.records, h.op, acceptable)))
  {
    hide After, Reaches, Recoverable;
    assert (happenings + [h])[..|happenings|] == happenings;
  }

  // A call whose event is journalled reaches the journal.
  lemma MoreStored(e: Engine, log: seq<seq<byte>>, op: Op, acceptable: Action -> bool)
    requires J.Holds(e.disk, log)
    ensures Reaches(e, Called(op), acceptable) <==> Call(e, op, acceptable) != e
  {
    hide Call, J.Holds;
    CallGrows(e, log, op, acceptable);
  }

  // --- such a history ---

  const RUNS := [Called(RUNNING[0]), Called(RUNNING[1]), Called(RUNNING[2])]

  predicate SmallEvent(event: PlanEvent) { |Encode(event)| <= 100 && EventFits(event) }

  lemma RunningEventsAreSmall()
    ensures SmallEvent(Submitted(RUNNING_PLAN))
    ensures forall state: PlanState :: SmallEvent(Transition("p", state))
  {
    hide Text.Utf8;
    Text.SizeBounds("p");
    assert PushActions([]) == [];
    NothingToFit();
  }

  // One more call of a short history that fits and can be restored.
  lemma SmallCall(happenings: seq<Happening>, op: Op, event: PlanEvent, after: Records, acceptable: Action -> bool)
    requires StoredIsRecoverable(happenings, acceptable) && History(happenings, acceptable).Ok?
    requires var e := History(happenings, acceptable).value;
             && |e.disk.bytes| <= 200 * |happenings| <= 2000
             && Do(e.records, op, acceptable) == Outcome(after, [event], Ok(()))
             && Replayable(e.records, op, acceptable)
    requires SmallEvent(event)
    ensures var later := happenings + [Called(op)];
            && StoredIsRecoverable(later, acceptable) && History(later, acceptable).Ok?
            && History(later, acceptable).value.records == after
            && |History(later, acceptable).value.disk.bytes| <= 200 * |later|
  {
    hide StoredIsRecoverable, History, Do, Encode, Reaches, EventFits, Replayable;
    HistorySnoc(happenings, Called(op), acceptable);
  }

  lemma RunsAreStored(acceptable: Action -> bool)
    ensures StoredIsRecoverable(RUNS, acceptable) && History(RUNS, acceptable).Ok?
    ensures History(RUNS, acceptable).value.records == map["p" := PlanRecord(RUNNING_PLAN, Executing)]
    ensures |History(RUNS, acceptable).value.disk.bytes| <= 600
  {
    hide StoredIsRecoverable, History, Boot, SmallEvent, Text.Blank;
    NotBlank();
    NothingStored(acceptable);
    NoHistory(acceptable);
    RunningEventsAreSmall();
    var one, two := [Called(RUNNING[0])], [Called(RUNNING[0]), Called(RUNNING[1])];
    assert [] + one == one && one + [Called(RUNNING[1])] == two && two + [Called(RUNNING[2])] == RUNS;
    SmallCall([], RUNNING[0], Submitted(RUNNING_PLAN), map["p" := PlanRecord(RUNNING_PLAN, Pending)], acceptable);
    SmallCall(one, RUNNING[1], Transition("p", Approved), map["p" := PlanRecord(RUNNING_PLAN, Approved)], acceptable);
    SmallCall(two, RUNNING[2], Transition("p", Executing), map["p" := PlanRecord(RUNNING_PLAN, Executing)], acceptable);
  }

  lemma NoHistory(acceptable: Action -> bool)
    ensures History([], acceptable) == Boot([], acceptable) && StoredIsRecoverable([], acceptable)
  {
  }

  // Submitted, approved and started in time, journalled each time; a restart then comes back, a recovery at
  // the expiry expires the plan, and no later start succeeds.
  lemma RecoveryStopsTheRestart(acceptable: Action -> bool)
    ensures History(RUNS + [Restarted], acceptable) == History(RUNS, acceptable) && History(RUNS, acceptable).Ok?
    ensures var late := RUNS + [Called(Move("p", Expired, 10))];
            && History(late, acceptable).Ok?
            && History(late, acceptable).value.records == map["p" := PlanRecord(RUNNING_PLAN, Expired)]
            && History(late + [Restarted], acceptable).Err?
  {
    hide StoredIsRecoverable, History, Encode, Call, EventFits;
    RunsAreStored(acceptable);
    RestartIsInvisible(RUNS, acceptable);
    RunningEventsAreSmall();
    assert SmallEvent(Transition("p", Expired));
    ExpiryStopsTheRestart(RUNS, "p", Expired, 10, acceptable);
  }
}
