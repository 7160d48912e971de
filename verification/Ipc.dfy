/** The command channel of crates/ipc: three codecs, the remote error body and one connection. */
module Ipc {
  import opened Wrappers
  import opened Bytes
  import opened Text
  import opened Wire

  datatype FrameError = Incomplete | TooLarge(length: nat) | LengthMismatch(declared: int, actual: nat)

  const MAX_CORRELATION_ID_BYTES: nat := 256
  const MAX_ACTOR_BYTES: nat := 128

  datatype Command = Command(commandId: string, traceId: string, actor: string, issuedWallNs: u64,
                             expectedStateVersion: u64, idempotencyKey: string, payload: seq<byte>)

  datatype Response = Response(stateVersion: u64, payload: seq<byte>)

  // The limits the codec constructors accept.
  predicate Limit(maximum: nat) { 0 < maximum <= U32_MAX }

  function Lift<T>(r: Result<T, TakeError>): Result<T, FrameError> {
    match r
    case Ok(value) => Ok(value)
    case Err(Long(length)) => Err(TooLarge(length))
    case Err(_) => Err(Incomplete)
  }

  function Max(a: nat, b: nat): nat { if a < b then b else a }

  function Validate(c: Command, maximum: nat): Result<(), FrameError> {
    if Blank(c.commandId) || Blank(c.traceId) || Blank(c.actor) || Blank(c.idempotencyKey) then Err(Incomplete)
    else if Size(c.commandId) > MAX_CORRELATION_ID_BYTES || Size(c.traceId) > MAX_CORRELATION_ID_BYTES
            || Size(c.idempotencyKey) > MAX_CORRELATION_ID_BYTES || Size(c.actor) > MAX_ACTOR_BYTES then
      Err(TooLarge(Max(Max(Max(Size(c.commandId), Size(c.traceId)), Size(c.idempotencyKey)), Size(c.actor))))
    else if |c.payload| > maximum then Err(TooLarge(|c.payload|))
    else if c.issuedWallNs == 0 then Err(Incomplete)
    else Ok(())
  }

  // --- commands ---

  function CommandBytes(c: Command): seq<byte> {
    PutString(c.commandId, 2) + (PutString(c.traceId, 2) + (PutString(c.actor, 2)
      + (ToLE(c.issuedWallNs, 8) + (ToLE(c.expectedStateVersion, 8)
      + (PutString(c.idempotencyKey, 2) + PutBlock(c.payload, 4))))))
  }

  function EncodeCommand(c: Command, maximum: nat): Result<seq<byte>, FrameError> {
    var _ :- Validate(c, maximum);
    Ok(CommandBytes(c))
  }

  // The fields in front of the idempotency key, those behind them, and the whole.
  function TakeIds(bytes: seq<byte>): Result<((string, string, string), seq<byte>), FrameError> {
    var id :- Lift(TakeString(bytes, 2, MAX_CORRELATION_ID_BYTES));
    var trace :- Lift(TakeString(id.1, 2, MAX_CORRELATION_ID_BYTES));
    var actor :- Lift(TakeString(trace.1, 2, MAX_ACTOR_BYTES));
    Ok(((id.0, trace.0, actor.0), actor.1))
  }

  function TakeNumbers(bytes: seq<byte>): Result<((u64, u64), seq<byte>), FrameError> {
    var issued :- Lift(TakeUint(bytes, 8));
    var version :- Lift(TakeUint(issued.1, 8));
    UintFits(bytes);
    UintFits(issued.1);
    Ok(((issued.0, version.0), version.1))
  }

  function TakeTail(bytes: seq<byte>, maximum: nat): Result<((string, seq<byte>), seq<byte>), FrameError> {
    var key :- Lift(TakeString(bytes, 2, MAX_CORRELATION_ID_BYTES));
    var payload :- Lift(TakeBlock(key.1, 4, maximum));
    Ok(((key.0, payload.0), payload.1))
  }

  function TakeCommand(bytes: seq<byte>, maximum: nat): Result<(Command, seq<byte>), FrameError> {
    var ids :- TakeIds(bytes);
    var numbers :- TakeNumbers(ids.1);
    var tail :- TakeTail(numbers.1, maximum);
    Ok((Command(ids.0.0, ids.0.1, ids.0.2, numbers.0.0, numbers.0.1, tail.0.0, tail.0.1), tail.1))
  }

  function DecodeCommand(bytes: seq<byte>, maximum: nat): Result<Command, FrameError> {
    var taken :- TakeCommand(bytes, maximum);
    if taken.1 != [] then Err(LengthMismatch(|bytes| - |taken.1|, |bytes|)) else
    var _ :- Validate(taken.0, maximum);
    Ok(taken.0)
  }

  lemma UintFits(bytes: seq<byte>)
    ensures TakeUint(bytes, 8).Ok? ==> TakeUint(bytes, 8).value.0 <= U64_MAX
  {
    if |bytes| >= 8 {
      UintIsRead(bytes, 8);
      Widths();
    }
  }

  // A validated field always fits its two-byte length.
  method PutText(output: seq<byte>, value: string) returns (r: seq<byte>)
    requires Size(value) <= U16_MAX
    ensures r == output + PutString(value, 2)
  {
    var bytes := Utf8(value);
    r := output + ToLE(|bytes|, 2);
    r := r + bytes;
  }

  method EncodeCommandBytes(c: Command, maximum: nat) returns (r: Result<seq<byte>, FrameError>)
    requires Limit(maximum)
    ensures r == EncodeCommand(c, maximum)
  {
    hide PutString, ToLE, Blank, Size;
    var _ :- Validate(c, maximum);
    var output: seq<byte> := [];
    output := PutText(output, c.commandId);
    output := PutText(output, c.traceId);
    output := PutText(output, c.actor);
    output := output + ToLE(c.issuedWallNs, 8);
    output := output + ToLE(c.expectedStateVersion, 8);
    output := PutText(output, c.idempotencyKey);
    output := output + ToLE(|c.payload|, 4);
    output := output + c.payload;
    Reassociate(PutString(c.commandId, 2), PutString(c.traceId, 2), PutString(c.actor, 2), ToLE(c.issuedWallNs, 8),
                ToLE(c.expectedStateVersion, 8), PutString(c.idempotencyKey, 2), ToLE(|c.payload|, 4), c.payload);
    return Ok(output);
  }

  lemma Reassociate(a: seq<byte>, b: seq<byte>, c: seq<byte>, d: seq<byte>, e: seq<byte>, f: seq<byte>, g: seq<byte>,
                    h: seq<byte>)
    ensures [] + a + b + c + d + e + f + g + h == a + (b + (c + (d + (e + (f + (g + h))))))
  {
  }

  method ReadIds(cursor: Cursor) returns (r: Result<(string, string, string), FrameError>)
    requires cursor.Valid()
    modifies cursor
    ensures cursor.Valid()
    ensures var spec := TakeIds(old(cursor.Rest()));
            if spec.Ok? then r == Ok(spec.value.0) && cursor.Rest() == spec.value.1 else r == Err(spec.error)
  {
    hide TakeString;
    var field := cursor.Str(2, MAX_CORRELATION_ID_BYTES);
    var commandId :- Lift(field);
    field := cursor.Str(2, MAX_CORRELATION_ID_BYTES);
    var traceId :- Lift(field);
    field := cursor.Str(2, MAX_ACTOR_BYTES);
    var actor :- Lift(field);
    return Ok((commandId, traceId, actor));
  }

  method ReadNumbers(cursor: Cursor) returns (r: Result<(u64, u64), FrameError>)
    requires cursor.Valid()
    modifies cursor
    ensures cursor.Valid()
    ensures var spec := TakeNumbers(old(cursor.Rest()));
            if spec.Ok? then r == Ok(spec.value.0) && cursor.Rest() == spec.value.1 else r == Err(spec.error)
  {
    hide TakeUint;
    UintFits(cursor.Rest());
    var number := cursor.Uint(8);
    var issued :- Lift(number);
    UintFits(cursor.Rest());
    number := cursor.Uint(8);
    var version :- Lift(number);
    return Ok((issued, version));
  }

  method ReadTail(cursor: Cursor, maximum: nat) returns (r: Result<(string, seq<byte>), FrameError>)
    requires cursor.Valid()
    modifies cursor
    ensures cursor.Valid()
    ensures var spec := TakeTail(old(cursor.Rest()), maximum);
            if spec.Ok? then r == Ok(spec.value.0) && cursor.Rest() == spec.value.1 else r == Err(spec.error)
  {
    hide TakeString, TakeBlock;
    var field := cursor.Str(2, MAX_CORRELATION_ID_BYTES);
    var key :- Lift(field);
    var block := cursor.Block(4, maximum);
    var payload :- Lift(block);
    return Ok((key, payload));
  }

  method DecodeCommandBytes(bytes: seq<byte>, maximum: nat) returns (r: Result<Command, FrameError>)
    ensures r == DecodeCommand(bytes, maximum)
  {
    hide TakeIds, TakeNumbers, TakeTail, Validate;
    var cursor := new Cursor(bytes, 0);
    assert cursor.Rest() == bytes;
    var ids :- ReadIds(cursor);
    var numbers :- ReadNumbers(cursor);
    var tail :- ReadTail(cursor, maximum);
    var command := Command(ids.0, ids.1, ids.2, numbers.0, numbers.1, tail.0, tail.1);
    if cursor.at != |bytes| {
      return Err(LengthMismatch(cursor.at, |bytes|));
    }
    var _ :- Validate(command, maximum);
    return Ok(command);
  }

  lemma IdsRead(id: string, trace: string, actor: string, rest: seq<byte>)
    requires Size(id) <= 256 && Size(trace) <= 256 && Size(actor) <= 128
    ensures TakeIds(PutString(id, 2) + (PutString(trace, 2) + (PutString(actor, 2) + rest)))
              == Ok(((id, trace, actor), rest))
  {
    hide PutString, TakeString, Size;
    Widths();
    StringReads(id, 2, 256, PutString(trace, 2) + (PutString(actor, 2) + rest));
    StringReads(trace, 2, 256, PutString(actor, 2) + rest);
    StringReads(actor, 2, 128, rest);
  }

  lemma IdsAreRead(bytes: seq<byte>)
    requires TakeIds(bytes).Ok?
    ensures var r := TakeIds(bytes).value;
            bytes == PutString(r.0.0, 2) + (PutString(r.0.1, 2) + (PutString(r.0.2, 2) + r.1))
  {
    hide PutString, TakeString, Size;
    StringIsRead(bytes, 2, 256);
    var trace := TakeString(bytes, 2, 256).value.1;
    StringIsRead(trace, 2, 256);
    StringIsRead(TakeString(trace, 2, 256).value.1, 2, 128);
  }

  lemma NumbersRead(issued: u64, version: u64, rest: seq<byte>)
    ensures TakeNumbers(ToLE(issued, 8) + (ToLE(version, 8) + rest)) == Ok(((issued, version), rest))
  {
    hide ToLE, TakeUint;
    Widths();
    UintReads(issued, 8, ToLE(version, 8) + rest);
    UintReads(version, 8, rest);
  }

  lemma NumbersAreRead(bytes: seq<byte>)
    requires TakeNumbers(bytes).Ok?
    ensures var r := TakeNumbers(bytes).value; bytes == ToLE(r.0.0, 8) + (ToLE(r.0.1, 8) + r.1)
  {
    hide ToLE, TakeUint;
    UintIsRead(bytes, 8);
    UintIsRead(TakeUint(bytes, 8).value.1, 8);
  }

  lemma TailRead(key: string, payload: seq<byte>, maximum: nat, rest: seq<byte>)
    requires Size(key) <= 256 && |payload| <= maximum <= U32_MAX
    ensures TakeTail(PutString(key, 2) + (PutBlock(payload, 4) + rest), maximum) == Ok(((key, payload), rest))
  {
    hide PutString, TakeString, PutBlock, TakeBlock, Size;
    Widths();
    StringReads(key, 2, 256, PutBlock(payload, 4) + rest);
    BlockReads(payload, 4, maximum, rest);
  }

  lemma TailIsRead(bytes: seq<byte>, maximum: nat)
    requires TakeTail(bytes, maximum).Ok?
    ensures var r := TakeTail(bytes, maximum).value; bytes == PutString(r.0.0, 2) + (PutBlock(r.0.1, 4) + r.1)
  {
    hide PutString, TakeString, PutBlock, TakeBlock, Size;
    StringIsRead(bytes, 2, 256);
    BlockIsRead(TakeString(bytes, 2, 256).value.1, 4, maximum);
  }

  // A command codec is canonical: bytes decode to a command exactly when the command encodes to them.
  lemma CommandCanonical(c: Command, bytes: seq<byte>, maximum: nat)
    requires Limit(maximum)
    ensures DecodeCommand(bytes, maximum) == Ok(c) <==> EncodeCommand(c, maximum) == Ok(bytes)
  {
    hide Validate, TakeCommand, CommandBytes;
    if EncodeCommand(c, maximum) == Ok(bytes) {
      CommandReads(c, [], maximum);
      assert bytes + [] == bytes;
    }
    if DecodeCommand(bytes, maximum) == Ok(c) {
      CommandIsRead(bytes, maximum);
    }
  }

  lemma CommandReads(c: Command, rest: seq<byte>, maximum: nat)
    requires Limit(maximum) && Validate(c, maximum).Ok?
    ensures TakeCommand(CommandBytes(c) + rest, maximum) == Ok((c, rest))
  {
    hide TakeIds, TakeNumbers, TakeTail, PutString, PutBlock, ToLE, Size, Blank;
    var tail := PutString(c.idempotencyKey, 2) + (PutBlock(c.payload, 4) + rest);
    Reassociated(PutString(c.commandId, 2), PutString(c.traceId, 2), PutString(c.actor, 2), ToLE(c.issuedWallNs, 8),
                 ToLE(c.expectedStateVersion, 8), PutString(c.idempotencyKey, 2), PutBlock(c.payload, 4), rest);
    TailRead(c.idempotencyKey, c.payload, maximum, rest);
    NumbersRead(c.issuedWallNs, c.expectedStateVersion, tail);
    IdsRead(c.commandId, c.traceId, c.actor, ToLE(c.issuedWallNs, 8) + (ToLE(c.expectedStateVersion, 8) + tail));
  }

  lemma Reassociated(a: seq<byte>, b: seq<byte>, c: seq<byte>, d: seq<byte>, e: seq<byte>, f: seq<byte>, g: seq<byte>,
                     h: seq<byte>)
    ensures (a + (b + (c + (d + (e + (f + g)))))) + h == a + (b + (c + (d + (e + (f + (g + h))))))
  {
  }

  lemma CommandIsRead(bytes: seq<byte>, maximum: nat)
    requires TakeCommand(bytes, maximum).Ok? && TakeCommand(bytes, maximum).value.1 == []
    ensures CommandBytes(TakeCommand(bytes, maximum).value.0) == bytes
  {
    hide TakeIds, TakeNumbers, TakeTail, PutString, PutBlock, ToLE;
    IdsAreRead(bytes);
    var numbers := TakeIds(bytes).value.1;
    NumbersAreRead(numbers);
    var tail := TakeNumbers(numbers).value.1;
    TailIsRead(tail, maximum);
    var payload := TakeTail(tail, maximum).value.0.1;
    assert PutBlock(payload, 4) + [] == PutBlock(payload, 4);
  }

  // --- responses and frames ---

  function EncodeResponse(r: Response, maximum: nat): Result<seq<byte>, FrameError> {
    if |r.payload| > maximum then Err(TooLarge(|r.payload|))
    else Ok(ToLE(r.stateVersion, 8) + (ToLE(|r.payload|, 4) + r.payload))
  }

  function DecodeResponse(bytes: seq<byte>, maximum: nat): Result<Response, FrameError> {
    if |bytes| < 12 then Err(Incomplete) else
    var declared := FromLE(bytes[8..12]);
    if declared > maximum then Err(TooLarge(declared))
    else if declared != |bytes| - 12 then Err(LengthMismatch(declared, |bytes| - 12))
    else
      VersionFits(bytes[..8]);
      Ok(Response(FromLE(bytes[..8]), bytes[12..]))
  }

  lemma VersionFits(bytes: seq<byte>)
    requires |bytes| == 8
    ensures FromLE(bytes) <= U64_MAX
  {
    ToFromLE(bytes);
    Widths();
  }

  lemma ResponseCanonical(r: Response, bytes: seq<byte>, maximum: nat)
    requires Limit(maximum)
    ensures DecodeResponse(bytes, maximum) == Ok(r) <==> EncodeResponse(r, maximum) == Ok(bytes)
  {
    hide ToLE, FromLE;
    Widths();
    if EncodeResponse(r, maximum) == Ok(bytes) {
      FromToLE(r.stateVersion, 8);
      FromToLE(|r.payload|, 4);
      assert bytes[..8] == ToLE(r.stateVersion, 8) && bytes[8..12] == ToLE(|r.payload|, 4) && bytes[12..] == r.payload;
    }
    if DecodeResponse(bytes, maximum) == Ok(r) {
      ToFromLE(bytes[..8]);
      ToFromLE(bytes[8..12]);
      assert bytes == bytes[..8] + (bytes[8..12] + bytes[12..]);
    }
  }

  function EncodeFrame(payload: seq<byte>, maximum: nat): Result<seq<byte>, FrameError> {
    if |payload| > maximum then Err(TooLarge(|payload|)) else Ok(PutBlock(payload, 4))
  }

  function DecodeFrame(frame: seq<byte>, maximum: nat): Result<seq<byte>, FrameError> {
    if |frame| < 4 then Err(Incomplete) else
    var declared := FromLE(frame[..4]);
    if declared > maximum then Err(TooLarge(declared))
    else if declared != |frame| - 4 then Err(LengthMismatch(declared, |frame| - 4))
    else Ok(frame[4..])
  }

  lemma FrameCanonical(payload: seq<byte>, frame: seq<byte>, maximum: nat)
    requires Limit(maximum)
    ensures DecodeFrame(frame, maximum) == Ok(payload) <==> EncodeFrame(payload, maximum) == Ok(frame)
  {
    hide ToLE, FromLE;
    Widths();
    if EncodeFrame(payload, maximum) == Ok(frame) {
      FromToLE(|payload|, 4);
      assert frame[..4] == ToLE(|payload|, 4) && frame[4..] == payload;
    }
    if DecodeFrame(frame, maximum) == Ok(payload) {
      ToFromLE(frame[..4]);
      assert frame == frame[..4] + frame[4..];
    }
  }

  // --- the error a handler reports ---

  // IT_IPC_REMOTE_ERROR_V1 and a zero byte
  const REMOTE_ERROR_MAGIC: seq<byte> :=
    [0x49, 0x54, 0x5F, 0x49, 0x50, 0x43, 0x5F, 0x52, 0x45, 0x4D, 0x4F, 0x54, 0x45, 0x5F, 0x45, 0x52, 0x52, 0x4F, 0x52,
     0x5F, 0x56, 0x31, 0x00]

  const MAX_REMOTE_ERROR_BYTES: nat := 4_096
  const UNAVAILABLE: string := "remote command rejected; diagnostic unavailable"

  function Diagnostic(value: string): string {
    if value == "" || Size(value) > MAX_REMOTE_ERROR_BYTES then UNAVAILABLE else value
  }

  function EncodeRemoteError(value: string): seq<byte> {
    REMOTE_ERROR_MAGIC + PutString(Diagnostic(value), 2)
  }

  function DecodeRemoteError(bytes: seq<byte>): Result<Option<string>, FrameError> {
    if !(REMOTE_ERROR_MAGIC <= bytes) then Ok(None) else
    var payload := bytes[|REMOTE_ERROR_MAGIC|..];
    if |payload| < 2 then Err(Incomplete) else
    var length := FromLE(payload[..2]);
    if length == 0 || length > MAX_REMOTE_ERROR_BYTES then Err(TooLarge(length))
    else if |payload[2..]| != length then Err(LengthMismatch(length, |payload[2..]|))
    else
      match FromUtf8(payload[2..])
      case None => Err(Incomplete)
      case Some(text) => Ok(Some(text))
  }

  // The bytes of an error: the marker, and the diagnostic behind its length.
  lemma RemoteErrorLayout(value: string)
    ensures var text, bytes := Diagnostic(value), EncodeRemoteError(value);
            && (forall i | 0 <= i < 22 :: i < |bytes| && bytes[i] == "IT_IPC_REMOTE_ERROR_V1"[i] as int)
            && bytes[22..] == [0] + ToLE(Size(text), 2) + Utf8(text)
  {
    hide Utf8, Diagnostic, ToLE;
    var text := Diagnostic(value);
    assert REMOTE_ERROR_MAGIC[22..] == [0];
    assert EncodeRemoteError(value)[22..] == REMOTE_ERROR_MAGIC[22..] + PutString(text, 2);
  }

  lemma DiagnosticFits(value: string)
    ensures 1 <= Size(Diagnostic(value)) <= MAX_REMOTE_ERROR_BYTES
  {
    hide Size;
    SizeBounds(UNAVAILABLE);
    SizeBounds(value);
  }

  // Error bodies are read as errors, and hold the diagnostic.
  lemma RemoteErrorReads(value: string)
    ensures DecodeRemoteError(EncodeRemoteError(value)) == Ok(Some(Diagnostic(value)))
    ensures Diagnostic(value) == if 1 <= Size(value) <= 4_096 then value
                                 else "remote command rejected; diagnostic unavailable"
  {
    hide Utf8, FromUtf8, ToLE, FromLE;
    EmptySize();
    SizeBounds(value);
    var bytes := EncodeRemoteError(value);
    DiagnosticFits(value);
    var text := Utf8(Diagnostic(value));
    Widths();
    FromToLE(|text|, 2);
    FromToUtf8(Diagnostic(value));
    assert bytes[|REMOTE_ERROR_MAGIC|..] == ToLE(|text|, 2) + text;
    assert (ToLE(|text|, 2) + text)[..2] == ToLE(|text|, 2) && (ToLE(|text|, 2) + text)[2..] == text;
  }

  lemma RemoteErrorIsRead(bytes: seq<byte>)
    requires DecodeRemoteError(bytes).Ok? && DecodeRemoteError(bytes).value.Some?
    ensures EncodeRemoteError(DecodeRemoteError(bytes).value.value) == bytes
  {
    hide Utf8, FromUtf8, ToLE, FromLE;
    var payload := bytes[|REMOTE_ERROR_MAGIC|..];
    var text := DecodeRemoteError(bytes).value.value;
    ToFromUtf8(payload[2..]);
    ToFromLE(payload[..2]);
    assert text != "" by { EmptySize(); }
    assert payload == payload[..2] + payload[2..];
    assert bytes == REMOTE_ERROR_MAGIC + payload;
  }

  lemma EmptySize()
    ensures Utf8("") == []
  {
  }

  // --- one connection ---

  const MAX_REQUESTS_PER_CONNECTION: nat := 256

  // Payload bounds both ends can be created with; their frames may be 64 bytes longer.
  predicate ChannelLimit(maximum: nat) { Limit(maximum) && Limit(FrameLimit(maximum)) }

  function FrameLimit(maximum: nat): nat { maximum + 64 }

  datatype ServerError = ServerIo | ServerFrame(error: FrameError) | Handler(text: string)

  datatype ClientError = ClientIo | ClientFrame(error: FrameError) | Protocol(error: FrameError) | Remote(text: string)

  // One frame off a stream: nothing if the stream ends within the prefix.
  function ReadFrame(input: seq<byte>, maximum: nat): Result<Option<(seq<byte>, seq<byte>)>, ServerError> {
    if |input| < 4 then Ok(None) else
    var declared := FromLE(input[..4]);
    if declared > FrameLimit(maximum) then Err(ServerFrame(TooLarge(declared)))
    else if |input| < 4 + declared then Err(ServerIo)
    else Ok(Some((input[..4 + declared], input[4 + declared..])))
  }

  function Answer(outcome: Result<Response, string>, maximum: nat): Result<seq<byte>, FrameError> {
    match outcome
    case Ok(response) =>
      var body :- EncodeResponse(response, maximum);
      EncodeFrame(body, FrameLimit(maximum))
    case Err(text) => EncodeFrame(EncodeRemoteError(text), FrameLimit(maximum))
  }

  function Parse(frame: seq<byte>, maximum: nat): Result<Command, FrameError> {
    var payload :- DecodeFrame(frame, FrameLimit(maximum));
    DecodeCommand(payload, maximum)
  }

  // What a connection writes back, and how it ends.
  function Serve(input: seq<byte>, handler: (nat, Command) -> Result<Response, string>, served: nat, maximum: nat)
    : (seq<byte>, Result<(), ServerError>)
    decreases MAX_REQUESTS_PER_CONNECTION - served
  {
    if served >= MAX_REQUESTS_PER_CONNECTION then ([], Ok(())) else
    match ReadFrame(input, maximum)
    case Err(error) => ([], Err(error))
    case Ok(None) => ([], Ok(()))
    case Ok(Some((frame, rest))) =>
      match Parse(frame, maximum)
      case Err(error) => ([], Err(ServerFrame(error)))
      case Ok(command) =>
        var outcome := handler(served, command);
        match Answer(outcome, maximum)
        case Err(error) => ([], Err(ServerFrame(error)))
        case Ok(answer) =>
          if outcome.Err? then (answer, Err(Handler(outcome.error))) else
          var later := Serve(rest, handler, served + 1, maximum);
          (answer + later.0, later.1)
  }

  method ServeNext(input: seq<byte>, handler: (nat, Command) -> Result<Response, string>, maximum: nat)
    returns (output: seq<byte>, r: Result<(), ServerError>)
    ensures (output, r) == Serve(input, handler, 0, maximum)
  {
    hide ReadFrame, Parse, Answer;
    output := [];
    var stream := input;
    assert [] + Serve(input, handler, 0, maximum).0 == Serve(input, handler, 0, maximum).0;
    for i := 0 to MAX_REQUESTS_PER_CONNECTION
      invariant var later := Serve(stream, handler, i, maximum);
                Serve(input, handler, 0, maximum) == (output + later.0, later.1)
    {
      assert output + [] == output;
      match ReadFrame(stream, maximum) {
        case Err(error) => return output, Err(error);
        case Ok(None) => return output, Ok(());
        case Ok(Some((frame, rest))) =>
          match Parse(frame, maximum) {
            case Err(error) => return output, Err(ServerFrame(error));
            case Ok(command) =>
              var outcome := handler(i, command);
              match Answer(outcome, maximum) {
                case Err(error) => return output, Err(ServerFrame(error));
                case Ok(answer) =>
                  ghost var later := Serve(rest, handler, i + 1, maximum);
                  assert output + (answer + later.0) == (output + answer) + later.0;
                  output := output + answer;
                  if outcome.Err? {
                    return output, Err(Handler(outcome.error));
                  }
                  stream := rest;
              }
          }
      }
    }
    assert output + [] == output;
    return output, Ok(());
  }

  function Request(command: Command, maximum: nat): Result<seq<byte>, FrameError> {
    var body :- EncodeCommand(command, maximum);
    EncodeFrame(body, FrameLimit(maximum))
  }

  // What the client makes of the bytes it receives.
  function Receive(input: seq<byte>, maximum: nat): Result<Response, ClientError> {
    match ReadFrame(input, maximum)
    case Ok(None) => Err(ClientIo)
    case Err(ServerFrame(error)) => Err(ClientFrame(error))
    case Err(_) => Err(ClientIo)
    case Ok(Some((frame, _))) =>
      match DecodeFrame(frame, FrameLimit(maximum))
      case Err(error) => Err(ClientFrame(error))
      case Ok(body) =>
        match DecodeRemoteError(body)
        case Err(error) => Err(Protocol(error))
        case Ok(Some(text)) => Err(Remote(text))
        case Ok(None) =>
          match DecodeResponse(body, maximum)
          case Err(error) => Err(Protocol(error))
          case Ok(response) => Ok(response)
  }

  // --- end to end ---

  // A response whose encoding begins like an error: 0x544F4D45 is "EMOT" as a length.
  predicate Spells(r: Response) {
    && ToLE(r.stateVersion, 8) == REMOTE_ERROR_MAGIC[..8]
    && |r.payload| == 0x544F_4D45
    && REMOTE_ERROR_MAGIC[12..] <= r.payload
  }

  lemma MagicLength()
    ensures FromLE(REMOTE_ERROR_MAGIC[8..12]) == 0x544F_4D45
  {
    var m := REMOTE_ERROR_MAGIC[8..12];
    assert m == [0x45, 0x4D, 0x4F, 0x54];
    assert m[1..] == [0x4D, 0x4F, 0x54] && m[1..][1..] == [0x4F, 0x54] && m[1..][1..][1..] == [0x54];
    assert FromLE([0x54]) == 0x54 by { assert [0x54][1..] == []; }
    assert FromLE(m[1..][1..]) == 0x4F + 256 * 0x54;
    assert FromLE(m[1..]) == 0x4D + 256 * (0x4F + 256 * 0x54);
  }

  lemma Prefix3(m: seq<byte>, a: seq<byte>, b: seq<byte>, c: seq<byte>)
    requires |m| == 23 && |a| == 8 && |b| == 4
    ensures m <= a + (b + c) <==> a == m[..8] && b == m[8..12] && m[12..] <= c
  {
    if m <= a + (b + c) {
      assert a + (b + c) == m + (a + (b + c))[23..];
      assert (a + (b + c))[..8] == a && (a + (b + c))[8..12] == b && (a + (b + c))[12..] == c;
      assert c[..11] == (a + (b + c))[12..23];
    }
    if a == m[..8] && b == m[8..12] && m[12..] <= c {
      assert m == m[..8] + (m[8..12] + m[12..]);
      assert c == m[12..] + c[11..];
      assert a + (b + c) == m + c[11..];
    }
  }

  lemma SpellsExactly(r: Response, maximum: nat)
    requires Limit(maximum) && |r.payload| <= maximum
    ensures REMOTE_ERROR_MAGIC <= EncodeResponse(r, maximum).value <==> Spells(r)
  {
    hide ToLE, FromLE;
    MagicLength();
    Widths();
    Prefix3(REMOTE_ERROR_MAGIC, ToLE(r.stateVersion, 8), ToLE(|r.payload|, 4), r.payload);
    FromToLE(|r.payload|, 4);
    ToFromLE(REMOTE_ERROR_MAGIC[8..12]);
  }

  // Such a response is too long for an error: the client reports a protocol failure.
  lemma SpelledIsRefused(r: Response, maximum: nat)
    requires Limit(maximum) && |r.payload| <= maximum && Spells(r)
    ensures DecodeRemoteError(EncodeResponse(r, maximum).value).Err?
  {
    hide ToLE, FromLE;
    SpellsExactly(r, maximum);
  }

  lemma FrameIsRead(payload: seq<byte>, rest: seq<byte>, maximum: nat)
    requires ChannelLimit(maximum) && |payload| <= FrameLimit(maximum)
    ensures ReadFrame(PutBlock(payload, 4) + rest, maximum) == Ok(Some((PutBlock(payload, 4), rest)))
    ensures DecodeFrame(PutBlock(payload, 4), FrameLimit(maximum)) == Ok(payload)
  {
    hide ToLE, FromLE;
    Widths();
    FromToLE(|payload|, 4);
    var frame := PutBlock(payload, 4);
    assert frame[..4] == ToLE(|payload|, 4) && frame[4..] == payload;
    assert (frame + rest)[..4] == ToLE(|payload|, 4);
    assert (frame + rest)[..4 + |payload|] == frame && (frame + rest)[4 + |payload|..] == rest;
  }

  // A request reaches the handler as it was sent, and its answer is all the connection writes.
  lemma RequestArrives(command: Command, handler: (nat, Command) -> Result<Response, string>, maximum: nat)
    requires ChannelLimit(maximum) && Request(command, maximum).Ok?
    ensures var outcome := handler(0, command);
            Serve(Request(command, maximum).value, handler, 0, maximum) ==
              match Answer(outcome, maximum)
              case Err(error) => ([], Err(ServerFrame(error)))
              case Ok(answer) => (answer, if outcome.Err? then Err(Handler(outcome.error)) else Ok(()))
  {
    hide DecodeCommand, DecodeFrame, ReadFrame, Answer, PutBlock, EncodeCommand;
    var body := EncodeCommand(command, maximum).value;
    CommandCanonical(command, body, maximum);
    FrameIsRead(body, [], maximum);
    assert PutBlock(body, 4) + [] == PutBlock(body, 4);
    NothingToServe(handler, maximum);
    if Answer(handler(0, command), maximum).Ok? {
      var answer := Answer(handler(0, command), maximum).value;
      assert answer + [] == answer;
    }
  }

  lemma NothingToServe(handler: (nat, Command) -> Result<Response, string>, maximum: nat)
    ensures Serve([], handler, 1, maximum) == ([], Ok(()))
  {
  }

  // The client ends with the handler's error, or with its response exactly unless that spells the
  // marker; then it reports a protocol failure, never another response and never an error text.
  lemma AnswerIsReceived(outcome: Result<Response, string>, maximum: nat)
    requires ChannelLimit(maximum) && Answer(outcome, maximum).Ok?
    ensures var received := Receive(Answer(outcome, maximum).value, maximum);
            match outcome
            case Err(text) => received == Err(Remote(Diagnostic(text)))
            case Ok(response) => if Spells(response) then received.Err? && received.error.Protocol?
              else received == Ok(response)
  {
    hide EncodeRemoteError, DecodeRemoteError, DecodeResponse, DecodeFrame, ReadFrame, PutBlock, Spells, ToLE;
    match outcome
    case Err(text) =>
      RemoteErrorReads(text);
      FrameIsRead(EncodeRemoteError(text), [], maximum);
      assert PutBlock(EncodeRemoteError(text), 4) + [] == PutBlock(EncodeRemoteError(text), 4);
    case Ok(response) =>
      var body := EncodeResponse(response, maximum).value;
      ResponseCanonical(response, body, maximum);
      FrameIsRead(body, [], maximum);
      assert PutBlock(body, 4) + [] == PutBlock(body, 4);
      NotAnError(response, maximum);
  }

  lemma NotAnError(r: Response, maximum: nat)
    requires Limit(maximum) && |r.payload| <= maximum
    ensures var read := DecodeRemoteError(EncodeResponse(r, maximum).value); if Spells(r) then read.Err?
              else read == Ok(None)
  {
    hide Spells, EncodeResponse;
    SpellsExactly(r, maximum);
    if Spells(r) {
      SpelledIsRefused(r, maximum);
    }
  }

  // Some response spells the marker exactly when the bound admits its length.
  lemma SpellingNeedsRoom(maximum: nat)
    requires ChannelLimit(maximum)
    ensures (exists r: Response :: |r.payload| <= maximum && Spells(r)) <==> maximum >= 0x544F_4D45
  {
    hide ToLE, FromLE;
    if maximum >= 0x544F_4D45 {
      ToFromLE(REMOTE_ERROR_MAGIC[..8]);
      Widths();
      var zeros: seq<byte> := seq(0x544F_4D45 - 11, i => 0);
      var r := Response(FromLE(REMOTE_ERROR_MAGIC[..8]), REMOTE_ERROR_MAGIC[12..] + zeros);
      assert |r.payload| <= maximum && Spells(r);
    }
  }

  // An answer goes out exactly when it fits: an error with its diagnostic, a response with its payload.
  lemma AnswerSucceedsExactly(outcome: Result<Response, string>, maximum: nat)
    ensures Answer(outcome, maximum).Ok? <==>
              if outcome.Ok? then |outcome.value.payload| <= maximum
              else 25 + Size(Diagnostic(outcome.error)) <= maximum + 64
  {
    hide Diagnostic, ToLE;
  }

  lemma CommandLength(c: Command)
    ensures |CommandBytes(c)| == 28 + Size(c.commandId) + Size(c.traceId) + Size(c.actor) + Size(c.idempotencyKey)
                                   + |c.payload|
  {
    hide ToLE, Utf8;
  }

  // A request goes out exactly when it is valid and its fields fit a frame.
  lemma RequestSucceedsExactly(c: Command, maximum: nat)
    ensures Request(c, maximum).Ok? <==>
              && Trim(c.commandId) != "" && Trim(c.traceId) != ""
              && Trim(c.actor) != "" && Trim(c.idempotencyKey) != ""
              && Size(c.commandId) <= 256 && Size(c.traceId) <= 256
              && Size(c.idempotencyKey) <= 256 && Size(c.actor) <= 128
              && |c.payload| <= maximum && c.issuedWallNs > 0
              && 28 + Size(c.commandId) + Size(c.traceId) + Size(c.actor) + Size(c.idempotencyKey) + |c.payload|
                   <= maximum + 64
  {
    hide CommandBytes, Size, Blank, Trim;
    BlankExactly(c.commandId);
    BlankExactly(c.traceId);
    BlankExactly(c.actor);
    BlankExactly(c.idempotencyKey);
    CommandLength(c);
  }

  // Which refusal a command gets: a missing identity first, then the longest identity, the payload, the time.
  lemma RefusalExactly(c: Command, maximum: nat)
    requires EncodeCommand(c, maximum).Err?
    ensures var error := EncodeCommand(c, maximum).error;
            var sizes := {Size(c.commandId), Size(c.traceId), Size(c.actor), Size(c.idempotencyKey)};
            if Trim(c.commandId) == "" || Trim(c.traceId) == "" || Trim(c.actor) == "" || Trim(c.idempotencyKey) == ""
            then error == Incomplete
            else if Size(c.commandId) > 256 || Size(c.traceId) > 256 || Size(c.idempotencyKey) > 256
                    || Size(c.actor) > 128
            then error.TooLarge? && error.length in sizes && forall size | size in sizes :: size <= error.length
            else if |c.payload| > maximum then error == TooLarge(|c.payload|)
            else error == Incomplete && c.issuedWallNs == 0
  {
    hide CommandBytes, Size, Blank, Trim;
    BlankExactly(c.commandId);
    BlankExactly(c.traceId);
    BlankExactly(c.actor);
    BlankExactly(c.idempotencyKey);
  }

  // A first length beyond its bound is reported, whatever follows; bytes that end before it are incomplete.
  lemma OversizedIdIsNamed(n: nat, rest: seq<byte>, maximum: nat)
    requires 256 < n <= U16_MAX
    ensures DecodeCommand(ToLE(n, 2) + rest, maximum) == Err(TooLarge(n))
    ensures |rest| < 2 ==> DecodeCommand(rest, maximum) == Err(Incomplete)
  {
    hide ToLE, FromLE;
    Widths();
    UintReads(n, 2, rest);
  }

  // Bytes behind a command are noticed.
  lemma ExtraIsSeen(c: Command, extra: seq<byte>, maximum: nat)
    requires Limit(maximum) && EncodeCommand(c, maximum).Ok? && extra != []
    ensures var bytes := EncodeCommand(c, maximum).value;
            DecodeCommand(bytes + extra, maximum) == Err(LengthMismatch(|bytes|, |bytes + extra|))
  {
    hide TakeCommand, CommandBytes;
    CommandReads(c, extra, maximum);
  }

  // --- many requests on one connection ---

  function Requests(commands: seq<Command>, maximum: nat): seq<byte>
    requires forall i | 0 <= i < |commands| :: Request(commands[i], maximum).Ok?
  {
    if commands == [] then [] else Request(commands[0], maximum).value + Requests(commands[1..], maximum)
  }

  function Answers(commands: seq<Command>, handler: (nat, Command) -> Result<Response, string>, served: nat,
                   maximum: nat): seq<byte>
    requires forall i | 0 <= i < |commands| :: Answer(handler(served + i, commands[i]), maximum).Ok?
    decreases |commands|
  {
    if commands == [] then [] else
    assert forall i | 0 <= i < |commands[1..]| ::
      handler(served + 1 + i, commands[1..][i]) == handler(served + (i + 1), commands[i + 1]);
    Answer(handler(served, commands[0]), maximum).value + Answers(commands[1..], handler, served + 1, maximum)
  }

  // The first of some requests, with anything behind it.
  lemma FirstIsServed(command: Command, rest: seq<byte>, handler: (nat, Command) -> Result<Response, string>,
                      served: nat, maximum: nat)
    requires ChannelLimit(maximum) && Request(command, maximum).Ok? && served < 256
    requires handler(served, command).Ok? && Answer(handler(served, command), maximum).Ok?
    ensures var later := Serve(rest, handler, served + 1, maximum);
            Serve(Request(command, maximum).value + rest, handler, served, maximum)
              == (Answer(handler(served, command), maximum).value + later.0, later.1)
  {
    hide DecodeCommand, DecodeFrame, ReadFrame, Answer, PutBlock, EncodeCommand;
    var body := EncodeCommand(command, maximum).value;
    CommandCanonical(command, body, maximum);
    FrameIsRead(body, rest, maximum);
  }

  // Requests sent without waiting are answered each and in their order, up to 256 of them; what comes behind
  // those is not read.
  lemma {:induction false} AllAreServed(commands: seq<Command>, rest: seq<byte>,
                                        handler: (nat, Command) -> Result<Response, string>, served: nat, maximum: nat)
    requires ChannelLimit(maximum) && served + |commands| <= 256
    requires forall i | 0 <= i < |commands| :: Request(commands[i], maximum).Ok?
    requires forall i | 0 <= i < |commands| ::
               handler(served + i, commands[i]).Ok? && Answer(handler(served + i, commands[i]), maximum).Ok?
    ensures var later := Serve(rest, handler, served + |commands|, maximum);
            && Serve(Requests(commands, maximum) + rest, handler, served, maximum)
                 == (Answers(commands, handler, served, maximum) + later.0, later.1)
            && (served + |commands| == 256 ==> later == ([], Ok(())))
    decreases |commands|
  {
    hide Request, Answer, Serve;
    if commands == [] {
      var later := Serve(rest, handler, served, maximum);
      assert [] + rest == rest && [] + later.0 == later.0;
      ServesNoMore(rest, handler, maximum);
    } else {
      var more := commands[1..];
      assert forall i | 0 <= i < |more| ::
        more[i] == commands[i + 1] && handler(served + 1 + i, more[i]) == handler(served + (i + 1), commands[i + 1]);
      AllAreServed(more, rest, handler, served + 1, maximum);
      FirstIsServed(commands[0], Requests(more, maximum) + rest, handler, served, maximum);
      Grouped(Request(commands[0], maximum).value, Requests(more, maximum), rest);
      Grouped(Answer(handler(served, commands[0]), maximum).value, Answers(more, handler, served + 1, maximum),
              Serve(rest, handler, served + |commands|, maximum).0);
    }
  }

  lemma ServesNoMore(rest: seq<byte>, handler: (nat, Command) -> Result<Response, string>, maximum: nat)
    ensures Serve(rest, handler, 256, maximum) == ([], Ok(()))
  {
  }

  lemma Grouped(a: seq<byte>, b: seq<byte>, c: seq<byte>)
    ensures a + (b + c) == a + b + c
  {
  }

  // The whole exchange, for every request that goes out: the client gets the handler's diagnostic or
  // response if that fits, a response only if it does not spell the marker, and otherwise the connection
  // ends without an answer.
  lemma Exchange(command: Command, handler: (nat, Command) -> Result<Response, string>, maximum: nat)
    requires ChannelLimit(maximum) && Request(command, maximum).Ok?
    ensures var received := Receive(Serve(Request(command, maximum).value, handler, 0, maximum).0, maximum);
            match handler(0, command)
            case Err(text) =>
              received ==
                Err(if 25 + Size(Diagnostic(text)) <= maximum + 64 then Remote(Diagnostic(text)) else ClientIo)
            case Ok(response) =>
              if |response.payload| > maximum then received == Err(ClientIo)
              else if Spells(response) then received.Err? && received.error.Protocol?
              else received == Ok(response)
  {
    hide Request, Serve, Receive, Answer, Spells, Diagnostic, Size;
    RequestArrives(command, handler, maximum);
    AnswerSucceedsExactly(handler(0, command), maximum);
    NoAnswer(maximum);
    if Answer(handler(0, command), maximum).Ok? {
      AnswerIsReceived(handler(0, command), maximum);
    }
  }

  lemma NoAnswer(maximum: nat)
    ensures Receive([], maximum) == Err(ClientIo)
  {
  }
}
