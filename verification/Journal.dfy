/**
 The append-only journal of crates/journal: framing, scanning, and recovery of the tail. A file is
 a sequence of bytes; the operating system's part in it is that a crash keeps a prefix of the bytes
 being written.
 */
module Journal {
  import opened Wrappers
  import opened Bytes
  import Crc = Crc32c

  const MAGIC: seq<byte> := [0x49, 0x54, 0x4a, 0x52]
  const VERSION: nat := 1
  const HEADER_LEN: nat := 18
  const TRAILER_LEN: nat := 4
  const MAX_JOURNAL_BYTES: nat := 512 * 1024 * 1024

  datatype Record = Record(sequence: nat, payload: seq<byte>)

  datatype JournalError =
    | Corrupt(offset: nat)
    | PayloadTooLarge(size: nat)
    | BoundsExceeded(size: nat)
    | Io

  datatype Scan = Scan(records: seq<Record>, validBytes: nat, hasInvalidTail: bool)

  // What a u64 sequence and a u32 length can hold.
  predicate Framable(r: Record) {
    r.sequence <= U64_MAX && |r.payload| <= U32_MAX
  }

  predicate AllFramable(rs: seq<Record>) {
    forall r | r in rs :: Framable(r)
  }

  function Header(r: Record): (h: seq<byte>)
    ensures |h| == HEADER_LEN
  {
    MAGIC + ToLE(VERSION, 2) + ToLE(r.sequence, 8) + ToLE(|r.payload|, 4)
  }

  function Frame(r: Record): (f: seq<byte>)
    ensures |f| == HEADER_LEN + |r.payload| + TRAILER_LEN
  {
    var message := Header(r) + r.payload;
    message + Crc.ChecksumBytes(Crc.POLYNOMIAL, message)
  }

  function Frames(rs: seq<Record>): seq<byte> {
    if rs == [] then [] else Frame(rs[0]) + Frames(rs[1..])
  }

  // --- reading ---

  datatype FrameRead = Torn | Unsupported | Whole(record: Record, length: nat)

  // What the scan makes of the bytes from one offset on.
  function ReadFrame(bytes: seq<byte>): (read: FrameRead)
    ensures read.Whole? ==> 0 < read.length <= |bytes|
  {
    if |bytes| < HEADER_LEN then Torn else
    var header := bytes[..HEADER_LEN];
    if header[..4] != MAGIC then Torn
    else if FromLE(header[4..6]) != VERSION then Unsupported
    else
      var message := HEADER_LEN + FromLE(header[14..18]);
      if message + TRAILER_LEN > |bytes| then Torn
      else if Crc.Checksum(Crc.POLYNOMIAL, bytes[..message]) != Crc.Stored(bytes[message..message + TRAILER_LEN]) then
        Torn
      else Whole(Record(FromLE(header[6..14]), bytes[HEADER_LEN..message]), message + TRAILER_LEN)
  }

  function ScanBytes(bytes: seq<byte>): (r: Result<Scan, JournalError>)
    ensures r.Ok? ==> r.value.validBytes <= |bytes|
  {
    if bytes == [] then Ok(Scan([], 0, false)) else
    match ReadFrame(bytes)
    case Torn => Ok(Scan([], 0, true))
    case Unsupported => Err(Corrupt(0))
    case Whole(record, length) =>
      assert 0 < length <= |bytes|;
      After([record], length, ScanBytes(bytes[length..]))
  }

  // The outcome of a scan that had already read some records.
  function After(records: seq<Record>, length: nat, rest: Result<Scan, JournalError>): Result<Scan, JournalError> {
    match rest
    case Ok(scan) => Ok(Scan(records + scan.records, length + scan.validBytes, scan.hasInvalidTail))
    case Err(Corrupt(offset)) => Err(Corrupt(length + offset))
    case Err(error) => Err(error)
  }

  // --- frames and their bytes ---

  lemma HeaderFields(r: Record)
    requires Framable(r)
    ensures var h := Header(r);
            && h[..4] == MAGIC
            && FromLE(h[4..6]) == VERSION
            && FromLE(h[6..14]) == r.sequence
            && FromLE(h[14..18]) == |r.payload|
  {
    hide ToLE, FromLE;
    Widths();
    FromToLE(VERSION, 2);
    FromToLE(r.sequence, 8);
    FromToLE(|r.payload|, 4);
    Parts(MAGIC, ToLE(VERSION, 2), ToLE(r.sequence, 8), ToLE(|r.payload|, 4));
  }

  lemma Parts(a: seq<byte>, b: seq<byte>, c: seq<byte>, d: seq<byte>)
    requires |a| == 4 && |b| == 2 && |c| == 8 && |d| == 4
    ensures var h := a + b + c + d; h[..4] == a && h[4..6] == b && h[6..14] == c && h[14..18] == d
  {
  }

  lemma HeaderOfFields(h: seq<byte>, r: Record)
    requires |h| == HEADER_LEN && h[..4] == MAGIC && FromLE(h[4..6]) == VERSION
    requires r.sequence == FromLE(h[6..14]) && |r.payload| == FromLE(h[14..18])
    ensures Framable(r) && h == Header(r)
  {
    Widths();
    ToFromLE(h[4..6]);
    ToFromLE(h[6..14]);
    ToFromLE(h[14..18]);
    assert h == h[..4] + h[4..6] + h[6..14] + h[14..18];
  }

  // The bytes of a frame: "ITJR", version 1, sequence, length, payload, and the CRC-32C of all that.
  lemma FrameLayout(r: Record)
    requires Framable(r)
    ensures var f, n := Frame(r), HEADER_LEN + |r.payload|;
            && HEADER_LEN == 18 && |f| == n + 4
            && f[..4] == [0x49, 0x54, 0x4A, 0x52] && f[4..6] == [1, 0]
            && FromLE(f[6..14]) == r.sequence && FromLE(f[14..18]) == |r.payload|
            && f[18..n] == r.payload
            && var remainder := Crc.Remainder(Crc.Dividend(seq(32, _ => true), Crc.BitsOf(f[..n])), Crc.Generator());
            && |remainder| == 32
            && Crc.BitsOf(f[n..]) == seq(32, i requires 0 <= i < 32 => !remainder[i])
  {
    hide Crc.Checksum, Crc.ChecksumBytes, Crc.Stored, FromLE, Header, Crc.POLYNOMIAL, Crc.Remainder, Crc.BitsOf;
    var f, message := Frame(r), Header(r) + r.payload;
    HeaderFields(r);
    HeaderStarts(r);
    assert f[..HEADER_LEN] == Header(r);
    assert f[4..6] == Header(r)[4..6] && f[6..14] == Header(r)[6..14] && f[14..18] == Header(r)[14..18];
    assert f[..|message|] == message && f[|message|..] == Crc.ChecksumBytes(Crc.POLYNOMIAL, message);
    Crc.StoredChecksum(Crc.POLYNOMIAL, message);
    StoredIsBits(f[|message|..]);
    Crc.ChecksumIsRemainder(message);
  }

  lemma StoredIsBits(t: seq<byte>)
    requires |t| == 4
    ensures Crc.Stored(t) == Crc.BitsOf(t)
  {
  }

  lemma HeaderStarts(r: Record)
    ensures Header(r)[..4] == [0x49, 0x54, 0x4A, 0x52] && Header(r)[4..6] == [1, 0]
  {
    assert ToLE(1, 2) == [1, 0] by {
      assert ToLE(0, 1) == [0];
    }
  }

  lemma FrameReads(r: Record, rest: seq<byte>)
    requires Framable(r)
    ensures ReadFrame(Frame(r) + rest) == Whole(r, |Frame(r)|)
  {
    hide Crc.Checksum, Crc.ChecksumBytes, Crc.Stored, FromLE, Header, Crc.POLYNOMIAL;
    var b := Frame(r) + rest;
    var message := Header(r) + r.payload;
    HeaderFields(r);
    Crc.StoredChecksum(Crc.POLYNOMIAL, message);
    assert b[..HEADER_LEN] == Header(r);
    assert b[HEADER_LEN..|message|] == r.payload;
    assert b[..|message|] == message;
    assert b[|message|..|message| + TRAILER_LEN] == Crc.ChecksumBytes(Crc.POLYNOMIAL, message);
  }

  // Only frames are read as records.
  lemma ReadsOnlyFrames(bytes: seq<byte>)
    requires ReadFrame(bytes).Whole?
    ensures var Whole(r, length) := ReadFrame(bytes);
            Framable(r) && length == |Frame(r)| <= |bytes| && bytes[..length] == Frame(r)
  {
    hide Crc.Checksum, Crc.ChecksumBytes, Crc.Stored, FromLE, Header, Crc.POLYNOMIAL;
    var Whole(r, length) := ReadFrame(bytes);
    var message := length - TRAILER_LEN;
    HeaderOfFields(bytes[..HEADER_LEN], r);
    assert bytes[..message] == Header(r) + r.payload;
    TrailerIsChecksum(bytes[..message], bytes[message..length]);
    assert bytes[..length] == bytes[..message] + bytes[message..length];
  }

  lemma TrailerIsChecksum(message: seq<byte>, trailer: seq<byte>)
    requires |trailer| == 4 && Crc.Checksum(Crc.POLYNOMIAL, message) == Crc.Stored(trailer)
    ensures trailer == Crc.ChecksumBytes(Crc.POLYNOMIAL, message)
  {
    hide Crc.Checksum, Crc.ChecksumBytes, Crc.POLYNOMIAL;
    Crc.StoredChecksum(Crc.POLYNOMIAL, message);
    Crc.BitsOfInjective(trailer, Crc.ChecksumBytes(Crc.POLYNOMIAL, message));
  }

  // A write that a crash cut short is never taken for a record.
  lemma CutFrameIsTorn(r: Record, k: nat)
    requires Framable(r) && k < |Frame(r)|
    ensures ReadFrame(Frame(r)[..k]) == Torn
  {
    hide Crc.Checksum, Crc.ChecksumBytes, Crc.Stored;
    if k >= HEADER_LEN {
      HeaderFields(r);
      assert Frame(r)[..k][..HEADER_LEN] == Header(r);
    }
  }

  // --- what a scan finds ---

  lemma ScanOfFrame(r: Record, rest: seq<byte>)
    requires Framable(r)
    ensures ScanBytes(Frame(r) + rest) == After([r], |Frame(r)|, ScanBytes(rest))
  {
    hide ReadFrame, Frame;
    FrameReads(r, rest);
    assert (Frame(r) + rest)[|Frame(r)|..] == rest;
  }

  lemma {:induction false} ScanOfFrames(rs: seq<Record>, rest: seq<byte>)
    requires AllFramable(rs)
    ensures ScanBytes(Frames(rs) + rest) == After(rs, |Frames(rs)|, ScanBytes(rest))
  {
    hide ReadFrame, Frame, ScanBytes, Framable;
    if rs == [] {
      assert Frames(rs) + rest == rest;
      AfterNothing(ScanBytes(rest));
    } else {
      var tail := Frames(rs[1..]) + rest;
      assert Frames(rs) + rest == Frame(rs[0]) + tail;
      ScanOfFrame(rs[0], tail);
      ScanOfFrames(rs[1..], rest);
      assert rs == [rs[0]] + rs[1..];
      AfterTwice([rs[0]], |Frame(rs[0])|, rs[1..], |Frames(rs[1..])|, ScanBytes(rest));
    }
  }

  lemma AfterNothing(rest: Result<Scan, JournalError>)
    ensures After([], 0, rest) == rest
  {
    if rest.Ok? {
      assert [] + rest.value.records == rest.value.records;
    }
  }

  lemma AfterTwice(a: seq<Record>, j: nat, b: seq<Record>, k: nat, rest: Result<Scan, JournalError>)
    ensures After(a, j, After(b, k, rest)) == After(a + b, j + k, rest)
  {
    if rest.Ok? {
      assert a + (b + rest.value.records) == a + b + rest.value.records;
    }
  }

  // The records found, framed again, are exactly the valid bytes.
  lemma {:induction false} ScanIsExact(bytes: seq<byte>)
    requires ScanBytes(bytes).Ok?
    ensures var s := ScanBytes(bytes).value;
            && AllFramable(s.records)
            && s.validBytes <= |bytes|
            && Frames(s.records) == bytes[..s.validBytes]
            && (s.hasInvalidTail <==> s.validBytes < |bytes|)
  {
    hide ReadFrame, Frame, Framable;
    if bytes != [] && ReadFrame(bytes).Whole? {
      ReadsOnlyFrames(bytes);
      var Whole(r, length) := ReadFrame(bytes);
      ScanIsExact(bytes[length..]);
      var s, t := ScanBytes(bytes).value, ScanBytes(bytes[length..]).value;
      assert s.records[1..] == t.records;
      assert bytes[..s.validBytes] == bytes[..length] + bytes[length..][..t.validBytes];
    }
  }

  // No longer run of frames starts the file: any such run is a first part of the records found.
  lemma ScanIsMaximal(bytes: seq<byte>, rs: seq<Record>)
    requires ScanBytes(bytes).Ok?
    requires AllFramable(rs)
    requires Frames(rs) <= bytes
    ensures rs <= ScanBytes(bytes).value.records
    ensures |Frames(rs)| <= ScanBytes(bytes).value.validBytes
  {
    hide ReadFrame, Frame, Framable, ScanBytes, Frames;
    var rest := bytes[|Frames(rs)|..];
    assert bytes == Frames(rs) + rest;
    ScanOfFrames(rs, rest);
  }

  // Scanning what recovery keeps finds the same records and no invalid tail.
  lemma RescanIsClean(bytes: seq<byte>)
    requires ScanBytes(bytes).Ok?
    ensures var s := ScanBytes(bytes).value;
            && s.validBytes <= |bytes|
            && ScanBytes(bytes[..s.validBytes]) == Ok(Scan(s.records, s.validBytes, false))
  {
    hide ReadFrame, Frame, Framable, Frames;
    var s := ScanBytes(bytes).value;
    ScanIsExact(bytes);
    ScanOfCleanFrames(s.records);
  }

  lemma ScanOfCleanFrames(rs: seq<Record>)
    requires AllFramable(rs)
    ensures ScanBytes(Frames(rs)) == Ok(Scan(rs, |Frames(rs)|, false))
  {
    hide ReadFrame, Frame, Framable, Frames;
    ScanOfFrames(rs, []);
    assert Frames(rs) + [] == Frames(rs);
    assert rs + [] == rs;
  }

  // The scan the code runs: one pass over an offset, pushing records.
  function ScanFile(bytes: seq<byte>): Result<Scan, JournalError> {
    if |bytes| > MAX_JOURNAL_BYTES then Err(BoundsExceeded(|bytes|)) else ScanBytes(bytes)
  }

  method ScanPath(bytes: seq<byte>) returns (r: Result<Scan, JournalError>)
    ensures r == ScanFile(bytes)
    ensures r.Ok? ==> r.value.validBytes <= |bytes|
  {
    hide ReadFrame;
    if |bytes| > MAX_JOURNAL_BYTES {
      return Err(BoundsExceeded(|bytes|));
    }
    var offset := 0;
    var records := [];
    AfterNothing(ScanBytes(bytes));
    while offset < |bytes|
      invariant offset <= |bytes|
      invariant ScanBytes(bytes) == After(records, offset, ScanBytes(bytes[offset..]))
    {
      var read := ReadAt(bytes, offset);
      match read {
        case Torn =>
          assert records + [] == records;
          return Ok(Scan(records, offset, true));
        case Unsupported =>
          return Err(Corrupt(offset));
        case Whole(record, length) =>
          AfterTwice(records, offset, [record], length, ScanBytes(bytes[offset + length..]));
          assert bytes[offset..][length..] == bytes[offset + length..];
          records := records + [record];
          offset := offset + length;
      }
    }
    assert records + [] == records;
    return Ok(Scan(records, offset, false));
  }

  // The body of the scan loop, on the buffer itself.
  method ReadAt(bytes: seq<byte>, offset: nat) returns (read: FrameRead)
    requires offset < |bytes|
    ensures read == ReadFrame(bytes[offset..])
    ensures read.Whole? ==> 0 < read.length <= |bytes| - offset
  {
    hide Crc.Checksum, Crc.Stored, FromLE;
    var remaining := |bytes| - offset;
    ghost var rest := bytes[offset..];
    if remaining < HEADER_LEN {
      return Torn;
    }
    HeaderSlices(bytes, offset);
    if bytes[offset..offset + 4] != MAGIC {
      return Torn;
    }
    if FromLE(bytes[offset + 4..offset + 6]) != VERSION {
      return Unsupported;
    }
    var sequence := FromLE(bytes[offset + 6..offset + 14]);
    var length := FromLE(bytes[offset + 14..offset + 18]);
    var frameLen := HEADER_LEN + length + TRAILER_LEN;
    if frameLen > remaining {
      return Torn;
    }
    var message := offset + HEADER_LEN + length;
    assert bytes[offset..message] == rest[..HEADER_LEN + length];
    assert bytes[message..message + TRAILER_LEN] == rest[HEADER_LEN + length..frameLen];
    assert bytes[offset + HEADER_LEN..message] == rest[HEADER_LEN..HEADER_LEN + length];
    var checksum := Crc.Compute(Crc.POLYNOMIAL, bytes[offset..message]);
    if checksum != Crc.Stored(bytes[message..message + TRAILER_LEN]) {
      return Torn;
    }
    return Whole(Record(sequence, bytes[offset + HEADER_LEN..message]), frameLen);
  }

  lemma HeaderSlices(bytes: seq<byte>, offset: nat)
    requires offset + HEADER_LEN <= |bytes|
    ensures var h := bytes[offset..][..HEADER_LEN];
            && bytes[offset..offset + 4] == h[..4] && bytes[offset + 4..offset + 6] == h[4..6]
            && bytes[offset + 6..offset + 14] == h[6..14] && bytes[offset + 14..offset + 18] == h[14..18]
  {
  }

  // --- corruption ---

  // Any change to one frame that is confined to four consecutive bytes and leaves its version and
  // length fields alone stops the scan exactly at that frame, with every earlier record intact,
  // whatever follows.
  lemma CorruptionStopsScan(before: seq<Record>, r: Record, got: seq<byte>, at: nat, rest: seq<byte>)
    requires AllFramable(before) && Framable(r)
    requires |got| == |Frame(r)| && got != Frame(r) && at + 4 <= |got|
    requires forall i | 0 <= i < |got| && !(at <= i < at + 4) :: got[i] == Frame(r)[i]
    requires got[4..6] == Frame(r)[4..6] && got[14..18] == Frame(r)[14..18]
    ensures ScanBytes(Frames(before) + got + rest) == Ok(Scan(before, |Frames(before)|, true))
  {
    hide ReadFrame, Frame, Framable, Frames;
    CorruptFrameIsTorn(r, got, at, rest);
    ScanOfFrames(before, got + rest);
    assert Frames(before) + got + rest == Frames(before) + (got + rest);
    assert before + [] == before;
  }

  lemma CorruptFrameIsTorn(r: Record, got: seq<byte>, at: nat, rest: seq<byte>)
    requires Framable(r)
    requires |got| == |Frame(r)| && got != Frame(r) && at + 4 <= |got|
    requires forall i | 0 <= i < |got| && !(at <= i < at + 4) :: got[i] == Frame(r)[i]
    requires got[4..6] == Frame(r)[4..6] && got[14..18] == Frame(r)[14..18]
    ensures got + rest != [] && ReadFrame(got + rest) == Torn
  {
    hide Crc.Checksum, Crc.ChecksumBytes, Crc.Stored, FromLE, Header, Crc.POLYNOMIAL;
    var f, b := Frame(r), got + rest;
    var n := HEADER_LEN + |r.payload|;
    HeaderFields(r);
    assert f[..HEADER_LEN] == Header(r);
    assert f[4..6] == Header(r)[4..6] && f[14..18] == Header(r)[14..18];
    assert b[..HEADER_LEN][4..6] == got[4..6] && b[..HEADER_LEN][14..18] == got[14..18];
    assert f[..n] == Header(r) + r.payload;
    Crc.StoredChecksum(Crc.POLYNOMIAL, f[..n]);
    Crc.PolynomialTop();
    Crc.CorruptionSeen(Crc.POLYNOMIAL, f, got, n, at);
    assert b[..n] == got[..n] && b[n..n + TRAILER_LEN] == got[n..];
  }

  // --- the writer ---

  datatype Disk = Disk(bytes: seq<byte>, next: nat)

  function OpenDisk(bytes: seq<byte>): Result<Disk, JournalError> {
    match ScanFile(bytes)
    case Err(error) => Err(error)
    case Ok(scan) =>
      var kept := if scan.hasInvalidTail then bytes[..scan.validBytes] else bytes;
      Ok(Disk(kept, if scan.records == [] then 0 else Successor(scan.records[|scan.records| - 1].sequence)))
  }

  // u64 saturating_add(1)
  function Successor(sequence: nat): nat {
    if sequence >= U64_MAX then U64_MAX else sequence + 1
  }

  function AppendError(d: Disk, payload: seq<byte>): Option<JournalError> {
    var projected := |d.bytes| + |Frame(Record(d.next, payload))|;
    if |payload| > U32_MAX then Some(PayloadTooLarge(|payload|))
    else if projected > MAX_JOURNAL_BYTES then Some(BoundsExceeded(projected))
    else None
  }

  function AppendTo(d: Disk, payload: seq<byte>): Disk {
    if AppendError(d, payload).Some? then d
    else Disk(d.bytes + Frame(Record(d.next, payload)), Successor(d.next))
  }

  // --- calls that may fail ---

  datatype Write =
    | Succeeds(payload: seq<byte>)
    // the call fails once this many bytes reached the file; all of them if only the sync fails
    | Fails(payload: seq<byte>, written: nat)

  function Call(payload: seq<byte>, failsAfter: Option<nat>): Write {
    if failsAfter.Some? then Fails(payload, failsAfter.value) else Succeeds(payload)
  }

  predicate Complete(w: Write) { w.Succeeds? || w.written >= FrameSize(w.payload) }

  // What one call leaves in the file.
  function Left(d: Disk, w: Write): seq<byte> {
    var frame := Frame(Record(d.next, w.payload));
    if AppendError(d, w.payload).Some? then [] else if Complete(w) then frame else frame[..w.written]
  }

  function WriteTo(d: Disk, w: Write): Disk {
    if w.Succeeds? then AppendTo(d, w.payload) else Disk(d.bytes + Left(d, w), d.next)
  }

  class File {
    var bytes: seq<byte>

    constructor ()
      ensures bytes == []
    {
      bytes := [];
    }
  }

  class Writer {
    const file: File
    var nextSequence: nat

    ghost function State(): Disk
      reads this, file
    {
      Disk(file.bytes, nextSequence)
    }

    constructor (file: File, nextSequence: nat)
      ensures this.file == file && this.nextSequence == nextSequence
    {
      this.file := file;
      this.nextSequence := nextSequence;
    }

    static method Open(file: File) returns (r: Result<Writer, JournalError>)
      modifies file
      ensures match OpenDisk(old(file.bytes))
              case Ok(d) => r.Ok? && fresh(r.value) && r.value.file == file && r.value.State() == d
              case Err(error) => r == Err(error) && file.bytes == old(file.bytes)
    {
      hide ScanFile;
      var scanned := ScanPath(file.bytes);
      if scanned.Err? {
        return Err(scanned.error);
      }
      var scan := scanned.value;
      if scan.hasInvalidTail {
        file.bytes := file.bytes[..scan.validBytes];
      }
      var next := if scan.records == [] then 0 else Successor(scan.records[|scan.records| - 1].sequence);
      var writer := new Writer(file, next);
      return Ok(writer);
    }

    // How much a failing call writes is the operating system's choice, and a parameter.
    method Append(payload: seq<byte>, failsAfter: Option<nat>) returns (r: Result<nat, JournalError>)
      modifies this`nextSequence, file
      ensures State() == WriteTo(old(State()), Call(payload, failsAfter))
      ensures match AppendError(old(State()), payload)
              case Some(error) => r == Err(error)
              case None => r == if failsAfter.Some? then Err(Io) else Ok(old(nextSequence))
    {
      hide Header, Crc.Checksum, Crc.BytesOf, Crc.POLYNOMIAL;
      if |payload| > U32_MAX {
        assert file.bytes + [] == file.bytes;
        return Err(PayloadTooLarge(|payload|));
      }
      var current := nextSequence;
      var frame := Header(Record(current, payload)) + payload;
      var checksum := Crc.Compute(Crc.POLYNOMIAL, frame);
      frame := frame + Crc.BytesOf(checksum);
      var projected := |file.bytes| + |frame|;
      if projected > MAX_JOURNAL_BYTES {
        assert file.bytes + [] == file.bytes;
        return Err(BoundsExceeded(projected));
      }
      if failsAfter.Some? {
        file.bytes := file.bytes + if failsAfter.value < |frame| then frame[..failsAfter.value] else frame;
        return Err(Io);
      }
      file.bytes := file.bytes + frame;
      nextSequence := Successor(current);
      return Ok(current);
    }
  }

  // --- runs with crashes ---

  datatype Event =
    | Append(payload: seq<byte>)
    // the process dies once this many bytes of the new frame reached the file, and is started again
    | CrashInAppend(payload: seq<byte>, written: nat)
    | Restart

  function Play(d: Disk, e: Event): Result<Disk, JournalError> {
    match e
    case Append(payload) => Ok(AppendTo(d, payload))
    case CrashInAppend(payload, written) =>
      var bytes := AppendTo(d, payload).bytes;
      OpenDisk(bytes[..if |d.bytes| + written <= |bytes| then |d.bytes| + written else |bytes|])
    case Restart => OpenDisk(d.bytes)
  }

  function Run(events: seq<Event>): Result<Disk, JournalError> {
    if events == [] then OpenDisk([]) else
    match Run(events[..|events| - 1])
    case Ok(d) => Play(d, events[|events| - 1])
    case Err(error) => Err(error)
  }

  // The payloads a run must leave behind, told from the history alone: each acknowledged one, and an
  // interrupted one only if the whole frame was written.
  function Kept(events: seq<Event>): seq<seq<byte>> {
    if events == [] then [] else
    var log := Kept(events[..|events| - 1]);
    match events[|events| - 1]
    case Append(payload) => if Accepts(log, payload) then log + [payload] else log
    case CrashInAppend(payload, written) =>
      if Accepts(log, payload) && written >= FrameSize(payload) then log + [payload] else log
    case Restart => log
  }

  function FrameSize(payload: seq<byte>): nat { HEADER_LEN + |payload| + TRAILER_LEN }

  function LogSize(log: seq<seq<byte>>): nat {
    if log == [] then 0 else LogSize(log[..|log| - 1]) + FrameSize(log[|log| - 1])
  }

  predicate Accepts(log: seq<seq<byte>>, payload: seq<byte>) {
    |payload| <= U32_MAX && LogSize(log) + FrameSize(payload) <= 0x2000_0000
  }

  function Numbered(log: seq<seq<byte>>): seq<Record> {
    seq(|log|, i requires 0 <= i < |log| => Record(i, log[i]))
  }

  // What the file and the counter look like when exactly these payloads are in the journal.
  ghost predicate Holds(d: Disk, log: seq<seq<byte>>) {
    && d == Disk(Frames(Numbered(log)), |log|)
    && AllFramable(Numbered(log))
    && |d.bytes| == LogSize(log) <= MAX_JOURNAL_BYTES
  }

  lemma {:induction false} FramesSnoc(rs: seq<Record>, r: Record)
    ensures Frames(rs + [r]) == Frames(rs) + Frame(r)
  {
    hide Frame;
    if rs == [] {
      assert rs + [r] == [r];
    } else {
      FramesSnoc(rs[1..], r);
      assert (rs + [r])[1..] == rs[1..] + [r];
      assert Frames(rs + [r]) == Frame(rs[0]) + (Frames(rs[1..]) + Frame(r));
    }
  }

  lemma {:induction false} LogIsSmall(log: seq<seq<byte>>)
    ensures 22 * |log| <= LogSize(log)
  {
    if log != [] {
      LogIsSmall(log[..|log| - 1]);
    }
  }

  lemma OpenKeeps(log: seq<seq<byte>>, d: Disk)
    requires Holds(d, log)
    ensures OpenDisk(d.bytes) == Ok(d)
  {
    hide Frames, ScanBytes, Framable;
    ScanOfCleanFrames(Numbered(log));
    LogIsSmall(log);
  }

  lemma AppendHolds(log: seq<seq<byte>>, d: Disk, payload: seq<byte>)
    requires Holds(d, log)
    ensures AppendError(d, payload).None? <==> Accepts(log, payload)
    ensures Accepts(log, payload) ==> d.next <= U64_MAX && Holds(AppendTo(d, payload), log + [payload])
  {
    hide Frames, Header;
    if Accepts(log, payload) {
      var r := Record(|log|, payload);
      LogIsSmall(log);
      NumberedSnoc(log, payload);
      LogSizeSnoc(log, payload);
      FramesSnoc(Numbered(log), r);
      assert Framable(r);
    }
  }

  lemma NumberedSnoc(log: seq<seq<byte>>, payload: seq<byte>)
    ensures Numbered(log + [payload]) == Numbered(log) + [Record(|log|, payload)]
  {
  }

  lemma LogSizeSnoc(log: seq<seq<byte>>, payload: seq<byte>)
    ensures LogSize(log + [payload]) == LogSize(log) + FrameSize(payload)
  {
    assert (log + [payload])[..|log|] == log;
  }

  // Recovery after a crash part way through a frame: the frame counts only if it is whole.
  lemma CrashRecovers(log: seq<seq<byte>>, d: Disk, payload: seq<byte>, written: nat)
    requires Holds(d, log) && Accepts(log, payload) && written < FrameSize(payload)
    ensures OpenDisk(d.bytes + Frame(Record(|log|, payload))[..written]) == Ok(d)
  {
    hide Frames, ReadFrame, Frame;
    var r := Record(|log|, payload);
    var cut := Frame(r)[..written];
    LogIsSmall(log);
    CutFrameIsTorn(r, written);
    ScanOfFrames(Numbered(log), cut);
    assert Numbered(log) + [] == Numbered(log);
    assert (d.bytes + cut)[..|d.bytes|] == d.bytes;
    assert cut == [] ==> d.bytes + cut == d.bytes;
  }

  lemma {:induction false} JournalRun(events: seq<Event>)
    ensures Run(events).Ok? && Holds(Run(events).value, Kept(events))
  {
    hide OpenDisk, Holds;
    if events == [] {
      EmptyHolds();
      OpenKeeps([], Disk([], 0));
    } else {
      var earlier := events[..|events| - 1];
      JournalRun(earlier);
      var d, log := Run(earlier).value, Kept(earlier);
      match events[|events| - 1] {
        case Append(payload) =>
          AppendHolds(log, d, payload);
        case CrashInAppend(payload, written) =>
          AppendHolds(log, d, payload);
          CrashHolds(log, d, payload, written);
        case Restart =>
          OpenKeeps(log, d);
      }
    }
  }

  lemma EmptyHolds()
    ensures Holds(Disk([], 0), [])
  {
  }

  lemma CrashHolds(log: seq<seq<byte>>, d: Disk, payload: seq<byte>, written: nat)
    requires Holds(d, log)
    ensures var after := if Accepts(log, payload) && written >= FrameSize(payload) then log + [payload] else log;
            var r := Play(d, CrashInAppend(payload, written));
            r.Ok? && Holds(r.value, after)
  {
    hide Frame, Frames, OpenDisk;
    AppendHolds(log, d, payload);
    var bytes := AppendTo(d, payload).bytes;
    if !Accepts(log, payload) {
      OpenKeeps(log, d);
      assert bytes[..|bytes|] == bytes;
    } else if written >= FrameSize(payload) {
      OpenKeeps(log + [payload], AppendTo(d, payload));
      assert bytes[..|bytes|] == bytes;
    } else {
      CrashRecovers(log, d, payload, written);
      assert bytes[..|d.bytes| + written] == d.bytes + Frame(Record(|log|, payload))[..written];
    }
  }

  // What every run promises: a scan finds exactly the kept payloads, numbered from zero without a
  // gap, the next append gets the next number, and the counter is far from saturating.
  lemma RunRecoversEverything(events: seq<Event>)
    ensures var log := Kept(events);
            && Run(events).Ok?
            && var d := Run(events).value;
            && ScanFile(d.bytes) == Ok(Scan(Numbered(log), |d.bytes|, false))
            && d.next == |log| < U64_MAX
  {
    hide Frames, ScanBytes;
    JournalRun(events);
    LogIsSmall(Kept(events));
    ScanOfCleanFrames(Numbered(Kept(events)));
  }

  // Nothing kept is ever lost again, whatever happens later.
  lemma {:induction false} KeptGrows(events: seq<Event>, n: nat)
    requires n <= |events|
    ensures Kept(events[..n]) <= Kept(events)
  {
    if n < |events| {
      var earlier := events[..|events| - 1];
      KeptGrows(earlier, n);
      assert earlier[..n] == events[..n];
    } else {
      assert events[..n] == events;
    }
  }

  // An append acknowledged with a sequence is found under that sequence after every later event,
  // and it is refused exactly when the payload or the file would be too large.
  lemma AcknowledgedIsKept(events: seq<Event>, n: nat)
    requires n < |events| && events[n].Append?
    requires Run(events[..n]).Ok? && AppendError(Run(events[..n]).value, events[n].payload).None?
    ensures var sequence := Run(events[..n]).value.next;
            sequence < |Kept(events)| && Numbered(Kept(events))[sequence] == Record(sequence, events[n].payload)
  {
    hide Frames, AppendTo, AppendError, OpenDisk;
    var log, payload := Kept(events[..n]), events[n].payload;
    JournalRun(events[..n]);
    AppendHolds(log, Run(events[..n]).value, payload);
    assert events[..n + 1][..n] == events[..n];
    assert Kept(events[..n + 1]) == log + [payload];
    KeptGrows(events, n + 1);
  }

  // A crash adds nothing but the append it interrupted.
  lemma CrashKeepsAtMostTheOneInFlight(events: seq<Event>, payload: seq<byte>, written: nat)
    ensures var after := Kept(events + [CrashInAppend(payload, written)]);
            after == Kept(events) || (after == Kept(events) + [payload] && written >= FrameSize(payload))
  {
    assert (events + [CrashInAppend(payload, written)])[..|events|] == events;
  }
}
