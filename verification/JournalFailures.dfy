/**
 Appends that fail without a crash: the writer goes on with the same file and the same sequence, behind
 whatever the failed call left there.
 */
module JournalFailures {
  import opened Wrappers
  import opened Bytes
  import opened Journal

  function RunOn(d: Disk, writes: seq<Write>): Disk {
    if writes == [] then d else WriteTo(RunOn(d, writes[..|writes| - 1]), writes[|writes| - 1])
  }

  // A frame that reached the file whole, and whether its call succeeded.
  datatype Entry = Entry(record: Record, acknowledged: bool)

  function Entries(d: Disk, writes: seq<Write>): seq<Entry> {
    if writes == [] then [] else
    var earlier, w := writes[..|writes| - 1], writes[|writes| - 1];
    var now := RunOn(d, earlier);
    Entries(d, earlier)
      + (if Complete(w) && AppendError(now, w.payload).None?
         then [Entry(Record(now.next, w.payload), w.Succeeds?)] else [])
  }

  function Records(entries: seq<Entry>): seq<Record> {
    seq(|entries|, i requires 0 <= i < |entries| => entries[i].record)
  }

  function Acknowledged(entries: seq<Entry>): nat {
    if entries == [] then 0
    else Acknowledged(entries[..|entries| - 1]) + (if entries[|entries| - 1].acknowledged then 1 else 0)
  }

  // A call that leaves a proper part of its frame.
  predicate Tears(d: Disk, w: Write) {
    !Complete(w) && w.written > 0 && AppendError(d, w.payload).None?
  }

  predicate Torn(d: Disk, writes: seq<Write>) {
    writes != []
    && (Torn(d, writes[..|writes| - 1]) || Tears(RunOn(d, writes[..|writes| - 1]), writes[|writes| - 1]))
  }

  // --- what a run leaves ---

  ghost predicate Inv(start: nat, before: seq<Record>, d: Disk, entries: seq<Entry>, torn: bool) {
    var all := before + Records(entries);
    && AllFramable(all)
    && d.next == start + Acknowledged(entries)
    && 22 * d.next <= |d.bytes| <= MAX_JOURNAL_BYTES
    && if torn then |Frames(all)| < |d.bytes| else Frames(all) == d.bytes
  }

  lemma WriteKeeps(start: nat, before: seq<Record>, d: Disk, entries: seq<Entry>, torn: bool, w: Write)
    requires Inv(start, before, d, entries, torn)
    ensures var added := if Complete(w) && AppendError(d, w.payload).None?
                         then [Entry(Record(d.next, w.payload), w.Succeeds?)] else [];
            Inv(start, before, WriteTo(d, w), entries + added, torn || Tears(d, w))
  {
    hide Frame, Frames;
    if AppendError(d, w.payload).None? && Complete(w) {
      var r := Record(d.next, w.payload);
      var entry := Entry(r, w.Succeeds?);
      FramesSnoc(before + Records(entries), r);
      assert before + Records(entries + [entry]) == before + Records(entries) + [r];
      assert (entries + [entry])[..|entries|] == entries;
    } else {
      assert entries + [] == entries;
      assert d.bytes + [] == d.bytes;
    }
  }

  lemma {:induction false} RunKeeps(log: seq<seq<byte>>, d: Disk, writes: seq<Write>)
    requires Holds(d, log)
    ensures Inv(|log|, Numbered(log), RunOn(d, writes), Entries(d, writes), Torn(d, writes))
  {
    hide WriteTo, Inv, Tears;
    if writes == [] {
      StartKeeps(log, d);
    } else {
      var earlier := writes[..|writes| - 1];
      RunKeeps(log, d, earlier);
      WriteKeeps(|log|, Numbered(log), RunOn(d, earlier), Entries(d, earlier), Torn(d, earlier),
                 writes[|writes| - 1]);
    }
  }

  lemma StartKeeps(log: seq<seq<byte>>, d: Disk)
    requires Holds(d, log)
    ensures Inv(|log|, Numbered(log), d, [], false)
  {
    LogIsSmall(log);
    assert Numbered(log) + Records([]) == Numbered(log);
  }

  // A scan finds exactly the frames that were written whole, up to the end of the file, exactly when no
  // failed call left a proper part of its frame.
  lemma UnbrokenExactly(log: seq<seq<byte>>, d: Disk, writes: seq<Write>)
    requires Holds(d, log)
    ensures var after := RunOn(d, writes);
            var all := Numbered(log) + Records(Entries(d, writes));
            ScanFile(after.bytes) == Ok(Scan(all, |after.bytes|, false)) <==> !Torn(d, writes)
  {
    hide Holds, RunOn, Entries, Torn, Frames, ScanBytes;
    RunKeeps(log, d, writes);
    var after := RunOn(d, writes);
    var all := Numbered(log) + Records(Entries(d, writes));
    if Torn(d, writes) {
      TooLong(after.bytes, all);
    } else {
      ScanOfCleanFrames(all);
    }
  }

  lemma TooLong(bytes: seq<byte>, rs: seq<Record>)
    requires |Frames(rs)| < |bytes|
    ensures ScanBytes(bytes) != Ok(Scan(rs, |bytes|, false))
  {
    hide ScanBytes, Frames;
    if ScanBytes(bytes).Ok? {
      ScanIsExact(bytes);
    }
  }

  // Each whole frame carries the number of payloads acknowledged before it: a failed sync leaves a frame
  // whose sequence the next one repeats.
  lemma {:induction false} SequencesCount(log: seq<seq<byte>>, d: Disk, writes: seq<Write>, i: nat)
    requires Holds(d, log) && i < |Entries(d, writes)|
    ensures Entries(d, writes)[i].record.sequence == |log| + Acknowledged(Entries(d, writes)[..i])
    decreases |writes|
  {
    hide Holds, RunOn, Torn, Frame, AppendError;
    var earlier := writes[..|writes| - 1];
    var entries := Entries(d, earlier);
    RunKeeps(log, d, earlier);
    if i < |entries| {
      SequencesCount(log, d, earlier, i);
      assert Entries(d, writes)[..i] == entries[..i];
    } else {
      assert Entries(d, writes)[..i] == entries;
    }
  }

  lemma RepeatedExactly(log: seq<seq<byte>>, d: Disk, writes: seq<Write>, i: nat)
    requires Holds(d, log) && i + 1 < |Entries(d, writes)|
    ensures var entries := Entries(d, writes);
            entries[i + 1].record.sequence == entries[i].record.sequence <==> !entries[i].acknowledged
  {
    hide Holds, Entries;
    var entries := Entries(d, writes);
    SequencesCount(log, d, writes, i);
    SequencesCount(log, d, writes, i + 1);
    assert entries[..i + 1][..i] == entries[..i];
  }

  // --- behind a torn frame ---

  // Whatever follows part of a frame, a frame read there reaches beyond that part.
  lemma TornSwallows(r: Record, k: nat, rest: seq<byte>)
    requires Framable(r) && 0 < k < |Frame(r)|
    ensures var read := ReadFrame(Frame(r)[..k] + rest); read.Whole? ==> read.length > k
  {
    hide FromLE;
    var bytes := Frame(r)[..k] + rest;
    if k >= HEADER_LEN {
      HeaderFields(r);
      assert bytes[..HEADER_LEN] == Header(r);
    }
  }

  // Every frame before the part is found, if the file can be read at all, and none is ever read where the
  // next one was written.
  lemma BehindTheTear(before: seq<Record>, r: Record, k: nat, rest: seq<byte>, n: nat)
    requires AllFramable(before) && Framable(r) && 0 < k < |Frame(r)|
    ensures var scan := ScanBytes(Frames(before) + (Frame(r)[..k] + rest));
            scan.Ok? ==>
              && before <= scan.value.records
              && (n <= |scan.value.records| ==> |Frames(scan.value.records[..n])| != |Frames(before)| + k)
  {
    hide Frame, Frames, ReadFrame;
    var tail := Frame(r)[..k] + rest;
    ScanOfFrames(before, tail);
    TornSwallows(r, k, rest);
    var scan := ScanBytes(Frames(before) + tail);
    if scan.Ok? && n <= |scan.value.records| {
      var rs := scan.value.records;
      if n <= |before| {
        assert before == before[..n] + before[n..] && rs[..n] == before[..n];
        FramesConcat(before[..n], before[n..]);
      } else {
        var found := ScanBytes(tail).value.records;
        var x := ReadFrame(tail).record;
        assert rs == before + found;
        ReadsOnlyFrames(tail);
        assert found[0] == x;
        assert rs[..n] == before + found[..n - |before|];
        FramesConcat(before, found[..n - |before|]);
        FirstFrame(found[..n - |before|]);
      }
    }
  }

  lemma FirstFrame(rs: seq<Record>)
    requires rs != []
    ensures |Frames(rs)| >= |Frame(rs[0])|
  {
    hide Frame;
  }

  lemma {:induction false} FramesConcat(a: seq<Record>, b: seq<Record>)
    ensures Frames(a + b) == Frames(a) + Frames(b)
  {
    hide Frame;
    if a == [] {
      assert a + b == b;
    } else {
      assert (a + b)[1..] == a[1..] + b;
      FramesConcat(a[1..], b);
    }
  }

  // The first few bytes of a frame in front of another: up to three end the scan, four or five make the
  // journal unreadable.
  lemma ShortTear(r: Record, k: nat, s: Record, rest: seq<byte>)
    requires Framable(r) && Framable(s) && 0 < k <= 5
    ensures ReadFrame(Frame(r)[..k] + (Frame(s) + rest)) == if k < 4 then FrameRead.Torn else Unsupported
  {
    hide FromLE, ToLE, Frame;
    var bytes := Frame(r)[..k] + (Frame(s) + rest);
    FrameStarts(r);
    FrameStarts(s);
    var header := bytes[..HEADER_LEN];
    assert forall i | 0 <= i < k :: header[i] == Frame(r)[i];
    assert forall i | k <= i < 6 :: header[i] == Frame(s)[i - k];
    if k < 4 {
      assert header[..4][k] == 0x49 != MAGIC[k];
    } else {
      assert header[..4] == MAGIC;
      var version := header[4..6];
      assert version == [version[0], version[1]];
      TwoBytes(version[0], version[1]);
    }
  }

  lemma TwoBytes(a: byte, b: byte)
    ensures FromLE([a, b]) == a + 256 * b
  {
    assert [a, b][1..] == [b] && [b][1..] == [];
    assert FromLE([b]) == b + 256 * FromLE([]);
  }

  lemma FrameStarts(r: Record)
    ensures Frame(r)[..6] == MAGIC + [1, 0]
  {
    HeaderStarts(r);
    assert Header(r)[..6] == Header(r)[..4] + Header(r)[4..6];
    assert Frame(r)[..6] == Header(r)[..6];
  }

  // --- over runs ---

  lemma {:induction false} RunAppends(d: Disk, writes: seq<Write>, later: seq<Write>)
    ensures RunOn(d, writes + later) == RunOn(RunOn(d, writes), later)
    ensures RunOn(d, writes).bytes <= RunOn(d, writes + later).bytes
    decreases |later|
  {
    hide WriteTo, Frame;
    if later == [] {
      assert writes + later == writes;
    } else {
      var n := |later| - 1;
      RunAppends(d, writes, later[..n]);
      assert (writes + later)[..|writes + later| - 1] == writes + later[..n];
      OnlyAppends(RunOn(d, writes + later[..n]), later[n]);
    }
  }

  lemma OnlyAppends(d: Disk, w: Write)
    ensures d.bytes <= WriteTo(d, w).bytes
  {
  }

  // The first call that leaves part of its frame. Opening again at once keeps all that was written whole.
  // Going on instead, no frame written later is ever read where it was written; and if four or five bytes
  // were left and the next append succeeds, nothing can be read any more.
  lemma LostBehindTheTear(log: seq<seq<byte>>, d: Disk, writes: seq<Write>, w: Write, later: seq<Write>, n: nat)
    requires Holds(d, log) && !Torn(d, writes) && Tears(RunOn(d, writes), w)
    ensures OpenDisk(RunOn(d, writes + [w]).bytes).Ok?
              && OpenDisk(RunOn(d, writes + [w]).bytes).value.bytes == RunOn(d, writes).bytes
    ensures var kept := Numbered(log) + Records(Entries(d, writes));
            var scan := ScanFile(RunOn(d, writes + [w] + later).bytes);
            && (scan.Ok? && n <= |scan.value.records| ==>
                  kept <= scan.value.records && |Frames(scan.value.records[..n])| != |RunOn(d, writes + [w]).bytes|)
            && (w.written in {4, 5} && later != [] && later[0].Succeeds?
                  && AppendError(RunOn(d, writes + [w]), later[0].payload).None? ==>
                  scan == Err(Corrupt(|Frames(kept)|)))
  {
    hide Holds, Torn, RunOn, Entries, Frame, Frames, ScanBytes, ReadFrame;
    var all := writes + [w] + later;
    RunKeeps(log, d, writes);
    RunKeeps(log, d, all);
    RunAppends(d, writes, [w]);
    RunAppends(d, writes + [w], later);
    var was, torn, end := RunOn(d, writes), RunOn(d, writes + [w]), RunOn(d, all);
    OneWrite(was, w);
    var kept := Numbered(log) + Records(Entries(d, writes));
    var r, cut := Record(was.next, w.payload), Left(was, w);
    var rest := end.bytes[|torn.bytes|..];
    assert end.bytes == Frames(kept) + (cut + rest);
    BehindTheTear(kept, r, w.written, rest, n);
    TearReopens(kept, r, w.written);
    if w.written in {4, 5} && later != [] && later[0].Succeeds? && AppendError(torn, later[0].payload).None? {
      var s := Record(torn.next, later[0].payload);
      assert later == [later[0]] + later[1..];
      RunAppends(torn, [later[0]], later[1..]);
      OneWrite(torn, later[0]);
      assert torn.bytes + Frame(s) <= end.bytes;
      assert rest == Frame(s) + rest[|Frame(s)|..];
      ShortTear(r, w.written, s, rest[|Frame(s)|..]);
      ScanOfFrames(kept, cut + rest);
      UnsupportedStops(cut + rest);
    }
  }

  lemma OneWrite(d: Disk, w: Write)
    ensures RunOn(d, [w]) == WriteTo(d, w)
  {
    assert [w][..0] == [];
  }

  lemma UnsupportedStops(bytes: seq<byte>)
    requires bytes != [] && ReadFrame(bytes) == Unsupported
    ensures ScanBytes(bytes) == Err(Corrupt(0))
  {
  }

  lemma TearReopens(kept: seq<Record>, r: Record, k: nat)
    requires AllFramable(kept) && Framable(r) && 0 < k < |Frame(r)|
    requires |Frames(kept)| + k <= MAX_JOURNAL_BYTES
    ensures var reopened := OpenDisk(Frames(kept) + Frame(r)[..k]);
            reopened.Ok? && reopened.value.bytes == Frames(kept)
  {
    hide Frame, Frames, ReadFrame;
    CutFrameIsTorn(r, k);
    ScanOfFrames(kept, Frame(r)[..k]);
    assert kept + [] == kept;
  }
}
