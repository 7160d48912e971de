/** The `key = value` configuration text of crates/cfg-core. */
module Cfg {
  import opened Wrappers
  import opened Bytes
  import opened Text
  import Decimal
  import Keys = Ordered

  // Floating-point numbers are carried as their 64 bits.
  datatype Value = Str(text: string) | Integer(n: i64) | Float(bits: u64) | Boolean(b: bool)

  type Settings = map<string, Value>

  datatype FloatText = NotANumber | NotFinite | Finite(bits: u64)

  datatype Reason =
    | ExpectedKeyValue | InvalidKey | DuplicateKey | UnterminatedString | StringTooLong
    | InvalidFloat | NonFinite | InvalidInteger

  datatype CfgError = TooLarge | At(line: nat, reason: Reason)

  const MAX_CFG_BYTES: nat := 1_048_576
  const MAX_KEY_BYTES: nat := 256
  const MAX_STRING_BYTES: nat := 16_384

  // --- strings as the standard library treats them ---

  // The index of the first c, or the length.
  function Find(s: string, c: char): (i: nat)
    ensures i <= |s| && (i < |s| ==> s[i] == c)
    ensures forall j | 0 <= j < i :: s[j] != c
  {
    if s == [] || s[0] == c then 0 else 1 + Find(s[1..], c)
  }

  lemma FindAt(s: string, c: char, i: nat)
    requires i <= |s| && (i < |s| ==> s[i] == c) && forall j | 0 <= j < i :: s[j] != c
    ensures Find(s, c) == i
  {
  }

  // str::replace: matches from the left, never overlapping.
  function Replace(s: string, from: string, to: string): string
    requires from != []
  {
    if s == [] then []
    else if from <= s then to + Replace(s[|from|..], from, to)
    else [s[0]] + Replace(s[1..], from, to)
  }

  // Drops one carriage return at the end.
  function DropCr(s: string): string {
    if s != [] && s[|s| - 1] == '\r' then s[..|s| - 1] else s
  }

  // str::lines
  function Lines(text: string): seq<string> {
    if text == [] then [] else
    var i := Find(text, '\n');
    if i == |text| then [text] else [DropCr(text[..i])] + Lines(text[i + 1..])
  }

  function Joined(lines: seq<string>): string {
    if lines == [] then "" else lines[0] + "\n" + Joined(lines[1..])
  }

  lemma JoinedStep(before: string, lines: seq<string>, i: nat)
    requires i < |lines|
    ensures before + Joined(lines[i..]) == before + lines[i] + "\n" + Joined(lines[i + 1..])
  {
    assert lines[i..][0] == lines[i] && lines[i..][1..] == lines[i + 1..];
  }

  lemma JoinedNothing()
    ensures Joined([]) == ""
  {
  }

  // --- comments ---

  // What is left of a line, begun in the given state of the scanner.
  function Uncommented(line: string, quoted: bool, escaped: bool): string {
    if line == [] then []
    else if escaped then [line[0]] + Uncommented(line[1..], quoted, false)
    else if quoted && line[0] == '\\' then [line[0]] + Uncommented(line[1..], quoted, true)
    else if line[0] == '"' then [line[0]] + Uncommented(line[1..], !quoted, false)
    else if line[0] == '#' && !quoted then []
    else [line[0]] + Uncommented(line[1..], quoted, false)
  }

  // The scanner at position i: it stops at a comment, or keeps the character and goes on.
  lemma ScanStep(line: string, i: nat, quoted: bool, escaped: bool)
    requires i < |line|
    ensures var stops := !escaped && !quoted && line[i] == '#';
            var next := !escaped && quoted && line[i] == '\\';
            line[..i] + Uncommented(line[i..], quoted, escaped) ==
              if stops then line[..i]
              else line[..i + 1] + Uncommented(line[i + 1..], if !escaped && line[i] == '"' then !quoted
                else quoted, next)
  {
    assert line[i..][1..] == line[i + 1..] && line[..i + 1] == line[..i] + [line[i]];
  }

  method StripComment(line: string) returns (r: string)
    ensures r == Uncommented(line, false, false)
  {
    hide Uncommented;
    var quoted, escaped := false, false;
    assert line[..0] + Uncommented(line, false, false) == Uncommented(line, false, false) && line[0..] == line;
    for i := 0 to |line|
      invariant Uncommented(line, false, false) == line[..i] + Uncommented(line[i..], quoted, escaped)
    {
      ScanStep(line, i, quoted, escaped);
      if escaped {
        escaped := false;
        continue;
      }
      if quoted && line[i] == '\\' {
        escaped := true;
        continue;
      }
      if line[i] == '"' {
        quoted := !quoted;
      } else if line[i] == '#' && !quoted {
        return line[..i];
      }
    }
    NothingLeft(quoted, escaped);
    assert line[..|line|] + [] == line && line[|line|..] == [];
    return line;
  }

  lemma NothingLeft(quoted: bool, escaped: bool)
    ensures Uncommented([], quoted, escaped) == []
  {
  }

  // What may stand between two quotes: pairs of a backslash and any character, and other characters that are
  // neither a backslash nor a quote.
  predicate Body(s: string)
    decreases |s|
  {
    s == [] || (if s[0] == '\\' then |s| >= 2 && Body(s[2..]) else s[0] != '"' && Body(s[1..]))
  }

  // What follows a quote that is never closed.
  predicate Unclosed(s: string)
    decreases |s|
  {
    s == [] || (if s[0] == '\\' then |s| == 1 || Unclosed(s[2..]) else s[0] != '"' && Unclosed(s[1..]))
  }

  // A line is laid out as bare characters and quoted strings.
  datatype Piece = Bare(c: char) | InQuotes(body: string)

  predicate Good(piece: Piece) {
    match piece
    case Bare(c) => c != '"' && c != '#'
    case InQuotes(body) => Body(body)
  }

  predicate AllGood(pieces: seq<Piece>) { forall i | 0 <= i < |pieces| :: Good(pieces[i]) }

  function Spelled(piece: Piece): string {
    match piece
    case Bare(c) => [c]
    case InQuotes(body) => ['"'] + body + ['"']
  }

  function Laid(pieces: seq<Piece>): string {
    if pieces == [] then [] else
    Spelled(pieces[0]) + Laid(pieces[1..])
  }

  lemma {:induction false} BodyStays(body: string, rest: string)
    requires Body(body)
    ensures Uncommented(body + rest, true, false) == body + Uncommented(rest, true, false)
    decreases |body|
  {
    hide Uncommented;
    if body == [] {
      assert body + rest == rest;
    } else if body[0] == '\\' {
      BodyStays(body[2..], rest);
      assert body == ['\\', body[1]] + body[2..];
      assert body + rest == ['\\', body[1]] + (body[2..] + rest);
      PairStays(body[1], body[2..] + rest);
    } else {
      BodyStays(body[1..], rest);
      assert body + rest == [body[0]] + (body[1..] + rest);
      CharStays(body[0], body[1..] + rest);
    }
  }

  // Bare characters and quoted strings stay, whatever stands in the quotes.
  lemma {:induction false} LaidStays(pieces: seq<Piece>, rest: string)
    requires AllGood(pieces)
    ensures Uncommented(Laid(pieces) + rest, false, false) == Laid(pieces) + Uncommented(rest, false, false)
  {
    hide Uncommented, Good, Spelled;
    if pieces == [] {
      assert [] + rest == rest;
    } else {
      var more := Laid(pieces[1..]) + rest;
      LaidStays(pieces[1..], rest);
      PieceStays(pieces[0], more);
      assert Laid(pieces) + rest == Spelled(pieces[0]) + more;
    }
  }

  lemma PieceStays(piece: Piece, more: string)
    requires Good(piece)
    ensures Uncommented(Spelled(piece) + more, false, false) == Spelled(piece) + Uncommented(more, false, false)
  {
    hide Uncommented, Body;
    match piece
    case Bare(c) => NothingToStrip([c], more);
    case InQuotes(body) => StringStays(body, more);
  }

  lemma StringStays(body: string, more: string)
    requires Body(body)
    ensures Uncommented(['"'] + body + ['"'] + more, false, false)
         == ['"'] + body + ['"'] + Uncommented(more, false, false)
  {
    hide Uncommented, Body;
    assert ['"'] + body + ['"'] + more == ['"'] + (body + (['"'] + more));
    QuoteTurns(body + (['"'] + more), false);
    BodyStays(body, ['"'] + more);
    QuoteTurns(more, true);
  }

  lemma QuoteTurns(rest: string, quoted: bool)
    ensures Uncommented(['"'] + rest, quoted, false) == ['"'] + Uncommented(rest, !quoted, false)
  {
    assert (['"'] + rest)[1..] == rest;
  }

  lemma {:induction false} UnclosedStays(s: string)
    requires Unclosed(s)
    ensures Uncommented(s, true, false) == s
    decreases |s|
  {
    if s == "\\" {
      assert s[1..] == [];
    } else if s != [] && s[0] == '\\' {
      UnclosedStays(s[2..]);
      assert s == ['\\', s[1]] + s[2..];
      PairStays(s[1], s[2..]);
    } else if s != [] {
      UnclosedStays(s[1..]);
    }
  }

  // Where a quote that was just opened is closed, if it is.
  lemma {:induction false} CloseOf(s: string) returns (body: string, closed: bool)
    ensures if closed then Body(body) && |body| < |s| && s == body + "\"" + s[|body| + 1..] else Unclosed(s)
    decreases |s|
  {
    hide Body, Unclosed;
    body, closed := [], false;
    NothingInQuotes();
    if s != [] && s != "\\" {
      if s[0] == '"' {
        closed := true;
      } else {
        var n := if s[0] == '\\' then 2 else 1;
        var more;
        more, closed := CloseOf(s[n..]);
        if closed {
          body := s[..n] + more;
          assert s == body + "\"" + s[|body| + 1..] by { Reglued(s, n, more); }
          BodyMore(s[..n], more);
        } else {
          UnclosedMore(s, n);
        }
      }
    }
  }

  lemma NothingInQuotes()
    ensures Body([]) && Unclosed([]) && Unclosed("\\")
  {
  }

  lemma Reglued(s: string, n: nat, more: string)
    requires n + |more| < |s| && s[n..] == more + "\"" + s[n..][|more| + 1..]
    ensures s == s[..n] + more + "\"" + s[n + |more| + 1..]
  {
    hide *;
    assert s == s[..n] + s[n..] && s[n..][|more| + 1..] == s[n + |more| + 1..];
  }

  lemma BodyMore(front: string, more: string)
    requires Body(more)
    requires front != [] && front[0] != '"' && |front| == if front[0] == '\\' then 2 else 1
    ensures Body(front + more)
  {
    assert (front + more)[|front|..] == more;
  }

  lemma UnclosedMore(s: string, n: nat)
    requires s != [] && s[0] != '"' && n <= |s| && n == (if s[0] == '\\' then 2 else 1) && Unclosed(s[n..])
    ensures Unclosed(s)
  {
  }

  // The end of a line, a comment, or a quote that is never closed.
  predicate Tail(tail: string) {
    tail == [] || tail[0] == '#' || (tail[0] == '"' && Unclosed(tail[1..]))
  }

  lemma TailStays(tail: string)
    requires Tail(tail)
    ensures Uncommented(tail, false, false) == if tail != [] && tail[0] == '#' then [] else tail
  {
    hide Uncommented, Unclosed;
    if tail != [] && tail[0] == '"' {
      UnclosedStays(tail[1..]);
      assert tail == ['"'] + tail[1..];
      QuoteTurns(tail[1..], false);
    } else {
      TailGoes(tail);
    }
  }

  // Every line is bare characters and quoted strings, and then ends, or goes on with a comment, or with a
  // quote that is never closed. Exactly the comment is dropped.
  lemma OnlyCommentsGo(line: string) returns (pieces: seq<Piece>, tail: string)
    ensures AllGood(pieces) && line == Laid(pieces) + tail && Tail(tail)
    ensures Uncommented(line, false, false) == if tail != [] && tail[0] == '#' then Laid(pieces) else line
  {
    hide Uncommented, Laid, AllGood, Tail;
    pieces, tail := Dissected(line);
    LaidStays(pieces, tail);
    TailStays(tail);
    assert Laid(pieces) + [] == Laid(pieces);
  }

  lemma {:induction false} Dissected(line: string) returns (pieces: seq<Piece>, tail: string)
    ensures AllGood(pieces) && line == Laid(pieces) + tail && Tail(tail)
    decreases |line|
  {
    hide Body, Unclosed, Good, Spelled;
    pieces, tail := [], line;
    if line != [] && line[0] != '#' {
      if line[0] != '"' {
        var more;
        more, tail := Dissected(line[1..]);
        pieces := [Bare(line[0])] + more;
        BarePiece(line);
        OnePieceMore(line, Bare(line[0]), more, line[1..], tail);
      } else {
        var body, closed := CloseOf(line[1..]);
        if closed {
          var more;
          more, tail := Dissected(line[|body| + 2..]);
          pieces := [InQuotes(body)] + more;
          QuotedPiece(line, body);
          OnePieceMore(line, InQuotes(body), more, line[|body| + 2..], tail);
        }
      }
    }
  }

  lemma BarePiece(line: string)
    requires line != [] && line[0] != '"' && line[0] != '#'
    ensures Good(Bare(line[0])) && line == Spelled(Bare(line[0])) + line[1..]
  {
  }

  lemma QuotedPiece(line: string, body: string)
    requires line != [] && line[0] == '"' && |body| + 1 < |line| && Body(body)
    requires line[1..] == body + "\"" + line[1..][|body| + 1..]
    ensures Good(InQuotes(body)) && line == Spelled(InQuotes(body)) + line[|body| + 2..]
  {
    hide Body;
    var rest := line[|body| + 2..];
    assert line[1..][|body| + 1..] == rest;
    QuotedParts(line, body, rest);
  }

  lemma QuotedParts(line: string, body: string, rest: string)
    requires line != [] && line[0] == '"' && line[1..] == body + "\"" + rest
    ensures line == ['"'] + body + ['"'] + rest
  {
    hide *;
    assert line == ['"'] + line[1..];
  }

  lemma OnePieceMore(line: string, piece: Piece, more: seq<Piece>, rest: string, tail: string)
    requires line == Spelled(piece) + rest && rest == Laid(more) + tail && Good(piece) && AllGood(more)
    ensures AllGood([piece] + more) && line == Laid([piece] + more) + tail
  {
    hide Good, Spelled;
    assert ([piece] + more)[1..] == more;
    assert Spelled(piece) + (Laid(more) + tail) == Spelled(piece) + Laid(more) + tail;
  }

  // A line without quotes is kept up to its first hash sign.
  lemma UnquotedComment(before: string, comment: string)
    requires '"' !in before && '#' !in before
    ensures Uncommented(before + "#" + comment, false, false) == before
    ensures Uncommented(before, false, false) == before
  {
    NothingToStrip(before, "#" + comment);
    NothingToStrip(before, "");
    assert before + "" == before && before + ("#" + comment) == before + "#" + comment;
  }

  // --- parsing ---

  predicate KeyChar(c: char) {
    'a' <= c <= 'z' || 'A' <= c <= 'Z' || '0' <= c <= '9' || c in {'.', '_', '-'}
  }

  predicate ValidKey(key: string) { forall i | 0 <= i < |key| :: KeyChar(key[i]) }

  predicate KeyOk(key: string) { key != [] && Size(key) <= MAX_KEY_BYTES && ValidKey(key) }

  function Unescaped(s: string): string { Replace(Replace(s, "\\\\", "\\"), "\\\"", "\"") }

  function Escaped(s: string): string { Replace(Replace(s, "\\", "\\\\"), "\"", "\\\"") }

  // The key and the raw value of a line, if it has any.
  function ReadLine(raw: string): Result<Option<(string, string)>, Reason> {
    var line := Trim(Uncommented(raw, false, false));
    if line == [] then Ok(None) else
    var i := Find(line, '=');
    if i == |line| then Err(ExpectedKeyValue) else
    if !KeyOk(Trim(line[..i])) then Err(InvalidKey) else
    Ok(Some((Trim(line[..i]), Trim(line[i + 1..]))))
  }

  function ParseValue(raw: string, floats: string -> FloatText): Result<Value, Reason> {
    if raw != [] && raw[0] == '"' then
      if raw[|raw| - 1] != '"' || |raw| < 2 then Err(UnterminatedString) else
      var text := Unescaped(raw[1..|raw| - 1]);
      if Size(text) > MAX_STRING_BYTES then Err(StringTooLong) else Ok(Str(text))
    else if raw == "true" || raw == "false" then Ok(Boolean(raw == "true"))
    else if '.' in raw || 'e' in raw || 'E' in raw then
      match floats(raw)
      case NotANumber => Err(InvalidFloat)
      case NotFinite => Err(NonFinite)
      case Finite(bits) => Ok(Float(bits))
    else
      match Decimal.ParseI64(raw)
      case None => Err(InvalidInteger)
      case Some(n) => Ok(Integer(n))
  }

  function ParseLines(lines: seq<string>, number: nat, settings: Settings,
                      floats: string -> FloatText): Result<Settings, CfgError> {
    if lines == [] then Ok(settings) else
    match ReadLine(lines[0])
    case Err(reason) => Err(At(number, reason))
    case Ok(None) => ParseLines(lines[1..], number + 1, settings, floats)
    case Ok(Some((key, raw))) =>
      if key in settings then Err(At(number, DuplicateKey)) else
      match ParseValue(raw, floats)
      case Err(reason) => Err(At(number, reason))
      case Ok(value) => ParseLines(lines[1..], number + 1, settings[key := value], floats)
  }

  function Parse(text: string, floats: string -> FloatText): Result<Settings, CfgError> {
    if Size(text) > MAX_CFG_BYTES then Err(TooLarge) else ParseLines(Lines(text), 1, map[], floats)
  }

  method ParseCfg(text: string, floats: string -> FloatText) returns (r: Result<Settings, CfgError>)
    ensures r == Parse(text, floats)
  {
    hide Uncommented, Trim, Find, ParseValue, KeyOk, Size;
    if Size(text) > MAX_CFG_BYTES {
      return Err(TooLarge);
    }
    var lines := Lines(text);
    var settings: Settings := map[];
    for i := 0 to |lines|
      invariant ParseLines(lines, 1, map[], floats) == ParseLines(lines[i..], i + 1, settings, floats)
    {
      assert lines[i..][0] == lines[i] && lines[i..][1..] == lines[i + 1..];
      var stripped := StripComment(lines[i]);
      var line := Trim(stripped);
      if line == [] {
        continue;
      }
      var at := Find(line, '=');
      if at == |line| {
        return Err(At(i + 1, ExpectedKeyValue));
      }
      var key, raw := Trim(line[..at]), Trim(line[at + 1..]);
      if !KeyOk(key) {
        return Err(At(i + 1, InvalidKey));
      }
      if key in settings {
        return Err(At(i + 1, DuplicateKey));
      }
      var value := ParseValue(raw, floats);
      if value.Err? {
        return Err(At(i + 1, value.error));
      }
      settings := settings[key := value.value];
    }
    return Ok(settings);
  }

  // --- rendering ---

  function ShowValue(value: Value, show: u64 -> string): string {
    match value
    case Str(text) => "\"" + Escaped(text) + "\""
    case Integer(n) => Decimal.ShowInt(n)
    case Float(bits) => show(bits)
    case Boolean(b) => if b then "true" else "false"
  }

  function Entry(key: string, value: string): string { key + " = " + value }

  function Entries(keys: seq<string>, settings: Settings, show: u64 -> string): (lines: seq<string>)
    requires forall i | 0 <= i < |keys| :: keys[i] in settings
    ensures |lines| == |keys|
  {
    seq(|keys|, i requires 0 <= i < |keys| => Entry(keys[i], ShowValue(settings[keys[i]], show)))
  }

  function Render(settings: Settings, show: u64 -> string): string {
    Joined(Entries(Keys.Sorted(settings.Keys), settings, show))
  }

  method RenderCfg(settings: Settings, show: u64 -> string) returns (output: string)
    ensures output == Render(settings, show)
  {
    hide ShowValue, Joined, Keys.Sorted;
    var keys := Keys.Sorted(settings.Keys);
    assert forall i | 0 <= i < |keys| :: keys[i] in keys;
    ghost var lines := Entries(keys, settings, show);
    output := "";
    assert lines[0..] == lines && "" + Joined(lines) == Joined(lines);
    for i := 0 to |keys|
      invariant output + Joined(lines[i..]) == Joined(lines)
    {
      JoinedStep(output, lines, i);
      EntryParts(output, keys[i], ShowValue(settings[keys[i]], show));
      output := output + keys[i];
      output := output + " = ";
      output := output + ShowValue(settings[keys[i]], show);
      output := output + "\n";
    }
    JoinedNothing();
    assert lines[|keys|..] == [] && output + "" == output;
  }

  lemma EntryParts(before: string, key: string, value: string)
    ensures before + Entry(key, value) == before + key + " = " + value
  {
  }

  // --- the two replace passes undo the two escapes ---

  // Both escapes at once, and the quote escape alone.
  function Written(s: string): string {
    if s == [] then [] else
    (if s[0] == '\\' then "\\\\" else if s[0] == '"' then "\\\"" else [s[0]]) + Written(s[1..])
  }

  function Quoted(s: string): string {
    if s == [] then [] else (if s[0] == '"' then "\\\"" else [s[0]]) + Quoted(s[1..])
  }

  lemma One(s: string, c: char)
    ensures [c] <= s <==> s != [] && s[0] == c
  {
  }

  lemma Two(s: string, c: char, d: char)
    ensures [c, d] <= s <==> |s| >= 2 && s[0] == c && s[1] == d
  {
  }

  lemma ReplaceTwo(s: string, c: char, d: char, to: string)
    ensures Replace(s, [c, d], to) ==
              if |s| >= 2 && s[0] == c && s[1] == d then to + Replace(s[2..], [c, d], to)
              else if s == [] then [] else [s[0]] + Replace(s[1..], [c, d], to)
  {
    Two(s, c, d);
  }

  lemma {:induction false} QuotedIsReplace(s: string)
    ensures Replace(s, "\"", "\\\"") == Quoted(s)
  {
    if s != [] {
      One(s, '"');
      QuotedIsReplace(s[1..]);
    }
  }

  lemma {:induction false} EscapedIsWritten(s: string)
    ensures Escaped(s) == Written(s)
  {
    QuotedIsReplace(Replace(s, "\\", "\\\\"));
    WrittenIsQuoted(s);
  }

  lemma {:induction false} WrittenIsQuoted(s: string)
    ensures Quoted(Replace(s, "\\", "\\\\")) == Written(s)
  {
    if s != [] {
      One(s, '\\');
      WrittenIsQuoted(s[1..]);
      var rest := Replace(s[1..], "\\", "\\\\");
      if s[0] == '\\' {
        assert Replace(s, "\\", "\\\\") == ['\\'] + (['\\'] + rest);
        assert (['\\'] + (['\\'] + rest))[1..] == ['\\'] + rest && (['\\'] + rest)[1..] == rest;
      } else {
        assert ([s[0]] + rest)[1..] == rest;
      }
    }
  }

  lemma TakesPair(c: char, d: char, rest: string, to: string)
    ensures Replace([c, d] + rest, [c, d], to) == to + Replace(rest, [c, d], to)
  {
    ReplaceTwo([c, d] + rest, c, d, to);
    assert ([c, d] + rest)[2..] == rest;
  }

  lemma LeavesChar(x: char, c: char, d: char, rest: string, to: string)
    requires x != c || rest == [] || rest[0] != d
    ensures Replace([x] + rest, [c, d], to) == [x] + Replace(rest, [c, d], to)
  {
    ReplaceTwo([x] + rest, c, d, to);
    assert ([x] + rest)[1..] == rest;
  }

  // The first pass takes back the doubled backslashes only.
  lemma {:induction false} FirstPass(s: string)
    ensures Replace(Written(s), "\\\\", "\\") == Quoted(s)
  {
    hide Replace;
    if s == [] {
      NothingReplaced("\\\\", "\\");
    } else {
      FirstPass(s[1..]);
      var rest := Written(s[1..]);
      if s[0] == '\\' {
        TakesPair('\\', '\\', rest, "\\");
      } else if s[0] == '"' {
        assert Written(s) == ['\\'] + (['"'] + rest);
        LeavesChar('\\', '\\', '\\', ['"'] + rest, "\\");
        LeavesChar('"', '\\', '\\', rest, "\\");
      } else {
        LeavesChar(s[0], '\\', '\\', rest, "\\");
      }
    }
  }

  lemma NothingReplaced(from: string, to: string)
    requires from != []
    ensures Replace([], from, to) == []
  {
  }

  // The second pass takes back the quotes: no quote stands without its own backslash.
  lemma {:induction false} SecondPass(s: string)
    ensures Replace(Quoted(s), "\\\"", "\"") == s
  {
    hide Replace;
    if s == [] {
      NothingReplaced("\\\"", "\"");
    } else {
      SecondPass(s[1..]);
      var rest := Quoted(s[1..]);
      if s[0] == '"' {
        TakesPair('\\', '"', rest, "\"");
      } else {
        LeavesChar(s[0], '\\', '"', rest, "\"");
      }
    }
  }

  lemma UnescapedEscaped(s: string)
    ensures Unescaped(Escaped(s)) == s
  {
    EscapedIsWritten(s);
    FirstPass(s);
    SecondPass(s);
  }

  // --- lines ---

  function Dropped(lines: seq<string>): seq<string> {
    if lines == [] then [] else [DropCr(lines[0])] + Dropped(lines[1..])
  }

  lemma {:induction false} LinesOfJoined(lines: seq<string>)
    requires forall i | 0 <= i < |lines| :: '\n' !in lines[i]
    ensures Lines(Joined(lines)) == Dropped(lines)
  {
    if lines != [] {
      LinesOfJoined(lines[1..]);
      var text := Joined(lines);
      var i := |lines[0]|;
      assert text[i] == '\n' && forall j | 0 <= j < i :: text[j] == lines[0][j] && lines[0][j] in lines[0];
      FindAt(text, '\n', i);
      assert text[..i] == lines[0] && text[i + 1..] == Joined(lines[1..]);
    }
  }

  // A line ends at a line feed, or at a carriage return and a line feed; what is left at the end of the text is
  // a line as it stands, unless it is empty.
  lemma LineEnds(line: string, rest: string)
    requires '\n' !in line
    ensures line == [] || line[|line| - 1] != '\r' ==> Lines(line + "\n" + rest) == [line] + Lines(rest)
    ensures Lines(line + "\r\n" + rest) == [line] + Lines(rest)
    ensures Lines(line) == if line == [] then [] else [line]
  {
    hide Lines;
    LastLine(line);
    NextLine(line, rest);
    NextLine(line + "\r", rest);
    assert (line + "\r")[..|line|] == line;
    assert line + "\r" + "\n" + rest == line + "\r\n" + rest;
  }

  lemma LastLine(line: string)
    requires '\n' !in line
    ensures Lines(line) == if line == [] then [] else [line]
  {
    if line != [] {
      assert forall j | 0 <= j < |line| :: line[j] in line;
      FindAt(line, '\n', |line|);
    }
  }

  lemma NextLine(line: string, rest: string)
    requires '\n' !in line
    ensures Lines(line + "\n" + rest) == [DropCr(line)] + Lines(rest)
  {
    hide DropCr;
    var text := line + "\n" + rest;
    assert forall j | 0 <= j < |line| :: text[j] == line[j] && line[j] in line;
    FindAt(text, '\n', |line|);
    assert text[..|line|] == line && text[|line| + 1..] == rest;
  }

  lemma {:induction false} LinesAreLines(text: string)
    ensures forall i | 0 <= i < |Lines(text)| :: '\n' !in Lines(text)[i]
  {
    if text != [] {
      var i := Find(text, '\n');
      if i < |text| {
        LinesAreLines(text[i + 1..]);
      }
    }
  }

  // --- no step brings in a character ---

  lemma {:induction false} UncommentedAvoids(line: string, quoted: bool, escaped: bool, c: char)
    requires c !in line
    ensures c !in Uncommented(line, quoted, escaped)
  {
    if line != [] {
      assert line[0] in line;
      UncommentedAvoids(line[1..], false, false, c);
      UncommentedAvoids(line[1..], true, false, c);
      UncommentedAvoids(line[1..], true, true, c);
    }
  }

  lemma TrimAvoids(s: string, c: char)
    requires c !in s
    ensures c !in Trim(s)
  {
    var a, b := TrimSplits(s);
  }

  lemma {:induction false} ReplaceAvoids(s: string, from: string, to: string, c: char)
    requires from != [] && c !in s && c !in to
    ensures c !in Replace(s, from, to)
  {
    if s != [] {
      assert s[0] in s;
      if from <= s {
        ReplaceAvoids(s[|from|..], from, to, c);
      } else {
        ReplaceAvoids(s[1..], from, to, c);
      }
    }
  }

  // What parsing can yield: known keys, bounded strings, no line breaks.
  predicate Fits(key: string, value: Value) {
    && 1 <= Size(key) <= 256
    && (forall c | c in key ::
          'a' <= c <= 'z' || 'A' <= c <= 'Z' || '0' <= c <= '9' || c == '.' || c == '_' || c == '-')
    && (value.Str? ==> Size(value.text) <= 16_384 && '\n' !in value.text)
  }

  lemma KeyOkExactly(key: string, b: bool)
    ensures KeyOk(key) <==> Fits(key, Boolean(b))
  {
    SizeBounds(key);
    assert forall i | 0 <= i < |key| :: key[i] in key;
  }

  lemma ReadAvoids(line: string, c: char)
    requires c !in line && ReadLine(line).Ok? && ReadLine(line).value.Some?
    ensures c !in ReadLine(line).value.value.1
  {
    hide Uncommented, Trim, Find, KeyOk;
    UncommentedAvoids(line, false, false, c);
    TrimAvoids(Uncommented(line, false, false), c);
    var trimmed := Trim(Uncommented(line, false, false));
    TrimAvoids(trimmed[Find(trimmed, '=') + 1..], c);
  }

  lemma ValueFits(key: string, raw: string, floats: string -> FloatText)
    requires KeyOk(key) && '\n' !in raw && ParseValue(raw, floats).Ok?
    ensures Fits(key, ParseValue(raw, floats).value)
  {
    hide KeyOk, Replace, Size;
    KeyOkExactly(key, true);
    if raw != [] && raw[0] == '"' {
      var inner := raw[1..|raw| - 1];
      ReplaceAvoids(inner, "\\\\", "\\", '\n');
      ReplaceAvoids(Replace(inner, "\\\\", "\\"), "\\\"", "\"", '\n');
    }
  }

  lemma {:induction false} ParsedFits(lines: seq<string>, number: nat, settings: Settings, floats: string -> FloatText)
    requires forall i | 0 <= i < |lines| :: '\n' !in lines[i]
    requires forall k | k in settings :: Fits(k, settings[k])
    requires ParseLines(lines, number, settings, floats).Ok?
    ensures var m := ParseLines(lines, number, settings, floats).value; forall k | k in m :: Fits(k, m[k])
  {
    hide ParseValue, ReadLine, Fits;
    if lines != [] {
      match ReadLine(lines[0])
      case Ok(None) => ParsedFits(lines[1..], number + 1, settings, floats);
      case Ok(Some((key, raw))) =>
        ReadAvoids(lines[0], '\n');
        ReadKey(lines[0]);
        ValueFits(key, raw, floats);
        ParsedFits(lines[1..], number + 1, settings[key := ParseValue(raw, floats).value], floats);
    }
  }

  lemma ReadKey(line: string)
    requires ReadLine(line).Ok? && ReadLine(line).value.Some?
    ensures KeyOk(ReadLine(line).value.value.0)
  {
  }

  // --- reading an entry back ---

  // A value that stands on a line of its own as it is.
  predicate Plain(value: string) { Tight(value) && Uncommented(value, false, false) == value && '\n' !in value }

  lemma {:induction false} NothingToStrip(before: string, rest: string)
    requires '"' !in before && '#' !in before
    ensures Uncommented(before + rest, false, false) == before + Uncommented(rest, false, false)
  {
    if before == [] {
      assert before + rest == rest;
    } else {
      assert before[0] in before && (before + rest)[1..] == before[1..] + rest;
      NothingToStrip(before[1..], rest);
    }
  }

  lemma EntryStays(key: string, value: string)
    requires ValidKey(key) && Plain(value)
    ensures Uncommented(Entry(key, value), false, false) == Entry(key, value)
  {
    hide Uncommented;
    assert forall i | 0 <= i < |key| :: KeyChar(key[i]);
    NothingToStrip(key + " = ", value);
    assert (key + " = ") + value == Entry(key, value);
  }

  lemma KeyIsTight(key: string)
    requires key != [] && ValidKey(key)
    ensures Tight(key) && forall i | 0 <= i < |key| :: key[i] != '='
  {
    assert forall i | 0 <= i < |key| :: KeyChar(key[i]);
  }

  lemma EntryShape(key: string, value: string)
    ensures var line := Entry(key, value);
            |line| == |key| + 3 + |value| && line[|key| + 1] == '=' && line[..|key| + 1] == "" + key + " "
            && line[|key| + 2..] == " " + value + "" && forall i | 0 <= i < |key| :: line[i] == key[i]
  {
  }

  lemma EntrySplits(key: string, value: string)
    requires key != [] && ValidKey(key) && Tight(value)
    ensures var line := Entry(key, value);
            && Trim(line) == line && Find(line, '=') == |key| + 1
            && Trim(line[..|key| + 1]) == key && Trim(line[|key| + 2..]) == value && DropCr(line) == line
  {
    hide Trim, Find, ValidKey;
    var line := Entry(key, value);
    KeyIsTight(key);
    EntryShape(key, value);
    assert Tight(line) by {
      assert line[0] == key[0] && line[|line| - 1] == value[|value| - 1];
    }
    FindAt(line, '=', |key| + 1);
    TrimAround("", key, " ");
    TrimAround(" ", value, "");
    assert "" + line + "" == line;
    TrimAround("", line, "");
  }

  lemma EntryReads(key: string, value: string)
    requires KeyOk(key) && Plain(value)
    ensures ReadLine(Entry(key, value)) == Ok(Some((key, value)))
    ensures '\n' !in Entry(key, value) && DropCr(Entry(key, value)) == Entry(key, value)
  {
    hide Uncommented, Trim, Size, Find, Tight;
    EntryStays(key, value);
    EntrySplits(key, value);
    assert forall i | 0 <= i < |key| :: KeyChar(key[i]);
    assert Entry(key, value) != [];
  }

  lemma PairStays(c: char, rest: string)
    ensures Uncommented(['\\', c] + rest, true, false) == ['\\', c] + Uncommented(rest, true, false)
  {
    assert (['\\', c] + rest)[1..] == [c] + rest && ([c] + rest)[1..] == rest;
    assert ['\\'] + ([c] + Uncommented(rest, true, false)) == ['\\', c] + Uncommented(rest, true, false);
  }

  lemma CharStays(c: char, rest: string)
    requires c != '\\' && c != '"'
    ensures Uncommented([c] + rest, true, false) == [c] + Uncommented(rest, true, false)
  {
    assert ([c] + rest)[1..] == rest;
  }

  lemma {:induction false} QuotedStays(text: string, rest: string)
    ensures Uncommented(Written(text) + rest, true, false) == Written(text) + Uncommented(rest, true, false)
  {
    hide Uncommented;
    if text == [] {
      assert [] + rest == rest;
    } else {
      QuotedStays(text[1..], rest);
      var tail := Written(text[1..]);
      if text[0] == '\\' || text[0] == '"' {
        assert Written(text) == ['\\', text[0]] + tail;
        assert Written(text) + rest == ['\\', text[0]] + (tail + rest);
        PairStays(text[0], tail + rest);
      } else {
        assert Written(text) + rest == [text[0]] + (tail + rest);
        CharStays(text[0], tail + rest);
      }
    }
  }

  lemma {:induction false} WrittenAvoids(text: string)
    requires '\n' !in text
    ensures '\n' !in Written(text)
  {
    if text != [] {
      assert text[0] in text;
      WrittenAvoids(text[1..]);
    }
  }

  lemma StringShows(text: string, floats: string -> FloatText)
    requires Size(text) <= MAX_STRING_BYTES && '\n' !in text
    ensures var raw := "\"" + Escaped(text) + "\""; Plain(raw) && ParseValue(raw, floats) == Ok(Str(text))
  {
    hide Unescaped, Escaped, Size, Written;
    EscapedIsWritten(text);
    WrittenAvoids(text);
    UnescapedEscaped(text);
    var raw := "\"" + Escaped(text) + "\"";
    assert raw[1..|raw| - 1] == Escaped(text);
    QuotedStays(text, "\"");
    assert raw[1..] == Written(text) + "\"";
    assert Uncommented("\"", true, false) == "\"" by { NothingLeft(false, false); }
    assert raw == ['"'] + (Written(text) + "\"");
  }

  lemma {:induction false} PlainChars(s: string)
    requires forall i | 0 <= i < |s| :: s[i] != '"' && s[i] != '#'
    ensures Uncommented(s, false, false) == s
  {
    if s != [] {
      PlainChars(s[1..]);
    }
  }

  lemma ShowChars(n: int)
    ensures var s := Decimal.ShowInt(n);
            s != [] && forall i | 0 <= i < |s| :: s[i] == '-' || Decimal.IsDigit(s[i])
  {
    hide Decimal.Show;
    assert forall c | c in Decimal.Show(if n < 0 then -n else n) :: Decimal.IsDigit(c);
  }

  lemma IntegerShows(n: i64, floats: string -> FloatText)
    ensures var raw := Decimal.ShowInt(n); Plain(raw) && ParseValue(raw, floats) == Ok(Integer(n))
  {
    hide Decimal.ShowInt, Decimal.ParseI64;
    Decimal.ParseShow(n);
    ShowChars(n);
    PlainChars(Decimal.ShowInt(n));
  }

  lemma ValueShows(key: string, value: Value, floats: string -> FloatText, show: u64 -> string)
    requires !value.Float? && Fits(key, value)
    ensures var raw := ShowValue(value, show); Plain(raw) && ParseValue(raw, floats) == Ok(value)
  {
    hide Plain, ParseValue, Escaped, Decimal.ShowInt;
    match value
    case Str(text) => StringShows(text, floats);
    case Integer(n) => IntegerShows(n, floats);
    case Boolean(b) => BooleanShows(b, floats);
  }

  lemma BooleanShows(b: bool, floats: string -> FloatText)
    ensures var raw := if b then "true" else "false"; Plain(raw) && ParseValue(raw, floats) == Ok(Boolean(b))
  {
    PlainChars(if b then "true" else "false");
  }

  // An entry is read whatever the white space around its key and value, and whatever comment follows.
  lemma LooseEntryReads(a: string, key: string, b: string, c: string, pieces: seq<Piece>, d: string, tail: string)
    requires Blank(a) && Blank(b) && Blank(c) && Blank(d) && KeyOk(key) && AllGood(pieces) && Tight(Laid(pieces))
    requires tail == [] || tail[0] == '#'
    ensures ReadLine(a + (key + (b + "=" + c) + Laid(pieces)) + d + tail) == Ok(Some((key, Laid(pieces))))
  {
    hide Uncommented, Trim, Size, Find, Tight, AllGood, Body, ValidKey;
    var kept := key + (b + "=" + c) + Laid(pieces);
    LooseEntryStays(a, key, b, c, pieces, d, tail);
    KeyIsTight(key);
    TightAround(key, b + "=" + c, Laid(pieces));
    TrimAround(a, kept, d);
    LooseEntrySplits(key, b, c, Laid(pieces));
  }

  lemma LooseEntryStays(a: string, key: string, b: string, c: string, pieces: seq<Piece>, d: string, tail: string)
    requires Blank(a) && Blank(b) && Blank(c) && Blank(d) && ValidKey(key) && AllGood(pieces)
    requires tail == [] || tail[0] == '#'
    ensures var kept := key + (b + "=" + c) + Laid(pieces);
            Uncommented(a + kept + d + tail, false, false) == a + kept + d
  {
    hide Uncommented, AllGood, Laid;
    var front, value := a + key + b + "=" + c, Laid(pieces);
    BlankIsBare(a);
    BlankIsBare(b);
    BlankIsBare(c);
    BlankIsBare(d);
    KeyIsBare(key);
    NothingToStrip(front, value + (d + tail));
    LaidStays(pieces, d + tail);
    NothingToStrip(d, tail);
    TailGoes(tail);
    var kept := key + (b + "=" + c) + value;
    assert a + kept + d + tail == front + (value + (d + tail));
    assert front + (value + (d + [])) == a + kept + d;
  }

  lemma KeyIsBare(key: string)
    requires ValidKey(key)
    ensures '"' !in key && '#' !in key
  {
  }

  lemma LooseEntrySplits(key: string, b: string, c: string, value: string)
    requires Blank(b) && Blank(c) && key != [] && ValidKey(key) && Tight(value)
    ensures var kept, at := key + (b + "=" + c) + value, |key| + |b|;
            Find(kept, '=') == at && Trim(kept[..at]) == key && Trim(kept[at + 1..]) == value
  {
    hide Trim, Find, ValidKey, Tight;
    var kept, at := key + (b + "=" + c) + value, |key| + |b|;
    KeyIsTight(key);
    BlankIsBare(b);
    assert kept[at] == '=' && kept[..at] == "" + key + b && kept[at + 1..] == c + value + "";
    forall j | 0 <= j < at
      ensures kept[j] != '='
    {
      assert if j < |key| then kept[j] == key[j] else kept[j] == b[j - |key|];
    }
    FindAt(kept, '=', at);
    TrimAround("", key, b);
    TrimAround(c, value, "");
  }

  lemma TailGoes(tail: string)
    requires tail == [] || tail[0] == '#'
    ensures Uncommented(tail, false, false) == []
  {
  }

  lemma TightAround(a: string, b: string, c: string)
    requires Tight(a) && Tight(c)
    ensures Tight(a + b + c)
  {
  }

  lemma BlankIsBare(s: string)
    requires Blank(s)
    ensures '"' !in s && '#' !in s && forall i | 0 <= i < |s| :: s[i] != '='
  {
    assert forall i | 0 <= i < |s| :: s[i] in s;
  }

  // What a value in bare text is: a truth value by its name, a number with a point or an exponent as a float,
  // any other an integer.
  lemma BareValueExactly(raw: string, floats: string -> FloatText)
    requires raw == [] || raw[0] != '"'
    ensures var value := ParseValue(raw, floats);
            && (value == Ok(Boolean(true)) <==> raw == "true") && (value == Ok(Boolean(false)) <==> raw == "false")
            && (value.Ok? && value.value.Integer? ==> forall c | c in raw :: c != '.' && c != 'e' && c != 'E')
            && (value == Err(InvalidInteger) ==> forall c | c in raw :: c != '.' && c != 'e' && c != 'E')
            && (value.Ok? && value.value.Float? ==> exists c | c in raw :: c == '.' || c == 'e' || c == 'E')
            && !(value.Ok? && value.value.Str?)
  {
    hide Decimal.ParseI64;
    assert "true"[3] == 'e' && "false"[4] == 'e';
  }

  lemma ParseNothing(number: nat, before: Settings, floats: string -> FloatText)
    ensures ParseLines([], number, before, floats) == Ok(before)
  {
  }

  // What is wrong with a line, once the settings in front of it are known.
  function Trouble(line: string, settings: Settings, floats: string -> FloatText): Option<Reason> {
    match ReadLine(line)
    case Err(reason) => Some(reason)
    case Ok(None) => None
    case Ok(Some((key, raw))) =>
      if key in settings then Some(DuplicateKey)
      else if ParseValue(raw, floats).Err? then Some(ParseValue(raw, floats).error)
      else None
  }

  // The first line that is wrong is reported, by its number from one, with what is wrong with it.
  lemma {:induction false} FirstBadLine(lines: seq<string>, n: nat, number: nat, before: Settings,
                                        floats: string -> FloatText)
    requires n < |lines| && ParseLines(lines[..n], number, before, floats).Ok?
    ensures var trouble := Trouble(lines[n], ParseLines(lines[..n], number, before, floats).value, floats);
            trouble.Some? ==> ParseLines(lines, number, before, floats) == Err(At(number + n, trouble.value))
    decreases n
  {
    hide ReadLine, ParseValue;
    if n > 0 {
      assert lines[..n][0] == lines[0] && lines[..n][1..] == lines[1..][..n - 1];
      match ReadLine(lines[0])
      case Ok(None) => FirstBadLine(lines[1..], n - 1, number + 1, before, floats);
      case Ok(Some((key, raw))) =>
        FirstBadLine(lines[1..], n - 1, number + 1, before[key := ParseValue(raw, floats).value], floats);
    }
  }

  lemma ErrorNamesTheLine(text: string, n: nat, floats: string -> FloatText)
    requires Size(text) <= 1_048_576 && n < |Lines(text)| && ParseLines(Lines(text)[..n], 1, map[], floats).Ok?
    ensures var trouble := Trouble(Lines(text)[n], ParseLines(Lines(text)[..n], 1, map[], floats).value, floats);
            trouble.Some? ==> Parse(text, floats) == Err(At(n + 1, trouble.value))
  {
    hide Lines, ParseLines, Trouble, Size;
    FirstBadLine(Lines(text), n, 1, map[], floats);
  }

  lemma ParseStep(lines: seq<string>, number: nat, before: Settings, floats: string -> FloatText, key: string,
                  raw: string, value: Value)
    requires lines != [] && ReadLine(lines[0]) == Ok(Some((key, raw))) && ParseValue(raw, floats) == Ok(value)
               && key !in before
    ensures ParseLines(lines, number, before, floats)
              == ParseLines(lines[1..], number + 1, before[key := value], floats)
  {
  }

  lemma SettingsGrow(keys: seq<string>, before: Settings, settings: Settings)
    requires keys != [] && forall i | 0 <= i < |keys| :: keys[i] in settings
    requires forall i | 0 < i < |keys| :: keys[i] != keys[0]
    ensures before[keys[0] := settings[keys[0]]] + (map k | k in keys[1..] :: settings[k])
              == before + map k | k in keys :: settings[k]
  {
    assert keys == [keys[0]] + keys[1..];
  }

  lemma {:induction false} EntriesParse(keys: seq<string>, number: nat, before: Settings, settings: Settings,
                                        floats: string -> FloatText, show: u64 -> string)
    requires forall i | 0 <= i < |keys| ::
               keys[i] in settings && keys[i] !in before && Fits(keys[i], settings[keys[i]])
                 && !settings[keys[i]].Float?
    requires forall i, j | 0 <= i < j < |keys| :: keys[i] != keys[j]
    ensures ParseLines(Entries(keys, settings, show), number, before, floats)
              == Ok(before + map k | k in keys :: settings[k])
  {
    hide ReadLine, ParseValue, Entry, ShowValue, Fits, Plain, ParseLines;
    var lines := Entries(keys, settings, show);
    if keys == [] {
      ParseNothing(number, before, floats);
      assert before + map[] == before;
    } else {
      var key := keys[0];
      ValueShows(key, settings[key], floats, show);
      FitsKey(key, settings[key]);
      EntryReads(key, ShowValue(settings[key], show));
      EntriesParse(keys[1..], number + 1, before[key := settings[key]], settings, floats, show);
      assert lines[1..] == Entries(keys[1..], settings, show);
      ParseStep(lines, number, before, floats, key, ShowValue(settings[key], show), settings[key]);
      SettingsGrow(keys, before, settings);
    }
  }

  lemma FitsKey(key: string, value: Value)
    requires Fits(key, value)
    ensures KeyOk(key)
  {
    hide KeyOk, Size;
    KeyOkExactly(key, true);
  }

  lemma {:induction false} DroppedSame(lines: seq<string>)
    requires forall i | 0 <= i < |lines| :: DropCr(lines[i]) == lines[i]
    ensures Dropped(lines) == lines
  {
    if lines != [] {
      DroppedSame(lines[1..]);
    }
  }

  lemma RenderedLines(keys: seq<string>, settings: Settings, floats: string -> FloatText, show: u64 -> string)
    requires forall i | 0 <= i < |keys| :: keys[i] in settings && Fits(keys[i], settings[keys[i]])
               && !settings[keys[i]].Float?
    ensures Lines(Joined(Entries(keys, settings, show))) == Entries(keys, settings, show)
  {
    hide Entry, ShowValue, Fits, Plain, Lines, DropCr;
    var lines := Entries(keys, settings, show);
    forall i | 0 <= i < |lines|
      ensures '\n' !in lines[i] && DropCr(lines[i]) == lines[i]
    {
      ValueShows(keys[i], settings[keys[i]], floats, show);
      FitsKey(keys[i], settings[keys[i]]);
      EntryReads(keys[i], ShowValue(settings[keys[i]], show));
    }
    LinesOfJoined(lines);
    DroppedSame(lines);
  }

  lemma ParseFits(text: string, floats: string -> FloatText)
    requires Parse(text, floats).Ok?
    ensures Size(text) <= MAX_CFG_BYTES && var m := Parse(text, floats).value; forall k | k in m :: Fits(k, m[k])
  {
    hide Fits, Lines, ParseLines, Size;
    LinesAreLines(text);
    ParsedFits(Lines(text), 1, map[], floats);
  }

  lemma RenderParses(settings: Settings, floats: string -> FloatText, show: u64 -> string)
    requires Size(Render(settings, show)) <= MAX_CFG_BYTES
    requires forall k | k in settings :: Fits(k, settings[k]) && !settings[k].Float?
    ensures Parse(Render(settings, show), floats) == Ok(settings)
  {
    hide Fits, Lines, ParseLines, Joined, Entries, Size, Keys.Sorted;
    var keys := Keys.Sorted(settings.Keys);
    Keys.AscendingIsDistinct(keys);
    forall i | 0 <= i < |keys|
      ensures keys[i] in settings && Fits(keys[i], settings[keys[i]])
    {
      assert keys[i] in keys;
    }
    RenderedLines(keys, settings, floats, show);
    EntriesParse(keys, 1, map[], settings, floats, show);
    assert map[] + (map k | k in keys :: settings[k]) == settings;
  }

  // Settings without floating-point numbers survive rendering and parsing exactly when the text is
  // short enough, every key is one the parser takes, and every string is short enough and on one line.
  lemma RoundTripExactly(settings: Settings, floats: string -> FloatText, show: u64 -> string)
    requires forall k | k in settings :: !settings[k].Float?
    ensures Parse(Render(settings, show), floats) == Ok(settings) <==>
              Size(Render(settings, show)) <= 1_048_576 && forall k | k in settings :: Fits(k, settings[k])
  {
    hide Fits, Parse, Render, Size;
    if Parse(Render(settings, show), floats) == Ok(settings) {
      ParseFits(Render(settings, show), floats);
    }
    if Size(Render(settings, show)) <= 1_048_576 && forall k | k in settings :: Fits(k, settings[k]) {
      RenderParses(settings, floats, show);
    }
  }

  // A line break in a string is written as it is, and the text is then refused.
  lemma LineBreakIsLost(floats: string -> FloatText, show: u64 -> string)
    ensures var settings := map["motd" := Str("a\nb")]; Parse(Render(settings, show), floats) != Ok(settings)
  {
    hide Parse, Render;
    var settings: Settings := map["motd" := Str("a\nb")];
    RoundTripExactly(settings, floats, show);
    assert "a\nb"[1] == '\n';
    assert !Fits("motd", settings["motd"]);
  }
}
