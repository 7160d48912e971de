/** The settings editor of crates/launcher: one key of a configuration text is set, line by line. */
module Launcher {
  import opened Wrappers
  import opened Bytes
  import opened Text
  import opened Cfg

  // The key, optional white space and an equals sign, after optional white space.
  predicate Matches(line: string, key: string) {
    var trimmed := TrimStart(line);
    key <= trimmed && var rest := TrimStart(trimmed[|key|..]); rest != [] && rest[0] == '='
  }

  function EditLines(lines: seq<string>, key: string, value: string, found: bool): seq<string> {
    if lines == [] then
      if found then [] else [Entry(key, value)]
    else if Matches(lines[0], key) then
      (if found then [] else [Entry(key, value)]) + EditLines(lines[1..], key, value, true)
    else
      [lines[0]] + EditLines(lines[1..], key, value, found)
  }

  method UpdateCfgSetting(text: string, key: string, value: string) returns (output: string)
    ensures output == Joined(EditLines(Lines(text), key, value, false))
  {
    hide Matches, Entry, Joined;
    var found := false;
    output := "";
    var lines := Lines(text);
    for i := 0 to |lines|
      invariant Joined(EditLines(lines, key, value, false)) == output + Joined(EditLines(lines[i..], key, value, found))
    {
      assert lines[i..][0] == lines[i] && lines[i..][1..] == lines[i + 1..];
      ghost var rest := EditLines(lines[i + 1..], key, value, true);
      ghost var same := EditLines(lines[i + 1..], key, value, found);
      if Matches(lines[i], key) {
        if found {
          assert [] + rest == rest;
          continue;
        }
        AppendsLine(output, Entry(key, value), rest);
        EntryParts(output, key, value);
        output := output + key;
        output := output + " = ";
        output := output + value;
        output := output + "\n";
        found := true;
      } else {
        AppendsLine(output, lines[i], same);
        output := output + lines[i];
        output := output + "\n";
      }
    }
    JoinedNothing();
    assert lines[|lines|..] == [];
    if !found {
      AppendsLine(output, Entry(key, value), []);
      EntryParts(output, key, value);
      assert [Entry(key, value)] + [] == [Entry(key, value)];
      output := output + key;
      output := output + " = ";
      output := output + value;
      output := output + "\n";
    }
  }

  lemma AppendsLine(before: string, line: string, rest: seq<string>)
    ensures before + Joined([line] + rest) == before + line + "\n" + Joined(rest)
  {
    assert ([line] + rest)[1..] == rest;
  }

  // --- where the edit lands ---

  function FirstMatch(lines: seq<string>, key: string): (i: nat)
    ensures i <= |lines|
    ensures forall j | 0 <= j < i :: !Matches(lines[j], key)
    ensures i < |lines| ==> Matches(lines[i], key)
  {
    if lines == [] || Matches(lines[0], key) then 0 else 1 + FirstMatch(lines[1..], key)
  }

  // The lines that do not set the key.
  function Others(lines: seq<string>, key: string): seq<string> {
    if lines == [] then [] else (if Matches(lines[0], key) then [] else [lines[0]]) + Others(lines[1..], key)
  }

  lemma {:induction false} EditFound(lines: seq<string>, key: string, value: string)
    ensures EditLines(lines, key, value, true) == Others(lines, key)
  {
    if lines != [] {
      EditFound(lines[1..], key, value);
    }
  }

  // Everything before the first line that sets the key stays, the new line takes its place or comes
  // last, and behind it the other lines follow in their order.
  lemma {:induction false} EditShape(lines: seq<string>, key: string, value: string)
    ensures var i := FirstMatch(lines, key);
            EditLines(lines, key, value, false) == lines[..i] + [Entry(key, value)] + Others(lines[i..], key)
  {
    hide Matches, Entry;
    if lines != [] {
      if Matches(lines[0], key) {
        EditFound(lines[1..], key, value);
        assert lines[0..] == lines;
      } else {
        EditShape(lines[1..], key, value);
        var i := FirstMatch(lines[1..], key);
        assert lines[1..][..i] == lines[1..i + 1] && lines[1..][i..] == lines[i + 1..];
        assert [lines[0]] + lines[1..i + 1] == lines[..i + 1];
      }
    }
  }

  // --- the editor and the parser agree on what a line sets ---

  lemma {:induction false} UncommentedIsPrefix(line: string, quoted: bool, escaped: bool)
    ensures Uncommented(line, quoted, escaped) <= line
  {
    if line != [] {
      UncommentedIsPrefix(line[1..], false, false);
      UncommentedIsPrefix(line[1..], true, false);
      UncommentedIsPrefix(line[1..], true, true);
      assert line == [line[0]] + line[1..];
    }
  }

  lemma {:induction false} TrimEndAfter(s: string, t: string)
    requires s != [] && !IsWhite(s[|s| - 1])
    ensures TrimEnd(s + t) == s + TrimEnd(t)
  {
    if t == [] {
      assert s + t == s;
    } else if IsWhite(t[|t| - 1]) {
      TrimEndAfter(s, t[..|t| - 1]);
      assert (s + t)[..|s + t| - 1] == s + t[..|t| - 1];
    }
  }

  // What the parser makes of a line that sets a key.
  lemma SetsKey(a: string, key: string, b: string, rest: string)
    requires Blank(a) && Blank(b) && KeyOk(key)
    ensures var r := ReadLine(a + key + b + "=" + rest); r.Ok? && r.value.Some? && r.value.value.0 == key
  {
    hide Size, Trim;
    var line := a + key + b + "=" + rest;
    var front := a + key + b + "=";
    assert forall i | 0 <= i < |key| :: KeyChar(key[i]);
    assert forall i | 0 <= i < |a| :: a[i] in a;
    assert forall i | 0 <= i < |b| :: b[i] in b;
    assert '"' !in front && '#' !in front;
    NothingToStrip(front, rest);
    var u := Uncommented(rest, false, false);
    SplitsAtKey(a, key, b, u);
  }

  lemma SplitsAtKey(a: string, key: string, b: string, u: string)
    requires Blank(a) && Blank(b) && key != [] && ValidKey(key)
    ensures var t := Trim(a + key + b + "=" + u);
            t != [] && Find(t, '=') == |key| + |b| && |t| > |key| + |b| && Trim(t[..|key| + |b|]) == key
  {
    KeyIsTight(key);
    var body := key + b + "=";
    assert a + key + b + "=" + u == a + (body + u);
    TrimStartDrops(a, body + u);
    assert TrimStart(body + u) == body + u;
    TrimEndAfter(body, u);
    var t := body + TrimEnd(u);
    assert forall i | 0 <= i < |b| :: b[i] in b;
    FindAt(t, '=', |key| + |b|);
    assert t[..|key| + |b|] == "" + key + b;
    TrimAround("", key, b);
  }

  lemma MatchSplits(line: string, key: string) returns (a: string, b: string, rest: string)
    requires Matches(line, key)
    ensures Blank(a) && Blank(b) && line == a + key + b + "=" + rest
  {
    var t, u;
    a, t := TrimStartSplits(line);
    b, u := TrimStartSplits(t[|key|..]);
    rest := u[1..];
    assert t == key + t[|key|..];
    assert u == "=" + rest;
  }

  lemma SplitMatches(a: string, key: string, b: string, rest: string)
    requires Blank(a) && Blank(b) && key != [] && ValidKey(key)
    ensures Matches(a + key + b + "=" + rest, key)
  {
    KeyIsTight(key);
    var tail := b + ("=" + rest);
    assert a + key + b + "=" + rest == a + (key + tail);
    TrimStartDrops(a, key + tail);
    assert TrimStart(key + tail) == key + tail;
    assert (key + tail)[|key|..] == tail;
    TrimStartDrops(b, "=" + rest);
  }

  lemma ReadSplits(line: string, key: string) returns (a: string, b: string, rest: string)
    requires ReadLine(line).Ok? && ReadLine(line).value.Some? && ReadLine(line).value.value.0 == key
    ensures Blank(a) && Blank(b) && line == a + key + b + "=" + rest
  {
    hide Uncommented, Trim, Find, KeyOk, Tight, Blank;
    UncommentedIsPrefix(line, false, false);
    var s := Uncommented(line, false, false);
    var end;
    a, end := TrimSplits(s);
    var t := Trim(s);
    var i := Find(t, '=');
    KeyIsSome(key);
    b := FrontSplits(t, i, key);
    rest := t[i + 1..] + end + line[|s|..];
    Glue(line, s, t, a, key + b + "=", t[i + 1..], end);
  }

  lemma KeyIsSome(key: string)
    requires KeyOk(key)
    ensures key != []
  {
  }

  lemma Glue(line: string, s: string, t: string, a: string, front: string, back: string, end: string)
    requires s <= line && s == a + t + end && t == front + back
    ensures line == a + front + (back + end + line[|s|..])
  {
    assert line == s + line[|s|..];
  }

  lemma FrontSplits(t: string, i: nat, key: string) returns (b: string)
    requires Tight(t) && i < |t| && t[i] == '=' && Trim(t[..i]) == key && key != []
    ensures Blank(b) && t == key + b + "=" + t[i + 1..]
  {
    hide Trim;
    var lead;
    lead, b := TrimSplits(t[..i]);
    BlankPrefix(t, lead);
    assert t == t[..i] + "=" + t[i + 1..];
  }

  lemma BlankPrefix(t: string, lead: string)
    requires lead <= t && Blank(lead)
    ensures lead == [] || (t != [] && IsWhite(t[0]))
  {
    if lead != [] {
      assert lead[0] in lead;
    }
  }

  // A line matches in the editor exactly when the parser reads that key from it.
  lemma MatchesExactly(line: string, key: string)
    requires KeyOk(key)
    ensures Matches(line, key) <==>
              ReadLine(line).Ok? && ReadLine(line).value.Some? && ReadLine(line).value.value.0 == key
  {
    hide Matches, ReadLine, Size, Blank;
    if Matches(line, key) {
      var a, b, rest := MatchSplits(line, key);
      SetsKey(a, key, b, rest);
    }
    if ReadLine(line).Ok? && ReadLine(line).value.Some? && ReadLine(line).value.value.0 == key {
      var a, b, rest := ReadSplits(line, key);
      SplitMatches(a, key, b, rest);
    }
  }

  // --- editing the text is updating the map ---

  lemma CarriageReturn(line: string)
    ensures ReadLine(DropCr(line)) == ReadLine(line)
  {
    hide Trim, Find, KeyOk, Uncommented;
    if line != [] && line[|line| - 1] == '\r' {
      var front := line[..|line| - 1];
      assert line == front + "\r";
      var b := UncommentedMore(front, "\r", false, false);
      TrimDropsLast(Uncommented(front, false, false), b);
    }
  }

  lemma {:induction false} UncommentedMore(line: string, b: string, quoted: bool, escaped: bool) returns (c: string)
    requires b == "\r"
    ensures Uncommented(line + b, quoted, escaped) == Uncommented(line, quoted, escaped) + c && Blank(c)
  {
    if line == [] {
      assert line + b == b && b[1..] == [];
      c := b;
    } else {
      assert (line + b)[1..] == line[1..] + b;
      if escaped {
        c := UncommentedMore(line[1..], b, quoted, false);
      } else if quoted && line[0] == '\\' {
        c := UncommentedMore(line[1..], b, quoted, true);
      } else if line[0] == '"' {
        c := UncommentedMore(line[1..], b, !quoted, false);
      } else if line[0] == '#' && !quoted {
        c := [];
      } else {
        c := UncommentedMore(line[1..], b, quoted, false);
      }
    }
  }

  lemma {:induction false} DroppedParses(lines: seq<string>, number: nat, settings: Settings,
                                         floats: string -> FloatText)
    ensures ParseLines(Dropped(lines), number, settings, floats) == ParseLines(lines, number, settings, floats)
  {
    hide ReadLine, ParseValue, DropCr;
    if lines != [] {
      CarriageReturn(lines[0]);
      assert Dropped(lines)[1..] == Dropped(lines[1..]);
      match ReadLine(lines[0])
      case Err(_) =>
      case Ok(None) =>
        DroppedParses(lines[1..], number + 1, settings, floats);
      case Ok(Some((key, raw))) =>
        if ParseValue(raw, floats).Ok? {
          DroppedParses(lines[1..], number + 1, settings[key := ParseValue(raw, floats).value], floats);
        }
    }
  }

  // A key that is known already is not set again by text that parses.
  lemma {:induction false} LaterLinesLeave(lines: seq<string>, number: nat, settings: Settings, key: string,
                                           raw: string, value: Value, floats: string -> FloatText)
    requires KeyOk(key) && key in settings && ParseLines(lines, number, settings, floats).Ok?
    ensures EditLines(lines, key, raw, true) == lines
    ensures ParseLines(lines, number, settings[key := value], floats)
              == Ok(ParseLines(lines, number, settings, floats).value[key := value])
  {
    hide ReadLine, ParseValue, Matches, KeyOk;
    if lines != [] {
      MatchesExactly(lines[0], key);
      match ReadLine(lines[0])
      case Ok(None) =>
        LaterLinesLeave(lines[1..], number + 1, settings, key, raw, value, floats);
      case Ok(Some((other, text))) =>
        var v := ParseValue(text, floats).value;
        LaterLinesLeave(lines[1..], number + 1, settings[other := v], key, raw, value, floats);
        assert settings[other := v][key := value] == settings[key := value][other := v];
    }
  }

  lemma {:induction false} EditedLinesParse(lines: seq<string>, number: nat, settings: Settings, key: string,
                                            raw: string, value: Value, floats: string -> FloatText)
    requires KeyOk(key) && Plain(raw) && ParseValue(raw, floats) == Ok(value)
    requires key !in settings && ParseLines(lines, number, settings, floats).Ok?
    ensures ParseLines(EditLines(lines, key, raw, false), number, settings, floats)
              == Ok(ParseLines(lines, number, settings, floats).value[key := value])
  {
    hide ReadLine, ParseValue, Matches, KeyOk, Entry, Plain;
    EntryReads(key, raw);
    var edited := EditLines(lines, key, raw, false);
    if lines == [] {
      ParseStep(edited, number, settings, floats, key, raw, value);
      assert edited[1..] == [];
    } else {
      MatchesExactly(lines[0], key);
      match ReadLine(lines[0])
      case Ok(None) =>
        EditedLinesParse(lines[1..], number + 1, settings, key, raw, value, floats);
      case Ok(Some((other, text))) =>
        var v := ParseValue(text, floats).value;
        if other == key {
          LaterLinesLeave(lines[1..], number + 1, settings[key := v], key, raw, value, floats);
          ParseStep(edited, number, settings, floats, key, raw, value);
          assert edited[1..] == lines[1..];
          assert settings[key := v][key := value] == settings[key := value];
        } else {
          EditedLinesParse(lines[1..], number + 1, settings[other := v], key, raw, value, floats);
          ParseStep(edited, number, settings, floats, other, text, v);
        }
    }
  }

  lemma {:induction false} EditAvoids(lines: seq<string>, key: string, raw: string, found: bool)
    requires forall i | 0 <= i < |lines| :: '\n' !in lines[i]
    requires '\n' !in Entry(key, raw)
    ensures forall i | 0 <= i < |EditLines(lines, key, raw, found)| :: '\n' !in EditLines(lines, key, raw, found)[i]
  {
    hide Matches, Entry;
    if lines != [] {
      EditAvoids(lines[1..], key, raw, found);
      EditAvoids(lines[1..], key, raw, true);
    }
  }

  // Setting a key of a text that parses sets it in the map and changes nothing else, as long as the
  // new text stays within the parser's bound.
  lemma EditIsUpdate(text: string, key: string, raw: string, value: Value, floats: string -> FloatText)
    requires Parse(text, floats).Ok? && KeyOk(key) && Plain(raw) && ParseValue(raw, floats) == Ok(value)
    ensures var output := Joined(EditLines(Lines(text), key, raw, false));
            Parse(output, floats) == Ok(Parse(text, floats).value[key := value]) <==> Size(output) <= 1_048_576
  {
    hide ParseLines, ParseValue, EditLines, Lines, Joined, KeyOk, Plain, Size;
    var lines := Lines(text);
    var edited := EditLines(lines, key, raw, false);
    LinesAreLines(text);
    EntryReads(key, raw);
    EditAvoids(lines, key, raw, false);
    LinesOfJoined(edited);
    EditedLinesParse(lines, 1, map[], key, raw, value, floats);
    DroppedParses(edited, 1, map[], floats);
  }
}
