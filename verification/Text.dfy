/** Text as Rust keeps it: Unicode scalar values, stored as UTF-8 (RFC 3629), trimmed of Unicode white space. */
module Text {
  import opened Wrappers
  import opened Bytes

  // --- UTF-8, section 3 of RFC 3629 ---

  function Encode(c: char): (r: seq<byte>)
    ensures 1 <= |r| <= 4
  {
    EncodeCode(c as int)
  }

  function EncodeCode(n: nat): (r: seq<byte>)
    requires n < 0x110000
    ensures 1 <= |r| <= 4
  {
    if n < 0x80 then [n]
    else if n < 0x800 then [0xC0 + n / 64, 0x80 + n % 64]
    else if n < 0x10000 then [0xE0 + n / 64 / 64, 0x80 + n / 64 % 64, 0x80 + n % 64]
    else [0xF0 + n / 64 / 64 / 64, 0x80 + n / 64 / 64 % 64, 0x80 + n / 64 % 64, 0x80 + n % 64]
  }

  // How many bytes the first byte announces; 0 for a byte no character starts with.
  function Announced(b: byte): (size: nat)
    ensures size <= 4
  {
    if b < 0x80 then 1
    else if b < 0xC0 then 0
    else if b < 0xE0 then 2
    else if b < 0xF0 then 3
    else if b < 0xF8 then 4
    else 0
  }

  predicate Follows(b: byte) { 0x80 <= b < 0xC0 }

  // The code point of a first byte and the bytes behind it.
  function Code(b: seq<byte>): int
    requires 1 <= |b| <= 4
  {
    match |b| {
      case 1 => b[0]
      case 2 => Code2(b[0], b[1])
      case 3 => Code3(b[0], b[1], b[2])
      case _ => Code4(b[0], b[1], b[2], b[3])
    }
  }

  function Code2(a: int, b: int): int { 64 * (a - 0xC0) + b - 0x80 }

  function Code3(a: int, b: int, c: int): int { 64 * (64 * (a - 0xE0) + b - 0x80) + c - 0x80 }

  function Code4(a: int, b: int, c: int, d: int): int { 64 * (64 * (64 * (a - 0xF0) + b - 0x80) + c - 0x80) + d - 0x80 }

  predicate Scalar(n: int) { 0 <= n < 0xD800 || 0xE000 <= n < 0x110000 }

  // The smallest code point a sequence of this size may carry: shorter forms are the only ones.
  function Smallest(size: nat): nat {
    match size { case 1 => 0 case 2 => 0x80 case 3 => 0x800 case _ => 0x10000 }
  }

  function DecodeOne(bytes: seq<byte>): (r: Option<(char, nat)>)
    requires bytes != []
    ensures r.Some? ==> 1 <= r.value.1 <= |bytes|
  {
    var size := Announced(bytes[0]);
    if size == 0 || size > |bytes| || exists i | 1 <= i < size :: !Follows(bytes[i]) then None else
    var n := Code(bytes[..size]);
    if Scalar(n) && n >= Smallest(size) then Some((n as char, size)) else None
  }

  function Utf8(s: string): seq<byte> {
    if s == [] then [] else Encode(s[0]) + Utf8(s[1..])
  }

  // String::from_utf8 and str::from_utf8.
  function FromUtf8(bytes: seq<byte>): Option<string> {
    if bytes == [] then Some("") else
    var first := DecodeOne(bytes);
    if first.None? then None else
    var rest := FromUtf8(bytes[first.value.1..]);
    if rest.None? then None else Some([first.value.0] + rest.value)
  }

  predicate Shaped(b: seq<byte>) {
    1 <= |b| <= 4 && Announced(b[0]) == |b| && forall i | 1 <= i < |b| :: Follows(b[i])
  }

  lemma CodeOfEncode(n: nat)
    requires n < 0x110000
    ensures var e := EncodeCode(n); Shaped(e) && Code(e) == n && n >= Smallest(|e|)
  {
  }

  lemma EncodeOfCode(b: seq<byte>)
    requires Shaped(b) && Smallest(|b|) <= Code(b) < 0x110000
    ensures EncodeCode(Code(b)) == b
  {
    if |b| == 2 {
      assert Follows(b[1]);
    } else if |b| == 3 {
      assert Follows(b[1]) && Follows(b[2]);
    } else if |b| == 4 {
      assert Follows(b[1]) && Follows(b[2]) && Follows(b[3]);
    }
  }

  lemma DecodeEncode(c: char, rest: seq<byte>)
    ensures DecodeOne(Encode(c) + rest) == Some((c, |Encode(c)|))
  {
    hide EncodeCode, Code, Announced, Follows;
    var e := Encode(c);
    CodeOfEncode(c as int);
    assert (e + rest)[..|e|] == e;
    assert forall i | 0 <= i < |e| :: (e + rest)[i] == e[i];
  }

  lemma EncodeDecode(bytes: seq<byte>)
    requires bytes != [] && DecodeOne(bytes).Some?
    ensures var r := DecodeOne(bytes).value; Encode(r.0) == bytes[..r.1]
  {
    hide EncodeCode, Code, Announced, Follows;
    EncodeOfCode(bytes[..Announced(bytes[0])]);
  }

  lemma {:induction false} FromToUtf8(s: string)
    ensures FromUtf8(Utf8(s)) == Some(s)
  {
    hide Encode, DecodeOne;
    if s != [] {
      DecodeEncode(s[0], Utf8(s[1..]));
      FromToUtf8(s[1..]);
      assert Utf8(s)[|Encode(s[0])|..] == Utf8(s[1..]);
      assert s == [s[0]] + s[1..];
    }
  }

  // The bytes of a text are determined: no second encoding is accepted.
  lemma {:induction false} ToFromUtf8(bytes: seq<byte>)
    requires FromUtf8(bytes).Some?
    ensures Utf8(FromUtf8(bytes).value) == bytes
    decreases |bytes|
  {
    hide Encode, DecodeOne;
    if bytes != [] {
      var r := DecodeOne(bytes).value;
      EncodeDecode(bytes);
      ToFromUtf8(bytes[r.1..]);
      assert FromUtf8(bytes).value[1..] == FromUtf8(bytes[r.1..]).value;
      assert bytes == bytes[..r.1] + bytes[r.1..];
    }
  }

  lemma {:induction false} Utf8Concat(a: string, b: string)
    ensures Utf8(a + b) == Utf8(a) + Utf8(b)
  {
    hide Encode;
    if a == [] {
      assert a + b == b;
    } else {
      Utf8Concat(a[1..], b);
      assert (a + b)[1..] == a[1..] + b;
    }
  }

  // str::len
  function Size(s: string): nat { |Utf8(s)| }

  lemma {:induction false} SizeBounds(s: string)
    ensures |s| <= Size(s) <= 4 * |s|
  {
    hide Encode;
    if s != [] {
      SizeBounds(s[1..]);
    }
  }

  // --- white space ---

  // char::is_whitespace: the Unicode property White_Space.
  predicate IsWhite(c: char) {
    var n := c as int;
    || 9 <= n <= 13 || n == 0x20 || n == 0x85 || n == 0xA0 || n == 0x1680
    || 0x2000 <= n <= 0x200A || n == 0x2028 || n == 0x2029 || n == 0x202F || n == 0x205F || n == 0x3000
  }

  predicate Blank(s: string) { forall c | c in s :: IsWhite(c) }

  function TrimStart(s: string): (r: string)
    ensures r == [] || !IsWhite(r[0])
  {
    if s != [] && IsWhite(s[0]) then TrimStart(s[1..]) else s
  }

  function TrimEnd(s: string): (r: string)
    ensures r == [] || !IsWhite(r[|r| - 1])
  {
    if s != [] && IsWhite(s[|s| - 1]) then TrimEnd(s[..|s| - 1]) else s
  }

  function Trim(s: string): string { TrimEnd(TrimStart(s)) }

  // trim().is_empty() in the source is Blank here.
  lemma {:induction false} BlankExactly(s: string)
    ensures Trim(s) == "" <==> Blank(s)
  {
    if s != [] && IsWhite(s[0]) {
      BlankExactly(s[1..]);
      assert s == [s[0]] + s[1..];
    } else if s != [] {
      TrimEndKeeps(s);
    }
  }

  lemma {:induction false} TrimEndKeeps(s: string)
    requires s != [] && !IsWhite(s[0])
    ensures TrimEnd(s) != [] && TrimEnd(s)[0] == s[0]
  {
    if IsWhite(s[|s| - 1]) {
      TrimEndKeeps(s[..|s| - 1]);
    }
  }

  // Text that white space does not reach the ends of.
  predicate Tight(s: string) { s != [] && !IsWhite(s[0]) && !IsWhite(s[|s| - 1]) }

  lemma {:induction false} TrimStartDrops(a: string, s: string)
    requires Blank(a)
    ensures TrimStart(a + s) == TrimStart(s)
  {
    if a == [] {
      assert a + s == s;
    } else {
      TrimStartDrops(a[1..], s);
      assert a[0] in a && (a + s)[1..] == a[1..] + s;
    }
  }

  lemma {:induction false} TrimEndDrops(s: string, b: string)
    requires Blank(b)
    ensures TrimEnd(s + b) == TrimEnd(s)
  {
    if b == [] {
      assert s + b == s;
    } else {
      var n := |b| - 1;
      TrimEndDrops(s, b[..n]);
      assert b[n] in b && (s + b)[..|s + b| - 1] == s + b[..n];
    }
  }

  lemma TrimAround(a: string, s: string, b: string)
    requires Blank(a) && Blank(b) && Tight(s)
    ensures Trim(a + s + b) == s
  {
    TrimStartDrops(a, s + b);
    assert a + s + b == a + (s + b);
    assert TrimStart(s + b) == s + b;
    TrimEndDrops(s, b);
  }

  // White space at the end makes no difference.
  lemma {:induction false} TrimDropsLast(s: string, b: string)
    requires Blank(b)
    ensures Trim(s + b) == Trim(s)
  {
    if s == [] {
      assert [] + b == b;
      BlankExactly(b);
    } else if IsWhite(s[0]) {
      TrimDropsLast(s[1..], b);
      assert (s + b)[1..] == s[1..] + b;
    } else {
      assert TrimStart(s + b) == s + b;
      TrimEndDrops(s, b);
    }
  }

  // Trimming takes away white space and nothing else.
  lemma {:induction false} TrimSplits(s: string) returns (a: string, b: string)
    ensures Blank(a) && Blank(b) && s == a + Trim(s) + b && (Trim(s) == [] || Tight(Trim(s)))
  {
    var t;
    a, t := TrimStartSplits(s);
    var u;
    u, b := TrimEndSplits(t);
  }

  lemma {:induction false} TrimStartSplits(s: string) returns (a: string, t: string)
    ensures Blank(a) && t == TrimStart(s) && s == a + t
  {
    if s != [] && IsWhite(s[0]) {
      a, t := TrimStartSplits(s[1..]);
      a := [s[0]] + a;
    } else {
      a, t := [], s;
    }
  }

  lemma {:induction false} TrimEndSplits(s: string) returns (t: string, b: string)
    ensures Blank(b) && t == TrimEnd(s) && s == t + b
    ensures t != [] ==> t[0] == s[0]
  {
    if s != [] && IsWhite(s[|s| - 1]) {
      t, b := TrimEndSplits(s[..|s| - 1]);
      b := b + [s[|s| - 1]];
    } else {
      t, b := s, [];
    }
  }
}
