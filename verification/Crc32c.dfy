/**
 CRC-32C as section 12.1 of RFC 3720 defines it and crates/journal computes it: the reflected
 polynomial 0x82f63b78, the register preset to all ones and complemented at the end.

 A 32-bit word is its list of bits, the lowest first, so that shifting right drops the head.
 */
module Crc32c {
  import opened Bytes

  function ToBits(n: nat, width: nat): (bits: seq<bool>)
    ensures |bits| == width
  {
    if width == 0 then [] else [n % 2 == 1] + ToBits(n / 2, width - 1)
  }

  function FromBits(bits: seq<bool>): nat {
    if bits == [] then 0 else (if bits[0] then 1 else 0) + 2 * FromBits(bits[1..])
  }

  lemma {:induction false} FromToBits(n: nat, width: nat)
    requires n < Pow2(width)
    ensures FromBits(ToBits(n, width)) == n
  {
    if width != 0 {
      FromToBits(n / 2, width - 1);
      assert ToBits(n, width)[1..] == ToBits(n / 2, width - 1);
    }
  }

  lemma {:induction false} ToFromBits(bits: seq<bool>)
    ensures FromBits(bits) < Pow2(|bits|)
    ensures ToBits(FromBits(bits), |bits|) == bits
  {
    if bits != [] {
      ToFromBits(bits[1..]);
      assert bits == [bits[0]] + bits[1..];
    }
  }

  function Pow2(n: nat): nat { if n == 0 then 1 else 2 * Pow2(n - 1) }

  type word = w: seq<bool> | |w| == 32 witness ToBits(0, 32)

  const POLYNOMIAL: word := ToBits(0x82f6_3b78, 32)

  function Ones(): word { seq(32, _ => true) }

  function Not(x: word): word { seq(32, i requires 0 <= i < 32 => !x[i]) }

  function Xor(x: word, y: word): word { seq(32, i requires 0 <= i < 32 => x[i] != y[i]) }

  // The word with its low bits changed by a shorter bit string.
  function XorLow(x: word, low: seq<bool>): word
    requires |low| <= 32
  {
    seq(32, i requires 0 <= i < 32 => if i < |low| then x[i] != low[i] else x[i])
  }

  function Halve(x: word): word { x[1..] + [false] }

  // One division step: the register moves right by one bit.
  function Shift(p: word, crc: word): word {
    if crc[0] then Xor(Halve(crc), p) else Halve(crc)
  }

  function Shifts(p: word, crc: word, n: nat): word
    decreases n
  {
    if n == 0 then crc else Shifts(p, Shift(p, crc), n - 1)
  }

  function Feed(p: word, crc: word, b: byte): word { Shifts(p, XorLow(crc, ToBits(b, 8)), 8) }

  // The register after a run of bytes.
  function Register(p: word, crc: word, bytes: seq<byte>): word
    decreases |bytes|
  {
    if bytes == [] then crc else Register(p, Feed(p, crc, bytes[0]), bytes[1..])
  }

  function Checksum(p: word, bytes: seq<byte>): word { Not(Register(p, Ones(), bytes)) }

  // The code's two nested loops compute the checksum.
  method Compute(p: word, bytes: seq<byte>) returns (checksum: word)
    ensures checksum == Checksum(p, bytes)
  {
    var crc := Ones();
    for index := 0 to |bytes|
      invariant Register(p, Ones(), bytes) == Register(p, crc, bytes[index..])
    {
      crc := ComputeByte(p, crc, bytes[index]);
      assert bytes[index..][1..] == bytes[index + 1..];
    }
    checksum := Not(crc);
  }

  method ComputeByte(p: word, start: word, b: byte) returns (crc: word)
    ensures crc == Feed(p, start, b)
  {
    crc := XorLow(start, ToBits(b, 8));
    for bit := 0 to 8
      invariant Shifts(p, crc, 8 - bit) == Feed(p, start, b)
    {
      crc := if crc[0] then Xor(Halve(crc), p) else Halve(crc);
    }
  }

  // --- a checksum as four bytes ---

  function BitsOf(bytes: seq<byte>): (bits: seq<bool>)
    ensures |bits| == 8 * |bytes|
  {
    if bytes == [] then [] else ToBits(bytes[0], 8) + BitsOf(bytes[1..])
  }

  function ToByte(bits: seq<bool>): byte
    requires |bits| == 8
  {
    ToFromBits(bits);
    FromBits(bits)
  }

  // u32::from_le_bytes and u32::to_le_bytes.
  function Stored(t: seq<byte>): word
    requires |t| == 4
  {
    BitsOf(t)
  }

  function BytesOf(bits: seq<bool>): (bytes: seq<byte>)
    requires |bits| % 8 == 0
    ensures |bytes| == |bits| / 8
  {
    if bits == [] then [] else [ToByte(bits[..8])] + BytesOf(bits[8..])
  }

  function ChecksumBytes(p: word, message: seq<byte>): (t: seq<byte>)
    ensures |t| == 4
  {
    BytesOf(Checksum(p, message))
  }

  lemma {:induction false} BitsOfBytes(bits: seq<bool>)
    requires |bits| % 8 == 0
    ensures BitsOf(BytesOf(bits)) == bits
  {
    if bits != [] {
      ToFromBits(bits[..8]);
      BitsOfBytes(bits[8..]);
      assert BytesOf(bits)[1..] == BytesOf(bits[8..]);
      assert bits == bits[..8] + bits[8..];
    }
  }

  // A stored checksum reads back as the checksum that was written.
  lemma StoredChecksum(p: word, message: seq<byte>)
    ensures Stored(ChecksumBytes(p, message)) == Checksum(p, message)
  {
    BitsOfBytes(Checksum(p, message));
  }

  lemma {:induction false} BitsOfInjective(a: seq<byte>, b: seq<byte>)
    requires |a| == |b| && BitsOf(a) == BitsOf(b)
    ensures a == b
  {
    if a != [] {
      assert BitsOf(a)[..8] == ToBits(a[0], 8) && BitsOf(b)[..8] == ToBits(b[0], 8);
      assert BitsOf(a)[8..] == BitsOf(a[1..]) && BitsOf(b)[8..] == BitsOf(b[1..]);
      FromToBits(a[0], 8);
      FromToBits(b[0], 8);
      BitsOfInjective(a[1..], b[1..]);
      assert a == [a[0]] + a[1..] && b == [b[0]] + b[1..];
    }
  }

  lemma {:induction false} BitsOfConcat(a: seq<byte>, b: seq<byte>)
    ensures BitsOf(a + b) == BitsOf(a) + BitsOf(b)
  {
    if a == [] {
      assert a + b == b;
    } else {
      var head, tail, rest := ToBits(a[0], 8), BitsOf(a[1..]), BitsOf(b);
      assert (a + b)[1..] == a[1..] + b;
      BitsOfConcat(a[1..], b);
      assert BitsOf(a + b) == head + (tail + rest);
      assert BitsOf(a) + rest == head + tail + rest;
    }
  }

  // --- the register bit by bit ---

  // Taking in one message bit: the feedback is the low bit against the incoming one.
  function Step(p: word, crc: word, bit: bool): word {
    if crc[0] != bit then Xor(Halve(crc), p) else Halve(crc)
  }

  function Run(p: word, crc: word, bits: seq<bool>): word
    decreases |bits|
  {
    if bits == [] then crc else Run(p, Step(p, crc, bits[0]), bits[1..])
  }

  // Up to 32 bits may be loaded before shifting instead of one at a time.
  lemma {:induction false} RunIsLoadThenShift(p: word, crc: word, bits: seq<bool>)
    requires |bits| <= 32
    ensures Run(p, crc, bits) == Shifts(p, XorLow(crc, bits), |bits|)
    decreases |bits|
  {
    if bits == [] {
      assert XorLow(crc, bits) == crc;
    } else {
      assert Shift(p, XorLow(crc, bits)) == XorLow(Step(p, crc, bits[0]), bits[1..]);
      RunIsLoadThenShift(p, Step(p, crc, bits[0]), bits[1..]);
    }
  }

  lemma {:induction false} RunConcat(p: word, crc: word, a: seq<bool>, b: seq<bool>)
    ensures Run(p, crc, a + b) == Run(p, Run(p, crc, a), b)
    decreases |a|
  {
    if a == [] {
      assert a + b == b;
    } else {
      assert (a + b)[1..] == a[1..] + b;
      RunConcat(p, Step(p, crc, a[0]), a[1..], b);
    }
  }

  lemma {:induction false} RegisterIsRun(p: word, crc: word, bytes: seq<byte>)
    ensures Register(p, crc, bytes) == Run(p, crc, BitsOf(bytes))
    decreases |bytes|
  {
    if bytes != [] {
      RunIsLoadThenShift(p, crc, ToBits(bytes[0], 8));
      RunConcat(p, crc, ToBits(bytes[0], 8), BitsOf(bytes[1..]));
      RegisterIsRun(p, Feed(p, crc, bytes[0]), bytes[1..]);
    }
  }

  // --- the checksum as a remainder ---

  // A polynomial over two elements is the list of its coefficients, the highest power first.

  // x^32 + x^28 + x^27 + ... + 1, which RFC 3720 writes 0x11edc6f41.
  predicate HasPower(e: nat) {
    e in {32, 28, 27, 26, 25, 23, 22, 20, 19, 18, 14, 13, 11, 10, 9, 8, 6, 0}
  }

  function Generator(): (g: seq<bool>)
    ensures |g| == 33
  {
    seq(33, i requires 0 <= i < 33 => HasPower(32 - i))
  }

  // Long division: the divisor is taken off wherever the leading coefficient asks for it.
  function Remainder(dividend: seq<bool>, divisor: seq<bool>): (r: seq<bool>)
    requires divisor != []
    ensures |dividend| >= |divisor| - 1 ==> |r| == |divisor| - 1
    decreases |dividend|
  {
    if |dividend| < |divisor| then dividend
    else Remainder((if dividend[0] then TakeOff(dividend, divisor) else dividend)[1..], divisor)
  }

  function TakeOff(dividend: seq<bool>, divisor: seq<bool>): (d: seq<bool>)
    requires |divisor| <= |dividend|
    ensures |d| == |dividend|
  {
    seq(|dividend|, i requires 0 <= i < |dividend| =>
      if i < |divisor| then dividend[i] != divisor[i] else dividend[i])
  }

  // The message times x^32, with a word added to its first 32 coefficients.
  function Dividend(first: word, bits: seq<bool>): (d: seq<bool>)
    ensures |d| == |bits| + 32
  {
    seq(|bits| + 32, i requires 0 <= i < |bits| + 32 =>
      (if i < |bits| then bits[i] else false) != (if i < 32 then first[i] else false))
  }

  lemma {:induction false} RunIsRemainder(p: word, crc: word, bits: seq<bool>, divisor: seq<bool>)
    requires divisor == [true] + p
    ensures Run(p, crc, bits) == Remainder(Dividend(crc, bits), divisor)
    decreases |bits|
  {
    var d := Dividend(crc, bits);
    if bits == [] {
      assert d == crc;
    } else {
      var rest := (if d[0] then TakeOff(d, divisor) else d)[1..];
      var next := Dividend(Step(p, crc, bits[0]), bits[1..]);
      assert rest == next by {
        forall i | 0 <= i < |rest|
          ensures rest[i] == next[i]
        {
          assert i < 32 ==> divisor[i + 1] == p[i];
        }
      }
      RunIsRemainder(p, Step(p, crc, bits[0]), bits[1..], divisor);
    }
  }

  lemma Nibble(n: nat, width: nat)
    requires width >= 4
    ensures ToBits(n, width)
         == [n % 2 == 1, n / 2 % 2 == 1, n / 4 % 2 == 1, n / 8 % 2 == 1] + ToBits(n / 16, width - 4)
  {
    hide ToBits;
    TwoBits(n, width);
    TwoBits(n / 4, width - 2);
    assert n / 4 / 2 == n / 8 && n / 4 / 4 == n / 16;
  }

  lemma TwoBits(n: nat, width: nat)
    requires width >= 2
    ensures ToBits(n, width) == [n % 2 == 1, n / 2 % 2 == 1] + ToBits(n / 4, width - 2)
  {
    assert ToBits(n / 2, width - 1) == [n / 2 % 2 == 1] + ToBits(n / 4, width - 2);
  }

  lemma LowBits()
    ensures POLYNOMIAL == ([false, false, false, true, true, true, true, false]
                           + [true, true, false, true, true, true, false, false])
                          + ToBits(0x82f6, 16)
  {
    hide ToBits;
    Nibble(0x82f63b78, 32);
    Nibble(0x82f63b7, 28);
    Nibble(0x82f63b, 24);
    Nibble(0x82f63, 20);
  }

  lemma HighBits()
    ensures ToBits(0x82f6, 16) == [false, true, true, false, true, true, true, true]
                                  + [false, true, false, false, false, false, false, true]
  {
    hide ToBits;
    Nibble(0x82f6, 16);
    Nibble(0x82f, 12);
    Nibble(0x82, 8);
    Nibble(0x8, 4);
    NoBits();
  }

  lemma NoBits()
    ensures ToBits(0, 0) == []
  {
  }

  lemma PolynomialIsGenerator()
    ensures Generator() == [true] + POLYNOMIAL
  {
    hide ToBits, POLYNOMIAL;
    LowBits();
    HighBits();
  }

  // The CRC-32C of RFC 3720, section 12.1: the message times x^32, its first 32 bits complemented, leaves a
  // remainder on division by the generator; the checksum is that remainder complemented.
  lemma ChecksumIsRemainder(message: seq<byte>)
    ensures var remainder := Remainder(Dividend(seq(32, _ => true), BitsOf(message)), Generator());
            |remainder| == 32 && Checksum(POLYNOMIAL, message) == seq(32, i requires 0 <= i < 32 => !remainder[i])
  {
    hide POLYNOMIAL;
    PolynomialIsGenerator();
    RegisterIsRun(POLYNOMIAL, Ones(), message);
    RunIsRemainder(POLYNOMIAL, Ones(), BitsOf(message), Generator());
  }

  lemma {:induction false} TopBit(n: nat, width: nat)
    requires 0 < width && Pow2(width - 1) <= n < Pow2(width)
    ensures ToBits(n, width)[width - 1]
  {
    if width > 1 {
      TopBit(n / 2, width - 1);
    }
  }

  lemma PolynomialTop()
    ensures POLYNOMIAL[31]
  {
    assert Pow2(8) == 256 && Pow2(16) == 0x1_0000 && Pow2(24) == 0x100_0000 && Pow2(31) == 0x8000_0000;
    TopBit(0x82f6_3b78, 32);
  }

  // The polynomial's top bit is set, so the new top bit tells whether there was feedback, and the
  // other new bits tell what was shifted in.
  lemma StepReversible(p: word, x: word, bit: bool)
    requires p[31]
    ensures Step(p, x, bit)[31] == (x[0] != bit)
    ensures forall i | 1 <= i < 32 :: x[i] == (Step(p, x, bit)[i - 1] != ((x[0] != bit) && p[i - 1]))
  {
  }

  // One step back: registers that agree above bit n - 1 came from registers that agree above bit n.
  lemma StepBack(p: word, x: word, a: bool, y: word, b: bool, n: nat)
    requires p[31] && 0 < n <= 32 && Step(p, x, a)[n - 1..] == Step(p, y, b)[n - 1..]
    ensures x[n..] == y[n..]
    ensures x == y ==> a == b
  {
    StepReversible(p, x, a);
    StepReversible(p, y, b);
    SameAbove(Step(p, x, a), Step(p, y, b), n - 1);
  }

  lemma SameAbove(x: word, y: word, n: nat)
    requires n < 32 && x[n..] == y[n..]
    ensures forall i | n <= i < 32 :: x[i] == y[i]
  {
    forall i | n <= i < 32
      ensures x[i] == y[i]
    {
      assert x[i] == x[n..][i - n] && y[i] == y[n..][i - n];
    }
  }

  // Two runs of at most 32 bits into the same register started from registers that agree above
  // those bits; started from the same register, they took in the same bits.
  lemma {:induction false} RunReversible(p: word, x: word, a: seq<bool>, y: word, b: seq<bool>)
    requires p[31] && |a| == |b| <= 32 && Run(p, x, a) == Run(p, y, b)
    ensures x[|a|..] == y[|a|..]
    ensures x == y ==> a == b
    decreases |a|
  {
    if a != [] {
      RunReversible(p, Step(p, x, a[0]), a[1..], Step(p, y, b[0]), b[1..]);
      StepBack(p, x, a[0], y, b[0], |a|);
      assert a == [a[0]] + a[1..] && b == [b[0]] + b[1..];
    }
  }

  lemma {:induction false} RunInjective(p: word, x: word, y: word, bits: seq<bool>)
    requires p[31] && Run(p, x, bits) == Run(p, y, bits)
    ensures x == y
    decreases |bits|
  {
    if bits != [] {
      RunInjective(p, Step(p, x, bits[0]), Step(p, y, bits[0]), bits[1..]);
      StepReversible(p, x, bits[0]);
      StepReversible(p, y, bits[0]);
      assert forall i | 1 <= i < 32 :: x[i] == y[i];
    }
  }

  // --- error detection ---

  // On any four-byte window the register is injective, whatever surrounds the window.
  lemma WindowInjective(p: word, crc: word, before: seq<byte>, w: seq<byte>, w': seq<byte>, after: seq<byte>)
    requires p[31] && |w| == |w'| <= 4
    requires Register(p, crc, before + w + after) == Register(p, crc, before + w' + after)
    ensures w == w'
  {
    var mid := Register(p, crc, before);
    Windows(p, crc, before, w, after);
    Windows(p, crc, before, w', after);
    RunInjective(p, Run(p, mid, BitsOf(w)), Run(p, mid, BitsOf(w')), BitsOf(after));
    RunReversible(p, mid, BitsOf(w), mid, BitsOf(w'));
    BitsOfInjective(w, w');
  }

  lemma Windows(p: word, crc: word, before: seq<byte>, w: seq<byte>, after: seq<byte>)
    ensures Register(p, crc, before + w + after) == Run(p, Run(p, Register(p, crc, before), BitsOf(w)), BitsOf(after))
  {
    RegisterIsRun(p, crc, before + w + after);
    RegisterIsRun(p, crc, before);
    BitsOfConcat(before + w, after);
    BitsOfConcat(before, w);
    RunConcat(p, crc, BitsOf(before) + BitsOf(w), BitsOf(after));
    RunConcat(p, crc, BitsOf(before), BitsOf(w));
  }

  // A message checks out against its stored checksum exactly when the register of both together
  // ends in one fixed value.
  lemma ChecksAtResidue(p: word, message: seq<byte>, trailer: seq<byte>)
    requires p[31] && |trailer| == 4
    ensures Stored(trailer) == Checksum(p, message)
       <==> Register(p, Ones(), message + trailer) == Shifts(p, Ones(), 32)
  {
    var mid := Register(p, Ones(), message);
    var complement := Not(mid);
    Windows(p, Ones(), message, trailer, []);
    assert message + trailer + [] == message + trailer;
    RunIsLoadThenShift(p, mid, complement);
    assert XorLow(mid, complement) == Ones();
    if Register(p, Ones(), message + trailer) == Shifts(p, Ones(), 32) {
      RunReversible(p, mid, Stored(trailer), mid, complement);
    }
  }

  // A change confined to four consecutive bytes of a message that checks out, its stored checksum
  // included, never goes unseen.
  lemma CorruptionSeen(p: word, sent: seq<byte>, got: seq<byte>, n: nat, at: nat)
    requires p[31] && |sent| == |got| == n + 4 && at <= n && sent != got
    requires forall i | 0 <= i < |sent| && !(at <= i < at + 4) :: got[i] == sent[i]
    requires Stored(sent[n..]) == Checksum(p, sent[..n])
    ensures Stored(got[n..]) != Checksum(p, got[..n])
  {
    var before, after := sent[..at], sent[at + 4..];
    var w, w' := sent[at..at + 4], got[at..at + 4];
    Windowed(sent, got, n, at);
    ChecksAtResidue(p, sent[..n], sent[n..]);
    if Stored(got[n..]) == Checksum(p, got[..n]) {
      ChecksAtResidue(p, got[..n], got[n..]);
      WindowInjective(p, Ones(), before, w, w', after);
    }
  }

  lemma Windowed(sent: seq<byte>, got: seq<byte>, n: nat, at: nat)
    requires |sent| == |got| == n + 4 && at <= n && sent != got
    requires forall i | 0 <= i < |sent| && !(at <= i < at + 4) :: got[i] == sent[i]
    ensures sent[..at] + sent[at..at + 4] + sent[at + 4..] == sent[..n] + sent[n..]
    ensures sent[..at] + got[at..at + 4] + sent[at + 4..] == got[..n] + got[n..]
    ensures sent[at..at + 4] != got[at..at + 4]
  {
    assert sent == sent[..at] + sent[at..at + 4] + sent[at + 4..];
    assert got == sent[..at] + got[at..at + 4] + sent[at + 4..];
    assert sent == sent[..n] + sent[n..] && got == got[..n] + got[n..];
  }
}
