/** Integers as Rust prints and parses them. */
module Decimal {
  import opened Wrappers
  import opened Bytes

  predicate IsDigit(c: char) { '0' <= c <= '9' }

  function Digit(d: nat): (c: char)
    requires d < 10
    ensures IsDigit(c)
  {
    ('0' as int + d) as char
  }

  function Value(c: char): (d: nat)
    requires IsDigit(c)
    ensures d < 10
  {
    c as int - '0' as int
  }

  predicate AllDigits(s: string) { forall c | c in s :: IsDigit(c) }

  function Show(n: nat): (s: string)
    ensures s != [] && AllDigits(s)
  {
    if n < 10 then [Digit(n)] else Show(n / 10) + [Digit(n % 10)]
  }

  function Read(s: string): nat
    requires AllDigits(s)
  {
    if s == [] then 0 else 10 * Read(s[..|s| - 1]) + Value(s[|s| - 1])
  }

  lemma {:induction false} ReadShow(n: nat)
    ensures Read(Show(n)) == n
  {
    if n >= 10 {
      ReadShow(n / 10);
      assert Show(n)[..|Show(n)| - 1] == Show(n / 10);
    }
  }

  function ShowInt(n: int): string {
    if n < 0 then "-" + Show(-n) else Show(n)
  }

  // str::parse::<i64>: an optional sign, then at least one digit, within range.
  function ParseI64(s: string): Option<i64> {
    var signed := s != [] && s[0] in {'+', '-'};
    var digits := if signed then s[1..] else s;
    if digits == [] || !AllDigits(digits) then None else
    var magnitude: int := Read(digits);
    var n := if signed && s[0] == '-' then -magnitude else magnitude;
    if I64_MIN <= n <= I64_MAX then Some(n) else None
  }

  lemma ParseShow(n: int)
    requires I64_MIN <= n <= I64_MAX
    ensures ParseI64(ShowInt(n)) == Some(n)
  {
    hide Show, Read, AllDigits;
    if n < 0 {
      ReadShow(-n);
      assert ShowInt(n)[1..] == Show(-n);
    } else {
      ReadShow(n);
      FirstDigit(n);
    }
  }

  function InRange(n: int): Option<i64> { if I64_MIN <= n <= I64_MAX then Some(n) else None }

  // What is read: digits, with or without a sign in front, whatever zeros they begin with.
  lemma ParseExactly(digits: string)
    requires digits != [] && AllDigits(digits)
    ensures var n: int := Read(digits);
            && ParseI64(digits) == InRange(n)
            && ParseI64(['+'] + digits) == InRange(n) && ParseI64(['-'] + digits) == InRange(-n)
  {
    hide Read, AllDigits;
    assert (['+'] + digits)[1..] == digits && (['-'] + digits)[1..] == digits;
    StartsWithDigit(digits);
  }

  lemma StartsWithDigit(digits: string)
    requires digits != [] && AllDigits(digits)
    ensures digits[0] != '+' && digits[0] != '-'
  {
    assert digits[0] in digits;
  }

  // Nothing else is.
  lemma ParsedIsNumber(s: string)
    requires ParseI64(s).Some?
    ensures || (s != [] && AllDigits(s))
            || (|s| >= 2 && (s[0] == '+' || s[0] == '-') && AllDigits(s[1..]))
  {
    hide Read, AllDigits;
  }

  lemma FirstDigit(n: nat)
    ensures IsDigit(Show(n)[0])
  {
  }

  lemma ShowInjective(m: nat, n: nat)
    requires Show(m) == Show(n)
    ensures m == n
  {
    ReadShow(m);
    ReadShow(n);
  }
}
