/** Decimal numbers as they are printed and parsed. */
module Decimal {
  import opened Wrappers

  const I64_MAX: int := 0x7FFF_FFFF_FFFF_FFFF
  const U32_MAX: nat := 0xFFFF_FFFF

  function DigitChar(d: nat): char
    requires d < 10
  {
    '0' + d as char
  }

  predicate IsDigit(c: char) {
    '0' <= c <= '9'
  }

  function Print(n: nat): (s: string)
    ensures |s| >= 1 && forall i :: 0 <= i < |s| ==> IsDigit(s[i])
  {
    if n < 10 then [DigitChar(n)] else Print(n / 10) + [DigitChar(n % 10)]
  }

  /** Digits and nothing else; the empty string is not a number. */
  function ParseDigits(s: string): Option<nat> {
    if s == "" || !IsDigit(s[|s| - 1]) then None
    else
      var last := (s[|s| - 1] - '0') as nat;
      if |s| == 1 then Some(last)
      else
        match ParseDigits(s[..|s| - 1])
        case Some(front) => Some(front * 10 + last)
        case None => None
  }

  /** `str::parse::<u32>`: an optional plus sign, digits, in range. */
  function ParseU32(s: string): Option<nat> {
    var digits := if s != "" && s[0] == '+' then s[1..] else s;
    match ParseDigits(digits)
    case Some(n) => if n <= U32_MAX then Some(n) else None
    case None => None
  }

  /** `str::parse::<i64>`: an optional sign, digits, in range. */
  function ParseI64(s: string): Option<int> {
    var negative := s != "" && s[0] == '-';
    var digits := if s != "" && (s[0] == '+' || s[0] == '-') then s[1..] else s;
    match ParseDigits(digits)
    case Some(n) =>
      var magnitude: int := n;
      var value: int := if negative then -magnitude else magnitude;
      if -I64_MAX - 1 <= value <= I64_MAX then Some(value) else None
    case None => None
  }

  lemma {:induction false} ParseUndoesPrint(n: nat)
    ensures ParseDigits(Print(n)) == Some(n)
  {
    if n >= 10 {
      ParseUndoesPrint(n / 10);
      var s := Print(n);
      assert s[..|s| - 1] == Print(n / 10);
    }
  }

  lemma PrintedU32(n: nat)
    requires n <= U32_MAX
    ensures ParseU32(Print(n)) == Some(n)
  {
    ParseUndoesPrint(n);
    assert IsDigit(Print(n)[0]);
  }

  lemma PrintedI64(n: nat)
    requires n <= I64_MAX
    ensures ParseI64(Print(n)) == Some(n)
  {
    ParseUndoesPrint(n);
    assert IsDigit(Print(n)[0]);
  }

  /** A plus sign is allowed, a number past 32 bits is none. */
  lemma U32Forms(n: nat)
    ensures ParseU32("+" + Print(n)) == ParseU32(Print(n)) == if n < 0x1_0000_0000 then Some(n) else None
  {
    ParseUndoesPrint(n);
    assert ("+" + Print(n))[1..] == Print(n) && IsDigit(Print(n)[0]);
  }

  /** Signs, and the range of 64 bits. */
  lemma I64Forms(n: nat)
    ensures ParseI64("+" + Print(n)) == ParseI64(Print(n)) == if n < 0x8000_0000_0000_0000 then Some(n) else None
    ensures ParseI64("-" + Print(n)) == if n <= 0x8000_0000_0000_0000 then Some(0 - n) else None
  {
    ParseUndoesPrint(n);
    SignsAreCutOff(Print(n));
    hide ParseDigits, Print;
  }

  lemma SignsAreCutOff(digits: string)
    requires digits != "" && IsDigit(digits[0])
    ensures var p, m := "+" + digits, "-" + digits;
            p != "" && p[0] == '+' && p[1..] == digits && m != "" && m[0] == '-' && m[1..] == digits
    ensures digits[0] != '+' && digits[0] != '-'
  {
  }

  lemma PrintIsInjective(a: nat, b: nat)
    requires Print(a) == Print(b)
    ensures a == b
  {
    ParseUndoesPrint(a);
    ParseUndoesPrint(b);
  }
}
