/** Decimal numerals as Rust's `to_string` and `parse` treat them. */
module Decimal {
  import opened Wrappers

  predicate IsDigit(c: char) { '0' <= c <= '9' }

  predicate AllDigits(s: string) { forall i | 0 <= i < |s| :: IsDigit(s[i]) }

  function DigitValue(c: char): (d: nat)
    requires IsDigit(c)
    ensures d < 10
  {
    (c - '0') as nat
  }

  function DigitChar(d: nat): (c: char)
    requires d < 10
    ensures IsDigit(c) && DigitValue(c) == d
  {
    '0' + d as char
  }

  /** The number that digits stand for, however many zeros they start with. */
  function Value(s: string): nat
    requires AllDigits(s)
  {
    if s == "" then 0 else 10 * Value(s[..|s| - 1]) + DigitValue(s[|s| - 1])
  }

  /** `to_string` of an unsigned number. */
  function Print(n: nat): (s: string)
    ensures s != "" && AllDigits(s)
  {
    if n < 10 then [DigitChar(n)] else Print(n / 10) + [DigitChar(n % 10)]
  }

  lemma ValuePush(s: string, c: char)
    requires AllDigits(s) && IsDigit(c)
    ensures AllDigits(s + [c]) && Value(s + [c]) == 10 * Value(s) + DigitValue(c)
  {
    assert (s + [c])[..|s|] == s;
  }

  lemma {:induction false} PrintValue(n: nat)
    ensures Value(Print(n)) == n
  {
    if n < 10 {
      assert [DigitChar(n)][..0] == "";
    } else {
      PrintValue(n / 10);
      ValuePush(Print(n / 10), DigitChar(n % 10));
    }
  }

  /** `parse::<u16>`, `parse::<u32>` and their kind: a plus sign may stand before the digits, and the
      number must fit. */
  function ParseUnsigned(s: string, limit: nat): Option<nat> {
    var digits := if s != "" && s[0] == '+' then s[1..] else s;
    if digits != "" && AllDigits(digits) && Value(digits) < limit then Some(Value(digits)) else None
  }

  lemma ParsePrinted(n: nat, limit: nat)
    ensures ParseUnsigned(Print(n), limit) == if n < limit then Some(n) else None
  {
    PrintValue(n);
  }

  /** A plus sign before the digits makes no difference, and neither do zeros. */
  lemma PlusAndZeros(s: string, limit: nat)
    requires s != "" && AllDigits(s)
    ensures ParseUnsigned("+" + s, limit) == ParseUnsigned(s, limit)
    ensures ParseUnsigned("0" + s, limit) == ParseUnsigned(s, limit)
    ensures ParseUnsigned("-" + s, limit).None? && ParseUnsigned("", limit).None? && ParseUnsigned("+", limit).None?
  {
    ZeroInFront(s);
    assert ("+" + s)[1..] == s && IsDigit(s[0]);
    assert "+"[1..] == "" && !IsDigit(("-" + s)[0]) && !IsDigit('+');
  }

  lemma {:induction false} ZeroInFront(s: string)
    requires AllDigits(s)
    ensures AllDigits("0" + s) && Value("0" + s) == Value(s)
  {
    if s == "" {
      assert "0" + s == "0" && "0"[..0] == "";
    } else {
      var front := s[..|s| - 1];
      ZeroInFront(front);
      assert ("0" + s)[..|s|] == "0" + front;
    }
  }

  // ---- Signed numbers ----

  /** `to_string` of a signed number. */
  function PrintInt(i: int): (s: string)
    ensures s != ""
  {
    if i < 0 then "-" + Print(-i) else Print(i)
  }

  function Negated(digits: string): int
    requires AllDigits(digits)
  {
    var n: int := Value(digits);
    -n
  }

  /** `parse::<i64>`: digits with a sign before them or not, and the number must fit. */
  function ParseI64(s: string): Option<int> {
    if s != "" && s[0] == '-' then
      if s[1..] != "" && AllDigits(s[1..]) && Value(s[1..]) <= 0x8000_0000_0000_0000 then Some(Negated(s[1..])) else None
    else
      match ParseUnsigned(s, 0x8000_0000_0000_0000)
      case Some(n) => Some(n)
      case None => None
  }

  lemma PrintIntInjective(i: int, j: int)
    requires PrintInt(i) == PrintInt(j)
    ensures i == j
  {
    PrintValue(if i < 0 then -i else i);
    PrintValue(if j < 0 then -j else j);
    assert i < 0 <==> PrintInt(i)[0] == '-';
    assert j < 0 <==> PrintInt(j)[0] == '-';
    if i < 0 {
      assert PrintInt(i)[1..] == Print(-i) && PrintInt(j)[1..] == Print(-j);
    }
  }

  /** What prints a number is read as it, if it fits 64 bits. */
  lemma ParsePrintedInt(i: int)
    requires -0x8000_0000_0000_0000 <= i < 0x8000_0000_0000_0000
    ensures ParseI64(PrintInt(i)) == Some(i)
  {
    if i < 0 {
      PrintValue(-i);
      assert PrintInt(i)[1..] == Print(-i);
    } else {
      ParsePrinted(i, 0x8000_0000_0000_0000);
      assert IsDigit(Print(i)[0]);
    }
  }
}
