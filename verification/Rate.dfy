/** The packet send rate of src/config.rs. Rates are reals, with the special values of a float beside
    them: rounding to 32 bits is not modelled, rounding to three decimals is. */
module Rate {
  import opened Wrappers
  import opened Text
  import opened Decimal

  datatype Rate = NaN | Infinite(negative: bool) | Finite(value: real)

  /** `rate <= 0.0`. */
  predicate NonPositive(rate: Rate) {
    match rate
    case NaN => false
    case Infinite(negative) => negative
    case Finite(value) => value <= 0.0
  }

  const MAX_PACKET_SEND_RATE := 120.0

  /** `clamp_rate`; `f32::clamp` leaves NaN alone. */
  function Clamp(rate: Rate): (r: Rate)
    ensures Clamped(r)
    ensures Clamped(rate) ==> r == rate
  {
    match rate
    case NaN => NaN
    case Infinite(negative) => Finite(if negative then 0.0 else MAX_PACKET_SEND_RATE)
    case Finite(v) => Finite(if v < 0.0 then 0.0 else if v > MAX_PACKET_SEND_RATE then MAX_PACKET_SEND_RATE else v)
  }

  predicate Clamped(rate: Rate) { rate.NaN? || (rate.Finite? && 0.0 <= rate.value <= MAX_PACKET_SEND_RATE) }

  // ---- Printing ----

  /** To the nearest integer, and to the even one of two. */
  function RoundHalfEven(x: real): (n: int)
    ensures x - 0.5 <= n as real <= x + 0.5
  {
    var f := x.Floor;
    var d := x - f as real;
    if d < 0.5 || (d == 0.5 && f % 2 == 0) then f else f + 1
  }

  function Thousandths(rate: Rate): (n: nat)
    requires Clamped(rate) && rate.Finite?
    ensures n <= 120000
  {
    RoundHalfEven(rate.value * 1000.0)
  }

  function ThreeDigits(b: nat): string
    requires b < 1000
  {
    [DigitChar(b / 100), DigitChar(b / 10 % 10), DigitChar(b % 10)]
  }

  /** `format!("{rate:.3}")`. */
  function ThreeDecimals(rate: Rate): (s: string)
    requires Clamped(rate)
  {
    if rate.NaN? then "NaN"
    else
      var n := Thousandths(rate);
      Print(n / 1000) + ("." + ThreeDigits(n % 1000))
  }

  /** Number `n` of thousandths in its shortest form: no fraction that is zero, and none that ends in 0. */
  function Shortest(n: nat): string {
    var a, b := n / 1000, n % 1000;
    Print(a) +
    if b == 0 then ""
    else if b % 100 == 0 then "." + ThreeDigits(b)[..1]
    else if b % 10 == 0 then "." + ThreeDigits(b)[..2]
    else "." + ThreeDigits(b)
  }

  /** What `format_rate` prints. */
  function Format(rate: Rate): string
    requires Clamped(rate)
  {
    if rate.NaN? then "NaN" else Shortest(Thousandths(rate))
  }

  /** The loop of `format_rate` pops every 0 at the end of the three decimals, then the point if it is
      last; integer zeros are safe behind the point. */
  method FormatRate(rate: Rate) returns (formatted: string)
    requires Clamped(rate)
    ensures formatted == Format(rate)
  {
    formatted := ThreeDecimals(rate);
    ghost var whole := if rate.NaN? then "" else Print(Thousandths(rate) / 1000);
    ghost var decimals := ThreeDigits(if rate.NaN? then 0 else Thousandths(rate) % 1000);
    ghost var k := 3;
    while formatted != "" && formatted[|formatted| - 1] == '0'
      invariant 0 <= k <= 3
      invariant rate.NaN? ==> formatted == "NaN"
      invariant rate.Finite? ==> formatted == whole + ("." + decimals[..k]) && forall i | k <= i < 3 :: decimals[i] == '0'
      decreases |formatted|
    {
      formatted := formatted[..|formatted| - 1];
      k := k - 1;
    }
    if formatted != "" && formatted[|formatted| - 1] == '.' {
      formatted := formatted[..|formatted| - 1];
    }
    if rate.Finite? { PopsAreShortest(Thousandths(rate), k); }
    if formatted == "" { formatted := "0"; }
  }

  lemma PopsAreShortest(n: nat, k: nat)
    requires k <= 3 && (forall i | k <= i < 3 :: ThreeDigits(n % 1000)[i] == '0')
    requires k > 0 ==> ThreeDigits(n % 1000)[k - 1] != '0'
    ensures Shortest(n) == if k == 0 then Print(n / 1000) else Print(n / 1000) + ("." + ThreeDigits(n % 1000)[..k])
  {
    ZeroDigits(n % 1000);
    assert ThreeDigits(n % 1000)[..3] == ThreeDigits(n % 1000);
  }

  /** Where the zeros are among the three digits. */
  lemma ZeroDigits(b: nat)
    requires b < 1000
    ensures var d := ThreeDigits(b);
            (b == 0 <==> d[0] == '0' && d[1] == '0' && d[2] == '0') &&
            (b % 100 == 0 <==> d[1] == '0' && d[2] == '0') && (b % 10 == 0 <==> d[2] == '0')
  {
    var d := ThreeDigits(b);
    assert d[0] == '0' <==> b / 100 == 0;
    assert d[1] == '0' <==> b / 10 % 10 == 0;
    assert d[2] == '0' <==> b % 10 == 0;
  }

  // ---- Parsing ----

  function Pow10(k: int): (p: real)
    ensures p > 0.0
    decreases if k < 0 then -k else k
  {
    if k == 0 then 1.0 else if k > 0 then 10.0 * Pow10(k - 1) else Pow10(k + 1) / 10.0
  }

  function Scale(m: nat, exponent: int): real { m as real * Pow10(exponent) }

  function ParseExponent(s: string): Option<int> {
    var digits := if s != "" && (s[0] == '+' || s[0] == '-') then s[1..] else s;
    if digits == "" || !AllDigits(digits) then None
    else Some(if s[0] == '-' then Negated(digits) else Value(digits))
  }

  /** The first `e` or `E`. */
  function ExponentIndex(s: string): nat {
    var i, j := IndexOf(s, 'e'), IndexOf(s, 'E');
    if i < j then i else j
  }

  function ParseNumber(s: string): Option<real> {
    var i := ExponentIndex(s);
    var mantissa := s[..i];
    var point := IndexOf(mantissa, '.');
    var whole := mantissa[..point];
    var fraction := if point == |mantissa| then "" else mantissa[point + 1..];
    var exponent := if i == |s| then Some(0) else ParseExponent(s[i + 1..]);
    if AllDigits(whole) && AllDigits(fraction) && whole + fraction != "" && exponent.Some? then
      Some(Scale(Value(whole + fraction), exponent.value - |fraction|))
    else None
  }

  /** `parse::<f32>`. */
  function Parse(s: string): Option<Rate> {
    var negative := s != "" && s[0] == '-';
    var body := if s != "" && (s[0] == '-' || s[0] == '+') then s[1..] else s;
    if EqIgnoreCase(body, "nan") then Some(NaN)
    else if EqIgnoreCase(body, "inf") || EqIgnoreCase(body, "infinity") then Some(Infinite(negative))
    else
      match ParseNumber(body)
      case Some(v) => Some(Finite(if negative then -v else v))
      case None => None
  }

  lemma DigitsLack(s: string, c: char)
    requires AllDigits(s) && !IsDigit(c)
    ensures c !in s
  {
  }

  lemma PlainParts(whole: string, fraction: string, s: string)
    requires AllDigits(whole) && AllDigits(fraction)
    requires s == whole + if fraction == "" then "" else "." + fraction
    ensures ExponentIndex(s) == |s| && IndexOf(s, '.') == |whole| && s[..|whole|] == whole
    ensures if fraction == "" then |whole| == |s| else |whole| < |s| && s[|whole| + 1..] == fraction
  {
    assert forall i | 0 <= i < |s| :: s[i] == '.' || IsDigit(s[i]);
    IndexOfIs(s, 'e', |s|);
    IndexOfIs(s, 'E', |s|);
    DigitsLack(whole, '.');
    assert s[..|whole|] == whole;
    IndexOfIs(s, '.', |whole|);
  }

  lemma PlainNumber(whole: string, fraction: string, s: string)
    requires whole != "" && AllDigits(whole) && AllDigits(fraction)
    requires s == whole + if fraction == "" then "" else "." + fraction
    ensures ParseNumber(s) == Some(Scale(Value(whole + fraction), 0 - |fraction|))
  {
    PlainParts(whole, fraction, s);
    assert s[..ExponentIndex(s)] == s;
    assert (if IndexOf(s, '.') == |s| then "" else s[IndexOf(s, '.') + 1..]) == fraction;
  }

  /** Digits, perhaps with a point and more digits, are read as the number they show. */
  lemma ParsePlain(whole: string, fraction: string, s: string)
    requires whole != "" && AllDigits(whole) && AllDigits(fraction)
    requires s == whole + if fraction == "" then "" else "." + fraction
    ensures Parse(s) == Some(Finite(Scale(Value(whole + fraction), 0 - |fraction|)))
  {
    PlainNumber(whole, fraction, s);
    assert IsDigit(s[0]) && ToLower(s[0]) == s[0];
    assert ToLower("nan"[0]) == 'n' && ToLower("inf"[0]) == 'i' && ToLower("infinity"[0]) == 'i';
  }

  /** A minus sign in front makes a number negative, and a plus sign nothing. */
  lemma SignInFront(sign: char, s: string)
    requires (sign == '-' || sign == '+') && s != "" && IsDigit(s[0]) && ParseNumber(s).Some?
    ensures Parse([sign] + s) == Some(Finite(if sign == '-' then -ParseNumber(s).value else ParseNumber(s).value))
  {
    assert ([sign] + s)[1..] == s && ToLower(s[0]) == s[0];
    assert ToLower("nan"[0]) == 'n' && ToLower("inf"[0]) == 'i' && ToLower("infinity"[0]) == 'i';
  }

  /** The values that are no numbers go by these names, in any case. */
  lemma ParseNames(s: string)
    ensures EqIgnoreCase(s, "nan") ==> Parse(s) == Some(NaN)
    ensures EqIgnoreCase(s, "inf") || EqIgnoreCase(s, "infinity") ==>
              Parse(s) == Some(Infinite(false)) && Parse("-" + s) == Some(Infinite(true)) && Parse("+" + s) == Some(Infinite(false))
  {
    assert ("-" + s)[1..] == s && ("+" + s)[1..] == s;
    assert ToLower("nan"[0]) == 'n' && ToLower("inf"[0]) == 'i' && ToLower("infinity"[0]) == 'i';
    assert ToLower('-') == '-' && ToLower('+') == '+';
  }

  /** Digits behind an `e` shift the point. */
  lemma ParseShifted(whole: string, digits: string)
    requires whole != "" && AllDigits(whole) && digits != "" && AllDigits(digits)
    ensures ParseNumber(whole + ("e" + digits)) == Some(Scale(Value(whole), Value(digits)))
    ensures ParseNumber(whole + ("e-" + digits)) == Some(Scale(Value(whole), Negated(digits)))
  {
    ShiftParts(whole, digits);
    ShiftedNumber(whole, digits);
    assert "e-" + digits == "e" + ("-" + digits);
    ShiftParts(whole, "-" + digits);
    ShiftedNumber(whole, "-" + digits);
    ExponentIs(digits);
  }

  lemma ExponentIs(digits: string)
    requires digits != "" && AllDigits(digits)
    ensures ParseExponent(digits) == Some(Value(digits)) && ParseExponent("-" + digits) == Some(Negated(digits))
  {
    assert ("-" + digits)[1..] == digits && IsDigit(digits[0]);
  }

  lemma ShiftedNumber(whole: string, x: string)
    requires whole != "" && AllDigits(whole) && ParseExponent(x).Some?
    requires var s := whole + ("e" + x); ExponentIndex(s) == |whole| && s[..|whole|] == whole && s[|whole| + 1..] == x
    ensures ParseNumber(whole + ("e" + x)) == Some(Scale(Value(whole), ParseExponent(x).value))
  {
    DigitsLack(whole, '.');
    IndexOfIs(whole, '.', |whole|);
    NumberBeforeE(whole + ("e" + x), whole);
  }

  lemma NumberBeforeE(s: string, whole: string)
    requires ExponentIndex(s) == |whole| < |s| && s[..|whole|] == whole && IndexOf(whole, '.') == |whole|
    requires whole != "" && AllDigits(whole) && ParseExponent(s[|whole| + 1..]).Some?
    ensures ParseNumber(s) == Some(Scale(Value(whole), ParseExponent(s[|whole| + 1..]).value))
  {
    assert whole[..|whole|] == whole && whole + "" == whole;
  }

  lemma ShiftParts(whole: string, x: string)
    requires AllDigits(whole)
    ensures var s := whole + ("e" + x); ExponentIndex(s) == |whole| && s[..|whole|] == whole && s[|whole| + 1..] == x
  {
    var s := whole + ("e" + x);
    assert forall i | 0 <= i < |whole| :: s[i] == whole[i] && IsDigit(s[i]);
    IndexOfIs(s, 'e', |whole|);
    FirstIsLater(s, |whole|);
  }

  lemma FirstIsLater(s: string, n: nat)
    requires n < |s| && s[n] != 'E' && forall i | 0 <= i < n :: s[i] != 'E'
    ensures n < IndexOf(s, 'E')
  {
  }

  // ---- Parsing what has been printed ----

  lemma ShortFractions(a: nat, b: nat)
    requires b < 1000
    ensures var d := ThreeDigits(b); var w := Print(a);
            AllDigits(w + d) && Value(w + d) == 1000 * a + b &&
            Value(w + d[..2]) == 100 * a + b / 10 && Value(w + d[..1]) == 10 * a + b / 100 && Value(w) == a
  {
    var w, d := Print(a), ThreeDigits(b);
    PrintValue(a);
    ThreePushes(w, d);
  }

  lemma ThreePushes(w: string, d: string)
    requires AllDigits(w) && AllDigits(d) && |d| == 3
    ensures AllDigits(w + d) && Value(w + d[..1]) == 10 * Value(w) + DigitValue(d[0])
    ensures Value(w + d[..2]) == 10 * Value(w + d[..1]) + DigitValue(d[1])
    ensures Value(w + d) == 10 * Value(w + d[..2]) + DigitValue(d[2])
  {
    ValuePush(w, d[0]);
    ValuePush(w + d[..1], d[1]);
    ValuePush(w + d[..2], d[2]);
    assert d[..1] == [d[0]];
    assert w + d[..1] + [d[1]] == w + d[..2];
    assert w + d[..2] + [d[2]] == w + d;
  }

  lemma Pow10Values()
    ensures Pow10(0) == 1.0 && Pow10(-1) == 0.1 && Pow10(-2) == 0.01 && Pow10(-3) == 0.001
  {
    assert Pow10(-1) == Pow10(0) / 10.0;
    assert Pow10(-2) == Pow10(-1) / 10.0;
    assert Pow10(-3) == Pow10(-2) / 10.0;
  }

  /** A rate as it is after printing and reading it back. */
  function WrittenRate(rate: Rate): Rate
    requires Clamped(rate)
  {
    if rate.NaN? then NaN else Finite(Thousandths(rate) as real / 1000.0)
  }

  /** Dropping zeros keeps the value: what `format_rate` prints is read back as the rate rounded to
      thousandths, so a rate in whole thousandths is read back exactly. */
  lemma ParseFormatted(rate: Rate)
    requires Clamped(rate)
    ensures Parse(Format(rate)) == Some(WrittenRate(rate))
  {
    var text, written := FormattedReads(rate);
  }

  lemma FormattedReads(rate: Rate) returns (text: string, written: Rate)
    requires Clamped(rate)
    ensures text == Format(rate) && written == WrittenRate(rate) && Parse(text) == Some(written)
  {
    if rate.NaN? {
      ParseNaN();
      text, written := "NaN", NaN;
    } else {
      var n := Thousandths(rate);
      ParseShortest(n);
      text, written := Shortest(n), Finite(n as real / 1000.0);
    }
  }

  lemma ParseNaN()
    ensures Parse("NaN") == Some(NaN)
  {
    assert EqIgnoreCase("NaN", "nan");
  }

  /** How many decimals are left of three. */
  function Decimals(b: nat): (k: nat)
    ensures k <= 3
  {
    if b == 0 then 0 else if b % 100 == 0 then 1 else if b % 10 == 0 then 2 else 3
  }

  lemma ShortestDecimals(n: nat)
    ensures var k := Decimals(n % 1000); var f := ThreeDigits(n % 1000)[..k];
            AllDigits(f) && |f| == k && Shortest(n) == Print(n / 1000) + if f == "" then "" else "." + f
  {
  }

  lemma ShortestValue(n: nat)
    ensures var k := Decimals(n % 1000); var s := Print(n / 1000) + ThreeDigits(n % 1000)[..k];
            AllDigits(s) && n == Value(s) * if k == 0 then 1000 else if k == 1 then 100 else if k == 2 then 10 else 1
  {
    var w, d := Print(n / 1000), ThreeDigits(n % 1000);
    ShortFractions(n / 1000, n % 1000);
    assert w + d[..0] == w && d[..3] == d;
  }

  lemma ParseShortest(n: nat)
    ensures Parse(Shortest(n)) == Some(Finite(n as real / 1000.0))
  {
    var m, k := ShortestScale(n);
    ScaledValue(n, k, m);
  }

  lemma ShortestScale(n: nat) returns (m: nat, k: nat)
    ensures k <= 3 && Parse(Shortest(n)) == Some(Finite(Scale(m, 0 - k)))
    ensures n == m * if k == 0 then 1000 else if k == 1 then 100 else if k == 2 then 10 else 1
  {
    k := Decimals(n % 1000);
    var w, f := Print(n / 1000), ThreeDigits(n % 1000)[..k];
    ShortestDecimals(n);
    ShortestValue(n);
    m := Value(w + f);
    ParsePlain(w, f, Shortest(n));
  }

  lemma ScaledValue(n: nat, k: int, m: nat)
    requires 0 <= k <= 3
    requires n == m * if k == 0 then 1000 else if k == 1 then 100 else if k == 2 then 10 else 1
    ensures Scale(m, 0 - k) == n as real / 1000.0
  {
    Pow10Values();
    if k == 1 { Scaled(m, 100, n); }
    if k == 2 { Scaled(m, 10, n); }
  }

  lemma Scaled(m: nat, f: nat, n: nat)
    requires n == m * f && (f == 10 || f == 100)
    ensures f == 10 ==> m as real * 0.01 == n as real / 1000.0
    ensures f == 100 ==> m as real * 0.1 == n as real / 1000.0
  {
    assert n as real == m as real * f as real;
  }

  lemma WholeThousandths(n: nat)
    requires n <= 120000
    ensures Thousandths(Finite(n as real / 1000.0)) == n
    ensures Parse(Format(Finite(n as real / 1000.0))) == Some(Finite(n as real / 1000.0))
  {
    var rate := Finite(n as real / 1000.0);
    ThousandthsOfWhole(n);
    ParseFormatted(rate);
  }

  lemma ThousandthsOfWhole(n: nat)
    requires n <= 120000
    ensures var rate := Finite(n as real / 1000.0); Clamped(rate) && Thousandths(rate) == n && WrittenRate(rate) == rate
  {
    assert n as real / 1000.0 * 1000.0 == n as real;
  }

  /** The printed text ends in a digit that is not a fractional zero. */
  lemma FormattedEnds(n: nat)
    ensures var s := Shortest(n);
            if n % 1000 == 0 then s == Print(n / 1000)
            else Print(n / 1000) + "." < s && s[|s| - 1] != '0' && IsDigit(s[|s| - 1])
  {
  }
}
