/** Decimal numbers in text: whole numbers, and millimetres with up to four decimals. */
module Decimals {
  import opened Basics

  predicate IsDigit(c: char) {
    '0' <= c <= '9'
  }

  function DigitChar(d: nat): (c: char)
    requires d < 10
    ensures IsDigit(c) && DigitValue(c) == d
  {
    ('0' as int + d) as char
  }

  function DigitValue(c: char): (d: nat)
    requires IsDigit(c)
    ensures d < 10
  {
    c as int - '0' as int
  }

  predicate AllDigits(s: string) {
    forall i :: 0 <= i < |s| ==> IsDigit(s[i])
  }

  function Value(s: string): nat
    requires AllDigits(s)
  {
    if s == "" then 0 else 10 * Value(s[..|s| - 1]) + DigitValue(s[|s| - 1])
  }

  function Decimal(n: nat): (s: string)
    ensures s != "" && AllDigits(s) && Value(s) == n
  {
    if n < 10 then
      var s := [DigitChar(n)];
      assert s[..0] == [];
      s
    else
      var rest, last := Decimal(n / 10), DigitChar(n % 10);
      assert (rest + [last])[..|rest|] == rest;
      rest + [last]
  }

  /** Exactly `width` digits. */
  function Padded(n: nat, width: nat): (s: string)
    ensures |s| == width && AllDigits(s)
  {
    if width == 0 then "" else Padded(n / 10, width - 1) + [DigitChar(n % 10)]
  }

  function Pow10(e: nat): (p: nat)
    ensures p > 0
  {
    if e == 0 then 1 else 10 * Pow10(e - 1)
  }

  lemma {:induction false} PaddedValue(n: nat, width: nat)
    requires n < Pow10(width)
    ensures Value(Padded(n, width)) == n
  {
    if width > 0 {
      PaddedValue(n / 10, width - 1);
      assert Padded(n, width)[..width - 1] == Padded(n / 10, width - 1);
    }
  }

  // ---- Millimetres ---------------------------------------------------------------------------

  /** A length in units of 0.0001 mm, the finest the printer shows. */
  const UNITS_PER_MM: nat := 10000

  /** Drops zeros at the end, but never the last digit. */
  function TrimZeros(s: string): (r: string)
    requires s != ""
    ensures r != "" && r <= s
  {
    if |s| > 1 && s[|s| - 1] == '0' then TrimZeros(s[..|s| - 1]) else s
  }

  /** A length as it is printed: sign, whole millimetres, and one to four decimals. */
  function FmtMm(v: int): string {
    var a := Abs(v);
    (if v < 0 then "-" else "") + Decimal(a / UNITS_PER_MM) + ("." + TrimZeros(Padded(a % UNITS_PER_MM, 4)))
  }

  /** How many characters from the start are digits. */
  function DigitRun(s: string): (k: nat)
    ensures k <= |s| && AllDigits(s[..k]) && (k < |s| ==> !IsDigit(s[k]))
  {
    if s == "" || !IsDigit(s[0]) then 0
    else
      var k := DigitRun(s[1..]);
      assert s[..k + 1] == [s[0]] + s[1..][..k];
      k + 1
  }

  /** The C library's reading of a plain decimal, to four decimals; anything after it is ignored, and a text that
      does not start with a number gives the fallback zero. Exponents and further decimals are not modelled. */
  function ToUnits(s: string): int {
    var negative := s != "" && s[0] == '-';
    var t := if negative then s[1..] else s;
    var k := DigitRun(t);
    var rest := if k < |t| && t[k] == '.' then t[k + 1..] else "";
    var f := DigitRun(rest);
    var decimals := rest[..if f < 4 then f else 4];
    if k == 0 && f == 0 then 0
    else
      var magnitude := Value(t[..k]) * UNITS_PER_MM + Value(decimals) * Pow10(4 - |decimals|);
      if negative then -magnitude else magnitude
  }

  lemma {:induction false} TrimKeepsValue(s: string)
    requires s != "" && AllDigits(s)
    ensures var r := TrimZeros(s); AllDigits(r) && Value(r) * Pow10(|s| - |r|) == Value(s)
  {
    if |s| > 1 && s[|s| - 1] == '0' {
      var t := s[..|s| - 1];
      TrimKeepsValue(t);
      var r := TrimZeros(t);
      TenFold(Value(r), Pow10(|t| - |r|), Value(t));
    }
  }

  lemma TenFold(v: int, p: int, w: int)
    requires v * p == w
    ensures v * (10 * p) == 10 * w
  {
  }

  lemma {:induction false} DigitRunPrefix(digits: string, rest: string)
    requires AllDigits(digits) && (rest != "" ==> !IsDigit(rest[0]))
    ensures DigitRun(digits + rest) == |digits|
  {
    var all := digits + rest;
    if digits == "" {
      assert all == rest;
    } else {
      assert all[1..] == digits[1..] + rest && all[0] == digits[0];
      DigitRunPrefix(digits[1..], rest);
    }
  }

  /** Reading a printed length gives it back. */
  lemma PrintedLengthReads(v: int)
    ensures ToUnits(FmtMm(v)) == v
  {
    hide Decimal, Padded, TrimZeros, Value, DigitRun;
    var a := Abs(v);
    var whole, part := Decimal(a / UNITS_PER_MM), Padded(a % UNITS_PER_MM, 4);
    var shown := TrimZeros(part);
    TrimKeepsValue(part);
    FourDigits();
    PaddedValue(a % UNITS_PER_MM, 4);
    var body := whole + ("." + shown);
    var s := FmtMm(v);
    assert v >= 0 ==> s == body;
    assert v < 0 ==> s[0] == '-' && s[1..] == body;
    assert s != "" && body[0] == whole[0] && IsDigit(whole[0]);
    DigitRunPrefix(whole, "." + shown);
    assert body[..|whole|] == whole && body[|whole|] == '.' && body[|whole| + 1..] == shown;
    assert shown + "" == shown;
    DigitRunPrefix(shown, "");
    assert shown[..|shown|] == shown;
  }

  lemma {:induction false} TrimIsShort(s: string)
    requires s != "" && AllDigits(s)
    ensures var r := TrimZeros(s); AllDigits(r) && |r| <= |s| && (|r| > 1 ==> r[|r| - 1] != '0')
  {
    if |s| > 1 && s[|s| - 1] == '0' {
      TrimIsShort(s[..|s| - 1]);
    }
  }

  lemma {:induction false} NoLeadingZero(n: nat)
    ensures n > 0 ==> Decimal(n)[0] != '0'
    ensures n == 0 ==> Decimal(n) == "0"
  {
    if n >= 10 {
      NoLeadingZero(n / 10);
    }
  }

  /** The printed form: a sign for negative lengths, whole millimetres without leading zeros, a point, and as few
      decimals as will do, but at least one. */
  lemma PrintedForm(v: int) returns (whole: string, shown: string)
    ensures FmtMm(v) == (if v < 0 then "-" else "") + whole + "." + shown
    ensures AllDigits(whole) && (whole == "0" || (whole != "" && whole[0] != '0'))
    ensures AllDigits(shown) && 1 <= |shown| <= 4 && (|shown| > 1 ==> shown[|shown| - 1] != '0')
  {
    hide Decimal, Padded, TrimZeros, Value;
    var a := Abs(v);
    whole, shown := Decimal(a / UNITS_PER_MM), TrimZeros(Padded(a % UNITS_PER_MM, 4));
    NoLeadingZero(a / UNITS_PER_MM);
    TrimIsShort(Padded(a % UNITS_PER_MM, 4));
    var sign := if v < 0 then "-" else "";
    assert sign + whole + ("." + shown) == sign + whole + "." + shown;
  }

  lemma FourDigits()
    ensures Pow10(4) == UNITS_PER_MM
  {
  }
}
