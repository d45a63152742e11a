/**
 * The stream operator for a `duration<intmax_t, ratio<1, resolution>>`: the
 * whole units, a '.', then the remaining ticks, each as a plain decimal
 * number. Only ticks >= 0 and resolution > 0 are modelled.
 */
module DurationFormat {
  import opened Wrappers

  predicate IsDigit(c: char) {
    '0' <= c <= '9'
  }

  predicate AllDigits(s: string) {
    forall i | 0 <= i < |s| :: IsDigit(s[i])
  }

  function DigitChar(d: nat): (c: char)
    requires d < 10
    ensures IsDigit(c)
  {
    (48 + d) as char
  }

  function DigitValue(c: char): (d: nat)
    requires IsDigit(c)
    ensures d < 10
  {
    c as int - 48
  }

  /** `stream << n` for n >= 0: decimal digits, no leading zeros. */
  function Decimal(n: nat): (s: string)
    ensures |s| >= 1 && AllDigits(s)
    ensures n == 0 ==> s == "0"
    ensures n > 0 ==> s[0] != '0'
    decreases n
  {
    if n < 10 then [DigitChar(n)] else Decimal(n / 10) + [DigitChar(n % 10)]
  }

  /** The number a string of decimal digits denotes (leading zeros allowed). */
  function ValueOf(s: string): nat
    requires AllDigits(s)
    decreases |s|
  {
    if s == [] then 0 else ValueOf(s[..|s| - 1]) * 10 + DigitValue(s[|s| - 1])
  }

  function Pow10(k: nat): (p: nat)
    ensures p >= 1
  {
    if k == 0 then 1 else 10 * Pow10(k - 1)
  }

  lemma {:induction false} DecimalRoundTrip(n: nat)
    ensures ValueOf(Decimal(n)) == n
    decreases n
  {
    if n >= 10 {
      DecimalRoundTrip(n / 10);
      var s := Decimal(n);
      assert s[..|s| - 1] == Decimal(n / 10);
    }
  }

  /** Where the first '.' of `s` is, or |s| when there is none. */
  function PointIndex(s: string): (i: nat)
    ensures i <= |s|
    ensures forall j | 0 <= j < i :: s[j] != '.'
    ensures i < |s| ==> s[i] == '.'
    decreases |s|
  {
    if s == [] then 0 else if s[0] == '.' then 0 else 1 + PointIndex(s[1..])
  }

  /** Reads back "<digits>.<digits>" as its two numbers. */
  function ParseDuration(s: string): Option<(nat, nat)> {
    var i := PointIndex(s);
    if 0 < i < |s| - 1 && AllDigits(s[..i]) && AllDigits(s[i + 1..]) then
      Some((ValueOf(s[..i]), ValueOf(s[i + 1..])))
    else
      None
  }

  lemma SplitAtPoint(a: string, b: string)
    requires AllDigits(a)
    ensures PointIndex(a + "." + b) == |a|
    ensures (a + "." + b)[..|a|] == a && (a + "." + b)[|a| + 1..] == b
  {
    var s := a + "." + b;
    assert s[|a|] == '.';
    assert forall j | 0 <= j < |a| :: s[j] == a[j];
  }

  /**
   * The ticks/resolution and ticks%resolution rule, each part printed as is.
   * The text always reads back as those two numbers, and neither part is
   * zero-padded: a part that starts with '0' is exactly "0".
   */
  function FormatDuration(ticks: nat, resolution: nat): (s: string)
    requires resolution > 0
    ensures ParseDuration(s) == Some((ticks / resolution, ticks % resolution))
    ensures var i := PointIndex(s);
      (s[0] == '0' ==> s[..i] == "0") && (s[i + 1] == '0' ==> s[i + 1..] == "0")
  {
    var a, b := Decimal(ticks / resolution), Decimal(ticks % resolution);
    SplitAtPoint(a, b);
    DecimalRoundTrip(ticks / resolution);
    DecimalRoundTrip(ticks % resolution);
    a + "." + b
  }

  /**
   * The printed text determines the duration once the resolution is known:
   * the two numbers it reads back as give back the tick count.
   */
  lemma FormatParseRoundTrip(ticks: nat, resolution: nat)
    requires resolution > 0
    ensures ParseDuration(FormatDuration(ticks, resolution)).Some?
    ensures ParseDuration(FormatDuration(ticks, resolution)).value.0 * resolution +
            ParseDuration(FormatDuration(ticks, resolution)).value.1 == ticks
  {
    DivMod(ticks, resolution);
  }

  lemma DivMod(n: nat, d: nat)
    requires d > 0
    ensures n / d >= 0 && (n / d) * d + n % d == n && 0 <= n % d < d
  {
  }

  /** 1005 ticks at a resolution of 1000 print as "1.5". */
  lemma NoZeroPadding()
    ensures FormatDuration(1005, 1000) == "1.5"
  {
    assert 1005 / 1000 == 1 && 1005 % 1000 == 5;
    assert Decimal(1) == "1" && Decimal(5) == "5";
  }

  /**
   * Reads "<digits>.<digits>" as a decimal number: Some((m, k)) stands for
   * m / 10^k, with m the digits on both sides taken together and k the
   * number of digits after the point.
   */
  function ReadDecimal(s: string): Option<(nat, nat)> {
    var i := PointIndex(s);
    if 0 < i < |s| - 1 && AllDigits(s[..i]) && AllDigits(s[i + 1..]) then
      Some((ValueOf(s[..i] + s[i + 1..]), |s| - i - 1))
    else
      None
  }

  /**
   * As written, the text does not read as the duration it prints: 1005 ms
   * comes out as "1.5", the decimal 1.5 s, not 1.005 s.
   */
  lemma FormatDurationMisreads()
    ensures ReadDecimal(FormatDuration(1005, 1000)) == Some((15, 1))
    ensures 15 * Pow10(3) != 1005 * Pow10(1)
  {
    NoZeroPadding();
    SplitAtPoint("1", "5");
    assert "1" + "5" == "15";
    assert ValueOf("15") == 15 by {
      assert "15"[..1] == "1";
      assert ValueOf("1") == 1 by {
        assert "1"[..0] == "";
      }
    }
  }

  /** `s` with '0's in front, to at least `width` characters. */
  function PadLeft(s: string, width: nat): (r: string)
    requires AllDigits(s)
    ensures AllDigits(r)
    ensures |r| == if |s| >= width then |s| else width
    decreases width - |s|
  {
    if |s| >= width then s else PadLeft(['0'] + s, width)
  }

  /**
   * The evidently intended output for a resolution of 10^digits: the
   * remainder is printed with its leading zeros, `digits` places wide.
   */
  function FormatDurationPadded(ticks: nat, digits: nat): string {
    var resolution := Pow10(digits);
    DivMod(ticks, resolution);
    Decimal(ticks / resolution) + "." + PadLeft(Decimal(ticks % resolution), digits)
  }

  lemma ShiftOneDigit(x: nat, p: nat, y: nat, d: nat)
    ensures (x * p + y) * 10 + d == x * (p * 10) + (y * 10 + d)
  {
  }

  lemma {:induction false} ValueOfAppend(a: string, b: string)
    requires AllDigits(a) && AllDigits(b)
    ensures AllDigits(a + b) && ValueOf(a + b) == ValueOf(a) * Pow10(|b|) + ValueOf(b)
    decreases |b|
  {
    var s := a + b;
    if b != [] {
      var b' := b[..|b| - 1];
      assert s[..|s| - 1] == a + b';
      ValueOfAppend(a, b');
      var d := DigitValue(b[|b| - 1]);
      assert ValueOf(s) == ValueOf(a + b') * 10 + d;
      assert ValueOf(b) == ValueOf(b') * 10 + d;
      assert Pow10(|b|) == Pow10(|b'|) * 10;
      ShiftOneDigit(ValueOf(a), Pow10(|b'|), ValueOf(b'), d);
    } else {
      assert s == a;
    }
  }

  lemma {:induction false} LeadingZeroKeepsValue(s: string)
    requires AllDigits(s)
    ensures AllDigits(['0'] + s) && ValueOf(['0'] + s) == ValueOf(s)
    decreases |s|
  {
    if s != [] {
      var t := ['0'] + s;
      assert t[..|t| - 1] == ['0'] + s[..|s| - 1];
      LeadingZeroKeepsValue(s[..|s| - 1]);
    } else {
      assert (['0'] + s)[..0] == [];
    }
  }

  lemma {:induction false} PadLeftKeepsValue(s: string, width: nat)
    requires AllDigits(s)
    ensures ValueOf(PadLeft(s, width)) == ValueOf(s)
    decreases width - |s|
  {
    if |s| < width {
      LeadingZeroKeepsValue(s);
      PadLeftKeepsValue(['0'] + s, width);
    }
  }

  lemma {:induction false} DecimalFits(n: nat, width: nat)
    requires 1 <= width && n < Pow10(width)
    ensures |Decimal(n)| <= width
    decreases n
  {
    if n >= 10 {
      assert Pow10(1) == 10;
      assert width >= 2;
      assert Pow10(width) == 10 * Pow10(width - 1);
      assert n / 10 < Pow10(width - 1);
      DecimalFits(n / 10, width - 1);
    }
  }

  /**
   * Corrected: the padded text, read as a decimal number, is exactly
   * ticks / 10^digits.
   */
  lemma PaddedReadsExactly(ticks: nat, digits: nat)
    ensures ReadDecimal(FormatDurationPadded(ticks, digits)).Some?
    ensures ReadDecimal(FormatDurationPadded(ticks, digits)).value.0 * Pow10(digits) ==
            ticks * Pow10(ReadDecimal(FormatDurationPadded(ticks, digits)).value.1)
  {
    var p := Pow10(digits);
    var whole, frac := ticks / p, ticks % p;
    DivMod(ticks, p);
    var a := Decimal(whole);
    var b := PadLeft(Decimal(frac), digits);
    SplitAtPoint(a, b);
    ValueOfAppend(a, b);
    DecimalRoundTrip(whole);
    DecimalRoundTrip(frac);
    PadLeftKeepsValue(Decimal(frac), digits);
    if digits == 0 {
      assert frac == 0 && Decimal(0) == "0" && |b| == 1;
      assert ValueOf(a + b) == whole * 10;
    } else {
      DecimalFits(frac, digits);
      assert |b| == digits;
      assert ValueOf(a + b) == whole * p + frac == ticks;
    }
  }
}
