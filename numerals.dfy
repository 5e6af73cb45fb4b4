/**
 * Decimal rendering of non-negative integers (`n.toString()`, `str(n)`), zero padding
 * (`padStart(w, '0')`) and the `YYYY-MM-DD` calendar date both tiers write.
 */
module Numerals {

  predicate IsDigit(c: char) {
    '0' <= c <= '9'
  }

  predicate AllDigits(s: string) {
    forall i | 0 <= i < |s| :: IsDigit(s[i])
  }

  function DigitChar(d: nat): char
    requires d < 10
  {
    ('0' as int + d) as char
  }

  function DigitValue(c: char): nat
    requires IsDigit(c)
  {
    c as int - '0' as int
  }

  /** `n.toString()` / `str(n)`: the shortest decimal numeral of `n`. */
  function DecimalString(n: nat): (r: string)
    ensures |r| >= 1 && AllDigits(r)
    ensures |r| == 1 <==> n < 10
    decreases n
  {
    if n < 10 then [DigitChar(n)] else DecimalString(n / 10) + [DigitChar(n % 10)]
  }

  /** The number a string of decimal digits denotes (leading zeros allowed). */
  function DecimalValue(s: string): nat
    requires AllDigits(s)
    decreases |s|
  {
    if s == [] then 0 else DecimalValue(s[..|s| - 1]) * 10 + DigitValue(s[|s| - 1])
  }

  lemma {:induction false} DecimalRoundTrip(n: nat)
    ensures DecimalValue(DecimalString(n)) == n
    decreases n
  {
    if n >= 10 {
      var r := DecimalString(n);
      assert r[..|r| - 1] == DecimalString(n / 10);
      DecimalRoundTrip(n / 10);
    }
  }

  /** The numeral has at most two digits exactly when the number is below 100. */
  lemma {:induction false} DecimalTwoDigits(n: nat)
    ensures |DecimalString(n)| <= 2 <==> n < 100
  {
    if n >= 10 {
      assert |DecimalString(n)| == |DecimalString(n / 10)| + 1;
      if n >= 100 {
        assert |DecimalString(n / 10)| >= 2;
      }
    }
  }

  /** `n` copies of `c`. */
  function Repeat(c: char, n: nat): (r: string)
    ensures |r| == n && forall i | 0 <= i < n :: r[i] == c
  {
    if n == 0 then [] else Repeat(c, n - 1) + [c]
  }

  /** `s.padStart(width, fill)`. */
  function PadStart(s: string, width: nat, fill: char): (r: string)
    ensures |r| == if |s| < width then width else |s|
    ensures r[|r| - |s|..] == s
    ensures forall i | 0 <= i < |r| - |s| :: r[i] == fill
  {
    if |s| < width then Repeat(fill, width - |s|) + s else s
  }

  lemma {:induction false} LeadingZeros(z: nat, s: string)
    requires AllDigits(s)
    ensures AllDigits(Repeat('0', z) + s)
    ensures DecimalValue(Repeat('0', z) + s) == DecimalValue(s)
    decreases |s|
  {
    var t := Repeat('0', z) + s;
    if s == [] {
      assert t == Repeat('0', z);
      Zeros(z);
    } else {
      assert t[..|t| - 1] == Repeat('0', z) + s[..|s| - 1];
      LeadingZeros(z, s[..|s| - 1]);
    }
  }

  lemma {:induction false} Zeros(z: nat)
    ensures AllDigits(Repeat('0', z))
    ensures DecimalValue(Repeat('0', z)) == 0
    decreases z
  {
    if z > 0 {
      assert Repeat('0', z)[..z - 1] == Repeat('0', z - 1);
      Zeros(z - 1);
    }
  }

  /** Zero padding never changes the number a numeral denotes. */
  lemma PadStartValue(s: string, width: nat)
    requires AllDigits(s)
    ensures AllDigits(PadStart(s, width, '0'))
    ensures DecimalValue(PadStart(s, width, '0')) == DecimalValue(s)
  {
    if |s| < width {
      LeadingZeros(width - |s|, s);
    }
  }

  /** A calendar date as the clock reports it. */
  datatype Date = Date(year: nat, month: nat, day: nat)

  predicate ValidDate(d: Date) {
    d.year <= 9999 && 1 <= d.month <= 12 && 1 <= d.day <= 31
  }

  /** `new Date().toISOString().split('T')[0]` and `strftime('%Y-%m-%d')`. */
  function IsoDate(d: Date): (r: string)
    requires ValidDate(d)
  {
    PadStart(DecimalString(d.year), 4, '0') + "-"
      + PadStart(DecimalString(d.month), 2, '0') + "-"
      + PadStart(DecimalString(d.day), 2, '0')
  }

  /** A numeral that fits in `width` digits pads to exactly `width` digits of the same value. */
  lemma PaddedField(n: nat, width: nat)
    requires |DecimalString(n)| <= width
    ensures |PadStart(DecimalString(n), width, '0')| == width
    ensures AllDigits(PadStart(DecimalString(n), width, '0'))
    ensures DecimalValue(PadStart(DecimalString(n), width, '0')) == n
  {
    PadStartValue(DecimalString(n), width);
    DecimalRoundTrip(n);
  }

  /** The date string has the fixed `YYYY-MM-DD` shape and reads back as the date. */
  lemma IsoDateShape(d: Date)
    requires ValidDate(d)
    ensures |IsoDate(d)| == 10 && IsoDate(d)[4] == '-' && IsoDate(d)[7] == '-'
    ensures AllDigits(IsoDate(d)[..4]) && AllDigits(IsoDate(d)[5..7]) && AllDigits(IsoDate(d)[8..])
    ensures DecimalValue(IsoDate(d)[..4]) == d.year
    ensures DecimalValue(IsoDate(d)[5..7]) == d.month
    ensures DecimalValue(IsoDate(d)[8..]) == d.day
  {
    var y := PadStart(DecimalString(d.year), 4, '0');
    var m := PadStart(DecimalString(d.month), 2, '0');
    var dd := PadStart(DecimalString(d.day), 2, '0');
    DecimalTwoDigits(d.month);
    DecimalTwoDigits(d.day);
    DecimalFourDigits(d.year);
    PaddedField(d.year, 4);
    PaddedField(d.month, 2);
    PaddedField(d.day, 2);
    DashFields(y, m, dd);
  }

  lemma DashFields(y: string, m: string, d: string)
    requires |y| == 4 && |m| == 2 && |d| == 2
    ensures var r := y + "-" + m + "-" + d;
      |r| == 10 && r[4] == '-' && r[7] == '-' && r[..4] == y && r[5..7] == m && r[8..] == d
  {
  }

  lemma {:induction false} DecimalFourDigits(n: nat)
    requires n < 10000
    ensures |DecimalString(n)| <= 4
  {
    if n >= 10 {
      DecimalTwoDigits(n / 10);
      if n / 10 >= 100 {
        assert |DecimalString(n / 10)| == |DecimalString(n / 100)| + 1;
        DecimalTwoDigits(n / 100);
      }
    }
  }
}
