/**
 * The `MM:SS` recording-time label (`formatRecordingTime` in the audio utilities, repeated as
 * `formatTime` inside the recorder component).
 */
module AudioUtils {
  import opened Wrappers
  import opened Numerals
  import Text

  /** `mins.toString().padStart(2, '0') + ":" + secs.toString().padStart(2, '0')` with
      `mins = Math.floor(seconds / 60)` and `secs = seconds % 60`. */
  function FormatRecordingTime(seconds: nat): (r: string)
  {
    PadStart(DecimalString(seconds / 60), 2, '0') + ":" + PadStart(DecimalString(seconds % 60), 2, '0')
  }

  /** Reads a label back: digits, one ':', digits. The inverse used to state what a label shows. */
  function DecodeTime(s: string): (r: Option<nat>)
    ensures r.Some? ==> ':' in s
  {
    var k := Text.IndexOfChar(s, ':');
    if k == |s| || !AllDigits(s[..k]) || !AllDigits(s[k + 1..]) then None
    else Some(DecimalValue(s[..k]) * 60 + DecimalValue(s[k + 1..]))
  }

  /** The two fields of the label: the minutes field (everything before the ':') holds
      `n div 60` in at least two digits, the seconds field holds `n mod 60` in exactly two. */
  lemma TimeFields(n: nat)
    ensures var r := FormatRecordingTime(n);
      var k := Text.IndexOfChar(r, ':');
      k >= 2 && k + 3 == |r|
      && AllDigits(r[..k]) && DecimalValue(r[..k]) == n / 60
      && AllDigits(r[k + 1..]) && DecimalValue(r[k + 1..]) == n % 60 && DecimalValue(r[k + 1..]) < 60
  {
    var m := PadStart(DecimalString(n / 60), 2, '0');
    var s := PadStart(DecimalString(n % 60), 2, '0');
    DecimalTwoDigits(n % 60);
    PaddedField(n % 60, 2);
    PadStartValue(DecimalString(n / 60), 2);
    DecimalRoundTrip(n / 60);
    var r := FormatRecordingTime(n);
    ColonSplit(m, s);
  }

  lemma ColonSplit(m: string, s: string)
    requires AllDigits(m)
    ensures Text.IndexOfChar(m + ":" + s, ':') == |m|
    ensures (m + ":" + s)[..|m|] == m && (m + ":" + s)[|m| + 1..] == s
  {
    var r := m + ":" + s;
    assert r[..|m|] == m;
    assert ':' !in m;
    FirstColon(r, |m|);
  }

  lemma {:induction false} FirstColon(r: string, k: nat)
    requires k < |r| && r[k] == ':' && ':' !in r[..k]
    ensures Text.IndexOfChar(r, ':') == k
    decreases k
  {
    if k > 0 {
      assert r[0] != ':' by { assert r[0] == r[..k][0]; }
      assert r[1..][..k - 1] == r[1..k];
      assert r[1..k] == r[..k][1..];
      FirstColon(r[1..], k - 1);
    }
  }

  /** Reading the label back gives the number of seconds it was made from. */
  lemma DecodeFormat(n: nat)
    ensures DecodeTime(FormatRecordingTime(n)).Some? && DecodeTime(FormatRecordingTime(n)).value == n
  {
    var r := FormatRecordingTime(n);
    TimeFields(n);
    var mins, secs := n / 60, n % 60;
    DecodeFields(r, mins, secs);
    DivMod60(n, mins, secs);
  }

  lemma DivMod60(n: nat, mins: nat, secs: nat)
    requires mins == n / 60 && secs == n % 60
    ensures mins * 60 + secs == n
  {
  }

  lemma DecodeFields(r: string, mins: nat, secs: nat)
    requires var k := Text.IndexOfChar(r, ':');
      k < |r| && AllDigits(r[..k]) && AllDigits(r[k + 1..])
      && DecimalValue(r[..k]) == mins && DecimalValue(r[k + 1..]) == secs
    ensures DecodeTime(r).Some? && DecodeTime(r).value == mins * 60 + secs
  {
  }

  /** Distinct non-negative inputs give distinct labels. */
  lemma FormatInjective(m: nat, n: nat)
    requires FormatRecordingTime(m) == FormatRecordingTime(n)
    ensures m == n
  {
    DecodeFormat(m);
    DecodeFormat(n);
  }

  /** Below 100 minutes the label is exactly `MM:SS`. */
  lemma ShortLabel(n: nat)
    requires n < 6000
    ensures |FormatRecordingTime(n)| == 5 && FormatRecordingTime(n)[2] == ':'
  {
    assert n / 60 < 100;
    TwoFieldLabel(n / 60, n % 60);
  }

  lemma TwoFieldLabel(a: nat, b: nat)
    requires a < 100 && b < 100
    ensures var r := PadStart(DecimalString(a), 2, '0') + ":" + PadStart(DecimalString(b), 2, '0');
      |r| == 5 && r[2] == ':'
  {
    DecimalTwoDigits(a);
    DecimalTwoDigits(b);
    PaddedField(a, 2);
    PaddedField(b, 2);
    ColonAt(PadStart(DecimalString(a), 2, '0'), PadStart(DecimalString(b), 2, '0'));
  }

  lemma ColonAt(m: string, s: string)
    requires |m| == 2 && |s| == 2
    ensures |m + ":" + s| == 5 && (m + ":" + s)[2] == ':'
  {
  }

  /** From 100 minutes on the minutes field widens instead of being cut to two digits. */
  lemma LongLabel(n: nat)
    requires n >= 6000
    ensures Text.IndexOfChar(FormatRecordingTime(n), ':') >= 3
  {
    DecimalTwoDigits(n / 60);
    var m := PadStart(DecimalString(n / 60), 2, '0');
    var s := PadStart(DecimalString(n % 60), 2, '0');
    ColonSplit(m, s);
  }
}
