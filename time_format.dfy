/**
  The countdown display of a task card: `formatTime` turns a number of
  seconds into `HH:MM:SS`, each field the decimal form of the number
  left-padded with '0' to at least two characters. `ParseClock` reads such
  a string back and is the inverse the round-trip lemma is stated against.
 */
module TimeFormat {
  import opened Wrappers

  predicate IsDigit(c: char) { '0' <= c <= '9' }

  predicate AllDigits(s: string) { forall i :: 0 <= i < |s| ==> IsDigit(s[i]) }

  function DigitChar(d: nat): (c: char)
    requires d < 10
    ensures IsDigit(c) && c as int - '0' as int == d
  {
    ('0' as int + d) as char
  }

  /** The value of a string of decimal digits, most significant digit first. */
  function DigitsValue(s: string): nat
    requires AllDigits(s)
  {
    if s == [] then 0 else DigitsValue(s[..|s| - 1]) * 10 + (s[|s| - 1] as int - '0' as int)
  }

  /** `String(n)` for a non-negative integer: its shortest decimal form. */
  function DecimalString(n: nat): (r: string)
    ensures 1 <= |r| && AllDigits(r)
    ensures |r| == 1 <==> n < 10
    ensures |r| <= 2 <==> n < 100
    ensures r[0] == '0' <==> n == 0
  {
    if n < 10 then [DigitChar(n)] else DecimalString(n / 10) + [DigitChar(n % 10)]
  }

  /** `s.padStart(2, "0")`: prefix with zeros up to length two. */
  function PadStart2(s: string): string
  {
    if |s| >= 2 then s else seq(2 - |s|, _ => '0') + s
  }

  /** `formatTime` (script.js:82-87). */
  function FormatTime(sec: nat): string
  {
    PadStart2(DecimalString(sec / 3600)) + ":" +
    PadStart2(DecimalString(sec % 3600 / 60)) + ":" +
    PadStart2(DecimalString(sec % 60))
  }

  /**
    Reads `H…H:MM:SS` (at least two hour digits, two minute and two second
    digits, minutes and seconds below 60) back into seconds.
   */
  function ParseClock(t: string): Option<nat>
  {
    if |t| >= 8 && t[|t| - 6] == ':' && t[|t| - 3] == ':'
    then ParseFields(t[..|t| - 6], t[|t| - 5..|t| - 3], t[|t| - 2..])
    else None
  }

  function ParseFields(hh: string, mm: string, ss: string): Option<nat>
  {
    if AllDigits(hh) && AllDigits(mm) && AllDigits(ss) && DigitsValue(mm) < 60 && DigitsValue(ss) < 60
    then Some(DigitsValue(hh) * 3600 + DigitsValue(mm) * 60 + DigitsValue(ss))
    else None
  }

  lemma {:induction false} DecimalStringValue(n: nat)
    ensures DigitsValue(DecimalString(n)) == n
  {
    var r := DecimalString(n);
    if n >= 10 {
      DecimalStringValue(n / 10);
      assert r[..|r| - 1] == DecimalString(n / 10);
    }
  }

  lemma {:induction false} ZerosValue(k: nat)
    ensures AllDigits(seq(k, _ => '0')) && DigitsValue(seq(k, _ => '0')) == 0
  {
    if k > 0 {
      ZerosValue(k - 1);
      assert seq(k, _ => '0')[..k - 1] == seq(k - 1, _ => '0');
    }
  }

  /** Leading zeros do not change the value of a digit string. */
  lemma {:induction false} LeadingZerosValue(k: nat, s: string)
    requires AllDigits(s)
    ensures AllDigits(seq(k, _ => '0') + s)
    ensures DigitsValue(seq(k, _ => '0') + s) == DigitsValue(s)
  {
    var z := seq(k, _ => '0');
    if s == [] {
      ZerosValue(k);
      assert z + s == z;
    } else {
      LeadingZerosValue(k, s[..|s| - 1]);
      assert (z + s)[..|z + s| - 1] == z + s[..|s| - 1];
    }
  }

  /** A padded field has at least two digits, exactly two below 100, and keeps its value. */
  lemma PaddedField(n: nat)
    ensures AllDigits(PadStart2(DecimalString(n)))
    ensures |PadStart2(DecimalString(n))| >= 2
    ensures |PadStart2(DecimalString(n))| == 2 <==> n < 100
    ensures DigitsValue(PadStart2(DecimalString(n))) == n
  {
    var d := DecimalString(n);
    DecimalStringValue(n);
    if |d| < 2 {
      LeadingZerosValue(2 - |d|, d);
    }
  }

  /**
    The fields of `formatTime` are hours, minutes below 60 and seconds below
    60 whose weighted sum is the input, each at least two digits: reading
    the string back yields the input.
   */
  lemma FormatTimeRoundTrip(sec: nat)
    ensures ParseClock(FormatTime(sec)) == Some(sec)
  {
    var h, m, s := sec / 3600, sec % 3600 / 60, sec % 60;
    ClockArithmetic(sec);
    PaddedField(h);
    PaddedField(m);
    PaddedField(s);
    SplitClock(PadStart2(DecimalString(h)), PadStart2(DecimalString(m)), PadStart2(DecimalString(s)));
  }

  /** Hours, minutes and seconds recombine to the input; minutes and seconds are below 60. */
  lemma ClockArithmetic(sec: nat)
    ensures sec % 3600 / 60 < 60 && sec % 60 < 60
    ensures (sec / 3600) * 3600 + (sec % 3600 / 60) * 60 + sec % 60 == sec
  {
    assert sec % 3600 == (sec % 3600 / 60) * 60 + sec % 60;
  }

  /** ParseClock cuts a string glued from three fields back at its two colons. */
  lemma SplitClock(hh: string, mm: string, ss: string)
    requires |hh| >= 2 && |mm| == 2 && |ss| == 2
    ensures ParseClock(hh + ":" + mm + ":" + ss) == ParseFields(hh, mm, ss)
  {
    var t := hh + ":" + mm + ":" + ss;
    var n := |t|;
    assert t[n - 6] == ':' && t[n - 3] == ':';
    assert t[..n - 6] == hh;
    assert t[n - 5..n - 3] == mm;
    assert t[n - 2..] == ss;
  }

  /** The display is at least 8 characters, and exactly 8 below 100 hours. */
  lemma FormatTimeLength(sec: nat)
    ensures |FormatTime(sec)| >= 8
    ensures |FormatTime(sec)| == 8 <==> sec < 360000
  {
    PaddedField(sec / 3600);
    PaddedField(sec % 3600 / 60);
    PaddedField(sec % 60);
  }
}
