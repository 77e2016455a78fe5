/** Naive local timestamps (Python `datetime` without a time zone) and the
    ISO 8601 text `datetime.isoformat()` gives for them. The clock itself
    (`datetime.now()`) is not modelled: callers pass the current time in. */
module Timestamps {
  import opened Values

  datatype DateTime = DateTime(year: int, month: int, day: int,
                               hour: int, minute: int, second: int, microsecond: int)

  predicate IsLeapYear(y: int) {
    y % 4 == 0 && (y % 100 != 0 || y % 400 == 0)
  }

  function DaysInMonth(y: int, m: int): int
    requires 1 <= m <= 12
  {
    if m == 2 then (if IsLeapYear(y) then 29 else 28)
    else if m == 4 || m == 6 || m == 9 || m == 11 then 30
    else 31
  }

  /** The ranges Python's `datetime` constructor accepts. */
  predicate ValidDateTime(t: DateTime) {
    && 1 <= t.year <= 9999
    && 1 <= t.month <= 12
    && 1 <= t.day <= DaysInMonth(t.year, t.month)
    && 0 <= t.hour < 24
    && 0 <= t.minute < 60
    && 0 <= t.second < 60
    && 0 <= t.microsecond < 1000000
  }

  type Time = t: DateTime | ValidDateTime(t) witness DateTime(1, 1, 1, 0, 0, 0, 0)

  /** A number below 10^w needs at most w digits. */
  lemma {:induction false} DigitsWithin(n: nat, w: nat)
    requires 1 <= w && n < Pow10(w)
    ensures |Digits(n)| <= w
  {
    if n >= 10 {
      DigitsWithin(n / 10, w - 1);
    }
  }

  function Zeros(k: nat): (r: string)
    ensures |r| == k && AllDigits(r)
  {
    if k == 0 then "" else Zeros(k - 1) + "0"
  }

  /** `"%0*d" % (width, n)`: the digits of n, left-padded with zeros. */
  function Pad(n: nat, width: nat): (r: string)
    requires 1 <= width && n < Pow10(width)
    ensures |r| == width && AllDigits(r)
  {
    DigitsWithin(n, width);
    var d := Digits(n);
    Zeros(width - |d|) + d
  }

  /** The shape of `datetime.isoformat()` output: `YYYY-MM-DDTHH:MM:SS`,
      followed by `.ffffff` when the microseconds are not zero. */
  predicate IsoShaped(s: string) {
    && (|s| == 19 || (|s| == 26 && s[19] == '.'))
    && s[4] == '-' && s[7] == '-' && s[10] == 'T' && s[13] == ':' && s[16] == ':'
    && (forall k :: 0 <= k < |s| && k !in {4, 7, 10, 13, 16, 19} ==> IsDigit(s[k]))
  }

  /** Leading zeros add nothing. */
  lemma {:induction false} ParseZeros(k: nat)
    ensures ParseDigits(Zeros(k)) == 0
  {
    if k > 0 {
      ParseZeros(k - 1);
      assert Zeros(k)[..k - 1] == Zeros(k - 1);
    }
  }

  /** A padded field reads back to the number it was padded from. */
  lemma PadInverse(n: nat, width: nat)
    requires 1 <= width && n < Pow10(width)
    ensures ParseDigits(Pad(n, width)) == n
  {
    DigitsWithin(n, width);
    var d := Digits(n);
    var z := Zeros(width - |d|);
    assert Pad(n, width) == z + d;
    ParseZeros(width - |d|);
    ParseDigitsAppend(z, d);
    assert ParseDigits(z) * Pow10(|d|) == 0;
    ParseDigitsInverse(n);
  }

  /** `YYYY-MM-DD`. */
  function DateText(t: Time): (r: string)
    ensures |r| == 10
  {
    Pad(t.year, 4) + "-" + (Pad(t.month, 2) + "-" + Pad(t.day, 2))
  }

  /** `HH:MM:SS`, then the microseconds part. */
  function ClockText(t: Time): (r: string)
    ensures |r| == 8 + |Fraction(t)|
  {
    Pad(t.hour, 2) + ":" + (Pad(t.minute, 2) + ":" + (Pad(t.second, 2) + Fraction(t)))
  }

  /** The microseconds part: empty when they are zero. */
  function Fraction(t: Time): (r: string)
    ensures t.microsecond == 0 ==> r == ""
    ensures t.microsecond != 0 ==> |r| == 7 && r[0] == '.' && r[1..] == Pad(t.microsecond, 6)
  {
    if t.microsecond != 0 then "." + Pad(t.microsecond, 6) else ""
  }

  function IsoFormat(t: Time): (r: string)
    ensures IsoShaped(r)
    ensures |r| == 26 <==> t.microsecond != 0
    ensures r != "Never"
  {
    var r := DateText(t) + "T" + ClockText(t);
    IsoTextShape(t);
    r
  }

  /** A text made of a head, a separator and a tail splits back into them. */
  lemma Split(s: string, head: string, sep: string, tail: string)
    requires s == head + sep + tail
    ensures s[..|head|] == head && s[|head| + |sep|..] == tail
  {
    assert s[..|head|] == head;
    assert s[|head| + |sep|..] == tail;
  }

  /** Slicing a slice is slicing the whole. */
  lemma SliceOfSlice(s: string, i: nat, j: nat, k: nat, l: nat)
    requires i <= j <= |s| && k <= l <= j - i
    ensures s[i..j][k..l] == s[i + k..i + l]
  {
    assert forall m :: 0 <= m < l - k ==> s[i..j][k..l][m] == s[i + k + m];
  }

  /** Where the three fields sit in the date text. */
  lemma DateFields(t: Time)
    ensures var d := DateText(t);
      && d[0..4] == Pad(t.year, 4) && d[4] == '-'
      && d[5..7] == Pad(t.month, 2) && d[7] == '-'
      && d[8..10] == Pad(t.day, 2)
  {
    var d, rest := DateText(t), Pad(t.month, 2) + "-" + Pad(t.day, 2);
    Split(d, Pad(t.year, 4), "-", rest);
    Split(rest, Pad(t.month, 2), "-", Pad(t.day, 2));
    SliceOfSlice(d, 5, 10, 0, 2);
    SliceOfSlice(d, 5, 10, 3, 5);
  }

  /** Where the three fields and the microseconds part sit in the clock text. */
  lemma ClockFields(t: Time)
    ensures var c := ClockText(t);
      && c[0..2] == Pad(t.hour, 2) && c[2] == ':'
      && c[3..5] == Pad(t.minute, 2) && c[5] == ':'
      && c[6..8] == Pad(t.second, 2)
      && c[8..] == Fraction(t)
  {
    var c := ClockText(t);
    var s2 := Pad(t.second, 2) + Fraction(t);
    var s1 := Pad(t.minute, 2) + ":" + s2;
    Split(c, Pad(t.hour, 2), ":", s1);
    Split(s1, Pad(t.minute, 2), ":", s2);
    Split(s2, Pad(t.second, 2), "", Fraction(t));
    assert c[6..] == s2 by { assert c[6..] == c[3..][3..]; }
    SliceOfSlice(c, 3, |c|, 0, 2);
    SliceOfSlice(c, 6, |c|, 0, 2);
    assert c[8..] == c[6..][2..];
  }

  /** The date and the clock texts around the `T`. */
  lemma IsoParts(t: Time)
    ensures var r := DateText(t) + "T" + ClockText(t);
      r[0..10] == DateText(t) && r[10] == 'T' && r[11..] == ClockText(t)
  {
    Split(DateText(t) + "T" + ClockText(t), DateText(t), "T", ClockText(t));
  }

  /** The text has the shape `isoformat()` produces. */
  lemma IsoTextShape(t: Time)
    ensures var r := DateText(t) + "T" + ClockText(t);
      IsoShaped(r) && (|r| == 26 <==> t.microsecond != 0)
  {
    var r, d, c := DateText(t) + "T" + ClockText(t), DateText(t), ClockText(t);
    IsoParts(t);
    DateFields(t);
    ClockFields(t);
    forall k | 0 <= k < |r| && k !in {4, 7, 10, 13, 16, 19} ensures IsDigit(r[k]) {
      if k < 10 {
        assert r[k] == d[k];
        if k < 4 { assert d[k] == d[0..4][k]; }
        else if k < 7 { assert d[k] == d[5..7][k - 5]; }
        else { assert d[k] == d[8..10][k - 8]; }
      } else {
        var j := k - 11;
        assert r[k] == c[j];
        if j < 2 { assert c[j] == c[0..2][j]; }
        else if j < 5 { assert c[j] == c[3..5][j - 3]; }
        else if j < 8 { assert c[j] == c[6..8][j - 6]; }
        else { assert c[j] == Fraction(t)[j - 8] == Fraction(t)[1..][j - 9]; }
      }
    }
    if t.microsecond != 0 {
      assert r[19] == c[8] == Fraction(t)[0];
    }
  }

  /** Where each padded field sits in the text. */
  lemma IsoFieldTexts(t: Time)
    ensures var r := IsoFormat(t);
      && r[0..4] == Pad(t.year, 4)
      && r[5..7] == Pad(t.month, 2)
      && r[8..10] == Pad(t.day, 2)
      && r[11..13] == Pad(t.hour, 2)
      && r[14..16] == Pad(t.minute, 2)
      && r[17..19] == Pad(t.second, 2)
      && (t.microsecond != 0 ==> r[20..26] == Pad(t.microsecond, 6))
  {
    var r := IsoFormat(t);
    IsoParts(t);
    DateFields(t);
    ClockFields(t);
    SliceOfSlice(r, 0, 10, 0, 4);
    SliceOfSlice(r, 0, 10, 5, 7);
    SliceOfSlice(r, 0, 10, 8, 10);
    SliceOfSlice(r, 11, |r|, 0, 2);
    SliceOfSlice(r, 11, |r|, 3, 5);
    SliceOfSlice(r, 11, |r|, 6, 8);
    if t.microsecond != 0 {
      SliceOfSlice(r, 11, |r|, 9, 15);
      assert r[20..26] == Fraction(t)[1..] by {
        assert r[11..][9..15] == r[11..][8..][1..];
      }
    }
  }

  /** Each field of the text reads back to the corresponding part of the
      time: year, month, day, hour, minute, second and, when present, the
      microseconds. */
  lemma IsoFormatFields(t: Time)
    ensures var r := IsoFormat(t);
      && ParseDigits(r[0..4]) == t.year
      && ParseDigits(r[5..7]) == t.month
      && ParseDigits(r[8..10]) == t.day
      && ParseDigits(r[11..13]) == t.hour
      && ParseDigits(r[14..16]) == t.minute
      && ParseDigits(r[17..19]) == t.second
      && (t.microsecond != 0 ==> ParseDigits(r[20..26]) == t.microsecond)
  {
    IsoFieldTexts(t);
    PadInverse(t.year, 4);
    PadInverse(t.month, 2);
    PadInverse(t.day, 2);
    PadInverse(t.hour, 2);
    PadInverse(t.minute, 2);
    PadInverse(t.second, 2);
    if t.microsecond != 0 {
      PadInverse(t.microsecond, 6);
    }
  }

  /** Different times never share a text. */
  lemma IsoFormatInjective(t1: Time, t2: Time)
    ensures IsoFormat(t1) == IsoFormat(t2) <==> t1 == t2
  {
    if IsoFormat(t1) == IsoFormat(t2) {
      IsoFormatFields(t1);
      IsoFormatFields(t2);
    }
  }
}
