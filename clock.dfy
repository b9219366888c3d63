/**
 * Wall-clock text: the strict "HH:MM" validator used by onboarding, the
 * "HH:MM" and "HH:MM:SS" renderings of a clock reading, and Python's
 * (and SQLite's) lexicographic comparison of such strings.
 */
module Clock {
  import opened Common

  predicate IsDigit(c: char) {
    '0' <= c <= '9'
  }

  /** `str.isdigit()` for ASCII text: non-empty and made of digits only. */
  predicate AllDigits(s: string) {
    |s| > 0 && forall i :: 0 <= i < |s| ==> IsDigit(s[i])
  }

  function DigitValue(c: char): (v: nat)
    requires IsDigit(c)
    ensures v <= 9
  {
    c as int - '0' as int
  }

  function DigitChar(d: nat): (c: char)
    requires d <= 9
    ensures IsDigit(c) && DigitValue(c) == d
  {
    ('0' as int + d) as char
  }

  /** `int(s)` for a string of decimal digits. */
  function ParseDecimal(s: string): nat
    requires forall i :: 0 <= i < |s| ==> IsDigit(s[i])
  {
    if |s| == 0 then 0 else 10 * ParseDecimal(s[..|s| - 1]) + DigitValue(s[|s| - 1])
  }

  /** The position of the first `c` in `s`. */
  function FirstIndex(s: string, c: char): (i: nat)
    requires c in s
    ensures i < |s| && s[i] == c
    ensures forall k :: 0 <= k < i ==> s[k] != c
  {
    if s[0] == c then 0 else
      assert c in s[1..] by {
        var k :| 0 <= k < |s| && s[k] == c;
        assert s[1..][k - 1] == c;
      }
      1 + FirstIndex(s[1..], c)
  }

  /** `s.split(sep, 1)` for an `s` that contains `sep`: the text before the first `sep` and the text after it. */
  function SplitOnce(s: string, sep: char): (parts: (string, string))
    requires sep in s
    ensures s == parts.0 + [sep] + parts.1
    ensures sep !in parts.0
  {
    var i := FirstIndex(s, sep);
    assert s == s[..i] + [sep] + s[i + 1..];
    (s[..i], s[i + 1..])
  }

  /** `is_valid_time`: length 5, a colon at index 2, both halves digits, hour at most 23, minute at most 59. */
  predicate IsValidTime(text: string) {
    if |text| != 5 || text[2] != ':' then false
    else
      var parts := SplitOnce(text, ':');
      AllDigits(parts.0) && AllDigits(parts.1) && ParseDecimal(parts.0) <= 23 && ParseDecimal(parts.1) <= 59
  }

  /** The shape of a well-formed "HH:MM": digits everywhere except a colon in the middle. */
  predicate ClockShape(t: string) {
    |t| == 5 && t[2] == ':' && IsDigit(t[0]) && IsDigit(t[1]) && IsDigit(t[3]) && IsDigit(t[4])
  }

  function HourOf(t: string): nat
    requires ClockShape(t)
  {
    10 * DigitValue(t[0]) + DigitValue(t[1])
  }

  function MinuteOf(t: string): nat
    requires ClockShape(t)
  {
    10 * DigitValue(t[3]) + DigitValue(t[4])
  }

  lemma TwoDigitValue(s: string)
    requires |s| == 2 && IsDigit(s[0]) && IsDigit(s[1])
    ensures ParseDecimal(s) == 10 * DigitValue(s[0]) + DigitValue(s[1])
  {
    var first := s[..|s| - 1];
    assert first == [s[0]] && first[..|first| - 1] == [];
    assert ParseDecimal(first) == DigitValue(s[0]);
  }

  /** `is_valid_time` accepts exactly the five-character "DD:DD" strings with hour 0..23 and minute 0..59. */
  lemma ValidTimeExactly(text: string)
    ensures IsValidTime(text) <==> ClockShape(text) && HourOf(text) <= 23 && MinuteOf(text) <= 59
  {
    if |text| == 5 && text[2] == ':' {
      var parts := SplitOnce(text, ':');
      var i := FirstIndex(text, ':');
      assert parts == (text[..i], text[i + 1..]);
      if i == 2 {
        var hh, mm := text[..2], text[3..];
        assert hh == [text[0], text[1]] && mm == [text[3], text[4]];
        if IsDigit(text[0]) && IsDigit(text[1]) {
          TwoDigitValue(hh);
        }
        if IsDigit(text[3]) && IsDigit(text[4]) {
          TwoDigitValue(mm);
        }
      } else {
        assert text[i] == ':' && !IsDigit(text[i]);
        assert parts.1[1 - i] == ':';
        assert !AllDigits(parts.1);
      }
    }
  }

  /** The minute of the day that a well-formed "HH:MM" names. */
  function MinutesOf(t: string): (m: MinuteOfDay)
    requires IsValidTime(t)
  {
    ValidTimeExactly(t);
    HourOf(t) * 60 + MinuteOf(t)
  }

  function TwoDigits(n: nat): (s: string)
    requires n < 100
  {
    [DigitChar(n / 10), DigitChar(n % 10)]
  }

  /** `strftime("%H:%M")` of a minute of the day. */
  function ClockText(m: MinuteOfDay): (t: string)
  {
    TwoDigits(m / 60) + ":" + TwoDigits(m % 60)
  }

  /** SQLite's `time('now')`: "HH:MM:SS" of a second of the day. */
  function SqlTime(s: SecondOfDay): (t: string)
  {
    ClockText(s / 60) + ":" + TwoDigits(s % 60)
  }

  /** Rendering a minute of the day gives valid "HH:MM" text that names that same minute. */
  lemma {:induction false} ClockTextRoundTrip(m: MinuteOfDay)
    ensures IsValidTime(ClockText(m)) && MinutesOf(ClockText(m)) == m
  {
    var t := ClockText(m);
    assert ClockShape(t) && HourOf(t) == m / 60 && MinuteOf(t) == m % 60;
    ValidTimeExactly(t);
  }

  /** Two digits read as a number and written back give the same two characters. */
  lemma TwoDigitsRoundTrip(a: char, b: char)
    requires IsDigit(a) && IsDigit(b)
    ensures TwoDigits(10 * DigitValue(a) + DigitValue(b)) == [a, b]
  {
    var n := 10 * DigitValue(a) + DigitValue(b);
    assert n / 10 == DigitValue(a) && n % 10 == DigitValue(b);
    assert DigitChar(DigitValue(a)) == a && DigitChar(DigitValue(b)) == b;
  }

  /** Every valid "HH:MM" is the rendering of the minute it names, so `MinutesOf` loses nothing. */
  lemma {:induction false} ValidTimeRoundTrip(t: string)
    requires IsValidTime(t)
    ensures ClockText(MinutesOf(t)) == t
  {
    ValidTimeExactly(t);
    var h, mi := HourOf(t), MinuteOf(t);
    var m := MinutesOf(t);
    assert m == h * 60 + mi;
    assert m / 60 == h && m % 60 == mi;
    TwoDigitsRoundTrip(t[0], t[1]);
    TwoDigitsRoundTrip(t[3], t[4]);
    assert ClockText(m) == [t[0], t[1]] + ":" + [t[3], t[4]];
  }

  /** Python's `a <= b` on `str`: lexicographic by code point, a proper prefix sorting first. */
  predicate LexLe(a: string, b: string) {
    if a == [] then true
    else if b == [] then false
    else if a[0] != b[0] then a[0] < b[0]
    else LexLe(a[1..], b[1..])
  }

  /** Lexicographic order of two "HH:MM" strings, spelled out character by character. */
  lemma LexLeOnClockShapes(a: string, b: string)
    requires ClockShape(a) && ClockShape(b)
    ensures LexLe(a, b) <==>
      HourOf(a) < HourOf(b) || (HourOf(a) == HourOf(b) && MinuteOf(a) <= MinuteOf(b))
  {
    var a1, b1 := a[1..], b[1..];
    var a2, b2 := a1[1..], b1[1..];
    var a3, b3 := a2[1..], b2[1..];
    var a4, b4 := a3[1..], b3[1..];
    var a5, b5 := a4[1..], b4[1..];
    assert a5 == [] && b5 == [];
    assert a1[0] == a[1] && a2[0] == a[2] && a3[0] == a[3] && a4[0] == a[4];
    assert b1[0] == b[1] && b2[0] == b[2] && b3[0] == b[3] && b4[0] == b[4];
    assert LexLe(a4, b4) <==> a[4] <= b[4];
    assert LexLe(a3, b3) <==> a[3] < b[3] || (a[3] == b[3] && a[4] <= b[4]);
    assert LexLe(a2, b2) == LexLe(a3, b3);
  }

  /**
   * For two strings accepted by `is_valid_time`, comparing the text agrees with
   * comparing the minutes it names; this is what makes `morning_time <= current_time_str` sound.
   */
  lemma LexOrderIsTimeOrder(a: string, b: string)
    requires IsValidTime(a) && IsValidTime(b)
    ensures LexLe(a, b) <==> MinutesOf(a) <= MinutesOf(b)
  {
    ValidTimeExactly(a);
    ValidTimeExactly(b);
    LexLeOnClockShapes(a, b);
  }

  /** A string compared with a same-length string plus a non-empty tail: the tail breaks a tie against it. */
  lemma {:induction false} LexLeLongerLeft(x: string, tail: string, m: string)
    requires |x| == |m| && |tail| > 0
    ensures LexLe(x + tail, m) <==> LexLe(x, m) && x != m
  {
    if x == [] {
      assert x + tail == tail;
    } else {
      assert (x + tail)[0] == x[0];
      assert (x + tail)[1..] == x[1..] + tail;
      LexLeLongerLeft(x[1..], tail, m[1..]);
      if x[0] == m[0] {
        assert x == m <==> x[1..] == m[1..];
      }
    }
  }

  /**
   * SQLite's `time('now') <= morning_time` compares "HH:MM:SS" with "HH:MM", so it holds
   * exactly when the current minute is strictly before the morning minute.
   */
  lemma SqlTimeBeforeMorning(s: SecondOfDay, morning: string)
    requires IsValidTime(morning)
    ensures LexLe(SqlTime(s), morning) <==> s / 60 < MinutesOf(morning)
  {
    var minute := s / 60;
    var x, tail := ClockText(minute), ":" + TwoDigits(s % 60);
    ClockTextRoundTrip(minute);
    assert |x| == 5 && |morning| == 5;
    assert SqlTime(s) == x + tail;
    LexLeLongerLeft(x, tail, morning);
    assert x == morning <==> minute == MinutesOf(morning) by {
      ValidTimeRoundTrip(morning);
    }
    LexOrderIsTimeOrder(x, morning);
  }
}
