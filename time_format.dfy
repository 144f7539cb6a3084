/**
 * The time formatter of the clip editor: a number of seconds shown as
 * "minutes:seconds" with the seconds padded to two digits, as the clip labels
 * display them. ParseClock is an independent reader of that format; the round
 * trip between the two is what pins the formatter down.
 */
module TimeFormat {
  import opened Wrappers

  /** Python's int() of a float: truncation toward zero. */
  function Trunc(x: real): (t: int)
    ensures 0.0 <= x ==> 0 <= t && t as real <= x < t as real + 1.0
    ensures x < 0.0 ==> t <= 0 && x <= t as real && t as real < x + 1.0
  {
    if x >= 0.0 then x.Floor else -((-x).Floor)
  }

  /** Truncation is monotone, so it keeps the order of two times. */
  lemma TruncMonotone(a: real, b: real)
    requires a <= b
    ensures Trunc(a) <= Trunc(b)
  {
  }

  predicate IsDigit(c: char) {
    '0' <= c <= '9'
  }

  predicate AllDigits(s: string) {
    forall i :: 0 <= i < |s| ==> IsDigit(s[i])
  }

  function DigitChar(d: int): (c: char)
    requires 0 <= d <= 9
    ensures IsDigit(c)
  {
    ('0' as int + d) as char
  }

  function DigitValue(c: char): (d: int)
    requires IsDigit(c)
    ensures 0 <= d <= 9
  {
    c as int - '0' as int
  }

  /** Decimal digits of a natural number, most significant first, without leading zeros. */
  function NatToDigits(n: nat): (s: string)
    ensures |s| >= 1 && AllDigits(s)
    ensures n > 0 || |s| > 1 ==> s[0] != '0'
    decreases n
  {
    if n < 10 then [DigitChar(n)] else NatToDigits(n / 10) + [DigitChar(n % 10)]
  }

  /** Python's str() of an int: a minus sign for negative values, then the digits. */
  function IntToDecimal(i: int): (s: string)
    ensures |s| >= 1
    ensures i < 0 <==> s[0] == '-'
  {
    if i < 0 then "-" + NatToDigits(-i) else NatToDigits(i)
  }

  /** The format specifier {:02d} applied to a value below 100. */
  function TwoDigits(n: int): (s: string)
    requires 0 <= n < 100
    ensures |s| == 2 && AllDigits(s)
  {
    [DigitChar(n / 10), DigitChar(n % 10)]
  }

  /**
   * format_time: the whole seconds of the value (truncated), split into
   * minutes and seconds with Python's floor division and modulo by 60; for a
   * positive divisor these agree with Dafny's Euclidean / and %.
   */
  function FormatTime(seconds: real): (r: string)
    ensures |r| >= 4 && r[|r| - 3] == ':' && AllDigits(r[|r| - 2..])
  {
    var total := Trunc(seconds);
    IntToDecimal(total / 60) + ":" + TwoDigits(total % 60)
  }

  /** The value of a run of decimal digits; the empty run is worth 0. */
  function DigitsValue(s: string): nat
    requires AllDigits(s)
  {
    if s == [] then 0 else DigitsValue(s[..|s| - 1]) * 10 + DigitValue(s[|s| - 1])
  }

  /** Digits written the way str() writes them: at least one, and no leading zero. */
  predicate Canonical(s: string) {
    |s| > 0 && AllDigits(s) && (|s| > 1 ==> s[0] != '0')
  }

  /**
   * Reads a decimal integer in the form str() gives it: canonical digits,
   * optionally after a minus sign that is never followed by a zero.
   */
  function ParseInt(s: string): Option<int> {
    if |s| > 1 && s[0] == '-' && Canonical(s[1..]) && s[1] != '0' then Some(-(DigitsValue(s[1..]) as int))
    else if Canonical(s) then Some(DigitsValue(s))
    else None
  }

  /**
   * Reads "m:ss" back into a number of seconds: a minutes field, a colon and
   * exactly two digits that make a value below 60.
   */
  function ParseClock(s: string): Option<int> {
    if |s| < 4 || s[|s| - 3] != ':' then None
    else
      var minutes := ParseInt(s[..|s| - 3]);
      var secs := s[|s| - 2..];
      if minutes.None? || !AllDigits(secs) || DigitsValue(secs) >= 60 then None
      else Some(60 * minutes.value + DigitsValue(secs))
  }

  lemma {:induction false} DigitsRoundTrip(n: nat)
    ensures DigitsValue(NatToDigits(n)) == n
    decreases n
  {
    var s := NatToDigits(n);
    if n < 10 {
      assert s[..0] == [];
    } else {
      DigitsRoundTrip(n / 10);
      assert s[..|s| - 1] == NatToDigits(n / 10);
    }
  }

  lemma IntToDecimalRoundTrip(i: int)
    ensures ParseInt(IntToDecimal(i)) == Some(i)
  {
    var s := IntToDecimal(i);
    if i < 0 {
      assert s[1..] == NatToDigits(-i);
      DigitsRoundTrip(-i);
    } else {
      DigitsRoundTrip(i);
    }
  }

  /**
   * The formatter loses nothing but the fraction: reading its output back
   * gives the truncated seconds, so the minutes m and seconds ss it shows
   * satisfy 60 * m + ss == int(seconds) and ss < 60.
   */
  lemma FormatTimeRoundTrip(seconds: real)
    ensures ParseClock(FormatTime(seconds)) == Some(Trunc(seconds))
  {
    var total := Trunc(seconds);
    var m := IntToDecimal(total / 60);
    var ss := TwoDigits(total % 60);
    var r := FormatTime(seconds);
    assert r == m + ":" + ss;
    assert r[..|r| - 3] == m;
    assert r[|r| - 2..] == ss;
    IntToDecimalRoundTrip(total / 60);
    assert ss[..1] == [DigitChar(total % 60 / 10)];
    assert ss[..1][..0] == [];
    assert DigitsValue(ss[..1]) == total % 60 / 10;
    assert DigitsValue(ss) == total % 60;
    assert ParseInt(r[..|r| - 3]) == Some(total / 60);
  }

  /** A canonical run of digits starting with a non-zero digit is worth at least 1, and at least 10 if longer than one digit. */
  lemma {:induction false} LeadingDigitBound(s: string)
    requires AllDigits(s) && |s| > 0 && s[0] != '0'
    ensures DigitsValue(s) >= 1
    ensures |s| > 1 ==> DigitsValue(s) >= 10
    decreases |s|
  {
    var p := s[..|s| - 1];
    if |s| == 1 {
      assert p == [];
    } else {
      assert p[0] == s[0];
      LeadingDigitBound(p);
    }
  }

  /** Two canonical digit runs with the same value are the same text. */
  lemma {:induction false} CanonicalDigitsUnique(s: string, t: string)
    requires Canonical(s) && Canonical(t) && DigitsValue(s) == DigitsValue(t)
    ensures s == t
    decreases |s|
  {
    var v := DigitsValue(s);
    if |s| == 1 || |t| == 1 {
      if |s| > 1 { LeadingDigitBound(s); }
      if |t| > 1 { LeadingDigitBound(t); }
      assert s[..0] == [] && t[..0] == [];
      assert |s| == 1 && |t| == 1;
      assert DigitValue(s[0]) == DigitValue(t[0]);
    } else {
      var ps, pt := s[..|s| - 1], t[..|t| - 1];
      var ds, dt := DigitValue(s[|s| - 1]), DigitValue(t[|t| - 1]);
      assert DigitsValue(ps) * 10 + ds == DigitsValue(pt) * 10 + dt;
      assert ds == dt && DigitsValue(ps) == DigitsValue(pt);
      assert ps[0] == s[0] && pt[0] == t[0];
      CanonicalDigitsUnique(ps, pt);
      assert s == ps + [s[|s| - 1]] && t == pt + [t[|t| - 1]];
    }
  }

  /** ParseInt reads each integer from exactly one text. */
  lemma ParseIntUnique(s: string, t: string)
    requires ParseInt(s).Some? && ParseInt(s) == ParseInt(t)
    ensures s == t
  {
    var negS := |s| > 1 && s[0] == '-' && Canonical(s[1..]) && s[1] != '0';
    var negT := |t| > 1 && t[0] == '-' && Canonical(t[1..]) && t[1] != '0';
    if negS { LeadingDigitBound(s[1..]); }
    if negT { LeadingDigitBound(t[1..]); }
    if negS && negT {
      CanonicalDigitsUnique(s[1..], t[1..]);
      assert s == [s[0]] + s[1..] && t == [t[0]] + t[1..];
    } else if !negS && !negT {
      CanonicalDigitsUnique(s, t);
    }
  }

  /** ParseClock reads each number of seconds from exactly one text. */
  lemma ParseClockUnique(s: string, t: string)
    requires ParseClock(s).Some? && ParseClock(s) == ParseClock(t)
    ensures s == t
  {
    var ms, mt := ParseInt(s[..|s| - 3]).value, ParseInt(t[..|t| - 3]).value;
    var ss, st := DigitsValue(s[|s| - 2..]), DigitsValue(t[|t| - 2..]);
    assert 60 * ms + ss == 60 * mt + st;
    assert ms == mt;
    ParseIntUnique(s[..|s| - 3], t[..|t| - 3]);
    var a, b := s[|s| - 2..], t[|t| - 2..];
    assert a[..1][..0] == [] && b[..1][..0] == [];
    assert DigitsValue(a) == DigitValue(a[0]) * 10 + DigitValue(a[1]);
    assert DigitsValue(b) == DigitValue(b[0]) * 10 + DigitValue(b[1]);
    assert a[0] == b[0] && a[1] == b[1];
    assert s == s[..|s| - 3] + [':'] + a && t == t[..|t| - 3] + [':'] + b;
  }

  /**
   * format_time is pinned down by the reader: the only text ParseClock reads
   * as int(seconds) is the one format_time produces.
   */
  lemma FormatTimeOnlyReading(seconds: real, r: string)
    requires ParseClock(r) == Some(Trunc(seconds))
    ensures r == FormatTime(seconds)
  {
    FormatTimeRoundTrip(seconds);
    ParseClockUnique(r, FormatTime(seconds));
  }

  /**
   * Four displays: the midpoint and the end of a 300-second video, the start
   * of any video, and a fraction of a second truncated away before the minute.
   */
  lemma FormatTimeExamples()
    ensures FormatTime(150.0) == "2:30"
    ensures FormatTime(300.0) == "5:00"
    ensures FormatTime(0.0) == "0:00"
    ensures FormatTime(59.99) == "0:59"
  {
  }
}
