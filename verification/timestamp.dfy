/** `_format_timestamp`, identical in windows-v2.6-beta/src/transcriber.py
    and src/transcriber.py: elapsed seconds rendered as `MM:SS`. */
module Timestamp {
  import opened Wrappers
  import opened Text
  import opened StringOrder

  /** Python's `int(x)` on a float: truncation toward zero. */
  function TruncToInt(x: real): (n: int)
    ensures x >= 0.0 ==> 0 <= n && n as real <= x < n as real + 1.0
    ensures x < 0.0 ==> n <= 0 && n as real - 1.0 < x <= n as real
  {
    if x >= 0.0 then x.Floor else -((-x).Floor)
  }

  /** The seconds in `q` whole minutes. */
  function MinutesOf(q: int): real {
    60.0 * q as real
  }

  /** Python's `x % 60` on a float, taken on exact reals: the floored
      remainder, which differs from `x` by a whole multiple of 60. */
  function FloatMod60(x: real): (r: real)
    ensures 0.0 <= r < 60.0
    ensures exists q: int :: x - r == MinutesOf(q)
  {
    var q := (x / 60.0).Floor;
    assert q as real <= x / 60.0 < q as real + 1.0;
    x - MinutesOf(q)
  }

  /** The `MM:SS` text of a whole number of seconds: zero-padded minutes
      (three or more digits from 100 minutes on), a colon, zero-padded seconds. */
  function Clock(seconds: nat): string {
    Pad2(seconds / 60) + ":" + Pad2(seconds % 60)
  }

  /** `_format_timestamp(seconds)`: minutes by truncating division, seconds by
      the floored remainder, both through `f"{n:02d}"`. On a non-negative
      time it is the clock of the whole seconds elapsed; on any time it ends
      in a colon and two digits worth less than 60. */
  function FormatTimestamp(t: real): (r: string)
    ensures t >= 0.0 ==> r == Clock(t.Floor)
    ensures |r| >= 5 && r[|r| - 3] == ':'
    ensures AllDigits(r[|r| - 2..]) && DigitsValue(r[|r| - 2..]) < 60
  {
    var secs := TruncToInt(FloatMod60(t));
    var r := Pad2(TruncToInt(t / 60.0)) + ":" + Pad2(secs);
    assert r[|r| - 2..] == Pad2(secs);
    WholeSeconds(t);
    r
  }

  /** For a non-negative time, the float minute and second fields agree with
      the integer ones of its whole seconds. */
  lemma WholeSeconds(t: real)
    ensures t >= 0.0 ==> TruncToInt(t / 60.0) == t.Floor / 60
    ensures t >= 0.0 ==> TruncToInt(FloatMod60(t)) == t.Floor % 60
  {
    if t < 0.0 {
      return;
    }
    var n := t.Floor;
    var q := n / 60;
    var s := n % 60;
    assert n == 60 * q + s;
    assert n as real <= t < n as real + 1.0;
    assert (60 * q) as real <= t < (60 * q + 60) as real;
    assert q as real <= t / 60.0 < (q + 1) as real;
    assert (t / 60.0).Floor == q;
    assert FloatMod60(t) == t - 60.0 * (q as real);
    assert s as real <= FloatMod60(t) < (s + 1) as real;
  }

  /** Reads an `MM:SS` text with two-digit fields and seconds below 60 back
      into seconds. */
  function ParseClock(text: string): Option<nat> {
    if |text| == 5 && AllDigits(text[..2]) && text[2] == ':' && AllDigits(text[3..])
       && DigitsValue(text[3..]) < 60
    then Some(60 * DigitsValue(text[..2]) + DigitsValue(text[3..]))
    else None
  }

  /** Below 100 minutes the clock text is five characters and reads back as
      the seconds it was made from. */
  lemma ClockRoundTrip(seconds: nat)
    requires seconds < 6000
    ensures |Clock(seconds)| == 5
    ensures ParseClock(Clock(seconds)) == Some(seconds)
  {
    var c := Clock(seconds);
    assert c[..2] == Pad2(seconds / 60);
    assert c[3..] == Pad2(seconds % 60);
  }

  /** Two decimal digits are reproduced by `f"{n:02d}"` of their value. */
  lemma Pad2OfTwoDigits(d: string)
    requires |d| == 2 && AllDigits(d)
    ensures Pad2(DigitsValue(d)) == d
  {
    var hi := d[0] as int - '0' as int;
    var lo := d[1] as int - '0' as int;
    TwoDigitValue(d);
    DigitChars();
    if hi == 0 {
      LeadingZeroPad(d, lo);
    } else {
      LeadingDigitPad(d, hi, lo);
    }
  }

  lemma LeadingZeroPad(d: string, lo: int)
    requires |d| == 2 && d[0] == '0' && 0 <= lo < 10 && d[1] == DigitChar(lo)
    ensures Pad2(lo) == d
  {
    DigitChars();
    assert d == "0" + [DigitChar(lo)];
  }

  lemma LeadingDigitPad(d: string, hi: int, lo: int)
    requires |d| == 2 && 0 < hi < 10 && 0 <= lo < 10
    requires d[0] == DigitChar(hi) && d[1] == DigitChar(lo)
    ensures Pad2(10 * hi + lo) == d
  {
    DigitChars();
    assert Digits(10 * hi + lo) == Digits(hi) + [DigitChar(lo)];
    assert d == [DigitChar(hi)] + [DigitChar(lo)];
  }

  lemma TwoDigitValue(d: string)
    requires |d| == 2 && AllDigits(d)
    ensures DigitsValue(d) == 10 * (d[0] as int - '0' as int) + (d[1] as int - '0' as int)
  {
    assert d[..1][..0] == [];
    assert d[..|d| - 1] == d[..1];
    assert DigitsValue(d[..1]) == d[0] as int - '0' as int;
  }

  lemma DigitChars()
    ensures forall c | IsDigit(c) :: DigitChar(c as int - '0' as int) == c
  {
  }

  /** Every well-formed `MM:SS` text is the clock text of the seconds it reads as. */
  lemma ParseClockSound(text: string, seconds: nat)
    requires ParseClock(text) == Some(seconds)
    ensures seconds < 6000 && Clock(seconds) == text
  {
    var mm := DigitsValue(text[..2]);
    var ss := DigitsValue(text[3..]);
    TwoDigitValue(text[..2]);
    assert seconds / 60 == mm && seconds % 60 == ss;
    Pad2OfTwoDigits(text[..2]);
    Pad2OfTwoDigits(text[3..]);
    assert text == text[..2] + ":" + text[3..];
  }

  /** Below 100 minutes, a later time never sorts before an earlier one as text. */
  lemma ClockMonotonic(a: nat, b: nat)
    requires a <= b < 6000
    ensures LexLe(Clock(a), Clock(b))
  {
    if a / 60 < b / 60 {
      LaterMinute(a, b);
    } else {
      SameMinute(a, b);
    }
  }

  /** Below 100 minutes a clock is two two-digit fields around a colon. */
  lemma ClockFields(seconds: nat)
    requires seconds < 6000
    ensures var c := Clock(seconds);
      && |c| == 5
      && c == c[..2] + (":" + c[3..])
      && c == (c[..2] + ":") + c[3..]
      && AllDigits(c[..2]) && DigitsValue(c[..2]) == seconds / 60
      && AllDigits(c[3..]) && DigitsValue(c[3..]) == seconds % 60
  {
    var c := Clock(seconds);
    assert c[..2] == Pad2(seconds / 60);
    assert c[3..] == Pad2(seconds % 60);
  }

  /** A later minute field decides the order on its own. */
  lemma LaterMinute(a: nat, b: nat)
    requires a <= b < 6000 && a / 60 < b / 60
    ensures LexLe(Clock(a), Clock(b))
  {
    ClockFields(a);
    ClockFields(b);
    var x := Clock(a);
    var y := Clock(b);
    TwoDigitOrder(x[..2], y[..2]);
    PrefixDecides(x[..2], y[..2], ":" + x[3..], ":" + y[3..]);
  }

  /** Within one minute the seconds field decides the order. */
  lemma SameMinute(a: nat, b: nat)
    requires a <= b < 6000 && a / 60 == b / 60
    ensures LexLe(Clock(a), Clock(b))
  {
    ClockFields(a);
    ClockFields(b);
    var x := Clock(a);
    var y := Clock(b);
    TwoDigitOrder(x[3..], y[3..]);
    assert x[..2] == y[..2] by {
      Pad2OfTwoDigits(x[..2]);
      Pad2OfTwoDigits(y[..2]);
    }
    SamePrefix(x[..2] + ":", x[3..], y[3..]);
  }

  /** On two-digit numerals, text order follows numeric order. */
  lemma TwoDigitOrder(d: string, e: string)
    requires |d| == 2 && |e| == 2 && AllDigits(d) && AllDigits(e)
    ensures DigitsValue(d) < DigitsValue(e) ==> LexLe(d, e) && d != e
    ensures DigitsValue(d) <= DigitsValue(e) ==> LexLe(d, e)
  {
    TwoDigitValue(d);
    TwoDigitValue(e);
    assert d[1..][1..] == [] && e[1..][1..] == [];
  }

  lemma {:induction false} SamePrefix(p: string, x: string, y: string)
    requires LexLe(x, y)
    ensures LexLe(p + x, p + y)
    decreases |p|
  {
    if p == [] {
      assert p + x == x && p + y == y;
    } else {
      assert (p + x)[0] == p[0] == (p + y)[0];
      assert (p + x)[1..] == p[1..] + x;
      assert (p + y)[1..] == p[1..] + y;
      SamePrefix(p[1..], x, y);
    }
  }

  lemma {:induction false} PrefixDecides(p: string, q: string, x: string, y: string)
    requires |p| == |q| && LexLe(p, q) && p != q
    ensures LexLe(p + x, q + y)
    decreases |p|
  {
    assert p != [];
    assert p == [p[0]] + p[1..] && q == [q[0]] + q[1..];
    assert (p + x)[0] == p[0] && (q + y)[0] == q[0];
    if p[0] == q[0] {
      assert (p + x)[1..] == p[1..] + x;
      assert (q + y)[1..] == q[1..] + y;
      PrefixDecides(p[1..], q[1..], x, y);
    }
  }

  lemma Examples()
    ensures FormatTimestamp(65.0) == "01:05"
    ensures FormatTimestamp(0.0) == "00:00"
  {
    assert Clock(65) == "01:05";
    assert Clock(0) == "00:00";
  }
}
