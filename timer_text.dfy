/**
 * `get_timer_text` (dd.py): elapsed seconds rendered as `mm:ss` with
 * Python's floor division, floor remainder, `int()` truncation and the
 * `02d` format.
 */
module TimerText {
  import opened Wrappers

  /** Python's `x // d` on floats, as the integer it denotes. */
  function FloorDiv(x: real, d: real): (q: int)
    requires d > 0.0
    ensures q as real * d <= x < (q + 1) as real * d
  {
    var q := (x / d).Floor;
    assert q as real <= x / d < q as real + 1.0;
    MulMonotone(q as real, x / d, d);
    MulMonotone(x / d, q as real + 1.0, d);
    assert (x / d) * d == x;
    var up := (q + 1) as real;
    assert up == q as real + 1.0;
    assert x < up * d;
    q
  }

  lemma MulMonotone(a: real, b: real, d: real)
    requires d > 0.0
    ensures a <= b ==> a * d <= b * d
    ensures a < b ==> a * d < b * d
  {
    assert b * d - a * d == (b - a) * d;
  }

  /** Python's `x % d` on floats: the remainder has the sign of the divisor. */
  function FloorMod(x: real, d: real): (m: real)
    requires d > 0.0
    ensures 0.0 <= m < d
    ensures x == FloorDiv(x, d) as real * d + m
  {
    x - FloorDiv(x, d) as real * d
  }

  /** Python's `int()` on a float: truncation toward zero. */
  function Trunc(x: real): (n: int)
    ensures 0.0 <= x ==> n as real <= x < n as real + 1.0
    ensures x <= 0.0 ==> x <= n as real < x + 1.0
  {
    if x >= 0.0 then x.Floor else -((-x).Floor)
  }

  /**
   * `mins = int(elapsed // 60)` and `secs = int(elapsed % 60)`: together
   * they split the whole seconds of `elapsed`, seconds below sixty. This
   * holds for a negative elapsed time too, with negative minutes.
   */
  function MinutesSeconds(elapsed: real): (ms: (int, int))
    ensures 0 <= ms.1 < 60
    ensures ms.0 * 60 + ms.1 == elapsed.Floor
  {
    var mins := Trunc(FloorDiv(elapsed, 60.0) as real);
    var secs := Trunc(FloorMod(elapsed, 60.0));
    assert mins == FloorDiv(elapsed, 60.0);
    assert (mins * 60 + secs) as real <= elapsed < (mins * 60 + secs) as real + 1.0;
    (mins, secs)
  }

  function DigitChar(d: nat): char
    requires d < 10
  {
    (48 + d) as char
  }

  predicate IsDigit(ch: char)
  {
    '0' <= ch <= '9'
  }

  predicate AllDigits(s: string)
  {
    forall i :: 0 <= i < |s| ==> IsDigit(s[i])
  }

  /** Decimal digits of `n`, most significant first, no leading zeros. */
  function Digits(n: nat): (s: string)
    ensures |s| >= 1 && AllDigits(s)
    ensures n < 10 <==> |s| == 1
    decreases n
  {
    (if n < 10 then [] else Digits(n / 10)) + [DigitChar(n % 10)]
  }

  /** The number a string of decimal digits denotes. */
  function DigitsValue(s: string): nat
    requires AllDigits(s)
    decreases |s|
  {
    if s == [] then 0
    else DigitsValue(s[..|s| - 1]) * 10 + (s[|s| - 1] as int - 48)
  }

  lemma {:induction false} DigitsRoundTrip(n: nat)
    ensures DigitsValue(Digits(n)) == n
    decreases n
  {
    var s := Digits(n);
    var front := if n < 10 then [] else Digits(n / 10);
    assert s == front + [DigitChar(n % 10)];
    assert s[..|s| - 1] == front;
    if n >= 10 {
      DigitsRoundTrip(n / 10);
    }
  }

  /** The `02d` format: zero-padded to two characters, a sign taking one of them. */
  function Pad2(n: int): (p: string)
    ensures |p| >= 2
    ensures p[0] == '-' <==> n < 0
    ensures n < 0 ==> p[1..] == Digits(-n)
    ensures 0 <= n ==> AllDigits(p)
    ensures 0 <= n < 100 <==> |p| == 2 && AllDigits(p)
  {
    if n < 0 then "-" + Digits(-n)
    else if n < 10 then "0" + Digits(n)
    else Digits(n)
  }

  /** `f"{mins:02d}:{secs:02d}"` for the elapsed time. */
  function FormatTimer(elapsed: real): (t: string)
    ensures |t| >= 5 && t[|t| - 3] == ':'
    ensures t[..|t| - 3] == Pad2(MinutesSeconds(elapsed).0)
    ensures |t[|t| - 2..]| == 2 && AllDigits(t[|t| - 2..])
  {
    var (mins, secs) := MinutesSeconds(elapsed);
    var t := Pad2(mins) + ":" + Pad2(secs);
    assert t[..|t| - 3] == Pad2(mins);
    assert t[|t| - 2..] == Pad2(secs);
    t
  }

  /** Reads a `mm:ss` text back into minutes and seconds. */
  function ParseTimer(t: string): Option<(int, int)>
  {
    if |t| < 4 || t[|t| - 3] != ':' || !AllDigits(t[|t| - 2..]) then None
    else
      var m := t[..|t| - 3];
      var secs := DigitsValue(t[|t| - 2..]);
      if m[0] == '-' then
        if |m| >= 2 && AllDigits(m[1..]) then Some((-(DigitsValue(m[1..]) as int), secs)) else None
      else if AllDigits(m) then Some((DigitsValue(m), secs))
      else None
  }

  /** A zero-padded single digit reads back as that digit. */
  lemma PaddedDigitValue(n: nat)
    requires n < 10
    ensures Pad2(n) == ['0', DigitChar(n)]
    ensures AllDigits(Pad2(n)) && DigitsValue(Pad2(n)) == n
  {
    assert Digits(n) == [DigitChar(n)];
    var p := ['0', DigitChar(n)];
    assert p[..1] == ['0'];
    assert DigitsValue(['0']) == 0 by {
      assert ['0'][..0] == [];
    }
  }

  /** The seconds field is always two digits. */
  lemma SecondsTwoDigits(secs: int)
    requires 0 <= secs < 60
    ensures |Pad2(secs)| == 2 && AllDigits(Pad2(secs)) && DigitsValue(Pad2(secs)) == secs
  {
    if secs < 10 {
      PaddedDigitValue(secs);
    } else {
      DigitsRoundTrip(secs);
      assert Digits(secs) == Digits(secs / 10) + [DigitChar(secs % 10)];
      assert |Digits(secs / 10)| == 1;
    }
  }

  /** The minutes field reads back as the minutes, whatever their sign and size. */
  lemma MinutesReadBack(mins: int)
    ensures |Pad2(mins)| >= 1
    ensures Pad2(mins)[0] == '-' <==> mins < 0
    ensures mins < 0 ==> |Pad2(mins)| >= 2 && AllDigits(Pad2(mins)[1..]) && -(DigitsValue(Pad2(mins)[1..]) as int) == mins
    ensures mins >= 0 ==> AllDigits(Pad2(mins)) && DigitsValue(Pad2(mins)) == mins
  {
    if mins < 0 {
      DigitsRoundTrip(-mins);
    } else if mins < 10 {
      PaddedDigitValue(mins);
    } else {
      DigitsRoundTrip(mins);
      assert Pad2(mins) == Digits(mins);
    }
  }

  /** The rendered text determines the minutes and seconds it was made from. */
  lemma TimerRoundTrip(elapsed: real)
    ensures ParseTimer(FormatTimer(elapsed)) == Some(MinutesSeconds(elapsed))
  {
    var (mins, secs) := MinutesSeconds(elapsed);
    var m, s := Pad2(mins), Pad2(secs);
    var t := FormatTimer(elapsed);
    assert t == m + ":" + s;
    SecondsTwoDigits(secs);
    MinutesReadBack(mins);
    assert t[|t| - 2..] == s;
    assert t[..|t| - 3] == m;
    assert t[|t| - 3] == ':';
  }
}
