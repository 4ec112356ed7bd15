/** `dfxp_parse_timestamp`: the recogniser for TTML time expressions
    (W3C TTML1, section 10.3.1, <timeExpression>). Two forms are accepted:
    clock-time `H+:MM:SS[.fraction | :frames]` and offset-time
    `N[.fraction](h|m|ms|s|f)`. The result is a count of milliseconds, or -1
    when the text is not a time expression. The attribute value is a C
    string: reading past its end reads the terminating NUL (`At`). */
module Timestamp {
  import opened XmlTree

  /** DFXP_FRAME_RATE: frames are always counted at 30 per second. */
  const FrameRate: nat := 30

  predicate IsDigit(c: char) {
    '0' <= c <= '9'
  }

  function DigitValue(c: char): (d: nat)
    requires IsDigit(c)
    ensures d <= 9
  {
    c as int - '0' as int
  }

  predicate AllDigits(s: string) {
    forall i :: 0 <= i < |s| ==> IsDigit(s[i])
  }

  /** The decimal value of a run of digits, most significant first. */
  function Val(d: string): nat
    requires AllDigits(d)
  {
    if d == [] then 0 else Val(d[..|d| - 1]) * 10 + DigitValue(d[|d| - 1])
  }

  function Pow10(k: nat): (r: nat)
    ensures r >= 1
  {
    if k == 0 then 1 else 10 * Pow10(k - 1)
  }

  /** The end of the digit run that starts at `i`: the first position at or
      after `i` that does not hold a digit. */
  function DigitEnd(s: string, i: nat): (j: nat)
    ensures i <= j
    ensures j > i ==> j <= |s|
    ensures forall k :: i <= k < j ==> k < |s| && IsDigit(s[k])
    ensures !IsDigit(At(s, j))
    decreases |s| - i
  {
    if IsDigit(At(s, i)) then DigitEnd(s, i + 1) else i
  }

  // ---------------------------------------------------------------------
  // The value of a time expression, stated over positions in the string.

  /** The milliseconds denoted by `s`, or -1. */
  function TimestampValue(s: string): (r: int)
    ensures r >= -1
    ensures !IsDigit(At(s, 0)) ==> r == -1
  {
    if !IsDigit(At(s, 0)) then -1
    else
      var j := DigitEnd(s, 0);
      if At(s, j) == ':' then ClockTime(s, j + 1, Val(s[..j]))
      else OffsetTime(s, j, Val(s[..j]))
  }

  /** The two digits at `p` and `p + 1` as a number. */
  function TwoDigits(s: string, p: nat): nat
    requires IsDigit(At(s, p)) && IsDigit(At(s, p + 1))
  {
    DigitValue(At(s, p)) * 10 + DigitValue(At(s, p + 1))
  }

  predicate ClockFieldsAt(s: string, p: nat) {
    IsDigit(At(s, p)) && IsDigit(At(s, p + 1)) && At(s, p + 2) == ':' &&
    IsDigit(At(s, p + 3)) && IsDigit(At(s, p + 4))
  }

  /** Clock-time after `H:`; `p` is the position of the minutes. */
  function ClockTime(s: string, p: nat, hours: nat): (r: int)
    ensures r >= -1
  {
    if !ClockFieldsAt(s, p) then -1
    else
      ClockSuffix(s, p + 5, hours * 3600 + TwoDigits(s, p) * 60 + TwoDigits(s, p + 3))
  }

  /** What may follow `H:MM:SS` (at `q`): nothing, `.fraction` or `:frames`. */
  function ClockSuffix(s: string, q: nat, secs: nat): (r: int)
    ensures r >= -1
  {
    if At(s, q) == '\0' then secs * 1000
    else if At(s, q) == '.' then
      if !IsDigit(At(s, q + 1)) then -1
      else
        var e := DigitEnd(s, q + 1);
        if At(s, e) != '\0' then -1
        else FractionMillis(secs, Val(s[q + 1..e]), e - q - 1)
    else if At(s, q) == ':' then
      if !IsDigit(At(s, q + 1)) then -1
      else
        var e := DigitEnd(s, q + 1);
        if At(s, e) != '\0' then -1
        else FramesMillis(secs, Val(s[q + 1..e]))
    else -1
  }

  /** The digits of `n` followed by the `k` digits of `frac`, as one number. */
  function Shift(n: nat, frac: nat, k: nat): nat {
    MulNat(n, Pow10(k)) + frac
  }

  function MulNat(a: nat, b: nat): nat {
    a * b
  }

  /** Whole seconds followed by a `k`-digit fraction `frac`, in milliseconds:
      `((secs * 10^k + frac) * 1000) / 10^k`. */
  function FractionMillis(secs: nat, frac: nat, k: nat): nat {
    DivNat(Shift(secs, frac, k) * 1000, Pow10(k))
  }

  /** Division of a non-negative count; the source's operands are never
      negative here, so C's truncating division and Dafny's agree. */
  function DivNat(x: nat, d: nat): nat
    requires d >= 1
  {
    x / d
  }

  /** Whole seconds followed by a frame count, in milliseconds. */
  function FramesMillis(secs: nat, frames: nat): nat {
    secs * 1000 + DivNat(frames * 1000, FrameRate)
  }

  /** Offset-time; `j` is the position just after the leading digits. */
  function OffsetTime(s: string, j: nat, n: nat): (r: int)
    ensures r >= -1
  {
    if At(s, j) == '.' then
      if !IsDigit(At(s, j + 1)) then -1
      else
        var e := DigitEnd(s, j + 1);
        Metric(s, e, Shift(n, Val(s[j + 1..e]), e - j - 1), Pow10(e - j - 1))
    else Metric(s, j, n, 1)
  }

  /** The metric letter at `u`; `ms` is recognised before `m`. */
  function Metric(s: string, u: nat, num: nat, den: nat): (r: int)
    requires den >= 1
    ensures r >= -1
  {
    var c := At(s, u);
    if c == 'h' then Scaled(s, u, num, 3600000, den)
    else if c == 'm' then
      if At(s, u + 1) == 's' then Scaled(s, u + 1, num, 1, den)
      else Scaled(s, u, num, 60000, den)
    else if c == 's' then Scaled(s, u, num, 1000, den)
    else if c == 'f' then Scaled(s, u, num, 1000, den * FrameRate)
    else -1
  }

  /** `(num * mul) / den`, provided nothing follows the metric ending at `u`. */
  function Scaled(s: string, u: nat, num: nat, mul: nat, den: nat): (r: int)
    requires den >= 1
    ensures r >= -1
  {
    if At(s, u + 1) != '\0' then -1 else DivNat(num * mul, den)
  }

  // ---------------------------------------------------------------------
  // The parser as the source writes it: a pointer advancing through digit
  // loops that accumulate into num, den and frames.

  /** One `do { num = num * 10 + (*p++ - '0'); den *= 10; } while (isdigit(*p))`
      loop of the source, entered on a digit. */
  method AccumulateDigits(ts: string, p0: nat, num0: nat) returns (p: nat, num: nat, den: nat)
    requires IsDigit(At(ts, p0))
    ensures p == DigitEnd(ts, p0) && p0 < p <= |ts|
    ensures den == Pow10(p - p0)
    ensures num == Shift(num0, Val(ts[p0..p]), p - p0)
  {
    p, num, den := p0, num0, 1;
    while IsDigit(At(ts, p))
      invariant p0 <= p <= |ts|
      invariant AllDigits(ts[p0..p])
      invariant DigitEnd(ts, p0) == DigitEnd(ts, p)
      invariant den == Pow10(p - p0)
      invariant num == num0 * Pow10(p - p0) + Val(ts[p0..p])
      decreases |ts| - p
    {
      ValSnoc(ts, p0, p);
      ShiftStep(num0, p - p0, Val(ts[p0..p]), DigitValue(ts[p]));
      num := num * 10 + DigitValue(ts[p]);
      den := den * 10;
      p := p + 1;
    }
  }

  /** A digit run extended by the digit after it. */
  lemma ValSnoc(s: string, p0: nat, p: nat)
    requires p0 <= p < |s| && AllDigits(s[p0..p]) && IsDigit(s[p])
    ensures AllDigits(s[p0..p + 1])
    ensures Val(s[p0..p + 1]) == Val(s[p0..p]) * 10 + DigitValue(s[p])
  {
    assert s[p0..p + 1][..p - p0] == s[p0..p];
  }

  /** One more digit: the number so far moves up a place. */
  lemma ShiftStep(n: nat, k: nat, v: nat, d: nat)
    ensures (n * Pow10(k) + v) * 10 + d == n * Pow10(k + 1) + (v * 10 + d)
  {
  }

  method ParseTimestamp(ts: string) returns (r: int)
    ensures r == TimestampValue(ts)
  {
    // Note: hours may have a single digit, although the standard asks for two
    if !IsDigit(At(ts, 0)) {
      return -1;
    }
    var p, num, unusedDen := AccumulateDigits(ts, 0, 0);
    assert num == Val(ts[..p]) by {
      assert ts[0..p] == ts[..p];
    }

    if At(ts, p) == ':' {
      r := ParseClockTime(ts, p + 1, num);
    } else {
      r := ParseOffsetTime(ts, p, num);
    }
  }

  /** The clock-time branch; `p` is the position just after `H:`. */
  method ParseClockTime(ts: string, p0: nat, hours: nat) returns (r: int)
    ensures r == ClockTime(ts, p0, hours)
  {
    var p := p0;
    if !IsDigit(At(ts, p)) || !IsDigit(At(ts, p + 1)) || At(ts, p + 2) != ':' ||
       !IsDigit(At(ts, p + 3)) || !IsDigit(At(ts, p + 4)) {
      return -1;
    }
    var num := hours * 3600 + TwoDigits(ts, p) * 60 + TwoDigits(ts, p + 3);
    r := ParseClockSuffix(ts, p + 5, num);
  }

  /** What follows `H:MM:SS`; `p` is its position and `num` the seconds. */
  method ParseClockSuffix(ts: string, p0: nat, secs: nat) returns (r: int)
    ensures r == ClockSuffix(ts, p0, secs)
  {
    if At(ts, p0) == '\0' {
      return secs * 1000;
    } else if At(ts, p0) == '.' {
      r := ParseFraction(ts, p0, secs);
    } else if At(ts, p0) == ':' {
      r := ParseFrameCount(ts, p0, secs);
    } else {
      return -1;
    }
  }

  /** The `.fraction` branch: digits accumulate into the seconds and the
      denominator, and the string must end after them. */
  method ParseFraction(ts: string, p0: nat, secs: nat) returns (r: int)
    requires At(ts, p0) == '.'
    ensures r == ClockSuffix(ts, p0, secs)
  {
    var p := p0 + 1;
    if !IsDigit(At(ts, p)) {
      return -1;
    }
    var num, den;
    p, num, den := AccumulateDigits(ts, p, secs);
    if At(ts, p) != '\0' {
      return -1;
    }
    return DivNat(num * 1000, den);
  }

  /** The `:frames` branch: the frame count is read separately and turned
      into milliseconds at the fixed frame rate. */
  method ParseFrameCount(ts: string, p0: nat, secs: nat) returns (r: int)
    requires At(ts, p0) == ':'
    ensures r == ClockSuffix(ts, p0, secs)
  {
    var p := p0 + 1;
    if !IsDigit(At(ts, p)) {
      return -1;
    }
    var frames, unusedDen;
    p, frames, unusedDen := AccumulateDigits(ts, p, 0);
    assert frames == Val(ts[p0 + 1..p]) by {
      assert MulNat(0, Pow10(p - p0 - 1)) == 0;
    }
    if At(ts, p) != '\0' {
      return -1;
    }
    return (secs * 1000) + DivNat(frames * 1000, FrameRate);
  }

  /** The offset-time branch; `p` is the position just after the digits. */
  method ParseOffsetTime(ts: string, p0: nat, n: nat) returns (r: int)
    ensures r == OffsetTime(ts, p0, n)
  {
    var p, num, den := p0, n, 1;
    if At(ts, p) == '.' {
      // fraction
      p := p + 1;
      if !IsDigit(At(ts, p)) {
        return -1;
      }
      p, num, den := AccumulateDigits(ts, p, num);
    }
    assert OffsetTime(ts, p0, n) == Metric(ts, p, num, den);

    // metric
    var mul;
    var c := At(ts, p);
    if c == 'h' {
      mul := 3600000;
    } else if c == 'm' {
      if At(ts, p + 1) == 's' {
        mul := 1;
        p := p + 1;
      } else {
        mul := 60000;
      }
    } else if c == 's' {
      mul := 1000;
    } else if c == 'f' {
      mul := 1000;
      den := den * FrameRate;
    } else {
      return -1;
    }

    if At(ts, p + 1) != '\0' {
      return -1;
    }
    return DivNat(num * mul, den);
  }
}
