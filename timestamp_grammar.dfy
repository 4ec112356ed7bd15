/** What `dfxp_parse_timestamp` yields for each shape of TTML time
    expression, stated over the pieces the expression is made of. */
module TimestampGrammar {
  import opened XmlTree
  import opened Timestamp

  /** A non-empty run of decimal digits. */
  predicate Digits(d: string) {
    |d| >= 1 && AllDigits(d)
  }

  function ClockSeconds(h: string, mm: string, ss: string): nat
    requires AllDigits(h) && AllDigits(mm) && AllDigits(ss)
  {
    Val(h) * 3600 + Val(mm) * 60 + Val(ss)
  }

  /** The offset-time metrics and what each scales by. */
  predicate IsMetric(u: string) {
    u == "h" || u == "m" || u == "ms" || u == "s" || u == "f"
  }

  function MetricMul(u: string): nat
    requires IsMetric(u)
  {
    if u == "h" then 3600000 else if u == "m" then 60000 else if u == "ms" then 1 else 1000
  }

  function MetricDen(u: string): nat
    requires IsMetric(u)
  {
    if u == "f" then FrameRate else 1
  }

  // ---------------------------------------------------------------------
  // Helpers about digit runs and positions.

  lemma AtConcat(a: string, b: string, k: nat)
    ensures At(a + b, |a| + k) == At(b, k)
  {
  }

  lemma {:induction false} ValAppend(a: string, b: string)
    requires AllDigits(a) && AllDigits(b)
    ensures AllDigits(a + b)
    ensures Val(a + b) == Val(a) * Pow10(|b|) + Val(b)
    decreases |b|
  {
    if b == [] {
      assert a + b == a;
    } else {
      var b' := b[..|b| - 1];
      assert (a + b)[..|a + b| - 1] == a + b';
      ValAppend(a, b');
      var A, P, B, d := Val(a), Pow10(|b'|), Val(b'), DigitValue(b[|b| - 1]);
      assert Val(a + b) == Val(a + b') * 10 + d;
      assert Val(b) == B * 10 + d;
      assert Pow10(|b|) == P * 10;
      ShiftDigit(A, P, B);
    }
  }

  lemma ShiftDigit(a: int, p: int, b: int)
    ensures (a * p + b) * 10 == a * (p * 10) + b * 10
  {
  }

  lemma TwoDigitVal(d: string)
    requires |d| == 2 && AllDigits(d)
    ensures Val(d) == DigitValue(d[0]) * 10 + DigitValue(d[1])
  {
    assert d[..1][..0] == [];
    assert d[..|d| - 1] == d[..1];
    assert Val(d[..1]) == DigitValue(d[0]);
  }

  /** A maximal digit run from `i` to `j` ends at `j`. */
  lemma {:induction false} DigitEndRun(s: string, i: nat, j: nat)
    requires i <= j <= |s|
    requires forall k :: i <= k < j ==> IsDigit(s[k])
    requires !IsDigit(At(s, j))
    ensures DigitEnd(s, i) == j
    decreases j - i
  {
    if i < j {
      DigitEndRun(s, i + 1, j);
    }
  }

  /** The leading digit run of `d + rest` is `d` when `rest` does not start
      with a digit. */
  lemma LeadingRun(d: string, rest: string)
    requires Digits(d) && !IsDigit(At(rest, 0))
    ensures DigitEnd(d + rest, 0) == |d|
    ensures (d + rest)[..|d|] == d
  {
    AtConcat(d, rest, 0);
    DigitEndRun(d + rest, 0, |d|);
    assert (d + rest)[..|d|] == d;
  }

  lemma StrAssoc(a: string, b: string, c: string)
    ensures (a + b) + c == a + (b + c)
  {
  }

  /** A digit run `d` placed between `a` and a tail `b` that does not start
      with a digit ends where `b` begins. */
  lemma {:induction false} RunIn(a: string, d: string, b: string)
    requires AllDigits(d) && !IsDigit(At(b, 0))
    ensures DigitEnd(a + d + b, |a|) == |a| + |d|
    decreases |d|
  {
    if d == [] {
      assert a + d + b == a + b;
      AtConcat(a, b, 0);
    } else {
      var a' := a + [d[0]];
      assert a + d + b == a' + d[1..] + b;
      assert At(a + d + b, |a|) == d[0];
      RunIn(a', d[1..], b);
    }
  }

  /** The piece `d` sits between `a` and `b`. */
  lemma SliceIn(a: string, d: string, b: string)
    ensures (a + d + b)[|a|..|a| + |d|] == d
  {
  }

  /** A digit run `d` that ends the string. */
  lemma FinalRun(a: string, d: string)
    requires AllDigits(d)
    ensures DigitEnd(a + d, |a|) == |a + d|
    ensures (a + d)[|a|..|a + d|] == d
  {
    RunIn(a, d, "");
    assert a + d + "" == a + d;
  }

  // ---------------------------------------------------------------------
  // Clock-time.

  /** A string of the shape `H:...` is read as clock-time. */
  lemma ClockPrefix(h: string, rest: string)
    requires Digits(h)
    ensures TimestampValue(h + ":" + rest) == ClockTime(h + ":" + rest, |h| + 1, Val(h))
  {
    var s := h + ":" + rest;
    assert s == h + ([':'] + rest);
    LeadingRun(h, [':'] + rest);
    AtConcat(h, [':'] + rest, 0);
  }

  /** `H:MM:SS` followed by `tail` hands `tail` to the suffix rules with the
      whole seconds counted. */
  lemma ClockFields(h: string, mm: string, ss: string, tail: string)
    requires Digits(h) && |mm| == 2 && AllDigits(mm) && |ss| == 2 && AllDigits(ss)
    ensures var s := h + ":" + mm + ":" + ss + tail;
      TimestampValue(s) == ClockSuffix(s, |h| + 6, ClockSeconds(h, mm, ss))
  {
    var s := h + ":" + mm + ":" + ss + tail;
    var rest := mm + ":" + ss + tail;
    assert s == h + ":" + rest;
    ClockPrefix(h, rest);
    var p := |h| + 1;
    assert At(s, p) == mm[0] && At(s, p + 1) == mm[1] && At(s, p + 2) == ':';
    assert At(s, p + 3) == ss[0] && At(s, p + 4) == ss[1];
    TwoDigitVal(mm);
    TwoDigitVal(ss);
    assert TwoDigits(s, p) == Val(mm);
    assert TwoDigits(s, p + 3) == Val(ss);
  }

  /** `H:MM:SS` is `(H*3600 + MM*60 + SS) * 1000`. */
  lemma ClockTimeWhole(h: string, mm: string, ss: string)
    requires Digits(h) && |mm| == 2 && AllDigits(mm) && |ss| == 2 && AllDigits(ss)
    ensures TimestampValue(h + ":" + mm + ":" + ss) == ClockSeconds(h, mm, ss) * 1000
  {
    ClockFields(h, mm, ss, "");
    assert h + ":" + mm + ":" + ss + "" == h + ":" + mm + ":" + ss;
  }

  /** The suffix rules at a separator at `q` followed by the final digit
      run `d`. */
  lemma SuffixAt(s: string, q: nat, d: string, secs: nat)
    requires Digits(d) && q + 1 + |d| == |s|
    requires s[q + 1..|s|] == d && DigitEnd(s, q + 1) == |s|
    ensures At(s, q) == '.' ==> ClockSuffix(s, q, secs) == FractionMillis(secs, Val(d), |d|)
    ensures At(s, q) == ':' ==> ClockSuffix(s, q, secs) == FramesMillis(secs, Val(d))
  {
    assert s[q + 1] == s[q + 1..|s|][0];
  }

  /** `H:MM:SS` followed by a separator `c` and a digit run `d`. */
  lemma ClockTimeSuffix(h: string, mm: string, ss: string, c: char, d: string)
    requires Digits(h) && |mm| == 2 && AllDigits(mm) && |ss| == 2 && AllDigits(ss)
    requires Digits(d)
    ensures var pre := h + ":" + mm + ":" + ss;
      TimestampValue(pre + [c] + d) == ClockSuffix(pre + [c] + d, |pre|, ClockSeconds(h, mm, ss))
    ensures var pre := h + ":" + mm + ":" + ss;
      At(pre + [c] + d, |pre|) == c && DigitEnd(pre + [c] + d, |pre| + 1) == |pre + [c] + d| &&
      (pre + [c] + d)[|pre| + 1..|pre + [c] + d|] == d
  {
    var pre := h + ":" + mm + ":" + ss;
    ClockFields(h, mm, ss, [c] + d);
    StrAssoc(pre, [c], d);
    FinalRun(pre + [c], d);
  }

  /** `H:MM:SS.F` with k fraction digits is `((seconds * 10^k + F) * 1000) / 10^k`. */
  lemma ClockTimeFraction(h: string, mm: string, ss: string, f: string)
    requires Digits(h) && |mm| == 2 && AllDigits(mm) && |ss| == 2 && AllDigits(ss)
    requires Digits(f)
    ensures TimestampValue(h + ":" + mm + ":" + ss + "." + f)
         == FractionMillis(ClockSeconds(h, mm, ss), Val(f), |f|)
  {
    var pre := h + ":" + mm + ":" + ss;
    ClockTimeSuffix(h, mm, ss, '.', f);
    SuffixAt(pre + "." + f, |pre|, f, ClockSeconds(h, mm, ss));
  }

  /** `H:MM:SS:FF` is `seconds * 1000 + FF * 1000 / 30`. */
  lemma ClockTimeFrames(h: string, mm: string, ss: string, ff: string)
    requires Digits(h) && |mm| == 2 && AllDigits(mm) && |ss| == 2 && AllDigits(ss)
    requires Digits(ff)
    ensures TimestampValue(h + ":" + mm + ":" + ss + ":" + ff)
         == FramesMillis(ClockSeconds(h, mm, ss), Val(ff))
  {
    var pre := h + ":" + mm + ":" + ss;
    ClockTimeSuffix(h, mm, ss, ':', ff);
    SuffixAt(pre + ":" + ff, |pre|, ff, ClockSeconds(h, mm, ss));
  }

  /** Minutes and seconds must be two digits each around a colon. */
  lemma ClockTimeNeedsFields(h: string, rest: string)
    requires Digits(h)
    requires !ClockFieldsAt(rest, 0)
    ensures TimestampValue(h + ":" + rest) == -1
  {
    ClockPrefix(h, rest);
    var pre := h + ":";
    assert h + ":" + rest == pre + rest;
    forall k: nat ensures At(pre + rest, |pre| + k) == At(rest, k) {
      AtConcat(pre, rest, k);
    }
  }

  /** After `H:MM:SS` only the end, `.` or `:` may follow. */
  lemma ClockTimeTrailing(h: string, mm: string, ss: string, c: char, rest: string)
    requires Digits(h) && |mm| == 2 && AllDigits(mm) && |ss| == 2 && AllDigits(ss)
    requires c != '\0' && c != '.' && c != ':'
    ensures TimestampValue(h + ":" + mm + ":" + ss + [c] + rest) == -1
  {
    ClockFields(h, mm, ss, [c] + rest);
    assert h + ":" + mm + ":" + ss + [c] + rest == h + ":" + mm + ":" + ss + ([c] + rest);
  }

  /** A `.` or `:` after `H:MM:SS` must be followed by a digit. */
  lemma ClockTimeEmptySuffix(h: string, mm: string, ss: string, c: char, rest: string)
    requires Digits(h) && |mm| == 2 && AllDigits(mm) && |ss| == 2 && AllDigits(ss)
    requires c == '.' || c == ':'
    requires !IsDigit(At(rest, 0))
    ensures TimestampValue(h + ":" + mm + ":" + ss + [c] + rest) == -1
  {
    var pre := h + ":" + mm + ":" + ss + [c];
    ClockFields(h, mm, ss, [c] + rest);
    assert pre + rest == h + ":" + mm + ":" + ss + ([c] + rest);
    AtConcat(pre, rest, 0);
    assert At(pre + rest, |h| + 6) == c;
  }

  /** Nothing but the end may follow the fraction or frame digits. */
  lemma ClockTimeSuffixTrailing(h: string, mm: string, ss: string, c: char, d: string, x: char, rest: string)
    requires Digits(h) && |mm| == 2 && AllDigits(mm) && |ss| == 2 && AllDigits(ss)
    requires c == '.' || c == ':'
    requires Digits(d) && !IsDigit(x) && x != '\0'
    ensures TimestampValue(h + ":" + mm + ":" + ss + [c] + d + [x] + rest) == -1
  {
    var pre := h + ":" + mm + ":" + ss + [c];
    var s := pre + d + ([x] + rest);
    assert s == h + ":" + mm + ":" + ss + ([c] + d + [x] + rest);
    assert s == h + ":" + mm + ":" + ss + [c] + d + [x] + rest;
    ClockFields(h, mm, ss, [c] + d + [x] + rest);
    var q := |h| + 6;
    assert At(s, q) == c;
    assert At(s, q + 1) == d[0];
    DigitEndRun(s, q + 1, q + 1 + |d|);
  }

  // ---------------------------------------------------------------------
  // Offset-time.

  /** A digit run followed by anything but `:` is read as offset-time. */
  lemma OffsetPrefix(n: string, rest: string)
    requires Digits(n) && !IsDigit(At(rest, 0)) && At(rest, 0) != ':'
    ensures TimestampValue(n + rest) == OffsetTime(n + rest, |n|, Val(n))
  {
    LeadingRun(n, rest);
    AtConcat(n, rest, 0);
  }

  /** `N` followed by a metric is `N * mul / den` for that metric; `ms` is
      milliseconds, not minutes. */
  lemma OffsetTimeValue(n: string, u: string)
    requires Digits(n) && IsMetric(u)
    ensures TimestampValue(n + u) == DivNat(Val(n) * MetricMul(u), MetricDen(u))
  {
    OffsetPrefix(n, u);
    MetricValue(n, u, Val(n), 1);
  }

  /** A metric starts with a letter. */
  lemma MetricStart(u: string)
    requires IsMetric(u)
    ensures |u| >= 1 && At(u, 0) == u[0] && !IsDigit(u[0]) && u[0] != '.' && u[0] != ':'
  {
  }

  /** Offset-time with a `.` at `j` followed by the fraction digits `f`:
      the digits extend the number and the denominator. */
  lemma OffsetFractionAt(s: string, j: nat, n: nat, f: string)
    requires At(s, j) == '.' && Digits(f) && j + 1 + |f| <= |s|
    requires s[j + 1..j + 1 + |f|] == f && DigitEnd(s, j + 1) == j + 1 + |f|
    ensures OffsetTime(s, j, n) == Metric(s, j + 1 + |f|, Shift(n, Val(f), |f|), Pow10(|f|))
  {
    assert s[j + 1] == s[j + 1..j + 1 + |f|][0];
  }

  /** `N.F` followed by a metric, with k fraction digits, is
      `(N * 10^k + F) * mul / (10^k * den)` (`Shift` is `N * 10^k + F`). */
  lemma OffsetTimeFraction(n: string, f: string, u: string)
    requires Digits(n) && Digits(f) && IsMetric(u)
    ensures TimestampValue(n + "." + f + u)
         == DivNat(Shift(Val(n), Val(f), |f|) * MetricMul(u), Pow10(|f|) * MetricDen(u))
  {
    MetricStart(u);
    OffsetPrefix(n, "." + f + u);
    StrAssoc(n, "." + f, u);
    StrAssoc(n, ".", f);
    RunIn(n + ".", f, u);
    SliceIn(n + ".", f, u);
    AtConcat(n, "." + f + u, 0);
    OffsetFractionAt(n + "." + f + u, |n|, Val(n), f);
    MetricValue(n + "." + f, u, Shift(Val(n), Val(f), |f|), Pow10(|f|));
  }

  /** A metric ending the string scales by its multiplier and divisor. */
  lemma MetricValue(pre: string, u: string, num: nat, den: nat)
    requires IsMetric(u) && den >= 1
    ensures Metric(pre + u, |pre|, num, den) == DivNat(num * MetricMul(u), den * MetricDen(u))
  {
    AtConcat(pre, u, 0);
    AtConcat(pre, u, 1);
    AtConcat(pre, u, 2);
  }

  /** A digit run alone has no metric and is rejected. */
  lemma OffsetTimeNeedsMetric(n: string)
    requires Digits(n)
    ensures TimestampValue(n) == -1
  {
    OffsetPrefix(n, "");
    assert n + "" == n;
  }

  /** An unknown metric letter is rejected. */
  lemma OffsetTimeUnknownMetric(n: string, c: char, rest: string)
    requires Digits(n) && !IsDigit(c)
    requires c !in {':', '.', 'h', 'm', 's', 'f'}
    ensures TimestampValue(n + [c] + rest) == -1
  {
    assert n + [c] + rest == n + ([c] + rest);
    OffsetPrefix(n, [c] + rest);
    AtConcat(n, [c] + rest, 0);
  }

  /** A `.` after the number must be followed by a digit. */
  lemma OffsetTimeEmptyFraction(n: string, rest: string)
    requires Digits(n) && !IsDigit(At(rest, 0))
    ensures TimestampValue(n + "." + rest) == -1
  {
    StrAssoc(n, ".", rest);
    OffsetPrefix(n, "." + rest);
    AtConcat(n, "." + rest, 0);
    AtConcat(n, "." + rest, 1);
  }

  /** A fraction must be followed by a metric: the end of the string or
      any other letter gives -1. */
  lemma OffsetFractionNeedsMetric(n: string, f: string, tail: string)
    requires Digits(n) && Digits(f) && !IsDigit(At(tail, 0))
    requires At(tail, 0) !in {'h', 'm', 's', 'f'}
    ensures TimestampValue(n + "." + f + tail) == -1
  {
    OffsetPrefix(n, "." + f + tail);
    StrAssoc(n, "." + f, tail);
    StrAssoc(n, ".", f);
    RunIn(n + ".", f, tail);
    SliceIn(n + ".", f, tail);
    AtConcat(n, "." + f + tail, 0);
    OffsetFractionAt(n + "." + f + tail, |n|, Val(n), f);
    AtConcat(n + "." + f, tail, 0);
  }

  /** Any character after the metric is rejected, never a partial value. */
  lemma OffsetTimeTrailing(n: string, u: string, c: char, rest: string)
    requires Digits(n) && IsMetric(u) && c != '\0'
    requires !(u == "m" && c == 's')
    ensures TimestampValue(n + u + [c] + rest) == -1
  {
    var s := n + (u + [c] + rest);
    assert s == n + u + [c] + rest;
    OffsetPrefix(n, u + [c] + rest);
    AtConcat(n, u + [c] + rest, 0);
    AtConcat(n, u + [c] + rest, 1);
    AtConcat(n, u + [c] + rest, 2);
  }


  /** The same after a fraction: `N.F` and a metric followed by any
      character give -1. */
  lemma OffsetFractionTrailing(n: string, f: string, u: string, c: char, rest: string)
    requires Digits(n) && Digits(f) && IsMetric(u) && c != '\0'
    requires !(u == "m" && c == 's')
    ensures TimestampValue(n + "." + f + u + [c] + rest) == -1
  {
    var tail := u + [c] + rest;
    var s := n + "." + f + tail;
    assert n + "." + f + u + [c] + rest == s;
    MetricStart(u);
    OffsetPrefix(n, "." + f + tail);
    StrAssoc(n, "." + f, tail);
    StrAssoc(n, ".", f);
    RunIn(n + ".", f, tail);
    SliceIn(n + ".", f, tail);
    AtConcat(n, "." + f + tail, 0);
    OffsetFractionAt(s, |n|, Val(n), f);
    MetricTrailing(n + "." + f, u, c, rest, Shift(Val(n), Val(f), |f|), Pow10(|f|));
  }

  /** A metric followed by any character is rejected, whatever precedes it. */
  lemma MetricTrailing(pre: string, u: string, c: char, rest: string, num: nat, den: nat)
    requires IsMetric(u) && c != '\0' && !(u == "m" && c == 's') && den >= 1
    ensures Metric(pre + (u + [c] + rest), |pre|, num, den) == -1
  {
    var tail := u + [c] + rest;
    AtConcat(pre, tail, 0);
    AtConcat(pre, tail, 1);
    AtConcat(pre, tail, 2);
  }
}
