/** `dfxp_parse_timestamp0`, `dfxp_extract_time` and `dfxp_clamp`: how the
    `begin`, `end` and `dur` attributes of an element become a time range,
    and the 64-bit conversions the frame extractor applies to it. */
module TimeRange {
  import opened XmlTree
  import opened Timestamp

  /** dfxp_timestamp_t, in milliseconds; -1 marks a value that is unknown. */
  datatype Timestamps = Timestamps(start: int, end: int)

  /** What `dfxp_extract_time` returns (`found`) and leaves in its
      out-parameter (`t`). */
  datatype Extraction = Extraction(found: bool, t: Timestamps)

  /** `dfxp_parse_timestamp0`: -1 when the attribute is missing or is not a
      single text, otherwise the value of the time expression it holds. */
  function AttrTime(n: Node, name: string): (r: int)
    ensures r >= -1
    ensures GetProp(n, name).None? ==> r == -1
    ensures r >= 0 ==> n.Element? && name in n.attrs
  {
    match GetProp(n, name)
    case None => -1
    case Some(v) => TimestampValue(v)
  }

  function Begin(n: Node): int { AttrTime(n, "begin") }
  function End(n: Node): int { AttrTime(n, "end") }
  function Dur(n: Node): int { AttrTime(n, "dur") }

  /** `dfxp_extract_time`, written in the short-circuit order of the source:
      `end` is parsed first and overwrites `t.end`, then `begin` overwrites
      `t.start`, and `dur` is consulted only when both earlier tests fail
      and the start is known. */
  function ExtractTime(n: Node, t: Timestamps, tryEndOnly: bool): (r: Extraction)
    // Wanted begin and end: both fields are replaced, `dur` is never read,
    // and the call succeeds exactly when `begin` parses.
    ensures !tryEndOnly ==> r.t == Timestamps(Begin(n), End(n))
    ensures !tryEndOnly ==> (r.found <==> Begin(n) >= 0)
    // Wanted the end only: the end is `end`, else `begin + dur`, else -1,
    // whatever `t` held before, and the call succeeds exactly when it is known.
    ensures tryEndOnly ==> r.t.end == EndEstimate(n)
    ensures tryEndOnly ==> (r.found <==> r.t.end >= 0)
    ensures tryEndOnly && End(n) >= 0 ==> r.t.start == t.start
    ensures tryEndOnly && End(n) < 0 ==> r.t.start == Begin(n)
  {
    var end := AttrTime(n, "end");
    if end >= 0 && tryEndOnly then Extraction(true, t.(end := end))
    else
      var start := AttrTime(n, "begin");
      if start >= 0 && !tryEndOnly then Extraction(true, Timestamps(start, end))
      else if start < 0 then Extraction(false, Timestamps(start, end))
      else
        var dur := AttrTime(n, "dur");
        if dur < 0 then Extraction(false, Timestamps(start, dur))
        else Extraction(true, Timestamps(start, dur + start))
  }

  /** The end time a lone end-only extraction yields: `end`, else
      `begin + dur`, else -1. */
  function EndEstimate(n: Node): int {
    if End(n) >= 0 then End(n)
    else if Begin(n) >= 0 && Dur(n) >= 0 then Begin(n) + Dur(n)
    else -1
  }

  /** `dfxp_clamp`. */
  function Clamp(v: int, lo: int, hi: int): (r: int)
    ensures lo <= hi ==> lo <= r <= hi
    ensures lo <= v <= hi ==> r == v
    ensures v < lo ==> r == lo
    ensures lo <= hi < v ==> r == hi
  {
    if v < lo then lo else if v > hi then hi else v
  }

  /** Clamping preserves order. */
  lemma ClampMonotone(v1: int, v2: int, lo: int, hi: int)
    requires v1 <= v2 && lo <= hi
    ensures Clamp(v1, lo, hi) <= Clamp(v2, lo, hi)
  {
  }

  /** Clamping twice is clamping once. */
  lemma ClampIdempotent(v: int, lo: int, hi: int)
    requires lo <= hi
    ensures Clamp(Clamp(v, lo, hi), lo, hi) == Clamp(v, lo, hi)
  {
  }

  // ---------------------------------------------------------------------
  // 64-bit conversions. Times are int64_t in the source, window bounds are
  // uint64_t, and the source mixes them in comparisons and subtractions.

  const Two64: int := 0x1_0000_0000_0000_0000
  const Two63: int := 0x8000_0000_0000_0000

  /** uint64_t. */
  type UInt64 = x: int | 0 <= x < Two64

  /** A cast to uint64_t (arithmetic modulo 2^64). */
  function U64(x: int): (r: nat)
    ensures r < Two64
    ensures 0 <= x < Two64 ==> r == x
    ensures -Two64 <= x < 0 ==> r == x + Two64
  {
    x % Two64
  }

  /** A conversion to int64_t: the two's-complement reading of U64(x). */
  function S64(x: int): (r: int)
    ensures -Two63 <= r < Two63
    ensures -Two63 <= x < Two63 ==> r == x
  {
    if U64(x) < Two63 then U64(x) else U64(x) - Two64
  }
}
