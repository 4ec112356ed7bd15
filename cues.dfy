/** What `dfxp_parse_frames` does, as functions: the forward depth-first
    walk that yields the cues (each `p` with its inherited style and the
    `last_div` fallback in force), and the scan that turns cues into
    frames for a time window. */
module Cues {
  import opened XmlTree
  import opened TimeRange
  import opened Styles
  import opened Render

  // ---------------------------------------------------------------------
  // The walk.

  /** A `p` element met by the walk, with the style it is rendered in and
      the `div` its times fall back to. */
  datatype Cue = Cue(p: Node, style: Style, lastDiv: Option<Node>)

  /** What a stretch of the walk yields, and the `last_div` it leaves. */
  datatype WalkOut = WalkOut(cues: seq<Cue>, lastDiv: Option<Node>)

  /** A cue's node is an element and its style a valid one. */
  predicate ValidCue(c: Cue) {
    c.p.Element? && ValidStyle(c.style)
  }

  predicate ValidCues(cues: seq<Cue>) {
    forall k :: 0 <= k < |cues| ==> ValidCue(cues[k])
  }

  /** An element starts from its parent's style and, when it may carry
      style attributes, applies them. */
  function NodeStyle(n: Node, parent: Style): (s: Style)
    requires ValidStyle(parent)
    ensures ValidStyle(s)
  {
    StyleOfValid(n, parent);
    if CanContainStyle(n) then StyleOf(n, parent) else parent
  }

  /** The walk of the sibling run `sibs`, first member first, at stack
      depth `depth`, under the style `parent`, starting with `lastDiv`. */
  function WalkRun(sibs: seq<Node>, depth: nat, parent: Style, lastDiv: Option<Node>): (r: WalkOut)
    requires ValidStyle(parent)
    ensures ValidCues(r.cues)
    ensures r.lastDiv == lastDiv || r.lastDiv.None?
    decreases SeqSize(sibs), 1
  {
    if sibs == [] then WalkOut([], lastDiv)
    else
      var a := WalkNode(sibs[0], depth, parent, lastDiv);
      var b := WalkRun(sibs[1..], depth, parent, a.lastDiv);
      WalkOut(a.cues + b.cues, b.lastDiv)
  }

  /** One node: a `p` is a cue and is not entered; another element with
      children is entered while the stack has room (a `div` becoming the
      fallback), and when its entry is popped a `last_div` equal to it is
      cleared. */
  function WalkNode(n: Node, depth: nat, parent: Style, lastDiv: Option<Node>): (r: WalkOut)
    requires ValidStyle(parent)
    ensures ValidCues(r.cues)
    ensures r.lastDiv == lastDiv || r.lastDiv.None?
    decreases Size(n), 0
  {
    match n
    case Element(name, _, children) =>
      var s := NodeStyle(n, parent);
      if name == "p" then WalkOut([Cue(n, s, lastDiv)], lastDiv)
      else if children == [] || depth == MaxDepth then WalkOut([], lastDiv)
      else
        var inner := WalkRun(children, depth + 1, s, if name == "div" then Some(n) else lastDiv);
        WalkOut(inner.cues, if inner.lastDiv == Some(n) then None else inner.lastDiv)
    case _ => WalkOut([], lastDiv)
  }

  /** The cues of a document, from its root element. */
  function CuesOf(doc: Document): (r: seq<Cue>)
    ensures ValidCues(r)
  {
    WalkRun(TopLevel(doc), 0, ZeroStyle, None).cues
  }

  // ---------------------------------------------------------------------
  // The scan.

  /** input_frame_t: the text (standing for the offset that points at it),
      its size, the cue's duration, pts_delay and key_frame. */
  datatype Frame = Frame(text: string, size: nat, ptsDelay: int, keyFrame: bool, duration: int)

  /** The requested window, all uint64_t: the start `start`, the base
      subtracted from cue times, the clip bound, and the end at which the
      scan stops. */
  datatype Window = Window(start: UInt64, base: UInt64, clipTo: UInt64, end: UInt64)

  /** The window computed from the request: relative timestamps are
      measured from the window start, absolute ones from `clipFrom`. */
  function WindowOf(relative: bool, rangeStart: UInt64, rangeEnd: UInt64, clipFrom: UInt64, clipTo: UInt64): (w: Window)
    ensures w.start == U64(rangeStart + clipFrom)
    ensures relative ==> w.base == w.start && w.clipTo == w.end == U64(rangeEnd - rangeStart)
    ensures !relative ==> w.base == clipFrom && w.clipTo == clipTo && w.end == rangeEnd
  {
    var start := U64(rangeStart + clipFrom);
    if relative then Window(start, start, U64(rangeEnd - rangeStart), U64(rangeEnd - rangeStart))
    else Window(start, clipFrom, clipTo, rangeEnd)
  }

  /** The state the scan carries from cue to cue: the last extracted times
      `t`, the frames so far, the start of the last frame, the four track
      fields it updates, and whether it has stopped at the window end. */
  datatype Scan = Scan(t: Timestamps, frames: seq<Frame>, lastStart: int, firstIndex: int,
                       firstOffset: int, totalDuration: int, totalSize: int, stopped: bool)

  /** The times of a cue: the `p`'s own `begin`/`end`, else those of the
      fallback `div`, if any. */
  function CueTimes(c: Cue, t: Timestamps): (x: Extraction)
    ensures x.found ==> x.t.start >= 0
    ensures x.found && Begin(c.p) >= 0 ==> x.t == Timestamps(Begin(c.p), End(c.p))
  {
    var own := ExtractTime(c.p, t, false);
    if own.found || c.lastDiv.None? then own
    else ExtractTime(c.lastDiv.value, own.t, false)
  }

  /** `dfxp_clamp(v - base_time, 0, clip_to)` with the source's
      conversions: the difference is taken in uint64_t and both it and
      `clip_to` are read back as int64_t. */
  function Clip(v: int, w: Window): int {
    Clamp(S64(v - w.base), 0, S64(w.clipTo))
  }

  /** The frames with the duration of the last one replaced. */
  function SetDuration(frames: seq<Frame>, d: int): (r: seq<Frame>)
    requires |frames| > 0
    ensures |r| == |frames| && r[..|r| - 1] == frames[..|frames| - 1]
    ensures r[|r| - 1] == frames[|frames| - 1].(duration := d)
  {
    frames[..|frames| - 1] + [frames[|frames| - 1].(duration := d)]
  }

  /** One cue of the scan (the `p` branch of the loop of
      `dfxp_parse_frames`). */
  function CueStep(st: Scan, c: Cue, w: Window): Scan
    requires ValidCue(c)
  {
    if st.stopped then st else TimedStep(st, CueTimes(c, st.t), c, w)
  }

  /** The cue once its times are extracted: without times it is skipped,
      ending before the window it is counted, and it is clipped when its
      times are in order. */
  function TimedStep(st: Scan, x: Extraction, c: Cue, w: Window): Scan
    requires ValidCue(c)
  {
    if !x.found then st.(t := x.t)
    else if U64(x.t.end) < w.start then st.(t := x.t, firstIndex := st.firstIndex + 1)
    else if x.t.start >= x.t.end then st.(t := x.t)
    else ClipStep(st, x.t, c, w)
  }

  /** A cue whose times overlap the window: they are clipped to it, and
      it is emitted if it renders to a text. */
  function ClipStep(st: Scan, t: Timestamps, c: Cue, w: Window): Scan
    requires ValidCue(c)
  {
    var t' := Timestamps(Clip(t.start, w), Clip(t.end, w));
    var body := FrameBody(c.p.children, c.style);
    if body.NotFound? then st.(t := t') else Emit(st, t', body.text, w)
  }

  /** A cue inside the window with a rendered text: the previous frame (or
      the track's first offset) learns where this one starts, then the scan
      either stops at the window end or appends the new frame. */
  function Emit(st: Scan, t: Timestamps, text: string, w: Window): Scan {
    var st1 := if |st.frames| > 0 then st.(frames := SetDuration(st.frames, t.start - st.lastStart))
               else st.(firstOffset := t.start);
    if U64(t.start) >= w.end then
      st1.(t := t, totalDuration := t.start - st1.firstOffset, stopped := true)
    else
      st1.(t := t, frames := st1.frames + [Frame(text, |text|, t.end - t.start, false, 0)],
           totalSize := st1.totalSize + |text|, lastStart := t.start)
  }

  /** The scan over a list of cues. */
  function FoldCues(cues: seq<Cue>, st: Scan, w: Window): Scan
    requires ValidCues(cues)
  {
    if cues == [] then st else FoldCues(cues[1..], CueStep(st, cues[0], w), w)
  }

  /** The end of the walk without a stop: the last frame lasts as long as
      the last extracted times, and the total runs to their end. */
  function Finish(st: Scan): Scan {
    if !st.stopped && |st.frames| > 0 then
      st.(frames := SetDuration(st.frames, st.t.end - st.t.start), totalDuration := st.t.end - st.firstOffset)
    else st
  }

  /** The scan's starting state: `t` and `last_start_time` zeroed, no
      frame, and the track fields as they were. */
  function InitialScan(firstIndex: int, firstOffset: int, totalDuration: int, totalSize: int): Scan {
    Scan(Timestamps(0, 0), [], 0, firstIndex, firstOffset, totalDuration, totalSize, false)
  }

  /** Everything `dfxp_parse_frames` leaves in the track when frames are
      asked for. */
  function ParseFramesSpec(doc: Document, w: Window, init: Scan): Scan {
    Finish(FoldCues(CuesOf(doc), init, w))
  }
}
