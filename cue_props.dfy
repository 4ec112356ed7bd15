/** Properties of the cue walk and of the frame scan. */
module CueProps {
  import opened XmlTree
  import opened TimeRange
  import opened Styles
  import opened Render
  import opened Cues

  // ---------------------------------------------------------------------
  // The walk.

  /** Every cue is a `p` element, and the fallback it carries is a `div`. */
  predicate ParagraphCues(cues: seq<Cue>) {
    forall k :: 0 <= k < |cues| ==>
      IsElementNamed(cues[k].p, "p") &&
      (cues[k].lastDiv.Some? ==> IsElementNamed(cues[k].lastDiv.value, "div"))
  }

  predicate DivOrNone(d: Option<Node>) {
    d.Some? ==> IsElementNamed(d.value, "div")
  }

  lemma {:induction false} WalkRunParagraphs(sibs: seq<Node>, depth: nat, parent: Style, lastDiv: Option<Node>)
    requires ValidStyle(parent) && DivOrNone(lastDiv)
    ensures ParagraphCues(WalkRun(sibs, depth, parent, lastDiv).cues)
    ensures DivOrNone(WalkRun(sibs, depth, parent, lastDiv).lastDiv)
    decreases SeqSize(sibs), 1
  {
    if sibs != [] {
      WalkNodeParagraphs(sibs[0], depth, parent, lastDiv);
      var a := WalkNode(sibs[0], depth, parent, lastDiv);
      WalkRunParagraphs(sibs[1..], depth, parent, a.lastDiv);
    }
  }

  lemma {:induction false} WalkNodeParagraphs(n: Node, depth: nat, parent: Style, lastDiv: Option<Node>)
    requires ValidStyle(parent) && DivOrNone(lastDiv)
    ensures ParagraphCues(WalkNode(n, depth, parent, lastDiv).cues)
    ensures DivOrNone(WalkNode(n, depth, parent, lastDiv).lastDiv)
    decreases Size(n), 0
  {
    match n
    case Element(name, _, children) =>
      if name != "p" && children != [] && depth != MaxDepth {
        WalkRunParagraphs(children, depth + 1, NodeStyle(n, parent), if name == "div" then Some(n) else lastDiv);
      }
    case _ =>
  }

  /** The cues of a document are its `p` elements, each falling back on a
      `div`. */
  lemma CuesAreParagraphs(doc: Document)
    ensures ParagraphCues(CuesOf(doc))
  {
    WalkRunParagraphs(TopLevel(doc), 0, ZeroStyle, None);
  }

  // ---------------------------------------------------------------------
  // Sums over the frames, taken from the last frame backwards.

  function SumDurations(frames: seq<Frame>): int {
    if frames == [] then 0 else SumDurations(frames[..|frames| - 1]) + frames[|frames| - 1].duration
  }

  function SumSizes(frames: seq<Frame>): int {
    if frames == [] then 0 else SumSizes(frames[..|frames| - 1]) + frames[|frames| - 1].size
  }

  function AllButLast(frames: seq<Frame>): seq<Frame>
    requires |frames| > 0
  {
    frames[..|frames| - 1]
  }

  lemma SumsSnoc(frames: seq<Frame>, f: Frame)
    ensures SumDurations(frames + [f]) == SumDurations(frames) + f.duration
    ensures SumSizes(frames + [f]) == SumSizes(frames) + f.size
  {
    assert (frames + [f])[..|frames|] == frames;
  }

  /** Replacing the last duration changes only the last term. */
  lemma SumsSetDuration(frames: seq<Frame>, d: int)
    requires |frames| > 0
    ensures SumDurations(SetDuration(frames, d)) == SumDurations(AllButLast(frames)) + d
    ensures SumSizes(SetDuration(frames, d)) == SumSizes(frames)
  {
  }

  // ---------------------------------------------------------------------
  // What the scan keeps true.

  /** No key frame and sizes equal to text lengths, for every frame. */
  predicate PlainFrames(frames: seq<Frame>) {
    forall k :: 0 <= k < |frames| ==> !frames[k].keyFrame && frames[k].size == |frames[k].text|
  }

  /** The frames the scan builds, measured against the track fields as they
      were before it: no key frame, sizes that are the text lengths and add
      up to the growth of the total size, durations of all but the last
      frame that sum to the last start minus the first offset, and a total
      duration that changes only when the scan stops at the window end, to
      the sum of the durations. Frame by frame, the chaining of each
      duration to the start of the next frame is `CueOutcome` together with
      `FoldKeepsStarts`. */
  predicate Consistent(st: Scan, init: Scan) {
    PlainFrames(st.frames) &&
    st.totalSize == init.totalSize + SumSizes(st.frames) &&
    st.firstIndex >= init.firstIndex &&
    (|st.frames| > 0 ==> SumDurations(AllButLast(st.frames)) == st.lastStart - st.firstOffset) &&
    (st.stopped ==> st.totalDuration == SumDurations(st.frames)) &&
    (!st.stopped ==> st.totalDuration == init.totalDuration)
  }

  lemma EmitConsistent(st: Scan, t: Timestamps, text: string, w: Window, init: Scan)
    requires !st.stopped && Consistent(st, init)
    ensures Consistent(Emit(st, t, text, w), init)
  {
    if U64(t.start) >= w.end {
      EmitStops(st, t, text, w, init);
    } else {
      EmitAppends(st, t, text, w, init);
    }
  }

  /** A cue starting at or after the window end stops the scan with the
      total duration the chained durations give. */
  lemma EmitStops(st: Scan, t: Timestamps, text: string, w: Window, init: Scan)
    requires !st.stopped && Consistent(st, init) && U64(t.start) >= w.end
    ensures Consistent(Emit(st, t, text, w), init)
  {
    var prev := if |st.frames| > 0 then SetDuration(st.frames, t.start - st.lastStart) else [];
    var first := if |st.frames| > 0 then st.firstOffset else t.start;
    PreviousFrameSums(st, t);
    assert Emit(st, t, text, w) == st.(frames := prev, firstOffset := first, t := t,
                                        totalDuration := t.start - first, stopped := true);
  }

  /** A cue inside the window adds a frame that is no key frame and whose
      size is its text's. */
  lemma EmitAppends(st: Scan, t: Timestamps, text: string, w: Window, init: Scan)
    requires !st.stopped && Consistent(st, init) && U64(t.start) < w.end
    ensures Consistent(Emit(st, t, text, w), init)
  {
    var prev := if |st.frames| > 0 then SetDuration(st.frames, t.start - st.lastStart) else [];
    var first := if |st.frames| > 0 then st.firstOffset else t.start;
    PreviousFrameSums(st, t);
    var f := Frame(text, |text|, t.end - t.start, false, 0);
    var e := Emit(st, t, text, w);
    assert e.frames == prev + [f] && e.firstOffset == first && e.lastStart == t.start;
    assert e.totalSize == st.totalSize + |text| && e.firstIndex == st.firstIndex;
    assert !e.stopped && e.totalDuration == st.totalDuration;
    SumsSnoc(prev, f);
    assert AllButLast(prev + [f]) == prev;
    PlainFramesSnoc(prev, f);
  }

  lemma PlainFramesSnoc(frames: seq<Frame>, f: Frame)
    requires PlainFrames(frames) && !f.keyFrame && f.size == |f.text|
    ensures PlainFrames(frames + [f])
  {
  }

  /** Fixing the duration of the previous frame chains the durations up to
      the new start, and leaves the frames before it alone. */
  lemma PreviousFrameFixed(st: Scan, t: Timestamps)
    requires |st.frames| > 0 ==> SumDurations(AllButLast(st.frames)) == st.lastStart - st.firstOffset
    ensures var prev := if |st.frames| > 0 then SetDuration(st.frames, t.start - st.lastStart) else [];
      var first := if |st.frames| > 0 then st.firstOffset else t.start;
      SumDurations(prev) == t.start - first && SumSizes(prev) == SumSizes(st.frames) &&
      |prev| == |st.frames| &&
      (|st.frames| > 0 ==>
         AllButLast(prev) == AllButLast(st.frames) &&
         prev[|prev| - 1].duration == t.start - st.lastStart) &&
      forall k :: 0 <= k < |prev| ==>
        prev[k].keyFrame == st.frames[k].keyFrame && prev[k].size == st.frames[k].size && prev[k].text == st.frames[k].text
  {
    if |st.frames| > 0 {
      var n := |st.frames| - 1;
      var prev := SetDuration(st.frames, t.start - st.lastStart);
      SumsSetDuration(st.frames, t.start - st.lastStart);
      assert AllButLast(prev) == AllButLast(st.frames);
      forall k | 0 <= k < |prev|
        ensures prev[k].keyFrame == st.frames[k].keyFrame && prev[k].size == st.frames[k].size
        ensures prev[k].text == st.frames[k].text
      {
        if k < n {
          assert prev[k] == AllButLast(prev)[k];
        }
      }
    }
  }

  /** The sums and the per-frame fields the invariant needs. */
  lemma PreviousFrameSums(st: Scan, t: Timestamps)
    requires |st.frames| > 0 ==> SumDurations(AllButLast(st.frames)) == st.lastStart - st.firstOffset
    ensures var prev := if |st.frames| > 0 then SetDuration(st.frames, t.start - st.lastStart) else [];
      var first := if |st.frames| > 0 then st.firstOffset else t.start;
      SumDurations(prev) == t.start - first && SumSizes(prev) == SumSizes(st.frames) &&
      (PlainFrames(st.frames) ==> PlainFrames(prev))
  {
    if |st.frames| > 0 {
      SumsSetDuration(st.frames, t.start - st.lastStart);
    }
  }

  lemma CueStepConsistent(st: Scan, c: Cue, w: Window, init: Scan)
    requires ValidCue(c) && Consistent(st, init)
    ensures Consistent(CueStep(st, c, w), init)
  {
    if !st.stopped {
      var x := CueTimes(c, st.t);
      if x.found && !(U64(x.t.end) < w.start) && x.t.start < x.t.end {
        var t' := Timestamps(Clip(x.t.start, w), Clip(x.t.end, w));
        var body := FrameBody(c.p.children, c.style);
        if body.Body? {
          EmitConsistent(st, t', body.text, w, init);
        }
      }
    }
  }

  lemma {:induction false} FoldConsistent(cues: seq<Cue>, st: Scan, w: Window, init: Scan)
    requires ValidCues(cues) && Consistent(st, init)
    ensures Consistent(FoldCues(cues, st, w), init)
  {
    if cues != [] {
      CueStepConsistent(st, cues[0], w, init);
      FoldConsistent(cues[1..], CueStep(st, cues[0], w), w, init);
    }
  }

  /** Once stopped at the window end, the scan ignores every further cue. */
  lemma {:induction false} FoldStopped(cues: seq<Cue>, st: Scan, w: Window)
    requires ValidCues(cues) && st.stopped
    ensures FoldCues(cues, st, w) == st
  {
    if cues != [] {
      FoldStopped(cues[1..], st, w);
    }
  }

  /** What `dfxp_parse_frames` leaves in the track. Stopping at the window
      end, the total duration is the sum of the frame durations; reaching
      the end of the document instead, it exceeds that sum by the gap
      between the last frame's start and the start of the times extracted
      last, and with no frame at all it is left as it was. */
  lemma ParseFramesTotals(doc: Document, w: Window, init: Scan)
    requires init.frames == [] && !init.stopped
    ensures var s := FoldCues(CuesOf(doc), init, w);
            var r := ParseFramesSpec(doc, w, init);
            (forall k :: 0 <= k < |r.frames| ==> !r.frames[k].keyFrame && r.frames[k].size == |r.frames[k].text|) &&
            r.totalSize == init.totalSize + SumSizes(r.frames) &&
            r.firstIndex >= init.firstIndex &&
            (r.stopped ==> r.totalDuration == SumDurations(r.frames)) &&
            (!r.stopped && |r.frames| > 0 ==> r.totalDuration == SumDurations(r.frames) + (s.t.start - s.lastStart)) &&
            (!r.stopped && r.frames == [] ==> r.totalDuration == init.totalDuration)
  {
    var s := FoldCues(CuesOf(doc), init, w);
    FoldConsistent(CuesOf(doc), init, w, init);
    if !s.stopped && |s.frames| > 0 {
      SumsSetDuration(s.frames, s.t.end - s.t.start);
    }
  }

  // ---------------------------------------------------------------------
  // One cue.

  /** The filters one cue passes through: it adds a frame exactly when it
      has times, does not end before the window, is not empty in time,
      renders to a text and starts (clipped) before the window end; that
      frame holds the text and the clipped display time, and only a cue
      ending before the window counts towards the first frame index. */
  lemma CueOutcome(st: Scan, c: Cue, w: Window)
    requires ValidCue(c) && !st.stopped
    ensures var x := CueTimes(c, st.t);
            var r := CueStep(st, c, w);
            var t' := Timestamps(Clip(x.t.start, w), Clip(x.t.end, w));
            var body := FrameBody(c.p.children, c.style);
            var kept := x.found && U64(x.t.end) >= w.start && x.t.start < x.t.end && body.Body?;
            (|r.frames| == |st.frames| + 1 <==> kept && U64(t'.start) < w.end) &&
            (|r.frames| == |st.frames| || |r.frames| == |st.frames| + 1) &&
            (r.stopped <==> kept && U64(t'.start) >= w.end) &&
            r.firstIndex == st.firstIndex + (if x.found && U64(x.t.end) < w.start then 1 else 0) &&
            (!kept ==> r.frames == st.frames && r.firstOffset == st.firstOffset) &&
            (kept && |st.frames| > 0 ==>
               r.frames[..|st.frames| - 1] == st.frames[..|st.frames| - 1] &&
               r.frames[|st.frames| - 1] == st.frames[|st.frames| - 1].(duration := t'.start - st.lastStart) &&
               r.firstOffset == st.firstOffset) &&
            (kept && st.frames == [] ==> r.firstOffset == t'.start) &&
            (|r.frames| == |st.frames| + 1 ==>
               r.frames[|st.frames|] == Frame(body.text, |body.text|, t'.end - t'.start, false, 0) &&
               r.lastStart == t'.start && r.totalSize == st.totalSize + |body.text|)
  {
  }

  /** Where frame `k` of a scan starts: the first offset plus the
      durations of the frames before it. */
  function FrameStart(st: Scan, k: nat): int
    requires k <= |st.frames|
  {
    st.firstOffset + SumDurations(st.frames[..k])
  }

  /** One cue never touches the frames before the last one nor the first
      offset once a frame exists, and only ever adds frames. */
  lemma CueStepKeepsEarlier(st: Scan, c: Cue, w: Window)
    requires ValidCue(c)
    ensures var r := CueStep(st, c, w);
      |r.frames| >= |st.frames| &&
      (|st.frames| > 0 ==>
         r.frames[..|st.frames| - 1] == st.frames[..|st.frames| - 1] && r.firstOffset == st.firstOffset)
  {
    if !st.stopped {
      CueOutcome(st, c, w);
    }
  }

  /** The scan over any cues keeps the frames before the last one and the
      first offset. */
  lemma {:induction false} FoldKeepsEarlier(cues: seq<Cue>, st: Scan, w: Window)
    requires ValidCues(cues)
    ensures var r := FoldCues(cues, st, w);
      |r.frames| >= |st.frames| &&
      (|st.frames| > 0 ==>
         r.frames[..|st.frames| - 1] == st.frames[..|st.frames| - 1] && r.firstOffset == st.firstOffset)
  {
    if cues != [] {
      var st' := CueStep(st, cues[0], w);
      CueStepKeepsEarlier(st, cues[0], w);
      FoldKeepsEarlier(cues[1..], st', w);
      if |st.frames| > 0 {
        var r := FoldCues(cues, st, w);
        var n := |st.frames| - 1;
        assert r.frames[..n] == r.frames[..|st'.frames| - 1][..n];
        assert st'.frames[..n] == st'.frames[..|st'.frames| - 1][..n];
      }
    }
  }

  /** Once a frame is emitted its start, as the track's durations give it,
      is fixed: for a consistent scan the last frame starts at the clipped
      start of its cue (`lastStart`), and no later cue moves it or any
      earlier frame. So each duration before the last is the start of the
      next frame minus the start of its own. */
  lemma FoldKeepsStarts(cues: seq<Cue>, st: Scan, w: Window, init: Scan)
    requires ValidCues(cues) && Consistent(st, init) && |st.frames| > 0
    ensures var r := FoldCues(cues, st, w);
      FrameStart(st, |st.frames| - 1) == st.lastStart && |r.frames| >= |st.frames| &&
      forall k :: 0 <= k < |st.frames| ==> FrameStart(r, k) == FrameStart(st, k)
  {
    var r := FoldCues(cues, st, w);
    var n := |st.frames| - 1;
    FoldKeepsEarlier(cues, st, w);
    assert st.frames[..n] == AllButLast(st.frames);
    forall k | 0 <= k < |st.frames|
      ensures FrameStart(r, k) == FrameStart(st, k)
    {
      assert r.frames[..k] == r.frames[..n][..k];
      assert st.frames[..k] == st.frames[..n][..k];
    }
  }

  // ---------------------------------------------------------------------
  // Clipping.

  /** A window whose base and clip bound are within int64_t range. */
  predicate WindowFits(w: Window) {
    w.base <= Two63 && w.clipTo < Two63
  }

  /** Times within int64_t range on a cue and on its fallback. */
  predicate CueFits(c: Cue) {
    Begin(c.p) < Two63 && End(c.p) < Two63 &&
    (c.lastDiv.Some? ==> Begin(c.lastDiv.value) < Two63 && End(c.lastDiv.value) < Two63)
  }

  /** Clipped times lie between 0 and the clip bound. */
  lemma ClipRange(v: int, w: Window)
    requires WindowFits(w)
    ensures 0 <= Clip(v, w) <= w.clipTo
  {
  }

  /** Without wrap-around clipping keeps times in order. */
  lemma ClipOrdered(a: int, b: int, w: Window)
    requires WindowFits(w) && 0 <= a <= b < Two63
    ensures Clip(a, w) <= Clip(b, w)
  {
    assert S64(a - w.base) == a - w.base;
    assert S64(b - w.base) == b - w.base;
    ClampMonotone(a - w.base, b - w.base, 0, S64(w.clipTo));
  }

  /** Every frame's display time lies within the clip bound. */
  predicate FramesFit(frames: seq<Frame>, w: Window) {
    forall k :: 0 <= k < |frames| ==> 0 <= frames[k].ptsDelay <= w.clipTo
  }

  /** Found times of a fitting cue are within int64_t range. */
  lemma CueTimesFit(c: Cue, t: Timestamps)
    requires CueFits(c) && CueTimes(c, t).found
    ensures 0 <= CueTimes(c, t).t.start && CueTimes(c, t).t.end < Two63
  {
    var own := ExtractTime(c.p, t, false);
    if !own.found {
      var d := ExtractTime(c.lastDiv.value, own.t, false);
      assert d.t == Timestamps(Begin(c.lastDiv.value), End(c.lastDiv.value));
    }
  }

  lemma EmitFits(st: Scan, t: Timestamps, text: string, w: Window)
    requires 0 <= t.start <= t.end <= w.clipTo && FramesFit(st.frames, w)
    ensures FramesFit(Emit(st, t, text, w).frames, w)
  {
    var r := Emit(st, t, text, w);
    var prev := if |st.frames| > 0 then SetDuration(st.frames, t.start - st.lastStart) else [];
    assert FramesFit(prev, w);
  }

  lemma CueStepFits(st: Scan, c: Cue, w: Window)
    requires ValidCue(c) && CueFits(c) && WindowFits(w) && FramesFit(st.frames, w)
    ensures FramesFit(CueStep(st, c, w).frames, w)
  {
    if !st.stopped {
      var x := CueTimes(c, st.t);
      if x.found && !(U64(x.t.end) < w.start) && x.t.start < x.t.end {
        CueTimesFit(c, st.t);
        var t' := Timestamps(Clip(x.t.start, w), Clip(x.t.end, w));
        ClipOrdered(x.t.start, x.t.end, w);
        ClipRange(x.t.start, w);
        ClipRange(x.t.end, w);
        var body := FrameBody(c.p.children, c.style);
        if body.Body? {
          EmitFits(st, t', body.text, w);
        }
      }
    }
  }

  lemma {:induction false} FoldFits(cues: seq<Cue>, st: Scan, w: Window)
    requires ValidCues(cues) && WindowFits(w) && FramesFit(st.frames, w)
    requires forall k :: 0 <= k < |cues| ==> CueFits(cues[k])
    ensures FramesFit(FoldCues(cues, st, w).frames, w)
  {
    if cues != [] {
      CueStepFits(st, cues[0], w);
      FoldFits(cues[1..], CueStep(st, cues[0], w), w);
    }
  }

  // ---------------------------------------------------------------------
  // The duration of the last frame.

  /** As written, the end of the walk takes the last frame's duration and
      the total from the times extracted last. A later `p` that yields no
      frame (here one without `begin`) has overwritten them with its own,
      so the last frame lasts 0 instead of 1000 and the total becomes -1. */
  lemma TrailingUntimedCue(w: Window)
    ensures var st := Scan(Timestamps(0, 1000), [Frame("a", 1, 1000, false, 0)], 0, 0, 0, 0, 1, false);
            var c := Cue(Element("p", map[], []), ZeroStyle, None);
            var st' := CueStep(st, c, w);
            Finish(st).frames == [Frame("a", 1, 1000, false, 1000)] && Finish(st).totalDuration == 1000 &&
            st' == st.(t := Timestamps(-1, -1)) &&
            Finish(st').frames == [Frame("a", 1, 1000, false, 0)] && Finish(st').totalDuration == -1
  {
    var st := Scan(Timestamps(0, 1000), [Frame("a", 1, 1000, false, 0)], 0, 0, 0, 0, 1, false);
    var p := Element("p", map[], []);
    assert GetProp(p, "begin").None? && GetProp(p, "end").None?;
    assert CueTimes(Cue(p, ZeroStyle, None), st.t) == Extraction(false, Timestamps(-1, -1));
  }
}
