/** `dfxp_parse_frames`: the iterative walk with its explicit stack, the
    per-cue timing and clipping, and the track fields it fills in, proved
    to compute the scan of the cues of the document. */
module Frames {
  import opened XmlTree
  import opened TimeRange
  import opened Styles
  import opened Render
  import opened Cues
  import CueProps

  /** The fields of media_track_t the frame extractor writes. */
  class Track {
    var frames: seq<Frame>
    var frameCount: nat
    var firstFrameIndex: int
    var firstFrameTimeOffset: int
    var totalFramesDuration: int
    var totalFramesSize: int

    constructor (firstIndex: int, firstOffset: int, totalDuration: int, totalSize: int)
      ensures frames == [] && frameCount == 0
      ensures firstFrameIndex == firstIndex && firstFrameTimeOffset == firstOffset
      ensures totalFramesDuration == totalDuration && totalFramesSize == totalSize
    {
      frames, frameCount := [], 0;
      firstFrameIndex, firstFrameTimeOffset := firstIndex, firstOffset;
      totalFramesDuration, totalFramesSize := totalDuration, totalSize;
    }

    /** The scan as it starts from this track. */
    function Initial(): Scan
      reads this
    {
      InitialScan(firstFrameIndex, firstFrameTimeOffset, totalFramesDuration, totalFramesSize)
    }

    /** The scan as it stands, with the walk's locals. */
    function Now(t: Timestamps, fs: seq<Frame>, lastStart: int, stopped: bool): Scan
      reads this
    {
      Scan(t, fs, lastStart, firstFrameIndex, firstFrameTimeOffset, totalFramesDuration, totalFramesSize, stopped)
    }
  }

  // ---------------------------------------------------------------------
  // The walk's stack.

  /** A stack slot: the entered element `sibs[idx]` and its style. */
  datatype Entry = Entry(sibs: seq<Node>, idx: nat, style: Style)

  predicate ValidEntries(es: seq<Entry>) {
    forall k :: 0 <= k < |es| ==> es[k].idx < |es[k].sibs| && ValidStyle(es[k].style)
  }

  /** The style an element at the current depth inherits. */
  function Parent(es: seq<Entry>): (s: Style)
    requires ValidEntries(es)
    ensures ValidStyle(s)
  {
    if es == [] then ZeroStyle else es[|es| - 1].style
  }

  /** `last_div` after popping the entry of `n`. */
  function Popped(lastDiv: Option<Node>, n: Node): Option<Node> {
    if lastDiv == Some(n) then None else lastDiv
  }

  /** The cues the walk still has to meet from a state where `cur[i..]`
      remains of the current run, `es` is on the stack and `lastDiv` is in
      force. */
  function Resume(cur: seq<Node>, i: nat, es: seq<Entry>, lastDiv: Option<Node>): (r: seq<Cue>)
    requires i <= |cur| && ValidEntries(es)
    ensures ValidCues(r)
    decreases |es|
  {
    var run := WalkRun(cur[i..], |es|, Parent(es), lastDiv);
    if es == [] then run.cues
    else
      var e := es[|es| - 1];
      run.cues + Resume(e.sibs, e.idx + 1, es[..|es| - 1], Popped(run.lastDiv, e.sibs[e.idx]))
  }

  function EntriesSize(es: seq<Entry>): nat
    requires ValidEntries(es)
  {
    if es == [] then 0
    else
      var e := es[|es| - 1];
      SeqSize(e.sibs[e.idx + 1..]) + EntriesSize(es[..|es| - 1])
  }

  /** Twice the nodes still to meet, plus the depth. */
  function Measure(cur: seq<Node>, i: nat, es: seq<Entry>): nat
    requires i <= |cur| && ValidEntries(es)
  {
    2 * (SeqSize(cur[i..]) + EntriesSize(es)) + |es|
  }

  lemma Assoc(a: seq<Cue>, b: seq<Cue>, c: seq<Cue>)
    ensures (a + b) + c == a + (b + c)
  {
  }

  /** `cur_node == NULL` with a non-empty stack: the top entry is popped. */
  lemma ResumePop(cur: seq<Node>, es: seq<Entry>, lastDiv: Option<Node>)
    requires |es| > 0 && ValidEntries(es)
    ensures ValidEntries(es[..|es| - 1])
    ensures var e := es[|es| - 1];
      Resume(cur, |cur|, es, lastDiv) == Resume(e.sibs, e.idx + 1, es[..|es| - 1], Popped(lastDiv, e.sibs[e.idx])) &&
      Measure(e.sibs, e.idx + 1, es[..|es| - 1]) < Measure(cur, |cur|, es)
  {
    assert cur[|cur|..] == [];
  }

  /** A run from its `i`-th node: that node's walk, then the rest's. */
  lemma WalkRunAt(cur: seq<Node>, i: nat, d: nat, p: Style, lastDiv: Option<Node>)
    requires i < |cur| && ValidStyle(p)
    ensures var a := WalkNode(cur[i], d, p, lastDiv);
      var b := WalkRun(cur[i + 1..], d, p, a.lastDiv);
      WalkRun(cur[i..], d, p, lastDiv) == WalkOut(a.cues + b.cues, b.lastDiv)
  {
    assert cur[i..][1..] == cur[i + 1..];
  }

  /** Passing a node lowers the measure. */
  lemma MeasureNext(cur: seq<Node>, i: nat, es: seq<Entry>)
    requires i < |cur| && ValidEntries(es)
    ensures Measure(cur, i + 1, es) < Measure(cur, i, es)
  {
    SeqSizeAt(cur, i);
  }

  /** The run's next node is met without entering it. */
  lemma ResumeNext(cur: seq<Node>, i: nat, es: seq<Entry>, lastDiv: Option<Node>)
    requires i < |cur| && ValidEntries(es)
    ensures var a := WalkNode(cur[i], |es|, Parent(es), lastDiv);
      Resume(cur, i, es, lastDiv) == a.cues + Resume(cur, i + 1, es, a.lastDiv) &&
      Measure(cur, i + 1, es) < Measure(cur, i, es)
  {
    var d, p := |es|, Parent(es);
    var a := WalkNode(cur[i], d, p, lastDiv);
    var b := WalkRun(cur[i + 1..], d, p, a.lastDiv);
    WalkRunAt(cur, i, d, p, lastDiv);
    MeasureNext(cur, i, es);
    ResumeSplit(cur, i, es, lastDiv);
    ResumeSplit(cur, i + 1, es, a.lastDiv);
    Assoc(a.cues, b.cues, Unwound(es, b.lastDiv));
  }

  /** What the saved entries still yield once the current run is done
      and has left `lastDiv`. */
  function Unwound(es: seq<Entry>, lastDiv: Option<Node>): seq<Cue>
    requires ValidEntries(es)
  {
    if es == [] then []
    else
      var e := es[|es| - 1];
      Resume(e.sibs, e.idx + 1, es[..|es| - 1], Popped(lastDiv, e.sibs[e.idx]))
  }

  /** The walk from a point is the rest of the current run, then the
      unwinding of the saved entries. */
  lemma ResumeSplit(cur: seq<Node>, i: nat, es: seq<Entry>, lastDiv: Option<Node>)
    requires i <= |cur| && ValidEntries(es)
    ensures var run := WalkRun(cur[i..], |es|, Parent(es), lastDiv);
      Resume(cur, i, es, lastDiv) == run.cues + Unwound(es, run.lastDiv)
  {
  }

  /** Whether the walk enters element `n` met at depth `depth`. */
  predicate Enters(n: Node, depth: nat) {
    n.Element? && n.name != "p" && n.children != [] && depth < MaxDepth
  }

  /** An entered element yields what its children yield, and its own
      `div` fallback is dropped when it is left. */
  lemma WalkEntered(n: Node, d: nat, p: Style, lastDiv: Option<Node>)
    requires Enters(n, d) && ValidStyle(p)
    ensures var inner := WalkRun(n.children, d + 1, NodeStyle(n, p), if n.name == "div" then Some(n) else lastDiv);
      WalkNode(n, d, p, lastDiv) == WalkOut(inner.cues, Popped(inner.lastDiv, n))
  {
  }

  /** Inside a just entered element: its children, then, once its entry is
      popped, the rest of the enclosing run. */
  lemma ResumeInside(cur: seq<Node>, i: nat, es: seq<Entry>, s: Style, ld: Option<Node>)
    requires i < |cur| && ValidEntries(es) && ValidStyle(s) && cur[i].Element?
    ensures ValidEntries(es + [Entry(cur, i, s)])
    ensures var inner := WalkRun(cur[i].children, |es| + 1, s, ld);
      Resume(cur[i].children, 0, es + [Entry(cur, i, s)], ld)
        == inner.cues + Resume(cur, i + 1, es, Popped(inner.lastDiv, cur[i]))
  {
    var es' := es + [Entry(cur, i, s)];
    assert es'[..|es|] == es;
    assert cur[i].children[0..] == cur[i].children;
  }

  /** Entering lowers the measure: the element's own size is more than its
      children's. */
  lemma MeasurePush(cur: seq<Node>, i: nat, es: seq<Entry>, s: Style)
    requires i < |cur| && ValidEntries(es) && ValidStyle(s) && cur[i].Element?
    ensures ValidEntries(es + [Entry(cur, i, s)])
    ensures Measure(cur[i].children, 0, es + [Entry(cur, i, s)]) < Measure(cur, i, es)
  {
    var es' := es + [Entry(cur, i, s)];
    assert es'[..|es|] == es;
    assert cur[i].children[0..] == cur[i].children;
    assert EntriesSize(es') == SeqSize(cur[i + 1..]) + EntriesSize(es);
    SeqSizeAt(cur, i);
  }

  /** The run's next node is an element whose children are entered. */
  lemma ResumePush(cur: seq<Node>, i: nat, es: seq<Entry>, lastDiv: Option<Node>)
    requires i < |cur| && ValidEntries(es) && Enters(cur[i], |es|)
    ensures var n := cur[i];
      var e := Entry(cur, i, NodeStyle(n, Parent(es)));
      var ld := if n.name == "div" then Some(n) else lastDiv;
      ValidEntries(es + [e]) &&
      Resume(cur, i, es, lastDiv) == Resume(n.children, 0, es + [e], ld) &&
      Measure(n.children, 0, es + [e]) < Measure(cur, i, es)
  {
    var n := cur[i];
    var p := Parent(es);
    var s := NodeStyle(n, p);
    var ld := if n.name == "div" then Some(n) else lastDiv;
    WalkEntered(n, |es|, p, lastDiv);
    ResumeNext(cur, i, es, lastDiv);
    ResumeInside(cur, i, es, s, ld);
    MeasurePush(cur, i, es, s);
  }

  /** The scan of a cue followed by more cues. */
  lemma FoldCons(c: Cue, rest: seq<Cue>, st: Scan, w: Window)
    requires ValidCue(c) && ValidCues(rest)
    ensures ValidCues([c] + rest)
    ensures FoldCues([c] + rest, st, w) == FoldCues(rest, CueStep(st, c, w), w)
  {
    assert ([c] + rest)[1..] == rest;
  }

  // ---------------------------------------------------------------------
  // The steps of the walk.

  /** The shape of the walk's state: the stack holds valid entries within
      its bound, and at depth 0 the run is the root alone. */
  ghost predicate WalkShape(cur: seq<Node>, i: nat, es: seq<Entry>) {
    i <= |cur| && ValidEntries(es) && |es| <= MaxDepth &&
    (es == [] ==> |cur| <= 1) &&
    (es != [] ==> |es[0].sibs| <= 1)
  }

  /** The root is met with the zeroed style. */
  ghost predicate AtRoot(cur: seq<Node>, i: nat, es: seq<Entry>, style: Style) {
    es == [] && i < |cur| ==> style == ZeroStyle
  }

  /** Stores `e` in the first free slot of the stack holding `es`. */
  method PushEntry(stack: array<Entry>, depth: nat, e: Entry, ghost es: seq<Entry>)
    requires depth < stack.Length && stack[..depth] == es
    modifies stack
    ensures stack[..depth + 1] == es + [e]
  {
    stack[depth] := e;
    assert stack[..depth + 1] == stack[..depth] + [e];
  }

  /** `cur_node == NULL` with a non-empty stack: resume after the element
      on top of it, restoring its style and clearing `last_div` if it was
      that element. */
  method PopStep(stack: array<Entry>, cur: seq<Node>, depth: nat, style: Style, lastDiv: Option<Node>, ghost es: seq<Entry>)
      returns (cur': seq<Node>, i': nat, depth': nat, style': Style, lastDiv': Option<Node>, ghost es': seq<Entry>)
    requires 0 < depth == |es| <= stack.Length && stack[..depth] == es
    requires WalkShape(cur, |cur|, es)
    ensures depth' == |es'| < depth && stack[..depth'] == es'
    ensures WalkShape(cur', i', es') && AtRoot(cur', i', es', style')
    ensures Resume(cur', i', es', lastDiv') == Resume(cur, |cur|, es, lastDiv)
    ensures Measure(cur', i', es') < Measure(cur, |cur|, es)
  {
    ResumePop(cur, es, lastDiv);
    depth' := depth - 1;
    var e := stack[depth'];
    cur', i', style' := e.sibs, e.idx + 1, e.style;
    lastDiv' := if lastDiv == Some(e.sibs[e.idx]) then None else lastDiv;
    es' := es[..depth'];
  }

  /** A node that is not an element: passed over. */
  method SkipStep(cur: seq<Node>, i: nat, style: Style, lastDiv: Option<Node>, ghost es: seq<Entry>) returns (i': nat)
    requires i < |cur| && !cur[i].Element? && WalkShape(cur, i, es)
    ensures WalkShape(cur, i', es) && AtRoot(cur, i', es, style)
    ensures Resume(cur, i', es, lastDiv) == Resume(cur, i, es, lastDiv)
    ensures Measure(cur, i', es) < Measure(cur, i, es)
  {
    ResumeNext(cur, i, es, lastDiv);
    i' := i + 1;
  }

  /** An element other than `p`, whose style `style` has been worked out:
      entered when it has children and the stack has room (a `div`
      becoming `last_div`), passed over otherwise. */
  method EnterStep(stack: array<Entry>, cur: seq<Node>, i: nat, depth: nat, style: Style, lastDiv: Option<Node>,
                   ghost es: seq<Entry>)
      returns (cur': seq<Node>, i': nat, depth': nat, lastDiv': Option<Node>, ghost es': seq<Entry>)
    requires i < |cur| && cur[i].Element? && cur[i].name != "p"
    requires WalkShape(cur, i, es) && style == NodeStyle(cur[i], Parent(es))
    requires depth == |es| && stack.Length == MaxDepth && stack[..depth] == es
    modifies stack
    ensures depth' == |es'| <= MaxDepth && stack[..depth'] == es'
    ensures WalkShape(cur', i', es') && AtRoot(cur', i', es', style)
    ensures Resume(cur', i', es', lastDiv') == Resume(cur, i, es, lastDiv)
    ensures Measure(cur', i', es') < Measure(cur, i, es)
  {
    var n := cur[i];
    if n.children == [] || depth == MaxDepth {
      ResumeNext(cur, i, es, lastDiv);
      cur', i', depth', lastDiv', es' := cur, i + 1, depth, lastDiv, es;
    } else {
      ResumePush(cur, i, es, lastDiv);
      lastDiv' := if n.name == "div" then Some(n) else lastDiv;
      var e := Entry(cur, i, style);
      PushEntry(stack, depth, e, es);
      es' := es + [e];
      depth' := depth + 1;
      cur', i' := n.children, 0;
      assert es'[0] == if es == [] then e else es[0];
    }
  }

  /** `dfxp_extract_time` on the `p`, and on `last_div` when that fails. */
  method ExtractCueTimes(p: Node, lastDiv: Option<Node>, t: Timestamps, ghost style: Style) returns (x: Extraction)
    ensures x == CueTimes(Cue(p, style, lastDiv), t)
  {
    x := ExtractTime(p, t, false);
    if !x.found && lastDiv.Some? {
      x := ExtractTime(lastDiv.value, x.t, false);
    }
  }

  /** A cue with a text: the duration of the frame before it (or the
      track's first offset) is fixed, then the scan either ends at the
      window end, setting the total duration, or appends the frame. */
  method EmitFrame(track: Track, ghost t0: Timestamps, t: Timestamps, text: string, w: Window,
                   frames: seq<Frame>, lastStart: int)
      returns (frames': seq<Frame>, lastStart': int, stop: bool)
    modifies track`firstFrameIndex, track`firstFrameTimeOffset, track`totalFramesDuration, track`totalFramesSize
    ensures track.Now(t, frames', lastStart', stop) == Emit(old(track.Now(t0, frames, lastStart, false)), t, text, w)
  {
    frames', lastStart', stop := frames, lastStart, false;
    if |frames| > 0 {
      frames' := frames[..|frames| - 1] + [frames[|frames| - 1].(duration := t.start - lastStart)];
    } else {
      track.firstFrameTimeOffset := t.start;
    }
    if U64(t.start) >= w.end {
      track.totalFramesDuration := t.start - track.firstFrameTimeOffset;
      stop := true;
      return;
    }
    frames' := frames' + [Frame(text, |text|, t.end - t.start, false, 0)];
    track.totalFramesSize := track.totalFramesSize + |text|;
    lastStart' := t.start;
  }

  /** The times of a `p` and the frame it becomes: the `p`'s own times,
      else those of `last_div`; a cue that ends before the window counts
      towards `first_frame_index`; a non-empty one is clipped, rendered
      and emitted. */
  method TakeCue(track: Track, p: Node, style: Style, lastDiv: Option<Node>, w: Window,
                 t: Timestamps, frames: seq<Frame>, lastStart: int)
      returns (t': Timestamps, frames': seq<Frame>, lastStart': int, stop: bool)
    requires p.Element? && ValidStyle(style)
    modifies track`firstFrameIndex, track`firstFrameTimeOffset, track`totalFramesDuration, track`totalFramesSize
    ensures track.Now(t', frames', lastStart', stop)
         == CueStep(old(track.Now(t, frames, lastStart, false)), Cue(p, style, lastDiv), w)
  {
    var x := ExtractCueTimes(p, lastDiv, t, style);
    t', frames', lastStart', stop := TimedCue(track, p, style, lastDiv, w, t, x, frames, lastStart);
  }

  /** The cue once its times are extracted. */
  method TimedCue(track: Track, p: Node, style: Style, ghost lastDiv: Option<Node>, w: Window,
                  ghost t: Timestamps, x: Extraction, frames: seq<Frame>, lastStart: int)
      returns (t': Timestamps, frames': seq<Frame>, lastStart': int, stop: bool)
    requires p.Element? && ValidStyle(style)
    modifies track`firstFrameIndex, track`firstFrameTimeOffset, track`totalFramesDuration, track`totalFramesSize
    ensures track.Now(t', frames', lastStart', stop)
         == TimedStep(old(track.Now(t, frames, lastStart, false)), x, Cue(p, style, lastDiv), w)
  {
    t', frames', lastStart', stop := x.t, frames, lastStart, false;
    if !x.found {
      return;
    }
    var before := EndsBefore(x.t, w);
    if before {
      track.firstFrameIndex := track.firstFrameIndex + 1;
      return;
    }
    if x.t.start >= x.t.end {
      return;
    }
    t', frames', lastStart', stop := ClipAndEmit(track, p, style, lastDiv, t, x.t, w, frames, lastStart);
  }

  /** `(uint64_t)t.end_time < start`. */
  method EndsBefore(t: Timestamps, w: Window) returns (b: bool)
    ensures b == (U64(t.end) < w.start)
  {
    b := U64(t.end) < w.start;
  }

  /** `dfxp_clamp(v - base_time, 0, clip_to)`. */
  method ClipTime(v: int, w: Window) returns (r: int)
    ensures r == Clip(v, w)
  {
    r := Clamp(S64(v - w.base), 0, S64(w.clipTo));
  }

  /** A cue whose times overlap the window: they are clipped to it, and
      the cue becomes a frame when it has a text. */
  method ClipAndEmit(track: Track, p: Node, style: Style, ghost lastDiv: Option<Node>, ghost t0: Timestamps, t: Timestamps, w: Window,
                     frames: seq<Frame>, lastStart: int)
      returns (t': Timestamps, frames': seq<Frame>, lastStart': int, stop: bool)
    requires p.Element? && ValidStyle(style)
    modifies track`firstFrameIndex, track`firstFrameTimeOffset, track`totalFramesDuration, track`totalFramesSize
    ensures track.Now(t', frames', lastStart', stop) == ClipStep(old(track.Now(t0, frames, lastStart, false)), t, Cue(p, style, lastDiv), w)
  {
    frames', lastStart', stop := frames, lastStart, false;
    var start := ClipTime(t.start, w);
    var end := ClipTime(t.end, w);
    t' := Timestamps(start, end);
    var body := GetFrameBody(p.children, style);
    if body.Body? {
      frames', lastStart', stop := EmitFrame(track, t0, t', body.text, w, frames, lastStart);
    }
  }

  /** The style of element `n`: the parent entry's style (the current one
      at depth 0), with `n`'s own attributes applied when it may carry
      them. */
  method ElementStyle(stack: array<Entry>, depth: nat, style: Style, n: Node, ghost cur: seq<Node>, ghost i: nat,
                      ghost es: seq<Entry>)
      returns (s: Style)
    requires WalkShape(cur, i, es) && AtRoot(cur, i, es, style) && i < |cur| && n == cur[i]
    requires depth == |es| <= stack.Length && stack[..depth] == es
    ensures s == NodeStyle(n, Parent(es)) && ValidStyle(s)
  {
    s := style;
    if depth > 0 {
      s := stack[depth - 1].style;
    }
    StyleOfValid(n, s);
    if CanContainStyle(n) {
      s := ParseStyle(n, s);
    }
  }

  /** A `p`: its cue is scanned and the walk moves past it. */
  method CueBranch(track: Track, cur: seq<Node>, i: nat, style: Style, lastDiv: Option<Node>, w: Window,
                   t: Timestamps, frames: seq<Frame>, lastStart: int, ghost es: seq<Entry>)
      returns (t': Timestamps, frames': seq<Frame>, lastStart': int, stop: bool)
    requires WalkShape(cur, i, es) && i < |cur| && IsElementNamed(cur[i], "p")
    requires style == NodeStyle(cur[i], Parent(es)) && ValidStyle(style)
    modifies track`firstFrameIndex, track`firstFrameTimeOffset, track`totalFramesDuration, track`totalFramesSize
    ensures FoldCues(Resume(cur, i + 1, es, lastDiv), track.Now(t', frames', lastStart', stop), w)
         == old(FoldCues(Resume(cur, i, es, lastDiv), track.Now(t, frames, lastStart, false), w))
    ensures Measure(cur, i + 1, es) < Measure(cur, i, es)
  {
    ghost var c := Cue(cur[i], style, lastDiv);
    ghost var rest := Resume(cur, i + 1, es, lastDiv);
    ResumeNext(cur, i, es, lastDiv);
    assert Resume(cur, i, es, lastDiv) == [c] + rest;
    FoldCons(c, rest, track.Now(t, frames, lastStart, false), w);
    t', frames', lastStart', stop := TakeCue(track, cur[i], style, lastDiv, w, t, frames, lastStart);
    if stop {
      CueProps.FoldStopped(rest, track.Now(t', frames', lastStart', true), w);
    }
  }

  /** One turn of the loop of `dfxp_parse_frames`: pop the stack at the
      end of a run, pass over a node that is not an element, or handle an
      element. */
  method WalkStep(track: Track, stack: array<Entry>, cur: seq<Node>, i: nat, depth: nat, style: Style,
                  lastDiv: Option<Node>, w: Window, t: Timestamps, frames: seq<Frame>, lastStart: int,
                  ghost es: seq<Entry>)
      returns (cur': seq<Node>, i': nat, depth': nat, style': Style, lastDiv': Option<Node>,
               t': Timestamps, frames': seq<Frame>, lastStart': int, stop: bool, ghost es': seq<Entry>)
    requires i < |cur| || depth > 0
    requires WalkShape(cur, i, es) && AtRoot(cur, i, es, style)
    requires depth == |es| <= MaxDepth == stack.Length && stack[..depth] == es
    modifies track`firstFrameIndex, track`firstFrameTimeOffset, track`totalFramesDuration, track`totalFramesSize, stack
    ensures depth' == |es'| <= MaxDepth && stack[..depth'] == es'
    ensures WalkShape(cur', i', es') && AtRoot(cur', i', es', style')
    ensures FoldCues(Resume(cur', i', es', lastDiv'), track.Now(t', frames', lastStart', stop), w)
         == old(FoldCues(Resume(cur, i, es, lastDiv), track.Now(t, frames, lastStart, false), w))
    ensures Measure(cur', i', es') < Measure(cur, i, es)
  {
    t', frames', lastStart', stop := t, frames, lastStart, false;
    if i == |cur| {
      cur', i', depth', style', lastDiv', es' := PopStep(stack, cur, depth, style, lastDiv, es);
    } else if !cur[i].Element? {
      i' := SkipStep(cur, i, style, lastDiv, es);
      cur', depth', style', lastDiv', es' := cur, depth, style, lastDiv, es;
    } else {
      cur', i', depth', style', lastDiv', t', frames', lastStart', stop, es' :=
        ElementStep(track, stack, cur, i, depth, style, lastDiv, w, t, frames, lastStart, es);
    }
  }

  /** An element: its style is worked out, then a `p` is scanned and any
      other element entered or passed over. */
  method ElementStep(track: Track, stack: array<Entry>, cur: seq<Node>, i: nat, depth: nat, style: Style,
                     lastDiv: Option<Node>, w: Window, t: Timestamps, frames: seq<Frame>, lastStart: int,
                     ghost es: seq<Entry>)
      returns (cur': seq<Node>, i': nat, depth': nat, style': Style, lastDiv': Option<Node>,
               t': Timestamps, frames': seq<Frame>, lastStart': int, stop: bool, ghost es': seq<Entry>)
    requires WalkShape(cur, i, es) && AtRoot(cur, i, es, style) && i < |cur| && cur[i].Element?
    requires depth == |es| && stack.Length == MaxDepth && stack[..depth] == es
    modifies track`firstFrameIndex, track`firstFrameTimeOffset, track`totalFramesDuration, track`totalFramesSize, stack
    ensures depth' == |es'| <= MaxDepth && stack[..depth'] == es'
    ensures WalkShape(cur', i', es') && AtRoot(cur', i', es', style')
    ensures FoldCues(Resume(cur', i', es', lastDiv'), track.Now(t', frames', lastStart', stop), w)
         == old(FoldCues(Resume(cur, i, es, lastDiv), track.Now(t, frames, lastStart, false), w))
    ensures Measure(cur', i', es') < Measure(cur, i, es)
  {
    style' := ElementStyle(stack, depth, style, cur[i], cur, i, es);
    t', frames', lastStart', stop := t, frames, lastStart, false;
    if cur[i].name != "p" {
      cur', i', depth', lastDiv', es' := EnterStep(stack, cur, i, depth, style', lastDiv, es);
    } else {
      t', frames', lastStart', stop := CueBranch(track, cur, i, style', lastDiv, w, t, frames, lastStart, es);
      cur', i', depth', lastDiv', es' := cur, i + 1, depth, lastDiv, es;
    }
  }

  /** `dfxp_parse_frames`. Without the all-frames flag the track is left
      alone; otherwise every `p` the walk meets is scanned against the
      window, and the track ends up holding exactly the scan of the
      document's cues. */
  method ParseFrames(track: Track, doc: Document, framesAll: bool, relative: bool,
                     rangeStart: UInt64, rangeEnd: UInt64, clipFrom: UInt64, clipTo: UInt64)
    modifies track
    ensures !framesAll ==> unchanged(track)
    ensures framesAll ==>
      var r := ParseFramesSpec(doc, WindowOf(relative, rangeStart, rangeEnd, clipFrom, clipTo), old(track.Initial()));
      track.frames == r.frames && track.frameCount == |r.frames| &&
      track.firstFrameIndex == r.firstIndex && track.firstFrameTimeOffset == r.firstOffset &&
      track.totalFramesDuration == r.totalDuration && track.totalFramesSize == r.totalSize
  {
    if !framesAll {
      return;
    }
    var w := WindowOf(relative, rangeStart, rangeEnd, clipFrom, clipTo);
    ghost var target := FoldCues(CuesOf(doc), track.Initial(), w);

    var stack := new Entry[MaxDepth](_ => Entry([], 0, ZeroStyle));
    ghost var es: seq<Entry> := [];
    var cur := TopLevel(doc);
    var i: nat, depth: nat := 0, 0;
    var style := ZeroStyle;
    var lastDiv: Option<Node> := None;
    var t := Timestamps(0, 0);
    var frames: seq<Frame> := [];
    var lastStart := 0;
    var stopped := false;
    assert cur[0..] == cur;

    while (i < |cur| || depth > 0) && !stopped
      invariant depth == |es| <= MaxDepth == stack.Length && stack[..depth] == es
      invariant WalkShape(cur, i, es) && AtRoot(cur, i, es, style)
      invariant FoldCues(Resume(cur, i, es, lastDiv), track.Now(t, frames, lastStart, stopped), w) == target
      decreases Measure(cur, i, es), if stopped then 0 else 1
    {
      cur, i, depth, style, lastDiv, t, frames, lastStart, stopped, es :=
        WalkStep(track, stack, cur, i, depth, style, lastDiv, w, t, frames, lastStart, es);
    }
    if stopped {
      CueProps.FoldStopped(Resume(cur, i, es, lastDiv), track.Now(t, frames, lastStart, true), w);
    } else {
      assert cur[i..] == [];
    }
    Finalize(track, t, frames, lastStart, stopped);
  }

  /** The end of `dfxp_parse_frames`: reaching the end of the document, the
      last frame is given the duration of the times extracted last and the
      total runs to their end; then the frames are stored in the track. */
  method Finalize(track: Track, t: Timestamps, frames: seq<Frame>, lastStart: int, stopped: bool)
    modifies track
    ensures var r := Finish(old(track.Now(t, frames, lastStart, stopped)));
      track.frames == r.frames && track.frameCount == |r.frames| &&
      track.firstFrameIndex == r.firstIndex && track.firstFrameTimeOffset == r.firstOffset &&
      track.totalFramesDuration == r.totalDuration && track.totalFramesSize == r.totalSize
  {
    var fs := frames;
    if !stopped && |fs| > 0 {
      fs := fs[..|fs| - 1] + [fs[|fs| - 1].(duration := t.end - t.start)];
      track.totalFramesDuration := t.end - track.firstFrameTimeOffset;
    }
    track.frames := fs;
    track.frameCount := |fs|;
  }
}
