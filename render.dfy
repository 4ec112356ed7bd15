/** The cue text renderer: `dfxp_append_string` / `dfxp_fake_append_string`
    (one output cursor in writing or counting mode), `dfxp_append_style`,
    `dfxp_append_text_content` (a bounded-stack walk over `span`, `br` and
    text nodes) and `dfxp_get_frame_body` (measure, allocate, write, tidy
    the leading whitespace). */
module Render {
  import opened XmlTree
  import opened Styles

  /** DECORATION_SCRATCH_SPACE: room allocated beyond the measured text. */
  const ScratchSpace: nat := 64

  /** The output pointer `p` threaded through the renderer. In counting
      mode only the position advances (`dfxp_fake_append_string`); in
      writing mode the bytes are also stored into `buf`
      (`dfxp_append_string`). `written` is everything appended so far. */
  class Writer {
    const counting: bool
    const buf: array<char>
    var pos: nat
    ghost var written: string

    ghost predicate Valid()
      reads this, buf
    {
      pos == |written| && (!counting ==> pos <= buf.Length && buf[..pos] == written)
    }

    /** Whether `s` fits at the current position. */
    ghost predicate Fits(s: string)
      reads this, buf
    {
      counting || pos + |s| <= buf.Length
    }

    /** The counting cursor, started at address 0. */
    constructor Counting()
      ensures Valid() && counting && pos == 0 && written == [] && fresh(buf)
    {
      counting := true;
      buf := new char[0];
      pos := 0;
      written := [];
    }

    /** A writing cursor over a fresh buffer of `size` bytes. */
    constructor Writing(size: nat)
      ensures Valid() && !counting && pos == 0 && written == []
      ensures buf.Length == size && fresh(buf)
    {
      counting := false;
      buf := new char[size];
      pos := 0;
      written := [];
    }

    /** `dfxp_append_string` or `dfxp_fake_append_string`. */
    method Append(s: string)
      requires Valid() && Fits(s)
      modifies this, buf
      ensures Valid()
      ensures written == old(written) + s
    {
      if counting {
        pos := pos + |s|;
      } else {
        var k := 0;
        while k < |s|
          invariant 0 <= k <= |s| && pos == old(pos) + k && pos + |s| - k <= buf.Length
          invariant written == old(written)
          invariant buf[..pos] == old(written) + s[..k]
        {
          buf[pos] := s[k];
          assert s[..k + 1] == s[..k] + [s[k]];
          pos := pos + 1;
          k := k + 1;
        }
        assert s[..|s|] == s;
      }
      written := written + s;
    }
  }

  /** `dfxp_append_style`: the cue settings of the style. */
  method AppendStyle(w: Writer, s: Style)
    requires ValidStyle(s) && w.Valid() && w.Fits(Annotation(s))
    modifies w, w.buf
    ensures w.Valid()
    ensures w.written == old(w.written) + Annotation(s)
  {
    if s.text != 0 {
      w.Append(TextAlignTab[s.text].vtt);
    }
    if s.display != 0 {
      w.Append(DisplayAlignTab[s.display].vtt);
    }
  }

  // ---------------------------------------------------------------------
  // What `dfxp_append_text_content` writes, as a recursive function.

  /** The text of the sibling run `sibs` at stack depth `depth`, inside a
      span whose decorations are `lflag`; `flag` is the cue's own
      decoration, from which every span's decorations are computed. */
  function RenderSeq(sibs: seq<Node>, depth: nat, lflag: bv8, flag: bv8): string
    decreases SeqSize(sibs), 1
  {
    if sibs == [] then ""
    else RenderNode(sibs[0], depth, lflag, flag) + RenderSeq(sibs[1..], depth, lflag, flag)
  }

  /** Text and CDATA nodes give their content, `br` a newline; a `span`
      with children below the depth limit is wrapped in the tags of the
      decorations it adds to its parent; anything else gives nothing. */
  function RenderNode(n: Node, depth: nat, lflag: bv8, flag: bv8): string
    decreases Size(n), 0
  {
    match n
    case Text(c) => c
    case Other => ""
    case Element(name, _, children) =>
      if name == "br" then "\n"
      else if name != "span" || children == [] || depth >= MaxDepth then ""
      else
        var lf := AddTextFlags(n, flag);
        AppendTag(lf, lflag, false) + RenderSeq(children, depth + 1, lf, flag) + AppendTag(lf, lflag, true)
  }

  /** The text of a cue whose paragraph has children `children`. */
  function CueText(children: seq<Node>, flag: bv8): string {
    RenderSeq(children, 0, 0, flag)
  }

  /** A saved position of the walk: the siblings still to do in an
      enclosing run and the decorations in force there. */
  datatype TextFrame = TextFrame(sibs: seq<Node>, next: nat, saved: bv8)

  predicate ValidFrames(frames: seq<TextFrame>) {
    forall k :: 0 <= k < |frames| ==> frames[k].next <= |frames[k].sibs|
  }

  /** What is written once the current run is exhausted: each saved frame,
      innermost first, closes its span and resumes its own run. */
  function Unwind(frames: seq<TextFrame>, lflag: bv8, flag: bv8): string
    requires ValidFrames(frames)
  {
    if frames == [] then ""
    else
      var f := frames[|frames| - 1];
      AppendTag(lflag, f.saved, true) + RenderSeq(f.sibs[f.next..], |frames| - 1, f.saved, flag)
        + Unwind(frames[..|frames| - 1], f.saved, flag)
  }

  function FramesSize(frames: seq<TextFrame>): nat
    requires ValidFrames(frames)
  {
    if frames == [] then 0
    else
      var f := frames[|frames| - 1];
      SeqSize(f.sibs[f.next..]) + FramesSize(frames[..|frames| - 1])
  }

  lemma Assoc(a: string, b: string, c: string)
    ensures a + (b + c) == (a + b) + c
  {
  }

  /** Everything the walk still has to write from a state: the rest of
      the current run, then the unwinding of the saved frames. */
  function Pending(cur: seq<Node>, i: nat, lflag: bv8, frames: seq<TextFrame>, flag: bv8): string
    requires i <= |cur| && ValidFrames(frames)
  {
    RenderSeq(cur[i..], |frames|, lflag, flag) + Unwind(frames, lflag, flag)
  }

  /** The termination measure of the walk: nodes still to visit. */
  function Remaining(cur: seq<Node>, i: nat, frames: seq<TextFrame>): nat
    requires i <= |cur| && ValidFrames(frames)
  {
    SeqSize(cur[i..]) + FramesSize(frames)
  }

  /** Leaving a span: the top frame closes it and resumes its run. */
  lemma PendingPop(cur: seq<Node>, lflag: bv8, frames: seq<TextFrame>, flag: bv8)
    requires |frames| > 0 && ValidFrames(frames)
    ensures ValidFrames(frames[..|frames| - 1])
    ensures var f := frames[|frames| - 1];
      Pending(cur, |cur|, lflag, frames, flag)
        == AppendTag(lflag, f.saved, true) + Pending(f.sibs, f.next, f.saved, frames[..|frames| - 1], flag)
    ensures var f := frames[|frames| - 1];
      Remaining(cur, |cur|, frames) == Remaining(f.sibs, f.next, frames[..|frames| - 1])
  {
    assert cur[|cur|..] == [];
  }

  /** Passing over a node that is not followed: its own text, then the rest. */
  lemma PendingNext(cur: seq<Node>, i: nat, lflag: bv8, frames: seq<TextFrame>, flag: bv8)
    requires i < |cur| && ValidFrames(frames)
    ensures Pending(cur, i, lflag, frames, flag)
         == RenderNode(cur[i], |frames|, lflag, flag) + Pending(cur, i + 1, lflag, frames, flag)
    ensures Remaining(cur, i, frames) == Size(cur[i]) + Remaining(cur, i + 1, frames)
  {
    assert cur[i..][1..] == cur[i + 1..];
    SeqSizeAt(cur, i);
  }

  /** Saving one more frame: the unwinding first closes the new innermost
      span and resumes its run, then unwinds the older frames. */
  lemma UnwindPush(frames: seq<TextFrame>, f: TextFrame, lf: bv8, flag: bv8)
    requires ValidFrames(frames) && f.next <= |f.sibs|
    ensures ValidFrames(frames + [f])
    ensures Unwind(frames + [f], lf, flag)
         == AppendTag(lf, f.saved, true) + RenderSeq(f.sibs[f.next..], |frames|, f.saved, flag)
            + Unwind(frames, f.saved, flag)
    ensures FramesSize(frames + [f]) == SeqSize(f.sibs[f.next..]) + FramesSize(frames)
  {
    assert (frames + [f])[..|frames|] == frames;
  }

  /** A span entered below the depth limit renders as its open tags, its
      children one level deeper, and its close tags. */
  lemma SpanRendered(n: Node, depth: nat, lflag: bv8, flag: bv8)
    requires n.Element? && n.name == "span" && n.children != [] && depth < MaxDepth
    ensures var lf := AddTextFlags(n, flag);
      RenderNode(n, depth, lflag, flag)
        == AppendTag(lf, lflag, false) + RenderSeq(n.children, depth + 1, lf, flag) + AppendTag(lf, lflag, true)
  {
  }

  /** The regrouping of five strings that moves the open tags out front. */
  lemma Regroup(open: string, inner: string, close: string, later: string, u: string)
    ensures ((open + inner) + close) + (later + u) == open + (inner + ((close + later) + u))
  {
  }

  /** What remains inside a span just entered, with children `c` and the
      frame `f` saved: the children, then the new frame's unwinding. */
  lemma PendingInside(c: seq<Node>, lf: bv8, frames: seq<TextFrame>, f: TextFrame, flag: bv8)
    requires ValidFrames(frames) && f.next <= |f.sibs|
    ensures ValidFrames(frames + [f])
    ensures Pending(c, 0, lf, frames + [f], flag)
         == RenderSeq(c, |frames| + 1, lf, flag)
            + ((AppendTag(lf, f.saved, true) + RenderSeq(f.sibs[f.next..], |frames|, f.saved, flag)) + Unwind(frames, f.saved, flag))
    ensures Remaining(c, 0, frames + [f]) == SeqSize(c) + SeqSize(f.sibs[f.next..]) + FramesSize(frames)
  {
    UnwindPush(frames, f, lf, flag);
    assert c[0..] == c;
  }

  /** Entering a span: its open tags, then its children with a frame saved
      to resume after it. */
  lemma PendingPush(cur: seq<Node>, i: nat, lflag: bv8, frames: seq<TextFrame>, flag: bv8)
    requires i < |cur| && ValidFrames(frames)
    requires var n := cur[i]; n.Element? && n.name == "span" && n.children != [] && |frames| < MaxDepth
    ensures ValidFrames(frames + [TextFrame(cur, i + 1, lflag)])
    ensures var n := cur[i]; var lf := AddTextFlags(n, flag);
      Pending(cur, i, lflag, frames, flag)
        == AppendTag(lf, lflag, false) + Pending(n.children, 0, lf, frames + [TextFrame(cur, i + 1, lflag)], flag)
    ensures Remaining(cur[i].children, 0, frames + [TextFrame(cur, i + 1, lflag)]) < Remaining(cur, i, frames)
  {
    var n := cur[i];
    var lf := AddTextFlags(n, flag);
    PendingNext(cur, i, lflag, frames, flag);
    SpanRendered(n, |frames|, lflag, flag);
    PendingInside(n.children, lf, frames, TextFrame(cur, i + 1, lflag), flag);
    Regroup(AppendTag(lf, lflag, false), RenderSeq(n.children, |frames| + 1, lf, flag), AppendTag(lf, lflag, true),
            RenderSeq(cur[i + 1..], |frames|, lflag, flag), Unwind(frames, lflag, flag));
  }

  /** The end of a span's run (`node == NULL` with a saved frame): the top
      frame is popped, its close tags go out and the enclosing run
      resumes. */
  method CloseSpan(w: Writer, stack: array<TextFrame>, cur: seq<Node>, depth: nat, lflag: bv8,
                   ghost frames: seq<TextFrame>, flag: bv8, ghost total: string)
      returns (cur': seq<Node>, i': nat, depth': nat, lflag': bv8, ghost frames': seq<TextFrame>)
    requires stack.Length == MaxDepth && depth == |frames| <= MaxDepth && stack[..depth] == frames
    requires depth > 0 && ValidFrames(frames)
    requires w.Valid() && w.written + Pending(cur, |cur|, lflag, frames, flag) == total
    requires w.counting || |total| <= w.buf.Length
    modifies w, w.buf
    ensures depth' == depth - 1 && frames' == frames[..depth'] && stack[..depth'] == frames'
    ensures i' <= |cur'| && ValidFrames(frames')
    ensures w.Valid() && w.written + Pending(cur', i', lflag', frames', flag) == total
    ensures Remaining(cur', i', frames') == Remaining(cur, |cur|, frames)
  {
    var f := stack[depth - 1];
    assert f == frames[|frames| - 1];
    PendingPop(cur, lflag, frames, flag);
    var tag := AppendTag(lflag, f.saved, true);
    ghost var next := Pending(f.sibs, f.next, f.saved, frames[..|frames| - 1], flag);
    Assoc(w.written, tag, next);
    w.Append(tag);
    depth' := depth - 1;
    lflag' := f.saved;
    cur', i' := f.sibs, f.next;
    frames' := frames[..depth'];
  }

  /** Entering a span (`cur[i]`): a frame is pushed to resume after it, its
      decorations become the local ones, its open tags go out, and the
      walk continues in its children. */
  method OpenSpan(w: Writer, stack: array<TextFrame>, cur: seq<Node>, i: nat, depth: nat, lflag: bv8,
                  ghost frames: seq<TextFrame>, flag: bv8, ghost total: string)
      returns (lf: bv8, ghost frames': seq<TextFrame>)
    requires stack.Length == MaxDepth && depth == |frames| < MaxDepth && stack[..depth] == frames
    requires i < |cur| && ValidFrames(frames)
    requires var n := cur[i]; n.Element? && n.name == "span" && n.children != []
    requires w.Valid() && w.written + Pending(cur, i, lflag, frames, flag) == total
    requires w.counting || |total| <= w.buf.Length
    modifies w, w.buf, stack
    ensures frames' == frames + [TextFrame(cur, i + 1, lflag)] && stack[..depth + 1] == frames'
    ensures ValidFrames(frames')
    ensures w.Valid() && w.written + Pending(cur[i].children, 0, lf, frames', flag) == total
    ensures Remaining(cur[i].children, 0, frames') < Remaining(cur, i, frames)
  {
    PendingPush(cur, i, lflag, frames, flag);
    PushFrame(stack, depth, TextFrame(cur, i + 1, lflag), frames);
    frames' := frames + [TextFrame(cur, i + 1, lflag)];
    lf := AddTextFlags(cur[i], flag);
    var open := AppendTag(lf, lflag, false);
    ghost var next := Pending(cur[i].children, 0, lf, frames', flag);
    Assoc(w.written, open, next);
    w.Append(open);
  }

  /** A node the walk does not enter (`cur[i]`): its own text goes out. */
  method PassNode(w: Writer, cur: seq<Node>, i: nat, lflag: bv8, ghost frames: seq<TextFrame>, flag: bv8, ghost total: string)
    requires i < |cur| && ValidFrames(frames)
    requires var n := cur[i]; !(n.Element? && n.name == "span" && n.children != [] && |frames| < MaxDepth)
    requires w.Valid() && w.written + Pending(cur, i, lflag, frames, flag) == total
    requires w.counting || |total| <= w.buf.Length
    modifies w, w.buf
    ensures w.Valid() && w.written + Pending(cur, i + 1, lflag, frames, flag) == total
    ensures Remaining(cur, i + 1, frames) < Remaining(cur, i, frames)
  {
    PendingNext(cur, i, lflag, frames, flag);
    var n := cur[i];
    ghost var next := Pending(cur, i + 1, lflag, frames, flag);
    Assoc(w.written, RenderNode(n, |frames|, lflag, flag), next);
    if n.Text? {
      w.Append(n.content);
    } else if n.Element? && n.name == "br" {
      w.Append("\n");
    }
  }

  /** Stores `f` in the first free slot of the stack holding `frames`. */
  method PushFrame(stack: array<TextFrame>, depth: nat, f: TextFrame, ghost frames: seq<TextFrame>)
    requires depth < stack.Length && stack[..depth] == frames
    modifies stack
    ensures stack[..depth + 1] == frames + [f]
  {
    stack[depth] := f;
    assert stack[..depth + 1] == stack[..depth] + [f];
  }

  /** One turn of the walk's loop that does not end it: at the end of a
      run the top frame is popped, a span below the depth limit is entered
      with a frame pushed, and any other node is passed over. */
  method Step(w: Writer, stack: array<TextFrame>, cur: seq<Node>, i: nat, depth: nat, lflag: bv8,
              ghost frames: seq<TextFrame>, flag: bv8, ghost total: string)
      returns (cur': seq<Node>, i': nat, depth': nat, lflag': bv8, ghost frames': seq<TextFrame>)
    requires stack.Length == MaxDepth && depth == |frames| <= MaxDepth && stack[..depth] == frames
    requires i <= |cur| && ValidFrames(frames) && (i == |cur| ==> depth > 0)
    requires w.Valid() && w.written + Pending(cur, i, lflag, frames, flag) == total
    requires w.counting || |total| <= w.buf.Length
    modifies w, w.buf, stack
    ensures depth' == |frames'| <= MaxDepth && stack[..depth'] == frames'
    ensures i' <= |cur'| && ValidFrames(frames')
    ensures w.Valid() && w.written + Pending(cur', i', lflag', frames', flag) == total
    ensures 2 * Remaining(cur', i', frames') + depth' < 2 * Remaining(cur, i, frames) + depth
  {
    if i == |cur| {
      cur', i', depth', lflag', frames' := CloseSpan(w, stack, cur, depth, lflag, frames, flag, total);
    } else if cur[i].Element? && cur[i].name == "span" && cur[i].children != [] && depth < MaxDepth {
      lflag', frames' := OpenSpan(w, stack, cur, i, depth, lflag, frames, flag, total);
      depth' := depth + 1;
      cur', i' := cur[i].children, 0;
    } else {
      PassNode(w, cur, i, lflag, frames, flag, total);
      cur', i', depth', lflag', frames' := cur, i + 1, depth, lflag, frames;
    }
  }

  /** `dfxp_append_text_content`: the walk with an explicit stack of at
      most MaxDepth saved positions. Both the counting and the writing
      cursor see exactly the text RenderSeq describes, so the measured
      length is the written length. */
  method AppendTextContent(children: seq<Node>, w: Writer, flag: bv8)
    requires w.Valid() && w.Fits(CueText(children, flag))
    modifies w, w.buf
    ensures w.Valid()
    ensures w.written == old(w.written) + CueText(children, flag)
  {
    ghost var total := old(w.written) + CueText(children, flag);
    var stack := new TextFrame[MaxDepth];
    var cur, i, depth, lflag := children, 0, 0, 0 as bv8;
    ghost var frames: seq<TextFrame> := [];
    assert children[0..] == children;
    while i < |cur| || depth > 0
      invariant 0 <= depth <= MaxDepth && depth == |frames| && stack[..depth] == frames
      invariant 0 <= i <= |cur| && ValidFrames(frames)
      invariant w.Valid() && w.written + Pending(cur, i, lflag, frames, flag) == total
      invariant w.counting || |total| <= w.buf.Length
      decreases 2 * Remaining(cur, i, frames) + depth
    {
      cur, i, depth, lflag, frames := Step(w, stack, cur, i, depth, lflag, frames, flag, total);
    }
    assert cur[i..] == [];
  }

  // ---------------------------------------------------------------------
  // The frame body.

  /** isspace() in the C locale. */
  predicate IsSpace(c: char) {
    c == ' ' || c == '\t' || c == '\n' || c == '\U{B}' || c == '\U{C}' || c == '\r'
  }

  /** The length of the leading whitespace run of `t`. */
  function LeadingSpaces(t: string): (k: nat)
    ensures k <= |t|
    ensures forall j :: 0 <= j < k ==> IsSpace(t[j])
    ensures k < |t| ==> !IsSpace(t[k])
  {
    if t == [] || !IsSpace(t[0]) then 0 else 1 + LeadingSpaces(t[1..])
  }

  function Spaces(k: nat): (r: string)
    ensures |r| == k && forall j :: 0 <= j < k ==> r[j] == ' '
  {
    if k == 0 then "" else Spaces(k - 1) + " "
  }

  datatype BodyResult = NotFound | Body(text: string)

  /** What `dfxp_get_frame_body` produces: nothing when the cue has no
      text; otherwise the cue settings, the text with its leading
      whitespace turned into spaces and a newline put just before its first
      other character, and a blank line. */
  function FrameBody(children: seq<Node>, s: Style): (r: BodyResult)
    requires ValidStyle(s)
    ensures r.NotFound? <==> CueText(children, s.decoration) == ""
  {
    var t := CueText(children, s.decoration);
    if t == [] then NotFound
    else
      var k := LeadingSpaces(t);
      Body(Annotation(s) + Spaces(k) + "\n" + t[k..] + "\n\n")
  }

  /** The body is the settings, one separator, the text and "\n\n": at most
      46 bytes beyond the measured text, well inside the 64 allocated. */
  lemma FrameBodyFits(children: seq<Node>, s: Style)
    requires ValidStyle(s) && FrameBody(children, s).Body?
    ensures |FrameBody(children, s).text| == |Annotation(s)| + 1 + |CueText(children, s.decoration)| + 2
    ensures |FrameBody(children, s).text| <= |CueText(children, s.decoration)| + 46
    ensures |FrameBody(children, s).text| < |CueText(children, s.decoration)| + ScratchSpace
  {
  }

  /** The body starts with the settings and ends with a blank line, and the
      text line starts at its first non-whitespace character. */
  lemma FrameBodyShape(children: seq<Node>, s: Style)
    requires ValidStyle(s) && FrameBody(children, s).Body?
    ensures var b := FrameBody(children, s).text;
      var t := CueText(children, s.decoration);
      var k := LeadingSpaces(t);
      var a := |Annotation(s)|;
      b[..a] == Annotation(s) &&
      (forall j :: a <= j < a + k ==> b[j] == ' ') &&
      b[a + k] == '\n' &&
      b[a + k + 1..|b| - 2] == t[k..] &&
      (a + k + 1 < |b| - 2 ==> !IsSpace(b[a + k + 1])) &&
      b[|b| - 2..] == "\n\n"
  {
  }

  /** `dfxp_get_frame_body`: a counting pass to measure the text, a buffer
      of that size plus ScratchSpace, a writing pass, then the whitespace
      rewrite and the closing blank line. The overrun check of the source
      can never fire. */
  method GetFrameBody(children: seq<Node>, s: Style) returns (r: BodyResult)
    requires ValidStyle(s)
    ensures r == FrameBody(children, s)
  {
    ghost var t := CueText(children, s.decoration);
    var counter := new Writer.Counting();
    AppendTextContent(children, counter, s.decoration);
    var allocSize := counter.pos;
    assert allocSize == |t| by {
      assert counter.written == [] + t;
    }
    if allocSize == 0 {
      return NotFound;
    }
    allocSize := allocSize + ScratchSpace;

    var w := new Writer.Writing(allocSize);
    AppendStyle(w, s);
    assert w.written == Annotation(s) by {
      assert [] + Annotation(s) == Annotation(s);
    }
    w.Append(" ");
    var ts0 := w.pos;
    AppendTextContent(children, w, s.decoration);
    var end := w.pos;
    assert w.buf[..end] == Annotation(s) + " " + t;

    // turn the leading whitespace into spaces and end it with a newline
    var textstart := SpaceOut(w.buf, ts0, end, t);
    CloseBody(w.buf, ts0, textstart, end, Annotation(s), t);
    r := Body(w.buf[..end + 2]);
  }

  /** The whitespace loop of `dfxp_get_frame_body`: the leading
      whitespace of the text `t` held in `buf[from..end]` becomes spaces;
      the result is where the first other character is (or `end`). */
  method SpaceOut(buf: array<char>, from: nat, end: nat, ghost t: string) returns (stop: nat)
    requires from <= end <= buf.Length && buf[from..end] == t
    modifies buf
    ensures stop == from + LeadingSpaces(t)
    ensures buf[..from] == old(buf[..from]) && buf[end..] == old(buf[end..])
    ensures forall j :: from <= j < stop ==> buf[j] == ' '
    ensures buf[stop..end] == t[stop - from..]
  {
    stop := from;
    while stop < end && IsSpace(buf[stop])
      invariant from <= stop <= end && stop - from <= LeadingSpaces(t)
      invariant buf[..from] == old(buf[..from]) && buf[end..] == old(buf[end..])
      invariant forall j :: from <= j < stop ==> buf[j] == ' '
      invariant buf[stop..end] == t[stop - from..]
    {
      buf[stop] := ' ';
      stop := stop + 1;
    }
    assert stop - from == LeadingSpaces(t) by {
      if stop < end {
        assert buf[stop] == t[stop - from];
      }
    }
  }

  /** The last writes of `dfxp_get_frame_body`: a newline over the last
      byte before the text proper and a blank line after it, which leaves
      in the buffer the body FrameBody describes. */
  method CloseBody(buf: array<char>, from: nat, stop: nat, end: nat, ghost ann: string, ghost t: string)
    requires from == |ann| + 1 && end == from + |t| && end + 2 <= buf.Length
    requires stop == from + LeadingSpaces(t)
    requires buf[..from] == ann + " "
    requires forall j :: from <= j < stop ==> buf[j] == ' '
    requires buf[stop..end] == t[stop - from..]
    modifies buf
    ensures buf[..end + 2] == ann + Spaces(LeadingSpaces(t)) + "\n" + t[LeadingSpaces(t)..] + "\n\n"
  {
    ghost var before := buf[..];
    buf[stop - 1] := '\n';
    buf[end] := '\n';
    buf[end + 1] := '\n';
    assert buf[..] == before[stop - 1 := '\n'][end := '\n'][end + 1 := '\n'];
    assert buf[..end + 2] == buf[..][..end + 2];
    ClosedBytes(before, ann, t, LeadingSpaces(t));
  }

  /** The three writes of CloseBody on the buffer's former contents
      `before`: settings and one space, the spaced-out whitespace, the
      rest of the text. */
  lemma ClosedBytes(before: string, ann: string, t: string, k: nat)
    requires k <= |t| && |ann| + 1 + |t| + 2 <= |before|
    requires before[..|ann| + 1] == ann + " "
    requires forall j :: |ann| + 1 <= j < |ann| + 1 + k ==> before[j] == ' '
    requires before[|ann| + 1 + k..|ann| + 1 + |t|] == t[k..]
    ensures var e := |ann| + 1 + |t|;
      before[|ann| + k := '\n'][e := '\n'][e + 1 := '\n'][..e + 2] == ann + Spaces(k) + "\n" + t[k..] + "\n\n"
  {
    var e := |ann| + 1 + |t|;
    var b := before[|ann| + k := '\n'][e := '\n'][e + 1 := '\n'][..e + 2];
    assert b[..|ann|] == ann by {
      forall j | 0 <= j < |ann|
        ensures b[j] == ann[j]
      {
        assert b[j] == before[..|ann| + 1][j];
      }
    }
    assert forall j :: |ann| <= j < |ann| + k ==> b[j] == ' ' by {
      assert before[|ann|] == before[..|ann| + 1][|ann|];
    }
    assert b[|ann| + 1 + k..e] == t[k..] by {
      forall j | |ann| + 1 + k <= j < e
        ensures b[j] == t[k..][j - (|ann| + 1 + k)]
      {
        assert b[j] == before[|ann| + 1 + k..e][j - (|ann| + 1 + k)];
      }
    }
    BodyBytes(b, ann, t, k);
  }

  /** The bytes left in the buffer are exactly FrameBody's. */
  lemma BodyBytes(b: string, ann: string, t: string, k: nat)
    requires k <= |t| && |b| == |ann| + 1 + |t| + 2
    requires b[..|ann|] == ann
    requires forall j :: |ann| <= j < |ann| + k ==> b[j] == ' '
    requires b[|ann| + k] == '\n'
    requires b[|ann| + 1 + k..|ann| + 1 + |t|] == t[k..]
    requires b[|b| - 2] == '\n' && b[|b| - 1] == '\n'
    ensures b == ann + Spaces(k) + "\n" + t[k..] + "\n\n"
  {
    var e := ann + Spaces(k) + "\n" + t[k..] + "\n\n";
    assert |e| == |b|;
    forall j | 0 <= j < |b|
      ensures b[j] == e[j]
    {
      if j < |ann| {
        assert b[j] == b[..|ann|][j];
      } else if j < |ann| + k {
      } else if j == |ann| + k {
      } else if j < |ann| + 1 + |t| {
        assert b[j] == b[|ann| + 1 + k..|ann| + 1 + |t|][j - (|ann| + 1 + k)];
      }
    }
  }
}
