/** `dfxp_get_duration`: an estimate of the track duration taken from the
    end times of the first `div` and `p` elements of a reverse depth-first
    walk (last child first), which stops after EstimateNodes paragraphs. */
module Duration {
  import opened XmlTree
  import opened TimeRange

  /** DFXP_DURATION_ESTIMATE_NODES: how many `p` elements are consulted. */
  const EstimateNodes: nat := 10

  predicate IsParagraph(n: Node) {
    IsElementNamed(n, "p")
  }

  // ---------------------------------------------------------------------
  // The order of the walk.

  /** The elements visited from the sibling run `sibs`, its last member
      first, at stack depth `depth`. */
  function VisitRun(sibs: seq<Node>, depth: nat): seq<Node>
    decreases SeqSize(sibs), 1
  {
    if sibs == [] then []
    else
      assert sibs[..|sibs|] == sibs;
      SeqSizeAt(sibs, |sibs| - 1);
      VisitNode(sibs[|sibs| - 1], depth) + VisitRun(sibs[..|sibs| - 1], depth)
  }

  /** An element is visited; unless it is a `p`, its children follow while
      the stack has room. Other nodes are skipped. */
  function VisitNode(n: Node, depth: nat): seq<Node>
    decreases Size(n), 0
  {
    match n
    case Element(name, _, children) =>
      if name != "p" && children != [] && depth < MaxDepth then [n] + VisitRun(children, depth + 1)
      else [n]
    case _ => []
  }

  /** The whole walk, from the root element. */
  function Visits(doc: Document): seq<Node> {
    VisitRun(TopLevel(doc), 0)
  }

  function PCount(vs: seq<Node>): nat {
    if vs == [] then 0 else (if IsParagraph(vs[0]) then 1 else 0) + PCount(vs[1..])
  }

  /** The walk up to and including its `k`-th paragraph, or all of it. */
  function TakeThrough(vs: seq<Node>, k: nat): seq<Node>
    requires k >= 1
  {
    if vs == [] then []
    else if IsParagraph(vs[0]) then
      if k == 1 then [vs[0]] else [vs[0]] + TakeThrough(vs[1..], k - 1)
    else [vs[0]] + TakeThrough(vs[1..], k)
  }

  /** What one visited element contributes: the end a `div` or `p`
      announces (`dfxp_extract_time` asked for the end only), -1 otherwise. */
  function Estimate(n: Node): int {
    if IsElementNamed(n, "div") || IsParagraph(n) then EndEstimate(n) else -1
  }

  /** The running maximum the walk keeps, starting from 0. */
  function MaxEnd(vs: seq<Node>): (r: int)
    ensures r >= 0
  {
    if vs == [] then 0
    else
      var m := MaxEnd(vs[..|vs| - 1]);
      var e := Estimate(vs[|vs| - 1]);
      if e > m then e else m
  }

  /** The running maximum bounds every contribution and, unless it is the
      initial 0, is one of them. */
  lemma {:induction false} MaxEndIsMaximum(vs: seq<Node>)
    ensures forall j :: 0 <= j < |vs| ==> Estimate(vs[j]) <= MaxEnd(vs)
    ensures MaxEnd(vs) == 0 || exists j :: 0 <= j < |vs| && Estimate(vs[j]) == MaxEnd(vs)
  {
    if vs != [] {
      var front := vs[..|vs| - 1];
      MaxEndIsMaximum(front);
      forall j | 0 <= j < |vs| - 1
        ensures Estimate(vs[j]) <= MaxEnd(vs)
      {
        assert vs[j] == front[j];
      }
      if MaxEnd(vs) != 0 && MaxEnd(vs) == MaxEnd(front) {
        var j :| 0 <= j < |front| && Estimate(front[j]) == MaxEnd(front);
        assert vs[j] == front[j];
      }
    }
  }

  /** The value `dfxp_get_duration` returns. */
  function DurationEstimate(doc: Document): int {
    MaxEnd(TakeThrough(Visits(doc), EstimateNodes))
  }

  // ---------------------------------------------------------------------
  // Properties of the estimate.

  /** The walk is cut right after the `k`-th paragraph: what is kept is a
      prefix holding at most `k` paragraphs; all of the walk when it has
      fewer than `k`; otherwise exactly `k`, the last element kept being a
      paragraph (whatever follows it, even a `div`, is not consulted). */
  lemma {:induction false} TakeThroughPrefix(vs: seq<Node>, k: nat)
    requires k >= 1
    ensures var t := TakeThrough(vs, k);
      t <= vs && PCount(t) <= k &&
      (PCount(vs) < k ==> t == vs) &&
      (PCount(vs) >= k ==> PCount(t) == k && IsParagraph(t[|t| - 1]))
  {
    if vs != [] {
      var x, rest := vs[0], vs[1..];
      var t := TakeThrough(vs, k);
      PCountCons(x, rest);
      if IsParagraph(x) && k == 1 {
        PCountCons(x, []);
        assert t == [x] + [];
      } else {
        var k' := if IsParagraph(x) then k - 1 else k;
        TakeThroughPrefix(rest, k');
        var t' := TakeThrough(rest, k');
        assert t == [x] + t';
        PCountCons(x, t');
      }
    }
  }

  /** The paragraphs of a walk with one more element in front. */
  lemma PCountCons(x: Node, s: seq<Node>)
    ensures PCount([x] + s) == (if IsParagraph(x) then 1 else 0) + PCount(s)
    ensures ([x] + s)[1..] == s && ([x] + s)[0] == x
    ensures s != [] ==> ([x] + s)[|s|] == s[|s| - 1]
  {
    assert ([x] + s)[1..] == s;
  }

  /** The estimate is never negative, bounds the end of every `div` and
      `p` the walk consults, and is one of those ends unless it is 0. */
  lemma DurationBounds(doc: Document)
    ensures DurationEstimate(doc) >= 0
    ensures var t := TakeThrough(Visits(doc), EstimateNodes);
      forall j :: 0 <= j < |t| ==> Estimate(t[j]) <= DurationEstimate(doc)
    ensures var t := TakeThrough(Visits(doc), EstimateNodes);
      DurationEstimate(doc) == 0 || exists j :: 0 <= j < |t| && EndEstimate(t[j]) == DurationEstimate(doc)
  {
    var t := TakeThrough(Visits(doc), EstimateNodes);
    var r := DurationEstimate(doc);
    MaxEndIsMaximum(t);
    if r != 0 {
      var j :| 0 <= j < |t| && Estimate(t[j]) == r;
      assert IsElementNamed(t[j], "div") || IsParagraph(t[j]);
    }
  }

  /** A document with at most EstimateNodes paragraphs on the walk is
      consulted in full. */
  lemma SmallDocumentFullyConsulted(doc: Document)
    requires PCount(Visits(doc)) < EstimateNodes
    ensures DurationEstimate(doc) == MaxEnd(Visits(doc))
  {
    TakeThroughPrefix(Visits(doc), EstimateNodes);
  }

  /** A paragraph's children are never visited: its text cannot move the
      estimate. */
  lemma ParagraphIsLeaf(n: Node, depth: nat)
    requires IsParagraph(n)
    ensures VisitNode(n, depth) == [n]
  {
  }

  // ---------------------------------------------------------------------
  // The walk with its explicit stack.

  /** A stack entry: the element whose children are being walked, kept as
      its run `sibs` and the count `next` of siblings before it, where the
      walk resumes when its children are done. */
  datatype Cursor = Cursor(sibs: seq<Node>, next: nat)

  predicate ValidCursors(frames: seq<Cursor>) {
    forall k :: 0 <= k < |frames| ==> frames[k].next <= |frames[k].sibs|
  }

  /** What the saved cursors still have to visit, innermost first. */
  function Unwind(frames: seq<Cursor>): seq<Node>
    requires ValidCursors(frames)
  {
    if frames == [] then []
    else
      var f := frames[|frames| - 1];
      VisitRun(f.sibs[..f.next], |frames| - 1) + Unwind(frames[..|frames| - 1])
  }

  function FramesSize(frames: seq<Cursor>): nat
    requires ValidCursors(frames)
  {
    if frames == [] then 0
    else
      var f := frames[|frames| - 1];
      SeqSize(f.sibs[..f.next]) + FramesSize(frames[..|frames| - 1])
  }

  /** Everything the walk still has to visit from a state where `cur[..i]`
      remains of the current run. */
  function Pending(cur: seq<Node>, i: nat, frames: seq<Cursor>): seq<Node>
    requires i <= |cur| && ValidCursors(frames)
  {
    VisitRun(cur[..i], |frames|) + Unwind(frames)
  }

  /** The termination measure: twice the nodes still to visit, plus the
      depth (a pop leaves the nodes alone and lowers the depth). */
  function Measure(cur: seq<Node>, i: nat, frames: seq<Cursor>): nat
    requires i <= |cur| && ValidCursors(frames)
  {
    2 * (SeqSize(cur[..i]) + FramesSize(frames)) + |frames|
  }

  /** `cur_node == NULL`: the top cursor resumes. */
  lemma PendingPop(cur: seq<Node>, frames: seq<Cursor>)
    requires |frames| > 0 && ValidCursors(frames)
    ensures ValidCursors(frames[..|frames| - 1])
    ensures var f := frames[|frames| - 1];
      Pending(cur, 0, frames) == Pending(f.sibs, f.next, frames[..|frames| - 1]) &&
      Measure(f.sibs, f.next, frames[..|frames| - 1]) < Measure(cur, 0, frames)
  {
    assert cur[..0] == [];
  }

  /** A run up to its `i`-th node: that node's visits, then the rest's. */
  lemma VisitRunAt(cur: seq<Node>, i: nat, d: nat)
    requires 0 < i <= |cur|
    ensures VisitRun(cur[..i], d) == VisitNode(cur[i - 1], d) + VisitRun(cur[..i - 1], d)
  {
    assert cur[..i][..i - 1] == cur[..i - 1];
  }

  /** The run's next node is visited (or skipped) without entering it. */
  lemma PendingNext(cur: seq<Node>, i: nat, frames: seq<Cursor>)
    requires 0 < i <= |cur| && ValidCursors(frames)
    ensures Pending(cur, i, frames) == VisitNode(cur[i - 1], |frames|) + Pending(cur, i - 1, frames)
    ensures Measure(cur, i - 1, frames) < Measure(cur, i, frames)
  {
    var d := |frames|;
    VisitRunAt(cur, i, d);
    SeqSizeAt(cur, i - 1);
    Assoc(VisitNode(cur[i - 1], d), VisitRun(cur[..i - 1], d), Unwind(frames));
  }

  lemma Assoc(a: seq<Node>, b: seq<Node>, c: seq<Node>)
    ensures (a + b) + c == a + (b + c)
  {
  }

  /** Saving one more cursor: its siblings are unwound first, then the
      older cursors. */
  lemma UnwindPush(frames: seq<Cursor>, f: Cursor)
    requires ValidCursors(frames) && f.next <= |f.sibs|
    ensures ValidCursors(frames + [f])
    ensures Unwind(frames + [f]) == VisitRun(f.sibs[..f.next], |frames|) + Unwind(frames)
    ensures FramesSize(frames + [f]) == SeqSize(f.sibs[..f.next]) + FramesSize(frames)
  {
    assert (frames + [f])[..|frames|] == frames;
  }

  /** What remains inside a just entered element with children `c`, the
      cursor `f` saved: the children, then the rest of the enclosing run
      and the older cursors. */
  lemma PendingInside(c: seq<Node>, frames: seq<Cursor>, f: Cursor)
    requires ValidCursors(frames) && f.next <= |f.sibs|
    ensures ValidCursors(frames + [f])
    ensures Pending(c, |c|, frames + [f]) == VisitRun(c, |frames| + 1) + (VisitRun(f.sibs[..f.next], |frames|) + Unwind(frames))
  {
    UnwindPush(frames, f);
    assert c[..|c|] == c;
  }

  /** Entering lowers the measure: the element's own size is more than its
      children's. */
  lemma MeasurePush(cur: seq<Node>, i: nat, frames: seq<Cursor>)
    requires 0 < i <= |cur| && cur[i - 1].Element? && ValidCursors(frames)
    ensures ValidCursors(frames + [Cursor(cur, i - 1)])
    ensures var n := cur[i - 1]; var fs := frames + [Cursor(cur, i - 1)];
      Measure(n.children, |n.children|, fs) < Measure(cur, i, frames)
  {
    UnwindPush(frames, Cursor(cur, i - 1));
    assert cur[i - 1].children[..|cur[i - 1].children|] == cur[i - 1].children;
    SeqSizeAt(cur, i - 1);
  }

  /** The run's next node is an element whose children are entered. */
  lemma PendingPush(cur: seq<Node>, i: nat, frames: seq<Cursor>)
    requires 0 < i <= |cur| && ValidCursors(frames)
    requires var n := cur[i - 1]; n.Element? && n.name != "p" && n.children != [] && |frames| < MaxDepth
    ensures ValidCursors(frames + [Cursor(cur, i - 1)])
    ensures var n := cur[i - 1]; var fs := frames + [Cursor(cur, i - 1)];
      Pending(cur, i, frames) == [n] + Pending(n.children, |n.children|, fs) &&
      Measure(n.children, |n.children|, fs) < Measure(cur, i, frames)
  {
    var n := cur[i - 1];
    var d := |frames|;
    PendingNext(cur, i, frames);
    assert VisitNode(n, d) == [n] + VisitRun(n.children, d + 1);
    PendingInside(n.children, frames, Cursor(cur, i - 1));
    MeasurePush(cur, i, frames);
    Assoc([n], VisitRun(n.children, d + 1), VisitRun(cur[..i - 1], d) + Unwind(frames));
  }

  /** Kept paragraphs are counted down: the cut of the rest of the walk
      after one more element. */
  lemma TakeThroughCons(n: Node, rest: seq<Node>, k: nat)
    requires k >= 1
    ensures !IsParagraph(n) ==> TakeThrough([n] + rest, k) == [n] + TakeThrough(rest, k)
    ensures IsParagraph(n) && k == 1 ==> TakeThrough([n] + rest, k) == [n]
    ensures IsParagraph(n) && k > 1 ==> TakeThrough([n] + rest, k) == [n] + TakeThrough(rest, k - 1)
  {
    assert ([n] + rest)[1..] == rest;
  }

  /** The running maximum after one more element. */
  lemma MaxEndSnoc(vs: seq<Node>, n: Node)
    ensures MaxEnd(vs + [n]) == if Estimate(n) > MaxEnd(vs) then Estimate(n) else MaxEnd(vs)
  {
    assert (vs + [n])[..|vs|] == vs;
  }

  /** Whether the walk enters the children of `n`, met at stack depth
      `depth`: it must be an element other than `p`, have children, and
      the stack must have room. */
  predicate Enters(n: Node, depth: nat) {
    n.Element? && n.name != "p" && n.children != [] && depth < MaxDepth
  }

  /** What remains to visit once `cur[i - 1]` has been visited. */
  function Rest(cur: seq<Node>, i: nat, frames: seq<Cursor>): seq<Node>
    requires 0 < i <= |cur| && ValidCursors(frames)
  {
    var n := cur[i - 1];
    if Enters(n, |frames|) then
      assert ValidCursors(frames + [Cursor(cur, i - 1)]);
      Pending(n.children, |n.children|, frames + [Cursor(cur, i - 1)])
    else Pending(cur, i - 1, frames)
  }

  /** Visiting the element `cur[i - 1]` moves it from what is pending to
      what is done, and uses up one allowed paragraph if it is a `p`. */
  lemma VisitElement(full: seq<Node>, done: seq<Node>, cur: seq<Node>, i: nat, frames: seq<Cursor>, k: nat)
    requires 0 < i <= |cur| && ValidCursors(frames) && k >= 1 && cur[i - 1].Element?
    requires full == done + TakeThrough(Pending(cur, i, frames), k)
    ensures var n := cur[i - 1];
      var k' := if IsParagraph(n) then k - 1 else k;
      (k' == 0 ==> full == done + [n]) &&
      (k' > 0 ==> full == (done + [n]) + TakeThrough(Rest(cur, i, frames), k'))
  {
    var n := cur[i - 1];
    var rest := Rest(cur, i, frames);
    if Enters(n, |frames|) {
      PendingPush(cur, i, frames);
    } else {
      PendingNext(cur, i, frames);
      assert VisitNode(n, |frames|) == [n];
    }
    assert Pending(cur, i, frames) == [n] + rest;
    TakeThroughCons(n, rest, k);
    var k' := if IsParagraph(n) then k - 1 else k;
    if k' > 0 {
      Assoc(done, [n], TakeThrough(rest, k'));
    }
  }

  /** Stores `f` in the first free slot of the stack holding `frames`. */
  method PushCursor(stack: array<Cursor>, depth: nat, f: Cursor, ghost frames: seq<Cursor>)
    requires depth < stack.Length && stack[..depth] == frames
    modifies stack
    ensures stack[..depth + 1] == frames + [f]
  {
    stack[depth] := f;
    assert stack[..depth + 1] == stack[..depth] + [f];
  }

  /** The timing step of the walk for one element: a `div` or `p` has its
      end extracted into `ts`, which raises the running maximum when it is
      larger. */
  method Consult(n: Node, ts: Timestamps, result: int) returns (ts': Timestamps, result': int)
    requires n.Element? && result >= 0
    ensures result' == if Estimate(n) > result then Estimate(n) else result
  {
    ts', result' := ts, result;
    if n.name == "div" || n.name == "p" {
      var x := ExtractTime(n, ts, true);
      ts' := x.t;
      if ts'.end > result {
        result' := ts'.end;
      }
    }
  }

  /** The loop invariant of the walk: `done` is what has been visited,
      and with the cut of what is pending it makes up the consulted
      prefix `full`; `result` is the running maximum over `done`. */
  ghost predicate Tracks(full: seq<Node>, done: seq<Node>, cur: seq<Node>, i: nat, frames: seq<Cursor>,
                         nodesLeft: nat, result: int)
  {
    i <= |cur| && |frames| <= MaxDepth && ValidCursors(frames) && 1 <= nodesLeft <= EstimateNodes &&
    full == done + TakeThrough(Pending(cur, i, frames), nodesLeft) && result == MaxEnd(done)
  }

  /** `cur_node == NULL` with a non-empty stack: resume before the
      element on top of it. */
  method PopStep(stack: array<Cursor>, cur: seq<Node>, depth: nat, ghost frames: seq<Cursor>,
                 ghost full: seq<Node>, ghost done: seq<Node>, nodesLeft: nat, result: int)
      returns (cur': seq<Node>, i': nat, depth': nat, ghost frames': seq<Cursor>)
    requires 0 < depth == |frames| <= stack.Length && stack[..depth] == frames
    requires Tracks(full, done, cur, 0, frames, nodesLeft, result)
    ensures depth' == |frames'| < depth && stack[..depth'] == frames'
    ensures Tracks(full, done, cur', i', frames', nodesLeft, result)
    ensures Measure(cur', i', frames') < Measure(cur, 0, frames)
  {
    PendingPop(cur, frames);
    depth' := depth - 1;
    var f := stack[depth'];
    cur', i' := f.sibs, f.next;
    frames' := frames[..depth'];
  }

  /** A node that is not an element: passed over. */
  method SkipStep(cur: seq<Node>, i: nat, ghost frames: seq<Cursor>,
                  ghost full: seq<Node>, ghost done: seq<Node>, nodesLeft: nat, result: int)
      returns (i': nat)
    requires 0 < i <= |cur| && !cur[i - 1].Element?
    requires Tracks(full, done, cur, i, frames, nodesLeft, result)
    ensures Tracks(full, done, cur, i', frames, nodesLeft, result)
    ensures Measure(cur, i', frames) < Measure(cur, i, frames)
  {
    PendingNext(cur, i, frames);
    assert VisitNode(cur[i - 1], |frames|) == [];
    assert Pending(cur, i, frames) == Pending(cur, i - 1, frames);
    i' := i - 1;
  }

  /** An element: its end is consulted if it is a `div` or `p`; a `p`
      uses up one allowed paragraph (`stop` when none is left); any other
      element with children is entered while the stack has room. */
  method VisitStep(stack: array<Cursor>, cur: seq<Node>, i: nat, depth: nat, ghost frames: seq<Cursor>,
                   ghost full: seq<Node>, ghost done: seq<Node>, nodesLeft: nat, ts: Timestamps, result: int)
      returns (cur': seq<Node>, i': nat, depth': nat, ghost frames': seq<Cursor>, ghost done': seq<Node>,
               nodesLeft': nat, ts': Timestamps, result': int, stop: bool)
    requires 0 < i <= |cur| && cur[i - 1].Element?
    requires Tracks(full, done, cur, i, frames, nodesLeft, result)
    requires depth == |frames| && stack.Length == MaxDepth && stack[..depth] == frames
    modifies stack
    ensures stop ==> full == done' && result' == MaxEnd(done')
    ensures !stop ==> depth' == |frames'| <= MaxDepth && stack[..depth'] == frames'
    ensures !stop ==> Tracks(full, done', cur', i', frames', nodesLeft', result')
    ensures !stop ==> Measure(cur', i', frames') < Measure(cur, i, frames)
  {
    var n := cur[i - 1];
    VisitElement(full, done, cur, i, frames, nodesLeft);
    MaxEndSnoc(done, n);
    done' := done + [n];
    ts', result' := Consult(n, ts, result);
    nodesLeft' := if n.name == "p" then nodesLeft - 1 else nodesLeft;
    if nodesLeft' == 0 {
      cur', i', depth', frames', stop := cur, i, depth, frames, true;
      return;
    }
    stop := false;
    cur', i', depth', frames' := Advance(stack, cur, i, depth, frames);
  }

  /** The move past a visited element: a non-`p` with children is pushed
      and its last child comes next while the stack has room; otherwise
      the walk goes on with the previous sibling. */
  method Advance(stack: array<Cursor>, cur: seq<Node>, i: nat, depth: nat, ghost frames: seq<Cursor>)
      returns (cur': seq<Node>, i': nat, depth': nat, ghost frames': seq<Cursor>)
    requires 0 < i <= |cur| && cur[i - 1].Element? && ValidCursors(frames)
    requires depth == |frames| <= MaxDepth && stack.Length == MaxDepth && stack[..depth] == frames
    modifies stack
    ensures depth' == |frames'| <= MaxDepth && stack[..depth'] == frames'
    ensures i' <= |cur'| && ValidCursors(frames')
    ensures Pending(cur', i', frames') == Rest(cur, i, frames)
    ensures Measure(cur', i', frames') < Measure(cur, i, frames)
  {
    var n := cur[i - 1];
    if n.name != "p" && n.children != [] && depth < MaxDepth {
      PendingPush(cur, i, frames);
      PushCursor(stack, depth, Cursor(cur, i - 1), frames);
      frames' := frames + [Cursor(cur, i - 1)];
      depth' := depth + 1;
      cur', i' := n.children, |n.children|;
    } else {
      PendingNext(cur, i, frames);
      cur', i', depth', frames' := cur, i - 1, depth, frames;
    }
  }

  /** `dfxp_get_duration`. The walk starts at the root element and keeps
      at most MaxDepth elements on its stack; the result is the largest end
      time it saw (0 when none), and it stops right after its
      EstimateNodes-th paragraph. */
  method GetDuration(doc: Document) returns (result: int)
    ensures result == DurationEstimate(doc)
  {
    var stack := new Cursor[MaxDepth];
    ghost var frames: seq<Cursor> := [];
    var cur := TopLevel(doc);
    var i: nat, depth: nat := |cur|, 0;
    var nodesLeft: nat := EstimateNodes;
    var ts := Timestamps(0, 0);
    result := 0;
    ghost var done: seq<Node> := [];
    ghost var full := TakeThrough(Visits(doc), EstimateNodes);
    assert Pending(cur, i, frames) == Visits(doc) by {
      assert cur[..i] == cur;
    }
    while i > 0 || depth > 0
      invariant depth == |frames| <= MaxDepth == stack.Length && stack[..depth] == frames
      invariant Tracks(full, done, cur, i, frames, nodesLeft, result)
      decreases Measure(cur, i, frames)
    {
      if i == 0 {
        cur, i, depth, frames := PopStep(stack, cur, depth, frames, full, done, nodesLeft, result);
      } else if !cur[i - 1].Element? {
        i := SkipStep(cur, i, frames, full, done, nodesLeft, result);
      } else {
        var stop;
        cur, i, depth, frames, done, nodesLeft, ts, result, stop :=
          VisitStep(stack, cur, i, depth, frames, full, done, nodesLeft, ts, result);
        if stop {
          assert full == done;
          return;
        }
      }
    }
    assert Pending(cur, i, frames) == [] by {
      assert cur[..0] == [];
    }
    assert full == done;
  }
}
