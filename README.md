# DFXP subtitle reader, modelled in Dafny

This project models the DFXP/TTML subtitle reader of the VOD module,
`vod/subtitle/dfxp_format.c`. The reader works on an XML tree that has
already been parsed. It does four things:

- it tells whether a buffer looks like a DFXP document;
- it estimates the track duration from the first paragraphs;
- for a requested time window, it turns every `p` element into a WebVTT cue
  frame: cue settings, a text carrying `<b>`/`<i>`/`<u>` tags, and a blank
  line;
- it fills in the frame fields of the media track.

The model keeps the source's own form. Code that builds a value is written as
datatypes and functions. Code that walks pointers, stacks and buffers is written
as methods with loops over arrays, proved against those functions. This covers:

- the timestamp parser;
- the two tree walks with their 10-entry stacks;
- the counting and writing passes of the text renderer;
- the in-place whitespace rewrite;
- the frame extractor, which updates a `Track` object;
- the newline stripper.

Modules, one per concern:

- `XmlTree`: the tree (`Element`, `Text`, `Other` nodes), the document, and
  attribute lookup.
- `Timestamp`: the time-expression value (`TimestampValue`) and the parser
  that computes it.
- `TimestampGrammar`: the value of each clock-time and offset-time form, and
  the inputs that are rejected.
- `TimeRange`: `begin`/`end`/`dur` resolution, clamping, and the 64-bit
  casts.
- `Duration`: the reverse depth-first walk of the duration estimate.
- `Styles`: the tables, how a style is parsed, and decoration tags.
- `Render`: the output cursor, the cue text, and the frame body.
- `Cues`: the forward walk yielding the cues, and the per-cue scan. Both are
  written as functions.
- `CueProps`: properties of the walk and of the scan.
- `Frames`: the `Track` object and the imperative frame extractor.
- `Sniff`: the format test.
- `StripLines`: the in-place newline stripper.

Several quirks of the source are modelled as written:

- The `dur` attribute is only read when only the end time is wanted.
- A nested span takes its decorations from the cue's own flag, not from the
  enclosing span.
- `last_div` is cleared when its own stack entry is popped, and is never
  restored to an outer `div`.
- At the natural end of the walk, the last frame's duration is taken from the
  times extracted last. Those may belong to a later `p` that gave no frame.
  `CueProps.TrailingUntimedCue` exhibits this.

## Model

| member | source | states |
|---|---|---|
| XmlTree.GetProp | vod/subtitle/dfxp_format.c:59-75 | an attribute value is found exactly when the element has the attribute as a single text, and it is that text |
| XmlTree.TopLevel | vod/subtitle/dfxp_format.c:927 | the walks start from the root element alone: one node when the document has a root, none otherwise |
| Timestamp.TimestampValue | vod/subtitle/dfxp_format.c:88-91 | a time expression is worth -1 or more, and exactly -1 when it does not start with a digit |
| Timestamp.ParseTimestamp | vod/subtitle/dfxp_format.c:77-225 | the pointer-walking parser returns the value of the time expression as the grammar defines it |
| Timestamp.AccumulateDigits | vod/subtitle/dfxp_format.c:93-96 | a digit loop stops at the first non-digit; the number accumulates the run's value and the divisor is 10 to the run's length |
| Timestamp.ParseClockTime | vod/subtitle/dfxp_format.c:98-163 | the clock-time branch computes the clock-time value after `H:`: two-digit minutes and seconds around a colon and a valid suffix, or -1 |
| Timestamp.ParseClockSuffix | vod/subtitle/dfxp_format.c:116-163 | after `H:MM:SS`: the end, a fraction or a frame count, each giving the clock-time value, anything else -1 |
| Timestamp.ParseFraction | vod/subtitle/dfxp_format.c:121-141 | a `.` needs a digit run running to the end of the string, and gives the seconds plus that fraction in milliseconds, rounded down; anything else is -1 |
| Timestamp.ParseFrameCount | vod/subtitle/dfxp_format.c:143-162 | a `:` needs a digit run running to the end of the string, and gives the seconds in milliseconds plus that many frames at 30 per second, rounded down; anything else is -1 |
| Timestamp.ParseOffsetTime | vod/subtitle/dfxp_format.c:165-221 | the offset-time branch: an optional fraction and then the metric decide the value, or -1 |
| TimestampGrammar.ClockPrefix | vod/subtitle/dfxp_format.c:93-101 | digits followed by `:` are read as clock-time, with the hours being those digits |
| TimestampGrammar.ClockTimeWhole | vod/subtitle/dfxp_format.c:111-119 | `H:MM:SS` is worth `(H*3600 + MM*60 + SS) * 1000` |
| TimestampGrammar.ClockTimeFraction | vod/subtitle/dfxp_format.c:121-141 | `H:MM:SS.F`, with k fraction digits, is worth `((H*3600 + MM*60 + SS) * 10^k + F) * 1000 div 10^k` |
| TimestampGrammar.ClockTimeFrames | vod/subtitle/dfxp_format.c:143-162 | `H:MM:SS:FF` is worth `(H*3600 + MM*60 + SS) * 1000 + FF * 1000 div 30` |
| TimestampGrammar.ClockTimeNeedsFields | vod/subtitle/dfxp_format.c:103-109 | after `H:`, anything but two digits, a colon and two digits gives -1 |
| TimestampGrammar.ClockTimeTrailing | vod/subtitle/dfxp_format.c:116-163 | a character other than the end, `.` or `:` after `H:MM:SS` gives -1 |
| TimestampGrammar.ClockTimeEmptySuffix | vod/subtitle/dfxp_format.c:121-150 | a `.` or `:` after `H:MM:SS` with no digit after it gives -1 |
| TimestampGrammar.ClockTimeSuffixTrailing | vod/subtitle/dfxp_format.c:136-160 | any character after the fraction or frame digits gives -1, never a partial value |
| TimestampGrammar.OffsetPrefix | vod/subtitle/dfxp_format.c:165-168 | digits followed by anything but `:` are read as offset-time of that number |
| TimestampGrammar.OffsetTimeValue | vod/subtitle/dfxp_format.c:184-221 | `N` followed by `h`, `m`, `ms`, `s` or `f` is worth `N * mul div den`, with `ms` told apart from `m` |
| TimestampGrammar.OffsetTimeFraction | vod/subtitle/dfxp_format.c:169-182 | `N.F` with k fraction digits and a metric is worth `(N * 10^k + F) * mul div (10^k * den)` |
| TimestampGrammar.MetricValue | vod/subtitle/dfxp_format.c:185-221 | a metric that ends the string scales the value by its multiplier and divisor (`f` counts 30 to the second) |
| TimestampGrammar.OffsetTimeNeedsMetric | vod/subtitle/dfxp_format.c:212-213 | a bare number without a metric gives -1 |
| TimestampGrammar.OffsetTimeUnknownMetric | vod/subtitle/dfxp_format.c:212-213 | an unknown metric letter gives -1 |
| TimestampGrammar.OffsetTimeEmptyFraction | vod/subtitle/dfxp_format.c:169-176 | a `.` after the number not followed by a digit gives -1 |
| TimestampGrammar.OffsetFractionNeedsMetric | vod/subtitle/dfxp_format.c:169-213 | a fraction followed by the end of the string or by a letter other than h, m, s, f gives -1 |
| TimestampGrammar.OffsetTimeTrailing | vod/subtitle/dfxp_format.c:216-219 | any character after `N` and a metric gives -1, never a partial value |
| TimestampGrammar.OffsetFractionTrailing | vod/subtitle/dfxp_format.c:169-219 | any character after `N.F` and a metric gives -1, never a partial value |
| TimeRange.AttrTime | vod/subtitle/dfxp_format.c:232-242 | a missing or non-text attribute gives -1; otherwise the value of its time expression, which is -1 or more |
| TimeRange.ExtractTime | vod/subtitle/dfxp_format.c:245-265 | when begin and end are both wanted: both fields are replaced by `begin` and `end`, success iff `begin` parses, `dur` never read. When only the end is wanted: the end is `end`, else `begin + dur`, else -1, and success iff it is known |
| TimeRange.Clamp | vod/subtitle/dfxp_format.c:267-279 | the result lies in `[lo, hi]`; a value inside is kept; below gives `lo`; above gives `hi` |
| TimeRange.ClampMonotone | vod/subtitle/dfxp_format.c:267-279 | clamping preserves order |
| TimeRange.ClampIdempotent | vod/subtitle/dfxp_format.c:267-279 | clamping twice is clamping once |
| TimeRange.U64 | vod/subtitle/dfxp_format.c:1001 | the `(uint64_t)` cast: the identity on `[0, 2^64)`, and adds 2^64 to a negative value such as -1 |
| TimeRange.S64 | vod/subtitle/dfxp_format.c:1013-1014 | reading a 64-bit value back as `int64_t`: the result is within range and an in-range value is kept |
| Duration.MaxEndIsMaximum | vod/subtitle/dfxp_format.c:311-341 | the running maximum bounds the end of every element consulted and, unless it is the initial 0, is one of those ends |
| Duration.TakeThroughPrefix | vod/subtitle/dfxp_format.c:343-347 | the walk is cut right after its 10th `p`: what is consulted is a prefix with at most 10 `p`s, the whole walk when it has fewer, and otherwise ends on a `p` |
| Duration.DurationBounds | vod/subtitle/dfxp_format.c:281-351 | the estimate is at least 0, bounds the end of every `div` and `p` consulted, and is one of those ends unless it is 0 |
| Duration.SmallDocumentFullyConsulted | vod/subtitle/dfxp_format.c:343-347 | a document with fewer than 10 `p`s on the walk is consulted in full |
| Duration.ParagraphIsLeaf | vod/subtitle/dfxp_format.c:321-334 | a `p` is never descended into |
| Duration.GetDuration | vod/subtitle/dfxp_format.c:281-351 | the loop over a 10-slot stack, run last child first, returns the estimate defined on the walk order |
| Duration.PopStep | vod/subtitle/dfxp_format.c:295-303 | popping resumes before the popped element, and the stack stays a prefix of the walk |
| Duration.SkipStep | vod/subtitle/dfxp_format.c:306-309 | a non-element is passed over without a visit |
| Duration.VisitStep | vod/subtitle/dfxp_format.c:311-347 | an element is visited in walk order and a non-`p` with children is pushed while the stack has room; the loop stops after its 10th `p`, with the maximum over the walk so far |
| Duration.Consult | vod/subtitle/dfxp_format.c:314-318 | the result becomes the larger of itself and the element's end estimate |
| Duration.PushCursor | vod/subtitle/dfxp_format.c:330-332 | pushing stores the cursor in the first free slot |
| StripLines.Stripped | vod/subtitle/dfxp_format.c:361-367 | keeps the length, turns every CR and LF into a space, keeps every other byte, and leaves no line break |
| StripLines.StrippedIdempotent | vod/subtitle/dfxp_format.c:353-368 | stripping twice is stripping once |
| StripLines.StripNewLines | vod/subtitle/dfxp_format.c:353-368 | the first `n` bytes of the buffer are rewritten in place into their stripped form, and the rest of the buffer is unchanged |
| Styles.CanContainStyle | vod/subtitle/dfxp_format.c:607-625 | true exactly for `p`, `div`, `region`, `span` and `body` elements |
| Styles.AddTextFlagsBits | vod/subtitle/dfxp_format.c:627-636 | decoration bit i is set exactly when it was set already or the element's row-i attribute has the row's value; no other bit changes |
| Styles.FirstRegion | vod/subtitle/dfxp_format.c:647-658 | the preset found is the first `regiontab` row the `region` attribute names, and none when no row matches |
| Styles.FirstAlign | vod/subtitle/dfxp_format.c:660-672 | the alignment row found is the first row whose value the attribute holds, and none when no row matches |
| Styles.FindRegion | vod/subtitle/dfxp_format.c:647-658 | the table loop finds the first matching region row |
| Styles.FindAlign | vod/subtitle/dfxp_format.c:660-672 | the table loop finds the first matching alignment row |
| Styles.ParseStyle | vod/subtitle/dfxp_format.c:644-677 | the in-place update computes the element's style from the incoming one |
| Styles.StyleOfValid | vod/subtitle/dfxp_format.c:527-569 | a parsed style only has the three decoration bits and alignment indices that address a table row |
| Styles.DecorationStepBits | vod/subtitle/dfxp_format.c:674 | the decoration step keeps every incoming bit, adds no bit outside the three decorations, and leaves the alignments alone |
| Styles.RegionReplacesStyle | vod/subtitle/dfxp_format.c:647-658 | with a region preset, the incoming style does not matter at all |
| Styles.RegionPresetBold | vod/subtitle/dfxp_format.c:564-569 | under a region preset, the text is bold |
| Styles.RegionPresetAlignments | vod/subtitle/dfxp_format.c:647-672 | under a region preset (a `regiontab` row, lines 560-569) the text is centred and the display alignment is the preset row's, unless the element names a text or display alignment of its own, which then wins |
| Styles.DecorationsAccumulate | vod/subtitle/dfxp_format.c:674 | without a preset, the incoming decoration bits are a subset of the new ones |
| Styles.TextAlignKept | vod/subtitle/dfxp_format.c:660-665 | with no `textAlign` match and no region preset, the incoming text alignment is kept |
| Styles.DisplayAlignKept | vod/subtitle/dfxp_format.c:667-672 | with no `displayAlign` match and no preset, the incoming display alignment is kept |
| Styles.TextAlignFirstMatch | vod/subtitle/dfxp_format.c:660-665 | the first matching `textAlign` row wins, whatever matches after it |
| Styles.DisplayAlignFirstMatch | vod/subtitle/dfxp_format.c:667-672 | the first matching `displayAlign` row wins, whatever matches after it |
| Styles.TagRowsExact | vod/subtitle/dfxp_format.c:701-707 | the tags emitted are exactly those of the set bits, in table order |
| Styles.TagDeltaBits | vod/subtitle/dfxp_format.c:692 | `flag & (flag ^ parentflag)` is exactly the bits of `flag` that `parentflag` lacks |
| Styles.AppendTagInherited | vod/subtitle/dfxp_format.c:692-697 | a child adding no decoration to its parent's gets no tag |
| Styles.TagsNest | vod/subtitle/dfxp_format.c:699-718 | the tag opened first is closed last, around the other tags and the content |
| Styles.CloseTagsFirst | vod/subtitle/dfxp_format.c:711-718 | close tags run in reverse table order, so the first row's close tag comes last |
| Styles.Annotation | vod/subtitle/dfxp_format.c:726-734 | the cue settings are at most 43 bytes, and empty for the default alignments |
| Render.Writer.Counting | vod/subtitle/dfxp_format.c:507-511 | the counting cursor starts at 0 with nothing written |
| Render.Writer.Writing | vod/subtitle/dfxp_format.c:815-821 | the writing cursor owns a fresh buffer of the allocated size |
| Render.Writer.Append | vod/subtitle/dfxp_format.c:496-511 | in either mode, the string is appended to what has been written, and in writing mode it is stored in the buffer |
| Render.AppendStyle | vod/subtitle/dfxp_format.c:726-734 | appends exactly the cue settings of the style |
| Render.AppendTextContent | vod/subtitle/dfxp_format.c:736-802 | the stack walk appends exactly the cue text defined on the tree, in counting and in writing mode alike, so the measured length is the written length |
| Render.Step | vod/subtitle/dfxp_format.c:747-799 | one loop iteration keeps "written + still pending == whole text", with the stack at most 10 deep, and shrinks the measure |
| Render.CloseSpan | vod/subtitle/dfxp_format.c:750-759 | popping closes the span with the same flag pair that opened it |
| Render.OpenSpan | vod/subtitle/dfxp_format.c:775-792 | entering a span saves the enclosing flag and opens the tags of the decorations it adds |
| Render.PassNode | vod/subtitle/dfxp_format.c:762-798 | text gives its content, `br` a newline, and any other node nothing |
| Render.PushFrame | vod/subtitle/dfxp_format.c:783-784 | pushing stores the saved position in the first free slot |
| Render.LeadingSpaces | vod/subtitle/dfxp_format.c:829 | the length of the leading whitespace run (C-locale `isspace`) |
| Render.FrameBody | vod/subtitle/dfxp_format.c:806-846 | the result is NOT_FOUND exactly when the measured text is empty |
| Render.FrameBodyFits | vod/subtitle/dfxp_format.c:813-840 | the body is the settings, a separator, the text and two bytes; so it is at most 46 bytes beyond the measure, below the 64 allocated, and the overrun branch cannot be taken |
| Render.FrameBodyShape | vod/subtitle/dfxp_format.c:821-835 | the body starts with the settings, the leading whitespace becomes spaces ended by a newline, the text follows from its first other character, and the body ends in `"\n\n"` |
| Render.GetFrameBody | vod/subtitle/dfxp_format.c:806-846 | measure, allocate, write and tidy produce exactly the frame body |
| Render.SpaceOut | vod/subtitle/dfxp_format.c:829-831 | the leading whitespace run becomes spaces in place, and the loop stops at the first other byte |
| Render.CloseBody | vod/subtitle/dfxp_format.c:832-835 | the final writes leave the buffer holding the frame body |
| Cues.WalkRun | vod/subtitle/dfxp_format.c:927-990 | every cue of a sibling run is an element with a valid style, and the run leaves `last_div` as it found it or cleared |
| Cues.WalkNode | vod/subtitle/dfxp_format.c:956-990 | a `p` is one cue and is not entered; another element with children is entered below depth 10; on leaving, a `last_div` equal to it is cleared |
| Cues.CuesOf | vod/subtitle/dfxp_format.c:927 | the cues of the document, taken from its root element, are elements with valid styles |
| Cues.WindowOf | vod/subtitle/dfxp_format.c:912-925 | the start is `range.start + clip_from`; relative timestamps measure from it and end at `range.end - range.start`; absolute ones measure from `clip_from`, clip to `clip_to` and end at `range.end` |
| Cues.CueTimes | vod/subtitle/dfxp_format.c:993-999 | a cue's times come from the `p`'s own `begin`/`end`, else from `last_div`; when found, the start is at least 0 |
| Cues.SetDuration | vod/subtitle/dfxp_format.c:1031-1034 | only the last frame's duration changes |
| CueProps.CuesAreParagraphs | vod/subtitle/dfxp_format.c:971-999 | every cue is a `p` element, and its fallback, if any, is a `div` |
| CueProps.CueOutcome | vod/subtitle/dfxp_format.c:992-1061 | a cue that passes every filter but the last sets the previous frame's duration to the gap from `last_start_time` to its clipped start (or, with no frame yet, the first offset to that start) and leaves the earlier frames alone; a cue that fails any other leaves the frames and first offset unchanged. It adds a frame exactly when it has times, does not end before the window, is not empty in time, renders to a text and starts (clipped) before the window end. Meeting all but the last condition stops the scan. The frame holds the text and `end - start` of the clipped times, and is not a key frame. Only a cue ending before the window increments `first_frame_index` |
| CueProps.FoldKeepsEarlier | vod/subtitle/dfxp_format.c:1030-1061 | over any cues, the scan only adds frames, leaves every frame before the last untouched and keeps the first offset once a frame exists |
| CueProps.FoldKeepsStarts | vod/subtitle/dfxp_format.c:1030-1061 | the last frame starts (first offset plus the earlier durations) at `last_start_time`, and no later cue moves the start of any emitted frame, so each duration before the last is the next frame's start minus its own |
| CueProps.PreviousFrameFixed | vod/subtitle/dfxp_format.c:1031-1034 | the previous frame's duration becomes the gap to the new start and the frames before it are unchanged, so the durations up to it sum to the new start minus the first offset |
| CueProps.EmitConsistent | vod/subtitle/dfxp_format.c:1030-1061 | emitting keeps the scan invariant: sizes summed into `total_frames_size`, durations summing to the last start minus the first offset, and the total duration set to the sum on a stop |
| CueProps.CueStepConsistent | vod/subtitle/dfxp_format.c:992-1061 | one cue keeps the scan invariant and never lowers `first_frame_index` |
| CueProps.FoldConsistent | vod/subtitle/dfxp_format.c:927-1062 | the whole scan keeps the invariant |
| CueProps.FoldStopped | vod/subtitle/dfxp_format.c:1040-1044 | once stopped at the window end, the scan ignores every further cue |
| CueProps.ParseFramesTotals | vod/subtitle/dfxp_format.c:930-1061 | no frame is a key frame; each size is its text's length; `total_frames_size` grows by their sum and `first_frame_index` never drops. On a stop, `total_frames_duration` is the sum of the durations. At the natural end it exceeds that sum by the gap between the last frame's start and the last extracted start. With no frame it is unchanged |
| CueProps.ClipRange | vod/subtitle/dfxp_format.c:1013-1014 | a clipped time lies in `[0, clip_to]` |
| CueProps.ClipOrdered | vod/subtitle/dfxp_format.c:1013-1014 | without wrap-around, clipping keeps start ≤ end |
| CueProps.CueTimesFit | vod/subtitle/dfxp_format.c:993-999 | found times of in-range attributes are non-negative and within `int64_t` |
| CueProps.EmitFits | vod/subtitle/dfxp_format.c:1055-1057 | an emitted frame's `pts_delay` lies in `[0, clip_to]` |
| CueProps.CueStepFits | vod/subtitle/dfxp_format.c:1012-1057 | one cue keeps every `pts_delay` within `[0, clip_to]` |
| CueProps.FoldFits | vod/subtitle/dfxp_format.c:1012-1061 | with in-range attributes and window, every frame's `pts_delay` lies in `[0, clip_to]` |
| CueProps.TrailingUntimedCue | vod/subtitle/dfxp_format.c:930-939 | a concrete case: a trailing `p` without times leaves the frames alone, yet makes the last frame's duration 0 instead of 1000 and the total duration -1 instead of 1000 |
| Frames.Track.constructor | vod/subtitle/dfxp_format.c:860 | a track with no frame and the given index, offset, total duration and total size |
| Frames.Parent | vod/subtitle/dfxp_format.c:963-965 | the style inherited from the stack top is a valid style |
| Frames.PushEntry | vod/subtitle/dfxp_format.c:984-986 | pushing stores the entry in the first free slot |
| Frames.PopStep | vod/subtitle/dfxp_format.c:942-953 | popping resumes after the popped element with its style; a `last_div` equal to it is cleared; the cues still to come are unchanged |
| Frames.SkipStep | vod/subtitle/dfxp_format.c:956-959 | a non-element is passed over and the cues still to come are unchanged |
| Frames.ElementStyle | vod/subtitle/dfxp_format.c:961-969 | an element's style is its parent's (the current one at the root) with its own attributes applied when it may carry style |
| Frames.EnterStep | vod/subtitle/dfxp_format.c:971-989 | a non-`p` with children is pushed while the stack has room (a `div` becoming `last_div`), and is passed over otherwise; the stack never exceeds 10 |
| Frames.ExtractCueTimes | vod/subtitle/dfxp_format.c:993-999 | the `p`'s times, else `last_div`'s, as the cue's times |
| Frames.EndsBefore | vod/subtitle/dfxp_format.c:1001 | the test compares the end, cast to `uint64_t`, with the window start |
| Frames.ClipTime | vod/subtitle/dfxp_format.c:1013-1014 | computes the clipped time, with the source's 64-bit conversions |
| Frames.TimedCue | vod/subtitle/dfxp_format.c:1001-1010 | a cue without times is skipped, one ending before the window is counted, and one empty in time is dropped; the track and locals then equal the scan's next state |
| Frames.ClipAndEmit | vod/subtitle/dfxp_format.c:1012-1028 | the clipped cue is emitted when it renders to a text and is dropped otherwise, matching the scan |
| Frames.EmitFrame | vod/subtitle/dfxp_format.c:1030-1061 | the previous frame's duration or the first offset is set, then the walk stops at the window end with the total duration, or appends the frame and adds its size |
| Frames.TakeCue | vod/subtitle/dfxp_format.c:992-1061 | the `p` branch leaves the track and locals equal to the scan after this cue |
| Frames.CueBranch | vod/subtitle/dfxp_format.c:992-1061 | scanning a `p` and moving past it keeps the scan of the rest of the walk unchanged |
| Frames.ElementStep | vod/subtitle/dfxp_format.c:956-1061 | one element keeps the scan of the rest of the walk unchanged and shrinks the measure |
| Frames.WalkStep | vod/subtitle/dfxp_format.c:926-1061 | each turn of the walk loop keeps the stack a prefix of the walk and the scan of what remains unchanged, and shrinks the measure |
| Frames.Finalize | vod/subtitle/dfxp_format.c:934-938 | at the natural end, the last frame lasts the last extracted `end - start` and the total runs to that end; the frames and their count are then stored in the track |
| Frames.ParseFrames | vod/subtitle/dfxp_format.c:848-1069 | without the all-frames flag the track is untouched. Otherwise the walk over a 10-slot `{node, style}` stack leaves in the track exactly the scan of the document's cues over the requested window: frames, frame count, first index, first offset, total duration and total size |
| Sniff.CString | vod/subtitle/dfxp_format.c:33 | the buffer is read up to its first NUL |
| Sniff.AcceptedHasRoot | vod/subtitle/dfxp_format.c:35-52 | whatever is accepted contains `<tt` |
| Sniff.RootFirstAccepted | vod/subtitle/dfxp_format.c:49-52 | a buffer starting with `<tt` is accepted |
| Sniff.UnknownStartRejected | vod/subtitle/dfxp_format.c:49-52 | after any byte order mark, text opening with neither `<?xml`, `<xml` nor `<tt` is rejected |
| Sniff.BomSkipped | vod/subtitle/dfxp_format.c:35-38 | a UTF-8 byte order mark is skipped: with it, a buffer is accepted exactly when what follows it is |
| Sniff.DeclarationSearches | vod/subtitle/dfxp_format.c:40-48 | after `<?xml` or `<xml`, the buffer is accepted exactly when `<tt` occurs somewhere in it |

## Left out

- libxml2 parsing and the document's lifecycle (`dfxp_parse`, the parser context, pool cleanup): the tree is an input. Only the root element of a document is kept, because the walks skip its non-element siblings.
- The SAX and schema error callbacks and their logging. Only the newline stripper they use is modelled.
- `dfxp_init_process`, `dfxp_exit_process` and the `dfxp_format` registration record.
- `subtitle_reader_init`, `subtitle_parse` and `subtitle_format.h` are not part of this model. `UTF8_BOM` is taken to be the three bytes EF BB BF.
- Allocation failures (`VOD_ALLOC_FAILED` from `vod_array_init`, `vod_array_push` and `vod_alloc`) are not modelled. The frames array is a sequence that grows by append.
- The result track-array initialisation and the WebVTT header (lines 888-896) are not modelled.
- A frame's `offset` holds a pointer to its text. The model stores the text itself.
- `last_div` is compared by value, not by pointer. It only ever holds the element whose stack entry is later popped.
- Every string is a byte string with one `char` per byte, and UTF-8 is not decoded. So `|text|`, each frame's `size`, `total_frames_size` and the allocation size are byte counts, as `strlen` and `text.len` are in the source. A Dafny `char` above `'\U{FF}'` stands for nothing in the source.
- Text nodes never hold a NUL byte (XML excludes it), so a node's content is its whole text.
- The declaration line of `textaligntab` is missing from the source (lines 541-542). Its row shape `{name, attr, vtt}` is taken from `displayaligntab` and from its uses.
- The commented-out `style_defaults` and `dfxp_style_merge` (lines 578-605) are not modelled.
- The `VOD_UNEXPECTED` overrun branch of `dfxp_get_frame_body` is not modelled as a result: `Render.FrameBodyFits` proves it cannot be taken.
- Timestamp.ParseTimestamp: digit runs accumulate in unbounded integers, so the `int64_t` overflow of very long runs is not modelled.
- Frames.ParseFrames: the track fields are unbounded integers, and the frame list's `uint32_t` count is taken as its length.
