/** The style model of the DFXP reader: the static tables that map TTML
    attributes to WebVTT cue settings and decoration tags
    (`decorationtab`, `textaligntab`, `displayaligntab`, `regiontab`),
    `dfxp_has_attr_value`, `dfxp_can_contain_style`, `dfxp_add_textflags`,
    `dfxp_parse_style`, and the tag and settings text emitted from a style
    (`dfxp_append_tag`, `dfxp_append_style`). */
module Styles {
  import opened XmlTree

  // ---------------------------------------------------------------------
  // Tables.

  /** One row of `decorationtab`: the attribute value that turns the
      decoration on, the attribute, and the WebVTT open and close tags. */
  datatype Decoration = Decoration(name: string, attr: string, open: string, close: string)

  /** DECO_BOLD, DECO_ITALIC, DECO_UNDERLINE, in this order; row `i` owns
      bit `1 << i` of a decoration flag. */
  const DecorationTab: seq<Decoration> := [
    Decoration("bold", "fontWeight", "<b>", "</b>"),
    Decoration("italic", "fontStyle", "<i>", "</i>"),
    Decoration("underline", "textDecoration", "<u>", "</u>")
  ]

  /** One row of `textaligntab` or `displayaligntab`: the attribute value,
      the attribute, and the WebVTT cue settings it becomes. */
  datatype Alignment = Alignment(name: string, attr: string, vtt: string)

  /** TA_DEFAULT, TA_START, TA_CENTER, TA_END, TA_LEFT, TA_RIGHT. */
  const TextAlignTab: seq<Alignment> := [
    Alignment("", "textAlign", " "),
    Alignment("start", "textAlign", " position:15% align:start "),
    Alignment("center", "textAlign", " position:50% align:middle"),
    Alignment("end", "textAlign", " size:100% position:85% align:end"),
    Alignment("left", "textAlign", " position:15% align:start"),
    Alignment("right", "textAlign", " size:100% position:85% align:end")
  ]

  /** DA_DEFAULT, DA_BEFORE, DA_CENTER, DA_AFTER. */
  const DisplayAlignTab: seq<Alignment> := [
    Alignment("", "displayAlign", " "),
    Alignment("before", "displayAlign", " line:10%"),
    Alignment("center", "displayAlign", " line:50%"),
    Alignment("after", "displayAlign", " line:100%")
  ]

  const TaCenter: nat := 2
  const DaBefore: nat := 1
  const DaCenter: nat := 2
  const DaAfter: nat := 3

  /** The style of a cue: decoration bits (bit i for DecorationTab[i]) and
      the indices of its text and display alignment rows. The source's
      style also carries an `id`, which is never read. */
  datatype Style = Style(decoration: bv8, text: nat, display: nat)

  const ZeroStyle: Style := Style(0, 0, 0)

  /** Every style the reader builds: only the three decoration bits, and
      alignment indices that address a table row. */
  predicate ValidStyle(s: Style) {
    s.decoration & 0xF8 == 0 && s.text < |TextAlignTab| && s.display < |DisplayAlignTab|
  }

  datatype Region = Region(id: string, style: Style)

  /** `regiontab`: each region is bold, centred text, differing only in its
      display alignment. */
  const RegionTab: seq<Region> := [
    Region("lowerThird", Style(1, TaCenter, DaAfter)),
    Region("middleThird", Style(1, TaCenter, DaCenter)),
    Region("upperThird", Style(1, TaCenter, DaBefore))
  ]

  /** The elements that may carry style attributes (`syle_containers`). */
  const StyleContainers: seq<string> := ["p", "div", "region", "span", "body"]

  // ---------------------------------------------------------------------
  // Attribute tests.

  /** `dfxp_has_attr_value`. */
  predicate HasAttrValue(n: Node, name: string, value: string) {
    GetProp(n, name) == Some(value)
  }

  /** `dfxp_can_contain_style`: the element's name is one of the containers. */
  function CanContainStyle(n: Node): (r: bool)
    ensures r <==> n.Element? && n.name in StyleContainers
  {
    n.Element? && ContainsName(StyleContainers, n.name)
  }

  function ContainsName(names: seq<string>, x: string): (r: bool)
    ensures r <==> x in names
  {
    if names == [] then false
    else names[0] == x || ContainsName(names[1..], x)
  }

  /** The decoration bit of row `i` of DecorationTab. */
  function DecoBit(i: nat): (b: bv8)
    requires i < |DecorationTab|
  {
    if i == 0 then 1 else if i == 1 then 2 else 4
  }

  /** Whether `n` asks for decoration row `i`. */
  predicate Decorated(n: Node, i: nat)
    requires i < |DecorationTab|
  {
    HasAttrValue(n, DecorationTab[i].attr, DecorationTab[i].name)
  }

  /** `dfxp_add_textflags`: `flag` with the bit of every decoration whose
      attribute carries its value on `n` switched on, and no other change. */
  function AddTextFlags(n: Node, flag: bv8): (r: bv8)
  {
    flag | DecorationsOf(n)
  }

  /** The decoration bits `n` asks for. */
  function DecorationsOf(n: Node): (r: bv8)
  {
    (if Decorated(n, 0) then 1 else 0) |
    (if Decorated(n, 1) then 2 else 0) |
    (if Decorated(n, 2) then 4 else 0)
  }

  /** `dfxp_add_textflags` switches on exactly the bits of the decorations
      `n` carries, and changes nothing else. */
  lemma AddTextFlagsBits(n: Node, flag: bv8)
    ensures AddTextFlags(n, flag) & 0xF8 == flag & 0xF8
    ensures AddTextFlags(n, flag) & 1 != 0 <==> flag & 1 != 0 || Decorated(n, 0)
    ensures AddTextFlags(n, flag) & 2 != 0 <==> flag & 2 != 0 || Decorated(n, 1)
    ensures AddTextFlags(n, flag) & 4 != 0 <==> flag & 4 != 0 || Decorated(n, 2)
  {
  }

  // ---------------------------------------------------------------------
  // First-match search over a table, as each loop of `dfxp_parse_style`
  // does it.

  predicate RegionMatches(n: Node, i: nat)
    requires i < |RegionTab|
  {
    HasAttrValue(n, "region", RegionTab[i].id)
  }

  predicate AlignMatches(n: Node, tab: seq<Alignment>, i: nat)
    requires i < |tab|
  {
    HasAttrValue(n, tab[i].attr, tab[i].name)
  }

  /** The first region row at or after `from` that `n` names. */
  function FirstRegion(n: Node, from: nat): (r: Option<nat>)
    requires from <= |RegionTab|
    ensures r.Some? ==> from <= r.value < |RegionTab| && RegionMatches(n, r.value)
    ensures r.Some? ==> forall k :: from <= k < r.value ==> !RegionMatches(n, k)
    ensures r.None? ==> forall k :: from <= k < |RegionTab| ==> !RegionMatches(n, k)
    decreases |RegionTab| - from
  {
    if from == |RegionTab| then None
    else if RegionMatches(n, from) then Some(from)
    else FirstRegion(n, from + 1)
  }

  /** The first row of `tab` at or after `from` whose value `n` carries. */
  function FirstAlign(n: Node, tab: seq<Alignment>, from: nat): (r: Option<nat>)
    requires from <= |tab|
    ensures r.Some? ==> from <= r.value < |tab| && AlignMatches(n, tab, r.value)
    ensures r.Some? ==> forall k :: from <= k < r.value ==> !AlignMatches(n, tab, k)
    ensures r.None? ==> forall k :: from <= k < |tab| ==> !AlignMatches(n, tab, k)
    decreases |tab| - from
  {
    if from == |tab| then None
    else if AlignMatches(n, tab, from) then Some(from)
    else FirstAlign(n, tab, from + 1)
  }

  /** The four steps of `dfxp_parse_style`. */
  function RegionStep(n: Node, s: Style): Style {
    match FirstRegion(n, 0)
    case Some(i) => RegionTab[i].style
    case None => s
  }

  function TextStep(n: Node, s: Style): Style {
    match FirstAlign(n, TextAlignTab, 0)
    case Some(i) => s.(text := i)
    case None => s
  }

  function DisplayStep(n: Node, s: Style): Style {
    match FirstAlign(n, DisplayAlignTab, 0)
    case Some(i) => s.(display := i)
    case None => s
  }

  /** `s->flag.decoration |= dfxp_add_textflags(n, s->flag.decoration)`. */
  function DecorationStep(n: Node, s: Style): Style {
    s.(decoration := s.decoration | AddTextFlags(n, s.decoration))
  }

  /** The style `dfxp_parse_style` leaves in `*s`: a matching region preset
      replaces the whole style, then the first matching text alignment and
      the first matching display alignment each replace their category,
      and the element's decorations are OR-ed in. */
  function StyleOf(n: Node, s: Style): Style {
    DecorationStep(n, DisplayStep(n, TextStep(n, RegionStep(n, s))))
  }

  /** `dfxp_parse_style`: the three table searches, each stopping at its
      first match, then the decorations. */
  method ParseStyle(n: Node, s0: Style) returns (s: Style)
    ensures s == StyleOf(n, s0)
  {
    s := s0;
    var region := FindRegion(n);
    if region.Some? {
      s := RegionTab[region.value].style;
    }
    assert s == RegionStep(n, s0);
    ghost var s1 := s;
    var text := FindAlign(n, TextAlignTab);
    if text.Some? {
      s := s.(text := text.value);
    }
    assert s == TextStep(n, s1);
    ghost var s2 := s;
    var display := FindAlign(n, DisplayAlignTab);
    if display.Some? {
      s := s.(display := display.value);
    }
    assert s == DisplayStep(n, s2);
    s := DecorationStep(n, s);
  }

  /** The `regiontab` loop of `dfxp_parse_style`. */
  method FindRegion(n: Node) returns (r: Option<nat>)
    ensures r == FirstRegion(n, 0)
  {
    var i := 0;
    while i < |RegionTab|
      invariant 0 <= i <= |RegionTab|
      invariant FirstRegion(n, 0) == FirstRegion(n, i)
    {
      if HasAttrValue(n, "region", RegionTab[i].id) {
        return Some(i);
      }
      i := i + 1;
    }
    return None;
  }

  /** The `textaligntab` and `displayaligntab` loops of `dfxp_parse_style`. */
  method FindAlign(n: Node, tab: seq<Alignment>) returns (r: Option<nat>)
    ensures r == FirstAlign(n, tab, 0)
  {
    var i := 0;
    while i < |tab|
      invariant 0 <= i <= |tab|
      invariant FirstAlign(n, tab, 0) == FirstAlign(n, tab, i)
    {
      if HasAttrValue(n, tab[i].attr, tab[i].name) {
        return Some(i);
      }
      i := i + 1;
    }
    return None;
  }

  // ---------------------------------------------------------------------
  // Properties of the style computation.

  /** Every style the reader computes stays within the tables. */
  lemma StyleOfValid(n: Node, s: Style)
    requires ValidStyle(s)
    ensures ValidStyle(StyleOf(n, s))
  {
    var s1 := RegionStep(n, s);
    assert ValidStyle(s1);
    var s3 := DisplayStep(n, TextStep(n, s1));
    assert ValidStyle(s3);
    DecorationStepBits(n, s3);
  }

  /** The decoration step keeps the incoming bits and adds no bit outside
      the three decorations. */
  lemma DecorationStepBits(n: Node, s: Style)
    ensures DecorationStep(n, s).decoration & s.decoration == s.decoration
    ensures DecorationStep(n, s).decoration & 0xF8 == s.decoration & 0xF8
    ensures DecorationStep(n, s).text == s.text && DecorationStep(n, s).display == s.display
  {
    AddTextFlagsBits(n, s.decoration);
  }

  /** A region preset discards the incoming style entirely. */
  lemma RegionReplacesStyle(n: Node, s: Style, s': Style)
    requires FirstRegion(n, 0).Some?
    ensures StyleOf(n, s) == StyleOf(n, s')
  {
    assert RegionStep(n, s) == RegionStep(n, s');
  }

  /** Under a region preset the text is bold whatever the element says. */
  lemma RegionPresetBold(n: Node, s: Style)
    requires FirstRegion(n, 0).Some?
    ensures StyleOf(n, s).decoration & 1 == 1
  {
    var s1 := RegionStep(n, s);
    assert s1.decoration == 1;
    AlignStepsKeepDecoration(n, s1);
    DecorationStepBits(n, DisplayStep(n, TextStep(n, s1)));
  }

  /** Under a region preset the text is centred and the display alignment
      is the preset's own, unless the element names an alignment of its
      own, which then wins. */
  lemma RegionPresetAlignments(n: Node, s: Style, i: nat)
    requires FirstRegion(n, 0) == Some(i)
    ensures var ta := FirstAlign(n, TextAlignTab, 0);
      StyleOf(n, s).text == (if ta.Some? then ta.value else TaCenter)
    ensures var da := FirstAlign(n, DisplayAlignTab, 0);
      StyleOf(n, s).display == (if da.Some? then da.value else RegionTab[i].style.display)
  {
    var s1 := RegionStep(n, s);
    assert s1 == RegionTab[i].style;
    assert s1.text == TaCenter;
    DecorationStepBits(n, DisplayStep(n, TextStep(n, s1)));
  }

  /** The two alignment steps leave the decoration alone. */
  lemma AlignStepsKeepDecoration(n: Node, s: Style)
    ensures DisplayStep(n, TextStep(n, s)).decoration == s.decoration
  {
  }

  /** Without a region preset decorations only accumulate: every bit of the
      incoming style is still set. */
  lemma DecorationsAccumulate(n: Node, s: Style)
    requires FirstRegion(n, 0).None?
    ensures StyleOf(n, s).decoration & s.decoration == s.decoration
  {
    var s3 := DisplayStep(n, TextStep(n, RegionStep(n, s)));
    assert s3.decoration == s.decoration;
    DecorationStepBits(n, s3);
  }

  /** An alignment category that no row matches keeps the incoming value. */
  lemma TextAlignKept(n: Node, s: Style)
    requires FirstRegion(n, 0).None?
    requires forall i :: 0 <= i < |TextAlignTab| ==> !AlignMatches(n, TextAlignTab, i)
    ensures StyleOf(n, s).text == s.text
  {
    var s1 := RegionStep(n, s);
    assert s1 == s;
    TextStepNone(n, s1);
    var s3 := DisplayStep(n, TextStep(n, s1));
    assert s3.text == s.text;
    DecorationStepBits(n, s3);
  }

  /** No `textAlign` row matches: the text alignment is left alone. */
  lemma TextStepNone(n: Node, s: Style)
    requires forall i :: 0 <= i < |TextAlignTab| ==> !AlignMatches(n, TextAlignTab, i)
    ensures TextStep(n, s) == s
  {
    assert FirstAlign(n, TextAlignTab, 0).None?;
  }

  /** The same for the display alignment. */
  lemma DisplayAlignKept(n: Node, s: Style)
    requires FirstRegion(n, 0).None?
    requires forall i :: 0 <= i < |DisplayAlignTab| ==> !AlignMatches(n, DisplayAlignTab, i)
    ensures StyleOf(n, s).display == s.display
  {
    var s2 := TextStep(n, RegionStep(n, s));
    assert s2.display == s.display;
    DisplayStepNone(n, s2);
    DecorationStepBits(n, DisplayStep(n, s2));
  }

  /** No `displayAlign` row matches: the display alignment is left alone. */
  lemma DisplayStepNone(n: Node, s: Style)
    requires forall i :: 0 <= i < |DisplayAlignTab| ==> !AlignMatches(n, DisplayAlignTab, i)
    ensures DisplayStep(n, s) == s
  {
    assert FirstAlign(n, DisplayAlignTab, 0).None?;
  }

  /** The first matching text alignment row wins, whatever follows it. */
  lemma TextAlignFirstMatch(n: Node, s: Style, i: nat)
    requires i < |TextAlignTab| && AlignMatches(n, TextAlignTab, i)
    requires forall k :: 0 <= k < i ==> !AlignMatches(n, TextAlignTab, k)
    ensures StyleOf(n, s).text == i
  {
    assert FirstAlign(n, TextAlignTab, 0) == Some(i);
    var s3 := DisplayStep(n, TextStep(n, RegionStep(n, s)));
    assert s3.text == i;
    DecorationStepBits(n, s3);
  }

  /** The first matching display alignment row wins, whatever follows it. */
  lemma DisplayAlignFirstMatch(n: Node, s: Style, i: nat)
    requires i < |DisplayAlignTab| && AlignMatches(n, DisplayAlignTab, i)
    requires forall k :: 0 <= k < i ==> !AlignMatches(n, DisplayAlignTab, k)
    ensures StyleOf(n, s).display == i
  {
    assert FirstAlign(n, DisplayAlignTab, 0) == Some(i);
    var s3 := DisplayStep(n, TextStep(n, RegionStep(n, s)));
    assert s3.display == i;
    DecorationStepBits(n, s3);
  }

  // ---------------------------------------------------------------------
  // Text emitted from a style.

  /** The rows whose bit is set in `delta`, in table order. */
  function TagRows(delta: bv8): (r: seq<nat>)
    ensures forall k :: 0 <= k < |r| ==> r[k] < |DecorationTab|
  {
    (if delta & 1 != 0 then [0] else []) +
    (if delta & 2 != 0 then [1] else []) +
    (if delta & 4 != 0 then [2] else [])
  }

  function OpenTags(rows: seq<nat>): string
    requires forall k :: 0 <= k < |rows| ==> rows[k] < |DecorationTab|
  {
    if rows == [] then "" else DecorationTab[rows[0]].open + OpenTags(rows[1..])
  }

  /** Close tags for `rows`, innermost (last) first. */
  function CloseTags(rows: seq<nat>): string
    requires forall k :: 0 <= k < |rows| ==> rows[k] < |DecorationTab|
  {
    if rows == [] then "" else DecorationTab[rows[|rows| - 1]].close + CloseTags(rows[..|rows| - 1])
  }

  /** The decorations `flag` has and `parentflag` lacks:
      `flag & (flag ^ parentflag)`. */
  function TagDelta(flag: bv8, parentflag: bv8): bv8
  {
    flag & (flag ^ parentflag)
  }

  /** `dfxp_append_tag`: open tags in table order, or close tags in
      reverse table order, for the decorations the element adds to its
      parent's. */
  function AppendTag(flag: bv8, parentflag: bv8, close: bool): string
  {
    var rows := TagRows(TagDelta(flag, parentflag));
    if close then CloseTags(rows) else OpenTags(rows)
  }

  /** The rows are exactly the table rows whose bit is set, in table order. */
  lemma TagRowsExact(delta: bv8)
    ensures forall k :: 0 <= k < |TagRows(delta)| ==> delta & DecoBit(TagRows(delta)[k]) != 0
    ensures forall i :: 0 <= i < |DecorationTab| && delta & DecoBit(i) != 0 ==> i in TagRows(delta)
    ensures forall j, k :: 0 <= j < k < |TagRows(delta)| ==> TagRows(delta)[j] < TagRows(delta)[k]
  {
  }

  /** `flag & (flag ^ parentflag)` keeps the bits of `flag` that
      `parentflag` lacks, and only those. */
  lemma TagDeltaBits(flag: bv8, parentflag: bv8)
    ensures TagDelta(flag, parentflag) & parentflag == 0
    ensures TagDelta(flag, parentflag) | parentflag == flag | parentflag
    ensures TagDelta(flag, parentflag) & flag == TagDelta(flag, parentflag)
  {
  }

  /** A child that adds no decoration to its parent's gets no tags. */
  lemma AppendTagInherited(flag: bv8, parentflag: bv8, close: bool)
    requires flag & parentflag == flag
    ensures AppendTag(flag, parentflag, close) == ""
  {
    assert TagDelta(flag, parentflag) == 0;
  }

  /** Tags nest: the first tag opened is the last one closed, around the
      tags of the remaining rows. */
  lemma {:induction false} TagsNest(rows: seq<nat>, inner: string)
    requires |rows| > 0
    requires forall k :: 0 <= k < |rows| ==> rows[k] < |DecorationTab|
    ensures OpenTags(rows) + inner + CloseTags(rows)
         == DecorationTab[rows[0]].open
          + (OpenTags(rows[1..]) + inner + CloseTags(rows[1..]))
          + DecorationTab[rows[0]].close
  {
    assert OpenTags(rows) == DecorationTab[rows[0]].open + OpenTags(rows[1..]);
    CloseTagsFirst(rows);
    Regroup(DecorationTab[rows[0]].open, OpenTags(rows[1..]), inner, CloseTags(rows[1..]), DecorationTab[rows[0]].close);
  }

  /** Moving the brackets of a five-part string around its middle. */
  lemma Regroup(o: string, a: string, m: string, b: string, c: string)
    ensures (o + a) + m + (b + c) == o + (a + m + b) + c
  {
  }

  /** CloseTags peeled from the front: the first row's tag comes last. */
  lemma {:induction false} CloseTagsFirst(rows: seq<nat>)
    requires |rows| > 0
    requires forall k :: 0 <= k < |rows| ==> rows[k] < |DecorationTab|
    ensures CloseTags(rows) == CloseTags(rows[1..]) + DecorationTab[rows[0]].close
    decreases |rows|
  {
    if |rows| > 1 {
      var last := DecorationTab[rows[|rows| - 1]].close;
      CloseTagsFirst(rows[..|rows| - 1]);
      assert rows[..|rows| - 1][1..] == rows[1..][..|rows[1..]| - 1];
      assert rows[..|rows| - 1][0] == rows[0];
    }
  }

  /** `dfxp_append_style`: the cue settings of the two alignment
      categories, each only when it is not the default row. */
  function Annotation(s: Style): (r: string)
    requires ValidStyle(s)
    ensures |r| <= 43
    ensures s.text == 0 && s.display == 0 ==> r == ""
  {
    (if s.text != 0 then TextAlignTab[s.text].vtt else "") +
    (if s.display != 0 then DisplayAlignTab[s.display].vtt else "")
  }
}
