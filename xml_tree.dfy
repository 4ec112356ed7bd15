/** The in-memory document tree the DFXP reader walks, as built by the XML
    library (which is not part of this model), and the attribute lookup
    `dfxp_get_xml_prop`. */
module XmlTree {

  datatype Option<T> = None | Some(value: T)

  /** DFXP_MAX_STACK_DEPTH: the size of the explicit stack every walk of
      the tree keeps, so how many levels of children it follows. */
  const MaxDepth: nat := 10

  /** What the XML library keeps under an attribute: either a single text or
      CDATA child holding the value, or anything else (no child, several
      children, an entity reference ...). */
  datatype Attr = Simple(text: string) | Compound

  /** A node of the tree. `Text` stands for both text and CDATA section
      nodes (the reader treats them alike); `Other` for comments, processing
      instructions and entity references, which every walk skips. */
  datatype Node =
    | Element(name: string, attrs: map<string, Attr>, children: seq<Node>)
    | Text(content: string)
    | Other

  /** A parsed document: its root element, if the library found one. The
      root's document-level siblings can only be comments and processing
      instructions, which every walk skips, so they are not represented. */
  datatype Document = Document(root: Option<Node>)

  /** The sibling list a walk of the document starts from. */
  function TopLevel(doc: Document): (r: seq<Node>)
    ensures |r| <= 1
    ensures doc.root.Some? <==> |r| == 1
  {
    if doc.root.Some? then [doc.root.value] else []
  }

  /** `dfxp_get_xml_prop`: the value of attribute `name`, present only when
      the attribute consists of exactly one text or CDATA child. */
  function GetProp(n: Node, name: string): (r: Option<string>)
    ensures r.Some? <==> n.Element? && name in n.attrs && n.attrs[name].Simple?
    ensures r.Some? ==> r.value == n.attrs[name].text
  {
    if n.Element? && name in n.attrs then
      match n.attrs[name]
      case Simple(v) => Some(v)
      case Compound => None
    else None
  }

  predicate IsElementNamed(n: Node, name: string) {
    n.Element? && n.name == name
  }

  /** Reads byte `i` of a C string held as `s`: past the end it reads the
      terminating NUL. */
  function At(s: string, i: nat): char {
    if i < |s| then s[i] else '\0'
  }

  // ---------------------------------------------------------------------
  // Node counts, used as termination measures of the iterative walks.

  function Size(n: Node): (r: nat)
    ensures r >= 1
  {
    match n
    case Element(_, _, children) => 1 + SeqSize(children)
    case _ => 1
  }

  function SeqSize(s: seq<Node>): nat
  {
    if s == [] then 0 else Size(s[0]) + SeqSize(s[1..])
  }

  lemma {:induction false} SeqSizeAppend(a: seq<Node>, b: seq<Node>)
    ensures SeqSize(a + b) == SeqSize(a) + SeqSize(b)
  {
    if a == [] {
      assert a + b == b;
    } else {
      assert (a + b)[1..] == a[1..] + b;
      SeqSizeAppend(a[1..], b);
    }
  }

  /** Splitting a sibling list at position `i`, from either side. */
  lemma SeqSizeAt(s: seq<Node>, i: nat)
    requires i < |s|
    ensures SeqSize(s[i..]) == Size(s[i]) + SeqSize(s[i + 1..])
    ensures SeqSize(s[..i + 1]) == SeqSize(s[..i]) + Size(s[i])
  {
    assert s[i..][1..] == s[i + 1..];
    SeqSizeAppend(s[..i], [s[i]]);
    assert s[..i + 1] == s[..i] + [s[i]];
    assert SeqSize([s[i]]) == Size(s[i]) + SeqSize([s[i]][1..]);
  }
}
