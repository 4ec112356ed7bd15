/** The format test of `dfxp_reader_init`: whether a buffer is taken for a
    DFXP document. The buffer is read as a C string, up to its first NUL. */
module Sniff {

  /** UTF8_BOM: the UTF-8 byte order mark EF BB BF, one byte per char. */
  const Bom: string := ['\U{EF}', '\U{BB}', '\U{BF}']

  /** DFXP_PREFIX, DFXP_XML_PREFIX1 and DFXP_XML_PREFIX2. */
  const RootPrefix: string := "<tt"
  const XmlPrefix1: string := "<?xml"
  const XmlPrefix2: string := "<xml"

  predicate NoNul(s: string) {
    forall k :: 0 <= k < |s| ==> s[k] != '\0'
  }

  /** The C string a buffer holds: its bytes up to the first NUL. */
  function CString(buf: string): (r: string)
    ensures NoNul(r) && |r| <= |buf| && r == buf[..|r|]
    ensures |r| < |buf| ==> buf[|r|] == '\0'
  {
    if buf == [] || buf[0] == '\0' then [] else [buf[0]] + CString(buf[1..])
  }

  /** `vod_strncmp(p, pre, |pre|) == 0` for a prefix without NUL. */
  predicate StartsWith(s: string, pre: string) {
    |pre| <= |s| && s[..|pre|] == pre
  }

  /** `vod_strstrn(p, pat, ...) != NULL`: `pat` occurs somewhere in `s`. */
  predicate Occurs(s: string, pat: string)
  {
    StartsWith(s, pat) || (s != [] && Occurs(s[1..], pat))
  }

  /** The test once the byte order mark, if any, is skipped: an XML
      declaration must be followed somewhere by the root element's `<tt`,
      otherwise the text must start with `<tt`. */
  function Detect(p: string): bool
  {
    if StartsWith(p, XmlPrefix1) || StartsWith(p, XmlPrefix2) then Occurs(p, RootPrefix)
    else StartsWith(p, RootPrefix)
  }

  /** `dfxp_reader_init` up to the hand-over to the generic subtitle
      reader: true where it goes on, false where it returns NOT_FOUND. */
  function IsDfxp(buf: string): bool
  {
    var p := CString(buf);
    Detect(if StartsWith(p, Bom) then p[|Bom|..] else p)
  }

  /** `pat` at position `i` is an occurrence. */
  lemma {:induction false} OccursAt(s: string, pat: string, i: nat)
    requires i <= |s| && StartsWith(s[i..], pat)
    ensures Occurs(s, pat)
  {
    if i > 0 {
      assert s[1..][i - 1..] == s[i..];
      OccursAt(s[1..], pat, i - 1);
    }
  }

  /** An occurrence has a position. */
  lemma {:induction false} OccursWhere(s: string, pat: string) returns (i: nat)
    requires Occurs(s, pat)
    ensures i <= |s| && StartsWith(s[i..], pat)
  {
    if StartsWith(s, pat) {
      i := 0;
      assert s[0..] == s;
    } else {
      var j := OccursWhere(s[1..], pat);
      i := j + 1;
      assert s[1..][j..] == s[i..];
    }
  }

  /** Whatever is accepted holds the root element's `<tt` somewhere. */
  lemma AcceptedHasRoot(buf: string)
    requires IsDfxp(buf)
    ensures Occurs(CString(buf), RootPrefix)
  {
    var p := CString(buf);
    var q := if StartsWith(p, Bom) then p[|Bom|..] else p;
    var i: nat := 0;
    if StartsWith(q, XmlPrefix1) || StartsWith(q, XmlPrefix2) {
      i := OccursWhere(q, RootPrefix);
    } else {
      assert q[0..] == q;
    }
    var off := if StartsWith(p, Bom) then |Bom| else 0;
    assert p[off + i..] == q[i..];
    OccursAt(p, RootPrefix, off + i);
  }

  /** A buffer starting with `<tt` is accepted. */
  lemma RootFirstAccepted(buf: string)
    requires StartsWith(buf, RootPrefix)
    ensures IsDfxp(buf)
  {
    var p := CString(buf);
    assert buf[..3] == RootPrefix;
    assert buf[0] != '\0' && buf[1] != '\0' && buf[2] != '\0';
    assert CString(buf)[..3] == buf[..3] by {
      assert CString(buf) == [buf[0]] + CString(buf[1..]);
      assert CString(buf[1..]) == [buf[1]] + CString(buf[2..]);
      assert CString(buf[2..]) == [buf[2]] + CString(buf[3..]);
    }
    assert !StartsWith(p, Bom);
    assert !StartsWith(p, XmlPrefix1) && !StartsWith(p, XmlPrefix2);
  }

  /** Once any byte order mark is skipped, text that opens with neither an
      XML declaration nor `<tt` is rejected, whatever follows. */
  lemma UnknownStartRejected(buf: string)
    requires var p := CString(buf);
      var q := if StartsWith(p, Bom) then p[|Bom|..] else p;
      !StartsWith(q, XmlPrefix1) && !StartsWith(q, XmlPrefix2) && !StartsWith(q, RootPrefix)
    ensures !IsDfxp(buf)
  {
  }

  /** A NUL-free head passes into the C string whole. */
  lemma {:induction false} CStringAppend(a: string, b: string)
    requires NoNul(a)
    ensures CString(a + b) == a + CString(b)
  {
    if a != [] {
      assert (a + b)[1..] == a[1..] + b;
      CStringAppend(a[1..], b);
      assert a == [a[0]] + a[1..];
    } else {
      assert a + b == b;
    }
  }

  /** The byte order mark is skipped: a buffer with it is accepted exactly
      when the test accepts what follows it. */
  lemma BomSkipped(buf: string)
    ensures IsDfxp(Bom + buf) == Detect(CString(buf))
  {
    CStringAppend(Bom, buf);
    var p := Bom + CString(buf);
    assert p[..|Bom|] == Bom;
    assert p[|Bom|..] == CString(buf);
  }

  /** After an XML declaration the test is a search for `<tt` anywhere in
      the string, including further along the declaration itself. */
  lemma DeclarationSearches(p: string)
    requires StartsWith(p, XmlPrefix1) || StartsWith(p, XmlPrefix2)
    ensures Detect(p) <==> exists i :: 0 <= i <= |p| && StartsWith(p[i..], RootPrefix)
  {
    if Detect(p) {
      var i := OccursWhere(p, RootPrefix);
    }
    if exists i :: 0 <= i <= |p| && StartsWith(p[i..], RootPrefix) {
      var i :| 0 <= i <= |p| && StartsWith(p[i..], RootPrefix);
      OccursAt(p, RootPrefix, i);
    }
  }
}
