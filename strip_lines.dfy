/** `dfxp_strip_new_lines`: the in-place rewrite that turns every line
    break of a message into a space before it is logged. */
module StripLines {

  const CR: char := '\r'
  const LF: char := '\n'

  function Blank(c: char): char {
    if c == CR || c == LF then ' ' else c
  }

  /** The rewritten text: as long as the original, with no line break
      left, every CR and LF turned into a space and every other byte
      kept. */
  function Stripped(s: string): (r: string)
    ensures |r| == |s|
    ensures forall i :: 0 <= i < |s| && (s[i] == CR || s[i] == LF) ==> r[i] == ' '
    ensures forall i :: 0 <= i < |s| && s[i] != CR && s[i] != LF ==> r[i] == s[i]
    ensures forall i :: 0 <= i < |r| ==> r[i] != CR && r[i] != LF
  {
    if s == [] then [] else Stripped(s[..|s| - 1]) + [Blank(s[|s| - 1])]
  }

  /** Stripping twice is stripping once. */
  lemma StrippedIdempotent(s: string)
    ensures Stripped(Stripped(s)) == Stripped(s)
  {
  }

  /** The first `n` bytes of `buf` are rewritten in place; the rest is
      left alone. */
  method StripNewLines(buf: array<char>, n: nat)
    requires n <= buf.Length
    modifies buf
    ensures buf[..n] == Stripped(old(buf[..n]))
    ensures buf[n..] == old(buf[n..])
  {
    var p := 0;
    while p < n
      invariant 0 <= p <= n
      invariant buf[..p] == Stripped(old(buf[..p]))
      invariant buf[p..] == old(buf[p..])
    {
      if buf[p] == CR || buf[p] == LF {
        buf[p] := ' ';
      }
      assert old(buf[..p + 1]) == old(buf[..p]) + [old(buf[p])];
      assert buf[..p + 1] == buf[..p] + [buf[p]];
      p := p + 1;
    }
  }
}
