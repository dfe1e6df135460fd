// String-level model of the machine-managed prompt sections: the three regular expressions,
// their substitution by a blank line, and `strip`.

module TaggedText {
  import opened Options

  /** A section's tag; `revisable` when its opening tag may carry a revision attribute. */
  datatype Tag = Tag(name: string, revisable: bool)

  const CITATION: Tag := Tag("citation-system-policy", true)
  const OFF_NOTICE: Tag := Tag("citation-off-notice", false)
  const PTC: Tag := Tag("ptc-policy", true)

  function Opening(t: Tag): string { "<" + t.name }
  function Closing(t: Tag): string { "</" + t.name + ">" }

  const REVISION: string := "revision=\""
  const BLANK_LINE: string := "\n\n"

  /** Whitespace as both `\s` and `str.strip` see it. */
  predicate IsSpace(c: char) {
    || '\t' <= c <= '\r' || '\U{1c}' <= c <= ' ' || c == '\U{85}' || c == '\U{a0}' || c == '\U{1680}'
    || '\U{2000}' <= c <= '\U{200a}' || c == '\U{2028}' || c == '\U{2029}' || c == '\U{202f}'
    || c == '\U{205f}' || c == '\U{3000}'
  }

  function Spaces(s: string): (n: nat)
    ensures n <= |s|
    ensures forall i :: 0 <= i < n ==> IsSpace(s[i])
    ensures n < |s| ==> !IsSpace(s[n])
  {
    if s != "" && IsSpace(s[0]) then 1 + Spaces(s[1..]) else 0
  }

  function StripRight(s: string): (r: string)
    ensures r <= s
    ensures r != "" ==> !IsSpace(r[|r| - 1])
  {
    if s != "" && IsSpace(s[|s| - 1]) then StripRight(s[..|s| - 1]) else s
  }

  function Strip(s: string): string {
    StripRight(s[Spaces(s)..])
  }

  /** Offset of the first occurrence of `lit`. */
  function Find(lit: string, s: string): (r: Option<nat>)
    ensures r.Some? ==> r.value <= |s| && lit <= s[r.value..]
  {
    if lit <= s then Some(0)
    else if s == "" then None
    else match Find(lit, s[1..]) case None => None case Some(i) => Some(i + 1)
  }

  /** Length of the opening tag at the start of `s`, attribute first, as the pattern tries it. */
  function OpenLength(t: Tag, s: string): (r: Option<nat>)
    ensures r.Some? ==> Opening(t) <= s && |Opening(t)| < r.value <= |s|
  {
    var n := |Opening(t)|;
    if !(Opening(t) <= s) then None
    else if t.revisable && AttributeLength(s[n..]).Some? then Some(n + AttributeLength(s[n..]).value)
    else if ">" <= s[n..] then Some(n + 1)
    else None
  }

  /** Length of whitespace, a revision attribute and the closing bracket at the start of `s`. */
  function AttributeLength(s: string): (r: Option<nat>)
    ensures r.Some? ==> 0 < r.value <= |s|
  {
    var k := Spaces(s);
    if k == 0 || !(REVISION <= s[k..]) then None
    else
      var v := k + |REVISION|;
      match Find("\"", s[v..])
      case None => None
      case Some(q) => if ">" <= s[v + q + 1..] then Some(v + q + 2) else None
  }

  /** Length of the block at the start of `s`: an opening tag and everything up to the end of
      the first closing tag behind it. */
  function BlockLength(t: Tag, s: string): (r: Option<nat>)
    ensures r.Some? ==> 0 < r.value <= |s|
  {
    match OpenLength(t, s)
    case None => None
    case Some(n) =>
      match Find(Closing(t), s[n..])
      case None => None
      case Some(k) => Some(n + k + |Closing(t)|)
  }

  datatype Span = Span(start: nat, stop: nat)

  function Shift(b: Option<Span>, n: nat): Option<Span> {
    match b case None => None case Some(x) => Some(Span(x.start + n, x.stop + n))
  }

  /** The leftmost block. */
  function FindBlock(t: Tag, s: string): (r: Option<Span>)
    ensures r.Some? ==> r.value.start < r.value.stop <= |s|
  {
    if s == "" then None
    else
      match BlockLength(t, s)
      case Some(n) => Some(Span(0, n))
      case None => Shift(FindBlock(t, s[1..]), 1)
  }

  /** How many newlines, at most two, the match takes before and behind the block. */
  function NewlinesBefore(s: string): (n: nat)
    ensures n <= |s|
  {
    if |s| >= 2 && s[|s| - 2..] == BLANK_LINE then 2 else if |s| >= 1 && s[|s| - 1] == '\n' then 1 else 0
  }

  function NewlinesBehind(s: string): (n: nat)
    ensures n <= |s|
  {
    if BLANK_LINE <= s then 2 else if "\n" <= s then 1 else 0
  }

  /** Every block, with the newlines around it, replaced by one blank line. */
  function Substitute(t: Tag, s: string): string
    decreases |s|
  {
    match FindBlock(t, s)
    case None => s
    case Some(b) =>
      var before, behind := s[..b.start], s[b.stop..];
      before[..|before| - NewlinesBefore(before)] + BLANK_LINE + Substitute(t, behind[NewlinesBehind(behind)..])
  }

  function Clean(t: Tag, s: string): string {
    Strip(Substitute(t, s))
  }

  // ---------------------------------------------------------------- occurrences

  /** `lit` occurs nowhere in `s`. */
  ghost predicate Free(lit: string, s: string) {
    forall i :: 0 <= i <= |s| ==> !(lit <= s[i..])
  }

  /** A literal that lies on one line. */
  ghost predicate OneLine(lit: string) {
    lit != "" && '\n' !in lit
  }

  /** An occurrence never straddles a newline. */
  lemma NoStraddle(lit: string, a: string, b: string)
    requires OneLine(lit)
    ensures lit <= a + "\n" + b <==> lit <= a
  {
    var s := a + "\n" + b;
    assert s[|a|] == '\n';
    assert lit <= s ==> forall k :: 0 <= k < |lit| ==> s[k] == lit[k] != '\n';
    assert |lit| <= |a| ==> s[..|lit|] == a[..|lit|];
  }

  lemma FreeLines(lit: string, a: string, b: string)
    requires OneLine(lit) && Free(lit, a) && Free(lit, b)
    ensures Free(lit, a + "\n" + b)
  {
    var s := a + "\n" + b;
    forall i | 0 <= i <= |s| ensures !(lit <= s[i..]) {
      if i <= |a| {
        assert s[i..] == a[i..] + "\n" + b;
        NoStraddle(lit, a[i..], b);
      } else {
        assert s[i..] == b[i - |a| - 1..];
      }
    }
  }

  lemma PrefixOfPrefix(lit: string, a: string, b: string)
    requires a <= b
    ensures lit <= a ==> lit <= b
  {
  }

  lemma FreePart(lit: string, s: string, from: nat, to: nat)
    requires Free(lit, s) && from <= to <= |s|
    ensures Free(lit, s[from..to])
  {
    forall i | 0 <= i <= to - from ensures !(lit <= s[from..to][i..]) {
      PrefixOfPrefix(lit, s[from..to][i..], s[from + i..]);
    }
  }

  /** The first occurrence behind a line that has none. */
  lemma {:induction false} FindOnNextLine(lit: string, a: string, rest: string)
    requires OneLine(lit) && Free(lit, a)
    ensures Find(lit, a + "\n" + lit + rest) == Some(|a| + 1)
  {
    var s := a + "\n" + lit + rest;
    assert s == a + "\n" + (lit + rest);
    assert a[0..] == a;
    NoStraddle(lit, a, lit + rest);
    if a == "" {
      assert s[1..] == lit + rest;
    } else {
      FreePart(lit, a, 1, |a|);
      assert s[1..] == a[1..] + "\n" + lit + rest;
      FindOnNextLine(lit, a[1..], rest);
    }
  }

  lemma {:induction false} NoBlockWithoutOpening(t: Tag, s: string)
    requires Free(Opening(t), s)
    ensures FindBlock(t, s) == None
  {
    if s != "" {
      assert s[0..] == s;
      FreePart(Opening(t), s, 1, |s|);
      NoBlockWithoutOpening(t, s[1..]);
    }
  }

  /** Text in which no block starts only shifts the leftmost block. */
  lemma {:induction false} FindBlockBehind(t: Tag, pre: string, s: string)
    requires forall i :: 0 <= i < |pre| ==> BlockLength(t, pre[i..] + s) == None
    ensures FindBlock(t, pre + s) == Shift(FindBlock(t, s), |pre|)
  {
    hide BlockLength, FindBlock;
    if pre == "" {
      assert pre + s == s;
    } else {
      var rest := pre[1..];
      assert pre[0..] == pre;
      forall i | 0 <= i < |rest| ensures BlockLength(t, rest[i..] + s) == None {
        assert rest[i..] == pre[i + 1..];
      }
      FindBlockBehind(t, rest, s);
      assert (pre + s)[1..] == rest + s;
      FindBlockStep(t, pre + s);
    }
  }

  lemma FindBlockStep(t: Tag, s: string)
    requires s != "" && BlockLength(t, s) == None
    ensures FindBlock(t, s) == Shift(FindBlock(t, s[1..]), 1)
  {
    hide BlockLength;
  }

  lemma Reassociate(a: string, b: string, c: string, d: string)
    ensures (a + b + c) + d == a + (b + c + d)
    ensures (a + (b + c + d))[|a|..] == b + c + d
  {
  }
}
