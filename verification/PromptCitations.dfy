// When installing a citation section twice equals installing it once, for every text at all:
// the policy and the off notice each clean two tags before they install their own.

module PromptCitations {
  import opened Options
  import opened TaggedText
  import opened PromptBlocks
  import opened PromptDocument
  import opened PromptIdempotence

  /** The text both citation operations install behind. */
  function Cleaned(s: string): string { Clean(OFF_NOTICE, Clean(CITATION, s)) }

  // ---------------------------------------------------------------- cleaning never lengthens

  lemma {:induction false} SubstituteShortens(t: Tag, s: string)
    requires t.name != ""
    ensures |Substitute(t, s)| <= |s|
    decreases |s|
  {
    hide FindBlock, BlockLength, Substitute, NewlinesBefore, NewlinesBehind;
    if FindBlock(t, s).Some? {
      var x := FindBlock(t, s).value;
      FoundIsBlock(t, s);
      BlockEnds(t, s[x.start..]);
      SubstituteStep(t, s);
      SubstituteShortens(t, s[x.stop..][NewlinesBehind(s[x.stop..])..]);
    } else {
      NoSubstitution(t, s);
    }
  }

  lemma CleanShortens(t: Tag, s: string)
    requires t.name != ""
    ensures |Clean(t, s)| <= |s|
  {
    hide Substitute;
    SubstituteShortens(t, s);
    StripShortens(Substitute(t, s));
  }

  // ---------------------------------------------------------------- a tag without attribute is cleaned for good

  function Tagged(t: Tag): string { Opening(t) + ">" }

  /** An opening tag with a closing tag behind it. */
  ghost predicate HasBlock(t: Tag, s: string) {
    exists i: nat, j: nat :: OpensAndCloses(t, s, i, j)
  }

  ghost predicate OpensAndCloses(t: Tag, s: string, i: nat, j: nat) {
    i + |Tagged(t)| <= j <= |s| && Tagged(t) <= s[i..] && Closing(t) <= s[j..]
  }

  lemma PlainOpen(t: Tag, s: string)
    requires !t.revisable
    ensures OpenLength(t, s) == if Tagged(t) <= s then Some(|Tagged(t)|) else None
  {
    var n := |Opening(t)|;
    if Opening(t) <= s {
      assert s == Opening(t) + s[n..];
      assert ">" <= s[n..] <==> Tagged(t) <= s;
    }
  }

  lemma BlockAt(t: Tag, s: string, i: nat, j: nat)
    requires !t.revisable && OpensAndCloses(t, s, i, j)
    ensures BlockLength(t, s[i..]).Some?
  {
    hide OpenLength, Find, Tagged, Closing;
    PlainOpen(t, s[i..]);
    var n := |Tagged(t)|;
    DropDrop(s, i, n);
    DropDrop(s, i + n, j - i - n);
    FindExists(Closing(t), s[i..][n..], j - i - n);
  }

  lemma BlockIffOpensAndCloses(t: Tag, s: string)
    requires !t.revisable
    ensures FindBlock(t, s).Some? <==> HasBlock(t, s)
  {
    hide FindBlock, BlockLength, Tagged, Closing;
    if FindBlock(t, s).Some? {
      var x := FindBlock(t, s).value;
      FoundIsBlock(t, s);
      BlockParts(t, s, x.start);
    }
    if HasBlock(t, s) {
      var i: nat, j: nat :| OpensAndCloses(t, s, i, j);
      BlockAt(t, s, i, j);
      BlockExists(t, s, i);
    }
  }

  lemma BlockParts(t: Tag, s: string, i: nat)
    requires !t.revisable && i <= |s| && BlockLength(t, s[i..]).Some?
    ensures HasBlock(t, s)
  {
    hide OpenLength, Find, Tagged, Closing;
    PlainOpen(t, s[i..]);
    var n := |Tagged(t)|;
    var k := Find(Closing(t), s[i..][n..]).value;
    DropDrop(s, i, n);
    DropDrop(s, i + n, k);
    assert OpensAndCloses(t, s, i, i + n + k);
  }

  lemma HasBlockInPart(t: Tag, s: string, from: nat, to: nat)
    requires from <= to <= |s| && HasBlock(t, s[from..to])
    ensures HasBlock(t, s)
  {
    hide Tagged, Closing;
    var part := s[from..to];
    var i: nat, j: nat :| OpensAndCloses(t, part, i, j);
    PrefixOfPrefix(Tagged(t), part[i..], s[from + i..]);
    PrefixOfPrefix(Closing(t), part[j..], s[from + j..]);
    assert OpensAndCloses(t, s, from + i, from + j);
  }

  /** In front of the leftmost block no opening tag stands at all: the block would close it. */
  lemma NoneBeforeFirst(t: Tag, s: string)
    requires !t.revisable && t.name != "" && FindBlock(t, s).Some?
    ensures Free(Tagged(t), s[..FindBlock(t, s).value.start])
  {
    hide FindBlock, BlockLength, Tagged, Closing;
    var x := FindBlock(t, s).value;
    FoundIsBlock(t, s);
    BlockEnds(t, s[x.start..]);
    var j := x.stop - |Closing(t)|;
    DropDrop(s, x.start, j - x.start);
    forall i | 0 <= i <= x.start ensures !(Tagged(t) <= s[..x.start][i..]) {
      if Tagged(t) <= s[..x.start][i..] {
        PrefixOfPrefix(Tagged(t), s[..x.start][i..], s[i..]);
        assert i + |Tagged(t)| <= x.start;
        BlockAt(t, s, i, j);
        FirstIsFirst(t, s, i);
        NotEmptyTagged(t);
      }
    }
  }

  lemma NotEmptyTagged(t: Tag)
    ensures |Tagged(t)| > 0
  {
  }

  lemma FirstIsFirst(t: Tag, s: string, i: nat)
    requires i <= |s| && BlockLength(t, s[i..]).Some?
    ensures FindBlock(t, s).Some? && FindBlock(t, s).value.start <= i
  {
    BlockExists(t, s, i);
  }

  /** Substitution leaves no block of such a tag. */
  lemma {:induction false} SubstituteLeavesNone(t: Tag, s: string)
    requires !t.revisable && PlainTag(t)
    ensures FindBlock(t, Substitute(t, s)) == None
    decreases |s|
  {
    hide FindBlock, Substitute, NewlinesBefore, NewlinesBehind, PlainTag, BlockLength, Tagged;
    if FindBlock(t, s).None? {
      NoSubstitution(t, s);
    } else {
      assert t.name != "" by { NameOf(t); }
      var x := FindBlock(t, s).value;
      SubstituteStep(t, s);
      var rest := s[x.stop..][NewlinesBehind(s[x.stop..])..];
      SubstituteLeavesNone(t, rest);
      NoneBeforeFirst(t, s);
      var before := s[..x.start];
      var front := before[..|before| - NewlinesBefore(before)];
      FreePart(Tagged(t), before, 0, |front|);
      assert before[0..|front|] == front;
      JoinedHasNone(t, front, Substitute(t, rest));
    }
  }

  lemma NameOf(t: Tag)
    requires PlainTag(t)
    ensures t.name != "" && OneLine(Tagged(t))
  {
  }

  /** Text without the tag, a blank line, and text without a block. */
  lemma JoinedHasNone(t: Tag, front: string, behind: string)
    requires !t.revisable && PlainTag(t) && Free(Tagged(t), front) && FindBlock(t, behind) == None
    ensures FindBlock(t, front + BLANK_LINE + behind) == None
  {
    hide FindBlock, BlockLength, Tagged, PlainTag, OpenLength;
    NameOf(t);
    var pre := front + BLANK_LINE;
    forall i | 0 <= i < |pre| ensures BlockLength(t, pre[i..] + behind) == None {
      var u := pre[i..] + behind;
      PlainOpen(t, u);
      if i <= |front| {
        assert u == front[i..] + "\n" + ("\n" + behind);
        NoStraddle(Tagged(t), front[i..], "\n" + behind);
      } else {
        assert u == "" + "\n" + behind;
        NoStraddle(Tagged(t), "", behind);
      }
      NoOpenNoBlock(t, u);
    }
    FindBlockBehind(t, pre, behind);
  }

  /** Cleaning such a tag a second time changes nothing. */
  lemma CleanTwice(t: Tag, s: string)
    requires !t.revisable && PlainTag(t)
    ensures Clean(t, Clean(t, s)) == Clean(t, s)
  {
    hide FindBlock, Substitute, PlainTag, HasBlock;
    var y := Substitute(t, s);
    SubstituteLeavesNone(t, s);
    BlockIffOpensAndCloses(t, y);
    StripIsPart(y);
    var k := Spaces(y);
    if HasBlock(t, Strip(y)) { HasBlockInPart(t, y, k, k + |Strip(y)|); }
    BlockIffOpensAndCloses(t, Strip(y));
    NoSubstitution(t, Strip(y));
    StripIsTrimmed(y);
    StripTrimmed(Strip(y));
  }

  lemma StripIsPart(y: string)
    ensures Spaces(y) + |Strip(y)| <= |y| && Strip(y) == y[Spaces(y)..Spaces(y) + |Strip(y)|]
  {
    hide Spaces, StripRight;
    var k := Spaces(y);
    assert y[k..][..|Strip(y)|] == y[k..k + |Strip(y)|];
  }

  // ---------------------------------------------------------------- the citation policy

  lemma BothCurrent(p: Policies)
    requires ValidPolicies(p)
    ensures Current(CitationBlock(p)) && Current(OffNoticeBlock(p))
  {
    hide WellFormed;
    assert CITATION_REVISION[0] == 'c';
  }

  /** For every instruction text: installing the citation policy a second time changes nothing
      exactly when the text, cleaned of both citation sections, keeps no opening policy tag. */
  lemma EnsureCitationTwice(p: Policies, s: string)
    requires ValidPolicies(p)
    ensures ApplyText(p, EnsureCitation, ApplyText(p, EnsureCitation, s)) == ApplyText(p, EnsureCitation, s)
       <==> NoOpeningTag(CITATION, Cleaned(s))
  {
    hide ValidPolicies, Clean, Trimmed, Current, PlainTag;
    var w, b := Cleaned(s), CitationBlock(p);
    BothCurrent(p);
    OffNoticeIsPlain();
    NameOf(OFF_NOTICE);
    CleanTrimmed(OFF_NOTICE, Clean(CITATION, s));
    CleanTwice(OFF_NOTICE, Clean(CITATION, s));
    var again := Clean(CITATION, Install(w, b));
    InstallInjective(Clean(OFF_NOTICE, again), w, b);
    if NoOpeningTag(CITATION, w) {
      CleanFindsOwnSection(w, b);
    } else {
      var i :| 0 <= i <= |w| && OpenLength(CITATION, w[i..]) != None;
      assert w != "" by { OpenNeedsText(CITATION, w, i); }
      DanglingTagSwallows(w, b, i);
      CleanShortens(OFF_NOTICE, again);
    }
  }

  lemma OpenNeedsText(t: Tag, w: string, i: nat)
    requires i <= |w| && OpenLength(t, w[i..]) != None
    ensures w != ""
  {
  }

  // ---------------------------------------------------------------- the off notice

  /** The section holds no closing tag of `t`. */
  ghost predicate Foreign(t: Tag, b: Block) {
    PlainTag(t) && Free(Closing(t), Text(b))
  }

  lemma OffNoticeIsForeign(p: Policies)
    requires ValidPolicies(p) && Free(Closing(CITATION), p.offNotice)
    ensures Foreign(CITATION, OffNoticeBlock(p))
  {
    var b, c := OffNoticeBlock(p), Closing(CITATION);
    CitationIsPlain();
    MarkersAreOneLine(CITATION);
    OnlyBracketIsFirst(b);
    assert c[1] == '/' && Header(b)[1] == 'c';
    FreeUnlessPrefix(c, Header(b), 1);
    ClosingLine(b.tag);
    FreeLines(c, Header(b), b.body);
    FreeLines(c, Header(b) + "\n" + b.body, Closing(b.tag));
  }

  lemma ClosingLine(t: Tag)
    requires t == OFF_NOTICE
    ensures Free(Closing(CITATION), Closing(t))
  {
    var s := Closing(t);
    assert s[11] == 'o' && Closing(CITATION)[11] == 's';
    var tail := "/citation-off-notice>";
    assert s == "<" + tail && '<' !in tail;
    forall i | 1 <= i < |s| ensures s[i] != '<' { assert s[i] == tail[i - 1]; }
    FreeUnlessPrefix(Closing(CITATION), s, 11);
  }

  /** A closing tag in lines in front of a foreign section lies in those lines. */
  lemma ClosesInFront(t: Tag, y: string, b: Block, j: nat)
    requires Foreign(t, b) && WholeLines(y) && j <= |y + Text(b)| && Closing(t) <= (y + Text(b))[j..]
    ensures j + |Closing(t)| < |y|
  {
    hide Text, Closing, PlainTag;
    var s, c := y + Text(b), Closing(t);
    MarkersAreOneLine(t);
    if j < |y| {
      var line := y[j..|y| - 1];
      assert s[j..] == line + "\n" + Text(b);
      NoStraddle(c, line, Text(b));
    } else {
      NotInSection(c, y, Text(b), j);
    }
  }

  lemma NotInSection(c: string, y: string, z: string, j: nat)
    requires Free(c, z) && |y| <= j <= |y + z|
    ensures !(c <= (y + z)[j..])
  {
    assert (y + z)[j..] == z[j - |y|..];
  }

  lemma BlockStopsInFront(t: Tag, y: string, b: Block)
    requires Foreign(t, b) && WholeLines(y) && FindBlock(t, y + Text(b)).Some?
    ensures var x := FindBlock(t, y + Text(b)).value; x.stop < |y| && x.stop - x.start >= 7
  {
    hide Text, Closing, PlainTag, FindBlock, BlockLength, WholeLines, Foreign;
    var s := y + Text(b);
    var x := FindBlock(t, s).value;
    assert t.name != "" by { ForeignName(t, b); }
    FoundIsBlock(t, s);
    BlockEnds(t, s[x.start..]);
    var j := x.stop - |Closing(t)|;
    DropDrop(s, x.start, j - x.start);
    ClosesInFront(t, y, b, j);
  }

  lemma ForeignName(t: Tag, b: Block)
    requires Foreign(t, b)
    ensures t.name != "" && PlainTag(t)
  {
  }

  /** A block of the citation tag is far longer than the blank line that replaces it. */
  lemma BlockIsLong(t: Tag, s: string)
    requires BlockLength(t, s).Some?
    ensures BlockLength(t, s).value >= |Opening(t)| + 1 + |Closing(t)|
  {
    hide OpenLength, Find, Closing, Opening;
  }

  /** Substituting in front of a foreign section leaves the section, and lines in front of it
      that are shorter by every block. */
  lemma {:induction false} SubstituteInFront(t: Tag, y: string, b: Block) returns (left: string)
    requires Foreign(t, b) && WholeLines(y)
    ensures Substitute(t, y + Text(b)) == left + Text(b) && WholeLines(left)
    ensures FindBlock(t, y + Text(b)).None? ==> left == y
    ensures |left| <= |y| && (FindBlock(t, y + Text(b)).Some? ==> |left| + |Opening(t)| + |Closing(t)| <= |y| + 1)
    decreases |y|
  {
    hide Text, FindBlock, BlockLength, Substitute, NewlinesBefore, NewlinesBehind, WholeLines, Closing, Opening,
         Foreign;
    var s := y + Text(b);
    if FindBlock(t, s).None? {
      NoSubstitution(t, s);
      left := y;
    } else {
      var x := FindBlock(t, s).value;
      BlockStopsInFront(t, y, b);
      FoundIsBlock(t, s);
      BlockIsLong(t, s[x.start..]);
      SubstituteStep(t, s);
      var n := RestBehind(y, b, x.stop);
      var rest := SubstituteInFront(t, y[n..], b);
      var front := s[..x.start][..x.start - NewlinesBefore(s[..x.start])];
      left := front + BLANK_LINE + rest;
      LinesJoin(front, rest);
      assert front + BLANK_LINE + (rest + Text(b)) == left + Text(b);
    }
  }

  lemma LinesJoin(front: string, rest: string)
    requires WholeLines(rest)
    ensures WholeLines(front + BLANK_LINE + rest)
  {
    var s := front + BLANK_LINE + rest;
    if rest == "" { assert s[|s| - 1] == BLANK_LINE[1]; } else { assert s[|s| - 1] == rest[|rest| - 1]; }
  }

  /** Stripping lines in front of a section touches only their beginning. */
  lemma {:induction false} StripInFront(y: string, b: Block) returns (left: string)
    requires WholeLines(y)
    ensures Strip(y + Text(b)) == left + Text(b) && WholeLines(left) && |left| <= |y|
    decreases |y|
  {
    hide Text, WholeLines, StripRight, Spaces;
    SectionBounds(b);
    var k := Spaces(y + Text(b));
    SpacesInLines(y, Text(b));
    left := y[k..];
    LinesTail(y, k);
    assert (y + Text(b))[k..] == left + Text(b);
    assert (left + Text(b))[|left + Text(b)| - 1] == Text(b)[|Text(b)| - 1];
    StripRightStays(left + Text(b));
  }

  lemma StripRightStays(s: string)
    requires s != "" && !IsSpace(s[|s| - 1])
    ensures StripRight(s) == s
  {
  }

  lemma LinesTail(y: string, k: nat)
    requires WholeLines(y) && k <= |y|
    ensures WholeLines(y[k..])
  {
  }

  lemma SectionBounds(b: Block)
    ensures Text(b) != "" && !IsSpace(Text(b)[0]) && !IsSpace(Text(b)[|Text(b)| - 1])
  {
    assert Text(b)[0] == '<' && Text(b)[|Text(b)| - 1] == '>';
  }

  lemma {:induction false} SpacesInLines(y: string, z: string)
    requires z != "" && !IsSpace(z[0])
    ensures Spaces(y + z) <= |y|
  {
    if y == "" {
      assert y + z == z;
    } else {
      assert (y + z)[1..] == y[1..] + z;
      SpacesInLines(y[1..], z);
    }
  }

  /** Citation blocks in the lines in front of an installed section shrink what is left of it. */
  lemma ForeignBlocksShrink(t: Tag, w: string, b: Block)
    requires t == CITATION && WellFormed(b) && Foreign(t, b) && w != ""
    requires FindBlock(t, w + BLANK_LINE + Text(b)).Some?
    ensures |Clean(b.tag, Clean(t, w + BLANK_LINE + Text(b)))| < |w|
  {
    hide WellFormed, Foreign, Text, FindBlock, Substitute, WholeLines, Strip;
    var y := w + BLANK_LINE;
    assert WholeLines(y) by { LinesJoin(w, ""); assert w + BLANK_LINE + "" == y; LinesOf(""); }
    var left := SubstituteInFront(t, y, b);
    var kept := StripInFront(left, b);
    assert |Opening(t)| == 23 && |Closing(t)| == 25;
    SubstituteBound(kept, b);
    StripNeverLengthens(Substitute(b.tag, kept + Text(b)));
  }

  lemma LinesOf(s: string)
    ensures s == "" ==> WholeLines(s)
  {
  }

  lemma StripNeverLengthens(s: string)
    ensures |Strip(s)| <= |s|
  {
  }

  /** A block in front of a foreign section is one without it, and the other way round. */
  lemma ForeignBlockIff(t: Tag, w: string, b: Block)
    requires Foreign(t, b)
    ensures FindBlock(t, Install(w, b)).Some? <==> FindBlock(t, w).Some?
  {
    hide Foreign, Text, FindBlock, BlockLength, WholeLines;
    var a := if w == "" then "" else w + BLANK_LINE;
    var s := a + Text(b);
    assert s == Install(w, b);
    assert WholeLines(a) by {
      if w == "" { LinesOf(a); } else { LinesJoin(w, ""); assert w + BLANK_LINE + "" == a; LinesOf(""); }
    }
    if FindBlock(t, w).Some? {
      var x := FindBlock(t, w).value;
      FoundIsBlock(t, w);
      var z := s[|w|..];
      assert s == w + z;
      DropConcat(w, z, x.start);
      BlockExtends(t, w[x.start..], z);
      BlockExists(t, s, x.start);
    }
    if FindBlock(t, s).Some? {
      var x := FindBlock(t, s).value;
      BlockStopsInFront(t, a, b);
      FoundIsBlock(t, s);
      ForeignName(t, b);
      assert w != "" && s == w + BLANK_LINE + Text(b);
      BlockLines(t, w, Text(b), x.start);
    }
  }

  lemma BlockExtends(t: Tag, s: string, z: string)
    requires BlockLength(t, s).Some?
    ensures BlockLength(t, s + z).Some?
  {
    hide OpenLength, Find, Closing;
    var n := OpenLength(t, s).value;
    OpenExtends(t, s, z);
    DropConcat(s, z, n);
    var k := Find(Closing(t), s[n..]).value;
    DropConcat(s[n..], z, k);
    PrefixOfPrefix(Closing(t), s[n..][k..], s[n..][k..] + z);
    FindExists(Closing(t), s[n..] + z, k);
  }

  /** A block that stops inside the text in front of a blank line is a block of that text. */
  lemma BlockLines(t: Tag, w: string, z: string, i: nat)
    requires PlainTag(t) && w != "" && i <= |w| && BlockLength(t, (w + BLANK_LINE + z)[i..]).Some?
    requires i + BlockLength(t, (w + BLANK_LINE + z)[i..]).value < |w| + 2
    ensures FindBlock(t, w).Some?
  {
    hide FindBlock, BlockLength, OpenLength, Find, Closing, PlainTag;
    var behind := BLANK_LINE + z;
    var u := w[i..];
    assert w + BLANK_LINE + z == w + behind;
    DropConcat(w, behind, i);
    var n, k := OpensAndEnds(t, u + behind);
    ClosingSize(t);
    MarkersAreOneLine(t);
    ClosingInText(Closing(t), u, z, n + k);
    OpenRestricts(t, u, behind, n);
    DropDrop(u, n, k);
    FindExists(Closing(t), u[n..], k);
    BlockOf(t, u, n);
    BlockExists(t, w, i);
  }

  lemma OpensAndEnds(t: Tag, s: string) returns (n: nat, k: nat)
    requires BlockLength(t, s).Some?
    ensures OpenLength(t, s) == Some(n) && n + k <= |s| && Closing(t) <= s[n + k..]
    ensures BlockLength(t, s) == Some(n + k + |Closing(t)|)
  {
    hide OpenLength, Find, Closing;
    n := OpenLength(t, s).value;
    k := Find(Closing(t), s[n..]).value;
    DropDrop(s, n, k);
  }

  lemma ClosingInText(c: string, u: string, z: string, j: nat)
    requires OneLine(c) && j <= |u| && c <= (u + (BLANK_LINE + z))[j..]
    ensures c <= u[j..]
  {
    assert (u + (BLANK_LINE + z))[j..] == u[j..] + "\n" + ("\n" + z);
    NoStraddle(c, u[j..], "\n" + z);
  }

  lemma BlockOf(t: Tag, s: string, n: nat)
    requires OpenLength(t, s) == Some(n) && Find(Closing(t), s[n..]).Some?
    ensures BlockLength(t, s).Some?
  {
    hide OpenLength, Find, Closing;
  }

  /** An opening tag that lies in the first part of a text is one of that part. */
  lemma OpenRestricts(t: Tag, u: string, z: string, n: nat)
    requires OpenLength(t, u + z) == Some(n) && n <= |u|
    ensures OpenLength(t, u) == Some(n)
  {
    hide AttributeLength, Find, Spaces;
    var m := |Opening(t)|;
    assert (u + z)[..m] == u[..m];
    var rest := u[m..];
    DropConcat(u, z, m);
    if t.revisable && AttributeLength(rest).Some? {
      AttributeExtends(rest, z);
    } else if t.revisable && AttributeLength(rest + z).Some? {
      AttributeRestricts(rest, z);
    } else {
      assert (rest + z)[0] == rest[0];
    }
  }

  lemma AttributeRestricts(s: string, z: string)
    requires AttributeLength(s + z).Some? && AttributeLength(s + z).value <= |s|
    ensures AttributeLength(s) == AttributeLength(s + z)
  {
    var k, q := AttributeParts(s + z);
    hide Find, Spaces, AttributeLength;
    var v := k + |REVISION|;
    SpacesExtend(s, z);
    DropConcat(s, z, k);
    DropConcat(s, z, v);
    DropConcat(s, z, v + q + 1);
    assert REVISION <= s[k..];
    assert ">" <= s[v + q + 1..];
    QuoteRestricts(s[v..], z, q);
    AttributeIs(s, k, q);
  }

  lemma {:induction false} QuoteRestricts(s: string, z: string, q: nat)
    requires Find("\"", s + z) == Some(q) && q < |s|
    ensures Find("\"", s) == Some(q)
  {
    if q > 0 {
      assert (s + z)[1..] == s[1..] + z;
      QuoteRestricts(s[1..], z, q - 1);
    }
  }

  /** For every instruction text: installing the off notice a second time changes nothing exactly
      when the text, cleaned of both citation sections, has no policy block again and keeps no
      opening notice tag. The wording of the notice must not close a policy block. */
  lemma EnsureOffNoticeTwice(p: Policies, s: string)
    requires ValidPolicies(p) && Free(Closing(CITATION), p.offNotice)
    ensures ApplyText(p, EnsureOffNotice, ApplyText(p, EnsureOffNotice, s)) == ApplyText(p, EnsureOffNotice, s)
       <==> FindBlock(CITATION, Cleaned(s)) == None && NoOpeningTag(OFF_NOTICE, Cleaned(s))
  {
    hide ValidPolicies, Clean, Trimmed, NoOpeningTag, FindBlock, Free;
    var w, b := Cleaned(s), OffNoticeBlock(p);
    CleanTrimmed(OFF_NOTICE, Clean(CITATION, s));
    InstallInjective(Clean(OFF_NOTICE, Clean(CITATION, Install(w, b))), w, b);
    NoticeIsFound(p, w);
  }

  lemma NoticeIsFound(p: Policies, w: string)
    requires ValidPolicies(p) && Free(Closing(CITATION), p.offNotice) && (w == "" || Trimmed(w))
    ensures Clean(OFF_NOTICE, Clean(CITATION, Install(w, OffNoticeBlock(p)))) == w
       <==> FindBlock(CITATION, w) == None && NoOpeningTag(OFF_NOTICE, w)
  {
    var b := OffNoticeBlock(p);
    OffNoticeIsForeign(p);
    BothCurrent(p);
    CurrentIsSection(b);
    hide ValidPolicies, Clean, Trimmed, Current, PlainTag, Foreign, FindBlock, WellFormed, Text, OpenLength, Free;
    ForeignBlockIff(CITATION, w, b);
    if FindBlock(CITATION, w).Some? {
      assert w != "" by { NothingFound(CITATION); }
      ForeignBlocksShrink(CITATION, w, b);
    } else {
      NothingToClean(CITATION, w, b);
      if NoOpeningTag(OFF_NOTICE, w) {
        CleanFindsOwnSection(w, b);
      } else {
        var i :| 0 <= i <= |w| && OpenLength(OFF_NOTICE, w[i..]) != None;
        assert w != "" by { OpenNeedsText(OFF_NOTICE, w, i); }
        DanglingTagSwallows(w, b, i);
      }
    }
  }

  lemma NothingFound(t: Tag)
    ensures FindBlock(t, "") == None
  {
  }

  lemma NothingToClean(t: Tag, w: string, b: Block)
    requires (w == "" || Trimmed(w)) && FindBlock(t, Install(w, b)) == None
    ensures Clean(t, Install(w, b)) == Install(w, b)
  {
    hide FindBlock, Text, Strip;
    NoSubstitution(t, Install(w, b));
    SectionBounds(b);
    assert Trimmed(Install(w, b));
    StripTrimmed(Install(w, b));
  }

  // ---------------------------------------------------------------- dangling tags

  /** A lone opening tag in front of ordinary text survives every cleaning. */
  lemma DanglingTagStays(t: Tag, v: Tag, u: string)
    requires PlainTag(t) && PlainTag(v) && '<' !in u && (u == "" || !IsSpace(u[|u| - 1]))
    ensures Clean(v, Tagged(t) + u) == Tagged(t) + u && OpenLength(t, Tagged(t) + u).Some?
  {
    hide Substitute, FindBlock, Strip;
    var s := Tagged(t) + u;
    assert t.name[0] in t.name && s[1] == t.name[0] && Closing(v)[1] == '/';
    var tail := t.name + ">" + u;
    assert s == "<" + tail && '<' !in tail;
    forall i | 1 <= i < |s| ensures s[i] != '<' { assert s[i] == tail[i - 1]; }
    FreeUnlessPrefix(Closing(v), s, 1);
    NoBlockWithoutClosing(v, s);
    NoSubstitution(v, s);
    assert Trimmed(s);
    StripTrimmed(s);
    assert s[|Opening(t)|..] == ">" + u;
  }

  /** The failing families: a dangling policy tag, or a dangling notice tag, in front of any
      ordinary text. */
  lemma DanglingTagBreaksCitations(p: Policies, u: string)
    requires ValidPolicies(p) && Free(Closing(CITATION), p.offNotice)
    requires '<' !in u && (u == "" || !IsSpace(u[|u| - 1]))
    ensures var s := Tagged(CITATION) + u;
            ApplyText(p, EnsureCitation, ApplyText(p, EnsureCitation, s)) != ApplyText(p, EnsureCitation, s)
    ensures var s := Tagged(OFF_NOTICE) + u;
            ApplyText(p, EnsureOffNotice, ApplyText(p, EnsureOffNotice, s)) != ApplyText(p, EnsureOffNotice, s)
  {
    hide ValidPolicies, ApplyText, Clean, Free, PlainTag, FindBlock, OpenLength, Tagged;
    TagsArePlain();
    var c, o := Tagged(CITATION) + u, Tagged(OFF_NOTICE) + u;
    DanglingTagStays(CITATION, CITATION, u);
    DanglingTagStays(CITATION, OFF_NOTICE, u);
    DanglingTagStays(OFF_NOTICE, CITATION, u);
    DanglingTagStays(OFF_NOTICE, OFF_NOTICE, u);
    EnsureCitationTwice(p, c);
    EnsureOffNoticeTwice(p, o);
    assert c[0..] == c && o[0..] == o;
  }
}
