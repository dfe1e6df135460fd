// When installing the PTC section twice equals installing it once, for every text at all:
// exactly when the cleaned text keeps no opening tag (a dangling one swallows user text).

module PromptIdempotence {
  import opened Options
  import opened TaggedText
  import opened PromptBlocks
  import opened PromptDocument

  /** A current section as the program writes it: if its tag is revisable, with a revision that
      does not begin with the bracket that would close the tag. */
  ghost predicate Current(b: Block) {
    WellFormed(b) && (b.tag.revisable ==> Revised(b))
  }

  ghost predicate Revised(b: Block) {
    WellFormed(b) && b.revision.Some? && b.revision.value != "" && b.revision.value[0] != '>'
  }

  /** No complete opening tag starts anywhere in the text. */
  ghost predicate NoOpeningTag(t: Tag, s: string) {
    forall i :: 0 <= i <= |s| ==> OpenLength(t, s[i..]) == None
  }

  // ---------------------------------------------------------------- extending a text

  lemma {:induction false} QuoteExtends(s: string, z: string)
    ensures Find("\"", s).Some? ==> Find("\"", s + z) == Find("\"", s)
    ensures Find("\"", s).None? ==> '\"' !in s
  {
    if s != "" && s[0] == '\"' {
      assert (s + z)[0] == s[0];
    } else if s != "" {
      assert (s + z)[0] == s[0] && (s + z)[1..] == s[1..] + z;
      QuoteExtends(s[1..], z);
      assert s == [s[0]] + s[1..];
    }
  }

  lemma {:induction false} SpacesExtend(s: string, z: string)
    ensures Spaces(s) < |s| ==> Spaces(s + z) == Spaces(s)
    ensures Spaces(s) == |s| ==> Spaces(s + z) == |s| + Spaces(z)
  {
    if s == "" {
      assert s + z == z;
    } else {
      assert (s + z)[1..] == s[1..] + z;
      SpacesExtend(s[1..], z);
    }
  }

  lemma AttributeExtends(s: string, z: string)
    requires AttributeLength(s).Some?
    ensures AttributeLength(s + z) == AttributeLength(s)
  {
    var k, q := AttributeParts(s);
    hide Find, Spaces, AttributeLength;
    var v := k + |REVISION|;
    SpacesExtend(s, z);
    DropConcat(s, z, k);
    DropConcat(s, z, v);
    DropConcat(s, z, v + q + 1);
    PrefixOfPrefix(REVISION, s[k..], s[k..] + z);
    PrefixOfPrefix(">", s[v + q + 1..], s[v + q + 1..] + z);
    QuoteExtends(s[v..], z);
    AttributeIs(s + z, k, q);
  }

  /** An attribute: whitespace, the name, a quoted value, the bracket. */
  ghost predicate IsAttribute(s: string, k: nat, q: nat) {
    && k == Spaces(s) && 0 < k && k + |REVISION| + q + 1 <= |s| && REVISION <= s[k..]
    && Find("\"", s[k + |REVISION|..]) == Some(q) && ">" <= s[k + |REVISION| + q + 1..]
  }

  lemma AttributeParts(s: string) returns (k: nat, q: nat)
    requires AttributeLength(s).Some?
    ensures IsAttribute(s, k, q) && AttributeLength(s) == Some(k + |REVISION| + q + 2)
  {
    hide Find, Spaces;
    k := Spaces(s);
    q := Find("\"", s[k + |REVISION|..]).value;
    assert "\"" <= s[k + |REVISION|..][q..];
  }

  lemma AttributeIs(s: string, k: nat, q: nat)
    requires IsAttribute(s, k, q)
    ensures AttributeLength(s) == Some(k + |REVISION| + q + 2)
  {
    hide Find, Spaces;
  }

  /** An opening tag stays one when text is appended. */
  lemma OpenExtends(t: Tag, s: string, z: string)
    requires OpenLength(t, s).Some?
    ensures OpenLength(t, s + z) == OpenLength(t, s)
  {
    hide AttributeLength, Find, Spaces;
    var n := |Opening(t)|;
    var rest := s[n..];
    DropConcat(s, z, n);
    PrefixOfPrefix(Opening(t), s, s + z);
    if AttributeLength(rest).Some? {
      AttributeExtends(rest, z);
    } else if ">" <= rest {
      NoAttribute(rest);
      NoAttribute(rest + z);
    }
  }

  /** A current section behind a blank line. */
  function Tail(b: Block): string { BLANK_LINE + Text(b) }

  /** Everything behind the quote that opens the revision value. */
  function Value(b: Block): string
    requires b.revision.Some?
  {
    b.revision.value + "\"" + ">" + ("\n" + b.body + "\n" + Closing(b.tag))
  }

  lemma TailParts(b: Block)
    requires Revised(b)
    ensures Tail(b) == (BLANK_LINE + Opening(b.tag) + " " + "revision=") + "\"" + Value(b)
  {
    var inner := "\n" + b.body + "\n" + Closing(b.tag);
    assert Text(b) == Header(b) + inner;
    assert REVISION == "revision=" + "\"";
    RegroupTail(BLANK_LINE, Opening(b.tag), " ", "revision=", "\"", b.revision.value, ">", inner);
  }

  lemma RegroupTail(
      line: string, open: string, space: string, name: string, quote: string, value: string, bracket: string,
      inner: string)
    ensures line + ((open + (space + (name + quote) + value + quote) + bracket) + inner)
            == (line + open + space + name) + quote + (value + quote + bracket + inner)
  {
  }

  /** Appending the section completes no attribute that the text left open. */
  lemma AttributeDoesNotStraddle(s: string, b: Block)
    requires Revised(b) && AttributeLength(s) == None
    ensures AttributeLength(s + Tail(b)) == None
  {
    hide Text, Revised;
    var z, k := Tail(b), Spaces(s);
    SpacesExtend(s, z);
    TailSpaces(b);
    if k == |s| {
      assert (s + z)[|s| + 2..] == z[2..];
    } else if k > 0 {
      assert (s + z)[k..] == s[k..] + "\n" + ("\n" + Text(b));
      NoStraddle(REVISION, s[k..], "\n" + Text(b));
      if REVISION <= s[k..] {
        ValueDoesNotClose(s, k, b);
      }
    }
  }

  lemma TailSpaces(b: Block)
    ensures Spaces(Tail(b)) == 2 && !(REVISION <= Tail(b)[2..])
  {
    assert Tail(b)[1..][1..] == Text(b) && Text(b)[0] == '<';
    assert Tail(b)[2..] == Text(b);
  }

  /** No bracket follows the first quote of an attribute value. */
  predicate Unclosed(v: string) {
    match Find("\"", v) case None => true case Some(q) => !(">" <= v[q + 1..])
  }

  lemma AttributeNoneIff(s: string)
    requires 0 < Spaces(s) && REVISION <= s[Spaces(s)..]
    ensures AttributeLength(s) == None <==> Unclosed(s[Spaces(s) + |REVISION|..])
  {
    var n := Spaces(s) + |REVISION|;
    var v := s[n..];
    hide Spaces, REVISION;
    if Find("\"", v).Some? { DropDrop(s, n, Find("\"", v).value + 1); }
  }

  lemma DropDrop(s: string, m: nat, n: nat)
    requires m <= |s| && n <= |s| - m
    ensures s[m..][n..] == s[m + n..]
  {
  }

  lemma DropConcat(s: string, z: string, n: nat)
    requires n <= |s|
    ensures (s + z)[n..] == s[n..] + z
  {
  }

  lemma ValueDoesNotClose(s: string, k: nat, b: Block)
    requires Revised(b) && AttributeLength(s) == None
    requires 0 < k == Spaces(s) == Spaces(s + Tail(b)) && k <= |s| && REVISION <= s[k..]
    ensures AttributeLength(s + Tail(b)) == None
  {
    hide Text, Revised, Tail, AttributeLength, Unclosed, Spaces;
    var z, n := Tail(b), k + |REVISION|;
    DropConcat(s, z, k);
    DropConcat(s, z, n);
    AttributeNoneIff(s);
    AttributeNoneIff(s + z);
    UnclosedStays(s[n..], b);
  }

  /** Appending the section does not close the value either: the next quote is the one that
      opens its own revision. */
  lemma UnclosedStays(v: string, b: Block)
    requires Revised(b) && Unclosed(v)
    ensures Unclosed(v + Tail(b))
  {
    hide Text;
    var z := Tail(b);
    QuoteExtends(v, z);
    if Find("\"", v).Some? {
      var q := Find("\"", v).value;
      if q < |v| { DropConcat(v, z, q + 1); }
      assert z[0] == '\n';
    } else {
      TailParts(b);
      var pre := BLANK_LINE + Opening(b.tag) + " " + "revision=";
      QuoteBehind(v, pre, Value(b), z);
      assert Value(b)[0] == b.revision.value[0];
    }
  }

  lemma QuoteBehind(v: string, pre: string, post: string, z: string)
    requires '\"' !in v && '\"' !in pre && z == pre + "\"" + post
    ensures Find("\"", v + z) == Some(|v| + |pre|)
    ensures (v + z)[|v| + |pre| + 1..] == post
  {
    assert v + z == (v + pre) + "\"" + post;
    FindQuote(v + pre, post);
  }

  /** Appending the section completes no opening tag that the text left open. */
  lemma OpenDoesNotStraddle(s: string, b: Block)
    requires Current(b) && OpenLength(b.tag, s) == None
    ensures OpenLength(b.tag, s + Tail(b)) == None
  {
    var t, z := b.tag, Tail(b);
    MarkersAreOneLine(t);
    assert s + z == s + "\n" + ("\n" + Text(b));
    NoStraddle(Opening(t), s, "\n" + Text(b));
    if Opening(t) <= s {
      var rest := s[|Opening(t)|..];
      assert (s + z)[|Opening(t)|..] == rest + z;
      if t.revisable { AttributeDoesNotStraddle(rest, b); }
      assert z[0] == '\n';
    }
  }

  /** With no opening tag left, a second installation finds the section it installed. */
  lemma CleanFindsOwnSection(w: string, b: Block)
    requires Current(b) && (w == "" || Trimmed(w)) && NoOpeningTag(b.tag, w)
    ensures Clean(b.tag, Install(w, b)) == w
  {
    hide Text, Current, FindBlock, BlockLength, Opening, Substitute, OpenLength, Strip;
    var t, a := b.tag, if w == "" then "" else w + BLANK_LINE;
    CurrentIsSection(b);
    assert Install(w, b) == a + Text(b) + "";
    NothingStartsBefore(w, b);
    BlockFound(b, "");
    FoundFirst(t, Text(b), "");
    assert Text(b) + "" == Text(b);
    FindBlockBehind(t, a, Text(b));
    EmptyStays(t);
    assert w != "" ==> a[|w|..] == BLANK_LINE;
    SubstituteAt(t, a, Text(b), "", w, "");
    StripParagraphs(w, "");
  }

  lemma EmptyStays(t: Tag)
    ensures Substitute(t, "") == ""
  {
  }

  lemma CurrentIsSection(b: Block)
    requires Current(b)
    ensures WellFormed(b) && Text(b) != "" && PlainTag(b.tag)
  {
  }

  lemma NothingStartsBefore(w: string, b: Block)
    requires Current(b) && NoOpeningTag(b.tag, w)
    ensures var a := if w == "" then "" else w + BLANK_LINE;
            forall i :: 0 <= i < |a| ==> BlockLength(b.tag, a[i..] + Text(b)) == None
  {
    hide Text, Current, FindBlock, BlockLength, Opening, OpenLength;
    CurrentIsSection(b);
    var t, a := b.tag, if w == "" then "" else w + BLANK_LINE;
    forall i | 0 <= i < |a| ensures BlockLength(t, a[i..] + Text(b)) == None {
      if i <= |w| {
        assert a[i..] + Text(b) == w[i..] + Tail(b);
        OpenDoesNotStraddle(w[i..], b);
        NoOpenNoBlock(t, a[i..] + Text(b));
      } else {
        assert a[i..] + Text(b) == "" + "\n" + Text(b);
        MarkersAreOneLine(t);
        NoStraddle(Opening(t), "", Text(b));
        NoOpeningNoBlock(t, a[i..] + Text(b));
      }
    }
  }

  lemma NoOpenNoBlock(t: Tag, s: string)
    requires OpenLength(t, s) == None
    ensures BlockLength(t, s) == None
  {
  }

  // ---------------------------------------------------------------- a dangling tag swallows text

  lemma {:induction false} FindExists(lit: string, s: string, j: nat)
    requires j <= |s| && lit <= s[j..]
    ensures Find(lit, s).Some? && Find(lit, s).value <= j
    decreases j
  {
    if j == 0 {
      assert s[0..] == s;
    } else {
      assert s[1..][j - 1..] == s[j..];
      FindExists(lit, s[1..], j - 1);
    }
  }

  lemma {:induction false} BlockExists(t: Tag, s: string, j: nat)
    requires j <= |s| && BlockLength(t, s[j..]).Some?
    ensures FindBlock(t, s).Some? && FindBlock(t, s).value.start <= j
    decreases j
  {
    hide BlockLength;
    if j == 0 {
      assert s[0..] == s;
    } else {
      assert s[1..][j - 1..] == s[j..];
      BlockExists(t, s[1..], j - 1);
    }
  }

  lemma {:induction false} FoundIsBlock(t: Tag, s: string)
    requires FindBlock(t, s).Some?
    ensures var b := FindBlock(t, s).value; BlockLength(t, s[b.start..]) == Some(b.stop - b.start)
  {
    hide BlockLength;
    if BlockLength(t, s).Some? {
      assert s[0..] == s;
    } else {
      FoundIsBlock(t, s[1..]);
      var b := FindBlock(t, s[1..]).value;
      assert s[1..][b.start..] == s[b.start + 1..];
    }
  }

  /** A block ends with its closing tag and is longer than the blank line that replaces it. */
  lemma BlockEnds(t: Tag, s: string)
    requires BlockLength(t, s).Some? && t.name != ""
    ensures var n := BlockLength(t, s).value; n >= 7 && n > |Closing(t)| && Closing(t) <= s[n - |Closing(t)|..]
  {
    hide OpenLength, Find, Closing;
    var m := OpenLength(t, s).value;
    var k := Find(Closing(t), s[m..]).value;
    assert s[m..][k..] == s[m + k..];
    ClosingSize(t);
  }

  lemma ClosingSize(t: Tag)
    ensures |Closing(t)| == |t.name| + 3
  {
  }

  lemma ClosingFreeInHeader(b: Block)
    requires WellFormed(b)
    ensures Free(Closing(b.tag), Header(b) + "\n" + b.body)
  {
    assert b.tag.name[0] in b.tag.name;
    assert Header(b)[1] == b.tag.name[0] && Closing(b.tag)[1] == '/';
    OnlyBracketIsFirst(b);
    FreeUnlessPrefix(Closing(b.tag), Header(b), 1);
    MarkersAreOneLine(b.tag);
    FreeLines(Closing(b.tag), Header(b), b.body);
  }

  lemma ClosingOnlyAtEnd(b: Block, k: nat)
    requires WellFormed(b) && k <= |Text(b)| && Closing(b.tag) <= Text(b)[k..]
    ensures k + |Closing(b.tag)| == |Text(b)|
  {
    hide WellFormed, Header, Closing;
    var c, lines := Closing(b.tag), Header(b) + "\n" + b.body;
    CurrentTag(b);
    MarkersAreOneLine(b.tag);
    ClosingFreeInHeader(b);
    assert Text(b) == lines + "\n" + c;
    if k <= |lines| {
      assert Text(b)[k..] == lines[k..] + "\n" + c;
      NoStraddle(c, lines[k..], c);
    }
  }

  lemma CurrentTag(b: Block)
    requires WellFormed(b)
    ensures PlainTag(b.tag)
  {
  }

  /** Lines in front of a section: empty, or ending with a newline. */
  predicate WholeLines(y: string) {
    y == "" || y[|y| - 1] == '\n'
  }

  /** A block that starts in the lines in front of a section ends there, or swallows the
      whole section. */
  lemma BlockEndsInFrontOrSwallows(y: string, b: Block)
    requires WellFormed(b) && WholeLines(y)
    requires FindBlock(b.tag, y + Text(b)).Some? && FindBlock(b.tag, y + Text(b)).value.start < |y|
    ensures var x := FindBlock(b.tag, y + Text(b)).value;
            x.stop - x.start >= 7 && (x.stop <= |y| || x.stop == |y + Text(b)|)
  {
    hide WellFormed, Text, FindBlock, BlockLength, Closing;
    var t, s := b.tag, y + Text(b);
    var x := FindBlock(t, s).value;
    CurrentTag(b);
    MarkersAreOneLine(t);
    FoundIsBlock(t, s);
    BlockEnds(t, s[x.start..]);
    var c := x.stop - |Closing(t)|;
    DropDrop(s, x.start, c - x.start);
    if c < |y| {
      var line := y[c..|y| - 1];
      assert s[c..] == line + "\n" + Text(b);
      NoStraddle(Closing(t), line, Text(b));
    } else {
      assert s[c..] == Text(b)[c - |y|..];
      ClosingOnlyAtEnd(b, c - |y|);
    }
  }

  lemma SectionIsFound(y: string, b: Block)
    requires WellFormed(b)
    ensures FindBlock(b.tag, y + Text(b)).Some? && FindBlock(b.tag, y + Text(b)).value.start <= |y|
    ensures FindBlock(b.tag, y + Text(b)).value.start == |y|
       ==> FindBlock(b.tag, y + Text(b)).value.stop == |y + Text(b)|
  {
    hide WellFormed, Text, FindBlock, BlockLength;
    var s := y + Text(b);
    BlockFound(b, "");
    assert Text(b) + "" == Text(b);
    assert s[|y|..] == Text(b);
    BlockExists(b.tag, s, |y|);
    FoundIsBlock(b.tag, s);
  }

  lemma NewlinesAre(s: string)
    ensures NewlinesBehind(s) <= 2
    ensures NewlinesBehind(s) > 0 ==> |s| > 0 && s[0] == '\n'
    ensures NewlinesBehind(s) > 1 ==> |s| > 1 && s[1] == '\n'
    ensures NewlinesBehind(s) <= |s|
  {
  }

  lemma NewlinesStopAtSection(y: string, z: string)
    requires z != "" && z[0] != '\n'
    ensures NewlinesBehind(y + z) <= |y|
  {
    hide NewlinesBehind;
    NewlinesAre(y + z);
    assert (y + z)[|y|] == z[0];
  }

  lemma SectionOpens(b: Block)
    ensures Text(b) != "" && Text(b)[0] == '<'
  {
  }

  /** What is left behind a block that ends in the lines in front of the section. */
  lemma RestBehind(y: string, b: Block, stop: nat) returns (n: nat)
    requires WholeLines(y) && stop <= |y|
    ensures n == stop + NewlinesBehind((y + Text(b))[stop..]) <= |y|
    ensures (y + Text(b))[stop..][NewlinesBehind((y + Text(b))[stop..])..] == y[n..] + Text(b)
    ensures WholeLines(y[n..])
  {
    hide NewlinesBehind, Text;
    SectionOpens(b);
    var rest := (y + Text(b))[stop..];
    assert rest == y[stop..] + Text(b);
    NewlinesStopAtSection(y[stop..], Text(b));
    n := stop + NewlinesBehind(rest);
    DropDrop(y, stop, n - stop);
    assert rest[n - stop..] == y[stop..][n - stop..] + Text(b);
  }

  lemma SubstituteStep(t: Tag, s: string)
    requires FindBlock(t, s).Some?
    ensures var x := FindBlock(t, s).value;
            var rest := s[x.stop..];
            Substitute(t, s) == s[..x.start][..x.start - NewlinesBefore(s[..x.start])] + BLANK_LINE
              + Substitute(t, rest[NewlinesBehind(rest)..])
  {
    hide FindBlock, NewlinesBefore, NewlinesBehind;
  }

  /** Substitution never lengthens the lines in front of a section by more than the blank
      line it leaves in place of that section. */
  lemma {:induction false} SubstituteBound(y: string, b: Block)
    requires WellFormed(b) && WholeLines(y)
    ensures |Substitute(b.tag, y + Text(b))| <= |y| + 2
    decreases |y|
  {
    hide WellFormed, Text, FindBlock, Substitute, NewlinesBefore, NewlinesBehind, WholeLines;
    var t, s := b.tag, y + Text(b);
    SectionIsFound(y, b);
    var x := FindBlock(t, s).value;
    SubstituteStep(t, s);
    if x.start < |y| { BlockEndsInFrontOrSwallows(y, b); }
    if x.stop == |s| {
      NothingBehind(t, s);
    } else {
      var n := RestBehind(y, b, x.stop);
      SubstituteBound(y[n..], b);
    }
  }

  lemma NothingBehind(t: Tag, s: string)
    ensures s[|s|..][NewlinesBehind(s[|s|..])..] == "" && Substitute(t, "") == ""
  {
  }

  lemma StripShortens(a: string)
    ensures |Strip(a)| <= |a|
    ensures |Strip(a + BLANK_LINE)| <= |a|
  {
    var s := a + BLANK_LINE;
    var c := s[Spaces(s)..];
    assert |c| > 0 ==> !IsSpace(c[0]) && c[|c| - 1] == '\n';
    if |c| >= 2 {
      assert c[..|c| - 1][..|c| - 2] == c[..|c| - 2];
      assert c[|c| - 1] == '\n' && c[..|c| - 1][|c| - 2] == '\n';
      assert StripRight(c) == StripRight(c[..|c| - 1]) == StripRight(c[..|c| - 2]);
    }
  }

  /** If an opening tag is left in the cleaned text, the second installation does not find
      the text again: it lost what the dangling tag swallowed. */
  lemma DanglingTagSwallows(w: string, b: Block, i: nat)
    requires Current(b) && i <= |w| && OpenLength(b.tag, w[i..]).Some?
    ensures |Clean(b.tag, w + BLANK_LINE + Text(b))| < |w|
  {
    hide Current, Text, FindBlock, Substitute, NewlinesBefore, NewlinesBehind, OpenLength, BlockLength, Strip;
    var t, y := b.tag, w + BLANK_LINE;
    var s := y + Text(b);
    CurrentIsSection(b);
    assert s[i..] == w[i..] + Tail(b);
    OpenHasBlock(w[i..], b);
    BlockExists(t, s, i);
    SubstituteStep(t, s);
    BlockEndsInFrontOrSwallows(y, b);
    var x := FindBlock(t, s).value;
    var front := s[..x.start][..x.start - NewlinesBefore(s[..x.start])];
    if x.stop == |s| {
      NothingBehind(t, s);
      assert Substitute(t, s) == front + BLANK_LINE;
      StripShortens(front);
    } else {
      var n := RestBehind(y, b, x.stop);
      SubstituteBound(y[n..], b);
      StripShortens(Substitute(t, s));
    }
  }

  lemma OpenHasBlock(s: string, b: Block)
    requires Current(b) && OpenLength(b.tag, s).Some?
    ensures OpenLength(b.tag, s).value <= |s| && s != ""
    ensures BlockLength(b.tag, s + Tail(b)).Some?
  {
    hide OpenLength, Find, Closing, Tail, Current;
    var t, z := b.tag, s + Tail(b);
    OpenExtends(t, s, Tail(b));
    TailCloses(b);
    var n, j := OpenLength(t, s).value, |z| - |Closing(t)|;
    assert z[j..] == Tail(b)[|Tail(b)| - |Closing(t)|..];
    DropDrop(z, n, j - n);
    FindExists(Closing(t), z[n..], j - n);
  }

  lemma TailCloses(b: Block)
    ensures |Closing(b.tag)| <= |Tail(b)| && Tail(b)[|Tail(b)| - |Closing(b.tag)|..] == Closing(b.tag)
  {
    hide Header, Closing;
    var front := BLANK_LINE + (Header(b) + "\n" + b.body + "\n");
    assert Tail(b) == front + Closing(b.tag);
  }

  // ---------------------------------------------------------------- the exact condition

  lemma StripIsTrimmed(u: string)
    ensures Strip(u) == "" || Trimmed(Strip(u))
  {
  }

  lemma InstallInjective(v: string, w: string, b: Block)
    ensures Install(v, b) == Install(w, b) <==> v == w
  {
    var x, y := Install(v, b), Install(w, b);
    if x == y {
      assert |v| == |w|;
      assert x[..|v|] == v && y[..|w|] == w;
    }
  }

  /** For every instruction text: installing the PTC section a second time changes nothing
      exactly when the text, cleaned once, keeps no opening PTC tag. */
  lemma EnsurePtcTwice(p: Policies, s: string)
    requires ValidPolicies(p)
    ensures ApplyText(p, EnsurePtc, ApplyText(p, EnsurePtc, s)) == ApplyText(p, EnsurePtc, s)
            <==> NoOpeningTag(PTC, ApplyText(p, RemovePtc, s))
  {
    hide ValidPolicies, Clean, Trimmed;
    var w, b := Clean(PTC, s), PtcBlock(p);
    PtcIsCurrent(p);
    CleanTrimmed(PTC, s);
    InstallInjective(Clean(PTC, Install(w, b)), w, b);
    if NoOpeningTag(PTC, w) {
      CleanFindsOwnSection(w, b);
    } else {
      var i :| 0 <= i <= |w| && OpenLength(PTC, w[i..]) != None;
      assert w != "";
      DanglingTagSwallows(w, b, i);
    }
  }

  lemma PtcIsCurrent(p: Policies)
    requires ValidPolicies(p)
    ensures Current(PtcBlock(p)) && PtcBlock(p).tag == PTC
  {
    hide WellFormed;
    assert PTC_REVISION[0] == 'p';
  }

  lemma CleanTrimmed(t: Tag, s: string)
    ensures Clean(t, s) == "" || Trimmed(Clean(t, s))
  {
    hide Substitute;
    StripIsTrimmed(Substitute(t, s));
  }

  /** The failing family: a dangling opening tag in front of any ordinary text. */
  lemma DanglingTagBreaksIdempotence(p: Policies, u: string)
    requires ValidPolicies(p) && '<' !in u && (u == "" || !IsSpace(u[|u| - 1]))
    ensures var s := Opening(PTC) + ">" + u;
            ApplyText(p, EnsurePtc, ApplyText(p, EnsurePtc, s)) != ApplyText(p, EnsurePtc, s)
  {
    var s := Opening(PTC) + ">" + u;
    hide ValidPolicies, ApplyText;
    EnsurePtcTwice(p, s);
    DanglingStays(u);
    RemovePtcIsClean(p, s);
    assert s[0..] == s;
    TagsArePlainAndApart();
    DanglingOpens(u);
  }

  lemma RemovePtcIsClean(p: Policies, s: string)
    ensures ApplyText(p, RemovePtc, s) == Clean(PTC, s)
  {
  }

  lemma DanglingOpens(u: string)
    ensures OpenLength(PTC, Opening(PTC) + ">" + u).Some?
  {
    var s := Opening(PTC) + ">" + u;
    assert s[|Opening(PTC)|..] == ">" + u;
  }

  lemma {:induction false} NoBlockWithoutClosing(t: Tag, s: string)
    requires Free(Closing(t), s)
    ensures FindBlock(t, s) == None
  {
    if s != "" {
      if OpenLength(t, s).Some? {
        FreePart(Closing(t), s, OpenLength(t, s).value, |s|);
        NotFound(Closing(t), s[OpenLength(t, s).value..]);
      }
      FreePart(Closing(t), s, 1, |s|);
      NoBlockWithoutClosing(t, s[1..]);
    }
  }

  lemma {:induction false} NotFound(lit: string, s: string)
    requires Free(lit, s)
    ensures Find(lit, s) == None
  {
    assert s[0..] == s;
    if s != "" {
      FreePart(lit, s, 1, |s|);
      NotFound(lit, s[1..]);
    }
  }

  lemma NoSubstitution(t: Tag, s: string)
    requires FindBlock(t, s) == None
    ensures Substitute(t, s) == s
  {
    hide FindBlock;
  }

  lemma DanglingStays(u: string)
    requires '<' !in u && (u == "" || !IsSpace(u[|u| - 1]))
    ensures Clean(PTC, Opening(PTC) + ">" + u) == Opening(PTC) + ">" + u
  {
    hide Substitute, FindBlock, Strip;
    var s := Opening(PTC) + ">" + u;
    PtcIsPlain();
    assert PTC.name[0] == 'p' && s[1] == PTC.name[0] && Closing(PTC)[1] == '/';
    var tail := PTC.name + ">" + u;
    assert s == "<" + tail && '<' !in tail;
    forall i | 1 <= i < |s| ensures s[i] != '<' { assert s[i] == tail[i - 1]; }
    FreeUnlessPrefix(Closing(PTC), s, 1);
    NoBlockWithoutClosing(PTC, s);
    NoSubstitution(PTC, s);
    assert Trimmed(s);
    StripTrimmed(s);
  }
}
