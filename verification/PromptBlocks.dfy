// The ensure/remove pairs refine "trimmed user text plus an ordered list of distinct
// machine-managed blocks", byte for byte.

module PromptBlocks {
  import opened Options
  import opened TaggedText

  /** One machine-managed section, of any revision. */
  datatype Block = Block(tag: Tag, revision: Option<string>, body: string)

  function Attribute(b: Block): string {
    match b.revision case None => "" case Some(r) => " " + REVISION + r + "\""
  }

  function Header(b: Block): string { Opening(b.tag) + Attribute(b) + ">" }

  function Text(b: Block): string {
    Header(b) + "\n" + b.body + "\n" + Closing(b.tag)
  }

  const TAGS: set<Tag> := {CITATION, OFF_NOTICE, PTC}

  /** The text holds none of the three opening markers. */
  ghost predicate Unmarked(s: string) {
    forall t :: t in TAGS ==> Free(Opening(t), s)
  }

  predicate PlainChar(c: char) {
    c != '<' && c != '/' && c != '\n' && c != '\"'
  }

  /** A name made of ordinary characters. */
  ghost predicate PlainTag(t: Tag) {
    t.name != "" && forall c :: c in t.name ==> PlainChar(c)
  }

  /** The two names differ before either ends. */
  ghost predicate Apart(t: Tag, u: Tag) {
    exists i :: 0 <= i < |t.name| && i < |u.name| && t.name[i] != u.name[i]
  }

  /** What the proofs need of the three tags. */
  lemma TagsArePlainAndApart()
    ensures forall t :: t in TAGS ==> PlainTag(t)
    ensures forall t, u :: t in TAGS && u in TAGS && t != u ==> Apart(t, u)
  {
    TagsArePlain();
    TagsAreApart();
  }

  lemma TagsArePlain()
    ensures PlainTag(CITATION) && PlainTag(OFF_NOTICE) && PlainTag(PTC)
  {
    hide PlainTag;
    CitationIsPlain();
    OffNoticeIsPlain();
    PtcIsPlain();
  }

  lemma CitationIsPlain()
    ensures PlainTag(CITATION)
  {
    assert forall i :: 0 <= i < |CITATION.name| ==> PlainChar(CITATION.name[i]);
  }

  lemma OffNoticeIsPlain()
    ensures PlainTag(OFF_NOTICE)
  {
    assert forall i :: 0 <= i < |OFF_NOTICE.name| ==> PlainChar(OFF_NOTICE.name[i]);
  }

  lemma PtcIsPlain()
    ensures PlainTag(PTC)
  {
    assert forall i :: 0 <= i < |PTC.name| ==> PlainChar(PTC.name[i]);
  }

  lemma TagsAreApart()
    ensures Apart(CITATION, OFF_NOTICE) && Apart(OFF_NOTICE, CITATION)
    ensures Apart(CITATION, PTC) && Apart(PTC, CITATION) && Apart(OFF_NOTICE, PTC) && Apart(PTC, OFF_NOTICE)
  {
    assert CITATION.name[0] == 'c' && OFF_NOTICE.name[0] == 'c' && PTC.name[0] == 'p';
    assert CITATION.name[9] == 's' && OFF_NOTICE.name[9] == 'o';
  }

  /** Body text that cannot be taken for markup, and a quotable revision. */
  ghost predicate WellFormed(b: Block) {
    && PlainTag(b.tag) && Unmarked(b.body) && Free(Closing(b.tag), b.body)
    && (b.revision.Some? ==>
          b.tag.revisable && forall c :: c in b.revision.value ==> c != '\"' && c != '<' && c != '\n')
  }

  lemma {:induction false} FindQuote(r: string, rest: string)
    requires '\"' !in r
    ensures Find("\"", r + "\"" + rest) == Some(|r|)
  {
    var s := r + "\"" + rest;
    if r == "" {
      assert s == "\"" + rest;
    } else {
      assert s[0] == r[0];
      assert s[1..] == r[1..] + "\"" + rest;
      FindQuote(r[1..], rest);
    }
  }

  lemma AttributeFound(r: string, rest: string)
    requires '\"' !in r
    ensures AttributeLength(" " + REVISION + r + "\"" + ">" + rest) == Some(|REVISION| + |r| + 3)
  {
    var s := " " + REVISION + r + "\"" + ">" + rest;
    assert s[1..] == REVISION + (r + "\"" + (">" + rest));
    assert Spaces(s[1..]) == 0;
    assert Spaces(s) == 1;
    var tail := r + "\"" + (">" + rest);
    assert s[1 + |REVISION|..] == tail;
    FindQuote(r, ">" + rest);
    assert tail[|r| + 1..] == ">" + rest;
    assert s[1 + |REVISION| + |r| + 1..] == ">" + rest;
  }

  lemma HeaderFound(b: Block, rest: string)
    requires WellFormed(b)
    ensures OpenLength(b.tag, Header(b) + rest) == Some(|Header(b)|)
  {
    hide Find, Spaces, AttributeLength, Unmarked, PlainTag;
    var s, n := Header(b) + rest, |Opening(b.tag)|;
    var tail := Attribute(b) + ">" + rest;
    Reassociate(Opening(b.tag), Attribute(b), ">", rest);
    assert s == Opening(b.tag) + tail;
    assert s[n..] == tail;
    if b.revision.Some? {
      AttributeFound(b.revision.value, rest);
      assert tail == " " + REVISION + b.revision.value + "\"" + ">" + rest;
    } else {
      assert tail == ">" + rest;
      NoAttribute(tail);
    }
  }

  lemma NoAttribute(s: string)
    requires ">" <= s
    ensures AttributeLength(s) == None
  {
    assert s[0] == '>';
  }

  lemma BlockFound(b: Block, rest: string)
    requires WellFormed(b)
    ensures BlockLength(b.tag, Text(b) + rest) == Some(|Text(b)|)
  {
    hide Find, OpenLength, BlockLength, Header, Closing;
    var inner := "\n" + b.body + "\n" + Closing(b.tag);
    assert Text(b) == Header(b) + inner;
    var s := Text(b) + rest;
    TextParts(Header(b), inner, rest);
    HeaderFound(b, inner + rest);
    ClosingFoundBehindBody(b, rest);
    BlockLengthIs(b.tag, s, |Header(b)|, |b.body| + 2);
  }

  lemma BlockLengthIs(t: Tag, s: string, n: nat, k: nat)
    requires OpenLength(t, s) == Some(n) && n <= |s|
    requires Find(Closing(t), s[n..]) == Some(k)
    ensures BlockLength(t, s) == Some(n + k + |Closing(t)|)
  {
    hide Find, Closing, OpenLength;
  }

  lemma TextParts(header: string, inner: string, rest: string)
    ensures header + inner + rest == header + (inner + rest)
    ensures (header + inner + rest)[|header|..] == inner + rest
  {
  }

  lemma ClosingFoundBehindBody(b: Block, rest: string)
    requires WellFormed(b)
    ensures Find(Closing(b.tag), "\n" + b.body + "\n" + Closing(b.tag) + rest) == Some(|b.body| + 2)
  {
    MarkersAreOneLine(b.tag);
    FreeLines(Closing(b.tag), "", b.body);
    assert "" + "\n" + b.body == "\n" + b.body;
    FindOnNextLine(Closing(b.tag), "\n" + b.body, rest);
  }

  lemma MarkersAreOneLine(t: Tag)
    requires PlainTag(t)
    ensures OneLine(Closing(t)) && OneLine(Opening(t))
  {
  }

  // ---------------------------------------------------------------- the markers are apart

  /** In a line whose only '<' is its first character, a marker can only start there. */
  lemma FreeUnlessPrefix(lit: string, s: string, k: nat)
    requires k < |lit| && k < |s| && lit[0] == '<' && lit[k] != s[k]
    requires forall i :: 1 <= i < |s| ==> s[i] != '<'
    ensures Free(lit, s)
  {
    forall i | 0 <= i <= |s| ensures !(lit <= s[i..]) {
      assert s[0..] == s;
      assert i < |s| ==> s[i..][0] == s[i];
    }
  }

  lemma OnlyBracketIsFirst(b: Block)
    requires WellFormed(b)
    ensures forall i :: 1 <= i < |Header(b)| ==> Header(b)[i] != '<'
  {
    var tail := b.tag.name + Attribute(b) + ">";
    assert Header(b) == "<" + tail;
    assert '<' !in b.tag.name && '<' !in Attribute(b) && '<' !in ">";
    assert '<' !in tail;
    forall i | 1 <= i < |Header(b)| ensures Header(b)[i] != '<' {
      assert Header(b)[i] == tail[i - 1];
    }
  }

  lemma OtherHeaderFree(t: Tag, b: Block)
    requires WellFormed(b) && Apart(t, b.tag)
    ensures Free(Opening(t), Header(b))
  {
    var i :| 0 <= i < |t.name| && i < |b.tag.name| && t.name[i] != b.tag.name[i];
    assert Header(b)[i + 1] == b.tag.name[i] && Opening(t)[i + 1] == t.name[i];
    OnlyBracketIsFirst(b);
    FreeUnlessPrefix(Opening(t), Header(b), i + 1);
  }

  lemma ClosingFree(t: Tag, u: Tag)
    requires PlainTag(t) && PlainTag(u)
    ensures Free(Opening(t), Closing(u))
  {
    assert t.name[0] in t.name;
    assert Closing(u)[1] == '/' && Opening(t)[1] == t.name[0];
    var tail := "/" + u.name + ">";
    assert Closing(u) == "<" + tail && '<' !in tail;
    forall i | 1 <= i < |Closing(u)| ensures Closing(u)[i] != '<' {
      assert Closing(u)[i] == tail[i - 1];
    }
    FreeUnlessPrefix(Opening(t), Closing(u), 1);
  }

  lemma OtherBlockFree(t: Tag, b: Block)
    requires WellFormed(b) && t in TAGS && PlainTag(t) && Apart(t, b.tag)
    ensures Free(Opening(t), Text(b))
  {
    MarkersAreOneLine(t);
    OtherHeaderFree(t, b);
    ClosingFree(t, b.tag);
    FreeLines(Opening(t), Header(b), b.body);
    FreeLines(Opening(t), Header(b) + "\n" + b.body, Closing(b.tag));
  }
}
