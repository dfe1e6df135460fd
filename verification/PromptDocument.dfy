// The refinement: every sequence of ensure/remove calls on the instruction string acts as
// list operations on "trimmed user text plus distinct blocks".

module PromptDocument {
  import opened Options
  import opened TaggedText
  import opened PromptBlocks

  datatype Doc = Doc(base: string, blocks: seq<Block>)

  /** The wording of the three current sections. */
  datatype Policies = Policies(citation: string, offNotice: string, ptc: string)

  datatype Op = EnsureCitation | RemoveCitation | EnsureOffNotice | EnsurePtc | RemovePtc

  const CITATION_REVISION: string := "citation-v7"
  const PTC_REVISION: string := "ptc-v1"

  function CitationBlock(p: Policies): Block { Block(CITATION, Some(CITATION_REVISION), p.citation) }
  function OffNoticeBlock(p: Policies): Block { Block(OFF_NOTICE, None, p.offNotice) }
  function PtcBlock(p: Policies): Block { Block(PTC, Some(PTC_REVISION), p.ptc) }

  function Install(base: string, b: Block): string {
    if base == "" then Text(b) else base + BLANK_LINE + Text(b)
  }

  /** The five functions on strings. */
  function ApplyText(p: Policies, op: Op, s: string): string {
    match op
    case EnsureCitation => Install(Clean(OFF_NOTICE, Clean(CITATION, s)), CitationBlock(p))
    case RemoveCitation => Clean(CITATION, s)
    case EnsureOffNotice => Install(Clean(OFF_NOTICE, Clean(CITATION, s)), OffNoticeBlock(p))
    case EnsurePtc => Install(Clean(PTC, s), PtcBlock(p))
    case RemovePtc => Clean(PTC, s)
  }

  function RunText(p: Policies, ops: seq<Op>, s: string): string {
    if ops == [] then s else RunText(p, ops[1..], ApplyText(p, ops[0], s))
  }

  function Without(blocks: seq<Block>, t: Tag): seq<Block> {
    if blocks == [] then []
    else (if blocks[0].tag == t then [] else [blocks[0]]) + Without(blocks[1..], t)
  }

  /** What they mean: remove by tag, append at the end. */
  function ApplyDoc(p: Policies, op: Op, d: Doc): Doc {
    match op
    case EnsureCitation => d.(blocks := Without(Without(d.blocks, CITATION), OFF_NOTICE) + [CitationBlock(p)])
    case RemoveCitation => d.(blocks := Without(d.blocks, CITATION))
    case EnsureOffNotice => d.(blocks := Without(Without(d.blocks, CITATION), OFF_NOTICE) + [OffNoticeBlock(p)])
    case EnsurePtc => d.(blocks := Without(d.blocks, PTC) + [PtcBlock(p)])
    case RemovePtc => d.(blocks := Without(d.blocks, PTC))
  }

  function RunDoc(p: Policies, ops: seq<Op>, d: Doc): Doc {
    if ops == [] then d else RunDoc(p, ops[1..], ApplyDoc(p, ops[0], d))
  }

  function Join(items: seq<string>): string {
    if items == [] then "" else if |items| == 1 then items[0] else items[0] + BLANK_LINE + Join(items[1..])
  }

  function Texts(blocks: seq<Block>): seq<string> {
    if blocks == [] then [] else [Text(blocks[0])] + Texts(blocks[1..])
  }

  function Items(d: Doc): seq<string> {
    (if d.base == "" then [] else [d.base]) + Texts(d.blocks)
  }

  function Render(d: Doc): string { Join(Items(d)) }

  predicate Trimmed(s: string) {
    s != "" && !IsSpace(s[0]) && !IsSpace(s[|s| - 1])
  }

  ghost predicate HasTag(blocks: seq<Block>, t: Tag) {
    exists b :: b in blocks && b.tag == t
  }

  /** Sections of distinct tags, never both the citation policy and the off notice. */
  ghost predicate ValidBlocks(blocks: seq<Block>) {
    && (forall b :: b in blocks ==> WellFormed(b) && b.tag in TAGS)
    && DistinctTags(blocks)
    && !(HasTag(blocks, CITATION) && HasTag(blocks, OFF_NOTICE))
  }

  ghost predicate ValidDoc(d: Doc) {
    && (d.base == "" || Trimmed(d.base)) && Unmarked(d.base)
    && ValidBlocks(d.blocks)
  }

  ghost predicate ValidPolicies(p: Policies) {
    WellFormed(CitationBlock(p)) && WellFormed(OffNoticeBlock(p)) && WellFormed(PtcBlock(p))
  }

  // ---------------------------------------------------------------- strip and join

  predicate AllSpace(s: string) {
    forall i :: 0 <= i < |s| ==> IsSpace(s[i])
  }

  lemma {:induction false} SpacesInFront(a: string, s: string)
    requires AllSpace(a) && (s == "" || !IsSpace(s[0]))
    ensures Spaces(a + s) == |a|
  {
    if a == "" {
      assert a + s == s;
    } else {
      assert (a + s)[1..] == a[1..] + s;
      SpacesInFront(a[1..], s);
    }
  }

  lemma {:induction false} SpacesBehind(s: string, b: string)
    requires AllSpace(b) && (s == "" || !IsSpace(s[|s| - 1]))
    ensures StripRight(s + b) == s
  {
    if b == "" {
      assert s + b == s;
    } else {
      assert (s + b)[..|s + b| - 1] == s + b[..|b| - 1];
      assert (s + b)[|s + b| - 1] == b[|b| - 1];
      SpacesBehind(s, b[..|b| - 1]);
    }
  }

  lemma StripAround(a: string, s: string, b: string)
    requires AllSpace(a) && AllSpace(b) && (s == "" || Trimmed(s))
    ensures Strip(a + s + b) == s
  {
    if s == "" {
      assert a + s + b == (a + b) + "";
      SpacesInFront(a + b, "");
      assert (a + b)[|a + b|..] == "";
    } else {
      assert a + s + b == a + (s + b);
      SpacesInFront(a, s + b);
      assert (a + (s + b))[|a|..] == s + b;
      SpacesBehind(s, b);
    }
  }

  /** A blank line between two parts, of which either may be missing. */
  function Paragraphs(a: string, b: string): string {
    if a == "" then b else if b == "" then a else a + BLANK_LINE + b
  }

  lemma StripParagraphs(a: string, b: string)
    requires (a == "" || Trimmed(a)) && (b == "" || Trimmed(b))
    ensures Strip(a + BLANK_LINE + b) == Paragraphs(a, b)
  {
    if a == "" {
      StripAround(BLANK_LINE, b, "");
      assert a + BLANK_LINE + b == BLANK_LINE + b + "";
    } else if b == "" {
      StripAround("", a, BLANK_LINE);
      assert a + BLANK_LINE + b == "" + a + BLANK_LINE;
    } else {
      var s := a + BLANK_LINE + b;
      StripAround("", s, "");
      assert "" + s + "" == s;
    }
  }

  lemma {:induction false} JoinParts(xs: seq<string>, ys: seq<string>)
    requires "" !in xs && "" !in ys
    ensures Join(xs + ys) == Paragraphs(Join(xs), Join(ys))
    ensures Join(xs) == "" <==> xs == []
    decreases |xs|
  {
    if xs == [] {
      assert xs + ys == ys;
    } else {
      var rest := xs[1..];
      assert (xs + ys)[1..] == rest + ys;
      JoinParts(rest, ys);
      if ys != [] { JoinNonEmpty(ys); }
      ParagraphsAssociate(xs[0], Join(rest), Join(ys));
    }
  }

  lemma ParagraphsAssociate(a: string, b: string, c: string)
    ensures Paragraphs(a, Paragraphs(b, c)) == Paragraphs(Paragraphs(a, b), c)
  {
    assert a + BLANK_LINE + (b + BLANK_LINE + c) == (a + BLANK_LINE + b) + BLANK_LINE + c;
  }

  lemma JoinNonEmpty(ys: seq<string>)
    requires ys != [] && ys[0] != ""
    ensures Join(ys) != ""
  {
  }

  lemma {:induction false} JoinTrimmed(xs: seq<string>)
    requires forall x :: x in xs ==> Trimmed(x)
    ensures xs == [] || Trimmed(Join(xs))
  {
    if |xs| > 1 {
      JoinTrimmed(xs[1..]);
      assert Trimmed(xs[0]);
    }
  }

  lemma {:induction false} JoinFree(lit: string, xs: seq<string>)
    requires OneLine(lit)
    requires forall x :: x in xs ==> Free(lit, x)
    ensures Free(lit, Join(xs))
  {
    if |xs| > 1 {
      JoinFree(lit, xs[1..]);
      FreeParagraphs(lit, xs[0], Join(xs[1..]));
    }
  }

  lemma FreeParagraphs(lit: string, a: string, b: string)
    requires OneLine(lit) && Free(lit, a) && Free(lit, b)
    ensures Free(lit, a + BLANK_LINE + b)
  {
    assert Free(lit, "");
    FreeLines(lit, a, "");
    FreeLines(lit, a + "\n" + "", b);
    assert a + "\n" + "" + "\n" + b == a + BLANK_LINE + b;
  }

  // ---------------------------------------------------------------- one section removed

  /** What the texts in front of and behind a section must satisfy. */
  ghost predicate Clear(t: Tag, items: seq<string>) {
    forall x :: x in items ==> Trimmed(x) && Free(Opening(t), x)
  }

  function Before(xs: seq<string>): string { if xs == [] then "" else Join(xs) + BLANK_LINE }
  function Behind(ys: seq<string>): string { if ys == [] then "" else BLANK_LINE + Join(ys) }

  lemma AroundItem(xs: seq<string>, x: string, ys: seq<string>)
    requires "" !in xs && x != "" && "" !in ys
    ensures Join(xs + [x] + ys) == Before(xs) + x + Behind(ys)
  {
    hide Join;
    SmallJoins(x);
    JoinParts(xs + [x], ys);
    JoinParts(xs, [x]);
    JoinParts(ys, []);
    assert Join(xs + [x]) == Before(xs) + x;
    Associates(Before(xs) + x, BLANK_LINE, Join(ys));
    assert ys == [] ==> Behind(ys) == "";
  }

  lemma Associates(a: string, b: string, c: string)
    ensures a + b + c == a + (b + c)
  {
  }

  lemma SmallJoins(x: string)
    ensures Join([]) == "" && Join([x]) == x
  {
  }

  lemma NoBlockStartsBefore(t: Tag, xs: seq<string>, rest: string)
    requires PlainTag(t) && Clear(t, xs)
    ensures forall i :: 0 <= i < |Before(xs)| ==> BlockLength(t, Before(xs)[i..] + rest) == None
  {
    MarkersAreOneLine(t);
    JoinFree(Opening(t), xs);
    if xs != [] {
      assert Free(Opening(t), "");
      FreeLines(Opening(t), Join(xs), "");
      NoOpeningOnLine(t, Join(xs) + "\n" + "", rest);
      assert Before(xs) == (Join(xs) + "\n" + "") + "\n";
    }
  }

  lemma NoOpeningOnLine(t: Tag, line: string, rest: string)
    requires PlainTag(t) && Free(Opening(t), line)
    ensures forall i :: 0 <= i < |line + "\n"| ==> BlockLength(t, (line + "\n")[i..] + rest) == None
  {
    MarkersAreOneLine(t);
    hide BlockLength, Opening;
    forall i | 0 <= i < |line + "\n"| ensures BlockLength(t, (line + "\n")[i..] + rest) == None {
      assert (line + "\n")[i..] + rest == line[i..] + "\n" + rest;
      NoStraddle(Opening(t), line[i..], rest);
      NoOpeningNoBlock(t, (line + "\n")[i..] + rest);
    }
  }

  lemma NoOpeningNoBlock(t: Tag, s: string)
    requires !(Opening(t) <= s)
    ensures BlockLength(t, s) == None
  {
  }

  /** Substituting a blank line for the only section of its tag and stripping removes it
      together with exactly one separator. */
  lemma RemoveSection(xs: seq<string>, b: Block, ys: seq<string>)
    requires WellFormed(b) && Clear(b.tag, xs) && Clear(b.tag, ys)
    ensures Clean(b.tag, Join(xs + [Text(b)] + ys)) == Join(xs + ys)
  {
    hide Text, WellFormed, FindBlock, BlockLength, Opening, Strip, Free, Substitute, Join, Before, Behind;
    hide NewlinesBefore, NewlinesBehind;
    SectionIsText(b);
    var before, behind := Before(xs), Behind(ys);
    AroundItem(xs, Text(b), ys);
    NoBlockStartsBefore(b.tag, xs, Text(b) + behind);
    BlockFound(b, behind);
    FoundFirst(b.tag, Text(b), behind);
    FindBlockBehind(b.tag, before, Text(b) + behind);
    var s := before + Text(b) + behind;
    assert s == before + (Text(b) + behind);
    assert FindBlock(b.tag, s) == Some(Span(|before|, |before| + |Text(b)|));
    JoinTrimmed(xs);
    JoinTrimmed(ys);
    NothingToRemove(b.tag, ys);
    SmallJoins("");
    SeparatorsTaken(xs, ys);
    SubstituteAt(b.tag, before, Text(b), behind, Join(xs), Join(ys));
    StripParagraphs(Join(xs), Join(ys));
    JoinParts(xs, ys);
  }

  lemma SectionIsText(b: Block)
    requires WellFormed(b)
    ensures Text(b) != "" && PlainTag(b.tag)
  {
  }

  lemma FoundFirst(t: Tag, text: string, behind: string)
    requires text != "" && BlockLength(t, text + behind) == Some(|text|)
    ensures FindBlock(t, text + behind) == Some(Span(0, |text|))
  {
    hide BlockLength;
  }

  /** Without its opening marker a text is only stripped. */
  lemma NothingToRemove(t: Tag, ys: seq<string>)
    requires PlainTag(t) && Clear(t, ys)
    ensures Substitute(t, Join(ys)) == Join(ys)
  {
    MarkersAreOneLine(t);
    JoinFree(Opening(t), ys);
    NoBlockWithoutOpening(t, Join(ys));
  }

  lemma SubstituteAt(t: Tag, a: string, text: string, c: string, x: string, y: string)
    requires FindBlock(t, a + text + c) == Some(Span(|a|, |a| + |text|))
    requires a[..|a| - NewlinesBefore(a)] == x && c[NewlinesBehind(c)..] == y && Substitute(t, y) == y
    ensures Substitute(t, a + text + c) == x + BLANK_LINE + y
  {
    hide FindBlock, NewlinesBefore, NewlinesBehind;
    assert (a + text + c)[..|a|] == a;
    assert (a + text + c)[|a| + |text|..] == c;
  }

  /** The match takes both newlines of each adjacent separator and nothing else. */
  lemma SeparatorsTaken(xs: seq<string>, ys: seq<string>)
    ensures Before(xs)[..|Before(xs)| - NewlinesBefore(Before(xs))] == Join(xs)
    ensures Behind(ys)[NewlinesBehind(Behind(ys))..] == Join(ys)
  {
    SmallJoins("");
    hide Join;
    if xs != [] { assert Before(xs)[|Join(xs)|..] == BLANK_LINE; }
  }

  // ---------------------------------------------------------------- documents

  lemma {:induction false} TextsSplit(xs: seq<Block>, ys: seq<Block>)
    ensures Texts(xs + ys) == Texts(xs) + Texts(ys)
  {
    hide Text;
    if xs == [] {
      assert xs + ys == ys;
    } else {
      assert (xs + ys)[1..] == xs[1..] + ys;
      TextsSplit(xs[1..], ys);
    }
  }

  lemma {:induction false} WithoutSplit(xs: seq<Block>, ys: seq<Block>, t: Tag)
    ensures Without(xs + ys, t) == Without(xs, t) + Without(ys, t)
  {
    if xs == [] {
      assert xs + ys == ys;
    } else {
      assert (xs + ys)[1..] == xs[1..] + ys;
      WithoutSplit(xs[1..], ys, t);
    }
  }

  lemma {:induction false} WithoutAbsent(xs: seq<Block>, t: Tag)
    requires !HasTag(xs, t)
    ensures Without(xs, t) == xs
  {
    if xs != [] {
      assert xs[0] in xs;
      forall b | b in xs[1..] ensures b.tag != t { assert b in xs; }
      WithoutAbsent(xs[1..], t);
    }
  }

  lemma {:induction false} WithoutMembers(xs: seq<Block>, t: Tag)
    ensures forall b :: b in Without(xs, t) <==> b in xs && b.tag != t
  {
    if xs != [] { WithoutMembers(xs[1..], t); }
  }

  /** Section texts start with '<' and end with '>', and no other section's marker is in them. */
  lemma {:induction false} SectionsClear(t: Tag, blocks: seq<Block>)
    requires t in TAGS && forall b :: b in blocks ==> WellFormed(b) && b.tag in TAGS && b.tag != t
    ensures Clear(t, Texts(blocks))
  {
    if blocks != [] {
      var b := blocks[0];
      SectionsClear(t, blocks[1..]);
      TagsArePlainAndApart();
      OtherBlockFree(t, b);
      SectionTrimmed(b);
    }
  }

  lemma SectionTrimmed(b: Block)
    ensures Trimmed(Text(b))
  {
    assert Text(b)[0] == '<' && Text(b)[|Text(b)| - 1] == '>';
  }

  /** Without a section of that tag cleaning leaves the document alone. */
  lemma CleanWithout(t: Tag, d: Doc)
    requires ValidDoc(d) && t in TAGS && !HasTag(d.blocks, t)
    ensures Clean(t, Render(d)) == Render(d)
  {
    hide Substitute, Strip, WellFormed, Text, FindBlock;
    var items := (if d.base == "" then [] else [d.base]) + Texts(d.blocks);
    TagsArePlainAndApart();
    hide PlainTag, Apart;
    SectionsClear(t, d.blocks);
    assert Clear(t, items);
    NothingToRemove(t, items);
    JoinTrimmed(items);
    SmallJoins("");
    hide Join, Texts;
    StripTrimmed(Join(items));
  }

  /** Cleaning a rendered document removes the section of that tag, and only that. */
  lemma CleanDoc(t: Tag, d: Doc)
    requires ValidDoc(d) && t in TAGS
    ensures Clean(t, Render(d)) == Render(d.(blocks := Without(d.blocks, t)))
  {
    hide Substitute, Strip, Clean, WellFormed, Join, Texts, Without, Text;
    if HasTag(d.blocks, t) {
      var user := if d.base == "" then [] else [d.base];
      var k :| 0 <= k < |d.blocks| && d.blocks[k].tag == t;
      SplitAt(d.blocks, k);
      CleanSection(t, user, d.blocks[..k], d.blocks[k], d.blocks[k + 1..]);
    } else {
      WithoutAbsent(d.blocks, t);
      CleanWithout(t, d);
    }
  }

  lemma StripTrimmed(s: string)
    requires s == "" || Trimmed(s)
    ensures Strip(s) == s
  {
    StripAround("", s, "");
    assert "" + s + "" == s;
  }

  lemma SplitAt<T>(s: seq<T>, k: nat)
    requires k < |s|
    ensures s == s[..k] + [s[k]] + s[k + 1..]
  {
  }

  lemma CleanSection(t: Tag, user: seq<string>, xs: seq<Block>, b: Block, ys: seq<Block>)
    requires t in TAGS && b.tag == t && ValidBlocks(xs + [b] + ys) && Clear(t, user)
    ensures Clean(t, Join(user + Texts(xs + [b] + ys))) == Join(user + Texts(Without(xs + [b] + ys, t)))
  {
    OnlySectionOfItsTag(xs, b, ys);
    SectionsClear(t, xs);
    SectionsClear(t, ys);
    SectionTexts(user, xs, b, ys);
    hide Clean, Substitute, FindBlock, BlockLength, OpenLength, Strip, StripRight, Spaces, Text, WellFormed, Without,
         Join, Texts, Find;
    RemoveSection(user + Texts(xs), b, Texts(ys));
  }

  lemma OnlySectionOfItsTag(xs: seq<Block>, b: Block, ys: seq<Block>)
    requires ValidBlocks(xs + [b] + ys)
    ensures forall c :: c in xs || c in ys ==> WellFormed(c) && c.tag in TAGS && c.tag != b.tag
    ensures WellFormed(b)
  {
    hide WellFormed, HasTag;
    var all := xs + [b] + ys;
    assert all[|xs|] == b && b in all;
    forall c | c in xs ensures WellFormed(c) && c.tag in TAGS && c.tag != b.tag {
      var i :| 0 <= i < |xs| && xs[i] == c;
      assert all[i] == c && c in all;
    }
    forall c | c in ys ensures WellFormed(c) && c.tag in TAGS && c.tag != b.tag {
      var i :| 0 <= i < |ys| && ys[i] == c;
      assert all[|xs| + 1 + i] == c && c in all;
    }
  }

  lemma SectionTexts(user: seq<string>, xs: seq<Block>, b: Block, ys: seq<Block>)
    requires !HasTag(xs, b.tag) && !HasTag(ys, b.tag)
    ensures user + Texts(xs + [b] + ys) == (user + Texts(xs)) + [Text(b)] + Texts(ys)
    ensures user + Texts(Without(xs + [b] + ys, b.tag)) == (user + Texts(xs)) + Texts(ys)
  {
    hide Text, Texts, Without;
    WithoutOnly(xs, b, ys);
    TextsAround(xs, b, ys);
    TextsSplit(xs, ys);
    Regroup(user, Texts(xs), [Text(b)], Texts(ys));
  }

  lemma Regroup<T>(a: seq<T>, b: seq<T>, c: seq<T>, d: seq<T>)
    ensures a + (b + c + d) == (a + b) + c + d
    ensures a + (b + d) == (a + b) + d
  {
  }

  lemma TextsAround(xs: seq<Block>, b: Block, ys: seq<Block>)
    ensures Texts(xs + [b] + ys) == Texts(xs) + [Text(b)] + Texts(ys)
  {
    hide Text;
    TextsSplit(xs + [b], ys);
    TextsSplit(xs, [b]);
    assert Texts([b]) == [Text(b)];
  }

  lemma WithoutOnly(xs: seq<Block>, b: Block, ys: seq<Block>)
    requires !HasTag(xs, b.tag) && !HasTag(ys, b.tag)
    ensures Without(xs + [b] + ys, b.tag) == xs + ys
  {
    hide Without;
    WithoutAbsent(xs, b.tag);
    WithoutAbsent(ys, b.tag);
    WithoutSplit(xs + [b], ys, b.tag);
    WithoutSplit(xs, [b], b.tag);
    WithoutOne(b);
    assert xs + [] == xs;
  }

  lemma WithoutOne(b: Block)
    ensures Without([b], b.tag) == []
  {
  }

  // ---------------------------------------------------------------- the refinement

  lemma WithoutValid(blocks: seq<Block>, t: Tag)
    requires ValidBlocks(blocks)
    ensures ValidBlocks(Without(blocks, t)) && !HasTag(Without(blocks, t), t)
  {
    WithoutMembers(blocks, t);
    WithoutDistinct(blocks, t);
  }

  ghost predicate DistinctTags(blocks: seq<Block>) {
    forall i, j :: 0 <= i < j < |blocks| ==> blocks[i].tag != blocks[j].tag
  }

  lemma {:induction false} WithoutDistinct(blocks: seq<Block>, t: Tag)
    requires DistinctTags(blocks)
    ensures DistinctTags(Without(blocks, t))
  {
    if blocks != [] {
      var rest, first := blocks[1..], blocks[0];
      WithoutDistinct(rest, t);
      WithoutMembers(rest, t);
      var w := Without(rest, t);
      forall b | b in w ensures b.tag != first.tag {
        assert b in rest;
        var i :| 0 <= i < |rest| && rest[i] == b;
        assert blocks[i + 1] == b;
      }
      assert DistinctTags([first] + w) by {
        assert forall j :: 0 <= j < |w| ==> w[j] in w;
      }
    }
  }

  lemma InstallDoc(d: Doc, b: Block)
    requires ValidDoc(d) && WellFormed(b)
    ensures Install(Render(d), b) == Render(d.(blocks := d.blocks + [b]))
  {
    hide Text, WellFormed, Join;
    TextsSplit(d.blocks, [b]);
    assert Texts([b]) == [Text(b)];
    ItemsNonEmpty(d);
    SectionIsText(b);
    SmallJoins(Text(b));
    assert Items(d.(blocks := d.blocks + [b])) == Items(d) + [Text(b)];
    JoinParts(Items(d), [Text(b)]);
  }

  lemma {:induction false} ItemsNonEmpty(d: Doc)
    requires ValidDoc(d)
    ensures "" !in Items(d)
    decreases |d.blocks|
  {
    hide Text;
    if d.blocks != [] {
      var rest := d.(blocks := d.blocks[1..]);
      assert d.blocks[0] in d.blocks;
      SectionIsText(d.blocks[0]);
      RestValid(d.blocks);
      ItemsNonEmpty(rest);
      assert "" !in Texts(rest.blocks);
    }
  }

  lemma RestValid(blocks: seq<Block>)
    requires ValidBlocks(blocks) && blocks != []
    ensures ValidBlocks(blocks[1..])
  {
    assert forall b :: b in blocks[1..] ==> b in blocks;
  }

  lemma CleanKeepsValid(t: Tag, d: Doc)
    requires ValidDoc(d) && t in TAGS
    ensures Clean(t, Render(d)) == Render(d.(blocks := Without(d.blocks, t)))
    ensures ValidDoc(d.(blocks := Without(d.blocks, t))) && !HasTag(Without(d.blocks, t), t)
  {
    CleanDoc(t, d);
    WithoutValid(d.blocks, t);
  }

  lemma InstallKeepsValid(d: Doc, b: Block)
    requires ValidDoc(d) && WellFormed(b) && b.tag in TAGS && !HasTag(d.blocks, b.tag)
    requires b.tag == CITATION ==> !HasTag(d.blocks, OFF_NOTICE)
    requires b.tag == OFF_NOTICE ==> !HasTag(d.blocks, CITATION)
    ensures Install(Render(d), b) == Render(d.(blocks := d.blocks + [b]))
    ensures ValidDoc(d.(blocks := d.blocks + [b]))
  {
    hide WellFormed, Text;
    InstallDoc(d, b);
    var longer := d.blocks + [b];
    forall i | 0 <= i < |d.blocks| ensures longer[i].tag != b.tag { assert d.blocks[i] in d.blocks; }
    assert forall t :: HasTag(longer, t) ==> t == b.tag || HasTag(d.blocks, t);
  }

  /** One call on the rendered text is the list operation. */
  lemma StepRefines(p: Policies, op: Op, d: Doc)
    requires ValidPolicies(p) && ValidDoc(d)
    ensures ApplyText(p, op, Render(d)) == Render(ApplyDoc(p, op, d))
    ensures ValidDoc(ApplyDoc(p, op, d)) && ApplyDoc(p, op, d).base == d.base
  {
    hide WellFormed, Text, Clean, Render, Without, Install, ValidBlocks, Unmarked;
    match op
    case EnsureCitation =>
      NoCitationLeft(d);
      InstallKeepsValid(WithoutCitations(d), CitationBlock(p));
    case RemoveCitation => CleanKeepsValid(CITATION, d);
    case EnsureOffNotice =>
      NoCitationLeft(d);
      InstallKeepsValid(WithoutCitations(d), OffNoticeBlock(p));
    case EnsurePtc =>
      CleanKeepsValid(PTC, d);
      InstallKeepsValid(d.(blocks := Without(d.blocks, PTC)), PtcBlock(p));
    case RemovePtc => CleanKeepsValid(PTC, d);
  }

  function WithoutCitations(d: Doc): Doc {
    d.(blocks := Without(Without(d.blocks, CITATION), OFF_NOTICE))
  }

  lemma NoCitationLeft(d: Doc)
    requires ValidDoc(d)
    ensures Clean(OFF_NOTICE, Clean(CITATION, Render(d))) == Render(WithoutCitations(d))
    ensures ValidDoc(WithoutCitations(d))
    ensures !HasTag(WithoutCitations(d).blocks, CITATION) && !HasTag(WithoutCitations(d).blocks, OFF_NOTICE)
  {
    hide Clean, Render, ValidBlocks, Unmarked;
    var d1 := d.(blocks := Without(d.blocks, CITATION));
    CleanKeepsValid(CITATION, d);
    CleanKeepsValid(OFF_NOTICE, d1);
    WithoutMembers(d1.blocks, OFF_NOTICE);
  }

  /** Any sequence of calls: user text kept byte for byte, blocks distinct, and never both
      the citation policy and the off notice. */
  lemma {:induction false} RunRefines(p: Policies, ops: seq<Op>, d: Doc)
    requires ValidPolicies(p) && ValidDoc(d)
    ensures RunText(p, ops, Render(d)) == Render(RunDoc(p, ops, d))
    ensures ValidDoc(RunDoc(p, ops, d)) && RunDoc(p, ops, d).base == d.base
  {
    hide ValidDoc, ValidPolicies, Render, ApplyText, ApplyDoc;
    if ops != [] {
      StepRefines(p, ops[0], d);
      RunRefines(p, ops[1..], ApplyDoc(p, ops[0], d));
    }
  }

  lemma StripKeepsUnmarked(u: string)
    requires Unmarked(u)
    ensures Unmarked(Strip(u)) && (Strip(u) == "" || Trimmed(Strip(u)))
  {
    hide Spaces, StripRight, IsSpace;
    var k := Spaces(u);
    var r := Strip(u);
    assert r == u[k..][..|r|] == u[k..k + |r|];
    forall t | t in TAGS ensures Free(Opening(t), r) {
      FreePart(Opening(t), u, k, k + |r|);
    }
  }

  lemma CleanUserText(t: Tag, u: string)
    requires t in TAGS && Unmarked(u)
    ensures Clean(t, u) == Clean(t, Strip(u)) == Strip(u)
  {
    StripKeepsUnmarked(u);
    NoBlockWithoutOpening(t, u);
    NoBlockWithoutOpening(t, Strip(u));
    StripTrimmed(Strip(u));
  }

  lemma UntrimmedStart(p: Policies, op: Op, u: string)
    requires Unmarked(u)
    ensures ApplyText(p, op, u) == ApplyText(p, op, Strip(u))
  {
    CleanUserText(CITATION, u);
    CleanUserText(PTC, u);
  }

  /** Starting from user text without markers, every sequence of calls yields exactly the
      trimmed text followed by the blank-line separated blocks. */
  lemma FromUserText(p: Policies, ops: seq<Op>, u: string)
    requires ValidPolicies(p) && Unmarked(u) && ops != []
    ensures RunText(p, ops, u) == Render(RunDoc(p, ops, Doc(Strip(u), [])))
    ensures ValidDoc(RunDoc(p, ops, Doc(Strip(u), []))) && RunDoc(p, ops, Doc(Strip(u), [])).base == Strip(u)
  {
    StripKeepsUnmarked(u);
    var d := Doc(Strip(u), []);
    assert Render(d) == Strip(u);
    UntrimmedStart(p, ops[0], u);
    RunRefines(p, ops, d);
  }

  /** A section of either citation tag, under any earlier revision or wording and at any place, is
      replaced by the one installed; likewise a PTC section. */
  lemma StaleSectionsReplaced(p: Policies, base: string, xs: seq<Block>, stale: Block, ys: seq<Block>)
    requires ValidPolicies(p) && ValidDoc(Doc(base, xs + [stale] + ys))
    ensures stale.tag != PTC ==>
              var text := Render(Doc(base, xs + [stale] + ys));
              && ApplyText(p, EnsureCitation, text) == Render(Doc(base, xs + ys + [CitationBlock(p)]))
              && ApplyText(p, EnsureOffNotice, text) == Render(Doc(base, xs + ys + [OffNoticeBlock(p)]))
    ensures stale.tag == PTC ==>
              var text := Render(Doc(base, xs + [stale] + ys));
              ApplyText(p, EnsurePtc, text) == Render(Doc(base, xs + ys + [PtcBlock(p)]))
  {
    hide Render, ApplyText, ApplyDoc, ValidPolicies, ValidDoc;
    var d := Doc(base, xs + [stale] + ys);
    StepRefines(p, EnsureCitation, d);
    StepRefines(p, EnsureOffNotice, d);
    StepRefines(p, EnsurePtc, d);
    StaleDoc(p, base, xs, stale, ys);
  }

  lemma StaleDoc(p: Policies, base: string, xs: seq<Block>, stale: Block, ys: seq<Block>)
    requires ValidDoc(Doc(base, xs + [stale] + ys))
    ensures var d := Doc(base, xs + [stale] + ys);
            && (stale.tag != PTC ==>
                  && ApplyDoc(p, EnsureCitation, d) == Doc(base, xs + ys + [CitationBlock(p)])
                  && ApplyDoc(p, EnsureOffNotice, d) == Doc(base, xs + ys + [OffNoticeBlock(p)]))
            && (stale.tag == PTC ==> ApplyDoc(p, EnsurePtc, d) == Doc(base, xs + ys + [PtcBlock(p)]))
  {
    hide ValidBlocks, Without, Unmarked, Trimmed;
    WithoutStale(xs, stale, ys);
  }

  lemma WithoutStale(xs: seq<Block>, stale: Block, ys: seq<Block>)
    requires ValidBlocks(xs + [stale] + ys)
    ensures stale.tag == PTC ==> Without(xs + [stale] + ys, PTC) == xs + ys
    ensures stale.tag != PTC ==> Without(Without(xs + [stale] + ys, CITATION), OFF_NOTICE) == xs + ys
  {
    var all := xs + [stale] + ys;
    assert all[|xs|] == stale && stale in all;
    OnlySectionOfItsTag(xs, stale, ys);
    WithoutOnly(xs, stale, ys);
    assert forall b :: b in xs + ys ==> b in all;
    hide ValidBlocks, WellFormed, Without;
    if stale.tag == CITATION {
      WithoutAbsent(xs + ys, OFF_NOTICE);
    } else if stale.tag == OFF_NOTICE {
      WithoutAbsent(all, CITATION);
    }
  }

  /** Installing and removing again restores, byte for byte, a text without those sections. */
  lemma RemoveUndoesEnsure(p: Policies, d: Doc)
    requires ValidPolicies(p) && ValidDoc(d)
    ensures !HasTag(d.blocks, CITATION) && !HasTag(d.blocks, OFF_NOTICE)
            ==> ApplyText(p, RemoveCitation, ApplyText(p, EnsureCitation, Render(d))) == Render(d)
    ensures !HasTag(d.blocks, PTC) ==> ApplyText(p, RemovePtc, ApplyText(p, EnsurePtc, Render(d))) == Render(d)
  {
    StepRefines(p, EnsureCitation, d);
    StepRefines(p, RemoveCitation, ApplyDoc(p, EnsureCitation, d));
    StepRefines(p, EnsurePtc, d);
    StepRefines(p, RemovePtc, ApplyDoc(p, EnsurePtc, d));
    hide Render, ApplyText, ValidPolicies, ValidDoc;
    RemovedAgain(p, d);
  }

  lemma RemovedAgain(p: Policies, d: Doc)
    ensures !HasTag(d.blocks, CITATION) && !HasTag(d.blocks, OFF_NOTICE)
            ==> ApplyDoc(p, RemoveCitation, ApplyDoc(p, EnsureCitation, d)) == d
    ensures !HasTag(d.blocks, PTC) ==> ApplyDoc(p, RemovePtc, ApplyDoc(p, EnsurePtc, d)) == d
  {
    if !HasTag(d.blocks, CITATION) && !HasTag(d.blocks, OFF_NOTICE) {
      WithoutAbsent(d.blocks, CITATION);
      WithoutAbsent(d.blocks, OFF_NOTICE);
      WithoutOnly(d.blocks, CitationBlock(p), []);
      assert d.blocks + [CitationBlock(p)] + [] == d.blocks + [CitationBlock(p)];
    }
    if !HasTag(d.blocks, PTC) {
      WithoutAbsent(d.blocks, PTC);
      WithoutOnly(d.blocks, PtcBlock(p), []);
      assert d.blocks + [PtcBlock(p)] + [] == d.blocks + [PtcBlock(p)];
    }
  }

  const PIPELINE: seq<Op> := [EnsureCitation, EnsurePtc]

  function Piped(p: Policies, d: Doc): Doc {
    ApplyDoc(p, EnsurePtc, ApplyDoc(p, EnsureCitation, d))
  }

  lemma WithoutTwice(xs: seq<Block>, t: Tag, u: Tag)
    ensures !HasTag(Without(xs, t), t)
    ensures !HasTag(xs, u) ==> !HasTag(Without(xs, t), u)
  {
    WithoutMembers(xs, t);
  }

  /** The shape after the per-turn pipeline: other sections, citation policy, PTC policy. */
  lemma PipedShape(p: Policies, d: Doc)
    ensures exists rest: seq<Block> ::
              && Piped(p, d).blocks == rest + [CitationBlock(p), PtcBlock(p)]
              && !HasTag(rest, CITATION) && !HasTag(rest, OFF_NOTICE) && !HasTag(rest, PTC)
  {
    var a := Without(Without(d.blocks, CITATION), OFF_NOTICE);
    var rest := Without(a, PTC);
    WithoutTwice(d.blocks, CITATION, CITATION);
    WithoutTwice(Without(d.blocks, CITATION), OFF_NOTICE, CITATION);
    WithoutTwice(a, PTC, CITATION);
    WithoutTwice(a, PTC, OFF_NOTICE);
    WithoutSplit(a, [CitationBlock(p)], PTC);
    TagsDiffer();
    assert Without([CitationBlock(p)], PTC) == [CitationBlock(p)];
    assert Piped(p, d).blocks == rest + [CitationBlock(p), PtcBlock(p)];
  }

  lemma TagsDiffer()
    ensures CITATION != PTC && OFF_NOTICE != PTC && CITATION != OFF_NOTICE
  {
    TagsArePlainAndApart();
  }

  /** An installation puts its section at the very end. */
  lemma InstallEnds(base: string, b: Block)
    ensures var s, c := Install(base, b), Closing(b.tag);
            |c| <= |s| && s[|s| - |c|..] == c
  {
    hide Header;
    var s := Install(base, b);
    var front := (if base == "" then "" else base + BLANK_LINE) + (Header(b) + "\n" + b.body + "\n");
    assert s == front + Closing(b.tag);
  }

  /** The citation step changes every text that ends in the PTC section. */
  lemma CitationStepMoves(p: Policies, u: string, v: string)
    ensures Install(u, CitationBlock(p)) != Install(v, PtcBlock(p))
  {
    hide Install;
    InstallEnds(u, CitationBlock(p));
    InstallEnds(v, PtcBlock(p));
    assert Closing(CITATION)[16] == 'm' && |Closing(CITATION)| == 25;
    assert Closing(PTC)[4] == 'c' && |Closing(PTC)| == 13;
    var s, t := Install(u, CitationBlock(p)), Install(v, PtcBlock(p));
    assert s[|s| - 9] == s[|s| - 25..][16] == 'm';
    assert t[|t| - 9] == t[|t| - 13..][4] == 'c';
  }

  /** The per-turn pipeline is a byte-exact fixpoint, although its first step alone changes every
      text the pipeline leaves. */
  lemma PipelineFixpoint(p: Policies, d: Doc)
    requires ValidPolicies(p) && ValidDoc(d)
    ensures RunText(p, PIPELINE, RunText(p, PIPELINE, Render(d))) == RunText(p, PIPELINE, Render(d))
    ensures forall s :: RunText(p, [EnsureCitation], RunText(p, PIPELINE, s)) != RunText(p, PIPELINE, s)
  {
    hide Render, Clean, Install, ValidDoc, ValidPolicies, ApplyDoc, Piped;
    PipelineOnDocs(p, d);
    RunRefines(p, PIPELINE, d);
    RunRefines(p, PIPELINE, RunDoc(p, PIPELINE, d));
    forall s ensures RunText(p, [EnsureCitation], RunText(p, PIPELINE, s)) != RunText(p, PIPELINE, s) {
      TextPipeline(p, s);
      var t := RunText(p, PIPELINE, s);
      assert [EnsureCitation][1..] == [];
      assert RunText(p, [EnsureCitation], t) == ApplyText(p, EnsureCitation, t);
      CitationStepMoves(p, Clean(OFF_NOTICE, Clean(CITATION, t)), Clean(PTC, ApplyText(p, EnsureCitation, s)));
    }
  }

  lemma TextPipeline(p: Policies, s: string)
    ensures RunText(p, PIPELINE, s) == ApplyText(p, EnsurePtc, ApplyText(p, EnsureCitation, s))
  {
    hide ApplyText;
    assert PIPELINE[1..] == [EnsurePtc];
    assert [EnsurePtc][1..] == [];
    var t := ApplyText(p, EnsureCitation, s);
    assert RunText(p, [EnsurePtc], t) == ApplyText(p, EnsurePtc, t);
  }

  lemma PipelineOnDocs(p: Policies, d: Doc)
    ensures RunDoc(p, PIPELINE, d) == Piped(p, d)
    ensures Piped(p, Piped(p, d)) == Piped(p, d)
    ensures RunDoc(p, PIPELINE, Piped(p, d)) == Piped(p, d)
  {
    PipedShape(p, d);
    var rest: seq<Block> :| Piped(p, d).blocks == rest + [CitationBlock(p), PtcBlock(p)]
      && !HasTag(rest, CITATION) && !HasTag(rest, OFF_NOTICE) && !HasTag(rest, PTC);
    PipedAgain(p, Piped(p, d), rest);
    PipelineUnrolled(p, d);
    PipelineUnrolled(p, Piped(p, d));
  }

  lemma PipelineUnrolled(p: Policies, d: Doc)
    ensures RunDoc(p, PIPELINE, d) == Piped(p, d)
  {
    hide ApplyDoc;
    assert PIPELINE[1..] == [EnsurePtc];
    assert [EnsurePtc][1..] == [];
    assert RunDoc(p, [EnsurePtc], ApplyDoc(p, EnsureCitation, d)) == Piped(p, d);
  }

  lemma PipedAgain(p: Policies, d: Doc, rest: seq<Block>)
    requires d.blocks == rest + [CitationBlock(p), PtcBlock(p)]
    requires !HasTag(rest, CITATION) && !HasTag(rest, OFF_NOTICE) && !HasTag(rest, PTC)
    ensures ApplyDoc(p, EnsureCitation, d).blocks == rest + [PtcBlock(p), CitationBlock(p)]
    ensures Piped(p, d) == d
  {
    var c, x := CitationBlock(p), PtcBlock(p);
    TagsDiffer();
    assert c.tag == CITATION && x.tag == PTC;
    WithoutOnly(rest, c, [x]);
    assert rest + [c] + [x] == rest + [c, x];
    HasTagAppend(rest, x, OFF_NOTICE);
    WithoutAbsent(rest + [x], OFF_NOTICE);
    WithoutOnly(rest, x, [c]);
    assert rest + [x] + [c] == rest + [x, c];
  }

  lemma HasTagAppend(xs: seq<Block>, b: Block, t: Tag)
    requires !HasTag(xs, t) && b.tag != t
    ensures !HasTag(xs + [b], t)
  {
  }
}
