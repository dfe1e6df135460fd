// The installed sections, byte for byte.

module PromptBytes {
  import opened TaggedText
  import opened PromptBlocks
  import opened PromptDocument

  /** What stands in front of the first section. */
  function Head(u: string): string {
    if Strip(u) == "" then "" else Strip(u) + "\n\n"
  }

  /** The three sections as they are written today. */
  function CitationSection(p: Policies): string {
    var header := "<" + "citation-system-policy" + (" " + "revision=\"" + "citation-v7" + "\"") + ">";
    header + "\n" + p.citation + "\n" + ("</" + "citation-system-policy" + ">")
  }

  function OffNoticeSection(p: Policies): string {
    "<" + "citation-off-notice" + "" + ">" + "\n" + p.offNotice + "\n" + ("</" + "citation-off-notice" + ">")
  }

  function PtcSection(p: Policies): string {
    var header := "<" + "ptc-policy" + (" " + "revision=\"" + "ptc-v1" + "\"") + ">";
    header + "\n" + p.ptc + "\n" + ("</" + "ptc-policy" + ">")
  }

  lemma SectionBytes(p: Policies)
    ensures Text(CitationBlock(p)) == CitationSection(p)
    ensures Text(OffNoticeBlock(p)) == OffNoticeSection(p)
    ensures Text(PtcBlock(p)) == PtcSection(p)
  {
  }

  /** Installing into text without markers: the trimmed text, a blank line when there is any text,
      and the section; removing leaves the trimmed text. */
  lemma InstalledBytes(p: Policies, u: string)
    requires ValidPolicies(p) && Unmarked(u)
    ensures ApplyText(p, EnsureCitation, u) == Head(u) + CitationSection(p)
    ensures ApplyText(p, EnsureOffNotice, u) == Head(u) + OffNoticeSection(p)
    ensures ApplyText(p, EnsurePtc, u) == Head(u) + PtcSection(p)
    ensures ApplyText(p, RemoveCitation, u) == ApplyText(p, RemovePtc, u) == Strip(u)
  {
    CleanUserText(CITATION, u);
    CleanUserText(PTC, u);
    StripKeepsUnmarked(u);
    CleanUserText(OFF_NOTICE, Strip(u));
    StripTrimmed(Strip(u));
    SectionBytes(p);
    hide Clean, Strip, Text, Unmarked, ValidPolicies, CitationSection, OffNoticeSection, PtcSection;
  }

  /** The per-turn pair on such text. */
  lemma PipelineBytes(p: Policies, u: string)
    requires ValidPolicies(p) && Unmarked(u)
    ensures RunText(p, [EnsureCitation, EnsurePtc], u) == Head(u) + CitationSection(p) + "\n\n" + PtcSection(p)
  {
    FromUserText(p, [EnsureCitation, EnsurePtc], u);
    SectionBytes(p);
    RanPair(p, Doc(Strip(u), []));
    RenderTwo(Strip(u), CitationBlock(p), PtcBlock(p));
    hide Strip, Unmarked, ValidPolicies, ValidDoc, CitationSection, PtcSection, RunDoc, RunText, Text, Render;
  }

  lemma RenderTwo(base: string, b: Block, c: Block)
    ensures Render(Doc(base, [b, c])) == (if base == "" then "" else base + "\n\n") + Text(b) + "\n\n" + Text(c)
  {
    hide Text;
    var first, second := Text(b), Text(c);
    assert [b, c][1..] == [c] && [c][1..] == [];
    assert Texts([c]) == [second] && Texts([b, c]) == [first, second];
    assert [first, second][1..] == [second];
    assert Join([first, second]) == first + BLANK_LINE + second;
    if base != "" {
      assert Items(Doc(base, [b, c])) == [base, first, second];
      assert [base, first, second][1..] == [first, second];
    } else {
      assert Items(Doc(base, [b, c])) == [first, second];
    }
  }

  lemma RanPair(p: Policies, d: Doc)
    requires d.blocks == []
    ensures RunDoc(p, [EnsureCitation, EnsurePtc], d) == Doc(d.base, [CitationBlock(p), PtcBlock(p)])
  {
    var ops := [EnsureCitation, EnsurePtc];
    var once := ApplyDoc(p, EnsureCitation, d);
    assert ops[1..] == [EnsurePtc] && [EnsurePtc][1..] == [];
    assert [] + [CitationBlock(p)] == [CitationBlock(p)];
    assert once == Doc(d.base, [CitationBlock(p)]);
    assert [CitationBlock(p)][1..] == [];
    assert CITATION != PTC by { assert |CITATION.name| != |PTC.name|; }
    assert Without([CitationBlock(p)], PTC) == [CitationBlock(p)];
    assert [CitationBlock(p)] + [PtcBlock(p)] == [CitationBlock(p), PtcBlock(p)];
    assert RunDoc(p, [EnsurePtc], once) == RunDoc(p, [], ApplyDoc(p, EnsurePtc, once));
  }
}
