// What each single failure says, in terms of places in the trace: rows counted, first runs, texts
// cut out of the joined text.

module TaskFailures {
  import opened TaskCoverage
  import TaggedText

  // ---------------------------------------------------------------- the evaluator's filters

  ghost function RowsOf(rows: seq<Invocation>, phase: Phase): set<int> {
    set i | 0 <= i < |rows| && rows[i].phase == phase
  }

  ghost predicate IsFirst(rows: seq<Invocation>, p: int, phase: Phase) {
    0 <= p < |rows| && rows[p].phase == phase && forall i :: 0 <= i < p ==> rows[i].phase != phase
  }

  /** The runs of a phase are as many as its rows. */
  lemma {:induction false} RunsAre(rows: seq<Invocation>, phase: Phase)
    ensures |Runs(rows, phase)| == |RowsOf(rows, phase)|
  {
    if rows != [] {
      var n := |rows| - 1;
      RunsAre(rows[..n], phase);
      assert RowsOf(rows, phase) == RowsOf(rows[..n], phase) + if rows[n].phase == phase then {n} else {};
    }
  }

  /** The first run is the first row. */
  lemma {:induction false} FirstRun(rows: seq<Invocation>, phase: Phase) returns (p: int)
    ensures Runs(rows, phase) != [] ==> IsFirst(rows, p, phase) && Runs(rows, phase)[0] == rows[p]
  {
    p := 0;
    if rows != [] {
      var n := |rows| - 1;
      NoRun(rows[..n], phase);
      p := FirstRun(rows[..n], phase);
      assert forall i :: 0 <= i < n ==> rows[..n][i] == rows[i];
      if Runs(rows[..n], phase) == [] { p := n; }
    }
  }

  lemma FirstIsOne(rows: seq<Invocation>, phase: Phase, p: int)
    requires IsFirst(rows, p, phase)
    ensures Runs(rows, phase) != [] && Runs(rows, phase)[0] == rows[p]
  {
    var q := FirstRun(rows, phase);
    NoRun(rows, phase);
    hide Runs;
  }

  ghost function IdleAt(events: seq<Event>): set<int> {
    set i | 0 <= i < |events| && events[i].kind == SessionIdle
  }

  lemma {:induction false} IdlesAre(events: seq<Event>)
    ensures |OfKinds(events, {SessionIdle})| == |IdleAt(events)|
  {
    if events != [] {
      var n := |events| - 1;
      IdlesAre(events[..n]);
      assert IdleAt(events) == IdleAt(events[..n]) + if events[n].kind == SessionIdle then {n} else {};
    }
  }

  /** The texts are those of the phase's assistant messages, in the order of the events. */
  lemma TextsAre(a: seq<Event>, e: Event, phase: Phase)
    ensures Texts([], phase) == []
    ensures Texts(a + [e], phase)
         == Texts(a, phase) + if e.kind == AssistantMessage && e.phase == phase then [e.text] else []
  {
    assert (a + [e])[..|a|] == a;
  }

  /** Texts are joined by line feeds, in order. */
  lemma {:induction false} JoinedOf(a: seq<string>, b: seq<string>)
    ensures forall t :: Joined([t]) == t
    ensures a != [] && b != [] ==> Joined(a + b) == Joined(a) + "\n" + Joined(b)
  {
    if |a| > 1 && b != [] {
      assert (a + b)[1..] == a[1..] + b;
      JoinedOf(a[1..], b);
    } else if |a| == 1 && b != [] {
      assert (a + b)[1..] == b;
    }
  }

  /** Blank is what stripping leaves nothing of. */
  lemma BlankIff(s: string)
    ensures Blank(s) <==> TaggedText.Strip(s) == ""
  {
    var n := TaggedText.Spaces(s);
    if n < |s| {
      SomethingStays(s[n..]);
    }
  }

  lemma {:induction false} SomethingStays(s: string)
    requires s != "" && !TaggedText.IsSpace(s[0])
    ensures TaggedText.StripRight(s) != ""
  {
    if TaggedText.IsSpace(s[|s| - 1]) { SomethingStays(s[..|s| - 1]); }
  }

  ghost predicate CutAround(s: string, needle: string) {
    exists before, behind :: s == before + needle + behind
  }

  /** A text contains another when it can be cut around it. */
  lemma ContainsIff(s: string, needle: string)
    ensures Contains(s, needle) <==> CutAround(s, needle)
  {
    if Contains(s, needle) {
      var i :| 0 <= i <= |s| && needle <= s[i..];
      assert s == s[..i] + needle + s[i + |needle|..];
    }
    if before, behind :| s == before + needle + behind {
      assert s[|before|..] == needle + behind;
    }
  }

  // ---------------------------------------------------------------- the failures

  /** The failures about the runs. */
  lemma RunFailures(c: Case, rows: seq<Invocation>)
    requires rows == if c.trace.invocations.Some? && c.trace.events.Some? then c.trace.invocations.value else []
    ensures Violates(c, NotLists) <==> c.trace.invocations.None? || c.trace.events.None?
    ensures Violates(c, PrimaryRuns) <==> |RowsOf(rows, Primary)| != 1
    ensures Violates(c, PrimaryPrompt)
       <==> |RowsOf(rows, Primary)| == 1 && exists p :: IsFirst(rows, p, Primary) && rows[p].prompt != c.request
    ensures Violates(c, CoverageRanTwice) <==> |RowsOf(rows, Coverage)| > 1
    ensures Violates(c, CoverageCount)
       <==> |RowsOf(rows, Coverage)| != if c.expected.outcome in {Supplemented, NoOp, Failed} then 1 else 0
    ensures Violates(c, OtherRuntime)
       <==> exists p, q :: IsFirst(rows, p, Primary) && IsFirst(rows, q, Coverage) && rows[q].runtime != rows[p].runtime
    ensures Violates(c, OtherThread)
       <==> exists p, q :: IsFirst(rows, p, Primary) && IsFirst(rows, q, Coverage) && rows[q].thread != rows[p].thread
    ensures Violates(c, OtherPrompt)
       <==> exists p, q :: IsFirst(rows, p, Primary) && IsFirst(rows, q, Coverage) && !rows[q].genericReview
    ensures Violates(c, OtherContext)
       <==> exists p, q :: IsFirst(rows, p, Primary) && IsFirst(rows, q, Coverage) && !rows[q].sameContext
  {
    hide Runs, RowsOf;
    RunsAre(rows, Primary);
    RunsAre(rows, Coverage);
    var p0 := FirstRun(rows, Primary);
    var q0 := FirstRun(rows, Coverage);
    forall p, phase | 0 <= p < |rows| && IsFirst(rows, p, phase) ensures StartsWith(Runs(rows, phase), rows[p]) {
      FirstIsOne(rows, phase, p);
    }
    hide IsFirst;
  }

  predicate StartsWith(runs: seq<Invocation>, row: Invocation) { runs != [] && runs[0] == row }

  /** The failures about the order of the events. */
  lemma OrderFailures(c: Case, events: seq<Event>)
    requires events == if c.trace.invocations.Some? && c.trace.events.Some? then c.trace.events.value else []
    ensures Violates(c, HostContent)
       <==> exists i :: 0 <= i < |events| && events[i].kind == AssistantMessage && !events[i].byRuntime
    ensures Violates(c, NoPrimaryOutput)
       <==> forall i :: 0 <= i < |events| ==> !(events[i].kind == AssistantMessage && events[i].phase == Primary)
    ensures Violates(c, CoverageBeforePrimary)
       <==> exists i, j :: && 0 <= i < j < |events|
                           && events[i].kind == AssistantMessage && events[i].phase == Coverage
                           && events[j].kind == AssistantMessage && events[j].phase == Primary
    ensures Violates(c, IdleCount) <==> |IdleAt(events)| != 1
    ensures Violates(c, IdleNotLast) <==> events != [] && events[|events| - 1].kind != SessionIdle
  {
    hide Texts, OfKinds, IdleAt, Runs;
    SomeText(events, Primary);
    IdlesAre(events);
  }

  /** The failures about what the outcome calls for, on the coverage texts joined by line feeds. */
  lemma OutcomeFailures(c: Case, events: seq<Event>)
    requires events == if c.trace.invocations.Some? && c.trace.events.Some? then c.trace.events.value else []
    ensures var text, outcome := Joined(Texts(events, Coverage)), c.expected.outcome;
            && (Violates(c, NoSupplement) <==> outcome == Supplemented && TaggedText.Strip(text) == "")
            && (Violates(c, UnexpectedText)
                <==> && (outcome == NoOp || outcome == Failed || outcome == Unsupported || outcome == PrimaryError)
                     && TaggedText.Strip(text) != "")
    ensures Violates(c, PrimaryChanged)
       <==> c.expected.primary.Some? && c.expected.primary.value != Texts(events, Primary)
  {
    BlankIff(Joined(Texts(events, Coverage)));
    hide Texts, Runs, Blank, Contains, Joined, OfKinds, Has, CoverageFirst, Hosted;
  }

  /** The failures about what must have been observed. */
  lemma ObservationFailures(c: Case, events: seq<Event>)
    requires events == if c.trace.invocations.Some? && c.trace.events.Some? then c.trace.events.value else []
    ensures Violates(c, NoFailureObserved)
       <==> c.expected.outcome == Failed && forall i :: 0 <= i < |events| ==> events[i].kind != CoverageFailed
    ensures Violates(c, NoUnavailableObserved)
       <==> c.expected.outcome == Unsupported && forall i :: 0 <= i < |events| ==> events[i].kind != CoverageUnavailable
  {
    Observations(c);
    hide Violates;
  }

  /** Required texts that are missing from the joined text, and completed ones that are in it. */
  lemma TextFailures(c: Case, events: seq<Event>, needle: string)
    requires events == if c.trace.invocations.Some? && c.trace.events.Some? then c.trace.events.value else []
    ensures Violates(c, MissingText(needle))
       <==> needle in c.expected.mustInclude && !CutAround(Joined(Texts(events, Coverage)), needle)
    ensures Violates(c, RepeatedText(needle))
       <==> needle in c.expected.mustNotRepeat && CutAround(Joined(Texts(events, Coverage)), needle)
  {
    ContainsIff(Joined(Texts(events, Coverage)), needle);
    hide Texts, Runs, Blank, Contains, Joined, OfKinds, CutAround;
  }
}
