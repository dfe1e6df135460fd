// The frozen-trace verdict: a list of failures computed from the trace, against a protocol
// stated on its own.

module TaskCoverage {
  import opened Options
  import TaggedText

  datatype Kind = AssistantMessage | SessionIdle | CoverageFailed | CoverageUnavailable | OtherKind(name: string)
  datatype Phase = Primary | Coverage | OtherPhase(name: string)
  datatype Outcome = Supplemented | NoOp | Failed | Unsupported | PrimaryError | OtherOutcome(name: string)

  datatype Event = Event(kind: Kind, phase: Phase, byRuntime: bool, text: string)

  datatype Invocation = Invocation(
      phase: Phase, prompt: string, runtime: string, thread: string, genericReview: bool, sameContext: bool)

  /** `None` is a value that is not a list. */
  datatype Trace = Trace(invocations: Option<seq<Invocation>>, events: Option<seq<Event>>)

  datatype Expected = Expected(
      outcome: Outcome, mustInclude: seq<string>, mustNotRepeat: seq<string>, primary: Option<seq<string>>)

  datatype Case = Case(request: string, trace: Trace, expected: Expected)

  predicate Listed(c: Case) {
    c.trace.invocations.Some? && c.trace.events.Some?
  }

  function Invocations(c: Case): seq<Invocation> {
    if Listed(c) then c.trace.invocations.value else []
  }

  function Events(c: Case): seq<Event> {
    if Listed(c) then c.trace.events.value else []
  }

  function Runs(rows: seq<Invocation>, phase: Phase): seq<Invocation> {
    if rows == [] then []
    else
      var front := Runs(rows[..|rows| - 1], phase);
      if rows[|rows| - 1].phase == phase then front + [rows[|rows| - 1]] else front
  }

  /** The events of the given kinds, in order. */
  function OfKinds(events: seq<Event>, kinds: set<Kind>): seq<Event> {
    if events == [] then []
    else
      var front := OfKinds(events[..|events| - 1], kinds);
      if events[|events| - 1].kind in kinds then front + [events[|events| - 1]] else front
  }

  predicate Says(e: Event, phase: Phase) {
    e.kind == AssistantMessage && e.phase == phase
  }

  /** The texts of the phase's assistant messages. */
  function Texts(events: seq<Event>, phase: Phase): seq<string> {
    if events == [] then []
    else
      var front := Texts(events[..|events| - 1], phase);
      if Says(events[|events| - 1], phase) then front + [events[|events| - 1].text] else front
  }

  function Positions(events: seq<Event>, phase: Phase): (r: seq<nat>)
    ensures forall p: nat :: p in r <==> p < |events| && Says(events[p], phase)
    ensures forall i, j :: 0 <= i < j < |r| ==> r[i] < r[j]
  {
    if events == [] then []
    else
      var n := |events| - 1;
      var front := Positions(events[..n], phase);
      assert forall i :: 0 <= i < |front| ==> front[i] in front;
      if Says(events[n], phase) then front + [n] else front
  }

  function Joined(texts: seq<string>): string {
    if texts == [] then ""
    else if |texts| == 1 then texts[0]
    else texts[0] + "\n" + Joined(texts[1..])
  }

  predicate Blank(s: string) {
    forall i :: 0 <= i < |s| ==> TaggedText.IsSpace(s[i])
  }

  predicate Contains(s: string, needle: string) {
    exists i :: 0 <= i <= |s| && needle <= s[i..]
  }

  function CoverageText(c: Case): string { Joined(Texts(Events(c), Coverage)) }

  predicate ShouldRun(o: Outcome) { o.Supplemented? || o.NoOp? || o.Failed? }
  predicate Silent(o: Outcome) { o.NoOp? || o.Failed? || o.Unsupported? || o.PrimaryError? }

  predicate Has(events: seq<Event>, kind: Kind) {
    exists i :: 0 <= i < |events| && events[i].kind == kind
  }

  predicate Hosted(events: seq<Event>) {
    exists i :: 0 <= i < |events| && events[i].kind == AssistantMessage && !events[i].byRuntime
  }

  predicate CoverageFirst(events: seq<Event>) {
    exists i, j :: 0 <= i < j < |events| && Says(events[i], Coverage) && Says(events[j], Primary)
  }

  // ---------------------------------------------------------------- failures

  datatype Failure =
    | NotLists
    | PrimaryRuns
    | PrimaryPrompt
    | CoverageRanTwice
    | CoverageCount
    | OtherRuntime
    | OtherThread
    | OtherPrompt
    | OtherContext
    | HostContent
    | NoPrimaryOutput
    | CoverageBeforePrimary
    | IdleCount
    | IdleNotLast
    | NoSupplement
    | UnexpectedText
    | NoFailureObserved
    | NoUnavailableObserved
    | MissingText(needle: string)
    | RepeatedText(needle: string)
    | PrimaryChanged

  /** When the evaluator reports a failure. */
  ghost predicate Violates(c: Case, f: Failure) {
    var events := Events(c);
    var primary, coverage := Runs(Invocations(c), Primary), Runs(Invocations(c), Coverage);
    var both := primary != [] && coverage != [];
    var outcome := c.expected.outcome;
    match f
    case NotLists => !Listed(c)
    case PrimaryRuns => |primary| != 1
    case PrimaryPrompt => |primary| == 1 && primary[0].prompt != c.request
    case CoverageRanTwice => |coverage| > 1
    case CoverageCount => |coverage| != if ShouldRun(outcome) then 1 else 0
    case OtherRuntime => both && coverage[0].runtime != primary[0].runtime
    case OtherThread => both && coverage[0].thread != primary[0].thread
    case OtherPrompt => both && !coverage[0].genericReview
    case OtherContext => both && !coverage[0].sameContext
    case HostContent => Hosted(events)
    case NoPrimaryOutput => Texts(events, Primary) == []
    case CoverageBeforePrimary => CoverageFirst(events)
    case IdleCount => |OfKinds(events, {SessionIdle})| != 1
    case IdleNotLast => events != [] && events[|events| - 1].kind != SessionIdle
    case NoSupplement => outcome.Supplemented? && Blank(CoverageText(c))
    case UnexpectedText => Silent(outcome) && !Blank(CoverageText(c))
    case NoFailureObserved => outcome.Failed? && !Has(events, CoverageFailed)
    case NoUnavailableObserved => outcome.Unsupported? && !Has(events, CoverageUnavailable)
    case MissingText(needle) => needle in c.expected.mustInclude && !Contains(CoverageText(c), needle)
    case RepeatedText(needle) => needle in c.expected.mustNotRepeat && Contains(CoverageText(c), needle)
    case PrimaryChanged => c.expected.primary.Some? && Texts(events, Primary) != c.expected.primary.value
  }

  /** The place of a check in the evaluator. */
  function Place(f: Failure): nat {
    match f
    case NotLists => 0
    case PrimaryRuns => 1
    case PrimaryPrompt => 2
    case CoverageRanTwice => 3
    case CoverageCount => 4
    case OtherRuntime => 5
    case OtherThread => 6
    case OtherPrompt => 7
    case OtherContext => 8
    case HostContent => 9
    case NoPrimaryOutput => 10
    case CoverageBeforePrimary => 11
    case IdleCount => 12
    case IdleNotLast => 13
    case NoSupplement => 14
    case UnexpectedText => 15
    case NoFailureObserved => 16
    case NoUnavailableObserved => 17
    case MissingText(_) => 18
    case RepeatedText(_) => 19
    case PrimaryChanged => 20
  }

  /** `failures` holds what the checks before place `n` report. */
  ghost predicate Reported(c: Case, n: nat, failures: seq<Failure>) {
    forall f :: f in failures <==> Place(f) < n && Violates(c, f)
  }

  method Report(ghost c: Case, n: nat, failures: seq<Failure>, condition: bool, f: Failure) returns (more: seq<Failure>)
    requires Reported(c, n, failures) && Place(f) == n && !f.MissingText? && !f.RepeatedText?
    requires condition <==> Violates(c, f)
    ensures Reported(c, n + 1, more)
    ensures |more| == |failures| + if condition then 1 else 0
  {
    hide Violates;
    more := if condition then failures + [f] else failures;
  }

  /** The last primary position against the first coverage position. */
  method IsCoverageFirst(events: seq<Event>) returns (r: bool)
    ensures r <==> CoverageFirst(events)
  {
    var primary, coverage := Positions(events, Primary), Positions(events, Coverage);
    r := primary != [] && coverage != [] && primary[|primary| - 1] > coverage[0];
    assert primary != [] ==> primary[|primary| - 1] in primary;
    assert coverage != [] ==> coverage[0] in coverage;
    forall i, j | 0 <= i < j < |events| && Says(events[i], Coverage) && Says(events[j], Primary) ensures r {
      assert i in coverage && j in primary;
    }
  }

  /** The evaluator: exactly the failures of the trace. */
  method EvaluateCase(c: Case) returns (failures: seq<Failure>)
    ensures forall f :: f in failures <==> Violates(c, f)
  {
    hide Violates, Place;
    failures := EvaluateRuns(c);
    failures := EvaluateOrder(c, failures);
    failures := EvaluateOutcome(c, failures);
    failures := EvaluateTexts(c, failures);
    forall f ensures Place(f) < 21 { Places(f); }
  }

  lemma Places(f: Failure)
    ensures Place(f) < 21
  {
  }

  method EvaluateRuns(c: Case) returns (failures: seq<Failure>)
    ensures Reported(c, 9, failures)
  {
    hide Runs, Reported;
    var primary, coverage := Runs(Invocations(c), Primary), Runs(Invocations(c), Coverage);
    NothingReported(c);
    failures := Report(c, 0, [], !Listed(c), NotLists);
    failures := Report(c, 1, failures, |primary| != 1, PrimaryRuns);
    failures := Report(c, 2, failures, |primary| == 1 && primary[0].prompt != c.request, PrimaryPrompt);
    failures := Report(c, 3, failures, |coverage| > 1, CoverageRanTwice);
    failures := Report(c, 4, failures, |coverage| != if ShouldRun(c.expected.outcome) then 1 else 0, CoverageCount);
    failures := EvaluateContinuity(c, failures);
  }

  method EvaluateContinuity(c: Case, before: seq<Failure>) returns (failures: seq<Failure>)
    requires Reported(c, 5, before)
    ensures Reported(c, 9, failures)
  {
    hide Runs, Reported;
    var primary, coverage := Runs(Invocations(c), Primary), Runs(Invocations(c), Coverage);
    var both := coverage != [] && primary != [];
    failures := Report(c, 5, before, both && coverage[0].runtime != primary[0].runtime, OtherRuntime);
    failures := Report(c, 6, failures, both && coverage[0].thread != primary[0].thread, OtherThread);
    failures := Report(c, 7, failures, both && !coverage[0].genericReview, OtherPrompt);
    failures := Report(c, 8, failures, both && !coverage[0].sameContext, OtherContext);
  }

  /** The whole verdict: a trace or an expectation that is not an object fails at once. */
  method Passed(request: string, trace: Option<Trace>, expected: Option<Expected>) returns (passed: bool)
    ensures passed <==> trace.Some? && expected.Some? && Protocol(Case(request, trace.value, expected.value))
  {
    hide Violates, Protocol;
    if trace.None? || expected.None? { return false; }
    var c := Case(request, trace.value, expected.value);
    var failures := EvaluateCase(c);
    PassesIffProtocol(c);
    assert failures == [] <==> forall f :: f !in failures by {
      if failures != [] { assert failures[0] in failures; }
    }
    return failures == [];
  }

  lemma NothingReported(c: Case)
    ensures Reported(c, 0, [])
  {
  }

  method EvaluateOrder(c: Case, before: seq<Failure>) returns (failures: seq<Failure>)
    requires Reported(c, 9, before)
    ensures Reported(c, 14, failures)
  {
    hide Runs, Reported, Texts, OfKinds, CoverageFirst, Hosted;
    var events := Events(c);
    failures := Report(c, 9, before, Hosted(events), HostContent);
    failures := Report(c, 10, failures, Texts(events, Primary) == [], NoPrimaryOutput);
    var early := IsCoverageFirst(events);
    failures := Report(c, 11, failures, early, CoverageBeforePrimary);
    failures := Report(c, 12, failures, |OfKinds(events, {SessionIdle})| != 1, IdleCount);
    failures := Report(c, 13, failures, events != [] && events[|events| - 1].kind != SessionIdle, IdleNotLast);
  }

  method EvaluateOutcome(c: Case, before: seq<Failure>) returns (failures: seq<Failure>)
    requires Reported(c, 14, before)
    ensures Reported(c, 18, failures)
  {
    hide Runs, Reported, Texts, CoverageText, Blank, Contains, Has;
    var events, outcome, text := Events(c), c.expected.outcome, CoverageText(c);
    failures := Report(c, 14, before, outcome.Supplemented? && Blank(text), NoSupplement);
    failures := Report(c, 15, failures, Silent(outcome) && !Blank(text), UnexpectedText);
    failures := Report(c, 16, failures, outcome.Failed? && !Has(events, CoverageFailed), NoFailureObserved);
    failures := Report(c, 17, failures,
        outcome.Unsupported? && !Has(events, CoverageUnavailable), NoUnavailableObserved);
  }

  method EvaluateTexts(c: Case, before: seq<Failure>) returns (failures: seq<Failure>)
    requires Reported(c, 18, before)
    ensures Reported(c, 21, failures)
  {
    hide Runs, Reported, Texts, CoverageText, Contains;
    var events := Events(c);
    failures := EvaluateNeedles(c, before);
    failures := Report(c, 20, failures,
        c.expected.primary.Some? && Texts(events, Primary) != c.expected.primary.value, PrimaryChanged);
  }

  method EvaluateNeedles(c: Case, before: seq<Failure>) returns (failures: seq<Failure>)
    requires Reported(c, 18, before)
    ensures Reported(c, 20, failures)
  {
    hide Contains, CoverageText;
    var text, missing, repeated := CoverageText(c), c.expected.mustInclude, c.expected.mustNotRepeat;
    failures := before;
    for i := 0 to |missing|
      invariant forall f :: f in failures
                  <==> f in before || (f.MissingText? && f.needle in missing[..i] && !Contains(text, f.needle))
    {
      assert missing[..i + 1] == missing[..i] + [missing[i]];
      if !Contains(text, missing[i]) { failures := failures + [MissingText(missing[i])]; }
    }
    assert missing[..|missing|] == missing;
    ghost var half := failures;
    for i := 0 to |repeated|
      invariant forall f :: f in failures
                  <==> f in half || (f.RepeatedText? && f.needle in repeated[..i] && Contains(text, f.needle))
    {
      assert repeated[..i + 1] == repeated[..i] + [repeated[i]];
      if Contains(text, repeated[i]) { failures := failures + [RepeatedText(repeated[i])]; }
    }
    assert repeated[..|repeated|] == repeated;
  }

  // ---------------------------------------------------------------- the protocol

  /** A passing trace, stated without the evaluator's filters. */
  ghost predicate Protocol(c: Case) {
    && Listed(c)
    && OneTurn(Invocations(c), c.request, c.expected.outcome in {Supplemented, NoOp, Failed})
    && Ordered(Events(c))
    && Outcomes(c)
  }

  /** One primary run on the request, and one coverage run in the same place when there should
      be one, none otherwise. */
  ghost predicate OneTurn(rows: seq<Invocation>, request: string, covered: bool) {
    exists p :: 0 <= p < |rows| && IsOnly(rows, p, Primary) && rows[p].prompt == request
      && if covered then exists q :: 0 <= q < |rows| && IsOnly(rows, q, Coverage) && Continues(rows[p], rows[q])
         else forall q :: 0 <= q < |rows| ==> rows[q].phase != Coverage
  }

  ghost predicate IsOnly(rows: seq<Invocation>, p: int, phase: Phase) {
    0 <= p < |rows| && forall i :: 0 <= i < |rows| ==> (rows[i].phase == phase <==> i == p)
  }

  predicate Continues(p: Invocation, q: Invocation) {
    q.runtime == p.runtime && q.thread == p.thread && q.genericReview && q.sameContext
  }

  /** Assistant messages come from the runtime, there is a primary one, every primary one is
      before every coverage one, and the one idle event is the last event. */
  ghost predicate Ordered(events: seq<Event>) {
    && events != []
    && (forall i :: 0 <= i < |events| ==> (events[i].kind == SessionIdle <==> i == |events| - 1))
    && (forall i :: 0 <= i < |events| && events[i].kind == AssistantMessage ==> events[i].byRuntime)
    && (exists i :: 0 <= i < |events| && Says(events[i], Primary))
    && (forall i, j :: 0 <= i < |events| && 0 <= j < |events| && Says(events[i], Primary) && Says(events[j], Coverage)
          ==> i < j)
  }

  ghost predicate Outcomes(c: Case) {
    var events, text := Events(c), CoverageText(c);
    && (match c.expected.outcome
        case Supplemented => !Blank(text)
        case NoOp => Blank(text)
        case Failed => Blank(text) && Has(events, CoverageFailed)
        case Unsupported => Blank(text) && Has(events, CoverageUnavailable)
        case PrimaryError => Blank(text)
        case OtherOutcome(_) => true)
    && (forall n :: n in c.expected.mustInclude ==> Contains(text, n))
    && (forall n :: n in c.expected.mustNotRepeat ==> !Contains(text, n))
    && (c.expected.primary.Some? ==> Texts(events, Primary) == c.expected.primary.value)
  }

  ghost predicate Passes(c: Case) {
    forall f :: !Violates(c, f)
  }

  lemma {:induction false} NoRun(rows: seq<Invocation>, phase: Phase)
    ensures Runs(rows, phase) == [] <==> forall i :: 0 <= i < |rows| ==> rows[i].phase != phase
  {
    if rows != [] {
      var front := rows[..|rows| - 1];
      NoRun(front, phase);
      assert forall i :: 0 <= i < |front| ==> front[i] == rows[i];
    }
  }

  lemma {:induction false} OnlyRun(rows: seq<Invocation>, phase: Phase, p: int)
    requires IsOnly(rows, p, phase)
    ensures Runs(rows, phase) == [rows[p]]
  {
    var front := rows[..|rows| - 1];
    assert forall i :: 0 <= i < |front| ==> front[i] == rows[i];
    if p == |rows| - 1 { NoRun(front, phase); } else { OnlyRun(front, phase, p); }
  }

  lemma {:induction false} TheRun(rows: seq<Invocation>, phase: Phase) returns (p: int)
    requires |Runs(rows, phase)| == 1
    ensures IsOnly(rows, p, phase)
  {
    var n := |rows| - 1;
    var front := rows[..n];
    assert forall i :: 0 <= i < |front| ==> front[i] == rows[i];
    if rows[n].phase == phase {
      NoRun(front, phase);
      p := n;
    } else {
      p := TheRun(front, phase);
      assert rows[n].phase != phase;
    }
  }

  lemma {:induction false} OneIdle(events: seq<Event>)
    ensures OfKinds(events, {SessionIdle}) == [] <==> forall i :: 0 <= i < |events| ==> events[i].kind != SessionIdle
    ensures events != [] && events[|events| - 1].kind == SessionIdle ==>
      (|OfKinds(events, {SessionIdle})| == 1
       <==> forall i :: 0 <= i < |events| ==> (events[i].kind == SessionIdle <==> i == |events| - 1))
  {
    if events != [] {
      var front := events[..|events| - 1];
      OneIdle(front);
      assert forall i :: 0 <= i < |front| ==> front[i] == events[i];
    }
  }

  lemma {:induction false} SomeText(events: seq<Event>, phase: Phase)
    ensures Texts(events, phase) != [] <==> exists i :: 0 <= i < |events| && Says(events[i], phase)
  {
    if events != [] {
      var front := events[..|events| - 1];
      SomeText(front, phase);
      assert forall i :: 0 <= i < |front| ==> front[i] == events[i];
    }
  }

  /** The verdict is the protocol. */
  lemma PassesIffProtocol(c: Case)
    ensures Passes(c) <==> Protocol(c)
  {
    hide OneTurn, Ordered, Outcomes;
    RunsPass(c);
    OrderPasses(c);
    OutcomePasses(c);
    forall f ensures Place(f) < 21 { Places(f); }
    assert Passes(c) <==> PassesBetween(c, 0, 9) && PassesBetween(c, 9, 14) && PassesBetween(c, 14, 21) by {
      hide Violates, Place;
    }
  }

  ghost predicate PassesBetween(c: Case, from: nat, to: nat) {
    forall f :: from <= Place(f) < to ==> !Violates(c, f)
  }

  lemma RunsPass(c: Case)
    ensures PassesBetween(c, 0, 9) <==> Listed(c) && OneTurn(Invocations(c), c.request, ShouldRun(c.expected.outcome))
  {
    assert Place(NotLists) == 0 && Place(PrimaryRuns) == 1 && Place(PrimaryPrompt) == 2 && Place(CoverageRanTwice) == 3
      && Place(CoverageCount) == 4;
    assert Place(OtherRuntime) == 5 && Place(OtherThread) == 6 && Place(OtherPrompt) == 7 && Place(OtherContext) == 8;
    hide Runs, IsOnly, OneTurn;
    var rows := Invocations(c);
    RunsMakeTurn(rows, c.request, ShouldRun(c.expected.outcome));
  }

  predicate TurnRuns(primary: seq<Invocation>, coverage: seq<Invocation>, request: string, covered: bool) {
    && |primary| == 1 && primary[0].prompt == request
    && |coverage| == (if covered then 1 else 0)
    && (covered ==> Continues(primary[0], coverage[0]))
  }

  lemma RunsMakeTurn(rows: seq<Invocation>, request: string, covered: bool)
    ensures TurnRuns(Runs(rows, Primary), Runs(rows, Coverage), request, covered) <==> OneTurn(rows, request, covered)
  {
    hide Runs, IsOnly;
    NoRun(rows, Coverage);
    forall p, phase | 0 <= p < |rows| && IsOnly(rows, p, phase) ensures Runs(rows, phase) == [rows[p]] {
      OnlyRun(rows, phase, p);
    }
    if TurnRuns(Runs(rows, Primary), Runs(rows, Coverage), request, covered) {
      var p := TheRun(rows, Primary);
      if covered { var q := TheRun(rows, Coverage); }
    }
  }

  lemma OrderPasses(c: Case)
    ensures PassesBetween(c, 9, 14) <==> Ordered(Events(c))
  {
    assert Place(HostContent) == 9 && Place(NoPrimaryOutput) == 10 && Place(CoverageBeforePrimary) == 11
      && Place(IdleCount) == 12 && Place(IdleNotLast) == 13;
    hide OfKinds, Texts;
    OneIdle(Events(c));
    SomeText(Events(c), Primary);
  }

  lemma OutcomePasses(c: Case)
    ensures PassesBetween(c, 14, 21) <==> Outcomes(c)
  {
    assert Place(NoSupplement) == 14 && Place(UnexpectedText) == 15 && Place(NoFailureObserved) == 16
      && Place(NoUnavailableObserved) == 17 && Place(PrimaryChanged) == 20;
    hide CoverageText, Texts, Blank, Contains, Has;
    if PassesBetween(c, 14, 21) {
      forall n | n in c.expected.mustInclude ensures Contains(CoverageText(c), n) {
        assert Place(MissingText(n)) == 18;
      }
      forall n | n in c.expected.mustNotRepeat ensures !Contains(CoverageText(c), n) {
        assert Place(RepeatedText(n)) == 19;
      }
    }
  }

  // ---------------------------------------------------------------- quiet events

  function WithEvents(c: Case, events: seq<Event>): Case
    requires Listed(c)
  {
    c.(trace := c.trace.(events := Some(events)))
  }

  /** The kinds that no observation and no text depends on, and that end no turn. */
  predicate Quiet(e: Event) {
    !e.kind.AssistantMessage? && !e.kind.SessionIdle?
  }

  const SEEN: set<Kind> := {AssistantMessage, SessionIdle, CoverageFailed, CoverageUnavailable}

  function Inserted(events: seq<Event>, at: nat, quiet: seq<Event>): seq<Event>
    requires at <= |events|
  {
    events[..at] + quiet + events[at..]
  }

  lemma {:induction false} PartsAddUp(a: seq<Event>, b: seq<Event>, kinds: set<Kind>, phase: Phase)
    ensures OfKinds(a + b, kinds) == OfKinds(a, kinds) + OfKinds(b, kinds)
    ensures Texts(a + b, phase) == Texts(a, phase) + Texts(b, phase)
  {
    if b == [] {
      assert a + b == a;
    } else {
      assert (a + b)[..|a + b| - 1] == a + b[..|b| - 1];
      PartsAddUp(a, b[..|b| - 1], kinds, phase);
    }
  }

  lemma {:induction false} QuietHasNone(quiet: seq<Event>, phase: Phase)
    requires forall i :: 0 <= i < |quiet| ==> Quiet(quiet[i])
    ensures OfKinds(quiet, {SessionIdle}) == [] && Texts(quiet, phase) == []
  {
    if quiet != [] { QuietHasNone(quiet[..|quiet| - 1], phase); }
  }

  lemma InsertionKeepsParts(events: seq<Event>, at: nat, quiet: seq<Event>, phase: Phase)
    requires at <= |events| && forall i :: 0 <= i < |quiet| ==> Quiet(quiet[i])
    ensures OfKinds(Inserted(events, at, quiet), {SessionIdle}) == OfKinds(events, {SessionIdle})
    ensures Texts(Inserted(events, at, quiet), phase) == Texts(events, phase)
  {
    hide OfKinds, Texts, Quiet;
    var a, b := events[..at], events[at..];
    QuietHasNone(quiet, phase);
    PartsAddUp(a + quiet, b, {SessionIdle}, phase);
    PartsAddUp(a, quiet, {SessionIdle}, phase);
    PartsAddUp(a, b, {SessionIdle}, phase);
    assert a + b == events;
  }

  /** Where an event stands after the insertion. */
  function Moved(i: nat, at: nat, n: nat): nat {
    if i < at then i else i + n
  }

  lemma InsertedAt(events: seq<Event>, at: nat, quiet: seq<Event>)
    requires at <= |events|
    ensures var other := Inserted(events, at, quiet);
            && |other| == |events| + |quiet|
            && (forall i :: 0 <= i < |events| ==> other[Moved(i, at, |quiet|)] == events[i])
            && (forall k :: 0 <= k < |other|
                  ==> other[k] in quiet || exists i :: 0 <= i < |events| && Moved(i, at, |quiet|) == k)
  {
    var other := Inserted(events, at, quiet);
    forall k | 0 <= k < |other|
      ensures other[k] in quiet || exists i :: 0 <= i < |events| && Moved(i, at, |quiet|) == k {
      if k < at {
        assert Moved(k, at, |quiet|) == k;
      } else if k >= at + |quiet| {
        assert Moved(k - |quiet|, at, |quiet|) == k;
      } else {
        assert other[k] == quiet[k - at];
      }
    }
  }

  /** Assistant messages only move. */
  lemma SpeechMoves(events: seq<Event>, at: nat, quiet: seq<Event>, k: nat) returns (i: nat)
    requires at <= |events| && forall e :: e in quiet ==> Quiet(e)
    requires k < |Inserted(events, at, quiet)| && Inserted(events, at, quiet)[k].kind == AssistantMessage
    ensures i < |events| && Moved(i, at, |quiet|) == k && events[i] == Inserted(events, at, quiet)[k]
  {
    hide Inserted, Moved;
    InsertedAt(events, at, quiet);
    i :| 0 <= i < |events| && Moved(i, at, |quiet|) == k;
  }

  lemma InsertionKeepsOrder(events: seq<Event>, at: nat, quiet: seq<Event>)
    requires at <= |events| && forall e :: e in quiet ==> Quiet(e)
    ensures CoverageFirst(Inserted(events, at, quiet)) <==> CoverageFirst(events)
  {
    hide Inserted, Quiet;
    var other, n := Inserted(events, at, quiet), |quiet|;
    if CoverageFirst(events) {
      InsertedAt(events, at, quiet);
      var i, j :| 0 <= i < j < |events| && Says(events[i], Coverage) && Says(events[j], Primary);
      assert other[Moved(i, at, n)] == events[i] && other[Moved(j, at, n)] == events[j];
    }
    if CoverageFirst(other) {
      var k, l :| 0 <= k < l < |other| && Says(other[k], Coverage) && Says(other[l], Primary);
      var i := SpeechMoves(events, at, quiet, k);
      var j := SpeechMoves(events, at, quiet, l);
      assert i < j;
    }
  }

  lemma InsertionKeepsHosts(events: seq<Event>, at: nat, quiet: seq<Event>)
    requires at <= |events| && forall e :: e in quiet ==> Quiet(e)
    ensures Hosted(Inserted(events, at, quiet)) <==> Hosted(events)
  {
    hide Inserted, Quiet;
    var other := Inserted(events, at, quiet);
    if Hosted(events) {
      InsertedAt(events, at, quiet);
      var i :| 0 <= i < |events| && events[i].kind == AssistantMessage && !events[i].byRuntime;
      assert other[Moved(i, at, |quiet|)] == events[i];
    }
    if Hosted(other) {
      var k :| 0 <= k < |other| && other[k].kind == AssistantMessage && !other[k].byRuntime;
      var i := SpeechMoves(events, at, quiet, k);
    }
  }

  lemma InsertionKeepsObservation(events: seq<Event>, at: nat, quiet: seq<Event>, kind: Kind)
    requires at <= |events|
    ensures Has(events, kind) ==> Has(Inserted(events, at, quiet), kind)
    ensures (forall e :: e in quiet ==> e.kind != kind) && Has(Inserted(events, at, quiet), kind) ==> Has(events, kind)
  {
    InsertedAt(events, at, quiet);
    hide Inserted;
    var other := Inserted(events, at, quiet);
    if Has(events, kind) {
      var i :| 0 <= i < |events| && events[i].kind == kind;
      assert other[Moved(i, at, |quiet|)].kind == kind;
    }
  }

  lemma WithEventsHas(c: Case, other: seq<Event>)
    requires Listed(c) && Texts(Events(c), Coverage) == Texts(other, Coverage)
    ensures var d := WithEvents(c, other);
            && Listed(d) && Events(d) == other && Invocations(d) == Invocations(c) && CoverageText(d) == CoverageText(c)
            && d.request == c.request && d.expected == c.expected
  {
    hide Texts, Joined;
  }

  /** The evaluator reads nothing else of the events. */
  lemma VerdictReads(c: Case, other: seq<Event>, f: Failure)
    requires Listed(c) && !f.NoFailureObserved? && !f.NoUnavailableObserved?
    requires Texts(Events(c), Primary) == Texts(other, Primary) && Texts(Events(c), Coverage) == Texts(other, Coverage)
    requires OfKinds(Events(c), {SessionIdle}) == OfKinds(other, {SessionIdle})
    requires CoverageFirst(Events(c)) == CoverageFirst(other) && Hosted(Events(c)) == Hosted(other)
    requires Events(c) != [] && other != [] && Events(c)[|Events(c)| - 1] == other[|other| - 1]
    ensures Violates(c, f) <==> Violates(WithEvents(c, other), f)
  {
    hide Texts, OfKinds, Blank, Contains, CoverageFirst, Hosted, Runs, CoverageText, WithEvents, Events, Invocations,
         Has, Listed;
    WithEventsHas(c, other);
  }

  lemma InsertionReads(c: Case, at: nat, quiet: seq<Event>, f: Failure)
    requires Listed(c) && at < |Events(c)| && !f.NoFailureObserved? && !f.NoUnavailableObserved?
    requires forall e :: e in quiet ==> Quiet(e)
    ensures Violates(c, f) <==> Violates(WithEvents(c, Inserted(Events(c), at, quiet)), f)
  {
    hide Violates, Texts, OfKinds, CoverageFirst, Hosted, Quiet;
    var events := Events(c);
    var other := Inserted(events, at, quiet);
    InsertionKeepsParts(events, at, quiet, Primary);
    InsertionKeepsParts(events, at, quiet, Coverage);
    InsertionKeepsOrder(events, at, quiet);
    InsertionKeepsHosts(events, at, quiet);
    VerdictReads(c, other, f);
  }

  lemma Observations(c: Case)
    ensures Violates(c, NoFailureObserved) <==> c.expected.outcome.Failed? && !Has(Events(c), CoverageFailed)
    ensures Violates(c, NoUnavailableObserved)
       <==> c.expected.outcome.Unsupported? && !Has(Events(c), CoverageUnavailable)
  {
  }

  /** Quiet events before the last one never turn a pass into a failure. */
  lemma QuietEventsKeepPass(c: Case, at: nat, quiet: seq<Event>)
    requires Passes(c) && at < |Events(c)|
    requires forall e :: e in quiet ==> Quiet(e)
    ensures Passes(WithEvents(c, Inserted(Events(c), at, quiet)))
  {
    assert !Violates(c, NotLists);
    hide Violates, Quiet, Inserted, Has;
    var d := WithEvents(c, Inserted(Events(c), at, quiet));
    Observations(c);
    Observations(d);
    InsertionKeepsObservation(Events(c), at, quiet, CoverageFailed);
    InsertionKeepsObservation(Events(c), at, quiet, CoverageUnavailable);
    forall f ensures !Violates(d, f) {
      if !f.NoFailureObserved? && !f.NoUnavailableObserved? { InsertionReads(c, at, quiet, f); }
    }
  }

  /** Events of kinds that nothing looks for change no failure at all. */
  lemma UnseenEventsChangeNothing(c: Case, at: nat, quiet: seq<Event>, f: Failure)
    requires Listed(c) && at < |Events(c)|
    requires forall e :: e in quiet ==> e.kind !in SEEN
    ensures Violates(WithEvents(c, Inserted(Events(c), at, quiet)), f) <==> Violates(c, f)
  {
    forall e | e in quiet ensures Quiet(e) && e.kind != CoverageFailed && e.kind != CoverageUnavailable {
      assert e.kind !in SEEN;
    }
    hide Violates, Quiet, Inserted, Has;
    Observations(c);
    Observations(WithEvents(c, Inserted(Events(c), at, quiet)));
    InsertionKeepsObservation(Events(c), at, quiet, CoverageFailed);
    InsertionKeepsObservation(Events(c), at, quiet, CoverageUnavailable);
    if !f.NoFailureObserved? && !f.NoUnavailableObserved? { InsertionReads(c, at, quiet, f); }
  }
}
