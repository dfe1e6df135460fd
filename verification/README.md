# Verified models of the event streams, kernel routing, prompt sections and evaluators

This project models, in Dafny 4.11, the parts of the backend whose correctness is hardest to see
from one function body, and proves what their design promises. `dafny verify dfyconfig.toml` checks
all of it.

**Two-store event merge** (`DurableLog`, `SeenUids`, `EventMerge`, `StreamSafety`, `StreamRepeats`,
`StreamEmissions`, `StreamProgress`, `StreamRounds`, `StreamClients`, `StreamEchoes`,
`StreamIndependence`, `EventStream`, `EventSession`, `LiveTap`). A durable log with its own sequence
numbers and a lossy live tap with another sequence are merged into one stream per session and one
control stream per owner. `EventMerge` is a step machine over both planes: append, delivered row,
idle tick, backfill, live frame, UI push, cut and reconnect. `EventStream.Stream` is the generators'
state as an object; each of its methods equals a piece of the machine, and `EventSession.Session`
strings them together as one run, cut and reconnected at any yield. Proved for every run: no loss,
resumability, bounded exactly-once with a bound that is met, that live sequence numbers influence
nothing, and for every step exactly which frame it sends: a live event, a history row, a push or a
heartbeat, and no other step sends any. The control stream catches up within the exact number of
backfills. For the session stream the code falls short of what "covers persisted events" suggests: a
full page of 200 rows without a legacy counterpart stalls the cursor for good, and the project
proves exactly when, that the stall is permanent, and gives a log that stalls. A client may come
back with any durable seq a history frame or a heartbeat told it. The control-plane client instead
comes back, at every cut, with the greatest seq of any frame, live frames included; over any number
of cuts the project proves exactly when it loses nothing.

**Per-turn kernel routing** (`KernelRouting`, `KernelTurns`, `KernelFacade`, `EndpointKey`,
`ScopeCache`, `RemoteTurn`). Turns of any number of tasks, nested turns included, interleave with an
allocator that points a scope elsewhere at any moment. Control writes of a turn's hook for the
turn's session land on the kernel that then runs it, no other write is diverted, the pin is restored
on every exit, and a turn reported as not started was never received. Where each write and each turn
goes is stated in terms of the run's steps: the last word of the allocator on a scope, the lease of
a turn. `KernelFacade.Facade.RunTurn` is the imperative code, proved equal to a run of that machine.
Beside it: the endpoint key as a faithful encoding, the bounded scope cache as a transparent one,
and the remote turn's correlated completion.

**Machine-managed prompt sections** (`TaggedText`, `PromptBlocks`, `PromptDocument`, `PromptBytes`,
`PromptIdempotence`, `PromptCitations`). The three regular expressions with their blank-line
substitution and `strip` are modelled on strings. For user text without the opening markers every
sequence of the five operations is, byte for byte, an operation on "trimmed user text plus an
ordered list of distinct blocks". For arbitrary text the documented idempotence of the three
installing operations is false, and the exact condition under which it holds is proved for each.

**Layered policy evaluators** (`PolicyMerge`, `PolicyLayers`, `PolicyCoverage`, `PolicyReferences`,
`PolicyTallies`, `CaseGenerators`, `CoverageReport`, `ResolverMetrics`, `TaskCoverage`,
`TaskFailures`). The recursive JSON merge and its laws, with associativity characterised exactly;
what a composition of layers holds at each key; the case generators against the independently
enumerated references, with how many cases of each group there are; what the coverage report lists;
ranking metrics with sharp bounds; the frozen-trace verdict against a protocol stated on its own.

**Companions** (`HistoryCopy`, `LocaleCatalog`, `LocaleRuntime`). The insert-only history copy under
crashes at any write, and the soundness of the locale key checker for the runtime resolver.

Where code and documentation disagree the code is followed:

- The docstrings of the installing operations promise idempotence; `EnsurePtcTwice`,
  `EnsureCitationTwice` and `EnsureOffNoticeTwice` say for which texts they keep it.
- The backfill reports a session with fewer events than locally and equates that with a partial copy;
  `HistoryCopy.ReportIsExactIff` says for which sessions the two are the same: those with events, or
  without messages.
- A coverage report without failures suggests complete coverage; it means that exactly when no item
  without a case of its own, and not named by hand, shares its reference with one that has a case
  (`CoverageReport.NoFailureMeansCompleteIff`). Names without dots never share one.
- The control plane's cursor is documented as durable only, while its client also advances from
  live frames; `StreamEchoes.ControlClientLosesNothingIff` says when that is safe.

## Model

| member | source | states |
|---|---|---|
| DurableLog.ListEventsAfter | backend/valuz_agent/adapters/event_sse_adapter.py:766-792 | However the log grows between the reads of the paging loop, the result is the first min(limit, n) outstanding rows, in order; only rows whose type has no translation are dropped afterwards; one read suffices up to the page cap |
| DurableLog.TypesTranslate | backend/valuz_agent/adapters/event_sse_adapter.py:1123-1151 | The session plane translates every type but those without a counterpart, the control plane the four lifecycle types |
| Seen.SeenUids.Add | backend/valuz_agent/adapters/event_sse_adapter.py:86-113 | Set and deque hold the same distinct uids, at most the maximum, the oldest leave first; the answer says whether the uid was new |
| Seen.AcceptKeepsWindow | backend/valuz_agent/adapters/event_sse_adapter.py:106-113 | The deque is the tail of everything accepted, and equal acceptances stay more than the maximum apart |
| Seen.AcceptancesFarApart | backend/valuz_agent/adapters/event_sse_adapter.py:86-113 | Between two acceptances of one uid at least the maximum number of distinct other uids were accepted |
| Seen.ForgottenAfterMax | backend/valuz_agent/adapters/event_sse_adapter.py:106-113 | The bound is tight: a remembered uid is new again after the maximum number of others that were new when they came |
| StreamSafety.RunKeepsInv | backend/valuz_agent/adapters/event_sse_adapter.py:881-1052 | Every run of appends, deliveries, ticks, live frames and reconnects keeps: nothing up to the cursor is missing, the undelivered rows have no gap, every remembered uid was shown or cannot be, cursors are durable |
| StreamSafety.NoLoss | backend/valuz_agent/adapters/event_sse_adapter.py:917-1044 | Each durable row between the first `after_seq` and the cursor whose type translates was sent, as history or as a live frame with its uid, whatever was dropped and over any number of reconnects |
| StreamSafety.CursorsAreDurable | backend/valuz_agent/adapters/event_sse_adapter.py:897-1005 | Cursor and resume point are durable seqs or the initial one, and resuming never skips past what was read |
| StreamSafety.CursorMonotone | backend/valuz_agent/adapters/event_sse_adapter.py:982-1000 | Within a connection neither moves back |
| StreamSafety.ExactlyOnceUpToBound | backend/valuz_agent/adapters/event_sse_adapter.py:992-1043 | Two notes of one uid on a connection are separated by at least 4096 distinct other uids |
| StreamRepeats.SentAgainAfterMax | backend/valuz_agent/adapters/event_sse_adapter.py:1022-1044 | On either plane a run that sends one uid twice with exactly 4096 distinct others in between |
| StreamSafety.HistoryInOrder | backend/valuz_agent/adapters/event_sse_adapter.py:920-1000 | History frames of a connection come in strictly increasing durable order |
| StreamEmissions.StepsEmit | backend/valuz_agent/adapters/event_sse_adapter.py:914-1044 | In every run each step adds exactly its emission, told by the phase, the head of the undelivered rows, the last 4096 acceptances and the times the steps give: a new row its frame, a new translatable live event its frame, a push its frame, an idle time a heartbeat |
| StreamEmissions.LiveEventsAreSent | backend/valuz_agent/adapters/event_sse_adapter.py:1022-1044 | A live event is sent exactly when the connection idles in its loop, the type translates, and it has no uid or one not among the last 4096 accepted; then its frame is all that is added |
| StreamEmissions.LiveFramesHaveEvents | backend/valuz_agent/adapters/event_sse_adapter.py:1022-1044 | Every live frame ever sent comes from such an event of the run |
| StreamEmissions.NotesHaveSteps | backend/valuz_agent/adapters/event_sse_adapter.py:914-1044 | Every note of every connection is the emission of one step of the run |
| StreamEmissions.IdleBeatsIff | backend/valuz_agent/adapters/event_sse_adapter.py:972-987 | An idling connection starts a backfill exactly when one is due, and otherwise beats with its durable cursor exactly when nothing was sent for the idle time |
| StreamEmissions.ReplayLeaves | backend/valuz_agent/adapters/event_sse_adapter.py:914-925 | The first replay, fully delivered, leaves what a backfill from the same seq would leave |
| StreamEmissions.ReconnectLeaves | backend/valuz_agent/adapters/event_sse_adapter.py:914-925 | So does the replay of a later connection |
| StreamIndependence.LocalSeqsDoNotInterfere | backend/valuz_agent/adapters/event_sse_adapter.py:903-912 | Two runs that differ only in live seqs read the same pages, hold the same cursors, beat the same heartbeats and send the same frames but for that field |
| StreamProgress.BackfillLeaves | backend/valuz_agent/adapters/event_sse_adapter.py:988-1000 | One delivered backfill leaves exactly the rows behind the last translatable row of its page outstanding |
| StreamRounds.RoundsLeave | backend/valuz_agent/adapters/event_sse_adapter.py:979-1006 | After k due backfills of a run without appends, exactly the k-th remainder of what was outstanding is outstanding at the cursor |
| StreamRounds.ControlCatchesUp | backend/valuz_agent/adapters/event_sse_adapter.py:1303-1324 | On the control stream nothing is outstanding after k due backfills of the run exactly when 200k is at least what was outstanding before |
| StreamRounds.CatchesUpIffNoGapAhead | backend/valuz_agent/adapters/event_sse_adapter.py:979-1006 | From an idling connection some number of due backfills leaves no translatable row outstanding exactly when no 200 consecutive untranslatable rows precede a translatable one |
| StreamRounds.GapStalls | backend/valuz_agent/adapters/event_sse_adapter.py:979-1006 | In every reachable state with such a gap ahead, due backfills lead into the stall, with a translatable row behind it |
| StreamProgress.StallIsPermanent | backend/valuz_agent/adapters/event_sse_adapter.py:979-1006 | From the stall on no append, live frame, tick or reconnect moves the cursor past it, and no later row is replayed any more |
| StreamClients.ToldSeqsAreResumable | backend/valuz_agent/adapters/event_sse_adapter.py:981-1005 | In every reachable state each seq that a history frame or a heartbeat of the connection carried is one the client may come back with |
| StreamEchoes.EchoesLoseNothingIff | frontend/packages/core/src/api/user-stream.ts:61-92 | However often a client is cut and with whatever seqs it comes back: nothing is lost, in any continuation of any prefix, exactly when each of them was safe, that is every translatable row it skips was shown already and no row still to come can have a seq it skips |
| StreamEchoes.ControlClientLosesNothingIff | frontend/packages/core/src/api/user-stream.ts:61-92 | For the client that comes back at every cut with the greatest seq of any frame so far: it loses nothing exactly when that seq is safe at each cut |
| StreamEchoes.LocalSeqAheadIsUnsafe | frontend/packages/core/src/api/user-stream.ts:90-91 | One live frame whose local seq runs ahead of the durable log makes the next cut unsafe |
| StreamEchoes.CursorIsGreatest | frontend/packages/core/src/api/user-stream.ts:86-92 | The client's cursor is the greatest of the seqs its frames carried and the one it began with, and one of them |
| StreamProgress.StallExample | backend/valuz_agent/adapters/event_sse_adapter.py:708-735 | A concrete log whose last user message is never replayed |
| EventStream.Stream.constructor | backend/valuz_agent/adapters/event_sse_adapter.py:914-919 | A new connection is the machine's opening state |
| EventStream.Stream.IsNew | backend/valuz_agent/adapters/event_sse_adapter.py:922-924 | The dedup test in front of a yield answers and remembers as the machine does |
| EventStream.Stream.DeliverOne | backend/valuz_agent/adapters/event_sse_adapter.py:992-1000 | One turn of the loop over history frames is the machine's delivery of that row |
| EventStream.Stream.DeliverFrames | backend/valuz_agent/adapters/event_sse_adapter.py:920-925 | The whole loop is its delivery of each row in turn |
| EventStream.Stream.Poll | backend/valuz_agent/adapters/event_sse_adapter.py:979-991 | A queue timeout beats or reads as the machine's idle step does |
| EventStream.Stream.OnTimeout | backend/valuz_agent/adapters/event_sse_adapter.py:972-1006 | The undisturbed timeout branch is that step followed by full delivery and a heartbeat check |
| EventStream.Stream.OnLive | backend/valuz_agent/adapters/event_sse_adapter.py:1022-1044 | A live item is taken as the machine takes it, which `StreamEmissions.LiveEventsAreSent` tells: session plane remembers before translating, control plane after |
| EventSession.Session.constructor | backend/valuz_agent/adapters/event_sse_adapter.py:914-919 | A new session is the start of a run |
| EventSession.Session.Delivered | backend/valuz_agent/adapters/event_sse_adapter.py:920-925 | Delivering one row of a replay or a backfill continues the same run |
| EventSession.Session.TimedOut | backend/valuz_agent/adapters/event_sse_adapter.py:967-991 | So does a queue timeout |
| EventSession.Session.Live | backend/valuz_agent/adapters/event_sse_adapter.py:1022-1044 | So does a live item |
| EventSession.Session.Reconnected | backend/valuz_agent/adapters/event_sse_adapter.py:897-925 | So does a cut at any yield, in the middle of a replay or a backfill too, and a new connection from a durable seq the client was told |
| EventSession.SessionLosesNothing | backend/valuz_agent/adapters/event_sse_adapter.py:881-1052 | What the stream objects have yielded over all connections leaves out no translatable durable row up to the cursor |
| LiveTap.GlobalQueueTap.Emit | backend/kernel/app/event_stream.py:43-64 | A full queue drops the newcomer and counts it, otherwise it is enqueued; delivered and waiting items stay an in-order part of what was emitted and the rest equals the drop count; warnings on the first and each five-hundredth drop |
| TaggedText.FindOnNextLine | backend/valuz_agent/adapters/system_prompt_builder.py:97-101 | The non-greedy match ends at the first closing tag behind a line that has none |
| PromptDocument.CleanDoc | backend/valuz_agent/adapters/system_prompt_builder.py:139-142 | Substitution and strip on a rendered document remove the section of that tag and leave every other byte |
| PromptDocument.InstallDoc | backend/valuz_agent/adapters/system_prompt_builder.py:131-136 | Appending a block to the text is appending it to the list |
| PromptDocument.StepRefines | backend/valuz_agent/adapters/system_prompt_builder.py:120-151 | Each of the five operations on the text is its list operation, and keeps blocks distinct and never both citation sections |
| PromptDocument.RunRefines | backend/valuz_agent/adapters/system_prompt_builder.py:120-190 | So is any sequence of them, with the user text unchanged byte for byte |
| PromptDocument.FromUserText | backend/valuz_agent/adapters/system_prompt_builder.py:120-190 | From marker-free user text every sequence yields the trimmed text followed by the blank-line separated blocks |
| PromptBytes.InstalledBytes | backend/valuz_agent/adapters/system_prompt_builder.py:120-190 | The text each of the five operations makes of marker-free user text: trimmed text, a blank line when there is any, and the section with its tags and revision |
| PromptBytes.PipelineBytes | backend/valuz_agent/adapters/system_prompt_builder.py:120-190 | The same for the per-turn pair: citation section, blank line, PTC section |
| PromptDocument.StaleSectionsReplaced | backend/valuz_agent/adapters/system_prompt_builder.py:120-151 | On the text: a section of any earlier revision or wording, at any place, is replaced by the one installed, and either citation section by the other |
| PromptDocument.RemoveUndoesEnsure | backend/valuz_agent/adapters/system_prompt_builder.py:139-142 | On the text, byte for byte: installing and removing restores a document that had neither section; likewise for the PTC pair |
| PromptDocument.PipelineFixpoint | backend/valuz_agent/adapters/system_prompt_builder.py:174-184 | The per-turn pair is a byte-exact fixpoint, although its first step alone changes every text the pair leaves |
| PromptIdempotence.EnsurePtcTwice | backend/valuz_agent/adapters/system_prompt_builder.py:168-190 | For every text: a second installation changes nothing exactly when the cleaned text keeps no opening tag |
| PromptCitations.EnsureCitationTwice | backend/valuz_agent/adapters/system_prompt_builder.py:120-136 | For every text: installing the citation policy a second time changes nothing exactly when the text, cleaned of both sections, keeps no opening policy tag |
| PromptCitations.EnsureOffNoticeTwice | backend/valuz_agent/adapters/system_prompt_builder.py:145-151 | For every text: installing the off notice a second time changes nothing exactly when the text, cleaned of both sections, has no policy block again and keeps no opening notice tag |
| PromptCitations.DanglingTagBreaksCitations | backend/valuz_agent/adapters/system_prompt_builder.py:120-151 | A dangling opening tag of either section before any ordinary text is a counterexample |
| PromptCitations.CleanTwice | backend/valuz_agent/adapters/system_prompt_builder.py:114-117 | Cleaning a tag without attribute is final: a second time changes nothing |
| PromptIdempotence.DanglingTagBreaksIdempotence | backend/valuz_agent/adapters/system_prompt_builder.py:174-184 | A dangling opening tag before any ordinary text is a counterexample |
| PolicyMerge.MergePolicyValue | backend/scripts/evaluate_claim_evidence_resolution.py:210-233 | The recursive loops compute the merge: base order first, new keys and unseen items appended, Booleans or-ed, everything else replaced |
| PolicyMerge.SameMarkerIffSameValue | backend/scripts/evaluate_claim_evidence_resolution.py:247-248 | Two items share a marker exactly when they differ in key order at most |
| PolicyMerge.MergeSelf | backend/scripts/evaluate_claim_evidence_resolution.py:210-233 | Merging a value with itself gives it back |
| PolicyMerge.MergeTwice | backend/scripts/evaluate_task_coverage.py:39-56 | Merging the same addition twice is merging it once |
| PolicyMerge.AbsorbsIffMergeIsAddition | backend/scripts/evaluate_claim_evidence_resolution.py:210-233 | Merging into c changes nothing exactly when c already continues a, key by key and item by item |
| PolicyMerge.AssociativeIffHarmonious | backend/scripts/evaluate_claim_evidence_resolution.py:210-233 | Associative, key and item order included, exactly when at no shared path the middle layer interrupts a merge of the outer two that the last does not absorb |
| PolicyLayers.LayersRegroup | backend/scripts/evaluate_claim_evidence_resolution.py:173-207 | Layers that agree on kinds can be composed in any two groups |
| PolicyMerge.MergedValid | backend/scripts/evaluate_claim_evidence_resolution.py:213-221 | The merge of two dictionaries is again one: each key once, in order |
| PolicyLayers.MergedReads | backend/scripts/evaluate_claim_evidence_resolution.py:213-221 | Merged dictionaries list the base's keys, then the new ones in their order, and hold at each key the only value or the merge of both; flags are or-ed; what differs in kind is replaced |
| PolicyLayers.MergedItems | backend/scripts/evaluate_claim_evidence_resolution.py:222-230 | One more item of an added list is appended unless an equal one, up to key order, is already there |
| PolicyLayers.ComposedReads | backend/scripts/evaluate_claim_evidence_resolution.py:236-244 | A composition has exactly the keys its layers have, and at each key the values they give laid over each other in order |
| PolicyLayers.LastOfItsKind | backend/scripts/evaluate_claim_evidence_resolution.py:236-244 | A value that no earlier layer shares in kind is, from the last layer that gives its key, what the composition holds there |
| PolicyLayers.CumulativeSemantics | backend/scripts/evaluate_claim_evidence_resolution.py:236-244 | The first snapshot is the first delta, each later one the merge of its predecessor with its delta; the i-th is the composition of the first i+1 layers |
| PolicyLayers.LoadPolicySemantics | backend/scripts/evaluate_claim_evidence_resolution.py:193-198 | A layer without an object is skipped by the composition and recorded as an empty delta; the semantics has exactly the keys some delta has, and is the delta when there is one |
| PolicyLayers.ComposeEvaluationPayload | backend/scripts/evaluate_claim_evidence_resolution.py:73-74 | The last snapshot is the semantics; the snapshots start with the first layer and each merges the next; the semantics has exactly the keys some object layer has |
| PolicyCoverage.StringListNonEmpty | backend/scripts/evaluate_claim_evidence_resolution.py:917-920 | The string list is non-empty exactly when the value is a list with a non-empty string or a number in it |
| PolicyReferences.StringItemsJoin | backend/scripts/evaluate_claim_evidence_resolution.py:917-920 | The texts of a list are those of its parts one after the other |
| PolicyReferences.StringItemsOfOne | backend/scripts/evaluate_claim_evidence_resolution.py:917-920 | A non-empty string, a number's text and "True" or "False" count, nothing else does |
| PolicyCoverage.PolicyCasesCover | backend/scripts/evaluate_claim_evidence_resolution.py:251-273 | Some case is generated for an item exactly when its family is enabled, the layer declares it and it is coverable: every metric and mapped dimension value, a unit with a readable scale and aliases or scale one, a dependency with a non-empty input list |
| PolicyReferences.GeneratedWhen | backend/scripts/evaluate_claim_evidence_resolution.py:276-300 | Read off the raw policy: a unit needs a mapping whose scale (one if absent) parses and an alias or the scale one, a dependency an input with a text, a metric or a mapped dimension value only to be there; a scalar dimension and an unknown key never have a case |
| PolicyTallies.TallyOfPolicy | backend/scripts/evaluate_claim_evidence_resolution.py:251-273 | Each case of a declared item is generated once for each time its family is listed, and no case for anything else |
| PolicyTallies.TallyOfUnit | backend/scripts/evaluate_claim_evidence_resolution.py:285-370 | How many positive and conflict cases a unit has: one per alias, or one for the scale one without aliases, and one negative behind them when there is an incompatible unit |
| PolicyTallies.TallyOfMetric | backend/scripts/evaluate_claim_evidence_resolution.py:380-577 | How many cases of each of its six groups a metric has, all with gold evidence |
| PolicyTallies.TallyOfValue | backend/scripts/evaluate_claim_evidence_resolution.py:580-678 | How many positive and conflict cases a dimension value has |
| PolicyCoverage.RefInjective | backend/scripts/evaluate_claim_evidence_resolution.py:839-866 | Items with dot-free dimension and top-level names have different references |
| PolicyReferences.DeclaredWhere | backend/scripts/evaluate_claim_evidence_resolution.py:839-866 | Each of the six kinds of item is declared exactly by its path of keys, and referred to by that path behind a fixed word |
| CaseGenerators.GenerateUnitCases | backend/scripts/evaluate_claim_evidence_resolution.py:276-370 | The loop yields, unit by unit, a case per term and a conflict case when there is an incompatible unit |
| CaseGenerators.GenerateMetricCases | backend/scripts/evaluate_claim_evidence_resolution.py:373-577 | The loop yields each metric's alias, field, value, transform, date and sibling cases |
| CaseGenerators.GenerateDimensionCases | backend/scripts/evaluate_claim_evidence_resolution.py:580-678 | The loop yields each mapped value's alias cases and, among siblings, its conflict case |
| CaseGenerators.GenerateDependencyCases | backend/scripts/evaluate_claim_evidence_resolution.py:681-742 | The loop yields one case per declared input |
| CaseGenerators.GeneratePolicyCases | backend/scripts/evaluate_claim_evidence_resolution.py:251-273 | The enabled families' cases, in the order the families are listed |
| CaseGenerators.SemanticPolicyRefs | backend/scripts/evaluate_claim_evidence_resolution.py:839-866 | The enumerated references are, ascending and each once, those of everything the layer declares, unknown top-level keys and scalar dimensions included |
| CoverageReport.GeneratedAreTargets | backend/scripts/evaluate_claim_evidence_resolution.py:827-866 | Every reference on a generated case is a target of its layer |
| CoverageReport.NoFailureIff | backend/scripts/evaluate_claim_evidence_resolution.py:1020-1064 | For all names: the report counts no failure exactly when in every layer hand-written cases name declared items only, and each item without a case is named or shares its reference with one that has a case |
| CoverageReport.NoFailureMeansCompleteIff | backend/scripts/evaluate_claim_evidence_resolution.py:1020-1064 | A report without failures means complete coverage exactly when no such sharing item goes unnamed |
| CoverageReport.LayerIsTrustworthyIff | backend/scripts/evaluate_claim_evidence_resolution.py:1020-1064 | For a policy layer, whatever the hand-written cases, "no failure" implies complete exactly when no item without a case shares its reference with one that has a case |
| CoverageReport.PlainNamesNeverBorrow | backend/scripts/evaluate_claim_evidence_resolution.py:839-866 | Dot-free dimension and top-level names never share |
| CoverageReport.DottedNamesHideAGap | backend/scripts/evaluate_claim_evidence_resolution.py:852-857 | A dimension "a.b" without values beside a value "b" of dimension "a" shares its reference, and the gap goes unreported |
| CoverageReport.CountsAddUp | backend/scripts/evaluate_claim_evidence_resolution.py:1049-1055 | Required is covered plus uncovered; no failure means equal sets; the rate is one exactly when nothing is uncovered |
| CoverageReport.LayerCountsAddUp | backend/scripts/evaluate_claim_evidence_resolution.py:1035-1048 | The per-layer counts add up to the total |
| CoverageReport.EvaluateCoverage | backend/scripts/evaluate_claim_evidence_resolution.py:1020-1064 | A reference is listed as uncovered exactly when its layer declares an item with it and no generated or hand-written case carries it, as unknown exactly the other way round; failed counts both; rate times required is covered, and the rate is one when nothing is required |
| ResolverMetrics.FirstGoldRank | backend/scripts/evaluate_claim_evidence_resolution.py:959-965 | The minimum over the retrieved gold handles is the position of the first gold candidate |
| ResolverMetrics.FirstRankIsLeast | backend/scripts/evaluate_claim_evidence_resolution.py:959-965 | That position is k exactly when candidate k is gold and none before it is |
| ResolverMetrics.CaseMetrics | backend/scripts/evaluate_claim_evidence_resolution.py:1067-1113 | Each recall is the share, among the cases with gold evidence, of those ranked within the cutoff; each accuracy the share of the cases that are right; failed counts the cases wrong in some respect; every share of nothing is one |
| ResolverMetrics.ReciprocalsAddUp | backend/scripts/evaluate_claim_evidence_resolution.py:1087-1090 | One more case with gold evidence adds its reciprocal rank, or nothing, to the mean times the number of such cases |
| ResolverMetrics.RecallMonotone | backend/scripts/evaluate_claim_evidence_resolution.py:1074-1086 | Recall lies between zero and one and grows with the cutoff |
| ResolverMetrics.MrrBetweenRecalls | backend/scripts/evaluate_claim_evidence_resolution.py:1067-1090 | The recalls bound the mean reciprocal rank from both sides; each bound is met exactly when every rank is last, or first, in its band |
| ResolverMetrics.OverallFromLayers | backend/scripts/evaluate_claim_evidence_resolution.py:996-1013 | Overall recall and reciprocal rank are the gold-weighted means of the layers', layers without gold included, and failures add up |
| TaskCoverage.EvaluateCase | backend/scripts/evaluate_task_coverage.py:201-318 | The evaluator reports exactly the failures of the trace, each under its own condition |
| TaskFailures.RunFailures | backend/scripts/evaluate_task_coverage.py:222-245 | When each failure about the runs is reported, in terms of the rows of the trace |
| TaskFailures.OrderFailures | backend/scripts/evaluate_task_coverage.py:247-282 | When each failure about producers and order is reported, in terms of the events' places |
| TaskFailures.OutcomeFailures | backend/scripts/evaluate_task_coverage.py:284-306 | When output is missing, unexpected or changed, on the joined and stripped text |
| TaskFailures.ObservationFailures | backend/scripts/evaluate_task_coverage.py:289-296 | When a missing observation is reported |
| TaskFailures.TextFailures | backend/scripts/evaluate_task_coverage.py:298-303 | When a required or a repeated text is reported: exactly when the text cannot, or can, be cut around it |
| TaskCoverage.PassesIffProtocol | backend/scripts/evaluate_task_coverage.py:222-306 | A trace passes exactly when: one primary run on the request, a coverage run in the same runtime and thread if and only if the outcome calls for one, runtime messages only, all primary before all coverage output, one idle event which is the last, and the outcome's text and observation conditions |
| TaskCoverage.Passed | backend/scripts/evaluate_task_coverage.py:201-318 | The verdict is true exactly for traces of the protocol; a trace or expectation that is not an object fails |
| TaskCoverage.QuietEventsKeepPass | backend/scripts/evaluate_task_coverage.py:247-306 | Inserting any events that are neither assistant messages nor idle before the last one never turns a pass into a failure |
| TaskCoverage.UnseenEventsChangeNothing | backend/scripts/evaluate_task_coverage.py:247-306 | Inserting events of kinds the evaluator never looks for changes no single failure |
| KernelRouting.StepKeeps | backend/valuz_agent/adapters/kernel_client.py:884-900 | Every step of every task keeps: a task's pin is its innermost running hook's, saved pins are those below, and the log's entries were routed accordingly |
| KernelRouting.HookWritesReachTheTurn | backend/valuz_agent/adapters/kernel_client.py:1453-1478 | In every interleaving a hook's write for the turn's own session is made before the turn runs and on the kernel that runs it; a write for another session goes where an unpinned lookup sends it |
| KernelRouting.OtherWritesAreNotDiverted | backend/valuz_agent/adapters/kernel_client.py:884-900 | At any moment a control write goes to a pinned kernel only inside a hook of that very session |
| KernelRouting.PinIsRestored | backend/valuz_agent/adapters/kernel_client.py:1457-1466 | Whatever happened in between, a task back at the same calls has the same pin, and none without calls |
| KernelRouting.NotStartedWasNeverReceived | backend/valuz_agent/adapters/kernel_client.py:1448-1478 | A turn reported as not started is never one that a kernel received |
| KernelTurns.UnpinnedWrites | backend/valuz_agent/adapters/kernel_client.py:884-900 | In every run: when no turn of the task is in its hook, a write for a session goes where the last word of the allocator on its scope says: another kernel by its key, this process, or the data plane when there is no lease |
| KernelTurns.HookedWrites | backend/valuz_agent/adapters/kernel_client.py:1453-1466 | In every run: inside a turn's hook, nested calls over, a write for its session goes to the kernel of the lease that turn was allocated, any other where the allocator last said |
| KernelTurns.OthersLeaveCalls | backend/valuz_agent/adapters/kernel_client.py:872-881 | No step of another task, of the allocator and no write changes a task's calls or its pin |
| KernelTurns.TurnsGoToTheirLease | backend/valuz_agent/adapters/kernel_client.py:1448-1478 | In every run: a kernel that received a turn is the one of the lease that very turn was allocated |
| KernelFacade.Facade.RouteControl | backend/valuz_agent/adapters/kernel_client.py:884-900 | The pin when it is for this session, else the live kernel of the scope's lease, else the data plane |
| KernelFacade.Facade.RunHook | backend/valuz_agent/adapters/kernel_client.py:1457-1466 | The hook runs under its own pin, logs exactly its writes, each to the turn's kernel or to where its last move of the scope says, and the earlier pin is back however it ends |
| KernelFacade.Facade.RunTurn | backend/valuz_agent/adapters/kernel_client.py:1410-1478 | The call is a run of the machine and leaves the pin as it was; it is answered exactly when the kernel got the turn, which is when the lease is there, the hook lets it go on and the context is built; not started exactly when it is reported so; a cancellation is neither; its log is the hook's writes and that one word |
| EndpointKey.SameKeyIffSameRoute | backend/valuz_agent/adapters/kernel_client.py:921-939 | Given no NUL and no equals sign in header names, keys are equal exactly when address and headers are |
| EndpointKey.SameRouteSameKey | backend/valuz_agent/adapters/kernel_client.py:937-939 | The key does not depend on the order the headers were inserted in |
| EndpointKey.KeyOfFewHeaders | backend/valuz_agent/adapters/kernel_client.py:935-939 | Without headers the key is the address, with one the address, a NUL and `name=value` |
| EndpointKey.EqualsSignCollides | backend/valuz_agent/adapters/kernel_client.py:938 | Without that promise two routes can share a key |
| EndpointKey.EndpointClients.ClientFor | backend/valuz_agent/adapters/kernel_client.py:942-951 | The cached client routes like one built now, and equal routes share one client |
| ScopeCache.CacheIsRightIff | backend/valuz_agent/adapters/kernel_client.py:982-1004 | Over any run of puts, evictions and lookups the cache holds the true scopes throughout exactly when each failure of the resolver met a session that was cached or whose own scope is the true one |
| ScopeCache.LookupsAreTransparent | backend/valuz_agent/adapters/kernel_client.py:990-1004 | Such a cache answers every lookup as a working resolver would |
| ScopeCache.BoundedAlways | backend/valuz_agent/adapters/kernel_client.py:982-987 | The cache never exceeds its maximum |
| ScopeCache.PutKeeps | backend/valuz_agent/adapters/kernel_client.py:982-987 | A just-put entry is there, and no other entry changes its value |
| ScopeCache.EvictionKeepsNewest | backend/valuz_agent/adapters/kernel_client.py:983-986 | Everything behind the oldest eighth survives a put into a full cache |
| ScopeCache.OrderAfterPut | backend/valuz_agent/adapters/kernel_client.py:982-987 | A full cache loses exactly its 512 oldest keys; a key that is still there keeps its place, a new one comes last |
| ScopeCache.ScopeTable.Put | backend/valuz_agent/adapters/kernel_client.py:982-987 | The in-place eviction and assignment leave exactly the modelled contents |
| ScopeCache.ScopeTable.ScopeFor | backend/valuz_agent/adapters/kernel_client.py:990-1004 | A cached session answers from the cache; otherwise the answer is the resolver's, or the session's own scope when it declines or fails, and is cached |
| RemoteTurn.Channel.RunTurn | backend/valuz_agent/adapters/kernel_client_http.py:549-616 | The loop gives the modelled outcome; the request is sent at most once, right behind a valid capability frame, and never when the answer is "not implemented" |
| RemoteTurn.ReturnsIffCorrelated | backend/valuz_agent/adapters/kernel_client_http.py:562-616 | A message is returned exactly when the kernel negotiated, the first deciding frame carries this request's id and names that message, and it is finalized in this session |
| RemoteTurn.EndsExactlySo | backend/valuz_agent/adapters/kernel_client_http.py:549-616 | Which of the four failures or which message a turn ends with, read off the frames: no handshake in time or another one is "not implemented", a channel that closes before a decision "unavailable", a frame that is no JSON an uncaught error, any other decision a client error |
| RemoteTurn.OnlyDecidingFramesMatter | backend/valuz_agent/adapters/kernel_client_http.py:577-598 | Runs that agree on handshake and deciding frames end alike whatever was replayed between |
| RemoteTurn.OtherCompletionIsRefused | backend/valuz_agent/adapters/kernel_client_http.py:584-590 | Another execution's completion in front raises an error |
| HistoryCopy.AllEvents | backend/scripts/backfill_durable_sessions.py:34-45 | The paging loop returns every event once, in order |
| HistoryCopy.Store.CopyOne | backend/valuz_agent/boot/kernel_db_colocate.py:55-75 | With n writes to live the target holds exactly what the first n writes of that session leave, and nothing else changed; it crashes exactly when n is too small |
| HistoryCopy.Store.CopySessions | backend/valuz_agent/boot/kernel_db_colocate.py:44-77 | A run leaves exactly what its writes amount to; interrupted or not it only adds beginnings of absent sessions; uninterrupted, every absent session is there with each message and event in place, nothing else changed, and the count is that of the absent sessions |
| HistoryCopy.Store.Backfill | backend/scripts/backfill_durable_sessions.py:70-104 | The same; copied counts the absent sessions, partial those with fewer events than the source, skipped those with as many; a dry run writes nothing |
| HistoryCopy.Store.Reboots | backend/valuz_agent/boot/kernel_db_colocate.py:44-77 | Any number of runs, each interrupted anywhere, leave exactly what their writes amount to: sessions that were there untouched, every other one a beginning of a source session |
| HistoryCopy.SecondRunCopiesNothing | backend/valuz_agent/boot/kernel_db_colocate.py:52-55 | After an uninterrupted run absent sessions are equal to the source's and the next run copies nothing |
| HistoryCopy.ShortIffIncomplete | backend/scripts/backfill_durable_sessions.py:75-86 | For a copied session, being reported partial is the same as lacking an event; with all of its events, if any, it is complete |
| HistoryCopy.ReportIsExactIff | backend/scripts/backfill_durable_sessions.py:75-86 | Over all earlier targets and all sequences of interrupted runs, being reported short is the same as being incomplete exactly for sessions that have events or have no messages |
| LocaleCatalog.FlattenIffWalk | backend/valuz_agent/i18n.py:91-101 | With dot-free non-empty keys the table answers a dotted key with a string exactly when walking its segments reaches that string |
| LocaleCatalog.PathsIffWalk | i18n/scripts/check_keys.py:34-44 | The checker knows a dotted key exactly when walking its segments ends at a leaf |
| LocaleCatalog.SameKeysIffStringLeaves | i18n/scripts/check_keys.py:34-44 | The checker's paths include the runtime's keys, and equal them exactly when every leaf is a string |
| LocaleRuntime.CheckKeys | i18n/scripts/check_keys.py:82-104 | The consistency phase counts one error for each locale that lacks a reference key and one for each that has another, so none exactly when every locale has the reference's paths |
| LocaleRuntime.PassMeansAnswered | backend/valuz_agent/i18n.py:212-220 | After a pass, and after any registrations, every reference key is answered from the requested locale itself, with its file's string unless a registration for it says otherwise |
| LocaleRuntime.FailMeansFallback | backend/valuz_agent/i18n.py:212-220 | A key reported missing is answered with the fallback locale's text |
| LocaleRuntime.RegistrationsKeepKeys | backend/valuz_agent/i18n.py:255-274 | Registering removes no key and changes no key it does not mention |
| LocaleRuntime.LastRegistrationWins | backend/valuz_agent/i18n.py:255-274 | A table has exactly the keys of its file and its registrations, and the last registration that gives a key decides its text |
| LocaleRuntime.Translator.Resolve | backend/valuz_agent/i18n.py:212-220 | The locale's text when its table has the key, else the fallback's, else the key itself; the tables are the files with everything registered so far |
| LocaleRuntime.Translator.RegisterNamespace | backend/valuz_agent/i18n.py:255-274 | Updating the loaded table in place appends one registration |

## Left out

- HTTP, WebSocket, SQL and asyncio plumbing: a reader is "rows behind the cursor, ascending, at most limit", the durable log is append-only with increasing visible seqs, time is an arbitrary tick.
- Payloads of translated events and the billing call; whether a type translates depends on the type alone, and live and durable copies of a uid are assumed to share it.
- Durable rows without a seq, which the paging loops only guard against.
- EventSession.Session.Reconnected: the client comes back with a durable seq it was told; the echo of any other seq is treated in `StreamEchoes`, on the machine.
- EventStream.Stream.OnTimeout: all reads of one backfill see the log at its start, because one read suffices at the default limit; the queue, the pump tasks and disconnect checks around it are the machine's nondeterminism.
- StreamRounds.CatchesUpIffNoGapAhead: speaks of due backfills without appends in between; how soon a queue timeout comes is not modelled.
- StreamEchoes.ControlClientLosesNothingIff: the client's cursor starts at the run's first seq; parsing and dispatch of frames are left out.
- The wording of the three sections is a parameter: it must hold none of the opening markers and not its own closing tag, and for `EnsureOffNoticeTwice` the notice must not close a policy block.
- PromptDocument.FromUserText: text that already contains an opening marker is excluded, because a dangling tag lets the match swallow user text; `PromptIdempotence` and `PromptCitations` state when the installing operations are then idempotent, and no other law is claimed for such text.
- PolicyMerge.MergePolicyValue: keys are strings and numbers are compared by the text they are written as; the canonical JSON text is represented by a value that forgets key order, and deep copies are values. The twin merge of the task coverage evaluator has the same body and shares this model.
- CaseGenerators.GenerateUnitCases: which units have an incompatible one and how a scale is read are parameters; the division by a base scale, which raises for zero and for NaN, and all case texts, evidence and ids are not modelled.
- CaseGenerators.GenerateMetricCases: case texts, evidence and ids are not modelled; a case is its item, group and whether it has gold evidence.
- CaseGenerators.GenerateDimensionCases: likewise.
- CaseGenerators.GenerateDependencyCases: likewise.
- PolicyCoverage.StringListNonEmpty: YAML sets and tuples count as lists here.
- CoverageReport.EvaluateCoverage: the checks on layer order, prefixes and revisions that raise before evaluation are assumed to pass.
- ResolverMetrics.CaseMetrics: over the reals, without float rounding; the resolver itself is not part of this model.
- TaskCoverage.EvaluateCase: the loading of fixtures and the lookup of policy references (`_policy_ref_exists`) are not modelled; event types, phases and outcomes are enumerations with a case for any other text.
- KernelRouting.HookWritesReachTheTurn: tasks that a hook spawns copy the context variable and may outlive the pin; they are not modelled. An unpinned lookup is one step, so a registry change between its answer and the write is not seen.
- KernelFacade.Facade.RunTurn: what the hook does is a list of control writes and allocator moves with an ending; scope resolution, leases without an allocator and old allocator signatures are folded into the lease that is returned.
- EndpointKey.EndpointClients.ClientFor: the bearer token is not in the key, so a cached client may carry an older token; only routing agreement is claimed.
- ScopeCache.LookupsAreTransparent: a working resolver is assumed to tell the same scope whoever asks and whenever.
- RemoteTurn.Channel.RunTurn: the workspace grant, headers and payload fields other than the request id are left out, and the read-back sees one state of the store.
- HistoryCopy.Store.CopySessions: the count comparison that skips the whole step (it compares totals, not sets) and the file backup are left out; ownership by user is folded into the session id.
- LocaleRuntime.Translator.Resolve: interpolation, the caller's fallback text and the choice of the current locale are left out.
- LocaleCatalog.SameKeysIffStringLeaves: keys with dots or without characters, which the schema does not forbid, are excluded; schema validation itself is not modelled.
- Sandbox, boot, migration, authentication, plugin and CLI code, the frontend but for the cursor of the control-plane client, provider and model tables, the runtime store and the orchestrator.
