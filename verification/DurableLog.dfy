// The durable event log as the streaming adapter reads it: rows with strictly
// increasing seqs, read in pages "seq > cursor, ascending, at most limit".

module DurableLog {
  import opened Options

  /** Store-independent event identity (`event_uid`). */
  type Uid = string

  /** Kernel event types; `Unmapped` stands for every type with no legacy counterpart. */
  datatype Kind =
    | UserMessage | AssistantMessage | AssistantMessageSidecar | Thinking | ToolUse | ToolResult
    | SessionError | UsageUpdate | TodoUpdate | SessionIdle | SessionUpdate | Compaction
    | TextDelta | ThinkingDelta | ToolInputDelta | ToolOutputDelta | ToolThinkingDelta
    | RequiresAction | ActionResolved | ModeChanged | PlanUpdate | PlanProposed
    | WorkflowProgress | BackgroundTask(stage: string) | TurnPhase
    | Unmapped(name: string)

  /** The two streams: one session's data plane, one owner's lifecycle plane. */
  datatype Plane = SessionPlane | ControlPlane

  datatype Row = Row(seqNo: int, uid: Option<Uid>, kind: Kind)

  const EVENTS_PAGE: nat := 1000
  const DEFAULT_LIMIT: nat := 200

  predicate IsLifecycle(kind: Kind) {
    kind.UserMessage? || kind.SessionIdle? || kind.SessionError? || kind.SessionUpdate?
  }

  /** Whether the plane's translation yields a frame; it depends on the type alone. */
  predicate Translates(plane: Plane, kind: Kind) {
    match plane
    case SessionPlane => !kind.Unmapped?
    case ControlPlane => IsLifecycle(kind)
  }

  /** Every type but the ones without a counterpart has a session frame, and four of them have a
      control frame too. */
  lemma TypesTranslate(kind: Kind)
    ensures Translates(SessionPlane, kind) <==> forall name :: kind != Unmapped(name)
    ensures Translates(ControlPlane, kind) <==> kind in {UserMessage, SessionIdle, SessionError, SessionUpdate}
    ensures Translates(ControlPlane, kind) ==> Translates(SessionPlane, kind)
  {
    if kind.Unmapped? { assert kind == Unmapped(kind.name); }
  }

  /** What the reader returns at all: the control read filters types at the source. */
  predicate Readable(plane: Plane, row: Row) {
    plane == ControlPlane ==> IsLifecycle(row.kind)
  }

  ghost predicate Ascending(rows: seq<Row>) {
    forall i, j :: 0 <= i < j < |rows| ==> rows[i].seqNo < rows[j].seqNo
  }

  function Take<T>(s: seq<T>, n: int): seq<T> {
    if n <= 0 then [] else if n <= |s| then s[..n] else s
  }

  /** The readable rows after `cursor`, in log order. */
  function Outstanding(plane: Plane, log: seq<Row>, cursor: int): seq<Row> {
    if log == [] then []
    else
      var last := log[|log| - 1];
      Outstanding(plane, log[..|log| - 1], cursor)
      + if last.seqNo > cursor && Readable(plane, last) then [last] else []
  }

  lemma OutstandingStep(plane: Plane, log: seq<Row>, c: int)
    requires log != []
    ensures var init, last := log[..|log| - 1], log[|log| - 1];
            Outstanding(plane, log, c)
            == Outstanding(plane, init, c) + if last.seqNo > c && Readable(plane, last) then [last] else []
  {
  }

  /** One store read. */
  function ReadPage(plane: Plane, log: seq<Row>, cursor: int, limit: int): (page: seq<Row>)
    ensures |page| <= if limit > 0 then limit else 0
  {
    Take(Outstanding(plane, log, cursor), limit)
  }

  /** The rows that become frames. */
  function Translated(plane: Plane, rows: seq<Row>): seq<Row> {
    if rows == [] then []
    else
      Translated(plane, rows[..|rows| - 1])
      + if Translates(plane, rows[|rows| - 1].kind) then [rows[|rows| - 1]] else []
  }

  lemma {:induction false} OutstandingMembers(plane: Plane, log: seq<Row>, cursor: int)
    ensures forall r :: r in Outstanding(plane, log, cursor) <==> r in log && r.seqNo > cursor && Readable(plane, r)
  {
    if log != [] {
      OutstandingMembers(plane, log[..|log| - 1], cursor);
      assert log == log[..|log| - 1] + [log[|log| - 1]];
    }
  }

  lemma {:induction false} OutstandingAscending(plane: Plane, log: seq<Row>, cursor: int)
    requires Ascending(log)
    ensures Ascending(Outstanding(plane, log, cursor))
  {
    if log != [] {
      OutstandingAscending(plane, log[..|log| - 1], cursor);
      OutstandingMembers(plane, log[..|log| - 1], cursor);
    }
  }

  lemma {:induction false} TranslatedMembers(plane: Plane, rows: seq<Row>)
    ensures forall r :: r in Translated(plane, rows) <==> r in rows && Translates(plane, r.kind)
  {
    if rows != [] {
      TranslatedMembers(plane, rows[..|rows| - 1]);
      assert rows == rows[..|rows| - 1] + [rows[|rows| - 1]];
    }
  }

  lemma {:induction false} TranslatedAscending(plane: Plane, rows: seq<Row>)
    requires Ascending(rows)
    ensures Ascending(Translated(plane, rows))
  {
    if rows != [] {
      TranslatedAscending(plane, rows[..|rows| - 1]);
      TranslatedMembers(plane, rows[..|rows| - 1]);
    }
  }

  /** Appending to the log appends to what is outstanding. */
  lemma {:induction false} OutstandingGrows(plane: Plane, log: seq<Row>, longer: seq<Row>, cursor: int)
    requires log <= longer
    ensures Outstanding(plane, log, cursor) <= Outstanding(plane, longer, cursor)
  {
    if log == longer {
    } else {
      OutstandingGrows(plane, log, longer[..|longer| - 1], cursor);
    }
  }

  /** Moving the cursor onto the k-th outstanding row leaves exactly the rows after it. */
  lemma {:induction false} OutstandingAfter(plane: Plane, log: seq<Row>, cursor: int, k: nat)
    requires Ascending(log)
    requires 0 < k <= |Outstanding(plane, log, cursor)|
    ensures var all := Outstanding(plane, log, cursor);
            Outstanding(plane, log, all[k - 1].seqNo) == all[k..]
  {
    var init, last := log[..|log| - 1], log[|log| - 1];
    var all, before := Outstanding(plane, log, cursor), Outstanding(plane, init, cursor);
    OutstandingStep(plane, log, cursor);
    OutstandingMembers(plane, init, cursor);
    if k <= |before| {
      var r := before[k - 1];
      assert r in before;
      assert r in init && r.seqNo > cursor;
      assert r.seqNo < last.seqNo;
      assert Ascending(init);
      hide Outstanding, Ascending, Readable;
      OutstandingAfter(plane, init, cursor, k);
      OutstandingStep(plane, log, r.seqNo);
      var tail := if Readable(plane, last) then [last] else [];
      assert all == before + tail && all[k..] == before[k..] + tail;
    } else {
      NothingOutstanding(plane, log, last.seqNo);
    }
  }

  lemma {:induction false} NothingOutstanding(plane: Plane, log: seq<Row>, cursor: int)
    requires forall r :: r in log ==> r.seqNo <= cursor
    ensures Outstanding(plane, log, cursor) == []
  {
    if log != [] {
      NothingOutstanding(plane, log[..|log| - 1], cursor);
    }
  }

  /** One page read from a log that may have grown since the previous page extends the
      accumulated prefix, and a short page means the log was drained. */
  lemma PageExtends(plane: Plane, seen: seq<Row>, log: seq<Row>, afterSeq: int, cursor: int, items: seq<Row>, want: nat)
    requires Ascending(log) && seen <= log
    requires items <= Outstanding(plane, seen, afterSeq)
    requires cursor == Cursor(afterSeq, items)
    ensures items + ReadPage(plane, log, cursor, want) <= Outstanding(plane, log, afterSeq)
    ensures |ReadPage(plane, log, cursor, want)| < want
            ==> items + ReadPage(plane, log, cursor, want) == Outstanding(plane, log, afterSeq)
  {
    var whole := Outstanding(plane, log, afterSeq);
    OutstandingGrows(plane, seen, log, afterSeq);
    assert items == whole[..|items|];
    if items != [] {
      OutstandingAfter(plane, log, afterSeq, |items|);
    }
    assert Outstanding(plane, log, cursor) == whole[|items|..];
  }

  /** The seq to continue after, once `items` have been read. */
  function Cursor(afterSeq: int, items: seq<Row>): int {
    if items == [] then afterSeq else items[|items| - 1].seqNo
  }

  lemma PrefixIsTake<T>(items: seq<T>, whole: seq<T>, limit: int, drained: bool)
    requires items <= whole && |items| <= if limit > 0 then limit else 0
    requires if drained then items == whole else |items| >= limit
    ensures items == Take(whole, limit)
  {
  }

  /** The paging loop shared by `list_events_after` and `list_user_events_after`. The k-th
      read sees `store(k)`; the log may grow between reads. The result is exactly the
      first min(limit, n) outstanding rows of the log as last seen, whatever was appended
      on the way; only untranslatable rows are then dropped. */
  method ListEventsAfter(plane: Plane, store: nat -> seq<Row>, afterSeq: int, limit: int)
    returns (frames: seq<Row>, items: seq<Row>, readCount: nat)
    requires forall k: nat :: Ascending(store(k))
    requires forall j: nat, k: nat :: j <= k ==> store(j) <= store(k)
    ensures limit > 0 <==> readCount > 0
    ensures items == Take(Outstanding(plane, store(if readCount > 0 then readCount - 1 else 0), afterSeq), limit)
    ensures frames == Translated(plane, items)
    ensures limit <= EVENTS_PAGE ==> readCount <= 1
  {
    items, readCount := [], 0;
    ghost var seen, drained := store(0), false;
    while |items| < limit
      invariant |items| <= if limit > 0 then limit else 0
      invariant seen == store(if readCount > 0 then readCount - 1 else 0)
      invariant readCount > 0 <==> items != []
      invariant items <= Outstanding(plane, seen, afterSeq)
      invariant readCount > 0 && limit <= EVENTS_PAGE ==> |items| == limit && readCount == 1
      invariant !drained
      decreases limit - |items|
    {
      var want := if EVENTS_PAGE < limit - |items| then EVENTS_PAGE else limit - |items|;
      var cursor := Cursor(afterSeq, items);
      var log := store(readCount);
      PageExtends(plane, seen, log, afterSeq, cursor, items, want);
      var page := ReadPage(plane, log, cursor, want);
      items, readCount, seen := items + page, readCount + 1, log;
      if page == [] || |page| < want {
        drained := true; // the store has nothing further
        break;
      }
    }
    PrefixIsTake(items, Outstanding(plane, seen, afterSeq), limit, drained);
    frames := Translated(plane, items);
  }
}
