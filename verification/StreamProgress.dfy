// How far the durable backfill gets. The cursor moves on translated frames only, so a page
// of untranslatable rows does not move it: exact catch-up bounds, and exactly when it stalls.

module StreamProgress {
  import opened Options
  import opened DurableLog
  import opened EventMerge

  /** How many of the rows of one page the cursor moves past. */
  function Reach(plane: Plane, page: seq<Row>): (n: nat)
    ensures n <= |page|
    ensures n > 0 ==> Translates(plane, page[n - 1].kind)
    ensures forall i :: n <= i < |page| ==> !Translates(plane, page[i].kind)
  {
    if page == [] then 0
    else if Translates(plane, page[|page| - 1].kind) then |page|
    else Reach(plane, page[..|page| - 1])
  }

  /** What is still outstanding after one full backfill. */
  function AfterRound(plane: Plane, rows: seq<Row>): seq<Row> {
    rows[Reach(plane, Take(rows, DEFAULT_LIMIT))..]
  }

  function AfterRounds(plane: Plane, rows: seq<Row>, k: nat): seq<Row> {
    if k == 0 then rows else AfterRounds(plane, AfterRound(plane, rows), k - 1)
  }

  /** The loop over a page, one frame at a time. */
  function DeliverAll(c: Conn, times: seq<int>): Conn
    requires |times| == |c.pending|
    decreases |c.pending|
  {
    if c.pending == [] then c else DeliverAll(DeliverHead(c, times[0]), times[1..])
  }

  lemma {:induction false} DeliverAllEnds(c: Conn, times: seq<int>)
    requires |times| == |c.pending|
    ensures DeliverAll(c, times).pending == []
    ensures DeliverAll(c, times).cursor == Cursor(c.cursor, c.pending)
    ensures DeliverAll(c, times).phase == c.phase
    decreases |c.pending|
  {
    if c.pending != [] {
      DeliverAllEnds(DeliverHead(c, times[0]), times[1..]);
    }
  }

  lemma {:induction false} LastTranslated(plane: Plane, page: seq<Row>)
    ensures Translated(plane, page) == [] <==> Reach(plane, page) == 0
    ensures Translated(plane, page) != [] ==>
              Translated(plane, page)[|Translated(plane, page)| - 1] == page[Reach(plane, page) - 1]
  {
    if page != [] && !Translates(plane, page[|page| - 1].kind) {
      LastTranslated(plane, page[..|page| - 1]);
    }
  }

  /** One backfill, read and fully delivered, leaves exactly AfterRound outstanding. */
  lemma BackfillLeaves(plane: Plane, log: seq<Row>, c: Conn, times: seq<int>)
    requires Ascending(log)
    requires c.pending == FramesAfter(plane, log, c.cursor) && |times| == |c.pending|
    ensures Outstanding(plane, log, DeliverAll(c, times).cursor) == AfterRound(plane, Outstanding(plane, log, c.cursor))
  {
    var all := Outstanding(plane, log, c.cursor);
    var page := Take(all, DEFAULT_LIMIT);
    var n := Reach(plane, page);
    DeliverAllEnds(c, times);
    LastTranslated(plane, page);
    if n > 0 {
      OutstandingAfter(plane, log, c.cursor, n);
      assert page[n - 1] == all[n - 1];
    }
  }

  // ---------------------------------------------------------------- control plane: exact bound

  lemma {:induction false} ControlRounds(rows: seq<Row>, k: nat)
    requires forall r :: r in rows ==> IsLifecycle(r.kind)
    ensures AfterRounds(ControlPlane, rows, k) == if DEFAULT_LIMIT * k < |rows| then rows[DEFAULT_LIMIT * k..] else []
  {
    if k > 0 {
      var page := Take(rows, DEFAULT_LIMIT);
      if rows != [] { assert page[|page| - 1] in rows; }
      assert Reach(ControlPlane, page) == |page|;
      var rest := AfterRound(ControlPlane, rows);
      assert rest == rows[|page|..];
      forall r | r in rest ensures IsLifecycle(r.kind) { assert r in rows; }
      ControlRounds(rest, k - 1);
    }
  }

  /** The control stream drops nothing, so k backfills without new appends reach the end of
      n outstanding rows exactly when 200 * k >= n. */
  lemma ControlCatchUp(log: seq<Row>, cursor: int, k: nat)
    ensures AfterRounds(ControlPlane, Outstanding(ControlPlane, log, cursor), k) == []
            <==> DEFAULT_LIMIT * k >= |Outstanding(ControlPlane, log, cursor)|
  {
    OutstandingMembers(ControlPlane, log, cursor);
    ControlRounds(Outstanding(ControlPlane, log, cursor), k);
  }

  // ---------------------------------------------------------------- when backfill stalls

  ghost predicate Silent(plane: Plane, rows: seq<Row>) {
    forall i :: 0 <= i < |rows| ==> !Translates(plane, rows[i].kind)
  }

  ghost predicate Settled(plane: Plane, rows: seq<Row>, k: nat) {
    Silent(plane, AfterRounds(plane, rows, k))
  }

  /** A whole page of untranslatable rows at i, with a translatable row later. */
  ghost predicate GapAt(plane: Plane, rows: seq<Row>, i: nat) {
    && i + DEFAULT_LIMIT <= |rows|
    && Silent(plane, rows[i..i + DEFAULT_LIMIT])
    && !Silent(plane, rows[i + DEFAULT_LIMIT..])
  }

  ghost predicate HasGap(plane: Plane, rows: seq<Row>) {
    exists i: nat :: GapAt(plane, rows, i)
  }

  lemma GapSurvivesRound(plane: Plane, rows: seq<Row>, i: nat)
    requires GapAt(plane, rows, i)
    ensures Reach(plane, Take(rows, DEFAULT_LIMIT)) <= i
    ensures GapAt(plane, AfterRound(plane, rows), i - Reach(plane, Take(rows, DEFAULT_LIMIT)))
  {
    var n := Reach(plane, Take(rows, DEFAULT_LIMIT));
    forall j | i <= j < i + DEFAULT_LIMIT ensures !Translates(plane, rows[j].kind) {
      assert rows[j] == rows[i..i + DEFAULT_LIMIT][j - i];
    }
    assert rows[n..][i - n..i - n + DEFAULT_LIMIT] == rows[i..i + DEFAULT_LIMIT];
    assert rows[n..][i - n + DEFAULT_LIMIT..] == rows[i + DEFAULT_LIMIT..];
  }

  lemma {:induction false} GapNeverSettles(plane: Plane, rows: seq<Row>, i: nat, k: nat)
    requires GapAt(plane, rows, i)
    ensures !Settled(plane, rows, k)
    decreases k
  {
    if k == 0 {
      var j :| 0 <= j < |rows[i + DEFAULT_LIMIT..]| && Translates(plane, rows[i + DEFAULT_LIMIT..][j].kind);
      assert rows[i + DEFAULT_LIMIT + j] == rows[i + DEFAULT_LIMIT..][j];
    } else {
      GapSurvivesRound(plane, rows, i);
      GapNeverSettles(plane, AfterRound(plane, rows), i - Reach(plane, Take(rows, DEFAULT_LIMIT)), k - 1);
    }
  }

  /** Without a gap every round makes progress. */
  lemma NoGapAdvances(plane: Plane, rows: seq<Row>)
    requires !HasGap(plane, rows) && !Silent(plane, rows)
    ensures Reach(plane, Take(rows, DEFAULT_LIMIT)) > 0
  {
    var page := Take(rows, DEFAULT_LIMIT);
    if |rows| > DEFAULT_LIMIT {
      var j :| 0 <= j < |rows| && Translates(plane, rows[j].kind);
      assert rows[0..DEFAULT_LIMIT] == page;
      assert j >= DEFAULT_LIMIT ==> rows[DEFAULT_LIMIT..][j - DEFAULT_LIMIT] == rows[j];
      assert !GapAt(plane, rows, 0);
    }
  }

  lemma SliceBehind(rows: seq<Row>, n: nat, i: nat, m: nat)
    requires n + i + m <= |rows|
    ensures rows[n..][i..i + m] == rows[n + i..n + i + m]
    ensures rows[n..][i + m..] == rows[n + i + m..]
  {
  }

  lemma NoGapSurvives(plane: Plane, rows: seq<Row>)
    requires !HasGap(plane, rows)
    ensures !HasGap(plane, AfterRound(plane, rows))
  {
    hide Reach, Silent;
    var n := Reach(plane, Take(rows, DEFAULT_LIMIT));
    forall i: nat ensures GapAt(plane, rows[n..], i) ==> GapAt(plane, rows, n + i) {
      if n + i + DEFAULT_LIMIT <= |rows| { SliceBehind(rows, n, i, DEFAULT_LIMIT); }
    }
  }

  lemma {:induction false} NoGapSettles(plane: Plane, rows: seq<Row>) returns (k: nat)
    requires !HasGap(plane, rows)
    ensures Settled(plane, rows, k) && k <= |rows|
    decreases |rows|
  {
    if Silent(plane, rows) {
      k := 0;
    } else {
      NoGapAdvances(plane, rows);
      NoGapSurvives(plane, rows);
      k := NoGapSettles(plane, AfterRound(plane, rows));
      k := k + 1;
    }
  }

  /** Repeated backfills deliver every outstanding row exactly when no run of a whole page of
      untranslatable rows precedes a translatable one. */
  lemma CatchesUpIffNoGap(plane: Plane, rows: seq<Row>)
    ensures (exists k: nat :: Settled(plane, rows, k)) <==> !HasGap(plane, rows)
  {
    if HasGap(plane, rows) {
      var i: nat :| GapAt(plane, rows, i);
      forall k: nat ensures !Settled(plane, rows, k) {
        GapNeverSettles(plane, rows, i, k);
      }
    } else {
      var k := NoGapSettles(plane, rows);
      assert Settled(plane, rows, k);
    }
  }

  /** With a gap the rounds run into a whole page that does not move them. */
  lemma {:induction false} GapReachesPage(plane: Plane, rows: seq<Row>) returns (k: nat)
    requires HasGap(plane, rows)
    ensures var rest := AfterRounds(plane, rows, k);
            |rest| >= DEFAULT_LIMIT && Silent(plane, rest[..DEFAULT_LIMIT]) && !Silent(plane, rest)
    decreases |rows|
  {
    var i: nat :| GapAt(plane, rows, i);
    if Reach(plane, Take(rows, DEFAULT_LIMIT)) == 0 {
      k := 0;
      var j :| 0 <= j < |rows[i + DEFAULT_LIMIT..]| && Translates(plane, rows[i + DEFAULT_LIMIT..][j].kind);
      assert rows[i + DEFAULT_LIMIT + j] == rows[i + DEFAULT_LIMIT..][j];
    } else {
      GapSurvivesRound(plane, rows, i);
      k := GapReachesPage(plane, AfterRound(plane, rows));
      k := k + 1;
    }
  }

  // ---------------------------------------------------------------- a stall is permanent

  /** The next page after `s` is full and nothing in it translates. */
  ghost predicate Blocked(plane: Plane, log: seq<Row>, s: int) {
    && |Outstanding(plane, log, s)| >= DEFAULT_LIMIT
    && Silent(plane, Outstanding(plane, log, s)[..DEFAULT_LIMIT])
  }

  lemma {:induction false} LaterCursorIsSuffix(plane: Plane, log: seq<Row>, r: int, s: int) returns (k: nat)
    requires Ascending(log) && r <= s
    ensures k <= |Outstanding(plane, log, r)|
    ensures Outstanding(plane, log, s) == Outstanding(plane, log, r)[k..]
    ensures forall i :: 0 <= i < k ==> Outstanding(plane, log, r)[i].seqNo <= s
  {
    k := 0;
    if log != [] {
      var init, last := log[..|log| - 1], log[|log| - 1];
      OutstandingStep(plane, log, r);
      OutstandingStep(plane, log, s);
      hide Outstanding, Readable;
      k := LaterCursorIsSuffix(plane, init, r, s);
      if r < last.seqNo <= s && Readable(plane, last) {
        NothingOutstanding(plane, init, s);
        k := k + 1;
      }
    }
  }

  /** From any cursor at or before the stall, no read returns a frame beyond it. */
  lemma BlockedRead(plane: Plane, log: seq<Row>, r: int, s: int)
    requires Ascending(log) && r <= s && Blocked(plane, log, s)
    ensures forall f :: f in FramesAfter(plane, log, r) ==> f.seqNo <= s
  {
    var all := Outstanding(plane, log, r);
    var k := LaterCursorIsSuffix(plane, log, r, s);
    var page := ReadPage(plane, log, r, DEFAULT_LIMIT);
    TranslatedMembers(plane, page);
    forall i | k <= i < |page| ensures !Translates(plane, page[i].kind) {
      assert page[i] == all[k..][i - k] == Outstanding(plane, log, s)[..DEFAULT_LIMIT][i - k];
    }
    forall f | f in Translated(plane, page) ensures f.seqNo <= s {
      var i :| 0 <= i < |page| && page[i] == f;
      assert i < k;
    }
  }

  /** Nothing beyond the stall is ahead of the connection. */
  ghost predicate Stalled(w: World, s: int) {
    && Ascending(w.log)
    && Blocked(w.plane, w.log, s)
    && w.conn.cursor <= s && w.conn.resume <= s
    && (forall f :: f in w.conn.pending ==> f.seqNo <= s)
  }

  /** Everything the client was ever sent. */
  function AllNotes(w: World): seq<Note> { w.past + w.conn.notes }

  /** No history frame beyond `s` is among the notes. */
  ghost predicate HistoryUpTo(notes: seq<Note>, s: int) {
    forall n :: n in notes && n.Sent? && n.frame.History? ==> n.frame.row.seqNo <= s
  }

  lemma StalledAppend(w: World, s: int, row: Row)
    requires Stalled(w, s) && Appendable(w.log, row)
    ensures Stalled(w.(log := w.log + [row]), s)
  {
    var log' := w.log + [row];
    OutstandingGrows(w.plane, w.log, log', s);
    assert Outstanding(w.plane, log', s)[..DEFAULT_LIMIT] == Outstanding(w.plane, w.log, s)[..DEFAULT_LIMIT];
  }

  lemma StalledDeliver(w: World, s: int, now: int)
    requires Stalled(w, s) && w.conn.pending != []
    ensures Stalled(w.(conn := DeliverHead(w.conn, now)), s)
    ensures Adds(w, w.(conn := DeliverHead(w.conn, now)), s)
  {
    assert w.conn.pending[0] in w.conn.pending;
    var c := w.conn.(pending := w.conn.pending[1..], cursor := w.conn.pending[0].seqNo);
    NoteAdds(w, w.conn.notes, s);
    NoteAdds(w, w.conn.notes + [Sent(History(w.conn.pending[0]))], s);
  }

  lemma StalledIdle(w: World, s: int, now: int, later: int)
    requires Stalled(w, s)
    ensures Stalled(w.(conn := OnIdle(w.plane, w.log, w.conn, now, later)), s)
    ensures Adds(w, w.(conn := OnIdle(w.plane, w.log, w.conn, now, later)), s)
  {
    BlockedRead(w.plane, w.log, w.conn.cursor, s);
    StalledBeat(w, s, if w.plane == SessionPlane then now else later);
    NoteAdds(w, w.conn.notes, s);
  }

  lemma StalledBeat(w: World, s: int, now: int)
    requires Stalled(w, s)
    ensures Stalled(w.(conn := Beat(w.conn, now)), s) && Adds(w, w.(conn := Beat(w.conn, now)), s)
  {
    NoteAdds(w, w.conn.notes, s);
    NoteAdds(w, w.conn.notes + [Sent(Heartbeat(w.conn.cursor))], s);
  }

  /** What is sent from `w` to `v` holds no history frame beyond `s`. */
  ghost predicate Adds(w: World, v: World, s: int) {
    AllNotes(w) <= AllNotes(v) && HistoryUpTo(AllNotes(v)[|AllNotes(w)|..], s)
  }

  lemma NoteAdds(w: World, notes: seq<Note>, s: int)
    requires notes == w.conn.notes || (|notes| == |w.conn.notes| + 1 && w.conn.notes <= notes)
    requires notes != w.conn.notes ==> HistoryUpTo([notes[|notes| - 1]], s)
    ensures AllNotes(w) <= w.past + notes && HistoryUpTo((w.past + notes)[|AllNotes(w)|..], s)
  {
    var all := w.past + notes;
    if notes == w.conn.notes {
      assert all[|AllNotes(w)|..] == [];
    } else {
      assert notes == w.conn.notes + [notes[|notes| - 1]];
      assert all == AllNotes(w) + [notes[|notes| - 1]];
      assert all[|AllNotes(w)|..] == [notes[|notes| - 1]];
    }
  }

  lemma AddsAgain(u: World, v: World, w: World, s: int)
    requires Adds(u, v, s) && Adds(v, w, s)
    ensures Adds(u, w, s)
  {
    var a, b, c := AllNotes(u), AllNotes(v), AllNotes(w);
    assert c[|a|..] == b[|a|..] + c[|b|..];
  }

  lemma StalledLive(w: World, s: int, e: LiveEvent, now: int)
    requires Stalled(w, s)
    ensures Stalled(w.(conn := TakeLive(w.plane, w.conn, e, now)), s)
    ensures Adds(w, w.(conn := TakeLive(w.plane, w.conn, e, now)), s)
  {
    NoteAdds(w, w.conn.notes, s);
    NoteAdds(w, w.conn.notes + [Sent(Live(e))], s);
    if e.uid.Some? { NoteAdds(w, w.conn.notes + [Swallowed(e.uid.value)], s); }
  }

  lemma StalledReopen(w: World, s: int, afterSeq: int, now: int)
    requires Stalled(w, s) && Resumable(w, afterSeq)
    ensures Stalled(Reopen(w, afterSeq, now), s) && Adds(w, Reopen(w, afterSeq, now), s)
  {
    BlockedRead(w.plane, w.log, afterSeq, s);
    assert AllNotes(Reopen(w, afterSeq, now)) == AllNotes(w);
    NoteAdds(w, w.conn.notes, s);
  }

  lemma StalledStep(w: World, s: int, step: Step)
    requires Stalled(w, s)
    ensures Stalled(Apply(w, step), s) && Adds(w, Apply(w, step), s)
  {
    NoteAdds(w, w.conn.notes, s);
    var c := w.conn;
    match step
    case Append(row) => if Appendable(w.log, row) { StalledAppend(w, s, row); }
    case Deliver(now) => if c.pending != [] { StalledDeliver(w, s, now); }
    case EndReplay(now) =>
    case Idle(now, later) => StalledIdle(w, s, now, later);
    case EndBackfill(now) => StalledBeat(w, s, now);
    case LiveItem(e, now) => StalledLive(w, s, e, now);
    case PushItem(now) => NoteAdds(w, c.notes + [Sent(Push)], s);
    case Reconnect(afterSeq, now) => if Resumable(w, afterSeq) { StalledReopen(w, s, afterSeq, now); }
  }

  /** A stall outlives every later append, live frame, tick and reconnect: the cursor never
      passes it and no durable row beyond it is replayed any more. */
  lemma {:induction false} StallIsPermanent(w: World, s: int, steps: seq<Step>)
    requires Stalled(w, s)
    ensures Stalled(Run(w, steps), s)
    ensures Run(w, steps).conn.cursor <= s
    ensures Adds(w, Run(w, steps), s)
  {
    if steps == [] {
      NoteAdds(w, w.conn.notes, s);
    } else {
      var v := Run(w, steps[..|steps| - 1]);
      hide Stalled, Apply;
      StallIsPermanent(w, s, steps[..|steps| - 1]);
      StalledStep(v, s, steps[|steps| - 1]);
      AddsAgain(w, v, Run(w, steps), s);
      CursorOfStalled(Run(w, steps), s);
    }
  }

  lemma CursorOfStalled(w: World, s: int)
    requires Stalled(w, s)
    ensures w.conn.cursor <= s
  {
  }

  lemma {:induction false} AllOutstanding(plane: Plane, log: seq<Row>, cursor: int)
    requires forall i :: 0 <= i < |log| ==> log[i].seqNo > cursor && Readable(plane, log[i])
    ensures Outstanding(plane, log, cursor) == log
  {
    if log != [] { AllOutstanding(plane, log[..|log| - 1], cursor); }
  }

  /** A page of rows with no legacy counterpart, then one message of the user. */
  function StalledLog(): seq<Row> {
    seq(DEFAULT_LIMIT + 1, i => Row(i + 1, None, if i < DEFAULT_LIMIT then Unmapped("checkpoint") else UserMessage))
  }

  /** A concrete session whose last message no connection opened at 0 ever replays. */
  lemma StallExample(now: int, steps: seq<Step>)
    ensures StalledLog()[DEFAULT_LIMIT].kind == UserMessage
    ensures Run(Start(SessionPlane, StalledLog(), 0, now), steps).conn.cursor <= 0
    ensures var w := Run(Start(SessionPlane, StalledLog(), 0, now), steps);
            HistoryUpTo(w.past + w.conn.notes, 0)
  {
    var log := StalledLog();
    AllOutstanding(SessionPlane, log, 0);
    assert log[..DEFAULT_LIMIT + 1] == log;
    forall i | 0 <= i < DEFAULT_LIMIT ensures !Translates(SessionPlane, log[..DEFAULT_LIMIT][i].kind) {
      assert log[..DEFAULT_LIMIT][i] == log[i];
    }
    assert Blocked(SessionPlane, log, 0);
    BlockedRead(SessionPlane, log, 0, 0);
    var w := Start(SessionPlane, log, 0, now);
    StallIsPermanent(w, 0, steps);
    assert AllNotes(w) == [];
    assert AllNotes(Run(w, steps))[0..] == AllNotes(Run(w, steps));
  }
}
