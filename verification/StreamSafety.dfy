// No loss, resumability and bounded exactly-once delivery, over every run of the merge.

module StreamSafety {
  import opened Options
  import opened DurableLog
  import opened Seen
  import opened EventMerge

  /** Live and durable copies of one uid carry the same event type. */
  ghost predicate RowAgrees(kindOf: Uid -> Kind, r: Row) {
    r.uid.Some? ==> kindOf(r.uid.value) == r.kind
  }

  ghost predicate StepAgrees(kindOf: Uid -> Kind, s: Step) {
    match s
    case Append(row) => RowAgrees(kindOf, row)
    case LiveItem(e, _) => e.uid.Some? ==> kindOf(e.uid.value) == e.kind
    case _ => true
  }

  ghost predicate Shown(notes: seq<Note>, uid: Uid) {
    exists n :: n in notes && n.Sent? && FrameUid(n.frame) == Some(uid)
  }

  /** The row reached the client, as itself or as a live frame with the same uid. */
  ghost predicate Reached(notes: seq<Note>, r: Row) {
    Sent(History(r)) in notes || (r.uid.Some? && Shown(notes, r.uid.value))
  }

  /** Every translatable row in (first, cursor] reached the client. */
  ghost predicate Covered(plane: Plane, log: seq<Row>, first: int, cursor: int, notes: seq<Note>) {
    forall r :: r in log && first < r.seqNo <= cursor && Translates(plane, r.kind) ==> Reached(notes, r)
  }

  /** The pending rows are the translatable rows after the cursor, without gaps. */
  ghost predicate Waiting(plane: Plane, log: seq<Row>, c: Conn) {
    && Ascending(c.pending)
    && (forall r :: r in c.pending ==> r in log && r.seqNo > c.cursor && Translates(plane, r.kind))
    && (c.pending != [] ==> forall r ::
          r in log && c.cursor < r.seqNo <= c.pending[|c.pending| - 1].seqNo && Translates(plane, r.kind)
          ==> r in c.pending)
    && (c.phase == Looping ==> c.pending == [])
  }

  /** Every remembered uid was shown on this connection or cannot be shown at all. */
  ghost predicate Honest(kindOf: Uid -> Kind, plane: Plane, c: Conn) {
    forall u :: u in c.order ==> Shown(c.notes, u) || !Translates(plane, kindOf(u))
  }

  ghost predicate DurableSeq(plane: Plane, log: seq<Row>, first: int, s: int) {
    s == first || exists r :: r in log && r.seqNo == s && Translates(plane, r.kind)
  }

  /** The client's resume point never passes the cursor; both are durable seqs. */
  ghost predicate Anchored(plane: Plane, log: seq<Row>, first: int, c: Conn) {
    && first <= c.resume <= c.cursor
    && DurableSeq(plane, log, first, c.resume)
    && DurableSeq(plane, log, first, c.cursor)
  }

  ghost predicate Inv(kindOf: Uid -> Kind, first: int, w: World) {
    && w.first == first && Ascending(w.log)
    && (forall r :: r in w.log ==> RowAgrees(kindOf, r))
    && Waiting(w.plane, w.log, w.conn)
    && Honest(kindOf, w.plane, w.conn)
    && Anchored(w.plane, w.log, first, w.conn)
    && Covered(w.plane, w.log, first, w.conn.cursor, w.past + w.conn.notes)
  }

  // ---------------------------------------------------------------- steps

  lemma MoreNotesKeepCovered(plane: Plane, log: seq<Row>, first: int, cursor: int, notes: seq<Note>, more: seq<Note>)
    requires Covered(plane, log, first, cursor, notes)
    requires notes <= more
    ensures Covered(plane, log, first, cursor, more)
  {
    forall r | r in log && first < r.seqNo <= cursor && Translates(plane, r.kind) ensures Reached(more, r) {
      assert Reached(notes, r);
      if Sent(History(r)) !in notes {
        ShownGrows(notes, more, r.uid.value);
      }
    }
  }

  lemma ShownGrows(notes: seq<Note>, more: seq<Note>, uid: Uid)
    requires Shown(notes, uid)
    requires forall n :: n in notes ==> n in more
    ensures Shown(more, uid)
  {
  }

  /** What one durable read puts in front of the loop. */
  lemma ReadLeavesNoGap(plane: Plane, log: seq<Row>, cursor: int)
    requires Ascending(log)
    ensures var frames := FramesAfter(plane, log, cursor);
            && Ascending(frames)
            && (forall r :: r in frames ==> r in log && r.seqNo > cursor && Translates(plane, r.kind))
            && (frames != [] ==> forall r ::
                  r in log && cursor < r.seqNo <= frames[|frames| - 1].seqNo && Translates(plane, r.kind) ==>
                    r in frames)
  {
    var all := Outstanding(plane, log, cursor);
    var page := ReadPage(plane, log, cursor, DEFAULT_LIMIT);
    OutstandingMembers(plane, log, cursor);
    OutstandingAscending(plane, log, cursor);
    TranslatedMembers(plane, page);
    TranslatedAscending(plane, page);
    var frames := Translated(plane, page);
    if frames != [] {
      var last := frames[|frames| - 1];
      assert last in page;
      forall r | r in log && cursor < r.seqNo <= last.seqNo && Translates(plane, r.kind) ensures r in frames {
        assert r in all;
        PrefixHolds(all, |page|, r, last);
      }
    }
  }

  lemma PrefixHolds(all: seq<Row>, n: nat, r: Row, bound: Row)
    requires Ascending(all) && n <= |all|
    requires r in all && bound in all[..n] && r.seqNo <= bound.seqNo
    ensures r in all[..n]
  {
    var i :| 0 <= i < |all| && all[i] == r;
    var j :| 0 <= j < n && all[..n][j] == bound;
    assert all[j] == bound;
    assert i <= j;
    assert all[..n][i] == r;
  }

  lemma ReconnectKeepsInv(kindOf: Uid -> Kind, first: int, w: World, afterSeq: int, now: int)
    requires Inv(kindOf, first, w) && Resumable(w, afterSeq)
    ensures Inv(kindOf, first, Reopen(w, afterSeq, now))
  {
    hide FramesAfter;
    ReadLeavesNoGap(w.plane, w.log, afterSeq);
    assert w.past + w.conn.notes + [] == w.past + w.conn.notes;
    assert DurableSeq(w.plane, w.log, first, afterSeq);
  }

  /** What is appended lies beyond everything the connection read. */
  lemma CursorBehind(w: World, first: int, row: Row)
    requires DurableSeq(w.plane, w.log, first, w.conn.cursor)
    requires forall r :: r in w.log ==> r.seqNo < row.seqNo
    ensures w.conn.cursor == first || w.conn.cursor < row.seqNo
  {
  }

  lemma AppendAscends(log: seq<Row>, row: Row)
    requires Ascending(log) && Appendable(log, row)
    ensures Ascending(log + [row]) && forall r :: r in log ==> r.seqNo < row.seqNo
  {
  }

  lemma AppendLeavesNoGap(w: World, row: Row)
    requires Waiting(w.plane, w.log, w.conn) && forall r :: r in w.log ==> r.seqNo < row.seqNo
    ensures Waiting(w.plane, w.log + [row], w.conn)
  {
    var c := w.conn;
    if c.pending != [] { assert c.pending[|c.pending| - 1] in c.pending; }
  }

  lemma AppendKeepsInv(kindOf: Uid -> Kind, first: int, w: World, row: Row)
    requires Inv(kindOf, first, w) && RowAgrees(kindOf, row) && Appendable(w.log, row)
    ensures Inv(kindOf, first, w.(log := w.log + [row]))
  {
    hide Shown, Reached, Honest;
    var log' := w.log + [row];
    AppendAscends(w.log, row);
    assert DurableSeq(w.plane, log', first, w.conn.cursor);
    assert DurableSeq(w.plane, log', first, w.conn.resume);
    CursorBehind(w, first, row);
    AppendLeavesNoGap(w, row);
    hide Waiting, Ascending;
  }

  /** Sending one more frame on a connection, with its uid remembered first. */
  lemma SendKeepsHonest(kindOf: Uid -> Kind, plane: Plane, c: Conn, f: Frame, now: int)
    requires Honest(kindOf, plane, c)
    ensures Honest(kindOf, plane, Send(Noting(c, FrameUid(f)), f, now))
  {
    var c' := Send(Noting(c, FrameUid(f)), f, now);
    assert Sent(f) in c'.notes;
    forall u | u in c'.order ensures Shown(c'.notes, u) || !Translates(plane, kindOf(u)) {
      if FrameUid(f) != Some(u) {
        assert u in c.order;
        if Shown(c.notes, u) { ShownGrows(c.notes, c'.notes, u); }
      }
    }
  }

  lemma DeliverKeepsInv(kindOf: Uid -> Kind, first: int, w: World, now: int)
    requires Inv(kindOf, first, w) && w.conn.pending != []
    ensures Inv(kindOf, first, w.(conn := DeliverHead(w.conn, now)))
  {
    var c, row := w.conn, w.conn.pending[0];
    var c1 := c.(pending := c.pending[1..], cursor := row.seqNo);
    var c' := DeliverHead(c, now);
    assert row in c.pending;
    assert DurableSeq(w.plane, w.log, first, row.seqNo);
    DeliverLeavesNoGap(w.plane, w.log, c);
    var before, after := w.past + c.notes, w.past + c'.notes;
    if Duplicate(c1, row.uid) {
      assert Shown(c.notes, row.uid.value);
      ShownGrows(c.notes, before, row.uid.value);
    } else {
      SendKeepsHonest(kindOf, w.plane, c1, History(row), now);
      assert after == before + [Sent(History(row))];
      MoreNotesKeepCovered(w.plane, w.log, first, c.cursor, before, after);
    }
    assert Reached(after, row);
    forall r | r in w.log && first < r.seqNo <= c'.cursor && Translates(w.plane, r.kind) ensures Reached(after, r) {
      if r.seqNo > c.cursor {
        assert r in c.pending;
        assert r == row;
      } else {
        assert Reached(before, r);
      }
    }
  }

  /** Dropping the head of the pending rows moves the gap-free window along. */
  lemma DeliverLeavesNoGap(plane: Plane, log: seq<Row>, c: Conn)
    requires Waiting(plane, log, c) && c.pending != []
    ensures Waiting(plane, log, c.(pending := c.pending[1..], cursor := c.pending[0].seqNo))
  {
    var c1 := c.(pending := c.pending[1..], cursor := c.pending[0].seqNo);
    assert c.pending == [c.pending[0]] + c1.pending;
    forall r | r in c1.pending ensures r in log && r.seqNo > c1.cursor && Translates(plane, r.kind) {
      assert r in c.pending;
    }
  }

  lemma LiveKeepsInv(kindOf: Uid -> Kind, first: int, w: World, e: LiveEvent, now: int)
    requires Inv(kindOf, first, w) && w.conn.phase == Looping
    requires StepAgrees(kindOf, LiveItem(e, now))
    ensures Inv(kindOf, first, w.(conn := TakeLive(w.plane, w.conn, e, now)))
  {
    var c' := TakeLive(w.plane, w.conn, e, now);
    if c' != w.conn {
      if Translates(w.plane, e.kind) {
        SendKeepsHonest(kindOf, w.plane, w.conn, Live(e), now);
      } else {
        forall u | u in c'.order ensures Shown(c'.notes, u) || !Translates(w.plane, kindOf(u)) {
          if u != e.uid.value {
            assert u in w.conn.order;
            if Shown(w.conn.notes, u) { ShownGrows(w.conn.notes, c'.notes, u); }
          }
        }
      }
      MoreNotesKeepCovered(w.plane, w.log, first, w.conn.cursor, w.past + w.conn.notes, w.past + c'.notes);
    }
  }

  /** Frames without a uid (pushes and heartbeats) change nothing that was promised. */
  lemma PlainSendKeepsInv(kindOf: Uid -> Kind, first: int, w: World, f: Frame, now: int)
    requires Inv(kindOf, first, w)
    requires f.Push? || f == Heartbeat(w.conn.cursor)
    ensures Inv(kindOf, first, w.(conn := Send(w.conn, f, now)))
  {
    var c' := Send(w.conn, f, now);
    SendKeepsHonest(kindOf, w.plane, w.conn, f, now);
    MoreNotesKeepCovered(w.plane, w.log, first, w.conn.cursor, w.past + w.conn.notes, w.past + c'.notes);
  }

  lemma IdleKeepsInv(kindOf: Uid -> Kind, first: int, w: World, now: int, later: int)
    requires Inv(kindOf, first, w) && w.conn.phase == Looping
    ensures Inv(kindOf, first, w.(conn := OnIdle(w.plane, w.log, w.conn, now, later)))
  {
    hide Shown, Covered, DurableSeq, FramesAfter, Ascending;
    var c' := OnIdle(w.plane, w.log, w.conn, now, later);
    if c'.phase == Looping {
      PlainSendKeepsInv(kindOf, first, w, Heartbeat(w.conn.cursor), if w.plane == SessionPlane then now else later);
    } else {
      ReadLeavesNoGap(w.plane, w.log, w.conn.cursor);
    }
  }

  lemma BeatKeepsInv(kindOf: Uid -> Kind, first: int, w: World, now: int)
    requires Inv(kindOf, first, w) && w.conn.pending == []
    ensures Inv(kindOf, first, w.(conn := Beat(w.conn, now).(phase := Looping)))
  {
    PlainSendKeepsInv(kindOf, first, w, Heartbeat(w.conn.cursor), now);
  }

  lemma StepKeepsInv(kindOf: Uid -> Kind, first: int, w: World, s: Step)
    requires Inv(kindOf, first, w) && StepAgrees(kindOf, s)
    ensures Inv(kindOf, first, Apply(w, s))
  {
    var c := w.conn;
    match s
    case Append(row) => if Appendable(w.log, row) { AppendKeepsInv(kindOf, first, w, row); }
    case Deliver(now) => if c.pending != [] { DeliverKeepsInv(kindOf, first, w, now); }
    case EndReplay(now) =>
    case Idle(now, later) => if c.phase == Looping { IdleKeepsInv(kindOf, first, w, now, later); }
    case EndBackfill(now) => if c.phase == Backfilling && c.pending == [] { BeatKeepsInv(kindOf, first, w, now); }
    case LiveItem(e, now) => if c.phase == Looping { LiveKeepsInv(kindOf, first, w, e, now); }
    case PushItem(now) => PlainSendKeepsInv(kindOf, first, w, Push, now);
    case Reconnect(afterSeq, now) => if Resumable(w, afterSeq) { ReconnectKeepsInv(kindOf, first, w, afterSeq, now); }
  }

  // ---------------------------------------------------------------- whole runs

  ghost predicate Admissible(kindOf: Uid -> Kind, log: seq<Row>, steps: seq<Step>) {
    && Ascending(log)
    && (forall r :: r in log ==> RowAgrees(kindOf, r))
    && (forall s :: s in steps ==> StepAgrees(kindOf, s))
  }

  lemma StartHolds(kindOf: Uid -> Kind, plane: Plane, log: seq<Row>, afterSeq: int, now: int)
    requires Admissible(kindOf, log, [])
    ensures Inv(kindOf, afterSeq, Start(plane, log, afterSeq, now))
  {
    hide FramesAfter;
    ReadLeavesNoGap(plane, log, afterSeq);
  }

  lemma {:induction false} RunKeepsInv(
      kindOf: Uid -> Kind, plane: Plane, log: seq<Row>, afterSeq: int, now: int, steps: seq<Step>)
    requires Admissible(kindOf, log, steps)
    ensures Inv(kindOf, afterSeq, Run(Start(plane, log, afterSeq, now), steps))
    ensures Run(Start(plane, log, afterSeq, now), steps).plane == plane
  {
    hide Inv;
    if steps == [] {
      StartHolds(kindOf, plane, log, afterSeq, now);
    } else {
      var init := steps[..|steps| - 1];
      assert forall s :: s in init ==> s in steps;
      RunKeepsInv(kindOf, plane, log, afterSeq, now, init);
      StepKeepsInv(kindOf, afterSeq, Run(Start(plane, log, afterSeq, now), init), steps[|steps| - 1]);
    }
  }

  /** No loss, across drops, interleavings and any number of cuts and reconnects: every
      translatable durable row between the first `after_seq` and the cursor was sent,
      as a history frame or as a live frame carrying the same uid. */
  lemma NoLoss(kindOf: Uid -> Kind, plane: Plane, log: seq<Row>, afterSeq: int, now: int, steps: seq<Step>, r: Row)
    requires Admissible(kindOf, log, steps)
    requires var w := Run(Start(plane, log, afterSeq, now), steps);
             r in w.log && afterSeq < r.seqNo <= w.conn.cursor && Translates(plane, r.kind)
    ensures var w := Run(Start(plane, log, afterSeq, now), steps);
            Reached(w.past + w.conn.notes, r)
  {
    RunKeepsInv(kindOf, plane, log, afterSeq, now, steps);
  }

  /** The cursor and the client's resume point are durable seqs of translatable rows or the
      initial `after_seq`, and resuming never skips past what was read. */
  lemma CursorsAreDurable(kindOf: Uid -> Kind, plane: Plane, log: seq<Row>, afterSeq: int, now: int, steps: seq<Step>)
    requires Admissible(kindOf, log, steps)
    ensures var w := Run(Start(plane, log, afterSeq, now), steps);
            && afterSeq <= w.conn.resume <= w.conn.cursor
            && DurableSeq(plane, w.log, afterSeq, w.conn.resume)
            && DurableSeq(plane, w.log, afterSeq, w.conn.cursor)
  {
    RunKeepsInv(kindOf, plane, log, afterSeq, now, steps);
  }

  /** Within a connection the cursor never moves back. */
  lemma CursorMonotone(kindOf: Uid -> Kind, first: int, w: World, s: Step)
    requires Inv(kindOf, first, w) && !s.Reconnect?
    ensures w.conn.cursor <= Apply(w, s).conn.cursor
    ensures w.conn.resume <= Apply(w, s).conn.resume
  {
    if s.Deliver? && w.conn.pending != [] {
      assert w.conn.pending[0] in w.conn.pending;
    }
  }

  // ---------------------------------------------------------------- exactly once, in order

  /** The uids a connection accepted, oldest first. */
  function Accepted(notes: seq<Note>): seq<Uid> {
    if notes == [] then []
    else
      Accepted(notes[..|notes| - 1])
      + match NoteUid(notes[|notes| - 1]) case Some(u) => [u] case None => []
  }

  /** The remember-set is the tail of what was accepted, and history frames are sent in
      strictly increasing durable order. */
  ghost predicate Orderly(c: Conn) {
    && c.order == Last(Accepted(c.notes), SEEN_UIDS_MAX)
    && Windowed(SEEN_UIDS_MAX, Accepted(c.notes))
    && (forall i :: 0 <= i < |c.notes| && IsHistory(c.notes[i]) ==> c.notes[i].frame.row.seqNo <= c.cursor)
    && (forall i, j :: 0 <= i < j < |c.notes| && IsHistory(c.notes[i]) && IsHistory(c.notes[j])
          ==> c.notes[i].frame.row.seqNo < c.notes[j].frame.row.seqNo)
  }

  predicate IsHistory(n: Note) {
    n.Sent? && n.frame.History?
  }

  lemma NoteKeepsMemory(c: Conn, n: Note)
    requires Orderly(c) && !Duplicate(c, NoteUid(n))
    ensures Accepted(c.notes + [n]) == Accepted(c.notes) + if NoteUid(n).Some? then [NoteUid(n).value] else []
    ensures Noting(c, NoteUid(n)).order == Last(Accepted(c.notes + [n]), SEEN_UIDS_MAX)
    ensures Windowed(SEEN_UIDS_MAX, Accepted(c.notes + [n]))
  {
    assert (c.notes + [n])[..|c.notes|] == c.notes;
    if NoteUid(n).Some? {
      AcceptKeepsWindow(SEEN_UIDS_MAX, Accepted(c.notes), c.order, NoteUid(n).value);
    }
  }

  lemma SendKeepsOrderly(c: Conn, f: Frame, now: int)
    requires Orderly(c) && !Duplicate(c, FrameUid(f))
    requires f.History? ==> f.row.seqNo == c.cursor
    requires f.History? ==> forall i :: 0 <= i < |c.notes| && IsHistory(c.notes[i])
                              ==> c.notes[i].frame.row.seqNo < c.cursor
    ensures Orderly(Send(Noting(c, FrameUid(f)), f, now))
  {
    NoteKeepsMemory(c, Sent(f));
  }

  lemma DeliverKeepsOrderly(kindOf: Uid -> Kind, first: int, w: World, now: int)
    requires Inv(kindOf, first, w) && Orderly(w.conn) && w.conn.pending != []
    ensures Orderly(DeliverHead(w.conn, now))
  {
    var c, row := w.conn, w.conn.pending[0];
    assert row in c.pending;
    var c1 := c.(pending := c.pending[1..], cursor := row.seqNo);
    if !Duplicate(c1, row.uid) { SendKeepsOrderly(c1, History(row), now); }
  }

  lemma LiveKeepsOrderly(plane: Plane, c: Conn, e: LiveEvent, now: int)
    requires Orderly(c)
    ensures Orderly(TakeLive(plane, c, e, now))
  {
    hide Orderly;
    if !Duplicate(c, e.uid) {
      SendKeepsOrderly(c, Live(e), now);
      if e.uid.Some? { SwallowKeepsOrderly(c, e.uid.value); }
    }
  }

  lemma SwallowKeepsOrderly(c: Conn, uid: Uid)
    requires Orderly(c) && !Duplicate(c, Some(uid))
    ensures Orderly(Noting(c, Some(uid)).(notes := c.notes + [Swallowed(uid)]))
  {
    hide Accepted, Last, Windowed;
    NoteKeepsMemory(c, Swallowed(uid));
  }

  lemma BeatKeepsOrderly(c: Conn, now: int)
    requires Orderly(c)
    ensures Orderly(Beat(c, now))
  {
    SendKeepsOrderly(c, Heartbeat(c.cursor), now);
  }

  lemma IdleKeepsOrderly(plane: Plane, log: seq<Row>, c: Conn, now: int, later: int)
    requires Orderly(c)
    ensures Orderly(OnIdle(plane, log, c, now, later))
  {
    BeatKeepsOrderly(c, if plane == SessionPlane then now else later);
  }

  lemma StepKeepsOrderly(kindOf: Uid -> Kind, first: int, w: World, s: Step)
    requires Inv(kindOf, first, w) && Orderly(w.conn)
    ensures Orderly(Apply(w, s).conn)
  {
    var c := w.conn;
    match s
    case Append(row) =>
    case Deliver(now) => if c.pending != [] { DeliverKeepsOrderly(kindOf, first, w, now); }
    case EndReplay(now) =>
    case Idle(now, later) => IdleKeepsOrderly(w.plane, w.log, c, now, later);
    case EndBackfill(now) => BeatKeepsOrderly(c, now);
    case LiveItem(e, now) => LiveKeepsOrderly(w.plane, c, e, now);
    case PushItem(now) => SendKeepsOrderly(c, Push, now);
    case Reconnect(afterSeq, now) =>
  }

  lemma {:induction false} RunKeepsOrderly(
      kindOf: Uid -> Kind, plane: Plane, log: seq<Row>, afterSeq: int, now: int, steps: seq<Step>)
    requires Admissible(kindOf, log, steps)
    ensures Orderly(Run(Start(plane, log, afterSeq, now), steps).conn)
  {
    if steps != [] {
      var init := steps[..|steps| - 1];
      RunKeepsInv(kindOf, plane, log, afterSeq, now, init);
      RunKeepsOrderly(kindOf, plane, log, afterSeq, now, init);
      StepKeepsOrderly(kindOf, afterSeq, Run(Start(plane, log, afterSeq, now), init), steps[|steps| - 1]);
    }
  }

  lemma {:induction false} AcceptedSplit(a: seq<Note>, b: seq<Note>)
    ensures Accepted(a + b) == Accepted(a) + Accepted(b)
  {
    if b == [] {
      assert a + b == a;
    } else {
      AcceptedSplit(a, b[..|b| - 1]);
      assert (a + b)[..|a + b| - 1] == a + b[..|b| - 1];
    }
  }

  /** Bounded exactly-once on the wire: between two frames with one uid on a connection, at
      least SEEN_UIDS_MAX distinct other uids were accepted. */
  lemma ExactlyOnceUpToBound(
      kindOf: Uid -> Kind, plane: Plane, log: seq<Row>, afterSeq: int, now: int, steps: seq<Step>, p: nat, q: nat,
      uid: Uid)
    requires Admissible(kindOf, log, steps)
    requires var notes := Run(Start(plane, log, afterSeq, now), steps).conn.notes;
             p < q < |notes| && NoteUid(notes[p]) == NoteUid(notes[q]) == Some(uid)
    ensures var notes := Run(Start(plane, log, afterSeq, now), steps).conn.notes;
            |Elements(Accepted(notes[p + 1..q])) - {uid}| >= SEEN_UIDS_MAX
  {
    RunKeepsOrderly(kindOf, plane, log, afterSeq, now, steps);
    AcceptedFarApart(Run(Start(plane, log, afterSeq, now), steps).conn.notes, p, q, uid);
  }

  lemma AcceptedFarApart(notes: seq<Note>, p: nat, q: nat, uid: Uid)
    requires Windowed(SEEN_UIDS_MAX, Accepted(notes))
    requires p < q < |notes| && NoteUid(notes[p]) == NoteUid(notes[q]) == Some(uid)
    ensures |Elements(Accepted(notes[p + 1..q])) - {uid}| >= SEEN_UIDS_MAX
  {
    var a, b, d := notes[..p], notes[p + 1..q], notes[q + 1..];
    SplitAtTwo(notes, p, q);
    AcceptedAround(a, notes[p], b, notes[q], d, uid);
    AcceptancesBetween(Accepted(a), Accepted(b), Accepted(d), uid);
  }

  lemma SplitAtTwo<T>(s: seq<T>, p: nat, q: nat)
    requires p < q < |s|
    ensures s == s[..p] + [s[p]] + s[p + 1..q] + [s[q]] + s[q + 1..]
  {
    assert s[..q] == s[..p] + [s[p]] + s[p + 1..q];
    assert s == s[..q] + [s[q]] + s[q + 1..];
  }

  lemma AcceptancesBetween(x: seq<Uid>, y: seq<Uid>, z: seq<Uid>, uid: Uid)
    requires Windowed(SEEN_UIDS_MAX, x + [uid] + y + [uid] + z)
    ensures |Elements(y) - {uid}| >= SEEN_UIDS_MAX
  {
    hide Windowed, Elements;
    var i, j := |x|, |x| + 1 + |y|;
    var all := x + [uid] + y + [uid] + z;
    BetweenIs(x, y, z, uid);
    AcceptancesFarApart(SEEN_UIDS_MAX, all, i, j);
  }

  lemma BetweenIs(x: seq<Uid>, y: seq<Uid>, z: seq<Uid>, uid: Uid)
    ensures var all := x + [uid] + y + [uid] + z;
            && |x| + 1 + |y| < |all| && all[|x|] == uid && all[|x| + 1 + |y|] == uid && all[|x| + 1..|x| + 1 + |y|] == y
  {
  }

  lemma AcceptedAround(a: seq<Note>, m: Note, b: seq<Note>, n: Note, d: seq<Note>, uid: Uid)
    requires NoteUid(m) == NoteUid(n) == Some(uid)
    ensures Accepted(a + [m] + b + [n] + d) == Accepted(a) + [uid] + Accepted(b) + [uid] + Accepted(d)
  {
    AcceptedSplit(a + [m] + b + [n], d);
    AcceptedSplit(a + [m] + b, [n]);
    AcceptedSplit(a + [m], b);
    AcceptedSplit(a, [m]);
    assert Accepted([m]) == Accepted([n]) == [uid];
  }

  /** History frames of one connection arrive in strictly increasing durable order. */
  lemma HistoryInOrder(
      kindOf: Uid -> Kind, plane: Plane, log: seq<Row>, afterSeq: int, now: int, steps: seq<Step>, i: nat, j: nat)
    requires Admissible(kindOf, log, steps)
    requires var notes := Run(Start(plane, log, afterSeq, now), steps).conn.notes;
             i < j < |notes| && IsHistory(notes[i]) && IsHistory(notes[j])
    ensures var notes := Run(Start(plane, log, afterSeq, now), steps).conn.notes;
            notes[i].frame.row.seqNo < notes[j].frame.row.seqNo
  {
    RunKeepsOrderly(kindOf, plane, log, afterSeq, now, steps);
  }
}
