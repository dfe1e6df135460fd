// What clients come back with: durable seqs they were told, which is always safe, or the seq of
// whatever frame came last, live frames included, which is safe under an exact condition only.

module StreamClients {
  import opened Options
  import opened DurableLog
  import opened EventMerge
  import opened StreamSafety
  import opened StreamProgress

  /** Every history frame is a row of the log; what this connection told is durable and not
      beyond the resume point. */
  ghost predicate Told(w: World) {
    && (forall n :: n in AllNotes(w) && IsHistory(n) ==> n.frame.row in w.log)
    && (forall n :: n in w.conn.notes && TellsSeq(n).Some? ==>
          w.first <= TellsSeq(n).value <= w.conn.resume && DurableSeq(w.plane, w.log, w.first, TellsSeq(n).value))
  }

  /** The durable seq a note carries. */
  function TellsSeq(n: Note): Option<int> {
    match n
    case Sent(History(row)) => Some(row.seqNo)
    case Sent(Heartbeat(s)) => Some(s)
    case _ => None
  }

  lemma NoteKeepsTold(kindOf: Uid -> Kind, first: int, w: World, c: Conn, n: Note)
    requires Inv(kindOf, first, w) && Told(w)
    requires c.notes == w.conn.notes + [n]
             && c.resume == (if TellsSeq(n).Some? then TellsSeq(n).value else w.conn.resume)
    requires TellsSeq(n).Some?
       ==> w.conn.resume <= TellsSeq(n).value && DurableSeq(w.plane, w.log, first, TellsSeq(n).value)
    requires IsHistory(n) ==> n.frame.row in w.log
    ensures Told(w.(conn := c))
  {
    hide DurableSeq, Covered, Waiting, Honest;
    var v := w.(conn := c);
    assert AllNotes(v) == AllNotes(w) + [n];
  }

  lemma SameKeepsTold(w: World, c: Conn)
    requires Told(w) && c.notes == w.conn.notes && c.resume == w.conn.resume
    ensures Told(w.(conn := c))
  {
    assert AllNotes(w.(conn := c)) == AllNotes(w);
  }

  lemma BeatKeepsTold(kindOf: Uid -> Kind, first: int, w: World, now: int)
    requires Inv(kindOf, first, w) && Told(w)
    ensures Told(w.(conn := Beat(w.conn, now)))
  {
    hide Told, Covered, Waiting, Honest, DurableSeq;
    SameKeepsTold(w, w.conn);
    if Beat(w.conn, now) != w.conn {
      NoteKeepsTold(kindOf, first, w, Beat(w.conn, now), Sent(Heartbeat(w.conn.cursor)));
    }
  }

  lemma DeliverKeepsTold(kindOf: Uid -> Kind, first: int, w: World, now: int)
    requires Inv(kindOf, first, w) && Told(w) && w.conn.pending != []
    ensures Told(w.(conn := DeliverHead(w.conn, now)))
  {
    hide Told, Covered, Honest;
    var c, row := w.conn, w.conn.pending[0];
    assert row in c.pending;
    var c1 := c.(pending := c.pending[1..], cursor := row.seqNo);
    if Duplicate(c1, row.uid) {
      SameKeepsTold(w, c1);
    } else {
      NoteKeepsTold(kindOf, first, w, DeliverHead(c, now), Sent(History(row)));
    }
  }

  lemma LiveKeepsTold(kindOf: Uid -> Kind, first: int, w: World, e: LiveEvent, now: int)
    requires Inv(kindOf, first, w) && Told(w)
    ensures Told(w.(conn := TakeLive(w.plane, w.conn, e, now)))
  {
    hide Told, Inv;
    var c := TakeLive(w.plane, w.conn, e, now);
    if c.notes == w.conn.notes {
      SameKeepsTold(w, c);
    } else if Translates(w.plane, e.kind) {
      NoteKeepsTold(kindOf, first, w, c, Sent(Live(e)));
    } else {
      NoteKeepsTold(kindOf, first, w, c, Swallowed(e.uid.value));
    }
  }

  lemma AppendKeepsTold(w: World, row: Row)
    requires Told(w)
    ensures Told(w.(log := w.log + [row]))
  {
    var v := w.(log := w.log + [row]);
    assert AllNotes(v) == AllNotes(w);
    forall s | DurableSeq(w.plane, w.log, w.first, s) ensures DurableSeq(w.plane, v.log, w.first, s) {}
  }

  lemma ReopenKeepsTold(w: World, afterSeq: int, now: int)
    requires Told(w)
    ensures Told(Reopen(w, afterSeq, now)) && AllNotes(Reopen(w, afterSeq, now)) == AllNotes(w)
  {
    hide DurableSeq, FramesAfter;
    assert AllNotes(w) + [] == AllNotes(w);
  }

  lemma StepKeepsTold(kindOf: Uid -> Kind, first: int, w: World, s: Step)
    requires Inv(kindOf, first, w) && Told(w)
    ensures Told(Apply(w, s))
  {
    hide Told, Inv;
    var c := w.conn;
    match s
    case Append(row) => AppendKeepsTold(w, row);
    case Deliver(now) => if c.pending != [] { DeliverKeepsTold(kindOf, first, w, now); }
    case EndReplay(now) => SameKeepsTold(w, StartLoop(w.plane, c, now));
    case Idle(now, later) =>
      BeatKeepsTold(kindOf, first, w, if w.plane == SessionPlane then now else later);
      SameKeepsTold(w, c.(lastPoll := now, phase := Backfilling, pending := FramesAfter(w.plane, w.log, c.cursor)));
    case EndBackfill(now) =>
      BeatKeepsTold(kindOf, first, w, now);
      SameKeepsTold(w.(conn := Beat(c, now)), Beat(c, now).(phase := Looping));
    case LiveItem(e, now) => LiveKeepsTold(kindOf, first, w, e, now);
    case PushItem(now) => NoteKeepsTold(kindOf, first, w, Send(c, Push, now), Sent(Push));
    case Reconnect(afterSeq, now) => ReopenKeepsTold(w, afterSeq, now);
  }

  lemma {:induction false} RunKeepsTold(
      kindOf: Uid -> Kind, plane: Plane, log: seq<Row>, afterSeq: int, now: int, steps: seq<Step>)
    requires Admissible(kindOf, log, steps)
    ensures Told(Run(Start(plane, log, afterSeq, now), steps))
  {
    hide Told, Inv;
    if steps == [] {
      NothingTold(plane, log, afterSeq, now);
    } else {
      var init := steps[..|steps| - 1];
      assert forall s :: s in init ==> s in steps;
      RunKeepsTold(kindOf, plane, log, afterSeq, now, init);
      RunKeepsInv(kindOf, plane, log, afterSeq, now, init);
      StepKeepsTold(kindOf, afterSeq, Run(Start(plane, log, afterSeq, now), init), steps[|steps| - 1]);
    }
  }

  lemma NothingTold(plane: Plane, log: seq<Row>, afterSeq: int, now: int)
    ensures Told(Start(plane, log, afterSeq, now))
  {
  }

  /** A client that keeps to what history frames or heartbeats told it on a connection, the newest
      or any earlier one, may resume from it. */
  lemma ToldSeqsAreResumable(
      kindOf: Uid -> Kind, plane: Plane, log: seq<Row>, afterSeq: int, now: int, steps: seq<Step>, n: Note)
    requires Admissible(kindOf, log, steps)
    requires n in Run(Start(plane, log, afterSeq, now), steps).conn.notes && TellsSeq(n).Some?
    ensures Resumable(Run(Start(plane, log, afterSeq, now), steps), TellsSeq(n).value)
  {
    var w := Run(Start(plane, log, afterSeq, now), steps);
    RunKeepsTold(kindOf, plane, log, afterSeq, now, steps);
    hide Run, Start;
    var s := TellsSeq(n).value;
    if s != w.first {
      var r :| r in w.log && r.seqNo == s && Translates(w.plane, r.kind);
      var i :| 0 <= i < |w.log| && w.log[i] == r;
    }
  }
}
