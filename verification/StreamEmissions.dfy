// What a client is sent and when, said of the steps of a run: every note has its step, and every
// step its notes.

module StreamEmissions {
  import opened Options
  import opened DurableLog
  import opened Seen
  import opened EventMerge
  import opened StreamSafety
  import opened StreamProgress
  import opened StreamRounds

  /** The uid is none of the last ones the connection accepted. */
  predicate IsNew(notes: seq<Note>, uid: Option<Uid>) {
    var accepted := Accepted(notes);
    uid.None?
    || forall k :: 0 <= k < |accepted| && |accepted| - SEEN_UIDS_MAX <= k ==> accepted[k] != uid.value
  }

  function Interval(plane: Plane): int {
    if plane == SessionPlane then SESSION_BACKFILL_MS else CONTROL_BACKFILL_MS
  }

  /** What one step adds, for a connection that last sent at `sent` and last polled at `polled`. */
  function Emission(w: World, s: Step, sent: int, polled: int): seq<Note> {
    var c := w.conn;
    match s
    case Deliver(_) =>
      if c.pending != [] && IsNew(c.notes, c.pending[0].uid) then [Sent(History(c.pending[0]))] else []
    case LiveItem(e, _) =>
      if c.phase != Looping || !IsNew(c.notes, e.uid) then []
      else if Translates(w.plane, e.kind) then [Sent(Live(e))]
      else if w.plane == SessionPlane && e.uid.Some? then [Swallowed(e.uid.value)]
      else []
    case PushItem(_) => if c.phase == Looping then [Sent(Push)] else []
    case Idle(now, later) =>
      var t := if w.plane == SessionPlane then now else later;
      if c.phase == Looping && now - polled < Interval(w.plane) && t - sent >= IDLE_HEARTBEAT_MS
      then [Sent(Heartbeat(c.cursor))] else []
    case EndBackfill(now) =>
      if c.phase == Backfilling && c.pending == [] && now - sent >= IDLE_HEARTBEAT_MS
      then [Sent(Heartbeat(c.cursor))] else []
    case _ => []
  }

  /** The clock when a step sends. */
  function Clock(plane: Plane, s: Step): int {
    match s
    case Append(_) => 0
    case Deliver(now) => now
    case EndReplay(now) => now
    case Idle(now, later) => if plane == SessionPlane then now else later
    case EndBackfill(now) => now
    case LiveItem(_, now) => now
    case PushItem(now) => now
    case Reconnect(_, now) => now
  }

  predicate Sends(notes: seq<Note>) { exists i :: 0 <= i < |notes| && notes[i].Sent? }

  /** When the current connection last sent something, or was opened. */
  function SentAt(w: World, start: int, steps: seq<Step>): int {
    if steps == [] then start
    else
      var front, s := steps[..|steps| - 1], steps[|steps| - 1];
      var v := Run(w, front);
      if s.Reconnect? && Resumable(v, s.afterSeq) then s.now
      else if Sends(Emission(v, s, SentAt(w, start, front), PolledAt(w, front))) then Clock(w.plane, s)
      else SentAt(w, start, front)
  }

  /** When the current connection last polled: a session stream that has not yet polled counts as
      having done so at zero, a control stream when its replay ended. */
  function PolledAt(w: World, steps: seq<Step>): int {
    if steps == [] then 0
    else
      var front, s := steps[..|steps| - 1], steps[|steps| - 1];
      var v := Run(w, front);
      match s
      case Reconnect(afterSeq, _) => if Resumable(v, afterSeq) then 0 else PolledAt(w, front)
      case EndReplay(now) =>
        if v.conn.phase == Replaying && v.conn.pending == [] then (if w.plane == SessionPlane then 0 else now)
        else PolledAt(w, front)
      case Idle(now, _) =>
        if v.conn.phase == Looping && now - PolledAt(w, front) >= Interval(w.plane) then now else PolledAt(w, front)
      case _ => PolledAt(w, front)
  }

  lemma NewIsNoDuplicate(c: Conn, uid: Option<Uid>)
    requires Orderly(c)
    ensures IsNew(c.notes, uid) <==> !Duplicate(c, uid)
  {
    hide Windowed, Accepted;
    var accepted := Accepted(c.notes);
    if uid.Some? {
      var n := if |accepted| <= SEEN_UIDS_MAX then 0 else |accepted| - SEEN_UIDS_MAX;
      assert c.order == accepted[n..];
      assert forall k :: n <= k < |accepted| ==> accepted[k] == c.order[k - n];
      assert forall k :: 0 <= k < |c.order| ==> c.order[k] == accepted[n + k];
    }
  }

  lemma StepAdds(w: World, s: Step)
    requires Orderly(w.conn)
    ensures AllNotes(Apply(w, s)) == AllNotes(w) + Emission(w, s, w.conn.lastEmit, w.conn.lastPoll)
  {
    hide Orderly, IsNew, FramesAfter, Accepted;
    var c := w.conn;
    if s.Deliver? && c.pending != [] { NewIsNoDuplicate(c, c.pending[0].uid); }
    if s.LiveItem? { NewIsNoDuplicate(c, s.event.uid); }
    assert AllNotes(w) + [] == AllNotes(w);
  }

  lemma StepTimes(w: World, s: Step)
    requires Orderly(w.conn)
    ensures var c, d := w.conn, Apply(w, s).conn;
            && d.lastEmit == (if s.Reconnect? && Resumable(w, s.afterSeq) then s.now
                              else if Sends(Emission(w, s, c.lastEmit, c.lastPoll)) then Clock(w.plane, s)
                              else c.lastEmit)
            && d.lastPoll == match s
                 case Reconnect(afterSeq, _) => (if Resumable(w, afterSeq) then 0 else c.lastPoll)
                 case EndReplay(now) =>
                   (if c.phase == Replaying && c.pending == [] then (if w.plane == SessionPlane then 0 else now)
                    else c.lastPoll)
                 case Idle(now, _) =>
                   (if c.phase == Looping && now - c.lastPoll >= Interval(w.plane) then now else c.lastPoll)
                 case _ => c.lastPoll
  {
    hide Orderly, IsNew, FramesAfter, Accepted;
    var c := w.conn;
    if s.Deliver? && c.pending != [] { NewIsNoDuplicate(c, c.pending[0].uid); }
    if s.LiveItem? { NewIsNoDuplicate(c, s.event.uid); }
    assert forall n: Note :: n.Sent? ==> Sends([n]) by {
      forall n: Note | n.Sent? ensures Sends([n]) { assert [n][0].Sent?; }
    }
  }

  // ---------------------------------------------------------------- whole runs

  /** The two clocks of the connection are the ones the steps tell. */
  lemma {:induction false} RunTimes(
      kindOf: Uid -> Kind, plane: Plane, log: seq<Row>, first: int, start: int, steps: seq<Step>)
    requires Admissible(kindOf, log, steps)
    ensures var w := Start(plane, log, first, start);
            Run(w, steps).conn.lastEmit == SentAt(w, start, steps) && Run(w, steps).conn.lastPoll == PolledAt(w, steps)
    ensures Orderly(Run(Start(plane, log, first, start), steps).conn)
    ensures Run(Start(plane, log, first, start), steps).plane == plane
  {
    hide Orderly, Emission, Inv, FramesAfter, Apply;
    RunKeepsOrderly(kindOf, plane, log, first, start, steps);
    RunKeepsInv(kindOf, plane, log, first, start, steps);
    if steps != [] {
      var front := steps[..|steps| - 1];
      assert forall s :: s in front ==> s in steps;
      RunTimes(kindOf, plane, log, first, start, front);
      StepTimes(Run(Start(plane, log, first, start), front), steps[|steps| - 1]);
    }
  }

  /** Each step of a run adds exactly its emission. */
  lemma StepsEmit(
      kindOf: Uid -> Kind, plane: Plane, log: seq<Row>, first: int, start: int, steps: seq<Step>, s: Step)
    requires Admissible(kindOf, log, steps)
    ensures var w := Start(plane, log, first, start);
            AllNotes(Run(w, steps + [s]))
            == AllNotes(Run(w, steps)) + Emission(Run(w, steps), s, SentAt(w, start, steps), PolledAt(w, steps))
  {
    var w := Start(plane, log, first, start);
    RunTimes(kindOf, plane, log, first, start, steps);
    RunNext(w, steps, s);
    hide Orderly, Emission, Apply, Run, Start, AllNotes;
    StepAdds(Run(w, steps), s);
  }

  /** A live event reaches the client exactly when the connection idles in its loop, the type
      translates, and the event has no uid or one not among the last accepted; then the client is
      sent that frame, and nothing else. */
  lemma LiveEventsAreSent(
      kindOf: Uid -> Kind, plane: Plane, log: seq<Row>, first: int, start: int, steps: seq<Step>,
      e: LiveEvent, now: int)
    requires Admissible(kindOf, log, steps)
    ensures var w := Run(Start(plane, log, first, start), steps);
            var v := Run(Start(plane, log, first, start), steps + [LiveItem(e, now)]);
            && (w.conn.phase == Looping && Translates(plane, e.kind) && IsNew(w.conn.notes, e.uid)
                <==> AllNotes(v) == AllNotes(w) + [Sent(Live(e))])
            && (AllNotes(v) == AllNotes(w) + [Sent(Live(e))] || AllNotes(v) == AllNotes(w)
                || (e.uid.Some? && AllNotes(v) == AllNotes(w) + [Swallowed(e.uid.value)]))
  {
    var w := Run(Start(plane, log, first, start), steps);
    RunTimes(kindOf, plane, log, first, start, steps);
    StepsEmit(kindOf, plane, log, first, start, steps, LiveItem(e, now));
    hide Run, Start, IsNew, Orderly, AllNotes;
    assert |AllNotes(w) + [Sent(Live(e))]| == |AllNotes(w)| + 1;
    if e.uid.Some? {
      assert (AllNotes(w) + [Sent(Live(e))])[|AllNotes(w)|] == Sent(Live(e));
      assert (AllNotes(w) + [Swallowed(e.uid.value)])[|AllNotes(w)|] == Swallowed(e.uid.value);
    }
    assert AllNotes(w) + [] == AllNotes(w);
  }

  /** Every note, on whichever connection, was added by a step whose emission it is. */
  lemma {:induction false} NotesHaveSteps(
      kindOf: Uid -> Kind, plane: Plane, log: seq<Row>, first: int, start: int, steps: seq<Step>, p: nat)
    returns (i: nat)
    requires Admissible(kindOf, log, steps) && p < |AllNotes(Run(Start(plane, log, first, start), steps))|
    ensures var w := Start(plane, log, first, start);
            && i < |steps| && |AllNotes(Run(w, steps[..i]))| == p
            && Emission(Run(w, steps[..i]), steps[i], SentAt(w, start, steps[..i]), PolledAt(w, steps[..i]))
               == [AllNotes(Run(w, steps))[p]]
  {
    var w := Start(plane, log, first, start);
    NothingYet(plane, log, first, start);
    i := 0;
    if steps != [] {
      var n := |steps| - 1;
      var front, s := steps[..n], steps[n];
      assert steps == front + [s];
      assert forall t :: t in front ==> t in steps;
      StepsEmit(kindOf, plane, log, first, start, front, s);
      AtMostOne(Run(w, front), s, SentAt(w, start, front), PolledAt(w, front));
      hide Run, Start, AllNotes, Emission, SentAt, PolledAt;
      if p < |AllNotes(Run(w, front))| {
        i := NotesHaveSteps(kindOf, plane, log, first, start, front, p);
        assert front[..i] == steps[..i];
      } else {
        i := n;
      }
    }
  }

  lemma NothingYet(plane: Plane, log: seq<Row>, first: int, start: int)
    ensures AllNotes(Run(Start(plane, log, first, start), [])) == []
  {
  }

  lemma AtMostOne(w: World, s: Step, sent: int, polled: int)
    ensures |Emission(w, s, sent, polled)| <= 1
  {
  }

  /** Every live frame the client was sent comes from a live event of the run, taken by an idling
      connection to which it was new. */
  lemma LiveFramesHaveEvents(
      kindOf: Uid -> Kind, plane: Plane, log: seq<Row>, first: int, start: int, steps: seq<Step>, e: LiveEvent)
    returns (i: nat)
    requires Admissible(kindOf, log, steps)
    requires Sent(Live(e)) in AllNotes(Run(Start(plane, log, first, start), steps))
    ensures i < |steps| && steps[i].LiveItem? && steps[i].event == e && Translates(plane, e.kind)
    ensures var w := Run(Start(plane, log, first, start), steps[..i]);
            w.conn.phase == Looping && IsNew(w.conn.notes, e.uid)
  {
    var notes := AllNotes(Run(Start(plane, log, first, start), steps));
    var p :| 0 <= p < |notes| && notes[p] == Sent(Live(e));
    i := NotesHaveSteps(kindOf, plane, log, first, start, steps, p);
    assert forall s :: s in steps[..i] ==> s in steps;
    RunTimes(kindOf, plane, log, first, start, steps[..i]);
    hide Run, Start, IsNew, Orderly, AllNotes, SentAt, PolledAt;
  }

  /** An idling connection beats, with its durable cursor, exactly when no backfill is due and
      nothing was sent for the idle time. */
  lemma IdleBeatsIff(
      kindOf: Uid -> Kind, plane: Plane, log: seq<Row>, first: int, start: int, steps: seq<Step>,
      now: int, later: int)
    requires Admissible(kindOf, log, steps)
    requires Run(Start(plane, log, first, start), steps).conn.phase == Looping
    ensures var w := Start(plane, log, first, start);
            var t := if plane == SessionPlane then now else later;
            var due := now - PolledAt(w, steps) >= Interval(plane);
            var beat := [Sent(Heartbeat(Run(w, steps).conn.cursor))];
            && (Run(w, steps + [Idle(now, later)]).conn.phase == Backfilling <==> due)
            && AllNotes(Run(w, steps + [Idle(now, later)]))
               == AllNotes(Run(w, steps))
                + if !due && t - SentAt(w, start, steps) >= IDLE_HEARTBEAT_MS then beat else []
  {
    var w, s := Start(plane, log, first, start), Idle(now, later);
    RunTimes(kindOf, plane, log, first, start, steps);
    StepsEmit(kindOf, plane, log, first, start, steps, s);
    RunNext(w, steps, s);
    hide Run, Start, Orderly, AllNotes, SentAt, PolledAt, FramesAfter;
  }

  // ---------------------------------------------------------------- the replay

  /** A replay, read and fully delivered, leaves what a backfill from the same seq would leave, on the
      first connection and on every later one. */
  lemma ReplayLeaves(plane: Plane, log: seq<Row>, first: int, start: int, times: seq<int>, end: int)
    requires Ascending(log) && |times| == |Start(plane, log, first, start).conn.pending|
    ensures var v := Run(Start(plane, log, first, start), Deliveries(times) + [EndReplay(end)]);
            Idling(v) && v.log == log && Ahead(v) == AfterRound(plane, Outstanding(plane, log, first))
  {
    OpeningLeaves(Start(plane, log, first, start), first, start, times, end);
  }

  lemma ReconnectLeaves(w: World, afterSeq: int, now: int, times: seq<int>, end: int)
    requires Ascending(w.log) && Resumable(w, afterSeq)
    requires |times| == |Apply(w, Reconnect(afterSeq, now)).conn.pending|
    ensures var v := Run(w, [Reconnect(afterSeq, now)] + (Deliveries(times) + [EndReplay(end)]));
            Idling(v) && v.log == w.log && Ahead(v) == AfterRound(w.plane, Outstanding(w.plane, w.log, afterSeq))
  {
    var s, more := Reconnect(afterSeq, now), Deliveries(times) + [EndReplay(end)];
    RunParts(w, [s], more);
    RunNext(w, [], s);
    assert [] + [s] == [s];
    RunNone(w);
    OpeningLeaves(Apply(w, s), afterSeq, now, times, end);
  }

  lemma OpeningLeaves(w: World, afterSeq: int, now: int, times: seq<int>, end: int)
    requires Ascending(w.log) && w.conn == Open(w.plane, w.log, afterSeq, now) && |times| == |w.conn.pending|
    ensures var v := Run(w, Deliveries(times) + [EndReplay(end)]);
            Idling(v) && v.log == w.log && v.plane == w.plane
            && Ahead(v) == AfterRound(w.plane, Outstanding(w.plane, w.log, afterSeq))
  {
    RunDeliveries(w, times);
    RunNext(w, Deliveries(times), EndReplay(end));
    DeliverAllEnds(w.conn, times);
    hide Run, DeliverAll, Outstanding, FramesAfter;
    BackfillLeaves(w.plane, w.log, w.conn, times);
  }
}
