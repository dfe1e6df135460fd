// Catching up as the machine does it: due backfills, each read and fully delivered, one after
// the other, and where a stream that cannot catch up gets stuck.

module StreamRounds {
  import opened DurableLog
  import opened EventMerge
  import opened StreamSafety
  import opened StreamProgress

  function Deliveries(times: seq<int>): seq<Step> {
    seq(|times|, i requires 0 <= i < |times| => Deliver(times[i]))
  }

  lemma {:induction false} RunParts(w: World, a: seq<Step>, b: seq<Step>)
    ensures Run(w, a + b) == Run(Run(w, a), b)
    decreases |b|
  {
    hide Apply;
    if b == [] {
      assert a + b == a;
    } else {
      assert (a + b)[..|a + b| - 1] == a + b[..|b| - 1];
      RunParts(w, a, b[..|b| - 1]);
    }
  }

  lemma RunNone(w: World)
    ensures Run(w, []) == w
  {
  }

  lemma RunNext(w: World, steps: seq<Step>, s: Step)
    ensures Run(w, steps + [s]) == Apply(Run(w, steps), s)
  {
    hide Apply;
    assert (steps + [s])[..|steps|] == steps;
  }

  /** Delivering the pending rows one by one. */
  lemma {:induction false} RunDeliveries(w: World, times: seq<int>)
    requires |times| == |w.conn.pending|
    ensures Run(w, Deliveries(times)) == w.(conn := DeliverAll(w.conn, times))
    decreases |times|
  {
    if times != [] {
      var first := Deliver(times[0]);
      var v := w.(conn := DeliverHead(w.conn, times[0]));
      assert Deliveries(times) == [first] + Deliveries(times[1..]);
      RunParts(w, [first], Deliveries(times[1..]));
      RunNext(w, [], first);
      assert [] + [first] == [first];
      assert Apply(w, first) == v;
      RunDeliveries(v, times[1..]);
    }
  }

  /** The clock readings of one backfill: at the timeout, at each frame, at the end. */
  datatype Round = Round(now: int, times: seq<int>, end: int)

  function RoundSteps(t: Round): seq<Step> {
    [Idle(t.now, t.now)] + Deliveries(t.times) + [EndBackfill(t.end)]
  }

  function Rounds(ts: seq<Round>): seq<Step> {
    if ts == [] then [] else RoundSteps(ts[0]) + Rounds(ts[1..])
  }

  /** The timeout comes late enough for a backfill, which is then read and delivered. */
  predicate Due(w: World, t: Round) {
    var c := OnIdle(w.plane, w.log, w.conn, t.now, t.now);
    w.conn.phase == Looping && c.phase == Backfilling && |t.times| == |c.pending|
  }

  predicate AllDue(w: World, ts: seq<Round>)
    decreases |ts|
  {
    ts == [] || (Due(w, ts[0]) && AllDue(Run(w, RoundSteps(ts[0])), ts[1..]))
  }

  /** Between two timeouts. */
  predicate Idling(w: World) {
    w.conn.phase == Looping && w.conn.pending == []
  }

  function Ahead(w: World): seq<Row> { Outstanding(w.plane, w.log, w.conn.cursor) }

  lemma RunRound(w: World, t: Round)
    requires Idling(w) && Due(w, t)
    ensures var c := OnIdle(w.plane, w.log, w.conn, t.now, t.now);
            Run(w, RoundSteps(t)) == w.(conn := Beat(DeliverAll(c, t.times), t.end).(phase := Looping))
  {
    var c := OnIdle(w.plane, w.log, w.conn, t.now, t.now);
    var v := w.(conn := c);
    var idle := Idle(t.now, t.now);
    RunNext(w, [], idle);
    assert [] + [idle] == [idle];
    assert Run(w, [idle]) == v;
    RunParts(w, [idle], Deliveries(t.times));
    RunDeliveries(v, t.times);
    DeliverAllEnds(c, t.times);
    RunNext(w, [idle] + Deliveries(t.times), EndBackfill(t.end));
  }

  lemma RoundLeaves(w: World, t: Round)
    requires Idling(w) && Due(w, t) && Ascending(w.log)
    ensures var v := Run(w, RoundSteps(t));
            Idling(v) && v.plane == w.plane && v.log == w.log && Ahead(v) == AfterRound(w.plane, Ahead(w))
  {
    var c := OnIdle(w.plane, w.log, w.conn, t.now, t.now);
    RunRound(w, t);
    DeliverAllEnds(c, t.times);
    hide Run, DeliverAll, Outstanding, FramesAfter;
    BackfillLeaves(w.plane, w.log, c, t.times);
  }

  /** After k due backfills without appends exactly the k-th remainder is outstanding. */
  lemma {:induction false} RoundsLeave(w: World, ts: seq<Round>)
    requires Idling(w) && AllDue(w, ts) && Ascending(w.log)
    ensures var v := Run(w, Rounds(ts));
            Idling(v) && v.plane == w.plane && v.log == w.log && Ahead(v) == AfterRounds(w.plane, Ahead(w), |ts|)
    decreases |ts|
  {
    hide Due, Ahead, Run, RoundSteps, AfterRound;
    if ts == [] {
      RunNone(w);
    } else {
      var v := Run(w, RoundSteps(ts[0]));
      RoundLeaves(w, ts[0]);
      RunParts(w, RoundSteps(ts[0]), Rounds(ts[1..]));
      RoundsLeave(v, ts[1..]);
    }
  }

  /** Any number of due backfills can come. */
  lemma {:induction false} RoundsExist(w: World, k: nat) returns (ts: seq<Round>)
    requires Idling(w) && Ascending(w.log)
    ensures |ts| == k && AllDue(w, ts)
    decreases k
  {
    ts := [];
    if k > 0 {
      var now := w.conn.lastPoll + CONTROL_BACKFILL_MS;
      var t := Round(now, seq(|FramesAfter(w.plane, w.log, w.conn.cursor)|, _ => now), now);
      assert Due(w, t);
      RoundLeaves(w, t);
      hide Due, Idling;
      var more := RoundsExist(Run(w, RoundSteps(t)), k - 1);
      ts := [t] + more;
      assert ts[1..] == more;
    }
  }

  // ---------------------------------------------------------------- catching up

  /** On the control stream k due backfills reach the end exactly when 200 k rows do. */
  lemma ControlCatchesUp(w: World, ts: seq<Round>)
    requires w.plane == ControlPlane && Idling(w) && AllDue(w, ts) && Ascending(w.log)
    ensures Ahead(Run(w, Rounds(ts))) == [] <==> DEFAULT_LIMIT * |ts| >= |Ahead(w)|
  {
    hide AllDue, Run;
    RoundsLeave(w, ts);
    ControlCatchUp(w.log, w.conn.cursor, |ts|);
  }

  /** On either stream some number of due backfills leaves no translatable row outstanding
      exactly when no whole page of untranslatable rows stands before a translatable one. */
  lemma CatchesUpIffNoGapAhead(w: World)
    requires Idling(w) && Ascending(w.log)
    ensures (exists ts :: AllDue(w, ts) && Silent(w.plane, Ahead(Run(w, Rounds(ts))))) <==> !HasGap(w.plane, Ahead(w))
  {
    hide AllDue, Run, Ahead;
    CatchesUpIffNoGap(w.plane, Ahead(w));
    if ts :| AllDue(w, ts) && Silent(w.plane, Ahead(Run(w, Rounds(ts)))) {
      RoundsLeave(w, ts);
      assert Settled(w.plane, Ahead(w), |ts|);
    }
    if k: nat :| Settled(w.plane, Ahead(w), k) {
      var ts := RoundsExist(w, k);
      RoundsLeave(w, ts);
    }
  }

  lemma {:induction false} RunFromKeepsInv(kindOf: Uid -> Kind, first: int, w: World, steps: seq<Step>)
    requires Inv(kindOf, first, w) && forall s :: s in steps ==> StepAgrees(kindOf, s)
    ensures Inv(kindOf, first, Run(w, steps))
  {
    hide Inv;
    if steps != [] {
      assert forall s :: s in steps[..|steps| - 1] ==> s in steps;
      RunFromKeepsInv(kindOf, first, w, steps[..|steps| - 1]);
      StepKeepsInv(kindOf, first, Run(w, steps[..|steps| - 1]), steps[|steps| - 1]);
    }
  }

  lemma {:induction false} RoundsAgree(kindOf: Uid -> Kind, ts: seq<Round>)
    ensures forall s :: s in Rounds(ts) ==> StepAgrees(kindOf, s)
  {
    if ts != [] { RoundsAgree(kindOf, ts[1..]); }
  }

  /** In every reachable world with a gap ahead, due backfills lead into a stall with a
      translatable row behind it, which by `StallIsPermanent` is never replayed. */
  lemma GapStalls(kindOf: Uid -> Kind, first: int, w: World) returns (ts: seq<Round>)
    requires Inv(kindOf, first, w) && Idling(w) && HasGap(w.plane, Ahead(w))
    ensures AllDue(w, ts)
    ensures var v := Run(w, Rounds(ts));
            && Stalled(v, v.conn.cursor)
            && exists r :: r in v.log && r.seqNo > v.conn.cursor && Translates(v.plane, r.kind)
  {
    hide AllDue, Run, HasGap, Silent;
    var k := GapReachesPage(w.plane, Ahead(w));
    ts := RoundsExist(w, k);
    RoundsLeave(w, ts);
    RoundsAgree(kindOf, ts);
    RunFromKeepsInv(kindOf, first, w, Rounds(ts));
    var v := Run(w, Rounds(ts));
    RowAhead(v);
  }

  lemma RowAhead(v: World)
    requires !Silent(v.plane, Ahead(v))
    ensures exists r :: r in v.log && r.seqNo > v.conn.cursor && Translates(v.plane, r.kind)
  {
    var i :| 0 <= i < |Ahead(v)| && Translates(v.plane, Ahead(v)[i].kind);
    OutstandingMembers(v.plane, v.log, v.conn.cursor);
    assert Ahead(v)[i] in Ahead(v);
  }
}
