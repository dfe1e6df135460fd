// A client's whole session: one stream object after another, replayed, ticked, fed, and cut at
// any yield, as one run of the step machine, so that what holds of every run holds of the object.

module EventSession {
  import opened DurableLog
  import opened EventMerge
  import opened StreamSafety
  import opened StreamRounds
  import opened EventStream

  /** A new stream object and the rows its replay has read. */
  method Connected(plane: Plane, log: seq<Row>, afterSeq: int, now: int) returns (stream: Stream, frames: seq<Row>)
    requires Ascending(log)
    ensures fresh(stream) && fresh(stream.seenUids) && stream.Valid() && stream.plane == plane
    ensures stream.State(Replaying, frames) == Open(plane, log, afterSeq, now)
  {
    stream := new Stream(plane, afterSeq, now);
    var rows, items, readCount := ListEventsAfter(plane, _ => log, afterSeq, DEFAULT_LIMIT);
    assert rows == FramesAfter(plane, log, afterSeq);
    frames := rows;
  }

  class Session {
    const plane: Plane
    var stream: Stream
    var phase: Phase        // where the generator stands
    var pending: seq<Row>   // the rows its loop has still to deliver
    ghost const firstLog: seq<Row>
    ghost const firstSeq: int
    ghost const firstNow: int
    ghost var steps: seq<Step>

    /** The run so far. */
    ghost function World(): World
      reads this
    {
      Run(Start(plane, firstLog, firstSeq, firstNow), steps)
    }

    /** The stream object is the run's connection, at every point where it can be cut. */
    ghost predicate Valid()
      reads this, stream, stream.seenUids
    {
      && stream.Valid() && stream.plane == plane
      && World().conn == stream.State(phase, pending) && World().plane == plane
    }

    /** Opens a connection; `log` is the durable log as the replay reads it. */
    constructor (p: Plane, log: seq<Row>, afterSeq: int, now: int)
      requires Ascending(log)
      ensures Valid() && fresh(stream) && fresh(stream.seenUids)
      ensures plane == p && firstLog == log && firstSeq == afterSeq && firstNow == now && steps == []
    {
      plane, firstLog, firstSeq, firstNow, steps := p, log, afterSeq, now, [];
      phase := Replaying;
      var s, frames := Connected(p, log, afterSeq, now);
      stream, pending := s, frames;
    }

    ghost method Continued(s: Step)
      modifies this`steps
      ensures steps == old(steps) + [s] && World() == Apply(old(World()), s)
    {
      RunNext(Start(plane, firstLog, firstSeq, firstNow), steps, s);
      steps := steps + [s];
    }

    /** The kernel writes one more durable row. */
    ghost method Appended(row: Row)
      requires Valid()
      modifies this`steps
      ensures Valid() && steps == old(steps) + [Append(row)]
    {
      Continued(Append(row));
    }

    /** The next row of the replay or of the backfill. */
    method Delivered(now: int)
      requires Valid() && pending != []
      modifies this, stream, stream.seenUids
      ensures Valid() && stream == old(stream) && steps == old(steps) + [Deliver(now)]
      ensures phase == old(phase) && pending == old(pending)[1..]
    {
      Continued(Deliver(now));
      assert pending == [pending[0]] + pending[1..];
      stream.DeliverOne(pending[0], now);
      pending := pending[1..];
    }

    method Replayed(now: int)
      requires Valid() && phase == Replaying && pending == []
      modifies this, stream
      ensures Valid() && stream == old(stream) && steps == old(steps) + [EndReplay(now)]
      ensures phase == Looping && pending == []
    {
      Continued(EndReplay(now));
      stream.BeginLoop(now);
      phase := Looping;
    }

    /** The queue timed out; `log` is the durable log at that moment. */
    method TimedOut(log: seq<Row>, now: int, later: int)
      requires Valid() && phase == Looping && pending == [] && log == World().log && Ascending(log)
      modifies this, stream
      ensures Valid() && stream == old(stream) && steps == old(steps) + [Idle(now, later)]
      ensures phase == World().conn.phase && pending == World().conn.pending
    {
      Continued(Idle(now, later));
      var frames := stream.Poll(now, later, _ => log);
      if frames.Some? { phase, pending := Backfilling, frames.value; }
    }

    method BackfillEnded(now: int)
      requires Valid() && phase == Backfilling && pending == []
      modifies this, stream
      ensures Valid() && stream == old(stream) && steps == old(steps) + [EndBackfill(now)]
      ensures phase == Looping && pending == []
    {
      Continued(EndBackfill(now));
      stream.HeartbeatIfIdle(now);
      phase := Looping;
    }

    method Live(event: LiveEvent, now: int)
      requires Valid() && phase == Looping && pending == []
      modifies this`steps, stream, stream.seenUids
      ensures Valid() && steps == old(steps) + [LiveItem(event, now)]
    {
      Continued(LiveItem(event, now));
      stream.OnLive(event, now);
    }

    method Pushed(now: int)
      requires Valid() && phase == Looping && pending == []
      modifies this`steps, stream
      ensures Valid() && steps == old(steps) + [PushItem(now)]
    {
      Continued(PushItem(now));
      stream.Yield(Push, now);
    }

    /** The connection is cut, in the middle of a replay or a backfill or between two turns of
        the loop, and the client comes back with a durable seq it was told. */
    method Reconnected(log: seq<Row>, afterSeq: int, now: int)
      requires Valid() && log == World().log && Ascending(log) && Resumable(World(), afterSeq)
      modifies this
      ensures Valid() && fresh(stream) && fresh(stream.seenUids)
      ensures steps == old(steps) + [Reconnect(afterSeq, now)] && phase == Replaying
    {
      hide FramesAfter, Run, Start;
      Continued(Reconnect(afterSeq, now));
      phase := Replaying;
      stream, pending := Connected(plane, log, afterSeq, now);
    }
  }

  /** What the objects have yielded, over all connections, leaves out no translatable row up to
      the cursor. */
  lemma SessionLosesNothing(s: Session, kindOf: Uid -> Kind, r: Row)
    requires s.Valid() && Admissible(kindOf, s.firstLog, s.steps)
    requires r in s.World().log && s.firstSeq < r.seqNo <= s.stream.historyCursor && Translates(s.plane, r.kind)
    ensures Reached(s.World().past + s.stream.trace, r)
  {
    hide Run, Start;
    NoLoss(kindOf, s.plane, s.firstLog, s.firstSeq, s.firstNow, s.steps, r);
  }
}
