// The two streaming generators as an object whose methods are the pieces of their loops,
// each tied to the step machine of EventMerge.

module EventStream {
  import opened Options
  import opened DurableLog
  import opened Seen
  import opened EventMerge
  import opened StreamProgress

  class Stream {
    const plane: Plane
    const seenUids: SeenUids
    var historyCursor: int
    var lastEmit: int
    var lastPoll: int
    var trace: seq<Note>    // everything yielded, and the uids swallowed without a frame
    ghost var resume: int   // what the client would echo back as after_seq

    ghost predicate Valid()
      reads this, seenUids
    {
      seenUids.Valid() && seenUids.max == SEEN_UIDS_MAX
    }

    /** The connection state, in a given phase with given undelivered rows. */
    ghost function State(phase: Phase, pending: seq<Row>): Conn
      reads this, seenUids
    {
      Conn(phase, historyCursor, pending, seenUids.order, lastEmit, lastPoll, resume, trace)
    }

    constructor (p: Plane, afterSeq: int, now: int)
      ensures Valid() && fresh(seenUids) && plane == p
      ensures forall log: seq<Row> {:trigger FramesAfter(p, log, afterSeq)} ::
                State(Replaying, FramesAfter(p, log, afterSeq)) == Open(p, log, afterSeq, now)
    {
      plane := p;
      seenUids := new SeenUids(SEEN_UIDS_MAX);
      historyCursor, lastEmit, lastPoll, trace, resume := afterSeq, now, 0, [], afterSeq;
    }

    method Yield(f: Frame, now: int)
      requires Valid()
      modifies this
      ensures Valid()
      ensures forall ph, pending :: State(ph, pending) == Send(old(State(ph, pending)), f, now)
    {
      trace, lastEmit := trace + [Sent(f)], now;
      resume := match f case History(row) => row.seqNo case Heartbeat(s) => s case _ => resume;
    }

    /** The dedup test in front of every yield; it remembers the uid. */
    method IsNew(uid: Option<Uid>) returns (isNew: bool)
      requires Valid()
      modifies seenUids
      ensures Valid()
      ensures forall ph, pending :: isNew == !Duplicate(old(State(ph, pending)), uid)
      ensures forall ph, pending :: State(ph, pending) == Noting(old(State(ph, pending)), uid)
    {
      isNew := true;
      if uid.Some? {
        isNew := seenUids.Add(uid.value);
      }
    }

    /** The loop body over history frames: cursor first, then dedup, then the frame. */
    method DeliverOne(frame: Row, now: int)
      requires Valid()
      modifies this, seenUids
      ensures Valid()
      ensures forall ph, rest :: State(ph, rest) == DeliverHead(old(State(ph, [frame] + rest)), now)
    {
      ghost var before := State(Replaying, []);
      historyCursor := frame.seqNo;
      var isNew := IsNew(frame.uid);
      if isNew {
        Yield(History(frame), now);
      }
    }

    /** The `for frame in frames` loop of the replay and of the backfill. */
    method DeliverFrames(phase: Phase, frames: seq<Row>, times: seq<int>)
      requires Valid() && |times| == |frames|
      modifies this, seenUids
      ensures Valid()
      ensures State(phase, []) == DeliverAll(old(State(phase, frames)), times)
    {
      for i := 0 to |frames|
        invariant Valid()
        invariant DeliverAll(State(phase, frames[i..]), times[i..]) == DeliverAll(old(State(phase, frames)), times)
      {
        assert frames[i..] == [frames[i]] + frames[i + 1..];
        assert times[i..][0] == times[i] && times[i..][1..] == times[i + 1..];
        DeliverOne(frames[i], times[i]);
      }
    }

    /** The replay is over; the session stream polls at its first idle tick, the control stream
        one interval later. */
    method BeginLoop(now: int)
      requires Valid()
      modifies this
      ensures Valid()
      ensures State(Looping, []) == StartLoop(plane, old(State(Replaying, [])), now)
    {
      lastPoll := if plane == SessionPlane then 0 else now;
    }

    method HeartbeatIfIdle(now: int)
      requires Valid()
      modifies this
      ensures Valid()
      ensures forall ph, pending :: State(ph, pending) == Beat(old(State(ph, pending)), now)
    {
      if now - lastEmit >= IDLE_HEARTBEAT_MS {
        Yield(Heartbeat(historyCursor), now);
      }
    }

    /** The queue timed out: a heartbeat check, or a throttled durable read whose rows are then to
        be delivered. `store` is the log as each read sees it. */
    method Poll(now: int, later: int, store: nat -> seq<Row>) returns (frames: Option<seq<Row>>)
      requires Valid()
      requires forall k: nat :: Ascending(store(k))
      requires forall j: nat, k: nat :: j <= k ==> store(j) <= store(k)
      modifies this
      ensures Valid()
      ensures var c := OnIdle(plane, store(0), old(State(Looping, [])), now, later);
              if frames.Some? then c == State(Backfilling, frames.value) else c == State(Looping, [])
    {
      var interval := if plane == SessionPlane then SESSION_BACKFILL_MS else CONTROL_BACKFILL_MS;
      if now - lastPoll < interval {
        HeartbeatIfIdle(if plane == SessionPlane then now else later);
        return None;
      }
      lastPoll := now;
      var rows, items, readCount := ListEventsAfter(plane, store, historyCursor, DEFAULT_LIMIT);
      assert readCount == 1 && rows == FramesAfter(plane, store(0), historyCursor);
      return Some(rows);
    }

    /** The whole queue-timeout branch, undisturbed. `times` is the clock at each frame, `end` the
        clock at the end. */
    method OnTimeout(now: int, later: int, store: nat -> seq<Row>, times: seq<int>, end: int)
      requires Valid()
      requires forall k: nat :: Ascending(store(k))
      requires forall j: nat, k: nat :: j <= k ==> store(j) <= store(k)
      requires |times| == |FramesAfter(plane, store(0), historyCursor)|
      modifies this, seenUids
      ensures Valid()
      ensures var c := OnIdle(plane, store(0), old(State(Looping, [])), now, later);
              State(Looping, []) == if c.phase == Looping then c else Beat(DeliverAll(c, times), end).(phase := Looping)
    {
      var frames := Poll(now, later, store);
      if frames.Some? {
        DeliverFrames(Backfilling, frames.value, times);
        HeartbeatIfIdle(end);
      }
    }

    /** One item of the live queue. */
    method OnLive(event: LiveEvent, now: int)
      requires Valid()
      modifies this, seenUids
      ensures Valid()
      ensures State(Looping, []) == TakeLive(plane, old(State(Looping, [])), event, now)
    {
      if plane == ControlPlane && !Translates(plane, event.kind) {
        return;
      }
      var isNew := IsNew(event.uid);
      if !isNew {
        return;
      }
      if Translates(plane, event.kind) {
        Yield(Live(event), now);
      } else if event.uid.Some? {
        trace := trace + [Swallowed(event.uid.value)];
      }
    }
  }
}
