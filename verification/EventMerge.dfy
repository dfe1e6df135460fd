// The merge of a durable log with a lossy live tap, as a step machine. Every step is one
// point at which the generators can be interrupted: one frame handed to the client, one
// queue item, one idle tick, one cut-and-reconnect.

module EventMerge {
  import opened Options
  import opened DurableLog
  import opened Seen

  const SESSION_BACKFILL_MS := 2000
  const CONTROL_BACKFILL_MS := 5000
  const IDLE_HEARTBEAT_MS := 15000

  /** A frame of the live tap; its seq belongs to the kernel's local counter. */
  datatype LiveEvent = LiveEvent(localSeq: Option<int>, uid: Option<Uid>, kind: Kind)

  datatype Frame =
    | History(row: Row)
    | Live(event: LiveEvent)
    | Push
    | Heartbeat(cursor: int)

  /** What a connection did: a frame sent, or a uid remembered without sending anything. */
  datatype Note = Sent(frame: Frame) | Swallowed(uid: Uid)

  datatype Phase = Replaying | Looping | Backfilling

  /** One connection. `pending` are the read but not yet delivered rows; `resume` is the
      furthest durable seq its client was told. */
  datatype Conn = Conn(
    phase: Phase, cursor: int, pending: seq<Row>, order: seq<Uid>,
    lastEmit: int, lastPoll: int, resume: int, notes: seq<Note>)

  /** `first` is the seq the client started from, `past` what its earlier connections did. */
  datatype World = World(plane: Plane, first: int, log: seq<Row>, conn: Conn, past: seq<Note>)

  datatype Step =
    | Append(row: Row)
    | Deliver(now: int)
    | EndReplay(now: int)
    | Idle(now: int, later: int)
    | EndBackfill(now: int)
    | LiveItem(event: LiveEvent, now: int)
    | PushItem(now: int)
    | Reconnect(afterSeq: int, now: int)

  function FrameUid(f: Frame): Option<Uid> {
    match f
    case History(row) => row.uid
    case Live(event) => event.uid
    case _ => None
  }

  function NoteUid(n: Note): Option<Uid> {
    match n
    case Sent(f) => FrameUid(f)
    case Swallowed(uid) => Some(uid)
  }

  predicate Duplicate(c: Conn, uid: Option<Uid>) {
    uid.Some? && uid.value in c.order
  }

  /** Record the uid of something about to be sent (or swallowed). */
  function Noting(c: Conn, uid: Option<Uid>): Conn {
    if uid.Some? then c.(order := Remember(SEEN_UIDS_MAX, c.order, uid.value)) else c
  }

  function Send(c: Conn, f: Frame, now: int): Conn {
    c.(notes := c.notes + [Sent(f)], lastEmit := now,
       resume := match f case History(row) => row.seqNo case Heartbeat(s) => s case _ => c.resume)
  }

  /** The loop body over history frames: the cursor moves even when the uid was delivered. */
  function DeliverHead(c: Conn, now: int): Conn
    requires c.pending != []
  {
    var row := c.pending[0];
    var c' := c.(pending := c.pending[1..], cursor := row.seqNo);
    if Duplicate(c', row.uid) then c' else Send(Noting(c', row.uid), History(row), now)
  }

  /** A live item: the session plane remembers the uid before it translates, the control
      plane translates first. Its local seq is never looked at. */
  function TakeLive(plane: Plane, c: Conn, e: LiveEvent, now: int): Conn {
    if plane == ControlPlane && !Translates(plane, e.kind) then c
    else if Duplicate(c, e.uid) then c
    else if Translates(plane, e.kind) then Send(Noting(c, e.uid), Live(e), now)
    else if e.uid.Some? then Noting(c, e.uid).(notes := c.notes + [Swallowed(e.uid.value)])
    else c
  }

  function Beat(c: Conn, now: int): Conn {
    if now - c.lastEmit >= IDLE_HEARTBEAT_MS then Send(c, Heartbeat(c.cursor), now) else c
  }

  function FramesAfter(plane: Plane, log: seq<Row>, cursor: int): seq<Row> {
    Translated(plane, ReadPage(plane, log, cursor, DEFAULT_LIMIT))
  }

  /** The queue timeout: a throttled durable read, else a heartbeat check. */
  function OnIdle(plane: Plane, log: seq<Row>, c: Conn, now: int, later: int): Conn {
    if now - c.lastPoll < (if plane == SessionPlane then SESSION_BACKFILL_MS else CONTROL_BACKFILL_MS) then
      Beat(c, if plane == SessionPlane then now else later)
    else
      c.(lastPoll := now, phase := Backfilling, pending := FramesAfter(plane, log, c.cursor))
  }

  function Open(plane: Plane, log: seq<Row>, afterSeq: int, now: int): Conn {
    Conn(Replaying, afterSeq, FramesAfter(plane, log, afterSeq), [], now, 0, afterSeq, [])
  }

  /** The session stream starts with an immediate first backfill, the control stream not. */
  function StartLoop(plane: Plane, c: Conn, now: int): Conn {
    c.(phase := Looping, lastPoll := if plane == SessionPlane then 0 else now)
  }

  predicate Appendable(log: seq<Row>, row: Row) {
    log == [] || log[|log| - 1].seqNo < row.seqNo
  }

  /** What a client may come back with: the seq it started from, or that of a durable row a
      history frame or a heartbeat told it. */
  predicate Resumable(w: World, afterSeq: int) {
    && w.first <= afterSeq <= w.conn.resume
    && (afterSeq == w.first || exists i :: 0 <= i < |w.log| && w.log[i].seqNo == afterSeq
                                 && Translates(w.plane, w.log[i].kind))
  }

  /** A cut, and a new connection of the same client. */
  function Reopen(w: World, afterSeq: int, now: int): World {
    w.(conn := Open(w.plane, w.log, afterSeq, now), past := w.past + w.conn.notes)
  }

  /** One step; a step that is not enabled leaves the world unchanged. */
  function Apply(w: World, s: Step): World {
    var c := w.conn;
    match s
    case Append(row) =>
      if Appendable(w.log, row) then w.(log := w.log + [row]) else w
    case Deliver(now) =>
      if c.pending != [] then w.(conn := DeliverHead(c, now)) else w
    case EndReplay(now) =>
      if c.phase == Replaying && c.pending == [] then w.(conn := StartLoop(w.plane, c, now)) else w
    case Idle(now, later) =>
      if c.phase == Looping then w.(conn := OnIdle(w.plane, w.log, c, now, later)) else w
    case EndBackfill(now) =>
      if c.phase == Backfilling && c.pending == [] then w.(conn := Beat(c, now).(phase := Looping)) else w
    case LiveItem(e, now) =>
      if c.phase == Looping then w.(conn := TakeLive(w.plane, c, e, now)) else w
    case PushItem(now) =>
      if c.phase == Looping then w.(conn := Send(c, Push, now)) else w
    case Reconnect(afterSeq, now) =>
      if Resumable(w, afterSeq) then Reopen(w, afterSeq, now) else w
  }

  function Run(w: World, steps: seq<Step>): World {
    if steps == [] then w else Apply(Run(w, steps[..|steps| - 1]), steps[|steps| - 1])
  }

  function Start(plane: Plane, log: seq<Row>, afterSeq: int, now: int): World {
    World(plane, afterSeq, log, Open(plane, log, afterSeq, now), [])
  }
}
