// The kernel-local seqs of live frames never influence anything but their own field.

module StreamIndependence {
  import opened Options
  import opened DurableLog
  import opened EventMerge

  function BlindFrame(f: Frame): Frame {
    match f
    case Live(event) => Live(event.(localSeq := None))
    case _ => f
  }

  function BlindNote(n: Note): Note {
    match n
    case Sent(f) => Sent(BlindFrame(f))
    case Swallowed(uid) => n
  }

  function BlindNotes(notes: seq<Note>): seq<Note> {
    seq(|notes|, i requires 0 <= i < |notes| => BlindNote(notes[i]))
  }

  function BlindConn(c: Conn): Conn {
    c.(notes := BlindNotes(c.notes))
  }

  /** The world with the local seq of every live frame erased. */
  function Blind(w: World): World {
    w.(conn := BlindConn(w.conn), past := BlindNotes(w.past))
  }

  function BlindStep(s: Step): Step {
    match s
    case LiveItem(e, now) => LiveItem(e.(localSeq := None), now)
    case _ => s
  }

  function BlindSteps(steps: seq<Step>): seq<Step> {
    seq(|steps|, i requires 0 <= i < |steps| => BlindStep(steps[i]))
  }

  lemma BlindSend(c: Conn, f: Frame, now: int)
    ensures Send(BlindConn(c), BlindFrame(f), now) == BlindConn(Send(c, f, now))
  {
    assert BlindNotes(c.notes + [Sent(f)]) == BlindNotes(c.notes) + [Sent(BlindFrame(f))];
  }

  lemma BlindDeliver(c: Conn, now: int)
    requires c.pending != []
    ensures DeliverHead(BlindConn(c), now) == BlindConn(DeliverHead(c, now))
  {
    var row := c.pending[0];
    BlindSend(Noting(c.(pending := c.pending[1..], cursor := row.seqNo), row.uid), History(row), now);
  }

  lemma BlindLive(plane: Plane, c: Conn, e: LiveEvent, now: int)
    ensures TakeLive(plane, BlindConn(c), e.(localSeq := None), now) == BlindConn(TakeLive(plane, c, e, now))
  {
    BlindSend(Noting(c, e.uid), Live(e), now);
    if e.uid.Some? {
      var n := Swallowed(e.uid.value);
      assert BlindNotes(c.notes + [n]) == BlindNotes(c.notes) + [n];
    }
  }

  lemma BlindBeat(c: Conn, now: int)
    ensures Beat(BlindConn(c), now) == BlindConn(Beat(c, now))
  {
    BlindSend(c, Heartbeat(c.cursor), now);
  }

  lemma BlindApply(w: World, s: Step)
    ensures Apply(Blind(w), BlindStep(s)) == Blind(Apply(w, s))
  {
    var c := w.conn;
    match s
    case Append(row) =>
    case Deliver(now) => if c.pending != [] { BlindDeliver(c, now); }
    case EndReplay(now) =>
    case Idle(now, later) => BlindBeat(c, if w.plane == SessionPlane then now else later);
    case EndBackfill(now) => BlindBeat(c, now);
    case LiveItem(e, now) => BlindLive(w.plane, c, e, now);
    case PushItem(now) => BlindSend(c, Push, now);
    case Reconnect(afterSeq, now) =>
      assert BlindNotes(w.past + c.notes) == BlindNotes(w.past) + BlindNotes(c.notes);
      assert BlindNotes([]) == [];
  }

  lemma {:induction false} BlindRun(w: World, steps: seq<Step>)
    ensures Run(Blind(w), BlindSteps(steps)) == Blind(Run(w, steps))
  {
    if steps != [] {
      var init, last := steps[..|steps| - 1], steps[|steps| - 1];
      BlindRun(w, init);
      assert BlindSteps(steps)[..|steps| - 1] == BlindSteps(init);
      BlindApply(Run(w, init), last);
    }
  }

  /** Two runs whose inputs differ only in the local seqs of live events read the same
      durable pages, hold the same cursors and resume points, send the same heartbeats and
      the same frames in the same order, apart from the live frames' own seq. */
  lemma LocalSeqsDoNotInterfere(w: World, steps: seq<Step>, other: seq<Step>)
    requires BlindSteps(steps) == BlindSteps(other)
    ensures Blind(Run(w, steps)) == Blind(Run(w, other))
    ensures Run(w, steps).conn.(notes := []) == Run(w, other).conn.(notes := [])
    ensures |Run(w, steps).conn.notes| == |Run(w, other).conn.notes|
    ensures forall i :: 0 <= i < |Run(w, steps).conn.notes| ==>
              BlindNote(Run(w, steps).conn.notes[i]) == BlindNote(Run(w, other).conn.notes[i])
  {
    BlindRun(w, steps);
    BlindRun(w, other);
    var a, b := Run(w, steps).conn, Run(w, other).conn;
    assert BlindConn(a) == BlindConn(b);
    assert a.(notes := []) == BlindConn(a).(notes := []);
    assert b.(notes := []) == BlindConn(b).(notes := []);
    SameBlindNotes(a.notes, b.notes);
  }

  lemma SameBlindNotes(a: seq<Note>, b: seq<Note>)
    requires BlindNotes(a) == BlindNotes(b)
    ensures |a| == |b|
    ensures forall i :: 0 <= i < |a| ==> BlindNote(a[i]) == BlindNote(b[i])
  {
    assert |BlindNotes(a)| == |a| && |BlindNotes(b)| == |b|;
    forall i | 0 <= i < |a| ensures BlindNote(a[i]) == BlindNote(b[i]) {
      assert BlindNotes(a)[i] == BlindNotes(b)[i];
    }
  }
}
