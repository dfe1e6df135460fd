// A client that comes back with a seq it was not told is durable, on any number of reconnects: the
// control-plane client, which echoes the greatest seq of any frame, live frames included.

module StreamEchoes {
  import opened Options
  import opened DurableLog
  import opened EventMerge
  import opened StreamSafety
  import opened StreamProgress
  import opened StreamRounds
  import opened StreamClients

  /** The control-plane client's cursor: the greatest seq of any frame, live ones included. */
  function EchoCursor(notes: seq<Note>, first: int): int {
    if notes == [] then first
    else
      var before := EchoCursor(notes[..|notes| - 1], first);
      var s := match notes[|notes| - 1]
        case Sent(History(row)) => row.seqNo
        case Sent(Heartbeat(s)) => s
        case Sent(Live(e)) => if e.localSeq.Some? then e.localSeq.value else 0
        case _ => before;
      if s > before then s else before
  }

  /** The seq a frame carries for such a client; a live frame without one counts as zero. */
  ghost predicate Carries(n: Note, seqNo: int) {
    || (exists row :: n == Sent(History(row)) && row.seqNo == seqNo)
    || n == Sent(Heartbeat(seqNo))
    || (exists e :: n == Sent(Live(e)) && (e.localSeq == Some(seqNo) || (e.localSeq == None && seqNo == 0)))
  }

  /** The cursor is the greatest of the seqs carried and the one the client began with. */
  lemma {:induction false} CursorIsGreatest(notes: seq<Note>, first: int)
    ensures var c := EchoCursor(notes, first);
            && first <= c && (c == first || exists i :: 0 <= i < |notes| && Carries(notes[i], c))
            && forall i, s :: 0 <= i < |notes| && Carries(notes[i], s) ==> s <= c
  {
    if notes != [] {
      var k := |notes| - 1;
      CursorIsGreatest(notes[..k], first);
      var c, before := EchoCursor(notes, first), EchoCursor(notes[..k], first);
      assert forall i :: 0 <= i < k ==> notes[..k][i] == notes[i];
      if c == before {
        if c != first {
          var i :| 0 <= i < k && Carries(notes[..k][i], c);
          assert Carries(notes[i], c);
        }
      } else {
        assert Carries(notes[k], c);
      }
    }
  }

  /** A new connection from an arbitrary seq. */
  function Echoed(w: World, seqNo: int, now: int): World {
    Reopen(w, seqNo, now).(first := seqNo)
  }

  ghost predicate Agree(kindOf: Uid -> Kind, steps: seq<Step>) {
    forall s :: s in steps ==> StepAgrees(kindOf, s)
  }

  /** Nothing translatable up to the cursor is missing, whatever happens from `w` on. */
  ghost predicate LosesNothing(kindOf: Uid -> Kind, first: int, w: World) {
    forall steps :: Agree(kindOf, steps) ==> CoveredFrom(first, Run(w, steps))
  }

  ghost predicate CoveredFrom(first: int, w: World) {
    Covered(w.plane, w.log, first, w.conn.cursor, AllNotes(w))
  }

  /** Every translatable row the echo would skip has been shown already, and no row that is
      still to be written can get a seq it skips. */
  ghost predicate SafeToEcho(w: World, seqNo: int) {
    && (forall r :: r in w.log && w.conn.cursor < r.seqNo <= seqNo && Translates(w.plane, r.kind)
          ==> Reached(AllNotes(w), r))
    && (seqNo <= w.conn.cursor || exists r :: r in w.log && seqNo <= r.seqNo)
  }

  lemma StepGrows(w: World, s: Step)
    ensures w.log <= Apply(w, s).log && AllNotes(w) <= AllNotes(Apply(w, s)) && Apply(w, s).plane == w.plane
    ensures Ascending(w.log) ==> Ascending(Apply(w, s).log)
  {
    hide FramesAfter;
    assert AllNotes(w) + [] == AllNotes(w);
  }

  lemma {:induction false} RunGrows(w: World, steps: seq<Step>)
    ensures w.log <= Run(w, steps).log && AllNotes(w) <= AllNotes(Run(w, steps)) && Run(w, steps).plane == w.plane
    ensures Ascending(w.log) ==> Ascending(Run(w, steps).log)
  {
    hide Apply, AllNotes, Ascending;
    if steps != [] {
      RunGrows(w, steps[..|steps| - 1]);
      StepGrows(Run(w, steps[..|steps| - 1]), steps[|steps| - 1]);
    }
  }

  lemma EchoStarts(kindOf: Uid -> Kind, first: int, w: World, seqNo: int, now: int)
    requires Inv(kindOf, first, w)
    ensures Inv(kindOf, seqNo, Echoed(w, seqNo, now)) && AllNotes(Echoed(w, seqNo, now)) == AllNotes(w)
  {
    hide FramesAfter, Reached;
    ReadLeavesNoGap(w.plane, w.log, seqNo);
    assert AllNotes(w) + [] == AllNotes(w);
  }

  lemma ReachedGrows(notes: seq<Note>, more: seq<Note>, r: Row)
    requires Reached(notes, r) && notes <= more
    ensures Reached(more, r)
  {
    if Sent(History(r)) !in notes { ShownGrows(notes, more, r.uid.value); }
  }

  // ---------------------------------------------------------------- any number of echoes

  /** What can happen to such a client: a step of the machine, or a cut after which it comes back
      with `seqNo`. */
  datatype Move = Does(step: Step) | Echo(seqNo: int, now: int)

  function Play(w: World, moves: seq<Move>): World {
    if moves == [] then w
    else
      var v := Play(w, moves[..|moves| - 1]);
      match moves[|moves| - 1]
      case Does(step) => Apply(v, step)
      case Echo(seqNo, now) => Echoed(v, seqNo, now)
  }

  ghost predicate MovesAgree(kindOf: Uid -> Kind, first: int, moves: seq<Move>) {
    forall m :: m in moves ==> match m case Does(step) => StepAgrees(kindOf, step) case Echo(seqNo, _) => first <= seqNo
  }

  /** Every echo was safe in the world it was made in. */
  ghost predicate EchoesSafe(w: World, moves: seq<Move>) {
    forall i :: 0 <= i < |moves| && moves[i].Echo? ==> SafeToEcho(Play(w, moves[..i]), moves[i].seqNo)
  }

  /** What safe echoes keep: nothing is missing since the very first seq, and rows still to be
      written lie beyond the seq the last echo came back with. */
  ghost predicate Intact(kindOf: Uid -> Kind, first: int, w: World) {
    && Inv(kindOf, w.first, w) && Told(w) && first <= w.first && CoveredFrom(first, w)
    && (w.first == first || exists d :: d in w.log && w.first <= d.seqNo)
  }

  /** A row up to the last echo was in the log when it was made. */
  lemma OldRow(kindOf: Uid -> Kind, first: int, w: World, log: seq<Row>, r: Row)
    requires Intact(kindOf, first, w) && w.log <= log && Ascending(log)
    requires r in log && first < r.seqNo <= w.first
    ensures r in w.log
  {
    hide Inv, Told, CoveredFrom;
    var d :| d in w.log && w.first <= d.seqNo;
    var i :| 0 <= i < |log| && log[i] == r;
    var j :| 0 <= j < |w.log| && w.log[j] == d;
    assert log[j] == d;
    assert i <= j;
  }

  lemma IntactLosesNothing(kindOf: Uid -> Kind, first: int, w: World)
    requires Intact(kindOf, first, w)
    ensures LosesNothing(kindOf, first, w)
  {
    forall steps | Agree(kindOf, steps) ensures CoveredFrom(first, Run(w, steps)) {
      IntactCovers(kindOf, first, w, steps);
    }
  }

  lemma IntactCovers(kindOf: Uid -> Kind, first: int, w: World, steps: seq<Step>)
    requires Intact(kindOf, first, w) && Agree(kindOf, steps)
    ensures CoveredFrom(first, Run(w, steps))
  {
    var v := Run(w, steps);
    RunFromKeepsInv(kindOf, w.first, w, steps);
    RunGrows(w, steps);
    assert w.first <= w.conn.cursor;
    hide Run, Apply, Reached, Waiting, Honest, Told;
    forall r | r in v.log && first < r.seqNo <= v.conn.cursor && Translates(v.plane, r.kind)
      ensures Reached(AllNotes(v), r) {
      if r.seqNo <= w.first {
        OldRow(kindOf, first, w, v.log, r);
        ReachedGrows(AllNotes(w), AllNotes(v), r);
      }
    }
  }

  lemma StepKeepsIntact(kindOf: Uid -> Kind, first: int, w: World, s: Step)
    requires Intact(kindOf, first, w) && StepAgrees(kindOf, s)
    ensures Intact(kindOf, first, Apply(w, s))
  {
    StepKeepsInv(kindOf, w.first, w, s);
    StepKeepsTold(kindOf, w.first, w, s);
    StepGrows(w, s);
    RunNone(w);
    RunNext(w, [], s);
    assert [] + [s] == [s];
    IntactCovers(kindOf, first, w, [s]);
    SameFirst(w, s);
    hide Apply, Inv, Told, CoveredFrom;
  }

  lemma SameFirst(w: World, s: Step)
    ensures Apply(w, s).first == w.first
  {
  }

  lemma SafeEchoKeepsIntact(kindOf: Uid -> Kind, first: int, w: World, seqNo: int, now: int)
    requires Intact(kindOf, first, w) && first <= seqNo && SafeToEcho(w, seqNo)
    ensures Intact(kindOf, first, Echoed(w, seqNo, now))
  {
    var u := Echoed(w, seqNo, now);
    EchoStarts(kindOf, w.first, w, seqNo, now);
    ReopenKeepsTold(w, seqNo, now);
    hide Waiting, Honest, FramesAfter, Reached;
    assert CoveredFrom(first, u);
    if seqNo != first && seqNo <= w.conn.cursor { RowAtCursor(kindOf, first, w); }
  }

  /** Up to the cursor the log has rows, unless the client is where it started. */
  lemma RowAtCursor(kindOf: Uid -> Kind, first: int, w: World)
    requires Intact(kindOf, first, w) && first < w.conn.cursor
    ensures exists d :: d in w.log && w.conn.cursor <= d.seqNo
  {
    hide Told, CoveredFrom, Waiting, Honest, Covered;
  }

  lemma UnsafeEchoLoses(kindOf: Uid -> Kind, first: int, w: World, seqNo: int, now: int)
    requires Intact(kindOf, first, w) && first <= seqNo && !SafeToEcho(w, seqNo)
    ensures !LosesNothing(kindOf, first, Echoed(w, seqNo, now))
  {
    var u := Echoed(w, seqNo, now);
    EchoStarts(kindOf, w.first, w, seqNo, now);
    assert w.first <= w.conn.cursor;
    hide Inv, Told, FramesAfter;
    if r :| r in w.log && w.conn.cursor < r.seqNo <= seqNo && Translates(w.plane, r.kind) && !Reached(AllNotes(w), r) {
      assert Agree(kindOf, []) && Run(u, []) == u;
      assert !CoveredFrom(first, u);
    } else {
      LaterRowIsLost(kindOf, first, w, seqNo, now);
    }
  }

  /** A row that is still to come with a seq the echo skips is never sent. */
  lemma LaterRowIsLost(kindOf: Uid -> Kind, first: int, w: World, seqNo: int, now: int)
    requires Told(w) && first <= w.conn.cursor
    requires w.conn.cursor < seqNo && forall r :: r in w.log ==> r.seqNo < seqNo
    ensures !LosesNothing(kindOf, first, Echoed(w, seqNo, now))
  {
    hide FramesAfter, DurableSeq;
    var u, row := Echoed(w, seqNo, now), Row(seqNo, None, UserMessage);
    var steps := [Append(row)];
    RunNext(u, [], Append(row));
    assert [] + steps == steps && Run(u, []) == u;
    ReopenKeepsTold(w, seqNo, now);
    var v := u.(log := u.log + [row]);
    assert Appendable(u.log, row) by { if w.log != [] { assert w.log[|w.log| - 1] in w.log; } }
    assert Run(u, steps) == v;
    assert AllNotes(v) == AllNotes(w);
    assert row in v.log && row !in w.log && !Reached(AllNotes(v), row);
    assert Agree(kindOf, steps) && !CoveredFrom(first, v);
  }

  /** Nothing is lost in any continuation of any prefix. */
  ghost predicate NeverLoses(kindOf: Uid -> Kind, first: int, w: World, moves: seq<Move>) {
    forall i :: 0 <= i <= |moves| ==> LosesNothing(kindOf, first, Play(w, moves[..i]))
  }

  lemma NeverLosesSplit(kindOf: Uid -> Kind, first: int, w: World, moves: seq<Move>)
    ensures moves == [] ==> (NeverLoses(kindOf, first, w, moves) <==> LosesNothing(kindOf, first, w))
    ensures moves != [] ==>
              (NeverLoses(kindOf, first, w, moves)
               <==> NeverLoses(kindOf, first, w, moves[..|moves| - 1]) && LosesNothing(kindOf, first, Play(w, moves)))
  {
    hide LosesNothing, Apply, Echoed;
    assert moves[..|moves|] == moves;
    if moves == [] {
      assert Play(w, moves) == w;
    } else {
      hide Play;
      var front := moves[..|moves| - 1];
      assert forall i :: 0 <= i <= |front| ==> front[..i] == moves[..i];
    }
  }

  lemma {:induction false} PlayIsIntactIff(kindOf: Uid -> Kind, first: int, w: World, moves: seq<Move>)
    requires Intact(kindOf, first, w) && MovesAgree(kindOf, first, moves)
    ensures NeverLoses(kindOf, first, w, moves) <==> EchoesSafe(w, moves)
    ensures EchoesSafe(w, moves) ==> Intact(kindOf, first, Play(w, moves))
  {
    hide Intact, LosesNothing, NeverLoses, EchoesSafe, SafeToEcho, Apply, Echoed;
    NeverLosesSplit(kindOf, first, w, moves);
    if moves == [] {
      NoEchoes(w);
      IntactLosesNothing(kindOf, first, w);
    } else {
      var n := |moves| - 1;
      var front := moves[..n];
      assert moves[n] in moves && forall m :: m in front ==> m in moves;
      PlayIsIntactIff(kindOf, first, w, front);
      EchoesSplit(w, moves);
      if EchoesSafe(w, front) { MoveIsIntactIff(kindOf, first, Play(w, front), moves[n]); }
    }
  }

  lemma NoEchoes(w: World)
    ensures EchoesSafe(w, []) && Play(w, []) == w
  {
  }

  lemma EchoesSplit(w: World, moves: seq<Move>)
    requires moves != []
    ensures var n := |moves| - 1;
            EchoesSafe(w, moves)
            <==> EchoesSafe(w, moves[..n]) && (moves[n].Echo? ==> SafeToEcho(Play(w, moves[..n]), moves[n].seqNo))
  {
    hide Play, SafeToEcho;
    var n := |moves| - 1;
    var front := moves[..n];
    assert forall i :: 0 <= i < n ==> front[i] == moves[i] && front[..i] == moves[..i];
  }

  function Moved(w: World, m: Move): World {
    match m case Does(step) => Apply(w, step) case Echo(seqNo, now) => Echoed(w, seqNo, now)
  }

  lemma MoveIsIntactIff(kindOf: Uid -> Kind, first: int, w: World, m: Move)
    requires Intact(kindOf, first, w) && MovesAgree(kindOf, first, [m])
    ensures LosesNothing(kindOf, first, Moved(w, m)) <==> (m.Echo? ==> SafeToEcho(w, m.seqNo))
    ensures (m.Echo? ==> SafeToEcho(w, m.seqNo)) ==> Intact(kindOf, first, Moved(w, m))
  {
    hide Intact, LosesNothing, SafeToEcho, Apply, Echoed;
    assert m in [m];
    match m
    case Does(step) =>
      StepKeepsIntact(kindOf, first, w, step);
      IntactLosesNothing(kindOf, first, Apply(w, step));
    case Echo(seqNo, now) =>
      if SafeToEcho(w, seqNo) {
        SafeEchoKeepsIntact(kindOf, first, w, seqNo, now);
        IntactLosesNothing(kindOf, first, Echoed(w, seqNo, now));
      } else {
        UnsafeEchoLoses(kindOf, first, w, seqNo, now);
      }
  }

  lemma StartIsIntact(kindOf: Uid -> Kind, plane: Plane, log: seq<Row>, first: int, now: int)
    requires Admissible(kindOf, log, [])
    ensures Intact(kindOf, first, Start(plane, log, first, now))
  {
    StartHolds(kindOf, plane, log, first, now);
    NothingTold(plane, log, first, now);
    hide FramesAfter, Inv, Told;
  }

  /** From the start on, and however often the client is cut: nothing is ever lost, in any
      continuation of any prefix, exactly when each seq it came back with was safe to echo. */
  lemma EchoesLoseNothingIff(
      kindOf: Uid -> Kind, plane: Plane, log: seq<Row>, first: int, now: int, moves: seq<Move>)
    requires Admissible(kindOf, log, []) && MovesAgree(kindOf, first, moves)
    ensures var w := Start(plane, log, first, now);
            NeverLoses(kindOf, first, w, moves) <==> EchoesSafe(w, moves)
  {
    StartIsIntact(kindOf, plane, log, first, now);
    PlayIsIntactIff(kindOf, first, Start(plane, log, first, now), moves);
  }

  // ---------------------------------------------------------------- the control-plane client

  /** What the shipped client goes through: steps without a reconnect of their own, and cuts after
      which it comes back with its cursor. */
  datatype ControlMove = Goes(step: Step) | Cut(now: int)

  function ControlPlay(w: World, first: int, moves: seq<ControlMove>): World {
    if moves == [] then w
    else
      var v := ControlPlay(w, first, moves[..|moves| - 1]);
      match moves[|moves| - 1]
      case Goes(step) => Apply(v, step)
      case Cut(now) => Echoed(v, EchoCursor(AllNotes(v), first), now)
  }

  ghost predicate ControlAgree(kindOf: Uid -> Kind, moves: seq<ControlMove>) {
    forall m :: m in moves && m.Goes? ==> StepAgrees(kindOf, m.step) && !m.step.Reconnect?
  }

  /** The same moves with the seqs the client echoes. */
  function Spelled(w: World, first: int, moves: seq<ControlMove>): seq<Move> {
    if moves == [] then []
    else
      var n := |moves| - 1;
      Spelled(w, first, moves[..n])
      + [match moves[n]
         case Goes(step) => Does(step)
         case Cut(now) => Echo(EchoCursor(AllNotes(ControlPlay(w, first, moves[..n])), first), now)]
  }

  lemma {:induction false} SpelledPlays(w: World, first: int, moves: seq<ControlMove>)
    ensures |Spelled(w, first, moves)| == |moves|
    ensures Play(w, Spelled(w, first, moves)) == ControlPlay(w, first, moves)
  {
    hide Apply, Echoed, AllNotes, EchoCursor;
    if moves != [] {
      var all := Spelled(w, first, moves);
      SpelledPlays(w, first, moves[..|moves| - 1]);
      assert all[..|all| - 1] == Spelled(w, first, moves[..|moves| - 1]);
    }
  }

  lemma {:induction false} SpelledPrefix(w: World, first: int, moves: seq<ControlMove>, i: nat)
    requires i <= |moves|
    ensures |Spelled(w, first, moves)| == |moves|
    ensures Spelled(w, first, moves)[..i] == Spelled(w, first, moves[..i])
    decreases |moves|
  {
    hide Play, ControlPlay;
    SpelledPlays(w, first, moves);
    if i == |moves| {
      assert moves[..i] == moves;
    } else {
      var n := |moves| - 1;
      SpelledPrefix(w, first, moves[..n], i);
      assert moves[..n][..i] == moves[..i];
      assert Spelled(w, first, moves)[..i] == Spelled(w, first, moves[..n])[..i];
    }
  }

  /** What the client echoes at a cut. */
  function Echoes(w: World, first: int, moves: seq<ControlMove>, i: nat): int
    requires i <= |moves|
  {
    EchoCursor(AllNotes(ControlPlay(w, first, moves[..i])), first)
  }

  lemma SpelledAt(kindOf: Uid -> Kind, w: World, first: int, moves: seq<ControlMove>, i: nat)
    requires i < |moves| && ControlAgree(kindOf, moves)
    ensures |Spelled(w, first, moves)| == |moves|
    ensures Spelled(w, first, moves)[i] == match moves[i]
              case Goes(step) => Does(step)
              case Cut(now) => Echo(Echoes(w, first, moves, i), now)
    ensures MovesAgree(kindOf, first, [Spelled(w, first, moves)[i]])
  {
    hide ControlPlay, AllNotes, EchoCursor;
    SpelledPrefix(w, first, moves, i + 1);
    SpelledPlays(w, first, moves[..i]);
    assert moves[..i + 1][..i] == moves[..i] && moves[i] in moves;
    assert Spelled(w, first, moves)[i] == Spelled(w, first, moves)[..i + 1][i];
    CursorIsGreatest(AllNotes(ControlPlay(w, first, moves[..i])), first);
  }

  /** For the control-plane client and any number of cuts: it loses nothing, in any continuation of
      any prefix, exactly when at each cut the greatest seq of any frame so far is safe to echo. */
  lemma ControlClientLosesNothingIff(
      kindOf: Uid -> Kind, log: seq<Row>, first: int, now: int, moves: seq<ControlMove>)
    requires Admissible(kindOf, log, []) && ControlAgree(kindOf, moves)
    ensures var w := Start(ControlPlane, log, first, now);
            (forall i :: 0 <= i <= |moves| ==> LosesNothing(kindOf, first, ControlPlay(w, first, moves[..i])))
            <==> (forall i :: 0 <= i < |moves| && moves[i].Cut? ==>
                    SafeToEcho(ControlPlay(w, first, moves[..i]), Echoes(w, first, moves, i)))
  {
    hide Start, ControlPlay, Play, LosesNothing, SafeToEcho, Echoes, Spelled;
    var w := Start(ControlPlane, log, first, now);
    var spelled := Spelled(w, first, moves);
    SpelledPlays(w, first, moves);
    forall i | 0 <= i < |moves|
      ensures MovesAgree(kindOf, first, [spelled[i]]) && spelled[i].Echo? == moves[i].Cut?
      ensures moves[i].Cut? ==> spelled[i].seqNo == Echoes(w, first, moves, i) {
      SpelledAt(kindOf, w, first, moves, i);
    }
    forall m | m in spelled ensures m in [m] && MovesAgree(kindOf, first, [m]) {}
    forall i | 0 <= i <= |moves| ensures Play(w, spelled[..i]) == ControlPlay(w, first, moves[..i]) {
      SpelledPrefix(w, first, moves, i);
      SpelledPlays(w, first, moves[..i]);
    }
    assert MovesAgree(kindOf, first, spelled);
    EchoesLoseNothingIff(kindOf, ControlPlane, log, first, now, spelled);
  }

  /** One live frame whose local seq runs ahead of the durable log is enough to make a cut unsafe. */
  lemma LocalSeqAheadIsUnsafe(kindOf: Uid -> Kind, first: int, w: World, e: LiveEvent)
    requires Intact(kindOf, first, w) && Sent(Live(e)) in AllNotes(w)
    requires e.localSeq.Some? && first < e.localSeq.value && forall r :: r in w.log ==> r.seqNo < e.localSeq.value
    ensures !SafeToEcho(w, EchoCursor(AllNotes(w), first))
  {
    CursorIsGreatest(AllNotes(w), first);
    assert Carries(Sent(Live(e)), e.localSeq.value);
    hide Carries;
    if first < w.conn.cursor { RowAtCursor(kindOf, first, w); }
    hide EchoCursor, Intact, Reached;
  }
}
