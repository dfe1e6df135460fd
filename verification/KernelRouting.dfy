// Per-turn kernel routing: turns of any number of tasks, interleaved with an allocator that may
// point a scope at another kernel at any moment.

module KernelRouting {
  import opened Options

  /** The process-wide client, the durable data plane, or the client of an endpoint. */
  datatype Client = Process | DataPlane | Remote(key: string)

  /** What the allocator knows of a scope's kernel: no endpoint stands for the process client. */
  datatype Lease = Lease(endpoint: Option<string>)

  function ClientOf(l: Lease): Client {
    match l.endpoint case None => Process case Some(key) => Remote(key)
  }

  /** The kernel a session's execution is pinned to. */
  datatype Pin = Pin(session: string, kernel: Client)

  /** How far a turn is: inside its hook, building its context, handed to the kernel. */
  datatype Phase = Hook | Build | Running

  /** One call of `run_turn`; `saved` is the pin that was current when the call set its own. */
  datatype Frame = Frame(turn: nat, session: string, kernel: Client, phase: Phase, saved: Option<Pin>)

  /** A task and its context: nested turns, the pin variable. */
  datatype Task = Task(frames: seq<Frame>, pin: Option<Pin>)

  /** What happened. A write records the innermost hook it was made in, if any, and what an
      unpinned lookup would have answered at that moment. */
  datatype Entry =
    | Wrote(hook: Option<nat>, target: string, client: Client, peeked: Client)
    | Ran(turn: nat, session: string, client: Client)
    | NotStarted(turn: nat, session: string)

  /** What was fixed when a turn was allocated, and where its call stands. */
  datatype Turn = Turn(session: string, kernel: Client, task: nat, depth: nat)

  datatype World = World(
    scopeOf: string -> string,
    registry: map<string, Lease>,
    tasks: map<nat, Task>,
    turns: map<nat, Turn>,
    next: nat,
    log: seq<Entry>)

  function TaskOf(w: World, t: nat): Task {
    if t in w.tasks then w.tasks[t] else Task([], None)
  }

  /** The live kernel of a session, without provisioning one. */
  function Peek(w: World, session: string): Client {
    var scope := w.scopeOf(session);
    if scope in w.registry then ClientOf(w.registry[scope]) else DataPlane
  }

  function ControlKernel(w: World, t: nat, session: string): Client {
    match TaskOf(w, t).pin
    case Some(p) => if p.session == session then p.kernel else Peek(w, session)
    case None => Peek(w, session)
  }

  // ---------------------------------------------------------------- steps

  /** How an allocation ends; cut short is a cancellation before there is a lease. */
  datatype Allocation = Raises | CutShort | Leased(lease: Lease)
  datatype Ending = Returns | Fails | Required | Cancelled

  datatype Step =
    | Repoint(scope: string, lease: Option<Lease>)
    | Begin(task: nat, session: string, allocation: Allocation, hooked: bool)
    | Write(task: nat, target: string)
    | EndHook(task: nat, ending: Ending)
    | EndBuild(task: nat, ending: Ending)
    | Finish(task: nat)

  function Top(frames: seq<Frame>): Frame
    requires frames != []
  {
    frames[|frames| - 1]
  }

  function Below(frames: seq<Frame>): seq<Frame>
    requires frames != []
  {
    frames[..|frames| - 1]
  }

  predicate Enabled(w: World, s: Step) {
    match s
    case Begin(t, _, _, _) => var f := TaskOf(w, t).frames; f == [] || Top(f).phase != Build
    case EndHook(t, _) => var f := TaskOf(w, t).frames; f != [] && Top(f).phase == Hook
    case EndBuild(t, _) => var f := TaskOf(w, t).frames; f != [] && Top(f).phase == Build
    case Finish(t) => var f := TaskOf(w, t).frames; f != [] && Top(f).phase == Running
    case _ => true
  }

  function WithTask(w: World, t: nat, task: Task, entries: seq<Entry>): World {
    w.(tasks := w.tasks[t := task], log := w.log + entries)
  }

  /** A step that is not enabled does nothing. */
  function Apply(w: World, s: Step): World {
    if !Enabled(w, s) then w
    else
      match s
      case Repoint(scope, lease) =>
        w.(registry := if lease.Some? then w.registry[scope := lease.value] else w.registry - {scope})
      case Begin(t, session, allocation, hooked) => ApplyBegin(w, t, session, allocation, hooked)
      case Write(t, target) =>
        w.(log := w.log + [Wrote(HookOf(TaskOf(w, t).frames), target, ControlKernel(w, t, target), Peek(w, target))])
      case EndHook(t, ending) => ApplyEndHook(w, t, ending)
      case EndBuild(t, ending) => ApplyEndBuild(w, t, ending)
      case Finish(t) =>
        var task := TaskOf(w, t);
        WithTask(w, t, task.(frames := Below(task.frames)), [])
  }

  /** Allocation, and the pin when there is a hook to run. */
  function ApplyBegin(w: World, t: nat, session: string, allocation: Allocation, hooked: bool): World {
    var task, turn := TaskOf(w, t), w.next;
    match allocation
    case Raises => w.(next := turn + 1, log := w.log + [NotStarted(turn, session)])
    case CutShort => w.(next := turn + 1)
    case Leased(lease) =>
      var k := ClientOf(lease);
      var frame := Frame(turn, session, k, if hooked then Hook else Build, task.pin);
      WithTask(w, t, Task(task.frames + [frame], if hooked then Some(Pin(session, k)) else task.pin), [])
        .(turns := w.turns[turn := Turn(session, k, t, |task.frames|)], next := turn + 1)
  }

  /** The pin is reset whatever the hook does; only a required failure or a cancellation ends
      the turn. */
  function ApplyEndHook(w: World, t: nat, ending: Ending): World
    requires TaskOf(w, t).frames != []
  {
    var task := TaskOf(w, t);
    var f, rest := Top(task.frames), Below(task.frames);
    match ending
    case Required => WithTask(w, t, Task(rest, f.saved), [NotStarted(f.turn, f.session)])
    case Cancelled => WithTask(w, t, Task(rest, f.saved), [])
    case _ => WithTask(w, t, Task(rest + [f.(phase := Build)], f.saved), [])
  }

  function ApplyEndBuild(w: World, t: nat, ending: Ending): World
    requires TaskOf(w, t).frames != []
  {
    var task := TaskOf(w, t);
    var f, rest := Top(task.frames), Below(task.frames);
    match ending
    case Returns => WithTask(w, t, task.(frames := rest + [f.(phase := Running)]), [Ran(f.turn, f.session, f.kernel)])
    case Cancelled => WithTask(w, t, task.(frames := rest), [])
    case _ => WithTask(w, t, task.(frames := rest), [NotStarted(f.turn, f.session)])
  }

  function Run(w: World, steps: seq<Step>): World {
    if steps == [] then w else Apply(Run(w, steps[..|steps| - 1]), steps[|steps| - 1])
  }

  function Start(scopeOf: string -> string, registry: map<string, Lease>): World {
    World(scopeOf, registry, map[], map[], 0, [])
  }

  // ---------------------------------------------------------------- what the pin stands for

  /** The innermost turn whose hook is running. */
  function HookOf(frames: seq<Frame>): Option<nat> {
    if frames == [] then None
    else if Top(frames).phase == Hook then Some(Top(frames).turn)
    else HookOf(Below(frames))
  }

  function PinOf(frames: seq<Frame>): Option<Pin> {
    if frames == [] then None
    else if Top(frames).phase == Hook then Some(Pin(Top(frames).session, Top(frames).kernel))
    else PinOf(Below(frames))
  }

  /** The pin is the innermost hook's, and every call saved the one below it. */
  ghost predicate TaskInv(task: Task) {
    && task.pin == PinOf(task.frames)
    && forall i :: 0 <= i < |task.frames| ==> task.frames[i].saved == PinOf(task.frames[..i])
  }

  ghost predicate FrameInv(w: World, t: nat, i: nat, f: Frame) {
    && f.turn in w.turns && w.turns[f.turn] == Turn(f.session, f.kernel, t, i)
    && (forall e :: e in w.log ==> !(e.NotStarted? && e.turn == f.turn))
    && (f.phase != Running ==> forall e :: e in w.log ==> !(e.Ran? && e.turn == f.turn))
  }

  ghost predicate FramesInv(w: World) {
    forall t, i :: t in w.tasks && 0 <= i < |w.tasks[t].frames| ==> FrameInv(w, t, i, w.tasks[t].frames[i])
  }

  /** A hook's write goes to the turn's own kernel exactly when it is for the turn's session. */
  ghost predicate EntryInv(w: World, e: Entry) {
    match e
    case Wrote(None, target, client, peeked) => client == peeked
    case Wrote(Some(n), target, client, peeked) =>
      n in w.turns && client == if target == w.turns[n].session then w.turns[n].kernel else peeked
    case Ran(n, session, client) => n in w.turns && w.turns[n].session == session && w.turns[n].kernel == client
    case NotStarted(n, _) => n < w.next
  }

  /** A turn that was handed over is not reported as not started, and its hook is over. */
  ghost predicate LogInv(log: seq<Entry>) {
    forall i, j :: 0 <= i < |log| && 0 <= j < |log| && log[i].Ran? ==>
      && !(log[j].NotStarted? && log[j].turn == log[i].turn)
      && (log[j].Wrote? && log[j].hook == Some(log[i].turn) ==> j < i)
  }

  ghost predicate TasksInv(w: World) {
    forall t :: t in w.tasks ==> TaskInv(w.tasks[t])
  }

  ghost predicate HistoryInv(w: World) {
    && (forall n :: n in w.turns ==> n < w.next)
    && (forall e :: e in w.log ==> EntryInv(w, e))
    && LogInv(w.log)
  }

  ghost predicate Inv(w: World) {
    TasksInv(w) && FramesInv(w) && HistoryInv(w)
  }

  // ---------------------------------------------------------------- every step keeps it

  lemma {:induction false} HookIsPinned(w: World, t: nat, frames: seq<Frame>)
    requires forall i :: 0 <= i < |frames| ==> FrameInv(w, t, i, frames[i])
    ensures match HookOf(frames)
            case None => PinOf(frames) == None
            case Some(n) =>
              && n in w.turns && PinOf(frames) == Some(Pin(w.turns[n].session, w.turns[n].kernel))
              && forall e :: e in w.log ==> !(e.Ran? && e.turn == n)
  {
    if frames != [] {
      if Top(frames).phase != Hook {
        assert forall i :: 0 <= i < |Below(frames)| ==> Below(frames)[i] == frames[i];
        HookIsPinned(w, t, Below(frames));
      }
    }
  }

  lemma LogExtends(log: seq<Entry>, e: Entry)
    requires LogInv(log)
    requires e.NotStarted? ==> forall d :: d in log ==> !(d.Ran? && d.turn == e.turn)
    requires e.Wrote? && e.hook.Some? ==> forall d :: d in log ==> !(d.Ran? && d.turn == e.hook.value)
    requires e.Ran? ==> forall d :: d in log ==> !(d.NotStarted? && d.turn == e.turn)
    ensures LogInv(log + [e])
  {
    var all := log + [e];
    forall i, j | 0 <= i < |all| && 0 <= j < |all| && all[i].Ran?
      ensures !(all[j].NotStarted? && all[j].turn == all[i].turn)
      ensures all[j].Wrote? && all[j].hook == Some(all[i].turn) ==> j < i {
      assert i < |log| ==> all[i] in log;
      assert j < |log| ==> all[j] in log;
    }
  }

  lemma WriteKeeps(w: World, t: nat, target: string)
    requires Inv(w)
    ensures Inv(Apply(w, Write(t, target)))
  {
    var e := Wrote(HookOf(TaskOf(w, t).frames), target, ControlKernel(w, t, target), Peek(w, target));
    WriteIsRouted(w, t, target);
    hide TaskInv, ControlKernel, HookOf, Peek, LogInv;
    LogExtends(w.log, e);
    var v := Apply(w, Write(t, target));
    forall d | d in v.log ensures EntryInv(v, d) {
      assert d == e || d in w.log;
      assert EntryInv(w, d);
    }
    forall u, i | u in v.tasks && 0 <= i < |v.tasks[u].frames| ensures FrameInv(v, u, i, v.tasks[u].frames[i]) {
      assert FrameInv(w, u, i, w.tasks[u].frames[i]);
    }
  }

  lemma WriteIsRouted(w: World, t: nat, target: string)
    requires Inv(w)
    ensures var hook := HookOf(TaskOf(w, t).frames);
            && EntryInv(w, Wrote(hook, target, ControlKernel(w, t, target), Peek(w, target)))
            && (hook.Some? ==> forall d :: d in w.log ==> !(d.Ran? && d.turn == hook.value))
  {
    hide Peek;
    HookIsPinned(w, t, TaskOf(w, t).frames);
  }

  lemma RaiseKeeps(w: World, t: nat, session: string, hooked: bool)
    requires Inv(w)
    ensures Inv(ApplyBegin(w, t, session, Raises, hooked))
  {
    var e := NotStarted(w.next, session);
    forall d | d in w.log ensures EntryInv(w, d) && !(d.Ran? && d.turn == e.turn) {}
    LogExtends(w.log, e);
  }

  lemma CutKeeps(w: World, t: nat, session: string, hooked: bool)
    requires Inv(w)
    ensures Inv(ApplyBegin(w, t, session, CutShort, hooked))
  {
    hide TaskInv, LogInv;
    var v := ApplyBegin(w, t, session, CutShort, hooked);
    forall e | e in v.log ensures EntryInv(v, e) { assert EntryInv(w, e); }
    forall u, i | u in v.tasks && 0 <= i < |v.tasks[u].frames| ensures FrameInv(v, u, i, v.tasks[u].frames[i]) {
      assert FrameInv(w, u, i, w.tasks[u].frames[i]);
    }
  }

  /** Pushing a frame keeps what each call saved. */
  lemma PushKeepsTask(task: Task, f: Frame)
    requires TaskInv(task) && f.saved == task.pin && f.phase != Running
    ensures TaskInv(Task(task.frames + [f], if f.phase == Hook then Some(Pin(f.session, f.kernel)) else task.pin))
  {
    var frames := task.frames + [f];
    assert Below(frames) == task.frames;
    forall i | 0 <= i < |frames| ensures frames[i].saved == PinOf(frames[..i]) {
      if i < |task.frames| { assert frames[..i] == task.frames[..i]; } else { assert frames[..i] == task.frames; }
    }
  }

  lemma BeginKeeps(w: World, t: nat, session: string, lease: Lease, hooked: bool)
    requires Inv(w)
    ensures Inv(ApplyBegin(w, t, session, Leased(lease), hooked))
  {
    hide PinOf;
    var task, v := TaskOf(w, t), ApplyBegin(w, t, session, Leased(lease), hooked);
    var f := Frame(w.next, session, ClientOf(lease), if hooked then Hook else Build, task.pin);
    EmptyTask();
    PushKeepsTask(task, f);
    assert HistoryInv(v) by {
      forall e | e in v.log ensures EntryInv(v, e) { assert EntryInv(w, e); }
    }
    forall u, i | u in v.tasks && 0 <= i < |v.tasks[u].frames| ensures FrameInv(v, u, i, v.tasks[u].frames[i]) {
      if u == t && i == |task.frames| {
        forall e | e in v.log ensures !(e.NotStarted? && e.turn == f.turn) && !(e.Ran? && e.turn == f.turn) {
          assert EntryInv(w, e);
        }
      } else {
        assert u in w.tasks && v.tasks[u].frames[i] == w.tasks[u].frames[i];
        assert FrameInv(w, u, i, w.tasks[u].frames[i]);
      }
    }
  }

  lemma EmptyTask()
    ensures TaskInv(Task([], None))
  {
  }

  /** The top call leaves, or goes one phase further. */
  lemma TopKeepsTask(task: Task, phase: Phase)
    requires TaskInv(task) && task.frames != [] && phase != Hook
    ensures TaskInv(Task(Below(task.frames), Top(task.frames).saved))
    ensures TaskInv(Task(Below(task.frames) + [Top(task.frames).(phase := phase)], Top(task.frames).saved))
    ensures Top(task.frames).phase != Hook ==> Top(task.frames).saved == task.pin
  {
    var rest, f := Below(task.frames), Top(task.frames);
    assert f.saved == PinOf(rest);
    forall i | 0 <= i < |rest| ensures rest[i].saved == PinOf(rest[..i]) { assert rest[..i] == task.frames[..i]; }
    var frames := rest + [f.(phase := phase)];
    assert Below(frames) == rest;
    forall i | 0 <= i < |frames| ensures frames[i].saved == PinOf(frames[..i]) {
      if i < |rest| { assert frames[..i] == rest[..i]; } else { assert frames[..i] == rest; }
    }
  }

  /** The top call of a task moves on, and says at most one thing about its own turn. */
  lemma TopMoves(w: World, t: nat, next: Task, entries: seq<Entry>)
    requires Inv(w) && t in w.tasks && w.tasks[t].frames != []
    requires TaskInv(next)
    requires var f, rest := Top(w.tasks[t].frames), Below(w.tasks[t].frames);
             && f.phase != Running
             && (|| (next.frames == rest && (entries == [] || entries == [NotStarted(f.turn, f.session)]))
                 || (next.frames == rest + [f.(phase := Build)] && entries == [])
                 || (next.frames == rest + [f.(phase := Running)] && entries == [Ran(f.turn, f.session, f.kernel)]))
    ensures Inv(WithTask(w, t, next, entries))
  {
    hide TaskInv;
    var v, f, n := WithTask(w, t, next, entries), Top(w.tasks[t].frames), |w.tasks[t].frames| - 1;
    assert FrameInv(w, t, n, f);
    forall e | e in v.log ensures EntryInv(v, e) {
      if e in w.log { assert EntryInv(w, e); }
    }
    if entries != [] { LogExtends(w.log, entries[0]); } else { assert v.log == w.log; }
    forall u, i | u in v.tasks && 0 <= i < |v.tasks[u].frames| ensures FrameInv(v, u, i, v.tasks[u].frames[i]) {
      assert FrameInv(w, u, i, w.tasks[u].frames[i]);
      assert u != t || i < n ==> v.tasks[u].frames[i] == w.tasks[u].frames[i] && w.tasks[u].frames[i].turn != f.turn;
    }
  }

  lemma FinishKeeps(w: World, t: nat)
    requires Inv(w) && Enabled(w, Finish(t))
    ensures Inv(Apply(w, Finish(t)))
  {
    hide TaskInv;
    var task := TaskOf(w, t);
    TopKeepsTask(task, Running);
    var v := Apply(w, Finish(t));
    assert v.log == w.log;
    forall e | e in v.log ensures EntryInv(v, e) { assert EntryInv(w, e); }
    forall u, i | u in v.tasks && 0 <= i < |v.tasks[u].frames| ensures FrameInv(v, u, i, v.tasks[u].frames[i]) {
      assert FrameInv(w, u, i, w.tasks[u].frames[i]);
    }
  }

  lemma StepKeeps(w: World, s: Step)
    requires Inv(w)
    ensures Inv(Apply(w, s))
  {
    hide Inv, TaskInv;
    if Enabled(w, s) {
      match s
      case Repoint(scope, lease) => RepointKeeps(w, scope, lease);
      case Begin(t, session, Raises, hooked) => RaiseKeeps(w, t, session, hooked);
      case Begin(t, session, CutShort, hooked) => CutKeeps(w, t, session, hooked);
      case Begin(t, session, Leased(lease), hooked) => BeginKeeps(w, t, session, lease, hooked);
      case Write(t, target) => WriteKeeps(w, t, target);
      case EndHook(t, ending) => EndHookKeeps(w, t, ending);
      case EndBuild(t, ending) => EndBuildKeeps(w, t, ending);
      case Finish(t) => FinishKeeps(w, t);
    }
  }

  lemma RepointKeeps(w: World, scope: string, lease: Option<Lease>)
    requires Inv(w)
    ensures Inv(Apply(w, Repoint(scope, lease)))
  {
    var v := Apply(w, Repoint(scope, lease));
    forall e | e in v.log ensures EntryInv(v, e) { assert EntryInv(w, e); }
    forall u, i | u in v.tasks && 0 <= i < |v.tasks[u].frames| ensures FrameInv(v, u, i, v.tasks[u].frames[i]) {
      assert FrameInv(w, u, i, w.tasks[u].frames[i]);
    }
  }

  lemma EndHookKeeps(w: World, t: nat, ending: Ending)
    requires Inv(w) && Enabled(w, EndHook(t, ending))
    ensures Inv(Apply(w, EndHook(t, ending)))
  {
    assert TaskInv(w.tasks[t]);
    hide Inv, TaskInv;
    var task := TaskOf(w, t);
    var f, rest := Top(task.frames), Below(task.frames);
    TopKeepsTask(task, Build);
    match ending
    case Required => TopMoves(w, t, Task(rest, f.saved), [NotStarted(f.turn, f.session)]);
    case Cancelled => TopMoves(w, t, Task(rest, f.saved), []);
    case _ => TopMoves(w, t, Task(rest + [f.(phase := Build)], f.saved), []);
  }

  lemma EndBuildKeeps(w: World, t: nat, ending: Ending)
    requires Inv(w) && Enabled(w, EndBuild(t, ending))
    ensures Inv(Apply(w, EndBuild(t, ending)))
  {
    assert TaskInv(w.tasks[t]);
    hide Inv, TaskInv;
    var task := TaskOf(w, t);
    var f, rest := Top(task.frames), Below(task.frames);
    TopKeepsTask(task, Running);
    match ending
    case Returns => TopMoves(w, t, Task(rest + [f.(phase := Running)], f.saved), [Ran(f.turn, f.session, f.kernel)]);
    case Cancelled => TopMoves(w, t, Task(rest, f.saved), []);
    case _ => TopMoves(w, t, Task(rest, f.saved), [NotStarted(f.turn, f.session)]);
  }

  lemma {:induction false} RunKeeps(scopeOf: string -> string, registry: map<string, Lease>, steps: seq<Step>)
    ensures Inv(Run(Start(scopeOf, registry), steps))
  {
    if steps != [] {
      RunKeeps(scopeOf, registry, steps[..|steps| - 1]);
      StepKeeps(Run(Start(scopeOf, registry), steps[..|steps| - 1]), steps[|steps| - 1]);
    }
  }

  // ---------------------------------------------------------------- what follows for every run

  /** In every interleaving: a write made in a turn's hook for the turn's own session is on the
      kernel that runs the turn, and was made before it runs; any other write went where an
      unpinned lookup would have sent it. */
  lemma HookWritesReachTheTurn(
      scopeOf: string -> string, registry: map<string, Lease>, steps: seq<Step>, i: nat, j: nat)
    requires var log := Run(Start(scopeOf, registry), steps).log;
             i < |log| && j < |log| && log[i].Wrote? && log[j].Ran? && log[i].hook == Some(log[j].turn)
    ensures var log := Run(Start(scopeOf, registry), steps).log;
            i < j && log[i].client == if log[i].target == log[j].session then log[j].client else log[i].peeked
  {
    RunKeeps(scopeOf, registry, steps);
    var w := Run(Start(scopeOf, registry), steps);
    hide Run;
    assert w.log[i] in w.log && w.log[j] in w.log;
    assert EntryInv(w, w.log[i]) && EntryInv(w, w.log[j]);
  }

  /** Outside a hook, and for another session inside one, nothing is diverted. */
  lemma OtherWritesAreNotDiverted(
      scopeOf: string -> string, registry: map<string, Lease>, steps: seq<Step>, t: nat, target: string)
    ensures var w := Run(Start(scopeOf, registry), steps);
            var hook := HookOf(TaskOf(w, t).frames);
            if hook.Some? && hook.value in w.turns && w.turns[hook.value].session == target
            then ControlKernel(w, t, target) == w.turns[hook.value].kernel
            else ControlKernel(w, t, target) == Peek(w, target)
  {
    RunKeeps(scopeOf, registry, steps);
    var w := Run(Start(scopeOf, registry), steps);
    hide Run;
    HookIsPinned(w, t, TaskOf(w, t).frames);
  }

  /** A turn reported as not started was never received by a kernel. */
  lemma NotStartedWasNeverReceived(
      scopeOf: string -> string, registry: map<string, Lease>, steps: seq<Step>, i: nat, j: nat)
    requires var log := Run(Start(scopeOf, registry), steps).log;
             i < |log| && j < |log| && log[i].NotStarted? && log[j].Ran?
    ensures var log := Run(Start(scopeOf, registry), steps).log; log[i].turn != log[j].turn
  {
    RunKeeps(scopeOf, registry, steps);
    hide Run;
  }

  /** Whatever happened in between, a task is back at its earlier pin when it is back at its
      earlier calls; without calls it has none. */
  lemma PinIsRestored(
      scopeOf: string -> string, registry: map<string, Lease>, before: seq<Step>, after: seq<Step>, t: nat)
    requires TaskOf(Run(Start(scopeOf, registry), before), t).frames
          == TaskOf(Run(Start(scopeOf, registry), after), t).frames
    ensures TaskOf(Run(Start(scopeOf, registry), before), t).pin == TaskOf(Run(Start(scopeOf, registry), after), t).pin
    ensures TaskOf(Run(Start(scopeOf, registry), before), t).frames == []
       ==> TaskOf(Run(Start(scopeOf, registry), before), t).pin == None
  {
    RunKeeps(scopeOf, registry, before);
    RunKeeps(scopeOf, registry, after);
    hide Run;
  }
}
