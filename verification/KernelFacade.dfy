// The facade's own code: the pin variable that `run_turn` sets and resets step by step, and the
// control routing that reads it. Each method is a run of the routing machine.

module KernelFacade {
  import opened Options
  import opened KernelRouting
  import opened KernelTurns

  /** What a hook does before it ends: writes of its own, and an allocator moving on beside it. */
  datatype Action = Control(target: string) | Moved(scope: string, lease: Option<Lease>)

  datatype HookRun = HookRun(actions: seq<Action>, ending: Ending)

  datatype Outcome = Answered | TurnNotStarted | WasCancelled

  function ActionStep(t: nat, a: Action): Step {
    match a
    case Control(target) => Write(t, target)
    case Moved(scope, lease) => Repoint(scope, lease)
  }

  function ActionSteps(t: nat, actions: seq<Action>): seq<Step> {
    seq(|actions|, i requires 0 <= i < |actions| => ActionStep(t, actions[i]))
  }

  /** The steps of one call. */
  function TurnSteps(
      t: nat, session: string, allocation: Allocation, hook: Option<HookRun>, build: Ending): seq<Step> {
    [Begin(t, session, allocation, hook.Some?)] + if allocation.Leased? then LeasedSteps(t, hook, build) else []
  }

  /** The steps behind a successful allocation. */
  function LeasedSteps(t: nat, hook: Option<HookRun>, build: Ending): seq<Step> {
    match hook
    case None => BuildSteps(t, build)
    case Some(run) => HookSteps(t, run) + if Goes(run.ending) then BuildSteps(t, build) else []
  }

  function HookSteps(t: nat, run: HookRun): seq<Step> {
    ActionSteps(t, run.actions) + [EndHook(t, run.ending)]
  }

  function BuildSteps(t: nat, build: Ending): seq<Step> {
    [EndBuild(t, build)] + if build.Returns? then [Finish(t)] else []
  }

  /** What a hook's last move said of a scope, or what the hook found there. */
  function LastMove(registry: map<string, Lease>, actions: seq<Action>, scope: string): Option<Lease> {
    if actions == [] then (if scope in registry then Some(registry[scope]) else None)
    else
      match actions[|actions| - 1]
      case Moved(s, lease) => if s == scope then lease else LastMove(registry, actions[..|actions| - 1], scope)
      case Control(_) => LastMove(registry, actions[..|actions| - 1], scope)
  }

  /** The writes of a hook of turn `n`, in order: one for the turn's session goes to its kernel `own`. */
  function HookLog(
      scopeOf: string -> string, registry: map<string, Lease>, actions: seq<Action>,
      n: nat, session: string, own: Client): seq<Entry> {
    if actions == [] then []
    else
      var front := actions[..|actions| - 1];
      HookLog(scopeOf, registry, front, n, session, own)
      + match actions[|actions| - 1]
        case Moved(_, _) => []
        case Control(target) =>
          var live := match LastMove(registry, front, scopeOf(target))
                      case None => DataPlane
                      case Some(Lease(None)) => Process
                      case Some(Lease(Some(key))) => Remote(key);
          [Wrote(Some(n), target, if target == session then own else live, live)]
  }

  lemma {:induction false} HookOnlyWrites(
      scopeOf: string -> string, registry: map<string, Lease>, actions: seq<Action>,
      n: nat, session: string, own: Client)
    ensures forall e :: e in HookLog(scopeOf, registry, actions, n, session, own) ==> e.Wrote?
  {
    if actions != [] { HookOnlyWrites(scopeOf, registry, actions[..|actions| - 1], n, session, own); }
  }

  /** A kernel got the turn, or the turn was reported as not started. */
  ghost predicate Received(entries: seq<Entry>, n: nat) { exists e :: e in entries && e.Ran? && e.turn == n }
  ghost predicate Reported(entries: seq<Entry>, n: nat) { exists e :: e in entries && e.NotStarted? && e.turn == n }

  /** A call's entries are its hook's writes and at most one word on the turn. */
  lemma EntriesTell(was: seq<Entry>, writes: seq<Entry>, last: seq<Entry>, n: nat)
    requires forall e :: e in writes ==> e.Wrote?
    requires |last| <= 1
    ensures var log := was + writes + last;
            && was <= log
            && (Received(log[|was|..], n) <==> last != [] && last[0].Ran? && last[0].turn == n)
            && (Reported(log[|was|..], n) <==> last != [] && last[0].NotStarted? && last[0].turn == n)
  {
    var log := was + writes + last;
    assert log[|was|..] == writes + last;
    if last != [] { assert last[0] in log[|was|..]; }
  }

  lemma ActionWrites(w: World, t: nat, a: Action, n: nat, session: string, own: Client)
    requires HookOf(TaskOf(w, t).frames) == Some(n) && TaskOf(w, t).pin == Some(Pin(session, own))
    ensures var v := Apply(w, ActionStep(t, a));
            && v.scopeOf == w.scopeOf && TaskOf(v, t) == TaskOf(w, t)
            && (forall scope ::
                  Lookup(v, scope) == if a.Moved? && a.scope == scope then a.lease else Lookup(w, scope))
            && v.log == w.log + match a
                 case Moved(_, _) => []
                 case Control(target) =>
                   var live := match Lookup(w, w.scopeOf(target))
                               case None => DataPlane
                               case Some(Lease(None)) => Process
                               case Some(Lease(Some(key))) => Remote(key);
                   [Wrote(Some(n), target, if target == session then own else live, live)]
  {
    hide HookOf;
    assert w.log + [] == w.log;
  }

  lemma {:induction false} ActionsWrite(w: World, t: nat, actions: seq<Action>, n: nat, session: string, own: Client)
    requires HookOf(TaskOf(w, t).frames) == Some(n) && TaskOf(w, t).pin == Some(Pin(session, own))
    ensures var v := Run(w, ActionSteps(t, actions));
            && v.scopeOf == w.scopeOf && TaskOf(v, t) == TaskOf(w, t)
            && (forall scope :: Lookup(v, scope) == LastMove(w.registry, actions, scope))
            && v.log == w.log + HookLog(w.scopeOf, w.registry, actions, n, session, own)
  {
    hide Apply, HookOf, ActionStep;
    if actions == [] {
      assert w.log + [] == w.log;
    } else {
      var k := |actions| - 1;
      ActionsWrite(w, t, actions[..k], n, session, own);
      ActionWrites(Run(w, ActionSteps(t, actions[..k])), t, actions[k], n, session, own);
      assert ActionSteps(t, actions)[..k] == ActionSteps(t, actions[..k]);
    }
  }

  lemma {:induction false} RunParts(w: World, a: seq<Step>, b: seq<Step>)
    ensures Run(w, a + b) == Run(Run(w, a), b)
    decreases |b|
  {
    hide Apply;
    if b == [] {
      assert a + b == a;
    } else {
      assert (a + b)[..|a + b| - 1] == a + b[..|b| - 1];
      RunParts(w, a, b[..|b| - 1]);
    }
  }

  lemma RunOne(w: World, s: Step)
    ensures Run(w, [s]) == Apply(w, s)
  {
    hide Apply;
    assert [s][..0] == [];
    assert Run(w, []) == w;
  }

  /** The facade as one task `me` sees it; the ghost fields are the machine's bookkeeping. */
  class Facade {
    const me: nat
    const scopeOf: string -> string
    var pin: Option<Pin>
    var registry: map<string, Lease>
    var next: nat
    ghost var frames: seq<Frame>
    ghost var others: map<nat, Task>
    ghost var turns: map<nat, Turn>
    ghost var log: seq<Entry>

    ghost function AsWorld(): World
      reads this
    {
      World(scopeOf, registry, others[me := Task(frames, pin)], turns, next, log)
    }

    /** The calls below are inside a hook or with the kernel, as a nested call's caller is. */
    ghost predicate Ready()
      reads this
    {
      frames == [] || Top(frames).phase != Build
    }

    constructor (me: nat, scopeOf: string -> string, registry: map<string, Lease>)
      ensures this.me == me && this.scopeOf == scopeOf && this.registry == registry && Ready()
      ensures frames == [] && pin == None && log == [] && next == 0
    {
      this.me, this.scopeOf, this.registry, pin, next := me, scopeOf, registry, None, 0;
      frames, others, turns, log := [], map[], map[], [];
    }

    /** Where a control write of a session goes. */
    method RouteControl(session: string) returns (client: Client)
      ensures client == ControlKernel(AsWorld(), me, session)
      ensures var pinned, scope := pin.Some? && pin.value.session == session, scopeOf(session);
              && (pinned ==> client == pin.value.kernel)
              && (!pinned && scope !in registry ==> client == DataPlane)
              && (!pinned && scope in registry ==>
                   client == match registry[scope].endpoint case None => Process case Some(key) => Remote(key))
    {
      if pin.Some? && pin.value.session == session { return pin.value.kernel; }
      var scope := scopeOf(session);
      if scope in registry { return ClientOf(registry[scope]); }
      return DataPlane;
    }

    /** One action of a running hook. */
    method Act(a: Action)
      modifies this
      ensures AsWorld() == Apply(old(AsWorld()), ActionStep(me, a))
      ensures frames == old(frames) && pin == old(pin) && others == old(others) && next == old(next)
    {
      match a
      case Control(target) =>
        var client := RouteControl(target);
        log := log + [Wrote(HookOf(frames), target, client, Peek(AsWorld(), target))];
      case Moved(scope, lease) =>
        registry := if lease.Some? then registry[scope := lease.value] else registry - {scope};
    }

    method ActAll(actions: seq<Action>)
      modifies this
      ensures AsWorld() == Run(old(AsWorld()), ActionSteps(me, actions))
      ensures frames == old(frames) && pin == old(pin) && others == old(others) && next == old(next)
    {
      hide Apply, ActionStep;
      ghost var w := AsWorld();
      var i := 0;
      while i < |actions|
        invariant 0 <= i <= |actions|
        invariant AsWorld() == Run(w, ActionSteps(me, actions)[..i])
        invariant frames == old(frames) && pin == old(pin) && others == old(others) && next == old(next)
      {
        ghost var steps := ActionSteps(me, actions);
        assert steps[..i + 1][..i] == steps[..i] && steps[..i + 1][i] == ActionStep(me, actions[i]);
        Act(actions[i]);
        i := i + 1;
      }
      assert ActionSteps(me, actions)[..i] == ActionSteps(me, actions);
    }

    /** The hook under its pin, which is reset however the hook ends. */
    method RunHook(session: string, k: Client, hook: HookRun)
      requires frames != [] && Top(frames) == Frame(Top(frames).turn, session, k, Hook, pin)
      modifies this
      ensures AsWorld() == Run(old(Pinned(session, k)), HookSteps(me, hook))
      ensures pin == old(pin) && next == old(next)
      ensures log == old(log) + HookLog(scopeOf, old(registry), hook.actions, old(Top(frames)).turn, session, k)
                   + if hook.ending.Required? then [NotStarted(old(Top(frames)).turn, session)] else []
      ensures frames == Below(old(frames)) + if Goes(hook.ending) then [old(Top(frames)).(phase := Build)] else []
    {
      hide Run;
      ghost var start := Pinned(session, k);
      ActionsWrite(start, me, hook.actions, Top(frames).turn, session, k);
      var token := pin;
      pin := Some(Pin(session, k));
      assert AsWorld() == start;
      ActAll(hook.actions);
      ghost var w := AsWorld();
      ghost var f := Top(frames);
      ghost var rest := Below(frames) + if Goes(hook.ending) then [f.(phase := Build)] else [];
      assert !Goes(hook.ending) ==> rest == Below(frames);
      Replaced(others, me, Task(frames, pin), Task(rest, token));
      pin := token;
      frames := rest;
      if hook.ending.Required? { log := log + [NotStarted(f.turn, session)]; }
      assert w.log + [] == w.log;
      assert AsWorld() == Apply(w, EndHook(me, hook.ending));
      RunParts(start, ActionSteps(me, hook.actions), [EndHook(me, hook.ending)]);
      RunOne(w, EndHook(me, hook.ending));
    }

    ghost function Pinned(session: string, k: Client): World
      reads this
    {
      AsWorld().(tasks := others[me := Task(frames, Some(Pin(session, k)))])
    }

    /** The context is built; then the kernel gets the turn and answers it. */
    method BuildAndSend(build: Ending) returns (outcome: Outcome)
      requires frames != [] && Top(frames).phase == Build
      modifies this
      ensures AsWorld() == Run(old(AsWorld()), BuildSteps(me, build))
      ensures pin == old(pin) && frames == Below(old(frames)) && next == old(next)
      ensures outcome.Answered? <==> build.Returns?
      ensures outcome.WasCancelled? <==> build.Cancelled?
      ensures log == old(log) + match outcome
                case Answered => [Ran(old(Top(frames)).turn, old(Top(frames)).session, old(Top(frames)).kernel)]
                case TurnNotStarted => [NotStarted(old(Top(frames)).turn, old(Top(frames)).session)]
                case WasCancelled => []
    {
      hide Run;
      ghost var w := AsWorld();
      ghost var f, rest := Top(frames), Below(frames);
      RunOne(w, EndBuild(me, build));
      Replaced(others, me, Task(frames, pin), Task(rest, pin));
      match build {
        case Returns =>
          log := log + [Ran(f.turn, f.session, f.kernel)];
          Replaced(others, me, Task(frames, pin), Task(rest + [f.(phase := Running)], pin));
          frames := rest + [f.(phase := Running)];
          assert AsWorld() == Apply(w, EndBuild(me, build));
          ghost var v := AsWorld();
          Replaced(others, me, Task(frames, pin), Task(rest, pin));
          assert Below(frames) == rest;
          frames := rest;
          assert AsWorld() == Apply(v, Finish(me));
          RunOne(v, Finish(me));
          RunParts(w, [EndBuild(me, build)], [Finish(me)]);
          outcome := Answered;
        case Cancelled =>
          frames := rest;
          assert AsWorld() == Apply(w, EndBuild(me, build));
          outcome := WasCancelled;
        case _ =>
          log := log + [NotStarted(f.turn, f.session)];
          frames := rest;
          assert AsWorld() == Apply(w, EndBuild(me, build));
          outcome := TurnNotStarted;
      }
      assert [EndBuild(me, build)] + [] == [EndBuild(me, build)];
    }

    /** Allocation: the turn's client, or a turn that never starts. */
    method Allocate(session: string, allocation: Allocation, hooked: bool) returns (k: Option<Client>)
      requires Ready()
      modifies this
      ensures pin == old(pin) && others == old(others) && registry == old(registry) && next == old(next) + 1
      ensures k == if allocation.Leased? then Some(ClientOf(allocation.lease)) else None
      ensures log == if allocation.Raises? then old(log) + [NotStarted(old(next), session)] else old(log)
      ensures k.None? ==> frames == old(frames)
                          && AsWorld() == Apply(old(AsWorld()), Begin(me, session, allocation, hooked))
      ensures k.Some? ==>
        && frames == old(frames) + [Frame(old(next), session, k.value, if hooked then Hook else Build, pin)]
        && (if hooked then Pinned(session, k.value) else AsWorld())
           == Apply(old(AsWorld()), Begin(me, session, allocation, hooked))
    {
      var turn := next;
      next := next + 1;
      if allocation.Raises? {
        log := log + [NotStarted(turn, session)];
        return None;
      }
      if allocation.CutShort? { return None; }
      var client := ClientOf(allocation.lease);
      ghost var pushed := frames + [Frame(turn, session, client, if hooked then Hook else Build, pin)];
      Replaced(others, me, Task(frames, pin), Task(pushed, if hooked then Some(Pin(session, client)) else pin));
      assert log + [] == log;
      turns := turns[turn := Turn(session, client, me, |frames|)];
      frames := pushed;
      return Some(client);
    }

    /** The call from its allocation on: the hook under its pin, if there is one, then the context
        and the kernel. */
    method RunLeased(session: string, k: Client, hook: Option<HookRun>, build: Ending) returns (outcome: Outcome)
      requires frames != []
      requires Top(frames) == Frame(Top(frames).turn, session, k, if hook.Some? then Hook else Build, pin)
      modifies this
      ensures AsWorld() == Run(old(if hook.Some? then Pinned(session, k) else AsWorld()), LeasedSteps(me, hook, build))
      ensures pin == old(pin) && frames == Below(old(frames)) && next == old(next)
      ensures outcome.Answered? <==> (hook.None? || Goes(hook.value.ending)) && build.Returns?
      ensures outcome.WasCancelled?
         <==> if hook.None? || Goes(hook.value.ending) then build.Cancelled? else hook.value.ending.Cancelled?
      ensures log == old(log)
                   + (if hook.None? then []
                      else HookLog(scopeOf, old(registry), hook.value.actions, old(Top(frames)).turn, session, k))
                   + match outcome
                     case Answered => [Ran(old(Top(frames)).turn, session, k)]
                     case TurnNotStarted => [NotStarted(old(Top(frames)).turn, session)]
                     case WasCancelled => []
      ensures old(log) <= log
      ensures outcome.Answered? <==> Received(log[|old(log)|..], old(Top(frames)).turn)
      ensures outcome.TurnNotStarted? <==> Reported(log[|old(log)|..], old(Top(frames)).turn)
    {
      hide Run, BuildSteps, HookSteps, HookLog, Received, Reported;
      ghost var turn, below := Top(frames).turn, Below(frames);
      if hook.Some? {
        ghost var v := Pinned(session, k);
        HookOnlyWrites(scopeOf, registry, hook.value.actions, turn, session, k);
        RunHook(session, k, hook.value);
        assert AsWorld() == Run(v, HookSteps(me, hook.value));
        if !Goes(hook.value.ending) {
          assert LeasedSteps(me, hook, build) == HookSteps(me, hook.value);
          ghost var writes := HookLog(scopeOf, old(registry), hook.value.actions, turn, session, k);
          EntriesTell(old(log), writes, log[|old(log) + writes|..], turn);
          return if hook.value.ending.Required? then TurnNotStarted else WasCancelled;
        }
        RunParts(v, HookSteps(me, hook.value), BuildSteps(me, build));
        assert Below(frames) == below && Top(frames) == Frame(turn, session, k, Build, pin);
      }
      hide AsWorld, Pinned;
      ghost var mid := log;
      outcome := BuildAndSend(build);
      ghost var writes := if hook.None? then []
                          else HookLog(scopeOf, old(registry), hook.value.actions, turn, session, k);
      assert mid == old(log) + writes;
      EntriesTell(old(log), writes, log[|mid|..], turn);
    }

    /** One call of `run_turn`: allocate, pin, run the hook, unpin, build the context, hand over.
        Whatever happens, the call's pin does not outlive it. */
    method RunTurn(session: string, allocation: Allocation, hook: Option<HookRun>, build: Ending)
      returns (outcome: Outcome)
      requires Ready()
      modifies this
      ensures AsWorld() == Run(old(AsWorld()), TurnSteps(me, session, allocation, hook, build))
      ensures pin == old(pin) && frames == old(frames) && next == old(next) + 1
      ensures var reached := allocation.Leased? && (hook.None? || hook.value.ending in {Returns, Fails});
              && (outcome.Answered? <==> reached && build.Returns?)
              && (outcome.TurnNotStarted?
                  <==> || allocation.Raises?
                       || (allocation.Leased? && hook.Some? && hook.value.ending.Required?)
                       || (reached && build in {Fails, Required}))
      ensures var n := old(next);
              if allocation.Leased? then
                var own := match allocation.lease.endpoint case None => Process case Some(key) => Remote(key);
                log == old(log)
                     + (if hook.None? then []
                        else HookLog(scopeOf, old(registry), hook.value.actions, n, session, own))
                     + match outcome
                       case Answered => [Ran(n, session, own)]
                       case TurnNotStarted => [NotStarted(n, session)]
                       case WasCancelled => []
              else log == old(log) + if outcome.TurnNotStarted? then [NotStarted(n, session)] else []
      ensures old(log) <= log
      ensures outcome.Answered? <==> Received(log[|old(log)|..], old(next))
      ensures outcome.TurnNotStarted? <==> Reported(log[|old(log)|..], old(next))
    {
      hide Run, LeasedSteps, Apply, AsWorld, Pinned, HookLog, Received, Reported;
      ghost var w := AsWorld();
      ghost var begin := Begin(me, session, allocation, hook.Some?);
      RunOne(w, begin);
      var client := Allocate(session, allocation, hook.Some?);
      if client.None? {
        assert TurnSteps(me, session, allocation, hook, build) == [begin];
        EntriesTell(old(log), [], if allocation.Raises? then [NotStarted(old(next), session)] else [], old(next));
        assert old(log) + [] == old(log);
        return if allocation.Raises? then TurnNotStarted else WasCancelled;
      }
      RunParts(w, [begin], LeasedSteps(me, hook, build));
      assert Below(frames) == old(frames);
      outcome := RunLeased(session, client.value, hook, build);
    }
  }

  /** Only a required failure and a cancellation end the turn; any other failure is logged. */
  predicate Goes(ending: Ending) { ending.Returns? || ending.Fails? }

  lemma Replaced(others: map<nat, Task>, me: nat, task: Task, next: Task)
    ensures others[me := task][me := next] == others[me := next]
  {
  }
}
