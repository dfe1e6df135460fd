// Where a write and a turn end up, told by the steps of the run alone: what the allocator last said
// of a scope, and what a turn was allocated.

module KernelTurns {
  import opened Options
  import opened KernelRouting

  /** What the allocator last said of a scope, or what the run began with. */
  function LastLease(registry: map<string, Lease>, steps: seq<Step>, scope: string): Option<Lease> {
    if steps == [] then (if scope in registry then Some(registry[scope]) else None)
    else if steps[|steps| - 1].Repoint? && steps[|steps| - 1].scope == scope then steps[|steps| - 1].lease
    else LastLease(registry, steps[..|steps| - 1], scope)
  }

  function Lookup(w: World, scope: string): Option<Lease> {
    if scope in w.registry then Some(w.registry[scope]) else None
  }

  /** Only the allocator changes what is known of a scope. */
  lemma StepMovesScope(w: World, s: Step, scope: string)
    ensures Lookup(Apply(w, s), scope) == if s.Repoint? && s.scope == scope then s.lease else Lookup(w, scope)
    ensures Apply(w, s).scopeOf == w.scopeOf
  {
    hide Peek, HookOf, ControlKernel;
  }

  /** Only an allocation adds a turn. */
  lemma StepAddsTurn(w: World, s: Step, n: nat)
    requires n in Apply(w, s).turns && !(n in w.turns && w.turns[n] == Apply(w, s).turns[n])
    ensures n == w.next && s.Begin? && Enabled(w, s) && s.allocation.Leased?
    ensures Apply(w, s).turns[n].session == s.session
    ensures Apply(w, s).turns[n].kernel
         == match s.allocation.lease.endpoint case None => Process case Some(key) => Remote(key)
  {
    hide Peek, HookOf, ControlKernel;
  }

  lemma StepLeavesCalls(w: World, s: Step, t: nat)
    requires s.Repoint? || s.Write? || s.task != t
    ensures TaskOf(Apply(w, s), t) == TaskOf(w, t)
  {
    hide Peek, HookOf, ControlKernel;
  }

  lemma {:induction false} RegistryIsLastLease(
      scopeOf: string -> string, registry: map<string, Lease>, steps: seq<Step>, scope: string)
    ensures var w := Run(Start(scopeOf, registry), steps);
            LastLease(registry, steps, scope) == Lookup(w, scope) && w.scopeOf == scopeOf
  {
    hide Apply;
    if steps != [] {
      StepMovesScope(Run(Start(scopeOf, registry), steps[..|steps| - 1]), steps[|steps| - 1], scope);
      RegistryIsLastLease(scopeOf, registry, steps[..|steps| - 1], scope);
    }
  }

  /** No turn of a task is in its hook: a write is for whatever the allocator last said of the
      session's scope, which is another kernel, this process, or no kernel at all. */
  lemma UnpinnedWrites(
      scopeOf: string -> string, registry: map<string, Lease>, steps: seq<Step>, t: nat, target: string)
    requires forall f :: f in TaskOf(Run(Start(scopeOf, registry), steps), t).frames ==> f.phase != Hook
    ensures var log := Run(Start(scopeOf, registry), steps).log;
            Run(Start(scopeOf, registry), steps + [Write(t, target)]).log
            == log + [match LastLease(registry, steps, scopeOf(target))
                      case None => Wrote(None, target, DataPlane, DataPlane)
                      case Some(Lease(None)) => Wrote(None, target, Process, Process)
                      case Some(Lease(Some(key))) => Wrote(None, target, Remote(key), Remote(key))]
  {
    var w := Run(Start(scopeOf, registry), steps);
    RunKeeps(scopeOf, registry, steps);
    RegistryIsLastLease(scopeOf, registry, steps, scopeOf(target));
    assert (steps + [Write(t, target)])[..|steps|] == steps;
    hide Run, Start;
    NoHook(TaskOf(w, t).frames);
  }

  lemma {:induction false} NoHook(frames: seq<Frame>)
    requires forall f :: f in frames ==> f.phase != Hook
    ensures HookOf(frames) == None && PinOf(frames) == None
  {
    if frames != [] { NoHook(Below(frames)); }
  }

  /** A turn in its hook, with its nested calls over: a write for the turn's session goes to the
      kernel of the lease the turn was allocated, whatever the allocator said since; a write for
      another session goes where the allocator last said. */
  lemma HookedWrites(
      scopeOf: string -> string, registry: map<string, Lease>, before: seq<Step>, steps: seq<Step>,
      t: nat, session: string, lease: Lease, target: string)
    requires Enabled(Run(Start(scopeOf, registry), before), Begin(t, session, Leased(lease), true))
    requires TaskOf(Run(Start(scopeOf, registry), steps), t).frames
          == TaskOf(Run(Start(scopeOf, registry), before + [Begin(t, session, Leased(lease), true)]), t).frames
    ensures var n := Run(Start(scopeOf, registry), before).next;
            var last := match LastLease(registry, steps, scopeOf(target))
                        case None => DataPlane
                        case Some(Lease(None)) => Process
                        case Some(Lease(Some(key))) => Remote(key);
            var own := match lease.endpoint case None => Process case Some(key) => Remote(key);
            Run(Start(scopeOf, registry), steps + [Write(t, target)]).log
            == Run(Start(scopeOf, registry), steps).log
             + [Wrote(Some(n), target, if target == session then own else last, last)]
  {
    var begin := Begin(t, session, Leased(lease), true);
    PinIsRestored(scopeOf, registry, before + [begin], steps, t);
    RegistryIsLastLease(scopeOf, registry, steps, scopeOf(target));
    assert (steps + [Write(t, target)])[..|steps|] == steps;
    assert (before + [begin])[..|before|] == before;
  }

  /** Other tasks' steps, the allocator and writes of its own leave a task's calls alone. */
  lemma {:induction false} OthersLeaveCalls(w: World, more: seq<Step>, t: nat)
    requires forall s :: s in more ==> s.Repoint? || s.Write? || s.task != t
    ensures TaskOf(Run(w, more), t) == TaskOf(w, t)
  {
    if more != [] {
      var front, s := more[..|more| - 1], more[|more| - 1];
      assert s in more && forall u :: u in front ==> u in more;
      OthersLeaveCalls(w, front, t);
      StepLeavesCalls(Run(w, front), s, t);
    }
  }

  /** A kernel that received a turn is the one of the lease that turn was allocated. */
  lemma TurnsGoToTheirLease(
      scopeOf: string -> string, registry: map<string, Lease>, steps: seq<Step>, n: nat, session: string, c: Client)
    returns (i: nat)
    requires Ran(n, session, c) in Run(Start(scopeOf, registry), steps).log
    ensures i < |steps| && Run(Start(scopeOf, registry), steps[..i]).next == n
    ensures steps[i].Begin? && Enabled(Run(Start(scopeOf, registry), steps[..i]), steps[i])
    ensures steps[i].session == session && steps[i].allocation.Leased?
    ensures c == match steps[i].allocation.lease.endpoint case None => Process case Some(key) => Remote(key)
  {
    RunKeeps(scopeOf, registry, steps);
    var w := Run(Start(scopeOf, registry), steps);
    hide Run;
    assert EntryInv(w, Ran(n, session, c));
    i := TurnsBegin(scopeOf, registry, steps, n);
  }

  lemma {:induction false} TurnsBegin(scopeOf: string -> string, registry: map<string, Lease>, steps: seq<Step>, n: nat)
    returns (i: nat)
    requires n in Run(Start(scopeOf, registry), steps).turns
    ensures i < |steps| && Run(Start(scopeOf, registry), steps[..i]).next == n
    ensures steps[i].Begin? && Enabled(Run(Start(scopeOf, registry), steps[..i]), steps[i])
    ensures steps[i].allocation.Leased?
    ensures var u := Run(Start(scopeOf, registry), steps).turns[n];
            && steps[i].session == u.session
            && u.kernel == match steps[i].allocation.lease.endpoint case None => Process case Some(key) => Remote(key)
  {
    i := 0;
    if steps != [] {
      var k := |steps| - 1;
      var front, w := steps[..k], Run(Start(scopeOf, registry), steps[..k]);
      hide Apply, Enabled;
      if n in w.turns && w.turns[n] == Run(Start(scopeOf, registry), steps).turns[n] {
        i := TurnsBegin(scopeOf, registry, front, n);
        assert front[..i] == steps[..i];
      } else {
        StepAddsTurn(w, steps[k], n);
        i := k;
      }
    }
  }
}
