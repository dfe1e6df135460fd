// The bounded scope cache: eviction of the oldest eighth, and transparency of lookups.

module ScopeCache {
  datatype Scope = Scope(kind: string, id: string)

  const MAX: nat := 4096

  /** An insertion-ordered dictionary. */
  datatype Cache = Cache(order: seq<string>, entries: map<string, Scope>)

  const EMPTY: Cache := Cache([], map[])

  ghost predicate Valid(c: Cache) {
    && (forall i, j :: 0 <= i < j < |c.order| ==> c.order[i] != c.order[j])
    && (forall k :: k in c.order <==> k in c.entries)
  }

  /** What is left after dropping the `n` oldest keys. */
  function Dropped(c: Cache, n: nat): Cache
    requires n <= |c.order|
  {
    Cache(c.order[n..], Restricted(c.entries, c.order[n..]))
  }

  function Restricted(entries: map<string, Scope>, kept: seq<string>): map<string, Scope> {
    map k | k in entries && k in kept :: entries[k]
  }

  lemma RestrictedLess(entries: map<string, Scope>, kept: seq<string>, rest: seq<string>, k: string)
    requires forall x :: x in rest <==> x in kept && x != k
    ensures Restricted(entries, rest) == Restricted(entries, kept) - {k}
  {
  }

  /** Assigning an existing key keeps its place. */
  function Assigned(c: Cache, k: string, v: Scope): Cache {
    Cache(if k in c.entries then c.order else c.order + [k], c.entries[k := v])
  }

  function Stored(c: Cache, k: string, v: Scope): Cache {
    Assigned(if |c.order| >= MAX then Dropped(c, MAX / 8) else c, k, v)
  }

  lemma PutKeeps(c: Cache, k: string, v: Scope)
    requires Valid(c) && |c.order| <= MAX
    ensures Valid(Stored(c, k, v)) && 0 < |Stored(c, k, v).order| <= MAX
    ensures k in Stored(c, k, v).entries && Stored(c, k, v).entries[k] == v
    ensures forall x :: x in Stored(c, k, v).entries && x != k
              ==> x in c.entries && Stored(c, k, v).entries[x] == c.entries[x]
  {
    if |c.order| >= MAX {
      var d := Dropped(c, MAX / 8);
      assert Valid(d) by {
        forall x | x in d.order ensures x in c.order {
          var i :| 0 <= i < |d.order| && d.order[i] == x;
          assert c.order[i + MAX / 8] == x;
        }
      }
      AssignKeeps(d, k, v);
    } else {
      AssignKeeps(c, k, v);
    }
  }

  lemma AssignKeeps(c: Cache, k: string, v: Scope)
    requires Valid(c) && |c.order| < MAX
    ensures Valid(Assigned(c, k, v)) && 0 < |Assigned(c, k, v).order| <= MAX
  {
    var d := Assigned(c, k, v);
    assert k in c.entries ==> k in c.order;
    assert k !in c.entries ==> d.order[|c.order|] == k;
  }

  // ---------------------------------------------------------------- transparency

  /** What asking the resolver of a session and its owner comes to: it answers, declines, or
      fails, and both of these degrade to the session's own scope. */
  datatype Reply = Says(scope: Scope) | Declines | Breaks

  function Resolved(session: string, reply: Reply): Scope {
    match reply case Says(s) => s case _ => Scope("session", session)
  }

  /** A resolver asked for the n-th time. */
  type Resolver = (string, string, nat) -> Reply

  datatype Op = Declare(session: string, scope: Scope) | Lookup(owner: string, session: string)

  function Answer(c: Cache, owner: string, session: string, resolver: Resolver, n: nat): Scope {
    if session in c.entries then c.entries[session] else Resolved(session, resolver(owner, session, n))
  }

  function Apply(c: Cache, op: Op, resolver: Resolver, n: nat): Cache {
    match op
    case Declare(s, scope) => Stored(c, s, scope)
    case Lookup(owner, s) => if s in c.entries then c else Stored(c, s, Resolved(s, resolver(owner, s, n)))
  }

  function Run(ops: seq<Op>, resolver: Resolver): Cache {
    if ops == [] then EMPTY else Apply(Run(ops[..|ops| - 1], resolver), ops[|ops| - 1], resolver, |ops| - 1)
  }

  /** The scope a session really has. */
  type Truth = string -> Scope

  /** The resolver speaks the truth whenever it does not break, whoever asks and when. */
  ghost predicate Honest(resolver: Resolver, truth: Truth) {
    forall owner, s, n ::
      match resolver(owner, s, n)
      case Says(scope) => truth(s) == scope
      case Declines => truth(s) == Scope("session", s)
      case Breaks => true
  }

  ghost predicate Declared(ops: seq<Op>, truth: Truth) {
    forall i :: 0 <= i < |ops| && ops[i].Declare? ==> ops[i].scope == truth(ops[i].session)
  }

  /** A failure is harmless when the degraded answer is the right one. */
  ghost predicate Harmless(ops: seq<Op>, resolver: Resolver, truth: Truth) {
    forall i :: 0 <= i < |ops| && ops[i].Lookup? && resolver(ops[i].owner, ops[i].session, i).Breaks?
      ==> truth(ops[i].session) == Scope("session", ops[i].session) || ops[i].session in Run(ops[..i], resolver).entries
  }

  ghost predicate Right(c: Cache, truth: Truth) {
    forall s :: s in c.entries ==> c.entries[s] == truth(s)
  }

  lemma {:induction false} BoundedAlways(ops: seq<Op>, resolver: Resolver)
    ensures Valid(Run(ops, resolver)) && |Run(ops, resolver).order| <= MAX
  {
    if ops != [] {
      var before := Run(ops[..|ops| - 1], resolver);
      BoundedAlways(ops[..|ops| - 1], resolver);
      forall k, v ensures Valid(Stored(before, k, v)) && |Stored(before, k, v).order| <= MAX { PutKeeps(before, k, v); }
    }
  }

  /** Over any run of declarations, lookups and evictions the cache holds the truth after every
      operation exactly when every failure met on the way was harmless. */
  lemma {:induction false} CacheIsRightIff(ops: seq<Op>, resolver: Resolver, truth: Truth)
    requires Honest(resolver, truth) && Declared(ops, truth)
    ensures (forall i :: 0 <= i <= |ops| ==> Right(Run(ops[..i], resolver), truth)) <==> Harmless(ops, resolver, truth)
  {
    hide Right, Harmless, HarmlessStep, Apply;
    assert ops[..|ops|] == ops;
    if ops == [] {
      NothingCached(resolver, truth);
    } else {
      var n := |ops| - 1;
      var front, op := ops[..n], ops[n];
      assert forall i :: 0 <= i <= n ==> front[..i] == ops[..i];
      CacheIsRightIff(front, resolver, truth);
      HarmlessSplit(ops, resolver, truth);
      BoundedAlways(front, resolver);
      StepIsRightIff(Run(front, resolver), op, resolver, n, truth);
    }
  }

  lemma NothingCached(resolver: Resolver, truth: Truth)
    ensures Right(Run([], resolver), truth) && Harmless([], resolver, truth)
  {
  }

  lemma HarmlessSplit(ops: seq<Op>, resolver: Resolver, truth: Truth)
    requires ops != []
    ensures var n := |ops| - 1;
            (Harmless(ops, resolver, truth)
             <==> Harmless(ops[..n], resolver, truth)
                  && HarmlessStep(Run(ops[..n], resolver), ops[n], resolver, n, truth))
  {
    hide Run;
    var n := |ops| - 1;
    var front := ops[..n];
    assert forall i :: 0 <= i < n ==> front[i] == ops[i] && front[..i] == ops[..i];
  }

  ghost predicate HarmlessStep(c: Cache, op: Op, resolver: Resolver, n: nat, truth: Truth) {
    op.Lookup? && resolver(op.owner, op.session, n).Breaks? ==>
      truth(op.session) == Scope("session", op.session) || op.session in c.entries
  }

  lemma StepIsRightIff(c: Cache, op: Op, resolver: Resolver, n: nat, truth: Truth)
    requires Valid(c) && |c.order| <= MAX && Honest(resolver, truth)
    requires op.Declare? ==> op.scope == truth(op.session)
    ensures Right(c, truth) ==> (Right(Apply(c, op, resolver, n), truth) <==> HarmlessStep(c, op, resolver, n, truth))
  {
    hide Stored;
    PutKeeps(c, op.session, if op.Declare? then op.scope else Resolved(op.session, resolver(op.owner, op.session, n)));
  }

  /** A right cache is transparent: a lookup answers what it would without one, unless the resolver
      breaks where it would have answered. */
  lemma LookupsAreTransparent(ops: seq<Op>, resolver: Resolver, truth: Truth, owner: string, session: string, n: nat)
    requires Honest(resolver, truth) && Declared(ops, truth) && Harmless(ops, resolver, truth)
    requires !resolver(owner, session, n).Breaks?
    ensures Answer(Run(ops, resolver), owner, session, resolver, n)
         == truth(session)
         == match resolver(owner, session, n) case Says(scope) => scope case _ => Scope("session", session)
  {
    CacheIsRightIff(ops, resolver, truth);
    assert ops[..|ops|] == ops;
  }

  /** The order after a put: a full cache loses its 512 oldest keys first, a key that is still
      there keeps its place and a new one comes last. */
  lemma OrderAfterPut(c: Cache, k: string, v: Scope)
    requires Valid(c)
    ensures var kept := if |c.order| >= 4096 then c.order[512..] else c.order;
            Stored(c, k, v).order == if k in kept then kept else kept + [k]
  {
    if |c.order| >= MAX {
      var d := Dropped(c, MAX / 8);
      if k in d.order {
        var i :| 0 <= i < |d.order| && d.order[i] == k;
        assert c.order[i + MAX / 8] == k;
      }
    }
  }

  /** Filling up: once full, a put leaves at least seven eighths, the newest ones. */
  lemma EvictionKeepsNewest(c: Cache, k: string, v: Scope, i: nat)
    requires Valid(c) && |c.order| == MAX && MAX / 8 <= i < MAX
    ensures c.order[i] in Stored(c, k, v).entries && |Stored(c, k, v).order| >= MAX - MAX / 8
    ensures c.order[i] != k ==> Stored(c, k, v).entries[c.order[i]] == c.entries[c.order[i]]
  {
    var d := Dropped(c, MAX / 8);
    assert d.order[i - MAX / 8] == c.order[i];
    assert c.order[i] in c.order;
  }

  // ---------------------------------------------------------------- the module's state

  class ScopeTable {
    var order: seq<string>
    var entries: map<string, Scope>

    ghost function Contents(): Cache
      reads this
    {
      Cache(order, entries)
    }

    constructor ()
      ensures Contents() == EMPTY
    {
      order, entries := [], map[];
    }

    method Put(session: string, scope: Scope)
      requires Valid(Contents()) && |order| <= MAX
      modifies this
      ensures Contents() == Stored(old(Contents()), session, scope)
      ensures Valid(Contents()) && |order| <= MAX
    {
      hide Dropped, Valid;
      ghost var c := Contents();
      PutKeeps(c, session, scope);
      if |order| >= MAX {
        var oldest := order[..MAX / 8];
        var i := 0;
        DropNone(c);
        while i < |oldest|
          invariant 0 <= i <= |oldest| == MAX / 8
          invariant Contents() == Dropped(c, i)
        {
          DropOne(c, i);
          order, entries := order[1..], entries - {oldest[i]};
          i := i + 1;
        }
      }
      if session !in entries { order := order + [session]; }
      entries := entries[session := scope];
    }

    /** The scope of a session, asked for the n-th time. */
    method ScopeFor(owner: string, session: string, resolver: Resolver, n: nat) returns (scope: Scope)
      requires Valid(Contents()) && |order| <= MAX
      modifies this
      ensures scope == Answer(old(Contents()), owner, session, resolver, n)
      ensures Contents() == Apply(old(Contents()), Lookup(owner, session), resolver, n)
      ensures Valid(Contents()) && |order| <= MAX && session in entries && entries[session] == scope
      ensures session in old(entries) ==> scope == old(entries)[session] && Contents() == old(Contents())
      ensures session !in old(entries) ==>
                scope == match resolver(owner, session, n) case Says(s) => s case _ => Scope("session", session)
    {
      if session in entries { return entries[session]; }
      var reply := resolver(owner, session, n);
      PutKeeps(Contents(), session, Resolved(session, reply));
      scope := match reply case Says(s) => s case _ => Scope("session", session);
      Put(session, scope);
    }
  }

  lemma DropNone(c: Cache)
    requires Valid(c)
    ensures Dropped(c, 0) == c
  {
    assert forall k :: k in c.entries ==> k in c.order;
  }

  lemma DropOne(c: Cache, i: nat)
    requires Valid(c) && i < |c.order|
    ensures var d := Dropped(c, i);
            d.order != [] && Dropped(c, i + 1) == Cache(d.order[1..], d.entries - {c.order[i]})
  {
    OneLess(c.order, i);
    RestrictedLess(c.entries, c.order[i..], c.order[i + 1..], c.order[i]);
  }

  lemma OneLess(order: seq<string>, i: nat)
    requires i < |order| && forall j, k :: 0 <= j < k < |order| ==> order[j] != order[k]
    ensures forall k :: k in order[i + 1..] <==> k in order[i..] && k != order[i]
  {
    var rest := order[i + 1..];
    assert order[i..] == [order[i]] + rest;
    forall k | k in rest ensures k != order[i] {
      var j :| 0 <= j < |rest| && rest[j] == k;
      assert order[i + 1 + j] == k;
    }
  }
}
