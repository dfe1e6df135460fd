// The bounded remember-set that deduplicates live and history frames by uid.

module Seen {
  import opened DurableLog

  const SEEN_UIDS_MAX: nat := 4096

  function Last<T>(s: seq<T>, n: nat): seq<T> {
    if |s| <= n then s else s[|s| - n..]
  }

  /** What one `add` leaves in the deque. */
  function Remember(max: nat, order: seq<Uid>, uid: Uid): seq<Uid> {
    if uid in order then order else Last(order + [uid], max)
  }

  ghost predicate Distinct<T(!new)>(s: seq<T>) {
    forall i, j :: 0 <= i < j < |s| ==> s[i] != s[j]
  }

  /** No uid is accepted twice within `max` further acceptances. */
  ghost predicate Windowed(max: nat, accepted: seq<Uid>) {
    forall i, j :: 0 <= i < j < |accepted| && j - i <= max ==> accepted[i] != accepted[j]
  }

  /** The deque always holds the last `max` accepted uids, and accepting a uid that is not
      in it keeps equal acceptances more than `max` apart. */
  lemma AcceptKeepsWindow(max: nat, accepted: seq<Uid>, order: seq<Uid>, uid: Uid)
    requires order == Last(accepted, max) && Windowed(max, accepted)
    requires uid !in order
    ensures Remember(max, order, uid) == Last(accepted + [uid], max)
    ensures Windowed(max, accepted + [uid])
  {
    var longer := accepted + [uid];
    forall i, j | 0 <= i < j < |longer| && j - i <= max ensures longer[i] != longer[j] {
      if j == |accepted| {
        assert longer[i] == order[if |accepted| <= max then i else i - (|accepted| - max)];
      }
    }
  }

  function Elements<T>(s: seq<T>): set<T> {
    set x | x in s
  }

  lemma {:induction false} DistinctCardinality<T(!new)>(s: seq<T>)
    requires Distinct(s)
    ensures |Elements(s)| == |s|
  {
    if s != [] {
      var init, last := s[..|s| - 1], s[|s| - 1];
      DistinctCardinality(init);
      assert s == init + [last];
      assert Elements(s) == Elements(init) + {last};
    }
  }

  /** Bounded exactly-once: if the uid accepted at i is accepted again at j, at least `max`
      distinct other uids were accepted strictly in between. */
  lemma AcceptancesFarApart(max: nat, accepted: seq<Uid>, i: nat, j: nat)
    requires Windowed(max, accepted)
    requires i < j < |accepted| && accepted[i] == accepted[j]
    ensures j - i > max
    ensures |Elements(accepted[i + 1..j]) - {accepted[i]}| >= max
  {
    var between, recent := accepted[i + 1..j], accepted[j - max..j];
    DistinctCardinality(recent);
    var some, all := Elements(recent), Elements(between) - {accepted[i]};
    forall u | u in some ensures u in all {
      var k :| 0 <= k < |recent| && recent[k] == u;
      assert u == accepted[j - max + k] == between[j - max + k - (i + 1)];
    }
    SubsetCardinality(some, all);
  }

  lemma SubsetCardinality<T(!new)>(small: set<T>, big: set<T>)
    requires small <= big
    ensures |small| <= |big|
  {
    assert big == small + (big - small);
  }

  /** What a series of `add`s leaves in the deque. */
  function RememberAll(max: nat, order: seq<Uid>, uids: seq<Uid>): seq<Uid> {
    if uids == [] then order else Remember(max, RememberAll(max, order, uids[..|uids| - 1]), uids[|uids| - 1])
  }

  lemma {:induction false} NewUidsAppend(max: nat, order: seq<Uid>, uids: seq<Uid>)
    requires Distinct(order + uids) && |order| <= max
    ensures RememberAll(max, order, uids) == Last(order + uids, max)
  {
    if uids == [] {
      assert order + uids == order;
    } else {
      var front, uid := uids[..|uids| - 1], uids[|uids| - 1];
      var all := order + uids;
      assert all == order + front + [uid];
      assert Distinct(order + front) by {
        assert forall i :: 0 <= i < |order + front| ==> (order + front)[i] == all[i];
      }
      NewUidsAppend(max, order, front);
      NewIsNotLast(order + front, uid, max);
      LastOfLast(order + front, uid, max);
    }
  }

  lemma NewIsNotLast(s: seq<Uid>, uid: Uid, n: nat)
    requires Distinct(s + [uid])
    ensures uid !in Last(s, n) && uid !in s
  {
    var all := s + [uid];
    assert all[|s|] == uid;
    forall i | 0 <= i < |s| ensures s[i] != uid { assert all[i] == s[i]; }
  }

  lemma LastOfLast<T>(s: seq<T>, x: T, n: nat)
    ensures Last(Last(s, n) + [x], n) == Last(s + [x], n)
  {
  }

  /** The bound cannot be improved: a uid that is remembered now, followed by `max` others that are
      new when they come, is new again itself. */
  lemma ForgottenAfterMax(max: nat, order: seq<Uid>, uid: Uid, others: seq<Uid>)
    requires Distinct(order + [uid] + others) && |order| <= max && |others| == max
    ensures uid !in RememberAll(max, Remember(max, order, uid), others)
  {
    var all := order + [uid] + others;
    assert all[|order|] == uid;
    assert uid !in order by { assert forall i :: 0 <= i < |order| ==> all[i] == order[i]; }
    assert uid !in others by { assert forall i :: 0 <= i < |others| ==> all[|order| + 1 + i] == others[i]; }
    var kept := Last(order + [uid], max);
    assert Distinct(kept + others) by {
      var n := |order| + 1 - |kept|;
      assert forall i :: 0 <= i < |kept + others| ==> (kept + others)[i] == all[n + i];
    }
    NewUidsAppend(max, kept, others);
    assert Last(kept + others, max) == others;
  }

  lemma WithoutOldest(order: seq<Uid>)
    requires Distinct(order) && order != []
    ensures Distinct(order[1..])
    ensures (set u | u in order[1..]) == (set u | u in order) - {order[0]}
  {
    var rest := order[1..];
    assert order == [order[0]] + rest;
    forall i | 0 <= i < |rest| ensures rest[i] != order[0] { assert rest[i] == order[i + 1]; }
  }

  lemma DistinctAppend(order: seq<Uid>, uid: Uid)
    requires Distinct(order) && uid !in order
    ensures Distinct(order + [uid])
  {
  }

  class SeenUids {
    const max: nat
    var members: set<Uid>
    var order: seq<Uid>

    ghost predicate Valid()
      reads this
    {
      && Distinct(order)
      && |order| <= max
      && members == set u | u in order
    }

    constructor (maxSize: nat)
      ensures Valid() && order == [] && max == maxSize
    {
      max, members, order := maxSize, {}, [];
    }

    /** True when the uid is new; the oldest entries leave both the deque and the set. */
    method Add(uid: Uid) returns (isNew: bool)
      requires Valid()
      modifies this
      ensures Valid()
      ensures isNew <==> uid !in old(order)
      ensures order == Remember(max, old(order), uid)
    {
      hide Distinct;
      if uid in members {
        return false;
      }
      DistinctAppend(order, uid);
      members := members + {uid};
      order := order + [uid];
      ghost var full := order;
      while |order| > max
        invariant order == full[|full| - |order|..]
        invariant Distinct(order)
        invariant members == set u | u in order
        invariant |order| >= max || order == full
        decreases |order|
      {
        var oldest := order[0];
        WithoutOldest(order);
        order := order[1..];
        members := members - {oldest};
      }
      return true;
    }
  }
}
