// The drop-tolerant live source: a bounded queue that never blocks its producer.

module LiveTap {

  /** `part` is `whole` with some items left out, order kept. */
  ghost predicate Subsequence<T(!new)>(part: seq<T>, whole: seq<T>)
    decreases |whole|
  {
    if part == [] then true
    else whole != [] && (if part[|part| - 1] == whole[|whole| - 1]
      then Subsequence(part[..|part| - 1], whole[..|whole| - 1]) || Subsequence(part, whole[..|whole| - 1])
      else Subsequence(part, whole[..|whole| - 1]))
  }

  lemma {:induction false} SubsequenceGrows<T(!new)>(part: seq<T>, whole: seq<T>, x: T)
    requires Subsequence(part, whole)
    ensures Subsequence(part, whole + [x]) && Subsequence(part + [x], whole + [x])
  {
    assert (whole + [x])[..|whole|] == whole && (part + [x])[..|part|] == part;
    if part != [] && part[|part| - 1] == x {
      assert Subsequence(part, (whole + [x])[..|whole|]);
    }
  }

  class GlobalQueueTap<T(!new)> {
    const maxsize: nat
    var queue: seq<T>
    var dropped: nat
    ghost var emitted: seq<T>
    ghost var delivered: seq<T>

    /** Whatever was delivered or waits is part of what was emitted, in order; the rest is counted
        as dropped. */
    ghost predicate Valid()
      reads this
    {
      && Subsequence(delivered + queue, emitted)
      && |delivered| + |queue| + dropped == |emitted|
      && (maxsize > 0 ==> |queue| <= maxsize)
    }

    constructor (maxsize: nat)
      ensures Valid() && this.maxsize == maxsize && emitted == [] && dropped == 0
    {
      this.maxsize, queue, dropped, emitted, delivered := maxsize, [], 0, [], [];
    }

    /** Enqueues or drops; a size of zero is unbounded. Warns on the first drop and then on
        every five-hundredth. */
    method Emit(x: T) returns (warned: bool)
      requires Valid()
      modifies this
      ensures Valid() && emitted == old(emitted) + [x] && delivered == old(delivered)
      ensures if maxsize == 0 || old(|queue|) < maxsize then queue == old(queue) + [x] && dropped == old(dropped)
              else queue == old(queue) && dropped == old(dropped) + 1
      ensures warned <==> dropped != old(dropped) && (dropped == 1 || dropped % 500 == 0)
    {
      SubsequenceGrows(delivered + queue, emitted, x);
      emitted := emitted + [x];
      warned := false;
      if maxsize == 0 || |queue| < maxsize {
        assert delivered + (queue + [x]) == (delivered + queue) + [x];
        queue := queue + [x];
      } else {
        dropped := dropped + 1;
        warned := dropped == 1 || dropped % 500 == 0;
      }
    }

    method Take() returns (x: T)
      requires Valid() && queue != []
      modifies this
      ensures Valid() && x == old(queue)[0] && queue == old(queue)[1..] && delivered == old(delivered) + [x]
      ensures emitted == old(emitted) && dropped == old(dropped)
    {
      x := queue[0];
      assert delivered + queue == (delivered + [x]) + queue[1..];
      delivered, queue := delivered + [x], queue[1..];
    }
  }
}
