// The insert-only history copy: paging, crashes at any write, and runs over runs.

module HistoryCopy {

  datatype Event = Event(message: string, kind: string, data: string, timestamp: string)

  /** An event as a store returns it, with the store's own sequence number. */
  datatype Row = Row(seqNo: int, event: Event)

  const PAGE: nat := 500

  // ---------------------------------------------------------------- paging

  /** What `get_events_after` promises of a session's rows: numbered from one, ascending. */
  ghost predicate Numbered(rows: seq<Row>) {
    && (forall i :: 0 <= i < |rows| ==> rows[i].seqNo > 0)
    && (forall i, j :: 0 <= i < j < |rows| ==> rows[i].seqNo < rows[j].seqNo)
  }

  /** The rows behind a cursor. */
  function After(rows: seq<Row>, cursor: int): (r: seq<Row>)
    ensures |r| <= |rows| && r == rows[|rows| - |r|..]
  {
    if rows == [] || rows[0].seqNo > cursor then rows else After(rows[1..], cursor)
  }

  function GetEventsAfter(rows: seq<Row>, cursor: int, limit: nat): seq<Row> {
    var r := After(rows, cursor);
    if |r| <= limit then r else r[..limit]
  }

  lemma {:induction false} AfterAt(rows: seq<Row>, k: nat, cursor: int)
    requires Numbered(rows) && k <= |rows|
    requires k > 0 ==> cursor == rows[k - 1].seqNo
    requires k == 0 ==> cursor <= 0
    ensures After(rows, cursor) == rows[k..]
  {
    if k == 0 {
      assert rows != [] ==> rows[0].seqNo > 0;
    } else {
      var rest := rows[1..];
      assert rows[0].seqNo <= cursor;
      if k == 1 {
        assert rest != [] ==> rest[0] == rows[1] && rows[1].seqNo > cursor;
      } else {
        AfterAt(rest, k - 1, cursor);
      }
    }
  }

  lemma NextPage(rows: seq<Row>, k: nat, cursor: int)
    requires Numbered(rows) && k <= |rows|
    requires cursor == if k == 0 then 0 else rows[k - 1].seqNo
    ensures var page := GetEventsAfter(rows, cursor, PAGE);
            && |page| == (if |rows| - k <= PAGE then |rows| - k else PAGE)
            && rows[..k] + page == rows[..k + |page|]
            && (page != [] ==> page[|page| - 1] == rows[k + |page| - 1])
  {
    hide Numbered, After, GetEventsAfter;
    var n := if |rows| - k <= PAGE then |rows| - k else PAGE;
    PageAfter(rows, k, cursor, n);
    TakeMore(rows, k, n);
  }

  lemma PageAfter(rows: seq<Row>, k: nat, cursor: int, n: nat)
    requires Numbered(rows) && k <= |rows|
    requires cursor == if k == 0 then 0 else rows[k - 1].seqNo
    requires n == if |rows| - k <= PAGE then |rows| - k else PAGE
    ensures GetEventsAfter(rows, cursor, PAGE) == rows[k..][..n]
  {
    AfterAt(rows, k, cursor);
    hide Numbered, After, GetEventsAfter;
    PageIs(rows, cursor, rows[k..], n);
  }

  lemma PageIs(rows: seq<Row>, cursor: int, rest: seq<Row>, n: nat)
    requires After(rows, cursor) == rest && n == if |rest| <= PAGE then |rest| else PAGE
    ensures GetEventsAfter(rows, cursor, PAGE) == rest[..n]
  {
    hide After;
    assert |rest| <= PAGE ==> rest[..n] == rest;
  }

  lemma TakeMore(rows: seq<Row>, k: nat, n: nat)
    requires k + n <= |rows|
    ensures rows[..k] + rows[k..][..n] == rows[..k + n]
    ensures n == |rows| - k ==> rows[k..][..n] == rows[k..]
    ensures |rows[k..][..n]| == n && (n > 0 ==> rows[k..][..n][n - 1] == rows[k + n - 1])
  {
  }

  /** The paging loop returns every event, once, in order. */
  method AllEvents(rows: seq<Row>) returns (out: seq<Row>)
    requires Numbered(rows)
    ensures out == rows
  {
    hide Numbered, GetEventsAfter;
    out := [];
    var cursor := 0;
    while true
      invariant |out| <= |rows| && out == rows[..|out|]
      invariant cursor == if out == [] then 0 else rows[|out| - 1].seqNo
      decreases |rows| - |out|
    {
      NextPage(rows, |out|, cursor);
      var page := GetEventsAfter(rows, cursor, PAGE);
      if page == [] { break; }
      out := out + page;
      cursor := page[|page| - 1].seqNo;
      if |page| < PAGE { break; }
    }
    assert rows[..|rows|] == rows;
  }

  // ---------------------------------------------------------------- stores

  datatype History = History(messages: seq<string>, events: seq<Event>)

  /** The store being copied: its sessions as listed, each with its history. */
  datatype Source = Source(sessions: seq<string>, messages: map<string, seq<string>>, events: map<string, seq<Row>>)

  ghost predicate Valid(src: Source) {
    && (forall i, j :: 0 <= i < j < |src.sessions| ==> src.sessions[i] != src.sessions[j])
    && (forall id :: id in src.sessions ==> id in src.messages && id in src.events && Numbered(src.events[id]))
  }

  function EventsOf(rows: seq<Row>): (r: seq<Event>)
    ensures |r| == |rows| && forall i :: 0 <= i < |r| ==> r[i] == rows[i].event
  {
    seq(|rows|, i requires 0 <= i < |rows| => rows[i].event)
  }

  function Full(src: Source, id: string): History
    requires id in src.messages && id in src.events
  {
    History(src.messages[id], EventsOf(src.events[id]))
  }

  /** A copy in progress: messages first, then events, each in order. */
  predicate Begun(h: History, full: History) {
    && h.messages <= full.messages && h.events <= full.events
    && (h.events != [] ==> h.messages == full.messages)
  }

  type Target = map<string, History>

  /** What any number of runs may have made of `before`: sessions that were there are untouched,
      every other one is a source session with a beginning of its history. */
  ghost predicate Safe(src: Source, before: Target, after: Target)
    requires Valid(src)
  {
    && (forall id :: id in before ==> id in after && after[id] == before[id])
    && (forall id :: id in after && id !in before ==> id in src.sessions && Begun(after[id], Full(src, id)))
  }

  lemma SafeComposes(src: Source, a: Target, b: Target, c: Target)
    requires Valid(src) && Safe(src, a, b) && Safe(src, b, c)
    ensures Safe(src, a, c)
  {
  }

  /** What an uninterrupted run over the first `n` sessions makes of the target. */
  function Seeded(src: Source, before: Target, n: nat): Target
    requires n <= |src.sessions|
    requires forall id :: id in src.sessions ==> id in src.messages && id in src.events
  {
    if n == 0 then before
    else
      var t, id := Seeded(src, before, n - 1), src.sessions[n - 1];
      if id in before then t else t[id := Full(src, id)]
  }

  lemma {:induction false} SeededHolds(src: Source, before: Target, n: nat)
    requires Valid(src) && n <= |src.sessions|
    ensures forall id :: id in Seeded(src, before, n) <==> id in before || id in src.sessions[..n]
    ensures forall id :: id in Seeded(src, before, n)
              ==> Seeded(src, before, n)[id] == if id in before then before[id] else Full(src, id)
  {
    hide Numbered, Full;
    if n > 0 {
      SeededHolds(src, before, n - 1);
      var id := src.sessions[n - 1];
      assert src.sessions[..n] == src.sessions[..n - 1] + [id];
      assert id in src.sessions && id !in src.sessions[..n - 1];
    }
  }

  /** How many of the first `n` sessions the target lacks. */
  function Absent(src: Source, before: Target, n: nat): nat
    requires n <= |src.sessions|
  {
    if n == 0 then 0 else Absent(src, before, n - 1) + if src.sessions[n - 1] in before then 0 else 1
  }

  /** The rows of a store that numbers what is appended. */
  function StoreRows(events: seq<Event>): seq<Row> {
    seq(|events|, i requires 0 <= i < |events| => Row(i + 1, events[i]))
  }

  lemma NumberedByStore(events: seq<Event>)
    ensures Numbered(StoreRows(events)) && |StoreRows(events)| == |events|
  {
  }

  /** How many of the first `n` sessions the target has with fewer events than the source. */
  function Short(src: Source, t: Target, n: nat): nat
    requires n <= |src.sessions|
    requires forall id :: id in src.sessions ==> id in src.events
  {
    if n == 0 then 0
    else
      var id := src.sessions[n - 1];
      Short(src, t, n - 1) + if id in t && |t[id].events| < |src.events[id]| then 1 else 0
  }

  /** Which of the first `n` sessions have a property. */
  ghost function Which(src: Source, n: nat, p: string -> bool): set<int>
    requires n <= |src.sessions|
  {
    set i | 0 <= i < n && p(src.sessions[i])
  }

  lemma OneMoreSession(src: Source, n: nat, p: string -> bool)
    requires 0 < n <= |src.sessions|
    ensures |Which(src, n, p)| == |Which(src, n - 1, p)| + if p(src.sessions[n - 1]) then 1 else 0
  {
    assert Which(src, n, p) == Which(src, n - 1, p) + if p(src.sessions[n - 1]) then {n - 1} else {};
  }

  lemma {:induction false} CountsTell(src: Source, t: Target, n: nat)
    requires n <= |src.sessions| && forall id :: id in src.sessions ==> id in src.events
    ensures Absent(src, t, n) == |Which(src, n, id => id !in t)|
    ensures Short(src, t, n)
         == |Which(src, n, id => id in t && id in src.events && |t[id].events| < |src.events[id]|)|
    ensures n == |Which(src, n, id => id !in t)|
               + |Which(src, n, id => id in t && id in src.events && |t[id].events| < |src.events[id]|)|
               + |Which(src, n, id => id in t && id in src.events && |t[id].events| >= |src.events[id]|)|
  {
    if n > 0 {
      CountsTell(src, t, n - 1);
      assert src.sessions[n - 1] in src.sessions;
      hide Which;
      OneMoreSession(src, n, id => id !in t);
      OneMoreSession(src, n, id => id in t && id in src.events && |t[id].events| < |src.events[id]|);
      OneMoreSession(src, n, id => id in t && id in src.events && |t[id].events| >= |src.events[id]|);
    }
  }

  /** Nothing that was there changed, and every session that was not is there with every message
      and every event in place. */
  ghost predicate Copied(src: Source, before: Target, after: Target)
    requires Valid(src)
  {
    && (forall id :: id in after <==> id in before || id in src.sessions)
    && (forall id :: id in before ==> after[id] == before[id])
    && (forall id :: id in src.sessions && id !in before ==>
          && after[id].messages == src.messages[id]
          && |after[id].events| == |src.events[id]|
          && forall i :: 0 <= i < |src.events[id]| ==> after[id].events[i] == src.events[id][i].event)
  }

  lemma SeededIsCopied(src: Source, before: Target)
    requires Valid(src)
    ensures Copied(src, before, Seeded(src, before, |src.sessions|))
  {
    SeededHolds(src, before, |src.sessions|);
    assert src.sessions[..|src.sessions|] == src.sessions;
    hide Seeded, Numbered;
  }

  /** For a session the copy created, being short is the same as lacking an event. */
  lemma ShortIffIncomplete(src: Source, before: Target, after: Target, id: string)
    requires Valid(src) && Safe(src, before, after) && id in after && id !in before
    ensures |after[id].events| < |src.events[id]| <==> after[id].events != Full(src, id).events
    ensures |after[id].events| == |src.events[id]| && src.events[id] != [] ==> after[id] == Full(src, id)
  {
  }

  // ---------------------------------------------------------------- interruption

  /** How many writes one session takes: itself, its messages, its events. */
  function Writes(full: History): nat { 1 + |full.messages| + |full.events| }

  /** What `n` writes leave of a session, in that order. */
  function Begin(full: History, n: nat): History
    requires 1 <= n <= Writes(full)
  {
    var m := |full.messages|;
    if n <= 1 + m then History(full.messages[..n - 1], []) else History(full.messages, full.events[..n - 1 - m])
  }

  lemma BeginIsBegun(full: History, n: nat)
    requires 1 <= n <= Writes(full)
    ensures Begun(Begin(full, n), full) && (Begin(full, n) == full <==> n == Writes(full))
    ensures 1 + |Begin(full, n).messages| + |Begin(full, n).events| == n
  {
  }

  /** A target with what is left of a session after at most `n` writes. */
  function Written(t: Target, id: string, full: History, n: nat): Target {
    if n == 0 then t else t[id := Begin(full, if n < Writes(full) then n else Writes(full))]
  }

  /** A run over the first sessions: the target, the writes still to be seen, whether it crashed. */
  datatype Progress = Progress(target: Target, fuse: nat, crashed: bool)

  /** What a run leaves that lives to see `fuse` writes. */
  function RunOver(src: Source, before: Target, fuse: nat, n: nat): Progress
    requires n <= |src.sessions|
    requires forall id :: id in src.sessions ==> id in src.messages && id in src.events
  {
    if n == 0 then Progress(before, fuse, false)
    else
      var p, id := RunOver(src, before, fuse, n - 1), src.sessions[n - 1];
      if p.crashed || id in p.target then p
      else
        var full := Full(src, id);
        var w := Writes(full);
        Progress(Written(p.target, id, full, p.fuse), if p.fuse < w then 0 else p.fuse - w, p.fuse < w)
  }

  function RunOnce(src: Source, before: Target, fuse: nat): Progress
    requires forall id :: id in src.sessions ==> id in src.messages && id in src.events
  {
    RunOver(src, before, fuse, |src.sessions|)
  }

  /** Runs over runs, each with its own number of writes. */
  function RunAll(src: Source, before: Target, fuses: seq<nat>): Target
    requires forall id :: id in src.sessions ==> id in src.messages && id in src.events
  {
    if fuses == [] then before else RunOnce(src, RunAll(src, before, fuses[..|fuses| - 1]), fuses[|fuses| - 1]).target
  }

  lemma SeededNext(src: Source, before: Target, n: nat)
    requires Valid(src) && 0 < n <= |src.sessions|
    ensures var t, id := Seeded(src, before, n - 1), src.sessions[n - 1];
            Seeded(src, before, n) == if id in before then t else t[id := Full(src, id)]
  {
    hide Numbered, Full;
  }

  lemma {:induction false} RunOverIsSafe(src: Source, before: Target, fuse: nat, n: nat)
    requires Valid(src) && n <= |src.sessions|
    ensures Safe(src, before, RunOver(src, before, fuse, n).target)
    ensures !RunOver(src, before, fuse, n).crashed ==> RunOver(src, before, fuse, n).target == Seeded(src, before, n)
  {
    hide Numbered, Full, Safe, Written, Writes;
    if n == 0 {
      SafeUntouched(src, before);
    } else {
      var p, id := RunOver(src, before, fuse, n - 1), src.sessions[n - 1];
      RunOverIsSafe(src, before, fuse, n - 1);
      SeededHolds(src, before, n - 1);
      assert id !in src.sessions[..n - 1];
      hide Seeded;
      SeededNext(src, before, n);
      if !p.crashed && id !in p.target { WrittenIsSafe(src, before, p.target, id, p.fuse); }
    }
  }

  lemma WrittenIsSafe(src: Source, before: Target, t: Target, id: string, n: nat)
    requires Valid(src) && Safe(src, before, t) && id in src.sessions && id !in t
    ensures Safe(src, before, Written(t, id, Full(src, id), n))
    ensures n >= Writes(Full(src, id)) ==> Written(t, id, Full(src, id), n) == t[id := Full(src, id)]
  {
    hide Numbered, Full, Begin, Begun;
    var full := Full(src, id);
    if n > 0 { BeginIsBegun(full, if n < Writes(full) then n else Writes(full)); }
  }

  lemma {:induction false} RunAllIsSafe(src: Source, before: Target, fuses: seq<nat>)
    requires Valid(src)
    ensures Safe(src, before, RunAll(src, before, fuses))
  {
    hide Numbered, Safe, RunOver;
    if fuses == [] {
      SafeUntouched(src, before);
    } else {
      var mid := RunAll(src, before, fuses[..|fuses| - 1]);
      RunAllIsSafe(src, before, fuses[..|fuses| - 1]);
      RunOverIsSafe(src, mid, fuses[|fuses| - 1], |src.sessions|);
      SafeComposes(src, before, mid, RunAll(src, before, fuses));
    }
  }

  /** The target store. Its process may stop before any write: `fuse` is the number of writes
      it still lives to see. */
  class Store {
    var histories: map<string, History>
    var fuse: nat

    constructor (histories: map<string, History>, fuse: nat)
      ensures this.histories == histories && this.fuse == fuse
    {
      this.histories, this.fuse := histories, fuse;
    }

    /** One write that may not happen any more. */
    method Save(id: string, h: History) returns (crashed: bool)
      modifies this
      ensures crashed == (old(fuse) == 0)
      ensures histories == if crashed then old(histories) else old(histories)[id := h]
      ensures fuse == if crashed then 0 else old(fuse) - 1
    {
      crashed := fuse == 0;
      if !crashed { histories, fuse := histories[id := h], fuse - 1; }
    }

    /** Copies one absent session: the session, its messages, its events. A crash leaves exactly
        what was written before it. */
    method CopyOne(src: Source, id: string) returns (crashed: bool)
      requires Valid(src) && id in src.sessions && id !in histories
      modifies this
      ensures histories == Written(old(histories), id, Full(src, id), old(fuse))
      ensures crashed <==> old(fuse) < Writes(Full(src, id))
      ensures fuse == if crashed then 0 else old(fuse) - Writes(Full(src, id))
    {
      var messages, full := src.messages[id], Full(src, id);
      var events := AllEvents(src.events[id]);
      ghost var before := histories;
      crashed := Save(id, History([], []));
      if crashed { return; }
      var i := 0;
      while i < |messages|
        invariant 0 <= i <= |messages|
        invariant histories == before[id := History(messages[..i], [])]
        invariant fuse + 1 + i == old(fuse)
      {
        assert messages[..i + 1] == messages[..i] + [messages[i]];
        crashed := Save(id, History(messages[..i] + [messages[i]], []));
        if crashed { return; }
        i := i + 1;
      }
      assert messages[..i] == messages;
      var j := 0;
      while j < |events|
        invariant 0 <= j <= |events|
        invariant histories == before[id := History(messages, full.events[..j])]
        invariant fuse + 1 + |messages| + j == old(fuse)
      {
        assert full.events[..j + 1] == full.events[..j] + [events[j].event];
        crashed := Save(id, History(messages, histories[id].events + [events[j].event]));
        if crashed { return; }
        j := j + 1;
      }
      assert full.events[..j] == full.events;
    }

    /** A run of the copy leaves exactly what its writes amount to. Interrupted or not it only
        adds; uninterrupted it adds everything that was absent. */
    method CopySessions(src: Source) returns (copied: nat, crashed: bool)
      requires Valid(src)
      modifies this
      ensures Progress(histories, fuse, crashed) == RunOnce(src, old(histories), old(fuse))
      ensures Safe(src, old(histories), histories)
      ensures !crashed ==> histories == Seeded(src, old(histories), |src.sessions|)
      ensures !crashed ==> Copied(src, old(histories), histories)
      ensures !crashed ==> var before := old(histories); copied == |Which(src, |src.sessions|, id => id !in before)|
    {
      SeededIsCopied(src, histories);
      CountsTell(src, histories, |src.sessions|);
      hide Numbered, RunOver, Seeded, Safe, Which, Copied;
      copied, crashed := CopyEach(src);
    }

    method CopyEach(src: Source) returns (copied: nat, crashed: bool)
      requires Valid(src)
      modifies this
      ensures Progress(histories, fuse, crashed) == RunOnce(src, old(histories), old(fuse))
      ensures Safe(src, old(histories), histories)
      ensures !crashed ==> histories == Seeded(src, old(histories), |src.sessions|)
                           && copied == Absent(src, old(histories), |src.sessions|)
    {
      hide Numbered, Full, Begun, Safe, Written, Writes;
      ghost var before := histories;
      copied, crashed := 0, false;
      RunOverIsSafe(src, before, fuse, |src.sessions|);
      var i := 0;
      while i < |src.sessions|
        invariant 0 <= i <= |src.sessions|
        invariant Progress(histories, fuse, crashed) == RunOver(src, before, old(fuse), i)
        invariant !crashed ==> histories == Seeded(src, before, i) && copied == Absent(src, before, i)
      {
        var id := src.sessions[i];
        SeededHolds(src, before, i);
        assert id !in src.sessions[..i];
        i := i + 1;
        if crashed || id in histories { continue; }
        RunOverIsSafe(src, before, old(fuse), i);
        crashed := CopyOne(src, id);
        if !crashed { copied := copied + 1; }
      }
    }

    /** The backfill script: the same copy, with a count of what it copied, of what it skipped and
        of what an earlier interrupted run left with too few events. A dry run only counts. */
    method Backfill(src: Source, dry: bool) returns (copied: nat, skipped: nat, partials: nat, crashed: bool)
      requires Valid(src)
      modifies this
      ensures dry ==> !crashed && histories == old(histories)
      ensures !dry ==> Progress(histories, fuse, crashed) == RunOnce(src, old(histories), old(fuse))
      ensures Safe(src, old(histories), histories)
      ensures !crashed && !dry ==> Copied(src, old(histories), histories)
      ensures !crashed ==>
        var before, n := old(histories), |src.sessions|;
        && copied == |Which(src, n, id => id !in before)|
        && partials == |Which(src, n, id => id in before && id in src.events
                                            && |before[id].events| < |src.events[id]|)|
        && skipped == |Which(src, n, id => id in before && id in src.events
                                           && |before[id].events| >= |src.events[id]|)|
    {
      SeededIsCopied(src, histories);
      CountsTell(src, histories, |src.sessions|);
      hide Numbered, RunOver, Seeded, Safe, Which, Copied;
      copied, skipped, partials, crashed := BackfillEach(src, dry);
    }

    /** The script's loop, with its counts session by session. */
    method BackfillEach(src: Source, dry: bool) returns (copied: nat, skipped: nat, partials: nat, crashed: bool)
      requires Valid(src)
      modifies this
      ensures dry ==> !crashed && histories == old(histories)
      ensures !dry ==> Progress(histories, fuse, crashed) == RunOnce(src, old(histories), old(fuse))
      ensures Safe(src, old(histories), histories)
      ensures !crashed && !dry ==> histories == Seeded(src, old(histories), |src.sessions|)
      ensures !crashed ==>
        && copied == Absent(src, old(histories), |src.sessions|)
        && partials == Short(src, old(histories), |src.sessions|)
        && copied + skipped + partials == |src.sessions|
    {
      hide Numbered, Full, Begun, Safe, Written, Writes;
      ghost var before := histories;
      copied, skipped, partials, crashed := 0, 0, 0, false;
      RunOverIsSafe(src, before, fuse, |src.sessions|);
      SafeUntouched(src, before);
      var i := 0;
      while i < |src.sessions|
        invariant 0 <= i <= |src.sessions|
        invariant dry ==> histories == before && !crashed
        invariant !dry ==> Progress(histories, fuse, crashed) == RunOver(src, before, old(fuse), i)
        invariant !crashed && !dry ==> histories == Seeded(src, before, i)
        invariant !crashed ==> copied == Absent(src, before, i) && partials == Short(src, before, i)
                               && copied + skipped + partials == i
      {
        var id := src.sessions[i];
        SeededHolds(src, before, i);
        assert id !in src.sessions[..i];
        assert id in src.sessions;
        i := i + 1;
        if crashed { continue; }
        var local := AllEvents(src.events[id]);
        if id in histories {
          NumberedByStore(histories[id].events);
          var durable := AllEvents(StoreRows(histories[id].events));
          if |durable| < |local| { partials := partials + 1; } else { skipped := skipped + 1; }
          continue;
        }
        if !dry {
          RunOverIsSafe(src, before, old(fuse), i);
          crashed := CopyOne(src, id);
        }
        if !crashed { copied := copied + 1; }
      }
    }

    /** Any number of runs, each interrupted anywhere or not at all. */
    method Reboots(src: Source, fuses: seq<nat>)
      requires Valid(src)
      modifies this
      ensures histories == RunAll(src, old(histories), fuses)
      ensures Safe(src, old(histories), histories)
    {
      hide RunOver, Safe, Numbered;
      for i := 0 to |fuses|
        invariant histories == RunAll(src, old(histories), fuses[..i])
      {
        assert fuses[..i + 1][..i] == fuses[..i];
        fuse := fuses[i];
        var copied, crashed := CopySessions(src);
      }
      assert fuses[..|fuses|] == fuses;
      RunAllIsSafe(src, old(histories), fuses);
    }
  }

  lemma SafeUntouched(src: Source, before: Target)
    requires Valid(src)
    ensures Safe(src, before, before)
  {
  }

  /** After an uninterrupted run over absent sessions the histories are equal, and the next run
      has nothing to copy. */
  lemma SecondRunCopiesNothing(src: Source, before: Target)
    requires Valid(src)
    ensures var once := Seeded(src, before, |src.sessions|);
            && Seeded(src, once, |src.sessions|) == once && Absent(src, once, |src.sessions|) == 0
            && forall id :: id in src.sessions && id !in before ==> id in once && once[id] == Full(src, id)
  {
    var n := |src.sessions|;
    var once := Seeded(src, before, n);
    SeededHolds(src, before, n);
    SeededHolds(src, once, n);
    assert src.sessions[..n] == src.sessions;
    assert Seeded(src, once, n) == once;
    NoneAbsent(src, once, n);
  }

  lemma {:induction false} NoneAbsent(src: Source, t: Target, n: nat)
    requires n <= |src.sessions| && forall id :: id in src.sessions ==> id in t
    ensures Absent(src, t, n) == 0
  {
    if n > 0 { NoneAbsent(src, t, n - 1); }
  }

  /** What the partial report promises of a session: whatever was there before, and however often
      the copy ran and was interrupted, being short is the same as being incomplete. */
  ghost predicate ReportIsExact(src: Source, id: string)
    requires Valid(src) && id in src.sessions
  {
    forall before: Target, fuses: seq<nat> :: ReportIsExactAfter(src, id, before, RunAll(src, before, fuses))
  }

  ghost predicate ReportIsExactAfter(src: Source, id: string, before: Target, after: Target)
    requires Valid(src) && id in src.sessions
  {
    id in after && id !in before ==> (|after[id].events| < |src.events[id]| <==> after[id] != Full(src, id))
  }

  /** The report is exact for a session exactly when it has events to count, or no messages to
      lose. */
  lemma ReportIsExactIff(src: Source, id: string)
    requires Valid(src) && id in src.sessions
    ensures ReportIsExact(src, id) <==> src.events[id] != [] || src.messages[id] == []
  {
    hide RunAll, Numbered;
    if src.events[id] != [] || src.messages[id] == [] {
      forall before: Target, fuses: seq<nat> ensures ReportIsExactAfter(src, id, before, RunAll(src, before, fuses)) {
        RunAllIsSafe(src, before, fuses);
      }
    } else {
      var before := InterruptedAtOnce(src, id);
      var after := RunAll(src, before, [1]);
      assert !ReportIsExactAfter(src, id, before, after);
    }
  }

  /** A target that lacks only this session: a run with one write left ends right after it saved
      the session itself. */
  lemma InterruptedAtOnce(src: Source, id: string) returns (before: Target)
    requires Valid(src) && id in src.sessions
    ensures id !in before
    ensures var after := RunAll(src, before, [1]); id in after && after[id] == History([], [])
  {
    before := map k | k in src.sessions && k != id :: History([], []);
    var at :| 0 <= at < |src.sessions| && src.sessions[at] == id;
    OnlyAbsent(src, before, at, |src.sessions|);
    assert [1][..0] == [];
    assert RunAll(src, before, []) == before;
    assert Begin(Full(src, id), 1) == History([], []);
  }

  lemma {:induction false} OnlyAbsent(src: Source, before: Target, at: nat, n: nat)
    requires Valid(src) && at < |src.sessions| && n <= |src.sessions|
    requires forall k :: k in src.sessions ==> (k in before <==> k != src.sessions[at])
    ensures var id := src.sessions[at];
            RunOver(src, before, 1, n).target == if n <= at then before else before[id := Begin(Full(src, id), 1)]
    ensures n <= at ==> RunOver(src, before, 1, n) == Progress(before, 1, false)
  {
    hide Full, Numbered, Begin;
    if n > 0 { OnlyAbsent(src, before, at, n - 1); }
  }
}
