// The bound on repeated frames is met: a run that sends one uid twice with exactly the size of the
// remember-set in between.

module StreamRepeats {
  import opened Options
  import opened DurableLog
  import opened Seen
  import opened EventMerge
  import opened StreamRounds

  function Event(uid: Uid): LiveEvent { LiveEvent(None, Some(uid), UserMessage) }

  function Lives(uids: seq<Uid>, now: int): seq<Step> {
    seq(|uids|, i requires 0 <= i < |uids| => LiveItem(Event(uids[i]), now))
  }

  function Sents(uids: seq<Uid>): seq<Note> {
    seq(|uids|, i requires 0 <= i < |uids| => Sent(Live(Event(uids[i]))))
  }

  lemma SentNow(plane: Plane, c: Conn, uid: Uid, now: int)
    requires uid !in c.order
    ensures var d := TakeLive(plane, c, Event(uid), now);
            && d.notes == c.notes + [Sent(Live(Event(uid)))] && d.phase == c.phase
            && d.order == Remember(SEEN_UIDS_MAX, c.order, uid)
  {
  }

  /** Uids that are new when they come are all sent. */
  lemma {:induction false} NewUidsAreSent(w: World, uids: seq<Uid>, now: int)
    requires w.conn.phase == Looping && Distinct(w.conn.order + uids) && |w.conn.order| <= SEEN_UIDS_MAX
    ensures var v := Run(w, Lives(uids, now));
            && v.conn.phase == Looping && v.conn.notes == w.conn.notes + Sents(uids)
            && v.conn.order == RememberAll(SEEN_UIDS_MAX, w.conn.order, uids)
  {
    hide TakeLive, Remember;
    if uids == [] {
      RunNone(w);
      assert Lives(uids, now) == [] && w.conn.notes + [] == w.conn.notes;
    } else {
      var front, uid := uids[..|uids| - 1], uids[|uids| - 1];
      var order, v := w.conn.order, Run(w, Lives(front, now));
      assert order + uids == order + front + [uid];
      DistinctFront(order + front, uid);
      NewUidsAreSent(w, front, now);
      NewUidsAppend(SEEN_UIDS_MAX, order, front);
      NewIsNotLast(order + front, uid, SEEN_UIDS_MAX);
      SentNow(w.plane, v.conn, uid, now);
      SamePlane(w, Lives(front, now));
      assert Lives(uids, now) == Lives(front, now) + [LiveItem(Event(uid), now)];
      RunNext(w, Lives(front, now), LiveItem(Event(uid), now));
      assert Sents(uids) == Sents(front) + [Sent(Live(Event(uid)))];
    }
  }

  lemma DistinctFront(s: seq<Uid>, uid: Uid)
    requires Distinct(s + [uid])
    ensures Distinct(s)
  {
    assert forall i :: 0 <= i < |s| ==> (s + [uid])[i] == s[i];
  }

  lemma {:induction false} SamePlane(w: World, steps: seq<Step>)
    ensures Run(w, steps).plane == w.plane
  {
    if steps != [] { SamePlane(w, steps[..|steps| - 1]); }
  }

  lemma Rotated(uid: Uid, others: seq<Uid>)
    requires Distinct([uid] + others) && |others| == SEEN_UIDS_MAX
    ensures Last([uid] + others, SEEN_UIDS_MAX) == others && Distinct(others + [uid])
  {
    var all := [uid] + others;
    assert all[0] == uid && all[1..] == others;
    assert forall i :: 0 <= i < |others| ==> all[i + 1] == others[i];
  }

  lemma SentsSplit(uid: Uid, others: seq<Uid>)
    ensures Sents([uid] + others) == Sents([uid]) + Sents(others) && Sents([uid]) == [Sent(Live(Event(uid)))]
  {
  }

  /** On either plane: one uid, as many distinct others as the set remembers, and the uid again. Both
      copies are sent, with exactly those others in between. */
  lemma SentAgainAfterMax(plane: Plane, uid: Uid, others: seq<Uid>, now: int)
    requires Distinct([uid] + others) && |others| == SEEN_UIDS_MAX
    ensures Run(Start(plane, [], 0, now), [EndReplay(now)] + Lives([uid] + others, now) + Lives([uid], now)).conn.notes
         == [Sent(Live(Event(uid)))] + Sents(others) + [Sent(Live(Event(uid)))]
  {
    hide Lives, TakeLive, Start, Run, Sents, Distinct, Last, Remember, RememberAll;
    var start, first := Start(plane, [], 0, now), [EndReplay(now)];
    var w := Run(start, first);
    Opened(plane, now);
    var v := Run(w, Lives([uid] + others, now));
    RunParts(start, first, Lives([uid] + others, now));
    RunParts(start, first + Lives([uid] + others, now), Lives([uid], now));
    assert [] + ([uid] + others) == [uid] + others;
    NewUidsAreSent(w, [uid] + others, now);
    NewUidsAppend(SEEN_UIDS_MAX, [], [uid] + others);
    Rotated(uid, others);
    NewUidsAreSent(v, [uid], now);
    SentsSplit(uid, others);
  }

  lemma Opened(plane: Plane, now: int)
    ensures var c := Run(Start(plane, [], 0, now), [EndReplay(now)]).conn;
            c.phase == Looping && c.order == [] && c.notes == []
  {
    RunNext(Start(plane, [], 0, now), [], EndReplay(now));
    assert [] + [EndReplay(now)] == [EndReplay(now)];
    RunNone(Start(plane, [], 0, now));
  }
}
