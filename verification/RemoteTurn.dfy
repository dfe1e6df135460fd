// A turn over a remote run channel: capability handshake, one send, a completion correlated by
// request id, and a read-back of the finished message.

module RemoteTurn {
  import opened Options

  const CAPABILITY: string := "execution_request_id-v1"

  /** What a received text decodes to. A field that is missing or not a string is `None`. */
  datatype Frame =
    | Garbled
    | Capabilities(correlation: Option<string>)
    | ErrorFrame(text: string)
    | RunResult(request: Option<string>, message: Option<string>)
    | Other(kind: string)

  datatype Status = Running | Completed | Errored | Cancelled

  datatype Message = Message(id: string, session: string, status: Status, ended: bool)

  /** The three client errors, and an exception that is none of them. */
  datatype Failure = NotImplemented | Failed | Unavailable | Uncaught

  datatype Outcome = Returned(message: Message) | Raised(failure: Failure)

  /** The first frame must name the one known correlation. */
  predicate Negotiated(f: Frame) {
    f == Capabilities(Some(CAPABILITY))
  }

  /** Frames that end the wait, one way or the other. */
  predicate Decides(f: Frame) {
    f.Garbled? || f.ErrorFrame? || f.RunResult?
  }

  predicate Correlated(f: Frame, request: string) {
    f.RunResult? && f.request == Some(request) && f.message.Some? && f.message.value != ""
  }

  predicate Finalized(m: Message, id: string, session: string) {
    m.id == id && m.session == session && !m.status.Running? && m.ended
  }

  /** The outcome once a deciding frame is there. */
  function Conclude(f: Frame, request: string, session: string, store: map<string, Message>): Outcome {
    match f
    case Garbled => Raised(Uncaught)
    case RunResult(_, _) =>
      if !Correlated(f, request) then Raised(Failed)
      else if f.message.value in store && Finalized(store[f.message.value], f.message.value, session)
      then Returned(store[f.message.value])
      else Raised(Failed)
    case _ => Raised(Failed)
  }

  /** The frames after the send; running out of them is a closed channel. */
  function Await(frames: seq<Frame>, request: string, session: string, store: map<string, Message>): Outcome {
    if frames == [] then Raised(Unavailable)
    else if Decides(frames[0]) then Conclude(frames[0], request, session, store)
    else Await(frames[1..], request, session, store)
  }

  /** The whole turn; `late` says that the handshake timed out. */
  function Turn(
      frames: seq<Frame>, late: bool, request: string, session: string, store: map<string, Message>): Outcome {
    if late then Raised(NotImplemented)
    else if frames == [] then Raised(Unavailable)
    else if !Negotiated(frames[0]) then Raised(NotImplemented)
    else Await(frames[1..], request, session, store)
  }

  /** The channel as the client sees it: what the kernel will send, how much was received, and
      what was sent after how many received frames. */
  class Channel {
    const frames: seq<Frame>
    var received: nat
    var sent: seq<(nat, string)>

    constructor (frames: seq<Frame>)
      ensures this.frames == frames && received == 0 && sent == []
    {
      this.frames, received, sent := frames, 0, [];
    }

    /** `None` is a closed connection. */
    method Receive() returns (f: Option<Frame>)
      requires received <= |frames|
      modifies this`received
      ensures f == if old(received) < |frames| then Some(frames[old(received)]) else None
      ensures received == if f.Some? then old(received) + 1 else old(received)
    {
      if received == |frames| { return None; }
      f := Some(frames[received]);
      received := received + 1;
    }

    method Send(request: string)
      modifies this`sent
      ensures sent == old(sent) + [(received, request)]
    {
      sent := sent + [(received, request)];
    }

    /** One remote turn. The request is sent at most once, right behind a valid capability frame
        and never without one. */
    method RunTurn(late: bool, request: string, session: string, store: map<string, Message>) returns (outcome: Outcome)
      requires received == 0 && sent == []
      modifies this
      ensures outcome == Turn(frames, late, request, session, store)
      ensures sent == if !late && frames != [] && Negotiated(frames[0]) then [(1, request)] else []
      ensures outcome == Raised(NotImplemented) ==> sent == []
    {
      if late { return Raised(NotImplemented); }
      var capability := Receive();
      if capability.None? { return Raised(Unavailable); }
      if !Negotiated(capability.value) { return Raised(NotImplemented); }
      Send(request);
      AwaitFails(frames[1..], request, session, store);
      while true
        invariant 1 <= received <= |frames| && sent == [(1, request)]
        invariant Await(frames[1..], request, session, store) == Await(frames[received..], request, session, store)
        decreases |frames| - received
      {
        ghost var rest := frames[received..];
        var frame := Receive();
        if frame.None? { return Raised(Unavailable); }
        assert rest[0] == frame.value && rest[1..] == frames[received..];
        match frame.value {
          case Garbled => return Raised(Uncaught);
          case ErrorFrame(_) => return Raised(Failed);
          case RunResult(owner, id) =>
            if owner != Some(request) { return Raised(Failed); }
            if id.None? || id.value == "" { return Raised(Failed); }
            outcome := ReadBack(id.value, session, store);
            return;
          case _ =>
        }
      }
    }

    /** The named message, if it is durably finalized. */
    method ReadBack(id: string, session: string, store: map<string, Message>) returns (outcome: Outcome)
      ensures outcome
           == if id in store && Finalized(store[id], id, session) then Returned(store[id]) else Raised(Failed)
    {
      if id !in store { return Raised(Failed); }
      var m := store[id];
      if m.id != id || m.session != session || m.status.Running? || !m.ended { return Raised(Failed); }
      return Returned(m);
    }
  }

  lemma {:induction false} AwaitFails(frames: seq<Frame>, request: string, session: string, store: map<string, Message>)
    ensures Await(frames, request, session, store) != Raised(NotImplemented)
  {
    if frames != [] && !Decides(frames[0]) { AwaitFails(frames[1..], request, session, store); }
  }

  // ---------------------------------------------------------------- what decides

  /** The `k`-th frame is the first deciding one behind the handshake. */
  ghost predicate FirstDecision(frames: seq<Frame>, k: nat) {
    1 <= k < |frames| && Decides(frames[k]) && forall i :: 1 <= i < k ==> !Decides(frames[i])
  }

  lemma {:induction false} AwaitConcludes(
      frames: seq<Frame>, k: nat, request: string, session: string, store: map<string, Message>)
    requires k < |frames| && Decides(frames[k]) && forall i :: 0 <= i < k ==> !Decides(frames[i])
    ensures Await(frames, request, session, store) == Conclude(frames[k], request, session, store)
  {
    if k > 0 {
      assert forall i :: 0 <= i < k - 1 ==> frames[1..][i] == frames[i + 1];
      AwaitConcludes(frames[1..], k - 1, request, session, store);
    }
  }

  lemma {:induction false} AwaitNothing(
      frames: seq<Frame>, request: string, session: string, store: map<string, Message>)
    requires forall i :: 0 <= i < |frames| ==> !Decides(frames[i])
    ensures Await(frames, request, session, store) == Raised(Unavailable)
  {
    if frames != [] {
      assert forall i :: 0 <= i < |frames[1..]| ==> frames[1..][i] == frames[i + 1];
      AwaitNothing(frames[1..], request, session, store);
    }
  }

  lemma {:induction false} DecisionOrNone(frames: seq<Frame>, from: nat) returns (k: nat)
    requires from <= |frames|
    ensures from <= k <= |frames| && (forall i :: from <= i < k ==> !Decides(frames[i]))
            && (k < |frames| ==> Decides(frames[k]))
    decreases |frames| - from
  {
    if from == |frames| || Decides(frames[from]) { k := from; } else { k := DecisionOrNone(frames, from + 1); }
  }

  /** A message is returned exactly when the kernel negotiated, the first deciding frame behind the
      handshake answers this very request and names that message, and the message is finalized
      in this session. */
  lemma ReturnsIffCorrelated(
      frames: seq<Frame>, late: bool, request: string, session: string, store: map<string, Message>, m: Message)
    ensures Turn(frames, late, request, session, store) == Returned(m)
       <==> !late && frames != [] && Negotiated(frames[0])
            && (exists k: nat :: FirstDecision(frames, k) && frames[k] == RunResult(Some(request), Some(m.id)))
            && m.id != "" && m.id in store && store[m.id] == m && Finalized(m, m.id, session)
  {
    if !late && frames != [] && Negotiated(frames[0]) {
      var rest := frames[1..];
      assert forall i :: 0 <= i < |rest| ==> rest[i] == frames[i + 1];
      var k := DecisionOrNone(frames, 1);
      if k < |frames| {
        AwaitConcludes(rest, k - 1, request, session, store);
        assert FirstDecision(frames, k);
        assert forall j: nat :: FirstDecision(frames, j) ==> j == k;
      } else {
        AwaitNothing(rest, request, session, store);
      }
    }
  }

  /** How a turn ends, read off the frames alone: `k` is the first frame behind the handshake that
      is an error, a result or not a frame at all. */
  lemma EndsExactlySo(frames: seq<Frame>, late: bool, request: string, session: string, store: map<string, Message>)
    returns (k: nat)
    ensures 1 <= k && forall i :: 1 <= i < k && i < |frames| ==> frames[i].Capabilities? || frames[i].Other?
    ensures k < |frames| ==> frames[k].Garbled? || frames[k].ErrorFrame? || frames[k].RunResult?
    ensures Turn(frames, late, request, session, store)
         == if late then Raised(NotImplemented)
            else if frames == [] then Raised(Unavailable)
            else if frames[0] != Capabilities(Some("execution_request_id-v1")) then Raised(NotImplemented)
            else if k >= |frames| then Raised(Unavailable)
            else if frames[k].Garbled? then Raised(Uncaught)
            else if frames[k].RunResult? && frames[k].request == Some(request)
                    && frames[k].message.Some? && Durable(store, frames[k].message.value, session)
            then Returned(store[frames[k].message.value])
            else Raised(Failed)
  {
    k := 1;
    if frames != [] {
      var rest := frames[1..];
      assert forall i :: 0 <= i < |rest| ==> rest[i] == frames[i + 1];
      k := DecisionOrNone(frames, 1);
      if k < |frames| {
        AwaitConcludes(rest, k - 1, request, session, store);
      } else {
        AwaitNothing(rest, request, session, store);
      }
    }
  }

  /** The store holds the message under its own id, ended, for the session. */
  predicate Durable(store: map<string, Message>, id: string, session: string) {
    && id != "" && id in store && store[id].id == id && store[id].session == session && store[id].ended
    && store[id].status in {Completed, Errored, Cancelled}
  }

  function Deciding(frames: seq<Frame>): seq<Frame> {
    if frames == [] then []
    else if Decides(frames[0]) then [frames[0]] + Deciding(frames[1..])
    else Deciding(frames[1..])
  }

  lemma {:induction false} AwaitReadsDeciding(
      frames: seq<Frame>, request: string, session: string, store: map<string, Message>)
    ensures Await(frames, request, session, store) == Await(Deciding(frames), request, session, store)
  {
    if frames != [] { AwaitReadsDeciding(frames[1..], request, session, store); }
  }

  /** Non-deciding replayed frames never matter: runs that agree on the handshake and on the
      deciding frames end alike, whatever else is in between. A replayed result or error does
      decide; see `OtherCompletionIsRefused`. */
  lemma OnlyDecidingFramesMatter(
      handshake: Frame, a: seq<Frame>, b: seq<Frame>, late: bool, request: string, session: string,
      store: map<string, Message>)
    requires Deciding(a) == Deciding(b)
    ensures Turn([handshake] + a, late, request, session, store) == Turn([handshake] + b, late, request, session, store)
  {
    AwaitReadsDeciding(a, request, session, store);
    AwaitReadsDeciding(b, request, session, store);
    assert ([handshake] + a)[1..] == a && ([handshake] + b)[1..] == b;
  }

  /** A completion of another execution in front is an error, not somebody else's message. */
  lemma OtherCompletionIsRefused(
      frames: seq<Frame>, k: nat, request: string, session: string, store: map<string, Message>)
    requires frames != [] && Negotiated(frames[0]) && FirstDecision(frames, k)
    requires frames[k].RunResult? && frames[k].request != Some(request)
    ensures Turn(frames, false, request, session, store) == Raised(Failed)
  {
    var rest := frames[1..];
    assert forall i :: 0 <= i < |rest| ==> rest[i] == frames[i + 1];
    AwaitConcludes(rest, k - 1, request, session, store);
  }
}
