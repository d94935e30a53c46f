/**
 * The send gate and teardown of the legacy `Session` base class
 * (Server1/ServerCore/Session.cs). Each Interlocked exchange is one step of a method;
 * the socket is replaced by inputs that say how each `SendAsync`/`ReceiveAsync` call
 * turns out, and the receive buffer by inputs that say whether its cursors moved.
 *
 * Two history fields make the send path observable: `enqueued` lists every segment
 * handed to `Send`, and `transmitted` lists the batches handed to `SendAsync`.
 */
module SessionCore {
  import opened Numerics
  import opened Optional
  import opened Seqs
  import opened NetworkHelper

  type Segment = seq<byte>

  /** How a socket operation completed: bytes moved and the socket error code. */
  datatype Completion = Completion(bytesTransferred: int, error: SocketError)

  /** The only completion both callbacks treat as success. */
  predicate Succeeded(c: Completion)
  {
    c.bytesTransferred > 0 && c.error == Success
  }

  /** How a `SendAsync` call turns out; `onSendThrows` is whether the `OnSend` callback throws. */
  datatype SendStart =
    | SendPending
    | SendCompletesAtOnce(c: Completion, onSendThrows: bool)
    | SendThrows

  /**
   * A finished receive: the completion, whether the write cursor moved, what the
   * content handler `OnRecv` returned (`None` when it threw), the buffered data size
   * and whether the read cursor moved.
   */
  datatype Received = Received(c: Completion, writeOk: bool, processLen: Option<int>, dataSize: int, readOk: bool)

  /** How a `ReceiveAsync` call turns out. */
  datatype RecvStart = RecvPending | RecvThrows | RecvCompletesAtOnce(r: Received)

  /** Every field of a session, as one value. */
  datatype SessionState = SessionState(
    sendQueue: seq<Segment>,
    pendingSend: bool,
    disconnected: bool,
    bufferList: seq<Segment>,
    transmitted: seq<seq<Segment>>,
    enqueued: seq<Segment>,
    socketOpen: bool,
    handlersAttached: bool,
    disconnectCalls: nat,
    recvPosts: nat,
    consumed: seq<nat>)

  /** `OnDisconnected` has run exactly once if the session is disconnected, never otherwise. */
  predicate CalledOnce(s: SessionState)
  {
    s.disconnectCalls == if s.disconnected then 1 else 0
  }

  /**
   * The session invariant: while connected, a batch is in flight exactly when the
   * flag is Pending, an Idle session has nothing queued, and the batches sent followed
   * by the queue are exactly the segments handed to `Send`, in order; once
   * disconnected, the flag is Idle and no batch is held.
   */
  predicate Inv(s: SessionState)
  {
    && CalledOnce(s)
    && (!s.disconnected ==> (s.pendingSend <==> s.bufferList != []))
    && (!s.disconnected && !s.pendingSend ==> s.sendQueue == [])
    && (!s.disconnected ==> Flatten(s.transmitted) + s.sendQueue == s.enqueued)
    && (s.disconnected ==> !s.pendingSend && s.bufferList == [])
  }

  /** The state a fresh session starts in. */
  function Initial(): (s: SessionState)
    ensures Inv(s) && !s.disconnected && s.enqueued == []
  {
    SessionState([], false, false, [], [], [], false, false, 0, 0, [])
  }

  /**
   * `Disconnect`: only the first call runs `OnDisconnected`, closes the socket and
   * clears the session; afterwards the queue is empty, the flag Idle and no batch held.
   */
  function TearDown(s: SessionState): (r: SessionState)
    ensures !s.disconnected ==> r.disconnected && r.sendQueue == [] && !r.pendingSend && r.bufferList == []
    ensures s.disconnected ==> r == s
    ensures !s.disconnected ==> r.disconnectCalls == s.disconnectCalls + 1 && !r.socketOpen && !r.handlersAttached
    ensures r.transmitted == s.transmitted && r.enqueued == s.enqueued && r.consumed == s.consumed
    ensures r.recvPosts == s.recvPosts
    ensures CalledOnce(s) && (s.disconnected ==> Inv(s)) ==> Inv(r)
  {
    if s.disconnected then s
    else s.(disconnected := true, disconnectCalls := s.disconnectCalls + 1, socketOpen := false,
            sendQueue := [], pendingSend := false, handlersAttached := false, bufferList := [])
  }

  /** Taking the send gate requires no batch in flight, and a Pending flag unless disconnected. */
  predicate Arming(s: SessionState)
  {
    && CalledOnce(s)
    && s.bufferList == []
    && (s.disconnected || s.pendingSend)
    && (!s.disconnected ==> Flatten(s.transmitted) + s.sendQueue == s.enqueued)
  }

  /**
   * `RegisterSend`: when connected with something queued, the whole queue goes out as
   * one batch, FIFO; disconnected or with an empty queue the flag goes Idle and
   * nothing is sent.
   */
  function RegisterSendSpec(s: SessionState, start: SendStart): (r: SessionState)
    ensures s.disconnected || s.sendQueue == [] ==> r == s.(pendingSend := false)
    ensures !s.disconnected && s.sendQueue != [] && !start.SendThrows? ==>
      r.transmitted == s.transmitted + [s.sendQueue] && r.sendQueue == []
    ensures !s.disconnected && s.sendQueue != [] && start.SendThrows? ==>
      r.disconnected && r.transmitted == s.transmitted
    ensures r.enqueued == s.enqueued && r.consumed == s.consumed
    decreases |s.sendQueue|, 1
  {
    if s.disconnected || s.sendQueue == [] then s.(pendingSend := false)
    else
      var batch := s.sendQueue;
      var t := s.(sendQueue := [], bufferList := batch);
      match start
      case SendPending => t.(transmitted := t.transmitted + [batch])
      case SendCompletesAtOnce(c, onSendThrows) =>
        SendCompletedSpec(t.(transmitted := t.transmitted + [batch]), c, onSendThrows, SendPending)
      case SendThrows => TearDown(t.(pendingSend := false))
  }

  /**
   * `OnSendCompleted`: a failed completion idles the flag and disconnects; a
   * successful one idles the flag if the queue is empty and otherwise starts the
   * next batch (with `next` saying how that `SendAsync` turns out).
   */
  function SendCompletedSpec(s: SessionState, c: Completion, onSendThrows: bool, next: SendStart): (r: SessionState)
    ensures !Succeeded(c) ==> r == TearDown(s.(pendingSend := false))
    ensures Succeeded(c) && !onSendThrows && s.sendQueue == [] ==>
      r == s.(bufferList := [], pendingSend := false)
    ensures Succeeded(c) && !onSendThrows && s.sendQueue != [] && !s.disconnected && !next.SendThrows? ==>
      r.transmitted == s.transmitted + [s.sendQueue] && r.sendQueue == []
    ensures r.enqueued == s.enqueued && r.consumed == s.consumed
    decreases |s.sendQueue|, 2
  {
    if !Succeeded(c) then TearDown(s.(pendingSend := false))
    else
      var u := s.(bufferList := []);
      if onSendThrows then TearDown(u.(pendingSend := false))
      else if u.sendQueue == [] then u.(pendingSend := false)
      else RegisterSendSpec(u, next)
  }

  /** Enqueue segments, then start a transmit only if the flag was Idle. */
  function Gate(s: SessionState, segments: seq<Segment>, start: SendStart): (r: SessionState)
    ensures r.enqueued == s.enqueued + segments && r.consumed == s.consumed
    ensures s.pendingSend ==> r == s.(sendQueue := s.sendQueue + segments, enqueued := s.enqueued + segments)
  {
    var q := s.(sendQueue := s.sendQueue + segments, enqueued := s.enqueued + segments);
    if s.pendingSend then q else RegisterSendSpec(q.(pendingSend := true), start)
  }

  /** `Send` of a list: an empty list changes nothing; otherwise every segment is queued in order. */
  function SendSpec(s: SessionState, segments: seq<Segment>, start: SendStart): (r: SessionState)
    ensures segments == [] ==> r == s
    ensures r.enqueued == s.enqueued + segments
  {
    if segments == [] then s else Gate(s, segments, start)
  }

  /** `RegisterRecv`: nothing once disconnected; otherwise one `ReceiveAsync` is posted. */
  function RegisterRecvSpec(s: SessionState, steps: seq<RecvStart>): (r: SessionState)
    ensures s.disconnected ==> r == s
    ensures !s.disconnected ==> r.recvPosts > s.recvPosts
    ensures r.recvPosts >= s.recvPosts
    ensures r.transmitted == s.transmitted && r.enqueued == s.enqueued
    ensures |s.consumed| <= |r.consumed| && r.consumed[..|s.consumed|] == s.consumed
    decreases |steps|, 0
  {
    if s.disconnected then s
    else
      var p := s.(recvPosts := s.recvPosts + 1);
      if steps == [] then p
      else
        match steps[0]
        case RecvPending => p
        case RecvThrows => TearDown(p)
        case RecvCompletesAtOnce(r) => RecvCompletedSpec(p, r, steps[1..])
  }

  /** The receive completion is accepted: every check on the way to `OnRead` passes. */
  predicate Accepts(r: Received)
  {
    && Succeeded(r.c)
    && r.writeOk
    && r.processLen.Some?
    && 0 <= r.processLen.value <= r.dataSize
    && r.readOk
  }

  /**
   * `OnRecvCompleted`: a failed completion, a failed cursor move, a throwing handler,
   * or a handler result that is negative or beyond the buffered data disconnects;
   * otherwise the handled length is consumed and the next receive is posted.
   */
  function RecvCompletedSpec(s: SessionState, r: Received, next: seq<RecvStart>): (res: SessionState)
    ensures !Accepts(r) ==> res == TearDown(s)
    ensures Accepts(r) ==> |res.consumed| > |s.consumed| && res.consumed[|s.consumed|] == r.processLen.value
    ensures res.transmitted == s.transmitted && res.enqueued == s.enqueued && res.recvPosts >= s.recvPosts
    ensures |s.consumed| <= |res.consumed| && res.consumed[..|s.consumed|] == s.consumed
    decreases |next|, 1
  {
    if !Succeeded(r.c) || !r.writeOk then TearDown(s)
    else
      match r.processLen
      case None => TearDown(s)
      case Some(n) =>
        if n < 0 || r.dataSize < n then TearDown(s)
        else if !r.readOk then TearDown(s)
        else
          var u := s.(consumed := s.consumed + [n]);
          var res := RegisterRecvSpec(u, next);
          assert res.consumed[..|u.consumed|] == u.consumed;
          assert res.consumed[..|s.consumed|] == u.consumed[..|s.consumed|];
          res
  }

  /** `Start`: the socket and both completion handlers are attached, then a receive is posted. */
  function StartSpec(s: SessionState, steps: seq<RecvStart>): (r: SessionState)
    ensures s.disconnected ==> r == s.(socketOpen := true, handlersAttached := true)
    ensures !s.disconnected ==> r.recvPosts > s.recvPosts
  {
    RegisterRecvSpec(s.(socketOpen := true, handlersAttached := true), steps)
  }

  lemma {:induction false} RegisterSendKeepsInv(s: SessionState, start: SendStart)
    requires Arming(s)
    ensures Inv(RegisterSendSpec(s, start))
    decreases |s.sendQueue|, 1
  {
    if !s.disconnected && s.sendQueue != [] {
      var batch := s.sendQueue;
      var t := s.(sendQueue := [], bufferList := batch, transmitted := s.transmitted + [batch]);
      FlattenSnoc(s.transmitted, batch);
      assert Flatten(t.transmitted) + t.sendQueue == s.enqueued;
      match start
      case SendPending =>
      case SendCompletesAtOnce(c, onSendThrows) =>
        SendCompletedKeepsInv(t, c, onSendThrows, SendPending);
      case SendThrows =>
    }
  }

  /** A send completion keeps the session invariant. */
  lemma {:induction false} SendCompletedKeepsInv(s: SessionState, c: Completion, onSendThrows: bool, next: SendStart)
    requires Inv(s)
    ensures Inv(SendCompletedSpec(s, c, onSendThrows, next))
    decreases |s.sendQueue|, 2
  {
    if Succeeded(c) && !onSendThrows && s.sendQueue != [] {
      RegisterSendKeepsInv(s.(bufferList := []), next);
    }
  }

  /** Both `Send` overloads keep the session invariant. */
  lemma SendKeepsInv(s: SessionState, segments: seq<Segment>, start: SendStart)
    requires Inv(s)
    ensures Inv(SendSpec(s, segments, start))
  {
    if segments != [] && !s.pendingSend {
      var q := s.(sendQueue := s.sendQueue + segments, enqueued := s.enqueued + segments, pendingSend := true);
      if !s.disconnected {
        assert Flatten(s.transmitted) + s.sendQueue + segments == s.enqueued + segments;
      }
      RegisterSendKeepsInv(q, start);
    } else if segments != [] && !s.disconnected {
      assert Flatten(s.transmitted) + s.sendQueue + segments == s.enqueued + segments;
    }
  }

  lemma {:induction false} RegisterRecvKeepsInv(s: SessionState, steps: seq<RecvStart>)
    requires Inv(s)
    ensures Inv(RegisterRecvSpec(s, steps))
    decreases |steps|, 0
  {
    if !s.disconnected && steps != [] {
      var p := s.(recvPosts := s.recvPosts + 1);
      match steps[0]
      case RecvPending =>
      case RecvThrows =>
      case RecvCompletesAtOnce(r) => RecvCompletedKeepsInv(p, r, steps[1..]);
    }
  }

  /** A receive completion keeps the session invariant. */
  lemma {:induction false} RecvCompletedKeepsInv(s: SessionState, r: Received, next: seq<RecvStart>)
    requires Inv(s)
    ensures Inv(RecvCompletedSpec(s, r, next))
    decreases |next|, 1
  {
    if Accepts(r) {
      RegisterRecvKeepsInv(s.(consumed := s.consumed + [r.processLen.value]), next);
    }
  }

  /**
   * Segments reach the socket in the order `Send` accepted them: while connected, the
   * transmitted batches, in order, are a prefix of everything handed to `Send`.
   */
  lemma TransmittedInSendOrder(s: SessionState)
    requires Inv(s) && !s.disconnected
    ensures |Flatten(s.transmitted)| <= |s.enqueued|
    ensures Flatten(s.transmitted) == s.enqueued[..|Flatten(s.transmitted)|]
  {
    assert s.enqueued[..|Flatten(s.transmitted)|] == (Flatten(s.transmitted) + s.sendQueue)[..|Flatten(s.transmitted)|];
  }

  /** A live session: the fields of Server1/ServerCore/Session.cs that the send gate updates. */
  class Session {
    var sendQueue: seq<Segment>
    var pendingSend: bool
    var disconnected: bool
    var bufferList: seq<Segment>
    var transmitted: seq<seq<Segment>>
    var enqueued: seq<Segment>
    var socketOpen: bool
    var handlersAttached: bool
    var disconnectCalls: nat
    var recvPosts: nat
    var consumed: seq<nat>

    function State(): SessionState
      reads this
    {
      SessionState(sendQueue, pendingSend, disconnected, bufferList, transmitted, enqueued,
                   socketOpen, handlersAttached, disconnectCalls, recvPosts, consumed)
    }

    ghost predicate Valid()
      reads this
    {
      Inv(State())
    }

    constructor ()
      ensures State() == Initial() && Valid()
    {
      sendQueue, pendingSend, disconnected, bufferList := [], false, false, [];
      transmitted, enqueued := [], [];
      socketOpen, handlersAttached := false, false;
      disconnectCalls, recvPosts, consumed := 0, 0, [];
    }

    method Start(steps: seq<RecvStart>)
      requires Valid()
      modifies this
      ensures State() == StartSpec(old(State()), steps) && Valid()
    {
      socketOpen := true;
      handlersAttached := true;
      RegisterRecvKeepsInv(State(), steps);
      RegisterRecv(steps);
    }

    /** Empties the queue, idles the flag, detaches the handlers and drops the batch. */
    method Clear()
      modifies this
      ensures State() == old(State()).(sendQueue := [], pendingSend := false, handlersAttached := false, bufferList := [])
    {
      while sendQueue != []
        modifies this`sendQueue
        decreases |sendQueue|
      {
        sendQueue := sendQueue[1..];
      }
      pendingSend := false;
      handlersAttached := false;
      bufferList := [];
    }

    method Disconnect()
      requires CalledOnce(State()) && (disconnected ==> Valid())
      modifies this
      ensures State() == TearDown(old(State())) && Valid()
    {
      if disconnected {
        return;
      }
      disconnected := true;
      disconnectCalls := disconnectCalls + 1;
      socketOpen := false;
      Clear();
    }

    /** `Send` of a list of segments. */
    method Send(segments: seq<Segment>, start: SendStart)
      requires Valid()
      modifies this
      ensures State() == SendSpec(old(State()), segments, start) && Valid()
    {
      SendKeepsInv(State(), segments, start);
      if |segments| == 0 {
        return;
      }
      ghost var s0 := State();
      Enqueue(segments);
      assert State() == s0.(sendQueue := s0.sendQueue + segments, enqueued := s0.enqueued + segments);
      var wasPending := pendingSend;
      pendingSend := true;
      if !wasPending {
        RegisterSend(start);
      }
      assert State() == Gate(s0, segments, start);
    }

    /** Appends every segment to the queue, in order. */
    method Enqueue(segments: seq<Segment>)
      modifies this`sendQueue, this`enqueued
      ensures sendQueue == old(sendQueue) + segments && enqueued == old(enqueued) + segments
    {
      var i := 0;
      while i < |segments|
        invariant 0 <= i <= |segments|
        invariant sendQueue == old(sendQueue) + segments[..i] && enqueued == old(enqueued) + segments[..i]
      {
        assert segments[..i + 1] == segments[..i] + [segments[i]];
        sendQueue := sendQueue + [segments[i]];
        enqueued := enqueued + [segments[i]];
        i := i + 1;
      }
      assert segments[..i] == segments;
    }

    /** `Send` of one segment: the same gate without the empty check. */
    method SendOne(segment: Segment, start: SendStart)
      requires Valid()
      modifies this
      ensures State() == SendSpec(old(State()), [segment], start) && Valid()
    {
      SendKeepsInv(State(), [segment], start);
      sendQueue := sendQueue + [segment];
      enqueued := enqueued + [segment];
      var wasPending := pendingSend;
      pendingSend := true;
      if !wasPending {
        RegisterSend(start);
      }
    }

    method RegisterSend(start: SendStart)
      requires Arming(State())
      modifies this
      ensures State() == RegisterSendSpec(old(State()), start) && Valid()
      decreases |sendQueue|, 1
    {
      RegisterSendKeepsInv(State(), start);
      if disconnected {
        pendingSend := false;
        return;
      }
      var batch := TakeAll();
      if batch == [] {
        pendingSend := false;
        return;
      }
      assert batch == old(sendQueue) && sendQueue == [];
      bufferList := batch;
      FlattenSnoc(transmitted, batch);
      match start {
        case SendPending =>
          transmitted := transmitted + [batch];
        case SendCompletesAtOnce(c, onSendThrows) =>
          transmitted := transmitted + [batch];
          OnSendCompleted(c, onSendThrows, SendPending);
        case SendThrows =>
          pendingSend := false;
          Disconnect();
      }
    }

    /** Moves the whole queue, in order, into one batch. */
    method TakeAll() returns (batch: seq<Segment>)
      modifies this`sendQueue
      ensures batch == old(sendQueue) && sendQueue == []
    {
      batch := [];
      while sendQueue != []
        invariant batch + sendQueue == old(sendQueue)
        decreases |sendQueue|
      {
        batch := batch + [sendQueue[0]];
        sendQueue := sendQueue[1..];
      }
    }

    method OnSendCompleted(c: Completion, onSendThrows: bool, next: SendStart)
      requires Valid()
      modifies this
      ensures State() == SendCompletedSpec(old(State()), c, onSendThrows, next) && Valid()
      decreases |sendQueue|, 2
    {
      SendCompletedKeepsInv(State(), c, onSendThrows, next);
      if Succeeded(c) {
        bufferList := [];
        if onSendThrows {
          pendingSend := false;
          Disconnect();
        } else if sendQueue == [] {
          pendingSend := false;
        } else {
          RegisterSend(next);
        }
      } else {
        pendingSend := false;
        Disconnect();
      }
    }

    method RegisterRecv(steps: seq<RecvStart>)
      requires Valid()
      modifies this
      ensures State() == RegisterRecvSpec(old(State()), steps) && Valid()
      decreases |steps|, 0
    {
      RegisterRecvKeepsInv(State(), steps);
      if disconnected {
        return;
      }
      recvPosts := recvPosts + 1;
      if steps == [] {
        return;
      }
      match steps[0] {
        case RecvPending =>
        case RecvThrows =>
          Disconnect();
        case RecvCompletesAtOnce(r) =>
          OnRecvCompleted(r, steps[1..]);
      }
    }

    method OnRecvCompleted(r: Received, next: seq<RecvStart>)
      requires Valid()
      modifies this
      ensures State() == RecvCompletedSpec(old(State()), r, next) && Valid()
      decreases |next|, 1
    {
      RecvCompletedKeepsInv(State(), r, next);
      if !Succeeded(r.c) || !r.writeOk {
        Disconnect();
        return;
      }
      match r.processLen {
        case None =>
          Disconnect();
        case Some(n) =>
          if n < 0 || r.dataSize < n {
            Disconnect();
          } else if !r.readOk {
            Disconnect();
          } else {
            consumed := consumed + [n];
            RegisterRecv(next);
          }
      }
    }
  }
}
