/**
 * The room server (Server/Server): a client session that frames, parses and routes
 * packets, the game room that keeps members and a pending broadcast list, and the
 * session manager of Server1/Server that hands out session ids.
 *
 * A packet the server builds is the `Message` value itself; `Send` of the session
 * base class appends it to the session's `sent` list (that base class is not part of
 * this model), and `Disconnect` only raises a request flag. Work pushed onto a room is
 * a `RoomJob` value standing for the closure the source pushes.
 */
module GameServer {
  import opened Numerics
  import opened Optional
  import opened Seqs
  import opened Contracts
  import opened Messages
  import opened Framing
  import opened JobQueues

  /**
   * The closures the session pushes onto a room. `LeaveRoom` captured its room when it
   * was pushed; `MoveCurrent` and `LeaveCurrent` read the session's room when they run.
   */
  datatype RoomJob =
    | EnterRoom(session: ClientSession)
    | LeaveRoom(room: GameRoom, session: ClientSession)
    | LeaveCurrent(session: ClientSession)
    | MoveCurrent(session: ClientSession, pos: Vector3)

  /** What `HandlePacket` does with one parsed frame. */
  datatype Reaction = Ignore | ToRoom(job: RoomJob) | Reply(msg: Message)

  /**
   * `HandlePacket`'s dispatch: a move with a position goes to the room, a leave goes to
   * the room, a move request with a position is answered at once with a move response
   * carrying the same id and position; anything else, or a frame that does not parse,
   * is ignored.
   */
  function React(self: ClientSession, msg: Option<Message>): (r: Reaction)
    ensures r.Reply? <==> msg.Some? && msg.value.MoveReq? && msg.value.pos.Some?
    ensures r.Reply? ==> r.msg == MoveRes(msg.value.playerId, msg.value.pos)
    ensures r.ToRoom? <==> msg.Some? && (msg.value.CLeaveGame? || (msg.value.CMove? && msg.value.pos.Some?))
    ensures r.ToRoom? ==> r.job.session == self && (r.job.MoveCurrent? ==> msg.value.CMove? && Some(r.job.pos) == msg.value.pos)
    ensures msg.Some? && msg.value.CMove? && msg.value.pos.Some? ==> r == ToRoom(MoveCurrent(self, msg.value.pos.value))
    ensures msg.Some? && msg.value.CLeaveGame? ==> r == ToRoom(LeaveCurrent(self))
  {
    match msg
    case None => Ignore
    case Some(m) =>
      match m
      case CMove(pos) => if pos.Some? then ToRoom(MoveCurrent(self, pos.value)) else Ignore
      case CLeaveGame => ToRoom(LeaveCurrent(self))
      case MoveReq(id, pos) => if pos.Some? then Reply(MoveRes(id, pos)) else Ignore
      case _ => Ignore
  }

  /** The jobs the frames `fs` push onto the session's room, in frame order. */
  function Jobs(self: ClientSession, fs: seq<seq<byte>>, parse: Parser): (js: seq<RoomJob>)
    ensures |js| <= |fs|
    ensures forall j :: j in js ==> j.session == self
  {
    if fs == [] then []
    else
      var r := React(self, parse(fs[|fs| - 1]));
      Jobs(self, fs[..|fs| - 1], parse) + (if r.ToRoom? then [r.job] else [])
  }

  /** The replies the frames `fs` send back at once, in frame order. */
  function Replies(self: ClientSession, fs: seq<seq<byte>>, parse: Parser): (ms: seq<Message>)
    ensures |ms| <= |fs|
    ensures forall m :: m in ms ==> m.MoveRes?
  {
    if fs == [] then []
    else
      var r := React(self, parse(fs[|fs| - 1]));
      Replies(self, fs[..|fs| - 1], parse) + (if r.Reply? then [r.msg] else [])
  }

  /** Each frame causes at most one effect: a job for the room or a reply, never both. */
  lemma {:induction false} OneEffectPerFrame(self: ClientSession, fs: seq<seq<byte>>, parse: Parser)
    ensures |Jobs(self, fs, parse)| + |Replies(self, fs, parse)| <= |fs|
  {
    if fs != [] {
      OneEffectPerFrame(self, fs[..|fs| - 1], parse);
    }
  }

  class ClientSession {
    var sessionId: int32
    var room: GameRoom?
    var pos: Vector3
    /** The packets handed to the base class's `Send`, in order. */
    var sent: seq<Message>
    /** Whether the session asked the base class to disconnect. */
    var disconnectRequested: bool

    constructor (id: int32)
      ensures sessionId == id && room == null && sent == [] && !disconnectRequested
    {
      sessionId := id;
      room := null;
      pos := Vector3(0.0, 0.0, 0.0);
      sent := [];
      disconnectRequested := false;
    }

    method Send(msg: Message)
      modifies this`sent
      ensures sent == old(sent) + [msg]
    {
      sent := sent + [msg];
    }

    /** `OnConnected`: asks the lobby room to let this session enter. */
    method OnConnected(lobby: GameRoom)
      modifies lobby.mailbox
      ensures lobby.mailbox.disposed == old(lobby.mailbox.disposed)
      ensures lobby.mailbox.pending ==
        if old(lobby.mailbox.disposed) then old(lobby.mailbox.pending) else old(lobby.mailbox.pending) + [EnterRoom(this)]
    {
      lobby.Push(EnterRoom(this));
    }

    method HandlePacket(frame: seq<byte>, parse: Parser)
      modifies this`sent, if room == null then {} else {room.mailbox}
      ensures var r := React(this, parse(frame));
        && sent == old(sent) + (if r.Reply? then [r.msg] else [])
        && (room != null ==> room.mailbox.disposed == old(room.mailbox.disposed))
        && (room != null && !old(room.mailbox.disposed) ==>
              room.mailbox.pending == old(room.mailbox.pending) + (if r.ToRoom? then [r.job] else []))
        && (room != null && old(room.mailbox.disposed) ==> room.mailbox.pending == old(room.mailbox.pending))
    {
      var r := React(this, parse(frame));
      match r {
        case Ignore =>
        case ToRoom(job) =>
          if room != null {
            room.Push(job);
          }
        case Reply(msg) =>
          Send(msg);
      }
    }

    /**
     * `OnRecv`: the frames of the buffer are handled in order, a bad length requests a
     * disconnect, and the bytes of the handled frames are reported as processed.
     */
    method OnRecv(buffer: seq<byte>, parse: Parser) returns (processed: nat)
      modifies this`sent, this`disconnectRequested, if room == null then {} else {room.mailbox}
      ensures var s := ScanFrom(buffer, 0);
        && processed == s.stop && processed <= |buffer|
        && sent == old(sent) + Replies(this, s.frames, parse)
        && disconnectRequested == (old(disconnectRequested) || s.fault)
        && (room != null && !old(room.mailbox.disposed) ==>
              room.mailbox.pending == old(room.mailbox.pending) + Jobs(this, s.frames, parse))
        && (room != null && old(room.mailbox.disposed) ==> room.mailbox.pending == old(room.mailbox.pending))
    {
      var frames, stop, fault := ReceiveFrames(buffer);
      HandleAll(frames, parse);
      if fault {
        disconnectRequested := true;
      }
      processed := stop;
    }

    /** `HandlePacket` on each frame, in order. */
    method HandleAll(frames: seq<seq<byte>>, parse: Parser)
      modifies this`sent, if room == null then {} else {room.mailbox}
      ensures sent == old(sent) + Replies(this, frames, parse)
      ensures room != null ==> room.mailbox.disposed == old(room.mailbox.disposed)
      ensures room != null && !old(room.mailbox.disposed) ==>
        room.mailbox.pending == old(room.mailbox.pending) + Jobs(this, frames, parse)
      ensures room != null && old(room.mailbox.disposed) ==> room.mailbox.pending == old(room.mailbox.pending)
    {
      var i := 0;
      while i < |frames|
        invariant 0 <= i <= |frames|
        invariant sent == old(sent) + Replies(this, frames[..i], parse)
        invariant room != null ==> room.mailbox.disposed == old(room.mailbox.disposed)
        invariant room != null && !old(room.mailbox.disposed) ==>
          room.mailbox.pending == old(room.mailbox.pending) + Jobs(this, frames[..i], parse)
        invariant room != null && old(room.mailbox.disposed) ==> room.mailbox.pending == old(room.mailbox.pending)
      {
        assert frames[..i + 1][..i] == frames[..i];
        HandlePacket(frames[i], parse);
        i := i + 1;
      }
      assert frames[..i] == frames;
    }

    /**
     * `OnDisconnected`: the session leaves the manager; if it was in a room, a leave of
     * that room is queued there and the session forgets its room.
     */
    method OnDisconnected(manager: SessionManager)
      requires manager.Valid()
      modifies this`room, manager, if room == null then {} else {room.mailbox}
      ensures room == null
      ensures manager.Valid() && manager.counter == old(manager.counter) && manager.issued == old(manager.issued)
      ensures manager.sessions == old(manager.sessions) - {sessionId}
      ensures old(room) != null ==> old(room).mailbox.disposed == old(room.mailbox.disposed)
      ensures old(room) != null && !old(room.mailbox.disposed) ==>
        old(room).mailbox.pending == old(room.mailbox.pending) + [LeaveRoom(old(room), this)]
      ensures old(room) != null && old(room.mailbox.disposed) ==>
        old(room).mailbox.pending == old(room.mailbox.pending)
    {
      manager.Remove(this);
      if room != null {
        var r := room;
        r.Push(LeaveRoom(r, this));
        room := null;
      }
    }
  }

  /**
   * The player list the joiner receives: one entry per member, in membership order,
   * marked as self exactly for the joiner.
   */
  function PlayerList(members: seq<ClientSession>, joiner: ClientSession): (es: seq<Option<Entry>>)
    reads (set s | s in members)`sessionId, (set s | s in members)`pos
    ensures |es| == |members|
    decreases |members|
  {
    if members == [] then []
    else
      var s := members[|members| - 1];
      PlayerList(members[..|members| - 1], joiner) + [Some(Entry(s == joiner, s.sessionId, Some(s.pos)))]
  }

  lemma {:induction false} PlayerListAt(members: seq<ClientSession>, joiner: ClientSession, i: nat)
    requires i < |members|
    ensures PlayerList(members, joiner)[i] ==
      Some(Entry(members[i] == joiner, members[i].sessionId, Some(members[i].pos)))
    ensures PlayerList(members, joiner)[i].value.isSelf <==> members[i] == joiner
  {
    if i < |members| - 1 {
      PlayerListAt(members[..|members| - 1], joiner, i);
    }
  }

  class GameRoom {
    var sessions: seq<ClientSession>
    /** The broadcasts waiting for the next `Flush`, oldest first. */
    var pending: seq<Message>
    const mailbox: JobQueue<RoomJob>

    constructor ()
      ensures sessions == [] && pending == [] && fresh(mailbox)
      ensures mailbox.pending == [] && !mailbox.disposed
    {
      sessions := [];
      pending := [];
      mailbox := new JobQueue<RoomJob>();
    }

    method Push(job: RoomJob)
      modifies mailbox
      ensures mailbox.disposed == old(mailbox.disposed)
      ensures mailbox.pending == if old(mailbox.disposed) then old(mailbox.pending) else old(mailbox.pending) + [job]
    {
      mailbox.Push(Some(job));
    }

    /** `Broadcast`: the packet is only queued; membership is untouched. */
    method Broadcast(msg: Message)
      modifies this`pending
      ensures pending == old(pending) + [msg]
    {
      pending := pending + [msg];
    }

    /**
     * `Flush`: with nothing pending nothing is sent; otherwise every member, in
     * membership order and once per occurrence, is sent the whole pending list, which
     * is then cleared.
     */
    method Flush()
      modifies this`pending, (set s | s in sessions)`sent
      ensures old(pending) == [] ==>
        forall s :: s in old(sessions) ==> s.sent == old(s.sent)
      ensures pending == [] && sessions == old(sessions)
      ensures old(pending) != [] ==>
        forall s :: s in sessions ==> s.sent == old(s.sent) + Repeat(old(pending), Count(sessions, s))
    {
      if pending == [] {
        return;
      }
      var i := 0;
      while i < |sessions|
        invariant 0 <= i <= |sessions|
        invariant pending == old(pending)
        invariant forall s :: s in sessions ==> s.sent == old(s.sent) + Repeat(pending, Count(sessions[..i], s))
      {
        var s := sessions[i];
        assert sessions[..i + 1] == sessions[..i] + [s];
        FlushStep(sessions[..i], s, pending);
        s.sent := s.sent + pending;
        i := i + 1;
      }
      assert sessions[..i] == sessions;
      pending := [];
    }

    /**
     * `Enter`: the session joins (no duplicate check) and points at this room, gets
     * the list of all members including itself, and one "entered" packet with its
     * id and current position is queued for everyone.
     */
    method Enter(session: ClientSession)
      modifies this`sessions, this`pending, session`room, session`sent
      ensures sessions == old(sessions) + [session] && session.room == this
      ensures session.sent == old(session.sent) + [SPlayerList(Some(PlayerList(sessions, session)))]
      ensures pending == old(pending) + [SBroadcastEnterGame(session.sessionId, Some(session.pos))]
    {
      sessions := sessions + [session];
      session.room := this;
      var entries: seq<Option<Entry>> := [];
      var i := 0;
      while i < |sessions|
        invariant 0 <= i <= |sessions|
        invariant entries == PlayerList(sessions[..i], session)
      {
        assert sessions[..i + 1][..i] == sessions[..i];
        entries := entries + [Some(Entry(sessions[i] == session, sessions[i].sessionId, Some(sessions[i].pos)))];
        i := i + 1;
      }
      assert sessions[..i] == sessions;
      session.Send(SPlayerList(Some(entries)));
      Broadcast(SBroadcastEnterGame(session.sessionId, Some(session.pos)));
    }

    /** `Leave`: the first occurrence of the session goes; a "left" packet is queued regardless. */
    method Leave(session: ClientSession)
      modifies this`sessions, this`pending
      ensures sessions == RemoveFirst(old(sessions), session)
      ensures pending == old(pending) + [SBroadcastLeaveGame(Some(session.sessionId))]
    {
      sessions := RemoveFirst(sessions, session);
      Broadcast(SBroadcastLeaveGame(Some(session.sessionId)));
    }

    /** `Move`: the session takes the new position and one "moved" packet is queued. */
    method Move(session: ClientSession, p: Vector3)
      modifies this`pending, session`pos
      ensures session.pos == p
      ensures pending == old(pending) + [SBroadcastMove(session.sessionId, Some(p))]
    {
      session.pos := p;
      Broadcast(SBroadcastMove(session.sessionId, Some(session.pos)));
    }

    /**
     * Runs one job taken from this room's mailbox. A job that reads the session's room
     * finds it null, throws, and the worker swallows it: nothing changes.
     */
    method Run(job: RoomJob)
      modifies this`sessions, this`pending, job.session`room, job.session`sent, job.session`pos
      modifies if job.LeaveRoom? then {job.room} else {}
      modifies if job.session.room == null then {} else {job.session.room}
      ensures job.EnterRoom? ==> sessions == old(sessions) + [job.session] && job.session.room == this
      ensures job.EnterRoom? ==>
        && job.session.sent == old(job.session.sent) + [SPlayerList(Some(PlayerList(sessions, job.session)))]
        && pending == old(pending) + [SBroadcastEnterGame(job.session.sessionId, Some(job.session.pos))]
      ensures job.LeaveRoom? ==>
        && job.room.sessions == RemoveFirst(old(job.room.sessions), job.session)
        && job.room.pending == old(job.room.pending) + [SBroadcastLeaveGame(Some(job.session.sessionId))]
      ensures (job.LeaveCurrent? || job.MoveCurrent?) && old(job.session.room) == null ==>
        sessions == old(sessions) && pending == old(pending) && job.session.sent == old(job.session.sent)
      ensures job.LeaveCurrent? && old(job.session.room) != null ==>
        && old(job.session.room).sessions == RemoveFirst(old(job.session.room.sessions), job.session)
        && old(job.session.room).pending == old(job.session.room.pending) + [SBroadcastLeaveGame(Some(job.session.sessionId))]
      ensures job.MoveCurrent? && old(job.session.room) != null ==>
        && job.session.pos == job.pos
        && old(job.session.room).pending == old(job.session.room.pending) + [SBroadcastMove(job.session.sessionId, Some(job.pos))]
        && old(job.session.room).sessions == old(job.session.room.sessions)
      // What a job does not name stays: only a move sets the position, only an enter
      // sends or sets the room, and a room the job does not act on is untouched.
      ensures !job.MoveCurrent? ==> job.session.pos == old(job.session.pos)
      ensures !job.EnterRoom? ==> job.session.sent == old(job.session.sent) && job.session.room == old(job.session.room)
      ensures (job.LeaveRoom? && job.room != this) || ((job.LeaveCurrent? || job.MoveCurrent?) && old(job.session.room) != this) ==>
        sessions == old(sessions) && pending == old(pending)
      ensures old(job.session.room) != null && old(job.session.room) != this &&
              (job.EnterRoom? || (job.LeaveRoom? && job.room != old(job.session.room))) ==>
        && old(job.session.room).sessions == old(job.session.room.sessions)
        && old(job.session.room).pending == old(job.session.room.pending)
    {
      match job {
        case EnterRoom(s) =>
          Enter(s);
        case LeaveRoom(r, s) =>
          r.Leave(s);
        case LeaveCurrent(s) =>
          if s.room != null {
            s.room.Leave(s);
          }
        case MoveCurrent(s, p) =>
          if s.room != null {
            s.room.Move(s, p);
          }
      }
    }
  }

  /** One member more in the flush: its count goes up by one, the others' stay. */
  lemma FlushStep(done: seq<ClientSession>, s: ClientSession, ms: seq<Message>)
    ensures Repeat(ms, Count(done + [s], s)) == Repeat(ms, Count(done, s)) + ms
    ensures forall t :: t != s ==> Count(done + [s], t) == Count(done, t)
  {
    assert (done + [s])[..|done|] == done;
  }

  /** Whether the action throws on the session stored under an id. */
  function FailsIn(m: map<int32, ClientSession>, throws: ClientSession -> bool): int32 -> bool
  {
    k => k in m && throws(m[k])
  }

  /**
   * The session registry of Server1/Server: a counter that hands out ids 1, 2, 3, …
   * (wrapping as a 32-bit integer) and the map of live sessions by id. `issued` counts
   * the ids handed out so far.
   */
  class SessionManager {
    var counter: int32
    var sessions: map<int32, ClientSession>
    ghost var issued: nat

    /** Until the counter wraps, it equals the ids issued and every stored id is one of them. */
    ghost predicate Valid()
      reads this
    {
      issued < TWO_31 ==> counter == issued && forall k :: k in sessions ==> 1 <= k <= issued
    }

    constructor ()
      ensures Valid() && sessions == map[] && counter == 0 && issued == 0
    {
      counter := 0;
      sessions := map[];
      issued := 0;
    }

    /**
     * `Generate`: takes the next id and stores a new session under it; if the id is
     * already taken the new session is not stored and null is returned. Before the
     * counter wraps the id is always new.
     */
    method Generate() returns (session: ClientSession?)
      requires Valid()
      modifies this
      ensures Valid() && issued == old(issued) + 1
      ensures counter == Wrap32(old(counter) + 1)
      ensures session != null ==>
        fresh(session) && session.sessionId == counter && sessions == old(sessions)[counter := session]
      ensures session == null <==> counter in old(sessions)
      ensures session == null ==> sessions == old(sessions)
      ensures issued < TWO_31 ==> session != null && session.sessionId == issued
    {
      counter := Wrap32(counter + 1);
      issued := issued + 1;
      var s := new ClientSession(counter);
      if counter in sessions {
        return null;
      }
      sessions := sessions[counter := s];
      return s;
    }

    /** `Find`: the session stored under the id, or null. */
    function Find(id: int32): (s: ClientSession?)
      reads this
      ensures s != null <==> id in sessions
      ensures s != null ==> s == sessions[id]
    {
      if id in sessions then sessions[id] else null
    }

    /** `Remove`: deletes the entry keyed by the session's id; an absent key changes nothing. */
    method Remove(session: ClientSession)
      modifies this
      ensures sessions == old(sessions) - {session.sessionId}
      ensures counter == old(counter) && issued == old(issued)
      ensures session.sessionId !in old(sessions) ==> sessions == old(sessions)
    {
      if session.sessionId in sessions {
        sessions := sessions - {session.sessionId};
      }
    }

    function ActiveSessionCount(): (n: nat)
      reads this
      ensures n == |sessions.Keys|
    {
      |sessions|
    }

    /**
     * `ForEachSession`: the action is applied once to every stored session, in the
     * dictionary's order; an action that throws is logged and the rest still run.
     */
    method ForEachSession(throws: ClientSession -> bool) returns (order: seq<int32>, failed: nat)
      ensures |order| == |sessions|
      ensures forall k :: k in sessions <==> k in order
      ensures forall i, j :: 0 <= i < j < |order| ==> order[i] != order[j]
      ensures failed == Failures(order, FailsIn(sessions, throws))
    {
      order, failed := [], 0;
      var left := sessions.Keys;
      ghost var fails := FailsIn(sessions, throws);
      while left != {}
        invariant left <= sessions.Keys
        invariant |order| + |left| == |sessions.Keys|
        invariant forall k :: k in sessions ==> (k in order <==> k !in left)
        invariant forall k :: k in order ==> k in sessions
        invariant forall i, j :: 0 <= i < j < |order| ==> order[i] != order[j]
        invariant failed == Failures(order, fails)
        decreases |left|
      {
        var k :| k in left;
        assert (order + [k])[..|order|] == order;
        order := order + [k];
        if throws(sessions[k]) {
          failed := failed + 1;
        }
        left := left - {k};
      }
    }
  }
}
