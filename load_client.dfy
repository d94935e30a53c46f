/**
 * The load-test client's session (Server/DummyClient/ServerSession.cs). It frames
 * incoming bytes by the same rules as the server and only logs what it receives: it
 * never sends and never changes any other state. The logger is modelled as the
 * session's `log`, one `LogLine` per message the source writes in a debug build
 * (`LogDebug` lines included).
 */
module LoadClient {
  import opened Numerics
  import opened Optional
  import opened Contracts
  import opened Messages
  import opened Framing
  import GameServer

  datatype LogLine =
    | Connected
    | Disconnected
    | Received(frame: seq<byte>)                // `[CLIENT RECV]`: its size, length and hex dump
    | InvalidLength(msgLen: int, remaining: nat) // `[CLIENT] Invalid msgLen=…`
    | MoveLog(playerId: int32, pos: Vector3)
    | EnterLog(playerId: int32, pos: Vector3)
    | LeaveLog(playerId: int32)
    | EntryLog(playerId: int32, isSelf: bool, pos: Vector3)
    | MoveResLog(playerId: int32, pos: Vector3)
    | Unhandled(msg: Message)

  /** One line per player-list entry that is present and has a position, in list order. */
  function EntryLines(es: seq<Option<Entry>>): (ls: seq<LogLine>)
    ensures |ls| <= |es|
    ensures forall l :: l in ls ==> l.EntryLog?
  {
    if es == [] then []
    else
      var e := es[|es| - 1];
      EntryLines(es[..|es| - 1]) +
        (if e.Some? && e.value.pos.Some? then [EntryLog(e.value.playerId, e.value.isSelf, e.value.pos.value)] else [])
  }

  /**
   * What `HandlePacket` logs for one parsed frame: nothing for a frame that does not
   * parse or a packet whose table or position is absent, a warning for a kind the
   * client does not handle.
   */
  function Describe(msg: Option<Message>): (ls: seq<LogLine>)
    ensures msg.None? ==> ls == []
    ensures msg.Some? && (msg.value.CMove? || msg.value.CLeaveGame? || msg.value.MoveReq? || msg.value.OtherKind?) ==>
      ls == [Unhandled(msg.value)]
    ensures forall l :: l in ls ==> !l.Connected? && !l.Disconnected? && !l.Received? && !l.InvalidLength?
  {
    match msg
    case None => []
    case Some(m) =>
      match m
      case SBroadcastMove(id, pos) => if pos.Some? then [MoveLog(id, pos.value)] else []
      case SBroadcastEnterGame(id, pos) => if pos.Some? then [EnterLog(id, pos.value)] else []
      case SBroadcastLeaveGame(leaver) => if leaver.Some? then [LeaveLog(leaver.value)] else []
      case SPlayerList(players) => if players.Some? then EntryLines(players.value) else []
      case MoveRes(id, pos) => if pos.Some? then [MoveResLog(id, pos.value)] else []
      case _ => [Unhandled(m)]
  }

  /** What the client logs for a run of frames, in order: each frame's receive line, then its packet's lines. */
  function DescribeAll(fs: seq<seq<byte>>, parse: Parser): (ls: seq<LogLine>)
    ensures forall l :: l in ls ==> !l.Connected? && !l.Disconnected? && !l.InvalidLength?
  {
    if fs == [] then []
    else
      var f := fs[|fs| - 1];
      DescribeAll(fs[..|fs| - 1], parse) + [Received(f)] + Describe(parse(f))
  }

  /** The frames that the receive lines of `ls` report, in log order. */
  function Receipts(ls: seq<LogLine>): seq<seq<byte>>
  {
    if ls == [] then []
    else Receipts(ls[..|ls| - 1]) + (if ls[|ls| - 1].Received? then [ls[|ls| - 1].frame] else [])
  }

  lemma {:induction false} ReceiptsAppend(a: seq<LogLine>, b: seq<LogLine>)
    ensures Receipts(a + b) == Receipts(a) + Receipts(b)
    decreases |b|
  {
    if b == [] {
      assert a + b == a;
    } else {
      ReceiptsAppend(a, b[..|b| - 1]);
      assert (a + b)[..|a + b| - 1] == a + b[..|b| - 1];
    }
  }

  lemma {:induction false} NoReceipts(ls: seq<LogLine>)
    requires forall l :: l in ls ==> !l.Received?
    ensures Receipts(ls) == []
    decreases |ls|
  {
    if ls != [] {
      assert ls[|ls| - 1] in ls;
      NoReceipts(ls[..|ls| - 1]);
    }
  }

  /** The receive lines of a run of frames report exactly those frames, each once, in order. */
  lemma {:induction false} ReceivedInOrder(fs: seq<seq<byte>>, parse: Parser)
    ensures Receipts(DescribeAll(fs, parse)) == fs
    decreases |fs|
  {
    if fs != [] {
      var init := fs[..|fs| - 1];
      var f := fs[|fs| - 1];
      ReceivedInOrder(init, parse);
      var x := DescribeAll(init, parse) + [Received(f)];
      assert x[..|x| - 1] == DescribeAll(init, parse);
      assert Receipts(x) == fs[..|fs| - 1] + [f];
      NoReceipts(Describe(parse(f)));
      ReceiptsAppend(x, Describe(parse(f)));
      assert fs == fs[..|fs| - 1] + [f];
    }
  }

  /**
   * The error line written when the loop meets an invalid length: the length read and
   * the bytes left at that point. Nothing when the loop stops for any other reason.
   */
  function FaultLines(buffer: seq<byte>): (ls: seq<LogLine>)
    ensures ls != [] <==> ScanFrom(buffer, 0).fault
    ensures forall l :: l in ls ==> l.InvalidLength? && !ValidLength(l.msgLen) && l.remaining >= PrefixSize
  {
    var s := ScanFrom(buffer, 0);
    ScanStopReason(buffer, 0);
    if s.fault then [InvalidLength(LengthAt(buffer, s.stop), |buffer| - s.stop)] else []
  }

  /**
   * A player list as the server builds it is logged in full: one line per member, in
   * membership order, with the member's id, self mark and position.
   */
  lemma {:induction false} ServerListFullyLogged(members: seq<GameServer.ClientSession>, joiner: GameServer.ClientSession)
    ensures var ls := EntryLines(GameServer.PlayerList(members, joiner));
      |ls| == |members| &&
      forall i :: 0 <= i < |members| ==>
        ls[i] == EntryLog(members[i].sessionId, members[i] == joiner, members[i].pos)
    decreases |members|
  {
    if members != [] {
      var init := members[..|members| - 1];
      ServerListFullyLogged(init, joiner);
      var es := GameServer.PlayerList(members, joiner);
      assert es[..|es| - 1] == GameServer.PlayerList(init, joiner);
      GameServer.PlayerListAt(members, joiner, |members| - 1);
      forall i | 0 <= i < |init|
        ensures init[i] == members[i]
      {
      }
    }
  }

  class ServerSession {
    var log: seq<LogLine>
    var disconnectRequested: bool

    constructor ()
      ensures log == [] && !disconnectRequested
    {
      log := [];
      disconnectRequested := false;
    }

    method OnConnected()
      modifies this`log
      ensures log == old(log) + [Connected]
    {
      log := log + [Connected];
    }

    method OnDisconnected()
      modifies this`log
      ensures log == old(log) + [Disconnected]
    {
      log := log + [Disconnected];
    }

    /** `OnRecv`: the server's framing rules; each handled frame is only logged. */
    method OnRecv(buffer: seq<byte>, parse: Parser) returns (processed: nat)
      modifies this`log, this`disconnectRequested
      ensures var s := ScanFrom(buffer, 0);
        && processed == s.stop && processed <= |buffer|
        && log == old(log) + DescribeAll(s.frames, parse) + FaultLines(buffer)
        && disconnectRequested == (old(disconnectRequested) || s.fault)
    {
      var frames, stop, fault := ReceiveFrames(buffer);
      HandleAll(frames, parse);
      if fault {
        ScanStopReason(buffer, 0);
        log := log + [InvalidLength(LengthAt(buffer, stop), |buffer| - stop)];
        disconnectRequested := true;
      }
      processed := stop;
    }

    /** Each frame's receive line, then `HandlePacket` on it, in order. */
    method HandleAll(frames: seq<seq<byte>>, parse: Parser)
      modifies this`log
      ensures log == old(log) + DescribeAll(frames, parse)
    {
      var i := 0;
      while i < |frames|
        invariant 0 <= i <= |frames|
        invariant log == old(log) + DescribeAll(frames[..i], parse)
      {
        assert frames[..i + 1][..i] == frames[..i];
        log := log + [Received(frames[i])];
        HandlePacket(frames[i], parse);
        i := i + 1;
      }
      assert frames[..i] == frames;
    }

    /** `HandlePacket`: logs the packet and changes nothing else. */
    method HandlePacket(frame: seq<byte>, parse: Parser)
      modifies this`log
      ensures log == old(log) + Describe(parse(frame))
    {
      var msg := parse(frame);
      match msg {
        case None =>
        case Some(m) =>
          match m {
            case SBroadcastMove(id, pos) =>
              if pos.Some? { log := log + [MoveLog(id, pos.value)]; }
            case SBroadcastEnterGame(id, pos) =>
              if pos.Some? { log := log + [EnterLog(id, pos.value)]; }
            case SBroadcastLeaveGame(leaver) =>
              if leaver.Some? { log := log + [LeaveLog(leaver.value)]; }
            case SPlayerList(players) =>
              if players.Some? {
                LogEntries(players.value);
              }
            case MoveRes(id, pos) =>
              if pos.Some? { log := log + [MoveResLog(id, pos.value)]; }
            case _ =>
              log := log + [Unhandled(m)];
          }
      }
    }

    /** The loop over a player list's entries. */
    method LogEntries(es: seq<Option<Entry>>)
      modifies this`log
      ensures log == old(log) + EntryLines(es)
    {
      var i := 0;
      while i < |es|
        invariant 0 <= i <= |es|
        invariant log == old(log) + EntryLines(es[..i])
      {
        assert es[..i + 1][..i] == es[..i];
        var e := es[i];
        if e.Some? && e.value.pos.Some? {
          log := log + [EntryLog(e.value.playerId, e.value.isSelf, e.value.pos.value)];
        }
        i := i + 1;
      }
      assert es[..i] == es;
    }
  }
}
