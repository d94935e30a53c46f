/**
 * The legacy packet loop `PacketSession.OnRecv` (Server1/ServerCore/Session.cs):
 * every packet starts with an unsigned 16-bit little-endian size that counts the
 * 2-byte header itself; complete packets are handed out in order and the buffer is
 * re-sliced past each one. A header announcing size 0 neither ends nor advances the
 * loop, so the loop as written is modelled only on buffers where it halts; the
 * corrected loop treats a size below the header size as a protocol fault.
 */
module PacketFraming {
  import opened Numerics
  import opened Seqs

  const HeaderSize: int := 2

  /**
   * One turn of the loop on the remaining bytes: the packet it hands out and the size
   * it advances by, or `None` when it breaks (header or packet incomplete).
   */
  function Step(rest: seq<byte>): (r: Option2)
    ensures r.Next? ==> r.size <= |rest| && r.packet == rest[..r.size]
  {
    if |rest| < HeaderSize then Stop
    else
      var n := UInt16At(rest, 0);
      if |rest| < n then Stop else Next(rest[..n], n)
  }

  datatype Option2 = Stop | Next(packet: seq<byte>, size: nat)

  /** The loop as written ends on `rest`: no turn it takes reads a size of 0. */
  ghost predicate Halts(rest: seq<byte>)
    decreases |rest|
  {
    match Step(rest)
    case Stop => true
    case Next(_, n) => n > 0 && Halts(rest[n..])
  }

  /** The loop as written: the packets handed out, in order, and the bytes processed. */
  function AsWritten(rest: seq<byte>): (r: (seq<seq<byte>>, nat))
    requires Halts(rest)
    ensures r.1 <= |rest|
    decreases |rest|
  {
    match Step(rest)
    case Stop => ([], 0)
    case Next(p, n) =>
      var more := AsWritten(rest[n..]);
      ([p] + more.0, n + more.1)
  }

  /** `PacketSession.OnRecv` as written, on a buffer on which it halts. */
  method OnRecvAsWritten(buffer: seq<byte>) returns (packets: seq<seq<byte>>, processLen: nat)
    requires Halts(buffer)
    ensures (packets, processLen) == AsWritten(buffer)
  {
    packets, processLen := [], 0;
    var rest := buffer;
    assert [] + AsWritten(rest).0 == AsWritten(rest).0;
    while true
      invariant Halts(rest)
      invariant AsWritten(buffer) == (packets + AsWritten(rest).0, processLen + AsWritten(rest).1)
      decreases |rest|
    {
      if |rest| < HeaderSize {
        break;
      }
      var dataSize := UInt16At(rest, 0);
      if |rest| < dataSize {
        break;
      }
      var more := AsWritten(rest[dataSize..]);
      assert AsWritten(rest) == ([rest[..dataSize]] + more.0, dataSize + more.1);
      assert (packets + [rest[..dataSize]]) + more.0 == packets + ([rest[..dataSize]] + more.0);
      packets := packets + [rest[..dataSize]];
      processLen := processLen + dataSize;
      rest := rest[dataSize..];
    }
    assert AsWritten(rest) == ([], 0);
    assert packets + [] == packets;
  }

  /**
   * A header announcing size 0 hands out an empty packet and leaves the loop exactly
   * where it was, so the loop as written never ends on such a buffer.
   */
  lemma ZeroSizeHeaderStalls(rest: seq<byte>)
    ensures Step([0, 0] + rest) == Next([], 0)
    ensures !Halts([0, 0] + rest)
  {
    var buf := [0, 0] + rest;
    assert buf[0..2] == [0, 0];
    assert UnsignedLE(buf[0..2][1..]) == 0 + 0x100 * UnsignedLE(buf[0..2][2..]);
  }

  /** What the corrected loop finds: packets handed out, bytes processed, protocol fault. */
  datatype Split = Split(packets: seq<seq<byte>>, processLen: nat, fault: bool)

  /** The corrected loop: a size smaller than the header itself is a protocol fault. */
  function SplitPackets(rest: seq<byte>): (r: Split)
    ensures r.processLen <= |rest|
    decreases |rest|
  {
    if |rest| < HeaderSize then Split([], 0, false)
    else
      var n := UInt16At(rest, 0);
      if n < HeaderSize then Split([], 0, true)
      else if |rest| < n then Split([], 0, false)
      else
        var more := SplitPackets(rest[n..]);
        Split([rest[..n]] + more.packets, n + more.processLen, more.fault)
  }

  /** The corrected `OnRecv`: the same loop, stopping with a fault on an undersized header. */
  method OnRecv(buffer: seq<byte>) returns (packets: seq<seq<byte>>, processLen: nat, fault: bool)
    ensures Split(packets, processLen, fault) == SplitPackets(buffer)
  {
    packets, processLen, fault := [], 0, false;
    var rest := buffer;
    while true
      invariant SplitPackets(buffer) ==
        Split(packets + SplitPackets(rest).packets, processLen + SplitPackets(rest).processLen, SplitPackets(rest).fault)
      decreases |rest|
    {
      if |rest| < HeaderSize {
        break;
      }
      var dataSize := UInt16At(rest, 0);
      if dataSize < HeaderSize {
        fault := true;
        break;
      }
      if |rest| < dataSize {
        break;
      }
      var more := SplitPackets(rest[dataSize..]);
      assert (packets + [rest[..dataSize]]) + more.packets == packets + ([rest[..dataSize]] + more.packets);
      packets := packets + [rest[..dataSize]];
      processLen := processLen + dataSize;
      rest := rest[dataSize..];
    }
    assert packets + [] == packets;
  }

  /** A packet: its header's size is at least the header and is exactly its length. */
  predicate IsPacket(p: seq<byte>)
  {
    |p| >= HeaderSize && UInt16At(p, 0) == |p|
  }

  /** Every entry is a packet. */
  predicate AllPackets(ps: seq<seq<byte>>)
  {
    ps == [] || (IsPacket(ps[0]) && AllPackets(ps[1..]))
  }

  /**
   * The corrected loop consumes exactly the packets it hands out, in order, each
   * `size` bytes long including its header, and never more than the buffer.
   */
  lemma {:induction false} SplitConsumes(rest: seq<byte>)
    ensures var r := SplitPackets(rest);
      Flatten(r.packets) == rest[..r.processLen] && AllPackets(r.packets)
    decreases |rest|
  {
    var r := SplitPackets(rest);
    if |rest| >= HeaderSize {
      var n := UInt16At(rest, 0);
      if HeaderSize <= n <= |rest| {
        SplitConsumes(rest[n..]);
        var more := SplitPackets(rest[n..]);
        var p := rest[..n];
        assert p[0..2] == rest[0..2];
        assert ([p] + more.packets)[1..] == more.packets;
        assert rest[..n + more.processLen] == p + rest[n..][..more.processLen];
      }
    }
  }

  /** Why the corrected loop stopped: too few bytes for a header, an incomplete packet, or a fault. */
  lemma {:induction false} SplitStopReason(rest: seq<byte>)
    ensures var r := SplitPackets(rest); var left := rest[r.processLen..];
      (r.fault ==> |left| >= HeaderSize && UInt16At(left, 0) < HeaderSize) &&
      (!r.fault ==> |left| < HeaderSize || |left| < UInt16At(left, 0))
    decreases |rest|
  {
    if |rest| >= HeaderSize {
      var n := UInt16At(rest, 0);
      if HeaderSize <= n <= |rest| {
        SplitStopReason(rest[n..]);
        var more := SplitPackets(rest[n..]);
        assert rest[n + more.processLen..] == rest[n..][more.processLen..];
      }
    }
  }

  /**
   * Where the corrected loop reports no fault, the loop as written halts and hands out
   * the same packets; the correction only changes buffers that reach an undersized header.
   */
  lemma {:induction false} CorrectionAgrees(rest: seq<byte>)
    requires !SplitPackets(rest).fault
    ensures Halts(rest)
    ensures AsWritten(rest) == (SplitPackets(rest).packets, SplitPackets(rest).processLen)
    decreases |rest|
  {
    if |rest| >= HeaderSize {
      var n := UInt16At(rest, 0);
      if n <= |rest| {
        CorrectionAgrees(rest[n..]);
      }
    }
  }

  /** A packet in front of any bytes is handed out first, and the rest is split on its own. */
  lemma PacketFirst(p: seq<byte>, rest: seq<byte>)
    requires IsPacket(p)
    ensures var r := SplitPackets(rest);
      SplitPackets(p + rest) == Split([p] + r.packets, |p| + r.processLen, r.fault)
  {
    var buf := p + rest;
    assert buf[0..2] == p[0..2];
    assert buf[..|p|] == p && buf[|p|..] == rest;
  }

  /** Round trip: packets sent one after another, then any bytes, come back exactly as sent. */
  lemma {:induction false} SplitSentPackets(ps: seq<seq<byte>>, tail: seq<byte>)
    requires AllPackets(ps)
    ensures var r := SplitPackets(tail);
      SplitPackets(Flatten(ps) + tail) == Split(ps + r.packets, |Flatten(ps)| + r.processLen, r.fault)
    decreases |ps|
  {
    if ps == [] {
      assert Flatten(ps) + tail == tail;
    } else {
      var y := Flatten(ps[1..]) + tail;
      SplitSentPackets(ps[1..], tail);
      assert Flatten(ps) + tail == ps[0] + y;
      PacketFirst(ps[0], y);
      ComposeFirst(ps, |Flatten(ps[1..])|, SplitPackets(tail), SplitPackets(y), SplitPackets(ps[0] + y));
    }
  }

  /** One more packet in front of an already split run of packets. */
  lemma ComposeFirst(ps: seq<seq<byte>>, m: nat, r: Split, s: Split, w: Split)
    requires ps != []
    requires s == Split(ps[1..] + r.packets, m + r.processLen, r.fault)
    requires w == Split([ps[0]] + s.packets, |ps[0]| + s.processLen, s.fault)
    ensures w == Split(ps + r.packets, |ps[0]| + m + r.processLen, r.fault)
  {
    assert [ps[0]] + (ps[1..] + r.packets) == ps + r.packets;
  }
}
