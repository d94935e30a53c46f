/**
 * The size-prefixed framing loop shared by the game server's `ClientSession.OnRecv`
 * (Server/Server/Session/ClientSession.cs) and the load client's `ServerSession.OnRecv`
 * (Server/DummyClient/ServerSession.cs): every frame is a signed 32-bit little-endian
 * payload length `N` followed by `N` payload bytes; `0 < N <= 131072` is required,
 * anything else is a protocol fault that disconnects.
 */
module Framing {
  import opened Numerics
  import opened Seqs

  /** The 128 KiB sanity ceiling on a declared payload length. */
  const MaxFrameLength: int := 0x2_0000
  /** Bytes taken by the length prefix. */
  const PrefixSize: int := 4

  predicate ValidLength(n: int) { 0 < n <= MaxFrameLength }

  /** The declared payload length of the frame starting at `at`. */
  function LengthAt(buf: seq<byte>, at: nat): (n: int)
    requires at + PrefixSize <= |buf|
    ensures InInt32(n)
  {
    Int32Bytes(buf, at);
    Int32At(buf, at)
  }

  /** A complete frame: a valid prefix followed by exactly that many payload bytes. */
  predicate IsFrame(f: seq<byte>)
  {
    |f| >= PrefixSize && ValidLength(Int32At(f, 0)) && |f| == PrefixSize + Int32At(f, 0)
  }

  /**
   * The outcome of one `OnRecv` call: the frames handed to `HandlePacket`, in order;
   * `stop`, the offset where scanning stopped (the returned `processed` when scanning
   * starts at 0); and whether it stopped on an invalid length (and so disconnected).
   */
  datatype Scan = Scan(frames: seq<seq<byte>>, stop: nat, fault: bool)

  function Prepend(fs: seq<seq<byte>>, r: Scan): Scan
  {
    Scan(fs + r.frames, r.stop, r.fault)
  }

  /** What the loop does from offset `at` on. */
  function ScanFrom(buf: seq<byte>, at: nat): (r: Scan)
    requires at <= |buf|
    ensures at <= r.stop <= |buf|
    decreases |buf| - at
  {
    if |buf| - at < PrefixSize then Scan([], at, false)
    else
      var n := LengthAt(buf, at);
      if !ValidLength(n) then Scan([], at, true)
      else if |buf| - at < PrefixSize + n then Scan([], at, false)
      else Prepend([buf[at..at + PrefixSize + n]], ScanFrom(buf, at + PrefixSize + n))
  }

  /**
   * The loop of `OnRecv`: returns the frames in the order they are handled, the number
   * of bytes processed, and whether it called `Disconnect`.
   */
  method ReceiveFrames(buffer: seq<byte>) returns (frames: seq<seq<byte>>, processed: nat, disconnect: bool)
    ensures Scan(frames, processed, disconnect) == ScanFrom(buffer, 0)
    ensures processed <= |buffer| && Flatten(frames) == buffer[..processed]
    ensures forall i :: 0 <= i < |frames| ==> IsFrame(frames[i])
  {
    frames, processed, disconnect := [], 0, false;
    while true
      invariant processed <= |buffer|
      invariant ScanFrom(buffer, 0) == Prepend(frames, ScanFrom(buffer, processed))
      decreases |buffer| - processed
    {
      if |buffer| - processed < PrefixSize {
        break;
      }
      var msgLen := LengthAt(buffer, processed);
      if msgLen <= 0 || msgLen > MaxFrameLength {
        disconnect := true;
        break;
      }
      if |buffer| - processed < PrefixSize + msgLen {
        break;
      }
      var next := processed + PrefixSize + msgLen;
      var f := buffer[processed..next];
      ScanStep(buffer, processed, msgLen);
      var rest := ScanFrom(buffer, next);
      assert (frames + [f]) + rest.frames == frames + ([f] + rest.frames);
      frames := frames + [f];
      processed := next;
    }
    ScanConsumes(buffer, 0);
    ScanFramesWellFormed(buffer, 0);
  }

  /** Scanning consumes a contiguous run of whole frames and never passes the end. */
  lemma {:induction false} ScanConsumes(buf: seq<byte>, at: nat)
    requires at <= |buf|
    ensures at <= ScanFrom(buf, at).stop <= |buf|
    ensures Flatten(ScanFrom(buf, at).frames) == buf[at..ScanFrom(buf, at).stop]
    decreases |buf| - at
  {
    var r := ScanFrom(buf, at);
    if |buf| - at >= PrefixSize && ValidLength(LengthAt(buf, at)) && |buf| - at >= PrefixSize + LengthAt(buf, at) {
      var next := at + PrefixSize + LengthAt(buf, at);
      ScanConsumes(buf, next);
      var f := buf[at..next];
      assert ([f] + ScanFrom(buf, next).frames)[1..] == ScanFrom(buf, next).frames;
      assert buf[at..r.stop] == f + buf[next..r.stop];
    }
  }

  /** Every frame handed out is exactly `4 + N` bytes for its own valid length `N`. */
  lemma {:induction false} ScanFramesWellFormed(buf: seq<byte>, at: nat)
    requires at <= |buf|
    ensures forall i :: 0 <= i < |ScanFrom(buf, at).frames| ==> IsFrame(ScanFrom(buf, at).frames[i])
    decreases |buf| - at
  {
    if |buf| - at >= PrefixSize && ValidLength(LengthAt(buf, at)) && |buf| - at >= PrefixSize + LengthAt(buf, at) {
      var next := at + PrefixSize + LengthAt(buf, at);
      ScanFramesWellFormed(buf, next);
      var f := buf[at..next];
      assert f[0..PrefixSize] == buf[at..at + PrefixSize];
    }
  }

  /**
   * Why scanning stopped: on a fault, at a complete prefix with an invalid length;
   * otherwise because fewer than 4 bytes remain or the frame is not complete yet
   * (those bytes stay unconsumed).
   */
  lemma {:induction false} ScanStopReason(buf: seq<byte>, at: nat)
    requires at <= |buf|
    ensures var r := ScanFrom(buf, at);
      r.stop <= |buf| &&
      (r.fault ==> |buf| - r.stop >= PrefixSize && !ValidLength(LengthAt(buf, r.stop))) &&
      (!r.fault ==> |buf| - r.stop < PrefixSize ||
                    (ValidLength(LengthAt(buf, r.stop)) && |buf| - r.stop < PrefixSize + LengthAt(buf, r.stop)))
    decreases |buf| - at
  {
    if |buf| - at >= PrefixSize && ValidLength(LengthAt(buf, at)) && |buf| - at >= PrefixSize + LengthAt(buf, at) {
      ScanStopReason(buf, at + PrefixSize + LengthAt(buf, at));
    }
  }

  /** Scanning inside `tail` is the same whatever bytes precede it, up to an offset. */
  lemma {:induction false} ScanShift(pre: seq<byte>, tail: seq<byte>, i: nat)
    requires i <= |tail|
    ensures var r := ScanFrom(tail, i);
      ScanFrom(pre + tail, |pre| + i) == Scan(r.frames, |pre| + r.stop, r.fault)
    decreases |tail| - i
  {
    if |tail| - i >= PrefixSize {
      ShiftLength(pre, tail, i);
      var n := LengthAt(tail, i);
      if ValidLength(n) && |tail| - i >= PrefixSize + n {
        var j := i + PrefixSize + n;
        ShiftStep(pre, tail, i, n);
        ScanShift(pre, tail, j);
        ShiftCompose(tail[i..j], ScanFrom(pre + tail, |pre| + i), ScanFrom(pre + tail, |pre| + j),
                     ScanFrom(tail, i), ScanFrom(tail, j), |pre|);
      }
    }
  }

  lemma ShiftLength(pre: seq<byte>, tail: seq<byte>, i: nat)
    requires i + PrefixSize <= |tail|
    ensures LengthAt(pre + tail, |pre| + i) == LengthAt(tail, i)
  {
    assert (pre + tail)[|pre| + i..|pre| + i + PrefixSize] == tail[i..i + PrefixSize];
  }

  lemma ShiftCompose(g: seq<byte>, a: Scan, b: Scan, c: Scan, d: Scan, k: nat)
    requires a == Prepend([g], b) && c == Prepend([g], d)
    requires b == Scan(d.frames, k + d.stop, d.fault)
    ensures a == Scan(c.frames, k + c.stop, c.fault)
  {
  }

  lemma ShiftStep(pre: seq<byte>, tail: seq<byte>, i: nat, n: nat)
    requires i + PrefixSize + n <= |tail|
    requires LengthAt(tail, i) == n && ValidLength(n)
    requires LengthAt(pre + tail, |pre| + i) == n
    ensures ScanFrom(tail, i) == Prepend([tail[i..i + PrefixSize + n]], ScanFrom(tail, i + PrefixSize + n))
    ensures ScanFrom(pre + tail, |pre| + i) ==
      Prepend([tail[i..i + PrefixSize + n]], ScanFrom(pre + tail, |pre| + i + PrefixSize + n))
  {
    assert (pre + tail)[|pre| + i..|pre| + i + PrefixSize + n] == tail[i..i + PrefixSize + n];
  }

  /** One step of the loop: a complete frame with a valid length is handed out. */
  lemma ScanStep(buf: seq<byte>, at: nat, n: nat)
    requires at + PrefixSize + n <= |buf|
    requires LengthAt(buf, at) == n && ValidLength(n)
    ensures ScanFrom(buf, at) == Prepend([buf[at..at + PrefixSize + n]], ScanFrom(buf, at + PrefixSize + n))
  {
  }

  /**
   * How a scan result `r` over a prefix of `all` continues over all of `all`: a fault
   * is final, otherwise scanning resumes at the old stopping point.
   */
  function Continue(r: Scan, all: seq<byte>): Scan
    requires r.stop <= |all|
  {
    if r.fault then r else Prepend(r.frames, ScanFrom(all, r.stop))
  }

  /**
   * Bytes that arrive later never change what was already decided: a fault stays the
   * same fault, and otherwise the frames already found come first, followed by what
   * scanning finds from the old stopping point on.
   */
  lemma {:induction false} ScanAppend(buf: seq<byte>, more: seq<byte>, at: nat)
    requires at <= |buf|
    ensures ScanFrom(buf + more, at) == Continue(ScanFrom(buf, at), buf + more)
    decreases |buf| - at
  {
    if |buf| - at >= PrefixSize {
      var n := LengthAt(buf, at);
      PrefixLength(buf, more, at);
      if ValidLength(n) && |buf| - at >= PrefixSize + n {
        ScanAppend(buf, more, at + PrefixSize + n);
        AppendFrame(buf, more, at, n);
      } else {
        assert ScanFrom(buf, at) == Scan([], at, !ValidLength(n));
        AppendStops(buf, more, at);
      }
    } else {
      AppendStops(buf, more, at);
    }
  }

  /** The length prefix at `at` does not depend on the bytes after it. */
  lemma PrefixLength(buf: seq<byte>, more: seq<byte>, at: nat)
    requires at + PrefixSize <= |buf|
    ensures LengthAt(buf + more, at) == LengthAt(buf, at)
  {
    assert (buf + more)[at..at + PrefixSize] == buf[at..at + PrefixSize];
  }

  /** `ScanAppend` where scanning `buf` stops at once without a fault. */
  lemma AppendStops(buf: seq<byte>, more: seq<byte>, at: nat)
    requires at <= |buf|
    requires ScanFrom(buf, at).stop == at
    requires ScanFrom(buf, at).frames == []
    requires ScanFrom(buf, at).fault ==> ScanFrom(buf + more, at) == ScanFrom(buf, at)
    ensures ScanFrom(buf + more, at) == Continue(ScanFrom(buf, at), buf + more)
  {
    assert Prepend([], ScanFrom(buf + more, at)) == ScanFrom(buf + more, at);
  }

  /** `ScanAppend` where `buf` holds a whole frame of payload length `n` at `at`. */
  lemma AppendFrame(buf: seq<byte>, more: seq<byte>, at: nat, n: nat)
    requires at + PrefixSize + n <= |buf|
    requires LengthAt(buf, at) == n && ValidLength(n)
    requires LengthAt(buf + more, at) == n
    requires ScanFrom(buf + more, at + PrefixSize + n) == Continue(ScanFrom(buf, at + PrefixSize + n), buf + more)
    ensures ScanFrom(buf + more, at) == Continue(ScanFrom(buf, at), buf + more)
  {
    var next := at + PrefixSize + n;
    ScanStep(buf, at, n);
    ExtendedStep(buf, more, at, n);
    ContinuePrepend(buf[at..next], ScanFrom(buf, next), buf + more);
  }

  /** A frame complete in `buf` is handed out the same way when more bytes follow. */
  lemma ExtendedStep(buf: seq<byte>, more: seq<byte>, at: nat, n: nat)
    requires at + PrefixSize + n <= |buf|
    requires LengthAt(buf + more, at) == n && ValidLength(n)
    ensures ScanFrom(buf + more, at) ==
      Prepend([buf[at..at + PrefixSize + n]], ScanFrom(buf + more, at + PrefixSize + n))
  {
    var all := buf + more;
    assert all[at..at + PrefixSize + n] == buf[at..at + PrefixSize + n];
    ScanStep(all, at, n);
  }

  lemma ContinuePrepend(f: seq<byte>, r: Scan, all: seq<byte>)
    requires r.stop <= |all|
    ensures Continue(Prepend([f], r), all) == Prepend([f], Continue(r, all))
  {
    if !r.fault {
      var s := ScanFrom(all, r.stop);
      assert [f] + (r.frames + s.frames) == ([f] + r.frames) + s.frames;
    }
  }

  /** The wire form of one payload. */
  function EncodeFrame(payload: seq<byte>): (f: seq<byte>)
    requires ValidLength(|payload|)
  {
    Int32ToLE(|payload|) + payload
  }

  predicate AllValid(ps: seq<seq<byte>>)
  {
    forall i :: 0 <= i < |ps| ==> ValidLength(|ps[i]|)
  }

  /** The frames of the payloads `ps`, in order. */
  function EncodeAll(ps: seq<seq<byte>>): (fs: seq<seq<byte>>)
    requires AllValid(ps)
    ensures |fs| == |ps|
  {
    if ps == [] then [] else [EncodeFrame(ps[0])] + EncodeAll(ps[1..])
  }

  /** The bytes a sender writes for the payloads `ps`, one frame after the other. */
  function Wire(ps: seq<seq<byte>>): seq<byte>
    requires AllValid(ps)
  {
    Flatten(EncodeAll(ps))
  }

  /** The payload of a frame, without its prefix. */
  function Payload(f: seq<byte>): seq<byte>
    requires IsFrame(f)
  {
    f[PrefixSize..]
  }

  /** An encoded frame is a frame, and its payload is the one encoded. */
  lemma EncodeFrameIsFrame(p: seq<byte>)
    requires ValidLength(|p|)
    ensures IsFrame(EncodeFrame(p)) && Payload(EncodeFrame(p)) == p
  {
    Int32RoundTrip(|p|, [], p);
    assert [] + Int32ToLE(|p|) + p == EncodeFrame(p);
  }

  /** Every entry of `fs` is a frame. */
  predicate AllFrames(fs: seq<seq<byte>>)
  {
    fs == [] || (IsFrame(fs[0]) && AllFrames(fs[1..]))
  }

  /** The payloads of the frames `fs`, in order. */
  function Payloads(fs: seq<seq<byte>>): (ps: seq<seq<byte>>)
    requires AllFrames(fs)
    ensures |ps| == |fs|
  {
    if fs == [] then [] else [Payload(fs[0])] + Payloads(fs[1..])
  }

  /** The encoded frames are frames, and they carry the payloads encoded. */
  lemma {:induction false} EncodeAllFrames(ps: seq<seq<byte>>)
    requires AllValid(ps)
    ensures AllFrames(EncodeAll(ps)) && Payloads(EncodeAll(ps)) == ps
  {
    if ps != [] {
      assert AllValid(ps[1..]);
      EncodeAllFrames(ps[1..]);
      EncodeFrameIsFrame(ps[0]);
      var fs := EncodeAll(ps);
      assert fs[1..] == EncodeAll(ps[1..]);
      assert ps == [ps[0]] + ps[1..];
    }
  }

  /** A frame in front of any bytes is handed out first. */
  lemma ScanFrameFirst(f: seq<byte>, rest: seq<byte>)
    requires IsFrame(f)
    ensures var r := ScanFrom(rest, 0);
      ScanFrom(f + rest, 0) == Scan([f] + r.frames, |f| + r.stop, r.fault)
  {
    var buf := f + rest;
    assert buf[0..PrefixSize] == f[0..PrefixSize];
    assert buf[0..|f|] == f;
    ScanStep(buf, 0, |f| - PrefixSize);
    ScanShift(f, rest, 0);
  }

  /**
   * Whole frames sent one after the other, followed by any bytes, are handed out
   * exactly as sent; the bytes after them are scanned as if they stood alone.
   */
  lemma {:induction false} ScanFrames(fs: seq<seq<byte>>, tail: seq<byte>)
    requires AllFrames(fs)
    ensures var r := ScanFrom(tail, 0);
      ScanFrom(Flatten(fs) + tail, 0) == Scan(fs + r.frames, |Flatten(fs)| + r.stop, r.fault)
    decreases |fs|
  {
    var r := ScanFrom(tail, 0);
    if fs == [] {
      assert Flatten(fs) + tail == tail;
    } else {
      var f, rest := fs[0], fs[1..];
      var y := Flatten(rest) + tail;
      ScanFrames(rest, tail);
      ConsStep(fs, tail);
      ScanFrameFirst(f, y);
      Compose(f, rest, ScanFrom(f + y, 0), ScanFrom(y, 0), r, |Flatten(rest)|);
    }
  }

  lemma Compose(f: seq<byte>, rest: seq<seq<byte>>, s: Scan, t: Scan, r: Scan, restLen: nat)
    requires s == Scan([f] + t.frames, |f| + t.stop, t.fault)
    requires t == Scan(rest + r.frames, restLen + r.stop, r.fault)
    ensures s == Scan(([f] + rest) + r.frames, |f| + restLen + r.stop, r.fault)
  {
    assert [f] + (rest + r.frames) == ([f] + rest) + r.frames;
  }

  lemma ConsStep(fs: seq<seq<byte>>, tail: seq<byte>)
    requires fs != []
    ensures Flatten(fs) + tail == fs[0] + (Flatten(fs[1..]) + tail)
    ensures |Flatten(fs)| == |fs[0]| + |Flatten(fs[1..])|
    ensures fs == [fs[0]] + fs[1..]
  {
    assert fs == [fs[0]] + fs[1..];
  }

  /**
   * Round trip: the wire form of a list of payloads, followed by any bytes, is split
   * back into exactly the frames of those payloads, whose payloads are the originals;
   * the bytes after them are scanned as if they stood alone.
   */
  lemma ScanEncoded(ps: seq<seq<byte>>, tail: seq<byte>)
    requires AllValid(ps)
    ensures var r := ScanFrom(tail, 0); var s := ScanFrom(Wire(ps) + tail, 0);
      s == Scan(EncodeAll(ps) + r.frames, |Wire(ps)| + r.stop, r.fault) &&
      AllFrames(s.frames[..|ps|]) && Payloads(s.frames[..|ps|]) == ps
  {
    EncodeAllFrames(ps);
    ScanFrames(EncodeAll(ps), tail);
    var r := ScanFrom(tail, 0);
    assert (EncodeAll(ps) + r.frames)[..|ps|] == EncodeAll(ps);
  }

  /** A declared length of 200000 is rejected at once: no frame, nothing consumed, disconnect. */
  lemma OversizedFrameRejected(rest: seq<byte>)
    ensures ScanFrom(Int32ToLE(200000) + rest, 0) == Scan([], 0, true)
  {
    Int32RoundTrip(200000, [], rest);
    assert [] + Int32ToLE(200000) + rest == Int32ToLE(200000) + rest;
  }

  /**
   * After a receive without a fault, handling the bytes kept together with the next
   * bytes continues the scan of the whole stream.
   */
  lemma ScanResume(buf: seq<byte>, more: seq<byte>)
    requires !ScanFrom(buf, 0).fault
    ensures var r := ScanFrom(buf, 0); var t := ScanFrom(buf[r.stop..] + more, 0);
      ScanFrom(buf + more, 0) == Scan(r.frames + t.frames, r.stop + t.stop, t.fault)
  {
    var r := ScanFrom(buf, 0);
    var kept := buf[r.stop..] + more;
    ScanAppend(buf, more, 0);
    SplitAt(buf, more, r.stop);
    ScanShift(buf[..r.stop], kept, 0);
    ResumeCompose(ScanFrom(buf + more, 0), r, ScanFrom(buf + more, r.stop), ScanFrom(kept, 0));
  }

  lemma SplitAt(buf: seq<byte>, more: seq<byte>, k: nat)
    requires k <= |buf|
    ensures buf + more == buf[..k] + (buf[k..] + more) && |buf[..k]| == k
  {
  }

  lemma ResumeCompose(a: Scan, r: Scan, b: Scan, t: Scan)
    requires !r.fault && a == Prepend(r.frames, b)
    requires b == Scan(t.frames, r.stop + t.stop, t.fault)
    ensures a == Scan(r.frames + t.frames, r.stop + t.stop, t.fault)
  {
  }
}
