/**
 The MQTT client's message queue: a ring buffer, the byte-stuffing writer and parser
 on it, and the queue they make. Module MqttFrames says what these compute.
 */
module MqttQueue {
  import opened Bytes
  import opened MqttFrames

  /** `RINGBUF`. The pointers are offsets from `p_o`. */
  class Ring {
    const buf: array<Byte>
    var readPos: nat
    var writePos: nat
    var fillCnt: nat

    ghost predicate Valid()
      reads this
    {
      && fillCnt <= buf.Length
      && (buf.Length == 0 ==> readPos == writePos == 0)
      && (buf.Length > 0 ==>
            readPos < buf.Length
            && writePos == if readPos + fillCnt < buf.Length then readPos + fillCnt
                           else readPos + fillCnt - buf.Length)
    }

    ghost function Contents(): (c: seq<Byte>)
      requires Valid()
      reads this, buf
      ensures |c| == fillCnt <= buf.Length
    {
      if readPos + fillCnt <= buf.Length then buf[readPos..readPos + fillCnt]
      else buf[readPos..] + buf[..readPos + fillCnt - buf.Length]
    }

    /** `RINGBUF_Init` refuses a size below 2 and leaves a ring that holds nothing. */
    constructor (size: nat)
      ensures Valid() && Contents() == [] && fresh(buf)
      ensures buf.Length == if size < 2 then 0 else size
    {
      buf := new Byte[if size < 2 then 0 else size](_ => 0);
      readPos, writePos, fillCnt := 0, 0, 0;
    }

    /** `RINGBUF_Put`. */
    method Put(c: Byte) returns (code: int)
      requires Valid()
      modifies this, buf
      ensures Valid()
      ensures if |old(Contents())| < buf.Length
        then code == 0 && Contents() == old(Contents()) + [c]
        else code == -1 && Contents() == old(Contents())
    {
      if fillCnt >= buf.Length {
        return -1;
      }
      fillCnt := fillCnt + 1;
      buf[writePos] := c;
      writePos := writePos + 1;
      if writePos >= buf.Length {
        writePos := 0;
      }
      return 0;
    }

    /** `RINGBUF_Get`. */
    method Get() returns (code: int, c: Byte)
      requires Valid()
      modifies this
      ensures Valid()
      ensures if old(Contents()) != []
        then code == 0 && c == old(Contents())[0] && Contents() == old(Contents())[1..]
        else code == -1 && Contents() == []
    {
      c := 0;
      if fillCnt <= 0 {
        return -1, c;
      }
      fillCnt := fillCnt - 1;
      c := buf[readPos];
      readPos := readPos + 1;
      if readPos >= buf.Length {
        readPos := 0;
      }
      return 0, c;
    }
  }

  /** `PROTO_PARSER` without its unused callback. `buf` is the caller's buffer. */
  class ByteParser {
    const buf: array<Byte>
    var dataLen: nat
    var isEsc: bool
    var isBegin: bool

    ghost predicate Valid()
      reads this
    {
      dataLen <= buf.Length
    }

    ghost function State(): Parser
      requires Valid()
      reads this, buf
    {
      Parser(buf[..dataLen], isEsc, isBegin)
    }

    /** `PROTO_Init` sets every field but `isBegin`, which keeps whatever was there. */
    constructor (bufOut: array<Byte>, leftover: bool)
      ensures Valid() && buf == bufOut && State() == Parser([], false, leftover)
    {
      buf, dataLen, isEsc, isBegin := bufOut, 0, false, leftover;
    }

    /** `PROTO_ParseByte`. */
    method ParseByte(value: Byte) returns (code: int)
      requires Valid()
      modifies this, buf
      ensures Valid()
      ensures if value == END then code == 0 && State() == old(State()).(isBegin := false)
              else code == -1 && State() == Feed(old(State()), value, buf.Length)
    {
      code := -1;
      if value == ESC {
        isEsc := true;
      } else if value == BEGIN {
        dataLen, isEsc, isBegin := 0, false, true;
      } else if value == END {
        isBegin := false;
        return 0;
      } else if isBegin {
        var v := value;
        if isEsc {
          v := Flip(v);
          isEsc := false;
        }
        if dataLen < buf.Length {
          buf[dataLen] := v;
          dataLen := dataLen + 1;
        }
      }
    }
  }

  /** An I16 holding `n`. */
  function ToI16(n: nat): int {
    var low := n % 0x1_0000;
    if low < 0x8000 then low else low - 0x1_0000
  }

  /** The code a put returns: the length of the frame, or -1. In rings shorter than
      65535 bytes the two cannot be confused. */
  function PutCode(packet: seq<Byte>, fits: bool): int {
    if fits then ToI16(|Frame(packet)|) else -1
  }

  lemma PutCodeTellsSuccess(packet: seq<Byte>, room: nat)
    requires room < 0xFFFF
    ensures PutCode(packet, |Frame(packet)| <= room) == -1 <==> |Frame(packet)| > room
  {
  }

  lemma {:induction false} StuffConcat(a: seq<Byte>, b: seq<Byte>)
    ensures Stuff(a + b) == Stuff(a) + Stuff(b)
  {
    if a == [] {
      assert a + b == b;
    } else {
      assert (a + b)[1..] == a[1..] + b;
      StuffConcat(a[1..], b);
    }
  }

  /** How much of the frame comes before byte `k` of the packet. */
  function FrameOffset(packet: seq<Byte>, k: nat): nat
    requires k <= |packet|
  {
    1 + |Stuff(packet[..k])|
  }

  lemma FrameAtByte(packet: seq<Byte>, k: nat)
    requires k < |packet|
    ensures var n, s := FrameOffset(packet, k), StuffByte(packet[k]);
      && FrameOffset(packet, k + 1) == n + |s| < |Frame(packet)|
      && Frame(packet)[n] == s[0] && (|s| == 2 ==> Frame(packet)[n + 1] == s[1])
  {
    var b := packet[k];
    assert packet == packet[..k] + ([b] + packet[k + 1..]);
    assert packet[..k + 1] == packet[..k] + [b];
    StuffConcat(packet[..k], [b] + packet[k + 1..]);
    StuffConcat(packet[..k], [b]);
    assert ([b] + packet[k + 1..])[1..] == packet[k + 1..];
    assert [b][1..] == [];
    assert Stuff([b]) == StuffByte(b) + [];
    assert Stuff(packet) == Stuff(packet[..k]) + (StuffByte(b) + Stuff(packet[k + 1..]));
  }

  lemma FrameAtStart(packet: seq<Byte>)
    ensures FrameOffset(packet, 0) == 1 < |Frame(packet)| && Frame(packet)[0] == BEGIN
  {
  }

  lemma FrameAtEnd(packet: seq<Byte>)
    ensures var n := FrameOffset(packet, |packet|); n + 1 == |Frame(packet)| && Frame(packet)[n] == END
  {
    assert packet[..|packet|] == packet;
  }

  /** Puts one more byte of a frame into the ring. */
  method PutNext(ring: Ring, c: Byte, ghost before: seq<Byte>, ghost frame: seq<Byte>, ghost n: nat)
    returns (code: int)
    requires ring.Valid() && n < |frame| && frame[n] == c
    requires |before| <= ring.buf.Length && ring.Contents() == before + frame[..n]
    modifies ring, ring.buf
    ensures ring.Valid()
    ensures code == 0 ==> ring.Contents() == before + frame[..n + 1]
    ensures code != 0 ==> code == -1
    ensures code == -1 ==> var room := ring.buf.Length - |before|;
      room < |frame| && ring.Contents() == before + Clip(frame, room)
  {
    code := ring.Put(c);
    assert frame[..n + 1] == frame[..n] + [c];
  }

  /**
   `PROTO_AddRb`: writes the frame byte by byte until the ring is full. The source
   counts an I16 down to zero, which takes `len` rounds for every uint16 `len`.
   */
  method AddRb(ring: Ring, packet: seq<Byte>) returns (code: int)
    requires ring.Valid()
    modifies ring, ring.buf
    ensures ring.Valid()
    ensures var room := ring.buf.Length - |old(ring.Contents())|;
      && code == PutCode(packet, |Frame(packet)| <= room)
      && ring.Contents() == old(ring.Contents()) + Clip(Frame(packet), room)
  {
    FrameAtStart(packet);
    hide Frame, FrameOffset, Stuff, Ring.Contents, Ring.Valid;
    ghost var before, frame := ring.Contents(), Frame(packet);
    assert before + frame[..0] == before;
    var i := 2;
    code := PutNext(ring, BEGIN, before, frame, 0);
    if code == -1 {
      return;
    }
    var k := 0;
    while k < |packet|
      invariant 0 <= k <= |packet| && ring.Valid()
      invariant FrameOffset(packet, k) < |frame| && ring.Contents() == before + frame[..FrameOffset(packet, k)]
      invariant i == 1 + FrameOffset(packet, k)
    {
      FrameAtByte(packet, k);
      ghost var n := FrameOffset(packet, k);
      var b := packet[k];
      if Special(b) {
        code := PutNext(ring, ESC, before, frame, n);
        if code == -1 {
          return;
        }
        code := PutNext(ring, Flip(b), before, frame, n + 1);
        if code == -1 {
          return;
        }
        i := i + 2;
      } else {
        code := PutNext(ring, b, before, frame, n);
        if code == -1 {
          return;
        }
        i := i + 1;
      }
      k := k + 1;
    }
    FrameAtEnd(packet);
    code := PutNext(ring, END, before, frame, FrameOffset(packet, k));
    if code == -1 {
      return;
    }
    assert frame[..|frame|] == frame;
    code := ToI16(i);
  }

  /** Where the first 0x7F is, or the length. */
  function FirstEnd(c: seq<Byte>): (k: nat)
    ensures k <= |c| && END !in c[..k]
    ensures k < |c| ==> c[k] == END
  {
    if c == [] || c[0] == END then 0
    else
      var k := FirstEnd(c[1..]);
      assert c[..k + 1] == [c[0]] + c[1..][..k];
      1 + k
  }

  lemma NoEnd(c: seq<Byte>)
    requires END !in c
    ensures FirstEnd(c) == |c|
  {
  }

  lemma {:induction false} FirstEndUnique(a: seq<Byte>, b: seq<Byte>)
    requires END !in a
    ensures FirstEnd(a + [END] + b) == |a|
  {
    if a == [] {
      assert a + [END] + b == [END] + b;
    } else {
      assert (a + [END] + b)[1..] == a[1..] + [END] + b;
      FirstEndUnique(a[1..], b);
    }
  }

  lemma FeedNone(p: Parser, cap: nat)
    ensures FeedAll(p, [], cap) == p
  {
  }

  /** The first 0x7F is at `n` when none comes before it. */
  lemma AtFirstEnd(c: seq<Byte>, n: nat)
    requires n <= FirstEnd(c) && n < |c|
    ensures FirstEnd(c) == n <==> c[n] == END
  {
    var front := c[..FirstEnd(c)];
    assert n < |front| ==> c[n] == front[n] && front[n] in front;
  }

  lemma FeedSnoc(p: Parser, a: seq<Byte>, v: Byte, cap: nat)
    ensures FeedAll(p, a + [v], cap) == Feed(FeedAll(p, a, cap), v, cap)
  {
    FeedAllConcat(p, a, [v], cap);
    assert [v][1..] == [];
    assert FeedAll(FeedAll(p, a, cap), [v], cap) == FeedAll(Feed(FeedAll(p, a, cap), v, cap), [], cap);
  }

  /** `PROTO_ParseRb`: feeds the parser from the ring up to the first 0x7F. With none in
      the ring it empties it and reports -1. */
  method ParseRb(ring: Ring, bufOut: array<Byte>, leftover: bool) returns (code: int, len: nat)
    requires ring.Valid() && bufOut != ring.buf
    modifies ring, bufOut
    ensures ring.Valid() && len <= bufOut.Length
    ensures var c := old(ring.Contents()); var k := FirstEnd(c);
      if k < |c|
      then code == 0 && ring.Contents() == c[k + 1..]
        && bufOut[..len] == FeedAll(Parser([], false, leftover), c[..k], bufOut.Length).data
      else code == -1 && ring.Contents() == []
  {
    hide FeedAll, Ring.Contents, Ring.Valid, Feed, FirstEnd;
    ghost var c := ring.Contents();
    ghost var p0 := Parser([], false, leftover);
    FeedNone(p0, bufOut.Length);
    var proto := new ByteParser(bufOut, leftover);
    ghost var n := 0;
    assert c[..0] == [];
    var got, b := ring.Get();
    while got == 0
      invariant ring.Valid() && proto.Valid() && fresh(proto) && proto.buf == bufOut
      invariant got == 0 || got == -1
      invariant got == 0 ==> n < |c| && b == c[n] && ring.Contents() == c[n + 1..]
      invariant got == -1 ==> n == |c| && ring.Contents() == []
      invariant n <= FirstEnd(c)
      invariant proto.State() == FeedAll(p0, c[..n], bufOut.Length)
      decreases |c| - n, got
    {
      AtFirstEnd(c, n);
      var r := proto.ParseByte(b);
      if r == 0 {
        len := proto.dataLen;
        return 0, len;
      }
      assert c[..n + 1] == c[..n] + [b];
      FeedSnoc(p0, c[..n], b, bufOut.Length);
      n := n + 1;
      got, b := ring.Get();
    }
    return -1, 0;
  }

  /** `QUEUE`. The ghost field `segs` is how the bytes in the ring came about. */
  class Queue {
    const rb: Ring
    ghost var segs: seq<Segment>

    ghost predicate Valid()
      reads this, rb, rb.buf
    {
      rb.Valid() && rb.buf.Length < 0xFFFF && Legal(segs) && rb.Contents() == RingBytes(segs)
    }

    /** `QUEUE_Init`. */
    constructor (bufferSize: nat)
      requires bufferSize < 0xFFFF
      ensures Valid() && segs == [] && fresh(rb) && fresh(rb.buf)
      ensures rb.buf.Length == if bufferSize < 2 then 0 else bufferSize
    {
      rb := new Ring(bufferSize);
      segs := [];
    }

    ghost function Room(): nat
      requires Valid()
      reads this, rb, rb.buf
    {
      rb.buf.Length - |RingBytes(segs)|
    }

    /** `QUEUE_Puts`: the message is in the queue exactly when the code is not -1. */
    method Puts(packet: seq<Byte>) returns (code: int)
      requires Valid()
      modifies this, rb, rb.buf
      ensures Valid()
      ensures segs == AfterPut(old(segs), packet, old(Room()))
      ensures code == -1 <==> |Frame(packet)| > old(Room())
      ensures Messages(segs) == if code == -1 then Messages(old(segs)) else Messages(old(segs)) + [packet]
    {
      ghost var room := Room();
      PutSegments(segs, packet, room);
      PutCodeTellsSuccess(packet, room);
      hide Frame, Ring.Contents, Ring.Valid, PutCode, AfterPut, Messages, RingBytes, Legal;
      code := AddRb(rb, packet);
      segs := AfterPut(segs, packet, room);
    }

    /** `QUEUE_Gets`: the oldest message, cut to the space there is, whatever torn frames
        lie before it and whatever the parser's uninitialised flag holds; or, with no
        message in the ring, -1 and an empty ring. */
    method Gets(bufOut: array<Byte>, leftover: bool) returns (code: int, len: nat)
      requires Valid() && bufOut != rb.buf
      modifies this, rb, bufOut
      ensures Valid() && len <= bufOut.Length
      ensures segs == AfterGet(old(segs))
      ensures Messages(old(segs)) == [] ==> code == -1 && segs == []
      ensures Messages(old(segs)) != [] ==>
        code == 0 && Messages(segs) == Messages(old(segs))[1..]
      ensures Messages(old(segs)) != [] ==>
        bufOut[..len] == Clip(Messages(old(segs))[0], bufOut.Length)
    {
      ghost var c := rb.Contents();
      ghost var p := Parser([], false, leftover);
      if Messages(segs) == [] {
        NoMessageNoEnd(segs);
        NoEnd(c);
      } else {
        ghost var before := GetSegments(segs, p, bufOut.Length);
        FirstEndUnique(before, RingBytes(AfterGet(segs)));
        assert c[..|before|] == before && c[|before| + 1..] == RingBytes(AfterGet(segs));
      }
      hide Ring.Contents, Ring.Valid, FirstEnd, FeedAll, Messages, Legal, Clip;
      code, len := ParseRb(rb, bufOut, leftover);
      segs := AfterGet(segs);
    }

    /** `QUEUE_IsEmpty` counts bytes, so torn frames make a queue look non-empty. */
    method IsEmpty() returns (r: bool)
      requires Valid()
      ensures r <==> segs == []
    {
      r := rb.fillCnt <= 0;
      EmptyBytes(segs);
    }

    /** The loop shared by `MQTT_Publish`, `MQTT_Subscribe`, `MQTT_UnSubscribe` and `MQTT_Ping`. */
    method PutEvicting(packet: seq<Byte>, dataBuffer: array<Byte>, leftover: bool) returns (ok: bool)
      requires Valid() && dataBuffer != rb.buf
      modifies this, rb, rb.buf, dataBuffer
      ensures Valid()
      ensures var r := Evict(old(segs), packet, rb.buf.Length); ok == r.ok && segs == r.ring
    {
      hide Frame, RingBytes, Legal, AfterPut, AfterGet, Evict, Messages, Gaps, Ring.Contents, Ring.Valid;
      ghost var start, size := segs, rb.buf.Length;
      ghost var u := segs;  // the queue before the latest put
      var code := Puts(packet);
      while code == -1
        invariant Valid() && Legal(u) && |RingBytes(u)| <= size
        invariant segs == AfterPut(u, packet, size - |RingBytes(u)|)
        invariant code == -1 <==> |Frame(packet)| > size - |RingBytes(u)|
        invariant Evict(u, packet, size).ok == Evict(start, packet, size).ok
        invariant Evict(u, packet, size).ring == Evict(start, packet, size).ring
        decreases if code == -1 then 1 + |Messages(segs)| else 0
      {
        EvictStops(u, packet, size);
        FailedPutEmpty(u, packet, size - |RingBytes(u)|);
        if Messages(u) != [] {
          u := EvictRound(u, packet, size);
        }
        var got, len := Gets(dataBuffer, leftover);
        if got == -1 {
          return false;
        }
        code := Puts(packet);
      }
      EvictStops(u, packet, size);
      return true;
    }
  }

  lemma EmptyBytes(s: seq<Segment>)
    requires Legal(s)
    ensures |RingBytes(s)| == 0 <==> s == []
  {
    if s != [] {
      assert s[0].Torn? ==> LegalTorn(s[0].bytes);
    }
  }
}
