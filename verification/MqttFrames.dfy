/**
 The byte-stuffed frames that the MQTT client keeps in its ring buffer, over values:
 0x7E begins a frame, 0x7F ends it, and 0x7D announces a byte with bit 5 flipped.
 A put that runs out of room leaves the front of its frame behind; the parser
 drops such a torn frame when it meets the next 0x7E.
 */
module MqttFrames {
  import opened Bytes

  const ESC: Byte := 0x7D
  const BEGIN: Byte := 0x7E
  const END: Byte := 0x7F

  /** `value ^ 0x20` on an octet. */
  function Flip(b: Byte): Byte {
    if (b / 32) % 2 == 1 then b - 32 else b + 32
  }

  predicate Special(b: Byte) {
    b == ESC || b == BEGIN || b == END
  }

  function StuffByte(b: Byte): seq<Byte> {
    if Special(b) then [ESC, Flip(b)] else [b]
  }

  function Stuff(packet: seq<Byte>): seq<Byte> {
    if packet == [] then [] else StuffByte(packet[0]) + Stuff(packet[1..])
  }

  function Frame(packet: seq<Byte>): seq<Byte> {
    [BEGIN] + Stuff(packet) + [END]
  }

  // ---------------------------------------------------------------- the parser

  /** The fields of `PROTO_PARSER`; `data` is `buf[..dataLen]`. */
  datatype Parser = Parser(data: seq<Byte>, isEsc: bool, isBegin: bool)

  /** `PROTO_ParseByte` on every byte but 0x7F, with room for `cap` bytes. */
  function Feed(p: Parser, value: Byte, cap: nat): Parser {
    if value == ESC then p.(isEsc := true)
    else if value == BEGIN then Parser([], false, true)
    else if !p.isBegin then p
    else
      var v := if p.isEsc then Flip(value) else value;
      p.(data := if |p.data| < cap then p.data + [v] else p.data, isEsc := false)
  }

  function FeedAll(p: Parser, values: seq<Byte>, cap: nat): Parser
    decreases |values|
  {
    if values == [] then p else FeedAll(Feed(p, values[0], cap), values[1..], cap)
  }

  function Clip(data: seq<Byte>, cap: nat): seq<Byte> {
    data[..Min(|data|, cap)]
  }

  lemma {:induction false} FeedAllConcat(p: Parser, a: seq<Byte>, b: seq<Byte>, cap: nat)
    ensures FeedAll(p, a + b, cap) == FeedAll(FeedAll(p, a, cap), b, cap)
    decreases |a|
  {
    if a == [] {
      assert a + b == b;
    } else {
      assert (a + b)[1..] == a[1..] + b;
      FeedAllConcat(Feed(p, a[0], cap), a[1..], b, cap);
    }
  }

  lemma ClipFits(a: seq<Byte>, cap: nat)
    ensures |Clip(a, cap)| <= cap
  {
  }

  lemma ClipTwice(a: seq<Byte>, b: seq<Byte>, cap: nat)
    ensures Clip(Clip(a, cap) + b, cap) == Clip(a + b, cap)
  {
  }

  /** Parsing undoes stuffing, up to the space there is. */
  lemma {:induction false} FeedStuffed(p: Parser, packet: seq<Byte>, cap: nat)
    requires p.isBegin && !p.isEsc && |p.data| <= cap
    ensures FeedAll(p, Stuff(packet), cap) == Parser(Clip(p.data + packet, cap), false, true)
    decreases |packet|
  {
    hide Special, Feed, FeedAll, Clip, Stuff, StuffByte;
    StuffStep(packet);
    if packet == [] {
      FeedNothing(p, cap);
      assert p.data + packet == p.data;
    } else {
      ClipFits(p.data + [packet[0]], cap);
      FeedAllConcat(p, StuffByte(packet[0]), Stuff(packet[1..]), cap);
      FeedFirst(p, packet[0], cap);
      FeedStuffed(p.(data := Clip(p.data + [packet[0]], cap)), packet[1..], cap);
      ClipTwice(p.data + [packet[0]], packet[1..], cap);
      assert p.data + packet == p.data + [packet[0]] + packet[1..];
    }
  }

  lemma StuffStep(packet: seq<Byte>)
    ensures Stuff(packet) == if packet == [] then [] else StuffByte(packet[0]) + Stuff(packet[1..])
  {
  }

  lemma FeedNothing(p: Parser, cap: nat)
    ensures FeedAll(p, [], cap) == p && (|p.data| <= cap ==> Clip(p.data, cap) == p.data)
  {
  }

  lemma FeedFirst(p: Parser, b: Byte, cap: nat)
    requires p.isBegin && !p.isEsc && |p.data| <= cap
    ensures FeedAll(p, StuffByte(b), cap) == p.(data := Clip(p.data + [b], cap))
  {
    if Special(b) {
      var q := Feed(p, ESC, cap);
      assert StuffByte(b)[1..] == [Flip(b)];
      assert [Flip(b)][1..] == [];
      assert FeedAll(q, [Flip(b)], cap) == Feed(q, Flip(b), cap);
    } else {
      assert [b][1..] == [];
    }
  }

  /** A frame is read back whatever was parsed before its first byte. */
  lemma FrameParses(p: Parser, junk: seq<Byte>, packet: seq<Byte>, cap: nat)
    ensures FeedAll(p, junk + ([BEGIN] + Stuff(packet)), cap) == Parser(Clip(packet, cap), false, true)
  {
    FeedAllConcat(p, junk, [BEGIN] + Stuff(packet), cap);
    assert ([BEGIN] + Stuff(packet))[1..] == Stuff(packet);
    FeedStuffed(Parser([], false, true), packet, cap);
    assert [] + packet == packet;
  }

  /** "A", the three marks and "B" in a frame, octet by octet. */
  lemma FrameExample()
    ensures Frame([0x41, 0x7D, 0x7E, 0x7F, 0x42]) ==
      [0x7E, 0x41, 0x7D, 0x5D, 0x7D, 0x5E, 0x7D, 0x5F, 0x42, 0x7F]
  {
  }

  lemma {:induction false} StuffHasNoMarks(packet: seq<Byte>)
    ensures BEGIN !in Stuff(packet) && END !in Stuff(packet)
  {
    if packet != [] {
      StuffHasNoMarks(packet[1..]);
    }
  }

  // ---------------------------------------------------------------- what a ring holds

  /** A frame put in full, or what a failed put left behind. */
  datatype Segment = Whole(message: seq<Byte>) | Torn(bytes: seq<Byte>)

  /** A torn frame starts with 0x7E and has neither mark after that. */
  ghost predicate Legal(s: seq<Segment>) {
    forall i | 0 <= i < |s| && s[i].Torn? :: LegalTorn(s[i].bytes)
  }

  ghost predicate LegalTorn(b: seq<Byte>) {
    b != [] && b[0] == BEGIN && BEGIN !in b[1..] && END !in b
  }

  function SegmentBytes(s: Segment): seq<Byte> {
    match s
    case Whole(m) => Frame(m)
    case Torn(b) => b
  }

  function RingBytes(s: seq<Segment>): seq<Byte> {
    if s == [] then [] else SegmentBytes(s[0]) + RingBytes(s[1..])
  }

  /** The messages that were put in full, oldest first. */
  function Messages(s: seq<Segment>): seq<seq<Byte>> {
    if s == [] then []
    else if s[0].Whole? then [s[0].message] + Messages(s[1..])
    else Messages(s[1..])
  }

  lemma {:induction false} SegmentsConcat(a: seq<Segment>, b: seq<Segment>)
    ensures RingBytes(a + b) == RingBytes(a) + RingBytes(b)
    ensures Messages(a + b) == Messages(a) + Messages(b)
  {
    if a == [] {
      assert a + b == b;
    } else {
      assert (a + b)[1..] == a[1..] + b;
      SegmentsConcat(a[1..], b);
    }
  }

  // ---------------------------------------------------------------- putting

  /** What a put leaves in a ring with `room` free bytes. */
  function AfterPut(s: seq<Segment>, packet: seq<Byte>, room: nat): seq<Segment> {
    if |Frame(packet)| <= room then s + [Whole(packet)]
    else if room > 0 then s + [Torn(Frame(packet)[..room])]
    else s
  }

  /** A put appends as much of the frame as there is room for, and adds a message
      exactly when that is all of it. */
  lemma PutSegments(s: seq<Segment>, packet: seq<Byte>, room: nat)
    requires Legal(s)
    ensures Legal(AfterPut(s, packet, room))
    ensures RingBytes(AfterPut(s, packet, room)) == RingBytes(s) + Clip(Frame(packet), room)
    ensures Messages(AfterPut(s, packet, room)) ==
      if |Frame(packet)| <= room then Messages(s) + [packet] else Messages(s)
  {
    var f := Frame(packet);
    if |f| <= room {
      assert Clip(f, room) == f;
      Appended(s, Whole(packet));
    } else if room > 0 {
      TornIsLegal(packet, room);
      assert Clip(f, room) == f[..room];
      Appended(s, Torn(f[..room]));
    } else {
      assert Clip(f, room) == [] && RingBytes(s) + [] == RingBytes(s);
    }
  }

  /** One more segment. */
  lemma Appended(s: seq<Segment>, x: Segment)
    requires Legal(s) && (x.Torn? ==> LegalTorn(x.bytes))
    ensures Legal(s + [x]) && RingBytes(s + [x]) == RingBytes(s) + SegmentBytes(x)
    ensures Messages(s + [x]) == if x.Whole? then Messages(s) + [x.message] else Messages(s)
  {
    SegmentsConcat(s, [x]);
    assert [x][1..] == [];
    assert RingBytes([x]) == SegmentBytes(x) + RingBytes([]);
    hide SegmentBytes;
  }

  lemma TornIsLegal(packet: seq<Byte>, room: nat)
    requires 0 < room < |Frame(packet)|
    ensures LegalTorn(Frame(packet)[..room])
  {
    StuffHasNoMarks(packet);
    var torn := Frame(packet)[..room];
    assert torn[1..] == Stuff(packet)[..room - 1];
  }

  // ---------------------------------------------------------------- getting

  /** How many segments a get consumes: up to the first whole one, or all. */
  function Consumed(s: seq<Segment>): (n: nat)
    ensures n <= |s|
    ensures Messages(s) != [] ==> n > 0 && s[n - 1].Whole?
    ensures Messages(s) == [] ==> n == |s|
  {
    if s == [] then 0
    else if s[0].Whole? then 1
    else 1 + Consumed(s[1..])
  }

  function AfterGet(s: seq<Segment>): seq<Segment> {
    s[Consumed(s)..]
  }

  /** The bytes before the first 0x7F, and what a parser makes of them: the oldest
      message, whatever torn frames lie in front of it. */
  lemma {:induction false} GetSegments(s: seq<Segment>, p: Parser, cap: nat) returns (before: seq<Byte>)
    requires Legal(s) && Messages(s) != []
    ensures RingBytes(s) == before + [END] + RingBytes(AfterGet(s))
    ensures END !in before
    ensures FeedAll(p, before, cap).data == Clip(Messages(s)[0], cap)
    ensures Messages(AfterGet(s)) == Messages(s)[1..]
    ensures Legal(AfterGet(s))
  {
    if s[0].Whole? {
      before := GetWhole(s, p, cap);
    } else {
      var torn := s[0].bytes;
      TornFirst(s);
      hide Consumed, AfterGet, RingBytes, Messages, Legal, Clip, FeedAll;
      var rest := GetSegments(s[1..], FeedAll(p, torn, cap), cap);
      before := torn + rest;
      FeedAllConcat(p, torn, rest, cap);
      Regroup(torn, rest, RingBytes(AfterGet(s)));
    }
  }

  lemma Regroup(torn: seq<Byte>, rest: seq<Byte>, tail: seq<Byte>)
    ensures torn + (rest + [END] + tail) == torn + rest + [END] + tail
    ensures END !in torn && END !in rest ==> END !in torn + rest
  {
  }

  lemma GetWhole(s: seq<Segment>, p: Parser, cap: nat) returns (before: seq<Byte>)
    requires Legal(s) && s != [] && s[0].Whole?
    ensures Messages(s) != [] && RingBytes(s) == before + [END] + RingBytes(AfterGet(s))
    ensures END !in before
    ensures FeedAll(p, before, cap).data == Clip(Messages(s)[0], cap)
    ensures Messages(AfterGet(s)) == Messages(s)[1..] && Legal(AfterGet(s))
  {
    var m := s[0].message;
    before := [BEGIN] + Stuff(m);
    StuffHasNoMarks(m);
    FrameParses(p, [], m, cap);
    hide FeedAll, Stuff;
    assert [] + before == before;
    assert AfterGet(s) == s[1..];
  }

  /** A torn frame in front changes nothing but the bytes. */
  lemma TornFirst(s: seq<Segment>)
    requires Legal(s) && s != [] && s[0].Torn?
    ensures Legal(s[1..]) && END !in s[0].bytes && Messages(s) == Messages(s[1..])
    ensures RingBytes(s) == s[0].bytes + RingBytes(s[1..])
    ensures AfterGet(s) == AfterGet(s[1..])
  {
  }

  /** Without a whole frame there is no 0x7F to stop at. */
  lemma {:induction false} NoMessageNoEnd(s: seq<Segment>)
    requires Legal(s) && Messages(s) == []
    ensures END !in RingBytes(s)
  {
    if s != [] {
      NoMessageNoEnd(s[1..]);
    }
  }

  // ---------------------------------------------------------------- whole runs

  datatype Op = PutOp(packet: seq<Byte>) | GetOp

  /** The ring, the messages accepted so far, and the messages handed out so far. */
  datatype History = History(ring: seq<Segment>, accepted: seq<seq<Byte>>, taken: seq<seq<Byte>>)

  function Apply(h: History, op: Op, size: nat): History {
    match op
    case PutOp(packet) =>
      var room := Max(0, size - |RingBytes(h.ring)|);
      History(AfterPut(h.ring, packet, room),
              if |Frame(packet)| <= room then h.accepted + [packet] else h.accepted, h.taken)
    case GetOp =>
      History(AfterGet(h.ring), h.accepted,
              if Messages(h.ring) == [] then h.taken else h.taken + [Messages(h.ring)[0]])
  }

  function ApplyAll(h: History, ops: seq<Op>, size: nat): History
    decreases |ops|
  {
    if ops == [] then h else ApplyAll(Apply(h, ops[0], size), ops[1..], size)
  }

  ghost predicate Faithful(h: History, size: nat) {
    Legal(h.ring) && |RingBytes(h.ring)| <= size && h.accepted == h.taken + Messages(h.ring)
  }

  lemma NothingToGet(s: seq<Segment>)
    requires Messages(s) == []
    ensures AfterGet(s) == [] && Legal([]) && RingBytes([]) == [] && Messages([]) == []
  {
  }

  lemma ApplyKeeps(h: History, op: Op, size: nat)
    requires Faithful(h, size)
    ensures Faithful(Apply(h, op, size), size)
  {
    hide Legal, RingBytes, AfterPut, AfterGet, Messages, Frame, FeedAll;
    match op
    case PutOp(packet) =>
      PutSegments(h.ring, packet, size - |RingBytes(h.ring)|);
    case GetOp =>
      if Messages(h.ring) == [] {
        NothingToGet(h.ring);
      } else {
        var before := GetSegments(h.ring, Parser([], false, false), 0);
        assert Messages(h.ring) == [Messages(h.ring)[0]] + Messages(AfterGet(h.ring));
      }
  }

  /** Over any run of puts, some of which fail, and gets: what the gets have handed out,
      followed by what the ring still holds, is what was accepted, in order. */
  lemma {:induction false} Fifo(h: History, ops: seq<Op>, size: nat)
    requires Faithful(h, size)
    ensures Faithful(ApplyAll(h, ops, size), size)
    decreases |ops|
  {
    if ops != [] {
      ApplyKeeps(h, ops[0], size);
      Fifo(Apply(h, ops[0], size), ops[1..], size);
    }
  }

  // ---------------------------------------------------------------- evicting to make room

  /** The bytes that each get frees: a whole frame with the torn ones in front of it. */
  function Gaps(s: seq<Segment>): (g: seq<nat>)
    ensures |g| == |Messages(s)|
  {
    if s == [] then []
    else if s[0].Whole? then [|Frame(s[0].message)|] + Gaps(s[1..])
    else
      var g := Gaps(s[1..]);
      if g == [] then [] else [|s[0].bytes| + g[0]] + g[1..]
  }

  lemma {:induction false} GapsIgnoreLastTorn(s: seq<Segment>, b: seq<Byte>)
    ensures Gaps(s + [Torn(b)]) == Gaps(s)
  {
    if s == [] {
      assert [Torn(b)][1..] == [];
    } else {
      assert (s + [Torn(b)])[1..] == s[1..] + [Torn(b)];
      GapsIgnoreLastTorn(s[1..], b);
    }
  }

  lemma {:induction false} GapsAfterGet(s: seq<Segment>)
    requires Messages(s) != []
    ensures Gaps(AfterGet(s)) == Gaps(s)[1..]
    ensures |RingBytes(s)| == Gaps(s)[0] + |RingBytes(AfterGet(s))|
    ensures Messages(AfterGet(s)) == Messages(s)[1..]
  {
    if s[0].Whole? {
    } else {
      assert AfterGet(s) == AfterGet(s[1..]);
      GapsAfterGet(s[1..]);
    }
  }

  /** What putting with eviction does: did the packet go in, what the ring holds then,
      and how many messages were taken out. */
  datatype Eviction = Eviction(ok: bool, ring: seq<Segment>, evicted: nat)

  /** The loop of `MQTT_Publish`: put; while that fails, get; when that fails too, give up. */
  function Evict(s: seq<Segment>, packet: seq<Byte>, size: nat): Eviction
    decreases |Messages(s)|
  {
    var room := Max(0, size - |RingBytes(s)|);
    var t := AfterPut(s, packet, room);
    if |Frame(packet)| <= room then Eviction(true, t, 0)
    else if Messages(t) == [] then Eviction(false, [], 0)
    else
      FailedPutKeeps(s, packet, room);
      GapsAfterGet(t);
      var r := Evict(AfterGet(t), packet, size);
      r.(evicted := r.evicted + 1)
  }

  lemma FailedPutKeeps(s: seq<Segment>, packet: seq<Byte>, room: nat)
    requires |Frame(packet)| > room
    ensures Messages(AfterPut(s, packet, room)) == Messages(s)
    ensures Gaps(AfterPut(s, packet, room)) == Gaps(s)
  {
    if room > 0 {
      GapsIgnoreLastTorn(s, Frame(packet)[..room]);
      SegmentsConcat(s, [Torn(Frame(packet)[..room])]);
      assert [Torn(Frame(packet)[..room])][1..] == [];
    }
  }

  /** Some gap is at least `n` long. */
  ghost predicate SomeGap(g: seq<nat>, n: nat) {
    exists i :: 0 <= i < |g| && n <= g[i]
  }

  /** One round of the loop: a failed put fills the ring, so that the get leaves exactly
      the first gap free. */
  lemma EvictRound(s: seq<Segment>, packet: seq<Byte>, size: nat) returns (u: seq<Segment>)
    requires Legal(s) && |RingBytes(s)| <= size && |Frame(packet)| > size - |RingBytes(s)| && Messages(s) != []
    ensures u == AfterGet(AfterPut(s, packet, size - |RingBytes(s)|))
    ensures Legal(u) && |RingBytes(u)| == size - Gaps(s)[0]
    ensures Messages(u) == Messages(s)[1..] && Gaps(u) == Gaps(s)[1..]
    ensures var r := Evict(u, packet, size); Evict(s, packet, size) == r.(evicted := r.evicted + 1)
  {
    hide Legal, AfterPut, AfterGet, RingBytes, Messages, Gaps, Frame, FeedAll, Evict;
    var room := size - |RingBytes(s)|;
    var t := AfterPut(s, packet, room);
    PutSegments(s, packet, room);
    FailedPutKeeps(s, packet, room);
    var before := GetSegments(t, Parser([], false, false), 0);
    GapsAfterGet(t);
    EvictAgain(s, packet, size);
    u := AfterGet(t);
  }

  /** The loop's second branch, by itself. */
  lemma EvictAgain(s: seq<Segment>, packet: seq<Byte>, size: nat)
    requires |RingBytes(s)| <= size && |Frame(packet)| > size - |RingBytes(s)| && Messages(s) != []
    ensures var r := Evict(AfterGet(AfterPut(s, packet, size - |RingBytes(s)|)), packet, size);
      Evict(s, packet, size) == r.(evicted := r.evicted + 1)
  {
    hide AfterPut, AfterGet, RingBytes, Messages, Gaps, Frame;
    FailedPutKeeps(s, packet, size - |RingBytes(s)|);
  }

  lemma EvictStops(s: seq<Segment>, packet: seq<Byte>, size: nat)
    requires Legal(s) && |RingBytes(s)| <= size
    ensures var room := size - |RingBytes(s)|;
      && (|Frame(packet)| <= room ==> Evict(s, packet, size) == Eviction(true, AfterPut(s, packet, room), 0))
      && (|Frame(packet)| > room && Messages(s) == [] ==> Evict(s, packet, size) == Eviction(false, [], 0))
  {
    hide AfterPut, RingBytes, Messages, Gaps, Frame, Legal;
    FailedPutEmpty(s, packet, size - |RingBytes(s)|);
  }

  lemma FailedPutEmpty(s: seq<Segment>, packet: seq<Byte>, room: nat)
    ensures |Frame(packet)| > room ==> Messages(AfterPut(s, packet, room)) == Messages(s)
  {
    if |Frame(packet)| > room {
      FailedPutKeeps(s, packet, room);
    }
  }

  /** The ring stays legal and in bounds. On success the messages are the old ones without
      the oldest, then the new one; on failure the ring is empty. */
  lemma {:induction false} EvictOldestFirst(s: seq<Segment>, packet: seq<Byte>, size: nat)
    requires Legal(s) && |RingBytes(s)| <= size
    ensures var r := Evict(s, packet, size);
      && Legal(r.ring) && |RingBytes(r.ring)| <= size && r.evicted <= |Messages(s)|
      && (if r.ok then Messages(r.ring) == Messages(s)[r.evicted..] + [packet] else r.ring == [])
    decreases |Messages(s)|
  {
    hide Evict;
    EvictStops(s, packet, size);
    if |Frame(packet)| <= size - |RingBytes(s)| {
      PutSegments(s, packet, size - |RingBytes(s)|);
    } else if Messages(s) != [] {
      var u := EvictRound(s, packet, size);
      EvictOldestFirst(u, packet, size);
      var k := Evict(u, packet, size).evicted;
      assert Messages(s)[1..][k..] == Messages(s)[k + 1..];
    }
  }

  /**
   The packet goes in exactly when its frame fits at once, or fits into one of the gaps
   that gets leave. A frame that would fit an empty ring can therefore be refused: the
   torn frames of the attempts before fill the space between the gaps. No more messages
   are evicted than needed.
   */
  lemma {:induction false} EvictSucceedsIff(s: seq<Segment>, packet: seq<Byte>, size: nat)
    requires Legal(s) && |RingBytes(s)| <= size
    ensures var r := Evict(s, packet, size);
      var need, room, g := |Frame(packet)|, size - |RingBytes(s)|, Gaps(s);
      && (r.ok <==> need <= room || SomeGap(g, need))
      && (r.ok ==> (r.evicted == 0 <==> need <= room) && r.evicted <= |g|)
      && (r.ok && r.evicted > 0 ==> need <= g[r.evicted - 1])
      && (r.ok ==> forall i | 0 <= i < r.evicted - 1 :: g[i] < need)
    decreases |Messages(s)|
  {
    hide Evict, AfterPut, AfterGet, RingBytes, Messages, Gaps, Frame, Legal;
    var need, g := |Frame(packet)|, Gaps(s);
    EvictStops(s, packet, size);
    if need > size - |RingBytes(s)| && g != [] {
      var u := EvictRound(s, packet, size);
      EvictSucceedsIff(u, packet, size);
      var r := Evict(u, packet, size);
      assert g == [g[0]] + Gaps(u);
      if SomeGap(g, need) && need > g[0] {
        var i :| 0 <= i < |g| && need <= g[i];
        assert need <= Gaps(u)[i - 1];
      }
    }
  }

  /** Octets that need no stuffing. */
  lemma {:induction false} PlainFrame(packet: seq<Byte>)
    requires forall i | 0 <= i < |packet| :: !Special(packet[i])
    ensures |Frame(packet)| == |packet| + 2
    decreases |packet|
  {
    if packet != [] {
      PlainFrame(packet[1..]);
    }
  }
}
