/**
 The MQTT client's receive loop and what it queues, over values. A received segment may
 hold several packets; the loop goes round once for each PUBLISH.
 */
module MqttSession {
  import opened Bytes
  import opened Wrappers
  import opened MqttFrames
  import opened MqttMsg
  import D = MqttDecode

  const BUF_SIZE := 1024
  const QUEUE_SIZE := 2048

  // ---------------------------------------------------------------- the queue

  /** How a message left the queue. */
  datatype Exit = Sent(message: seq<Byte>) | Evicted(message: seq<Byte>)

  /** The ring, the encoder's identifier counter, and the histories: the identifiers that
      the counter gave out for this connection, the messages that puts accepted, and those
      that have left the queue. */
  datatype Outbox = Outbox(
    ring: seq<Segment>, messageId: nat, ids: seq<nat>, accepted: seq<seq<Byte>>, gone: seq<Exit>)

  function Room(o: Outbox): nat {
    Max(0, QUEUE_SIZE - |RingBytes(o.ring)|)
  }

  function EvictAll(ms: seq<seq<Byte>>): seq<Exit> {
    seq(|ms|, i requires 0 <= i < |ms| => Evicted(ms[i]))
  }

  /** Puts with eviction, as every API call does. */
  function Enqueue(o: Outbox, packet: seq<Byte>): Outbox {
    var r := Evict(o.ring, packet, QUEUE_SIZE);
    var held := Messages(o.ring);
    o.(ring := r.ring, accepted := if r.ok then o.accepted + [packet] else o.accepted,
       gone := o.gone + EvictAll(if r.ok && r.evicted <= |held| then held[..r.evicted] else held))
  }

  /** Puts without eviction, as the receive callback does. */
  function Reply(o: Outbox, packet: seq<Byte>): Outbox {
    o.(ring := AfterPut(o.ring, packet, Room(o)),
       accepted := if |Frame(packet)| <= Room(o) then o.accepted + [packet] else o.accepted)
  }

  /** The counter gives out its next identifier. */
  function TakeId(o: Outbox): Outbox {
    o.(messageId := NextId(o.messageId), ids := o.ids + [NextId(o.messageId)])
  }

  function AfterId(o: Outbox, taken: bool): Outbox {
    if taken then TakeId(o) else o
  }

  /** An acknowledgement; identifier 0 makes the encoder assign a new one. */
  function ReplyId(o: Outbox, kind: nat, qos: nat, id: nat): Outbox {
    var t := AfterId(o, id == 0);
    Reply(t, Packet(FirstByte(kind, 0, qos, 0), U16(if id == 0 then t.messageId else id)))
  }

  /** Takes the oldest message out, to send it. */
  function TakeOldest(o: Outbox): Outbox {
    var ms := Messages(o.ring);
    o.(ring := AfterGet(o.ring), gone := if ms == [] then o.gone else o.gone + [Sent(ms[0])])
  }

  function ExitMessages(x: seq<Exit>): seq<seq<Byte>> {
    seq(|x|, i requires 0 <= i < |x| => x[i].message)
  }

  /** What was accepted is what has left, in the order in which it left, and then what
      the ring holds; nothing is longer than the buffer it was encoded in. */
  ghost predicate Kept(o: Outbox) {
    && Legal(o.ring) && |RingBytes(o.ring)| <= QUEUE_SIZE
    && o.accepted == ExitMessages(o.gone) + Messages(o.ring)
    && forall i | 0 <= i < |o.accepted| :: |o.accepted[i]| <= BUF_SIZE
  }

  lemma KeptAnyId(o: Outbox, id: nat, ids: seq<nat>)
    requires Kept(o)
    ensures Kept(o.(messageId := id, ids := ids))
  {
  }

  lemma ExitsOf(gone: seq<Exit>, out: seq<seq<Byte>>)
    ensures ExitMessages(gone + EvictAll(out)) == ExitMessages(gone) + out
  {
  }

  lemma NoMessages()
    ensures Messages([]) == []
  {
  }

  /** The histories after a put with eviction, whose outcome is `r`. */
  lemma EnqueueHistory(o: Outbox, packet: seq<Byte>, r: Eviction)
    requires o.accepted == ExitMessages(o.gone) + Messages(o.ring) && r == Evict(o.ring, packet, QUEUE_SIZE)
    requires r.evicted <= |Messages(o.ring)|
    requires if r.ok then Messages(r.ring) == Messages(o.ring)[r.evicted..] + [packet] else r.ring == []
    ensures var e := Enqueue(o, packet); e.accepted == ExitMessages(e.gone) + Messages(e.ring)
  {
    hide Evict, RingBytes, Messages, ExitMessages, EvictAll;
    NoMessages();
    var held := Messages(o.ring);
    var k := if r.ok then r.evicted else |held|;
    assert r.ok || held[..k] == held;
    ExitsOf(o.gone, held[..k]);
    Moved(ExitMessages(o.gone), held, k, packet);
  }

  /** Elements that move from the front of the second list to the end of the first. */
  lemma Moved(gone: seq<seq<Byte>>, held: seq<seq<Byte>>, k: nat, packet: seq<Byte>)
    requires k <= |held|
    ensures gone + held + [packet] == gone + held[..k] + (held[k..] + [packet])
    ensures k == |held| ==> gone + held == gone + held[..k] + []
  {
  }

  lemma EnqueueRing(o: Outbox, packet: seq<Byte>)
    ensures var e, r := Enqueue(o, packet), Evict(o.ring, packet, QUEUE_SIZE);
      && e == o.(ring := r.ring, accepted := e.accepted, gone := e.gone)
      && (e.accepted == o.accepted || e.accepted == o.accepted + [packet])
  {
    hide Evict, Messages, EvictAll;
  }

  lemma EnqueueKeeps(o: Outbox, packet: seq<Byte>)
    requires Kept(o) && |packet| <= BUF_SIZE
    ensures Kept(Enqueue(o, packet))
  {
    hide Evict, Legal, RingBytes, Messages, ExitMessages, EvictAll, Enqueue;
    EvictOldestFirst(o.ring, packet, QUEUE_SIZE);
    EnqueueHistory(o, packet, Evict(o.ring, packet, QUEUE_SIZE));
    EnqueueRing(o, packet);
  }

  /** A packet whose frame fits an empty queue is refused all the same: its own failed
      attempts leave torn frames between the gaps. */
  lemma FittingPacketRefused()
    ensures var message: seq<Byte>, packet: seq<Byte> := seq(1000, _ => 0), seq(1020, _ => 0);
      var ring := [Whole(message), Whole(message)];
      && |packet| <= BUF_SIZE && |Frame(packet)| <= QUEUE_SIZE
      && Legal(ring) && |RingBytes(ring)| <= QUEUE_SIZE && !Evict(ring, packet, QUEUE_SIZE).ok
  {
    var message: seq<Byte>, packet: seq<Byte> := seq(1000, _ => 0), seq(1020, _ => 0);
    var ring := [Whole(message), Whole(message)];
    PlainFrame(message);
    PlainFrame(packet);
    hide Frame, Evict;
    assert ring[1..] == [Whole(message)] && ring[1..][1..] == [];
    assert RingBytes(ring[1..]) == Frame(message) + [];
    assert Gaps(ring[1..]) == [1002] && Gaps(ring) == [1002, 1002];
    EvictSucceedsIff(ring, packet, QUEUE_SIZE);
  }

  lemma ReplyKeeps(o: Outbox, packet: seq<Byte>)
    requires Kept(o) && |packet| <= BUF_SIZE
    ensures Kept(Reply(o, packet))
  {
    PutSegments(o.ring, packet, Room(o));
    hide Frame, Legal, RingBytes, Messages, AfterPut;
  }

  lemma ReplyIdKeeps(o: Outbox, kind: nat, qos: nat, id: nat)
    requires Kept(o)
    ensures Kept(ReplyId(o, kind, qos, id))
  {
    hide Legal, RingBytes, Messages;
    var t := AfterId(o, id == 0);
    KeptAnyId(o, t.messageId, t.ids);
    ReplyKeeps(t, Packet(FirstByte(kind, 0, qos, 0), U16(if id == 0 then t.messageId else id)));
  }

  lemma TakeOldestKeeps(o: Outbox)
    requires Kept(o)
    ensures Kept(TakeOldest(o))
  {
    hide Legal, RingBytes, Messages, AfterGet, ExitMessages, FeedAll;
    if Messages(o.ring) == [] {
      NothingToGet(o.ring);
    } else {
      var before := GetSegments(o.ring, Parser([], false, false), 0);
      var m := Messages(o.ring)[0];
      OneSent(o.gone, m);
      assert Messages(o.ring) == [m] + Messages(AfterGet(o.ring));
    }
  }

  lemma OneSent(gone: seq<Exit>, m: seq<Byte>)
    ensures ExitMessages(gone + [Sent(m)]) == ExitMessages(gone) + [m]
  {
  }

  // ---------------------------------------------------------------- one packet

  /** One call of the data callback; NULL pointers are None. */
  datatype Delivery = Delivery(topic: Option<seq<Byte>>, topicLength: nat,
                               payload: Option<seq<Byte>>, payloadLength: nat)

  function Slice(b: seq<Byte>, r: Option<(nat, nat)>): Option<seq<Byte>> {
    match r
    case None => None
    case Some(p) => if p.0 + p.1 <= |b| then Some(b[p.0..p.0 + p.1]) else None
  }

  /** `deliver_publish`: a NULL topic leaves the length as it was given. */
  function Deliver(b: seq<Byte>, length: nat): Delivery
    requires length <= |b|
  {
    var t, d := D.Topic(b, length), D.Payload(b, length);
    Delivery(Slice(b, t), if t.Some? then t.value.1 else length,
             Slice(b, d), if d.Some? then d.value.1 else 0)
  }

  /** What a packet queues once the connection carries data. */
  function Dispatch(o: Outbox, b: seq<Byte>): Outbox
    requires b != []
  {
    var kind, qos, id := TypeOf(b[0]), QosOf(b[0]), D.Id(b, |b|);
    if kind == PUBLISH && qos == 1 then ReplyId(o, PUBACK, 0, id)
    else if kind == PUBLISH && qos == 2 then ReplyId(o, PUBREC, 0, id)
    else if kind == PUBREC then ReplyId(o, PUBREL, 1, id)
    else if kind == PUBREL then ReplyId(o, PUBCOMP, 0, id)
    else if kind == PINGREQ then Reply(o, Packet(FirstByte(PINGRESP, 0, 0, 0), []))
    else o
  }

  lemma DispatchKeeps(o: Outbox, b: seq<Byte>)
    requires Kept(o) && b != []
    ensures Kept(Dispatch(o, b))
  {
    var id := D.Id(b, |b|);
    hide Kept, D.Id, ReplyId, Reply;
    ReplyIdKeeps(o, PUBACK, 0, id);
    ReplyIdKeeps(o, PUBREC, 0, id);
    ReplyIdKeeps(o, PUBREL, 1, id);
    ReplyIdKeeps(o, PUBCOMP, 0, id);
    ReplyKeeps(o, Packet(FirstByte(PINGRESP, 0, 0, 0), []));
  }

  /** The total length of the first packet, as the uint16 it is kept in. */
  function MessageLength(b: seq<Byte>, length: nat): nat
    requires length <= |b|
  {
    D.TotalLength(b, length) % 0x1_0000
  }

  // ---------------------------------------------------------------- the receive loop

  /** The loop's state: the queue, the receive buffer, the data callbacks made so far,
      and the part of the segment still to read; None once the loop is left. */
  datatype Loop = Loop(out: Outbox, inBuf: seq<Byte>, calls: seq<Delivery>, rest: Option<seq<Byte>>)

  /** One round from READPACKET on, in state MQTT_DATA or MQTT_KEEPALIVE_SEND. */
  function Round(l: Loop): (r: Loop)
    requires |l.inBuf| == BUF_SIZE
    ensures |r.inBuf| == BUF_SIZE
    ensures r.rest.Some? ==> l.rest.Some? && |r.rest.value| <= |l.rest.value|
  {
    if l.rest.None? || |l.rest.value| == 0 || |l.rest.value| >= BUF_SIZE then l.(rest := None)
    else
      var seg := l.rest.value;
      var b := seg + l.inBuf[|seg|..];
      var out := Dispatch(l.out, b);
      if TypeOf(b[0]) != PUBLISH then Loop(out, b, l.calls, None)
      else
        var total := MessageLength(b, |seg|);
        Loop(out, b, l.calls + [Deliver(b, |seg|)], if total < |seg| then Some(seg[total..]) else None)
  }

  function Rounds(l: Loop, n: nat): (r: Loop)
    requires |l.inBuf| == BUF_SIZE
    ensures |r.inBuf| == BUF_SIZE
    decreases n
  {
    if n == 0 then l else Rounds(Round(l), n - 1)
  }

  /** All rounds; a loop that does not advance goes round for ever, and is left in one of
      these rounds. */
  function ReadAll(l: Loop): (r: Loop)
    requires |l.inBuf| == BUF_SIZE
    ensures |r.inBuf| == BUF_SIZE
    decreases if l.rest.Some? then 1 + |l.rest.value| else 0
  {
    if l.rest.None? then l
    else
      var r := Round(l);
      if r.rest.Some? && |r.rest.value| == |l.rest.value| then r else ReadAll(r)
  }

  /** A round that does not advance changes nothing that the next one decides by. */
  lemma RoundAgain(l: Loop)
    requires |l.inBuf| == BUF_SIZE && l.rest.Some? && Round(l).rest == l.rest
    ensures Round(Round(l)).rest == l.rest && |Round(l).calls| == |l.calls| + 1
  {
    var seg, r := l.rest.value, Round(l);
    var b := seg + l.inBuf[|seg|..];
    assert r.inBuf == b;
    assert seg + b[|seg|..] == b;
    hide MessageLength, Deliver, Dispatch;
  }

  lemma {:induction false} SameAgain(l: Loop, n: nat)
    requires |l.inBuf| == BUF_SIZE && l.rest.Some? && Round(l).rest == l.rest
    ensures Rounds(l, n).rest == l.rest
    ensures |Rounds(l, n).calls| == |l.calls| + n
    decreases n
  {
    hide Round;
    if n > 0 {
      RoundAgain(l);
      SameAgain(Round(l), n - 1);
    }
  }

  lemma {:induction false} LoopLeft(l: Loop, n: nat)
    requires |l.inBuf| == BUF_SIZE && l.rest.None?
    ensures Rounds(l, n) == l
  {
    if n > 0 {
      LoopLeft(l, n - 1);
    }
  }

  /** `ReadAll` is what the rounds come to: it is reached after at most one round for each
      byte; and from a state with something left to read no number of rounds ends the loop. */
  lemma {:induction false} ReadAllIsTheLoop(l: Loop, n: nat)
    requires |l.inBuf| == BUF_SIZE
    ensures ReadAll(l).rest.None? && l.rest.Some? && n >= 1 + |l.rest.value| ==> Rounds(l, n) == ReadAll(l)
    ensures ReadAll(l).rest.Some? ==> Rounds(l, n).rest.Some?
    decreases n
  {
    hide Round;
    RoundShrinks(l);
    if l.rest.Some? && n > 0 {
      var r := Round(l);
      if r.rest.Some? && |r.rest.value| == |l.rest.value| {
        assert r.rest == l.rest by {
          NoAdvance(l);
        }
        SameAgain(l, n);
      } else {
        ReadAllIsTheLoop(r, n - 1);
        if r.rest.None? {
          LoopLeft(r, n - 1);
        }
      }
    }
  }

  lemma RoundShrinks(l: Loop)
    requires |l.inBuf| == BUF_SIZE
    ensures Round(l).rest.Some? ==> l.rest.Some? && |Round(l).rest.value| <= |l.rest.value|
  {
  }

  lemma NoAdvance(l: Loop)
    requires |l.inBuf| == BUF_SIZE && l.rest.Some?
    requires Round(l).rest.Some? && |Round(l).rest.value| == |l.rest.value|
    ensures Round(l).rest == l.rest
  {
  }

  lemma {:induction false} ReadAllKeeps(l: Loop)
    requires |l.inBuf| == BUF_SIZE && Kept(l.out)
    ensures Kept(ReadAll(l).out)
    decreases if l.rest.Some? then 1 + |l.rest.value| else 0
  {
    if l.rest.Some? {
      RoundKeeps(l);
      var r := Round(l);
      if !(r.rest.Some? && |r.rest.value| == |l.rest.value|) {
        ReadAllKeeps(r);
      }
    }
  }

  lemma RoundKeeps(l: Loop)
    requires |l.inBuf| == BUF_SIZE && Kept(l.out)
    ensures Kept(Round(l).out)
  {
    hide Kept, Dispatch, MessageLength, Deliver;
    if l.rest.Some? && 0 < |l.rest.value| < BUF_SIZE {
      DispatchKeeps(l.out, l.rest.value + l.inBuf[|l.rest.value|..]);
    }
  }

  // ---------------------------------------------------------------- when the loop ends

  /** Somewhere along its PUBLISH packets the segment has one whose length is 0 as a
      uint16. */
  predicate Stalls(seg: seq<Byte>)
    decreases |seg|
  {
    && 0 < |seg| < BUF_SIZE && TypeOf(seg[0]) == PUBLISH
    && var total := MessageLength(seg, |seg|);
      total == 0 || (total < |seg| && Stalls(seg[total..]))
  }

  /** Where a round goes on depends on the segment alone, not on what the buffer held. */
  lemma RoundOn(l: Loop, seg: seq<Byte>)
    requires |l.inBuf| == BUF_SIZE && l.rest == Some(seg) && 0 < |seg| < BUF_SIZE
    ensures var total := MessageLength(seg, |seg|);
      Round(l).rest ==
        if TypeOf(seg[0]) == PUBLISH && total < |seg| then Some(seg[total..]) else None
  {
    var b := seg + l.inBuf[|seg|..];
    assert b[..|seg|] == seg == seg[..|seg|];
    D.TotalReadsPrefix(b, seg, |seg|);
    hide Dispatch, Deliver, D.TotalLength, TypeOf;
  }

  lemma {:induction false} ReadAllStallsIff(l: Loop)
    requires |l.inBuf| == BUF_SIZE && l.rest.Some?
    ensures ReadAll(l).rest.Some? <==> Stalls(l.rest.value)
    decreases |l.rest.value|
  {
    var seg := l.rest.value;
    ReadAllRound(l);
    if 0 < |seg| < BUF_SIZE {
      RoundOn(l, seg);
      hide Round, ReadAll, MessageLength, TypeOf;
      var r := Round(l);
      if r.rest.None? {
        ReadAllDone(r);
      } else if |r.rest.value| < |seg| {
        ReadAllStallsIff(r);
      }
    } else {
      ReadAllDone(Round(l));
    }
  }

  /**
   Whatever the queue and the receive buffer hold, the receive loop ends exactly when
   none of the PUBLISH packets that it comes to has a total length that is a multiple of
   65536; and then it does so after at most one round for each byte.
   */
  lemma LoopEndsIff(l: Loop)
    requires |l.inBuf| == BUF_SIZE && l.rest.Some?
    ensures (exists n: nat :: Rounds(l, n).rest.None?) <==> !Stalls(l.rest.value)
    ensures !Stalls(l.rest.value) ==> Rounds(l, 1 + |l.rest.value|) == ReadAll(l)
  {
    ReadAllStallsIff(l);
    hide Stalls, ReadAll, Rounds;
    if Stalls(l.rest.value) {
      forall n: nat
        ensures Rounds(l, n).rest.Some?
      {
        ReadAllIsTheLoop(l, n);
      }
    } else {
      ReadAllIsTheLoop(l, 1 + |l.rest.value|);
    }
  }

  /** Four bytes that say they are a PUBLISH of 65536 keep the loop going for ever. */
  lemma ReceiveNeverEnds(l: Loop, n: nat)
    requires |l.inBuf| == BUF_SIZE && l.rest == Some([0x30, 0xFC, 0xFF, 0x03])
    ensures Rounds(l, n).rest.Some?
  {
    var seg := l.rest.value;
    assert D.Shift7(127, 1) == 127 * 128;
    assert D.Shift7(3, 2) == 3 * 16384;
    assert D.ScanFrom(seg, 4, 3, 124 + 127 * 128) == D.Scan(65532, 4);
    assert D.ScanFrom(seg, 4, 2, 124) == D.Scan(65532, 4);
    assert D.ScanFrom(seg, 4, 1, 0) == D.Scan(65532, 4);
    assert MessageLength(seg, 4) == 0;
    LoopEndsIff(l);
    hide Rounds;
  }

  // ---------------------------------------------------------------- coalesced PUBLISH packets

  datatype Pub = Pub(topic: seq<Byte>, qos: nat, retain: nat, id: nat, payload: seq<Byte>)

  function PubBytes(p: Pub): seq<Byte> {
    PublishPacket(p.topic, p.qos, p.retain, p.id, p.payload)
  }

  ghost predicate GoodPub(p: Pub) {
    p.topic != [] && p.qos < 4 && p.id < 0x1_0000 && (p.qos > 0 ==> p.id > 0)
  }

  /** A packet in a segment: a PUBLISH, or any other. */
  datatype Arrival = Message(pub: Pub) | Other(bytes: seq<Byte>)

  function ArrivalBytes(a: Arrival): seq<Byte> {
    match a
    case Message(p) => PubBytes(p)
    case Other(bytes) => bytes
  }

  /** PUBREC and PUBREL have their identifier. */
  ghost predicate GoodArrival(a: Arrival) {
    match a
    case Message(p) => GoodPub(p)
    case Other(bytes) =>
      && bytes != [] && TypeOf(bytes[0]) != PUBLISH
      && (TypeOf(bytes[0]) in {PUBREC, PUBREL} ==> |bytes| >= 4)
  }

  function SegmentOf(arrivals: seq<Arrival>): seq<Byte> {
    if arrivals == [] then [] else ArrivalBytes(arrivals[0]) + SegmentOf(arrivals[1..])
  }

  /** The packets up to the first that is no PUBLISH, that one included. */
  function Reached(arrivals: seq<Arrival>): (k: nat)
    ensures k <= |arrivals|
  {
    if arrivals == [] then 0 else if arrivals[0].Other? then 1 else 1 + Reached(arrivals[1..])
  }

  function Published(arrivals: seq<Arrival>): seq<Pub> {
    if arrivals == [] then []
    else (if arrivals[0].Message? then [arrivals[0].pub] else []) + Published(arrivals[1..])
  }

  /** This call of the callback hands over this message. With an empty payload the data
      pointer may be NULL. */
  ghost predicate HandsOver(d: Delivery, p: Pub) {
    && d.topic == Some(p.topic) && d.topicLength == |p.topic|
    && d.payloadLength == |p.payload|
    && (if d.payload.Some? then d.payload.value == p.payload else p.payload == [])
  }

  ghost predicate HandsOverAll(calls: seq<Delivery>, pubs: seq<Pub>) {
    |calls| == |pubs| && forall i | 0 <= i < |pubs| :: HandsOver(calls[i], pubs[i])
  }

  /** The acknowledgement that the client queues for a message, octet by octet: a PUBACK,
      or a PUBREC. */
  function Ack(o: Outbox, p: Pub): Outbox {
    if p.qos == 1 then Reply(o, [0x40, 2, p.id / 256 % 256, p.id % 256])
    else if p.qos == 2 then Reply(o, [0x50, 2, p.id / 256 % 256, p.id % 256])
    else o
  }

  /** Four octets that carry on an identifier; for identifier 0 the counter gives a new one. */
  function CarryOn(o: Outbox, first: Byte, hi: Byte, lo: Byte): Outbox {
    if hi != 0 || lo != 0 then Reply(o, [first, 2, hi, lo])
    else
      var t := TakeId(o);
      Reply(t, [first, 2, t.messageId / 256, t.messageId % 256])
  }

  /** What a packet other than PUBLISH makes the client queue: PUBREL for PUBREC, PUBCOMP
      for PUBREL, PINGRESP for PINGREQ, and nothing for all others. A length of more than
      one octet hides the identifier. */
  function Response(o: Outbox, bytes: seq<Byte>): Outbox
    requires GoodArrival(Other(bytes))
  {
    var kind := bytes[0] / 16;
    if kind == 12 then Reply(o, [0xD0, 0])
    else if kind != 5 && kind != 6 then o
    else
      var first := if kind == 5 then 0x62 else 0x70;
      if bytes[1] < 128 then CarryOn(o, first, bytes[2], bytes[3]) else CarryOn(o, first, 0, 0)
  }

  /** What each packet queues, one after the other. */
  function Answers(o: Outbox, arrivals: seq<Arrival>): Outbox
    requires forall i | 0 <= i < |arrivals| :: GoodArrival(arrivals[i])
    decreases |arrivals|
  {
    if arrivals == [] then o else Answers(Answer(o, arrivals[0]), arrivals[1..])
  }

  function Answer(o: Outbox, a: Arrival): Outbox
    requires GoodArrival(a)
  {
    match a
    case Message(p) => Ack(o, p)
    case Other(bytes) => Response(o, bytes)
  }

  /** An acknowledgement is four octets. */
  lemma ReplyIdOctets(o: Outbox, kind: nat, qos: nat, hi: Byte, lo: Byte)
    requires kind < 16 && qos < 4
    ensures ReplyId(o, kind, qos, Be16(hi, lo)) == CarryOn(o, 16 * kind + 2 * qos, hi, lo)
  {
    var id := Be16(hi, lo);
    var t := AfterId(o, id == 0);
    assert FirstByte(kind, 0, qos, 0) == 16 * kind + 2 * qos;
    hide Reply, FirstByte;
    PacketOctets(16 * kind + 2 * qos, hi, lo);
    if id == 0 {
      PacketOctets(16 * kind + 2 * qos, t.messageId / 256, t.messageId % 256);
    }
  }

  lemma PacketOctets(first: Byte, hi: Byte, lo: Byte)
    ensures Packet(first, U16(Be16(hi, lo))) == [first, 2, hi, lo]
  {
  }

  lemma AckOctets(o: Outbox, p: Pub)
    requires GoodPub(p)
    ensures p.qos == 1 ==> ReplyId(o, PUBACK, 0, p.id) == Ack(o, p)
    ensures p.qos == 2 ==> ReplyId(o, PUBREC, 0, p.id) == Ack(o, p)
  {
    var hi, lo := p.id / 256, p.id % 256;
    assert Be16(hi, lo) == p.id;
    hide Reply, ReplyId;
    ReplyIdOctets(o, PUBACK, 0, hi, lo);
    ReplyIdOctets(o, PUBREC, 0, hi, lo);
  }

  /** The answers to packets that are no PUBLISH, octet by octet. */
  lemma DispatchResponds(o: Outbox, bytes: seq<Byte>)
    requires GoodArrival(Other(bytes))
    ensures Dispatch(o, bytes) == Response(o, bytes)
  {
    hide Reply, ReplyId, CarryOn, QosOf, Be16;
    var kind := TypeOf(bytes[0]);
    if kind == PUBREC || kind == PUBREL {
      Be16Zero();
      ReplyIdOctets(o, PUBREL, 1, bytes[2], bytes[3]);
      ReplyIdOctets(o, PUBCOMP, 0, bytes[2], bytes[3]);
      ReplyIdOctets(o, PUBREL, 1, 0, 0);
      ReplyIdOctets(o, PUBCOMP, 0, 0, 0);
    } else if kind == PINGREQ {
      assert Packet(FirstByte(PINGRESP, 0, 0, 0), []) == [0xD0, 0];
    }
  }

  lemma Be16Zero()
    ensures Be16(0, 0) == 0
  {
  }

  /** The second half of either QoS 2 exchange, and the ping, whatever follows in the buffer. */
  lemma ExchangeOctets(o: Outbox, hi: Byte, lo: Byte, behind: seq<Byte>)
    requires hi != 0 || lo != 0
    ensures Dispatch(o, [0x50, 0x02, hi, lo] + behind) == Reply(o, [0x62, 0x02, hi, lo])
    ensures Dispatch(o, [0x62, 0x02, hi, lo] + behind) == Reply(o, [0x70, 0x02, hi, lo])
    ensures Dispatch(o, [0xC0, 0x00] + behind) == Reply(o, [0xD0, 0x00])
  {
    hide Reply, Dispatch;
    DispatchResponds(o, [0x50, 0x02, hi, lo] + behind);
    DispatchResponds(o, [0x62, 0x02, hi, lo] + behind);
    DispatchResponds(o, [0xC0, 0x00] + behind);
  }

  lemma FoundSlice(b: seq<Byte>, r: Option<(nat, nat)>, str: seq<Byte>)
    requires D.Finds(r, b, str)
    ensures Slice(b, r) == Some(str) && r.Some? && r.value.1 == |str|
  {
  }

  lemma PubDecodes(p: Pub, b: seq<Byte>, length: nat)
    requires GoodPub(p) && PubBytes(p) <= b && |PubBytes(p)| <= length < |b| <= BUF_SIZE
    ensures TypeOf(b[0]) == PUBLISH && QosOf(b[0]) == p.qos
    ensures MessageLength(b, length) == |PubBytes(p)|
    ensures p.qos > 0 ==> D.Id(b, |b|) == p.id
    ensures D.Finds(D.Topic(b, length), b, p.topic)
    ensures D.Payload(b, length).None? ==> p.payload == []
    ensures D.Payload(b, length).Some? ==> D.Finds(D.Payload(b, length), b, p.payload)
  {
    hide PublishBody, FirstByte, D.TotalLength, D.Topic, D.Payload, D.Id, D.Finds, TypeOf, QosOf;
    BodyIsShorter(p);
    D.PublishRoundTrip(p.topic, p.qos, p.retain, p.id, p.payload, b, length);
    if p.qos > 0 {
      D.IdRoundTrip(p.topic, p.qos, p.retain, p.id, p.payload, b, |b|);
    }
  }

  lemma BodyIsShorter(p: Pub)
    ensures |PublishBody(p.topic, p.qos, p.id, p.payload)| <= |PubBytes(p)|
  {
    hide PublishBody;
  }

  /** The first packet of a segment is dispatched as the message it encodes. */
  lemma DispatchPub(o: Outbox, p: Pub, b: seq<Byte>, length: nat)
    requires GoodPub(p) && PubBytes(p) <= b && |PubBytes(p)| <= length < |b| <= BUF_SIZE
    ensures HandsOver(Deliver(b, length), p)
    ensures MessageLength(b, length) == |PubBytes(p)| && TypeOf(b[0]) == PUBLISH
    ensures Dispatch(o, b) == Ack(o, p)
  {
    PubDecodes(p, b, length);
    AckOctets(o, p);
    hide PubBytes, GoodPub, MessageLength, D.Topic, D.Payload, D.Id, D.Finds, ReplyId, Slice, Reply;
    FoundSlice(b, D.Topic(b, length), p.topic);
    if D.Payload(b, length).Some? {
      FoundSlice(b, D.Payload(b, length), p.payload);
    } else {
      NoSlice(b);
    }
  }

  lemma NoSlice(b: seq<Byte>)
    ensures Slice(b, None) == None
  {
  }

  lemma SegmentHead(arrivals: seq<Arrival>)
    requires arrivals != [] && GoodArrival(arrivals[0])
    ensures SegmentOf(arrivals) == ArrivalBytes(arrivals[0]) + SegmentOf(arrivals[1..])
    ensures SegmentOf(arrivals)[|ArrivalBytes(arrivals[0])|..] == SegmentOf(arrivals[1..])
    ensures 0 < |ArrivalBytes(arrivals[0])|
  {
  }

  /** One round, on a segment that starts with a PUBLISH. */
  lemma RoundOnPub(l: Loop, p: Pub, rest: seq<Byte>) returns (d: Delivery)
    requires |l.inBuf| == BUF_SIZE && l.rest == Some(PubBytes(p) + rest)
    requires GoodPub(p) && 0 < |PubBytes(p)| && |PubBytes(p) + rest| < BUF_SIZE
    ensures HandsOver(d, p)
    ensures var r := Round(l);
      && r.out == Ack(l.out, p) && r.calls == l.calls + [d]
      && r.rest == (if rest == [] then None else Some(rest))
  {
    var seg := l.rest.value;
    hide PubBytes, HandsOver, GoodPub, Ack, Dispatch, MessageLength, Deliver, TypeOf;
    var b := seg + l.inBuf[|seg|..];
    assert PubBytes(p) <= b;
    DispatchPub(l.out, p, b, |seg|);
    d := Deliver(b, |seg|);
    assert seg[|PubBytes(p)|..] == rest;
  }

  /** A packet that is no PUBLISH queues its answer and ends the loop, whatever follows. */
  lemma RoundOnOther(l: Loop, bytes: seq<Byte>, rest: seq<Byte>)
    requires |l.inBuf| == BUF_SIZE && l.rest == Some(bytes + rest)
    requires GoodArrival(Other(bytes)) && |bytes + rest| < BUF_SIZE
    ensures var r := Round(l); r.out == Response(l.out, bytes) && r.calls == l.calls && r.rest.None?
  {
    var seg := l.rest.value;
    var b := seg + l.inBuf[|seg|..];
    assert bytes <= b;
    DispatchReadsFirst(l.out, bytes, b);
    DispatchResponds(l.out, bytes);
    hide Dispatch, TypeOf, Response;
  }

  /** Of a packet that is no PUBLISH at most the first four octets are looked at. */
  lemma DispatchReadsFirst(o: Outbox, bytes: seq<Byte>, b: seq<Byte>)
    requires GoodArrival(Other(bytes)) && bytes <= b
    ensures Dispatch(o, bytes) == Dispatch(o, b)
  {
    hide ReplyId, Reply, TypeOf, QosOf, Packet, FirstByte, Be16;
    assert b[0] == bytes[0];
    assert |bytes| >= 4 ==> b[1] == bytes[1] && b[2] == bytes[2] && b[3] == bytes[3];
  }

  /** How many rounds the loop makes, if it ends. */
  function RoundCount(l: Loop): nat
    requires |l.inBuf| == BUF_SIZE
    decreases if l.rest.Some? then 1 + |l.rest.value| else 0
  {
    if l.rest.None? then 0
    else
      var r := Round(l);
      if r.rest.Some? && |r.rest.value| == |l.rest.value| then 1 else 1 + RoundCount(r)
  }

  /**
   A segment of complete packets one behind the other. Each PUBLISH up to the first packet
   of another kind calls the data callback, in order, with the topic and the payload that
   were encoded; these packets and that other one queue their answers; everything behind
   it is dropped.
   */
  lemma {:induction false} MixedSegment(l: Loop, arrivals: seq<Arrival>) returns (calls: seq<Delivery>)
    requires |l.inBuf| == BUF_SIZE && l.rest == (if arrivals == [] then None else Some(SegmentOf(arrivals)))
    requires (forall i | 0 <= i < |arrivals| :: GoodArrival(arrivals[i])) && |SegmentOf(arrivals)| < BUF_SIZE
    ensures var seen := arrivals[..Reached(arrivals)];
      && HandsOverAll(calls, Published(seen)) && RoundCount(l) == |seen|
      && var r := ReadAll(l);
        r.out == Answers(l.out, seen) && r.calls == l.calls + calls && r.rest.None?
    decreases |arrivals|
  {
    calls := [];
    if arrivals != [] {
      var rest := SegmentOf(arrivals[1..]);
      SegmentHead(arrivals);
      NoMoreArrivals(arrivals[1..]);
      if arrivals[0].Other? {
        RoundOnOther(l, arrivals[0].bytes, rest);
        OneOther(l, arrivals);
      } else {
        var p := arrivals[0].pub;
        var d := RoundOnPub(l, p, rest);
        hide Round, ReadAll, RoundCount, SegmentOf, PubBytes, HandsOver, HandsOverAll, GoodPub, Ack, Answers, Published;
        RoundsStep(l);
        MessageSeen(l.out, arrivals);
        calls := MixedSegment(Round(l), arrivals[1..]);
        OneMoreCall(l.calls, d, calls, p, Published(arrivals[1..][..Reached(arrivals[1..])]));
        calls := [d] + calls;
      }
    }
  }

  /** A round that leaves the loop or goes on with less. */
  lemma RoundsStep(l: Loop)
    requires |l.inBuf| == BUF_SIZE && l.rest.Some?
    requires Round(l).rest.None? || |Round(l).rest.value| < |l.rest.value|
    ensures ReadAll(l) == ReadAll(Round(l)) && RoundCount(l) == 1 + RoundCount(Round(l))
  {
    hide Round;
  }

  lemma MessageSeen(o: Outbox, arrivals: seq<Arrival>)
    requires arrivals != [] && arrivals[0].Message? && forall i | 0 <= i < |arrivals| :: GoodArrival(arrivals[i])
    ensures var seen, more := arrivals[..Reached(arrivals)], arrivals[1..][..Reached(arrivals[1..])];
      && |seen| == 1 + |more| && Published(seen) == [arrivals[0].pub] + Published(more)
      && Answers(o, seen) == Answers(Ack(o, arrivals[0].pub), more)
  {
    hide GoodPub, Ack;
    var seen, more := arrivals[..Reached(arrivals)], arrivals[1..][..Reached(arrivals[1..])];
    assert seen[0] == arrivals[0] && seen[1..] == more;
  }

  lemma OneOther(l: Loop, arrivals: seq<Arrival>)
    requires |l.inBuf| == BUF_SIZE && l.rest.Some? && Round(l).rest.None?
    requires arrivals != [] && arrivals[0].Other? && GoodArrival(arrivals[0])
    ensures var seen := arrivals[..Reached(arrivals)];
      && |seen| == 1 && GoodArrival(seen[0]) && Published(seen) == [] && RoundCount(l) == 1
      && Answers(l.out, seen) == Response(l.out, arrivals[0].bytes) && ReadAll(l) == Round(l)
  {
    hide Round, Response;
    var seen := arrivals[..1];
    assert seen[0] == arrivals[0] && seen[1..] == [];
    RoundsStep(l);
    ReadAllDone(Round(l));
  }

  /** Every packet of a segment gets its turn exactly when only the last one may be no
      PUBLISH. */
  lemma {:induction false} AllReachedIff(arrivals: seq<Arrival>)
    ensures Reached(arrivals) == |arrivals| <==> forall i | 0 <= i < |arrivals| - 1 :: arrivals[i].Message?
  {
    if arrivals != [] {
      AllReachedIff(arrivals[1..]);
      var rest := arrivals[1..];
      if forall i | 0 <= i < |arrivals| - 1 :: arrivals[i].Message? {
        assert forall i | 0 <= i < |rest| - 1 :: rest[i] == arrivals[i + 1];
      }
      if Reached(arrivals) == |arrivals| {
        assert forall i | 1 <= i < |arrivals| - 1 :: arrivals[i] == rest[i - 1];
      }
    }
  }

  lemma EveryPacketHandledIff(l: Loop, arrivals: seq<Arrival>)
    requires |l.inBuf| == BUF_SIZE && l.rest == (if arrivals == [] then None else Some(SegmentOf(arrivals)))
    requires (forall i | 0 <= i < |arrivals| :: GoodArrival(arrivals[i])) && |SegmentOf(arrivals)| < BUF_SIZE
    ensures RoundCount(l) == |arrivals| <==> forall i | 0 <= i < |arrivals| - 1 :: arrivals[i].Message?
  {
    var calls := MixedSegment(l, arrivals);
    hide GoodArrival, SegmentOf, RoundCount;
    AllReachedIff(arrivals);
  }

  function AsArrivals(pubs: seq<Pub>): (arrivals: seq<Arrival>)
    ensures |arrivals| == |pubs| && forall i | 0 <= i < |pubs| :: arrivals[i] == Message(pubs[i])
  {
    seq(|pubs|, i requires 0 <= i < |pubs| => Message(pubs[i]))
  }

  lemma {:induction false} AllPublished(pubs: seq<Pub>)
    ensures Published(AsArrivals(pubs)) == pubs && Reached(AsArrivals(pubs)) == |pubs|
  {
    if pubs != [] {
      var rest := AsArrivals(pubs[1..]);
      assert AsArrivals(pubs)[1..] == rest;
      AllPublished(pubs[1..]);
    }
  }

  /**
   A segment that is any number of complete PUBLISH packets one behind the other calls
   the data callback once for each, in order, with the topic and the payload that were
   encoded; it queues one acknowledgement for each packet of QoS 1 or 2; and the loop ends.
   */
  lemma CoalescedPublishes(l: Loop, pubs: seq<Pub>) returns (calls: seq<Delivery>)
    requires |l.inBuf| == BUF_SIZE
    requires l.rest == (if pubs == [] then None else Some(SegmentOf(AsArrivals(pubs))))
    requires (forall i | 0 <= i < |pubs| :: GoodPub(pubs[i])) && |SegmentOf(AsArrivals(pubs))| < BUF_SIZE
    ensures HandsOverAll(calls, pubs)
    ensures var arrivals, r := AsArrivals(pubs), ReadAll(l);
      r.out == Answers(l.out, arrivals) && r.calls == l.calls + calls && r.rest.None?
  {
    var arrivals := AsArrivals(pubs);
    hide GoodPub, SegmentOf, ReadAll, Answers, HandsOverAll;
    calls := MixedSegment(l, arrivals);
    AllPublished(pubs);
    assert arrivals[..|arrivals|] == arrivals;
  }

  lemma ReadAllDone(l: Loop)
    requires |l.inBuf| == BUF_SIZE && l.rest.None?
    ensures ReadAll(l) == l
  {
  }

  lemma ReadAllRound(l: Loop)
    requires |l.inBuf| == BUF_SIZE && l.rest.Some?
    ensures var r := Round(l);
      && (r.rest.Some? ==> |r.rest.value| <= |l.rest.value|)
      && ReadAll(l) == if r.rest.Some? && |r.rest.value| == |l.rest.value| then r else ReadAll(r)
  {
  }

  lemma OneMoreCall(before: seq<Delivery>, d: Delivery, calls: seq<Delivery>, p: Pub, pubs: seq<Pub>)
    requires HandsOver(d, p) && HandsOverAll(calls, pubs)
    ensures HandsOverAll([d] + calls, [p] + pubs)
    ensures before + [d] + calls == before + ([d] + calls)
  {
    hide HandsOver;
  }

  lemma NoMoreArrivals(arrivals: seq<Arrival>)
    requires forall i | 0 <= i < |arrivals| :: GoodArrival(arrivals[i])
    ensures SegmentOf(arrivals) == [] <==> arrivals == []
  {
    if arrivals != [] {
      SegmentHead(arrivals);
    }
  }
}
