/**
 The MQTT packet decoder, and the round trip from encoder to decoder. A decoder looks
 at a receive buffer that may hold more packets, or old bytes, behind the first one;
 `length` is how much of it the caller says to look at.
 */
module MqttDecode {
  import opened Bytes
  import opened Wrappers
  import opened MqttMsg

  // ---------------------------------------------------------------- as functions

  /** `b & 0x7f`. */
  function Low7(b: Byte): nat {
    b % 128
  }

  /** `v << (7 * n)`. */
  function Shift7(v: nat, n: nat): nat {
    if n == 0 then v else 128 * Shift7(v, n - 1)
  }

  /** The remaining length summed up so far, and the offset behind its last octet. */
  datatype Scan = Scan(rem: nat, at: nat)

  function ScanFrom(b: seq<Byte>, length: nat, i: nat, acc: nat): Scan
    requires 1 <= i && length <= |b|
    decreases length - i
  {
    if i >= length then Scan(acc, i)
    else
      var acc' := acc + Shift7(Low7(b[i]), i - 1);
      if b[i] < 128 then Scan(acc', i + 1) else ScanFrom(b, length, i + 1, acc')
  }

  function ScanHeader(b: seq<Byte>, length: nat): Scan
    requires length <= |b|
  {
    ScanFrom(b, length, 1, 0)
  }

  /** `mqtt_get_total_length`. */
  function TotalLength(b: seq<Byte>, length: nat): nat
    requires length <= |b|
  {
    var s := ScanHeader(b, length);
    s.rem + s.at
  }

  /** Where the body's first string starts, and its length. */
  function TopicAt(b: seq<Byte>, at: nat): (nat, nat)
    requires at + 1 < |b|
  {
    (at + 2, Be16(b[at], b[at + 1]))
  }

  /** `mqtt_get_publish_topic`: offset and length, or NULL. */
  function Topic(b: seq<Byte>, length: nat): Option<(nat, nat)>
    requires length <= |b|
  {
    var i := ScanHeader(b, length).at;
    if i + 2 >= length then None
    else
      var (start, n) := TopicAt(b, i);
      if start + n > length then None else Some((start, n))
  }

  /** `mqtt_get_publish_data`: offset and length, or NULL. */
  function Payload(b: seq<Byte>, length: nat): Option<(nat, nat)>
    requires length <= |b|
  {
    var s := ScanHeader(b, length);
    var totlen := s.rem + s.at;
    if s.at + 2 >= length then None
    else
      var (start, n) := TopicAt(b, s.at);
      if start + n >= length then None
      else
        var i := start + n + if QosOf(b[0]) > 0 then 2 else 0;
        if QosOf(b[0]) > 0 && i >= length then None
        else if totlen < i then None
        else Some((i, (if totlen <= length then totlen else length) - i))
  }

  /** `mqtt_get_id`: 0 when there is none. */
  function Id(b: seq<Byte>, length: nat): nat
    requires length <= |b|
  {
    if length < 1 then 0
    else if TypeOf(b[0]) == PUBLISH then
      var i := ScanHeader(b, length).at;
      if i + 2 >= length then 0
      else
        var (start, n) := TopicAt(b, i);
        if start + n >= length then 0
        else if QosOf(b[0]) == 0 || start + n + 2 >= length then 0
        else Be16(b[start + n], b[start + n + 1])
    else if TypeOf(b[0]) in {PUBACK, PUBREC, PUBREL, PUBCOMP, SUBACK, UNSUBACK, SUBSCRIBE} then
      if length >= 4 && b[1] < 128 then Be16(b[2], b[3]) else 0
    else 0
  }

  /** Whatever the octets are, a topic or a payload that is found lies within `length`. */
  lemma FoundInside(b: seq<Byte>, length: nat)
    requires length <= |b|
    ensures var t := Topic(b, length); t.Some? ==> t.value.0 + t.value.1 <= length
    ensures var d := Payload(b, length); d.Some? ==> d.value.0 + d.value.1 <= length
  {
  }

  /** Only the first `length` octets are looked at. */
  lemma {:induction false} ScanReadsPrefix(b: seq<Byte>, c: seq<Byte>, length: nat, i: nat, acc: nat)
    requires 1 <= i && length <= |b| && length <= |c| && b[..length] == c[..length]
    ensures ScanFrom(b, length, i, acc) == ScanFrom(c, length, i, acc)
    decreases length - i
  {
    hide Low7, Shift7;
    if i < length {
      assert b[i] == b[..length][i] == c[..length][i] == c[i];
      ScanReadsPrefix(b, c, length, i + 1, acc + Shift7(Low7(b[i]), i - 1));
    }
  }

  lemma TotalReadsPrefix(b: seq<Byte>, c: seq<Byte>, length: nat)
    requires length <= |b| && length <= |c| && b[..length] == c[..length]
    ensures TotalLength(b, length) == TotalLength(c, length)
  {
    ScanReadsPrefix(b, c, length, 1, 0);
  }

  lemma IdIsUint16(b: seq<Byte>, length: nat)
    requires length <= |b|
    ensures Id(b, length) < 0x1_0000
  {
  }

  // ---------------------------------------------------------------- as loops

  /** The loop that opens every decoder. */
  method RunScan(buffer: array<Byte>, length: nat) returns (totlen: nat, i: nat)
    requires length <= buffer.Length
    ensures Scan(totlen, i) == ScanHeader(buffer[..], length)
  {
    totlen, i := 0, 1;
    while i < length
      invariant 1 <= i
      invariant ScanFrom(buffer[..], length, i, totlen) == ScanHeader(buffer[..], length)
    {
      totlen := totlen + Shift7(Low7(buffer[i]), i - 1);
      if buffer[i] < 128 {
        i := i + 1;
        break;
      }
      i := i + 1;
    }
  }

  method GetTotalLength(buffer: array<Byte>, length: nat) returns (total: nat)
    requires length <= buffer.Length
    ensures total == TotalLength(buffer[..], length)
  {
    hide ScanHeader, Be16, Shift7, Low7;
    var totlen, i := RunScan(buffer, length);
    return totlen + i;
  }

  method GetPublishTopic(buffer: array<Byte>, length: nat) returns (r: Option<(nat, nat)>)
    requires length <= buffer.Length
    ensures r == Topic(buffer[..], length)
  {
    hide ScanHeader, Be16, Shift7, Low7;
    var totlen, i := RunScan(buffer, length);
    if i + 2 >= length {
      return None;
    }
    var topiclen := Be16(buffer[i], buffer[i + 1]);
    i := i + 2;
    if i + topiclen > length {
      return None;
    }
    return Some((i, topiclen));
  }

  method GetPublishData(buffer: array<Byte>, length: nat) returns (r: Option<(nat, nat)>)
    requires length <= buffer.Length
    ensures r == Payload(buffer[..], length)
  {
    hide ScanHeader, Be16, Shift7, Low7;
    var totlen, i := RunScan(buffer, length);
    totlen := totlen + i;
    if i + 2 >= length {
      return None;
    }
    var topiclen := Be16(buffer[i], buffer[i + 1]);
    i := i + 2;
    if i + topiclen >= length {
      return None;
    }
    i := i + topiclen;
    if QosOf(buffer[0]) > 0 {
      if i + 2 >= length {
        return None;
      }
      i := i + 2;
    }
    if totlen < i {
      return None;
    }
    return Some((i, if totlen <= length then totlen - i else length - i));
  }

  method GetId(buffer: array<Byte>, length: nat) returns (id: nat)
    requires length <= buffer.Length
    ensures id == Id(buffer[..], length)
  {
    hide ScanHeader, Be16, Shift7, Low7;
    if length < 1 {
      return 0;
    }
    var kind := TypeOf(buffer[0]);
    if kind == PUBLISH {
      var totlen, i := RunScan(buffer, length);
      if i + 2 >= length {
        return 0;
      }
      var topiclen := Be16(buffer[i], buffer[i + 1]);
      i := i + 2;
      if i + topiclen >= length {
        return 0;
      }
      i := i + topiclen;
      if QosOf(buffer[0]) > 0 {
        if i + 2 >= length {
          return 0;
        }
      } else {
        return 0;
      }
      return Be16(buffer[i], buffer[i + 1]);
    } else if kind in {PUBACK, PUBREC, PUBREL, PUBCOMP, SUBACK, UNSUBACK, SUBSCRIBE} {
      if length >= 4 && buffer[1] < 128 {
        return Be16(buffer[2], buffer[3]);
      }
    }
    return 0;
  }

  // ---------------------------------------------------------------- round trips

  /** The fixed header reads back as long as two octets can hold the length. */
  lemma ScanPacket(first: Byte, body: seq<Byte>, b: seq<Byte>, length: nat)
    requires |body| <= 16383
    requires Packet(first, body) <= b && |Packet(first, body)| <= length <= |b|
    ensures ScanHeader(b, length) == Scan(|body|, |Header(first, |body|)|)
    ensures TotalLength(b, length) == |Packet(first, body)|
    ensures b[0] == first
  {
    hide Packet, Header, ScanFrom;
    PacketBytes(first, body, b);
    HeaderScanned(b, length, |body|);
  }

  /** One or two octets of length, with an octet in front. */
  lemma HeaderScanned(b: seq<Byte>, length: nat, n: nat)
    requires n <= 16383 && (if n > 127 then 3 else 2) <= length <= |b|
    requires if n > 127 then b[1] == 128 + n % 128 && b[2] == n / 128 else b[1] == n
    ensures ScanFrom(b, length, 1, 0) == Scan(n, if n > 127 then 3 else 2)
  {
    hide Shift7, ScanFrom;
    LastLengthOctet(b, length, 1, 0);
    if n > 127 {
      OneMoreOctet(b, length, n % 128);
      LastLengthOctet(b, length, 2, n % 128);
    }
  }

  lemma LastLengthOctet(b: seq<Byte>, length: nat, i: nat, acc: nat)
    requires 1 <= i <= 2 && i < length <= |b|
    ensures b[i] < 128 && i == 1 ==> ScanFrom(b, length, i, acc) == Scan(acc + Low7(b[i]), 2)
    ensures b[i] < 128 && i == 2 ==> ScanFrom(b, length, i, acc) == Scan(acc + 128 * Low7(b[i]), 3)
  {
    assert Shift7(Low7(b[i]), 1) == 128 * Shift7(Low7(b[i]), 0);
  }

  lemma OneMoreOctet(b: seq<Byte>, length: nat, low: nat)
    requires 1 < length <= |b| && low < 128 && b[1] == 128 + low
    ensures ScanFrom(b, length, 1, 0) == ScanFrom(b, length, 2, low)
  {
    assert Low7(b[1]) == low;
  }

  lemma PacketBytes(first: Byte, body: seq<Byte>, b: seq<Byte>)
    requires Packet(first, body) <= b
    ensures var n := |body|;
      && b[0] == first && |Packet(first, body)| == n + |Header(first, n)|
      && |Header(first, n)| == (if n > 127 then 3 else 2)
      && (n > 127 ==> b[1] == 128 + n % 128 && b[2] == n / 128 % 256) && (n <= 127 ==> b[1] == n)
  {
    var h := Header(first, |body|);
    assert Packet(first, body)[..|h|] == h;
    assert forall k | 0 <= k < |h| :: b[k] == h[k];
  }

  lemma Prefix(b: seq<Byte>, pkt: seq<Byte>)
    requires pkt <= b
    ensures forall k | 0 <= k < |pkt| :: b[k] == pkt[k]
  {
  }

  lemma Shifted(b: seq<Byte>, h: nat, body: seq<Byte>, i: nat, j: nat)
    requires h + |body| <= |b| && b[h..h + |body|] == body && i <= j <= |body|
    ensures b[h + i..h + j] == body[i..j]
  {
    forall k | i <= k < j
      ensures b[h + k] == body[k]
    {
      assert b[h..h + |body|][k] == body[k];
    }
  }

  lemma BodyLayout(topic: seq<Byte>, qos: nat, id: nat, data: seq<Byte>)
    ensures var body, i := PublishBody(topic, qos, id, data), 2 + |topic|;
      && |body| == i + (if qos > 0 then 2 else 0) + |data|
      && body[0..2] == U16(|topic|) && body[2..i] == topic
      && (qos > 0 ==> body[i..i + 2] == U16(id))
      && body[|body| - |data|..|body|] == data
  {
  }

  lemma BigEndian(b: seq<Byte>, i: nat, n: nat)
    requires i + 2 <= |b| && b[i..i + 2] == U16(n) && n < 0x1_0000
    ensures Be16(b[i], b[i + 1]) == n
  {
    assert b[i] == b[i..i + 2][0] && b[i + 1] == b[i..i + 2][1];
  }

  /** Where the body of a packet lies. */
  lemma BodyAt(first: Byte, body: seq<Byte>, b: seq<Byte>)
    requires Packet(first, body) <= b
    ensures var h := if |body| > 127 then 3 else 2; |b| >= h + |body| && b[h..h + |body|] == body
  {
    var h, n := if |body| > 127 then 3 else 2, |body|;
    assert Packet(first, body)[h..] == body && b[..h + n] == Packet(first, body);
  }

  /** Where the parts of a PUBLISH lie. */
  lemma PublishLayout(topic: seq<Byte>, qos: nat, id: nat, data: seq<Byte>, b: seq<Byte>, h: nat)
    requires var n := |PublishBody(topic, qos, id, data)|;
      h + n <= |b| && b[h..h + n] == PublishBody(topic, qos, id, data)
    ensures var n, i := |PublishBody(topic, qos, id, data)|, h + 2 + |topic|;
      && h + n == i + (if qos > 0 then 2 else 0) + |data|
      && b[h..h + 2] == U16(|topic|) && b[h + 2..i] == topic
      && (qos > 0 ==> b[i..i + 2] == U16(id))
      && b[h + n - |data|..h + n] == data
  {
    var body := PublishBody(topic, qos, id, data);
    var n, i := |body|, 2 + |topic|;
    BodyLayout(topic, qos, id, data);
    hide PublishBody, U16;
    Shifted(b, h, body, 0, 2);
    Shifted(b, h, body, 2, i);
    if qos > 0 {
      Shifted(b, h, body, i, i + 2);
    }
    Shifted(b, h, body, n - |data|, n);
  }

  /** The decoder points at this string. */
  ghost predicate Finds(r: Option<(nat, nat)>, b: seq<Byte>, s: seq<Byte>) {
    r.Some? && r.value.1 == |s| && r.value.0 + |s| <= |b| && b[r.value.0..r.value.0 + |s|] == s
  }

  /**
   The PUBLISH round trip, with anything behind the packet: more packets of the same
   segment, or old bytes of the receive buffer. The payload pointer is NULL only when
   nothing at all follows an empty payload, and then the length says 0 as well.
   */
  lemma PublishRoundTrip(topic: seq<Byte>, qos: nat, retain: nat, id: nat, data: seq<Byte>, b: seq<Byte>, length: nat)
    requires topic != [] && qos < 4 && id < 0x1_0000
    requires |PublishBody(topic, qos, id, data)| <= 16383
    requires var pkt := PublishPacket(topic, qos, retain, id, data); pkt <= b && |pkt| <= length <= |b|
    ensures var total := |PublishPacket(topic, qos, retain, id, data)|;
      && TotalLength(b, length) == total
      && TypeOf(b[0]) == PUBLISH && QosOf(b[0]) == qos && RetainOf(b[0]) == retain % 2
      && Finds(Topic(b, length), b, topic)
      && (Payload(b, length).None? ==> data == [] && length == total)
      && (Payload(b, length).Some? ==> Finds(Payload(b, length), b, data))
  {
    hide PublishBody, PublishPacket, ScanHeader, Be16, FirstByte, TypeOf, QosOf, RetainOf, Topic, Payload, Finds;
    PublishSize(topic, qos, retain, id, data);
    ScanPacket(FirstByte(PUBLISH, 0, qos, retain), PublishBody(topic, qos, id, data), b, length);
    BodyAt(FirstByte(PUBLISH, 0, qos, retain), PublishBody(topic, qos, id, data), b);
    FirstByteFields(PUBLISH, 0, qos, retain);
    var n := |PublishBody(topic, qos, id, data)|;
    var h := if n > 127 then 3 else 2;
    PublishLayout(topic, qos, id, data, b, h);
    BigEndian(b, h, |topic|);
    TopicFound(b, length, h, topic);
    PayloadFound(b, length, h, n, |topic|, data);
  }

  lemma TopicFound(b: seq<Byte>, length: nat, h: nat, topic: seq<Byte>)
    requires topic != [] && h + 2 + |topic| <= length <= |b| && ScanHeader(b, length).at == h
    requires Be16(b[h], b[h + 1]) == |topic| && b[h + 2..h + 2 + |topic|] == topic
    ensures Finds(Topic(b, length), b, topic)
  {
    hide ScanHeader, Be16;
  }

  lemma PayloadFound(b: seq<Byte>, length: nat, h: nat, n: nat, topicLength: nat, data: seq<Byte>)
    requires topicLength > 0 && h + n <= length <= |b| && ScanHeader(b, length) == Scan(n, h)
    requires n == 2 + topicLength + (if QosOf(b[0]) > 0 then 2 else 0) + |data|
    requires Be16(b[h], b[h + 1]) == topicLength && b[h + n - |data|..h + n] == data
    ensures Payload(b, length).None? ==> data == [] && length == h + n
    ensures Payload(b, length).Some? ==> Finds(Payload(b, length), b, data)
  {
    hide ScanHeader, Be16, QosOf;
  }

  lemma IdFound(b: seq<Byte>, length: nat, h: nat, n: nat, topicLength: nat, id: nat, dataLength: nat)
    requires topicLength > 0 && h + n <= length <= |b| && ScanHeader(b, length).at == h
    requires TypeOf(b[0]) == PUBLISH && QosOf(b[0]) > 0 && n == 2 + topicLength + 2 + dataLength
    requires Be16(b[h], b[h + 1]) == topicLength && Be16(b[h + 2 + topicLength], b[h + 3 + topicLength]) == id
    ensures Id(b, length) == if length > h + n - dataLength then id else 0
  {
    hide ScanHeader, Be16, QosOf, TypeOf;
  }

  /** The packet identifier is recovered exactly when the caller's length reaches past
      it: never from a packet with an empty payload by its own length, always from a
      receive buffer that is longer than the packet. */
  lemma IdRoundTrip(topic: seq<Byte>, qos: nat, retain: nat, id: nat, data: seq<Byte>, b: seq<Byte>, length: nat)
    requires topic != [] && 0 < qos < 4 && 0 < id < 0x1_0000
    requires |PublishBody(topic, qos, id, data)| <= 16383
    requires var pkt := PublishPacket(topic, qos, retain, id, data); pkt <= b && |pkt| <= length <= |b|
    ensures var total := |PublishPacket(topic, qos, retain, id, data)|;
      Id(b, length) == if length > total - |data| then id else 0
  {
    hide PublishBody, PublishPacket, ScanHeader, Be16, FirstByte, TypeOf, QosOf, Id;
    PublishSize(topic, qos, retain, id, data);
    ScanPacket(FirstByte(PUBLISH, 0, qos, retain), PublishBody(topic, qos, id, data), b, length);
    BodyAt(FirstByte(PUBLISH, 0, qos, retain), PublishBody(topic, qos, id, data), b);
    FirstByteFields(PUBLISH, 0, qos, retain);
    var n := |PublishBody(topic, qos, id, data)|;
    var h := if n > 127 then 3 else 2;
    PublishLayout(topic, qos, id, data, b, h);
    BigEndian(b, h, |topic|);
    BigEndian(b, h + 2 + |topic|, id);
    IdFound(b, length, h, n, |topic|, id, |data|);
  }

  lemma PublishSize(topic: seq<Byte>, qos: nat, retain: nat, id: nat, data: seq<Byte>)
    ensures var n := |PublishBody(topic, qos, id, data)|;
      n == 2 + |topic| + (if qos > 0 then 2 else 0) + |data|
      && |PublishPacket(topic, qos, retain, id, data)| == n + if n > 127 then 3 else 2
    ensures var first := FirstByte(PUBLISH, 0, qos, retain);
      PublishPacket(topic, qos, retain, id, data) == Packet(first, PublishBody(topic, qos, id, data))
  {
    hide FirstByte;
  }

  /** An acknowledgement's identifier always comes back. */
  lemma AckRoundTrip(kind: nat, qos: nat, id: nat, b: seq<Byte>, length: nat)
    requires kind in {PUBACK, PUBREC, PUBREL, PUBCOMP} && id < 0x1_0000
    requires var pkt := Packet(FirstByte(kind, 0, qos, 0), U16(id)); pkt <= b && |pkt| <= length <= |b|
    ensures Id(b, length) == id && TypeOf(b[0]) == kind && TotalLength(b, length) == 4
  {
    hide FirstByte, TypeOf, U16, Be16, ScanHeader, TotalLength, Packet;
    var first := FirstByte(kind, 0, qos, 0);
    AckParts(first, U16(id), b);
    ScanPacket(first, U16(id), b, length);
    FirstByteFields(kind, 0, qos, 0);
    BigEndian(b, 2, id);
  }

  lemma AckParts(first: Byte, id: seq<Byte>, b: seq<Byte>)
    requires |id| == 2 && Packet(first, id) <= b
    ensures |Packet(first, id)| == 4 && |b| >= 4
    ensures b[0] == first && b[1] == 2 && b[2..4] == id
  {
    Prefix(b, Packet(first, id));
  }

  // ---------------------------------------------------------------- where the header stops working

  lemma {:induction false} ScanKeepsLow7(b: seq<Byte>, length: nat, i: nat, acc: nat)
    requires 2 <= i && length <= |b|
    ensures ScanFrom(b, length, i, acc).rem % 128 == acc % 128
    decreases length - i
  {
    if i < length {
      var acc' := acc + Shift7(Low7(b[i]), i - 1);
      AddMultiple(acc, Shift7(Low7(b[i]), i - 2));
      ScanKeepsLow7(b, length, i + 1, acc');
    }
  }

  lemma Apart(n: nat, rem: nat, at: nat)
    requires rem % 128 == n % 128 && 4 <= at <= 5
    ensures rem + at != n + 3
  {
  }

  lemma AddMultiple(a: nat, k: nat)
    ensures (a + 128 * k) % 128 == a % 128
  {
  }

  /**
   A body longer than 16383 bytes gets a fixed header that no longer says how long it
   is. The shifts of the decoder are defined in C only while the length field has at
   most four octets, hence the requirement on `at`.
   */
  lemma HeaderHoldsIff(first: Byte, body: seq<Byte>)
    requires ScanHeader(Packet(first, body), |Packet(first, body)|).at <= 5
    ensures TotalLength(Packet(first, body), |Packet(first, body)|) == |Packet(first, body)| <==> |body| <= 16383
  {
    var b, n := Packet(first, body), |body|;
    if n <= 16383 {
      ScanPacket(first, body, b, |b|);
    } else {
      assert b[1] == 128 + n % 128 && b[2] == n / 128 % 256;
      var s := ScanHeader(b, |b|);
      OneMoreOctet(b, |b|, n % 128);
      ScanKeepsLow7(b, |b|, 2, n % 128);
      assert s.rem % 128 == n % 128;
      if b[2] < 128 {
        LastLengthOctet(b, |b|, 2, n % 128);
      } else {
        ScanAtGrows(b, |b|, 2, n % 128);
        Apart(n, s.rem, s.at);
      }
    }
  }

  lemma {:induction false} ScanAtGrows(b: seq<Byte>, length: nat, i: nat, acc: nat)
    requires 1 <= i < length <= |b|
    ensures ScanFrom(b, length, i, acc).at > i
    ensures b[i] >= 128 && i + 1 < length ==> ScanFrom(b, length, i, acc).at > i + 1
    decreases length - i
  {
    if b[i] >= 128 && i + 1 < length {
      ScanAtGrows(b, length, i + 1, acc + Shift7(Low7(b[i]), i - 1));
    }
  }

  /** Such bodies exist: one of 32768 zero octets is read as empty. */
  lemma LongBodyMisread(first: Byte)
    ensures var body := seq(32768, _ => 0); var p := Packet(first, body);
      ScanHeader(p, |p|) == Scan(0, 3) && TotalLength(p, |p|) != |p|
  {
    var body: seq<Byte> := seq(32768, _ => 0);
    var p := Packet(first, body);
    assert p[1] == 128 && p[2] == 0;
    assert ScanFrom(p, |p|, 2, 0) == Scan(0, 3);
    assert ScanFrom(p, |p|, 1, 0) == ScanFrom(p, |p|, 2, 0);
  }
}
