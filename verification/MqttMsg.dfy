/**
 The MQTT packet encoder and decoder. The encoder leaves three bytes free in front of
 the packet body and then writes a fixed header of two or three bytes against it, so
 short packets start at offset 1 of the buffer.
 */
module MqttMsg {
  import opened Bytes

  const MAX_FIXED_HEADER := 3

  const CONNECT := 1
  const CONNACK := 2
  const PUBLISH := 3
  const PUBACK := 4
  const PUBREC := 5
  const PUBREL := 6
  const PUBCOMP := 7
  const SUBSCRIBE := 8
  const SUBACK := 9
  const UNSUBACK := 11
  const PINGREQ := 12
  const PINGRESP := 13

  // ---------------------------------------------------------------- packets as values

  /** First byte of the fixed header, with its four fields reduced to their widths. */
  function FirstByte(kind: nat, dup: nat, qos: nat, retain: nat): Byte {
    (kind % 16) * 16 + (dup % 2) * 8 + (qos % 4) * 2 + retain % 2
  }

  function TypeOf(b: Byte): nat { b / 16 }

  function DupOf(b: Byte): nat { b / 8 % 2 }

  function QosOf(b: Byte): nat { b / 2 % 4 }

  function RetainOf(b: Byte): nat { b % 2 }

  lemma FirstByteFields(kind: nat, dup: nat, qos: nat, retain: nat)
    ensures var b := FirstByte(kind, dup, qos, retain);
      TypeOf(b) == kind % 16 && DupOf(b) == dup % 2 && QosOf(b) == qos % 4 && RetainOf(b) == retain % 2
  {
    Fields(kind % 16, dup % 2, qos % 4, retain % 2, FirstByte(kind, dup, qos, retain));
  }

  lemma Fields(k: nat, d: nat, q: nat, r: nat, b: Byte)
    requires d < 2 && q < 4 && r < 2 && b == 16 * k + 8 * d + 2 * q + r
    ensures TypeOf(b) == k && DupOf(b) == d && QosOf(b) == q && RetainOf(b) == r
  {
    assert b / 8 == 2 * k + d && b / 2 == 4 * (2 * k + d) + q;
  }

  /** The fixed header for a body of `n` bytes: two bytes, or three from 128 on. The
      third is cut to an octet. */
  function Header(first: Byte, n: nat): (h: seq<Byte>)
    ensures |h| == if n > 127 then 3 else 2
  {
    if n > 127 then [first, 128 + n % 128, n / 128 % 256] else [first, n]
  }

  function Packet(first: Byte, body: seq<Byte>): seq<Byte> {
    Header(first, |body|) + body
  }

  function U16(n: nat): (b: seq<Byte>)
    ensures |b| == 2
  {
    [n / 256 % 256, n % 256]
  }

  function Be16(hi: Byte, lo: Byte): nat {
    var n: int := hi;
    n * 256 + lo
  }

  function Str(s: seq<Byte>): seq<Byte> {
    U16(|s|) + s
  }

  /** The body of a PUBLISH: topic, packet identifier for QoS above 0, payload. */
  function PublishBody(topic: seq<Byte>, qos: nat, id: nat, data: seq<Byte>): seq<Byte> {
    Str(topic) + (if qos > 0 then U16(id) else []) + data
  }

  function PublishPacket(topic: seq<Byte>, qos: nat, retain: nat, id: nat, data: seq<Byte>): seq<Byte> {
    Packet(FirstByte(PUBLISH, 0, qos, retain), PublishBody(topic, qos, id, data))
  }

  /** `++message_id` on a uint16, skipping 0. */
  function NextId(m: nat): (n: nat)
    ensures 0 < n < 0x1_0000
  {
    if (m + 1) % 0x1_0000 == 0 then 1 else (m + 1) % 0x1_0000
  }

  /** Does `mqtt_msg_publish` use up an identifier? It does when it gets as far as the
      identifier, whether the rest then fits or not. */
  predicate TakesId(topic: seq<Byte>, qos: nat, size: nat) {
    topic != [] && 5 + |topic| <= size && qos > 0
  }

  function IdAfter(m: nat, topic: seq<Byte>, qos: nat, size: nat): nat {
    if TakesId(topic, qos, size) then NextId(m) else m
  }

  // ---------------------------------------------------------------- the encoder

  /** `mqtt_connection_t`; `data` is the offset of `message.data` in the buffer. */
  class Connection {
    const buffer: array<Byte>
    var length: nat
    var data: nat
    var messageId: nat

    ghost predicate Valid()
      reads this
    {
      buffer.Length < 0x1_0000
    }

    /** The body written so far. */
    ghost function Body(): seq<Byte>
      reads this, buffer
    {
      if 3 <= length <= buffer.Length then buffer[3..length] else []
    }

    /** The finished packet, or nothing after a failure. */
    ghost function Message(): seq<Byte>
      reads this, buffer
    {
      if data + length <= buffer.Length then buffer[data..data + length] else []
    }

    /** `mqtt_msg_init`. */
    constructor (buf: array<Byte>)
      requires buf.Length < 0x1_0000
      ensures Valid() && buffer == buf && length == 0 && messageId == 0
    {
      buffer, length, data, messageId := buf, 0, 0, 0;
    }

    /** `mqtt_msg_init` once more, on the same buffer. */
    method Reset()
      modifies this
      ensures length == data == messageId == 0
    {
      length, data, messageId := 0, 0, 0;
    }

    method InitMessage()
      requires Valid()
      modifies this`length
      ensures length == MAX_FIXED_HEADER && Body() == []
    {
      length := MAX_FIXED_HEADER;
    }

    /** A message of length 0 tells the caller that encoding failed. */
    method FailMessage()
      modifies this`data, this`length
      ensures data == 0 && length == 0 && Message() == []
    {
      data, length := 0, 0;
    }

    /** `memcpy` to the end of what is written. */
    method Append(s: seq<Byte>)
      requires Valid() && 3 <= length && length + |s| <= buffer.Length
      modifies this`length, buffer
      ensures length == old(length) + |s| && Body() == old(Body()) + s
    {
      forall i | 0 <= i < |s| {
        buffer[length + i] := s[i];
      }
      length := length + |s|;
      assert buffer[3..length] == old(buffer[3..length]) + s;
    }

    /** `append_string`: -1 when the string does not fit. */
    method AppendString(s: seq<Byte>) returns (code: int)
      requires Valid() && 3 <= length
      modifies this`length, buffer
      ensures if old(length) + |s| + 2 > buffer.Length
        then code == -1 && length == old(length)
        else code == |s| + 2 && length == old(length) + |s| + 2 && Body() == old(Body()) + Str(s)
    {
      if length + |s| + 2 > buffer.Length {
        return -1;
      }
      buffer[length] := |s| / 256 % 256;
      buffer[length + 1] := |s| % 256;
      length := length + 2;
      assert buffer[3..length] == old(buffer[3..length]) + U16(|s|);
      Append(s);
      assert old(Body()) + U16(|s|) + s == old(Body()) + Str(s);
      return |s| + 2;
    }

    /** `append_message_id`: 0 when it does not fit; the counter moves on all the same. */
    method AppendMessageId(id: nat) returns (used: nat)
      requires Valid() && 3 <= length && id < 0x1_0000
      modifies this`length, this`messageId, buffer
      ensures messageId == if id == 0 then NextId(old(messageId)) else old(messageId)
      ensures var chosen := if id == 0 then NextId(old(messageId)) else id;
        if old(length) + 2 > buffer.Length
        then used == 0 && length == old(length)
        else used == chosen && length == old(length) + 2 && Body() == old(Body()) + U16(chosen)
    {
      used := id;
      while used == 0
        invariant used == 0 ==> messageId == old(messageId) || messageId == 0
        invariant id != 0 ==> used == id && messageId == old(messageId)
        invariant id == 0 && used != 0 ==> used == messageId == NextId(old(messageId))
        invariant used == 0 && messageId == 0 ==> NextId(old(messageId)) == 1 || messageId == old(messageId)
        decreases if used != 0 then 0 else if messageId == 0 then 1 else 2
        modifies this`messageId
      {
        messageId := (messageId + 1) % 0x1_0000;
        used := messageId;
      }
      if length + 2 > buffer.Length {
        return 0;
      }
      buffer[length] := used / 256 % 256;
      buffer[length + 1] := used % 256;
      length := length + 2;
      assert buffer[3..length] == old(buffer[3..length]) + U16(used);
    }

    /** `fini_message`: writes the fixed header against the body. */
    method FiniMessage(kind: nat, dup: nat, qos: nat, retain: nat)
      requires Valid() && 3 <= length <= buffer.Length
      modifies this`length, this`data, buffer
      ensures Message() == Packet(FirstByte(kind, dup, qos, retain), old(Body())) && length == |Message()|
      ensures data + length <= buffer.Length
    {
      var remaining := length - MAX_FIXED_HEADER;
      ghost var body := buffer[3..length];
      if remaining > 127 {
        buffer[0] := FirstByte(kind, dup, qos, retain);
        buffer[1] := 128 + remaining % 128;
        buffer[2] := remaining / 128 % 256;
        length, data := remaining + 3, 0;
      } else {
        buffer[1] := FirstByte(kind, dup, qos, retain);
        buffer[2] := remaining;
        length, data := remaining + 2, 1;
      }
      assert buffer[3..3 + remaining] == body;
    }

    /** The identifier of a PUBLISH, for QoS above 0. */
    method AppendPublishId(qos: nat) returns (ok: bool, id: nat)
      requires Valid() && 3 <= length
      modifies this`length, this`messageId, buffer
      ensures messageId == if qos > 0 then NextId(old(messageId)) else old(messageId)
      ensures id == if ok && qos > 0 then messageId else 0
      ensures ok <==> old(length) + (if qos > 0 then 2 else 0) <= buffer.Length || qos == 0
      ensures ok ==> var part := if qos > 0 then U16(id) else [];
        length == old(length) + |part| && Body() == old(Body()) + part
    {
      if qos == 0 {
        return true, 0;
      }
      id := AppendMessageId(0);
      ok := id != 0;
    }

    /** The body of a PUBLISH, as far as it fits. */
    method AppendPublish(topic: seq<Byte>, payload: seq<Byte>, qos: nat) returns (ok: bool, id: nat)
      requires Valid() && length == 3 && Body() == [] && topic != []
      modifies this`length, this`messageId, buffer
      ensures messageId == IdAfter(old(messageId), topic, qos, buffer.Length)
      ensures var body := PublishBody(topic, qos, id, payload);
        && (ok <==> 3 + |body| <= buffer.Length)
        && (ok ==> Body() == body && length == 3 + |body| && id == if qos > 0 then NextId(old(messageId)) else 0)
    {
      hide U16, NextId, Body;
      id := 0;
      var code := AppendString(topic);
      if code < 0 {
        return false, id;
      }
      ok, id := AppendPublishId(qos);
      if !ok {
        return;
      }
      if length + |payload| > buffer.Length {
        return false, id;
      }
      Append(payload);
      assert [] + Str(topic) == Str(topic);
      assert qos == 0 ==> Str(topic) + [] == Str(topic);
    }

    /** `mqtt_msg_publish`. `topic` is empty when the source's pointer is NULL or its
        string is. The encoder writes nothing outside the buffer: it either fits or fails. */
    method Publish(topic: seq<Byte>, payload: seq<Byte>, qos: nat, retain: nat) returns (id: nat)
      requires Valid()
      modifies this, buffer
      ensures Valid()
      ensures var fits := topic != [] && 3 + |PublishBody(topic, qos, id, payload)| <= buffer.Length;
        && (fits ==> Message() == PublishPacket(topic, qos, retain, id, payload) && length == |Message()|)
        && (!fits ==> length == 0 && Message() == [])
        && (fits && qos > 0 ==> id == NextId(old(messageId)))
        && (fits && qos == 0 ==> id == 0)
        && data + length <= buffer.Length
      ensures messageId == IdAfter(old(messageId), topic, qos, buffer.Length)
    {
      hide PublishBody, Body, Packet, FirstByte, NextId;
      id := 0;
      InitMessage();
      if topic == [] {
        FailMessage();
        return;
      }
      var ok;
      ok, id := AppendPublish(topic, payload, qos);
      if !ok {
        FailMessage();
        return;
      }
      FiniMessage(PUBLISH, 0, qos, retain);
    }

    /** `mqtt_msg_puback`, `_pubrec`, `_pubrel` and `_pubcomp`: the identifier alone. */
    method Acknowledge(kind: nat, qos: nat, id: nat)
      requires Valid() && id < 0x1_0000
      modifies this, buffer
      ensures Valid() && messageId == if id == 0 then NextId(old(messageId)) else old(messageId)
      ensures var chosen := if id == 0 then NextId(old(messageId)) else id;
        if 5 <= buffer.Length
        then Message() == Packet(FirstByte(kind, 0, qos, 0), U16(chosen)) && length == 4
        else length == 0
      ensures data + length <= buffer.Length
    {
      InitMessage();
      var used := AppendMessageId(id);
      if used == 0 {
        FailMessage();
        return;
      }
      assert Body() == U16(used);
      FiniMessage(kind, 0, qos, 0);
    }

    /** `mqtt_msg_pingreq`, `_pingresp` and `_disconnect`: a fixed header alone. */
    method HeaderOnly(kind: nat)
      requires Valid() && 3 <= buffer.Length
      modifies this`length, this`data, buffer
      ensures Message() == Packet(FirstByte(kind, 0, 0, 0), []) && length == 2 && data + length <= buffer.Length
    {
      InitMessage();
      FiniMessage(kind, 0, 0, 0);
    }

    /** One optional string of CONNECT. */
    method AppendOptional(s: seq<Byte>) returns (ok: bool)
      requires Valid() && 3 <= length <= buffer.Length
      modifies this`length, buffer
      ensures 3 <= length <= buffer.Length
      ensures var part := Optional(s);
        ok <==> |old(Body())| + |part| <= buffer.Length - 3
      ensures ok ==> Body() == old(Body()) + Optional(s)
    {
      if s == [] {
        return true;
      }
      var code := AppendString(s);
      return code >= 0;
    }

    /** The will's topic and message, when there is a will. */
    method AppendWill(info: ConnectInfo) returns (ok: bool)
      requires Valid() && 3 <= length <= buffer.Length
      modifies this`length, buffer
      ensures 3 <= length <= buffer.Length
      ensures ok <==> |old(Body())| + |Will(info)| <= buffer.Length - 3
      ensures ok ==> Body() == old(Body()) + Will(info)
    {
      if info.willTopic == [] {
        return true;
      }
      var code := AppendString(info.willTopic);
      if code < 0 {
        return false;
      }
      code := AppendString(info.willMessage);
      return code >= 0;
    }

    /** All the strings of CONNECT. */
    method AppendStrings(info: ConnectInfo) returns (ok: bool)
      requires Valid() && 3 <= length <= buffer.Length
      modifies this`length, buffer
      ensures 3 <= length <= buffer.Length
      ensures ok <==> info.clientId != [] && |old(Body())| + |ConnectStrings(info)| <= buffer.Length - 3
      ensures ok ==> Body() == old(Body()) + ConnectStrings(info)
    {
      hide Str, Optional, Will, Body;
      ghost var before := Body();
      if info.clientId == [] {
        return false;
      }
      ok := AppendOptional(info.clientId);
      if !ok {
        return;
      }
      ok := AppendWill(info);
      if !ok {
        return;
      }
      ok := AppendOptional(info.username);
      if !ok {
        return;
      }
      ok := AppendOptional(info.password);
      if ok {
        assert Body() == before + ConnectStrings(info);
      }
    }

    /**
     `mqtt_msg_connect`. The flags are known only after the strings are appended, so the
     octet in the variable header is rewritten at the end. It fails exactly when there
     is no client identifier or the packet does not fit.
     */
    method Connect(info: ConnectInfo)
      requires Valid()
      modifies this`length, this`data, buffer
      ensures data + length <= buffer.Length
      ensures if Encodable(info, buffer.Length)
        then Message() == Packet(FirstByte(CONNECT, 0, 0, 0), ConnectBody(info)) && length == |Message()|
        else length == 0 && data == 0
    {
      hide ConnectFlags, ConnectStrings, Packet;
      InitMessage();
      if length + 12 > buffer.Length {
        FailMessage();
        return;
      }
      var start := if info.cleanSession then 2 else 0;
      Append(ConnectHeader(start, info.keepalive));
      var ok := AppendStrings(info);
      if !ok {
        FailMessage();
        return;
      }
      assert Body() == ConnectHeader(start, info.keepalive) + ConnectStrings(info);
      buffer[12] := ConnectFlags(info);
      assert Body() == ConnectBody(info);
      FiniMessage(CONNECT, 0, 0, 0);
    }
  }

  // ---------------------------------------------------------------- CONNECT

  /** `mqtt_connect_info_t`; an empty string stands for NULL as well. */
  datatype ConnectInfo = ConnectInfo(
    clientId: seq<Byte>, username: seq<Byte>, password: seq<Byte>,
    willTopic: seq<Byte>, willMessage: seq<Byte>,
    keepalive: nat, willQos: nat, willRetain: bool, cleanSession: bool)

  function ConnectFlags(info: ConnectInfo): Byte {
    (if info.username != [] then 128 else 0) + (if info.password != [] then 64 else 0)
    + (if info.willTopic != [] then 4 + (if info.willRetain then 32 else 0) + info.willQos % 4 * 8 else 0)
    + (if info.cleanSession then 2 else 0)
  }

  /** Protocol name "MQIsdp", version 3, flags, keep-alive time. */
  function ConnectHeader(flags: Byte, keepalive: nat): (h: seq<Byte>)
    ensures |h| == 12 && h[9] == flags
  {
    [0, 6, 0x4D, 0x51, 0x49, 0x73, 0x64, 0x70, 3, flags, keepalive / 256 % 256, keepalive % 256]
  }

  function Optional(s: seq<Byte>): seq<Byte> {
    if s == [] then [] else Str(s)
  }

  function Will(info: ConnectInfo): seq<Byte> {
    if info.willTopic != [] then Str(info.willTopic) + Str(info.willMessage) else []
  }

  function ConnectStrings(info: ConnectInfo): seq<Byte> {
    Optional(info.clientId) + Will(info) + Optional(info.username) + Optional(info.password)
  }

  function ConnectBody(info: ConnectInfo): seq<Byte> {
    ConnectHeader(ConnectFlags(info), info.keepalive) + ConnectStrings(info)
  }

  /** A CONNECT can be encoded into a buffer of this size. */
  predicate Encodable(info: ConnectInfo, size: nat) {
    info.clientId != [] && 3 + |ConnectBody(info)| <= size
  }

  /** The type that the client remembers for an encoded CONNECT is CONNECT. */
  lemma ConnectType(info: ConnectInfo)
    ensures var p := Packet(FirstByte(CONNECT, 0, 0, 0), ConnectBody(info)); |p| > 0 && TypeOf(p[0]) == CONNECT
  {
    hide FirstByte, TypeOf, ConnectBody, Packet;
    FirstByteFields(CONNECT, 0, 0, 0);
    PacketHead(FirstByte(CONNECT, 0, 0, 0), ConnectBody(info));
  }

  lemma PacketHead(first: Byte, body: seq<Byte>)
    ensures |Packet(first, body)| > 0 && Packet(first, body)[0] == first
  {
  }
}
