/**
 What a broker reads in a CONNECT. It reads the flags by their own table, so that a client
 that exchanged two of them would not be understood.
 */
module MqttConnect {
  import opened Bytes
  import opened MqttMsg

  /** Strings with two octets of length in front, one behind the other. */
  function StringsOf(b: seq<Byte>): seq<seq<Byte>>
    decreases |b|
  {
    if |b| < 2 then []
    else
      var end := 2 + Be16(b[0], b[1]);
      if end > |b| then [] else [b[2..end]] + StringsOf(b[end..])
  }

  function StringAt(strings: seq<seq<Byte>>, i: nat): seq<Byte> {
    if i < |strings| then strings[i] else []
  }

  /** Bit `i` of a number, the least significant one being bit 0. */
  predicate Bit(b: nat, i: nat)
    decreases b, i
  {
    if i == 0 then b % 2 == 1 else Bit(b / 2, i - 1)
  }

  function One(b: bool): nat {
    if b then 1 else 0
  }

  /** The body of a CONNECT read by the table of its flags: bits 7 and 6 announce the user
      name and the password, bit 5 retains the will, bits 4 and 3 are its QoS, bit 2
      announces it, bit 1 asks for a clean session. */
  function ReadConnect(body: seq<Byte>): ConnectInfo
    requires |body| >= 12
  {
    var flags, strings := body[9], StringsOf(body[12..]);
    var user := if Bit(flags, 2) then 3 else 1;
    var password := if Bit(flags, 7) then user + 1 else user;
    ConnectInfo(
      StringAt(strings, 0),
      if Bit(flags, 7) then StringAt(strings, user) else [],
      if Bit(flags, 6) then StringAt(strings, password) else [],
      if Bit(flags, 2) then StringAt(strings, 1) else [],
      if Bit(flags, 2) then StringAt(strings, 2) else [],
      Be16(body[10], body[11]), 2 * One(Bit(flags, 4)) + One(Bit(flags, 3)), Bit(flags, 5), Bit(flags, 1))
  }

  /** What of the parameters a CONNECT can carry: without a will topic there is no will. */
  function Carried(info: ConnectInfo): ConnectInfo {
    var will := info.willTopic != [];
    info.(willMessage := if will then info.willMessage else [],
          willQos := if will then info.willQos % 4 else 0,
          willRetain := will && info.willRetain,
          keepalive := info.keepalive % 0x1_0000)
  }

  /** The bits above the lowest one are those of half the number. */
  lemma BitAbove(half: nat, low: bool, i: nat)
    ensures Bit(2 * half + One(low), i) <==> if i == 0 then low else Bit(half, i - 1)
  {
  }

  lemma {:induction false} FlagBits(bits: seq<bool>, n: nat, k: nat)
    requires n == Number(bits) && k < |bits|
    ensures Bit(n, k) <==> bits[k]
    decreases |bits|
  {
    BitAbove(Number(bits[1..]), bits[0], k);
    if k > 0 {
      FlagBits(bits[1..], Number(bits[1..]), k - 1);
    }
  }

  /** The number with these bits, the least significant one first. */
  function Number(bits: seq<bool>): nat {
    if bits == [] then 0 else 2 * Number(bits[1..]) + One(bits[0])
  }

  lemma NextString(s: seq<Byte>, rest: seq<Byte>)
    requires |s| < 0x1_0000
    ensures StringsOf(Str(s) + rest) == [s] + StringsOf(rest)
  {
    var b := Str(s) + rest;
    assert b[0] == |s| / 256 && b[1] == |s| % 256;
    assert b[2..2 + |s|] == s && b[2 + |s|..] == rest;
  }

  lemma NextOptional(s: seq<Byte>, rest: seq<Byte>)
    requires |s| < 0x1_0000
    ensures StringsOf(Optional(s) + rest) == (if s == [] then [] else [s]) + StringsOf(rest)
  {
    hide Str, StringsOf;
    NextString(s, rest);
    assert [] + rest == rest;
  }

  lemma WillStrings(info: ConnectInfo, rest: seq<Byte>)
    requires |info.willTopic| < 0x1_0000 && (info.willTopic != [] ==> |info.willMessage| < 0x1_0000)
    ensures StringsOf(Will(info) + rest)
      == (if info.willTopic == [] then [] else [info.willTopic, info.willMessage]) + StringsOf(rest)
  {
    hide StringsOf, Str;
    if info.willTopic == [] {
      assert Will(info) + rest == rest;
    } else {
      var more := Str(info.willMessage) + rest;
      assert Will(info) + rest == Str(info.willTopic) + more;
      NextString(info.willMessage, rest);
      NextString(info.willTopic, more);
    }
  }

  lemma StringsReadBack(info: ConnectInfo)
    requires info.clientId != [] && |ConnectStrings(info)| < 0x1_0000
    ensures StringsOf(ConnectStrings(info)) == [info.clientId]
      + (if info.willTopic == [] then [] else [info.willTopic, info.willMessage])
      + (if info.username == [] then [] else [info.username])
      + (if info.password == [] then [] else [info.password])
  {
    StringsShort(info);
    hide StringsOf, Str, Optional, Will;
    var last := Optional(info.password);
    var names := Optional(info.username) + last;
    NoStrings();
    Regroup(Optional(info.clientId), Will(info), Optional(info.username), last);
    Regroup([info.clientId], if info.willTopic == [] then [] else [info.willTopic, info.willMessage],
            if info.username == [] then [] else [info.username], if info.password == [] then [] else [info.password]);
    NextOptional(info.password, []);
    NextOptional(info.username, last);
    WillStrings(info, names);
    NextOptional(info.clientId, Will(info) + names);
  }

  lemma Regroup<T>(a: seq<T>, b: seq<T>, c: seq<T>, d: seq<T>)
    ensures a + b + c + d == a + (b + (c + d)) && d + [] == d
  {
  }

  lemma NoStrings()
    ensures StringsOf([]) == []
  {
  }

  lemma StringsShort(info: ConnectInfo)
    requires |ConnectStrings(info)| < 0x1_0000
    ensures |info.clientId| < 0x1_0000 && |info.username| < 0x1_0000 && |info.password| < 0x1_0000
    ensures |info.willTopic| < 0x1_0000 && (info.willTopic != [] ==> |info.willMessage| < 0x1_0000)
  {
  }

  lemma HeaderReadsBack(info: ConnectInfo)
    ensures var body := ConnectBody(info);
      && |body| == 12 + |ConnectStrings(info)| && body[12..] == ConnectStrings(info)
      && body[9] == ConnectFlags(info) && Be16(body[10], body[11]) == info.keepalive % 0x1_0000
  {
    hide ConnectFlags, ConnectStrings;
    KeepaliveReadsBack(info.keepalive);
    var body, h := ConnectBody(info), ConnectHeader(ConnectFlags(info), info.keepalive);
    assert body[10] == h[10] && body[11] == h[11];
  }

  lemma KeepaliveReadsBack(n: nat)
    ensures Be16(n / 256 % 256, n % 256) == n % 0x1_0000
  {
  }

  /** The flags as bits, the reserved one first. */
  function Flags(info: ConnectInfo): (bits: seq<bool>)
    ensures |bits| == 8
  {
    var will, q := info.willTopic != [], info.willQos % 4;
    [false, info.cleanSession, will, will && q % 2 == 1, will && q >= 2, will && info.willRetain,
     info.password != [], info.username != []]
  }

  lemma FlagsAreNumber(info: ConnectInfo)
    ensures ConnectFlags(info) == Number(Flags(info))
  {
    hide Flags;
    var f := Flags(info);
    NumberOfEight(f);
    FlagWeights(info);
  }

  lemma NumberOfEight(f: seq<bool>)
    requires |f| == 8
    ensures Number(f) == One(f[0]) + 2 * One(f[1]) + 4 * One(f[2]) + 8 * One(f[3]) + 16 * One(f[4])
      + 32 * One(f[5]) + 64 * One(f[6]) + 128 * One(f[7])
  {
    assert Number(f[8..]) == 0;
    assert f[0..] == f;
    hide One, Number;
    NumberFrom(f, 0);
    NumberFrom(f, 1);
    NumberFrom(f, 2);
    NumberFrom(f, 3);
    NumberFrom(f, 4);
    NumberFrom(f, 5);
    NumberFrom(f, 6);
    NumberFrom(f, 7);
  }

  lemma NumberFrom(f: seq<bool>, k: nat)
    requires k < |f|
    ensures Number(f[k..]) == 2 * Number(f[k + 1..]) + One(f[k])
  {
    assert f[k..][1..] == f[k + 1..];
  }

  lemma FlagWeights(info: ConnectInfo)
    ensures var f := Flags(info);
      ConnectFlags(info) == One(f[0]) + 2 * One(f[1]) + 4 * One(f[2]) + 8 * One(f[3]) + 16 * One(f[4])
        + 32 * One(f[5]) + 64 * One(f[6]) + 128 * One(f[7])
  {
  }

  /** Each bit of the flags says what it stands for. */
  lemma FlagsReadBack(info: ConnectInfo)
    ensures var flags, will, q := ConnectFlags(info), info.willTopic != [], info.willQos % 4;
      && (Bit(flags, 7) <==> info.username != []) && (Bit(flags, 6) <==> info.password != [])
      && (Bit(flags, 5) <==> will && info.willRetain) && (Bit(flags, 4) <==> will && q >= 2)
      && (Bit(flags, 3) <==> will && q % 2 == 1) && (Bit(flags, 2) <==> will)
      && (Bit(flags, 1) <==> info.cleanSession) && !Bit(flags, 0)
  {
    FlagsAreNumber(info);
    hide Bit, Number, ConnectFlags;
    forall k | 0 <= k < 8
      ensures Bit(ConnectFlags(info), k) <==> Flags(info)[k]
    {
      FlagBits(Flags(info), ConnectFlags(info), k);
    }
  }

  /** Every CONNECT that is encoded reads back as its parameters. */
  lemma ConnectRoundTrip(info: ConnectInfo, size: nat)
    requires Encodable(info, size) && size < 0x1_0000
    ensures ReadConnect(ConnectBody(info)) == Carried(info)
  {
    HeaderReadsBack(info);
    FlagsReadBack(info);
    hide ConnectFlags, ConnectStrings, ConnectBody, StringsOf, Be16, Bit;
    StringsReadBack(info);
  }

  /** A CONNECT with everything in it, octet by octet. */
  lemma ConnectExample()
    ensures var info := ConnectInfo([0x63], [0x75], [0x70], [0x77], [0x6D], 120, 1, true, true);
      Packet(FirstByte(CONNECT, 0, 0, 0), ConnectBody(info)) ==
        [0x10, 27, 0, 6, 0x4D, 0x51, 0x49, 0x73, 0x64, 0x70, 3, 0xEE, 0, 120,
         0, 1, 0x63, 0, 1, 0x77, 0, 1, 0x6D, 0, 1, 0x75, 0, 1, 0x70]
  {
  }

  /** A PUBLISH of QoS 1 to "a/b" that is to be retained, octet by octet. */
  lemma PublishExample()
    ensures PublishPacket([0x61, 0x2F, 0x62], 1, 1, 258, [0x68, 0x69]) ==
      [0x33, 9, 0, 3, 0x61, 0x2F, 0x62, 1, 2, 0x68, 0x69]
  {
  }
}
