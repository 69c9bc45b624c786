/**
 The MQTT client object. Every callback, the timer, `MQTT_Task` and the API calls change the
 fields; each is proved to make the step that module MqttRuns says.
 */
module MqttClient {
  import opened Bytes
  import opened Wrappers
  import opened MqttFrames
  import opened MqttMsg
  import opened MqttQueue
  import opened MqttSession
  import opened MqttRuns
  import D = MqttDecode

  /** `MQTT_Client`. The ghost histories only record what happened. */
  class Client {
    const cfg: Config
    const queue: Queue
    const encoder: Connection
    const inBuf: array<Byte>
    var connState: ConnState
    var pendingType: nat
    var sendTimeout: nat
    var keepAliveTick: nat
    var reconnectTick: nat
    var hung: bool
    ghost var ids: seq<nat>
    ghost var accepted: seq<seq<Byte>>
    ghost var gone: seq<Exit>

    ghost predicate Buffers() {
      && queue.rb.buf.Length == QUEUE_SIZE && encoder.buffer.Length == BUF_SIZE && inBuf.Length == BUF_SIZE
      && inBuf != encoder.buffer && inBuf != queue.rb.buf && encoder.buffer != queue.rb.buf
    }

    ghost predicate Valid()
      reads this, queue, queue.rb, queue.rb.buf, encoder
    {
      Buffers() && queue.Valid() && Kept(Out())
    }

    ghost function Out(): Outbox
      reads this, queue, encoder
    {
      Outbox(queue.segs, encoder.messageId, ids, accepted, gone)
    }

    ghost function State(): (s: Session)
      requires Buffers()
      reads this, queue, encoder, inBuf
      ensures |s.inBuf| == BUF_SIZE
    {
      Session(LinkState(), Out(), inBuf[..], hung)
    }

    ghost function LinkState(): Link
      reads this
    {
      Link(connState, pendingType, sendTimeout, keepAliveTick, reconnectTick)
    }

    /** `MQTT_InitConnection` and `MQTT_InitClient`. */
    constructor (c: Config)
      ensures Valid() && cfg == c && State() == Start()
    {
      cfg := c;
      queue := new Queue(QUEUE_SIZE);
      var outBuf := new Byte[BUF_SIZE](_ => 0);
      encoder := new Connection(outBuf);
      inBuf := new Byte[BUF_SIZE](_ => 0);
      connState, pendingType, sendTimeout, keepAliveTick, reconnectTick := WIFI_INIT, 0, 0, 0, 0;
      hung, ids, accepted, gone := false, [], [], [];
      new;
      assert inBuf[..] == seq(BUF_SIZE, _ => 0);
      assert Kept(Out());
    }

    // -------------------------------------------------------------- link callbacks

    /** `mqtt_dns_found`. */
    method DnsFoundCallback(answered: bool, first: bool) returns (actions: seq<Action>)
      requires Valid() && !hung
      modifies this`connState
      ensures Valid()
      ensures var e := if answered then DnsFound(first) else DnsFailed;
        Step(cfg, old(State()), e) == Outcome(State(), actions, [])
    {
      hide Kept, Queue.Valid;
      actions := [];
      if !answered {
        connState := TCP_RECONNECT_REQ;
        return;
      }
      if first {
        actions := [OpenTcp];
        connState := TCP_CONNECTING;
      }
    }

    /** `mqtt_tcpclient_sent_cb`. */
    method SentCb()
      requires Valid() && !hung
      modifies this`sendTimeout, this`keepAliveTick
      ensures Valid() && Step(cfg, old(State()), SentCallback) == Outcome(State(), [], [])
    {
      hide Kept, Queue.Valid;
      sendTimeout := 0;
      keepAliveTick := 0;
    }

    /** `mqtt_timer`. */
    method Timer()
      requires Valid() && !hung
      modifies this`connState, this`sendTimeout, this`keepAliveTick, this`reconnectTick
      ensures Valid() && Step(cfg, old(State()), Tick) == Outcome(State(), [], [])
    {
      StepOn(cfg, State(), [], false, 0);
      hide Step, Kept, TickLink;
      Count();
    }

    method Count()
      modifies this`connState, this`sendTimeout, this`keepAliveTick, this`reconnectTick
      ensures LinkState() == TickLink(old(LinkState()), cfg.info.keepalive)
    {
      if connState == MQTT_DATA {
        keepAliveTick := keepAliveTick + 1;
        if keepAliveTick > cfg.info.keepalive {
          connState := MQTT_KEEPALIVE_SEND;
        }
      } else if connState == TCP_RECONNECT_REQ {
        reconnectTick := reconnectTick + 1;
        if reconnectTick > RECONNECT_TIMEOUT {
          reconnectTick := 0;
          connState := TCP_RECONNECT;
        }
      }
      if sendTimeout > 0 {
        sendTimeout := sendTimeout - 1;
      }
    }

    /** `mqtt_tcpclient_discon_cb`. */
    method DisconCb()
      requires Valid() && !hung
      modifies this`connState
      ensures Valid() && Step(cfg, old(State()), TcpDisconnected) == Outcome(State(), [], [])
    {
      hide Kept, Queue.Valid;
      if connState == TCP_DISCONNECTING {
        connState := TCP_DISCONNECTED;
      } else if connState == MQTT_DELETING {
        connState := MQTT_DELETED;
      } else {
        connState := TCP_RECONNECT_REQ;
      }
    }

    /** `mqtt_tcpclient_recon_cb`. */
    method ReconCb()
      requires Valid() && !hung
      modifies this`connState
      ensures Valid() && Step(cfg, old(State()), TcpError) == Outcome(State(), [], [])
    {
      hide Kept, Queue.Valid;
      connState := TCP_RECONNECT_REQ;
    }

    /** `mqtt_tcpclient_connect_cb`; `espconn_send` is called with the encoder's message. */
    method ConnectCb() returns (actions: seq<Action>, ghost stale: Byte)
      requires Valid() && !hung
      modifies this`connState, this`pendingType, this`sendTimeout, this`ids, encoder, encoder.buffer
      ensures Valid() && Step(cfg, old(State()), TcpConnected(stale)) == Outcome(State(), actions, [])
    {
      hide Step, Kept, Queue.Valid, ConnectPending;
      ghost var before := State();
      KeptAnyId(Out(), 0, []);
      stale := EncodeConnect();
      ids := [];
      StepOn(cfg, before, [], false, stale);
      sendTimeout := SEND_TIMEOUT;
      actions := [SendConnect];
      connState := MQTT_CONNECT_SENDING;
    }

    method EncodeConnect() returns (ghost stale: Byte)
      requires encoder.buffer.Length == BUF_SIZE
      modifies this`pendingType, encoder, encoder.buffer
      ensures encoder.messageId == 0 && pendingType == ConnectPending(cfg, stale)
    {
      ConnectType(cfg.info);
      hide Encodable, Packet, ConnectBody, FirstByte, TypeOf;
      encoder.Reset();
      encoder.Connect(cfg.info);
      stale := encoder.buffer[0];
      pendingType := TypeOf(encoder.buffer[encoder.data]);
    }

    // -------------------------------------------------------------- the receive callback

    /** `QUEUE_Puts` of the encoder's message. */
    method PutReply()
      requires Valid() && encoder.data + encoder.length <= BUF_SIZE
      modifies this`accepted, queue, queue.rb, queue.rb.buf
      ensures Valid() && Out() == Reply(old(Out()), encoder.Message())
    {
      hide Kept, AfterPut, Reply, Room, Queue.Valid;
      ghost var o, m := Out(), encoder.Message();
      ReplyKeeps(o, m);
      KeptRoom(o);
      ReplyRing(o, m);
      var code := queue.Puts(encoder.buffer[encoder.data..encoder.data + encoder.length]);
      accepted := Reply(o, m).accepted;
    }

    method ReplyWithId(kind: nat, qos: nat, id: nat)
      requires Valid() && id < 0x1_0000
      modifies this`accepted, this`ids, queue, queue.rb, queue.rb.buf, encoder, encoder.buffer
      ensures Valid() && Out() == ReplyId(old(Out()), kind, qos, id)
    {
      hide Kept, Packet, FirstByte, NextId, Reply, Queue.Valid;
      ghost var o := AfterId(Out(), id == 0);
      KeptAnyId(Out(), o.messageId, o.ids);
      encoder.Acknowledge(kind, qos, id);
      ids := o.ids;
      PutReply();
    }

    method ReplyPing()
      requires Valid()
      modifies this`accepted, queue, queue.rb, queue.rb.buf, encoder, encoder.buffer
      ensures Valid() && Out() == Reply(old(Out()), Packet(FirstByte(PINGRESP, 0, 0, 0), []))
    {
      hide Kept, Packet, FirstByte, Reply, Queue.Valid;
      encoder.HeaderOnly(PINGRESP);
      PutReply();
    }

    /** The switch on the type of a packet, but for `deliver_publish`. */
    method DispatchPacket()
      requires Valid()
      modifies this`accepted, this`ids, queue, queue.rb, queue.rb.buf, encoder, encoder.buffer
      ensures Valid() && Out() == Dispatch(old(Out()), inBuf[..])
    {
      hide Kept, ReplyId, Reply, Queue.Valid, D.Id, TypeOf, QosOf, Packet, FirstByte;
      var kind, qos := TypeOf(inBuf[0]), QosOf(inBuf[0]);
      var id := D.GetId(inBuf, inBuf.Length);
      D.IdIsUint16(inBuf[..], inBuf.Length);
      if kind == PUBLISH && qos == 1 {
        ReplyWithId(PUBACK, 0, id);
      } else if kind == PUBLISH && qos == 2 {
        ReplyWithId(PUBREC, 0, id);
      } else if kind == PUBREC {
        ReplyWithId(PUBREL, 1, id);
      } else if kind == PUBREL {
        ReplyWithId(PUBCOMP, 0, id);
      } else if kind == PINGREQ {
        ReplyPing();
      }
    }

    /** `deliver_publish`. */
    method DeliverPublish(length: nat) returns (d: Delivery)
      requires length <= inBuf.Length
      ensures d == Deliver(inBuf[..], length)
    {
      var t := D.GetPublishTopic(inBuf, length);
      var p := D.GetPublishData(inBuf, length);
      d := Delivery(Slice(inBuf[..], t), if t.Some? then t.value.1 else length,
                    Slice(inBuf[..], p), if p.Some? then p.value.1 else 0);
    }

    /** The copy to the receive buffer, which keeps old bytes behind a short segment. */
    method CopyIn(seg: seq<Byte>)
      requires 0 < |seg| < inBuf.Length
      modifies inBuf
      ensures inBuf[..] == seg + old(inBuf[|seg|..])
      ensures inBuf[0] == seg[0]
    {
      forall i | 0 <= i < |seg| {
        inBuf[i] := seg[i];
      }
    }

    /** One packet, from READPACKET on, in a state that carries data. */
    method ReadOne(seg: seq<Byte>, calls: seq<Delivery>)
      returns (calls': seq<Delivery>, rest: Option<seq<Byte>>)
      requires Valid() && Carries(connState)
      modifies this`accepted, this`ids, queue, queue.rb, queue.rb.buf, encoder, encoder.buffer, inBuf
      ensures Valid()
      ensures Loop(Out(), inBuf[..], calls', rest) == Round(Loop(old(Out()), old(inBuf[..]), calls, Some(seg)))
    {
      hide Kept, Dispatch, Deliver, MessageLength, TypeOf, Queue.Valid;
      if |seg| == 0 || |seg| >= BUF_SIZE {
        return calls, None;
      }
      CopyIn(seg);
      assert inBuf[..] == seg + old(inBuf[..])[|seg|..];
      var length := MessageLengthOf(|seg|);
      DispatchPacket();
      if TypeOf(inBuf[0]) != PUBLISH {
        return calls, None;
      }
      var d := DeliverPublish(|seg|);
      calls' := calls + [d];
      rest := if length < |seg| then Some(seg[length..]) else None;
    }

    method MessageLengthOf(read: nat) returns (length: nat)
      requires read <= inBuf.Length
      ensures length == MessageLength(inBuf[..], read)
    {
      var total := D.GetTotalLength(inBuf, read);
      return total % 0x1_0000;
    }

    /** The loop over the packets of a segment. Where the source goes round for ever the
        method stops and says so. */
    method ReadPackets(seg: seq<Byte>) returns (calls: seq<Delivery>)
      requires Valid() && Carries(connState) && !hung
      modifies this`accepted, this`ids, this`hung, queue, queue.rb, queue.rb.buf, encoder, encoder.buffer, inBuf
      ensures Valid()
      ensures ReceiveData(old(State()), seg) == Outcome(State(), [], calls)
    {
      hide Kept, Round, Queue.Valid, ReadAll;
      ghost var l0 := Loop(Out(), inBuf[..], [], Some(seg));
      calls := [];
      var rest := Some(seg);
      while rest.Some? && !hung
        invariant Valid() && inBuf.Length == BUF_SIZE
        invariant if hung then Loop(Out(), inBuf[..], calls, rest) == ReadAll(l0) && rest.Some?
                  else ReadAll(Loop(Out(), inBuf[..], calls, rest)) == ReadAll(l0)
        decreases if hung then 0 else 1, if rest.Some? then 1 + |rest.value| else 0
      {
        ghost var l := Loop(Out(), inBuf[..], calls, rest);
        var before := |rest.value|;
        calls, rest := ReadOne(rest.value, calls);
        ReadAllRound(l);
        hung := rest.Some? && |rest.value| == before;
      }
      if !hung {
        ReadAllDone(Loop(Out(), inBuf[..], calls, rest));
      }
    }

    /** `mqtt_tcpclient_recv`. */
    method Recv(seg: seq<Byte>) returns (actions: seq<Action>, calls: seq<Delivery>)
      requires Valid() && !hung
      modifies this, queue, queue.rb, queue.rb.buf, encoder, encoder.buffer, inBuf
      ensures Valid() && Step(cfg, old(State()), Received(seg)) == Outcome(State(), actions, calls)
    {
      hide Kept, ReceiveData, Queue.Valid, Step;
      actions, calls := [], [];
      StepOn(cfg, State(), seg, false, 0);
      keepAliveTick := 0;
      if 0 < |seg| < BUF_SIZE {
        if Carries(connState) {
          calls := ReadPackets(seg);
        } else {
          CopyIn(seg);
          assert inBuf[..] == seg + old(inBuf[..])[|seg|..];
          if connState == MQTT_CONNECT_SENDING && TypeOf(inBuf[0]) == CONNACK {
            if pendingType != CONNECT {
              actions := [DropInvalid];
            } else {
              connState := MQTT_DATA;
            }
          }
        }
      }
    }

    // -------------------------------------------------------------- MQTT_Task

    /** `MQTT_Connect`. */
    method ConnectTcp()
      requires Valid() && !hung
      modifies this`connState, this`keepAliveTick, this`reconnectTick
      ensures Valid() && Step(cfg, old(State()), Connect) == Outcome(State(), [OpenTcp], [])
      ensures LinkState() == ConnectLink(old(LinkState())) && State() == old(State()).(link := LinkState())
    {
      hide Kept, Queue.Valid;
      keepAliveTick, reconnectTick := 0, 0;
      connState := TCP_CONNECTING;
    }

    /** `mqtt_send_keepalive`; `sendOk` is what `espconn_send` answers. */
    method SendKeepAlive(sendOk: bool)
      requires Valid()
      modifies this`connState, this`pendingType, this`sendTimeout, this`keepAliveTick, encoder`length, encoder`data,
               encoder.buffer
      ensures Valid() && LinkState() == PingLink(old(LinkState()), sendOk)
      ensures State() == old(State()).(link := LinkState())
    {
      hide Kept, Queue.Valid;
      encoder.HeaderOnly(PINGREQ);
      pendingType := PINGREQ;
      assert encoder.Message()[0] == FirstByte(PINGREQ, 0, 0, 0);
      pendingType := TypeOf(encoder.buffer[encoder.data]);
      sendTimeout := SEND_TIMEOUT;
      if sendOk {
        keepAliveTick := 0;
        connState := MQTT_DATA;
      } else {
        connState := TCP_RECONNECT_DISCONNECTING;
      }
    }

    /** `QUEUE_Gets` into the buffer of `MQTT_Task`. */
    method TakeMessage(dataBuffer: array<Byte>, leftover: bool) returns (code: int, len: nat)
      requires Valid() && dataBuffer.Length == BUF_SIZE && dataBuffer != queue.rb.buf
      modifies this`gone, queue, queue.rb, dataBuffer
      ensures Valid() && Out() == TakeOldest(old(Out())) && len <= dataBuffer.Length
      ensures code == 0 <==> Messages(old(Out()).ring) != []
      ensures code == 0 ==> dataBuffer[..len] == Messages(old(Out()).ring)[0]
    {
      hide Kept, Legal, RingBytes, Messages, AfterGet, Queue.Valid;
      ghost var o := Out();
      KeptHead(o);
      TakeOldestKeeps(o);
      code, len := queue.Gets(dataBuffer, leftover);
      gone := TakeOldest(o).gone;
    }

    /** The MQTT_DATA case of `MQTT_Task`. `junk` is what the local buffer started with. */
    method SendNext(leftover: bool) returns (actions: seq<Action>, junk: Byte)
      requires Valid()
      modifies this`pendingType, this`sendTimeout, this`gone, queue, queue.rb
      ensures Valid() && SendQueue(old(State()), junk) == Outcome(State(), actions, [])
    {
      actions, junk := [], 0;
      hide Kept, Queue.Valid, Messages, TakeOldest, TypeOf;
      var empty := queue.IsEmpty();
      if empty || sendTimeout != 0 {
        return;
      }
      var dataBuffer := new Byte[BUF_SIZE];
      actions, junk := SendThrough(dataBuffer, leftover);
    }

    method SendThrough(dataBuffer: array<Byte>, leftover: bool) returns (actions: seq<Action>, junk: Byte)
      requires Valid() && dataBuffer.Length == BUF_SIZE && dataBuffer != queue.rb.buf && dataBuffer != inBuf
      requires queue.segs != [] && sendTimeout == 0
      modifies this`pendingType, this`sendTimeout, this`gone, queue, queue.rb, dataBuffer
      ensures Valid() && SendQueue(old(State()), junk) == Outcome(State(), actions, [])
    {
      actions, junk := [], 0;
      hide Kept, Queue.Valid, Messages, TakeOldest, TypeOf;
      var code, len := TakeMessage(dataBuffer, leftover);
      if code == 0 {
        junk := dataBuffer[0];
        pendingType := TypeOf(dataBuffer[0]);
        sendTimeout := SEND_TIMEOUT;
        assert len > 0 ==> junk == dataBuffer[..len][0];
        actions := [SendQueued(dataBuffer[..len])];
      }
    }

    /** `MQTT_Task`. */
    method Task(sendOk: bool, leftover: bool) returns (actions: seq<Action>, junk: Byte)
      requires Valid() && !hung
      modifies this, queue, queue.rb, encoder`length, encoder`data, encoder.buffer
      ensures Valid() && Step(cfg, old(State()), RunTask(sendOk, junk)) == Outcome(State(), actions, [])
    {
      hide Kept, Queue.Valid, Step, ConnectLink, PingLink, SendQueue;
      ghost var s := State();
      actions, junk := [], 0;
      match connState {
      case TCP_RECONNECT =>
        ConnectTcp();
        actions := [OpenTcp];
      case MQTT_DELETING =>
        actions := [Action.Disconnect];
      case TCP_DISCONNECTING =>
        actions := [Action.Disconnect];
      case TCP_RECONNECT_DISCONNECTING =>
        actions := [Action.Disconnect];
      case TCP_DISCONNECTED =>
        actions := [FreeTcp];
      case MQTT_DELETED =>
        actions := [FreeClient];
      case MQTT_KEEPALIVE_SEND =>
        SendKeepAlive(sendOk);
        actions := [SendPing];
      case MQTT_DATA =>
        actions, junk := SendNext(leftover);
      case _ =>
      }
      StepOn(cfg, s, [], sendOk, junk);
    }

    // -------------------------------------------------------------- the API

    /** The loop that puts the encoder's message and evicts until it fits. */
    method Submission(leftover: bool) returns (ok: bool)
      requires Valid() && encoder.data + encoder.length <= BUF_SIZE
      modifies this`accepted, this`gone, queue, queue.rb, queue.rb.buf
      ensures Valid() && Out() == Enqueue(old(Out()), encoder.Message())
      ensures ok <==> Evict(old(queue.segs), encoder.Message(), QUEUE_SIZE).ok
    {
      hide Kept, Evict, Enqueue, Queue.Valid;
      var dataBuffer := new Byte[BUF_SIZE];
      ok := SubmitThrough(encoder.buffer[encoder.data..encoder.data + encoder.length], dataBuffer, leftover);
    }

    method SubmitThrough(packet: seq<Byte>, dataBuffer: array<Byte>, leftover: bool) returns (ok: bool)
      requires Valid() && |packet| <= BUF_SIZE && dataBuffer != queue.rb.buf
      modifies this`accepted, this`gone, queue, queue.rb, queue.rb.buf, dataBuffer
      ensures Valid() && Out() == Enqueue(old(Out()), packet)
      ensures ok <==> Evict(old(queue.segs), packet, QUEUE_SIZE).ok
    {
      ghost var o := Out();
      EnqueueKeeps(o, packet);
      EnqueueRing(o, packet);
      hide Kept, Evict, Enqueue, Queue.Valid;
      ok := queue.PutEvicting(packet, dataBuffer, leftover);
      accepted, gone := Enqueue(o, packet).accepted, Enqueue(o, packet).gone;
    }

    /** `MQTT_Publish`. A message that the encoder refuses reaches no queue. */
    method Publish(topic: seq<Byte>, payload: seq<Byte>, qos: nat, retain: nat, leftover: bool)
      returns (ok: bool, id: nat)
      requires Valid() && !hung
      modifies this`accepted, this`gone, this`ids, queue, queue.rb, queue.rb.buf, encoder, encoder.buffer
      ensures Valid()
      ensures encoder.messageId == IdAfter(old(encoder.messageId), topic, qos, BUF_SIZE)
      ensures var packet, taken := PublishPacket(topic, qos, retain, id, payload), TakesId(topic, qos, BUF_SIZE);
        if topic != [] && 3 + |PublishBody(topic, qos, id, payload)| <= BUF_SIZE
        then Step(cfg, old(State()), Submit(packet, taken)) == Outcome(State(), [], [])
          && id == (if qos > 0 then encoder.messageId else 0)
          && |packet| <= BUF_SIZE && (ok <==> Evict(old(queue.segs), packet, QUEUE_SIZE).ok)
        else !ok && Step(cfg, old(State()), Refuse(taken)) == Outcome(State(), [], [])
    {
      hide Kept, Queue.Valid, Enqueue, PublishBody, FirstByte, Step, Evict, NextId, TakesId;
      ghost var s, taken := State(), TakesId(topic, qos, BUF_SIZE);
      ghost var o := AfterId(Out(), taken);
      KeptAnyId(Out(), o.messageId, o.ids);
      id := encoder.Publish(topic, payload, qos, retain);
      PublishTakesId(topic, qos, id, payload);
      ids := o.ids;
      SubmitStep(cfg, s, encoder.Message(), taken);
      if encoder.length == 0 {
        return false, id;
      }
      ok := Submission(leftover);
    }

    /** `MQTT_Ping`. */
    method Ping(leftover: bool) returns (ok: bool)
      requires Valid() && !hung
      modifies this`accepted, this`gone, queue, queue.rb, queue.rb.buf, encoder`length, encoder`data, encoder.buffer
      ensures Valid()
      ensures var packet := Packet(FirstByte(PINGREQ, 0, 0, 0), []);
        && Step(cfg, old(State()), Submit(packet, false)) == Outcome(State(), [], [])
        && (ok <==> Evict(old(queue.segs), packet, QUEUE_SIZE).ok)
    {
      hide Kept, Queue.Valid, Enqueue, Packet, FirstByte, Step, Evict;
      ghost var s := State();
      encoder.HeaderOnly(PINGREQ);
      SubmitStep(cfg, s, encoder.Message(), false);
      ok := Submission(leftover);
    }

    /** `MQTT_Disconnect` and `MQTT_DeleteClient`. */
    method Leave(delete: bool)
      requires Valid() && !hung
      modifies this`connState
      ensures Valid()
      ensures Step(cfg, old(State()), if delete then Deleting else Disconnecting) == Outcome(State(), [], [])
    {
      hide Kept, Queue.Valid;
      connState := if delete then MQTT_DELETING else TCP_DISCONNECTING;
    }
  }

  lemma ReplyRing(o: Outbox, packet: seq<Byte>)
    ensures Reply(o, packet) == o.(ring := AfterPut(o.ring, packet, Room(o)), accepted := Reply(o, packet).accepted)
  {
    hide AfterPut;
  }

  /** A PUBLISH that fits and has QoS above 0 has used an identifier. */
  lemma PublishTakesId(topic: seq<Byte>, qos: nat, id: nat, payload: seq<Byte>)
    ensures topic != [] && 3 + |PublishBody(topic, qos, id, payload)| <= BUF_SIZE && qos > 0
      ==> TakesId(topic, qos, BUF_SIZE)
  {
  }

  lemma SubmitStep(cfg: Config, s: Session, packet: seq<Byte>, taken: bool)
    requires |s.inBuf| == BUF_SIZE && !s.hung
    ensures Step(cfg, s, Submit(packet, taken)) == Quiet(s.(out := Enqueue(AfterId(s.out, taken), packet)))
    ensures Step(cfg, s, Refuse(taken)) == Quiet(s.(out := AfterId(s.out, taken)))
  {
    hide Enqueue, AfterId;
  }

  /** A queued message fits the buffer it is taken out to. */
  lemma KeptHead(o: Outbox)
    requires Kept(o)
    ensures Messages(o.ring) != [] ==> |Messages(o.ring)[0]| <= BUF_SIZE
  {
    var n := |ExitMessages(o.gone)|;
    if Messages(o.ring) != [] {
      assert o.accepted[n] == Messages(o.ring)[0];
    }
  }

  lemma KeptRoom(o: Outbox)
    requires Kept(o)
    ensures |RingBytes(o.ring)| <= QUEUE_SIZE && Room(o) == QUEUE_SIZE - |RingBytes(o.ring)|
  {
  }
}