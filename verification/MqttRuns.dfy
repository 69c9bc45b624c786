/**
 The MQTT client as a step system: one event is one callback, timer tick, task run or
 API call, and the operating system runs them one at a time in any order.
 */
module MqttRuns {
  import opened Bytes
  import opened Wrappers
  import opened MqttFrames
  import opened MqttMsg
  import opened MqttSession
  import D = MqttDecode

  const SEND_TIMEOUT := 5
  const RECONNECT_TIMEOUT := 5

  /** `tConnState`, less the states that nothing ever sets. */
  datatype ConnState =
    | WIFI_INIT
    | TCP_DISCONNECTING | TCP_DISCONNECTED | TCP_RECONNECT_DISCONNECTING | TCP_RECONNECT_REQ
    | TCP_RECONNECT | TCP_CONNECTING
    | MQTT_CONNECT_SENDING | MQTT_DATA | MQTT_KEEPALIVE_SEND
    | MQTT_DELETING | MQTT_DELETED

  /** What goes to the transport. */
  datatype Action =
    | OpenTcp  // connects, or asks for the address first
    | SendConnect | SendPing | SendQueued(message: seq<Byte>) | DropInvalid | Disconnect
    | FreeTcp     // the TCP connection's memory
    | FreeClient  // and all the rest

  datatype Link = Link(conn: ConnState, pendingType: nat, sendTimeout: nat, keepAliveTick: nat, reconnectTick: nat)

  /** The whole client. In a hung client the receive loop goes round for ever. */
  datatype Session = Session(link: Link, out: Outbox, inBuf: seq<Byte>, hung: bool)

  datatype Config = Config(info: ConnectInfo)

  datatype Event =
    | DnsFailed
    | DnsFound(firstAddress: bool)     // did this answer bring the first address?
    | TcpConnected(stale: Byte)        // what buffer[0] holds should the encoder fail
    | Received(segment: seq<Byte>)
    | SentCallback
    | Tick
    | TcpDisconnected
    | TcpError
    | Submit(packet: seq<Byte>, takesId: bool)  // publish, subscribe, unsubscribe or ping
    | Refuse(takesId: bool)            // a publish that cannot be encoded
    | RunTask(sendOk: bool, junk: Byte)        // junk: what the buffer of MQTT_Task held before
    | Connect
    | Disconnecting
    | Deleting

  /** A step's result: the new state, what went to the transport, the data callbacks. */
  datatype Outcome = Outcome(next: Session, actions: seq<Action>, calls: seq<Delivery>)

  function Quiet(next: Session): Outcome {
    Outcome(next, [], [])
  }

  /** The type of the pending message once the CONNECT is encoded, or has failed to be. */
  function ConnectPending(cfg: Config, stale: Byte): nat {
    if Encodable(cfg.info, BUF_SIZE) then CONNECT else TypeOf(stale)
  }

  /** `mqtt_timer`. */
  function TickLink(l: Link, keepalive: nat): Link {
    var t := l.(sendTimeout := if l.sendTimeout > 0 then l.sendTimeout - 1 else 0);
    if l.conn == MQTT_DATA then
      t.(keepAliveTick := l.keepAliveTick + 1,
         conn := if l.keepAliveTick + 1 > keepalive then MQTT_KEEPALIVE_SEND else MQTT_DATA)
    else if l.conn == TCP_RECONNECT_REQ then
      if l.reconnectTick + 1 > RECONNECT_TIMEOUT then t.(reconnectTick := 0, conn := TCP_RECONNECT)
      else t.(reconnectTick := l.reconnectTick + 1)
    else t
  }

  /** `mqtt_tcpclient_recv`. */
  function Receive(s: Session, seg: seq<Byte>): Outcome
    requires |s.inBuf| == BUF_SIZE
  {
    var l := s.link.(keepAliveTick := 0);
    if |seg| == 0 || |seg| >= BUF_SIZE then Quiet(s.(link := l))
    else
      match l.conn
      case MQTT_DATA => ReceiveData(s.(link := l), seg)
      case MQTT_KEEPALIVE_SEND => ReceiveData(s.(link := l), seg)
      case MQTT_CONNECT_SENDING =>
        var c := s.(link := l, inBuf := seg + s.inBuf[|seg|..]);
        if TypeOf(seg[0]) != CONNACK then Quiet(c)
        else if l.pendingType != CONNECT then Outcome(c, [DropInvalid], [])
        else Quiet(c.(link := l.(conn := MQTT_DATA)))
      case _ => Quiet(s.(link := l, inBuf := seg + s.inBuf[|seg|..]))
  }

  function ReceiveData(s: Session, seg: seq<Byte>): Outcome
    requires |s.inBuf| == BUF_SIZE
  {
    var r := ReadAll(Loop(s.out, s.inBuf, [], Some(seg)));
    Outcome(s.(out := r.out, inBuf := r.inBuf, hung := r.rest.Some?), [], r.calls)
  }

  /** `MQTT_Connect` */
  function ConnectLink(l: Link): Link {
    l.(conn := TCP_CONNECTING, keepAliveTick := 0, reconnectTick := 0)
  }

  /** `mqtt_send_keepalive`. */
  function PingLink(l: Link, sendOk: bool): Link {
    var p := l.(pendingType := PINGREQ, sendTimeout := SEND_TIMEOUT);
    if sendOk then p.(keepAliveTick := 0, conn := MQTT_DATA) else p.(conn := TCP_RECONNECT_DISCONNECTING)
  }

  /** The MQTT_DATA case of `MQTT_Task`. The type of an empty message is read from stale
      bytes, `junk`. A queue of nothing but torn frames is emptied. */
  function SendQueue(s: Session, junk: Byte): Outcome {
    var l, ms := s.link, Messages(s.out.ring);
    if s.out.ring == [] || l.sendTimeout != 0 then Quiet(s)
    else if ms == [] then Quiet(s.(out := TakeOldest(s.out)))
    else
      var pending := TypeOf(if ms[0] == [] then junk else ms[0][0]);
      Outcome(s.(link := l.(pendingType := pending, sendTimeout := SEND_TIMEOUT), out := TakeOldest(s.out)),
              [SendQueued(ms[0])], [])
  }

  /** `MQTT_Task`. */
  function TaskStep(s: Session, sendOk: bool, junk: Byte): Outcome {
    match s.link.conn
    case TCP_RECONNECT => Outcome(s.(link := ConnectLink(s.link)), [OpenTcp], [])
    case MQTT_DELETING => Outcome(s, [Action.Disconnect], [])
    case TCP_DISCONNECTING => Outcome(s, [Action.Disconnect], [])
    case TCP_RECONNECT_DISCONNECTING => Outcome(s, [Action.Disconnect], [])
    case TCP_DISCONNECTED => Outcome(s, [FreeTcp], [])
    case MQTT_DELETED => Outcome(s, [FreeClient], [])
    case MQTT_KEEPALIVE_SEND => Outcome(s.(link := PingLink(s.link, sendOk)), [SendPing], [])
    case MQTT_DATA => SendQueue(s, junk)
    case _ => Quiet(s)
  }

  function Step(cfg: Config, s: Session, e: Event): (r: Outcome)
    requires |s.inBuf| == BUF_SIZE
    ensures |r.next.inBuf| == BUF_SIZE
  {
    var l := s.link;
    if s.hung then Quiet(s)
    else
      match e
      case DnsFailed => Quiet(s.(link := l.(conn := TCP_RECONNECT_REQ)))
      case DnsFound(first) =>
        if first then Outcome(s.(link := l.(conn := TCP_CONNECTING)), [OpenTcp], []) else Quiet(s)
      case TcpConnected(stale) =>
        Outcome(s.(link := l.(conn := MQTT_CONNECT_SENDING, pendingType := ConnectPending(cfg, stale),
                              sendTimeout := SEND_TIMEOUT),
                   out := s.out.(messageId := 0, ids := [])), [SendConnect], [])
      case Received(seg) => Receive(s, seg)
      case SentCallback => Quiet(s.(link := l.(sendTimeout := 0, keepAliveTick := 0)))
      case Tick => Quiet(s.(link := TickLink(l, cfg.info.keepalive)))
      case TcpDisconnected =>
        Quiet(s.(link := l.(conn := match l.conn
                                    case TCP_DISCONNECTING => TCP_DISCONNECTED
                                    case MQTT_DELETING => MQTT_DELETED
                                    case _ => TCP_RECONNECT_REQ)))
      case TcpError => Quiet(s.(link := l.(conn := TCP_RECONNECT_REQ)))
      case Submit(packet, takesId) => Quiet(s.(out := Enqueue(AfterId(s.out, takesId), packet)))
      case Refuse(takesId) => Quiet(s.(out := AfterId(s.out, takesId)))
      case RunTask(sendOk, junk) => TaskStep(s, sendOk, junk)
      case Connect => Outcome(s.(link := ConnectLink(l)), [OpenTcp], [])
      case Disconnecting => Quiet(s.(link := l.(conn := TCP_DISCONNECTING)))
      case Deleting => Quiet(s.(link := l.(conn := MQTT_DELETING)))
  }

  /** The steps that the larger callbacks make, one by one. */
  lemma StepOn(cfg: Config, s: Session, seg: seq<Byte>, sendOk: bool, b: Byte)
    requires |s.inBuf| == BUF_SIZE && !s.hung
    ensures Step(cfg, s, Tick) == Quiet(s.(link := TickLink(s.link, cfg.info.keepalive)))
    ensures Step(cfg, s, Received(seg)) == Receive(s, seg)
    ensures Step(cfg, s, RunTask(sendOk, b)) == TaskStep(s, sendOk, b)
    ensures Step(cfg, s, TcpConnected(b)) ==
      Outcome(s.(link := s.link.(conn := MQTT_CONNECT_SENDING, pendingType := ConnectPending(cfg, b),
                                 sendTimeout := SEND_TIMEOUT),
                 out := s.out.(messageId := 0, ids := [])), [SendConnect], [])
  {
    hide Receive, TaskStep, TickLink, ConnectPending;
  }

  /** After `MQTT_InitConnection` and `MQTT_InitClient`. */
  function Start(): (s: Session)
    ensures |s.inBuf| == BUF_SIZE
  {
    Session(Link(WIFI_INIT, 0, 0, 0, 0), Outbox([], 0, [], [], []), seq(BUF_SIZE, _ => 0), false)
  }

  /** The state after these events. */
  function Run(cfg: Config, events: seq<Event>): (s: Session)
    ensures |s.inBuf| == BUF_SIZE
  {
    if events == [] then Start()
    else Step(cfg, Run(cfg, events[..|events| - 1]), events[|events| - 1]).next
  }

  /** The `k`th step of a run. */
  function StepAt(cfg: Config, events: seq<Event>, k: nat): Outcome
    requires k < |events|
  {
    Step(cfg, Run(cfg, events[..k]), events[k])
  }

  lemma RunStep(cfg: Config, events: seq<Event>, k: nat)
    requires k < |events|
    ensures Run(cfg, events[..k + 1]) == StepAt(cfg, events, k).next
  {
    assert events[..k + 1][..k] == events[..k];
  }

  // ---------------------------------------------------------------- nothing before CONNACK

  predicate IsConnack(e: Event) {
    e.Received? && 0 < |e.segment| < BUF_SIZE && TypeOf(e.segment[0]) == CONNACK
  }

  /** A CONNACK arrived, and no TCP connection was made after it. */
  predicate Acked(events: seq<Event>) {
    events != [] &&
    var e := events[|events| - 1];
    !e.TcpConnected? && (IsConnack(e) || Acked(events[..|events| - 1]))
  }

  predicate Carries(c: ConnState) {
    c == MQTT_DATA || c == MQTT_KEEPALIVE_SEND
  }

  /** How one step can bring the link into a state that carries data. */
  lemma StepCarries(cfg: Config, s: Session, e: Event)
    requires |s.inBuf| == BUF_SIZE && !s.hung
    requires Carries(Step(cfg, s, e).next.link.conn)
    ensures !e.TcpConnected? && (IsConnack(e) || Carries(s.link.conn))
  {
    hide Enqueue, TakeOldest, ReadAll, Messages;
  }

  /** In every run the client is connected, in the sense of MQTT, only if the broker has
      accepted the latest TCP connection. */
  lemma {:induction false} ConnackFirst(cfg: Config, events: seq<Event>)
    ensures var s := Run(cfg, events); !s.hung && Carries(s.link.conn) ==> Acked(events)
  {
    if events != [] {
      var n := |events| - 1;
      ConnackFirst(cfg, events[..n]);
      var s := Run(cfg, events[..n]);
      if !s.hung && Carries(Step(cfg, s, events[n]).next.link.conn) {
        StepCarries(cfg, s, events[n]);
      }
      hide Step;
    }
  }

  /** No queued message and no ping goes out before the CONNACK for its connection. */
  lemma NothingSentBeforeConnack(cfg: Config, events: seq<Event>, k: nat, a: Action)
    requires k < |events| && a in StepAt(cfg, events, k).actions
    requires a.SendQueued? || a.SendPing?
    ensures Acked(events[..k])
  {
    ConnackFirst(cfg, events[..k]);
    SendsOnlyWhenCarrying(cfg, Run(cfg, events[..k]), events[k], a);
  }

  lemma SendsOnlyWhenCarrying(cfg: Config, s: Session, e: Event, a: Action)
    requires |s.inBuf| == BUF_SIZE && a in Step(cfg, s, e).actions && (a.SendQueued? || a.SendPing?)
    ensures !s.hung && Carries(s.link.conn)
  {
    hide Enqueue, TakeOldest, ReadAll, Messages;
  }

  // ---------------------------------------------------------------- the "Invalid packet" branch

  /** What the encoder's buffer[0] held at the latest TCP connection. */
  function LastStale(events: seq<Event>): Byte {
    if events == [] then 0
    else
      match events[|events| - 1]
      case TcpConnected(stale) => stale
      case _ => LastStale(events[..|events| - 1])
  }

  lemma PendingKept(cfg: Config, s: Session, e: Event)
    requires |s.inBuf| == BUF_SIZE && !s.hung && !e.TcpConnected?
    requires Step(cfg, s, e).next.link.conn == MQTT_CONNECT_SENDING
    ensures s.link.conn == MQTT_CONNECT_SENDING
    ensures Step(cfg, s, e).next.link.pendingType == s.link.pendingType
  {
    hide Enqueue, TakeOldest, ReadAll, Messages;
  }

  /** While the CONNECT is on its way, the pending type is the one it left. */
  lemma {:induction false} ConnectPends(cfg: Config, events: seq<Event>)
    ensures var s := Run(cfg, events);
      !s.hung && s.link.conn == MQTT_CONNECT_SENDING ==> s.link.pendingType == ConnectPending(cfg, LastStale(events))
  {
    if events != [] {
      var n := |events| - 1;
      ConnectPends(cfg, events[..n]);
      var s, e := Run(cfg, events[..n]), events[n];
      if !s.hung && !e.TcpConnected? && Step(cfg, s, e).next.link.conn == MQTT_CONNECT_SENDING {
        PendingKept(cfg, s, e);
      }
    }
  }

  /** The client drops a connection as invalid exactly when a CONNACK answers a CONNECT
      that could not be encoded, and the encoder's buffer held another type: never when
      the connection's parameters fit the buffer. */
  lemma InvalidIff(cfg: Config, events: seq<Event>, k: nat)
    requires k < |events|
    ensures var s := Run(cfg, events[..k]);
      DropInvalid in StepAt(cfg, events, k).actions <==>
      && !s.hung && s.link.conn == MQTT_CONNECT_SENDING && IsConnack(events[k])
      && !Encodable(cfg.info, BUF_SIZE) && TypeOf(LastStale(events[..k])) != CONNECT
  {
    ConnectPends(cfg, events[..k]);
    DropIff(cfg, Run(cfg, events[..k]), events[k]);
  }

  lemma DropIff(cfg: Config, s: Session, e: Event)
    requires |s.inBuf| == BUF_SIZE
    ensures DropInvalid in Step(cfg, s, e).actions <==>
      !s.hung && s.link.conn == MQTT_CONNECT_SENDING && IsConnack(e) && s.link.pendingType != CONNECT
  {
    hide Enqueue, TakeOldest, ReadAll, Messages, Encodable;
  }

  // ---------------------------------------------------------------- the CONNACK connects

  /** The link is lost, given up or started anew. */
  predicate Breaks(e: Event) {
    || e == DnsFailed || e == DnsFound(true) || e == TcpDisconnected || e == TcpError
    || e == Connect || e == Disconnecting || e == Deleting
  }

  /** The last event is a CONNACK, and the encoder's buffer says that a CONNECT is pending. */
  predicate Accepts(cfg: Config, events: seq<Event>) {
    events != [] && IsConnack(events[|events| - 1])
    && ConnectPending(cfg, LastStale(events[..|events| - 1])) == CONNECT
  }

  /** TCP is connected and the CONNECT is not answered yet. */
  predicate Handshaking(cfg: Config, events: seq<Event>) {
    events != [] &&
    var e := events[|events| - 1];
    e.TcpConnected? || (!Breaks(e) && !Accepts(cfg, events) && Handshaking(cfg, events[..|events| - 1]))
  }

  /** The last event is a ping that the transport does not take. */
  predicate PingFails(cfg: Config, events: seq<Event>) {
    events != [] &&
    var e := events[|events| - 1];
    e.RunTask? && !e.sendOk && Pings(cfg, events, |events| - 1)
  }

  /** A CONNACK answered the CONNECT of the latest TCP connection, and since then nothing
      has broken the link. */
  predicate Linked(cfg: Config, events: seq<Event>) {
    events != [] &&
    var e, before := events[|events| - 1], events[..|events| - 1];
    || (Handshaking(cfg, before) && Accepts(cfg, events))
    || (Linked(cfg, before) && !Breaks(e) && !e.TcpConnected? && !PingFails(cfg, events))
  }

  /** Some segment that came over a linked connection keeps the receive loop going for ever. */
  predicate Jammed(cfg: Config, events: seq<Event>) {
    events != [] &&
    var e, before := events[|events| - 1], events[..|events| - 1];
    Jammed(cfg, before) || (e.Received? && Stalls(e.segment) && Linked(cfg, before))
  }

  lemma StepLinks(cfg: Config, s: Session, e: Event)
    requires |s.inBuf| == BUF_SIZE && !s.hung
    ensures var r := Step(cfg, s, e);
      var accepts := s.link.conn == MQTT_CONNECT_SENDING && IsConnack(e) && s.link.pendingType == CONNECT;
      && (r.next.link.conn == MQTT_CONNECT_SENDING <==>
            e.TcpConnected? || (s.link.conn == MQTT_CONNECT_SENDING && !Breaks(e) && !accepts))
      && (Carries(r.next.link.conn) <==>
            accepts || (Carries(s.link.conn) && !Breaks(e) && !e.TcpConnected?
                        && !(e.RunTask? && !e.sendOk && SendPing in r.actions)))
  {
    hide Enqueue, TakeOldest, ReadAll, Messages, Encodable;
  }

  /** In every run: the client hangs exactly when it is jammed. Until then it waits for its
      CONNACK exactly while it is handshaking, and carries data exactly while it is linked. */
  lemma {:induction false} CarriesIffLinked(cfg: Config, events: seq<Event>)
    ensures var s := Run(cfg, events);
      && (s.hung <==> Jammed(cfg, events))
      && (!s.hung ==> (s.link.conn == MQTT_CONNECT_SENDING <==> Handshaking(cfg, events)))
      && (!s.hung ==> (Carries(s.link.conn) <==> Linked(cfg, events)))
  {
    if events != [] {
      var n := |events| - 1;
      var s := Run(cfg, events[..n]);
      CarriesIffLinked(cfg, events[..n]);
      ConnectPends(cfg, events[..n]);
      hide Step, Breaks, Carries, IsConnack, Stalls, ConnectPending, LastStale;
      LastStep(cfg, events);
      if !s.hung {
        StepLinks(cfg, s, events[n]);
        HangsIff(cfg, s, events[n]);
      }
    }
  }

  lemma LastStep(cfg: Config, events: seq<Event>)
    requires events != []
    ensures var n := |events| - 1; var s := Run(cfg, events[..n]);
      && Run(cfg, events) == Step(cfg, s, events[n]).next && (s.hung ==> Run(cfg, events).hung)
      && (Pings(cfg, events, n) <==> SendPing in Step(cfg, s, events[n]).actions)
  {
  }

  lemma {:induction false} HandshakeGoesOn(cfg: Config, events: seq<Event>, i: nat)
    requires i < |events| && events[i].TcpConnected?
    requires forall k | i < k < |events| :: !events[k].TcpConnected? && !Breaks(events[k]) && !IsConnack(events[k])
    ensures Handshaking(cfg, events)
    decreases |events|
  {
    hide Breaks, IsConnack;
    if i < |events| - 1 {
      HandshakeGoesOn(cfg, events[..|events| - 1], i);
    }
  }

  lemma {:induction false} LinkGoesOn(cfg: Config, events: seq<Event>, j: nat)
    requires 0 < j <= |events| && Linked(cfg, events[..j])
    requires forall k | j <= k < |events| :: !events[k].TcpConnected? && !Breaks(events[k])
    requires forall k | j <= k < |events| :: events[k].RunTask? ==> events[k].sendOk
    ensures Linked(cfg, events)
    decreases |events|
  {
    hide Breaks, Pings, Handshaking, Accepts;
    if j == |events| {
      assert events[..j] == events;
    } else {
      assert events[..|events| - 1][..j] == events[..j];
      LinkGoesOn(cfg, events[..|events| - 1], j);
    }
  }

  /**
   What links the client, on the events alone: TCP connects, the first CONNACK after that
   arrives, nothing breaks the link, and the transport takes what is sent since. The
   connection's parameters fit the buffer.
   */
  lemma ConnackLinks(cfg: Config, events: seq<Event>, i: nat, j: nat)
    requires i < j < |events| && events[i].TcpConnected? && IsConnack(events[j]) && Encodable(cfg.info, BUF_SIZE)
    requires forall k | i < k < |events| :: !events[k].TcpConnected? && !Breaks(events[k])
    requires forall k | i < k < j :: !IsConnack(events[k])
    requires forall k | j < k < |events| :: events[k].RunTask? ==> events[k].sendOk
    requires forall k | 0 <= k < |events| :: events[k].Received? ==> !Stalls(events[k].segment)
    ensures Linked(cfg, events) && !Jammed(cfg, events)
    ensures var s := Run(cfg, events); !s.hung && Carries(s.link.conn)
  {
    hide Breaks, Stalls, Encodable, Run, IsConnack, Handshaking, Linked, Jammed, Carries;
    HandshakeGoesOn(cfg, events[..j], i);
    assert events[..j + 1][..j] == events[..j];
    FirstLink(cfg, events[..j + 1]);
    LinkGoesOn(cfg, events, j + 1);
    NeverJams(cfg, events);
    CarriesIffLinked(cfg, events);
  }

  lemma FirstLink(cfg: Config, events: seq<Event>)
    requires events != [] && IsConnack(events[|events| - 1]) && Encodable(cfg.info, BUF_SIZE)
    requires Handshaking(cfg, events[..|events| - 1])
    ensures Linked(cfg, events)
  {
    hide Handshaking, IsConnack, LastStale, Encodable;
  }

  lemma {:induction false} NeverJams(cfg: Config, events: seq<Event>)
    requires forall k | 0 <= k < |events| :: events[k].Received? ==> !Stalls(events[k].segment)
    ensures !Jammed(cfg, events)
  {
    hide Stalls, Linked;
    if events != [] {
      NeverJams(cfg, events[..|events| - 1]);
    }
  }

  /** Over a new connection, the four octets 20 02 00 00 are enough. */
  lemma FirstConnection(cfg: Config, stale: Byte)
    requires Encodable(cfg.info, BUF_SIZE)
    ensures var events := [Connect, TcpConnected(stale), Received([0x20, 0x02, 0x00, 0x00])];
      Linked(cfg, events) && !Run(cfg, events).hung && Carries(Run(cfg, events).link.conn)
  {
    hide Encodable, Run, Linked, Jammed, Carries;
    var events := [Connect, TcpConnected(stale), Received([0x20, 0x02, 0x00, 0x00])];
    assert IsConnack(events[2]) && !Stalls([0x20, 0x02, 0x00, 0x00]);
    ConnackLinks(cfg, events, 1, 2);
  }

  // ---------------------------------------------------------------- sends are apart

  predicate SendsQueued(cfg: Config, events: seq<Event>, k: nat)
    requires k < |events|
  {
    var a := StepAt(cfg, events, k).actions;
    a != [] && a[0].SendQueued?
  }

  predicate SendsAnything(cfg: Config, events: seq<Event>, k: nat)
    requires k < |events|
  {
    var a := StepAt(cfg, events, k).actions;
    a != [] && (a[0].SendQueued? || a[0].SendPing? || a[0].SendConnect?)
  }

  function Ticks(events: seq<Event>): nat {
    if events == [] then 0
    else Ticks(events[..|events| - 1]) + if events[|events| - 1] == Tick then 1 else 0
  }

  lemma TimeoutFalls(cfg: Config, s: Session, e: Event)
    requires |s.inBuf| == BUF_SIZE && e != SentCallback
    ensures var t := Step(cfg, s, e).next.link.sendTimeout;
      t == SEND_TIMEOUT || t == s.link.sendTimeout || (e == Tick && t + 1 == s.link.sendTimeout)
  {
    hide Enqueue, TakeOldest, ReadAll, Messages, Encodable;
  }

  lemma TimeoutSet(cfg: Config, s: Session, e: Event)
    requires |s.inBuf| == BUF_SIZE
    requires var a := Step(cfg, s, e).actions; a != [] && a[0].SendQueued?
    ensures s.link.sendTimeout == 0 && Step(cfg, s, e).next.link.sendTimeout == SEND_TIMEOUT
  {
    hide Enqueue, TakeOldest, ReadAll, Messages, Encodable;
  }

  lemma OneMoreEvent(events: seq<Event>, i: nat, j: nat)
    requires i + 1 < j <= |events|
    ensures Ticks(events[i + 1..j]) == Ticks(events[i + 1..j - 1]) + if events[j - 1] == Tick then 1 else 0
    ensures SentCallback !in events[i + 1..j] ==>
      SentCallback !in events[i + 1..j - 1] && events[j - 1] != SentCallback
  {
    assert events[i + 1..j] == events[i + 1..j - 1] + [events[j - 1]];
  }

  lemma TimeoutStarts(cfg: Config, events: seq<Event>, i: nat)
    requires i < |events| && SendsAnything(cfg, events, i)
    ensures Run(cfg, events[..i + 1]).link.sendTimeout == 5
  {
    hide Step, Run;
    RunStep(cfg, events, i);
    AnythingSets(cfg, Run(cfg, events[..i]), events[i]);
  }

  lemma AnythingSets(cfg: Config, s: Session, e: Event)
    requires |s.inBuf| == BUF_SIZE
    requires var a := Step(cfg, s, e).actions;
      a != [] && (a[0].SendQueued? || a[0].SendPing? || a[0].SendConnect?)
    ensures Step(cfg, s, e).next.link.sendTimeout == 5
  {
    hide Enqueue, TakeOldest, ReadAll, Messages, Encodable;
  }

  lemma {:induction false} TimeoutBound(cfg: Config, events: seq<Event>, i: nat, j: nat)
    requires i < j <= |events| && SendsAnything(cfg, events, i) && SentCallback !in events[i + 1..j]
    ensures Run(cfg, events[..j]).link.sendTimeout + Ticks(events[i + 1..j]) >= 5
    decreases j
  {
    hide Step, Run, Ticks, SendsAnything;
    if j == i + 1 {
      TimeoutStarts(cfg, events, i);
    } else {
      RunStep(cfg, events, j - 1);
      OneMoreEvent(events, i, j);
      TimeoutBound(cfg, events, i, j - 1);
      TimeoutFalls(cfg, Run(cfg, events[..j - 1]), events[j - 1]);
    }
  }

  /** Between a CONNECT, a ping or a queued message that is sent and the next queued message
      there is a sent callback, or at least five timer ticks. */
  lemma SendsApart(cfg: Config, events: seq<Event>, i: nat, j: nat)
    requires i < j < |events| && SendsAnything(cfg, events, i) && SendsQueued(cfg, events, j)
    ensures SentCallback in events[i + 1..j] || Ticks(events[i + 1..j]) >= 5
  {
    if SentCallback !in events[i + 1..j] {
      hide Step, Run, Ticks, SendsAnything;
      TimeoutBound(cfg, events, i, j);
      TimeoutSet(cfg, Run(cfg, events[..j]), events[j]);
    }
  }

  // ---------------------------------------------------------------- order and conservation

  /** The API hands over packets that were encoded in a buffer of this size. */
  predicate Encoded(e: Event) {
    e.Submit? ==> |e.packet| <= BUF_SIZE
  }

  predicate AllEncoded(events: seq<Event>) {
    forall i | 0 <= i < |events| :: Encoded(events[i])
  }

  function SentOf(gone: seq<Exit>): seq<seq<Byte>> {
    if gone == [] then []
    else
      var x := gone[|gone| - 1];
      SentOf(gone[..|gone| - 1]) + if x.Sent? then [x.message] else []
  }

  function QueuedIn(a: seq<Action>): seq<seq<Byte>> {
    if a != [] && a[0].SendQueued? then [a[0].message] else []
  }

  /** The queued messages handed to the transport in a run. */
  function Transmitted(cfg: Config, events: seq<Event>): seq<seq<Byte>> {
    if events == [] then []
    else
      var n := |events| - 1;
      Transmitted(cfg, events[..n]) + QueuedIn(Step(cfg, Run(cfg, events[..n]), events[n]).actions)
  }

  /** `a` is `b` with some elements left out. */
  predicate Subsequence(a: seq<seq<Byte>>, b: seq<seq<Byte>>) {
    a == [] || (b != [] &&
                var x, y := a[|a| - 1], b[|b| - 1];
                (x == y && Subsequence(a[..|a| - 1], b[..|b| - 1])) || Subsequence(a, b[..|b| - 1]))
  }

  lemma SubsequenceSnoc(a: seq<seq<Byte>>, b: seq<seq<Byte>>, m: seq<Byte>)
    requires Subsequence(a, b)
    ensures Subsequence(a, b + [m]) && Subsequence(a + [m], b + [m])
  {
    assert (b + [m])[..|b + [m]| - 1] == b;
    assert (a + [m])[..|a + [m]| - 1] == a;
  }

  lemma {:induction false} SentIsSubsequence(gone: seq<Exit>)
    ensures Subsequence(SentOf(gone), ExitMessages(gone))
  {
    if gone != [] {
      var n := |gone| - 1;
      SentIsSubsequence(gone[..n]);
      SubsequenceSnoc(SentOf(gone[..n]), ExitMessages(gone[..n]), gone[n].message);
      assert ExitMessages(gone) == ExitMessages(gone[..n]) + [gone[n].message];
      assert SentOf(gone[..n]) + [] == SentOf(gone[..n]);
    }
  }

  lemma {:induction false} SubsequenceOfMore(a: seq<seq<Byte>>, b: seq<seq<Byte>>, c: seq<seq<Byte>>)
    requires Subsequence(a, b)
    ensures Subsequence(a, b + c)
    decreases |c|
  {
    if c == [] {
      assert b + c == b;
    } else {
      SubsequenceOfMore(a, b, c[..|c| - 1]);
      assert (b + c)[..|b + c| - 1] == b + c[..|c| - 1];
    }
  }

  lemma SentOfSnoc(gone: seq<Exit>, x: Exit)
    ensures SentOf(gone + [x]) == SentOf(gone) + if x.Sent? then [x.message] else []
  {
    assert (gone + [x])[..|gone|] == gone;
  }

  lemma EvictAllSnoc(gone: seq<Exit>, ms: seq<seq<Byte>>)
    requires ms != []
    ensures gone + EvictAll(ms) == gone + EvictAll(ms[..|ms| - 1]) + [Evicted(ms[|ms| - 1])]
  {
  }

  lemma {:induction false} SentOfEvicted(gone: seq<Exit>, ms: seq<seq<Byte>>)
    ensures SentOf(gone + EvictAll(ms)) == SentOf(gone)
    decreases |ms|
  {
    if ms == [] {
      assert gone + EvictAll(ms) == gone;
    } else {
      hide SentOf, EvictAll;
      var less := ms[..|ms| - 1];
      SentOfEvicted(gone, less);
      EvictAllSnoc(gone, ms);
      SentOfSnoc(gone + EvictAll(less), Evicted(ms[|ms| - 1]));
      assert SentOf(gone) + [] == SentOf(gone);
    }
  }

  lemma {:induction false} ReadAllSendsNothing(l: Loop)
    requires |l.inBuf| == BUF_SIZE
    ensures ReadAll(l).out.gone == l.out.gone
    decreases if l.rest.Some? then 1 + |l.rest.value| else 0
  {
    hide MessageLength, Deliver, AfterPut, Frame;
    if l.rest.Some? {
      var r := Round(l);
      assert r.out.gone == l.out.gone;
      if !(r.rest.Some? && |r.rest.value| == |l.rest.value|) {
        ReadAllSendsNothing(r);
      }
    }
  }

  /** A step keeps the queue's history right and adds to it what it sends. */
  lemma StepQueue(cfg: Config, s: Session, e: Event)
    requires |s.inBuf| == BUF_SIZE && Kept(s.out) && Encoded(e)
    ensures var r := Step(cfg, s, e);
      Kept(r.next.out) && SentOf(r.next.out.gone) == SentOf(s.out.gone) + QueuedIn(r.actions)
  {
    hide SentOf, Receive, TaskStep, Enqueue, TickLink, Encodable, Kept;
    if s.hung {
    } else if e.Received? {
      ReceiveQueue(s, e.segment);
    } else if e.Submit? {
      var o := AfterId(s.out, e.takesId);
      KeptAnyId(s.out, o.messageId, o.ids);
      EnqueueKeeps(o, e.packet);
      EnqueueSendsNothing(o, e.packet);
    } else if e.RunTask? {
      TaskQueue(s, e.sendOk, e.junk);
    } else if e.TcpConnected? {
      KeptAnyId(s.out, 0, []);
    } else if e.Refuse? {
      var o := AfterId(s.out, e.takesId);
      KeptAnyId(s.out, o.messageId, o.ids);
    }
    assert SentOf(s.out.gone) + [] == SentOf(s.out.gone);
  }

  lemma EnqueueSendsNothing(o: Outbox, packet: seq<Byte>)
    ensures SentOf(Enqueue(o, packet).gone) == SentOf(o.gone)
  {
    var r, held := Evict(o.ring, packet, QUEUE_SIZE), Messages(o.ring);
    SentOfEvicted(o.gone, if r.ok && r.evicted <= |held| then held[..r.evicted] else held);
  }

  lemma ReceiveQueue(s: Session, seg: seq<Byte>)
    requires |s.inBuf| == BUF_SIZE && Kept(s.out)
    ensures var r := Receive(s, seg);
      Kept(r.next.out) && r.next.out.gone == s.out.gone && QueuedIn(r.actions) == []
  {
    hide Kept, ReceiveData;
    var t := s.(link := s.link.(keepAliveTick := 0));
    ReceiveDataQueue(t, seg);
  }

  lemma ReceiveDataQueue(s: Session, seg: seq<Byte>)
    requires |s.inBuf| == BUF_SIZE && Kept(s.out)
    ensures var r := ReceiveData(s, seg);
      Kept(r.next.out) && r.next.out.gone == s.out.gone && QueuedIn(r.actions) == []
  {
    hide ReadAll, Kept;
    var l := Loop(s.out, s.inBuf, [], Some(seg));
    ReadAllKeeps(l);
    ReadAllSendsNothing(l);
  }

  lemma TakeOldestSends(o: Outbox)
    ensures var ms := Messages(o.ring);
      SentOf(TakeOldest(o).gone) == SentOf(o.gone) + if ms == [] then [] else [ms[0]]
  {
    var ms := Messages(o.ring);
    hide Messages, AfterGet;
    if ms != [] {
      SentOfSnoc(o.gone, Sent(ms[0]));
    }
  }

  lemma TaskQueue(s: Session, sendOk: bool, junk: Byte)
    requires Kept(s.out)
    ensures var r := TaskStep(s, sendOk, junk);
      Kept(r.next.out) && SentOf(r.next.out.gone) == SentOf(s.out.gone) + QueuedIn(r.actions)
  {
    hide Kept, Messages, SentOf, TakeOldest, TypeOf;
    TakeOldestKeeps(s.out);
    TakeOldestSends(s.out);
  }

  lemma {:induction false} RunQueue(cfg: Config, events: seq<Event>)
    requires AllEncoded(events)
    ensures var s := Run(cfg, events); Kept(s.out) && SentOf(s.out.gone) == Transmitted(cfg, events)
  {
    if events == [] {
      assert Kept(Start().out);
    } else {
      var n := |events| - 1;
      RunQueue(cfg, events[..n]);
      StepQueue(cfg, Run(cfg, events[..n]), events[n]);
      hide Step, Kept;
    }
  }

  /**
   Over any run, the queued messages that were handed to the transport are, in order and
   each at most once, among those that were accepted; and each accepted message has been
   sent, or evicted, or is still in the ring.
   */
  lemma SentInOrder(cfg: Config, events: seq<Event>)
    requires AllEncoded(events)
    ensures var o := Run(cfg, events).out;
      && Subsequence(Transmitted(cfg, events), o.accepted)
      && o.accepted == ExitMessages(o.gone) + Messages(o.ring) && SentOf(o.gone) == Transmitted(cfg, events)
  {
    RunQueue(cfg, events);
    var o := Run(cfg, events).out;
    SentIsSubsequence(o.gone);
    SubsequenceOfMore(SentOf(o.gone), ExitMessages(o.gone), Messages(o.ring));
    hide Run, Transmitted, Subsequence, Messages, ExitMessages, SentOf;
  }

  // ---------------------------------------------------------------- draining the queue

  lemma RunMore(cfg: Config, events: seq<Event>, e: Event)
    ensures Run(cfg, events + [e]) == Step(cfg, Run(cfg, events), e).next
    ensures Transmitted(cfg, events + [e])
      == Transmitted(cfg, events) + QueuedIn(Step(cfg, Run(cfg, events), e).actions)
  {
    hide Step;
    assert (events + [e])[..|events|] == events;
  }

  /** The connection carries data, and the last message is on its way or confirmed. */
  predicate ReadyToSend(s: Session) {
    !s.hung && s.link.conn == MQTT_DATA && s.link.sendTimeout == 0
  }

  /** One run of `MQTT_Task` and its confirmation, on a queue that holds a message. */
  lemma SendRound(cfg: Config, s: Session, sendOk: bool, junk: Byte)
    requires |s.inBuf| == BUF_SIZE && ReadyToSend(s) && Legal(s.out.ring) && Messages(s.out.ring) != []
    ensures var r := Step(cfg, s, RunTask(sendOk, junk)); var t := Step(cfg, r.next, SentCallback);
      && QueuedIn(r.actions) == [Messages(s.out.ring)[0]] && QueuedIn(t.actions) == []
      && ReadyToSend(t.next) && Messages(t.next.out.ring) == Messages(s.out.ring)[1..]
  {
    TakesFirst(s.out);
    hide Messages, TakeOldest, Legal, TypeOf;
  }

  lemma TakesFirst(o: Outbox)
    requires Legal(o.ring) && Messages(o.ring) != []
    ensures o.ring != [] && Messages(TakeOldest(o).ring) == Messages(o.ring)[1..]
  {
    assert o.ring != [];
    hide Messages, AfterGet, Legal, RingBytes, FeedAll, Clip;
    var before := GetSegments(o.ring, Parser([], false, false), 0);
  }

  /** `n` times a run of `MQTT_Task` and a sent callback. */
  function Drain(n: nat, sendOk: bool, junk: Byte): seq<Event> {
    if n == 0 then [] else Drain(n - 1, sendOk, junk) + [RunTask(sendOk, junk), SentCallback]
  }

  /** One more round at the end of a run. */
  lemma DrainStep(cfg: Config, events: seq<Event>, sendOk: bool, junk: Byte)
    requires var s := Run(cfg, events); ReadyToSend(s) && Legal(s.out.ring) && Messages(s.out.ring) != []
    ensures var all := events + [RunTask(sendOk, junk)] + [SentCallback];
      var ms, t := Messages(Run(cfg, events).out.ring), Run(cfg, all);
      && ReadyToSend(t) && Messages(t.out.ring) == ms[1..]
      && Transmitted(cfg, all) == Transmitted(cfg, events) + [ms[0]]
  {
    hide Step, Run, Transmitted, Messages, ReadyToSend, QueuedIn, Legal;
    var task := RunTask(sendOk, junk);
    RunMore(cfg, events, task);
    RunMore(cfg, events + [task], SentCallback);
    SendRound(cfg, Run(cfg, events), sendOk, junk);
  }

  lemma {:induction false} DrainsInOrder(cfg: Config, events: seq<Event>, n: nat, sendOk: bool, junk: Byte)
    requires AllEncoded(events)
    requires ReadyToSend(Run(cfg, events)) && n <= |Messages(Run(cfg, events).out.ring)|
    ensures var s, all := Run(cfg, events), events + Drain(n, sendOk, junk); var t := Run(cfg, all);
      && ReadyToSend(t) && Legal(t.out.ring)
      && Transmitted(cfg, all) == Transmitted(cfg, events) + Messages(s.out.ring)[..n]
      && Messages(t.out.ring) == Messages(s.out.ring)[n..]
    decreases n
  {
    hide Step, Run, Transmitted, Messages, ReadyToSend, SentOf, QueuedIn, Legal, AllEncoded, Drain;
    var all := events + Drain(n, sendOk, junk);
    DrainEncoded(events, n, sendOk, junk);
    RunQueue(cfg, all);
    KeptLegal(Run(cfg, all).out);
    DrainSnoc(events, n, sendOk, junk);
    if n > 0 {
      var less := events + Drain(n - 1, sendOk, junk);
      DrainsInOrder(cfg, events, n - 1, sendOk, junk);
      DrainStep(cfg, less, sendOk, junk);
      OneMoreSent(Transmitted(cfg, events), Messages(Run(cfg, events).out.ring), n);
    } else {
      assert Transmitted(cfg, events) + [] == Transmitted(cfg, events);
    }
  }

  lemma DrainSnoc(events: seq<Event>, n: nat, sendOk: bool, junk: Byte)
    ensures n == 0 ==> events + Drain(n, sendOk, junk) == events
    ensures n > 0 ==>
      events + Drain(n, sendOk, junk)
      == events + Drain(n - 1, sendOk, junk) + [RunTask(sendOk, junk)] + [SentCallback]
  {
  }

  lemma KeptLegal(o: Outbox)
    requires Kept(o)
    ensures Legal(o.ring) && |RingBytes(o.ring)| <= QUEUE_SIZE
  {
  }

  lemma {:induction false} DrainEncoded(events: seq<Event>, n: nat, sendOk: bool, junk: Byte)
    requires AllEncoded(events)
    ensures AllEncoded(events + Drain(n, sendOk, junk))
  {
    DrainSnoc(events, n, sendOk, junk);
    if n > 0 {
      DrainEncoded(events, n - 1, sendOk, junk);
    }
  }

  lemma OneMoreSent(before: seq<seq<Byte>>, ms: seq<seq<Byte>>, n: nat)
    requires 0 < n <= |ms|
    ensures before + ms[..n - 1] + [ms[n - 1..][0]] == before + ms[..n]
    ensures ms[n - 1..][1..] == ms[n..]
  {
  }

  /**
   From any point of any run at which the client may send, as many task runs and
   confirmations as there are messages queued hand all of them to the transport, in
   order; and one more task run clears what torn frames are left.
   */
  lemma QueueDrains(cfg: Config, events: seq<Event>, sendOk: bool, junk: Byte)
    requires AllEncoded(events)
    requires ReadyToSend(Run(cfg, events))
    ensures var ms := Messages(Run(cfg, events).out.ring);
      var all := events + Drain(|ms|, sendOk, junk);
      && Transmitted(cfg, all) == Transmitted(cfg, events) + ms
      && Run(cfg, all + [RunTask(sendOk, junk)]).out.ring == []
      && Transmitted(cfg, all + [RunTask(sendOk, junk)]) == Transmitted(cfg, all)
  {
    var ms := Messages(Run(cfg, events).out.ring);
    var all := events + Drain(|ms|, sendOk, junk);
    DrainsInOrder(cfg, events, |ms|, sendOk, junk);
    RunMore(cfg, all, RunTask(sendOk, junk));
    ClearsTorn(cfg, Run(cfg, all), sendOk, junk);
    hide Step, Run, Transmitted, Messages, ReadyToSend, Legal;
    assert ms[..|ms|] == ms;
    assert Transmitted(cfg, all) + [] == Transmitted(cfg, all);
  }

  /** Whatever state the connection is in: after one run of `MQTT_Task` and a sent callback
      the client may send. */
  lemma TaskThenSent(cfg: Config, s: Session, junk: Byte)
    requires |s.inBuf| == BUF_SIZE && !s.hung && Carries(s.link.conn) && Legal(s.out.ring)
    ensures var r := Step(cfg, s, RunTask(true, junk)); var t := Step(cfg, r.next, SentCallback);
      && ReadyToSend(t.next) && QueuedIn(t.actions) == []
      && QueuedIn(r.actions) + Messages(t.next.out.ring) == Messages(s.out.ring)
  {
    if s.link.conn == MQTT_DATA && s.link.sendTimeout == 0 && Messages(s.out.ring) != [] {
      SendRound(cfg, s, true, junk);
      hide Step, ReadyToSend, Messages, Legal;
      assert [Messages(s.out.ring)[0]] + Messages(s.out.ring)[1..] == Messages(s.out.ring);
    } else {
      NothingOrPing(cfg, s, junk);
    }
  }

  lemma NothingOrPing(cfg: Config, s: Session, junk: Byte)
    requires |s.inBuf| == BUF_SIZE && !s.hung && Carries(s.link.conn) && Legal(s.out.ring)
    requires s.link.conn == MQTT_DATA && s.link.sendTimeout == 0 ==> Messages(s.out.ring) == []
    ensures var r := Step(cfg, s, RunTask(true, junk)); var t := Step(cfg, r.next, SentCallback);
      && ReadyToSend(t.next) && QueuedIn(t.actions) == [] && QueuedIn(r.actions) == []
      && Messages(t.next.out.ring) == Messages(s.out.ring)
  {
    if Messages(s.out.ring) == [] {
      NothingToGet(s.out.ring);
    }
    NoMessages();
    hide Messages, AfterGet, Legal, RingBytes, TypeOf;
  }

  lemma Submitting(cfg: Config, s: Session, packet: seq<Byte>, takesId: bool)
    requires |s.inBuf| == BUF_SIZE && !s.hung
    ensures var r := Step(cfg, s, Submit(packet, takesId));
      && QueuedIn(r.actions) == [] && r.next.link == s.link && !r.next.hung
      && r.next.out.ring == Evict(s.out.ring, packet, QUEUE_SIZE).ring
  {
    hide Evict, Messages, EvictAll;
  }

  /** A packet's frame fits at once, or into a gap that evictions leave. */
  ghost predicate Fits(ring: seq<Segment>, packet: seq<Byte>) {
    |Frame(packet)| <= QUEUE_SIZE - |RingBytes(ring)| || SomeGap(Gaps(ring), |Frame(packet)|)
  }

  /** From a submission to the end of the queue. */
  function SubmitAndDrain(packet: seq<Byte>, takesId: bool, n: nat, junk: Byte): seq<Event> {
    [Submit(packet, takesId), RunTask(true, junk), SentCallback] + Drain(n, true, junk)
  }

  /**
   From the start of the client on: once a CONNACK has linked it, a message that is
   submitted and that fits the queue is handed to the transport, behind those queued
   before it, when `MQTT_Task` runs often enough and what it sends is confirmed.
   */
  lemma SubmittedIsSent(cfg: Config, events: seq<Event>, packet: seq<Byte>, takesId: bool, junk: Byte)
    returns (n: nat)
    requires AllEncoded(events) && |packet| <= BUF_SIZE && Linked(cfg, events) && !Jammed(cfg, events)
    ensures var ring := Run(cfg, events).out.ring;
      var e, all := Evict(ring, packet, QUEUE_SIZE), events + SubmitAndDrain(packet, takesId, n, junk);
      && n <= |Messages(e.ring)| && Transmitted(cfg, all) == Transmitted(cfg, events) + Messages(e.ring)
      && Messages(Run(cfg, all).out.ring) == []
      && (Fits(ring, packet) ==>
            Transmitted(cfg, all) != [] && Transmitted(cfg, all)[|Transmitted(cfg, all)| - 1] == packet)
  {
    hide Step, Run, Transmitted, Messages, ReadyToSend, QueuedIn, Legal, AllEncoded, Drain, Linked, Jammed;
    hide RingBytes, Evict, Carries, Kept, Gaps, SomeGap, Frame;
    CarriesIffLinked(cfg, events);
    var submit, task := Submit(packet, takesId), RunTask(true, junk);
    var one := events + [submit];
    var three := one + [task] + [SentCallback];
    RunMore(cfg, events, submit);
    RunMore(cfg, one, task);
    RunMore(cfg, one + [task], SentCallback);
    Submitting(cfg, Run(cfg, events), packet, takesId);
    StillEncoded(events, packet, takesId, junk);
    RunQueue(cfg, events);
    KeptLegal(Run(cfg, events).out);
    RunQueue(cfg, one);
    KeptLegal(Run(cfg, one).out);
    TaskThenSent(cfg, Run(cfg, one), junk);
    n := |Messages(Run(cfg, three).out.ring)|;
    DrainsInOrder(cfg, three, n, true, junk);
    EvictOldestFirst(Run(cfg, events).out.ring, packet, QUEUE_SIZE);
    EvictSucceedsIff(Run(cfg, events).out.ring, packet, QUEUE_SIZE);
    assert events + SubmitAndDrain(packet, takesId, n, junk) == three + Drain(n, true, junk);
    AllOfThem(Transmitted(cfg, events), QueuedIn(Step(cfg, Run(cfg, one), task).actions),
              Messages(Run(cfg, three).out.ring));
  }

  lemma AllOfThem(before: seq<seq<Byte>>, first: seq<seq<Byte>>, rest: seq<seq<Byte>>)
    ensures before + [] + first + [] + rest[..|rest|] == before + (first + rest)
    ensures rest[|rest|..] == []
  {
  }

  lemma StillEncoded(events: seq<Event>, packet: seq<Byte>, takesId: bool, junk: Byte)
    requires AllEncoded(events) && |packet| <= BUF_SIZE
    ensures AllEncoded(events + [Submit(packet, takesId)])
    ensures AllEncoded(events + [Submit(packet, takesId)] + [RunTask(true, junk)] + [SentCallback])
  {
  }

  lemma ClearsTorn(cfg: Config, s: Session, sendOk: bool, junk: Byte)
    requires |s.inBuf| == BUF_SIZE && ReadyToSend(s)
    ensures Messages(s.out.ring) == [] ==>
      var r := Step(cfg, s, RunTask(sendOk, junk)); r.next.out.ring == [] && QueuedIn(r.actions) == []
  {
    if Messages(s.out.ring) == [] {
      NothingToGet(s.out.ring);
    }
    hide Messages, AfterGet;
  }

  // ---------------------------------------------------------------- packet identifiers

  const IDS := 65535

  /** The identifiers given out for a connection count from 1 to 65535 and then from 1
      again; the counter holds the latest. */
  ghost predicate Numbered(o: Outbox) {
    && o.messageId == (if o.ids == [] then 0 else o.ids[|o.ids| - 1])
    && forall i | 0 <= i < |o.ids| :: o.ids[i] == i % IDS + 1
  }

  lemma TakeIdNumbered(o: Outbox, taken: bool)
    requires Numbered(o)
    ensures Numbered(AfterId(o, taken)) && o.ids <= AfterId(o, taken).ids
  {
    if taken {
      var n := |o.ids|;
      assert NextId(o.messageId) == n % IDS + 1 by {
        NextOf(n, o.messageId);
      }
    }
  }

  lemma NextOf(n: nat, m: nat)
    requires m == if n == 0 then 0 else (n - 1) % IDS + 1
    ensures NextId(m) == n % IDS + 1
  {
  }

  lemma ReplyIdNumbered(o: Outbox, kind: nat, qos: nat, id: nat)
    requires Numbered(o)
    ensures Numbered(ReplyId(o, kind, qos, id)) && o.ids <= ReplyId(o, kind, qos, id).ids
  {
    TakeIdNumbered(o, id == 0);
    hide AfterPut, Frame, Packet, AfterId;
  }

  lemma PingNumbered(o: Outbox, packet: seq<Byte>)
    requires Numbered(o)
    ensures Numbered(Reply(o, packet)) && o.ids <= Reply(o, packet).ids
  {
    hide AfterPut, Frame;
  }

  lemma DispatchNumbered(o: Outbox, b: seq<Byte>)
    requires Numbered(o) && b != []
    ensures Numbered(Dispatch(o, b)) && o.ids <= Dispatch(o, b).ids
  {
    var id := D.Id(b, |b|);
    hide D.Id, ReplyId, AfterPut, Frame, TypeOf, QosOf, Numbered, Packet, FirstByte;
    PingNumbered(o, Packet(FirstByte(PINGRESP, 0, 0, 0), []));
    ReplyIdNumbered(o, PUBACK, 0, id);
    ReplyIdNumbered(o, PUBREC, 0, id);
    ReplyIdNumbered(o, PUBREL, 1, id);
    ReplyIdNumbered(o, PUBCOMP, 0, id);
  }

  lemma RoundNumbered(l: Loop)
    requires |l.inBuf| == BUF_SIZE && Numbered(l.out)
    ensures Numbered(Round(l).out) && l.out.ids <= Round(l).out.ids
  {
    hide Numbered, Dispatch, MessageLength, Deliver;
    if l.rest.Some? && 0 < |l.rest.value| < BUF_SIZE {
      DispatchNumbered(l.out, l.rest.value + l.inBuf[|l.rest.value|..]);
    }
  }

  lemma {:induction false} ReadAllNumbered(l: Loop)
    requires |l.inBuf| == BUF_SIZE && Numbered(l.out)
    ensures Numbered(ReadAll(l).out) && l.out.ids <= ReadAll(l).out.ids
    decreases if l.rest.Some? then 1 + |l.rest.value| else 0
  {
    if l.rest.Some? {
      RoundNumbered(l);
      hide Round, Numbered;
      var r := Round(l);
      if !(r.rest.Some? && |r.rest.value| == |l.rest.value|) {
        ReadAllNumbered(r);
      }
    }
  }

  /** A step gives out further identifiers; a new TCP connection starts afresh. */
  lemma StepNumbered(cfg: Config, s: Session, e: Event)
    requires |s.inBuf| == BUF_SIZE && Numbered(s.out)
    ensures var t := Step(cfg, s, e).next;
      && Numbered(t.out)
      && (e.TcpConnected? && !s.hung ==> t.out.ids == [])
      && (!e.TcpConnected? ==> s.out.ids <= t.out.ids)
      && (e.Submit? && e.takesId && !s.hung ==> t.out.ids == s.out.ids + [t.out.messageId])
  {
    hide Enqueue, Receive, TaskStep, Encodable, TickLink, Numbered, AfterId;
    FreshNumbered(s.out);
    if s.hung {
    } else if e.Received? {
      ReceiveNumbered(s, e.segment);
    } else if e.Submit? {
      SubmitNumbered(s.out, e.packet, e.takesId);
    } else if e.Refuse? {
      TakeIdNumbered(s.out, e.takesId);
    } else if e.RunTask? {
      TaskNumbered(s, e.sendOk, e.junk);
    }
  }

  lemma FreshNumbered(o: Outbox)
    ensures Numbered(o.(messageId := 0, ids := []))
  {
  }

  lemma NumberedSame(o: Outbox, p: Outbox)
    requires Numbered(o) && o.ids == p.ids && o.messageId == p.messageId
    ensures Numbered(p)
  {
  }

  lemma SubmitNumbered(o: Outbox, packet: seq<Byte>, taken: bool)
    requires Numbered(o)
    ensures var p := Enqueue(AfterId(o, taken), packet);
      Numbered(p) && o.ids <= p.ids && (taken ==> p.ids == o.ids + [p.messageId])
  {
    hide Enqueue, Evict, Numbered, NextId;
    TakeIdNumbered(o, taken);
    EnqueueRing(AfterId(o, taken), packet);
    NumberedSame(AfterId(o, taken), Enqueue(AfterId(o, taken), packet));
  }

  lemma TaskNumbered(s: Session, sendOk: bool, junk: Byte)
    requires Numbered(s.out)
    ensures var o := TaskStep(s, sendOk, junk).next.out; Numbered(o) && s.out.ids <= o.ids
  {
    hide Messages, AfterGet;
  }

  lemma ReceiveNumbered(s: Session, seg: seq<Byte>)
    requires |s.inBuf| == BUF_SIZE && Numbered(s.out)
    ensures var o := Receive(s, seg).next.out; Numbered(o) && s.out.ids <= o.ids
  {
    hide ReceiveData, Numbered, TypeOf;
    ReceiveDataNumbered(s.(link := s.link.(keepAliveTick := 0)), seg);
  }

  lemma ReceiveDataNumbered(s: Session, seg: seq<Byte>)
    requires |s.inBuf| == BUF_SIZE && Numbered(s.out)
    ensures var o := ReceiveData(s, seg).next.out; Numbered(o) && s.out.ids <= o.ids
  {
    hide ReadAll, Numbered;
    ReadAllNumbered(Loop(s.out, s.inBuf, [], Some(seg)));
  }

  lemma {:induction false} RunNumbered(cfg: Config, events: seq<Event>)
    ensures Numbered(Run(cfg, events).out)
  {
    if events != [] {
      var n := |events| - 1;
      RunNumbered(cfg, events[..n]);
      StepNumbered(cfg, Run(cfg, events[..n]), events[n]);
      hide Step, Numbered;
    }
  }

  lemma {:induction false} IdsGrow(cfg: Config, events: seq<Event>, i: nat, j: nat)
    requires i <= j <= |events| && forall k | i <= k < j :: !events[k].TcpConnected?
    ensures Run(cfg, events[..i]).out.ids <= Run(cfg, events[..j]).out.ids
    decreases j
  {
    hide Step, Run, Numbered;
    if i < j {
      IdsGrow(cfg, events, i, j - 1);
      RunStep(cfg, events, j - 1);
      RunNumbered(cfg, events[..j - 1]);
      StepNumbered(cfg, Run(cfg, events[..j - 1]), events[j - 1]);
    }
  }

  /** The identifier that a submission was given. */
  function IdOf(cfg: Config, events: seq<Event>, k: nat): nat
    requires k < |events|
  {
    Run(cfg, events[..k + 1]).out.messageId
  }

  /** How many identifiers were given out for the connection, that one included. */
  function IdsUpTo(cfg: Config, events: seq<Event>, k: nat): nat
    requires k < |events|
  {
    |Run(cfg, events[..k + 1]).out.ids|
  }

  predicate TakesIdAt(cfg: Config, events: seq<Event>, k: nat)
    requires k < |events|
  {
    events[k].Submit? && events[k].takesId && !Run(cfg, events[..k]).hung
  }

  lemma IdAt(cfg: Config, events: seq<Event>, k: nat)
    requires k < |events| && TakesIdAt(cfg, events, k)
    ensures IdsUpTo(cfg, events, k) > 0 && IdOf(cfg, events, k) == (IdsUpTo(cfg, events, k) - 1) % IDS + 1
  {
    RunNumbered(cfg, events[..k]);
    RunStep(cfg, events, k);
    StepNumbered(cfg, Run(cfg, events[..k]), events[k]);
    hide Step, Run;
  }

  lemma SameRemainderIff(a: nat, b: nat)
    requires a <= b
    ensures a % IDS == b % IDS <==> (b - a) % IDS == 0
  {
  }

  /**
   In any run: two submissions over one connection carry the same identifier exactly when
   the number of identifiers given out from the one to the other is a multiple of 65535,
   those of acknowledgements and of publishes that could not be encoded included.
   */
  lemma SameIdIff(cfg: Config, events: seq<Event>, i: nat, j: nat)
    requires i <= j < |events| && TakesIdAt(cfg, events, i) && TakesIdAt(cfg, events, j)
    requires forall k | i < k < j :: !events[k].TcpConnected?
    ensures IdsUpTo(cfg, events, i) <= IdsUpTo(cfg, events, j)
    ensures IdOf(cfg, events, i) == IdOf(cfg, events, j) <==>
      (IdsUpTo(cfg, events, j) - IdsUpTo(cfg, events, i)) % IDS == 0
  {
    hide Run, Step, IdOf;
    IdAt(cfg, events, i);
    IdAt(cfg, events, j);
    IdsGrow(cfg, events, i + 1, j + 1);
    SameRemainderIff(IdsUpTo(cfg, events, i) - 1, IdsUpTo(cfg, events, j) - 1);
  }

  /** A new TCP connection starts at 1 again: the first submission that takes an identifier
      after it carries 1, whatever was sent before and is not acknowledged. */
  lemma IdsRestart(cfg: Config, events: seq<Event>, k: nat, m: nat)
    requires k < m < |events| && events[k].TcpConnected? && !Run(cfg, events[..k]).hung
    requires TakesIdAt(cfg, events, m) && Run(cfg, events[..m]).out.ids == Run(cfg, events[..k + 1]).out.ids
    ensures IdOf(cfg, events, m) == 1
  {
    hide Step, Run, Numbered;
    RunStep(cfg, events, k);
    RunNumbered(cfg, events[..k]);
    StepNumbered(cfg, Run(cfg, events[..k]), events[k]);
    RunStep(cfg, events, m);
    RunNumbered(cfg, events[..m]);
    StepNumbered(cfg, Run(cfg, events[..m]), events[m]);
    IdAt(cfg, events, m);
  }

  // ---------------------------------------------------------------- timers

  /** The counters never run past what they are compared with. */
  lemma {:induction false} CountersBounded(cfg: Config, events: seq<Event>)
    ensures var s := Run(cfg, events); !s.hung ==> Counted(cfg, s.link)
  {
    if events != [] {
      var n := |events| - 1;
      CountersBounded(cfg, events[..n]);
      var s := Run(cfg, events[..n]);
      if !s.hung {
        CountedStep(cfg, s, events[n]);
      }
      hide Step;
    }
  }

  predicate Counted(cfg: Config, l: Link) {
    l.reconnectTick <= RECONNECT_TIMEOUT && (l.conn == MQTT_DATA ==> l.keepAliveTick <= cfg.info.keepalive)
  }

  lemma CountedStep(cfg: Config, s: Session, e: Event)
    requires |s.inBuf| == BUF_SIZE && !s.hung && Counted(cfg, s.link)
    ensures Counted(cfg, Step(cfg, s, e).next.link)
  {
    hide Enqueue, TakeOldest, ReadAll, Messages, Encodable;
  }

  lemma NoTicks(events: seq<Event>, i: nat)
    requires i <= |events|
    ensures Ticks(events[i..i]) == 0
  {
  }

  lemma TickMore(events: seq<Event>, i: nat, j: nat)
    requires i <= j < |events|
    ensures Ticks(events[i..j + 1]) == Ticks(events[i..j]) + if events[j] == Tick then 1 else 0
  {
    assert events[i..j + 1] == events[i..j] + [events[j]];
  }

  /** Nothing that tells the client to connect, to disconnect, or that it was. */
  predicate Calm(e: Event) {
    e == Tick || e == SentCallback || e.Submit? || e.Refuse? || e.Received? || e.RunTask? || e == DnsFound(false)
  }

  predicate Opens(cfg: Config, events: seq<Event>, k: nat)
    requires k < |events|
  {
    OpenTcp in StepAt(cfg, events, k).actions
  }

  lemma CalmStep(cfg: Config, s: Session, e: Event)
    requires |s.inBuf| == BUF_SIZE && !s.hung && s.link.reconnectTick <= RECONNECT_TIMEOUT && Calm(e)
    requires s.link.conn == TCP_RECONNECT_REQ || s.link.conn == TCP_RECONNECT
    ensures var r, due := Step(cfg, s, e), s.link.conn == TCP_RECONNECT;
      && (OpenTcp in r.actions <==> due && e.RunTask?)
      && !r.next.hung && r.next.link.reconnectTick <= RECONNECT_TIMEOUT
      && (due && !e.RunTask? ==> r.next.link.conn == TCP_RECONNECT)
      && (!due ==>
            var ticks := s.link.reconnectTick + if e == Tick then 1 else 0;
            if ticks > RECONNECT_TIMEOUT then r.next.link.conn == TCP_RECONNECT
            else r.next.link.conn == TCP_RECONNECT_REQ && r.next.link.reconnectTick == ticks)
  {
    hide Enqueue, TakeOldest, ReadAll, Messages, Encodable;
  }

  lemma {:induction false} WaitsToReconnect(cfg: Config, events: seq<Event>, i: nat, j: nat)
    requires i <= j <= |events| && !Run(cfg, events[..i]).hung
    requires Run(cfg, events[..i]).link.conn == TCP_RECONNECT_REQ
    requires forall k | i <= k < j :: Calm(events[k]) && !Opens(cfg, events, k)
    ensures var l, s := Run(cfg, events[..i]).link, Run(cfg, events[..j]);
      var ticks := l.reconnectTick + Ticks(events[i..j]);
      && !s.hung && s.link.reconnectTick <= RECONNECT_TIMEOUT
      && (if ticks > RECONNECT_TIMEOUT then s.link.conn == TCP_RECONNECT
          else s.link.conn == TCP_RECONNECT_REQ && s.link.reconnectTick == ticks)
    decreases j
  {
    hide Step, Run, Ticks, Calm;
    if i == j {
      NoTicks(events, i);
      CountersBounded(cfg, events[..i]);
    } else {
      WaitsToReconnect(cfg, events, i, j - 1);
      RunStep(cfg, events, j - 1);
      TickMore(events, i, j - 1);
      assert Calm(events[j - 1]) && !Opens(cfg, events, j - 1);
      CalmStep(cfg, Run(cfg, events[..j - 1]), events[j - 1]);
    }
  }

  /**
   In any run: after a connection is lost, and while nothing else happens to the link,
   `MQTT_Task` opens a new one at its first run after the sixth tick, counting those
   since the latest attempt, and at no run before that.
   */
  lemma ReconnectsAfterSixTicks(cfg: Config, events: seq<Event>, i: nat, j: nat)
    requires i <= j < |events| && !Run(cfg, events[..i]).hung
    requires Run(cfg, events[..i]).link.conn == TCP_RECONNECT_REQ
    requires (forall k | i <= k < j :: Calm(events[k]) && !Opens(cfg, events, k)) && events[j].RunTask?
    ensures Opens(cfg, events, j) <==>
      Run(cfg, events[..i]).link.reconnectTick + Ticks(events[i..j]) > RECONNECT_TIMEOUT
  {
    WaitsToReconnect(cfg, events, i, j);
    CalmStep(cfg, Run(cfg, events[..j]), events[j]);
    hide Step, Run, Ticks;
  }

  /** Nothing is received from the broker, and nothing sent is confirmed. */
  predicate Silent(e: Event) {
    e == Tick || e.Submit? || e.Refuse? || e.RunTask? || e == DnsFound(false)
  }

  predicate Pings(cfg: Config, events: seq<Event>, k: nat)
    requires k < |events|
  {
    SendPing in StepAt(cfg, events, k).actions
  }

  lemma SilentStep(cfg: Config, s: Session, e: Event)
    requires |s.inBuf| == BUF_SIZE && !s.hung && Silent(e) && Carries(s.link.conn)
    requires s.link.conn == MQTT_DATA ==> s.link.keepAliveTick <= cfg.info.keepalive
    ensures var r, due := Step(cfg, s, e), s.link.conn == MQTT_KEEPALIVE_SEND;
      && (SendPing in r.actions <==> due && e.RunTask?)
      && !r.next.hung
      && (due && !e.RunTask? ==> r.next.link.conn == MQTT_KEEPALIVE_SEND)
      && (!due ==>
            var ticks := s.link.keepAliveTick + if e == Tick then 1 else 0;
            if ticks > cfg.info.keepalive then r.next.link.conn == MQTT_KEEPALIVE_SEND
            else r.next.link.conn == MQTT_DATA && r.next.link.keepAliveTick == ticks)
  {
    hide Enqueue, TakeOldest, ReadAll, Messages, Encodable;
  }

  lemma {:induction false} WaitsToPing(cfg: Config, events: seq<Event>, i: nat, j: nat)
    requires i <= j <= |events| && !Run(cfg, events[..i]).hung
    requires Run(cfg, events[..i]).link.conn == MQTT_DATA
    requires forall k | i <= k < j :: Silent(events[k]) && !Pings(cfg, events, k)
    ensures var l, s := Run(cfg, events[..i]).link, Run(cfg, events[..j]);
      var ticks := l.keepAliveTick + Ticks(events[i..j]);
      && !s.hung
      && (if ticks > cfg.info.keepalive then s.link.conn == MQTT_KEEPALIVE_SEND
          else s.link.conn == MQTT_DATA && s.link.keepAliveTick == ticks)
    decreases j
  {
    hide Step, Run, Ticks, Silent;
    if i == j {
      NoTicks(events, i);
      CountersBounded(cfg, events[..i]);
    } else {
      WaitsToPing(cfg, events, i, j - 1);
      RunStep(cfg, events, j - 1);
      TickMore(events, i, j - 1);
      assert Silent(events[j - 1]) && !Pings(cfg, events, j - 1);
      SilentStep(cfg, Run(cfg, events[..j - 1]), events[j - 1]);
    }
  }

  /** In any run: while a connection is silent, `MQTT_Task` sends a ping at its first run
      after the keep-alive time has passed, and at no run before that. */
  lemma PingsAfterKeepAlive(cfg: Config, events: seq<Event>, i: nat, j: nat)
    requires i <= j < |events| && !Run(cfg, events[..i]).hung
    requires Run(cfg, events[..i]).link.conn == MQTT_DATA
    requires (forall k | i <= k < j :: Silent(events[k]) && !Pings(cfg, events, k)) && events[j].RunTask?
    ensures Pings(cfg, events, j) <==>
      Run(cfg, events[..i]).link.keepAliveTick + Ticks(events[i..j]) > cfg.info.keepalive
  {
    WaitsToPing(cfg, events, i, j);
    SilentStep(cfg, Run(cfg, events[..j]), events[j]);
    hide Step, Run, Ticks;
  }

  /** Since the broker was last heard of, or a packet last went out, as many ticks must pass
      as the keep-alive time says. */
  lemma PingsAfterContact(cfg: Config, events: seq<Event>, i: nat, j: nat)
    requires 0 < i <= j < |events| && !Run(cfg, events[..i]).hung
    requires (events[i - 1] == SentCallback || events[i - 1].Received?) && Run(cfg, events[..i]).link.conn == MQTT_DATA
    requires (forall k | i <= k < j :: Silent(events[k]) && !Pings(cfg, events, k)) && events[j].RunTask?
    ensures Pings(cfg, events, j) <==> Ticks(events[i..j]) > cfg.info.keepalive
  {
    hide Step, Run, Ticks, Silent, Pings;
    RunStep(cfg, events, i - 1);
    ContactResets(cfg, Run(cfg, events[..i - 1]), events[i - 1]);
    PingsAfterKeepAlive(cfg, events, i, j);
  }

  lemma ContactResets(cfg: Config, s: Session, e: Event)
    requires |s.inBuf| == BUF_SIZE && (e == SentCallback || e.Received?) && !Step(cfg, s, e).next.hung
    ensures Step(cfg, s, e).next.link.keepAliveTick == 0
  {
    hide ReadAll;
  }

  // ---------------------------------------------------------------- what opens, and when the link is lost

  /** What makes the client open a connection, and what makes it send a CONNECT. The connect
      call starts the wait for a reconnect anew. */
  lemma OpensIff(cfg: Config, events: seq<Event>, k: nat)
    requires k < |events|
    ensures var s, e := Run(cfg, events[..k]), events[k];
      && (SendConnect in StepAt(cfg, events, k).actions <==> !s.hung && e.TcpConnected?)
      && (Opens(cfg, events, k) <==>
            !s.hung && (e == Connect || e == DnsFound(true) || (e.RunTask? && s.link.conn == TCP_RECONNECT)))
      && (!s.hung && e == Connect ==> StepAt(cfg, events, k).next.link.reconnectTick == 0)
  {
    hide Run, Enqueue, TakeOldest, ReadAll, Messages, Encodable;
  }

  /** The link is lost, and the client was not told to leave. */
  predicate Loses(cfg: Config, events: seq<Event>, i: nat)
    requires i < |events|
  {
    var e := events[i];
    e == DnsFailed || e == TcpError || (e == TcpDisconnected && !Leaves(Run(cfg, events[..i]).link.conn))
  }

  lemma LossStep(cfg: Config, s: Session, e: Event)
    requires |s.inBuf| == BUF_SIZE && !s.hung
    requires e == DnsFailed || e == TcpError || (e == TcpDisconnected && !Leaves(s.link.conn))
    ensures Step(cfg, s, e).next == s.(link := s.link.(conn := TCP_RECONNECT_REQ))
  {
  }

  /**
   In any run: after the link is lost, and while nothing else happens to it, `MQTT_Task`
   opens a new connection once six ticks have passed, and not before six ticks have passed
   that count those of an earlier wait which the loss has cut short.
   */
  lemma ReconnectsAfterLoss(cfg: Config, events: seq<Event>, i: nat, j: nat)
    requires i < j < |events| && !Run(cfg, events[..i]).hung && Loses(cfg, events, i)
    requires (forall k | i < k < j :: Calm(events[k]) && !Opens(cfg, events, k)) && events[j].RunTask?
    ensures Opens(cfg, events, j) <==> Run(cfg, events[..i]).link.reconnectTick + Ticks(events[i + 1..j]) >= 6
  {
    hide Step, Run, Ticks, Calm, Leaves, Opens;
    RunStep(cfg, events, i);
    LossStep(cfg, Run(cfg, events[..i]), events[i]);
    ReconnectsAfterSixTicks(cfg, events, i + 1, j);
  }

  lemma AfterFailedPing(cfg: Config, s: Session, e: Event)
    requires |s.inBuf| == BUF_SIZE && !s.hung
    requires s.link.conn == TCP_RECONNECT_DISCONNECTING && Calm(e)
    ensures var r := Step(cfg, s, e);
      && !r.next.hung && r.next.link.conn == TCP_RECONNECT_DISCONNECTING
      && (e.RunTask? ==> r.actions == [Action.Disconnect])
  {
    hide Enqueue, TakeOldest, ReadAll, Messages, Encodable;
  }

  lemma FailedPingStep(cfg: Config, s: Session, e: Event)
    requires |s.inBuf| == BUF_SIZE && e.RunTask? && !e.sendOk && SendPing in Step(cfg, s, e).actions
    ensures var t := Step(cfg, s, e).next; !t.hung && t.link.conn == TCP_RECONNECT_DISCONNECTING
  {
    hide TakeOldest, Messages;
  }

  lemma {:induction false} PingFailed(cfg: Config, events: seq<Event>, i: nat, k: nat)
    requires i < k <= |events| && Pings(cfg, events, i) && events[i].RunTask? && !events[i].sendOk
    requires forall m | i < m < k :: Calm(events[m])
    ensures var s := Run(cfg, events[..k]); !s.hung && s.link.conn == TCP_RECONNECT_DISCONNECTING
    decreases k
  {
    hide Step, Run, Calm;
    RunStep(cfg, events, k - 1);
    if k == i + 1 {
      FailedPingStep(cfg, Run(cfg, events[..i]), events[i]);
    } else {
      PingFailed(cfg, events, i, k - 1);
      AfterFailedPing(cfg, Run(cfg, events[..k - 1]), events[k - 1]);
    }
  }

  /** In any run: a ping that the transport does not take makes each further run of
      `MQTT_Task` disconnect, until TCP is disconnected; and that counts as a loss of the link. */
  lemma FailedPingDisconnects(cfg: Config, events: seq<Event>, i: nat, k: nat)
    requires i < k < |events| && Pings(cfg, events, i) && events[i].RunTask? && !events[i].sendOk
    requires forall m | i < m < k :: Calm(events[m])
    ensures events[k].RunTask? ==> StepAt(cfg, events, k).actions == [Action.Disconnect]
    ensures events[k] == TcpDisconnected ==> !Run(cfg, events[..k]).hung && Loses(cfg, events, k)
  {
    PingFailed(cfg, events, i, k);
    hide Run, Step;
    if events[k].RunTask? {
      AfterFailedPing(cfg, Run(cfg, events[..k]), events[k]);
    }
  }

  // ---------------------------------------------------------------- an unconfirmed send

  lemma TimeoutStep(cfg: Config, s: Session, e: Event)
    requires |s.inBuf| == BUF_SIZE && s.link.sendTimeout <= 5
    ensures var r, t := Step(cfg, s, e), s.link.sendTimeout;
      && r.next.link.sendTimeout <= 5
      && (s.hung ==> r.next.hung)
      && (r.actions == [] || !(r.actions[0].SendQueued? || r.actions[0].SendPing? || r.actions[0].SendConnect?) ==>
            r.next.hung || r.next.link.sendTimeout <= if e == Tick && t > 0 then t - 1 else t)
  {
    hide Enqueue, TakeOldest, ReadAll, Messages, Encodable;
  }

  lemma {:induction false} TimeoutBounded(cfg: Config, events: seq<Event>)
    ensures Run(cfg, events).link.sendTimeout <= 5
  {
    if events != [] {
      TimeoutBounded(cfg, events[..|events| - 1]);
      TimeoutStep(cfg, Run(cfg, events[..|events| - 1]), events[|events| - 1]);
      hide Step;
    }
  }

  lemma {:induction false} TimeoutRunsOut(cfg: Config, events: seq<Event>, i: nat, j: nat)
    requires i <= j <= |events| && forall k | i <= k < j :: !SendsAnything(cfg, events, k)
    ensures var s := Run(cfg, events[..j]); s.hung || s.link.sendTimeout <= Max(0, 5 - Ticks(events[i..j]))
    decreases j
  {
    hide Step, Run, Ticks;
    TimeoutBounded(cfg, events[..i]);
    if i == j {
      NoTicks(events, i);
    } else {
      TimeoutRunsOut(cfg, events, i, j - 1);
      RunStep(cfg, events, j - 1);
      TickMore(events, i, j - 1);
      assert !SendsAnything(cfg, events, j - 1);
      TimeoutBounded(cfg, events[..j - 1]);
      TimeoutStep(cfg, Run(cfg, events[..j - 1]), events[j - 1]);
    }
  }

  /** In any run: five ticks after the latest send `MQTT_Task` sends the next queued message,
      whether the send was confirmed or not. */
  lemma SendsAfterFiveTicks(cfg: Config, events: seq<Event>, i: nat, j: nat)
    requires i <= j < |events| && (forall k | i <= k < j :: !SendsAnything(cfg, events, k))
    requires Ticks(events[i..j]) >= 5 && events[j].RunTask?
    requires var s := Run(cfg, events[..j]); !s.hung && s.link.conn == MQTT_DATA && Messages(s.out.ring) != []
    ensures StepAt(cfg, events, j).actions == [SendQueued(Messages(Run(cfg, events[..j]).out.ring)[0])]
  {
    hide Run, Ticks, SendsAnything, Messages;
    TimeoutRunsOut(cfg, events, i, j);
    NoMessages();
  }

  // ---------------------------------------------------------------- leaving

  predicate Leaves(c: ConnState) {
    c == TCP_DISCONNECTING || c == MQTT_DELETING
  }

  /** The state behind one of these, once TCP is disconnected. */
  function Left(c: ConnState): ConnState
    requires Leaves(c)
  {
    if c == TCP_DISCONNECTING then TCP_DISCONNECTED else MQTT_DELETED
  }

  /** What the call that tells the client to leave makes it. */
  function Leaving(e: Event): (c: ConnState)
    ensures Leaves(c)
  {
    if e == Disconnecting then TCP_DISCONNECTING else MQTT_DELETING
  }

  lemma LeavingStep(cfg: Config, s: Session, e: Event)
    requires |s.inBuf| == BUF_SIZE && !s.hung && Leaves(s.link.conn) && (Calm(e) || e == TcpDisconnected)
    ensures var r := Step(cfg, s, e);
      && !r.next.hung && OpenTcp !in r.actions && (e.RunTask? ==> r.actions == [Action.Disconnect])
      && r.next.link.conn == if e == TcpDisconnected then Left(s.link.conn) else s.link.conn
  {
    hide Enqueue, TakeOldest, ReadAll, Messages, Encodable;
  }

  lemma LeftStep(cfg: Config, s: Session, e: Event, c: ConnState)
    requires |s.inBuf| == BUF_SIZE && !s.hung && Leaves(c) && s.link.conn == Left(c) && Calm(e)
    ensures var r := Step(cfg, s, e);
      && !r.next.hung && OpenTcp !in r.actions && r.next.link.conn == s.link.conn
      && (e.RunTask? ==> r.actions == [if c == TCP_DISCONNECTING then FreeTcp else FreeClient])
  {
    hide Enqueue, TakeOldest, ReadAll, Messages, Encodable;
  }

  /** The client was told to leave by event `i`, and learns by event `j` that TCP is
      disconnected; nothing else happens to the link. */
  ghost predicate ToldToLeave(cfg: Config, events: seq<Event>, i: nat, j: nat) {
    && i < j <= |events| && !Run(cfg, events[..i]).hung
    && (events[i] == Disconnecting || events[i] == Deleting)
    && (j < |events| ==> events[j] == TcpDisconnected)
    && forall k | i < k < |events| && k != j :: Calm(events[k])
  }

  lemma {:induction false} OnItsWayOut(cfg: Config, events: seq<Event>, i: nat, j: nat, k: nat)
    requires ToldToLeave(cfg, events, i, j) && i < k <= |events|
    ensures var s, c := Run(cfg, events[..k]), Leaving(events[i]);
      !s.hung && s.link.conn == if k <= j then c else Left(c)
    decreases k
  {
    hide Step, Run, Left;
    RunStep(cfg, events, k - 1);
    if k == i + 1 {
      FirstToLeave(cfg, Run(cfg, events[..i]), events[i]);
    } else {
      OnItsWayOut(cfg, events, i, j, k - 1);
      if k - 1 <= j {
        LeavingStep(cfg, Run(cfg, events[..k - 1]), events[k - 1]);
      } else {
        LeftStep(cfg, Run(cfg, events[..k - 1]), events[k - 1], Leaving(events[i]));
      }
    }
  }

  lemma FirstToLeave(cfg: Config, s: Session, e: Event)
    requires |s.inBuf| == BUF_SIZE && !s.hung && (e == Disconnecting || e == Deleting)
    ensures var t := Step(cfg, s, e).next; !t.hung && t.link.conn == Leaving(e)
  {
  }

  /**
   In any run: from the call that tells the client to leave on, no new connection is
   opened. Each run of `MQTT_Task` disconnects until TCP is disconnected; after that it frees
   the TCP connection when told to disconnect, and the whole client when told to delete.
   */
  lemma LeavesForGood(cfg: Config, events: seq<Event>, i: nat, j: nat, k: nat)
    requires ToldToLeave(cfg, events, i, j) && i < k < |events|
    ensures !Opens(cfg, events, k)
    ensures events[k].RunTask? ==>
      StepAt(cfg, events, k).actions ==
        if k < j then [Action.Disconnect] else if events[i] == Disconnecting then [FreeTcp] else [FreeClient]
  {
    hide Step, Run, Left;
    OnItsWayOut(cfg, events, i, j, k);
    if k <= j {
      LeavingStep(cfg, Run(cfg, events[..k]), events[k]);
    } else {
      LeftStep(cfg, Run(cfg, events[..k]), events[k], Leaving(events[i]));
    }
  }

  // ---------------------------------------------------------------- the receive loop in a run

  lemma ReceiveDataHangsIff(s: Session, seg: seq<Byte>)
    requires |s.inBuf| == BUF_SIZE
    ensures ReceiveData(s, seg).next.hung <==> Stalls(seg)
  {
    hide ReadAll, Stalls;
    ReadAllStallsIff(Loop(s.out, s.inBuf, [], Some(seg)));
  }

  lemma ReceiveHangsIff(s: Session, seg: seq<Byte>)
    requires |s.inBuf| == BUF_SIZE && !s.hung
    ensures Receive(s, seg).next.hung <==> Carries(s.link.conn) && Stalls(seg)
  {
    hide ReceiveData, Stalls, TypeOf;
    ReceiveDataHangsIff(s.(link := s.link.(keepAliveTick := 0)), seg);
    StallsNeedsRoom(seg);
  }

  lemma StallsNeedsRoom(seg: seq<Byte>)
    ensures Stalls(seg) ==> 0 < |seg| < BUF_SIZE
  {
  }

  lemma OthersDoNotHang(cfg: Config, s: Session, e: Event)
    requires |s.inBuf| == BUF_SIZE && !s.hung && !e.Received?
    ensures !Step(cfg, s, e).next.hung
  {
    hide Enqueue, TakeOldest, Messages, Encodable, TickLink;
  }

  /** The client hangs exactly when a segment with a PUBLISH of length 0 modulo 65536 on
      its way arrives over a connection that carries data. */
  lemma HangsIff(cfg: Config, s: Session, e: Event)
    requires |s.inBuf| == BUF_SIZE && !s.hung
    ensures Step(cfg, s, e).next.hung <==> e.Received? && Carries(s.link.conn) && Stalls(e.segment)
  {
    hide Step, Receive, Stalls, Carries;
    if e.Received? {
      StepOn(cfg, s, e.segment, false, 0);
      ReceiveHangsIff(s, e.segment);
    } else {
      OthersDoNotHang(cfg, s, e);
    }
  }
}
