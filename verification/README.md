# ESP8266 firmware: verified models of its state machines, codecs and buffers

Dafny models of the parts of the firmware examples that keep state or transform data, with
proofs of what they are for. Each stateful part comes twice: as functions over values, about
which the properties are proved, and as a class with the source's fields whose methods are
proved to compute those functions.

- `SdioPool`, `SdioSlave`: the SDIO slave's transmit pool. Five buffers move between a free
  list and a send list while an end-of-frame interrupt works on the same lists.
- `MqttFrames`, `MqttQueue`: the MQTT message queue, byte-stuffed frames on a ring buffer.
- `MqttMsg`, `MqttDecode`: the MQTT packet encoder and decoder (MQTT 3.1.1, sections 2.2.3,
  2.3.1 and 3.3), in an exact round trip; `MqttConnect`: a CONNECT as a broker reads it.
- `MqttSession`, `MqttRuns`, `MqttClient`: the receive loop and the connection state machine,
  over all orders of callbacks, timer ticks, task runs and API calls.
- `ConfigStore`: the two-bank configuration store on flash, with power failing anywhere.
- `LightFilter`, `LightAdj`, `LightProgram`: light smoothing by an integer filter.
- `TimerSchedule`, `TimerText`, `TimerDevice`, `TimerProgram`: the switch's timer list.
- `I2c`: the bit-banged I2C master and an observer of its bus (UM10204, sections 3.1.3, 3.1.4).
- `CrcTables`, `Modbus`: the table-driven CRC (MODBUS over Serial Line V1.02, section 6.2.2).
- `Rings`, `TailQueue`: the UART and user ring buffers, and the singly-linked tail queue.
- `Bytes`, `Wrappers`: octets, and the option datatype.

Where a property one would expect does not hold of the code, the model keeps the code as it is,
shows a case, and states exactly when the property does hold:

- The SDIO pool can get stuck with an empty buffer at the head of the send list: after a call
  without data, and when all five buffers complete in the window between "buffer full" and the
  final check (`SdioPool.StuckIffStranded`).
- Publishing can be refused although the frame would fit an empty queue, because failed
  attempts leave torn frames (`MqttFrames.EvictSucceedsIff`).
- A packet body above 16383 bytes gets a header that no longer says its length
  (`MqttDecode.HeaderHoldsIff`); the identifier of a PUBLISH without payload is not found by the
  packet's own length (`MqttDecode.IdRoundTrip`).
- The receive loop ends exactly when no PUBLISH that it comes to has a total length that is a
  multiple of 65536 (`MqttSession.LoopEndsIff`, `MqttRuns.HangsIff`). It drops everything behind
  the first packet that is no PUBLISH (`MqttSession.EveryPacketHandledIff`).
- Light channels saved with a duty between 1 and 20 stay dark after a restart, until a timer
  fires while another duty is asked for (`LightAdj.DeviceReachesLatestRequestIff`).
- A fixed timer that acts, an entry of no known kind, or an action of no known name whose turn
  comes, ends the whole timer chain; the device goes on for ever exactly without these
  (`TimerDevice.DeviceGoesOnIff`, and `TimerDevice.NothingEndsIff` on the list alone).
- Filling the user ring buffer empties it (`Rings.UserRing.Put`).

## Model

| member | source | states |
|---|---|---|
| `SdioPool.Conservation` | examples/at_sdio/driver/sdio_slv.c:347-464 | after every run of loader steps and interrupts: bytes the host has read, then the send list, then the partly filled buffer, are exactly the bytes that calls accepted; the five buffers are in one place each; a read is pending exactly when the send list is non-empty; nothing is left behind when a call is over and the send list is empty |
| `SdioPool.NextKeeps` | examples/at_sdio/driver/sdio_slv.c:347-464 | each single step, a stretch of the loader or an end-of-frame interrupt, keeps the invariant that conservation rests on |
| `SdioPool.StuckIffStranded` | examples/at_sdio/driver/sdio_slv.c:402-409 | a run ends with an empty buffer at the head of the send list and nothing in flight exactly when some step of it made the final check on an empty pool |
| `SdioPool.StuckForever` | examples/at_sdio/driver/sdio_slv.c:414-445 | once stuck, always stuck: no later call or interrupt delivers another byte |
| `SdioPool.EmptyCallStrands` | examples/at_sdio/driver/sdio_slv.c:347-412 | a call with no data on an idle pool gets the pool stuck |
| `SdioPool.FullWindowStrands` | examples/at_sdio/driver/sdio_slv.c:359-363 | so does a call that finds the pool full and is overtaken by five completions before its final check |
| `SdioPool.Drains` | examples/at_sdio/driver/sdio_slv.c:427-464 | a pool that is not stuck hands everything it holds to the host after as many completions as it has buffers waiting |
| `SdioSlave.Slave.constructor` | examples/at_sdio/driver/sdio_slv.c:133-150 | five empty buffers in one list, and an empty run |
| `SdioSlave.Slave.LoadDone` | examples/at_sdio/driver/sdio_slv.c:311-345 | a length of 0 does not start the hardware; any other does |
| `SdioSlave.Slave.Recycle` | examples/at_sdio/driver/sdio_slv.c:429-440 | the buffer the host has read is emptied and becomes the last of the free list, with head and tail pointers right whether or not the list was empty |
| `SdioSlave.Slave.ReadDone` | examples/at_sdio/driver/sdio_slv.c:427-464 | the interrupt on the linked lists is the completion step of the pool |
| `SdioSlave.Slave.TakeBuffer` | examples/at_sdio/driver/sdio_slv.c:365-366 | the head of the free list passes into the loader's hand |
| `SdioSlave.Slave.ReturnBuffer` | examples/at_sdio/driver/sdio_slv.c:376-378 | a buffer with room left goes back to the front; the stale tail pointer of an empty free list already names it |
| `SdioSlave.Slave.QueueBuffer` | examples/at_sdio/driver/sdio_slv.c:388-397 | a full buffer becomes the last of the send list, and is loaded when it is alone there |
| `SdioSlave.Slave.TryLoadHead` | examples/at_sdio/driver/sdio_slv.c:414-425 | loads the head of the send list when nothing is being read |
| `SdioSlave.Slave.FlushPool` | examples/at_sdio/driver/sdio_slv.c:402-409 | the check at the end of a call |
| `SdioSlave.Slave.Window` | examples/at_sdio/driver/sdio_slv.c:360-387 | wherever interrupts are enabled any number of completions may come; memory still agrees with the recorded run, which goes on from where it was |
| `SdioSlave.Slave.LoadData` | examples/at_sdio/driver/sdio_slv.c:347-412 | under every interleaving the call takes a prefix of its data, as long as all of it or at least as the room there was when it began, returns its length, and adds just that prefix to what the host is to see; what happened in it is a run of the step system from the state before it, appended to the run so far, and nothing that the host has read is taken back |
| `SdioPool.RunGrows` | examples/at_sdio/driver/sdio_slv.c:347-464 | over any run what the host has read and what was accepted only grow |
| `SdioPool.CompleteCapacity` | examples/at_sdio/driver/sdio_slv.c:427-464 | a completed read never takes room away from the loader |
| `MqttFrames.FrameParses` | examples/esp_mqtt_proj/mqtt/proto.c:13-47 | a stuffed packet is parsed back byte for byte up to the space there is, whatever was parsed before it and whatever the flag started as |
| `MqttFrames.StuffHasNoMarks` | examples/esp_mqtt_proj/mqtt/proto.c:106-128 | stuffing leaves neither 0x7E nor 0x7F inside a frame |
| `MqttFrames.FrameExample` | examples/esp_mqtt_proj/mqtt/proto.c:106-128 | a frame with all three marks in its packet, octet by octet |
| `MqttFrames.PutSegments` | examples/esp_mqtt_proj/mqtt/proto.c:106-128 | a put appends as much of the frame as fits, keeps the ring a sequence of frames and torn frames, and adds a message exactly when all of it fits |
| `MqttFrames.GetSegments` | examples/esp_mqtt_proj/mqtt/proto.c:56-68 | the bytes up to the first 0x7F parse to the oldest complete message, whatever torn frames lie before it |
| `MqttFrames.NoMessageNoEnd` | examples/esp_mqtt_proj/mqtt/proto.c:56-68 | a ring without a complete message has no 0x7F to stop at |
| `MqttFrames.Fifo` | examples/esp_mqtt_proj/mqtt/queue.c:42-50 | over any sequence of puts, some failing, and gets: messages handed out, then messages still held, are the accepted ones in order |
| `MqttFrames.EvictOldestFirst` | examples/esp_mqtt_proj/mqtt/mqtt.c:521-527 | putting with eviction leaves on success the old messages without the oldest few, then the new one, and on failure an empty ring |
| `MqttFrames.EvictSucceedsIff` | examples/esp_mqtt_proj/mqtt/mqtt.c:521-527 | it succeeds exactly when the frame fits at once or into one of the gaps that gets leave, and evicts no more than needed |
| `MqttQueue.Ring.constructor` | examples/esp_mqtt_proj/mqtt/ringbuf.c:16-24 | an empty ring; a size below 2 holds nothing |
| `MqttQueue.Ring.Put` | examples/esp_mqtt_proj/mqtt/ringbuf.c:32-48 | appends a byte, or refuses it when the ring is full |
| `MqttQueue.Ring.Get` | examples/esp_mqtt_proj/mqtt/ringbuf.c:53-67 | takes the oldest byte |
| `MqttQueue.ByteParser.ParseByte` | examples/esp_mqtt_proj/mqtt/proto.c:13-47 | one byte into the parser's fields is one step of the parser function |
| `MqttQueue.AddRb` | examples/esp_mqtt_proj/mqtt/proto.c:106-128 | writes the frame of a packet, or as much of it as there is room for |
| `MqttQueue.PutCodeTellsSuccess` | examples/esp_mqtt_proj/mqtt/proto.c:106-128 | the code -1 can be told from a 16-bit length in rings below 65535 bytes |
| `MqttQueue.ParseRb` | examples/esp_mqtt_proj/mqtt/proto.c:56-68 | feeds the parser up to the first 0x7F; with none, empties the ring and reports -1 |
| `MqttQueue.Queue.Puts` | examples/esp_mqtt_proj/mqtt/queue.c:42-45 | the message is in the queue exactly when the code is not -1 |
| `MqttQueue.Queue.Gets` | examples/esp_mqtt_proj/mqtt/queue.c:46-50 | hands out the oldest message, cut to the space there is, whatever the uninitialised parser flag holds; or -1 and an empty ring |
| `MqttQueue.Queue.IsEmpty` | examples/esp_mqtt_proj/mqtt/queue.c:52-57 | true exactly when the ring holds no bytes at all, torn frames included |
| `MqttQueue.Queue.PutEvicting` | examples/esp_mqtt_proj/mqtt/mqtt.c:521-527 | the loop terminates, and computes what the eviction function says |
| `MqttSession.FittingPacketRefused` | examples/esp_mqtt_proj/mqtt/mqtt.c:521-527 | with two messages of 1000 octets queued a packet of 1020 is refused, although its frame fits the empty queue of 2048, because failed attempts leave torn frames |
| `MqttMsg.Connection.AppendString` | examples/esp_mqtt_proj/mqtt/mqtt_msg.c:63-74 | appends a length-prefixed string, or -1 when it does not fit |
| `MqttMsg.Connection.AppendMessageId` | examples/esp_mqtt_proj/mqtt/mqtt_msg.c:76-90 | uses the given identifier or the next non-zero one; the counter moves on even when there is no room |
| `MqttMsg.Connection.FiniMessage` | examples/esp_mqtt_proj/mqtt/mqtt_msg.c:105-126 | puts a two- or three-byte fixed header directly in front of the body |
| `MqttMsg.Connection.Publish` | examples/esp_mqtt_proj/mqtt/mqtt_msg.c:363-387 | the message is the PUBLISH packet if it fits the buffer, and empty otherwise; nothing outside the buffer is written; the identifier counter moves on exactly when the encoder gets as far as the identifier |
| `MqttMsg.Connection.Acknowledge` | examples/esp_mqtt_proj/mqtt/mqtt_msg.c:389-419 | the four acknowledgement packets |
| `MqttMsg.Connection.Connect` | examples/esp_mqtt_proj/mqtt/mqtt_msg.c:291-361 | the message is the CONNECT packet with its flags patched in, exactly when there is a client identifier and the packet fits |
| `MqttConnect.ConnectRoundTrip` | examples/esp_mqtt_proj/mqtt/mqtt_msg.c:291-361 | the body of every encoded CONNECT, read by the table of its flags, gives back the parameters: each string in its place, QoS and retain flag of the will, clean session and keep-alive time |
| `MqttConnect.FlagsReadBack` | examples/esp_mqtt_proj/mqtt/mqtt_msg.c:317-352 | each bit of the flags says what it stands for |
| `MqttConnect.ConnectExample` | examples/esp_mqtt_proj/mqtt/mqtt_msg.c:291-361 | a CONNECT with everything in it, octet by octet |
| `MqttConnect.PublishExample` | examples/esp_mqtt_proj/mqtt/mqtt_msg.c:363-387 | a PUBLISH of QoS 1, octet by octet |
| `MqttDecode.GetTotalLength` | examples/esp_mqtt_proj/mqtt/mqtt_msg.c:135-152 | the loop computes the total length function |
| `MqttDecode.GetPublishTopic` | examples/esp_mqtt_proj/mqtt/mqtt_msg.c:154-181 | the loop and its exits compute the topic function |
| `MqttDecode.GetPublishData` | examples/esp_mqtt_proj/mqtt/mqtt_msg.c:183-227 | the loop and its exits compute the payload function |
| `MqttDecode.GetId` | examples/esp_mqtt_proj/mqtt/mqtt_msg.c:229-289 | the loop and its exits compute the identifier function |
| `MqttDecode.ScanPacket` | examples/esp_mqtt_proj/mqtt/mqtt_msg.c:105-126 | the fixed header reads back for every body of at most 16383 bytes, across the change from two to three bytes |
| `MqttDecode.PublishRoundTrip` | examples/esp_mqtt_proj/mqtt/mqtt_msg.c:135-227 | length, type, QoS, retain flag, topic and payload of an encoded PUBLISH are decoded as they were, with anything behind the packet |
| `MqttDecode.FoundInside` | examples/esp_mqtt_proj/mqtt/mqtt_msg.c:154-227 | whatever the octets are, a topic or payload that is found lies within the length given |
| `MqttDecode.IdRoundTrip` | examples/esp_mqtt_proj/mqtt/mqtt_msg.c:229-289 | the identifier comes back exactly when the length passed reaches beyond it; never by a packet's own length when the payload is empty |
| `MqttDecode.AckRoundTrip` | examples/esp_mqtt_proj/mqtt/mqtt_msg.c:389-419 | acknowledgements decode to the identifier they carry |
| `MqttDecode.HeaderHoldsIff` | examples/esp_mqtt_proj/mqtt/mqtt_msg.c:105-126 | the decoder finds the length of an encoded packet if and only if its body has at most 16383 bytes |
| `MqttDecode.LongBodyMisread` | examples/esp_mqtt_proj/mqtt/mqtt_msg.c:105-126 | a body of 32768 zero octets is read as an empty one |
| `MqttSession.ReadAllIsTheLoop` | examples/esp_mqtt_proj/mqtt/mqtt.c:244-356 | the recursive form is what the rounds of the receive loop come to |
| `MqttSession.LoopEndsIff` | examples/esp_mqtt_proj/mqtt/mqtt.c:244-356 | whatever the client holds, the receive loop ends exactly when no PUBLISH that it comes to in the segment has a total length that is a multiple of 65536 |
| `MqttRuns.HangsIff` | examples/esp_mqtt_proj/mqtt/mqtt.c:276-356 | a step hangs the client exactly when such a segment arrives over a connection that carries data |
| `MqttSession.MixedSegment` | examples/esp_mqtt_proj/mqtt/mqtt.c:276-365 | in a segment of any complete packets every PUBLISH up to the first packet of another kind is delivered in order, these and that packet queue their answers, given octet by octet, and everything behind it is dropped |
| `MqttSession.DispatchResponds` | examples/esp_mqtt_proj/mqtt/mqtt.c:307-335 | the answer to a packet that is no PUBLISH, octet by octet: PUBREL for PUBREC, PUBCOMP for PUBREL, PINGRESP for PINGREQ, nothing for any other |
| `MqttSession.ExchangeOctets` | examples/esp_mqtt_proj/mqtt/mqtt.c:313-330 | for an identifier other than 0 and anything behind, 50 02 hi lo queues 62 02 hi lo, 62 02 hi lo queues 70 02 hi lo, and C0 00 queues D0 00 |
| `MqttSession.EveryPacketHandledIff` | examples/esp_mqtt_proj/mqtt/mqtt.c:340-359 | every packet of a segment gets its turn exactly when none but the last is no PUBLISH |
| `MqttSession.ReceiveNeverEnds` | examples/esp_mqtt_proj/mqtt/mqtt.c:343-356 | four bytes of a PUBLISH of declared length 65536 keep the loop going for ever |
| `MqttSession.CoalescedPublishes` | examples/esp_mqtt_proj/mqtt/mqtt.c:276-365 | a segment of any number of complete PUBLISH packets calls the data callback once for each, in order, with the encoded topic and payload, queues one acknowledgement for each of QoS 1 or 2, and ends the loop |
| `MqttSession.DispatchPub` | examples/esp_mqtt_proj/mqtt/mqtt.c:293-306 | the first packet of a segment is dispatched as the message it encodes: QoS 1 queues 40 02 and its identifier, QoS 2 queues 50 02 and its identifier |
| `MqttSession.EnqueueKeeps` | examples/esp_mqtt_proj/mqtt/mqtt.c:521-527 | putting with eviction keeps what has left the queue, then what it holds, equal to what was accepted |
| `MqttSession.DispatchKeeps` | examples/esp_mqtt_proj/mqtt/mqtt.c:282-339 | so does dispatching any received packet |
| `MqttRuns.ConnackFirst` | examples/esp_mqtt_proj/mqtt/mqtt.c:116-495 | in every run of callbacks, ticks, task runs and API calls the client is in MQTT_DATA or MQTT_KEEPALIVE_SEND only if a CONNACK came after the latest TCP connection |
| `MqttRuns.CarriesIffLinked` | examples/esp_mqtt_proj/mqtt/mqtt.c:116-495 | in every run the client hangs exactly when a segment that never ends came over a linked connection; until then it is in MQTT_DATA or MQTT_KEEPALIVE_SEND exactly when a CONNACK answered the CONNECT of the latest TCP connection and nothing has broken the link since |
| `MqttRuns.ConnackLinks` | examples/esp_mqtt_proj/mqtt/mqtt.c:253-275 | on the events alone: with a CONNECT that fits, a TCP connection, the first CONNACK after it, nothing that breaks the link and every ping taken, the client carries data |
| `MqttRuns.FirstConnection` | examples/esp_mqtt_proj/mqtt/mqtt.c:253-275 | over a new connection the segment 20 02 00 00 links the client |
| `MqttRuns.SubmittedIsSent` | examples/esp_mqtt_proj/mqtt/mqtt.c:507-680 | from the start on: once linked, a submitted message that fits the queue is handed to the transport, behind those queued before it, after as many task runs and confirmations as there are messages |
| `MqttRuns.NothingSentBeforeConnack` | examples/esp_mqtt_proj/mqtt/mqtt.c:613-683 | no queued message and no ping goes out before that CONNACK |
| `MqttRuns.InvalidIff` | examples/esp_mqtt_proj/mqtt/mqtt.c:253-275 | the connection is dropped as invalid exactly when a CONNACK answers a CONNECT that could not be encoded and the buffer held another type; never with an encodable CONNECT |
| `MqttRuns.SendsApart` | examples/esp_mqtt_proj/mqtt/mqtt.c:656-680 | between a CONNECT, a ping or a queued message that is sent and the next queued message there is a sent callback or at least five ticks |
| `MqttRuns.SendsAfterFiveTicks` | examples/esp_mqtt_proj/mqtt/mqtt.c:387-412 | and five ticks are enough: the next run of MQTT_Task sends the next queued message, confirmed or not |
| `MqttRuns.SentInOrder` | examples/esp_mqtt_proj/mqtt/mqtt.c:656-680 | the messages handed to the transport are a subsequence of the accepted ones; every accepted one was sent, was evicted, or is still queued |
| `MqttRuns.QueueDrains` | examples/esp_mqtt_proj/mqtt/mqtt.c:656-680 | from any point of any run at which the client may send, as many runs of MQTT_Task and confirmations as there are queued messages send all of them in order, and one more run clears torn frames |
| `MqttRuns.SameIdIff` | examples/esp_mqtt_proj/mqtt/mqtt_msg.c:76-90 | in any run two submissions over one connection carry the same identifier exactly when the number given out from the one to the other is a multiple of 65535 |
| `MqttRuns.IdsRestart` | examples/esp_mqtt_proj/mqtt/mqtt.c:443-476 | the first submission that takes an identifier after a new TCP connection carries identifier 1 |
| `MqttRuns.ReconnectsAfterSixTicks` | examples/esp_mqtt_proj/mqtt/mqtt.c:387-412 | in any run, with a connection lost and nothing else happening to the link, MQTT_Task opens a new one at its first run after the sixth tick since the latest attempt, and at no run before |
| `MqttRuns.ReconnectsAfterLoss` | examples/esp_mqtt_proj/mqtt/mqtt.c:387-434 | in any run, after a failed name lookup, a TCP error or a disconnection that was not asked for, MQTT_Task opens a new connection exactly once six ticks have passed, those of an earlier wait included |
| `MqttRuns.FailedPingDisconnects` | examples/esp_mqtt_proj/mqtt/mqtt.c:116-150 | in any run, after a ping that the transport does not take each run of MQTT_Task disconnects, until TCP is disconnected, which counts as such a loss |
| `MqttRuns.PingsAfterKeepAlive` | examples/esp_mqtt_proj/mqtt/mqtt.c:387-412 | in any run, while a connection is silent, MQTT_Task sends a ping at its first run after the keep-alive time, and at no run before |
| `MqttRuns.PingsAfterContact` | examples/esp_mqtt_proj/mqtt/mqtt.c:372-412 | that time counts from the latest segment received or packet confirmed |
| `MqttRuns.OpensIff` | examples/esp_mqtt_proj/mqtt/mqtt.c:58-97 | a connection is opened exactly by the connect call, by the answer that brings the first address, and by MQTT_Task when a reconnect is due; a CONNECT is sent exactly when TCP connects |
| `MqttRuns.LeavesForGood` | examples/esp_mqtt_proj/mqtt/mqtt.c:613-655 | in any run, from the call that tells the client to leave on no connection is opened; MQTT_Task disconnects until TCP is disconnected, and then frees the TCP connection, or the whole client, as it was told |
| `MqttClient.Client.constructor` | examples/esp_mqtt_proj/mqtt/mqtt.c:693-762 | a new client is in the start state |
| `MqttClient.Client.DnsFoundCallback` | examples/esp_mqtt_proj/mqtt/mqtt.c:58-97 | makes the DNS step |
| `MqttClient.Client.SentCb` | examples/esp_mqtt_proj/mqtt/mqtt.c:372-385 | makes the sent step |
| `MqttClient.Client.Timer` | examples/esp_mqtt_proj/mqtt/mqtt.c:387-412 | makes the tick step |
| `MqttClient.Client.DisconCb` | examples/esp_mqtt_proj/mqtt/mqtt.c:414-434 | makes the disconnected step |
| `MqttClient.Client.ReconCb` | examples/esp_mqtt_proj/mqtt/mqtt.c:484-496 | makes the error step |
| `MqttClient.Client.ConnectCb` | examples/esp_mqtt_proj/mqtt/mqtt.c:443-476 | makes the connected step: the CONNECT is encoded and pending |
| `MqttClient.Client.Recv` | examples/esp_mqtt_proj/mqtt/mqtt.c:233-365 | makes the receive step, in every state and for every segment |
| `MqttClient.Client.ReadPackets` | examples/esp_mqtt_proj/mqtt/mqtt.c:244-356 | the loop over the packets of a segment computes the receive function |
| `MqttClient.Client.DeliverPublish` | examples/esp_mqtt_proj/mqtt/mqtt.c:101-114 | what the data callback is called with |
| `MqttClient.Client.SendKeepAlive` | examples/esp_mqtt_proj/mqtt/mqtt.c:116-150 | sends a ping, and returns to data or starts a reconnect |
| `MqttClient.Client.Task` | examples/esp_mqtt_proj/mqtt/mqtt.c:613-683 | makes the step of MQTT_Task in every state |
| `MqttClient.Client.ConnectTcp` | examples/esp_mqtt_proj/mqtt/mqtt.c:786-833 | resets both counters and connects |
| `MqttClient.Client.Publish` | examples/esp_mqtt_proj/mqtt/mqtt.c:507-530 | queues the packet, with the next identifier, if it can be encoded, and otherwise changes nothing but the identifier counter, which is given in all cases |
| `MqttClient.Client.Ping` | examples/esp_mqtt_proj/mqtt/mqtt.c:591-611 | queues a PINGREQ with eviction |
| `MqttClient.Client.Leave` | examples/esp_mqtt_proj/mqtt/mqtt.c:835-849 | disconnecting and deleting only set the state |
| `ConfigStore.SaveIsAtomic` | examples/esp_mqtt_proj/modules/config.c:45-68 | power lost at any operation of a save, in the middle of an erase or a write, leaves the old or the new configuration selected, whole, the new one exactly from the first bit that the selector has set or the last that it has cleared; a complete save leaves the new one |
| `ConfigStore.SparesSelectedBank` | examples/esp_mqtt_proj/modules/config.c:51-67 | a save never touches the bank that a load would read |
| `ConfigStore.SurvivesPowerLoss` | examples/esp_mqtt_proj/modules/config.c:45-110 | over any number of saves, loads and power failures a load finds the latest complete configuration, or one whose saving was cut short after it |
| `ConfigStore.NeverResets` | examples/esp_mqtt_proj/modules/config.c:84-108 | once a marked configuration is current no load falls back to the defaults |
| `ConfigStore.VirginFlash` | examples/esp_mqtt_proj/modules/config.c:70-110 | the first load of erased flash stores the defaults in bank 0 and selects it |
| `ConfigStore.TornEraseIff` | examples/esp_mqtt_proj/modules/config.c:52-65 | the modelled interrupted erase reaches exactly the states with some more bits set |
| `ConfigStore.TornWriteIff` | examples/esp_mqtt_proj/modules/config.c:52-65 | the modelled interrupted write reaches exactly the states with some of the bits cleared |
| `ConfigStore.ConfigProgram.CfgSave` | examples/esp_mqtt_proj/modules/config.c:45-68 | the program performs the four flash operations of a save |
| `ConfigStore.ConfigProgram.CfgLoad` | examples/esp_mqtt_proj/modules/config.c:70-110 | loads the selected bank, or stores and uses the defaults |
| `LightFilter.FilterShrinks` | examples/IoT_Demo/user/user_light_adj.c:155-158 | a tick never passes the target, shrinks every error, and never overflows for the duties that requests can set |
| `LightFilter.FilterMoves` | examples/IoT_Demo/user/user_light_adj.c:155-158 | a tick goes a sixteenth of the way, up to the rounding of the shift, and all of it when less than 20 is left |
| `LightFilter.ReachesTarget` | examples/IoT_Demo/user/user_light_adj.c:155-158 | the number of ticks is logarithmic in the distance |
| `LightFilter.WithinFourHundredTicks` | examples/IoT_Demo/user/user_light_adj.c:155-158 | 400 ticks are enough for any distance |
| `LightAdj.ChannelArrivesIff` | examples/IoT_Demo/user/user_light.c:57-65 | a PWM channel reaches its target exactly when the duty cache does not claim a target that the PWM does not have |
| `LightAdj.ChainEndsIff` | examples/IoT_Demo/user/user_light_adj.c:152-179 | the chain of timers ends, within 400 timers and with every channel at its target, exactly when no channel is stuck in that way |
| `LightAdj.LatestRequestIsTarget` | examples/IoT_Demo/user/user_light_adj.c:194-221 | in every run of requests and timers from a tidy state the event ring is empty again after each, no request is refused, and the target is the latest request within its limits |
| `LightAdj.LatestPeriodIsSet` | examples/IoT_Demo/user/user_light_adj.c:194-198 | in every run of requests and timers from a tidy state the PWM and its cache have the period of the latest request, at most 10000 |
| `LightAdj.DevicePeriod` | examples/IoT_Demo/user/user_light.c:84-152 | and so in every run from start-up |
| `LightAdj.RequestLimits` | examples/IoT_Demo/user/user_light_adj.c:272-353 | a request asks for the duties given, each cut down to 1000 / 45 of its period and no further, 1000 times the period being taken in 32 bits |
| `LightAdj.ReachesLatestRequest` | examples/IoT_Demo/user/user_light_adj.c:272-353 | after any such run, 400 timers bring every channel to the latest request exactly when no channel is stuck by then, which none is if the duty cache was right at first |
| `LightAdj.BootTidy` | examples/IoT_Demo/user/user_light.c:105-152 | every start-up leads to a tidy state, whatever was saved |
| `LightAdj.BootOrderly` | examples/IoT_Demo/user/user_light.c:105-152 | with no saved duty between 1 and 20 the cache is right as well |
| `LightAdj.DeviceReachesLatestRequestIff` | examples/IoT_Demo/user/user_light_adj.c:152-353 | in every run of the device from start-up the target is the latest request, and 400 timers later the light is there, unless a channel was saved with a duty between 1 and 20 and was asked for that duty whenever a timer fired and is now |
| `LightAdj.BootEndsIff` | examples/IoT_Demo/user/user_light.c:105-152 | restoring saved duties at start-up ends exactly when none of them is between 1 and 20 |
| `LightProgram.Program.EvtMalloc` | examples/IoT_Demo/user/user_light_adj.c:58-73 | allocates the next slot of the ring, or none when 40 are in use |
| `LightProgram.Program.SetDuty` | examples/IoT_Demo/user/user_light.c:57-65 | sets PWM and cache unless the cache has the duty already |
| `LightProgram.Program.CheckDiff` | examples/IoT_Demo/user/user_light_adj.c:137-149 | whether some channel is not at its target |
| `LightProgram.Program.AdjustProc` | examples/IoT_Demo/user/user_light_adj.c:152-179 | one round of smoothing, and arming the timer or finishing |
| `LightProgram.Program.SmoothAdjProc` | examples/IoT_Demo/user/user_light_adj.c:194-221 | takes the next event, in mutual recursion with the smoothing round |
| `LightProgram.Program.SetAimDuty` | examples/IoT_Demo/user/user_light_adj.c:272-353 | a request, with its limits |
| `LightProgram.Program.TimerCallback` | examples/IoT_Demo/user/user_light_adj.c:165-170 | the timer makes the timer step |
| `TimerSchedule.LoopNext` | examples/IoT_Demo/user/user_esp_platform_timer.c:168-178 | a loop timer waits for the next multiple of its period |
| `TimerSchedule.WeeklyNextIff` | examples/IoT_Demo/user/user_esp_platform_timer.c:179-196 | a weekly timer waits for its next instant exactly when the clock is not before the first Monday or the wait is at most a week |
| `TimerSchedule.WeeksBeginOnMonday` | examples/IoT_Demo/user/user_esp_platform_timer.c:188 | weeks begin at a midnight in China, on a Monday |
| `TimerSchedule.MinWait` | examples/IoT_Demo/user/user_esp_platform_timer.c:123-134 | the least wait that is not negative, at most 0xFFFFFFF |
| `TimerSchedule.Selected` | examples/IoT_Demo/user/user_esp_platform_timer.c:293-299 | exactly the positions whose wait is the shortest, in order |
| `TimerSchedule.SleepIsExact` | examples/IoT_Demo/user/user_esp_platform_timer.c:143-209 | nothing is due before a sleep ends, and what is selected is exactly what is due then |
| `TimerSchedule.MissesNothing` | examples/IoT_Demo/user/user_esp_platform_timer.c:142-209 | over any number of firings every due instant of every timer is a firing, and the timer acts in it |
| `TimerSchedule.ActsExactlyWhenDue` | examples/IoT_Demo/user/user_esp_platform_timer.c:283-304 | a timer acts at a firing if and only if it is due then |
| `TimerSchedule.Increasing` | examples/IoT_Demo/user/user_esp_platform_timer.c:142-209 | firing instants strictly increase |
| `TimerSchedule.HaltsIff` | examples/IoT_Demo/user/user_esp_platform_timer.c:203-206 | the chain stops exactly when a fixed timer is due right now or an entry has no known kind |
| `TimerSchedule.NeverStops` | examples/IoT_Demo/user/user_esp_platform_timer.c:142-209 | without unknown entries and with every fixed timer in the past, planning always finds a next instant |
| `TimerSchedule.FixedTimerEndsChain` | examples/IoT_Demo/user/user_esp_platform_timer.c:155-166 | with a fixed timer to come no firing is later than its instant, and there are no more firings than seconds until then |
| `TimerSchedule.GoesOnIff` | examples/IoT_Demo/user/user_esp_platform_timer.c:142-209 | the planned instants, with the actions left aside, go on for ever exactly when the list has no unknown entry and every fixed timer in it lies in the past |
| `TimerDevice.DeviceGoesOnIff` | examples/IoT_Demo/user/user_esp_platform_timer.c:142-304 | the device has an alarm armed after every number of alarms exactly when the planned instants go on for ever and at no firing an action of no known name comes before one that starts with the digit 0 |
| `TimerDevice.NothingEndsIff` | examples/IoT_Demo/user/user_esp_platform_timer.c:218-247 | on a list without actions that start with 0: exactly when the list is endless and every loop or weekly timer has a known action |
| `TimerDevice.GoesOnAfterIff` | examples/IoT_Demo/user/user_esp_platform_timer.c:228-245 | a list of actions lets the chain go on exactly when every action of no known name comes behind one that starts with 0, or does so itself |
| `TimerDevice.UnknownActionStops` | examples/IoT_Demo/user/user_esp_platform_timer.c:241-243 | a single loop timer with an unknown action stops the device |
| `TimerSchedule.AlarmsAddUp` | examples/IoT_Demo/user/user_esp_platform_timer.c:256-274 | the alarms add up to the wait; none is longer than 3600 seconds, and there is one for each full hour and one for the rest |
| `TimerText.Split` | examples/IoT_Demo/user/user_esp_platform_timer.c:69-96 | cuts the text at every separator |
| `TimerText.JoinPieces` | examples/IoT_Demo/user/user_esp_platform_timer.c:69-96 | joining the pieces gives the text back |
| `TimerText.PiecesOfJoin` | examples/IoT_Demo/user/user_esp_platform_timer.c:69-96 | splitting joined pieces gives them back |
| `TimerText.ListReadsBack` | examples/IoT_Demo/user/user_esp_platform_timer.c:152-201 | a list written in the server's format is read as it was meant |
| `TimerText.LettersRead` | examples/IoT_Demo/user/user_esp_platform_timer.c:152-201 | `f` is read as a fixed timer, `l` as a loop and `w` as a weekly one, each with its number and its action |
| `TimerText.TrailingSeparatorStops` | examples/IoT_Demo/user/user_esp_platform_timer.c:313-358 | a separator at the end of the list makes an entry that stops the chain |
| `TimerDevice.ActsAfterWait` | examples/IoT_Demo/user/user_esp_platform_timer.c:256-274 | however long a wait is, the actions take place exactly when it is over |
| `TimerDevice.FollowsSchedule` | examples/IoT_Demo/user/user_esp_platform_timer.c:142-304 | as long as no action so far ends the chain, the device makes by the physical clock exactly the firings of the schedule, and the switch is set as their actions say |
| `TimerDevice.SwitchAfterActions` | examples/IoT_Demo/user/user_esp_platform_timer.c:228-239 | a list of known actions leaves the switch as the last `on_switch` or `off_switch` says, or as it was without one, flipped once for each `on_off_switch` behind it |
| `TimerDevice.NothingBehind` | examples/IoT_Demo/user/user_esp_platform_timer.c:228-245 | behind an action that starts with 0, and behind one of no known name, nothing is done |
| `TimerDevice.SwitchFollowsTimer` | examples/IoT_Demo/user/user_esp_platform_timer.c:142-304 | with a loop timer as the only entry, the switch is on after every firing of `on_switch`, off after every firing of `off_switch`, and flipped by each firing of `on_off_switch` |
| `TimerProgram.Program.FindMinTime` | examples/IoT_Demo/user/user_esp_platform_timer.c:123-134 | the loop computes the shortest wait |
| `TimerProgram.Program.ChooseActions` | examples/IoT_Demo/user/user_esp_platform_timer.c:283-304 | the loop collects the actions of the timers with the shortest wait |
| `TimerProgram.Program.FindWaits` | examples/IoT_Demo/user/user_esp_platform_timer.c:152-201 | the loop parses every entry and computes its wait |
| `TimerProgram.Program.TimerFirstStart` | examples/IoT_Demo/user/user_esp_platform_timer.c:142-209 | makes the planning step |
| `TimerProgram.Program.OverflowCheck` | examples/IoT_Demo/user/user_esp_platform_timer.c:256-274 | arms the next alarm |
| `TimerProgram.Program.AlarmCallback` | examples/IoT_Demo/user/user_esp_platform_timer.c:256-274 | an alarm makes the alarm step |
| `TimerProgram.Program.ActionCallback` | examples/IoT_Demo/user/user_esp_platform_timer.c:218-247 | performs the pending actions in order and plans again, unless one is unknown |
| `I2c.ObservedIff` | app/driver/i2c_master.c:42-330 | an observer of the two lines recovers the starts, stops, bytes and acknowledgements of a run of calls, and nothing else, exactly when no start directly follows a start and no stop directly follows a stop or comes first on an idle bus |
| `I2c.CallSays` | app/driver/i2c_master.c:144-330 | each call says on the bus what it is for, most significant bit first, from any state between calls |
| `I2c.StableData` | app/driver/i2c_master.c:42-59 | SDA changes while SCL is high once for each start and stop and never otherwise |
| `I2c.TransactionRoundTrip` | app/driver/i2c_master.c:144-330 | from the levels alone every byte, written or read, and every acknowledgement of a transaction is decoded back |
| `I2c.Master.Start` | app/driver/i2c_master.c:144-153 | the settings of a start |
| `I2c.Master.Stop` | app/driver/i2c_master.c:161-172 | the settings of a stop |
| `I2c.Master.SetAckLevel` | app/driver/i2c_master.c:180-193 | the settings of an acknowledgement sent |
| `I2c.Master.ReceiveAck` | app/driver/i2c_master.c:201-218 | returns the level that the slave drives |
| `I2c.Master.Read` | app/driver/i2c_master.c:265-297 | returns the byte that the slave drives |
| `I2c.Master.Write` | app/driver/i2c_master.c:305-330 | puts the bits of the byte on the lines, most significant first |
| `CrcTables.TablesAreSteps` | app/user/modbus.c:14-59 | each of the 256 entries of both tables is eight steps of the bitwise CRC |
| `Modbus.BitsAreByte` | app/user/modbus.c:94-99 | eight bits one by one, or a byte xored in and eight steps |
| `Modbus.TableStep` | app/user/modbus.c:81-87 | the table step is the bitwise step for a byte |
| `Modbus.CheckValue` | app/user/modbus.c:89-101 | the CRC of the digits 123456789 is 0x4B37 |
| `Modbus.LowOctetFirst` | app/user/modbus.c:108-121 | a sender appends 37 4B to these digits, low octet first |
| `Modbus.PassesIff` | app/user/modbus.c:108-135 | a frame passes exactly when its last two bytes are the CRC of the rest, low byte first; shorter frames never pass |
| `Modbus.WithCrcPasses` | app/user/modbus.c:108-121 | a message followed by its CRC passes |
| `Modbus.BurstDetected` | app/user/modbus.c:89-101 | two frames that differ only within sixteen consecutive bits, at any bit position, never have the same CRC |
| `Modbus.AdjacentBytesDetected` | app/user/modbus.c:89-101 | nor do two frames that differ only in two adjacent bytes |
| `Modbus.Driver.Once` | app/user/modbus.c:81-87 | one more byte of a message |
| `Modbus.Driver.Crc16` | app/user/modbus.c:89-101 | the table-driven loop computes the bitwise CRC of every message |
| `Modbus.Driver.Send` | app/user/modbus.c:108-121 | sends a frame whole if its CRC is right, and else not at all |
| `Modbus.Driver.Receive` | app/user/modbus.c:123-135 | hands a frame on exactly if its CRC is right |
| `Rings.UserRing.Put` | app/user/user_ringbuffer.c:62-98 | appends as much as fits in the free bytes; filling the last one loses everything in the ring |
| `Rings.UserRing.Get` | app/user/user_ringbuffer.c:100-138 | takes the oldest bytes, across the end of the array |
| `Rings.UartRing.Copy` | app/driver/uart.c:432-453 | appends data that fit, across the end of the array |
| `Rings.UartRing.TxEnqueue` | app/driver/uart.c:550-556 | all of the data or nothing |
| `Rings.UartRing.TxStart` | app/driver/uart.c:589-610 | moves the oldest bytes to the FIFO, as many as it has room for, even from a full ring |
| `Rings.UartRing.RxEnqueue` | app/driver/uart.c:508-533 | takes the whole FIFO or nothing, and never fills the ring |
| `Rings.UartRing.RxDequeue` | app/driver/uart.c:471-504 | takes the oldest bytes; the branch without wrap-around is right because the ring is never full |
| `TailQueue.Memory.InsertHead` | include/queue.h:170-174 | prepends an element |
| `TailQueue.Memory.InsertTail` | include/queue.h:176-180 | appends an element through the last pointer |
| `TailQueue.Memory.InsertAfter` | include/queue.h:164-168 | inserts behind an element, the last one included |
| `TailQueue.Memory.RemoveHead` | include/queue.h:204-208 | removes the first element |
| `TailQueue.Memory.RemoveAfter` | include/queue.h:210-214 | removes the element behind another |
| `TailQueue.Memory.Remove` | include/queue.h:190-202 | removes an element wherever it is; the search ends because it is in the queue |
| `TailQueue.Memory.Concat` | include/queue.h:136-142 | moves one queue behind another and empties it |
| `TailQueue.Memory.Swap` | include/queue.h:216-227 | exchanges two queues, empty ones included |
| `TailQueue.Memory.InsertChainHead` | include/queue.h:229-234 | prepends a chain |
| `TailQueue.ContentsUnique` | include/queue.h:148-151 | pointers determine the contents |
| `TailQueue.Unrelated` | include/queue.h:136-234 | writing the elements of one queue leaves every other queue as it is |

## Left out

- Environment of the SDIO pool: the end-of-frame interrupt is assumed to come only while a load is in flight; registers, the host interrupt line and the receive direction are not modelled.
- SdioSlave.Slave.LoadData: the interrupts of a window are modelled as running between statements of the loader, not within one.
- SDIO and queue list nodes are named by numbers instead of heap addresses; allocation is not modelled.
- MqttMsg.Connection.Publish: lengths are counted without a bound, so a `data_length` that overflows an int is not modelled.
- SUBSCRIBE, UNSUBSCRIBE and DISCONNECT encoders: they add only easy members. Their effect on the queue and on the identifier counter is the `Submit` event.
- MqttClient.Client.Recv: user callbacks are not re-entrant; a callback that calls the API is a later event. `connectedCb`, `publishedCb`, `disconnectedCb` and `timeoutCb` are not recorded.
- MqttClient.Client.Task: releasing the client's memory is the action `FreeTcp` or `FreeClient`; no event after it is assumed away, but dangling pointers are not modelled. TLS is left out; both transports look the same.
- MqttClient.Client.ReadPackets: where the source goes round for ever the method stops and sets `hung`, and no event happens after that.
- MqttSession.LoopEndsIff, MqttRuns.HangsIff: a received length field of more than four octets makes the source shift by 28 bits and more, which C leaves undefined or lets overflow; there the two theorems speak of the unbounded sum.
- Keep-alive and reconnect counters are unbounded numbers.
- `PROTO_Add`, `PROTO_Parse` and the parser's completion callback: no caller uses them.
- ConfigStore.SaveIsAtomic: an interrupted erase only sets bits and an interrupted write only clears bits; cells that read differently each time are not modelled. The fields of the configuration are opaque bytes apart from the mark.
- LightAdj.ChainEndsIff: `pwm_get_duty` is assumed to answer what was set; the PWM driver is not visible. The sleep flag of the radio is not modelled.
- Light requests for one colour (`light_set_aim_r` and its siblings) and the current limit that is compiled out.
- TimerProgram.Program.constructor: the search for the time and the list in the server's message is left out; the list must have an `=` in every entry of a known kind, as the source assumes.
- TimerSchedule.MissesNothing: times are unbounded numbers, so clocks past 2038 are not modelled; the clock is not before the first Monday, 1388937600.
- TimerText.Split: the limits of 20 pieces and of 100, 11 and 15 bytes for texts are not modelled, and neither is the memory of the pending actions, which the source keeps on a stack.
- TimerText.ParseEntry: `atoi` is modelled without leading spaces and plus signs.
- TimerProgram.Program.ActionCallback: the build for a plug; in other builds the callback does nothing.
- I2c.Master.Read: the value is summed up where the source sets bits that are clear; the waits between settings and the clearing sequence of `i2c_master_init` are not modelled.
- UART interrupt masks, flow control and the creation of the transmit buffer on first use.
- Rings.UserRing.Get: the destination must not be the ring's own storage. The lock is not modelled.
- SLIST macros, debugging macros, and duplicate copies of drivers and headers.
- Web server, JSON, upgrade, device discovery and radio code: only prototypes of what they call are visible.
