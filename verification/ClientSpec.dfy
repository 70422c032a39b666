/** The client as a state machine over values: what each call does to the queue, the receive
    buffer and the two byte streams of the socket.  Whatever the environment decides (how much
    the socket takes or gives, what the clock shows, what uninitialised header fields hold)
    is an argument. */
module ClientSpec {
  import opened Bytes
  import opened MqttConstants
  import opened FixedHeaders
  import opened Packers
  import opened Unpackers
  import opened Messages
  import opened PacketIds

  /** A packet taken out of the receive buffer; delivered when the publish callback was called for it. */
  datatype Dispatch = Dispatch(packet: seq<byte>, response: Response, delivered: bool)

  datatype Client = Client(
    // the send queue and its memory block
    msgs: seq<Message>, memSize: nat, headerSize: nat,
    // the other fields of the client
    lfsr: bv16, sendOffset: nat, error: int, keepAlive: uint16,
    timeOfLastSend: int, responseTimeout: int, timeouts: nat,
    // the receive buffer
    recv: seq<byte>, recvSize: nat,
    // the socket: what the peer has yet to deliver, and what the client has handed over
    unread: seq<byte>, wire: seq<byte>,
    // the history: packets registered, bytes received, packets dispatched
    registered: seq<seq<byte>>, received: seq<byte>, dispatched: seq<Dispatch>,
    // the source's behaviour is not defined, or does not return, from here on
    lost: bool)

  /** What a client is set up with: the sizes of its two memory blocks and of a message header, the time after which an
      unanswered message is sent again (30 unless the field is assigned), and what two fields that mqtt_init leaves
      alone happen to hold. */
  datatype Setup = Setup(memSize: nat, headerSize: nat, recvSize: nat, responseTimeout: int,
                         keepAlive: uint16, timeOfLastSend: int)

  /** mqtt_init, for a connection on which the peer will send the given bytes. */
  function Initial(setup: Setup, unread: seq<byte>): Client {
    Client([], setup.memSize, setup.headerSize, 0, 0, ERROR_CONNECT_NOT_CALLED,
           setup.keepAlive, setup.timeOfLastSend, setup.responseTimeout, 0,
           [], setup.recvSize, unread, [], [], [], [], false)
  }

  datatype Outcome = Outcome(client: Client, rv: int)

  function RoomOf(c: Client): nat {
    Room(c.memSize, c.headerSize, c.msgs)
  }

  // ----- Staging a message -----

  function Append(c: Client, r: Request, stale: Stale): Client
    requires RequestError(r) == 0
  {
    c.(msgs := c.msgs + [Queued(r, stale)], registered := c.registered + [PacketBytes(r)])
  }

  /** MQTT_CLIENT_TRY_PACK with the assignments that follow it. */
  function Stage(c: Client, r: Request, stale: Stale): Outcome {
    if c.error < 0 then Outcome(c, c.error)
    else
      var n := PackedSize(r, RoomOf(c));
      if n < 0 then Outcome(c.(error := n), n)
      else if n > 0 then Placed(c, r, stale)
      else
        var c' := c.(msgs := Cleaned(c.msgs));
        var n' := PackedSize(r, RoomOf(c'));
        if n' < 0 then Outcome(c'.(error := n'), n')
        else if n' == 0 then Outcome(c'.(error := ERROR_SEND_BUFFER_IS_FULL), ERROR_SEND_BUFFER_IS_FULL)
        else Placed(c', r, stale)
  }

  /** The packer finds room: the message is registered, unless the packer writes beyond that room. */
  function Placed(c: Client, r: Request, stale: Stale): Outcome
    requires PackedSize(r, RoomOf(c)) > 0
  {
    if Overflows(r, RoomOf(c)) then Outcome(c.(lost := true), 0)
    else Outcome(Append(c, r, stale), MQTT_OK)
  }

  function Connect(c: Client, r: Request, stale: Stale): Outcome
    requires r.ConnectRequest?
  {
    var error := if c.error == ERROR_CONNECT_NOT_CALLED then MQTT_OK else c.error;
    Stage(c.(keepAlive := r.keepAlive, error := error), r, stale)
  }

  /** The calls that need a packet id draw it first, whether or not the message is then accepted. */
  ghost function StageWithId(c: Client, r: uint16 -> Request, stale: Stale): Outcome {
    if !SomeFree(Ids(c.msgs)) then Outcome(c.(lost := true), 0)
    else
      var id := NextId(c.lfsr, Ids(c.msgs));
      Stage(c.(lfsr := id), r(id as int), stale)
  }

  ghost function PublishMessage(c: Client, topic: Option<seq<byte>>, message: seq<byte>, flags: byte,
                                stale: Stale): Outcome {
    StageWithId(c, (id: uint16) => PublishRequest(topic, id, message, flags), stale)
  }

  ghost function Subscribe(c: Client, filter: seq<byte>, maxQos: byte, stale: Stale): Outcome {
    StageWithId(c, (id: uint16) => SubscribeRequest(id, [(filter, maxQos)]), stale)
  }

  ghost function Unsubscribe(c: Client, topic: seq<byte>, stale: Stale): Outcome {
    StageWithId(c, (id: uint16) => UnsubscribeRequest(id, [topic]), stale)
  }

  // ----- Sending -----

  /** What the environment does while one queued message is looked at: the clock at the timeout
      check, the answer of the socket, and the clock after sending. */
  datatype Turn = Turn(now: int, reply: int, after: int)

  datatype Verdict = Go | Stop | Fail(code: int)

  datatype SendStep = SendStep(client: Client, inflight: bool, next: Verdict)

  predicate TimedOut(m: Message, now: int, responseTimeout: int) {
    m.state.AwaitingAck? && now > m.timeSent + responseTimeout
  }

  function Min(a: int, b: int): int { if a < b then a else b }

  /** The socket takes n more bytes of message i. */
  function HandedOver(c: Client, i: nat, n: nat): Client
    requires i < |c.msgs| && c.sendOffset + n <= |c.msgs[i].bytes|
  {
    c.(wire := c.wire + c.msgs[i].bytes[c.sendOffset..c.sendOffset + n], sendOffset := c.sendOffset + n)
  }

  /** Hands the rest of message i to the socket. */
  function Transmit(c: Client, i: nat, inflight: bool, t: Turn): (s: SendStep)
    requires i < |c.msgs|
    ensures |s.client.msgs| == |c.msgs|
  {
    var m := c.msgs[i];
    if c.sendOffset > |m.bytes| then SendStep(c.(lost := true), inflight, Fail(0))
    else if t.reply < 0 then SendStep(c.(error := t.reply), inflight, Fail(t.reply))
    else
      var c1 := HandedOver(c, i, Min(t.reply, |m.bytes| - c.sendOffset));
      if c1.sendOffset < |m.bytes| then SendStep(c1, inflight, Stop)
      else Finished(c1, i, inflight, t.after)
  }

  /** Message i has been sent completely. */
  function Finished(c: Client, i: nat, inflight: bool, now: int): (s: SendStep)
    requires i < |c.msgs|
    ensures |s.client.msgs| == |c.msgs|
  {
    var m := c.msgs[i];
    var c' := c.(sendOffset := 0, timeOfLastSend := now, msgs := c.msgs[i := AfterSending(m, now)]);
    if CompletesOnSend(m) || AwaitsAckOnSend(m) then SendStep(c', inflight, Go)
    else SendStep(c'.(error := ERROR_MALFORMED_REQUEST), inflight, Fail(ERROR_MALFORMED_REQUEST))
  }

  /** One round of the send loop. */
  function SendOne(c: Client, i: nat, inflight: bool, t: Turn): (s: SendStep)
    requires i < |c.msgs|
    ensures |s.client.msgs| == |c.msgs|
  {
    var m := c.msgs[i];
    var timedOut := TimedOut(m, t.now, c.responseTimeout);
    var c1 := if timedOut then c.(timeouts := c.timeouts + 1, sendOffset := 0) else c;
    if (m.state.Unsent? || timedOut) && !(PendingQos2(m) && inflight)
    then Transmit(c1, i, inflight || PendingQos2(m), t)
    else SendStep(c1, inflight || PendingQos2(m), Go)
  }

  function SendFrom(c: Client, i: nat, inflight: bool, env: nat -> Turn): (s: SendStep)
    requires i <= |c.msgs|
    decreases |c.msgs| - i
  {
    if i == |c.msgs| then SendStep(c, inflight, Go)
    else
      var s := SendOne(c, i, inflight, env(i));
      if s.next.Go? then SendFrom(s.client, i + 1, s.inflight, env) else s
  }

  /** The keep-alive check that ends a send call. */
  function KeepAlive(c: Client, now: int, stale: Stale): Outcome {
    if now > c.timeOfLastSend + c.keepAlive then
      var p := Stage(c, PingRequest, stale);
      if p.rv != MQTT_OK then Outcome(p.client.(error := p.rv), p.rv) else Outcome(p.client, MQTT_OK)
    else Outcome(c, MQTT_OK)
  }

  /** __mqtt_send. */
  function Send(c: Client, env: nat -> Turn, now: int, stale: Stale): Outcome {
    if c.error < 0 && c.error != ERROR_SEND_BUFFER_IS_FULL then Outcome(c, c.error)
    else
      var s := SendFrom(c, 0, false, env);
      if s.next.Fail? then Outcome(s.client, s.next.code) else KeepAlive(s.client, now, stale)
  }

  // ----- Receiving -----

  datatype Handled = Handled(client: Client, rv: int, delivered: bool)

  /** Marks the message an acknowledgement is for as complete. */
  function Release(c: Client, controlType: Nibble, packetId: Option<uint16>): Outcome {
    var i := Find(c.msgs, controlType, packetId);
    if i < 0 then Outcome(c.(error := ERROR_ACK_OF_UNKNOWN), ERROR_ACK_OF_UNKNOWN)
    else Outcome(c.(msgs := c.msgs[i := c.msgs[i].(state := Complete)]), MQTT_OK)
  }

  /** Stages an acknowledgement; a failure is also the client's error. */
  function Acknowledge(c: Client, kind: Nibble, packetId: uint16, stale: Stale): Outcome {
    var s := Stage(c, PubxxxRequest(kind, packetId), stale);
    if s.rv != MQTT_OK then Outcome(s.client.(error := s.rv), s.rv) else s
  }

  function Refused(o: Outcome, refused: bool, error: int): Handled {
    if o.rv == MQTT_OK && refused then Handled(o.client.(error := error), error, false)
    else Handled(o.client, o.rv, false)
  }

  function HandlePublish(c: Client, qos: nat, packetId: uint16, stale: Stale): Handled {
    if qos == 2 && Find(c.msgs, PUBREC, Some(packetId)) >= 0 then Handled(c, MQTT_OK, false)
    else if qos == 1 || qos == 2 then
      var a := Acknowledge(c, if qos == 1 then PUBACK else PUBREC, packetId, stale);
      Handled(a.client, a.rv, a.rv == MQTT_OK)
    else Handled(c, MQTT_OK, true)
  }

  function HandlePubxxx(c: Client, kind: Nibble, packetId: uint16, stale: Stale): Outcome {
    if kind == PUBACK then Release(c, PUBLISH, Some(packetId))
    else if kind == PUBREC then
      if Find(c.msgs, PUBREL, Some(packetId)) >= 0 then Outcome(c, MQTT_OK)
      else
        var o := Release(c, PUBLISH, Some(packetId));
        if o.rv != MQTT_OK then o else Acknowledge(o.client, PUBREL, packetId, stale)
    else if kind == PUBREL then
      var o := Release(c, PUBREC, Some(packetId));
      if o.rv != MQTT_OK then o else Acknowledge(o.client, PUBCOMP, packetId, stale)
    else Release(c, PUBREL, Some(packetId))
  }

  /** The switch over the type of a received packet. */
  function Handle(c: Client, r: Response, stale: Stale): Handled {
    match r
    case Connack(_, code) =>
      Refused(Release(c, CONNECT, None), code != 0,
              if code == 2 then ERROR_CONNECT_CLIENT_ID_REFUSED else ERROR_CONNECTION_REFUSED)
    case Publish(_, qos, _, _, packetId, _) => HandlePublish(c, qos, packetId, stale)
    case Pubxxx(kind, packetId) =>
      var o := HandlePubxxx(c, kind, packetId, stale);
      Handled(o.client, o.rv, false)
    case Suback(packetId, codes) =>
      Refused(Release(c, SUBSCRIBE, Some(packetId)), codes != [] && codes[0] == 128, ERROR_SUBSCRIBE_FAILED)
    case Unsuback(packetId) => Refused(Release(c, UNSUBSCRIBE, Some(packetId)), false, 0)
    case Pingresp => Refused(Release(c, PINGREQ, None), false, 0)
  }

  /** What the environment does in one round of the receive loop. */
  datatype Arrival = Arrival(reply: int, stale: Stale)

  datatype RecvStep = RecvStep(client: Client, rv: int, again: bool)

  /** Reads what the socket gives: at most what has arrived and what the buffer can take. */
  function Read(c: Client, reply: nat): Client
    requires |c.recv| <= c.recvSize
  {
    var n := Min(reply, Min(|c.unread|, c.recvSize - |c.recv|));
    c.(recv := c.recv + c.unread[..n], unread := c.unread[n..], received := c.received + c.unread[..n])
  }

  /** Takes a packet of the given size out of the buffer. */
  function TakeOut(c: Client, consumed: nat, r: Response, delivered: bool): Client
    requires consumed <= |c.recv|
  {
    c.(recv := c.recv[consumed..], dispatched := c.dispatched + [Dispatch(c.recv[..consumed], r, delivered)])
  }

  function Dispatched(c: Client, stale: Stale): RecvStep {
    match Unpack(c.recv)
    case Failed(e) => RecvStep(c.(error := e), e, false)
    case Waiting =>
      if |c.recv| == c.recvSize
      then RecvStep(c.(error := ERROR_RECV_BUFFER_TOO_SMALL), ERROR_RECV_BUFFER_TOO_SMALL, false)
      else RecvStep(c, MQTT_OK, false)
    case Overrun => RecvStep(c.(lost := true), 0, false)
    case Unpacked(consumed, r) =>
      var h := Handle(c, r, stale);
      HandleFrame(c, r, stale);
      RecvStep(TakeOut(h.client, consumed, r, h.delivered), h.rv, h.rv == MQTT_OK)
  }

  /** One round of the receive loop. */
  function RecvOne(c: Client, a: Arrival): RecvStep
    requires |c.recv| <= c.recvSize
  {
    if a.reply < 0 then RecvStep(c.(error := a.reply), a.reply, false)
    else Dispatched(Read(c, a.reply), a.stale)
  }

  /** Staging and handling touch nothing but the queue, the error and their history. */
  predicate StagesOnly(c: Client, c': Client) {
    c' == c.(msgs := c'.msgs, error := c'.error, registered := c'.registered, lost := c'.lost)
  }

  lemma StageFrame(c: Client, r: Request, stale: Stale)
    ensures StagesOnly(c, Stage(c, r, stale).client)
  {
    PlacedFrame(c, r, stale);
    PlacedFrame(c.(msgs := Cleaned(c.msgs)), r, stale);
    hide PackedSize, Placed, RoomOf, Cleaned;
  }

  lemma PlacedFrame(c: Client, r: Request, stale: Stale)
    ensures PackedSize(r, RoomOf(c)) > 0 ==> StagesOnly(c, Placed(c, r, stale).client)
  {
    hide Queued, RoomOf, Overflows, PacketBytes;
  }

  lemma HandlePubxxxFrame(c: Client, kind: Nibble, packetId: uint16, stale: Stale)
    ensures StagesOnly(c, HandlePubxxx(c, kind, packetId, stale).client)
  {
    hide Stage, Find;
    if kind == PUBREC || kind == PUBREL {
      var o := Release(c, if kind == PUBREC then PUBLISH else PUBREC, Some(packetId));
      StageFrame(o.client, PubxxxRequest(if kind == PUBREC then PUBREL else PUBCOMP, packetId), stale);
    }
  }

  lemma HandleFrame(c: Client, r: Response, stale: Stale)
    ensures StagesOnly(c, Handle(c, r, stale).client)
  {
    hide Stage, Find, HandlePubxxx;
    match r
    case Pubxxx(kind, packetId) => HandlePubxxxFrame(c, kind, packetId, stale);
    case Publish(_, qos, _, _, packetId, _) =>
      StageFrame(c, PubxxxRequest(if qos == 1 then PUBACK else PUBREC, packetId), stale);
    case _ =>
  }

  /** Every round that is followed by another one takes a packet out, so the loop ends. */
  lemma RecvProgress(c: Client, a: Arrival)
    requires |c.recv| <= c.recvSize
    ensures var s := RecvOne(c, a);
            && |s.client.recv| <= s.client.recvSize == c.recvSize
            && (s.again ==> |s.client.unread| + |s.client.recv| < |c.unread| + |c.recv|)
            && (a.reply >= 0 ==> s.client.unread == Read(c, a.reply).unread)
  {
    hide Handle, Unpack;
    if a.reply >= 0 {
      var c1 := Read(c, a.reply);
      if Unpack(c1.recv).Unpacked? {
        HandleFrame(c1, Unpack(c1.recv).response, a.stale);
      }
    }
  }

  /** __mqtt_recv from its k-th round on. */
  function RecvFrom(c: Client, k: nat, env: nat -> Arrival): Outcome
    requires |c.recv| <= c.recvSize
    decreases |c.unread| + |c.recv|
  {
    var s := RecvOne(c, env(k));
    RecvProgress(c, env(k));
    if s.again then RecvFrom(s.client, k + 1, env) else Outcome(s.client, s.rv)
  }

  // ----- Runs -----

  /** The calls of a client; a receive call is given as its rounds, which may come in any number. */
  datatype Event =
    | ConnectCall(request: Request, stale: Stale)
    | PublishCall(topic: Option<seq<byte>>, message: seq<byte>, flags: byte, stale: Stale)
    | SubscribeCall(filter: seq<byte>, maxQos: byte, stale: Stale)
    | UnsubscribeCall(filter: seq<byte>, stale: Stale)
    | PingCall(stale: Stale)
    | DisconnectCall(stale: Stale)
    | SendCall(env: nat -> Turn, now: int, stale: Stale)
    | RecvRound(arrival: Arrival)

  ghost predicate Enabled(c: Client, e: Event) {
    && !c.lost
    && (e.ConnectCall? ==> e.request.ConnectRequest?)
    && (e.RecvRound? ==> |c.recv| <= c.recvSize)
  }

  ghost function Step(c: Client, e: Event): Client {
    if !Enabled(c, e) then c
    else
      match e
      case ConnectCall(r, stale) => Connect(c, r, stale).client
      case PublishCall(topic, message, flags, stale) => PublishMessage(c, topic, message, flags, stale).client
      case SubscribeCall(filter, maxQos, stale) => Subscribe(c, filter, maxQos, stale).client
      case UnsubscribeCall(filter, stale) => Unsubscribe(c, filter, stale).client
      case PingCall(stale) => Stage(c, PingRequest, stale).client
      case DisconnectCall(stale) => Stage(c, DisconnectRequest, stale).client
      case SendCall(env, now, stale) => Send(c, env, now, stale).client
      case RecvRound(a) => RecvOne(c, a).client
  }

  ghost function Run(c: Client, es: seq<Event>): Client
    decreases |es|
  {
    if es == [] then c else Run(Step(c, es[0]), es[1..])
  }
}
