/** What each received packet does to the client: which messages are delivered and acknowledged, which queued message an
    acknowledgement completes, and which errors are reported (sections 3.2 to 3.13 and 4.3 of MQTT 3.1.1). */
module Handling {
  import opened Bytes
  import opened MqttConstants
  import opened FixedHeaders
  import opened Packers
  import opened Unpackers
  import opened Messages
  import opened PacketIds
  import opened ClientSpec
  import opened Effects
  import opened QueueInvariants
  import opened Staging
  import opened Answering

  // ----- A PUBLISH -----

  /** After trying to queue a four-byte reply: either it is the last message, unsent, behind what was kept, and the
      message was delivered; or a negative error is set and reported, and it was not. */
  predicate Replied(c: Client, first: byte, id: uint16, h: Handled) {
    && (h.delivered <==> c.error >= 0 && RoomOf(c.(msgs := Cleaned(c.msgs))) >= 4)
    && (if h.delivered then
          && h.rv == MQTT_OK && h.client.msgs != []
          && h.client.msgs[|h.client.msgs| - 1].bytes == [first, 2, id / 0x100, id % 0x100]
          && h.client.msgs[|h.client.msgs| - 1].state.Unsent?
          && KeptOrCleaned(c.msgs, h.client.msgs[..|h.client.msgs| - 1])
          && h.client == c.(msgs := h.client.msgs, registered := c.registered + [[first, 2, id / 0x100, id % 0x100]])
        else
          && h.rv == h.client.error < 0 && KeptOrCleaned(c.msgs, h.client.msgs)
          && h.client == c.(msgs := h.client.msgs, error := h.rv))
  }

  /** A PUBLISH at QoS 0 is delivered and changes nothing.  One at QoS 1 is delivered exactly if its PUBACK can be
      queued, and one at QoS 2 that has no PUBREC in the queue exactly if its PUBREC can; a QoS 2 message that has one
      is a duplicate and ignored.  At QoS 3, which no broker may use, it is treated as at QoS 0. */
  lemma PublishIsHandled(c: Client, m: Response, stale: Stale)
    requires m.Publish?
    ensures var h := Handle(c, m, stale);
            && (m.qos != 1 && m.qos != 2 ==> h == Handled(c, MQTT_OK, true))
            && (m.qos == 1 ==> Replied(c, 0x40, m.packetId, h))
            && (m.qos == 2 && (exists i :: 0 <= i < |c.msgs| && IsPubrec(c.msgs[i], m.packetId)) ==>
                  h == Handled(c, MQTT_OK, false))
            && (m.qos == 2 && (forall i :: 0 <= i < |c.msgs| ==> !IsPubrec(c.msgs[i], m.packetId)) ==>
                  Replied(c, 0x50, m.packetId, h))
  {
    RecordFoundIff(c.msgs, m.packetId);
    if m.qos == 1 || m.qos == 2 {
      ReplyIs(c, if m.qos == 1 then PUBACK else PUBREC, m.packetId, stale);
    }
    hide Acknowledge, Replied, Find, IsPubrec;
  }

  predicate IsPubrec(m: Message, id: uint16) {
    m.controlType == 5 && m.packetId == id
  }

  lemma RecordFoundIff(msgs: seq<Message>, id: uint16)
    ensures Find(msgs, PUBREC, Some(id)) >= 0 <==> exists i :: 0 <= i < |msgs| && IsPubrec(msgs[i], id)
  {
    hide FindFrom;
    var i := Find(msgs, PUBREC, Some(id));
    if i >= 0 { assert IsPubrec(msgs[i], id); }
    forall j | 0 <= j < |msgs| ensures IsPubrec(msgs[j], id) <==> Matches(msgs[j], PUBREC, Some(id)) {}
  }

  lemma ReplyIs(c: Client, kind: Nibble, id: uint16, stale: Stale)
    requires kind == PUBACK || kind == PUBREC
    ensures var o := Acknowledge(c, kind, id, stale);
            Replied(c, if kind == PUBACK then 0x40 else 0x50, id, Handled(o.client, o.rv, o.rv == MQTT_OK))
  {
    var r := PubxxxRequest(kind, id);
    AcknowledgementBytes(kind, id);
    AcknowledgementStagedIff(c, kind, id, stale);
    StagingIsAllOrNothing(c, r, stale);
    OverflowWraps(r, RoomOf(Stage(c, r, stale).client));
    hide Stage, KeptOrCleaned, PacketBytes, Cleaned, RoomOf, PackedSize;
  }

  // ----- The other acknowledgements -----

  /** The message is one that the response settles: the connection request and the ping by their type, while not
      complete, and the others by type and id. */
  predicate Settles(r: Response, m: Message) {
    match r
    case Connack(_, _) => m.controlType == 1 && !m.state.Complete?
    case Pingresp => m.controlType == 12 && !m.state.Complete?
    case Suback(id, _) => m.controlType == 8 && m.packetId == id
    case Unsuback(id) => m.controlType == 10 && m.packetId == id
    case Pubxxx(kind, id) =>
      m.packetId == id && m.controlType == (if kind == 4 || kind == 5 then 3 else if kind == 6 then 5 else 6)
    case Publish(_, _, _, _, _, _) => false
  }

  predicate FirstSettled(msgs: seq<Message>, r: Response, i: nat) {
    && i < |msgs| && Settles(r, msgs[i])
    && forall j :: 0 <= j < i ==> !Settles(r, msgs[j])
  }

  /** What the response says about the request: success, or the error of a refused connection or subscription. */
  function Verdict(r: Response): int {
    if r.Connack? && r.returnCode == 2 then ERROR_CONNECT_CLIENT_ID_REFUSED
    else if r.Connack? && r.returnCode != 0 then ERROR_CONNECTION_REFUSED
    else if r.Suback? && r.returnCodes != [] && r.returnCodes[0] == 128 then ERROR_SUBSCRIBE_FAILED
    else MQTT_OK
  }

  /** CONNACK, PUBACK, PUBCOMP, SUBACK, UNSUBACK and PINGRESP complete exactly the first message that they settle, and
      nothing else changes but for the error of a refusal; with no such message they are an error. */
  lemma AcknowledgementIsHandled(c: Client, r: Response, stale: Stale)
    requires !r.Publish? && (r.Pubxxx? ==> r.kind == 4 || r.kind == 7)
    ensures var h := Handle(c, r, stale);
            && (forall i: nat :: FirstSettled(c.msgs, r, i) ==>
                  h == Handled(c.(msgs := c.msgs[i := c.msgs[i].(state := Complete)],
                                  error := if Verdict(r) == MQTT_OK then c.error else Verdict(r)), Verdict(r), false))
            && ((forall i :: 0 <= i < |c.msgs| ==> !Settles(r, c.msgs[i])) ==>
                  h == Handled(c.(error := ERROR_ACK_OF_UNKNOWN), ERROR_ACK_OF_UNKNOWN, false))
  {
    var t, id := SettledBy(r);
    SettledFirst(c.msgs, r, t, id);
    ReleaseIs(c, t, id);
    hide Release, FirstSettled, Settles, Find;
    forall i: nat | FirstSettled(c.msgs, r, i) ensures i == Find(c.msgs, t, id) { SameFirst(c.msgs, r, t, id, i); }
  }

  lemma SettledBy(r: Response) returns (t: Nibble, id: Option<uint16>)
    requires !r.Publish? && (r.Pubxxx? ==> r.kind == 4 || r.kind == 7)
    ensures forall m :: Settles(r, m) <==> Matches(m, t, id)
    ensures match r
            case Connack(_, _) => t == CONNECT && id == None
            case Pubxxx(kind, n) => t == (if kind == PUBACK then PUBLISH else PUBREL) && id == Some(n)
            case Suback(n, _) => t == SUBSCRIBE && id == Some(n)
            case Unsuback(n) => t == UNSUBSCRIBE && id == Some(n)
            case _ => t == PINGREQ && id == None
  {
    match r
    case Connack(_, _) => t, id := CONNECT, None;
    case Pubxxx(kind, n) => t, id := if kind == PUBACK then PUBLISH else PUBREL, Some(n);
    case Suback(n, _) => t, id := SUBSCRIBE, Some(n);
    case Unsuback(n) => t, id := UNSUBSCRIBE, Some(n);
    case Pingresp => t, id := PINGREQ, None;
  }

  lemma SettledFirst(msgs: seq<Message>, r: Response, t: Nibble, id: Option<uint16>)
    requires forall m :: Settles(r, m) <==> Matches(m, t, id)
    ensures var i := Find(msgs, t, id);
            if i >= 0 then FirstSettled(msgs, r, i) else forall j :: 0 <= j < |msgs| ==> !Settles(r, msgs[j])
  {
    hide FindFrom, Settles, Matches;
  }

  lemma SameFirst(msgs: seq<Message>, r: Response, t: Nibble, id: Option<uint16>, i: nat)
    requires forall m :: Settles(r, m) <==> Matches(m, t, id)
    requires FirstSettled(msgs, r, i)
    ensures i == Find(msgs, t, id)
  {
    SettledFirst(msgs, r, t, id);
    hide FindFrom, Settles, Matches;
  }

  lemma ReleaseIs(c: Client, t: Nibble, id: Option<uint16>)
    ensures var i, o := Find(c.msgs, t, id), Release(c, t, id);
            o == if i < 0 then Outcome(c.(error := ERROR_ACK_OF_UNKNOWN), ERROR_ACK_OF_UNKNOWN)
                 else Outcome(c.(msgs := c.msgs[i := c.msgs[i].(state := Complete)]), MQTT_OK)
  {
    hide FindFrom;
  }

  /** In every reachable state a response that carries an id and settles a message settles no other. */
  lemma SettlesOne(setup: Setup, unread: seq<byte>, events: seq<Event>, r: Response, i: nat)
    requires r.Pubxxx? || r.Suback? || r.Unsuback?
    requires var ms := Run(Initial(setup, unread), events).msgs; i < |ms| && Settles(r, ms[i])
    ensures FirstSettled(Run(Initial(setup, unread), events).msgs, r, i)
  {
    hide Run;
    var ms := Run(Initial(setup, unread), events).msgs;
    forall j | 0 <= j < i ensures !Settles(r, ms[j]) {
      if Settles(r, ms[j]) { IdsAreDistinct(setup, unread, events, i, j); }
    }
  }

  /** So in every reachable state the PUBACK of a queued PUBLISH completes that PUBLISH, and the PUBCOMP, SUBACK and
      UNSUBACK of a PUBREL, SUBSCRIBE and UNSUBSCRIBE complete theirs, and nothing else. */
  lemma AcknowledgementReachesItsMessage(setup: Setup, unread: seq<byte>, events: seq<Event>, r: Response, i: nat,
                                         stale: Stale)
    requires (r.Pubxxx? && (r.kind == 4 || r.kind == 7)) || r.Suback? || r.Unsuback?
    requires var ms := Run(Initial(setup, unread), events).msgs; i < |ms| && Settles(r, ms[i])
    ensures var c := Run(Initial(setup, unread), events);
            Handle(c, r, stale) ==
            Handled(c.(msgs := c.msgs[i := c.msgs[i].(state := Complete)],
                       error := if Verdict(r) == MQTT_OK then c.error else Verdict(r)), Verdict(r), false)
  {
    hide Run, Handle, FirstSettled, Settles, Verdict;
    SettlesOne(setup, unread, events, r, i);
    AcknowledgementIsHandled(Run(Initial(setup, unread), events), r, stale);
  }

  // ----- A round of the receive loop -----

  /** What the socket gives is at most what was asked for, what has arrived and what the buffer can take. */
  lemma ReadTakes(c: Client, reply: nat)
    requires |c.recv| <= c.recvSize
    ensures var c', room := Read(c, reply), c.recvSize - |c.recv|;
            && c'.recv + c'.unread == c.recv + c.unread && c.recv <= c'.recv
            && |c'.recv| - |c.recv| == (if reply <= |c.unread| && reply <= room then reply
                                        else if |c.unread| <= room then |c.unread| else room)
  {}

  /** Every way in which a round ends: a socket error and a packet that cannot be unpacked are set and reported; an
      incomplete packet is waited for unless the buffer is full; any other packet is taken out of the buffer, whatever
      handling it reports, logged with its meaning and whether it was delivered, and followed by another round if it was
      handled without error. */
  lemma RoundIs(c: Client, a: Arrival)
    requires |c.recv| <= c.recvSize
    ensures var s := RecvOne(c, a);
            if a.reply < 0 then s == RecvStep(c.(error := a.reply), a.reply, false)
            else
              var c1 := Read(c, a.reply);
              match Unpack(c1.recv)
              case Failed(e) => e < 0 && s == RecvStep(c1.(error := e), e, false)
              case Waiting =>
                if |c1.recv| == c.recvSize
                then s == RecvStep(c1.(error := ERROR_RECV_BUFFER_TOO_SMALL), ERROR_RECV_BUFFER_TOO_SMALL, false)
                else s == RecvStep(c1, MQTT_OK, false)
              case Overrun => s.client.lost && !s.again
              case Unpacked(n, r) =>
                var h := Handle(c1, r, a.stale);
                && n <= |c1.recv|
                && s == RecvStep(h.client.(recv := c1.recv[n..],
                                           dispatched := c1.dispatched + [Dispatch(c1.recv[..n], r, h.delivered)]),
                                 h.rv, h.rv == MQTT_OK)
  {
    hide Handle, Unpack;
    if a.reply >= 0 {
      var c1 := Read(c, a.reply);
      if Unpack(c1.recv).Unpacked? { HandleFrame(c1, Unpack(c1.recv).response, a.stale); }
    }
  }

  // ----- Over runs -----

  /** A dispatched packet has its right mark: no other packet than a PUBLISH is delivered, and every PUBLISH is that has
      neither QoS 1 nor QoS 2. */
  predicate MarkedRight(d: Dispatch) {
    && (d.delivered ==> d.response.Publish?)
    && (d.response.Publish? && d.response.qos != 1 && d.response.qos != 2 ==> d.delivered)
  }

  ghost predicate AllMarked(ds: seq<Dispatch>) {
    forall i :: 0 <= i < |ds| ==> MarkedRight(ds[i])
  }

  lemma OnlyPublishIsDelivered(c: Client, r: Response, stale: Stale)
    ensures Handle(c, r, stale).delivered ==> r.Publish?
  {
    hide Stage, FindFrom, Release, HandlePubxxx;
  }

  lemma RecvOneMarks(c: Client, a: Arrival)
    requires AllMarked(c.dispatched) && |c.recv| <= c.recvSize
    ensures AllMarked(RecvOne(c, a).client.dispatched)
  {
    RoundIs(c, a);
    if a.reply >= 0 {
      var c1 := Read(c, a.reply);
      if Unpack(c1.recv).Unpacked? {
        var r := Unpack(c1.recv).response;
        OnlyPublishIsDelivered(c1, r, a.stale);
        if r.Publish? { PublishIsHandled(c1, r, a.stale); }
      } else if Unpack(c1.recv).Overrun? {
        OverrunLogsNothing(c, a);
      }
    }
    hide RecvOne, Handle, Unpack, Replied;
  }

  lemma OverrunLogsNothing(c: Client, a: Arrival)
    requires |c.recv| <= c.recvSize && a.reply >= 0 && Unpack(Read(c, a.reply).recv).Overrun?
    ensures RecvOne(c, a).client.dispatched == c.dispatched
  {
    hide Unpack;
  }

  lemma StepMarks(c: Client, e: Event)
    requires AllMarked(c.dispatched)
    ensures AllMarked(Step(c, e).dispatched)
  {
    hide AllMarked, Stage, SendFrom, RecvOne;
    if Enabled(c, e) {
      match e
      case ConnectCall(r, stale) =>
        var error := if c.error == ERROR_CONNECT_NOT_CALLED then MQTT_OK else c.error;
        StageFrame(c.(keepAlive := r.keepAlive, error := error), r, stale);
      case PublishCall(topic, message, flags, stale) =>
        StageWithIdLogsNothing(c, (id: uint16) => PublishRequest(topic, id, message, flags), stale);
      case SubscribeCall(filter, maxQos, stale) =>
        StageWithIdLogsNothing(c, (id: uint16) => SubscribeRequest(id, [(filter, maxQos)]), stale);
      case UnsubscribeCall(filter, stale) =>
        StageWithIdLogsNothing(c, (id: uint16) => UnsubscribeRequest(id, [filter]), stale);
      case PingCall(stale) => StageFrame(c, PingRequest, stale);
      case DisconnectCall(stale) => StageFrame(c, DisconnectRequest, stale);
      case SendCall(env, now, stale) =>
        SendFromRegistersNothing(c, 0, false, env);
        StageFrame(SendFrom(c, 0, false, env).client, PingRequest, stale);
      case RecvRound(a) => RecvOneMarks(c, a);
    }
  }

  lemma StageWithIdLogsNothing(c: Client, r: uint16 -> Request, stale: Stale)
    ensures StageWithId(c, r, stale).client.dispatched == c.dispatched
  {
    hide Stage, Ids, SomeFree, NextId;
    if SomeFree(Ids(c.msgs)) {
      var id := NextId(c.lfsr, Ids(c.msgs));
      StageFrame(c.(lfsr := id), r(id as int), stale);
    }
  }

  lemma {:induction false} RunMarks(c: Client, events: seq<Event>)
    requires AllMarked(c.dispatched)
    ensures AllMarked(Run(c, events).dispatched)
    decreases |events|
  {
    hide AllMarked, Step;
    if events != [] {
      StepMarks(c, events[0]);
      RunMarks(Step(c, events[0]), events[1..]);
    }
  }

  /** In every run every QoS 0 message that is taken out of the receive buffer is delivered. */
  lemma EveryQos0IsDelivered(setup: Setup, unread: seq<byte>, events: seq<Event>, i: nat)
    requires var ds := Run(Initial(setup, unread), events).dispatched;
             i < |ds| && ds[i].response.Publish? && ds[i].response.qos == 0
    ensures Run(Initial(setup, unread), events).dispatched[i].delivered
  {
    RunMarks(Initial(setup, unread), events);
    hide Run;
    assert MarkedRight(Run(Initial(setup, unread), events).dispatched[i]);
  }
}
