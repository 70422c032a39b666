/** The client acknowledges exactly the messages it delivers (sections 4.3.2 and 4.3.3 of MQTT 3.1.1). */
module Answering {
  import opened Bytes
  import opened MqttConstants
  import opened FixedHeaders
  import opened Packers
  import opened Unpackers
  import opened Messages
  import opened ClientSpec
  import opened QueueInvariants
  import opened Staging
  import opened PacketIds

  /** A PUBACK or PUBREC by its type and id. */
  datatype Reply = Reply(kind: Nibble, packetId: uint16)

  /** The reply a registered packet is, read off its bytes. */
  function ReplyIn(p: seq<byte>): seq<Reply> {
    if |p| == 4 && (p[0] / 16 == PUBACK || p[0] / 16 == PUBREC) then [Reply(p[0] / 16, ReadU16(p[2..]))] else []
  }

  function RepliesIn(ps: seq<seq<byte>>): seq<Reply> {
    if ps == [] then [] else RepliesIn(ps[..|ps| - 1]) + ReplyIn(ps[|ps| - 1])
  }

  /** The reply a dispatched packet deserves: a PUBACK or PUBREC for a message delivered at quality of service 1 or
      2. */
  function ReplyTo(d: Dispatch): seq<Reply> {
    if d.delivered && d.response.Publish? && d.response.qos == 1 then [Reply(PUBACK, d.response.packetId)]
    else if d.delivered && d.response.Publish? && d.response.qos == 2 then [Reply(PUBREC, d.response.packetId)]
    else []
  }

  function RepliesTo(ds: seq<Dispatch>): seq<Reply> {
    if ds == [] then [] else RepliesTo(ds[..|ds| - 1]) + ReplyTo(ds[|ds| - 1])
  }

  ghost predicate Answered(c: Client) {
    RepliesIn(c.registered) == RepliesTo(c.dispatched)
  }

  lemma RepliesSnoc(ps: seq<seq<byte>>, p: seq<byte>)
    ensures RepliesIn(ps + [p]) == RepliesIn(ps) + ReplyIn(p)
  {
    assert (ps + [p])[..|ps|] == ps;
  }

  lemma DeservedSnoc(ds: seq<Dispatch>, d: Dispatch)
    ensures RepliesTo(ds + [d]) == RepliesTo(ds) + ReplyTo(d)
  {
    assert (ds + [d])[..|ds|] == ds;
  }

  // ----- What each request registers -----

  lemma AcknowledgementBytes(kind: Nibble, id: uint16)
    requires PUBACK <= kind <= PUBCOMP
    ensures PacketBytes(PubxxxRequest(kind, id)) ==
            [kind * 16 + (if kind == PUBREL then 2 else 0), 2, id / 0x100, id % 0x100]
  {
    var r := PubxxxRequest(kind, id);
    assert HeaderBytes(HeaderOf(r)) == [kind * 16 + HeaderOf(r).flags, 2];
  }

  lemma AcknowledgementReply(kind: Nibble, id: uint16)
    requires PUBACK <= kind <= PUBCOMP
    ensures ReplyIn(PacketBytes(PubxxxRequest(kind, id))) ==
            if kind == PUBACK || kind == PUBREC then [Reply(kind, id)] else []
  {
    var p := PacketBytes(PubxxxRequest(kind, id));
    AcknowledgementBytes(kind, id);
    NibblesOf(kind, if kind == PUBREL then 2 else 0);
    assert p[2..] == U16(id) + [];
    U16RoundTrip(id, []);
  }

  lemma OthersAreNoReply(r: Request)
    requires RequestError(r) == 0 && !r.PubxxxRequest?
    ensures ReplyIn(PacketBytes(r)) == []
  {
    FirstByte(r);
    NibblesOf(TypeOf(r), HeaderOf(r).flags);
  }

  /** What staging registers: the packet when it succeeds, nothing when it fails. */
  lemma StageRegisters(c: Client, r: Request, stale: Stale)
    requires r.PubxxxRequest? ==> PUBACK <= r.kind <= PUBCOMP
    ensures var s := Stage(c, r, stale);
            && s.client.dispatched == c.dispatched
            && RepliesIn(s.client.registered) == RepliesIn(c.registered) +
                 (if s.rv == MQTT_OK && r.PubxxxRequest? && (r.kind == PUBACK || r.kind == PUBREC)
                  then [Reply(r.kind, r.packetId)] else [])
  {
    hide Stage, RepliesIn, ReplyIn, PacketBytes;
    WhatIsRegistered(c, r, stale);
    if Stage(c, r, stale).rv == MQTT_OK {
      RepliesSnoc(c.registered, PacketBytes(r));
      if r.PubxxxRequest? { AcknowledgementReply(r.kind, r.packetId); } else { OthersAreNoReply(r); }
    }
  }

  lemma WhatIsRegistered(c: Client, r: Request, stale: Stale)
    ensures var s := Stage(c, r, stale);
            && s.client.dispatched == c.dispatched
            && (s.rv == MQTT_OK ==> RequestError(r) == 0)
            && s.client.registered == if s.rv == MQTT_OK then c.registered + [PacketBytes(r)] else c.registered
  {
    StagingIsAllOrNothing(c, r, stale);
    hide Stage, KeptOrCleaned, IsFresh, PacketBytes;
  }

  // ----- Handling a packet -----

  /** Handling a packet registers the reply its delivery deserves, and no other. */
  lemma HandleReplies(c: Client, r: Response, stale: Stale, packet: seq<byte>)
    ensures var h := Handle(c, r, stale);
            && h.client.dispatched == c.dispatched
            && RepliesIn(h.client.registered) == RepliesIn(c.registered) + ReplyTo(Dispatch(packet, r, h.delivered))
  {
    hide Stage, RepliesIn, Find;
    match r
    case Publish(_, qos, _, _, packetId, _) =>
      if qos == 1 || qos == 2 {
        StageRegisters(c, PubxxxRequest(if qos == 1 then PUBACK else PUBREC, packetId), stale);
      }
    case Pubxxx(kind, packetId) =>
      if kind == PUBREC || kind == PUBREL {
        var o := Release(c, if kind == PUBREC then PUBLISH else PUBREC, Some(packetId));
        StageRegisters(o.client, PubxxxRequest(if kind == PUBREC then PUBREL else PUBCOMP, packetId), stale);
      }
    case _ =>
  }

  lemma ReceiveAnswers(c: Client, a: Arrival)
    requires Answered(c) && |c.recv| <= c.recvSize
    ensures Answered(RecvOne(c, a).client)
  {
    hide Handle, Unpack, RepliesIn, RepliesTo, ReplyTo;
    if a.reply >= 0 {
      var c1 := Read(c, a.reply);
      match Unpack(c1.recv)
      case Unpacked(consumed, r) =>
        var h := Handle(c1, r, a.stale);
        HandleReplies(c1, r, a.stale, c1.recv[..consumed]);
        HandleFrame(c1, r, a.stale);
        DeservedSnoc(c1.dispatched, Dispatch(c1.recv[..consumed], r, h.delivered));
      case _ =>
    }
  }

  // ----- Every other call -----

  lemma {:induction false} SendFromRegistersNothing(c: Client, i: nat, inflight: bool, env: nat -> Turn)
    requires i <= |c.msgs|
    ensures var c' := SendFrom(c, i, inflight, env).client;
            c'.registered == c.registered && c'.dispatched == c.dispatched
    decreases |c.msgs| - i
  {
    if i < |c.msgs| {
      SendOneRegistersNothing(c, i, inflight, env(i));
      hide SendOne;
      var s := SendOne(c, i, inflight, env(i));
      if s.next.Go? { SendFromRegistersNothing(s.client, i + 1, s.inflight, env); }
    }
  }

  lemma SendOneRegistersNothing(c: Client, i: nat, inflight: bool, t: Turn)
    requires i < |c.msgs|
    ensures var c' := SendOne(c, i, inflight, t).client;
            c'.registered == c.registered && c'.dispatched == c.dispatched
  {
    hide AfterSending, PendingQos2, TimedOut, CompletesOnSend, AwaitsAckOnSend;
  }

  lemma SendAnswers(c: Client, env: nat -> Turn, now: int, stale: Stale)
    requires Answered(c)
    ensures Answered(Send(c, env, now, stale).client)
  {
    SendFromRegistersNothing(c, 0, false, env);
    KeepAliveAnswers(c, SendFrom(c, 0, false, env).client, now, stale);
    hide SendFrom, KeepAlive, RepliesIn, RepliesTo;
  }

  lemma KeepAliveAnswers(c: Client, sent: Client, now: int, stale: Stale)
    requires Answered(c) && sent.registered == c.registered && sent.dispatched == c.dispatched
    ensures Answered(KeepAlive(sent, now, stale).client)
  {
    StageAnswers(c, sent, PingRequest, stale);
    hide Stage, RepliesIn, RepliesTo;
  }

  lemma StepAnswers(c: Client, e: Event)
    requires Answered(c)
    ensures Answered(Step(c, e))
  {
    hide Answered, Stage, Send, RecvOne, StageWithId;
    if Enabled(c, e) {
      match e
      case ConnectCall(r, stale) =>
        var error := if c.error == ERROR_CONNECT_NOT_CALLED then MQTT_OK else c.error;
        StageAnswers(c, c.(keepAlive := r.keepAlive, error := error), r, stale);
      case PublishCall(topic, message, flags, stale) =>
        StageWithIdAnswers(c, (id: uint16) => PublishRequest(topic, id, message, flags), stale);
      case SubscribeCall(filter, maxQos, stale) =>
        StageWithIdAnswers(c, (id: uint16) => SubscribeRequest(id, [(filter, maxQos)]), stale);
      case UnsubscribeCall(filter, stale) =>
        StageWithIdAnswers(c, (id: uint16) => UnsubscribeRequest(id, [filter]), stale);
      case PingCall(stale) => StageAnswers(c, c, PingRequest, stale);
      case DisconnectCall(stale) => StageAnswers(c, c, DisconnectRequest, stale);
      case SendCall(env, now, stale) => SendAnswers(c, env, now, stale);
      case RecvRound(a) => ReceiveAnswers(c, a);
    }
  }

  lemma StageAnswers(c: Client, c0: Client, r: Request, stale: Stale)
    requires Answered(c) && !r.PubxxxRequest? && c0.registered == c.registered && c0.dispatched == c.dispatched
    ensures Answered(Stage(c0, r, stale).client)
  {
    hide Stage, RepliesIn, RepliesTo;
    StageRegisters(c0, r, stale);
  }

  lemma StageWithIdAnswers(c: Client, r: uint16 -> Request, stale: Stale)
    requires Answered(c) && forall id :: !r(id).PubxxxRequest?
    ensures Answered(StageWithId(c, r, stale).client)
  {
    hide Stage, RepliesIn, RepliesTo, Ids, NextId, SomeFree;
    if SomeFree(Ids(c.msgs)) {
      var id := NextId(c.lfsr, Ids(c.msgs));
      StageAnswers(c, c.(lfsr := id), r(id as int), stale);
    }
  }

  lemma {:induction false} RunAnswers(c: Client, events: seq<Event>)
    requires Answered(c)
    ensures Answered(Run(c, events))
    decreases |events|
  {
    hide Answered, Step;
    if events != [] {
      StepAnswers(c, events[0]);
      RunAnswers(Step(c, events[0]), events[1..]);
    }
  }

  /** In every run, whatever fails in it, the PUBACKs and PUBRECs registered are exactly those for the
      messages delivered at quality of service 1 and 2, in the order of delivery. */
  lemma AcknowledgedIffDelivered(setup: Setup, unread: seq<byte>, events: seq<Event>)
    ensures var c := Run(Initial(setup, unread), events);
            RepliesIn(c.registered) == RepliesTo(c.dispatched)
  {
    RunAnswers(Initial(setup, unread), events);
  }

  // ----- The second half of the QoS 2 handshake -----

  /** The second half of the handshake.  A PUBREC that arrives while a PUBREL with its id is queued is ignored.  One
      that is for no queued PUBLISH, and a PUBREL that is for no queued PUBREC, is an error and gets no answer.  Any
      other completes the message it is for, and is handled without error exactly when no error is pending and cleaning
      then leaves four bytes; if so the next packet queued is the PUBREL or PUBCOMP that section 4.3.3 asks for. */
  lemma HandshakeContinues(c: Client, kind: Nibble, id: uint16, stale: Stale)
    requires kind == PUBREC || kind == PUBREL
    ensures var released := if kind == PUBREC then PUBLISH else PUBREC;
            var next := if kind == PUBREC then PUBREL else PUBCOMP;
            var i, h := Find(c.msgs, released, Some(id)), Handle(c, Pubxxx(kind, id), stale);
            if kind == PUBREC && Find(c.msgs, PUBREL, Some(id)) >= 0 then h == Handled(c, MQTT_OK, false)
            else if i < 0 then
              h == Handled(c.(error := ERROR_ACK_OF_UNKNOWN), ERROR_ACK_OF_UNKNOWN, false)
            else Continues(c.(msgs := c.msgs[i := c.msgs[i].(state := Complete)]), next, id, h)
  {
    var released := if kind == PUBREC then PUBLISH else PUBREC;
    var next := if kind == PUBREC then PUBREL else PUBCOMP;
    var o := Release(c, released, Some(id));
    AcknowledgeContinues(o.client, next, id, stale);
    hide Acknowledge, Continues, FindFrom;
  }

  /** With the released message complete, the answer is staged or the reason why not is reported. */
  predicate Continues(c: Client, next: Nibble, id: uint16, h: Handled) {
    && !h.delivered
    && (h.rv == MQTT_OK <==> c.error >= 0 && RoomOf(c.(msgs := Cleaned(c.msgs))) >= 4)
    && (if h.rv == MQTT_OK then
          && h.client.msgs != [] && IsAnswer(h.client.msgs[|h.client.msgs| - 1], next, id)
          && KeptOrCleaned(c.msgs, h.client.msgs[..|h.client.msgs| - 1])
        else
          && h.rv == h.client.error < 0 && KeptOrCleaned(c.msgs, h.client.msgs)
          && h.client == c.(msgs := h.client.msgs, error := h.rv))
  }

  lemma AcknowledgeContinues(c: Client, next: Nibble, id: uint16, stale: Stale)
    requires next == PUBREL || next == PUBCOMP
    ensures var o := Acknowledge(c, next, id, stale); Continues(c, next, id, Handled(o.client, o.rv, false))
  {
    var r := PubxxxRequest(next, id);
    AcknowledgementBytes(next, id);
    AcknowledgementStagedIff(c, next, id, stale);
    StagingIsAllOrNothing(c, r, stale);
    OverflowWraps(r, RoomOf(Stage(c, r, stale).client));
    if Stage(c, r, stale).rv == MQTT_OK { StagedId(c, r, stale); }
    hide Stage, KeptOrCleaned, PacketBytes, Cleaned, RoomOf, PackedSize;
  }

  /** The four bytes of an acknowledgement, not yet sent. */
  predicate IsAnswer(m: Message, kind: Nibble, id: uint16) {
    && m.bytes == [if kind == PUBREL then 0x62 else 0x70, 2, id / 0x100, id % 0x100]
    && m.controlType == kind && m.packetId == id && m.state.Unsent?
  }

  lemma StagedId(c: Client, r: Request, stale: Stale)
    requires r.PubxxxRequest? && Stage(c, r, stale).rv == MQTT_OK
    ensures var ms := Stage(c, r, stale).client.msgs; ms != [] && ms[|ms| - 1].packetId == r.packetId
  {
    hide PackedSize, PacketBytes, RoomOf, Cleaned;
  }
}
