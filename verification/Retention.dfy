/** A message accepted at quality of service 1 or 2 is kept until it is acknowledged (section 4.3 of MQTT 3.1.1). */
module Retention {
  import opened Bytes
  import opened MqttConstants
  import opened FixedHeaders
  import opened Packers
  import opened Unpackers
  import opened Messages
  import opened PacketIds
  import opened ClientSpec
  import opened Effects
  import opened QueueInvariants

  /** The types whose messages wait for an acknowledgement with their id. */
  predicate AwaitsId(kind: Nibble) {
    kind == PUBLISH || kind == PUBREC || kind == PUBREL || kind == SUBSCRIBE || kind == UNSUBSCRIBE
  }

  /** The message of this type with this id and packet is queued and incomplete, its bytes as registered but for the
      DUP bit of a PUBLISH. */
  predicate IsHeld(m: Message, kind: Nibble, id: uint16, packet: seq<byte>) {
    && m.controlType == kind && AwaitsId(kind) && m.packetId == id && !m.state.Complete?
    && m.original == packet && (m.bytes == packet || (kind == PUBLISH && m.bytes == WithDup(packet)))
    && (kind == PUBLISH ==> QosOf(m) == 1 || QosOf(m) == 2)
  }

  ghost predicate Held(msgs: seq<Message>, kind: Nibble, id: uint16, packet: seq<byte>) {
    exists i :: 0 <= i < |msgs| && IsHeld(msgs[i], kind, id, packet)
  }

  /** A received packet that ends the retention of a message of the given type and id. */
  predicate Acknowledges(r: Response, kind: Nibble, id: uint16) {
    if kind == PUBLISH then r == Pubxxx(PUBACK, id) || r == Pubxxx(PUBREC, id)
    else if kind == PUBREC then r == Pubxxx(PUBREL, id)
    else if kind == PUBREL then r == Pubxxx(PUBCOMP, id)
    else if kind == SUBSCRIBE then r.Suback? && r.packetId == id
    else r == Unsuback(id)
  }

  ghost predicate NoneAcknowledges(ds: seq<Dispatch>, from: nat, kind: Nibble, id: uint16) {
    forall k :: from <= k < |ds| ==> !Acknowledges(ds[k].response, kind, id)
  }

  lemma HeldAfterTidy(msgs: seq<Message>, kind: Nibble, id: uint16, packet: seq<byte>)
    requires Held(msgs, kind, id, packet)
    ensures Held(Cleaned(msgs), kind, id, packet)
  {
    var k := CompletePrefix(msgs);
    var i :| 0 <= i < |msgs| && IsHeld(msgs[i], kind, id, packet);
    assert msgs[k..][i - k] == msgs[i];
  }

  lemma HeldAfterAppend(msgs: seq<Message>, m: Message, kind: Nibble, id: uint16, packet: seq<byte>)
    requires Held(msgs, kind, id, packet) || IsHeld(m, kind, id, packet)
    ensures Held(msgs + [m], kind, id, packet)
  {
    var all := msgs + [m];
    if IsHeld(m, kind, id, packet) {
      assert IsHeld(all[|msgs|], kind, id, packet);
    } else {
      var i :| 0 <= i < |msgs| && IsHeld(msgs[i], kind, id, packet);
      assert all[i] == msgs[i];
    }
  }

  lemma HeldAfterReplace(msgs: seq<Message>, i: nat, m: Message, kind: Nibble, id: uint16, packet: seq<byte>)
    requires Held(msgs, kind, id, packet) && i < |msgs|
             && (IsHeld(msgs[i], kind, id, packet) ==> IsHeld(m, kind, id, packet))
    ensures Held(msgs[i := m], kind, id, packet)
  {
    var j :| 0 <= j < |msgs| && IsHeld(msgs[j], kind, id, packet);
    assert IsHeld(msgs[i := m][j], kind, id, packet);
  }

  lemma SentIsHeld(m: Message, now: int, kind: Nibble, id: uint16, packet: seq<byte>)
    requires IsHeld(m, kind, id, packet)
    ensures IsHeld(AfterSending(m, now), kind, id, packet)
  {
    hide WithDup, QosOf;
    SentKeepsQos(m, now);
    DupTwice(packet);
  }

  lemma AcknowledgedOnly(msgs: seq<Message>, r: Response, kind: Nibble, id: uint16, packet: seq<byte>)
    requires AckTarget(msgs, r) >= 0 && IsHeld(msgs[AckTarget(msgs, r)], kind, id, packet)
    requires r.Pubxxx? ==> PUBACK <= r.kind <= PUBCOMP
    ensures Acknowledges(r, kind, id)
  {}

  lemma UnpackedKind(s: seq<byte>)
    requires Unpack(s).Unpacked? && Unpack(s).response.Pubxxx?
    ensures PUBACK <= Unpack(s).response.kind <= PUBCOMP
  {}

  lemma EffectRetains(c: Client, e: Effect, kind: Nibble, id: uint16, packet: seq<byte>)
    requires Held(c.msgs, kind, id, packet) && Allowed(c, e)
    requires NoneAcknowledges(After(c, e).dispatched, |c.dispatched|, kind, id)
    ensures Held(After(c, e).msgs, kind, id, packet) && c.dispatched <= After(c, e).dispatched
  {
    hide Held, IsHeld, AckTarget, Cleaned, PackedSize, PushGuard, AfterSending, SendOne, Unpack;
    match e
    case Tidy => HeldAfterTidy(c.msgs, kind, id, packet);
    case Push(r, stale) => HeldAfterAppend(c.msgs, Queued(r, stale), kind, id, packet);
    case SendTurn(i, t) =>
      var sent := TurnResult(c, i, t);
      if IsHeld(c.msgs[i], kind, id, packet) { SentIsHeld(c.msgs[i], t.after, kind, id, packet); }
      HeldAfterReplace(c.msgs, i, After(c, e).msgs[i], kind, id, packet);
    case LogAck(consumed, r, i) =>
      assert After(c, e).dispatched[|c.dispatched|].response == r;
      if r.Pubxxx? { UnpackedKind(c.recv); }
      if IsHeld(c.msgs[i], kind, id, packet) { AcknowledgedOnly(c.msgs, r, kind, id, packet); }
      HeldAfterReplace(c.msgs, i, After(c, e).msgs[i], kind, id, packet);
    case Deliver(consumed, r, stale) =>
      HeldAfterAppend(c.msgs, Queued(PubxxxRequest(PUBREC, r.packetId), stale), kind, id, packet);
    case _ =>
  }

  lemma EffectGrowsLog(c: Client, e: Effect)
    requires Allowed(c, e)
    ensures c.dispatched <= After(c, e).dispatched
  {
    hide Cleaned, PackedSize, PushGuard, SendOne, Unpack, AckTarget;
    if e.SendTurn? {
      var sent := TurnResult(c, e.i, e.turn);
    }
  }

  lemma {:induction false} PathGrowsLog(calm: bool, c: Client, es: seq<Effect>, c': Client)
    requires Path(calm, c, es, c')
    ensures c.dispatched <= c'.dispatched
    decreases |es|
  {
    hide Allowed;
    if es != [] {
      EffectGrowsLog(c, es[0]);
      PathGrowsLog(calm, After(c, es[0]), es[1..], c');
    }
  }

  lemma {:induction false} PathRetains(calm: bool, c: Client, es: seq<Effect>, c': Client, kind: Nibble, id: uint16,
                                       packet: seq<byte>)
    requires Path(calm, c, es, c') && Held(c.msgs, kind, id, packet)
             && NoneAcknowledges(c'.dispatched, |c.dispatched|, kind, id)
    ensures Held(c'.msgs, kind, id, packet)
    decreases |es|
  {
    hide Allowed, Held;
    if es != [] {
      var c1 := After(c, es[0]);
      PathGrowsLog(calm, c1, es[1..], c');
      EffectGrowsLog(c, es[0]);
      forall k | |c.dispatched| <= k < |c1.dispatched| ensures !Acknowledges(c1.dispatched[k].response, kind, id) {
        assert c1.dispatched[k] == c'.dispatched[k];
      }
      EffectRetains(c, es[0], kind, id, packet);
      PathRetains(calm, c1, es[1..], c', kind, id, packet);
    }
  }

  /** In every run, whatever is held stays queued and incomplete, its bytes unchanged but for the DUP bit, through every
      call until an acknowledgement of its type with its id is dispatched. */
  lemma HeldUntilAcknowledged(c: Client, events: seq<Event>, kind: Nibble, id: uint16, packet: seq<byte>)
    requires Held(c.msgs, kind, id, packet) && NoneAcknowledges(Run(c, events).dispatched, |c.dispatched|, kind, id)
    ensures Held(Run(c, events).msgs, kind, id, packet)
  {
    hide Held, NoneAcknowledges, Run;
    var es := RunPath(false, c, events);
    PathRetains(false, c, es, Run(c, events), kind, id, packet);
  }

  // ----- What is held -----

  /** Every message staged with an id that waits for an acknowledgement is held. */
  lemma StagedIsHeld(c: Client, r: Request, stale: Stale)
    requires Stage(c, r, stale).rv == MQTT_OK
    requires AwaitsId(TypeOf(r)) && (r.PublishRequest? ==> QosBits(r.publishFlags) > 0)
    requires r.PubxxxRequest? ==> PUBACK <= r.kind <= PUBCOMP
    ensures RequestError(r) == 0
    ensures Held(Stage(c, r, stale).client.msgs, TypeOf(r), IdOf(r, stale), PacketBytes(r))
  {
    hide PackedSize, Cleaned, PacketBytes, RequestError, RoomOf, Held, IsHeld, Queued, QosBits, Overflows, TypeOf, IdOf,
         AwaitsId;
    var c1 := if PackedSize(r, RoomOf(c)) > 0 then c else c.(msgs := Cleaned(c.msgs));
    PackedIsGood(r, RoomOf(c1));
    QueuedIsHeld(r, stale);
    HeldAfterAppend(c1.msgs, Queued(r, stale), TypeOf(r), IdOf(r, stale), PacketBytes(r));
  }

  lemma PackedIsGood(r: Request, room: nat)
    ensures PackedSize(r, room) > 0 ==> RequestError(r) == 0
    ensures RequestError(r) < 0 ==> PackedSize(r, room) < 0
  {}

  lemma QueuedIsHeld(r: Request, stale: Stale)
    requires RequestError(r) == 0 && AwaitsId(TypeOf(r))
    requires r.PublishRequest? ==> QosBits(r.publishFlags) > 0
    requires r.PubxxxRequest? ==> PUBACK <= r.kind <= PUBCOMP
    ensures IsHeld(Queued(r, stale), TypeOf(r), IdOf(r, stale), PacketBytes(r))
  {
    FirstByte(r);
    if r.PublishRequest? {
      NibblesOf(PUBLISH, r.publishFlags % 8);
      PublishFlags(r.publishFlags);
    }
  }

  /** What mqtt_publish stages when it reports success. */
  ghost function Accepted(c: Client, topic: Option<seq<byte>>, message: seq<byte>, flags: byte): Request
    requires SomeFree(Ids(c.msgs))
  {
    PublishRequest(topic, NextId(c.lfsr, Ids(c.msgs)) as int, message, flags)
  }

  /** A PUBLISH accepted at quality of service 1 or 2 is held, with the packet that was packed for it. */
  lemma AcceptedIsHeld(c: Client, topic: Option<seq<byte>>, message: seq<byte>, flags: byte, stale: Stale)
    requires SomeFree(Ids(c.msgs)) && QosBits(flags) > 0
    requires PublishMessage(c, topic, message, flags, stale).rv == MQTT_OK
    ensures var r := Accepted(c, topic, message, flags);
            && RequestError(r) == 0
            && Held(PublishMessage(c, topic, message, flags, stale).client.msgs, PUBLISH, r.packetId, PacketBytes(r))
  {
    hide Stage, Held, PacketBytes, NextId, Ids, SomeFree, QosBits;
    StagedIsHeld(c.(lfsr := NextId(c.lfsr, Ids(c.msgs))), Accepted(c, topic, message, flags), stale);
  }

  /** Once accepted, the message stays queued and incomplete, its bytes unchanged but for the DUP bit, through
      every call until a PUBACK or PUBREC with its id is dispatched. */
  lemma RetainedUntilAcknowledged(c: Client, topic: Option<seq<byte>>, message: seq<byte>, flags: byte, stale: Stale,
                                  events: seq<Event>)
    requires SomeFree(Ids(c.msgs)) && QosBits(flags) > 0
    requires PublishMessage(c, topic, message, flags, stale).rv == MQTT_OK
    requires var c1 := PublishMessage(c, topic, message, flags, stale).client;
             var id := Accepted(c, topic, message, flags).packetId;
             NoneAcknowledges(Run(c1, events).dispatched, |c1.dispatched|, PUBLISH, id)
    ensures var c1, r := PublishMessage(c, topic, message, flags, stale).client, Accepted(c, topic, message, flags);
            RequestError(r) == 0 && Held(Run(c1, events).msgs, PUBLISH, r.packetId, PacketBytes(r))
  {
    hide Held, NoneAcknowledges, PublishMessage, Run;
    AcceptedIsHeld(c, topic, message, flags, stale);
    var c1, r := PublishMessage(c, topic, message, flags, stale).client, Accepted(c, topic, message, flags);
    HeldUntilAcknowledged(c1, events, PUBLISH, r.packetId, PacketBytes(r));
  }

  /** The other half of quality of service 2: the PUBREL that answers a PUBREC stays queued, incomplete and
      unchanged, through every call until a PUBCOMP with its id is dispatched. */
  lemma ReleaseRetainedUntilCompleted(c: Client, id: uint16, stale: Stale, events: seq<Event>)
    requires Find(c.msgs, PUBREL, Some(id)) < 0 && Handle(c, Pubxxx(PUBREC, id), stale).rv == MQTT_OK
    requires var c1 := Handle(c, Pubxxx(PUBREC, id), stale).client;
             forall k :: |c1.dispatched| <= k < |Run(c1, events).dispatched| ==>
               Run(c1, events).dispatched[k].response != Pubxxx(PUBCOMP, id)
    ensures var c1 := Handle(c, Pubxxx(PUBREC, id), stale).client;
            Held(Run(c1, events).msgs, PUBREL, id, PacketBytes(PubxxxRequest(PUBREL, id)))
  {
    var c1, r := Handle(c, Pubxxx(PUBREC, id), stale).client, PubxxxRequest(PUBREL, id);
    var o := Release(c, PUBLISH, Some(id));
    assert c1 == Stage(o.client, r, stale).client;
    StagedIsHeld(o.client, r, stale);
    hide Held, Run, Handle, Stage, Release, PacketBytes;
    HeldUntilAcknowledged(c1, events, PUBREL, id, PacketBytes(r));
  }
}
