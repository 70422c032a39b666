/** A QoS 2 message is delivered at most once per release (section 4.3.3 of MQTT 3.1.1). */
module Delivery {
  import opened Bytes
  import opened MqttConstants
  import opened FixedHeaders
  import opened Packers
  import opened Unpackers
  import opened Messages
  import opened ClientSpec
  import opened Effects
  import opened QueueInvariants
  import opened Staging
  import opened IdReuse

  /** The publish callback was called for a QoS 2 PUBLISH with this id. */
  predicate Delivers(d: Dispatch, id: uint16) {
    d.delivered && d.response.Publish? && d.response.qos == 2 && d.response.packetId == id
  }

  /** A PUBREL with this id was received. */
  predicate Releases(d: Dispatch, id: uint16) {
    d.response == Pubxxx(PUBREL, id)
  }

  /** A delivery with this id that no PUBREL has followed yet. */
  predicate Open(ds: seq<Dispatch>, id: uint16) {
    ds != [] && (
      var last := ds[|ds| - 1];
      !Releases(last, id) && (Delivers(last, id) || Open(ds[..|ds| - 1], id)))
  }

  ghost predicate NeverTwice(ds: seq<Dispatch>) {
    forall j, id :: 0 <= j < |ds| && Delivers(ds[j], id) ==> !Open(ds[..j], id)
  }

  /** The record that stops a second delivery: a PUBREC not yet completed by its PUBREL. */
  ghost predicate HasRecord(msgs: seq<Message>, id: uint16) {
    exists i :: 0 <= i < |msgs| && IsRecord(msgs[i], id)
  }

  predicate IsRecord(m: Message, id: uint16) {
    m.controlType == PUBREC && m.packetId == id && !m.state.Complete?
  }

  ghost predicate DeliveryOk(c: Client) {
    NeverTwice(c.dispatched) && forall id: uint16 :: Open(c.dispatched, id) ==> HasRecord(c.msgs, id)
  }

  lemma LogOne(ds: seq<Dispatch>, d: Dispatch)
    ensures forall id :: Open(ds + [d], id) <==> !Releases(d, id) && (Delivers(d, id) || Open(ds, id))
    ensures NeverTwice(ds) && (forall id :: Delivers(d, id) ==> !Open(ds, id)) ==> NeverTwice(ds + [d])
  {
    var all := ds + [d];
    assert all[..|ds|] == ds;
    forall j | 0 <= j < |ds| ensures all[..j] == ds[..j] && all[j] == ds[j] {}
  }

  lemma RecordAfterTidy(msgs: seq<Message>, id: uint16)
    requires HasRecord(msgs, id)
    ensures HasRecord(Cleaned(msgs), id)
  {
    var k := CompletePrefix(msgs);
    var i :| 0 <= i < |msgs| && IsRecord(msgs[i], id);
    assert msgs[k..][i - k] == msgs[i];
  }

  lemma RecordAfterAppend(msgs: seq<Message>, m: Message, id: uint16)
    requires HasRecord(msgs, id) || IsRecord(m, id)
    ensures HasRecord(msgs + [m], id)
  {
    var all := msgs + [m];
    if IsRecord(m, id) {
      assert IsRecord(all[|msgs|], id);
    } else {
      var i :| 0 <= i < |msgs| && IsRecord(msgs[i], id);
      assert all[i] == msgs[i];
    }
  }

  lemma RecordAfterReplace(msgs: seq<Message>, i: nat, m: Message, id: uint16)
    requires HasRecord(msgs, id) && i < |msgs| && (IsRecord(msgs[i], id) ==> IsRecord(m, id))
    ensures HasRecord(msgs[i := m], id)
  {
    var j :| 0 <= j < |msgs| && IsRecord(msgs[j], id);
    assert IsRecord(msgs[i := m][j], id);
  }

  lemma RecordFound(msgs: seq<Message>, id: uint16)
    requires HasRecord(msgs, id)
    ensures Find(msgs, PUBREC, Some(id)) >= 0
  {
    var i :| 0 <= i < |msgs| && IsRecord(msgs[i], id);
    assert Matches(msgs[i], PUBREC, Some(id));
  }

  lemma SentRecord(m: Message, now: int, id: uint16)
    requires IsRecord(m, id)
    ensures IsRecord(AfterSending(m, now), id)
  {}

  /** Only a PUBREL completes a PUBREC. */
  lemma RecordReleased(msgs: seq<Message>, r: Response, id: uint16)
    requires AckTarget(msgs, r) >= 0 && IsRecord(msgs[AckTarget(msgs, r)], id)
    ensures r == Pubxxx(PUBREL, id)
  {}

  lemma EffectKeepsDelivery(c: Client, e: Effect)
    requires DeliveryOk(c) && Allowed(c, e)
    ensures DeliveryOk(After(c, e))
  {
    hide Open, HasRecord, IsRecord, AckTarget, Cleaned, PackedSize, PushGuard, AfterSending, SendOne, Read, FindFrom;
    var c' := After(c, e);
    match e
    case Tidy =>
      forall id: uint16 | Open(c.dispatched, id) ensures HasRecord(c'.msgs, id) { RecordAfterTidy(c.msgs, id); }
    case Push(r, stale) =>
      forall id: uint16 | Open(c.dispatched, id) ensures HasRecord(c'.msgs, id) {
        RecordAfterAppend(c.msgs, Queued(r, stale), id);
      }
    case SendTurn(i, t) =>
      var sent := TurnResult(c, i, t);
      forall id: uint16 | Open(c.dispatched, id) ensures HasRecord(c'.msgs, id) {
        if IsRecord(c.msgs[i], id) { SentRecord(c.msgs[i], t.after, id); }
        RecordAfterReplace(c.msgs, i, c'.msgs[i], id);
      }
    case Log(consumed, r, delivered) => LogOne(c.dispatched, Dispatch(c.recv[..consumed], r, delivered));
    case LogAck(consumed, r, i) =>
      LogOne(c.dispatched, Dispatch(c.recv[..consumed], r, false));
      forall id: uint16 | Open(c'.dispatched, id) ensures HasRecord(c'.msgs, id) {
        if IsRecord(c.msgs[i], id) { RecordReleased(c.msgs, r, id); }
        RecordAfterReplace(c.msgs, i, c'.msgs[i], id);
      }
    case Deliver(consumed, r, stale) =>
      LogOne(c.dispatched, Dispatch(c.recv[..consumed], r, true));
      var m := Queued(PubxxxRequest(PUBREC, r.packetId), stale);
      assert IsRecord(m, r.packetId) by { NewRecord(r.packetId, stale); }
      if Open(c.dispatched, r.packetId) { RecordFound(c.msgs, r.packetId); }
      forall id: uint16 | Open(c'.dispatched, id) ensures HasRecord(c'.msgs, id) { RecordAfterAppend(c.msgs, m, id); }
    case Arrive(n) => ArriveFrame(c, n);
    case Adjust(_, _, _, _) =>
  }

  lemma ArriveFrame(c: Client, n: nat)
    requires |c.recv| <= c.recvSize
    ensures Read(c, n).msgs == c.msgs && Read(c, n).dispatched == c.dispatched
  {}

  lemma NewRecord(id: uint16, stale: Stale)
    ensures IsRecord(Queued(PubxxxRequest(PUBREC, id), stale), id)
  {}

  lemma {:induction false} PathKeepsDelivery(calm: bool, c: Client, es: seq<Effect>, c': Client)
    requires DeliveryOk(c) && Path(calm, c, es, c')
    ensures DeliveryOk(c')
    decreases |es|
  {
    hide DeliveryOk, Allowed;
    if es != [] {
      EffectKeepsDelivery(c, es[0]);
      PathKeepsDelivery(calm, After(c, es[0]), es[1..], c');
    }
  }

  lemma {:induction false} ReleasedBetween(ds: seq<Dispatch>, i: nat, j: nat, id: uint16)
    requires i < j <= |ds| && Delivers(ds[i], id) && !Open(ds[..j], id)
    ensures exists k :: i < k < j && Releases(ds[k], id)
    decreases j
  {
    assert ds[..j][..j - 1] == ds[..j - 1];
    if !Releases(ds[j - 1], id) {
      ReleasedBetween(ds, i, j - 1, id);
    }
  }

  /** In every run, between two deliveries of QoS 2 messages with the same id, a PUBREL with that id was received. */
  lemma AtMostOnceDelivery(setup: Setup, unread: seq<byte>, events: seq<Event>,
                           i: nat, j: nat, id: uint16)
    requires var ds := Run(Initial(setup, unread), events).dispatched;
             i < j < |ds| && Delivers(ds[i], id) && Delivers(ds[j], id)
    ensures var ds := Run(Initial(setup, unread), events).dispatched;
            exists k :: i < k < j && Releases(ds[k], id)
  {
    var c := Initial(setup, unread);
    var es := RunPath(false, c, events);
    PathKeepsDelivery(false, c, es, Run(c, events));
    ReleasedBetween(Run(c, events).dispatched, i, j, id);
  }

  /** A received QoS 2 PUBLISH is delivered exactly when no error is pending, no PUBREC with its id is queued, in
      whatever state, and cleaning leaves the four bytes that a PUBREC takes.  In particular a fresh message that
      reuses an id is dropped while the completed PUBREC of the previous one has not been cleaned away. */
  lemma DeliveredIff(c: Client, m: Response, stale: Stale)
    requires m.Publish? && m.qos == 2
    ensures Handle(c, m, stale).delivered <==>
              && c.error >= 0 && Find(c.msgs, PUBREC, Some(m.packetId)) < 0
              && RoomOf(c.(msgs := Cleaned(c.msgs))) >= 4
  {
    AcknowledgementStagedIff(c, PUBREC, m.packetId, stale);
    hide Stage, Cleaned, FindFrom, RoomOf;
  }

  /** What that means after a release: a new message that reuses the released id is dropped without an error exactly
      when the completed PUBREC is still there, because an error kept the PUBCOMP from being staged, because it could be
      staged without cleaning, or because a message before the PUBREC is not complete.  Sending the PUBCOMP, which ends
      the use of the id, makes no difference. */
  lemma ReusedIdIsDroppedIff(c: Client, id: uint16, m: Response, stale: Stale, stale': Stale, env: nat -> Turn)
    requires QueueOk(c) && Find(c.msgs, PUBREC, Some(id)) >= 0
    requires m.Publish? && m.qos == 2 && m.packetId == id
    ensures var released := Handle(c, Pubxxx(PUBREL, id), stale).client;
            var sent := SendFrom(released, 0, false, env).client;
            var kept := || c.error < 0 || RoomOf(c) >= 4
                        || exists j :: 0 <= j < Find(c.msgs, PUBREC, Some(id)) && !c.msgs[j].state.Complete?;
            && (Handle(released, m, stale') == Handled(released, MQTT_OK, false) <==> kept)
            && (Handle(sent, m, stale') == Handled(sent, MQTT_OK, false) <==> kept)
  {
    var i, q := Find(c.msgs, PUBREC, Some(id)), PubxxxRequest(PUBCOMP, id);
    var c1 := c.(msgs := c.msgs[i := c.msgs[i].(state := Complete)]);
    var released := Handle(c, Pubxxx(PUBREL, id), stale).client;
    CompletingKeepsRoom(c, i);
    ReleasedMessages(c1, q, stale);
    assert released.msgs == Stage(c1, q, stale).client.msgs;
    RecordAfterCleaning(c.msgs, c1.msgs, i, id);
    NoRecordAppended(Cleaned(c1.msgs), q, stale, id);
    NoRecordAppended(c1.msgs, q, stale, id);
    assert Matches(c1.msgs[i], PUBREC, Some(id));
    DroppedIff(released, m, stale');
    DroppedIff(SendFrom(released, 0, false, env).client, m, stale');
    SendingKeepsRecords(released, env, id);
    hide Stage, Handle, SendFrom, Cleaned, RoomOf, FindFrom, Queued, QueueOk;
  }

  lemma SendingKeepsRecords(c: Client, env: nat -> Turn, id: uint16)
    ensures Find(SendFrom(c, 0, false, env).client.msgs, PUBREC, Some(id)) >= 0 <==> Find(c.msgs, PUBREC, Some(id)) >= 0
  {
    SendFromAdvances(c, 0, false, env);
    var msgs := SendFrom(c, 0, false, env).client.msgs;
    hide SendFrom;
    forall j | 0 <= j < |msgs| ensures Matches(msgs[j], PUBREC, Some(id)) <==> Matches(c.msgs[j], PUBREC, Some(id)) {
      assert Advances(c.msgs[j], msgs[j]);
    }
  }

  lemma DroppedIff(c: Client, m: Response, stale: Stale)
    requires m.Publish? && m.qos == 2
    ensures Handle(c, m, stale) == Handled(c, MQTT_OK, false) <==> Find(c.msgs, PUBREC, Some(m.packetId)) >= 0
  {
    hide Stage, Find;
  }

  /** The queue after staging an acknowledgement, or failing to. */
  lemma ReleasedMessages(c: Client, q: Request, stale: Stale)
    requires q.PubxxxRequest? && q.kind == PUBCOMP
    ensures var msgs := Stage(c, q, stale).client.msgs;
            var kept := if c.error < 0 || RoomOf(c) >= 4 then c.msgs else Cleaned(c.msgs);
            msgs == kept || msgs == kept + [Queued(q, stale)]
  {
    AcknowledgementFits(PUBCOMP, q.packetId);
    FittingIff(q, RoomOf(c));
    NeverOverflows(q, RoomOf(c));
    NeverOverflows(q, RoomOf(c.(msgs := Cleaned(c.msgs))));
    hide PackedSize, Overflows, RoomOf, Cleaned, Queued, RequestError, PacketBytes, HeaderBytes, HeaderOf,
         RuleViolation;
  }

  /** The released PUBREC survives cleaning exactly if a message before it is not complete. */
  lemma RecordAfterCleaning(msgs: seq<Message>, done: seq<Message>, i: nat, id: uint16)
    requires DistinctIds(msgs) && i < |msgs| && Matches(msgs[i], PUBREC, Some(id))
    requires done == msgs[i := msgs[i].(state := Complete)]
    ensures Find(Cleaned(done), PUBREC, Some(id)) >= 0 <==> exists j :: 0 <= j < i && !msgs[j].state.Complete?
  {
    var k := CompletePrefix(done);
    var found := Find(Cleaned(done), PUBREC, Some(id));
    if found >= 0 {
      assert Matches(done[k + found], PUBREC, Some(id));
      assert k + found == i;
      assert !done[k].state.Complete?;
    }
    if j :| 0 <= j < i && !msgs[j].state.Complete? {
      assert !done[j].state.Complete?;
      assert Matches(done[k..][i - k], PUBREC, Some(id));
    }
  }

  lemma NoRecordAppended(msgs: seq<Message>, q: Request, stale: Stale, id: uint16)
    requires RequestError(q) == 0 && q.PubxxxRequest? && q.kind == PUBCOMP
    ensures Find(msgs + [Queued(q, stale)], PUBREC, Some(id)) >= 0 <==> Find(msgs, PUBREC, Some(id)) >= 0
  {
    hide PacketBytes;
    var all, i := msgs + [Queued(q, stale)], Find(msgs, PUBREC, Some(id));
    if i >= 0 { assert Matches(all[i], PUBREC, Some(id)); }
    forall j | 0 <= j < |all| && Matches(all[j], PUBREC, Some(id))
      ensures j < |msgs| && Matches(msgs[j], PUBREC, Some(id))
    {}
  }

  lemma CompletingKeepsRoom(c: Client, i: nat)
    requires i < |c.msgs|
    ensures RoomOf(c.(msgs := c.msgs[i := c.msgs[i].(state := Complete)])) == RoomOf(c)
  {
    TotalSizeReplaced(c.msgs, i, c.msgs[i].(state := Complete));
  }
}
