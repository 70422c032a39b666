/** An id drawn for a new message is not one that an old handshake still uses: no queued PUBREL carries the id of
    an incomplete PUBLISH, SUBSCRIBE or UNSUBSCRIBE, so the PUBREC of a new PUBLISH is never taken for a duplicate. */
module IdReuse {
  import opened Bytes
  import opened MqttConstants
  import opened FixedHeaders
  import opened Packers
  import opened Unpackers
  import opened Messages
  import opened PacketIds
  import opened ClientSpec
  import opened Effects
  import opened QueueInvariants
  import opened Staging
  import opened Answering

  predicate IsOpen(m: Message) {
    DrawsId(m.controlType) && !m.state.Complete?
  }

  /** No incomplete message shares its drawn id with a PUBREL. */
  ghost predicate Apart(msgs: seq<Message>) {
    forall i, j :: 0 <= i < |msgs| && 0 <= j < |msgs| && IsOpen(msgs[i]) && msgs[j].controlType == PUBREL ==>
      msgs[i].packetId != msgs[j].packetId
  }

  /** Appending m keeps the ids apart. */
  ghost predicate Joins(msgs: seq<Message>, m: Message) {
    && !(DrawsId(m.controlType) && m.controlType == PUBREL)
    && (DrawsId(m.controlType) ==> forall x :: x in msgs && x.controlType == PUBREL ==> x.packetId != m.packetId)
    && (m.controlType == PUBREL ==> forall x :: x in msgs && IsOpen(x) ==> x.packetId != m.packetId)
  }

  // ----- The queue -----

  lemma SuffixApart(msgs: seq<Message>, k: nat)
    requires k <= |msgs| && Apart(msgs)
    ensures Apart(msgs[k..])
  {
    var ms := msgs[k..];
    forall i, j | 0 <= i < |ms| && 0 <= j < |ms| && IsOpen(ms[i]) && ms[j].controlType == PUBREL
      ensures ms[i].packetId != ms[j].packetId
    {
      assert ms[i] == msgs[k + i] && ms[j] == msgs[k + j];
    }
  }

  lemma AppendApart(msgs: seq<Message>, m: Message)
    requires Apart(msgs) && Joins(msgs, m)
    ensures Apart(msgs + [m])
  {}

  /** A message that keeps its type and id, and is not opened again. */
  predicate Advances(m: Message, m': Message) {
    m'.controlType == m.controlType && m'.packetId == m.packetId && (m.state.Complete? ==> m'.state.Complete?)
  }

  lemma ReplaceApart(msgs: seq<Message>, i: nat, m: Message)
    requires i < |msgs| && Apart(msgs) && Advances(msgs[i], m)
    ensures Apart(msgs[i := m])
  {
    var ms := msgs[i := m];
    forall a, b | 0 <= a < |ms| && 0 <= b < |ms| && IsOpen(ms[a]) && ms[b].controlType == PUBREL
      ensures ms[a].packetId != ms[b].packetId
    {
      assert IsOpen(msgs[a]) && msgs[b].controlType == PUBREL;
    }
  }

  lemma JoinsSuffix(msgs: seq<Message>, k: nat, m: Message)
    requires k <= |msgs| && Joins(msgs, m)
    ensures Joins(msgs[k..], m)
  {
    assert forall x :: x in msgs[k..] ==> x in msgs;
  }

  // ----- The calls -----

  lemma StageApart(c: Client, r: Request, stale: Stale)
    requires Apart(c.msgs)
    requires RequestError(r) == 0 ==> Joins(c.msgs, Queued(r, stale))
    ensures Apart(Stage(c, r, stale).client.msgs)
  {
    StagedMessages(c, r, stale);
    var k := CompletePrefix(c.msgs);
    SuffixApart(c.msgs, k);
    if RequestError(r) == 0 {
      JoinsSuffix(c.msgs, k, Queued(r, stale));
      AppendApart(c.msgs, Queued(r, stale));
      AppendApart(c.msgs[k..], Queued(r, stale));
    }
    hide Stage, Apart, Joins, Queued, CompletePrefix;
  }

  lemma StagedMessages(c: Client, r: Request, stale: Stale)
    ensures var msgs, kept := Stage(c, r, stale).client.msgs, Cleaned(c.msgs);
            || msgs == c.msgs || msgs == kept
            || (RequestError(r) == 0 && (msgs == c.msgs + [Queued(r, stale)] || msgs == kept + [Queued(r, stale)]))
  {
    PackedSizeSign(r, RoomOf(c));
    PackedSizeSign(r, RoomOf(c.(msgs := Cleaned(c.msgs))));
    hide PackedSize, PacketBytes, RequestError, RoomOf, CompletePrefix, Queued;
  }

  /** A request that neither draws an id nor is a PUBREL may always be staged. */
  lemma StageOtherApart(c: Client, r: Request, stale: Stale)
    requires Apart(c.msgs) && !DrawsId(TypeOf(r)) && TypeOf(r) != PUBREL
    ensures Apart(Stage(c, r, stale).client.msgs)
  {
    hide Apart, Stage, PacketBytes;
    StageApart(c, r, stale);
  }

  lemma StageWithIdApart(c: Client, r: uint16 -> Request, stale: Stale)
    requires Apart(c.msgs)
    requires forall id: uint16 :: DrawsId(TypeOf(r(id))) && IdOf(r(id), stale) == id
    ensures Apart(StageWithId(c, r, stale).client.msgs)
  {
    hide Apart, Stage, Joins, NextId, Ids, SomeFree, Queued, RequestError, TypeOf, IdOf;
    if SomeFree(Ids(c.msgs)) {
      var id := NextId(c.lfsr, Ids(c.msgs));
      NextIdFresh(c.lfsr, Ids(c.msgs));
      NonZeroAsInt(id);
      var q := r(id as int);
      if RequestError(q) == 0 { DrawnJoins(c.msgs, q, stale); }
      StageApart(c.(lfsr := id), q, stale);
    }
  }

  lemma DrawnJoins(msgs: seq<Message>, q: Request, stale: Stale)
    requires RequestError(q) == 0 && DrawsId(TypeOf(q)) && IdOf(q, stale) !in Ids(msgs)
    ensures Joins(msgs, Queued(q, stale))
  {
    hide Joins, Ids, PacketBytes, RequestError;
    FreshJoins(msgs, Queued(q, stale));
  }

  lemma FreshJoins(msgs: seq<Message>, m: Message)
    requires m.packetId !in Ids(msgs) && DrawsId(m.controlType)
    ensures Joins(msgs, m)
  {
    assert forall x :: x in msgs ==> x.packetId in Ids(msgs);
  }

  lemma SendOneAdvances(c: Client, i: nat, inflight: bool, t: Turn)
    requires i < |c.msgs|
    ensures var c' := SendOne(c, i, inflight, t).client;
            exists m :: c'.msgs == c.msgs[i := m] && Advances(c.msgs[i], m)
  {
    hide PendingQos2;
    var m, c' := c.msgs[i], SendOne(c, i, inflight, t).client;
    assert Advances(m, m) && (!m.state.Complete? ==> Advances(m, AfterSending(m, t.after)));
    hide AfterSending, Advances, CompletesOnSend, AwaitsAckOnSend;
    assert c'.msgs == c.msgs[i := m] || (c'.msgs == c.msgs[i := AfterSending(m, t.after)] && !m.state.Complete?);
  }

  lemma {:induction false} SendFromApart(c: Client, i: nat, inflight: bool, env: nat -> Turn)
    requires i <= |c.msgs| && Apart(c.msgs)
    ensures Apart(SendFrom(c, i, inflight, env).client.msgs)
    decreases |c.msgs| - i
  {
    if i < |c.msgs| {
      SendOneAdvances(c, i, inflight, env(i));
      hide SendOne, Apart, Advances;
      var s := SendOne(c, i, inflight, env(i));
      var m :| s.client.msgs == c.msgs[i := m] && Advances(c.msgs[i], m);
      ReplaceApart(c.msgs, i, m);
      if s.next.Go? { SendFromApart(s.client, i + 1, s.inflight, env); }
    }
  }

  /** The send loop removes no message and keeps every type and id. */
  lemma {:induction false} SendFromAdvances(c: Client, i: nat, inflight: bool, env: nat -> Turn)
    requires i <= |c.msgs|
    ensures var msgs := SendFrom(c, i, inflight, env).client.msgs;
            |msgs| == |c.msgs| && forall j :: 0 <= j < |msgs| ==> Advances(c.msgs[j], msgs[j])
    decreases |c.msgs| - i
  {
    if i < |c.msgs| {
      SendOneAdvances(c, i, inflight, env(i));
      hide SendOne;
      var s := SendOne(c, i, inflight, env(i));
      var m :| s.client.msgs == c.msgs[i := m] && Advances(c.msgs[i], m);
      if s.next.Go? { SendFromAdvances(s.client, i + 1, s.inflight, env); }
    }
  }

  lemma SendApart(c: Client, env: nat -> Turn, now: int, stale: Stale)
    requires Apart(c.msgs)
    ensures Apart(Send(c, env, now, stale).client.msgs)
  {
    hide SendFrom, Stage, Apart;
    SendFromApart(c, 0, false, env);
    StageOtherApart(SendFrom(c, 0, false, env).client, PingRequest, stale);
  }

  lemma ReleaseApart(c: Client, controlType: Nibble, id: Option<uint16>)
    requires Apart(c.msgs)
    ensures Apart(Release(c, controlType, id).client.msgs)
  {
    hide Apart, FindFrom;
    var i := Find(c.msgs, controlType, id);
    if i >= 0 { ReplaceApart(c.msgs, i, c.msgs[i].(state := Complete)); }
  }

  /** Once its PUBLISH is released, a PUBREL may carry the id. */
  lemma ReleasedJoins(c: Client, id: uint16, stale: Stale)
    requires DistinctIds(c.msgs) && Release(c, PUBLISH, Some(id)).rv == MQTT_OK
    ensures Joins(Release(c, PUBLISH, Some(id)).client.msgs, Queued(PubxxxRequest(PUBREL, id), stale))
  {
    hide FindFrom, PacketBytes;
    var i, ms := Find(c.msgs, PUBLISH, Some(id)), Release(c, PUBLISH, Some(id)).client.msgs;
    forall x | x in ms && IsOpen(x) ensures x.packetId != id {
      var j :| 0 <= j < |ms| && ms[j] == x;
      assert j != i && SameFamily(c.msgs[i], c.msgs[j]);
    }
  }

  lemma HandleApart(c: Client, r: Response, stale: Stale)
    requires Apart(c.msgs) && DistinctIds(c.msgs)
    ensures Apart(Handle(c, r, stale).client.msgs)
  {
    hide Apart, Stage, Release, FindFrom, DistinctIds;
    match r
    case Publish(_, qos, _, _, id, _) =>
      StageOtherApart(c, PubxxxRequest(if qos == 1 then PUBACK else PUBREC, id), stale);
    case Pubxxx(kind, id) => PubxxxApart(c, kind, id, stale);
    case Connack(_, _) => ReleaseApart(c, CONNECT, None);
    case Suback(id, _) => ReleaseApart(c, SUBSCRIBE, Some(id));
    case Unsuback(id) => ReleaseApart(c, UNSUBSCRIBE, Some(id));
    case Pingresp => ReleaseApart(c, PINGREQ, None);
  }

  lemma PubxxxApart(c: Client, kind: Nibble, id: uint16, stale: Stale)
    requires Apart(c.msgs) && DistinctIds(c.msgs)
    ensures Apart(HandlePubxxx(c, kind, id, stale).client.msgs)
  {
    hide Apart, Joins, Stage, Release, FindFrom, DistinctIds, Queued;
    ReleaseApart(c, PUBLISH, Some(id));
    ReleaseApart(c, PUBREC, Some(id));
    ReleaseApart(c, PUBREL, Some(id));
    if kind == PUBREC && Release(c, PUBLISH, Some(id)).rv == MQTT_OK {
      ReleasedJoins(c, id, stale);
      StageApart(Release(c, PUBLISH, Some(id)).client, PubxxxRequest(PUBREL, id), stale);
    }
    StageOtherApart(Release(c, PUBREC, Some(id)).client, PubxxxRequest(PUBCOMP, id), stale);
  }

  lemma RecvOneApart(c: Client, a: Arrival)
    requires Apart(c.msgs) && DistinctIds(c.msgs) && |c.recv| <= c.recvSize
    ensures Apart(RecvOne(c, a).client.msgs)
  {
    hide Apart, DistinctIds, Handle, Unpack;
    if a.reply >= 0 {
      var c1 := Read(c, a.reply);
      match Unpack(c1.recv)
      case Unpacked(_, r) =>
        HandleApart(c1, r, a.stale);
        HandleFrame(c1, r, a.stale);
      case _ =>
    }
  }

  lemma StepApart(c: Client, e: Event)
    requires Apart(c.msgs) && DistinctIds(c.msgs)
    ensures Apart(Step(c, e).msgs)
  {
    hide Apart, DistinctIds, Stage, Send, RecvOne, StageWithId;
    if Enabled(c, e) {
      match e
      case ConnectCall(r, stale) =>
        var error := if c.error == ERROR_CONNECT_NOT_CALLED then MQTT_OK else c.error;
        StageOtherApart(c.(keepAlive := r.keepAlive, error := error), r, stale);
      case PublishCall(topic, message, flags, stale) =>
        StageWithIdApart(c, (id: uint16) => PublishRequest(topic, id, message, flags), stale);
      case SubscribeCall(filter, maxQos, stale) =>
        StageWithIdApart(c, (id: uint16) => SubscribeRequest(id, [(filter, maxQos)]), stale);
      case UnsubscribeCall(filter, stale) =>
        StageWithIdApart(c, (id: uint16) => UnsubscribeRequest(id, [filter]), stale);
      case PingCall(stale) => StageOtherApart(c, PingRequest, stale);
      case DisconnectCall(stale) => StageOtherApart(c, DisconnectRequest, stale);
      case SendCall(env, now, stale) => SendApart(c, env, now, stale);
      case RecvRound(a) => RecvOneApart(c, a);
    }
  }

  lemma StepOk(c: Client, e: Event)
    requires QueueOk(c)
    ensures QueueOk(Step(c, e))
  {
    hide QueueOk, Step, Path;
    var es := StepPath(false, c, e);
    PathKeeps(false, c, es, Step(c, e));
  }

  lemma {:induction false} RunApart(c: Client, events: seq<Event>)
    requires QueueOk(c) && Apart(c.msgs)
    ensures Apart(Run(c, events).msgs)
    decreases |events|
  {
    if events != [] {
      assert DistinctIds(c.msgs);
      hide QueueOk, Apart, Step, DistinctIds;
      StepApart(c, events[0]);
      StepOk(c, events[0]);
      RunApart(Step(c, events[0]), events[1..]);
    }
  }

  // ----- What it says about every run -----

  /** In every reachable state an incomplete PUBLISH, SUBSCRIBE or UNSUBSCRIBE never shares its id with a PUBREL. */
  lemma OpenIdsAreNotReleased(setup: Setup, unread: seq<byte>, events: seq<Event>, i: nat, j: nat)
    requires var ms := Run(Initial(setup, unread), events).msgs;
             i < |ms| && j < |ms| && IsOpen(ms[i]) && ms[j].controlType == PUBREL
    ensures var ms := Run(Initial(setup, unread), events).msgs; ms[i].packetId != ms[j].packetId
  {
    InitialOk(setup, unread);
    RunApart(Initial(setup, unread), events);
    hide Run;
  }

  /** So in every reachable state the PUBREC of a PUBLISH that is not complete is for that PUBLISH: it is not taken for
      a duplicate, it completes that message, and its PUBREL is queued exactly when that can be. */
  lemma PubrecReachesItsPublish(setup: Setup, unread: seq<byte>, events: seq<Event>, i: nat, stale: Stale)
    requires var ms := Run(Initial(setup, unread), events).msgs;
             i < |ms| && ms[i].controlType == PUBLISH && !ms[i].state.Complete?
    ensures var c := Run(Initial(setup, unread), events);
            var m := c.msgs[i];
            && Find(c.msgs, PUBREL, Some(m.packetId)) < 0 && Find(c.msgs, PUBLISH, Some(m.packetId)) == i
            && Continues(c.(msgs := c.msgs[i := m.(state := Complete)]), PUBREL, m.packetId,
                         Handle(c, Pubxxx(PUBREC, m.packetId), stale))
  {
    hide Run, Handle, Continues, FindFrom;
    var c := Run(Initial(setup, unread), events);
    var id := c.msgs[i].packetId;
    var p, l := Find(c.msgs, PUBLISH, Some(id)), Find(c.msgs, PUBREL, Some(id));
    assert Matches(c.msgs[i], PUBLISH, Some(id));
    IdsAreDistinct(setup, unread, events, i, p);
    if l >= 0 { OpenIdsAreNotReleased(setup, unread, events, i, l); }
    HandshakeContinues(c, PUBREC, id, stale);
  }
}
