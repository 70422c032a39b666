/** Every call of the client decomposed into single effects on its state, so that
    whatever the effects keep, every call and every run keeps. */
module Effects {
  import opened Bytes
  import opened MqttConstants
  import opened FixedHeaders
  import opened Packers
  import opened Unpackers
  import opened Messages
  import opened PacketIds
  import opened ClientSpec

  datatype Effect =
    | Tidy                                                              // clean the queue
    | Push(request: Request, stale: Stale)                              // register a message
    | SendTurn(i: nat, turn: Turn)                                      // one round of the send loop
    | Arrive(reply: nat)                                                // bytes come in
    | Log(consumed: nat, response: Response, delivered: bool)           // a packet leaves the receive buffer
    | LogAck(consumed: nat, response: Response, i: nat)                 // ... and completes a message
    | Deliver(consumed: nat, response: Response, stale: Stale)          // ... and is delivered at quality of service 2
    | Adjust(error: int, lfsr: bv16, keepAlive: uint16, lost: bool)     // other fields

  /** The message a received packet acknowledges; -1 for none. */
  function AckTarget(msgs: seq<Message>, r: Response): (i: int)
    ensures -1 <= i < |msgs|
  {
    match r
    case Connack(_, _) => Find(msgs, CONNECT, None)
    case Publish(_, _, _, _, _, _) => -1
    case Pubxxx(kind, id) =>
      if kind == PUBACK then Find(msgs, PUBLISH, Some(id))
      else if kind == PUBREC then if Find(msgs, PUBREL, Some(id)) >= 0 then -1 else Find(msgs, PUBLISH, Some(id))
      else if kind == PUBREL then Find(msgs, PUBREC, Some(id))
      else Find(msgs, PUBREL, Some(id))
    case Suback(id, _) => Find(msgs, SUBSCRIBE, Some(id))
    case Unsuback(id) => Find(msgs, UNSUBSCRIBE, Some(id))
    case Pingresp => Find(msgs, PINGREQ, None)
  }

  predicate AnyPending(msgs: seq<Message>, i: nat)
    requires i <= |msgs|
  {
    exists j :: 0 <= j < i && PendingQos2(msgs[j])
  }

  predicate DrawsId(controlType: Nibble) {
    controlType == PUBLISH || controlType == SUBSCRIBE || controlType == UNSUBSCRIBE
  }

  /** The ids under which a request may be registered. */
  ghost predicate PushGuard(msgs: seq<Message>, r: Request) {
    match r
    case PublishRequest(_, id, _, _) => id != 0 && id !in Ids(msgs)
    case SubscribeRequest(id, _) => id != 0 && id !in Ids(msgs)
    case UnsubscribeRequest(id, _) => id != 0 && id !in Ids(msgs)
    case PubxxxRequest(kind, id) =>
      kind == PUBACK || kind == PUBCOMP || (kind == PUBREL && Find(msgs, PUBREL, Some(id)) < 0)
    case _ => true
  }

  ghost predicate Fits(c: Client, r: Request) {
    RequestError(r) == 0 && 0 < PackedSize(r, RoomOf(c)) <= RoomOf(c)
  }

  /** At most one QoS 2 PUBLISH in the queue is incomplete. */
  ghost predicate AtMostOnePending(msgs: seq<Message>) {
    forall i, j :: 0 <= i < j < |msgs| ==> !(PendingQos2(msgs[i]) && PendingQos2(msgs[j]))
  }

  ghost predicate AllSent(msgs: seq<Message>, n: nat)
    requires n <= |msgs|
  {
    forall j :: 0 <= j < n ==> !msgs[j].state.Unsent?
  }

  /** The effects of a connection on which nothing times out, at most one QoS 2 PUBLISH
      is incomplete, and the peer acknowledges only what was sent. */
  ghost predicate Calm(c: Client, e: Effect) {
    match e
    case SendTurn(i, t) =>
      i < |c.msgs| && AllSent(c.msgs, i) && AtMostOnePending(c.msgs) && !TimedOut(c.msgs[i], t.now, c.responseTimeout)
    case LogAck(_, _, i) => i < |c.msgs| && !c.msgs[i].state.Unsent?
    case _ => true
  }

  ghost predicate Allowed(c: Client, e: Effect) {
    match e
    case Tidy => true
    case Push(r, _) => Fits(c, r) && PushGuard(c.msgs, r)
    case SendTurn(i, _) => i < |c.msgs|
    case Arrive(_) => |c.recv| <= c.recvSize
    case Log(consumed, r, delivered) =>
      Unpack(c.recv) == Unpacked(consumed, r) && (delivered ==> r.Publish? && r.qos != 2)
    case LogAck(consumed, r, i) => Unpack(c.recv) == Unpacked(consumed, r) && i == AckTarget(c.msgs, r)
    case Deliver(consumed, r, _) =>
      && Unpack(c.recv) == Unpacked(consumed, r) && r.Publish? && r.qos == 2
      && Find(c.msgs, PUBREC, Some(r.packetId)) < 0 && Fits(c, PubxxxRequest(PUBREC, r.packetId))
    case Adjust(_, _, _, _) => true
  }

  ghost function After(c: Client, e: Effect): Client
    requires Allowed(c, e)
  {
    match e
    case Tidy => c.(msgs := Cleaned(c.msgs))
    case Push(r, stale) => Append(c, r, stale)
    case SendTurn(i, t) => SendOne(c, i, AnyPending(c.msgs, i), t).client
    case Arrive(n) => Read(c, n)
    case Log(consumed, r, delivered) => TakeOut(c, consumed, r, delivered)
    case LogAck(consumed, r, i) => TakeOut(c, consumed, r, false).(msgs := c.msgs[i := c.msgs[i].(state := Complete)])
    case Deliver(consumed, r, stale) => TakeOut(Append(c, PubxxxRequest(PUBREC, r.packetId), stale), consumed, r, true)
    case Adjust(error, lfsr, keepAlive, lost) => c.(error := error, lfsr := lfsr, keepAlive := keepAlive, lost := lost)
  }

  /** c' is reached from c by the effects es, each allowed where it happens, and calm if so asked. */
  ghost predicate Path(calm: bool, c: Client, es: seq<Effect>, c': Client)
    decreases |es|
  {
    if es == [] then c == c'
    else Allowed(c, es[0]) && (calm ==> Calm(c, es[0])) && Path(calm, After(c, es[0]), es[1..], c')
  }

  lemma {:induction false} PathConcat(calm: bool, a: Client, es: seq<Effect>, b: Client, fs: seq<Effect>, c: Client)
    requires Path(calm, a, es, b) && Path(calm, b, fs, c)
    ensures Path(calm, a, es + fs, c)
    decreases |es|
  {
    if es == [] {
      assert es + fs == fs;
    } else {
      assert (es + fs)[1..] == es[1..] + fs;
      PathConcat(calm, After(a, es[0]), es[1..], b, fs, c);
    }
  }

  lemma PathNone(calm: bool, c: Client)
    ensures Path(calm, c, [], c)
  {}

  lemma PathOne(calm: bool, c: Client, e: Effect)
    requires Allowed(c, e) && (calm ==> Calm(c, e))
    ensures Path(calm, c, [e], After(c, e))
  {
    assert Path(calm, After(c, e), [e][1..], After(c, e));
  }

  lemma PathThen(calm: bool, a: Client, es: seq<Effect>, b: Client, e: Effect)
    requires Path(calm, a, es, b) && Allowed(b, e) && (calm ==> Calm(b, e))
    ensures Path(calm, a, es + [e], After(b, e))
  {
    PathOne(calm, b, e);
    PathConcat(calm, a, es, b, [e], After(b, e));
  }

  // ----- Staging -----

  lemma FindInSuffix(msgs: seq<Message>, k: nat, controlType: Nibble, id: uint16)
    requires k <= |msgs| && Find(msgs, controlType, Some(id)) < 0
    ensures Find(msgs[k..], controlType, Some(id)) < 0
  {
    forall j | 0 <= j < |msgs[k..]| ensures !Matches(msgs[k..][j], controlType, Some(id)) {
      assert msgs[k..][j] == msgs[k + j];
    }
  }

  lemma GuardAfterTidy(msgs: seq<Message>, r: Request)
    requires PushGuard(msgs, r)
    ensures PushGuard(Cleaned(msgs), r)
  {
    var k := CompletePrefix(msgs);
    assert forall m :: m in msgs[k..] ==> m in msgs;
    if r.PubxxxRequest? && r.kind == PUBREL {
      FindInSuffix(msgs, k, PUBREL, r.packetId);
    }
  }

  /** What a successful or failed staging comes to: cleaning at most, then the message or the error. */
  lemma StagePath(calm: bool, c: Client, r: Request, stale: Stale) returns (es: seq<Effect>)
    requires PushGuard(c.msgs, r)
    ensures Path(calm, c, es, Stage(c, r, stale).client)
  {
    hide Path, PackedSize, PushGuard, Cleaned, Append;
    var s := Stage(c, r, stale);
    if c.error < 0 {
      es := [Adjust(c.error, c.lfsr, c.keepAlive, c.lost)];
      PathOne(calm, c, es[0]);
    } else {
      var n := PackedSize(r, RoomOf(c));
      if n < 0 {
        es := [Adjust(n, c.lfsr, c.keepAlive, c.lost)];
        PathOne(calm, c, es[0]);
      } else if n > 0 {
        RefusedNeverFits(r, RoomOf(c));
        es := [PlacedEffect(c, r, stale)];
        PathOne(calm, c, es[0]);
      } else {
        var c' := c.(msgs := Cleaned(c.msgs));
        GuardAfterTidy(c.msgs, r);
        PathOne(calm, c, Tidy);
        var last := if PackedSize(r, RoomOf(c')) > 0 then PlacedEffect(c', r, stale)
                    else Adjust(s.client.error, c.lfsr, c.keepAlive, c.lost);
        if PackedSize(r, RoomOf(c')) > 0 { RefusedNeverFits(r, RoomOf(c')); }
        PathThen(calm, c, [Tidy], c', last);
        es := [Tidy] + [last];
      }
    }
  }

  function PlacedEffect(c: Client, r: Request, stale: Stale): Effect {
    if Overflows(r, RoomOf(c)) then Adjust(c.error, c.lfsr, c.keepAlive, true) else Push(r, stale)
  }

  lemma RefusedNeverFits(r: Request, room: nat)
    requires PackedSize(r, room) > 0
    ensures RequestError(r) == 0
  {}

  // ----- Sending -----

  /** Sending leaves the quality of service as it was, and a QoS 2 PUBLISH pending. */
  lemma SentKeepsQos(m: Message, now: int)
    ensures QosOf(AfterSending(m, now)) == QosOf(m)
    ensures CompletesOnSend(m) || AwaitsAckOnSend(m) ==> (PendingQos2(AfterSending(m, now)) <==> IsQos2Publish(m))
  {
    if m.bytes != [] { DupByteKeeps(m.bytes[0]); }
  }

  /** The flag the send loop carries is whether an incomplete QoS 2 PUBLISH lies before the next message. */
  lemma PendingAfterTurn(c: Client, i: nat, t: Turn)
    requires i < |c.msgs|
    ensures var s := SendOne(c, i, AnyPending(c.msgs, i), t);
            s.next.Go? ==> s.inflight == AnyPending(s.client.msgs, i + 1)
  {
    hide SendOne, PendingQos2;
    TurnKeepsPending(c, i, AnyPending(c.msgs, i), t);
    OtherMessagesKept(c, i, AnyPending(c.msgs, i), t);
    var s := SendOne(c, i, AnyPending(c.msgs, i), t);
    var ms := s.client.msgs;
    if s.next.Go? {
      if AnyPending(c.msgs, i) {
        var j :| 0 <= j < i && PendingQos2(c.msgs[j]);
        assert PendingQos2(ms[j]);
      }
    }
  }

  lemma TurnKeepsPending(c: Client, i: nat, inflight: bool, t: Turn)
    requires i < |c.msgs|
    ensures var s := SendOne(c, i, inflight, t);
            s.next.Go? ==> PendingQos2(s.client.msgs[i]) == PendingQos2(c.msgs[i])
                           && s.inflight == (inflight || PendingQos2(c.msgs[i]))
  {
    hide AfterSending, IsQos2Publish;
    SentKeepsQos(c.msgs[i], t.after);
  }

  lemma CalmAfterTurn(c: Client, i: nat, t: Turn)
    requires i < |c.msgs| && Calm(c, SendTurn(i, t))
    ensures var s := SendOne(c, i, AnyPending(c.msgs, i), t);
            && s.client.responseTimeout == c.responseTimeout
            && (s.next.Go? ==> AllSent(s.client.msgs, i + 1) && AtMostOnePending(s.client.msgs))
  {
    hide AfterSending;
    var m := c.msgs[i];
    var s := SendOne(c, i, AnyPending(c.msgs, i), t);
    SentKeepsQos(m, t.after);
    SentLeavesUnsent(m, t.after);
    if s.next.Go? {
      assert PendingQos2(s.client.msgs[i]) == PendingQos2(m);
    }
  }

  lemma SentLeavesUnsent(m: Message, now: int)
    ensures CompletesOnSend(m) || AwaitsAckOnSend(m) ==> !AfterSending(m, now).state.Unsent?
  {}

  lemma SendFromPath(calm: bool, c: Client, i: nat, env: nat -> Turn) returns (es: seq<Effect>)
    requires i <= |c.msgs|
    requires calm ==> AllSent(c.msgs, i) && AtMostOnePending(c.msgs)
    requires calm ==> forall j :: i <= j < |c.msgs| ==> !TimedOut(c.msgs[j], env(j).now, c.responseTimeout)
    ensures Path(calm, c, es, SendFrom(c, i, AnyPending(c.msgs, i), env).client)
    decreases |c.msgs| - i
  {
    hide Path, AllSent, AtMostOnePending, TimedOut, SendOne, AnyPending;
    if i == |c.msgs| {
      es := [];
      PathNone(calm, c);
    } else {
      var s := SendOne(c, i, AnyPending(c.msgs, i), env(i));
      es := [SendTurn(i, env(i))];
      PathOne(calm, c, SendTurn(i, env(i)));
      if s.next.Go? {
        PendingAfterTurn(c, i, env(i));
        if calm { CalmAfterTurn(c, i, env(i)); }
        OtherMessagesKept(c, i, AnyPending(c.msgs, i), env(i));
        var rest := SendFromPath(calm, s.client, i + 1, env);
        PathConcat(calm, c, es, s.client, rest, SendFrom(s.client, i + 1, s.inflight, env).client);
        es := es + rest;
      }
    }
  }

  lemma OtherMessagesKept(c: Client, i: nat, inflight: bool, t: Turn)
    requires i < |c.msgs|
    ensures var c' := SendOne(c, i, inflight, t).client;
            |c'.msgs| == |c.msgs| && forall j :: 0 <= j < |c.msgs| && j != i ==> c'.msgs[j] == c.msgs[j]
  {
    hide AfterSending, TimedOut, PendingQos2;
  }

  lemma KeepAlivePath(calm: bool, c: Client, now: int, stale: Stale) returns (es: seq<Effect>)
    ensures Path(calm, c, es, KeepAlive(c, now, stale).client)
  {
    hide Path, Stage;
    if now > c.timeOfLastSend + c.keepAlive {
      var p := Stage(c, PingRequest, stale);
      es := StagePath(calm, c, PingRequest, stale);
      var error := if p.rv != MQTT_OK then p.rv else p.client.error;
      var last := Adjust(error, p.client.lfsr, p.client.keepAlive, p.client.lost);
      PathThen(calm, c, es, p.client, last);
      es := es + [last];
    } else {
      es := [];
      PathNone(calm, c);
    }
  }

  lemma SendPath(calm: bool, c: Client, env: nat -> Turn, now: int, stale: Stale) returns (es: seq<Effect>)
    requires calm ==> AtMostOnePending(c.msgs)
    requires calm ==> forall j :: 0 <= j < |c.msgs| ==> !TimedOut(c.msgs[j], env(j).now, c.responseTimeout)
    ensures Path(calm, c, es, Send(c, env, now, stale).client)
  {
    hide Path, SendFrom, KeepAlive;
    if c.error < 0 && c.error != ERROR_SEND_BUFFER_IS_FULL {
      es := [];
      PathNone(calm, c);
    } else {
      es := SendFromPath(calm, c, 0, env);
      var s := SendFrom(c, 0, false, env);
      if !s.next.Fail? {
        var rest := KeepAlivePath(calm, s.client, now, stale);
        PathConcat(calm, c, es, s.client, rest, KeepAlive(s.client, now, stale).client);
        es := es + rest;
      }
    }
  }

  // ----- Receiving -----

  lemma AcknowledgePath(calm: bool, c: Client, kind: Nibble, id: uint16, stale: Stale) returns (es: seq<Effect>)
    requires PushGuard(c.msgs, PubxxxRequest(kind, id))
    ensures Path(calm, c, es, Acknowledge(c, kind, id, stale).client)
  {
    hide Path, Stage;
    var s := Stage(c, PubxxxRequest(kind, id), stale);
    es := StagePath(calm, c, PubxxxRequest(kind, id), stale);
    var error := if s.rv != MQTT_OK then s.rv else s.client.error;
    var last := Adjust(error, s.client.lfsr, s.client.keepAlive, s.client.lost);
    PathThen(calm, c, es, s.client, last);
    es := es + [last];
  }

  /** Staging does not look at the receive buffer. */
  lemma StageIgnoresLog(c: Client, consumed: nat, p: Response, delivered: bool, r: Request, stale: Stale)
    requires consumed <= |c.recv|
    ensures var s := Stage(c, r, stale);
            && consumed <= |s.client.recv|
            && Stage(TakeOut(c, consumed, p, delivered), r, stale) ==
               Outcome(TakeOut(s.client, consumed, p, delivered), s.rv)
  {
    PlacedIgnoresLog(c, consumed, p, delivered, r, stale);
    PlacedIgnoresLog(c.(msgs := Cleaned(c.msgs)), consumed, p, delivered, r, stale);
    hide PackedSize, Cleaned, Placed;
  }

  lemma PlacedIgnoresLog(c: Client, consumed: nat, p: Response, delivered: bool, r: Request, stale: Stale)
    requires consumed <= |c.recv|
    ensures RoomOf(TakeOut(c, consumed, p, delivered)) == RoomOf(c)
    ensures PackedSize(r, RoomOf(c)) > 0 ==>
              var s := Placed(c, r, stale);
              && consumed <= |s.client.recv|
              && Placed(TakeOut(c, consumed, p, delivered), r, stale) ==
                 Outcome(TakeOut(s.client, consumed, p, delivered), s.rv)
  {
    hide Queued, Cleaned, Overflows;
  }

  /** A packet that acknowledges a message: it is logged, and the message is complete. */
  lemma ReleasePath(calm: bool, c: Client, consumed: nat, r: Response, controlType: Nibble, id: Option<uint16>)
    returns (es: seq<Effect>)
    requires Unpack(c.recv) == Unpacked(consumed, r) && AckTarget(c.msgs, r) == Find(c.msgs, controlType, id)
    requires calm && AckTarget(c.msgs, r) >= 0 ==> !c.msgs[AckTarget(c.msgs, r)].state.Unsent?
    ensures Path(calm, c, es, TakeOut(Release(c, controlType, id).client, consumed, r, false))
  {
    hide Path, Find, AckTarget;
    var i := Find(c.msgs, controlType, id);
    if i >= 0 {
      es := [LogAck(consumed, r, i)];
      PathOne(calm, c, es[0]);
    } else {
      es := [Log(consumed, r, false)];
      PathOne(calm, c, es[0]);
      var last := Adjust(ERROR_ACK_OF_UNKNOWN, c.lfsr, c.keepAlive, c.lost);
      PathThen(calm, c, es, TakeOut(c, consumed, r, false), last);
      es := es + [last];
    }
  }

  /** A release followed by staging the next step of the handshake. */
  lemma ReleaseThenStagePath(calm: bool, c: Client, consumed: nat, r: Response, released: Nibble, staged: Nibble,
                             id: uint16, stale: Stale)
    returns (es: seq<Effect>)
    requires Unpack(c.recv) == Unpacked(consumed, r) && AckTarget(c.msgs, r) == Find(c.msgs, released, Some(id))
    requires calm && AckTarget(c.msgs, r) >= 0 ==> !c.msgs[AckTarget(c.msgs, r)].state.Unsent?
    requires staged == PUBCOMP || (staged == PUBREL && Find(c.msgs, PUBREL, Some(id)) < 0)
    ensures var o := Release(c, released, Some(id));
            var o' := if o.rv != MQTT_OK then o else Acknowledge(o.client, staged, id, stale);
            o'.client.recv == c.recv && Path(calm, c, es, TakeOut(o'.client, consumed, r, false))
  {
    hide Path, Stage, AckTarget, FindFrom;
    var o := Release(c, released, Some(id));
    es := ReleasePath(calm, c, consumed, r, released, Some(id));
    if o.rv == MQTT_OK {
      StageFrame(o.client, PubxxxRequest(staged, id), stale);
      StageIgnoresLog(o.client, consumed, r, false, PubxxxRequest(staged, id), stale);
      if staged == PUBREL { FindAfterRelease(c.msgs, Find(c.msgs, released, Some(id)), PUBREL, id); }
      var rest := AcknowledgePath(calm, TakeOut(o.client, consumed, r, false), staged, id, stale);
      PathConcat(calm, c, es, TakeOut(o.client, consumed, r, false), rest,
                 Acknowledge(TakeOut(o.client, consumed, r, false), staged, id, stale).client);
      es := es + rest;
    }
  }

  lemma FindAfterRelease(msgs: seq<Message>, i: nat, controlType: Nibble, id: uint16)
    requires i < |msgs| && Find(msgs, controlType, Some(id)) < 0
    ensures Find(msgs[i := msgs[i].(state := Complete)], controlType, Some(id)) < 0
  {
    var ms := msgs[i := msgs[i].(state := Complete)];
    forall j | 0 <= j < |ms| ensures !Matches(ms[j], controlType, Some(id)) {
      assert !Matches(msgs[j], controlType, Some(id));
    }
  }

  /** A new QoS 2 PUBLISH: its PUBREC is staged and the message delivered, or the staging error is reported. */
  lemma DeliverPath(calm: bool, c: Client, consumed: nat, r: Response, stale: Stale) returns (es: seq<Effect>)
    requires Unpack(c.recv) == Unpacked(consumed, r) && r.Publish? && r.qos == 2
    requires Find(c.msgs, PUBREC, Some(r.packetId)) < 0
    ensures var a := Acknowledge(c, PUBREC, r.packetId, stale);
            a.client.recv == c.recv && Path(calm, c, es, TakeOut(a.client, consumed, r, a.rv == MQTT_OK))
  {
    hide Path, PackedSize, Overflows, Cleaned, FindFrom;
    var q := PubxxxRequest(PUBREC, r.packetId);
    NeverOverflows(q, RoomOf(c));
    NeverOverflows(q, RoomOf(c.(msgs := Cleaned(c.msgs))));
    var a := Acknowledge(c, PUBREC, r.packetId, stale);
    var c' := c.(msgs := Cleaned(c.msgs));
    if c.error >= 0 && PackedSize(q, RoomOf(c)) > 0 {
      es := [Deliver(consumed, r, stale)];
      PathOne(calm, c, es[0]);
    } else if c.error >= 0 && PackedSize(q, RoomOf(c)) == 0 {
      PathOne(calm, c, Tidy);
      SuffixByTidy(c.msgs, r.packetId);
      if PackedSize(q, RoomOf(c')) > 0 {
        PathThen(calm, c, [Tidy], c', Deliver(consumed, r, stale));
        es := [Tidy] + [Deliver(consumed, r, stale)];
      } else {
        es := FailedDelivery(calm, c', consumed, r, a.rv);
        PathConcat(calm, c, [Tidy], c', es, TakeOut(c'.(error := a.rv), consumed, r, false));
        es := [Tidy] + es;
      }
    } else {
      es := FailedDelivery(calm, c, consumed, r, a.rv);
    }
  }

  lemma NeverOverflows(q: Request, room: nat)
    requires q.PubxxxRequest?
    ensures !Overflows(q, room) && (Overflows(q, room) <==> PackedSize(q, room) > room)
  {
    OverflowWraps(q, room);
  }

  lemma SuffixByTidy(msgs: seq<Message>, id: uint16)
    requires Find(msgs, PUBREC, Some(id)) < 0
    ensures Find(Cleaned(msgs), PUBREC, Some(id)) < 0
  {
    FindInSuffix(msgs, CompletePrefix(msgs), PUBREC, id);
  }

  lemma FailedDelivery(calm: bool, c: Client, consumed: nat, r: Response, error: int) returns (es: seq<Effect>)
    requires Unpack(c.recv) == Unpacked(consumed, r)
    ensures Path(calm, c, es, TakeOut(c.(error := error), consumed, r, false))
  {
    hide Path;
    PathOne(calm, c, Log(consumed, r, false));
    var last := Adjust(error, c.lfsr, c.keepAlive, c.lost);
    PathThen(calm, c, [Log(consumed, r, false)], TakeOut(c, consumed, r, false), last);
    es := [Log(consumed, r, false)] + [last];
  }

  /** The acknowledgement types whose message is released and nothing staged, with an error in place of success if
      refused. */
  lemma RefusedPath(calm: bool, c: Client, consumed: nat, r: Response, controlType: Nibble, id: Option<uint16>,
                    refused: bool, error: int) returns (es: seq<Effect>)
    requires Unpack(c.recv) == Unpacked(consumed, r) && AckTarget(c.msgs, r) == Find(c.msgs, controlType, id)
    requires calm && AckTarget(c.msgs, r) >= 0 ==> !c.msgs[AckTarget(c.msgs, r)].state.Unsent?
    ensures var h := Refused(Release(c, controlType, id), refused, error);
            h.client.recv == c.recv && Path(calm, c, es, TakeOut(h.client, consumed, r, false))
  {
    hide Path, Find, AckTarget;
    var o := Release(c, controlType, id);
    es := ReleasePath(calm, c, consumed, r, controlType, id);
    if o.rv == MQTT_OK && refused {
      var last := Adjust(error, c.lfsr, c.keepAlive, c.lost);
      PathThen(calm, c, es, TakeOut(o.client, consumed, r, false), last);
      es := es + [last];
    }
  }

  lemma PublishPath(calm: bool, c: Client, consumed: nat, r: Response, stale: Stale) returns (es: seq<Effect>)
    requires Unpack(c.recv) == Unpacked(consumed, r) && r.Publish?
    ensures var h := HandlePublish(c, r.qos, r.packetId, stale);
            h.client.recv == c.recv && Path(calm, c, es, TakeOut(h.client, consumed, r, h.delivered))
  {
    hide Path, Stage, FindFrom;
    var h := HandlePublish(c, r.qos, r.packetId, stale);
    if r.qos == 2 && Find(c.msgs, PUBREC, Some(r.packetId)) < 0 {
      es := DeliverPath(calm, c, consumed, r, stale);
    } else if r.qos == 1 {
      StageFrame(c, PubxxxRequest(PUBACK, r.packetId), stale);
      es := AcknowledgePath(calm, c, PUBACK, r.packetId, stale);
      PathThen(calm, c, es, h.client, Log(consumed, r, h.delivered));
      es := es + [Log(consumed, r, h.delivered)];
    } else {
      es := [Log(consumed, r, h.delivered)];
      PathOne(calm, c, es[0]);
    }
  }

  lemma PubxxxPath(calm: bool, c: Client, consumed: nat, kind: Nibble, id: uint16, stale: Stale)
    returns (es: seq<Effect>)
    requires Unpack(c.recv) == Unpacked(consumed, Pubxxx(kind, id))
    requires calm && AckTarget(c.msgs, Pubxxx(kind, id)) >= 0 ==>
             !c.msgs[AckTarget(c.msgs, Pubxxx(kind, id))].state.Unsent?
    ensures var o := HandlePubxxx(c, kind, id, stale);
            o.client.recv == c.recv && Path(calm, c, es, TakeOut(o.client, consumed, Pubxxx(kind, id), false))
  {
    hide Path, Stage, FindFrom, Acknowledge, Release;
    var r := Pubxxx(kind, id);
    if kind == PUBREC && Find(c.msgs, PUBREL, Some(id)) >= 0 {
      es := [Log(consumed, r, false)];
      PathOne(calm, c, es[0]);
    } else if kind == PUBREC {
      es := ReleaseThenStagePath(calm, c, consumed, r, PUBLISH, PUBREL, id, stale);
    } else if kind == PUBREL {
      es := ReleaseThenStagePath(calm, c, consumed, r, PUBREC, PUBCOMP, id, stale);
    } else {
      es := ReleasePath(calm, c, consumed, r, if kind == PUBACK then PUBLISH else PUBREL, Some(id));
      ReleaseKeepsRecv(c, if kind == PUBACK then PUBLISH else PUBREL, Some(id));
    }
  }

  lemma ReleaseKeepsRecv(c: Client, controlType: Nibble, id: Option<uint16>)
    ensures Release(c, controlType, id).client.recv == c.recv
  {}

  lemma HandlePath(calm: bool, c: Client, consumed: nat, r: Response, stale: Stale) returns (es: seq<Effect>)
    requires Unpack(c.recv) == Unpacked(consumed, r)
    requires calm && AckTarget(c.msgs, r) >= 0 ==> !c.msgs[AckTarget(c.msgs, r)].state.Unsent?
    ensures var h := Handle(c, r, stale);
            h.client.recv == c.recv && Path(calm, c, es, TakeOut(h.client, consumed, r, h.delivered))
  {
    hide Path, FindFrom, HandlePublish, HandlePubxxx, Release, Refused;
    match r
    case Connack(_, code) =>
      es := RefusedPath(calm, c, consumed, r, CONNECT, None, code != 0,
                        if code == 2 then ERROR_CONNECT_CLIENT_ID_REFUSED else ERROR_CONNECTION_REFUSED);
      RefusedUndelivered(Release(c, CONNECT, None), code != 0,
                         if code == 2 then ERROR_CONNECT_CLIENT_ID_REFUSED else ERROR_CONNECTION_REFUSED);
    case Publish(_, qos, _, _, id, _) =>
      es := PublishPath(calm, c, consumed, r, stale);
    case Pubxxx(kind, id) =>
      es := PubxxxPath(calm, c, consumed, kind, id, stale);
    case Suback(id, codes) =>
      es := RefusedPath(calm, c, consumed, r, SUBSCRIBE, Some(id), codes != [] && codes[0] == 128,
                        ERROR_SUBSCRIBE_FAILED);
      RefusedUndelivered(Release(c, SUBSCRIBE, Some(id)), codes != [] && codes[0] == 128, ERROR_SUBSCRIBE_FAILED);
    case Unsuback(id) =>
      es := RefusedPath(calm, c, consumed, r, UNSUBSCRIBE, Some(id), false, 0);
      RefusedUndelivered(Release(c, UNSUBSCRIBE, Some(id)), false, 0);
    case Pingresp =>
      es := RefusedPath(calm, c, consumed, r, PINGREQ, None, false, 0);
      RefusedUndelivered(Release(c, PINGREQ, None), false, 0);
  }

  lemma RefusedUndelivered(o: Outcome, refused: bool, error: int)
    ensures !Refused(o, refused, error).delivered
  {}

  /** The peer acknowledges nothing that is still unsent. */
  ghost predicate AcksOnlySent(c: Client) {
    var u := Unpack(c.recv);
    u.Unpacked? && AckTarget(c.msgs, u.response) >= 0 ==> !c.msgs[AckTarget(c.msgs, u.response)].state.Unsent?
  }

  lemma RecvOnePath(calm: bool, c: Client, a: Arrival) returns (es: seq<Effect>)
    requires |c.recv| <= c.recvSize
    requires calm && a.reply >= 0 ==> AcksOnlySent(Read(c, a.reply))
    ensures Path(calm, c, es, RecvOne(c, a).client)
  {
    hide Path, Handle, Unpack, AckTarget;
    if a.reply < 0 {
      es := [Adjust(a.reply, c.lfsr, c.keepAlive, c.lost)];
      PathOne(calm, c, es[0]);
      return;
    }
    var c1 := Read(c, a.reply);
    PathOne(calm, c, Arrive(a.reply));
    es := [Arrive(a.reply)];
    var s := RecvOne(c, a);
    match Unpack(c1.recv)
    case Unpacked(consumed, r) =>
      var rest := HandlePath(calm, c1, consumed, r, a.stale);
      PathConcat(calm, c, es, c1, rest, s.client);
      es := es + rest;
    case _ =>
      var last := Adjust(s.client.error, c1.lfsr, c1.keepAlive, s.client.lost);
      PathThen(calm, c, es, c1, last);
      es := es + [last];
  }

  // ----- Calls and runs -----

  lemma StageWithIdPath(calm: bool, c: Client, r: uint16 -> Request, stale: Stale) returns (es: seq<Effect>)
    requires SomeFree(Ids(c.msgs)) ==>
      var id: uint16 := NextId(c.lfsr, Ids(c.msgs)) as int;
      (id != 0 && id !in Ids(c.msgs) ==> PushGuard(c.msgs, r(id)))
    ensures Path(calm, c, es, StageWithId(c, r, stale).client)
  {
    hide Path, Stage, Ids, NextId, PushGuard;
    if !SomeFree(Ids(c.msgs)) {
      es := [Adjust(c.error, c.lfsr, c.keepAlive, true)];
      PathOne(calm, c, es[0]);
    } else {
      var id := NextId(c.lfsr, Ids(c.msgs));
      NextIdFresh(c.lfsr, Ids(c.msgs));
      NonZeroAsInt(id);
      var c' := c.(lfsr := id);
      PathOne(calm, c, Adjust(c.error, id, c.keepAlive, c.lost));
      es := StagePath(calm, c', r(id as int), stale);
      PathConcat(calm, c, [Adjust(c.error, id, c.keepAlive, c.lost)], c', es, Stage(c', r(id as int), stale).client);
      es := [Adjust(c.error, id, c.keepAlive, c.lost)] + es;
    }
  }

  /** The circumstances under which the bytes on the wire are framed: see Calm. */
  ghost predicate CalmEvent(c: Client, e: Event) {
    match e
    case SendCall(env, _, _) =>
      AtMostOnePending(c.msgs) && forall j :: 0 <= j < |c.msgs| ==> !TimedOut(c.msgs[j], env(j).now, c.responseTimeout)
    case RecvRound(a) => a.reply >= 0 && |c.recv| <= c.recvSize ==> AcksOnlySent(Read(c, a.reply))
    case _ => true
  }

  lemma ConnectPath(calm: bool, c: Client, r: Request, stale: Stale) returns (es: seq<Effect>)
    requires r.ConnectRequest?
    ensures Path(calm, c, es, Connect(c, r, stale).client)
  {
    hide Path, Stage;
    var error := if c.error == ERROR_CONNECT_NOT_CALLED then MQTT_OK else c.error;
    var c' := c.(keepAlive := r.keepAlive, error := error);
    PathOne(calm, c, Adjust(error, c.lfsr, r.keepAlive, c.lost));
    es := StagePath(calm, c', r, stale);
    PathConcat(calm, c, [Adjust(error, c.lfsr, r.keepAlive, c.lost)], c', es, Stage(c', r, stale).client);
    es := [Adjust(error, c.lfsr, r.keepAlive, c.lost)] + es;
  }

  lemma PublishCallPath(calm: bool, c: Client, topic: Option<seq<byte>>, message: seq<byte>, flags: byte, stale: Stale)
    returns (es: seq<Effect>)
    ensures Path(calm, c, es, PublishMessage(c, topic, message, flags, stale).client)
  {
    hide Path, StageWithId, Ids;
    es := StageWithIdPath(calm, c, (id: uint16) => PublishRequest(topic, id, message, flags), stale);
  }

  lemma SubscribeCallPath(calm: bool, c: Client, filter: seq<byte>, maxQos: byte, stale: Stale)
    returns (es: seq<Effect>)
    ensures Path(calm, c, es, Subscribe(c, filter, maxQos, stale).client)
  {
    hide Path, StageWithId, Ids;
    es := StageWithIdPath(calm, c, (id: uint16) => SubscribeRequest(id, [(filter, maxQos)]), stale);
  }

  lemma UnsubscribeCallPath(calm: bool, c: Client, filter: seq<byte>, stale: Stale) returns (es: seq<Effect>)
    ensures Path(calm, c, es, Unsubscribe(c, filter, stale).client)
  {
    hide Path, StageWithId, Ids;
    es := StageWithIdPath(calm, c, (id: uint16) => UnsubscribeRequest(id, [filter]), stale);
  }

  /** Every call is a sequence of allowed effects, and of calm ones when its circumstances are. */
  lemma StepPath(calm: bool, c: Client, e: Event) returns (es: seq<Effect>)
    requires calm ==> CalmEvent(c, e)
    ensures Path(calm, c, es, Step(c, e))
  {
    hide Path, Stage, Connect, PublishMessage, Subscribe, Unsubscribe, Send, RecvOne, Read, AcksOnlySent, TimedOut,
         AtMostOnePending;
    if !Enabled(c, e) {
      es := [];
      PathNone(calm, c);
      return;
    }
    match e
    case ConnectCall(r, stale) => es := ConnectPath(calm, c, r, stale);
    case PublishCall(topic, message, flags, stale) => es := PublishCallPath(calm, c, topic, message, flags, stale);
    case SubscribeCall(filter, maxQos, stale) => es := SubscribeCallPath(calm, c, filter, maxQos, stale);
    case UnsubscribeCall(filter, stale) => es := UnsubscribeCallPath(calm, c, filter, stale);
    case PingCall(stale) => es := StagePath(calm, c, PingRequest, stale);
    case DisconnectCall(stale) => es := StagePath(calm, c, DisconnectRequest, stale);
    case SendCall(env, now, stale) => es := SendPath(calm, c, env, now, stale);
    case RecvRound(a) => es := RecvOnePath(calm, c, a);
  }

  ghost predicate CalmRun(c: Client, events: seq<Event>)
    decreases |events|
  {
    events != [] ==> CalmEvent(c, events[0]) && CalmRun(Step(c, events[0]), events[1..])
  }

  lemma {:induction false} RunPath(calm: bool, c: Client, events: seq<Event>) returns (es: seq<Effect>)
    requires calm ==> CalmRun(c, events)
    ensures Path(calm, c, es, Run(c, events))
    decreases |events|
  {
    if events == [] {
      es := [];
    } else {
      var c' := Step(c, events[0]);
      es := StepPath(calm, c, events[0]);
      var rest := RunPath(calm, c', events[1..]);
      PathConcat(calm, c, es, c', rest, Run(c', events[1..]));
      es := es + rest;
    }
  }
}
