/** What each turn of the send loop does to a message and to the wire, and that a willing socket is given everything. */
module Sending {
  import opened Bytes
  import opened MqttConstants
  import opened FixedHeaders
  import opened Packers
  import opened Messages
  import opened ClientSpec
  import opened Effects
  import opened QueueInvariants
  import opened Staging
  import opened WireFraming

  // ----- One turn -----

  /** An unanswered message whose time has run out. */
  predicate Overdue(c: Client, i: nat, now: int)
    requires i < |c.msgs|
  {
    c.msgs[i].state.AwaitingAck? && now > c.msgs[i].timeSent + c.responseTimeout
  }

  predicate IsOpenQos2(m: Message) {
    m.controlType == 3 && m.bytes != [] && m.bytes[0] / 2 % 4 == 2 && !m.state.Complete?
  }

  /** A QoS 2 PUBLISH waits for every earlier one to be complete. */
  predicate HeldBack(c: Client, i: nat)
    requires i < |c.msgs|
  {
    IsOpenQos2(c.msgs[i]) && exists j :: 0 <= j < i && IsOpenQos2(c.msgs[j])
  }

  /** The turn sends message i: for the first time, or again when it is overdue; unless it is held back. */
  predicate IsDue(c: Client, i: nat, now: int)
    requires i < |c.msgs|
  {
    (c.msgs[i].state.Unsent? || Overdue(c, i, now)) && !HeldBack(c, i)
  }

  /** The client once the timeout has been looked at. */
  function Checked(c: Client, i: nat, now: int): Client
    requires i < |c.msgs|
  {
    if Overdue(c, i, now) then c.(timeouts := c.timeouts + 1, sendOffset := 0) else c
  }

  /** A message that has been sent to its end: with nothing to wait for it is complete, and otherwise it awaits its
      acknowledgement; at QoS 1 the DUP bit is set for a next time; the time is noted. */
  predicate SentOnce(m: Message, m': Message, now: int) {
    && m'.timeSent == now && m'.controlType == m.controlType && m'.packetId == m.packetId
    && m'.sent == m.sent + [m.bytes] && m'.original == m.original
    && (IsFinal(m) ==> m'.state.Complete? && m'.bytes == m.bytes)
    && (!IsFinal(m) ==> m'.state.AwaitingAck?)
    && |m'.bytes| == |m.bytes| > 0 && m'.bytes[1..] == m.bytes[1..]
    && m'.bytes[0] == (if m.controlType == 3 && m.bytes[0] / 2 % 4 == 1 && m.bytes[0] / 8 % 2 == 0
                       then m.bytes[0] + 8 else m.bytes[0])
  }

  /** What a turn does, by what the socket answers. */
  predicate TurnDoes(c: Client, i: nat, t: Turn, s: SendStep)
    requires i < |c.msgs|
  {
    var m, c1 := c.msgs[i], Checked(c, i, t.now);
    if !IsDue(c, i, t.now) then s.client == c1 && s.next == Go
    else if c1.sendOffset > |m.bytes| then s.client.lost
    else if t.reply < 0 then s.client == c1.(error := t.reply) && s.next == Fail(t.reply)
    else if t.reply < |m.bytes| - c1.sendOffset then
      && s.client == c1.(wire := c1.wire + m.bytes[c1.sendOffset..c1.sendOffset + t.reply],
                         sendOffset := c1.sendOffset + t.reply)
      && s.next == Stop
    else
      && |s.client.msgs| == |c.msgs| && SentOnce(m, s.client.msgs[i], t.after)
      && s.client == c1.(wire := c1.wire + m.bytes[c1.sendOffset..], sendOffset := 0, timeOfLastSend := t.after,
                         msgs := c.msgs[i := s.client.msgs[i]])
      && s.next == Go
  }

  /** A turn of the send loop does exactly that, in every state that keeps the queue invariants. */
  lemma TurnIs(c: Client, i: nat, t: Turn)
    requires QueueOk(c) && i < |c.msgs|
    ensures TurnDoes(c, i, t, SendOne(c, i, AnyPending(c.msgs, i), t))
  {
    MessageAt(c, i);
    HeldBackIff(c, i);
    hide QueueOk, MessageOk, AnyPending, PendingQos2, Transmit, SentOnce, HeldBack;
    var m, c1 := c.msgs[i], Checked(c, i, t.now);
    assert TimedOut(m, t.now, c.responseTimeout) == Overdue(c, i, t.now);
    if IsDue(c, i, t.now) {
      TransmitIs(c1, i, AnyPending(c.msgs, i) || PendingQos2(m), t);
    }
  }

  lemma OpenIsPending(m: Message)
    requires m.bytes != []
    ensures IsOpenQos2(m) <==> PendingQos2(m)
  {}

  lemma HeldBackIff(c: Client, i: nat)
    requires QueueOk(c) && i < |c.msgs|
    ensures HeldBack(c, i) <==> PendingQos2(c.msgs[i]) && AnyPending(c.msgs, i)
  {
    forall j | 0 <= j < |c.msgs| ensures IsOpenQos2(c.msgs[j]) <==> PendingQos2(c.msgs[j]) {
      NotEmpty(c, j);
      OpenIsPending(c.msgs[j]);
    }
    hide QueueOk, IsOpenQos2, PendingQos2;
  }

  lemma TransmitIs(c: Client, i: nat, inflight: bool, t: Turn)
    requires i < |c.msgs| && MessageOk(c.msgs[i])
    ensures var m, s := c.msgs[i], Transmit(c, i, inflight, t);
            if c.sendOffset > |m.bytes| then s.client.lost
            else if t.reply < 0 then s.client == c.(error := t.reply) && s.next == Fail(t.reply)
            else if t.reply < |m.bytes| - c.sendOffset then
              && s.client == c.(wire := c.wire + m.bytes[c.sendOffset..c.sendOffset + t.reply],
                                sendOffset := c.sendOffset + t.reply)
              && s.next == Stop
            else
              && |s.client.msgs| == |c.msgs| && SentOnce(m, s.client.msgs[i], t.after)
              && s.client == c.(wire := c.wire + m.bytes[c.sendOffset..], sendOffset := 0, timeOfLastSend := t.after,
                                msgs := c.msgs[i := s.client.msgs[i]])
              && s.next == Go
  {
    var m := c.msgs[i];
    SentOnceIs(m, t.after);
    KnownType(m, t.after);
    hide MessageOk, AfterSending, CompletesOnSend, AwaitsAckOnSend, SentOnce;
    assert c.sendOffset <= |m.bytes| ==> m.bytes[c.sendOffset..|m.bytes|] == m.bytes[c.sendOffset..];
  }

  lemma SentOnceIs(m: Message, now: int)
    requires MessageOk(m)
    ensures SentOnce(m, AfterSending(m, now), now)
  {
    FinalIsCompleted(m, now);
    AfterSendingKeeps(m, now);
  }

  // ----- Over runs -----

  /** In every run, a message with nothing to wait for is never waiting, is sent to its end at most once, and is then
      complete. */
  lemma FinalIsSentOnce(setup: Setup, unread: seq<byte>, events: seq<Event>, i: nat)
    requires var ms := Run(Initial(setup, unread), events).msgs; i < |ms| && IsFinal(ms[i])
    ensures var m := Run(Initial(setup, unread), events).msgs[i];
            && !m.state.AwaitingAck? && |m.sent| <= 1 && (m.sent != [] ==> m.state.Complete?)
  {
    InitialOk(setup, unread);
    RunOk(Initial(setup, unread), events);
    MessageAt(Run(Initial(setup, unread), events), i);
    hide QueueOk, Run;
  }

  /** The circumstances of a send call in which the socket takes whatever it is given and nothing is overdue. */
  predicate Willing(c: Client, i: nat, env: nat -> Turn) {
    forall j :: i <= j < |c.msgs| ==> env(j).reply >= |c.msgs[j].bytes| && !Overdue(c, j, env(j).now)
  }

  /** With such a socket, and at most one QoS 2 PUBLISH that is not complete, the send loop sends everything: it comes
      to its end, no message is left unsent, and the wire carries every registered packet. */
  lemma {:induction false} WillingSocketTakesAll(c: Client, i: nat, env: nat -> Turn)
    requires QueueOk(c) && Framed(c) && i <= |c.msgs| && AllSent(c.msgs, i) && AtMostOnePending(c.msgs)
    requires Willing(c, i, env)
    ensures var s := SendFrom(c, i, AnyPending(c.msgs, i), env);
            && s.next == Go && AllSent(s.client.msgs, |s.client.msgs|)
            && s.client.registered == c.registered && s.client.wire == Flatten(c.registered) && s.client.sendOffset == 0
    decreases |c.msgs| - i
  {
    if i == |c.msgs| {
      AllSentFramed(c);
    } else {
      hide QueueOk, Framed, AllSent, AtMostOnePending, SendOne, AnyPending, Willing, Flatten;
      AfterWillingTurn(c, i, env);
      GoesOn(c, i, AnyPending(c.msgs, i), env);
      hide SendFrom;
      WillingSocketTakesAll(SendOne(c, i, AnyPending(c.msgs, i), env(i)).client, i + 1, env);
    }
  }

  lemma GoesOn(c: Client, i: nat, inflight: bool, env: nat -> Turn)
    requires i < |c.msgs|
    ensures var s := SendOne(c, i, inflight, env(i));
            s.next == Go ==> SendFrom(c, i, inflight, env) == SendFrom(s.client, i + 1, s.inflight, env)
  {}

  lemma AfterWillingTurn(c: Client, i: nat, env: nat -> Turn)
    requires QueueOk(c) && Framed(c) && i < |c.msgs| && AllSent(c.msgs, i) && AtMostOnePending(c.msgs)
    requires Willing(c, i, env)
    ensures var s := SendOne(c, i, AnyPending(c.msgs, i), env(i));
            && s.next == Go && s.client.registered == c.registered && |s.client.msgs| == |c.msgs|
            && s.inflight == AnyPending(s.client.msgs, i + 1) && Willing(s.client, i + 1, env)
            && QueueOk(s.client) && Framed(s.client) && AllSent(s.client.msgs, i + 1) && AtMostOnePending(s.client.msgs)
  {
    TurnIs(c, i, env(i));
    WillingTurn(c, i, env(i));
    hide QueueOk, Framed, AllSent, AtMostOnePending, SendOne, AnyPending, TurnDoes;
    PendingAfterTurn(c, i, env(i));
    CalmAfterTurn(c, i, env(i));
    TurnFramed(c, i, env(i));
    EffectKeeps(c, SendTurn(i, env(i)));
    StillWilling(c, i, env);
    hide Willing;
  }

  lemma AllSentFramed(c: Client)
    requires Framed(c) && AllSent(c.msgs, |c.msgs|)
    ensures c.wire == Flatten(c.registered) && c.sendOffset == 0
  {
    SentPrefixCovers(c.msgs, |c.msgs|);
    assert c.registered[..|c.registered|] == c.registered;
    hide SentPrefix, Flatten;
  }

  lemma WillingTurn(c: Client, i: nat, t: Turn)
    requires QueueOk(c) && Framed(c) && i < |c.msgs| && AllSent(c.msgs, i) && AtMostOnePending(c.msgs)
    requires t.reply >= |c.msgs[i].bytes| && !Overdue(c, i, t.now)
    requires TurnDoes(c, i, t, SendOne(c, i, AnyPending(c.msgs, i), t))
    ensures Calm(c, SendTurn(i, t)) && SendOne(c, i, AnyPending(c.msgs, i), t).next == Go
    ensures SendOne(c, i, AnyPending(c.msgs, i), t).client.registered == c.registered
  {
    SentPrefixCovers(c.msgs, i);
    NotEmpty(c, i);
    if c.msgs[i].state.Unsent? { FramedOffset(c); }
    hide QueueOk, SentOnce, Flatten, SendOne;
  }

  lemma StillWilling(c: Client, i: nat, env: nat -> Turn)
    requires i < |c.msgs| && Willing(c, i, env)
    ensures var c' := SendOne(c, i, AnyPending(c.msgs, i), env(i)).client;
            |c'.msgs| == |c.msgs| && Willing(c', i + 1, env)
  {
    OtherMessagesKept(c, i, AnyPending(c.msgs, i), env(i));
    SendOneKeepsTimeout(c, i, AnyPending(c.msgs, i), env(i));
    hide SendOne;
  }

  lemma SendOneKeepsTimeout(c: Client, i: nat, inflight: bool, t: Turn)
    requires i < |c.msgs|
    ensures SendOne(c, i, inflight, t).client.responseTimeout == c.responseTimeout
  {
    hide AfterSending, PendingQos2, TimedOut, CompletesOnSend, AwaitsAckOnSend;
  }

  /** So after every calm run a send call on a willing socket, made with no error pending but that of a full buffer,
      puts every registered packet on the wire. */
  lemma EverythingIsSent(setup: Setup, unread: seq<byte>, events: seq<Event>, env: nat -> Turn, now: int, stale: Stale)
    requires CalmRun(Initial(setup, unread), events)
    requires var c := Run(Initial(setup, unread), events);
             && !c.lost && (c.error >= 0 || c.error == ERROR_SEND_BUFFER_IS_FULL)
             && AtMostOnePending(c.msgs) && Willing(c, 0, env)
    ensures var c := Run(Initial(setup, unread), events);
            Step(c, SendCall(env, now, stale)).wire == Flatten(c.registered)
  {
    var c := Run(Initial(setup, unread), events);
    hide QueueOk, Run, CalmRun, Stage, SendFrom, Framed, AtMostOnePending, Willing;
    CalmRunFramed(setup, unread, events);
    assert AllSent(c.msgs, 0) && !AnyPending(c.msgs, 0);
    WillingSocketTakesAll(c, 0, env);
    StageFrame(SendFrom(c, 0, false, env).client, PingRequest, stale);
  }

  // ----- The rest of a send call -----

  /** Under an error other than that of a full buffer a send call does nothing but report it.  Otherwise, if its loop
      does not fail, a ping is staged exactly when the time since the last send exceeds the keep-alive interval: then
      it succeeds exactly if no error is pending and cleaning leaves two bytes, and a failure is set and reported. */
  lemma SendCallIs(c: Client, env: nat -> Turn, now: int, stale: Stale)
    ensures var o, s := Send(c, env, now, stale), SendFrom(c, 0, false, env);
            if c.error < 0 && c.error != ERROR_SEND_BUFFER_IS_FULL then o == Outcome(c, c.error)
            else if s.next.Fail? then o == Outcome(s.client, s.next.code)
            else if now <= s.client.timeOfLastSend + s.client.keepAlive then o == Outcome(s.client, MQTT_OK)
            else Pinged(s.client, o)
  {
    hide SendFrom;
    var s := SendFrom(c, 0, false, env);
    PingIs(s.client, stale);
    hide Stage, Pinged;
  }

  predicate Pinged(c: Client, o: Outcome) {
    && (o.rv == MQTT_OK <==> c.error >= 0 && RoomOf(c.(msgs := Cleaned(c.msgs))) >= 2)
    && (if o.rv == MQTT_OK then
          && o.client.msgs != [] && o.client.msgs[|o.client.msgs| - 1].bytes == [0xC0, 0]
          && o.client.msgs[|o.client.msgs| - 1].state.Unsent? && o.client.msgs[|o.client.msgs| - 1].controlType == 12
          && KeptOrCleaned(c.msgs, o.client.msgs[..|o.client.msgs| - 1])
          && o.client == c.(msgs := o.client.msgs, registered := c.registered + [[0xC0, 0]])
        else
          && o.rv == o.client.error < 0 && KeptOrCleaned(c.msgs, o.client.msgs)
          && o.client == c.(msgs := o.client.msgs, error := o.rv))
  }

  lemma PingIs(c: Client, stale: Stale)
    ensures var p := Stage(c, PingRequest, stale);
            Pinged(c, if p.rv != MQTT_OK then Outcome(p.client.(error := p.rv), p.rv) else Outcome(p.client, MQTT_OK))
  {
    StagingIsAllOrNothing(c, PingRequest, stale);
    StagedIff(c, PingRequest, stale);
    PingFits();
    OverflowWraps(PingRequest, RoomOf(Stage(c, PingRequest, stale).client));
    hide Stage, KeptOrCleaned, PacketBytes, Cleaned, RoomOf, PackedSize, HeaderBytes, HeaderOf, RuleViolation;
  }

  lemma PingFits()
    ensures var q := PingRequest;
            && RequestError(q) == 0 && RuleViolation(HeaderOf(q)) == 0 && HeaderOf(q).remaining == 0
            && |HeaderBytes(HeaderOf(q))| == 2 && PacketBytes(q) == [0xC0, 0] && Fits32(q)
  {}
}
