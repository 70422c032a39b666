/** When the source gives a call no meaning: exactly when each call leaves the client lost. */
module Definedness {
  import opened Bytes
  import opened MqttConstants
  import opened FixedHeaders
  import opened Packers
  import opened Unpackers
  import opened Messages
  import opened PacketIds
  import opened ClientSpec
  import opened Effects
  import opened QueueInvariants
  import opened Staging
  import opened WireFraming

  // ----- Staging and receiving -----

  /** A PUBLISH is at the front whose topic and id reach beyond its remaining length. */
  predicate Overruns(s: seq<byte>) {
    var p := ParseHeader(s);
    p.Parsed? && p.header.controlType == PUBLISH && p.header.remaining >= 4 && (
      var body := s[p.size..p.size + p.header.remaining];
      2 + ReadU16(body) + (if QosBits(p.header.flags) > 0 then 2 else 0) > |body|)
  }

  lemma OverrunIff(s: seq<byte>)
    ensures Unpack(s).Overrun? <==> Overruns(s)
  {
    hide ParseHeader, QosBits, ReadU16;
  }

  /** What a caller could have checked before a call, other than one of the send loop, that the source leaves
      undefined. */
  ghost predicate Undefined(c: Client, e: Event)
    requires Enabled(c, e)
  {
    match e
    case ConnectCall(r, _) =>
      PacksBeyond(c.(error := if c.error == ERROR_CONNECT_NOT_CALLED then MQTT_OK else c.error), r)
    case PublishCall(topic, message, flags, _) =>
      !SomeFree(Ids(c.msgs)) || PacksBeyond(c, PublishRequest(topic, 0, message, flags))
    case SubscribeCall(filter, maxQos, _) =>
      !SomeFree(Ids(c.msgs)) || PacksBeyond(c, SubscribeRequest(0, [(filter, maxQos)]))
    case UnsubscribeCall(filter, _) =>
      !SomeFree(Ids(c.msgs)) || PacksBeyond(c, UnsubscribeRequest(0, [filter]))
    case PingCall(_) => false
    case DisconnectCall(_) => false
    case SendCall(_, _, _) => false
    case RecvRound(a) => a.reply >= 0 && Overruns(Read(c, a.reply).recv)
  }

  /** A call other than a send is undefined exactly when its request fits by a declared length that has wrapped around
      and its packet does not, when it draws an id with none free, or when it meets a PUBLISH that overruns its
      remaining length. */
  lemma CallLostIff(c: Client, e: Event)
    requires Enabled(c, e) && !e.SendCall?
    ensures Step(c, e).lost <==> Undefined(c, e)
  {
    hide Stage, RecvOne, Ids, SomeFree, NextId, Overruns, PacksBeyond;
    match e
    case ConnectCall(r, stale) =>
      var c' := c.(error := if c.error == ERROR_CONNECT_NOT_CALLED then MQTT_OK else c.error);
      StageLostIff(c'.(keepAlive := r.keepAlive), r, stale);
      BeyondFrame(c', c'.(keepAlive := r.keepAlive), r);
    case PublishCall(topic, message, flags, stale) =>
      DrawLostIff(c, (id: uint16) => PublishRequest(topic, id, message, flags), stale);
    case SubscribeCall(filter, maxQos, stale) =>
      DrawLostIff(c, (id: uint16) => SubscribeRequest(id, [(filter, maxQos)]), stale);
    case UnsubscribeCall(filter, stale) =>
      DrawLostIff(c, (id: uint16) => UnsubscribeRequest(id, [filter]), stale);
    case PingCall(stale) => StageLostIff(c, PingRequest, stale); BareFits(c);
    case DisconnectCall(stale) => StageLostIff(c, DisconnectRequest, stale); BareFits(c);
    case RecvRound(a) => RoundLostIff(c, a);
  }

  lemma BareFits(c: Client)
    ensures !PacksBeyond(c, PingRequest) && !PacksBeyond(c, DisconnectRequest)
  {
    BeyondWraps(c, PingRequest);
    BeyondWraps(c, DisconnectRequest);
    hide PacksBeyond;
  }

  lemma StageLostIff(c: Client, r: Request, stale: Stale)
    ensures Stage(c, r, stale).client.lost <==> c.lost || PacksBeyond(c, r)
  {
    hide Stage, PacksBeyond;
    StagedIff(c, r, stale);
  }

  lemma BeyondFrame(c: Client, c': Client, r: Request)
    requires c'.msgs == c.msgs && c'.memSize == c.memSize && c'.headerSize == c.headerSize && c'.error == c.error
    ensures PacksBeyond(c', r) == PacksBeyond(c, r)
  {
    hide Cleaned, Fitting, PacketBytes;
  }

  /** The id takes two bytes, whatever it is. */
  lemma IdTakesTwoBytes(c: Client, r: Request, q: Request)
    requires IsDrawnFor(r, q)
    ensures PacksBeyond(c, r) == PacksBeyond(c, q)
  {
    assert HeaderOf(r) == HeaderOf(q) && RequestError(r) == RequestError(q);
    if RequestError(r) == 0 { BodyKeepsSize(r, q); }
    hide RequestError, HeaderOf, BodyOf, HeaderBytes, RuleViolation, RoomOf;
  }

  lemma BodyKeepsSize(r: Request, q: Request)
    requires RequestError(r) == 0 && RequestError(q) == 0
    requires IsDrawnFor(r, q)
    ensures |BodyOf(r)| == |BodyOf(q)|
  {
    hide Str, FiltersBytes, TopicsBytes;
  }

  lemma DrawLostIff(c: Client, r: uint16 -> Request, stale: Stale)
    requires forall id: uint16 :: IsDrawnFor(r(id), r(0))
    ensures StageWithId(c, r, stale).client.lost <==>
              if SomeFree(Ids(c.msgs)) then c.lost || PacksBeyond(c, r(0)) else true
  {
    hide Stage, Ids, SomeFree, NextId, PacksBeyond;
    if SomeFree(Ids(c.msgs)) {
      var id := NextId(c.lfsr, Ids(c.msgs));
      StageLostIff(c.(lfsr := id), r(id as int), stale);
      BeyondFrame(c, c.(lfsr := id), r(id as int));
      assert IsDrawnFor(r(id as int), r(0));
      IdTakesTwoBytes(c, r(id as int), r(0));
    }
  }

  /** Two requests that differ in the id drawn for them. */
  predicate IsDrawnFor(r: Request, q: Request) {
    match (r, q)
    case (PublishRequest(topic, _, message, flags), PublishRequest(topic', _, message', flags')) =>
      topic == topic' && message == message' && flags == flags'
    case (SubscribeRequest(_, filters), SubscribeRequest(_, filters')) => filters == filters'
    case (UnsubscribeRequest(_, topics), UnsubscribeRequest(_, topics')) => topics == topics'
    case _ => false
  }

  lemma RoundLostIff(c: Client, a: Arrival)
    requires |c.recv| <= c.recvSize && !c.lost
    ensures RecvOne(c, a).client.lost <==> a.reply >= 0 && Overruns(Read(c, a.reply).recv)
  {
    hide Unpack, Handle, Overruns;
    if a.reply >= 0 {
      var c1 := Read(c, a.reply);
      OverrunIff(c1.recv);
      if Unpack(c1.recv).Unpacked? { HandleStaysDefined(c1, Unpack(c1.recv).response, a.stale); }
    }
  }

  lemma HandleStaysDefined(c: Client, r: Response, stale: Stale)
    ensures Handle(c, r, stale).client.lost == c.lost
  {
    hide Stage, FindFrom;
    match r
    case Publish(_, qos, _, _, id, _) =>
      AcknowledgeStaysDefined(c, if qos == 1 then PUBACK else PUBREC, id, stale);
    case Pubxxx(kind, id) =>
      AcknowledgeStaysDefined(Release(c, if kind == PUBREC then PUBLISH else PUBREC, Some(id)).client,
                              if kind == PUBREC then PUBREL else PUBCOMP, id, stale);
    case _ =>
  }

  lemma AcknowledgeStaysDefined(c: Client, kind: Nibble, id: uint16, stale: Stale)
    ensures Acknowledge(c, kind, id, stale).client.lost == c.lost
  {
    StageLostIff(c, PubxxxRequest(kind, id), stale);
    BeyondWraps(c, PubxxxRequest(kind, id));
    hide Stage, PacksBeyond;
  }

  // ----- Sending -----

  /** A turn of the send loop is undefined exactly when it sends an unsent message while the send offset that another
      message left behind is beyond the end of its packet. */
  lemma TurnLostIff(c: Client, i: nat, t: Turn)
    requires i < |c.msgs| && !c.lost
    ensures After(c, SendTurn(i, t)).lost <==>
              && c.msgs[i].state.Unsent? && !(PendingQos2(c.msgs[i]) && AnyPending(c.msgs, i))
              && c.sendOffset > |c.msgs[i].bytes|
  {
    hide AfterSending, PendingQos2, AnyPending, CompletesOnSend, AwaitsAckOnSend;
  }

  /** What TurnLostIff says of message i. */
  predicate SendsBeyond(c: Client, i: nat)
    requires i < |c.msgs|
  {
    && c.msgs[i].state.Unsent? && !(PendingQos2(c.msgs[i]) && AnyPending(c.msgs, i))
    && c.sendOffset > |c.msgs[i].bytes|
  }

  /** The send loop after n turns, or after the one that ended it. */
  function LoopAfter(c: Client, n: nat, env: nat -> Turn): (s: SendStep)
    ensures |s.client.msgs| == |c.msgs|
  {
    if n == 0 then SendStep(c, false, Go)
    else
      var s := LoopAfter(c, n - 1, env);
      if s.next.Go? && n <= |c.msgs| then SendOne(s.client, n - 1, s.inflight, env(n - 1)) else s
  }

  /** The loop reaches the turn of message i, and that turn sends from beyond the end of a packet. */
  predicate ReachesBeyond(c: Client, i: nat, env: nat -> Turn) {
    i < |c.msgs| && LoopAfter(c, i, env).next.Go? && SendsBeyond(LoopAfter(c, i, env).client, i)
  }

  /** A send call is undefined exactly when its loop runs and some turn that it reaches is. */
  lemma SendLostIff(c: Client, env: nat -> Turn, now: int, stale: Stale)
    requires !c.lost
    ensures Send(c, env, now, stale).client.lost <==>
              (c.error >= 0 || c.error == ERROR_SEND_BUFFER_IS_FULL) && exists i :: ReachesBeyond(c, i, env)
  {
    hide SendFrom, Stage, ReachesBeyond;
    LoopFrom(c, 0, env);
    LoopLostIff(c, 0, env);
    StageLostIff(SendFrom(c, 0, false, env).client, PingRequest, stale);
    BareFits(SendFrom(c, 0, false, env).client);
    if i :| ReachesBeyond(c, i, env) { ReachedNat(c, i, env); }
  }

  lemma ReachedNat(c: Client, i: nat, env: nat -> Turn)
    requires ReachesBeyond(c, i, env)
    ensures 0 <= i < |c.msgs|
  {}

  /** As long as it goes on, the loop is where running it from that turn on would be, and nothing is lost. */
  lemma {:induction false} LoopFrom(c: Client, n: nat, env: nat -> Turn)
    requires !c.lost && n <= |c.msgs| && LoopAfter(c, n, env).next.Go?
    ensures var s := LoopAfter(c, n, env);
            && !s.client.lost && s.inflight == AnyPending(s.client.msgs, n)
            && SendFrom(c, 0, false, env) == SendFrom(s.client, n, s.inflight, env)
  {
    hide SendOne;
    if n > 0 {
      LoopFrom(c, n - 1, env);
      var s := LoopAfter(c, n - 1, env);
      PendingAfterTurn(s.client, n - 1, env(n - 1));
      GoIsDefined(s.client, n - 1, s.inflight, env(n - 1));
    } else {
      hide PendingQos2;
    }
  }

  lemma GoIsDefined(c: Client, i: nat, inflight: bool, t: Turn)
    requires i < |c.msgs| && !c.lost && SendOne(c, i, inflight, t).next.Go?
    ensures !SendOne(c, i, inflight, t).client.lost
  {
    hide AfterSending, PendingQos2, CompletesOnSend, AwaitsAckOnSend, TimedOut;
  }

  lemma {:induction false} LoopLostIff(c: Client, n: nat, env: nat -> Turn)
    requires !c.lost && n <= |c.msgs| && LoopAfter(c, n, env).next.Go?
    ensures SendFrom(c, 0, false, env).client.lost <==> exists i :: n <= i && ReachesBeyond(c, i, env)
    decreases |c.msgs| - n
  {
    hide SendOne, SendsBeyond;
    LoopFrom(c, n, env);
    var s := LoopAfter(c, n, env);
    if n < |c.msgs| {
      TurnLostIs(s.client, n, s.inflight, env(n));
      var s' := LoopAfter(c, n + 1, env);
      if s'.next.Go? {
        GoIsDefined(s.client, n, s.inflight, env(n));
        LoopLostIff(c, n + 1, env);
        assert !ReachesBeyond(c, n, env);
      } else {
        assert SendFrom(c, 0, false, env) == s';
        forall i | n < i ensures !ReachesBeyond(c, i, env) { Stopped(c, n + 1, i, env); }
        assert ReachesBeyond(c, n, env) <==> s'.client.lost;
      }
    }
  }

  lemma TurnLostIs(c: Client, i: nat, inflight: bool, t: Turn)
    requires i < |c.msgs| && !c.lost && inflight == AnyPending(c.msgs, i)
    ensures SendOne(c, i, inflight, t).client.lost <==> SendsBeyond(c, i)
  {
    TurnLostIff(c, i, t);
    hide SendOne, AnyPending, PendingQos2;
  }

  lemma {:induction false} Stopped(c: Client, n: nat, i: nat, env: nat -> Turn)
    requires n <= i && !LoopAfter(c, n, env).next.Go?
    ensures LoopAfter(c, i, env) == LoopAfter(c, n, env)
  {
    hide SendOne;
    if n < i { Stopped(c, n, i - 1, env); }
  }

  lemma CalmTurnIsDefined(c: Client, i: nat, t: Turn)
    requires QueueOk(c) && Framed(c) && !c.lost && i < |c.msgs| && Calm(c, SendTurn(i, t))
    ensures !After(c, SendTurn(i, t)).lost
  {
    TurnLostIff(c, i, t);
    SentPrefixCovers(c.msgs, i);
    if c.msgs[i].state.Unsent? { FramedOffset(c); }
  }

  lemma CalmSendFromIsDefined(c: Client, i: nat, env: nat -> Turn)
    requires QueueOk(c) && Framed(c) && !c.lost
    requires i <= |c.msgs| && AllSent(c.msgs, i) && AtMostOnePending(c.msgs)
    requires forall j :: i <= j < |c.msgs| ==> !TimedOut(c.msgs[j], env(j).now, c.responseTimeout)
    ensures !SendFrom(c, i, AnyPending(c.msgs, i), env).client.lost
    decreases |c.msgs| - i
  {
    if i < |c.msgs| {
      hide QueueOk, Framed, AllSent, AtMostOnePending, TimedOut, SendOne, AnyPending;
      var e := SendTurn(i, env(i));
      CalmTurnIsDefined(c, i, env(i));
      TurnFramed(c, i, env(i));
      EffectKeeps(c, e);
      var s := SendOne(c, i, AnyPending(c.msgs, i), env(i));
      assert s.client == After(c, e);
      if s.next.Go? {
        PendingAfterTurn(c, i, env(i));
        CalmAfterTurn(c, i, env(i));
        OtherMessagesKept(c, i, AnyPending(c.msgs, i), env(i));
        CalmSendFromIsDefined(s.client, i + 1, env);
      }
    }
  }

  /** On a calm connection no send call is ever undefined. */
  lemma CalmSendIsDefined(setup: Setup, unread: seq<byte>, events: seq<Event>, env: nat -> Turn, now: int, stale: Stale)
    requires CalmRun(Initial(setup, unread), events)
    requires var c := Run(Initial(setup, unread), events); CalmEvent(c, SendCall(env, now, stale)) && !c.lost
    ensures !Step(Run(Initial(setup, unread), events), SendCall(env, now, stale)).lost
  {
    var c := Run(Initial(setup, unread), events);
    hide QueueOk, Run, CalmRun, Stage, SendFrom, Framed;
    CalmRunFramed(setup, unread, events);
    assert AllSent(c.msgs, 0) && !AnyPending(c.msgs, 0);
    CalmSendFromIsDefined(c, 0, env);
    StageLostIff(SendFrom(c, 0, false, env).client, PingRequest, stale);
    BareFits(SendFrom(c, 0, false, env).client);
  }
}
