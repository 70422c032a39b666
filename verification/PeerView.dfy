/** What the peer makes of the bytes it is sent, cutting them by fixed header and declared length. */
module PeerView {
  import opened Bytes
  import opened MqttConstants
  import opened FixedHeaders
  import opened Packers
  import opened Unpackers
  import opened Messages
  import opened PacketIds
  import opened ClientSpec
  import opened Effects
  import opened QueueInvariants
  import opened Staging
  import opened Answering
  import opened WireFraming

  /** The reference: whole packets from the front, up to a rest that is not one. */
  function Cut(s: seq<byte>): seq<seq<byte>> {
    match ParseHeader(s)
    case Parsed(h, n) => [s[..n + h.remaining]] + Cut(s[n + h.remaining..])
    case _ => []
  }

  /** A packet that ends where its header says. */
  predicate Delimited(p: seq<byte>) {
    var h := ParseHeader(p);
    h.Parsed? && h.size + h.header.remaining == |p|
  }

  ghost predicate AllDelimited(ps: seq<seq<byte>>) {
    forall i :: 0 <= i < |ps| ==> Delimited(ps[i])
  }

  lemma {:induction false} CutOfPackets(ps: seq<seq<byte>>, rest: seq<byte>)
    requires AllDelimited(ps) && !ParseHeader(rest).Parsed?
    ensures Cut(Flatten(ps) + rest) == ps
  {
    if ps == [] {
      assert [] + rest == rest;
    } else {
      assert AllDelimited(ps[1..]);
      CutOfPackets(ps[1..], rest);
      ConcatAssociates(ps[0], Flatten(ps[1..]), rest);
      CutFirst(ps[0], Flatten(ps[1..]) + rest);
    }
  }

  lemma CutFirst(p: seq<byte>, rest: seq<byte>)
    requires Delimited(p)
    ensures Cut(p + rest) == [p] + Cut(rest)
  {
    HeaderStable(p, rest);
    hide ParseHeader;
    assert (p + rest)[..|p|] == p && (p + rest)[|p|..] == rest;
  }

  // ----- The packets a client registers -----

  /** A packet that can be packed ends where its header says exactly when its body is as long as declared; without
      wrap-around that is when every string fits its 16-bit length. */
  lemma DelimitedIff(r: Request)
    requires RequestError(r) == 0 && RuleViolation(HeaderOf(r)) == 0 && HeaderOf(r).remaining < MAX_REMAINING
    ensures Delimited(PacketBytes(r)) <==> |BodyOf(r)| == HeaderOf(r).remaining
    ensures Fits32(r) ==> (Delimited(PacketBytes(r)) <==> StringsFit(r))
  {
    hide BodyOf, HeaderBytes, DeclaredLength, StringsFit, RuleViolation, ParseHeader, RequestError, TypeOf;
    SelfDelimitingIff(r);
    if |BodyOf(r)| >= HeaderOf(r).remaining {
      HeaderRoundTrip(HeaderOf(r), BodyOf(r));
    } else {
      ShortBody(HeaderOf(r), BodyOf(r));
    }
  }

  /** A body shorter than declared leaves the packet incomplete. */
  lemma ShortBody(h: FixedHeader, body: seq<byte>)
    requires RuleViolation(h) == 0 && |body| < h.remaining < MAX_REMAINING
    ensures ParseHeader(HeaderBytes(h) + body).NeedMore?
  {
    var more := seq(h.remaining, i => 0);
    HeaderRoundTrip(h, body + more);
    ConcatAssociates(HeaderBytes(h), body, more);
    if !ParseHeader(HeaderBytes(h) + body).NeedMore? { HeaderStable(HeaderBytes(h) + body, more); }
  }

  /** The strings of a request fit their 16-bit lengths, and all of it 32 bits. */
  predicate WellSized(r: Request) {
    StringsFit(r) && Fits32(r)
  }

  /** The call asks for nothing that does not fit the lengths of a packet. */
  predicate AsksWellSized(e: Event) {
    match e
    case ConnectCall(r, _) => WellSized(r)
    case PublishCall(topic, message, flags, _) => WellSized(PublishRequest(topic, 0, message, flags))
    case SubscribeCall(filter, maxQos, _) => WellSized(SubscribeRequest(0, [(filter, maxQos)]))
    case UnsubscribeCall(filter, _) => WellSized(UnsubscribeRequest(0, [filter]))
    case _ => true
  }

  lemma StageDelimits(c: Client, r: Request, stale: Stale)
    requires AllDelimited(c.registered) && WellSized(r)
    ensures AllDelimited(Stage(c, r, stale).client.registered)
  {
    WhatIsRegistered(c, r, stale);
    StagedIff(c, r, stale);
    if Stage(c, r, stale).rv == MQTT_OK { DelimitedIff(r); }
    hide Stage, PacketBytes, Delimited, StringsFit, Fits32;
  }

  lemma HandleDelimits(c: Client, r: Response, stale: Stale)
    requires AllDelimited(c.registered)
    ensures AllDelimited(Handle(c, r, stale).client.registered)
  {
    hide Stage, AllDelimited, FindFrom;
    match r
    case Publish(_, qos, _, _, id, _) =>
      StageDelimits(c, PubxxxRequest(if qos == 1 then PUBACK else PUBREC, id), stale);
    case Pubxxx(kind, id) =>
      var o := Release(c, if kind == PUBREC then PUBLISH else PUBREC, Some(id));
      StageDelimits(o.client, PubxxxRequest(if kind == PUBREC then PUBREL else PUBCOMP, id), stale);
    case _ =>
  }

  lemma RecvOneDelimits(c: Client, a: Arrival)
    requires AllDelimited(c.registered) && |c.recv| <= c.recvSize
    ensures AllDelimited(RecvOne(c, a).client.registered)
  {
    hide AllDelimited, Handle, Unpack;
    if a.reply >= 0 {
      var c1 := Read(c, a.reply);
      match Unpack(c1.recv)
      case Unpacked(_, r) =>
        HandleDelimits(c1, r, a.stale);
        HandleFrame(c1, r, a.stale);
      case _ =>
    }
  }

  lemma StageWithIdDelimits(c: Client, r: uint16 -> Request, stale: Stale)
    requires AllDelimited(c.registered) && forall id: uint16 :: WellSized(r(id))
    ensures AllDelimited(StageWithId(c, r, stale).client.registered)
  {
    hide Stage, AllDelimited, Ids, NextId, SomeFree;
    if SomeFree(Ids(c.msgs)) {
      var id := NextId(c.lfsr, Ids(c.msgs));
      StageDelimits(c.(lfsr := id), r(id as int), stale);
    }
  }

  lemma SendDelimits(c: Client, env: nat -> Turn, now: int, stale: Stale)
    requires AllDelimited(c.registered)
    ensures AllDelimited(Send(c, env, now, stale).client.registered)
  {
    hide SendFrom, Stage, AllDelimited;
    SendFromRegistersNothing(c, 0, false, env);
    StageDelimits(SendFrom(c, 0, false, env).client, PingRequest, stale);
  }

  lemma StepDelimits(c: Client, e: Event)
    requires AllDelimited(c.registered) && AsksWellSized(e)
    ensures AllDelimited(Step(c, e).registered)
  {
    hide AllDelimited, Stage, Send, RecvOne, StageWithId;
    if Enabled(c, e) {
      match e
      case ConnectCall(r, stale) =>
        var error := if c.error == ERROR_CONNECT_NOT_CALLED then MQTT_OK else c.error;
        StageDelimits(c.(keepAlive := r.keepAlive, error := error), r, stale);
      case PublishCall(topic, message, flags, stale) =>
        StageWithIdDelimits(c, (id: uint16) => PublishRequest(topic, id, message, flags), stale);
      case SubscribeCall(filter, maxQos, stale) =>
        StageWithIdDelimits(c, (id: uint16) => SubscribeRequest(id, [(filter, maxQos)]), stale);
      case UnsubscribeCall(filter, stale) =>
        StageWithIdDelimits(c, (id: uint16) => UnsubscribeRequest(id, [filter]), stale);
      case PingCall(stale) => StageDelimits(c, PingRequest, stale);
      case DisconnectCall(stale) => StageDelimits(c, DisconnectRequest, stale);
      case SendCall(env, now, stale) => SendDelimits(c, env, now, stale);
      case RecvRound(a) => RecvOneDelimits(c, a);
    }
  }

  lemma {:induction false} RunDelimits(c: Client, events: seq<Event>)
    requires AllDelimited(c.registered) && forall i :: 0 <= i < |events| ==> AsksWellSized(events[i])
    ensures AllDelimited(Run(c, events).registered)
    decreases |events|
  {
    hide AllDelimited, AsksWellSized, Step;
    if events != [] {
      StepDelimits(c, events[0]);
      RunDelimits(Step(c, events[0]), events[1..]);
    }
  }

  // ----- What the peer recovers -----

  /** In every calm run whose requests fit the lengths of a packet, the peer that cuts the bytes it was sent by header
      and declared length recovers exactly the packets registered and sent, each once and in order. */
  lemma PeerRecoversPackets(setup: Setup, unread: seq<byte>, events: seq<Event>)
    requires CalmRun(Initial(setup, unread), events)
    requires forall i :: 0 <= i < |events| ==> AsksWellSized(events[i])
    ensures var c := Run(Initial(setup, unread), events);
            0 <= PacketsSent(c) <= |c.registered| && Cut(c.wire) == c.registered[..PacketsSent(c)]
  {
    hide Run, CalmRun, AsksWellSized, Delimited, Cut;
    var c := Run(Initial(setup, unread), events);
    var n := PacketsSent(c);
    WireIsFramed(setup, unread, events);
    RunDelimits(Initial(setup, unread), events);
    if n < |c.registered| {
      StartIsIncomplete(c.registered[n], c.sendOffset);
      CutOfPackets(c.registered[..n], c.registered[n][..c.sendOffset]);
    } else {
      assert c.registered[..n] == c.registered && c.wire + [] == c.wire;
      NothingToParse();
      CutOfPackets(c.registered, []);
    }
  }

  lemma StartIsIncomplete(p: seq<byte>, n: nat)
    requires Delimited(p) && n < |p|
    ensures ParseHeader(p[..n]).NeedMore?
  {
    ProperPrefixNeedsMore(p, n);
  }

  lemma NothingToParse()
    ensures ParseHeader([]).NeedMore?
  {}
}
