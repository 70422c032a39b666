/** On a calm connection the bytes handed to the socket are the registered packets, each once and in
    registration order, followed by the part of the next packet that has been sent so far. */
module WireFraming {
  import opened Bytes
  import opened MqttConstants
  import opened FixedHeaders
  import opened Packers
  import opened Unpackers
  import opened Messages
  import opened ClientSpec
  import opened Effects
  import opened QueueInvariants

  /** How many messages at the front of the queue have been sent. */
  function SentPrefix(msgs: seq<Message>): (k: nat)
    ensures k <= |msgs|
    ensures forall i :: 0 <= i < k ==> !msgs[i].state.Unsent?
    ensures k < |msgs| ==> msgs[k].state.Unsent?
  {
    if msgs == [] || msgs[0].state.Unsent? then 0 else 1 + SentPrefix(msgs[1..])
  }

  lemma {:induction false} SentPrefixIs(msgs: seq<Message>, k: nat)
    requires k <= |msgs| && (forall i :: 0 <= i < k ==> !msgs[i].state.Unsent?)
             && (k < |msgs| ==> msgs[k].state.Unsent?)
    ensures SentPrefix(msgs) == k
  {
    if k > 0 {
      SentPrefixIs(msgs[1..], k - 1);
    }
  }

  /** How many of the registered packets have been sent completely. */
  function PacketsSent(c: Client): int {
    |c.registered| - |c.msgs| + SentPrefix(c.msgs)
  }

  /** Messages are sent in queue order, and the wire carries the packets sent and the started part of the next. */
  ghost predicate Framed(c: Client) {
    var k := SentPrefix(c.msgs);
    && (forall i :: k <= i < |c.msgs| ==> c.msgs[i].state.Unsent?)
    && 0 <= PacketsSent(c) <= |c.registered|
    && (if k < |c.msgs| then
          c.sendOffset < |c.msgs[k].bytes|
          && c.wire == Flatten(c.registered[..PacketsSent(c)]) + c.msgs[k].bytes[..c.sendOffset]
        else c.sendOffset == 0 && c.wire == Flatten(c.registered[..PacketsSent(c)]))
  }

  lemma {:induction false} CompleteAreSent(msgs: seq<Message>)
    ensures CompletePrefix(msgs) <= SentPrefix(msgs)
  {
    if msgs != [] && msgs[0].state.Complete? {
      CompleteAreSent(msgs[1..]);
    }
  }

  lemma {:induction false} SentPrefixCovers(msgs: seq<Message>, i: nat)
    requires i <= |msgs| && AllSent(msgs, i)
    ensures i <= SentPrefix(msgs)
  {
    if i > 0 {
      assert AllSent(msgs[1..], i - 1);
      SentPrefixCovers(msgs[1..], i - 1);
    }
  }

  lemma SuffixFramed(msgs: seq<Message>, n: nat)
    requires n <= SentPrefix(msgs)
    ensures SentPrefix(msgs[n..]) == SentPrefix(msgs) - n
  {
    assert forall i :: 0 <= i < |msgs[n..]| ==> msgs[n..][i] == msgs[n + i];
    SentPrefixIs(msgs[n..], SentPrefix(msgs) - n);
  }

  lemma TidyFramed(c: Client)
    requires Framed(c)
    ensures Framed(After(c, Tidy))
  {
    hide SentPrefix, CompletePrefix, Flatten;
    var n := CompletePrefix(c.msgs);
    CompleteAreSent(c.msgs);
    SuffixFramed(c.msgs, n);
    var ms := c.msgs[n..];
    assert forall i :: 0 <= i < |ms| ==> ms[i] == c.msgs[n + i];
  }

  lemma AppendFramed(c: Client, r: Request, stale: Stale)
    requires Framed(c) && RequestError(r) == 0
    ensures Framed(Append(c, r, stale))
  {
    hide PacketBytes, RequestError;
    var k := SentPrefix(c.msgs);
    var c' := Append(c, r, stale);
    SentPrefixIs(c'.msgs, k);
    assert c'.registered[..PacketsSent(c)] == c.registered[..PacketsSent(c)];
    PacketNotEmpty(r);
  }

  lemma PacketNotEmpty(r: Request)
    requires RequestError(r) == 0
    ensures |PacketBytes(r)| > 0
  {}

  /** A message that was sent before and is now complete does not move the frontier. */
  lemma CompleteFramed(c: Client, i: nat, c': Client)
    requires Framed(c) && i < |c.msgs| && !c.msgs[i].state.Unsent?
    requires c'.msgs == c.msgs[i := c.msgs[i].(state := Complete)]
    requires c'.registered == c.registered && c'.wire == c.wire && c'.sendOffset == c.sendOffset
    ensures Framed(c')
  {
    SentPrefixIs(c'.msgs, SentPrefix(c.msgs));
  }

  lemma SameWire(c: Client, c': Client)
    requires Framed(c)
    requires c'.msgs == c.msgs && c'.registered == c.registered && c'.wire == c.wire && c'.sendOffset == c.sendOffset
    ensures Framed(c')
  {}

  /** The next packet is its registered self until it has been sent. */
  lemma NextPacket(c: Client)
    requires QueueOk(c) && Framed(c) && SentPrefix(c.msgs) < |c.msgs|
    ensures PacketsSent(c) < |c.registered|
    ensures c.msgs[SentPrefix(c.msgs)].bytes == c.registered[PacketsSent(c)]
    ensures Flatten(c.registered[..PacketsSent(c) + 1]) ==
            Flatten(c.registered[..PacketsSent(c)]) + c.msgs[SentPrefix(c.msgs)].bytes
  {
    var k, n := SentPrefix(c.msgs), PacketsSent(c);
    MessageAt(c, k);
    assert c.registered[..n + 1] == c.registered[..n] + [c.registered[n]];
    FlattenSnoc(c.registered[..n], c.registered[n]);
  }

  /** The rest of the next message has been sent. */
  lemma WholeFramed(c: Client, m: Message, c': Client)
    requires QueueOk(c) && Framed(c) && SentPrefix(c.msgs) < |c.msgs| && !m.state.Unsent?
    requires var k := SentPrefix(c.msgs);
             c'.msgs == c.msgs[k := m] && c'.wire == c.wire + c.msgs[k].bytes[c.sendOffset..]
    requires c'.registered == c.registered && c'.sendOffset == 0
    ensures Framed(c')
  {
    hide QueueOk, SentPrefix, Flatten;
    var k := SentPrefix(c.msgs);
    NextPacket(c);
    JoinAt(Flatten(c.registered[..PacketsSent(c)]), c.msgs[k].bytes, c.sendOffset);
    var j := SentPrefixNext(c, m);
    if k + 1 < |c.msgs| {
      NotEmpty(c, k + 1);
      NothingTaken(c'.wire, c'.msgs[k + 1].bytes);
    }
  }

  lemma JoinAt(flat: seq<byte>, bytes: seq<byte>, off: nat)
    requires off <= |bytes|
    ensures (flat + bytes[..off]) + bytes[off..] == flat + bytes
  {
    assert bytes[..off] + bytes[off..] == bytes;
  }

  lemma NothingTaken(flat: seq<byte>, bytes: seq<byte>)
    ensures flat + bytes[..0] == flat
  {}

  lemma SentPrefixNext(c: Client, m: Message) returns (k: nat)
    requires Framed(c) && SentPrefix(c.msgs) < |c.msgs| && !m.state.Unsent?
    ensures k == SentPrefix(c.msgs) + 1 == SentPrefix(c.msgs[SentPrefix(c.msgs) := m])
  {
    k := SentPrefix(c.msgs) + 1;
    SentPrefixIs(c.msgs[SentPrefix(c.msgs) := m], k);
  }

  lemma NotEmpty(c: Client, i: nat)
    requires QueueOk(c) && i < |c.msgs|
    ensures |c.msgs[i].bytes| > 0
  {
    MessageAt(c, i);
  }

  lemma FramedOffset(c: Client)
    requires Framed(c) && SentPrefix(c.msgs) < |c.msgs|
    ensures c.sendOffset < |c.msgs[SentPrefix(c.msgs)].bytes|
  {}

  /** A part of the next message has been sent. */
  lemma PartFramed(c: Client, offset: nat, c': Client)
    requires Framed(c) && SentPrefix(c.msgs) < |c.msgs|
    requires c.sendOffset <= offset < |c.msgs[SentPrefix(c.msgs)].bytes|
    requires c'.msgs == c.msgs && c'.wire == c.wire + c.msgs[SentPrefix(c.msgs)].bytes[c.sendOffset..offset]
    requires c'.registered == c.registered && c'.sendOffset == offset
    ensures Framed(c')
  {
    hide SentPrefix, Flatten;
    PartAdded(Flatten(c.registered[..PacketsSent(c)]), c.msgs[SentPrefix(c.msgs)].bytes, c.sendOffset, offset);
  }

  lemma PartAdded(before: seq<byte>, bytes: seq<byte>, from: nat, to: nat)
    requires from <= to <= |bytes|
    ensures before + bytes[..from] + bytes[from..to] == before + bytes[..to]
  {
    assert bytes[..from] + bytes[from..to] == bytes[..to];
  }

  /** Sending the next message, in part or to its end. */
  lemma TransmitFramed(c: Client, inflight: bool, t: Turn)
    requires QueueOk(c) && Framed(c) && SentPrefix(c.msgs) < |c.msgs|
    ensures Framed(Transmit(c, SentPrefix(c.msgs), inflight, t).client)
  {
    FramedOffset(c);
    hide QueueOk, AfterSending, CompletesOnSend, AwaitsAckOnSend, MessageOk, SentPrefix, Framed;
    var k := SentPrefix(c.msgs);
    var m, c' := c.msgs[k], Transmit(c, k, inflight, t).client;
    MessageAt(c, k);
    KnownType(m, t.after);
    if t.reply < 0 {
      SameWire(c, c');
    } else {
      var offset := c.sendOffset + Min(t.reply, |m.bytes| - c.sendOffset);
      if offset < |m.bytes| {
        PartFramed(c, offset, c');
      } else {
        assert m.bytes[c.sendOffset..offset] == m.bytes[c.sendOffset..];
        WholeFramed(c, AfterSending(m, t.after), c');
      }
    }
  }

  lemma KnownType(m: Message, now: int)
    requires MessageOk(m)
    ensures CompletesOnSend(m) || AwaitsAckOnSend(m)
    ensures !AfterSending(m, now).state.Unsent?
  {}

  lemma NotBlocked(msgs: seq<Message>, i: nat)
    requires i < |msgs| && AtMostOnePending(msgs) && PendingQos2(msgs[i])
    ensures !AnyPending(msgs, i)
  {}

  lemma TurnFramed(c: Client, i: nat, t: Turn)
    requires QueueOk(c) && Framed(c) && i < |c.msgs| && Calm(c, SendTurn(i, t))
    ensures Framed(After(c, SendTurn(i, t)))
  {
    hide QueueOk, Framed, Transmit, QosOf, TimedOut, AnyPending, AllSent, AtMostOnePending;
    var m := c.msgs[i];
    SentPrefixCovers(c.msgs, i);
    if m.state.Unsent? {
      assert SentPrefix(c.msgs) == i;
      if PendingQos2(m) { NotBlocked(c.msgs, i); }
      TransmitFramed(c, AnyPending(c.msgs, i) || PendingQos2(m), t);
    }
  }

  lemma CalmEffectFramed(c: Client, e: Effect)
    requires QueueOk(c) && Framed(c) && Allowed(c, e) && Calm(c, e)
    ensures Framed(After(c, e))
  {
    hide QueueOk, Framed, SendOne, AnyPending, Cleaned, Unpack, AckTarget, PushGuard, PackedSize, AtMostOnePending,
         AllSent;
    match e
    case Tidy => TidyFramed(c);
    case Push(r, stale) => AppendFramed(c, r, stale);
    case SendTurn(i, t) => TurnFramed(c, i, t);
    case LogAck(consumed, r, i) => CompleteFramed(c, i, After(c, e));
    case Deliver(consumed, r, stale) =>
      AppendFramed(c, PubxxxRequest(PUBREC, r.packetId), stale);
      SameWire(Append(c, PubxxxRequest(PUBREC, r.packetId), stale), After(c, e));
    case Arrive(_) => SameWire(c, After(c, e));
    case Log(_, _, _) => SameWire(c, After(c, e));
    case Adjust(_, _, _, _) => SameWire(c, After(c, e));
  }

  lemma {:induction false} CalmPathFramed(c: Client, es: seq<Effect>, c': Client)
    requires QueueOk(c) && Framed(c) && Path(true, c, es, c')
    ensures Framed(c')
    decreases |es|
  {
    hide QueueOk, Framed, Allowed, Calm;
    if es != [] {
      CalmEffectFramed(c, es[0]);
      EffectKeeps(c, es[0]);
      CalmPathFramed(After(c, es[0]), es[1..], c');
    }
  }

  lemma InitialFramed(setup: Setup, unread: seq<byte>)
    ensures Framed(Initial(setup, unread))
  {}

  lemma CalmRunFramed(setup: Setup, unread: seq<byte>, events: seq<Event>)
    requires CalmRun(Initial(setup, unread), events)
    ensures var c := Run(Initial(setup, unread), events); QueueOk(c) && Framed(c)
  {
    var c0 := Initial(setup, unread);
    hide QueueOk, Framed, Run, CalmRun, Path;
    InitialOk(setup, unread);
    InitialFramed(setup, unread);
    var es := RunPath(true, c0, events);
    CalmPathFramed(c0, es, Run(c0, events));
    RunOk(c0, events);
  }

  /** Over any interleaving of calls, with any partial writes, on a connection on which no response times out, at
      most one queued QoS 2 PUBLISH is incomplete when sending, and only sent packets are acknowledged: the wire
      carries the registered packets in order, each once, and then exactly the started part of the next one. */
  lemma WireIsFramed(setup: Setup, unread: seq<byte>, events: seq<Event>)
    requires CalmRun(Initial(setup, unread), events)
    ensures var c := Run(Initial(setup, unread), events);
            var n := PacketsSent(c);
            && 0 <= n <= |c.registered|
            && (if n < |c.registered| then
                  c.sendOffset < |c.registered[n]|
                  && c.wire == Flatten(c.registered[..n]) + c.registered[n][..c.sendOffset]
                else c.sendOffset == 0 && c.wire == Flatten(c.registered))
  {
    var c := Run(Initial(setup, unread), events);
    hide QueueOk, Run, CalmRun;
    CalmRunFramed(setup, unread, events);
    if SentPrefix(c.msgs) < |c.msgs| { NextPacket(c); } else { assert c.registered[..PacketsSent(c)] == c.registered; }
  }

  /** How many bytes of message i, sent from its start, the socket takes; none while an earlier QoS 2 PUBLISH holds it
      back. */
  function Taken(c: Client, i: nat, t: Turn): nat
    requires i < |c.msgs|
  {
    if t.reply <= 0 || (PendingQos2(c.msgs[i]) && AnyPending(c.msgs, i)) then 0 else Min(t.reply, |c.msgs[i].bytes|)
  }

  /** Why timeouts are excluded: when a message that was sent times out, the framing survives exactly if nothing
      of another message is half sent, the resend stops short of its end, and the bytes it hands over happen to
      be those the next unsent packet starts with. */
  lemma TimeoutKeepsFramingIff(c: Client, i: nat, t: Turn)
    requires QueueOk(c) && Framed(c) && i < |c.msgs| && TimedOut(c.msgs[i], t.now, c.responseTimeout)
    ensures var k, m, n := SentPrefix(c.msgs), c.msgs[i], Taken(c, i, t);
            Framed(After(c, SendTurn(i, t))) <==>
              && c.sendOffset == 0 && n < |m.bytes|
              && (n == 0 || (k < |c.msgs| && n < |c.msgs[k].bytes| && m.bytes[..n] == c.msgs[k].bytes[..n]))
  {
    TimeoutTurn(c, i, t);
    NotEmpty(c, i);
    SameFrontier(c, i, After(c, SendTurn(i, t)));
    hide QueueOk, AfterSending, After, PendingQos2, AnyPending, Flatten, Framed, SentPrefix, PacketsSent;
    var k, m, n, c' := SentPrefix(c.msgs), c.msgs[i], Taken(c, i, t), After(c, SendTurn(i, t));
    var flat := Flatten(c.registered[..PacketsSent(c)]);
    if k < |c.msgs| {
      ResendMatches(flat, c.msgs[k].bytes, c.sendOffset, m.bytes, n, c'.sendOffset);
    } else {
      assert |c'.wire| == |flat| + n;
    }
  }

  /** Sending an already sent message again does not move the frontier, so framing is a matter of wire and offset. */
  lemma SameFrontier(c: Client, i: nat, c': Client)
    requires Framed(c) && i < |c.msgs| && !c.msgs[i].state.Unsent? && c'.registered == c.registered
    requires c'.msgs == c.msgs || (exists m :: c'.msgs == c.msgs[i := m] && !m.state.Unsent?)
    ensures var k, flat := SentPrefix(c.msgs), Flatten(c.registered[..PacketsSent(c)]);
            && 0 <= PacketsSent(c) <= |c.registered|
            && (k < |c.msgs| ==> c.sendOffset < |c.msgs[k].bytes| && c.wire == flat + c.msgs[k].bytes[..c.sendOffset])
            && (k == |c.msgs| ==> c.sendOffset == 0 && c.wire == flat)
            && (Framed(c') <==>
                  if k < |c.msgs|
                  then c'.sendOffset < |c.msgs[k].bytes| && c'.wire == flat + c.msgs[k].bytes[..c'.sendOffset]
                  else c'.sendOffset == 0 && c'.wire == flat)
  {
    hide SentPrefix, Flatten;
    SentPrefixIs(c'.msgs, SentPrefix(c.msgs));
  }

  /** Message i as a turn finds it: a timeout has reset the send offset. */
  function AfterCheck(c: Client, i: nat, t: Turn): Client
    requires i < |c.msgs|
  {
    if TimedOut(c.msgs[i], t.now, c.responseTimeout) then c.(timeouts := c.timeouts + 1, sendOffset := 0) else c
  }

  predicate IsSent(c: Client, i: nat, t: Turn)
    requires i < |c.msgs|
  {
    && (c.msgs[i].state.Unsent? || TimedOut(c.msgs[i], t.now, c.responseTimeout))
    && !(PendingQos2(c.msgs[i]) && AnyPending(c.msgs, i))
  }

  lemma TurnIsTransmit(c: Client, i: nat, t: Turn)
    requires i < |c.msgs|
    ensures After(c, SendTurn(i, t)) ==
            if IsSent(c, i, t)
            then Transmit(AfterCheck(c, i, t), i, AnyPending(c.msgs, i) || PendingQos2(c.msgs[i]), t).client
            else AfterCheck(c, i, t)
  {
    hide TimedOut, PendingQos2, AnyPending, Transmit;
  }

  /** What a turn does with a message that has timed out. */
  lemma TimeoutTurn(c: Client, i: nat, t: Turn)
    requires QueueOk(c) && i < |c.msgs| && TimedOut(c.msgs[i], t.now, c.responseTimeout)
    ensures Resent(c, i, Taken(c, i, t), After(c, SendTurn(i, t)))
  {
    MessageAt(c, i);
    NotEmpty(c, i);
    TurnIsTransmit(c, i, t);
    hide QueueOk, PendingQos2, AnyPending, Transmit, After;
    if IsSent(c, i, t) {
      ResentFromStart(AfterCheck(c, i, t), i, AnyPending(c.msgs, i) || PendingQos2(c.msgs[i]), t);
    }
  }

  /** n bytes of message i have been sent from its start, and nothing but its own fields may have changed in the
      queue. */
  ghost predicate Resent(c: Client, i: nat, n: nat, c': Client) {
    && i < |c.msgs| && n <= |c.msgs[i].bytes|
    && c'.wire == c.wire + c.msgs[i].bytes[..n] && c'.registered == c.registered
    && c'.sendOffset == (if n < |c.msgs[i].bytes| then n else 0)
    && (c'.msgs == c.msgs || (exists m' :: c'.msgs == c.msgs[i := m'] && !m'.state.Unsent?))
  }

  lemma ResentFromStart(c: Client, i: nat, inflight: bool, t: Turn)
    requires i < |c.msgs| && MessageOk(c.msgs[i]) && |c.msgs[i].bytes| > 0 && c.sendOffset == 0
             && !c.msgs[i].state.Unsent?
    ensures var n := if t.reply <= 0 then 0 else Min(t.reply, |c.msgs[i].bytes|);
            Resent(c, i, n, Transmit(c, i, inflight, t).client)
  {
    KnownType(c.msgs[i], t.after);
    hide AfterSending, CompletesOnSend, AwaitsAckOnSend, MessageOk;
  }

  /** The wire after a resend, against the packets sent and a start of the next one. */
  lemma ResendMatches(flat: seq<byte>, next: seq<byte>, offset: nat, resent: seq<byte>, n: nat, offset': nat)
    requires offset < |next| && n <= |resent| && resent != [] && offset' == if n < |resent| then n else 0
    ensures offset' < |next| && (flat + next[..offset]) + resent[..n] == flat + next[..offset'] <==>
              offset == 0 && n < |resent| && (n == 0 || (n < |next| && resent[..n] == next[..n]))
  {
    var left := (flat + next[..offset]) + resent[..n];
    assert |left| == |flat| + offset + n;
    if offset == 0 && n < |resent| && n < |next| {
      var right := flat + next[..n];
      assert left[|flat|..] == resent[..n] && right[|flat|..] == next[..n];
      if resent[..n] == next[..n] { assert left == right; }
    }
  }

  // ----- The other two conditions of a calm connection -----

  /** Acknowledging a message that is not complete keeps the framing exactly if the message was sent. */
  lemma AckKeepsFramingIff(c: Client, consumed: nat, r: Response, i: nat)
    requires QueueOk(c) && Framed(c) && Allowed(c, LogAck(consumed, r, i))
    requires !c.msgs[i].state.Complete?
    ensures Framed(After(c, LogAck(consumed, r, i))) <==> !c.msgs[i].state.Unsent?
  {
    var c' := After(c, LogAck(consumed, r, i));
    hide QueueOk, Allowed, After, Framed, Flatten, SentPrefix;
    if c.msgs[i].state.Unsent? {
      UnsentCompleted(c, i, c');
    } else {
      CompleteFramed(c, i, c');
    }
  }

  /** Completing an unsent message breaks the framing: the frontier passes its packet, or comes to lie before it. */
  lemma UnsentCompleted(c: Client, i: nat, c': Client)
    requires QueueOk(c) && Framed(c) && i < |c.msgs| && c.msgs[i].state.Unsent?
    requires c'.msgs == c.msgs[i := c.msgs[i].(state := Complete)]
    requires c'.registered == c.registered && c'.wire == c.wire
    ensures !Framed(c')
  {
    hide QueueOk, SentPrefix, Flatten, Framed;
    var k := SentPrefix(c.msgs);
    FramedTail(c, i);
    if i > k {
      SentPrefixIsStill(c, i, c');
      if Framed(c') { FramedTail(c', i); }
    } else {
      var j := SentPrefixNext(c, c.msgs[i].(state := Complete));
      NextPacket(c);
      FrontierInWire(c);
      if Framed(c') { FrontierInWire(c'); }
    }
  }

  /** The wire reaches from the frontier's packet on as far as the send offset. */
  lemma FrontierInWire(c: Client)
    requires Framed(c)
    ensures 0 <= PacketsSent(c) <= |c.registered|
    ensures |Flatten(c.registered[..PacketsSent(c)])| <= |c.wire|
    ensures SentPrefix(c.msgs) < |c.msgs| ==>
              |c.wire| < |Flatten(c.registered[..PacketsSent(c)])| + |c.msgs[SentPrefix(c.msgs)].bytes|
  {
    hide SentPrefix, Flatten;
  }

  lemma FramedTail(c: Client, i: nat)
    requires Framed(c) && i < |c.msgs|
    ensures i < SentPrefix(c.msgs) <==> !c.msgs[i].state.Unsent?
  {}

  /** Where a turn past the next unsent message would end in its packet; this happens when that one is held back. */
  function EndOfTurn(c: Client, i: nat, t: Turn): int
    requires i < |c.msgs|
  {
    c.sendOffset + Min(t.reply, |c.msgs[i].bytes| - c.sendOffset)
  }

  /** A turn that passes over the next unsent message, as when it is a QoS 2 PUBLISH held back by another one, keeps the
      framing exactly if it sends nothing, or stops inside the later packet after bytes that the packet passed over
      has at the same place. */
  lemma OvertakingKeepsFramingIff(c: Client, i: nat, t: Turn)
    requires QueueOk(c) && Framed(c) && !c.lost && SentPrefix(c.msgs) < i < |c.msgs|
    ensures var k, off, end := SentPrefix(c.msgs), c.sendOffset, EndOfTurn(c, i, t);
            Framed(After(c, SendTurn(i, t))) && !After(c, SendTurn(i, t)).lost <==>
              || (PendingQos2(c.msgs[i]) && AnyPending(c.msgs, i))
              || (off <= |c.msgs[i].bytes| && t.reply < 0)
              || (off <= end < |c.msgs[i].bytes| && end < |c.msgs[k].bytes|
                  && c.msgs[i].bytes[off..end] == c.msgs[k].bytes[off..end])
  {
    FramedTail(c, i);
    var c' := After(c, SendTurn(i, t));
    hide QueueOk, Flatten, SentPrefix, PendingQos2, AnyPending, Transmit, Framed;
    if PendingQos2(c.msgs[i]) && AnyPending(c.msgs, i) {
      SameWire(c, c');
    } else {
      OvertakingTransmit(c, i, AnyPending(c.msgs, i) || PendingQos2(c.msgs[i]), t);
    }
  }

  lemma OvertakingTransmit(c: Client, i: nat, inflight: bool, t: Turn)
    requires QueueOk(c) && Framed(c) && !c.lost && SentPrefix(c.msgs) < i < |c.msgs| && c.msgs[i].state.Unsent?
    ensures var k, off, end := SentPrefix(c.msgs), c.sendOffset, EndOfTurn(c, i, t);
            Framed(Transmit(c, i, inflight, t).client) && !Transmit(c, i, inflight, t).client.lost <==>
              || (off <= |c.msgs[i].bytes| && t.reply < 0)
              || (off <= end < |c.msgs[i].bytes| && end < |c.msgs[k].bytes|
                  && c.msgs[i].bytes[off..end] == c.msgs[k].bytes[off..end])
  {
    var k, off, m, c' := SentPrefix(c.msgs), c.sendOffset, c.msgs[i], Transmit(c, i, inflight, t).client;
    MessageAt(c, i);
    KnownType(m, t.after);
    FramedOffset(c);
    hide QueueOk, Flatten, SentPrefix, Framed, MessageOk, AfterSending, CompletesOnSend, AwaitsAckOnSend;
    if t.reply < 0 || off > |m.bytes| {
      SameWire(c, c');
    } else {
      var end := EndOfTurn(c, i, t);
      if end < |m.bytes| {
        PartOvertakes(c, m.bytes[off..end], c');
      } else {
        SentPrefixIsStill(c, i, c');
        if Framed(c') { FramedTail(c', i); }
      }
    }
  }

  lemma SentPrefixIsStill(c: Client, i: nat, c': Client)
    requires SentPrefix(c.msgs) < i < |c.msgs| && |c'.msgs| == |c.msgs| && c'.msgs == c.msgs[i := c'.msgs[i]]
    ensures SentPrefix(c'.msgs) == SentPrefix(c.msgs)
  {
    hide SentPrefix;
    SentPrefixIs(c'.msgs, SentPrefix(c.msgs));
  }

  lemma PartOvertakes(c: Client, part: seq<byte>, c': Client)
    requires Framed(c) && SentPrefix(c.msgs) < |c.msgs| && c'.msgs == c.msgs && c'.registered == c.registered
    requires c'.wire == c.wire + part && c'.sendOffset == c.sendOffset + |part|
    ensures var next, off, end := c.msgs[SentPrefix(c.msgs)].bytes, c.sendOffset, c.sendOffset + |part|;
            Framed(c') <==> end < |next| && part == next[off..end]
  {
    var next, off, end := c.msgs[SentPrefix(c.msgs)].bytes, c.sendOffset, c.sendOffset + |part|;
    hide SentPrefix, Flatten;
    if end < |next| {
      SplitPart(Flatten(c.registered[..PacketsSent(c)]), next, off, part);
    }
  }

  lemma SplitPart(flat: seq<byte>, next: seq<byte>, off: nat, part: seq<byte>)
    requires off + |part| <= |next|
    ensures (flat + next[..off]) + part == flat + next[..off + |part|] <==> part == next[off..off + |part|]
  {
    var left, right := (flat + next[..off]) + part, flat + next[..off + |part|];
    TakeMore(next, off, |part|);
    assert left[|flat| + off..] == part && right[|flat| + off..] == next[off..off + |part|];
  }
}
