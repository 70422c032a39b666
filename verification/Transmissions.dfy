/** What the transmissions of a message are on the wire (section 3.3.1.1 of MQTT 3.1.1). */
module Transmissions {
  import opened Bytes
  import opened MqttConstants
  import opened Messages
  import opened ClientSpec
  import opened Effects
  import opened QueueInvariants
  import opened WireFraming

  /** A turn that completes a transmission of message i hands over its bytes from the send offset on, and from the start
      if the message had timed out. */
  lemma CompletedTurn(c: Client, i: nat, t: Turn)
    requires i < |c.msgs| && After(c, SendTurn(i, t)).msgs[i].sent != c.msgs[i].sent
    ensures var m, c' := c.msgs[i], After(c, SendTurn(i, t));
            var from := if TimedOut(m, t.now, c.responseTimeout) then 0 else c.sendOffset;
            && c'.msgs[i].sent == m.sent + [m.bytes] && c'.sendOffset == 0
            && from <= |m.bytes| && c'.wire == c.wire + m.bytes[from..]
  {
    TurnIsTransmit(c, i, t);
    hide PendingQos2, AnyPending, After, Transmit, TimedOut;
    if IsSent(c, i, t) {
      CompletedTransmit(AfterCheck(c, i, t), i, AnyPending(c.msgs, i) || PendingQos2(c.msgs[i]), t);
    }
  }

  lemma CompletedTransmit(c: Client, i: nat, inflight: bool, t: Turn)
    requires i < |c.msgs| && Transmit(c, i, inflight, t).client.msgs[i].sent != c.msgs[i].sent
    ensures var m, c' := c.msgs[i], Transmit(c, i, inflight, t).client;
            && c'.msgs[i].sent == m.sent + [m.bytes] && c'.sendOffset == 0
            && c.sendOffset <= |m.bytes| && c'.wire == c.wire + m.bytes[c.sendOffset..]
  {
    SentOnce(c.msgs[i], t.after);
    hide AfterSending, CompletesOnSend, AwaitsAckOnSend;
  }

  lemma SentOnce(m: Message, now: int)
    ensures AfterSending(m, now).sent == m.sent + [m.bytes]
  {}

  /** In every state of every run, a PUBLISH that has timed out and that the socket takes to its end is handed over
      whole, as registered but for the DUP bit, which is set at QoS 1 and at no other: a QoS 2 PUBLISH is sent again
      without it. */
  lemma RetransmissionHasDupIff(setup: Setup, unread: seq<byte>, es: seq<Effect>, c: Client, i: nat, t: Turn)
    requires Path(false, Initial(setup, unread), es, c)
    requires i < |c.msgs| && c.msgs[i].controlType == PUBLISH
    requires TimedOut(c.msgs[i], t.now, c.responseTimeout) && t.reply >= |c.msgs[i].bytes|
    ensures var m, c' := c.msgs[i], After(c, SendTurn(i, t));
            && |c.wire| < |c'.wire| && c'.wire[..|c.wire|] == c.wire
            && (var again := c'.wire[|c.wire|..];
                && (again == m.original || again == WithDup(m.original))
                && (!DupClear(again) <==> QosOf(m) == 1))
            && |c.msgs| <= |c.registered| && m.original == c.registered[|c.registered| - |c.msgs| + i]
  {
    hide Path, QueueOk, After, TimedOut, WithDup, MessageOk, DupClear, PendingQos2, AnyPending;
    InitialOk(setup, unread);
    PathKeeps(false, Initial(setup, unread), es, c);
    TimeoutTurn(c, i, t);
    MessageAt(c, i);
    LatestAt(c, i);
    NotEmpty(c, i);
    NotHeldBack(c, i, t);
    ResentDup(c.msgs[i]);
    var m, c' := c.msgs[i], After(c, SendTurn(i, t));
    assert m.bytes[..|m.bytes|] == m.bytes;
    assert c'.wire[|c.wire|..] == m.bytes && c'.wire[..|c.wire|] == c.wire;
  }

  lemma LatestAt(c: Client, i: nat)
    requires QueueOk(c) && i < |c.msgs|
    ensures |c.msgs| <= |c.registered| && c.msgs[i].original == c.registered[|c.registered| - |c.msgs| + i]
  {}

  /** A message that has been sent is never held back. */
  lemma NotHeldBack(c: Client, i: nat, t: Turn)
    requires QueueOk(c) && i < |c.msgs| && TimedOut(c.msgs[i], t.now, c.responseTimeout)
    ensures c.msgs[i].state.AwaitingAck? && !(PendingQos2(c.msgs[i]) && AnyPending(c.msgs, i))
    ensures t.reply >= |c.msgs[i].bytes| > 0 ==> Taken(c, i, t) == |c.msgs[i].bytes|
  {
    hide IsQos2Publish, MessagesOk, DistinctIds, WithinMemory, QueueIsLatest;
  }

  lemma ResentDup(m: Message)
    requires MessageOk(m) && m.controlType == PUBLISH && m.state.AwaitingAck?
    ensures m.bytes != [] && (m.bytes == m.original || m.bytes == WithDup(m.original))
    ensures !DupClear(m.bytes) <==> QosOf(m) == 1
  {
    if QosOf(m) == 1 { OriginalFirstByte(m); }
  }

  /** In every state of every run on a calm connection, the first transmission of a message puts its packet as
      registered, for a PUBLISH with DUP clear, behind the packets registered before it. */
  lemma FirstTransmissionIsOriginal(setup: Setup, unread: seq<byte>, es: seq<Effect>, c: Client, i: nat, t: Turn)
    requires Path(true, Initial(setup, unread), es, c) && i < |c.msgs| && Calm(c, SendTurn(i, t))
    requires c.msgs[i].state.Unsent? && !After(c, SendTurn(i, t)).msgs[i].state.Unsent?
    ensures var m, n := c.msgs[i], PacketsSent(c);
            && 0 <= n < |c.registered| && c.registered[n] == m.original
            && After(c, SendTurn(i, t)).wire == Flatten(c.registered[..n]) + m.original
            && (m.controlType == PUBLISH ==> DupClear(m.original))
  {
    hide Path, Framed, QueueOk, After, Calm;
    var m, c' := c.msgs[i], After(c, SendTurn(i, t));
    InitialOk(setup, unread);
    InitialFramed(setup, unread);
    PathKeeps(true, Initial(setup, unread), es, c);
    CalmPathFramed(Initial(setup, unread), es, c);
    MessageAt(c, i);
    CalmTurnSentUpTo(c, i, t);
    NextPacket(c);
    TurnChangedSent(c, i, t);
    CompletedTurn(c, i, t);
    JoinAt(Flatten(c.registered[..PacketsSent(c)]), m.bytes, c.sendOffset);
  }

  lemma TurnChangedSent(c: Client, i: nat, t: Turn)
    requires i < |c.msgs| && c.msgs[i].state.Unsent? && !After(c, SendTurn(i, t)).msgs[i].state.Unsent?
    ensures After(c, SendTurn(i, t)).msgs[i].sent != c.msgs[i].sent && !TimedOut(c.msgs[i], t.now, c.responseTimeout)
  {
    var sent := TurnResult(c, i, t);
    hide After;
  }

  lemma CalmTurnSentUpTo(c: Client, i: nat, t: Turn)
    requires Framed(c) && i < |c.msgs| && Calm(c, SendTurn(i, t)) && c.msgs[i].state.Unsent?
    ensures SentPrefix(c.msgs) == i && c.sendOffset < |c.msgs[i].bytes|
    ensures 0 <= PacketsSent(c) <= |c.registered|
    ensures c.wire == Flatten(c.registered[..PacketsSent(c)]) + c.msgs[i].bytes[..c.sendOffset]
  {
    hide AtMostOnePending, TimedOut;
    SentPrefixCovers(c.msgs, i);
  }
}
