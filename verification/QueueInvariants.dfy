/** What is true of the send queue in every reachable state. */
module QueueInvariants {
  import opened Bytes
  import opened MqttConstants
  import opened FixedHeaders
  import opened Packers
  import opened Unpackers
  import opened Messages
  import opened ClientSpec
  import opened Effects

  // ----- The invariants -----

  predicate DupClear(bytes: seq<byte>) {
    bytes != [] && bytes[0] / 8 % 2 == 0
  }

  /** The transmissions of a message: at quality of service 1 the first is the packet as registered and
      every later one differs from it in the DUP bit alone; any other packet is always sent as registered. */
  ghost predicate HistoryOk(m: Message) {
    if m.controlType == PUBLISH && QosOf(m) == 1 then
      && DupClear(m.original)
      && (m.sent != [] ==> m.sent[0] == m.original)
      && (forall j :: 1 <= j < |m.sent| ==> m.sent[j] == WithDup(m.original))
      && m.bytes == (if m.sent == [] then m.original else WithDup(m.original))
    else
      && (m.controlType == PUBLISH ==> DupClear(m.original))
      && m.bytes == m.original && forall j :: 0 <= j < |m.sent| ==> m.sent[j] == m.original
  }

  /** A message for which there is no acknowledgement: a PUBACK, a PUBCOMP, a DISCONNECT or a PUBLISH at QoS 0. */
  predicate IsFinal(m: Message) {
    || m.controlType == 4 || m.controlType == 7 || m.controlType == 14
    || (m.controlType == 3 && m.bytes != [] && m.bytes[0] / 2 % 4 == 0)
  }

  ghost predicate MessageOk(m: Message) {
    && m.bytes != [] && m.bytes[0] / 16 == m.controlType
    && (m.controlType == PUBLISH ==> QosOf(m) <= 2)
    && (CompletesOnSend(m) || AwaitsAckOnSend(m))
    && HistoryOk(m)
    && (m.state.Unsent? ==> m.sent == [])
    && (m.state.AwaitingAck? ==> m.sent != [])
    && (IsFinal(m) ==> m.sent == [] || (m.state.Complete? && |m.sent| == 1))
  }

  ghost predicate MessagesOk(msgs: seq<Message>) {
    forall i :: 0 <= i < |msgs| ==> MessageOk(msgs[i])
  }

  /** Two messages that an acknowledgement with an id could both be for. */
  predicate SameFamily(a: Message, b: Message) {
    || (DrawsId(a.controlType) && DrawsId(b.controlType))
    || (a.controlType == PUBREL && b.controlType == PUBREL)
    || (a.controlType == PUBREC && b.controlType == PUBREC)
  }

  ghost predicate DistinctIds(msgs: seq<Message>) {
    && (forall i :: 0 <= i < |msgs| ==> DrawsId(msgs[i].controlType) ==> msgs[i].packetId != 0)
    && (forall i, j :: 0 <= i < j < |msgs| && SameFamily(msgs[i], msgs[j]) ==> msgs[i].packetId != msgs[j].packetId)
  }

  /** Before a QoS 2 PUBLISH that awaits its PUBREC, every QoS 2 PUBLISH is complete. */
  ghost predicate OneInFlight(msgs: seq<Message>) {
    forall i, j :: 0 <= i < j < |msgs| && IsQos2Publish(msgs[i]) && IsQos2Publish(msgs[j]) && msgs[j].state.AwaitingAck?
      ==> msgs[i].state.Complete?
  }

  ghost predicate WithinMemory(c: Client) {
    TotalSize(c.msgs) + |c.msgs| * c.headerSize <= c.memSize
  }

  /** The queue holds the latest registered packets, in order. */
  ghost predicate QueueIsLatest(c: Client) {
    && |c.msgs| <= |c.registered|
    && forall i :: 0 <= i < |c.msgs| ==> c.msgs[i].original == c.registered[|c.registered| - |c.msgs| + i]
  }

  ghost predicate QueueOk(c: Client) {
    MessagesOk(c.msgs) && DistinctIds(c.msgs) && OneInFlight(c.msgs) && WithinMemory(c) && QueueIsLatest(c)
  }

  // ----- Each effect keeps them -----

  lemma FirstByte(r: Request)
    requires RequestError(r) == 0
    ensures PacketBytes(r)[0] == TypeOf(r) * 16 + HeaderOf(r).flags
  {}

  lemma QueuedOk(r: Request, stale: Stale)
    requires RequestError(r) == 0
    requires r.PubxxxRequest? ==> PUBACK <= r.kind <= PUBCOMP
    ensures MessageOk(Queued(r, stale))
  {
    FirstByte(r);
    var b, t, f := PacketBytes(r)[0], TypeOf(r), HeaderOf(r).flags;
    NibblesOf(t, f);
    if r.PublishRequest? { PublishFlags(r.publishFlags); }
  }

  lemma DupTwice(bytes: seq<byte>)
    ensures WithDup(WithDup(bytes)) == WithDup(bytes)
  {
    if bytes != [] { DupByteKeeps(bytes[0]); }
  }

  lemma AfterSendingOk(m: Message, now: int)
    requires MessageOk(m) && !m.state.Complete?
    ensures MessageOk(AfterSending(m, now))
  {
    FinalIsCompleted(m, now);
    hide WithDup, QosOf, IsFinal;
    SentKeepsQos(m, now);
    DupTwice(m.original);
    DupKeepsType(m.bytes);
    var m' := AfterSending(m, now);
    assert m'.sent == m.sent + [m.bytes];
    assert HistoryOk(m');
  }

  lemma FinalIsCompleted(m: Message, now: int)
    requires m.bytes != []
    ensures IsFinal(m) <==> CompletesOnSend(m)
    ensures IsFinal(AfterSending(m, now)) <==> IsFinal(m)
  {
    SentKeepsQos(m, now);
    hide WithDup;
    DupKeepsType(m.bytes);
  }

  lemma DupKeepsType(bytes: seq<byte>)
    ensures bytes != [] ==> WithDup(bytes) != [] && WithDup(bytes)[0] / 16 == bytes[0] / 16
  {
    if bytes != [] { DupByteKeeps(bytes[0]); }
  }

  /** What a turn of the send loop leaves alone. */
  predicate SendsOnly(c: Client, c': Client) {
    c' == c.(msgs := c'.msgs, wire := c'.wire, sendOffset := c'.sendOffset, error := c'.error,
             timeOfLastSend := c'.timeOfLastSend, timeouts := c'.timeouts, lost := c'.lost)
  }

  lemma TransmitResult(c: Client, i: nat, inflight: bool, t: Turn) returns (sent: bool)
    requires i < |c.msgs|
    ensures var m, c' := c.msgs[i], Transmit(c, i, inflight, t).client;
            SendsOnly(c, c') && c'.msgs == c.msgs[i := if sent then AfterSending(m, t.after) else m]
  {
    hide AfterSending, CompletesOnSend, AwaitsAckOnSend, Min;
    var m, c' := c.msgs[i], Transmit(c, i, inflight, t).client;
    sent := c'.msgs != c.msgs;
    assert c.msgs == c.msgs[i := m];
  }

  /** The message at i after a turn of the send loop: as it was, or as after sending, which takes that no earlier
      QoS 2 PUBLISH is incomplete if it is one itself. */
  lemma TurnResult(c: Client, i: nat, t: Turn) returns (sent: bool)
    requires i < |c.msgs|
    ensures var m, c' := c.msgs[i], After(c, SendTurn(i, t));
            && SendsOnly(c, c')
            && c'.msgs == c.msgs[i := if sent then AfterSending(m, t.after) else m]
            && (sent ==> !m.state.Complete? && !(IsQos2Publish(m) && AnyPending(c.msgs, i)))
  {
    hide AfterSending, AnyPending, QosOf, Transmit;
    var m, c' := c.msgs[i], After(c, SendTurn(i, t));
    var timedOut := TimedOut(m, t.now, c.responseTimeout);
    var c1 := if timedOut then c.(timeouts := c.timeouts + 1, sendOffset := 0) else c;
    sent := TransmitResult(c1, i, AnyPending(c.msgs, i) || PendingQos2(m), t);
    if !((m.state.Unsent? || timedOut) && !(PendingQos2(m) && AnyPending(c.msgs, i))) {
      sent := false;
      assert c.msgs == c.msgs[i := m];
    }
  }

  lemma AfterSendingKeeps(m: Message, now: int)
    ensures var m' := AfterSending(m, now);
            && m'.controlType == m.controlType && m'.packetId == m.packetId && m'.original == m.original
            && |m'.bytes| == |m.bytes| && IsQos2Publish(m') == IsQos2Publish(m)
  {
    SentKeepsQos(m, now);
  }

  /** Replacing a message by one of the same type, id and size. */
  lemma {:induction false} TotalSizeReplaced(msgs: seq<Message>, i: nat, m: Message)
    requires i < |msgs| && |m.bytes| == |msgs[i].bytes|
    ensures TotalSize(msgs[i := m]) == TotalSize(msgs)
  {
    if i > 0 {
      assert msgs[i := m][1..] == msgs[1..][i - 1 := m];
      TotalSizeReplaced(msgs[1..], i - 1, m);
    } else {
      assert msgs[i := m][1..] == msgs[1..];
    }
  }

  lemma SuffixKeeps(msgs: seq<Message>, k: nat)
    requires k <= |msgs| && MessagesOk(msgs) && DistinctIds(msgs) && OneInFlight(msgs)
    ensures MessagesOk(msgs[k..]) && DistinctIds(msgs[k..]) && OneInFlight(msgs[k..])
  {
    hide MessageOk, SameFamily, IsQos2Publish;
    var ms := msgs[k..];
    assert forall i :: 0 <= i < |ms| ==> ms[i] == msgs[k + i];
  }

  lemma SuffixFits(msgs: seq<Message>, k: nat, headerSize: nat)
    requires k <= |msgs|
    ensures TotalSize(msgs[k..]) + |msgs[k..]| * headerSize <= TotalSize(msgs) + |msgs| * headerSize
  {
    hide TotalSize;
    assert msgs == msgs[..k] + msgs[k..];
    TotalSizeConcat(msgs[..k], msgs[k..]);
    Distribute(k, |msgs| - k, headerSize);
  }

  lemma Distribute(a: nat, b: nat, h: nat)
    ensures (a + b) * h == a * h + b * h && a * h >= 0
  {}

  lemma TidyKeeps(c: Client)
    requires QueueOk(c)
    ensures QueueOk(After(c, Tidy))
  {
    hide MessagesOk, DistinctIds, OneInFlight, TotalSize, CompletePrefix;
    var k := CompletePrefix(c.msgs);
    SuffixKeeps(c.msgs, k);
    SuffixFits(c.msgs, k, c.headerSize);
  }

  lemma NotFound(msgs: seq<Message>, controlType: Nibble, id: uint16)
    requires Find(msgs, controlType, Some(id)) < 0
    ensures forall i :: 0 <= i < |msgs| ==> msgs[i].controlType == controlType ==> msgs[i].packetId != id
  {
    forall i | 0 <= i < |msgs| && msgs[i].controlType == controlType ensures msgs[i].packetId != id {
      assert !Matches(msgs[i], controlType, Some(id));
    }
  }

  lemma AppendDistinct(msgs: seq<Message>, r: Request, stale: Stale)
    requires DistinctIds(msgs) && RequestError(r) == 0
    requires PushGuard(msgs, r) || (r.PubxxxRequest? && r.kind == PUBREC && Find(msgs, PUBREC, Some(r.packetId)) < 0)
    ensures DistinctIds(msgs + [Queued(r, stale)])
  {
    hide PacketBytes, FindFrom;
    var m := Queued(r, stale);
    if r.PubxxxRequest? && (r.kind == PUBREC || r.kind == PUBREL) { NotFound(msgs, r.kind, r.packetId); }
    forall i | 0 <= i < |msgs| && SameFamily(msgs[i], m) ensures msgs[i].packetId != m.packetId {
      assert msgs[i] in msgs;
    }
  }

  lemma AppendKeeps(c: Client, r: Request, stale: Stale)
    requires QueueOk(c) && Fits(c, r)
    requires PushGuard(c.msgs, r) || (r.PubxxxRequest? && r.kind == PUBREC
                                      && Find(c.msgs, PUBREC, Some(r.packetId)) < 0)
    ensures QueueOk(Append(c, r, stale))
  {
    hide MessageOk, DistinctIds, Ids, FindFrom, BodyOf, TotalSize, RequestError, HeaderBytes;
    var m := Queued(r, stale);
    QueuedOk(r, stale);
    AppendDistinct(c.msgs, r, stale);
    PackedSizeFits(c, r);
    TotalSizeConcat(c.msgs, [m]);
    OneMessage(m);
    assert (|c.msgs| + 1) * c.headerSize == |c.msgs| * c.headerSize + c.headerSize;
  }

  lemma OneMessage(m: Message)
    ensures TotalSize([m]) == |m.bytes|
  {
    assert TotalSize([m]) == |m.bytes| + TotalSize([m][1..]);
  }

  lemma PackedSizeFits(c: Client, r: Request)
    requires Fits(c, r)
    ensures |PacketBytes(r)| <= RoomOf(c)
  {
    SelfDelimitingIff(r);
  }

  lemma ReplaceKeeps(c: Client, i: nat, m: Message, c': Client)
    requires QueueOk(c) && i < |c.msgs| && MessageOk(m)
    requires m.controlType == c.msgs[i].controlType && m.packetId == c.msgs[i].packetId
             && m.original == c.msgs[i].original
    requires |m.bytes| == |c.msgs[i].bytes| && IsQos2Publish(m) == IsQos2Publish(c.msgs[i])
    requires IsQos2Publish(m) && m.state.AwaitingAck? && !c.msgs[i].state.AwaitingAck? ==> !AnyPending(c.msgs, i)
    requires c.msgs[i].state.Complete? ==> m.state.Complete?
    requires c'.msgs == c.msgs[i := m] && c'.registered == c.registered && c'.memSize == c.memSize
             && c'.headerSize == c.headerSize
    ensures QueueOk(c')
  {
    hide MessageOk, IsQos2Publish;
    TotalSizeReplaced(c.msgs, i, m);
    if IsQos2Publish(m) && m.state.AwaitingAck? && !c.msgs[i].state.AwaitingAck? {
      forall j | 0 <= j < i && IsQos2Publish(c.msgs[j]) ensures c.msgs[j].state.Complete? {
        assert !PendingQos2(c.msgs[j]);
      }
    }
  }

  lemma EffectKeeps(c: Client, e: Effect)
    requires QueueOk(c) && Allowed(c, e)
    ensures QueueOk(After(c, e))
  {
    hide QueueOk, AfterSending, AnyPending, MessageOk, Fits, PushGuard, Find, FindFrom, Cleaned, Append, IsQos2Publish;
    match e
    case Tidy => TidyKeeps(c);
    case Push(r, stale) => AppendKeeps(c, r, stale);
    case SendTurn(i, t) =>
      var m := c.msgs[i];
      var sent := TurnResult(c, i, t);
      MessageAt(c, i);
      if sent {
        AfterSendingOk(m, t.after);
        AfterSendingKeeps(m, t.after);
        ReplaceKeeps(c, i, AfterSending(m, t.after), After(c, e));
      } else {
        ReplaceKeeps(c, i, m, After(c, e));
      }
    case LogAck(consumed, r, i) =>
      MessageAt(c, i);
      CompletedOk(c.msgs[i]);
      ReplaceKeeps(c, i, c.msgs[i].(state := Complete), After(c, e));
    case Deliver(consumed, r, stale) =>
      AppendKeeps(c, PubxxxRequest(PUBREC, r.packetId), stale);
      OtherFieldsFree(Append(c, PubxxxRequest(PUBREC, r.packetId), stale), After(c, e));
    case Arrive(_) => OtherFieldsFree(c, After(c, e));
    case Log(_, _, _) => OtherFieldsFree(c, After(c, e));
    case Adjust(_, _, _, _) => OtherFieldsFree(c, After(c, e));
  }

  lemma MessageAt(c: Client, i: nat)
    requires QueueOk(c) && i < |c.msgs|
    ensures MessageOk(c.msgs[i])
  {}

  lemma CompletedOk(m: Message)
    requires MessageOk(m)
    ensures MessageOk(m.(state := Complete)) && IsQos2Publish(m.(state := Complete)) == IsQos2Publish(m)
  {}

  lemma OtherFieldsFree(c: Client, c': Client)
    requires QueueOk(c)
    requires c'.msgs == c.msgs && c'.registered == c.registered && c'.memSize == c.memSize
             && c'.headerSize == c.headerSize
    ensures QueueOk(c')
  {}

  lemma {:induction false} PathKeeps(calm: bool, c: Client, es: seq<Effect>, c': Client)
    requires QueueOk(c) && Path(calm, c, es, c')
    ensures QueueOk(c')
    decreases |es|
  {
    hide QueueOk, Allowed;
    if es != [] {
      EffectKeeps(c, es[0]);
      PathKeeps(calm, After(c, es[0]), es[1..], c');
    }
  }

  lemma InitialOk(setup: Setup, unread: seq<byte>)
    ensures QueueOk(Initial(setup, unread))
  {}

  lemma RunOk(c: Client, events: seq<Event>)
    requires QueueOk(c)
    ensures QueueOk(Run(c, events))
  {
    var es := RunPath(false, c, events);
    PathKeeps(false, c, es, Run(c, events));
  }

  // ----- What they say about every run of a client -----

  /** QoS 2 messages are sent in order, one handshake at a time: before one that awaits its PUBREC every other is
      complete, whatever is queued, acknowledged or timed out. */
  lemma Qos2GoesInOrder(setup: Setup, unread: seq<byte>, events: seq<Event>, i: nat, j: nat)
    requires var ms := Run(Initial(setup, unread), events).msgs;
             i < j < |ms| && IsQos2Publish(ms[i]) && IsQos2Publish(ms[j]) && ms[j].state.AwaitingAck?
    ensures Run(Initial(setup, unread), events).msgs[i].state.Complete?
  {
    InitialOk(setup, unread);
    RunOk(Initial(setup, unread), events);
  }

  /** So at most one QoS 2 PUBLISH awaits its PUBREC. */
  lemma OneQos2PublishInFlight(setup: Setup, unread: seq<byte>, events: seq<Event>, i: nat, j: nat)
    requires var ms := Run(Initial(setup, unread), events).msgs;
             && i < |ms| && j < |ms| && IsQos2Publish(ms[i]) && IsQos2Publish(ms[j])
             && ms[i].state.AwaitingAck? && ms[j].state.AwaitingAck?
    ensures i == j
  {
    InitialOk(setup, unread);
    RunOk(Initial(setup, unread), events);
  }

  /** No two queued messages that one acknowledgement could be for share an id: no two that draw an id, whichever of
      PUBLISH, SUBSCRIBE and UNSUBSCRIBE they are, no two PUBRELs and no two PUBRECs. */
  lemma IdsAreDistinct(setup: Setup, unread: seq<byte>, events: seq<Event>, i: nat, j: nat)
    requires var ms := Run(Initial(setup, unread), events).msgs;
             i < |ms| && j < |ms| && SameFamily(ms[i], ms[j]) && ms[i].packetId == ms[j].packetId
    ensures i == j
  {
    InitialOk(setup, unread);
    RunOk(Initial(setup, unread), events);
  }

  /** An acknowledgement that carries an id matches at most one queued message. */
  lemma AcknowledgementIsUnambiguous(setup: Setup, unread: seq<byte>, events: seq<Event>,
                                     controlType: Nibble, id: uint16, i: nat, j: nat)
    requires DrawsId(controlType) || controlType == PUBREL || controlType == PUBREC
    requires var ms := Run(Initial(setup, unread), events).msgs;
             i < |ms| && j < |ms| && Matches(ms[i], controlType, Some(id)) && Matches(ms[j], controlType, Some(id))
    ensures i == j
  {
    hide Run;
    IdsAreDistinct(setup, unread, events, i, j);
  }

  /** The DUP bit through the life of a PUBLISH: set exactly in the repeated transmissions at quality of service 1, so
      never at 2; and nothing else in the packet ever changes. */
  lemma DupHistory(setup: Setup, unread: seq<byte>, events: seq<Event>, i: nat, j: nat)
    requires var ms := Run(Initial(setup, unread), events).msgs;
             i < |ms| && ms[i].controlType == PUBLISH && j < |ms[i].sent|
    ensures var m := Run(Initial(setup, unread), events).msgs[i];
            var b := m.sent[j];
            && b != [] && m.original != [] && (b[0] / 8 % 2 == 1 <==> QosOf(m) == 1 && j > 0)
            && b[1..] == m.original[1..] && b[0] / 16 == m.original[0] / 16 == PUBLISH
            && QosBits(b[0]) == QosBits(m.original[0]) == QosOf(m) && b[0] % 2 == m.original[0] % 2
  {
    InitialOk(setup, unread);
    RunOk(Initial(setup, unread), events);
    var c := Run(Initial(setup, unread), events);
    MessageAt(c, i);
    hide QueueOk, Run;
    TransmissionOf(c.msgs[i], j);
  }

  lemma TransmissionOf(m: Message, j: nat)
    requires MessageOk(m) && m.controlType == PUBLISH && j < |m.sent|
    ensures var b := m.sent[j];
            && b != [] && m.original != [] && (b[0] / 8 % 2 == 1 <==> QosOf(m) == 1 && j > 0)
            && b[1..] == m.original[1..] && b[0] / 16 == m.original[0] / 16 == PUBLISH
            && QosBits(b[0]) == QosBits(m.original[0]) == QosOf(m) && b[0] % 2 == m.original[0] % 2
  {
    if QosOf(m) == 1 { OriginalFirstByte(m); }
  }

  lemma OriginalFirstByte(m: Message)
    requires MessageOk(m) && m.controlType == PUBLISH && QosOf(m) == 1
    ensures m.original != [] && m.original[0] / 8 % 2 == 0 && m.original[0] / 16 == PUBLISH
            && QosBits(m.original[0]) == 1
    ensures WithDup(m.original)[0] / 16 == PUBLISH && QosBits(WithDup(m.original)[0]) == 1
    ensures WithDup(m.original)[0] / 8 % 2 == 1 && WithDup(m.original)[0] % 2 == m.original[0] % 2
  {
    DupByteKeeps(m.original[0]);
  }

  /** The queue never outgrows its memory block, and staged messages stay in it in registration order. */
  lemma QueueStaysInBlock(setup: Setup, unread: seq<byte>, events: seq<Event>)
    ensures var c := Run(Initial(setup, unread), events);
            QueueIsLatest(c) && TotalSize(c.msgs) + |c.msgs| * c.headerSize <= c.memSize
  {
    InitialOk(setup, unread);
    RunOk(Initial(setup, unread), events);
  }

  /** The send loop's "malformed request" exit is never taken. */
  lemma NoMalformedRequest(c: Client, i: nat, inflight: bool, t: Turn)
    requires QueueOk(c) && i < |c.msgs| && t.reply >= 0
    ensures SendOne(c, i, inflight, t).next != Fail(ERROR_MALFORMED_REQUEST)
    ensures SendOne(c, i, inflight, t).client.error == c.error
  {
    MessageAt(c, i);
  }
}
