/** Short runs, from a client just initialised, of what the source does not promise: a new message that is dropped
    because it reuses a released id, a message repeated without DUP, a byte stream torn by a timeout, a send from beyond
    the end of a packet, and a packet that declares more than it holds. */
module ConcreteRuns {
  import opened Bytes
  import opened MqttConstants
  import opened FixedHeaders
  import opened Packers
  import opened Unpackers
  import opened Messages
  import opened PacketIds
  import opened ClientSpec
  import opened Answering
  import opened WireFraming

  const SETUP := Setup(400, 40, 64, 30, 0, 0)
  const BLANK := Stale(0, 0, 0)

  // The packets of the runs.
  const CONNECTION := ConnectRequest([97], None, None, None, None, 2, 400)
  const CONNECT_BYTES: seq<byte> := [0x10, 13, 0, 4, 77, 81, 84, 84, 4, 2, 1, 144, 0, 1, 97]
  const PING_BYTES: seq<byte> := [0xC0, 0]
  const CONNACK_BYTES: seq<byte> := [0x20, 2, 0, 0]
  const PUBREC_BYTES: seq<byte> := [0x50, 2, 0, 1]
  const PUBREL_BYTES: seq<byte> := [0x62, 2, 0, 1]
  const PUBCOMP_BYTES: seq<byte> := [0x70, 2, 0, 1]

  /** A QoS 2 PUBLISH with topic "a", id 1 and one byte of payload. */
  function Qos2(payload: byte): seq<byte> {
    [0x34, 6, 0, 1, 97, 0, 1, payload]
  }

  lemma PacketsAre()
    ensures RequestError(CONNECTION) == 0 && PacketBytes(CONNECTION) == CONNECT_BYTES
    ensures PacketBytes(PingRequest) == PING_BYTES
    ensures PacketBytes(PubxxxRequest(PUBREC, 1)) == PUBREC_BYTES
    ensures PacketBytes(PubxxxRequest(PUBCOMP, 1)) == PUBCOMP_BYTES
  {
    AcknowledgementBytes(PUBREC, 1);
    AcknowledgementBytes(PUBCOMP, 1);
    ConnectionBody();
    assert HeaderOf(CONNECTION) == FixedHeader(CONNECT, 0, 13);
    assert HeaderBytes(FixedHeader(CONNECT, 0, 13)) == [0x10, 13];
    hide BodyOf, HeaderBytes, HeaderOf, RequestError;
    assert [0x10, 13] + CONNECT_BYTES[2..] == CONNECT_BYTES;
    PingPacket();
  }

  lemma PingPacket()
    ensures PacketBytes(PingRequest) == PING_BYTES
  {}

  lemma ConnectionBody()
    ensures RequestError(CONNECTION) == 0 && BodyOf(CONNECTION) == CONNECT_BYTES[2..]
  {
    assert ConnectFlags(CONNECTION) == 2 && U16(400) == [1, 144] && Str([97]) == [0, 1] + [97];
    assert WillBytes(CONNECTION) == [] && OptionalStr(None) == [];
    hide ConnectFlags, U16, Str, WillBytes, OptionalStr;
  }

  function Fresh(bytes: seq<byte>, controlType: Nibble, packetId: uint16): Message {
    Message(bytes, Unsent, 0, controlType, packetId, bytes, [])
  }

  function Awaiting(m: Message): Message {
    m.(state := AwaitingAck, sent := [m.bytes])
  }

  function Done(m: Message): Message {
    m.(state := Complete)
  }

  const CONN := Fresh(CONNECT_BYTES, CONNECT, 0)
  const PING := Fresh(PING_BYTES, PINGREQ, 0)
  const REC := Fresh(PUBREC_BYTES, PUBREC, 1)
  const COMP := Fresh(PUBCOMP_BYTES, PUBCOMP, 1)

  /** A send call in which each turn happens at the given time and the socket takes up to the given number of bytes. */
  function SendAt(now: int, reply: int): Event {
    SendCall(Steady(Turn(now, reply, now)), now, BLANK)
  }

  function Steady(t: Turn): nat -> Turn {
    (i: nat) => t
  }

  function Receive(reply: nat): Event {
    RecvRound(Arrival(reply, BLANK))
  }

  // ----- Single steps -----

  /** Connecting a client just initialised. */
  function Connected(unread: seq<byte>): Client {
    Initial(SETUP, unread).(msgs := [CONN], error := MQTT_OK, keepAlive := 400, registered := [CONNECT_BYTES])
  }

  lemma ConnectStep(unread: seq<byte>)
    ensures Step(Initial(SETUP, unread), ConnectCall(CONNECTION, BLANK)) == Connected(unread)
  {
    PacketsAre();
    StagedFirst(Initial(SETUP, unread).(error := MQTT_OK, keepAlive := 400), CONNECTION, CONN);
    hide Stage;
  }

  /** Staging with room to spare. */
  lemma StagedFirst(c: Client, r: Request, m: Message)
    requires c.error >= 0 && RequestError(r) == 0 && RuleViolation(HeaderOf(r)) == 0 && StringsFit(r)
    requires DeclaredLength(r) < MAX_REMAINING && RoomOf(c) >= |PacketBytes(r)| && m == Queued(r, BLANK)
    ensures Stage(c, r, BLANK) == Outcome(c.(msgs := c.msgs + [m], registered := c.registered + [m.bytes]), MQTT_OK)
  {
    hide PackedSize, RoomOf, HeaderBytes, BodyOf, DeclaredLength, RequestError, HeaderOf, RuleViolation, StringsFit;
    RoomSuffices(r, RoomOf(c));
  }

  lemma RoomSuffices(r: Request, room: nat)
    requires RequestError(r) == 0 && RuleViolation(HeaderOf(r)) == 0 && StringsFit(r)
    requires DeclaredLength(r) < MAX_REMAINING && room >= |PacketBytes(r)|
    ensures 0 < PackedSize(r, room) <= room
  {
    SelfDelimitingIff(r);
    PackedIffRoom(r, room);
    PackedSizeParts(r, room);
    hide PackedSize, HeaderBytes, BodyOf, DeclaredLength, RequestError, HeaderOf, RuleViolation, StringsFit;
  }

  /** A turn that sends message i to its end. */
  lemma SendWhole(c: Client, i: nat, t: Turn)
    requires i < |c.msgs| && c.sendOffset == 0 && t.reply >= |c.msgs[i].bytes|
    requires var m := c.msgs[i];
             m.state.Unsent? && (CompletesOnSend(m) || AwaitsAckOnSend(m))
    ensures SendOne(c, i, false, t) ==
            SendStep(c.(wire := c.wire + c.msgs[i].bytes, timeOfLastSend := t.after,
                        msgs := c.msgs[i := AfterSending(c.msgs[i], t.after)]), PendingQos2(c.msgs[i]), Go)
  {
    var m := c.msgs[i];
    assert m.bytes[0..|m.bytes|] == m.bytes;
    hide AfterSending, CompletesOnSend, AwaitsAckOnSend, PendingQos2;
  }

  /** A turn that sends message i again to its end. */
  lemma SendAgain(c: Client, i: nat, t: Turn)
    requires i < |c.msgs| && t.reply >= |c.msgs[i].bytes|
    requires var m := c.msgs[i];
             TimedOut(m, t.now, c.responseTimeout) && (CompletesOnSend(m) || AwaitsAckOnSend(m))
    ensures SendOne(c, i, false, t) ==
            SendStep(c.(wire := c.wire + c.msgs[i].bytes, sendOffset := 0, timeouts := c.timeouts + 1,
                        timeOfLastSend := t.after, msgs := c.msgs[i := AfterSending(c.msgs[i], t.after)]),
                     PendingQos2(c.msgs[i]), Go)
  {
    var m := c.msgs[i];
    assert m.bytes[0..|m.bytes|] == m.bytes;
    hide AfterSending, CompletesOnSend, AwaitsAckOnSend, PendingQos2;
  }

  /** The send loop passes over a complete message. */
  lemma SendSkips(c: Client, i: nat, inflight: bool, t: Turn)
    requires i < |c.msgs| && c.msgs[i].state.Complete?
    ensures SendFrom(c, i, inflight, Steady(t)) == SendFrom(c, i + 1, inflight, Steady(t))
  {
    assert Steady(t)(i) == t;
    assert SendOne(c, i, inflight, t) == SendStep(c, inflight, Go);
    hide SendOne;
  }

  /** A send call over a queue of one message, and of two. */
  lemma SendOver1(c: Client, t: Turn, s: SendStep)
    requires |c.msgs| == 1 && SendOne(c, 0, false, t) == s
    ensures SendFrom(c, 0, false, Steady(t)) == s
  {
    SendLast(c, 0, false, t);
  }

  lemma SendOver2(c: Client, t: Turn, s1: SendStep, s2: SendStep)
    requires |c.msgs| == 2 && SendOne(c, 0, false, t) == s1 && s1.next == Go
    requires SendOne(s1.client, 1, s1.inflight, t) == s2
    ensures SendFrom(c, 0, false, Steady(t)) == s2
  {
    hide SendOne;
    assert Steady(t)(0) == t;
    SendLast(s1.client, 1, s1.inflight, t);
  }

  lemma SendLast(c: Client, i: nat, inflight: bool, t: Turn)
    requires i + 1 == |c.msgs|
    ensures SendFrom(c, i, inflight, Steady(t)) == SendOne(c, i, inflight, t)
  {
    hide SendOne;
    assert Steady(t)(i) == t;
  }

  /** What a send call comes to when it does not fail and no ping is due. */
  lemma SendResult(c: Client, now: int, reply: int, s: SendStep)
    requires !c.lost && c.error >= 0 && SendFrom(c, 0, false, Steady(Turn(now, reply, now))) == s
    requires !s.next.Fail? ==> now <= s.client.timeOfLastSend + s.client.keepAlive
    ensures Step(c, SendAt(now, reply)) == s.client
  {
    hide SendFrom;
  }

  /** Sending the first message to its end. */
  lemma SendFirst(c: Client)
    requires c.msgs == [CONN] && c.sendOffset == 0 && c.error >= 0 && !c.lost && c.timeOfLastSend == 0
             && c.keepAlive == 400
    ensures Step(c, SendAt(0, 100)) == c.(msgs := [Awaiting(CONN)], wire := c.wire + CONNECT_BYTES)
  {
    var t := Turn(0, 100, 0);
    SendWhole(c, 0, t);
    assert AfterSending(CONN, 0) == Awaiting(CONN);
    hide SendOne, SendFrom, Step;
    SendOver1(c, t, SendOne(c, 0, false, t));
    SendResult(c, 0, 100, SendOne(c, 0, false, t));
  }

  lemma PingStep(c: Client)
    requires c.error >= 0 && !c.lost && RoomOf(c) >= 2
    ensures Step(c, PingCall(BLANK)) == c.(msgs := c.msgs + [PING], registered := c.registered + [PING_BYTES])
  {
    PacketsAre();
    StagedFirst(c, PingRequest, PING);
    hide Stage, RoomOf;
  }

  /** Staging an acknowledgement with room to spare. */
  lemma AcknowledgeStep(c: Client, kind: Nibble, m: Message)
    requires c.error >= 0 && RoomOf(c) >= 4
    requires (kind == PUBREC && m == REC) || (kind == PUBCOMP && m == COMP)
    ensures Acknowledge(c, kind, 1, BLANK) ==
            Outcome(c.(msgs := c.msgs + [m], registered := c.registered + [m.bytes]), MQTT_OK)
  {
    PacketsAre();
    StagedFirst(c, PubxxxRequest(kind, 1), m);
    hide Stage, RoomOf;
  }

  /** Receiving exactly one packet: it is taken out and handled. */
  lemma ReceiveStep(c: Client, packet: seq<byte>, rest: seq<byte>, r: Response)
    requires !c.lost && c.recvSize == 64 && |packet| <= 64 && c.recv == [] && c.unread == packet + rest
    requires Unpack(packet) == Unpacked(|packet|, r)
    ensures var h := Handle(c.(recv := packet, unread := rest, received := c.received + packet), r, BLANK);
            Step(c, Receive(|packet|)) == h.client.(recv := [],
                                                    dispatched := c.dispatched + [Dispatch(packet, r, h.delivered)])
  {
    hide Unpack, Handle, Read, Dispatched;
    ReadPacket(c, packet, rest);
    var c1 := c.(recv := packet, unread := rest, received := c.received + packet);
    HandledWhole(c1, packet, r);
    assert Step(c, Receive(|packet|)) == Dispatched(c1, BLANK).client;
  }

  lemma HandledWhole(c: Client, packet: seq<byte>, r: Response)
    requires c.recv == packet && Unpack(packet) == Unpacked(|packet|, r)
    ensures var h := Handle(c, r, BLANK);
            Dispatched(c, BLANK).client ==
            h.client.(recv := [], dispatched := c.dispatched + [Dispatch(packet, r, h.delivered)])
  {
    hide Unpack, Handle;
    HandleFrame(c, r, BLANK);
    assert packet[..|packet|] == packet && packet[|packet|..] == [];
  }

  lemma ReadPacket(c: Client, packet: seq<byte>, rest: seq<byte>)
    requires c.recvSize == 64 && |packet| <= 64 && c.recv == [] && c.unread == packet + rest
    ensures Read(c, |packet|) == c.(recv := packet, unread := rest, received := c.received + packet)
  {
    assert c.unread[..|packet|] == packet && c.unread[|packet|..] == rest && [] + packet == packet;
  }

  lemma Unpackings()
    ensures Unpack(CONNACK_BYTES) == Unpacked(4, Connack(0, 0))
    ensures Unpack(PUBREL_BYTES) == Unpacked(4, Pubxxx(PUBREL, 1))
  {
    assert ParseLength(CONNACK_BYTES[1..], 0) == Digits(2, 1) && ParseLength(PUBREL_BYTES[1..], 0) == Digits(2, 1);
    assert CONNACK_BYTES[2..4] == [0, 0] && PUBREL_BYTES[2..4] == [0, 1];
  }

  lemma Qos2Unpacking(payload: byte)
    ensures Unpack(Qos2(payload)) == Unpacked(8, Publish(0, 2, 0, [97], 1, [payload]))
  {
    var s := Qos2(payload);
    assert ParseLength(s[1..], 0) == Digits(6, 1);
    var body := s[2..8];
    assert body == [0, 1, 97, 0, 1, payload] && body[2..3] == [97] && body[3..] == [0, 1, payload]
           && body[5..] == [payload];
  }

  lemma FirstStep(c: Client, e: Event, es: seq<Event>)
    ensures Run(c, [e] + es) == Run(Step(c, e), es)
  {
    hide Step;
    assert ([e] + es)[1..] == es;
  }

  lemma Steps2(c: Client, e1: Event, e2: Event)
    ensures Run(c, [e1, e2]) == Step(Step(c, e1), e2)
  {
    FirstStep(c, e1, [e2]);
    FirstStep(Step(c, e1), e2, []);
    assert [e1, e2] == [e1] + [e2] && [e2] == [e2] + [];
    assert Run(Step(Step(c, e1), e2), []) == Step(Step(c, e1), e2);
    hide Step, Run;
  }

  lemma Steps5(c: Client, e1: Event, e2: Event, e3: Event, e4: Event, e5: Event)
    ensures Run(c, [e1, e2, e3, e4, e5]) == Step(Step(Step(Step(Step(c, e1), e2), e3), e4), e5)
  {
    hide Step, Run;
    var c1, c2 := Step(c, e1), Step(Step(c, e1), e2);
    FirstStep(c, e1, [e2] + [e3, e4, e5]);
    FirstStep(c1, e2, [e3, e4, e5]);
    FirstStep(c2, e3, [e4, e5]);
    Steps2(Step(c2, e3), e4, e5);
    assert [e1, e2, e3, e4, e5] == [e1] + ([e2] + [e3, e4, e5]) && [e3, e4, e5] == [e3] + [e4, e5];
  }

  lemma {:induction false} RunConcat(c: Client, es: seq<Event>, fs: seq<Event>)
    ensures Run(c, es + fs) == Run(Run(c, es), fs)
    decreases |es|
  {
    hide Step;
    if es == [] {
      assert es + fs == fs;
    } else {
      assert (es + fs)[1..] == es[1..] + fs;
      RunConcat(Step(c, es[0]), es[1..], fs);
    }
  }

  // ----- A timeout in the middle of a packet -----

  lemma PingInPart(c: Client)
    requires c.msgs == [Awaiting(CONN), PING] && c.sendOffset == 0 && c.error >= 0 && !c.lost
    requires c.timeOfLastSend == 0 && c.keepAlive == 400 && c.responseTimeout == 30
    ensures Step(c, SendAt(0, 1)) == c.(wire := c.wire + [0xC0], sendOffset := 1)
  {
    var t := Turn(0, 1, 0);
    assert SendOne(c, 0, false, t) == SendStep(c, false, Go);
    assert PING_BYTES[0..1] == [0xC0];
    var s := SendStep(c.(wire := c.wire + [0xC0], sendOffset := 1), false, Stop);
    assert SendOne(c, 1, false, t) == s;
    hide SendOne, SendFrom, Step;
    SendOver2(c, t, SendStep(c, false, Go), s);
    SendResult(c, 0, 1, s);
  }

  lemma BothAgain(c: Client)
    requires c.msgs == [Awaiting(CONN), PING] && c.sendOffset == 1 && c.error >= 0 && !c.lost
    requires c.keepAlive == 400 && c.responseTimeout == 30
    ensures var c' := Step(c, SendAt(31, 100));
            && c'.wire == c.wire + CONNECT_BYTES + PING_BYTES && c'.registered == c.registered
            && |c'.msgs| == 2 && !c'.msgs[0].state.Unsent? && !c'.msgs[1].state.Unsent?
            && c'.error == c.error && !c'.lost
  {
    var t := Turn(31, 100, 31);
    SendAgain(c, 0, t);
    var s1 := SendOne(c, 0, false, t);
    SendWhole(s1.client, 1, t);
    var s2 := SendOne(s1.client, 1, false, t);
    assert AfterSending(Awaiting(CONN), 31).state.AwaitingAck? && AfterSending(PING, 31).state.AwaitingAck?;
    hide SendOne, SendFrom, Step, AfterSending;
    SendOver2(c, t, s1, s2);
    SendResult(c, 31, 100, s2);
  }

  /** The connection request is sent and not answered; a ping is sent in part; then the request times out and is sent
      again in the middle of the ping, which follows from its start. */
  lemma TornStream()
    ensures var events := [ConnectCall(CONNECTION, BLANK), SendAt(0, 100), PingCall(BLANK), SendAt(0, 1),
                           SendAt(31, 100)];
            var c := Run(Initial(SETUP, []), events);
            && c.registered == [CONNECT_BYTES, PING_BYTES]
            && c.wire == CONNECT_BYTES + [0xC0] + CONNECT_BYTES + PING_BYTES
            && c.error == MQTT_OK && !c.lost && !Framed(c)
  {
    hide Step, Run, Framed, RoomOf;
    Steps5(Initial(SETUP, []), ConnectCall(CONNECTION, BLANK), SendAt(0, 100), PingCall(BLANK), SendAt(0, 1),
           SendAt(31, 100));
    ConnectStep([]);
    var c1 := Connected([]);
    SendFirst(c1);
    var c2 := c1.(msgs := [Awaiting(CONN)], wire := CONNECT_BYTES);
    assert [] + CONNECT_BYTES == CONNECT_BYTES;
    PingAdded(c2);
    var c3 := c2.(msgs := [Awaiting(CONN), PING], registered := [CONNECT_BYTES, PING_BYTES]);
    PingInPart(c3);
    var c4 := c3.(wire := CONNECT_BYTES + [0xC0], sendOffset := 1);
    BothAgain(c4);
    TooLong(Step(c4, SendAt(31, 100)));
  }

  lemma PingAdded(c: Client)
    requires c.msgs == [Awaiting(CONN)] && c.registered == [CONNECT_BYTES] && c.memSize == 400 && c.headerSize == 40
    requires c.error >= 0 && !c.lost
    ensures Step(c, PingCall(BLANK)) == c.(msgs := [Awaiting(CONN), PING], registered := [CONNECT_BYTES, PING_BYTES])
  {
    hide Step, RoomOf;
    RoomLeft(c);
    PingStep(c);
    assert [Awaiting(CONN)] + [PING] == [Awaiting(CONN), PING];
    assert [CONNECT_BYTES] + [PING_BYTES] == [CONNECT_BYTES, PING_BYTES];
  }

  lemma RoomLeft(c: Client)
    requires c.memSize == 400 && c.headerSize == 40 && |c.msgs| <= 3
    requires forall i :: 0 <= i < |c.msgs| ==> |c.msgs[i].bytes| <= 15
    ensures RoomOf(c) >= 100
  {
    assert |c.msgs| > 0 ==> TotalSize(c.msgs) == |c.msgs[0].bytes| + TotalSize(c.msgs[1..]);
    assert |c.msgs| > 1 ==> TotalSize(c.msgs[1..]) == |c.msgs[1].bytes| + TotalSize(c.msgs[1..][1..]);
    assert |c.msgs| > 2 ==> TotalSize(c.msgs[1..][1..]) == |c.msgs[2].bytes| + TotalSize(c.msgs[1..][1..][1..]);
  }

  /** When everything queued has been sent, a framed wire is as long as the registered packets. */
  lemma TooLong(c: Client)
    requires |c.msgs| == 2 && !c.msgs[0].state.Unsent? && !c.msgs[1].state.Unsent?
    requires c.registered == [CONNECT_BYTES, PING_BYTES] && |c.wire| > 17
    ensures !Framed(c)
  {
    SentPrefixIs(c.msgs, 2);
    assert c.registered[..2] == c.registered;
    assert Flatten(c.registered) == CONNECT_BYTES + Flatten(c.registered[1..]);
    assert c.registered[1..] == [PING_BYTES];
    assert Flatten([PING_BYTES]) == PING_BYTES + Flatten([PING_BYTES][1..]);
    hide SentPrefix;
  }

  // ----- A send from beyond the end of a packet -----

  lemma ConnectInPart(c: Client)
    requires c.msgs == [CONN] && c.sendOffset == 0 && c.error >= 0 && !c.lost && c.timeOfLastSend == 0
             && c.keepAlive == 400
    ensures Step(c, SendAt(0, 5)) == c.(wire := c.wire + CONNECT_BYTES[..5], sendOffset := 5)
  {
    var t := Turn(0, 5, 0);
    var s := SendStep(c.(wire := c.wire + CONNECT_BYTES[..5], sendOffset := 5), false, Stop);
    assert CONNECT_BYTES[0..5] == CONNECT_BYTES[..5];
    assert SendOne(c, 0, false, t) == s;
    hide SendOne, SendFrom, Step;
    SendOver1(c, t, s);
    SendResult(c, 0, 5, s);
  }

  lemma AcceptedEarly(c: Client)
    requires c.msgs == [CONN] && !c.lost && c.recvSize == 64 && c.recv == [] && c.unread == CONNACK_BYTES
    ensures var c' := Step(c, Receive(4));
            && c' == c.(msgs := [Done(CONN)], recv := [], unread := [], received := c'.received,
                        dispatched := c'.dispatched)
  {
    Unpackings();
    assert c.unread == CONNACK_BYTES + [];
    ReceiveStep(c, CONNACK_BYTES, [], Connack(0, 0));
    hide Unpack, Step;
    assert Matches(CONN, CONNECT, None);
  }

  lemma PingBeyond(c: Client)
    requires c.msgs == [Done(CONN), PING] && c.sendOffset == 5 && c.error >= 0 && !c.lost
    ensures Step(c, SendAt(0, 100)).lost
  {
    var t := Turn(0, 100, 0);
    var s := SendStep(c.(lost := true), false, Fail(0));
    assert SendOne(c, 0, false, t) == SendStep(c, false, Go) && SendOne(c, 1, false, t) == s;
    hide SendOne, SendFrom, Step;
    SendOver2(c, t, SendStep(c, false, Go), s);
    SendResult(c, 0, 100, s);
  }

  /** No timeout is needed for a send from beyond the end of a packet: the connection request is sent in part and
      accepted all the same, and the ping after it is shorter than the part sent. */
  lemma SendBeyondPacket()
    ensures var events := [ConnectCall(CONNECTION, BLANK), SendAt(0, 5), Receive(4), PingCall(BLANK), SendAt(0, 100)];
            Run(Initial(SETUP, CONNACK_BYTES), events).lost
  {
    hide Step, Run;
    Steps5(Initial(SETUP, CONNACK_BYTES), ConnectCall(CONNECTION, BLANK), SendAt(0, 5), Receive(4), PingCall(BLANK),
           SendAt(0, 100));
    ConnectStep(CONNACK_BYTES);
    var c1 := Connected(CONNACK_BYTES);
    ConnectInPart(c1);
    var c2 := c1.(wire := c1.wire + CONNECT_BYTES[..5], sendOffset := 5);
    AcceptedEarly(c2);
    var c3 := Step(c2, Receive(4));
    RoomLeft(c3);
    PingStep(c3);
    var c4 := c3.(msgs := [Done(CONN)] + [PING], registered := c3.registered + [PING_BYTES]);
    PingBeyond(c4);
  }

  // ----- A released id that is used again -----

  function Dispatch1(): Dispatch { Dispatch(CONNACK_BYTES, Connack(0, 0), false) }
  function Dispatch2(): Dispatch { Dispatch(Qos2(1), Publish(0, 2, 0, [97], 1, [1]), true) }
  function Dispatch3(): Dispatch { Dispatch(PUBREL_BYTES, Pubxxx(PUBREL, 1), false) }
  function Dispatch4(): Dispatch { Dispatch(Qos2(2), Publish(0, 2, 0, [97], 1, [2]), false) }

  lemma AcceptConnection(c: Client, rest: seq<byte>)
    requires |c.msgs| > 0 && c.msgs[0] == Awaiting(CONN) && !c.lost && c.recvSize == 64
    requires c.recv == [] && c.unread == CONNACK_BYTES + rest
    ensures var c' := Step(c, Receive(4));
            c' == c.(msgs := c.msgs[0 := Done(Awaiting(CONN))], unread := rest, received := c'.received,
                     dispatched := c.dispatched + [Dispatch1()])
  {
    Unpackings();
    ReceiveStep(c, CONNACK_BYTES, rest, Connack(0, 0));
    hide Unpack, Step;
    assert Matches(Awaiting(CONN), CONNECT, None);
  }

  lemma DeliverFirst(c: Client, rest: seq<byte>)
    requires c.msgs == [Done(Awaiting(CONN))] && c.error >= 0 && !c.lost && c.recvSize == 64
    requires c.recv == [] && c.unread == Qos2(1) + rest && c.memSize == 400 && c.headerSize == 40
    ensures var c' := Step(c, Receive(8));
            c' == c.(msgs := [Done(Awaiting(CONN)), REC], registered := c.registered + [PUBREC_BYTES], unread := rest,
                     received := c'.received, dispatched := c.dispatched + [Dispatch2()])
  {
    Qos2Unpacking(1);
    ReceiveStep(c, Qos2(1), rest, Publish(0, 2, 0, [97], 1, [1]));
    var c1 := c.(recv := Qos2(1), unread := rest, received := c.received + Qos2(1));
    RoomLeft(c1);
    AcknowledgeStep(c1, PUBREC, REC);
    hide Unpack, Step, Acknowledge, RoomOf;
    assert !Matches(Done(Awaiting(CONN)), PUBREC, Some(1));
    assert [Done(Awaiting(CONN))] + [REC] == [Done(Awaiting(CONN)), REC];
  }

  lemma SendRecord(c: Client)
    requires c.msgs == [Done(Awaiting(CONN)), REC] && c.sendOffset == 0 && c.error >= 0 && !c.lost
    requires c.timeOfLastSend == 0 && c.keepAlive == 400
    ensures Step(c, SendAt(0, 100)) == c.(msgs := [Done(Awaiting(CONN)), Awaiting(REC)], wire := c.wire + PUBREC_BYTES)
  {
    var t := Turn(0, 100, 0);
    SendSkips(c, 0, false, t);
    SendWhole(c, 1, t);
    var s := SendOne(c, 1, false, t);
    assert AfterSending(REC, 0) == Awaiting(REC);
    assert c.msgs[1 := Awaiting(REC)] == [Done(Awaiting(CONN)), Awaiting(REC)];
    hide SendOne, SendFrom, Step, AfterSending;
    SendLast(c, 1, false, t);
    SendResult(c, 0, 100, s);
  }

  lemma ReleaseRecord(c: Client, rest: seq<byte>)
    requires c.msgs == [Done(Awaiting(CONN)), Awaiting(REC)] && c.error >= 0 && !c.lost && c.recvSize == 64
    requires c.recv == [] && c.unread == PUBREL_BYTES + rest && c.memSize == 400 && c.headerSize == 40
    ensures var c' := Step(c, Receive(4));
            c' == c.(msgs := [Done(Awaiting(CONN)), Done(Awaiting(REC)), COMP],
                     registered := c.registered + [PUBCOMP_BYTES], unread := rest, received := c'.received,
                     dispatched := c.dispatched + [Dispatch3()])
  {
    Unpackings();
    ReceiveStep(c, PUBREL_BYTES, rest, Pubxxx(PUBREL, 1));
    var c1 := c.(recv := PUBREL_BYTES, unread := rest, received := c.received + PUBREL_BYTES);
    var c2 := c1.(msgs := [Done(Awaiting(CONN)), Done(Awaiting(REC))]);
    assert !Matches(Done(Awaiting(CONN)), PUBREC, Some(1)) && Matches(Awaiting(REC), PUBREC, Some(1));
    FoundSecond(c1.msgs);
    assert c1.msgs[1 := Done(Awaiting(REC))] == c2.msgs;
    assert Release(c1, PUBREC, Some(1)) == Outcome(c2, MQTT_OK);
    RoomLeft(c2);
    AcknowledgeStep(c2, PUBCOMP, COMP);
    hide Unpack, Step, Acknowledge, RoomOf, Release, Find;
  }

  lemma FoundSecond(msgs: seq<Message>)
    requires |msgs| >= 2 && !Matches(msgs[0], PUBREC, Some(1)) && Matches(msgs[1], PUBREC, Some(1))
    ensures Find(msgs, PUBREC, Some(1)) == 1
  {}

  /** The PUBCOMP goes out, and with it the old use of the id ends. */
  lemma SendCompletion(c: Client)
    requires c.msgs == [Done(Awaiting(CONN)), Done(Awaiting(REC)), COMP] && c.sendOffset == 0 && c.error >= 0 && !c.lost
    requires c.timeOfLastSend == 0 && c.keepAlive == 400
    ensures Step(c, SendAt(0, 100)) == c.(msgs := [Done(Awaiting(CONN)), Done(Awaiting(REC)), Done(Awaiting(COMP))],
                                          wire := c.wire + PUBCOMP_BYTES)
  {
    var t := Turn(0, 100, 0);
    SendSkips(c, 0, false, t);
    SendSkips(c, 1, false, t);
    SendWhole(c, 2, t);
    var s := SendOne(c, 2, false, t);
    assert AfterSending(COMP, 0) == Done(Awaiting(COMP));
    hide SendOne, SendFrom, Step, AfterSending;
    SendLast(c, 2, false, t);
    SendResult(c, 0, 100, s);
  }

  lemma DropSecond(c: Client)
    requires c.msgs == [Done(Awaiting(CONN)), Done(Awaiting(REC)), Done(Awaiting(COMP))] && c.error >= 0 && !c.lost
    requires c.recvSize == 64 && c.recv == [] && c.unread == Qos2(2)
    ensures var c' := Step(c, Receive(8));
            c' == c.(unread := [], received := c'.received, dispatched := c.dispatched + [Dispatch4()])
  {
    Qos2Unpacking(2);
    assert c.unread == Qos2(2) + [];
    ReceiveStep(c, Qos2(2), [], Publish(0, 2, 0, [97], 1, [2]));
    hide Unpack, Step, Acknowledge;
    assert Matches(c.msgs[1], PUBREC, Some(1));
  }

  function Stream(): seq<byte> {
    CONNACK_BYTES + (Qos2(1) + (PUBREL_BYTES + Qos2(2)))
  }

  /** Up to the delivery of the first message and the sending of its PUBREC. */
  lemma FirstDelivered()
    ensures var events := [ConnectCall(CONNECTION, BLANK), SendAt(0, 100), Receive(4), Receive(8), SendAt(0, 100)];
            var c := Run(Initial(SETUP, Stream()), events);
            && c.msgs == [Done(Awaiting(CONN)), Awaiting(REC)] && c.error == MQTT_OK && !c.lost && c.sendOffset == 0
            && c.recvSize == 64 && c.memSize == 400 && c.headerSize == 40 && c.timeOfLastSend == 0 && c.keepAlive == 400
            && c.recv == [] && c.unread == PUBREL_BYTES + Qos2(2)
            && c.dispatched == [Dispatch1(), Dispatch2()] && c.wire == CONNECT_BYTES + PUBREC_BYTES
  {
    hide Step, Run;
    Steps5(Initial(SETUP, Stream()), ConnectCall(CONNECTION, BLANK), SendAt(0, 100), Receive(4), Receive(8),
           SendAt(0, 100));
    ConnectStep(Stream());
    var c1 := Connected(Stream());
    SendFirst(c1);
    var c2 := c1.(msgs := [Awaiting(CONN)], wire := CONNECT_BYTES);
    assert [] + CONNECT_BYTES == CONNECT_BYTES;
    AcceptConnection(c2, Qos2(1) + (PUBREL_BYTES + Qos2(2)));
    var c3 := Step(c2, Receive(4));
    assert c3.msgs == [Done(Awaiting(CONN))];
    DeliverFirst(c3, PUBREL_BYTES + Qos2(2));
    SendRecord(Step(c3, Receive(8)));
  }

  /** A message is delivered and its PUBREC sent; its id is released and the PUBCOMP sent, which makes the id free for a
      new message (section 4.3.3); the message that then comes under it is dispatched without an error and not
      delivered. */
  lemma ReusedIdDropped()
    ensures var events := [ConnectCall(CONNECTION, BLANK), SendAt(0, 100), Receive(4), Receive(8), SendAt(0, 100)]
                          + [Receive(4), SendAt(0, 100), Receive(8)];
            var c := Run(Initial(SETUP, Stream()), events);
            && c.dispatched == [Dispatch1(), Dispatch2(), Dispatch3(), Dispatch4()]
            && c.wire == CONNECT_BYTES + PUBREC_BYTES + PUBCOMP_BYTES && c.error == MQTT_OK && !c.lost
            && c.unread == [] && c.recv == []
  {
    hide Step, Run, Stream, Dispatch1, Dispatch2, Dispatch3, Dispatch4;
    var events := [ConnectCall(CONNECTION, BLANK), SendAt(0, 100), Receive(4), Receive(8), SendAt(0, 100)];
    RunConcat(Initial(SETUP, Stream()), events, [Receive(4), SendAt(0, 100), Receive(8)]);
    FirstDelivered();
    var c := Run(Initial(SETUP, Stream()), events);
    assert [Receive(4), SendAt(0, 100), Receive(8)] == [Receive(4)] + [SendAt(0, 100), Receive(8)];
    FirstStep(c, Receive(4), [SendAt(0, 100), Receive(8)]);
    ReleaseRecord(c, Qos2(2));
    var c1 := Step(c, Receive(4));
    SendCompletion(c1);
    DropSecond(Step(c1, SendAt(0, 100)));
    Steps2(c1, SendAt(0, 100), Receive(8));
  }

  // ----- A message repeated without DUP -----

  const PUBLISH_ID: bv16 := 0xB451
  const PUBLISH_BYTES: seq<byte> := [0x34, 6, 0, 1, 97, 0xB4, 0x51, 1]
  const PUB := Fresh(PUBLISH_BYTES, PUBLISH, 0xB451)

  /** The first id drawn by a client whose queue holds only id 0. */
  lemma FirstId(ids: set<int>)
    requires ids == {0}
    ensures SomeFree(ids) && NextId(0, ids) == PUBLISH_ID && PUBLISH_ID as int == 0xB451
  {
    assert 1 !in ids;
    var x := Primed(0);
    OneMore(0, x);
    assert Next(x) == PUBLISH_ID && PUBLISH_ID as int == 0xB451;
    assert IsFirstFree(1, x, ids);
    NextIdUnique(0, ids, 1);
    hide Next, Iter, NextId;
  }

  lemma PublishPacket()
    ensures var r := PublishRequest(Some([97]), 0xB451, [1], 4);
            RequestError(r) == 0 && PacketBytes(r) == PUBLISH_BYTES && Queued(r, BLANK) == PUB
  {
    var r := PublishRequest(Some([97]), 0xB451, [1], 4);
    PublishBody();
    assert HeaderOf(r) == FixedHeader(PUBLISH, 4, 6);
    assert HeaderBytes(FixedHeader(PUBLISH, 4, 6)) == [0x34, 6];
    hide BodyOf, HeaderOf, HeaderBytes;
    assert [0x34, 6] + [0, 1, 97, 0xB4, 0x51, 1] == PUBLISH_BYTES;
  }

  lemma PublishBody()
    ensures var r := PublishRequest(Some([97]), 0xB451, [1], 4);
            RequestError(r) == 0 && BodyOf(r) == [0, 1, 97, 0xB4, 0x51, 1]
  {
    assert Str([97]) == [0, 1] + [97] && U16(0xB451) == [0xB4, 0x51] && QosBits(4) == 2;
    hide Str, U16, QosBits;
  }

  lemma PublishStep(c: Client)
    requires c.msgs == [CONN] && c.lfsr == 0 && c.error >= 0 && !c.lost && c.memSize == 400 && c.headerSize == 40
    ensures Step(c, PublishCall(Some([97]), [1], 4, BLANK)) ==
            c.(msgs := [CONN, PUB], lfsr := PUBLISH_ID, registered := c.registered + [PUBLISH_BYTES])
  {
    assert Ids(c.msgs) == {0} by { assert c.msgs[0].packetId == 0; }
    FirstId(Ids(c.msgs));
    PublishPacket();
    RoomLeft(c);
    StagedFirst(c.(lfsr := PUBLISH_ID), PublishRequest(Some([97]), 0xB451, [1], 4), PUB);
    hide Stage, RoomOf, Ids, NextId, SomeFree, Queued, PacketBytes;
    assert [CONN] + [PUB] == [CONN, PUB];
  }

  lemma SendBoth(c: Client)
    requires c.msgs == [CONN, PUB] && c.sendOffset == 0 && c.error >= 0 && !c.lost
    requires c.timeOfLastSend == 0 && c.keepAlive == 400
    ensures Step(c, SendAt(0, 100)) ==
            c.(msgs := [Awaiting(CONN), Awaiting(PUB)], wire := c.wire + CONNECT_BYTES + PUBLISH_BYTES)
  {
    var t := Turn(0, 100, 0);
    SendWhole(c, 0, t);
    assert AfterSending(CONN, 0) == Awaiting(CONN) && AfterSending(PUB, 0) == Awaiting(PUB);
    var s1 := SendOne(c, 0, false, t);
    SendWhole(s1.client, 1, t);
    var s2 := SendOne(s1.client, 1, false, t);
    hide SendOne, SendFrom, Step, AfterSending;
    SendOver2(c, t, s1, s2);
    SendResult(c, 0, 100, s2);
  }

  lemma PublishAgain(c: Client)
    requires c.msgs == [Done(Awaiting(CONN)), Awaiting(PUB)] && c.error >= 0 && !c.lost
    requires c.keepAlive == 400 && c.responseTimeout == 30
    ensures var c' := Step(c, SendAt(31, 100));
            && c'.wire == c.wire + PUBLISH_BYTES && c'.registered == c.registered && c'.error == c.error && !c'.lost
  {
    var t := Turn(31, 100, 31);
    SendSkips(c, 0, false, t);
    SendAgain(c, 1, t);
    var s := SendOne(c, 1, false, t);
    hide SendOne, SendFrom, Step, AfterSending;
    SendLast(c, 1, false, t);
    SendResult(c, 31, 100, s);
  }

  /** A QoS 2 message that is not answered in time is sent again bit for bit, without the DUP flag that section 3.3.1.1
      asks for. */
  lemma RepeatedWithoutDup()
    ensures var events := [ConnectCall(CONNECTION, BLANK), PublishCall(Some([97]), [1], 4, BLANK), SendAt(0, 100),
                           Receive(4), SendAt(31, 100)];
            var c := Run(Initial(SETUP, CONNACK_BYTES), events);
            && c.registered == [CONNECT_BYTES, PUBLISH_BYTES]
            && c.wire == CONNECT_BYTES + PUBLISH_BYTES + PUBLISH_BYTES && PUBLISH_BYTES[0] / 8 % 2 == 0
            && c.error == MQTT_OK && !c.lost
  {
    hide Step, Run;
    Steps5(Initial(SETUP, CONNACK_BYTES), ConnectCall(CONNECTION, BLANK), PublishCall(Some([97]), [1], 4, BLANK),
           SendAt(0, 100), Receive(4), SendAt(31, 100));
    ConnectStep(CONNACK_BYTES);
    var c1 := Connected(CONNACK_BYTES);
    PublishStep(c1);
    var c2 := c1.(msgs := [CONN, PUB], lfsr := PUBLISH_ID, registered := [CONNECT_BYTES, PUBLISH_BYTES]);
    assert [CONNECT_BYTES] + [PUBLISH_BYTES] == [CONNECT_BYTES, PUBLISH_BYTES];
    SendBoth(c2);
    var c3 := Step(c2, SendAt(0, 100));
    assert CONNACK_BYTES == CONNACK_BYTES + [];
    AcceptConnection(c3, []);
    var c4 := Step(c3, Receive(4));
    assert c4.msgs == [Done(Awaiting(CONN)), Awaiting(PUB)];
    PublishAgain(c4);
  }

  // ----- A packet that declares more than it holds -----

  /** A client id of 65536 bytes, whose length wraps to 0. */
  function LongId(): seq<byte> { seq(0x1_0000, i => 97) }

  function LongConnection(): Request { ConnectRequest(LongId(), None, None, None, None, 2, 400) }

  lemma LongPacket()
    ensures var r := LongConnection();
            && RequestError(r) == 0 && RuleViolation(HeaderOf(r)) == 0 && HeaderOf(r).remaining == 65548
            && |HeaderBytes(HeaderOf(r))| == 4 && |BodyOf(r)| == 12 && |PacketBytes(r)| == 16
  {
    var r := LongConnection();
    LengthSizes(65548);
    assert Str(LongId()) == U16(0) + [];
    hide LengthDigits;
  }

  /** Connecting with it succeeds; the packet registered has 16 bytes, and whatever is sent next the peer takes the
      following 65536 bytes for a part of it. */
  lemma TruncatedId(rest: seq<byte>)
    requires |rest| >= 0x1_0000
    ensures var c := Run(Initial(Setup(70000, 40, 64, 30, 0, 0), []), [ConnectCall(LongConnection(), BLANK)]);
            && c.error == MQTT_OK && !c.lost && |c.registered| == |c.msgs| == 1
            && |c.registered[0]| == 16
            && ParseHeader(c.registered[0] + rest) == Parsed(FixedHeader(CONNECT, 0, 65548), 4)
  {
    var r, c0 := LongConnection(), Initial(Setup(70000, 40, 64, 30, 0, 0), []);
    LongPacket();
    var c1 := c0.(error := MQTT_OK, keepAlive := 400);
    assert RoomOf(c1) == 69960;
    assert PackedSize(r, 69960) == 16 by { PackedIffRoom(r, 69960); }
    HeaderRoundTrip(HeaderOf(r), BodyOf(r) + rest);
    ConcatAssociates(HeaderBytes(HeaderOf(r)), BodyOf(r), rest);
    assert HeaderOf(r) == FixedHeader(CONNECT, 0, 65548);
    FirstStep(c0, ConnectCall(r, BLANK), []);
    assert [ConnectCall(r, BLANK)] == [ConnectCall(r, BLANK)] + [];
    hide PackedSize, RoomOf, BodyOf, HeaderBytes, HeaderOf, ParseHeader, RequestError, Run, LongConnection;
    assert Step(c0, ConnectCall(r, BLANK)) == Append(c1, r, BLANK);
    RunNothing(Append(c1, r, BLANK));
  }

  lemma RunNothing(c: Client)
    ensures Run(c, []) == c
  {}
}
