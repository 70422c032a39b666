/** What the packets a client sends mean to a broker that reads them by sections 3.1, 3.3, 3.8, 3.10, 3.12 and 3.14 of
    MQTT 3.1.1, and which requests and headers are legal. */
module Decoding {
  import opened Bytes
  import opened MqttConstants
  import opened FixedHeaders
  import opened Packers

  // ----- Legal headers and requests -----

  /** Types 1 to 14 exist; PUBLISH is free in its flags, PUBREL, SUBSCRIBE and UNSUBSCRIBE need 2, the others 0. */
  lemma LegalHeaderIff(h: FixedHeader)
    ensures RuleViolation(h) ==
            if h.controlType == 0 || h.controlType == 15 then ERROR_CONTROL_FORBIDDEN_TYPE
            else if h.controlType == 3 then 0
            else if h.flags == (if h.controlType in {6, 8, 10} then 2 else 0) then 0
            else ERROR_CONTROL_INVALID_FLAGS
  {}

  /** Which requests are refused before anything is packed, and with which error. */
  lemma RefusedIff(r: Request)
    ensures r.ConnectRequest? ==>
              var clean, willQos := r.connectFlags / 2 % 2 == 1, r.connectFlags / 8 % 4;
              && (RequestError(r) == 0 <==>
                    (r.clientId != [] || clean) && (r.willTopic.Some? ==> r.willMessage.Some? && willQos < 3))
              && (r.clientId == [] && !clean ==> RequestError(r) == ERROR_CLEAN_SESSION_IS_REQUIRED)
              && ((r.clientId != [] || clean) && r.willTopic.Some? && r.willMessage.None? ==>
                    RequestError(r) == ERROR_CONNECT_NULL_WILL_MESSAGE)
              && ((r.clientId != [] || clean) && r.willTopic.Some? && r.willMessage.Some? && willQos == 3 ==>
                    RequestError(r) == ERROR_CONNECT_FORBIDDEN_WILL_QOS)
    ensures r.PublishRequest? ==>
              && (RequestError(r) == 0 <==> r.topic.Some? && r.publishFlags / 2 % 4 < 3)
              && (r.topic.None? ==> RequestError(r) == ERROR_NULLPTR)
              && (r.topic.Some? && r.publishFlags / 2 % 4 == 3 ==> RequestError(r) == ERROR_PUBLISH_FORBIDDEN_QOS)
    ensures r.SubscribeRequest? ==> RequestError(r) == if |r.filters| <= 7 then 0 else ERROR_SUBSCRIBE_TOO_MANY_TOPICS
    ensures r.UnsubscribeRequest? ==>
              RequestError(r) == if |r.topics| <= 7 then 0 else ERROR_UNSUBSCRIBE_TOO_MANY_TOPICS
    ensures r.PubxxxRequest? || r.PingRequest? || r.DisconnectRequest? ==> RequestError(r) == 0
  {}

  // ----- The decoder -----

  datatype Connection = Connection(
    clientId: seq<byte>, keepAlive: uint16, reserved: bool, cleanSession: bool,
    willFlag: bool, willQos: nat, willRetain: bool, willTopic: Option<seq<byte>>, willMessage: Option<seq<byte>>,
    userName: Option<seq<byte>>, password: Option<seq<byte>>)

  datatype Packet =
    | Connecting(connection: Connection)
    | Publishing(dup: bool, qos: nat, retain: bool, topic: seq<byte>, packetId: uint16, payload: seq<byte>)
    | Subscribing(packetId: uint16, filters: seq<(seq<byte>, byte)>)
    | Unsubscribing(packetId: uint16, topics: seq<seq<byte>>)
    | Pinging
    | Disconnecting

  /** A string, or the one before the rest. */
  datatype Taken<T> = Taken(value: T, rest: seq<byte>) | Nothing

  /** Two bytes, the most significant first. */
  function BigEndian(high: byte, low: byte): uint16 {
    var h: int := high;
    256 * h + low
  }

  function TakeString(s: seq<byte>): Taken<seq<byte>> {
    if |s| < 2 || |s| < 2 + BigEndian(s[0], s[1]) then Nothing
    else Taken(s[2..2 + BigEndian(s[0], s[1])], s[2 + BigEndian(s[0], s[1])..])
  }

  /** A string that is there only if a flag bit announces it. */
  function TakeAnnounced(s: seq<byte>, announced: bool): Taken<Option<seq<byte>>> {
    if !announced then Taken(None, s)
    else
      match TakeString(s)
      case Taken(v, rest) => Taken(Some(v), rest)
      case Nothing => Nothing
  }

  datatype Payload = Payload(clientId: seq<byte>, willTopic: Option<seq<byte>>, willMessage: Option<seq<byte>>,
                             userName: Option<seq<byte>>, password: Option<seq<byte>>)

  /** The strings of a CONNECT packet, as its flags announce them. */
  function DecodePayload(s: seq<byte>, will: bool, user: bool, pass: bool): Option<Payload> {
    match TakeString(s)
    case Nothing => None
    case Taken(clientId, s1) =>
      match TakeAnnounced(s1, will)
      case Nothing => None
      case Taken(willTopic, s2) =>
        match TakeAnnounced(s2, will)
        case Nothing => None
        case Taken(willMessage, s3) =>
          match TakeAnnounced(s3, user)
          case Nothing => None
          case Taken(userName, s4) =>
            match TakeAnnounced(s4, pass)
            case Nothing => None
            case Taken(password, s5) =>
              if s5 != [] then None else Some(Payload(clientId, willTopic, willMessage, userName, password))
  }

  function DecodeConnect(body: seq<byte>): Option<Packet> {
    if |body| < 10 || body[..7] != [0, 4, 'M' as int, 'Q' as int, 'T' as int, 'T' as int, 4] then None
    else
      var flags: int := body[7];
      match DecodePayload(body[10..], flags / 4 % 2 == 1, flags / 128 == 1, flags / 64 % 2 == 1)
      case None => None
      case Some(p) =>
        Some(Connecting(Connection(
               p.clientId, BigEndian(body[8], body[9]), flags % 2 == 1, flags / 2 % 2 == 1,
               flags / 4 % 2 == 1, flags / 8 % 4, flags / 32 % 2 == 1, p.willTopic, p.willMessage,
               p.userName, p.password)))
  }

  function DecodePublish(flags: nat, body: seq<byte>): Option<Packet> {
    match TakeString(body)
    case Nothing => None
    case Taken(topic, s) =>
      var qos := flags / 2 % 4;
      if qos == 0 then Some(Publishing(flags / 8 == 1, 0, flags % 2 == 1, topic, 0, s))
      else if |s| < 2 then None
      else Some(Publishing(flags / 8 == 1, qos, flags % 2 == 1, topic, BigEndian(s[0], s[1]), s[2..]))
  }

  function DecodeFilters(s: seq<byte>): Option<seq<(seq<byte>, byte)>> {
    if s == [] then Some([])
    else
      match TakeString(s)
      case Nothing => None
      case Taken(filter, s1) =>
        if s1 == [] then None
        else
          match DecodeFilters(s1[1..])
          case None => None
          case Some(more) => Some([(filter, s1[0])] + more)
  }

  function DecodeTopics(s: seq<byte>): Option<seq<seq<byte>>> {
    if s == [] then Some([])
    else
      match TakeString(s)
      case Nothing => None
      case Taken(topic, s1) =>
        match DecodeTopics(s1)
        case None => None
        case Some(more) => Some([topic] + more)
  }

  /** Reads the body of a packet whose first byte is the given one. */
  function DecodeBody(first: byte, body: seq<byte>): Option<Packet> {
    if first == 0x10 then DecodeConnect(body)
    else if first / 16 == 3 then DecodePublish(first % 16, body)
    else if first == 0x82 && |body| >= 2 then
      match DecodeFilters(body[2..])
      case None => None
      case Some(filters) => Some(Subscribing(BigEndian(body[0], body[1]), filters))
    else if first == 0xA2 && |body| >= 2 then
      match DecodeTopics(body[2..])
      case None => None
      case Some(topics) => Some(Unsubscribing(BigEndian(body[0], body[1]), topics))
    else if first == 0xC0 && body == [] then Some(Pinging)
    else if first == 0xE0 && body == [] then Some(Disconnecting)
    else None
  }

  /** Reads a packet that ends where its fixed header says. */
  function Decode(p: seq<byte>): Option<Packet> {
    match ParseHeader(p)
    case Parsed(h, n) => if n + h.remaining == |p| then DecodeBody(p[0], p[n..]) else None
    case _ => None
  }

  // ----- What a request means -----

  /** The packet a request asks for, in the terms of the standard. */
  function Meaning(r: Request): Packet
    requires RequestError(r) == 0 && !r.PubxxxRequest?
  {
    match r
    case ConnectRequest(clientId, willTopic, willMessage, userName, password, flags, keepAlive) =>
      var will := willTopic.Some?;
      Connecting(Connection(clientId, keepAlive, false, flags / 2 % 2 == 1,
                            will, if will then flags / 8 % 4 else 0, will && flags / 32 % 2 == 1,
                            willTopic, if will then willMessage else None, userName, password))
    case PublishRequest(topic, packetId, message, flags) =>
      var qos := flags / 2 % 4;
      Publishing(false, qos, flags % 2 == 1, topic.value, if qos == 0 then 0 else packetId, message)
    case SubscribeRequest(packetId, filters) => Subscribing(packetId, filters)
    case UnsubscribeRequest(packetId, topics) => Unsubscribing(packetId, topics)
    case PingRequest => Pinging
    case DisconnectRequest => Disconnecting
  }

  /** The strings of a request, and the will message, fit their 16-bit lengths. */
  predicate Expressible(r: Request) {
    && StringsFit(r) && DeclaredLength(r) < MAX_REMAINING
    && (r.ConnectRequest? && r.willTopic.Some? && r.willMessage.Some? ==> |r.willMessage.value| < 0x1_0000)
  }

  /** The packet written for a request is read as what the request means. */
  lemma MeaningIsPacked(r: Request)
    requires RequestError(r) == 0 && !r.PubxxxRequest? && Expressible(r)
    ensures Decode(PacketBytes(r)) == Some(Meaning(r))
  {
    hide BodyOf, HeaderBytes, HeaderOf, ParseHeader, DecodeBody, Decode, Meaning;
    hide RequestError, StringsFit, RuleViolation;
    SelfDelimitingIff(r);
    HeaderIsLegal(r);
    DecodeIs(HeaderOf(r), BodyOf(r));
    BodyMeans(r);
  }

  lemma HeaderIsLegal(r: Request)
    requires !r.PubxxxRequest? && Expressible(r)
    ensures RuleViolation(HeaderOf(r)) == 0 && HeaderOf(r).remaining == DeclaredLength(r)
  {
    hide DeclaredLength, StringsFit;
  }

  lemma DecodeIs(h: FixedHeader, body: seq<byte>)
    requires RuleViolation(h) == 0 && |body| == h.remaining < MAX_REMAINING
    ensures Decode(HeaderBytes(h) + body) == DecodeBody(h.controlType * 16 + h.flags, body)
  {
    HeaderRoundTrip(h, body);
    var p := HeaderBytes(h) + body;
    assert p[0] == h.controlType * 16 + h.flags;
    hide ParseHeader, DecodeBody, HeaderBytes, RuleViolation;
    assert p[|HeaderBytes(h)|..] == body;
  }

  lemma BodyMeans(r: Request)
    requires RequestError(r) == 0 && !r.PubxxxRequest? && Expressible(r)
    ensures DecodeBody(HeaderOf(r).controlType * 16 + HeaderOf(r).flags, BodyOf(r)) == Some(Meaning(r))
  {
    hide DecodeConnect, DecodePublish, DecodeFilters, DecodeTopics, FiltersBytes, TopicsBytes, DeclaredLength;
    match r
    case ConnectRequest(_, _, _, _, _, _, _) => ConnectMeans(r);
    case PublishRequest(_, _, _, flags) => PublishMeans(r);
    case SubscribeRequest(id, filters) =>
      FiltersMean(filters);
      assert (U16(id) + FiltersBytes(filters))[2..] == FiltersBytes(filters);
    case UnsubscribeRequest(id, topics) =>
      TopicsMean(topics);
      assert (U16(id) + TopicsBytes(topics))[2..] == TopicsBytes(topics);
    case PingRequest =>
    case DisconnectRequest =>
  }

  lemma TakenString(v: seq<byte>, rest: seq<byte>)
    requires |v| < 0x1_0000
    ensures TakeString(Str(v) + rest) == Taken(v, rest)
  {
    var s := Str(v) + rest;
    assert Str(v) == U16(|v|) + v;
    assert BigEndian(s[0], s[1]) == |v|;
    assert s[2..2 + |v|] == v && s[2 + |v|..] == rest;
  }

  lemma TakenAnnounced(v: Option<seq<byte>>, rest: seq<byte>)
    requires v.Some? ==> |v.value| < 0x1_0000
    ensures TakeAnnounced(OptionalStr(v) + rest, v.Some?) == Taken(v, rest)
  {
    if v.Some? { TakenString(v.value, rest); } else { assert OptionalStr(v) + rest == rest; }
    hide TakeString, Str;
  }

  lemma {:induction false} FiltersMean(filters: seq<(seq<byte>, byte)>)
    requires forall f :: f in filters ==> |f.0| < 0x1_0000
    ensures DecodeFilters(FiltersBytes(filters)) == Some(filters)
  {
    if filters != [] {
      var s := FiltersBytes(filters);
      var after := [filters[0].1] + FiltersBytes(filters[1..]);
      assert s == Str(filters[0].0) + after;
      TakenString(filters[0].0, after);
      FiltersMean(filters[1..]);
      assert after[1..] == FiltersBytes(filters[1..]);
      hide Str, TakeString, FiltersBytes;
      assert s != [] by { NotEmptyString(filters[0].0, after); }
      assert [(filters[0].0, filters[0].1)] + filters[1..] == filters;
    }
  }

  lemma NotEmptyString(v: seq<byte>, rest: seq<byte>)
    ensures Str(v) + rest != []
  {}

  lemma {:induction false} TopicsMean(topics: seq<seq<byte>>)
    requires forall t :: t in topics ==> |t| < 0x1_0000
    ensures DecodeTopics(TopicsBytes(topics)) == Some(topics)
  {
    if topics != [] {
      TakenString(topics[0], TopicsBytes(topics[1..]));
      TopicsMean(topics[1..]);
      NotEmptyString(topics[0], TopicsBytes(topics[1..]));
      hide Str, TakeString;
      assert [topics[0]] + topics[1..] == topics;
    }
  }

  lemma PublishMeans(r: Request)
    requires r.PublishRequest? && RequestError(r) == 0 && Expressible(r)
    ensures DecodePublish(HeaderOf(r).flags, BodyOf(r)) == Some(Meaning(r))
    ensures HeaderOf(r).flags < 8 && HeaderOf(r).controlType == 3
  {
    var qos, topic := r.publishFlags / 2 % 4, r.topic.value;
    PublishFlags(r.publishFlags);
    var s := (if qos == 0 then [] else U16(r.packetId)) + r.message;
    assert BodyOf(r) == Str(topic) + s;
    TakenString(topic, s);
    assert qos != 0 ==> BigEndian(s[0], s[1]) == r.packetId && s[2..] == r.message;
    hide Str, TakeString, BodyOf;
  }

  // ----- CONNECT -----

  /** The bits of the connect flags, from the highest down: user name, password, will retain, will QoS, will,
      clean session, and the reserved one. */
  lemma FlagBits(a: nat, b: nat, c: nat, q: nat, d: nat, e: nat)
    requires a <= 1 && b <= 1 && c <= 1 && q <= 3 && d <= 1 && e <= 1
    ensures var f := 128 * a + 64 * b + 32 * c + 8 * q + 4 * d + 2 * e;
            && f / 128 == a && f / 64 % 2 == b && f / 32 % 2 == c && f / 8 % 4 == q && f / 4 % 2 == d && f / 2 % 2 == e
            && f % 2 == 0
  {
    var f := 128 * a + 64 * b + 32 * c + 8 * q + 4 * d + 2 * e;
    assert f / 2 == 64 * a + 32 * b + 16 * c + 4 * q + 2 * d + e;
    assert f / 4 == 32 * a + 16 * b + 8 * c + 2 * q + d;
    assert f / 8 == 16 * a + 8 * b + 4 * c + q;
    assert f / 32 == 4 * a + 2 * b + c;
    assert f / 64 == 2 * a + b;
  }

  lemma ConnectFlagBits(r: Request)
    requires r.ConnectRequest?
    ensures var f, will := ConnectFlags(r) as int, r.willTopic.Some?;
            && (f / 128 == 1 <==> r.userName.Some?) && (f / 64 % 2 == 1 <==> r.password.Some?)
            && (f / 32 % 2 == 1 <==> will && r.connectFlags / 32 % 2 == 1)
            && f / 8 % 4 == (if will then r.connectFlags / 8 % 4 else 0)
            && (f / 4 % 2 == 1 <==> will) && (f / 2 % 2 == 1 <==> r.connectFlags / 2 % 2 == 1) && f % 2 == 0
  {
    var will := r.willTopic.Some?;
    FlagBits(One(r.userName.Some?), One(r.password.Some?), One(will && r.connectFlags / 32 % 2 == 1),
             if will then r.connectFlags / 8 % 4 else 0, One(will), One(r.connectFlags / 2 % 2 == 1));
    FlagSum(r);
    hide ConnectFlags;
  }

  function One(condition: bool): nat {
    if condition then 1 else 0
  }

  lemma FlagSum(r: Request)
    requires r.ConnectRequest?
    ensures var will := r.willTopic.Some?;
            ConnectFlags(r) ==
            128 * One(r.userName.Some?) + 64 * One(r.password.Some?) + 32 * One(will && r.connectFlags / 32 % 2 == 1)
            + 8 * (if will then r.connectFlags / 8 % 4 else 0)
            + 4 * One(will) + 2 * One(r.connectFlags / 2 % 2 == 1)
  {}

  lemma ConnectMeans(r: Request)
    requires r.ConnectRequest? && RequestError(r) == 0 && Expressible(r)
    ensures DecodeConnect(BodyOf(r)) == Some(Meaning(r))
  {
    ConnectFlagBits(r);
    ConnectTail(r);
    var message := if r.willTopic.Some? then r.willMessage else None;
    PayloadRead(r.clientId, r.willTopic, message, r.userName, r.password);
    hide BodyOf, ConnectFlags, OptionalStr, Str, DecodePayload, U16, BigEndian;
  }

  lemma PayloadRead(clientId: seq<byte>, willTopic: Option<seq<byte>>, willMessage: Option<seq<byte>>,
                    userName: Option<seq<byte>>, password: Option<seq<byte>>)
    requires |clientId| < 0x1_0000 && StringFits(willTopic) && StringFits(willMessage)
    requires StringFits(userName) && StringFits(password) && (willTopic.Some? <==> willMessage.Some?)
    ensures DecodePayload(Str(clientId) + (OptionalStr(willTopic) + (OptionalStr(willMessage)
                          + (OptionalStr(userName) + (OptionalStr(password) + [])))),
                          willTopic.Some?, userName.Some?, password.Some?)
            == Some(Payload(clientId, willTopic, willMessage, userName, password))
  {
    var s4 := OptionalStr(password) + [];
    var s3 := OptionalStr(userName) + s4;
    var s2 := OptionalStr(willMessage) + s3;
    var s1 := OptionalStr(willTopic) + s2;
    TakenString(clientId, s1);
    TakenAnnounced(willTopic, s2);
    TakenAnnounced(willMessage, s3);
    TakenAnnounced(userName, s4);
    TakenAnnounced(password, []);
    hide OptionalStr, Str, TakeString, TakeAnnounced;
  }

  lemma ConnectTail(r: Request)
    requires r.ConnectRequest? && RequestError(r) == 0 && Expressible(r)
    ensures var body, message := BodyOf(r), if r.willTopic.Some? then r.willMessage else None;
            && |body| >= 10 && body[..7] == [0, 4, 77, 81, 84, 84, 4] && body[7] == ConnectFlags(r)
            && BigEndian(body[8], body[9]) == r.keepAlive
            && body[10..] == Str(r.clientId) + (OptionalStr(r.willTopic) + (OptionalStr(message)
                             + (OptionalStr(r.userName) + (OptionalStr(r.password) + []))))
  {
    hide ConnectFlags;
    var message := if r.willTopic.Some? then r.willMessage else None;
    assert WillBytes(r) == OptionalStr(r.willTopic) + OptionalStr(message) by { WillIsTwoStrings(r); }
    hide Str, OptionalStr, WillBytes;
    var head := PROTOCOL + [ConnectFlags(r)] + U16(r.keepAlive);
    var tail := Str(r.clientId) + (OptionalStr(r.willTopic) + (OptionalStr(message)
                + (OptionalStr(r.userName) + (OptionalStr(r.password) + []))));
    assert |head| == 10 && head[..7] == PROTOCOL;
    Regrouped(head, Str(r.clientId), OptionalStr(r.willTopic), OptionalStr(message), OptionalStr(r.userName),
              OptionalStr(r.password));
    assert BodyOf(r) == head + tail;
  }

  lemma Regrouped(a: seq<byte>, b: seq<byte>, c: seq<byte>, d: seq<byte>, e: seq<byte>, f: seq<byte>)
    ensures a + b + (c + d) + e + f == a + (b + (c + (d + (e + (f + [])))))
  {}

  lemma WillIsTwoStrings(r: Request)
    requires r.ConnectRequest? && (r.willTopic.Some? ==> r.willMessage.Some? && |r.willMessage.value| < 0x1_0000)
    ensures WillBytes(r) == OptionalStr(r.willTopic) + OptionalStr(if r.willTopic.Some? then r.willMessage else None)
  {
    if r.willTopic.Some? {
      var m := r.willMessage.value;
      assert Str(m) == U16(|m|) + m;
      hide Str, U16;
    }
  }
}
