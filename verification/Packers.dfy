/** The packets a client sends: what each request means in bytes, and the
    packers that write it into the send buffer. */
module Packers {
  import opened Bytes
  import opened MqttConstants
  import opened FixedHeaders

  const MAX_TOPICS: nat := 8

  datatype Request =
    | ConnectRequest(clientId: seq<byte>, willTopic: Option<seq<byte>>, willMessage: Option<seq<byte>>,
                     userName: Option<seq<byte>>, password: Option<seq<byte>>,
                     connectFlags: byte, keepAlive: uint16)
    | PublishRequest(topic: Option<seq<byte>>, packetId: uint16, message: seq<byte>, publishFlags: byte)
    | PubxxxRequest(kind: Nibble, packetId: uint16)
    | SubscribeRequest(packetId: uint16, filters: seq<(seq<byte>, byte)>)
    | UnsubscribeRequest(packetId: uint16, topics: seq<seq<byte>>)
    | PingRequest
    | DisconnectRequest

  // ----- Flag bytes -----

  /** Bits 1 and 2 of a flags byte: the quality of service. */
  function QosBits(flags: byte): (q: nat)
    ensures q < 4
  {
    flags / 2 % 4
  }

  lemma NibblesOf(t: Nibble, f: Nibble)
    ensures (t * 16 + f) / 16 == t && (t * 16 + f) / 2 % 4 == f / 2 % 4 && (t * 16 + f) / 8 % 2 == f / 8
  {
    assert (t * 16 + f) / 8 == t * 2 + f / 8;
    assert (t * 16 + f) / 2 == t * 8 + f / 2;
  }

  lemma PublishFlags(flags: byte)
    ensures QosBits(flags % 8) == QosBits(flags) && flags % 8 / 2 % 4 == QosBits(flags) && flags % 8 / 8 == 0
    ensures flags % 8 % 2 == flags % 2
  {
    assert flags == flags / 8 * 8 + flags % 8;
    assert flags / 2 == flags / 8 * 4 + flags % 8 / 2;
  }

  /** Bits 3 and 4 of the connect flags: the quality of service of the will. */
  function WillQosBits(flags: byte): (q: nat)
    ensures q < 4
  {
    flags / 8 % 4
  }

  function FlagIf(condition: bool, flag: nat): nat {
    if condition then flag else 0
  }

  /** The connect flags as sent: the reserved bit cleared, the will bits cleared
      without a will, and the presence bits recomputed. */
  function ConnectFlags(r: Request): byte
    requires r.ConnectRequest?
  {
    var hasWill := r.willTopic.Some?;
    FlagIf(r.userName.Some?, 128) + FlagIf(r.password.Some?, 64)
    + FlagIf(hasWill && r.connectFlags / 32 % 2 == 1, 32)
    + (if hasWill then 8 * WillQosBits(r.connectFlags) else 0)
    + FlagIf(hasWill, 4) + FlagIf(r.connectFlags / 2 % 2 == 1, 2)
  }

  // ----- What each request is in bytes -----

  /** A string with its 16-bit length in front; both follow the truncated length. */
  function Str(s: seq<byte>): seq<byte> {
    U16(|s| % 0x1_0000) + s[..|s| % 0x1_0000]
  }

  function OptionalStr(s: Option<seq<byte>>): seq<byte> {
    if s.Some? then Str(s.value) else []
  }

  function FiltersBytes(filters: seq<(seq<byte>, byte)>): seq<byte> {
    if filters == [] then [] else Str(filters[0].0) + [filters[0].1] + FiltersBytes(filters[1..])
  }

  function TopicsBytes(topics: seq<seq<byte>>): seq<byte> {
    if topics == [] then [] else Str(topics[0]) + TopicsBytes(topics[1..])
  }

  const PROTOCOL: seq<byte> := [0, 4, 77, 81, 84, 84, 4]  // "MQTT" and protocol level 4

  function WillBytes(r: Request): seq<byte>
    requires r.ConnectRequest? && (r.willTopic.Some? ==> r.willMessage.Some?)
  {
    if r.willTopic.Some? then
      Str(r.willTopic.value) + U16(|r.willMessage.value| % 0x1_0000) + r.willMessage.value
    else []
  }

  /** Everything after the fixed header. */
  function BodyOf(r: Request): seq<byte>
    requires RequestError(r) == 0
  {
    match r
    case ConnectRequest(clientId, _, _, userName, password, _, keepAlive) =>
      PROTOCOL + [ConnectFlags(r)] + U16(keepAlive) + Str(clientId)
      + WillBytes(r) + OptionalStr(userName) + OptionalStr(password)
    case PublishRequest(topic, packetId, message, publishFlags) =>
      Str(topic.value) + (if QosBits(publishFlags) > 0 then U16(packetId) else []) + message
    case PubxxxRequest(_, packetId) => U16(packetId)
    case SubscribeRequest(packetId, filters) => U16(packetId) + FiltersBytes(filters)
    case UnsubscribeRequest(packetId, topics) => U16(packetId) + TopicsBytes(topics)
    case PingRequest => []
    case DisconnectRequest => []
  }

  function OptionalLength(s: Option<seq<byte>>): nat {
    if s.Some? then 2 + |s.value| else 0
  }

  function FiltersLength(filters: seq<(seq<byte>, byte)>): nat {
    if filters == [] then 0 else 2 + |filters[0].0| + 1 + FiltersLength(filters[1..])
  }

  function TopicsLength(topics: seq<seq<byte>>): nat {
    if topics == [] then 0 else 2 + |topics[0]| + TopicsLength(topics[1..])
  }

  /** The remaining length before the packer truncates it to 32 bits: it counts every string in full. */
  function DeclaredLength(r: Request): nat {
    match r
    case ConnectRequest(clientId, willTopic, willMessage, userName, password, _, _) =>
      10 + 2 + |clientId|
      + (if willTopic.Some? then OptionalLength(willTopic) + OptionalLength(willMessage) else 0)
      + OptionalLength(userName) + OptionalLength(password)
    case PublishRequest(topic, _, message, publishFlags) =>
      OptionalLength(topic) + (if QosBits(publishFlags) > 0 then 2 else 0) + |message|
    case PubxxxRequest(_, _) => 2
    case SubscribeRequest(_, filters) => 2 + FiltersLength(filters)
    case UnsubscribeRequest(_, topics) => 2 + TopicsLength(topics)
    case PingRequest => 0
    case DisconnectRequest => 0
  }

  /** The lengths of a request add up without wrapping around in the 32 bits of the remaining length. */
  predicate Fits32(r: Request) {
    DeclaredLength(r) < 0x1_0000_0000
  }

  /** The errors found before the fixed header is packed; 0 for none. */
  function RequestError(r: Request): int {
    match r
    case ConnectRequest(clientId, willTopic, willMessage, _, _, flags, _) =>
      if clientId == [] && flags / 2 % 2 == 0 then ERROR_CLEAN_SESSION_IS_REQUIRED
      else if willTopic.Some? && willMessage.None? then ERROR_CONNECT_NULL_WILL_MESSAGE
      else if willTopic.Some? && WillQosBits(flags) == 3 then ERROR_CONNECT_FORBIDDEN_WILL_QOS
      else 0
    case PublishRequest(topic, _, _, flags) =>
      if topic.None? then ERROR_NULLPTR
      else if QosBits(flags) == 3 then ERROR_PUBLISH_FORBIDDEN_QOS
      else 0
    case SubscribeRequest(_, filters) => if |filters| >= MAX_TOPICS then ERROR_SUBSCRIBE_TOO_MANY_TOPICS else 0
    case UnsubscribeRequest(_, topics) => if |topics| >= MAX_TOPICS then ERROR_UNSUBSCRIBE_TOO_MANY_TOPICS else 0
    case _ => 0
  }

  function TypeOf(r: Request): Nibble {
    match r
    case ConnectRequest(_, _, _, _, _, _, _) => CONNECT
    case PublishRequest(_, _, _, _) => PUBLISH
    case PubxxxRequest(kind, _) => kind
    case SubscribeRequest(_, _) => SUBSCRIBE
    case UnsubscribeRequest(_, _) => UNSUBSCRIBE
    case PingRequest => PINGREQ
    case DisconnectRequest => DISCONNECT
  }

  /** The fixed header of a request, with the remaining length in 32 bits. */
  function HeaderOf(r: Request): FixedHeader {
    var flags :=
      match r
      case PublishRequest(_, _, _, publishFlags) => publishFlags % 8
      case PubxxxRequest(kind, _) => if kind == PUBREL then 2 else 0
      case SubscribeRequest(_, _) => 2
      case UnsubscribeRequest(_, _) => 2
      case _ => 0;
    FixedHeader(TypeOf(r), flags, DeclaredLength(r) % 0x1_0000_0000)
  }

  function PacketBytes(r: Request): seq<byte>
    requires RequestError(r) == 0
  {
    HeaderBytes(HeaderOf(r)) + BodyOf(r)
  }

  /** What a packer reports for a buffer of the given size: an error, 0 for "too small", or the bytes written. */
  function PackedSize(r: Request, bufsz: nat): int {
    if RequestError(r) != 0 then RequestError(r)
    else
      var n := PackedHeaderSize(HeaderOf(r), bufsz);
      if n <= 0 then n else n + |BodyOf(r)|
  }

  /** The packer would write beyond the buffer: the declared length has wrapped around and fits, the body does not. */
  predicate Overflows(r: Request, bufsz: nat) {
    PackedSize(r, bufsz) > bufsz
  }

  /** Only a length that has wrapped around can make a packer write beyond its buffer. */
  lemma OverflowWraps(r: Request, bufsz: nat)
    ensures Overflows(r, bufsz) ==> !Fits32(r)
  {
    if RequestError(r) == 0 { SelfDelimitingIff(r); }
  }

  // ----- Declared and written lengths -----

  predicate StringFits(s: Option<seq<byte>>) { s.Some? ==> |s.value| < 0x1_0000 }

  /** Every string of the request is short enough for its 16-bit length. */
  predicate StringsFit(r: Request) {
    match r
    case ConnectRequest(clientId, willTopic, _, userName, password, _, _) =>
      |clientId| < 0x1_0000 && StringFits(willTopic) && StringFits(userName) && StringFits(password)
    case PublishRequest(topic, _, _, _) => StringFits(topic)
    case SubscribeRequest(_, filters) => forall f :: f in filters ==> |f.0| < 0x1_0000
    case UnsubscribeRequest(_, topics) => forall t :: t in topics ==> |t| < 0x1_0000
    case _ => true
  }

  lemma StrLength(s: seq<byte>)
    ensures |Str(s)| <= 2 + |s|
    ensures |Str(s)| == 2 + |s| <==> |s| < 0x1_0000
  {}

  lemma {:induction false} FiltersBytesLength(filters: seq<(seq<byte>, byte)>)
    ensures |FiltersBytes(filters)| <= FiltersLength(filters)
    ensures |FiltersBytes(filters)| == FiltersLength(filters) <==> forall f :: f in filters ==> |f.0| < 0x1_0000
  {
    if filters != [] {
      StrLength(filters[0].0);
      FiltersBytesLength(filters[1..]);
      assert forall f :: f in filters <==> f == filters[0] || f in filters[1..];
    }
  }

  lemma {:induction false} TopicsBytesLength(topics: seq<seq<byte>>)
    ensures |TopicsBytes(topics)| <= TopicsLength(topics)
    ensures |TopicsBytes(topics)| == TopicsLength(topics) <==> forall t :: t in topics ==> |t| < 0x1_0000
  {
    if topics != [] {
      StrLength(topics[0]);
      TopicsBytesLength(topics[1..]);
      assert forall t :: t in topics <==> t == topics[0] || t in topics[1..];
    }
  }

  lemma ConnectLengthIff(r: Request)
    requires r.ConnectRequest? && RequestError(r) == 0
    ensures |BodyOf(r)| <= DeclaredLength(r)
    ensures |BodyOf(r)| == DeclaredLength(r) <==> StringsFit(r)
  {
    hide Str;
    StrLength(r.clientId);
    if r.willTopic.Some? { StrLength(r.willTopic.value); }
    if r.userName.Some? { StrLength(r.userName.value); }
    if r.password.Some? { StrLength(r.password.value); }
  }

  /** A packer writes the number of bytes it declares exactly when every string fits its 16-bit length; otherwise
      fewer. */
  lemma SelfDelimitingIff(r: Request)
    requires RequestError(r) == 0
    ensures |BodyOf(r)| <= DeclaredLength(r)
    ensures |BodyOf(r)| == DeclaredLength(r) <==> StringsFit(r)
  {
    hide Str;
    match r
    case ConnectRequest(_, _, _, _, _, _, _) => ConnectLengthIff(r);
    case PublishRequest(topic, _, _, _) => StrLength(topic.value);
    case SubscribeRequest(_, filters) => FiltersBytesLength(filters);
    case UnsubscribeRequest(_, topics) => TopicsBytesLength(topics);
    case _ =>
  }

  lemma PackedSizeParts(r: Request, bufsz: nat)
    requires PackedSize(r, bufsz) > 0
    ensures RequestError(r) == 0 && RuleViolation(HeaderOf(r)) == 0 && HeaderOf(r).remaining < MAX_REMAINING
    ensures PackedSize(r, bufsz) == |HeaderBytes(HeaderOf(r))| + |BodyOf(r)|
    ensures |HeaderBytes(HeaderOf(r))| + HeaderOf(r).remaining <= bufsz
  {}

  /** Every packet written is one packet to the receiver: its header is recovered from the written
      bytes and the packet ends where the declared length says, whatever follows. */
  lemma PacketIsSelfDelimiting(r: Request, bufsz: nat, rest: seq<byte>)
    requires Fits32(r) && StringsFit(r) && PackedSize(r, bufsz) > 0
    ensures PackedSize(r, bufsz) == |PacketBytes(r)| <= bufsz
    ensures ParseHeader(PacketBytes(r) + rest) == Parsed(HeaderOf(r), |HeaderBytes(HeaderOf(r))|)
    ensures |PacketBytes(r)| == |HeaderBytes(HeaderOf(r))| + HeaderOf(r).remaining
  {
    SelfDelimitingIff(r);
    PackedSizeParts(r, bufsz);
    assert HeaderOf(r).remaining == DeclaredLength(r);
    hide BodyOf, HeaderBytes, HeaderOf, DeclaredLength, PackedSize, ParseHeader, RuleViolation;
    HeaderRoundTrip(HeaderOf(r), BodyOf(r) + rest);
    ConcatAssociates(HeaderBytes(HeaderOf(r)), BodyOf(r), rest);
  }

  /** The last byte of room decides: a request is packed once the buffer holds its header and declared length. */
  lemma PackedIffRoom(r: Request, bufsz: nat)
    requires RequestError(r) == 0 && RuleViolation(HeaderOf(r)) == 0 && HeaderOf(r).remaining < MAX_REMAINING
    ensures PackedSize(r, bufsz) >= 0
    ensures PackedSize(r, bufsz) > 0 <==> |HeaderBytes(HeaderOf(r))| + HeaderOf(r).remaining <= bufsz
  {}

  // ----- The packers -----

  method PackUint16(buf: array<byte>, at: nat, n: uint16) returns (size: nat)
    requires at + 2 <= buf.Length
    modifies buf
    ensures size == 2 && Wrote(old(buf[..]), buf[..], at, U16(n))
  {
    buf[at] := n / 0x100;
    buf[at + 1] := n % 0x100;
    return 2;
  }

  method PackStr(buf: array<byte>, at: nat, s: seq<byte>) returns (size: nat)
    requires at + |Str(s)| <= buf.Length
    modifies buf
    ensures size == |Str(s)| && Wrote(old(buf[..]), buf[..], at, Str(s))
  {
    hide Wrote;
    ghost var was := buf[..];
    var length := |s| % 0x1_0000;
    var n := PackUint16(buf, at, length);
    ghost var done: seq<byte> := U16(length);
    var i := 0;
    while i < length
      invariant 0 <= i <= length
      invariant done == U16(length) + s[..i]
      invariant Wrote(was, buf[..], at, done)
    {
      WroteByte(was, buf[..], at, done, s[i]);
      ghost var before := buf[..];
      buf[at + 2 + i] := s[i];
      assert buf[..] == before[at + |done| := s[i]];
      done := done + [s[i]];
      i := i + 1;
    }
    return length + 2;
  }

  /** Writes a string after what has been written so far. */
  method AppendStr(buf: array<byte>, at: nat, p: nat, s: seq<byte>, ghost was: seq<byte>, ghost done: seq<byte>)
    returns (p': nat)
    requires p == at + |done| && Wrote(was, buf[..], at, done) && p + |Str(s)| <= buf.Length
    modifies buf
    ensures p' == p + |Str(s)| && Wrote(was, buf[..], at, done + Str(s))
  {
    ghost var before := buf[..];
    var n := PackStr(buf, p, s);
    WroteTwice(was, before, buf[..], at, done, Str(s));
    return p + n;
  }

  method AppendUint16(buf: array<byte>, at: nat, p: nat, x: uint16, ghost was: seq<byte>, ghost done: seq<byte>)
    returns (p': nat)
    requires p == at + |done| && Wrote(was, buf[..], at, done) && p + 2 <= buf.Length
    modifies buf
    ensures p' == p + 2 && Wrote(was, buf[..], at, done + U16(x))
  {
    ghost var before := buf[..];
    var n := PackUint16(buf, p, x);
    WroteTwice(was, before, buf[..], at, done, U16(x));
    return p + n;
  }

  method AppendBytes(buf: array<byte>, at: nat, p: nat, w: seq<byte>, ghost was: seq<byte>, ghost done: seq<byte>)
    returns (p': nat)
    requires p == at + |done| && Wrote(was, buf[..], at, done) && p + |w| <= buf.Length
    modifies buf
    ensures p' == p + |w| && Wrote(was, buf[..], at, done + w)
  {
    ghost var before := buf[..];
    Copy(buf, p, w);
    WroteTwice(was, before, buf[..], at, done, w);
    return p + |w|;
  }

  /** What every packer promises: the reported size, the packet's bytes at the given
      position when it fits, and never a change outside the window it was given. */
  twostate predicate PackedInto(buf: array<byte>, at: nat, bufsz: nat, r: Request, rv: int)
    reads buf
  {
    && rv == PackedSize(r, bufsz)
    && (rv > 0 ==> Wrote(old(buf[..]), buf[..], at, PacketBytes(r)))
    && KeptOutside(old(buf[..]), buf[..], at, bufsz)
  }

  lemma PackedStaysInside(r: Request, bufsz: nat, was: seq<byte>, now: seq<byte>, at: nat)
    requires PackedSize(r, bufsz) > 0 && !Overflows(r, bufsz) && at + bufsz <= |was|
    requires Wrote(was, now, at, PacketBytes(r))
    ensures |PacketBytes(r)| == PackedSize(r, bufsz) <= bufsz && KeptOutside(was, now, at, bufsz)
  {
    WroteKeepsOutside(was, now, at, PacketBytes(r), bufsz);
  }

  /** The optional fields of a connect packet: the will, the user name and the password. */
  method WriteCredentials(buf: array<byte>, at: nat, p0: nat, r: Request, ghost was: seq<byte>, ghost done: seq<byte>)
    returns (p: nat)
    requires r.ConnectRequest? && RequestError(r) == 0
    requires p0 == at + |done| && Wrote(was, buf[..], at, done)
    requires p0 + |WillBytes(r) + OptionalStr(r.userName) + OptionalStr(r.password)| <= buf.Length
    modifies buf
    ensures Wrote(was, buf[..], at, done + WillBytes(r) + OptionalStr(r.userName) + OptionalStr(r.password))
    ensures p == p0 + |WillBytes(r) + OptionalStr(r.userName) + OptionalStr(r.password)|
  {
    hide Str, Wrote;
    p := p0;
    ghost var all := done;
    if r.willTopic.Some? {
      p := AppendStr(buf, at, p, r.willTopic.value, was, all);
      all := all + Str(r.willTopic.value);
      p := AppendUint16(buf, at, p, |r.willMessage.value| % 0x1_0000, was, all);
      all := all + U16(|r.willMessage.value| % 0x1_0000);
      p := AppendBytes(buf, at, p, r.willMessage.value, was, all);
      all := all + r.willMessage.value;
    }
    assert all == done + WillBytes(r);
    if r.userName.Some? {
      p := AppendStr(buf, at, p, r.userName.value, was, all);
      all := all + Str(r.userName.value);
    }
    assert all == done + WillBytes(r) + OptionalStr(r.userName);
    if r.password.Some? {
      p := AppendStr(buf, at, p, r.password.value, was, all);
      all := all + Str(r.password.value);
    }
    assert all == done + WillBytes(r) + OptionalStr(r.userName) + OptionalStr(r.password);
  }

  method WriteConnect(buf: array<byte>, at: nat, p0: nat, r: Request, ghost was: seq<byte>, ghost done: seq<byte>)
    returns (p: nat)
    requires r.ConnectRequest? && RequestError(r) == 0
    requires p0 == at + |done| && Wrote(was, buf[..], at, done) && p0 + |BodyOf(r)| <= buf.Length
    modifies buf
    ensures p == p0 + |BodyOf(r)| && Wrote(was, buf[..], at, done + BodyOf(r))
  {
    hide Str, Wrote, WillBytes, OptionalStr, ConnectFlags;
    var fixed := PROTOCOL + [ConnectFlags(r)];
    ConnectBody(r, done);
    hide BodyOf, U16;
    ghost var head := done + fixed + U16(r.keepAlive) + Str(r.clientId);
    p := AppendBytes(buf, at, p0, fixed, was, done);
    p := AppendUint16(buf, at, p, r.keepAlive, was, done + fixed);
    p := AppendStr(buf, at, p, r.clientId, was, done + fixed + U16(r.keepAlive));
    p := WriteCredentials(buf, at, p, r, was, head);
  }

  lemma ConnectBody(r: Request, done: seq<byte>)
    requires r.ConnectRequest? && RequestError(r) == 0
    ensures done + BodyOf(r) == done + (PROTOCOL + [ConnectFlags(r)]) + U16(r.keepAlive) + Str(r.clientId)
                                + WillBytes(r) + OptionalStr(r.userName) + OptionalStr(r.password)
  {
    hide Str, WillBytes, OptionalStr, ConnectFlags, U16;
  }

  method WritePublish(buf: array<byte>, at: nat, p0: nat, r: Request, ghost was: seq<byte>, ghost done: seq<byte>)
    returns (p: nat)
    requires r.PublishRequest? && RequestError(r) == 0
    requires p0 == at + |done| && Wrote(was, buf[..], at, done) && p0 + |BodyOf(r)| <= buf.Length
    modifies buf
    ensures p == p0 + |BodyOf(r)| && Wrote(was, buf[..], at, done + BodyOf(r))
  {
    hide Str, Wrote;
    ghost var all := done + Str(r.topic.value);
    p := AppendStr(buf, at, p0, r.topic.value, was, done);
    if QosBits(r.publishFlags) > 0 {
      p := AppendUint16(buf, at, p, r.packetId, was, all);
      all := all + U16(r.packetId);
    }
    p := AppendBytes(buf, at, p, r.message, was, all);
    assert all + r.message == done + BodyOf(r);
  }

  method PackConnect(buf: array<byte>, at: nat, bufsz: nat, r: Request) returns (rv: int)
    requires r.ConnectRequest? && !Overflows(r, bufsz) && at + bufsz <= buf.Length
    modifies buf
    ensures PackedInto(buf, at, bufsz, r, rv)
  {
    if r.clientId == [] && r.connectFlags / 2 % 2 == 0 {
      return ERROR_CLEAN_SESSION_IS_REQUIRED;
    }
    if r.willTopic.Some? {
      if r.willMessage.None? {
        return ERROR_CONNECT_NULL_WILL_MESSAGE;
      }
      if WillQosBits(r.connectFlags) == 3 {
        return ERROR_CONNECT_FORBIDDEN_WILL_QOS;
      }
    }
    var connectFlags := ConnectFlags(r);
    var h := HeaderOf(r);
    rv := PackFixedHeader(buf, at, bufsz, h);
    if rv <= 0 {
      return rv;
    }
    ghost var was := old(buf[..]);
    var p := WriteConnect(buf, at, at + rv, r, was, HeaderBytes(h));
    PackedStaysInside(r, bufsz, was, buf[..], at);
    return p - at;
  }

  method PackPublish(buf: array<byte>, at: nat, bufsz: nat, r: Request) returns (rv: int)
    requires r.PublishRequest? && !Overflows(r, bufsz) && at + bufsz <= buf.Length
    modifies buf
    ensures PackedInto(buf, at, bufsz, r, rv)
  {
    if r.topic.None? {
      return ERROR_NULLPTR;
    }
    var qos := QosBits(r.publishFlags);
    if qos == 3 {
      return ERROR_PUBLISH_FORBIDDEN_QOS;
    }
    var h := HeaderOf(r);
    rv := PackFixedHeader(buf, at, bufsz, h);
    if rv <= 0 {
      return rv;
    }
    ghost var was := old(buf[..]);
    var p := WritePublish(buf, at, at + rv, r, was, HeaderBytes(h));
    PackedStaysInside(r, bufsz, was, buf[..], at);
    return p - at;
  }

  method PackPubxxx(buf: array<byte>, at: nat, bufsz: nat, r: Request) returns (rv: int)
    requires r.PubxxxRequest? && at + bufsz <= buf.Length
    modifies buf
    ensures PackedInto(buf, at, bufsz, r, rv)
  {
    var h := HeaderOf(r);
    rv := PackFixedHeader(buf, at, bufsz, h);
    if rv <= 0 {
      return rv;
    }
    ghost var was := old(buf[..]);
    var p := AppendUint16(buf, at, at + rv, r.packetId, was, HeaderBytes(h));
    PackedStaysInside(r, bufsz, was, buf[..], at);
    return p - at;
  }

  method WriteFilters(buf: array<byte>, at: nat, p0: nat, filters: seq<(seq<byte>, byte)>, ghost was: seq<byte>,
                      ghost done: seq<byte>)
    returns (p: nat)
    requires p0 == at + |done| && Wrote(was, buf[..], at, done) && p0 + |FiltersBytes(filters)| <= buf.Length
    modifies buf
    ensures p == p0 + |FiltersBytes(filters)| && Wrote(was, buf[..], at, done + FiltersBytes(filters))
  {
    hide Wrote, Str, FiltersBytes;
    p := p0;
    ghost var all, target := done, done + FiltersBytes(filters);
    var i := 0;
    assert filters[0..] == filters;
    while i < |filters|
      invariant 0 <= i <= |filters| && p == at + |all|
      invariant Wrote(was, buf[..], at, all)
      invariant all + FiltersBytes(filters[i..]) == target
    {
      FiltersAfter(all, filters, i);
      p := AppendStr(buf, at, p, filters[i].0, was, all);
      all := all + Str(filters[i].0);
      p := AppendBytes(buf, at, p, [filters[i].1], was, all);
      all := all + [filters[i].1];
      i := i + 1;
    }
    FiltersAtEnd(all, filters[i..]);
  }

  lemma FiltersAfter(all: seq<byte>, filters: seq<(seq<byte>, byte)>, i: nat)
    requires i < |filters|
    ensures all + FiltersBytes(filters[i..]) ==
            all + Str(filters[i].0) + [filters[i].1] + FiltersBytes(filters[i + 1..])
  {
    assert filters[i..][1..] == filters[i + 1..];
  }

  lemma FiltersAtEnd(all: seq<byte>, filters: seq<(seq<byte>, byte)>)
    requires filters == []
    ensures all + FiltersBytes(filters) == all
  {}

  method PackSubscribe(buf: array<byte>, at: nat, bufsz: nat, r: Request) returns (rv: int)
    requires r.SubscribeRequest? && !Overflows(r, bufsz) && at + bufsz <= buf.Length
    modifies buf
    ensures PackedInto(buf, at, bufsz, r, rv)
  {
    if |r.filters| >= MAX_TOPICS {
      return ERROR_SUBSCRIBE_TOO_MANY_TOPICS;
    }
    var h := HeaderOf(r);
    rv := PackFixedHeader(buf, at, bufsz, h);
    if rv <= 0 {
      return rv;
    }
    ghost var was, done := old(buf[..]), HeaderBytes(h) + U16(r.packetId);
    assert done + FiltersBytes(r.filters) == PacketBytes(r);
    var p := AppendUint16(buf, at, at + rv, r.packetId, was, HeaderBytes(h));
    p := WriteFilters(buf, at, p, r.filters, was, done);
    PackedStaysInside(r, bufsz, was, buf[..], at);
    return p - at;
  }

  method WriteTopics(buf: array<byte>, at: nat, p0: nat, topics: seq<seq<byte>>, ghost was: seq<byte>,
                     ghost done: seq<byte>)
    returns (p: nat)
    requires p0 == at + |done| && Wrote(was, buf[..], at, done) && p0 + |TopicsBytes(topics)| <= buf.Length
    modifies buf
    ensures p == p0 + |TopicsBytes(topics)| && Wrote(was, buf[..], at, done + TopicsBytes(topics))
  {
    hide Wrote, Str, TopicsBytes;
    p := p0;
    ghost var all, target := done, done + TopicsBytes(topics);
    var i := 0;
    assert topics[0..] == topics;
    while i < |topics|
      invariant 0 <= i <= |topics| && p == at + |all|
      invariant Wrote(was, buf[..], at, all)
      invariant all + TopicsBytes(topics[i..]) == target
    {
      TopicsAfter(all, topics, i);
      p := AppendStr(buf, at, p, topics[i], was, all);
      all := all + Str(topics[i]);
      i := i + 1;
    }
    TopicsAtEnd(all, topics[i..]);
  }

  lemma TopicsAfter(all: seq<byte>, topics: seq<seq<byte>>, i: nat)
    requires i < |topics|
    ensures all + TopicsBytes(topics[i..]) == all + Str(topics[i]) + TopicsBytes(topics[i + 1..])
  {
    assert topics[i..][1..] == topics[i + 1..];
  }

  lemma TopicsAtEnd(all: seq<byte>, topics: seq<seq<byte>>)
    requires topics == []
    ensures all + TopicsBytes(topics) == all
  {}

  method PackUnsubscribe(buf: array<byte>, at: nat, bufsz: nat, r: Request) returns (rv: int)
    requires r.UnsubscribeRequest? && !Overflows(r, bufsz) && at + bufsz <= buf.Length
    modifies buf
    ensures PackedInto(buf, at, bufsz, r, rv)
  {
    if |r.topics| >= MAX_TOPICS {
      return ERROR_UNSUBSCRIBE_TOO_MANY_TOPICS;
    }
    var h := HeaderOf(r);
    rv := PackFixedHeader(buf, at, bufsz, h);
    if rv <= 0 {
      return rv;
    }
    ghost var was, done := old(buf[..]), HeaderBytes(h) + U16(r.packetId);
    assert done + TopicsBytes(r.topics) == PacketBytes(r);
    var p := AppendUint16(buf, at, at + rv, r.packetId, was, HeaderBytes(h));
    p := WriteTopics(buf, at, p, r.topics, was, done);
    PackedStaysInside(r, bufsz, was, buf[..], at);
    return p - at;
  }

  method PackBare(buf: array<byte>, at: nat, bufsz: nat, r: Request) returns (rv: int)
    requires (r.PingRequest? || r.DisconnectRequest?) && at + bufsz <= buf.Length
    modifies buf
    ensures PackedInto(buf, at, bufsz, r, rv)
  {
    rv := PackFixedHeader(buf, at, bufsz, HeaderOf(r));
    if rv > 0 {
      assert PacketBytes(r) == HeaderBytes(HeaderOf(r));
      PackedStaysInside(r, bufsz, old(buf[..]), buf[..], at);
    }
  }

  /** The pack call of a request. */
  method Pack(buf: array<byte>, at: nat, bufsz: nat, r: Request) returns (rv: int)
    requires !Overflows(r, bufsz) && at + bufsz <= buf.Length
    modifies buf
    ensures PackedInto(buf, at, bufsz, r, rv)
  {
    match r
    case ConnectRequest(_, _, _, _, _, _, _) => rv := PackConnect(buf, at, bufsz, r);
    case PublishRequest(_, _, _, _) => rv := PackPublish(buf, at, bufsz, r);
    case PubxxxRequest(_, _) => rv := PackPubxxx(buf, at, bufsz, r);
    case SubscribeRequest(_, _) => rv := PackSubscribe(buf, at, bufsz, r);
    case UnsubscribeRequest(_, _) => rv := PackUnsubscribe(buf, at, bufsz, r);
    case PingRequest => rv := PackBare(buf, at, bufsz, r);
    case DisconnectRequest => rv := PackBare(buf, at, bufsz, r);
  }
}
