/** The packets a client receives, and how they are recovered from the receive buffer. */
module Unpackers {
  import opened Bytes
  import opened MqttConstants
  import opened FixedHeaders
  import opened Packers

  datatype Response =
    | Connack(sessionPresent: byte, returnCode: byte)
    | Publish(dup: nat, qos: nat, retain: nat, topic: seq<byte>, packetId: uint16, payload: seq<byte>)
      // packetId is not read at quality of service 0, and shown as 0
    | Pubxxx(kind: Nibble, packetId: uint16)
    | Suback(packetId: uint16, returnCodes: seq<byte>)
    | Unsuback(packetId: uint16)
    | Pingresp

  /** What one attempt to unpack reports.  Overrun is a PUBLISH whose topic does not fit
      its remaining length: the source reads past the packet, so nothing is said about it. */
  datatype Unpacked =
    | Waiting
    | Failed(error: int)
    | Overrun
    | Unpacked(consumed: nat, response: Response)

  function UnpackConnack(n: nat, body: seq<byte>): Unpacked {
    if |body| != 2 then Failed(ERROR_MALFORMED_RESPONSE)
    else if body[0] > 1 then Failed(ERROR_CONNACK_FORBIDDEN_FLAGS)
    else if body[1] > 5 then Failed(ERROR_CONNACK_FORBIDDEN_CODE)
    else Unpacked(n + 2, Connack(body[0], body[1]))
  }

  function UnpackPublish(flags: Nibble, n: nat, body: seq<byte>): Unpacked {
    if |body| < 4 then Failed(ERROR_MALFORMED_RESPONSE)
    else
      var topicEnd := 2 + ReadU16(body);
      var idSize := if QosBits(flags) > 0 then 2 else 0;
      if topicEnd + idSize > |body| then Overrun
      else
        var id: uint16 := if idSize > 0 then ReadU16(body[topicEnd..]) else 0;
        Unpacked(n + |body|, Publish(flags / 8, QosBits(flags), flags % 2, body[2..topicEnd], id,
                                     body[topicEnd + idSize..]))
  }

  function UnpackPubxxx(kind: Nibble, n: nat, body: seq<byte>): Unpacked {
    if |body| != 2 then Failed(ERROR_MALFORMED_RESPONSE)
    else Unpacked(n + 2, Pubxxx(kind, ReadU16(body)))
  }

  function UnpackSuback(n: nat, body: seq<byte>): Unpacked {
    if |body| < 3 then Failed(ERROR_MALFORMED_RESPONSE)
    else Unpacked(n + |body|, Suback(ReadU16(body), body[2..]))
  }

  function UnpackUnsuback(n: nat, body: seq<byte>): Unpacked {
    if |body| != 2 then Failed(ERROR_MALFORMED_RESPONSE)
    else Unpacked(n + 2, Unsuback(ReadU16(body)))
  }

  /** Unpacks the body of a packet with the given header of n bytes.  A ping response is taken without its body. */
  function UnpackBody(h: FixedHeader, n: nat, body: seq<byte>): (u: Unpacked)
    requires |body| == h.remaining
    ensures !u.Waiting?
    ensures u.Unpacked? ==> u.consumed == if h.controlType == PINGRESP then n else n + |body|
    ensures u.Failed? ==> u.error < 0
  {
    if h.controlType == CONNACK then UnpackConnack(n, body)
    else if h.controlType == PUBLISH then UnpackPublish(h.flags, n, body)
    else if PUBACK <= h.controlType <= PUBCOMP then UnpackPubxxx(h.controlType, n, body)
    else if h.controlType == SUBACK then UnpackSuback(n, body)
    else if h.controlType == UNSUBACK then UnpackUnsuback(n, body)
    else if h.controlType == PINGRESP then Unpacked(n, Pingresp)
    else Failed(ERROR_RESPONSE_INVALID_CONTROL_TYPE)
  }

  function Unpack(s: seq<byte>): (u: Unpacked)
    ensures u.Unpacked? ==> 2 <= u.consumed <= |s|
    ensures u.Failed? ==> u.error < 0
  {
    match ParseHeader(s)
    case NeedMore => Waiting
    case Bad(e) => Failed(e)
    case Parsed(h, n) => UnpackBody(h, n, s[n..n + h.remaining])
  }

  method UnpackResponse(buf: array<byte>, bufsz: nat) returns (u: Unpacked)
    requires bufsz <= buf.Length
    ensures u == Unpack(buf[..bufsz])
  {
    var rv, h := UnpackFixedHeader(buf, bufsz);
    if rv == 0 {
      u := Waiting;
    } else if rv < 0 {
      u := Failed(rv);
    } else {
      assert buf[..bufsz][rv..rv + h.remaining] == buf[rv..rv + h.remaining];
      u := UnpackBody(h, rv, buf[rv..rv + h.remaining]);
    }
  }

  // ----- Unpacking is decided by the packet alone -----

  /** Once unpacking has an answer, bytes that arrive later do not change it. */
  lemma UnpackStable(s: seq<byte>, t: seq<byte>)
    requires !Unpack(s).Waiting?
    ensures Unpack(s + t) == Unpack(s)
  {
    HeaderStable(s, t);
    if ParseHeader(s).Parsed? {
      var h, n := ParseHeader(s).header, ParseHeader(s).size;
      assert (s + t)[n..n + h.remaining] == s[n..n + h.remaining];
    }
  }

  /** A byte string that is unpacked whole. */
  predicate IsPacket(p: seq<byte>) {
    Unpack(p).Unpacked? && Unpack(p).consumed == |p|
  }

  /** What is unpacked from the front of the buffer is itself a packet, with the same meaning, unless it is a ping
      response with a body: that is taken without its body, and its header alone is not a packet. */
  lemma UnpackedIsPacket(s: seq<byte>)
    requires Unpack(s).Unpacked?
    ensures var p := s[..Unpack(s).consumed];
            && (IsPacket(p) <==> !(Unpack(s).response.Pingresp? && ParseHeader(s).header.remaining > 0))
            && (IsPacket(p) ==> Unpack(p).response == Unpack(s).response)
  {
    var u := Unpack(s);
    var p := s[..u.consumed];
    assert p + s[u.consumed..] == s;
    if u.response.Pingresp? && ParseHeader(s).header.remaining > 0 {
      if !ParseHeader(p).NeedMore? { HeaderStable(p, s[u.consumed..]); }
    } else if ParseHeader(p).NeedMore? {
      PacketIsComplete(s);
    } else {
      UnpackStable(p, s[u.consumed..]);
    }
  }

  lemma PacketIsComplete(s: seq<byte>)
    requires ParseHeader(s).Parsed?
    ensures var p := ParseHeader(s);
            ParseHeader(s[..p.size + p.header.remaining]) == p
  {
    var p := ParseHeader(s);
    var d := p.size - 1;
    LengthPrefix(s[1..], 0, d + p.header.remaining);
    assert s[..p.size + p.header.remaining][1..] == s[1..][..d + p.header.remaining];
  }

  lemma {:induction false} LengthPrefix(s: seq<byte>, k: nat, m: nat)
    requires k <= 4 && ParseLength(s, k).Digits? && ParseLength(s, k).count <= m <= |s|
    ensures ParseLength(s[..m], k) == ParseLength(s, k)
  {
    if s[0] >= 128 {
      assert s[..m][1..] == s[1..][..m - 1];
      LengthPrefix(s[1..], k + 1, m - 1);
    }
  }

  /** A proper prefix of a packet is always waited for, never misread. */
  lemma PacketPrefixIncomplete(p: seq<byte>, i: nat)
    requires IsPacket(p) && i < |p|
    ensures Unpack(p[..i]).Waiting?
  {
    assert p[..i] + p[i..] == p;
    if !Unpack(p[..i]).Waiting? {
      UnpackStable(p[..i], p[i..]);
    }
  }

  // ----- Round trips -----

  /** What a receiver should see of a published message. */
  function PublishedAs(r: Request): Response
    requires r.PublishRequest? && RequestError(r) == 0
  {
    var qos := QosBits(r.publishFlags);
    Publish(0, qos, r.publishFlags % 2, r.topic.value, if qos > 0 then r.packetId else 0, r.message)
  }

  /** A packed PUBLISH is unpacked to what was packed exactly when its remaining length is at
      least 4; a shorter one, though legal, is refused as malformed. */
  lemma PublishRoundTrip(r: Request, rest: seq<byte>)
    requires r.PublishRequest? && RequestError(r) == 0 && StringsFit(r) && DeclaredLength(r) < MAX_REMAINING
    ensures DeclaredLength(r) >= 4 ==> Unpack(PacketBytes(r) + rest) == Unpacked(|PacketBytes(r)|, PublishedAs(r))
    ensures DeclaredLength(r) < 4 ==> Unpack(PacketBytes(r) + rest) == Failed(ERROR_MALFORMED_RESPONSE)
  {
    var s, h, body := PacketBytes(r) + rest, HeaderOf(r), BodyOf(r);
    var n := |HeaderBytes(h)|;
    PacketIsSelfDelimiting(r, n + DeclaredLength(r), rest);
    assert s[n..n + h.remaining] == body;
    PublishBodyRoundTrip(r, n);
  }

  lemma PublishBodyRoundTrip(r: Request, n: nat)
    requires r.PublishRequest? && RequestError(r) == 0 && StringsFit(r)
    ensures UnpackPublish(r.publishFlags % 8, n, BodyOf(r)) ==
            if |BodyOf(r)| < 4 then Failed(ERROR_MALFORMED_RESPONSE) else Unpacked(n + |BodyOf(r)|, PublishedAs(r))
  {
    PublishFlags(r.publishFlags);
    PublishBodyParts(r);
    hide QosBits, BodyOf, ReadU16;
    var topicEnd := 2 + |r.topic.value|;
    if QosBits(r.publishFlags) > 0 {
      assert BodyOf(r)[topicEnd + 2..] == BodyOf(r)[topicEnd..][2..];
    }
  }

  /** Where the parts of a packed PUBLISH are. */
  lemma PublishBodyParts(r: Request)
    requires r.PublishRequest? && RequestError(r) == 0 && StringsFit(r)
    ensures var body, topicEnd := BodyOf(r), 2 + |r.topic.value|;
            && topicEnd <= |body| && ReadU16(body) == |r.topic.value| && body[2..topicEnd] == r.topic.value
            && (if QosBits(r.publishFlags) == 0 then body[topicEnd..] == r.message
                else && |body| >= topicEnd + 2 && ReadU16(body[topicEnd..]) == r.packetId
                     && body[topicEnd..][2..] == r.message)
  {
    hide QosBits, ReadU16;
    var topic := r.topic.value;
    var tail := (if QosBits(r.publishFlags) > 0 then U16(r.packetId) else []) + r.message;
    assert BodyOf(r) == U16(|topic|) + (topic + tail);
    U16RoundTrip(|topic|, topic + tail);
    assert BodyOf(r)[2 + |topic|..] == tail;
    U16RoundTrip(r.packetId, r.message);
  }

  /** The request that would publish a received message again, unaltered. */
  function Repacked(m: Response): Request
    requires m.Publish? && m.qos < 4 && m.retain < 2
  {
    PublishRequest(Some(m.topic), m.packetId, m.payload, 2 * m.qos + m.retain)
  }

  /** a is packet b, with the DUP bit added to its first byte if dup is 1. */
  predicate SameButDup(a: seq<byte>, b: seq<byte>, dup: nat) {
    a != [] && b != [] && a[0] == b[0] + 8 * dup && a[1..] == b[1..]
  }

  /** The other way round: a received PUBLISH is what packing its contents gives, with its DUP bit, exactly if its
      header is minimal; and its contents can be packed exactly if its quality of service is not the forbidden 3. */
  lemma PublishRepack(s: seq<byte>)
    requires Unpack(s).Unpacked? && Unpack(s).response.Publish?
    ensures var m := Unpack(s).response;
            && m.qos < 4 && m.retain < 2 && m.dup < 2
            && StringsFit(Repacked(m)) && DeclaredLength(Repacked(m)) < MAX_REMAINING
            && (RequestError(Repacked(m)) == 0 <==> m.qos < 3)
    ensures var m := Unpack(s).response;
            m.qos < 3 ==>
              (SameButDup(s[..Unpack(s).consumed], PacketBytes(Repacked(m)), m.dup)
               <==> |HeaderBytes(ParseHeader(s).header)| == ParseHeader(s).size)
  {
    hide HeaderBytes, ParseHeader, BodyOf, DeclaredLength, QosBits, Unpack, UnpackPublish, Repacked, RequestError,
      StringsFit, HeaderOf, PacketBytes, SameButDup;
    var h, n, body := PublishIsParsed(s);
    BodyRepack(h.flags, n, body);
    if QosBits(h.flags) < 3 {
      PacketTaken(s, h, n, body, Repacked(UnpackPublish(h.flags, n, body).response));
    }
  }

  lemma PacketTaken(s: seq<byte>, h: FixedHeader, n: nat, body: seq<byte>, r: Request)
    requires RequestError(r) == 0
    requires ParseHeader(s) == Parsed(h, n) && HeaderOf(r) == FixedHeader(PUBLISH, h.flags % 8, h.remaining)
    requires h.controlType == PUBLISH && BodyOf(r) == body == s[n..n + h.remaining]
    ensures SameButDup(s[..n + h.remaining], PacketBytes(r), h.flags / 8) <==> |HeaderBytes(h)| == n
  {
    HeaderSansDup(h);
    hide HeaderBytes, ParseHeader, BodyOf, HeaderOf, Fits32;
    ParsedHeaderIsMinimalIff(s);
    TakeMore(s, n, h.remaining);
    var packet, with := PacketBytes(r), HeaderBytes(h) + body;
    assert with[0] == packet[0] + 8 * (h.flags / 8) && with[1..] == packet[1..];
    if |HeaderBytes(h)| != n {
      assert |s[..n + h.remaining]| != |packet|;
    }
  }

  lemma HeaderSansDup(h: FixedHeader)
    requires h.controlType == PUBLISH
    ensures var plain := HeaderBytes(FixedHeader(PUBLISH, h.flags % 8, h.remaining));
            && plain != [] && HeaderBytes(h) != []
            && HeaderBytes(h)[0] == plain[0] + 8 * (h.flags / 8) && HeaderBytes(h)[1..] == plain[1..]
  {}

  lemma PublishIsParsed(s: seq<byte>) returns (h: FixedHeader, n: nat, body: seq<byte>)
    requires Unpack(s).Unpacked? && Unpack(s).response.Publish?
    ensures ParseHeader(s) == Parsed(h, n) && n + h.remaining <= |s| && body == s[n..n + h.remaining]
    ensures h.controlType == PUBLISH && h.remaining < MAX_REMAINING && Unpack(s) == UnpackPublish(h.flags, n, body)
    ensures Unpack(s).consumed == n + h.remaining && Unpack(s).response.qos == QosBits(h.flags)
    ensures Unpack(s).response.dup == h.flags / 8
  {
    RemainingInRange(s);
    hide ParseHeader, QosBits;
    h, n := ParseHeader(s).header, ParseHeader(s).size;
    body := s[n..n + h.remaining];
  }

  lemma RemainingInRange(s: seq<byte>)
    requires ParseHeader(s).Parsed?
    ensures ParseHeader(s).header.remaining < MAX_REMAINING
  {
    ParsedBelowCapacity(s[1..], 0);
    MaxRemainingIsCapacity();
  }

  lemma BodyRepack(flags: Nibble, n: nat, body: seq<byte>)
    requires UnpackPublish(flags, n, body).Unpacked? && |body| < MAX_REMAINING
    ensures var m := UnpackPublish(flags, n, body).response;
            m.Publish? && m.qos == QosBits(flags) && m.retain == flags % 2
    ensures var r := Repacked(UnpackPublish(flags, n, body).response);
            && StringsFit(r) && DeclaredLength(r) == |body| && (RequestError(r) == 0 <==> QosBits(flags) < 3)
            && HeaderOf(r) == FixedHeader(PUBLISH, flags % 8, |body|)
            && (QosBits(flags) < 3 ==> BodyOf(r) == body)
  {
    hide *;
    var m := UnpackPublish(flags, n, body).response;
    PublishFields(flags, n, body);
    var topicEnd := 2 + ReadU16(body);
    NibbleParts(flags);
    TopicRepack(body, topicEnd);
    if QosBits(flags) > 0 { IdRepack(body[topicEnd..]); }
    RepackedBody(m, flags, body, topicEnd);
  }

  lemma PublishFields(flags: Nibble, n: nat, body: seq<byte>)
    requires UnpackPublish(flags, n, body).Unpacked?
    ensures |body| >= 4 && UnpackPublish(flags, n, body).response.Publish?
    ensures var m, topicEnd := UnpackPublish(flags, n, body).response, 2 + ReadU16(body);
            && m.qos == QosBits(flags) && m.retain == flags % 2 && topicEnd <= |body| && m.topic == body[2..topicEnd]
            && (if QosBits(flags) > 0
                then && topicEnd + 2 <= |body| && m.packetId == ReadU16(body[topicEnd..])
                     && m.payload == body[topicEnd + 2..]
                else m.payload == body[topicEnd..])
  {}

  lemma RepackedBody(m: Response, flags: Nibble, body: seq<byte>, topicEnd: nat)
    requires m.Publish? && m.qos == QosBits(flags) == QosBits(flags % 8) < 4 && m.retain == flags % 2
    requires 2 * m.qos + m.retain == flags % 8
    requires 2 <= topicEnd <= |body| && Str(m.topic) == body[..topicEnd] && |m.topic| == topicEnd - 2 < 0x1_0000
    requires body == body[..topicEnd] + body[topicEnd..]
    requires body[topicEnd..] == (if m.qos > 0 then U16(m.packetId) else []) + m.payload
    requires |body| < MAX_REMAINING
    ensures var r := Repacked(m);
            && StringsFit(r) && DeclaredLength(r) == |body| && (RequestError(r) == 0 <==> m.qos < 3)
            && HeaderOf(r) == FixedHeader(PUBLISH, flags % 8, |body|)
            && (m.qos < 3 ==> BodyOf(r) == body)
  {
    hide Str, QosBits, U16;
    var r := Repacked(m);
    var middle: seq<byte> := if m.qos > 0 then U16(m.packetId) else [];
    U16Size(m.packetId);
    assert |body| == topicEnd + |middle| + |m.payload|;
    if m.qos < 3 {
      assert BodyOf(r) == Str(m.topic) + middle + m.payload;
    }
  }

  lemma U16Size(n: uint16)
    ensures |U16(n)| == 2
  {}

  lemma TopicRepack(body: seq<byte>, topicEnd: nat)
    requires |body| >= 2 && topicEnd == 2 + ReadU16(body) && topicEnd <= |body|
    ensures Str(body[2..topicEnd]) == body[..topicEnd] && |body[2..topicEnd]| < 0x1_0000
    ensures body == body[..topicEnd] + body[topicEnd..]
  {
    assert body[..topicEnd] == body[..2] + body[2..topicEnd];
  }

  lemma IdRepack(s: seq<byte>)
    requires |s| >= 2
    ensures s == U16(ReadU16(s)) + s[2..]
  {
    assert s == s[..2] + s[2..];
  }

  lemma NibbleParts(flags: Nibble)
    ensures 2 * QosBits(flags) + flags % 2 == flags % 8 && QosBits(flags % 8) == QosBits(flags)
  {}

  /** The acknowledgements a client sends are the acknowledgements it understands. */
  lemma PubxxxRoundTrip(kind: Nibble, packetId: uint16, rest: seq<byte>)
    requires PUBACK <= kind <= PUBCOMP
    ensures Unpack(PacketBytes(PubxxxRequest(kind, packetId)) + rest) == Unpacked(4, Pubxxx(kind, packetId))
    ensures IsPacket(PacketBytes(PubxxxRequest(kind, packetId)))
  {
    var r := PubxxxRequest(kind, packetId);
    forall t ensures Unpack(PacketBytes(r) + t) == Unpacked(4, Pubxxx(kind, packetId)) {
      var s := PacketBytes(r) + t;
      PacketIsSelfDelimiting(r, 4, t);
      assert s[2..4] == U16(packetId);
      U16RoundTrip(packetId, []);
    }
    assert PacketBytes(r) + [] == PacketBytes(r);
  }
}
