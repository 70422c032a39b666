/** What each packet from the broker is taken for, by its bytes (sections 3.2, 3.4 to 3.7, 3.9, 3.11 and 3.13 of
    MQTT 3.1.1), and which bytes are refused. */
module Responses {
  import opened Bytes
  import opened MqttConstants
  import opened FixedHeaders
  import opened Packers
  import opened Unpackers
  import opened Decoding

  // ----- Headers -----

  /** A remaining length of more than four digits is refused as soon as the fourth announces a fifth. */
  lemma TooLongIff(s: seq<byte>)
    ensures ParseHeader(s) == Bad(ERROR_INVALID_REMAINING_LENGTH) <==>
              |s| >= 5 && s[1] >= 128 && s[2] >= 128 && s[3] >= 128 && s[4] >= 128
  {
    if |s| >= 1 {
      DigitsRead(s[1..], 0);
      if |s| >= 2 && s[1] >= 128 {
        DigitsRead(s[2..], 1);
        assert s[1..][1..] == s[2..];
        if |s| >= 3 && s[2] >= 128 {
          DigitsRead(s[3..], 2);
          assert s[2..][1..] == s[3..];
          if |s| >= 4 && s[3] >= 128 {
            DigitsRead(s[4..], 3);
            assert s[3..][1..] == s[4..];
            if |s| >= 5 && s[4] >= 128 { DigitsRead(s[5..], 4); assert s[4..][1..] == s[5..]; }
          }
        }
      }
    }
    hide ParseLength;
  }

  /** One digit, and what is read after it. */
  lemma DigitsRead(s: seq<byte>, k: nat)
    requires k <= 4
    ensures k == 4 ==> ParseLength(s, k).TooLong?
    ensures k < 4 && s == [] ==> ParseLength(s, k).Incomplete?
    ensures k < 4 && s != [] && s[0] < 128 ==> ParseLength(s, k) == Digits(s[0], 1)
    ensures k < 4 && s != [] && s[0] >= 128 ==> (ParseLength(s, k).TooLong? <==> ParseLength(s[1..], k + 1).TooLong?)
    ensures k < 4 && s != [] && s[0] >= 128 ==>
              (ParseLength(s, k).Incomplete? <==> ParseLength(s[1..], k + 1).Incomplete?)
  {}

  /** An illegal first byte is refused once the remaining length is known, before the body is there. */
  lemma IllegalHeader(s: seq<byte>)
    requires s != [] && ParseLength(s[1..], 0).Digits?
    ensures var t, f := s[0] / 16, s[0] % 16;
            && (t == 0 || t == 15 ==> Unpack(s) == Failed(ERROR_CONTROL_FORBIDDEN_TYPE))
            && (t != 0 && t != 15 && t != 3 && f != (if t in {6, 8, 10} then 2 else 0) ==>
                  Unpack(s) == Failed(ERROR_CONTROL_INVALID_FLAGS))
  {
    ParsedBelowCapacity(s[1..], 0);
    LegalHeaderIff(FixedHeader(s[0] / 16, s[0] % 16, ParseLength(s[1..], 0).value));
    hide ParseLength, RuleViolation, UnpackBody;
  }

  /** A packet with a legal header, whatever follows it, is read by its type, flags and body. */
  lemma AnyPacket(h: FixedHeader, body: seq<byte>, rest: seq<byte>)
    requires RuleViolation(h) == 0 && |body| == h.remaining < MAX_REMAINING
    ensures Unpack(HeaderBytes(h) + body + rest) == UnpackBody(h, |HeaderBytes(h)|, body)
  {
    HeaderRoundTrip(h, body + rest);
    hide HeaderBytes, ParseHeader, RuleViolation, UnpackBody;
    ConcatAssociates(HeaderBytes(h), body, rest);
    var s, n := HeaderBytes(h) + body + rest, |HeaderBytes(h)|;
    assert s[n..n + |body|] == body;
  }

  /** The same for a body of less than 128 bytes, whose header has two. */
  lemma SmallPacket(first: byte, body: seq<byte>, rest: seq<byte>)
    requires |body| < 128 && RuleViolation(FixedHeader(first / 16, first % 16, |body|)) == 0
    ensures Unpack([first, |body|] + body + rest) == UnpackBody(FixedHeader(first / 16, first % 16, |body|), 2, body)
  {
    var h := FixedHeader(first / 16, first % 16, |body|);
    assert HeaderBytes(h) == [first, |body|];
    hide HeaderBytes, Unpack, UnpackBody, RuleViolation;
    AnyPacket(h, body, rest);
  }

  // ----- The packets -----

  /** A CONNACK has two bytes: the session-present flag, which may be 0 or 1, and the return code, at most 5. */
  lemma ConnackIs(body: seq<byte>, rest: seq<byte>)
    requires |body| < 128
    ensures Unpack([0x20, |body|] + body + rest) ==
            if |body| != 2 then Failed(ERROR_MALFORMED_RESPONSE)
            else if body[0] > 1 then Failed(ERROR_CONNACK_FORBIDDEN_FLAGS)
            else if body[1] > 5 then Failed(ERROR_CONNACK_FORBIDDEN_CODE)
            else Unpacked(4, Connack(body[0], body[1]))
  {
    SmallPacket(0x20, body, rest);
  }

  /** PUBACK, PUBREC, PUBREL and PUBCOMP have two bytes, the id. */
  lemma PubxxxIs(kind: nat, body: seq<byte>, rest: seq<byte>)
    requires 4 <= kind <= 7 && |body| < 128
    ensures Unpack([16 * kind + (if kind == 6 then 2 else 0), |body|] + body + rest) ==
            if |body| != 2 then Failed(ERROR_MALFORMED_RESPONSE)
            else Unpacked(4, Pubxxx(kind, BigEndian(body[0], body[1])))
  {
    SmallPacket(16 * kind + (if kind == 6 then 2 else 0), body, rest);
  }

  /** Those packets and the UNSUBACK are malformed at every other length. */
  lemma WrongLength(t: Nibble, body: seq<byte>, rest: seq<byte>)
    requires t in {2, 4, 5, 6, 7, 11} && |body| != 2 && |body| < MAX_REMAINING
    ensures Unpack([16 * t + (if t == 6 then 2 else 0)] + LengthDigits(|body|) + body + rest) ==
            Failed(ERROR_MALFORMED_RESPONSE)
  {
    var h := FixedHeader(t, if t == 6 then 2 else 0, |body|);
    LegalHeaderIff(h);
    assert HeaderBytes(h) == [16 * t + (if t == 6 then 2 else 0)] + LengthDigits(|body|);
    AnyPacket(h, body, rest);
    hide HeaderBytes, Unpack, LengthDigits, RuleViolation;
  }

  /** A SUBACK has the id and at least one return code; the codes are kept in order. */
  lemma SubackIs(body: seq<byte>, rest: seq<byte>)
    requires |body| < 128
    ensures Unpack([0x90, |body|] + body + rest) ==
            if |body| < 3 then Failed(ERROR_MALFORMED_RESPONSE)
            else Unpacked(2 + |body|, Suback(BigEndian(body[0], body[1]), body[2..]))
  {
    SmallPacket(0x90, body, rest);
  }

  /** The same for a SUBACK of any length, by its header. */
  lemma LongSubackIs(body: seq<byte>, rest: seq<byte>)
    requires 3 <= |body| < MAX_REMAINING
    ensures var head := [0x90] + LengthDigits(|body|);
            Unpack(head + body + rest) == Unpacked(|head| + |body|, Suback(BigEndian(body[0], body[1]), body[2..]))
  {
    var h := FixedHeader(9, 0, |body|);
    assert HeaderBytes(h) == [0x90] + LengthDigits(|body|);
    AnyPacket(h, body, rest);
    SubackBody(|HeaderBytes(h)|, body);
    hide HeaderBytes, Unpack, UnpackSuback, LengthDigits, BigEndian;
  }

  lemma SubackBody(n: nat, body: seq<byte>)
    requires |body| >= 3
    ensures UnpackSuback(n, body) == Unpacked(n + |body|, Suback(BigEndian(body[0], body[1]), body[2..]))
  {}

  lemma UnsubackIs(body: seq<byte>, rest: seq<byte>)
    requires |body| < 128
    ensures Unpack([0xB0, |body|] + body + rest) ==
            if |body| != 2 then Failed(ERROR_MALFORMED_RESPONSE)
            else Unpacked(4, Unsuback(BigEndian(body[0], body[1])))
  {
    SmallPacket(0xB0, body, rest);
  }

  lemma PingrespIs(rest: seq<byte>)
    ensures Unpack([0xD0, 0] + rest) == Unpacked(2, Pingresp)
  {
    SmallPacket(0xD0, [], rest);
    assert [0xD0, 0] + [] + rest == [0xD0, 0] + rest;
  }

  /** A PUBLISH of at least four bytes is read as section 3.3 says, if its topic and id are inside it. */
  lemma PublishIs(flags: nat, body: seq<byte>, rest: seq<byte>)
    requires flags < 16 && |body| < MAX_REMAINING
    ensures var head := [0x30 + flags] + LengthDigits(|body|);
            var u := Unpack(head + body + rest);
            if |body| < 4 then u == Failed(ERROR_MALFORMED_RESPONSE)
            else
              var end, qos := 2 + BigEndian(body[0], body[1]), flags / 2 % 4;
              if end + (if qos > 0 then 2 else 0) > |body| then u == Overrun
              else if qos == 0 then
                u == Unpacked(|head| + |body|, Publish(flags / 8, 0, flags % 2, body[2..end], 0, body[end..]))
              else
                u == Unpacked(|head| + |body|, Publish(flags / 8, qos, flags % 2, body[2..end],
                                                       BigEndian(body[end], body[end + 1]), body[end + 2..]))
  {
    var h := FixedHeader(3, flags, |body|);
    assert HeaderBytes(h) == [0x30 + flags] + LengthDigits(|body|);
    AnyPacket(h, body, rest);
    PublishBodyIs(flags, |HeaderBytes(h)|, body);
    hide HeaderBytes, Unpack, UnpackPublish, LengthDigits, BigEndian;
  }

  lemma PublishBodyIs(flags: Nibble, n: nat, body: seq<byte>)
    ensures var u := UnpackPublish(flags, n, body);
            if |body| < 4 then u == Failed(ERROR_MALFORMED_RESPONSE)
            else
              var end, qos := 2 + BigEndian(body[0], body[1]), flags / 2 % 4;
              if end + (if qos > 0 then 2 else 0) > |body| then u == Overrun
              else if qos == 0 then
                u == Unpacked(n + |body|, Publish(flags / 8, 0, flags % 2, body[2..end], 0, body[end..]))
              else
                u == Unpacked(n + |body|, Publish(flags / 8, qos, flags % 2, body[2..end],
                                                  BigEndian(body[end], body[end + 1]), body[end + 2..]))
  {}

  /** The packets that only a client sends are refused. */
  lemma NotForClients(first: byte, body: seq<byte>, rest: seq<byte>)
    requires first in {0x10, 0x82, 0xA2, 0xC0, 0xE0} && |body| < 128
    ensures Unpack([first, |body|] + body + rest) == Failed(ERROR_RESPONSE_INVALID_CONTROL_TYPE)
  {
    SmallPacket(first, body, rest);
  }
}
