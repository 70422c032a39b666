/** Error codes, control types and client constants of the MQTT client. */
module MqttConstants {

  const MQTT_OK: int := 1

  const ERROR_UNKNOWN: int := -0x8000_0000
  const ERROR_NULLPTR: int := ERROR_UNKNOWN + 1
  const ERROR_CONTROL_FORBIDDEN_TYPE: int := ERROR_UNKNOWN + 2
  const ERROR_CONTROL_INVALID_FLAGS: int := ERROR_UNKNOWN + 3
  const ERROR_CONNECT_CLIENT_ID_REFUSED: int := ERROR_UNKNOWN + 5
  const ERROR_CONNECT_NULL_WILL_MESSAGE: int := ERROR_UNKNOWN + 6
  const ERROR_CONNECT_FORBIDDEN_WILL_QOS: int := ERROR_UNKNOWN + 7
  const ERROR_CONNACK_FORBIDDEN_FLAGS: int := ERROR_UNKNOWN + 8
  const ERROR_CONNACK_FORBIDDEN_CODE: int := ERROR_UNKNOWN + 9
  const ERROR_PUBLISH_FORBIDDEN_QOS: int := ERROR_UNKNOWN + 10
  const ERROR_SUBSCRIBE_TOO_MANY_TOPICS: int := ERROR_UNKNOWN + 11
  const ERROR_MALFORMED_RESPONSE: int := ERROR_UNKNOWN + 12
  const ERROR_UNSUBSCRIBE_TOO_MANY_TOPICS: int := ERROR_UNKNOWN + 13
  const ERROR_RESPONSE_INVALID_CONTROL_TYPE: int := ERROR_UNKNOWN + 14
  const ERROR_CONNECT_NOT_CALLED: int := ERROR_UNKNOWN + 15
  const ERROR_SEND_BUFFER_IS_FULL: int := ERROR_UNKNOWN + 16
  const ERROR_MALFORMED_REQUEST: int := ERROR_UNKNOWN + 18
  const ERROR_RECV_BUFFER_TOO_SMALL: int := ERROR_UNKNOWN + 19
  const ERROR_ACK_OF_UNKNOWN: int := ERROR_UNKNOWN + 20
  const ERROR_CONNECTION_REFUSED: int := ERROR_UNKNOWN + 22
  const ERROR_SUBSCRIBE_FAILED: int := ERROR_UNKNOWN + 23
  const ERROR_INVALID_REMAINING_LENGTH: int := ERROR_UNKNOWN + 26
  const ERROR_CLEAN_SESSION_IS_REQUIRED: int := ERROR_UNKNOWN + 27

  type Nibble = x: int | 0 <= x < 16

  const CONNECT: Nibble := 1
  const CONNACK: Nibble := 2
  const PUBLISH: Nibble := 3
  const PUBACK: Nibble := 4
  const PUBREC: Nibble := 5
  const PUBREL: Nibble := 6
  const PUBCOMP: Nibble := 7
  const SUBSCRIBE: Nibble := 8
  const SUBACK: Nibble := 9
  const UNSUBSCRIBE: Nibble := 10
  const UNSUBACK: Nibble := 11
  const PINGREQ: Nibble := 12
  const PINGRESP: Nibble := 13
  const DISCONNECT: Nibble := 14
}

/** The fixed header of a control packet and its variable-length remaining
    length (section 2.2 of MQTT 3.1.1). */
module FixedHeaders {
  import opened Bytes
  import opened MqttConstants

  const MAX_REMAINING: int := 256 * 1024 * 1024

  datatype FixedHeader = FixedHeader(controlType: Nibble, flags: Nibble, remaining: uint32)

  // The rule tables: which types exist, and which of them fix their flags to what

  predicate TypeIsValid(t: Nibble) { t != 0 && t != 15 }

  predicate FlagsAreFixed(t: Nibble) { t != 0 && t != PUBLISH && t != 15 }

  function RequiredFlags(t: Nibble): Nibble {
    if t == PUBREL || t == SUBSCRIBE || t == UNSUBSCRIBE then 2 else 0
  }

  function RuleViolation(h: FixedHeader): int {
    if !TypeIsValid(h.controlType) then ERROR_CONTROL_FORBIDDEN_TYPE
    else if FlagsAreFixed(h.controlType) && h.flags != RequiredFlags(h.controlType) then ERROR_CONTROL_INVALID_FLAGS
    else 0
  }

  // ----- The remaining length -----

  /** Base-128 digits, least significant first, each but the last with the continuation bit. */
  function LengthDigits(n: nat): (ds: seq<byte>)
    ensures ds != []
  {
    if n < 128 then [n] else [n % 128 + 128] + LengthDigits(n / 128)
  }

  datatype LengthParse = Incomplete | TooLong | Digits(value: nat, count: nat)

  /** Reads digits after k of them have been read. */
  function ParseLength(s: seq<byte>, k: nat): (p: LengthParse)
    requires k <= 4
    ensures p.Digits? ==> 1 <= p.count <= |s| && p.count + k <= 4
  {
    if k == 4 then TooLong
    else if s == [] then Incomplete
    else if s[0] < 128 then Digits(s[0], 1)
    else
      match ParseLength(s[1..], k + 1)
      case Digits(v, d) => Digits(s[0] - 128 + 128 * v, d + 1)
      case other => other
  }

  /** One more than the largest value that 4 - k digits can hold. */
  function Capacity(k: nat): nat
    requires k <= 4
    decreases 4 - k
  {
    if k == 4 then 1 else 128 * Capacity(k + 1)
  }

  lemma {:induction false} ParsedBelowCapacity(s: seq<byte>, k: nat)
    requires k <= 4 && ParseLength(s, k).Digits?
    ensures ParseLength(s, k).value < Capacity(k)
    decreases 4 - k
  {
    if s[0] >= 128 {
      ParsedBelowCapacity(s[1..], k + 1);
    } else {
      CapacityGrows(k + 1);
    }
  }

  lemma {:induction false} CapacityGrows(k: nat)
    requires k <= 4
    ensures Capacity(k) >= 1
    decreases 4 - k
  {
    if k < 4 { CapacityGrows(k + 1); }
  }

  /** Reading what was written gives the number back, and the encoding takes no more digits than there is room for. */
  lemma {:induction false} LengthRoundTrip(n: nat, k: nat, rest: seq<byte>)
    requires k <= 3 && n < Capacity(k)
    ensures ParseLength(LengthDigits(n) + rest, k) == Digits(n, |LengthDigits(n)|)
    decreases 4 - k
  {
    var s := LengthDigits(n) + rest;
    if n >= 128 {
      assert s[1..] == LengthDigits(n / 128) + rest;
      LengthRoundTrip(n / 128, k + 1, rest);
    }
  }

  /** The encoding is the shortest: no digit string that is read as n is shorter,
      and the only one as short is the encoding itself. */
  lemma {:induction false} LengthMinimal(s: seq<byte>, k: nat)
    requires k <= 4 && ParseLength(s, k).Digits?
    ensures var p := ParseLength(s, k);
            && |LengthDigits(p.value)| <= p.count
            && (|LengthDigits(p.value)| == p.count <==> s[..p.count] == LengthDigits(p.value))
  {
    var p := ParseLength(s, k);
    if s[0] >= 128 {
      LengthMinimal(s[1..], k + 1);
      var q := ParseLength(s[1..], k + 1);
      assert s[..p.count] == [s[0]] + s[1..][..q.count];
      if p.value >= 128 {
        assert p.value / 128 == q.value && p.value % 128 == s[0] - 128;
        assert LengthDigits(p.value) == [s[0]] + LengthDigits(q.value);
      }
    } else {
      assert s[..1] == [s[0]];
    }
  }

  lemma LengthSizes(n: nat)
    requires n < MAX_REMAINING
    ensures |LengthDigits(n)| == if n < 128 then 1 else if n < 16384 then 2 else if n < 2097152 then 3 else 4
  {
    var a := n / 128;
    var b := a / 128;
    var c := b / 128;
    assert LengthDigits(c) == [c] || c >= 128;
    if n >= 128 { assert |LengthDigits(n)| == 1 + |LengthDigits(a)|; }
    if a >= 128 { assert |LengthDigits(a)| == 1 + |LengthDigits(b)|; }
    if b >= 128 { assert |LengthDigits(b)| == 1 + |LengthDigits(c)|; }
  }

  lemma {:induction false} LengthStable(s: seq<byte>, t: seq<byte>, k: nat)
    requires k <= 4 && !ParseLength(s, k).Incomplete?
    ensures ParseLength(s + t, k) == ParseLength(s, k)
  {
    if k < 4 && s[0] >= 128 {
      assert (s + t)[1..] == s[1..] + t;
      LengthStable(s[1..], t, k + 1);
    }
  }

  // ----- The fixed header -----

  function HeaderBytes(h: FixedHeader): seq<byte> {
    [h.controlType * 16 + h.flags] + LengthDigits(h.remaining)
  }

  /** What packing a header into a buffer of the given size reports: an error, 0 for
      "does not fit together with the rest of its packet", or the header's size. */
  function PackedHeaderSize(h: FixedHeader, bufsz: nat): int {
    if RuleViolation(h) != 0 then RuleViolation(h)
    else if bufsz == 0 then 0
    else if h.remaining >= MAX_REMAINING then ERROR_INVALID_REMAINING_LENGTH
    else if bufsz < |HeaderBytes(h)| + h.remaining then 0
    else |HeaderBytes(h)|
  }

  datatype HeaderParse = NeedMore | Bad(error: int) | Parsed(header: FixedHeader, size: nat)

  function ParseHeader(s: seq<byte>): (p: HeaderParse)
    ensures p.Parsed? ==> p.size + p.header.remaining <= |s|
    ensures p.Bad? ==> p.error < 0
  {
    if s == [] then NeedMore
    else
      match ParseLength(s[1..], 0)
      case Incomplete => NeedMore
      case TooLong => Bad(ERROR_INVALID_REMAINING_LENGTH)
      case Digits(v, d) =>
        ParsedBelowCapacity(s[1..], 0);
        var h := FixedHeader(s[0] / 16, s[0] % 16, v);
        if RuleViolation(h) != 0 then Bad(RuleViolation(h))
        else if |s| - 1 - d < v then NeedMore
        else Parsed(h, 1 + d)
  }

  lemma MaxRemainingIsCapacity()
    ensures Capacity(0) == MAX_REMAINING
  {
    assert Capacity(3) == 128 * Capacity(4);
    assert Capacity(1) == 128 * Capacity(2);
  }

  /** Packing and unpacking a header is the identity, with any body of at least the declared size after it. */
  lemma HeaderRoundTrip(h: FixedHeader, body: seq<byte>)
    requires RuleViolation(h) == 0 && h.remaining < MAX_REMAINING && h.remaining <= |body|
    ensures ParseHeader(HeaderBytes(h) + body) == Parsed(h, |HeaderBytes(h)|)
  {
    var s := HeaderBytes(h) + body;
    MaxRemainingIsCapacity();
    LengthRoundTrip(h.remaining, 0, body);
    assert s[1..] == LengthDigits(h.remaining) + body;
  }

  /** A header read from the wire takes at least as many bytes as packing it would, and equals the packed header if it
      takes as many. */
  lemma ParsedHeaderIsMinimalIff(s: seq<byte>)
    requires ParseHeader(s).Parsed?
    ensures var p := ParseHeader(s);
            && |HeaderBytes(p.header)| <= p.size
            && (|HeaderBytes(p.header)| == p.size <==> s[..p.size] == HeaderBytes(p.header))
  {
    var p := ParseHeader(s);
    LengthMinimal(s[1..], 0);
    assert s[..p.size] == [s[0]] + s[1..][..p.size - 1];
  }

  /** Once the parser has decided, more bytes do not change its mind. */
  lemma HeaderStable(s: seq<byte>, t: seq<byte>)
    requires !ParseHeader(s).NeedMore?
    ensures ParseHeader(s + t) == ParseHeader(s)
  {
    assert (s + t)[1..] == s[1..] + t;
    LengthStable(s[1..], t, 0);
  }

  /** No proper prefix of a packet is taken for a packet or for an error. */
  lemma ProperPrefixNeedsMore(s: seq<byte>, i: nat)
    requires ParseHeader(s).Parsed? && i < ParseHeader(s).size + ParseHeader(s).header.remaining
    ensures ParseHeader(s[..i]).NeedMore?
  {
    assert s[..i] + s[i..] == s;
    if !ParseHeader(s[..i]).NeedMore? {
      HeaderStable(s[..i], s[i..]);
    }
  }

  // ----- The packer and the parser -----

  lemma DigitsAfter(done: seq<byte>, n: nat)
    ensures n > 127 ==> done + LengthDigits(n) == (done + [n % 128 + 128]) + LengthDigits(n / 128)
    ensures n <= 127 ==> done + LengthDigits(n) == done + [n % 128]
  {}

  method PackFixedHeader(buf: array<byte>, at: nat, bufsz: nat, h: FixedHeader) returns (rv: int)
    requires at + bufsz <= buf.Length
    modifies buf
    ensures rv == PackedHeaderSize(h, bufsz)
    ensures rv > 0 ==> Wrote(old(buf[..]), buf[..], at, HeaderBytes(h))
    ensures rv <= 0 ==> KeptOutside(old(buf[..]), buf[..], at, bufsz)
  {
    var errcode := RuleViolation(h);
    if errcode != 0 {
      return errcode;
    }
    if bufsz == 0 {
      return 0;
    }
    buf[at] := h.controlType * 16 + h.flags;
    var remaining: nat := h.remaining;
    if remaining >= MAX_REMAINING {
      return ERROR_INVALID_REMAINING_LENGTH;
    }
    var p, room, more := at, bufsz, true;
    ghost var was := old(buf[..]);
    ghost var done: seq<byte> := [h.controlType * 16 + h.flags];
    while more
      invariant at <= p < at + bufsz && room == bufsz - (p - at) && |done| == p - at + 1
      invariant Wrote(was, buf[..], at, done)
      invariant more ==> HeaderBytes(h) == done + LengthDigits(remaining)
      invariant !more ==> HeaderBytes(h) == done
      decreases if more then remaining + 1 else 0
    {
      room := room - 1;
      p := p + 1;
      if room == 0 {
        WroteKeepsOutside(was, buf[..], at, done, bufsz);
        return 0;
      }
      var digit: byte := if remaining > 127 then remaining % 128 + 128 else remaining % 128;
      WroteByte(was, buf[..], at, done, digit);
      ghost var before := buf[..];
      buf[p] := digit;
      assert buf[..] == before[p := digit];
      more := remaining > 127;
      DigitsAfter(done, remaining);
      done := done + [digit];
      remaining := remaining / 128;
    }
    room := room - 1;
    p := p + 1;
    if room < h.remaining {
      WroteKeepsOutside(was, buf[..], at, HeaderBytes(h), bufsz);
      return 0;
    }
    return p - at;
  }

  /** What the parse is once the digits read so far, worth value, are put before the rest. */
  function Carried(value: nat, weight: nat, k: nat, rest: LengthParse): LengthParse {
    match rest
    case Digits(v, d) => Digits(value + weight * v, d + k)
    case other => other
  }

  lemma CarryOne(s: seq<byte>, k: nat, value: nat, weight: nat)
    requires k < 4 && k < |s|
    ensures Carried(value, weight, k, ParseLength(s[k..], k)) ==
            if s[k] >= 128
            then Carried(value + (s[k] % 128) * weight, weight * 128, k + 1, ParseLength(s[k + 1..], k + 1))
            else Digits(value + (s[k] % 128) * weight, k + 1)
  {
    assert s[k..][1..] == s[k + 1..];
    var b: int := s[k];
    var rest := ParseLength(s[k + 1..], k + 1);
    if b >= 128 && rest.Digits? {
      assert weight * (b - 128 + 128 * rest.value) == (b - 128) * weight + (weight * 128) * rest.value;
    }
  }

  method UnpackFixedHeader(buf: array<byte>, bufsz: nat) returns (rv: int, h: FixedHeader)
    requires bufsz <= buf.Length
    ensures match ParseHeader(buf[..bufsz])
            case NeedMore => rv == 0
            case Bad(e) => rv == e
            case Parsed(g, n) => rv == n > 0 && h == g
  {
    h := FixedHeader(0, 0, 0);
    if bufsz == 0 {
      return 0, h;
    }
    ghost var s := buf[1..bufsz];
    assert buf[..bufsz][1..] == s;
    var value: nat, weight: nat, k: nat, more := 0, 1, 0, true;
    while more
      invariant 0 <= k <= 4 && k < bufsz
      invariant more ==> ParseLength(s, 0) == Carried(value, weight, k, ParseLength(s[k..], k))
      invariant !more ==> k > 0 && ParseLength(s, 0) == Digits(value, k)
      decreases if more then 5 - k else 0
    {
      if k == 4 {
        return ERROR_INVALID_REMAINING_LENGTH, h;
      }
      if bufsz - 1 - k == 0 {
        return 0, h;
      }
      CarryOne(s, k, value, weight);
      more := buf[1 + k] >= 128;
      value := value + (buf[1 + k] % 128) * weight;
      weight := weight * 128;
      k := k + 1;
    }
    ParsedBelowCapacity(s, 0);
    h := FixedHeader(buf[0] / 16, buf[0] % 16, value);
    var errcode := RuleViolation(h);
    if errcode != 0 {
      return errcode, h;
    }
    if bufsz - 1 - k < h.remaining {
      return 0, h;
    }
    return 1 + k, h;
  }
}
