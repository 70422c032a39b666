/** Bytes, big-endian 16-bit integers and the memory copies of the C library. */
module Bytes {

  type byte = x: int | 0 <= x < 0x100
  type uint16 = x: int | 0 <= x < 0x1_0000
  type uint32 = x: int | 0 <= x < 0x1_0000_0000

  datatype Option<+T> = None | Some(value: T)

  /** A 16-bit integer in network order. */
  function U16(n: uint16): seq<byte> {
    [n / 0x100, n % 0x100]
  }

  function ReadU16(s: seq<byte>): (n: uint16)
    requires |s| >= 2
    ensures s[..2] == U16(n)
  {
    var high: int := s[0];
    high * 0x100 + s[1]
  }

  lemma U16RoundTrip(n: uint16, rest: seq<byte>)
    ensures ReadU16(U16(n) + rest) == n
  {}

  function Flatten(ps: seq<seq<byte>>): seq<byte> {
    if ps == [] then [] else ps[0] + Flatten(ps[1..])
  }

  lemma {:induction false} FlattenConcat(ps: seq<seq<byte>>, qs: seq<seq<byte>>)
    ensures Flatten(ps + qs) == Flatten(ps) + Flatten(qs)
  {
    if ps == [] {
      assert ps + qs == qs;
    } else {
      assert (ps + qs)[1..] == ps[1..] + qs;
      FlattenConcat(ps[1..], qs);
    }
  }

  lemma FlattenSnoc(ps: seq<seq<byte>>, p: seq<byte>)
    ensures Flatten(ps + [p]) == Flatten(ps) + p
  {
    FlattenConcat(ps, [p]);
    assert Flatten([p]) == p + Flatten([]);
  }

  lemma ConcatAssociates(a: seq<byte>, b: seq<byte>, c: seq<byte>)
    ensures (a + b) + c == a + (b + c)
  {}

  lemma TakeMore(s: seq<byte>, n: nat, m: nat)
    requires n + m <= |s|
    ensures s[..n + m] == s[..n] + s[n..n + m]
  {}

  /** After is before with w written at position at. */
  ghost predicate Wrote(before: seq<byte>, after: seq<byte>, at: nat, w: seq<byte>) {
    at + |w| <= |before| && after == before[..at] + w + before[at + |w|..]
  }

  /** Nothing outside the window of the given size at position at has changed. */
  ghost predicate KeptOutside(before: seq<byte>, after: seq<byte>, at: nat, room: nat) {
    && |after| == |before| && at + room <= |before|
    && after[..at] == before[..at]
    && after[at + room..] == before[at + room..]
  }

  lemma WroteTwice(a: seq<byte>, b: seq<byte>, c: seq<byte>, at: nat, v: seq<byte>, w: seq<byte>)
    requires Wrote(a, b, at, v) && Wrote(b, c, at + |v|, w)
    ensures Wrote(a, c, at, v + w)
  {
    assert b[..at + |v|] == a[..at] + v;
    assert b[at + |v| + |w|..] == a[at + |v| + |w|..];
  }

  lemma WroteByte(a: seq<byte>, b: seq<byte>, at: nat, v: seq<byte>, x: byte)
    requires Wrote(a, b, at, v) && at + |v| < |a|
    ensures Wrote(a, b[at + |v| := x], at, v + [x])
  {}

  lemma WroteKeepsOutside(a: seq<byte>, b: seq<byte>, at: nat, w: seq<byte>, room: nat)
    requires Wrote(a, b, at, w) && |w| <= room && at + room <= |a|
    ensures KeptOutside(a, b, at, room)
  {}

  lemma WroteAt(a: seq<byte>, b: seq<byte>, at: nat, w: seq<byte>)
    requires Wrote(a, b, at, w)
    ensures |b| == |a| && b[at..at + |w|] == w && b[..at] == a[..at] && b[at + |w|..] == a[at + |w|..]
  {}

  /** memcpy into a buffer. */
  method Copy(buf: array<byte>, at: nat, src: seq<byte>)
    requires at + |src| <= buf.Length
    modifies buf
    ensures Wrote(old(buf[..]), buf[..], at, src)
  {
    var i := 0;
    while i < |src|
      invariant 0 <= i <= |src|
      invariant buf[..at] == old(buf[..at])
      invariant buf[at..at + i] == src[..i]
      invariant buf[at + i..] == old(buf[at + i..])
    {
      buf[at + i] := src[i];
      i := i + 1;
    }
    assert buf[..] == buf[..at] + buf[at..at + i] + buf[at + i..];
  }

  /** memmove of n bytes to the front of a buffer. */
  method MoveToFront(buf: array<byte>, from: nat, n: nat)
    requires from + n <= buf.Length
    modifies buf
    ensures buf[..n] == old(buf[from..from + n]) && buf[n..] == old(buf[n..])
  {
    var i := 0;
    while i < n
      invariant 0 <= i <= n
      invariant forall k :: 0 <= k < i ==> buf[k] == old(buf[from + k])
      invariant forall k :: i <= k < buf.Length ==> buf[k] == old(buf[k])
    {
      buf[i] := buf[from + i];
      i := i + 1;
    }
  }
}
