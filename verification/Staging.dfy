/** Staging a message is all or nothing, and succeeds exactly when the packet is legal and fits. */
module Staging {
  import opened Bytes
  import opened MqttConstants
  import opened FixedHeaders
  import opened Packers
  import opened Messages
  import opened ClientSpec

  /** The message staged for a request: the packet, not yet sent. */
  predicate IsFresh(m: Message, r: Request)
    requires RequestError(r) == 0
  {
    m.bytes == PacketBytes(r) && m.state.Unsent? && m.controlType == TypeOf(r) && m.sent == []
  }

  /** Before the new message, either the whole queue is kept or its complete prefix is dropped. */
  predicate KeptOrCleaned(msgs: seq<Message>, kept: seq<Message>) {
    kept == msgs || kept == msgs[CompletePrefix(msgs)..]
  }

  /** Exactly one message was added behind what was kept, and registered; nothing else changed. */
  predicate Added(c: Client, r: Request, c': Client) {
    var n := |c'.msgs| - 1;
    && RequestError(r) == 0 && n >= 0
    && KeptOrCleaned(c.msgs, c'.msgs[..n]) && IsFresh(c'.msgs[n], r)
    && c' == c.(msgs := c'.msgs, registered := c.registered + [PacketBytes(r)])
  }

  /** An error was set and reported, and nothing was added. */
  predicate Declined(c: Client, rv: int, c': Client) {
    rv < 0 && KeptOrCleaned(c.msgs, c'.msgs) && c' == c.(msgs := c'.msgs, error := rv)
  }

  /** The packer wrote beyond the room it had. */
  predicate Overran(c: Client, r: Request, c': Client) {
    && PackedSize(r, RoomOf(c')) > RoomOf(c') && KeptOrCleaned(c.msgs, c'.msgs)
    && c' == c.(msgs := c'.msgs, lost := true)
  }

  /** A request is staged as one message behind the queue, or an error is set and nothing is added, or the packer writes
      beyond its room, which is undefined. */
  lemma StagingIsAllOrNothing(c: Client, r: Request, stale: Stale)
    ensures var s := Stage(c, r, stale);
            if s.rv == MQTT_OK then Added(c, r, s.client)
            else if s.rv == 0 then Overran(c, r, s.client)
            else Declined(c, s.rv, s.client)
  {
    var cleaned := c.(msgs := Cleaned(c.msgs));
    PackedSizeSign(r, RoomOf(c));
    PackedSizeSign(r, RoomOf(cleaned));
    hide PackedSize, PacketBytes, RequestError, Append, Added, Declined, Overran, RoomOf;
    var n, n' := PackedSize(r, RoomOf(c)), PackedSize(r, RoomOf(cleaned));
    if c.error < 0 { DeclinedWith(c, c.msgs, c.error); }
    else if n < 0 { DeclinedWith(c, c.msgs, n); }
    else if n > 0 { PlacedWith(c, c.msgs, r, stale); }
    else if n' < 0 { DeclinedWith(c, cleaned.msgs, n'); }
    else if n' == 0 { DeclinedWith(c, cleaned.msgs, ERROR_SEND_BUFFER_IS_FULL); }
    else { PlacedWith(c, cleaned.msgs, r, stale); }
  }

  lemma PlacedWith(c: Client, kept: seq<Message>, r: Request, stale: Stale)
    requires kept == c.msgs || kept == Cleaned(c.msgs)
    requires PackedSize(r, RoomOf(c.(msgs := kept))) > 0
    ensures var s := Placed(c.(msgs := kept), r, stale);
            if s.rv == MQTT_OK then Added(c, r, s.client) else s.rv == 0 && Overran(c, r, s.client)
  {
    PackedSizeSign(r, RoomOf(c.(msgs := kept)));
    hide PackedSize, PacketBytes, RequestError, Append, Added;
    if !Overflows(r, RoomOf(c.(msgs := kept))) { AppendedOne(c, kept, r, stale); }
  }

  lemma DeclinedWith(c: Client, kept: seq<Message>, e: int)
    requires e < 0 && (kept == c.msgs || kept == Cleaned(c.msgs))
    ensures Declined(c, e, c.(msgs := kept, error := e))
  {}

  lemma AppendedOne(c: Client, kept: seq<Message>, r: Request, stale: Stale)
    requires RequestError(r) == 0 && (kept == c.msgs || kept == Cleaned(c.msgs))
    ensures Added(c, r, Append(c.(msgs := kept), r, stale))
  {
    hide PacketBytes, RequestError;
    assert Append(c.(msgs := kept), r, stale).msgs[..|kept|] == kept;
  }

  lemma PackedSizeSign(r: Request, room: nat)
    ensures PackedSize(r, room) > 0 ==> RequestError(r) == 0
  {}

  /** The request is legal, and its header and declared length fit into the given room. */
  predicate Fitting(r: Request, room: nat) {
    && RequestError(r) == 0 && RuleViolation(HeaderOf(r)) == 0 && HeaderOf(r).remaining < MAX_REMAINING
    && |HeaderBytes(HeaderOf(r))| + HeaderOf(r).remaining <= room
  }

  /** The room in which a request is placed: the room left, or if that is too small, the room that cleaning leaves. */
  function RoomFor(c: Client, r: Request): nat {
    if Fitting(r, RoomOf(c)) then RoomOf(c) else RoomOf(c.(msgs := Cleaned(c.msgs)))
  }

  /** The request fits by its declared length, and its packet does not: the declared length has wrapped around. */
  predicate PacksBeyond(c: Client, r: Request) {
    c.error >= 0 && Fitting(r, RoomFor(c, r)) && |PacketBytes(r)| > RoomFor(c, r)
  }

  lemma BeyondWraps(c: Client, r: Request)
    ensures PacksBeyond(c, r) ==> !Fits32(r)
  {
    if PacksBeyond(c, r) {
      FittingIff(r, RoomFor(c, r));
      OverflowWraps(r, RoomFor(c, r));
    }
  }

  /** Staging succeeds exactly when no error is pending, the request is legal, its header and declared length fit into
      the room that cleaning leaves, and the packet written does too. */
  lemma StagedIff(c: Client, r: Request, stale: Stale)
    ensures Stage(c, r, stale).rv == MQTT_OK <==>
              c.error >= 0 && Fitting(r, RoomFor(c, r)) && |PacketBytes(r)| <= RoomFor(c, r)
    ensures Stage(c, r, stale).client.lost <==> c.lost || PacksBeyond(c, r)
    ensures Fitting(r, RoomFor(c, r)) <==> Fitting(r, RoomOf(c.(msgs := Cleaned(c.msgs))))
  {
    var cleaned := c.(msgs := Cleaned(c.msgs));
    CleaningMakesRoom(c.memSize, c.headerSize, c.msgs);
    FittingIff(r, RoomOf(c));
    FittingIff(r, RoomOf(cleaned));
    FittingGrows(r, RoomOf(c), RoomOf(cleaned));
    hide PackedSize, RequestError, Fitting, Cleaned, RoomOf, Append, PacketBytes;
  }

  /** An acknowledgement is staged exactly when no error is pending and cleaning leaves the four bytes that it takes. */
  lemma AcknowledgementStagedIff(c: Client, kind: Nibble, id: uint16, stale: Stale)
    requires PUBACK <= kind <= PUBCOMP
    ensures Stage(c, PubxxxRequest(kind, id), stale).rv == MQTT_OK <==>
              c.error >= 0 && RoomOf(c.(msgs := Cleaned(c.msgs))) >= 4
  {
    AcknowledgementFits(kind, id);
    StagedIff(c, PubxxxRequest(kind, id), stale);
    hide Stage, Cleaned, RoomOf, HeaderBytes, PacketBytes, HeaderOf, RequestError, RuleViolation;
  }

  lemma AcknowledgementFits(kind: Nibble, id: uint16)
    requires PUBACK <= kind <= PUBCOMP
    ensures var q := PubxxxRequest(kind, id);
            && RequestError(q) == 0 && RuleViolation(HeaderOf(q)) == 0 && HeaderOf(q).remaining < MAX_REMAINING
            && |HeaderBytes(HeaderOf(q))| + HeaderOf(q).remaining == |PacketBytes(q)| == 4
  {}

  lemma FittingGrows(r: Request, room: nat, room': nat)
    requires room <= room'
    ensures Fitting(r, room) ==> Fitting(r, room')
  {}

  lemma FittingIff(r: Request, room: nat)
    ensures PackedSize(r, room) > 0 <==> Fitting(r, room)
    ensures Fitting(r, room) ==> RequestError(r) == 0 && PackedSize(r, room) == |PacketBytes(r)|
    ensures PackedSize(r, room) < 0 <==>
              RequestError(r) != 0 || RuleViolation(HeaderOf(r)) != 0
              || (room > 0 && HeaderOf(r).remaining >= MAX_REMAINING)
    ensures PackedSize(r, room) < 0 ==> forall room' :: !Fitting(r, room')
  {
    hide LengthDigits, BodyOf, DeclaredLength;
  }

  /** Cleaning never shrinks the room for the next message. */
  lemma CleaningMakesRoom(memSize: nat, headerSize: nat, msgs: seq<Message>)
    ensures Room(memSize, headerSize, msgs) <= Room(memSize, headerSize, Cleaned(msgs))
  {
    hide TotalSize;
    var k := CompletePrefix(msgs);
    assert msgs == msgs[..k] + msgs[k..];
    TotalSizeConcat(msgs[..k], msgs[k..]);
    HeadersTakeSpace(k, |msgs| - k + 1, headerSize);
  }

  lemma HeadersTakeSpace(a: nat, b: nat, headerSize: nat)
    ensures (a + b) * headerSize == a * headerSize + b * headerSize && a * headerSize >= 0
  {}
}
