/** What an application's calls put into the queue, read as a broker will read it, and what they report when they
    fail. */
module Calls {
  import opened Bytes
  import opened MqttConstants
  import opened FixedHeaders
  import opened Packers
  import opened Messages
  import opened PacketIds
  import opened ClientSpec
  import opened Staging
  import opened Decoding

  // ----- Refusals -----

  /** A pending error is reported and nothing is done.  Otherwise an illegal request is refused with its own error and
      nothing is cleaned; one that is too long for its length field is refused as such, if there is any room at all; and
      one that does not fit into the room that cleaning leaves is refused as "send buffer is full", after cleaning. */
  lemma RefusalIs(c: Client, r: Request, stale: Stale)
    ensures var s, cleaned := Stage(c, r, stale), c.(msgs := Cleaned(c.msgs));
            if c.error < 0 then s == Outcome(c, c.error)
            else if RequestError(r) != 0 then s == Outcome(c.(error := RequestError(r)), RequestError(r))
            else if RuleViolation(HeaderOf(r)) != 0 then
              s == Outcome(c.(error := RuleViolation(HeaderOf(r))), RuleViolation(HeaderOf(r)))
            else if HeaderOf(r).remaining >= 0x1000_0000 && RoomOf(cleaned) > 0 then
              && s.rv == ERROR_INVALID_REMAINING_LENGTH
              && s.client == (if RoomOf(c) > 0 then c else cleaned).(error := ERROR_INVALID_REMAINING_LENGTH)
            else if |HeaderBytes(HeaderOf(r))| + HeaderOf(r).remaining > RoomOf(cleaned) then
              s == Outcome(cleaned.(error := ERROR_SEND_BUFFER_IS_FULL), ERROR_SEND_BUFFER_IS_FULL)
            else s.rv == MQTT_OK || s.client.lost
  {
    var cleaned := c.(msgs := Cleaned(c.msgs));
    CleaningMakesRoom(c.memSize, c.headerSize, c.msgs);
    assert RoomOf(c) <= RoomOf(cleaned);
    Attempt(r, RoomOf(c));
    Attempt(r, RoomOf(cleaned));
    hide PackedSize, RequestError, RuleViolation, HeaderOf, HeaderBytes, RoomOf, Cleaned, PacketBytes;
  }

  /** What one pack call reports. */
  lemma Attempt(r: Request, room: nat)
    ensures var h, n := HeaderOf(r), PackedSize(r, room);
            if RequestError(r) != 0 then n == RequestError(r) < 0
            else if RuleViolation(h) != 0 then n == RuleViolation(h) < 0
            else if room == 0 then n == 0
            else if h.remaining >= 0x1000_0000 then n == ERROR_INVALID_REMAINING_LENGTH
            else if |HeaderBytes(h)| + h.remaining > room then n == 0
            else n > 0
    ensures |HeaderBytes(HeaderOf(r))| > 0
  {
    hide LengthDigits, BodyOf, DeclaredLength;
  }

  /** Before mqtt_connect nothing is staged, whatever is asked for. */
  lemma NothingBeforeConnect(setup: Setup, unread: seq<byte>, r: Request, stale: Stale)
    ensures var c := Initial(setup, unread); Stage(c, r, stale) == Outcome(c, ERROR_CONNECT_NOT_CALLED)
    ensures Initial(setup, unread).msgs == [] && Initial(setup, unread).recv == []
  {
    RefusalIs(Initial(setup, unread), r, stale);
    hide Stage;
  }

  // ----- What is queued -----

  /** The last message is new, unsent, queued under the given type and id, and is read as the given packet. */
  predicate Queues(c: Client, t: Nibble, id: uint16, meaning: Packet, c': Client) {
    && c'.msgs != [] && KeptOrCleaned(c.msgs, c'.msgs[..|c'.msgs| - 1])
    && c'.msgs[|c'.msgs| - 1].state.Unsent? && c'.msgs[|c'.msgs| - 1].controlType == t
    && c'.msgs[|c'.msgs| - 1].packetId == id && Decode(c'.msgs[|c'.msgs| - 1].bytes) == Some(meaning)
  }

  lemma StagedMeans(c: Client, r: Request, stale: Stale)
    requires !r.PubxxxRequest? && Expressible(r) && Stage(c, r, stale).rv == MQTT_OK
    ensures RequestError(r) == 0
    ensures Queues(c, TypeOf(r), IdOf(r, stale), Meaning(r), Stage(c, r, stale).client)
  {
    StagingIsAllOrNothing(c, r, stale);
    MeaningIsPacked(r);
    LastIdIs(c, r, stale);
    hide Stage, PacketBytes, Decode, KeptOrCleaned, Meaning, RequestError, StringsFit;
  }

  lemma LastIdIs(c: Client, r: Request, stale: Stale)
    requires Stage(c, r, stale).rv == MQTT_OK
    ensures var ms := Stage(c, r, stale).client.msgs; ms != [] && ms[|ms| - 1].packetId == IdOf(r, stale)
  {
    hide PackedSize, Overflows, PacketBytes, RoomOf, Cleaned, RequestError, IdOf;
  }

  /** mqtt_connect sets the keep-alive interval, forgives that it had not been called, and no other error, and queues a
      CONNECT that says what was asked for. */
  lemma ConnectQueues(c: Client, r: Request, stale: Stale)
    requires r.ConnectRequest? && Expressible(r)
    ensures var o, will := Connect(c, r, stale), r.willTopic.Some?;
            && o.client.keepAlive == r.keepAlive
            && (c.error < 0 && c.error != ERROR_CONNECT_NOT_CALLED ==>
                  o == Outcome(c.(keepAlive := r.keepAlive), c.error))
            && (o.rv == MQTT_OK ==>
                  && o.client.error == (if c.error == ERROR_CONNECT_NOT_CALLED then MQTT_OK else c.error)
                  && Queues(c, 1, stale.packetId,
                            Connecting(Connection(r.clientId, r.keepAlive, false, r.connectFlags / 2 % 2 == 1, will,
                                                  if will then r.connectFlags / 8 % 4 else 0,
                                                  will && r.connectFlags / 32 % 2 == 1, r.willTopic,
                                                  if will then r.willMessage else None, r.userName, r.password)),
                            o.client))
  {
    var c0 := c.(keepAlive := r.keepAlive, error := if c.error == ERROR_CONNECT_NOT_CALLED then MQTT_OK else c.error);
    StageFrame(c0, r, stale);
    RefusalIs(c0, r, stale);
    StagingIsAllOrNothing(c0, r, stale);
    if Stage(c0, r, stale).rv == MQTT_OK { StagedMeans(c0, r, stale); }
    hide Stage, Decode, KeptOrCleaned, RequestError, StringsFit, PacketBytes;
  }

  /** The id that a call draws is the register's next value that no queued message carries. */
  ghost predicate Draws(c: Client, c': Client) {
    && SomeFree(Ids(c.msgs)) && c'.lfsr == NextId(c.lfsr, Ids(c.msgs)) && c'.lfsr != 0 && c'.lfsr as int !in Ids(c.msgs)
  }

  lemma DrawnIs(c: Client, r: uint16 -> Request, stale: Stale)
    requires SomeFree(Ids(c.msgs))
    ensures var o := StageWithId(c, r, stale);
            var id: uint16 := o.client.lfsr as int;
            Draws(c, o.client) && o == Stage(c.(lfsr := id as bv16), r(id), stale)
  {
    var id := NextId(c.lfsr, Ids(c.msgs));
    NextIdFresh(c.lfsr, Ids(c.msgs));
    StageFrame(c.(lfsr := id), r(id as int), stale);
    hide Stage, NextId, Ids;
  }

  lemma PublishDraws(c: Client, topic: Option<seq<byte>>, message: seq<byte>, flags: byte, stale: Stale)
    requires SomeFree(Ids(c.msgs))
    ensures var o := PublishMessage(c, topic, message, flags, stale);
            var id: uint16 := o.client.lfsr as int;
            Draws(c, o.client) && o == Stage(c.(lfsr := id as bv16), PublishRequest(topic, id, message, flags), stale)
  {
    hide Stage, NextId, Ids, SomeFree, Draws;
    DrawnIs(c, (id: uint16) => PublishRequest(topic, id, message, flags), stale);
  }

  /** mqtt_publish queues, under a fresh id, a PUBLISH with the topic, message, QoS and retain flag given and DUP
      clear. */
  lemma PublishQueues(c: Client, topic: Option<seq<byte>>, message: seq<byte>, flags: byte, stale: Stale)
    requires SomeFree(Ids(c.msgs)) && Expressible(PublishRequest(topic, 0, message, flags))
    ensures var o := PublishMessage(c, topic, message, flags, stale);
            var id: uint16 := o.client.lfsr as int;
            && Draws(c, o.client)
            && (o.rv == MQTT_OK ==>
                  && topic.Some?
                  && Queues(c, 3, id, Publishing(false, flags / 2 % 4, flags % 2 == 1, topic.value,
                                                 if flags / 2 % 4 == 0 then 0 else id, message), o.client))
  {
    hide Stage, PublishMessage, Ids, SomeFree, Draws, Queues, Expressible, Meaning, RequestError;
    PublishDraws(c, topic, message, flags, stale);
    var o := PublishMessage(c, topic, message, flags, stale);
    var id: uint16 := o.client.lfsr as int;
    PublishMeaning(topic, id, message, flags);
    DrawnQueues(c, id, PublishRequest(topic, id, message, flags), stale);
  }

  lemma PublishMeaning(topic: Option<seq<byte>>, id: uint16, message: seq<byte>, flags: byte)
    ensures var r := PublishRequest(topic, id, message, flags);
            && (RequestError(r) == 0 ==>
                  topic.Some? && Meaning(r) == Publishing(false, flags / 2 % 4, flags % 2 == 1, topic.value,
                                                          if flags / 2 % 4 == 0 then 0 else id, message))
            && Expressible(r) == Expressible(PublishRequest(topic, 0, message, flags))
  {}

  lemma DrawnQueues(c: Client, id: uint16, r: Request, stale: Stale)
    requires !r.PubxxxRequest? && Expressible(r)
    ensures var o := Stage(c.(lfsr := id as bv16), r, stale);
            o.rv == MQTT_OK ==> RequestError(r) == 0 && Queues(c, TypeOf(r), IdOf(r, stale), Meaning(r), o.client)
  {
    var c0 := c.(lfsr := id as bv16);
    hide Stage, Decode, KeptOrCleaned, Expressible, Meaning, RequestError;
    if Stage(c0, r, stale).rv == MQTT_OK { StagedMeans(c0, r, stale); }
  }

  lemma SubscribeDraws(c: Client, filter: seq<byte>, maxQos: byte, stale: Stale)
    requires SomeFree(Ids(c.msgs))
    ensures var o := Subscribe(c, filter, maxQos, stale);
            var id: uint16 := o.client.lfsr as int;
            Draws(c, o.client) && o == Stage(c.(lfsr := id as bv16), SubscribeRequest(id, [(filter, maxQos)]), stale)
  {
    hide Stage, NextId, Ids, SomeFree, Draws;
    DrawnIs(c, (id: uint16) => SubscribeRequest(id, [(filter, maxQos)]), stale);
  }

  /** mqtt_subscribe queues, under a fresh id, a SUBSCRIBE for the filter and QoS given. */
  lemma SubscribeQueues(c: Client, filter: seq<byte>, maxQos: byte, stale: Stale)
    requires SomeFree(Ids(c.msgs)) && Expressible(SubscribeRequest(0, [(filter, maxQos)]))
    ensures var o := Subscribe(c, filter, maxQos, stale);
            var id: uint16 := o.client.lfsr as int;
            && Draws(c, o.client)
            && (o.rv == MQTT_OK ==> Queues(c, 8, id, Subscribing(id, [(filter, maxQos)]), o.client))
  {
    hide Stage, Subscribe, Ids, SomeFree, Draws, Queues, Expressible, Meaning, RequestError;
    SubscribeDraws(c, filter, maxQos, stale);
    var o := Subscribe(c, filter, maxQos, stale);
    var id: uint16 := o.client.lfsr as int;
    SubscribeMeaning(id, [(filter, maxQos)]);
    DrawnQueues(c, id, SubscribeRequest(id, [(filter, maxQos)]), stale);
  }

  lemma SubscribeMeaning(id: uint16, filters: seq<(seq<byte>, byte)>)
    requires |filters| == 1
    ensures var r := SubscribeRequest(id, filters);
            && (RequestError(r) == 0 ==> Meaning(r) == Subscribing(id, filters))
            && Expressible(r) == Expressible(SubscribeRequest(0, filters))
  {}

  lemma UnsubscribeDraws(c: Client, topic: seq<byte>, stale: Stale)
    requires SomeFree(Ids(c.msgs))
    ensures var o := Unsubscribe(c, topic, stale);
            var id: uint16 := o.client.lfsr as int;
            Draws(c, o.client) && o == Stage(c.(lfsr := id as bv16), UnsubscribeRequest(id, [topic]), stale)
  {
    hide Stage, NextId, Ids, SomeFree, Draws;
    DrawnIs(c, (id: uint16) => UnsubscribeRequest(id, [topic]), stale);
  }

  /** mqtt_unsubscribe queues, under a fresh id, an UNSUBSCRIBE for the topic given. */
  lemma UnsubscribeQueues(c: Client, topic: seq<byte>, stale: Stale)
    requires SomeFree(Ids(c.msgs)) && Expressible(UnsubscribeRequest(0, [topic]))
    ensures var o := Unsubscribe(c, topic, stale);
            var id: uint16 := o.client.lfsr as int;
            && Draws(c, o.client)
            && (o.rv == MQTT_OK ==> Queues(c, 10, id, Unsubscribing(id, [topic]), o.client))
  {
    hide Stage, Unsubscribe, Ids, SomeFree, Draws, Queues, Expressible, Meaning, RequestError;
    UnsubscribeDraws(c, topic, stale);
    var o := Unsubscribe(c, topic, stale);
    var id: uint16 := o.client.lfsr as int;
    UnsubscribeMeaning(id, [topic]);
    DrawnQueues(c, id, UnsubscribeRequest(id, [topic]), stale);
  }

  lemma UnsubscribeMeaning(id: uint16, topics: seq<seq<byte>>)
    requires |topics| == 1
    ensures var r := UnsubscribeRequest(id, topics);
            && (RequestError(r) == 0 ==> Meaning(r) == Unsubscribing(id, topics))
            && Expressible(r) == Expressible(UnsubscribeRequest(0, topics))
  {}

  /** mqtt_ping and mqtt_disconnect queue their packets. */
  lemma PingAndDisconnectQueue(c: Client, stale: Stale)
    ensures var o := Stage(c, PingRequest, stale);
            o.rv == MQTT_OK ==> Queues(c, 12, stale.packetId, Pinging, o.client)
    ensures var o := Stage(c, DisconnectRequest, stale);
            o.rv == MQTT_OK ==> Queues(c, 14, stale.packetId, Disconnecting, o.client)
  {
    hide Stage, Queues;
    if Stage(c, PingRequest, stale).rv == MQTT_OK { StagedMeans(c, PingRequest, stale); }
    if Stage(c, DisconnectRequest, stale).rv == MQTT_OK { StagedMeans(c, DisconnectRequest, stale); }
  }
}
