/** The queue of outgoing messages as a plain sequence. */
module Messages {
  import opened Bytes
  import opened MqttConstants
  import opened Packers

  datatype State = Unsent | AwaitingAck | Complete

  /** A queued message.  original is the packet as it was registered, and sent lists the bytes
      of its complete transmissions so far; the source keeps neither, the proofs need both. */
  datatype Message = Message(
    bytes: seq<byte>, state: State, timeSent: int, controlType: Nibble, packetId: uint16,
    original: seq<byte>, sent: seq<seq<byte>>)

  /** The fields that registering a message leaves as the memory happens to hold them. */
  datatype Stale = Stale(timeSent: int, controlType: Nibble, packetId: uint16)

  function Registered(bytes: seq<byte>, stale: Stale): Message {
    Message(bytes, Unsent, stale.timeSent, stale.controlType, stale.packetId, bytes, [])
  }

  /** The id a staged request is queued under; the types without one keep what the memory holds. */
  function IdOf(r: Request, stale: Stale): uint16 {
    match r
    case PublishRequest(_, id, _, _) => id
    case PubxxxRequest(_, id) => id
    case SubscribeRequest(id, _) => id
    case UnsubscribeRequest(id, _) => id
    case _ => stale.packetId
  }

  /** A request as it is queued. */
  function Queued(r: Request, stale: Stale): Message
    requires RequestError(r) == 0
  {
    Registered(PacketBytes(r), Stale(stale.timeSent, TypeOf(r), IdOf(r, stale)))
  }

  ghost function Ids(msgs: seq<Message>): set<int> {
    set m | m in msgs :: m.packetId
  }

  /** How many messages at the front are complete. */
  function CompletePrefix(msgs: seq<Message>): (k: nat)
    ensures k <= |msgs|
    ensures forall i :: 0 <= i < k ==> msgs[i].state.Complete?
    ensures k < |msgs| ==> !msgs[k].state.Complete?
  {
    if msgs == [] || !msgs[0].state.Complete? then 0 else 1 + CompletePrefix(msgs[1..])
  }

  /** Cleaning drops the longest complete prefix. */
  function Cleaned(msgs: seq<Message>): seq<Message> {
    msgs[CompletePrefix(msgs)..]
  }

  function TotalSize(msgs: seq<Message>): nat {
    if msgs == [] then 0 else |msgs[0].bytes| + TotalSize(msgs[1..])
  }

  lemma {:induction false} TotalSizeConcat(a: seq<Message>, b: seq<Message>)
    ensures TotalSize(a + b) == TotalSize(a) + TotalSize(b)
  {
    if a == [] {
      assert a + b == b;
    } else {
      assert (a + b)[1..] == a[1..] + b;
      TotalSizeConcat(a[1..], b);
    }
  }

  /** What is left between the packets and the headers after setting one more header aside. */
  function RoomAt(memSize: nat, headerSize: nat, used: nat, count: nat): nat {
    var tail := memSize - (count + 1) * headerSize;
    if used >= tail then 0 else tail - used
  }

  function Room(memSize: nat, headerSize: nat, msgs: seq<Message>): nat {
    RoomAt(memSize, headerSize, TotalSize(msgs), |msgs|)
  }

  predicate Matches(m: Message, controlType: Nibble, packetId: Option<uint16>) {
    && m.controlType == controlType
    && (if packetId.None? then !m.state.Complete? else m.packetId == packetId.value)
  }

  /** The first message of a type: with an id, whatever its state; without one, not complete.  -1 for none. */
  function Find(msgs: seq<Message>, controlType: Nibble, packetId: Option<uint16>): (i: int)
    ensures -1 <= i < |msgs|
    ensures i >= 0 ==> Matches(msgs[i], controlType, packetId)
    ensures forall j :: 0 <= j < (if i >= 0 then i else |msgs|) ==> !Matches(msgs[j], controlType, packetId)
  {
    FindFrom(msgs, controlType, packetId, 0)
  }

  function FindFrom(msgs: seq<Message>, controlType: Nibble, packetId: Option<uint16>, from: nat): (i: int)
    requires from <= |msgs|
    ensures i == -1 || from <= i < |msgs|
    ensures i >= 0 ==> Matches(msgs[i], controlType, packetId)
    ensures forall j :: from <= j < (if i >= 0 then i else |msgs|) ==> !Matches(msgs[j], controlType, packetId)
    decreases |msgs| - from
  {
    if from == |msgs| then -1
    else if Matches(msgs[from], controlType, packetId) then from
    else FindFrom(msgs, controlType, packetId, from + 1)
  }

  /** Setting the DUP bit of a packet's first byte. */
  function WithDup(bytes: seq<byte>): seq<byte> {
    if bytes == [] then bytes else bytes[0 := DupByte(bytes[0])]
  }

  function DupByte(b: byte): byte {
    if b / 8 % 2 == 1 then b else b + 8
  }

  lemma DupByteKeeps(b: byte)
    ensures DupByte(b) / 2 % 4 == b / 2 % 4 && DupByte(b) / 16 == b / 16
    ensures DupByte(b) / 8 % 2 == 1
    ensures DupByte(DupByte(b)) == DupByte(b)
  {
    if b / 8 % 2 != 1 {
      BitThree(b);
    }
  }

  lemma BitThree(b: byte)
    requires b / 8 % 2 == 0
    ensures (b + 8) / 2 % 4 == b / 2 % 4 && (b + 8) / 16 == b / 16 && (b + 8) / 8 % 2 == 1
  {
    var q := b / 16;
    var r := b - 16 * q;
    assert b / 8 == 2 * q + r / 8;
    assert r < 8;
    assert b / 2 == 4 * (2 * q) + r / 2 && (b + 8) / 2 == 4 * (2 * q + 1) + r / 2;
    assert (b + 8) / 8 == 2 * q + 1;
  }

  function QosOf(m: Message): nat {
    if m.bytes == [] then 0 else QosBits(m.bytes[0])
  }

  predicate IsQos2Publish(m: Message) {
    m.controlType == PUBLISH && QosOf(m) == 2
  }

  predicate PendingQos2(m: Message) {
    IsQos2Publish(m) && !m.state.Complete?
  }

  predicate CompletesOnSend(m: Message) {
    || m.controlType == PUBACK || m.controlType == PUBCOMP || m.controlType == DISCONNECT
    || (m.controlType == PUBLISH && QosOf(m) == 0)
  }

  predicate AwaitsAckOnSend(m: Message) {
    || m.controlType == CONNECT || m.controlType == PUBREC || m.controlType == PUBREL || m.controlType == SUBSCRIBE
    || m.controlType == UNSUBSCRIBE || m.controlType == PINGREQ
    || (m.controlType == PUBLISH && QosOf(m) != 0)
  }

  /** A message just sent completely: its new state, and the DUP bit for any later transmission at
      quality of service 1.  A message of an unknown type keeps its state. */
  function AfterSending(m: Message, now: int): Message {
    var m' := m.(timeSent := now, sent := m.sent + [m.bytes]);
    if CompletesOnSend(m) then m'.(state := Complete)
    else if AwaitsAckOnSend(m) then
      m'.(state := AwaitingAck,
          bytes := if m.controlType == PUBLISH && QosOf(m) == 1 then WithDup(m.bytes) else m.bytes)
    else m'
  }
}

/** The queue in its memory block: packets grow up from the start, headers grow down from the end. */
module MessageQueues {
  import opened Bytes
  import opened MqttConstants
  import opened FixedHeaders
  import opened Packers
  import opened Messages

  datatype Header = Header(start: nat, size: nat, state: State, timeSent: int, controlType: Nibble, packetId: uint16)

  datatype History = History(original: seq<byte>, sent: seq<seq<byte>>)

  // ----- Headers over a block of memory -----

  /** The packets lie end to end from the start of the block up to end. */
  ghost predicate Tiled(hs: seq<Header>, end: nat) {
    if hs == [] then end == 0
    else
      var last := hs[|hs| - 1];
      last.size > 0 && last.start + last.size == end && Tiled(hs[..|hs| - 1], last.start)
  }

  lemma {:induction false} TiledBounds(hs: seq<Header>, end: nat, i: nat)
    requires Tiled(hs, end) && i < |hs|
    ensures hs[i].size > 0 && hs[i].start + hs[i].size <= end
    ensures i + 1 < |hs| ==> hs[i].start + hs[i].size == hs[i + 1].start
    ensures i + 1 == |hs| ==> hs[i].start + hs[i].size == end
    ensures i == 0 ==> hs[i].start == 0
  {
    var n := |hs| - 1;
    if i < n {
      TiledBounds(hs[..n], hs[n].start, i);
    } else if n > 0 {
    } else {
      assert Tiled(hs[..0], hs[0].start);
    }
  }

  lemma {:induction false} TiledOrdered(hs: seq<Header>, end: nat, i: nat, j: nat)
    requires Tiled(hs, end) && i < j < |hs|
    ensures hs[i].start + hs[i].size <= hs[j].start
  {
    var n := |hs| - 1;
    if j < n {
      TiledOrdered(hs[..n], hs[n].start, i, j);
    } else {
      TiledBounds(hs[..n], hs[n].start, i);
    }
  }

  lemma TiledSnoc(hs: seq<Header>, end: nat, h: Header)
    requires Tiled(hs, end) && h.start == end && h.size > 0
    ensures Tiled(hs + [h], end + h.size)
  {
    assert (hs + [h])[..|hs|] == hs;
  }

  ghost predicate SameLayout(hs: seq<Header>, hs': seq<Header>) {
    |hs| == |hs'| && forall i :: 0 <= i < |hs| ==> hs[i].start == hs'[i].start && hs[i].size == hs'[i].size
  }

  lemma {:induction false} TiledSameLayout(hs: seq<Header>, hs': seq<Header>, end: nat)
    requires Tiled(hs, end) && SameLayout(hs, hs')
    ensures Tiled(hs', end)
  {
    var n := |hs| - 1;
    if n >= 0 {
      TiledSameLayout(hs[..n], hs'[..n], hs[n].start);
    }
  }

  function Rebased(h: Header, base: nat): Header
    requires base <= h.start
  {
    h.(start := h.start - base)
  }

  /** hs' is hs from k on, moved down to the start of the block. */
  ghost predicate MovedDown(hs: seq<Header>, k: nat, hs': seq<Header>) {
    && k < |hs| && |hs'| == |hs| - k
    && forall j :: k <= j < |hs| ==> hs[k].start <= hs[j].start && hs'[j - k] == Rebased(hs[j], hs[k].start)
  }

  lemma {:induction false} TiledMovedDown(hs: seq<Header>, end: nat, k: nat, hs': seq<Header>)
    requires Tiled(hs, end) && MovedDown(hs, k, hs')
    ensures hs[k].start <= end && Tiled(hs', end - hs[k].start)
    decreases |hs|
  {
    var n, n' := |hs| - 1, |hs'| - 1;
    TiledBounds(hs, end, k);
    if k < n {
      var front, front' := hs[..n], hs'[..n'];
      assert front[k] == hs[k];
      TiledMovedDown(front, hs[n].start, k, front');
    }
  }

  function Slice(mem: seq<byte>, start: nat, size: nat): seq<byte> {
    if start + size <= |mem| then mem[start..start + size] else []
  }

  function MessageOf(mem: seq<byte>, h: Header, g: History): Message {
    Message(Slice(mem, h.start, h.size), h.state, h.timeSent, h.controlType, h.packetId, g.original, g.sent)
  }

  ghost function MessagesOf(mem: seq<byte>, hs: seq<Header>, gs: seq<History>): (ms: seq<Message>)
    requires |hs| == |gs|
    ensures |ms| == |hs|
    ensures forall i :: 0 <= i < |hs| ==> ms[i] == MessageOf(mem, hs[i], gs[i])
  {
    seq(|hs|, i requires 0 <= i < |hs| => MessageOf(mem, hs[i], gs[i]))
  }

  lemma MessagesSnoc(mem: seq<byte>, hs: seq<Header>, gs: seq<History>, h: Header, g: History)
    requires |hs| == |gs|
    ensures MessagesOf(mem, hs + [h], gs + [g]) == MessagesOf(mem, hs, gs) + [MessageOf(mem, h, g)]
  {}

  lemma {:induction false} TotalSizeIsEnd(mem: seq<byte>, hs: seq<Header>, gs: seq<History>, end: nat)
    requires |hs| == |gs| && Tiled(hs, end) && end <= |mem|
    ensures TotalSize(MessagesOf(mem, hs, gs)) == end
  {
    var n := |hs| - 1;
    if n >= 0 {
      var ms := MessagesOf(mem, hs, gs);
      TotalSizeIsEnd(mem, hs[..n], gs[..n], hs[n].start);
      assert ms == MessagesOf(mem, hs[..n], gs[..n]) + [ms[n]];
      TotalSizeConcat(MessagesOf(mem, hs[..n], gs[..n]), [ms[n]]);
      assert TotalSize([ms[n]]) == |ms[n].bytes| + TotalSize([]);
    }
  }

  /** The packets tile the used part of the block in queue order. */
  lemma {:induction false} PacketsTileMemory(mem: seq<byte>, hs: seq<Header>, gs: seq<History>, end: nat)
    requires |hs| == |gs| && Tiled(hs, end) && end <= |mem|
    ensures Flatten(BytesOf(MessagesOf(mem, hs, gs))) == mem[..end]
  {
    var n := |hs| - 1;
    if n >= 0 {
      var ms := MessagesOf(mem, hs, gs);
      PacketsTileMemory(mem, hs[..n], gs[..n], hs[n].start);
      assert ms == MessagesOf(mem, hs[..n], gs[..n]) + [ms[n]];
      assert BytesOf(ms) == BytesOf(MessagesOf(mem, hs[..n], gs[..n])) + [ms[n].bytes];
      FlattenSnoc(BytesOf(MessagesOf(mem, hs[..n], gs[..n])), ms[n].bytes);
    }
  }

  ghost function BytesOf(ms: seq<Message>): seq<seq<byte>> {
    seq(|ms|, i requires 0 <= i < |ms| => ms[i].bytes)
  }

  lemma MessagesUnaffected(mem: seq<byte>, mem': seq<byte>, hs: seq<Header>, gs: seq<History>, end: nat)
    requires |hs| == |gs| && Tiled(hs, end) && end <= |mem| && |mem| == |mem'| && mem[..end] == mem'[..end]
    ensures MessagesOf(mem, hs, gs) == MessagesOf(mem', hs, gs)
  {
    hide Tiled, MessageOf;
    var ms, ms' := MessagesOf(mem, hs, gs), MessagesOf(mem', hs, gs);
    hide MessagesOf;
    forall i | 0 <= i < |hs| ensures ms[i] == ms'[i] { MessageUnaffected(mem, mem', hs, gs, end, i); }
  }

  lemma MessageUnaffected(mem: seq<byte>, mem': seq<byte>, hs: seq<Header>, gs: seq<History>, end: nat, i: nat)
    requires |hs| == |gs| && Tiled(hs, end) && end <= |mem| == |mem'| && mem[..end] == mem'[..end] && i < |hs|
    ensures MessageOf(mem, hs[i], gs[i]) == MessageOf(mem', hs[i], gs[i])
  {
    TiledBounds(hs, end, i);
    SameSlice(mem, mem', end, hs[i].start, hs[i].start + hs[i].size);
    hide Tiled;
  }

  lemma SameSlice(m: seq<byte>, m': seq<byte>, end: nat, s: nat, t: nat)
    requires end <= |m| == |m'| && m[..end] == m'[..end] && s <= t <= end
    ensures m[s..t] == m'[s..t]
  {
    assert m[s..t] == m[..end][s..t] && m'[s..t] == m'[..end][s..t];
  }

  lemma SliceOfSlice(m: seq<byte>, a: nat, b: nat, s: nat, t: nat)
    requires a <= b <= |m| && s <= t <= b - a
    ensures m[a..b][s..t] == m[a + s..a + t]
  {
    forall i | 0 <= i < t - s ensures m[a..b][s..t][i] == m[a + s..a + t][i] {
      assert m[a..b][s + i] == m[a + (s + i)];
    }
  }

  lemma MessageMovedDown(mem: seq<byte>, mem': seq<byte>, h: Header, g: History, base: nat, end: nat)
    requires base <= h.start && h.start + h.size <= end <= |mem| == |mem'|
    requires mem'[..end - base] == mem[base..end]
    ensures MessageOf(mem', Rebased(h, base), g) == MessageOf(mem, h, g)
  {
    var s := h.start - base;
    SliceOfSlice(mem', 0, end - base, s, s + h.size);
    SliceOfSlice(mem, base, end, s, s + h.size);
  }

  lemma MessagesMovedDown(mem: seq<byte>, mem': seq<byte>, hs: seq<Header>, hs': seq<Header>, gs: seq<History>,
                          end: nat, k: nat)
    requires |hs| == |gs| && Tiled(hs, end) && end <= |mem| == |mem'| && MovedDown(hs, k, hs')
    requires hs[k].start <= end && mem'[..end - hs[k].start] == mem[hs[k].start..end]
    ensures Tiled(hs', end - hs[k].start)
    ensures MessagesOf(mem', hs', gs[k..]) == MessagesOf(mem, hs, gs)[k..]
  {
    hide Tiled, MessageOf;
    TiledMovedDown(hs, end, k, hs');
    var ms, ms' := MessagesOf(mem, hs, gs), MessagesOf(mem', hs', gs[k..]);
    forall j | k <= j < |hs| ensures ms'[j - k] == ms[j] {
      TiledBounds(hs, end, j);
      MessageMovedDown(mem, mem', hs[j], gs[j], hs[k].start, end);
    }
    assert forall i :: 0 <= i < |ms'| ==> ms'[i] == ms[i + k];
  }

  /** Packets do not overlap: changing one packet's first byte leaves the others alone. */
  lemma FirstByteChanged(mem: seq<byte>, hs: seq<Header>, gs: seq<History>, end: nat, i: nat, x: byte)
    requires |hs| == |gs| && Tiled(hs, end) && end <= |mem| && i < |hs|
    ensures hs[i].start < |mem|
    ensures var ms := MessagesOf(mem, hs, gs);
            && |ms[i].bytes| > 0
            && MessagesOf(mem[hs[i].start := x], hs, gs) == ms[i := ms[i].(bytes := ms[i].bytes[0 := x])]
  {
    TiledBounds(hs, end, i);
    var p := hs[i].start;
    var mem' := mem[p := x];
    forall j | 0 <= j < |hs| && j != i ensures MessageOf(mem', hs[j], gs[j]) == MessageOf(mem, hs[j], gs[j]) {
      TiledBounds(hs, end, j);
      if j < i { TiledOrdered(hs, end, j, i); } else { TiledOrdered(hs, end, i, j); }
      assert mem'[hs[j].start..hs[j].start + hs[j].size] == mem[hs[j].start..hs[j].start + hs[j].size];
    }
    assert mem'[p..p + hs[i].size] == mem[p..p + hs[i].size][0 := x];
  }

  lemma {:induction false} CompletePrefixIs(ms: seq<Message>, k: nat)
    requires k <= |ms|
    requires forall i :: 0 <= i < k ==> ms[i].state.Complete?
    requires k < |ms| ==> !ms[k].state.Complete?
    ensures CompletePrefix(ms) == k
  {
    if k > 0 {
      CompletePrefixIs(ms[1..], k - 1);
    }
  }

  lemma SlotExists(memSize: nat, headerSize: nat, count: nat)
    requires headerSize > 0 && count * headerSize <= memSize
    ensures count <= memSize / headerSize
  {
    if count > memSize / headerSize {
      ProductGrows(memSize / headerSize + 1, count, headerSize);
      assert false;
    }
  }

  lemma ProductGrows(a: nat, b: nat, h: nat)
    requires a <= b
    ensures a * h <= b * h
  {}

  predicate KnownType(controlType: Nibble) {
    || controlType == CONNECT || PUBLISH <= controlType <= SUBSCRIBE || controlType == UNSUBSCRIBE
    || controlType == PINGREQ || controlType == DISCONNECT
  }

  function NextState(controlType: Nibble, qos: nat, state: State): State {
    if !KnownType(controlType) then state
    else if controlType == PUBACK || controlType == PUBCOMP || controlType == DISCONNECT
            || (controlType == PUBLISH && qos == 0) then Complete
    else AwaitingAck
  }

  lemma SentMessageIs(m: Message, now: int, state: State, known: bool)
    requires known == KnownType(m.controlType) && state == NextState(m.controlType, QosOf(m), m.state)
    ensures known == (CompletesOnSend(m) || AwaitsAckOnSend(m))
    ensures AfterSending(m, now) ==
            m.(timeSent := now, sent := m.sent + [m.bytes], state := state,
               bytes := if m.controlType == PUBLISH && QosOf(m) == 1 then WithDup(m.bytes) else m.bytes)
  {}

  class MessageQueue {
    const mem: array<byte>          // the block from mem_start to mem_end
    const headers: array<Header>    // header i occupies headerSize bytes of the block at AddressOf(i)
    const headerSize: nat
    var curr: nat                   // where the next packet is packed
    var currSz: nat                 // how many bytes may be packed there
    var queueTail: nat              // headers in use: mem_end - queue_tail, in headers
    ghost var histories: seq<History>

    function AddressOf(i: nat): int
    {
      mem.Length - (i + 1) * headerSize
    }

    ghost predicate Valid()
      reads this, mem, headers
    {
      && headerSize > 0
      && headers.Length == mem.Length / headerSize
      && queueTail <= headers.Length
      && curr + queueTail * headerSize <= mem.Length
      && currSz == RoomAt(mem.Length, headerSize, curr, queueTail)
      && |histories| == queueTail
      && Tiled(headers[..queueTail], curr)
    }

    /** The queue as a sequence of messages. */
    ghost function Contents(): (ms: seq<Message>)
      requires Valid()
      reads this, mem, headers
    {
      MessagesOf(mem[..], headers[..queueTail], histories)
    }

    lemma ContentsAt(i: nat)
      requires Valid() && i < queueTail
      ensures |Contents()| == queueTail
      ensures headers[i].size > 0 && headers[i].start + headers[i].size <= curr
      ensures Contents()[i] == Message(mem[headers[i].start..headers[i].start + headers[i].size], headers[i].state,
                headers[i].timeSent, headers[i].controlType, headers[i].packetId,
                histories[i].original, histories[i].sent)
    {
      TiledBounds(headers[..queueTail], curr, i);
    }

    /** A part of a queued packet, in memory and in the message. */
    lemma PartOfPacket(i: nat, from: nat, to: nat)
      requires Valid() && i < queueTail && from <= to <= |Contents()[i].bytes|
      ensures i < headers.Length && headers[i].start + to <= mem.Length
      ensures mem[headers[i].start + from..headers[i].start + to] == Contents()[i].bytes[from..to]
    {
      ContentsAt(i);
      hide Tiled, MessagesOf;
      SliceOfSlice(mem[..], headers[i].start, headers[i].start + headers[i].size, from, to);
    }

    /** The room reported is the exact room of the message sequence, the packets lie end to end
        in queue order below curr, and no header reaches into them. */
    lemma Layout()
      requires Valid()
      ensures currSz == Room(mem.Length, headerSize, Contents())
      ensures TotalSize(Contents()) == curr
      ensures Flatten(BytesOf(Contents())) == mem[..curr]
      ensures forall i :: 0 <= i < queueTail ==> curr <= AddressOf(i)
      ensures currSz == if curr >= AddressOf(queueTail) then 0 else AddressOf(queueTail) - curr
    {
      TotalSizeIsEnd(mem[..], headers[..queueTail], histories, curr);
      PacketsTileMemory(mem[..], headers[..queueTail], histories, curr);
      assert mem[..][..curr] == mem[..curr];
      forall i | 0 <= i < queueTail ensures curr <= AddressOf(i) {
        ProductGrows(i + 1, queueTail, headerSize);
      }
    }

    /** mqtt_mq_init on a block of the given size. */
    constructor (bufsz: nat, headerSize: nat)
      requires headerSize > 0
      ensures Valid() && fresh(mem) && fresh(headers)
      ensures Contents() == [] && mem.Length == bufsz && this.headerSize == headerSize
    {
      mem := new byte[bufsz];
      headers := new Header[bufsz / headerSize];
      this.headerSize := headerSize;
      curr := 0;
      queueTail := 0;
      histories := [];
      currSz := if 0 >= bufsz - headerSize then 0 else bufsz - headerSize;
    }

    /** mqtt_mq_register: the nbytes just packed at curr become a message. */
    method Register(nbytes: nat, stale: Stale) returns (i: nat)
      requires Valid() && 0 < nbytes <= currSz
      modifies this, headers
      ensures Valid() && i == old(queueTail) && queueTail == i + 1 && curr == old(curr) + nbytes
      ensures Contents() == old(Contents()) + [Registered(old(mem[curr..curr + nbytes]), stale)]
    {
      hide Tiled, MessagesOf;
      ghost var hs, gs := headers[..queueTail], histories;
      ghost var h := Header(curr, nbytes, Unsent, stale.timeSent, stale.controlType, stale.packetId);
      ghost var g := History(mem[curr..curr + nbytes], []);
      assert (queueTail + 1) * headerSize == queueTail * headerSize + headerSize;
      SlotExists(mem.Length, headerSize, queueTail + 1);
      TiledSnoc(hs, curr, h);
      MessagesSnoc(mem[..], hs, gs, h, g);
      i := queueTail;
      headers[i] := Header(curr, nbytes, Unsent, stale.timeSent, stale.controlType, stale.packetId);
      queueTail := queueTail + 1;
      histories := histories + [g];
      assert headers[..queueTail] == hs + [h];
      curr := curr + nbytes;
      currSz := if curr >= AddressOf(queueTail) then 0 else AddressOf(queueTail) - curr;
    }

    /** mqtt_mq_clean: the longest complete prefix is dropped; the rest moves to the front of the block. */
    method Clean()
      requires Valid()
      modifies this, mem, headers
      ensures Valid() && Contents() == Cleaned(old(Contents()))
    {
      ghost var ms := Contents();
      var k := 0;
      while k < queueTail && headers[k].state == Complete
        invariant 0 <= k <= queueTail
        invariant forall i :: 0 <= i < k ==> ms[i].state.Complete?
      {
        k := k + 1;
      }
      CompletePrefixIs(ms, k);
      if k == queueTail {
        curr := 0;
        queueTail := 0;
        histories := [];
        currSz := if curr >= AddressOf(queueTail) then 0 else AddressOf(queueTail) - curr;
      } else if k != 0 {
        Shift(k);
      }
    }

    /** The message at k becomes the first: packets, headers and the headers' pointers are moved. */
    method Shift(k: nat)
      requires Valid() && k < queueTail
      modifies this, mem, headers
      ensures Valid() && Contents() == old(Contents())[k..]
    {
      hide Tiled, MessagesOf, MovedDown;
      ghost var hs, gs, was, end := headers[..queueTail], histories, mem[..], curr;
      ghost var ms := Contents();
      MoveDown(k);
      histories := gs[k..];
      assert mem[..][..curr] == mem[..curr] && was[hs[k].start..end] == old(mem[headers[k].start..curr]);
      MessagesMovedDown(was, mem[..], hs, headers[..queueTail], gs, end, k);
      ProductGrows(queueTail, |hs|, headerSize);
      currSz := if curr >= AddressOf(queueTail) then 0 else AddressOf(queueTail) - curr;
      assert Contents() == ms[k..];
    }

    /** The memory moves of a shift: packets first, then headers, then the headers' pointers. */
    method MoveDown(k: nat)
      requires k < queueTail <= headers.Length && curr <= mem.Length && Tiled(headers[..queueTail], curr)
      modifies this`curr, this`queueTail, mem, headers
      ensures queueTail == old(queueTail) - k && curr == old(curr - headers[k].start)
      ensures old(headers[k].start) <= old(curr) && mem[..curr] == old(mem[headers[k].start..curr])
      ensures MovedDown(old(headers[..queueTail]), k, headers[..queueTail])
    {
      ghost var hs, end := headers[..queueTail], curr;
      TiledBounds(hs, end, k);
      var removing := headers[k].start;
      var n := curr - removing;
      MoveToFront(mem, removing, n);
      curr := n;
      var count := queueTail - k;
      MoveHeaders(k, count);
      assert headers[..count] == hs[k..];
      queueTail := count;
      BumpStarts(hs, k, removing, end);
    }

    /** The memmove of the surviving headers. */
    method MoveHeaders(k: nat, count: nat)
      requires k + count <= headers.Length
      modifies headers
      ensures headers[..count] == old(headers[k..k + count])
    {
      ghost var moving := headers[k..k + count];
      var i := 0;
      while i < count
        invariant 0 <= i <= count
        invariant headers[..i] == moving[..i]
        invariant headers[i + k..k + count] == moving[i..]
      {
        assert headers[i + k] == moving[i] by { assert headers[i + k..k + count][0] == moving[i..][0]; }
        headers[i] := headers[i + k];
        i := i + 1;
      }
    }

    /** Each surviving header is made to point at its moved packet. */
    method BumpStarts(ghost hs: seq<Header>, ghost k: nat, removing: nat, ghost end: nat)
      requires k < |hs| && queueTail == |hs| - k && queueTail <= headers.Length
      requires headers[..queueTail] == hs[k..] && removing == hs[k].start
      requires Tiled(hs, end)
      modifies headers
      ensures MovedDown(hs, k, headers[..queueTail])
    {
      forall i | k < i < |hs| ensures hs[k].start <= hs[i].start { TiledOrdered(hs, end, k, i); }
      var i := 0;
      while i < queueTail
        invariant 0 <= i <= queueTail
        invariant forall j :: k <= j < k + i ==> headers[j - k] == Rebased(hs[j], removing)
        invariant forall j :: k + i <= j < |hs| ==> headers[j - k] == hs[j]
      {
        assert headers[i] == hs[k + i];
        headers[i] := headers[i].(start := headers[i].start - removing);
        i := i + 1;
      }
    }

    /** mqtt_mq_find; -1 for NULL. */
    method FindMessage(controlType: Nibble, packetId: Option<uint16>) returns (i: int)
      requires Valid()
      ensures i == Find(Contents(), controlType, packetId)
    {
      ghost var ms := Contents();
      i := 0;
      while i < queueTail
        invariant 0 <= i <= queueTail
        invariant forall j :: 0 <= j < i ==> !Matches(ms[j], controlType, packetId)
      {
        if headers[i].controlType == controlType {
          if (packetId.None? && headers[i].state != Complete)
             || (packetId.Some? && packetId.value == headers[i].packetId) {
            assert Matches(ms[i], controlType, packetId);
            return i;
          }
        }
        assert !Matches(ms[i], controlType, packetId);
        i := i + 1;
      }
      return -1;
    }

    /** Whether any queued header carries the id. */
    method CarriesId(id: int) returns (found: bool)
      requires Valid()
      ensures found <==> id in Ids(Contents())
    {
      ghost var ms := Contents();
      found := false;
      var i := 0;
      while i < queueTail && !found
        invariant 0 <= i <= queueTail
        invariant if found then id in Ids(ms) else forall j :: 0 <= j < i ==> ms[j].packetId != id
      {
        if headers[i].packetId == id {
          assert ms[i] in ms && ms[i].packetId == id;
          found := true;
        }
        i := i + 1;
      }
    }

    /** Assigns the fields of a header other than its packet. */
    method SetFields(i: nat, state: State, timeSent: int, controlType: Nibble, packetId: uint16)
      requires Valid() && i < queueTail
      modifies headers
      ensures Valid()
      ensures Contents() == old(Contents())[i := old(Contents())[i].(state := state, timeSent := timeSent,
                                                                      controlType := controlType, packetId := packetId)]
    {
      ghost var hs, ms := headers[..queueTail], Contents();
      headers[i] := headers[i].(state := state, timeSent := timeSent, controlType := controlType, packetId := packetId);
      TiledSameLayout(hs, headers[..queueTail], curr);
      assert Contents() == ms[i := ms[i].(state := state, timeSent := timeSent, controlType := controlType,
                                          packetId := packetId)];
    }

    method SetState(i: nat, state: State)
      requires Valid() && i < queueTail
      modifies headers
      ensures Valid() && Contents() == old(Contents())[i := old(Contents())[i].(state := state)]
    {
      SetFields(i, state, headers[i].timeSent, headers[i].controlType, headers[i].packetId);
    }

    /** Sets the DUP bit in a packet's first byte. */
    method SetDup(i: nat)
      requires Valid() && i < queueTail
      modifies mem
      ensures Valid()
      ensures Contents() == old(Contents())[i := old(Contents())[i].(bytes := WithDup(old(Contents())[i].bytes))]
    {
      ghost var hs, ms, was := headers[..queueTail], Contents(), mem[..];
      ContentsAt(i);
      var p := headers[i].start;
      var first := DupByte(mem[p]);
      mem[p] := first;
      assert mem[..] == was[p := first];
      FirstByteChanged(was, hs, histories, curr, i, first);
    }

    /** What the send loop records once message i has been sent completely; false for an unknown type. */
    method MarkSent(i: nat, now: int) returns (known: bool)
      requires Valid() && i < queueTail
      modifies this`histories, mem, headers
      ensures Valid() && Contents() == old(Contents())[i := AfterSending(old(Contents())[i], now)]
      ensures known == (CompletesOnSend(old(Contents())[i]) || AwaitsAckOnSend(old(Contents())[i]))
    {
      ghost var ms := Contents();
      ContentsAt(i);
      var h := headers[i];
      var qos := QosBits(mem[h.start]);
      assert qos == QosOf(ms[i]);
      hide Valid, Contents, WithDup, QosOf, AfterSending, CompletesOnSend, AwaitsAckOnSend;
      var state;
      state, known := StateAfterSending(h, qos);
      NoteSent(i);
      SetFields(i, state, now, h.controlType, h.packetId);
      if h.controlType == PUBLISH && qos == 1 {
        SetDup(i);
      }
      SentMessageIs(ms[i], now, state, known);
      assert Contents() == ms[i := Contents()[i]];
    }

    /** The switch over the type of a message that has been sent; false for an unknown type. */
    static method StateAfterSending(h: Header, qos: nat) returns (state: State, known: bool)
      ensures known == KnownType(h.controlType)
      ensures state == NextState(h.controlType, qos, h.state)
    {
      state := h.state;
      known := true;
      if h.controlType == PUBACK || h.controlType == PUBCOMP || h.controlType == DISCONNECT {
        state := Complete;
      } else if h.controlType == PUBLISH {
        state := if qos == 0 then Complete else AwaitingAck;
      } else if h.controlType == CONNECT || h.controlType == PUBREC || h.controlType == PUBREL
             || h.controlType == SUBSCRIBE || h.controlType == UNSUBSCRIBE || h.controlType == PINGREQ {
        state := AwaitingAck;
      } else {
        known := false;
      }
    }

    /** Notes a complete transmission of message i. */
    ghost method NoteSent(i: nat)
      requires Valid() && i < queueTail
      modifies this`histories
      ensures Valid()
      ensures var m := old(Contents())[i];
              Contents() == old(Contents())[i := m.(sent := m.sent + [m.bytes])]
    {
      ghost var ms := Contents();
      histories := histories[i := histories[i].(sent := histories[i].sent + [ms[i].bytes])];
      assert Contents() == ms[i := ms[i].(sent := ms[i].sent + [ms[i].bytes])];
    }

    /** Packing at curr leaves every queued message as it was. */
    twostate lemma PackingKeepsContents()
      requires old(Valid()) && unchanged(this) && unchanged(headers)
      requires KeptOutside(old(mem[..]), mem[..], curr, currSz)
      ensures Valid() && Contents() == old(Contents())
    {
      assert headers[..queueTail] == old(headers[..queueTail]);
      MessagesUnaffected(old(mem[..]), mem[..], headers[..queueTail], histories, curr);
    }

    /** The packet of a request lies at curr, inside the free room. */
    ghost predicate HoldsPacket(n: int, r: Request)
      requires RequestError(r) == 0
      reads this, mem
    {
      0 < n <= currSz && curr + n <= mem.Length && mem[curr..curr + n] == PacketBytes(r)
    }

    lemma RoomIsInside()
      requires Valid()
      ensures currSz == Room(mem.Length, headerSize, Contents()) && curr + currSz <= mem.Length
    {
      Layout();
    }

    /** The pack call of a request at the end of the queue: nothing but the free room changes.  Where the packer would
        write beyond that room, only what it would report is given. */
    method PackRequest(r: Request) returns (n: int)
      requires Valid()
      modifies mem
      ensures Valid() && Contents() == old(Contents()) && n == PackedSize(r, Room(mem.Length, headerSize, Contents()))
      ensures 0 < n <= currSz ==> RequestError(r) == 0 && HoldsPacket(n, r)
    {
      RoomIsInside();
      if Overflows(r, currSz) {
        return PackedSize(r, currSz);
      }
      n := PackInRoom(r);
    }

    method PackInRoom(r: Request) returns (n: int)
      requires Valid() && !Overflows(r, currSz)
      modifies mem
      ensures Valid() && Contents() == old(Contents()) && n == PackedSize(r, currSz)
      ensures n > 0 ==> RequestError(r) == 0 && HoldsPacket(n, r)
    {
      RoomIsInside();
      hide RuleViolation, PackedHeaderSize, BodyOf, HeaderBytes, Tiled, Contents, RoomAt, Room;
      label before:
      n := Pack(mem, curr, currSz, r);
      PackingKeepsContents@before();
      if n > 0 {
        PackedStaysInside(r, currSz, old(mem[..]), mem[..], curr);
        WroteAt(old(mem[..]), mem[..], curr, PacketBytes(r));
        assert mem[..][curr..curr + n] == mem[curr..curr + n];
      }
    }

    /** Registers the packet just packed and labels its header with the type and the id of the request. */
    method Push(n: nat, r: Request, stale: Stale)
      requires Valid() && RequestError(r) == 0 && HoldsPacket(n, r)
      modifies this, headers
      ensures Valid() && Contents() == old(Contents()) + [Queued(r, stale)]
    {
      hide PacketBytes, RequestError, Tiled, RoomAt;
      ghost var ms := Contents();
      var i := Register(n, stale);
      SetFields(i, Unsent, stale.timeSent, TypeOf(r), IdOf(r, stale));
      assert Contents() == ms + [Queued(r, stale)];
    }
  }
}
