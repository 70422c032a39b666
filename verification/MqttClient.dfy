/** The client as the source has it: an object over two memory blocks whose methods update it in
    place.  Every method is proved to do what ClientSpec says. */
module MqttClients {
  import opened Bytes
  import opened MqttConstants
  import opened FixedHeaders
  import opened Packers
  import opened Unpackers
  import opened Messages
  import opened MessageQueues
  import opened PacketIds
  import opened ClientSpec

  class MqttClient {
    const mq: MessageQueue
    const recvMem: array<byte>      // recv_buffer, from mem_start to mem_start + mem_size
    var recvCurr: nat               // bytes in the receive buffer: curr - mem_start
    var recvRoom: nat               // curr_sz
    var pidLfsr: bv16
    var sendOffset: nat
    var error: int
    var keepAlive: uint16
    var timeOfLastSend: int
    var responseTimeout: int
    var numberOfTimeouts: nat
    // the two directions of the socket
    var unread: seq<byte>
    var wire: seq<byte>
    // history
    ghost var registered: seq<seq<byte>>
    ghost var received: seq<byte>
    ghost var dispatched: seq<Dispatch>
    ghost var lost: bool

    ghost predicate Valid()
      reads this, mq, mq.mem, mq.headers
    {
      mq.Valid() && recvCurr + recvRoom == recvMem.Length && mq.mem != recvMem
    }

    /** The bytes in the receive buffer. */
    ghost function Buffered(): seq<byte>
      requires recvCurr <= recvMem.Length
      reads this`recvCurr, recvMem
    {
      recvMem[..recvCurr]
    }

    ghost function View(): Client
      requires Valid()
      reads this, mq, mq.mem, mq.headers, recvMem
    {
      Client(mq.Contents(), mq.mem.Length, mq.headerSize, pidLfsr, sendOffset, error, keepAlive,
             timeOfLastSend, responseTimeout, numberOfTimeouts, Buffered(), recvMem.Length,
             unread, wire, registered, received, dispatched, lost)
    }

    /** mqtt_init.  The last two arguments are what the fields it leaves alone hold. */
    constructor (sendbufsz: nat, headerSize: nat, recvbufsz: nat, incoming: seq<byte>, keepAlive: uint16, lastSend: int)
      requires headerSize > 0
      ensures Valid()
      ensures View() == Initial(Setup(sendbufsz, headerSize, recvbufsz, 30, keepAlive, lastSend), incoming)
    {
      mq := new MessageQueue(sendbufsz, headerSize);
      recvMem := new byte[recvbufsz];
      recvCurr, recvRoom := 0, recvbufsz;
      pidLfsr, sendOffset, error := 0, 0, ERROR_CONNECT_NOT_CALLED;
      this.keepAlive, timeOfLastSend, responseTimeout, numberOfTimeouts := keepAlive, lastSend, 30, 0;
      unread, wire := incoming, [];
      registered, received, dispatched, lost := [], [], [], false;
    }

    /** The shift and the taps of __mqtt_next_pid. */
    method TurnRegister()
      modifies this`pidLfsr
      ensures pidLfsr == Next(old(pidLfsr))
    {
      var lsb := pidLfsr & 1;
      pidLfsr := pidLfsr >> 1;
      if lsb == 1 {
        pidLfsr := pidLfsr ^ 0xB400;
      }
    }

    /** __mqtt_next_pid. */
    method NextPid() returns (pid: bv16)
      requires Valid() && SomeFree(Ids(mq.Contents()))
      modifies this`pidLfsr
      ensures Valid() && View() == old(View()).(lfsr := pid)
      ensures pid == NextId(old(pidLfsr), Ids(mq.Contents()))
    {
      hide Next, Ids, NextId, SomeFree, MessageQueue.Valid, MessageQueue.Contents, Buffered;
      ghost var ids, x := Ids(mq.Contents()), Primed(pidLfsr);
      if pidLfsr == 0 {
        pidLfsr := SEED;
      }
      ghost var k: nat := 0;
      var pidExists := true;
      while pidExists
        invariant pidLfsr == Iter(k, x)
        invariant if pidExists then forall j :: 1 <= j <= k ==> Iter(j, x) as int in ids else IsFirstFree(k, x, ids)
        invariant Valid() && View() == old(View()).(lfsr := pidLfsr)
        decreases pidExists, TurnsNeeded(x, ids) - k
      {
        TurnRegister();
        k := k + 1;
        pidExists := mq.CarriesId(pidLfsr as int);
        if pidExists { StillSearching(k, x, ids); }
      }
      NextIdUnique(old(pidLfsr), ids, k);
      return pidLfsr;
    }

    lemma StillSearching(k: nat, x: bv16, ids: set<int>)
      requires x != 0 && SomeFree(ids)
      requires forall j :: 1 <= j <= k ==> Iter(j, x) as int in ids
      ensures k < TurnsNeeded(x, ids)
    {}

    /** The pack call of MQTT_CLIENT_TRY_PACK, tried again after cleaning the queue if the packet does not fit. */
    method TryPack(r: Request) returns (n: int)
      requires Valid()
      modifies mq, mq.mem, mq.headers
      ensures Valid() && n == PackedSize(r, RoomOf(View()))
      ensures var c := old(View());
              View() == if PackedSize(r, RoomOf(c)) == 0 then c.(msgs := Cleaned(c.msgs)) else c
      ensures 0 < n <= mq.currSz ==> RequestError(r) == 0 && mq.HoldsPacket(n, r)
      ensures mq.currSz == RoomOf(View())
    {
      hide PackedSize, PacketBytes, Cleaned, Room, RequestError, MessageQueue.Valid, MessageQueue.Contents, Buffered;
      n := mq.PackRequest(r);
      if n == 0 {
        mq.Clean();
        n := mq.PackRequest(r);
      }
      mq.RoomIsInside();
    }

    /** MQTT_CLIENT_TRY_PACK and the assignments after it. */
    method StageRequest(r: Request, stale: Stale) returns (rv: int)
      requires Valid()
      modifies this, mq, mq.mem, mq.headers
      ensures Valid() && Outcome(View(), rv) == Stage(old(View()), r, stale)
    {
      hide PackedSize, PacketBytes, Cleaned, Room, RequestError, MessageQueue.Valid, MessageQueue.Contents, Buffered;
      if error < 0 {
        return error;
      }
      var n := TryPack(r);
      if n <= 0 {
        error := if n < 0 then n else ERROR_SEND_BUFFER_IS_FULL;
        return error;
      }
      if n > mq.currSz {
        lost := true;
        return 0;
      }
      mq.Push(n, r, stale);
      registered := registered + [PacketBytes(r)];
      return MQTT_OK;
    }

    // ----- The calls that stage a message -----

    /** mqtt_connect. */
    method Connect(r: Request, stale: Stale) returns (rv: int)
      requires Valid() && r.ConnectRequest?
      modifies this, mq, mq.mem, mq.headers
      ensures Valid() && Outcome(View(), rv) == ClientSpec.Connect(old(View()), r, stale)
    {
      hide Stage, MessageQueue.Valid, MessageQueue.Contents, Buffered;
      keepAlive := r.keepAlive;
      if error == ERROR_CONNECT_NOT_CALLED {
        error := MQTT_OK;
      }
      rv := StageRequest(r, stale);
    }

    /** mqtt_publish. */
    method Publish(topic: Option<seq<byte>>, message: seq<byte>, flags: byte, stale: Stale) returns (rv: int)
      requires Valid() && SomeFree(Ids(View().msgs))
      modifies this, mq, mq.mem, mq.headers
      ensures Valid() && Outcome(View(), rv) == PublishMessage(old(View()), topic, message, flags, stale)
    {
      hide Stage, NextId, SomeFree, Ids, MessageQueue.Valid, MessageQueue.Contents, Buffered;
      var pid := NextPid();
      rv := StageRequest(PublishRequest(topic, pid as int, message, flags), stale);
    }

    /** mqtt_subscribe. */
    method Subscribe(filter: seq<byte>, maxQos: byte, stale: Stale) returns (rv: int)
      requires Valid() && SomeFree(Ids(View().msgs))
      modifies this, mq, mq.mem, mq.headers
      ensures Valid() && Outcome(View(), rv) == ClientSpec.Subscribe(old(View()), filter, maxQos, stale)
    {
      hide Stage, NextId, SomeFree, Ids, MessageQueue.Valid, MessageQueue.Contents, Buffered;
      var pid := NextPid();
      rv := StageRequest(SubscribeRequest(pid as int, [(filter, maxQos)]), stale);
    }

    /** mqtt_unsubscribe. */
    method Unsubscribe(filter: seq<byte>, stale: Stale) returns (rv: int)
      requires Valid() && SomeFree(Ids(View().msgs))
      modifies this, mq, mq.mem, mq.headers
      ensures Valid() && Outcome(View(), rv) == ClientSpec.Unsubscribe(old(View()), filter, stale)
    {
      hide Stage, NextId, SomeFree, Ids, MessageQueue.Valid, MessageQueue.Contents, Buffered;
      var pid := NextPid();
      rv := StageRequest(UnsubscribeRequest(pid as int, [filter]), stale);
    }

    /** mqtt_ping and mqtt_disconnect. */
    method Ping(stale: Stale) returns (rv: int)
      requires Valid()
      modifies this, mq, mq.mem, mq.headers
      ensures Valid() && Outcome(View(), rv) == Stage(old(View()), PingRequest, stale)
    {
      rv := StageRequest(PingRequest, stale);
    }

    method Disconnect(stale: Stale) returns (rv: int)
      requires Valid()
      modifies this, mq, mq.mem, mq.headers
      ensures Valid() && Outcome(View(), rv) == Stage(old(View()), DisconnectRequest, stale)
    {
      rv := StageRequest(DisconnectRequest, stale);
    }

    // ----- __mqtt_send -----

    /** mqtt_pal_sendall: the socket takes the given number of bytes of message i from the send offset on. */
    method HandOver(i: nat, n: nat)
      requires Valid() && i < mq.queueTail == |View().msgs| && sendOffset + n <= |View().msgs[i].bytes|
      modifies this`wire, this`sendOffset
      ensures Valid()
      ensures View() == HandedOver(old(View()), i, n)
    {
      mq.PartOfPacket(i, sendOffset, sendOffset + n);
      hide MessageQueue.Valid, MessageQueue.Contents, Buffered;
      var start := mq.headers[i].start;
      wire := wire + mq.mem[start + sendOffset..start + (sendOffset + n)];
      sendOffset := sendOffset + n;
    }

    lemma HandedOverKeeps(c: Client, i: nat, n: nat)
      requires i < |c.msgs| && c.sendOffset + n <= |c.msgs[i].bytes|
      ensures HandedOver(c, i, n).msgs == c.msgs && HandedOver(c, i, n).sendOffset == c.sendOffset + n
    {}

    /** The bookkeeping after message i has been sent completely. */
    method FinishMessage(i: nat, ghost inflight: bool, now: int) returns (next: Verdict)
      requires Valid() && i < mq.queueTail == |View().msgs|
      modifies this`sendOffset, this`timeOfLastSend, this`error, mq`histories, mq.mem, mq.headers
      ensures Valid() && SendStep(View(), inflight, next) == Finished(old(View()), i, inflight, now)
    {
      hide AfterSending, CompletesOnSend, AwaitsAckOnSend, MessageQueue.Valid, MessageQueue.Contents, Buffered;
      sendOffset := 0;
      timeOfLastSend := now;
      var known := mq.MarkSent(i, now);
      next := Go;
      if !known {
        error := ERROR_MALFORMED_REQUEST;
        next := Fail(ERROR_MALFORMED_REQUEST);
      }
    }

    /** Hands the rest of message i to the socket, which takes as much of it as it likes. */
    method TransmitMessage(i: nat, ghost inflight: bool, t: Turn) returns (next: Verdict)
      requires Valid() && i < mq.queueTail == |View().msgs|
      modifies this, mq`histories, mq.mem, mq.headers
      ensures Valid() && SendStep(View(), inflight, next) == Transmit(old(View()), i, inflight, t)
      ensures mq.queueTail == old(mq.queueTail)
    {
      mq.ContentsAt(i);
      hide Finished, HandedOver, MessageQueue.Valid, MessageQueue.Contents, Buffered;
      var size := mq.headers[i].size;
      assert size == |View().msgs[i].bytes|;
      if sendOffset > size {
        lost := true;
        next := Fail(0);
      } else if t.reply < 0 {
        error := t.reply;
        next := Fail(t.reply);
      } else {
        HandOver(i, Min(t.reply, size - sendOffset));
        HandedOverKeeps(old(View()), i, Min(t.reply, size - old(sendOffset)));
        if sendOffset < size {
          next := Stop;
        } else {
          next := FinishMessage(i, inflight, t.after);
        }
      }
    }

    /** Whether message i is due to be sent, for the first time or because its response is overdue. */
    method CheckTimeout(i: nat, now: int) returns (resend: bool)
      requires Valid() && i < mq.queueTail == |View().msgs|
      modifies this`numberOfTimeouts, this`sendOffset
      ensures Valid()
      ensures var c, m := old(View()), old(View()).msgs[i];
              && resend == (m.state.Unsent? || TimedOut(m, now, responseTimeout))
              && View() == if TimedOut(m, now, responseTimeout)
                           then c.(timeouts := c.timeouts + 1, sendOffset := 0) else c
    {
      mq.ContentsAt(i);
      hide MessageQueue.Valid, MessageQueue.Contents, Buffered;
      var h := mq.headers[i];
      resend := false;
      if h.state == Unsent {
        resend := true;
      } else if h.state == AwaitingAck {
        if now > h.timeSent + responseTimeout {
          resend := true;
          numberOfTimeouts := numberOfTimeouts + 1;
          sendOffset := 0;
        }
      }
    }

    /** One round of the send loop. */
    method SendMessage(i: nat, inflight: bool, t: Turn) returns (inflight': bool, next: Verdict)
      requires Valid() && i < mq.queueTail == |View().msgs|
      modifies this, mq`histories, mq.mem, mq.headers
      ensures Valid() && SendStep(View(), inflight', next) == SendOne(old(View()), i, inflight, t)
      ensures mq.queueTail == old(mq.queueTail)
    {
      ghost var c := View();
      assert mq.queueTail == |c.msgs|;
      hide Transmit, TimedOut, PendingQos2, Valid, View, MessageQueue.Valid, MessageQueue.Contents, Buffered;
      var resend := CheckTimeout(i, t.now);
      inflight', resend := HoldBack(i, inflight, resend);
      if !resend {
        return inflight', Go;
      }
      next := TransmitMessage(i, inflight', t);
    }

    /** Only one QoS 2 PUBLISH is sent at a time. */
    method HoldBack(i: nat, inflight: bool, due: bool) returns (inflight': bool, resend: bool)
      requires Valid() && i < mq.queueTail == |View().msgs|
      ensures var pending := PendingQos2(View().msgs[i]);
              inflight' == (inflight || pending) && resend == (due && !(pending && inflight))
    {
      mq.ContentsAt(i);
      hide MessageQueue.Valid, MessageQueue.Contents, Buffered;
      var h := mq.headers[i];
      inflight', resend := inflight, due;
      if h.controlType == PUBLISH && (h.state == Unsent || h.state == AwaitingAck) {
        if QosBits(mq.mem[h.start]) == 2 {
          if inflight' {
            resend := false;
          }
          inflight' := true;
        }
      }
    }

    /** The loop of __mqtt_send over the queue. */
    method SendQueue(env: nat -> Turn) returns (next: Verdict)
      requires Valid()
      modifies this, mq`histories, mq.mem, mq.headers
      ensures Valid()
      ensures var s := SendFrom(old(View()), 0, false, env); s.client == View() && s.next == next
    {
      mq.RoomIsInside();
      var i, inflight := 0, false;
      ghost var c, result := View(), SendFrom(View(), 0, false, env);
      assert Reaches(c, i, inflight, env, result);
      hide SendOne, SendFrom, Reaches, MessageQueue.Valid, MessageQueue.Contents, Buffered;
      while i < mq.queueTail
        invariant 0 <= i <= mq.queueTail == |c.msgs| && Valid() && View() == c
        invariant Reaches(c, i, inflight, env, result)
        decreases mq.queueTail - i
      {
        RoundReaches(c, i, inflight, env, result);
        inflight, next := SendMessage(i, inflight, env(i));
        if next != Go {
          return next;
        }
        c := View();
        i := i + 1;
      }
      EndReached(c, i, inflight, env, result);
      return Go;
    }

    /** The send loop at message i ends with the given result. */
    ghost predicate Reaches(c: Client, i: nat, inflight: bool, env: nat -> Turn, result: SendStep) {
      i <= |c.msgs| && SendFrom(c, i, inflight, env) == result
    }

    lemma RoundReaches(c: Client, i: nat, inflight: bool, env: nat -> Turn, result: SendStep)
      requires Reaches(c, i, inflight, env, result) && i < |c.msgs|
      ensures var s := SendOne(c, i, inflight, env(i));
              if s.next.Go? then Reaches(s.client, i + 1, s.inflight, env, result) else s == result
    {
      hide SendOne;
    }

    lemma EndReached(c: Client, i: nat, inflight: bool, env: nat -> Turn, result: SendStep)
      requires Reaches(c, i, inflight, env, result) && i == |c.msgs|
      ensures result == SendStep(c, inflight, Go)
    {}

    /** The keep-alive check. */
    method CheckKeepAlive(now: int, stale: Stale) returns (rv: int)
      requires Valid()
      modifies this, mq, mq.mem, mq.headers
      ensures Valid() && Outcome(View(), rv) == KeepAlive(old(View()), now, stale)
    {
      hide Stage, MessageQueue.Valid, MessageQueue.Contents, Buffered;
      rv := MQTT_OK;
      if now > timeOfLastSend + keepAlive {
        rv := StageRequest(PingRequest, stale);
        if rv != MQTT_OK {
          error := rv;
        }
      }
    }

    /** __mqtt_send. */
    method Send(env: nat -> Turn, now: int, stale: Stale) returns (rv: int)
      requires Valid()
      modifies this, mq, mq.mem, mq.headers
      ensures Valid() && Outcome(View(), rv) == ClientSpec.Send(old(View()), env, now, stale)
    {
      hide SendFrom, KeepAlive, MessageQueue.Valid, MessageQueue.Contents, Buffered;
      if error < 0 && error != ERROR_SEND_BUFFER_IS_FULL {
        return error;
      }
      var next := SendQueue(env);
      if next.Fail? {
        return next.code;
      }
      rv := CheckKeepAlive(now, stale);
    }

    // ----- __mqtt_recv -----

    /** Completes the message an acknowledgement is for. */
    method ReleaseMessage(controlType: Nibble, packetId: Option<uint16>) returns (rv: int)
      requires Valid()
      modifies this`error, mq.headers
      ensures Valid() && Outcome(View(), rv) == Release(old(View()), controlType, packetId)
    {
      mq.RoomIsInside();
      hide Find, MessageQueue.Valid, MessageQueue.Contents, Buffered;
      var i := mq.FindMessage(controlType, packetId);
      if i < 0 {
        error := ERROR_ACK_OF_UNKNOWN;
        return ERROR_ACK_OF_UNKNOWN;
      }
      mq.SetState(i, Complete);
      return MQTT_OK;
    }

    /** Stages an acknowledgement; a failure is also the client's error. */
    method StageAcknowledgement(kind: Nibble, packetId: uint16, stale: Stale) returns (rv: int)
      requires Valid()
      modifies this, mq, mq.mem, mq.headers
      ensures Valid() && Outcome(View(), rv) == Acknowledge(old(View()), kind, packetId, stale)
    {
      hide Stage, MessageQueue.Valid, MessageQueue.Contents, Buffered;
      rv := StageRequest(PubxxxRequest(kind, packetId), stale);
      if rv != MQTT_OK {
        error := rv;
      }
    }

    method OnPublish(qos: nat, packetId: uint16, stale: Stale) returns (rv: int, delivered: bool)
      requires Valid()
      modifies this, mq, mq.mem, mq.headers
      ensures Valid() && Handled(View(), rv, delivered) == HandlePublish(old(View()), qos, packetId, stale)
    {
      hide Acknowledge, Find, MessageQueue.Valid, MessageQueue.Contents, Buffered;
      rv := MQTT_OK;
      if qos == 1 {
        rv := StageAcknowledgement(PUBACK, packetId, stale);
      } else if qos == 2 {
        var i := mq.FindMessage(PUBREC, Some(packetId));
        if i >= 0 {
          return MQTT_OK, false;
        }
        rv := StageAcknowledgement(PUBREC, packetId, stale);
      }
      delivered := rv == MQTT_OK;
    }

    method OnPubxxx(kind: Nibble, packetId: uint16, stale: Stale) returns (rv: int)
      requires Valid()
      modifies this, mq, mq.mem, mq.headers
      ensures Valid() && Outcome(View(), rv) == HandlePubxxx(old(View()), kind, packetId, stale)
    {
      hide Acknowledge, Release, Find, MessageQueue.Valid, MessageQueue.Contents, Buffered;
      if kind == PUBACK {
        rv := ReleaseMessage(PUBLISH, Some(packetId));
      } else if kind == PUBREC {
        var i := mq.FindMessage(PUBREL, Some(packetId));
        if i >= 0 {
          return MQTT_OK;
        }
        rv := ReleaseMessage(PUBLISH, Some(packetId));
        if rv == MQTT_OK {
          rv := StageAcknowledgement(PUBREL, packetId, stale);
        }
      } else if kind == PUBREL {
        rv := ReleaseMessage(PUBREC, Some(packetId));
        if rv == MQTT_OK {
          rv := StageAcknowledgement(PUBCOMP, packetId, stale);
        }
      } else {
        rv := ReleaseMessage(PUBREL, Some(packetId));
      }
    }

    /** A release whose acknowledgement may carry a refusal. */
    method ReleaseOrRefuse(controlType: Nibble, packetId: Option<uint16>, refused: bool, refusal: int) returns (rv: int)
      requires Valid()
      modifies this`error, mq.headers
      ensures Valid() && Handled(View(), rv, false) ==
              Refused(Release(old(View()), controlType, packetId), refused, refusal)
    {
      hide Release, MessageQueue.Valid, MessageQueue.Contents, Buffered;
      rv := ReleaseMessage(controlType, packetId);
      if rv == MQTT_OK && refused {
        error := refusal;
        rv := refusal;
      }
    }

    /** The switch over the type of a received packet. */
    method HandleResponse(r: Response, stale: Stale) returns (rv: int, delivered: bool)
      requires Valid()
      modifies this, mq, mq.mem, mq.headers
      ensures Valid() && Handled(View(), rv, delivered) == Handle(old(View()), r, stale)
    {
      hide Release, Refused, HandlePublish, HandlePubxxx, MessageQueue.Valid, MessageQueue.Contents, Buffered;
      delivered := false;
      match r
      case Connack(_, code) =>
        rv := ReleaseOrRefuse(CONNECT, None, code != 0,
                              if code == 2 then ERROR_CONNECT_CLIENT_ID_REFUSED else ERROR_CONNECTION_REFUSED);
      case Publish(_, qos, _, _, packetId, _) => rv, delivered := OnPublish(qos, packetId, stale);
      case Pubxxx(kind, packetId) => rv := OnPubxxx(kind, packetId, stale);
      case Suback(packetId, codes) =>
        rv := ReleaseOrRefuse(SUBSCRIBE, Some(packetId), codes != [] && codes[0] == 128, ERROR_SUBSCRIBE_FAILED);
      case Unsuback(packetId) => rv := ReleaseOrRefuse(UNSUBSCRIBE, Some(packetId), false, 0);
      case Pingresp => rv := ReleaseOrRefuse(PINGREQ, None, false, 0);
    }

    /** mqtt_pal_recvall: the socket puts what it gives behind the bytes already buffered. */
    method ReadSocket(reply: nat)
      requires Valid()
      modifies this`recvCurr, this`recvRoom, this`unread, this`received, recvMem
      ensures Valid() && |old(View()).recv| <= old(View()).recvSize && View() == Read(old(View()), reply)
    {
      hide MessageQueue.Valid, MessageQueue.Contents;
      var n := Min(reply, Min(|unread|, recvRoom));
      ghost var was := recvMem[..recvCurr];
      Copy(recvMem, recvCurr, unread[..n]);
      received := received + unread[..n];
      assert recvMem[..recvCurr + n] == was + unread[..n];
      recvCurr := recvCurr + n;
      recvRoom := recvRoom - n;
      unread := unread[n..];
    }

    /** The packet just handled is moved out of the receive buffer. */
    method CleanBuffer(consumed: nat, ghost r: Response, ghost delivered: bool)
      requires Valid() && consumed <= recvCurr
      modifies this`recvCurr, this`recvRoom, this`dispatched, recvMem
      ensures Valid() && consumed <= |old(View()).recv| && View() == TakeOut(old(View()), consumed, r, delivered)
    {
      hide MessageQueue.Valid, MessageQueue.Contents;
      ghost var was := recvMem[..recvCurr];
      var n := recvCurr - consumed;
      MoveToFront(recvMem, consumed, n);
      dispatched := dispatched + [Dispatch(was[..consumed], r, delivered)];
      assert recvMem[..n] == was[consumed..];
      recvCurr := n;
      recvRoom := recvRoom + consumed;
    }

    /** Parsing what is buffered, and handling a complete packet. */
    method DispatchPacket(stale: Stale) returns (rv: int, again: bool)
      requires Valid()
      modifies this, mq, mq.mem, mq.headers, recvMem
      ensures Valid() && RecvStep(View(), rv, again) == Dispatched(old(View()), stale)
    {
      hide Unpack, Handle, MessageQueue.Valid, MessageQueue.Contents;
      again := false;
      var u := UnpackResponse(recvMem, recvCurr);
      match u
      case Failed(e) =>
        error := e;
        rv := e;
      case Waiting =>
        rv := MQTT_OK;
        if recvRoom == 0 {
          error := ERROR_RECV_BUFFER_TOO_SMALL;
          rv := ERROR_RECV_BUFFER_TOO_SMALL;
        }
      case Overrun =>
        lost := true;
        rv := 0;
      case Unpacked(consumed, r) =>
        ghost var before := View();
        var delivered;
        rv, delivered := HandleResponse(r, stale);
        HandleFrame(before, r, stale);
        CleanBuffer(consumed, r, delivered);
        again := rv == MQTT_OK;
    }

    /** One round of the receive loop. */
    method ReceiveRound(a: Arrival) returns (rv: int, again: bool)
      requires Valid()
      modifies this, mq, mq.mem, mq.headers, recvMem
      ensures Valid() && |old(View()).recv| <= old(View()).recvSize
              && RecvStep(View(), rv, again) == RecvOne(old(View()), a)
    {
      hide Dispatched, Read, MessageQueue.Valid, MessageQueue.Contents;
      if a.reply < 0 {
        error := a.reply;
        return a.reply, false;
      }
      ReadSocket(a.reply);
      rv, again := DispatchPacket(a.stale);
    }

    /** __mqtt_recv. */
    method Recv(env: nat -> Arrival) returns (rv: int)
      requires Valid()
      modifies this, mq, mq.mem, mq.headers, recvMem
      ensures Valid() && |old(View()).recv| <= old(View()).recvSize
              && Outcome(View(), rv) == RecvFrom(old(View()), 0, env)
    {
      hide RecvOne, MessageQueue.Valid, MessageQueue.Contents;
      rv := MQTT_OK;
      var again, round := true, 0;
      ghost var result := RecvFrom(View(), 0, env);
      while again
        invariant Valid() && |View().recv| <= View().recvSize
        invariant result == if again then RecvFrom(View(), round, env) else Outcome(View(), rv)
        decreases again, |unread| + recvCurr
      {
        RecvProgress(View(), env(round));
        rv, again := ReceiveRound(env(round));
        round := round + 1;
      }
    }
  }
}
