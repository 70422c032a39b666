/** What is dispatched depends on the bytes received, not on how they were cut into reads. */
module Receiving {
  import opened Bytes
  import opened MqttConstants
  import opened FixedHeaders
  import opened Packers
  import opened Unpackers
  import opened Messages
  import opened ClientSpec
  import opened Effects
  import opened QueueInvariants
  import opened Definedness

  datatype Entry = Entry(packet: seq<byte>, response: Response)

  /** The reference: the whole stream cut into packets in one go, up to where it stops making sense. */
  function Split(s: seq<byte>): seq<Entry> {
    match Unpack(s)
    case Unpacked(n, r) => [Entry(s[..n], r)] + Split(s[n..])
    case _ => []
  }

  function Entries(ds: seq<Dispatch>): seq<Entry> {
    seq(|ds|, i requires 0 <= i < |ds| => Entry(ds[i].packet, ds[i].response))
  }

  function PacketsOf(ds: seq<Dispatch>): seq<seq<byte>> {
    seq(|ds|, i requires 0 <= i < |ds| => ds[i].packet)
  }

  ghost predicate ReceiveOk(c: Client) {
    && |c.recv| <= c.recvSize
    && c.received == Flatten(PacketsOf(c.dispatched)) + c.recv
    && forall t :: Split(c.received + t) == Entries(c.dispatched) + Split(c.recv + t)
  }

  lemma SplitFirst(s: seq<byte>, t: seq<byte>)
    requires Unpack(s).Unpacked?
    ensures var u := Unpack(s); Split(s + t) == [Entry(s[..u.consumed], u.response)] + Split(s[u.consumed..] + t)
  {
    var n := Unpack(s).consumed;
    UnpackStable(s, t);
    assert (s + t)[..n] == s[..n] && (s + t)[n..] == s[n..] + t;
  }

  lemma ArriveKeeps(c: Client, n: nat)
    requires ReceiveOk(c)
    ensures ReceiveOk(Read(c, n)) && Read(c, n).received + Read(c, n).unread == c.received + c.unread
  {
    hide Split, Entries, PacketsOf;
    var c' := Read(c, n);
    var m := Min(n, Min(|c.unread|, c.recvSize - |c.recv|));
    var fresher := c.unread[..m];
    assert c.unread == fresher + c.unread[m..];
    forall t ensures Split(c'.received + t) == Entries(c'.dispatched) + Split(c'.recv + t) {
      assert c'.received + t == c.received + (fresher + t) && c'.recv + t == c.recv + (fresher + t);
    }
  }

  lemma TakeOutKeeps(c: Client, consumed: nat, r: Response, delivered: bool)
    requires ReceiveOk(c) && Unpack(c.recv) == Unpacked(consumed, r)
    ensures ReceiveOk(TakeOut(c, consumed, r, delivered))
  {
    hide Split, Unpack;
    var c' := TakeOut(c, consumed, r, delivered);
    var p := c.recv[..consumed];
    assert Entries(c'.dispatched) == Entries(c.dispatched) + [Entry(p, r)];
    assert PacketsOf(c'.dispatched) == PacketsOf(c.dispatched) + [p];
    FlattenSnoc(PacketsOf(c.dispatched), p);
    assert c.recv == p + c'.recv;
    forall t ensures Split(c'.received + t) == Entries(c'.dispatched) + Split(c'.recv + t) {
      SplitFirst(c.recv, t);
    }
  }

  lemma SameReceiving(c: Client, c': Client)
    requires ReceiveOk(c)
    requires c'.recv == c.recv && c'.recvSize == c.recvSize && c'.received == c.received
             && c'.dispatched == c.dispatched
    ensures ReceiveOk(c')
  {}

  lemma TurnKeepsReceiving(c: Client, i: nat, t: Turn)
    requires ReceiveOk(c) && i < |c.msgs|
    ensures var c' := After(c, SendTurn(i, t));
            ReceiveOk(c') && c'.received == c.received && c'.unread == c.unread && c'.recvSize == c.recvSize
  {
    hide ReceiveOk, SendOne, AnyPending;
    var sent := TurnResult(c, i, t);
    SameReceiving(c, After(c, SendTurn(i, t)));
  }

  lemma LogKeepsReceiving(c: Client, e: Effect)
    requires ReceiveOk(c) && Allowed(c, e) && (e.Log? || e.LogAck? || e.Deliver?)
    ensures var c' := After(c, e);
            ReceiveOk(c') && c'.received == c.received && c'.unread == c.unread && c'.recvSize == c.recvSize
  {
    hide ReceiveOk, Unpack, AckTarget, PackedSize;
    match e
    case Log(consumed, r, delivered) => TakeOutKeeps(c, consumed, r, delivered);
    case LogAck(consumed, r, i) =>
      TakeOutKeeps(c, consumed, r, false);
      SameReceiving(TakeOut(c, consumed, r, false), After(c, e));
    case Deliver(consumed, r, stale) =>
      TakeOutKeeps(c, consumed, r, true);
      SameReceiving(TakeOut(c, consumed, r, true), After(c, e));
  }

  lemma EffectKeepsReceiving(c: Client, e: Effect)
    requires ReceiveOk(c) && Allowed(c, e)
    ensures ReceiveOk(After(c, e)) && After(c, e).received + After(c, e).unread == c.received + c.unread
    ensures After(c, e).recvSize == c.recvSize
  {
    hide ReceiveOk, Unpack, AckTarget, PushGuard, SendOne, AnyPending, Cleaned, PackedSize, TakeOut, RequestError;
    match e
    case Arrive(n) => ArriveKeeps(c, n);
    case Log(_, _, _) => LogKeepsReceiving(c, e);
    case LogAck(_, _, _) => LogKeepsReceiving(c, e);
    case Deliver(_, _, _) => LogKeepsReceiving(c, e);
    case SendTurn(i, t) => TurnKeepsReceiving(c, i, t);
    case Tidy => SameReceiving(c, After(c, e));
    case Push(_, _) => SameReceiving(c, After(c, e));
    case Adjust(_, _, _, _) => SameReceiving(c, After(c, e));
  }

  lemma {:induction false} PathKeepsReceiving(calm: bool, c: Client, es: seq<Effect>, c': Client)
    requires ReceiveOk(c) && Path(calm, c, es, c')
    ensures ReceiveOk(c') && c'.received + c'.unread == c.received + c.unread && c'.recvSize == c.recvSize
    decreases |es|
  {
    hide ReceiveOk, Allowed;
    if es != [] {
      EffectKeepsReceiving(c, es[0]);
      PathKeepsReceiving(calm, After(c, es[0]), es[1..], c');
    }
  }

  lemma InitialReceives(setup: Setup, stream: seq<byte>)
    ensures ReceiveOk(Initial(setup, stream))
  {
    var c := Initial(setup, stream);
    hide Split;
    forall t ensures Split(c.received + t) == Entries(c.dispatched) + Split(c.recv + t) {
      assert [] + Split(t) == Split(t);
    }
  }

  lemma RunReceives(setup: Setup, stream: seq<byte>, events: seq<Event>)
    ensures var c := Run(Initial(setup, stream), events);
            ReceiveOk(c) && c.received + c.unread == stream && c.recvSize == setup.recvSize
  {
    hide ReceiveOk, Run, Path;
    var c := Initial(setup, stream);
    InitialReceives(setup, stream);
    var es := RunPath(false, c, events);
    PathKeepsReceiving(false, c, es, Run(c, events));
    assert [] + stream == stream;
  }

  // ----- What it says about every run -----

  /** Dispatched packets and buffered bytes are exactly the bytes received. */
  lemma NothingLostOrReordered(setup: Setup, stream: seq<byte>, events: seq<Event>)
    ensures var c := Run(Initial(setup, stream), events);
            c.received == Flatten(PacketsOf(c.dispatched)) + c.recv && c.received <= stream
  {
    RunReceives(setup, stream, events);
    var c := Run(Initial(setup, stream), events);
    assert c.received <= c.received + c.unread;
  }

  /** However the stream is cut into reads, and whatever else the client does, what has been dispatched is a
      prefix of the one split of the stream; it is the whole split of the bytes received once the rest of them
      is an incomplete packet. */
  lemma ChunkIndependence(setup: Setup, stream: seq<byte>, events: seq<Event>)
    ensures var c := Run(Initial(setup, stream), events);
            && Entries(c.dispatched) <= Split(stream)
            && (Unpack(c.recv).Waiting? ==> Entries(c.dispatched) == Split(c.received))
  {
    RunReceives(setup, stream, events);
    var c := Run(Initial(setup, stream), events);
    assert Split(c.received + c.unread) == Entries(c.dispatched) + Split(c.recv + c.unread);
    assert Split(c.received + []) == Entries(c.dispatched) + Split(c.recv + []);
    assert c.received + [] == c.received && c.recv + [] == c.recv;
  }

  ghost predicate WellFormed(ps: seq<seq<byte>>) {
    forall i :: 0 <= i < |ps| ==> IsPacket(ps[i])
  }

  /** A stream of well-formed packets splits into those packets. */
  lemma {:induction false} SplitOfPackets(ps: seq<seq<byte>>)
    requires WellFormed(ps)
    ensures |Split(Flatten(ps))| == |ps|
    ensures forall i :: 0 <= i < |ps| ==> Split(Flatten(ps))[i] == Entry(ps[i], Unpack(ps[i]).response)
    decreases |ps|
  {
    hide IsPacket;
    if ps == [] {
    } else {
      PacketFirst(ps[0], Flatten(ps[1..]));
      SplitOfPackets(ps[1..]);
    }
  }

  lemma PacketFirst(p: seq<byte>, rest: seq<byte>)
    requires IsPacket(p)
    ensures Split(p + rest) == [Entry(p, Unpack(p).response)] + Split(rest)
  {
    SplitFirst(p, rest);
    assert p[..|p|] == p && p[|p|..] + rest == rest;
  }

  /** The packets of a well-formed stream are dispatched in order, each once, however the stream is chunked. */
  lemma PacketsDispatchedInOrder(setup: Setup, ps: seq<seq<byte>>, events: seq<Event>)
    requires WellFormed(ps)
    ensures var ds := Run(Initial(setup, Flatten(ps)), events).dispatched;
            && |ds| <= |ps|
            && forall i :: 0 <= i < |ds| ==> ds[i].packet == ps[i] && ds[i].response == Unpack(ps[i]).response
  {
    hide Run, Split;
    ChunkIndependence(setup, Flatten(ps), events);
    SplitOfPackets(ps);
    var ds := Run(Initial(setup, Flatten(ps)), events).dispatched;
    forall i | 0 <= i < |ds| ensures ds[i].packet == ps[i] && ds[i].response == Unpack(ps[i]).response {
      assert Entries(ds)[i] == Split(Flatten(ps))[i];
    }
  }

  /** With a packet at the front of what is buffered and yet to come, and a full buffer, the client gives up
      exactly when the packet is longer than the buffer. */
  lemma TooSmallIff(c: Client, p: seq<byte>, stale: Stale)
    requires |c.recv| == c.recvSize && IsPacket(p) && p <= c.recv + c.unread
    ensures Dispatched(c, stale).rv == ERROR_RECV_BUFFER_TOO_SMALL && Unpack(c.recv).Waiting? <==> |p| > c.recvSize
  {
    hide Handle;
    if |p| > c.recvSize {
      assert c.recv == p[..|c.recv|] by { assert (c.recv + c.unread)[..|c.recv|] == c.recv; }
      PacketPrefixIncomplete(p, |c.recv|);
    } else {
      assert p == c.recv[..|p|] && p + c.recv[|p|..] == c.recv;
      UnpackStable(p, c.recv[|p|..]);
    }
  }

  /** In every run over a stream of well-formed packets, a round finds the buffer too small exactly when the buffer is
      full after reading and the next packet of the stream is longer than the buffer. */
  lemma TooSmallInRunIff(setup: Setup, ps: seq<seq<byte>>, events: seq<Event>, reply: nat, stale: Stale)
    requires WellFormed(ps) && |Run(Initial(setup, Flatten(ps)), events).dispatched| < |ps|
    ensures var c := Run(Initial(setup, Flatten(ps)), events);
            && |c.recv| <= c.recvSize
            && (RecvOne(c, Arrival(reply, stale)).rv == ERROR_RECV_BUFFER_TOO_SMALL
                && Unpack(Read(c, reply).recv).Waiting?
                <==> |Read(c, reply).recv| == setup.recvSize && |ps[|c.dispatched|]| > setup.recvSize)
  {
    hide Run, Unpack, Handle, WellFormed, IsPacket, ReceiveOk, PacketsOf;
    var c := Run(Initial(setup, Flatten(ps)), events);
    NextPacketAhead(setup, ps, events);
    RunReceives(setup, Flatten(ps), events);
    ReceiveFits(c);
    var c1, p := Read(c, reply), ps[|c.dispatched|];
    WellFormedAt(ps, |c.dispatched|);
    assert c1.recv + c1.unread == c.recv + c.unread;
    if |c1.recv| == c1.recvSize {
      TooSmallIff(c1, p, stale);
    }
  }

  lemma WellFormedAt(ps: seq<seq<byte>>, i: nat)
    requires WellFormed(ps) && i < |ps|
    ensures IsPacket(ps[i])
  {}

  lemma ReceiveFits(c: Client)
    requires ReceiveOk(c)
    ensures |c.recv| <= c.recvSize && c.received == Flatten(PacketsOf(c.dispatched)) + c.recv
  {}

  /** What is buffered and yet to come starts with the first packet not dispatched. */
  lemma NextPacketAhead(setup: Setup, ps: seq<seq<byte>>, events: seq<Event>)
    requires WellFormed(ps) && |Run(Initial(setup, Flatten(ps)), events).dispatched| < |ps|
    ensures var c := Run(Initial(setup, Flatten(ps)), events);
            ps[|c.dispatched|] <= c.recv + c.unread
  {
    hide Run, WellFormed, ReceiveOk;
    var c := Run(Initial(setup, Flatten(ps)), events);
    var d := |c.dispatched|;
    RunReceives(setup, Flatten(ps), events);
    ReceiveFits(c);
    PacketsDispatchedInOrder(setup, ps, events);
    var front := Flatten(ps[..d]);
    assert PacketsOf(c.dispatched) == ps[..d];
    assert ps == ps[..d] + ps[d..];
    FlattenConcat(ps[..d], ps[d..]);
    assert Flatten(ps[d..]) == ps[d] + Flatten(ps[d..][1..]);
    ConcatAssociates(front, c.recv, c.unread);
    SameRest(front, c.recv + c.unread, Flatten(ps[d..]));
  }

  lemma SameRest(front: seq<byte>, a: seq<byte>, b: seq<byte>)
    requires front + a == front + b
    ensures a == b
  {
    assert (front + a)[|front|..] == a && (front + b)[|front|..] == b;
  }

  // ----- A receive call is a run of its rounds -----

  function Rounds(env: nat -> Arrival, k: nat, n: nat): seq<Event>
    decreases n
  {
    if n == 0 then [] else [RecvRound(env(k))] + Rounds(env, k + 1, n - 1)
  }

  /** __mqtt_recv amounts to some number of rounds (the call stops there, or stops being defined), so
      everything above holds of it; and if it returns without error only an incomplete packet is left. */
  lemma {:induction false} RecvCallIsRun(c: Client, k: nat, env: nat -> Arrival) returns (n: nat)
    requires |c.recv| <= c.recvSize && !c.lost
    ensures RecvFrom(c, k, env).client == Run(c, Rounds(env, k, n))
    ensures RecvFrom(c, k, env).rv == MQTT_OK ==> Unpack(RecvFrom(c, k, env).client.recv).Waiting?
    decreases |c.unread| + |c.recv|
  {
    hide RecvOne;
    var s := RecvOne(c, env(k));
    RecvProgress(c, env(k));
    assert Step(c, RecvRound(env(k))) == s.client;
    if s.again {
      RoundAgain(c, env(k));
      var rest := RecvCallIsRun(s.client, k + 1, env);
      n := rest + 1;
      var all := Rounds(env, k, n);
      assert all[0] == RecvRound(env(k)) && all[1..] == Rounds(env, k + 1, rest);
    } else {
      n := 1;
      var all := Rounds(env, k, 1);
      assert Rounds(env, k + 1, 0) == [];
      assert all[0] == RecvRound(env(k)) && all[1..] == [];
      if s.rv == MQTT_OK { RoundStops(c, env(k)); }
    }
  }

  lemma RoundAgain(c: Client, a: Arrival)
    requires |c.recv| <= c.recvSize && !c.lost && RecvOne(c, a).again
    ensures !RecvOne(c, a).client.lost
  {
    var c1 := Read(c, a.reply);
    HandleStaysDefined(c1, Unpack(c1.recv).response, a.stale);
  }

  lemma RoundStops(c: Client, a: Arrival)
    requires |c.recv| <= c.recvSize && !RecvOne(c, a).again && RecvOne(c, a).rv == MQTT_OK
    ensures Unpack(RecvOne(c, a).client.recv).Waiting?
  {
    hide Handle, Unpack;
  }
}
