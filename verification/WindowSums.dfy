/** The windowed sums of the accelerator and of the program that checks it: a streaming
    accumulator in hardware, two nested loops over a buffer in software. */
module WindowSums {

  const WINDOW: nat := 330
  const WORD_SIZE: nat := 4
  const VIB_BUFF_MAX: nat := WINDOW * WORD_SIZE

  type int32 = x: int | -0x8000_0000 <= x < 0x8000_0000

  /** Two's complement wrap-around. */
  function Wrap(x: int): int32 {
    (x + 0x8000_0000) % 0x1_0000_0000 - 0x8000_0000
  }

  lemma WrapModulus(x: int)
    ensures exists k :: Wrap(x) == x + k * 0x1_0000_0000
  {
    var y := x + 0x8000_0000;
    assert Wrap(x) == x + (-(y / 0x1_0000_0000)) * 0x1_0000_0000;
  }

  lemma WrapShift(x: int, k: int)
    ensures Wrap(x + k * 0x1_0000_0000) == Wrap(x)
  {
    var m, y := 0x1_0000_0000, x + 0x8000_0000;
    assert y + k * m == m * (y / m + k) + y % m;
    assert (y + k * m) / m == y / m + k;
  }

  /** Wrapping early or late makes no difference. */
  lemma WrapAdd(x: int, y: int)
    ensures Wrap(Wrap(x) + y) == Wrap(x + y)
  {
    WrapModulus(x);
    var k :| Wrap(x) == x + k * 0x1_0000_0000;
    WrapShift(x + y, k);
  }

  function Total(ds: seq<int>): int {
    if ds == [] then 0 else ds[0] + Total(ds[1..])
  }

  lemma {:induction false} TotalConcat(a: seq<int>, b: seq<int>)
    ensures Total(a + b) == Total(a) + Total(b)
  {
    if a == [] {
      assert a + b == b;
    } else {
      assert (a + b)[1..] == a[1..] + b;
      TotalConcat(a[1..], b);
    }
  }

  lemma TotalSnoc(a: seq<int>, d: int)
    ensures Total(a + [d]) == Total(a) + d
  {
    TotalConcat(a, [d]);
    assert Total([d]) == d + Total([]);
  }

  /** The sums of consecutive windows, the last one possibly shorter. */
  function Sums(ds: seq<int>): seq<int32> {
    if ds == [] then []
    else if |ds| <= WINDOW then [Wrap(Total(ds))]
    else [Wrap(Total(ds[..WINDOW]))] + Sums(ds[WINDOW..])
  }

  // ----- Shape and conservation -----

  /** Nothing is lost: the sums add up to the total of the input, modulo 2^32. */
  lemma {:induction false} SumsConserve(ds: seq<int>)
    ensures Wrap(Total(Sums(ds))) == Wrap(Total(ds))
  {
    if ds == [] {
    } else if |ds| <= WINDOW {
      assert Sums(ds) == [] + [Wrap(Total(ds))];
      TotalSnoc([], Wrap(Total(ds)));
      WrapAdd(Total(ds), 0);
    } else {
      var a, b := ds[..WINDOW], ds[WINDOW..];
      SumsConserve(b);
      assert ds == a + b;
      TotalConcat(a, b);
      var s := Sums(ds);
      assert s[1..] == Sums(b);
      WrapAdd(Total(a), Total(Sums(b)));
      WrapAdd(Total(Sums(b)), Total(a));
      WrapAdd(Total(b), Total(a));
    }
  }

  /** The k-th sum is that of the words from 330 * k on, up to 330 of them. */
  lemma {:induction false} SumsAt(ds: seq<int>, k: nat)
    requires k * 330 < |ds|
    ensures var end := if k * 330 + 330 < |ds| then k * 330 + 330 else |ds|;
            k < |Sums(ds)| && Sums(ds)[k] == Wrap(Total(ds[k * 330..end]))
  {
    if k == 0 {
      if |ds| <= WINDOW { assert ds[..|ds|] == ds; }
    } else {
      SumsAt(ds[WINDOW..], k - 1);
      hide Total, Wrap;
      var end := if k * 330 + 330 < |ds| then k * 330 + 330 else |ds|;
      SliceOfRest(ds, 330, k * 330 - 330, end - 330);
    }
  }

  lemma SliceOfRest(ds: seq<int>, w: nat, lo: nat, hi: nat)
    requires lo <= hi <= |ds| - w
    ensures ds[w..][lo..hi] == ds[w + lo..w + hi]
  {}

  lemma FirstSum(ds: seq<int>)
    requires |ds| >= WINDOW
    ensures Sums(ds) == [Wrap(Total(ds[..WINDOW]))] + Sums(ds[WINDOW..])
  {
    hide Total, Wrap;
    if |ds| == WINDOW { assert ds[..WINDOW] == ds && ds[WINDOW..] == []; }
  }

  lemma ConcatSums(a: seq<int32>, b: seq<int32>, c: seq<int32>)
    ensures (a + b) + c == a + (b + c)
  {}

  lemma {:induction false} SumsSplit(a: seq<int>, b: seq<int>)
    requires |a| % WINDOW == 0
    ensures Sums(a + b) == Sums(a) + Sums(b)
  {
    hide Total, Wrap;
    if a == [] {
      assert a + b == b;
    } else if b == [] {
      assert a + b == a;
    } else {
      assert |a| >= WINDOW;
      SumsSplit(a[WINDOW..], b);
      FirstSum(a);
      FirstSum(a + b);
      assert (a + b)[..WINDOW] == a[..WINDOW] && (a + b)[WINDOW..] == a[WINDOW..] + b;
      hide Sums;
      ConcatSums([Wrap(Total(a[..WINDOW]))], Sums(a[WINDOW..]), Sums(b));
    }
  }

  lemma OneWindow(a: seq<int>)
    requires |a| == WINDOW
    ensures Sums(a) == [Wrap(Total(a))]
  {}

  // ----- Software: sum_buffer and calc_output -----

  /** sum_buffer: byte offsets start and end, of which whole words count. */
  method SumBuffer(buffer: array<int32>, start: nat, end: nat) returns (ret: int32)
    requires start / WORD_SIZE <= end / WORD_SIZE <= buffer.Length
    ensures ret == Wrap(Total(buffer[start / WORD_SIZE..end / WORD_SIZE]))
  {
    ret := 0;
    var i := start / WORD_SIZE;
    while i < end / WORD_SIZE
      invariant start / WORD_SIZE <= i <= end / WORD_SIZE
      invariant ret == Wrap(Total(buffer[start / WORD_SIZE..i]))
    {
      assert buffer[start / WORD_SIZE..i + 1] == buffer[start / WORD_SIZE..i] + [buffer[i]];
      TotalSnoc(buffer[start / WORD_SIZE..i], buffer[i]);
      WrapAdd(Total(buffer[start / WORD_SIZE..i]), buffer[i]);
      ret := Wrap(ret + buffer[i]);
      i := i + 1;
    }
  }

  /** What calc_output prints: the window sums of the whole words, and a zero more when the size ends one
      to three bytes after a window boundary. */
  function Calculated(words: seq<int32>, size: nat): seq<int32>
    requires size / WORD_SIZE <= |words|
  {
    Sums(words[..size / WORD_SIZE]) + (if 0 < size % VIB_BUFF_MAX < WORD_SIZE then [0] else [])
  }

  lemma WordOffsets(i: nat, r: nat)
    ensures (VIB_BUFF_MAX * i + r) / WORD_SIZE == WINDOW * i + r / WORD_SIZE
  {
    assert VIB_BUFF_MAX * i == WORD_SIZE * (WINDOW * i);
  }

  /** A whole window more. */
  lemma AnotherWindow(words: seq<int>, i: nat)
    requires WINDOW * i + WINDOW <= |words|
    ensures Sums(words[..WINDOW * i + WINDOW])
            == Sums(words[..WINDOW * i]) + [Wrap(Total(words[WINDOW * i..WINDOW * i + WINDOW]))]
  {
    var window := words[WINDOW * i..WINDOW * i + WINDOW];
    OneWindow(window);
    hide Sums, Total, Wrap;
    assert words[..WINDOW * i + WINDOW] == words[..WINDOW * i] + window;
    SumsSplit(words[..WINDOW * i], window);
  }

  /** The rest after the last whole window. */
  lemma LastWindow(words: seq<int>, i: nat)
    requires WINDOW * i <= |words| < WINDOW * i + WINDOW
    ensures Sums(words) == Sums(words[..WINDOW * i])
                           + (if WINDOW * i == |words| then [] else [Wrap(Total(words[WINDOW * i..]))])
  {
    var tail := words[WINDOW * i..];
    assert Sums(tail) == if tail == [] then [] else [Wrap(Total(tail))];
    hide Sums, Total, Wrap;
    assert words == words[..WINDOW * i] + tail;
    SumsSplit(words[..WINDOW * i], tail);
  }

  /** The call for the remaining r bytes, made when there are any. */
  lemma Remainder(words: seq<int32>, size: nat, j: nat, r: nat)
    requires size == VIB_BUFF_MAX * j + r && r < VIB_BUFF_MAX && size / WORD_SIZE <= |words|
    ensures WINDOW * j <= size / WORD_SIZE
    ensures Calculated(words, size)
            == Sums(words[..WINDOW * j]) + (if r == 0 then [] else [Wrap(Total(words[WINDOW * j..size / WORD_SIZE]))])
  {
    WordOffsets(j, r);
    assert size % VIB_BUFF_MAX == r by { RemainderOf(j, r); }
    var whole := words[..size / WORD_SIZE];
    LastWindow(whole, j);
    assert Total([]) == 0 && Wrap(0) == 0;
    hide Sums, Total, Wrap;
    assert whole[..WINDOW * j] == words[..WINDOW * j] && whole[WINDOW * j..] == words[WINDOW * j..size / WORD_SIZE];
    if r < WORD_SIZE { assert words[WINDOW * j..size / WORD_SIZE] == []; }
  }

  lemma RemainderOf(j: nat, r: nat)
    requires r < VIB_BUFF_MAX
    ensures (VIB_BUFF_MAX * j + r) % VIB_BUFF_MAX == r
  {}

  /** calc_output on size bytes, with the numbers it prints as its result. */
  method CalcOutput(buffer: array<int32>, size: nat) returns (printed: seq<int32>)
    requires size / WORD_SIZE <= buffer.Length
    ensures printed == Calculated(buffer[..], size)
  {
    hide Sums, Total, Wrap, Calculated;
    var j, r := size / VIB_BUFF_MAX, size % VIB_BUFF_MAX;
    Remainder(buffer[..], size, j, r);
    printed := [];
    assert Sums(buffer[..][..0]) == [] by { NoSums(buffer[..][..0]); }
    var i := 0;
    while i < j
      invariant 0 <= i <= j
      invariant printed == Sums(buffer[..][..WINDOW * i])
    {
      WordOffsets(i, 0);
      WordOffsets(i + 1, 0);
      AnotherWindow(buffer[..], i);
      var s := SumBuffer(buffer, VIB_BUFF_MAX * i, (i + 1) * VIB_BUFF_MAX);
      printed := printed + [s];
      i := i + 1;
    }
    if r != 0 {
      WordOffsets(j, 0);
      var s := SumBuffer(buffer, VIB_BUFF_MAX * j, VIB_BUFF_MAX * j + r);
      printed := printed + [s];
    }
  }

  lemma NoSums(words: seq<int>)
    requires words == []
    ensures Sums(words) == []
  {}

  // ----- Hardware: sum_330 -----

  /** A word of the AXI stream with its side channels. */
  datatype Beat = Beat(data: int32, keep: int, strb: int, user: int, last: bool, id: int, dest: int)

  /** A stream of words, those up to next already read. */
  class Stream {
    var beats: seq<Beat>
    var next: nat

    function Pending(): seq<Beat>
      requires next <= |beats|
      reads this
    {
      beats[next..]
    }

    method Read() returns (b: Beat)
      requires next < |beats|
      modifies this`next
      ensures next == old(next) + 1 && b == beats[old(next)]
    {
      b := beats[next];
      next := next + 1;
    }

    method Write(b: Beat)
      modifies this`beats
      ensures beats == old(beats) + [b]
    {
      beats := beats + [b];
    }
  }

  function Data(bs: seq<Beat>): seq<int> {
    if bs == [] then [] else [bs[0].data] + Data(bs[1..])
  }

  /** What the accumulator sends at the end of a window: the sum, with the side channels of the window's last word. */
  function WindowBeat(window: seq<Beat>): Beat
    requires window != []
  {
    var b := window[|window| - 1];
    b.(data := Wrap(Total(Data(window))), keep := if b.last then -1 else b.keep)
  }

  /** What the accumulator emits for a packet. */
  function Emitted(packet: seq<Beat>): seq<Beat> {
    if packet == [] then []
    else if |packet| <= WINDOW then [WindowBeat(packet)]
    else [WindowBeat(packet[..WINDOW])] + Emitted(packet[WINDOW..])
  }

  /** The words up to and including the first one that is flagged last. */
  function Packet(bs: seq<Beat>): seq<Beat> {
    if bs == [] then [] else if bs[0].last then [bs[0]] else [bs[0]] + Packet(bs[1..])
  }

  ghost predicate IsPacket(bs: seq<Beat>) {
    bs != [] && bs[|bs| - 1].last && forall i :: 0 <= i < |bs| - 1 ==> !bs[i].last
  }

  /** Some word is flagged last. */
  predicate HasLast(bs: seq<Beat>) {
    bs != [] && (bs[0].last || HasLast(bs[1..]))
  }

  lemma {:induction false} PacketEndsWithLast(bs: seq<Beat>)
    requires HasLast(bs)
    ensures IsPacket(Packet(bs)) && Packet(bs) <= bs
  {
    if !bs[0].last {
      PacketEndsWithLast(bs[1..]);
      assert bs == [bs[0]] + bs[1..];
    }
  }

  lemma {:induction false} DataConcat(a: seq<Beat>, b: seq<Beat>)
    ensures Data(a + b) == Data(a) + Data(b)
  {
    if a == [] {
      assert a + b == b;
    } else {
      assert (a + b)[1..] == a[1..] + b;
      DataConcat(a[1..], b);
    }
  }

  lemma {:induction false} DataLength(bs: seq<Beat>)
    ensures |Data(bs)| == |bs|
  {
    if bs != [] { DataLength(bs[1..]); }
  }

  lemma DataSnoc(a: seq<Beat>, b: Beat)
    ensures Total(Data(a + [b])) == Total(Data(a)) + b.data
  {
    DataConcat(a, [b]);
    assert Data([b]) == [b.data];
    TotalSnoc(Data(a), b.data);
  }

  /** The words sent are the window sums of the words read. */
  lemma {:induction false} EmittedData(packet: seq<Beat>)
    ensures Data(Emitted(packet)) == Sums(Data(packet))
  {
    DataLength(packet);
    if |packet| > WINDOW {
      var a, b := packet[..WINDOW], packet[WINDOW..];
      EmittedData(b);
      assert packet == a + b;
      DataConcat(a, b);
      DataLength(a);
      DataLength(b);
      assert Data(packet)[..WINDOW] == Data(a) && Data(packet)[WINDOW..] == Data(b);
      var e := Emitted(packet);
      assert e[1..] == Emitted(b);
    } else if packet != [] {
      assert Emitted(packet)[1..] == [];
    }
  }

  /** The last flag is set on the final word sent and on no other, including when the packet fills its windows
      exactly. */
  lemma {:induction false} EmittedIsPacket(packet: seq<Beat>)
    requires IsPacket(packet)
    ensures IsPacket(Emitted(packet)) && |Emitted(packet)| == (|packet| + WINDOW - 1) / WINDOW
  {
    hide Total, Data, Wrap;
    if |packet| > WINDOW {
      var window, rest := packet[..WINDOW], packet[WINDOW..];
      RestIsPacket(packet, WINDOW);
      EmittedIsPacket(rest);
      assert Emitted(packet) == [WindowBeat(window)] + Emitted(rest);
      assert !WindowBeat(window).last;
      hide Emitted, WindowBeat, IsPacket;
      WordBeforePacket(WindowBeat(window), Emitted(rest));
    }
  }

  lemma RestIsPacket(packet: seq<Beat>, n: nat)
    requires IsPacket(packet) && 0 < n < |packet|
    ensures IsPacket(packet[n..]) && !packet[n - 1].last
  {}

  lemma WordBeforePacket(b: Beat, packet: seq<Beat>)
    requires !b.last && IsPacket(packet)
    ensures IsPacket([b] + packet)
  {}

  /** The side channels of each word sent are those of the last word of its window. */
  lemma {:induction false} EmittedSideChannels(packet: seq<Beat>, k: nat)
    requires IsPacket(packet) && k < |Emitted(packet)|
    ensures var end := if k * WINDOW + WINDOW < |packet| then k * WINDOW + WINDOW else |packet|;
            var b, e := packet[end - 1], Emitted(packet)[k];
            && e.strb == b.strb && e.user == b.user && e.id == b.id && e.dest == b.dest && e.last == b.last
            && e.keep == if b.last then -1 else b.keep
  {
    EmittedIsPacket(packet);
    hide Total, Data, Wrap;
    if |packet| > WINDOW && k > 0 {
      EmittedSideChannels(packet[WINDOW..], k - 1);
    }
  }

  /** What the accumulator still sends when cnt words of a window have added up to sum and bs is to come. */
  function Accumulate(bs: seq<Beat>, cnt: int, sum: int): seq<Beat> {
    if bs == [] then []
    else
      var b, sum' := bs[0], Wrap(sum + bs[0].data);
      if b.last then [Beat(sum', -1, b.strb, b.user, true, b.id, b.dest)]
      else if cnt + 1 == WINDOW
      then [Beat(sum', b.keep, b.strb, b.user, b.last, b.id, b.dest)] + Accumulate(bs[1..], 0, 0)
      else Accumulate(bs[1..], cnt + 1, sum')
  }

  /** Adding up word by word amounts to cutting the packet into windows. */
  lemma {:induction false} AccumulatedIsEmitted(window: seq<Beat>, bs: seq<Beat>)
    requires |window| < WINDOW && HasLast(bs)
    ensures Accumulate(bs, |window|, Wrap(Total(Data(window)))) == Emitted(window + Packet(bs))
    decreases |bs|
  {
    hide Total, Data, Wrap, Emitted;
    WordAdded(window, bs[0]);
    if bs[0].last {
      LastWindow1(window + [bs[0]], bs[0]);
    } else {
      TailHasLast(bs);
      assert window + Packet(bs) == (window + [bs[0]]) + Packet(bs[1..]);
      if |window| + 1 == WINDOW {
        NothingAdded();
        AccumulatedIsEmitted([], bs[1..]);
        assert [] + Packet(bs[1..]) == Packet(bs[1..]);
        FullWindow(window + [bs[0]], Packet(bs[1..]));
      } else {
        AccumulatedIsEmitted(window + [bs[0]], bs[1..]);
      }
    }
  }

  /** One more word of a window adds its data to the sum. */
  lemma WordAdded(window: seq<Beat>, b: Beat)
    ensures Wrap(Wrap(Total(Data(window))) + b.data) == Wrap(Total(Data(window + [b])))
  {
    DataSnoc(window, b);
    WrapAdd(Total(Data(window)), b.data);
  }

  lemma LastWindow1(window: seq<Beat>, b: Beat)
    requires 0 < |window| <= WINDOW && window[|window| - 1] == b && b.last
    ensures Emitted(window) == [Beat(Wrap(Total(Data(window))), -1, b.strb, b.user, true, b.id, b.dest)]
  {}

  lemma TailHasLast(bs: seq<Beat>)
    requires HasLast(bs) && !bs[0].last
    ensures HasLast(bs[1..]) && Packet(bs) == [bs[0]] + Packet(bs[1..]) && Packet(bs[1..]) != []
  {
  }

  lemma NothingAdded()
    ensures Wrap(Total(Data([]))) == 0
  {}

  lemma FullWindow(window: seq<Beat>, rest: seq<Beat>)
    requires |window| == WINDOW && rest != []
    ensures Emitted(window + rest) == [WindowBeat(window)] + Emitted(rest)
  {
    assert (window + rest)[..WINDOW] == window && (window + rest)[WINDOW..] == rest;
  }

  /** From the given position on, and with out sent so far, the loop ends at position end with total sent. */
  ghost predicate LeadsTo(all: seq<Beat>, next: nat, out: seq<Beat>, cnt: int, sum: int, end: nat, total: seq<Beat>) {
    && next < |all| && HasLast(all[next..])
    && next + |Packet(all[next..])| == end && out + Accumulate(all[next..], cnt, sum) == total
  }

  lemma Began(all: seq<Beat>, next: nat, out: seq<Beat>)
    requires next <= |all| && HasLast(all[next..])
    ensures LeadsTo(all, next, out, 0, 0, next + |Packet(all[next..])|, out + Emitted(Packet(all[next..])))
  {
    NothingAdded();
    AccumulatedIsEmitted([], all[next..]);
    assert [] + Packet(all[next..]) == Packet(all[next..]);
  }

  lemma Round(all: seq<Beat>, next: nat, out: seq<Beat>, cnt: int, sum: int, end: nat, total: seq<Beat>)
    requires LeadsTo(all, next, out, cnt, sum, end, total)
    ensures next < |all|
    ensures var b, sum' := all[next], Wrap(sum + all[next].data);
            if b.last then next + 1 == end && out + [Beat(sum', -1, b.strb, b.user, true, b.id, b.dest)] == total
            else if cnt + 1 == WINDOW
            then LeadsTo(all, next + 1, out + [Beat(sum', b.keep, b.strb, b.user, b.last, b.id, b.dest)],
                         0, 0, end, total)
            else LeadsTo(all, next + 1, out, cnt + 1, sum', end, total)
  {
    var bs := all[next..];
    assert bs[0] == all[next] && bs[1..] == all[next + 1..];
    if !bs[0].last { TailHasLast(bs); }
  }

  /** sum_330: reads words up to the one flagged last and writes a sum for every window.  Reading an empty
      stream blocks for ever, so the stream must hold such a word. */
  method Sum330(input: Stream, output: Stream)
    requires input != output && input.next <= |input.beats| && HasLast(input.Pending())
    modifies input`next, output`beats
    ensures input.next == old(input.next) + |Packet(old(input.Pending()))|
    ensures output.beats == old(output.beats) + Emitted(Packet(old(input.Pending())))
  {
    ghost var packet := Packet(input.Pending());
    Began(input.beats, input.next, output.beats);
    SumLoop(input, output, input.next + |packet|, output.beats + Emitted(packet));
  }

  /** The loop, as far as to the given end of the packet and the given total output. */
  method SumLoop(input: Stream, output: Stream, ghost end: nat, ghost total: seq<Beat>)
    requires input != output && LeadsTo(input.beats, input.next, output.beats, 0, 0, end, total)
    modifies input`next, output`beats
    ensures input.next == end && output.beats == total
  {
    var cnt, sum: int32 := 0, 0;
    assert LeadsTo(input.beats, input.next, output.beats, cnt, sum, end, total);
    hide *;
    while true
      invariant 0 <= cnt < WINDOW
      invariant LeadsTo(input.beats, input.next, output.beats, cnt, sum, end, total)
      decreases |input.beats| - input.next
    {
      Round(input.beats, input.next, output.beats, cnt, sum, end, total);
      var tmp1 := input.Read();
      sum := Wrap(sum + tmp1.data);
      cnt := cnt + 1;
      if tmp1.last {
        output.Write(Beat(sum, -1, tmp1.strb, tmp1.user, true, tmp1.id, tmp1.dest));
        break;
      }
      if cnt == WINDOW {
        output.Write(Beat(sum, tmp1.keep, tmp1.strb, tmp1.user, tmp1.last, tmp1.id, tmp1.dest));
        cnt, sum := 0, 0;
      }
    }
  }

  /** Hardware equals software: the words the accumulator sends for a packet are, in order, the numbers
      printed for a buffer with the same words. */
  lemma HardwareEqualsSoftware(input: seq<Beat>, buffer: seq<int32>)
    requires HasLast(input) && Data(Packet(input)) == buffer
    ensures Data(Emitted(Packet(input))) == Calculated(buffer, WORD_SIZE * |buffer|)
  {
    var size := WORD_SIZE * |buffer|;
    NoPartialWord(|buffer|);
    hide Sums, Emitted, Data, Packet;
    assert buffer[..|buffer|] == buffer;
    EmittedData(Packet(input));
  }

  lemma NoPartialWord(n: nat)
    ensures WORD_SIZE * n / WORD_SIZE == n
    ensures !(0 < WORD_SIZE * n % VIB_BUFF_MAX < WORD_SIZE)
  {
    var j, r := n / WINDOW, n % WINDOW;
    assert WORD_SIZE * n == VIB_BUFF_MAX * j + WORD_SIZE * r;
    RemainderOf(j, WORD_SIZE * r);
  }

  /** Shape and conservation of what the accumulator sends for the first packet of its input: one word for each
      started window, the last flag on the final one only, and sums that add up to those of the input modulo 2^32. */
  lemma EmittedShape(input: seq<Beat>)
    requires HasLast(input)
    ensures var packet := Packet(input);
            && IsPacket(packet) && IsPacket(Emitted(packet))
            && |Emitted(packet)| == (|packet| + WINDOW - 1) / WINDOW
            && Wrap(Total(Data(Emitted(packet)))) == Wrap(Total(Data(packet)))
  {
    hide Sums, Emitted, Data, Packet, Total, Wrap;
    var packet := Packet(input);
    PacketEndsWithLast(input);
    EmittedIsPacket(packet);
    EmittedData(packet);
    SumsConserve(Data(packet));
  }
}
