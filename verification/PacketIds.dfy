/** Words that can be added and turned.  A shift register over the two-element
    field is such an algebra, and repeated turning of a word multiplies it. */
module TurnAlgebra {

  datatype Bits = Nil | Cons(bit: bool, rest: Bits)

  datatype Algebra<!T(!new)> = Algebra(xor: (T, T) -> T, next: T -> T, zero: T) {

    ghost predicate Laws() {
      && xor(zero, zero) == zero
      && next(zero) == zero
      && (forall a, b {:trigger next(xor(a, b))} :: next(xor(a, b)) == xor(next(a), next(b)))
      && (forall a, b, c, d {:trigger xor(xor(a, b), xor(c, d))} ::
            xor(xor(a, b), xor(c, d)) == xor(xor(a, c), xor(b, d)))
    }

    function Iter(n: nat, w: T): T {
      if n == 0 then w else next(Iter(n - 1, w))
    }

    function Pick(b: bool, sum: T, w: T): T {
      if b then xor(sum, w) else sum
    }

    function Gather(y: Bits, sum: T, w: T): T {
      match y
      case Nil => sum
      case Cons(b, rest) => Gather(rest, Pick(b, sum, w), next(w))
    }

    /** The sum of those turns of w that the bits of y select. */
    function Product(y: Bits, w: T): T {
      Gather(y, zero, w)
    }

    lemma {:induction false} GatherXor(y: Bits, s: T, w: T, s': T, w': T)
      requires Laws()
      ensures Gather(y, xor(s, s'), xor(w, w')) == xor(Gather(y, s, w), Gather(y, s', w'))
    {
      if y.Cons? {
        GatherXor(y.rest, Pick(y.bit, s, w), next(w), Pick(y.bit, s', w'), next(w'));
      }
    }

    lemma {:induction false} GatherNext(y: Bits, s: T, w: T)
      requires Laws()
      ensures Gather(y, next(s), next(w)) == next(Gather(y, s, w))
    {
      if y.Cons? {
        GatherNext(y.rest, Pick(y.bit, s, w), next(w));
      }
    }

    lemma {:induction false} ProductZero(y: Bits)
      requires Laws()
      ensures Product(y, zero) == zero
    {
      if y.Cons? {
        ProductZero(y.rest);
      }
    }

    lemma ProductXor(y: Bits, w: T, v: T)
      requires Laws()
      ensures Product(y, xor(w, v)) == xor(Product(y, w), Product(y, v))
    {
      GatherXor(y, zero, w, zero, v);
    }

    lemma {:induction false} ProductIter(n: nat, y: Bits, w: T)
      requires Laws()
      ensures Product(y, Iter(n, w)) == Iter(n, Product(y, w))
    {
      if n > 0 {
        GatherNext(y, zero, Iter(n - 1, w));
        ProductIter(n - 1, y, w);
      }
    }

    lemma {:induction false} GatherSwap(b: Bits, x: Bits, s: T, g: T)
      requires Laws()
      ensures Gather(b, Product(x, s), Product(x, g)) == Product(x, Gather(b, s, g))
    {
      if b.Cons? {
        ProductXor(x, s, g);
        GatherNext(x, zero, g);
        GatherSwap(b.rest, x, Pick(b.bit, s, g), next(g));
      }
    }

    lemma ProductSwap(b: Bits, x: Bits, g: T)
      requires Laws()
      ensures Product(b, Product(x, g)) == Product(x, Product(b, g))
    {
      ProductZero(x);
      GatherSwap(b, x, zero, g);
    }

    lemma {:induction false} IterAdd(m: nat, n: nat, w: T)
      ensures Iter(m + n, w) == Iter(m, Iter(n, w))
    {
      if m > 0 {
        IterAdd(m - 1, n, w);
      }
    }

    // Four turns of the accumulation at a time

    function Next4(w: T): T {
      next(next(next(next(w))))
    }

    function Pick4(b0: bool, b1: bool, b2: bool, b3: bool, s: T, w: T): T {
      Pick(b3, Pick(b2, Pick(b1, Pick(b0, s, w), next(w)), next(next(w))), next(next(next(w))))
    }

    lemma GatherFour(b0: bool, b1: bool, b2: bool, b3: bool, rest: Bits, s: T, w: T)
      ensures Gather(Cons(b0, Cons(b1, Cons(b2, Cons(b3, rest)))), s, w)
           == Gather(rest, Pick4(b0, b1, b2, b3, s, w), Next4(w))
    {
      var s1 := Pick(b0, s, w);
      var s2 := Pick(b1, s1, next(w));
      var s3 := Pick(b2, s2, next(next(w)));
      assert Gather(Cons(b2, Cons(b3, rest)), s2, next(next(w))) == Gather(Cons(b3, rest), s3, next(next(next(w))));
    }
  }
}

/** The packet-id generator: a 16-bit linear feedback shift register whose
    values are rejected while a queued message already carries them. */
module PacketIds {
  import opened TurnAlgebra

  const SEED: bv16 := 163
  const PERIOD: nat := 65535

  /** One turn of the register: shift right, and fold the taps in when a one falls out. */
  function Next(x: bv16): bv16 {
    if x & 1 == 1 then (x >> 1) ^ 0xB400 else x >> 1
  }

  function Xor(a: bv16, b: bv16): bv16 { a ^ b }

  function Register(): Algebra<bv16> { Algebra(Xor, Next, 0) }

  /** The register after n turns. */
  function Iter(n: nat, x: bv16): bv16 { Register().Iter(n, x) }

  /** The register as the generator starts from it: an all-zero register is replaced by the seed. */
  function Primed(lfsr: bv16): bv16 {
    if lfsr == 0 then SEED else lfsr
  }

  // ----- One turn is linear and injective, and keeps the register off zero -----

  lemma XorIs(a: bv16, b: bv16)
    ensures Xor(a, b) == a ^ b
  {}

  lemma XorInterchange(a: bv16, b: bv16, c: bv16, d: bv16, p: bv16, q: bv16, r: bv16, s: bv16)
    requires p == a ^ b && q == c ^ d && r == a ^ c && s == b ^ d
    ensures p ^ q == r ^ s
  {}

  lemma XorInterchanged(a: bv16, b: bv16, c: bv16, d: bv16)
    ensures Xor(Xor(a, b), Xor(c, d)) == Xor(Xor(a, c), Xor(b, d))
  {
    hide *;
    XorIs(a, b);
    XorIs(c, d);
    XorIs(a, c);
    XorIs(b, d);
    XorIs(Xor(a, b), Xor(c, d));
    XorIs(Xor(a, c), Xor(b, d));
    XorInterchange(a, b, c, d, Xor(a, b), Xor(c, d), Xor(a, c), Xor(b, d));
  }

  lemma XorCancels(a: bv16, b: bv16, c: bv16)
    ensures (a ^ c) ^ (b ^ c) == a ^ b
    ensures (a ^ c) ^ b == (a ^ b) ^ c
    ensures a ^ (b ^ c) == (a ^ b) ^ c
  {}

  lemma ShiftXor(x: bv16, y: bv16)
    ensures (x ^ y) >> 1 == (x >> 1) ^ (y >> 1)
    ensures (x ^ y) & 1 == (x & 1) ^ (y & 1)
    ensures x & 1 == 0 || x & 1 == 1
  {}

  lemma NextXor(x: bv16, y: bv16)
    ensures Next(x ^ y) == Next(x) ^ Next(y)
  {
    ShiftXor(x, y);
    ShiftXor(y, x);
    XorCancels(x >> 1, y >> 1, 0xB400);
  }

  lemma NextOfXor(x: bv16, y: bv16)
    ensures Next(Xor(x, y)) == Xor(Next(x), Next(y))
  {
    hide *;
    XorIs(x, y);
    XorIs(Next(x), Next(y));
    NextXor(x, y);
  }

  lemma RegisterLaws()
    ensures Register().Laws()
  {
    var g := Register();
    forall a, b ensures g.next(g.xor(a, b)) == g.xor(g.next(a), g.next(b)) { NextOfXor(a, b); }
    forall a, b, c, d ensures g.xor(g.xor(a, b), g.xor(c, d)) == g.xor(g.xor(a, c), g.xor(b, d)) {
      XorInterchanged(a, b, c, d);
    }
  }

  lemma NextInjective(x: bv16, y: bv16)
    requires Next(x) == Next(y)
    ensures x == y
  {}

  lemma NextNonZero(x: bv16)
    ensures Next(x) == 0 <==> x == 0
  {}

  lemma {:induction false} IterNonZero(n: nat, x: bv16)
    ensures Iter(n, x) == 0 <==> x == 0
  {
    if n > 0 {
      IterNonZero(n - 1, x);
      NextNonZero(Iter(n - 1, x));
    }
  }

  lemma IterAdd(m: nat, n: nat, x: bv16)
    ensures Iter(m + n, x) == Iter(m, Iter(n, x))
  {
    Register().IterAdd(m, n, x);
  }

  lemma {:induction false} IterInjective(n: nat, x: bv16, y: bv16)
    requires Iter(n, x) == Iter(n, y)
    ensures x == y
  {
    if n > 0 {
      NextInjective(Iter(n - 1, x), Iter(n - 1, y));
      IterInjective(n - 1, x, y);
    }
  }

  // ----- Multiplication of registers -----

  /** The unit of the multiplication: its turns are the single bits from the highest down. */
  const UNIT: bv16 := 0x8000

  /** The bits of y from the single bit m down. */
  function BitsFrom(y: bv16, m: bv16): Bits
    decreases m
  {
    if m == 0 then Nil else Cons(y & m != 0, BitsFrom(y, m >> 1))
  }

  function BitsOf(y: bv16): Bits { BitsFrom(y, UNIT) }

  // The unit is neutral

  lemma OneBit(y: bv16, m: bv16)
    requires m & (m - 1) == 0
    ensures y & m == 0 || y & m == m
  {}

  lemma UnitPick(y: bv16, kept: bv16, m: bv16, kept': bv16)
    requires m & (m - 1) == 0 && kept & m == 0 && kept' == kept | m
    ensures Register().Pick(y & m != 0, y & kept, m) == y & kept'
  {
    var b, t, u := y & m != 0, y & kept, y & kept';
    assert u == (if b then Xor(t, m) else t) by { BitAdded(y, kept, m); }
    assert Register().Pick(b, t, m) == (if b then Xor(t, m) else t) by { PickIs(b, t, m); }
  }

  lemma PickIs(b: bool, s: bv16, m: bv16)
    ensures Register().Pick(b, s, m) == if b then Xor(s, m) else s
  {}

  lemma BitAdded(y: bv16, kept: bv16, m: bv16)
    requires m & (m - 1) == 0 && kept & m == 0
    ensures y & (kept | m) == if y & m != 0 then Xor(y & kept, m) else y & kept
  {
    OneBit(y, m);
    AddBit(y, kept, m);
    XorIs(y & kept, m);
  }

  lemma AddBit(y: bv16, kept: bv16, m: bv16)
    requires kept & m == 0
    ensures y & m == m ==> (y & kept) ^ m == y & (kept | m)
    ensures y & m == 0 ==> y & (kept | m) == y & kept
  {}

  /** The bits above the single bit m. */
  function Above(m: bv16): bv16 { 0xFFFF ^ (m | (m - 1)) }

  lemma AboveHalf(m: bv16)
    requires m & (m - 1) == 0 && m > 1
    ensures Next(m) == m >> 1 && (m >> 1) & ((m >> 1) - 1) == 0 && m >> 1 != 0
    ensures Above(m) & m == 0 && Above(m >> 1) == Above(m) | m
  {}

  lemma GatherTurn(y: bv16, s: bv16, m: bv16, s': bv16)
    requires m != 0 && s' == Register().Pick(y & m != 0, s, m)
    ensures Register().Gather(BitsFrom(y, m), s, m) == Register().Gather(BitsFrom(y, m >> 1), s', Next(m))
  {}

  lemma {:induction false} GatherUnit(y: bv16, m: bv16, kept: bv16)
    requires m != 0 && m & (m - 1) == 0 && kept == Above(m)
    ensures Register().Gather(BitsFrom(y, m), y & kept, m) == y
    decreases m
  {
    var kept' := kept | m;
    assert kept & m == 0;
    UnitPick(y, kept, m, kept');
    GatherTurn(y, y & kept, m, y & kept');
    if m == 1 {
      assert kept' == 0xFFFF && y & kept' == y;
    } else {
      AboveHalf(m);
      GatherUnit(y, m >> 1, kept');
    }
  }

  lemma ProductUnit(y: bv16)
    ensures Register().Product(BitsOf(y), UNIT) == y
  {
    assert Above(UNIT) == 0 && y & 0 == 0;
    GatherUnit(y, UNIT, 0);
  }

  // The product of two registers, four bits at a time

  function Four(b0: bool, b1: bool, b2: bool, b3: bool, s: bv16, w: bv16): bv16 {
    Register().Pick4(b0, b1, b2, b3, s, w)
  }

  function Next4(w: bv16): bv16 { Next(Next(Next(Next(w)))) }

  function Sum0(y: bv16, s: bv16, w: bv16): bv16 {
    Sum1(y, Four(y & 0x8000 != 0, y & 0x4000 != 0, y & 0x2000 != 0, y & 0x1000 != 0, s, w), Next4(w))
  }

  function Sum1(y: bv16, s: bv16, w: bv16): bv16 {
    Sum2(y, Four(y & 0x0800 != 0, y & 0x0400 != 0, y & 0x0200 != 0, y & 0x0100 != 0, s, w), Next4(w))
  }

  function Sum2(y: bv16, s: bv16, w: bv16): bv16 {
    Sum3(y, Four(y & 0x0080 != 0, y & 0x0040 != 0, y & 0x0020 != 0, y & 0x0010 != 0, s, w), Next4(w))
  }

  function Sum3(y: bv16, s: bv16, w: bv16): bv16 {
    Four(y & 0x0008 != 0, y & 0x0004 != 0, y & 0x0002 != 0, y & 0x0001 != 0, s, w)
  }

  function Mul(y: bv16, w: bv16): bv16 { Sum0(y, 0, w) }

  lemma Sum3IsGather(y: bv16, s: bv16, w: bv16)
    ensures Sum3(y, s, w) == Register().Gather(BitsFrom(y, 0x0008), s, w)
  {
    Register().GatherFour(y & 0x0008 != 0, y & 0x0004 != 0, y & 0x0002 != 0, y & 0x0001 != 0, Nil, s, w);
    assert BitsFrom(y, 0x0008) == Cons(y & 0x0008 != 0, Cons(y & 0x0004 != 0, BitsFrom(y, 0x0002)));
    assert BitsFrom(y, 0x0001) == Cons(y & 0x0001 != 0, BitsFrom(y, 0));
  }

  lemma Sum2IsGather(y: bv16, s: bv16, w: bv16)
    ensures Sum2(y, s, w) == Register().Gather(BitsFrom(y, 0x0080), s, w)
  {
    Register().GatherFour(y & 0x0080 != 0, y & 0x0040 != 0, y & 0x0020 != 0, y & 0x0010 != 0,
                          BitsFrom(y, 0x0008), s, w);
    assert BitsFrom(y, 0x0080) == Cons(y & 0x0080 != 0, Cons(y & 0x0040 != 0, BitsFrom(y, 0x0020)));
    Sum3IsGather(y, Four(y & 0x0080 != 0, y & 0x0040 != 0, y & 0x0020 != 0, y & 0x0010 != 0, s, w), Next4(w));
  }

  lemma Sum1IsGather(y: bv16, s: bv16, w: bv16)
    ensures Sum1(y, s, w) == Register().Gather(BitsFrom(y, 0x0800), s, w)
  {
    Register().GatherFour(y & 0x0800 != 0, y & 0x0400 != 0, y & 0x0200 != 0, y & 0x0100 != 0,
                          BitsFrom(y, 0x0080), s, w);
    assert BitsFrom(y, 0x0800) == Cons(y & 0x0800 != 0, Cons(y & 0x0400 != 0, BitsFrom(y, 0x0200)));
    Sum2IsGather(y, Four(y & 0x0800 != 0, y & 0x0400 != 0, y & 0x0200 != 0, y & 0x0100 != 0, s, w), Next4(w));
  }

  lemma Sum0IsGather(y: bv16, s: bv16, w: bv16)
    ensures Sum0(y, s, w) == Register().Gather(BitsFrom(y, 0x8000), s, w)
  {
    Register().GatherFour(y & 0x8000 != 0, y & 0x4000 != 0, y & 0x2000 != 0, y & 0x1000 != 0,
                          BitsFrom(y, 0x0800), s, w);
    assert BitsFrom(y, 0x8000) == Cons(y & 0x8000 != 0, Cons(y & 0x4000 != 0, BitsFrom(y, 0x2000)));
    Sum1IsGather(y, Four(y & 0x8000 != 0, y & 0x4000 != 0, y & 0x2000 != 0, y & 0x1000 != 0, s, w), Next4(w));
  }

  lemma MulIsProduct(y: bv16, w: bv16)
    ensures Mul(y, w) == Register().Product(BitsOf(y), w)
  {
    Sum0IsGather(y, 0, w);
  }

  // ----- Turning the register is a multiplication -----

  lemma IterIsProduct(n: nat, x: bv16)
    ensures Iter(n, x) == Register().Product(BitsOf(x), Iter(n, UNIT))
  {
    RegisterLaws();
    Register().ProductIter(n, BitsOf(x), UNIT);
    ProductUnit(x);
  }

  /** Twice as many turns square the unit's image. */
  lemma Even(n: nat, c: bv16, d: bv16)
    requires Iter(n, UNIT) == c && Mul(c, c) == d
    ensures Iter(2 * n, UNIT) == d
  {
    hide Mul, Next;
    Doubled(n, c);
  }

  lemma Odd(n: nat, c: bv16, d: bv16)
    requires Iter(n, UNIT) == c && Next(Mul(c, c)) == d
    ensures Iter(2 * n + 1, UNIT) == d
  {
    hide Mul, Next;
    Doubled(n, c);
    IterAdd(2 * n, 1, UNIT);
    OneMore(2 * n, UNIT);
  }

  lemma OneMore(n: nat, x: bv16)
    ensures Iter(n + 1, x) == Next(Iter(n, x))
  {
    hide Next;
  }

  lemma Turns1()
    ensures Iter(1, UNIT) == 0x4000
  {
    OneMore(0, UNIT);
  }

  // Squares of single registers, worked out four bits at a time

  lemma Square0001()
    ensures Mul(0x0001, 0x0001) == 0xF882
  {
    assert Next4(0x0001) == 0x1680 && Next4(0x1680) == 0x0168 && Next4(0x0168) == 0xB416;
    assert Sum3(0x0001, 0x0000, 0xB416) == 0xF882;
    assert Sum2(0x0001, 0x0000, 0x0168) == 0xF882;
    assert Sum1(0x0001, 0x0000, 0x1680) == 0xF882;
  }

  lemma Square0008()
    ensures Mul(0x0008, 0x0008) == 0x00B4
  {
    assert Next4(0x0008) == 0xB400 && Next4(0xB400) == 0x0B40 && Next4(0x0B40) == 0x00B4;
    assert Sum3(0x0008, 0x0000, 0x00B4) == 0x00B4;
    assert Sum2(0x0008, 0x0000, 0x0B40) == 0x00B4;
    assert Sum1(0x0008, 0x0000, 0xB400) == 0x00B4;
  }

  lemma Square0020()
    ensures Mul(0x0020, 0x0020) == 0x0B40
  {
    assert Next4(0x0020) == 0x0002 && Next4(0x0002) == 0x2D00 && Next4(0x2D00) == 0x02D0;
    assert Sum3(0x0020, 0x0B40, 0x02D0) == 0x0B40;
    assert Sum2(0x0020, 0x0000, 0x2D00) == 0x0B40;
    assert Sum1(0x0020, 0x0000, 0x0002) == 0x0B40;
  }

  lemma Square005A()
    ensures Mul(0x005A, 0x005A) == 0x756F
  {
    assert Next4(0x005A) == 0x9905 && Next4(0x9905) == 0x4510 && Next4(0x4510) == 0x0451;
    assert Sum3(0x005A, 0x2A2A, 0x0451) == 0x756F;
    assert Sum2(0x005A, 0x0000, 0x4510) == 0x756F;
    assert Sum1(0x005A, 0x0000, 0x9905) == 0x756F;
  }

  lemma Square0100()
    ensures Mul(0x0100, 0x0100) == 0x0002
  {
    assert Next4(0x0100) == 0x0010 && Next4(0x0010) == 0x0001 && Next4(0x0001) == 0x1680;
    assert Sum3(0x0100, 0x0002, 0x1680) == 0x0002;
    assert Sum2(0x0100, 0x0002, 0x0001) == 0x0002;
    assert Sum1(0x0100, 0x0000, 0x0010) == 0x0002;
  }

  lemma Square0200()
    ensures Mul(0x0200, 0x0200) == 0x0008
  {
    assert Next4(0x0200) == 0x0020 && Next4(0x0020) == 0x0002 && Next4(0x0002) == 0x2D00;
    assert Sum3(0x0200, 0x0008, 0x2D00) == 0x0008;
    assert Sum2(0x0200, 0x0008, 0x0002) == 0x0008;
    assert Sum1(0x0200, 0x0000, 0x0020) == 0x0008;
  }

  lemma Square0400()
    ensures Mul(0x0400, 0x0400) == 0x0020
  {
    assert Next4(0x0400) == 0x0040 && Next4(0x0040) == 0x0004 && Next4(0x0004) == 0x5A00;
    assert Sum3(0x0400, 0x0020, 0x5A00) == 0x0020;
    assert Sum2(0x0400, 0x0020, 0x0004) == 0x0020;
    assert Sum1(0x0400, 0x0000, 0x0040) == 0x0020;
  }

  lemma Square05A0()
    ensures Mul(0x05A0, 0x05A0) == 0xBF62
  {
    assert Next4(0x05A0) == 0x005A && Next4(0x005A) == 0x9905 && Next4(0x9905) == 0x4510;
    assert Sum3(0x05A0, 0xBF62, 0x4510) == 0xBF62;
    assert Sum2(0x05A0, 0x5A26, 0x9905) == 0xBF62;
    assert Sum1(0x05A0, 0x0000, 0x005A) == 0xBF62;
  }

  lemma Square1000()
    ensures Mul(0x1000, 0x1000) == 0x0200
  {
    assert Next4(0x1000) == 0x0100 && Next4(0x0100) == 0x0010 && Next4(0x0010) == 0x0001;
    assert Sum3(0x1000, 0x0200, 0x0001) == 0x0200;
    assert Sum2(0x1000, 0x0200, 0x0010) == 0x0200;
    assert Sum1(0x1000, 0x0200, 0x0100) == 0x0200;
  }

  lemma Square2000()
    ensures Mul(0x2000, 0x2000) == 0x0800
  {
    assert Next4(0x2000) == 0x0200 && Next4(0x0200) == 0x0020 && Next4(0x0020) == 0x0002;
    assert Sum3(0x2000, 0x0800, 0x0002) == 0x0800;
    assert Sum2(0x2000, 0x0800, 0x0020) == 0x0800;
    assert Sum1(0x2000, 0x0800, 0x0200) == 0x0800;
  }

  lemma Square327C()
    ensures Mul(0x327C, 0x327C) == 0x2E01
  {
    assert Next4(0x327C) == 0xED27 && Next4(0xED27) == 0x6F52 && Next4(0x6F52) == 0x2BF5;
    assert Sum3(0x327C, 0xA40E, 0x2BF5) == 0x2E01;
    assert Sum2(0x327C, 0x6B99, 0x6F52) == 0x2E01;
    assert Sum1(0x327C, 0xBED0, 0xED27) == 0x2E01;
  }

  lemma Square4000()
    ensures Mul(0x4000, 0x4000) == 0x2000
  {
    assert Next4(0x4000) == 0x0400 && Next4(0x0400) == 0x0040 && Next4(0x0040) == 0x0004;
    assert Sum3(0x4000, 0x2000, 0x0004) == 0x2000;
    assert Sum2(0x4000, 0x2000, 0x0040) == 0x2000;
    assert Sum1(0x4000, 0x2000, 0x0400) == 0x2000;
  }

  lemma Square7C41()
    ensures Mul(0x7C41, 0x7C41) == 0xFF22
  {
    assert Next4(0x7C41) == 0x1144 && Next4(0x1144) == 0x5B14 && Next4(0x5B14) == 0x5FB1;
    assert Sum3(0x7C41, 0xD9D4, 0x5FB1) == 0xFF22;
    assert Sum2(0x7C41, 0xF45E, 0x5B14) == 0xFF22;
    assert Sum1(0x7C41, 0xEDB8, 0x1144) == 0xFF22;
  }

  lemma Square7F91()
    ensures Mul(0x7F91, 0x7F91) == 0x64F8
  {
    assert Next4(0x7F91) == 0x1179 && Next4(0x1179) == 0xA397 && Next4(0xA397) == 0x6BB9;
    assert Sum3(0x7F91, 0x448F, 0x6BB9) == 0x64F8;
    assert Sum2(0x7F91, 0x306A, 0xA397) == 0x64F8;
    assert Sum1(0x7F91, 0xECDE, 0x1179) == 0x64F8;
  }

  lemma SquareBF62()
    ensures Mul(0xBF62, 0xBF62) == 0xF6E1
  {
    assert Next4(0xBF62) == 0x26F6 && Next4(0x26F6) == 0x756F && Next4(0x756F) == 0xD2D6;
    assert Sum3(0xBF62, 0x7654, 0xD2D6) == 0xF6E1;
    assert Sum2(0xBF62, 0x0BB8, 0x756F) == 0xF6E1;
    assert Sum1(0xBF62, 0x6956, 0x26F6) == 0xF6E1;
  }

  lemma Turns15()
    ensures Iter(15, UNIT) == 0x0001
  {
    hide Iter, Mul;
    Turns1();
    Square4000();
    Odd(1, 0x4000, 0x1000);
    Square1000();
    Odd(3, 0x1000, 0x0100);
    Square0100();
    Odd(7, 0x0100, 0x0001);
  }

  lemma Turns51()
    ensures Iter(51, UNIT) == 0x8EB7
  {
    hide Iter, Mul;
    Turns1();
    Square4000();
    Odd(1, 0x4000, 0x1000);
    Square1000();
    Even(3, 0x1000, 0x0200);
    Square0200();
    Even(6, 0x0200, 0x0008);
    Square0008();
    Odd(12, 0x0008, 0x005A);
    Square005A();
    Odd(25, 0x005A, 0x8EB7);
  }

  lemma Turns85()
    ensures Iter(85, UNIT) == 0xCF70
  {
    hide Iter, Mul;
    Turns1();
    Square4000();
    Even(1, 0x4000, 0x2000);
    Square2000();
    Odd(2, 0x2000, 0x0400);
    Square0400();
    Even(5, 0x0400, 0x0020);
    Square0020();
    Odd(10, 0x0020, 0x05A0);
    Square05A0();
    Even(21, 0x05A0, 0xBF62);
    SquareBF62();
    Odd(42, 0xBF62, 0xCF70);
  }

  lemma Turns255()
    ensures Iter(255, UNIT) == 0xA300
  {
    hide Iter, Mul;
    Turns15();
    Square0001();
    Odd(15, 0x0001, 0x7C41);
    Square7C41();
    Odd(31, 0x7C41, 0x7F91);
    Square7F91();
    Odd(63, 0x7F91, 0x327C);
    Square327C();
    Odd(127, 0x327C, 0xA300);
  }

  lemma Doubled(n: nat, c: bv16)
    requires Iter(n, UNIT) == c
    ensures Iter(2 * n, UNIT) == Mul(c, c)
  {
    IterAdd(n, n, UNIT);
    IterIsProduct(n, c);
    MulIsProduct(c, c);
  }

  /** Eight squarings and one more product raise to the 257th power. */
  lemma Raised(n: nat, c: bv16, c1: bv16, c2: bv16, c3: bv16, c4: bv16, c5: bv16, c6: bv16, c7: bv16, c8: bv16)
    requires Iter(n, UNIT) == c
    requires Mul(c, c) == c1 && Mul(c1, c1) == c2 && Mul(c2, c2) == c3 && Mul(c3, c3) == c4
    requires Mul(c4, c4) == c5 && Mul(c5, c5) == c6 && Mul(c6, c6) == c7 && Mul(c7, c7) == c8
    ensures Iter(257 * n, UNIT) == Mul(c8, c)
  {
    hide *;
    Doubled(n, c);
    Doubled(2 * n, c1);
    Doubled(4 * n, c2);
    Doubled(8 * n, c3);
    Doubled(16 * n, c4);
    Doubled(32 * n, c5);
    Doubled(64 * n, c6);
    Doubled(128 * n, c7);
    IterAdd(n, 256 * n, UNIT);
    IterIsProduct(n, c8);
    MulIsProduct(c8, c);
  }

  lemma Turns3855()
    ensures Iter(3855, UNIT) == 0x2D35
  {
    Turns15();
    Raised(15, 0x0001, 0xF882, 0x448B, 0x361D, 0xF0E3, 0x9AC9, 0xE3BE, 0x4F08, 0x201E);
  }

  lemma Turns13107()
    ensures Iter(13107, UNIT) == 0x5F61
  {
    Turns51();
    Raised(51, 0x8EB7, 0x9F9C, 0x34E3, 0x3AE9, 0x60FE, 0xE202, 0xF203, 0x0881, 0x4C02);
  }

  lemma Turns21845()
    ensures Iter(21845, UNIT) == 0x5335
  {
    Turns85();
    Raised(85, 0xCF70, 0x843A, 0xD30F, 0x001A, 0x586F, 0xA6D0, 0x13F8, 0x922E, 0xD3DA);
  }

  /** If d turns fixed a non-zero register they would fix every one; an inverse
      of "d turns plus identity" rules that out. */
  lemma FixedIsZero(d: nat, c: bv16, inverse: bv16, x: bv16)
    requires Iter(d, UNIT) == c && Mul(inverse, c ^ UNIT) == UNIT
    requires Iter(d, x) == x
    ensures x == 0
  {
    hide Mul, Xor;
    var r := Register();
    var g := Xor(c, UNIT);
    XorIs(c, UNIT);
    RegisterLaws();
    IterIsProduct(d, x);
    ProductUnit(x);
    r.ProductXor(BitsOf(x), c, UNIT);
    assert r.Product(BitsOf(x), g) == Xor(x, x);
    XorIs(x, x);
    MulIsProduct(inverse, g);
    r.ProductSwap(BitsOf(inverse), BitsOf(x), g);
    r.ProductZero(BitsOf(inverse));
  }

  /** 65535 turns are the identity: 21845 turns are a cube root of it. */
  lemma FullTurn(x: bv16)
    ensures Iter(PERIOD, x) == x
  {
    Turns21845();
    assert Mul(0x5335, 0x5335) == 0xD335 && Mul(0xD335, 0x5335) == UNIT;
    Doubled(21845, 0x5335);
    IterAdd(21845, 43690, UNIT);
    IterIsProduct(21845, 0xD335);
    MulIsProduct(0xD335, 0x5335);
    IterIsProduct(PERIOD, x);
    ProductUnit(x);
  }

  /** No maximal proper divisor of the period fixes a non-zero register. */
  lemma MaximalDivisors(x: bv16)
    requires x != 0
    ensures Iter(21845, x) != x && Iter(13107, x) != x && Iter(3855, x) != x && Iter(255, x) != x
  {
    Turns21845();
    Turns13107();
    Turns3855();
    Turns255();
    if Iter(21845, x) == x { FixedIsZero(21845, 0x5335, 0x5335, x); }
    if Iter(13107, x) == x { FixedIsZero(13107, 0x5F61, 0xF03C, x); }
    if Iter(3855, x) == x { FixedIsZero(3855, 0x2D35, 0xEEFE, x); }
    if Iter(255, x) == x { FixedIsZero(255, 0xA300, 0x0E55, x); }
  }

  // ----- Every period of a non-zero register is a multiple of 65535 -----

  lemma {:induction false} FixedMultiple(q: nat, b: nat, x: bv16)
    requires Iter(b, x) == x
    ensures Iter(q * b, x) == x
  {
    if q > 0 {
      FixedMultiple(q - 1, b, x);
      assert q * b == b + (q - 1) * b;
      IterAdd(b, (q - 1) * b, x);
    }
  }

  function Gcd(a: nat, b: nat): nat
    decreases b
  {
    if b == 0 then a else Gcd(b, a % b)
  }

  lemma {:induction false} FixedGcd(a: nat, b: nat, x: bv16)
    requires Iter(a, x) == x && Iter(b, x) == x
    ensures Iter(Gcd(a, b), x) == x
    decreases b
  {
    if b > 0 {
      FixedMultiple(a / b, b, x);
      IterAdd(a % b, (a / b) * b, x);
      assert a % b + (a / b) * b == a;
      FixedGcd(b, a % b, x);
    }
  }

  lemma MultipleSum(m: nat, n: nat, q: nat, g: nat)
    requires g > 0 && m % g == 0 && n % g == 0
    ensures (q * m + n) % g == 0
  {
    var k := q * (m / g) + n / g;
    assert m == g * (m / g) && n == g * (n / g);
    assert q * m + n == g * k;
    MultipleMod(k, g);
  }

  lemma MultipleMod(k: nat, g: nat)
    requires g > 0
    ensures (g * k) % g == 0
  {
    var r := (g * k) % g;
    assert g * k == g * ((g * k) / g) + r;
    var d := k - (g * k) / g;
    assert g * d == r;
    assert d > 0 ==> g * d >= g;
  }

  lemma {:induction false} GcdDivides(a: nat, b: nat)
    requires a > 0 || b > 0
    ensures Gcd(a, b) > 0 && a % Gcd(a, b) == 0 && b % Gcd(a, b) == 0
    decreases b
  {
    if b > 0 {
      GcdDivides(b, a % b);
      MultipleSum(b, a % b, a / b, Gcd(a, b));
      assert (a / b) * b + a % b == a;
    } else {
      MultipleMod(1, a);
    }
  }

  ghost predicate Prime(p: nat) {
    p > 1 && forall r :: 1 < r < p ==> p % r != 0
  }

  lemma Prime257()
    ensures Prime(257)
  {
    forall r | 1 < r < 257 ensures 257 % r != 0 {
      if 257 % r == 0 {
        var k := 257 / r;
        assert r * k == 257;
        if r <= 16 {
          NotFactorOf257(r, k);
        } else if k <= 16 {
          NotFactorOf257(k, r);
        } else {
          LargeFactors(r, k);
          assert false;
        }
      }
    }
  }

  lemma LargeFactors(r: nat, k: nat)
    requires r > 16 && k > 16
    ensures r * k >= 17 * 17
  {}

  lemma NegativeProduct(p: nat, m: int)
    requires p > 0 && m < 0
    ensures p * m < 0
  {}

  lemma SmallMod(d: nat, g: nat)
    requires d < g
    ensures d % g == d
  {}

  lemma NotFactorOf257(r: nat, k: nat)
    requires r <= 16 && 1 < k < 257
    ensures r * k != 257
  {
    if r == 0 {} else if r == 1 {} else if r == 2 {} else if r == 3 {} else if r == 4 {} else if r == 5 {}
    else if r == 6 {} else if r == 7 {} else if r == 8 {} else if r == 9 {} else if r == 10 {} else if r == 11 {}
    else if r == 12 {} else if r == 13 {} else if r == 14 {} else if r == 15 {} else {}
  }

  /** If p divides u and u == p * k, then p divides v whenever u + v is a non-negative multiple. */
  lemma DividesDifference(p: nat, u: nat, w: nat, q: int)
    requires p > 0 && u % p == 0
    requires w == q * p - u || w + q * p == u
    ensures w % p == 0
  {
    var k := u / p;
    assert u == p * k;
    var m := if w == q * p - u then q - k else k - q;
    assert w == p * m;
    if m < 0 { NegativeProduct(p, m); assert false; }
    MultipleMod(m, p);
  }

  /** A prime that divides r * t, with 0 < r < p, divides t. */
  lemma {:induction false} Descent(p: nat, r: nat, t: nat)
    requires Prime(p) && 0 < r < p
    requires (r * t) % p == 0
    ensures t % p == 0
    decreases r
  {
    if r > 1 {
      var q := p / r;
      RestTimes(p, q, r, p % r, t);
      MultipleSum(r * t, 0, q, p);
      DividesDifference(p, q * (r * t), (p % r) * t, t);
      Descent(p, p % r, t);
    }
  }

  lemma RestTimes(p: nat, q: nat, r: nat, rest: nat, t: nat)
    requires q * r + rest == p
    ensures rest * t == t * p - q * (r * t)
  {
    assert (q * r + rest) * t == q * (r * t) + rest * t;
  }

  lemma PrimeDividesFactor(p: nat, q: nat, t: nat)
    requires Prime(p) && (q * t) % p == 0
    ensures q % p == 0 || t % p == 0
  {
    if q % p != 0 {
      assert q == p * (q / p) + q % p;
      assert (q % p) * t + (q / p * t) * p == q * t by {
        assert (p * (q / p) + q % p) * t == (q / p * t) * p + (q % p) * t;
      }
      DividesDifference(p, q * t, (q % p) * t, q / p * t);
      Descent(p, q % p, t);
    }
  }

  /** A divisor of 65535 = 3 * 5 * 17 * 257 is a multiple of p, or divides 65535 / p. */
  lemma DivisorOrMultiple(p: nat, g: nat, cofactor: nat)
    requires Prime(p) && g > 0 && PERIOD % g == 0 && p * cofactor == PERIOD
    ensures g % p == 0 || cofactor % g == 0
  {
    var q := PERIOD / g;
    assert q * g == PERIOD;
    MultipleMod(cofactor, p);
    PrimeDividesFactor(p, q, g);
    if q % p == 0 {
      var k := q / p;
      assert q == p * k;
      assert p * (k * g) == p * cofactor;
      assert cofactor == g * k;
      MultipleMod(k, g);
    }
  }

  lemma CoprimeMultiple(p: nat, c: nat, g: nat)
    requires Prime(p) && 0 < c && c % p != 0
    requires g % p == 0 && g % c == 0
    ensures g % (p * c) == 0
  {
    var a := g / c;
    assert g == c * a;
    PrimeDividesFactor(p, c, a);
    assert a == p * (a / p);
    assert g == (p * c) * (a / p);
    MultipleMod(a / p, p * c);
  }

  lemma ProperDivisor(g: nat)
    requires 0 < g < PERIOD && PERIOD % g == 0
    ensures 21845 % g == 0 || 13107 % g == 0 || 3855 % g == 0 || 255 % g == 0
  {
    Prime257();
    DivisorOrMultiple(3, g, 21845);
    DivisorOrMultiple(5, g, 13107);
    DivisorOrMultiple(17, g, 3855);
    DivisorOrMultiple(257, g, 255);
    if g % 3 == 0 && g % 5 == 0 && g % 17 == 0 && g % 257 == 0 {
      CoprimeMultiple(5, 3, g);
      CoprimeMultiple(17, 15, g);
      CoprimeMultiple(257, 255, g);
      assert false;
    }
  }

  lemma DivisorFixes(g: nat, m: nat, x: bv16)
    requires g > 0 && m % g == 0 && Iter(g, x) == x
    ensures Iter(m, x) == x
  {
    FixedMultiple(m / g, g, x);
    assert (m / g) * g == m;
  }

  /** The register has no period shorter than 65535. */
  lemma NoShorterPeriod(d: nat, x: bv16)
    requires x != 0 && 0 < d < PERIOD
    ensures Iter(d, x) != x
  {
    if Iter(d, x) == x {
      FullTurn(x);
      FixedGcd(PERIOD, d, x);
      GcdDivides(PERIOD, d);
      var g := Gcd(PERIOD, d);
      if g > d { SmallMod(d, g); assert false; }
      ProperDivisor(g);
      MaximalDivisors(x);
      if 21845 % g == 0 { DivisorFixes(g, 21845, x); }
      if 13107 % g == 0 { DivisorFixes(g, 13107, x); }
      if 3855 % g == 0 { DivisorFixes(g, 3855, x); }
      if 255 % g == 0 { DivisorFixes(g, 255, x); }
    }
  }

  lemma DistinctTurns(i: nat, j: nat, x: bv16)
    requires x != 0 && i < j < i + PERIOD
    ensures Iter(i, x) != Iter(j, x)
  {
    if Iter(i, x) == Iter(j, x) {
      IterAdd(i, j - i, x);
      IterInjective(i, x, Iter(j - i, x));
      NoShorterPeriod(j - i, x);
    }
  }

  // ----- The single cycle, and the first unused identifier on it -----

  lemma AsIntInjective(x: bv16, y: bv16)
    requires x as int == y as int
    ensures x == y
  {
    assert (x as int) as bv16 == x;
    assert (y as int) as bv16 == y;
  }

  lemma NonZeroAsInt(x: bv16)
    requires x != 0
    ensures 1 <= x as int <= PERIOD
  {
    if x as int == 0 {
      AsIntInjective(x, 0);
      assert false;
    }
  }

  /** The values shown by turns 1 to k. */
  ghost function Visited(k: nat, x: bv16): set<int> {
    if k == 0 then {} else Visited(k - 1, x) + {Iter(k, x) as int}
  }

  lemma {:induction false} VisitedAt(k: nat, x: bv16, v: int)
    ensures v in Visited(k, x) <==> exists j :: 1 <= j <= k && Iter(j, x) as int == v
  {
    hide Iter;
    if k > 0 {
      VisitedAt(k - 1, x, v);
      assert v == Iter(k, x) as int ==> 1 <= k <= k && Iter(k, x) as int == v;
    }
  }

  lemma {:induction false} VisitedSize(k: nat, x: bv16)
    requires x != 0 && k <= PERIOD
    ensures |Visited(k, x)| == k
  {
    if k > 0 {
      VisitedSize(k - 1, x);
      var v := Iter(k, x) as int;
      if v in Visited(k - 1, x) {
        VisitedAt(k - 1, x, v);
        var j :| 1 <= j <= k - 1 && Iter(j, x) as int == v;
        AsIntInjective(Iter(j, x), Iter(k, x));
        DistinctTurns(j, k, x);
        assert false;
      }
    }
  }

  lemma VisitedLegal(k: nat, x: bv16, v: int)
    requires x != 0 && v in Visited(k, x)
    ensures 1 <= v <= PERIOD
  {
    VisitedAt(k, x, v);
    var j :| 1 <= j <= k && Iter(j, x) as int == v;
    IterNonZero(j, x);
    NonZeroAsInt(Iter(j, x));
  }

  /** The numbers 1 to n. */
  ghost function NonZero(n: nat): set<int> {
    if n == 0 then {} else NonZero(n - 1) + {n}
  }

  lemma {:induction false} NonZeroSize(n: nat)
    ensures |NonZero(n)| == n && forall v :: v in NonZero(n) <==> 1 <= v <= n
  {
    if n > 0 {
      NonZeroSize(n - 1);
    }
  }

  lemma EqualSize(a: set<int>, b: set<int>)
    requires a <= b && |a| == |b|
    ensures a == b
  {
    assert |b - a| == 0;
  }

  lemma Covers(a: set<int>, n: nat)
    requires |a| == n && forall v :: v in a ==> 1 <= v <= n
    ensures forall v :: 1 <= v <= n ==> v in a
  {
    NonZeroSize(n);
    forall v | v in a ensures v in NonZero(n) {}
    EqualSize(a, NonZero(n));
  }

  /** All the non-zero registers lie on one cycle. */
  lemma SingleCycle(x: bv16, v: int)
    requires x != 0 && 1 <= v <= PERIOD
    ensures exists k :: 1 <= k <= PERIOD && Iter(k, x) as int == v
  {
    VisitedSize(PERIOD, x);
    forall u | u in Visited(PERIOD, x) ensures 1 <= u <= PERIOD { VisitedLegal(PERIOD, x, u); }
    Covers(Visited(PERIOD, x), PERIOD);
    VisitedAt(PERIOD, x, v);
  }

  lemma SomeNumberMissing(ids: set<int>, n: nat)
    requires |ids| < n
    ensures exists v :: 1 <= v <= n && v !in ids
  {
    NonZeroSize(n);
    if forall v :: 1 <= v <= n ==> v in ids {
      SubsetSize(NonZero(n), ids);
      assert false;
    }
  }

  ghost predicate SomeFree(ids: set<int>) {
    exists v :: 1 <= v <= PERIOD && v !in ids
  }

  lemma FewLeaveOneFree(ids: set<int>)
    requires |ids| < PERIOD
    ensures SomeFree(ids)
  {
    SomeNumberMissing(ids, PERIOD);
  }

  lemma SubsetSize(a: set<int>, b: set<int>)
    requires a <= b
    ensures |a| <= |b|
  {
    assert b == a + (b - a);
  }

  /** The rejection loop ends exactly when some non-zero identifier is unused. */
  lemma LoopEndsIffSomeFree(x: bv16, ids: set<int>)
    requires x != 0
    ensures (exists k :: 1 <= k && Iter(k, x) as int !in ids) <==> SomeFree(ids)
  {
    if SomeFree(ids) {
      var v :| 1 <= v <= PERIOD && v !in ids;
      SingleCycle(x, v);
    }
    if k :| 1 <= k && Iter(k, x) as int !in ids {
      IterNonZero(k, x);
      NonZeroAsInt(Iter(k, x));
      assert 1 <= Iter(k, x) as int <= PERIOD;
    }
  }

  ghost predicate IsFirstFree(k: nat, x: bv16, ids: set<int>) {
    && 1 <= k
    && Iter(k, x) as int !in ids
    && forall j :: 1 <= j < k ==> Iter(j, x) as int in ids
  }

  lemma {:induction false} LeastFree(k: nat, x: bv16, ids: set<int>)
    requires 1 <= k && Iter(k, x) as int !in ids
    ensures exists n :: IsFirstFree(n, x, ids)
  {
    if j :| 1 <= j < k && Iter(j, x) as int !in ids {
      LeastFree(j, x, ids);
    } else {
      assert IsFirstFree(k, x, ids);
    }
  }

  /** How many turns the rejection loop makes. */
  ghost function TurnsNeeded(x: bv16, ids: set<int>): (k: nat)
    requires x != 0 && SomeFree(ids)
    ensures IsFirstFree(k, x, ids)
  {
    LoopEndsIffSomeFree(x, ids);
    var k0 :| 1 <= k0 && Iter(k0, x) as int !in ids;
    LeastFree(k0, x, ids);
    var k :| IsFirstFree(k, x, ids);
    k
  }

  /** The register value the generator settles on. */
  ghost function NextId(lfsr: bv16, ids: set<int>): bv16
    requires SomeFree(ids)
  {
    var x := Primed(lfsr);
    Iter(TurnsNeeded(x, ids), x)
  }

  /** Whoever meets the first unused value on the cycle has met NextId. */
  lemma NextIdUnique(lfsr: bv16, ids: set<int>, k: nat)
    requires SomeFree(ids) && IsFirstFree(k, Primed(lfsr), ids)
    ensures k == TurnsNeeded(Primed(lfsr), ids) && Iter(k, Primed(lfsr)) == NextId(lfsr, ids)
  {
    var n := TurnsNeeded(Primed(lfsr), ids);
    assert !(n < k) && !(k < n);
  }

  /** The generated identifier is legal and unused, and found within one cycle. */
  lemma NextIdFresh(lfsr: bv16, ids: set<int>)
    requires SomeFree(ids)
    ensures NextId(lfsr, ids) != 0 && NextId(lfsr, ids) as int !in ids
    ensures TurnsNeeded(Primed(lfsr), ids) <= PERIOD
  {
    var x := Primed(lfsr);
    IterNonZero(TurnsNeeded(x, ids), x);
    var v :| 1 <= v <= PERIOD && v !in ids;
    SingleCycle(x, v);
  }
}
