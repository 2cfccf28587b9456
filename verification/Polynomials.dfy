/** Polynomials over two elements, and what the two CRC registers hold: the remainder of the message times a power of x,
    after division by the register's polynomial. */
module Polynomials {
  import opened Crc

  /** Coefficients, the highest power first. */
  type Bits = seq<bool>

  // ---------- long division ----------

  function Zeros(n: nat): Bits { seq(n, i => false) }

  /** Both texts have the same length; adding and subtracting are the same. */
  function Plus(a: Bits, b: Bits): Bits
    requires |a| == |b|
  {
    seq(|a|, i requires 0 <= i < |a| => a[i] != b[i])
  }

  /** The second is added at the front of the first. */
  function PlusFront(a: Bits, b: Bits): Bits
    requires |b| <= |a|
  {
    seq(|a|, i requires 0 <= i < |a| => if i < |b| then a[i] != b[i] else a[i])
  }

  /** The product with p, with room for the highest power. */
  function Product(q: Bits, p: Bits): (r: Bits)
    requires p != []
    ensures |r| == |q| + |p| - 1
  {
    if q == [] then Zeros(|p| - 1)
    else
      var rest := [false] + Product(q[1..], p);
      if q[0] then PlusFront(rest, p) else rest
  }

  /** Division with remainder by hand: where the first coefficient is set, p is taken off at the front. */
  function Remainder(bits: Bits, p: Bits): (r: Bits)
    requires p != [] && p[0]
    ensures |bits| >= |p| - 1 ==> |r| == |p| - 1
    decreases |bits|
  {
    if |bits| < |p| then bits else Remainder((if bits[0] then PlusFront(bits, p) else bits)[1..], p)
  }

  /** A multiple of p and a shorter rest: the rest is the remainder. */
  lemma {:induction false} RemainderOf(q: Bits, p: Bits, rest: Bits)
    requires p != [] && p[0] && |rest| == |p| - 1
    ensures Remainder(Plus(Product(q, p), Zeros(|q|) + rest), p) == rest
    decreases |q|
  {
    var bits := Plus(Product(q, p), Zeros(|q|) + rest);
    if q == [] {
      assert bits == rest;
    } else {
      var fewer := Plus(Product(q[1..], p), Zeros(|q[1..]|) + rest);
      assert bits[0] == q[0];
      assert (if bits[0] then PlusFront(bits, p) else bits)[1..] == fewer;
      RemainderOf(q[1..], p, rest);
    }
  }

  lemma DivisionStep(bits: Bits, p: Bits, more: Bits, rest: Bits)
    requires p != [] && p[0] && |bits| >= |p| == |rest| + 1 && |more| + |p| == |bits|
    requires (if bits[0] then PlusFront(bits, p) else bits)[1..] == Plus(Product(more, p), Zeros(|more|) + rest)
    ensures bits == Plus(Product([bits[0]] + more, p), Zeros(|more| + 1) + rest)
  {
    hide Product, Zeros;
    var next, q, part := (if bits[0] then PlusFront(bits, p) else bits)[1..], [bits[0]] + more, Product(more, p);
    ProductCons(bits[0], more, p);
    ZerosNext(|more|, rest);
    var sum := Plus(Product(q, p), Zeros(|more| + 1) + rest);
    forall i | 0 <= i < |bits| ensures bits[i] == sum[i] {
      if i > 0 { assert next[i - 1] == (part[i - 1] != (Zeros(|more|) + rest)[i - 1]); }
    }
  }

  lemma ProductCons(b: bool, more: Bits, p: Bits)
    requires p != []
    ensures |Product(more, p)| == |more| + |p| - 1 && |Product([b] + more, p)| == |more| + |p|
    ensures forall i :: 0 <= i < |more| + |p| ==>
              var low := i > 0 && Product(more, p)[i - 1];
              Product([b] + more, p)[i] == if b && i < |p| then low != p[i] else low
  {
    assert ([b] + more)[1..] == more;
  }

  lemma ZerosNext(n: nat, rest: Bits)
    ensures |Zeros(n)| == n && Zeros(n + 1) + rest == [false] + (Zeros(n) + rest)
  {
  }

  /** And every text is such a sum. */
  lemma {:induction false} Division(bits: Bits, p: Bits) returns (q: Bits)
    requires p != [] && p[0] && |bits| >= |p| - 1
    ensures |q| + |p| - 1 == |bits| && bits == Plus(Product(q, p), Zeros(|q|) + Remainder(bits, p))
    decreases |bits|
  {
    if |bits| < |p| {
      q := [];
      assert bits == Plus(Product(q, p), Zeros(0) + bits);
    } else {
      var next := (if bits[0] then PlusFront(bits, p) else bits)[1..];
      var more := Division(next, p);
      q := [bits[0]] + more;
      assert q[1..] == more;
      DivisionStep(bits, p, more, Remainder(next, p));
    }
  }

  // ---------- a shift register divides ----------

  /** One bit into a register that divides by x to the length of `tail`, plus `tail`. */
  function Shifted(reg: Bits, bit: bool, tail: Bits): Bits
    requires |reg| == |tail| > 0
  {
    var left := reg[1..] + [false];
    if reg[0] != bit then Plus(left, tail) else left
  }

  function Fed(reg: Bits, message: Bits, tail: Bits): (r: Bits)
    requires |reg| == |tail| > 0
    ensures |r| == |tail|
    decreases |message|
  {
    if message == [] then reg else Fed(Shifted(reg, message[0], tail), message[1..], tail)
  }

  lemma {:induction false} FedConcat(reg: Bits, a: Bits, b: Bits, tail: Bits)
    requires |reg| == |tail| > 0
    ensures Fed(reg, a + b, tail) == Fed(Fed(reg, a, tail), b, tail)
    decreases |a|
  {
    if a == [] {
      assert a + b == b;
    } else {
      assert (a + b)[1..] == a[1..] + b;
      FedConcat(Shifted(reg, a[0], tail), a[1..], b, tail);
    }
  }

  /** What the register holds in the end. */
  lemma {:induction false} FedIsRemainder(reg: Bits, message: Bits, tail: Bits)
    requires |reg| == |tail| > 0
    ensures Remainder(PlusFront(message + Zeros(|tail|), reg), [true] + tail) == Fed(reg, message, tail)
    decreases |message|
  {
    var p, bits := [true] + tail, PlusFront(message + Zeros(|tail|), reg);
    if message == [] {
      assert bits == reg;
    } else {
      var next := PlusFront(message[1..] + Zeros(|tail|), Shifted(reg, message[0], tail));
      assert (if bits[0] then PlusFront(bits, p) else bits)[1..] == next;
      FedIsRemainder(Shifted(reg, message[0], tail), message[1..], tail);
    }
  }

  // ---------- the sixteen-bit register ----------

  function Mask(i: nat): bv16
    requires i < 16
  {
    match i
    case 0 => 0x8000
    case 1 => 0x4000
    case 2 => 0x2000
    case 3 => 0x1000
    case 4 => 0x800
    case 5 => 0x400
    case 6 => 0x200
    case 7 => 0x100
    case 8 => 0x80
    case 9 => 0x40
    case 10 => 0x20
    case 11 => 0x10
    case 12 => 8
    case 13 => 4
    case 14 => 2
    case 15 => 1
  }

  function And(v: bv16, mask: bv16): bv16 { v & mask }

  predicate BitAt(v: bv16, i: nat)
    requires i < 16
  {
    And(v, Mask(i)) != 0
  }

  /** The bits of a register, the highest first. */
  function Bits16(v: bv16): (s: Bits)
    ensures |s| == 16
  {
    seq(16, i requires 0 <= i < 16 => BitAt(v, i))
  }

  /** x^12 + x^5 + 1, below x^16. */
  const TAIL16: Bits := [false, false, false, true, false, false, false, false,
                         false, false, true, false, false, false, false, true]

  function BitIn(v: bv16, bit: bool): bv16 { Shift(if bit then Xor(v, 0x8000) else v) }

  lemma LeftAtHigh(v: bv16, i: nat)
    requires i < 8
    ensures BitAt(Left(v), i) == BitAt(v, i + 1)
  {
  }

  lemma LeftAtLow(v: bv16, i: nat)
    requires 8 <= i < 16
    ensures BitAt(Left(v), i) == (i < 15 && BitAt(v, i + 1))
  {
  }

  lemma LeftBits(v: bv16)
    ensures Bits16(Left(v)) == Bits16(v)[1..] + [false]
  {
    hide BitAt, Left;
    forall i | 0 <= i < 16 ensures Bits16(Left(v))[i] == (Bits16(v)[1..] + [false])[i] {
      if i < 8 { LeftAtHigh(v, i); } else { LeftAtLow(v, i); }
    }
  }

  lemma MaskXor(v: bv16, w: bv16, mask: bv16)
    ensures And(Xor(v, w), mask) == Xor(And(v, mask), And(w, mask))
  {
  }

  lemma OneBit(v: bv16, i: nat)
    requires i < 16
    ensures Mask(i) != 0 && (And(v, Mask(i)) == 0 || And(v, Mask(i)) == Mask(i))
  {
  }

  lemma XorAt(v: bv16, w: bv16, i: nat)
    requires i < 16
    ensures BitAt(Xor(v, w), i) == (BitAt(v, i) != BitAt(w, i))
  {
    hide Xor, Mask, And;
    MaskXor(v, w, Mask(i));
    OneBit(v, i);
    OneBit(w, i);
    XorZero(And(v, Mask(i)), And(w, Mask(i)));
  }

  lemma XorBits16(v: bv16, w: bv16)
    ensures Bits16(Xor(v, w)) == Plus(Bits16(v), Bits16(w))
  {
    hide BitAt, Xor;
    forall i | 0 <= i < 16 ensures BitAt(Xor(v, w), i) == (BitAt(v, i) != BitAt(w, i)) {
      XorAt(v, w, i);
    }
  }

  lemma PolynomialBits()
    ensures Bits16(POLYNOMIAL) == TAIL16
  {
  }

  lemma TopIn(v: bv16)
    ensures Top(v) <==> BitAt(v, 0)
    ensures Top(Xor(v, 0x8000)) <==> !Top(v)
    ensures Left(Xor(v, 0x8000)) == Left(v)
  {
  }

  lemma FirstBit(v: bv16)
    ensures Bits16(v)[0] == BitAt(v, 0)
  {
  }

  lemma BitInBits(v: bv16, bit: bool)
    ensures Bits16(BitIn(v, bit)) == Shifted(Bits16(v), bit, TAIL16)
  {
    hide Bits16, Top, Left, Xor, BitAt;
    TopIn(v);
    FirstBit(v);
    LeftBits(v);
    XorBits16(Left(v), POLYNOMIAL);
    PolynomialBits();
  }

  // ---------- its bytes ----------

  predicate TopBit(b: bv8) { b & 0x80 != 0 }

  function Next(b: bv8): bv8 { b << 1 }

  /** The first n bits of a byte, the highest first. */
  function ByteBits(b: bv8, n: nat): (s: Bits)
    ensures |s| == n
    decreases n
  {
    if n == 0 then [] else [TopBit(b)] + ByteBits(Next(b), n - 1)
  }

  function MessageBits(data: Bytes): Bits
  {
    if data == [] then [] else ByteBits(data[0], 8) + MessageBits(data[1..])
  }

  /** One shift takes the highest bit of the byte in. */
  lemma ShiftTakes(v: bv16, b: bv8)
    ensures Shift(Xor(v, High(b))) == Xor(BitIn(v, TopBit(b)), High(Next(b)))
  {
    var top: bv16 := if TopBit(b) then 0x8000 else 0;
    hide Xor, Shift;
    HighParts(b);
    ShiftLinear(Xor(v, top), High(b & 0x7f));
    ShiftLow(b);
    XorAssoc(v, top, High(b & 0x7f));
    XorNothing(v);
  }

  lemma HighParts(b: bv8)
    ensures High(b) == Xor(if TopBit(b) then 0x8000 else 0, High(b & 0x7f))
  {
  }

  lemma ShiftLow(b: bv8)
    ensures Shift(High(b & 0x7f)) == High(Next(b))
  {
  }

  lemma XorNothing(v: bv16)
    ensures Xor(v, 0) == v
  {
  }

  function NextTimes(b: bv8, n: nat): bv8
    decreases n
  {
    if n == 0 then b else NextTimes(Next(b), n - 1)
  }

  lemma {:induction false} ShiftsFirst(v: bv16, n: nat)
    ensures Shifts(v, n + 1) == Shifts(Shift(v), n)
  {
    hide Shift;
    if n > 0 { ShiftsFirst(v, n - 1); }
  }

  lemma {:induction false} ByteTaken(v: bv16, b: bv8, n: nat) returns (w: bv16)
    ensures Bits16(w) == Fed(Bits16(v), ByteBits(b, n), TAIL16)
    ensures Shifts(Xor(v, High(b)), n) == Xor(w, High(NextTimes(b, n)))
    decreases n
  {
    hide Bits16, Shift, Xor, High, BitIn, Shifted, TopBit, Next;
    if n == 0 {
      w := v;
      assert Shifts(Xor(v, High(b)), 0) == Xor(v, High(b));
    } else {
      w := ByteTaken(BitIn(v, TopBit(b)), Next(b), n - 1);
      BitInBits(v, TopBit(b));
      ShiftTakes(v, b);
      ShiftsFirst(Xor(v, High(b)), n - 1);
      assert ByteBits(b, n)[1..] == ByteBits(Next(b), n - 1);
    }
  }

  lemma ShiftedOut(b: bv8)
    ensures Next(Next(Next(Next(Next(Next(Next(Next(b)))))))) == 0 && High(0) == 0
  {
  }

  lemma NextGone(b: bv8)
    ensures High(NextTimes(b, 8)) == 0
  {
    ShiftedOut(b);
    hide Next, High;
    var b2, b4, b6 := Next(Next(b)), Next(Next(Next(Next(b)))), Next(Next(Next(Next(Next(Next(b))))));
    assert NextTimes(b, 8) == NextTimes(b2, 6);
    assert NextTimes(b2, 6) == NextTimes(b4, 4);
    assert NextTimes(b4, 4) == NextTimes(b6, 2);
    assert NextTimes(b6, 2) == Next(Next(b6));
  }

  lemma FeedBits(v: bv16, b: bv8)
    ensures Bits16(Feed(v, b)) == Fed(Bits16(v), ByteBits(b, 8), TAIL16)
  {
    hide Bits16, Shifts, Xor, High, ByteBits, Fed;
    var w := ByteTaken(v, b, 8);
    NextGone(b);
    XorNothing(w);
  }

  lemma {:induction false} CrcBits(v: bv16, data: Bytes)
    ensures Bits16(CrcFrom(v, data)) == Fed(Bits16(v), MessageBits(data), TAIL16)
    decreases |data|
  {
    hide Bits16, Feed, ByteBits, Shifted;
    if data != [] {
      FeedBits(v, data[0]);
      CrcBits(Feed(v, data[0]), data[1..]);
      FedConcat(Bits16(v), ByteBits(data[0], 8), MessageBits(data[1..]), TAIL16);
    }
  }

  lemma NothingIn()
    ensures Bits16(0) == Zeros(16)
  {
    forall i | 0 <= i < 16 ensures !BitAt(0, i) { NoBit(i); }
  }

  lemma NoBit(i: nat)
    requires i < 16
    ensures !BitAt(0, i)
  {
  }

  lemma PlusZeros(bits: Bits, n: nat)
    requires n <= |bits|
    ensures PlusFront(bits, Zeros(n)) == bits
  {
  }

  /** x^16 + x^12 + x^5 + 1 */
  const P16: Bits := [true, false, false, false, true, false, false, false, false,
                      false, false, true, false, false, false, false, true]

  /** The CRC of the SIYI, MT11 and A8 frames is the remainder of the message times x^16 after division by
      x^16 + x^12 + x^5 + 1. */
  lemma Crc16IsRemainder(data: Bytes)
    ensures Bits16(Crc16(data)) == Remainder(MessageBits(data) + Zeros(16), P16)
  {
    hide Bits16, CrcFrom, MessageBits, Fed, Remainder;
    CrcBits(0, data);
    NothingIn();
    assert P16 == [true] + TAIL16;
    FedIsRemainder(Bits16(0), MessageBits(data), TAIL16);
    PlusZeros(MessageBits(data) + Zeros(16), 16);
  }

  // ---------- the eight-bit register, whose bits are in reverse order ----------

  predicate LowBit(v: bv8) { v & 1 != 0 }

  function Half(v: bv8): bv8 { v >> 1 }

  function Xor8(v: bv8, w: bv8): bv8 { v ^ w }

  /** The first n bits of a byte or register, the lowest first. */
  function LowBits(v: bv8, n: nat): (s: Bits)
    ensures |s| == n
    decreases n
  {
    if n == 0 then [] else [LowBit(v)] + LowBits(Half(v), n - 1)
  }

  function ReversedBits(data: Bytes): Bits
  {
    if data == [] then [] else ReversedBits(data[..|data| - 1]) + LowBits(data[|data| - 1], 8)
  }

  /** x^5 + x^4 + 1, below x^8. */
  const TAIL8: Bits := [false, false, true, true, false, false, false, true]

  function LowIn(v: bv8, bit: bool): bv8 { Shift8Right(if bit then Xor8(v, 1) else v) }

  /** Bit i of a register, from the lowest. */
  lemma {:induction false} LowBitsAdd(v: bv8, w: bv8, n: nat)
    ensures LowBits(Xor8(v, w), n) == Plus(LowBits(v, n), LowBits(w, n))
    decreases n
  {
    hide Xor8, Half, LowBit;
    if n > 0 {
      HalfAdds(v, w);
      LowBitsAdd(Half(v), Half(w), n - 1);
    }
  }

  lemma HalfAdds(v: bv8, w: bv8)
    ensures Half(Xor8(v, w)) == Xor8(Half(v), Half(w)) && LowBit(Xor8(v, w)) == (LowBit(v) != LowBit(w))
  {
  }

  lemma LowShift(v: bv8, bit: bool)
    ensures LowIn(v, bit) == if LowBit(v) != bit then Xor8(Half(v), 0x8C) else Half(v)
  {
  }

  /** Eight bits are all there are. */
  lemma HalvesGone(v: bv8)
    ensures !LowBit(Half(Half(Half(Half(Half(Half(Half(Half(v)))))))))
    ensures Half(Half(Half(Half(Half(Half(Half(Half(v)))))))) == 0
  {
  }

  function Halved(v: bv8, n: nat): bv8
    decreases n
  {
    if n == 0 then v else Halved(Half(v), n - 1)
  }

  lemma HalvedGone(v: bv8)
    ensures Halved(v, 8) == 0 && !LowBit(Halved(v, 8))
  {
    HalvesGone(v);
    hide Half, LowBit;
    var v2, v4, v6 := Half(Half(v)), Half(Half(Half(Half(v)))), Half(Half(Half(Half(Half(Half(v))))));
    assert Halved(v, 8) == Halved(v2, 6);
    assert Halved(v2, 6) == Halved(v4, 4);
    assert Halved(v4, 4) == Halved(v6, 2);
    assert Halved(v6, 2) == Half(Half(v6));
  }

  lemma {:induction false} LowBitsLast(v: bv8, n: nat)
    ensures LowBits(v, n + 1) == LowBits(v, n) + [LowBit(Halved(v, n))]
    decreases n
  {
    hide Half, LowBit;
    if n > 0 {
      LowBitsLast(Half(v), n - 1);
      assert [LowBit(v)] + (LowBits(Half(v), n - 1) + [LowBit(Halved(v, n))])
          == ([LowBit(v)] + LowBits(Half(v), n - 1)) + [LowBit(Halved(v, n))];
    }
  }

  lemma HalfBits(v: bv8)
    ensures LowBits(Half(v), 8) == LowBits(v, 8)[1..] + [false]
  {
    hide Half, LowBit;
    LowBitsLast(v, 8);
    HalvedGone(v);
    assert LowBits(v, 9)[1..] == LowBits(Half(v), 8);
  }

  lemma TailBits()
    ensures LowBits(0x8C, 8) == TAIL8
  {
    var a, b, c: bv8 := 0x8C, 0x23, 0x08;
    assert Half(a) == 0x46 && Half(0x46) == b && Half(b) == 0x11 && Half(0x11) == c && Half(c) == 4;
    LowFour(a, 0x46, b, 0x11, c);
    LowFour(c, 4, 2, 1, 0);
    hide Half, LowBit;
    LowSplit(a, 4, 4);
  }

  lemma LowFour(a: bv8, b: bv8, c: bv8, d: bv8, e: bv8)
    requires Half(a) == b && Half(b) == c && Half(c) == d && Half(d) == e
    ensures LowBits(a, 4) == [LowBit(a), LowBit(b), LowBit(c), LowBit(d)] && Halved(a, 4) == e
  {
    hide Half, LowBit;
    assert LowBits(b, 3) == [LowBit(b)] + LowBits(c, 2);
  }

  lemma {:induction false} LowSplit(a: bv8, m: nat, n: nat)
    ensures LowBits(a, m + n) == LowBits(a, m) + LowBits(Halved(a, m), n)
    decreases m
  {
    hide Half, LowBit;
    if m == 0 {
      assert LowBits(a, 0) + LowBits(a, n) == LowBits(a, n);
    } else {
      LowSplit(Half(a), m - 1, n);
      assert [LowBit(a)] + (LowBits(Half(a), m - 1) + LowBits(Halved(a, m), n))
          == ([LowBit(a)] + LowBits(Half(a), m - 1)) + LowBits(Halved(a, m), n);
    }
  }

  lemma LowInBits(v: bv8, bit: bool)
    ensures LowBits(LowIn(v, bit), 8) == Shifted(LowBits(v, 8), bit, TAIL8)
  {
    hide Half, LowBit, LowIn, Xor8;
    LowShift(v, bit);
    HalfBits(v);
    LowBitsAdd(Half(v), 0x8C, 8);
    TailBits();
    assert LowBits(v, 8)[0] == LowBit(v);
  }

  /** One shift takes the lowest bit of the byte in. */
  lemma Shift8Takes(v: bv8, b: bv8)
    ensures Shift8Right(Xor8(v, b)) == Xor8(LowIn(v, LowBit(b)), Half(b))
  {
  }

  lemma {:induction false} Shifts8First(v: bv8, n: nat)
    ensures Shifts8Right(v, n + 1) == Shifts8Right(Shift8Right(v), n)
  {
    hide Shift8Right;
    if n > 0 { Shifts8First(v, n - 1); }
  }

  lemma {:induction false} LowTaken(v: bv8, b: bv8, n: nat) returns (w: bv8)
    ensures LowBits(w, 8) == Fed(LowBits(v, 8), LowBits(b, n), TAIL8)
    ensures Shifts8Right(Xor8(v, b), n) == Xor8(w, Halved(b, n))
    decreases n
  {
    hide Half, LowBit, LowIn, Xor8, Shift8Right, Shifted;
    if n == 0 {
      w := v;
      assert Shifts8Right(Xor8(v, b), 0) == Xor8(v, b);
    } else {
      w := LowTaken(LowIn(v, LowBit(b)), Half(b), n - 1);
      LowInBits(v, LowBit(b));
      Shift8Takes(v, b);
      Shifts8First(Xor8(v, b), n - 1);
      assert LowBits(b, n)[1..] == LowBits(Half(b), n - 1);
    }
  }

  lemma Nothing8(v: bv8)
    ensures Xor8(v, 0) == v
  {
  }

  lemma Crc8Last(data: Bytes)
    requires data != []
    ensures Crc8(data) == Shifts8Right(Xor8(Crc8(data[..|data| - 1]), data[|data| - 1]), 8)
  {
  }

  lemma {:induction false} Crc8Bits(data: Bytes)
    ensures LowBits(Crc8(data), 8) == Fed(Zeros(8), ReversedBits(data), TAIL8)
    decreases |data|
  {
    hide Crc8, Shifts8Right, Xor8, LowBits, Fed;
    if data == [] {
      EmptyCrc8();
    } else {
      var last := |data| - 1;
      Crc8Bits(data[..last]);
      Crc8Last(data);
      var w := LowTaken(Crc8(data[..last]), data[last], 8);
      HalvedGone(data[last]);
      Nothing8(w);
      FedConcat(Zeros(8), ReversedBits(data[..last]), LowBits(data[last], 8), TAIL8);
    }
  }

  lemma EmptyCrc8()
    ensures Crc8([]) == 0 && LowBits(0, 8) == Zeros(8) && Fed(Zeros(8), [], TAIL8) == Zeros(8)
  {
    LowFour(0, 0, 0, 0, 0);
    hide Half;
    LowSplit(0, 4, 4);
  }

  /** x^8 + x^5 + x^4 + 1 */
  const P8: Bits := [true, false, false, true, true, false, false, false, true]

  /** The header checksum is, with all bits in reverse order, the remainder of the header times x^8 after division by
      x^8 + x^5 + x^4 + 1. */
  lemma Crc8IsRemainder(data: Bytes)
    ensures LowBits(Crc8(data), 8) == Remainder(ReversedBits(data) + Zeros(8), P8)
  {
    hide LowBits, Crc8, ReversedBits, Fed, Remainder;
    Crc8Bits(data);
    assert P8 == [true] + TAIL8;
    FedIsRemainder(Zeros(8), ReversedBits(data), TAIL8);
    PlusZeros(ReversedBits(data) + Zeros(8), 8);
  }
}
