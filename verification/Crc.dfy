/** CRC-16 framing of the gimbal protocols (polynomial 0x1021, initial value 0). */
module Crc {

  type Bytes = seq<bv8>

  // ---------- the register ----------

  predicate Top(v: bv16) { v & 0x8000 != 0 }

  function Left(v: bv16): bv16 { v << 1 }

  const POLYNOMIAL: bv16 := 0x1021

  function Shift(v: bv16): bv16
  {
    if Top(v) then Xor(Left(v), POLYNOMIAL) else Left(v)
  }

  function Shifts(v: bv16, n: nat): bv16
  {
    if n == 0 then v else Shift(Shifts(v, n - 1))
  }

  function High(b: bv8): bv16 { (b as bv16) << 8 }

  function Xor(a: bv16, b: bv16): bv16 { a ^ b }

  /** One byte into the register. */
  function Feed(v: bv16, b: bv8): bv16 { Shifts(Xor(v, High(b)), 8) }

  function CrcFrom(v: bv16, data: Bytes): bv16
    decreases |data|
  {
    if data == [] then v else CrcFrom(Feed(v, data[0]), data[1..])
  }

  function Crc16(data: Bytes): bv16 { CrcFrom(0, data) }

  /** crc16() and siyi_crc16(): a byte loop around a bit loop. */
  method ComputeCrc16(data: Bytes) returns (crc: bv16)
    ensures crc == Crc16(data)
  {
    hide Shift, High, Xor;
    crc := 0;
    assert data[0..] == data;
    for i := 0 to |data|
      invariant CrcFrom(0, data) == CrcFrom(crc, data[i..])
    {
      assert data[i..][1..] == data[i + 1..];
      ghost var before := crc;
      crc := Xor(crc, High(data[i]));
      for bit := 0 to 8
        invariant crc == Shifts(Xor(before, High(data[i])), bit)
      {
        crc := Shift(crc);
      }
    }
  }

  function Shift8Right(v: bv8): bv8 { if v & 1 != 0 then (v >> 1) ^ 0x8C else v >> 1 }

  function Shifts8Right(v: bv8, n: nat): bv8
  {
    if n == 0 then v else Shift8Right(Shifts8Right(v, n - 1))
  }

  /** crc8(), used for the private headers only. */
  function Crc8(data: Bytes): bv8
  {
    if data == [] then 0 else Shifts8Right(Crc8(data[..|data| - 1]) ^ data[|data| - 1], 8)
  }

  method ComputeCrc8(data: Bytes) returns (crc: bv8)
    ensures crc == Crc8(data)
  {
    hide Shift8Right;
    crc := 0;
    for i := 0 to |data|
      invariant crc == Crc8(data[..i])
    {
      assert data[..i + 1][..i] == data[..i];
      ghost var before := crc;
      crc := crc ^ data[i];
      for bit := 0 to 8
        invariant crc == Shifts8Right(before ^ data[i], bit)
      {
        crc := Shift8Right(crc);
      }
    }
    assert data[..|data|] == data;
  }

  // ---------- the register is linear ----------

  lemma TopXor(v: bv16, w: bv16)
    ensures Top(Xor(v, w)) <==> Top(v) != Top(w)
  {
  }

  lemma LeftXor(v: bv16, w: bv16)
    ensures Left(Xor(v, w)) == Xor(Left(v), Left(w))
  {
  }

  lemma XorComm(a: bv16, b: bv16)
    ensures Xor(a, b) == Xor(b, a)
  {
  }

  lemma XorAssoc(a: bv16, b: bv16, p: bv16)
    ensures Xor(a, Xor(b, p)) == Xor(Xor(a, b), p)
  {
  }

  lemma XorCancel(a: bv16, p: bv16)
    ensures Xor(Xor(a, p), p) == a
  {
  }

  /** Equal parts drop out of a difference, and move out of a sum. */
  lemma XorOut(a: bv16, b: bv16, p: bv16)
    ensures Xor(Xor(a, p), Xor(b, p)) == Xor(a, b)
    ensures Xor(Xor(a, p), b) == Xor(Xor(a, b), p) && Xor(a, Xor(b, p)) == Xor(Xor(a, b), p)
  {
    hide Xor;
    XorAssoc(a, b, p);
    XorAssoc(a, p, b);
    XorComm(p, b);
    XorAssoc(Xor(a, p), b, p);
    XorCancel(Xor(a, b), p);
  }

  lemma ShiftLinear(v: bv16, w: bv16)
    ensures Shift(Xor(v, w)) == Xor(Shift(v), Shift(w))
  {
    hide Xor, Top, Left;
    TopXor(v, w);
    LeftXor(v, w);
    XorOut(Left(v), Left(w), POLYNOMIAL);
  }

  lemma ShiftZero(v: bv16)
    requires Shift(v) == 0
    ensures v == 0
  {
  }

  lemma {:induction false} ShiftsLinear(v: bv16, w: bv16, n: nat)
    ensures Shifts(Xor(v, w), n) == Xor(Shifts(v, n), Shifts(w, n))
  {
    hide Shift, Xor;
    if n > 0 {
      ShiftsLinear(v, w, n - 1);
      ShiftLinear(Shifts(v, n - 1), Shifts(w, n - 1));
    }
  }

  lemma {:induction false} ShiftsZero(v: bv16, n: nat)
    requires Shifts(v, n) == 0
    ensures v == 0
  {
    hide Shift;
    if n > 0 {
      ShiftZero(Shifts(v, n - 1));
      ShiftsZero(v, n - 1);
    }
  }

  lemma XorSame(a: bv16)
    ensures Xor(a, a) == 0 && Xor(0, a) == a
  {
  }

  lemma XorZero(a: bv16, b: bv16)
    ensures Xor(a, b) == 0 <==> a == b
  {
    hide Xor;
    XorCancel(a, b);
    XorSame(a);
    XorSame(b);
  }

  lemma ShiftsInjective(v: bv16, w: bv16, n: nat)
    requires Shifts(v, n) == Shifts(w, n)
    ensures v == w
  {
    hide Shifts, Xor;
    ShiftsLinear(v, w, n);
    XorZero(Shifts(v, n), Shifts(w, n));
    ShiftsZero(Xor(v, w), n);
    XorZero(v, w);
  }

  lemma XorInjective(v: bv16, w: bv16, c: bv16)
    requires Xor(v, c) == Xor(w, c)
    ensures v == w
  {
  }

  /** The same bytes after different registers keep them different. */
  lemma {:induction false} FeedKeepsApart(v: bv16, w: bv16, data: Bytes)
    requires CrcFrom(v, data) == CrcFrom(w, data)
    ensures v == w
    decreases |data|
  {
    hide Shifts, Xor, High;
    if data != [] {
      FeedKeepsApart(Feed(v, data[0]), Feed(w, data[0]), data[1..]);
      ShiftsInjective(Xor(v, High(data[0])), Xor(w, High(data[0])), 8);
      XorInjective(v, w, High(data[0]));
    }
  }

  lemma {:induction false} CrcConcat(v: bv16, a: Bytes, b: Bytes)
    ensures CrcFrom(v, a + b) == CrcFrom(CrcFrom(v, a), b)
    decreases |a|
  {
    hide Feed;
    if a == [] {
      assert a + b == b;
    } else {
      assert (a + b)[1..] == a[1..] + b;
      CrcConcat(Feed(v, a[0]), a[1..], b);
    }
  }

  // ---------- what it detects ----------

  function Eight(v: bv16): bv16 { Shift(Shift(Shift(Shift(Shift(Shift(Shift(Shift(v)))))))) }

  lemma EightIsShifts(v: bv16)
    ensures Shifts(v, 8) == Eight(v)
  {
    hide Shift;
    assert Shifts(v, 1) == Shift(v) by { assert Shifts(v, 0) == v; }
    assert Shifts(v, 3) == Shift(Shift(Shifts(v, 1)));
    assert Shifts(v, 5) == Shift(Shift(Shifts(v, 3)));
    assert Shifts(v, 7) == Shift(Shift(Shifts(v, 5)));
  }

  lemma HighXor(a: bv8, b: bv8)
    ensures Xor(High(a), High(b)) == High(a ^ b) && (a ^ b == 0 <==> a == b)
  {
  }

  predicate LowClear(v: bv16) { v & 0xff == 0 }

  lemma HighIsClear(b: bv8)
    ensures LowClear(High(b))
  {
  }

  /** A difference in the first of two bytes reaches the low half of the register,
      where the second byte cannot cancel it. */
  lemma LowHalf(d: bv8)
    requires LowClear(Eight(High(d)))
    ensures d == 0
  {
  }

  lemma XorMove(a: bv16, b: bv16, c: bv16, d: bv16)
    requires Xor(a, c) == Xor(b, d)
    ensures Xor(a, b) == Xor(c, d)
  {
    hide Xor;
    XorOut(a, b, c);
    XorComm(b, d);
    XorComm(b, c);
    XorOut(d, c, b);
    XorComm(c, d);
  }

  lemma XorSwap(v: bv16, a: bv16, b: bv16)
    ensures Xor(Xor(v, a), Xor(v, b)) == Xor(a, b)
  {
    hide Xor;
    XorComm(v, a);
    XorComm(v, b);
    XorOut(a, b, v);
  }

  lemma FeedDifference(v: bv16, x: bv8, x': bv8)
    ensures Xor(Feed(v, x), Feed(v, x')) == Eight(High(x ^ x'))
  {
    hide Shift, High, Shifts, Eight, Xor;
    ShiftsLinear(Xor(v, High(x)), Xor(v, High(x')), 8);
    XorSwap(v, High(x), High(x'));
    HighXor(x, x');
    EightIsShifts(High(x ^ x'));
  }

  /** Two neighbouring bytes into the same register. */
  lemma TwoBytes(v: bv16, x: bv8, y: bv8, x': bv8, y': bv8)
    requires Feed(Feed(v, x), y) == Feed(Feed(v, x'), y')
    ensures x == x' && y == y'
  {
    hide Shift, High, Shifts, Eight, Xor, LowClear;
    var f, f' := Feed(v, x), Feed(v, x');
    ShiftsInjective(Xor(f, High(y)), Xor(f', High(y')), 8);
    XorMove(f, f', High(y), High(y'));
    FeedDifference(v, x, x');
    HighXor(y, y');
    HighIsClear(y ^ y');
    LowHalf(x ^ x');
    HighXor(x, x');
    SameHigh(f, y, y');
  }

  lemma SameHigh(f: bv16, y: bv8, y': bv8)
    requires Xor(f, f) == Xor(High(y), High(y'))
    ensures y == y'
  {
  }

  /** Two bodies of equal length that differ only within two neighbouring bytes never share a CRC. */
  lemma BurstDetected(a: Bytes, x: bv8, y: bv8, x': bv8, y': bv8, b: Bytes)
    requires x != x' || y != y'
    ensures Crc16(a + [x, y] + b) != Crc16(a + [x', y'] + b)
  {
    hide Feed;
    if Crc16(a + [x, y] + b) == Crc16(a + [x', y'] + b) {
      CrcConcat(0, a + [x, y], b);
      CrcConcat(0, a + [x', y'], b);
      CrcConcat(0, a, [x, y]);
      CrcConcat(0, a, [x', y']);
      FeedKeepsApart(CrcFrom(0, a + [x, y]), CrcFrom(0, a + [x', y']), b);
      PairFed(CrcFrom(0, a), x, y);
      PairFed(CrcFrom(0, a), x', y');
      TwoBytes(CrcFrom(0, a), x, y, x', y');
      assert false;
    }
  }

  lemma PairFed(v: bv16, x: bv8, y: bv8)
    ensures CrcFrom(v, [x, y]) == Feed(Feed(v, x), y)
  {
    hide Feed;
    assert [x, y][1..] == [y] && [y][1..] == [];
    assert CrcFrom(Feed(Feed(v, x), y), []) == Feed(Feed(v, x), y);
    assert CrcFrom(Feed(v, x), [y]) == Feed(Feed(v, x), y);
  }

  // ---------- bytes as numbers ----------

  function Value(b: bv8): nat { b as int }

  /** The byte with this value. */
  function ByteOf(n: nat): bv8
    requires n < 256
  {
    if n == 0 then 0 else ByteOf(n - 1) + 1
  }

  lemma ValueNext(b: bv8)
    ensures Value(b) < 256 && Value(0) == 0
    ensures Value(b) < 255 ==> Value(b + 1) == Value(b) + 1
  {
  }

  lemma {:induction false} ValueOfByte(n: nat)
    requires n < 256
    ensures Value(ByteOf(n)) == n
  {
    hide Value;
    if n == 0 {
      ValueNext(0);
    } else {
      ValueOfByte(n - 1);
      ValueNext(ByteOf(n - 1));
    }
  }

  lemma SameValue(a: bv8, b: bv8)
    requires Value(a) == Value(b)
    ensures a == b
  {
  }

  lemma ByteOfValue(b: bv8)
    ensures Value(b) < 256 && ByteOf(Value(b)) == b
  {
    hide Value, ByteOf;
    ValueNext(b);
    ValueOfByte(Value(b));
    SameValue(ByteOf(Value(b)), b);
  }

  // ---------- the trailer ----------

  function HighByte(w: bv16): bv8 { (w >> 8) as bv8 }
  function LowByte(w: bv16): bv8 { (w & 0xff) as bv8 }

  /** struct.unpack("<H") of two bytes. */
  function Word(low: bv8, high: bv8): bv16 { ((high as bv16) << 8) | (low as bv16) }

  lemma WordBytes(w: bv16)
    ensures Word(LowByte(w), HighByte(w)) == w
  {
  }

  lemma BytesOfWord(low: bv8, high: bv8)
    ensures LowByte(Word(low, high)) == low && HighByte(Word(low, high)) == high
  {
  }

  lemma OneByteLeft(v: bv16)
    ensures Eight(Xor(v, High(HighByte(v)))) == High(LowByte(v))
  {
  }

  lemma ZeroStays()
    ensures Eight(0) == 0
  {
  }

  /** Feeding a register its own two bytes, high first, empties it. */
  lemma OwnBytesCancel(v: bv16)
    ensures Feed(Feed(v, HighByte(v)), LowByte(v)) == 0
  {
    hide Shift, Shifts, Eight, Xor, High, HighByte, LowByte;
    EightIsShifts(Xor(v, High(HighByte(v))));
    OneByteLeft(v);
    assert Feed(v, HighByte(v)) == High(LowByte(v));
    XorZero(High(LowByte(v)), High(LowByte(v)));
    EightIsShifts(0);
    ZeroStays();
  }

  /** Appending the CRC with its high byte first makes the CRC zero, and nothing else does:
      this is the XFRobot acceptance test. */
  lemma ZeroResidue(body: Bytes, high: bv8, low: bv8)
    ensures Crc16(body + [high, low]) == 0 <==> high == HighByte(Crc16(body)) && low == LowByte(Crc16(body))
  {
    hide Feed, HighByte, LowByte;
    var v := Crc16(body);
    CrcConcat(0, body, [high, low]);
    PairFed(v, high, low);
    OwnBytesCancel(v);
    if Feed(Feed(v, high), low) == 0 {
      TwoBytes(v, high, low, HighByte(v), LowByte(v));
    }
  }
}
