/** The three frame formats of the gimbal simulator and the XFRobot acceptance test. */
module Frames {
  import opened Ini
  import opened Crc

  // ---------- numbers in frames ----------

  /** struct.pack("<H", n) */
  function Length16(n: nat): Bytes
    requires n < 65536
  {
    [ByteOf(n % 256), ByteOf(n / 256)]
  }

  function LengthAt(data: Bytes, at: nat): nat
    requires at + 1 < |data|
  {
    Value(data[at]) + 256 * Value(data[at + 1])
  }

  function WordAt(data: Bytes, at: nat): bv16
    requires at + 1 < |data|
  {
    Word(data[at], data[at + 1])
  }

  /** struct.pack("<H", w) */
  function WordBytesLow(w: bv16): Bytes { [LowByte(w), HighByte(w)] }

  /** The CRC is appended low byte first. */
  function Sealed(body: Bytes): Bytes { body + WordBytesLow(Crc16(body)) }

  /** crc16(data[:-2]) against the last two bytes. */
  predicate SealHolds(data: Bytes)
    requires |data| >= 2
  {
    Crc16(data[..|data| - 2]) == WordAt(data, |data| - 2)
  }

  lemma SealedHolds(body: Bytes)
    ensures |Sealed(body)| == |body| + 2 && Sealed(body)[..|body|] == body && SealHolds(Sealed(body))
  {
    hide Crc16, LowByte, HighByte, Word;
    WordBytes(Crc16(body));
    assert Sealed(body)[..|body|] == body;
  }

  /** A sealed frame is determined by its body. */
  lemma OnlySeal(data: Bytes)
    requires |data| >= 2 && SealHolds(data)
    ensures data == Sealed(data[..|data| - 2])
  {
    hide Crc16, LowByte, HighByte, Word;
    BytesOfWord(data[|data| - 2], data[|data| - 1]);
    assert data == data[..|data| - 2] + [data[|data| - 2], data[|data| - 1]];
  }

  // ---------- SIYI ----------

  datatype Siyi = Siyi(control: bv8, sequence: bv16, opcode: bv8, payload: Bytes)

  /** siyi_frame(); struct.pack refuses a length that is no 16-bit number. */
  function SiyiFrame(f: Siyi): Option<Bytes>
  {
    if |f.payload| >= 65536 then None
    else
      var head := [0x55, 0x66, f.control] + Length16(|f.payload|) + WordBytesLow(f.sequence) + [f.opcode];
      Some(Sealed(head + f.payload))
  }

  /** parse_siyi(); None stands for ValueError. */
  function ParseSiyi(data: Bytes): Option<Siyi>
  {
    if |data| < 10 || data[..2] != [0x55, 0x66] then None
    else if |data| != LengthAt(data, 3) + 10 || !SealHolds(data) then None
    else Some(Siyi(data[2], WordAt(data, 5), data[7], data[8..|data| - 2]))
  }

  lemma LengthBytes(n: nat)
    requires n < 65536
    ensures |Length16(n)| == 2 && Value(Length16(n)[0]) + 256 * Value(Length16(n)[1]) == n
  {
    hide Value, ByteOf;
    ValueOfByte(n % 256);
    ValueOfByte(n / 256);
  }

  lemma BytesOfLength(low: bv8, high: bv8)
    ensures Value(low) + 256 * Value(high) < 65536
    ensures Length16(Value(low) + 256 * Value(high)) == [low, high]
  {
    hide Value, ByteOf;
    ByteOfValue(low);
    ByteOfValue(high);
    var n := Value(low) + 256 * Value(high);
    assert n % 256 == Value(low) && n / 256 == Value(high);
  }

  lemma SiyiRoundTrip(f: Siyi)
    requires |f.payload| < 65536
    ensures SiyiFrame(f).Some? && ParseSiyi(SiyiFrame(f).value) == Some(f)
  {
    hide Crc16, LowByte, HighByte, Word, SealHolds, Sealed, Length16, Value, ByteOf;
    var l, s := Length16(|f.payload|), WordBytesLow(f.sequence);
    var body := [0x55, 0x66, f.control] + l + s + [f.opcode] + f.payload;
    LengthBytes(|f.payload|);
    WordBytes(f.sequence);
    SealedHolds(body);
    var data := Sealed(body);
    assert forall i :: 0 <= i < |body| ==> data[i] == body[i];
    assert data[..2] == [0x55, 0x66];
    assert data[8..|data| - 2] == f.payload by { assert data[..|body|] == body && body[8..] == f.payload; }
  }

  /** Only built frames are accepted. */
  lemma SiyiOnlyBuilt(data: Bytes)
    requires ParseSiyi(data).Some?
    ensures SiyiFrame(ParseSiyi(data).value) == Some(data)
  {
    hide Crc16, LowByte, HighByte, Word, SealHolds, Sealed, Length16, Value, ByteOf;
    var f := ParseSiyi(data).value;
    OnlySeal(data);
    BytesOfLength(data[3], data[4]);
    BytesOfWord(data[5], data[6]);
    var body := data[..|data| - 2];
    assert body == [0x55, 0x66, f.control] + [data[3], data[4]] + [data[5], data[6]] + [f.opcode] + f.payload by {
      assert data[0] == data[..2][0] && data[1] == data[..2][1];
    }
  }

  // ---------- the private frames ----------

  const GIMBAL_MCU: bv8 := 0x2E
  const PRIVATE_LINK: bv8 := 0x6B

  datatype Private = Private(control: bv8, sequence: bv16, source: bv8, destination: bv8, link: bv8,
                             command: bv8, payload: Bytes)

  /** The fields a builder fixes: from the gimbal controller to this camera processor. */
  predicate Addressed(f: Private, camera: bv8)
  {
    f.source == GIMBAL_MCU && f.destination == camera && f.link == PRIVATE_LINK
  }

  const MT11_CAMERA: bv8 := 0x34
  const A8_CAMERA: bv8 := 0x2C

  /** mt11_private_frame() */
  function Mt11Frame(f: Private): Option<Bytes>
  {
    if |f.payload| >= 65536 then None
    else
      var head := [0xAA, f.control, 3] + Length16(|f.payload|);
      Some(Sealed(head + [Crc8(head)] + WordBytesLow(f.sequence)
                  + [GIMBAL_MCU, MT11_CAMERA, PRIVATE_LINK, f.command] + f.payload))
  }

  /** parse_mt11_private() */
  function ParseMt11(data: Bytes): Option<Private>
  {
    if |data| < 14 || data[0] != 0xAA || data[2] != 3 || Crc8(data[..5]) != data[5] then None
    else if |data| != LengthAt(data, 3) + 14 || !SealHolds(data) then None
    else Some(Private(data[1], WordAt(data, 6), data[8], data[9], data[10], data[11], data[12..|data| - 2]))
  }

  lemma Mt11RoundTrip(f: Private)
    requires |f.payload| < 65536 && Addressed(f, MT11_CAMERA)
    ensures Mt11Frame(f).Some? && ParseMt11(Mt11Frame(f).value) == Some(f)
  {
    hide Crc16, Crc8, LowByte, HighByte, Word, SealHolds, Sealed, Length16, Value, ByteOf;
    var l, s := Length16(|f.payload|), WordBytesLow(f.sequence);
    LengthBytes(|f.payload|);
    WordBytes(f.sequence);
    var head := [0xAA, f.control, 3] + l;
    var body := head + [Crc8(head)] + s + [GIMBAL_MCU, MT11_CAMERA, PRIVATE_LINK, f.command] + f.payload;
    SealedHolds(body);
    var data := Sealed(body);
    assert forall i :: 0 <= i < |body| ==> data[i] == body[i];
    assert data[..5] == head by { assert data[..|body|] == body && body[..5] == head; }
    assert data[12..|data| - 2] == f.payload by { assert data[..|body|] == body && body[12..] == f.payload; }
  }

  /** A frame that parses and is addressed as the builder addresses it was built from those fields. */
  lemma Mt11OnlyBuilt(data: Bytes)
    requires ParseMt11(data).Some? && Addressed(ParseMt11(data).value, MT11_CAMERA)
    ensures Mt11Frame(ParseMt11(data).value) == Some(data)
  {
    hide Crc16, Crc8, LowByte, HighByte, Word, SealHolds, Sealed, Length16, Value, ByteOf;
    var f := ParseMt11(data).value;
    OnlySeal(data);
    BytesOfLength(data[3], data[4]);
    BytesOfWord(data[6], data[7]);
    var head := [0xAA, f.control, 3] + [data[3], data[4]];
    assert data[..5] == head;
    assert data[..|data| - 2] == head + [data[5]] + [data[6], data[7]]
                                 + [GIMBAL_MCU, MT11_CAMERA, PRIVATE_LINK, f.command] + f.payload;
  }

  /** a8_private_frame() */
  function A8Frame(f: Private): Option<Bytes>
  {
    if |f.payload| > 255 then None
    else
      var head := [0xAA, f.control, 2, ByteOf(|f.payload|)];
      Some(Sealed(head + [Crc8(head)] + WordBytesLow(f.sequence)
                  + [GIMBAL_MCU, A8_CAMERA, PRIVATE_LINK, f.command] + f.payload))
  }

  /** parse_a8_private() */
  function ParseA8(data: Bytes): Option<Private>
  {
    if |data| < 13 || data[0] != 0xAA || data[2] != 2 || Crc8(data[..4]) != data[4] then None
    else if |data| != Value(data[3]) + 13 || !SealHolds(data) then None
    else Some(Private(data[1], WordAt(data, 5), data[7], data[8], data[9], data[10], data[11..|data| - 2]))
  }

  lemma A8RoundTrip(f: Private)
    requires |f.payload| <= 255 && Addressed(f, A8_CAMERA)
    ensures A8Frame(f).Some? && ParseA8(A8Frame(f).value) == Some(f)
  {
    hide Crc16, Crc8, LowByte, HighByte, Word, SealHolds, Sealed, Value, ByteOf;
    var s := WordBytesLow(f.sequence);
    WordBytes(f.sequence);
    ValueOfByte(|f.payload|);
    var head := [0xAA, f.control, 2, ByteOf(|f.payload|)];
    var body := head + [Crc8(head)] + s + [GIMBAL_MCU, A8_CAMERA, PRIVATE_LINK, f.command] + f.payload;
    SealedHolds(body);
    var data := Sealed(body);
    assert forall i :: 0 <= i < |body| ==> data[i] == body[i];
    assert data[..4] == head by { assert data[..|body|] == body && body[..4] == head; }
    assert data[11..|data| - 2] == f.payload by { assert data[..|body|] == body && body[11..] == f.payload; }
  }

  lemma A8OnlyBuilt(data: Bytes)
    requires ParseA8(data).Some? && Addressed(ParseA8(data).value, A8_CAMERA)
    ensures A8Frame(ParseA8(data).value) == Some(data)
  {
    hide Crc16, Crc8, LowByte, HighByte, Word, SealHolds, Sealed, Value, ByteOf;
    var f := ParseA8(data).value;
    OnlySeal(data);
    ByteOfValue(data[3]);
    BytesOfWord(data[5], data[6]);
    var head := [0xAA, f.control, 2, data[3]];
    assert data[..4] == head;
    assert data[..|data| - 2] == head + [data[4]] + [data[5], data[6]]
                                 + [GIMBAL_MCU, A8_CAMERA, PRIVATE_LINK, f.command] + f.payload;
  }

  // ---------- where each field stands ----------

  /** Two bytes hold a word, the low one first. */
  predicate LowFirst(low: bv8, high: bv8, w: bv16)
  {
    (high as bv16) << 8 == w & 0xff00 && low as bv16 == w & 0xff
  }

  lemma WordLowFirst(w: bv16)
    ensures |WordBytesLow(w)| == 2 && LowFirst(WordBytesLow(w)[0], WordBytesLow(w)[1], w)
  {
  }

  /** A sealed header and payload: where they stand, and the trailer every frame ends with. */
  lemma SealedParts(head: Bytes, payload: Bytes)
    ensures var d, h, n := Sealed(head + payload), |head|, |payload|;
            && |d| == h + n + 2 && d[..h] == head
            && d[h..h + n] == payload && LowFirst(d[h + n], d[h + n + 1], Crc16(d[..h + n]))
  {
    hide Crc16, LowByte, HighByte, LowFirst;
    var body := head + payload;
    WordLowFirst(Crc16(body));
    assert Sealed(body)[..|body|] == body;
    assert Sealed(body)[..|head|] == body[..|head|];
  }

  lemma JoinedSiyi(start: Bytes, l: Bytes, s: Bytes, opcode: bv8, all: Bytes)
    requires |start| == 3 && |l| == 2 == |s|
    requires all == [start[0], start[1], start[2], l[0], l[1], s[0], s[1], opcode]
    ensures start + l + s + [opcode] == all
  {
  }

  lemma JoinedA8(head: Bytes, check: bv8, s: Bytes, end: Bytes, all: Bytes)
    requires |head| == 4 && |s| == 2 && |end| == 4
    requires all == [head[0], head[1], head[2], head[3], check, s[0], s[1], end[0], end[1], end[2], end[3]]
    ensures head + [check] + s + end == all && all[..4] == head
  {
  }

  /** The bytes of a SIYI frame. */
  lemma SiyiBytes(f: Siyi)
    requires |f.payload| < 65536
    ensures SiyiFrame(f).Some?
    ensures var d, n := SiyiFrame(f).value, |f.payload|;
            && |d| == n + 10 && d[..8] == [0x55, 0x66, f.control, d[3], d[4], d[5], d[6], f.opcode]
            && Value(d[3]) + 256 * Value(d[4]) == n && LowFirst(d[5], d[6], f.sequence)
            && d[8..n + 8] == f.payload && LowFirst(d[n + 8], d[n + 9], Crc16(d[..n + 8]))
  {
    hide Crc16, LowByte, HighByte, LowFirst, Sealed, ByteOf, Length16, WordBytesLow, Value;
    LengthBytes(|f.payload|);
    WordLowFirst(f.sequence);
    var l, s := Length16(|f.payload|), WordBytesLow(f.sequence);
    var head := [0x55, 0x66, f.control, l[0], l[1], s[0], s[1], f.opcode];
    JoinedSiyi([0x55, 0x66, f.control], l, s, f.opcode, head);
    SealedParts(head, f.payload);
    var d := Sealed(head + f.payload);
    assert d[3] == d[..8][3] && d[4] == d[..8][4] && d[5] == d[..8][5] && d[6] == d[..8][6];
  }

  lemma Joined(head: Bytes, start: Bytes, l: Bytes, check: bv8, s: Bytes, end: Bytes, all: Bytes)
    requires head == start + l && |start| == 3 && |l| == 2 == |s| && |end| == 4
    requires all == [start[0], start[1], start[2], l[0], l[1], check, s[0], s[1], end[0], end[1], end[2], end[3]]
    ensures head + [check] + s + end == all && all[..5] == head
  {
  }

  /** The bytes of an MT11 frame. */
  lemma Mt11Bytes(f: Private)
    requires |f.payload| < 65536
    ensures Mt11Frame(f).Some?
    ensures var d, n := Mt11Frame(f).value, |f.payload|;
            && |d| == n + 14
            && d[..12] == [0xAA, f.control, 3, d[3], d[4], Crc8(d[..5]), d[6], d[7], 0x2E, 0x34, 0x6B, f.command]
            && Value(d[3]) + 256 * Value(d[4]) == n && LowFirst(d[6], d[7], f.sequence)
            && d[12..n + 12] == f.payload && LowFirst(d[n + 12], d[n + 13], Crc16(d[..n + 12]))
  {
    hide Crc16, Crc8, LowByte, HighByte, LowFirst, Sealed, ByteOf, Length16, WordBytesLow, Value;
    LengthBytes(|f.payload|);
    WordLowFirst(f.sequence);
    var l, s := Length16(|f.payload|), WordBytesLow(f.sequence);
    var head := [0xAA, f.control, 3] + l;
    var all := [0xAA, f.control, 3, l[0], l[1], Crc8(head), s[0], s[1], GIMBAL_MCU, MT11_CAMERA, PRIVATE_LINK,
                f.command];
    Joined(head, [0xAA, f.control, 3], l, Crc8(head), s, [GIMBAL_MCU, MT11_CAMERA, PRIVATE_LINK, f.command], all);
    SealedParts(all, f.payload);
    var d := Sealed(all + f.payload);
    assert d[..5] == d[..12][..5] == head;
    assert d[3] == d[..12][3] && d[4] == d[..12][4] && d[6] == d[..12][6] && d[7] == d[..12][7];
  }

  /** The bytes of an A8 frame. */
  lemma A8Bytes(f: Private)
    requires |f.payload| <= 255
    ensures A8Frame(f).Some?
    ensures var d, n := A8Frame(f).value, |f.payload|;
            && |d| == n + 13
            && d[..11] == [0xAA, f.control, 2, d[3], Crc8(d[..4]), d[5], d[6], 0x2E, 0x2C, 0x6B, f.command]
            && Value(d[3]) == n && LowFirst(d[5], d[6], f.sequence)
            && d[11..n + 11] == f.payload && LowFirst(d[n + 11], d[n + 12], Crc16(d[..n + 11]))
  {
    hide Crc16, Crc8, LowByte, HighByte, LowFirst, Sealed, ByteOf, WordBytesLow, Value;
    ValueOfByte(|f.payload|);
    WordLowFirst(f.sequence);
    var s := WordBytesLow(f.sequence);
    var head := [0xAA, f.control, 2, ByteOf(|f.payload|)];
    var all := [0xAA, f.control, 2, head[3], Crc8(head), s[0], s[1], GIMBAL_MCU, A8_CAMERA, PRIVATE_LINK, f.command];
    JoinedA8(head, Crc8(head), s, [GIMBAL_MCU, A8_CAMERA, PRIVATE_LINK, f.command], all);
    SealedParts(all, f.payload);
    var d := Sealed(all + f.payload);
    assert d[..4] == d[..11][..4] == head;
    assert d[3] == d[..11][3] && d[5] == d[..11][5] && d[6] == d[..11][6];
  }

  // ---------- corruption ----------

  /** A sealed frame whose body changed within two neighbouring bytes is rejected by the CRC test
      all three parsers share. */
  lemma CorruptionRejected(a: Bytes, x: bv8, y: bv8, x': bv8, y': bv8, b: Bytes)
    requires x != x' || y != y'
    ensures var body := a + [x, y] + b;
            var changed := a + [x', y'] + b + WordBytesLow(Crc16(body));
            !SealHolds(changed) && ParseSiyi(changed).None? && ParseMt11(changed).None? && ParseA8(changed).None?
  {
    hide Crc16, LowByte, HighByte, Word;
    var body, bad := a + [x, y] + b, a + [x', y'] + b;
    BurstDetected(a, x, y, x', y', b);
    WordBytes(Crc16(body));
    var data := bad + WordBytesLow(Crc16(body));
    assert data[..|data| - 2] == bad;
  }

  /** The XFRobot test: 40 bytes, a fixed head, and a CRC of zero over all of it. */
  predicate XfAccepts(data: Bytes) { |data| == 40 && data[..2] == [0xA9, 0x5B] && Crc16(data) == 0 }

  /** It accepts exactly the frames whose last two bytes are the CRC of the rest, high byte first. */
  lemma XfAcceptsExactly(data: Bytes)
    ensures XfAccepts(data) <==>
      (|data| == 40 && data[..2] == [0xA9, 0x5B] &&
       data[38] == HighByte(Crc16(data[..38])) && data[39] == LowByte(Crc16(data[..38])))
  {
    hide Crc16, HighByte, LowByte;
    if |data| == 40 {
      assert data == data[..38] + [data[38], data[39]];
      ZeroResidue(data[..38], data[38], data[39]);
    }
  }
}
