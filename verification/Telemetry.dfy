/** Telemetry in SEI messages: coding (section 7.3.2.3.1 of ITU-T H.264), emulation prevention
    (section 7.4.1) and their inverses in the extractor. */
module Telemetry {
  import opened AnnexB

  // ---------- emulation prevention ----------

  /** The encoder's side: a 3 goes before any byte up to 3 that follows two zeros. */
  function Escape(b: Bytes, zeros: nat): Bytes
  {
    if b == [] then []
    else if zeros == 2 && b[0] <= 3 then [3, b[0]] + Escape(b[1..], if b[0] == 0 then 1 else 0)
    else [b[0]] + Escape(b[1..], if b[0] == 0 then zeros + 1 else 0)
  }

  /** The extractor's side: a 3 after exactly two zeros is dropped. */
  function Unescape(s: Bytes, zeros: nat): Bytes
  {
    if s == [] then []
    else if zeros == 2 && s[0] == 3 then Unescape(s[1..], 0)
    else [s[0]] + Unescape(s[1..], if s[0] == 0 then zeros + 1 else 0)
  }

  lemma {:induction false} UnescapeEscape(b: Bytes, zeros: nat)
    requires zeros <= 2
    ensures Unescape(Escape(b, zeros), zeros) == b
  {
    if b != [] {
      if zeros == 2 && b[0] <= 3 {
        var z := if b[0] == 0 then 1 else 0;
        var rest := Escape(b[1..], z);
        UnescapeEscape(b[1..], z);
        assert Escape(b, zeros)[1..] == [b[0]] + rest;
        assert ([b[0]] + rest)[1..] == rest;
      } else {
        var z := if b[0] == 0 then zeros + 1 else 0;
        UnescapeEscape(b[1..], z);
        assert Escape(b, zeros)[1..] == Escape(b[1..], z);
      }
    }
  }

  /** Escaped bytes never complete a forbidden triple, whatever zeros came before. */
  lemma {:induction false} EscapeIsEscaped(b: Bytes, zeros: nat)
    requires zeros <= 2
    ensures Escaped(Zeros(zeros) + Escape(b, zeros))
  {
    if b == [] {
      assert Zeros(zeros) + [] == Zeros(zeros);
    } else if zeros == 2 && b[0] <= 3 {
      var z := if b[0] == 0 then 1 else 0;
      EscapeIsEscaped(b[1..], z);
      var tail := Escape(b[1..], z);
      EscapedAfter(if b[0] == 0 then [] else [b[0]], z, tail);
      var s := Zeros(2) + [3] + ([b[0]] + tail);
      assert Zeros(zeros) + Escape(b, zeros) == s;
      assert [b[0]] + tail == (if b[0] == 0 then [] else [b[0]]) + (Zeros(z) + tail);
      EscapedPrepend(Zeros(2) + [3], [b[0]] + tail);
    } else {
      var z := if b[0] == 0 then zeros + 1 else 0;
      EscapeIsEscaped(b[1..], z);
      var tail := Escape(b[1..], z);
      if b[0] == 0 {
        assert Zeros(zeros) + ([b[0]] + tail) == Zeros(z) + tail;
      } else {
        EscapedAfter([b[0]], 0, tail);
        assert [b[0]] + (Zeros(0) + tail) == [b[0]] + tail;
        EscapedZerosThen(zeros, b[0], tail);
      }
    }
  }

  /** Nothing forbidden begins before a byte that is not zero. */
  lemma EscapedAfter(first: Bytes, z: nat, tail: Bytes)
    requires Escaped(Zeros(z) + tail) && |first| <= 1 && (first != [] ==> first[0] != 0)
    ensures Escaped(first + (Zeros(z) + tail))
  {
    var t := Zeros(z) + tail;
    assert forall i :: 0 <= i < |t| ==> (first + t)[|first| + i] == t[i];
  }

  lemma EscapedPrepend(head: Bytes, t: Bytes)
    requires head == Zeros(2) + [3] && Escaped(t)
    ensures Escaped(head + t)
  {
    assert forall i :: 0 <= i < |t| ==> (head + t)[3 + i] == t[i];
  }

  lemma EscapedZerosThen(zeros: nat, c: byte, tail: Bytes)
    requires zeros <= 2 && c != 0 && (zeros == 2 ==> c > 3) && Escaped([c] + tail)
    ensures Escaped(Zeros(zeros) + ([c] + tail))
  {
    var t := [c] + tail;
    var s := Zeros(zeros) + t;
    forall i | 0 <= i < |s| - 2 ensures !(s[i] == 0 && s[i + 1] == 0 && s[i + 2] <= 2) {
      assert s[zeros] == c;
      if i >= zeros {
        assert s[i] == t[i - zeros] && s[i + 1] == t[i - zeros + 1] && s[i + 2] == t[i - zeros + 2];
      }
    }
  }

  // ---------- SEI messages ----------

  datatype Message = Message(kind: nat, payload: Bytes)

  /** A type or size: 255 as often as it goes, then the rest. */
  function RunCode(n: nat): Bytes
  {
    if n >= 255 then [255] + RunCode(n - 255) else [n]
  }

  function MessageBytes(m: Message): Bytes { RunCode(m.kind) + RunCode(|m.payload|) + m.payload }

  const STOP: Bytes := [0x80]

  /** The messages and the stop bit. */
  function SeiBytes(ms: seq<Message>): Bytes
  {
    if ms == [] then STOP else MessageBytes(ms[0]) + SeiBytes(ms[1..])
  }

  datatype Field = Cut | Field(value: nat, rest: Bytes)

  /** One run-coded number at the front of the bytes. */
  function ReadRun(s: Bytes): (f: Field)
    ensures f.Field? ==> |f.rest| < |s|
  {
    if s == [] then Cut
    else if s[0] == 255 then
      match ReadRun(s[1..])
      case Cut => Cut
      case Field(value, rest) => Field(255 + value, rest)
    else Field(s[0], s[1..])
  }

  const UUID: Bytes := [0x8d, 0x64, 0x6b, 0x4e, 0x55, 0x6f, 0x4a, 0x90, 0x8b, 0x7c, 0x35, 0xe6, 0x29, 0x51, 0x03, 0x21]

  /** User data carrying the project's identifier. */
  predicate IsTelemetry(m: Message) { m.kind == 5 && |m.payload| >= 16 && m.payload[..16] == UUID }

  function Records(ms: seq<Message>): seq<Bytes>
  {
    if ms == [] then [] else (if IsTelemetry(ms[0]) then [ms[0].payload[16..]] else []) + Records(ms[1..])
  }

  /** The extractor's walk over the messages; a message that is cut ends it. */
  function Walk(s: Bytes): seq<Bytes>
    decreases |s|
  {
    if s == [] || s == STOP then []
    else
      match ReadRun(s)
      case Cut => []
      case Field(kind, s1) =>
        match ReadRun(s1)
        case Cut => []
        case Field(size, s2) =>
          if size > |s2| then []
          else
            var m := Message(kind, s2[..size]);
            (if IsTelemetry(m) then [m.payload[16..]] else []) + Walk(s2[size..])
  }

  lemma {:induction false} RunReads(n: nat, rest: Bytes)
    ensures ReadRun(RunCode(n) + rest) == Field(n, rest)
  {
    var s := RunCode(n) + rest;
    if n >= 255 {
      assert s[1..] == RunCode(n - 255) + rest;
      RunReads(n - 255, rest);
    } else {
      assert s[1..] == rest;
    }
  }

  lemma {:induction false} RunLength(n: nat)
    ensures |RunCode(n)| >= 1
  {
  }

  /** Walking coded messages recovers every telemetry record, in order. */
  lemma {:induction false} WalkReads(ms: seq<Message>)
    ensures Walk(SeiBytes(ms)) == Records(ms)
  {
    hide RunCode, ReadRun, IsTelemetry;
    if ms != [] {
      var m, tail := ms[0], SeiBytes(ms[1..]);
      var s := SeiBytes(ms);
      RunLength(m.kind);
      RunLength(|m.payload|);
      var s1 := RunCode(|m.payload|) + (m.payload + tail);
      assert s == RunCode(m.kind) + s1;
      RunReads(m.kind, s1);
      RunReads(|m.payload|, m.payload + tail);
      assert |s| >= 2;
      assert (m.payload + tail)[..|m.payload|] == m.payload && (m.payload + tail)[|m.payload|..] == tail;
      WalkReads(ms[1..]);
    }
  }

  // ---------- one NAL unit ----------

  datatype Codec = H264 | H265

  function HeaderLength(codec: Codec): nat { if codec.H265? then 2 else 1 }

  /** The unit type: five bits of the first byte, or the six above its lowest in H.265. */
  predicate IsSei(nal: Bytes, codec: Codec)
    requires nal != []
  {
    if codec.H265? then (nal[0] / 2) % 64 in {39, 40} else nal[0] % 32 == 6
  }

  /** telemetry(), up to the bytes handed to the JSON decoder. */
  function Telemetry(nal: Bytes, codec: Codec): seq<Bytes>
  {
    if nal == [] || !IsSei(nal, codec) then []
    else Walk(Unescape(nal[if HeaderLength(codec) <= |nal| then HeaderLength(codec) else |nal|..], 0))
  }

  /** An SEI unit as an encoder writes it. */
  function SeiUnit(header: Bytes, ms: seq<Message>): Bytes { header + Escape(SeiBytes(ms), 0) }

  predicate GoodHeader(header: Bytes, codec: Codec)
  {
    |header| == HeaderLength(codec) && IsSei(header, codec) && header[|header| - 1] != 0
  }

  /** Extraction inverts coding and escaping, for every list of messages. */
  lemma TelemetryInverts(header: Bytes, ms: seq<Message>, codec: Codec)
    requires GoodHeader(header, codec)
    ensures Telemetry(SeiUnit(header, ms), codec) == Records(ms)
  {
    hide Walk, Escape, Unescape, SeiBytes, Records;
    var nal := SeiUnit(header, ms);
    assert nal[|header|..] == Escape(SeiBytes(ms), 0);
    UnescapeEscape(SeiBytes(ms), 0);
    WalkReads(ms);
  }

  // ---------- what is telemetry, byte by byte ----------

  /** The sixteen bytes that identify the project's user data. */
  const IDENTIFIER: Bytes := [141, 100, 107, 78, 85, 111, 74, 144, 139, 124, 53, 230, 41, 81, 3, 33]

  /** A message yields its data exactly if it is of type 5 and begins with the identifier. */
  lemma RecordOf(m: Message, data: Bytes)
    ensures Records([m]) == [data] <==> m.kind == 5 && m.payload == IDENTIFIER + data
    ensures Records([m]) == [] <==> m.kind != 5 || !(IDENTIFIER <= m.payload)
  {
    assert [m][1..] == [];
    assert Records([m]) == if IsTelemetry(m) then [m.payload[16..]] else [];
    if IsTelemetry(m) {
      assert m.payload == m.payload[..16] + m.payload[16..];
    }
    if m.payload == IDENTIFIER + data { assert m.payload[..16] == IDENTIFIER && m.payload[16..] == data; }
  }

  lemma {:induction false} RecordsConcat(a: seq<Message>, b: seq<Message>)
    ensures Records(a + b) == Records(a) + Records(b)
  {
    if a == [] {
      assert a + b == b;
    } else {
      assert (a + b)[1..] == a[1..] + b && (a + b)[0] == a[0];
      RecordsConcat(a[1..], b);
    }
  }

  /** The header bytes of an SEI unit: type 6 in the low five bits, or 39 or 40 above the lowest bit of two bytes. */
  predicate SeiHeader(header: Bytes, codec: Codec)
  {
    match codec
    case H264 => |header| == 1 && header[0] % 32 == 6
    case H265 => |header| == 2 && (header[0] / 2 % 64 == 39 || header[0] / 2 % 64 == 40) && header[1] != 0
  }

  /** Data behind the identifier, in a message of type 5 among any others in a coded SEI unit, comes out whole, after
      what the messages before it give and before what those after it give. */
  lemma DataComesOut(header: Bytes, before: seq<Message>, data: Bytes, after: seq<Message>, codec: Codec)
    requires SeiHeader(header, codec)
    ensures Telemetry(SeiUnit(header, before + [Message(5, IDENTIFIER + data)] + after), codec)
         == Records(before) + [data] + Records(after)
  {
    hide Telemetry, SeiUnit, Records, IsTelemetry;
    var m := Message(5, IDENTIFIER + data);
    TelemetryInverts(header, before + [m] + after, codec);
    RecordsConcat(before + [m], after);
    RecordsConcat(before, [m]);
    RecordOf(m, data);
  }

  /** The type and size code in closed form: a byte 255 for every whole 255, and the rest. */
  lemma {:induction false} RunForm(n: nat)
    ensures RunCode(n) == seq(n / 255, i => 255 as byte) + [n % 255]
  {
    if n >= 255 {
      RunForm(n - 255);
      assert n / 255 == (n - 255) / 255 + 1 && n % 255 == (n - 255) % 255;
      var rest := seq((n - 255) / 255, i => 255 as byte);
      assert [255 as byte] + rest == seq(n / 255, i => 255 as byte);
      assert [255 as byte] + (rest + [n % 255]) == ([255 as byte] + rest) + [n % 255];
    } else {
      assert seq(n / 255, i => 255 as byte) == [];
    }
  }

  // ---------- the loops ----------

  /** The byte loop that fills `rbsp` while counting zeros. */
  method Rbsp(nal: Bytes, header: nat) returns (rbsp: Bytes)
    requires header <= |nal|
    ensures rbsp == Unescape(nal[header..], 0)
  {
    hide Unescape;
    rbsp := [];
    var zeros := 0;
    for i := header to |nal|
      invariant Unescape(nal[header..], 0) == rbsp + Unescape(nal[i..], zeros)
    {
      UnescapeStep(nal[i..], zeros);
      assert nal[i..][1..] == nal[i + 1..];
      if zeros == 2 && nal[i] == 3 {
        zeros := 0;
      } else {
        zeros := if nal[i] == 0 then zeros + 1 else 0;
        ghost var later := Unescape(nal[i + 1..], zeros);
        assert rbsp + ([nal[i]] + later) == (rbsp + [nal[i]]) + later;
        rbsp := rbsp + [nal[i]];
      }
    }
    UnescapeNone(zeros);
    assert nal[|nal|..] == [];
  }

  lemma UnescapeStep(s: Bytes, zeros: nat)
    requires s != []
    ensures Unescape(s, zeros) == if zeros == 2 && s[0] == 3 then Unescape(s[1..], 0)
                                  else [s[0]] + Unescape(s[1..], if s[0] == 0 then zeros + 1 else 0)
  {
  }

  lemma UnescapeNone(zeros: nat)
    ensures Unescape([], zeros) == []
  {
  }

  /** One run-coded number at an offset; `cut` if the bytes end inside it. */
  method ReadRunAt(rbsp: Bytes, at: nat) returns (cut: bool, value: nat, offset: nat)
    requires at <= |rbsp|
    ensures cut <==> ReadRun(rbsp[at..]).Cut?
    ensures !cut ==> at < offset <= |rbsp| && ReadRun(rbsp[at..]) == Field(value, rbsp[offset..])
  {
    value, offset := 0, at;
    while offset < |rbsp| && rbsp[offset] == 255
      invariant at <= offset <= |rbsp|
      invariant ReadRun(rbsp[at..]) == match ReadRun(rbsp[offset..])
                                       case Cut => Cut
                                       case Field(v, rest) => Field(value + v, rest)
    {
      assert rbsp[offset..][1..] == rbsp[offset + 1..];
      value := value + 255;
      offset := offset + 1;
    }
    if offset == |rbsp| { return true, 0, offset; }
    assert rbsp[offset..][1..] == rbsp[offset + 1..];
    cut := false;
    value := value + rbsp[offset];
    offset := offset + 1;
  }

  /** telemetry() */
  method ReadTelemetry(nal: Bytes, codec: Codec) returns (records: seq<Bytes>)
    ensures records == Telemetry(nal, codec)
  {
    hide Unescape, ReadRun, IsTelemetry, Walk, IsSei;
    records := [];
    if nal == [] || !IsSei(nal, codec) { return; }
    var rbsp := Rbsp(nal, if HeaderLength(codec) <= |nal| then HeaderLength(codec) else |nal|);
    var offset := 0;
    assert rbsp[0..] == rbsp;
    while offset < |rbsp| && rbsp[offset..] != STOP
      invariant offset <= |rbsp|
      invariant Walk(rbsp) == records + Walk(rbsp[offset..])
    {
      WalkStep(rbsp[offset..]);
      var cut, kind, next := ReadRunAt(rbsp, offset);
      if cut { return; }
      var size;
      ghost var s := rbsp[offset..];
      cut, size, offset := ReadRunAt(rbsp, next);
      if cut { return; }
      ghost var s2 := rbsp[offset..];
      if offset + size > |rbsp| { return; }
      var m := Message(kind, rbsp[offset..offset + size]);
      assert s2[..size] == m.payload && s2[size..] == rbsp[offset + size..];
      if IsTelemetry(m) { records := records + [Data(m)]; }
      offset := offset + size;
    }
    NothingToWalk(rbsp[offset..]);
  }

  lemma NothingToWalk(s: Bytes)
    requires s == [] || s == STOP
    ensures Walk(s) == []
  {
  }

  lemma WalkStep(s: Bytes)
    requires s != [] && s != STOP
    ensures Walk(s) == match ReadRun(s)
                       case Cut => []
                       case Field(kind, s1) =>
                         match ReadRun(s1)
                         case Cut => []
                         case Field(size, s2) =>
                           if size > |s2| then []
                           else var m := Message(kind, s2[..size]);
                                (if IsTelemetry(m) then [Data(m)] else []) + Walk(s2[size..])
  {
    hide ReadRun;
  }

  /** What follows the identifier. */
  function Data(m: Message): Bytes
    requires IsTelemetry(m)
  {
    m.payload[16..]
  }

  // ---------- from the bytes of a stream to its records ----------

  /** What a stream carries: SEI units with their messages, and any other units. */
  datatype Carried = Sei(header: Bytes, messages: seq<Message>) | Other(unit: Bytes)

  function UnitFor(c: Carried): Bytes
  {
    match c
    case Sei(header, ms) => SeiUnit(header, ms)
    case Other(unit) => unit
  }

  predicate GoodCarried(c: Carried, codec: Codec)
  {
    match c
    case Sei(header, _) => GoodHeader(header, codec)
    case Other(unit) => IsUnit(unit) && !IsSei(unit, codec)
  }

  function AllRecords(cs: seq<Carried>): seq<Bytes>
  {
    if cs == [] then [] else (if cs[0].Sei? then Records(cs[0].messages) else []) + AllRecords(cs[1..])
  }

  function AllTelemetry(units: seq<Bytes>, codec: Codec): seq<Bytes>
  {
    if units == [] then [] else Telemetry(units[0], codec) + AllTelemetry(units[1..], codec)
  }

  /** The stream of these units, each after its own number of zero bytes. */
  function Placements(cs: seq<Carried>, zeros: seq<nat>): seq<Placed>
    requires |cs| == |zeros|
  {
    seq(|cs|, i requires 0 <= i < |cs| => Placed(zeros[i], UnitFor(cs[i])))
  }

  lemma {:induction false} EscapeEnds(b: Bytes, zeros: nat)
    requires b != []
    ensures Escape(b, zeros) != [] && Escape(b, zeros)[|Escape(b, zeros)| - 1] == b[|b| - 1]
  {
    if |b| > 1 {
      EscapeEnds(b[1..], if b[0] != 0 then 0 else if zeros == 2 then 1 else zeros + 1);
    }
  }

  lemma {:induction false} SeiEnds(ms: seq<Message>)
    ensures SeiBytes(ms) != [] && SeiBytes(ms)[|SeiBytes(ms)| - 1] == 0x80
  {
    hide MessageBytes;
    if ms != [] { SeiEnds(ms[1..]); }
  }

  /** A coded SEI unit is a unit the splitter gives back whole. */
  lemma SeiIsUnit(header: Bytes, ms: seq<Message>, codec: Codec)
    requires GoodHeader(header, codec)
    ensures IsUnit(SeiUnit(header, ms))
  {
    hide Escape, SeiBytes, Escaped, IsSei, IsUnit;
    SeiEnds(ms);
    EscapeEnds(SeiBytes(ms), 0);
    EscapeIsEscaped(SeiBytes(ms), 0);
    HeaderAndBytes(header, Escape(SeiBytes(ms), 0));
  }

  lemma HeaderAndBytes(header: Bytes, e: Bytes)
    requires 1 <= |header| <= 2 && header[|header| - 1] != 0
    requires e != [] && e[|e| - 1] != 0 && Escaped(Zeros(0) + e)
    ensures IsUnit(header + e)
  {
    hide Escaped;
    NoZeros(e);
    HeaderThenEscaped(header, e);
    LastOfConcat(header, e);
  }

  lemma NoZeros(e: Bytes)
    ensures Zeros(0) + e == e
  {
  }

  lemma LastOfConcat(a: Bytes, b: Bytes)
    requires b != []
    ensures (a + b)[|a + b| - 1] == b[|b| - 1]
  {
  }

  lemma HeaderThenEscaped(header: Bytes, e: Bytes)
    requires 1 <= |header| <= 2 && header[|header| - 1] != 0 && Escaped(e)
    ensures Escaped(header + e)
  {
    var u, n := header + e, |header|;
    forall i | 0 <= i < |u| - 2 ensures !(u[i] == 0 && u[i + 1] == 0 && u[i + 2] <= 2) {
      assert u[n - 1] != 0;
      if i >= n { assert u[i] == e[i - n] && u[i + 1] == e[i - n + 1] && u[i + 2] == e[i - n + 2]; }
    }
  }

  /** Whatever the chunks and the zero bytes between units, the records of a stream come out exactly and in order. */
  lemma StreamInverts(cs: seq<Carried>, zeros: seq<nat>, codec: Codec)
    requires |cs| == |zeros| && forall i :: 0 <= i < |cs| ==> GoodCarried(cs[i], codec)
    ensures AllTelemetry(NalUnits(Joined(Placements(cs, zeros))), codec) == AllRecords(cs)
  {
    hide IsUnit, GoodHeader, NalUnits, Joined, SeiUnit, AllTelemetry, AllRecords;
    var ps := Placements(cs, zeros);
    forall i | 0 <= i < |ps| ensures IsUnit(ps[i].unit) {
      if cs[i].Sei? { SeiIsUnit(cs[i].header, cs[i].messages, codec); }
    }
    SplitJoined(ps);
    EachInverts(cs, zeros, codec);
  }

  lemma {:induction false} EachInverts(cs: seq<Carried>, zeros: seq<nat>, codec: Codec)
    requires |cs| == |zeros| && forall i :: 0 <= i < |cs| ==> GoodCarried(cs[i], codec)
    ensures AllTelemetry(UnitsOf(Placements(cs, zeros)), codec) == AllRecords(cs)
  {
    hide IsUnit, GoodHeader, SeiUnit, Records, Walk, Unescape, IsSei;
    if cs != [] {
      var ps := Placements(cs, zeros);
      assert ps[1..] == Placements(cs[1..], zeros[1..]);
      EachInverts(cs[1..], zeros[1..], codec);
      var u, more := ps[0].unit, UnitsOf(ps[1..]);
      assert ([u] + more)[1..] == more;
      assert GoodCarried(cs[0], codec);
      if cs[0].Sei? { TelemetryInverts(cs[0].header, cs[0].messages, codec); }
    }
  }

  /** The program's main loop on a stream read in chunks. */
  method Extract(chunks: seq<Bytes>, codec: Codec) returns (records: seq<Bytes>)
    requires forall i :: 0 <= i < |chunks| ==> chunks[i] != []
    ensures records == AllTelemetry(NalUnits(Concat(chunks)), codec)
  {
    hide Telemetry, NalUnits;
    var units := Nals(chunks);
    records := [];
    assert units[0..] == units;
    for i := 0 to |units|
      invariant AllTelemetry(units, codec) == records + AllTelemetry(units[i..], codec)
    {
      assert units[i..][1..] == units[i + 1..];
      var found := ReadTelemetry(units[i], codec);
      ghost var later := AllTelemetry(units[i + 1..], codec);
      assert records + (found + later) == (records + found) + later;
      records := records + found;
    }
  }
}
