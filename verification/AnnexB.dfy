/** The incremental Annex B splitter of the telemetry extractor (Annex B of ITU-T H.264). */
module AnnexB {

  type byte = b: int | 0 <= b < 256

  type Bytes = seq<byte>

  // ---------- start codes ----------

  /** Length of the start code the text begins with, 0 if none: the longer form is tried first. */
  function StartLength(s: Bytes): (n: nat)
    ensures n <= |s| && (n > 0 ==> n >= 3)
  {
    if |s| >= 4 && s[0] == 0 && s[1] == 0 && s[2] == 0 && s[3] == 1 then 4
    else if |s| >= 3 && s[0] == 0 && s[1] == 0 && s[2] == 1 then 3
    else 0
  }

  /** Where the first start code begins, or the length. */
  function FindStart(s: Bytes): (n: nat)
    ensures n <= |s| && (n < |s| ==> StartLength(s[n..]) > 0)
    ensures n == |s| || n + 3 <= |s|
  {
    if s == [] then 0
    else if StartLength(s) > 0 then 0
    else
      var n := FindStart(s[1..]);
      assert s[1..][n..] == s[n + 1..];
      n + 1
  }

  /** rstrip(b"\0") */
  function StripZeros(s: Bytes): Bytes
  {
    if s != [] && s[|s| - 1] == 0 then StripZeros(s[..|s| - 1]) else s
  }

  // ---------- the units of a whole stream ----------

  /** Where the unit that begins this text ends: at the next start code, or the end. */
  function UnitEnd(s: Bytes): (n: nat)
    requires StartLength(s) > 0
    ensures StartLength(s) <= n <= |s|
    ensures n < |s| ==> StartLength(s[n..]) > 0
  {
    var body := s[StartLength(s)..];
    var n := StartLength(s) + FindStart(body);
    assert n < |s| ==> body[FindStart(body)..] == s[n..];
    n
  }

  function UnitBytes(s: Bytes, end: nat): Bytes
    requires StartLength(s) <= end <= |s|
  {
    StripZeros(s[StartLength(s)..end])
  }

  /** The units of a text that begins with a start code. */
  function Units(s: Bytes): seq<Bytes>
    requires StartLength(s) > 0
  {
    var n := UnitEnd(s);
    [UnitBytes(s, n)] + if n < |s| then Units(s[n..]) else []
  }

  /** All units of a stream, read at once. */
  function NalUnits(s: Bytes): seq<Bytes>
  {
    var n := FindStart(s);
    if n == |s| then [] else Units(s[n..])
  }

  // ---------- reading in pieces ----------

  /** The units already closed by a later start code. */
  function Closed(s: Bytes): seq<Bytes>
    requires StartLength(s) > 0
  {
    var n := UnitEnd(s);
    if n < |s| then [UnitBytes(s, n)] + Closed(s[n..]) else []
  }

  /** From the last start code on. */
  function Open(s: Bytes): (r: Bytes)
    requires StartLength(s) > 0
    ensures StartLength(r) > 0 && UnitEnd(r) == |r|
  {
    var n := UnitEnd(s);
    if n < |s| then Open(s[n..]) else s
  }

  /** Bytes that follow change no start code found already. */
  lemma {:induction false} StartStays(p: Bytes, c: Bytes)
    requires FindStart(p) < |p|
    ensures FindStart(p + c) == FindStart(p)
    ensures StartLength(p) > 0 ==> StartLength(p + c) == StartLength(p)
    decreases |p|
  {
    if StartLength(p) == 0 {
      assert (p + c)[1..] == p[1..] + c;
      StartStays(p[1..], c);
    }
  }

  /** Reading on after a start code gives the closed units and then those of the open rest. */
  lemma {:induction false} UnitsGrow(s: Bytes, c: Bytes)
    requires StartLength(s) > 0
    ensures StartLength(s + c) > 0 && StartLength(Open(s) + c) > 0
    ensures Units(s + c) == Closed(s) + Units(Open(s) + c)
    decreases |s|
  {
    hide StartLength, FindStart, UnitEnd, UnitBytes;
    StartsFirst(s);
    StartStays(s, c);
    var n := UnitEnd(s);
    if n < |s| {
      GrownEnd(s, c);
      assert (s + c)[n..] == s[n..] + c;
      UnitsGrow(s[n..], c);
      SameUnit(s, c, n);
      assert Units(s + c) == [UnitBytes(s, n)] + Units(s[n..] + c);
    } else {
      assert Closed(s) == [] && Open(s) == s;
      assert [] + Units(s + c) == Units(s + c);
    }
  }

  lemma SameUnit(s: Bytes, c: Bytes, n: nat)
    requires StartLength(s) > 0 && StartLength(s + c) == StartLength(s) && StartLength(s) <= n <= |s|
    ensures UnitBytes(s + c, n) == UnitBytes(s, n)
  {
    hide StartLength;
    assert (s + c)[StartLength(s)..n] == s[StartLength(s)..n];
  }

  lemma StartsFirst(s: Bytes)
    requires StartLength(s) > 0
    ensures FindStart(s) == 0 && s != [] && s[0..] == s
  {
  }

  lemma GrownEnd(s: Bytes, c: Bytes)
    requires StartLength(s) > 0 && UnitEnd(s) < |s|
    ensures StartLength(s + c) == StartLength(s) && UnitEnd(s + c) == UnitEnd(s)
  {
    hide StartLength, FindStart;
    StartsFirst(s);
    StartStays(s, c);
    var body := s[StartLength(s)..];
    StartStays(body, c);
    assert (s + c)[StartLength(s)..] == body + c;
  }

  /** What a reader may keep of its input: the open rest, or the last four bytes before any start code. */
  function Kept(s: Bytes): Bytes
  {
    var n := FindStart(s);
    if n < |s| then Open(s[n..]) else if |s| > 4 then s[|s| - 4..] else s
  }

  function Yielded(s: Bytes): seq<Bytes>
  {
    var n := FindStart(s);
    if n < |s| then Closed(s[n..]) else []
  }

  /** Four bytes are enough to recognise any start code that is still to be completed. */
  lemma {:induction false} FourAreEnough(p: Bytes, c: Bytes)
    requires FindStart(p) == |p| && |p| >= 4
    ensures NalUnits(p + c) == NalUnits(p[|p| - 4..] + c)
    decreases |p|
  {
    if |p| > 4 {
      var t := p[1..];
      assert (p + c)[1..] == t + c;
      assert FindStart(p + c) == 1 + FindStart(t + c);
      assert forall n :: 0 <= n <= |t + c| ==> (p + c)[n + 1..] == (t + c)[n..];
      FourAreEnough(t, c);
      assert t[|t| - 4..] == p[|p| - 4..];
    } else {
      assert p[|p| - 4..] == p;
    }
  }

  /** One step of the incremental reader loses nothing. */
  lemma ReadOn(p: Bytes, c: Bytes)
    ensures NalUnits(p + c) == Yielded(p) + NalUnits(Kept(p) + c)
  {
    hide StartLength, FindStart, Units, Closed, Open;
    var n := FindStart(p);
    if n < |p| {
      var s := p[n..];
      StartStays(p, c);
      assert (p + c)[n..] == s + c;
      UnitsGrow(s, c);
      StartsFirst(Open(s) + c);
    } else if |p| > 4 {
      FourAreEnough(p, c);
    }
  }

  // ---------- the reader ----------

  function Concat(chunks: seq<Bytes>): Bytes
  {
    if chunks == [] then [] else chunks[0] + Concat(chunks[1..])
  }

  /** One round of the loop: the matches of what is pending, taken two at a time. */
  method Split(pending: Bytes) returns (units: seq<Bytes>, rest: Bytes)
    ensures units == Yielded(pending) && rest == Kept(pending)
  {
    hide StartLength, FindStart, Closed, Open, UnitEnd, UnitBytes;
    units := [];
    var first := FindStart(pending);
    if first == |pending| {
      rest := if |pending| > 4 then pending[|pending| - 4..] else pending;
      return;
    }
    rest := pending[first..];
    while true
      invariant StartLength(rest) > 0
      invariant Yielded(pending) == units + Closed(rest) && Kept(pending) == Open(rest)
      decreases |rest|
    {
      var end := StartLength(rest);
      var next := end + FindStart(rest[end..]);
      ClosedStep(rest);
      if next == |rest| { return; }
      units := units + [StripZeros(rest[end..next])];
      rest := rest[next..];
    }
  }

  lemma ClosedStep(s: Bytes)
    requires StartLength(s) > 0
    ensures var end := StartLength(s);
            var next := end + FindStart(s[end..]);
            if next == |s| then Closed(s) == [] && Open(s) == s
            else StartLength(s[next..]) > 0 && Closed(s) == [StripZeros(s[end..next])] + Closed(s[next..])
                 && Open(s) == Open(s[next..])
  {
    hide StartLength, FindStart;
    assert UnitEnd(s) == StartLength(s) + FindStart(s[StartLength(s)..]);
  }

  /** What is left at the end of the stream holds at most the last unit. */
  lemma KeptUnits(p: Bytes)
    ensures NalUnits(Kept(p))
         == if StartLength(Kept(p)) > 0 then [StripZeros(Kept(p)[StartLength(Kept(p))..])] else []
  {
    hide StartLength, FindStart, Open;
    var n, k := FindStart(p), Kept(p);
    if n < |p| {
      StartsFirst(k);
      assert k[StartLength(k)..|k|] == k[StartLength(k)..];
    } else {
      NoStartInSuffix(p, |p| - |k|);
      assert k == p[|p| - |k|..];
      NoStartAtFront(k);
    }
  }

  lemma NoStartAtFront(s: Bytes)
    requires FindStart(s) == |s|
    ensures StartLength(s) == 0
  {
  }

  lemma {:induction false} NoStartInSuffix(p: Bytes, n: nat)
    requires FindStart(p) == |p| && n <= |p|
    ensures FindStart(p[n..]) == |p| - n
  {
    hide StartLength;
    if n > 0 {
      NoStartInSuffix(p[1..], n - 1);
      assert p[1..][n - 1..] == p[n..];
    } else {
      assert p[0..] == p;
    }
  }

  /** nals(): however the stream is cut into non-empty reads, the units are those of the whole stream. */
  method Nals(chunks: seq<Bytes>) returns (units: seq<Bytes>)
    requires forall i :: 0 <= i < |chunks| ==> chunks[i] != []
    ensures units == NalUnits(Concat(chunks))
  {
    hide NalUnits, Yielded, Kept;
    units := [];
    var pending: Bytes := [];
    var i := 0;
    ghost var whole := NalUnits(Concat(chunks));
    assert [] + Concat(chunks) == Concat(chunks) && chunks[0..] == chunks;
    while true
      invariant 0 <= i <= |chunks|
      invariant whole == units + NalUnits(pending + Concat(chunks[i..]))
      decreases |chunks| - i
    {
      var chunk: Bytes := if i < |chunks| then chunks[i] else [];
      ghost var later := if i < |chunks| then Concat(chunks[i + 1..]) else [];
      assert Concat(chunks[i..]) == chunk + later by {
        if i < |chunks| { assert chunks[i..][1..] == chunks[i + 1..]; } else { assert chunks[i..] == []; }
      }
      assert pending + (chunk + later) == (pending + chunk) + later;
      pending := pending + chunk;
      ghost var before := pending;
      ReadOn(pending, later);
      var found, rest := Split(pending);
      assert units + (found + NalUnits(rest + later)) == (units + found) + NalUnits(rest + later);
      units, pending := units + found, rest;
      if chunk == [] {
        assert rest + later == rest;
        KeptUnits(before);
        if StartLength(pending) > 0 {
          units := units + [StripZeros(pending[StartLength(pending)..])];
        }
        return;
      }
      i := i + 1;
    }
  }

  // ---------- splitting undoes joining ----------

  /** No three bytes that Annex B forbids inside a unit: two zeros and then 0, 1 or 2. */
  predicate Escaped(u: Bytes)
  {
    forall i :: 0 <= i < |u| - 2 ==> !(u[i] == 0 && u[i + 1] == 0 && u[i + 2] <= 2)
  }

  predicate IsUnit(u: Bytes) { u != [] && u[|u| - 1] != 0 && Escaped(u) }

  function Zeros(k: nat): (z: Bytes)
    ensures |z| == k && forall i :: 0 <= i < k ==> z[i] == 0
  {
    seq(k, i => 0)
  }

  /** A unit in a byte stream: any number of zero bytes, a three-byte start code, the unit. */
  datatype Placed = Placed(zeros: nat, unit: Bytes)

  const PREFIX: Bytes := [0, 0, 1]

  /** Zero bytes and a start code before the rest; one zero byte makes the four-byte start code. */
  function Coded(k: nat, rest: Bytes): Bytes { Zeros(k) + PREFIX + rest }

  /** A byte stream as Annex B builds it. */
  function Joined(ps: seq<Placed>): Bytes
  {
    if ps == [] then [] else Coded(ps[0].zeros, ps[0].unit + Joined(ps[1..]))
  }

  function UnitsOf(ps: seq<Placed>): seq<Bytes>
  {
    if ps == [] then [] else [ps[0].unit] + UnitsOf(ps[1..])
  }

  /** The zeros before a four-byte start code. */
  function Extra(k: nat): (n: nat)
    ensures n <= k <= n + 1
  {
    if k == 0 then 0 else k - 1
  }

  /** The search meets the start code at its last optional zero. */
  lemma {:induction false} StartAfterZeros(k: nat, rest: Bytes)
    ensures FindStart(Coded(k, rest)) == Extra(k)
    ensures k <= 1 ==> StartLength(Coded(k, rest)) == 3 + k
  {
    var s := Coded(k, rest);
    if k >= 2 {
      assert StartLength(s) == 0;
      assert s[1..] == Coded(k - 1, rest);
      StartAfterZeros(k - 1, rest);
    }
  }

  /** No start code begins inside a unit. */
  lemma {:induction false} NoStartInside(u: Bytes, t: Bytes)
    requires u == [] || IsUnit(u)
    ensures FindStart(u + t) == |u| + FindStart(t)
  {
    if u == [] {
      assert u + t == t;
    } else {
      var s := u + t;
      assert StartLength(s) == 0 by {
        assert forall i :: 0 <= i < |u| ==> s[i] == u[i];
        assert |u| >= 3 ==> !(u[0] == 0 && u[0 + 1] == 0 && u[0 + 2] <= 2);
      }
      assert s[1..] == u[1..] + t;
      if |u| > 1 {
        assert u[1..][|u| - 2] == u[|u| - 1];
        assert forall i :: 0 <= i < |u[1..]| ==> u[1..][i] == u[i + 1];
      }
      NoStartInside(u[1..], t);
    }
  }

  lemma {:induction false} StripZeroTail(u: Bytes, k: nat)
    requires u != [] && u[|u| - 1] != 0
    ensures StripZeros(u + Zeros(k)) == u
  {
    if k == 0 {
      assert u + Zeros(0) == u;
    } else {
      assert (u + Zeros(k))[..|u + Zeros(k)| - 1] == u + Zeros(k - 1);
      StripZeroTail(u, k - 1);
    }
  }

  lemma CodedDrop(k: nat, rest: Bytes)
    ensures Coded(k, rest) == Zeros(Extra(k)) + Coded(k - Extra(k), rest)
    ensures |Coded(k, rest)| == k + 3 + |rest| && Coded(k, rest)[k + 3..] == rest
  {
    var j := Extra(k);
    assert Zeros(k) == Zeros(j) + Zeros(k - j);
    assert Coded(k, rest)[k + 3..] == rest;
  }

  /** Splitting a joined stream gives exactly the units. */
  lemma SplitJoined(ps: seq<Placed>)
    requires forall i :: 0 <= i < |ps| ==> IsUnit(ps[i].unit)
    ensures NalUnits(Joined(ps)) == UnitsOf(ps)
  {
    if ps != [] {
      hide NalUnits, Units, UnitsOf, IsUnit, Coded, StartLength;
      var k, rest := ps[0].zeros, ps[0].unit + Joined(ps[1..]);
      FirstCoded(k, rest);
      CodedStart(k - Extra(k), rest);
      UnitsJoined(ps, Coded(k - Extra(k), rest));
    }
  }

  lemma CodedStart(k: nat, rest: Bytes)
    requires k <= 1
    ensures StartLength(Coded(k, rest)) == 3 + k && Coded(k, rest)[StartLength(Coded(k, rest))..] == rest
  {
    hide Coded, Zeros;
    StartAfterZeros(k, rest);
    CodedDrop(k, rest);
  }

  /** Zero bytes before the first start code do not matter. */
  lemma FirstCoded(k: nat, rest: Bytes)
    ensures StartLength(Coded(k - Extra(k), rest)) > 0
    ensures NalUnits(Coded(k, rest)) == Units(Coded(k - Extra(k), rest))
  {
    hide StartLength, FindStart, Units, Coded, Extra;
    StartAfterZeros(k, rest);
    StartAfterZeros(k - Extra(k), rest);
    CodedDrop(k, rest);
    CutAt(Coded(k, rest), 0, Zeros(Extra(k)), Coded(k - Extra(k), rest));
  }

  lemma CutAt(s: Bytes, l: nat, a: Bytes, b: Bytes)
    requires l <= |s| && s[l..] == a + b
    ensures l + |a| <= |s| && s[l..l + |a|] == a && s[l + |a|..] == b
  {
    assert s == s[..l] + a + b;
  }

  /** A unit ends where the zeros of the next start code begin to count. */
  lemma UnitBefore(s: Bytes, u: Bytes, k: nat, rest: Bytes)
    requires StartLength(s) > 0 && s[StartLength(s)..] == u + Coded(k, rest) && IsUnit(u)
    ensures UnitEnd(s) < |s| && UnitBytes(s, UnitEnd(s)) == u
    ensures s[UnitEnd(s)..] == Coded(k - Extra(k), rest)
  {
    hide StartLength, FindStart, StripZeros, IsUnit, Zeros, Coded, Extra;
    var zeros, next := Zeros(Extra(k)), Coded(k - Extra(k), rest);
    NoStartInside(u, Coded(k, rest));
    StartAfterZeros(k, rest);
    CodedDrop(k, rest);
    CodedDrop(k - Extra(k), rest);
    assert u + (zeros + next) == (u + zeros) + next;
    CutAt(s, StartLength(s), u + zeros, next);
    assert UnitEnd(s) == StartLength(s) + |u + zeros|;
    UnitStripped(u, Extra(k));
  }

  lemma {:induction false} UnitsJoined(ps: seq<Placed>, s: Bytes)
    requires ps != [] && forall i :: 0 <= i < |ps| ==> IsUnit(ps[i].unit)
    requires StartLength(s) > 0 && s[StartLength(s)..] == ps[0].unit + Joined(ps[1..])
    ensures Units(s) == UnitsOf(ps)
    decreases |ps|
  {
    hide StartLength, FindStart, IsUnit, StripZeros, UnitBytes, UnitEnd, Coded;
    var u, more := ps[0].unit, ps[1..];
    if more == [] {
      LastUnit(s, u);
    } else {
      var k := more[0].zeros;
      var rest := more[0].unit + Joined(more[1..]);
      UnitBefore(s, u, k, rest);
      var z := k - Extra(k);
      StartAfterZeros(z, rest);
      CodedDrop(z, rest);
      assert forall i :: 0 <= i < |more| ==> more[i] == ps[i + 1];
      UnitsJoined(more, Coded(z, rest));
    }
  }

  lemma LastUnit(s: Bytes, u: Bytes)
    requires StartLength(s) > 0 && s[StartLength(s)..] == u + [] && IsUnit(u)
    ensures Units(s) == [u]
  {
    hide StartLength, FindStart, StripZeros, IsUnit;
    NoStartInside(u, []);
    assert FindStart([]) == 0 by { NoStartInside([], []); }
    assert u + [] == u && u + Zeros(0) == u;
    assert UnitEnd(s) == |s|;
    assert s[StartLength(s)..|s|] == u;
    UnitStripped(u, 0);
  }

  lemma UnitStripped(u: Bytes, k: nat)
    requires IsUnit(u)
    ensures StripZeros(u + Zeros(k)) == u
  {
    hide Escaped;
    StripZeroTail(u, k);
  }
}
