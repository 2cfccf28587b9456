/** The loader's line buffer: C strings in one character array, cut in place. */
module LineBuffer {
  import opened Ini

  const NUL: char := '\0'

  /** From index p the buffer holds the C string s: its characters, then a NUL. */
  predicate HoldsAt(buffer: seq<char>, p: nat, s: string)
  {
    p + |s| < |buffer| && buffer[p..p + |s|] == s && NUL !in s && buffer[p + |s|] == NUL
  }

  /** Nothing outside [lo, hi) changed. */
  predicate OnlyWithin(before: seq<char>, after: seq<char>, lo: nat, hi: nat)
  {
    |before| == |after| && forall i :: 0 <= i < |before| && !(lo <= i < hi) ==> after[i] == before[i]
  }

  lemma HoldsChars(buffer: seq<char>, p: nat, s: string)
    requires HoldsAt(buffer, p, s)
    ensures forall i :: 0 <= i < |s| ==> buffer[p + i] == s[i]
  {
    forall i | 0 <= i < |s| ensures buffer[p + i] == s[i] { assert buffer[p..p + |s|][i] == s[i]; }
  }

  lemma CharsHold(buffer: seq<char>, p: nat, s: string)
    requires p + |s| < |buffer| && buffer[p + |s|] == NUL && NUL !in s
    requires forall i :: 0 <= i < |s| ==> buffer[p + i] == s[i]
    ensures HoldsAt(buffer, p, s)
  {
    assert buffer[p..p + |s|] == s;
  }

  lemma HoldsKept(before: seq<char>, after: seq<char>, p: nat, s: string, lo: nat, hi: nat)
    requires HoldsAt(before, p, s) && OnlyWithin(before, after, lo, hi)
    requires p + |s| < lo || hi <= p
    ensures HoldsAt(after, p, s)
  {
    HoldsChars(before, p, s);
    CharsHold(after, p, s);
  }

  /** The string behind a pointer. */
  method Read(buffer: array<char>, p: nat, ghost s: string) returns (r: string)
    requires HoldsAt(buffer[..], p, s)
    ensures r == s
  {
    HoldsChars(buffer[..], p, s);
    r := "";
    while buffer[p + |r|] != NUL
      invariant |r| <= |s| && r == s[..|r|]
      decreases |s| - |r|
    {
      assert |r| < |s|;
      r := r + [buffer[p + |r|]];
    }
  }

  /** strchr(): the distance to the first c, or to the end. */
  method StrChr(buffer: array<char>, p: nat, c: char, ghost s: string) returns (n: nat)
    requires HoldsAt(buffer[..], p, s)
    ensures n == Find(s, c)
  {
    HoldsChars(buffer[..], p, s);
    n := 0;
    while buffer[p + n] != NUL && buffer[p + n] != c
      invariant n <= |s| && c !in s[..n]
      decreases |s| - n
    {
      assert n < |s|;
      assert s[..n + 1] == s[..n] + [s[n]];
      n := n + 1;
    }
    FindIs(s, c, n);
  }

  /** trim(): cuts the white space after the text by writing a NUL over it, and returns
      a pointer past the white space before it. */
  method TrimInPlace(buffer: array<char>, p: nat, ghost s: string) returns (text: nat)
    requires HoldsAt(buffer[..], p, s)
    modifies buffer
    ensures p <= text && text + |Trim(s)| <= p + |s| && HoldsAt(buffer[..], text, Trim(s))
    ensures OnlyWithin(old(buffer[..]), buffer[..], p, p + |s|)
  {
    hide TrimLeft, TrimRight;
    text := SkipSpaces(buffer, p, s);
    CutSpaces(buffer, text, TrimLeft(s));
  }

  method SkipSpaces(buffer: array<char>, p: nat, ghost s: string) returns (text: nat)
    requires HoldsAt(buffer[..], p, s)
    ensures p <= text && text + |TrimLeft(s)| == p + |s| && HoldsAt(buffer[..], text, TrimLeft(s))
  {
    hide AllSpace;
    HoldsChars(buffer[..], p, s);
    Spaces();
    text := p;
    assert s[..text - p] == "";
    while IsSpace(buffer[text])
      invariant p <= text <= p + |s| && AllSpace(s[..text - p])
      decreases p + |s| - text
    {
      assert text < p + |s|;
      SpaceCons(buffer[text], s[..text - p]);
      assert s[..text - p + 1] == s[..text - p] + [s[text - p]];
      text := text + 1;
    }
    LeadingUnique(s, text - p);
    HoldsFrom(buffer[..], p, s, text - p);
  }

  method CutSpaces(buffer: array<char>, p: nat, ghost t: string)
    requires HoldsAt(buffer[..], p, t)
    modifies buffer
    ensures |TrimRight(t)| <= |t| && HoldsAt(buffer[..], p, TrimRight(t))
    ensures OnlyWithin(old(buffer[..]), buffer[..], p, p + |t|)
  {
    var end := KeptEnd(buffer, p, t);
    ghost var before := buffer[..];
    buffer[end] := NUL;
    CutEnd(before, buffer[..], p, t, end - p);
  }

  method KeptEnd(buffer: array<char>, p: nat, ghost t: string) returns (end: nat)
    requires HoldsAt(buffer[..], p, t)
    ensures p <= end <= p + |t| && end < buffer.Length && TrimRight(t) == t[..end - p]
  {
    hide AllSpace, Find;
    HoldsChars(buffer[..], p, t);
    var length := StrChr(buffer, p, NUL, t);
    FindNone(t, NUL);
    Spaces();
    end := p + length;
    assert t[end - p..] == "";
    while end > p && IsSpace(buffer[end - 1])
      invariant p <= end <= p + |t| && AllSpace(t[end - p..])
    {
      SpaceCons(buffer[end - 1], t[end - p..]);
      assert t[end - 1 - p..] == [t[end - 1 - p]] + t[end - p..];
      end := end - 1;
    }
    KeptUnique(t, end - p);
  }

  lemma CutEnd(before: seq<char>, after: seq<char>, p: nat, t: string, n: nat)
    requires HoldsAt(before, p, t) && n <= |t| && after == before[p + n := NUL]
    ensures HoldsAt(after, p, t[..n]) && OnlyWithin(before, after, p, p + |t|)
  {
    HoldsChars(before, p, t);
    CharsHold(after, p, t[..n]);
  }

  lemma HoldsFrom(buffer: seq<char>, p: nat, s: string, n: nat)
    requires HoldsAt(buffer, p, s) && n <= |s|
    ensures HoldsAt(buffer, p + n, s[n..])
  {
    HoldsChars(buffer, p, s);
    CharsHold(buffer, p + n, s[n..]);
  }

  lemma FindNone(s: string, c: char)
    requires c !in s
    ensures Find(s, c) == |s|
  {
  }

  /** Writing a NUL over one character leaves the strings before and after it. */
  lemma CutString(before: seq<char>, after: seq<char>, p: nat, s: string, n: nat)
    requires HoldsAt(before, p, s) && n < |s| && after == before[p + n := NUL]
    ensures HoldsAt(after, p, s[..n]) && HoldsAt(after, p + n + 1, s[n + 1..])
  {
    HoldsChars(before, p, s);
    CharsHold(after, p, s[..n]);
    CharsHold(after, p + n + 1, s[n + 1..]);
  }

  /** What the loader makes of a line: the value is handed on without its quotes. */
  function Scanned(line: string, section: string): Item
  {
    match Classify(line)
    case Entry(key, raw) => Entry(key, Unquote(section, raw))
    case item => item
  }

  /** The loader's pointer work on one line. */
  method ScanLine(buffer: array<char>, ghost line: string, section: string) returns (item: Item)
    requires HoldsAt(buffer[..], 0, line)
    modifies buffer
    ensures item == Scanned(line, section)
  {
    hide HoldsAt, OnlyWithin, TrimLeft, TrimRight;
    var text := TrimInPlace(buffer, 0, line);
    ghost var t := Trim(line);
    var first := First(buffer, text, t);
    if first == NUL || first == '#' || first == ';' {
      return Skip;
    }
    if first == '[' {
      item := ScanHeader(buffer, text, t);
      return;
    }
    item := ScanEntry(buffer, text, t, section);
  }

  method First(buffer: array<char>, p: nat, ghost s: string) returns (c: char)
    requires HoldsAt(buffer[..], p, s)
    ensures c == if s == "" then NUL else s[0]
    ensures c == NUL <==> s == ""
  {
    HoldsChars(buffer[..], p, s);
    c := buffer[p];
    assert s != "" ==> s[0] in s;
  }

  method ScanHeader(buffer: array<char>, text: nat, ghost t: string) returns (item: Item)
    requires HoldsAt(buffer[..], text, t) && t != "" && t[0] == '['
    modifies buffer
    ensures item == var c := Find(t[1..], ']');
                    if c == |t| - 1 then OpenHeader else Header(Trim(t[1..1 + c]), Trim(t[c + 2..]))
  {
    hide Trim, Find, HoldsAt, OnlyWithin;
    ghost var inner := t[1..];
    HoldsFrom(buffer[..], text, t, 1);
    var close := StrChr(buffer, text + 1, ']', inner);
    HoldsCut(buffer[..], text + 1, inner, close);
    if buffer[text + 1 + close] == NUL {
      return OpenHeader;
    }
    ghost var b0 := buffer[..];
    buffer[text + 1 + close] := NUL;
    CutString(b0, buffer[..], text + 1, inner, close);
    ghost var b1 := buffer[..];
    var tailAt := TrimInPlace(buffer, text + 1 + close + 1, inner[close + 1..]);
    var tail := Read(buffer, tailAt, Trim(inner[close + 1..]));
    HoldsKept(b1, buffer[..], text + 1, inner[..close], text + 1 + close + 1, text + 1 + |inner|);
    var nameAt := TrimInPlace(buffer, text + 1, inner[..close]);
    var name := Read(buffer, nameAt, Trim(inner[..close]));
    assert inner[close + 1..] == t[close + 2..] && inner[..close] == t[1..1 + close];
    item := Header(name, tail);
  }

  /** A found character is inside the string, a missing one is at its NUL. */
  lemma HoldsCut(buffer: seq<char>, p: nat, s: string, n: nat)
    requires HoldsAt(buffer, p, s) && n <= |s|
    ensures p + n < |buffer|
    ensures buffer[p + n] == NUL <==> n == |s|
  {
    HoldsChars(buffer, p, s);
    assert n < |s| ==> s[n] in s;
  }

  method ScanEntry(buffer: array<char>, text: nat, ghost t: string, section: string) returns (item: Item)
    requires HoldsAt(buffer[..], text, t)
    modifies buffer
    ensures item == var e := Find(t, '=');
                    if e == |t| then Junk else Entry(Trim(t[..e]), Unquote(section, Trim(t[e + 1..])))
  {
    hide Trim, Find;
    hide HoldsAt, OnlyWithin;
    var equals := StrChr(buffer, text, '=', t);
    HoldsCut(buffer[..], text, t, equals);
    if buffer[text + equals] == NUL {
      return Junk;
    }
    ghost var b0 := buffer[..];
    buffer[text + equals] := NUL;
    CutString(b0, buffer[..], text, t, equals);
    ghost var b1 := buffer[..];
    ghost var k, rest := t[..equals], t[equals + 1..];
    var keyAt := TrimInPlace(buffer, text, k);
    HoldsKept(b1, buffer[..], text + equals + 1, rest, text, text + |k|);
    var key := Read(buffer, keyAt, Trim(k));
    var valueAt := TrimInPlace(buffer, text + equals + 1, rest);
    var value := ScanValue(buffer, valueAt, Trim(rest), section);
    item := Entry(key, value);
  }

  method ScanValue(buffer: array<char>, at: nat, ghost v: string, section: string) returns (value: string)
    requires HoldsAt(buffer[..], at, v)
    modifies buffer
    ensures value == Unquote(section, v)
  {
    hide Trim, Find;
    var length := StrChr(buffer, at, NUL, v);
    FindNone(v, NUL);
    HoldsChars(buffer[..], at, v);
    HoldsBounds(buffer[..], at, v);
    if length >= 2 && buffer[at] == QUOTE && buffer[at + length - 1] == QUOTE {
      ghost var b0 := buffer[..];
      assert buffer[at] == v[0];
      buffer[at + length - 1] := NUL;
      CutString(b0, buffer[..], at, v, length - 1);
      HoldsFrom(buffer[..], at, v[..length - 1], 1);
      ghost var inner := v[..length - 1][1..];
      assert inner == v[1..length - 1];
      var from := at + 1;
      if section != SUPPORT {
        from := TrimInPlace(buffer, at + 1, inner);
        value := Read(buffer, from, Trim(inner));
      } else {
        value := Read(buffer, from, inner);
      }
    } else {
      assert length >= 2 ==> buffer[at] == v[0];
      value := Read(buffer, at, v);
    }
  }

  lemma HoldsBounds(buffer: seq<char>, p: nat, s: string)
    requires HoldsAt(buffer, p, s)
    ensures p + |s| < |buffer|
  {
  }
}
