/** Login sessions: the file of "token expiry" lines shared by the web workers. */
module Sessions {
  import opened Ini
  import opened Decimal

  const SESSION_LIFETIME := 24 * 60 * 60
  const MAX_SESSIONS := 16
  const MAX_SESSION_FILE := MAX_SESSIONS * 128

  datatype Session = Session(token: string, expiry: nat)

  predicate LowerHex(c: char) { '0' <= c <= '9' || 'a' <= c <= 'f' }

  /** 64 lower-case hex digits. */
  predicate ValidToken(s: string) { |s| == 64 && forall i :: 0 <= i < |s| ==> LowerHex(s[i]) }

  /** What read_boot_id() accepts, without its newline. */
  predicate ValidBoot(b: string)
  {
    32 <= |b| <= 61 && forall i :: 0 <= i < |b| ==> LowerHex(b[i]) || 'A' <= b[i] <= 'F' || b[i] == '-'
  }

  /** "%x" of one half of a byte. */
  function HexDigit(n: nat): (c: char)
    requires n < 16
    ensures LowerHex(c)
  {
    if n < 10 then '0' + n as char else 'a' + (n - 10) as char
  }

  type byte = b: int | 0 <= b < 256

  /** random_token() on the bytes it has read: "%02x" of each. */
  function TokenText(bytes: seq<byte>): (s: string)
    ensures |s| == 2 * |bytes| && forall i :: 0 <= i < |s| ==> LowerHex(s[i])
  {
    if bytes == [] then "" else [HexDigit(bytes[0] / 16), HexDigit(bytes[0] % 16)] + TokenText(bytes[1..])
  }

  /** The loop, which prints each byte behind the ones before. */
  method RandomToken(bytes: seq<byte>) returns (output: string)
    requires |bytes| == 32
    ensures output == TokenText(bytes) && ValidToken(output)
  {
    output := "";
    assert bytes[0..] == bytes;
    for i := 0 to |bytes|
      invariant TokenText(bytes) == output + TokenText(bytes[i..])
    {
      assert bytes[i..][1..] == bytes[i + 1..];
      var digits := [HexDigit(bytes[i] / 16), HexDigit(bytes[i] % 16)];
      assert output + (digits + TokenText(bytes[i + 1..])) == (output + digits) + TokenText(bytes[i + 1..]);
      output := output + digits;
    }
    assert output + "" == output;
  }

  lemma HexDigitsDiffer(m: nat, n: nat)
    requires m < 16 && n < 16 && HexDigit(m) == HexDigit(n)
    ensures m == n
  {
  }

  /** Different random bytes make different tokens. */
  lemma {:induction false} TokensDiffer(a: seq<byte>, b: seq<byte>)
    requires |a| == |b| && TokenText(a) == TokenText(b)
    ensures a == b
  {
    hide HexDigit;
    if a != [] {
      assert TokenText(a)[0] == TokenText(b)[0] && TokenText(a)[1] == TokenText(b)[1];
      HexDigitsDiffer(a[0] / 16, b[0] / 16);
      HexDigitsDiffer(a[0] % 16, b[0] % 16);
      assert TokenText(a)[2..] == TokenText(a[1..]) && TokenText(b)[2..] == TokenText(b[1..]);
      TokensDiffer(a[1..], b[1..]);
      assert a == [a[0]] + a[1..] && b == [b[0]] + b[1..];
    }
  }

  /** The kernel's boot identity: 36 characters, hex digits but for four dashes. */
  predicate KernelBoot(b: string)
  {
    |b| == 36 && forall i :: 0 <= i < 36 ==> if i in {8, 13, 18, 23} then b[i] == '-' else LowerHex(b[i])
  }

  lemma KernelBootIsValid(b: string)
    requires KernelBoot(b)
    ensures ValidBoot(b)
  {
  }

  predicate GoodEntry(e: Session) { ValidToken(e.token) && e.expiry < ULONG_MODULUS }

  predicate GoodEntries(es: seq<Session>) { forall i :: 0 <= i < |es| ==> GoodEntry(es[i]) }

  // ---------- the file ----------

  function BootLine(boot: string): string { "boot " + boot }

  function EntryLine(e: Session): string { e.token + " " + PrintNat(e.expiry) + "\n" }

  function EntryLines(es: seq<Session>): string
  {
    if es == [] then "" else EntryLine(es[0]) + EntryLines(es[1..])
  }

  /** What store_sessions() writes. */
  function Stored(boot: string, es: seq<Session>): string { BootLine(boot) + "\n" + EntryLines(es) }

  /** How far a store got: done, failed before the file was cut, or failed with this many characters written. */
  datatype Store = Whole | Untouched | Torn(written: nat)

  /** The file after store_sessions() with this text. */
  function Written(before: string, text: string, store: Store): string
  {
    match store
    case Whole => text
    case Untouched => before
    case Torn(k) => if k < |text| then text[..k] else text
  }

  /** One line of the file, if it is an entry that is still good. */
  function ReadEntry(line: string, now: nat): Option<Session>
  {
    var space := Find(line, ' ');
    if space == |line| then None else
    var digits := line[space + 1..];
    if !ValidToken(line[..space]) || digits == "" || !AllDigits(digits) then None else
    var expiry := ParseDigits(digits);
    if expiry >= ULONG_MODULUS || expiry <= now then None else Some(Session(line[..space], expiry))
  }

  /** The entries of the complete lines, at most `capacity` of them. */
  function ReadEntries(text: string, now: nat, capacity: nat): (r: seq<Session>)
    ensures |r| <= capacity
    decreases |text|
  {
    var n := Find(text, '\n');
    if n == |text| || capacity == 0 then []
    else
      match ReadEntry(text[..n], now)
      case None => ReadEntries(text[n + 1..], now, capacity)
      case Some(e) => [e] + ReadEntries(text[n + 1..], now, capacity - 1)
  }

  /** load_sessions() on a file it can read: nothing is trusted from another boot. */
  function Loaded(contents: string, boot: string, now: nat): (r: seq<Session>)
    ensures |r| <= MAX_SESSIONS
  {
    var n := Find(contents, '\n');
    if n == |contents| || contents[..n] != BootLine(boot) then []
    else ReadEntries(contents[n + 1..], now, MAX_SESSIONS)
  }

  function Unexpired(es: seq<Session>, now: nat): seq<Session>
  {
    if es == [] then [] else (if es[0].expiry > now then [es[0]] else []) + Unexpired(es[1..], now)
  }

  // ---------- storing and loading ----------

  /** A stored line reads back as its entry, unless that has expired. */
  lemma EntryReads(e: Session, now: nat)
    requires GoodEntry(e)
    ensures '\n' !in e.token + " " + PrintNat(e.expiry)
    ensures ReadEntry(e.token + " " + PrintNat(e.expiry), now) == if e.expiry > now then Some(e) else None
  {
    var line := e.token + " " + PrintNat(e.expiry);
    assert ' ' !in e.token;
    FindAt(e.token, ' ', PrintNat(e.expiry));
    assert line[..64] == e.token && line[65..] == PrintNat(e.expiry);
    ParsePrint(e.expiry);
  }

  lemma ReadFirst(line: string, rest: string, now: nat, capacity: nat)
    requires '\n' !in line && capacity > 0
    ensures ReadEntries(line + "\n" + rest, now, capacity)
         == match ReadEntry(line, now)
            case None => ReadEntries(rest, now, capacity)
            case Some(e) => [e] + ReadEntries(rest, now, capacity - 1)
  {
    hide ReadEntry;
    FindAt(line, '\n', rest);
    var text := line + "\n" + rest;
    assert text[..|line|] == line && text[|line| + 1..] == rest;
  }

  /** How many entry lines are whole within the first k characters. */
  function WholeLines(es: seq<Session>, k: nat): (m: nat)
    ensures m <= |es| && (k >= |EntryLines(es)| ==> m == |es|)
  {
    if es == [] || k < |EntryLine(es[0])| then 0 else 1 + WholeLines(es[1..], k - |EntryLine(es[0])|)
  }

  lemma TornCons(e: Session, rest: string, k: nat, now: nat, capacity: nat)
    requires GoodEntry(e) && k <= |EntryLine(e) + rest| && capacity > 0
    ensures ReadEntries((EntryLine(e) + rest)[..k], now, capacity)
         == if k < |EntryLine(e)| then []
            else if e.expiry > now then [e] + ReadEntries(rest[..k - |EntryLine(e)|], now, capacity - 1)
            else ReadEntries(rest[..k - |EntryLine(e)|], now, capacity)
  {
    hide ReadEntry, GoodEntry, PrintNat, ReadEntries;
    var body := e.token + " " + PrintNat(e.expiry);
    var text := (EntryLine(e) + rest)[..k];
    EntryReads(e, now);
    assert EntryLine(e) == body + "\n";
    if k < |EntryLine(e)| {
      assert text == body[..k];
      NoNewline(text, now, capacity);
    } else {
      var part := rest[..k - |EntryLine(e)|];
      assert text == body + "\n" + part;
      ReadFirst(body, part, now, capacity);
    }
  }

  /** Every prefix of the stored lines reads as the unexpired part of its whole lines. */
  lemma {:induction false} TornEntries(es: seq<Session>, k: nat, now: nat, capacity: nat)
    requires GoodEntries(es) && k <= |EntryLines(es)| && |es| <= capacity
    ensures ReadEntries(EntryLines(es)[..k], now, capacity) == Unexpired(es[..WholeLines(es, k)], now)
  {
    hide GoodEntry, ReadEntries, EntryLine;
    if es == [] {
      NoNewline(EntryLines(es)[..k], now, capacity);
    } else {
      var e, n := es[0], |EntryLine(es[0])|;
      assert GoodEntry(e) && GoodEntries(es[1..]);
      TornCons(e, EntryLines(es[1..]), k, now, capacity);
      if k >= n {
        var m := WholeLines(es[1..], k - n);
        TornEntries(es[1..], k - n, now, if e.expiry > now then capacity - 1 else capacity);
        assert es[..m + 1] == [e] + es[1..][..m];
        assert ([e] + es[1..][..m])[1..] == es[1..][..m];
      }
    }
  }

  lemma NoNewline(text: string, now: nat, capacity: nat)
    requires '\n' !in text
    ensures ReadEntries(text, now, capacity) == []
  {
    assert Find(text, '\n') == |text|;
  }

  /** How many entries survive in the first k characters of a stored file. */
  function WholeEntries(boot: string, es: seq<Session>, k: nat): (m: nat)
    ensures m <= |es|
  {
    var header := |BootLine(boot)| + 1;
    if k < header then 0 else WholeLines(es, k - header)
  }

  /** A torn write: any prefix of a stored file loads to the unexpired part of a prefix
      of the entries, so never to a cut expiry. */
  lemma TornFile(boot: string, es: seq<Session>, k: nat, now: nat)
    requires ValidBoot(boot) && GoodEntries(es) && |es| <= MAX_SESSIONS && k <= |Stored(boot, es)|
    ensures Loaded(Stored(boot, es)[..k], boot, now) == Unexpired(es[..WholeEntries(boot, es, k)], now)
  {
    hide ReadEntries, EntryLines, BootLine;
    var header, text := BootLine(boot), Stored(boot, es)[..k];
    HeaderText(boot);
    if k <= |header| {
      assert text == header[..k];
      assert Find(text, '\n') == |text|;
    } else {
      var part := EntryLines(es)[..k - |header| - 1];
      assert text == header + "\n" + part;
      FindAt(header, '\n', part);
      assert text[..|header|] == header && text[|header| + 1..] == part;
      TornEntries(es, k - |header| - 1, now, MAX_SESSIONS);
    }
  }

  lemma HeaderText(boot: string)
    requires ValidBoot(boot)
    ensures '\n' !in BootLine(boot)
  {
  }

  /** Loading what was stored gives exactly the unexpired entries. */
  lemma StoreLoad(boot: string, es: seq<Session>, now: nat)
    requires ValidBoot(boot) && GoodEntries(es) && |es| <= MAX_SESSIONS
    ensures Loaded(Stored(boot, es), boot, now) == Unexpired(es, now)
  {
    hide Loaded, Stored;
    var text := Stored(boot, es);
    TornFile(boot, es, |text|, now);
    assert WholeEntries(boot, es, |text|) == |es| by { AllWhole(boot, es); }
    assert text[..|text|] == text && es[..|es|] == es;
  }

  lemma AllWhole(boot: string, es: seq<Session>)
    ensures WholeEntries(boot, es, |Stored(boot, es)|) == |es|
  {
  }

  /** Another boot's file, whole or torn, is not trusted. */
  lemma OtherBoot(boot: string, other: string, es: seq<Session>, k: nat, now: nat)
    requires ValidBoot(other) && boot != other && k <= |Stored(other, es)|
    ensures Loaded(Stored(other, es)[..k], boot, now) == []
  {
    hide ReadEntries, EntryLines;
    var header, text := BootLine(other), Stored(other, es)[..k];
    assert '\n' !in header by { HeaderText(other); }
    if k <= |header| {
      assert text == header[..k];
      assert Find(text, '\n') == |text|;
    } else {
      var part := EntryLines(es)[..k - |header| - 1];
      assert text == header + "\n" + part;
      FindAt(header, '\n', part);
      assert text[..|header|] == header;
      assert header[5..] == other && BootLine(boot)[5..] == boot;
    }
  }

  lemma {:induction false} EntryLinesLength(es: seq<Session>)
    requires GoodEntries(es)
    ensures |EntryLines(es)| <= 86 * |es|
  {
    hide PrintNat;
    if es != [] {
      EntryLinesLength(es[1..]);
      assert GoodEntry(es[0]);
      TwentyDigits(es[0].expiry);
    }
  }

  lemma TwentyDigits(n: nat)
    requires n < ULONG_MODULUS
    ensures |PrintNat(n)| <= 20
  {
    Powers();
    PrintLength(n, 20);
  }

  lemma Powers()
    ensures Power10(20) == 100000000000000000000
  {
    assert Power10(4) == 10000;
    assert Power10(8) == 100000000 by { assert Power10(6) == 1000000; }
    assert Power10(12) == 1000000000000 by { assert Power10(10) == 10000000000; }
    assert Power10(16) == 10000000000000000 by { assert Power10(14) == 100000000000000; }
    assert Power10(18) == 1000000000000000000;
  }

  /** Sixteen entries always fit the file and its buffer. */
  lemma StoredFits(boot: string, es: seq<Session>)
    requires ValidBoot(boot) && GoodEntries(es) && |es| <= MAX_SESSIONS
    ensures |Stored(boot, es)| <= MAX_SESSION_FILE
  {
    EntryLinesLength(es);
  }

  /** The bytes of the file: the boot line, and a line with token, space and expiry for each entry. */
  lemma StoredForm(boot: string, es: seq<Session>, e: Session)
    ensures Stored(boot, []) == "boot " + boot + "\n"
    ensures Stored(boot, es + [e]) == Stored(boot, es) + e.token + " " + PrintNat(e.expiry) + "\n"
  {
    LinesLast(es, e);
    assert Stored(boot, es) + (e.token + " " + PrintNat(e.expiry) + "\n")
        == Stored(boot, es) + e.token + " " + PrintNat(e.expiry) + "\n";
  }

  lemma {:induction false} LinesLast(es: seq<Session>, e: Session)
    ensures EntryLines(es + [e]) == EntryLines(es) + EntryLine(e)
  {
    if es == [] {
      assert [e][1..] == [] && [] + [e] == [e];
    } else {
      assert (es + [e])[1..] == es[1..] + [e];
      LinesLast(es[1..], e);
    }
  }
}
