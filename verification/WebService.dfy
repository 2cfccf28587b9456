/** The web service's loops over the configuration text. */
module WebService {
  import opened Ini
  import opened WebIni
  import opened WebSave

  lemma SliceOfSlice(text: string, a: nat, b: nat, i: nat, j: nat)
    requires a <= b <= |text| && i <= j <= b - a
    ensures text[a..b][i..j] == text[a + i..a + j]
  {
    var x, y := text[a..b][i..j], text[a + i..a + j];
    assert forall k :: 0 <= k < j - i ==> x[k] == text[a + i + k] && y[k] == text[a + i + k];
  }

  /** trim_span(): two pointers moved towards each other. */
  method TrimSpan(text: string, from: nat, to: nat) returns (start: nat, end: nat)
    requires from <= to <= |text|
    ensures from <= start <= end <= to && text[start..end] == Trim(text[from..to])
    ensures AllSpace(text[from..start])
  {
    hide TrimLeft, TrimRight;
    start := SkipSpan(text, from, to);
    end := CutSpan(text, start, to);
  }

  method SkipSpan(text: string, from: nat, to: nat) returns (start: nat)
    requires from <= to <= |text|
    ensures from <= start <= to && text[start..to] == TrimLeft(text[from..to]) && AllSpace(text[from..start])
  {
    hide AllSpace;
    Spaces();
    start := from;
    assert text[from..from] == "";
    while start < to && IsSpace(text[start])
      invariant from <= start <= to && AllSpace(text[from..start])
    {
      SpaceCons(text[start], text[from..start]);
      assert text[from..start + 1] == text[from..start] + [text[start]];
      start := start + 1;
    }
    ghost var s := text[from..to];
    SliceOfSlice(text, from, to, 0, start - from);
    SliceOfSlice(text, from, to, start - from, to - from);
    LeadingUnique(s, start - from);
  }

  method CutSpan(text: string, start: nat, to: nat) returns (end: nat)
    requires start <= to <= |text|
    ensures start <= end <= to && text[start..end] == TrimRight(text[start..to])
  {
    hide AllSpace;
    Spaces();
    end := to;
    assert text[to..to] == "";
    while end > start && IsSpace(text[end - 1])
      invariant start <= end <= to && AllSpace(text[end..to])
    {
      SpaceCons(text[end - 1], text[end..to]);
      assert text[end - 1..to] == [text[end - 1]] + text[end..to];
      end := end - 1;
    }
    ghost var t := text[start..to];
    SliceOfSlice(text, start, to, end - start, to - start);
    SliceOfSlice(text, start, to, 0, end - start);
    KeptUnique(t, end - start);
  }

  /** memchr() on a span: the index of the first c, or the end. */
  method MemChr(text: string, from: nat, to: nat, c: char) returns (n: nat)
    requires from <= to <= |text|
    ensures from <= n <= to && n - from == Find(text[from..to], c)
  {
    ghost var s := text[from..to];
    n := from;
    while n < to && text[n] != c
      invariant from <= n <= to && c !in s[..n - from]
    {
      assert s[..n + 1 - from] == s[..n - from] + [text[n]];
      n := n + 1;
    }
    FindIs(s, c, n - from);
  }

  /** What the service's pointers hold after looking at one line: the section it is now in,
      and for an assignment where its '=' is. */
  datatype Look = NoEntry(section: string) | AnEntry(equals: nat, key: string, value: string)

  /** The part of the loops in ini_get_value() and ini_apply_updates() that reads one line. */
  method LookAt(text: string, p: nat, lineEnd: nat, section: string) returns (look: Look)
    requires p <= lineEnd <= |text|
    ensures var line := text[p..lineEnd];
            match Classify(line)
            case Entry(k, raw) =>
              look.AnEntry? && look.key == k && look.value == Unquote(section, raw)
              && p <= look.equals < lineEnd && look.equals - p == Find(line, '=')
            case _ => look == NoEntry(Step(section, line))
  {
    hide Trim, Find, ClassifyText;
    var start, end := TrimSpan(text, p, lineEnd);
    look := LookText(text, start, end, section);
    if look.AnEntry? { EqualsOfLine(text, p, lineEnd, start, look.equals); }
  }

  method LookText(text: string, start: nat, end: nat, section: string) returns (look: Look)
    requires start <= end <= |text|
    ensures match ClassifyText(text[start..end])
            case Entry(k, raw) =>
              look.AnEntry? && look.key == k && look.value == Unquote(section, raw)
              && start <= look.equals < end && text[look.equals] == '=' && '=' !in text[start..look.equals]
            case Header(name, _) => look == NoEntry(Cut(name))
            case _ => look == NoEntry(section)
  {
    hide Trim, Unquote;
    hide Find;
    ghost var t := text[start..end];
    look := NoEntry(section);
    if start < end && text[start] == '[' {
      look := LookHeader(text, start, end, section);
    } else if start < end && text[start] != '#' && text[start] != ';' {
      var equals := MemChr(text, start, end, '=');
      if equals < end {
        var key, value := LookEntry(text, start, equals, end, section);
        look := AnEntry(equals, key, value);
        SliceOfSlice(text, start, end, 0, equals - start);
      }
    }
  }

  /** The section after a header line. */
  method LookHeader(text: string, start: nat, end: nat, section: string) returns (look: Look)
    requires start < end <= |text|
    ensures var t := text[start..end];
            var c := Find(t[1..], ']');
            look == NoEntry(if c == |t| - 1 then section else Cut(Trim(t[1..1 + c])))
  {
    hide Trim, Find;
    look := NoEntry(section);
    var close := MemChr(text, start + 1, end, ']');
    SliceOfSlice(text, start, end, 1, end - start);
    if close < end {
      var nameStart, nameEnd := TrimSpan(text, start + 1, close);
      SliceOfSlice(text, start, end, 1, close - start);
      var name := text[nameStart..nameEnd];
      look := NoEntry(if |name| >= WEB_SECTION_MAX + 1 then name[..WEB_SECTION_MAX] else name);
    }
  }

  /** The key and the unquoted value around an '='. */
  method LookEntry(text: string, start: nat, equals: nat, end: nat, section: string)
    returns (key: string, value: string)
    requires start <= equals < end <= |text|
    ensures key == Trim(text[start..end][..equals - start])
    ensures value == Unquote(section, Trim(text[start..end][equals - start + 1..]))
  {
    hide Trim, Find;
    var keyStart, keyEnd := TrimSpan(text, start, equals);
    var valueStart, valueEnd := TrimSpan(text, equals + 1, end);
    SliceOfSlice(text, start, end, 0, equals - start);
    SliceOfSlice(text, start, end, equals - start + 1, end - start);
    key, value := text[keyStart..keyEnd], text[valueStart..valueEnd];
    if valueEnd > valueStart + 1 && text[valueStart] == QUOTE && text[valueEnd - 1] == QUOTE {
      SliceOfSlice(text, valueStart, valueEnd, 1, |value| - 1);
      value := text[valueStart + 1..valueEnd - 1];
      if section != SUPPORT {
        var from, to := TrimSpan(text, valueStart + 1, valueEnd - 1);
        value := text[from..to];
      }
    }
  }

  /** White space before the text holds no '=', so the first '=' of the trimmed text is the line's. */
  lemma EqualsOfLine(text: string, p: nat, lineEnd: nat, start: nat, equals: nat)
    requires p <= start <= equals < lineEnd <= |text|
    requires AllSpace(text[p..start]) && text[equals] == '=' && '=' !in text[start..equals]
    ensures Find(text[p..lineEnd], '=') == equals - p
  {
    var line := text[p..lineEnd];
    assert line[..equals - p] == text[p..start] + text[start..equals];
    FindIs(line, '=', equals - p);
  }

  /** The end of the line at p: its newline, or the end of the text. */
  method LineEnd(text: string, p: nat) returns (n: nat)
    requires p < |text|
    ensures p <= n <= |text|
    ensures text[p..n] == Body(text[p..][..LineLength(text[p..])])
    ensures n < |text| ==> text[n] == '\n' && n + 1 - p == LineLength(text[p..])
    ensures n == |text| ==> n - p == LineLength(text[p..])
  {
    hide Find, LineLength;
    n := MemChr(text, p, |text|, '\n');
    ghost var rest := text[p..];
    assert text[p..|text|] == rest;
    LineEndIs(rest);
    assert text[p..n] == rest[..n - p];
  }

  lemma LineEndIs(rest: string)
    requires rest != ""
    ensures var n := Find(rest, '\n');
            && LineLength(rest) == (if n == |rest| then n else n + 1)
            && Body(rest[..LineLength(rest)]) == rest[..n]
  {
    var n := Find(rest, '\n');
    if n == |rest| {
      assert rest[..n] == rest;
    } else {
      assert rest[..n + 1][..n] == rest[..n] && rest[..n + 1][n] == '\n';
    }
  }

  /** One turn of the readers' loop over the lines. */
  lemma NextLine(r: Reader, text: string, p: nat, section: Option<string>, s: string, k: string)
    requires p < |text|
    ensures var rest := text[p..];
            var n := LineLength(rest);
            var item := Classify(Body(rest[..n]));
            && Classify(rest[..n]) == item
            && Lines(rest) == [rest[..n]] + Lines(text[p + n..])
            && Values(r, Lines(rest), section, s, k)
               == (if item.Entry? && section == Some(s) && item.key == k then [item.value] else [])
                  + Values(r, Lines(text[p + n..]), NextSection(r, section, item), s, k)
  {
    hide Classify, Values;
    var rest := text[p..];
    var line, more := rest[..LineLength(rest)], Lines(rest[LineLength(rest)..]);
    assert Lines(rest) == [line] + more;
    assert rest[LineLength(rest)..] == text[p + LineLength(rest)..];
    ValuesCons(r, line, more, section, s, k);
    ClassifyComplete(line);
  }

  /** ini_get_value(): walks the lines and stops at the first assignment of the key. */
  method IniGetValue(config: string, wantedSection: string, wantedKey: string, size: nat) returns (r: Option<string>)
    ensures r == GetValue(config, wantedSection, wantedKey, size)
  {
    hide Classify, Unquote, Find, Values, Lines, Body;
    var p, section := 0, "";
    ghost var found := WebValues(Lines(config), "", wantedSection, wantedKey);
    assert config[0..] == config;
    while p < |config|
      invariant p <= |config|
      invariant found == WebValues(Lines(config[p..]), section, wantedSection, wantedKey)
    {
      NextLine(Web, config, p, Some(section), wantedSection, wantedKey);
      ghost var more := config[p + LineLength(config[p..])..];
      var lineEnd := LineEnd(config, p);
      var look := LookAt(config, p, lineEnd, section);
      if look.AnEntry? {
        if section == wantedSection && look.key == wantedKey {
          ghost var item := Classify(config[p..lineEnd]);
          UnquoteCons(wantedSection, item.value, WebValues(Lines(more), section, wantedSection, wantedKey));
          if |look.value| >= size { return None; }
          return Some(look.value);
        }
      } else {
        section := look.section;
      }
      p := if lineEnd < |config| then lineEnd + 1 else lineEnd;
      assert config[p..] == more;
    }
    NothingLeft(config[p..], section, wantedSection, wantedKey);
    return None;
  }

  lemma NothingLeft(rest: string, section: string, s: string, k: string)
    requires rest == ""
    ensures Lines(rest) == [] && WebValues(Lines(rest), section, s, k) == []
    ensures UnquoteAll(s, WebValues(Lines(rest), section, s, k)) == []
  {
  }

  // ---------- ini_apply_updates ----------

  /** find_update() */
  method FindUpdateRow(ups: seq<Update>, section: string, key: string) returns (i: nat)
    ensures i == FindUpdate(ups, section, key)
  {
    i := 0;
    while i < |ups| && !(ups[i].section == section && ups[i].key == key)
      invariant i <= |ups| && forall j :: 0 <= j < i ==> !Named(ups[j], section, key)
    {
      i := i + 1;
    }
  }

  /** The update this line is an assignment for, or their number. */
  function Hit(line: string, section: string, ups: seq<Update>): nat
  {
    match Classify(line)
    case Entry(key, _) => FindUpdate(ups, section, key)
    case _ => |ups|
  }

  /** The found flags agree with the lines already copied. */
  ghost predicate Tallied(all: seq<string>, rest: seq<string>, section: string, ups: seq<Update>, found: seq<bool>)
  {
    |found| == |ups| && forall i :: 0 <= i < |ups| ==>
      if FindUpdate(ups, ups[i].section, ups[i].key) != i then !found[i]
      else
        |WebValues(all, "", ups[i].section, ups[i].key)|
          == (if found[i] then 1 else 0) + |WebValues(rest, section, ups[i].section, ups[i].key)|
  }

  /** The counts after one more line. */
  lemma TallyLine(all: seq<string>, text: string, p: nat, section: string, ups: seq<Update>, found: seq<bool>, hit: nat)
    requires p < |text| && Tallied(all, Lines(text[p..]), section, ups, found)
    requires hit == Hit(text[p..][..LineLength(text[p..])], section, ups)
    ensures var line := text[p..][..LineLength(text[p..])];
            var rest := Lines(text[p + LineLength(text[p..])..]);
            && (hit < |ups| && found[hit] ==> !NoDuplicates(all, ups))
            && (hit < |ups| && !found[hit] ==> Tallied(all, rest, Step(section, line), ups, found[hit := true]))
            && (hit == |ups| ==> Tallied(all, rest, Step(section, line), ups, found))
  {
    hide Classify, Values, Lines, FindUpdate;
    var line := text[p..][..LineLength(text[p..])];
    var rest := Lines(text[p + LineLength(text[p..])..]);
    if hit < |ups| { FindAgain(ups, section, Classify(line).key); }
    forall i | 0 <= i < |ups| && FindUpdate(ups, ups[i].section, ups[i].key) == i
      ensures |WebValues(Lines(text[p..]), section, ups[i].section, ups[i].key)|
           == (if i == hit then 1 else 0) + |WebValues(rest, Step(section, line), ups[i].section, ups[i].key)|
    {
      NextLine(Web, text, p, Some(section), ups[i].section, ups[i].key);
    }
    if hit < |ups| && found[hit] {
      assert |WebValues(all, "", ups[hit].section, ups[hit].key)| >= 2;
    }
  }

  /** An update the search finds is the first with its name. */
  lemma FindAgain(ups: seq<Update>, s: string, k: string)
    ensures var i := FindUpdate(ups, s, k); i < |ups| ==> FindUpdate(ups, ups[i].section, ups[i].key) == i
  {
    var i := FindUpdate(ups, s, k);
    if i < |ups| { assert ups[i].section == s && ups[i].key == k; }
  }

  /** The bytes that replace one raw line. */
  lemma EditedBytes(text: string, p: nat, section: string, ups: seq<Update>)
    requires p < |text|
    ensures var n := LineLength(text[p..]);
            Flatten(EditLines(Lines(text[p..]), section, ups))
              == EditLine(text[p..][..n], section, ups)
                 + Flatten(EditLines(Lines(text[p + n..]), Step(section, text[p..][..n]), ups))
  {
    hide Classify, Lines, EditLine, Step;
    NextLine(Web, text, p, None, "", "");
    var n := LineLength(text[p..]);
    var line, more := text[p..][..n], Lines(text[p + n..]);
    assert ([line] + more)[1..] == more;
    var e, rest := EditLine(line, section, ups), EditLines(more, Step(section, line), ups);
    assert ([e] + rest)[1..] == rest;
  }

  /** The copy of one line, with its value replaced if an update asks for another one. */
  method CopyLine(config: string, p: nat, lineEnd: nat, section: string, ups: seq<Update>, found: seq<bool>)
    returns (bytes: string, section': string, hit: nat)
    requires p < |config| && |found| == |ups|
    requires p <= lineEnd <= |config| && config[p..lineEnd] == Body(config[p..][..LineLength(config[p..])])
    requires lineEnd < |config| ==> config[lineEnd] == '\n' && lineEnd + 1 - p == LineLength(config[p..])
    requires lineEnd == |config| ==> lineEnd - p == LineLength(config[p..])
    ensures var line := config[p..][..LineLength(config[p..])];
            && section' == Step(section, line)
            && hit == Hit(line, section, ups)
            && (hit == |ups| || !found[hit] ==> bytes == EditLine(line, section, ups))
  {
    hide Classify, Find, Unquote;
    ghost var line := config[p..][..LineLength(config[p..])];
    ClassifyComplete(line);
    var look := LookAt(config, p, lineEnd, section);
    section', hit := section, |ups|;
    bytes := config[p..lineEnd];
    var replaced := false;
    if look.AnEntry? {
      hit := FindUpdateRow(ups, section, look.key);
      if hit < |ups| && found[hit] { return; }
      if hit < |ups| && look.value != ups[hit].value {
        bytes := config[p..look.equals + 1] + " " + Quoted(ups[hit].value);
        replaced := true;
      }
      EqualsInLine(line, Body(line), look.equals - p);
    } else {
      section' := look.section;
    }
    assert line == config[p..p + |line|];
    if lineEnd < |config| { bytes := bytes + "\n"; }
    if replaced {
      assert config[p..look.equals + 1] == line[..look.equals + 1 - p];
    }
  }

  lemma EqualsInLine(line: string, body: string, n: nat)
    requires body == Body(line) && Find(body, '=') == n && n < |body|
    ensures Find(line, '=') == n && n < |line|
  {
    assert line[..n] == body[..n] && line[n] == body[n];
    FindIs(line, '=', n);
  }

  /** The first loop of ini_apply_updates(): every line copied or rewritten. */
  method CopyLines(config: string, ups: seq<Update>) returns (ok: bool, output: string, found: seq<bool>)
    ensures ok <==> NoDuplicates(Lines(config), ups)
    ensures ok ==> output == Flatten(EditLines(Lines(config), "", ups)) && |found| == |ups|
    ensures ok ==> forall i :: 0 <= i < |ups| ==>
              (found[i] <==> Met(Lines(config), ups, i))
  {
    hide Classify, Values, Lines, Body, EditLine, EditLines, Step, Flatten, NoDuplicates;
    var p, section := 0, "";
    found, output := seq(|ups|, i => false), "";
    ghost var all := Lines(config);
    ghost var whole := Flatten(EditLines(all, "", ups));
    assert config[0..] == config;
    while p < |config|
      invariant p <= |config|
      invariant whole == output + Flatten(EditLines(Lines(config[p..]), section, ups))
      invariant Tallied(all, Lines(config[p..]), section, ups, found)
    {
      var lineEnd := LineEnd(config, p);
      ghost var n := LineLength(config[p..]);
      var bytes, next, hit := CopyLine(config, p, lineEnd, section, ups, found);
      TallyLine(all, config, p, section, ups, found, hit);
      if hit < |ups| && found[hit] { return false, "", found; }
      EditedBytes(config, p, section, ups);
      if hit < |ups| { found := found[hit := true]; }
      output, section := output + bytes, next;
      p := if lineEnd < |config| then lineEnd + 1 else lineEnd;
    }
    ok := true;
    CopyDone(config[p..], section, all, ups, found);
  }

  lemma CopyDone(rest: string, section: string, all: seq<string>, ups: seq<Update>, found: seq<bool>)
    requires rest == "" && Tallied(all, Lines(rest), section, ups, found)
    ensures NoDuplicates(all, ups) && Flatten(EditLines(Lines(rest), section, ups)) == ""
    ensures forall i :: 0 <= i < |ups| ==> (found[i] <==> Met(all, ups, i))
  {
    hide FindUpdate, Classify;
    forall i | 0 <= i < |ups| ensures |WebValues(all, "", ups[i].section, ups[i].key)| <= 1 {
      FindAgain(ups, ups[i].section, ups[i].key);
      FindNamed(ups, i);
    }
  }

  lemma FindNamed(ups: seq<Update>, i: nat)
    requires i < |ups|
    ensures var j := FindUpdate(ups, ups[i].section, ups[i].key);
            j <= i && ups[j].section == ups[i].section && ups[j].key == ups[i].key
  {
    assert Named(ups[i], ups[i].section, ups[i].key);
  }

  /** The updates from index i on that are still not in the file. */
  function Unfound(ups: seq<Update>, found: seq<bool>): seq<Update>
    requires |ups| == |found|
  {
    if ups == [] then [] else (if found[0] then [] else [ups[0]]) + Unfound(ups[1..], found[1..])
  }

  function WithNewline(text: string): string { if Ended(text) then text else text + "\n" }

  /** The text with blocks for these updates added at its end. */
  function Appended(text: string, ms: seq<Update>): string
  {
    if ms == [] then text
    else if text == "" then Flatten(Blocks(ms)[1..])
    else WithNewline(text) + Flatten(Blocks(ms))
  }

  /** Adding one section's block, then the rest. */
  lemma AppendBlock(text: string, ms: seq<Update>)
    requires ms != []
    ensures var s := ms[0].section;
            var start := (if text == "" then "" else WithNewline(text) + "\n") + SectionLine(s);
            var block := start + Flatten(AddedLines(InSection(ms, s)));
            Ended(block) && Appended(text, ms) == Appended(block, OutsideSection(ms, s))
  {
    hide Flatten, AddedLines, InSection, OutsideSection, Blocks, Ended, SectionLine, Appended, WithNewline;
    var s := ms[0].section;
    var own, others := AddedLines(InSection(ms, s)), OutsideSection(ms, s);
    var before := if text == "" then "" else WithNewline(text) + "\n";
    SectionEnds(before, s);
    AddedEnded(before + SectionLine(s), InSection(ms, s));
    var block := before + SectionLine(s) + Flatten(own);
    FirstBlockBytes(ms);
    AppendedIs(text, ms);
    AppendedTo(block, others);
    AppendAssoc(if text == "" then "" else WithNewline(text), SectionLine(s), Flatten(own), Flatten(Blocks(others)));
  }

  lemma SectionEnds(before: string, s: string)
    ensures Ended(before + SectionLine(s))
  {
  }

  lemma AppendedIs(text: string, ms: seq<Update>)
    requires ms != []
    ensures |Blocks(ms)| >= 1
    ensures Appended(text, ms)
         == if text == "" then Flatten(Blocks(ms)[1..]) else WithNewline(text) + Flatten(Blocks(ms))
  {
    hide Flatten;
  }

  /** What follows a text that ends its last line. */
  lemma AppendedTo(block: string, ms: seq<Update>)
    requires Ended(block)
    ensures Appended(block, ms) == block + Flatten(Blocks(ms))
  {
    hide Flatten;
    assert WithNewline(block) == block && block != "";
    if ms == [] { NoBlocks(); assert block + "" == block; }
  }

  /** The blocks as bytes: the first section's lines, then the others. */
  lemma FirstBlockBytes(ms: seq<Update>)
    requires ms != []
    ensures var s := ms[0].section;
            var own, others := AddedLines(InSection(ms, s)), Blocks(OutsideSection(ms, s));
            && Blocks(ms) != []
            && Flatten(Blocks(ms)) == "\n" + (SectionLine(s) + Flatten(own) + Flatten(others))
            && Flatten(Blocks(ms)[1..]) == SectionLine(s) + Flatten(own) + Flatten(others)
  {
    hide Flatten, AddedLines, InSection, OutsideSection, SectionLine;
    var s := ms[0].section;
    var own, others := AddedLines(InSection(ms, s)), Blocks(OutsideSection(ms, s));
    BlockBytes(s, own, others);
    assert Blocks(ms) == ["\n", SectionLine(s)] + own + others;
    assert Blocks(ms)[1..] == [SectionLine(s)] + own + others;
  }

  lemma NoBlocks()
    ensures Flatten(Blocks([])) == ""
  {
  }

  lemma AppendAssoc(a: string, b: string, c: string, d: string)
    ensures (a + "\n" + b) + c + d == a + ("\n" + (b + c + d))
    ensures ("" + b) + c + d == b + c + d
  {
  }

  lemma BlockBytes(s: string, own: seq<string>, others: seq<string>)
    ensures Flatten([SectionLine(s)] + own + others) == SectionLine(s) + Flatten(own) + Flatten(others)
    ensures Flatten(["\n", SectionLine(s)] + own + others) == "\n" + (SectionLine(s) + Flatten(own) + Flatten(others))
  {
    hide Flatten, SectionLine;
    var tail := own + others;
    FlattenConcat(own, others);
    FlattenCons(SectionLine(s), tail);
    FlattenCons("\n", [SectionLine(s)] + tail);
    assert [SectionLine(s)] + own + others == [SectionLine(s)] + tail;
    assert ["\n", SectionLine(s)] + own + others == ["\n"] + ([SectionLine(s)] + tail);
  }

  lemma {:induction false} AddedEnded(start: string, ms: seq<Update>)
    requires Ended(start)
    ensures Ended(start + Flatten(AddedLines(ms)))
    decreases |ms|
  {
    if ms == [] {
      assert start + Flatten([]) == start;
    } else {
      AddedEnded(start + AddedLine(ms[0]), ms[1..]);
      FlattenCons(AddedLine(ms[0]), AddedLines(ms[1..]));
      assert start + AddedLine(ms[0]) + Flatten(AddedLines(ms[1..]))
          == start + (AddedLine(ms[0]) + Flatten(AddedLines(ms[1..])));
    }
  }

  /** The flags after one section was written: everything of that section from i on. */
  predicate Marked(before: seq<bool>, after: seq<bool>, ups: seq<Update>, i: nat, j: nat, s: string)
  {
    && |before| == |after| == |ups|
    && forall k :: 0 <= k < |ups| ==> after[k] == (before[k] || (i <= k < j && ups[k].section == s))
  }

  lemma {:induction false} UnfoundMarked(ups: seq<Update>, before: seq<bool>, after: seq<bool>, s: string)
    requires |before| == |after| == |ups|
    requires forall k :: 0 <= k < |ups| ==> after[k] == (before[k] || ups[k].section == s)
    ensures Unfound(ups, after) == OutsideSection(Unfound(ups, before), s)
  {
    if ups != [] {
      UnfoundMarked(ups[1..], before[1..], after[1..], s);
      var u, more := ups[0], Unfound(ups[1..], before[1..]);
      assert ([u] + more)[1..] == more;
      assert [] + more == more;
    }
  }

  lemma UnfoundAt(ups: seq<Update>, found: seq<bool>, i: nat)
    requires i < |ups| == |found|
    ensures Unfound(ups[i..], found[i..]) == (if found[i] then [] else [ups[i]]) + Unfound(ups[i + 1..], found[i + 1..])
  {
    assert ups[i..][1..] == ups[i + 1..] && found[i..][1..] == found[i + 1..];
  }

  /** What one update contributes to its section. */
  lemma AddedStep(u: Update, more: seq<Update>, found: bool, s: string)
    ensures Flatten(AddedLines(InSection((if found then [] else [u]) + more, s)))
         == (if !found && u.section == s then AddedLine(u) else "") + Flatten(AddedLines(InSection(more, s)))
  {
    hide Flatten, AddedLine;
    var rest := InSection(more, s);
    assert [] + more == more && ([u] + more)[1..] == more && [] + rest == rest && ([u] + rest)[1..] == rest;
    FlattenCons(AddedLine(u), AddedLines(rest));
    assert "" + Flatten(AddedLines(rest)) == Flatten(AddedLines(rest));
  }

  /** The inner loop: every update of one section that is still missing. */
  method AddSection(text: string, ups: seq<Update>, found: seq<bool>, i: nat)
    returns (output: string, found': seq<bool>)
    requires i < |ups| == |found|
    ensures output == text + Flatten(AddedLines(InSection(Unfound(ups[i..], found[i..]), ups[i].section)))
    ensures Marked(found, found', ups, i, |ups|, ups[i].section)
  {
    hide Flatten, AddedLine, Unfound, AddedLines, InSection;
    var s := ups[i].section;
    output, found' := text, found;
    var j := i;
    ghost var whole := output + Flatten(AddedLines(InSection(Unfound(ups[i..], found[i..]), s)));
    while j < |ups|
      invariant i <= j <= |ups| && Marked(found, found', ups, i, j, s)
      invariant whole == output + Flatten(AddedLines(InSection(Unfound(ups[j..], found[j..]), s)))
    {
      UnfoundAt(ups, found, j);
      ghost var more := Unfound(ups[j + 1..], found[j + 1..]);
      AddedStep(ups[j], more, found[j], s);
      if !found'[j] && ups[j].section == s {
        ghost var rest := AddedLines(InSection(more, s));
        assert output + (AddedLine(ups[j]) + Flatten(rest)) == (output + AddedLine(ups[j])) + Flatten(rest);
        output := output + AddedLine(ups[j]);
        found' := found'[j := true];
      }
      j := j + 1;
    }
    NothingUnfound(ups[j..], found[j..], s);
  }

  lemma NothingUnfound(ups: seq<Update>, found: seq<bool>, s: string)
    requires ups == [] && found == []
    ensures Unfound(ups, found) == [] && Flatten(AddedLines(InSection(Unfound(ups, found), s))) == ""
  {
  }

  /** The outer loop: one block per section that misses a key. */
  method AddMissing(text: string, ups: seq<Update>, found: seq<bool>) returns (output: string)
    requires |ups| == |found|
    ensures output == Appended(text, Unfound(ups, found))
  {
    hide Appended, Unfound, SectionLine, Flatten, AddedLines, Blocks;
    output := text;
    var found' := found;
    var i := 0;
    assert ups[0..] == ups && found'[0..] == found;
    while i < |ups|
      invariant i <= |ups| == |found'|
      invariant Appended(text, Unfound(ups, found)) == Appended(output, Unfound(ups[i..], found'[i..]))
    {
      ghost var ms := Unfound(ups[i..], found'[i..]);
      UnfoundAt(ups, found', i);
      if !found'[i] {
        AppendBlock(output, ms);
        if output != "" && !Ended(output) { output := output + "\n"; }
        if output != "" { output := output + "\n"; }
        output := output + SectionLine(ups[i].section);
        ghost var before := found';
        output, found' := AddSection(output, ups, found', i);
        assert forall k :: 0 <= k < |ups| - i ==> ups[i..][k] == ups[i + k];
        assert forall k :: 0 <= k < |ups| - i ==> found'[i..][k] == found'[i + k] && before[i..][k] == before[i + k];
        UnfoundMarked(ups[i..], before[i..], found'[i..], ups[i].section);
        UnfoundAt(ups, found', i);
      }
      assert [] + Unfound(ups[i + 1..], found'[i + 1..]) == Unfound(ups[i + 1..], found'[i + 1..]);
      i := i + 1;
    }
    NothingUnfound(ups[i..], found'[i..], "");
    NothingAppended(output);
  }

  lemma NothingAppended(text: string)
    ensures Appended(text, []) == text
  {
  }

  /** Line lists and bytes agree about what is added. */
  lemma EditedText(ls: seq<string>, ups: seq<Update>)
    requires WellSplit(ls)
    ensures Flatten(EditedLines(ls, ups)) == Appended(Flatten(EditLines(ls, "", ups)), Missing(ls, ups))
  {
    hide Classify, Values, EditLine, Blocks, IsLine, Complete, Missing;
    var out, ms := EditLines(ls, "", ups), Missing(ls, ups);
    if ms != [] {
      if ls == [] {
        NothingEdited(ups);
      } else {
        EditKeepsLines(ls, "", ups);
        CompletedBytes(out);
        FlattenConcat(CompleteLast(out), Blocks(ms));
      }
    }
  }

  lemma {:induction false} CompletedBytes(ls: seq<string>)
    requires ls != [] && forall l :: l in ls ==> l != ""
    ensures Flatten(ls) != "" && Flatten(CompleteLast(ls)) == WithNewline(Flatten(ls))
  {
    hide Flatten, CompleteLast, WithNewline, Complete;
    assert ls[0] in ls;
    if |ls| == 1 {
      SingleBytes(ls);
    } else {
      var more := ls[1..];
      assert ls == [ls[0]] + more;
      assert forall l :: l in more ==> l in ls;
      CompletedBytes(more);
      FlattenCons(ls[0], more);
      FlattenCons(ls[0], CompleteLast(more));
      CompleteLastCons(ls);
      NewlineAfter(ls[0], Flatten(more));
    }
  }

  lemma SingleBytes(ls: seq<string>)
    requires |ls| == 1 && ls[0] != ""
    ensures Flatten(ls) == ls[0] && Flatten(CompleteLast(ls)) == WithNewline(ls[0])
  {
    hide Flatten;
    assert ls == [ls[0]] + [] && CompleteLast(ls) == [Complete(ls[0])] + [];
    FlattenCons(ls[0], []);
    FlattenCons(Complete(ls[0]), []);
    assert Flatten([]) == "" by { NoText(); }
  }

  lemma NoText()
    ensures Flatten([]) == ""
  {
  }

  lemma CompleteLastCons(ls: seq<string>)
    requires |ls| > 1
    ensures CompleteLast(ls) == [ls[0]] + CompleteLast(ls[1..])
  {
    hide Complete;
  }

  lemma NewlineAfter(a: string, b: string)
    requires b != ""
    ensures WithNewline(a + b) == a + WithNewline(b)
  {
  }

  /** The updates not found are the missing ones. */
  lemma {:induction false} UnfoundMissing(ls: seq<string>, ups: seq<Update>, found: seq<bool>, i: nat)
    requires i <= |ups| == |found|
    requires forall j :: 0 <= j < |ups| ==> (found[j] <==> Met(ls, ups, j))
    ensures Unfound(ups[i..], found[i..]) == MissingFrom(ls, ups, i)
    decreases |ups| - i
  {
    hide Met, Unfound;
    if i < |ups| {
      UnfoundAt(ups, found, i);
      UnfoundMissing(ls, ups, found, i + 1);
    } else {
      NothingUnfound(ups[i..], found[i..], "");
    }
  }

  lemma {:induction false} SomeUnfound(ups: seq<Update>, found: seq<bool>)
    requires |ups| == |found|
    ensures Unfound(ups, found) != [] <==> exists i :: 0 <= i < |ups| && !found[i]
  {
    if ups != [] {
      SomeUnfound(ups[1..], found[1..]);
      assert forall i :: 0 <= i < |found[1..]| ==> found[1..][i] == found[i + 1];
    }
  }

  /** ini_apply_updates() */
  method IniApplyUpdates(config: string, ups: seq<Update>, addMissing: bool) returns (r: Edit)
    ensures r == Applied(config, ups, addMissing)
  {
    hide Values, Lines, EditLines, Missing, Flatten, Appended, EditedLines, Unfound;
    var ok, output, found := CopyLines(config, ups);
    if !ok { return Refused(DuplicateKey); }
    LinesFlatten(config);
    UnfoundMissing(Lines(config), ups, found, 0);
    assert ups[0..] == ups && found[0..] == found;
    assert Missing(Lines(config), ups) == MissingFrom(Lines(config), ups, 0) by { MissingIs(Lines(config), ups); }
    EditedText(Lines(config), ups);
    SomeUnfound(ups, found);
    var i := 0;
    while i < |ups|
      invariant i <= |ups|
      invariant !addMissing ==> forall j :: 0 <= j < i ==> found[j]
    {
      if !found[i] && !addMissing { return Refused(MissingKey); }
      i := i + 1;
    }
    if addMissing {
      output := AddMissing(output, ups, found);
    } else {
      NothingAppended(output);
    }
    if |output| > MAX_CONFIG { return Refused(TooLarge); }
    if output == "" { return Refused(EmptyText); }
    return Edited(output);
  }
}
