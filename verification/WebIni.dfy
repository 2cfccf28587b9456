/** The web service's own INI reader and batch editor, on the lines of a text. */
module WebIni {
  import opened Ini

  /** One requested change, as `struct ini_update`. */
  datatype Update = Update(section: string, key: string, value: string)

  predicate GoodUpdate(u: Update)
  {
    && Bare(u.key) && KeyText(u.key) && '=' !in u.key && '\n' !in u.key
    && Bare(u.section) && ']' !in u.section && '\n' !in u.section && |u.section| <= WEB_SECTION_MAX
    && Quotable(u.section, u.value)
  }

  predicate Named(u: Update, s: string, k: string) { u.section == s && u.key == k }

  ghost predicate DistinctNames(ups: seq<Update>)
  {
    forall i, j :: 0 <= i < j < |ups| ==> !Named(ups[j], ups[i].section, ups[i].key)
  }

  ghost predicate GoodUpdates(ups: seq<Update>)
  {
    (forall i :: 0 <= i < |ups| ==> GoodUpdate(ups[i])) && DistinctNames(ups)
  }

  /** find_update(): the first update with this name, or their number. */
  function FindUpdate(ups: seq<Update>, s: string, k: string): (i: nat)
    ensures i <= |ups| && (i < |ups| ==> Named(ups[i], s, k))
    ensures forall j :: 0 <= j < i ==> !Named(ups[j], s, k)
  {
    if ups == [] then 0
    else if Named(ups[0], s, k) then 0
    else
      var i := 1 + FindUpdate(ups[1..], s, k);
      assert forall j :: 1 <= j < i ==> ups[j] == ups[1..][j - 1];
      i
  }

  function Step(section: string, line: string): string
  {
    match Classify(line)
    case Header(name, _) => Cut(name)
    case _ => section
  }

  function WebValues(ls: seq<string>, section: string, s: string, k: string): seq<string>
  {
    Values(Web, ls, Some(section), s, k)
  }

  // ---------- ini_get_value ----------

  /** The value of the first assignment, if the caller's buffer can hold it. */
  function GetValue(config: string, s: string, k: string, size: nat): Option<string>
  {
    var vs := UnquoteAll(s, WebValues(Lines(config), "", s, k));
    if vs == [] || |vs[0]| >= size then None else Some(vs[0])
  }

  // ---------- ini_apply_updates ----------

  function Quoted(v: string): string { "\"" + v + "\"" }

  /** The line up to and including its '=', and the quoted value. */
  function Rewritten(line: string, v: string): string
    requires Find(line, '=') < |line|
  {
    line[..Find(line, '=') + 1] + " " + Quoted(v) + if Ended(line) then "\n" else ""
  }

  function EditLine(line: string, section: string, ups: seq<Update>): string
  {
    match Classify(line)
    case Entry(key, raw) =>
      var i := FindUpdate(ups, section, key);
      if i < |ups| && Unquote(section, raw) != ups[i].value && Find(line, '=') < |line|
      then Rewritten(line, ups[i].value) else line
    case _ => line
  }

  function EditLines(ls: seq<string>, section: string, ups: seq<Update>): seq<string>
  {
    if ls == [] then []
    else [EditLine(ls[0], section, ups)] + EditLines(ls[1..], Step(section, ls[0]), ups)
  }

  /** The updates whose key these lines never assign, in order. */
  function Absent(ls: seq<string>, ups: seq<Update>): seq<Update>
  {
    if ups == [] then []
    else (if WebValues(ls, "", ups[0].section, ups[0].key) == [] then [ups[0]] else []) + Absent(ls, ups[1..])
  }

  /** Update i was met: its key is assigned, and no earlier update has the same name. */
  predicate Met(ls: seq<string>, ups: seq<Update>, i: nat)
    requires i < |ups|
  {
    FindUpdate(ups, ups[i].section, ups[i].key) == i && WebValues(ls, "", ups[i].section, ups[i].key) != []
  }

  function MissingFrom(ls: seq<string>, ups: seq<Update>, i: nat): seq<Update>
    requires i <= |ups|
    decreases |ups| - i
  {
    if i == |ups| then [] else (if Met(ls, ups, i) then [] else [ups[i]]) + MissingFrom(ls, ups, i + 1)
  }

  /** The updates the loop does not meet, in order: those without an assignment, if their names are distinct. */
  function Missing(ls: seq<string>, ups: seq<Update>): seq<Update> { MissingFrom(ls, ups, 0) }

  ghost predicate NoDuplicates(ls: seq<string>, ups: seq<Update>)
  {
    forall i :: 0 <= i < |ups| ==> |WebValues(ls, "", ups[i].section, ups[i].key)| <= 1
  }

  function SectionLine(section: string): string { "[" + section + "]\n" }

  function AddedLine(u: Update): string { u.key + " = " + Quoted(u.value) + "\n" }

  function AddedLines(ms: seq<Update>): seq<string>
  {
    if ms == [] then [] else [AddedLine(ms[0])] + AddedLines(ms[1..])
  }

  function InSection(ms: seq<Update>, section: string): (r: seq<Update>)
    ensures |r| <= |ms|
  {
    if ms == [] then []
    else (if ms[0].section == section then [ms[0]] else []) + InSection(ms[1..], section)
  }

  function OutsideSection(ms: seq<Update>, section: string): (r: seq<Update>)
    ensures |r| <= |ms|
    ensures ms != [] && ms[0].section == section ==> |r| < |ms|
  {
    if ms == [] then []
    else (if ms[0].section != section then [ms[0]] else []) + OutsideSection(ms[1..], section)
  }

  /** One header per section of the missing updates, each after a blank line. */
  function Blocks(ms: seq<Update>): seq<string>
    decreases |ms|
  {
    if ms == [] then []
    else
      var s := ms[0].section;
      ["\n", SectionLine(s)] + AddedLines(InSection(ms, s)) + Blocks(OutsideSection(ms, s))
  }

  function CompleteLast(ls: seq<string>): seq<string>
  {
    if ls == [] then [] else ls[..|ls| - 1] + [Complete(ls[|ls| - 1])]
  }

  /** The edited lines, with the missing keys added; a text without lines gets no blank first line. */
  function EditedLines(ls: seq<string>, ups: seq<Update>): seq<string>
  {
    var out, ms := EditLines(ls, "", ups), Missing(ls, ups);
    if ms == [] then out
    else if ls == [] then Blocks(ms)[1..]
    else CompleteLast(out) + Blocks(ms)
  }

  datatype EditError = DuplicateKey | MissingKey | TooLarge | EmptyText

  datatype Edit = Edited(text: string) | Refused(error: EditError)

  const MAX_CONFIG := 64 * 1024

  /** What the caller of ini_apply_updates() gets back. */
  ghost function Applied(config: string, ups: seq<Update>, addMissing: bool): Edit
  {
    var ls := Lines(config);
    var text := Flatten(EditedLines(ls, ups));
    if !NoDuplicates(ls, ups) then Refused(DuplicateKey)
    else if !addMissing && Missing(ls, ups) != [] then Refused(MissingKey)
    else if |text| > MAX_CONFIG then Refused(TooLarge)
    else if text == "" then Refused(EmptyText)
    else Edited(text)
  }

  // ---------- one rewritten line ----------

  lemma RewrittenReads(line: string, v: string)
    requires IsLine(line) && Classify(line).Entry? && '\n' !in v
    ensures Find(line, '=') < |line|
    ensures Classify(Rewritten(line, v)) == Entry(Classify(line).key, Quoted(v))
    ensures IsLine(Rewritten(line, v)) && Ended(Rewritten(line, v)) == Ended(line)
  {
    hide Classify, Trim, Find, AllSpace, IsLine, Ended, IsSpace, Rewritten, Quoted, Bare, KeyText;
    Spaces();
    var a, b := EntrySplit(line);
    var end := if Ended(line) then "\n" else "";
    var tail := " " + Quoted(v) + end;
    RewrittenParts(line, a, b, v);
    ClassifyAssignment(a, tail);
    QuotedIsBare(v);
    TrimUnique(" ", Quoted(v), end);
    RewrittenIsLine(a, b, v, end);
  }

  lemma RewrittenParts(line: string, a: string, b: string, v: string)
    requires line == a + "=" + b && a == line[..Find(line, '=')] && Find(line, '=') < |line|
    ensures Rewritten(line, v) == a + "=" + (" " + Quoted(v) + if Ended(line) then "\n" else "")
  {
    hide Find, Ended, Quoted;
    assert line[..Find(line, '=') + 1] == a + "=";
  }

  lemma QuotedIsBare(v: string)
    ensures Bare(Quoted(v))
  {
  }

  lemma RewrittenIsLine(a: string, b: string, v: string, end: string)
    requires IsLine(a + "=" + b) && '\n' !in v && (end == "" || end == "\n")
    ensures IsLine(a + "=" + (" " + Quoted(v) + end)) && Ended(a + "=" + (" " + Quoted(v) + end)) == (end != "")
  {
    var before, edited := a + "=" + b, a + "= " + Quoted(v);
    assert '\n' !in a by { assert a == before[..|before| - 1][..|a|]; }
    assert a + "=" + (" " + Quoted(v) + end) == edited + end;
    assert (edited + end)[..|edited|] == edited;
    assert end == "" ==> edited + end == edited;
  }

  lemma AddedIsLine(u: Update)
    requires GoodUpdate(u)
    ensures IsLine(AddedLine(u)) && Ended(AddedLine(u)) && Bare(u.key)
  {
  }

  lemma AddedReads(u: Update)
    requires GoodUpdate(u)
    ensures Classify(AddedLine(u)) == Entry(u.key, Quoted(u.value))
    ensures IsLine(AddedLine(u)) && Ended(AddedLine(u))
  {
    hide Classify, Trim, Find, IsLine, Ended, Bare;
    AddedIsLine(u);
    QuotedIsBare(u.value);
    assert AllSpace(" ") && AllSpace("\n") && AllSpace("") by { Spaces(); }
    var a, b := u.key + " ", " " + Quoted(u.value) + "\n";
    assert AddedLine(u) == a + "=" + b;
    assert [] + u.key + " " == a;
    TrimPad([], u.key, " ");
    TrimBare(u.key);
    TrimUnique(" ", Quoted(u.value), "\n");
    ClassifyAssignment(a, b);
  }

  lemma SectionReads(s: string)
    requires Bare(s) && ']' !in s && '\n' !in s
    ensures Classify(SectionLine(s)) == Header(s, "")
    ensures IsLine(SectionLine(s)) && Ended(SectionLine(s))
  {
    hide Classify, Trim, Find;
    assert SectionLine(s) == "[" + s + "]" + "\n";
    ClassifyHeader(s, "\n");
    TrimBare(s);
  }

  // ---------- what the edited lines read ----------

  /** All n values are v. */
  predicate AllAre(vs: seq<string>, v: string) { forall x :: x in vs ==> x == v }

  lemma EditLineReads(line: string, section: string, ups: seq<Update>)
    requires IsLine(line) && GoodUpdates(ups)
    ensures var edited := EditLine(line, section, ups);
            && IsLine(edited) && Ended(edited) == Ended(line)
            && (!Classify(line).Entry? ==> edited == line)
            && (Classify(line).Entry? ==>
                  var Entry(k, raw) := Classify(line);
                  var i := FindUpdate(ups, section, k);
                  && Classify(edited).Entry? && Classify(edited).key == k
                  && (i == |ups| ==> edited == line)
                  && (i < |ups| ==> Unquote(section, Classify(edited).value) == ups[i].value))
  {
    hide Classify, Find, Unquote, Rewritten;
    if Classify(line).Entry? {
      var Entry(k, raw) := Classify(line);
      var i := FindUpdate(ups, section, k);
      var a, b := EntrySplit(line);
      if i < |ups| {
        assert GoodUpdate(ups[i]);
        RewrittenReads(line, ups[i].value);
        UnquoteQuoted(section, ups[i].value);
      }
    }
  }

  /** In the edited lines an updated key reads its new value wherever it was assigned,
      and every other key reads as before. */
  lemma {:induction false} EditedReads(ls: seq<string>, section: string, ups: seq<Update>, s: string, k: string)
    requires GoodUpdates(ups) && WellSplit(ls)
    ensures WellSplit(EditLines(ls, section, ups))
    ensures LastSection(Web, EditLines(ls, section, ups), Some(section)) == LastSection(Web, ls, Some(section))
    ensures |WebValues(EditLines(ls, section, ups), section, s, k)| == |WebValues(ls, section, s, k)|
    ensures var i := FindUpdate(ups, s, k);
            var vs := WebValues(EditLines(ls, section, ups), section, s, k);
            if i < |ups| then AllAre(UnquoteAll(s, vs), ups[i].value) else vs == WebValues(ls, section, s, k)
    decreases |ls|
  {
    hide Classify, Unquote, EditLine, GoodUpdates, FindUpdate, IsLine, Ended, Values, UnquoteAll, LastSection;
    if ls == [] {
      EmptyReads(section, ups, s, k);
    } else {
      var l, next := EditLine(ls[0], section, ups), Step(section, ls[0]);
      var rest := EditLines(ls[1..], next, ups);
      EditLineReads(ls[0], section, ups);
      EditedReads(ls[1..], next, ups, s, k);
      assert ls == [ls[0]] + ls[1..];
      ValuesCons(Web, ls[0], ls[1..], Some(section), s, k);
      ValuesCons(Web, l, rest, Some(section), s, k);
      LastSectionCons(ls[0], ls[1..], section);
      LastSectionCons(l, rest, section);
      assert ([l] + rest)[1..] == rest;
      assert Step(section, l) == next;
      var more := WebValues(rest, next, s, k);
      if Assigns(l, Some(section), s, k) {
        UnquoteCons(s, Classify(l).value, more);
      } else {
        assert [] + more == more;
      }
    }
  }

  lemma LastSectionCons(l: string, ls: seq<string>, section: string)
    ensures LastSection(Web, [l] + ls, Some(section)) == LastSection(Web, ls, Some(Step(section, l)))
  {
    hide Classify;
    assert ([l] + ls)[1..] == ls;
  }

  lemma EmptyReads(section: string, ups: seq<Update>, s: string, k: string)
    ensures EditLines([], section, ups) == [] && WebValues([], section, s, k) == []
    ensures UnquoteAll(s, []) == [] && LastSection(Web, [], Some(section)) == Some(section)
  {
  }

  lemma {:induction false} CompleteLastReads(ls: seq<string>, section: string, s: string, k: string)
    requires WellSplit(ls)
    ensures WebValues(CompleteLast(ls), section, s, k) == WebValues(ls, section, s, k)
    ensures LastSection(Web, CompleteLast(ls), Some(section)) == LastSection(Web, ls, Some(section))
    ensures AllEnded(CompleteLast(ls))
    decreases |ls|
  {
    hide Classify, Complete, IsLine, Ended;
    if ls != [] {
      assert ls == [ls[0]] + ls[1..];
      if |ls| == 1 {
        ClassifyComplete(ls[0]);
        CompleteIsLine(ls[0]);
        assert CompleteLast(ls) == [Complete(ls[0])] + [];
        ValuesCons(Web, ls[0], [], Some(section), s, k);
        ValuesCons(Web, Complete(ls[0]), [], Some(section), s, k);
      } else {
        CompleteLastReads(ls[1..], Step(section, ls[0]), s, k);
        var rest := CompleteLast(ls[1..]);
        assert CompleteLast(ls) == [ls[0]] + rest;
        assert ([ls[0]] + rest)[1..] == rest;
        ValuesCons(Web, ls[0], rest, Some(section), s, k);
      }
    }
  }

  // ---------- what the added lines read ----------

  /** Every line complete. */
  predicate AllEnded(ls: seq<string>)
  {
    ls == [] || (IsLine(ls[0]) && Ended(ls[0]) && AllEnded(ls[1..]))
  }

  lemma {:induction false} AllEndedConcat(a: seq<string>, b: seq<string>)
    requires AllEnded(a)
    ensures AllEnded(b) ==> AllEnded(a + b)
    ensures WellSplit(b) ==> WellSplit(a + b)
  {
    hide IsLine, Ended;
    if a == [] {
      assert a + b == b;
    } else {
      assert (a + b)[1..] == a[1..] + b;
      AllEndedConcat(a[1..], b);
    }
  }

  lemma AllEndedSplit(ls: seq<string>)
    requires AllEnded(ls)
    ensures WellSplit(ls)
  {
    assert ls + [] == ls;
    AllEndedConcat(ls, []);
  }

  /** The quoted values these updates give to one key. */
  function Pick(ms: seq<Update>, s: string, k: string): seq<string>
  {
    if ms == [] then []
    else (if Named(ms[0], s, k) then [Quoted(ms[0].value)] else []) + Pick(ms[1..], s, k)
  }

  predicate AllGood(ms: seq<Update>) { forall u :: u in ms ==> GoodUpdate(u) }

  lemma {:induction false} AddedLinesRead(ms: seq<Update>, section: string, s: string, k: string)
    requires AllGood(ms) && (forall u :: u in ms ==> u.section == section)
    ensures WebValues(AddedLines(ms), section, s, k) == Pick(ms, s, k)
    ensures LastSection(Web, AddedLines(ms), Some(section)) == Some(section)
    ensures AllEnded(AddedLines(ms))
  {
    hide Classify, IsLine, Ended, GoodUpdate;
    if ms != [] {
      AddedReads(ms[0]);
      AddedLinesRead(ms[1..], section, s, k);
      var l, rest := AddedLine(ms[0]), AddedLines(ms[1..]);
      ValuesCons(Web, l, rest, Some(section), s, k);
      assert ([l] + rest)[1..] == rest;
    }
  }

  lemma PickCons(u: Update, ms: seq<Update>, s: string, k: string)
    ensures Pick([u] + ms, s, k) == (if Named(u, s, k) then [Quoted(u.value)] else []) + Pick(ms, s, k)
  {
    assert ([u] + ms)[1..] == ms;
  }

  lemma {:induction false} PickSplits(ms: seq<Update>, section: string, s: string, k: string)
    ensures Pick(ms, s, k) == if s == section then Pick(InSection(ms, section), s, k)
                              else Pick(OutsideSection(ms, section), s, k)
    ensures s == section ==> Pick(OutsideSection(ms, section), s, k) == []
    ensures s != section ==> Pick(InSection(ms, section), s, k) == []
    ensures forall u :: u in InSection(ms, section) ==> u in ms && u.section == section
    ensures forall u :: u in OutsideSection(ms, section) ==> u in ms
  {
    hide Pick;
    if ms == [] {
      assert Pick([], s, k) == [] by { NothingReads("", s, k); }
    } else {
      PickSplits(ms[1..], section, s, k);
      var u, a, b := ms[0], InSection(ms[1..], section), OutsideSection(ms[1..], section);
      assert ms == [u] + ms[1..];
      PickCons(u, ms[1..], s, k);
      PickCons(u, a, s, k);
      PickCons(u, b, s, k);
      assert [] + a == a && [] + b == b;
    }
  }

  /** One block: a blank line, a header and the lines of one section, then the rest. */
  lemma BlockReads(name: string, own: seq<string>, others: seq<string>, section: string, s: string, k: string)
    requires Bare(name) && ']' !in name && '\n' !in name && Cut(name) == name
    requires AllEnded(own) && AllEnded(others) && LastSection(Web, own, Some(name)) == Some(name)
    ensures WebValues(["\n", SectionLine(name)] + own + others, section, s, k)
         == WebValues(own, name, s, k) + WebValues(others, name, s, k)
    ensures AllEnded(["\n", SectionLine(name)] + own + others)
    ensures AllEnded([SectionLine(name)] + own + others)
    ensures WebValues([SectionLine(name)] + own + others, section, s, k)
         == WebValues(own, name, s, k) + WebValues(others, name, s, k)
  {
    hide Classify, IsLine, Ended, SectionLine, Values, LastSection, Cut;
    SectionReads(name);
    BlankLineReads();
    var tail := own + others;
    var more := [SectionLine(name)] + tail;
    ValuesConcat(Web, own, others, Some(name), s, k);
    AllEndedConcat(own, others);
    ValuesCons(Web, SectionLine(name), tail, Some(section), s, k);
    ValuesCons(Web, "\n", more, Some(section), s, k);
    assert more == [SectionLine(name)] + own + others;
    assert ["\n", SectionLine(name)] + own + others == ["\n"] + more;
    assert more[1..] == tail && (["\n"] + more)[1..] == more;
  }

  /** The added blocks assign every missing key once and nothing else,
      with or without their first blank line. */
  lemma {:induction false} BlocksRead(ms: seq<Update>, section: string, s: string, k: string)
    requires AllGood(ms)
    ensures WebValues(Blocks(ms), section, s, k) == Pick(ms, s, k) && AllEnded(Blocks(ms))
    ensures ms != [] ==> Blocks(ms) != [] && WebValues(Blocks(ms)[1..], section, s, k) == Pick(ms, s, k)
                         && AllEnded(Blocks(ms)[1..])
    decreases |ms|
  {
    hide Classify, IsLine, Ended, GoodUpdate, Pick, SectionLine, WebValues, LastSection, AddedLines, AllEnded,
         InSection, OutsideSection;
    if ms == [] {
      NothingReads(section, s, k);
    } else {
      var name := ms[0].section;
      GoodSectionOf(ms[0]);
      PickSplits(ms, name, s, k);
      var own, others := AddedLines(InSection(ms, name)), Blocks(OutsideSection(ms, name));
      AddedLinesRead(InSection(ms, name), name, s, k);
      BlocksRead(OutsideSection(ms, name), name, s, k);
      BlockReads(name, own, others, section, s, k);
      assert Blocks(ms) == ["\n", SectionLine(name)] + own + others;
      assert Blocks(ms)[1..] == [SectionLine(name)] + own + others;
    }
  }

  lemma GoodSectionOf(u: Update)
    requires GoodUpdate(u)
    ensures Bare(u.section) && ']' !in u.section && '\n' !in u.section && Cut(u.section) == u.section
  {
  }

  lemma NothingReads(section: string, s: string, k: string)
    ensures WebValues([], section, s, k) == [] && Pick([], s, k) == [] && AllEnded([])
  {
  }

  // ---------- when the edit succeeds ----------

  lemma {:induction false} EditKeepsLines(ls: seq<string>, section: string, ups: seq<Update>)
    requires WellSplit(ls)
    ensures |EditLines(ls, section, ups)| == |ls|
    ensures forall l :: l in EditLines(ls, section, ups) ==> l != ""
  {
    hide Classify, Find, Unquote;
    if ls != [] { EditKeepsLines(ls[1..], Step(section, ls[0]), ups); }
  }

  lemma FlattenFirst(ls: seq<string>)
    requires ls != [] && ls[0] != ""
    ensures Flatten(ls) != ""
  {
  }

  lemma {:induction false} AllMissing(ups: seq<Update>, i: nat)
    requires i <= |ups|
    ensures MissingFrom([], ups, i) == ups[i..]
    decreases |ups| - i
  {
    if i < |ups| {
      NoLines("", ups[i].section, ups[i].key);
      AllMissing(ups, i + 1);
    }
  }

  lemma {:induction false} MissingAbsentFrom(ls: seq<string>, ups: seq<Update>, i: nat)
    requires DistinctNames(ups) && i <= |ups|
    ensures MissingFrom(ls, ups, i) == Absent(ls, ups[i..])
    decreases |ups| - i
  {
    hide Values, FindUpdate;
    if i < |ups| {
      assert ups[i..][1..] == ups[i + 1..];
      FoundFirst(ups, i);
      MissingAbsentFrom(ls, ups, i + 1);
    }
  }

  lemma MissingAbsent(ls: seq<string>, ups: seq<Update>)
    requires DistinctNames(ups)
    ensures Missing(ls, ups) == Absent(ls, ups)
  {
    MissingAbsentFrom(ls, ups, 0);
    assert ups[0..] == ups;
  }

  lemma FoundFirst(ups: seq<Update>, i: nat)
    requires DistinctNames(ups) && i < |ups|
    ensures FindUpdate(ups, ups[i].section, ups[i].key) == i
  {
    var j := FindUpdate(ups, ups[i].section, ups[i].key);
    assert j <= i && Named(ups[j], ups[i].section, ups[i].key);
  }

  /** The edited text is empty only if there was no text and nothing to write. */
  lemma EditedEmpty(ls: seq<string>, ups: seq<Update>)
    requires WellSplit(ls)
    ensures Flatten(EditedLines(ls, ups)) == "" <==> ls == [] && ups == []
  {
    hide EditLines, MissingFrom, WellSplit, Blocks;
    var out, ms := EditLines(ls, "", ups), Missing(ls, ups);
    if ls == [] {
      AllMissing(ups, 0);
      assert ups[0..] == ups;
      NothingEdited(ups);
      if ups != [] { FirstBlock(ups); FlattenFirst(Blocks(ups)[1..]); }
    } else {
      EditKeepsLines(ls, "", ups);
      assert out[0] in out;
      var all := EditedLines(ls, ups);
      assert all[0] == out[0] || all[0] == Complete(out[0]);
      FlattenFirst(all);
    }
  }

  lemma FirstBlock(ms: seq<Update>)
    requires ms != []
    ensures |Blocks(ms)| >= 2 && Blocks(ms)[1] != ""
  {
  }

  // ---------- the map laws ----------

  lemma {:induction false} WebSectionKnown(ls: seq<string>, section: string)
    ensures LastSection(Web, ls, Some(section)).Some?
  {
    hide Classify;
    if ls != [] { WebSectionKnown(ls[1..], Step(section, ls[0])); }
  }

  /** The absent updates assign exactly the updated keys that had no value. */
  lemma {:induction false} AbsentPick(ls: seq<string>, ups: seq<Update>, s: string, k: string)
    requires GoodUpdates(ups)
    ensures AllGood(Absent(ls, ups))
    ensures var i := FindUpdate(ups, s, k);
            Pick(Absent(ls, ups), s, k)
              == if i < |ups| && WebValues(ls, "", s, k) == [] then [Quoted(ups[i].value)] else []
  {
    hide Values, GoodUpdate, Pick, FindUpdate, GoodUpdates, Quoted;
    if ups == [] {
      NothingReads("", s, k);
      NoUpdate(s, k);
    } else {
      var u, rest := ups[0], ups[1..];
      GoodCons(ups);
      AbsentPick(ls, rest, s, k);
      PickCons(u, Absent(ls, rest), s, k);
      assert [] + Absent(ls, rest) == Absent(ls, rest);
      assert [Quoted(u.value)] + [] == [Quoted(u.value)];
      FindCons(ups, s, k);
    }
  }

  lemma NoUpdate(s: string, k: string)
    ensures FindUpdate([], s, k) == 0
  {
  }

  lemma GoodCons(ups: seq<Update>)
    requires GoodUpdates(ups) && ups != []
    ensures GoodUpdate(ups[0]) && GoodUpdates(ups[1..])
  {
    hide GoodUpdate;
    assert forall i :: 0 <= i < |ups[1..]| ==> ups[1..][i] == ups[i + 1];
  }

  /** The first of distinct updates hides none of the others. */
  lemma FindCons(ups: seq<Update>, s: string, k: string)
    requires GoodUpdates(ups) && ups != []
    ensures var i, j := FindUpdate(ups, s, k), FindUpdate(ups[1..], s, k);
            if Named(ups[0], s, k) then i == 0 && j == |ups[1..]| else i == 1 + j
  {
    hide GoodUpdate;
    var rest := ups[1..];
    assert forall m :: 0 <= m < |rest| ==> rest[m] == ups[m + 1];
    if Named(ups[0], s, k) {
      var j := FindUpdate(rest, s, k);
      assert forall m :: 0 <= m < |rest| ==> rest[m] == ups[m + 1] && !Named(rest[m], ups[0].section, ups[0].key);
    }
  }

  lemma MissingPick(ls: seq<string>, ups: seq<Update>, s: string, k: string)
    requires GoodUpdates(ups)
    ensures AllGood(Missing(ls, ups))
    ensures var i := FindUpdate(ups, s, k);
            Pick(Missing(ls, ups), s, k)
              == if i < |ups| && WebValues(ls, "", s, k) == [] then [Quoted(ups[i].value)] else []
  {
    hide Missing, Absent, FindUpdate, Pick, WebValues, GoodUpdate;
    MissingAbsent(ls, ups);
    AbsentPick(ls, ups, s, k);
  }

  /** What every key reads in the edited lines. */
  lemma EditedLookup(ls: seq<string>, ups: seq<Update>, s: string, k: string)
    requires GoodUpdates(ups) && WellSplit(ls)
    requires var i := FindUpdate(ups, s, k); i < |ups| ==> |WebValues(ls, "", s, k)| <= 1
    ensures WellSplit(EditedLines(ls, ups))
    ensures var i := FindUpdate(ups, s, k);
            var vs := WebValues(EditedLines(ls, ups), "", s, k);
            if i < |ups| then UnquoteAll(s, vs) == [ups[i].value] else vs == WebValues(ls, "", s, k)
  {
    hide Values, Classify, EditLines, Blocks, Missing, Pick, LastSection, GoodUpdates, CompleteLast, Unquote,
         IsLine, Ended;
    var i, out, ms := FindUpdate(ups, s, k), EditLines(ls, "", ups), Missing(ls, ups);
    EditedReads(ls, "", ups, s, k);
    MissingPick(ls, ups, s, k);
    CompleteLastReads(out, "", s, k);
    WebSectionKnown(CompleteLast(out), "");
    var last := LastSection(Web, CompleteLast(out), Some("")).value;
    BlocksRead(ms, last, s, k);
    BlocksRead(ms, "", s, k);
    ValuesConcat(Web, CompleteLast(out), Blocks(ms), Some(""), s, k);
    AllEndedSplit(Blocks(ms));
    AllEndedConcat(CompleteLast(out), Blocks(ms));
    var before, added := WebValues(ls, "", s, k), Pick(ms, s, k);
    if ms == [] {
      NothingReads("", s, k);
    } else if ls == [] {
      AllEndedSplit(Blocks(ms)[1..]);
      NothingReads("", s, k);
      NoLines("", s, k);
    }
    assert WebValues(EditedLines(ls, ups), "", s, k) == WebValues(out, "", s, k) + added by {
      if ls == [] { NoLines("", s, k); assert out == [] by { NothingEdited(ups); } }
    }
    if i < |ups| {
      assert GoodUpdate(ups[i]) by { GoodAt(ups, i); }
      UnquoteQuoted(s, ups[i].value);
      OneValue(s, WebValues(out, "", s, k), added, |before|, ups[i].value);
    } else {
      assert WebValues(out, "", s, k) + [] == before;
    }
  }

  lemma OneValue(s: string, vs: seq<string>, added: seq<string>, n: nat, v: string)
    requires n <= 1 && |vs| == n && AllAre(UnquoteAll(s, vs), v)
    requires added == if n == 0 then [Quoted(v)] else []
    requires Unquote(s, Quoted(v)) == v
    ensures UnquoteAll(s, vs + added) == [v]
  {
    hide Unquote;
    if n == 0 {
      assert vs + added == [Quoted(v)];
    } else {
      assert vs + added == vs && UnquoteAll(s, vs)[0] in UnquoteAll(s, vs);
    }
  }

  lemma GoodAt(ups: seq<Update>, i: nat)
    requires GoodUpdates(ups) && i < |ups|
    ensures GoodUpdate(ups[i]) && FindUpdate(ups, ups[i].section, ups[i].key) == i
  {
    var j := FindUpdate(ups, ups[i].section, ups[i].key);
    assert j <= i && Named(ups[j], ups[i].section, ups[i].key);
  }

  lemma NoLines(section: string, s: string, k: string)
    ensures WebValues([], section, s, k) == []
  {
  }

  lemma NothingEdited(ups: seq<Update>)
    ensures EditLines([], "", ups) == []
  {
  }

  /** A successful edit gives every updated key its value, exactly once, and leaves every other key alone. */
  lemma AppliedLookup(config: string, ups: seq<Update>, addMissing: bool, s: string, k: string)
    requires GoodUpdates(ups) && Applied(config, ups, addMissing).Edited?
    ensures Lines(Applied(config, ups, addMissing).text) == EditedLines(Lines(config), ups)
    ensures var i, edited := FindUpdate(ups, s, k), Lines(Applied(config, ups, addMissing).text);
            if i < |ups| then UnquoteAll(s, WebValues(edited, "", s, k)) == [ups[i].value]
            else WebValues(edited, "", s, k) == WebValues(Lines(config), "", s, k)
  {
    hide Values, EditedLines, FindUpdate, Lines;
    var ls := Lines(config);
    LinesFlatten(config);
    EditedLookup(ls, ups, s, k);
    FlattenLines(EditedLines(ls, ups));
  }

  /** Get after put: the reader returns the new values, and what it returned before for other keys. */
  lemma GetAfterEdit(config: string, ups: seq<Update>, addMissing: bool, s: string, k: string, size: nat)
    requires GoodUpdates(ups) && Applied(config, ups, addMissing).Edited?
    ensures var i, edited := FindUpdate(ups, s, k), Applied(config, ups, addMissing).text;
            GetValue(edited, s, k, size)
              == if i == |ups| then GetValue(config, s, k, size)
                 else if |ups[i].value| < size then Some(ups[i].value) else None
  {
    AppliedLookup(config, ups, addMissing, s, k);
  }

  /** Lines on which every updated key already reads its value are not touched. */
  lemma {:induction false} EditFixed(ls: seq<string>, section: string, ups: seq<Update>)
    requires forall i :: 0 <= i < |ups| ==>
               AllAre(UnquoteAll(ups[i].section, WebValues(ls, section, ups[i].section, ups[i].key)), ups[i].value)
    ensures EditLines(ls, section, ups) == ls
    decreases |ls|
  {
    hide Classify, Unquote, Find, Rewritten;
    if ls != [] {
      var l, rest, next := ls[0], ls[1..], Step(section, ls[0]);
      assert ls == [l] + rest;
      forall i | 0 <= i < |ups|
        ensures AllAre(UnquoteAll(ups[i].section, WebValues(rest, next, ups[i].section, ups[i].key)), ups[i].value)
        ensures Assigns(l, Some(section), ups[i].section, ups[i].key) ==>
                  Unquote(section, Classify(l).value) == ups[i].value
      {
        var u := ups[i];
        ValuesCons(Web, l, rest, Some(section), u.section, u.key);
        var vs, more := WebValues(ls, section, u.section, u.key), WebValues(rest, next, u.section, u.key);
        if Assigns(l, Some(section), u.section, u.key) {
          assert vs[0] == Classify(l).value && vs[1..] == more;
          assert UnquoteAll(u.section, vs) == [Unquote(u.section, vs[0])] + UnquoteAll(u.section, more);
          assert UnquoteAll(u.section, vs)[0] in UnquoteAll(u.section, vs);
          assert AllAre(UnquoteAll(u.section, more), u.value) by {
            assert forall x :: x in UnquoteAll(u.section, more) ==> x in UnquoteAll(u.section, vs);
          }
        } else {
          assert vs == more;
        }
      }
      EditFixed(rest, next, ups);
    }
  }

  lemma {:induction false} NothingAbsent(ls: seq<string>, ups: seq<Update>)
    requires forall i :: 0 <= i < |ups| ==> WebValues(ls, "", ups[i].section, ups[i].key) != []
    ensures Absent(ls, ups) == []
  {
    if ups != [] {
      assert forall i :: 0 <= i < |ups[1..]| ==> ups[1..][i] == ups[i + 1];
      NothingAbsent(ls, ups[1..]);
    }
  }

  lemma NothingMissing(ls: seq<string>, ups: seq<Update>)
    requires DistinctNames(ups)
    requires forall i :: 0 <= i < |ups| ==> WebValues(ls, "", ups[i].section, ups[i].key) != []
    ensures Missing(ls, ups) == []
  {
    hide Missing, Absent, WebValues;
    NothingAbsent(ls, ups);
    MissingAbsent(ls, ups);
  }

  lemma NamesOf(ups: seq<Update>)
    requires GoodUpdates(ups)
    ensures DistinctNames(ups)
  {
  }

  /** Applying the same updates again returns the same bytes. */
  lemma ApplyTwice(config: string, ups: seq<Update>, addMissing: bool, again: bool)
    requires GoodUpdates(ups) && Applied(config, ups, addMissing).Edited?
    ensures Applied(Applied(config, ups, addMissing).text, ups, again) == Applied(config, ups, addMissing)
  {
    hide EditLines, Missing, Unquote, WebValues, Lines, GoodUpdates, FindUpdate;
    var text := Applied(config, ups, addMissing).text;
    var edited := Lines(text);
    forall i | 0 <= i < |ups|
      ensures |WebValues(edited, "", ups[i].section, ups[i].key)| == 1
      ensures UnquoteAll(ups[i].section, WebValues(edited, "", ups[i].section, ups[i].key)) == [ups[i].value]
    {
      GoodAt(ups, i);
      AppliedLookup(config, ups, addMissing, ups[i].section, ups[i].key);
    }
    EditFixed(edited, "", ups);
    assert DistinctNames(ups) by { NamesOf(ups); }
    NothingMissing(edited, ups);
    LinesFlatten(text);
  }

  // ---------- what survives ----------

  /** The section a line is read in. */
  function SectionAt(ls: seq<string>, section: string, i: nat): string
    requires i <= |ls|
  {
    if i == 0 then section else SectionAt(ls[1..], Step(section, ls[0]), i - 1)
  }

  /** This line assigns an updated key another value. */
  predicate Changes(line: string, section: string, ups: seq<Update>)
  {
    Classify(line).Entry? &&
    var i := FindUpdate(ups, section, Classify(line).key);
    i < |ups| && Unquote(section, Classify(line).value) != ups[i].value
  }

  /** The new value of the key of such a line. */
  function NewValue(line: string, section: string, ups: seq<Update>): string
    requires Changes(line, section, ups)
  {
    ups[FindUpdate(ups, section, Classify(line).key)].value
  }

  lemma {:induction false} EditLinesAt(ls: seq<string>, section: string, ups: seq<Update>, i: nat)
    requires i < |ls|
    ensures |EditLines(ls, section, ups)| == |ls|
    ensures EditLines(ls, section, ups)[i] == EditLine(ls[i], SectionAt(ls, section, i), ups)
    decreases |ls|
  {
    hide EditLine, Step;
    if i > 0 {
      EditLinesAt(ls[1..], Step(section, ls[0]), ups, i - 1);
    } else if |ls| > 1 {
      EditLinesAt(ls[1..], Step(section, ls[0]), ups, 0);
    } else {
      assert EditLines(ls[1..], Step(section, ls[0]), ups) == [];
    }
  }

  /** What stands in its place, apart from the newline: the text up to its '=' and the new value in quotes if it assigns
      an updated key another value, and otherwise the line itself. */
  function NewBody(line: string, section: string, ups: seq<Update>): string
  {
    if Changes(line, section, ups) && Find(line, '=') < |line|
    then line[..Find(line, '=')] + "= \"" + NewValue(line, section, ups) + "\"" else Body(line)
  }

  lemma EditLineIs(line: string, section: string, ups: seq<Update>)
    requires IsLine(line)
    ensures Changes(line, section, ups) ==> Find(line, '=') < |line|
    ensures EditLine(line, section, ups)
         == if Changes(line, section, ups) then Rewritten(line, NewValue(line, section, ups)) else line
  {
    hide Classify, Unquote, Find, Rewritten;
    if Classify(line).Entry? { var a, b := EntrySplit(line); }
  }

  lemma RewrittenBody(line: string, v: string)
    requires Find(line, '=') < |line|
    ensures Body(Rewritten(line, v)) == line[..Find(line, '=')] + "= \"" + v + "\""
  {
    hide Find, Body, Quoted, Ended;
    var a := line[..Find(line, '=')];
    FoundAt(line, '=');
    Rejoined(a, v);
    QuoteEnds(a + "= \"" + v + "\"", a + "= \"" + v);
  }

  lemma Rejoined(a: string, v: string)
    ensures (a + ['=']) + " " + Quoted(v) == a + "= \"" + v + "\""
  {
  }

  lemma FoundAt(s: string, c: char)
    requires Find(s, c) < |s|
    ensures s[..Find(s, c) + 1] == s[..Find(s, c)] + [c]
  {
  }

  lemma QuoteEnds(body: string, front: string)
    requires body == front + "\""
    ensures Body(body + "\n") == body && Body(body + "") == body
  {
    assert body + "" == body && body[|body| - 1] == '"';
    assert (body + "\n")[..|body|] == body;
  }

  lemma EditLineBody(line: string, section: string, ups: seq<Update>)
    requires IsLine(line)
    ensures Body(EditLine(line, section, ups)) == NewBody(line, section, ups)
    ensures Changes(line, section, ups) ==> Find(line, '=') < |line|
  {
    hide Changes, EditLine, Rewritten, Find, Body, NewValue;
    EditLineIs(line, section, ups);
    if Changes(line, section, ups) { RewrittenBody(line, NewValue(line, section, ups)); }
  }

  /** Every old line, comments and blank lines included, stands where it stood, with the new value if it assigned an
      updated key another one. Only the last line may get the newline it lacked. */
  lemma LinesSurvive(ls: seq<string>, ups: seq<Update>, i: nat)
    requires WellSplit(ls) && i < |ls|
    ensures |EditedLines(ls, ups)| >= |ls|
    ensures Body(EditedLines(ls, ups)[i]) == NewBody(ls[i], SectionAt(ls, "", i), ups)
    ensures Changes(ls[i], SectionAt(ls, "", i), ups) ==> Find(ls[i], '=') < |ls[i]|
  {
    hide Changes, NewBody, EditLine, EditLines, Missing, Blocks, Find, IsLine, Body, SectionAt, Complete;
    EditLinesAt(ls, "", ups, i);
    LineOf(ls, i);
    EditLineBody(ls[i], SectionAt(ls, "", i), ups);
    var out := EditLines(ls, "", ups);
    CompleteBody(out[i]);
    assert EditedLines(ls, ups)[i] == out[i] || EditedLines(ls, ups)[i] == Complete(out[i]);
  }

  lemma {:induction false} LineOf(ls: seq<string>, i: nat)
    requires WellSplit(ls) && i < |ls|
    ensures IsLine(ls[i])
  {
    if i > 0 { LineOf(ls[1..], i - 1); }
  }

  lemma CompleteBody(l: string)
    ensures Body(Complete(l)) == Body(l)
  {
    assert (l + "\n")[..|l|] == l;
  }

  /** Into an empty text the edit writes the section's header and the key with its value in quotes. */
  lemma AppliedNew(u: Update)
    requires |u.section| + |u.key| + |u.value| + 9 <= MAX_CONFIG
    ensures Applied("", [u], true) == Edited("[" + u.section + "]\n" + u.key + " = \"" + u.value + "\"\n")
  {
    hide Find;
    var ls := [SectionLine(u.section), AddedLine(u)];
    assert Lines("") == [] && Missing([], [u]) == [u] by { NothingMet(u); }
    assert Blocks([u]) == ["\n"] + ls by { OneBlock(u); }
    assert EditedLines([], [u]) == ls;
    FlattenCons(SectionLine(u.section), [AddedLine(u)]);
    FlattenCons(AddedLine(u), []);
    assert ls == [SectionLine(u.section)] + [AddedLine(u)] && [AddedLine(u)] == [AddedLine(u)] + [];
    assert SectionLine(u.section) + (AddedLine(u) + "")
        == "[" + u.section + "]\n" + u.key + " = \"" + u.value + "\"\n";
  }

  lemma NothingMet(u: Update)
    ensures Missing([], [u]) == [u]
  {
    assert MissingFrom([], [u], 1) == [];
    assert !Met([], [u], 0);
  }

  lemma OneBlock(u: Update)
    ensures Blocks([u]) == ["\n", SectionLine(u.section), AddedLine(u)]
  {
    assert [u][1..] == [];
    assert InSection([u], u.section) == [u] && OutsideSection([u], u.section) == [];
    assert AddedLines([u]) == [AddedLine(u)];
  }
}
