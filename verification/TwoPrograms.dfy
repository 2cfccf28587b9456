/** The configuration file between its two programs: what the web service writes,
    the application loads, and both read the same values. */
module TwoPrograms {
  import opened Ini
  import opened AppConfig
  import opened WebIni
  import opened WebSave
  import S = ConfigSave

  // ---------- the two readers agree ----------

  /** On lines the loader takes, both programs follow the same sections. */
  lemma {:induction false} SameSections(ls: seq<string>, section: string, s: string, k: string)
    requires AllStrict(ls)
    ensures Values(Editor, ls, Some(section), s, k) == WebValues(ls, section, s, k)
    decreases |ls|
  {
    hide Classify, FitsBuffer;
    if ls != [] {
      assert Strict(ls[0]);
      assert AllStrict(ls[1..]) by { assert forall l :: l in ls[1..] ==> l in ls; }
      SameSections(ls[1..], Step(section, ls[0]), s, k);
    }
  }

  /** For every text the loader accepts, the web reader returns for each field exactly the
      text the loader handed to set_field(), and nothing exactly when the loader saw none. */
  lemma ReadersAgree(t: Table, c: Config, text: string, i: nat, size: nat)
    requires GoodTable(t) && Typed(t, c) && i < |t.fields|
    requires LoadText(t, c, text).Success?
    requires size > |text|
    ensures var h := Handed(Lines(text), "", t.fields[i]);
            GetValue(text, t.fields[i].section, t.fields[i].key, size)
              == if h == [] then None else Some(h[0])
  {
    hide Classify, Values, SetField, SupportValid, FieldAccepted, Loaded;
    var f, ls := t.fields[i], Lines(text);
    LoadMeaning(t, StartState(t, c), 1, ls);
    SameSections(ls, "", f.section, f.key);
    LinesFlatten(text);
    ValueLengths(ls, Some(""), f.section, f.key);
  }

  /** No value is longer than the text it comes from. */
  lemma {:induction false} ValueLengths(ls: seq<string>, section: Option<string>, s: string, k: string)
    ensures forall v :: v in Values(Web, ls, section, s, k) ==> |v| <= |Flatten(ls)|
    ensures forall v :: v in UnquoteAll(s, Values(Web, ls, section, s, k)) ==> |v| <= |Flatten(ls)|
  {
    hide Classify, Unquote;
    if ls != [] {
      var next := NextSection(Web, section, Classify(ls[0]));
      ValueLengths(ls[1..], next, s, k);
      var more := Values(Web, ls[1..], next, s, k);
      if Assigns(ls[0], section, s, k) {
        ItemLength(ls[0]);
        var v := Classify(ls[0]).value;
        UnquoteLength(s, v);
        assert ([v] + more)[1..] == more;
      } else {
        assert [] + more == more;
      }
    }
  }

  lemma ItemLength(line: string)
    requires Classify(line).Entry?
    ensures |Classify(line).value| <= |line|
  {
    hide Classify, Trim;
    var a, b := EntrySplit(line);
    var l, r := TrimParts(b);
  }

  lemma UnquoteLength(s: string, v: string)
    ensures |Unquote(s, v)| <= |v|
  {
    if |v| >= 2 { var l, r := TrimParts(v[1..|v| - 1]); }
  }

  // ---------- a web edit, then the loader ----------

  /** Every update names a row of the table, and its value is one set_field() takes. */
  ghost predicate Settable(t: Table, ups: seq<Update>)
  {
    forall i :: 0 <= i < |ups| ==>
      var j := FindField(t.fields, ups[i].section, ups[i].key);
      j < |t.fields| && |ups[i].value| <= VALUE_MAX && SetField(t.ipv4, t.fields[j], ups[i].value).Some?
  }

  /** The structure with every update applied to its field. */
  function Updated(t: Table, c: Config, ups: seq<Update>): (r: Config)
    requires Typed(t, c)
    ensures Typed(t, r)
  {
    seq(|c|, j requires 0 <= j < |c| =>
      var f := t.fields[j];
      var i := FindUpdate(ups, f.section, f.key);
      if i < |ups| && SetField(t.ipv4, f, ups[i].value).Some?
      then SetField(t.ipv4, f, ups[i].value).value else c[j])
  }

  lemma LoadableNames(t: Table, ups: seq<Update>, i: nat)
    requires GoodTable(t) && Settable(t, ups) && i < |ups| && Quotable(ups[i].section, ups[i].value)
    ensures GoodUpdate(ups[i]) && |ups[i].section| < 64 && ups[i].section != [] && |ups[i].key| < 48
  {
    hide SetField, Classify;
    var j := FindField(t.fields, ups[i].section, ups[i].key);
    assert GoodField(t.fields[j]);
  }

  lemma AddedStrict(u: Update)
    requires GoodUpdate(u) && |u.section| < 64 && u.section != [] && |u.key| < 48 && |u.value| <= VALUE_MAX
    ensures Strict(AddedLine(u)) && Strict(SectionLine(u.section)) && Strict("\n")
  {
    hide Classify, Trim, Find;
    AddedReads(u);
    SectionReads(u.section);
    BlankLineReads();
  }

  predicate Loadable(u: Update)
  {
    GoodUpdate(u) && |u.section| < 64 && u.section != [] && |u.key| < 48 && |u.value| <= VALUE_MAX
  }

  lemma {:induction false} AddedLinesStrict(ms: seq<Update>)
    requires forall u :: u in ms ==> Loadable(u)
    ensures AllStrict(AddedLines(ms))
  {
    hide Strict, Loadable, GoodUpdate;
    if ms != [] {
      assert Loadable(ms[0]);
      LoadableAdded(ms[0]);
      AddedLinesStrict(ms[1..]);
    }
  }

  lemma LoadableAdded(u: Update)
    requires Loadable(u)
    ensures Strict(AddedLine(u)) && Strict(SectionLine(u.section)) && Strict("\n")
  {
    hide Strict;
    AddedStrict(u);
  }

  lemma {:induction false} BlocksStrict(ms: seq<Update>)
    requires forall u :: u in ms ==> Loadable(u)
    ensures AllStrict(Blocks(ms))
    decreases |ms|
  {
    hide Strict, Loadable, SectionLine;
    if ms != [] {
      var name := ms[0].section;
      PickSplits(ms, name, "", "");
      LoadableAdded(ms[0]);
      AddedLinesStrict(InSection(ms, name));
      BlocksStrict(OutsideSection(ms, name));
    }
  }

  /** Rewriting values changes no header, so only the lengths can stop the loader. */
  lemma {:induction false} EditStrict(ls: seq<string>, section: string, ups: seq<Update>)
    requires GoodUpdates(ups) && WellSplit(ls) && AllStrict(ls)
    ensures AllStrict(EditLines(ls, section, ups)) <==> forall l :: l in EditLines(ls, section, ups) ==> FitsBuffer(l)
    decreases |ls|
  {
    hide Classify, GoodUpdates, EditLine, FitsBuffer, IsLine, Ended;
    if ls != [] {
      var l, rest := EditLine(ls[0], section, ups), EditLines(ls[1..], Step(section, ls[0]), ups);
      EditLineReads(ls[0], section, ups);
      assert Strict(ls[0]);
      assert AllStrict(ls[1..]) by { assert forall x :: x in ls[1..] ==> x in ls; }
      EditStrict(ls[1..], Step(section, ls[0]), ups);
      assert Strict(l) <==> FitsBuffer(l);
      assert EditLines(ls, section, ups) == [l] + rest;
    }
  }

  /** When a rewritten line fits: the text through '=', a space and the quoted value, up to 510 characters. */
  lemma RewrittenFits(line: string, v: string)
    requires IsLine(line) && Classify(line).Entry? && '\n' !in v
    ensures Find(line, '=') < |line|
    ensures FitsBuffer(Rewritten(line, v)) <==> Find(line, '=') + |v| + 4 <= LINE_MAX
  {
    hide Find, Classify;
    RewrittenReads(line, v);
  }

  /** What an edit does to this line's length: a value that changes must leave room for the text through '=',
      a space and two quotes. */
  predicate RewriteFits(line: string, section: string, ups: seq<Update>)
  {
    match Classify(line)
    case Entry(key, raw) =>
      var i := FindUpdate(ups, section, key);
      i < |ups| && Unquote(section, raw) != ups[i].value ==> Find(line, '=') + |ups[i].value| + 4 <= LINE_MAX
    case _ => true
  }

  /** Every line whose value an update changes has room for the new one. */
  predicate RewritesFit(ls: seq<string>, section: string, ups: seq<Update>)
  {
    ls == [] || (RewriteFits(ls[0], section, ups) && RewritesFit(ls[1..], Step(section, ls[0]), ups))
  }

  lemma EditLineFits(line: string, section: string, ups: seq<Update>)
    requires GoodUpdates(ups) && IsLine(line) && FitsBuffer(line)
    ensures FitsBuffer(EditLine(line, section, ups)) <==> RewriteFits(line, section, ups)
  {
    hide Classify, Find, Unquote, FitsBuffer, IsLine, GoodUpdate, Rewritten;
    if Classify(line).Entry? {
      var a, b := EntrySplit(line);
      var i := FindUpdate(ups, section, Classify(line).key);
      if i < |ups| {
        NoNewline(ups[i]);
        RewrittenFits(line, ups[i].value);
      }
    }
  }

  lemma NoNewline(u: Update)
    requires GoodUpdate(u)
    ensures '\n' !in u.value
  {
  }

  /** The condition on the input is the condition on the result's lines. */
  lemma {:induction false} RewritesFitMeaning(ls: seq<string>, section: string, ups: seq<Update>)
    requires GoodUpdates(ups) && WellSplit(ls) && AllStrict(ls)
    ensures RewritesFit(ls, section, ups) <==> forall l :: l in EditLines(ls, section, ups) ==> FitsBuffer(l)
    decreases |ls|
  {
    hide Classify, GoodUpdates, EditLine, FitsBuffer, IsLine, Ended, RewriteFits;
    if ls != [] {
      var l, rest := EditLine(ls[0], section, ups), EditLines(ls[1..], Step(section, ls[0]), ups);
      assert Strict(ls[0]);
      assert AllStrict(ls[1..]) by { assert forall x :: x in ls[1..] ==> x in ls; }
      EditLineFits(ls[0], section, ups);
      RewritesFitMeaning(ls[1..], Step(section, ls[0]), ups);
      assert EditLines(ls, section, ups) == [l] + rest;
    }
  }

  /** The loader's view of an accepted edit's lines. */
  lemma EditedStrict(ls: seq<string>, ups: seq<Update>)
    requires GoodUpdates(ups) && WellSplit(ls) && AllStrict(ls)
    requires forall u :: u in ups ==> Loadable(u)
    ensures AllStrict(EditedLines(ls, ups)) <==> RewritesFit(ls, "", ups)
  {
    hide Strict, RewritesFit, Loadable, FitsBuffer, GoodUpdates, EditLines, Blocks, WellSplit, SectionLine;
    var out, ms := EditLines(ls, "", ups), Missing(ls, ups);
    EditStrict(ls, "", ups);
    RewritesFitMeaning(ls, "", ups);
    MissingIn(ls, ups, 0);
    BlocksStrict(ms);
    CompleteLastStrict(out);
    if ms != [] && ls == [] {
      NothingEdited(ups);
      assert |Blocks(ms)| >= 1 by { BlocksNonempty(ms); }
      assert forall l :: l in Blocks(ms)[1..] ==> l in Blocks(ms);
    } else if ms != [] {
      assert forall l :: l in CompleteLast(out) + Blocks(ms) <==> l in CompleteLast(out) || l in Blocks(ms);
    }
  }

  lemma BlocksNonempty(ms: seq<Update>)
    requires ms != []
    ensures Blocks(ms) != []
  {
  }

  lemma CompleteLastStrict(ls: seq<string>)
    ensures AllStrict(CompleteLast(ls)) <==> AllStrict(ls)
  {
    hide Strict, Complete;
    if ls != [] {
      var last := ls[|ls| - 1];
      S.CompleteIsStrict(last);
      var init := ls[..|ls| - 1];
      assert ls == init + [last] && CompleteLast(ls) == init + [Complete(last)];
      assert forall l :: l in ls <==> l in init || l == last;
      assert forall l :: l in CompleteLast(ls) <==> l in init || l == Complete(last);
    }
  }

  /** One field after a web edit. */
  lemma EditedField(t: Table, c: Config, config: string, ups: seq<Update>, addMissing: bool, j: nat)
    requires GoodTable(t) && Typed(t, c) && j < |t.fields|
    requires GoodUpdates(ups) && Settable(t, ups) && Applied(config, ups, addMissing).Edited?
    requires var st, edited := StartState(t, c), Lines(Applied(config, ups, addMissing).text);
             FieldAccepted(t, st, Lines(config), j) && AllStrict(Lines(config)) && AllStrict(edited)
    ensures var st, edited := StartState(t, c), Lines(Applied(config, ups, addMissing).text);
            var f := t.fields[j];
            var i := FindUpdate(ups, f.section, f.key);
            && FieldAccepted(t, st, edited, j)
            && (i < |ups| ==> SetField(t.ipv4, f, ups[i].value) == Some(Loaded(t, st, edited, j)))
            && (i == |ups| ==> Loaded(t, st, edited, j) == Loaded(t, st, Lines(config), j))
  {
    hide Values, SetField, Unquote, Applied, GoodUpdates, Strict, Lines, GoodField;
    var f, edited := t.fields[j], Lines(Applied(config, ups, addMissing).text);
    var i := FindUpdate(ups, f.section, f.key);
    AppliedLookup(config, ups, addMissing, f.section, f.key);
    SameSections(edited, "", f.section, f.key);
    SameSections(Lines(config), "", f.section, f.key);
    if i < |ups| { OwnRow(t, j); }
  }

  /** No update meets a key twice in a text the application accepts. */
  lemma NeverDuplicate(t: Table, c: Config, config: string, ups: seq<Update>)
    requires GoodTable(t) && Typed(t, c) && LoadText(t, c, config).Success? && Settable(t, ups)
    ensures NoDuplicates(Lines(config), ups)
  {
    hide Values, SetField, Unquote, Strict, LoadLines, GoodTable, GoodSupportRows;
    var ls, st := Lines(config), StartState(t, c);
    LoadMeaning(t, st, 1, ls);
    forall i | 0 <= i < |ups| ensures |WebValues(ls, "", ups[i].section, ups[i].key)| <= 1 {
      var j := FindField(t.fields, ups[i].section, ups[i].key);
      assert FieldAccepted(t, st, ls, j);
      SameSections(ls, "", ups[i].section, ups[i].key);
    }
  }

  /** The updates can be written: none is missing where none may be added, and the text is neither empty nor
      too large. */
  predicate Writes(config: string, ups: seq<Update>, addMissing: bool)
  {
    && (addMissing || Missing(Lines(config), ups) == [])
    && (config != "" || ups != [])
    && |Flatten(EditedLines(Lines(config), ups))| <= MAX_CONFIG
  }

  /** On a text the application accepts, the edit succeeds exactly then. */
  lemma EditSucceeds(t: Table, c: Config, config: string, ups: seq<Update>, addMissing: bool)
    requires GoodTable(t) && Typed(t, c) && LoadText(t, c, config).Success? && Settable(t, ups)
    ensures Applied(config, ups, addMissing).Edited? <==> Writes(config, ups, addMissing)
  {
    hide GoodTable, LoadText, Settable, NoDuplicates, EditedLines, Missing, Lines;
    NeverDuplicate(t, c, config, ups);
    LinesFlatten(config);
    EditedEmpty(Lines(config), ups);
    assert Lines(config) == [] <==> config == "" by { NoLinesNoText(config); }
  }

  lemma NoLinesNoText(config: string)
    ensures Lines(config) == [] <==> config == ""
  {
  }

  /** A web edit of a text the application accepts succeeds exactly if it can be written, and then gives a text
      the application accepts, holding exactly the new values and the old ones elsewhere, if and only if every
      changed value fits its line and the new values pass the support proxy's rule. */
  lemma EditThenLoad(t: Table, c: Config, config: string, ups: seq<Update>, addMissing: bool)
    requires GoodTable(t) && Typed(t, c) && LoadText(t, c, config).Success?
    requires GoodUpdates(ups) && Settable(t, ups)
    ensures var edit, updated := Applied(config, ups, addMissing), Updated(t, LoadText(t, c, config).value, ups);
            && (edit.Edited? <==> Writes(config, ups, addMissing))
            && (edit.Edited? ==>
                  var loaded := LoadText(t, c, edit.text);
                  && (loaded.Success? <==> SupportValid(t, updated) && RewritesFit(Lines(config), "", ups))
                  && (loaded.Success? ==> loaded.value == updated))
  {
    hide GoodTable, GoodUpdates, Settable, LoadText, SupportValid, RewritesFit, Updated, Applied, Writes;
    EditSucceeds(t, c, config, ups, addMissing);
    if Applied(config, ups, addMissing).Edited? { LoadAfterEdit(t, c, config, ups, addMissing); }
  }

  lemma LoadAfterEdit(t: Table, c: Config, config: string, ups: seq<Update>, addMissing: bool)
    requires GoodTable(t) && Typed(t, c) && LoadText(t, c, config).Success?
    requires GoodUpdates(ups) && Settable(t, ups) && Applied(config, ups, addMissing).Edited?
    ensures var updated := Updated(t, LoadText(t, c, config).value, ups);
            var loaded := LoadText(t, c, Applied(config, ups, addMissing).text);
            && (loaded.Success? <==> SupportValid(t, updated) && RewritesFit(Lines(config), "", ups))
            && (loaded.Success? ==> loaded.value == updated)
  {
    hide Values, SetField, Unquote, SupportValid, FieldAccepted, Loaded, Strict, RewritesFit, GoodUpdates, Settable,
         Updated, GoodTable, GoodSupportRows, Applied;
    var ls, st := Lines(config), StartState(t, c);
    var edited := Lines(Applied(config, ups, addMissing).text);
    LoadMeaning(t, st, 1, ls);
    LoadMeaning(t, st, 1, edited);
    LinesFlatten(config);
    AppliedLookup(config, ups, addMissing, "", "");
    AllLoadable(t, ups);
    EditedStrict(ls, ups);
    if AllStrict(edited) {
      EditedValues(t, c, config, ups, addMissing);
    }
  }

  // ---------- what the settings page installs ----------

  /** Of the lines the application accepts, validate_ini() refuses those with an empty key. */
  lemma StrictValid(ls: seq<string>)
    requires AllStrict(ls)
    ensures AllValid(ls) <==> KeysNamed(ls)
  {
    hide Classify, FitsBuffer;
    forall l | l in ls ensures ValidLine(l) <==> (Classify(l).Entry? ==> Classify(l).key != "") {
      assert Strict(l);
    }
  }

  lemma NamesNotEmpty(t: Table, ups: seq<Update>)
    requires GoodTable(t) && Settable(t, ups) && GoodUpdates(ups)
    ensures forall u :: u in ups ==> u.key != "" && u.section != ""
  {
    hide SetField, GoodUpdate;
    forall i | 0 <= i < |ups| ensures ups[i].key != "" && ups[i].section != "" {
      assert GoodField(t.fields[FindField(t.fields, ups[i].section, ups[i].key)]);
    }
  }

  /** Over a text the application accepts, updates are installed exactly if the old text can be read, the edit can be
      written, and no assignment of the old text has an empty key. */
  lemma InstalledExactly(t: Table, c: Config, config: string, ups: seq<Update>, addMissing: bool)
    requires GoodTable(t) && Typed(t, c) && LoadText(t, c, config).Success?
    requires GoodUpdates(ups) && Settable(t, ups) && ups != []
    ensures InstalledText(config, ups, addMissing).Some?
       <==> |config| <= MAX_CONFIG && Writes(config, ups, addMissing) && KeysNamed(Lines(config))
  {
    hide GoodTable, Settable, GoodUpdates, LoadLines, Applied, Writes, ValidIni, KeysNamed, AllValid, Lines, AllStrict,
         GoodSupportRows, SupportValid, FieldAccepted, Loaded;
    EditSucceeds(t, c, config, ups, addMissing);
    assert AllStrict(Lines(config)) by { LoadMeaning(t, StartState(t, c), 1, Lines(config)); }
    StrictValid(Lines(config));
    NamesNotEmpty(t, ups);
    if Applied(config, ups, addMissing).Edited? { AppliedValid(config, ups, addMissing); }
  }

  /** What is then installed is a text the application accepts, holding exactly the new values and the old ones
      elsewhere, if and only if every changed value fits its line and the new values pass the support proxy's rule. */
  lemma InstallThenLoad(t: Table, c: Config, config: string, ups: seq<Update>, addMissing: bool)
    requires GoodTable(t) && Typed(t, c) && LoadText(t, c, config).Success?
    requires GoodUpdates(ups) && Settable(t, ups) && ups != []
    ensures var installed := InstalledText(config, ups, addMissing);
            var updated := Updated(t, LoadText(t, c, config).value, ups);
            && (installed.Some? <==>
                  |config| <= MAX_CONFIG && Writes(config, ups, addMissing) && KeysNamed(Lines(config)))
            && (installed.Some? ==>
                  var loaded := LoadText(t, c, installed.value);
                  && (loaded.Success? <==> SupportValid(t, updated) && RewritesFit(Lines(config), "", ups))
                  && (loaded.Success? ==> loaded.value == updated))
  {
    hide GoodTable, GoodUpdates, Settable, LoadText, SupportValid, RewritesFit, Updated, Applied, Writes, ValidIni,
         KeysNamed, Lines;
    InstalledExactly(t, c, config, ups, addMissing);
    EditThenLoad(t, c, config, ups, addMissing);
  }

  // ---------- a text the edit spoils ----------

  /** A line that fills the loader's buffer: the key, spaces, '=' and its value. */
  function PaddedLine(f: Field, v: string): string
    requires |f.key| < 48 && |v| <= VALUE_MAX
  {
    f.key + seq(LINE_MAX - 1 - |v| - |f.key|, i => ' ') + "=" + v + "\n"
  }

  function PaddedText(f: Field, v: string): string
    requires |f.key| < 48 && |v| <= VALUE_MAX
  {
    S.HeaderLine(f) + PaddedLine(f, v)
  }

  lemma PaddedLineReads(f: Field, v: string)
    requires GoodField(f) && PlainValue(v)
    ensures var line := PaddedLine(f, v);
            && IsLine(line) && Ended(line) && FitsBuffer(line) && Classify(line) == Entry(f.key, v)
            && Find(line, '=') == LINE_MAX - 1 - |v| && |line| == LINE_MAX + 1
  {
    hide Find, Classify, Trim, Bare, KeyText;
    var pad := seq(LINE_MAX - 1 - |v| - |f.key|, i => ' ');
    var a, b := f.key + pad, v + "\n";
    assert PaddedLine(f, v) == a + "=" + b;
    assert [] + f.key + pad == a && [] + v + "\n" == b;
    TrimPad([], f.key, pad);
    TrimPad([], v, "\n");
    TrimBare(f.key);
    TrimBare(v);
    ClassifyAssignment(a, b);
    FindAt(a, '=', b);
  }

  lemma TwoLines(header: string, line: string)
    requires IsLine(header) && Ended(header) && IsLine(line)
    ensures Lines(header + line) == [header, line]
  {
    hide IsLine, Ended;
    FirstLine(header, line);
    assert (header + line)[|header|..] == line && (header + line)[..|header|] == header;
    assert line + "" == line;
    LineNonempty(line);
    WholeLine(line);
    assert Lines(line) == [line] by { assert line[|line|..] == ""; }
  }

  lemma WholeLine(line: string)
    requires IsLine(line)
    ensures line != "" && LineLength(line) == |line|
  {
    assert line + "" == line;
    FirstLine(line, "");
  }

  lemma PaddedLines(f: Field, v: string)
    requires GoodField(f) && PlainValue(v)
    ensures Lines(PaddedText(f, v)) == [S.HeaderLine(f), PaddedLine(f, v)]
    ensures Classify(S.HeaderLine(f)) == Header(f.section, "") && FitsBuffer(S.HeaderLine(f))
  {
    hide Classify, PaddedLine, Lines, Find;
    S.HeaderLineReads(f);
    PaddedLineReads(f, v);
    TwoLines(S.HeaderLine(f), PaddedLine(f, v));
  }

  lemma PaddedLoads(t: Table, c: Config, i: nat, v: string)
    requires GoodTable(t) && Typed(t, c) && i < |t.fields| && PlainValue(v)
    requires SetField(t.ipv4, t.fields[i], v).Some?
    ensures var updated := c[i := SetField(t.ipv4, t.fields[i], v).value];
            && Typed(t, updated)
            && LoadLines(t, StartState(t, c), 1, Lines(PaddedText(t.fields[i], v))).Success?
            && LoadLines(t, StartState(t, c), 1, Lines(PaddedText(t.fields[i], v))).value.parsed == updated
  {
    hide Classify, SetField, PaddedLine, PaddedText, Lines, Find, Unquote, FitsBuffer, LoadLine, LoadLines, GoodField;
    var f, st := t.fields[i], StartState(t, c);
    FieldLengths(f);
    PaddedLines(f, v);
    HeaderLoads(t, st, f);
    var next := st.(section := f.section);
    PaddedLineLoads(t, next, i, v);
    TwoLoads(t, st, S.HeaderLine(f), PaddedLine(f, v));
  }

  lemma HeaderLoads(t: Table, st: LoadState, f: Field)
    requires GoodState(t, st) && GoodField(f)
    ensures LoadLine(t, st, 1, S.HeaderLine(f)) == Success(st.(section := f.section))
  {
    hide Classify, FitsBuffer, Lines, PaddedText;
    FieldLengths(f);
    S.HeaderLineReads(f);
    assert FitsBuffer(S.HeaderLine(f)) by { HeaderFits(f); }
  }

  lemma HeaderFits(f: Field)
    requires |f.section| < 64
    ensures FitsBuffer(S.HeaderLine(f))
  {
  }

  lemma PaddedLineLoads(t: Table, st: LoadState, i: nat, v: string)
    requires GoodTable(t) && GoodState(t, st) && i < |t.fields| && st.section == t.fields[i].section && !st.seen[i]
    requires PlainValue(v) && SetField(t.ipv4, t.fields[i], v).Some?
    ensures |t.fields[i].key| < 48
    ensures LoadLine(t, st, 2, PaddedLine(t.fields[i], v))
         == Success(st.(seen := st.seen[i := true], parsed := st.parsed[i := SetField(t.ipv4, t.fields[i], v).value]))
  {
    hide Classify, SetField, PaddedLine, Find, Unquote, FitsBuffer, GoodState, LoadLine, GoodField, PlainValue,
         FindField;
    var f := t.fields[i];
    assert GoodField(f);
    FieldLengths(f);
    PlainHasNone(v);
    PaddedLineReads(f, v);
    OwnRow(t, i);
    PlainUnquoted(f.section, v);
    EntryLoads(t, st, PaddedLine(f, v), i, v);
  }

  lemma PlainHasNone(v: string)
    requires PlainValue(v)
    ensures QUOTE !in v && |v| <= VALUE_MAX
  {
  }

  /** A fresh assignment of field i. */
  lemma EntryLoads(t: Table, st: LoadState, line: string, i: nat, v: string)
    requires GoodState(t, st) && i < |t.fields| && FitsBuffer(line) && Classify(line) == Entry(t.fields[i].key, v)
    requires st.section == t.fields[i].section && !st.seen[i] && Unquote(st.section, v) == v
    requires FindField(t.fields, st.section, t.fields[i].key) == i && SetField(t.ipv4, t.fields[i], v).Some?
    ensures LoadLine(t, st, 2, line)
         == Success(st.(seen := st.seen[i := true], parsed := st.parsed[i := SetField(t.ipv4, t.fields[i], v).value]))
  {
    hide Classify, SetField, Unquote, FitsBuffer, FindField;
  }

  lemma TwoLoads(t: Table, st: LoadState, header: string, line: string)
    requires GoodState(t, st)
    ensures LoadLines(t, st, 1, [header, line])
         == match LoadLine(t, st, 1, header)
            case Failure(e) => Failure(e)
            case Success(next) => LoadLine(t, next, 2, line)
  {
    hide LoadLine;
    assert [header, line][1..] == [line] && [line][1..] == [];
    var first := LoadLine(t, st, 1, header);
    if first.Success? { assert LoadLines(t, first.value, 2, [line]) == LoadLine(t, first.value, 2, line); }
  }

  lemma PlainUnquoted(section: string, v: string)
    requires QUOTE !in v
    ensures Unquote(section, v) == v
  {
  }

  /** The web service writes the new value into the padded line, which is then longer than the loader's buffer. */
  lemma PaddedEdit(f: Field, v: string, u: Update, addMissing: bool)
    requires GoodField(f) && PlainValue(v) && GoodUpdate(u) && Named(u, f.section, f.key)
    requires u.value != v && |u.value| + 3 > |v| && |u.value| <= VALUE_MAX
    ensures var edit := Applied(PaddedText(f, v), [u], addMissing);
            edit.Edited? && |Lines(edit.text)| == 2 && Lines(edit.text)[0] == S.HeaderLine(f)
            && !FitsBuffer(Lines(edit.text)[1])
  {
    hide Classify, PaddedLine, Find, Unquote, FitsBuffer, Lines, GoodUpdate, GoodField, PaddedText, Rewritten,
         EditLines, Missing, WebValues, EditedLines;
    FieldLengths(f);
    var header, line, ups := S.HeaderLine(f), PaddedLine(f, v), [u];
    PaddedLines(f, v);
    PaddedLineReads(f, v);
    S.HeaderLineReads(f);
    NoNewline(u);
    RewrittenFits(line, u.value);
    RewrittenReads(line, u.value);
    var ls, after := [header, line], Rewritten(line, u.value);
    PaddedEditLines(f, v, u);
    assert EditedLines(ls, ups) == [header, after] by { NothingAdded(ls, ups); }
    TwoLines(header, after);
    TwoLinesText(header, after);
    assert |after| <= LINE_MAX + VALUE_MAX + 4 by { RewrittenLength(line, u.value); }
    assert |header| < 70;
    assert |header + after| <= MAX_CONFIG;
  }

  lemma RewrittenLength(line: string, v: string)
    requires Find(line, '=') < LINE_MAX && Find(line, '=') < |line|
    ensures |Rewritten(line, v)| <= LINE_MAX + |v| + 4
  {
    hide Find;
  }

  lemma NothingAdded(ls: seq<string>, ups: seq<Update>)
    requires Missing(ls, ups) == []
    ensures EditedLines(ls, ups) == EditLines(ls, "", ups)
  {
  }

  lemma PaddedEditLines(f: Field, v: string, u: Update)
    requires GoodField(f) && PlainValue(v) && Named(u, f.section, f.key) && u.value != v
    ensures |f.key| < 48
    ensures var line := PaddedLine(f, v);
            var ls := [S.HeaderLine(f), line];
            && Find(line, '=') < |line|
            && EditLines(ls, "", [u]) == [S.HeaderLine(f), Rewritten(line, u.value)]
            && WebValues(ls, "", f.section, f.key) == [v]
            && Missing(ls, [u]) == [] && NoDuplicates(ls, [u])
  {
    hide Classify, PaddedLine, Find, Unquote, FitsBuffer, Rewritten, GoodField, Values, FindUpdate, EditLine,
         MissingFrom;
    FieldLengths(f);
    S.HeaderLineReads(f);
    PaddedLineReads(f, v);
    var header, line := S.HeaderLine(f), PaddedLine(f, v);
    OneUpdateLines(header, line, f, v, u);
    var ls := [header, line];
    assert ls == [header] + [line] && [line] == [line] + [];
    ValuesCons(Web, header, [line], Some(""), f.section, f.key);
    ValuesCons(Web, line, [], Some(f.section), f.section, f.key);
    ValuesNone(Web, Some(f.section), f.section, f.key);
    assert WebValues(ls, "", f.section, f.key) == [v];
    assert ls[1..] == [line] && ls[1..][1..] == [];
    NothingMissing(ls, [u]);
    assert EditLines([line], f.section, [u]) == [EditLine(line, f.section, [u])];
  }

  lemma OneUpdateLines(header: string, line: string, f: Field, v: string, u: Update)
    requires Classify(header) == Header(f.section, "") && Classify(line) == Entry(f.key, v) && Find(line, '=') < |line|
    requires PlainValue(v) && Named(u, f.section, f.key) && u.value != v && Cut(f.section) == f.section
    ensures EditLine(header, "", [u]) == header && Step("", header) == f.section
    ensures EditLine(line, f.section, [u]) == Rewritten(line, u.value)
  {
    hide Classify, Find, Unquote, Rewritten;
    PlainUnquoted(f.section, v);
  }

  lemma TwoLinesText(header: string, line: string)
    ensures Flatten([header, line]) == header + line
  {
    assert [header, line] == [header] + [line] && [line] == [line] + [];
    FlattenCons(header, [line]);
    FlattenCons(line, []);
    assert Flatten([]) == "" && line + "" == line;
  }

  lemma FieldLengths(f: Field)
    requires GoodField(f)
    ensures 0 < |f.key| < 48 && 0 < |f.section| < 64 && Cut(f.section) == f.section
  {
  }

  /** The settings page installs what it made of the padded text. */
  lemma PaddedInstalls(f: Field, v: string, u: Update, addMissing: bool)
    requires GoodField(f) && PlainValue(v) && GoodUpdate(u) && Named(u, f.section, f.key) && GoodUpdates([u])
    requires Applied(PaddedText(f, v), [u], addMissing).Edited?
    ensures InstalledText(PaddedText(f, v), [u], addMissing) == Some(Applied(PaddedText(f, v), [u], addMissing).text)
  {
    hide Classify, PaddedLine, Find, Lines, GoodUpdate, GoodUpdates, ValidIni, Applied, AllValid;
    FieldLengths(f);
    PaddedLines(f, v);
    PaddedLineReads(f, v);
    AppliedValid(PaddedText(f, v), [u], addMissing);
    OneValid(S.HeaderLine(f));
    OneValid(PaddedLine(f, v));
    ValidConcat([S.HeaderLine(f)], [PaddedLine(f, v)]);
    assert [S.HeaderLine(f)] + [PaddedLine(f, v)] == [S.HeaderLine(f), PaddedLine(f, v)];
  }

  /** For every row, every accepted value it may hold and every other accepted value that is not shorter by three
      or more, there is a text the application accepts, the web service rewrites, and the application then
      refuses because its second line is too long. */
  lemma EditSpoils(t: Table, c: Config, i: nat, v: string, u: Update, addMissing: bool)
    requires GoodTable(t) && Typed(t, c) && i < |t.fields| && PlainValue(v)
    requires SetField(t.ipv4, t.fields[i], v).Some? && Typed(t, c[i := SetField(t.ipv4, t.fields[i], v).value])
    requires SupportValid(t, c[i := SetField(t.ipv4, t.fields[i], v).value])
    requires Named(u, t.fields[i].section, t.fields[i].key) && GoodUpdates([u]) && Settable(t, [u])
    requires u.value != v && |u.value| + 3 > |v|
    ensures |t.fields[i].key| < 48
    ensures var config := PaddedText(t.fields[i], v);
            var installed := InstalledText(config, [u], addMissing);
            && LoadText(t, c, config) == Success(c[i := SetField(t.ipv4, t.fields[i], v).value])
            && installed.Some? && LoadText(t, c, installed.value) == Failure(LineTooLong(2))
  {
    hide Classify, SetField, PaddedText, Lines, Applied, SupportValid, FitsBuffer, Unquote, GoodUpdate, LoadLine,
         LoadLines, GoodField, ValidIni, Settable, Named, GoodUpdates;
    var f, st := t.fields[i], StartState(t, c);
    assert GoodUpdate(u) && |u.value| <= VALUE_MAX by { OneSettable(t, u); }
    FieldLengths(f);
    PaddedLoads(t, c, i, v);
    PaddedEdit(f, v, u, addMissing);
    PaddedInstalls(f, v, u, addMissing);
    HeaderLoads(t, st, f);
    var edited := Lines(Applied(PaddedText(f, v), [u], addMissing).text);
    assert edited == [edited[0], edited[1]];
    TwoLoads(t, st, edited[0], edited[1]);
    LongLineFails(t, st.(section := f.section), edited[1]);
  }

  lemma OneSettable(t: Table, u: Update)
    requires GoodUpdates([u]) && Settable(t, [u])
    ensures GoodUpdate(u) && |u.value| <= VALUE_MAX
  {
    assert [u][0] == u;
  }

  lemma LongLineFails(t: Table, st: LoadState, line: string)
    requires GoodState(t, st) && !FitsBuffer(line)
    ensures LoadLine(t, st, 2, line) == Failure(LineTooLong(2))
  {
  }

  /** A value shorter by three or more always fits where the old one did. */
  lemma ShorterFits(line: string, section: string, u: Update)
    requires FitsBuffer(line) && IsLine(line) && Classify(line).Entry?
    requires |u.value| + 3 <= |Unquote(section, Classify(line).value)|
    ensures RewriteFits(line, section, [u])
  {
    hide Classify, Find, Unquote, Trim;
    var a, b := EntrySplit(line);
    var body := Body(line);
    UnquoteLength(section, Classify(line).value);
    ValueInBody(line);
  }

  lemma ValueInBody(line: string)
    requires IsLine(line) && Classify(line).Entry?
    ensures Find(line, '=') + 1 + |Classify(line).value| <= |Body(line)|
  {
    hide Classify, Trim, Find;
    ClassifyComplete(line);
    var a, b := EntrySplit(Body(line));
    var l, r := TrimParts(b);
    var a', b' := EntrySplit(line);
    FindAt(a, '=', b);
    if Ended(line) {
      assert line == a + "=" + (b + "\n") by { assert line == Body(line) + "\n"; }
      FindAt(a, '=', b + "\n");
    }
  }

  /** Every field after a web edit. */
  lemma EditedValues(t: Table, c: Config, config: string, ups: seq<Update>, addMissing: bool)
    requires GoodTable(t) && Typed(t, c) && LoadText(t, c, config).Success?
    requires GoodUpdates(ups) && Settable(t, ups) && Applied(config, ups, addMissing).Edited?
    requires AllStrict(Lines(Applied(config, ups, addMissing).text))
    ensures var r := LoadLines(t, StartState(t, c), 1, Lines(Applied(config, ups, addMissing).text));
            r.Success? && r.value.parsed == Updated(t, LoadText(t, c, config).value, ups)
  {
    hide Values, SetField, Unquote, SupportValid, FieldAccepted, Loaded, Strict, GoodUpdates, Settable,
         GoodSupportRows, Applied, Updated, LoadLines;
    var ls, st := Lines(config), StartState(t, c);
    var base := LoadText(t, c, config).value;
    var edited := Lines(Applied(config, ups, addMissing).text);
    LoadMeaning(t, st, 1, ls);
    LoadMeaning(t, st, 1, edited);
    forall j | 0 <= j < |t.fields|
      ensures FieldAccepted(t, st, edited, j) && Loaded(t, st, edited, j) == Updated(t, base, ups)[j]
    {
      EditedField(t, c, config, ups, addMissing, j);
      UpdatedAt(t, base, ups, j);
    }
    var parsed := LoadLines(t, st, 1, edited).value.parsed;
    assert forall j :: 0 <= j < |parsed| ==> parsed[j] == Loaded(t, st, edited, j);
  }

  lemma UpdatedAt(t: Table, c: Config, ups: seq<Update>, j: nat)
    requires GoodTable(t) && Typed(t, c) && Settable(t, ups) && j < |t.fields|
    ensures var f := t.fields[j];
            var i := FindUpdate(ups, f.section, f.key);
            if i < |ups| then Some(Updated(t, c, ups)[j]) == SetField(t.ipv4, f, ups[i].value)
            else Updated(t, c, ups)[j] == c[j]
  {
    hide SetField;
    OwnRow(t, j);
  }

  lemma AllLoadable(t: Table, ups: seq<Update>)
    requires GoodTable(t) && Settable(t, ups) && GoodUpdates(ups)
    ensures forall u :: u in ups ==> Loadable(u)
  {
    hide SetField, GoodTable;
    forall i | 0 <= i < |ups| ensures Loadable(ups[i]) { LoadableNames(t, ups, i); }
  }
}
