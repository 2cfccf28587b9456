/** save_field(): rewriting one key of the configuration text, and what the rewriting means. */
module ConfigSave {
  import opened Ini
  import opened AppConfig

  // ---------- the two passes over the lines ----------

  predicate InSection(section: Option<string>, f: Field) { section == Some(f.section) }

  /** The line is an assignment of f's key, read in this section. */
  predicate OwnLine(line: string, section: Option<string>, f: Field)
  {
    Assigns(line, section, f.section, f.key)
  }

  predicate IsHeader(line: string) { Classify(line).Header? || Classify(line).OpenHeader? }

  function Follow(section: Option<string>, line: string): Option<string>
  {
    NextSection(Editor, section, Classify(line))
  }

  /** First pass: does the key occur in any part of its section? */
  predicate Present(ls: seq<string>, section: Option<string>, f: Field)
  {
    ls != [] && (OwnLine(ls[0], section, f) || Present(ls[1..], Follow(section, ls[0]), f))
  }

  function Setting(f: Field, v: string): string { f.key + " = " + v + "\n" }

  function HeaderLine(f: Field): string { "[" + f.section + "]\n" }

  /** What follows the last line when the key has still not been written. */
  function Ending(section: Option<string>, f: Field, v: string): seq<string>
  {
    (if InSection(section, f) then [] else ["\n", HeaderLine(f)]) + [Setting(f, v)]
  }

  /** Second pass: the lines written for the rest of the input. */
  function Put(ls: seq<string>, section: Option<string>, written: bool, present: bool,
               f: Field, v: string): seq<string>
  {
    if ls == [] then if written then [] else Ending(section, f, v)
    else
      var next := Follow(section, ls[0]);
      if IsHeader(ls[0]) && InSection(section, f) && !written && !present then
        [Setting(f, v), Complete(ls[0])] + Put(ls[1..], next, true, present, f, v)
      else if OwnLine(ls[0], section, f) then
        [Setting(f, v)] + Put(ls[1..], next, true, present, f, v)
      else
        [Complete(ls[0])] + Put(ls[1..], next, written, present, f, v)
  }

  const NOWHERE: Option<string> := Some("")

  function PutText(ls: seq<string>, f: Field, v: string): seq<string>
  {
    Put(ls, NOWHERE, false, Present(ls, NOWHERE, f), f, v)
  }

  /** The whole file written for an input that may be missing. */
  function SavedText(file: Option<string>, f: Field, v: string): string
  {
    Flatten(PutText(if file.Some? then Lines(file.value) else [], f, v))
  }

  // ---------- the lines it writes ----------

  /** A value that can be written on an assignment line. */
  predicate Writable(v: string) { '\n' !in v }

  lemma SettingLine(f: Field, v: string)
    requires GoodField(f) && Writable(v)
    ensures Classify(Setting(f, v)) == Entry(f.key, Trim(v))
    ensures IsLine(Setting(f, v)) && Ended(Setting(f, v)) && !IsHeader(Setting(f, v))
  {
    hide Trim, Find, Classify;
    var a, b := f.key + " ", " " + v + "\n";
    assert Setting(f, v) == a + "=" + b;
    assert [] + f.key + " " == a;
    TrimPad([], f.key, " ");
    TrimBare(f.key);
    TrimPad(" ", v, "\n");
    ClassifyAssignment(a, b);
  }

  lemma HeaderLineReads(f: Field)
    requires GoodField(f)
    ensures Classify(HeaderLine(f)) == Header(f.section, "")
    ensures IsLine(HeaderLine(f)) && Ended(HeaderLine(f))
  {
    hide Trim, Classify;
    assert HeaderLine(f) == "[" + f.section + "]" + "\n";
    ClassifyHeader(f.section, "\n");
    TrimBare(f.section);
  }

  lemma EndingLines(section: Option<string>, f: Field, v: string)
    requires GoodField(f) && Writable(v)
    ensures Classify(Setting(f, v)) == Entry(f.key, Trim(v))
    ensures Classify(HeaderLine(f)) == Header(f.section, "")
    ensures Classify("\n") == Skip
  {
    SettingLine(f, v);
    HeaderLineReads(f);
    BlankLineReads();
  }

  // ---------- every other key keeps its values ----------

  /** Whatever the text was, other keys read exactly as before. */
  lemma {:induction false} PutKeepsOthers(ls: seq<string>, section: Option<string>, written: bool, present: bool,
                                          f: Field, v: string, s: string, k: string)
    requires GoodField(f) && Writable(v)
    requires s != f.section || k != f.key
    ensures Values(Editor, Put(ls, section, written, present, f, v), section, s, k)
         == Values(Editor, ls, section, s, k)
    decreases |ls|
  {
    hide Classify, Setting, HeaderLine, Complete, Trim, Put, Ending, GoodField;
    EndingLines(section, f, v);
    if ls == [] {
      PutNone(section, written, present, f, v);
      EndingValues(section, f, v, s, k);
    } else {
      ClassifyComplete(ls[0]);
      PutOf(ls, section, written, present, f, v);
      var next := Follow(section, ls[0]);
      if IsHeader(ls[0]) && InSection(section, f) && !written && !present {
        var rest := Put(ls[1..], next, true, present, f, v);
        PutKeepsOthers(ls[1..], next, true, present, f, v, s, k);
        assert [Setting(f, v), Complete(ls[0])] + rest == [Setting(f, v)] + ([Complete(ls[0])] + rest);
        ValuesCons(Editor, Setting(f, v), [Complete(ls[0])] + rest, section, s, k);
        ValuesCons(Editor, Complete(ls[0]), rest, section, s, k);
      } else if OwnLine(ls[0], section, f) {
        PutKeepsOthers(ls[1..], next, true, present, f, v, s, k);
        ValuesCons(Editor, Setting(f, v), Put(ls[1..], next, true, present, f, v), section, s, k);
      } else {
        PutKeepsOthers(ls[1..], next, written, present, f, v, s, k);
        ValuesCons(Editor, Complete(ls[0]), Put(ls[1..], next, written, present, f, v), section, s, k);
      }
    }
  }

  lemma EndingValues(section: Option<string>, f: Field, v: string, s: string, k: string)
    requires GoodField(f) && Writable(v)
    ensures Values(Editor, Ending(section, f, v), section, s, k)
         == if s == f.section && k == f.key then [Trim(v)] else []
  {
    hide Classify, Setting, HeaderLine, Trim;
    EndingLines(section, f, v);
    var last := [Setting(f, v)];
    assert last == [Setting(f, v)] + [];
    ValuesCons(Editor, Setting(f, v), [], Some(f.section), s, k);
    if !InSection(section, f) {
      assert Ending(section, f, v) == ["\n"] + ([HeaderLine(f)] + last);
      ValuesCons(Editor, "\n", [HeaderLine(f)] + last, section, s, k);
      ValuesCons(Editor, HeaderLine(f), last, section, s, k);
    } else {
      assert Ending(section, f, v) == last;
    }
  }

  function Repeat(x: string, n: nat): (r: seq<string>)
    ensures |r| == n
  {
    if n == 0 then [] else [x] + Repeat(x, n - 1)
  }

  function OwnValues(ls: seq<string>, section: Option<string>, f: Field): seq<string>
  {
    Values(Editor, ls, section, f.section, f.key)
  }

  /** Flags of the second pass that can occur with these lines still to come. */
  predicate Consistent(ls: seq<string>, section: Option<string>, written: bool, present: bool, f: Field)
  {
    && (OwnValues(ls, section, f) != [] ==> present)
    && (present && !written ==> OwnValues(ls, section, f) != [])
  }

  lemma {:induction false} PresentIsValues(ls: seq<string>, section: Option<string>, f: Field)
    ensures Present(ls, section, f) <==> OwnValues(ls, section, f) != []
  {
    hide Classify;
    if ls != [] { PresentIsValues(ls[1..], Follow(section, ls[0]), f); }
  }

  /** The key itself reads the new value wherever it was assigned, or once if it was not. */
  lemma {:induction false} PutSets(ls: seq<string>, section: Option<string>, written: bool, present: bool,
                                   f: Field, v: string)
    requires GoodField(f) && Writable(v) && Consistent(ls, section, written, present, f)
    ensures OwnValues(Put(ls, section, written, present, f, v), section, f)
         == Repeat(Trim(v), NewCount(ls, section, written, f))
    decreases |ls|
  {
    hide Classify, Setting, HeaderLine, Complete, Trim, Values, Ending, Put, GoodField;
    ValuesNone(Editor, section, f.section, f.key);
    EndingLines(section, f, v);
    if ls == [] {
      PutNone(section, written, present, f, v);
      EndingValues(section, f, v, f.section, f.key);
    } else {
      ClassifyComplete(ls[0]);
      PutOf(ls, section, written, present, f, v);
      var next := Follow(section, ls[0]);
      assert ls == [ls[0]] + ls[1..];
      ValuesCons(Editor, ls[0], ls[1..], section, f.section, f.key);
      if IsHeader(ls[0]) && InSection(section, f) && !written && !present {
        var rest := Put(ls[1..], next, true, present, f, v);
        PutSets(ls[1..], next, true, present, f, v);
        assert [Setting(f, v), Complete(ls[0])] + rest == [Setting(f, v)] + ([Complete(ls[0])] + rest);
        ValuesCons(Editor, Setting(f, v), [Complete(ls[0])] + rest, section, f.section, f.key);
        ValuesCons(Editor, Complete(ls[0]), rest, section, f.section, f.key);
      } else if OwnLine(ls[0], section, f) {
        PutSets(ls[1..], next, true, present, f, v);
        ValuesCons(Editor, Setting(f, v), Put(ls[1..], next, true, present, f, v), section, f.section, f.key);
      } else {
        PutSets(ls[1..], next, written, present, f, v);
        ValuesCons(Editor, Complete(ls[0]), Put(ls[1..], next, written, present, f, v), section, f.section, f.key);
      }
    }
  }

  /** How often the key is assigned afterwards: as often as before, but at least once in all. */
  function NewCount(ls: seq<string>, section: Option<string>, written: bool, f: Field): nat
  {
    var n := |OwnValues(ls, section, f)|;
    if n == 0 && !written then 1 else n
  }

  // ---------- the text as bytes ----------

  lemma PutNone(section: Option<string>, written: bool, present: bool, f: Field, v: string)
    ensures Put([], section, written, present, f, v) == if written then [] else Ending(section, f, v)
  {
  }

  /** What the second pass writes for the first line. */
  lemma PutOf(ls: seq<string>, section: Option<string>, written: bool, present: bool, f: Field, v: string)
    requires ls != []
    ensures var next := Follow(section, ls[0]);
            Put(ls, section, written, present, f, v)
              == if IsHeader(ls[0]) && InSection(section, f) && !written && !present then
                   [Setting(f, v), Complete(ls[0])] + Put(ls[1..], next, true, present, f, v)
                 else if OwnLine(ls[0], section, f) then
                   [Setting(f, v)] + Put(ls[1..], next, true, present, f, v)
                 else
                   [Complete(ls[0])] + Put(ls[1..], next, written, present, f, v)
  {
    hide Classify, Setting, Complete;
  }

  lemma EndingEnded(section: Option<string>, f: Field, v: string)
    requires GoodField(f) && Writable(v)
    ensures WellSplit(Ending(section, f, v)) && AllEnded(Ending(section, f, v))
  {
    hide Classify, Setting, HeaderLine, Trim, IsLine, Ended;
    SettingLine(f, v);
    HeaderLineReads(f);
    BlankLineReads();
    assert WellSplit([Setting(f, v)]);
    assert ["\n", HeaderLine(f), Setting(f, v)][1..][1..] == [Setting(f, v)];
    assert ["\n", HeaderLine(f)] + [Setting(f, v)] == ["\n", HeaderLine(f), Setting(f, v)];
  }

  predicate AllEnded(ls: seq<string>) { forall l :: l in ls ==> Ended(l) }

  /** Every line it writes is a complete line. */
  lemma {:induction false} PutEnded(ls: seq<string>, section: Option<string>, written: bool, present: bool,
                                    f: Field, v: string)
    requires GoodField(f) && Writable(v) && WellSplit(ls)
    ensures WellSplit(Put(ls, section, written, present, f, v))
    ensures AllEnded(Put(ls, section, written, present, f, v))
    decreases |ls|
  {
    hide Classify, Setting, HeaderLine, Trim, IsLine, Ended, Complete, GoodField, Put, AllEnded;
    if ls == [] {
      PutNone(section, written, present, f, v);
      EndingEnded(section, f, v);
      NoLines();
    } else {
      var next := Follow(section, ls[0]);
      SettingLine(f, v);
      CompleteIsLine(ls[0]);
      PutOf(ls, section, written, present, f, v);
      PutEnded(ls[1..], next, true, present, f, v);
      PutEnded(ls[1..], next, written, present, f, v);
      var more, same := Put(ls[1..], next, true, present, f, v), Put(ls[1..], next, written, present, f, v);
      WellSplitCons(Complete(ls[0]), more);
      WellSplitCons(Complete(ls[0]), same);
      WellSplitCons(Setting(f, v), more);
      WellSplitCons(Setting(f, v), [Complete(ls[0])] + more);
      assert [Setting(f, v), Complete(ls[0])] + more == [Setting(f, v)] + ([Complete(ls[0])] + more);
    }
  }

  lemma NoLines()
    ensures AllEnded([]) && WellSplit([])
  {
  }

  lemma WellSplitCons(l: string, ls: seq<string>)
    requires IsLine(l) && Ended(l) && WellSplit(ls)
    ensures WellSplit([l] + ls) && (AllEnded(ls) ==> AllEnded([l] + ls))
  {
    assert ([l] + ls)[1..] == ls;
  }

  lemma CompleteEnded(l: string)
    requires Ended(l)
    ensures Complete(l) == l
  {
  }

  /** Reading back the written file gives exactly the written lines. */
  lemma SavedLines(file: Option<string>, f: Field, v: string)
    requires GoodField(f) && Writable(v)
    ensures Lines(SavedText(file, f, v)) == PutText(if file.Some? then Lines(file.value) else [], f, v)
  {
    var ls := if file.Some? then Lines(file.value) else [];
    if file.Some? { LinesFlatten(file.value); }
    PutEnded(ls, NOWHERE, false, Present(ls, NOWHERE, f), f, v);
    FlattenLines(PutText(ls, f, v));
  }

  /** A second write replaces the first completely. */
  lemma {:induction false} PutTwice(ls: seq<string>, section: Option<string>, written: bool, present: bool,
                                    f: Field, v: string, w: string)
    requires GoodField(f) && Writable(v) && Writable(w) && WellSplit(ls)
    ensures Put(Put(ls, section, written, present, f, v), section, written, true, f, w)
         == Put(ls, section, written, present, f, w)
    decreases |ls|
  {
    hide Classify, Setting, HeaderLine, Complete, Trim, Put, IsLine, Ended, GoodField, Ending;
    SettingLine(f, v);
    if ls == [] {
      PutNone(section, written, present, f, v);
      PutNone(section, written, present, f, w);
      PutNone(section, written, true, f, w);
      EndingTwice(section, f, v, w);
    } else {
      ClassifyComplete(ls[0]);
      CompleteIsLine(ls[0]);
      PutOf(ls, section, written, present, f, v);
      PutOf(ls, section, written, present, f, w);
      var next := Follow(section, ls[0]);
      if IsHeader(ls[0]) && InSection(section, f) && !written && !present {
        PutTwice(ls[1..], next, true, present, f, v, w);
        InsertedTwice(ls[0], Put(ls[1..], next, true, present, f, v), section, f, v, w);
      } else if OwnLine(ls[0], section, f) {
        PutTwice(ls[1..], next, true, present, f, v, w);
        PutCons(Setting(f, v), Put(ls[1..], next, true, present, f, v), section, written, f, w);
      } else {
        PutTwice(ls[1..], next, written, present, f, v, w);
        PutCons(Complete(ls[0]), Put(ls[1..], next, written, present, f, v), section, written, f, w);
      }
    }
  }

  /** A setting that was put before a header is replaced where it stands. */
  lemma InsertedTwice(header: string, rest: seq<string>, section: Option<string>, f: Field, v: string, w: string)
    requires GoodField(f) && Writable(v) && IsLine(header) && IsHeader(header) && InSection(section, f)
    ensures Put([Setting(f, v), Complete(header)] + rest, section, false, true, f, w)
         == [Setting(f, w), Complete(header)] + Put(rest, Follow(section, header), true, true, f, w)
  {
    hide Classify, Setting, Complete, Trim, Put, IsLine, Ended, GoodField;
    SettingLine(f, v);
    ClassifyComplete(header);
    CompleteIsLine(header);
    var tail := [Complete(header)] + rest;
    assert [Setting(f, v), Complete(header)] + rest == [Setting(f, v)] + tail;
    PutCons(Setting(f, v), tail, section, false, f, w);
    PutCons(Complete(header), rest, section, true, f, w);
  }

  /** One line of the second pass when the key is known to be present. */
  lemma PutCons(l: string, ls: seq<string>, section: Option<string>, written: bool, f: Field, w: string)
    ensures Put([l] + ls, section, written, true, f, w)
         == [if OwnLine(l, section, f) then Setting(f, w) else Complete(l)]
            + Put(ls, Follow(section, l), written || OwnLine(l, section, f), true, f, w)
  {
    hide Classify, Setting, Complete;
    assert ([l] + ls)[1..] == ls;
  }

  lemma EndingTwice(section: Option<string>, f: Field, v: string, w: string)
    requires GoodField(f) && Writable(v)
    ensures Put(Ending(section, f, v), section, false, true, f, w) == Ending(section, f, w)
  {
    hide Classify, Setting, HeaderLine, Complete, Trim;
    EndingLines(section, f, v);
    HeaderLineReads(f);
    CompleteEnded("\n");
    CompleteEnded(HeaderLine(f));
    var last := [Setting(f, v)];
    assert last == [Setting(f, v)] + [];
    PutCons(Setting(f, v), [], Some(f.section), false, f, w);
    if !InSection(section, f) {
      assert Ending(section, f, v) == ["\n"] + ([HeaderLine(f)] + last);
      PutCons("\n", [HeaderLine(f)] + last, section, false, f, w);
      PutCons(HeaderLine(f), last, section, false, f, w);
    } else {
      assert Ending(section, f, v) == last;
    }
  }

  // ---------- what survives ----------

  /** Everything but the key's own assignments, each line completed. */
  function OtherLines(ls: seq<string>, section: Option<string>, f: Field): seq<string>
  {
    if ls == [] then []
    else (if OwnLine(ls[0], section, f) then [] else [Complete(ls[0])])
         + OtherLines(ls[1..], Follow(section, ls[0]), f)
  }

  /** Some part of the text belongs to f's section. */
  predicate HasSection(ls: seq<string>, section: Option<string>, f: Field)
  {
    InSection(section, f) || (ls != [] && HasSection(ls[1..], Follow(section, ls[0]), f))
  }

  lemma OtherLinesNone(section: Option<string>, f: Field)
    ensures OtherLines([], section, f) == []
  {
  }

  lemma OtherLinesCons(l: string, ls: seq<string>, section: Option<string>, f: Field)
    ensures OtherLines([l] + ls, section, f)
         == (if OwnLine(l, section, f) then [] else [Complete(l)]) + OtherLines(ls, Follow(section, l), f)
  {
    hide Classify, Complete;
    assert ([l] + ls)[1..] == ls;
  }

  lemma {:induction false} OwnInSection(ls: seq<string>, section: Option<string>, f: Field)
    requires OwnValues(ls, section, f) != []
    ensures HasSection(ls, section, f)
  {
    hide Classify;
    if !InSection(section, f) { OwnInSection(ls[1..], Follow(section, ls[0]), f); }
  }

  function NewHeader(f: Field): seq<string> { ["\n", HeaderLine(f)] }

  lemma EndingOthers(section: Option<string>, f: Field, v: string)
    requires GoodField(f) && Writable(v)
    ensures OtherLines(Ending(section, f, v), section, f) == if InSection(section, f) then [] else NewHeader(f)
  {
    hide Classify, Setting, HeaderLine, Complete, Trim;
    EndingLines(section, f, v);
    HeaderLineReads(f);
    CompleteEnded("\n");
    CompleteEnded(HeaderLine(f));
    var last := [Setting(f, v)];
    assert last == [Setting(f, v)] + [];
    OtherLinesCons(Setting(f, v), [], Some(f.section), f);
    if !InSection(section, f) {
      assert Ending(section, f, v) == ["\n"] + ([HeaderLine(f)] + last);
      OtherLinesCons("\n", [HeaderLine(f)] + last, section, f);
      OtherLinesCons(HeaderLine(f), last, section, f);
    } else {
      assert Ending(section, f, v) == last;
    }
  }

  lemma HasFirst(ls: seq<string>, section: Option<string>, f: Field)
    ensures HasSection(ls, section, f)
       <==> InSection(section, f) || (ls != [] && HasSection(ls[1..], Follow(section, ls[0]), f))
  {
    hide Classify;
  }

  /** The key's line put before a header. */
  lemma InsertedOthers(header: string, rest: seq<string>, section: Option<string>, f: Field, v: string)
    requires GoodField(f) && Writable(v) && IsLine(header) && IsHeader(header) && InSection(section, f)
    ensures OtherLines([Setting(f, v), Complete(header)] + rest, section, f)
         == [Complete(header)] + OtherLines(rest, Follow(section, header), f)
  {
    hide Classify, Setting, Complete, Trim, IsLine, Ended, GoodField, OtherLines;
    SettingLine(f, v);
    ClassifyComplete(header);
    CompleteIsLine(header);
    var l := Complete(header);
    assert [Setting(f, v), l] + rest == [Setting(f, v)] + ([l] + rest);
    OtherLinesCons(Setting(f, v), [l] + rest, section, f);
    OtherLinesCons(l, rest, section, f);
  }

  /** Apart from the key's own lines, the output is the input in order, and a header is added
      at the end exactly when nothing in the input belongs to the section. */
  lemma {:induction false} PutSurvivors(ls: seq<string>, section: Option<string>, written: bool, present: bool,
                                        f: Field, v: string)
    requires GoodField(f) && Writable(v) && WellSplit(ls) && Consistent(ls, section, written, present, f)
    ensures OtherLines(Put(ls, section, written, present, f, v), section, f)
         == OtherLines(ls, section, f) + if written || HasSection(ls, section, f) then [] else NewHeader(f)
    decreases |ls|
  {
    hide Classify, Setting, HeaderLine, Complete, Trim, IsLine, Ended, GoodField, OtherLines, Put, HasSection, Values,
         Ending, NewHeader;
    assert OtherLines([], section, f) == [] by { OtherLinesNone(section, f); }
    SettingLine(f, v);
    HasFirst(ls, section, f);
    if ls == [] {
      ValuesNone(Editor, section, f.section, f.key);
      PutNone(section, written, present, f, v);
      EndingOthers(section, f, v);
    } else {
      ClassifyComplete(ls[0]);
      CompleteIsLine(ls[0]);
      PutOf(ls, section, written, present, f, v);
      var next := Follow(section, ls[0]);
      HasFirst(ls[1..], next, f);
      var more, same := Put(ls[1..], next, true, present, f, v), Put(ls[1..], next, written, present, f, v);
      assert ls == [ls[0]] + ls[1..];
      ValuesCons(Editor, ls[0], ls[1..], section, f.section, f.key);
      OtherLinesCons(ls[0], ls[1..], section, f);
      if IsHeader(ls[0]) && InSection(section, f) && !written && !present {
        PutSurvivors(ls[1..], next, true, present, f, v);
        InsertedOthers(ls[0], more, section, f, v);
      } else if OwnLine(ls[0], section, f) {
        PutSurvivors(ls[1..], next, true, present, f, v);
        OtherLinesCons(Setting(f, v), more, section, f);
      } else {
        PutSurvivors(ls[1..], next, written, present, f, v);
        OtherLinesCons(Complete(ls[0]), same, section, f);
        if present && !written { OwnInSection(ls[1..], next, f); }
      }
    }
  }

  // ---------- the laws of save_field on whole texts ----------

  lemma PresentConsistent(ls: seq<string>, f: Field)
    ensures Consistent(ls, NOWHERE, false, Present(ls, NOWHERE, f), f)
  {
    PresentIsValues(ls, NOWHERE, f);
  }

  function InputLines(file: Option<string>): seq<string> { if file.Some? then Lines(file.value) else [] }

  /** Saving v and then w leaves the bytes that saving w alone leaves. */
  lemma SaveSave(file: Option<string>, f: Field, v: string, w: string)
    requires GoodField(f) && Writable(v) && Writable(w)
    ensures SavedText(Some(SavedText(file, f, v)), f, w) == SavedText(file, f, w)
  {
    hide Put, Classify, Setting, HeaderLine, Trim;
    var ls := InputLines(file);
    if file.Some? { LinesFlatten(file.value); }
    SavedLines(file, f, v);
    PresentConsistent(ls, f);
    PutSets(ls, NOWHERE, false, Present(ls, NOWHERE, f), f, v);
    PresentIsValues(PutText(ls, f, v), NOWHERE, f);
    PutTwice(ls, NOWHERE, false, Present(ls, NOWHERE, f), f, v, w);
  }

  /** A saved text is a fixed point of saving the same value again. */
  lemma SaveFixedPoint(file: Option<string>, f: Field, v: string)
    requires GoodField(f) && Writable(v)
    ensures var saved := SavedText(file, f, v); SavedText(Some(saved), f, v) == saved
  {
    SaveSave(file, f, v, v);
  }

  /** Original lines survive verbatim and in order. */
  lemma SaveKeepsLines(file: Option<string>, f: Field, v: string)
    requires GoodField(f) && Writable(v)
    ensures OtherLines(Lines(SavedText(file, f, v)), NOWHERE, f)
         == OtherLines(InputLines(file), NOWHERE, f)
            + if HasSection(InputLines(file), NOWHERE, f) then [] else NewHeader(f)
  {
    hide Put, Classify, Setting, HeaderLine, Trim;
    var ls := InputLines(file);
    if file.Some? { LinesFlatten(file.value); }
    SavedLines(file, f, v);
    PresentConsistent(ls, f);
    PutSurvivors(ls, NOWHERE, false, Present(ls, NOWHERE, f), f, v);
  }

  // ---------- when two texts are saved alike ----------

  /** The lines with the places of the key left open: None where its assignments stand. */
  function Skeleton(ls: seq<string>, section: Option<string>, f: Field): seq<Option<string>>
  {
    if ls == [] then []
    else [if OwnLine(ls[0], section, f) then None else Some(Complete(ls[0]))]
         + Skeleton(ls[1..], Follow(section, ls[0]), f)
  }

  /** The lines the second pass writes, with the places where it writes the setting left open. */
  function Slots(ls: seq<string>, section: Option<string>, written: bool, present: bool, f: Field): seq<Option<string>>
  {
    if ls == [] then
      if written then [] else (if InSection(section, f) then [] else [Some("\n"), Some(HeaderLine(f))]) + [None]
    else
      var next := Follow(section, ls[0]);
      if IsHeader(ls[0]) && InSection(section, f) && !written && !present then
        [None, Some(Complete(ls[0]))] + Slots(ls[1..], next, true, present, f)
      else if OwnLine(ls[0], section, f) then
        [None] + Slots(ls[1..], next, true, present, f)
      else
        [Some(Complete(ls[0]))] + Slots(ls[1..], next, written, present, f)
  }

  /** A file as the editor sees it apart from the key's values: where the key is assigned, or where it would be
      added. */
  function Frame(file: Option<string>, f: Field): seq<Option<string>>
  {
    Slots(InputLines(file), NOWHERE, false, Present(InputLines(file), NOWHERE, f), f)
  }

  function Fill(slots: seq<Option<string>>, setting: string): seq<string>
  {
    if slots == [] then []
    else [if slots[0].Some? then slots[0].value else setting] + Fill(slots[1..], setting)
  }

  lemma FillCons(x: Option<string>, slots: seq<Option<string>>, setting: string)
    ensures Fill([x] + slots, setting) == [if x.Some? then x.value else setting] + Fill(slots, setting)
  {
    assert ([x] + slots)[1..] == slots;
  }

  lemma FillEnding(section: Option<string>, f: Field, v: string)
    ensures Fill(Slots([], section, false, false, f), Setting(f, v)) == Ending(section, f, v)
    ensures Fill(Slots([], section, false, true, f), Setting(f, v)) == Ending(section, f, v)
  {
    hide Setting, HeaderLine;
    var last: seq<Option<string>> := [None];
    assert last == [None] + [];
    FillCons(None, [], Setting(f, v));
    if !InSection(section, f) {
      FillCons(Some(HeaderLine(f)), [None], Setting(f, v));
      FillCons(Some("\n"), [Some(HeaderLine(f)), None], Setting(f, v));
      assert [Some("\n"), Some(HeaderLine(f))] + [None] == [Some("\n")] + ([Some(HeaderLine(f)), None]);
      assert [Some(HeaderLine(f))] + [None] == [Some(HeaderLine(f)), None];
    }
  }

  /** The second pass writes the setting exactly at the open places. */
  lemma {:induction false} PutFills(ls: seq<string>, section: Option<string>, written: bool, present: bool,
                                    f: Field, v: string)
    ensures Put(ls, section, written, present, f, v) == Fill(Slots(ls, section, written, present, f), Setting(f, v))
    decreases |ls|
  {
    hide Classify, Setting, HeaderLine, Complete, Fill, Ending;
    if ls == [] {
      FillEnding(section, f, v);
      FillNone(Setting(f, v));
    } else {
      var next := Follow(section, ls[0]);
      PutFills(ls[1..], next, true, present, f, v);
      PutFills(ls[1..], next, written, present, f, v);
      var more, same := Slots(ls[1..], next, true, present, f), Slots(ls[1..], next, written, present, f);
      var line := Some(Complete(ls[0]));
      FillCons(line, same, Setting(f, v));
      FillCons(line, more, Setting(f, v));
      FillCons(None, more, Setting(f, v));
      FillCons(None, [line] + more, Setting(f, v));
      assert [None, line] + more == [None] + ([line] + more);
    }
  }

  lemma FillNone(setting: string)
    ensures Fill([], setting) == []
  {
  }

  lemma SkeletonCons(l: string, ls: seq<string>, section: Option<string>, f: Field)
    ensures Skeleton([l] + ls, section, f)
         == [if OwnLine(l, section, f) then None else Some(Complete(l))] + Skeleton(ls, Follow(section, l), f)
  {
    hide Classify, Complete;
    assert ([l] + ls)[1..] == ls;
  }

  lemma SkeletonNone(section: Option<string>, f: Field)
    ensures Skeleton([], section, f) == []
  {
  }

  lemma EndingSkeleton(section: Option<string>, f: Field, v: string)
    requires GoodField(f) && Writable(v)
    ensures Skeleton(Ending(section, f, v), section, f) == Slots([], section, false, false, f)
    ensures Skeleton(Ending(section, f, v), section, f) == Slots([], section, false, true, f)
  {
    hide Classify, Setting, HeaderLine, Complete, Trim, Skeleton;
    EndingLines(section, f, v);
    HeaderLineReads(f);
    CompleteEnded("\n");
    CompleteEnded(HeaderLine(f));
    var last := [Setting(f, v)];
    assert last == [Setting(f, v)] + [];
    SkeletonNone(Some(f.section), f);
    SkeletonCons(Setting(f, v), [], Some(f.section), f);
    if !InSection(section, f) {
      assert Ending(section, f, v) == ["\n"] + ([HeaderLine(f)] + last);
      SkeletonCons("\n", [HeaderLine(f)] + last, section, f);
      SkeletonCons(HeaderLine(f), last, section, f);
    } else {
      assert Ending(section, f, v) == last;
    }
  }

  /** The open places can be read off what was written. */
  lemma {:induction false} SlotsRead(ls: seq<string>, section: Option<string>, written: bool, present: bool,
                                     f: Field, v: string)
    requires GoodField(f) && Writable(v) && WellSplit(ls)
    ensures Skeleton(Put(ls, section, written, present, f, v), section, f) == Slots(ls, section, written, present, f)
    decreases |ls|
  {
    hide Classify, Setting, HeaderLine, Complete, Trim, IsLine, Ended, GoodField, Skeleton;
    SettingLine(f, v);
    if ls == [] {
      EndingSkeleton(section, f, v);
      SkeletonNone(section, f);
    } else {
      ClassifyComplete(ls[0]);
      CompleteIsLine(ls[0]);
      var next := Follow(section, ls[0]);
      SlotsReadOn(ls, section, written, present, f, v, next);
    }
  }

  lemma SlotsReadOn(ls: seq<string>, section: Option<string>, written: bool, present: bool, f: Field, v: string,
                    next: Option<string>)
    requires GoodField(f) && Writable(v) && WellSplit(ls) && ls != [] && next == Follow(section, ls[0])
    ensures Skeleton(Put(ls, section, written, present, f, v), section, f) == Slots(ls, section, written, present, f)
    decreases |ls|, 0
  {
    hide Classify, Setting, HeaderLine, Complete, Trim, IsLine, Ended, GoodField, Skeleton;
    SettingLine(f, v);
    ClassifyComplete(ls[0]);
    CompleteIsLine(ls[0]);
    var line, own := Complete(ls[0]), Setting(f, v);
    if IsHeader(ls[0]) && InSection(section, f) && !written && !present {
      var rest := Put(ls[1..], next, true, present, f, v);
      SlotsRead(ls[1..], next, true, present, f, v);
      assert [own, line] + rest == [own] + ([line] + rest);
      SkeletonCons(own, [line] + rest, section, f);
      SkeletonCons(line, rest, section, f);
    } else if OwnLine(ls[0], section, f) {
      SlotsRead(ls[1..], next, true, present, f, v);
      SkeletonCons(own, Put(ls[1..], next, true, present, f, v), section, f);
    } else {
      SlotsRead(ls[1..], next, written, present, f, v);
      SkeletonCons(line, Put(ls[1..], next, written, present, f, v), section, f);
    }
  }

  /** Where the key is assigned, its places are its assignments. */
  lemma {:induction false} SlotsPresent(ls: seq<string>, section: Option<string>, written: bool, f: Field)
    requires written || OwnValues(ls, section, f) != []
    ensures Slots(ls, section, written, true, f) == Skeleton(ls, section, f)
    decreases |ls|
  {
    hide Classify, HeaderLine, Complete;
    if ls != [] { SlotsPresent(ls[1..], Follow(section, ls[0]), written || OwnLine(ls[0], section, f), f); }
  }

  /** Saving any value makes two files the same exactly if they agree but for the key's values. */
  lemma SavedAlike(a: Option<string>, b: Option<string>, f: Field, v: string)
    requires GoodField(f) && Writable(v)
    ensures SavedText(a, f, v) == SavedText(b, f, v) <==> Frame(a, f) == Frame(b, f)
  {
    hide Put, Slots, Skeleton, Flatten, Fill, GoodField, Lines;
    var la, lb := InputLines(a), InputLines(b);
    SplitInput(a);
    SplitInput(b);
    SavedLines(a, f, v);
    SavedLines(b, f, v);
    SlotsRead(la, NOWHERE, false, Present(la, NOWHERE, f), f, v);
    SlotsRead(lb, NOWHERE, false, Present(lb, NOWHERE, f), f, v);
    PutFills(la, NOWHERE, false, Present(la, NOWHERE, f), f, v);
    PutFills(lb, NOWHERE, false, Present(lb, NOWHERE, f), f, v);
  }

  lemma SplitInput(file: Option<string>)
    ensures WellSplit(InputLines(file))
  {
    if file.Some? { LinesFlatten(file.value); }
  }

  /** For texts that assign the key: their other lines are the same, and its assignments stand in the same places. */
  lemma FramePresent(text: string, f: Field)
    requires Present(Lines(text), NOWHERE, f)
    ensures Frame(Some(text), f) == Skeleton(Lines(text), NOWHERE, f)
  {
    hide Slots, Skeleton, Lines, Present;
    PresentIsValues(Lines(text), NOWHERE, f);
    SlotsPresent(Lines(text), NOWHERE, false, f);
  }

  // ---------- save, then load ----------

  lemma {:induction false} PutStrict(ls: seq<string>, section: Option<string>, written: bool, present: bool,
                                     f: Field, v: string)
    requires GoodField(f) && PlainValue(v) && AllStrict(ls)
    ensures AllStrict(Put(ls, section, written, present, f, v))
    decreases |ls|
  {
    hide Classify, Setting, HeaderLine, Complete, Trim, Strict;
    OwnStrict(f, v);
    if ls != [] {
      CompleteIsStrict(ls[0]);
      var next := Follow(section, ls[0]);
      PutStrict(ls[1..], next, true, present, f, v);
      PutStrict(ls[1..], next, written, present, f, v);
    }
  }

  lemma OwnStrict(f: Field, v: string)
    requires GoodField(f) && PlainValue(v)
    ensures Strict(Setting(f, v)) && Strict(HeaderLine(f)) && Strict("\n")
  {
    hide Classify, Trim;
    EndingLines(None, f, v);
  }

  lemma CompleteIsStrict(l: string)
    ensures Strict(Complete(l)) <==> Strict(l)
  {
    hide Classify, Trim;
    ClassifyComplete(l);
    assert Body(Complete(l)) == Body(l);
  }

  function StartOf(t: Table, file: Option<string>): (r: Result<Config, LoadError>)
    requires GoodSupportRows(t) && Typed(t, t.defaults)
    ensures r.Success? ==> Typed(t, r.value)
  {
    if file.None? then Success(t.defaults) else LoadText(t, t.defaults, file.value)
  }

  lemma OwnAfterPut(ls: seq<string>, f: Field, v: string)
    requires GoodField(f) && PlainValue(v) && |OwnValues(ls, NOWHERE, f)| <= 1
    ensures OwnValues(PutText(ls, f, v), NOWHERE, f) == [v]
  {
    hide Put, Classify, Trim, Values, Present, GoodField;
    PresentConsistent(ls, f);
    PutSets(ls, NOWHERE, false, Present(ls, NOWHERE, f), f, v);
    TrimBare(v);
    assert Repeat(v, 1) == [v] + Repeat(v, 0);
  }

  lemma AfterPut(t: Table, ls: seq<string>, i: nat, v: string, j: nat)
    requires GoodTable(t) && i < |t.fields| && j < |t.fields| && PlainValue(v)
    requires var st := StartState(t, t.defaults);
             FieldAccepted(t, st, ls, i) && FieldAccepted(t, st, ls, j)
    requires SetField(t.ipv4, t.fields[i], v).Some?
    ensures var st, out := StartState(t, t.defaults), PutText(ls, t.fields[i], v);
            FieldAccepted(t, st, out, j) &&
            Loaded(t, st, out, j)
              == if i == j then SetField(t.ipv4, t.fields[i], v).value else Loaded(t, st, ls, j)
  {
    hide Put, Classify, SetField, Trim, Find, AllSpace;
    var f, g := t.fields[i], t.fields[j];
    var present := Present(ls, NOWHERE, f);
    if i == j {
      assert |FieldValues(ls, "", f)| == |Handed(ls, "", f)|;
      OwnAfterPut(ls, f, v);
      assert UnquoteAll(f.section, [v]) == [v];
    } else {
      assert !SameName(f, g) by { if i < j { assert !SameName(f, g); } else { assert !SameName(g, f); } }
      PutKeepsOthers(ls, NOWHERE, false, present, f, v, g.section, g.key);
    }
  }

  /** The loader's last step. */
  function Judged(t: Table, c: Config): Result<Config, LoadError>
    requires GoodSupportRows(t) && Typed(t, c)
  {
    if SupportValid(t, c) then Success(c) else Failure(UnusableSupport)
  }

  function ParsedLines(t: Table, file: Option<string>): Result<LoadState, LoadError>
    requires GoodSupportRows(t) && Typed(t, t.defaults)
  {
    LoadLines(t, StartState(t, t.defaults), 1, InputLines(file))
  }

  /** Editing keeps the lines acceptable, and sets exactly the one field. */
  lemma SaveKeepsLoadable(t: Table, file: Option<string>, i: nat, v: string)
    requires GoodTable(t) && i < |t.fields| && PlainValue(v)
    requires ParsedLines(t, file).Success?
    requires SetField(t.ipv4, t.fields[i], v).Some?
    ensures var r := ParsedLines(t, Some(SavedText(file, t.fields[i], v)));
            && r.Success? && Typed(t, r.value.parsed) && Typed(t, ParsedLines(t, file).value.parsed)
            && r.value.parsed == ParsedLines(t, file).value.parsed[i := SetField(t.ipv4, t.fields[i], v).value]
  {
    hide Put, Classify, SetField, SupportValid, Handed, LoadLines, GoodSupportRows;
    var f, ls, st := t.fields[i], InputLines(file), StartState(t, t.defaults);
    var out := PutText(ls, f, v);
    SavedLines(file, f, v);
    LoadMeaning(t, st, 1, ls);
    LoadMeaning(t, st, 1, out);
    var base := LoadLines(t, st, 1, ls).value.parsed;
    forall j | 0 <= j < |t.fields|
      ensures FieldAccepted(t, st, out, j)
      ensures Loaded(t, st, out, j) == if i == j then SetField(t.ipv4, f, v).value else base[j]
    {
      AfterPut(t, ls, i, v, j);
    }
    PutStrict(ls, NOWHERE, false, Present(ls, NOWHERE, f), f, v);
    assert LoadLines(t, st, 1, out).value.parsed == base[i := SetField(t.ipv4, f, v).value];
  }

  /** Editing the text and loading it is loading it and setting the field, for every text the
      loader accepts, missing file included. */
  lemma SaveThenLoad(t: Table, file: Option<string>, i: nat, v: string)
    requires GoodTable(t) && i < |t.fields| && PlainValue(v)
    requires StartOf(t, file).Success?
    requires SetField(t.ipv4, t.fields[i], v).Some?
    ensures LoadText(t, t.defaults, SavedText(file, t.fields[i], v))
         == Judged(t, StartOf(t, file).value[i := SetField(t.ipv4, t.fields[i], v).value])
  {
    hide SetField, SupportValid, LoadLines, SavedText, GoodSupportRows;
    if file.None? { NothingParsed(t); }
    SaveKeepsLoadable(t, file, i, v);
  }

  lemma NothingParsed(t: Table)
    requires GoodSupportRows(t) && Typed(t, t.defaults)
    ensures ParsedLines(t, None) == Success(StartState(t, t.defaults))
  {
  }

  // ---------- the bytes ----------

  /** Where there is no file, the new one holds a blank line, the section's header and the setting. */
  lemma SavedNew(f: Field, v: string)
    requires GoodField(f)
    ensures SavedText(None, f, v) == "\n[" + f.section + "]\n" + f.key + " = " + v + "\n"
  {
    hide GoodKey;
    var lines := ["\n", HeaderLine(f), Setting(f, v)];
    assert PutText([], f, v) == lines by { assert f.section != ""; }
    FlattenCons("\n", [HeaderLine(f), Setting(f, v)]);
    FlattenCons(HeaderLine(f), [Setting(f, v)]);
    FlattenCons(Setting(f, v), []);
    assert lines == ["\n"] + [HeaderLine(f), Setting(f, v)];
    assert [HeaderLine(f), Setting(f, v)] == [HeaderLine(f)] + [Setting(f, v)];
    assert [Setting(f, v)] == [Setting(f, v)] + [];
    assert "\n" + (HeaderLine(f) + (Setting(f, v) + "")) == "\n[" + f.section + "]\n" + f.key + " = " + v + "\n";
  }
}
