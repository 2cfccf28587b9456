/** What the web service installs: validate_ini() and the settings page's way from the old text to the new one. */
module WebSave {
  import opened Ini
  import opened WebIni

  /** A line validate_ini() passes. */
  predicate ValidLine(line: string)
  {
    match Classify(line)
    case Skip => true
    case Header(_, tail) => tail == ""
    case Entry(key, _) => key != ""
    case _ => false
  }

  predicate AllValid(ls: seq<string>) { forall l :: l in ls ==> ValidLine(l) }

  predicate SomeHeader(ls: seq<string>) { exists l :: l in ls && Classify(l).Header? }

  predicate SomeEntry(ls: seq<string>) { exists l :: l in ls && Classify(l).Entry? }

  /** validate_ini(), which save_config() asks first. */
  predicate ValidIni(text: string)
  {
    0 < |text| <= MAX_CONFIG && AllValid(Lines(text)) && SomeHeader(Lines(text)) && SomeEntry(Lines(text))
  }

  /** No assignment has an empty key. */
  predicate KeysNamed(ls: seq<string>)
  {
    forall l :: l in ls && Classify(l).Entry? ==> Classify(l).key != ""
  }

  /** The text the settings page installs for these updates, if it installs one: the old text must not be too large to
      read, the edit must succeed, and its result must be valid. */
  ghost function InstalledText(config: string, ups: seq<Update>, addMissing: bool): Option<string>
  {
    if |config| > MAX_CONFIG then None
    else
      match Applied(config, ups, addMissing)
      case Refused(_) => None
      case Edited(text) => if ValidIni(text) then Some(text) else None
  }

  lemma {:induction false} EditKeepsValid(ls: seq<string>, section: string, ups: seq<Update>)
    requires GoodUpdates(ups) && WellSplit(ls)
    ensures AllValid(EditLines(ls, section, ups)) <==> AllValid(ls)
    decreases |ls|
  {
    hide Classify, GoodUpdates, EditLine, IsLine, Ended, ValidLine;
    if ls != [] {
      var l, rest := EditLine(ls[0], section, ups), EditLines(ls[1..], Step(section, ls[0]), ups);
      EditKeepsValid(ls[1..], Step(section, ls[0]), ups);
      assert ValidLine(l) <==> ValidLine(ls[0]) by { EditLineValid(ls[0], section, ups); }
      assert EditLines(ls, section, ups) == [l] + rest && ls == [ls[0]] + ls[1..];
      ValidCons(l, rest);
      ValidCons(ls[0], ls[1..]);
    }
  }

  lemma EditLineValid(line: string, section: string, ups: seq<Update>)
    requires GoodUpdates(ups) && IsLine(line)
    ensures ValidLine(EditLine(line, section, ups)) <==> ValidLine(line)
  {
    hide Classify, GoodUpdates, EditLine, IsLine, Ended, Unquote;
    EditLineReads(line, section, ups);
  }

  lemma ValidCons(l: string, ls: seq<string>)
    ensures AllValid([l] + ls) <==> ValidLine(l) && AllValid(ls)
  {
    hide ValidLine;
    assert l in [l] + ls && forall x :: x in ls ==> x in [l] + ls;
  }

  lemma ValidConcat(a: seq<string>, b: seq<string>)
    ensures AllValid(a + b) <==> AllValid(a) && AllValid(b)
  {
    hide ValidLine;
    assert forall x :: x in a + b <==> x in a || x in b;
  }

  lemma {:induction false} AddedValid(ms: seq<Update>)
    requires AllGood(ms) && forall u :: u in ms ==> u.key != ""
    ensures AllValid(AddedLines(ms))
  {
    hide Classify, GoodUpdate, AddedLine;
    if ms != [] {
      assert GoodUpdate(ms[0]);
      AddedReads(ms[0]);
      assert forall u :: u in ms[1..] ==> u in ms;
      AddedValid(ms[1..]);
      ValidCons(AddedLine(ms[0]), AddedLines(ms[1..]));
    }
  }

  lemma {:induction false} BlocksValid(ms: seq<Update>)
    requires AllGood(ms) && forall u :: u in ms ==> u.key != ""
    ensures AllValid(Blocks(ms))
    decreases |ms|
  {
    hide Classify, GoodUpdate, AddedLines, SectionLine, ValidLine, AllValid;
    if ms == [] {
      NoneValid();
    } else {
      var s := ms[0].section;
      var own, others := InSection(ms, s), OutsideSection(ms, s);
      PickSplits(ms, s, "", "");
      assert GoodUpdate(ms[0]);
      GoodSectionOf(ms[0]);
      SectionValid(s);
      AddedValid(own);
      BlocksValid(others);
      ValidConcat(["\n", SectionLine(s)], AddedLines(own));
      ValidConcat(["\n", SectionLine(s)] + AddedLines(own), Blocks(others));
    }
  }

  lemma OneValid(l: string)
    ensures AllValid([l]) <==> ValidLine(l)
  {
    hide ValidLine;
    assert l in [l];
  }

  lemma NoneValid()
    ensures AllValid([])
  {
  }

  lemma SectionValid(s: string)
    requires Bare(s) && ']' !in s && '\n' !in s
    ensures AllValid(["\n", SectionLine(s)])
  {
    hide Classify, SectionLine;
    SectionReads(s);
    BlankLineReads();
  }

  lemma CompleteLastValid(ls: seq<string>)
    ensures AllValid(CompleteLast(ls)) <==> AllValid(ls)
  {
    hide Classify, Complete;
    if ls != [] {
      var init, last := ls[..|ls| - 1], ls[|ls| - 1];
      ClassifyComplete(last);
      assert ls == init + [last] && CompleteLast(ls) == init + [Complete(last)];
      ValidConcat(init, [last]);
      ValidConcat(init, [Complete(last)]);
      OneValid(last);
      OneValid(Complete(last));
    }
  }

  /** An edit adds and spoils no line validate_ini() looks at. */
  lemma EditedValid(ls: seq<string>, ups: seq<Update>)
    requires GoodUpdates(ups) && WellSplit(ls) && forall u :: u in ups ==> u.key != ""
    ensures AllValid(EditedLines(ls, ups)) <==> AllValid(ls)
  {
    hide AllValid, EditLines, Missing, Blocks, WellSplit, GoodUpdates, CompleteLast;
    var out, ms := EditLines(ls, "", ups), Missing(ls, ups);
    EditKeepsValid(ls, "", ups);
    assert AllGood(ms) by { MissingPick(ls, ups, "", ""); }
    assert forall u :: u in ms ==> u.key != "" by { MissingIn(ls, ups, 0); MissingIs(ls, ups); }
    BlocksValid(ms);
    CompleteLastValid(out);
    if ms != [] && ls == [] {
      NoneValid();
      FirstBlock(ms);
      assert Blocks(ms) == Blocks(ms)[..1] + Blocks(ms)[1..];
      ValidConcat(Blocks(ms)[..1], Blocks(ms)[1..]);
    } else if ms != [] {
      ValidConcat(CompleteLast(out), Blocks(ms));
    }
  }

  lemma MissingIs(ls: seq<string>, ups: seq<Update>)
    ensures Missing(ls, ups) == MissingFrom(ls, ups, 0)
  {
  }

  lemma {:induction false} MissingIn(ls: seq<string>, ups: seq<Update>, i: nat)
    requires i <= |ups|
    ensures forall u :: u in MissingFrom(ls, ups, i) ==> u in ups
    decreases |ups| - i
  {
    hide Met;
    if i < |ups| { MissingIn(ls, ups, i + 1); }
  }

  /** A key of a named section has a value only after a header. */
  lemma {:induction false} ValueShows(ls: seq<string>, section: string, s: string, k: string)
    requires WebValues(ls, section, s, k) != []
    ensures SomeEntry(ls) && (section != s ==> SomeHeader(ls))
    decreases |ls|
  {
    hide Classify;
    var next := Step(section, ls[0]);
    assert ls[0] in ls && forall l :: l in ls[1..] ==> l in ls;
    if !Assigns(ls[0], Some(section), s, k) {
      ValueShows(ls[1..], next, s, k);
    }
  }

  /** The edit's result is valid exactly if the old lines were: there is something to assign, in a named section. */
  lemma AppliedValid(config: string, ups: seq<Update>, addMissing: bool)
    requires GoodUpdates(ups) && ups != [] && Applied(config, ups, addMissing).Edited?
    requires forall u :: u in ups ==> u.key != "" && u.section != ""
    ensures ValidIni(Applied(config, ups, addMissing).text) <==> AllValid(Lines(config))
  {
    hide AllValid, WebValues, Lines, EditedLines, SomeEntry, SomeHeader, GoodUpdates, UnquoteAll, NoDuplicates, Missing;
    var u, text := ups[0], Applied(config, ups, addMissing).text;
    LinesFlatten(config);
    AppliedLookup(config, ups, addMissing, u.section, u.key);
    EditedValid(Lines(config), ups);
    assert FindUpdate(ups, u.section, u.key) == 0;
    UnquoteNone(u.section);
    ValueShows(Lines(text), "", u.section, u.key);
  }
}
