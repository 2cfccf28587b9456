/** The web service's loop over a text it is about to install, and the settings page's way to it. */
module WebPage {
  import opened Ini
  import opened WebIni
  import opened WebSave
  import opened WebService

  datatype Verdict = Bad | Blank | Section | Assignment

  /** What validate_ini() makes of a line's meaning. */
  function Judged(item: Item): Verdict
  {
    match item
    case Skip => Blank
    case Header(_, tail) => if tail == "" then Section else Bad
    case Entry(key, _) => if key == "" then Bad else Assignment
    case _ => Bad
  }

  /** The pointer work on one line. */
  method ValidateLine(text: string, p: nat, lineEnd: nat) returns (v: Verdict)
    requires p <= lineEnd <= |text|
    ensures v == Judged(Classify(text[p..lineEnd]))
  {
    hide Trim, Find, ClassifyText;
    var start, end := TrimSpan(text, p, lineEnd);
    v := ValidateText(text, start, end);
  }

  method ValidateText(text: string, start: nat, end: nat) returns (v: Verdict)
    requires start <= end <= |text|
    ensures v == Judged(ClassifyText(text[start..end]))
  {
    hide Trim, Find;
    ghost var t := text[start..end];
    if start == end || text[start] == '#' || text[start] == ';' { return Blank; }
    if text[start] == '[' {
      var close := MemChr(text, start + 1, end, ']');
      SliceOfSlice(text, start, end, 1, end - start);
      if close == end { return Bad; }
      SliceOfSlice(text, start, end, close + 1 - start, end - start);
      var from, to := TrimSpan(text, close + 1, end);
      return if from < to then Bad else Section;
    }
    var equals := MemChr(text, start, end, '=');
    if equals == end { return Bad; }
    SliceOfSlice(text, start, end, 0, equals - start);
    var from, to := TrimSpan(text, start, equals);
    return if from < to then Assignment else Bad;
  }

  /** One line of the loop. */
  lemma JudgeLine(text: string, p: nat, lineEnd: nat, v: Verdict)
    requires p < |text| && p <= lineEnd <= |text|
    requires text[p..lineEnd] == Body(text[p..][..LineLength(text[p..])])
    requires v == Judged(Classify(text[p..lineEnd]))
    ensures var rest := Lines(text[p + LineLength(text[p..])..]);
            && (AllValid(Lines(text[p..])) <==> v != Bad && AllValid(rest))
            && (v != Bad ==> (SomeHeader(Lines(text[p..])) <==> v == Section || SomeHeader(rest)))
            && (v != Bad ==> (SomeEntry(Lines(text[p..])) <==> v == Assignment || SomeEntry(rest)))
  {
    hide Classify, Lines, AllValid, SomeHeader, SomeEntry, Body;
    NextLine(Web, text, p, None, "", "");
    var line, rest := text[p..][..LineLength(text[p..])], Lines(text[p + LineLength(text[p..])..]);
    ValidCons(line, rest);
    ShownCons(line, rest);
  }

  lemma ShownCons(l: string, ls: seq<string>)
    ensures SomeHeader([l] + ls) <==> Classify(l).Header? || SomeHeader(ls)
    ensures SomeEntry([l] + ls) <==> Classify(l).Entry? || SomeEntry(ls)
  {
    hide Classify;
    assert forall x :: x in [l] + ls <==> x == l || x in ls;
    assert l in [l] + ls;
  }

  lemma NothingShown(text: string)
    requires text == ""
    ensures AllValid(Lines(text)) && !SomeHeader(Lines(text)) && !SomeEntry(Lines(text))
  {
  }

  /** validate_ini() */
  method ValidateIni(config: string) returns (ok: bool)
    ensures ok == ValidIni(config)
  {
    hide Classify, Lines, AllValid, SomeHeader, SomeEntry, Body, Judged, LineLength;
    if |config| == 0 || |config| > MAX_CONFIG { return false; }
    var p, sections, assignments := 0, 0, 0;
    assert config[0..] == config;
    while p < |config|
      invariant p <= |config|
      invariant AllValid(Lines(config)) <==> AllValid(Lines(config[p..]))
      invariant SomeHeader(Lines(config)) <==> sections > 0 || SomeHeader(Lines(config[p..]))
      invariant SomeEntry(Lines(config)) <==> assignments > 0 || SomeEntry(Lines(config[p..]))
    {
      var lineEnd := LineEnd(config, p);
      var v := ValidateLine(config, p, lineEnd);
      JudgeLine(config, p, lineEnd, v);
      if v == Bad { return false; }
      if v == Section { sections := sections + 1; }
      if v == Assignment { assignments := assignments + 1; }
      p := if lineEnd < |config| then lineEnd + 1 else lineEnd;
    }
    NothingShown(config[p..]);
    return sections > 0 && assignments > 0;
  }

  /** The settings page between reading the old text and publishing the new one. */
  method InstallUpdates(config: string, ups: seq<Update>, addMissing: bool) returns (r: Option<string>)
    ensures r == InstalledText(config, ups, addMissing)
  {
    hide Applied, ValidIni;
    if |config| > MAX_CONFIG { return None; }
    var edit := IniApplyUpdates(config, ups, addMissing);
    if edit.Refused? { return None; }
    var ok := ValidateIni(edit.text);
    return if ok then Some(edit.text) else None;
  }
}
