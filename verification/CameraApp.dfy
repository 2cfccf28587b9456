/** The camera application's loops over its configuration file. */
module CameraApp {
  import opened Ini
  import opened Decimal
  import opened AppConfig
  import opened LineBuffer
  import opened ConfigSave
  import opened Settings

  const CONFIG_LINE_MAX := 512

  /** fgets(): one line, or as much of it as the buffer takes. */
  method FGets(rest: string, line: array<char>) returns (got: nat)
    requires rest != "" && NUL !in rest && line.Length == CONFIG_LINE_MAX
    modifies line
    ensures got == if LineLength(rest) < CONFIG_LINE_MAX then LineLength(rest) else CONFIG_LINE_MAX - 1
    ensures got <= |rest| && HoldsAt(line[..], 0, rest[..got])
  {
    got := 0;
    while got < CONFIG_LINE_MAX - 1 && got < |rest| && (got == 0 || rest[got - 1] != '\n')
      invariant got <= |rest| && got < CONFIG_LINE_MAX && '\n' !in rest[..if got == 0 then 0 else got - 1]
      invariant forall i :: 0 <= i < got ==> line[i] == rest[i]
    {
      line[got] := rest[got];
      assert got > 0 ==> rest[..got] == rest[..got - 1] + [rest[got - 1]];
      got := got + 1;
    }
    line[got] := NUL;
    LineStop(rest, got);
    CharsHold(line[..], 0, rest[..got]);
  }

  /** Where a copy that stops at the first newline, the end or the buffer's end has stopped. */
  lemma LineStop(rest: string, got: nat)
    requires rest != "" && 0 < got <= |rest| && got < CONFIG_LINE_MAX && '\n' !in rest[..got - 1]
    requires got == CONFIG_LINE_MAX - 1 || got == |rest| || rest[got - 1] == '\n'
    ensures got == if LineLength(rest) < CONFIG_LINE_MAX then LineLength(rest) else CONFIG_LINE_MAX - 1
  {
    var n := Find(rest, '\n');
    assert n >= got - 1;
  }

  /** The table row of a key, as the loader searches it. */
  method FindRow(t: Table, section: string, key: string) returns (i: nat)
    ensures i == FindField(t.fields, section, key)
  {
    i := 0;
    while i < |t.fields| && !(section == t.fields[i].section && key == t.fields[i].key)
      invariant i <= |t.fields|
      invariant forall j :: 0 <= j < i ==> !(t.fields[j].section == section && t.fields[j].key == key)
    {
      i := i + 1;
    }
  }

  /** A line the buffer did not take whole is too long; the end of the file excuses a
      missing newline only if fgets() met it. */
  lemma TooLong(rest: string, got: nat)
    requires rest != ""
    requires got == if LineLength(rest) < CONFIG_LINE_MAX then LineLength(rest) else CONFIG_LINE_MAX - 1
    ensures got > 0 && got <= |rest|
    ensures FitsBuffer(rest[..LineLength(rest)]) <==> rest[got - 1] == '\n' || got < CONFIG_LINE_MAX - 1
    ensures FitsBuffer(rest[..LineLength(rest)]) ==> got == LineLength(rest)
  {
    var n := LineLength(rest);
    var line := rest[..n];
    if got < n { assert '\n' !in line[..n - 1] && rest[got - 1] == line[..n - 1][got - 1]; }
  }

  /** What the loader does with the scanned meaning of a line. */
  method LoadItem(t: Table, st: LoadState, n: nat, ghost line: string, item: Item)
    returns (r: Result<LoadState, LoadError>)
    requires GoodState(t, st) && FitsBuffer(line) && item == Scanned(line, st.section)
    ensures r == LoadLine(t, st, n, line)
  {
    hide Classify, SetField, FitsBuffer, Unquote;
    match item {
      case Skip => return Success(st);
      case OpenHeader => return Failure(InvalidSection(n));
      case Header(name, tail) =>
        if tail != "" { return Failure(InvalidSection(n)); }
        if name == "" || |name| >= 64 { return Failure(InvalidSectionName(n)); }
        return Success(st.(section := name));
      case Junk => return Failure(NotKeyValue(n));
      case Entry(key, value) =>
        var i := FindRow(t, st.section, key);
        if i == |t.fields| { return Success(st); }
        var v := SetField(t.ipv4, t.fields[i], value);
        if st.seen[i] || v.None? { return Failure(InvalidOrDuplicate(n, key)); }
        return Success(st.(seen := st.seen[i := true], parsed := st.parsed[i := v.value]));
    }
  }

  /** The lines still to come. */
  lemma LoadStep(t: Table, st: LoadState, n: nat, rest: string)
    requires GoodState(t, st) && rest != ""
    ensures LoadLines(t, st, n, Lines(rest))
         == match LoadLine(t, st, n, rest[..LineLength(rest)])
            case Failure(e) => Failure(e)
            case Success(next) => LoadLines(t, next, n + 1, Lines(rest[LineLength(rest)..]))
  {
    hide LoadLine, LineLength;
    var line, more := rest[..LineLength(rest)], Lines(rest[LineLength(rest)..]);
    assert Lines(rest) == [line] + more;
    assert ([line] + more)[1..] == more;
  }

  lemma LongLine(t: Table, st: LoadState, n: nat, line: string)
    requires GoodState(t, st) && !FitsBuffer(line)
    ensures LoadLine(t, st, n, line) == Failure(LineTooLong(n))
  {
  }

  lemma NothingToLoad(t: Table, st: LoadState, n: nat)
    requires GoodState(t, st)
    ensures LoadLines(t, st, n, Lines("")) == Success(st)
  {
  }

  /** ca_config_load() */
  method Load(t: Table, c: Config, text: string) returns (r: Result<Config, LoadError>)
    requires GoodSupportRows(t) && Typed(t, c) && NUL !in text
    ensures r == LoadText(t, c, text)
    ensures GoodTable(t) ==> forall after :: r == Success(after) <==> LoadsTo(t, c, text, after)
  {
    hide LoadsTo;
    r := LoadLoop(t, c, text);
    if GoodTable(t) {
      forall after ensures r == Success(after) <==> LoadsTo(t, c, text, after) { LoadExactly(t, c, text, after); }
    }
  }

  method LoadLoop(t: Table, c: Config, text: string) returns (r: Result<Config, LoadError>)
    requires GoodSupportRows(t) && Typed(t, c) && NUL !in text
    ensures r == LoadText(t, c, text)
  {
    hide FitsBuffer, SupportValid, HoldsAt, LoadLine, LoadLines, Lines, LineLength, Typed, GoodSupportRows, Scanned;
    var line := new char[CONFIG_LINE_MAX];
    var rest, n := text, 0;
    var st := LoadState("", seq(|t.fields|, i => false), c);
    while rest != ""
      invariant NUL !in rest && GoodState(t, st)
      invariant LoadLines(t, StartState(t, c), 1, Lines(text)) == LoadLines(t, st, n + 1, Lines(rest))
      decreases |rest|
    {
      n := n + 1;
      ghost var whole := rest[..LineLength(rest)];
      LoadStep(t, st, n, rest);
      var got := FGets(rest, line);
      TooLong(rest, got);
      if rest[got - 1] != '\n' && got == CONFIG_LINE_MAX - 1 {
        LongLine(t, st, n, whole);
        return Failure(LineTooLong(n));
      }
      var item := ScanLine(line, whole, st.section);
      var next := LoadItem(t, st, n, whole, item);
      if next.Failure? { return Failure(next.error); }
      st, rest := next.value, rest[got..];
    }
    NothingToLoad(t, st, n + 1);
    if !SupportValid(t, st.parsed) { return Failure(UnusableSupport); }
    return Success(st.parsed);
  }

  /** What save_field() makes of one line: is it a header, is the text after it in the
      section, is it an assignment of the key? */
  method ScanSetting(line: string, inSection: bool, f: Field, ghost section: Option<string>)
    returns (header: bool, now: bool, own: bool)
    requires inSection == InSection(section, f)
    ensures header == IsHeader(line)
    ensures now == InSection(Follow(section, line), f)
    ensures own == OwnLine(line, section, f)
  {
    hide Trim, Find;
    header, now, own := false, inSection, false;
    var text := Trim(line);
    if text != "" && text[0] == '[' {
      var close := Find(text[1..], ']');
      header := true;
      now := close < |text| - 1 && Trim(text[1..1 + close]) == f.section;
    } else if inSection && text != "" && text[0] != '#' && text[0] != ';' {
      var equals := Find(text, '=');
      own := equals < |text| && Trim(text[..equals]) == f.key;
    }
  }

  /** The second pass on one line of the input. */
  method WriteLine(line: string, inSection: bool, written: bool, keyPresent: bool, f: Field, value: string,
                   ghost section: Option<string>)
    returns (bytes: string, now: bool, written': bool)
    requires inSection == InSection(section, f)
    ensures bytes == LineBytes(line, section, written, keyPresent, f, value)
    ensures now == InSection(Follow(section, line), f)
    ensures written' == (written || Inserts(line, section, written, keyPresent, f) || OwnLine(line, section, f))
  {
    hide Classify, Complete, Setting, IsHeader, OwnLine, Follow;
    var header, after, own := ScanSetting(line, inSection, f, section);
    bytes, now, written' := "", after, written;
    if header && inSection && !written && !keyPresent {
      bytes := Setting(f, value);
      written' := true;
    }
    if own {
      bytes := bytes + Setting(f, value);
      written' := true;
    } else {
      bytes := bytes + Complete(line);
    }
  }

  /** save_field(): two passes over the lines, the second writing the new file. */
  method SaveField(file: Option<string>, f: Field, value: string) returns (output: string)
    requires GoodField(f)
    ensures output == SavedText(file, f, value)
  {
    hide *;
    var text := if file.Some? then file.value else "";
    SaveBegins(file, text, f, value);
    var keyPresent := FirstPass(text, f);
    ghost var section := NOWHERE;
    var rest, inSection, written := text, false, false;
    output := "";
    ghost var whole := SavedText(file, f, value);
    while rest != ""
      invariant inSection == InSection(section, f)
      invariant whole == output + Flatten(Put(Lines(rest), section, written, keyPresent, f, value))
      decreases |rest|
    {
      SaveStep(rest, section, written, keyPresent, f, value, output, whole);
      var n := LineLength(rest);
      var line := rest[..n];
      var bytes, now, written' := WriteLine(line, inSection, written, keyPresent, f, value, section);
      section, output, inSection, written, rest := Follow(section, line), output + bytes, now, written', rest[n..];
    }
    EndStep(section, written, keyPresent, f, value);
    if !written {
      if !inSection { output := output + "\n" + HeaderLine(f); }
      output := output + Setting(f, value);
    }
  }

  /** One turn of the second loop. */
  lemma SaveStep(rest: string, section: Option<string>, written: bool, present: bool, f: Field, v: string,
                 output: string, whole: string)
    requires rest != "" && whole == output + Flatten(Put(Lines(rest), section, written, present, f, v))
    ensures var line := rest[..LineLength(rest)];
            var written' := written || Inserts(line, section, written, present, f) || OwnLine(line, section, f);
            whole == output + LineBytes(line, section, written, present, f, v)
                     + Flatten(Put(Lines(rest[LineLength(rest)..]), Follow(section, line), written', present, f, v))
  {
    hide Classify, Put, LineBytes, Inserts, OwnLine, Follow, Flatten;
    var line, more := rest[..LineLength(rest)], Lines(rest[LineLength(rest)..]);
    assert Lines(rest) == [line] + more;
    PutStep(line, more, section, written, present, f, v);
  }

  /** Before the second pass nothing is written and no section is entered. */
  lemma SaveBegins(file: Option<string>, text: string, f: Field, v: string)
    requires GoodField(f) && text == if file.Some? then file.value else ""
    ensures SavedText(file, f, v) == "" + Flatten(Put(Lines(text), NOWHERE, false, Present(Lines(text), NOWHERE, f),
              f, v))
    ensures f.section != "" && !InSection(NOWHERE, f)
  {
    hide Put, Flatten, Present;
    assert file.None? ==> Lines(text) == [];
    assert f.section != "";
  }

  lemma HeaderOrOwn(line: string, section: Option<string>, f: Field)
    ensures !(IsHeader(line) && OwnLine(line, section, f))
  {
    hide Classify;
  }

  /** A missing setting is written before this header. */
  predicate Inserts(line: string, section: Option<string>, written: bool, present: bool, f: Field)
  {
    IsHeader(line) && InSection(section, f) && !written && !present
  }

  /** The bytes the second pass writes for one line. */
  function LineBytes(line: string, section: Option<string>, written: bool, present: bool, f: Field, v: string): string
  {
    (if Inserts(line, section, written, present, f) then Setting(f, v) else "")
    + if OwnLine(line, section, f) then Setting(f, v) else Complete(line)
  }

  lemma PutStep(line: string, more: seq<string>, section: Option<string>, written: bool, present: bool,
                f: Field, v: string)
    ensures var written' := written || Inserts(line, section, written, present, f) || OwnLine(line, section, f);
            Flatten(Put([line] + more, section, written, present, f, v))
              == LineBytes(line, section, written, present, f, v)
                 + Flatten(Put(more, Follow(section, line), written', present, f, v))
  {
    hide Classify, Setting, Complete, Flatten, IsHeader, OwnLine, Follow;
    HeaderOrOwn(line, section, f);
    assert ([line] + more)[1..] == more;
    var insert, own := Inserts(line, section, written, present, f), OwnLine(line, section, f);
    var tail := Put(more, Follow(section, line), written || insert || own, present, f, v);
    FlattenCons(Complete(line), tail);
    FlattenCons(Setting(f, v), tail);
    FlattenCons(Setting(f, v), [Complete(line)] + tail);
    assert [Setting(f, v), Complete(line)] + tail == [Setting(f, v)] + ([Complete(line)] + tail);
    assert Setting(f, v) + (Complete(line) + Flatten(tail)) == (Setting(f, v) + Complete(line)) + Flatten(tail);
    assert "" + Complete(line) == Complete(line) && "" + Setting(f, v) == Setting(f, v);
  }

  lemma EndStep(section: Option<string>, written: bool, present: bool, f: Field, v: string)
    ensures Flatten(Put(Lines(""), section, written, present, f, v))
         == if written then "" else (if InSection(section, f) then "" else "\n" + HeaderLine(f)) + Setting(f, v)
  {
    hide Classify, Setting, HeaderLine;
    var last := [Setting(f, v)];
    FlattenCons(Setting(f, v), []);
    assert [Setting(f, v)] + [] == last;
    FlattenCons(HeaderLine(f), last);
    FlattenCons("\n", [HeaderLine(f)] + last);
    assert ["\n", HeaderLine(f)] + last == ["\n"] + ([HeaderLine(f)] + last);
    assert [] + last == last;
  }

  /** First pass: INI sections may repeat, so look for the key before inserting it. */
  method FirstPass(text: string, f: Field) returns (keyPresent: bool)
    requires f.section != ""
    ensures keyPresent == Present(Lines(text), NOWHERE, f)
  {
    hide Classify, IsHeader, OwnLine, Follow;
    ghost var section := NOWHERE;
    var rest, inSection := text, false;
    keyPresent := false;
    while rest != ""
      invariant inSection == InSection(section, f)
      invariant Present(Lines(text), NOWHERE, f) == (keyPresent || Present(Lines(rest), section, f))
      decreases |rest|
    {
      var n := LineLength(rest);
      var line := rest[..n];
      assert Lines(rest) == [line] + Lines(rest[n..]) && Lines(rest)[1..] == Lines(rest[n..]);
      var header, now, own := ScanSetting(line, inSection, f, section);
      if own { keyPresent := true; }
      section, inSection, rest := Follow(section, line), now, rest[n..];
    }
  }

  // ---------- ca_config_param_save ----------

  datatype SaveResult = Saved | BadParameter | BadConfig(error: LoadError) | WriteFailed

  /** The text a number is written as, if the field has one. The last option with the value wins. */
  function NumberText(f: Field, n: int): Option<string>
  {
    match f.kind
    case EnumKind => OptionName(f.options, n)
    case BoolKind => if n == 0 then Some("false") else if n == 1 then Some("true") else None
    case _ => Some(PrintInt(n))
  }

  function OptionName(options: seq<Choice>, n: int): Option<string>
  {
    if options == [] then None
    else if options[|options| - 1].value == n then Some(options[|options| - 1].name)
    else OptionName(options[..|options| - 1], n)
  }

  /** param_field(): the row of the index-th named parameter, or the number of rows. */
  function ParamRow(fields: seq<Field>, index: nat): (i: nat)
    ensures i <= |fields| && (i < |fields| ==> fields[i].param.Some?)
  {
    if fields == [] then 0
    else if fields[0].param.Some? && index == 0 then 0
    else 1 + ParamRow(fields[1..], if fields[0].param.Some? then index - 1 else index)
  }

  /** How many rows have a parameter name. */
  function Params(fields: seq<Field>): nat
  {
    if fields == [] then 0 else (if fields[0].param.Some? then 1 else 0) + Params(fields[1..])
  }

  /** Exactly `index` named rows stand before the row found; none is found if there are no more. */
  lemma {:induction false} ParamRowIsIndexth(fields: seq<Field>, index: nat)
    ensures var i := ParamRow(fields, index);
            if i < |fields| then fields[i].param.Some? && Params(fields[..i]) == index else Params(fields) <= index
  {
    if fields != [] && !(fields[0].param.Some? && index == 0) {
      ParamRowIsIndexth(fields[1..], if fields[0].param.Some? then index - 1 else index);
      var i := ParamRow(fields, index);
      assert fields[..i][1..] == fields[1..][..i - 1] && fields[..i][0] == fields[0];
    }
  }

  /** A MAVLink value that is a whole number in range. */
  predicate WholeNumber(value: real)
  {
    -65535.0 <= value <= 65535.0 && value.Floor as real == value
  }

  /** ca_config_param_get() */
  function ParamGet(v: Value): int
    requires !v.Word?
  {
    if v.Flag? then (if v.b then 1 else 0) else v.n
  }

  /** Option i is the last one with value n, and this is its name. */
  predicate LastOption(options: seq<Choice>, n: int, name: string, i: int)
  {
    0 <= i < |options| && options[i] == Choice(name, n) && forall j :: i < j < |options| ==> options[j].value != n
  }

  lemma {:induction false} OptionNameFound(options: seq<Choice>, n: int)
    requires forall i, j :: 0 <= i < j < |options| ==> options[i].name != options[j].name
    requires OptionName(options, n).Some?
    ensures ChooseByName(options, OptionName(options, n).value) == Some(Number(n))
    ensures exists i :: LastOption(options, n, OptionName(options, n).value, i)
  {
    var last := |options| - 1;
    if options[last].value == n {
      assert LastOption(options, n, options[last].name, last);
      ChooseAt(options, last);
    } else {
      OptionNameFound(options[..last], n);
      var i :| LastOption(options[..last], n, OptionName(options, n).value, i);
      assert forall j :: 0 <= j < last ==> options[j] == options[..last][j];
      assert LastOption(options, n, OptionName(options, n).value, i);
      ChooseAt(options, i);
    }
  }

  lemma {:induction false} ChooseAt(options: seq<Choice>, i: nat)
    requires i < |options|
    requires forall i, j :: 0 <= i < j < |options| ==> options[i].name != options[j].name
    ensures ChooseByName(options, options[i].name) == Some(Number(options[i].value))
  {
    if i > 0 {
      assert forall j :: 0 <= j < |options[1..]| ==> options[1..][j] == options[j + 1];
      ChooseAt(options[1..], i - 1);
    }
  }

  /** A number's text is plain, and a text that set_field() takes gives the number back. */
  lemma NumberTextReads(ipv4: string -> bool, f: Field, n: int)
    requires GoodField(f) && f.param.Some? && -65535 <= n <= 65535 && NumberText(f, n).Some?
    ensures PlainValue(NumberText(f, n).value)
    ensures var v := SetField(ipv4, f, NumberText(f, n).value); v.Some? ==> !v.value.Word? && ParamGet(v.value) == n
  {
    hide ReadNumeral, PrintInt;
    match f.kind
    case EnumKind => OptionNameFound(f.options, n);
    case BoolKind =>
    case _ =>
      ReadPrinted(n);
      PrintedReadsBack(n);
      WrappedMinus(n);
      ShortNumber(n);
  }

  /** The field has a text for this number: false and true for 0 and 1, an option with that value, a number in range. */
  predicate TakesNumber(f: Field, n: int)
  {
    match f.kind
    case BoolKind => n == 0 || n == 1
    case EnumKind => exists o :: o in f.options && o.value == n
    case IntKind => f.minimum <= n <= f.maximum
    case UintKind => f.minimum <= n <= f.maximum
    case _ => false
  }

  /** How a field that takes the number holds it. */
  function ParamValue(f: Field, n: int): Value { if f.kind.BoolKind? then Flag(n == 1) else Number(n) }

  lemma {:induction false} OptionNameExists(options: seq<Choice>, n: int)
    ensures OptionName(options, n).Some? <==> exists o :: o in options && o.value == n
  {
    if options != [] {
      var last := |options| - 1;
      OptionNameExists(options[..last], n);
      assert options == options[..last] + [options[last]];
      assert options[last] in options;
    }
  }

  /** A number's text exists and is taken exactly if the field takes the number, and then stores it. It is the number
      in decimal, or the name of the last option with that value. */
  lemma NumberTextTaken(ipv4: string -> bool, f: Field, n: int)
    requires GoodField(f) && f.param.Some? && -65535 <= n <= 65535
    ensures NumberText(f, n).Some? && SetField(ipv4, f, NumberText(f, n).value).Some? <==> TakesNumber(f, n)
    ensures TakesNumber(f, n) ==> SetField(ipv4, f, NumberText(f, n).value) == Some(ParamValue(f, n))
    ensures f.kind.IntKind? || f.kind.UintKind? ==> NumberText(f, n) == Some(PrintInt(n))
    ensures f.kind.EnumKind? && TakesNumber(f, n) ==> exists i :: LastOption(f.options, n, NumberText(f, n).value, i)
  {
    hide ReadNumeral, PrintInt;
    match f.kind
    case EnumKind =>
      OptionNameExists(f.options, n);
      if OptionName(f.options, n).Some? { OptionNameFound(f.options, n); }
    case BoolKind =>
    case _ =>
      ReadPrinted(n);
      PrintedReadsBack(n);
      WrappedMinus(n);
  }

  /** Every number a field can hold, within the parameters' range, is one it takes. */
  lemma HeldIsTaken(ipv4: string -> bool, f: Field, text: string, v: Value)
    requires GoodField(f) && f.param.Some? && SetField(ipv4, f, text) == Some(v)
    ensures !v.Word? && TakesNumber(f, ParamGet(v)) && v == ParamValue(f, ParamGet(v))
  {
    hide Denotes;
    SetFieldExactly(ipv4, f, text, v);
  }

  lemma ShortNumber(n: int)
    requires -65535 <= n <= 65535
    ensures |PrintInt(n)| <= VALUE_MAX
  {
    assert Power10(5) == 10 * Power10(4) && Power10(4) == 10 * Power10(3) && Power10(3) == 10 * Power10(2);
    assert Power10(2) == 10 * Power10(1);
    PrintLength(if n < 0 then -n else n, 5);
  }

  /** A small negative number wraps out of every unsigned range. */
  lemma WrappedMinus(n: int)
    requires -65535 <= n <= 65535
    ensures n < 0 ==> Strtoul(PrintInt(n)).Some? && Strtoul(PrintInt(n)).value > INT_MAX
  {
    ReadPrinted(n);
  }

  /** The request can be met: a whole number in the parameters' range, a row with that index, a file that loads if
      there is one, a number the field takes, and a structure the support proxy's rule allows. */
  ghost predicate CanSave(t: Table, file: Option<string>, index: nat, value: real)
    requires GoodTable(t)
  {
    var i := ParamRow(t.fields, index);
    && value == value.Floor as real && -65535.0 <= value <= 65535.0
    && i < |t.fields| && StartOf(t, file).Success? && TakesNumber(t.fields[i], value.Floor)
    && SupportValid(t, WithParam(t, file, i, value.Floor))
  }

  /** What the file loads to, with the number in row i. */
  function WithParam(t: Table, file: Option<string>, i: nat, n: int): (c: Config)
    requires GoodSupportRows(t) && Typed(t, t.defaults) && StartOf(t, file).Success? && i < |t.fields|
    requires TakesNumber(t.fields[i], n)
    ensures Typed(t, c)
  {
    StartOf(t, file).value[i := ParamValue(t.fields[i], n)]
  }

  /** The request is met: the structure holds the number, the file is the edit of the old one, and loading the file
      gives the structure. */
  ghost predicate SavedAs(t: Table, before: Option<string>, index: nat, value: real,
                          file: Option<string>, config: Config)
    requires GoodTable(t) && CanSave(t, before, index, value)
  {
    var i := ParamRow(t.fields, index);
    var text := NumberText(t.fields[i], value.Floor);
    && config == WithParam(t, before, i, value.Floor) && !config[i].Word? && ParamGet(config[i]) == value.Floor
    && text.Some? && file == Some(SavedText(before, t.fields[i], text.value))
    && LoadText(t, t.defaults, file.value) == Success(config)
  }

  /** The application's view of one configuration path and its running configuration. */
  class CameraConfig {
    var file: Option<string>
    var config: Config

    constructor (file: Option<string>, config: Config)
      ensures this.file == file && this.config == config
    {
      this.file, this.config := file, config;
    }

    /** ca_config_param_save(); `writes` says whether save_field() can write. On success the file is rewritten, the
        running configuration is what loading that file gives, and the parameter reads back as the requested number;
        any other outcome changes nothing. */
    method ParamSave(t: Table, index: nat, value: real, writes: bool) returns (r: SaveResult)
      requires GoodTable(t) && (file.Some? ==> NUL !in file.value)
      modifies this
      ensures r != Saved ==> file == old(file) && config == old(config)
      ensures r.BadConfig?
         <==> WholeNumber(value) && ParamRow(t.fields, index) < |t.fields| && StartOf(t, old(file)).Failure?
      ensures r == Saved <==> CanSave(t, old(file), index, value) && writes
      ensures r == WriteFailed <==> CanSave(t, old(file), index, value) && !writes
      ensures r == Saved ==> SavedAs(t, old(file), index, value, file, config)
    {
      hide SetField, SupportValid, LoadText, PlainValue, GoodField, SavedText, NumberText, GoodSupportRows, ParamRow,
           ParamGet;
      var i := FindParam(t.fields, index);
      if i == |t.fields| || !WholeNumber(value) { return BadParameter; }
      var f, n := t.fields[i], value.Floor;
      assert GoodField(f);
      NumberTextTaken(t.ipv4, f, n);
      var base := t.defaults;
      if file.Some? {
        var loaded := Load(t, t.defaults, file.value);
        if loaded.Failure? { return BadConfig(loaded.error); }
        base := loaded.value;
      }
      var text := NumberText(f, n);
      if text.None? { return BadParameter; }
      var v := SetField(t.ipv4, f, text.value);
      if v.None? { return BadParameter; }
      var updated := base[i := v.value];
      if !SupportValid(t, updated) { return BadParameter; }
      NumberTextReads(t.ipv4, f, n);
      SaveThenLoad(t, file, i, text.value);
      if !writes { return WriteFailed; }
      var saved := SaveField(file, f, text.value);
      file, config := Some(saved), updated;
      return Saved;
    }
  }

  /** param_field() as a loop that counts the index down. */
  method FindParam(fields: seq<Field>, index: nat) returns (i: nat)
    ensures i == ParamRow(fields, index)
  {
    hide ParamRow;
    var left := index;
    i := 0;
    assert fields[0..] == fields;
    while i < |fields| && !(fields[i].param.Some? && left == 0)
      invariant i <= |fields| && ParamRow(fields, index) == i + ParamRow(fields[i..], left)
    {
      ParamStep(fields[i..], left);
      if fields[i].param.Some? { left := left - 1; }
      assert fields[i..][1..] == fields[i + 1..];
      i := i + 1;
    }
    ParamStep(fields[i..], left);
  }

  lemma ParamStep(fields: seq<Field>, index: nat)
    ensures fields == [] || (fields[0].param.Some? && index == 0) ==> ParamRow(fields, index) == 0
    ensures fields != [] && !(fields[0].param.Some? && index == 0) ==>
              ParamRow(fields, index) == 1 + ParamRow(fields[1..], if fields[0].param.Some? then index - 1 else index)
  {
  }
}
