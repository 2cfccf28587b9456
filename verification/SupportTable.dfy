/** The support proxy's rows as both programs list them: a table and a form the general results apply to. */
module SupportTable {
  import opened Ini
  import opened AppConfig
  import opened WebIni
  import opened WebSave
  import opened TwoPrograms
  import opened WebForm
  import opened Settings
  import opened Decimal
  import S = ConfigSave
  import P = Publish

  const ROWS := 14

  const HOST := 1

  // ---------- the application's rows ----------

  function Bool(key: string, param: string): Field { Field(SUPPORT, key, BoolKind, 1, [], 0, 1, Some(param)) }

  function Text(key: string, minimum: nat, size: nat): Field
    requires size > 0
  {
    Field(SUPPORT, key, StringKind, size, [], minimum, size - 1, None)
  }

  function Uint(key: string, maximum: nat, param: string): Field
  {
    Field(SUPPORT, key, UintKind, 4, [], 0, maximum, Some(param))
  }

  function Row(i: nat): Field
    requires i < ROWS
  {
    match i
    case 0 => Bool("enabled", "PROXY_ENABLE")
    case 1 => Text("host", 0, 128)
    case 2 => Uint("mavlink_port", 65535, "PROXY_MAV_PORT")
    case 3 => Bool("signing", "PROXY_SIGN")
    case 4 => Text("signing_passphrase", 0, 128)
    case 5 => Uint("signing_link_id", 255, "PROXY_SIGN_ID")
    case 6 => Uint("video1_port", 65535, "PROXY_VID1_PORT")
    case 7 => Uint("video2_port", 65535, "PROXY_VID2_PORT")
    case 8 => Text("video1_name", 0, 64)
    case 9 => Text("video2_name", 0, 64)
    case 10 => Text("publish_password", 0, 128)
    case 11 => Text("network_interface", 1, 16)
    case 12 => Text("network_address", 0, 32)
    case 13 => Text("network_gateway", 0, 16)
  }

  function Fields(): (fs: seq<Field>)
    ensures |fs| == ROWS && forall i :: 0 <= i < ROWS ==> fs[i] == Row(i)
  {
    seq(ROWS, i requires 0 <= i < ROWS => Row(i))
  }

  function Defaults(): Config
  {
    [Flag(false), Word(""), Number(10001), Flag(false), Word(""), Number(1), Number(0), Number(0),
     Word("video1"), Word("video2"), Word(""), Word("eth0"), Word(""), Word("")]
  }

  function Rows(ipv4: string -> bool): Table { Table(Fields(), SupportRows(0, 1, 3, 4, 6, 8, 7, 9), ipv4, Defaults()) }

  /** Tells the keys apart by their lengths and a few characters. */
  function RowOf(key: string): int
  {
    if |key| == 4 then 1
    else if |key| == 7 then if key[0] == 'e' then 0 else 3
    else if |key| == 11 then
      if key[5] == '1' then if key[7] == 'p' then 6 else 8
      else if key[7] == 'p' then 7 else 9
    else if |key| == 12 then 2
    else if |key| == 15 then if key[0] == 's' then 5 else if key[8] == 'a' then 12 else 13
    else if |key| == 16 then 10
    else if |key| == 17 then 11
    else 4
  }

  lemma RowKey(i: nat)
    requires i < ROWS
    ensures RowOf(Row(i).key) == i
  {
  }

  lemma GoodRow(i: nat)
    requires i < ROWS
    ensures GoodField(Row(i)) && Row(i).section == SUPPORT
  {
    hide GoodKey;
    GoodSupport();
    GoodRowKey(i);
  }

  lemma GoodSupport()
    ensures GoodSection(SUPPORT)
  {
  }

  lemma GoodRowKey(i: nat)
    requires i < ROWS
    ensures GoodKey(Row(i).key)
  {
    hide GoodKey, Row;
    if i < 3 { GoodKeys0(i); }
    else if i < 6 { GoodKeys3(i); }
    else if i < 9 { GoodKeys6(i); }
    else if i < 11 { GoodKeys9(i); }
    else if i < 12 { GoodKeys11(i); }
    else { GoodKeys12(i); }
  }

  lemma GoodKeys0(i: nat)
    requires i < 3
    ensures GoodKey(Row(i).key)
  {
  }

  lemma GoodKeys3(i: nat)
    requires 3 <= i < 6
    ensures GoodKey(Row(i).key)
  {
  }

  lemma GoodKeys6(i: nat)
    requires 6 <= i < 9
    ensures GoodKey(Row(i).key)
  {
  }

  lemma GoodKeys9(i: nat)
    requires 9 <= i < 11
    ensures GoodKey(Row(i).key)
  {
  }

  lemma GoodKeys11(i: nat)
    requires i == 11
    ensures GoodKey(Row(i).key)
  {
  }

  lemma GoodKeys12(i: nat)
    requires 12 <= i < ROWS
    ensures GoodKey(Row(i).key)
  {
  }

  /** The application's rows meet everything the general results ask of a table. */
  lemma TableIsGood(ipv4: string -> bool)
    ensures GoodTable(Rows(ipv4))
  {
    hide GoodField, RowOf, Row;
    var t := Rows(ipv4);
    forall i | 0 <= i < ROWS ensures GoodField(t.fields[i]) { GoodRow(i); }
    forall i, j | 0 <= i < j < ROWS ensures !SameName(t.fields[i], t.fields[j]) { RowKey(i); RowKey(j); }
    SupportRowsGood(ipv4);
  }

  lemma SupportRowsGood(ipv4: string -> bool)
    ensures GoodSupportRows(Rows(ipv4)) && Typed(Rows(ipv4), Defaults())
  {
    hide Typed, GoodSupportRows, Rows;
    SupportRowsKnown(ipv4);
    DefaultsTyped(ipv4);
  }

  lemma SupportRowsKnown(ipv4: string -> bool)
    ensures GoodSupportRows(Rows(ipv4))
  {
    hide Defaults;
  }

  lemma DefaultsTyped(ipv4: string -> bool)
    ensures Typed(Rows(ipv4), Defaults())
  {
    forall i | 0 <= i < ROWS ensures Fits(Row(i).kind, Defaults()[i]) { DefaultFits(i); }
  }

  lemma DefaultFits(i: nat)
    requires i < ROWS
    ensures Fits(Row(i).kind, Defaults()[i])
  {
  }

  /** An empty file leaves the defaults, which the support rule accepts. */
  lemma EmptyFileLoads(ipv4: string -> bool)
    ensures GoodSupportRows(Rows(ipv4)) && Typed(Rows(ipv4), Defaults())
    ensures LoadText(Rows(ipv4), Defaults(), "") == Success(Defaults())
  {
    hide Row, Typed, GoodSupportRows;
    SupportRowsGood(ipv4);
    assert Lines("") == [];
  }

  /** The rule on this table: the proxy is off, or it has a host, a passphrase if it signs, a name for each video stream
      with a port, and no port twice. */
  lemma RuleOnRows(ipv4: string -> bool, c: Config)
    requires Typed(Rows(ipv4), c) && GoodSupportRows(Rows(ipv4))
    ensures |c| == ROWS
    ensures SupportValid(Rows(ipv4), c) <==>
              c[0] == Flag(false)
              || (&& c[1] != Word("") && (c[3] == Flag(true) ==> c[4] != Word(""))
                  && (c[6] != Number(0) ==> c[8] != Word("")) && (c[7] != Number(0) ==> c[9] != Word(""))
                  && (c[6] != Number(0) ==> c[6] != c[7]))
  {
  }

  // ---------- the web service's rows ----------

  function Enum(key: string): Parameter
  {
    Parameter("proxy_" + key, SUPPORT, key, EnumParameter, 0, 0, ["false", "true"], true)
  }

  function Bounded(key: string, kind: ParameterKind, minimum: int, maximum: int): Parameter
  {
    Parameter("proxy_" + key, SUPPORT, key, kind, minimum, maximum, [], true)
  }

  function FormRow(i: nat): Parameter
    requires i < ROWS
  {
    match i
    case 0 => Enum("enabled")
    case 1 => Bounded("host", TextParameter, 0, 127)
    case 2 => Bounded("mavlink_port", IntegerParameter, 0, 65535)
    case 3 => Enum("signing")
    case 4 => Bounded("signing_passphrase", TextParameter, 0, 127)
    case 5 => Bounded("signing_link_id", IntegerParameter, 0, 255)
    case 6 => Bounded("video1_port", IntegerParameter, 0, 65535)
    case 7 => Bounded("video1_name", TextParameter, 0, 63)
    case 8 => Bounded("video2_port", IntegerParameter, 0, 65535)
    case 9 => Bounded("video2_name", TextParameter, 0, 63)
    case 10 => Bounded("publish_password", TextParameter, 0, 127)
    case 11 => Bounded("network_interface", TextParameter, 1, 15)
    case 12 => Bounded("network_address", TextParameter, 0, 31)
    case 13 => Bounded("network_gateway", TextParameter, 0, 15)
  }

  function FormRows(): (ps: seq<Parameter>)
    ensures |ps| == ROWS && forall i :: 0 <= i < ROWS ==> ps[i] == FormRow(i)
  {
    seq(ROWS, i requires 0 <= i < ROWS => FormRow(i))
  }

  /** Where the form's row stands in the application's table. */
  function TableRow(i: nat): (j: nat)
    ensures i < ROWS ==> j < ROWS
  {
    if i == 7 then 8 else if i == 8 then 7 else i
  }

  lemma SameKey(i: nat)
    requires i < ROWS
    ensures FormRow(i).section == SUPPORT && FormRow(i).key == Row(TableRow(i)).key
  {
  }

  lemma RowDescribes(ipv4: string -> bool, i: nat)
    requires i < ROWS
    ensures Describes(ipv4, FormRow(i), Row(TableRow(i)))
  {
    hide SetField, PlainValue;
    SameKey(i);
    SwitchTexts(ipv4, Row(TableRow(i)));
  }

  lemma SwitchTexts(ipv4: string -> bool, f: Field)
    ensures PlainValue("true") && PlainValue("false")
    ensures f.kind.BoolKind? ==> SetField(ipv4, f, "true").Some? && SetField(ipv4, f, "false").Some?
  {
  }

  /** The form's rows describe the table's rows, with the same bounds, and offer all the support rule looks at. */
  lemma FormIsGood(ipv4: string -> bool)
    ensures GoodForm(Rows(ipv4), FormRows()) && OffersSupport(FormRows())
  {
    hide Row, FormRow, GoodTable, Describes, Rows, OffersSupport, TableRow;
    assert Rows(ipv4).ipv4 == ipv4 && Rows(ipv4).fields == Fields() by { RowsParts(ipv4); }
    forall i | 0 <= i < ROWS
      ensures var j := FindField(Fields(), FormRow(i).section, FormRow(i).key);
              j < ROWS && Describes(ipv4, FormRow(i), Fields()[j])
    {
      RowFound(ipv4, i);
    }
    forall i, j | 0 <= i < j < ROWS ensures !SameSetting(FormRow(i), FormRow(j)) { RowsApart(i, j); }
    OffersAll();
  }

  lemma RowsParts(ipv4: string -> bool)
    ensures Rows(ipv4).ipv4 == ipv4 && Rows(ipv4).fields == Fields()
  {
  }

  lemma RowFound(ipv4: string -> bool, i: nat)
    requires i < ROWS
    ensures var j := FindField(Fields(), FormRow(i).section, FormRow(i).key);
            j < ROWS && Describes(ipv4, FormRow(i), Fields()[j])
  {
    hide Row, FormRow, GoodTable, Describes, RowOf, Rows, FindField;
    TableIsGood(ipv4);
    RowsParts(ipv4);
    SameKey(i);
    GoodRow(TableRow(i));
    OwnRow(Rows(ipv4), TableRow(i));
    RowDescribes(ipv4, i);
  }

  lemma RowsApart(i: nat, j: nat)
    requires i < j < ROWS
    ensures !SameSetting(FormRow(i), FormRow(j))
  {
    hide Row, FormRow, RowOf;
    SameKey(i);
    SameKey(j);
    RowKey(TableRow(i));
    RowKey(TableRow(j));
  }

  lemma OffersAll()
    ensures OffersSupport(FormRows())
  {
    var ps := FormRows();
    assert ps[0] == FormRow(0) && ps[1] == FormRow(1) && ps[3] == FormRow(3) && ps[4] == FormRow(4);
    assert ps[6] == FormRow(6) && ps[7] == FormRow(7) && ps[8] == FormRow(8) && ps[9] == FormRow(9);
  }

  /** For the support proxy's rows of both programs, as the settings page saves them: every accepted form over a text
      that loads with these rows is installed unless the old or the new text is too large or an old assignment has an
      empty key, and loads with exactly the submitted values if and only if every changed value fits its line. */
  lemma {:induction false} SupportFormLoads(ipv4: string -> bool, c: Config, form: Form, config: string)
    requires Typed(Rows(ipv4), c) && GoodSupportRows(Rows(ipv4)) && LoadText(Rows(ipv4), c, config).Success?
    requires Collect(ipv4, FormRows(), form).Updates?
    ensures var t, ups := Rows(ipv4), Collect(ipv4, FormRows(), form).ups;
            var installed := InstalledText(config, ups, true);
            && (installed.Some? <==>
                  && |config| <= MAX_CONFIG && |Flatten(EditedLines(Lines(config), ups))| <= MAX_CONFIG
                  && KeysNamed(Lines(config)))
            && (installed.Some? ==>
                  var loaded := LoadText(t, c, installed.value);
                  && (loaded.Success? <==> RewritesFit(Lines(config), "", ups))
                  && (loaded.Success? ==> SlotsHold(form, loaded.value)))
  {
    hide GoodTable, GoodForm, OffersSupport, LoadText, CollectDescribed, SupportAccepted, InstalledText, AllTaken,
         HoldsSubmitted, SlotsHold, KeysNamed, GoodSupportRows, RewritesFit, EditedLines, Missing, Lines;
    TableIsGood(ipv4);
    FormIsGood(ipv4);
    FormThenLoad(Rows(ipv4), c, FormRows(), form, config, true);
    SomethingSubmitted(Rows(ipv4), FormRows(), form);
    var ups := Collect(ipv4, FormRows(), form).ups;
    var installed := InstalledText(config, ups, true);
    if installed.Some? {
      var loaded := LoadText(Rows(ipv4), c, installed.value);
      if loaded.Success? { EverySlot(ipv4, form, LoadText(Rows(ipv4), c, config).value, loaded.value); }
    }
  }

  /** Every slot of the structure holds what was submitted for it: a text setting the text itself, a number the number
      its text denotes, a switch whether its text is "true". */
  ghost predicate SlotsHold(form: Form, after: Config)
  {
    |after| == ROWS &&
    forall i :: 0 <= i < ROWS ==>
      form(FormRow(i).formName).Some? && SlotHolds(FormRow(i).kind, form(FormRow(i).formName).value, after[TableRow(i)])
  }

  ghost predicate SlotHolds(kind: ParameterKind, text: string, v: Value)
  {
    match kind
    case TextParameter => v == Word(text)
    case IntegerParameter => v.Number? && Denotes(text, v.n)
    case EnumParameter => (text == "true" && v == Flag(true)) || (text == "false" && v == Flag(false))
  }

  lemma {:induction false} EverySlot(ipv4: string -> bool, form: Form, before: Config, after: Config)
    requires |before| == ROWS == |after| && GoodForm(Rows(ipv4), FormRows()) && AllTaken(Rows(ipv4), FormRows(), form)
    requires HoldsSubmitted(Rows(ipv4), FormRows(), form, before, after)
    ensures SlotsHold(form, after)
  {
    hide Row, FormRow, Describes, RowTakes, Submitted, Means, TableRow, SlotHolds, FindField;
    forall i | 0 <= i < ROWS
      ensures form(FormRow(i).formName).Some?
      ensures SlotHolds(FormRow(i).kind, form(FormRow(i).formName).value, after[TableRow(i)])
    {
      RowShown(i);
      RowPlace(ipv4, i);
      assert FormRows()[i] == FormRow(i);
      SlotMeans(ipv4, i, form(FormRow(i).formName).value, after[TableRow(i)]);
    }
  }

  lemma RowShown(i: nat)
    requires i < ROWS
    ensures FormRow(i).shown
  {
  }

  lemma RowPlace(ipv4: string -> bool, i: nat)
    requires i < ROWS
    ensures FindField(Rows(ipv4).fields, FormRow(i).section, FormRow(i).key) == TableRow(i) < ROWS
    ensures Rows(ipv4).fields[TableRow(i)] == Row(TableRow(i))
  {
    hide Row, FormRow, RowOf, FindField, GoodTable, GoodField;
    TableIsGood(ipv4);
    SameKey(i);
    GoodRow(TableRow(i));
    OwnRow(Rows(ipv4), TableRow(i));
  }

  lemma SlotMeans(ipv4: string -> bool, i: nat, text: string, v: Value)
    requires i < ROWS && Submitted(ipv4, FormRow(i), Row(TableRow(i)), text, v)
    ensures SlotHolds(FormRow(i).kind, text, v)
  {
    hide Denotes;
  }

  /** A text the application accepts and no form can be saved over: its only line has no key. */
  lemma EmptyKeyRefused(ipv4: string -> bool, form: Form)
    requires Collect(ipv4, FormRows(), form).Updates?
    ensures GoodSupportRows(Rows(ipv4)) && Typed(Rows(ipv4), Defaults())
    ensures LoadText(Rows(ipv4), Defaults(), "=1\n") == Success(Defaults())
    ensures InstalledText("=1\n", Collect(ipv4, FormRows(), form).ups, true) == None
  {
    hide Row, Typed, GoodSupportRows, SupportValid, Collect, InstalledText, RewritesFit, Updated, FindField, Classify;
    SupportRowsGood(ipv4);
    Rules(ipv4);
    EmptyKeyLine();
    OneLine("=1\n");
    var i := FindField(Fields(), "", "");
    if i < ROWS { GoodRow(i); }
    assert ["=1\n"][1..] == [];
    SupportFormLoads(ipv4, Defaults(), form, "=1\n");
    assert "=1\n" in Lines("=1\n");
  }

  lemma OneLine(line: string)
    requires IsLine(line)
    ensures Lines(line) == [line]
  {
    hide IsLine;
    WholeLine(line);
    assert line[|line|..] == "" && line[..|line|] == line;
  }

  lemma EmptyKeyLine()
    ensures Classify("=1\n") == Entry("", "1") && IsLine("=1\n") && FitsBuffer("=1\n")
  {
    hide Classify, Trim;
    assert "" + "=" + "1\n" == "=1\n" && [] + "1" + "\n" == "1\n";
    TrimBare("");
    TrimBare("1");
    TrimPad([], "1", "\n");
    ClassifyAssignment("", "1\n");
  }

  /** A text the settings page spoils: the host, alone on a line that fills the loader's buffer, is replaced. */
  lemma HostSpoiled(ipv4: string -> bool) returns (config: string, u: Update)
    ensures GoodSupportRows(Rows(ipv4)) && Typed(Rows(ipv4), Defaults())
    ensures u == Update(SUPPORT, "host", "b") && LoadText(Rows(ipv4), Defaults(), config).Success?
    ensures var installed := InstalledText(config, [u], true);
            installed.Some? && LoadText(Rows(ipv4), Defaults(), installed.value) == Failure(LineTooLong(2))
  {
    hide Row, LoadText, SetField, SupportValid, PlainValue, GoodSupportRows, InstalledText, PaddedText, GoodUpdate,
         FindField;
    Plain();
    HostSettings(ipv4);
    Rules(ipv4);
    SupportRowsGood(ipv4);
    TableIsGood(ipv4);
    SettingTyped(ipv4, Defaults(), HOST, Word("h"));
    u := Update(SUPPORT, "host", "b");
    OwnRow(Rows(ipv4), HOST);
    GoodRow(HOST);
    EditSpoils(Rows(ipv4), Defaults(), HOST, "h", u, true);
    config := PaddedText(Row(HOST), "h");
  }

  lemma HostSettings(ipv4: string -> bool)
    ensures SetField(ipv4, Row(HOST), "h") == Some(Word("h")) && SetField(ipv4, Row(HOST), "b").Some?
    ensures Row(HOST).section == SUPPORT && Row(HOST).key == "host" && Row(HOST).kind == StringKind
    ensures GoodUpdate(Update(SUPPORT, "host", "b"))
  {
    hide SetField, GoodUpdate;
    HostTakes(ipv4);
    HostUpdate();
  }

  lemma HostTakes(ipv4: string -> bool)
    ensures SetField(ipv4, Row(HOST), "h") == Some(Word("h")) && SetField(ipv4, Row(HOST), "b").Some?
  {
    hide Strtol, Strtoul;
  }

  lemma HostUpdate()
    ensures GoodUpdate(Update(SUPPORT, "host", "b"))
  {
  }

  // ---------- a rule broken between two writers ----------

  const VIDEO_PORT := 6
  const VIDEO_NAME := 8

  /** The proxy is on, with a host, and its first video stream has no name because it is off. */
  function ProxyOn(): Config { Defaults()[HOST := Word("h")][VIDEO_NAME := Word("")][0 := Flag(true)] }

  lemma Plain()
    ensures PlainValue("h") && PlainValue("") && PlainValue("true") && PlainValue("5")
  {
  }

  lemma SomeSettings(ipv4: string -> bool)
    ensures SetField(ipv4, Row(HOST), "h") == Some(Word("h")) && SetField(ipv4, Row(VIDEO_NAME), "") == Some(Word(""))
    ensures SetField(ipv4, Row(0), "true") == Some(Flag(true))
  {
    hide Strtol, Strtoul;
  }

  lemma PortFive(ipv4: string -> bool)
    ensures SetField(ipv4, Row(VIDEO_PORT), "5") == Some(Number(5))
  {
    assert PrintInt(5) == "5";
    PrintedReadsBack(5);
    hide Strtoul, Strtol, ReadNumeral;
  }

  lemma Rules(ipv4: string -> bool)
    ensures GoodSupportRows(Rows(ipv4))
    ensures forall c :: Typed(Rows(ipv4), c) && c[0] == Flag(false) ==> SupportValid(Rows(ipv4), c)
    ensures Typed(Rows(ipv4), ProxyOn()) && SupportValid(Rows(ipv4), ProxyOn())
    ensures var c := ProxyOn()[VIDEO_PORT := Number(5)]; Typed(Rows(ipv4), c) && !SupportValid(Rows(ipv4), c)
  {
    hide Row;
    SupportRowsGood(ipv4);
    ProxyTyped(ipv4);
  }

  lemma ProxyTyped(ipv4: string -> bool)
    ensures Typed(Rows(ipv4), ProxyOn()) && Typed(Rows(ipv4), ProxyOn()[VIDEO_PORT := Number(5)])
  {
    DefaultsTyped(ipv4);
    assert Row(0).kind == BoolKind && Row(HOST).kind == StringKind && Row(VIDEO_PORT).kind == UintKind
           && Row(VIDEO_NAME).kind == StringKind;
    hide Row;
  }

  /** What the settings page is asked to set. */
  function Switched(): seq<Update>
  {
    [Update(SUPPORT, "enabled", "true"), Update(SUPPORT, "host", "h"), Update(SUPPORT, "video1_name", "")]
  }

  lemma {:induction false} OneSection(ms: seq<Update>, s: string)
    requires forall u :: u in ms ==> u.section == s
    ensures InSection(ms, s) == ms && OutsideSection(ms, s) == []
  {
    if ms != [] { OneSection(ms[1..], s); }
  }

  /** Over an empty file it writes one short block. */
  lemma SwitchedFits()
    ensures |Flatten(EditedLines([], Switched()))| <= MAX_CONFIG
  {
    hide AddedLine, SectionLine, MissingFrom;
    var ms := Switched();
    OneSection(ms, SUPPORT);
    AllMissing(ms, 0);
    assert ms[0..] == ms;
    NothingEdited(ms);
    var added := [AddedLine(ms[0]), AddedLine(ms[1]), AddedLine(ms[2])];
    assert ms[1..] == [ms[1], ms[2]] && ms[1..][1..] == [ms[2]] && ms[1..][1..][1..] == [];
    assert AddedLines(ms) == added;
    assert Blocks([]) == [] && ["\n", SectionLine(SUPPORT)] + added + [] == ["\n"] + ([SectionLine(SUPPORT)] + added);
    FlattenCons(SectionLine(SUPPORT), added);
    FlattenFour(added);
    AddedShort();
  }

  lemma FlattenFour(ls: seq<string>)
    requires |ls| == 3
    ensures |Flatten(ls)| == |ls[0]| + |ls[1]| + |ls[2]|
  {
    hide Flatten;
    assert ls == [ls[0]] + [ls[1], ls[2]] && [ls[1], ls[2]] == [ls[1]] + [ls[2]] && [ls[2]] == [ls[2]] + [];
    FlattenCons(ls[0], [ls[1], ls[2]]);
    FlattenCons(ls[1], [ls[2]]);
    FlattenCons(ls[2], []);
    assert Flatten([]) == "" by { NothingFlat(); }
  }

  lemma NothingFlat()
    ensures Flatten([]) == ""
  {
  }

  lemma AddedShort()
    ensures |SectionLine(SUPPORT)| < 100 && forall i :: 0 <= i < 3 ==> |AddedLine(Switched()[i])| < 100
  {
  }

  lemma SwitchedGood(ipv4: string -> bool)
    ensures GoodUpdates(Switched()) && Settable(Rows(ipv4), Switched())
  {
    hide Row, SetField, FindField, GoodField, GoodUpdate, RowOf, DistinctNames;
    SwitchTexts(ipv4, Row(0));
    SomeSettings(ipv4);
    SwitchedRows();
    TableIsGood(ipv4);
    OwnRow(Rows(ipv4), 0);
    OwnRow(Rows(ipv4), HOST);
    OwnRow(Rows(ipv4), VIDEO_NAME);
    GoodRow(0);
    GoodRow(HOST);
    GoodRow(VIDEO_NAME);
    var ups := Switched();
    assert Settable(Rows(ipv4), ups);
    forall i | 0 <= i < 3 ensures GoodUpdate(ups[i]) {
      assert Quotable(ups[i].section, ups[i].value);
      LoadableNames(Rows(ipv4), ups, i);
    }
    SwitchedDistinct();
  }

  lemma SwitchedDistinct()
    ensures DistinctNames(Switched())
  {
    hide Row, RowOf;
    SwitchedRows();
    RowKey(0);
    RowKey(HOST);
    RowKey(VIDEO_NAME);
  }

  lemma SwitchedRows()
    ensures Row(0).key == "enabled" && Row(HOST).key == "host" && Row(VIDEO_NAME).key == "video1_name"
    ensures Row(0).kind == BoolKind && Row(HOST).kind == StringKind && Row(VIDEO_NAME).kind == StringKind
  {
  }

  lemma SwitchedValues(ipv4: string -> bool)
    ensures Typed(Rows(ipv4), Defaults()) && Updated(Rows(ipv4), Defaults(), Switched()) == ProxyOn()
  {
    hide Row, SetField, FindUpdate, Updated, Defaults;
    var t, ups := Rows(ipv4), Switched();
    DefaultsTyped(ipv4);
    SwitchedGood(ipv4);
    SwitchedRows();
    SomeSettings(ipv4);
    TableIsGood(ipv4);
    var updated := Updated(t, Defaults(), ups);
    forall j | 0 <= j < ROWS ensures updated[j] == ProxyOn()[j] {
      UpdatedAt(t, Defaults(), ups, j);
      SwitchedAt(j);
    }
  }

  lemma SwitchedAt(j: nat)
    requires j < ROWS
    ensures FindUpdate(Switched(), Row(j).section, Row(j).key)
         == if j == 0 then 0 else if j == HOST then 1 else if j == VIDEO_NAME then 2 else 3
  {
    hide Row, RowOf, FindUpdate;
    SwitchedRows();
    GoodRow(j);
    RowKey(j);
    RowKey(0);
    RowKey(HOST);
    RowKey(VIDEO_NAME);
    var i := FindUpdate(Switched(), SUPPORT, Row(j).key);
    assert j == 0 ==> Named(Switched()[0], SUPPORT, Row(j).key);
    assert j == HOST ==> Named(Switched()[1], SUPPORT, Row(j).key);
    assert j == VIDEO_NAME ==> Named(Switched()[2], SUPPORT, Row(j).key);
  }

  /** Over an empty file the settings page installs a text that turns the proxy on. */
  lemma PageTurnsOn(ipv4: string -> bool) returns (web: string)
    ensures GoodSupportRows(Rows(ipv4)) && Typed(Rows(ipv4), Defaults()) && ValidIni(web)
    ensures InstalledText("", Switched(), true) == Some(web)
    ensures LoadText(Rows(ipv4), Defaults(), web) == Success(ProxyOn())
  {
    hide Row, LoadText, SetField, SupportValid, GoodSupportRows, Applied, Updated, ValidIni, EditedLines, Settable,
         GoodUpdates, ProxyOn, Defaults;
    Rules(ipv4);
    EmptyFileLoads(ipv4);
    TableIsGood(ipv4);
    SwitchedGood(ipv4);
    SwitchedFits();
    SwitchedValues(ipv4);
    assert Lines("") == [];
    InstallThenLoad(Rows(ipv4), Defaults(), "", Switched(), true);
    web := InstalledText("", Switched(), true).value;
  }

  /** Over an empty file the application may set the first video port, and the settings page may turn the proxy on with
      that stream unnamed. The application checks its change against the empty file; if the page's text is installed
      before the application's editor opens the path, the text the editor leaves does not load. */
  lemma RuleBreaks(ipv4: string -> bool) returns (web: string, run: seq<P.Turn>)
    ensures GoodSupportRows(Rows(ipv4)) && Typed(Rows(ipv4), Defaults())
    ensures LoadText(Rows(ipv4), Defaults(), S.SavedText(Some(""), Row(VIDEO_PORT), "5")).Success?
    ensures InstalledText("", Switched(), true) == Some(web)
    ensures LoadText(Rows(ipv4), Defaults(), web) == Success(ProxyOn())
    ensures var s := P.Exec([P.WebJob(web), P.AppJob(Row(VIDEO_PORT), "5")], P.Initial(Some(""), None), run);
            && P.Config in s.names && s.history != []
            && LoadText(Rows(ipv4), Defaults(), s.history[|s.history| - 1].text) == Failure(UnusableSupport)
  {
    hide Row, LoadText, SetField, SupportValid, PlainValue, GoodSupportRows, S.SavedText, P.Exec, ValidIni,
         InstalledText;
    Plain();
    PortFive(ipv4);
    Rules(ipv4);
    EmptyFileLoads(ipv4);
    SettingTyped(ipv4, Defaults(), VIDEO_PORT, Number(5));
    web := PageTurnsOn(ipv4);
    TableIsGood(ipv4);
    run := P.RuleBroken(Rows(ipv4), VIDEO_PORT, "5", "", web);
  }

  lemma SettingTyped(ipv4: string -> bool, c: Config, i: nat, value: Value)
    requires i < ROWS && Typed(Rows(ipv4), c) && Fits(Row(i).kind, value)
    ensures Typed(Rows(ipv4), c[i := value])
  {
    hide Row;
  }
}
