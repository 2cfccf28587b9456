/** The camera application's configuration: its field table, the strict loader
    and the editor that rewrites one key. */
module AppConfig {
  import opened Ini
  import opened Decimal

  datatype Result<+T, +E> = Success(value: T) | Failure(error: E)

  // ---------- the field table ----------

  datatype Kind = TimezoneKind | StringKind | EnumKind | IntKind | BoolKind | UintKind

  datatype Choice = Choice(name: string, value: int)

  /** One row of the table. `param` is the MAVLink parameter name of a numeric field. */
  datatype Field = Field(section: string, key: string, kind: Kind, size: nat,
                         options: seq<Choice>, minimum: int, maximum: int, param: Option<string>)

  datatype Value = Number(n: int) | Flag(b: bool) | Word(text: string)

  /** The configuration structure: one slot per row of the table. */
  type Config = seq<Value>

  /** Rows the cross-field rule of the support proxy looks at. */
  datatype SupportRows = SupportRows(enabled: nat, host: nat, signing: nat, passphrase: nat,
                                     port1: nat, name1: nat, port2: nat, name2: nat)

  /** `ipv4` stands for inet_pton(AF_INET, ..) == 1. */
  datatype Table = Table(fields: seq<Field>, support: SupportRows, ipv4: string -> bool, defaults: Config)

  /** Longest assignment line the loader's 512-byte buffer takes, without its newline. */
  const LINE_MAX := 510

  /** Room the editor leaves for values: the web service stores them in 160 bytes. */
  const VALUE_MAX := 159

  predicate GoodKey(key: string)
  {
    key != [] && Bare(key) && KeyText(key) && '=' !in key && '\n' !in key && |key| < 48
  }

  predicate GoodSection(section: string)
  {
    section != [] && Bare(section) && ']' !in section && '\n' !in section && |section| < 64
  }

  /** A value that survives being written without quotes. */
  predicate PlainValue(v: string)
  {
    Bare(v) && '\n' !in v && |v| <= VALUE_MAX && QUOTE !in v
  }

  const INT_MAX := 0x7fff_ffff

  predicate GoodField(f: Field)
  {
    && GoodKey(f.key) && GoodSection(f.section)
    && (forall i :: 0 <= i < |f.options| ==> PlainValue(f.options[i].name))
    && (forall i, j :: 0 <= i < j < |f.options| ==> f.options[i].name != f.options[j].name)
    && f.maximum <= INT_MAX
    && (f.kind.UintKind? ==> f.minimum >= 0)
    && (f.param.Some? ==> !f.kind.TimezoneKind? && !f.kind.StringKind?)
  }

  predicate HasKind(t: Table, i: nat, key: string, kind: Kind)
  {
    i < |t.fields| && t.fields[i].section == SUPPORT && t.fields[i].key == key && t.fields[i].kind == kind
  }

  predicate GoodSupportRows(t: Table)
  {
    var s := t.support;
    && HasKind(t, s.enabled, "enabled", BoolKind) && HasKind(t, s.host, "host", StringKind)
    && HasKind(t, s.signing, "signing", BoolKind)
    && HasKind(t, s.passphrase, "signing_passphrase", StringKind)
    && HasKind(t, s.port1, "video1_port", UintKind) && HasKind(t, s.name1, "video1_name", StringKind)
    && HasKind(t, s.port2, "video2_port", UintKind) && HasKind(t, s.name2, "video2_name", StringKind)
  }

  predicate SameName(f: Field, g: Field) { f.section == g.section && f.key == g.key }

  ghost predicate GoodTable(t: Table)
  {
    && (forall i :: 0 <= i < |t.fields| ==> GoodField(t.fields[i]))
    && (forall i, j :: 0 <= i < j < |t.fields| ==> !SameName(t.fields[i], t.fields[j]))
    && GoodSupportRows(t)
    && Typed(t, t.defaults)
  }

  predicate Fits(kind: Kind, v: Value)
  {
    match kind
    case BoolKind => v.Flag?
    case StringKind => v.Word?
    case TimezoneKind => v.Word?
    case _ => v.Number?
  }

  predicate Typed(t: Table, c: Config)
  {
    |c| == |t.fields| && forall i :: 0 <= i < |c| ==> Fits(t.fields[i].kind, c[i])
  }

  // ---------- set_field and support_valid ----------

  predicate IsControl(c: char) { c < ' ' || c == 127 as char }

  predicate IsAlnum(c: char) { '0' <= c <= '9' || 'A' <= c <= 'Z' || 'a' <= c <= 'z' }

  predicate Printable(c: char) { ' ' <= c <= '~' && c != QUOTE }

  predicate HostChar(c: char) { IsAlnum(c) || c == '.' || c == '-' || c == '_' }

  /** "a.b.c.d/prefix" */
  predicate NetworkAddress(ipv4: string -> bool, v: string)
  {
    var slash := Find(v, '/');
    slash < |v| && ipv4(v[..slash]) &&
    var prefix := Strtol(v[slash + 1..]);
    prefix.Some? && 1 <= prefix.value <= 32
  }

  predicate StringAccepted(ipv4: string -> bool, key: string, v: string)
  {
    && (forall i :: 0 <= i < |v| ==> Printable(v[i]))
    && (key == "host" || key == "network_interface" ==> forall i :: 0 <= i < |v| ==> HostChar(v[i]))
    && (key == "network_gateway" && v != [] ==> ipv4(v))
    && (key == "network_address" && v != [] ==> NetworkAddress(ipv4, v))
  }

  const TIMEZONE_MAX := 128

  predicate TimezoneAccepted(v: string)
  {
    0 < |v| < TIMEZONE_MAX && forall i :: 0 <= i < |v| ==> !IsControl(v[i]) && !IsSpace(v[i])
  }

  function ChooseByName(options: seq<Choice>, v: string): (r: Option<Value>)
    ensures r.Some? ==> r.value.Number?
  {
    if options == [] then None
    else if options[0].name == v then Some(Number(options[0].value))
    else ChooseByName(options[1..], v)
  }

  function InRange(f: Field, n: Option<int>): Option<Value>
  {
    if n.Some? && f.minimum <= n.value <= f.maximum then Some(Number(n.value)) else None
  }

  /** set_field(): the value a text gives a field, or None when it is refused. */
  function SetField(ipv4: string -> bool, f: Field, v: string): (r: Option<Value>)
    ensures r.Some? ==> Fits(f.kind, r.value)
  {
    match f.kind
    case StringKind =>
      if |v| < f.size && f.minimum <= |v| && StringAccepted(ipv4, f.key, v) then Some(Word(v)) else None
    case TimezoneKind =>
      if TimezoneAccepted(v) && |v| < f.size then Some(Word(v)) else None
    case EnumKind => ChooseByName(f.options, v)
    case IntKind => InRange(f, Strtol(v))
    case BoolKind => if v == "true" then Some(Flag(true)) else if v == "false" then Some(Flag(false)) else None
    case UintKind => InRange(f, Strtoul(v))
  }

  predicate SupportValid(t: Table, c: Config)
    requires GoodSupportRows(t) && Typed(t, c)
  {
    var s := t.support;
    !c[s.enabled].b ||
    (c[s.host].text != [] && (!c[s.signing].b || c[s.passphrase].text != []) &&
     (c[s.port1].n == 0 || c[s.name1].text != []) &&
     (c[s.port2].n == 0 || c[s.name2].text != []) &&
     (c[s.port1].n == 0 || c[s.port1].n != c[s.port2].n))
  }

  // ---------- ca_config_load ----------

  datatype LoadError =
    | LineTooLong(line: nat)
    | InvalidSection(line: nat)
    | InvalidSectionName(line: nat)
    | NotKeyValue(line: nat)
    | InvalidOrDuplicate(line: nat, key: string)
    | UnusableSupport

  /** fgets() with a 512-byte buffer reads the whole line: at most 511 characters with
      the newline, and without one only if the end of the file was met. */
  predicate FitsBuffer(line: string) { |Body(line)| <= LINE_MAX }

  /** First row with this section and key, or the number of rows. */
  function FindField(fields: seq<Field>, section: string, key: string): (i: nat)
    ensures i <= |fields|
    ensures i < |fields| ==> fields[i].section == section && fields[i].key == key
    ensures forall j :: 0 <= j < i ==> !(fields[j].section == section && fields[j].key == key)
  {
    if fields == [] then 0
    else if fields[0].section == section && fields[0].key == key then 0
    else
      var i := 1 + FindField(fields[1..], section, key);
      assert forall j :: 1 <= j < i ==> fields[j] == fields[1..][j - 1];
      i
  }

  /** What the loader has read so far. */
  datatype LoadState = LoadState(section: string, seen: seq<bool>, parsed: Config)

  predicate GoodState(t: Table, st: LoadState) { |st.seen| == |t.fields| && Typed(t, st.parsed) }

  /** One line of the loader. */
  function LoadLine(t: Table, st: LoadState, n: nat, line: string): (r: Result<LoadState, LoadError>)
    requires GoodState(t, st)
    ensures r.Success? ==> GoodState(t, r.value)
  {
    if !FitsBuffer(line) then Failure(LineTooLong(n)) else
    match Classify(line)
    case Skip => Success(st)
    case OpenHeader => Failure(InvalidSection(n))
    case Header(name, tail) =>
      if tail != [] then Failure(InvalidSection(n))
      else if name == [] || |name| >= 64 then Failure(InvalidSectionName(n))
      else Success(st.(section := name))
    case Junk => Failure(NotKeyValue(n))
    case Entry(key, raw) =>
      var i := FindField(t.fields, st.section, key);
      if i == |t.fields| then Success(st) else
      var v := SetField(t.ipv4, t.fields[i], Unquote(st.section, raw));
      if st.seen[i] || v.None? then Failure(InvalidOrDuplicate(n, key))
      else Success(st.(seen := st.seen[i := true], parsed := st.parsed[i := v.value]))
  }

  function LoadLines(t: Table, st: LoadState, n: nat, ls: seq<string>): (r: Result<LoadState, LoadError>)
    requires GoodState(t, st)
    ensures r.Success? ==> GoodState(t, r.value)
    decreases |ls|
  {
    if ls == [] then Success(st)
    else
      match LoadLine(t, st, n, ls[0])
      case Failure(e) => Failure(e)
      case Success(next) => LoadLines(t, next, n + 1, ls[1..])
  }

  function StartState(t: Table, c: Config): LoadState
  {
    LoadState("", seq(|t.fields|, i => false), c)
  }

  /** ca_config_load() on a text: the new configuration, or why it is refused. */
  function LoadText(t: Table, c: Config, text: string): (r: Result<Config, LoadError>)
    requires GoodSupportRows(t) && Typed(t, c)
    ensures r.Success? ==> Typed(t, r.value)
  {
    match LoadLines(t, StartState(t, c), 1, Lines(text))
    case Failure(e) => Failure(e)
    case Success(st) => if SupportValid(t, st.parsed) then Success(st.parsed) else Failure(UnusableSupport)
  }

  // ---------- what loading means ----------

  /** A line the loader takes whatever its keys mean. */
  predicate Strict(line: string)
  {
    && FitsBuffer(line)
    && match Classify(line)
       case Header(name, tail) => tail == [] && 0 < |name| < 64
       case OpenHeader => false
       case Junk => false
       case _ => true
  }

  predicate AllStrict(ls: seq<string>) { forall l :: l in ls ==> Strict(l) }

  /** The raw values of one field in these lines. */
  function FieldValues(ls: seq<string>, section: string, f: Field): seq<string>
  {
    Values(Editor, ls, Some(section), f.section, f.key)
  }

  /** The texts the loader hands to set_field() for this field, in order. */
  function Handed(ls: seq<string>, section: string, f: Field): seq<string>
  {
    UnquoteAll(f.section, FieldValues(ls, section, f))
  }

  /** Field i is assigned at most once, and acceptably. */
  predicate FieldAccepted(t: Table, st: LoadState, ls: seq<string>, i: nat)
    requires i < |t.fields| && GoodState(t, st)
  {
    var h := Handed(ls, st.section, t.fields[i]);
    h == [] || (|h| == 1 && !st.seen[i] && SetField(t.ipv4, t.fields[i], h[0]).Some?)
  }

  /** The value of field i after reading these lines. */
  function Loaded(t: Table, st: LoadState, ls: seq<string>, i: nat): Value
    requires i < |t.fields| && GoodState(t, st) && FieldAccepted(t, st, ls, i)
  {
    var h := Handed(ls, st.section, t.fields[i]);
    if h == [] then st.parsed[i] else SetField(t.ipv4, t.fields[i], h[0]).value
  }

  ghost predicate Acceptable(t: Table, st: LoadState, ls: seq<string>)
    requires GoodState(t, st)
  {
    AllStrict(ls) && forall i :: 0 <= i < |t.fields| ==> FieldAccepted(t, st, ls, i)
  }

  /** One step of the loader, seen from field i. */
  lemma LoadLineField(t: Table, st: LoadState, n: nat, ls: seq<string>, i: nat)
    requires GoodTable(t) && GoodState(t, st) && ls != [] && i < |t.fields|
    requires LoadLine(t, st, n, ls[0]).Success?
    ensures var next := LoadLine(t, st, n, ls[0]).value;
            && FieldAccepted(t, st, ls, i) == FieldAccepted(t, next, ls[1..], i)
            && (FieldAccepted(t, st, ls, i) ==> Loaded(t, st, ls, i) == Loaded(t, next, ls[1..], i))
  {
    hide Classify, Unquote, SetField, FitsBuffer, GoodTable, Values, UnquoteAll;
    var f := t.fields[i];
    var next := LoadLine(t, st, n, ls[0]).value;
    var item := Classify(ls[0]);
    var vs := FieldValues(ls[1..], next.section, f);
    assert NextSection(Editor, Some(st.section), item) == Some(next.section);
    assert ls == [ls[0]] + ls[1..];
    ValuesCons(Editor, ls[0], ls[1..], Some(st.section), f.section, f.key);
    UnquoteNone(f.section);
    if Assigns(ls[0], Some(st.section), f.section, f.key) {
      OwnRow(t, i);
      UnquoteCons(f.section, item.value, vs);
    } else {
      assert [] + vs == vs;
    }
  }

  /** A row is found under its own name. */
  lemma OwnRow(t: Table, i: nat)
    requires GoodTable(t) && i < |t.fields|
    ensures FindField(t.fields, t.fields[i].section, t.fields[i].key) == i
  {
    var j := FindField(t.fields, t.fields[i].section, t.fields[i].key);
    assert j <= i && SameName(t.fields[j], t.fields[i]);
  }

  /** A line the loader refuses makes the whole text unacceptable. */
  lemma RefusedLine(t: Table, st: LoadState, n: nat, ls: seq<string>)
    requires GoodTable(t) && GoodState(t, st) && ls != []
    requires LoadLine(t, st, n, ls[0]).Failure?
    ensures !Acceptable(t, st, ls)
  {
    hide Classify, Unquote, SetField, FitsBuffer, GoodState, GoodTable, FieldAccepted;
    assert ls[0] in ls;
    if Strict(ls[0]) {
      RefusedEntry(t, st, n, ls);
      assert !FieldAccepted(t, st, ls, FindField(t.fields, st.section, Classify(ls[0]).key));
    }
  }

  lemma RefusedEntry(t: Table, st: LoadState, n: nat, ls: seq<string>)
    requires GoodState(t, st) && ls != [] && Strict(ls[0]) && LoadLine(t, st, n, ls[0]).Failure?
    ensures Classify(ls[0]).Entry?
    ensures var i := FindField(t.fields, st.section, Classify(ls[0]).key);
            i < |t.fields| && !FieldAccepted(t, st, ls, i)
  {
    hide Classify, Unquote, SetField, FitsBuffer, GoodState;
    var item := Classify(ls[0]);
    var f := t.fields[FindField(t.fields, st.section, item.key)];
    assert Assigns(ls[0], Some(st.section), f.section, f.key);
    assert Handed(ls, st.section, f)[0] == Unquote(f.section, item.value);
  }

  /** The loader succeeds exactly on acceptable lines, and then holds exactly the loaded values. */
  lemma {:induction false} LoadMeaning(t: Table, st: LoadState, n: nat, ls: seq<string>)
    requires GoodTable(t) && GoodState(t, st)
    ensures LoadLines(t, st, n, ls).Success? <==> Acceptable(t, st, ls)
    ensures LoadLines(t, st, n, ls).Success? ==>
              forall i :: 0 <= i < |t.fields| ==> LoadLines(t, st, n, ls).value.parsed[i] == Loaded(t, st, ls, i)
    decreases |ls|
  {
    hide Classify, Unquote, SetField, FitsBuffer, Strict, GoodTable;
    if ls == [] {
      assert forall i :: 0 <= i < |t.fields| ==> Handed(ls, st.section, t.fields[i]) == [];
    } else if LoadLine(t, st, n, ls[0]).Failure? {
      RefusedLine(t, st, n, ls);
    } else {
      var next := LoadLine(t, st, n, ls[0]).value;
      LoadMeaning(t, next, n + 1, ls[1..]);
      AcceptedLine(t, st, n, ls[0]);
      forall i | 0 <= i < |t.fields|
        ensures FieldAccepted(t, st, ls, i) == FieldAccepted(t, next, ls[1..], i)
        ensures FieldAccepted(t, st, ls, i) ==> Loaded(t, st, ls, i) == Loaded(t, next, ls[1..], i)
      {
        LoadLineField(t, st, n, ls, i);
      }
      assert AllStrict(ls) == AllStrict(ls[1..]) by { assert ls == [ls[0]] + ls[1..]; }
    }
  }

  lemma AcceptedLine(t: Table, st: LoadState, n: nat, line: string)
    requires GoodState(t, st) && LoadLine(t, st, n, line).Success?
    ensures Strict(line)
  {
    hide Classify, Unquote, SetField, FitsBuffer;
  }
}
