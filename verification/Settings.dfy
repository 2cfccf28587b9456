/** What the texts of the configuration mean for its fields, told without set_field(). */
module Settings {
  import opened Ini
  import opened Decimal
  import opened AppConfig

  /** The text of a string field: any printable ASCII but the quote. */
  predicate PrintableText(v: string) { forall c :: c in v ==> 32 <= c as int <= 126 && c as int != 34 }

  /** Digits, letters, '-', '.' and '_' as ASCII numbers them. */
  predicate HostText(v: string)
  {
    forall c :: c in v ==> var n := c as int; 48 <= n <= 57 || 65 <= n <= 90 || 97 <= n <= 122 || n in {45, 46, 95}
  }

  /** "a.b.c.d/prefix" with a prefix from 1 to 32. */
  ghost predicate AddressText(ipv4: string -> bool, v: string)
  {
    exists address, prefix, n :: AddressParts(ipv4, v, address, prefix, n)
  }

  ghost predicate AddressParts(ipv4: string -> bool, v: string, address: string, prefix: string, n: int)
  {
    v == address + "/" + prefix && '/' !in address && ipv4(address) && Denotes(prefix, n) && 1 <= n <= 32
  }

  /** The text may stand for this string field. */
  ghost predicate StringText(ipv4: string -> bool, f: Field, v: string)
  {
    && f.minimum <= |v| < f.size && PrintableText(v)
    && (f.key in {"host", "network_interface"} ==> HostText(v))
    && (f.key == "network_gateway" ==> v == "" || ipv4(v))
    && (f.key == "network_address" ==> v == "" || AddressText(ipv4, v))
  }

  predicate TimezoneText(f: Field, v: string)
  {
    && 1 <= |v| < 128 && |v| < f.size
    && forall c :: c in v ==> !(0 <= c as int <= 32) && c as int != 127
  }

  /** This text gives the field this value. */
  ghost predicate Means(ipv4: string -> bool, f: Field, text: string, v: Value)
  {
    match f.kind
    case StringKind => StringText(ipv4, f, text) && v == Word(text)
    case TimezoneKind => TimezoneText(f, text) && v == Word(text)
    case BoolKind => (text == "true" && v == Flag(true)) || (text == "false" && v == Flag(false))
    case EnumKind => v.Number? && Choice(text, v.n) in f.options
    case IntKind => v.Number? && f.minimum <= v.n <= f.maximum && Denotes(text, v.n)
    case UintKind =>
      v.Number? && f.minimum <= v.n <= f.maximum
      && (Denotes(text, v.n) || (v.n > 0 && Denotes(text, v.n - ULONG_MODULUS)))
  }

  lemma Texts(v: string)
    ensures HostText(v) <==> forall i :: 0 <= i < |v| ==> HostChar(v[i])
    ensures PrintableText(v) <==> forall i :: 0 <= i < |v| ==> Printable(v[i])
  {
    assert forall i :: 0 <= i < |v| ==> v[i] in v;
  }

  lemma AddressTexts(ipv4: string -> bool, v: string)
    ensures AddressText(ipv4, v) <==> NetworkAddress(ipv4, v)
  {
    hide Strtol, Denotes;
    var slash := Find(v, '/');
    if AddressText(ipv4, v) {
      var address, prefix, n :| AddressParts(ipv4, v, address, prefix, n);
      assert v == address + ['/'] + prefix;
      FindAt(address, '/', prefix);
      assert v[..slash] == address && v[slash + 1..] == prefix;
      StrtolExactly(prefix, n);
    }
    if NetworkAddress(ipv4, v) {
      var address, prefix := v[..slash], v[slash + 1..];
      StrtolExactly(prefix, Strtol(prefix).value);
      assert v == address + "/" + prefix;
      assert AddressParts(ipv4, v, address, prefix, Strtol(prefix).value);
    }
  }

  lemma StringTexts(ipv4: string -> bool, f: Field, v: string)
    ensures StringText(ipv4, f, v) <==> f.minimum <= |v| < f.size && StringAccepted(ipv4, f.key, v)
  {
    hide HostChar, Printable, PrintableText, HostText, AddressText, NetworkAddress;
    Texts(v);
    AddressTexts(ipv4, v);
  }

  lemma TimezoneTexts(f: Field, v: string)
    ensures TimezoneText(f, v) <==> TimezoneAccepted(v) && |v| < f.size
  {
    assert forall i :: 0 <= i < |v| ==> v[i] in v;
  }

  lemma {:induction false} ChoiceNamed(options: seq<Choice>, text: string, n: int)
    requires forall i, j :: 0 <= i < j < |options| ==> options[i].name != options[j].name
    ensures ChooseByName(options, text) == Some(Number(n)) <==> Choice(text, n) in options
  {
    if options != [] {
      assert forall j :: 0 <= j < |options[1..]| ==> options[1..][j] == options[j + 1];
      ChoiceNamed(options[1..], text, n);
      if options[0].name == text {
        assert forall j :: 1 <= j < |options| ==> options[j].name != text;
        assert Choice(text, n) in options <==> options[0].value == n;
      } else {
        assert Choice(text, n) in options <==> Choice(text, n) in options[1..];
      }
    }
  }

  /** set_field() takes exactly the texts that mean something, and stores what they mean. */
  lemma SetFieldExactly(ipv4: string -> bool, f: Field, text: string, v: Value)
    requires GoodField(f)
    ensures SetField(ipv4, f, text) == Some(v) <==> Means(ipv4, f, text, v)
  {
    hide StringText, TimezoneText, Denotes, Strtol, Strtoul, StringAccepted, TimezoneAccepted, ChooseByName, GoodKey,
         GoodSection, PlainValue;
    match f.kind
    case StringKind => StringTexts(ipv4, f, text);
    case TimezoneKind => TimezoneTexts(f, text);
    case BoolKind =>
    case EnumKind => if v.Number? { ChoiceNamed(f.options, text, v.n); }
    case IntKind => if v.Number? { StrtolExactly(text, v.n); }
    case UintKind => if v.Number? && v.n >= 0 { StrtoulExactly(text, v.n); }
  }

  // ---------- what a load leaves ----------

  /** What field i holds after loading this text over c: its one text's meaning, or what it held. */
  ghost predicate Settled(t: Table, c: Config, text: string, i: nat, v: Value)
    requires i < |t.fields| == |c|
  {
    var handed := Handed(Lines(text), "", t.fields[i]);
    (handed == [] && v == c[i]) || (|handed| == 1 && Means(t.ipv4, t.fields[i], handed[0], v))
  }

  /** This structure is what the text means over c: the lines are well formed, every field is settled, and the
      support proxy's rule holds. */
  ghost predicate LoadsTo(t: Table, c: Config, text: string, after: Config)
    requires GoodSupportRows(t) && Typed(t, c)
  {
    && AllStrict(Lines(text)) && Typed(t, after) && SupportValid(t, after)
    && forall i :: 0 <= i < |after| ==> Settled(t, c, text, i, after[i])
  }

  /** The loader returns exactly that structure, and fails exactly if there is none. */
  lemma LoadExactly(t: Table, c: Config, text: string, after: Config)
    requires GoodTable(t) && Typed(t, c)
    ensures LoadText(t, c, text) == Success(after) <==> LoadsTo(t, c, text, after)
  {
    hide SetField, SupportValid, Means, Lines, AllStrict, GoodField, FieldValues, UnquoteAll, LoadLines,
         GoodSupportRows, Settled, FieldAccepted, Loaded;
    var st, ls := StartState(t, c), Lines(text);
    LoadMeaning(t, st, 1, ls);
    if |after| == |t.fields| {
      forall i | 0 <= i < |t.fields|
        ensures Settled(t, c, text, i, after[i])
           <==> FieldAccepted(t, st, ls, i) && after[i] == Loaded(t, st, ls, i)
      {
        FieldSettled(t, c, text, i, after[i]);
      }
    }
    if LoadsTo(t, c, text, after) { assert after == LoadLines(t, st, 1, ls).value.parsed; }
  }

  lemma FieldSettled(t: Table, c: Config, text: string, i: nat, v: Value)
    requires GoodTable(t) && Typed(t, c) && i < |t.fields|
    ensures var st, ls := StartState(t, c), Lines(text);
            Settled(t, c, text, i, v) <==> FieldAccepted(t, st, ls, i) && v == Loaded(t, st, ls, i)
  {
    hide SetField, Means, Lines, GoodField, FieldValues, UnquoteAll, GoodSupportRows;
    var f := t.fields[i];
    assert GoodField(f);
    var handed := Handed(Lines(text), "", f);
    if handed != [] { SetFieldExactly(t.ipv4, f, handed[0], v); }
  }

  // ---------- why a load fails ----------

  /** Line n follows these lines and is refused for this reason. */
  ghost predicate Reason(t: Table, before: seq<string>, n: nat, line: string, e: LoadError)
  {
    var section := LastSection(Editor, before, Some(""));
    match e
    case LineTooLong(at) => at == n && |Body(line)| > 510
    case InvalidSection(at) => at == n && |Body(line)| <= 510 && BadHeader(Classify(line))
    case InvalidSectionName(at) => at == n && |Body(line)| <= 510 && BadName(Classify(line))
    case NotKeyValue(at) => at == n && |Body(line)| <= 510 && Classify(line).Junk?
    case InvalidOrDuplicate(at, key) =>
      && at == n && |Body(line)| <= 510 && Classify(line).Entry? && Classify(line).key == key
      && exists i :: 0 <= i < |t.fields| && Some(t.fields[i].section) == section && t.fields[i].key == key
                     && (Handed(before, "", t.fields[i]) != []
                         || forall v :: !Means(t.ipv4, t.fields[i], Unquote(section.value, Classify(line).value), v))
    case UnusableSupport => false
  }

  predicate BadHeader(item: Item) { item.OpenHeader? || (item.Header? && item.tail != "") }

  predicate BadName(item: Item) { item.Header? && item.tail == "" && (item.name == "" || |item.name| >= 64) }

  /** The loader's place after lines it took: the section reached, and which rows were assigned. */
  predicate ReadSoFar(t: Table, before: seq<string>, st: LoadState)
    requires GoodState(t, st)
  {
    && LastSection(Editor, before, Some("")) == Some(st.section)
    && forall i :: 0 <= i < |t.fields| ==> (st.seen[i] <==> Handed(before, "", t.fields[i]) != [])
  }

  lemma ReadOn(t: Table, before: seq<string>, st: LoadState, n: nat, line: string)
    requires GoodTable(t) && GoodState(t, st) && ReadSoFar(t, before, st) && LoadLine(t, st, n, line).Success?
    ensures ReadSoFar(t, before + [line], LoadLine(t, st, n, line).value)
  {
    hide Classify, SetField, Unquote, FitsBuffer, GoodField, GoodSupportRows, Values, UnquoteAll;
    var next := LoadLine(t, st, n, line).value;
    ValuesConcat(Editor, before, [line], Some(""), "", "");
    LastCons(Editor, line, [], Some(st.section));
    LastNone(Editor, Some(next.section));
    assert [line] + [] == [line];
    forall i | 0 <= i < |t.fields|
      ensures next.seen[i] <==> Handed(before + [line], "", t.fields[i]) != []
    {
      HandedOn(t, before, st, line, i);
      if Classify(line).Entry? { OwnRow(t, i); }
    }
  }

  lemma HandedOn(t: Table, before: seq<string>, st: LoadState, line: string, i: nat)
    requires i < |t.fields| && LastSection(Editor, before, Some("")) == Some(st.section)
    ensures Handed(before + [line], "", t.fields[i]) != []
       <==> Handed(before, "", t.fields[i]) != []
            || Assigns(line, Some(st.section), t.fields[i].section, t.fields[i].key)
  {
    hide Classify, Values;
    var f := t.fields[i];
    ValuesConcat(Editor, before, [line], Some(""), f.section, f.key);
    ValuesCons(Editor, line, [], Some(st.section), f.section, f.key);
    assert [line] + [] == [line];
    ValuesNone(Editor, NextSection(Editor, Some(st.section), Classify(line)), f.section, f.key);
  }

  /** A refused line and its reason. */
  lemma RefusedFor(t: Table, before: seq<string>, st: LoadState, n: nat, line: string)
    requires GoodTable(t) && GoodState(t, st) && ReadSoFar(t, before, st) && LoadLine(t, st, n, line).Failure?
    ensures Reason(t, before, n, line, LoadLine(t, st, n, line).error)
  {
    hide Classify, SetField, Unquote, GoodField, GoodSupportRows, Handed, Means;
    if FitsBuffer(line) && Classify(line).Entry? {
      var i := FindField(t.fields, st.section, Classify(line).key);
      var text := Unquote(st.section, Classify(line).value);
      assert GoodField(t.fields[i]);
      forall v ensures SetField(t.ipv4, t.fields[i], text) == Some(v) <==> Means(t.ipv4, t.fields[i], text, v) {
        SetFieldExactly(t.ipv4, t.fields[i], text, v);
      }
    }
  }

  /** Lines up to k are taken, and line k is refused for this reason. */
  ghost predicate RefusedAt(t: Table, before: seq<string>, st: LoadState, ls: seq<string>, k: nat, e: LoadError)
    requires GoodState(t, st)
  {
    && k < |ls| && LoadLines(t, st, |before| + 1, ls[..k]).Success?
    && Reason(t, before + ls[..k], |before| + k + 1, ls[k], e)
  }

  lemma {:induction false} FirstRefused(t: Table, before: seq<string>, st: LoadState, ls: seq<string>) returns (k: nat)
    requires GoodTable(t) && GoodState(t, st) && ReadSoFar(t, before, st)
    requires LoadLines(t, st, |before| + 1, ls).Failure?
    ensures RefusedAt(t, before, st, ls, k, LoadLines(t, st, |before| + 1, ls).error)
    decreases |ls|
  {
    hide LoadLine, GoodTable, ReadSoFar, Reason, GoodState;
    var n := |before| + 1;
    var first := LoadLine(t, st, n, ls[0]);
    if first.Failure? {
      k := 0;
      RefusedFor(t, before, st, n, ls[0]);
      assert before + ls[..0] == before;
    } else {
      ReadOn(t, before, st, n, ls[0]);
      k := FirstRefused(t, before + [ls[0]], first.value, ls[1..]);
      k := k + 1;
      assert before + [ls[0]] + ls[1..][..k - 1] == before + ls[..k];
      assert ls[..k][0] == ls[0] && ls[..k][1..] == ls[1..][..k - 1];
    }
  }

  /** A failed load names the first line that is refused, with its number and its reason, or the support proxy's rule if
      no line is. */
  lemma FailureExactly(t: Table, c: Config, text: string) returns (k: nat)
    requires GoodTable(t) && Typed(t, c) && LoadText(t, c, text).Failure?
    ensures var e, st, ls := LoadText(t, c, text).error, StartState(t, c), Lines(text);
            if e.UnusableSupport? then LoadLines(t, st, 1, ls).Success?
            else k < |ls| && LoadLines(t, st, 1, ls[..k]).Success? && Reason(t, ls[..k], k + 1, ls[k], e)
  {
    hide Reason, Lines, GoodSupportRows, SupportValid, LoadLines;
    var st, ls := StartState(t, c), Lines(text);
    k := 0;
    if LoadLines(t, st, 1, ls).Failure? {
      NothingRead(t, st);
      k := FirstRefused(t, [], st, ls);
      assert [] + ls[..k] == ls[..k];
      LineReason(t, ls[..k], k + 1, ls[k], LoadLines(t, st, 1, ls).error);
    }
  }

  lemma LineReason(t: Table, before: seq<string>, n: nat, line: string, e: LoadError)
    requires Reason(t, before, n, line, e)
    ensures !e.UnusableSupport?
  {
  }

  lemma NothingRead(t: Table, st: LoadState)
    requires GoodState(t, st) && st.section == "" && forall i :: 0 <= i < |t.fields| ==> !st.seen[i]
    ensures ReadSoFar(t, [], st)
  {
  }
}
