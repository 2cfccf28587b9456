/** The settings form of the web service: what it accepts, the application accepts. */
module WebForm {
  import opened Ini
  import opened Decimal
  import opened AppConfig
  import opened WebIni
  import opened WebSave
  import opened Settings
  import opened TwoPrograms

  datatype ParameterKind = EnumParameter | IntegerParameter | TextParameter

  /** One row of the form; `shown` is false for parameters this camera does not have. */
  datatype Parameter = Parameter(formName: string, section: string, key: string, kind: ParameterKind,
                                 minimum: int, maximum: int, options: seq<string>, shown: bool)

  /** The submitted form: absent fields are None. */
  type Form = string -> Option<string>

  // ---------- validation ----------

  /** valid_text_parameter() */
  predicate ValidText(ipv4: string -> bool, p: Parameter, v: string)
  {
    && p.minimum <= |v| <= p.maximum
    && if p.section == SUPPORT then
         && (forall i :: 0 <= i < |v| ==>
               Printable(v[i]) && (p.key == "host" || p.key == "network_interface" ==> HostChar(v[i])))
         && (p.key == "network_gateway" && v != [] ==> ipv4(v))
         && (p.key == "network_address" && v != [] ==> |v| < 32 && NetworkAddress(ipv4, v))
       else
         forall i :: 0 <= i < |v| ==> !IsControl(v[i]) && !IsSpace(v[i])
  }

  /** The normalized value of one parameter, or None when the form is refused. */
  function Normalized(ipv4: string -> bool, p: Parameter, v: string): Option<string>
  {
    if |v| > VALUE_MAX then None
    else
      match p.kind
      case EnumParameter => if v in p.options then Some(v) else None
      case IntegerParameter =>
        var n := Strtol(v);
        if n.Some? && p.minimum <= n.value <= p.maximum then Some(PrintInt(n.value)) else None
      case TextParameter => if ValidText(ipv4, p, v) then Some(v) else None
  }

  /** The form row and the table row speak of the same setting with the same bounds. */
  predicate Describes(ipv4: string -> bool, p: Parameter, f: Field)
  {
    && p.section == f.section && p.key == f.key
    && match p.kind
       case EnumParameter =>
         forall o :: o in p.options ==> SetField(ipv4, f, o).Some? && PlainValue(o)
       case IntegerParameter =>
         && (f.kind.IntKind? || f.kind.UintKind?) && p.minimum == f.minimum && p.maximum == f.maximum
         && -0x8000_0000 <= p.minimum && p.maximum <= INT_MAX
       case TextParameter =>
         if p.section == SUPPORT
         then f.kind.StringKind? && p.minimum == f.minimum && p.maximum == f.size - 1
              && (p.key == "network_address" ==> p.maximum <= 31)
         else f.kind.TimezoneKind? && p.minimum == 1 && p.maximum == TIMEZONE_MAX - 1 && f.size == TIMEZONE_MAX
  }

  /** The two programs' validators of text settings accept the same texts. */
  lemma ValidatorsAgree(ipv4: string -> bool, p: Parameter, f: Field, v: string)
    requires Describes(ipv4, p, f) && p.kind.TextParameter?
    ensures ValidText(ipv4, p, v) <==> SetField(ipv4, f, v).Some?
  {
    hide Strtol, Find, NetworkAddress;
  }

  lemma {:induction false} SmallNumberShort(n: int)
    requires -0x8000_0000 <= n <= INT_MAX
    ensures |PrintInt(n)| <= 11
  {
    var m := if n < 0 then -n else n;
    assert Power10(10) == 10 * Power10(9) && Power10(9) == 10 * Power10(8) && Power10(8) == 10 * Power10(7);
    assert Power10(7) == 10 * Power10(6) && Power10(6) == 10 * Power10(5) && Power10(5) == 10 * Power10(4);
    assert Power10(4) == 10 * Power10(3) && Power10(3) == 10 * Power10(2) && Power10(2) == 10 * Power10(1);
    assert Power10(1) == 10;
    PrintLength(m, 10);
  }

  /** Whatever the form accepts can be quoted in the file and is taken by set_field();
      a number keeps its value. */
  lemma NormalizedIsSettable(ipv4: string -> bool, p: Parameter, f: Field, v: string)
    requires GoodField(f) && Describes(ipv4, p, f) && Normalized(ipv4, p, v).Some?
    ensures var n := Normalized(ipv4, p, v).value;
            SetField(ipv4, f, n).Some? && |n| <= VALUE_MAX && Quotable(f.section, n)
    ensures p.kind.IntegerParameter? ==>
              SetField(ipv4, f, Normalized(ipv4, p, v).value) == Some(Number(Strtol(v).value))
  {
    hide GoodField, ReadNumeral, Find, Strtol, Strtoul, PrintInt, NetworkAddress;
    match p.kind
    case EnumParameter =>
    case IntegerParameter =>
      var n := Strtol(v).value;
      PrintedReadsBack(n);
      ReadPrinted(n);
      SmallNumberShort(n);
      assert f.kind.UintKind? ==> f.minimum >= 0 by { UintBounds(f); }
    case TextParameter =>
      ValidatorsAgree(ipv4, p, f, v);
      assert '\n' !in v;
      if p.section != SUPPORT { assert Bare(v); }
  }

  lemma UintBounds(f: Field)
    requires GoodField(f)
    ensures f.kind.UintKind? ==> f.minimum >= 0
  {
  }

  // ---------- collecting the updates ----------

  datatype Collected = Updates(ups: seq<Update>) | Invalid

  /** collect_described_parameters() */
  function CollectDescribed(ipv4: string -> bool, ps: seq<Parameter>, form: Form): Collected
  {
    if ps == [] then Updates([])
    else if !ps[0].shown then CollectDescribed(ipv4, ps[1..], form)
    else
      var v := form(ps[0].formName);
      if v.None? || Normalized(ipv4, ps[0], v.value).None? then Invalid
      else
        match CollectDescribed(ipv4, ps[1..], form)
        case Invalid => Invalid
        case Updates(ups) =>
          Updates([Update(ps[0].section, ps[0].key, Normalized(ipv4, ps[0], v.value).value)] + ups)
  }

  /** The submitted text of a support proxy setting, the last one if there are several, or the default the C code
      starts from. */
  function SupportText(ups: seq<Update>, key: string, absent: string): string
  {
    if ups == [] then absent
    else
      var u := ups[|ups| - 1];
      if Named(u, SUPPORT, key) then u.value else SupportText(ups[..|ups| - 1], key, absent)
  }

  /** The cross-field rule of collect_replacement_parameter_updates(), on texts. */
  predicate SupportAccepted(ups: seq<Update>)
  {
    var port1, port2 := SupportText(ups, "video1_port", "0"), SupportText(ups, "video2_port", "0");
    SupportText(ups, "enabled", "false") == "true" ==>
      && SupportText(ups, "host", "") != ""
      && (SupportText(ups, "signing", "false") == "true" ==> SupportText(ups, "signing_passphrase", "") != "")
      && (port1 != "0" ==> SupportText(ups, "video1_name", "") != "")
      && (port2 != "0" ==> SupportText(ups, "video2_name", "") != "")
      && (port1 != "0" ==> port1 != port2)
  }

  /** collect_replacement_parameter_updates() */
  function Collect(ipv4: string -> bool, ps: seq<Parameter>, form: Form): Collected
  {
    match CollectDescribed(ipv4, ps, form)
    case Invalid => Invalid
    case Updates(ups) => if SupportAccepted(ups) then Updates(ups) else Invalid
  }

  // ---------- a form whose rows describe the table ----------

  predicate SameSetting(p: Parameter, q: Parameter) { p.section == q.section && p.key == q.key }

  /** The row for one support proxy setting is in the form. */
  ghost predicate Offers(ps: seq<Parameter>, key: string, kind: ParameterKind)
  {
    exists i :: 0 <= i < |ps| && ps[i].shown && ps[i].section == SUPPORT && ps[i].key == key && ps[i].kind == kind
  }

  ghost predicate GoodForm(t: Table, ps: seq<Parameter>)
  {
    && (forall i :: 0 <= i < |ps| ==>
          var j := FindField(t.fields, ps[i].section, ps[i].key);
          j < |t.fields| && Describes(t.ipv4, ps[i], t.fields[j]))
    && (forall i, j :: 0 <= i < j < |ps| ==> !SameSetting(ps[i], ps[j]))
  }

  /** The form offers every setting the support proxy's rule looks at. */
  ghost predicate OffersSupport(ps: seq<Parameter>)
  {
    && Offers(ps, "enabled", EnumParameter) && Offers(ps, "signing", EnumParameter)
    && Offers(ps, "video1_port", IntegerParameter) && Offers(ps, "video2_port", IntegerParameter)
    && Offers(ps, "host", TextParameter) && Offers(ps, "signing_passphrase", TextParameter)
    && Offers(ps, "video1_name", TextParameter) && Offers(ps, "video2_name", TextParameter)
  }

  /** Each update comes from a shown row, as its normalized value. */
  lemma {:induction false} CollectedFrom(ipv4: string -> bool, ps: seq<Parameter>, form: Form)
    requires CollectDescribed(ipv4, ps, form).Updates?
    ensures forall u :: u in CollectDescribed(ipv4, ps, form).ups ==> exists i :: FromRow(ipv4, ps, form, u, i)
  {
    hide Normalized;
    if ps != [] {
      CollectedFrom(ipv4, ps[1..], form);
      var ups := CollectDescribed(ipv4, ps, form).ups;
      forall u | u in ups ensures exists i :: FromRow(ipv4, ps, form, u, i) {
        if ps[0].shown && u == ups[0] {
          assert FromRow(ipv4, ps, form, u, 0);
        } else {
          var i :| FromRow(ipv4, ps[1..], form, u, i);
          assert ps[1..][i] == ps[i + 1];
          assert FromRow(ipv4, ps, form, u, i + 1);
        }
      }
    }
  }

  predicate FromRow(ipv4: string -> bool, ps: seq<Parameter>, form: Form, u: Update, i: int)
  {
    && 0 <= i < |ps| && ps[i].shown && u.section == ps[i].section && u.key == ps[i].key
    && form(ps[i].formName).Some? && Normalized(ipv4, ps[i], form(ps[i].formName).value) == Some(u.value)
  }

  /** Every shown row yields an update. */
  lemma {:induction false} CollectedAll(ipv4: string -> bool, ps: seq<Parameter>, form: Form, i: nat)
    requires CollectDescribed(ipv4, ps, form).Updates? && i < |ps| && ps[i].shown
    ensures exists u :: u in CollectDescribed(ipv4, ps, form).ups && u.section == ps[i].section && u.key == ps[i].key
  {
    hide Normalized;
    if i > 0 {
      CollectedAll(ipv4, ps[1..], form, i - 1);
      var u :| u in CollectDescribed(ipv4, ps[1..], form).ups && u.section == ps[i].section && u.key == ps[i].key;
      assert u in CollectDescribed(ipv4, ps, form).ups;
    } else {
      assert CollectDescribed(ipv4, ps, form).ups[0].section == ps[0].section;
      assert CollectDescribed(ipv4, ps, form).ups[0] in CollectDescribed(ipv4, ps, form).ups;
    }
  }

  /** Distinct rows give distinct updates. */
  lemma {:induction false} CollectedDistinct(ipv4: string -> bool, ps: seq<Parameter>, form: Form)
    requires CollectDescribed(ipv4, ps, form).Updates?
    requires forall i, j :: 0 <= i < j < |ps| ==> !SameSetting(ps[i], ps[j])
    ensures var ups := CollectDescribed(ipv4, ps, form).ups;
            forall i, j :: 0 <= i < j < |ups| ==> !Named(ups[j], ups[i].section, ups[i].key)
  {
    hide Normalized;
    if ps != [] {
      var rest := ps[1..];
      assert forall i :: 0 <= i < |rest| ==> rest[i] == ps[i + 1];
      CollectedDistinct(ipv4, rest, form);
      CollectedFrom(ipv4, rest, form);
      var ups, more := CollectDescribed(ipv4, ps, form).ups, CollectDescribed(ipv4, rest, form).ups;
      if ps[0].shown {
        forall j | 0 <= j < |more| ensures !Named(more[j], ps[0].section, ps[0].key) {
          assert more[j] in more;
          var m :| FromRow(ipv4, rest, form, more[j], m);
          assert !SameSetting(ps[0], ps[m + 1]);
        }
        assert ups == [ups[0]] + more;
      }
    }
  }

  /** The updates of an accepted form are ones both programs can work with. */
  lemma {:induction false} CollectedGood(t: Table, ps: seq<Parameter>, form: Form)
    requires GoodTable(t) && GoodForm(t, ps) && CollectDescribed(t.ipv4, ps, form).Updates?
    ensures GoodUpdates(CollectDescribed(t.ipv4, ps, form).ups) && Settable(t, CollectDescribed(t.ipv4, ps, form).ups)
  {
    hide Normalized, SetField, Describes, GoodField, CollectDescribed, Quotable;
    var ups := CollectDescribed(t.ipv4, ps, form).ups;
    CollectedFrom(t.ipv4, ps, form);
    CollectedDistinct(t.ipv4, ps, form);
    forall i | 0 <= i < |ups|
      ensures var j := FindField(t.fields, ups[i].section, ups[i].key);
              j < |t.fields| && |ups[i].value| <= VALUE_MAX && SetField(t.ipv4, t.fields[j], ups[i].value).Some?
              && Quotable(ups[i].section, ups[i].value)
    {
      assert ups[i] in ups;
      var m :| FromRow(t.ipv4, ps, form, ups[i], m);
      var j := FindField(t.fields, ps[m].section, ps[m].key);
      NormalizedIsSettable(t.ipv4, ps[m], t.fields[j], form(ps[m].formName).value);
    }
    assert Settable(t, ups);
    forall i | 0 <= i < |ups| ensures GoodUpdate(ups[i]) { LoadableNames(t, ups, i); }
  }

  // ---------- the support proxy's rule, on texts and on values ----------

  /** With distinct names the last one is the first one. */
  lemma {:induction false} SupportTextFound(ups: seq<Update>, key: string, absent: string)
    requires DistinctNames(ups)
    ensures var i := FindUpdate(ups, SUPPORT, key);
            SupportText(ups, key, absent) == if i < |ups| then ups[i].value else absent
    decreases |ups|
  {
    if ups != [] {
      var before, u := ups[..|ups| - 1], ups[|ups| - 1];
      assert ups == before + [u];
      SupportTextFound(before, key, absent);
      FindLast(before, u, key);
    }
  }

  lemma FindLast(ups: seq<Update>, u: Update, key: string)
    requires DistinctNames(ups + [u])
    ensures var i, j := FindUpdate(ups, SUPPORT, key), FindUpdate(ups + [u], SUPPORT, key);
            if Named(u, SUPPORT, key) then j == |ups| else if i < |ups| then j == i else j == |ups| + 1
  {
    var i, j := FindUpdate(ups, SUPPORT, key), FindUpdate(ups + [u], SUPPORT, key);
    var all := ups + [u];
    assert forall m :: 0 <= m < |ups| ==> all[m] == ups[m];
    assert all[|ups|] == u;
    assert i < |ups| ==> Named(all[i], SUPPORT, key) && !Named(all[|ups|], all[i].section, all[i].key);
    assert Named(u, SUPPORT, key) ==> j <= |ups|;
  }

  lemma PrintInjective(m: int, n: int)
    requires PrintInt(m) == PrintInt(n)
    ensures m == n
  {
    hide Strtol, PrintInt;
    PrintedReadsBack(m);
    PrintedReadsBack(n);
  }

  /** A support setting the form offers reaches the structure as its submitted text. */
  lemma {:induction false} OfferedValue(t: Table, c: Config, ps: seq<Parameter>, form: Form, key: string,
                                        kind: ParameterKind, absent: string, j: nat)
    requires GoodTable(t) && GoodForm(t, ps) && Typed(t, c) && Offers(ps, key, kind)
    requires CollectDescribed(t.ipv4, ps, form).Updates?
    requires j < |t.fields| && t.fields[j].section == SUPPORT && t.fields[j].key == key
    ensures var ups := CollectDescribed(t.ipv4, ps, form).ups;
            var text := SupportText(ups, key, absent);
            && SetField(t.ipv4, t.fields[j], text) == Some(Updated(t, c, ups)[j])
            && (kind.IntegerParameter? ==> exists n :: text == PrintInt(n) && Updated(t, c, ups)[j] == Number(n))
  {
    hide Normalized, SetField, Describes, GoodField, CollectDescribed, PrintInt, Strtol, GoodUpdates, DistinctNames,
         SupportText, Settable, Updated, Typed, GoodSupportRows;
    var ups := CollectDescribed(t.ipv4, ps, form).ups;
    CollectedGood(t, ps, form);
    var i :| 0 <= i < |ps| && ps[i].shown && ps[i].section == SUPPORT && ps[i].key == key && ps[i].kind == kind;
    CollectedAll(t.ipv4, ps, form, i);
    CollectedFrom(t.ipv4, ps, form);
    var m := FindUpdate(ups, SUPPORT, key);
    assert m < |ups|;
    assert DistinctNames(ups) by { NamesOf(ups); }
    SupportTextFound(ups, key, absent);
    OwnRow(t, j);
    UpdatedAt(t, c, ups, j);
    assert ups[m] in ups;
    var r :| FromRow(t.ipv4, ps, form, ups[m], r);
    assert SameSetting(ps[r], ps[i]) && SameSetting(ps[i], ps[r]);
    assert r == i;
    NormalizedIsSettable(t.ipv4, ps[i], t.fields[j], form(ps[i].formName).value);
    if kind.IntegerParameter? { NormalizedPrinted(t.ipv4, ps[i], form(ps[i].formName).value); }
  }

  lemma NormalizedPrinted(ipv4: string -> bool, p: Parameter, v: string)
    requires p.kind.IntegerParameter? && Normalized(ipv4, p, v).Some?
    ensures Normalized(ipv4, p, v) == Some(PrintInt(Strtol(v).value))
  {
    hide Strtol, PrintInt;
  }

  lemma OfferedAll(ps: seq<Parameter>)
    requires OffersSupport(ps)
    ensures Offers(ps, "enabled", EnumParameter) && Offers(ps, "signing", EnumParameter)
    ensures Offers(ps, "video1_port", IntegerParameter) && Offers(ps, "video2_port", IntegerParameter)
    ensures Offers(ps, "host", TextParameter) && Offers(ps, "signing_passphrase", TextParameter)
    ensures Offers(ps, "video1_name", TextParameter) && Offers(ps, "video2_name", TextParameter)
  {
    hide Offers;
  }

  lemma StoredFlag(ipv4: string -> bool, f: Field, text: string, v: Value)
    requires f.kind.BoolKind? && SetField(ipv4, f, text) == Some(v)
    ensures v == Flag(text == "true")
  {
  }

  lemma StoredWord(ipv4: string -> bool, f: Field, text: string, v: Value)
    requires f.kind.StringKind? && SetField(ipv4, f, text) == Some(v)
    ensures v == Word(text)
  {
  }

  /** The web service's rule on the submitted texts is the application's rule on the new structure. */
  lemma {:induction false} SupportRulesAgree(t: Table, c: Config, ps: seq<Parameter>, form: Form)
    requires GoodTable(t) && GoodForm(t, ps) && OffersSupport(ps) && Typed(t, c)
    requires CollectDescribed(t.ipv4, ps, form).Updates?
    ensures var ups := CollectDescribed(t.ipv4, ps, form).ups;
            SupportAccepted(ups) <==> SupportValid(t, Updated(t, c, ups))
  {
    hide CollectDescribed, Updated, PrintInt, SupportText, GoodForm, SetField, GoodField, OffersSupport;
    OfferedAll(ps);
    var ups, s := CollectDescribed(t.ipv4, ps, form).ups, t.support;
    OfferedValue(t, c, ps, form, "enabled", EnumParameter, "false", s.enabled);
    OfferedValue(t, c, ps, form, "signing", EnumParameter, "false", s.signing);
    OfferedValue(t, c, ps, form, "host", TextParameter, "", s.host);
    OfferedValue(t, c, ps, form, "signing_passphrase", TextParameter, "", s.passphrase);
    OfferedValue(t, c, ps, form, "video1_name", TextParameter, "", s.name1);
    OfferedValue(t, c, ps, form, "video2_name", TextParameter, "", s.name2);
    OfferedValue(t, c, ps, form, "video1_port", IntegerParameter, "0", s.port1);
    OfferedValue(t, c, ps, form, "video2_port", IntegerParameter, "0", s.port2);
    var u := Updated(t, c, ups);
    StoredFlag(t.ipv4, t.fields[s.enabled], SupportText(ups, "enabled", "false"), u[s.enabled]);
    StoredFlag(t.ipv4, t.fields[s.signing], SupportText(ups, "signing", "false"), u[s.signing]);
    StoredWord(t.ipv4, t.fields[s.host], SupportText(ups, "host", ""), u[s.host]);
    StoredWord(t.ipv4, t.fields[s.passphrase], SupportText(ups, "signing_passphrase", ""), u[s.passphrase]);
    StoredWord(t.ipv4, t.fields[s.name1], SupportText(ups, "video1_name", ""), u[s.name1]);
    StoredWord(t.ipv4, t.fields[s.name2], SupportText(ups, "video2_name", ""), u[s.name2]);
    var n1 :| SupportText(ups, "video1_port", "0") == PrintInt(n1) && u[s.port1] == Number(n1);
    var n2 :| SupportText(ups, "video2_port", "0") == PrintInt(n2) && u[s.port2] == Number(n2);
    ZeroPrints();
    if PrintInt(n1) == "0" { PrintInjective(n1, 0); }
    if PrintInt(n2) == "0" { PrintInjective(n2, 0); }
    if PrintInt(n1) == PrintInt(n2) { PrintInjective(n1, n2); }
  }

  lemma ZeroPrints()
    ensures PrintInt(0) == "0"
  {
  }

  // ---------- what a submission means, told without the updates ----------

  /** The value a row's submitted text stands for in its field: the text itself, the number it denotes, or what the
      chosen option means. */
  ghost predicate Submitted(ipv4: string -> bool, p: Parameter, f: Field, text: string, v: Value)
  {
    match p.kind
    case TextParameter => v == Word(text)
    case IntegerParameter => v.Number? && Denotes(text, v.n)
    case EnumParameter => Means(ipv4, f, text, v)
  }

  /** The row takes this text: an option, a number in range, or a text the field takes; 159 characters at most. */
  ghost predicate RowTakes(ipv4: string -> bool, p: Parameter, f: Field, text: string)
  {
    |text| <= 159 &&
    match p.kind
    case TextParameter => Means(ipv4, f, text, Word(text))
    case IntegerParameter => exists n :: p.minimum <= n <= p.maximum && Denotes(text, n)
    case EnumParameter => text in p.options
  }

  /** The field a row of the form is about. */
  function FieldOf(t: Table, p: Parameter): Field
    requires FindField(t.fields, p.section, p.key) < |t.fields|
  {
    t.fields[FindField(t.fields, p.section, p.key)]
  }

  /** Every row shown was submitted with a text it takes. */
  ghost predicate AllTaken(t: Table, ps: seq<Parameter>, form: Form)
    requires GoodForm(t, ps)
  {
    forall i :: 0 <= i < |ps| && ps[i].shown ==>
      form(ps[i].formName).Some? && RowTakes(t.ipv4, ps[i], FieldOf(t, ps[i]), form(ps[i].formName).value)
  }

  /** A shown row is about field j. */
  ghost predicate Offered(t: Table, ps: seq<Parameter>, j: nat)
  {
    exists i :: 0 <= i < |ps| && ps[i].shown && FindField(t.fields, ps[i].section, ps[i].key) == j
  }

  /** The structure holds exactly what was submitted, and in all other fields what it held before. */
  ghost predicate HoldsSubmitted(t: Table, ps: seq<Parameter>, form: Form, before: Config, after: Config)
    requires GoodForm(t, ps) && AllTaken(t, ps, form) && |before| == |t.fields| == |after|
  {
    && (forall i :: 0 <= i < |ps| && ps[i].shown ==>
          Submitted(t.ipv4, ps[i], FieldOf(t, ps[i]), form(ps[i].formName).value,
                    after[FindField(t.fields, ps[i].section, ps[i].key)]))
    && (forall j :: 0 <= j < |after| && !Offered(t, ps, j) ==> after[j] == before[j])
  }

  /** A row takes exactly the texts that are normalized, and the field then stores what was submitted. */
  lemma {:induction false} RowTakesExactly(ipv4: string -> bool, p: Parameter, f: Field, text: string, v: Value)
    requires GoodField(f) && Describes(ipv4, p, f)
    ensures Normalized(ipv4, p, text).Some? <==> RowTakes(ipv4, p, f, text)
    ensures Normalized(ipv4, p, text).Some? ==>
              (SetField(ipv4, f, Normalized(ipv4, p, text).value) == Some(v) <==> Submitted(ipv4, p, f, text, v))
  {
    hide GoodField, Strtol, Strtoul, PrintInt, ValidText, Denotes, SetField, Describes;
    var n := Normalized(ipv4, p, text);
    match p.kind
    case TextParameter =>
      ValidatorsAgree(ipv4, p, f, text);
      TextStored(ipv4, p, f, text);
    case IntegerParameter =>
      forall m ensures Strtol(text) == Some(m) <==> Denotes(text, m) { StrtolExactly(text, m); }
      if n.Some? { NormalizedIsSettable(ipv4, p, f, text); }
    case EnumParameter => SetFieldExactly(ipv4, f, text, v);
  }

  lemma {:induction false} TextStored(ipv4: string -> bool, p: Parameter, f: Field, text: string)
    requires GoodField(f) && Describes(ipv4, p, f) && p.kind.TextParameter?
    ensures SetField(ipv4, f, text).Some? <==> Means(ipv4, f, text, Word(text))
    ensures SetField(ipv4, f, text).Some? ==> SetField(ipv4, f, text) == Some(Word(text))
  {
    hide GoodField;
    forall v ensures SetField(ipv4, f, text) == Some(v) <==> Means(ipv4, f, text, v) {
      SetFieldExactly(ipv4, f, text, v);
    }
  }

  /** Whether the texts submitted for the shown rows can all be normalized. */
  predicate AllNormalized(ipv4: string -> bool, ps: seq<Parameter>, form: Form)
  {
    forall i :: 0 <= i < |ps| && ps[i].shown ==>
      form(ps[i].formName).Some? && Normalized(ipv4, ps[i], form(ps[i].formName).value).Some?
  }

  lemma {:induction false} CollectedIf(ipv4: string -> bool, ps: seq<Parameter>, form: Form)
    ensures CollectDescribed(ipv4, ps, form).Updates? <==> AllNormalized(ipv4, ps, form)
  {
    hide Normalized;
    if ps != [] {
      CollectedIf(ipv4, ps[1..], form);
      assert forall i :: 0 <= i < |ps[1..]| ==> ps[1..][i] == ps[i + 1];
      assert forall i :: 1 <= i < |ps| ==> ps[i] == ps[1..][i - 1];
    }
  }

  /** The rows are collected exactly if each takes what was submitted for it. */
  lemma {:induction false} CollectedExactly(t: Table, ps: seq<Parameter>, form: Form)
    requires GoodTable(t) && GoodForm(t, ps)
    ensures CollectDescribed(t.ipv4, ps, form).Updates? <==> AllTaken(t, ps, form)
  {
    hide Normalized, GoodField, Describes, RowTakes, Submitted, GoodSupportRows, SetField;
    CollectedIf(t.ipv4, ps, form);
    forall i | 0 <= i < |ps| && form(ps[i].formName).Some?
      ensures Normalized(t.ipv4, ps[i], form(ps[i].formName).value).Some?
         <==> RowTakes(t.ipv4, ps[i], FieldOf(t, ps[i]), form(ps[i].formName).value)
    {
      RowTakesExactly(t.ipv4, ps[i], FieldOf(t, ps[i]), form(ps[i].formName).value, Flag(true));
    }
  }

  /** The update of a shown row. */
  lemma {:induction false} UpdateOfRow(t: Table, ps: seq<Parameter>, form: Form, i: nat)
    requires GoodTable(t) && GoodForm(t, ps) && CollectDescribed(t.ipv4, ps, form).Updates?
    requires i < |ps| && ps[i].shown
    ensures var ups := CollectDescribed(t.ipv4, ps, form).ups;
            var m := FindUpdate(ups, ps[i].section, ps[i].key);
            m < |ups| && FromRow(t.ipv4, ps, form, ups[m], i)
  {
    hide Normalized, SetField, Describes, GoodField, CollectDescribed, GoodSupportRows;
    var ups := CollectDescribed(t.ipv4, ps, form).ups;
    CollectedAll(t.ipv4, ps, form, i);
    CollectedFrom(t.ipv4, ps, form);
    var m := FindUpdate(ups, ps[i].section, ps[i].key);
    assert m < |ups|;
    assert ups[m] in ups;
    var r :| FromRow(t.ipv4, ps, form, ups[m], r);
    assert SameSetting(ps[r], ps[i]) && SameSetting(ps[i], ps[r]);
    assert r == i;
  }

  /** Only shown rows have updates. */
  lemma {:induction false} NoUpdate(t: Table, ps: seq<Parameter>, form: Form, j: nat)
    requires GoodTable(t) && GoodForm(t, ps) && CollectDescribed(t.ipv4, ps, form).Updates?
    requires j < |t.fields| && !Offered(t, ps, j)
    ensures var ups := CollectDescribed(t.ipv4, ps, form).ups;
            FindUpdate(ups, t.fields[j].section, t.fields[j].key) == |ups|
  {
    hide Normalized, SetField, Describes, GoodField, CollectDescribed, GoodSupportRows;
    var ups := CollectDescribed(t.ipv4, ps, form).ups;
    CollectedFrom(t.ipv4, ps, form);
    var m := FindUpdate(ups, t.fields[j].section, t.fields[j].key);
    if m < |ups| {
      assert ups[m] in ups;
      var r :| FromRow(t.ipv4, ps, form, ups[m], r);
      OwnRow(t, j);
    }
  }

  /** The collected updates put into a structure exactly what was submitted. */
  lemma {:induction false} UpdatedExactly(t: Table, ps: seq<Parameter>, form: Form, before: Config, after: Config)
    requires GoodTable(t) && GoodForm(t, ps) && AllTaken(t, ps, form) && Typed(t, before) && |after| == |before|
    requires CollectDescribed(t.ipv4, ps, form).Updates?
    ensures HoldsSubmitted(t, ps, form, before, after)
       <==> after == Updated(t, before, CollectDescribed(t.ipv4, ps, form).ups)
  {
    hide Normalized, SetField, Describes, GoodField, CollectDescribed, GoodSupportRows, Submitted, RowTakes, Updated,
         AllTaken, Settable, GoodUpdates;
    var ups := CollectDescribed(t.ipv4, ps, form).ups;
    var u := Updated(t, before, ups);
    CollectedGood(t, ps, form);
    forall i | 0 <= i < |ps| && ps[i].shown
      ensures form(ps[i].formName).Some?
      ensures var j := FindField(t.fields, ps[i].section, ps[i].key);
              Submitted(t.ipv4, ps[i], FieldOf(t, ps[i]), form(ps[i].formName).value, after[j]) <==> after[j] == u[j]
    {
      RowUpdated(t, ps, form, before, i, after[FindField(t.fields, ps[i].section, ps[i].key)]);
    }
    forall j | 0 <= j < |after| && !Offered(t, ps, j) ensures u[j] == before[j] {
      NoUpdate(t, ps, form, j);
      UpdatedAt(t, before, ups, j);
    }
    assert HoldsSubmitted(t, ps, form, before, after) ==> forall j :: 0 <= j < |after| ==> after[j] == u[j];
  }

  lemma {:induction false} RowUpdated(t: Table, ps: seq<Parameter>, form: Form, before: Config, i: nat, v: Value)
    requires GoodTable(t) && GoodForm(t, ps) && Typed(t, before) && CollectDescribed(t.ipv4, ps, form).Updates?
    requires Settable(t, CollectDescribed(t.ipv4, ps, form).ups) && i < |ps| && ps[i].shown
    ensures form(ps[i].formName).Some?
    ensures var j := FindField(t.fields, ps[i].section, ps[i].key);
            var updated := Updated(t, before, CollectDescribed(t.ipv4, ps, form).ups);
            Submitted(t.ipv4, ps[i], FieldOf(t, ps[i]), form(ps[i].formName).value, v) <==> v == updated[j]
  {
    hide Normalized, SetField, Describes, GoodField, CollectDescribed, GoodSupportRows, Submitted, RowTakes, Updated,
         Settable;
    UpdateOfRow(t, ps, form, i);
    var f := FieldOf(t, ps[i]);
    UpdatedAt(t, before, CollectDescribed(t.ipv4, ps, form).ups, FindField(t.fields, ps[i].section, ps[i].key));
    RowTakesExactly(t.ipv4, ps[i], f, form(ps[i].formName).value, v);
  }

  /** A form is accepted exactly if every shown row takes its text and the structure holding what was submitted passes
      the support proxy's rule. */
  lemma {:induction false} AcceptedExactly(t: Table, c: Config, ps: seq<Parameter>, form: Form)
    requires GoodTable(t) && GoodForm(t, ps) && OffersSupport(ps) && Typed(t, c)
    ensures Collect(t.ipv4, ps, form).Updates? <==> FormAccepted(t, c, ps, form)
  {
    hide CollectDescribed, SupportAccepted, SupportValid, GoodForm, OffersSupport, AllTaken, HoldsSubmitted, Updated,
         GoodField, GoodSupportRows;
    CollectedExactly(t, ps, form);
    if AllTaken(t, ps, form) {
      var u := Updated(t, c, CollectDescribed(t.ipv4, ps, form).ups);
      SupportRulesAgree(t, c, ps, form);
      forall after: Config | |after| == |c| ensures HoldsSubmitted(t, ps, form, c, after) <==> after == u {
        UpdatedExactly(t, ps, form, c, after);
      }
    }
  }

  ghost predicate FormAccepted(t: Table, c: Config, ps: seq<Parameter>, form: Form)
    requires GoodTable(t) && GoodForm(t, ps) && Typed(t, c)
  {
    AllTaken(t, ps, form) &&
    exists after :: Typed(t, after) && HoldsSubmitted(t, ps, form, c, after) && SupportValid(t, after)
  }

  // ---------- the form, then the loader ----------

  /** Every form the web service accepts is installed over a text the application accepts exactly if that text can be
      read, the result can be written, and no old assignment has an empty key. The application then accepts the new
      text, with exactly the submitted values, if and only if every changed value fits its line. */
  lemma {:induction false} FormThenLoad(t: Table, c: Config, ps: seq<Parameter>, form: Form, config: string,
                                        addMissing: bool)
    requires GoodTable(t) && GoodForm(t, ps) && OffersSupport(ps) && Typed(t, c)
    requires LoadText(t, c, config).Success? && Collect(t.ipv4, ps, form).Updates?
    ensures var ups := Collect(t.ipv4, ps, form).ups;
            var installed := InstalledText(config, ups, addMissing);
            && (installed.Some? <==>
                  |config| <= MAX_CONFIG && Writes(config, ups, addMissing) && KeysNamed(Lines(config)))
            && (installed.Some? ==>
                  var loaded := LoadText(t, c, installed.value);
                  && (loaded.Success? <==> RewritesFit(Lines(config), "", ups))
                  && (loaded.Success? ==>
                        AllTaken(t, ps, form)
                        && HoldsSubmitted(t, ps, form, LoadText(t, c, config).value, loaded.value)))
  {
    hide CollectDescribed, SupportAccepted, SupportValid, InstalledText, LoadLines, Settable, GoodUpdates, GoodForm,
         Writes, RewritesFit, KeysNamed, OffersSupport, AllTaken, HoldsSubmitted, Updated;
    var ups := Collect(t.ipv4, ps, form).ups;
    CollectedGood(t, ps, form);
    SomethingSubmitted(t, ps, form);
    SupportRulesAgree(t, LoadText(t, c, config).value, ps, form);
    InstallThenLoad(t, c, config, ups, addMissing);
    CollectedExactly(t, ps, form);
    var before := LoadText(t, c, config).value;
    UpdatedExactly(t, ps, form, before, Updated(t, before, ups));
  }

  lemma {:induction false} SomethingSubmitted(t: Table, ps: seq<Parameter>, form: Form)
    requires OffersSupport(ps) && CollectDescribed(t.ipv4, ps, form).Updates?
    ensures CollectDescribed(t.ipv4, ps, form).ups != []
  {
    hide CollectDescribed;
    var i :| 0 <= i < |ps| && ps[i].shown && ps[i].section == SUPPORT && ps[i].key == "enabled"
             && ps[i].kind == EnumParameter;
    CollectedAll(t.ipv4, ps, form, i);
  }
}
