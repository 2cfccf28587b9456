/** The web service's loops over the submitted settings form. */
module FormService {
  import opened Ini
  import opened Decimal
  import opened AppConfig
  import opened WebIni
  import opened WebForm

  /** valid_text_parameter(): one loop for the support proxy's texts and one for the others. */
  method ValidTextParameter(ipv4: string -> bool, p: Parameter, text: string) returns (ok: bool)
    ensures ok == ValidText(ipv4, p, text)
  {
    hide Find, Strtol, IsSpace;
    if |text| < p.minimum || |text| > p.maximum { return false; }
    if p.section == SUPPORT {
      for i := 0 to |text|
        invariant forall j :: 0 <= j < i ==>
                    Printable(text[j]) && (p.key == "host" || p.key == "network_interface" ==> HostChar(text[j]))
      {
        if text[i] < ' ' || text[i] > '~' || text[i] == QUOTE { return false; }
        if (p.key == "host" || p.key == "network_interface") && !IsAlnum(text[i]) && text[i] != '.' && text[i] != '-'
           && text[i] != '_' { return false; }
      }
      if text != "" && p.key == "network_gateway" { return ipv4(text); }
      if text != "" && p.key == "network_address" {
        if |text| >= 32 { return false; }
        var slash := Find(text, '/');
        if slash == |text| { return false; }
        var prefix := Strtol(text[slash + 1..]);
        return prefix.Some? && 1 <= prefix.value <= 32 && ipv4(text[..slash]);
      }
      return true;
    }
    for i := 0 to |text|
      invariant forall j :: 0 <= j < i ==> !IsControl(text[j]) && !IsSpace(text[j])
    {
      if IsControl(text[i]) || IsSpace(text[i]) { return false; }
    }
    return true;
  }

  /** Updates collected earlier, and then these. */
  function Preceded(ups: seq<Update>, more: Collected): Collected
  {
    match more
    case Invalid => Invalid
    case Updates(rest) => Updates(ups + rest)
  }

  /** One row of the form. */
  lemma CollectStep(ipv4: string -> bool, ps: seq<Parameter>, form: Form, ups: seq<Update>)
    requires ps != []
    ensures var p, more := ps[0], CollectDescribed(ipv4, ps[1..], form);
            var v := form(p.formName);
            Preceded(ups, CollectDescribed(ipv4, ps, form))
              == if !p.shown then Preceded(ups, more)
                 else if v.None? || Normalized(ipv4, p, v.value).None? then Invalid
                 else Preceded(ups + [Update(p.section, p.key, Normalized(ipv4, p, v.value).value)], more)
  {
    hide Normalized;
    var more := CollectDescribed(ipv4, ps[1..], form);
    var v := form(ps[0].formName);
    if ps[0].shown && v.Some? && Normalized(ipv4, ps[0], v.value).Some? && more.Updates? {
      var u := Update(ps[0].section, ps[0].key, Normalized(ipv4, ps[0], v.value).value);
      assert ups + ([u] + more.ups) == ups + [u] + more.ups;
    }
  }

  /** collect_described_parameters(): the rows in order, into an array of `capacity` updates. */
  method CollectDescribedParameters(ipv4: string -> bool, ps: seq<Parameter>, form: Form, capacity: nat)
    returns (ok: bool, updates: seq<Update>)
    ensures ok <==> CollectDescribed(ipv4, ps, form).Updates? && |CollectDescribed(ipv4, ps, form).ups| <= capacity
    ensures ok ==> updates == CollectDescribed(ipv4, ps, form).ups
  {
    hide Normalized, CollectDescribed;
    updates := [];
    ghost var whole := CollectDescribed(ipv4, ps, form);
    assert ps[0..] == ps && whole == Preceded([], whole);
    for i := 0 to |ps|
      invariant whole == Preceded(updates, CollectDescribed(ipv4, ps[i..], form)) && |updates| <= capacity
    {
      var p := ps[i];
      assert ps[i..][0] == p && ps[i..][1..] == ps[i + 1..];
      CollectStep(ipv4, ps[i..], form, updates);
      if p.shown {
        var v := form(p.formName);
        if v.None? { return false, []; }
        var normalized := Normalized(ipv4, p, v.value);
        if normalized.None? || |updates| >= capacity { return false, []; }
        updates := updates + [Update(p.section, p.key, normalized.value)];
      }
    }
    CollectedNone(ipv4, ps[|ps|..], form);
    return true, updates;
  }

  lemma CollectedNone(ipv4: string -> bool, ps: seq<Parameter>, form: Form)
    requires ps == []
    ensures CollectDescribed(ipv4, ps, form) == Updates([])
  {
  }

  lemma SupportTextStep(ups: seq<Update>, u: Update, key: string, absent: string)
    ensures SupportText(ups + [u], key, absent)
         == if u.section == SUPPORT && u.key == key then u.value else SupportText(ups, key, absent)
  {
    assert (ups + [u])[..|ups|] == ups;
  }

  /** The eight texts the rule looks at, with the defaults the C code starts from. */
  datatype Support = Support(enabled: string, host: string, signing: string, passphrase: string,
                             port1: string, port2: string, name1: string, name2: string)

  function SupportOf(ups: seq<Update>): Support
  {
    Support(SupportText(ups, "enabled", "false"), SupportText(ups, "host", ""),
            SupportText(ups, "signing", "false"), SupportText(ups, "signing_passphrase", ""),
            SupportText(ups, "video1_port", "0"), SupportText(ups, "video2_port", "0"),
            SupportText(ups, "video1_name", ""), SupportText(ups, "video2_name", ""))
  }

  function Overwritten(s: Support, u: Update): Support
  {
    if u.section != SUPPORT then s
    else if u.key == "enabled" then s.(enabled := u.value)
    else if u.key == "host" then s.(host := u.value)
    else if u.key == "signing" then s.(signing := u.value)
    else if u.key == "signing_passphrase" then s.(passphrase := u.value)
    else if u.key == "video1_port" then s.(port1 := u.value)
    else if u.key == "video2_port" then s.(port2 := u.value)
    else if u.key == "video1_name" then s.(name1 := u.value)
    else if u.key == "video2_name" then s.(name2 := u.value)
    else s
  }

  /** Each update overwrites its setting, whatever came before. */
  lemma SupportOfStep(ups: seq<Update>, u: Update)
    ensures SupportOf(ups + [u]) == Overwritten(SupportOf(ups), u)
  {
    hide SupportText;
    SupportTextStep(ups, u, "enabled", "false");
    SupportTextStep(ups, u, "host", "");
    SupportTextStep(ups, u, "signing", "false");
    SupportTextStep(ups, u, "signing_passphrase", "");
    SupportTextStep(ups, u, "video1_port", "0");
    SupportTextStep(ups, u, "video2_port", "0");
    SupportTextStep(ups, u, "video1_name", "");
    SupportTextStep(ups, u, "video2_name", "");
  }

  /** The loop over the collected updates. */
  method ReadSupport(updates: seq<Update>) returns (s: Support)
    ensures s == SupportOf(updates)
  {
    hide SupportOf, Overwritten;
    s := Support("false", "", "false", "", "0", "0", "", "");
    NoSupport();
    for i := 0 to |updates|
      invariant s == SupportOf(updates[..i])
    {
      assert updates[..i + 1] == updates[..i] + [updates[i]];
      SupportOfStep(updates[..i], updates[i]);
      s := Overwritten(s, updates[i]);
    }
    assert updates[..|updates|] == updates;
  }

  lemma NoSupport()
    ensures forall ups :: ups == [] ==> SupportOf(ups) == Support("false", "", "false", "", "0", "0", "", "")
  {
  }

  /** collect_replacement_parameter_updates(): the rows, then the rule across the support proxy's settings. */
  method CollectReplacementUpdates(ipv4: string -> bool, ps: seq<Parameter>, form: Form, capacity: nat)
    returns (ok: bool, updates: seq<Update>)
    ensures ok <==> Collect(ipv4, ps, form).Updates? && |Collect(ipv4, ps, form).ups| <= capacity
    ensures ok ==> updates == Collect(ipv4, ps, form).ups
  {
    hide CollectDescribed, SupportText;
    ok, updates := CollectDescribedParameters(ipv4, ps, form, capacity);
    if !ok { return; }
    var s := ReadSupport(updates);
    if s.enabled == "true" {
      if s.host == "" { return false, updates; }
      if s.signing == "true" && s.passphrase == "" { return false, updates; }
      if s.port1 != "0" && s.name1 == "" { return false, updates; }
      if s.port2 != "0" && s.name2 == "" { return false, updates; }
      if s.port1 != "0" && s.port1 == s.port2 { return false, updates; }
    }
  }
}
