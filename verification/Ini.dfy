/** The INI text shared by the camera application and the web service: one line at a
    time, classified the way both programs classify it, and split the way both split it. */
module Ini {

  datatype Option<+T> = None | Some(value: T)

  // ---------- characters and trimming ----------

  /** isspace() in the C locale: space, and tab through carriage return. */
  predicate IsSpace(c: char) { c == ' ' || '\t' <= c <= '\r' }

  predicate AllSpace(s: string) { forall i :: 0 <= i < |s| ==> IsSpace(s[i]) }

  lemma SpaceCons(c: char, s: string)
    requires IsSpace(c) && AllSpace(s)
    ensures AllSpace([c] + s) && AllSpace(s + [c])
  {
  }

  lemma Spaces()
    ensures AllSpace("") && AllSpace(" ") && AllSpace("\n")
  {
  }

  /** No outer white space. */
  predicate Bare(s: string) { s == [] || (!IsSpace(s[0]) && !IsSpace(s[|s| - 1])) }

  /** How many white-space characters the text starts with. */
  function Leading(s: string): (n: nat)
    ensures n <= |s| && AllSpace(s[..n]) && (n < |s| ==> !IsSpace(s[n]))
  {
    if s == [] || !IsSpace(s[0]) then 0
    else
      var n := 1 + Leading(s[1..]);
      assert s[..n] == [s[0]] + s[1..][..n - 1];
      n
  }

  /** Length of the text without its trailing white space. */
  function Kept(s: string): (n: nat)
    ensures n <= |s| && AllSpace(s[n..]) && (n > 0 ==> !IsSpace(s[n - 1]))
  {
    if s == [] || !IsSpace(s[|s| - 1]) then |s|
    else
      var n := Kept(s[..|s| - 1]);
      assert s[n..] == s[..|s| - 1][n..] + [s[|s| - 1]];
      n
  }

  function TrimLeft(s: string): string { s[Leading(s)..] }

  function TrimRight(s: string): string { s[..Kept(s)] }

  function Trim(s: string): string { TrimRight(TrimLeft(s)) }

  /** Trim() removes exactly the outer white space. */
  lemma TrimParts(s: string) returns (left: string, right: string)
    ensures s == left + Trim(s) + right && AllSpace(left) && AllSpace(right) && Bare(Trim(s))
  {
    var t := TrimLeft(s);
    left, right := s[..Leading(s)], t[Kept(t)..];
    assert Trim(s) != [] ==> Trim(s)[0] == t[0] && t[0] == s[Leading(s)];
    assert t == Trim(s) + right;
  }

  lemma LeadingUnique(s: string, n: nat)
    requires n <= |s| && AllSpace(s[..n]) && (n < |s| ==> !IsSpace(s[n]))
    ensures Leading(s) == n
  {
    hide Leading, IsSpace;
    var m := Leading(s);
    assert forall i :: 0 <= i < n ==> s[..n][i] == s[i];
    assert forall i :: 0 <= i < m ==> s[..m][i] == s[i];
  }

  lemma KeptUnique(s: string, n: nat)
    requires n <= |s| && AllSpace(s[n..]) && (n > 0 ==> !IsSpace(s[n - 1]))
    ensures Kept(s) == n
  {
    hide Kept, IsSpace;
    var m := Kept(s);
    assert forall i :: n <= i < |s| ==> s[i] == s[n..][i - n];
    assert forall i :: m <= i < |s| ==> s[i] == s[m..][i - m];
  }

  /** The trimmed text is the only bare text left between two runs of white space. */
  lemma TrimUnique(left: string, core: string, right: string)
    requires AllSpace(left) && AllSpace(right) && Bare(core)
    ensures Trim(left + core + right) == core
  {
    var s := left + core + right;
    if core == [] {
      LeadingUnique(s, |s|);
    } else {
      assert s[..|left|] == left;
      LeadingUnique(s, |left|);
      var t := core + right;
      assert s[|left|..] == t;
      assert t[|core|..] == right;
      KeptUnique(t, |core|);
      assert t[..|core|] == core;
    }
  }

  lemma TrimPad(left: string, s: string, right: string)
    requires AllSpace(left) && AllSpace(right)
    ensures Trim(left + s + right) == Trim(s)
  {
    hide AllSpace, Trim, Bare;
    var l, r := TrimParts(s);
    assert left + s + right == (left + l) + Trim(s) + (r + right);
    SpaceConcat(left, l);
    SpaceConcat(r, right);
    TrimUnique(left + l, Trim(s), r + right);
  }

  lemma SpaceConcat(a: string, b: string)
    requires AllSpace(a) && AllSpace(b)
    ensures AllSpace(a + b)
  {
    hide IsSpace;
  }

  lemma TrimBare(s: string)
    requires Bare(s)
    ensures Trim(s) == s
  {
    assert [] + s + [] == s;
    TrimUnique([], s, []);
  }

  // ---------- one line ----------

  /** strchr()/memchr(): the first index of c, or the length. */
  function Find(s: string, c: char): (n: nat)
    ensures n <= |s| && c !in s[..n]
    ensures n < |s| ==> s[n] == c
  {
    if s == [] then 0
    else if s[0] == c then 0
    else
      var n := 1 + Find(s[1..], c);
      assert s[..n] == [s[0]] + s[1..][..n - 1];
      n
  }

  lemma FindIs(s: string, c: char, n: nat)
    requires n <= |s| && c !in s[..n] && (n < |s| ==> s[n] == c)
    ensures Find(s, c) == n
  {
  }

  lemma FindAt(a: string, c: char, b: string)
    requires c !in a
    ensures Find(a + [c] + b, c) == |a|
  {
    var s := a + [c] + b;
    var n := Find(s, c);
    assert s[|a|] == c;
  }

  /** What one line says. `OpenHeader` is a '[' without ']'; `Junk` has no '='. */
  datatype Item =
    | Skip
    | Header(name: string, tail: string)
    | OpenHeader
    | Entry(key: string, value: string)
    | Junk

  predicate Marker(c: char) { c == '[' || c == '#' || c == ';' }

  function Classify(line: string): Item { ClassifyText(Trim(line)) }

  /** The same for a line already trimmed. */
  function ClassifyText(t: string): Item
  {
    if t == [] || t[0] == '#' || t[0] == ';' then Skip
    else if t[0] == '[' then
      var c := Find(t[1..], ']');
      if c == |t| - 1 then OpenHeader else Header(Trim(t[1..1 + c]), Trim(t[c + 2..]))
    else
      var e := Find(t, '=');
      if e == |t| then Junk else Entry(Trim(t[..e]), Trim(t[e + 1..]))
  }

  lemma ClassifyPad(left: string, line: string, right: string)
    requires AllSpace(left) && AllSpace(right)
    ensures Classify(left + line + right) == Classify(line)
  {
    TrimPad(left, line, right);
  }

  /** A text before '=' that is a legal start of an assignment. */
  predicate KeyText(key: string) { key == [] || !Marker(key[0]) }

  /** White space at either end of a text stops before a character that is none. */
  lemma SpacesStop(l: string, t: string, r: string, a: string, c: char, b: string)
    requires l + t + r == a + [c] + b && AllSpace(l) && AllSpace(r) && !IsSpace(c)
    ensures |l| <= |a| && |r| <= |b|
    ensures t == a[|l|..] + [c] + b[..|b| - |r|]
    ensures a == l + a[|l|..] && b == b[..|b| - |r|] + r
  {
    var line := l + t + r;
    assert line[|a|] == c;
    assert line == l + (t + r) && line == (l + t) + r;
    assert t == line[|l|..|line| - |r|];
    assert line[..|a|] == a && line[|a| + 1..] == b;
    assert line[..|l|] == l && line[|line| - |r|..] == r;
  }

  /** A text that starts with no white space keeps its first character when trimmed. */
  lemma TrimFirst(s: string)
    requires s != [] && !IsSpace(s[0])
    ensures Trim(s) != [] && Trim(s)[0] == s[0]
  {
    var l, r := TrimParts(s);
    assert l != [] ==> s[0] == l[0];
    assert Trim(s) == [] ==> s == l + r;
  }

  /** Any line with an '=' reads as the trimmed texts around its first '=',
      unless it starts like a header or a comment. */
  lemma ClassifyAssignment(a: string, b: string)
    requires '=' !in a && KeyText(Trim(a))
    ensures Classify(a + "=" + b) == Entry(Trim(a), Trim(b))
  {
    hide Trim, Find, AllSpace;
    var line := a + "=" + b;
    var l, r := TrimParts(line);
    var t := Trim(line);
    SpacesStop(l, t, r, a, '=', b);
    var head, tail := a[|l|..], b[..|b| - |r|];
    assert Trim(head) == Trim(a) by { assert l + head + [] == a; Spaces(); TrimPad(l, head, []); }
    assert Trim(tail) == Trim(b) by { assert [] + tail + r == b; Spaces(); TrimPad([], tail, r); }
    FindAt(head, '=', tail);
    assert t[..|head|] == head && t[|head| + 1..] == tail;
    if head != [] { assert head[0] == t[0]; TrimFirst(head); }
  }

  /** The converse: where an assignment line splits. */
  lemma EntrySplit(line: string) returns (a: string, b: string)
    requires Classify(line).Entry?
    ensures line == a + "=" + b && '=' !in a && a == line[..Find(line, '=')]
    ensures Find(line, '=') < |line|
    ensures Classify(line) == Entry(Trim(a), Trim(b)) && KeyText(Trim(a))
  {
    hide Find, Trim, AllSpace;
    var t := Trim(line);
    var l, r := TrimParts(line);
    var e := Find(t, '=');
    var head, tail := t[..e], t[e + 1..];
    a, b := l + head, tail + r;
    assert t == head + "=" + tail;
    assert line == a + "=" + b;
    SpacesAreNot(l, '=');
    FindAt(a, '=', b);
    assert Trim(a) == Trim(head) by { assert l + head + [] == a; Spaces(); TrimPad(l, head, []); }
    assert Trim(b) == Trim(tail) by { assert [] + tail + r == b; Spaces(); TrimPad([], tail, r); }
    if head != [] { assert head[0] == t[0]; TrimFirst(head); } else { assert head == []; TrimBare(head); }
  }

  lemma SpacesAreNot(s: string, c: char)
    requires AllSpace(s) && !IsSpace(c)
    ensures c !in s
  {
  }

  /** A header line without text after its ']'. */
  lemma ClassifyHeader(name: string, right: string)
    requires ']' !in name && AllSpace(right)
    ensures Classify("[" + name + "]" + right) == Header(Trim(name), "")
  {
    hide Trim, Leading, Kept;
    var core := "[" + name + "]";
    assert [] + core + right == core + right;
    assert !IsSpace(core[0]) && !IsSpace(core[|core| - 1]);
    TrimUnique([], core, right);
    FindAt(name, ']', []);
    assert core[1..] == name + "]" + [];
    assert core[1..1 + |name|] == name;
    assert core[|name| + 2..] == [];
    TrimBare([]);
  }

  // ---------- text as lines ----------

  /** One raw line: its '\n', if any, is its last character. */
  predicate IsLine(l: string) { l != [] && '\n' !in l[..|l| - 1] }

  predicate Ended(l: string) { l != [] && l[|l| - 1] == '\n' }

  /** The line without its newline. */
  function Body(l: string): string { if Ended(l) then l[..|l| - 1] else l }

  function Complete(l: string): string { if Ended(l) then l else l + "\n" }

  function Flatten(ls: seq<string>): string { if ls == [] then [] else ls[0] + Flatten(ls[1..]) }

  /** Length of the first raw line: through the first newline, or all. */
  function LineLength(text: string): (n: nat)
    requires text != []
    ensures 0 < n <= |text| && IsLine(text[..n]) && (n < |text| ==> Ended(text[..n]))
  {
    var n := Find(text, '\n');
    if n == |text| then n else
      assert text[..n + 1][..n] == text[..n];
      n + 1
  }

  function Lines(text: string): seq<string>
  {
    if text == [] then [] else
      var n := LineLength(text);
      [text[..n]] + Lines(text[n..])
  }

  /** Raw lines as getline() hands them out: only the last may lack its newline. */
  predicate WellSplit(ls: seq<string>)
  {
    ls == [] || (IsLine(ls[0]) && (|ls| > 1 ==> Ended(ls[0])) && WellSplit(ls[1..]))
  }

  lemma {:induction false} LinesFlatten(text: string)
    ensures Flatten(Lines(text)) == text && WellSplit(Lines(text))
  {
    if text != [] {
      var n := LineLength(text);
      LinesFlatten(text[n..]);
      assert Lines(text) == [text[..n]] + Lines(text[n..]);
      assert Lines(text)[1..] == Lines(text[n..]);
      assert text == text[..n] + text[n..];
    }
  }

  lemma FirstLine(l: string, rest: string)
    requires IsLine(l) && (rest == "" || Ended(l))
    ensures LineLength(l + rest) == |l|
  {
    hide Find;
    var body := l[..|l| - 1];
    if Ended(l) {
      assert l + rest == body + "\n" + rest;
      FindAt(body, '\n', rest);
    } else {
      assert l + rest == l && l == body + [l[|l| - 1]];
    }
  }

  lemma {:induction false} FlattenLines(ls: seq<string>)
    requires WellSplit(ls)
    ensures Lines(Flatten(ls)) == ls
  {
    hide IsLine, Ended, LineLength;
    if ls != [] {
      var l, rest := ls[0], Flatten(ls[1..]);
      FlattenLines(ls[1..]);
      FirstLine(l, rest);
      assert l != "" by { LineNonempty(l); }
      assert (l + rest)[..|l|] == l && (l + rest)[|l|..] == rest;
      assert ls == [l] + ls[1..];
    }
  }

  lemma LineNonempty(l: string)
    requires IsLine(l)
    ensures l != ""
  {
  }

  lemma {:induction false} FlattenConcat(a: seq<string>, b: seq<string>)
    ensures Flatten(a + b) == Flatten(a) + Flatten(b)
  {
    if a == [] {
      assert a + b == b;
    } else {
      assert (a + b)[1..] == a[1..] + b;
      FlattenConcat(a[1..], b);
    }
  }

  lemma FlattenCons(l: string, ls: seq<string>)
    ensures Flatten([l] + ls) == l + Flatten(ls)
  {
    assert ([l] + ls)[1..] == ls;
  }

  lemma BlankLineReads()
    ensures Classify("\n") == Skip && IsLine("\n") && Ended("\n")
  {
    assert [] + [] + "\n" == "\n";
    TrimUnique([], [], "\n");
  }

  lemma ClassifyComplete(l: string)
    ensures Classify(Complete(l)) == Classify(l)
    ensures Classify(Body(l)) == Classify(l)
  {
    hide Classify, AllSpace;
    Spaces();
    assert [] + l + "\n" == l + "\n";
    ClassifyPad([], l, "\n");
    if Ended(l) {
      assert [] + Body(l) + "\n" == l;
      ClassifyPad([], Body(l), "\n");
    }
  }

  lemma CompleteIsLine(l: string)
    requires IsLine(l)
    ensures IsLine(Complete(l)) && Ended(Complete(l))
    ensures Complete(Complete(l)) == Complete(l)
  {
    if !Ended(l) { assert Complete(l)[..|l|] == l && l == l[..|l| - 1] + [l[|l| - 1]]; }
  }

  // ---------- what a key's lines are ----------

  /** How a program follows section headers: the application's editor leaves every section
      at a header without ']', the web service ignores such a line and cuts long names. */
  datatype Reader = Editor | Web

  const WEB_SECTION_MAX := 79

  function Cut(name: string): string
  {
    if |name| > WEB_SECTION_MAX then name[..WEB_SECTION_MAX] else name
  }

  function NextSection(r: Reader, section: Option<string>, item: Item): Option<string>
  {
    match item
    case Header(name, _) => Some(if r.Web? then Cut(name) else name)
    case OpenHeader => if r.Web? then section else None
    case _ => section
  }

  function LastSection(r: Reader, ls: seq<string>, section: Option<string>): Option<string>
  {
    if ls == [] then section
    else LastSection(r, ls[1..], NextSection(r, section, Classify(ls[0])))
  }

  predicate Assigns(line: string, section: Option<string>, s: string, k: string)
  {
    Classify(line).Entry? && section == Some(s) && Classify(line).key == k
  }

  /** The raw values the lines give to key k of section s, in order. */
  function Values(r: Reader, ls: seq<string>, section: Option<string>, s: string, k: string): seq<string>
  {
    if ls == [] then []
    else
      (if Assigns(ls[0], section, s, k) then [Classify(ls[0]).value] else [])
      + Values(r, ls[1..], NextSection(r, section, Classify(ls[0])), s, k)
  }

  lemma ValuesCons(r: Reader, l: string, ls: seq<string>, section: Option<string>, s: string, k: string)
    ensures Values(r, [l] + ls, section, s, k)
         == (if Assigns(l, section, s, k) then [Classify(l).value] else [])
            + Values(r, ls, NextSection(r, section, Classify(l)), s, k)
  {
    hide Classify;
    assert ([l] + ls)[1..] == ls;
  }

  lemma ValuesNone(r: Reader, section: Option<string>, s: string, k: string)
    ensures Values(r, [], section, s, k) == []
  {
  }

  lemma LastCons(r: Reader, l: string, ls: seq<string>, section: Option<string>)
    ensures LastSection(r, [l] + ls, section) == LastSection(r, ls, NextSection(r, section, Classify(l)))
  {
    hide Classify;
    assert ([l] + ls)[1..] == ls;
  }

  lemma LastNone(r: Reader, section: Option<string>)
    ensures LastSection(r, [], section) == section
  {
  }

  lemma {:induction false} ValuesConcat(r: Reader, a: seq<string>, b: seq<string>,
                                        section: Option<string>, s: string, k: string)
    ensures Values(r, a + b, section, s, k)
         == Values(r, a, section, s, k) + Values(r, b, LastSection(r, a, section), s, k)
    ensures LastSection(r, a + b, section) == LastSection(r, b, LastSection(r, a, section))
  {
    hide Classify, Assigns, NextSection, Values, LastSection;
    if a == [] {
      assert a + b == b;
      ValuesNone(r, section, s, k);
      LastNone(r, section);
    } else {
      var next := NextSection(r, section, Classify(a[0]));
      ValuesConcat(r, a[1..], b, next, s, k);
      assert a == [a[0]] + a[1..] && a + b == [a[0]] + (a[1..] + b);
      ValuesCons(r, a[0], a[1..], section, s, k);
      ValuesCons(r, a[0], a[1..] + b, section, s, k);
      LastCons(r, a[0], a[1..], section);
      LastCons(r, a[0], a[1..] + b, section);
    }
  }

  const QUOTE: char := '"'

  /** Values of this section keep their outer white space inside quotes. */
  const SUPPORT := "support_proxy"

  /** Both readers drop one pair of outer quotes from a trimmed value. */
  function Unquote(section: string, v: string): string
  {
    if |v| >= 2 && v[0] == QUOTE && v[|v| - 1] == QUOTE then
      var inner := v[1..|v| - 1];
      if section == SUPPORT then inner else Trim(inner)
    else v
  }

  function UnquoteAll(section: string, vs: seq<string>): (r: seq<string>)
    ensures |r| == |vs|
  {
    if vs == [] then [] else [Unquote(section, vs[0])] + UnquoteAll(section, vs[1..])
  }

  lemma UnquoteCons(section: string, v: string, vs: seq<string>)
    ensures UnquoteAll(section, [v] + vs) == [Unquote(section, v)] + UnquoteAll(section, vs)
  {
    hide Unquote;
    assert ([v] + vs)[1..] == vs;
  }

  lemma UnquoteNone(section: string)
    ensures UnquoteAll(section, []) == []
  {
  }

  /** A value a section can hold inside quotes. */
  predicate Quotable(section: string, v: string)
  {
    '\n' !in v && (section == SUPPORT || Bare(v))
  }

  lemma UnquoteQuoted(section: string, v: string)
    requires Quotable(section, v)
    ensures Unquote(section, "\"" + v + "\"") == v
  {
    var q := "\"" + v + "\"";
    assert q[1..|q| - 1] == v;
    if section != SUPPORT { TrimBare(v); }
  }
}
