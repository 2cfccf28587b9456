/** Decimal printing and the strtol() family, shared by both INI programs and the session file. */
module Decimal {
  import opened Ini

  predicate IsDigit(c: char) { '0' <= c <= '9' }

  predicate AllDigits(s: string) { forall i :: 0 <= i < |s| ==> IsDigit(s[i]) }

  function Digit(d: nat): (c: char)
    requires d < 10
    ensures IsDigit(c) && c as int - '0' as int == d
  {
    '0' + d as char
  }

  /** "%llu" */
  function PrintNat(n: nat): (s: string)
    ensures s != [] && AllDigits(s)
  {
    if n < 10 then [Digit(n)] else PrintNat(n / 10) + [Digit(n % 10)]
  }

  /** "%ld" */
  function PrintInt(n: int): string
  {
    if n < 0 then "-" + PrintNat(-n) else PrintNat(n)
  }

  function ParseDigits(s: string): nat
    requires AllDigits(s)
  {
    if s == [] then 0 else 10 * ParseDigits(s[..|s| - 1]) + (s[|s| - 1] as int - '0' as int)
  }

  lemma {:induction false} ParsePrint(n: nat)
    ensures ParseDigits(PrintNat(n)) == n
  {
    if n >= 10 {
      ParsePrint(n / 10);
      assert PrintNat(n)[..|PrintNat(n)| - 1] == PrintNat(n / 10);
    }
  }

  function Power10(k: nat): (p: nat)
    ensures p >= 1
  {
    if k == 0 then 1 else 10 * Power10(k - 1)
  }

  lemma {:induction false} PrintLength(n: nat, k: nat)
    requires k >= 1 && n < Power10(k)
    ensures |PrintNat(n)| <= k
  {
    if n >= 10 {
      assert k >= 2 by { assert Power10(1) == 10 * Power10(0); }
      PrintLength(n / 10, k - 1);
    }
  }

  /** A number's sign and digits, as strtol() in base ten reads a whole string:
      leading white space, one optional sign, at least one digit, nothing after. */
  datatype Numeral = Malformed | Numeral(negative: bool, magnitude: nat)

  function ReadNumeral(s: string): Numeral
  {
    var t := TrimLeft(s);
    var signed := t != [] && (t[0] == '-' || t[0] == '+');
    var digits := if signed then t[1..] else t;
    if digits != [] && AllDigits(digits)
    then Numeral(signed && t[0] == '-', ParseDigits(digits))
    else Malformed
  }

  function Signed(negative: bool, m: int): int { if negative then -m else m }

  /** strtol() over the whole string. Every caller checks a range inside `long`,
      so a value strtol() clamps is refused either way. */
  function Strtol(s: string): Option<int>
  {
    match ReadNumeral(s)
    case Malformed => None
    case Numeral(negative, m) =>
      Some(Signed(negative, m))
  }

  const ULONG_MODULUS := 0x1_0000_0000_0000_0000

  /** strtoul() over the whole string: too large a magnitude is an error, a minus sign wraps. */
  function Strtoul(s: string): (r: Option<nat>)
    ensures r.Some? ==> r.value < ULONG_MODULUS
  {
    match ReadNumeral(s)
    case Malformed => None
    case Numeral(negative, m) =>
      if m >= ULONG_MODULUS then None
      else Some(if negative && m > 0 then ULONG_MODULUS - m else m)
  }

  lemma ReadPrinted(n: int)
    ensures ReadNumeral(PrintInt(n)) == Numeral(n < 0, if n < 0 then -n else n)
    ensures Bare(PrintInt(n)) && '\n' !in PrintInt(n)
    ensures QUOTE !in PrintInt(n)
  {
    var s := PrintInt(n);
    ParsePrint(if n < 0 then -n else n);
    assert s[0] == '-' || IsDigit(s[0]);
    assert IsDigit(s[|s| - 1]);
    assert Leading(s) == 0;
    if n < 0 { assert s[1..] == PrintNat(-n); }
  }

  /** Printing and reading back is the identity, for both readers. */
  lemma PrintedReadsBack(n: int)
    ensures Strtol(PrintInt(n)) == Some(n)
    ensures 0 <= n < ULONG_MODULUS ==> Strtoul(PrintInt(n)) == Some(n)
  {
    ReadPrinted(n);
  }

  // ---------- what a text of a number says ----------

  predicate AllZeros(s: string) { forall i :: 0 <= i < |s| ==> s[i] == '0' }

  /** White space, a sign, leading zeros and the number without its sign; only zero may have any sign. */
  predicate Spelled(text: string, spaces: string, sign: string, zeros: string, n: int)
  {
    && text == spaces + sign + (zeros + PrintNat(if n < 0 then -n else n))
    && AllSpace(spaces) && AllZeros(zeros) && sign in ["", "+", "-"]
    && (n < 0 ==> sign == "-") && (n > 0 ==> sign != "-")
  }

  /** The text is a numeral for n. */
  ghost predicate Denotes(text: string, n: int)
  {
    exists spaces, sign, zeros :: Spelled(text, spaces, sign, zeros, n)
  }

  lemma {:induction false} ZerosParse(zeros: string, digits: string)
    requires AllZeros(zeros) && AllDigits(digits)
    ensures AllDigits(zeros + digits) && ParseDigits(zeros + digits) == ParseDigits(digits)
  {
    if digits != "" {
      var last := |digits| - 1;
      ZerosParse(zeros, digits[..last]);
      assert (zeros + digits)[..|zeros| + last] == zeros + digits[..last];
    } else if zeros != "" {
      ZerosParse(zeros[..|zeros| - 1], "");
      assert zeros[..|zeros| - 1] + "" == zeros[..|zeros| - 1] && zeros + "" == zeros;
    }
  }

  lemma NoZeros()
    ensures AllZeros("")
  {
  }

  lemma OneZero(zeros: string)
    requires AllZeros(zeros)
    ensures AllZeros(zeros + "0")
  {
  }

  lemma ParseNone()
    ensures ParseDigits("") == 0
  {
  }

  lemma ParseLast(s: string)
    requires s != "" && AllDigits(s)
    ensures ParseDigits(s) == 10 * ParseDigits(s[..|s| - 1]) + (s[|s| - 1] as int - '0' as int)
  {
  }

  lemma PrintDigit(d: nat)
    requires d < 10
    ensures PrintNat(d) == [Digit(d)]
  {
  }

  lemma PrintNext(m: nat, d: nat)
    requires m > 0 && d < 10
    ensures PrintNat(10 * m + d) == PrintNat(m) + [Digit(d)]
  {
  }

  /** Digits are leading zeros and the number they print. */
  lemma {:induction false} DigitsSplit(s: string) returns (zeros: string)
    requires s != "" && AllDigits(s)
    ensures AllZeros(zeros) && s == zeros + PrintNat(ParseDigits(s))
  {
    hide AllZeros, PrintNat, ParseDigits;
    ParseLast(s);
    var front, d := s[..|s| - 1], s[|s| - 1] as int - '0' as int;
    NoZeros();
    assert [s[|s| - 1]] == [Digit(d)];
    if front == "" {
      zeros := "";
      ParseNone();
      PrintDigit(d);
      assert s == [s[0]] && "" + s == s;
    } else {
      zeros := DigitsSplit(front);
      var m := ParseDigits(front);
      assert s == front + [Digit(d)];
      if m == 0 {
        OneZero(zeros);
        PrintDigit(0);
        PrintDigit(d);
        zeros := zeros + "0";
        assert s == zeros + PrintNat(d);
      } else {
        PrintNext(m, d);
        assert s == zeros + (PrintNat(m) + [Digit(d)]);
      }
    }
  }

  /** The sign and the digits of a spelled number. */
  lemma SpelledReads(text: string, spaces: string, sign: string, zeros: string, n: int)
    requires Spelled(text, spaces, sign, zeros, n)
    ensures ReadNumeral(text) == Numeral(sign == "-", if n < 0 then -n else n)
  {
    hide PrintNat, ParseDigits;
    var digits := zeros + PrintNat(if n < 0 then -n else n);
    ZerosParse(zeros, PrintNat(if n < 0 then -n else n));
    ParsePrint(if n < 0 then -n else n);
    assert IsDigit(digits[0]);
    assert text[..|spaces|] == spaces;
    assert text == spaces + (sign + digits);
    assert !IsSpace((sign + digits)[0]);
    LeadingUnique(text, |spaces|);
    assert TrimLeft(text) == sign + digits;
    if sign != "" { assert (sign + digits)[1..] == digits; }
  }

  lemma ReadSpells(text: string) returns (spaces: string, sign: string, zeros: string, n: int)
    requires ReadNumeral(text).Numeral?
    ensures Spelled(text, spaces, sign, zeros, n)
    ensures ReadNumeral(text) == Numeral(sign == "-", if n < 0 then -n else n)
  {
    hide PrintNat, ParseDigits, Leading, AllZeros, AllSpace, TrimLeft, AllDigits, Signed;
    LeftTrimmed(text);
    var t := TrimLeft(text);
    var signed := t != [] && (t[0] == '-' || t[0] == '+');
    var digits := if signed then t[1..] else t;
    spaces, sign := text[..Leading(text)], if signed then [t[0]] else "";
    zeros := DigitsSplit(digits);
    n := Signed(signed && t[0] == '-', ParseDigits(digits));
    SignParts(t, signed, sign, digits);
    SignedIs(signed && t[0] == '-', ParseDigits(digits));
    SpelledOut(text, spaces, sign, zeros, n, digits);
  }

  lemma LeftTrimmed(text: string)
    ensures Leading(text) <= |text| && text == text[..Leading(text)] + TrimLeft(text) && AllSpace(text[..Leading(text)])
  {
    hide Leading, AllSpace;
  }

  lemma SignParts(t: string, signed: bool, sign: string, digits: string)
    requires signed <==> t != [] && (t[0] == '-' || t[0] == '+')
    requires digits == (if signed then t[1..] else t) && sign == if signed then [t[0]] else ""
    ensures t == sign + digits && sign in ["", "+", "-"] && (sign == "-" <==> signed && t[0] == '-')
  {
  }

  lemma SignedIs(negative: bool, m: nat)
    ensures var n := Signed(negative, m);
            (if n < 0 then -n else n) == m && (n < 0 ==> negative) && (n > 0 ==> !negative)
  {
  }

  lemma SpelledOut(text: string, spaces: string, sign: string, zeros: string, n: int, digits: string)
    requires text == spaces + (sign + digits) && digits == zeros + PrintNat(if n < 0 then -n else n)
    requires AllSpace(spaces) && AllZeros(zeros) && sign in ["", "+", "-"]
    requires (n < 0 ==> sign == "-") && (n > 0 ==> sign != "-")
    ensures Spelled(text, spaces, sign, zeros, n)
  {
    hide PrintNat, AllZeros, AllSpace;
    assert spaces + (sign + digits) == spaces + sign + digits;
  }

  /** strtol() takes exactly the numerals, each for its number. */
  lemma StrtolExactly(text: string, n: int)
    ensures Strtol(text) == Some(n) <==> Denotes(text, n)
  {
    hide ReadNumeral, Spelled;
    if Denotes(text, n) {
      var spaces, sign, zeros :| Spelled(text, spaces, sign, zeros, n);
      SpelledReads(text, spaces, sign, zeros, n);
      SignOf(text, spaces, sign, zeros, n);
    }
    if Strtol(text) == Some(n) {
      var spaces, sign, zeros, m := ReadSpells(text);
      SignOf(text, spaces, sign, zeros, m);
    }
  }

  lemma SignOf(text: string, spaces: string, sign: string, zeros: string, n: int)
    requires Spelled(text, spaces, sign, zeros, n)
    ensures Signed(sign == "-", if n < 0 then -n else n) == n
    ensures n < 0 ==> sign == "-"
    ensures n > 0 ==> sign != "-"
  {
  }

  /** strtoul() takes the numerals of magnitude below two to the 64, and wraps negative ones. */
  lemma StrtoulExactly(text: string, n: nat)
    ensures Strtoul(text) == Some(n)
       <==> n < ULONG_MODULUS && (Denotes(text, n) || (n > 0 && Denotes(text, n - ULONG_MODULUS)))
  {
    hide ReadNumeral, Spelled;
    StrtolExactly(text, n);
    StrtolExactly(text, n - ULONG_MODULUS);
  }
}
