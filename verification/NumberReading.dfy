/** What strtol reads: blanks, a sign, the prefix of the base and digits, said of the text itself. */
module NumberReading {
  import opened NumberText

  function DigitOf(c: char): int {
    if c <= '9' then c as int - '0' as int
    else if c <= 'Z' then c as int - 'A' as int + 10
    else c as int - 'a' as int + 10
  }

  /** The value of digits, letters standing for those from ten on. */
  function ValueIn(d: string, base: nat): int {
    if d == [] then 0 else ValueIn(d[..|d| - 1], base) * base + DigitOf(d[|d| - 1])
  }

  ghost predicate DigitIn(c: char, base: nat) {
    ('0' <= c <= '9' || 'a' <= c <= 'z' || 'A' <= c <= 'Z') && DigitOf(c) < base
  }

  lemma {:induction false} DigitInIs(c: char, base: nat)
    requires base <= 36
    ensures DigitIn(c, base) <==> DigitValue(c) < base
    ensures DigitIn(c, base) ==> DigitValue(c) == DigitOf(c)
  {
  }

  ghost predicate Lies(s: string, k: nat, d: string) {
    k + |d| <= |s| && forall j :: 0 <= j < |d| ==> s[k + j] == d[j]
  }

  lemma {:induction false} DigitsRead(s: string, k: nat, d: string, base: nat, j: nat)
    requires Lies(s, k, d) && base <= 36 && j <= |d| && ValueIn(d[..j], base) >= 0
    requires forall i :: 0 <= i < |d| ==> DigitIn(d[i], base)
    requires k + |d| < |s| ==> !DigitIn(s[k + |d|], base)
    ensures ValueIn(d, base) >= 0 && TakeDigits(s, k + j, base, ValueIn(d[..j], base)) == (ValueIn(d, base), k + |d|)
    decreases |d| - j
  {
    hide DigitOf, DigitIn, DigitValue;
    if j < |d| {
      DigitInIs(d[j], base);
      assert d[..j + 1][..j] == d[..j];
      assert s[k + j] == d[j];
      DigitsRead(s, k, d, base, j + 1);
    } else {
      assert d[..j] == d;
      if k + |d| < |s| { DigitInIs(s[k + |d|], base); }
    }
  }

  lemma {:induction false} BlanksRead(s: string, blanks: string, i: nat)
    requires i <= |blanks| && Lies(s, 0, blanks) && forall j :: 0 <= j < |blanks| ==> blanks[j] in {' ', '\t'}
    requires CharAt(s, |blanks|) !in {' ', '\t'}
    ensures SkipBlanks(s, i) == |blanks|
    decreases |blanks| - i
  {
    if i < |blanks| {
      assert s[0 + i] == blanks[i];
      BlanksRead(s, blanks, i + 1);
    }
  }

  /** The prefix with which base asks for digits in base b. */
  ghost predicate Prefixed(prefix: string, base: nat, b: nat) {
    || (prefix == "0x" && base in {0, 16} && b == 16)
    || (prefix == "0" && base == 0 && b == 8)
    || (prefix == "" && base == 0 && b == 10)
    || (prefix == "" && 2 <= base <= 36 && b == base)
  }

  /** No longer prefix could be read in front of the digits. */
  ghost predicate Unmistaken(prefix: string, base: nat, tail: string) {
    && (prefix == "" && base == 0 ==> CharAt(tail, 0) != '0')
    && (prefix == "" && base == 16 ==> !(CharAt(tail, 0) == '0' && CharAt(tail, 1) == 'x'))
    && (prefix == "0" ==> CharAt(tail, 0) != 'x')
  }

  /** strtol skips blanks, takes one sign, finds the base by the prefix, and reads all digits of that base
      up to the first character that is none. */
  lemma {:induction false} StrToLReads(blanks: string, sign: string, prefix: string, d: string, rest: string, base: nat, b: nat)
    requires (forall i :: 0 <= i < |blanks| ==> blanks[i] in {' ', '\t'}) && sign in {"", "+", "-"} && Prefixed(prefix, base, b)
    requires prefix + d != [] && (forall i :: 0 <= i < |d| ==> DigitIn(d[i], b)) && (rest != [] ==> !DigitIn(rest[0], b))
    requires Unmistaken(prefix, base, d + rest)
    ensures var s := blanks + sign + prefix + d + rest;
      StrToL(s, base) == (if sign == "-" then -ValueIn(d, b) else ValueIn(d, b), |s| - |rest|)
  {
    hide ValueIn, TakeDigits, SkipBlanks, DigitIn, StrToL, Lies, Prefixed, Unmistaken, CharAt;
    var s := blanks + sign + prefix + d + rest;
    var j := |blanks| + |sign|;
    var k := j + |prefix|;
    Layout(blanks, sign, prefix, d, rest);
    assert d[..0] == [] && ValueIn([], b) == 0 by { NoDigits(b); }
    FirstPlain(prefix, d, base, b);
    DigitsRead(s, k, d, b, 0);
    BlanksRead(s, blanks, 0);
    Signed(s, base, |blanks|, sign, j);
    PrefixIs(s, base, b, prefix, d, rest, j);
    ReadFrom(s, base, j, k, b, sign == "-");
  }

  lemma {:induction false} NoDigits(base: nat)
    ensures ValueIn([], base) == 0
  {
  }

  /** Where the parts lie, and the characters that are looked at. */
  lemma {:induction false} Layout(blanks: string, sign: string, prefix: string, d: string, rest: string)
    requires prefix + d != []
    ensures var s, j := blanks + sign + prefix + d + rest, |blanks| + |sign|;
      && Lies(s, 0, blanks) && Lies(s, |blanks|, sign) && Lies(s, j + |prefix|, d)
      && j + |prefix| + |d| + |rest| == |s| && (rest != [] ==> s[j + |prefix| + |d|] == rest[0])
      && CharAt(s, |blanks|) == (sign + (prefix + d))[0] && CharAt(s, j) == (prefix + d)[0]
      && CharAt(s, j + 1) == CharAt(prefix + (d + rest), 1)
  {
  }

  lemma {:induction false} FirstPlain(prefix: string, d: string, base: nat, b: nat)
    requires prefix + d != [] && Prefixed(prefix, base, b) && (d != [] ==> DigitIn(d[0], b))
    ensures (prefix + d)[0] !in {' ', '\t', '+', '-'} && base <= 36 && b <= 36
  {
  }

  lemma {:induction false} Signed(s: string, base: nat, i: nat, sign: string, j: nat)
    requires sign in {"", "+", "-"} && Lies(s, i, sign) && j == i + |sign| && CharAt(s, j) !in {'+', '-'}
    ensures j == (if CharAt(s, i) == '+' || CharAt(s, i) == '-' then i + 1 else i) && (sign == "-" <==> CharAt(s, i) == '-')
  {
    if sign != "" { assert s[i + 0] == sign[0]; }
  }

  lemma {:induction false} PrefixIs(s: string, base: nat, b: nat, prefix: string, d: string, rest: string, j: nat)
    requires Prefixed(prefix, base, b) && Unmistaken(prefix, base, d + rest) && prefix + d != []
    requires CharAt(s, j) == (prefix + d)[0] && CharAt(s, j + 1) == CharAt(prefix + (d + rest), 1)
    ensures var hex := (base == 0 || base == 16) && CharAt(s, j) == '0' && CharAt(s, j + 1) == 'x';
      var octal := !hex && base == 0 && CharAt(s, j) == '0';
      && prefix == (if hex then "0x" else if octal then "0" else "")
      && b == if hex then 16 else if octal then 8 else if base == 0 then 10 else base
  {
    if prefix == "" { assert (prefix + d)[0] == (d + rest)[0] && prefix + (d + rest) == d + rest; }
    if prefix == "0" { assert (prefix + (d + rest))[1..] == d + rest; }
  }

  lemma {:induction false} ReadFrom(s: string, base: nat, j: nat, k: nat, b: nat, neg: bool)
    requires base <= 36 && b <= 36 && k <= |s|
    requires var i := SkipBlanks(s, 0);
      (neg <==> CharAt(s, i) == '-') && j == if CharAt(s, i) == '+' || CharAt(s, i) == '-' then i + 1 else i
    requires var hex := (base == 0 || base == 16) && CharAt(s, j) == '0' && CharAt(s, j + 1) == 'x';
      var octal := !hex && base == 0 && CharAt(s, j) == '0';
      k == (if hex then j + 2 else if octal then j + 1 else j) && b == if hex then 16 else if octal then 8 else if base == 0 then 10 else base
    ensures var r := TakeDigits(s, k, b, 0); StrToL(s, base) == (if neg then -(r.0 as int) else r.0 as int, r.1)
  {
    hide TakeDigits, SkipBlanks;
  }
}
