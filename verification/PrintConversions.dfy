/** What every conversion of a format puts, for all flags, fields and arguments, said of the format's own
    characters: without the scan, the conversions or printnum. */
module PrintConversions {
  import opened Wrappers
  import opened NumberText
  import opened NumberReading
  import opened PrintFmt

  // ---------- Escapes as they are written ----------

  /** A width or precision: none, decimal digits that do not start with 0, or a star. */
  datatype Number = Absent | Written(digits: string) | Starred

  datatype Escape = Escape(alt: bool, flag: string, width: Number, precision: Number, long: nat, conv: char)

  ghost predicate WellWritten(n: Number) {
    n.Written? ==> n.digits != [] && n.digits[0] != '0' && forall i :: 0 <= i < |n.digits| ==> '0' <= n.digits[i] <= '9'
  }

  ghost predicate WellFormed(e: Escape) {
    e.flag in {"", "0", "-"} && WellWritten(e.width) && WellWritten(e.precision) && e.conv in "cesduopx%"
  }

  function NumberOf(n: Number): string {
    match n
    case Absent => ""
    case Written(digits) => digits
    case Starred => "*"
  }

  function PrecisionOf(n: Number): string {
    if n.Absent? then "" else "." + NumberOf(n)
  }

  function AltOf(e: Escape): string {
    if e.alt then "#" else ""
  }

  /** The escape in characters, such as "%#08.3lx". */
  function Text(e: Escape): string {
    "%" + (AltOf(e) + (e.flag + (NumberOf(e.width) + TailOf(e))))
  }

  function TailOf(e: Escape): string {
    PrecisionOf(e.precision) + (Repeat('l', e.long) + [e.conv])
  }

  /** The value of decimal digits. */
  function Decimal(d: string): (n: int) {
    if d == [] then 0 else Decimal(d[..|d| - 1]) * 10 + (d[|d| - 1] as int - '0' as int)
  }

  /** The value of a field; -1 for none. */
  function ValueOf(n: Number, args: seq<Arg>): int {
    match n
    case Absent => -1
    case Written(digits) => Decimal(digits)
    case Starred => Int32(BitsOf(args))
  }

  function After(n: Number, args: seq<Arg>): seq<Arg> {
    if n.Starred? then Rest(args) else args
  }

  function Width(e: Escape, args: seq<Arg>): int {
    Max(0, ValueOf(e.width, args))
  }

  function Precision(e: Escape, args: seq<Arg>): int {
    ValueOf(e.precision, After(e.width, args))
  }

  /** The arguments that the stars leave: the first of them is converted. */
  function Converted(e: Escape, args: seq<Arg>): seq<Arg> {
    After(e.precision, After(e.width, args))
  }

  function Padding(e: Escape): char {
    if e.flag == "0" then '0' else if e.flag == "-" then '-' else ' '
  }

  // ---------- The scan of an escape ----------

  ghost predicate At(fmt: string, i: nat, t: string) {
    i + |t| <= |fmt| && fmt[i..i + |t|] == t
  }

  lemma {:induction false} AtSplit(fmt: string, i: nat, s: string, t: string)
    requires At(fmt, i, s + t)
    ensures At(fmt, i, s) && At(fmt, i + |s|, t)
  {
    var u := s + t;
    assert fmt[i..i + |u|] == u;
    assert s == u[..|s|] == fmt[i..i + |s|];
    assert t == u[|s|..] == fmt[i + |s|..i + |u|];
  }

  lemma {:induction false} AtHead(fmt: string, i: nat, t: string)
    requires At(fmt, i, t) && t != []
    ensures i < |fmt| && fmt[i] == t[0] && CharAt(fmt, i) == t[0]
  {
    assert fmt[i..i + |t|][0] == t[0];
  }

  lemma {:induction false} FieldReads(fmt: string, i: nat, d: string, j: nat)
    requires At(fmt, i, d) && j <= |d| && Decimal(d[..j]) >= 0
    requires forall k :: 0 <= k < |d| ==> '0' <= d[k] <= '9'
    requires !IsDigit(CharAt(fmt, i + |d|))
    ensures Decimal(d) >= 0 && Field(fmt, i + j, Decimal(d[..j])) == (Decimal(d), i + |d|)
    decreases |d| - j
  {
    if j < |d| {
      assert fmt[i..i + |d|][j] == d[j];
      assert d[..j + 1][..j] == d[..j];
      FieldReads(fmt, i, d, j + 1);
    } else {
      assert d[..j] == d;
    }
  }

  lemma {:induction false} ScanNumber(fmt: string, i: nat, n: Number, spec: Spec, args: seq<Arg>)
    requires WellWritten(n) && !n.Absent? && At(fmt, i, NumberOf(n)) && !IsDigit(CharAt(fmt, i + |NumberOf(n)|))
    ensures Scan(fmt, i, spec, args) == Scan(fmt, i + |NumberOf(n)|, WithNumber(spec, ValueOf(n, args)), After(n, args))
    ensures n.Written? ==> ValueOf(n, args) >= 0
  {
    hide Field, Int32, BitsOf, WithNumber;
    AtHead(fmt, i, NumberOf(n));
    if n.Written? {
      assert n.digits[..0] == [] && Decimal([]) == 0;
      FieldReads(fmt, i, n.digits, 0);
    }
  }

  lemma {:induction false} ScanLongs(fmt: string, i: nat, n: nat, spec: Spec, args: seq<Arg>)
    requires At(fmt, i, Repeat('l', n))
    ensures Scan(fmt, i, spec, args) == Scan(fmt, i + n, spec.(lflag := spec.lflag + n), args)
  {
    hide Scan, At;
    if n > 0 {
      AtSplit(fmt, i, Repeat('l', n - 1), "l");
      AtHead(fmt, i + n - 1, "l");
      ScanLongs(fmt, i, n - 1, spec, args);
      ScanLong(fmt, i + n - 1, spec.(lflag := spec.lflag + n - 1), args);
    }
  }

  lemma {:induction false} ScanLong(fmt: string, i: nat, spec: Spec, args: seq<Arg>)
    requires i < |fmt| && fmt[i] == 'l'
    ensures Scan(fmt, i, spec, args) == Scan(fmt, i + 1, spec.(lflag := spec.lflag + 1), args)
  {
  }

  lemma {:induction false} ScanAlt(fmt: string, i: nat, alt: bool, spec: Spec, args: seq<Arg>)
    requires At(fmt, i, if alt then "#" else "") && !spec.alt
    ensures Scan(fmt, i, spec, args) == Scan(fmt, if alt then i + 1 else i, spec.(alt := alt), args)
  {
    if alt { AtHead(fmt, i, "#"); }
  }

  lemma {:induction false} ScanFlag(fmt: string, i: nat, e: Escape, spec: Spec, args: seq<Arg>)
    requires e.flag in {"", "0", "-"} && At(fmt, i, e.flag) && spec.padc == ' '
    ensures Scan(fmt, i, spec, args) == Scan(fmt, i + |e.flag|, spec.(padc := Padding(e)), args)
  {
    if e.flag != "" { AtHead(fmt, i, e.flag); }
  }

  lemma {:induction false} ScanWidth(fmt: string, i: nat, n: Number, spec: Spec, args: seq<Arg>)
    requires WellWritten(n) && At(fmt, i, NumberOf(n)) && !IsDigit(CharAt(fmt, i + |NumberOf(n)|))
    requires spec.width == -1 && spec.precision == -1
    ensures Scan(fmt, i, spec, args) == Scan(fmt, i + |NumberOf(n)|, spec.(width := ValueOf(n, args)), After(n, args))
  {
    hide Scan;
    if !n.Absent? { ScanNumber(fmt, i, n, spec, args); }
  }

  lemma {:induction false} ScanDot(fmt: string, i: nat, spec: Spec, args: seq<Arg>)
    requires i < |fmt| && fmt[i] == '.'
    ensures Scan(fmt, i, spec, args) == Scan(fmt, i + 1, spec.(width := Max(0, spec.width)), args)
  {
  }

  lemma {:induction false} WidthSet(spec: Spec, n: int)
    requires spec.precision == -1
    ensures WithNumber(spec.(width := Max(0, spec.width)), n) == spec.(width := Max(0, spec.width), precision := n)
  {
  }

  lemma {:induction false} ScanPrecision(fmt: string, i: nat, n: Number, spec: Spec, args: seq<Arg>)
    requires WellWritten(n) && At(fmt, i, PrecisionOf(n)) && !IsDigit(CharAt(fmt, i + |PrecisionOf(n)|))
    requires spec.precision == -1
    ensures Scan(fmt, i, spec, args) == Scan(fmt, i + |PrecisionOf(n)|,
      spec.(width := if n.Absent? then spec.width else Max(0, spec.width), precision := ValueOf(n, args)), After(n, args))
  {
    hide Scan, IsDigit, WellWritten, CharAt, WithNumber;
    if !n.Absent? {
      WidthSet(spec, ValueOf(n, args));
      AtSplit(fmt, i, ".", NumberOf(n));
      AtHead(fmt, i, ".");
      ScanDot(fmt, i, spec, args);
      ScanNumber(fmt, i + 1, n, spec.(width := Max(0, spec.width)), args);
    }
  }

  function SpecOf(e: Escape, args: seq<Arg>): Spec {
    Spec(Padding(e), if e.precision.Absent? then ValueOf(e.width, args) else Width(e, args), Precision(e, args), e.long, e.alt)
  }

  /** What follows a width or a precision starts with no digit. */
  lemma {:induction false} TailHeads(e: Escape)
    requires WellFormed(e)
    ensures var t := Repeat('l', e.long) + [e.conv]; !IsDigit(t[0]) && !IsDigit((PrecisionOf(e.precision) + t)[0])
  {
  }

  /** The pieces of an escape lie behind each other. */
  lemma {:induction false} PiecesAt(fmt: string, i: nat, e: Escape)
    requires At(fmt, i, Text(e))
    ensures var i2 := i + 1 + |AltOf(e)|;
      var i3 := i2 + |e.flag|;
      var i4 := i3 + |NumberOf(e.width)|;
      At(fmt, i, "%") && At(fmt, i + 1, AltOf(e)) && At(fmt, i2, e.flag) && At(fmt, i3, NumberOf(e.width)) && At(fmt, i4, TailOf(e))
  {
    hide At, AltOf, NumberOf, TailOf;
    var t3 := NumberOf(e.width) + TailOf(e);
    var t2 := e.flag + t3;
    AtSplit(fmt, i, "%", AltOf(e) + t2);
    AtSplit(fmt, i + 1, AltOf(e), t2);
    var i2 := i + 1 + |AltOf(e)|;
    AtSplit(fmt, i2, e.flag, t3);
    AtSplit(fmt, i2 + |e.flag|, NumberOf(e.width), TailOf(e));
  }

  lemma {:induction false} TailPieces(fmt: string, i: nat, e: Escape)
    requires WellFormed(e) && At(fmt, i, TailOf(e))
    ensures var j := i + |PrecisionOf(e.precision)|;
      At(fmt, i, PrecisionOf(e.precision)) && !IsDigit(CharAt(fmt, i)) && !IsDigit(CharAt(fmt, j))
      && At(fmt, j, Repeat('l', e.long)) && At(fmt, j + e.long, [e.conv])
  {
    hide Repeat, At, IsDigit, WellFormed, CharAt;
    var t5 := Repeat('l', e.long) + [e.conv];
    AtSplit(fmt, i, PrecisionOf(e.precision), t5);
    AtSplit(fmt, i + |PrecisionOf(e.precision)|, Repeat('l', e.long), [e.conv]);
    TailHeads(e);
    AtHead(fmt, i, PrecisionOf(e.precision) + t5);
    AtHead(fmt, i + |PrecisionOf(e.precision)|, t5);
  }

  /** The scan takes an escape apart as it is written. */
  lemma {:induction false} ScanEscape(fmt: string, i: nat, e: Escape, args: seq<Arg>)
    requires WellFormed(e) && At(fmt, i, Text(e))
    ensures At(fmt, i, "%")
    ensures Scan(fmt, i + 1, NoFlags, args) == Scanned(e.conv, i + |Text(e)| - 1, SpecOf(e, args), Converted(e, args))
  {
    hide Scan, Repeat, IsDigit, WellWritten, CharAt, At, SpecOf, Converted;
    PiecesAt(fmt, i, e);
    var i2 := i + 1 + |AltOf(e)|;
    var i3 := i2 + |e.flag|;
    var i4 := i3 + |NumberOf(e.width)|;
    TailPieces(fmt, i4, e);
    ScanAlt(fmt, i + 1, e.alt, NoFlags, args);
    ScanFlag(fmt, i2, e, NoFlags.(alt := e.alt), args);
    ScanWidth(fmt, i3, e.width, NoFlags.(alt := e.alt, padc := Padding(e)), args);
    ScanRest(fmt, i4, e, args, SpecOf(e, args));
  }

  lemma {:induction false} ScanRest(fmt: string, i4: nat, e: Escape, args: seq<Arg>, spec: Spec)
    requires WellFormed(e) && spec == SpecOf(e, args)
    requires At(fmt, i4, PrecisionOf(e.precision)) && !IsDigit(CharAt(fmt, i4 + |PrecisionOf(e.precision)|))
    requires At(fmt, i4 + |PrecisionOf(e.precision)|, Repeat('l', e.long))
    requires At(fmt, i4 + |PrecisionOf(e.precision)| + e.long, [e.conv])
    ensures Scan(fmt, i4, NoFlags.(alt := e.alt, padc := Padding(e), width := ValueOf(e.width, args)), After(e.width, args))
      == Scanned(e.conv, i4 + |PrecisionOf(e.precision)| + e.long, spec, Converted(e, args))
  {
    hide Scan, Repeat, IsDigit, WellWritten, CharAt, At;
    var i5 := i4 + |PrecisionOf(e.precision)|;
    ScanPrecision(fmt, i4, e.precision, NoFlags.(alt := e.alt, padc := Padding(e), width := ValueOf(e.width, args)), After(e.width, args));
    ScanLongs(fmt, i5, e.long, spec.(lflag := 0), Converted(e, args));
    ScanConv(fmt, i5 + e.long, e.conv, spec, Converted(e, args));
  }

  lemma {:induction false} ScanConv(fmt: string, i: nat, c: char, spec: Spec, args: seq<Arg>)
    requires At(fmt, i, [c]) && c in "cesduopx%"
    ensures Scan(fmt, i, spec, args) == Scanned(c, i, spec, args)
  {
    AtHead(fmt, i, [c]);
  }

  lemma {:induction false} EscapePuts(fmt: string, i: nat, e: Escape, args: seq<Arg>)
    requires WellFormed(e) && At(fmt, i, Text(e))
    ensures i + |Text(e)| <= |fmt|
    ensures var c := Convert(e.conv, SpecOf(e, args), Converted(e, args));
      c.Some? && Output(fmt, i, args) == c.value.0 + Output(fmt, i + |Text(e)|, c.value.1)
  {
    hide Scan, Output, SpecOf, Converted;
    ScanEscape(fmt, i, e, args);
    EscapeOutput(fmt, i, args, Scan(fmt, i + 1, NoFlags, args));
    IsConversion(e.conv, SpecOf(e, args), Converted(e, args));
    hide Convert;
  }

  lemma {:induction false} IsConversion(c: char, spec: Spec, args: seq<Arg>)
    requires c in "cesduopx%"
    ensures Convert(c, spec, args).Some? && Convert(c, spec, args).value.1 == if c == '%' then args else Rest(args)
  {
  }

  // ---------- Numbers ----------

  /** d is the numeral of n: digits of the base, small letters, and no zero in front. */
  ghost predicate Numeral(d: string, n: nat, base: nat)
    requires base <= 16
  {
    && d != [] && ValueIn(d, base) == n && (|d| > 1 ==> d[0] != '0')
    && forall i :: 0 <= i < |d| ==> d[i] in "0123456789abcdef"[..base]
  }

  /** t is the numeral of n with just enough padding in front to be width characters long. */
  ghost predicate Laid(t: string, n: nat, base: nat, width: int, padc: char)
    requires base <= 16
  {
    exists k | 0 <= k < |t| ::
      Numeral(t[k..], n, base) && |t| >= width && (k == 0 || |t| == width) && forall i :: 0 <= i < k ==> t[i] == padc
  }

  lemma {:induction false} DigitIs(d: nat, base: nat)
    requires d < base <= 16
    ensures var c := Digit(d); c in "0123456789abcdef"[..base] && (c == '0' <==> d == 0) && DigitOf(c) == d
  {
    DigitReads(d);
    assert "0123456789abcdef"[..base][d] == Digit(d);
  }

  lemma {:induction false} OfDigit(c: char, base: nat)
    requires base <= 16 && c in "0123456789abcdef"[..base]
    ensures 0 <= DigitOf(c) < base && (c == '0' <==> DigitOf(c) == 0) && Digit(DigitOf(c)) == c
  {
    var d :| 0 <= d < base && "0123456789abcdef"[..base][d] == c;
    assert Digit(d) == c;
    DigitIs(d, base);
  }

  lemma {:induction false} NumeralGrows(q: string, n: nat, base: nat, c: char)
    requires 2 <= base <= 16 && Numeral(q, n, base) && q[0] != '0' && c in "0123456789abcdef"[..base] && DigitOf(c) >= 0
    ensures Numeral(q + [c], n * base + DigitOf(c), base)
  {
    hide DigitOf;
    assert (q + [c])[..|q|] == q;
  }

  lemma {:induction false} NumeralStarts(c: char, base: nat)
    requires 2 <= base <= 16 && c in "0123456789abcdef"[..base] && DigitOf(c) >= 0
    ensures Numeral([c], DigitOf(c), base)
  {
    hide DigitOf;
    assert [c][..0] == [] && ValueIn([], base) == 0;
  }

  /** Bare printnum puts the numeral. */
  lemma {:induction false} PrintsNumeral(num: nat, base: nat)
    requires 2 <= base <= 16
    ensures Numeral(PrintNum(num, base, 0, '0'), num, base)
    ensures PrintNum(num, base, 0, '0')[0] == '0' ==> num == 0
    decreases num
  {
    hide Digit, Quot, Rem, Numeral, DigitOf;
    var c := Digit(Rem(num, base));
    DigitIs(Rem(num, base), base);
    QuotRem(num, base);
    if num >= base {
      PrintNumStep(num, base);
      hide PrintNum;
      PrintsNumeral(Quot(num, base), base);
      QuotPositive(num, base);
      NumeralNonempty(PrintNum(Quot(num, base), base, 0, '0'), Quot(num, base), base);
      NumeralGrows(PrintNum(Quot(num, base), base, 0, '0'), Quot(num, base), base, c);
    } else {
      assert PrintNum(num, base, 0, '0') == [c];
      NumeralStarts(c, base);
    }
  }

  lemma {:induction false} NumeralNonempty(d: string, n: nat, base: nat)
    requires base <= 16 && Numeral(d, n, base)
    ensures d != []
  {
  }

  lemma {:induction false} QuotPositive(num: nat, base: nat)
    requires base >= 2 && num >= base
    ensures Quot(num, base) > 0
  {
    QuotRem(num, base);
  }

  lemma {:induction false} PrintsLaid(num: nat, base: nat, width: int, padc: char)
    requires 2 <= base <= 16
    ensures Laid(PrintNum(num, base, width, padc), num, base, Max(0, width), padc)
  {
    hide PrintNum, DigitCount, Numeral;
    var t, digits := PrintNum(num, base, width, padc), PrintNum(num, base, 0, '0');
    PrintNumPads(num, base, width, padc);
    PadFree(num, base, padc);
    PrintsNumeral(num, base);
    DigitsPlain(num, base, 0);
    var k := |t| - |digits|;
    assert t[k..] == digits;
  }

  /** Only one text is laid out so. */
  lemma {:induction false} NumeralUnique(d: string, d': string, n: nat, base: nat)
    requires 2 <= base <= 16 && Numeral(d, n, base) && Numeral(d', n, base)
    ensures d == d'
    decreases n
  {
    NumeralLast(d, n, base);
    NumeralLast(d', n, base);
    hide Numeral, Quot, Rem, Digit;
    if n >= base { NumeralUnique(d[..|d| - 1], d'[..|d'| - 1], Quot(n, base), base); }
  }

  /** Digits have no negative value, and none of 0 unless a zero stands in front. */
  lemma {:induction false} ValuePositive(d: string, base: nat)
    requires 2 <= base <= 16 && forall i :: 0 <= i < |d| ==> d[i] in "0123456789abcdef"[..base]
    ensures ValueIn(d, base) >= 0 && (d != [] && d[0] != '0' ==> ValueIn(d, base) > 0)
    decreases |d|
  {
    if d != [] {
      hide DigitOf;
      ValuePositive(d[..|d| - 1], base);
      OfDigit(d[|d| - 1], base);
      NotNegative(ValueIn(d[..|d| - 1], base), base, DigitOf(d[|d| - 1]));
    }
  }

  lemma {:induction false} NotNegative(q: nat, base: nat, r: nat)
    requires base > 0
    ensures q * base + r >= r && (q > 0 ==> q * base + r > 0)
  {
    Grows(0, q, base);
    if q > 0 { Grows(1, q, base); }
  }

  /** The last digit of a numeral, and the numeral of the digits before it. */
  lemma {:induction false} NumeralLast(d: string, n: nat, base: nat)
    requires 2 <= base <= 16 && Numeral(d, n, base)
    ensures d != [] && d[|d| - 1] == Digit(Rem(n, base))
    ensures if n >= base then Numeral(d[..|d| - 1], Quot(n, base), base) else |d| == 1
  {
    hide Digit, DigitOf, ValueIn;
    var q, c := d[..|d| - 1], d[|d| - 1];
    ValuePositive(q, base);
    OfDigit(c, base);
    assert ValueIn(d, base) == ValueIn(q, base) * base + DigitOf(c) by { LastValue(d, base); }
    Divided(ValueIn(q, base), base, DigitOf(c));
    if q == [] { assert ValueIn(q, base) == 0 by { NoDigits(base); } }
  }

  lemma {:induction false} LastValue(d: string, base: nat)
    requires d != []
    ensures ValueIn(d, base) == ValueIn(d[..|d| - 1], base) * base + DigitOf(d[|d| - 1])
  {
  }

  lemma {:induction false} Divided(q: nat, base: nat, r: nat)
    requires 2 <= base && r < base
    ensures Quot(q * base + r, base) == q && Rem(q * base + r, base) == r && (q * base + r < base <==> q == 0)
  {
    var n := q * base + r;
    QuotRem(n, base);
    hide Quot, Rem;
    Unique(q, Quot(n, base), base, r, Rem(n, base));
  }

  lemma {:induction false} Unique(q: nat, q': nat, base: nat, r: nat, r': nat)
    requires q * base + r == q' * base + r' && r < base && r' < base
    ensures q == q' && r == r'
    ensures q * base + r < base <==> q == 0
  {
    if q < q' { Below(q, q', base, r, r'); }
    if q' < q { Below(q', q, base, r', r); }
    if q > 0 { Below(0, q, base, base - 1, r); }
  }

  lemma {:induction false} Below(q: nat, q': nat, base: nat, r: nat, r': nat)
    requires q < q' && r < base
    ensures q * base + r < q' * base + r'
  {
    assert (q + 1) * base <= q' * base by { Grows(q + 1, q', base); }
    assert (q + 1) * base == q * base + base;
  }

  lemma {:induction false} Grows(a: nat, b: nat, base: nat)
    requires a <= b
    ensures a * base <= b * base
  {
  }

  // ---------- The conversions ----------

  /** The argument that e converts. */
  ghost predicate Converts(e: Escape, args: seq<Arg>, a: Arg) {
    Converted(e, args) != [] && Converted(e, args)[0] == a
  }

  /** What an escape in the format puts, with the rest of the format and of the arguments behind it. */
  ghost predicate Puts(fmt: string, i: nat, e: Escape, args: seq<Arg>, t: string, rest: seq<Arg>) {
    i + |Text(e)| <= |fmt| && Output(fmt, i, args) == t + Output(fmt, i + |Text(e)|, rest)
  }

  function Range(e: Escape): (m: nat)
    ensures m > 0
  {
    if e.long > 0 then 0x1_0000_0000_0000_0000 else 0x1_0000_0000
  }

  /** n is the signed number of which m is the number of values and v the bits. */
  ghost predicate SignedOf(n: int, v: nat, m: nat)
    requires m > 0
  {
    (n - v) % m == 0 && -(m as int) <= 2 * n < m
  }

  lemma {:induction false} SignedIs(e: Escape, args: seq<Arg>, v: nat, n: int)
    requires args != [] && args[0] == Bits(v) && SignedOf(n, v, Range(e))
    ensures GetInt(args, e.long) == n
  {
  }

  /** %x, %o and %u put the 32 bits, or with an l the 64 bits, of their argument as a numeral of base 16, 8
      and 10, padded in front; strtol reads it back unless it is padded with dashes. */
  lemma {:induction false} UnsignedPut(fmt: string, i: nat, e: Escape, args: seq<Arg>, v: nat) returns (t: string)
    requires WellFormed(e) && At(fmt, i, Text(e)) && e.conv in "xou" && Converts(e, args, Bits(v))
    ensures Puts(fmt, i, e, args, t, Converted(e, args)[1..])
    ensures var n, base := v % Range(e), if e.conv == 'x' then 16 else if e.conv == 'o' then 8 else 10;
      Laid(t, n, base, Width(e, args), Padding(e)) && (e.flag != "-" ==> StrToL(t, base) == (n, |t|))
  {
    hide At, Output, Converted, WellFormed, StrToL, PrintNum, Laid, Text, ValueOf;
    EscapePuts(fmt, i, e, args);
    var base := if e.conv == 'x' then 16 else if e.conv == 'o' then 8 else 10;
    t := PrintNum(v % Range(e), base, SpecOf(e, args).width, Padding(e));
    PrintsLaid(v % Range(e), base, SpecOf(e, args).width, Padding(e));
    if e.flag != "-" { PrintThenParse(v % Range(e), base, SpecOf(e, args).width, Padding(e)); }
  }

  /** %d puts the signed number of 32 or 64 bits: the sign, and behind it the numeral, padded between the
      two; strtol reads it back if it is padded with zeros or not at all. */
  lemma {:induction false} SignedPut(fmt: string, i: nat, e: Escape, args: seq<Arg>, v: nat, n: int) returns (t: string)
    requires WellFormed(e) && At(fmt, i, Text(e)) && e.conv == 'd' && Converts(e, args, Bits(v))
    requires SignedOf(n, v, Range(e))
    ensures Puts(fmt, i, e, args, t, Converted(e, args)[1..])
    ensures if n < 0 then t != [] && t[0] == '-' && Laid(t[1..], -n, 10, Width(e, args), Padding(e))
      else Laid(t, n, 10, Width(e, args), Padding(e))
    ensures e.flag == "0" || Width(e, args) == 0 || (e.flag == "" && n >= 0) ==> StrToL(t, 10) == (n, |t|)
  {
    hide At, Output, Converted, WellFormed, StrToL, PrintNum, Laid, Text, ValueOf, SignedOf, Range, GetInt;
    EscapePuts(fmt, i, e, args);
    SignedIs(e, Converted(e, args), v, n);
    var width, padc := SpecOf(e, args).width, Padding(e);
    if n < 0 {
      t := "-" + PrintNum(-n, 10, width, padc);
      assert t[1..] == PrintNum(-n, 10, width, padc);
      PrintsLaid(-n, 10, width, padc);
    } else {
      t := PrintNum(n, 10, width, padc);
      PrintsLaid(n, 10, width, padc);
    }
    SignedReads(n, width, padc);
  }

  lemma {:induction false} SignedReads(n: int, width: int, padc: char)
    requires padc in {'0', ' ', '-'}
    ensures var t := if n < 0 then "-" + PrintNum(-n, 10, width, padc) else PrintNum(n, 10, width, padc);
      padc == '0' || width <= 0 || (padc == ' ' && n >= 0) ==> StrToL(t, 10) == (n, |t|)
  {
    hide StrToL, PrintNum;
    if width <= 0 { NoPad(if n < 0 then -n else n, 10, width, padc); }
    var p := if width <= 0 then '0' else padc;
    if p != '-' {
      if n < 0 { NegativeThenParse(-n, width, p); } else { PrintThenParse(n, 10, width, p); }
    }
  }

  /** %p puts 0x and the 64 bits of the pointer in base 16; strtol reads it back in base 16 and in base 0
      if it is padded with zeros or not at all. */
  lemma {:induction false} PointerPut(fmt: string, i: nat, e: Escape, args: seq<Arg>, v: nat) returns (t: string)
    requires WellFormed(e) && At(fmt, i, Text(e)) && e.conv == 'p' && Converts(e, args, Bits(v))
    ensures Puts(fmt, i, e, args, t, Converted(e, args)[1..])
    ensures var n := v % 0x1_0000_0000_0000_0000;
      && |t| > 2 && t[..2] == "0x" && Laid(t[2..], n, 16, Width(e, args), Padding(e))
      && (e.flag == "0" || Width(e, args) == 0 ==> StrToL(t, 16) == StrToL(t, 0) == (n, |t|))
  {
    hide At, Output, Converted, WellFormed, StrToL, PrintNum, Laid, Text, ValueOf;
    EscapePuts(fmt, i, e, args);
    var n, width, padc := v % 0x1_0000_0000_0000_0000, SpecOf(e, args).width, Padding(e);
    var digits := PrintNum(n, 16, width, padc);
    t := "0x" + digits;
    assert t[2..] == digits;
    PrintsLaid(n, 16, width, padc);
    LaidNonempty(digits, n, 16, Max(0, width), padc);
    if e.flag == "0" || Width(e, args) == 0 {
      if width <= 0 { NoPad(n, 16, width, padc); }
      PrefixedReads(n, width);
    }
  }

  lemma {:induction false} LaidNonempty(t: string, n: nat, base: nat, width: int, padc: char)
    requires base <= 16 && Laid(t, n, base, width, padc)
    ensures t != []
  {
  }

  /** The prefix 0x before digits padded with zeros. */
  lemma {:induction false} PrefixedReads(n: nat, width: int)
    ensures var t := "0x" + PrintNum(n, 16, width, '0'); StrToL(t, 16) == StrToL(t, 0) == (n, |t|)
  {
    hide PrintNum, DigitCount, TakeDigits;
    var pads, digits := Max(0, width - DigitCount(n, 16)), PrintNum(n, 16, 0, '0');
    PrintNumPads(n, 16, width, '0');
    var t := "0x" + PrintNum(n, 16, width, '0');
    DigitsTaken("0x" + Repeat('0', pads), n, 16);
    ZerosAfter("0x", pads, digits, 0, 16, '0');
    assert "0x" + Repeat('0', pads) + digits == t;
    assert t[0] == '0' && t[1] == 'x';
  }

  /** %c puts the low byte of its argument, %% one per cent sign and no argument. */
  lemma {:induction false} CharPut(fmt: string, i: nat, e: Escape, args: seq<Arg>, v: nat)
    requires WellFormed(e) && At(fmt, i, Text(e))
    ensures e.conv == '%' ==> Puts(fmt, i, e, args, "%", Converted(e, args))
    ensures e.conv == 'c' && Converts(e, args, Bits(v)) ==> Puts(fmt, i, e, args, [(v % 256) as char], Converted(e, args)[1..])
  {
    hide At, Output, Converted, WellFormed, Text, SpecOf;
    EscapePuts(fmt, i, e, args);
  }

  /** t is the first characters of s, at most precision of them if that is not negative, each that does not
      print replaced by a question mark if alt; padded to width characters, behind for the dash. */
  ghost predicate TextLaid(t: string, s: string, alt: bool, width: int, precision: int, padc: char) {
    var n := if 0 <= precision < |s| then precision else |s|;
    var k := if padc == '-' then 0 else |t| - n;
    && |t| == Max(width, n)
    && (forall j :: 0 <= j < |t| && !(k <= j < k + n) ==> t[j] == if padc == '-' then ' ' else padc)
    && (forall j :: k <= j < k + n ==> t[j] == if alt && !(32 <= s[j - k] as int <= 126) then '?' else s[j - k])
  }

  /** %s puts the string, and (null) for no string. */
  lemma {:induction false} StringPut(fmt: string, i: nat, e: Escape, args: seq<Arg>, s: Option<string>) returns (t: string)
    requires WellFormed(e) && At(fmt, i, Text(e)) && e.conv == 's' && Converts(e, args, Str(s))
    ensures Puts(fmt, i, e, args, t, Converted(e, args)[1..])
    ensures TextLaid(t, if s.Some? then s.value else "(null)", e.alt, Width(e, args), Precision(e, args), Padding(e))
  {
    hide At, Output, Converted, WellFormed, Text, ValueOf, StringText, TextLaid;
    EscapePuts(fmt, i, e, args);
    t := StringText(s, SpecOf(e, args));
    StringLaid(s, SpecOf(e, args));
  }

  lemma {:induction false} StringLaid(p: Option<string>, spec: Spec)
    ensures TextLaid(StringText(p, spec), if p.Some? then p.value else "(null)", spec.alt, Max(0, spec.width), spec.precision, spec.padc)
  {
  }

  /** %e puts the name of the error, and of another number the number. */
  lemma {:induction false} ErrorPut(fmt: string, i: nat, e: Escape, args: seq<Arg>, v: nat, n: int) returns (t: string)
    requires WellFormed(e) && At(fmt, i, Text(e)) && e.conv == 'e' && Converts(e, args, Bits(v))
    requires SignedOf(n, v, 0x1_0000_0000)
    ensures Puts(fmt, i, e, args, t, Converted(e, args)[1..])
    ensures t ==
      if n in {1, -1} then "unspecified error"
      else if n in {2, -2} then "bad process"
      else if n in {3, -3} then "invalid parameter"
      else if n in {4, -4} then "out of memory"
      else if n in {5, -5} then "out of processes"
      else if n in {6, -6} then "segmentation fault"
      else t
    ensures n == 0 || n > 6 || n < -6 ==>
      |t| > 6 && t[..6] == "error " && Laid(t[6..], if n < 0 then -n else n, 10, 0, ' ')
  {
    hide At, Output, Converted, WellFormed, Text, PrintNum, Laid;
    EscapePuts(fmt, i, e, args);
    assert Int32(v) == n;
    t := ErrorText(n);
    var m := if n < 0 then -n else n;
    PrintsLaid(m, 10, -1, ' ');
    LaidNonempty(PrintNum(m, 10, -1, ' '), m, 10, 0, ' ');
    assert ("error " + PrintNum(m, 10, -1, ' '))[6..] == PrintNum(m, 10, -1, ' ');
  }

  lemma {:induction false} Alone(e: Escape, args: seq<Arg>, t: string, rest: seq<Arg>)
    requires Puts(Text(e), 0, e, args, t, rest)
    ensures Output(Text(e), 0, args) == t
  {
    hide Text;
  }

  lemma {:induction false} UnsignedIn(fmt: string, e: Escape, v: nat)
    requires WellFormed(e) && fmt == Text(e) && e.conv in "xou" && !e.width.Starred? && e.precision.Absent?
    ensures var t, n, base := Output(fmt, 0, [Bits(v)]), v % Range(e), if e.conv == 'x' then 16 else if e.conv == 'o' then 8 else 10;
      Laid(t, n, base, Width(e, []), Padding(e)) && (e.flag != "-" ==> StrToL(t, base) == (n, |t|))
  {
    hide WellFormed, StrToL, Laid, Text, Range, Padding;
    assert fmt[0..0 + |fmt|] == fmt;
    var t := UnsignedPut(fmt, 0, e, [Bits(v)], v);
    Alone(e, [Bits(v)], t, Converted(e, [Bits(v)])[1..]);
  }

  /** The same of formats that hold one escape alone. */
  lemma {:induction false} LiteralFormats(v: nat)
    ensures var n, n64 := v % 0x1_0000_0000, v % 0x1_0000_0000_0000_0000;
      && (var t := Output("%x", 0, [Bits(v)]); Laid(t, n, 16, 0, ' ') && StrToL(t, 16) == (n, |t|))
      && (var t := Output("%08x", 0, [Bits(v)]); Laid(t, n, 16, 8, '0') && StrToL(t, 16) == (n, |t|))
      && (var t := Output("%12lo", 0, [Bits(v)]); Laid(t, n64, 8, 12, ' ') && StrToL(t, 8) == (n64, |t|))
  {
    hide Output, Laid, StrToL;
    UnsignedIn("%x", Escape(false, "", Absent, Absent, 0, 'x'), v);
    UnsignedIn("%08x", Escape(false, "0", Written("8"), Absent, 0, 'x'), v);
    UnsignedIn("%12lo", Escape(false, "", Written("12"), Absent, 1, 'o'), v);
  }

  lemma {:induction false} Put(e: Escape, args: seq<Arg>)
    requires WellFormed(e)
    ensures var c := Convert(e.conv, SpecOf(e, args), Converted(e, args));
      c.Some? && (c.value.1 == [] ==> Output(Text(e), 0, args) == c.value.0)
  {
    hide Text, SpecOf, Converted, Convert, WellFormed;
    assert Text(e)[0..0 + |Text(e)|] == Text(e);
    EscapePuts(Text(e), 0, e, args);
  }

  /** And one text. */
  lemma {:induction false} SampleHex()
    ensures Output("%x", 0, [Bits(255)]) == "ff"
  {
    var e, args := Escape(false, "", Absent, Absent, 0, 'x'), [Bits(255)];
    assert Text(e) == "%x";
    assert PrintNum(255, 16, -1, ' ') == "ff" by {
      assert Quot(255, 16) == 15 && Rem(255, 16) == 15 && Rem(15, 16) == 15;
    }
    Put(e, args);
  }
}
