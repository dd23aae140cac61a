/** Numbers as text: printnum of lab2/libs/printfmt.c and its partner strtol of lab2/libs/string.c. */
module NumberText {
  import opened Wrappers

  const LONG_MAX: int := 0x7fff_ffff_ffff_ffff

  /** The characters of printnum's digit string. */
  function Digit(d: nat): (c: char)
    requires d < 16
  {
    "0123456789abcdef"[d]
  }

  function Repeat(c: char, n: int): (s: string)
    ensures |s| == (if n > 0 then n else 0) && forall i :: 0 <= i < |s| ==> s[i] == c
  {
    if n <= 0 then [] else Repeat(c, n - 1) + [c]
  }

  /** do_div */
  function Quot(num: nat, base: nat): (q: nat)
    requires base >= 2
    ensures q <= num && (num > 0 ==> q < num)
  {
    QuotLess(num, base, num / base, num % base);
    num / base
  }

  lemma {:induction false} QuotLess(num: nat, base: nat, q: nat, r: nat)
    requires base >= 2 && num == q * base + r
    ensures q <= num && (num > 0 ==> q < num)
  {
    assert q * base >= q * 2;
  }

  function Rem(num: nat, base: nat): (r: nat)
    requires base >= 2
    ensures r < base
  {
    num % base
  }

  lemma {:induction false} QuotRem(num: nat, base: nat)
    requires base >= 2
    ensures Quot(num, base) * base + Rem(num, base) == num && (num < base ==> Rem(num, base) == num)
  {
  }

  /** What printnum puts: digits from the most significant on, padded on the left. */
  function PrintNum(num: nat, base: nat, width: int, padc: char): string
    requires 2 <= base <= 16
    decreases num
  {
    if num >= base then PrintNum(Quot(num, base), base, width - 1, padc) + [Digit(Rem(num, base))]
    else Repeat(padc, width - 1) + [Digit(Rem(num, base))]
  }

  /** The digits of a number. */
  function DigitCount(num: nat, base: nat): nat
    requires base >= 2
    decreases num
  {
    if num >= base then DigitCount(Quot(num, base), base) + 1 else 1
  }

  function Max(a: int, b: int): int {
    if a < b then b else a
  }

  // ---------- strtol ----------

  /** The value of a digit or letter, at least 36 for other characters. */
  function DigitValue(c: char): nat {
    if '0' <= c <= '9' then c as int - '0' as int
    else if 'a' <= c <= 'z' then c as int - 'a' as int + 10
    else if 'A' <= c <= 'Z' then c as int - 'A' as int + 10
    else 36
  }

  /** Character i of a C string. */
  function CharAt(s: string, i: nat): char {
    if i < |s| then s[i] else '\0'
  }

  function SkipBlanks(s: string, i: nat): (j: nat)
    requires i <= |s|
    ensures i <= j <= |s|
    decreases |s| - i
  {
    if i < |s| && (s[i] == ' ' || s[i] == '\t') then SkipBlanks(s, i + 1) else i
  }

  /** val with one digit more. */
  function Entered(val: nat, base: nat, c: char): nat {
    val * base + DigitValue(c)
  }

  /** The digits from i on, entered in val; and where they end. */
  function TakeDigits(s: string, i: nat, base: nat, val: nat): (nat, nat)
    requires i <= |s| && base <= 36
    decreases |s| - i
  {
    if i < |s| && DigitValue(s[i]) < base then TakeDigits(s, i + 1, base, Entered(val, base, s[i])) else (val, i)
  }

  /** strtol: the value, if it fits a long, and the index at which *endptr is left. */
  function StrToL(s: string, base: nat): (int, nat)
    requires base <= 36
  {
    var i := SkipBlanks(s, 0);
    var neg := CharAt(s, i) == '-';
    var j := if CharAt(s, i) == '+' || neg then i + 1 else i;
    var hex := (base == 0 || base == 16) && CharAt(s, j) == '0' && CharAt(s, j + 1) == 'x';
    var octal := !hex && base == 0 && CharAt(s, j) == '0';
    var k := if hex then j + 2 else if octal then j + 1 else j;
    var b := if hex then 16 else if octal then 8 else if base == 0 then 10 else base;
    var r := TakeDigits(s, k, b, 0);
    (if neg then -(r.0 as int) else r.0 as int, r.1)
  }

  // ---------- Round trip ----------

  lemma {:induction false} DigitReads(d: nat)
    requires d < 16
    ensures DigitValue(Digit(d)) == d && Digit(d) !in {' ', '\t', '+', '-', 'x'}
  {
    var c := Digit(d);
    assert c == "0123456789abcdef"[d];
    if d < 10 { assert c as int == '0' as int + d; } else { assert c as int == 'a' as int + (d - 10); }
  }

  /** The text is the padding and then the digits alone. */
  lemma {:induction false} PrintNumPads(num: nat, base: nat, width: int, padc: char)
    requires 2 <= base <= 16
    ensures PrintNum(num, base, width, padc) == Repeat(padc, width - DigitCount(num, base)) + PrintNum(num, base, 0, padc)
    ensures |PrintNum(num, base, 0, padc)| == DigitCount(num, base)
    ensures |PrintNum(num, base, width, padc)| == Max(width, DigitCount(num, base))
    decreases num
  {
    hide Quot, Rem, Digit;
    if num >= base {
      PrintNumPads(Quot(num, base), base, width - 1, padc);
      PrintNumPads(Quot(num, base), base, -1, padc);
      assert Repeat(padc, -1 - DigitCount(Quot(num, base), base)) == [];
    } else {
      assert Repeat(padc, 0) == [] == Repeat(padc, -1);
    }
  }

  /** One digit more at the end of what is read as digits throughout. */
  lemma {:induction false} TakeAppend(s: string, i: nat, base: nat, val: nat, w: nat, c: char)
    requires i <= |s| && base <= 36 && TakeDigits(s, i, base, val) == (w, |s|) && DigitValue(c) < base
    ensures TakeDigits(s + [c], i, base, val) == (Entered(w, base, c), |s| + 1)
    decreases |s| - i
  {
    hide Entered, DigitValue;
    if i < |s| {
      TakeAppend(s, i + 1, base, Entered(val, base, s[i]), w, c);
    } else {
      assert TakeDigits(s + [c], i + 1, base, Entered(val, base, c)) == (Entered(val, base, c), |s| + 1);
    }
  }

  lemma {:induction false} DigitsTaken(pre: string, num: nat, base: nat)
    requires 2 <= base <= 16
    ensures var s := pre + PrintNum(num, base, 0, '0'); TakeDigits(s, |pre|, base, 0) == (num, |s|)
    decreases num
  {
    hide Digit, DigitValue, DigitCount, TakeDigits, Entered, Quot, Rem;
    var c := Digit(Rem(num, base));
    DigitReads(Rem(num, base));
    if num >= base {
      DigitsTaken(pre, Quot(num, base), base);
      LastDigit(num, base);
      PrintNumStep(num, base);
      MoreTaken(pre, PrintNum(Quot(num, base), base, 0, '0'), PrintNum(num, base, 0, '0'), base, Quot(num, base), c);
      hide PrintNum;
    } else {
      assert PrintNum(num, base, 0, '0') == [c];
      OneTaken(pre, c, base);
      QuotRem(num, base);
    }
  }

  lemma {:induction false} MoreTaken(pre: string, digits: string, digits': string, base: nat, q: nat, c: char)
    requires base <= 36 && TakeDigits(pre + digits, |pre|, base, 0) == (q, |pre + digits|) && DigitValue(c) < base
    requires digits' == digits + [c]
    ensures TakeDigits(pre + digits', |pre|, base, 0) == (Entered(q, base, c), |pre + digits'|)
  {
    hide TakeDigits, Entered, DigitValue;
    TakeAppend(pre + digits, |pre|, base, 0, q, c);
    assert pre + digits' == (pre + digits) + [c];
  }

  lemma {:induction false} PrintNumStep(num: nat, base: nat)
    requires 2 <= base <= 16 && num >= base
    ensures Quot(num, base) < num && PrintNum(num, base, 0, '0') == PrintNum(Quot(num, base), base, 0, '0') + [Digit(Rem(num, base))]
  {
    hide Digit, Quot, Rem;
    NarrowPad(Quot(num, base), base);
  }

  lemma {:induction false} LastDigit(num: nat, base: nat)
    requires 2 <= base <= 16
    ensures Entered(Quot(num, base), base, Digit(Rem(num, base))) == num
  {
    hide Digit, Quot, Rem, DigitValue;
    DigitReads(Rem(num, base));
    QuotRem(num, base);
  }

  lemma {:induction false} OneTaken(pre: string, c: char, base: nat)
    requires base <= 36 && DigitValue(c) < base
    ensures TakeDigits(pre + [c], |pre|, base, 0) == (DigitValue(c), |pre| + 1)
  {
    assert TakeDigits(pre + [c], |pre| + 1, base, DigitValue(c)) == (DigitValue(c), |pre| + 1);
  }

  lemma {:induction false} NarrowPad(num: nat, base: nat)
    requires 2 <= base <= 16
    ensures PrintNum(num, base, -1, '0') == PrintNum(num, base, 0, '0')
  {
    PrintNumPads(num, base, -1, '0');
  }

  /** strtol on a number without sign or prefix. */
  lemma {:induction false} PlainRead(s: string, base: nat, i: nat, val: nat)
    requires base in {8, 10, 16} && SkipBlanks(s, 0) == i && CharAt(s, i) !in {'+', '-'} && CharAt(s, i + 1) != 'x'
    requires i <= |s| && TakeDigits(s, i, base, 0) == (val, |s|)
    ensures StrToL(s, base) == (val, |s|)
  {
  }

  lemma {:induction false} ZerosTaken(n: nat, rest: string, i: nat, base: nat)
    requires i <= n && 2 <= base <= 36
    ensures TakeDigits(Repeat('0', n) + rest, i, base, 0) == TakeDigits(Repeat('0', n) + rest, n, base, 0)
    decreases n - i
  {
    if i < n {
      assert (Repeat('0', n) + rest)[i] == '0';
      ZerosTaken(n, rest, i + 1, base);
    }
  }

  lemma {:induction false} BlanksSkipped(n: nat, rest: string, i: nat)
    requires i <= n && (rest != [] ==> rest[0] !in {' ', '\t'})
    ensures SkipBlanks(Repeat(' ', n) + rest, i) == n
    decreases n - i
  {
    if i < n {
      assert (Repeat(' ', n) + rest)[i] == ' ';
      BlanksSkipped(n, rest, i + 1);
    }
  }

  /** Printed digits start with a digit, and none of them is a sign, a blank or an x. */
  lemma {:induction false} DigitsPlain(num: nat, base: nat, width: int)
    requires 2 <= base <= 16 && width <= 0
    ensures var s := PrintNum(num, base, width, '0');
      s != [] && forall i :: 0 <= i < |s| ==> s[i] !in {' ', '\t', '+', '-', 'x'}
    decreases num
  {
    hide Quot, Rem, Digit;
    DigitReads(Rem(num, base));
    if num >= base { DigitsPlain(Quot(num, base), base, width - 1); }
  }

  lemma {:induction false} PadFree(num: nat, base: nat, padc: char)
    requires 2 <= base <= 16
    ensures PrintNum(num, base, 0, padc) == PrintNum(num, base, 0, '0')
  {
    NoPad(num, base, 0, padc);
  }

  lemma {:induction false} NoPad(num: nat, base: nat, width: int, padc: char)
    requires 2 <= base <= 16 && width <= 0
    ensures PrintNum(num, base, width, padc) == PrintNum(num, base, width, '0')
    decreases num
  {
    hide Quot, Rem, Digit;
    if num >= base { NoPad(Quot(num, base), base, width - 1, padc); }
  }

  /** strtol reads back what printnum printed in the same base, to the last character, whatever the width
      and with either padding that is not the dash. */
  lemma {:induction false} PrintThenParse(num: nat, base: nat, width: int, padc: char)
    requires base in {8, 10, 16} && padc in {'0', ' '}
    ensures var s := PrintNum(num, base, width, padc); StrToL(s, base) == (num, |s|)
  {
    hide PrintNum, DigitCount, TakeDigits, SkipBlanks, StrToL;
    var pads, digits := Max(0, width - DigitCount(num, base)), PrintNum(num, base, 0, '0');
    var s := PrintNum(num, base, width, padc);
    PrintNumPads(num, base, width, padc);
    PadFree(num, base, padc);
    DigitsPlain(num, base, 0);
    assert s == Repeat(padc, pads) + digits;
    DigitsTaken(Repeat(padc, pads), num, base);
    if padc == '0' { ZerosTaken(pads, digits, 0, base); }
    ParsePadded(s, pads, digits, base, num, padc);
  }

  lemma {:induction false} ParsePadded(s: string, pads: nat, digits: string, base: nat, num: nat, padc: char)
    requires base in {8, 10, 16} && padc in {'0', ' '} && s == Repeat(padc, pads) + digits && digits != []
    requires forall i :: 0 <= i < |digits| ==> digits[i] !in {' ', '\t', '+', '-', 'x'}
    requires TakeDigits(s, if padc == '0' then 0 else pads, base, 0) == (num, |s|)
    ensures StrToL(s, base) == (num, |s|)
  {
    hide TakeDigits, SkipBlanks, StrToL;
    assert forall i :: 0 <= i < |s| ==> s[i] == if i < pads then padc else digits[i - pads];
    if padc == '0' {
      BlanksSkipped(0, s, 0);
      assert Repeat(' ', 0) + s == s;
      PlainRead(s, base, 0, num);
    } else {
      BlanksSkipped(pads, digits, 0);
      PlainRead(s, base, pads, num);
    }
  }

  /** With the dash for padding (the flag "-" of a format) the number comes back only when there is no
      padding, or when one dash stands before a zero: the first dash is read as a sign, and a second
      one ends the number. */
  lemma {:induction false} DashThenParse(num: nat, base: nat, width: int)
    requires base in {8, 10, 16}
    ensures var s, pads := PrintNum(num, base, width, '-'), width - DigitCount(num, base);
      StrToL(s, base) == (num, |s|) <==> pads <= 0 || (pads == 1 && num == 0)
  {
    hide PrintNum, DigitCount, TakeDigits, SkipBlanks;
    var pads, digits := Max(0, width - DigitCount(num, base)), PrintNum(num, base, 0, '0');
    var s := PrintNum(num, base, width, '-');
    PrintNumPads(num, base, width, '-');
    PadFree(num, base, '-');
    DigitsPlain(num, base, 0);
    assert s == Repeat('-', pads) + digits;
    BlanksSkipped(0, s, 0);
    assert Repeat(' ', 0) + s == s;
    if pads == 0 {
      DigitsTaken([], num, base);
      assert [] + digits == s;
      PlainRead(s, base, 0, num);
    } else if pads == 1 {
      DigitsTaken(Repeat('-', pads), num, base);
      assert s[0] == '-' && |s| >= 2 && s[1] == digits[0] && CharAt(s, 2) != 'x';
    } else {
      assert s[0] == '-' && s[1] == '-';
      StopsAt(s, 1, base);
    }
  }

  lemma {:induction false} StopsAt(s: string, i: nat, base: nat)
    requires base <= 36 && i < |s| && s[i] in {'-', ' '}
    ensures TakeDigits(s, i, base, 0) == (0, i)
  {
  }

  /** A negative number, as %d prints it, reads back when it is padded with zeros or not at all: blanks
      after the sign are no number. */
  lemma {:induction false} NegativeThenParse(num: nat, width: int, padc: char)
    requires num > 0 && padc in {'0', ' '}
    ensures var s := "-" + PrintNum(num, 10, width, padc);
      (StrToL(s, 10).0 + num == 0 && StrToL(s, 10).1 == |s|) <==> padc == '0' || width <= DigitCount(num, 10)
  {
    hide PrintNum, DigitCount, TakeDigits, SkipBlanks;
    var pads, digits := Max(0, width - DigitCount(num, 10)), PrintNum(num, 10, 0, '0');
    var t := PrintNum(num, 10, width, padc);
    var s := "-" + t;
    PrintNumPads(num, 10, width, padc);
    PadFree(num, 10, padc);
    DigitsPlain(num, 10, 0);
    assert t == Repeat(padc, pads) + digits;
    BlanksSkipped(0, s, 0);
    assert Repeat(' ', 0) + s == s;
    if padc == '0' || pads == 0 {
      DigitsTaken("-" + Repeat(padc, pads), num, 10);
      assert ("-" + Repeat(padc, pads)) + digits == s;
      ZerosAfter("-", pads, digits, 0, 10, padc);
    } else {
      assert s[1] == ' ';
      StopsAt(s, 1, 10);
    }
  }

  lemma {:induction false} ZerosAfter(pre: string, n: nat, rest: string, i: nat, base: nat, padc: char)
    requires i <= n && 2 <= base <= 36 && (n > 0 ==> padc == '0')
    ensures var s := pre + Repeat(padc, n) + rest;
      TakeDigits(s, |pre| + i, base, 0) == TakeDigits(s, |pre| + n, base, 0)
    decreases n - i
  {
    if i < n {
      assert (pre + Repeat(padc, n) + rest)[|pre| + i] == '0';
      ZerosAfter(pre, n, rest, i + 1, base, padc);
    }
  }

  /** Values never go down while digits are entered: none is too large if the last one is not. */
  lemma {:induction false} NoOverflow(s: string, i: nat, base: nat, val: nat)
    requires i <= |s| && 1 <= base <= 36
    ensures TakeDigits(s, i, base, val).0 >= val
    decreases |s| - i
  {
    if i < |s| && DigitValue(s[i]) < base {
      assert val * base >= val;
      NoOverflow(s, i + 1, base, Entered(val, base, s[i]));
    }
  }

  /** strtol as it runs: s is moved on and val accumulated, in a long.  None stands for signed overflow,
      of which C promises nothing. */
  method ParseLong(s: string, base: nat) returns (r: Option<(int, nat)>)
    requires base <= 36 && '\0' !in s
    ensures r == if -LONG_MAX <= StrToL(s, base).0 <= LONG_MAX then Some(StrToL(s, base)) else None
  {
    hide TakeDigits;
    var i, b := 0, base;
    while i < |s| && (s[i] == ' ' || s[i] == '\t')
      invariant i <= |s| && SkipBlanks(s, i) == SkipBlanks(s, 0)
    {
      i := i + 1;
    }
    var neg := false;
    if CharAt(s, i) == '+' {
      i := i + 1;
    } else if CharAt(s, i) == '-' {
      i := i + 1;
      neg := true;
    }
    if (b == 0 || b == 16) && CharAt(s, i) == '0' && CharAt(s, i + 1) == 'x' {
      i := i + 2;
      b := 16;
    } else if b == 0 && CharAt(s, i) == '0' {
      i := i + 1;
      b := 8;
    } else if b == 0 {
      b := 10;
    }
    var digits := ParseDigits(s, i, b);
    if digits.None? { return None; }
    var (acc, end) := digits.value;
    r := Some((if neg then -acc else acc, end));
  }

  /** The loop over the digits. */
  method ParseDigits(s: string, start: nat, base: nat) returns (r: Option<(int, nat)>)
    requires start <= |s| && 1 <= base <= 36
    ensures r == if TakeDigits(s, start, base, 0).0 <= LONG_MAX then Some(TakeDigits(s, start, base, 0)) else None
  {
    hide Entered;
    var val: nat, i := 0, start;
    while i < |s| && DigitValue(s[i]) < base
      invariant start <= i <= |s| && TakeDigits(s, i, base, val) == TakeDigits(s, start, base, 0) && val <= LONG_MAX
    {
      val := Entered(val, base, s[i]);
      i := i + 1;
      if val > LONG_MAX {
        NoOverflow(s, i, base, val);
        return None;
      }
    }
    return Some((val, i));
  }
}
