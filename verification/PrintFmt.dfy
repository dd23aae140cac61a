/** The format interpreter of lab2/libs/printfmt.c: what it puts for a format and its arguments, and
    vsnprintf, which keeps as much of that as fits in a buffer. */
module PrintFmt {
  import opened Wrappers
  import opened NumberText

  /** What the caller passed: 64 bits of an integer or pointer, or a string that may be NULL. */
  datatype Arg = Bits(v: nat) | Str(s: Option<string>)

  /** The flags and fields of an escape. */
  datatype Spec = Spec(padc: char, width: int, precision: int, lflag: nat, alt: bool)

  const NoFlags := Spec(' ', -1, -1, 0, false)

  const E_INVAL: int := 3

  // ---------- Arguments ----------

  function Int32(v: nat): int {
    var w := v % 0x1_0000_0000;
    if w < 0x8000_0000 then w else w - 0x1_0000_0000
  }

  function Int64(v: nat): int {
    var w := v % 0x1_0000_0000_0000_0000;
    if w < 0x8000_0000_0000_0000 then w else w - 0x1_0000_0000_0000_0000
  }

  /** va_arg of an integer or pointer.  An argument that is missing or of the other kind, of which C
      promises nothing, counts as 0. */
  function BitsOf(args: seq<Arg>): nat {
    if args != [] && args[0].Bits? then args[0].v else 0
  }

  function StrOf(args: seq<Arg>): Option<string> {
    if args != [] && args[0].Str? then args[0].s else None
  }

  function Rest(args: seq<Arg>): seq<Arg> {
    if args == [] then [] else args[1..]
  }

  /** getint and getuint; long and long long are the same size. */
  function GetInt(args: seq<Arg>, lflag: nat): int {
    if lflag >= 1 then Int64(BitsOf(args)) else Int32(BitsOf(args))
  }

  function GetUint(args: seq<Arg>, lflag: nat): nat {
    BitsOf(args) % if lflag >= 1 then 0x1_0000_0000_0000_0000 else 0x1_0000_0000
  }

  // ---------- Flags and fields ----------

  /** Where the scan of an escape ends: the conversion character and its index, the flags, and the
      arguments left. */
  datatype Scanned = Scanned(conv: char, at: nat, spec: Spec, args: seq<Arg>)

  predicate IsDigit(c: char) {
    '0' <= c <= '9'
  }

  /** A decimal field from i on: its value, entered after acc, and the index after it. */
  function Field(fmt: string, i: nat, acc: nat): (r: (nat, nat))
    requires i <= |fmt|
    ensures i <= r.1 <= |fmt|
    ensures i < |fmt| && IsDigit(fmt[i]) ==> i < r.1
    ensures forall j :: i <= j < r.1 ==> IsDigit(fmt[j])
    decreases |fmt| - i
  {
    if i < |fmt| && IsDigit(fmt[i]) then Field(fmt, i + 1, acc * 10 + (fmt[i] as int - '0' as int)) else (acc, i)
  }

  /** process_precision: the first number is the width. */
  function WithNumber(spec: Spec, n: int): Spec {
    if spec.width < 0 then spec.(width := n, precision := -1) else spec.(precision := n)
  }

  predicate IsFlag(c: char) {
    c == '-' || IsDigit(c) || c == '*' || c == '.' || c == '#' || c == 'l'
  }

  function Scan(fmt: string, i: nat, spec: Spec, args: seq<Arg>): (r: Scanned)
    requires i <= |fmt|
    ensures i <= r.at <= |fmt| && r.conv == CharAt(fmt, r.at) && !IsFlag(r.conv)
    ensures forall j :: i <= j < r.at ==> IsFlag(fmt[j])
    decreases |fmt| - i
  {
    var c := CharAt(fmt, i);
    if c == '-' then Scan(fmt, i + 1, spec.(padc := '-'), args)
    else if c == '0' then Scan(fmt, i + 1, spec.(padc := '0'), args)
    else if IsDigit(c) then
      var r := Field(fmt, i, 0);
      Scan(fmt, r.1, WithNumber(spec, r.0), args)
    else if c == '*' then Scan(fmt, i + 1, WithNumber(spec, Int32(BitsOf(args))), Rest(args))
    else if c == '.' then Scan(fmt, i + 1, if spec.width < 0 then spec.(width := 0) else spec, args)
    else if c == '#' then Scan(fmt, i + 1, spec.(alt := true), args)
    else if c == 'l' then Scan(fmt, i + 1, spec.(lflag := spec.lflag + 1), args)
    else Scanned(c, i, spec, args)
  }

  // ---------- Conversions ----------

  /** strnlen, with a negative limit for none. */
  function Limited(s: string, precision: int): string {
    if 0 <= precision < |s| then s[..precision] else s
  }

  function Shown(s: string, alt: bool): (t: string)
    ensures |t| == |s|
  {
    seq(|s|, i requires 0 <= i < |s| => if alt && (s[i] < ' ' || s[i] > '~') then '?' else s[i])
  }

  function StringText(p: Option<string>, spec: Spec): string {
    var s := Limited(if p.Some? then p.value else "(null)", spec.precision);
    var text := Shown(s, spec.alt);
    if spec.padc != '-' then Repeat(spec.padc, spec.width - |s|) + text
    else text + Repeat(' ', spec.width - |s|)
  }

  function ErrorName(err: nat): Option<string> {
    match err
    case 1 => Some("unspecified error")
    case 2 => Some("bad process")
    case 3 => Some("invalid parameter")
    case 4 => Some("out of memory")
    case 5 => Some("out of processes")
    case 6 => Some("segmentation fault")
    case _ => None
  }

  function ErrorText(arg: int): string {
    var err: nat := if arg < 0 then -arg else arg;
    match ErrorName(err)
    case Some(name) => name
    case None => "error " + PrintNum(err, 10, -1, ' ')
  }

  /** What a conversion puts, and the arguments left; or None for a character that is none. */
  function Convert(c: char, spec: Spec, args: seq<Arg>): Option<(string, seq<Arg>)> {
    match c
    case 'c' => Some(([(BitsOf(args) % 256) as char], Rest(args)))
    case 'e' => Some((ErrorText(Int32(BitsOf(args))), Rest(args)))
    case 's' => Some((StringText(StrOf(args), spec), Rest(args)))
    case 'd' =>
      var v := GetInt(args, spec.lflag);
      Some((if v < 0 then "-" + PrintNum(-v, 10, spec.width, spec.padc) else PrintNum(v, 10, spec.width, spec.padc), Rest(args)))
    case 'u' => Some((PrintNum(GetUint(args, spec.lflag), 10, spec.width, spec.padc), Rest(args)))
    case 'o' => Some((PrintNum(GetUint(args, spec.lflag), 8, spec.width, spec.padc), Rest(args)))
    case 'p' => Some(("0x" + PrintNum(GetUint(args, 1), 16, spec.width, spec.padc), Rest(args)))
    case 'x' => Some((PrintNum(GetUint(args, spec.lflag), 16, spec.width, spec.padc), Rest(args)))
    case '%' => Some(("%", args))
    case _ => None
  }

  /** What vprintfmt puts from index i of the format on. */
  function Output(fmt: string, i: nat, args: seq<Arg>): string
    requires i <= |fmt|
    decreases |fmt| - i
  {
    if i == |fmt| then []
    else if fmt[i] != '%' then [fmt[i]] + Output(fmt, i + 1, args)
    else
      var r := Scan(fmt, i + 1, NoFlags, args);
      var text := Convert(r.conv, r.spec, r.args);
      if text.None? then "%" + Output(fmt, i + 1, r.args)
      else text.value.0 + Output(fmt, r.at + 1, text.value.1)
  }

  // ---------- What is put for an unrecognised escape ----------

  /** Characters that start no escape are put as they are. */
  lemma {:induction false} PlainOutput(fmt: string, i: nat, j: nat, args: seq<Arg>)
    requires i <= j <= |fmt| && forall k :: i <= k < j ==> fmt[k] != '%'
    ensures Output(fmt, i, args) == fmt[i..j] + Output(fmt, j, args)
    decreases j - i
  {
    hide Output;
    if i < j {
      PlainNext(fmt, i, args);
      PlainOutput(fmt, i + 1, j, args);
      assert fmt[i..j] == [fmt[i]] + fmt[i + 1..j];
    }
  }

  lemma {:induction false} PlainNext(fmt: string, i: nat, args: seq<Arg>)
    requires i < |fmt| && fmt[i] != '%'
    ensures Output(fmt, i, args) == [fmt[i]] + Output(fmt, i + 1, args)
  {
    hide Scan, Convert;
  }

  /** What an escape puts and where it leaves the format.  The end of the format is no conversion. */
  lemma {:induction false} EscapeOutput(fmt: string, i: nat, args: seq<Arg>, r: Scanned)
    requires i < |fmt| && fmt[i] == '%' && r == Scan(fmt, i + 1, NoFlags, args)
    ensures forall k :: i < k < r.at ==> fmt[k] != '%'
    ensures var c := Convert(r.conv, r.spec, r.args);
      if c.None? then Output(fmt, i, args) == "%" + Output(fmt, i + 1, r.args) && (r.at < |fmt| ==> fmt[r.at] != '%')
      else r.at < |fmt| && Output(fmt, i, args) == c.value.0 + Output(fmt, r.at + 1, c.value.1)
  {
  }

  /** An escape whose conversion character is none, or that the format ends in, is put as it stands: the
      flags that were scanned take no effect but for the arguments of its stars. */
  lemma {:induction false} Verbatim(fmt: string, i: nat, args: seq<Arg>)
    requires i < |fmt| && fmt[i] == '%'
    ensures var r := Scan(fmt, i + 1, NoFlags, args);
      var j := if r.at < |fmt| then r.at + 1 else r.at;
      Convert(r.conv, r.spec, r.args).None? ==> Output(fmt, i, args) == fmt[i..j] + Output(fmt, j, r.args)
  {
    hide Convert, Scan, Output;
    var r := Scan(fmt, i + 1, NoFlags, args);
    EscapeOutput(fmt, i, args, r);
    if Convert(r.conv, r.spec, r.args).None? { PutBack(fmt, i, if r.at < |fmt| then r.at + 1 else r.at, args, r.args); }
  }

  lemma {:induction false} PutBack(fmt: string, i: nat, j: nat, args: seq<Arg>, rest: seq<Arg>)
    requires i < j <= |fmt| && fmt[i] == '%' && forall k :: i < k < j ==> fmt[k] != '%'
    requires Output(fmt, i, args) == "%" + Output(fmt, i + 1, rest)
    ensures Output(fmt, i, args) == fmt[i..j] + Output(fmt, j, rest)
  {
    hide Output;
    PlainOutput(fmt, i + 1, j, rest);
    assert fmt[i..j] == "%" + fmt[i + 1..j];
  }

  // ---------- The bounded sink ----------

  /** struct sprintbuf over the buffer str: at most ebuf characters are kept. */
  class SprintBuf {
    const str: array<char>
    const ebuf: nat
    var buf: nat
    var cnt: nat
    ghost var put: string

    ghost predicate Valid()
      reads this, str
    {
      && ebuf < str.Length && cnt == |put|
      && buf == (if |put| < ebuf then |put| else ebuf)
      && str[..buf] == put[..buf]
    }

    constructor (str: array<char>, size: nat)
      requires 0 < size <= str.Length
      ensures Valid() && put == [] && this.str == str && ebuf == size - 1
    {
      this.str, ebuf, buf, cnt, put := str, size - 1, 0, 0, [];
    }

    /** sprintputch */
    method PutCh(ch: char)
      requires Valid()
      modifies this, str
      ensures Valid() && put == old(put) + [ch]
    {
      cnt := cnt + 1;
      if buf < ebuf {
        str[buf] := ch;
        buf := buf + 1;
      }
      put := put + [ch];
    }

    /** A loop that puts the same character n times. */
    method PutRepeat(ch: char, n: int)
      requires Valid()
      modifies this, str
      ensures Valid() && put == old(put) + Repeat(ch, n)
    {
      var i := 0;
      while i < n
        invariant Valid() && 0 <= i && (i <= n || i == 0) && put == old(put) + Repeat(ch, i)
      {
        PutCh(ch);
        i := i + 1;
      }
    }

    method PutAll(s: string)
      requires Valid()
      modifies this, str
      ensures Valid() && put == old(put) + s
    {
      var i := 0;
      while i < |s|
        invariant Valid() && i <= |s| && put == old(put) + s[..i]
      {
        PutCh(s[i]);
        i := i + 1;
      }
    }

    /** printnum */
    method PutNum(num: nat, base: nat, width: int, padc: char)
      requires Valid() && 2 <= base <= 16
      modifies this, str
      ensures Valid() && put == old(put) + PrintNum(num, base, width, padc)
      decreases num
    {
      hide Repeat, Digit;
      var result := Quot(num, base);
      var mod := Rem(num, base);
      if num >= base {
        PutNum(result, base, width - 1, padc);
      } else {
        PutRepeat(padc, width - 1);
      }
      PutCh(Digit(mod));
    }

    /** The text of %s. */
    method PutString(p: Option<string>, spec: Spec)
      requires Valid()
      modifies this, str
      ensures Valid() && put == old(put) + StringText(p, spec)
    {
      hide Repeat, Shown, Limited;
      ghost var was := put;
      var s := Limited(if p.Some? then p.value else "(null)", spec.precision);
      if spec.padc != '-' { PutRepeat(spec.padc, spec.width - |s|); }
      PutShown(s, spec.alt);
      if spec.padc == '-' { PutRepeat(' ', spec.width - |s|); }
      assert spec.padc != '-' ==> put == was + (Repeat(spec.padc, spec.width - |s|) + Shown(s, spec.alt));
      assert spec.padc == '-' ==> put == was + (Shown(s, spec.alt) + Repeat(' ', spec.width - |s|));
    }

    method PutShown(s: string, alt: bool)
      requires Valid()
      modifies this, str
      ensures Valid() && put == old(put) + Shown(s, alt)
    {
      ghost var text := Shown(s, alt);
      var i := 0;
      while i < |s|
        invariant Valid() && i <= |s| && put == old(put) + text[..i]
      {
        if alt && (s[i] < ' ' || s[i] > '~') { PutCh('?'); } else { PutCh(s[i]); }
        assert put == old(put) + text[..i] + [text[i]] && text[..i + 1] == text[..i] + [text[i]];
        i := i + 1;
      }
    }

    /** The text of %e. */
    method PutError(arg: int)
      requires Valid()
      modifies this, str
      ensures Valid() && put == old(put) + ErrorText(arg)
    {
      hide PrintNum;
      ghost var was := put;
      var err: nat := if arg < 0 then -arg else arg;
      if ErrorName(err).None? {
        PutAll("error ");
        PutNum(err, 10, -1, ' ');
        assert put == was + ("error " + PrintNum(err, 10, -1, ' '));
      } else {
        PutAll(ErrorName(err).value);
      }
    }

    /** One conversion of vprintfmt's switch. */
    method PutConversion(c: char, spec: Spec, args: seq<Arg>)
      requires Valid() && Convert(c, spec, args).Some?
      modifies this, str
      ensures Valid() && put == old(put) + Convert(c, spec, args).value.0
    {
      hide PrintNum, Repeat, StringText, ErrorText, GetInt, GetUint, Int32, BitsOf, StrOf;
      match c
      case 'c' => PutCh((BitsOf(args) % 256) as char);
      case 'e' => PutError(Int32(BitsOf(args)));
      case 's' => PutString(StrOf(args), spec);
      case 'd' =>
        var v := GetInt(args, spec.lflag);
        if v < 0 {
          PutCh('-');
          v := -v;
        }
        PutNum(v, 10, spec.width, spec.padc);
      case 'u' => PutNum(GetUint(args, spec.lflag), 10, spec.width, spec.padc);
      case 'o' => PutNum(GetUint(args, spec.lflag), 8, spec.width, spec.padc);
      case 'p' =>
        PutCh('0');
        PutCh('x');
        PutNum(GetUint(args, 1), 16, spec.width, spec.padc);
      case 'x' => PutNum(GetUint(args, spec.lflag), 16, spec.width, spec.padc);
      case '%' => PutCh(c);
    }

    /** An escape of vprintfmt, from its % on: after one that is none the pointer f moves back. */
    method PutEscape(fmt: string, escape: nat, arguments: seq<Arg>) returns (f: nat, args: seq<Arg>)
      requires Valid() && escape < |fmt| && fmt[escape] == '%'
      modifies this, str
      ensures Valid() && escape < f <= |fmt|
      ensures put + Output(fmt, f, args) == old(put) + Output(fmt, escape, arguments)
    {
      hide Convert, Scan, Output;
      ghost var was, r := put, Scan(fmt, escape + 1, NoFlags, arguments);
      EscapeOutput(fmt, escape, arguments, r);
      var conv, spec;
      conv, f, spec, args := ScanFlags(fmt, escape + 1, arguments);
      var c := Convert(conv, spec, args);
      if c.Some? {
        PutConversion(conv, spec, args);
        args := c.value.1;
        assert was + (c.value.0 + Output(fmt, f, args)) == was + c.value.0 + Output(fmt, f, args);
      } else {
        PutCh('%');
        assert was + ("%" + Output(fmt, escape + 1, args)) == was + "%" + Output(fmt, escape + 1, args);
        f := f - 1;
        while fmt[f - 1] != '%'
          invariant escape < f <= |fmt| && forall k :: escape < k < f ==> fmt[k] != '%'
          decreases f
        {
          f := f - 1;
        }
      }
    }

    /** vprintfmt */
    method PrintFormat(fmt: string, arguments: seq<Arg>)
      requires Valid()
      modifies this, str
      ensures Valid() && put == old(put) + Output(fmt, 0, arguments)
    {
      hide Convert, Scan;
      var f, args := 0, arguments;
      while f < |fmt|
        invariant Valid() && f <= |fmt| && put + Output(fmt, f, args) == old(put) + Output(fmt, 0, arguments)
      {
        if fmt[f] != '%' {
          PutCh(fmt[f]);
          f := f + 1;
        } else {
          f, args := PutEscape(fmt, f, args);
        }
      }
    }
  }

  /** The switch on flags: returns the conversion character, the index after it, and what was scanned. */
  method ScanFlags(fmt: string, start: nat, arguments: seq<Arg>) returns (conv: char, f: nat, spec: Spec, args: seq<Arg>)
    requires start <= |fmt|
    ensures f > start && Scanned(conv, f - 1, spec, args) == Scan(fmt, start, NoFlags, arguments)
  {
    f, spec, args := start, NoFlags, arguments;
    while true
      invariant start <= f <= |fmt| && Scan(fmt, f, spec, args) == Scan(fmt, start, NoFlags, arguments)
      decreases |fmt| - f
    {
      conv := CharAt(fmt, f);
      if conv == '-' {
        spec := spec.(padc := '-');
      } else if conv == '0' {
        spec := spec.(padc := '0');
      } else if IsDigit(conv) {
        var n: nat := 0;
        ghost var first := f;
        while f < |fmt| && IsDigit(fmt[f])
          invariant first <= f <= |fmt| && Field(fmt, f, n) == Field(fmt, first, 0)
          invariant f == first ==> f < |fmt| && IsDigit(fmt[f])
        {
          n := n * 10 + (fmt[f] as int - '0' as int);
          f := f + 1;
        }
        spec := WithNumber(spec, n);
        continue;
      } else if conv == '*' {
        spec := WithNumber(spec, Int32(BitsOf(args)));
        args := Rest(args);
      } else if conv == '.' {
        if spec.width < 0 { spec := spec.(width := 0); }
      } else if conv == '#' {
        spec := spec.(alt := true);
      } else if conv == 'l' {
        spec := spec.(lflag := spec.lflag + 1);
      } else {
        f := f + 1;
        return;
      }
      f := f + 1;
    }
  }

  /** vsnprintf: of everything vprintfmt puts, the buffer gets the first size - 1 characters and a
      terminator; the result counts it all. */
  method VSNPrintF(str: array?<char>, size: nat, fmt: string, args: seq<Arg>) returns (r: int)
    requires str != null ==> size <= str.Length
    modifies str
    ensures str == null || size == 0 ==> r == -E_INVAL && (str != null ==> str[..] == old(str[..]))
    ensures str != null && size > 0 ==>
      var out := Output(fmt, 0, args);
      var kept := if |out| < size then |out| else size - 1;
      && r == |out| && str[..kept] == out[..kept] && str[kept] == '\0'
  {
    if str == null || size == 0 { return -E_INVAL; }
    var b := new SprintBuf(str, size);
    b.PrintFormat(fmt, args);
    ghost var out := Output(fmt, 0, args);
    ghost var kept := if |out| < size then |out| else size - 1;
    assert b.put == out && b.buf == kept && str[..kept] == out[..kept];
    str[b.buf] := '\0';
    assert str[..kept] == out[..kept];
    return b.cnt;
  }
}
