/** The walk over the flattened device tree in lab2/kern/driver/dtb.c, and trees serialised as section
    5.4 of the Devicetree Specification says: tokens, names and properties, each on four bytes. */
module DeviceTree {

  import opened Wrappers
  import opened Bytes

  const FDT_BEGIN_NODE: nat := 1
  const FDT_END_NODE: nat := 2
  const FDT_PROP: nat := 3
  const FDT_NOP: nat := 4
  const FDT_END: nat := 9

  const MEMORY: seq<Byte> := [109, 101, 109, 111, 114, 121]
  const REG: seq<Byte> := [114, 101, 103]

  /** Missing is the return of -1; Wild is a read past the memory at hand, of which C promises nothing. */
  datatype Outcome = Found(base: nat, size: nat) | Missing | Wild

  // ---------- Byte order ----------

  function ByteAt(b: seq<Byte>, i: nat): (x: nat)
    requires i < |b|
    ensures x < 0x100
  {
    b[i] as int
  }

  /** A 32-bit load on a little-endian machine. */
  function Load32(b: seq<Byte>, i: nat): (x: nat)
    requires i + 4 <= |b|
    ensures x < 0x1_0000_0000
  {
    ByteAt(b, i) + 0x100 * ByteAt(b, i + 1) + 0x1_0000 * ByteAt(b, i + 2) + 0x100_0000 * ByteAt(b, i + 3)
  }

  function Load64(b: seq<Byte>, i: nat): nat
    requires i + 8 <= |b|
  {
    Load32(b, i) + 0x1_0000_0000 * Load32(b, i + 4)
  }

  /** fdt32_to_cpu; the parts that it joins by "or" share no bit. */
  function Fdt32(x: nat): nat {
    x % 0x100 * 0x100_0000 + x / 0x100 % 0x100 * 0x1_0000 + x / 0x1_0000 % 0x100 * 0x100 + x / 0x100_0000 % 0x100
  }

  /** fdt64_to_cpu */
  function Fdt64(x: nat): nat {
    Fdt32(x % 0x1_0000_0000) * 0x1_0000_0000 + Fdt32(x / 0x1_0000_0000)
  }

  /** The number that bytes stand for, the most significant first. */
  function BigEndian(b: seq<Byte>): nat {
    if b == [] then 0 else BigEndian(b[..|b| - 1]) * 0x100 + ByteAt(b, |b| - 1)
  }

  lemma {:induction false} Fdt32Reads(b: seq<Byte>, i: nat)
    requires i + 4 <= |b|
    ensures Fdt32(Load32(b, i)) == ByteAt(b, i) * 0x100_0000 + ByteAt(b, i + 1) * 0x1_0000 + ByteAt(b, i + 2) * 0x100 + ByteAt(b, i + 3)
    ensures Fdt32(Load32(b, i)) == BigEndian(b[i..i + 4])
  {
    Swapped(ByteAt(b, i), ByteAt(b, i + 1), ByteAt(b, i + 2), ByteAt(b, i + 3));
    hide Fdt32, BigEndian;
    BigEndian4(b[i..i + 4]);
  }

  lemma {:induction false} Swapped(k: nat, l: nat, m: nat, n: nat)
    requires k < 0x100 && l < 0x100 && m < 0x100 && n < 0x100
    ensures Fdt32(k + 0x100 * l + 0x1_0000 * m + 0x100_0000 * n) == k * 0x100_0000 + l * 0x1_0000 + m * 0x100 + n
  {
    var y2 := m + 0x100 * n;
    var y1 := l + 0x100 * y2;
    var x := k + 0x100 * y1;
    Split(k, y1);
    Split(l, y2);
    Split(m, n);
    Shifts(x);
    assert x == k + 0x100 * l + 0x1_0000 * m + 0x100_0000 * n;
  }

  lemma {:induction false} Split(low: nat, high: nat)
    requires low < 0x100
    ensures (low + 0x100 * high) / 0x100 == high && (low + 0x100 * high) % 0x100 == low
  {
  }

  lemma {:induction false} Shifts(x: nat)
    ensures x / 0x1_0000 == x / 0x100 / 0x100 && x / 0x100_0000 == x / 0x100 / 0x100 / 0x100
  {
  }

  lemma {:induction false} BigEndian4(s: seq<Byte>)
    requires |s| == 4
    ensures BigEndian(s) == ByteAt(s, 0) * 0x100_0000 + ByteAt(s, 1) * 0x1_0000 + ByteAt(s, 2) * 0x100 + ByteAt(s, 3)
  {
    BigEndianJoin([], s);
    assert [] + s == s;
  }

  lemma {:induction false} BigEndianMore(a: seq<Byte>, x: Byte)
    ensures BigEndian(a + [x]) == BigEndian(a) * 0x100 + x as int
  {
    assert (a + [x])[..|a|] == a;
  }

  lemma {:induction false} BigEndianJoin(a: seq<Byte>, b: seq<Byte>)
    requires |b| == 4
    ensures BigEndian(a + b) == BigEndian(a) * 0x1_0000_0000 +
      (ByteAt(b, 0) * 0x100_0000 + ByteAt(b, 1) * 0x1_0000 + ByteAt(b, 2) * 0x100 + ByteAt(b, 3))
  {
    hide BigEndian;
    BigEndianMore(a, b[0]);
    BigEndianMore(a + [b[0]], b[1]);
    BigEndianMore(a + [b[0]] + [b[1]], b[2]);
    BigEndianMore(a + [b[0]] + [b[1]] + [b[2]], b[3]);
    assert a + [b[0]] + [b[1]] + [b[2]] + [b[3]] == a + b;
  }

  lemma {:induction false} Fdt64Reads(b: seq<Byte>, i: nat)
    requires i + 8 <= |b|
    ensures Fdt64(Load64(b, i)) == BigEndian(b[i..i + 8])
  {
    hide Fdt32, BigEndian;
    Fdt32Reads(b, i);
    Fdt32Reads(b, i + 4);
    assert b[i..i + 8] == b[i..i + 4] + b[i + 4..i + 8];
    BigEndianJoin(b[i..i + 4], b[i + 4..i + 8]);
    BigEndian4(b[i + 4..i + 8]);
    hide Load32;
    Halves(Load32(b, i), Load32(b, i + 4));
  }

  lemma {:induction false} Halves(low: nat, high: nat)
    requires low < 0x1_0000_0000
    ensures (low + 0x1_0000_0000 * high) / 0x1_0000_0000 == high && (low + 0x1_0000_0000 * high) % 0x1_0000_0000 == low
  {
  }

  // ---------- The walk ----------

  /** strlen from index i on: None when no terminator comes. */
  function StrLen(b: seq<Byte>, i: nat): (n: Option<nat>)
    ensures n.Some? ==> i + n.value < |b| && b[i + n.value] == 0 && forall j :: i <= j < i + n.value ==> b[j] != 0
    decreases |b| - i
  {
    if i >= |b| then None
    else if b[i] == 0 then Some(0)
    else
      var n := StrLen(b, i + 1);
      if n.Some? then Some(n.value + 1) else None
  }

  /** strncmp with "memory": the name starts with it. */
  predicate StartsMemory(name: seq<Byte>) {
    |name| >= 6 && name[..6] == MEMORY
  }

  /** Rounded up to four bytes. */
  function Align4(n: nat): (m: nat)
    ensures n <= m < n + 4 && m % 4 == 0
  {
    (n + 3) / 4 * 4
  }

  /** extract_memory_info from index p of the memory on, in a memory node or not.  strings is the index
      of the strings block. */
  function Walk(b: seq<Byte>, strings: nat, p: nat, inMemory: bool): Outcome
    decreases |b| - p
  {
    if p + 4 > |b| then Wild
    else
      var token := Fdt32(Load32(b, p));
      if token == FDT_BEGIN_NODE then
        var n := StrLen(b, p + 4);
        if n.None? then Wild
        else Walk(b, strings, Align4(p + 4 + n.value + 1), inMemory || StartsMemory(b[p + 4..p + 4 + n.value]))
      else if token == FDT_END_NODE then Walk(b, strings, p + 4, false)
      else if token == FDT_PROP then
        if p + 12 > |b| then Wild
        else
          var len, name := Fdt32(Load32(b, p + 4)), strings + Fdt32(Load32(b, p + 8));
          var n := StrLen(b, name);
          if inMemory && n.None? then Wild
          else if inMemory && b[name..name + n.value] == REG && len >= 16 then
            if p + 28 > |b| then Wild else Found(Fdt64(Load64(b, p + 12)), Fdt64(Load64(b, p + 20)))
          else Walk(b, strings, Align4(p + 12 + len), inMemory)
      else if token == FDT_NOP then Walk(b, strings, p + 4, inMemory)
      else Missing
  }

  /** extract_memory_info: the header gives the offsets of the two blocks. */
  method ExtractMemoryInfo(b: seq<Byte>) returns (r: Outcome)
    ensures r == if |b| < 16 then Wild else Walk(b, Fdt32(Load32(b, 12)), Fdt32(Load32(b, 8)), false)
  {
    hide Fdt32, Load32, Fdt64, Load64, StrLen;
    if |b| < 16 { return Wild; }
    var strings, p := Fdt32(Load32(b, 12)), Fdt32(Load32(b, 8));
    ghost var start := p;
    var inMemory := false;
    while true
      invariant Walk(b, strings, p, inMemory) == Walk(b, strings, start, false)
      decreases |b| - p
    {
      if p + 4 > |b| { return Wild; }
      var token := Fdt32(Load32(b, p));
      if token == FDT_BEGIN_NODE {
        var n := StrLen(b, p + 4);
        if n.None? { return Wild; }
        if StartsMemory(b[p + 4..p + 4 + n.value]) { inMemory := true; }
        p := Align4(p + 4 + n.value + 1);
      } else if token == FDT_END_NODE {
        inMemory := false;
        p := p + 4;
      } else if token == FDT_PROP {
        if p + 12 > |b| { return Wild; }
        var len, name := Fdt32(Load32(b, p + 4)), strings + Fdt32(Load32(b, p + 8));
        if inMemory {
          var n := StrLen(b, name);
          if n.None? { return Wild; }
          if b[name..name + n.value] == REG && len >= 16 {
            if p + 28 > |b| { return Wild; }
            return Found(Fdt64(Load64(b, p + 12)), Fdt64(Load64(b, p + 20)));
          }
        }
        p := Align4(p + 12 + len);
      } else if token == FDT_NOP {
        p := p + 4;
      } else {
        return Missing;
      }
    }
  }

  // ---------- Trees ----------

  datatype Tree = Node(name: seq<Byte>, items: Items)

  /** What is between the begin and the end of a node, in any order.  A property names itself by an
      offset in the strings block. */
  datatype Items = Done | Prop(nameoff: nat, data: seq<Byte>, rest: Items) | Nop(rest: Items) | Child(node: Tree, rest: Items)

  function Word(n: nat): (w: seq<Byte>)
    ensures |w| == 4
  {
    [n / 0x100_0000 % 0x100, n / 0x1_0000 % 0x100, n / 0x100 % 0x100, n % 0x100]
  }

  function Filled(s: seq<Byte>): (t: seq<Byte>)
    ensures |t| == Align4(|s|) && t[..|s|] == s
  {
    s + seq(Align4(|s|) - |s|, _ => 0)
  }

  function Serial(t: Tree): seq<Byte>
    decreases t
  {
    Word(FDT_BEGIN_NODE) + Filled(t.name + [0]) + SerialItems(t.items) + Word(FDT_END_NODE)
  }

  function SerialItems(items: Items): seq<Byte>
    decreases items
  {
    match items
    case Done => []
    case Prop(nameoff, data, rest) => Word(FDT_PROP) + Word(|data|) + Word(nameoff) + Filled(data) + SerialItems(rest)
    case Nop(rest) => Word(FDT_NOP) + SerialItems(rest)
    case Child(node, rest) => Serial(node) + SerialItems(rest)
  }

  /** Names have no zero byte, numbers fit in a word, and property names are strings in b. */
  ghost predicate Proper(t: Tree, b: seq<Byte>, strings: nat) {
    0 !in t.name && ProperItems(t.items, b, strings)
  }

  ghost predicate ProperItems(items: Items, b: seq<Byte>, strings: nat) {
    match items
    case Done => true
    case Prop(nameoff, data, rest) =>
      nameoff < 0x1_0000_0000 && |data| < 0x1_0000_0000 && StrLen(b, strings + nameoff).Some? && ProperItems(rest, b, strings)
    case Nop(rest) => ProperItems(rest, b, strings)
    case Child(node, rest) => Proper(node, b, strings) && ProperItems(rest, b, strings)
  }

  /** Whether the strings block has "reg" at that offset. */
  predicate IsReg(b: seq<Byte>, strings: nat, nameoff: nat) {
    var n := StrLen(b, strings + nameoff);
    n.Some? && b[strings + nameoff..strings + nameoff + n.value] == REG
  }

  /** A "reg" of at least 16 bytes: those that the code looks for. */
  predicate LongReg(b: seq<Byte>, strings: nat, nameoff: nat, data: seq<Byte>) {
    IsReg(b, strings, nameoff) && |data| >= 16
  }

  /** Where an item is in a list of items: the first, one of the rest, or below the child that is the
      first. */
  datatype Place = Here | Next(later: Place) | Into(below: Place)

  /** The data of the property at a place. */
  function DataAt(items: Items, p: Place): seq<Byte>
    decreases p
  {
    match p
    case Here => if items.Prop? then items.data else []
    case Next(later) => if items.Done? then [] else DataAt(items.rest, later)
    case Into(below) => if items.Child? then DataAt(items.node.items, below) else []
  }

  /** The memory base and size that the data of a "reg" give. */
  function RegValue(data: seq<Byte>): Outcome {
    if |data| < 16 then Missing else Found(BigEndian(data[..8]), BigEndian(data[8..16]))
  }

  /** What a walk returns that ends with the property found at that place, or finds none. */
  function ValueAt(t: Tree, found: Option<Place>): Outcome {
    if found.Some? then RegValue(DataAt(t.items, found.value)) else Missing
  }

  // ---------- What the walk finds in a tree ----------

  /** The property that the walk takes: the flag "in a memory node" goes on into the first child, and is
      off after any node has ended. */
  function Search(t: Tree, flag: bool, b: seq<Byte>, strings: nat): Option<Place>
    decreases t
  {
    SearchItems(t.items, flag || StartsMemory(t.name), b, strings)
  }

  function SearchItems(items: Items, flag: bool, b: seq<Byte>, strings: nat): Option<Place>
    decreases items
  {
    match items
    case Done => None
    case Prop(nameoff, data, rest) =>
      if flag && LongReg(b, strings, nameoff, data) then Some(Here) else Later(SearchItems(rest, flag, b, strings))
    case Nop(rest) => Later(SearchItems(rest, flag, b, strings))
    case Child(node, rest) => Either(Search(node, flag, b, strings), SearchItems(rest, false, b, strings))
  }

  /** What was found among the rest of the items. */
  function Later(r: Option<Place>): Option<Place> {
    if r.Some? then Some(Next(r.value)) else None
  }

  /** What was found in a child, or else in the items after it. */
  function Either(inChild: Option<Place>, after: Option<Place>): Option<Place> {
    if inChild.Some? then Some(Into(inChild.value)) else Later(after)
  }

  /** s is found in b at p. */
  ghost predicate At(b: seq<Byte>, p: nat, s: seq<Byte>) {
    p + |s| <= |b| && b[p..p + |s|] == s
  }

  lemma {:induction false} AtParts(b: seq<Byte>, p: nat, s: seq<Byte>, t: seq<Byte>)
    requires At(b, p, s + t)
    ensures At(b, p, s) && At(b, p + |s|, t)
  {
    assert b[p..p + |s| + |t|][..|s|] == s && b[p..p + |s| + |t|][|s|..] == t;
  }

  lemma {:induction false} WordReads(b: seq<Byte>, p: nat, n: nat)
    requires At(b, p, Word(n)) && n < 0x1_0000_0000
    ensures p + 4 <= |b| && Fdt32(Load32(b, p)) == n
  {
    hide Fdt32, Load32, BigEndian;
    Fdt32Reads(b, p);
    var w := b[p..p + 4];
    assert b[p] == w[0] && b[p + 1] == w[1] && b[p + 2] == w[2] && b[p + 3] == w[3];
    WordValue(n);
  }

  lemma {:induction false} WordValue(n: nat)
    requires n < 0x1_0000_0000
    ensures n / 0x100_0000 % 0x100 * 0x100_0000 + n / 0x1_0000 % 0x100 * 0x1_0000 + n / 0x100 % 0x100 * 0x100 + n % 0x100 == n
  {
    var a, b := n / 0x100, n / 0x1_0000;
    assert b == a / 0x100 && n / 0x100_0000 == b / 0x100;
    assert n == a * 0x100 + n % 0x100 && a == b * 0x100 + a % 0x100 && b == b / 0x100 * 0x100 + b % 0x100;
  }

  lemma {:induction false} StrLenReads(b: seq<Byte>, i: nat, name: seq<Byte>)
    requires At(b, i, name + [0]) && 0 !in name
    ensures StrLen(b, i) == Some(|name|) && b[i..i + |name|] == name
    decreases |name|
  {
    AtParts(b, i, name, [0]);
    assert b[i..i + |name + [0]|][|name|] == 0;
    if name != [] {
      assert b[i] == name[0] && name[0] in name;
      assert name + [0] == [name[0]] + (name[1..] + [0]);
      AtParts(b, i, [name[0]], name[1..] + [0]);
      StrLenReads(b, i + 1, name[1..]);
    }
  }

  lemma {:induction false} StepBegin(b: seq<Byte>, strings: nat, p: nat, name: seq<Byte>, flag: bool)
    requires At(b, p, Word(FDT_BEGIN_NODE) + Filled(name + [0])) && 0 !in name && p % 4 == 0
    ensures var next := p + 4 + |Filled(name + [0])|;
      next % 4 == 0 && Walk(b, strings, p, flag) == Walk(b, strings, next, flag || StartsMemory(name))
  {
    hide Fdt32, Load32, StrLen, Word, Filled;
    AtParts(b, p, Word(FDT_BEGIN_NODE), Filled(name + [0]));
    WordReads(b, p, FDT_BEGIN_NODE);
    AtFilled(b, p + 4, name + [0]);
    StrLenReads(b, p + 4, name);
    AlignFrom(p + 4, |name| + 1);
  }

  lemma {:induction false} AtFilled(b: seq<Byte>, p: nat, s: seq<Byte>)
    requires At(b, p, Filled(s))
    ensures At(b, p, s) && |Filled(s)| == Align4(|s|)
  {
    assert Filled(s) == s + Filled(s)[|s|..];
    AtParts(b, p, s, Filled(s)[|s|..]);
  }

  lemma {:induction false} AlignFrom(p: nat, n: nat)
    requires p % 4 == 0
    ensures Align4(p + n) == p + Align4(n)
  {
  }

  lemma {:induction false} StepWord(b: seq<Byte>, strings: nat, p: nat, token: nat, flag: bool)
    requires At(b, p, Word(token)) && p % 4 == 0
    ensures token == FDT_NOP ==> Walk(b, strings, p, flag) == Walk(b, strings, p + 4, flag)
    ensures token == FDT_END_NODE ==> Walk(b, strings, p, flag) == Walk(b, strings, p + 4, false)
    ensures token == FDT_END ==> Walk(b, strings, p, flag) == Missing
  {
    hide Fdt32, Load32, StrLen, Word;
    if token < 0x1_0000_0000 { WordReads(b, p, token); }
  }

  lemma {:induction false} StepProp(b: seq<Byte>, strings: nat, p: nat, nameoff: nat, data: seq<Byte>, flag: bool)
    requires At(b, p, Word(FDT_PROP) + Word(|data|) + Word(nameoff) + Filled(data)) && p % 4 == 0
    requires nameoff < 0x1_0000_0000 && |data| < 0x1_0000_0000 && StrLen(b, strings + nameoff).Some?
    ensures if flag && LongReg(b, strings, nameoff, data)
      then Walk(b, strings, p, flag) == RegValue(data)
      else Walk(b, strings, p, flag) == Walk(b, strings, p + 12 + |Filled(data)|, flag)
    ensures (p + 12 + |Filled(data)|) % 4 == 0
  {
    hide Fdt32, Load32, StrLen, Word, Filled, Load64, Fdt64, BigEndian;
    AtParts(b, p, Word(FDT_PROP) + Word(|data|) + Word(nameoff), Filled(data));
    AtParts(b, p, Word(FDT_PROP) + Word(|data|), Word(nameoff));
    AtParts(b, p, Word(FDT_PROP), Word(|data|));
    WordReads(b, p, FDT_PROP);
    WordReads(b, p + 4, |data|);
    WordReads(b, p + 8, nameoff);
    AtFilled(b, p + 12, data);
    AlignFrom(p + 12, |data|);
    if |data| >= 16 { RegReads(b, p + 12, data); }
  }

  lemma {:induction false} RegReads(b: seq<Byte>, p: nat, data: seq<Byte>)
    requires At(b, p, data) && |data| >= 16
    ensures RegValue(data) == Found(Fdt64(Load64(b, p)), Fdt64(Load64(b, p + 8)))
  {
    hide Fdt64, Load64, BigEndian;
    Fdt64Reads(b, p);
    Fdt64Reads(b, p + 8);
    assert data == data[..8] + data[8..16] + data[16..];
    AtParts(b, p, data[..8] + data[8..16], data[16..]);
    AtParts(b, p, data[..8], data[8..16]);
  }

  predicate HasChild(items: Items) {
    match items
    case Done => false
    case Prop(_, _, rest) => HasChild(rest)
    case Nop(rest) => HasChild(rest)
    case Child(_, _) => true
  }

  /** Over a serialised tree the walk finds what Search finds, or goes on behind it with the flag off. */
  lemma {:induction false} WalkTree(b: seq<Byte>, strings: nat, p: nat, t: Tree, flag: bool)
    requires At(b, p, Serial(t)) && Proper(t, b, strings) && p % 4 == 0
    ensures match Search(t, flag, b, strings)
            case Some(q) => Walk(b, strings, p, flag) == RegValue(DataAt(t.items, q))
            case None =>
              var next := p + |Serial(t)|;
              next % 4 == 0 && Walk(b, strings, p, flag) == Walk(b, strings, next, false)
    decreases t
  {
    hide Walk, Filled, Word, StartsMemory, At, StrLen, Align4;
    var head, body := Word(FDT_BEGIN_NODE) + Filled(t.name + [0]), SerialItems(t.items);
    assert Serial(t) == head + body + Word(FDT_END_NODE);
    AtParts(b, p, head + body, Word(FDT_END_NODE));
    AtParts(b, p, head, body);
    var inMemory := flag || StartsMemory(t.name);
    StepBegin(b, strings, p, t.name, flag);
    WalkItems(b, strings, p + |head|, t.items, inMemory);
    if SearchItems(t.items, inMemory, b, strings).None? {
      StepWord(b, strings, p + |head| + |body|, FDT_END_NODE, inMemory && !HasChild(t.items));
    }
  }

  /** The walk over items at p finds what SearchItems finds, or goes on behind them. */
  ghost predicate Walked(b: seq<Byte>, strings: nat, p: nat, items: Items, flag: bool) {
    match SearchItems(items, flag, b, strings)
    case Some(q) => Walk(b, strings, p, flag) == RegValue(DataAt(items, q))
    case None =>
      var next := p + |SerialItems(items)|;
      next % 4 == 0 && Walk(b, strings, p, flag) == Walk(b, strings, next, flag && !HasChild(items))
  }

  lemma {:induction false} WalkItems(b: seq<Byte>, strings: nat, p: nat, items: Items, flag: bool)
    requires At(b, p, SerialItems(items)) && ProperItems(items, b, strings) && p % 4 == 0
    ensures Walked(b, strings, p, items, flag)
    decreases items
  {
    hide Walk, Filled, Word, StartsMemory, RegValue, At, StrLen, Align4, Walked, LongReg;
    match items
    case Done =>
      NoneWalked(b, strings, p, flag);
    case Prop(nameoff, data, rest) =>
      var head := Word(FDT_PROP) + Word(|data|) + Word(nameoff) + Filled(data);
      assert SerialItems(items) == head + SerialItems(rest);
      AtParts(b, p, head, SerialItems(rest));
      StepProp(b, strings, p, nameoff, data, flag);
      WalkItems(b, strings, p + |head|, rest, flag);
      PropWalked(b, strings, p, nameoff, data, rest, flag);
    case Nop(rest) =>
      AtParts(b, p, Word(FDT_NOP), SerialItems(rest));
      StepWord(b, strings, p, FDT_NOP, flag);
      WalkItems(b, strings, p + 4, rest, flag);
      NopWalked(b, strings, p, rest, flag);
    case Child(node, rest) =>
      AtParts(b, p, Serial(node), SerialItems(rest));
      WalkTree(b, strings, p, node, flag);
      if Search(node, flag, b, strings).None? { WalkItems(b, strings, p + |Serial(node)|, rest, false); }
      ChildWalked(b, strings, p, node, rest, flag);
  }

  lemma {:induction false} NoneWalked(b: seq<Byte>, strings: nat, p: nat, flag: bool)
    requires p % 4 == 0
    ensures Walked(b, strings, p, Done, flag)
  {
    hide Walk;
  }

  lemma {:induction false} PropWalked(b: seq<Byte>, strings: nat, p: nat, nameoff: nat, data: seq<Byte>, rest: Items, flag: bool)
    requires if flag && LongReg(b, strings, nameoff, data)
      then Walk(b, strings, p, flag) == RegValue(data)
      else Walk(b, strings, p, flag) == Walk(b, strings, p + 12 + |Filled(data)|, flag)
    requires Walked(b, strings, p + 12 + |Filled(data)|, rest, flag)
    ensures Walked(b, strings, p, Prop(nameoff, data, rest), flag)
  {
    hide Walk, Filled, RegValue, LongReg;
  }

  lemma {:induction false} NopWalked(b: seq<Byte>, strings: nat, p: nat, rest: Items, flag: bool)
    requires Walk(b, strings, p, flag) == Walk(b, strings, p + 4, flag) && Walked(b, strings, p + 4, rest, flag)
    ensures Walked(b, strings, p, Nop(rest), flag)
  {
    hide Walk, RegValue;
  }

  lemma {:induction false} ChildWalked(b: seq<Byte>, strings: nat, p: nat, node: Tree, rest: Items, flag: bool)
    requires match Search(node, flag, b, strings)
             case Some(q) => Walk(b, strings, p, flag) == RegValue(DataAt(node.items, q))
             case None =>
               var next := p + |Serial(node)|;
               Walk(b, strings, p, flag) == Walk(b, strings, next, false) && Walked(b, strings, next, rest, false)
    ensures Walked(b, strings, p, Child(node, rest), flag)
  {
    hide Walk, RegValue;
  }

  // ---------- What should be found ----------

  /** The first long "reg" among the properties of a node, or among those before its first child. */
  function OwnReg(items: Items, early: bool, b: seq<Byte>, strings: nat): Option<Place> {
    match items
    case Done => None
    case Prop(nameoff, data, rest) =>
      if LongReg(b, strings, nameoff, data) then Some(Here) else Later(OwnReg(rest, early, b, strings))
    case Nop(rest) => Later(OwnReg(rest, early, b, strings))
    case Child(_, rest) => if early then None else Later(OwnReg(rest, early, b, strings))
  }

  /** In the order of the tree, the first node whose name starts with "memory" and that has a long "reg":
      the place of that "reg". */
  function FirstMemory(t: Tree, b: seq<Byte>, strings: nat): Option<Place>
    decreases t
  {
    var own := if StartsMemory(t.name) then OwnReg(t.items, false, b, strings) else None;
    if own.Some? then own else FirstBelow(t.items, b, strings)
  }

  function FirstBelow(items: Items, b: seq<Byte>, strings: nat): Option<Place>
    decreases items
  {
    match items
    case Done => None
    case Prop(_, _, rest) => Later(FirstBelow(rest, b, strings))
    case Nop(rest) => Later(FirstBelow(rest, b, strings))
    case Child(node, rest) => Either(FirstMemory(node, b, strings), FirstBelow(rest, b, strings))
  }

  /** Going down the chain of first children, the first node with a long "reg" before its own first child
      is none whose name starts with "memory". */
  predicate Leaks(items: Items, b: seq<Byte>, strings: nat)
    decreases items
  {
    match items
    case Done => false
    case Prop(_, _, rest) => Leaks(rest, b, strings)
    case Nop(rest) => Leaks(rest, b, strings)
    case Child(node, _) =>
      if OwnReg(node.items, true, b, strings).Some? then !StartsMemory(node.name) else Leaks(node.items, b, strings)
  }

  /** Up to the first memory node with a long "reg": none has its first one only behind a child, and from
      none without one does the flag leak to another node. */
  predicate Trusty(t: Tree, b: seq<Byte>, strings: nat)
    decreases t
  {
    if StartsMemory(t.name) && OwnReg(t.items, false, b, strings).Some? then OwnReg(t.items, true, b, strings).Some?
    else (StartsMemory(t.name) ==> !Leaks(t.items, b, strings)) && TrustyBelow(t.items, b, strings)
  }

  predicate TrustyBelow(items: Items, b: seq<Byte>, strings: nat)
    decreases items
  {
    match items
    case Done => true
    case Prop(_, _, rest) => TrustyBelow(rest, b, strings)
    case Nop(rest) => TrustyBelow(rest, b, strings)
    case Child(node, rest) =>
      Trusty(node, b, strings) && (FirstMemory(node, b, strings).None? ==> TrustyBelow(rest, b, strings))
  }

  /** With the flag on, an early "reg" is taken, and it is the first of the node's own. */
  lemma {:induction false} EarlyTaken(items: Items, b: seq<Byte>, strings: nat)
    requires OwnReg(items, true, b, strings).Some?
    ensures SearchItems(items, true, b, strings) == OwnReg(items, true, b, strings) == OwnReg(items, false, b, strings)
  {
    match items
    case Prop(nameoff, data, rest) =>
      if !LongReg(b, strings, nameoff, data) { EarlyTaken(rest, b, strings); }
    case Nop(rest) => EarlyTaken(rest, b, strings);
  }

  /** A place among the items themselves, not below a child. */
  predicate Level(p: Place) {
    match p
    case Here => true
    case Next(later) => Level(later)
    case Into(_) => false
  }

  lemma {:induction false} OwnIsLevel(items: Items, b: seq<Byte>, strings: nat)
    ensures var own := OwnReg(items, false, b, strings);
      own.Some? ==> Level(own.value)
  {
    match items
    case Done =>
    case Prop(_, _, rest) => OwnIsLevel(rest, b, strings);
    case Nop(rest) => OwnIsLevel(rest, b, strings);
    case Child(_, rest) => OwnIsLevel(rest, b, strings);
  }

  /** With the flag off, or no early "reg", the walk takes nothing of the node itself. */
  lemma {:induction false} TakenBelow(items: Items, flag: bool, b: seq<Byte>, strings: nat)
    requires flag ==> OwnReg(items, true, b, strings).None?
    ensures var r := SearchItems(items, flag, b, strings);
      r.Some? ==> !Level(r.value)
  {
    match items
    case Done =>
    case Prop(_, _, rest) => TakenBelow(rest, flag, b, strings);
    case Nop(rest) => TakenBelow(rest, flag, b, strings);
    case Child(_, rest) => TakenBelow(rest, false, b, strings);
  }

  /** Whether the node that has the property at place p is a memory node; name is that of the node around
      the items. */
  predicate OfMemory(name: seq<Byte>, items: Items, p: Place)
    decreases p
  {
    match p
    case Here => StartsMemory(name)
    case Next(later) => !items.Done? && OfMemory(name, items.rest, later)
    case Into(below) => items.Child? && OfMemory(items.node.name, items.node.items, below)
  }

  lemma {:induction false} OwnIsOf(name: seq<Byte>, items: Items, early: bool, b: seq<Byte>, strings: nat)
    ensures var own := OwnReg(items, early, b, strings);
      own.Some? ==> (OfMemory(name, items, own.value) <==> StartsMemory(name))
  {
    match items
    case Done =>
    case Prop(_, _, rest) => OwnIsOf(name, rest, early, b, strings);
    case Nop(rest) => OwnIsOf(name, rest, early, b, strings);
    case Child(_, rest) => OwnIsOf(name, rest, early, b, strings);
  }

  lemma {:induction false} FirstIsMemory(t: Tree, b: seq<Byte>, strings: nat)
    ensures var r := FirstMemory(t, b, strings);
      r.Some? ==> OfMemory(t.name, t.items, r.value)
    decreases t
  {
    OwnIsOf(t.name, t.items, false, b, strings);
    BelowIsMemory(t.name, t.items, b, strings);
  }

  lemma {:induction false} BelowIsMemory(name: seq<Byte>, items: Items, b: seq<Byte>, strings: nat)
    ensures var r := FirstBelow(items, b, strings);
      r.Some? ==> OfMemory(name, items, r.value)
    decreases items
  {
    match items
    case Done =>
    case Prop(_, _, rest) => BelowIsMemory(name, rest, b, strings);
    case Nop(rest) => BelowIsMemory(name, rest, b, strings);
    case Child(node, rest) =>
      FirstIsMemory(node, b, strings);
      BelowIsMemory(name, rest, b, strings);
  }

  /** A flag that leaks takes a "reg" of another node; one that does not makes no difference. */
  lemma {:induction false} LeakTaken(name: seq<Byte>, items: Items, b: seq<Byte>, strings: nat)
    requires OwnReg(items, true, b, strings).None?
    ensures var r := SearchItems(items, true, b, strings);
      if Leaks(items, b, strings) then r.Some? && !OfMemory(name, items, r.value)
      else r == SearchItems(items, false, b, strings)
    decreases items
  {
    match items
    case Done =>
    case Prop(_, _, rest) => LeakTaken(name, rest, b, strings);
    case Nop(rest) => LeakTaken(name, rest, b, strings);
    case Child(node, _) =>
      if OwnReg(node.items, true, b, strings).Some? {
        EarlyTaken(node.items, b, strings);
        OwnIsOf(node.name, node.items, true, b, strings);
      } else {
        LeakTaken(node.name, node.items, b, strings);
      }
  }

  /** The walk takes the "reg" of the first memory node, or nothing when there is none, exactly when the
      tree is trusty. */
  lemma {:induction false} SearchIff(t: Tree, b: seq<Byte>, strings: nat)
    ensures Search(t, false, b, strings) == FirstMemory(t, b, strings) <==> Trusty(t, b, strings)
    decreases t
  {
    hide LongReg;
    var early := OwnReg(t.items, true, b, strings);
    if !StartsMemory(t.name) {
      BelowIff(t.items, b, strings);
    } else if early.Some? {
      EarlyTaken(t.items, b, strings);
    } else if OwnReg(t.items, false, b, strings).Some? {
      OwnIsLevel(t.items, b, strings);
      TakenBelow(t.items, true, b, strings);
    } else {
      LeakTaken(t.name, t.items, b, strings);
      BelowIsMemory(t.name, t.items, b, strings);
      BelowIff(t.items, b, strings);
    }
  }

  lemma {:induction false} BelowIff(items: Items, b: seq<Byte>, strings: nat)
    ensures SearchItems(items, false, b, strings) == FirstBelow(items, b, strings) <==> TrustyBelow(items, b, strings)
    decreases items
  {
    match items
    case Done =>
    case Prop(_, _, rest) => BelowIff(rest, b, strings);
    case Nop(rest) => BelowIff(rest, b, strings);
    case Child(node, rest) =>
      SearchIff(node, b, strings);
      BelowIff(rest, b, strings);
  }

  /** The walk over a serialised tree returns what the property taken says, or -1 when none is; and that
      property is the one of the first memory node exactly when the tree is trusty. */
  lemma {:induction false} Extracts(b: seq<Byte>, strings: nat, p: nat, t: Tree)
    requires At(b, p, Serial(t) + Word(FDT_END)) && Proper(t, b, strings) && p % 4 == 0
    ensures Walk(b, strings, p, false) == ValueAt(t, Search(t, false, b, strings))
    ensures Search(t, false, b, strings) == FirstMemory(t, b, strings) <==> Trusty(t, b, strings)
    ensures Trusty(t, b, strings) ==> Walk(b, strings, p, false) == ValueAt(t, FirstMemory(t, b, strings))
  {
    hide Walk, Serial, Word, Trusty, FirstMemory, Search, RegValue, DataAt;
    AtParts(b, p, Serial(t), Word(FDT_END));
    SearchIff(t, b, strings);
    WalkTree(b, strings, p, t, false);
    if Search(t, false, b, strings).None? { StepWord(b, strings, p + |Serial(t)|, FDT_END, false); }
  }

  // ---------- Two trees that are not trusty ----------

  /** A tree, the end token and a strings block with "reg" alone. */
  function Blob(t: Tree): seq<Byte> {
    Serial(t) + Word(FDT_END) + REG + [0]
  }

  function StringsOf(t: Tree): nat {
    |Serial(t) + Word(FDT_END)|
  }

  lemma {:induction false} BlobReads(t: Tree)
    ensures At(Blob(t), 0, Serial(t) + Word(FDT_END)) && StrLen(Blob(t), StringsOf(t)) == Some(3) && IsReg(Blob(t), StringsOf(t), 0)
  {
    hide Serial, Word;
    var head := Serial(t) + Word(FDT_END);
    assert Blob(t) == head + (REG + [0]);
    assert Blob(t)[|head|..] == REG + [0];
    StrLenReads(Blob(t), |head|, REG);
  }

  /** A memory node without "reg" whose first child has one: the walk returns the child's. */
  lemma {:induction false} ChildTaken(name: seq<Byte>, data: seq<Byte>)
    requires 0 !in name && !StartsMemory(name) && 16 <= |data| < 0x1_0000_0000
    ensures var t := Node(MEMORY, Child(Node(name, Prop(0, data, Done)), Done));
      && Walk(Blob(t), StringsOf(t), 0, false) == RegValue(data)
      && FirstMemory(t, Blob(t), StringsOf(t)) == None
  {
    hide Walk, Serial, Word, StrLen, RegValue, IsReg;
    var own := Prop(0, data, Done);
    var child := Node(name, own);
    var items := Child(child, Done);
    var t := Node(MEMORY, items);
    var b, strings := Blob(t), StringsOf(t);
    hide Blob, StringsOf;
    BlobReads(t);
    assert 0 !in MEMORY && StartsMemory(MEMORY);
    assert ProperItems(own, b, strings) && ProperItems(items, b, strings);
    Extracts(b, strings, 0, t);
    assert SearchItems(own, true, b, strings) == Some(Here);
    assert Search(child, true, b, strings) == Some(Here);
    assert SearchItems(items, true, b, strings) == Some(Into(Here));
    assert DataAt(items, Into(Here)) == DataAt(own, Here) == data;
    assert FirstBelow(own, b, strings) == FirstBelow(Done, b, strings) == None;
    assert FirstMemory(child, b, strings) == None;
    assert FirstBelow(items, b, strings) == None;
    assert OwnReg(items, false, b, strings) == OwnReg(Done, false, b, strings) == None;
  }

  /** A memory node whose "reg" comes after a child: the walk returns -1. */
  lemma {:induction false} LateMissed(name: seq<Byte>, data: seq<Byte>)
    requires 0 !in name && 16 <= |data| < 0x1_0000_0000
    ensures var t := Node(MEMORY, Child(Node(name, Done), Prop(0, data, Done)));
      && Walk(Blob(t), StringsOf(t), 0, false) == Missing
      && FirstMemory(t, Blob(t), StringsOf(t)) == Some(Next(Here)) && DataAt(t.items, Next(Here)) == data
  {
    hide Walk, Serial, Word, StrLen, RegValue, IsReg;
    var own := Prop(0, data, Done);
    var items := Child(Node(name, Done), own);
    var t := Node(MEMORY, items);
    var b, strings := Blob(t), StringsOf(t);
    hide Blob, StringsOf;
    BlobReads(t);
    assert 0 !in MEMORY && StartsMemory(MEMORY);
    assert ProperItems(own, b, strings) && ProperItems(items, b, strings);
    Extracts(b, strings, 0, t);
    assert SearchItems(own, false, b, strings) == None;
    assert Search(Node(name, Done), true, b, strings) == None;
    assert SearchItems(items, true, b, strings) == None;
    assert OwnReg(own, false, b, strings) == Some(Here);
    assert OwnReg(items, false, b, strings) == Some(Next(Here));
    assert DataAt(items, Next(Here)) == DataAt(own, Here) == data;
  }
}
