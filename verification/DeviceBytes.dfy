/** The walk over the device tree, byte for byte: exactly which node and property it takes, said without
    the names and numbers that the model has for them. */
module DeviceBytes {
  import opened Wrappers
  import opened Bits
  import opened Bytes
  import opened DeviceTree

  /** A root with a filler word and one child that has one property, in bytes: tokens, names and data filled up with the zero
      bytes z1 and z2 to a multiple of four, and the name of the property in the strings block. */
  function OneChild(name: seq<Byte>, z1: seq<Byte>, length: seq<Byte>, data: seq<Byte>, z2: seq<Byte>): seq<Byte> {
    [0, 0, 0, 1] + [0, 0, 0, 0] + [0, 0, 0, 4]
    + ([0, 0, 0, 1] + name + [0] + z1)
    + ([0, 0, 0, 3] + length + [0, 0, 0, 0] + data + z2)
    + [0, 0, 0, 2] + [0, 0, 0, 2] + [0, 0, 0, 9]
  }

  /** The least filling of zero bytes. */
  ghost predicate Fills(z: seq<Byte>, n: nat) {
    |z| < 4 && (n + |z|) % 4 == 0 && forall i :: 0 <= i < |z| ==> z[i] == 0
  }

  lemma {:induction false} FillsOnly(z: seq<Byte>, s: seq<Byte>)
    requires Fills(z, |s|)
    ensures Filled(s) == s + z
  {
    assert |z| == Align4(|s|) - |s|;
  }

  lemma {:induction false} WordBytes(w: seq<Byte>, n: nat)
    requires |w| == 4 && n == w[0] as int * 0x100_0000 + w[1] as int * 0x1_0000 + w[2] as int * 0x100 + w[3] as int
    ensures Word(n) == w && n < 0x1_0000_0000
  {
    var a, b, c, d: nat := w[0], w[1], w[2], w[3];
    Above(n, 0x100_0000, a, b * 0x1_0000 + c * 0x100 + d);
    Above(n, 0x1_0000, a * 0x100 + b, c * 0x100 + d);
    Above(n, 0x100, a * 0x1_0000 + b * 0x100 + c, d);
    Above(a * 0x100 + b, 0x100, a, b);
    Above(a * 0x1_0000 + b * 0x100 + c, 0x100, a * 0x100 + b, c);
    Above(a, 0x100, 0, a);
  }

  lemma {:induction false} Above(n: nat, m: nat, q: nat, r: nat)
    requires n == q * m + r && r < m
    ensures n / m == q && n % m == r
  {
    Euclid(n, m, q, r);
    var d := n / m - q;
    assert m * d == m * (n / m) - m * q == 0;
    if d != 0 { Multiple(m, d); }
  }

  lemma {:induction false} OneChildIs(name: seq<Byte>, z1: seq<Byte>, length: seq<Byte>, data: seq<Byte>, z2: seq<Byte>)
    requires Fills(z1, |name| + 1) && Fills(z2, |data|) && |length| == 4
    requires |data| == length[0] as int * 0x100_0000 + length[1] as int * 0x1_0000 + length[2] as int * 0x100 + length[3] as int
    ensures |data| < 0x1_0000_0000
    ensures OneChild(name, z1, length, data, z2) == Serial(Node([], Nop(Child(Node(name, Prop(0, data, Done)), Done)))) + Word(FDT_END)
  {
    hide Word, Filled, Serial, SerialItems, Fills, OneChild;
    WordBytes([0, 0, 0, 9], 9);
    WordBytes(length, |data|);
    var child := Node(name, Prop(0, data, Done));
    PropBytes(length, data, z2);
    NodeBytes(name, z1, Prop(0, data, Done));
    LastChild(child);
    NopBytes(Child(child, Done));
    Zeros();
    NodeBytes([], [0, 0, 0], Nop(Child(child, Done)));
    InParts(name, z1, length, data, z2);
  }

  lemma {:induction false} InParts(name: seq<Byte>, z1: seq<Byte>, length: seq<Byte>, data: seq<Byte>, z2: seq<Byte>)
    ensures var child := ([0, 0, 0, 1] + name + [0] + z1) + ([0, 0, 0, 3] + length + [0, 0, 0, 0] + data + z2) + [0, 0, 0, 2];
      OneChild(name, z1, length, data, z2)
      == (([0, 0, 0, 1] + [] + [0] + [0, 0, 0]) + ([0, 0, 0, 4] + child) + [0, 0, 0, 2]) + [0, 0, 0, 9]
  {
    assert [0, 0, 0, 1] + [] + [0] + [0, 0, 0] == [0, 0, 0, 1] + [0, 0, 0, 0];
  }

  lemma {:induction false} Zeros()
    ensures Fills([0, 0, 0], 1)
  {
  }

  lemma {:induction false} LastChild(t: Tree)
    ensures SerialItems(Child(t, Done)) == Serial(t)
  {
    assert SerialItems(Done) == [];
  }

  lemma {:induction false} NopBytes(items: Items)
    ensures SerialItems(Nop(items)) == [0, 0, 0, 4] + SerialItems(items)
  {
    WordBytes([0, 0, 0, 4], 4);
    hide Word;
  }

  lemma {:induction false} NodeBytes(name: seq<Byte>, z: seq<Byte>, items: Items)
    requires Fills(z, |name| + 1)
    ensures Serial(Node(name, items)) == ([0, 0, 0, 1] + name + [0] + z) + SerialItems(items) + [0, 0, 0, 2]
  {
    WordBytes([0, 0, 0, 1], 1);
    WordBytes([0, 0, 0, 2], 2);
    FillsOnly(z, name + [0]);
    hide Word, Filled, SerialItems;
  }

  lemma {:induction false} PropBytes(length: seq<Byte>, data: seq<Byte>, z: seq<Byte>)
    requires Fills(z, |data|) && |length| == 4 && Word(|data|) == length
    ensures SerialItems(Prop(0, data, Done)) == [0, 0, 0, 3] + length + [0, 0, 0, 0] + data + z
  {
    WordBytes([0, 0, 0, 3], 3);
    WordBytes([0, 0, 0, 0], 0);
    FillsOnly(z, data);
    hide Word, Filled;
    assert SerialItems(Done) == [];
  }

  /** The first property of that child is taken exactly if the first six bytes of its name are those of
      "memory", whatever follows ("memory@80000000"), the property is "reg", and it has 16 bytes. */
  lemma {:induction false} OneChildFound(name: seq<Byte>, z1: seq<Byte>, length: seq<Byte>, data: seq<Byte>, z2: seq<Byte>, own: seq<Byte>)
    requires 0 !in name && 0 !in own && Fills(z1, |name| + 1) && Fills(z2, |data|) && |length| == 4
    requires |data| == length[0] as int * 0x100_0000 + length[1] as int * 0x1_0000 + length[2] as int * 0x100 + length[3] as int
    ensures var blob := OneChild(name, z1, length, data, z2);
      Walk(blob + own + [0], |blob|, 0, false) ==
        if |name| >= 6 && name[..6] == [109, 101, 109, 111, 114, 121] && own == [114, 101, 103] && |data| >= 16
        then Found(BigEndian(data[..8]), BigEndian(data[8..16])) else Missing
  {
    hide Walk, Serial, Word, StrLen, OneChild, Fills, Proper, Trusty, BigEndian, FirstMemory, Search, ValueAt, IsReg, LongReg, StartsMemory;
    OneChildIs(name, z1, length, data, z2);
    var blob := OneChild(name, z1, length, data, z2);
    var b, strings := blob + own + [0], |blob|;
    var t := Node([], Nop(Child(Node(name, Prop(0, data, Done)), Done)));
    assert b[..strings] == blob;
    OwnName(b, strings, own, blob);
    OneChildProper(name, data, b, strings);
    Extracts(b, strings, 0, t);
    OneChildSearch(name, data, b, strings);
    SixBytes(name);
  }

  lemma {:induction false} SixBytes(name: seq<Byte>)
    ensures StartsMemory(name) <==> |name| >= 6 && name[..6] == [109, 101, 109, 111, 114, 121]
  {
  }

  lemma {:induction false} OwnName(b: seq<Byte>, strings: nat, own: seq<Byte>, blob: seq<Byte>)
    requires b == blob + own + [0] && strings == |blob| && 0 !in own
    ensures StrLen(b, strings).Some? && (IsReg(b, strings, 0) <==> own == [114, 101, 103])
  {
    hide StrLen;
    assert b[strings..] == own + [0];
    StrLenReads(b, strings, own);
  }

  lemma {:induction false} OneChildProper(name: seq<Byte>, data: seq<Byte>, b: seq<Byte>, strings: nat)
    requires 0 !in name && |data| < 0x1_0000_0000 && StrLen(b, strings).Some?
    ensures Proper(Node([], Nop(Child(Node(name, Prop(0, data, Done)), Done))), b, strings)
  {
    hide StrLen;
    assert ProperItems(Prop(0, data, Done), b, strings);
    assert Proper(Node(name, Prop(0, data, Done)), b, strings);
    assert ProperItems(Child(Node(name, Prop(0, data, Done)), Done), b, strings);
    assert ProperItems(Nop(Child(Node(name, Prop(0, data, Done)), Done)), b, strings);
  }

  lemma {:induction false} OneChildSearch(name: seq<Byte>, data: seq<Byte>, b: seq<Byte>, strings: nat)
    ensures var t := Node([], Nop(Child(Node(name, Prop(0, data, Done)), Done)));
      ValueAt(t, Search(t, false, b, strings)) ==
        if StartsMemory(name) && IsReg(b, strings, 0) && |data| >= 16 then Found(BigEndian(data[..8]), BigEndian(data[8..16])) else Missing
  {
    hide IsReg, BigEndian;
    var prop := Prop(0, data, Done);
    var child := Node(name, prop);
    assert !StartsMemory([]);
    var r := SearchItems(prop, StartsMemory(name), b, strings);
    assert SearchItems(Done, StartsMemory(name), b, strings) == None && SearchItems(Done, false, b, strings) == None;
    assert r == if StartsMemory(name) && LongReg(b, strings, 0, data) then Some(Here) else None;
    assert Search(child, false, b, strings) == r;
    assert SearchItems(Child(child, Done), false, b, strings) == Either(r, None);
    assert SearchItems(Nop(Child(child, Done)), false, b, strings) == Later(Either(r, None));
    assert DataAt(Nop(Child(child, Done)), Next(Into(Here))) == DataAt(Child(child, Done), Into(Here)) == DataAt(prop, Here) == data;
  }
}
