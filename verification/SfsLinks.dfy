/** The link counts that mksfs enters in inodes: each is the number of entries that name the inode, on
    the 16 bits it has. */
module SfsLinks {
  import opened Bytes
  import opened SfsFormat
  import opened SfsStore
  import opened SfsTree

  predicate NamesIno(block: Block, i: nat) {
    block.EntryBlock? && block.ino == i
  }

  /** The entries among the blocks below n that name inode i. */
  function Names(data: map<nat, Block>, i: nat, n: nat): nat {
    if n == 0 then 0
    else Names(data, i, n - 1) + if n - 1 in data && NamesIno(data[n - 1], i) then 1 else 0
  }

  /** Entries name inodes that are there. */
  ghost predicate Led(st: Store) {
    forall b :: b in st.data && st.data[b].EntryBlock? ==> st.data[b].ino in st.objs
  }

  ghost predicate Counted(st: Store) {
    Tidy(st) && Led(st) && forall i :: i in st.objs ==> st.objs[i].nlinks == Names(st.data, i, st.next) % 0x1_0000
  }

  lemma {:induction false} NamesSame(data: map<nat, Block>, data': map<nat, Block>, i: nat, n: nat)
    requires forall b :: 0 <= b < n ==> (b in data <==> b in data') && (b in data ==> data'[b] == data[b])
    ensures Names(data', i, n) == Names(data, i, n)
  {
    if n > 0 { NamesSame(data, data', i, n - 1); }
  }

  lemma {:induction false} NamesBeyond(data: map<nat, Block>, i: nat, m: nat, n: nat)
    requires m <= n && forall b :: m <= b < n ==> b !in data
    ensures Names(data, i, n) == Names(data, i, m)
    decreases n
  {
    if m < n { NamesBeyond(data, i, m, n - 1); }
  }

  lemma {:induction false} NamesNone(data: map<nat, Block>, i: nat, n: nat)
    requires forall b :: b in data ==> !NamesIno(data[b], i)
    ensures Names(data, i, n) == 0
  {
    if n > 0 { NamesNone(data, i, n - 1); }
  }

  /** A block written after all others counts for the inode it names. */
  lemma {:induction false} NamesMore(data: map<nat, Block>, b: nat, block: Block, i: nat, n: nat)
    requires (forall x :: x in data ==> x < b) && b < n
    ensures Names(data[b := block], i, n) == Names(data, i, b) + if NamesIno(block, i) then 1 else 0
  {
    var data' := data[b := block];
    NamesBeyond(data', i, b + 1, n);
    NamesSame(data, data', i, b);
  }

  lemma {:induction false} PutNames(st: Store, i: nat, block: Block, size: nat)
    requires Tidy(st) && i in st.objs && Put(st, i, block, size).Ok?
    ensures var st' := Put(st, i, block, size).value;
      && Tidy(st') && st'.objs.Keys == st.objs.Keys && (forall j :: j in st.objs ==> st'.objs[j].nlinks == st.objs[j].nlinks)
      && (Led(st) && (block.EntryBlock? ==> block.ino in st.objs) ==> Led(st'))
      && forall j: nat :: Names(st'.data, j, st'.next) == Names(st.data, j, st.next) + if NamesIno(block, j) then 1 else 0
  {
    var st' := Put(st, i, block, size).value;
    forall j: nat
      ensures Names(st'.data, j, st'.next) == Names(st.data, j, st.next) + if NamesIno(block, j) then 1 else 0
    {
      NamesMore(st.data, st.next, block, j, st'.next);
    }
  }

  lemma {:induction false} FileCounted(st: Store, i: nat, content: seq<Byte>)
    requires Counted(st) && i in st.objs && OpenFile(st, i, content).Ok?
    ensures Counted(OpenFile(st, i, content).value)
    decreases |content|
  {
    var n := Chunk(content);
    if n > 0 {
      var block := DataBlock(Padded(content[..n]));
      PutNames(st, i, block, n);
      FileCounted(Put(st, i, block, n).value, i, content[n..]);
    }
  }

  lemma {:induction false} EntryCounted(st: Store, cur: nat, file: nat, name: seq<Byte>)
    requires Counted(st) && cur in st.objs && file in st.objs && AddEntry(st, cur, file, name).Ok?
    ensures Counted(AddEntry(st, cur, file, name).value)
  {
    var st1 := Named(st, name);
    var block := EntryBlock(file, st1.name[..NAME_WRITTEN]);
    PutNames(st1, cur, block, NAME_SIZE);
    var st2 := Put(st1, cur, block, NAME_SIZE).value;
    BumpCounted(st, st2, file);
    assert AddEntry(st, cur, file, name).value == Bump(st2, file);
  }

  lemma {:induction false} BumpCounted(st: Store, st2: Store, file: nat)
    requires Counted(st) && Tidy(st2) && Led(st2) && file in st.objs && st2.objs.Keys == st.objs.Keys
    requires forall j :: j in st.objs ==> st2.objs[j].nlinks == st.objs[j].nlinks
    requires forall j :: Names(st2.data, j, st2.next) == Names(st.data, j, st.next) + if j == file then 1 else 0
    ensures Counted(Bump(st2, file))
  {
    var st3 := Bump(st2, file);
    forall j | j in st3.objs
      ensures st3.objs[j].nlinks == Names(st3.data, j, st3.next) % 0x1_0000
    {
      ModNext(Names(st.data, j, st.next));
    }
  }

  lemma {:induction false} ModNext(x: nat)
    ensures (x % 0x1_0000 + 1) % 0x1_0000 == (x + 1) % 0x1_0000
  {
  }

  lemma {:induction false} NewCounted(st: Store, host: nat, kind: Kind)
    requires Counted(st) && NewObj(st, host, kind).Ok?
    ensures Counted(NewObj(st, host, kind).value)
  {
    var st1 := NewObj(st, host, kind).value;
    forall i | i in st1.objs
      ensures st1.objs[i].nlinks == Names(st1.data, i, st1.next) % 0x1_0000
    {
      NamesBeyond(st.data, i, st.next, st1.next);
      if i == st.next { NamesNone(st.data, i, st1.next); }
    }
  }

  lemma {:induction false} NodeCounted(st: Store, cur: nat, node: Node)
    requires Counted(st) && cur in st.objs && AddNode(st, cur, node).Ok?
    ensures Counted(AddNode(st, cur, node).value)
    decreases node, 0
  {
    match node
    case FileNode(host, content) =>
      if host !in st.newest {
        NewCounted(st, host, File);
        FileCounted(NewObj(st, host, File).value, st.next, content);
      }
    case LinkNode(host, target) =>
      NewCounted(st, host, Link);
      PutNames(NewObj(st, host, Link).value, st.next, DataBlock(Padded(target)), |target|);
    case DirNode(host, listing) =>
      NewCounted(st, host, Dir);
      DirCounted(NewObj(st, host, Dir).value, st.next, cur, listing);
    case OtherNode =>
  }

  lemma {:induction false} DirCounted(st: Store, cur: nat, parent: nat, listing: Listing)
    requires Counted(st) && cur in st.objs && parent in st.objs && OpenDir(st, cur, parent, listing).Ok?
    ensures Counted(OpenDir(st, cur, parent, listing).value)
    decreases listing, 1
  {
    EntryCounted(st, cur, cur, [DOT]);
    var st1 := AddEntry(st, cur, cur, [DOT]).value;
    EntryCounted(st1, cur, parent, [DOT, DOT]);
    ListCounted(AddEntry(st1, cur, parent, [DOT, DOT]).value, cur, listing);
  }

  lemma {:induction false} ListCounted(st: Store, cur: nat, listing: Listing)
    requires Counted(st) && cur in st.objs && ReadDir(st, cur, listing).Ok?
    ensures Counted(ReadDir(st, cur, listing).value)
    decreases listing, 0
  {
    match listing
    case Nil =>
    case Cons(name, node, rest) =>
      if Hidden(name) || node.OtherNode? {
        ListCounted(st, cur, rest);
      } else {
        var st1, file := AddNode(st, cur, node).value, AddedIno(st, node);
        NodeCounted(st, cur, node);
        EntryCounted(st1, cur, file, name);
        ListCounted(AddEntry(st1, cur, file, name).value, cur, rest);
      }
  }

  /** In the image, the link count of every inode is the number of entries that name it. */
  lemma {:induction false} BuildCounted(bytes: nat, name: seq<Byte>, listing: Listing)
    requires |name| == NAME_SIZE && Build(bytes, name, listing).Ok?
    ensures Counted(Build(bytes, name, listing).value)
  {
    var st := Create(bytes, name).value;
    NamesNone(st.data, BLKN_ROOT, st.next);
    DirCounted(st, BLKN_ROOT, BLKN_ROOT, listing);
  }
}
