/** The finished image: what close_sfs writes (lab8/tools/mksfs.c lines 302-349), and reading it back by
    following inodes, block maps and directory entries. */
module SfsDisk {
  import opened Bytes
  import opened Wrappers
  import opened SfsFormat
  import opened SfsBlockMap
  import opened SfsStore
  import opened SfsTree
  import opened SfsState

  // ---------- Writing out ----------

  /** Block k of the free map: a bit is set for each number that was not given out. */
  function FreeBits(next: nat, ninos: nat, k: nat): seq<bool> {
    seq(BLKBITS, j requires 0 <= j < BLKBITS => next <= k * BLKBITS + j < ninos)
  }

  function FlushedBlock(s: Sfs, n: nat): Block
    requires n < |s.disk|
  {
    if n == BLKN_SUPER then SuperBlock(MAGIC, s.pool.ninos, s.pool.unused)
    else if n in s.inodes then InodeBlock(s.inodes[n].inode)
    else if n in s.pool.caches then IndexBlock(s.pool.caches[n])
    else if BLKN_FREEMAP <= n < FirstFree(s.pool.ninos) then FreeMapBlock(FreeBits(s.pool.next, s.pool.ninos, n - BLKN_FREEMAP))
    else s.disk[n]
  }

  function Flushed(s: Sfs): (image: seq<Block>)
    ensures |image| == |s.disk| && forall n :: 0 <= n < |image| ==> image[n] == FlushedBlock(s, n)
  {
    seq(|s.disk|, n requires 0 <= n < |s.disk| => FlushedBlock(s, n))
  }

  // ---------- Reading ----------

  function BlocksOf(disk: seq<Block>, v: Inode): (blocks: seq<nat>)
    ensures |blocks| == v.blocks && forall j :: 0 <= j < |blocks| ==> blocks[j] == Bmap(disk, v, j)
  {
    seq(v.blocks, j requires 0 <= j < v.blocks => Bmap(disk, v, j))
  }

  predicate AreData(disk: seq<Block>, blocks: seq<nat>) {
    forall j :: 0 <= j < |blocks| ==> blocks[j] < |disk| && disk[blocks[j]].DataBlock?
  }

  function Concat(disk: seq<Block>, blocks: seq<nat>): seq<Byte>
    requires AreData(disk, blocks)
  {
    if blocks == [] then [] else disk[blocks[0]].bytes + Concat(disk, blocks[1..])
  }

  /** The contents of a file or link: its blocks, cut to its size. */
  function Contents(disk: seq<Block>, v: Inode): Option<seq<Byte>> {
    var blocks := BlocksOf(disk, v);
    if AreData(disk, blocks) && v.size <= |Concat(disk, blocks)| then Some(Concat(disk, blocks)[..v.size]) else None
  }

  predicate IsEntryBlock(disk: seq<Block>, b: nat) {
    b < |disk| && disk[b].EntryBlock?
  }

  predicate IsDot(disk: seq<Block>, b: nat, name: seq<Byte>) {
    IsEntryBlock(disk, b) && CString(disk[b].name) == name
  }

  /** The tree at an inode, of at most that height. */
  function ReadNode(disk: seq<Block>, ino: nat, height: nat): Option<Out>
    decreases height, 0
  {
    if height == 0 || ino >= |disk| || !disk[ino].InodeBlock? then None
    else
      var v := disk[ino].inode;
      match v.kind
      case File =>
        var c := Contents(disk, v);
        if c.Some? then Some(OutFile(ino, c.value)) else None
      case Link =>
        var c := Contents(disk, v);
        if c.Some? then Some(OutLink(c.value)) else None
      case Dir =>
        var blocks := BlocksOf(disk, v);
        if |blocks| < 2 || v.size != NAME_SIZE * |blocks| || !IsDot(disk, blocks[0], [DOT]) || !IsDot(disk, blocks[1], [DOT, DOT]) then None
        else
          var list := ReadEntries(disk, blocks[2..], height - 1);
          if list.Some? then Some(OutDir(ino, disk[blocks[0]].ino, disk[blocks[1]].ino, list.value)) else None
  }

  function ReadEntries(disk: seq<Block>, blocks: seq<nat>, height: nat): Option<OutList>
    decreases height, 1 + |blocks|
  {
    if blocks == [] then Some(OutNil)
    else if !IsEntryBlock(disk, blocks[0]) then None
    else
      var out := ReadNode(disk, disk[blocks[0]].ino, height);
      var rest := ReadEntries(disk, blocks[1..], height);
      if out.Some? && rest.Some? then Some(OutCons(CString(disk[blocks[0]].name), out.value, rest.value)) else None
  }

  function Height(out: Out): nat {
    match out
    case OutDir(_, _, _, list) => 1 + HeightOfList(list)
    case _ => 1
  }

  function HeightOfList(list: OutList): nat {
    match list
    case OutNil => 0
    case OutCons(_, out, rest) => var h, k := Height(out), HeightOfList(rest); if h < k then k else h
  }

  // ---------- What was built is what is read ----------

  /** An inode of the store is found on the image with its blocks. */
  lemma {:induction false} InodeReads(s: Sfs, st: Store, own: map<nat, Owner>, i: nat)
    requires Represents(s, st, own) && i in st.objs
    ensures i < |s.disk| && Flushed(s)[i].InodeBlock?
    ensures var v, o := Flushed(s)[i].inode, st.objs[i];
      v.kind == o.kind && v.size == o.size && v.nlinks == o.nlinks && BlocksOf(Flushed(s), v) == o.blocks
  {
    hide Mapped, Chained, DataOwned, Finds, Hangs, IndexesOwned, Bmap;
    InodeAt(s, st, own, i);
    Numbers(s, st, own);
    IndexesFlushed(s, st, own);
    var v := s.inodes[i].inode;
    MappedLength(s.inodes[i], s.pool, own, st.objs[i].blocks);
    forall j | 0 <= j < |st.objs[i].blocks|
      ensures Bmap(Flushed(s), v, j) == st.objs[i].blocks[j]
    {
      BmapReads(s.inodes[i], s.pool, own, st.objs[i].blocks, Flushed(s), j);
    }
  }

  lemma {:induction false} MappedLength(c: CacheInode, p: Pool, own: map<nat, Owner>, blocks: seq<nat>)
    requires Mapped(c, p, own, blocks)
    ensures c.inode.blocks == |blocks|
  {
  }

  /** Numbers given out are on the disk. */
  lemma {:induction false} Numbers(s: Sfs, st: Store, own: map<nat, Owner>)
    requires Numbered(s.pool, own) && DataWritten(s, st, own)
    ensures forall n: nat :: n in own <==> n < s.pool.next
    ensures s.pool.next <= s.pool.ninos <= |s.disk|
  {
  }

  lemma {:induction false} IndexesFlushed(s: Sfs, st: Store, own: map<nat, Owner>)
    requires Represents(s, st, own)
    ensures IndexesWritten(s.pool, Flushed(s))
  {
    hide Mapped, Chained, DataOwned, Finds, Hangs, IndexesOwned, InodeIs;
    forall x | x in s.pool.caches
      ensures x < |s.disk| && FlushedBlock(s, x) == IndexBlock(s.pool.caches[x])
    {
      assert x in own && IsIndex(own[x]);
    }
  }

  lemma {:induction false} DataReads(s: Sfs, st: Store, own: map<nat, Owner>, b: nat)
    requires Represents(s, st, own) && b in st.data
    ensures b < |s.disk| && Flushed(s)[b] == st.data[b]
  {
    hide Mapped, Chained, DataOwned, Finds, Hangs, IndexesOwned, InodeIs;
    assert b in own && own[b].Data?;
  }

  /** The blocks stored for a content give it back, but for what pads the last one. */
  lemma {:induction false} StoredReads(disk: seq<Block>, data: map<nat, Block>, blocks: seq<nat>, content: seq<Byte>)
    requires Stored(data, blocks, content) && forall b :: b in data ==> b < |disk| && disk[b] == data[b]
    ensures AreData(disk, blocks) && |content| <= |Concat(disk, blocks)| && Concat(disk, blocks)[..|content|] == content
    decreases |blocks|
  {
    if blocks != [] {
      var n := Chunk(content);
      StoredReads(disk, data, blocks[1..], content[n..]);
      assert forall j :: 0 < j < |blocks| ==> blocks[j] == blocks[1..][j - 1];
      var rest := Concat(disk, blocks[1..]);
      assert Concat(disk, blocks) == Padded(content[..n]) + rest;
      if n < BLKSIZE {
        assert content[n..] == [];
      }
      assert content == content[..n] + content[n..];
    }
  }

  /** What fills the last block of a content is less than a block, and zero. */
  lemma {:induction false} StoredFills(disk: seq<Block>, data: map<nat, Block>, blocks: seq<nat>, content: seq<Byte>)
    requires Stored(data, blocks, content) && forall b :: b in data ==> b < |disk| && disk[b] == data[b]
    ensures AreData(disk, blocks) && |Concat(disk, blocks)| == 4096 * |blocks| < |content| + 4096
    ensures forall j :: |content| <= j < |Concat(disk, blocks)| ==> Concat(disk, blocks)[j] == 0
    decreases |blocks|
  {
    if blocks != [] {
      var n := Chunk(content);
      StoredFills(disk, data, blocks[1..], content[n..]);
      assert forall j :: 0 < j < |blocks| ==> blocks[j] == blocks[1..][j - 1];
      assert Concat(disk, blocks) == Padded(content[..n]) + Concat(disk, blocks[1..]);
    }
  }

  /** The flushed disk has what the store has. */
  ghost predicate Shows(disk: seq<Block>, st: Store) {
    && (forall i :: i in st.objs ==> InodeShown(disk, st.objs[i], i))
    && (forall b :: b in st.data ==> b < |disk| && disk[b] == st.data[b])
  }

  ghost predicate InodeShown(disk: seq<Block>, o: Obj, i: nat) {
    && i < |disk| && disk[i].InodeBlock?
    && var v := disk[i].inode;
      v.kind == o.kind && v.size == o.size && v.nlinks == o.nlinks && BlocksOf(disk, v) == o.blocks
  }

  lemma {:induction false} FlushedShows(s: Sfs, st: Store, own: map<nat, Owner>)
    requires Represents(s, st, own)
    ensures Shows(Flushed(s), st)
  {
    hide Represents, Flushed, BlocksOf;
    forall i | i in st.objs
      ensures InodeShown(Flushed(s), st.objs[i], i)
    {
      InodeReads(s, st, own, i);
    }
    forall b | b in st.data
      ensures b < |Flushed(s)| && Flushed(s)[b] == st.data[b]
    {
      DataReads(s, st, own, b);
    }
  }

  /** Reading an image back gives the tree that is stored. */
  lemma {:induction false} ReadsNode(disk: seq<Block>, st: Store, ino: nat, out: Out, height: nat)
    requires Shows(disk, st) && Holds(st, ino, out) && height >= Height(out)
    ensures ReadNode(disk, ino, height) == Some(out)
    decreases out
  {
    assert InodeShown(disk, st.objs[ino], ino);
    var v, o := disk[ino].inode, st.objs[ino];
    match out
    case OutFile(n, content) =>
      StoredReads(disk, st.data, o.blocks, content);
    case OutLink(target) =>
      LinkReads(disk, st.data, o, target);
    case OutDir(n, self, parent, list) =>
      ReadsList(disk, st, o.blocks[2..], list, height - 1);
  }

  lemma {:induction false} LinkReads(disk: seq<Block>, data: map<nat, Block>, o: Obj, target: seq<Byte>)
    requires HoldsLink(data, o, target) && forall b :: b in data ==> b < |disk| && disk[b] == data[b]
    ensures AreData(disk, o.blocks) && o.size <= |Concat(disk, o.blocks)| && Concat(disk, o.blocks)[..o.size] == target
  {
    assert o.blocks == [o.blocks[0]];
    assert Concat(disk, o.blocks) == Padded(target) + Concat(disk, o.blocks[1..]);
  }

  lemma {:induction false} ReadsList(disk: seq<Block>, st: Store, blocks: seq<nat>, list: OutList, height: nat)
    requires Shows(disk, st) && HoldsList(st, blocks, list) && height >= HeightOfList(list)
    ensures ReadEntries(disk, blocks, height) == Some(list)
    decreases list
  {
    match list
    case OutNil =>
    case OutCons(name, out, rest) =>
      ReadsNode(disk, st, st.data[blocks[0]].ino, out, height);
      ReadsList(disk, st, blocks[1..], rest, height);
  }

  // ---------- The free map ----------

  function Trues(bits: seq<bool>): nat {
    if bits == [] then 0 else Trues(bits[..|bits| - 1]) + if bits[|bits| - 1] then 1 else 0
  }

  /** The bits set in the first k blocks of the free map. */
  function FreeCount(disk: seq<Block>, k: nat): nat {
    if k == 0 then 0 else FreeCount(disk, k - 1) + FreeIn(disk, BLKN_FREEMAP + k - 1)
  }

  function FreeIn(disk: seq<Block>, b: nat): nat {
    if b < |disk| && disk[b].FreeMapBlock? then Trues(disk[b].bits) else 0
  }

  /** How many numbers from a up to b are from next up to ninos. */
  function Overlap(next: nat, ninos: nat, a: nat, b: nat): nat {
    var low, high := (if a < next then next else a), if b < ninos then b else ninos;
    if low < high then high - low else 0
  }

  lemma {:induction false} TruesOverlap(next: nat, ninos: nat, k: nat, n: nat)
    requires n <= BLKBITS && next <= ninos
    ensures Trues(FreeBits(next, ninos, k)[..n]) == Overlap(next, ninos, k * BLKBITS, k * BLKBITS + n)
  {
    if n > 0 {
      TruesOverlap(next, ninos, k, n - 1);
      var bits := FreeBits(next, ninos, k)[..n];
      assert bits[..n - 1] == FreeBits(next, ninos, k)[..n - 1];
    }
  }

  lemma {:induction false} FreeBit(next: nat, ninos: nat, n: nat)
    ensures var bits := FreeBits(next, ninos, n / BLKBITS); |bits| == BLKBITS && (bits[n % BLKBITS] <==> next <= n < ninos)
  {
  }

  lemma {:induction false} FreeMapShown(s: Sfs, st: Store, own: map<nat, Owner>, k: nat)
    requires Represents(s, st, own) && BLKN_FREEMAP + k < FirstFree(st.ninos)
    ensures BLKN_FREEMAP + k < |s.disk|
    ensures Flushed(s)[BLKN_FREEMAP + k] == FreeMapBlock(FreeBits(st.next, st.ninos, k))
  {
    hide Mapped, Chained, DataOwned, Finds, Hangs, IndexesOwned, InodeIs, FreeBits;
    assert own[BLKN_FREEMAP + k] == FreeMap;
  }

  lemma {:induction false} FreeCountUpTo(s: Sfs, st: Store, own: map<nat, Owner>, k: nat)
    requires Represents(s, st, own) && BLKN_FREEMAP + k <= FirstFree(st.ninos) && st.next <= st.ninos
    ensures FreeCount(Flushed(s), k) == Overlap(st.next, st.ninos, 0, k * BLKBITS)
    decreases k
  {
    hide Represents;
    if k > 0 {
      FreeCountUpTo(s, st, own, k - 1);
      FreeMapShown(s, st, own, k - 1);
      TruesOverlap(st.next, st.ninos, k - 1, BLKBITS);
      var bits := FreeBits(st.next, st.ninos, k - 1);
      assert bits[..BLKBITS] == bits;
    }
  }

  /** The free map of the image: a bit is set exactly for the numbers without an owner, and as many are
      set as the super block says are unused. */
  lemma {:induction false} FreeMapRight(s: Sfs, st: Store, own: map<nat, Owner>)
    requires Represents(s, st, own)
    ensures |Flushed(s)| > 0 && Flushed(s)[BLKN_SUPER] == SuperBlock(MAGIC, st.ninos, st.ninos - st.next)
    ensures st.next <= st.ninos
    ensures FreeCount(Flushed(s), FirstFree(st.ninos) - BLKN_FREEMAP) == st.ninos - st.next
    ensures forall n: nat :: n < st.ninos ==> BitShown(Flushed(s), n) && (BitOf(Flushed(s), n) <==> n !in own)
  {
    var k := FirstFree(st.ninos) - BLKN_FREEMAP;
    hide Represents, Flushed, FreeBits;
    SuperShown(s, st, own);
    FreeCountUpTo(s, st, own, k);
    assert k * BLKBITS >= st.ninos;
    forall n: nat | n < st.ninos
      ensures BitShown(Flushed(s), n) && (BitOf(Flushed(s), n) <==> n !in own)
    {
      FreeMapShown(s, st, own, n / BLKBITS);
      FreeBit(st.next, st.ninos, n);
    }
  }

  lemma {:induction false} SuperShown(s: Sfs, st: Store, own: map<nat, Owner>)
    requires Represents(s, st, own)
    ensures |Flushed(s)| > 0 && Flushed(s)[BLKN_SUPER] == SuperBlock(MAGIC, st.ninos, st.ninos - st.next)
    ensures st.next <= st.ninos && forall n: nat :: n in own <==> n < st.next
  {
    hide Mapped, Chained, DataOwned, Finds, Hangs, IndexesOwned, InodeIs;
  }

  predicate BitShown(disk: seq<Block>, n: nat) {
    var b := BLKN_FREEMAP + n / BLKBITS;
    b < |disk| && disk[b].FreeMapBlock? && |disk[b].bits| == BLKBITS
  }

  /** Bit n of the free map. */
  predicate BitOf(disk: seq<Block>, n: nat)
    requires BitShown(disk, n)
  {
    disk[BLKN_FREEMAP + n / BLKBITS].bits[n % BLKBITS]
  }

  // ---------- One owner ----------

  /** What each number in use is used for, on the image itself: and for nothing else, since it has one
      owner only. */
  ghost predicate Used(disk: seq<Block>, st: Store, x: nat, o: Owner) {
    match o
    case Super => x == BLKN_SUPER
    case FreeMap => BLKN_FREEMAP <= x < FirstFree(st.ninos)
    case INode => x in st.objs
    case Data(i, j) => i in st.objs && j < |st.objs[i].blocks| && st.objs[i].blocks[j] == x
    case Single(i) => i in st.objs && i < |disk| && disk[i].InodeBlock? && disk[i].inode.indirect == x
    case Double(i) => i in st.objs && i < |disk| && disk[i].InodeBlock? && disk[i].inode.dbIndirect == x
    case Leaf(i, k) => i in st.objs && i < |disk| && disk[i].InodeBlock? && IndexAt(disk, disk[i].inode.dbIndirect, k) == x
  }

  lemma {:induction false} OneOwner(s: Sfs, st: Store, own: map<nat, Owner>, x: nat)
    requires Represents(s, st, own) && x in own
    ensures x < st.next && Used(Flushed(s), st, x, own[x])
  {
    SuperShown(s, st, own);
    hide Mapped, Chained, Finds, Hangs, Numbered, Flushed;
    if IsIndex(own[x]) {
      var i := own[x].i;
      InodeAt(s, st, own, i);
      InodeReads(s, st, own, i);
      InodeFlushed(s, st, own, i);
      IndexesFlushed(s, st, own);
      IndexUsed(s.inodes[i], s.pool, own, st.objs[i].blocks, st, x, Flushed(s));
    }
  }

  lemma {:induction false} InodeFlushed(s: Sfs, st: Store, own: map<nat, Owner>, i: nat)
    requires Represents(s, st, own) && i in st.objs
    ensures i < |Flushed(s)| && i in s.inodes && Flushed(s)[i] == InodeBlock(s.inodes[i].inode)
  {
    hide Mapped, Chained, DataOwned, Finds, Hangs, IndexesOwned, InodeIs;
  }

  /** The index block owned for a duty is the one that does it. */
  lemma {:induction false} IndexUsed(c: CacheInode, p: Pool, own: map<nat, Owner>, blocks: seq<nat>, st: Store, x: nat, disk: seq<Block>)
    requires Mapped(c, p, own, blocks) && IndexesOwned(st, own) && IndexesWritten(p, disk)
    requires x in own && IsIndexOf(own[x], c.ino) && c.ino in st.objs && blocks == st.objs[c.ino].blocks
    ensures own[x].Single? ==> c.inode.indirect == x
    ensures own[x].Double? ==> c.inode.dbIndirect == x
    ensures own[x].Leaf? ==> IndexAt(disk, c.inode.dbIndirect, own[x].k) == x
  {
    assert Needs(st, own[x]);
    if own[x].Leaf? {
      assert |blocks| > L1_NBLKS + NENTRY * own[x].k;
      assert own[x].k < NENTRY;
      var top := p.caches[c.inode.dbIndirect];
      assert Points(top[own[x].k], p, own, Leaf(c.ino, own[x].k), blocks, L1_NBLKS + NENTRY * own[x].k);
    }
  }
}
