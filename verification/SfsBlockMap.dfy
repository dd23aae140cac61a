/** How mksfs numbers blocks and enters them in the block map of a file: sfs_alloc_ino, the cache of
    index blocks, update_cache and append_block (lab8/tools/mksfs.c lines 173-199 and 382-426). */
module SfsBlockMap {
  import opened SfsFormat

  const HASH_LIST_SIZE: nat := 1024

  /** A cache_inode.  The cached index blocks l1 and l2 are named by their block numbers, 0 for NULL. */
  datatype CacheInode = CacheInode(inode: Inode, host: nat, ino: nat, nblks: nat, l1: nat, l2: nat)

  /** The block numbers given out, and the index blocks in memory: their contents by block number, and
      the hash chains that hold their numbers. */
  datatype Pool = Pool(ninos: nat, next: nat, unused: int, caches: map<nat, seq<nat>>, chains: seq<seq<nat>>)

  function Zeros(n: nat): (zeros: seq<nat>)
    ensures |zeros| == n && forall k :: 0 <= k < n ==> zeros[k] == 0
  {
    seq(n, _ => 0)
  }

  function Hash32(val: nat): (h: nat)
    ensures h < HASH_LIST_SIZE
  {
    val % 0x1_0000_0000 * 0x9e370001 % 0x1_0000_0000 / 0x40_0000
  }

  function AllocIno(p: Pool): Result<(Pool, nat)> {
    if p.next < p.ninos then Ok((Pool(p.ninos, p.next + 1, p.unused - 1, p.caches, p.chains), p.next)) else Bug
  }

  /** An empty index block with number x. */
  function AddCache(p: Pool, x: nat): Pool
    requires |p.chains| == HASH_LIST_SIZE
  {
    Pool(p.ninos, p.next, p.unused, p.caches[x := Zeros(NENTRY)], p.chains[Hash32(0) := [x] + p.chains[Hash32(0)]])
  }

  /** alloc_cache_block, with the argument 0 that it is always called with. */
  function AllocCacheBlock(p: Pool): Result<(Pool, nat)>
    requires |p.chains| == HASH_LIST_SIZE
  {
    match AllocIno(p)
    case Ok(r) => Ok((AddCache(r.0, r.1), r.1))
    case _ => Bug
  }

  /** search_cache_block */
  predicate CacheFound(p: Pool, ino: nat)
    requires |p.chains| == HASH_LIST_SIZE
  {
    ino in p.chains[Hash32(ino)]
  }

  /** update_cache: the index block with number ino, where cb was the one last used. */
  function UpdateCache(p: Pool, cb: nat, ino: nat): Result<(Pool, nat)>
    requires |p.chains| == HASH_LIST_SIZE
  {
    if ino == 0 then AllocCacheBlock(p)
    else if cb == 0 || cb != ino then (if CacheFound(p, ino) then Ok((p, ino)) else Failed)
    else Ok((p, cb))
  }

  function Cached(p: Pool, caches: map<nat, seq<nat>>): Pool {
    Pool(p.ninos, p.next, p.unused, caches, p.chains)
  }

  function Replaced(entries: seq<nat>, k: nat, value: nat): seq<nat>
    requires k < |entries|
  {
    entries[k := value]
  }

  /** data[k] = value in a cached index block. */
  function StoreEntry(p: Pool, x: nat, k: nat, value: nat): Pool {
    if x in p.caches && k < |p.caches[x]| then Cached(p, p.caches[x := Replaced(p.caches[x], k, value)]) else p
  }

  function LoadEntry(p: Pool, x: nat, k: nat): nat {
    if x in p.caches && k < |p.caches[x]| then p.caches[x][k] else 0
  }

  function Linked(v: Inode, direct: seq<nat>, indirect: nat, dbIndirect: nat): Inode {
    Inode(v.size, v.kind, v.nlinks, v.blocks, direct, indirect, dbIndirect)
  }

  function WithDirect(c: CacheInode, n: nat, b: nat): CacheInode
    requires n < |c.inode.direct|
  {
    c.(inode := Linked(c.inode, Replaced(c.inode.direct, n, b), c.inode.indirect, c.inode.dbIndirect))
  }

  function WithSingle(c: CacheInode, x: nat): CacheInode {
    c.(l1 := x, inode := Linked(c.inode, c.inode.direct, x, c.inode.dbIndirect))
  }

  function WithDouble(c: CacheInode, y: nat): CacheInode {
    c.(l2 := y, inode := Linked(c.inode, c.inode.direct, c.inode.indirect, y))
  }

  /** The leaf of the double index that block n belongs in, and its place there. */
  function LeafOf(n: nat): nat
    requires n >= L1_NBLKS
  {
    (n - L1_NBLKS) / NENTRY
  }

  function SlotOf(n: nat): nat
    requires n >= L1_NBLKS
  {
    (n - L1_NBLKS) % NENTRY
  }

  /** Entering block n in its leaf x, and x in the double index y. */
  function Entered(p: Pool, y: nat, x: nat, n: nat, b: nat): Pool
    requires n >= L1_NBLKS
  {
    StoreEntry(StoreEntry(p, y, LeafOf(n), x), x, SlotOf(n), b)
  }

  /** append_block */
  function AppendBlock(p: Pool, c: CacheInode, size: nat, b: nat): Result<(Pool, CacheInode)>
    requires |p.chains| == HASH_LIST_SIZE && |c.inode.direct| == NDIRECT
  {
    var n := c.nblks;
    if size > BLKSIZE then Failed
    else if n >= LN_NBLKS then Bug
    else if n < NDIRECT then
      Ok((p, Counted(WithDirect(c, n, b), size)))
    else if n < L1_NBLKS then
      match UpdateCache(p, c.l1, c.inode.indirect)
      case Ok(r) => Ok((StoreEntry(r.0, r.1, n - NDIRECT, b), Counted(WithSingle(c, r.1), size)))
      case Bug => Bug
      case Failed => Failed
    else
      match UpdateCache(p, c.l2, c.inode.dbIndirect)
      case Bug => Bug
      case Failed => Failed
      case Ok(r) => AppendLeaf(r.0, WithDouble(c, r.1), size, b)
  }

  /** The rest of append_block for the double index, whose block is c.l2. */
  function AppendLeaf(p: Pool, c: CacheInode, size: nat, b: nat): Result<(Pool, CacheInode)>
    requires |p.chains| == HASH_LIST_SIZE && c.nblks >= L1_NBLKS
  {
    match UpdateCache(p, c.l1, LoadEntry(p, c.l2, LeafOf(c.nblks)))
    case Ok(r) =>
      Ok((Entered(r.0, c.l2, r.1, c.nblks, b), Counted(c.(l1 := r.1), size)))
    case Bug => Bug
    case Failed => Failed
  }

  /** The counts at the end of append_block. */
  function Counted(c: CacheInode, size: nat): CacheInode {
    var v := c.inode;
    c.(nblks := c.nblks + 1,
       inode := Inode(v.size + size, v.kind, v.nlinks, v.blocks + 1, v.direct, v.indirect, v.dbIndirect))
  }

  // ---------- Who owns a block ----------

  /** What a block number was given out for: an inode, one of the index blocks of inode i, or block j
      of its contents. */
  datatype Owner = Super | FreeMap | INode | Single(i: nat) | Double(i: nat) | Leaf(i: nat, k: nat) | Data(i: nat, j: nat)

  predicate IsIndexOf(o: Owner, i: nat) {
    (o.Single? || o.Double? || o.Leaf?) && o.i == i
  }

  predicate IsIndex(o: Owner) {
    o.Single? || o.Double? || o.Leaf?
  }

  /** Exactly the numbers below next have an owner, and the cached index blocks are those owned as such. */
  ghost predicate Numbered(p: Pool, own: map<nat, Owner>) {
    && |p.chains| == HASH_LIST_SIZE && 0 < p.next <= p.ninos && p.unused + p.next == p.ninos
    && (forall x: nat :: x in own <==> x < p.next)
    && (forall x: nat :: x in p.caches <==> x in own && IsIndex(own[x]))
    && (forall x: nat :: x in p.caches ==> |p.caches[x]| == NENTRY)
    && own[0] == Super
  }

  /** Entry j of s, or 0 past its end. */
  function Nth(s: seq<nat>, j: nat): nat {
    if j < |s| then s[j] else 0
  }

  /** An index block holds the part of s that starts at base. */
  ghost predicate Filled(entries: seq<nat>, s: seq<nat>, base: nat) {
    |entries| == NENTRY && forall j :: 0 <= j < NENTRY ==> entries[j] == Nth(s, base + j)
  }

  /** A pointer to an index block with that owner, which holds the part of s that starts at base;
      or 0, when s does not get that far. */
  ghost predicate Points(x: nat, p: Pool, own: map<nat, Owner>, o: Owner, s: seq<nat>, base: nat) {
    if |s| > base then x in own && own[x] == o && x in p.caches && Filled(p.caches[x], s, base) else x == 0
  }

  ghost predicate Leaves(top: seq<nat>, p: Pool, own: map<nat, Owner>, i: nat, s: seq<nat>) {
    |top| == NENTRY && forall k :: 0 <= k < NENTRY ==> Points(top[k], p, own, Leaf(i, k), s, L1_NBLKS + NENTRY * k)
  }

  /** The double index. */
  ghost predicate Tops(y: nat, p: Pool, own: map<nat, Owner>, i: nat, s: seq<nat>) {
    if |s| > L1_NBLKS then y in own && own[y] == Double(i) && y in p.caches && Leaves(p.caches[y], p, own, i, s) else y == 0
  }

  /** The block map of c stands for the sequence s of block numbers. */
  ghost predicate Mapped(c: CacheInode, p: Pool, own: map<nat, Owner>, s: seq<nat>) {
    && c.nblks == c.inode.blocks == |s| <= LN_NBLKS
    && |c.inode.direct| == NDIRECT && (forall j :: 0 <= j < NDIRECT ==> c.inode.direct[j] == Nth(s, j))
    && Points(c.inode.indirect, p, own, Single(c.ino), s, NDIRECT)
    && Tops(c.inode.dbIndirect, p, own, c.ino, s)
    && Recent(c, p, |s|)
  }

  /** The index blocks last used. */
  ghost predicate Recent(c: CacheInode, p: Pool, n: nat) {
    && c.l2 == c.inode.dbIndirect
    && c.l1 == if n <= L1_NBLKS then c.inode.indirect else LoadEntry(p, c.l2, LeafOf(n - 1))
  }

  // ---------- Appending ----------

  /** The index blocks that appending block n takes. */
  function NewIndexes(n: nat): nat {
    if n == NDIRECT then 1
    else if n == L1_NBLKS then 2
    else if n > L1_NBLKS && SlotOf(n) == 0 then 1
    else 0
  }

  /** The owners after appending block n to inode i, when next is the first number free. */
  function Grown(own: map<nat, Owner>, next: nat, i: nat, n: nat): map<nat, Owner> {
    if NewIndexes(n) == 0 then own
    else if n == NDIRECT then own[next := Single(i)]
    else if n == L1_NBLKS then own[next := Double(i)][next + 1 := Leaf(i, 0)]
    else own[next := Leaf(i, LeafOf(n))]
  }

  /** Nothing but the index blocks of i has changed. */
  ghost predicate OnlyIndexesOf(i: nat, p: Pool, own: map<nat, Owner>, p': Pool, own': map<nat, Owner>) {
    && (forall x :: x in own ==> x in own' && own'[x] == own[x])
    && (forall x :: x in p.caches && x in own && !IsIndexOf(own[x], i) ==> x in p'.caches && p'.caches[x] == p.caches[x])
    && p'.ninos == p.ninos && p'.next >= p.next
  }

  /** The block map of another inode is not affected. */
  lemma {:induction false} OthersMapped(c: CacheInode, s: seq<nat>, i: nat, p: Pool, own: map<nat, Owner>, p': Pool, own': map<nat, Owner>)
    requires Mapped(c, p, own, s) && c.ino != i
    requires (forall x :: x in p.caches ==> x in own) && OnlyIndexesOf(i, p, own, p', own')
    ensures Mapped(c, p', own', s)
  {
    if |s| > L1_NBLKS {
      var top := p.caches[c.inode.dbIndirect];
      assert p'.caches[c.inode.dbIndirect] == top;
      forall k | 0 <= k < NENTRY
        ensures Points(top[k], p', own', Leaf(c.ino, k), s, L1_NBLKS + NENTRY * k)
      {
        assert Points(top[k], p, own, Leaf(c.ino, k), s, L1_NBLKS + NENTRY * k);
      }
    }
  }

  /** A block number given out, as what o says. */
  lemma {:induction false} NumberedMore(p: Pool, own: map<nat, Owner>, o: Owner)
    requires Numbered(p, own) && p.next < p.ninos
    ensures !IsIndex(o) ==> Numbered(AllocIno(p).value.0, own[p.next := o])
    ensures IsIndex(o) ==> Numbered(AllocCacheBlock(p).value.0, own[p.next := o])
  {
  }

  /** update_cache on a pointer that is not set yet makes an empty index block. */
  lemma {:induction false} UpdateFresh(p: Pool, own: map<nat, Owner>, cb: nat, o: Owner)
    requires Numbered(p, own) && IsIndex(o)
    ensures var r := UpdateCache(p, cb, 0);
      if p.next == p.ninos then r == Bug
      else (
        && r.Ok? && r.value.1 == p.next && r.value.0.caches == p.caches[p.next := Zeros(NENTRY)]
        && r.value.0.next == p.next + 1 && r.value.0.ninos == p.ninos && Numbered(r.value.0, own[p.next := o]))
  {
    if p.next < p.ninos { NumberedMore(p, own, o); }
  }

  lemma {:induction false} StoreNumbered(p: Pool, own: map<nat, Owner>, x: nat, k: nat, value: nat)
    requires Numbered(p, own)
    ensures Numbered(StoreEntry(p, x, k, value), own)
  {
  }

  /** An index block after the next entry is stored in it. */
  lemma {:induction false} FilledNext(entries: seq<nat>, s: seq<nat>, base: nat, b: nat)
    requires Filled(entries, s, base) && base <= |s| < base + NENTRY
    ensures Filled(Replaced(entries, |s| - base, b), s + [b], base)
  {
  }

  /** A full index block is not affected. */
  lemma {:induction false} FilledFull(entries: seq<nat>, s: seq<nat>, base: nat, b: nat)
    requires Filled(entries, s, base) && base + NENTRY <= |s|
    ensures Filled(entries, s + [b], base)
  {
  }

  /** What append_block makes of the block map, when there is room. */
  ghost predicate Appended(p: Pool, c: CacheInode, own: map<nat, Owner>, s: seq<nat>, size: nat, b: nat, p': Pool, c': CacheInode) {
    var own' := Grown(own, p.next, c.ino, |s|);
    && Mapped(c', p', own', s + [b])
    && Numbered(p', own') && p'.next == p.next + NewIndexes(|s|)
    && OnlyIndexesOf(c.ino, p, own, p', own')
    && c'.ino == c.ino && c'.host == c.host
    && c'.inode.kind == c.inode.kind && c'.inode.nlinks == c.inode.nlinks && c'.inode.size == c.inode.size + size
  }

  /** append_block fails when the file has the most blocks it may have or no number is left for an index
      block it needs; else the block map stands for one block more.  No assertion fails, and with that
      the search in update_cache is never made: it would look in another hash chain than the one that
      alloc_cache_block put the index block in. */
  lemma {:induction false} AppendSpec(p: Pool, c: CacheInode, own: map<nat, Owner>, s: seq<nat>, size: nat, b: nat)
    requires Numbered(p, own) && Mapped(c, p, own, s) && size <= BLKSIZE
    ensures var r := AppendBlock(p, c, size, b);
      if |s| == LN_NBLKS || p.next + NewIndexes(|s|) > p.ninos then r == Bug
      else r.Ok? && Appended(p, c, own, s, size, b, r.value.0, r.value.1)
  {
    if |s| < NDIRECT {
      AppendDirect(p, c, own, s, size, b);
    } else if |s| < L1_NBLKS {
      AppendSingle(p, c, own, s, size, b);
    } else if |s| < LN_NBLKS {
      AppendDouble(p, c, own, s, size, b);
    }
  }

  lemma {:induction false} AppendDirect(p: Pool, c: CacheInode, own: map<nat, Owner>, s: seq<nat>, size: nat, b: nat)
    requires Numbered(p, own) && Mapped(c, p, own, s) && size <= BLKSIZE && |s| < NDIRECT
    ensures var r := AppendBlock(p, c, size, b);
      r.Ok? && Appended(p, c, own, s, size, b, r.value.0, r.value.1)
  {
  }

  lemma {:induction false} AppendSingle(p: Pool, c: CacheInode, own: map<nat, Owner>, s: seq<nat>, size: nat, b: nat)
    requires Numbered(p, own) && Mapped(c, p, own, s) && size <= BLKSIZE && NDIRECT <= |s| < L1_NBLKS
    ensures var r := AppendBlock(p, c, size, b);
      if p.next + NewIndexes(|s|) > p.ninos then r == Bug
      else r.Ok? && Appended(p, c, own, s, size, b, r.value.0, r.value.1)
  {
    var x0 := c.inode.indirect;
    if |s| == NDIRECT { UpdateFresh(p, own, c.l1, Single(c.ino)); }
    var u := UpdateCache(p, c.l1, x0);
    if u.Ok? {
      var p1, x := u.value.0, u.value.1;
      FilledNext(p1.caches[x], s, NDIRECT, b);
      StoreNumbered(p1, Grown(own, p.next, c.ino, |s|), x, |s| - NDIRECT, b);
    }
  }

  /** The same once the double index is there: c.l2 is its block. */
  ghost predicate Doubled(c: CacheInode, p: Pool, own: map<nat, Owner>, s: seq<nat>) {
    && c.nblks == c.inode.blocks == |s| && L1_NBLKS <= |s| < LN_NBLKS
    && |c.inode.direct| == NDIRECT && (forall j :: 0 <= j < NDIRECT ==> c.inode.direct[j] == Nth(s, j))
    && Points(c.inode.indirect, p, own, Single(c.ino), s, NDIRECT)
    && c.l2 == c.inode.dbIndirect
    && c.l2 in own && own[c.l2] == Double(c.ino) && c.l2 in p.caches && Leaves(p.caches[c.l2], p, own, c.ino, s)
    && (|s| > L1_NBLKS ==> c.l1 == LoadEntry(p, c.l2, LeafOf(|s| - 1)))
  }

  /** The leaf for block |s| of inode i is found, or made if the block is its first. */
  lemma {:induction false} FindLeaf(p: Pool, c: CacheInode, own: map<nat, Owner>, s: seq<nat>)
    requires Numbered(p, own) && Doubled(c, p, own, s)
    ensures var q, first := LeafOf(|s|), SlotOf(|s|) == 0;
      var r := UpdateCache(p, c.l1, LoadEntry(p, c.l2, q));
      var own' := if first then own[p.next := Leaf(c.ino, q)] else own;
      if first && p.next == p.ninos then r == Bug
      else (
        && r.Ok? && Numbered(r.value.0, own') && r.value.0.ninos == p.ninos
        && r.value.0.next == p.next + (if first then 1 else 0)
        && (forall x :: x in p.caches ==> x in r.value.0.caches && r.value.0.caches[x] == p.caches[x])
        && HoldsPart(r.value.1, r.value.0, own', Leaf(c.ino, q), s, L1_NBLKS + NENTRY * q)
        && (!first ==> r.value.1 == p.caches[c.l2][q]))
  {
    var q := LeafOf(|s|);
    assert Points(p.caches[c.l2][q], p, own, Leaf(c.ino, q), s, L1_NBLKS + NENTRY * q);
    if SlotOf(|s|) == 0 { UpdateFresh(p, own, c.l1, Leaf(c.ino, q)); }
  }

  /** x is an index block with that owner, with the part of s that starts at base. */
  ghost predicate HoldsPart(x: nat, p: Pool, own: map<nat, Owner>, o: Owner, s: seq<nat>, base: nat) {
    x in own && own[x] == o && x in p.caches && Filled(p.caches[x], s, base)
  }

  /** The double index after the next block is entered in the leaf x. */
  lemma {:induction false} LeavesNext(p: Pool, own: map<nat, Owner>, i: nat, s: seq<nat>, y: nat, q: nat, x: nat, b: nat,
                                      p': Pool)
    requires y in own && own[y] == Double(i) && y in p.caches && |p.caches[y]| == NENTRY
    requires L1_NBLKS <= |s| < LN_NBLKS && q == LeafOf(|s|)
    requires forall k :: 0 <= k < NENTRY && k != q ==> Points(p.caches[y][k], p, own, Leaf(i, k), s, L1_NBLKS + NENTRY * k)
    requires HoldsPart(x, p, own, Leaf(i, q), s, L1_NBLKS + NENTRY * q)
    requires p' == StoreEntry(StoreEntry(p, y, q, x), x, SlotOf(|s|), b)
    ensures y in p'.caches && Leaves(p'.caches[y], p', own, i, s + [b])
    ensures p'.caches[y][q] == x
  {
    var base := L1_NBLKS + NENTRY * q;
    FilledNext(p.caches[x], s, base, b);
    var top' := p'.caches[y];
    assert top' == Replaced(p.caches[y], q, x);
    assert p'.caches[x] == Replaced(p.caches[x], |s| - base, b);
    forall k | 0 <= k < NENTRY
      ensures Points(top'[k], p', own, Leaf(i, k), s + [b], L1_NBLKS + NENTRY * k)
    {
      if k != q {
        var z := p.caches[y][k];
        assert Points(z, p, own, Leaf(i, k), s, L1_NBLKS + NENTRY * k);
        if k < q { FilledFull(p.caches[z], s, L1_NBLKS + NENTRY * k, b); }
      }
    }
  }

  /** Nothing is lost from p to p1. */
  ghost predicate Keeps(p: Pool, own: map<nat, Owner>, p1: Pool, own1: map<nat, Owner>) {
    && (forall x :: x in p.caches ==> x in p1.caches && p1.caches[x] == p.caches[x])
    && (forall x :: x in own ==> x in own1 && own1[x] == own[x])
    && p1.ninos == p.ninos && p1.next >= p.next
  }

  lemma {:induction false} EnteredFrame(p: Pool, own: map<nat, Owner>, i: nat, p1: Pool, own1: map<nat, Owner>,
                                        y: nat, x: nat, n: nat, b: nat)
    requires Numbered(p1, own1) && Keeps(p, own, p1, own1) && n >= L1_NBLKS
    requires y in own1 && IsIndexOf(own1[y], i) && x in own1 && IsIndexOf(own1[x], i)
    ensures Numbered(Entered(p1, y, x, n, b), own1) && Entered(p1, y, x, n, b).next == p1.next
    ensures OnlyIndexesOf(i, p, own, Entered(p1, y, x, n, b), own1)
  {
    StoreNumbered(p1, own1, y, LeafOf(n), x);
    StoreNumbered(StoreEntry(p1, y, LeafOf(n), x), own1, x, SlotOf(n), b);
  }

  lemma {:induction false} EnteredMapped(p: Pool, c: CacheInode, own: map<nat, Owner>, s: seq<nat>, size: nat, b: nat,
                                         p1: Pool, own1: map<nat, Owner>, x: nat)
    requires Doubled(c, p, own, s) && Keeps(p, own, p1, own1)
    requires HoldsPart(x, p1, own1, Leaf(c.ino, LeafOf(|s|)), s, L1_NBLKS + NENTRY * (LeafOf(|s|)))
    ensures Mapped(Counted(c.(l1 := x), size), Entered(p1, c.l2, x, |s|, b), own1, s + [b])
  {
    var q := LeafOf(|s|);
    var p2 := Entered(p1, c.l2, x, |s|, b);
    OthersPoint(p, own, p1, own1, c.ino, s, c.l2, q);
    LeavesNext(p1, own1, c.ino, s, c.l2, q, x, b, p2);
    FilledFull(p.caches[c.inode.indirect], s, NDIRECT, b);
    assert Points(c.inode.indirect, p2, own1, Single(c.ino), s + [b], NDIRECT);
    hide Leaves, Filled;
    assert Tops(c.l2, p2, own1, c.ino, s + [b]);
    assert LoadEntry(p2, c.l2, q) == x;
  }

  lemma {:induction false} AppendToLeaf(p: Pool, c: CacheInode, own: map<nat, Owner>, s: seq<nat>, size: nat, b: nat)
    requires Numbered(p, own) && Doubled(c, p, own, s)
    ensures var first := SlotOf(|s|) == 0;
      var own' := if first then own[p.next := Leaf(c.ino, LeafOf(|s|))] else own;
      var r := AppendLeaf(p, c, size, b);
      if first && p.next == p.ninos then r == Bug
      else (
        && r.Ok? && Numbered(r.value.0, own') && r.value.0.next == p.next + (if first then 1 else 0)
        && Mapped(r.value.1, r.value.0, own', s + [b]) && OnlyIndexesOf(c.ino, p, own, r.value.0, own')
        && r.value.1 == Counted(c.(l1 := r.value.1.l1), size))
  {
    hide SlotOf, LeafOf;
    FindLeaf(p, c, own, s);
    var q, first := LeafOf(|s|), SlotOf(|s|) == 0;
    var u := UpdateCache(p, c.l1, LoadEntry(p, c.l2, q));
    if !(first && p.next == p.ninos) {
      var p1, x := u.value.0, u.value.1;
      var own1 := if first then own[p.next := Leaf(c.ino, q)] else own;
      assert Keeps(p, own, p1, own1);
      EnteredMapped(p, c, own, s, size, b, p1, own1, x);
      EnteredFrame(p, own, c.ino, p1, own1, c.l2, x, |s|, b);
      assert AppendLeaf(p, c, size, b) == Ok((Entered(p1, c.l2, x, |s|, b), Counted(c.(l1 := x), size)));
      hide Doubled, HoldsPart, Numbered, Keeps, UpdateCache, Mapped, OnlyIndexesOf, StoreEntry, LoadEntry, AppendLeaf, Entered;
    }
  }

  lemma {:induction false} OthersPoint(p: Pool, own: map<nat, Owner>, p': Pool, own': map<nat, Owner>, i: nat, s: seq<nat>, y: nat, q: nat)
    requires y in p.caches && Leaves(p.caches[y], p, own, i, s)
    requires forall x :: x in p.caches ==> x in p'.caches && p'.caches[x] == p.caches[x]
    requires forall x :: x in own ==> x in own' && own'[x] == own[x]
    ensures forall k :: 0 <= k < NENTRY && k != q ==> Points(p'.caches[y][k], p', own', Leaf(i, k), s, L1_NBLKS + NENTRY * k)
  {
    forall k | 0 <= k < NENTRY && k != q
      ensures Points(p'.caches[y][k], p', own', Leaf(i, k), s, L1_NBLKS + NENTRY * k)
    {
      assert Points(p.caches[y][k], p, own, Leaf(i, k), s, L1_NBLKS + NENTRY * k);
    }
  }

  /** The double index is found, or made if this is its first block. */
  lemma {:induction false} FindTop(p: Pool, c: CacheInode, own: map<nat, Owner>, s: seq<nat>)
    requires Numbered(p, own) && Mapped(c, p, own, s) && L1_NBLKS <= |s| < LN_NBLKS
    ensures var first := |s| == L1_NBLKS;
      var own' := if first then own[p.next := Double(c.ino)] else own;
      var r := UpdateCache(p, c.l2, c.inode.dbIndirect);
      if first && p.next == p.ninos then r == Bug
      else (
        && r.Ok? && Numbered(r.value.0, own') && Keeps(p, own, r.value.0, own')
        && r.value.0.next == p.next + (if first then 1 else 0)
        && Doubled(WithDouble(c, r.value.1), r.value.0, own', s))
  {
    if |s| == L1_NBLKS { UpdateFresh(p, own, c.l2, Double(c.ino)); }
  }

  lemma {:induction false} KeepsThenOnly(i: nat, p: Pool, own: map<nat, Owner>, p1: Pool, own1: map<nat, Owner>, p2: Pool, own2: map<nat, Owner>)
    requires Keeps(p, own, p1, own1) && OnlyIndexesOf(i, p1, own1, p2, own2)
    ensures OnlyIndexesOf(i, p, own, p2, own2)
  {
  }

  lemma {:induction false} AppendDouble(p: Pool, c: CacheInode, own: map<nat, Owner>, s: seq<nat>, size: nat, b: nat)
    requires Numbered(p, own) && Mapped(c, p, own, s) && size <= BLKSIZE && L1_NBLKS <= |s| < LN_NBLKS
    ensures var r := AppendBlock(p, c, size, b);
      if p.next + NewIndexes(|s|) > p.ninos then r == Bug
      else r.Ok? && Appended(p, c, own, s, size, b, r.value.0, r.value.1)
  {
    FindTop(p, c, own, s);
    assert p.next <= p.ninos && LeafOf(L1_NBLKS) == SlotOf(L1_NBLKS) == 0;
    var u := UpdateCache(p, c.l2, c.inode.dbIndirect);
    assert c.nblks == |s| && AppendBlock(p, c, size, b) == if u.Ok? then AppendLeaf(u.value.0, WithDouble(c, u.value.1), size, b) else Bug;
    hide Mapped, Numbered, Doubled, LeafOf, SlotOf, UpdateCache, AppendBlock, AppendLeaf;
    if !(|s| == L1_NBLKS && p.next == p.ninos) {
      var p1, y := u.value.0, u.value.1;
      var own1 := if |s| == L1_NBLKS then own[p.next := Double(c.ino)] else own;
      AppendToLeaf(p1, WithDouble(c, y), own1, s, size, b);
      var r := AppendBlock(p, c, size, b);
      if r.Ok? {
        KeepsThenOnly(c.ino, p, own, p1, own1, r.value.0, Grown(own, p.next, c.ino, |s|));
        hide Keeps, OnlyIndexesOf;
      }
    }
  }

  // ---------- Reading ----------

  /** The index blocks are on disk. */
  ghost predicate IndexesWritten(p: Pool, disk: seq<Block>) {
    forall x :: x in p.caches ==> x < |disk| && disk[x] == IndexBlock(p.caches[x])
  }

  /** Looking up place j of the block map gives block j of the sequence: the block map refines it. */
  lemma {:induction false} BmapReads(c: CacheInode, p: Pool, own: map<nat, Owner>, s: seq<nat>, disk: seq<Block>, j: nat)
    requires Mapped(c, p, own, s) && IndexesWritten(p, disk) && j < |s|
    ensures Bmap(disk, c.inode, j) == s[j]
  {
    if NDIRECT <= j < L1_NBLKS {
      assert p.caches[c.inode.indirect][j - NDIRECT] == Nth(s, j);
    } else if L1_NBLKS <= j {
      var q := LeafOf(j);
      var top := p.caches[c.inode.dbIndirect];
      assert Points(top[q], p, own, Leaf(c.ino, q), s, L1_NBLKS + NENTRY * q);
      assert p.caches[top[q]][SlotOf(j)] == Nth(s, L1_NBLKS + NENTRY * q + SlotOf(j));
    }
  }

  // ---------- The cost ----------

  /** The index blocks of a file of n blocks. */
  function IndexBlocks(n: nat): nat {
    if n <= NDIRECT then 0
    else if n <= L1_NBLKS then 1
    else 2 + (n - L1_NBLKS + NENTRY - 1) / NENTRY
  }

  lemma {:induction false} IndexBlocksNext(n: nat)
    ensures IndexBlocks(n + 1) == IndexBlocks(n) + NewIndexes(n)
  {
  }

  // ---------- The search that is never made ----------

  /** Whether update_cache takes the branch that searches. */
  predicate Searches(cb: nat, ino: nat) {
    ino != 0 && (cb == 0 || cb != ino)
  }

  /** Nothing append_block asks of update_cache makes it search. */
  lemma {:induction false} NeverSearches(p: Pool, c: CacheInode, own: map<nat, Owner>, s: seq<nat>)
    requires Numbered(p, own) && Mapped(c, p, own, s) && |s| < LN_NBLKS
    ensures NDIRECT <= |s| < L1_NBLKS ==> !Searches(c.l1, c.inode.indirect)
    ensures L1_NBLKS <= |s| ==> !Searches(c.l2, c.inode.dbIndirect)
    ensures L1_NBLKS < |s| ==> !Searches(c.l1, LoadEntry(p, c.l2, LeafOf(|s|)))
  {
    if |s| > L1_NBLKS {
      var top, q := p.caches[c.inode.dbIndirect], LeafOf(|s|);
      assert Points(top[q], p, own, Leaf(c.ino, q), s, L1_NBLKS + NENTRY * q);
    }
  }

  /** The chains as alloc_cache_block leaves them: all index blocks on the chain of number 0. */
  ghost predicate Chained(p: Pool) {
    && |p.chains| == HASH_LIST_SIZE
    && (forall x: nat :: x in p.caches <==> x in p.chains[0])
    && (forall h :: 0 < h < HASH_LIST_SIZE ==> p.chains[h] == [])
  }

  /** The search would find an index block only if its number happens to hash like 0. */
  lemma {:induction false} SearchFinds(p: Pool, x: nat)
    requires Chained(p) && x in p.caches
    ensures CacheFound(p, x) <==> Hash32(x) == 0
  {
  }

  lemma {:induction false} UpdateChained(p: Pool, cb: nat, ino: nat)
    requires Chained(p)
    ensures UpdateCache(p, cb, ino).Ok? ==> Chained(UpdateCache(p, cb, ino).value.0)
  {
  }

  lemma {:induction false} AppendChained(p: Pool, c: CacheInode, size: nat, b: nat)
    requires Chained(p) && |c.inode.direct| == NDIRECT
    ensures AppendBlock(p, c, size, b).Ok? ==> Chained(AppendBlock(p, c, size, b).value.0)
  {
    if NDIRECT <= c.nblks < L1_NBLKS { UpdateChained(p, c.l1, c.inode.indirect); }
    if L1_NBLKS <= c.nblks {
      UpdateChained(p, c.l2, c.inode.dbIndirect);
      var u := UpdateCache(p, c.l2, c.inode.dbIndirect);
      if u.Ok? { UpdateChained(u.value.0, c.l1, LoadEntry(u.value.0, u.value.1, LeafOf(c.nblks))); }
      hide UpdateCache;
    }
  }
}
