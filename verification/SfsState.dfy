/** The memory of mksfs while it builds an image, and the Store that it stands for: cached inodes with
    their block maps, hash chains, and what is on disk so far (lab8/tools/mksfs.c lines 69-112 and
    201-254).  Every block number in use has one owner. */
module SfsState {
  import opened Bytes
  import opened Wrappers
  import opened SfsFormat
  import opened SfsBlockMap
  import opened SfsStore

  datatype Sfs = Sfs(pool: Pool, inodes: map<nat, CacheInode>, chains: seq<seq<nat>>, disk: seq<Block>)

  /** search_cache_inode along one chain. */
  function SearchInode(chain: seq<nat>, inodes: map<nat, CacheInode>, host: nat): Option<nat> {
    if chain == [] then None
    else if chain[0] in inodes && inodes[chain[0]].host == host then Some(chain[0])
    else SearchInode(chain[1..], inodes, host)
  }

  ghost predicate InodeIs(c: CacheInode, p: Pool, o: Obj, i: nat, own: map<nat, Owner>) {
    && c.ino == i && c.host == o.host && c.inode.kind == o.kind && c.inode.size == o.size && c.inode.nlinks == o.nlinks
    && Mapped(c, p, own, o.blocks)
  }

  /** The cached inodes are the inodes of the store, and own their numbers. */
  ghost predicate InodesAre(s: Sfs, st: Store, own: map<nat, Owner>) {
    && (forall i: nat :: i in s.inodes <==> i in st.objs)
    && (forall i: nat :: i in st.objs <==> i in own && own[i] == INode)
    && (forall i :: i in st.objs ==> i in s.inodes && InodeIs(s.inodes[i], s.pool, st.objs[i], i, own))
  }

  /** A number owned as data is that block of that inode, and the other way about. */
  ghost predicate DataOwned(st: Store, own: map<nat, Owner>) {
    && (forall i, j :: i in st.objs && 0 <= j < |st.objs[i].blocks| ==>
      st.objs[i].blocks[j] in own && own[st.objs[i].blocks[j]] == Data(i, j))
    && (forall b :: b in own && own[b].Data? ==>
      own[b].i in st.objs && own[b].j < |st.objs[own[b].i].blocks| && st.objs[own[b].i].blocks[own[b].j] == b)
  }

  ghost predicate DataWritten(s: Sfs, st: Store, own: map<nat, Owner>) {
    && |s.disk| >= s.pool.ninos
    && (forall b: nat :: b in st.data <==> b in own && own[b].Data?)
    && (forall b :: b in st.data ==> b < |s.disk| && s.disk[b] == st.data[b])
  }

  /** Searching a chain finds the last inode made for a host inode. */
  ghost predicate Finds(s: Sfs, st: Store) {
    && |s.chains| == HASH_LIST_SIZE
    && (forall host :: SearchInode(s.chains[Hash32(host)], s.inodes, host) == NewestOf(st, host))
  }

  function NewestOf(st: Store, host: nat): Option<nat> {
    if host in st.newest then Some(st.newest[host]) else None
  }

  /** The chains hold every cached inode and nothing else. */
  ghost predicate Hangs(s: Sfs) {
    && |s.chains| == HASH_LIST_SIZE
    && (forall i :: i in s.inodes ==> i in s.chains[Hash32(s.inodes[i].host)])
    && (forall h, i :: 0 <= h < HASH_LIST_SIZE && i in s.chains[h] ==> i in s.inodes)
  }

  /** What is set aside from the start is owned so, and no other number is. */
  ghost predicate Reserved(own: map<nat, Owner>, ninos: nat) {
    && (forall n: nat :: n < FirstFree(ninos) ==> n in own && own[n] == FirstOwner(n))
    && (forall n :: n in own && (own[n].Super? || own[n].FreeMap?) ==> n < FirstFree(ninos))
  }

  function FirstOwner(n: nat): Owner {
    if n == BLKN_SUPER then Super else if n == BLKN_ROOT then INode else FreeMap
  }

  /** The inode has so many blocks that it needs that index block. */
  predicate Needs(st: Store, o: Owner) {
    IsIndex(o) && o.i in st.objs && var n := |st.objs[o.i].blocks|;
    match o
    case Single(_) => n > NDIRECT
    case Double(_) => n > L1_NBLKS
    case Leaf(_, k) => n > L1_NBLKS + NENTRY * k
    case _ => false
  }

  /** Index blocks are needed, and no two do the same duty. */
  ghost predicate IndexesOwned(st: Store, own: map<nat, Owner>) {
    && (forall x :: x in own && IsIndex(own[x]) ==> Needs(st, own[x]))
    && (forall x, y :: x in own && y in own && IsIndex(own[x]) && own[x] == own[y] ==> x == y)
  }

  ghost predicate Represents(s: Sfs, st: Store, own: map<nat, Owner>) {
    && st.ninos == s.pool.ninos && st.next == s.pool.next
    && Numbered(s.pool, own) && Chained(s.pool)
    && InodesAre(s, st, own) && DataOwned(st, own) && DataWritten(s, st, own)
    && Finds(s, st) && Hangs(s)
    && Reserved(own, st.ninos) && IndexesOwned(st, own)
  }

  // ---------- Appending a new block ----------

  /** The state after a new block was given out, written and appended to inode i: p' and c' are what
      append_block made of the pool and the inode. */
  function WithBlock(s: Sfs, i: nat, block: Block, p': Pool, c': CacheInode): Sfs
    requires s.pool.next < |s.disk|
  {
    Sfs(p', s.inodes[i := c'], s.chains, s.disk[s.pool.next := block])
  }

  /** The owners then. */
  function PutOwners(own: map<nat, Owner>, next: nat, i: nat, n: nat): map<nat, Owner> {
    Grown(own[next := Data(i, n)], next + 1, i, n)
  }

  /** The owners of numbers out before stay, and what is added besides the block is index blocks. */
  lemma {:induction false} PutOwnersOnly(p: Pool, own: map<nat, Owner>, i: nat, n: nat)
    requires Numbered(p, own)
    ensures var own' := PutOwners(own, p.next, i, n);
      && (forall x: nat :: x in own ==> x in own' && own'[x] == own[x])
      && p.next in own' && own'[p.next] == Data(i, n)
      && (forall x: nat :: x in own' && x !in own && x != p.next ==> IsIndex(own'[x]))
  {
  }

  function GivenOut(p: Pool): Pool {
    Pool(p.ninos, p.next + 1, p.unused - 1, p.caches, p.chains)
  }

  /** Giving out a number, and then appending to i, touches only the index blocks of i. */
  lemma {:induction false} PutFrame(p: Pool, own: map<nat, Owner>, i: nat, n: nat, p': Pool)
    requires Numbered(p, own)
    requires OnlyIndexesOf(i, GivenOut(p), own[p.next := Data(i, n)], p', PutOwners(own, p.next, i, n))
    ensures OnlyIndexesOf(i, p, own, p', PutOwners(own, p.next, i, n))
  {
    hide Grown;
  }

  /** The inodes after inode i was changed to c'. */
  lemma {:induction false} InodesChanged(s: Sfs, st: Store, own: map<nat, Owner>, i: nat, s': Sfs, st': Store, own': map<nat, Owner>)
    requires InodesAre(s, st, own) && (forall x :: x in s.pool.caches ==> x in own)
    requires OnlyIndexesOf(i, s.pool, own, s'.pool, own')
    requires forall x: nat :: x in own' && own'[x] == INode <==> x in own && own[x] == INode
    requires i in st.objs && i in st'.objs && i in s'.inodes && InodeIs(s'.inodes[i], s'.pool, st'.objs[i], i, own')
    requires st'.objs == st.objs[i := st'.objs[i]] && s'.inodes == s.inodes[i := s'.inodes[i]]
    ensures InodesAre(s', st', own')
  {
    forall j | j in st'.objs
      ensures j in s'.inodes && InodeIs(s'.inodes[j], s'.pool, st'.objs[j], j, own')
    {
      if j != i {
        assert InodeIs(s.inodes[j], s.pool, st.objs[j], j, own);
        hide Mapped;
        OthersMapped(s.inodes[j], st.objs[j].blocks, i, s.pool, own, s'.pool, own');
      }
    }
    hide InodeIs, OnlyIndexesOf;
  }

  lemma {:induction false} SearchSame(chain: seq<nat>, inodes: map<nat, CacheInode>, inodes': map<nat, CacheInode>, host: nat)
    requires forall i :: i in chain ==> i in inodes && i in inodes' && inodes'[i].host == inodes[i].host
    ensures SearchInode(chain, inodes', host) == SearchInode(chain, inodes, host)
  {
    if chain != [] { SearchSame(chain[1..], inodes, inodes', host); }
  }

  /** The chains still do when a cached inode changes but for its host number. */
  lemma {:induction false} FindsKept(s: Sfs, st: Store, s': Sfs, st': Store)
    requires Finds(s, st) && Hangs(s) && s'.chains == s.chains && st'.newest == st.newest
    requires forall i :: i in s.inodes <==> i in s'.inodes
    requires forall i :: i in s.inodes ==> s'.inodes[i].host == s.inodes[i].host
    ensures Finds(s', st') && Hangs(s')
  {
    forall host
      ensures SearchInode(s'.chains[Hash32(host)], s'.inodes, host) == SearchInode(s.chains[Hash32(host)], s.inodes, host)
    {
      SearchSame(s.chains[Hash32(host)], s.inodes, s'.inodes, host);
    }
  }

  lemma {:induction false} PutData(st: Store, own: map<nat, Owner>, i: nat, block: Block, size: nat, p: Pool)
    requires DataOwned(st, own) && Numbered(p, own) && i in st.objs && p.next == st.next && Put(st, i, block, size).Ok?
    ensures DataOwned(Put(st, i, block, size).value, PutOwners(own, st.next, i, |st.objs[i].blocks|))
  {
    PutOwnersOnly(p, own, i, |st.objs[i].blocks|);
  }

  lemma {:induction false} PutWritten(s: Sfs, st: Store, own: map<nat, Owner>, i: nat, block: Block, size: nat, s': Sfs)
    requires DataWritten(s, st, own) && Numbered(s.pool, own) && i in st.objs && s.pool.next == st.next && st.ninos == s.pool.ninos
    requires Put(st, i, block, size).Ok? && s'.pool.ninos == st.ninos && |s.disk| > st.next && s'.disk == s.disk[st.next := block]
    ensures DataWritten(s', Put(st, i, block, size).value, PutOwners(own, st.next, i, |st.objs[i].blocks|))
  {
    PutOwnersOnly(s.pool, own, i, |st.objs[i].blocks|);
  }

  /** Giving out a number leaves the block maps as they are. */
  lemma {:induction false} GivenOutMapped(p: Pool, own: map<nat, Owner>, c: CacheInode, blocks: seq<nat>, o: Owner)
    requires Numbered(p, own) && Mapped(c, p, own, blocks) && p.next < p.ninos && !IsIndex(o)
    ensures Numbered(GivenOut(p), own[p.next := o]) && Mapped(c, GivenOut(p), own[p.next := o], blocks)
    ensures AllocIno(p) == Ok((GivenOut(p), p.next))
  {
    NumberedMore(p, own, o);
    assert OnlyIndexesOf(c.ino + 1, p, own, GivenOut(p), own[p.next := o]);
    OthersMapped(c, blocks, c.ino + 1, p, own, GivenOut(p), own[p.next := o]);
  }

  lemma {:induction false} AppendsNew(p: Pool, own: map<nat, Owner>, c: CacheInode, blocks: seq<nat>, size: nat)
    requires Numbered(p, own) && Chained(p) && Mapped(c, p, own, blocks) && size <= BLKSIZE && p.next < p.ninos
    ensures |c.inode.direct| == NDIRECT && |p.chains| == HASH_LIST_SIZE
    ensures var r := AppendBlock(GivenOut(p), c, size, p.next);
      if p.next + 1 + NewIndexes(|blocks|) > p.ninos || |blocks| >= LN_NBLKS then r == Bug
      else (
        && r.Ok? && Chained(r.value.0)
        && Appended(GivenOut(p), c, own[p.next := Data(c.ino, |blocks|)], blocks, size, p.next, r.value.0, r.value.1))
  {
    GivenOutMapped(p, own, c, blocks, Data(c.ino, |blocks|));
    assert Chained(GivenOut(p)) && |blocks| <= LN_NBLKS && |c.inode.direct| == NDIRECT && |p.chains| == HASH_LIST_SIZE;
    hide Mapped, Numbered, Chained, AppendBlock, Appended, NewIndexes;
    AppendSpec(GivenOut(p), c, own[p.next := Data(c.ino, |blocks|)], blocks, size, p.next);
    AppendChained(GivenOut(p), c, size, p.next);
  }

  lemma {:induction false} Bounds(p: Pool, own: map<nat, Owner>)
    requires Numbered(p, own)
    ensures |p.chains| == HASH_LIST_SIZE && p.next <= p.ninos
  {
  }

  lemma {:induction false} InodeAt(s: Sfs, st: Store, own: map<nat, Owner>, i: nat)
    requires InodesAre(s, st, own) && i in st.objs
    ensures i in s.inodes && InodeIs(s.inodes[i], s.pool, st.objs[i], i, own)
    ensures |s.inodes[i].inode.direct| == NDIRECT && s.inodes[i].ino == i && Mapped(s.inodes[i], s.pool, own, st.objs[i].blocks)
  {
  }

  /** What append_block does in the course of a Put: it is Ok when Put is, and never fails an assertion. */
  lemma {:induction false} PutAppends(s: Sfs, st: Store, own: map<nat, Owner>, i: nat, block: Block, size: nat)
    requires Represents(s, st, own) && i in st.objs && size <= BLKSIZE
    ensures i in s.inodes && |s.inodes[i].inode.direct| == NDIRECT && |s.pool.chains| == HASH_LIST_SIZE
    ensures s.pool.next == s.pool.ninos ==> Put(st, i, block, size) == Bug
    ensures s.pool.next < s.pool.ninos ==>
      var r, n := AppendBlock(GivenOut(s.pool), s.inodes[i], size, s.pool.next), |st.objs[i].blocks|;
      if Put(st, i, block, size).Ok?
      then r.Ok? && Appended(GivenOut(s.pool), s.inodes[i], own[st.next := Data(i, n)], st.objs[i].blocks, size, st.next, r.value.0, r.value.1)
        && Chained(r.value.0)
      else r == Bug
  {
    hide InodesAre, InodeIs, Mapped, Numbered, Chained, Appended, AppendBlock, DataOwned, DataWritten, Finds, Hangs, NewIndexes;
    Bounds(s.pool, own);
    InodeAt(s, st, own, i);
    if s.pool.next < s.pool.ninos { AppendsNew(s.pool, own, s.inodes[i], st.objs[i].blocks, size); }
  }

  lemma {:induction false} PutInodes(s: Sfs, st: Store, own: map<nat, Owner>, i: nat, block: Block, size: nat, p': Pool, c': CacheInode,
                                     s': Sfs, st': Store, own': map<nat, Owner>)
    requires InodesAre(s, st, own) && Numbered(s.pool, own) && s.pool.next == st.next && i in st.objs && i in s.inodes
    requires Put(st, i, block, size) == Ok(st') && own' == PutOwners(own, st.next, i, |st.objs[i].blocks|)
    requires Appended(GivenOut(s.pool), s.inodes[i], own[st.next := Data(i, |st.objs[i].blocks|)], st.objs[i].blocks, size, st.next, p', c')
    requires s'.pool == p' && s'.inodes == s.inodes[i := c']
    ensures InodesAre(s', st', own')
  {
    var n := |st.objs[i].blocks|;
    InodeAt(s, st, own, i);
    PutOwnersOnly(s.pool, own, i, n);
    assert InodeIs(s.inodes[i], s.pool, st.objs[i], i, own);
    assert InodeIs(c', p', st'.objs[i], i, own') by { hide Mapped, OnlyIndexesOf, Numbered, InodesAre, NewIndexes; }
    PutFrame(s.pool, own, i, n, p');
    InodeOwners(s, st, own, i, own');
    assert forall x :: x in s.pool.caches ==> x in own;
    hide Mapped, OnlyIndexesOf, PutOwners, InodesAre, Numbered, InodeIs, Appended, IsIndex;
    InodesChanged(s, st, own, i, s', st', own');
  }

  lemma {:induction false} InodeOwners(s: Sfs, st: Store, own: map<nat, Owner>, i: nat, own': map<nat, Owner>)
    requires Numbered(s.pool, own) && s.pool.next == st.next && i in st.objs && own' == PutOwners(own, st.next, i, |st.objs[i].blocks|)
    ensures forall x: nat :: x in own' && own'[x] == INode <==> x in own && own[x] == INode
  {
    PutOwnersOnly(s.pool, own, i, |st.objs[i].blocks|);
  }

  lemma {:induction false} DiskRoom(s: Sfs, st: Store, own: map<nat, Owner>)
    requires DataWritten(s, st, own)
    ensures |s.disk| >= s.pool.ninos
  {
  }

  lemma {:induction false} AppendedFacts(p: Pool, c: CacheInode, own: map<nat, Owner>, s: seq<nat>, size: nat, b: nat, p': Pool, c': CacheInode)
    requires Appended(p, c, own, s, size, b, p', c')
    ensures Numbered(p', Grown(own, p.next, c.ino, |s|)) && p'.next == p.next + NewIndexes(|s|)
    ensures p'.ninos == p.ninos && c'.host == c.host && c'.ino == c.ino
  {
  }

  lemma {:induction false} PutReserved(p: Pool, own: map<nat, Owner>, i: nat, n: nat)
    requires Numbered(p, own) && Reserved(own, p.ninos)
    ensures Reserved(PutOwners(own, p.next, i, n), p.ninos)
  {
    PutOwnersOnly(p, own, i, n);
  }

  lemma {:induction false} PutIndexes(st: Store, own: map<nat, Owner>, i: nat, block: Block, size: nat, p: Pool)
    requires IndexesOwned(st, own) && Numbered(p, own) && i in st.objs && p.next == st.next && Put(st, i, block, size).Ok?
    ensures IndexesOwned(Put(st, i, block, size).value, PutOwners(own, st.next, i, |st.objs[i].blocks|))
  {
    var n := |st.objs[i].blocks|;
    var st', own' := Put(st, i, block, size).value, PutOwners(own, st.next, i, n);
    hide IndexesOwned, Numbered, Longer, NewIndexes;
    PutOwnersOnly(p, own, i, n);
    NeedsMore(st, i, st');
    forall x | x in own' && x !in own && IsIndex(own'[x])
      ensures NewlyNeeded(own'[x], i, n)
    {
      NewOwner(own, st.next, i, n, x);
    }
    forall x, y | x in own' && x !in own && y in own' && y !in own && IsIndex(own'[x]) && own'[x] == own'[y]
      ensures x == y
    {
      TwoNewOwners(own, st.next, i, n, x, y);
    }
    hide PutOwners;
    IndexesMore(st, own, st', own', i, n);
  }

  /** An index block that inode i needs for its block n and not before. */
  predicate NewlyNeeded(o: Owner, i: nat, n: nat) {
    IsIndexOf(o, i) && n == match o
      case Single(_) => NDIRECT
      case Double(_) => L1_NBLKS
      case Leaf(_, k) => L1_NBLKS + NENTRY * k
      case _ => 0
  }

  lemma {:induction false} NeedsMore(st: Store, i: nat, st': Store)
    requires i in st.objs && st'.objs.Keys == st.objs.Keys && |st'.objs[i].blocks| == |st.objs[i].blocks| + 1
    requires forall j :: j in st.objs && j != i ==> st'.objs[j] == st.objs[j]
    ensures forall o :: Needs(st, o) ==> Needs(st', o)
    ensures forall o :: NewlyNeeded(o, i, |st.objs[i].blocks|) ==> Needs(st', o) && !Needs(st, o)
  {
  }

  lemma {:induction false} NewOwner(own: map<nat, Owner>, next: nat, i: nat, n: nat, x: nat)
    requires var own' := PutOwners(own, next, i, n); x in own' && x !in own && IsIndex(own'[x])
    ensures NewlyNeeded(PutOwners(own, next, i, n)[x], i, n)
  {
  }

  lemma {:induction false} TwoNewOwners(own: map<nat, Owner>, next: nat, i: nat, n: nat, x: nat, y: nat)
    requires var own' := PutOwners(own, next, i, n);
      x in own' && x !in own && y in own' && y !in own && IsIndex(own'[x]) && own'[x] == own'[y]
    ensures x == y
  {
  }

  lemma {:induction false} IndexesMore(st: Store, own: map<nat, Owner>, st': Store, own': map<nat, Owner>, i: nat, n: nat)
    requires IndexesOwned(st, own) && forall x :: x in own ==> x in own' && own'[x] == own[x]
    requires forall o :: Needs(st, o) ==> Needs(st', o)
    requires forall o :: NewlyNeeded(o, i, n) ==> Needs(st', o) && !Needs(st, o)
    requires forall x :: x in own' && x !in own && IsIndex(own'[x]) ==> NewlyNeeded(own'[x], i, n)
    requires forall x, y :: x in own' && x !in own && y in own' && y !in own && IsIndex(own'[x]) && own'[x] == own'[y] ==> x == y
    ensures IndexesOwned(st', own')
  {
    hide Needs, NewlyNeeded, IsIndex;
  }

  /** A Put on the store is what giving out, writing and appending a block make of the memory. */
  lemma {:induction false} PutRepresents(s: Sfs, st: Store, own: map<nat, Owner>, i: nat, block: Block, size: nat, p': Pool, c': CacheInode)
    requires Represents(s, st, own) && i in st.objs && size <= BLKSIZE && i in s.inodes
    requires Put(st, i, block, size).Ok? && Chained(p')
    requires Appended(GivenOut(s.pool), s.inodes[i], own[st.next := Data(i, |st.objs[i].blocks|)], st.objs[i].blocks, size, st.next, p', c')
    ensures s.pool.next < |s.disk|
    ensures Represents(WithBlock(s, i, block, p', c'), Put(st, i, block, size).value,
                       PutOwners(own, st.next, i, |st.objs[i].blocks|))
  {
    hide Mapped, OnlyIndexesOf, Grown, Chained, InodesAre, InodeIs, DataOwned, DataWritten, Finds, Hangs, Numbered;
    hide Appended, NewIndexes, Longer, Reserved, IndexesOwned;
    var n := |st.objs[i].blocks|;
    var st', own' := Put(st, i, block, size).value, PutOwners(own, st.next, i, n);
    DiskRoom(s, st, own);
    InodeAt(s, st, own, i);
    var s' := WithBlock(s, i, block, p', c');
    AppendedFacts(GivenOut(s.pool), s.inodes[i], own[st.next := Data(i, n)], st.objs[i].blocks, size, st.next, p', c');
    PutInodes(s, st, own, i, block, size, p', c', s', st', own');
    PutData(st, own, i, block, size, s.pool);
    PutWritten(s, st, own, i, block, size, s');
    FindsKept(s, st, s', st');
    PutReserved(s.pool, own, i, n);
    PutIndexes(st, own, i, block, size, s.pool);
  }

  // ---------- Link counts and new inodes ----------

  function LinkedOnce(c: CacheInode): CacheInode {
    var v := c.inode;
    c.(inode := Inode(v.size, v.kind, (v.nlinks + 1) % 0x1_0000, v.blocks, v.direct, v.indirect, v.dbIndirect))
  }

  lemma {:induction false} BumpRepresents(s: Sfs, st: Store, own: map<nat, Owner>, i: nat)
    requires Represents(s, st, own) && i in st.objs
    ensures i in s.inodes && Represents(Sfs(s.pool, s.inodes[i := LinkedOnce(s.inodes[i])], s.chains, s.disk), Bump(st, i), own)
  {
    hide Mapped, Chained, InodesAre, DataOwned, DataWritten, Finds, Hangs, Numbered, OnlyIndexesOf, InodeIs, Reserved, IndexesOwned;
    InodeAt(s, st, own, i);
    var s', st' := Sfs(s.pool, s.inodes[i := LinkedOnce(s.inodes[i])], s.chains, s.disk), Bump(st, i);
    BumpInodes(s, st, own, i, s', st');
    FindsKept(s, st, s', st');
    BumpData(s, st, own, s', st');
    SameNeeds(st, st', own);
  }

  lemma {:induction false} BumpInodes(s: Sfs, st: Store, own: map<nat, Owner>, i: nat, s': Sfs, st': Store)
    requires InodesAre(s, st, own) && Numbered(s.pool, own) && i in st.objs && i in s.inodes
    requires st' == Bump(st, i) && s' == Sfs(s.pool, s.inodes[i := LinkedOnce(s.inodes[i])], s.chains, s.disk)
    ensures InodesAre(s', st', own)
  {
    hide InodesAre, Mapped, InodeIs, LinkedOnce;
    InodeAt(s, st, own, i);
    LinkedIs(s.inodes[i], s.pool, st, i, own);
    assert OnlyIndexesOf(i, s.pool, own, s.pool, own);
    assert forall x :: x in s.pool.caches ==> x in own;
    hide OnlyIndexesOf, Numbered;
    InodesChanged(s, st, own, i, s', st', own);
  }

  lemma {:induction false} LinkedIs(c: CacheInode, p: Pool, st: Store, i: nat, own: map<nat, Owner>)
    requires i in st.objs && InodeIs(c, p, st.objs[i], i, own)
    ensures InodeIs(LinkedOnce(c), p, Bump(st, i).objs[i], i, own)
  {
  }

  lemma {:induction false} SameNeeds(st: Store, st': Store, own: map<nat, Owner>)
    requires IndexesOwned(st, own)
    requires forall i :: i in st.objs ==> i in st'.objs && |st'.objs[i].blocks| == |st.objs[i].blocks|
    ensures IndexesOwned(st', own)
  {
  }

  lemma {:induction false} BumpData(s: Sfs, st: Store, own: map<nat, Owner>, s': Sfs, st': Store)
    requires DataOwned(st, own) && DataWritten(s, st, own) && s'.disk == s.disk && s'.pool == s.pool && st'.data == st.data
    requires st'.objs.Keys == st.objs.Keys && forall i :: i in st.objs ==> st'.objs[i].blocks == st.objs[i].blocks
    ensures DataOwned(st', own) && DataWritten(s', st', own)
  {
  }

  function EmptyInode(host: nat, ino: nat, kind: Kind): CacheInode {
    CacheInode(Inode(0, kind, 0, 0, Zeros(NDIRECT), 0, 0), host, ino, 0, 0, 0)
  }

  /** alloc_cache_inode, with the number given out before. */
  function WithInode(s: Sfs, ino: nat, host: nat, kind: Kind): Sfs
    requires |s.chains| == HASH_LIST_SIZE
  {
    var h := Hash32(host);
    Sfs(s.pool, s.inodes[ino := EmptyInode(host, ino, kind)], s.chains[h := [ino] + s.chains[h]], s.disk)
  }

  /** alloc_cache_inode represents NewObj. */
  lemma {:induction false} NewRepresents(s: Sfs, st: Store, own: map<nat, Owner>, host: nat, kind: Kind)
    requires Represents(s, st, own) && st.next < st.ninos
    ensures AllocIno(s.pool) == Ok((GivenOut(s.pool), st.next)) && NewObj(st, host, kind).Ok?
    ensures |s.chains| == HASH_LIST_SIZE
    ensures Represents(WithInode(Sfs(GivenOut(s.pool), s.inodes, s.chains, s.disk), st.next, host, kind),
                       NewObj(st, host, kind).value, own[st.next := INode])
  {
    hide Mapped, Chained, InodesAre, DataOwned, DataWritten, Finds, Hangs, Numbered, InodeIs, Reserved, IndexesOwned;
    ChainsLength(s);
    var st', own' := NewObj(st, host, kind).value, own[st.next := INode];
    var s' := WithInode(Sfs(GivenOut(s.pool), s.inodes, s.chains, s.disk), st.next, host, kind);
    NewNumbered(s.pool, own);
    NewInodes(s, st, own, host, kind, s', st');
    FreshNumber(s, st, own);
    NewFound(s, st, host, kind, s', st');
    NewData(s, st, own, host, kind, s', st');
    SameNeeds(st, st', own);
    NewOwners(s.pool, st', own);
  }

  lemma {:induction false} ChainsLength(s: Sfs)
    requires Hangs(s)
    ensures |s.chains| == HASH_LIST_SIZE
  {
  }

  lemma {:induction false} FreshNumber(s: Sfs, st: Store, own: map<nat, Owner>)
    requires InodesAre(s, st, own) && Numbered(s.pool, own) && s.pool.next == st.next
    ensures st.next !in own && st.next !in s.inodes && st.next !in st.objs
  {
  }

  lemma {:induction false} NewNumbered(p: Pool, own: map<nat, Owner>)
    requires Numbered(p, own) && Chained(p) && p.next < p.ninos
    ensures Numbered(GivenOut(p), own[p.next := INode]) && Chained(GivenOut(p))
  {
    NumberedMore(p, own, INode);
  }

  lemma {:induction false} NewInodes(s: Sfs, st: Store, own: map<nat, Owner>, host: nat, kind: Kind, s': Sfs, st': Store)
    requires InodesAre(s, st, own) && Numbered(s.pool, own) && s.pool.next == st.next < st.ninos == s.pool.ninos
    requires NewObj(st, host, kind) == Ok(st') && s'.pool == GivenOut(s.pool)
    requires s'.inodes == s.inodes[st.next := EmptyInode(host, st.next, kind)]
    ensures InodesAre(s', st', own[st.next := INode])
  {
    var own' := own[st.next := INode];
    forall j | j in st'.objs
      ensures j in s'.inodes && InodeIs(s'.inodes[j], s'.pool, st'.objs[j], j, own')
    {
      if j != st.next { NewOther(s, st, own, j); }
    }
    hide InodeIs, Numbered;
  }

  lemma {:induction false} NewOther(s: Sfs, st: Store, own: map<nat, Owner>, j: nat)
    requires InodesAre(s, st, own) && Numbered(s.pool, own) && s.pool.next == st.next < s.pool.ninos && j in st.objs
    ensures j in s.inodes && InodeIs(s.inodes[j], GivenOut(s.pool), st.objs[j], j, own[st.next := INode])
  {
    hide Numbered;
    InodeAt(s, st, own, j);
    GivenOutMapped(s.pool, own, s.inodes[j], st.objs[j].blocks, INode);
  }

  lemma {:induction false} NewHangs(s: Sfs, st: Store, host: nat, kind: Kind, s': Sfs)
    requires Hangs(s) && s' == WithInode(Sfs(GivenOut(s.pool), s.inodes, s.chains, s.disk), st.next, host, kind)
    ensures Hangs(s')
  {
    hide Hash32;
  }

  lemma {:induction false} NewFound(s: Sfs, st: Store, host: nat, kind: Kind, s': Sfs, st': Store)
    requires Finds(s, st) && Hangs(s) && st.next !in s.inodes
    requires NewObj(st, host, kind) == Ok(st') && s' == WithInode(Sfs(GivenOut(s.pool), s.inodes, s.chains, s.disk), st.next, host, kind)
    ensures Finds(s', st') && Hangs(s')
  {
    NewHangs(s, st, host, kind, s');
    forall h
      ensures SearchInode(s'.chains[Hash32(h)], s'.inodes, h) == NewestOf(st', h)
    {
      NewFoundAt(s, st, host, kind, s', st', h);
    }
    hide Hash32, Hangs, NewestOf, SearchInode;
  }

  lemma {:induction false} NewFoundAt(s: Sfs, st: Store, host: nat, kind: Kind, s': Sfs, st': Store, h: nat)
    requires Hangs(s) && st.next !in s.inodes && SearchInode(s.chains[Hash32(h)], s.inodes, h) == NewestOf(st, h)
    requires NewObj(st, host, kind) == Ok(st') && s' == WithInode(Sfs(GivenOut(s.pool), s.inodes, s.chains, s.disk), st.next, host, kind)
    ensures SearchInode(s'.chains[Hash32(h)], s'.inodes, h) == NewestOf(st', h)
  {
    hide Hash32;
    SearchSame(s.chains[Hash32(h)], s.inodes, s'.inodes, h);
    if Hash32(h) == Hash32(host) {
      assert s'.chains[Hash32(h)][1..] == s.chains[Hash32(h)];
    }
  }

  lemma {:induction false} NewData(s: Sfs, st: Store, own: map<nat, Owner>, host: nat, kind: Kind, s': Sfs, st': Store)
    requires DataOwned(st, own) && DataWritten(s, st, own) && st.next !in own && st.next !in st.objs
    requires NewObj(st, host, kind) == Ok(st') && s'.pool == GivenOut(s.pool) && s'.disk == s.disk
    ensures DataOwned(st', own[st.next := INode]) && DataWritten(s', st', own[st.next := INode])
  {
    NewOwned(st, own, host, kind, st');
    hide DataOwned;
  }

  lemma {:induction false} NewOwners(p: Pool, st: Store, own: map<nat, Owner>)
    requires Reserved(own, st.ninos) && IndexesOwned(st, own) && Numbered(p, own)
    ensures Reserved(own[p.next := INode], st.ninos) && IndexesOwned(st, own[p.next := INode])
  {
  }

  lemma {:induction false} NewOwned(st: Store, own: map<nat, Owner>, host: nat, kind: Kind, st': Store)
    requires DataOwned(st, own) && st.next !in own && st.next !in st.objs && NewObj(st, host, kind) == Ok(st')
    ensures DataOwned(st', own[st.next := INode])
  {
  }

  // ---------- The start ----------

  /** create_sfs, on an image file of that many blocks. */
  function FirstState(ninos: nat, disk: seq<Block>): Sfs {
    var next := FirstFree(ninos);
    Sfs(Pool(ninos, next, ninos - next, map[], seq(HASH_LIST_SIZE, _ => [])),
        map[BLKN_ROOT := EmptyInode(0, BLKN_ROOT, Dir)],
        seq(HASH_LIST_SIZE, h => if h == Hash32(0) then [BLKN_ROOT] else []),
        disk)
  }

  function FirstOwners(ninos: nat): map<nat, Owner> {
    map n: nat | n < FirstFree(ninos) :: FirstOwner(n)
  }

  lemma {:induction false} CreateRepresents(bytes: nat, name: seq<Byte>, disk: seq<Block>)
    requires Create(bytes, name).Ok? && |disk| >= Ninos(bytes)
    ensures Represents(FirstState(Ninos(bytes), disk), Create(bytes, name).value, FirstOwners(Ninos(bytes)))
  {
    hide Mapped, Finds, Hangs, InodesAre;
    CreateInodes(bytes, name, disk);
    CreateFinds(bytes, name, disk);
  }

  lemma {:induction false} CreateInodes(bytes: nat, name: seq<Byte>, disk: seq<Block>)
    requires Create(bytes, name).Ok?
    ensures InodesAre(FirstState(Ninos(bytes), disk), Create(bytes, name).value, FirstOwners(Ninos(bytes)))
  {
  }

  lemma {:induction false} CreateFinds(bytes: nat, name: seq<Byte>, disk: seq<Block>)
    requires Create(bytes, name).Ok?
    ensures Finds(FirstState(Ninos(bytes), disk), Create(bytes, name).value) && Hangs(FirstState(Ninos(bytes), disk))
  {
    hide Hash32;
    var s, st := FirstState(Ninos(bytes), disk), Create(bytes, name).value;
    forall host
      ensures SearchInode(s.chains[Hash32(host)], s.inodes, host) == NewestOf(st, host)
    {
      var chain := s.chains[Hash32(host)];
      if chain != [] { assert chain[1..] == []; }
    }
  }
}
