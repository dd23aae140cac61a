/** lab8/tools/mksfs.c as it runs: numbers, inodes, index blocks, hash chains and the image file updated
    in place.  What bug() and assert end is ended here by a result that is not Ok. */
module SfsImage {
  import opened Bytes
  import opened Wrappers
  import opened SfsFormat
  import opened SfsBlockMap
  import opened SfsStore
  import opened SfsState
  import opened SfsDisk

  /** A call did what f says: the same kind of result, and if Ok, that store. */
  ghost predicate Did<T>(r: Result<T>, f: Result<Store>, st: Store) {
    (r.Ok? <==> f.Ok?) && (r.Bug? <==> f.Bug?) && (f.Ok? ==> st == f.value)
  }

  class Builder {
    const ninos: nat
    const image: array<Block>
    var nextIno: nat
    var unused: int
    var inodes: map<nat, CacheInode>
    var inodeChains: seq<seq<nat>>
    var caches: map<nat, seq<nat>>
    var cacheChains: seq<seq<nat>>
    var entryName: seq<Byte>
    ghost var store: Store
    ghost var own: map<nat, Owner>

    ghost function Numbers(): Pool
      reads this
    {
      Pool(ninos, nextIno, unused, caches, cacheChains)
    }

    ghost function Memory(): Sfs
      reads this, image
    {
      Sfs(Numbers(), inodes, inodeChains, image[..])
    }

    /** The memory represents the store, and entryName is its name buffer. */
    ghost predicate Valid()
      reads this, image
    {
      Represents(Memory(), store, own) && entryName == store.name && Sane(store)
    }

    /** create_sfs, when the image file is large enough. */
    constructor (image: array<Block>, bytes: nat)
      requires image.Length == bytes / BLKSIZE && Create(bytes, ZeroBytes(NAME_SIZE)).Ok?
      ensures Valid() && store == Create(bytes, ZeroBytes(NAME_SIZE)).value && this.image == image
    {
      this.image := image;
      ninos := Ninos(bytes);
      nextIno := FirstFree(Ninos(bytes));
      unused := Ninos(bytes) - FirstFree(Ninos(bytes));
      inodes := map[BLKN_ROOT := EmptyInode(0, BLKN_ROOT, Dir)];
      inodeChains := seq(HASH_LIST_SIZE, h => if h == Hash32(0) then [BLKN_ROOT] else []);
      caches, cacheChains := map[], seq(HASH_LIST_SIZE, _ => []);
      entryName := ZeroBytes(NAME_SIZE);
      store := Create(bytes, ZeroBytes(NAME_SIZE)).value;
      own := FirstOwners(Ninos(bytes));
      new;
      hide Represents, Hash32;
      CreateRepresents(bytes, ZeroBytes(NAME_SIZE), image[..]);
      assert Memory() == FirstState(Ninos(bytes), image[..]);
    }

    // ---------- Numbers and index blocks ----------

    /** sfs_alloc_ino */
    method AllocIno() returns (r: Result<nat>)
      modifies `nextIno, `unused
      ensures match SfsBlockMap.AllocIno(old(Numbers()))
              case Ok(g) => r == Ok(g.1) && Numbers() == g.0
              case _ => r == Bug && Numbers() == old(Numbers())
    {
      if nextIno < ninos {
        unused := unused - 1;
        nextIno := nextIno + 1;
        return Ok(nextIno - 1);
      }
      return Bug;
    }

    /** write_block */
    method WriteBlock(block: Block, ino: nat) returns (r: Result<()>)
      requires image.Length >= ninos
      modifies image
      ensures r == if ino < ninos then Ok(()) else Failed
      ensures image[..] == if ino < ninos then old(image[..])[ino := block] else old(image[..])
    {
      if ino >= ninos { return Failed; }
      image[ino] := block;
      return Ok(());
    }

    /** alloc_cache_block, for a number still to be given out. */
    method AllocCacheBlock() returns (r: Result<nat>)
      requires |cacheChains| == HASH_LIST_SIZE
      modifies `nextIno, `unused, `caches, `cacheChains
      ensures Gave(r, SfsBlockMap.AllocCacheBlock(old(Numbers())), Numbers())
    {
      var x :- AllocIno();
      caches := caches[x := Zeros(NENTRY)];
      cacheChains := cacheChains[Hash32(0) := [x] + cacheChains[Hash32(0)]];
      return Ok(x);
    }

    /** search_cache_block: whether the chain of the number holds it. */
    method SearchCacheBlock(ino: nat) returns (found: bool)
      requires |cacheChains| == HASH_LIST_SIZE
      ensures found <==> CacheFound(Numbers(), ino)
    {
      var chain := cacheChains[Hash32(ino)];
      var i := 0;
      while i < |chain|
        invariant i <= |chain| && ino !in chain[..i]
      {
        if chain[i] == ino { return true; }
        i := i + 1;
      }
      return false;
    }

    /** update_cache: returns what it leaves in both of its arguments. */
    method UpdateCache(cb: nat, ino: nat) returns (r: Result<nat>)
      requires |cacheChains| == HASH_LIST_SIZE
      modifies `nextIno, `unused, `caches, `cacheChains
      ensures Gave(r, SfsBlockMap.UpdateCache(old(Numbers()), cb, ino), Numbers())
    {
      if ino == 0 {
        r := AllocCacheBlock();
      } else if cb == 0 || cb != ino {
        var found := SearchCacheBlock(ino);
        if !found { return Failed; }
        r := Ok(ino);
      } else {
        r := Ok(cb);
      }
    }

    /** data[k] = value, in the index block x. */
    method SetEntry(x: nat, k: nat, value: nat)
      modifies `caches
      ensures Numbers() == StoreEntry(old(Numbers()), x, k, value)
    {
      if x in caches && k < |caches[x]| { caches := caches[x := Replaced(caches[x], k, value)]; }
    }

    method GetEntry(x: nat, k: nat) returns (value: nat)
      ensures value == LoadEntry(Numbers(), x, k)
    {
      value := if x in caches && k < |caches[x]| then caches[x][k] else 0;
    }

    /** append_block */
    method AppendBlock(i: nat, size: nat, b: nat) returns (r: Result<()>)
      requires i in inodes && |inodes[i].inode.direct| == NDIRECT && |cacheChains| == HASH_LIST_SIZE
      modifies `nextIno, `unused, `caches, `cacheChains, `inodes
      ensures Appends(r, SfsBlockMap.AppendBlock(old(Numbers()), old(inodes)[i], size, b), i, old(inodes))
    {
      var c := inodes[i];
      var n := c.nblks;
      if size > BLKSIZE { return Failed; }
      if n >= LN_NBLKS { return Bug; }
      if n < NDIRECT {
        c := WithDirect(c, n, b);
      } else if n < L1_NBLKS {
        var x :- UpdateCache(c.l1, c.inode.indirect);
        c := WithSingle(c, x);
        SetEntry(x, n - NDIRECT, b);
      } else {
        var y :- UpdateCache(c.l2, c.inode.dbIndirect);
        c := WithDouble(c, y);
        var leaf := GetEntry(y, LeafOf(n));
        var x :- UpdateCache(c.l1, leaf);
        c := c.(l1 := x);
        SetEntry(y, LeafOf(n), x);
        SetEntry(x, SlotOf(n), b);
      }
      inodes := inodes[i := Counted(c, size)];
      return Ok(());
    }

    ghost predicate Appends(r: Result<()>, f: Result<(Pool, CacheInode)>, i: nat, was: map<nat, CacheInode>)
      reads this
    {
      match f
      case Ok(g) => r == Ok(()) && Numbers() == g.0 && inodes == was[i := g.1]
      case Bug => r == Bug
      case Failed => r == Failed
    }

    /** What add_entry, open_file and open_link each do with a block: give it a number, write it, and
        append it to inode i. */
    method Extend(i: nat, block: Block, size: nat) returns (r: Result<()>)
      requires i in inodes && |inodes[i].inode.direct| == NDIRECT && |cacheChains| == HASH_LIST_SIZE
      requires image.Length >= ninos && nextIno <= ninos
      modifies `nextIno, `unused, `caches, `cacheChains, `inodes, image
      ensures if old(nextIno) == ninos then r == Bug
        else Extended(r, SfsBlockMap.AppendBlock(GivenOut(old(Numbers())), old(inodes)[i], size, old(nextIno)), old(Memory()), i, block)
    {
      hide SfsBlockMap.AppendBlock;
      var b :- AllocIno();
      var written := WriteBlock(block, b);
      assert written.Ok?;
      r := AppendBlock(i, size, b);
    }

    ghost predicate Extended(r: Result<()>, f: Result<(Pool, CacheInode)>, was: Sfs, i: nat, block: Block)
      reads this, image
    {
      match f
      case Ok(g) => r == Ok(()) && was.pool.next < |was.disk| && Memory() == WithBlock(was, i, block, g.0, g.1)
      case Bug => r == Bug
      case Failed => r == Failed
    }

    /** The same as a step of the store. */
    method AppendNew(i: nat, block: Block, size: nat) returns (r: Result<()>)
      requires Valid() && i in store.objs && size <= BLKSIZE
      modifies this, image
      ensures Did(r, Put(old(store), i, block, size), store)
      ensures r.Ok? ==> Valid()
    {
      hide Represents, Appended, Sane, SfsBlockMap.AppendBlock, PutOwners, GivenOut;
      ghost var s, st, n := Memory(), store, |store.objs[i].blocks|;
      PutAppends(s, st, own, i, block, size);
      RoomOnDisk(s, st, own);
      r := Extend(i, block, size);
      if r.Ok? {
        PutRepresents(s, st, own, i, block, size, Numbers(), inodes[i]);
        PutSane(st, i, block, size);
        own := PutOwners(own, st.next, i, n);
        store := Put(st, i, block, size).value;
      }
    }

    // ---------- Inodes and entries ----------

    /** search_cache_inode */
    method SearchCacheInode(host: nat) returns (ino: Option<nat>)
      requires Valid()
      ensures ino == NewestOf(store, host)
    {
      hide InodesAre, DataOwned, DataWritten, IndexesOwned, Reserved, Chained, SfsBlockMap.Numbered, Hash32, Sane;
      var chain := inodeChains[Hash32(host)];
      assert SearchInode(chain, inodes, host) == NewestOf(store, host);
      var i := 0;
      while i < |chain|
        invariant i <= |chain| && SearchInode(chain[i..], inodes, host) == SearchInode(chain, inodes, host)
      {
        if chain[i] in inodes && inodes[chain[i]].host == host { return Some(chain[i]); }
        i := i + 1;
      }
      return None;
    }

    /** alloc_cache_inode, for a number still to be given out. */
    method AllocCacheInode(host: nat, kind: Kind) returns (r: Result<nat>)
      requires Valid()
      modifies this
      ensures Did(r, NewObj(old(store), host, kind), store)
      ensures r.Ok? ==> Valid() && r.value == old(store).next
    {
      hide Represents, Hash32, Zeros, GivenOut;
      ghost var s, st := Memory(), store;
      RoomOnDisk(s, st, own);
      if nextIno < ninos { NewRepresents(s, st, own, host, kind); }
      var ino :- AllocIno();
      inodes := inodes[ino := EmptyInode(host, ino, kind)];
      var h := Hash32(host);
      inodeChains := inodeChains[h := [ino] + inodeChains[h]];
      own := own[ino := INode];
      store := NewObj(st, host, kind).value;
      return Ok(ino);
    }

    /** add_entry */
    method AddEntry(cur: nat, file: nat, name: seq<Byte>) returns (r: Result<()>)
      requires Valid() && cur in store.objs && file in store.objs
      modifies this, image
      ensures Did(r, SfsStore.AddEntry(old(store), cur, file, name), store)
      ensures r.Ok? ==> Valid()
    {
      hide Represents, Mapped, CString;
      ghost var st := store;
      KindOf(Memory(), st, own, cur);
      if !inodes[cur].inode.kind.Dir? || |name| > MAX_FNAME_LEN { return Failed; }
      NamedRepresents(Memory(), st, own, name);
      entryName := StrCpy(entryName, name);
      store := Named(st, name);
      var _ :- AppendNew(cur, EntryBlock(file, entryName[..NAME_WRITTEN]), NAME_SIZE);
      BumpRepresents(Memory(), store, own, file);
      inodes := inodes[file := LinkedOnce(inodes[file])];
      store := Bump(store, file);
      return Ok(());
    }

    // ---------- The tree ----------

    /** open_file: reads give whole blocks until the last. */
    method OpenFile(i: nat, content: seq<Byte>) returns (r: Result<()>)
      requires Valid() && i in store.objs
      modifies this, image
      ensures Did(r, SfsStore.OpenFile(old(store), i, content), store)
      ensures r.Ok? ==> Valid()
    {
      hide Represents, Put, Padded, Sane;
      var last := BLKSIZE;
      var rest := content;
      while |rest| > 0
        invariant Valid() && i in store.objs && (last == BLKSIZE || rest == [])
        invariant SfsStore.OpenFile(store, i, rest) == SfsStore.OpenFile(old(store), i, content)
        decreases |rest|
      {
        if last != BLKSIZE { return Failed; }
        var n := Chunk(rest);
        ghost var st := store;
        PutKeeps(st, i, DataBlock(Padded(rest[..n])), n);
        var _ :- AppendNew(i, DataBlock(Padded(rest[..n])), n);
        last := n;
        rest := rest[n..];
      }
      return Ok(());
    }

    /** open_link */
    method OpenLink(i: nat, target: seq<Byte>) returns (r: Result<()>)
      requires Valid() && i in store.objs
      modifies this, image
      ensures Did(r, SfsStore.OpenLink(old(store), i, target), store)
      ensures r.Ok? ==> Valid()
    {
      if |target| >= BLKSIZE { return Bug; }
      r := AppendNew(i, DataBlock(Padded(target)), |target|);
    }

    /** add_file */
    method AddFile(cur: nat, name: seq<Byte>, host: nat, content: seq<Byte>) returns (r: Result<()>)
      requires Valid() && cur in store.objs
      modifies this, image
      ensures Did(r, AddNamed(old(store), cur, FileNode(host, content), name), store)
      ensures r.Ok? ==> Valid()
    {
      hide Represents, SfsStore.OpenFile, SfsStore.AddEntry;
      ghost var st := store;
      var found := SearchCacheInode(host);
      var file: nat;
      if found.None? {
        file :- AllocCacheInode(host, File);
        var _ :- OpenFile(file, content);
      } else {
        file := found.value;
      }
      r := AddEntry(cur, file, name);
    }

    /** add_link */
    method AddLink(cur: nat, name: seq<Byte>, host: nat, target: seq<Byte>) returns (r: Result<()>)
      requires Valid() && cur in store.objs
      modifies this, image
      ensures Did(r, AddNamed(old(store), cur, LinkNode(host, target), name), store)
      ensures r.Ok? ==> Valid()
    {
      hide Represents, SfsStore.AddEntry, Padded;
      var file :- AllocCacheInode(host, Link);
      var _ :- OpenLink(file, target);
      r := AddEntry(cur, file, name);
    }

    /** add_dir */
    method AddDir(parent: nat, name: seq<Byte>, host: nat, listing: Listing) returns (r: Result<()>)
      requires Valid() && parent in store.objs
      modifies this, image
      ensures Did(r, AddNamed(old(store), parent, DirNode(host, listing), name), store)
      ensures r.Ok? ==> Valid()
      decreases listing, 1
    {
      hide Represents, SfsStore.OpenDir, SfsStore.AddEntry;
      var found := SearchCacheInode(host);
      if found.Some? { return Failed; }
      var current :- AllocCacheInode(host, Dir);
      var _ :- OpenDir(current, parent, listing);
      r := AddEntry(parent, current, name);
    }

    /** open_dir */
    method OpenDir(cur: nat, parent: nat, listing: Listing) returns (r: Result<()>)
      requires Valid() && cur in store.objs && parent in store.objs
      modifies this, image
      ensures Did(r, SfsStore.OpenDir(old(store), cur, parent, listing), store)
      ensures r.Ok? ==> Valid()
      decreases listing, 0
    {
      hide Represents, SfsStore.AddEntry;
      var _ :- AddEntry(cur, cur, [DOT]);
      var _ :- AddEntry(cur, parent, [DOT, DOT]);
      var l := listing;
      while l.Cons?
        invariant Valid() && cur in store.objs && (l == listing || l < listing)
        invariant ReadDir(store, cur, l) == SfsStore.OpenDir(old(store), cur, parent, listing)
        decreases l
      {
        var name, node := l.name, l.node;
        ReadDirNext(store, cur, l);
        l := l.rest;
        if name == [DOT] || name == [DOT, DOT] { continue; }
        if Hidden(name) { continue; }
        if |name| > MAX_FNAME_LEN { return Bug; }
        match node {
          case LinkNode(host, target) => var _ :- AddLink(cur, name, host, target);
          case DirNode(host, sub) => var _ :- AddDir(cur, name, host, sub);
          case FileNode(host, content) => var _ :- AddFile(cur, name, host, content);
          case OtherNode =>
        }
      }
      return Ok(());
    }

    // ---------- Closing ----------

    /** One block of the free map, from number i on: lines 316-332. */
    method FreeMapFrom(i: nat) returns (bits: seq<bool>)
      requires i < ninos && nextIno <= ninos && i % BLKBITS == 0
      ensures bits == FreeBits(nextIno, ninos, i / BLKBITS)
    {
      var buffer := new bool[BLKBITS](_ => false);
      if i + BLKBITS > nextIno {
        var start, end := 0, BLKBITS;
        if i < nextIno { start := nextIno - i; }
        if i + BLKBITS > ninos { end := ninos - i; }
        var j: nat := start;
        while j < end
          invariant start <= j && (j <= end || start > end)
          invariant forall x :: 0 <= x < BLKBITS ==> buffer[x] == (start <= x < j && x < end)
        {
          buffer[j] := true;
          j := j + 1;
        }
      }
      bits := buffer[..];
    }

    /** The free map and the super block: lines 312-335. */
    method FlushMap(ghost s: Sfs) returns (ghost done: set<nat>)
      requires image.Length >= ninos > 0 && nextIno <= ninos && FirstFree(ninos) <= ninos
      requires s == Memory() && MapFlushed(s)
      modifies image
      ensures Partly(image[..], s, done) && MapDone(ninos, done)
    {
      var i, ino := 0, BLKN_FREEMAP;
      done := {};
      while i < ninos
        invariant i == (ino - BLKN_FREEMAP) * BLKBITS && BLKN_FREEMAP <= ino <= FirstFree(ninos)
        invariant i >= ninos ==> ino == FirstFree(ninos)
        invariant Partly(image[..], s, done) && forall n: nat :: BLKN_FREEMAP <= n < ino ==> n in done
      {
        assert MapBlockFlushed(s, ino - BLKN_FREEMAP);
        var bits := FreeMapFrom(i);
        var written := WriteBlock(FreeMapBlock(bits), ino);
        assert written.Ok?;
        done := done + {ino};
        ino := ino + 1;
        i := i + BLKBITS;
      }
      var written := WriteBlock(SuperBlock(MAGIC, ninos, unused), BLKN_SUPER);
      assert written.Ok?;
      done := done + {BLKN_SUPER};
    }

    /** The index blocks on one hash chain. */
    method FlushCaches(chain: seq<nat>, ghost s: Sfs, ghost was: set<nat>) returns (ghost done: set<nat>)
      requires image.Length >= ninos && caches == s.pool.caches && ninos == s.pool.ninos && Partly(image[..], s, was)
      requires CachesReady(s, chain)
      modifies image
      ensures Partly(image[..], s, done) && was <= done && forall x :: x in chain ==> x in done
    {
      var k := 0;
      done := was;
      while k < |chain|
        invariant k <= |chain| && Partly(image[..], s, done) && was <= done && forall x :: x in chain[..k] ==> x in done
      {
        var x := chain[k];
        var written := WriteBlock(IndexBlock(caches[x]), x);
        assert written.Ok?;
        done := done + {x};
        assert chain[..k + 1] == chain[..k] + [x];
        k := k + 1;
      }
      assert chain[..k] == chain;
    }

    /** The inodes on one hash chain. */
    method FlushInodes(chain: seq<nat>, ghost s: Sfs, ghost was: set<nat>) returns (ghost done: set<nat>)
      requires image.Length >= ninos && inodes == s.inodes && ninos == s.pool.ninos && Partly(image[..], s, was)
      requires InodesReady(s, chain)
      modifies image
      ensures Partly(image[..], s, done) && was <= done && forall x :: x in chain ==> x in done
    {
      var k := 0;
      done := was;
      while k < |chain|
        invariant k <= |chain| && Partly(image[..], s, done) && was <= done && forall x :: x in chain[..k] ==> x in done
      {
        var x := chain[k];
        var written := WriteBlock(InodeBlock(inodes[x].inode), x);
        assert written.Ok?;
        done := done + {x};
        assert chain[..k + 1] == chain[..k] + [x];
        k := k + 1;
      }
      assert chain[..k] == chain;
    }

    /** close_sfs */
    method Close()
      requires Valid()
      modifies image
      ensures image[..] == Flushed(old(Memory()))
    {
      hide Represents, FlushedBlock, Hash32, FirstFree, Partly, CachesReady, InodesReady;
      ghost var s := Memory();
      FlushFacts(s, store, own);
      ghost var done := FlushMap(s);
      assert cacheChains == s.pool.chains && inodeChains == s.chains && caches == s.pool.caches && inodes == s.inodes;
      var i := 0;
      while i < HASH_LIST_SIZE
        invariant i <= HASH_LIST_SIZE && Partly(image[..], s, done) && MapDone(ninos, done)
        invariant ChainsDone(s.pool.chains, i, done) && ChainsDone(s.chains, i, done)
      {
        done := FlushCaches(cacheChains[i], s, done);
        done := FlushInodes(inodeChains[i], s, done);
        i := i + 1;
      }
      AllFlushed(s, image[..], done);
    }
  }

  /** The blocks in done are as in the flushed image, the others as they were. */
  ghost predicate Partly(image: seq<Block>, s: Sfs, done: set<nat>) {
    |image| == |s.disk| && forall n: nat :: n < |image| ==> image[n] == if n in done then FlushedBlock(s, n) else s.disk[n]
  }

  /** What hangs on the first n chains is done. */
  ghost predicate ChainsDone(chains: seq<seq<nat>>, n: nat, done: set<nat>) {
    n <= |chains| && forall h, x :: 0 <= h < n && x in chains[h] ==> x in done
  }

  /** The index blocks on a chain are cached, and are written out as they are. */
  ghost predicate CachesReady(s: Sfs, chain: seq<nat>) {
    s.pool.ninos <= |s.disk| && forall x :: x in chain ==>
      x in s.pool.caches && x < s.pool.ninos && FlushedBlock(s, x) == IndexBlock(s.pool.caches[x])
  }

  ghost predicate InodesReady(s: Sfs, chain: seq<nat>) {
    s.pool.ninos <= |s.disk| && forall x :: x in chain ==>
      x in s.inodes && x < s.pool.ninos && FlushedBlock(s, x) == InodeBlock(s.inodes[x].inode)
  }

  ghost predicate MapDone(ninos: nat, done: set<nat>) {
    forall n: nat :: BLKN_FREEMAP <= n < FirstFree(ninos) || n == BLKN_SUPER ==> n in done
  }

  ghost predicate MapFlushed(s: Sfs) {
    && BLKN_SUPER < |s.disk| && FlushedBlock(s, BLKN_SUPER) == SuperBlock(MAGIC, s.pool.ninos, s.pool.unused)
    && forall k: nat :: MapBlockFlushed(s, k)
  }

  ghost predicate MapBlockFlushed(s: Sfs, k: nat) {
    BLKN_FREEMAP + k < FirstFree(s.pool.ninos) ==>
      BLKN_FREEMAP + k < |s.disk| && FlushedBlock(s, BLKN_FREEMAP + k) == FreeMapBlock(FreeBits(s.pool.next, s.pool.ninos, k))
  }

  /** What closing relies on. */
  lemma {:induction false} FlushFacts(s: Sfs, st: Store, own: map<nat, Owner>)
    requires Represents(s, st, own)
    ensures |s.disk| >= s.pool.ninos > 0 && s.pool.next <= s.pool.ninos && FirstFree(s.pool.ninos) <= s.pool.ninos
    ensures MapFlushed(s) && |s.pool.chains| == |s.chains| == HASH_LIST_SIZE
    ensures forall h :: 0 <= h < HASH_LIST_SIZE ==> CachesReady(s, s.pool.chains[h]) && InodesReady(s, s.chains[h])
    ensures forall x :: x in s.pool.caches ==> x in s.pool.chains[0]
    ensures forall x :: x in s.inodes ==> x in s.chains[Hash32(s.inodes[x].host)]
  {
    hide InodesAre, DataOwned, DataWritten, Finds, IndexesOwned, FlushedBlock, FreeBits, SfsBlockMap.Numbered, Reserved, Hash32, MapFlushed;
    RoomOnDisk(s, st, own);
    ReservedRoom(s.pool, own);
    MapBlocks(s, st, own);
    forall h | 0 <= h < HASH_LIST_SIZE
      ensures CachesReady(s, s.pool.chains[h]) && InodesReady(s, s.chains[h])
    {
      forall x | x in s.pool.chains[h]
        ensures x in s.pool.caches && x < s.pool.ninos && FlushedBlock(s, x) == IndexBlock(s.pool.caches[x])
      {
        assert h == 0 && x in s.pool.caches;
        CacheBlocks(s, st, own, x);
      }
      forall x | x in s.chains[h]
        ensures x in s.inodes && x < s.pool.ninos && FlushedBlock(s, x) == InodeBlock(s.inodes[x].inode)
      {
        InodeBlocks(s, st, own, x);
      }
    }
  }

  lemma {:induction false} ReservedRoom(p: Pool, own: map<nat, Owner>)
    requires SfsBlockMap.Numbered(p, own) && Reserved(own, p.ninos)
    ensures FirstFree(p.ninos) <= p.ninos && p.ninos > 0
  {
    assert FirstFree(p.ninos) - 1 in own;
  }

  lemma {:induction false} MapBlocks(s: Sfs, st: Store, own: map<nat, Owner>)
    requires Represents(s, st, own)
    ensures MapFlushed(s)
  {
    hide Represents, FreeBits, FlushedBlock, Flushed, FirstFree;
    SameCounts(s, st, own);
    SuperShown(s, st, own);
    assert |Flushed(s)| == |s.disk|;
    assert Flushed(s)[BLKN_SUPER] == FlushedBlock(s, BLKN_SUPER);
    forall k: nat
      ensures MapBlockFlushed(s, k)
    {
      if BLKN_FREEMAP + k < FirstFree(s.pool.ninos) {
        FreeMapShown(s, st, own, k);
        assert Flushed(s)[BLKN_FREEMAP + k] == FlushedBlock(s, BLKN_FREEMAP + k);
      }
    }
  }

  lemma {:induction false} SameCounts(s: Sfs, st: Store, own: map<nat, Owner>)
    requires Represents(s, st, own)
    ensures s.pool.next == st.next && s.pool.ninos == st.ninos && s.pool.unused == st.ninos - st.next
  {
    hide InodesAre, DataOwned, Finds, Hangs, IndexesOwned, Chained;
  }

  lemma {:induction false} CacheBlocks(s: Sfs, st: Store, own: map<nat, Owner>, x: nat)
    requires Represents(s, st, own) && x in s.pool.caches
    ensures x < s.pool.ninos && x < |s.disk| && FlushedBlock(s, x) == IndexBlock(s.pool.caches[x])
  {
    hide InodesAre, DataOwned, Finds, Hangs, IndexesOwned, Chained, FlushedBlock;
    RoomOnDisk(s, st, own);
    IndexesFlushed(s, st, own);
    assert Flushed(s)[x] == FlushedBlock(s, x);
  }

  lemma {:induction false} InodeBlocks(s: Sfs, st: Store, own: map<nat, Owner>, x: nat)
    requires Represents(s, st, own) && x in s.inodes
    ensures x < s.pool.ninos && x < |s.disk| && FlushedBlock(s, x) == InodeBlock(s.inodes[x].inode)
  {
    hide InodeIs, DataOwned, Finds, Hangs, IndexesOwned, Chained, FlushedBlock;
    RoomOnDisk(s, st, own);
    InodeFlushed(s, st, own, x);
    assert Flushed(s)[x] == FlushedBlock(s, x);
  }

  /** Once all that closing writes is written, the image is the flushed one. */
  lemma {:induction false} AllFlushed(s: Sfs, image: seq<Block>, done: set<nat>)
    requires Partly(image, s, done) && MapDone(s.pool.ninos, done)
    requires |s.pool.chains| == |s.chains| == HASH_LIST_SIZE
    requires ChainsDone(s.pool.chains, HASH_LIST_SIZE, done) && ChainsDone(s.chains, HASH_LIST_SIZE, done)
    requires forall x :: x in s.pool.caches ==> x in s.pool.chains[0]
    requires forall x :: x in s.inodes ==> x in s.chains[Hash32(s.inodes[x].host)]
    ensures image == Flushed(s)
  {
    hide Hash32;
    forall n: nat | n < |image|
      ensures image[n] == FlushedBlock(s, n)
    {
      if n in s.inodes { assert n in s.chains[Hash32(s.inodes[n].host)]; }
    }
  }

  /** A node and its entry: what add_file, add_link and add_dir do. */
  ghost function AddNamed(st: Store, cur: nat, node: Node, name: seq<Byte>): (r: Result<Store>)
    requires Sane(st) && cur in st.objs && !node.OtherNode?
    ensures r.Ok? ==> cur in r.value.objs && Sane(r.value)
  {
    var st1 :- AddNode(st, cur, node);
    SfsStore.AddEntry(st1, cur, AddedIno(st, node), name)
  }

  lemma {:induction false} ReadDirNext(st: Store, cur: nat, l: Listing)
    requires Sane(st) && cur in st.objs && l.Cons?
    ensures ReadDir(st, cur, l) ==
      if Hidden(l.name) then ReadDir(st, cur, l.rest)
      else if |l.name| > MAX_FNAME_LEN then Bug
      else if l.node.OtherNode? then ReadDir(st, cur, l.rest)
      else
        var r := AddNamed(st, cur, l.node, l.name);
        if r.Ok? then ReadDir(r.value, cur, l.rest) else r
  {
  }

  lemma {:induction false} PutKeeps(st: Store, i: nat, block: Block, size: nat)
    requires i in st.objs
    ensures Put(st, i, block, size).Ok? ==> i in Put(st, i, block, size).value.objs
  {
  }

  lemma {:induction false} KindOf(s: Sfs, st: Store, own: map<nat, Owner>, i: nat)
    requires Represents(s, st, own) && i in st.objs
    ensures i in s.inodes && s.inodes[i].inode.kind == st.objs[i].kind
  {
    hide DataOwned, DataWritten, IndexesOwned, Reserved, Chained, Mapped, Finds, Hangs;
    InodeAt(s, st, own, i);
  }

  /** The name buffer is beside what the memory represents. */
  lemma {:induction false} NamedRepresents(s: Sfs, st: Store, own: map<nat, Owner>, name: seq<Byte>)
    requires Represents(s, st, own) && |name| < |st.name|
    ensures Represents(s, Named(st, name), own)
  {
    hide InodesAre, DataOwned, DataWritten, Finds, IndexesOwned, Chained, SfsBlockMap.Numbered, Hangs, Reserved;
    NamedInodes(s, st, own, name);
    NamedData(s, st, own, name);
    NamedFinds(s, st, own, name);
  }

  lemma {:induction false} NamedInodes(s: Sfs, st: Store, own: map<nat, Owner>, name: seq<Byte>)
    requires InodesAre(s, st, own) && |name| < |st.name|
    ensures InodesAre(s, Named(st, name), own)
  {
    hide Mapped, InodeIs;
  }

  lemma {:induction false} NamedData(s: Sfs, st: Store, own: map<nat, Owner>, name: seq<Byte>)
    requires DataOwned(st, own) && DataWritten(s, st, own) && |name| < |st.name|
    ensures DataOwned(Named(st, name), own) && DataWritten(s, Named(st, name), own)
  {
  }

  lemma {:induction false} NamedFinds(s: Sfs, st: Store, own: map<nat, Owner>, name: seq<Byte>)
    requires Finds(s, st) && IndexesOwned(st, own) && |name| < |st.name|
    ensures Finds(s, Named(st, name)) && IndexesOwned(Named(st, name), own)
  {
    hide Hash32;
    assert forall host :: NewestOf(Named(st, name), host) == NewestOf(st, host);
    assert forall o :: Needs(Named(st, name), o) == Needs(st, o);
  }

  lemma {:induction false} RoomOnDisk(s: Sfs, st: Store, own: map<nat, Owner>)
    requires Represents(s, st, own)
    ensures |s.disk| >= s.pool.ninos && s.pool.next == st.next <= s.pool.ninos && st.ninos == s.pool.ninos
    ensures |s.chains| == HASH_LIST_SIZE && |s.pool.chains| == HASH_LIST_SIZE
  {
    hide InodesAre, DataOwned, Finds, IndexesOwned, Reserved, Chained;
  }

  lemma {:induction false} PutSane(st: Store, i: nat, block: Block, size: nat)
    requires Sane(st) && i in st.objs && Put(st, i, block, size).Ok?
    ensures Sane(Put(st, i, block, size).value) && Put(st, i, block, size).value.name == st.name
  {
  }

  /** A call gave the number that f says and left its pool. */
  ghost predicate Gave(r: Result<nat>, f: Result<(Pool, nat)>, p: Pool) {
    match f
    case Ok(g) => r == Ok(g.1) && p == g.0
    case Bug => r == Bug
    case Failed => r == Failed
  }

  function ZeroBytes(n: nat): (zeros: seq<Byte>)
    ensures |zeros| == n
  {
    seq(n, _ => 0)
  }

  /** The image file holds the flushed memory of a finished build. */
  ghost predicate Finished(image: seq<Block>, st: Store) {
    exists s, own :: Represents(s, st, own) && image == Flushed(s)
  }

  /** create_img on an image file of that many bytes, from open_img to the end. */
  method CreateImg(image: array<Block>, bytes: nat, listing: Listing) returns (r: Result<()>)
    requires image.Length == bytes / BLKSIZE
    modifies image
    ensures var f := Build(bytes, ZeroBytes(NAME_SIZE), listing);
      && (r.Ok? <==> f.Ok?) && (r.Bug? <==> f.Bug?)
      && (r.Ok? ==> Finished(image[..], f.value))
  {
    hide Represents, Flushed, SfsStore.OpenDir;
    if FirstFree(Ninos(bytes)) >= Ninos(bytes) { return Bug; }
    var sfs := new Builder(image, bytes);
    var _ :- sfs.OpenDir(BLKN_ROOT, BLKN_ROOT, listing);
    ghost var s := sfs.Memory();
    assert Represents(s, sfs.store, sfs.own);
    sfs.Close();
    assert image[..] == Flushed(s);
    return Ok(());
  }
}
