/** What is true of every image that mksfs finishes: the tree read back from it is the tree it was made
    from, its counts are right, and every block in it has one use. */
module SfsRoundTrip {
  import opened Bytes
  import opened Wrappers
  import opened SfsFormat
  import opened SfsBlockMap
  import opened SfsStore
  import opened SfsCost
  import opened SfsTree
  import opened SfsLinks
  import opened SfsState
  import opened SfsDisk
  import opened SfsImage

  /** Reading the image back from its root gives the tree of the host directory: the same names but for
      dot-files and what has no place in it, cut to 252 bytes; the same contents, link targets and
      nesting; and for each host inode its own inode, so that names share a file just when they did. */
  lemma {:induction false} RoundTrip(image: seq<Block>, bytes: nat, name: seq<Byte>, listing: Listing, world: map<nat, HostObj>,
                                     height: nat)
    requires |name| == NAME_SIZE && Hosted(listing, world) && Build(bytes, name, listing).Ok?
    requires Finished(image, Build(bytes, name, listing).value)
    ensures var m := Build(bytes, name, listing).value.newest;
      && (height >= Height(TreeOf(listing, m)) ==> ReadNode(image, BLKN_ROOT, height) == Some(TreeOf(listing, m)))
      && forall h, h' :: h in m && h' in m && m[h] == m[h'] ==> h == h'
  {
    hide Shown, ReadNode, Finished, Kept, Build;
    var st := Build(bytes, name, listing).value;
    HostedKept(listing, world, AT_ROOT);
    var m := BuildHolds(bytes, name, listing);
    HostedNumbers(st, listing, world, m);
    if height >= Height(TreeOf(listing, m)) { ReadsTree(image, st, listing, m, height); }
    forall h, h' | h in st.newest && h' in st.newest && st.newest[h] == st.newest[h']
      ensures h == h'
    {
      SharingKept(st, LastList(listing, AT_ROOT), m, h, h');
    }
  }

  lemma {:induction false} ReadsTree(image: seq<Block>, st: Store, listing: Listing, m: map<nat, nat>, height: nat)
    requires Finished(image, st) && IsRoot(st, listing, m) && Kept(listing, AT_ROOT) && height >= Height(TreeOf(listing, m))
    ensures ReadNode(image, BLKN_ROOT, height) == Some(TreeOf(listing, m))
  {
    hide ReadNode, Shows, Finished, Shown, Kept, IsList, HoldsList;
    FinishedShows(image, st);
    KeptHolds(st, st.objs[BLKN_ROOT].blocks[2..], listing, BLKN_ROOT, AT_ROOT, m);
    ReadsNode(image, st, BLKN_ROOT, TreeOf(listing, m), height);
  }

  lemma {:induction false} FinishedShows(image: seq<Block>, st: Store)
    requires Finished(image, st)
    ensures Shows(image, st)
  {
    hide Represents, Shows;
    var s, own :| Represents(s, st, own) && image == Flushed(s);
    FlushedShows(s, st, own);
  }

  /** The entries among the first n blocks of the image that name inode i. */
  function Naming(image: seq<Block>, i: nat, n: nat): nat
    requires n <= |image|
  {
    if n == 0 then 0 else Naming(image, i, n - 1) + if NamesIno(image[n - 1], i) then 1 else 0
  }

  lemma {:induction false} NamingIsNames(s: Sfs, st: Store, own: map<nat, Owner>, i: nat, n: nat)
    requires Represents(s, st, own) && n <= st.next
    ensures n <= |Flushed(s)| && Naming(Flushed(s), i, n) == Names(st.data, i, n)
  {
    hide Represents, Flushed;
    RoomOnDisk(s, st, own);
    SameLength(s);
    if n > 0 {
      NamingIsNames(s, st, own, i, n - 1);
      EntryOnlyData(s, st, own, n - 1);
    }
  }

  lemma {:induction false} SameLength(s: Sfs)
    ensures |Flushed(s)| == |s.disk|
  {
  }

  /** Entries are data. */
  lemma {:induction false} EntryOnlyData(s: Sfs, st: Store, own: map<nat, Owner>, b: nat)
    requires Represents(s, st, own) && b < st.next
    ensures b < |Flushed(s)|
    ensures if b in st.data then Flushed(s)[b] == st.data[b] else !Flushed(s)[b].EntryBlock?
  {
    hide InodeIs, DataOwned, Finds, Hangs, IndexesOwned, Chained, FirstFree;
    if b in st.data { DataReads(s, st, own, b); }
    SuperShown(s, st, own);
    assert b in own;
    if own[b].FreeMap? { FreeMapShown(s, st, own, b - BLKN_FREEMAP); }
  }

  /** The free map of the image: a bit is set exactly for the numbers not in use, and as many are set as
      the super block says are unused. */
  lemma {:induction false} FreeMapCounts(image: seq<Block>, st: Store)
    requires Finished(image, st)
    ensures |image| > 0 && st.next <= st.ninos && image[BLKN_SUPER] == SuperBlock(MAGIC, st.ninos, st.ninos - st.next)
    ensures FreeCount(image, FirstFree(st.ninos) - BLKN_FREEMAP) == st.ninos - st.next
    ensures forall n: nat :: n < st.ninos ==> BitShown(image, n) && (BitOf(image, n) <==> st.next <= n)
  {
    hide Represents, Flushed, BitShown, BitOf, FreeCount, FirstFree;
    var s, own :| Represents(s, st, own) && image == Flushed(s);
    FreeMapRight(s, st, own);
    SuperShown(s, st, own);
  }

  /** The super block counts the blocks of the image file, whatever is above 2 GB left out; the free map
      starts at block 2 and has as many blocks as it takes to have a bit for each. */
  lemma {:induction false} SuperCounts(image: seq<Block>, bytes: nat, name: seq<Byte>, listing: Listing) returns (n: nat, c: nat)
    requires |name| == NAME_SIZE && bytes / 4096 < 0x1_0000_0000 && Build(bytes, name, listing).Ok?
    requires Finished(image, Build(bytes, name, listing).value)
    ensures n == (if bytes <= 0x8000_0000 then bytes / 4096 else 524288)
    ensures |image| > 2 + c && image[0] == SuperBlock(0x2f8dbe2a, n, n - Build(bytes, name, listing).value.next)
    ensures n <= c * 32768 < n + 32768 && forall x :: 2 <= x < 2 + c ==> image[x].FreeMapBlock?
  {
    hide Represents, Flushed, OpenDir;
    var st := Build(bytes, name, listing).value;
    BuildIff(bytes, name, listing);
    BlocksCounted(bytes);
    n, c := st.ninos, FirstFree(st.ninos) - 2;
    BuiltOn(bytes, name, listing);
    var s, own :| Represents(s, st, own) && image == Flushed(s);
    RoomOnDisk(s, st, own);
    SameLength(s);
    SuperShown(s, st, own);
    forall x | 2 <= x < 2 + c
      ensures image[x].FreeMapBlock?
    {
      FreeMapShown(s, st, own, x - 2);
    }
  }

  lemma {:induction false} BlocksCounted(bytes: nat)
    requires bytes / 4096 < 0x1_0000_0000
    ensures Ninos(bytes) == (if bytes <= 0x8000_0000 then bytes / 4096 else 524288)
    ensures var n := Ninos(bytes); FirstFree(n) >= 2 && n <= (FirstFree(n) - 2) * 32768 < n + 32768
  {
  }

  lemma {:induction false} BuiltOn(bytes: nat, name: seq<Byte>, listing: Listing)
    requires |name| == NAME_SIZE && Build(bytes, name, listing).Ok?
    ensures Build(bytes, name, listing).value.ninos == Ninos(bytes)
  {
    hide OpenDir, PlanListing;
    var st := Create(bytes, name).value;
    CreateStarts(bytes, name);
    DirCost(st, BLKN_ROOT, BLKN_ROOT, listing);
  }

  /** The link count of every inode on the image is the number of entries there that name it. */
  lemma {:induction false} LinksCount(image: seq<Block>, bytes: nat, name: seq<Byte>, listing: Listing, i: nat)
    requires |name| == NAME_SIZE && Build(bytes, name, listing).Ok?
    requires Finished(image, Build(bytes, name, listing).value) && i in Build(bytes, name, listing).value.objs
    ensures var next := Build(bytes, name, listing).value.next;
      && i < |image| && image[i].InodeBlock? && next <= |image|
      && image[i].inode.nlinks == Naming(image, i, next) % 0x1_0000
  {
    hide Represents, Flushed, SfsLinks.Counted, Build, Naming, Names, Shows;
    var st := Build(bytes, name, listing).value;
    var s, own :| Represents(s, st, own) && image == Flushed(s);
    RoomOnDisk(s, st, own);
    SameLength(s);
    FlushedShows(s, st, own);
    BuildCounted(bytes, name, listing);
    LinksShown(st, image, i);
    NamingIsNames(s, st, own, i, st.next);
  }

  lemma {:induction false} LinksShown(st: Store, image: seq<Block>, i: nat)
    requires SfsLinks.Counted(st) && Shows(image, st) && i in st.objs
    ensures i < |image| && image[i].InodeBlock? && image[i].inode.nlinks == Names(st.data, i, st.next) % 0x1_0000
  {
    assert InodeShown(image, st.objs[i], i);
  }

  /** Every block in use has one owner, and is what it is owned as: the super block, a block of the free
      map, an inode, an index block of one file, or one block of one file, directory or link. */
  lemma {:induction false} EveryBlockUsed(image: seq<Block>, st: Store) returns (own: map<nat, Owner>)
    requires Finished(image, st)
    ensures forall x: nat :: x in own <==> x < st.next
    ensures forall x :: x in own ==> Used(image, st, x, own[x])
  {
    hide Represents, Flushed, Used;
    var s, o :| Represents(s, st, o) && image == Flushed(s);
    own := o;
    SuperShown(s, st, own);
    forall x | x in own
      ensures Used(image, st, x, own[x])
    {
      OneOwner(s, st, own, x);
    }
  }
}
