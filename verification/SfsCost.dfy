/** When mksfs succeeds: exactly when the tree is one it accepts and the blocks it takes fit. */
module SfsCost {
  import opened Bytes
  import opened SfsFormat
  import opened SfsBlockMap
  import opened SfsStore

  /** Whether nodes are acceptable, the blocks they take, and the host inodes that are then known. */
  datatype Plan = Plan(fine: bool, blocks: nat, known: set<nat>)

  /** Blocks of a file's contents. */
  function Chunks(bytes: nat): nat {
    (bytes + BLKSIZE - 1) / BLKSIZE
  }

  function PlanNode(node: Node, known: set<nat>): Plan
    decreases node
  {
    match node
    case FileNode(host, content) =>
      if host in known then Plan(true, 0, known)
      else
        var k := Chunks(|content|);
        Plan(k <= LN_NBLKS, 1 + k + IndexBlocks(k), known + {host})
    case LinkNode(host, target) => Plan(|target| < BLKSIZE, 2, known + {host})
    case DirNode(host, listing) =>
      var p := PlanListing(listing, 2, known + {host});
      Plan(p.fine && host !in known, 1 + p.blocks + 2, p.known)
    case OtherNode => Plan(true, 0, known)
  }

  /** The rest of a directory that has n entries. */
  function PlanListing(listing: Listing, n: nat, known: set<nat>): Plan
    decreases listing
  {
    match listing
    case Nil => Plan(true, 0, known)
    case Cons(name, node, rest) =>
      if Hidden(name) then PlanListing(rest, n, known)
      else if |name| > MAX_FNAME_LEN then Plan(false, 0, known)
      else if node.OtherNode? then PlanListing(rest, n, known)
      else
        var p := PlanNode(node, known);
        var q := PlanListing(rest, n + 1, p.known);
        Plan(p.fine && q.fine && n < LN_NBLKS, p.blocks + 1 + NewIndexes(n) + q.blocks, q.known)
  }

  /** Inodes have numbers that were given out. */
  ghost predicate Bounded(st: Store) {
    st.next <= st.ninos && forall j :: j in st.objs ==> j < st.next
  }

  /** st' has so many numbers less to give out, and knows those host inodes. */
  ghost predicate Spent(st: Store, st': Store, blocks: nat, known: set<nat>) {
    st'.next == st.next + blocks <= st'.ninos == st.ninos && st'.newest.Keys == known && Bounded(st')
  }

  /** No inode but i has more blocks than before, and none is of another kind. */
  ghost predicate Apart(st: Store, st': Store, i: nat) {
    && st.objs.Keys <= st'.objs.Keys
    && forall j :: j in st.objs ==>
      st'.objs[j].kind == st.objs[j].kind && (j != i ==> |st'.objs[j].blocks| == |st.objs[j].blocks|)
  }

  /** Only inode i is longer, by n blocks. */
  ghost predicate Lengthened(st: Store, st': Store, i: nat, n: nat) {
    Apart(st, st', i) && i in st.objs && i in st'.objs && |st'.objs[i].blocks| == |st.objs[i].blocks| + n
  }

  lemma {:induction false} PutCost(st: Store, i: nat, block: Block, size: nat)
    requires i in st.objs && Bounded(st)
    ensures var n, r := |st.objs[i].blocks|, Put(st, i, block, size);
      && (r.Ok? <==> n < LN_NBLKS && st.next + 1 + NewIndexes(n) <= st.ninos)
      && (r.Ok? ==> Spent(st, r.value, 1 + NewIndexes(n), st.newest.Keys) && Lengthened(st, r.value, i, 1))
  {
  }

  lemma {:induction false} LengthenedTwice(st: Store, st1: Store, st2: Store, i: nat, m: nat, n: nat)
    requires Lengthened(st, st1, i, m) && Lengthened(st1, st2, i, n)
    ensures Lengthened(st, st2, i, m + n)
  {
  }

  lemma {:induction false} LengthenedNone(st: Store, i: nat)
    requires i in st.objs
    ensures Lengthened(st, st, i, 0)
  {
  }

  lemma {:induction false} FileCost(st: Store, i: nat, content: seq<Byte>)
    requires i in st.objs && |st.objs[i].blocks| <= LN_NBLKS && Bounded(st)
    ensures var n, k := |st.objs[i].blocks|, Chunks(|content|);
      var blocks := k + IndexBlocks(n + k) - IndexBlocks(n);
      var r := OpenFile(st, i, content);
      && blocks >= 0
      && (r.Ok? <==> n + k <= LN_NBLKS && st.next + blocks <= st.ninos)
      && (r.Ok? ==> Spent(st, r.value, blocks, st.newest.Keys) && Lengthened(st, r.value, i, k))
    decreases |content|
  {
    hide OpenFile, Put, Padded, Chunks, NewIndexes, IndexBlocks, Apart;
    var n, c := |st.objs[i].blocks|, Chunk(content);
    ChunksNext(content);
    OpenFileNext(st, i, content);
    if c == 0 {
      LengthenedNone(st, i);
    } else {
      var block := DataBlock(Padded(content[..c]));
      IndexBlocksNext(n);
      IndexBlocksMono(n + 1, n + Chunks(|content|));
      PutCost(st, i, block, c);
      var r := Put(st, i, block, c);
      if r.Ok? {
        FileCost(r.value, i, content[c..]);
        if OpenFile(st, i, content).Ok? { LengthenedTwice(st, r.value, OpenFile(st, i, content).value, i, 1, Chunks(|content| - c)); }
      }
    }
  }

  lemma {:induction false} OpenFileNext(st: Store, i: nat, content: seq<Byte>)
    requires i in st.objs
    ensures var c := Chunk(content);
      if c == 0 then OpenFile(st, i, content) == Ok(st)
      else var r := Put(st, i, DataBlock(Padded(content[..c])), c);
           if r.Ok? then OpenFile(st, i, content) == OpenFile(r.value, i, content[c..]) else !OpenFile(st, i, content).Ok?
  {
    hide Put, Padded;
  }

  lemma {:induction false} ChunksNext(content: seq<Byte>)
    ensures var c := Chunk(content);
      Chunks(|content|) == if c == 0 then 0 else 1 + Chunks(|content| - c)
  {
  }

  lemma {:induction false} IndexBlocksMono(m: nat, n: nat)
    requires m <= n
    ensures IndexBlocks(m) <= IndexBlocks(n)
  {
  }

  lemma {:induction false} EntryCost(st: Store, cur: nat, file: nat, name: seq<Byte>)
    requires Sane(st) && Bounded(st) && cur in st.objs && file in st.objs && st.objs[cur].kind.Dir? && |name| <= MAX_FNAME_LEN
    ensures var n := |st.objs[cur].blocks|;
      var r := AddEntry(st, cur, file, name);
      && (r.Ok? <==> n < LN_NBLKS && st.next + 1 + NewIndexes(n) <= st.ninos)
      && (r.Ok? ==> Spent(st, r.value, 1 + NewIndexes(n), st.newest.Keys) && Lengthened(st, r.value, cur, 1))
  {
  }

  /** What NodeCost says of a node. */
  ghost predicate Costs(st: Store, cur: nat, p: Plan, r: Result<Store>) {
    && (r.Ok? <==> p.fine && st.next + p.blocks <= st.ninos)
    && (r.Ok? ==> Spent(st, r.value, p.blocks, p.known) && Lengthened(st, r.value, cur, 0))
  }

  lemma {:induction false} NewCost(st: Store, host: nat, kind: Kind)
    requires Sane(st) && Bounded(st)
    ensures var r := NewObj(st, host, kind);
      if st.next == st.ninos then r == Bug
      else (
        && r.Ok? && Spent(st, r.value, 1, st.newest.Keys + {host}) && Sane(r.value) && Apart(st, r.value, st.next)
        && st.next in r.value.objs && r.value.objs[st.next].kind == kind && r.value.objs[st.next].blocks == [])
  {
  }

  /** What happens to a fresh inode does not touch the others. */
  lemma {:induction false} FreshApart(st: Store, st1: Store, st2: Store, cur: nat)
    requires Bounded(st) && cur in st.objs && Apart(st, st1, st.next) && Apart(st1, st2, st.next)
    ensures Lengthened(st, st2, cur, 0)
  {
  }

  lemma {:induction false} NodeCost(st: Store, cur: nat, node: Node)
    requires Sane(st) && cur in st.objs && st.objs[cur].kind.Dir? && Bounded(st) && !node.OtherNode?
    ensures Costs(st, cur, PlanNode(node, st.newest.Keys), AddNode(st, cur, node))
    decreases node
  {
    hide AddNode, PlanNode, OpenDir, PlanListing, Costs, Apart, Spent;
    match node
    case FileNode(host, content) => FileNodeCost(st, cur, host, content);
    case LinkNode(host, target) => LinkNodeCost(st, cur, host, target);
    case DirNode(host, listing) =>
      NewCost(st, host, Dir);
      var r := NewObj(st, host, Dir);
      if r.Ok? && host !in st.newest { DirCost(r.value, st.next, cur, listing); }
      DirNodeCost(st, cur, host, listing, r);
  }

  lemma {:induction false} DirNodeCost(st: Store, cur: nat, host: nat, listing: Listing, r: Result<Store>)
    requires Sane(st) && cur in st.objs && Bounded(st) && r == NewObj(st, host, Dir)
    requires r.Ok? && host !in st.newest ==>
      && st.next in r.value.objs && Sane(r.value) && cur in r.value.objs && r.value.objs[st.next].kind.Dir?
      && var p, r2 := PlanListing(listing, 2, st.newest.Keys + {host}), OpenDir(r.value, st.next, cur, listing);
         && (r2.Ok? <==> p.fine && st.next + 1 + 2 + p.blocks <= st.ninos)
         && (r2.Ok? ==> Spent(r.value, r2.value, 2 + p.blocks, p.known) && Apart(r.value, r2.value, st.next))
    ensures Costs(st, cur, PlanNode(DirNode(host, listing), st.newest.Keys), AddNode(st, cur, DirNode(host, listing)))
  {
    hide AddNode, PlanNode, NewObj, OpenDir, PlanListing, Sane, Apart, Lengthened;
    NewCost(st, host, Dir);
    DirNodePlan(host, listing, st.newest.Keys);
    var node := DirNode(host, listing);
    DirNodeAdded(st, cur, host, listing, r);
    if AddNode(st, cur, node).Ok? { FreshApart(st, r.value, AddNode(st, cur, node).value, cur); }
  }

  lemma {:induction false} DirNodePlan(host: nat, listing: Listing, known: set<nat>)
    ensures var p := PlanListing(listing, 2, known + {host});
      PlanNode(DirNode(host, listing), known) == Plan(p.fine && host !in known, 1 + p.blocks + 2, p.known)
  {
  }

  lemma {:induction false} DirNodeAdded(st: Store, cur: nat, host: nat, listing: Listing, r: Result<Store>)
    requires Sane(st) && cur in st.objs && r == NewObj(st, host, Dir)
    ensures AddNode(st, cur, DirNode(host, listing)) ==
      if host in st.newest then Failed else if r.Ok? then OpenDir(r.value, st.next, cur, listing) else Bug
  {
    hide OpenDir;
  }

  lemma {:induction false} LinkNodeCost(st: Store, cur: nat, host: nat, target: seq<Byte>)
    requires Sane(st) && cur in st.objs && Bounded(st)
    ensures Costs(st, cur, PlanNode(LinkNode(host, target), st.newest.Keys), AddNode(st, cur, LinkNode(host, target)))
  {
    NewCost(st, host, Link);
    var r := NewObj(st, host, Link);
    if r.Ok? && |target| < BLKSIZE {
      PutCost(r.value, st.next, DataBlock(Padded(target)), |target|);
      hide Put, NewObj, Padded;
    }
  }

  lemma {:induction false} FileNodeCost(st: Store, cur: nat, host: nat, content: seq<Byte>)
    requires Sane(st) && cur in st.objs && Bounded(st)
    ensures Costs(st, cur, PlanNode(FileNode(host, content), st.newest.Keys), AddNode(st, cur, FileNode(host, content)))
  {
    if host !in st.newest {
      NewCost(st, host, File);
      var r := NewObj(st, host, File);
      if r.Ok? {
        FileCost(r.value, st.next, content);
        var r2 := AddNode(st, cur, FileNode(host, content));
        assert r2 == OpenFile(r.value, st.next, content);
        if r2.Ok? { FreshApart(st, r.value, r2.value, cur); }
        hide OpenFile, NewObj, AddNode, Apart, Lengthened, Sane;
      }
    }
  }

  lemma {:induction false} DirCost(st: Store, cur: nat, parent: nat, listing: Listing)
    requires Sane(st) && cur in st.objs && parent in st.objs && st.objs[cur].kind.Dir? && st.objs[cur].blocks == []
    requires Bounded(st)
    ensures var p, r := PlanListing(listing, 2, st.newest.Keys), OpenDir(st, cur, parent, listing);
      && (r.Ok? <==> p.fine && st.next + 2 + p.blocks <= st.ninos)
      && (r.Ok? ==> Spent(st, r.value, 2 + p.blocks, p.known) && Apart(st, r.value, cur))
    decreases listing, 1
  {
    EntryCost(st, cur, cur, [DOT]);
    var r1 := AddEntry(st, cur, cur, [DOT]);
    if r1.Ok? {
      EntryCost(r1.value, cur, parent, [DOT, DOT]);
      var r2 := AddEntry(r1.value, cur, parent, [DOT, DOT]);
      if r2.Ok? { ListingCost(r2.value, cur, listing); }
    }
  }

  lemma {:induction false} ListingCost(st: Store, cur: nat, listing: Listing)
    requires Sane(st) && cur in st.objs && st.objs[cur].kind.Dir?
    requires Bounded(st)
    ensures var p, r := PlanListing(listing, |st.objs[cur].blocks|, st.newest.Keys), ReadDir(st, cur, listing);
      && (r.Ok? <==> p.fine && st.next + p.blocks <= st.ninos)
      && (r.Ok? ==> Spent(st, r.value, p.blocks, p.known) && Apart(st, r.value, cur))
    decreases listing, 0
  {
    hide AddNode, PlanNode, AddEntry, NewIndexes;
    match listing
    case Nil =>
    case Cons(name, node, rest) =>
      if Hidden(name) || (|name| <= MAX_FNAME_LEN && node.OtherNode?) {
        ListingCost(st, cur, rest);
      } else if |name| <= MAX_FNAME_LEN {
        NodeCost(st, cur, node);
        var r1 := AddNode(st, cur, node);
        if r1.Ok? {
          EntryCost(r1.value, cur, AddedIno(st, node), name);
          var r2 := AddEntry(r1.value, cur, AddedIno(st, node), name);
          if r2.Ok? { ListingCost(r2.value, cur, rest); }
        }
      }
  }

  /** An image is made exactly when it has room for the super block, the root and the free map, the
      tree is acceptable, and its blocks fit; and then it uses just those. */
  lemma {:induction false} BuildIff(bytes: nat, name: seq<Byte>, listing: Listing)
    requires |name| == NAME_SIZE
    ensures var n, p, r := Ninos(bytes), PlanListing(listing, 2, {0}), Build(bytes, name, listing);
      && (r.Ok? <==> FirstFree(n) < n && p.fine && FirstFree(n) + 2 + p.blocks <= n)
      && (r.Ok? ==> r.value.next == FirstFree(n) + 2 + p.blocks && r.value.newest.Keys == p.known)
  {
    var r := Create(bytes, name);
    if r.Ok? {
      assert r.value.newest.Keys == {0};
      DirCost(r.value, BLKN_ROOT, BLKN_ROOT, listing);
    }
  }

  /** The limits in figures: an image file of b blocks, f of them for the free map, takes a directory with
      one file of c blocks of contents, reached through x index blocks, exactly when the name has at most
      255 bytes, the file at most 32768 blocks, and all that fits with the super block, two inodes and three entries. */
  lemma {:induction false} OneFileIff(bytes: nat, name: seq<Byte>, file: seq<Byte>, host: nat, content: seq<Byte>, b: nat, f: nat, c: nat, x: nat)
    requires |name| == NAME_SIZE && host != 0 && file != [] && file[0] != 46
    requires bytes / 4096 == b <= 524288 && b <= f * 32768 < b + 32768 && |content| <= c * 4096 < |content| + 4096
    requires if c <= 12 then x == 0 else if c <= 1036 then x == 1 else x >= 2 && c - 1036 <= (x - 2) * 1024 < c - 1036 + 1024
    ensures Build(bytes, name, Cons(file, FileNode(host, content), Nil)).Ok? <==> |file| <= 255 && c <= 32768 && f + c + x + 6 <= b
  {
    hide Build;
    BuildIff(bytes, name, Cons(file, FileNode(host, content), Nil));
    assert FirstFree(b) == 2 + f && Chunks(|content|) == c && IndexBlocks(c) == x;
    assert PlanListing(Nil, 3, {0, host}) == Plan(true, 0, {0, host});
  }

  lemma {:induction false} OneLinkIff(bytes: nat, name: seq<Byte>, link: seq<Byte>, host: nat, target: seq<Byte>, b: nat, f: nat)
    requires |name| == NAME_SIZE && link != [] && link[0] != 46
    requires bytes / 4096 == b <= 524288 && b <= f * 32768 < b + 32768
    ensures Build(bytes, name, Cons(link, LinkNode(host, target), Nil)).Ok? <==> |link| <= 255 && |target| < 4096 && f + 7 <= b
  {
    hide Build;
    BuildIff(bytes, name, Cons(link, LinkNode(host, target), Nil));
    assert FirstFree(b) == 2 + f;
    assert PlanListing(Nil, 3, {0, host}) == Plan(true, 0, {0, host});
  }
}
