/** Exactly when an image gives its host tree back.  mksfs knows a host inode by its number alone, so that
    of two files that share a number, as they may on different host file systems, one is lost. */
module SfsSharing {
  import opened Bytes
  import opened Wrappers
  import opened SfsFormat
  import opened SfsStore
  import opened SfsTree
  import opened SfsDisk
  import opened SfsImage
  import opened SfsRoundTrip

  /** The height of a tree does not depend on the inodes. */
  lemma {:induction false} HeightSame(listing: Listing, dir: nat, m: map<nat, nat>, dir': nat, m': map<nat, nat>)
    ensures HeightOfList(Shown(listing, dir, m)) == HeightOfList(Shown(listing, dir', m'))
    decreases listing
  {
    match listing
    case Nil =>
    case Cons(name, node, rest) =>
      if !Hidden(name) && node.DirNode? {
        HeightSame(node.listing, NumberOf(m, node.host), m, NumberOf(m', node.host), m');
      }
      HeightSame(rest, dir, m, dir', m');
  }

  /** A file read at an inode of the store has what that inode is known to hold. */
  lemma {:induction false} FileRead(image: seq<Block>, st: Store, ino: nat, host: nat, use: HostObj, height: nat, n: nat, content: seq<Byte>)
    requires Shows(image, st) && ino in st.objs && KnownAs(st.data, st.objs[ino], host, use)
    requires ReadNode(image, ino, height) == Some(OutFile(n, content))
    ensures use == HostFile(content)
  {
    assert InodeShown(image, st.objs[ino], ino);
    if use.HostFile? { StoredReads(image, st.data, st.objs[ino].blocks, use.content); }
  }

  /** If the nodes of a listing read as its tree, none of its files is lost. */
  lemma {:induction false} ReadKept(image: seq<Block>, st: Store, blocks: seq<nat>, listing: Listing, cur: nat, last: map<nat, HostObj>,
                                    made: map<nat, nat>, dir: nat, m: map<nat, nat>, height: nat)
    requires Shows(image, st) && IsList(st, blocks, listing, cur, last, made)
    requires ReadEntries(image, blocks, height) == Some(Shown(listing, dir, m))
    ensures Kept(listing, last)
    decreases listing
  {
    match listing
    case Nil =>
    case Cons(name, node, rest) =>
      if Hidden(name) || node.OtherNode? {
        ReadKept(image, st, blocks, rest, cur, last, made, dir, m, height);
      } else {
        NodeReadKept(image, st, st.data[blocks[0]].ino, node, cur, last, made, dir, m, height);
        ReadKept(image, st, blocks[1..], rest, cur, LastNode(node, last), made, dir, m, height);
      }
  }

  lemma {:induction false} NodeReadKept(image: seq<Block>, st: Store, ino: nat, node: Node, cur: nat, last: map<nat, HostObj>,
                                        made: map<nat, nat>, dir: nat, m: map<nat, nat>, height: nat)
    requires Shows(image, st) && IsNode(st, ino, node, cur, last, made) && !node.OtherNode?
    requires ReadNode(image, ino, height) == Some(ShownNode(node, dir, m))
    ensures KeptNode(node, last)
    decreases node
  {
    match node
    case FileNode(host, content) =>
      FileRead(image, st, ino, host, if host in last then last[host] else HostFile(content), height, NumberOf(m, host), content);
    case LinkNode(_, _) =>
    case DirNode(host, listing) =>
      assert InodeShown(image, st.objs[ino], ino);
      ReadKept(image, st, st.objs[ino].blocks[2..], listing, ino, last[host := HostDir], made, NumberOf(m, host), m, height - 1);
  }

  /** An image gives back the tree it was made from, for some numbering of its files and directories,
      exactly when no file has a number that was last used for anything but a file with its contents. */
  lemma {:induction false} RoundTripIff(image: seq<Block>, bytes: nat, name: seq<Byte>, listing: Listing, height: nat)
    requires |name| == NAME_SIZE && CNames(listing) && Build(bytes, name, listing).Ok?
    requires Finished(image, Build(bytes, name, listing).value) && height >= Height(TreeOf(listing, map[]))
    ensures (exists m :: ReadNode(image, BLKN_ROOT, height) == Some(TreeOf(listing, m))) <==> Kept(listing, AT_ROOT)
  {
    hide Shown, ReadNode, Finished, Kept, Build, IsList;
    var st := Build(bytes, name, listing).value;
    var made := BuildHolds(bytes, name, listing);
    if Kept(listing, AT_ROOT) {
      HeightSame(listing, BLKN_ROOT, map[], BLKN_ROOT, made);
      ReadsTree(image, st, listing, made, height);
    }
    if m :| ReadNode(image, BLKN_ROOT, height) == Some(TreeOf(listing, m)) {
      FinishedShows(image, st);
      RootRead(image, st, listing, made, m, height);
    }
  }

  lemma {:induction false} RootRead(image: seq<Block>, st: Store, listing: Listing, made: map<nat, nat>, m: map<nat, nat>, height: nat)
    requires Shows(image, st) && IsRoot(st, listing, made) && ReadNode(image, BLKN_ROOT, height) == Some(TreeOf(listing, m))
    ensures Kept(listing, AT_ROOT)
  {
    assert InodeShown(image, st.objs[BLKN_ROOT], BLKN_ROOT);
    ReadKept(image, st, st.objs[BLKN_ROOT].blocks[2..], listing, BLKN_ROOT, AT_ROOT, made, BLKN_ROOT, m, height - 1);
  }

  /** An input that does not come back: two files with one number and different contents. */
  lemma {:induction false} TwoHostsClash(image: seq<Block>, bytes: nat, name: seq<Byte>, a: seq<Byte>, b: seq<Byte>, host: nat,
                                         content: seq<Byte>, other: seq<Byte>, height: nat, m: map<nat, nat>)
    requires |name| == NAME_SIZE && !Hidden(a) && !Hidden(b) && 0 !in a && 0 !in b && content != other && height >= 2
    requires var listing := Cons(a, FileNode(host, content), Cons(b, FileNode(host, other), Nil));
      Build(bytes, name, listing).Ok? && Finished(image, Build(bytes, name, listing).value)
    ensures var listing := Cons(a, FileNode(host, content), Cons(b, FileNode(host, other), Nil));
      ReadNode(image, BLKN_ROOT, height) != Some(TreeOf(listing, m))
  {
    hide ReadNode, Finished, Build;
    var rest := Cons(b, FileNode(host, other), Nil);
    var listing := Cons(a, FileNode(host, content), rest);
    ClashLost(a, b, host, content, other);
    RoundTripIff(image, bytes, name, listing, height);
  }

  lemma {:induction false} ClashLost(a: seq<Byte>, b: seq<Byte>, host: nat, content: seq<Byte>, other: seq<Byte>)
    requires !Hidden(a) && !Hidden(b) && 0 !in a && 0 !in b
    ensures var listing := Cons(a, FileNode(host, content), Cons(b, FileNode(host, other), Nil));
      CNames(listing) && Height(TreeOf(listing, map[])) == 2 && (content != other ==> !Kept(listing, AT_ROOT))
  {
    var last := LastNode(FileNode(host, content), AT_ROOT);
    var rest := Cons(b, FileNode(host, other), Nil);
    assert Kept(rest, last) ==> KeptNode(FileNode(host, other), last);
    assert CNames(rest);
    var last1 := OutCons(Cut(b), OutFile(0, other), OutNil);
    FlatHeight(Cut(b), OutFile(0, other), OutNil);
    FlatHeight(Cut(a), OutFile(0, content), last1);
    assert Shown(rest, BLKN_ROOT, map[]) == last1;
    assert Shown(Cons(a, FileNode(host, content), rest), BLKN_ROOT, map[]) == OutCons(Cut(a), OutFile(0, content), last1);
  }

  lemma {:induction false} FlatHeight(name: seq<Byte>, out: Out, rest: OutList)
    requires out.OutFile? && HeightOfList(rest) <= 1
    ensures HeightOfList(OutCons(name, out, rest)) == 1
  {
  }
}
