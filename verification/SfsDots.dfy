/** Which names of the host tree come into the image and which do not, said of the finished image byte for
    byte: every directory starts with "." and "..", and no other name in it starts with a dot. */
module SfsDots {
  import opened Bytes
  import opened SfsFormat
  import opened SfsStore
  import opened SfsCost
  import opened SfsTree
  import opened SfsDisk
  import opened SfsImage
  import opened SfsRoundTrip
  import opened SfsSharing

  // ---------- What is stored ----------

  /** The name of entry j of a directory. */
  ghost predicate NameFits(name: seq<Byte>, j: nat) {
    if j == 0 then name == [46] else if j == 1 then name == [46, 46] else name != [] ==> name[0] != 46
  }

  ghost predicate EntryFits(st: Store, b: nat, j: nat) {
    b in st.data && st.data[b].EntryBlock? && st.data[b].ino in st.objs && NameFits(CString(st.data[b].name), j)
  }

  ghost predicate DirFits(st: Store, o: Obj) {
    forall j :: 0 <= j < |o.blocks| ==> EntryFits(st, o.blocks[j], j)
  }

  /** All directories have names that fit, and all but those just made both dots. */
  ghost predicate Clean(st: Store, starting: set<nat>) {
    Tidy(st) && forall i :: i in st.objs && st.objs[i].kind.Dir? ==>
      DirFits(st, st.objs[i]) && (i in starting || |st.objs[i].blocks| >= 2)
  }

  lemma {:induction false} PutClean(st: Store, i: nat, block: Block, size: nat, starting: set<nat>)
    requires Clean(st, starting) && i in st.objs && Put(st, i, block, size).Ok?
    requires st.objs[i].kind.Dir? ==> block.EntryBlock? && block.ino in st.objs && NameFits(CString(block.name), |st.objs[i].blocks|)
    ensures Clean(Put(st, i, block, size).value, starting)
  {
    hide NameFits, CString;
    var st' := Put(st, i, block, size).value;
    forall k | k in st'.objs && st'.objs[k].kind.Dir?
      ensures DirFits(st', st'.objs[k]) && (k in starting || |st'.objs[k].blocks| >= 2)
    {
      assert DirFits(st, st.objs[k]);
      forall j | 0 <= j < |st'.objs[k].blocks|
        ensures EntryFits(st', st'.objs[k].blocks[j], j)
      {
        if j < |st.objs[k].blocks| { assert EntryFits(st, st.objs[k].blocks[j], j); }
      }
    }
  }

  lemma {:induction false} NewClean(st: Store, host: nat, kind: Kind)
    requires Clean(st, {}) && NewObj(st, host, kind).Ok?
    ensures Clean(NewObj(st, host, kind).value, if kind.Dir? then {st.next} else {})
  {
    hide NameFits, CString;
    var st' := NewObj(st, host, kind).value;
    forall k | k in st'.objs && st'.objs[k].kind.Dir?
      ensures DirFits(st', st'.objs[k]) && (k in (if kind.Dir? then {st.next} else {}) || |st'.objs[k].blocks| >= 2)
    {
      if k != st.next {
        assert DirFits(st, st.objs[k]);
        forall j | 0 <= j < |st'.objs[k].blocks|
          ensures EntryFits(st', st'.objs[k].blocks[j], j)
        {
          assert EntryFits(st, st.objs[k].blocks[j], j);
        }
      }
    }
  }

  lemma {:induction false} FileClean(st: Store, i: nat, content: seq<Byte>)
    requires Clean(st, {}) && i in st.objs && !st.objs[i].kind.Dir? && OpenFile(st, i, content).Ok?
    ensures Clean(OpenFile(st, i, content).value, {})
    decreases |content|
  {
    hide Clean;
    var n := Chunk(content);
    if n > 0 {
      var block := DataBlock(Padded(content[..n]));
      PutClean(st, i, block, n, {});
      FileClean(Put(st, i, block, n).value, i, content[n..]);
    }
  }

  /** The name is written so that it still fits, whatever the buffer held. */
  lemma {:induction false} WrittenFits(buffer: seq<Byte>, name: seq<Byte>, j: nat)
    requires |buffer| == NAME_SIZE && |name| <= MAX_FNAME_LEN && NameFits(name, j)
    ensures |StrCpy(buffer, name)| == NAME_SIZE && NameFits(CString(StrCpy(buffer, name)[..NAME_WRITTEN]), j)
  {
    if j < 2 { NameWritten(buffer, name); }
  }

  lemma {:induction false} EntryClean(st: Store, cur: nat, file: nat, name: seq<Byte>, starting: set<nat>)
    requires Clean(st, starting) && cur in st.objs && file in st.objs && NameFits(name, |st.objs[cur].blocks|)
    requires AddEntry(st, cur, file, name).Ok?
    ensures var st' := AddEntry(st, cur, file, name).value;
      Clean(st', starting) && |st'.objs[cur].blocks| == |st.objs[cur].blocks| + 1 && st'.objs[cur].kind == st.objs[cur].kind
  {
    hide NameFits, CString, StrCpy, Put;
    WrittenFits(st.name, name, |st.objs[cur].blocks|);
    var st1 := Named(st, name);
    var block := EntryBlock(file, st1.name[..NAME_WRITTEN]);
    NamedClean(st, name, starting);
    PutClean(st1, cur, block, NAME_SIZE, starting);
    var st2 := Put(st1, cur, block, NAME_SIZE).value;
    PutKeys(st1, cur, block, NAME_SIZE);
    BumpClean(st2, file, starting);
  }

  lemma {:induction false} PutKeys(st: Store, i: nat, block: Block, size: nat)
    requires i in st.objs && Put(st, i, block, size).Ok?
    ensures var st' := Put(st, i, block, size).value;
      st'.objs.Keys == st.objs.Keys && |st'.objs[i].blocks| == |st.objs[i].blocks| + 1 && st'.objs[i].kind == st.objs[i].kind
  {
  }

  lemma {:induction false} NamedClean(st: Store, name: seq<Byte>, starting: set<nat>)
    requires Clean(st, starting) && |name| < |st.name|
    ensures Clean(Named(st, name), starting)
  {
    hide NameFits, CString;
    var st' := Named(st, name);
    assert forall i :: i in st.objs && DirFits(st, st.objs[i]) ==> DirFits(st', st.objs[i]) by {
      assert forall b, j :: EntryFits(st, b, j) ==> EntryFits(st', b, j);
    }
  }

  lemma {:induction false} BumpClean(st: Store, i: nat, starting: set<nat>)
    requires Clean(st, starting) && i in st.objs
    ensures Clean(Bump(st, i), starting)
  {
    hide NameFits, CString;
    var st' := Bump(st, i);
    forall k | k in st'.objs && st'.objs[k].kind.Dir?
      ensures DirFits(st', st'.objs[k])
    {
      assert DirFits(st, st.objs[k]);
      forall j | 0 <= j < |st'.objs[k].blocks|
        ensures EntryFits(st', st'.objs[k].blocks[j], j)
      {
        assert EntryFits(st, st.objs[k].blocks[j], j);
      }
    }
  }

  /** Adding a node leaves the directory it is added to as long as it was. */
  lemma {:induction false} NodeKeeps(st: Store, cur: nat, node: Node)
    requires Tidy(st) && cur in st.objs && st.objs[cur].kind.Dir? && AddNode(st, cur, node).Ok? && !node.OtherNode?
    ensures var st' := AddNode(st, cur, node).value;
      cur in st'.objs && st'.objs[cur].kind.Dir? && |st'.objs[cur].blocks| == |st.objs[cur].blocks|
  {
    hide AddNode, PlanNode;
    NodeCost(st, cur, node);
  }

  lemma {:induction false} NodeClean(st: Store, cur: nat, node: Node)
    requires Clean(st, {}) && cur in st.objs && AddNode(st, cur, node).Ok?
    ensures Clean(AddNode(st, cur, node).value, {})
    decreases node, 0
  {
    hide Clean, NameFits, CString;
    CleanSane(st, {});
    match node
    case FileNode(host, content) =>
      if host !in st.newest {
        NewClean(st, host, File);
        FileClean(NewObj(st, host, File).value, st.next, content);
      }
    case LinkNode(host, target) =>
      NewClean(st, host, Link);
      PutClean(NewObj(st, host, Link).value, st.next, DataBlock(Padded(target)), |target|, {});
    case DirNode(host, listing) =>
      NewClean(st, host, Dir);
      OpenClean(NewObj(st, host, Dir).value, st.next, cur, listing);
    case OtherNode =>
  }

  lemma {:induction false} CleanSane(st: Store, starting: set<nat>)
    requires Clean(st, starting)
    ensures Sane(st) && Tidy(st)
    ensures forall i :: i in st.objs && st.objs[i].kind.Dir? && i !in starting ==> |st.objs[i].blocks| >= 2
  {
  }

  lemma {:induction false} Started(st: Store, cur: nat)
    requires Clean(st, {cur}) && cur in st.objs && |st.objs[cur].blocks| >= 2
    ensures Clean(st, {})
  {
  }

  lemma {:induction false} DotsFit()
    ensures NameFits([DOT], 0) && NameFits([DOT, DOT], 1)
  {
  }

  lemma {:induction false} OpenClean(st: Store, cur: nat, parent: nat, listing: Listing)
    requires Clean(st, {cur}) && cur in st.objs && parent in st.objs && OpenDir(st, cur, parent, listing).Ok?
    requires st.objs[cur].kind.Dir? && st.objs[cur].blocks == []
    ensures Clean(OpenDir(st, cur, parent, listing).value, {})
    decreases listing, 1
  {
    hide Clean, NameFits, AddEntry;
    CleanSane(st, {cur});
    DotsFit();
    OpenDirSteps(st, cur, parent, listing);
    EntryClean(st, cur, cur, [DOT], {cur});
    var st1 := AddEntry(st, cur, cur, [DOT]).value;
    EntryClean(st1, cur, parent, [DOT, DOT], {cur});
    var st2 := AddEntry(st1, cur, parent, [DOT, DOT]).value;
    Started(st2, cur);
    ListClean(st2, cur, listing);
  }

  lemma {:induction false} NameShown(name: seq<Byte>, j: nat)
    requires !Hidden(name) && j >= 2
    ensures NameFits(name, j)
  {
  }

  lemma {:induction false} ListClean(st: Store, cur: nat, listing: Listing)
    requires Clean(st, {}) && cur in st.objs && st.objs[cur].kind.Dir? && ReadDir(st, cur, listing).Ok?
    ensures Clean(ReadDir(st, cur, listing).value, {})
    decreases listing, 0
  {
    hide Clean, NameFits, AddEntry, AddNode, Hidden;
    CleanSane(st, {});
    match listing
    case Nil =>
    case Cons(name, node, rest) =>
      if Hidden(name) || node.OtherNode? {
        ListClean(st, cur, rest);
      } else {
        NodeSteps(st, cur, name, node, rest);
        var st1, file := AddNode(st, cur, node).value, AddedIno(st, node);
        NodeClean(st, cur, node);
        NodeKeeps(st, cur, node);
        NameShown(name, |st1.objs[cur].blocks|);
        EntryClean(st1, cur, file, name, {});
        ListClean(AddEntry(st1, cur, file, name).value, cur, rest);
      }
  }

  lemma {:induction false} BuildClean(bytes: nat, name: seq<Byte>, listing: Listing)
    requires |name| == NAME_SIZE && Build(bytes, name, listing).Ok?
    ensures var st := Build(bytes, name, listing).value; Clean(st, {}) && BLKN_ROOT in st.objs
  {
    hide OpenDir;
    var st := Create(bytes, name).value;
    CreateStarts(bytes, name);
    OpenClean(st, BLKN_ROOT, BLKN_ROOT, listing);
  }

  // ---------- What is on the image ----------

  /** Entry j of a directory on the image. */
  ghost predicate EntryShown(image: seq<Block>, st: Store, b: nat, j: nat) {
    b < |image| && image[b].EntryBlock? && image[b].ino in st.objs && NameFits(CString(image[b].name), j)
  }

  /** Every directory of a finished image starts with the names "." and "..", and no other name in it
      starts with a dot; its entries lead to inodes. */
  lemma {:induction false} Directories(image: seq<Block>, bytes: nat, name: seq<Byte>, listing: Listing, i: nat)
    requires |name| == NAME_SIZE && Build(bytes, name, listing).Ok? && Finished(image, Build(bytes, name, listing).value)
    requires i in Build(bytes, name, listing).value.objs
    ensures i < |image| && image[i].InodeBlock?
    ensures image[i].inode.kind.Dir? ==>
      var blocks := BlocksOf(image, image[i].inode);
      |blocks| >= 2 && forall j :: 0 <= j < |blocks| ==> EntryShown(image, Build(bytes, name, listing).value, blocks[j], j)
  {
    hide Build, Finished, BlocksOf, NameFits, CString;
    var st := Build(bytes, name, listing).value;
    BuildClean(bytes, name, listing);
    FinishedShows(image, st);
    assert InodeShown(image, st.objs[i], i);
    if image[i].inode.kind.Dir? {
      var blocks := st.objs[i].blocks;
      assert DirFits(st, st.objs[i]);
      forall j | 0 <= j < |blocks|
        ensures EntryShown(image, st, blocks[j], j)
      {
        assert EntryFits(st, blocks[j], j);
      }
    }
  }

  /** No name in the tree starts with a dot. */
  ghost predicate Undotted(out: Out)
    decreases out
  {
    out.OutDir? ==> UndottedList(out.list)
  }

  ghost predicate UndottedList(list: OutList)
    decreases list
  {
    match list
    case OutNil => true
    case OutCons(name, out, rest) => (name != [] ==> name[0] != 46) && Undotted(out) && UndottedList(rest)
  }

  /** At no depth does a name read from a finished image start with a dot. */
  lemma {:induction false} NoDotNames(image: seq<Block>, bytes: nat, name: seq<Byte>, listing: Listing, i: nat, height: nat)
    requires |name| == NAME_SIZE && Build(bytes, name, listing).Ok? && Finished(image, Build(bytes, name, listing).value)
    requires i in Build(bytes, name, listing).value.objs
    ensures ReadNode(image, i, height).Some? ==> Undotted(ReadNode(image, i, height).value)
    decreases height, 0
  {
    hide Build, Finished, NameFits, CString, EntryShown;
    if ReadNode(image, i, height).Some? {
      Directories(image, bytes, name, listing, i);
      var v := image[i].inode;
      if v.kind.Dir? {
        var st, blocks := Build(bytes, name, listing).value, BlocksOf(image, v);
        forall j | 0 <= j < |blocks[2..]|
          ensures EntryShown(image, st, blocks[2..][j], j + 2)
        {
        }
        NoDotEntries(image, bytes, name, listing, blocks[2..], 2, height - 1);
      }
    }
  }

  lemma {:induction false} NoDotEntries(image: seq<Block>, bytes: nat, name: seq<Byte>, listing: Listing, blocks: seq<nat>, k: nat, height: nat)
    requires |name| == NAME_SIZE && Build(bytes, name, listing).Ok? && Finished(image, Build(bytes, name, listing).value)
    requires k >= 2 && forall j :: 0 <= j < |blocks| ==> EntryShown(image, Build(bytes, name, listing).value, blocks[j], j + k)
    ensures ReadEntries(image, blocks, height).Some? ==> UndottedList(ReadEntries(image, blocks, height).value)
    decreases height, 1 + |blocks|
  {
    hide Build, Finished, CString, ReadNode;
    if blocks != [] {
      assert EntryShown(image, Build(bytes, name, listing).value, blocks[0], 0 + k);
      NoDotNames(image, bytes, name, listing, image[blocks[0]].ino, height);
      forall j | 0 <= j < |blocks[1..]|
        ensures EntryShown(image, Build(bytes, name, listing).value, blocks[1..][j], j + (k + 1))
      {
      }
      NoDotEntries(image, bytes, name, listing, blocks[1..], k + 1, height);
    }
  }

  // ---------- What is read back, entry by entry ----------

  /** Everything in the listing that does not start with a dot and is no special file stands in the
      list, in its place: its name, cut to 252 bytes, and a link or directory just like it.  If exact, so
      does every file. */
  ghost predicate Matches(listing: Listing, list: OutList, exact: bool)
    decreases listing
  {
    match listing
    case Nil => list == OutNil
    case Cons(name, node, rest) =>
      if (name != [] && name[0] == 46) || node.OtherNode? then Matches(rest, list, exact)
      else
        && list.OutCons? && list.name == (if |name| <= 252 then name else name[..252])
        && Alike(node, list.out, exact) && Matches(rest, list.rest, exact)
  }

  ghost predicate Alike(node: Node, out: Out, exact: bool)
    decreases node
  {
    match node
    case FileNode(_, content) => exact ==> out.OutFile? && out.content == content
    case LinkNode(_, target) => out == OutLink(target)
    case DirNode(_, listing) => out.OutDir? && Matches(listing, out.list, exact)
    case OtherNode => false
  }

  lemma {:induction false} NodeMatches(image: seq<Block>, st: Store, ino: nat, node: Node, cur: nat, last: map<nat, HostObj>,
                                       m: map<nat, nat>, height: nat)
    requires Shows(image, st) && IsNode(st, ino, node, cur, last, m) && ReadNode(image, ino, height).Some?
    ensures Alike(node, ReadNode(image, ino, height).value, false)
    ensures Alike(node, ReadNode(image, ino, height).value, true) <==> KeptNode(node, last)
    decreases node
  {
    assert InodeShown(image, st.objs[ino], ino);
    match node
    case FileNode(host, content) =>
      var use := if host in last then last[host] else HostFile(content);
      if use.HostFile? { StoredReads(image, st.data, st.objs[ino].blocks, use.content); }
    case LinkNode(_, target) =>
      LinkReads(image, st.data, st.objs[ino], target);
    case DirNode(host, listing) =>
      ListMatches(image, st, st.objs[ino].blocks[2..], listing, ino, last[host := HostDir], m, height - 1);
  }

  lemma {:induction false} ListMatches(image: seq<Block>, st: Store, blocks: seq<nat>, listing: Listing, cur: nat, last: map<nat, HostObj>,
                                       m: map<nat, nat>, height: nat)
    requires Shows(image, st) && IsList(st, blocks, listing, cur, last, m) && ReadEntries(image, blocks, height).Some?
    ensures Matches(listing, ReadEntries(image, blocks, height).value, false)
    ensures Matches(listing, ReadEntries(image, blocks, height).value, true) <==> Kept(listing, last)
    decreases listing
  {
    match listing
    case Nil =>
    case Cons(name, node, rest) =>
      if Hidden(name) || node.OtherNode? {
        ListMatches(image, st, blocks, rest, cur, last, m, height);
      } else {
        NodeMatches(image, st, st.data[blocks[0]].ino, node, cur, last, m, height);
        ListMatches(image, st, blocks[1..], rest, cur, LastNode(node, last), m, height);
      }
  }

  /** What is read from the root of a finished image has all names of the listing, in their places and at
      all depths, but those that start with a dot or are special files; and the contents of all files
      exactly when none has a number that was last used for anything else, in which case it can be read. */
  lemma {:induction false} ReadBack(image: seq<Block>, bytes: nat, name: seq<Byte>, listing: Listing, height: nat)
    requires |name| == NAME_SIZE && CNames(listing) && Build(bytes, name, listing).Ok?
    requires Finished(image, Build(bytes, name, listing).value)
    ensures var read := ReadNode(image, 1, height);
      && (read.Some? ==> read.value.OutDir? && Matches(listing, read.value.list, false)
                         && (Matches(listing, read.value.list, true) <==> Kept(listing, AT_ROOT)))
      && (Kept(listing, AT_ROOT) && height >= Height(TreeOf(listing, map[])) ==> read.Some?)
  {
    hide Build, Finished, IsList, Matches, Kept, TreeOf, ReadEntries;
    var st := Build(bytes, name, listing).value;
    var m := BuildHolds(bytes, name, listing);
    FinishedShows(image, st);
    RoundTripIff(image, bytes, name, listing, if height < Height(TreeOf(listing, map[])) then Height(TreeOf(listing, map[])) else height);
    if ReadNode(image, 1, height).Some? {
      assert InodeShown(image, st.objs[1], 1);
      ListMatches(image, st, st.objs[1].blocks[2..], listing, 1, AT_ROOT, m, height - 1);
    }
  }
}
