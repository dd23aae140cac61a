/** What mksfs builds from a tree, whatever the numbers of its host inodes: the tree without the entries that
    it skips and with names cut to the bytes written, where each file is what its number was last used for. */
module SfsTree {
  import opened Bytes
  import opened SfsFormat
  import opened SfsStore
  import opened SfsCost

  /** A tree read back from an image.  Files and directories come with their inode numbers, directories
      with what their entries "." and ".." lead to. */
  datatype Out =
    | OutFile(ino: nat, content: seq<Byte>)
    | OutLink(target: seq<Byte>)
    | OutDir(ino: nat, self: nat, parent: nat, list: OutList)

  datatype OutList = OutNil | OutCons(name: seq<Byte>, out: Out, rest: OutList)

  // ---------- What should be read back ----------

  function NumberOf(m: map<nat, nat>, host: nat): nat {
    if host in m then m[host] else 0
  }

  /** The tree a listing becomes in directory dir, when host inodes become the inodes m says. */
  function Shown(listing: Listing, dir: nat, m: map<nat, nat>): OutList {
    match listing
    case Nil => OutNil
    case Cons(name, node, rest) =>
      if Hidden(name) || node.OtherNode? then Shown(rest, dir, m)
      else OutCons(Cut(name), ShownNode(node, dir, m), Shown(rest, dir, m))
  }

  function ShownNode(node: Node, dir: nat, m: map<nat, nat>): Out
    requires !node.OtherNode?
  {
    match node
    case FileNode(host, content) => OutFile(NumberOf(m, host), content)
    case LinkNode(_, target) => OutLink(target)
    case DirNode(host, listing) =>
      var i := NumberOf(m, host);
      OutDir(i, i, dir, Shown(listing, i, m))
  }

  // ---------- The host ----------

  /** What a host inode is. */
  datatype HostObj = HostFile(content: seq<Byte>) | HostDir | HostLink

  /** Names are C strings: none has a zero byte. */
  predicate CNames(listing: Listing) {
    match listing
    case Nil => true
    case Cons(name, node, rest) => (Hidden(name) || (0 !in name && (node.DirNode? ==> CNames(node.listing)))) && CNames(rest)
  }

  // What a host inode number was last used for, as mksfs meets the nodes: a file whose number is known
  // is taken for what is known, a link is always new, and a directory must be.

  function LastNode(node: Node, last: map<nat, HostObj>): map<nat, HostObj> {
    match node
    case FileNode(host, content) => if host in last then last else last[host := HostFile(content)]
    case LinkNode(host, _) => last[host := HostLink]
    case DirNode(host, listing) => LastList(listing, last[host := HostDir])
    case OtherNode => last
  }

  function LastList(listing: Listing, last: map<nat, HostObj>): map<nat, HostObj> {
    match listing
    case Nil => last
    case Cons(name, node, rest) => LastList(rest, if Hidden(name) then last else LastNode(node, last))
  }

  /** No file has a number that was last used for anything but a file with its contents. */
  predicate Kept(listing: Listing, last: map<nat, HostObj>) {
    match listing
    case Nil => true
    case Cons(name, node, rest) =>
      if Hidden(name) then Kept(rest, last) else KeptNode(node, last) && Kept(rest, LastNode(node, last))
  }

  predicate KeptNode(node: Node, last: map<nat, HostObj>) {
    match node
    case FileNode(host, content) => host in last ==> last[host] == HostFile(content)
    case LinkNode(_, _) => true
    case DirNode(host, listing) => Kept(listing, last[host := HostDir])
    case OtherNode => true
  }

  /** The root's own number is 0. */
  const AT_ROOT: map<nat, HostObj> := map[0 := HostDir]

  // ---------- What is stored ----------

  /** The blocks hold the content, the last one padded. */
  ghost predicate Stored(data: map<nat, Block>, blocks: seq<nat>, content: seq<Byte>)
    decreases |blocks|
  {
    var n := Chunk(content);
    if blocks == [] then content == []
    else n > 0 && blocks[0] in data && data[blocks[0]] == DataBlock(Padded(content[..n])) && Stored(data, blocks[1..], content[n..])
  }

  ghost predicate IsEntry(data: map<nat, Block>, b: nat, name: seq<Byte>, ino: nat) {
    b in data && data[b].EntryBlock? && data[b].ino == ino && CString(data[b].name) == name
  }

  /** Inode ino stands for that tree. */
  ghost predicate Holds(st: Store, ino: nat, out: Out)
    decreases out
  {
    ino in st.objs && var o := st.objs[ino];
    match out
    case OutFile(n, content) => n == ino && o.kind.File? && o.size == |content| && Stored(st.data, o.blocks, content)
    case OutLink(target) => o.kind.Link? && HoldsLink(st.data, o, target)
    case OutDir(n, self, parent, list) => n == ino && IsDirObj(st.data, o, self, parent) && HoldsList(st, o.blocks[2..], list)
  }

  /** A directory whose first entries are the two dots. */
  ghost predicate IsDirObj(data: map<nat, Block>, o: Obj, self: nat, parent: nat) {
    && o.kind.Dir? && |o.blocks| >= 2 && o.size == NAME_SIZE * |o.blocks|
    && IsEntry(data, o.blocks[0], [DOT], self) && IsEntry(data, o.blocks[1], [DOT, DOT], parent)
  }

  ghost predicate HoldsLink(data: map<nat, Block>, o: Obj, target: seq<Byte>) {
    |target| < BLKSIZE && o.size == |target| && |o.blocks| == 1 && o.blocks[0] in data
    && data[o.blocks[0]] == DataBlock(Padded(target))
  }

  ghost predicate HoldsList(st: Store, blocks: seq<nat>, list: OutList)
    decreases list
  {
    match list
    case OutNil => blocks == []
    case OutCons(name, out, rest) =>
      && blocks != [] && blocks[0] in st.data && st.data[blocks[0]].EntryBlock?
      && CString(st.data[blocks[0]].name) == name
      && Holds(st, st.data[blocks[0]].ino, out)
      && HoldsList(st, blocks[1..], rest)
  }

  // ---------- What building does not touch ----------

  /** st' came from st by work on directory cur: everything else that was there is as it was, up to
      link counts. */
  ghost predicate Evolves(st: Store, st': Store, cur: nat) {
    && st.objs.Keys <= st'.objs.Keys && st.next <= st'.next
    && (forall b :: b in st.data ==> b in st'.data && st'.data[b] == st.data[b])
    && (forall j :: j in st.objs ==> Same(st.objs[j], st'.objs[j], j == cur))
    && (cur in st.objs ==> st.objs[cur].blocks <= st'.objs[cur].blocks)
  }

  predicate Same(o: Obj, o': Obj, longer: bool) {
    o'.kind == o.kind && o'.host == o.host && (!longer ==> o'.blocks == o.blocks && o'.size == o.size)
  }

  lemma {:induction false} EvolvesTwice(st: Store, st1: Store, st2: Store, cur: nat)
    requires Evolves(st, st1, cur) && Evolves(st1, st2, cur)
    ensures Evolves(st, st2, cur)
  {
  }

  lemma {:induction false} EvolvedObj(st: Store, st': Store, cur: nat, j: nat)
    requires Evolves(st, st', cur) && j in st.objs
    ensures j in st'.objs && st'.objs[j].kind == st.objs[j].kind && st'.objs[j].host == st.objs[j].host
  {
  }

  lemma {:induction false} StoredKept(data: map<nat, Block>, data': map<nat, Block>, blocks: seq<nat>, content: seq<Byte>)
    requires Stored(data, blocks, content) && forall b :: b in data ==> b in data' && data'[b] == data[b]
    ensures Stored(data', blocks, content)
    decreases |blocks|
  {
    if blocks != [] { StoredKept(data, data', blocks[1..], content[Chunk(content)..]); }
  }

  // ---------- What building stores ----------

  /** Every number in use was given out. */
  ghost predicate Tidy(st: Store) {
    Sane(st) && Bounded(st) && forall b :: b in st.data ==> b < st.next
  }

  lemma {:induction false} PutHolds(st: Store, i: nat, block: Block, size: nat)
    requires Tidy(st) && i in st.objs && Put(st, i, block, size).Ok?
    ensures var st' := Put(st, i, block, size).value;
      && Tidy(st') && Evolves(st, st', i) && st'.newest == st.newest
      && st'.objs[i].blocks == st.objs[i].blocks + [st.next] && st'.objs[i].size == st.objs[i].size + size
      && st'.data == st.data[st.next := block]
  {
  }

  lemma {:induction false} OneMore(s: seq<nat>, x: nat, rest: seq<nat>, s1: seq<nat>, s2: seq<nat>)
    requires s1 == s + [x] && s2 == s1 + rest
    ensures s2 == s + ([x] + rest) && ([x] + rest)[0] == x && ([x] + rest)[1..] == rest
  {
  }

  lemma {:induction false} FileHolds(st: Store, i: nat, content: seq<Byte>) returns (added: seq<nat>)
    requires Tidy(st) && i in st.objs && OpenFile(st, i, content).Ok?
    ensures var st' := OpenFile(st, i, content).value;
      && Tidy(st') && Evolves(st, st', i)
      && st'.objs[i].blocks == st.objs[i].blocks + added && st'.objs[i].size == st.objs[i].size + |content|
      && Stored(st'.data, added, content)
    decreases |content|
  {
    var n := Chunk(content);
    if n == 0 {
      added := [];
    } else {
      var block := DataBlock(Padded(content[..n]));
      PutHolds(st, i, block, n);
      var st1 := Put(st, i, block, n).value;
      assert OpenFile(st, i, content) == OpenFile(st1, i, content[n..]);
      assert i in st1.objs && st1.data[st.next] == block;
      var st2 := OpenFile(st, i, content).value;
      hide Put, Tidy, OpenFile;
      var rest := FileHolds(st1, i, content[n..]);
      EvolvesTwice(st, st1, st2, i);
      assert st2.data[st.next] == block;
      hide Evolves, Padded;
      added := [st.next] + rest;
      OneMore(st.objs[i].blocks, st.next, rest, st1.objs[i].blocks, st2.objs[i].blocks);
    }
  }

  lemma {:induction false} EntryHolds(st: Store, cur: nat, file: nat, name: seq<Byte>)
    requires Tidy(st) && cur in st.objs && file in st.objs && 0 !in name && AddEntry(st, cur, file, name).Ok?
    ensures var st' := AddEntry(st, cur, file, name).value;
      && Tidy(st') && Evolves(st, st', cur) && st'.newest == st.newest
      && st'.objs[cur].blocks == st.objs[cur].blocks + [st.next] && st'.objs[cur].size == st.objs[cur].size + NAME_SIZE
      && IsEntry(st'.data, st.next, Cut(name), file)
  {
    NameWritten(st.name, name);
  }

  /** The inodes known are what their numbers were last used for; m has those of the files and
      directories. */
  ghost predicate Known(st: Store, last: map<nat, HostObj>, m: map<nat, nat>) {
    && st.newest.Keys == last.Keys && m.Keys <= last.Keys
    && forall h :: h in last ==> KnownAt(st, h, last, m)
  }

  ghost predicate KnownAt(st: Store, h: nat, last: map<nat, HostObj>, m: map<nat, nat>) {
    && h in last && h in st.newest && st.newest[h] in st.objs && KnownAs(st.data, st.objs[st.newest[h]], h, last[h])
    && (!last[h].HostLink? ==> h in m && m[h] == st.newest[h])
  }

  ghost predicate KnownAs(data: map<nat, Block>, o: Obj, h: nat, use: HostObj) {
    && o.host == h
    && match use
       case HostFile(c) => o.kind.File? && o.size == |c| && Stored(data, o.blocks, c)
       case HostDir => o.kind.Dir?
       case HostLink => o.kind.Link?
  }

  lemma {:induction false} KnownAsKept(st: Store, st': Store, cur: nat, j: nat, h: nat, use: HostObj)
    requires Evolves(st, st', cur) && cur in st.objs && st.objs[cur].kind.Dir?
    requires j in st.objs && KnownAs(st.data, st.objs[j], h, use)
    ensures j in st'.objs && KnownAs(st'.data, st'.objs[j], h, use)
  {
    if use.HostFile? { StoredKept(st.data, st'.data, st.objs[j].blocks, use.content); }
  }

  /** Working on a directory leaves what is known true. */
  lemma {:induction false} KnownKept(st: Store, st': Store, cur: nat, last: map<nat, HostObj>, m: map<nat, nat>)
    requires Known(st, last, m) && Evolves(st, st', cur) && cur in st.objs && st.objs[cur].kind.Dir?
    requires st'.newest == st.newest
    ensures Known(st', last, m)
  {
    forall h | h in last
      ensures KnownAt(st', h, last, m)
    {
      assert KnownAt(st, h, last, m);
      KnownAsKept(st, st', cur, st.newest[h], h, last[h]);
    }
  }

  /** A new inode, and work on it only. */
  lemma {:induction false} NewHolds(st: Store, host: nat, kind: Kind, cur: nat)
    requires Tidy(st) && cur in st.objs && NewObj(st, host, kind).Ok?
    ensures var st1 := NewObj(st, host, kind).value;
      && Tidy(st1) && Evolves(st, st1, cur) && st1.newest == st.newest[host := st.next]
      && st1.objs == st.objs[st.next := Obj(kind, host, 0, 0, [])] && st1.data == st.data
      && cur < st.next && st.next !in st.objs
  {
  }

  lemma {:induction false} FreshEvolves(st: Store, st1: Store, st2: Store, cur: nat, i: nat)
    requires Evolves(st, st1, cur) && Evolves(st1, st2, i) && i !in st.objs && cur in st.objs
    requires st1.objs[cur] == st.objs[cur]
    ensures Evolves(st, st2, cur) && st2.objs[cur].blocks == st.objs[cur].blocks && st2.objs[cur].size == st.objs[cur].size
  {
  }

  /** What is recorded for a host inode when an inode is made for it. */
  function Recorded(m: map<nat, nat>, host: nat, use: HostObj, i: nat): map<nat, nat> {
    if use.HostLink? then m else m[host := i]
  }

  /** One host inode more is known, or known anew as a link. */
  lemma {:induction false} KnownMore(st: Store, st': Store, cur: nat, host: nat, i: nat, use: HostObj, last: map<nat, HostObj>, m: map<nat, nat>)
    requires Known(st, last, m) && Evolves(st, st', cur) && cur in st.objs && st.objs[cur].kind.Dir?
    requires st'.newest == st.newest[host := i] && i in st'.objs && KnownAs(st'.data, st'.objs[i], host, use)
    requires use.HostLink? || host !in last
    ensures Known(st', last[host := use], Recorded(m, host, use, i)) && Extends(m, Recorded(m, host, use, i))
  {
    var last', m' := last[host := use], Recorded(m, host, use, i);
    forall h | h in last'
      ensures KnownAt(st', h, last', m')
    {
      if h != host {
        assert KnownAt(st, h, last, m);
        KnownAsKept(st, st', cur, st.newest[h], h, last[h]);
      }
    }
  }

  ghost predicate Extends(m: map<nat, nat>, m': map<nat, nat>) {
    forall h :: h in m ==> h in m' && m'[h] == m[h]
  }

  // ---------- What a listing leaves, whatever its numbers ----------

  /** Inode ino is what node leads to in directory cur: for a file, what its number was last used for.
      Directories have higher numbers than the one they are in. */
  ghost predicate IsNode(st: Store, ino: nat, node: Node, cur: nat, last: map<nat, HostObj>, m: map<nat, nat>)
    decreases node
  {
    && ino in st.objs
    && match node
       case FileNode(host, content) =>
         var use := if host in last then last[host] else HostFile(content);
         KnownAs(st.data, st.objs[ino], host, use) && (use.HostFile? ==> host in m && m[host] == ino)
       case LinkNode(_, target) => st.objs[ino].kind.Link? && HoldsLink(st.data, st.objs[ino], target)
       case DirNode(host, listing) =>
         && host in m && m[host] == ino > cur && IsDirObj(st.data, st.objs[ino], ino, cur)
         && IsList(st, st.objs[ino].blocks[2..], listing, ino, last[host := HostDir], m)
       case OtherNode => false
  }

  ghost predicate IsList(st: Store, blocks: seq<nat>, listing: Listing, cur: nat, last: map<nat, HostObj>, m: map<nat, nat>)
    decreases listing
  {
    match listing
    case Nil => blocks == []
    case Cons(name, node, rest) =>
      if Hidden(name) || node.OtherNode? then IsList(st, blocks, rest, cur, last, m)
      else
        && blocks != [] && blocks[0] in st.data && st.data[blocks[0]].EntryBlock?
        && CString(st.data[blocks[0]].name) == Cut(name)
        && IsNode(st, st.data[blocks[0]].ino, node, cur, last, m)
        && IsList(st, blocks[1..], rest, cur, LastNode(node, last), m)
  }

  lemma {:induction false} IsNodeKept(st: Store, st': Store, ino: nat, node: Node, above: nat, last: map<nat, HostObj>, m: map<nat, nat>,
                                      cur: nat, m': map<nat, nat>)
    requires IsNode(st, ino, node, above, last, m) && Evolves(st, st', cur) && Extends(m, m')
    requires cur <= above && cur in st.objs && st.objs[cur].kind.Dir?
    ensures IsNode(st', ino, node, above, last, m')
    decreases node
  {
    match node
    case FileNode(host, content) => KnownAsKept(st, st', cur, ino, host, if host in last then last[host] else HostFile(content));
    case LinkNode(_, _) =>
    case DirNode(host, listing) => IsListKept(st, st', st.objs[ino].blocks[2..], listing, ino, last[host := HostDir], m, cur, m');
  }

  lemma {:induction false} IsListKept(st: Store, st': Store, blocks: seq<nat>, listing: Listing, above: nat, last: map<nat, HostObj>,
                                      m: map<nat, nat>, cur: nat, m': map<nat, nat>)
    requires IsList(st, blocks, listing, above, last, m) && Evolves(st, st', cur) && Extends(m, m')
    requires cur <= above && cur in st.objs && st.objs[cur].kind.Dir?
    ensures IsList(st', blocks, listing, above, last, m')
    decreases listing
  {
    match listing
    case Nil =>
    case Cons(name, node, rest) =>
      if Hidden(name) || node.OtherNode? {
        IsListKept(st, st', blocks, rest, above, last, m, cur, m');
      } else {
        IsNodeKept(st, st', st.data[blocks[0]].ino, node, above, last, m, cur, m');
        IsListKept(st, st', blocks[1..], rest, above, LastNode(node, last), m, cur, m');
      }
  }

  /** What adding a node leaves. */
  ghost predicate NodeAdded(st: Store, cur: nat, node: Node, last: map<nat, HostObj>, m: map<nat, nat>, st': Store, m': map<nat, nat>) {
    && Tidy(st') && Evolves(st, st', cur) && Known(st', LastNode(node, last), m') && Extends(m, m')
    && cur in st.objs && st'.objs[cur].blocks == st.objs[cur].blocks && st'.objs[cur].size == st.objs[cur].size
    && IsNode(st', AddedIno(st, node), node, cur, last, m')
  }

  lemma {:induction false} NodeHolds(st: Store, cur: nat, node: Node, last: map<nat, HostObj>, m: map<nat, nat>) returns (m': map<nat, nat>)
    requires Tidy(st) && Known(st, last, m) && cur in st.objs && st.objs[cur].kind.Dir? && !node.OtherNode?
    requires (node.DirNode? ==> CNames(node.listing)) && AddNode(st, cur, node).Ok?
    ensures NodeAdded(st, cur, node, last, m, AddNode(st, cur, node).value, m')
    decreases node
  {
    match node
    case FileNode(host, content) =>
      m' := m;
      if host in st.newest { assert KnownAt(st, host, last, m); } else { m' := NewFileHolds(st, cur, host, content, last, m); }
    case LinkNode(host, target) =>
      NewLinkHolds(st, cur, host, target, last, m);
      m' := m;
    case DirNode(host, listing) =>
      m' := NewDirHolds(st, cur, host, listing, last, m);
  }

  lemma {:induction false} NewDirHolds(st: Store, cur: nat, host: nat, listing: Listing, last: map<nat, HostObj>, m: map<nat, nat>)
    returns (m': map<nat, nat>)
    requires Tidy(st) && Known(st, last, m) && cur in st.objs && st.objs[cur].kind.Dir? && CNames(listing)
    requires AddNode(st, cur, DirNode(host, listing)).Ok?
    ensures NodeAdded(st, cur, DirNode(host, listing), last, m, AddNode(st, cur, DirNode(host, listing)).value, m')
    decreases listing, 2
  {
    hide Known, Evolves, Tidy, NewObj, AddNode, OpenDir, IsList, IsDirObj;
    NewDirSteps(st, cur, host, listing);
    var i, st1 := st.next, NewObj(st, host, Dir).value;
    NewHolds(st, host, Dir, cur);
    var st2 := OpenDir(st1, i, cur, listing).value;
    KnownKeys(st, last, m);
    KnownMore(st, st1, cur, host, i, HostDir, last, m);
    var m1 := Recorded(m, host, HostDir, i);
    m' := DirHolds(st1, i, cur, listing, last[host := HostDir], m1);
    FreshEvolves(st, st1, st2, cur, i);
  }

  lemma {:induction false} NewDirSteps(st: Store, cur: nat, host: nat, listing: Listing)
    requires Tidy(st) && cur in st.objs && AddNode(st, cur, DirNode(host, listing)).Ok?
    ensures Sane(st) && host !in st.newest && NewObj(st, host, Dir).Ok?
    ensures var st1 := NewObj(st, host, Dir).value;
      && Sane(st1) && st.next in st1.objs && cur in st1.objs
      && AddNode(st, cur, DirNode(host, listing)) == OpenDir(st1, st.next, cur, listing)
  {
    hide OpenDir;
  }

  lemma {:induction false} KnownKeys(st: Store, last: map<nat, HostObj>, m: map<nat, nat>)
    requires Known(st, last, m)
    ensures st.newest.Keys == last.Keys
  {
  }

  lemma {:induction false} NewFileHolds(st: Store, cur: nat, host: nat, content: seq<Byte>, last: map<nat, HostObj>, m: map<nat, nat>)
    returns (m': map<nat, nat>)
    requires Tidy(st) && Known(st, last, m) && cur in st.objs && st.objs[cur].kind.Dir? && host !in st.newest
    requires AddNode(st, cur, FileNode(host, content)).Ok?
    ensures NodeAdded(st, cur, FileNode(host, content), last, m, AddNode(st, cur, FileNode(host, content)).value, m')
  {
    hide Known, Evolves, KnownAt;
    var i, st1 := st.next, NewObj(st, host, File).value;
    NewHolds(st, host, File, cur);
    var added := FileHolds(st1, i, content);
    var st2 := OpenFile(st1, i, content).value;
    assert AddNode(st, cur, FileNode(host, content)).value == st2;
    FreshEvolves(st, st1, st2, cur, i);
    EvolvedObj(st1, st2, i, i);
    assert st2.objs[i].blocks == added;
    KnownKeys(st, last, m);
    hide NewObj, AddNode, OpenFile, Stored;
    KnownMore(st, st2, cur, host, i, HostFile(content), last, m);
    m' := Recorded(m, host, HostFile(content), i);
  }

  lemma {:induction false} NewLinkHolds(st: Store, cur: nat, host: nat, target: seq<Byte>, last: map<nat, HostObj>, m: map<nat, nat>)
    requires Tidy(st) && Known(st, last, m) && cur in st.objs && st.objs[cur].kind.Dir?
    requires AddNode(st, cur, LinkNode(host, target)).Ok?
    ensures NodeAdded(st, cur, LinkNode(host, target), last, m, AddNode(st, cur, LinkNode(host, target)).value, m)
  {
    hide Known, Evolves, KnownAt;
    var i, st1 := st.next, NewObj(st, host, Link).value;
    NewHolds(st, host, Link, cur);
    PutHolds(st1, i, DataBlock(Padded(target)), |target|);
    var st2 := OpenLink(st1, i, target).value;
    assert AddNode(st, cur, LinkNode(host, target)).value == st2;
    FreshEvolves(st, st1, st2, cur, i);
    hide NewObj, AddNode, OpenLink, Put, Padded, Stored;
    KnownMore(st, st2, cur, host, i, HostLink, last, m);
  }

  /** A directory opened has the nodes of its listing. */
  lemma {:induction false} DirHolds(st: Store, cur: nat, parent: nat, listing: Listing, last: map<nat, HostObj>, m: map<nat, nat>)
    returns (m': map<nat, nat>)
    requires Tidy(st) && Known(st, last, m) && cur in st.objs && parent in st.objs && CNames(listing)
    requires st.objs[cur].kind.Dir? && st.objs[cur].blocks == [] && st.objs[cur].size == 0
    requires OpenDir(st, cur, parent, listing).Ok?
    ensures var st' := OpenDir(st, cur, parent, listing).value;
      && Tidy(st') && Evolves(st, st', cur) && Known(st', LastList(listing, last), m') && Extends(m, m')
      && cur in st'.objs && IsDirObj(st'.data, st'.objs[cur], cur, parent)
      && IsList(st', st'.objs[cur].blocks[2..], listing, cur, last, m')
    decreases listing, 1
  {
    hide Known, Tidy, Evolves, IsList, OpenDir, ReadDir, AddEntry;
    OpenDirSteps(st, cur, parent, listing);
    var st2 := DotsHold(st, cur, parent, last, m);
    var added;
    added, m' := ListHolds(st2, cur, listing, last, m);
    var st3 := ReadDir(st2, cur, listing).value;
    EvolvesTwice(st, st2, st3, cur);
    DirStands(st2, st3, cur, parent, added);
  }

  lemma {:induction false} OpenDirSteps(st: Store, cur: nat, parent: nat, listing: Listing)
    requires Tidy(st) && cur in st.objs && parent in st.objs && OpenDir(st, cur, parent, listing).Ok?
    ensures Sane(st) && AddEntry(st, cur, cur, [DOT]).Ok?
    ensures AddEntry(AddEntry(st, cur, cur, [DOT]).value, cur, parent, [DOT, DOT]).Ok?
    ensures OpenDir(st, cur, parent, listing) == ReadDir(AddEntry(AddEntry(st, cur, cur, [DOT]).value, cur, parent, [DOT, DOT]).value, cur, listing)
  {
    hide ReadDir, AddEntry;
  }

  /** The two dots stay in front of the entries after them. */
  lemma {:induction false} DirStands(st: Store, st': Store, cur: nat, parent: nat, added: seq<nat>)
    requires Evolves(st, st', cur) && cur in st.objs && IsDirObj(st.data, st.objs[cur], cur, parent) && |st.objs[cur].blocks| == 2
    requires cur in st'.objs && st'.objs[cur].blocks == st.objs[cur].blocks + added
    requires st'.objs[cur].size == st.objs[cur].size + NAME_SIZE * |added|
    ensures IsDirObj(st'.data, st'.objs[cur], cur, parent) && st'.objs[cur].blocks[2..] == added
  {
  }

  /** The entries "." and "..". */
  lemma {:induction false} DotsHold(st: Store, cur: nat, parent: nat, last: map<nat, HostObj>, m: map<nat, nat>) returns (st2: Store)
    requires Tidy(st) && Known(st, last, m) && cur in st.objs && parent in st.objs
    requires st.objs[cur].kind.Dir? && st.objs[cur].blocks == [] && st.objs[cur].size == 0 && AddEntry(st, cur, cur, [DOT]).Ok?
    requires AddEntry(AddEntry(st, cur, cur, [DOT]).value, cur, parent, [DOT, DOT]).Ok?
    ensures st2 == AddEntry(AddEntry(st, cur, cur, [DOT]).value, cur, parent, [DOT, DOT]).value
    ensures Tidy(st2) && Evolves(st, st2, cur) && Known(st2, last, m) && cur in st2.objs
    ensures IsDirObj(st2.data, st2.objs[cur], cur, parent) && |st2.objs[cur].blocks| == 2
  {
    hide Cut, Known, AddEntry, CString;
    DotNames();
    EntryHolds(st, cur, cur, [DOT]);
    var st1 := AddEntry(st, cur, cur, [DOT]).value;
    KnownKept(st, st1, cur, last, m);
    EntryHolds(st1, cur, parent, [DOT, DOT]);
    st2 := AddEntry(st1, cur, parent, [DOT, DOT]).value;
    KnownKept(st1, st2, cur, last, m);
    EvolvesTwice(st, st1, st2, cur);
    assert IsEntry(st2.data, st.next, [DOT], cur);
    hide Evolves, IsEntry;
    assert st2.objs[cur].blocks == [st.next, st1.next];
  }

  lemma {:induction false} DotNames()
    ensures Cut([DOT]) == [DOT] && Cut([DOT, DOT]) == [DOT, DOT]
  {
  }

  lemma {:induction false} ListHolds(st: Store, cur: nat, listing: Listing, last: map<nat, HostObj>, m: map<nat, nat>)
    returns (added: seq<nat>, m': map<nat, nat>)
    requires Tidy(st) && Known(st, last, m) && cur in st.objs && st.objs[cur].kind.Dir? && CNames(listing)
    requires ReadDir(st, cur, listing).Ok?
    ensures var st' := ReadDir(st, cur, listing).value;
      && Tidy(st') && Evolves(st, st', cur) && Known(st', LastList(listing, last), m') && Extends(m, m')
      && st'.objs[cur].blocks == st.objs[cur].blocks + added && st'.objs[cur].size == st.objs[cur].size + NAME_SIZE * |added|
      && IsList(st', added, listing, cur, last, m')
    decreases listing, 0
  {
    hide Known, Tidy, IsNode, IsList, IsEntry, Evolves, AddNode, AddEntry, ReadDir;
    ListStart(st, cur, listing, last, m);
    added, m' := [], m;
    match listing
    case Nil =>
    case Cons(name, node, rest) =>
      if Hidden(name) || node.OtherNode? {
        added, m' := ListHolds(st, cur, rest, last, m);
      } else {
        NodeSteps(st, cur, name, node, rest);
        var st1, file := AddNode(st, cur, node).value, AddedIno(st, node);
        var st2 := AddEntry(st1, cur, file, name).value;
        var st3 := ReadDir(st2, cur, rest).value;
        var m1 := NodeHolds(st, cur, node, last, m);
        EvolvedObj(st, st1, cur, cur);
        EntryHolds(st1, cur, file, name);
        EvolvedObj(st1, st2, cur, cur);
        KnownKept(st1, st2, cur, LastNode(node, last), m1);
        var more;
        more, m' := ListHolds(st2, cur, rest, LastNode(node, last), m1);
        added := [st1.next] + more;
        OneMore(st1.objs[cur].blocks, st1.next, more, st2.objs[cur].blocks, st3.objs[cur].blocks);
        EvolvesTwice(st1, st2, st3, cur);
        EvolvesTwice(st, st1, st3, cur);
        IsNodeKept(st1, st3, file, node, cur, last, m1, cur, m');
        EntryKept(st2, st3, cur, st1.next, Cut(name), file);
        IsListMore(st3, st1.next, name, node, rest, more, cur, last, m', file);
      }
  }

  lemma {:induction false} ListStart(st: Store, cur: nat, listing: Listing, last: map<nat, HostObj>, m: map<nat, nat>)
    requires Tidy(st) && cur in st.objs
    ensures Sane(st) && Evolves(st, st, cur) && Extends(m, m)
    ensures listing.Nil? ==> ReadDir(st, cur, listing) == Ok(st) && IsList(st, [], listing, cur, last, m)
    ensures listing.Cons? && (Hidden(listing.name) || listing.node.OtherNode?) ==>
      && (ReadDir(st, cur, listing).Ok? ==> ReadDir(st, cur, listing) == ReadDir(st, cur, listing.rest))
      && forall st', blocks, m' :: IsList(st', blocks, listing.rest, cur, last, m') ==> IsList(st', blocks, listing, cur, last, m')
  {
  }

  lemma {:induction false} EntryKept(st: Store, st': Store, cur: nat, b: nat, name: seq<Byte>, ino: nat)
    requires Evolves(st, st', cur) && IsEntry(st.data, b, name, ino)
    ensures IsEntry(st'.data, b, name, ino)
  {
  }

  lemma {:induction false} IsListMore(st: Store, b: nat, name: seq<Byte>, node: Node, rest: Listing, more: seq<nat>, cur: nat,
                                      last: map<nat, HostObj>, m: map<nat, nat>, ino: nat)
    requires !Hidden(name) && !node.OtherNode? && IsEntry(st.data, b, Cut(name), ino)
    requires IsNode(st, ino, node, cur, last, m) && IsList(st, more, rest, cur, LastNode(node, last), m)
    ensures IsList(st, [b] + more, Cons(name, node, rest), cur, last, m)
  {
    hide IsNode;
    assert ([b] + more)[1..] == more;
  }

  lemma {:induction false} NodeSteps(st: Store, cur: nat, name: seq<Byte>, node: Node, rest: Listing)
    requires Tidy(st) && cur in st.objs && !Hidden(name) && !node.OtherNode? && ReadDir(st, cur, Cons(name, node, rest)).Ok?
    ensures Sane(st) && AddNode(st, cur, node).Ok? && AddEntry(AddNode(st, cur, node).value, cur, AddedIno(st, node), name).Ok?
    ensures ReadDir(st, cur, Cons(name, node, rest)) == ReadDir(AddEntry(AddNode(st, cur, node).value, cur, AddedIno(st, node), name).value, cur, rest)
  {
    hide AddNode, AddEntry;
  }

  // ---------- The whole image, before it is written out ----------

  /** The root with the nodes of the listing. */
  ghost predicate IsRoot(st: Store, listing: Listing, m: map<nat, nat>) {
    && BLKN_ROOT in st.objs && IsDirObj(st.data, st.objs[BLKN_ROOT], BLKN_ROOT, BLKN_ROOT)
    && IsList(st, st.objs[BLKN_ROOT].blocks[2..], listing, BLKN_ROOT, AT_ROOT, m)
  }

  /** The tree that should be read, with host inodes as the inodes that m says. */
  function TreeOf(listing: Listing, m: map<nat, nat>): Out {
    OutDir(BLKN_ROOT, BLKN_ROOT, BLKN_ROOT, Shown(listing, BLKN_ROOT, m))
  }

  /** Whatever the numbers of host inodes: from the root of what was built hang the names of the host tree,
      each with its link or directory, or with what the number of its file was last used for. */
  lemma {:induction false} BuildHolds(bytes: nat, name: seq<Byte>, listing: Listing) returns (m: map<nat, nat>)
    requires |name| == NAME_SIZE && CNames(listing) && Build(bytes, name, listing).Ok?
    ensures var st := Build(bytes, name, listing).value;
      IsRoot(st, listing, m) && Known(st, LastList(listing, AT_ROOT), m)
  {
    hide Create, OpenDir, Known, Tidy, IsList, IsDirObj;
    var st0 := Create(bytes, name).value;
    CreateStarts(bytes, name);
    m := DirHolds(st0, BLKN_ROOT, BLKN_ROOT, listing, AT_ROOT, map[0 := BLKN_ROOT]);
  }

  lemma {:induction false} CreateStarts(bytes: nat, name: seq<Byte>)
    requires |name| == NAME_SIZE && Create(bytes, name).Ok?
    ensures var st := Create(bytes, name).value;
      && Tidy(st) && Known(st, AT_ROOT, map[0 := BLKN_ROOT]) && BLKN_ROOT in st.objs
      && st.objs[BLKN_ROOT].kind.Dir? && st.objs[BLKN_ROOT].blocks == [] && st.objs[BLKN_ROOT].size == 0
  {
    var st := Create(bytes, name).value;
    assert KnownAt(st, 0, AT_ROOT, map[0 := BLKN_ROOT]);
  }

  /** Where no file's number was last used for something else, that is the host tree itself. */
  lemma {:induction false} KeptHolds(st: Store, blocks: seq<nat>, listing: Listing, cur: nat, last: map<nat, HostObj>, m: map<nat, nat>)
    requires IsList(st, blocks, listing, cur, last, m) && Kept(listing, last)
    ensures HoldsList(st, blocks, Shown(listing, cur, m))
    decreases listing
  {
    match listing
    case Nil =>
    case Cons(name, node, rest) =>
      if Hidden(name) || node.OtherNode? {
        KeptHolds(st, blocks, rest, cur, last, m);
      } else {
        var ino := st.data[blocks[0]].ino;
        if node.DirNode? { KeptHolds(st, st.objs[ino].blocks[2..], node.listing, ino, last[node.host := HostDir], m); }
        KeptHolds(st, blocks[1..], rest, cur, LastNode(node, last), m);
      }
  }

  // ---------- One host file system ----------

  /** The tree, but for what mksfs skips, is one of a single host file system: nodes with the same host
      number are the same thing, names have no zero byte, and host numbers are not 0. */
  predicate Hosted(listing: Listing, world: map<nat, HostObj>) {
    match listing
    case Nil => true
    case Cons(name, node, rest) =>
      (Hidden(name) || (0 !in name && HostedNode(node, world))) && Hosted(rest, world)
  }

  predicate HostedNode(node: Node, world: map<nat, HostObj>) {
    match node
    case FileNode(host, content) => host != 0 && host in world && world[host] == HostFile(content)
    case LinkNode(host, _) => host != 0 && host in world && world[host] == HostLink
    case DirNode(host, listing) => host != 0 && host in world && world[host] == HostDir && Hosted(listing, world)
    case OtherNode => true
  }

  /** Numbers were last used for what they are on the host. */
  ghost predicate LastFits(last: map<nat, HostObj>, world: map<nat, HostObj>) {
    forall h :: h in last && h != 0 ==> h in world && last[h] == world[h]
  }

  lemma {:induction false} HostedKept(listing: Listing, world: map<nat, HostObj>, last: map<nat, HostObj>)
    requires Hosted(listing, world) && LastFits(last, world)
    ensures CNames(listing) && Kept(listing, last) && LastFits(LastList(listing, last), world)
    decreases listing
  {
    match listing
    case Nil =>
    case Cons(name, node, rest) =>
      if Hidden(name) {
        HostedKept(rest, world, last);
      } else {
        if node.DirNode? { HostedKept(node.listing, world, last[node.host := HostDir]); }
        HostedKept(rest, world, LastNode(node, last));
      }
  }

  /** The tree of one host depends on the numbers of its files and directories only. */
  lemma {:induction false} ShownSame(listing: Listing, world: map<nat, HostObj>, dir: nat, m: map<nat, nat>, m': map<nat, nat>)
    requires Hosted(listing, world)
    requires forall h :: h in world && h != 0 && !world[h].HostLink? ==> NumberOf(m, h) == NumberOf(m', h)
    ensures Shown(listing, dir, m) == Shown(listing, dir, m')
    decreases listing
  {
    match listing
    case Nil =>
    case Cons(name, node, rest) =>
      if !Hidden(name) && node.DirNode? { ShownSame(node.listing, world, NumberOf(m, node.host), m, m'); }
      ShownSame(rest, world, dir, m, m');
  }

  /** Of the tree of one host, built: its last inodes are its inodes. */
  lemma {:induction false} HostedNumbers(st: Store, listing: Listing, world: map<nat, HostObj>, m: map<nat, nat>)
    requires Hosted(listing, world) && Known(st, LastList(listing, AT_ROOT), m)
    ensures CNames(listing) && Kept(listing, AT_ROOT) && TreeOf(listing, m) == TreeOf(listing, st.newest)
  {
    var last := LastList(listing, AT_ROOT);
    HostedKept(listing, world, AT_ROOT);
    forall h | h in world && h != 0 && !world[h].HostLink?
      ensures NumberOf(m, h) == NumberOf(st.newest, h)
    {
      if h in last { assert KnownAt(st, h, last, m); }
    }
    ShownSame(listing, world, BLKN_ROOT, m, st.newest);
  }

  /** Different host inodes have become different inodes: two names lead to one file exactly when they
      did on the host. */
  lemma {:induction false} SharingKept(st: Store, last: map<nat, HostObj>, m: map<nat, nat>, h: nat, h': nat)
    requires Known(st, last, m) && h in st.newest && h' in st.newest
    ensures st.newest[h] == st.newest[h'] <==> h == h'
  {
    assert KnownAt(st, h, last, m) && KnownAt(st, h', last, m);
  }
}
