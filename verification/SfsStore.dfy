/** What mksfs builds from a directory tree, without the block maps: inodes with the sequences of their
    blocks, and what was written to the blocks (lab8/tools/mksfs.c lines 201-254 and 428-559).  The
    module SfsImage proves the code equal to these functions. */
module SfsStore {
  import opened Bytes
  import opened SfsFormat
  import opened SfsBlockMap

  /** The tree on the host that the image is made from.  host is the number of an inode there: two
      names of one file share it. */
  datatype Node =
    | FileNode(host: nat, content: seq<Byte>)
    | LinkNode(host: nat, target: seq<Byte>)
    | DirNode(host: nat, listing: Listing)
    | OtherNode

  /** A directory in the order readdir gives, by name. */
  datatype Listing = Nil | Cons(name: seq<Byte>, node: Node, rest: Listing)

  datatype Obj = Obj(kind: Kind, host: nat, size: nat, nlinks: nat, blocks: seq<nat>)

  /** newest finds the last inode made for a host inode, as search_cache_inode does. */
  datatype Store = Store(ninos: nat, next: nat, objs: map<nat, Obj>, data: map<nat, Block>, newest: map<nat, nat>, name: seq<Byte>)

  const DOT: Byte := 46

  // ---------- Steps ----------

  /** alloc_cache_inode for a number still to be given out: the new inode is number st.next. */
  function NewObj(st: Store, host: nat, kind: Kind): Result<Store> {
    if st.next < st.ninos then
      Ok(Store(st.ninos, st.next + 1, st.objs[st.next := Obj(kind, host, 0, 0, [])], st.data, st.newest[host := st.next], st.name))
    else Bug
  }

  /** A block is given out, written, and appended to inode i. */
  function Put(st: Store, i: nat, block: Block, size: nat): Result<Store>
    requires i in st.objs
  {
    var n := |st.objs[i].blocks|;
    if st.next + 1 + NewIndexes(n) > st.ninos || n >= LN_NBLKS then Bug
    else Ok(Store(st.ninos, st.next + 1 + NewIndexes(n), st.objs[i := Longer(st.objs[i], st.next, size)],
                  st.data[st.next := block], st.newest, st.name))
  }

  function Longer(o: Obj, b: nat, size: nat): Obj {
    Obj(o.kind, o.host, o.size + size, o.nlinks, o.blocks + [b])
  }

  /** file->inode.nlinks ++, on 16 bits. */
  function Bump(st: Store, i: nat): Store
    requires i in st.objs
  {
    var o := st.objs[i];
    Store(st.ninos, st.next, st.objs[i := Obj(o.kind, o.host, o.size, (o.nlinks + 1) % 0x1_0000, o.blocks)], st.data, st.newest, st.name)
  }

  function Named(st: Store, name: seq<Byte>): Store
    requires |name| < |st.name|
  {
    Store(st.ninos, st.next, st.objs, st.data, st.newest, StrCpy(st.name, name))
  }

  ghost predicate Sane(st: Store) {
    |st.name| == NAME_SIZE && forall h :: h in st.newest ==> st.newest[h] in st.objs
  }

  /** add_entry */
  function AddEntry(st: Store, cur: nat, file: nat, name: seq<Byte>): (r: Result<Store>)
    requires Sane(st) && cur in st.objs && file in st.objs
    ensures r.Ok? ==> r.value.objs.Keys == st.objs.Keys && Sane(r.value)
  {
    if !st.objs[cur].kind.Dir? || |name| > MAX_FNAME_LEN then Failed
    else
      var st1 := Named(st, name);
      var st2 :- Put(st1, cur, EntryBlock(file, st1.name[..NAME_WRITTEN]), NAME_SIZE);
      Ok(Bump(st2, file))
  }

  /** A buffer of a block with the bytes at its front, the rest zero. */
  function Padded(bytes: seq<Byte>): seq<Byte>
    requires |bytes| <= BLKSIZE
  {
    bytes + seq(BLKSIZE - |bytes|, _ => 0)
  }

  /** How much one read gets of what is left of a file. */
  function Chunk(content: seq<Byte>): (n: nat)
    ensures n <= |content| && n <= BLKSIZE && (n == 0 <==> content == [])
  {
    if |content| < BLKSIZE then |content| else BLKSIZE
  }

  /** open_file */
  function OpenFile(st: Store, i: nat, content: seq<Byte>): (r: Result<Store>)
    requires i in st.objs
    ensures r.Ok? ==> r.value.objs.Keys == st.objs.Keys && r.value.name == st.name && r.value.newest == st.newest
    decreases |content|
  {
    var n := Chunk(content);
    if n == 0 then Ok(st)
    else
      var st1 :- Put(st, i, DataBlock(Padded(content[..n])), n);
      OpenFile(st1, i, content[n..])
  }

  /** open_link: readlink fills at most one block, and must leave room in it. */
  function OpenLink(st: Store, i: nat, target: seq<Byte>): Result<Store>
    requires i in st.objs
  {
    if |target| >= BLKSIZE then Bug else Put(st, i, DataBlock(Padded(target)), |target|)
  }

  // ---------- The tree ----------

  /** The inode for a node, made first if it is needed: the inode is AddedIno. */
  function AddNode(st: Store, cur: nat, node: Node): (r: Result<Store>)
    requires Sane(st) && cur in st.objs
    ensures r.Ok? ==> st.objs.Keys <= r.value.objs.Keys && Sane(r.value)
    ensures r.Ok? && !node.OtherNode? ==> AddedIno(st, node) in r.value.objs
    decreases node, 0
  {
    match node
    case FileNode(host, content) =>
      if host in st.newest then Ok(st)
      else
        var st1 :- NewObj(st, host, File);
        OpenFile(st1, st.next, content)
    case LinkNode(host, target) =>
      var st1 :- NewObj(st, host, Link);
      OpenLink(st1, st.next, target)
    case DirNode(host, listing) =>
      if host in st.newest then Failed
      else
        var st1 :- NewObj(st, host, Dir);
        OpenDir(st1, st.next, cur, listing)
    case OtherNode => Ok(st)
  }

  /** The inode that a node's name will lead to. */
  function AddedIno(st: Store, node: Node): nat {
    if node.FileNode? && node.host in st.newest then st.newest[node.host] else st.next
  }

  /** open_dir */
  function OpenDir(st: Store, cur: nat, parent: nat, listing: Listing): (r: Result<Store>)
    requires Sane(st) && cur in st.objs && parent in st.objs
    ensures r.Ok? ==> st.objs.Keys <= r.value.objs.Keys && Sane(r.value)
    decreases listing, 1
  {
    var st1 :- AddEntry(st, cur, cur, [DOT]);
    var st2 :- AddEntry(st1, cur, parent, [DOT, DOT]);
    ReadDir(st2, cur, listing)
  }

  predicate Hidden(name: seq<Byte>) {
    name != [] && name[0] == DOT
  }

  /** The loop of open_dir: add_link, add_dir, add_file or a warning for each entry. */
  function ReadDir(st: Store, cur: nat, listing: Listing): (r: Result<Store>)
    requires Sane(st) && cur in st.objs
    ensures r.Ok? ==> st.objs.Keys <= r.value.objs.Keys && Sane(r.value)
    decreases listing, 0
  {
    match listing
    case Nil => Ok(st)
    case Cons(name, node, rest) =>
      if Hidden(name) then ReadDir(st, cur, rest)
      else if |name| > MAX_FNAME_LEN then Bug
      else if node.OtherNode? then ReadDir(st, cur, rest)
      else
        var st1 :- AddNode(st, cur, node);
        var st2 :- AddEntry(st1, cur, AddedIno(st, node), name);
        ReadDir(st2, cur, rest)
  }

  // ---------- The whole image ----------

  /** The blocks of an image file of that many bytes that are used.  They are counted in 32 bits. */
  function Ninos(bytes: nat): nat {
    var n := bytes / BLKSIZE % 0x1_0000_0000;
    if n > MAX_NBLKS then MAX_NBLKS else n
  }

  /** The first number that can be given out: after the super block, the root and the free map. */
  function FirstFree(ninos: nat): nat {
    BLKN_FREEMAP + (ninos + BLKBITS - 1) / BLKBITS
  }

  /** create_sfs: the root directory has host number 0. */
  function Create(bytes: nat, name: seq<Byte>): Result<Store> {
    var n := Ninos(bytes);
    if FirstFree(n) >= n then Bug
    else Ok(Store(n, FirstFree(n), map[BLKN_ROOT := Obj(Dir, 0, 0, 0, [])], map[], map[0 := BLKN_ROOT], name))
  }

  /** The tree built, as create_img does before it closes the image. */
  function Build(bytes: nat, name: seq<Byte>, listing: Listing): Result<Store>
    requires |name| == NAME_SIZE
  {
    var st :- Create(bytes, name);
    OpenDir(st, BLKN_ROOT, BLKN_ROOT, listing)
  }
}
