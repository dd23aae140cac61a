/** The simple file system of lab8/tools/mksfs.c on disk: its constants, what a block can hold, and
    how the blocks of a file are found from its inode. */
module SfsFormat {
  import opened Bytes

  const BLKSIZE: nat := 4096
  const NDIRECT: nat := 12
  /** SFS_BLK_NENTRY: block numbers in an index block. */
  const NENTRY: nat := 1024
  /** SFS_L1_NBLKS and SFS_LN_NBLKS: blocks reached without the double index, and the most of a file. */
  const L1_NBLKS: nat := 1036
  const LN_NBLKS: nat := 32768
  const BLKBITS: nat := 32768
  const MAX_NBLKS: nat := 524288
  const MAX_FNAME_LEN: nat := 255
  /** sizeof(entry->name), and of that what follows the entry's number in the bytes written. */
  const NAME_SIZE: nat := 256
  const NAME_WRITTEN: nat := 252
  const MAGIC: nat := 0x2f8dbe2a

  const BLKN_SUPER: nat := 0
  const BLKN_ROOT: nat := 1
  const BLKN_FREEMAP: nat := 2

  /** SFS_TYPE_FILE, SFS_TYPE_DIR, SFS_TYPE_LINK */
  datatype Kind = File | Dir | Link

  datatype Inode = Inode(size: nat, kind: Kind, nlinks: nat, blocks: nat,
                         direct: seq<nat>, indirect: nat, dbIndirect: nat)

  datatype Block =
    | SuperBlock(magic: nat, blocks: nat, unused: int)
    | FreeMapBlock(bits: seq<bool>)
    | InodeBlock(inode: Inode)
    | IndexBlock(entries: seq<nat>)
    | EntryBlock(ino: nat, name: seq<Byte>)
    | DataBlock(bytes: seq<Byte>)

  /** bug() ends the program with a message, assert without one. */
  datatype Result<+T> = Ok(value: T) | Bug | Failed {
    predicate IsFailure() {
      !Ok?
    }

    function PropagateFailure<U>(): Result<U>
      requires IsFailure()
    {
      if Bug? then Bug else Failed
    }

    function Extract(): T
      requires !IsFailure()
    {
      value
    }
  }

  // ---------- C strings ----------

  /** strcpy: what follows the terminator stays. */
  function StrCpy(buffer: seq<Byte>, s: seq<Byte>): seq<Byte>
    requires |s| < |buffer|
  {
    s + [0] + buffer[|s| + 1..]
  }

  function CString(buffer: seq<Byte>): seq<Byte> {
    if buffer == [] || buffer[0] == 0 then [] else [buffer[0]] + CString(buffer[1..])
  }

  /** A name read back from the bytes written of an entry: cut, if it is too long for them. */
  function Cut(name: seq<Byte>): seq<Byte> {
    if |name| <= NAME_WRITTEN then name else name[..NAME_WRITTEN]
  }

  lemma {:induction false} CStringPrefix(buffer: seq<Byte>, s: seq<Byte>)
    requires 0 !in s && |s| <= |buffer| && buffer[..|s|] == s && (|s| < |buffer| ==> buffer[|s|] == 0)
    ensures CString(buffer) == s
  {
    if s != [] {
      assert buffer[0] == s[0] && s[0] in s;
      assert buffer[1..][..|s| - 1] == s[1..];
      CStringPrefix(buffer[1..], s[1..]);
      assert s == [s[0]] + s[1..];
    }
  }

  /** Whatever the name buffer held before, the entry written holds the name, up to 252 bytes of it. */
  lemma {:induction false} NameWritten(buffer: seq<Byte>, name: seq<Byte>)
    requires |buffer| == NAME_SIZE && |name| <= MAX_FNAME_LEN && 0 !in name
    ensures CString(StrCpy(buffer, name)[..NAME_WRITTEN]) == Cut(name)
  {
    var raw := StrCpy(buffer, name)[..NAME_WRITTEN];
    forall x | x in Cut(name)
      ensures x != 0
    {
      assert x in name;
    }
    CStringPrefix(raw, Cut(name));
  }

  // ---------- The block map ----------

  /** Entry k of the index block with number x. */
  function IndexAt(disk: seq<Block>, x: nat, k: nat): nat {
    if x < |disk| && disk[x].IndexBlock? && k < |disk[x].entries| then disk[x].entries[k] else 0
  }

  /** The number of block j of a file: direct, indirect or doubly indirect. */
  function Bmap(disk: seq<Block>, inode: Inode, j: nat): nat {
    if j < NDIRECT then (if j < |inode.direct| then inode.direct[j] else 0)
    else if j < L1_NBLKS then IndexAt(disk, inode.indirect, j - NDIRECT)
    else IndexAt(disk, IndexAt(disk, inode.dbIndirect, (j - L1_NBLKS) / NENTRY), (j - L1_NBLKS) % NENTRY)
  }
}
