/** Memory that records a list of blocks, and what requests and releases make of it: they are the
    operations of FitBlocks. */
module FitRecords {
  import opened Wrappers
  import opened Memlayout
  import opened Ring
  import opened FitBlocks
  import opened FitDescriptors
  import opened FitRuns
  import opened FitMemory

  /** The links are the ring of the list, and the descriptors are sound. */
  ghost predicate Records(m: Memory, list: seq<nat>) {
    Formed(m) && IsRing(m.links, |m.pages|, list) && Sound(list, m.pages, m.nrFree)
  }

  lemma {:induction false} RecordsWalkable(m: Memory, list: seq<nat>)
    requires Records(m, list)
    ensures Walkable(m, list) && Forward(m.links, |m.pages|, list)
  {
    RingForward(m.links, |m.pages|, list);
    forall i | 0 <= i < |list|
      ensures Carvable(m, list[i])
    {
      BlockInside(list, m.pages, m.nrFree, i);
    }
  }

  /** Every search for pages ends, back at the head. */
  lemma {:induction false} RecordsEnds(policy: Policy, m: Memory, list: seq<nat>, n: nat)
    requires Records(m, list)
    ensures Walkable(m, list) && Ends(policy, m, list, n) && (forall i :: 0 <= i < |list| ==> list[i] < |m.pages| && Carvable(m, list[i]))
  {
    RecordsWalkable(m, list);
  }

  // ---------- Inserting ----------

  /** The entries that the insertion of base looks at in an ascending list. */
  function Seen(list: seq<nat>, base: nat): (s: seq<nat>)
    ensures |s| <= |list| && s == list[..|s|]
    ensures forall j :: 0 <= j < |s| - 1 ==> s[j] <= base
    ensures s == [] || s[|s| - 1] <= base ==> s == list
  {
    if list == [] then [] else if base < list[0] then list[..1] else [list[0]] + Seen(list[1..], base)
  }

  /** How many entries are not above base: where its place is. */
  function PlaceIn(list: seq<nat>, base: nat): (at: nat)
    ensures at <= |list|
  {
    var s := Seen(list, base);
    if s != [] && base < s[|s| - 1] then |s| - 1 else |s|
  }

  lemma {:induction false} PathPrefix(l: seq<Link>, h: nat, r: seq<nat>, k: nat)
    requires Path(l, h, r) && k <= |r|
    ensures Path(l, h, r[..k])
  {
    var s := r[..k];
    forall i | 0 <= i < |s|
      ensures l[At(h, s, i)].next == s[i]
    {
      assert At(h, s, i) == At(h, r, i);
    }
  }

  /** On a list that comes back the insertion ends, and with those entries only. */
  lemma {:induction false} LandsIff(l: seq<Link>, h: nat, list: seq<nat>, base: nat, s: seq<nat>)
    requires Forward(l, h, list) && forall i, j :: 0 <= i < j < |list| ==> list[i] < list[j]
    ensures Lands(l, h, s, base) <==> s == Seen(list, base)
  {
    PathPrefix(l, h, list, |Seen(list, base)|);
    if Lands(l, h, s, base) {
      PathWithin(l, h, s, list);
      SeenOnly(list, base, s);
    }
  }

  lemma {:induction false} SeenOnly(list: seq<nat>, base: nat, s: seq<nat>)
    requires |s| <= |list| && s == list[..|s|] && forall j :: 0 <= j < |s| - 1 ==> s[j] <= base
    requires s == [] || s[|s| - 1] <= base ==> s == list
    ensures s == Seen(list, base)
  {
    if list != [] && list[0] <= base {
      assert s[0] == list[0];
      SeenOnly(list[1..], base, s[1..]);
    }
  }

  lemma {:induction false} PlaceInAt(list: seq<nat>, base: nat)
    requires base !in list && forall i, j :: 0 <= i < j < |list| ==> list[i] < list[j]
    ensures var at := PlaceIn(list, base);
      (forall j :: 0 <= j < at ==> list[j] < base) && (at < |list| ==> base < list[at])
      && Seen(list, base) == list[..if at < |list| then at + 1 else at]
  {
    var s := Seen(list, base);
    assert forall j :: 0 <= j < |s| ==> s[j] in list && s[j] != base;
  }

  lemma {:induction false} InsertedRing(l: seq<Link>, h: nat, list: seq<nat>, base: nat, loop: Loop)
    requires Wired(l) && IsRing(l, h, list) && base < |l| && base != h
    requires base !in list && forall i, j :: 0 <= i < j < |list| ==> list[i] < list[j]
    requires loop.Stops? || !(0 < PlaceIn(list, base) == |list|)
    ensures forall i :: 0 <= i < |list| ==> list[i] < |l|
    ensures IsRing(Inserted(l, h, Seen(list, base), base, loop), h, WithEntry(list, PlaceIn(list, base), base))
  {
    hide IsRing, Seen, PlaceIn, AddAfter, AddBefore;
    var s, at := Seen(list, base), PlaceIn(list, base);
    PlaceInAt(list, base);
    RingReads(l, h, list);
    if at < |list| {
      AddBeforeRing(l, h, list, at, base);
    } else {
      AddAfterRing(l, h, list, at, base);
    }
  }

  /** How the insertion of b ends: as an entry of a sound list; linked to itself; or, if b starts inside a
      free block, as an entry behind that. */
  datatype Standing = InOrder | ToItself | Overlaid

  ghost function Arising(bs: seq<Block>, b: Block, loop: Loop): Standing {
    if loop.Continues? && Appends(bs, b.start) then ToItself else if Apart(bs, b) then InOrder else Overlaid
  }

  lemma {:induction false} RecordsLands(m: Memory, list: seq<nat>, base: nat, s: seq<nat>)
    requires Records(m, list) && Lands(m.links, |m.pages|, s, base)
    ensures s == Seen(list, base) && forall i :: 0 <= i < |list| ==> list[i] < |m.pages|
  {
    RecordsWalkable(m, list);
    Ascending(list, m.pages);
    LandsIff(m.links, |m.pages|, list, base, s);
  }

  /** Clearing a region of reserved pages changes nothing that is recorded. */
  lemma {:induction false} WipedRecords(m: Memory, list: seq<nat>, b: Block)
    requires Records(m, list) && b.len > 0 && End(b) <= |m.pages| && forall x :: b.start <= x < End(b) ==> m.pages[x].reserved
    ensures forall i :: 0 <= i < |list| ==> list[i] < |m.pages|
    ensures Records(Wiped(m, b), list) && BlocksOf(list, Wiped(m, b).pages) == BlocksOf(list, m.pages)
    ensures Apart(BlocksOf(list, m.pages), b) && Unflagged(Wiped(m, b).pages, b)
  {
    ReservedApart(list, m.pages, m.nrFree, b);
    ApartUnflagged(list, m.pages, m.nrFree, b);
    hide IsRing, Ordered, Total;
    var pages' := Cleared(m.pages, b, false);
    forall i | 0 <= i < |list|
      ensures pages'[list[i]] == m.pages[list[i]]
    {
      assert list[i] in list && m.pages[list[i]].head;
      assert !In(b, list[i]);
    }
    assert BlocksOf(list, pages') == BlocksOf(list, m.pages);
    forall x: nat | Holds(BlocksOf(list, m.pages), x)
      ensures x < |pages'| && !pages'[x].reserved
    {
    }
  }

  lemma {:induction false} GivenAdded(pages: seq<Page>, b: Block)
    requires b.len > 0 && End(b) <= |pages|
    ensures Added(pages, Given(pages, b), b)
  {
  }

  /** What inserting needs to know of the list. */
  lemma {:induction false} EnterReady(m: Memory, list: seq<nat>, b: Block)
    requires Records(m, list) && b.len > 0 && End(b) <= |m.pages| && Unflagged(m.pages, b)
    ensures b.start !in list && (forall i :: 0 <= i < |list| ==> list[i] < |m.pages|)
    ensures forall i, j :: 0 <= i < j < |list| ==> list[i] < list[j]
    ensures var bs, at := BlocksOf(list, m.pages), PlaceIn(list, b.start);
      at == Place(bs, b.start) && (Appends(bs, b.start) <==> 0 < at == |list|)
  {
    hide IsRing, Sound, Unflagged, Place, PlaceIn, BlocksOf;
    SoundAscending(list, m.pages, m.nrFree);
    UnflaggedUnlisted(list, m.pages, m.nrFree, b);
    PlaceInAt(list, b.start);
    PlaceAt(list, m.pages, m.nrFree, b.start, PlaceIn(list, b.start));
  }

  lemma {:induction false} EnteredRing(m: Memory, list: seq<nat>, b: Block, loop: Loop)
    requires Records(m, list) && b.len > 0 && End(b) <= |m.pages| && Unflagged(m.pages, b)
    requires !Arising(BlocksOf(list, m.pages), b, loop).ToItself?
    ensures (forall i :: 0 <= i < |list| ==> list[i] < |m.pages|) && Place(BlocksOf(list, m.pages), b.start) <= |list|
    ensures IsRing(Entered(m, Seen(list, b.start), b, loop).links, |m.pages|, WithEntry(list, Place(BlocksOf(list, m.pages), b.start), b.start))
  {
    EnterReady(m, list, b);
    hide IsRing, Sound, Seen, PlaceIn, Inserted, Given, Appends, Place, Unflagged, Apart, BlocksOf;
    InsertedRing(m.links, |m.pages|, list, b.start, loop);
  }

  lemma {:induction false} EnteredRecords(m: Memory, list: seq<nat>, b: Block, loop: Loop)
    requires Records(m, list) && b.len > 0 && End(b) <= |m.pages| && Unflagged(m.pages, b)
    requires Arising(BlocksOf(list, m.pages), b, loop).InOrder?
    ensures forall i :: 0 <= i < |list| ==> list[i] < |m.pages|
    ensures var bs := BlocksOf(list, m.pages); var m', at := Entered(m, Seen(list, b.start), b, loop), Place(bs, b.start);
      && Records(m', WithEntry(list, at, b.start)) && BlocksOf(WithEntry(list, at, b.start), m'.pages) == Insert(bs, b)
  {
    hide IsRing, Sound, Seen, Inserted, Given, Added, Insert, Place, Unflagged, Apart, BlocksOf, Appends, WithEntry;
    EnteredRing(m, list, b, loop);
    GivenAdded(m.pages, b);
    SoundInsert(list, m.pages, m.nrFree, b, Given(m.pages, b));
    WithEntryIs(list, Place(BlocksOf(list, m.pages), b.start), b.start);
  }

  lemma {:induction false} WithEntryIs(list: seq<nat>, i: nat, x: nat)
    requires i <= |list|
    ensures WithEntry(list, i, x) == list[..i] + [x] + list[i..]
  {
  }

  // ---------- Merging ----------

  lemma {:induction false} FuseRecords(m: Memory, list: seq<nat>, i: nat)
    requires Records(m, list) && i + 1 < |list| && Touch(BlocksOf(list, m.pages), i)
    ensures list[i] < |m.pages| && list[i + 1] < |m.pages|
    ensures var m', list' := Fuse(m, list[i], list[i + 1]), list[..i + 1] + list[i + 2..];
      Records(m', list') && BlocksOf(list', m'.pages) == Pair(BlocksOf(list, m.pages), i)
  {
    hide IsRing, Del, Ordered, Total, Holds, Pair, Grown;
    DelRing(m.links, |m.pages|, list, i + 1);
    SoundPair(list, m.pages, m.nrFree, i, Grown(m.pages, list[i], list[i + 1]));
  }

  /** list_prev and list_next of an entry. */
  lemma {:induction false} Neighbours(m: Memory, list: seq<nat>, at: nat)
    requires Formed(m) && IsRing(m.links, |m.pages|, list) && at < |list|
    ensures list[at] < |m.pages| && m.links[list[at]].prev == PrevOf(|m.pages|, list, at) && m.links[list[at]].next == NextOf(|m.pages|, list, at)
  {
    RingReadsAt(m.links, |m.pages|, list, at);
  }

  lemma {:induction false} BackRecords(m: Memory, list: seq<nat>, at: nat) returns (list': seq<nat>, j: nat)
    requires Records(m, list) && at < |list|
    ensures list[at] < |m.pages|
    ensures var (m', base) := FusedBack(m, list[at]);
      && Records(m', list') && j < |list'| && list'[j] == base
      && (BlocksOf(list', m'.pages), j) == FuseBack(BlocksOf(list, m.pages), at)
  {
    hide IsRing, Ordered, Total, Holds, Fuse;
    Neighbours(m, list, at);
    var bs := BlocksOf(list, m.pages);
    list', j := list, at;
    if at > 0 && Touch(bs, at - 1) {
      FuseRecords(m, list, at - 1);
      list', j := list[..at] + list[at + 1..], at - 1;
    }
  }

  lemma {:induction false} ForeRecords(m: Memory, list: seq<nat>, at: nat) returns (list': seq<nat>)
    requires Records(m, list) && at < |list|
    ensures list[at] < |m.pages|
    ensures var m' := FusedFore(m, list[at]);
      Records(m', list') && BlocksOf(list', m'.pages) == FuseFore(BlocksOf(list, m.pages), at)
  {
    hide IsRing, Ordered, Total, Holds, Fuse;
    Neighbours(m, list, at);
    var bs := BlocksOf(list, m.pages);
    list' := list;
    if Touch(bs, at) {
      FuseRecords(m, list, at);
      list' := list[..at + 1] + list[at + 2..];
    }
  }

  /** A release of pages that are not free, on memory that records a list, is the release of FitBlocks. */
  lemma {:induction false} ReleasedRecords(m: Memory, list: seq<nat>, b: Block, loop: Loop) returns (list': seq<nat>)
    requires Records(m, list) && b.len > 0 && End(b) <= |m.pages| && Unflagged(m.pages, b)
    requires Arising(BlocksOf(list, m.pages), b, loop).InOrder?
    ensures forall i :: 0 <= i < |list| ==> list[i] < |m.pages|
    ensures var m' := Released(m, Seen(list, b.start), b, loop);
      Records(m', list') && BlocksOf(list', m'.pages) == Free(BlocksOf(list, m.pages), b)
  {
    EnteredRecords(m, list, b, loop);
    assert Ordered(BlocksOf(list, m.pages));
    FreeInSteps(BlocksOf(list, m.pages), b);
    hide Records, Free, Insert, Place, FuseBack, FuseFore, FusedBack, FusedFore, Entered, Seen, Sound, Unflagged, Arising;
    var at := Place(BlocksOf(list, m.pages), b.start);
    var list1 := WithEntry(list, at, b.start);
    var m1 := Entered(m, Seen(list, b.start), b, loop);
    assert list1[at] == b.start;
    var list2, j := BackRecords(m1, list1, at);
    list' := ForeRecords(FusedBack(m1, b.start).0, list2, j);
  }

  // ---------- Releasing pages inside a free block ----------

  /** The entry "at" is inside the block before it. */
  ghost predicate Behind(m: Memory, list: seq<nat>, at: nat) {
    && Formed(m) && IsRing(m.links, |m.pages|, list) && 0 < at < |list|
    && (forall i :: 0 <= i < |list| ==> list[i] < |m.pages|)
    && list[at] < list[at - 1] + m.pages[list[at - 1]].property
  }

  lemma {:induction false} BehindUnsound(m: Memory, list: seq<nat>, at: nat)
    requires Behind(m, list, at)
    ensures !Sound(list, m.pages, m.nrFree)
  {
    if Sound(list, m.pages, m.nrFree) {
      SoundApart(list, m.pages, m.nrFree, at - 1);
      assert false;
    }
  }

  lemma {:induction false} EnteredBehind(m: Memory, list: seq<nat>, b: Block, loop: Loop)
    requires Records(m, list) && b.len > 0 && End(b) <= |m.pages| && Unflagged(m.pages, b)
    requires Arising(BlocksOf(list, m.pages), b, loop).Overlaid?
    ensures forall i :: 0 <= i < |list| ==> list[i] < |m.pages|
    ensures var at := Place(BlocksOf(list, m.pages), b.start);
      at <= |list| && Behind(Entered(m, Seen(list, b.start), b, loop), WithEntry(list, at, b.start), at)
  {
    hide IsRing, Sound, Ordered, Seen, Inserted, Given, Place, Unflagged, Apart, BlocksOf, WithEntry, Behind, Appends;
    EnteredRing(m, list, b, loop);
    var j := WithinBlock(list, m.pages, m.nrFree, b);
    GivenOutside(m.pages, b, list[j]);
    BehindParts(m.pages, list, j, b.start, Entered(m, Seen(list, b.start), b, loop));
  }

  lemma {:induction false} GivenOutside(pages: seq<Page>, b: Block, x: nat)
    requires b.len > 0 && End(b) <= |pages| && x < b.start
    ensures Given(pages, b)[x] == pages[x]
  {
  }

  lemma {:induction false} BehindParts(pages: seq<Page>, list: seq<nat>, j: nat, base: nat, m': Memory)
    requires Formed(m') && j < |list| && IsRing(m'.links, |m'.pages|, WithEntry(list, j + 1, base))
    requires |m'.pages| == |pages| && base < |pages| && forall i :: 0 <= i < |list| ==> list[i] < |pages|
    requires m'.pages[list[j]] == pages[list[j]] && base < list[j] + pages[list[j]].property
    ensures Behind(m', WithEntry(list, j + 1, base), j + 1)
  {
    hide IsRing, Formed;
  }

  /** Nothing merges back into the block before; a merge with the block after changes neither. */
  lemma {:induction false} MergedBehind(m: Memory, list: seq<nat>, at: nat) returns (list': seq<nat>)
    requires Behind(m, list, at)
    ensures list[at] < |m.pages| && FusedBack(m, list[at]) == (m, list[at])
    ensures var m' := FusedFore(m, list[at]);
      IsRing(m'.links, |m'.pages|, list') && !Sound(list', m'.pages, m'.nrFree)
  {
    hide IsRing, Sound;
    Neighbours(m, list, at);
    list' := list;
    var q := m.links[list[at]].next;
    if q != |m.pages| && list[at] + m.pages[list[at]].property == q {
      DelRing(m.links, |m.pages|, list, at + 1);
      list' := list[..at + 1] + list[at + 2..];
      DistinctEntries(m.links, |m.pages|, list, at - 1, at);
    }
    BehindUnsound(FusedFore(m, list[at]), list', at);
  }

  lemma {:induction false} DistinctEntries(l: seq<Link>, h: nat, list: seq<nat>, i: nat, j: nat)
    requires IsRing(l, h, list) && i < j < |list|
    ensures list[i] != list[j]
  {
  }

  /** Pages inside a free block are not noticed: the list then has blocks that overlap. */
  lemma {:induction false} ReleasedBehind(m: Memory, list: seq<nat>, b: Block, loop: Loop) returns (list': seq<nat>)
    requires Records(m, list) && b.len > 0 && End(b) <= |m.pages| && Unflagged(m.pages, b)
    requires Arising(BlocksOf(list, m.pages), b, loop).Overlaid?
    ensures forall i :: 0 <= i < |list| ==> list[i] < |m.pages|
    ensures var m' := Released(m, Seen(list, b.start), b, loop);
      IsRing(m'.links, |m'.pages|, list') && !Sound(list', m'.pages, m'.nrFree)
  {
    EnteredBehind(m, list, b, loop);
    hide Records, Place, FusedBack, FusedFore, Entered, Seen, Sound, Unflagged, Arising, Behind, IsRing;
    var at := Place(BlocksOf(list, m.pages), b.start);
    assert WithEntry(list, at, b.start)[at] == b.start;
    list' := MergedBehind(Entered(m, Seen(list, b.start), b, loop), WithEntry(list, at, b.start), at);
  }

  // ---------- Requests ----------

  lemma {:induction false} FindsSound(policy: Policy, bs: seq<Block>, n: nat, i: nat)
    ensures Finds(policy, bs, n, Total(bs), i) <==> Chosen(policy, bs, n, i)
    ensures n > Total(bs) ==> !Fits(bs, n)
    ensures (forall j: nat :: !Finds(policy, bs, n, Total(bs), j)) ==> !Fits(bs, n)
  {
    WithinTotal(bs, n, i);
    if Fits(bs, n) {
      var k := FitChosen(policy, bs, n);
      WithinTotal(bs, n, k);
      assert Finds(policy, bs, n, Total(bs), k);
    }
  }

  /** If any block fits, there is one to choose. */
  lemma {:induction false} FitChosen(policy: Policy, bs: seq<Block>, n: nat) returns (i: nat)
    requires Fits(bs, n)
    ensures Chosen(policy, bs, n, i)
    decreases |bs|
  {
    var last := |bs| - 1;
    var b := bs[last];
    if Fits(bs[..last], n) {
      i := FitChosen(policy, bs[..last], n);
      if policy.BestFit? && n <= b.len < bs[i].len { i := last; }
    } else {
      i := last;
    }
  }

  lemma {:induction false} CarvedRecords(m: Memory, list: seq<nat>, i: nat, n: nat)
    requires Records(m, list) && i < |list| && Carvable(m, list[i]) && 0 < n <= m.nrFree && n <= m.pages[list[i]].property
    ensures var m' := Carved(m, list[i], n); var list' := TakenFrom(list, m.pages, i, n);
      Records(m', list') && BlocksOf(list', m'.pages) == Take(BlocksOf(list, m.pages), i, n)
  {
    hide Sound, IsRing, Take, Taken;
    CarvedTaken(m, list, i, n);
    if m.pages[list[i]].property > n { RestUnlisted(m, list, i, n); }
    CarvedRing(m, list, i, n);
    SoundTake(list, m.pages, m.nrFree, i, n, Carved(m, list[i], n).pages);
  }

  lemma {:induction false} RestUnlisted(m: Memory, s: seq<nat>, i: nat, n: nat)
    requires Sound(s, m.pages, m.nrFree) && i < |s| && s[i] < |m.pages| && 0 < n < m.pages[s[i]].property
    ensures s[i] + n !in s
  {
    InsideUnlisted(s, m.pages, m.nrFree, i, s[i] + n);
  }

  lemma {:induction false} CarvedTaken(m: Memory, s: seq<nat>, i: nat, n: nat)
    requires Formed(m) && i < |s| && Carvable(m, s[i]) && 0 < n <= m.nrFree && n <= m.pages[s[i]].property
    ensures Taken(s, m.pages, i, n, Carved(m, s[i], n).pages) && Carved(m, s[i], n).nrFree == m.nrFree - n
  {
    hide Del, AddAfter;
  }

  lemma {:induction false} CarvedRing(m: Memory, s: seq<nat>, i: nat, n: nat)
    requires Formed(m) && IsRing(m.links, |m.pages|, s) && i < |s| && Carvable(m, s[i]) && n <= m.nrFree
    requires n < m.pages[s[i]].property ==> s[i] + n !in s
    ensures IsRing(Carved(m, s[i], n).links, |m.pages|, TakenFrom(s, m.pages, i, n))
  {
    var h, p := |m.pages|, s[i];
    hide IsRing, Distinct, AddBetween, DelBetween;
    DelRing(m.links, h, s, i);
    var s1 := s[..i] + s[i + 1..];
    if m.pages[p].property > n {
      assert At(h, s1, i) == At(h, s, i);
      AddAfterRing(Del(m.links, p), h, s1, i, p + n);
      assert s1[..i] + [p + n] + s1[i..] == s[..i] + [p + n] + s[i + 1..];
    } else {
      assert s[..i] + [] + s[i + 1..] == s1;
    }
  }

  /** What a request leaves: by policy a block, or none because none is large enough. */
  ghost predicate Granted(policy: Policy, bs: seq<Block>, n: nat, page: Option<nat>, i: nat, bs': seq<Block>) {
    match page
    case None => !Fits(bs, n) && bs' == bs
    case Some(p) => Chosen(policy, bs, n, i) && p == bs[i].start && bs' == Take(bs, i, n)
  }

  /** A search that ends with the entries of s finds what the whole list has to offer. */
  lemma {:induction false} FindsAll(policy: Policy, m: Memory, list: seq<nat>, s: seq<nat>, n: nat, nrFree: nat, j: nat)
    requires Walkable(m, list) && Forward(m.links, |m.pages|, list) && Ends(policy, m, s, n)
    ensures |s| <= |list| && s == list[..|s|]
    ensures Finds(policy, BlocksOf(s, m.pages), n, nrFree, j) <==> Finds(policy, BlocksOf(list, m.pages), n, nrFree, j)
  {
    hide Path;
    PathWithin(m.links, |m.pages|, s, list);
    var bs, all := BlocksOf(s, m.pages), BlocksOf(list, m.pages);
    assert bs == all[..|s|];
    if |s| < |list| {
      var i: nat :| IsFirst(bs, n, i);
      assert IsFirst(all, n, i);
    }
  }

  /** A request on memory that records a list is one on its blocks. */
  lemma {:induction false} AllocatedRecords(policy: Policy, m: Memory, list: seq<nat>, s: seq<nat>, n: nat, page: Option<nat>, i: nat, m': Memory)
    returns (list': seq<nat>)
    requires Records(m, list) && 0 < n && Allocated(policy, m, s, n, page, i, m')
    ensures Records(m', list') && Granted(policy, BlocksOf(list, m.pages), n, page, i, BlocksOf(list', m'.pages))
  {
    RecordsWalkable(m, list);
    assert m.nrFree == Total(BlocksOf(list, m.pages));
    hide IsRing, Sound, Path, Finds, Chosen, Take, Carved, IsFirst, IsBestWithin;
    list' := list;
    var bs := BlocksOf(list, m.pages);
    if n <= m.nrFree {
      forall j: nat
        ensures Finds(policy, BlocksOf(s, m.pages), n, m.nrFree, j) <==> Finds(policy, bs, n, m.nrFree, j)
      {
        FindsAll(policy, m, list, s, n, m.nrFree, j);
      }
      if page.Some? {
        FindsAll(policy, m, list, s, n, m.nrFree, i);
        list' := GrantedRecords(policy, m, list, n, i);
      }
    }
    FindsSound(policy, bs, n, i);
  }

  lemma {:induction false} GrantedRecords(policy: Policy, m: Memory, list: seq<nat>, n: nat, i: nat) returns (list': seq<nat>)
    requires Records(m, list) && Walkable(m, list) && 0 < n <= m.nrFree && Finds(policy, BlocksOf(list, m.pages), n, m.nrFree, i)
    ensures i < |list| && Carvable(m, list[i]) && BlocksOf(list, m.pages)[i].start == list[i]
    ensures Chosen(policy, BlocksOf(list, m.pages), n, i)
    ensures var m' := Carved(m, list[i], n);
      Records(m', list') && BlocksOf(list', m'.pages) == Take(BlocksOf(list, m.pages), i, n)
  {
    FindsSound(policy, BlocksOf(list, m.pages), n, i);
    hide IsRing, Ordered, Holds, Take, Carved, Path;
    assert n <= m.pages[list[i]].property;
    CarvedRecords(m, list, i, n);
    list' := TakenFrom(list, m.pages, i, n);
  }
}
