/** What the page descriptors and links of the first-fit and best-fit allocators record, and how each
    change the code makes to them changes the list of free blocks. */
module FitDescriptors {
  import opened Memlayout
  import opened Ring
  import opened FitBlocks

  /** The blocks that listed heads record. */
  ghost function BlocksOf(list: seq<nat>, pages: seq<Page>): (bs: seq<Block>)
    requires forall i :: 0 <= i < |list| ==> list[i] < |pages|
    ensures |bs| == |list|
  {
    seq(|list|, i requires 0 <= i < |list| => Block(list[i], pages[list[i]].property))
  }

  /** The descriptors record a list of blocks: in address order, inside the array, unreserved, flagged
      exactly at their heads, and nrFree pages in all. */
  ghost predicate Sound(list: seq<nat>, pages: seq<Page>, nrFree: int) {
    && (forall i :: 0 <= i < |list| ==> list[i] < |pages|)
    && var bs := BlocksOf(list, pages);
      && Ordered(bs)
      && (forall x: nat :: Holds(bs, x) ==> x < |pages| && !pages[x].reserved)
      && (forall x :: 0 <= x < |pages| ==> (pages[x].head <==> x in list))
      && nrFree == Total(bs)
  }

  /** pages' differs from pages on the pages of b only, which are now free with b's head flagged. */
  ghost predicate Added(pages: seq<Page>, pages': seq<Page>, b: Block) {
    && |pages'| == |pages| && End(b) <= |pages| && b.len > 0
    && (forall x: nat :: x < |pages| && !In(b, x) ==> pages'[x] == pages[x])
    && (forall x: nat :: In(b, x) ==> !pages'[x].reserved && (pages'[x].head <==> x == b.start))
    && pages'[b.start].property == b.len
  }

  lemma {:induction false} BlocksInsert(list: seq<nat>, pages: seq<Page>, nrFree: int, b: Block, pages': seq<Page>)
    requires Sound(list, pages, nrFree) && Apart(BlocksOf(list, pages), b) && Added(pages, pages', b)
    ensures forall j :: 0 <= j < |list| ==> !In(b, list[j])
    ensures var i := Place(BlocksOf(list, pages), b.start);
      BlocksOf(list[..i] + [b.start] + list[i..], pages') == Insert(BlocksOf(list, pages), b)
  {
    var bs := BlocksOf(list, pages);
    forall j | 0 <= j < |bs|
      ensures !In(b, list[j])
    {
      assert In(bs[j], list[j]);
    }
  }

  lemma {:induction false} SoundInsert(list: seq<nat>, pages: seq<Page>, nrFree: int, b: Block, pages': seq<Page>)
    requires Sound(list, pages, nrFree) && Apart(BlocksOf(list, pages), b) && Added(pages, pages', b)
    ensures var i := Place(BlocksOf(list, pages), b.start); var list' := list[..i] + [b.start] + list[i..];
      && Sound(list', pages', nrFree + b.len) && BlocksOf(list', pages') == Insert(BlocksOf(list, pages), b)
  {
    hide Ordered, Total, Holds, Place, Insert, Apart;
    var bs := BlocksOf(list, pages);
    var i := Place(bs, b.start);
    var list' := list[..i] + [b.start] + list[i..];
    InsertOrdered(bs, b);
    InsertTotal(bs, b);
    BlocksInsert(list, pages, nrFree, b, pages');
    forall x: nat | Holds(BlocksOf(list', pages'), x)
      ensures x < |pages'| && !pages'[x].reserved
    {
      InsertHolds(bs, b, x);
    }
    forall x | 0 <= x < |pages'|
      ensures pages'[x].head <==> x in list'
    {
      assert x in list' <==> x in list || x == b.start;
    }
  }

  /** The block at p has taken over the one at q. */
  function Grown(pages: seq<Page>, p: nat, q: nat): seq<Page>
    requires p < |pages| && q < |pages|
  {
    var taller := pages[p := pages[p].(property := pages[p].property + pages[q].property)];
    taller[q := taller[q].(head := false)]
  }

  /** Fusing two listed blocks: the lower head's size grows, the upper head loses its flag. */
  lemma {:induction false} SoundPair(list: seq<nat>, pages: seq<Page>, nrFree: int, i: nat, pages': seq<Page>)
    requires Sound(list, pages, nrFree) && Touch(BlocksOf(list, pages), i) && i + 1 < |list|
    requires pages' == Grown(pages, list[i], list[i + 1])
    ensures Sound(list[..i + 1] + list[i + 2..], pages', nrFree)
    ensures BlocksOf(list[..i + 1] + list[i + 2..], pages') == Pair(BlocksOf(list, pages), i)
  {
    hide Ordered, Total, Holds, Pair;
    var bs := BlocksOf(list, pages);
    Ascending(list, pages);
    BlocksPair(list, pages, i, pages');
    PairOrdered(bs, i);
    PairSame(bs, i);
    PairHeads(list, pages, i, pages');
  }

  lemma {:induction false} Ascending(list: seq<nat>, pages: seq<Page>)
    requires (forall i :: 0 <= i < |list| ==> list[i] < |pages|) && Ordered(BlocksOf(list, pages))
    ensures forall j, k :: 0 <= j < k < |list| ==> list[j] < list[k]
  {
    var bs := BlocksOf(list, pages);
    forall j, k | 0 <= j < k < |list|
      ensures list[j] < list[k]
    {
      assert bs[j].len > 0 && End(bs[j]) <= bs[k].start;
    }
  }

  lemma {:induction false} BlocksPair(list: seq<nat>, pages: seq<Page>, i: nat, pages': seq<Page>)
    requires (forall j :: 0 <= j < |list| ==> list[j] < |pages|) && |pages'| == |pages|
    requires i + 1 < |list| && forall j, k :: 0 <= j < k < |list| ==> list[j] < list[k]
    requires pages'[list[i]].property == pages[list[i]].property + pages[list[i + 1]].property
    requires forall x :: 0 <= x < |pages| && x != list[i] ==> pages'[x].property == pages[x].property
    ensures BlocksOf(list[..i + 1] + list[i + 2..], pages') == Pair(BlocksOf(list, pages), i)
  {
  }

  lemma {:induction false} PairHeads(list: seq<nat>, pages: seq<Page>, i: nat, pages': seq<Page>)
    requires i + 1 < |list| && |pages'| == |pages| && (forall j, k :: 0 <= j < k < |list| ==> list[j] < list[k])
    requires forall x :: 0 <= x < |pages| ==> (pages[x].head <==> x in list)
    requires forall x :: 0 <= x < |pages| ==> pages'[x].head == (pages[x].head && x != list[i + 1])
    ensures forall x :: 0 <= x < |pages| ==> (pages'[x].head <==> x in list[..i + 1] + list[i + 2..])
  {
    forall x: nat | x < |pages|
      ensures x in list[..i + 1] + list[i + 2..] <==> x in list && x != list[i + 1]
    {
      WithoutEntry(list, i + 1, [], x);
      assert list[..i + 1] + [] + list[i + 2..] == list[..i + 1] + list[i + 2..];
    }
  }

  /** The list after the first n pages of its entry i are taken. */
  ghost function TakenFrom(list: seq<nat>, pages: seq<Page>, i: nat, n: nat): seq<nat>
    requires i < |list| && list[i] < |pages|
  {
    list[..i] + (if pages[list[i]].property > n then [list[i] + n] else []) + list[i + 1..]
  }

  /** Taking pages: the rest of the block, if any, gets a flagged head; the head taken loses its flag. */
  ghost predicate Taken(list: seq<nat>, pages: seq<Page>, i: nat, n: nat, pages': seq<Page>)
    requires i < |list| && list[i] < |pages|
  {
    var p := list[i];
    && |pages'| == |pages| && 0 < n <= pages[p].property && p + pages[p].property <= |pages|
    && (forall x :: 0 <= x < |pages| ==> pages'[x].reserved == pages[x].reserved)
    && (forall x :: 0 <= x < |pages| && x != p + n ==> pages'[x].property == pages[x].property)
    && (forall x :: 0 <= x < |pages| && x != p && (x != p + n || pages[p].property == n) ==> pages'[x].head == pages[x].head)
    && !pages'[p].head
    && if pages[p].property > n
       then pages'[p + n].property == pages[p].property - n && pages'[p + n].head
       else p + n < |pages| ==> pages'[p + n].property == pages[p + n].property
  }

  lemma {:induction false} BlocksTake(list: seq<nat>, pages: seq<Page>, i: nat, n: nat, pages': seq<Page>)
    requires (forall j :: 0 <= j < |list| ==> list[j] < |pages|) && Ordered(BlocksOf(list, pages)) && i < |list|
    requires Taken(list, pages, i, n, pages')
    ensures pages[list[i]].property > n ==> list[i] + n !in list
    ensures forall j :: 0 <= j < |TakenFrom(list, pages, i, n)| ==> TakenFrom(list, pages, i, n)[j] < |pages|
    ensures BlocksOf(TakenFrom(list, pages, i, n), pages') == Take(BlocksOf(list, pages), i, n)
  {
    var bs := BlocksOf(list, pages);
    forall j | 0 <= j < |list|
      ensures pages[list[i]].property > n ==> list[j] != list[i] + n
    {
      assert bs[j].start == list[j] && (j < i ==> End(bs[j]) <= bs[i].start) && (i < j ==> End(bs[i]) <= bs[j].start);
    }
  }

  lemma {:induction false} SoundTake(list: seq<nat>, pages: seq<Page>, nrFree: int, i: nat, n: nat, pages': seq<Page>)
    requires Sound(list, pages, nrFree) && i < |list| && Taken(list, pages, i, n, pages')
    ensures Sound(TakenFrom(list, pages, i, n), pages', nrFree - n)
    ensures BlocksOf(TakenFrom(list, pages, i, n), pages') == Take(BlocksOf(list, pages), i, n)
  {
    hide Ordered, Total, Holds;
    var bs := BlocksOf(list, pages);
    BlocksTake(list, pages, i, n, pages');
    TakeOrdered(bs, i, n);
    TakeWithin(bs, i, n);
    TakeTotal(bs, i, n);
    Ascending(list, pages);
    TakeHeads(list, pages, i, n, pages');
  }

  lemma {:induction false} TakeHeads(list: seq<nat>, pages: seq<Page>, i: nat, n: nat, pages': seq<Page>)
    requires i < |list| && list[i] < |pages| && Taken(list, pages, i, n, pages')
    requires forall j, k :: 0 <= j < k < |list| ==> list[j] < list[k]
    requires forall x :: 0 <= x < |pages| ==> (pages[x].head <==> x in list)
    ensures forall x :: 0 <= x < |pages| ==> (pages'[x].head <==> x in TakenFrom(list, pages, i, n))
  {
    var rest := if pages[list[i]].property > n then [list[i] + n] else [];
    forall x | 0 <= x < |pages|
      ensures x in TakenFrom(list, pages, i, n) <==> (x in list && x != list[i]) || x in rest
    {
      WithoutEntry(list, i, rest, x);
    }
  }

  lemma {:induction false} WithoutEntry(list: seq<nat>, i: nat, rest: seq<nat>, x: nat)
    requires i < |list| && forall j, k :: 0 <= j < k < |list| ==> list[j] < list[k]
    ensures x in list[..i] + rest + list[i + 1..] <==> (x in list && x != list[i]) || x in rest
  {
    if x in list && x != list[i] {
      var j :| 0 <= j < |list| && list[j] == x;
      assert x in if j < i then list[..i] else list[i + 1..];
    }
  }

  /** What the loop as written makes of the links when it appends elm after the last entry: elm is
      linked once more, after itself. */
  function LinkedToItself(l: seq<Link>, last: nat, elm: nat): seq<Link>
    requires last < |l| && elm < |l| && l[last].next < |l|
  {
    AddAfter(AddAfter(l, last, elm), elm, elm)
  }

  /** Those links are no ring: forward all is well, but elm's own back link points to elm, and so
      a list_del of elm does not take it off the list. */
  lemma {:induction false} LinkedToItselfIsNoRing(l: seq<Link>, h: nat, s: seq<nat>, elm: nat, r: seq<nat>)
    requires IsRing(l, h, s) && s != [] && elm < |l| && elm != h && elm !in s
    ensures s[|s| - 1] < |l| && l[s[|s| - 1]].next == h
    ensures var last := s[|s| - 1]; var l' := LinkedToItself(l, last, elm);
      && l'[elm].prev == elm && l'[elm].next == h && l'[last].next == elm
      && !IsRing(l', h, r)
      && Del(l', elm)[last].next == elm
  {
    RingLast(l, h, s);
    var l' := LinkedToItself(l, s[|s| - 1], elm);
    assert l'[h].prev == elm && l'[elm].prev == elm && l'[h].next == s[0];
    if IsRing(l', h, r) {
      RingNoSelf(l', h, r);
      assert false;
    }
  }

  lemma {:induction false} SoundAscending(list: seq<nat>, pages: seq<Page>, nrFree: int)
    requires Sound(list, pages, nrFree)
    ensures (forall i :: 0 <= i < |list| ==> list[i] < |pages|) && forall i, j :: 0 <= i < j < |list| ==> list[i] < list[j]
  {
    Ascending(list, pages);
  }

  /** A page without a flag is not listed. */
  lemma {:induction false} UnflaggedUnlisted(list: seq<nat>, pages: seq<Page>, nrFree: int, b: Block)
    requires Sound(list, pages, nrFree) && Unflagged(pages, b) && b.len > 0 && b.start < |pages|
    ensures b.start !in list
  {
    assert In(b, b.start);
  }

  lemma {:induction false} SoundApart(list: seq<nat>, pages: seq<Page>, nrFree: int, i: nat)
    requires Sound(list, pages, nrFree) && i + 1 < |list|
    ensures list[i] < |pages| && list[i] + pages[list[i]].property <= list[i + 1]
  {
    var bs := BlocksOf(list, pages);
    assert End(bs[i]) <= bs[i + 1].start;
  }

  /** No page of b has its flag set. */
  ghost predicate Unflagged(pages: seq<Page>, b: Block) {
    forall x: nat :: In(b, x) && x < |pages| ==> !pages[x].head
  }

  lemma {:induction false} ApartUnflagged(list: seq<nat>, pages: seq<Page>, nrFree: int, b: Block)
    requires Sound(list, pages, nrFree) && Apart(BlocksOf(list, pages), b)
    ensures Unflagged(pages, b)
  {
    var bs := BlocksOf(list, pages);
    forall x: nat | In(b, x) && x < |pages|
      ensures !pages[x].head
    {
      forall j | 0 <= j < |list|
        ensures list[j] != x
      {
        var c := bs[j];
        assert c.start == list[j] && c.len > 0;
        assert c.start == x ==> In(c, x);
      }
    }
  }

  /** Without a flag in it, a block that shares pages with a free one starts inside that. */
  lemma {:induction false} WithinBlock(list: seq<nat>, pages: seq<Page>, nrFree: int, b: Block) returns (j: nat)
    requires Sound(list, pages, nrFree) && !Apart(BlocksOf(list, pages), b) && Unflagged(pages, b) && b.len > 0
    ensures j < |list| && list[j] < |pages| && list[j] < b.start < list[j] + pages[list[j]].property
    ensures Place(BlocksOf(list, pages), b.start) == j + 1
  {
    var bs := BlocksOf(list, pages);
    var x: nat :| In(b, x) && Holds(bs, x);
    j :| 0 <= j < |bs| && In(bs[j], x);
    assert list[j] in list && pages[list[j]].head;
    assert !In(b, list[j]);
    PlaceWithin(bs, b.start, j);
  }

  lemma {:induction false} PlaceWithin(bs: seq<Block>, p: nat, j: nat)
    requires Ordered(bs) && j < |bs| && bs[j].start <= p < End(bs[j])
    ensures Place(bs, p) == j + 1
  {
    var i := Place(bs, p);
    assert j + 1 < |bs| ==> End(bs[j]) <= bs[j + 1].start;
  }

  lemma {:induction false} ReservedApart(list: seq<nat>, pages: seq<Page>, nrFree: int, b: Block)
    requires Sound(list, pages, nrFree) && b.len > 0 && End(b) <= |pages|
    requires forall x :: b.start <= x < End(b) ==> pages[x].reserved
    ensures Apart(BlocksOf(list, pages), b)
  {
  }

  /** The list with an entry added at place i. */
  function WithEntry(list: seq<nat>, i: nat, x: nat): seq<nat>
    requires i <= |list|
  {
    list[..i] + [x] + list[i..]
  }

  /** The place of a block among the heads is its place among the blocks. */
  lemma {:induction false} PlaceAt(list: seq<nat>, pages: seq<Page>, nrFree: int, p: nat, at: nat)
    requires Sound(list, pages, nrFree)
    requires at <= |list| && (forall j :: 0 <= j < at ==> list[j] < p) && (at < |list| ==> p < list[at])
    ensures at == Place(BlocksOf(list, pages), p)
    ensures (BlocksOf(list, pages) != [] && BlocksOf(list, pages)[|list| - 1].start < p) <==> 0 < at == |list|
  {
    var bs := BlocksOf(list, pages);
    Ascending(list, pages);
    assert forall j :: 0 <= j < |list| ==> bs[j].start == list[j];
    var i := Place(bs, p);
  }

  lemma {:induction false} BlockInside(list: seq<nat>, pages: seq<Page>, nrFree: int, i: nat)
    requires Sound(list, pages, nrFree) && i < |list|
    ensures End(BlocksOf(list, pages)[i]) <= |pages|
  {
    var b := BlocksOf(list, pages)[i];
    assert b.len > 0 && In(b, End(b) - 1);
    assert Holds(BlocksOf(list, pages), End(b) - 1);
  }

  /** A page inside a block is no head. */
  lemma {:induction false} InsideUnlisted(list: seq<nat>, pages: seq<Page>, nrFree: int, i: nat, x: nat)
    requires Sound(list, pages, nrFree) && i < |list| && In(BlocksOf(list, pages)[i], x) && x != list[i]
    ensures x !in list
  {
    var bs := BlocksOf(list, pages);
    forall j | 0 <= j < |list|
      ensures list[j] != x
    {
      var c := bs[j];
      assert c.start == list[j] && c.len > 0;
      assert j < i ==> End(bs[j]) <= bs[i].start;
      assert i < j ==> End(bs[i]) <= bs[j].start;
    }
  }
}
