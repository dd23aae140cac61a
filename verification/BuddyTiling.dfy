/** What a state of the buddy allocator stands for: a tiling of the managed pages by blocks, each
    free (on the list of its order) or live (handed out).  The tiling is ghost; the invariant ties
    it to descriptors and lists, as the code keeps them. */
module BuddyTiling {
  import opened Powers
  import opened Bits
  import opened Memlayout
  import opened BuddyModel

  /** blocks maps the first page of every block to its order; live are the blocks handed out. */
  datatype Tiling = Tiling(blocks: map<nat, nat>, live: set<nat>, lo: nat, hi: nat)

  ghost predicate Block(t: Tiling, p: nat, k: nat) {
    p in t.blocks && t.blocks[p] == k
  }

  ghost predicate FreeBlock(t: Tiling, p: nat, k: nat) {
    Block(t, p, k) && p !in t.live
  }

  /** The page after the last one of the block at p. */
  function End(t: Tiling, p: nat): nat
    requires p in t.blocks
  {
    p + Pow2(t.blocks[p])
  }

  ghost predicate Covers(t: Tiling, p: nat, i: nat) {
    p in t.blocks && p <= i < End(t, p)
  }

  ghost predicate Covered(t: Tiling, i: nat) {
    exists p :: Covers(t, p, i)
  }

  ghost predicate Inside(t: Tiling) {
    && t.lo <= t.hi && t.live <= t.blocks.Keys
    && (forall p :: p in t.blocks ==> t.blocks[p] < MAX_ORDER && t.lo <= p && End(t, p) <= t.hi)
  }

  ghost predicate Disjoint(t: Tiling) {
    forall p, q :: p in t.blocks && q in t.blocks && p < q ==> End(t, p) <= q
  }

  ghost predicate Complete(t: Tiling) {
    forall i :: t.lo <= i < t.hi ==> Covered(t, i)
  }

  /** The blocks lie in the region, do not overlap, and leave no page out. */
  ghost predicate Tiles(t: Tiling) {
    Inside(t) && Disjoint(t) && Complete(t)
  }

  ghost predicate NoRepeats(s: seq<nat>) {
    forall i, j :: 0 <= i < j < |s| ==> s[i] != s[j]
  }

  /** The lists hold the free blocks of their order, once each, and are counted right. */
  ghost predicate Lists(areas: seq<FreeArea>, t: Tiling) {
    && |areas| == MAX_ORDER
    && (forall k :: 0 <= k < MAX_ORDER ==> NoRepeats(areas[k].list) && areas[k].nr == |areas[k].list|)
    && (forall k, p :: 0 <= k < MAX_ORDER ==> (p in areas[k].list <==> FreeBlock(t, p, k)))
  }

  /** Page i still carries the flag of an upper half of order k, absorbed in what is now block w:
      i and its lower neighbour are halves of an even cut of w. */
  ghost predicate Stale(pages: seq<Page>, t: Tiling, i: nat, w: nat, k: nat)
    requires i < |pages|
  {
    && pages[i].property == Pow2(k) && Bit(i, k) == 1
    && w in t.blocks && k < t.blocks[w]
    && w + Pow2(k) <= i && i + Pow2(k) <= End(t, w)
    && Aligned(i - w - Pow2(k), k + 1)
  }

  ghost predicate FreeHead(pages: seq<Page>, t: Tiling, i: nat)
    requires i < |pages|
  {
    i in t.blocks && i !in t.live && pages[i].property == Pow2(t.blocks[i])
  }

  ghost predicate Flagged(pages: seq<Page>, t: Tiling, i: nat)
    requires i < |pages|
  {
    FreeHead(pages, t, i) || exists w, k :: Stale(pages, t, i, w, k)
  }

  /** No managed page is reserved, free heads record their size, and every flag is the head of a
      free block or stale.  hand is a live block being freed, whose flag is excused. */
  ghost predicate Descriptors(pages: seq<Page>, t: Tiling, hand: int) {
    && t.hi <= |pages|
    && (forall i :: t.lo <= i < t.hi ==> !pages[i].reserved)
    && (forall p :: p in t.blocks && p !in t.live ==> p < |pages| && FreeHead(pages, t, p))
    && (forall i :: 0 <= i < |pages| && pages[i].head && i != hand ==> Flagged(pages, t, i))
  }

  ghost predicate InHand(pages: seq<Page>, t: Tiling, p: nat, k: nat) {
    Block(t, p, k) && p in t.live && p < |pages| && pages[p].property == Pow2(k)
  }

  ghost predicate Inv(z: Zone, t: Tiling) {
    Tiles(t) && Lists(z.areas, t) && Descriptors(z.pages, t, -1)
  }

  // ---------- Changes of the tiling ----------

  function Halved(t: Tiling, p: nat): Tiling
    requires p in t.blocks && t.blocks[p] > 0
  {
    var k := t.blocks[p] - 1;
    t.(blocks := t.blocks[p := k][p + Pow2(k) := k])
  }

  /** p and the block that follows it become one, in hand. */
  function Joined(t: Tiling, p: nat, q: nat): Tiling
    requires p in t.blocks
  {
    t.(blocks := (t.blocks - {q})[p := t.blocks[p] + 1], live := t.live - {q} + {p})
  }

  lemma {:induction false} TilesHalved(t: Tiling, p: nat)
    requires Tiles(t) && p in t.blocks && t.blocks[p] > 0
    ensures Tiles(Halved(t, p))
    ensures p + Pow2(t.blocks[p] - 1) !in t.blocks
  {
    HalvedEnds(t, p);
    HalvedComplete(t, p);
  }

  lemma {:induction false} HalvedComplete(t: Tiling, p: nat)
    requires Tiles(t) && p in t.blocks && t.blocks[p] > 0
    ensures Complete(Halved(t, p))
  {
    var t' := Halved(t, p);
    HalvedEnds(t, p);
    forall i | t.lo <= i < t.hi
      ensures Covered(t', i)
    {
      assert Covered(t, i);
      var r :| Covers(t, r, i);
      assert Covers(t', r, i) || Covers(t', p + Pow2(t.blocks[p] - 1), i);
    }
  }

  lemma {:induction false} HalvedEnds(t: Tiling, p: nat)
    requires Tiles(t) && p in t.blocks && t.blocks[p] > 0
    ensures var k, t' := t.blocks[p] - 1, Halved(t, p); var q := p + Pow2(k);
      && q !in t.blocks && End(t', p) == q < End(t, p) == End(t', q)
      && (forall r :: r in t'.blocks ==> r == p || r == q || (r in t.blocks && End(t', r) == End(t, r)))
  {
    var k := t.blocks[p] - 1;
    assert End(t, p) == p + 2 * Pow2(k);
  }

  lemma {:induction false} TilesJoined(t: Tiling, p: nat, q: nat, k: nat)
    requires Tiles(t) && Block(t, p, k) && Block(t, q, k) && q == p + Pow2(k) && k + 1 < MAX_ORDER
    ensures Tiles(Joined(t, p, q))
  {
    var t' := Joined(t, p, q);
    assert End(t', p) == End(t, q);
    assert forall r :: r in t'.blocks ==> r != q && (r == p || (r in t.blocks && End(t', r) == End(t, r)));
    assert Disjoint(t');
    forall i | t.lo <= i < t.hi
      ensures Covered(t', i)
    {
      assert Covered(t, i);
      var r :| Covers(t, r, i);
      assert if r == q then Covers(t', p, i) else Covers(t', r, i);
    }
  }

  // ---------- Lists ----------

  lemma {:induction false} RemoveOne(s: seq<nat>, x: nat)
    requires NoRepeats(s) && x in s
    ensures NoRepeats(Remove(s, x)) && |Remove(s, x)| == |s| - 1
    ensures forall y :: y in Remove(s, x) <==> y in s && y != x
  {
    if s[0] != x {
      var r := s[1..];
      assert forall i :: 0 <= i < |r| ==> r[i] == s[i + 1];
      RemoveOne(r, x);
      assert s == [s[0]] + r;
      assert s[0] !in Remove(r, x);
    } else {
      assert s == [x] + s[1..];
    }
  }

  lemma {:induction false} ListsUnlist(areas: seq<FreeArea>, t: Tiling, k: nat, p: nat)
    requires Lists(areas, t) && k < MAX_ORDER && p in areas[k].list
    ensures Lists(Unlist(areas, k, p), t.(live := t.live + {p}))
  {
    RemoveOne(areas[k].list, p);
    var areas', t' := Unlist(areas, k, p), t.(live := t.live + {p});
    assert FreeBlock(t, p, k);
    forall j, r | 0 <= j < MAX_ORDER
      ensures r in areas'[j].list <==> FreeBlock(t', r, j)
    {
      assert r in areas[j].list <==> FreeBlock(t, r, j);
    }
  }

  lemma {:induction false} ListsPush(areas: seq<FreeArea>, t: Tiling, k: nat, p: nat)
    requires Lists(areas, t) && k < MAX_ORDER && Block(t, p, k) && p in t.live
    ensures Lists(Push(areas, k, p), t.(live := t.live - {p}))
  {
    var areas', t' := Push(areas, k, p), t.(live := t.live - {p});
    assert !FreeBlock(t, p, k);
    forall j, r | 0 <= j < MAX_ORDER
      ensures r in areas'[j].list <==> FreeBlock(t', r, j)
    {
      assert r in areas[j].list <==> FreeBlock(t, r, j);
    }
  }

  /** Tilings with the same free blocks have the same lists. */
  lemma {:induction false} ListsSame(areas: seq<FreeArea>, t: Tiling, t': Tiling)
    requires Lists(areas, t)
    requires forall p, k :: FreeBlock(t, p, k) <==> FreeBlock(t', p, k)
    ensures Lists(areas, t')
  {
  }
}
