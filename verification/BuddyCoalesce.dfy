/** Coalescing.  With the flags kept right (Flags.Kept) no two free buddies ever coexist, wherever the
    region starts. */
module BuddyCoalesce {
  import opened Powers
  import opened Bits
  import opened Memlayout
  import opened BuddyModel
  import opened BuddyTiling
  import opened BuddySafety
  import opened BuddySteps
  import opened BuddyRuns

  const TOP: nat := MAX_ORDER - 1

  ghost predicate Listed(areas: seq<FreeArea>, i: nat) {
    exists k :: 0 <= k < |areas| && i in areas[k].list
  }

  /** The flags are exactly those of the listed heads, but for a block in hand. */
  ghost predicate Exact(z: Zone, hand: int) {
    forall i :: 0 <= i < |z.pages| && i != hand ==> (z.pages[i].head <==> Listed(z.areas, i))
  }

  /** No block below the top order is listed together with its buddy. */
  ghost predicate NoBuddies(areas: seq<FreeArea>) {
    forall k, p :: 0 <= k < |areas| && k < TOP && p in areas[k].list ==> Flip(p, k) !in areas[k].list
  }

  ghost predicate Coalesced(z: Zone, hand: int) {
    Exact(z, hand) && NoBuddies(z.areas)
  }

  // ---------- Lists under change ----------

  lemma {:induction false} ListedUnlist(areas: seq<FreeArea>, t: Tiling, k: nat, p: nat)
    requires Lists(areas, t) && k < MAX_ORDER && p in areas[k].list
    ensures forall j, r :: 0 <= j < MAX_ORDER ==> (r in Unlist(areas, k, p)[j].list <==> r in areas[j].list && (j != k || r != p))
    ensures forall r :: Listed(Unlist(areas, k, p), r) <==> Listed(areas, r) && r != p
  {
    RemoveOne(areas[k].list, p);
    var areas' := Unlist(areas, k, p);
    assert forall j, r :: 0 <= j < MAX_ORDER ==> (r in areas'[j].list <==> r in areas[j].list && (j != k || r != p));
    assert FreeBlock(t, p, k);
    forall r
      ensures Listed(areas', r) <==> Listed(areas, r) && r != p
    {
      if Listed(areas, r) && r != p {
        var j :| 0 <= j < |areas| && r in areas[j].list;
        assert r in areas'[j].list;
      }
      if j :| 0 <= j < |areas'| && r in areas'[j].list {
        assert r in areas[j].list;
        assert FreeBlock(t, r, j);
      }
    }
  }

  lemma {:induction false} ListedPush(areas: seq<FreeArea>, k: nat, p: nat)
    requires k < |areas|
    ensures forall j, r :: 0 <= j < |areas| ==> (r in Push(areas, k, p)[j].list <==> r in areas[j].list || (j == k && r == p))
    ensures forall r :: Listed(Push(areas, k, p), r) <==> Listed(areas, r) || r == p
  {
    var areas' := Push(areas, k, p);
    forall r
      ensures Listed(areas', r) <==> Listed(areas, r) || r == p
    {
      if Listed(areas, r) {
        var j :| 0 <= j < |areas| && r in areas[j].list;
        assert r in areas'[j].list;
      }
      assert p in areas'[k].list;
    }
  }

  // ---------- Freeing ----------

  lemma {:induction false} AddCoalesced(z: Zone, t: Tiling, k: nat, base: nat)
    requires Handing(z, t, base, k)
    requires Coalesced(z, base) && k < MAX_ORDER && !Passes(z.pages, k, base)
    ensures Coalesced(AddPage(z, k, base, Kept), -1)
  {
    ListedPush(z.areas, k, base);
    var z' := AddPage(z, k, base, Kept);
    assert Exact(z', -1);
    forall j, p | 0 <= j < MAX_ORDER && j < TOP && p in z'.areas[j].list
      ensures Flip(p, j) !in z'.areas[j].list
    {
      FlipFlip(p, j);
      if j == k && (p == base || Flip(p, j) == base) {
        FlipFlip(base, k);
        BuddyNotListed(z, t, k, base);
      }
    }
  }

  lemma {:induction false} BuddyNotListed(z: Zone, t: Tiling, k: nat, base: nat)
    requires Lists(z.areas, t) && Descriptors(z.pages, t, base) && k < TOP
    requires Exact(z, base) && !Passes(z.pages, k, base) && Flip(base, k) != base
    ensures Flip(base, k) !in z.areas[k].list
  {
    FlipFlip(base, k);
    var q: nat := Flip(base, k);
    assert q in z.areas[k].list <==> FreeBlock(t, q, k);
    assert q in z.areas[k].list ==> Listed(z.areas, q);
  }

  lemma {:induction false} JoinCoalesced(z: Zone, t: Tiling, k: nat, base: nat, q: nat)
    requires Tiles(t) && Lists(z.areas, t) && InHand(z.pages, t, base, k) && k < TOP
    requires Coalesced(z, base) && q == Flip(base, k) && q < |z.pages| && q in z.areas[k].list
    ensures Coalesced(Join(z, k, base, q, Kept), if q < base then q else base)
  {
    ListedUnlist(z.areas, t, k, q);
    FlipFlip(base, k);
    var z' := Join(z, k, base, q, Kept);
    NotListed(z.areas, t, base);
    assert Exact(z', if q < base then q else base);
  }

  lemma {:induction false} NotListed(areas: seq<FreeArea>, t: Tiling, p: nat)
    requires Lists(areas, t) && p in t.live
    ensures !Listed(areas, p)
  {
    forall k | 0 <= k < |areas|
      ensures p !in areas[k].list
    {
      assert p in areas[k].list <==> FreeBlock(t, p, k);
    }
  }

  lemma {:induction false} MergeCoalesced(z: Zone, t: Tiling, k: nat, base: nat)
    requires Handing(z, t, base, k)
    requires Coalesced(z, base)
    ensures k < MAX_ORDER && (Merge(z, k, base, Kept).Done? ==> Coalesced(Merge(z, k, base, Kept).value, -1))
    decreases MAX_ORDER - k
  {
    hide Tiles, Lists, Descriptors, Coalesced;
    MergeCases(z, t, k, base, Kept, Merge(z, k, base, Kept));
    if Passes(z.pages, k, base) {
      var q := Flip(base, k);
      var low, high := (if q < base then q else base), if q < base then base else q;
      JoinHand(z, t, k, base, q, low, high, Kept);
      JoinCoalesced(z, t, k, base, q);
      MergeCoalesced(Join(z, k, base, q, Kept), Joined(t, low, high), k + 1, low);
    } else {
      AddCoalesced(z, t, k, base);
    }
  }

  /** No flag lies in a live block, so freeing one never fails the assertion of line 198. */
  lemma {:induction false} LiveUnflagged(z: Zone, t: Tiling, base: nat, k: nat)
    requires Inv(z, t) && Exact(z, -1) && Block(t, base, k) && base in t.live
    ensures base + Pow2(k) <= |z.pages|
    ensures forall i :: base <= i < base + Pow2(k) ==> !z.pages[i].head && !Listed(z.areas, i)
  {
    assert End(t, base) <= t.hi;
    forall i | base <= i < base + Pow2(k)
      ensures !Listed(z.areas, i)
    {
      forall j | 0 <= j < MAX_ORDER
        ensures i !in z.areas[j].list
      {
        assert i in z.areas[j].list <==> FreeBlock(t, i, j);
      }
    }
  }

  lemma {:induction false} FreeCoalesced(z: Zone, t: Tiling, base: nat, k: nat)
    requires Inv(z, t) && Coalesced(z, -1) && Block(t, base, k) && base in t.live
    ensures Free(z, base, Pow2(k), Kept).Done? ==> Coalesced(Free(z, base, Pow2(k), Kept).value, -1)
  {
    LiveUnflagged(z, t, base, k);
    var t' := FreeInv(z, t, base, k, Kept);
    ReleaseDescriptors(z.pages, t, base, k);
    var z' := z.(pages := Release(z.pages, base, Pow2(k)));
    assert Exact(z', base);
    MergeCoalesced(z', t, k, base);
  }

  // ---------- Allocating ----------

  lemma {:induction false} HalveListed(areas: seq<FreeArea>, t: Tiling, c: nat, p: nat)
    requires Lists(areas, t) && 0 < c < MAX_ORDER && p in areas[c].list
    ensures var areas', q := HalveAreas(areas, c, p, Pow2(c - 1)), p + Pow2(c - 1);
      forall r :: Listed(areas', r) <==> Listed(areas, r) || r == p || r == q
  {
    ListedUnlist(areas, t, c, p);
    var areas1 := Unlist(areas, c, p);
    ListedPush(areas1, c - 1, p);
    ListedPush(Push(areas1, c - 1, p), c - 1, p + Pow2(c - 1));
  }

  lemma {:induction false} HalveExact(z: Zone, t: Tiling, c: nat)
    requires Inv(z, t) && Exact(z, -1) && 0 < c < MAX_ORDER && z.areas[c].list != []
    ensures Halve(z, c).Done? && Exact(Halve(z, c).value, -1)
  {
    hide Tiles, Descriptors, Listed, HalveAreas;
    HalveInv(z, t, c);
    var p := z.areas[c].list[0];
    assert p in z.areas[c].list;
    HalveListed(z.areas, t, c, p);
  }

  lemma {:induction false} SplitDownExact(z: Zone, t: Tiling, c: nat, k: nat)
    requires Inv(z, t) && Exact(z, -1) && k <= c < MAX_ORDER && z.areas[c].list != []
    requires SplitDown(z, c, k).Done?
    ensures Exact(SplitDown(z, c, k).value, -1)
    decreases c - k
  {
    if k < c {
      HalveInv(z, t, c);
      HalveExact(z, t, c);
      SplitDownOnce(z, c, k);
      var z1 := Halve(z, c).value;
      HalvedLists(z.areas, z1.areas, z.areas[c].list[0], c);
      SplitDownExact(z1, Halved(t, z.areas[c].list[0]), c - 1, k);
    }
  }

  lemma {:induction false} AllocFromExact(z: Zone, t: Tiling, c: nat, k: nat)
    requires Inv(z, t) && Exact(z, -1) && k <= c < MAX_ORDER && z.areas[c].list != []
    requires AllocFrom(z, c, k).Done?
    ensures Exact(AllocFrom(z, c, k).value.zone, -1)
  {
    AllocFromTakes(z, c, k);
    SplitDownExact(z, t, c, k);
    var t1 := SplitDownInv(z, t, c, k);
    var z1 := SplitDown(z, c, k).value;
    ListedUnlist(z1.areas, t1, k, z1.areas[k].list[0]);
  }

  lemma {:induction false} TakenNoBuddies(areas: seq<FreeArea>, areas': seq<FreeArea>, p: nat, c: nat, k: nat)
    requires |areas| == |areas'| == MAX_ORDER && k <= c < MAX_ORDER
    requires TakenLists(areas, areas', p, c, k) && NoBuddies(areas)
    ensures NoBuddies(areas')
  {
    forall j, r | 0 <= j < MAX_ORDER && j < TOP && r in areas'[j].list
      ensures Flip(r, j) !in areas'[j].list
    {
      assert areas'[j].list == TakenList(areas[j].list, p, c, k, j);
    }
  }

  lemma {:induction false} AllocCoalesced(z: Zone, t: Tiling, n: nat)
    requires Inv(z, t) && Coalesced(z, -1) && n > 0
    ensures var o := Alloc(z, n);
      o.Done? && Coalesced(o.value.zone, -1)
  {
    var t' := AllocInv(z, t, n);
    AllocCases(z, n);
    var k := OrderFrom(n, 0);
    if Alloc(z, n).value.page.Some? {
      var c := ListedFrom(z, k);
      AllocFromExact(z, t, c, k);
      TakenNoBuddies(z.areas, Alloc(z, n).value.zone.areas, z.areas[c].list[0], c, k);
    }
  }

  // ---------- The region at the start ----------

  /** Of the orders below the top, the greedy cut uses each once, and only orders larger than what
      is left. */
  ghost predicate Descending(areas: seq<FreeArea>, n: nat) {
    && (forall k, r, s :: 0 <= k < |areas| && k < TOP && r in areas[k].list && s in areas[k].list ==> r == s)
    && (forall k :: 0 <= k < |areas| && k < TOP && areas[k].list != [] ==> n < Pow2(k))
  }

  lemma {:induction false} GreedyDescending(z: Zone, p: nat, n: nat)
    requires |z.areas| == MAX_ORDER && Descending(z.areas, n) && Greedy(z, p, n).Done?
    ensures var areas' := Greedy(z, p, n).value.areas; |areas'| == MAX_ORDER && Descending(areas', 0)
    decreases n
  {
    hide Descending, BlockOrder, Log2, Cut;
    if n > 0 {
      var k := BlockOrder(n);
      BlockOrderFits(n);
      PushDescending(z.areas, p, n, k);
      CutAreas(z, p, k);
      GreedyDescending(Cut(z, p, k), p + Pow2(k), n - Pow2(k));
    }
  }

  lemma {:induction false} CutAreas(z: Zone, p: nat, k: nat)
    requires p < |z.pages| && k < |z.areas|
    ensures Cut(z, p, k).areas == Push(z.areas, k, p) && |Cut(z, p, k).areas| == |z.areas| && |Cut(z, p, k).pages| == |z.pages|
  {
  }

  lemma {:induction false} PushDescending(areas: seq<FreeArea>, p: nat, n: nat, k: nat)
    requires |areas| == MAX_ORDER && 0 < n && Descending(areas, n) && k == BlockOrder(n)
    requires k < MAX_ORDER && Pow2(k) <= n && (k < TOP ==> n < 2 * Pow2(k))
    ensures Descending(Push(areas, k, p), n - Pow2(k))
  {
    ListedPush(areas, k, p);
  }

  /** init_memmap leaves no free buddies, wherever the region starts. */
  lemma {:induction false} InitCoalesced(pages: seq<Page>, base: nat, n: nat)
    requires AtBoot(pages) && 0 < n && base + n <= |pages|
    ensures var o := InitMemmap(Zone(pages, EmptyAreas()), base, n);
      o.Done? && Coalesced(o.value, -1)
  {
    var z := Zone(InitPages(pages, base, n), EmptyAreas());
    FreshBoot(pages, base, n);
    var t := GreedyInv(z, Tiling(map[], {}, base, base), n);
    GreedyDescending(z, base, n);
    var z' := Greedy(z, base, n).value;
    FreshExact(z', t);
    forall k, p | 0 <= k < MAX_ORDER && k < TOP && p in z'.areas[k].list
      ensures Flip(p, k) !in z'.areas[k].list
    {
      FlipFlip(p, k);
    }
  }

  lemma {:induction false} FreshExact(z: Zone, t: Tiling)
    requires Fresh(z, t)
    ensures Exact(z, -1)
  {
    forall i | 0 <= i < |z.pages|
      ensures z.pages[i].head <==> Listed(z.areas, i)
    {
      if z.pages[i].head {
        assert FreeBlock(t, i, t.blocks[i]);
        assert i in z.areas[t.blocks[i]].list;
      }
      if k :| 0 <= k < |z.areas| && i in z.areas[k].list {
        assert FreeBlock(t, i, k);
      }
    }
  }
}
