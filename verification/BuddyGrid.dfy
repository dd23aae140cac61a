/** The grid: when every block is aligned to its own size, and that nothing done to such blocks leaves
    it, with the flags as written or kept. */
module BuddyGrid {
  import opened Powers
  import opened Bits
  import opened Memlayout
  import opened BuddyModel
  import opened BuddyTiling
  import opened BuddySafety
  import opened BuddySteps
  import opened BuddyRuns
  import opened BuddyCoalesce

  /** Every listed block is aligned to its size. */
  ghost predicate OnGrid(areas: seq<FreeArea>) {
    forall k, p :: 0 <= k < |areas| && p in areas[k].list ==> Aligned(p, k)
  }

  /** So are the blocks held. */
  ghost predicate Gridded(c: Config) {
    OnGrid(c.zone.areas) && forall l :: l in c.leases ==> Aligned(l.page, l.order)
  }

  // ---------- Freeing ----------

  lemma {:induction false} JoinOnGrid(z: Zone, t: Tiling, k: nat, base: nat, q: nat, flags: Flags)
    requires Lists(z.areas, t) && k < TOP && base < |z.pages|
    requires OnGrid(z.areas) && Aligned(base, k) && q == Flip(base, k) && q < |z.pages| && q in z.areas[k].list
    ensures OnGrid(Join(z, k, base, q, flags).areas) && Aligned(if q < base then q else base, k + 1)
  {
    ListedUnlist(z.areas, t, k, q);
    FlipFlip(base, k);
    AlignedBit(if q < base then q else base, k);
  }

  lemma {:induction false} MergeOnGrid(z: Zone, t: Tiling, k: nat, base: nat, flags: Flags)
    requires Handing(z, t, base, k) && k < MAX_ORDER && OnGrid(z.areas) && Aligned(base, k)
    ensures Merge(z, k, base, flags).Done? ==> OnGrid(Merge(z, k, base, flags).value.areas)
    decreases MAX_ORDER - k
  {
    hide Tiles, Lists, Descriptors, OnGrid;
    MergeCases(z, t, k, base, flags, Merge(z, k, base, flags));
    if Passes(z.pages, k, base) {
      var q := Flip(base, k);
      var low, high := (if q < base then q else base), if q < base then base else q;
      JoinHand(z, t, k, base, q, low, high, flags);
      JoinOnGrid(z, t, k, base, q, flags);
      MergeOnGrid(Join(z, k, base, q, flags), Joined(t, low, high), k + 1, low, flags);
    } else {
      PushOnGrid(z.areas, k, base);
    }
  }

  lemma {:induction false} PushOnGrid(areas: seq<FreeArea>, k: nat, p: nat)
    requires k < |areas| && OnGrid(areas) && Aligned(p, k)
    ensures OnGrid(Push(areas, k, p))
  {
    ListedPush(areas, k, p);
  }

  lemma {:induction false} FreeOnGrid(z: Zone, t: Tiling, base: nat, k: nat, flags: Flags)
    requires Inv(z, t) && Block(t, base, k) && base in t.live && OnGrid(z.areas) && Aligned(base, k)
    requires Free(z, base, Pow2(k), flags).Done?
    ensures OnGrid(Free(z, base, Pow2(k), flags).value.areas)
  {
    FreeCases(z, base, k, flags);
    ReleaseDescriptors(z.pages, t, base, k);
    MergeOnGrid(z.(pages := Release(z.pages, base, Pow2(k))), t, k, base, flags);
  }

  // ---------- Allocating ----------

  lemma {:induction false} HalveOnGrid(areas: seq<FreeArea>, t: Tiling, c: nat, p: nat)
    requires Lists(areas, t) && OnGrid(areas) && 0 < c < MAX_ORDER && p in areas[c].list
    ensures OnGrid(HalveAreas(areas, c, p, Pow2(c - 1)))
  {
    ListedUnlist(areas, t, c, p);
    var areas1 := Unlist(areas, c, p);
    AlignedDown(p, c, c - 1);
    AlignedPow2(c - 1, c - 1);
    AlignedSum(p, Pow2(c - 1), c - 1);
    assert OnGrid(areas1);
    PushOnGrid(areas1, c - 1, p);
    PushOnGrid(Push(areas1, c - 1, p), c - 1, p + Pow2(c - 1));
  }

  lemma {:induction false} SplitDownOnGrid(z: Zone, t: Tiling, c: nat, k: nat)
    requires Inv(z, t) && OnGrid(z.areas) && k <= c < MAX_ORDER && z.areas[c].list != []
    requires SplitDown(z, c, k).Done?
    ensures OnGrid(SplitDown(z, c, k).value.areas)
    decreases c - k
  {
    if k < c {
      HalveInv(z, t, c);
      assert z.areas[c].list[0] in z.areas[c].list;
      HalveOnGrid(z.areas, t, c, z.areas[c].list[0]);
      SplitDownOnce(z, c, k);
      var z1 := Halve(z, c).value;
      HalvedLists(z.areas, z1.areas, z.areas[c].list[0], c);
      SplitDownOnGrid(z1, Halved(t, z.areas[c].list[0]), c - 1, k);
    }
  }

  lemma {:induction false} AllocOnGrid(z: Zone, t: Tiling, n: nat)
    requires Inv(z, t) && OnGrid(z.areas) && n > 0
    ensures var o := Alloc(z, n);
      o.Done? && OnGrid(o.value.zone.areas) && (o.value.page.Some? ==> Aligned(o.value.page.value, OrderFrom(n, 0)))
  {
    var t' := AllocInv(z, t, n);
    AllocCases(z, n);
    if Alloc(z, n).value.page.Some? {
      var k := OrderFrom(n, 0);
      var c := ListedFrom(z, k);
      AllocFromTakes(z, c, k);
      SplitDownOnGrid(z, t, c, k);
      var t1 := SplitDownInv(z, t, c, k);
      var z1 := SplitDown(z, c, k).value;
      ListedUnlist(z1.areas, t1, k, z1.areas[k].list[0]);
    }
  }

  // ---------- Runs ----------

  lemma {:induction false} StepOnGrid(c: Config, t: Tiling, op: Op, flags: Flags)
    requires Good(c, t) && Gridded(c) && Step(c, op, flags).Done?
    ensures Gridded(Step(c, op, flags).value)
  {
    match op
    case Ask(n) => if n > 0 { AllocOnGrid(c.zone, t, n); }
    case Return(i) =>
      if i < |c.leases| {
        var l := c.leases[i];
        assert l in c.leases;
        FreeOnGrid(c.zone, t, l.page, l.order, flags);
      }
  }

  lemma {:induction false} RunOnGrid(c: Config, t: Tiling, ops: seq<Op>, flags: Flags)
    requires Good(c, t) && Gridded(c) && Run(c, ops, flags).Done?
    ensures Gridded(Run(c, ops, flags).value)
    decreases |ops|
  {
    if ops != [] {
      var t' := StepGood(c, t, ops[0], flags);
      StepOnGrid(c, t, ops[0], flags);
      RunOnGrid(Step(c, ops[0], flags).value, t', ops[1..], flags);
    }
  }

  // ---------- The region at the start ----------

  lemma {:induction false} GreedyOnGrid(z: Zone, p: nat, n: nat)
    requires |z.areas| == MAX_ORDER && OnGrid(z.areas) && (n > 0 ==> Aligned(p, BlockOrder(n))) && Greedy(z, p, n).Done?
    ensures OnGrid(Greedy(z, p, n).value.areas)
    decreases n
  {
    hide OnGrid, BlockOrder;
    if n > 0 {
      var k := BlockOrder(n);
      BlockOrderFits(n);
      PushOnGrid(z.areas, k, p);
      if n > Pow2(k) { NextAligned(p, n, k); }
      GreedyOnGrid(Cut(z, p, k), p + Pow2(k), n - Pow2(k));
    }
  }

  lemma {:induction false} NextAligned(p: nat, n: nat, k: nat)
    requires Aligned(p, k) && Pow2(k) < n && (k < TOP ==> n < 2 * Pow2(k)) && k <= TOP
    ensures Aligned(p + Pow2(k), BlockOrder(n - Pow2(k)))
  {
    var j := BlockOrder(n - Pow2(k));
    BlockOrderFits(n - Pow2(k));
    AlignedPow2(k, k);
    AlignedSum(p, Pow2(k), k);
    if j > k { Pow2Mono(k + 1, j); }
    AlignedDown(p + Pow2(k), k, j);
  }

  /** What is listed stays listed while a region is cut. */
  lemma {:induction false} GreedyKeeps(z: Zone, p: nat, n: nat, k: nat, r: nat)
    requires k < |z.areas| == MAX_ORDER && r in z.areas[k].list && Greedy(z, p, n).Done?
    ensures |Greedy(z, p, n).value.areas| == MAX_ORDER && r in Greedy(z, p, n).value.areas[k].list
    decreases n
  {
    if n > 0 {
      var j := BlockOrder(n);
      BlockOrderFits(n);
      ListedPush(z.areas, j, p);
      GreedyKeeps(Cut(z, p, j), p + Pow2(j), n - Pow2(j), k, r);
    }
  }

  /** The first block of the greedy cut is the largest: all blocks are on the grid exactly when it is. */
  lemma {:induction false} InitOnGridIff(pages: seq<Page>, base: nat, n: nat)
    requires AtBoot(pages) && 0 < n && base + n <= |pages|
    ensures var o := InitMemmap(Zone(pages, EmptyAreas()), base, n);
      && o.Done? && |o.value.areas| == MAX_ORDER && BlockOrder(n) < MAX_ORDER && base in o.value.areas[BlockOrder(n)].list
      && (OnGrid(o.value.areas) <==> Aligned(base, BlockOrder(n)))
  {
    hide Tiles, Lists, Descriptors, InitPages, Aligned, BlockOrder, Pow2;
    var z := Zone(InitPages(pages, base, n), EmptyAreas());
    var t := InitInv(pages, base, n);
    var k := BlockOrder(n);
    BlockOrderFits(n);
    var z1 := Cut(z, base, k);
    ListedPush(z.areas, k, base);
    GreedyKeeps(z1, base + Pow2(k), n - Pow2(k), k, base);
    if Aligned(base, k) { GreedyOnGrid(z, base, n); }
  }
}
