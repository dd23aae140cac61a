/** Page conservation: what the counters of the free areas add up to. */
module BuddyCount {
  import opened Powers
  import opened Bits
  import opened Memlayout
  import opened BuddyModel

  /** The value of buddy_system_nr_free_pages. */
  function Total(z: Zone): int
    requires |z.areas| == MAX_ORDER
  {
    NrFreePages(z.areas, MAX_ORDER)
  }

  lemma {:induction false} CountUpdate(areas: seq<FreeArea>, k: nat, a: FreeArea, m: nat)
    requires k < |areas| && m <= |areas|
    ensures NrFreePages(areas[k := a], m) == NrFreePages(areas, m) + (if k < m then (a.nr - areas[k].nr) * Pow2(k) else 0)
  {
    if m > 0 {
      CountUpdate(areas, k, a, m - 1);
      if k == m - 1 { Distribute(a.nr, areas[k].nr, Pow2(k)); }
    }
  }

  lemma {:induction false} Distribute(a: int, b: int, m: int)
    ensures a * m == b * m + (a - b) * m
  {
  }

  lemma {:induction false} CountPush(areas: seq<FreeArea>, k: nat, p: nat)
    requires k < MAX_ORDER == |areas|
    ensures NrFreePages(Push(areas, k, p), MAX_ORDER) == NrFreePages(areas, MAX_ORDER) + Pow2(k)
  {
    CountUpdate(areas, k, FreeArea([p] + areas[k].list, areas[k].nr + 1), MAX_ORDER);
  }

  lemma {:induction false} CountUnlist(areas: seq<FreeArea>, k: nat, p: nat)
    requires k < MAX_ORDER == |areas|
    ensures NrFreePages(Unlist(areas, k, p), MAX_ORDER) == NrFreePages(areas, MAX_ORDER) - Pow2(k)
  {
    CountUpdate(areas, k, FreeArea(Remove(areas[k].list, p), areas[k].nr - 1), MAX_ORDER);
  }

  lemma {:induction false} GreedyCounts(z: Zone, p: nat, n: nat)
    requires |z.areas| == MAX_ORDER && Greedy(z, p, n).Done?
    ensures |Greedy(z, p, n).value.areas| == MAX_ORDER && Total(Greedy(z, p, n).value) == Total(z) + n
    decreases n
  {
    if n > 0 {
      var k := BlockOrder(n);
      BlockOrderFits(n);
      CountPush(z.areas, k, p);
      GreedyCounts(Cut(z, p, k), p + Pow2(k), n - Pow2(k));
    }
  }

  lemma {:induction false} EmptyCounts(m: nat)
    requires m <= MAX_ORDER
    ensures NrFreePages(EmptyAreas(), m) == 0
  {
    if m > 0 { EmptyCounts(m - 1); }
  }

  lemma {:induction false} InitCounts(pages: seq<Page>, base: nat, n: nat)
    requires InitMemmap(Zone(pages, EmptyAreas()), base, n).Done?
    ensures |InitMemmap(Zone(pages, EmptyAreas()), base, n).value.areas| == MAX_ORDER
    ensures Total(InitMemmap(Zone(pages, EmptyAreas()), base, n).value) == n
  {
    EmptyCounts(MAX_ORDER);
    GreedyCounts(Zone(InitPages(pages, base, n), EmptyAreas()), base, n);
  }

  lemma {:induction false} SplitCounts(z: Zone, order: nat)
    requires |z.areas| == MAX_ORDER && Split(z, order).Done?
    ensures |Split(z, order).value.areas| == MAX_ORDER && Total(Split(z, order).value) == Total(z)
    decreases MAX_ORDER - order
  {
    var y := z;
    if z.areas[order].list == [] {
      SplitCounts(z, order + 1);
      y := Split(z, order + 1).value;
    }
    if y.areas[order].list != [] {
      var p, size := y.areas[order].list[0], Pow2(order - 1);
      CountUnlist(y.areas, order, p);
      CountPush(Unlist(y.areas, order, p), order - 1, p);
      CountPush(Push(Unlist(y.areas, order, p), order - 1, p), order - 1, p + size);
    }
  }

  lemma {:induction false} SplitDownCounts(z: Zone, c: nat, k: nat)
    requires |z.areas| == MAX_ORDER && k <= c && SplitDown(z, c, k).Done?
    ensures |SplitDown(z, c, k).value.areas| == MAX_ORDER && Total(SplitDown(z, c, k).value) == Total(z)
    decreases c - k
  {
    if k < c {
      SplitCounts(z, c);
      SplitDownCounts(Split(z, c).value, c - 1, k);
    }
  }

  /** A successful allocation of order k takes exactly Pow2(k) pages off the count, whatever it splits. */
  lemma {:induction false} AllocCounts(z: Zone, n: nat)
    requires |z.areas| == MAX_ORDER && Alloc(z, n).Done?
    ensures var a := Alloc(z, n).value;
      |a.zone.areas| == MAX_ORDER && Total(a.zone) == Total(z) - (if a.page.Some? then Pow2(OrderFrom(n, 0)) else 0)
  {
    if n <= Pow2(MAX_ORDER - 1) {
      var k := OrderFrom(n, 0);
      if k < MAX_ORDER && ListedFrom(z, k) < MAX_ORDER {
        var c := ListedFrom(z, k);
        SplitDownCounts(z, c, k);
        var z1 := SplitDown(z, c, k).value;
        CountUnlist(z1.areas, k, z1.areas[k].list[0]);
      }
    }
  }

  /** Merging from order k adds exactly Pow2(k) pages to the count, through any number of steps. */
  lemma {:induction false} MergeCounts(z: Zone, k: nat, base: nat, flags: Flags)
    requires k < MAX_ORDER == |z.areas| && base < |z.pages| && Merge(z, k, base, flags).Done?
    ensures |Merge(z, k, base, flags).value.areas| == MAX_ORDER
    ensures Total(Merge(z, k, base, flags).value) == Total(z) + Pow2(k)
    decreases MAX_ORDER - k
  {
    CountPush(z.areas, k, base);
    if k < MAX_ORDER - 1 {
      var q := BuddyIndex(base, k);
      if z.pages[q].property == Pow2(k) && z.pages[q].head {
        CountUnlist(z.areas, k, q);
        MergeCounts(Join(z, k, base, q, flags), k + 1, if q < base then q else base, flags);
      }
    }
  }

  /** A free of n pages adds exactly n. */
  lemma {:induction false} FreeCounts(z: Zone, base: nat, n: nat, flags: Flags)
    requires |z.areas| == MAX_ORDER && Free(z, base, n, flags).Done?
    ensures |Free(z, base, n, flags).value.areas| == MAX_ORDER
    ensures Total(Free(z, base, n, flags).value) == Total(z) + n
  {
    FreeOrder(n);
    PowerOfTwoTest(n);
    MergeCounts(z.(pages := Release(z.pages, base, n)), Log2(n), base, flags);
  }
}
