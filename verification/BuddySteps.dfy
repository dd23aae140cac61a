/** The calls of the buddy allocator: what each does to a state that satisfies the invariant. */
module BuddySteps {
  import opened Wrappers
  import opened Powers
  import opened Bits
  import opened Memlayout
  import opened BuddyModel
  import opened BuddyTiling
  import opened BuddySafety

  // ---------- Allocation ----------

  lemma {:induction false} OrderFromSpec(n: nat, k: nat)
    requires k <= MAX_ORDER && (k > 0 ==> Pow2(k - 1) < n) && n <= Pow2(MAX_ORDER - 1)
    ensures var r := OrderFrom(n, k); k <= r < MAX_ORDER && n <= Pow2(r) && (r > 0 ==> Pow2(r - 1) < n)
    decreases MAX_ORDER - k
  {
    if k < MAX_ORDER && Pow2(k) < n {
      OrderFromSpec(n, k + 1);
    }
  }

  lemma {:induction false} ListedFromSpec(z: Zone, k: nat)
    requires k <= MAX_ORDER && |z.areas| == MAX_ORDER
    ensures var c := ListedFrom(z, k);
      && k <= c <= MAX_ORDER && (forall j :: k <= j < c ==> z.areas[j].list == [])
      && (c < MAX_ORDER ==> z.areas[c].list != [])
    decreases MAX_ORDER - k
  {
    if k < MAX_ORDER && z.areas[k].list == [] {
      ListedFromSpec(z, k + 1);
    }
  }

  /** Nothing changed hands. */
  ghost predicate SameLive(t: Tiling, t': Tiling) {
    && t'.lo == t.lo && t'.hi == t.hi && t'.live == t.live && t.live <= t.blocks.Keys && t.live <= t'.blocks.Keys
    && forall p :: p in t.live ==> t'.blocks[p] == t.blocks[p]
  }

  lemma {:induction false} SplitDownOnce(z: Zone, c: nat, k: nat)
    requires k < c < MAX_ORDER && c < |z.areas| && z.areas[c].list != [] && Halve(z, c).Done?
    ensures SplitDown(z, c, k) == SplitDown(Halve(z, c).value, c - 1, k)
  {
    assert Split(z, c) == Halve(z, c);
  }

  /** List j after splitting block p of order c down to order k, where no list from k up to c had
      any block: one lower half at each order, and at order k the last piece before it. */
  function SplitList(list: seq<nat>, p: nat, c: nat, k: nat, j: nat): seq<int>
    requires k <= c
  {
    if k == c || j < k || c < j then list
    else if j == c then (if list == [] then [] else list[1..])
    else (if j == k then [p + Pow2(c) - Pow2(k)] else []) + [p + Pow2(c) - Pow2(j + 1)]
  }

  ghost predicate SplitLists(areas: seq<FreeArea>, areas': seq<FreeArea>, p: nat, c: nat, k: nat)
    requires |areas| == |areas'| == MAX_ORDER && k <= c
  {
    forall j :: 0 <= j < MAX_ORDER ==> areas'[j].list == SplitList(areas[j].list, p, c, k, j)
  }

  lemma {:induction false} SplitDownInv(z: Zone, t: Tiling, c: nat, k: nat) returns (t': Tiling)
    requires Inv(z, t) && k <= c < MAX_ORDER && z.areas[c].list != []
    ensures var y := SplitDown(z, c, k); y.Done? && Inv(y.value, t') && SameLive(t, t') && y.value.areas[k].list != []
    decreases c - k
  {
    if c == k {
      t' := t;
    } else {
      HalveInv(z, t, c);
      SplitDownOnce(z, c, k);
      var p := z.areas[c].list[0];
      var z1 := Halve(z, c).value;
      HalvedSameLive(t, p);
      HalvedLists(z.areas, z1.areas, p, c);
      t' := SplitDownInv(z1, Halved(t, p), c - 1, k);
      SameLiveTwice(t, Halved(t, p), t');
    }
  }

  lemma {:induction false} SplitDownLists(z: Zone, p: nat, c: nat, k: nat)
    requires |z.areas| == MAX_ORDER && k <= c < MAX_ORDER && z.areas[c].list != [] && z.areas[c].list[0] == p
    requires forall j :: k <= j < c ==> z.areas[j].list == []
    requires SplitDown(z, c, k).Done?
    ensures |SplitDown(z, c, k).value.areas| == MAX_ORDER && SplitLists(z.areas, SplitDown(z, c, k).value.areas, p, c, k)
    decreases c - k
  {
    if k < c {
      assert Split(z, c) == Halve(z, c);
      var z1 := Halve(z, c).value;
      HalvedLists(z.areas, z1.areas, p, c);
      SplitDownLists(z1, p + Pow2(c - 1), c - 1, k);
      SplitListsStep(z.areas, z1.areas, SplitDown(z, c, k).value.areas, p, c, k);
    }
  }

  lemma {:induction false} HalvedSameLive(t: Tiling, p: nat)
    requires Tiles(t) && p in t.blocks && p !in t.live && t.blocks[p] > 0
    ensures SameLive(t, Halved(t, p))
  {
    TilesHalved(t, p);
  }

  lemma {:induction false} SameLiveTwice(t: Tiling, t1: Tiling, t2: Tiling)
    requires SameLive(t, t1) && SameLive(t1, t2)
    ensures SameLive(t, t2)
  {
  }

  lemma {:induction false} HalvedLists(areas: seq<FreeArea>, areas': seq<FreeArea>, p: nat, c: nat)
    requires 0 < c < |areas| && areas' == HalveAreas(areas, c, p, Pow2(c - 1)) && areas[c].list != [] && areas[c].list[0] == p
    ensures areas'[c].list == areas[c].list[1..]
    ensures areas'[c - 1].list != []
    ensures areas[c - 1].list == [] ==> areas'[c - 1].list == [p + Pow2(c - 1), p]
    ensures forall j :: 0 <= j < |areas| && j != c && j != c - 1 ==> areas'[j] == areas[j]
  {
  }

  lemma {:induction false} SplitListsStep(areas: seq<FreeArea>, areas1: seq<FreeArea>, areas': seq<FreeArea>, p: nat, c: nat, k: nat)
    requires |areas| == |areas1| == |areas'| == MAX_ORDER && k < c < MAX_ORDER && areas[c].list != []
    requires areas1[c].list == areas[c].list[1..] && areas1[c - 1].list == [p + Pow2(c - 1), p]
    requires forall j :: 0 <= j < MAX_ORDER && j != c && j != c - 1 ==> areas1[j] == areas[j]
    requires SplitLists(areas1, areas', p + Pow2(c - 1), c - 1, k)
    ensures SplitLists(areas, areas', p, c, k)
  {
    assert Pow2(c) == 2 * Pow2(c - 1);
    forall j | 0 <= j < MAX_ORDER
      ensures areas'[j].list == SplitList(areas[j].list, p, c, k, j)
    {
      assert areas'[j].list == SplitList(areas1[j].list, p + Pow2(c - 1), c - 1, k, j);
    }
  }

  /** List j once the last piece has been taken: block p gone, and one lower half left at each
      order from k up to c. */
  function TakenList(list: seq<nat>, p: nat, c: nat, k: nat, j: nat): seq<int>
    requires k <= c
  {
    if j < k || c < j then list
    else if j == c then (if list == [] then [] else list[1..])
    else [p + Pow2(c) - Pow2(j + 1)]
  }

  ghost predicate TakenLists(areas: seq<FreeArea>, areas': seq<FreeArea>, p: nat, c: nat, k: nat)
    requires |areas| == |areas'| == MAX_ORDER && k <= c
  {
    forall j :: 0 <= j < MAX_ORDER ==> areas'[j].list == TakenList(areas[j].list, p, c, k, j)
  }

  lemma {:induction false} FirstPiece(areas: seq<FreeArea>, areas1: seq<FreeArea>, p: nat, c: nat, k: nat)
    requires |areas| == |areas1| == MAX_ORDER && k <= c < MAX_ORDER && areas[c].list != [] && areas[c].list[0] == p
    requires SplitLists(areas, areas1, p, c, k)
    ensures areas1[k].list != [] && areas1[k].list[0] == p + Pow2(c) - Pow2(k)
  {
    assert areas1[k].list == SplitList(areas[k].list, p, c, k, k);
  }

  lemma {:induction false} TakeLists(areas: seq<FreeArea>, areas1: seq<FreeArea>, p: nat, c: nat, k: nat, q: nat)
    requires |areas| == |areas1| == MAX_ORDER && k <= c < MAX_ORDER && areas[c].list != [] && areas1[k].list != []
    requires SplitLists(areas, areas1, p, c, k) && q == areas1[k].list[0]
    ensures TakenLists(areas, Unlist(areas1, k, q), p, c, k)
  {
    assert Remove(areas1[k].list, q) == areas1[k].list[1..];
    assert areas1[k].list == SplitList(areas[k].list, p, c, k, k);
  }

  lemma {:induction false} AllocFromTakes(z: Zone, c: nat, k: nat)
    requires k <= c && AllocFrom(z, c, k).Done?
    ensures SplitDown(z, c, k).Done?
    ensures var z1 := SplitDown(z, c, k).value;
      && k < |z1.areas| && z1.areas[k].list != [] && z1.areas[k].list[0] < |z1.pages|
      && AllocFrom(z, c, k).value == Allocation(Take(z1, k, z1.areas[k].list[0]), Some(z1.areas[k].list[0]))
  {
  }

  /** An allocation that finds a block of order c: the last Pow2(k) pages of the first one listed. */
  lemma {:induction false} AllocFromLists(z: Zone, p: nat, c: nat, k: nat)
    requires |z.areas| == MAX_ORDER && k <= c < MAX_ORDER && z.areas[c].list != [] && z.areas[c].list[0] == p
    requires forall j :: k <= j < c ==> z.areas[j].list == []
    requires AllocFrom(z, c, k).Done?
    ensures var a := AllocFrom(z, c, k).value;
      a.page == Some(p + Pow2(c) - Pow2(k)) && |a.zone.areas| == MAX_ORDER && TakenLists(z.areas, a.zone.areas, p, c, k)
  {
    AllocFromTakes(z, c, k);
    SplitDownLists(z, p, c, k);
    var areas1 := SplitDown(z, c, k).value.areas;
    FirstPiece(z.areas, areas1, p, c, k);
    TakeLists(z.areas, areas1, p, c, k, areas1[k].list[0]);
  }

  lemma {:induction false} AllocFromInv(z: Zone, t: Tiling, c: nat, k: nat) returns (t': Tiling)
    requires Inv(z, t) && k <= c < MAX_ORDER && z.areas[c].list != []
    ensures var o := AllocFrom(z, c, k);
      o.Done? && o.value.page.Some? && Inv(o.value.zone, t') && Handed(t, t', o.value.page.value, k)
  {
    var t1 := SplitDownInv(z, t, c, k);
    var z1 := SplitDown(z, c, k).value;
    TakeInv(z1, t1, k);
    var q := z1.areas[k].list[0];
    t' := t1.(live := t1.live + {q});
  }

  /** t' is t with a block of order k at p handed out that was free, whole or as part of one. */
  ghost predicate Handed(t: Tiling, t': Tiling, p: nat, k: nat) {
    && t'.lo == t.lo && t'.hi == t.hi && Block(t', p, k) && p !in t.live && t'.live == t.live + {p}
    && forall r :: r in t.live ==> r in t.blocks && r in t'.blocks && t'.blocks[r] == t.blocks[r]
  }

  lemma {:induction false} AllocCases(z: Zone, n: nat)
    requires |z.areas| == MAX_ORDER && n > 0
    ensures n > Pow2(MAX_ORDER - 1) ==> Alloc(z, n) == Done(Allocation(z, None))
    ensures n <= Pow2(MAX_ORDER - 1) ==> var k := OrderFrom(n, 0);
      && k < MAX_ORDER && n <= Pow2(k) < 2 * n && k <= ListedFrom(z, k)
      && Alloc(z, n) == if ListedFrom(z, k) == MAX_ORDER then Done(Allocation(z, None)) else AllocFrom(z, ListedFrom(z, k), k)
  {
    if n <= Pow2(MAX_ORDER - 1) {
      OrderFromSpec(n, 0);
      ListedFromSpec(z, OrderFrom(n, 0));
    }
  }

  /** Any allocation of n > 0 pages: it takes the least order k that holds n, from the least order
      c of a listed block, or fails exactly when there is none; and it keeps the invariant. */
  lemma {:induction false} AllocInv(z: Zone, t: Tiling, n: nat) returns (t': Tiling)
    requires Inv(z, t) && n > 0
    ensures var o := Alloc(z, n); var k := OrderFrom(n, 0);
      && o.Done? && Inv(o.value.zone, t')
      && (o.value.page == None <==> n > Pow2(MAX_ORDER - 1) || forall j :: k <= j < MAX_ORDER ==> z.areas[j].list == [])
      && (o.value.page == None ==> o.value.zone == z && t' == t)
      && (o.value.page.Some? ==>
            k < MAX_ORDER && n <= Pow2(k) < 2 * n && Handed(t, t', o.value.page.value, k)
            && var c := ListedFrom(z, k);
               && k <= c < MAX_ORDER && z.areas[c].list != [] && (forall j :: k <= j < c ==> z.areas[j].list == [])
               && o.value.page.value == z.areas[c].list[0] + Pow2(c) - Pow2(k)
               && TakenLists(z.areas, o.value.zone.areas, z.areas[c].list[0], c, k))
  {
    AllocCases(z, n);
    t' := t;
    if n <= Pow2(MAX_ORDER - 1) {
      var k := OrderFrom(n, 0);
      ListedFromSpec(z, k);
      var c := ListedFrom(z, k);
      if c < MAX_ORDER {
        t' := AllocFromInv(z, t, c, k);
        AllocFromLists(z, z.areas[c].list[0], c, k);
      }
    }
  }

  // ---------- Freeing ----------

  lemma {:induction false} ReleaseDescriptors(pages: seq<Page>, t: Tiling, base: nat, k: nat)
    requires Tiles(t) && Descriptors(pages, t, -1) && Block(t, base, k) && base in t.live
    requires forall i :: base <= i < base + Pow2(k) ==> !pages[i].head
    ensures base + Pow2(k) <= |pages|
    ensures Descriptors(Release(pages, base, Pow2(k)), t, base) && InHand(Release(pages, base, Pow2(k)), t, base, k)
  {
    assert End(t, base) <= t.hi;
    var pages' := Release(pages, base, Pow2(k));
    forall i | 0 <= i < |pages'| && pages'[i].head && i != base
      ensures Flagged(pages', t, i)
    {
      assert pages'[i] == pages[i] && Flagged(pages, t, i);
      if FreeHead(pages, t, i) {
        assert FreeHead(pages', t, i);
      } else {
        var w: nat, j: nat :| Stale(pages, t, i, w, j);
        assert Stale(pages', t, i, w, j);
      }
    }
    forall p | p in t.blocks && p !in t.live
      ensures p < |pages'| && FreeHead(pages', t, p)
    {
      assert FreeHead(pages, t, p) && p != base;
    }
  }

  /** Freeing a live block of order k: the list surgery is always sound; the assertion of line 198
      fails exactly when a page of the block carries a flag; otherwise the call merges. */
  lemma {:induction false} FreeInv(z: Zone, t: Tiling, base: nat, k: nat, flags: Flags) returns (t': Tiling)
    requires Inv(z, t) && Block(t, base, k) && base in t.live
    ensures base + Pow2(k) <= |z.pages|
    ensures Merged(Free(z, base, Pow2(k), flags), t, t', base)
    ensures (exists i :: base <= i < base + Pow2(k) && z.pages[i].head) ==> Free(z, base, Pow2(k), flags).Panic?
    ensures !(exists i :: base <= i < base + Pow2(k) && z.pages[i].head) ==>
      k < MAX_ORDER && Free(z, base, Pow2(k), flags) == Merge(z.(pages := Release(z.pages, base, Pow2(k))), k, base, flags)
  {
    assert End(t, base) <= t.hi;
    Pow2Mono(k, MAX_ORDER - 1);
    FreeCases(z, base, k, flags);
    t' := t;
    if forall i :: base <= i < base + Pow2(k) ==> !z.pages[i].head {
      ReleaseDescriptors(z.pages, t, base, k);
      t' := MergeInv(z.(pages := Release(z.pages, base, Pow2(k))), t, k, base, flags);
    }
  }

  lemma {:induction false} FreeCases(z: Zone, base: nat, k: nat, flags: Flags)
    requires |z.areas| == MAX_ORDER && k < MAX_ORDER && base + Pow2(k) <= |z.pages|
    ensures Free(z, base, Pow2(k), flags) ==
      if exists i :: base <= i < base + Pow2(k) && (z.pages[i].reserved || z.pages[i].head) then Panic
      else Merge(z.(pages := Release(z.pages, base, Pow2(k))), k, base, flags)
  {
    Log2Pow2(k);
    PowerOfTwoTest(Pow2(k));
    Pow2Mono(k, MAX_ORDER - 1);
  }
}
