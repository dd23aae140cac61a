/** Every step of the buddy allocator keeps the tiling invariant, stale flags and all. */
module BuddySafety {
  import opened Powers
  import opened Bits
  import opened Memlayout
  import opened BuddyModel
  import opened BuddyTiling

  /** The xor of physical addresses in merge_page flips one bit of the index. */
  lemma {:induction false} BuddyIsFlip(base: nat, k: nat)
    requires k < MAX_ORDER
    ensures BuddyIndex(base, k) == Flip(base, k) >= 0
  {
    hide Xor, Pow2, Bit;
    var a := base + NBASE;
    Constants();
    XorShift(a, Pow2(k), 12);
    XorFlips(a, k);
    PageOf(Flip(a, k));
    BitAdd(base, 19, k);
    FlipFlip(base, k);
  }

  lemma {:induction false} Constants()
    ensures Pow2(12) == PGSIZE && Pow2(19) == NBASE
  {
    assert Pow2(12) == PGSIZE;
  }

  lemma {:induction false} PageOf(x: int)
    ensures x * PGSIZE / PGSIZE == x
  {
  }

  lemma {:induction false} Pow2Injective(j: nat, k: nat)
    requires Pow2(j) == Pow2(k)
    ensures j == k
  {
    if j < k { Pow2Mono(j, k); }
    if k < j { Pow2Mono(k, j); }
  }

  // ---------- Splitting ----------

  /** A stale upper half of order k at distance d into a block of order c is either its middle or
      lies inside one half. */
  lemma {:induction false} StaleInHalf(d: nat, k: nat, c: nat)
    requires k < c && Aligned(d, k + 1) && d + 2 * Pow2(k) <= Pow2(c)
    ensures k == c - 1 ==> d == 0
    ensures k < c - 1 && d < Pow2(c - 1) ==> d + 2 * Pow2(k) <= Pow2(c - 1)
    ensures k < c - 1 && d >= Pow2(c - 1) ==> Aligned(d - Pow2(c - 1), k + 1)
  {
    if k < c - 1 {
      AlignedPow2(c - 1, k + 1);
      assert Pow2(k + 1) == 2 * Pow2(k);
      if d < Pow2(c - 1) {
        AlignedGap(d, Pow2(c - 1), k + 1);
      } else {
        AlignedSum(d, Pow2(c - 1), k + 1);
      }
    }
  }

  lemma {:induction false} HalveLists(areas: seq<FreeArea>, t: Tiling, order: nat, p: nat)
    requires Tiles(t) && Lists(areas, t) && 0 < order < MAX_ORDER && p in areas[order].list
    ensures FreeBlock(t, p, order)
    ensures Lists(HalveAreas(areas, order, p, Pow2(order - 1)), Halved(t, p))
  {
    assert FreeBlock(t, p, order);
    TilesHalved(t, p);
    var k := order - 1;
    var q := p + Pow2(k);
    var areas1 := Unlist(areas, order, p);
    var t1 := t.(live := t.live + {p});
    ListsUnlist(areas, t, order, p);
    var t2 := Halved(t1, p).(live := t1.live + {q});
    assert forall r, j :: FreeBlock(t2, r, j) <==> FreeBlock(t1, r, j);
    ListsSame(areas1, t1, t2);
    ListsPush(areas1, t2, k, p);
    var t3 := t2.(live := t2.live - {p});
    ListsPush(Push(areas1, k, p), t3, k, q);
    assert t3.(live := t3.live - {q}) == Halved(t, p);
  }

  lemma {:induction false} HalveDescriptors(pages: seq<Page>, t: Tiling, order: nat, p: nat)
    requires Tiles(t) && Descriptors(pages, t, -1) && 0 < order < MAX_ORDER && FreeBlock(t, p, order)
    ensures p + Pow2(order - 1) < |pages|
    ensures Descriptors(HalvePages(pages, p, Pow2(order - 1)), Halved(t, p), -1)
  {
    hide Complete, Disjoint, Stale;
    HalvedEnds(t, p);
    var k := order - 1;
    var q := p + Pow2(k);
    var pages', t' := HalvePages(pages, p, Pow2(k)), Halved(t, p);
    assert FreeHead(pages', t', p) && FreeHead(pages', t', q);
    forall i | 0 <= i < |pages'| && pages'[i].head && i != -1
      ensures Flagged(pages', t', i)
    {
      if i != p && i != q { HalveFlagged(pages, pages', t, p, i); }
    }
  }

  lemma {:induction false} HalveFlagged(pages: seq<Page>, pages': seq<Page>, t: Tiling, p: nat, i: nat)
    requires i < |pages| && Flagged(pages, t, i) && p in t.blocks && t.blocks[p] > 0
    requires i < |pages'| && pages'[i] == pages[i] && i != p && i != p + Pow2(t.blocks[p] - 1)
    requires p + Pow2(t.blocks[p] - 1) !in t.blocks
    ensures Flagged(pages', Halved(t, p), i)
  {
    if !FreeHead(pages, t, i) {
      var w, j :| Stale(pages, t, i, w, j);
      StaleKept(pages, pages', t, p, i, w, j);
    }
  }

  lemma {:induction false} StaleKept(pages: seq<Page>, pages': seq<Page>, t: Tiling, p: nat, i: nat, w: nat, j: nat)
    requires i < |pages| && Stale(pages, t, i, w, j) && p in t.blocks && t.blocks[p] > 0
    requires i < |pages'| && pages'[i] == pages[i] && i != p + Pow2(t.blocks[p] - 1)
    requires p + Pow2(t.blocks[p] - 1) !in t.blocks
    ensures Flagged(pages', Halved(t, p), i)
  {
    var q := p + Pow2(t.blocks[p] - 1);
    var t' := Halved(t, p);
    if w == p {
      StaleInHalf(i - p - Pow2(j), j, t.blocks[p]);
      assert End(t, p) == q + Pow2(t.blocks[p] - 1) && End(t', p) == q && End(t', q) == End(t, p);
      assert Stale(pages', t', i, if i < q then p else q, j);
    } else {
      assert End(t', w) == End(t, w);
      assert Stale(pages', t', i, w, j);
    }
  }

  lemma {:induction false} HalveInv(z: Zone, t: Tiling, order: nat)
    requires Inv(z, t) && 0 < order < MAX_ORDER && z.areas[order].list != []
    ensures var p := z.areas[order].list[0]; FreeBlock(t, p, order)
    ensures var z' := Halve(z, order); z'.Done? && Inv(z'.value, Halved(t, z.areas[order].list[0]))
  {
    var p := z.areas[order].list[0];
    assert p in z.areas[order].list;
    HalveLists(z.areas, t, order, p);
    HalveDescriptors(z.pages, t, order, p);
    TilesHalved(t, p);
  }

  // ---------- Taking a listed block ----------

  lemma {:induction false} TakeInv(z: Zone, t: Tiling, k: nat)
    requires Inv(z, t) && k < MAX_ORDER && z.areas[k].list != []
    ensures var p := z.areas[k].list[0];
      FreeBlock(t, p, k) && p < |z.pages| && Inv(Take(z, k, p), t.(live := t.live + {p}))
  {
    var p := z.areas[k].list[0];
    assert p in z.areas[k].list;
    assert FreeBlock(t, p, k);
    ListsUnlist(z.areas, t, k, p);
    var t' := t.(live := t.live + {p});
    TilesLive(t, t');
    DescriptorsSame(z.pages, SetHead(z.pages, p, false), t, t', -1, -1);
  }

  /** Which blocks are live makes no difference to the tiling. */
  lemma {:induction false} TilesLive(t: Tiling, t': Tiling)
    requires Tiles(t) && t' == t.(live := t'.live) && t'.live <= t.blocks.Keys
    ensures Tiles(t')
  {
    forall i | t.lo <= i < t.hi
      ensures Covered(t', i)
    {
      assert Covered(t, i);
      var r :| Covers(t, r, i);
      assert Covers(t', r, i);
    }
  }

  /** The descriptors stay right when blocks change hands and flags are only cleared. */
  lemma {:induction false} DescriptorsSame(pages: seq<Page>, pages': seq<Page>, t: Tiling, t': Tiling, hand: int, hand': int)
    requires Descriptors(pages, t, hand) && t' == t.(live := t'.live) && |pages'| == |pages|
    requires forall i :: 0 <= i < |pages| ==> pages'[i].property == pages[i].property && (pages'[i].reserved ==> pages[i].reserved)
    requires forall i :: 0 <= i < |pages| && pages'[i].head && i != hand' ==>
      (pages[i].head && i != hand && (i in t'.live ==> i in t.live)) || FreeHead(pages', t', i)
    requires forall p :: p in t'.blocks && p !in t'.live ==> p < |pages'| && FreeHead(pages', t', p)
    ensures Descriptors(pages', t', hand')
  {
    forall i | 0 <= i < |pages'| && pages'[i].head && i != hand'
      ensures Flagged(pages', t', i)
    {
      if !FreeHead(pages', t', i) {
        assert Flagged(pages, t, i) && !FreeHead(pages, t, i);
        var w, j :| Stale(pages, t, i, w, j);
        assert End(t', w) == End(t, w);
        assert Stale(pages', t', i, w, j);
      }
    }
  }

  // ---------- Freeing ----------

  /** The heart of the matter: a buddy that passes the test of line 163 is a free block of that
      order.  A stale flag cannot pass: its lower neighbour is inside the same block. */
  lemma {:induction false} BuddyIsFree(pages: seq<Page>, t: Tiling, base: nat, k: nat, q: nat)
    requires Tiles(t) && Descriptors(pages, t, base) && InHand(pages, t, base, k)
    requires k < MAX_ORDER && q == Flip(base, k) && q < |pages|
    requires pages[q].property == Pow2(k) && pages[q].head
    ensures FreeBlock(t, q, k)
  {
    FlipFlip(base, k);
    assert Flagged(pages, t, q);
    if FreeHead(pages, t, q) {
      Pow2Injective(k, t.blocks[q]);
    } else {
      var w: nat, j: nat :| Stale(pages, t, q, w, j);
      Pow2Injective(j, k);
      assert false;
    }
  }

  /** What one merging step leaves in hand. */
  lemma {:induction false} JoinLists(areas: seq<FreeArea>, t: Tiling, base: nat, k: nat, q: nat, low: nat, high: nat)
    requires Tiles(t) && Lists(areas, t) && k + 1 < MAX_ORDER
    requires Block(t, base, k) && base in t.live && FreeBlock(t, q, k) && q in areas[k].list
    requires low == (if q < base then q else base) && high == if q < base then base else q
    ensures Lists(Unlist(areas, k, q), Joined(t, low, high))
  {
    var t1 := t.(live := t.live + {q});
    ListsUnlist(areas, t, k, q);
    ListsSame(Unlist(areas, k, q), t1, Joined(t, low, high));
  }

  lemma {:induction false} JoinPagesAt(pages: seq<Page>, base: nat, q: nat, size: nat, flags: Flags, low: nat)
    requires base < |pages| && q < |pages| && low == if q < base then q else base
    ensures var pages' := JoinPages(pages, base, q, size, flags);
      && |pages'| == |pages| && pages'[low].property == size
      && (forall i :: 0 <= i < |pages| ==> pages'[i].reserved == pages[i].reserved)
      && (forall i :: 0 <= i < |pages| && i != low ==> pages'[i].property == pages[i].property)
      && (forall i :: 0 <= i < |pages| && i != low && pages'[i].head ==> pages[i].head && i != q)
  {
  }

  lemma {:induction false} JoinDescriptors(pages: seq<Page>, t: Tiling, base: nat, k: nat, q: nat, low: nat, high: nat, flags: Flags)
    requires Tiles(t) && Descriptors(pages, t, base) && InHand(pages, t, base, k) && k + 1 < MAX_ORDER
    requires q == Flip(base, k) && q < |pages| && FreeBlock(t, q, k)
    requires low == (if q < base then q else base) && high == if q < base then base else q
    ensures Descriptors(JoinPages(pages, base, q, 2 * Pow2(k), flags), Joined(t, low, high), low)
    ensures InHand(JoinPages(pages, base, q, 2 * Pow2(k), flags), Joined(t, low, high), low, k + 1)
  {
    var pages', t' := JoinPages(pages, base, q, 2 * Pow2(k), flags), Joined(t, low, high);
    FlipFlip(base, k);
    JoinPagesAt(pages, base, q, 2 * Pow2(k), flags, low);
    JoinFreeHeads(pages, pages', t, k, low, high);
    forall i | 0 <= i < |pages'| && pages'[i].head && i != low
      ensures Flagged(pages', t', i)
    {
      if i == base {
        BaseAbsorbed(pages', t, k, low, high);
      } else {
        FlagAbsorbed(pages, pages', t, k, low, high, i);
      }
    }
  }

  lemma {:induction false} JoinFreeHeads(pages: seq<Page>, pages': seq<Page>, t: Tiling, k: nat, low: nat, high: nat)
    requires Block(t, low, k) && Block(t, high, k) && low != high && |pages'| == |pages|
    requires forall p :: p in t.blocks && p !in t.live ==> p < |pages| && FreeHead(pages, t, p)
    requires forall i :: 0 <= i < |pages| && i != low ==> pages'[i].property == pages[i].property
    ensures var t' := Joined(t, low, high);
      forall p :: p in t'.blocks && p !in t'.live ==> p < |pages'| && FreeHead(pages', t', p)
  {
  }

  /** Where the stale flags come from: a freed upper half keeps its flag. */
  lemma {:induction false} BaseAbsorbed(pages': seq<Page>, t: Tiling, k: nat, low: nat, high: nat)
    requires Block(t, low, k) && Block(t, high, k) && high == low + Pow2(k) && Bit(high, k) == 1
    requires high < |pages'| && pages'[high].property == Pow2(k)
    ensures Flagged(pages', Joined(t, low, high), high)
  {
    AlignedZero(k + 1);
    assert Stale(pages', Joined(t, low, high), high, low, k);
  }

  lemma {:induction false} FlagAbsorbed(pages: seq<Page>, pages': seq<Page>, t: Tiling, k: nat, low: nat, high: nat, i: nat)
    requires i < |pages| && Flagged(pages, t, i) && i != low && i != high
    requires i < |pages'| && pages'[i].property == pages[i].property
    requires Block(t, low, k) && Block(t, high, k) && high == low + Pow2(k)
    ensures Flagged(pages', Joined(t, low, high), i)
  {
    if FreeHead(pages, t, i) {
      assert FreeHead(pages', Joined(t, low, high), i);
    } else {
      var w: nat, j: nat :| Stale(pages, t, i, w, j);
      StaleAbsorbed(pages, pages', t, k, low, high, i, w, j);
    }
  }

  lemma {:induction false} StaleAbsorbed(pages: seq<Page>, pages': seq<Page>, t: Tiling, k: nat, low: nat, high: nat, i: nat, w: nat, j: nat)
    requires i < |pages| && Stale(pages, t, i, w, j)
    requires i < |pages'| && pages'[i].property == pages[i].property
    requires Block(t, low, k) && Block(t, high, k) && high == low + Pow2(k)
    ensures Flagged(pages', Joined(t, low, high), i)
  {
    var t' := Joined(t, low, high);
    assert End(t', low) == End(t, high) == high + Pow2(k);
    if w == high {
      AlignedPow2(k, j + 1);
      AlignedSum(i - w - Pow2(j), Pow2(k), j + 1);
      assert i - low - Pow2(j) == i - w - Pow2(j) + Pow2(k);
      assert Stale(pages', t', i, low, j);
    } else {
      assert Stale(pages', t', i, w, j);
    }
  }

  lemma {:induction false} AlignedZero(k: nat)
    ensures Aligned(0, k)
  {
    if k > 0 { AlignedZero(k - 1); }
  }

  /** The invariant but for the block at base, which is being freed. */
  ghost predicate Handing(z: Zone, t: Tiling, base: nat, k: nat) {
    && |z.areas| == MAX_ORDER && k < MAX_ORDER
    && Tiles(t) && Lists(z.areas, t) && Descriptors(z.pages, t, base) && InHand(z.pages, t, base, k)
  }

  lemma {:induction false} AddInv(z: Zone, t: Tiling, base: nat, k: nat, flags: Flags)
    requires Handing(z, t, base, k)
    ensures k < MAX_ORDER && Inv(AddPage(z, k, base, flags), t.(live := t.live - {base}))
  {
    ListsPush(z.areas, t, k, base);
    var t' := t.(live := t.live - {base});
    TilesLive(t, t');
    DescriptorsSame(z.pages, AddPage(z, k, base, flags).pages, t, t', base, -1);
  }

  /** t' is t with the live block at base given back. */
  ghost predicate Returned(t: Tiling, t': Tiling, base: nat) {
    && t'.lo == t.lo && t'.hi == t.hi && t'.live == t.live - {base}
    && forall p :: p in t'.live ==> p in t.blocks && p in t'.blocks && t'.blocks[p] == t.blocks[p]
  }

  /** What merging the block at base may come to: a panic, or every block tiled again. */
  ghost predicate Merged(o: Outcome<Zone>, t: Tiling, t': Tiling, base: nat) {
    !o.Wild? && (o.Done? ==> Inv(o.value, t') && Returned(t, t', base))
  }

  /** Whether the test of line 163 lets the block at base merge with its buddy. */
  predicate Passes(pages: seq<Page>, k: nat, base: nat) {
    && k < MAX_ORDER - 1 && 0 <= Flip(base, k) < |pages|
    && pages[Flip(base, k)].property == Pow2(k) && pages[Flip(base, k)].head
  }

  /** Where merging from order k stops, read off the descriptors: the lowest page and the order of the
      first block on the way up whose buddy fails the test, or that is of the top order. */
  function StopAt(pages: seq<Page>, k: nat, base: nat): (r: (nat, nat))
    requires k < MAX_ORDER
    ensures k <= r.1 < MAX_ORDER && !Passes(pages, r.1, r.0)
    decreases MAX_ORDER - k
  {
    if !Passes(pages, k, base) then (base, k)
    else StopAt(pages, k + 1, if Flip(base, k) < base then Flip(base, k) else base)
  }

  ghost predicate AgreeOutside(pages: seq<Page>, pages': seq<Page>, base: nat, k: nat) {
    |pages'| == |pages| && forall i: nat :: i < |pages| && !(base <= i < base + Pow2(k)) ==> pages'[i] == pages[i]
  }

  /** The descriptors of the block in hand have no part in it. */
  lemma {:induction false} StopAgrees(pages: seq<Page>, pages': seq<Page>, k: nat, base: nat)
    requires k < MAX_ORDER && AgreeOutside(pages, pages', base, k)
    ensures StopAt(pages', k, base) == StopAt(pages, k, base)
    decreases MAX_ORDER - k
  {
    FlipFlip(base, k);
    if Passes(pages, k, base) {
      StopAgrees(pages, pages', k + 1, if Flip(base, k) < base then Flip(base, k) else base);
    }
  }

  /** Joining with the buddy changes descriptors of the joined block only. */
  lemma {:induction false} JoinStops(z: Zone, k: nat, base: nat, q: nat, flags: Flags)
    requires k < MAX_ORDER == |z.areas| && base < |z.pages| && Passes(z.pages, k, base) && q == Flip(base, k)
    ensures |Join(z, k, base, q, flags).pages| == |z.pages|
    ensures StopAt(Join(z, k, base, q, flags).pages, k + 1, if q < base then q else base) == StopAt(z.pages, k, base)
  {
    FlipFlip(base, k);
    var low := if q < base then q else base;
    assert AgreeOutside(z.pages, Join(z, k, base, q, flags).pages, low, k + 1);
    StopAgrees(z.pages, Join(z, k, base, q, flags).pages, k + 1, low);
  }

  lemma {:induction false} MergeStops(z: Zone, t: Tiling, k: nat, base: nat, flags: Flags)
    requires Handing(z, t, base, k)
    requires k < MAX_ORDER && !Passes(z.pages, k, base)
    ensures Merged(Merge(z, k, base, flags), t, t.(live := t.live - {base}), base)
  {
    AddInv(z, t, base, k, flags);
    BuddyIsFlip(base, k);
    var m := Merge(z, k, base, flags);
    assert m.Panic? || m == Done(AddPage(z, k, base, flags));
  }

  /** Merging never unlinks a page that is not listed, and ends with every block tiled again: the
      block in hand has become free, the other live blocks are as they were. */
  lemma {:induction false} MergeInv(z: Zone, t: Tiling, k: nat, base: nat, flags: Flags) returns (t': Tiling)
    requires Handing(z, t, base, k)
    ensures k < MAX_ORDER && Merged(Merge(z, k, base, flags), t, t', base)
    decreases MAX_ORDER - k, 1
  {
    if Passes(z.pages, k, base) {
      t' := MergeStep(z, t, k, base, Flip(base, k), flags);
      BuddyIsFlip(base, k);
    } else {
      MergeStops(z, t, k, base, flags);
      t' := t.(live := t.live - {base});
    }
  }

  /** One step of merging: the buddy is on its list, and the joined block is in hand. */
  lemma {:induction false} JoinHand(z: Zone, t: Tiling, k: nat, base: nat, q: nat, low: nat, high: nat, flags: Flags)
    requires Handing(z, t, base, k) && Passes(z.pages, k, base) && q == Flip(base, k)
    requires low == (if q < base then q else base) && high == if q < base then base else q
    ensures FreeBlock(t, q, k) && q in z.areas[k].list && high == low + Pow2(k)
    ensures Handing(Join(z, k, base, q, flags), Joined(t, low, high), low, k + 1)
  {
    BuddyIsFree(z.pages, t, base, k, q);
    FlipFlip(base, k);
    JoinLists(z.areas, t, base, k, q, low, high);
    JoinDescriptors(z.pages, t, base, k, q, low, high, flags);
    TilesJoined(t, low, high, k);
  }

  /** Merging, case by case. */
  lemma {:induction false} MergeCases(z: Zone, t: Tiling, k: nat, base: nat, flags: Flags, o: Outcome<Zone>)
    requires Handing(z, t, base, k) && k < MAX_ORDER && o == Merge(z, k, base, flags)
    ensures Passes(z.pages, k, base) ==> var q := Flip(base, k);
      o == Merge(Join(z, k, base, q, flags), k + 1, if q < base then q else base, flags)
    ensures !Passes(z.pages, k, base) ==> o.Panic? || o == Done(AddPage(z, k, base, flags))
  {
    BuddyIsFlip(base, k);
    if Passes(z.pages, k, base) {
      var q := Flip(base, k);
      JoinHand(z, t, k, base, q, if q < base then q else base, if q < base then base else q, flags);
    }
  }

  lemma {:induction false} MergeStep(z: Zone, t: Tiling, k: nat, base: nat, q: nat, flags: Flags) returns (t': Tiling)
    requires Handing(z, t, base, k) && Passes(z.pages, k, base) && q == Flip(base, k)
    ensures q in z.areas[k].list
    ensures Merged(Merge(Join(z, k, base, q, flags), k + 1, if q < base then q else base, flags), t, t', base)
    decreases MAX_ORDER - k, 0
  {
    var low, high := (if q < base then q else base), if q < base then base else q;
    JoinHand(z, t, k, base, q, low, high, flags);
    t' := MergeInv(Join(z, k, base, q, flags), Joined(t, low, high), k + 1, low, flags);
    MergedJoined(Merge(Join(z, k, base, q, flags), k + 1, low, flags), t, t', base, low, high);
  }

  lemma {:induction false} MergedJoined(o: Outcome<Zone>, t: Tiling, t': Tiling, base: nat, low: nat, high: nat)
    requires low in t.blocks && high in t.blocks && low != high && base in t.live
    requires base == (if high in t.live then high else low) && (low in t.live <==> high !in t.live)
    requires Merged(o, Joined(t, low, high), t', low)
    ensures Merged(o, t, t', base)
  {
  }
}
