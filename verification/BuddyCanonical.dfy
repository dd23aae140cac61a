/** The coalescing theorems: exactly when a return panics; every run with the flags kept right stays
    coalesced; and exactly when returning everything restores the initial lists, whatever was called in
    which order. */
module BuddyCanonical {
  import opened Powers
  import opened Bits
  import opened Memlayout
  import opened BuddyModel
  import opened BuddyTiling
  import opened BuddySafety
  import opened BuddySteps
  import opened BuddyRuns
  import opened BuddyCoalesce
  import opened BuddyCount
  import opened BuddyGrid

  // ---------- The array of descriptors ----------

  lemma {:induction false} SplitDownLength(z: Zone, t: Tiling, c: nat, k: nat)
    requires Inv(z, t) && k <= c < MAX_ORDER && z.areas[c].list != []
    ensures SplitDown(z, c, k).Done? && |SplitDown(z, c, k).value.pages| == |z.pages|
    decreases c - k
  {
    if k < c {
      HalveInv(z, t, c);
      SplitDownOnce(z, c, k);
      var z1 := Halve(z, c).value;
      HalvedLists(z.areas, z1.areas, z.areas[c].list[0], c);
      SplitDownLength(z1, Halved(t, z.areas[c].list[0]), c - 1, k);
    }
  }

  lemma {:induction false} AllocLength(z: Zone, t: Tiling, n: nat)
    requires Inv(z, t) && n > 0
    ensures Alloc(z, n).Done? && |Alloc(z, n).value.zone.pages| == |z.pages|
  {
    AllocCases(z, n);
    var t' := AllocInv(z, t, n);
    if Alloc(z, n).value.page.Some? {
      var k := OrderFrom(n, 0);
      SplitDownLength(z, t, ListedFrom(z, k), k);
    }
  }

  lemma {:induction false} MergeLength(z: Zone, k: nat, base: nat, flags: Flags)
    requires k < MAX_ORDER == |z.areas| && base < |z.pages|
    ensures Merge(z, k, base, flags).Done? ==> |Merge(z, k, base, flags).value.pages| == |z.pages|
    decreases MAX_ORDER - k
  {
    if k < TOP {
      var q := BuddyIndex(base, k);
      if 0 <= q < |z.pages| && z.pages[q].property == Pow2(k) && z.pages[q].head && q in z.areas[k].list {
        MergeLength(Join(z, k, base, q, flags), k + 1, if q < base then q else base, flags);
      }
    }
  }

  /** In an array of descriptors whose length is a multiple of 1024, every buddy has a descriptor. */
  lemma {:induction false} FlipInArray(base: nat, k: nat, n: nat)
    requires base < n && Aligned(n, k + 1)
    ensures Flip(base, k) < n
  {
    if k == 0 {
      assert n % 2 == 0;
    } else {
      assert n == 2 * (n / 2);
      FlipInArray(base / 2, k - 1, n / 2);
    }
  }

  lemma {:induction false} StopInArray(pages: seq<Page>, k: nat, base: nat)
    requires k < MAX_ORDER && base < |pages| && Aligned(|pages|, TOP)
    ensures var (w, j) := StopAt(pages, k, base); j < TOP ==> Flip(w, j) < |pages|
    decreases MAX_ORDER - k
  {
    if k < TOP {
      AlignedDown(|pages|, TOP, k + 1);
      FlipInArray(base, k, |pages|);
      if Passes(pages, k, base) { StopInArray(pages, k + 1, if Flip(base, k) < base then Flip(base, k) else base); }
    }
  }

  /** Merging panics exactly when the first buddy on the way up that fails the test has no descriptor:
      pa2page panics there. */
  lemma {:induction false} MergePanicsIff(z: Zone, t: Tiling, k: nat, base: nat, flags: Flags, o: Outcome<Zone>)
    requires Handing(z, t, base, k) && k < MAX_ORDER && o == Merge(z, k, base, flags)
    ensures var (w, j) := StopAt(z.pages, k, base);
      o.Panic? <==> j < TOP && Flip(w, j) >= |z.pages|
    decreases MAX_ORDER - k
  {
    hide Tiles, Lists, Descriptors, Join, Merge;
    MergeCases(z, t, k, base, flags, o);
    if Passes(z.pages, k, base) {
      var q := Flip(base, k);
      var low, high := (if q < base then q else base), if q < base then base else q;
      JoinHand(z, t, k, base, q, low, high, flags);
      JoinStops(z, k, base, q, flags);
      MergePanicsIff(Join(z, k, base, q, flags), Joined(t, low, high), k + 1, low, flags, o);
    } else {
      StopPanicsIff(z, k, base, flags);
    }
  }

  lemma {:induction false} StopPanicsIff(z: Zone, k: nat, base: nat, flags: Flags)
    requires k < MAX_ORDER == |z.areas| && base < |z.pages| && !Passes(z.pages, k, base)
    ensures Merge(z, k, base, flags).Panic? <==> k < TOP && Flip(base, k) >= |z.pages|
  {
    BuddyIsFlip(base, k);
  }

  /** When freeing the block of order k at base panics: a page in it still carries a flag, or merging
      comes to a buddy past the descriptors. */
  ghost predicate Halts(pages: seq<Page>, base: nat, k: nat)
    requires k < MAX_ORDER
  {
    var (w, j) := StopAt(pages, k, base);
    (exists x :: base <= x < base + Pow2(k) && x < |pages| && pages[x].head) || (j < TOP && Flip(w, j) >= |pages|)
  }

  lemma {:induction false} FreePanicsIff(z: Zone, t: Tiling, base: nat, k: nat, flags: Flags)
    requires Inv(z, t) && Block(t, base, k) && base in t.live
    ensures k < MAX_ORDER
    ensures Free(z, base, Pow2(k), flags).Panic? <==> Halts(z.pages, base, k)
  {
    assert k < MAX_ORDER;
    hide Tiles, Lists, Merge, StopAt, Descriptors, Free, Release;
    var t' := FreeInv(z, t, base, k, flags);
    if !(exists i :: base <= i < base + Pow2(k) && z.pages[i].head) {
      ReleaseDescriptors(z.pages, t, base, k);
      ReleaseAgrees(z.pages, base, k);
      var z1 := z.(pages := Release(z.pages, base, Pow2(k)));
      assert Handing(z1, t, base, k);
      StopAgrees(z.pages, z1.pages, k, base);
      MergePanicsIff(z1, t, k, base, flags, Free(z, base, Pow2(k), flags));
    }
  }

  lemma {:induction false} ReleaseAgrees(pages: seq<Page>, base: nat, k: nat)
    requires base + Pow2(k) <= |pages|
    ensures AgreeOutside(pages, Release(pages, base, Pow2(k)), base, k)
  {
  }

  /** Exactly when returning a block panics, in whatever state and with either flags. */
  lemma {:induction false} ReturnPanicsIff(c: Config, t: Tiling, i: nat, flags: Flags)
    requires Good(c, t) && i < |c.leases|
    ensures c.leases[i].order < MAX_ORDER
    ensures Step(c, Return(i), flags).Panic? <==> Halts(c.zone.pages, c.leases[i].page, c.leases[i].order)
  {
    var l := c.leases[i];
    assert l in c.leases && |c.zone.areas| == MAX_ORDER;
    hide Tiles, Lists, Descriptors, Free, Halts;
    FreePanicsIff(c.zone, t, l.page, l.order, flags);
  }

  // ---------- Runs with the flags kept right ----------

  /** The state of a run with the flags kept right: they are at the heads of free blocks only, and no
      two free buddies are side by side. */
  ghost predicate Tidy(c: Config, t: Tiling) {
    Good(c, t) && Coalesced(c.zone, -1)
  }

  lemma {:induction false} StepTidy(c: Config, t: Tiling, op: Op) returns (t': Tiling)
    requires Tidy(c, t) && (op.Ask? ==> op.n > 0)
    ensures var o := Step(c, op, Kept);
      && !o.Wild? && (Aligned(|c.zone.pages|, TOP) ==> o.Done?)
      && (o.Done? ==> Tidy(o.value, t') && t'.lo == t.lo && t'.hi == t.hi && |o.value.zone.pages| == |c.zone.pages|)
  {
    t' := StepGood(c, t, op, Kept);
    match op
    case Ask(n) =>
      AllocCoalesced(c.zone, t, n);
      AllocLength(c.zone, t, n);
    case Return(i) =>
      if i < |c.leases| {
        var l := c.leases[i];
        assert l in c.leases;
        FreeCoalesced(c.zone, t, l.page, l.order);
        LiveUnflagged(c.zone, t, l.page, l.order);
        ReturnPanicsIff(c, t, i, Kept);
        if Aligned(|c.zone.pages|, TOP) { StopInArray(c.zone.pages, l.order, l.page); }
        FreeLength(c.zone, t, l.page, l.order, Kept);
      }
  }

  lemma {:induction false} FreeLength(z: Zone, t: Tiling, base: nat, k: nat, flags: Flags)
    requires Inv(z, t) && Block(t, base, k) && base in t.live
    ensures Free(z, base, Pow2(k), flags).Done? ==> |Free(z, base, Pow2(k), flags).value.pages| == |z.pages|
  {
    var t' := FreeInv(z, t, base, k, flags);
    if !(exists i :: base <= i < base + Pow2(k) && z.pages[i].head) {
      MergeLength(z.(pages := Release(z.pages, base, Pow2(k))), k, base, flags);
    }
  }

  /** No run ever leaves two free buddies, wherever the region starts; and no run panics, if there are
      descriptors for a multiple of 1024 pages. */
  lemma {:induction false} RunTidy(c: Config, t: Tiling, ops: seq<Op>) returns (t': Tiling)
    requires Tidy(c, t) && forall op :: op in ops && op.Ask? ==> op.n > 0
    ensures var o := Run(c, ops, Kept);
      && !o.Wild? && (Aligned(|c.zone.pages|, TOP) ==> o.Done?)
      && (o.Done? ==> Tidy(o.value, t') && t'.lo == t.lo && t'.hi == t.hi)
    decreases |ops|
  {
    t' := t;
    if ops != [] {
      assert ops[0] in ops;
      t' := StepTidy(c, t, ops[0]);
      if Step(c, ops[0], Kept).Done? { t' := RunTidy(Step(c, ops[0], Kept).value, t', ops[1..]); }
    }
  }

  // ---------- The free pages determine the lists ----------

  ghost predicate FreeIn(areas: seq<FreeArea>, k: nat, p: nat, i: nat) {
    k < |areas| && p in areas[k].list && p <= i < p + Pow2(k)
  }

  ghost predicate FreeAt(areas: seq<FreeArea>, i: nat) {
    exists k, p :: FreeIn(areas, k, p, i)
  }

  /** An aligned run of free pages lies in one listed block. */
  lemma {:induction false} RunIsListed(areas: seq<FreeArea>, k: nat, p: nat) returns (c: nat, w: nat)
    requires |areas| == MAX_ORDER && OnGrid(areas) && NoBuddies(areas) && k <= TOP && Aligned(p, k)
    requires forall i :: p <= i < p + Pow2(k) ==> FreeAt(areas, i)
    ensures k <= c <= TOP && w in areas[c].list && w <= p && p + Pow2(k) <= w + Pow2(c)
  {
    if k == 0 {
      assert FreeAt(areas, p);
      c, w :| FreeIn(areas, c, w, p);
    } else {
      var h := Pow2(k - 1);
      AlignedDown(p, k, k - 1);
      AlignedPow2(k - 1, k - 1);
      AlignedSum(p, h, k - 1);
      AlignedBit(p, k - 1);
      assert Flip(p, k - 1) == p + h;
      c, w := RunIsListed(areas, k - 1, p);
      if c >= k {
        Nested(p, k, w, c, p);
      } else {
        var c2, w2 := RunIsListed(areas, k - 1, p + h);
        if c2 >= k {
          Nested(p, k, w2, c2, p + h);
          c, w := c2, w2;
        } else {
          assert false;
        }
      }
    }
  }

  /** Aligned blocks that share a page are nested. */
  lemma {:induction false} Nested(p: nat, k: nat, w: nat, c: nat, i: nat)
    requires k <= c && Aligned(p, k) && Aligned(w, c) && p <= i < p + Pow2(k) && w <= i < w + Pow2(c)
    ensures w <= p && p + Pow2(k) <= w + Pow2(c)
  {
    AlignedDown(w, c, k);
    AlignedPow2(c, k);
    AlignedSum(w, Pow2(c), k);
    if p < w { AlignedGap(p, w, k); }
    AlignedGap(p, w + Pow2(c), k);
  }

  lemma {:induction false} SameFreePages(areas1: seq<FreeArea>, t1: Tiling, areas2: seq<FreeArea>, k: nat, p: nat)
    requires Tiles(t1) && Lists(areas1, t1) && |areas2| == MAX_ORDER
    requires OnGrid(areas1) && NoBuddies(areas1) && OnGrid(areas2) && NoBuddies(areas2)
    requires forall i :: FreeAt(areas1, i) <==> FreeAt(areas2, i)
    requires k < MAX_ORDER && p in areas1[k].list
    ensures p in areas2[k].list
  {
    forall i | p <= i < p + Pow2(k)
      ensures FreeAt(areas2, i)
    {
      assert FreeIn(areas1, k, p, i);
    }
    var c, w := RunIsListed(areas2, k, p);
    forall i | w <= i < w + Pow2(c)
      ensures FreeAt(areas1, i)
    {
      assert FreeIn(areas2, c, w, i);
    }
    var c1, w1 := RunIsListed(areas1, c, w);
    assert FreeBlock(t1, w1, c1) && FreeBlock(t1, p, k);
    assert w1 <= p < End(t1, w1);
    assert w1 == p && c1 == k;
  }

  /** The free pages are those of the region that are in no block held. */
  lemma {:induction false} FreeAtIff(c: Config, t: Tiling, i: nat)
    requires Good(c, t)
    ensures FreeAt(c.zone.areas, i) <==>
      t.lo <= i < t.hi && forall l :: l in c.leases ==> !(l.page <= i < l.page + Pow2(l.order))
  {
    if FreeAt(c.zone.areas, i) {
      var k: nat, p: nat :| FreeIn(c.zone.areas, k, p, i);
      assert FreeBlock(t, p, k) && End(t, p) == p + Pow2(k);
      forall l | l in c.leases
        ensures !(l.page <= i < l.page + Pow2(l.order))
      {
        assert End(t, l.page) == l.page + Pow2(l.order) && l.page != p;
      }
    }
    if t.lo <= i < t.hi {
      assert Covered(t, i);
      var p :| Covers(t, p, i);
      if p in t.live {
        var l :| l in c.leases && l.page == p;
        assert l.page <= i < l.page + Pow2(l.order);
      } else {
        assert FreeBlock(t, p, t.blocks[p]);
        assert FreeIn(c.zone.areas, t.blocks[p], p, i);
      }
    }
  }

  /** Two tidy states of a region, on the grid, in which callers hold the same blocks have the same free
      lists, as sets.  In particular the order of calls does not matter. */
  lemma {:induction false} LeasesDetermineLists(c1: Config, t1: Tiling, c2: Config, t2: Tiling)
    requires Tidy(c1, t1) && Tidy(c2, t2) && t1.lo == t2.lo && t1.hi == t2.hi && Gridded(c1) && Gridded(c2)
    requires forall l :: l in c1.leases <==> l in c2.leases
    ensures forall k, p :: 0 <= k < MAX_ORDER ==> (p in c1.zone.areas[k].list <==> p in c2.zone.areas[k].list)
  {
    forall i: nat
      ensures FreeAt(c1.zone.areas, i) <==> FreeAt(c2.zone.areas, i)
    {
      FreeAtIff(c1, t1, i);
      FreeAtIff(c2, t2, i);
    }
    forall k, p | 0 <= k < MAX_ORDER
      ensures p in c1.zone.areas[k].list <==> p in c2.zone.areas[k].list
    {
      if p in c1.zone.areas[k].list { SameFreePages(c1.zone.areas, t1, c2.zone.areas, k, p); }
      if p in c2.zone.areas[k].list { SameFreePages(c2.zone.areas, t2, c1.zone.areas, k, p); }
    }
  }

  // ---------- Returning everything ----------

  ghost predicate SameLists(areas: seq<FreeArea>, areas': seq<FreeArea>) {
    |areas| == |areas'| && forall k, p :: 0 <= k < |areas| ==> (p in areas[k].list <==> p in areas'[k].list)
  }

  /** If these calls from boot go through and end with everything returned, the lists are the initial
      ones. */
  ghost predicate Restores(pages: seq<Page>, base: nat, n: nat, ops: seq<Op>) {
    var o := InitMemmap(Zone(pages, EmptyAreas()), base, n);
    && o.Done?
    && var r := Run(Config(o.value, []), ops, Kept);
    && (r.Done? && r.value.leases == [] ==> SameLists(o.value.areas, r.value.zone.areas))
  }

  ghost predicate Asks(ops: seq<Op>) {
    forall op :: op in ops && op.Ask? ==> op.n > 0
  }

  lemma {:induction false} ReturningAllRestores(pages: seq<Page>, base: nat, n: nat, ops: seq<Op>)
    requires AtBoot(pages) && 0 < n && base + n <= |pages| && Aligned(base, BlockOrder(n)) && Asks(ops)
    ensures Restores(pages, base, n, ops)
  {
    hide Coalesced, OnGrid, BlockOrder;
    var t := InitInv(pages, base, n);
    InitCoalesced(pages, base, n);
    InitOnGridIff(pages, base, n);
    var c := Config(InitMemmap(Zone(pages, EmptyAreas()), base, n).value, []);
    var t' := RunTidy(c, t, ops);
    var r := Run(c, ops, Kept);
    if r.Done? && r.value.leases == [] {
      RunOnGrid(c, t, ops, Kept);
      LeasesDetermineLists(r.value, t', c, t);
    }
  }

  lemma {:induction false} RunConcat(c: Config, a: seq<Op>, b: seq<Op>, flags: Flags)
    requires Run(c, a, flags).Done?
    ensures Run(c, a + b, flags) == Run(Run(c, a, flags).value, b, flags)
    decreases |a|
  {
    if a == [] {
      assert a + b == b;
    } else {
      assert (a + b)[0] == a[0] && (a + b)[1..] == a[1..] + b;
      RunConcat(Step(c, a[0], flags).value, a[1..], b, flags);
    }
  }

  /** The count is zero exactly when nothing is listed. */
  lemma {:induction false} NoneListed(areas: seq<FreeArea>, k: nat, t: Tiling)
    requires Lists(areas, t) && k <= MAX_ORDER
    ensures NrFreePages(areas, k) >= 0
    ensures NrFreePages(areas, k) == 0 <==> forall j :: 0 <= j < k ==> areas[j].list == []
  {
    if k > 0 { NoneListed(areas, k - 1, t); }
  }

  ghost predicate Singles(c: Config) {
    forall l :: l in c.leases ==> l.order == 0
  }

  /** Blocks of one page are out, and m pages are free. */
  ghost predicate Taking(c: Config, t: Tiling, m: nat) {
    Good(c, t) && Singles(c) && Total(c.zone) == m
  }

  /** While a page is free, a request for one page gets one. */
  lemma {:induction false} AllocOne(z: Zone, t: Tiling)
    requires Inv(z, t) && Total(z) > 0
    ensures var o := Alloc(z, 1);
      && OrderFrom(1, 0) == 0 && o.Done? && o.value.page.Some?
      && |o.value.zone.areas| == MAX_ORDER && Total(o.value.zone) == Total(z) - 1
  {
    assert OrderFrom(1, 0) == 0;
    hide Tiles, Descriptors, Alloc, TakenLists, Handed;
    var t1 := AllocInv(z, t, 1);
    NoneListed(z.areas, MAX_ORDER, t);
    AllocCounts(z, 1);
  }

  lemma {:induction false} AskOne(c: Config, t: Tiling, m: nat, flags: Flags) returns (c': Config, t': Tiling)
    requires Taking(c, t, m + 1)
    ensures |c.zone.areas| == MAX_ORDER && Step(c, Ask(1), flags) == Done(c') && Taking(c', t', m)
  {
    t' := StepGood(c, t, Ask(1), flags);
    AllocOne(c.zone, t);
    c' := StepAsk(c, flags);
    hide Good, Step, Alloc, NrFreePages;
  }

  lemma {:induction false} StepAsk(c: Config, flags: Flags) returns (c': Config)
    requires |c.zone.areas| == MAX_ORDER && OrderFrom(1, 0) == 0
    requires Alloc(c.zone, 1).Done? && Alloc(c.zone, 1).value.page.Some?
    ensures Step(c, Ask(1), flags) == Done(c') && c'.zone == Alloc(c.zone, 1).value.zone && (Singles(c) ==> Singles(c'))
  {
    hide Alloc, OrderFrom;
    c' := Step(c, Ask(1), flags).value;
  }

  function Repeat(op: Op, m: nat): seq<Op> {
    if m == 0 then [] else [op] + Repeat(op, m - 1)
  }

  lemma {:induction false} RepeatOnly(op: Op, m: nat)
    ensures forall o :: o in Repeat(op, m) ==> o == op
  {
    if m > 0 { RepeatOnly(op, m - 1); }
  }

  /** m times the same call. */
  ghost predicate Reaches(c: Config, op: Op, m: nat, flags: Flags, c': Config) {
    Run(c, Repeat(op, m), flags) == Done(c')
  }

  lemma {:induction false} ReachNone(c: Config, op: Op, flags: Flags, c': Config)
    ensures Reaches(c, op, 0, flags, c') <==> c' == c
  {
  }

  lemma {:induction false} ReachMore(c: Config, op: Op, m: nat, flags: Flags, c': Config)
    requires |c.zone.areas| == MAX_ORDER
    ensures Reaches(c, op, m + 1, flags, c') <==> Step(c, op, flags).Done? && Reaches(Step(c, op, flags).value, op, m, flags, c')
  {
    hide Step;
    assert Repeat(op, m + 1)[1..] == Repeat(op, m);
  }

  /** Asking for one page as often as there are free pages takes them all. */
  lemma {:induction false} AskOnes(c: Config, t: Tiling, m: nat, flags: Flags) returns (c': Config, t': Tiling)
    requires Taking(c, t, m)
    ensures Reaches(c, Ask(1), m, flags, c') && Taking(c', t', 0)
    decreases m
  {
    hide *;
    c', t' := c, t;
    if m == 0 {
      ReachNone(c, Ask(1), flags, c);
    } else {
      var c1, t1 := AskOne(c, t, m - 1, flags);
      c', t' := AskOnes(c1, t1, m - 1, flags);
      ReachMore(c, Ask(1), m - 1, flags, c');
    }
  }

  /** Returning the first block held as often as there are any returns them all, if it goes through. */
  lemma {:induction false} ReturnAll(c: Config, t: Tiling, m: nat, flags: Flags, c': Config)
    requires Good(c, t) && |c.leases| == m && Reaches(c, Return(0), m, flags, c')
    ensures c'.leases == []
    decreases m
  {
    assert |c.zone.areas| == MAX_ORDER;
    if m == 0 {
      ReachNone(c, Return(0), flags, c');
    } else {
      ReachMore(c, Return(0), m - 1, flags, c');
      var t' := StepGood(c, t, Return(0), flags);
      hide Good, Reaches, Free;
      ReturnAll(Step(c, Return(0), flags).value, t', m - 1, flags, c');
    }
  }

  /** Off the grid something is lost: taking all pages one by one and returning them leaves blocks on
      the grid only. */
  lemma {:induction false} OffGridLoses(pages: seq<Page>, base: nat, n: nat) returns (ops: seq<Op>)
    requires AtBoot(pages) && 0 < n && base + n <= |pages| && Aligned(|pages|, TOP) && !Aligned(base, BlockOrder(n))
    ensures Asks(ops) && !Restores(pages, base, n, ops)
  {
    hide OnGrid, BlockOrder, Coalesced, SameLists;
    var t := InitInv(pages, base, n);
    InitCoalesced(pages, base, n);
    InitOnGridIff(pages, base, n);
    InitLength(pages, base, n);
    InitCounts(pages, base, n);
    var c := Config(InitMemmap(Zone(pages, EmptyAreas()), base, n).value, []);
    var asks := Repeat(Ask(1), n);
    var c1, t1 := AskOnes(c, t, n, Kept);
    NoneListed(c1.zone.areas, MAX_ORDER, t1);
    GriddedSingles(c1);
    var returns' := Repeat(Return(0), |c1.leases|);
    ops := asks + returns';
    RepeatOnly(Ask(1), n);
    RepeatOnly(Return(0), |c1.leases|);
    RunConcat(c, asks, returns', Kept);
    var t2 := RunTidy(c, t, ops);
    ReturnAll(c1, t1, |c1.leases|, Kept, Run(c, ops, Kept).value);
    RunOnGrid(c1, t1, returns', Kept);
    OffGridDiffers(c.zone.areas, Run(c, ops, Kept).value.zone.areas, base, BlockOrder(n));
  }

  lemma {:induction false} GriddedSingles(c: Config)
    requires Singles(c) && |c.zone.areas| == MAX_ORDER && forall j :: 0 <= j < MAX_ORDER ==> c.zone.areas[j].list == []
    ensures Gridded(c)
  {
  }

  lemma {:induction false} OffGridDiffers(areas: seq<FreeArea>, areas': seq<FreeArea>, p: nat, k: nat)
    requires k < |areas| && p in areas[k].list && !Aligned(p, k) && OnGrid(areas')
    ensures !SameLists(areas, areas')
  {
  }

  /** Returning everything restores the initial lists, whatever was called, exactly when the region
      starts at a multiple of the size of its first, and largest, block. */
  lemma {:induction false} RestoresIff(pages: seq<Page>, base: nat, n: nat)
    requires AtBoot(pages) && 0 < n && base + n <= |pages| && Aligned(|pages|, TOP)
    ensures (forall ops :: Asks(ops) ==> Restores(pages, base, n, ops)) <==> Aligned(base, BlockOrder(n))
  {
    hide Restores, Asks, BlockOrder;
    if Aligned(base, BlockOrder(n)) {
      forall ops | Asks(ops)
        ensures Restores(pages, base, n, ops)
      {
        ReturningAllRestores(pages, base, n, ops);
      }
    } else {
      var ops := OffGridLoses(pages, base, n);
    }
  }

  lemma {:induction false} InitLength(pages: seq<Page>, base: nat, n: nat)
    requires InitMemmap(Zone(pages, EmptyAreas()), base, n).Done?
    ensures |InitMemmap(Zone(pages, EmptyAreas()), base, n).value.pages| == |pages|
  {
    GreedyLength(Zone(InitPages(pages, base, n), EmptyAreas()), base, n);
  }

  lemma {:induction false} GreedyLength(z: Zone, p: nat, n: nat)
    requires Greedy(z, p, n).Done?
    ensures |Greedy(z, p, n).value.pages| == |z.pages|
    decreases n
  {
    if n > 0 {
      var k := BlockOrder(n);
      BlockOrderFits(n);
      GreedyLength(Cut(z, p, k), p + Pow2(k), n - Pow2(k));
    }
  }
}
