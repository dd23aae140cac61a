/** Whole runs of the buddy allocator: callers allocate, and free exactly the blocks they got. */
module BuddyRuns {
  import opened Powers
  import opened Memlayout
  import opened BuddyModel
  import opened BuddyTiling
  import opened BuddySafety
  import opened BuddySteps
  import opened BuddyCount

  // ---------- Initialisation ----------

  /** The tiling of the first pages of a region, before a block of order k is added to it. */
  function Extended(t: Tiling, k: nat): Tiling {
    t.(blocks := t.blocks[t.hi := k], hi := t.hi + Pow2(k))
  }

  lemma {:induction false} ExtendTiles(t: Tiling, k: nat)
    requires Tiles(t) && k < MAX_ORDER
    ensures t.hi !in t.blocks && Tiles(Extended(t, k))
  {
    var t' := Extended(t, k);
    assert forall p :: p in t.blocks ==> p < t.hi && End(t', p) == End(t, p);
    forall i | t'.lo <= i < t'.hi
      ensures Covered(t', i)
    {
      if i < t.hi {
        assert Covered(t, i);
        var r :| Covers(t, r, i);
        assert Covers(t', r, i);
      } else {
        assert Covers(t', t.hi, i);
      }
    }
  }

  lemma {:induction false} ExtendDescriptors(pages: seq<Page>, t: Tiling, k: nat)
    requires Tiles(t) && Descriptors(pages, t, -1) && t.live == {} && t.hi + Pow2(k) <= |pages| && k < MAX_ORDER
    requires forall i :: t.hi <= i < t.hi + Pow2(k) ==> !pages[i].reserved
    requires forall i :: 0 <= i < |pages| && pages[i].head ==> FreeHead(pages, t, i)
    ensures var pages' := SetHead(SetProperty(pages, t.hi, Pow2(k)), t.hi, true);
      && Descriptors(pages', Extended(t, k), -1)
      && forall i :: 0 <= i < |pages'| && pages'[i].head ==> FreeHead(pages', Extended(t, k), i)
  {
    var pages', t' := SetHead(SetProperty(pages, t.hi, Pow2(k)), t.hi, true), Extended(t, k);
    assert t.hi !in t.blocks;
    assert forall p :: p in t.blocks ==> pages'[p] == pages[p];
    assert forall i :: 0 <= i < |pages'| && pages'[i].head ==> FreeHead(pages', t', i);
  }

  lemma {:induction false} ExtendLists(areas: seq<FreeArea>, t: Tiling, k: nat)
    requires Tiles(t) && Lists(areas, t) && t.live == {} && k < MAX_ORDER
    ensures Lists(Push(areas, k, t.hi), Extended(t, k))
  {
    assert t.hi !in t.blocks;
    var t1 := Extended(t, k).(live := {t.hi});
    ListsSame(areas, t, t1);
    ListsPush(areas, t1, k, t.hi);
    assert t1.(live := t1.live - {t.hi}) == Extended(t, k);
  }

  /** What init_memmap's greedy cut leaves of a region: only free blocks, flagged exactly at their heads. */
  ghost predicate Fresh(z: Zone, t: Tiling) {
    && Inv(z, t) && t.live == {}
    && (forall i :: 0 <= i < |z.pages| && z.pages[i].head ==> FreeHead(z.pages, t, i))
    && (forall p :: p in t.blocks ==> p < |z.pages| && z.pages[p].head)
  }

  lemma {:induction false} ExtendFresh(z: Zone, t: Tiling, k: nat, z': Zone)
    requires Fresh(z, t) && k < MAX_ORDER && t.hi + Pow2(k) <= |z.pages|
    requires forall i :: t.hi <= i < t.hi + Pow2(k) ==> !z.pages[i].reserved
    requires z' == Cut(z, t.hi, k)
    ensures |z.areas| == MAX_ORDER && Fresh(z', Extended(t, k))
  {
    ExtendTiles(t, k);
    ExtendDescriptors(z.pages, t, k);
    ExtendLists(z.areas, t, k);
  }

  lemma {:induction false} GreedyInv(z: Zone, t: Tiling, n: nat) returns (t': Tiling)
    requires Fresh(z, t) && t.hi + n <= |z.pages|
    requires forall i :: t.hi <= i < t.hi + n ==> !z.pages[i].reserved
    ensures var o := Greedy(z, t.hi, n); o.Done? && Fresh(o.value, t') && t'.lo == t.lo && t'.hi == t.hi + n
    decreases n
  {
    assert |z.areas| == MAX_ORDER;
    hide BlockOrder, Tiles, Lists, Descriptors;
    t' := t;
    if n > 0 {
      var k := BlockOrder(n);
      BlockOrderFits(n);
      var z1 := Cut(z, t.hi, k);
      ExtendFresh(z, t, k, z1);
      t' := GreedyInv(z1, Extended(t, k), n - Pow2(k));
    }
  }

  /** The state in which page_init hands over: every page is reserved.  It clears nothing; that no page is
      flagged is assumed of the memory. */
  ghost predicate AtBoot(pages: seq<Page>) {
    forall i :: 0 <= i < |pages| ==> pages[i].reserved && !pages[i].head
  }

  lemma {:induction false} InitInv(pages: seq<Page>, base: nat, n: nat) returns (t: Tiling)
    requires AtBoot(pages) && 0 < n && base + n <= |pages|
    ensures var o := InitMemmap(Zone(pages, EmptyAreas()), base, n);
      o.Done? && Fresh(o.value, t) && t.lo == base && t.hi == base + n
  {
    FreshBoot(pages, base, n);
    t := GreedyInv(Zone(InitPages(pages, base, n), EmptyAreas()), Tiling(map[], {}, base, base), n);
  }

  lemma {:induction false} FreshBoot(pages: seq<Page>, base: nat, n: nat)
    requires AtBoot(pages) && base + n <= |pages|
    ensures Fresh(Zone(InitPages(pages, base, n), EmptyAreas()), Tiling(map[], {}, base, base))
    ensures forall i :: base <= i < base + n ==> !InitPages(pages, base, n)[i].reserved
  {
    var z := Zone(InitPages(pages, base, n), EmptyAreas());
    var t0 := Tiling(map[], {}, base, base);
    assert forall k :: 0 <= k < MAX_ORDER ==> EmptyAreas()[k] == FreeArea([], 0);
    assert forall i :: 0 <= i < |pages| ==> z.pages[i] == (if base <= i < base + n then Clear(0) else pages[i]);
    assert Tiles(t0) && Lists(EmptyAreas(), t0) && Descriptors(z.pages, t0, -1);
  }

  // ---------- Runs ----------

  /** A block a caller holds. */
  datatype Lease = Lease(page: nat, order: nat)

  datatype Config = Config(zone: Zone, leases: seq<Lease>)

  /** A call: a request for n pages, or the return of the i-th block held (no call if there is none). */
  datatype Op = Ask(n: nat) | Return(i: nat)

  function Step(c: Config, op: Op, flags: Flags): Outcome<Config>
    requires |c.zone.areas| == MAX_ORDER
  {
    match op
    case Ask(n) => (
      match Alloc(c.zone, n)
      case Panic => Panic
      case Wild => Wild
      case Done(a) =>
        Done(Config(a.zone, if a.page.Some? then c.leases + [Lease(a.page.value, OrderFrom(n, 0))] else c.leases)))
    case Return(i) =>
      if i >= |c.leases| then Done(c)
      else
        match Free(c.zone, c.leases[i].page, Pow2(c.leases[i].order), flags)
        case Panic => Panic
        case Wild => Wild
        case Done(z) => Done(Config(z, c.leases[..i] + c.leases[i + 1..]))
  }

  function Run(c: Config, ops: seq<Op>, flags: Flags): Outcome<Config>
    decreases |ops|
  {
    if ops == [] then Done(c)
    else if |c.zone.areas| != MAX_ORDER then Wild
    else
      var next := Step(c, ops[0], flags);
      if next.Done? then Run(next.value, ops[1..], flags) else next
  }

  lemma {:induction false} RunFirst(c: Config, ops: seq<Op>, flags: Flags)
    requires ops != [] && |c.zone.areas| == MAX_ORDER && Step(c, ops[0], flags).Done?
    ensures Run(c, ops, flags) == Run(Step(c, ops[0], flags).value, ops[1..], flags)
  {
  }

  ghost predicate Held(leases: seq<Lease>, t: Tiling) {
    && (forall l :: l in leases ==> l.page in t.live && Block(t, l.page, l.order))
    && (forall p :: p in t.live ==> exists l :: l in leases && l.page == p)
    && (forall i, j :: 0 <= i < j < |leases| ==> leases[i].page != leases[j].page)
  }

  /** The free blocks and the blocks held are disjoint and together are the region [lo, hi). */
  ghost predicate Good(c: Config, t: Tiling) {
    Inv(c.zone, t) && Held(c.leases, t)
  }

  function Leased(leases: seq<Lease>): nat {
    if leases == [] then 0 else Pow2(leases[0].order) + Leased(leases[1..])
  }

  lemma {:induction false} LeasedAppend(a: seq<Lease>, l: Lease)
    ensures Leased(a + [l]) == Leased(a) + Pow2(l.order)
  {
    if a != [] {
      assert (a + [l])[1..] == a[1..] + [l];
      LeasedAppend(a[1..], l);
    } else {
      assert (a + [l])[1..] == [];
    }
  }

  lemma {:induction false} LeasedRemove(a: seq<Lease>, i: nat)
    requires i < |a|
    ensures Leased(a[..i] + a[i + 1..]) == Leased(a) - Pow2(a[i].order)
  {
    var b := a[..i] + a[i + 1..];
    if i > 0 {
      assert b[1..] == a[1..][..i - 1] + a[1..][i..];
      LeasedRemove(a[1..], i - 1);
    } else {
      assert b == a[1..];
    }
  }

  lemma {:induction false} HeldAsk(leases: seq<Lease>, t: Tiling, t': Tiling, p: nat, k: nat)
    requires Held(leases, t) && Handed(t, t', p, k)
    ensures Held(leases + [Lease(p, k)], t')
  {
    var leases' := leases + [Lease(p, k)];
    forall q | q in t'.live
      ensures exists l :: l in leases' && l.page == q
    {
      if q == p {
        assert Lease(p, k) in leases';
      } else {
        var l :| l in leases && l.page == q;
        assert l in leases';
      }
    }
  }

  lemma {:induction false} HeldReturn(leases: seq<Lease>, t: Tiling, t': Tiling, i: nat)
    requires i < |leases| && Held(leases, t) && Returned(t, t', leases[i].page)
    ensures Held(leases[..i] + leases[i + 1..], t')
  {
    var leases' := leases[..i] + leases[i + 1..];
    forall q | q in t'.live
      ensures exists l :: l in leases' && l.page == q
    {
      var l :| l in leases && l.page == q;
      var j :| 0 <= j < |leases| && leases[j] == l;
      assert j != i;
      assert leases'[if j < i then j else j - 1] == l;
    }
    forall l | l in leases'
      ensures l.page in t'.live && Block(t', l.page, l.order)
    {
      var j :| 0 <= j < |leases'| && leases'[j] == l;
      assert l == leases[if j < i then j else j + 1];
    }
  }

  lemma {:induction false} StepGood(c: Config, t: Tiling, op: Op, flags: Flags) returns (t': Tiling)
    requires Good(c, t)
    ensures !Step(c, op, flags).Wild?
    ensures Step(c, op, flags).Done? ==> var c' := Step(c, op, flags).value;
      && Good(c', t') && t'.lo == t.lo && t'.hi == t.hi
      && Total(c'.zone) + Leased(c'.leases) == Total(c.zone) + Leased(c.leases)
  {
    t' := t;
    match op
    case Ask(n) =>
      if n > 0 {
        t' := AllocInv(c.zone, t, n);
        AllocCounts(c.zone, n);
        var a := Alloc(c.zone, n).value;
        if a.page.Some? {
          HeldAsk(c.leases, t, t', a.page.value, OrderFrom(n, 0));
          LeasedAppend(c.leases, Lease(a.page.value, OrderFrom(n, 0)));
        }
      }
    case Return(i) =>
      if i < |c.leases| {
        var l := c.leases[i];
        assert l in c.leases;
        t' := FreeInv(c.zone, t, l.page, l.order, flags);
        if Free(c.zone, l.page, Pow2(l.order), flags).Done? {
          FreeCounts(c.zone, l.page, Pow2(l.order), flags);
          HeldReturn(c.leases, t, t', i);
          LeasedRemove(c.leases, i);
        }
      }
  }

  /** Safety of every run, flags as written or kept: no list surgery ever goes wrong; as long as no
      assertion fails, free and held blocks tile the region and the counters account for every page. */
  lemma {:induction false} RunGood(c: Config, t: Tiling, ops: seq<Op>, flags: Flags) returns (t': Tiling)
    requires Good(c, t)
    ensures !Run(c, ops, flags).Wild?
    ensures Run(c, ops, flags).Done? ==> var c' := Run(c, ops, flags).value;
      && Good(c', t') && t'.lo == t.lo && t'.hi == t.hi
      && |c'.zone.areas| == MAX_ORDER && Total(c'.zone) + Leased(c'.leases) == Total(c.zone) + Leased(c.leases)
    decreases |ops|
  {
    t' := t;
    if ops != [] {
      t' := StepGood(c, t, ops[0], flags);
      if Step(c, ops[0], flags).Done? {
        t' := RunGood(Step(c, ops[0], flags).value, t', ops[1..], flags);
      }
    }
  }
}
