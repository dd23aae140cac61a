/** Short runs on four descriptors.  As written, and on pages whose alignment is ideal: after the same
    three calls, one run ends with two free buddies side by side although everything was returned,
    and another fails an assertion although every call was legal.  With the flags kept right: a run
    on an unaligned region that does not restore it. */
module BuddyExamples {
  import opened Powers
  import opened Bits
  import opened Memlayout
  import opened BuddyModel
  import opened BuddySafety
  import opened BuddyRuns
  import opened BuddyCoalesce

  /** The areas, when only the first three may list anything. */
  function Areas(l0: seq<nat>, l1: seq<nat>, l2: seq<nat>): seq<FreeArea> {
    var e := FreeArea([], 0);
    [FreeArea(l0, |l0|), FreeArea(l1, |l1|), FreeArea(l2, |l2|), e, e, e, e, e, e, e, e]
  }

  /** A managed page: whether it is flagged, and its recorded size. */
  function P(head: bool, property: nat): Page {
    Page(0, false, head, property)
  }

  const BOOT: seq<Page> := seq(4, _ => Page(0, true, false, 0))

  const S0: Config := Config(Zone([P(true, 4), P(false, 0), P(false, 0), P(false, 0)], Areas([], [], [0])), [])
  const S1: Config := Config(Zone([P(true, 2), P(false, 0), P(false, 2), P(false, 0)], Areas([], [0], [])), [Lease(2, 1)])
  const S2: Config := Config(Zone([P(true, 1), P(false, 1), P(false, 2), P(false, 0)], Areas([0], [], [])), [Lease(2, 1), Lease(1, 0)])
  const S3: Config := Config(Zone([P(false, 2), P(true, 1), P(false, 2), P(false, 0)], Areas([], [0], [])), [Lease(2, 1)])
  const S4: Config := Config(Zone([P(false, 2), P(true, 1), P(true, 2), P(false, 0)], Areas([], [2, 0], [])), [])
  const S5: Config := Config(Zone([P(false, 2), P(true, 1), P(false, 2), P(false, 0)], Areas([], [], [])), [Lease(2, 1), Lease(0, 1)])

  lemma {:induction false} Table()
    ensures Pow2(0) == 1 && Pow2(1) == 2 && Pow2(2) == 4 && Pow2(10) == 1024
    ensures BuddyIndex(1, 0) == 0 && BuddyIndex(0, 1) == 2 && BuddyIndex(2, 1) == 0 && Flip(2, 1) == 0
    ensures And(1, 0) == 0 && And(2, 1) == 0 && Log2(1) == 0 && Log2(2) == 1
  {
    BuddyIsFlip(1, 0);
    BuddyIsFlip(0, 1);
    BuddyIsFlip(2, 1);
    assert Pow2(10) == 1024;
  }

  lemma {:induction false} Boot()
    ensures InitMemmap(Zone(BOOT, EmptyAreas()), 0, 4) == Done(S0.zone)
  {
    Table();
    var pages := InitPages(BOOT, 0, 4);
    assert pages == [Clear(0), Clear(0), Clear(0), Clear(0)];
    assert BlockOrder(4) == 2;
    assert SetHead(SetProperty(pages, 0, 4), 0, true) == S0.zone.pages;
    assert [0] + [] == [0];
    assert Push(EmptyAreas(), 2, 0) == S0.zone.areas;
    assert Greedy(S0.zone, 4, 0) == Done(S0.zone);
  }

  lemma {:induction false} Ask2()
    ensures Step(S0, Ask(2), AsWritten) == Done(S1)
  {
    Table();
    var z := S0.zone;
    assert OrderFrom(2, 0) == 1 && ListedFrom(z, 1) == 2;
    var z1 := Zone([P(true, 2), P(false, 0), P(true, 2), P(false, 0)], Areas([], [2, 0], []));
    assert Remove([0], 0) == [] && [2] + ([0] + []) == [2, 0];
    assert HalveAreas(z.areas, 2, 0, 2) == z1.areas;
    assert HalvePages(z.pages, 0, 2) == z1.pages;
    assert Split(z, 2) == Halve(z, 2) == Done(z1);
    assert SplitDown(z, 2, 1) == Done(z1);
    assert Remove([2, 0], 2) == [0];
    assert Take(z1, 1, 2) == S1.zone;
    assert S0.leases + [Lease(2, 1)] == S1.leases;
  }

  lemma {:induction false} Ask1()
    ensures Step(S1, Ask(1), AsWritten) == Done(S2)
  {
    Table();
    var z := S1.zone;
    assert OrderFrom(1, 0) == 0 && ListedFrom(z, 0) == 1;
    var z1 := Zone([P(true, 1), P(true, 1), P(false, 2), P(false, 0)], Areas([1, 0], [], []));
    assert Remove([0], 0) == [] && [1] + ([0] + []) == [1, 0];
    assert HalveAreas(z.areas, 1, 0, 1) == z1.areas;
    assert HalvePages(z.pages, 0, 1) == z1.pages;
    assert Split(z, 1) == Halve(z, 1) == Done(z1);
    assert SplitDown(z, 1, 0) == Done(z1);
    assert Remove([1, 0], 1) == [0];
    assert Take(z1, 0, 1) == S2.zone;
    assert S1.leases + [Lease(1, 0)] == S2.leases;
  }

  lemma {:induction false} Return1()
    ensures Step(S2, Return(1), AsWritten) == Done(S3)
  {
    Table();
    var pages := [P(true, 1), P(true, 1), P(false, 2), P(false, 0)];
    assert Release(S2.zone.pages, 1, 1) == pages;
    var z := S2.zone.(pages := pages);
    var z1 := Zone(S3.zone.pages, Areas([], [], []));
    assert JoinPages(pages, 1, 0, 2, AsWritten) == z1.pages;
    assert Remove([0], 0) == [] && Unlist(z.areas, 0, 0) == z1.areas;
    assert Join(z, 0, 1, 0, AsWritten) == z1;
    assert [0] + [] == [0];
    assert Push(z1.areas, 1, 0) == S3.zone.areas;
    assert Merge(z1, 1, 0, AsWritten) == Done(S3.zone);
    assert Merge(z, 0, 1, AsWritten) == Done(S3.zone);
    assert Free(S2.zone, 1, 1, AsWritten) == Done(S3.zone);
    assert S2.leases[..1] + S2.leases[2..] == S3.leases;
  }

  lemma {:induction false} Return0()
    ensures Step(S3, Return(0), AsWritten) == Done(S4)
  {
    Table();
    assert Release(S3.zone.pages, 2, 2) == S4.zone.pages;
    var z := S3.zone.(pages := S4.zone.pages);
    assert [2] + [0] == [2, 0] && Push(z.areas, 1, 2) == S4.zone.areas;
    assert Merge(z, 1, 2, AsWritten) == Done(S4.zone);
    assert Free(S3.zone, 2, 2, AsWritten) == Done(S4.zone);
    assert S3.leases[..0] + S3.leases[1..] == S4.leases;
  }

  lemma {:induction false} Ask2Again()
    ensures Step(S3, Ask(2), AsWritten) == Done(S5)
  {
    Table();
    assert OrderFrom(2, 0) == 1 && ListedFrom(S3.zone, 1) == 1;
    assert Remove([0], 0) == [];
    assert Take(S3.zone, 1, 0) == S5.zone;
    assert S3.leases + [Lease(0, 1)] == S5.leases;
  }

  lemma {:induction false} Return1Again()
    ensures Step(S5, Return(1), AsWritten) == Panic
  {
    Table();
    assert S5.zone.pages[1].head;
  }

  lemma {:induction false} RunThree(ops: seq<Op>)
    requires |ops| >= 3 && ops[0] == Ask(2) && ops[1] == Ask(1) && ops[2] == Return(1)
    ensures Run(S0, ops, AsWritten) == Run(S3, ops[3..], AsWritten)
  {
    Ask2(); Ask1(); Return1();
    RunFirst(S0, ops, AsWritten);
    RunFirst(S1, ops[1..], AsWritten);
    RunFirst(S2, ops[2..], AsWritten);
    assert ops[1..][1..] == ops[2..] && ops[2..][1..] == ops[3..];
  }

  lemma {:induction false} S4Buddies()
    ensures !NoBuddies(S4.zone.areas)
  {
    Table();
    var areas := S4.zone.areas;
    assert areas[1].list == [2, 0];
    assert 1 < TOP && 2 in areas[1].list && Flip(2, 1) in areas[1].list;
  }

  /** Everything is returned, yet the blocks at 0 and 2, buddies of order 1, are both free: free as
      written does not restore what init_memmap made of the region. */
  lemma {:induction false} CoalescingFails()
    ensures InitMemmap(Zone(BOOT, EmptyAreas()), 0, 4) == Done(S0.zone)
    ensures Run(S0, [Ask(2), Ask(1), Return(1), Return(0)], AsWritten) == Done(S4)
    ensures S4.leases == [] && !NoBuddies(S4.zone.areas)
  {
    hide NoBuddies, InitMemmap;
    Boot();
    Return0();
    S4Buddies();
    var ops := [Ask(2), Ask(1), Return(1), Return(0)];
    RunThree(ops);
    assert ops[3..] == [Return(0)];
    RunFirst(S3, [Return(0)], AsWritten);
  }

  /** The second block of two pages handed out contains a flag left by the merge: its return fails
      the assertion of line 198. */
  lemma {:induction false} LegalRunPanics()
    ensures Run(S0, [Ask(2), Ask(1), Return(1), Ask(2), Return(1)], AsWritten) == Panic
  {
    Ask2Again(); Return1Again();
    var ops := [Ask(2), Ask(1), Return(1), Ask(2), Return(1)];
    RunThree(ops);
    assert ops[3..] == [Ask(2), Return(1)];
    RunFirst(S3, ops[3..], AsWritten);
    assert ops[3..][1..] == [Return(1)];
  }

  // ---------- Off the grid ----------

  const RESERVED: Page := Page(0, true, false, 0)

  const T0: Config := Config(Zone([RESERVED, P(true, 2), P(false, 0), RESERVED], Areas([], [1], [])), [])
  const T1: Config := Config(Zone([RESERVED, P(true, 1), P(false, 1), RESERVED], Areas([1], [], [])), [Lease(2, 0)])
  const T2: Config := Config(Zone([RESERVED, P(true, 1), P(true, 1), RESERVED], Areas([2, 1], [], [])), [])

  lemma {:induction false} BootAtOne()
    ensures InitMemmap(Zone(BOOT, EmptyAreas()), 1, 2) == Done(T0.zone)
  {
    Table();
    var pages := InitPages(BOOT, 1, 2);
    assert pages == [RESERVED, Clear(0), Clear(0), RESERVED];
    assert BlockOrder(2) == 1;
    assert SetHead(SetProperty(pages, 1, 2), 1, true) == T0.zone.pages;
    assert [1] + [] == [1];
    assert Push(EmptyAreas(), 1, 1) == T0.zone.areas;
    assert Greedy(T0.zone, 3, 0) == Done(T0.zone);
  }

  lemma {:induction false} AskAtOne(flags: Flags)
    ensures Step(T0, Ask(1), flags) == Done(T1)
  {
    Table();
    var z := T0.zone;
    assert OrderFrom(1, 0) == 0 && ListedFrom(z, 0) == 1;
    var z1 := T2.zone;
    assert Remove([1], 1) == [] && [2] + ([1] + []) == [2, 1];
    assert HalveAreas(z.areas, 1, 1, 1) == z1.areas;
    assert HalvePages(z.pages, 1, 1) == z1.pages;
    assert Split(z, 1) == Halve(z, 1) == Done(z1);
    assert SplitDown(z, 1, 0) == Done(z1);
    assert Remove([2, 1], 2) == [1];
    assert Take(z1, 0, 2) == T1.zone;
    assert T0.leases + [Lease(2, 0)] == T1.leases;
  }

  lemma {:induction false} ReturnAtTwo()
    ensures Step(T1, Return(0), Kept) == Done(T2)
  {
    Table();
    BuddyIsFlip(2, 0);
    assert Release(T1.zone.pages, 2, 1) == T2.zone.pages;
    var z := T1.zone.(pages := T2.zone.pages);
    assert [2] + [1] == [2, 1] && AddPage(z, 0, 2, Kept) == T2.zone;
    assert Merge(z, 0, 2, Kept) == Done(T2.zone);
    assert Free(T1.zone, 2, 1, Kept) == Done(T2.zone);
    assert T1.leases[..0] + T1.leases[1..] == T2.leases;
  }

  /** A region of two pages that starts at page 1.  Everything is returned and the flags are kept right,
      yet the block of order 1 has become two of order 0: they are neighbours, but no buddies. */
  lemma {:induction false} OffGridNotRestored()
    ensures InitMemmap(Zone(BOOT, EmptyAreas()), 1, 2) == Done(T0.zone)
    ensures Run(T0, [Ask(1), Return(0)], Kept) == Done(T2) && T2.leases == []
    ensures T0.zone.areas == Areas([], [1], []) && T2.zone.areas == Areas([2, 1], [], [])
    ensures Flip(1, 0) == 0 && Flip(2, 0) == 3
  {
    hide InitMemmap, Step, Run, Flip;
    BootAtOne();
    AskAtOne(Kept);
    ReturnAtTwo();
    RunTwo(T0, Ask(1), T1, Return(0), T2, Kept);
    Neighbours();
  }

  lemma {:induction false} RunTwo(c: Config, a: Op, c1: Config, b: Op, c2: Config, flags: Flags)
    requires |c.zone.areas| == MAX_ORDER == |c1.zone.areas| && Step(c, a, flags) == Done(c1) && Step(c1, b, flags) == Done(c2)
    ensures Run(c, [a, b], flags) == Done(c2)
  {
    hide Step;
    RunFirst(c, [a, b], flags);
    RunFirst(c1, [b], flags);
    assert [a, b][1..] == [b];
  }

  lemma {:induction false} Neighbours()
    ensures Flip(1, 0) == 0 && Flip(2, 0) == 3
  {
  }
}
