/** Runs of FitRuns on memory: from one init_memmap, every request and every release of pages that are
    out goes through as the run says, and no assertion of free_pages ever fails. */
module FitCalls {
  import opened Wrappers
  import opened Ring
  import opened FitBlocks
  import opened FitDescriptors
  import opened FitRuns
  import opened FitMemory
  import opened FitRecords
  import opened FitAllocator

  /** The memory of a state of a run: it records the free list, and no page of the region is reserved. */
  ghost predicate Backs(m: Memory, list: seq<nat>, s: State, region: Block) {
    && Records(m, list) && BlocksOf(list, m.pages) == s.free
    && End(region) <= |m.pages| && forall x :: region.start <= x < End(region) ==> !m.pages[x].reserved
  }

  lemma {:induction false} InitBacks(m: Memory, region: Block, loop: Loop)
    requires Records(m, []) && region.len > 0 && End(region) <= |m.pages|
    requires forall x :: region.start <= x < End(region) ==> m.pages[x].reserved
    ensures Backs(Entered(Wiped(m, region), [], region, loop), [region.start], State([region], {}), region)
  {
    WipedRecords(m, [], region);
    var m1 := Wiped(m, region);
    assert BlocksOf([], m1.pages) == [];
    EnteredRecords(m1, [], region, loop);
    assert Place([], region.start) == 0 && WithEntry([], 0, region.start) == [region.start];
    assert Insert([], region) == [region];
    assert Given(m1.pages, region) == Entered(m1, [], region, loop).pages;
  }

  // ---------- Releases ----------

  lemma {:induction false} PagesIff(b: Block, x: nat)
    ensures x in Pages(b) <==> b.start <= x < End(b)
  {
    assert In(b, x) <==> b.start <= x < End(b);
  }

  /** No page that is out is reserved or flagged: free_pages never halts on it. */
  lemma {:induction false} GiveGoesThrough(m: Memory, list: seq<nat>, s: State, region: Block, b: Block)
    requires Good(s, region) && Backs(m, list, s, region) && b.len > 0 && Pages(b) <= s.out
    ensures End(b) <= |m.pages| && !Halting(m.pages, b) && Unflagged(m.pages, b) && Apart(s.free, b)
  {
    GiveGood(s, b, region);
    ApartUnflagged(list, m.pages, m.nrFree, b);
    hide Good, Records, Apart;
    assert s.out <= Pages(region) by { OutWithin(s, region); }
    PagesIff(b, End(b) - 1);
    PagesIff(region, End(b) - 1);
    forall x: nat | b.start <= x < End(b)
      ensures x < |m.pages| && !m.pages[x].reserved && !m.pages[x].head
    {
      PagesIff(b, x);
      PagesIff(region, x);
      assert In(b, x);
    }
  }

  lemma {:induction false} OutWithin(s: State, region: Block)
    requires Good(s, region)
    ensures s.out <= Pages(region)
  {
  }

  /** A release takes no page back into reserve. */
  lemma {:induction false} ReleasedReserved(m: Memory, s: seq<nat>, b: Block, loop: Loop)
    requires Formed(m) && b.len > 0 && End(b) <= |m.pages| && forall i :: 0 <= i < |s| ==> s[i] < |m.links|
    ensures var m' := Released(m, s, b, loop);
      |m'.pages| == |m.pages| && forall x :: 0 <= x < |m.pages| ==> m'.pages[x].reserved ==> m.pages[x].reserved
  {
    hide Inserted, Del, Wired;
  }

  lemma {:induction false} GiveBacks(m: Memory, list: seq<nat>, s: State, region: Block, b: Block, loop: Loop) returns (list': seq<nat>)
    requires Good(s, region) && Backs(m, list, s, region) && b.len > 0 && Pages(b) <= s.out
    requires loop.Continues? ==> !Appends(s.free, b.start)
    ensures End(b) <= |m.pages| && Formed(m) && Lands(m.links, |m.pages|, Seen(list, b.start), b.start)
    ensures Backs(Released(m, Seen(list, b.start), b, loop), list', State(Free(s.free, b), s.out - Pages(b)), region)
  {
    hide Records, Released, Lands, Seen, Free, Good, Halting, Apart, Unflagged, Formed, Appends;
    GiveGoesThrough(m, list, s, region, b);
    ListLands(m, list, b.start);
    list' := ReleasedRecords(m, list, b, loop);
    ReleasedReserved(m, Seen(list, b.start), b, loop);
  }

  lemma {:induction false} ListLands(m: Memory, list: seq<nat>, base: nat)
    requires Records(m, list)
    ensures Formed(m) && Lands(m.links, |m.pages|, Seen(list, base), base)
    ensures forall i :: 0 <= i < |Seen(list, base)| ==> Seen(list, base)[i] < |m.links|
  {
    RecordsWalkable(m, list);
    Ascending(list, m.pages);
    LandsIff(m.links, |m.pages|, list, base, Seen(list, base));
  }

  // ---------- Requests ----------

  /** A request is a step of the run. */
  lemma {:induction false} AskBacks(policy: Policy, m: Memory, list: seq<nat>, s: State, region: Block, n: nat, loop: Loop,
                                    q: seq<nat>, page: Option<nat>, i: nat, m': Memory)
    returns (list': seq<nat>, s': State)
    requires Backs(m, list, s, region) && 0 < n && Allocated(policy, m, q, n, page, i, m')
    ensures Step(s, Ask(n), s', policy, loop) && Backs(m', list', s', region)
    ensures page.None? <==> !Fits(s.free, n)
    ensures page.Some? ==> s'.out == s.out + Pages(Block(page.value, n))
  {
    hide Records, Allocated, Chosen, Take, Fits, Pages;
    list' := AllocatedRecords(policy, m, list, q, n, page, i, m');
    AllocatedReserved(policy, m, q, n, page, i, m');
    s' := s;
    if page.Some? {
      ChosenFits(policy, s.free, n, i);
      s' := State(Take(s.free, i, n), s.out + Pages(Block(s.free[i].start, n)));
    }
  }

  lemma {:induction false} ChosenFits(policy: Policy, bs: seq<Block>, n: nat, i: nat)
    requires Chosen(policy, bs, n, i)
    ensures i < |bs| && n <= bs[i].len && Fits(bs, n)
  {
  }

  lemma {:induction false} AllocatedReserved(policy: Policy, m: Memory, q: seq<nat>, n: nat, page: Option<nat>, i: nat, m': Memory)
    requires Allocated(policy, m, q, n, page, i, m')
    ensures |m'.pages| == |m.pages| && forall x :: 0 <= x < |m.pages| ==> m'.pages[x].reserved == m.pages[x].reserved
  {
    hide Del, AddAfter, Wired, Path;
  }

  // ---------- Runs ----------

  /** A call on memory that goes through. */
  ghost predicate Called(m: Memory, op: Op, m': Memory, policy: Policy, loop: Loop) {
    match op
    case Ask(n) => n > 0 && exists q, page, i :: Allocated(policy, m, q, n, page, i, m')
    case Give(b) =>
      && Formed(m) && End(b) <= |m.pages| && !Halting(m.pages, b)
      && exists q :: Lands(m.links, |m.pages|, q, b.start) && m' == Released(m, q, b, loop)
  }

  ghost predicate CalledAll(m: Memory, ops: seq<Op>, m': Memory, policy: Policy, loop: Loop)
    decreases |ops|
  {
    if ops == [] then m' == m
    else exists m1 :: Called(m, ops[0], m1, policy, loop) && CalledAll(m1, ops[1..], m', policy, loop)
  }

  /** On memory that records a list, a request is answered. */
  lemma {:induction false} Answered(policy: Policy, m: Memory, list: seq<nat>, n: nat) returns (page: Option<nat>, i: nat, m': Memory)
    requires Records(m, list) && 0 < n
    ensures Allocated(policy, m, list, n, page, i, m')
  {
    hide Records, Path, Walkable, Ends, Carvable, Finds, Carved;
    RecordsEnds(policy, m, list, n);
    page, i, m' := None, 0, m;
    if n <= m.nrFree && exists j: nat :: Finds(policy, BlocksOf(list, m.pages), n, m.nrFree, j) {
      i :| Finds(policy, BlocksOf(list, m.pages), n, m.nrFree, i);
      FoundAt(policy, BlocksOf(list, m.pages), n, m.nrFree, i);
      page, m' := Some(list[i]), Carved(m, list[i], n);
    }
  }

  lemma {:induction false} FoundAt(policy: Policy, bs: seq<Block>, n: nat, nrFree: nat, i: nat)
    requires Finds(policy, bs, n, nrFree, i)
    ensures i < |bs|
  {
  }

  /** There is one outcome of a request only. */
  lemma {:induction false} AskOutcome(s: State, n: nat, s1: State, s2: State, policy: Policy, loop: Loop)
    requires Step(s, Ask(n), s1, policy, loop) && Step(s, Ask(n), s2, policy, loop)
    ensures s1 == s2
  {
    if Fits(s.free, n) {
      var i: nat :| Chosen(policy, s.free, n, i) && s1 == State(Take(s.free, i, n), s.out + Pages(Block(s.free[i].start, n)));
      var j: nat :| Chosen(policy, s.free, n, j) && s2 == State(Take(s.free, j, n), s.out + Pages(Block(s.free[j].start, n)));
      ChosenUnique(policy, s.free, n, i, j);
    }
  }

  lemma {:induction false} ChosenUnique(policy: Policy, bs: seq<Block>, n: nat, i: nat, j: nat)
    requires Chosen(policy, bs, n, i) && Chosen(policy, bs, n, j)
    ensures i == j
  {
  }

  lemma {:induction false} StepCalled(m: Memory, list: seq<nat>, s: State, op: Op, s': State, policy: Policy, loop: Loop, region: Block)
    returns (m': Memory, list': seq<nat>)
    requires Good(s, region) && Backs(m, list, s, region) && Step(s, op, s', policy, loop)
    ensures Called(m, op, m', policy, loop) && Backs(m', list', s', region) && Good(s', region)
  {
    OneStep(s, op, s', policy, loop);
    RunGood(s, [op], s', policy, loop, region);
    match op
    case Ask(n) =>
      var page, i;
      page, i, m' := Answered(policy, m, list, n);
      var s1;
      list', s1 := AskBacks(policy, m, list, s, region, n, loop, list, page, i, m');
      AskOutcome(s, n, s', s1, policy, loop);
    case Give(b) =>
      GiveGoesThrough(m, list, s, region, b);
      list' := GiveBacks(m, list, s, region, b, loop);
      m' := Released(m, Seen(list, b.start), b, loop);
  }

  lemma {:induction false} OneStep(s: State, op: Op, s': State, policy: Policy, loop: Loop)
    requires Step(s, op, s', policy, loop)
    ensures Run(s, [op], s', policy, loop)
  {
    hide Step;
    assert [op][1..] == [];
    assert Run(s', [], s', policy, loop);
  }

  /** Every run of FitRuns is one of calls on memory that go through: no release of it halts, and the
      memory it leaves records the free list of its last state. */
  lemma {:induction false} RunCalled(m: Memory, list: seq<nat>, s: State, ops: seq<Op>, s': State, policy: Policy, loop: Loop, region: Block)
    returns (m': Memory, list': seq<nat>)
    requires Good(s, region) && Backs(m, list, s, region) && Run(s, ops, s', policy, loop)
    ensures CalledAll(m, ops, m', policy, loop) && Backs(m', list', s', region)
    decreases |ops|
  {
    hide Good, Backs, Step, Called;
    m', list' := m, list;
    if ops != [] {
      var s1 :| Step(s, ops[0], s1, policy, loop) && Run(s1, ops[1..], s', policy, loop);
      var m1, list1 := StepCalled(m, list, s, ops[0], s1, policy, loop, region);
      m', list' := RunCalled(m1, list1, s1, ops[1..], s', policy, loop, region);
    }
  }

  /** alloc_pages and free_pages in place, on the allocator chosen.  Asked for n > 0 pages, or given back
      pages that are out, they make a step of the run, and the page returned is the one of that step. */
  method Serve(a: Allocator, policy: Policy, op: Op, ghost s: State, ghost region: Block)
    returns (page: Option<nat>, ghost s': State)
    requires a.Valid() && Good(s, region) && Backs(a.Mem(), a.list, s, region) && (op.Ask? ==> op.n > 0)
    requires op.Give? ==> op.b.len > 0 && Pages(op.b) <= s.out && (a.loop.Continues? ==> !Appends(s.free, op.b.start))
    modifies a, a.pages, a.links
    ensures a.Valid() && Step(s, op, s', policy, a.loop) && Backs(a.Mem(), a.list, s', region)
    ensures op.Ask? ==> (page.None? <==> !Fits(s.free, op.n))
    ensures op.Ask? && page.Some? ==> s'.out == s.out + Pages(Block(page.value, op.n))
  {
    hide Good, Records, Allocated, Ends, Walkable, Released, Step, Free;
    ghost var m, list := a.Mem(), a.list;
    match op
    case Ask(n) =>
      a.ValidEnds(policy, n);
      var halted;
      ghost var i, list';
      if policy.FirstFit? {
        halted, page, i := a.DefaultAllocPages(n, list);
      } else {
        halted, page, i := a.BestFitAllocPages(n, list);
      }
      list', s' := AskBacks(policy, m, list, s, region, n, a.loop, list, page, i, a.Mem());
      OneList(a.Mem(), list', a.list);
    case Give(b) =>
      GiveGoesThrough(m, list, s, region, b);
      a.ValidLands(b.start, Seen(list, b.start));
      ghost var list' := GiveBacks(m, list, s, region, b, a.loop);
      var halted := a.FreePages(b.start, b.len, Seen(list, b.start));
      page, s' := None, State(Free(s.free, b), s.out - Pages(b));
      GiveStep(s, b, s', policy, a.loop);
      OneList(a.Mem(), list', a.list);
  }

  lemma {:induction false} GiveStep(s: State, b: Block, s': State, policy: Policy, loop: Loop)
    requires b.len > 0 && Pages(b) <= s.out && (loop.Continues? ==> !Appends(s.free, b.start))
    requires s' == State(Free(s.free, b), s.out - Pages(b))
    ensures Step(s, Give(b), s', policy, loop)
  {
  }

  /** Memory records one list. */
  lemma {:induction false} OneList(m: Memory, list: seq<nat>, list': seq<nat>)
    requires Records(m, list) && Records(m, list')
    ensures list == list'
  {
    RecordsWalkable(m, list);
    RecordsWalkable(m, list');
    hide Records, Path, Carvable;
    PathWithin(m.links, |m.pages|, list, list');
  }
}
