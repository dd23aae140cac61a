/** Whole runs of the first-fit and best-fit allocators on their free list, from one init_memmap. */
module FitRuns {
  import opened FitBlocks

  /** Whether the insertion of a block at p ends in the branch that appends to the list.  As written
      the loop then goes on (Loop.Continues) and links the block to itself; FitAsWritten says what
      comes of that.  With a break there (Loop.Stops) the list stays well formed. */
  predicate Appends(bs: seq<Block>, p: nat) {
    bs != [] && bs[|bs| - 1].start < p
  }

  datatype Loop = Continues | Stops

  datatype Policy = FirstFit | BestFit

  datatype Op = Ask(n: nat) | Give(b: Block)

  /** The region, the free list, and the pages handed out. */
  datatype State = State(free: seq<Block>, out: set<nat>)

  ghost function Pages(b: Block): set<nat> {
    set x: nat | b.start <= x < End(b) && In(b, x)
  }

  ghost predicate Chosen(policy: Policy, bs: seq<Block>, n: nat, i: nat) {
    if policy.FirstFit? then IsFirst(bs, n, i) else IsBest(bs, n, i)
  }

  /** A call and its effect.  A request finds a block by the policy or fails if there is none; what
      is given back are pages that were handed out, in one piece or another. */
  ghost predicate Step(s: State, op: Op, s': State, policy: Policy, loop: Loop) {
    match op
    case Ask(n) =>
      && n > 0
      && if Fits(s.free, n)
         then exists i: nat :: Chosen(policy, s.free, n, i) && s' == State(Take(s.free, i, n), s.out + Pages(Block(s.free[i].start, n)))
         else s' == s
    case Give(b) =>
      && b.len > 0 && Pages(b) <= s.out
      && (loop.Continues? ==> !Appends(s.free, b.start))
      && s' == State(Free(s.free, b), s.out - Pages(b))
  }

  ghost predicate Run(s: State, ops: seq<Op>, s': State, policy: Policy, loop: Loop)
    decreases |ops|
  {
    if ops == [] then s' == s
    else exists m :: Step(s, ops[0], m, policy, loop) && Run(m, ops[1..], s', policy, loop)
  }

  /** The free list is canonical, and holds just the pages of the region that are not out. */
  ghost predicate Good(s: State, region: Block) {
    && Canonical(s.free) && s.out <= Pages(region)
    && (forall x: nat :: Holds(s.free, x) <==> x in Pages(region) && x !in s.out)
    && Total(s.free) + |s.out| == region.len
  }

  lemma {:induction false} CountPages(b: Block)
    ensures |Pages(b)| == b.len
    decreases b.len
  {
    if b.len > 0 {
      var c := Block(b.start, b.len - 1);
      CountPages(c);
      forall x: nat
        ensures x in Pages(b) <==> x in Pages(c) + {End(b) - 1}
      {
        assert In(b, x) <==> In(c, x) || x == End(b) - 1;
      }
      assert Pages(b) == Pages(c) + {End(b) - 1};
    } else {
      assert Pages(b) == {};
    }
  }

  lemma {:induction false} InitGood(region: Block)
    requires region.len > 0
    ensures Good(State([region], {}), region)
  {
    assert [region][0] == region;
    forall x: nat
      ensures Holds([region], x) <==> x in Pages(region)
    {
      if x in Pages(region) { assert In([region][0], x); }
    }
  }

  lemma {:induction false} TakeGood(s: State, i: nat, n: nat, region: Block)
    requires Good(s, region) && i < |s.free| && 0 < n <= s.free[i].len
    ensures Good(State(Take(s.free, i, n), s.out + Pages(Block(s.free[i].start, n))), region)
  {
    var b := Block(s.free[i].start, n);
    TakeCanonical(s.free, i, n);
    TakeTotal(s.free, i, n);
    CountPages(b);
    forall x | x in Pages(b)
      ensures x in Pages(region) && x !in s.out
    {
      assert In(b, x);
      assert In(s.free[i], x);
      assert Holds(s.free, x);
    }
    assert Pages(b) !! s.out;
  }

  lemma {:induction false} GiveGood(s: State, b: Block, region: Block)
    requires Good(s, region) && b.len > 0 && Pages(b) <= s.out
    ensures Apart(s.free, b)
    ensures Good(State(Free(s.free, b), s.out - Pages(b)), region)
  {
    forall x: nat | In(b, x)
      ensures !Holds(s.free, x)
    {
      assert x in Pages(b);
    }
    FreeCanonical(s.free, b);
    FreeTotal(s.free, b);
    CountPages(b);
    forall x: nat
      ensures Holds(Free(s.free, b), x) <==> x in Pages(region) && x !in s.out - Pages(b)
    {
      assert In(b, x) <==> x in Pages(b);
    }
  }

  /** Every state of every run is good, with a break in the insertion loop, or as written as long as
      no block is appended. */
  lemma {:induction false} RunGood(s: State, ops: seq<Op>, s': State, policy: Policy, loop: Loop, region: Block)
    requires Good(s, region) && Run(s, ops, s', policy, loop)
    ensures Good(s', region)
    decreases |ops|
  {
    if ops != [] {
      var m :| Step(s, ops[0], m, policy, loop) && Run(m, ops[1..], s', policy, loop);
      match ops[0]
      case Ask(n) =>
        if Fits(s.free, n) {
          var i: nat :| Chosen(policy, s.free, n, i) && m == State(Take(s.free, i, n), s.out + Pages(Block(s.free[i].start, n)));
          TakeGood(s, i, n, region);
        }
        RunGood(m, ops[1..], s', policy, loop, region);
      case Give(b) =>
        GiveGood(s, b, region);
        RunGood(m, ops[1..], s', policy, loop, region);
    }
  }

  /** After any run from init_memmap: a request of n pages can be met exactly when there are n
      contiguous pages of the region that are not out. */
  lemma {:induction false} AskIsComplete(region: Block, ops: seq<Op>, s: State, policy: Policy, loop: Loop, n: nat)
    requires region.len > 0 && Run(State([region], {}), ops, s, policy, loop) && n > 0
    ensures Fits(s.free, n) <==> exists p: nat :: Vacant(s, region, p, n)
  {
    InitGood(region);
    RunGood(State([region], {}), ops, s, policy, loop, region);
    FitsIff(s.free, n);
    if p :| HoldsRun(s.free, p, n) { assert Vacant(s, region, p, n); }
    if p: nat :| Vacant(s, region, p, n) {
      assert forall x: nat :: p <= x < p + n ==> Holds(s.free, x);
      assert HoldsRun(s.free, p, n);
    }
  }

  ghost predicate Vacant(s: State, region: Block, p: nat, n: nat) {
    forall x: nat :: p <= x < p + n ==> x in Pages(region) && x !in s.out
  }

  /** Any two runs, by either policy, that leave the same pages out leave the same free list. */
  lemma {:induction false} OutDeterminesList(region: Block, ops1: seq<Op>, s1: State, policy1: Policy, loop1: Loop,
                                             ops2: seq<Op>, s2: State, policy2: Policy, loop2: Loop)
    requires region.len > 0 && s1.out == s2.out
    requires Run(State([region], {}), ops1, s1, policy1, loop1) && Run(State([region], {}), ops2, s2, policy2, loop2)
    ensures s1 == s2
  {
    InitGood(region);
    RunGood(State([region], {}), ops1, s1, policy1, loop1, region);
    RunGood(State([region], {}), ops2, s2, policy2, loop2, region);
    CanonicalUnique(s1.free, s2.free);
  }

  // ---------- Freeing commutes ----------

  function FreeAll(bs: seq<Block>, gives: seq<Block>): seq<Block>
    decreases |gives|
  {
    if gives == [] then bs else FreeAll(Free(bs, gives[0]), gives[1..])
  }

  /** The blocks to be given back share no page with one another or with the list. */
  ghost predicate AllApart(bs: seq<Block>, gives: seq<Block>) {
    && (forall i :: 0 <= i < |gives| ==> Apart(bs, gives[i]))
    && (forall i, j, x :: 0 <= i < j < |gives| ==> !(In(gives[i], x) && In(gives[j], x)))
  }

  lemma {:induction false} FreeAllHolds(bs: seq<Block>, gives: seq<Block>)
    requires Canonical(bs) && AllApart(bs, gives)
    ensures Canonical(FreeAll(bs, gives))
    ensures forall x :: Holds(FreeAll(bs, gives), x) <==> Holds(bs, x) || Holds(gives, x)
    decreases |gives|
  {
    if gives != [] {
      var b, rest := gives[0], gives[1..];
      FreeCanonical(bs, b);
      forall i | 0 <= i < |rest|
        ensures Apart(Free(bs, b), rest[i])
      {
        assert rest[i] == gives[i + 1];
        forall x | In(rest[i], x)
          ensures !Holds(Free(bs, b), x)
        {
          assert In(gives[i + 1], x);
          assert !In(gives[0], x);
        }
      }
      FreeAllHolds(Free(bs, b), rest);
      forall x
        ensures Holds(gives, x) <==> In(b, x) || Holds(rest, x)
      {
        if Holds(rest, x) {
          var i :| 0 <= i < |rest| && In(rest[i], x);
          assert In(gives[i + 1], x);
        }
        if Holds(gives, x) && !In(b, x) {
          var i :| 0 <= i < |gives| && In(gives[i], x);
          assert In(rest[i - 1], x);
        }
      }
    }
  }

  /** Giving back the same blocks in any two orders leaves the same list. */
  lemma {:induction false} FreeingCommutes(bs: seq<Block>, gives: seq<Block>, gives': seq<Block>)
    requires Canonical(bs) && AllApart(bs, gives) && AllApart(bs, gives')
    requires forall b :: b in gives <==> b in gives'
    ensures FreeAll(bs, gives) == FreeAll(bs, gives')
  {
    FreeAllHolds(bs, gives);
    FreeAllHolds(bs, gives');
    SameBlocks(gives, gives');
    SameBlocks(gives', gives);
    CanonicalUnique(FreeAll(bs, gives), FreeAll(bs, gives'));
  }

  lemma {:induction false} SameBlocks(gives: seq<Block>, gives': seq<Block>)
    requires forall b :: b in gives ==> b in gives'
    ensures forall x :: Holds(gives, x) ==> Holds(gives', x)
  {
    forall x | Holds(gives, x)
      ensures Holds(gives', x)
    {
      var i :| 0 <= i < |gives| && In(gives[i], x);
      assert gives[i] in gives';
      var j :| 0 <= j < |gives'| && gives'[j] == gives[i];
      assert In(gives'[j], x);
    }
  }
}
