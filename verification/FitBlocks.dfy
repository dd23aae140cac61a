/** The free list of the first-fit and best-fit allocators (lab2/kern/mm/default_pmm.c and
    best_fit_pmm.c) as a sequence of blocks: what alloc and free make of it, and what is true of it.
    The module FitAllocator proves the pointer code equal to these functions. */
module FitBlocks {

  datatype Block = Block(start: nat, len: nat)

  function End(b: Block): nat {
    b.start + b.len
  }

  ghost predicate In(b: Block, x: nat) {
    b.start <= x < End(b)
  }

  /** Page x is in one of the blocks. */
  ghost predicate Holds(bs: seq<Block>, x: nat) {
    exists i :: 0 <= i < |bs| && In(bs[i], x)
  }

  ghost predicate Ordered(bs: seq<Block>) {
    && (forall i :: 0 <= i < |bs| ==> bs[i].len > 0)
    && (forall i, j :: 0 <= i < j < |bs| ==> End(bs[i]) <= bs[j].start)
  }

  /** In address order, with a gap between any two: the maximal runs of the pages held. */
  ghost predicate Canonical(bs: seq<Block>) {
    && (forall i :: 0 <= i < |bs| ==> bs[i].len > 0)
    && (forall i, j :: 0 <= i < j < |bs| ==> End(bs[i]) < bs[j].start)
  }

  /** b is a block of pages none of which is held. */
  ghost predicate Apart(bs: seq<Block>, b: Block) {
    b.len > 0 && forall x :: In(b, x) ==> !Holds(bs, x)
  }

  function Total(bs: seq<Block>): nat {
    if bs == [] then 0 else bs[0].len + Total(bs[1..])
  }

  // ---------- Freeing ----------

  /** Where a block starting at p belongs: before the first block that starts above it. */
  function Place(bs: seq<Block>, p: nat): (i: nat)
    ensures i <= |bs|
    ensures forall j :: 0 <= j < i ==> bs[j].start <= p
    ensures i < |bs| ==> p < bs[i].start
  {
    if bs == [] || p < bs[0].start then 0 else 1 + Place(bs[1..], p)
  }

  function Insert(bs: seq<Block>, b: Block): seq<Block> {
    var i := Place(bs, b.start);
    bs[..i] + [b] + bs[i..]
  }

  lemma {:induction false} ApartFrom(bs: seq<Block>, b: Block, j: nat)
    requires j < |bs| && bs[j].len > 0 && Apart(bs, b)
    ensures End(bs[j]) <= b.start || End(b) <= bs[j].start
  {
    if bs[j].start < End(b) && b.start < End(bs[j]) {
      var x := if bs[j].start < b.start then b.start else bs[j].start;
      assert In(bs[j], x) && In(b, x);
    }
  }

  /** Page x is in one of the blocks but those from p up to q. */
  ghost predicate HoldsOutside(bs: seq<Block>, p: nat, q: nat, x: nat) {
    exists i :: 0 <= i < |bs| && (i < p || q <= i) && In(bs[i], x)
  }

  /** Replacing the blocks from p up to q by those of m. */
  lemma {:induction false} SpliceHolds(bs: seq<Block>, p: nat, q: nat, m: seq<Block>, x: nat)
    requires p <= q <= |bs|
    ensures Holds(bs[..p] + m + bs[q..], x) <==> HoldsOutside(bs, p, q, x) || Holds(m, x)
  {
    var c := bs[..p] + m + bs[q..];
    if Holds(c, x) {
      var i :| 0 <= i < |c| && In(c[i], x);
      if p <= i < p + |m| {
        assert In(m[i - p], x);
      } else {
        assert In(bs[if i < p then i else i - p - |m| + q], x);
      }
    }
    if HoldsOutside(bs, p, q, x) {
      var i :| 0 <= i < |bs| && (i < p || q <= i) && In(bs[i], x);
      assert c[if i < p then i else i - q + p + |m|] == bs[i];
    }
    if Holds(m, x) {
      var i :| 0 <= i < |m| && In(m[i], x);
      assert c[p + i] == m[i];
    }
  }

  lemma {:induction false} SpliceCanonical(bs: seq<Block>, p: nat, q: nat, m: Block)
    requires Canonical(bs) && p <= q <= |bs| && m.len > 0
    requires p > 0 ==> End(bs[p - 1]) < m.start
    requires q < |bs| ==> End(m) < bs[q].start
    ensures Canonical(bs[..p] + [m] + bs[q..])
  {
    assert forall j :: 0 <= j < p ==> End(bs[j]) < m.start;
    assert forall j :: q <= j < |bs| ==> End(m) < bs[j].start;
  }

  /** The blocks that freeing b at place i replaces, and the block it puts there. */
  function Fused(bs: seq<Block>, b: Block, i: nat): (nat, nat, Block)
    requires i <= |bs|
  {
    var back := i > 0 && End(bs[i - 1]) == b.start;
    var fore := i < |bs| && bs[i].start == End(b);
    var low := if back then bs[i - 1].start else b.start;
    var high := if fore then End(bs[i]) else End(b);
    (if back then i - 1 else i, if fore then i + 1 else i, Block(low, if low <= high then high - low else 0))
  }

  /** The list with b given back: fused with the block that ends where it starts and with the one
      that starts where it ends, if there are such. */
  function Free(bs: seq<Block>, b: Block): seq<Block> {
    var (p, q, m) := Fused(bs, b, Place(bs, b.start));
    bs[..p] + [m] + bs[q..]
  }

  /** Freeing a block keeps the canonical form and adds exactly its pages. */
  lemma {:induction false} FreeCanonical(bs: seq<Block>, b: Block)
    requires Canonical(bs) && Apart(bs, b)
    ensures Canonical(Free(bs, b))
    ensures forall x :: Holds(Free(bs, b), x) <==> Holds(bs, x) || In(b, x)
  {
    var i := Place(bs, b.start);
    if i > 0 { ApartFrom(bs, b, i - 1); }
    if i < |bs| { ApartFrom(bs, b, i); }
    var (p, q, m) := Fused(bs, b, i);
    SpliceCanonical(bs, p, q, m);
    forall x
      ensures Holds(Free(bs, b), x) <==> Holds(bs, x) || In(b, x)
    {
      SpliceHolds(bs, p, q, [m], x);
      FusedHolds(bs, b, i, x);
      assert [m][0] == m;
    }
  }

  lemma {:induction false} FusedHolds(bs: seq<Block>, b: Block, i: nat, x: nat)
    requires Canonical(bs) && b.len > 0 && i <= |bs|
    requires i > 0 ==> End(bs[i - 1]) <= b.start
    requires i < |bs| ==> End(b) <= bs[i].start
    ensures var (p, q, m) := Fused(bs, b, i);
      HoldsOutside(bs, p, q, x) || In(m, x) <==> Holds(bs, x) || In(b, x)
  {
    var (p, q, m) := Fused(bs, b, i);
    assert In(m, x) <==> In(b, x) || exists j :: p <= j < q && In(bs[j], x);
  }

  /** Blocks i and i + 1 made one. */
  function Pair(bs: seq<Block>, i: nat): seq<Block>
    requires i + 1 < |bs|
  {
    bs[..i] + [Block(bs[i].start, bs[i].len + bs[i + 1].len)] + bs[i + 2..]
  }

  predicate Touch(bs: seq<Block>, i: nat) {
    i + 1 < |bs| && End(bs[i]) == bs[i + 1].start
  }

  /** Freeing in the three steps the code takes: insert, fuse with the block below, fuse with the
      block above. */
  function FuseBack(bs: seq<Block>, i: nat): (r: (seq<Block>, nat))
    requires i < |bs|
    ensures r.1 < |r.0|
  {
    if i > 0 && Touch(bs, i - 1) then (Pair(bs, i - 1), i - 1) else (bs, i)
  }

  function FuseFore(bs: seq<Block>, i: nat): seq<Block> {
    if Touch(bs, i) then Pair(bs, i) else bs
  }

  lemma {:induction false} FreeInSteps(bs: seq<Block>, b: Block)
    requires Ordered(bs) && b.len > 0
    ensures var i := Place(bs, b.start); var (cs, j) := FuseBack(Insert(bs, b), i);
      FuseFore(cs, j) == Free(bs, b)
  {
    hide Ordered, FuseBack, FuseFore;
    var i := Place(bs, b.start);
    var (cs, j) := FuseBack(Insert(bs, b), i);
    var low := if i > 0 && End(bs[i - 1]) == b.start then Block(bs[i - 1].start, bs[i - 1].len + b.len) else b;
    FuseBackAt(bs, b, i, low);
    FuseForeAt(bs, cs, j, i, low);
  }

  lemma {:induction false} FuseForeAt(bs: seq<Block>, cs: seq<Block>, j: nat, i: nat, low: Block)
    requires j <= i <= |bs| && cs == bs[..j] + [low] + bs[i..]
    ensures FuseFore(cs, j) ==
      if i < |bs| && End(low) == bs[i].start
      then bs[..j] + [Block(low.start, low.len + bs[i].len)] + bs[i + 1..]
      else cs
  {
    if i < |bs| {
      assert cs[j + 1] == bs[i] && cs[..j] == bs[..j] && cs[j + 2..] == bs[i + 1..];
    }
  }

  lemma {:induction false} FuseBackAt(bs: seq<Block>, b: Block, i: nat, low: Block)
    requires i == Place(bs, b.start)
    ensures var (cs, j) := FuseBack(Insert(bs, b), i);
      && j == (if i > 0 && End(bs[i - 1]) == b.start then i - 1 else i)
      && (low == (if j < i then Block(bs[i - 1].start, bs[i - 1].len + b.len) else b) ==> cs == bs[..j] + [low] + bs[i..])
  {
    var ins := Insert(bs, b);
    if i > 0 && End(bs[i - 1]) == b.start {
      assert ins[i - 1] == bs[i - 1] && ins[i] == b;
      assert ins[..i - 1] == bs[..i - 1] && ins[i + 1..] == bs[i..];
    }
  }

  lemma {:induction false} InsertOrdered(bs: seq<Block>, b: Block)
    requires Ordered(bs) && Apart(bs, b)
    ensures Ordered(Insert(bs, b))
  {
    forall j | 0 <= j < |bs|
      ensures if j < Place(bs, b.start) then End(bs[j]) <= b.start else End(b) <= bs[j].start
    {
      ApartFrom(bs, b, j);
    }
  }

  lemma {:induction false} InsertHolds(bs: seq<Block>, b: Block, x: nat)
    ensures Holds(Insert(bs, b), x) <==> Holds(bs, x) || In(b, x)
  {
    var i := Place(bs, b.start);
    SpliceHolds(bs, i, i, [b], x);
    assert HoldsOutside(bs, i, i, x) <==> Holds(bs, x);
    assert [b][0] == b;
  }

  lemma {:induction false} PairOrdered(bs: seq<Block>, i: nat)
    requires Ordered(bs) && Touch(bs, i)
    ensures Ordered(Pair(bs, i))
  {
    var cs := Pair(bs, i);
    assert forall k :: 0 <= k < |cs| && k != i ==> cs[k] == bs[if k < i then k else k + 1];
    assert cs[i].start == bs[i].start && End(cs[i]) == End(bs[i + 1]);
  }

  /** Fusing two blocks that touch changes neither the pages nor their number. */
  lemma {:induction false} PairSame(bs: seq<Block>, i: nat)
    requires Touch(bs, i)
    ensures Total(Pair(bs, i)) == Total(bs)
    ensures forall x :: Holds(Pair(bs, i), x) <==> Holds(bs, x)
  {
    var m := Block(bs[i].start, bs[i].len + bs[i + 1].len);
    SpliceTotal(bs, i, i + 2, [m]);
    assert bs[i..i + 2] == [bs[i]] + [bs[i + 1]];
    TotalConcat([bs[i]], [bs[i + 1]]);
    forall x
      ensures Holds(Pair(bs, i), x) <==> Holds(bs, x)
    {
      SpliceHolds(bs, i, i + 2, [m], x);
      assert [m][0] == m;
      assert In(m, x) <==> In(bs[i], x) || In(bs[i + 1], x);
    }
  }

  lemma {:induction false} InsertTotal(bs: seq<Block>, b: Block)
    ensures Total(Insert(bs, b)) == Total(bs) + b.len
  {
    var i := Place(bs, b.start);
    SpliceTotal(bs, i, i, [b]);
  }

  // ---------- Allocating ----------

  /** The list after the first n pages of block i are taken. */
  function Take(bs: seq<Block>, i: nat, n: nat): seq<Block>
    requires i < |bs| && n <= bs[i].len
  {
    bs[..i] + (if bs[i].len > n then [Block(bs[i].start + n, bs[i].len - n)] else []) + bs[i + 1..]
  }

  lemma {:induction false} TakeCanonical(bs: seq<Block>, i: nat, n: nat)
    requires Canonical(bs) && i < |bs| && 0 < n <= bs[i].len
    ensures Canonical(Take(bs, i, n))
    ensures forall x :: Holds(Take(bs, i, n), x) <==> Holds(bs, x) && !In(Block(bs[i].start, n), x)
  {
    TakeKeepsOrder(bs, i, n);
    hide Take, Holds, HoldsOutside;
    forall x
      ensures Holds(Take(bs, i, n), x) <==> Holds(bs, x) && !In(Block(bs[i].start, n), x)
    {
      TakeHolds(bs, i, n, x);
      OutsideBlock(bs, i, x);
    }
  }

  lemma {:induction false} TakeKeepsOrder(bs: seq<Block>, i: nat, n: nat)
    requires Canonical(bs) && i < |bs| && n <= bs[i].len
    ensures Canonical(Take(bs, i, n))
  {
    hide Canonical;
    if bs[i].len > n {
      TakeSplices(bs, i, n);
    } else {
      assert Take(bs, i, n) == bs[..i] + bs[i + 1..];
      DropCanonical(bs, i);
    }
  }

  lemma {:induction false} TakeSplices(bs: seq<Block>, i: nat, n: nat)
    requires Canonical(bs) && i < |bs| && n < bs[i].len
    ensures Canonical(Take(bs, i, n))
  {
    SpliceCanonical(bs, i, i + 1, Block(bs[i].start + n, bs[i].len - n));
  }

  lemma {:induction false} DropCanonical(bs: seq<Block>, i: nat)
    requires Canonical(bs) && i < |bs|
    ensures Canonical(bs[..i] + bs[i + 1..])
  {
  }

  lemma {:induction false} TakeHolds(bs: seq<Block>, i: nat, n: nat, x: nat)
    requires i < |bs| && n <= bs[i].len
    ensures Holds(Take(bs, i, n), x) <==> HoldsOutside(bs, i, i + 1, x) || (In(bs[i], x) && x >= bs[i].start + n)
  {
    var rest := if bs[i].len > n then [Block(bs[i].start + n, bs[i].len - n)] else [];
    SpliceHolds(bs, i, i + 1, rest, x);
    if rest != [] { assert rest[0] == Block(bs[i].start + n, bs[i].len - n); }
  }

  lemma {:induction false} TakeOrdered(bs: seq<Block>, i: nat, n: nat)
    requires Ordered(bs) && i < |bs| && n <= bs[i].len
    ensures Ordered(Take(bs, i, n))
  {
    var cs := Take(bs, i, n);
    var shift := if bs[i].len > n then 0 else 1;
    forall k | 0 <= k < |cs|
      ensures cs[k].len > 0 && bs[if k < i then k else k + shift].start <= cs[k].start && End(cs[k]) == End(bs[if k < i then k else k + shift])
    {
    }
  }

  lemma {:induction false} TakeWithin(bs: seq<Block>, i: nat, n: nat)
    requires i < |bs| && n <= bs[i].len
    ensures forall x :: Holds(Take(bs, i, n), x) ==> Holds(bs, x)
  {
    var rest := if bs[i].len > n then [Block(bs[i].start + n, bs[i].len - n)] else [];
    forall x | Holds(Take(bs, i, n), x)
      ensures Holds(bs, x)
    {
      SpliceHolds(bs, i, i + 1, rest, x);
      if Holds(rest, x) { assert In(rest[0], x) && In(bs[i], x); }
    }
  }

  /** A page of block i is in no other block. */
  lemma {:induction false} OutsideBlock(bs: seq<Block>, i: nat, x: nat)
    requires Canonical(bs) && i < |bs|
    ensures Holds(bs, x) <==> HoldsOutside(bs, i, i + 1, x) || In(bs[i], x)
    ensures In(bs[i], x) ==> !HoldsOutside(bs, i, i + 1, x)
  {
  }

  /** First fit: the first block of at least n pages. */
  ghost predicate IsFirst(bs: seq<Block>, n: nat, i: nat) {
    i < |bs| && n <= bs[i].len && forall j :: 0 <= j < i ==> bs[j].len < n
  }

  /** Best fit: the first of the smallest blocks of at least n pages. */
  ghost predicate IsBest(bs: seq<Block>, n: nat, i: nat) {
    && i < |bs| && n <= bs[i].len
    && (forall j :: 0 <= j < |bs| && n <= bs[j].len ==> bs[i].len <= bs[j].len)
    && (forall j :: 0 <= j < i && n <= bs[j].len ==> bs[i].len < bs[j].len)
  }

  /** The same among the blocks of at most cap pages: the search starts from the minimum cap + 1. */
  ghost predicate IsBestWithin(bs: seq<Block>, n: nat, cap: nat, i: nat) {
    && i < |bs| && n <= bs[i].len <= cap
    && (forall j :: 0 <= j < |bs| && n <= bs[j].len <= cap ==> bs[i].len <= bs[j].len)
    && (forall j :: 0 <= j < i && n <= bs[j].len <= cap ==> bs[i].len < bs[j].len)
  }

  ghost predicate FitsWithin(bs: seq<Block>, n: nat, cap: nat) {
    exists j :: 0 <= j < |bs| && n <= bs[j].len <= cap
  }

  /** The search for the best fit, over the first "at" blocks: none fits yet, or block i is the first
      of the smallest that do, and has min pages. */
  ghost predicate BestSoFar(bs: seq<Block>, n: nat, at: nat, found: bool, i: nat, min: nat, cap: nat) {
    && at <= |bs|
    && if found then i < at && n <= bs[i].len == min && IsBestWithin(bs[..at], n, cap, i)
       else min == cap + 1 && !FitsWithin(bs[..at], n, cap)
  }

  lemma {:induction false} BestStart(bs: seq<Block>, n: nat, cap: nat)
    ensures BestSoFar(bs, n, 0, false, 0, cap + 1, cap)
  {
  }

  lemma {:induction false} BestStep(bs: seq<Block>, n: nat, at: nat, found: bool, i: nat, min: nat, cap: nat)
    requires BestSoFar(bs, n, at, found, i, min, cap) && at < |bs|
    ensures var better := n <= bs[at].len < min;
      BestSoFar(bs, n, at + 1, found || better, if better then at else i, if better then bs[at].len else min, cap)
    ensures found ==> i < at
  {
    assert bs[..at + 1] == bs[..at] + [bs[at]];
  }

  lemma {:induction false} BestEnd(bs: seq<Block>, n: nat, found: bool, i: nat, min: nat, cap: nat)
    requires BestSoFar(bs, n, |bs|, found, i, min, cap)
    ensures if found then IsBestWithin(bs, n, cap, i) else forall j: nat :: !IsBestWithin(bs, n, cap, j)
  {
    assert bs[..|bs|] == bs;
  }

  /** No block is larger than all together, so the bound changes nothing when it is their total. */
  lemma {:induction false} WithinTotal(bs: seq<Block>, n: nat, i: nat)
    ensures IsBestWithin(bs, n, Total(bs), i) <==> IsBest(bs, n, i)
    ensures FitsWithin(bs, n, Total(bs)) <==> Fits(bs, n)
  {
    forall j: nat | j < |bs|
      ensures bs[j].len <= Total(bs)
    {
      LenWithinTotal(bs, j);
    }
  }

  ghost predicate Fits(bs: seq<Block>, n: nat) {
    exists i :: 0 <= i < |bs| && n <= bs[i].len
  }

  /** The pages p, ..., p + n - 1 are all held. */
  ghost predicate HoldsRun(bs: seq<Block>, p: nat, n: nat) {
    forall x :: p <= x < p + n ==> Holds(bs, x)
  }

  /** A run of pages held lies in one block: here the coalescing pays. */
  lemma {:induction false} RunInBlock(bs: seq<Block>, p: nat, n: nat) returns (i: nat)
    requires Canonical(bs) && n > 0 && HoldsRun(bs, p, n)
    ensures i < |bs| && bs[i].start <= p && p + n <= End(bs[i])
    decreases n
  {
    if n == 1 {
      assert Holds(bs, p);
      i :| 0 <= i < |bs| && In(bs[i], p);
    } else {
      i := RunInBlock(bs, p, n - 1);
      assert Holds(bs, p + n - 1);
      var j :| 0 <= j < |bs| && In(bs[j], p + n - 1);
      assert j == i;
    }
  }

  /** A block of n pages can be had exactly when n contiguous pages are free anywhere. */
  lemma {:induction false} FitsIff(bs: seq<Block>, n: nat)
    requires Canonical(bs) && n > 0
    ensures Fits(bs, n) <==> exists p :: HoldsRun(bs, p, n)
  {
    if Fits(bs, n) {
      var i :| 0 <= i < |bs| && n <= bs[i].len;
      forall x | bs[i].start <= x < bs[i].start + n
        ensures Holds(bs, x)
      {
        assert In(bs[i], x);
      }
      assert HoldsRun(bs, bs[i].start, n);
    }
    if p :| HoldsRun(bs, p, n) {
      var i := RunInBlock(bs, p, n);
    }
  }

  // ---------- The pages held determine the list ----------

  lemma {:induction false} HoldsTail(bs: seq<Block>, x: nat)
    requires Canonical(bs) && bs != []
    ensures Holds(bs[1..], x) <==> Holds(bs, x) && x >= End(bs[0])
  {
    if Holds(bs[1..], x) {
      var j :| 0 <= j < |bs[1..]| && In(bs[1..][j], x);
      assert In(bs[j + 1], x);
    }
    if Holds(bs, x) && x >= End(bs[0]) {
      var j :| 0 <= j < |bs| && In(bs[j], x);
      assert bs[1..][j - 1] == bs[j];
    }
  }

  lemma {:induction false} FirstBlock(bs: seq<Block>)
    requires Canonical(bs) && bs != []
    ensures Holds(bs, bs[0].start) && !Holds(bs, End(bs[0]))
    ensures forall x: nat :: x < bs[0].start ==> !Holds(bs, x)
    ensures forall x :: bs[0].start <= x < End(bs[0]) ==> Holds(bs, x)
  {
    forall x | bs[0].start <= x < End(bs[0])
      ensures Holds(bs, x)
    {
      assert In(bs[0], x);
    }
    assert forall j :: 0 < j < |bs| ==> End(bs[0]) < bs[j].start;
    assert In(bs[0], bs[0].start);
  }

  /** Two canonical lists of the same pages are equal. */
  lemma {:induction false} CanonicalUnique(cs: seq<Block>, bs: seq<Block>)
    requires Canonical(cs) && Canonical(bs) && forall x :: Holds(cs, x) <==> Holds(bs, x)
    ensures cs == bs
  {
    if cs == [] {
      if bs != [] { FirstBlock(bs); }
    } else {
      FirstBlock(cs);
      assert Holds(bs, cs[0].start);
      FirstBlock(bs);
      assert Holds(cs, bs[0].start);
      assert cs[0].start == bs[0].start;
      assert !Holds(cs, End(bs[0]));
      assert End(cs[0]) == End(bs[0]);
      forall x
        ensures Holds(cs[1..], x) <==> Holds(bs[1..], x)
      {
        HoldsTail(cs, x);
        HoldsTail(bs, x);
      }
      CanonicalUnique(cs[1..], bs[1..]);
      assert cs == [cs[0]] + cs[1..] && bs == [bs[0]] + bs[1..];
    }
  }

  // ---------- Counting ----------

  lemma {:induction false} TotalConcat(a: seq<Block>, b: seq<Block>)
    ensures Total(a + b) == Total(a) + Total(b)
  {
    if a == [] {
      assert a + b == b;
    } else {
      assert (a + b)[1..] == a[1..] + b;
      TotalConcat(a[1..], b);
    }
  }

  lemma {:induction false} SpliceTotal(bs: seq<Block>, p: nat, q: nat, m: seq<Block>)
    requires p <= q <= |bs|
    ensures Total(bs[..p] + m + bs[q..]) == Total(bs) - Total(bs[p..q]) + Total(m)
  {
    TotalConcat(bs[..p] + m, bs[q..]);
    TotalConcat(bs[..p], m);
    assert bs == bs[..p] + bs[p..q] + bs[q..];
    TotalConcat(bs[..p] + bs[p..q], bs[q..]);
    TotalConcat(bs[..p], bs[p..q]);
  }

  lemma {:induction false} FreeTotal(bs: seq<Block>, b: Block)
    requires Canonical(bs) && Apart(bs, b)
    ensures Total(Free(bs, b)) == Total(bs) + b.len
  {
    var i := Place(bs, b.start);
    if i > 0 { ApartFrom(bs, b, i - 1); }
    if i < |bs| { ApartFrom(bs, b, i); }
    var (p, q, m) := Fused(bs, b, i);
    SpliceTotal(bs, p, q, [m]);
    FusedTotal(bs, b, i);
  }

  lemma {:induction false} FusedTotal(bs: seq<Block>, b: Block, i: nat)
    requires i <= |bs| && (i > 0 ==> End(bs[i - 1]) <= b.start) && (i < |bs| ==> End(b) <= bs[i].start)
    ensures var (p, q, m) := Fused(bs, b, i); m.len == Total(bs[p..q]) + b.len
  {
    var (p, q, m) := Fused(bs, b, i);
    assert bs[p..q] == bs[p..i] + bs[i..q];
    TotalConcat(bs[p..i], bs[i..q]);
    if p < i { assert bs[p..i] == [bs[i - 1]]; }
    if i < q { assert bs[i..q] == [bs[i]]; }
  }

  lemma {:induction false} LenWithinTotal(bs: seq<Block>, i: nat)
    requires i < |bs|
    ensures bs[i].len <= Total(bs)
  {
    if i > 0 { LenWithinTotal(bs[1..], i - 1); }
  }

  lemma {:induction false} TakeTotal(bs: seq<Block>, i: nat, n: nat)
    requires i < |bs| && n <= bs[i].len
    ensures Total(Take(bs, i, n)) == Total(bs) - n
  {
    SpliceTotal(bs, i, i + 1, if bs[i].len > n then [Block(bs[i].start + n, bs[i].len - n)] else []);
    assert bs[i..i + 1] == [bs[i]];
  }
}
