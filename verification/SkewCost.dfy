/** The amortised cost of the skew heap operations, counted in calls of merge. */
module SkewCost {
  import opened Powers
  import opened SkewTree

  /** How many calls of merge one call makes, itself included. */
  function MergeCalls<T>(a: Tree<T>, b: Tree<T>, comp: (T, T) -> int): nat
    decreases Size(a) + Size(b)
  {
    if a.Leaf? || b.Leaf? then 1
    else if comp(a.root, b.root) == -1 then 1 + MergeCalls(a.right, b, comp)
    else 1 + MergeCalls(a, b.right, comp)
  }

  function RemoveCalls<T(==)>(t: Tree<T>, x: T, comp: (T, T) -> int): nat
    requires x in Entries(t)
  {
    var s := Subtree(t, x);
    MergeCalls(s.left, s.right, comp)
  }

  function RightHeavy<T>(l: Tree<T>, r: Tree<T>): nat {
    if Size(l) < Size(r) then 1 else 0
  }

  /** The potential: how many nodes have more below them on the right than on the left. */
  function Potential<T>(t: Tree<T>): nat {
    match t
    case Leaf => 0
    case Node(l, _, r) => Potential(l) + RightHeavy(l, r) + Potential(r)
  }

  /** Right-heavy nodes on the left spine. */
  function LeftSpine<T>(t: Tree<T>): nat {
    match t
    case Leaf => 0
    case Node(l, _, r) => RightHeavy(l, r) + LeftSpine(l)
  }

  /** Nodes on the right spine that are not right-heavy. */
  function RightSpine<T>(t: Tree<T>): nat {
    match t
    case Leaf => 0
    case Node(l, _, r) => 1 - RightHeavy(l, r) + RightSpine(r)
  }

  /** Ancestors of x with equal halves and x on the left: removing x makes them right-heavy. */
  function Tipped<T(==)>(t: Tree<T>, x: T): nat
    requires x in Entries(t)
  {
    if t.root == x then 0
    else if x in Entries(t.left) then (if Size(t.left) == Size(t.right) then 1 else 0) + Tipped(t.left, x)
    else Tipped(t.right, x)
  }

  lemma {:induction false} SpinesAreShort<T>(t: Tree<T>, n: nat)
    requires Size(t) + 1 <= n
    ensures LeftSpine(t) <= Log2(n) && RightSpine(t) <= Log2(n)
  {
    SpinesByPowers(t);
    Log2Spec(n, LeftSpine(t));
    Log2Spec(n, RightSpine(t));
  }

  lemma {:induction false} SpinesByPowers<T>(t: Tree<T>)
    ensures Pow2(LeftSpine(t)) <= Size(t) + 1
    ensures Pow2(RightSpine(t)) <= Size(t) + 1
  {
    if t.Node? {
      SpinesByPowers(t.left);
      SpinesByPowers(t.right);
    }
  }

  lemma {:induction false} TippedByPowers<T>(t: Tree<T>, x: T)
    requires x in Entries(t)
    ensures Pow2(Tipped(t, x)) <= Size(t)
  {
    if t.root != x {
      if x in Entries(t.left) {
        TippedByPowers(t.left, x);
      } else {
        TippedByPowers(t.right, x);
      }
    }
  }

  lemma {:induction false} MergeCallsBySpines<T>(a: Tree<T>, b: Tree<T>, comp: (T, T) -> int)
    ensures MergeCalls(a, b, comp) + Potential(Merge(a, b, comp))
         <= Potential(a) + Potential(b) + LeftSpine(Merge(a, b, comp)) + RightSpine(a) + RightSpine(b) + 1
    decreases Size(a) + Size(b)
  {
    if a.Node? && b.Node? {
      if comp(a.root, b.root) == -1 {
        MergeEntries(a.right, b, comp);
        MergeCallsBySpines(a.right, b, comp);
      } else {
        MergeEntries(a, b.right, comp);
        MergeCallsBySpines(a, b.right, comp);
      }
    }
  }

  lemma {:induction false} SpineSum<T>(a: Tree<T>, b: Tree<T>, m: Tree<T>, n: nat)
    requires Size(m) == Size(a) + Size(b) == n
    ensures LeftSpine(m) + RightSpine(a) + RightSpine(b) <= 3 * Log2(n + 1)
  {
    SpinesAreShort(a, n + 1);
    SpinesAreShort(b, n + 1);
    SpinesAreShort(m, n + 1);
  }

  /** One merge: calls plus the change of potential are logarithmic. */
  lemma {:induction false} MergeAmortised<T>(a: Tree<T>, b: Tree<T>, comp: (T, T) -> int)
    ensures MergeCalls(a, b, comp) + Potential(Merge(a, b, comp))
         <= Potential(a) + Potential(b) + 3 * Log2(Size(a) + Size(b) + 1) + 1
  {
    var m := Merge(a, b, comp);
    MergeEntries(a, b, comp);
    SpineSum(a, b, m, Size(a) + Size(b));
    MergeCallsBySpines(a, b, comp);
  }

  lemma {:induction false} InsertAmortised<T>(t: Tree<T>, x: T, comp: (T, T) -> int)
    ensures MergeCalls(t, Single(x), comp) + Potential(Merge(t, Single(x), comp))
         <= Potential(t) + 3 * Log2(Size(t) + 2) + 1
  {
    MergeAmortised(t, Single(x), comp);
  }

  lemma {:induction false} RemoveCallsByTipped<T>(t: Tree<T>, x: T, comp: (T, T) -> int)
    requires x in Entries(t) && Distinct(t)
    ensures RemoveCalls(t, x, comp) + Potential(Cut(t, x, comp))
         <= Potential(t) + 3 * Log2(Size(t)) + 1 + Tipped(t, x)
  {
    if t.root == x {
      MergeAmortised(t.left, t.right, comp);
    } else if x in Entries(t.left) {
      CutEntries(t.left, x, comp);
      RemoveCallsByTipped(t.left, x, comp);
      Log2Mono(Size(t.left), Size(t));
    } else {
      CutEntries(t.right, x, comp);
      RemoveCallsByTipped(t.right, x, comp);
      Log2Mono(Size(t.right), Size(t));
    }
  }

  /** Removing any entry is logarithmic too: the merge at x plus the ancestors that tip over. */
  lemma {:induction false} RemoveAmortised<T>(t: Tree<T>, x: T, comp: (T, T) -> int)
    requires x in Entries(t) && Distinct(t)
    ensures RemoveCalls(t, x, comp) + Potential(Cut(t, x, comp)) <= Potential(t) + 4 * Log2(Size(t)) + 1
  {
    RemoveCallsByTipped(t, x, comp);
    TippedByPowers(t, x);
    Log2Spec(Size(t), Tipped(t, x));
  }

  // ---------- Whole runs ----------

  datatype Op<T> = Insert(x: T) | Remove(x: T)

  /** An insertion of an entry not in the heap, or a removal of one that is. */
  predicate Legal<T(==)>(t: Tree<T>, op: Op<T>) {
    op.Insert? <==> op.x !in Entries(t)
  }

  function Step<T(==)>(t: Tree<T>, op: Op<T>, comp: (T, T) -> int): Tree<T>
    requires Legal(t, op)
  {
    match op
    case Insert(x) => Merge(t, Single(x), comp)
    case Remove(x) => Cut(t, x, comp)
  }

  function StepCalls<T(==)>(t: Tree<T>, op: Op<T>, comp: (T, T) -> int): nat
    requires Legal(t, op)
  {
    match op
    case Insert(x) => MergeCalls(t, Single(x), comp)
    case Remove(x) => RemoveCalls(t, x, comp)
  }

  predicate LegalRun<T(==)>(t: Tree<T>, ops: seq<Op<T>>, comp: (T, T) -> int)
    decreases |ops|
  {
    ops == [] || (Legal(t, ops[0]) && LegalRun(Step(t, ops[0], comp), ops[1..], comp))
  }

  function Run<T(==)>(t: Tree<T>, ops: seq<Op<T>>, comp: (T, T) -> int): Tree<T>
    requires LegalRun(t, ops, comp)
    decreases |ops|
  {
    if ops == [] then t else Run(Step(t, ops[0], comp), ops[1..], comp)
  }

  function RunCalls<T(==)>(t: Tree<T>, ops: seq<Op<T>>, comp: (T, T) -> int): nat
    requires LegalRun(t, ops, comp)
    decreases |ops|
  {
    if ops == [] then 0 else StepCalls(t, ops[0], comp) + RunCalls(Step(t, ops[0], comp), ops[1..], comp)
  }

  /** What a run leaves in the heap, by a reading that knows nothing of trees. */
  function Live<T(==)>(S: set<T>, ops: seq<Op<T>>): set<T>
    decreases |ops|
  {
    if ops == [] then S
    else Live(if ops[0].Insert? then S + {ops[0].x} else S - {ops[0].x}, ops[1..])
  }

  lemma {:induction false} StepKeeps<T>(t: Tree<T>, op: Op<T>, comp: (T, T) -> int, S: set<T>)
    requires Legal(t, op) && Distinct(t) && HeapOrdered(t, comp)
    requires Entries(t) + {op.x} <= S && Compares(comp, S)
    ensures var t' := Step(t, op, comp);
      && Distinct(t') && HeapOrdered(t', comp)
      && Entries(t') == (if op.Insert? then Entries(t) + {op.x} else Entries(t) - {op.x})
  {
    match op
    case Insert(x) =>
      MergeEntries(t, Single(x), comp);
      MergeDistinct(t, Single(x), comp);
      assert comp(x, x) != -1;
      MergeOrdered(t, Single(x), comp);
    case Remove(x) =>
      CutEntries(t, x, comp);
      CutDistinct(t, x, comp);
      CutOrdered(t, x, comp);
  }

  /** After any legal run the heap is ordered, repeats nothing and holds exactly what was
      inserted and not removed since. */
  lemma {:induction false} RunKeeps<T>(t: Tree<T>, ops: seq<Op<T>>, comp: (T, T) -> int, S: set<T>)
    requires LegalRun(t, ops, comp) && Distinct(t) && HeapOrdered(t, comp)
    requires Entries(t) <= S && (forall op :: op in ops ==> op.x in S) && Compares(comp, S)
    ensures var t' := Run(t, ops, comp);
      Distinct(t') && HeapOrdered(t', comp) && Entries(t') == Live(Entries(t), ops)
    decreases |ops|
  {
    if ops != [] {
      assert ops[0] in ops;
      StepKeeps(t, ops[0], comp, S);
      RunKeeps(Step(t, ops[0], comp), ops[1..], comp, S);
    }
  }

  lemma {:induction false} StepAmortised<T>(t: Tree<T>, op: Op<T>, comp: (T, T) -> int)
    requires Legal(t, op) && Distinct(t)
    ensures var t' := Step(t, op, comp);
      && Distinct(t') && Size(t') <= Size(t) + 1
      && StepCalls(t, op, comp) + Potential(t') <= Potential(t) + 4 * Log2(Size(t) + 2) + 1
  {
    match op
    case Insert(x) =>
      InsertStep(t, x, comp);
    case Remove(x) =>
      CutEntries(t, x, comp);
      CutDistinct(t, x, comp);
      RemoveAmortised(t, x, comp);
      hide Distinct, Entries, Cut, Log2, Potential;
      Log2Mono(Size(t), Size(t) + 2);
  }

  lemma {:induction false} InsertStep<T>(t: Tree<T>, x: T, comp: (T, T) -> int)
    requires Distinct(t) && x !in Entries(t)
    ensures var t' := Merge(t, Single(x), comp);
      && Distinct(t') && Size(t') == Size(t) + 1
      && MergeCalls(t, Single(x), comp) + Potential(t') <= Potential(t) + 3 * Log2(Size(t) + 2) + 1
  {
    MergeEntries(t, Single(x), comp);
    MergeDistinct(t, Single(x), comp);
    InsertAmortised(t, x, comp);
  }

  lemma {:induction false} RunAmortised<T>(t: Tree<T>, ops: seq<Op<T>>, comp: (T, T) -> int, bound: nat, each: nat)
    requires LegalRun(t, ops, comp) && Distinct(t) && Size(t) + |ops| <= bound
    requires each == 4 * Log2(bound + 1) + 1
    ensures RunCalls(t, ops, comp) + Potential(Run(t, ops, comp)) <= Potential(t) + |ops| * each
    decreases |ops|
  {
    if ops != [] {
      var t' := Step(t, ops[0], comp);
      StepWithin(t, ops[0], comp, bound, each);
      RunAmortised(t', ops[1..], comp, bound, each);
      assert RunCalls(t, ops, comp) == StepCalls(t, ops[0], comp) + RunCalls(t', ops[1..], comp);
      DropFactor(|ops|, each);
    }
  }

  lemma {:induction false} StepWithin<T>(t: Tree<T>, op: Op<T>, comp: (T, T) -> int, bound: nat, each: nat)
    requires Legal(t, op) && Distinct(t) && Size(t) < bound && each == 4 * Log2(bound + 1) + 1
    ensures var t' := Step(t, op, comp);
      && Distinct(t') && Size(t') <= Size(t) + 1
      && StepCalls(t, op, comp) + Potential(t') <= Potential(t) + each
  {
    StepAmortised(t, op, comp);
    Log2Mono(Size(t) + 2, bound + 1);
  }

  lemma {:induction false} DropFactor(n: nat, c: nat)
    requires n >= 1
    ensures n * c == c + (n - 1) * c
  {
  }

  /** Any n operations from the empty heap cost at most n * (4 log n + 1) calls of merge in all. */
  lemma {:induction false} RunsAreLogarithmic<T>(ops: seq<Op<T>>, comp: (T, T) -> int)
    requires LegalRun(Leaf, ops, comp)
    ensures RunCalls(Leaf, ops, comp) <= |ops| * (4 * Log2(|ops| + 1) + 1)
  {
    RunAmortised(Leaf, ops, comp, |ops|, 4 * Log2(|ops| + 1) + 1);
  }

  // ---------- Which of several least entries is at the root ----------

  /** x is the last of xs that no other is below. */
  ghost predicate LastLeast<T>(x: T, xs: seq<T>, comp: (T, T) -> int) {
    exists i :: 0 <= i < |xs| && xs[i] == x && LeastAt(xs, i, comp) && forall j :: i < j < |xs| ==> !LeastAt(xs, j, comp)
  }

  ghost predicate LeastAt<T>(xs: seq<T>, i: nat, comp: (T, T) -> int)
    requires i < |xs|
  {
    forall k :: 0 <= k < |xs| ==> comp(xs[k], xs[i]) != -1
  }

  function Inserted<T>(ops: seq<Op<T>>): seq<T> {
    if ops == [] then [] else [ops[0].x] + Inserted(ops[1..])
  }

  /** One more entry at the end takes over exactly if the last least one so far is not below it. */
  lemma {:induction false} OneMoreLeast<T>(r: T, xs: seq<T>, y: T, comp: (T, T) -> int, S: set<T>)
    requires LastLeast(r, xs, comp) && Compares(comp, S) && y in S && forall x :: x in xs ==> x in S
    ensures LastLeast(if comp(r, y) == -1 then r else y, xs + [y], comp)
  {
    var ys := xs + [y];
    var i: nat :| i < |xs| && xs[i] == r && LeastAt(xs, i, comp) && forall j :: i < j < |xs| ==> !LeastAt(xs, j, comp);
    assert forall k :: 0 <= k < |xs| ==> ys[k] == xs[k] && xs[k] in xs;
    if comp(r, y) == -1 {
      assert LeastAt(ys, i, comp);
      forall j | i < j < |ys|
        ensures !LeastAt(ys, j, comp)
      {
        if j < |xs| {
          assert !LeastAt(xs, j, comp);
          var k :| 0 <= k < |xs| && comp(xs[k], xs[j]) == -1;
          assert comp(ys[k], ys[j]) == -1;
        } else {
          assert comp(ys[i], ys[j]) == -1;
        }
      }
    } else {
      assert comp(y, y) != -1;
      assert LeastAt(ys, |xs|, comp);
    }
  }

  lemma {:induction false} RunRootFrom<T>(t: Tree<T>, done: seq<T>, ops: seq<Op<T>>, comp: (T, T) -> int, S: set<T>)
    requires LegalRun(t, ops, comp) && Compares(comp, S) && (forall x :: x in done ==> x in S)
    requires forall op :: op in ops ==> op.Insert? && op.x in S
    requires if t.Leaf? then done == [] else LastLeast(t.root, done, comp)
    ensures var t', all := Run(t, ops, comp), done + Inserted(ops);
      if t'.Leaf? then all == [] else LastLeast(t'.root, all, comp)
    decreases |ops|
  {
    if ops != [] {
      var x := ops[0].x;
      assert ops[0] in ops;
      var t1, done1 := Step(t, ops[0], comp), done + [x];
      if t.Leaf? {
        assert comp(x, x) != -1;
        assert LeastAt(done1, 0, comp);
      } else {
        OneMoreLeast(t.root, done, x, comp, S);
      }
      assert LastLeast(t1.root, done1, comp);
      hide LastLeast;
      RunRootFrom(t1, done1, ops[1..], comp, S);
      assert done1 + Inserted(ops[1..]) == done + Inserted(ops);
    } else {
      assert done + Inserted(ops) == done;
    }
  }

  /** After any insertions into the empty heap the root is the last inserted of the entries that none is
      below: among equal strides, the process queued last. */
  lemma {:induction false} RunRoot<T>(ops: seq<Op<T>>, comp: (T, T) -> int, S: set<T>)
    requires LegalRun(Leaf, ops, comp) && Compares(comp, S) && forall op :: op in ops ==> op.Insert? && op.x in S
    ensures var t := Run(Leaf, ops, comp);
      if ops == [] then t.Leaf? else t.Node? && LastLeast(t.root, Inserted(ops), comp)
  {
    RunRootFrom(Leaf, [], ops, comp, S);
    assert [] + Inserted(ops) == Inserted(ops);
  }

  /** Once the root is taken, the left child's entry comes next only if it is below the right one's. */
  lemma {:induction false} NextRoot<T>(l: Tree<T>, x: T, r: Tree<T>, comp: (T, T) -> int)
    requires l.Node? && r.Node?
    ensures var t := Cut(Node(l, x, r), x, comp);
      t.Node? && (t.root == r.root <==> comp(l.root, r.root) != -1 || l.root == r.root) && t.root in {l.root, r.root}
  {
  }
}
