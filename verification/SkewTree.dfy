/** Skew heaps as values: what the operations of lab6/libs/skew_heap.h compute,
    and what is true of it (contents, heap order, amortised cost).  The module
    SkewHeap proves the in-place operations equal to these functions. */
module SkewTree {

  datatype Tree<T> = Leaf | Node(left: Tree<T>, root: T, right: Tree<T>)

  function Size<T>(t: Tree<T>): nat {
    match t
    case Leaf => 0
    case Node(l, _, r) => Size(l) + 1 + Size(r)
  }

  function Entries<T(==)>(t: Tree<T>): set<T> {
    match t
    case Leaf => {}
    case Node(l, x, r) => Entries(l) + {x} + Entries(r)
  }

  /** No entry occurs twice. */
  ghost predicate Distinct<T>(t: Tree<T>) {
    t.Node? ==>
      && Distinct(t.left) && Distinct(t.right)
      && t.root !in Entries(t.left) && t.root !in Entries(t.right)
      && Entries(t.left) !! Entries(t.right)
  }

  // ---------- The comparator ----------

  /** What the heap relies on: "comp(x, y) == -1" is a strict weak order on S. */
  ghost predicate Compares<T>(comp: (T, T) -> int, S: set<T>) {
    && (forall x, y :: x in S && y in S && comp(x, y) == -1 ==> comp(y, x) != -1)
    && (forall x, y, z :: x in S && y in S && z in S && comp(x, y) != -1 && comp(y, z) != -1 ==> comp(x, z) != -1)
  }

  /** No entry of S compares below x. */
  ghost predicate NoneBelow<T>(x: T, S: set<T>, comp: (T, T) -> int) {
    forall y :: y in S ==> comp(y, x) != -1
  }

  ghost predicate HeapOrdered<T>(t: Tree<T>, comp: (T, T) -> int) {
    t.Node? ==>
      && NoneBelow(t.root, Entries(t), comp)
      && HeapOrdered(t.left, comp) && HeapOrdered(t.right, comp)
  }

  // ---------- Merge ----------

  function Single<T>(x: T): Tree<T> {
    Node(Leaf, x, Leaf)
  }

  function Merge<T>(a: Tree<T>, b: Tree<T>, comp: (T, T) -> int): Tree<T>
    decreases Size(a) + Size(b)
  {
    if a.Leaf? then b
    else if b.Leaf? then a
    else if comp(a.root, b.root) == -1 then Node(Merge(a.right, b, comp), a.root, a.left)
    else Node(Merge(a, b.right, comp), b.root, b.left)
  }

  lemma {:induction false} MergeEntries<T>(a: Tree<T>, b: Tree<T>, comp: (T, T) -> int)
    ensures Entries(Merge(a, b, comp)) == Entries(a) + Entries(b)
    ensures Size(Merge(a, b, comp)) == Size(a) + Size(b)
    decreases Size(a) + Size(b)
  {
    if a.Node? && b.Node? {
      if comp(a.root, b.root) == -1 {
        MergeEntries(a.right, b, comp);
      } else {
        MergeEntries(a, b.right, comp);
      }
    }
  }

  lemma {:induction false} MergeDistinct<T>(a: Tree<T>, b: Tree<T>, comp: (T, T) -> int)
    requires Distinct(a) && Distinct(b) && Entries(a) !! Entries(b)
    ensures Distinct(Merge(a, b, comp))
    decreases Size(a) + Size(b)
  {
    if a.Node? && b.Node? {
      if comp(a.root, b.root) == -1 {
        MergeEntries(a.right, b, comp);
        MergeDistinct(a.right, b, comp);
      } else {
        MergeEntries(a, b.right, comp);
        MergeDistinct(a, b.right, comp);
      }
    }
  }

  lemma {:induction false} MergeOrdered<T>(a: Tree<T>, b: Tree<T>, comp: (T, T) -> int)
    requires HeapOrdered(a, comp) && HeapOrdered(b, comp)
    requires Compares(comp, Entries(a) + Entries(b))
    ensures HeapOrdered(Merge(a, b, comp), comp)
    decreases Size(a) + Size(b)
  {
    if a.Node? && b.Node? {
      MergeEntries(a, b, comp);
      if comp(a.root, b.root) == -1 {
        assert comp(b.root, a.root) != -1;
        MergeOrdered(a.right, b, comp);
      } else {
        MergeOrdered(a, b.right, comp);
      }
    }
  }

  // ---------- Remove ----------

  /** The subtree rooted at x. */
  function Subtree<T(==)>(t: Tree<T>, x: T): (s: Tree<T>)
    requires x in Entries(t)
    ensures s.Node? && s.root == x && Entries(s) <= Entries(t) && Size(s) <= Size(t)
  {
    if t.root == x then t
    else if x in Entries(t.left) then Subtree(t.left, x)
    else Subtree(t.right, x)
  }

  /** t with x cut out and the merge of x's two subtrees in its place. */
  function Cut<T(==)>(t: Tree<T>, x: T, comp: (T, T) -> int): Tree<T>
    requires x in Entries(t)
  {
    if t.root == x then Merge(t.left, t.right, comp)
    else if x in Entries(t.left) then Node(Cut(t.left, x, comp), t.root, t.right)
    else Node(t.left, t.root, Cut(t.right, x, comp))
  }

  lemma {:induction false} CutEntries<T>(t: Tree<T>, x: T, comp: (T, T) -> int)
    requires x in Entries(t) && Distinct(t)
    ensures Entries(Cut(t, x, comp)) == Entries(t) - {x}
    ensures Size(Cut(t, x, comp)) == Size(t) - 1
  {
    if t.root == x {
      MergeEntries(t.left, t.right, comp);
    } else if x in Entries(t.left) {
      CutEntries(t.left, x, comp);
    } else {
      CutEntries(t.right, x, comp);
    }
  }

  lemma {:induction false} CutDistinct<T>(t: Tree<T>, x: T, comp: (T, T) -> int)
    requires x in Entries(t) && Distinct(t)
    ensures Distinct(Cut(t, x, comp))
  {
    if t.root == x {
      MergeDistinct(t.left, t.right, comp);
    } else if x in Entries(t.left) {
      CutEntries(t.left, x, comp);
      CutDistinct(t.left, x, comp);
    } else {
      CutEntries(t.right, x, comp);
      CutDistinct(t.right, x, comp);
    }
  }

  lemma {:induction false} CutOrdered<T>(t: Tree<T>, x: T, comp: (T, T) -> int)
    requires x in Entries(t) && Distinct(t) && HeapOrdered(t, comp) && Compares(comp, Entries(t))
    ensures HeapOrdered(Cut(t, x, comp), comp)
  {
    CutEntries(t, x, comp);
    if t.root == x {
      MergeOrdered(t.left, t.right, comp);
    } else if x in Entries(t.left) {
      CutOrdered(t.left, x, comp);
    } else {
      CutOrdered(t.right, x, comp);
    }
  }
}
