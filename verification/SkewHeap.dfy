/** lab6/libs/skew_heap.h on the heap: entries that are relinked in place.
    The tree an entry stands for is passed as a ghost value; each operation is proved to
    relink the entries into the tree that SkewTree computes. */
module SkewHeap {
  import opened SkewTree
  import opened SkewCost

  class Entry {
    var parent: Entry?
    var left: Entry?
    var right: Entry?
  }

  /** n points to the entries linked as t: children by left and right, and every child back
      to its parent.  Nothing is said of the parent of n itself. */
  ghost predicate Linked(t: Tree<Entry>, n: Entry?)
    reads Entries(t)
  {
    match t
    case Leaf => n == null
    case Node(l, x, r) =>
      && n == x
      && Linked(l, x.left) && (x.left != null ==> x.left.parent == x)
      && Linked(r, x.right) && (x.right != null ==> x.right.parent == x)
  }

  /** A heap as a client holds it: the root has no parent. */
  ghost predicate Heap(t: Tree<Entry>, n: Entry?)
    reads Entries(t)
  {
    Distinct(t) && Linked(t, n) && (n != null ==> n.parent == null)
  }

  /** The relinking both branches of merge end with: l becomes the left and r the right child of x. */
  method Adopt(x: Entry, l: Entry?, r: Entry?, ghost tl: Tree<Entry>, ghost tr: Tree<Entry>)
    requires Distinct(Node(tl, x, tr)) && Linked(tl, l) && Linked(tr, r)
    requires r != null ==> r.parent == x
    modifies x`left, x`right, (if l == null then {} else {l})`parent
    ensures Linked(Node(tl, x, tr), x)
  {
    x.left := l;
    x.right := r;
    if l != null { l.parent := x; }
  }

  /** Of two roots, a is the one on top if it is below b, and b otherwise. */
  ghost predicate Wins(r: Entry?, a: Entry?, b: Entry?, comp: (Entry, Entry) -> int) {
    r == if a == null || (b != null && comp(a, b) != -1) then b else a
  }

  method Merge(a: Entry?, b: Entry?, comp: (Entry, Entry) -> int, ghost ta: Tree<Entry>, ghost tb: Tree<Entry>)
    returns (r: Entry?, ghost calls: nat)
    requires Distinct(ta) && Distinct(tb) && Entries(ta) !! Entries(tb)
    requires Linked(ta, a) && Linked(tb, b)
    modifies Entries(ta), Entries(tb)
    ensures Linked(SkewTree.Merge(ta, tb, comp), r)
    ensures Wins(r, a, b, comp)
    ensures r != null ==> r.parent == old(r.parent)
    ensures calls == MergeCalls(ta, tb, comp)
    decreases Size(ta) + Size(tb)
  {
    if a == null { return b, 1; }
    if b == null { return a, 1; }
    var l: Entry?;
    MergeDistinct(ta, tb, comp);
    if comp(a, b) == -1 {
      r := a.left;
      MergeEntries(ta.right, tb, comp);
      ghost var S := Entries(ta.left);
      assert allocated(ta.left) && allocated(S);
      l, calls := Merge(a.right, b, comp, ta.right, tb);
      Adopt(a, l, r, SkewTree.Merge(ta.right, tb, comp), ta.left);
      r := a;
    } else {
      r := b.left;
      MergeEntries(ta, tb.right, comp);
      ghost var S := Entries(tb.left);
      assert allocated(tb.left) && allocated(S);
      l, calls := Merge(a, b.right, comp, ta, tb.right);
      Adopt(b, l, r, SkewTree.Merge(ta, tb.right, comp), tb.left);
      r := b;
    }
    calls := calls + 1;
  }

  method Insert(a: Entry?, b: Entry, comp: (Entry, Entry) -> int, ghost t: Tree<Entry>)
    returns (r: Entry?, ghost calls: nat)
    requires Heap(t, a) && b !in Entries(t)
    modifies Entries(t), b
    ensures Heap(SkewTree.Merge(t, Single(b), comp), r)
    ensures r == b <==> a == null || comp(a, b) != -1
    ensures calls == MergeCalls(t, Single(b), comp)
  {
    b.left, b.right, b.parent := null, null, null;
    assert Entries(Single(b)) == {b};
    r, calls := Merge(a, b, comp, t, Single(b));
    MergeDistinct(t, Single(b), comp);
  }

  method Remove(a: Entry, b: Entry, comp: (Entry, Entry) -> int, ghost t: Tree<Entry>)
    returns (r: Entry?, ghost calls: nat)
    requires Heap(t, a) && b in Entries(t)
    modifies Entries(t)
    ensures Heap(Cut(t, b, comp), r)
    ensures calls == RemoveCalls(t, b, comp)
  {
    hide Wins, SkewTree.Merge, MergeCalls, LinkedAt;
    ghost var s, above := Subtree(t, b), Above(t, b);
    ghost var m := SkewTree.Merge(s.left, s.right, comp);
    Unlink(t, a, b);
    MergeEntries(s.left, s.right, comp);
    MergeDistinct(s.left, s.right, comp);
    CutDistinct(t, b, comp);
    var p := b.parent;
    assert allocated(s) && allocated(Entries(t));
    var rep;
    rep, calls := Merge(b.left, b.right, comp, s.left, s.right);
    Replace(b, p, rep, above, m, t);
    r := if p != null then a else rep;
    Relink(t, b, rep, comp);
  }

  /** The end of remove: rep takes the place of b below p. */
  method Replace(b: Entry, p: Entry?, rep: Entry?, ghost above: set<Entry>, ghost m: Tree<Entry>, ghost t: Tree<Entry>)
    requires b in Entries(t) && above == Above(t, b) && p == b.parent
    requires Linked(m, rep) && Distinct(m) && Entries(m) !! above && b !in Entries(m)
    requires forall e :: e in above ==> LinkedAt(e, Subtree(t, e), b, b)
    requires forall e :: e in above ==> e.left !in Entries(m) && e.right !in Entries(m)
    requires p != null ==> p in above && (p.left == b) != (p.right == b)
    modifies (if p == null then {} else {p})`left, (if p == null then {} else {p})`right
    modifies (if rep == null then {} else {rep})`parent
    ensures Linked(m, rep) && (rep != null ==> rep.parent == p)
    ensures forall e :: e in above ==> LinkedAt(e, Subtree(t, e), b, rep)
  {
    if rep != null { rep.parent := p; }
    if p != null {
      if p.left == b { p.left := rep; } else { p.right := rep; }
    }
  }

  // ---------- The heap around one entry ----------

  ghost function Top(t: Tree<Entry>): Entry? {
    if t.Leaf? then null else t.root
  }

  /** The child c, or q in the place of x. */
  ghost function Put(c: Entry?, x: Entry, q: Entry?): Entry? {
    if c == x then q else c
  }

  /** e's links are those of the root of s, with q in the place of x. */
  ghost predicate LinkedAt(e: Entry, s: Tree<Entry>, x: Entry, q: Entry?)
    reads e, e.left, e.right
  {
    && s.Node?
    && e.left == Put(Top(s.left), x, q) && (e.left != null ==> e.left.parent == e)
    && e.right == Put(Top(s.right), x, q) && (e.right != null ==> e.right.parent == e)
  }

  ghost function Above(t: Tree<Entry>, x: Entry): set<Entry>
    requires x in Entries(t)
  {
    Entries(t) - Entries(Subtree(t, x))
  }

  lemma {:induction false} UnlinkAll(t: Tree<Entry>, n: Entry?, x: Entry)
    requires Distinct(t) && Linked(t, n)
    ensures forall e :: e in Entries(t) ==> LinkedAt(e, Subtree(t, e), x, x)
  {
    if t.Node? {
      UnlinkAll(t.left, n.left, x);
      UnlinkAll(t.right, n.right, x);
      forall e | e in Entries(t)
        ensures LinkedAt(e, Subtree(t, e), x, x)
      {
        assert e == n || Subtree(t, e) == Subtree(if e in Entries(t.left) then t.left else t.right, e);
      }
    }
  }

  lemma {:induction false} RelinkAll(t: Tree<Entry>, x: Entry, q: Entry?)
    requires Distinct(t) && x !in Entries(t)
    requires forall e :: e in Entries(t) ==> LinkedAt(e, Subtree(t, e), x, q)
    ensures Linked(t, Top(t))
  {
    if t.Node? {
      forall e | e in Entries(t.left)
        ensures LinkedAt(e, Subtree(t.left, e), x, q)
      {
        assert Subtree(t, e) == Subtree(t.left, e);
      }
      forall e | e in Entries(t.right)
        ensures LinkedAt(e, Subtree(t.right, e), x, q)
      {
        assert Subtree(t, e) == Subtree(t.right, e);
      }
      RelinkAll(t.left, x, q);
      RelinkAll(t.right, x, q);
      assert LinkedAt(t.root, Subtree(t, t.root), x, q);
    }
  }

  /** What being linked means around x: for x's subtree, and for each entry above it. */
  lemma {:induction false} Unlink(t: Tree<Entry>, n: Entry, x: Entry)
    requires Distinct(t) && Linked(t, n) && x in Entries(t)
    ensures Linked(Subtree(t, x), x) && Distinct(Subtree(t, x))
    ensures forall e :: e in Above(t, x) ==> LinkedAt(e, Subtree(t, e), x, x)
    ensures forall e :: e in Above(t, x) ==> e.left !in Entries(Subtree(t, x)) - {x} && e.right !in Entries(Subtree(t, x)) - {x}
    ensures x != n ==> x.parent in Above(t, x) && (x.parent.left == x) != (x.parent.right == x)
  {
    UnlinkAll(t, n, x);
    if x != n {
      if x in Entries(t.left) {
        Unlink(t.left, n.left, x);
        ChildrenInside(t.right);
      } else {
        Unlink(t.right, n.right, x);
        ChildrenInside(t.left);
      }
    }
  }

  lemma {:induction false} ChildrenInside(t: Tree<Entry>)
    requires Linked(t, Top(t))
    ensures forall e :: e in Entries(t) ==> (e.left == null || e.left in Entries(t)) && (e.right == null || e.right in Entries(t))
  {
    if t.Node? {
      ChildrenInside(t.left);
      ChildrenInside(t.right);
    }
  }

  /** Putting those parts back together, with rep in the place of x. */
  lemma {:induction false} Relink(t: Tree<Entry>, x: Entry, rep: Entry?, comp: (Entry, Entry) -> int)
    requires Distinct(t) && x in Entries(t)
    requires Linked(SkewTree.Merge(Subtree(t, x).left, Subtree(t, x).right, comp), rep)
    requires forall e :: e in Above(t, x) ==> LinkedAt(e, Subtree(t, e), x, rep)
    ensures Linked(Cut(t, x, comp), Put(Top(t), x, rep))
  {
    if t.root != x {
      var c, d := t.left, t.right;
      if x !in Entries(t.left) { c, d := d, c; }
      assert Subtree(t, x) == Subtree(c, x);
      forall e | e in Above(c, x)
        ensures LinkedAt(e, Subtree(c, e), x, rep)
      {
        assert Subtree(t, e) == Subtree(c, e);
      }
      forall e | e in Entries(d)
        ensures LinkedAt(e, Subtree(d, e), x, rep)
      {
        assert Subtree(t, e) == Subtree(d, e) && e in Above(t, x);
      }
      Relink(c, x, rep, comp);
      RelinkAll(d, x, rep);
      assert LinkedAt(t.root, Subtree(t, t.root), x, rep);
    }
  }
}
