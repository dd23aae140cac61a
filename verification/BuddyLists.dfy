/** What a release and the initial cut leave on the free lists, in order, and a release in the descriptors of
    its pages. */
module BuddyLists {
  import opened Powers
  import opened Bits
  import opened BuddyModel
  import opened BuddyTiling
  import opened BuddySafety
  import opened BuddySteps
  import opened BuddyCoalesce

  // ---------- One list ----------

  /** list' is list without x, the order of the rest kept. */
  ghost predicate Loses(list: seq<nat>, list': seq<nat>, x: int) {
    exists i :: 0 <= i < |list| && list[i] == x && list' == list[..i] + list[i + 1..]
  }

  /** list_del leaves the sequence that it leaves of a ring. */
  lemma {:induction false} RemoveAt(s: seq<nat>, x: nat, i: nat)
    requires NoRepeats(s) && i < |s| && s[i] == x
    ensures Remove(s, x) == s[..i] + s[i + 1..]
  {
    if i > 0 {
      assert s[0] != x;
      RemoveAt(s[1..], x, i - 1);
      assert s[1..][..i - 1] == s[1..i] && s[1..][i..] == s[i + 1..];
    }
  }

  lemma {:induction false} UnlistLoses(areas: seq<FreeArea>, t: Tiling, k: nat, q: nat)
    requires Lists(areas, t) && k < MAX_ORDER && q in areas[k].list
    ensures Loses(areas[k].list, Unlist(areas, k, q)[k].list, q)
  {
    var i :| 0 <= i < |areas[k].list| && areas[k].list[i] == q;
    RemoveAt(areas[k].list, q, i);
  }

  // ---------- The way up ----------

  /** The first page of the block of order j that the block of order k at base is merged into. */
  function ChainAt(k: nat, base: nat, j: nat): nat
    requires k <= j
    decreases j - k
  {
    if k == j then base
    else
      FlipFlip(base, k);
      ChainAt(k + 1, if Flip(base, k) < base then Flip(base, k) else base, j)
  }

  /** From order k up to the order "top" at which merging stops, each list loses the buddy absorbed there;
      the block that results stands at the front of the last; the other lists are as they were. */
  ghost predicate MergedLists(areas: seq<FreeArea>, areas': seq<FreeArea>, k: nat, base: nat, top: nat) {
    && |areas| == |areas'| == MAX_ORDER && k <= top < MAX_ORDER
    && forall i :: 0 <= i < MAX_ORDER ==> MergedList(areas[i].list, areas'[i].list, k, base, top, i)
  }

  ghost predicate MergedList(list: seq<nat>, list': seq<nat>, k: nat, base: nat, top: nat, i: nat)
    requires k <= top
  {
    if i < k || top < i then list' == list
    else if i == top then list' == [ChainAt(k, base, top)] + list
    else Loses(list, list', Flip(ChainAt(k, base, i), i))
  }

  lemma {:induction false} MergeLists(z: Zone, t: Tiling, k: nat, base: nat, flags: Flags, o: Outcome<Zone>)
    requires Handing(z, t, base, k) && k < MAX_ORDER && o == Merge(z, k, base, flags)
    ensures o.Done? ==> var (w, j) := StopAt(z.pages, k, base);
      k <= j && w == ChainAt(k, base, j) && MergedLists(z.areas, o.value.areas, k, base, j)
    decreases MAX_ORDER - k
  {
    hide Tiles, Lists, Descriptors, JoinPages, Unlist, MergedLists, Merge;
    MergeCases(z, t, k, base, flags, o);
    if Passes(z.pages, k, base) {
      var q := Flip(base, k);
      var low, high := (if q < base then q else base), if q < base then base else q;
      JoinHand(z, t, k, base, q, low, high, flags);
      JoinStops(z, k, base, q, flags);
      var z1 := Join(z, k, base, q, flags);
      MergeLists(z1, Joined(t, low, high), k + 1, low, flags, o);
      UnlistLoses(z.areas, t, k, q);
      if o.Done? { OneMoreMerged(z.areas, k, base, q, low, StopAt(z.pages, k, base).1, o.value.areas); }
    } else {
      NoMoreMerged(z.areas, k, base);
    }
  }

  lemma {:induction false} NoMoreMerged(areas: seq<FreeArea>, k: nat, base: nat)
    requires k < MAX_ORDER == |areas|
    ensures MergedLists(areas, Push(areas, k, base), k, base, k)
  {
  }

  lemma {:induction false} OneMoreMerged(areas: seq<FreeArea>, k: nat, base: nat, q: nat, low: nat, top: nat, areas': seq<FreeArea>)
    requires k < |areas| && q == Flip(base, k) && low == (if q < base then q else base) && k < top
    requires Loses(areas[k].list, Unlist(areas, k, q)[k].list, q)
    requires MergedLists(Unlist(areas, k, q), areas', k + 1, low, top)
    ensures MergedLists(areas, areas', k, base, top)
  {
    hide Loses;
    forall i | 0 <= i < MAX_ORDER
      ensures MergedList(areas[i].list, areas'[i].list, k, base, top, i)
    {
      assert MergedList(Unlist(areas, k, q)[i].list, areas'[i].list, k + 1, low, top, i);
      assert i > k ==> ChainAt(k, base, i) == ChainAt(k + 1, low, i);
    }
  }

  /** A release that goes through, of any block and with either flags: the lists after it, in order, read
      off the lists and descriptors before it. */
  lemma {:induction false} ReleaseLists(z: Zone, t: Tiling, base: nat, k: nat, flags: Flags)
    requires Inv(z, t) && Block(t, base, k) && base in t.live && Free(z, base, Pow2(k), flags).Done?
    ensures k < MAX_ORDER
    ensures var j := StopAt(z.pages, k, base).1;
      MergedLists(z.areas, Free(z, base, Pow2(k), flags).value.areas, k, base, j)
  {
    FreeCases(z, base, k, flags);
    ReleaseDescriptors(z.pages, t, base, k);
    hide Tiles, Descriptors, Lists, Merge, MergedLists, StopAt;
    var z1 := z.(pages := Release(z.pages, base, Pow2(k)));
    StopAgrees(z.pages, z1.pages, k, base);
    MergeLists(z1, t, k, base, flags, Merge(z1, k, base, flags));
  }

  // ---------- The arguments and the pages ----------

  /** Whatever is free: a number of pages that is no power of two, or is above 1024, fails an assertion. */
  lemma {:induction false} OddSizesHalt(z: Zone, base: nat, n: nat, flags: Flags)
    requires |z.areas| == MAX_ORDER && forall k: nat :: k <= 10 ==> n != Pow2(k)
    ensures Free(z, base, n, flags).Panic?
  {
    if 0 < n && n <= Pow2(10) {
      PowerOfTwoTest(n);
      if And(n, n - 1) == 0 {
        Log2Spec(n, Log2(n));
        Log2Mono(n, Pow2(10));
        Log2Pow2(10);
        assert false;
      }
    }
  }

  lemma {:induction false} MergeClean(z: Zone, k: nat, base: nat, flags: Flags)
    requires k < MAX_ORDER == |z.areas| && base < |z.pages| && Merge(z, k, base, flags).Done?
    ensures var pages' := Merge(z, k, base, flags).value.pages;
      |pages'| == |z.pages| && forall x :: 0 <= x < |pages'| ==> pages'[x].ref == z.pages[x].ref && pages'[x].reserved == z.pages[x].reserved
    decreases MAX_ORDER - k
  {
    if k < TOP {
      var q := BuddyIndex(base, k);
      if z.pages[q].property == Pow2(k) && z.pages[q].head {
        MergeClean(Join(z, k, base, q, flags), k + 1, if q < base then q else base, flags);
      }
    }
  }

  /** Every page released ends without references, and no other page's are touched. */
  lemma {:induction false} ReleasedClean(z: Zone, base: nat, k: nat, flags: Flags)
    requires |z.areas| == MAX_ORDER && k < MAX_ORDER && base + Pow2(k) <= |z.pages| && Free(z, base, Pow2(k), flags).Done?
    ensures var pages' := Free(z, base, Pow2(k), flags).value.pages;
      && |pages'| == |z.pages|
      && forall x :: 0 <= x < |pages'| ==>
           if base <= x < base + Pow2(k) then pages'[x].ref == 0 && !pages'[x].reserved
           else pages'[x].ref == z.pages[x].ref && pages'[x].reserved == z.pages[x].reserved
  {
    FreeCases(z, base, k, flags);
    var z1 := z.(pages := Release(z.pages, base, Pow2(k)));
    MergeClean(z1, k, base, flags);
    hide Merge, Free;
  }

  // ---------- Initialisation ----------

  /** The m blocks of 1024 pages from p on, the last one in front. */
  function Tops(p: nat, m: nat): (s: seq<nat>)
    ensures |s| == m && forall j :: 0 <= j < m ==> s[j] == p + 1024 * (m - 1 - j)
    decreases m
  {
    if m == 0 then [] else Tops(p + 1024, m - 1) + [p]
  }

  /** What the lowest j bits of n count. */
  function Low(n: nat, j: nat): (r: nat)
    ensures r < Pow2(j) && r <= n
  {
    LowMod(n, Pow2(j));
    n % Pow2(j)
  }

  lemma {:induction false} LowMod(n: nat, m: nat)
    requires m > 0
    ensures n % m < m && n % m <= n
  {
  }

  /** What the cut of n pages from p on puts in front of list i: for order 10 all whole blocks, and for a
      lower order one block if bit i of n is set, in front of the pages that the lower bits count. */
  function CutList(p: nat, n: nat, i: nat): seq<nat> {
    if i == 10 then Tops(p, n / 1024)
    else if Low(n, i + 1) >= Pow2(i) then [p + n - Low(n, i + 1)]
    else []
  }

  lemma {:induction false} GreedyLists(z: Zone, p: nat, n: nat)
    requires |z.areas| == MAX_ORDER && p + n <= |z.pages| && Greedy(z, p, n).Done?
    ensures var areas' := Greedy(z, p, n).value.areas;
      |areas'| == MAX_ORDER && forall i :: 0 <= i < MAX_ORDER ==> areas'[i].list == CutList(p, n, i) + z.areas[i].list
    decreases n
  {
    hide CutList, Cut, Pow2;
    if n == 0 {
      NothingCut(p);
    } else {
      var k := BlockOrder(n);
      BlockOrderFits(n);
      CutShape(z, p, k);
      var z1 := Cut(z, p, k);
      assert Greedy(z, p, n) == Greedy(z1, p + Pow2(k), n - Pow2(k));
      GreedyLists(z1, p + Pow2(k), n - Pow2(k));
      hide Greedy, BlockOrder;
      forall i | 0 <= i < MAX_ORDER
        ensures CutList(p + Pow2(k), n - Pow2(k), i) + z1.areas[i].list == CutList(p, n, i) + z.areas[i].list
      {
        CutMore(p, n, k, i);
        assert i == k ==> CutList(p + Pow2(k), n - Pow2(k), i) + ([p] + z.areas[i].list) == CutList(p, n, i) + z.areas[i].list;
      }
    }
  }

  lemma {:induction false} CutShape(z: Zone, p: nat, k: nat)
    requires p < |z.pages| && k < |z.areas|
    ensures var z1 := Cut(z, p, k);
      && |z1.pages| == |z.pages| && |z1.areas| == |z.areas|
      && forall i :: 0 <= i < |z.areas| ==> z1.areas[i].list == (if i == k then [p] else []) + z.areas[i].list
  {
  }

  lemma {:induction false} NothingCut(p: nat)
    ensures forall i: nat :: CutList(p, 0, i) == []
  {
  }

  /** Cutting the block of order k from the front of n pages. */
  lemma {:induction false} CutMore(p: nat, n: nat, k: nat, i: nat)
    requires k <= 10 && Pow2(k) <= n && (k < 10 ==> n < 2 * Pow2(k)) && i <= 10
    ensures CutList(p, n, i) == CutList(p + Pow2(k), n - Pow2(k), i) + if i == k then [p] else []
  {
    hide Low, Pow2;
    Ten();
    if i < k {
      ModLess(n, k, i);
    } else if k < 10 {
      Doubled(k);
      Pow2Mono(k + 1, 10);
      Pow2Mono(k + 1, i + 1);
      if k < i { Pow2Mono(k + 1, i); }
      Small(n, i + 1);
      Small(n - Pow2(k), i + 1);
    }
  }

  lemma {:induction false} Ten()
    ensures Pow2(10) == 1024
  {
    assert Pow2(5) == 32;
  }

  lemma {:induction false} Doubled(i: nat)
    ensures Pow2(i + 1) == 2 * Pow2(i)
  {
  }

  lemma {:induction false} Small(n: nat, j: nat)
    requires n < Pow2(j)
    ensures Low(n, j) == n
  {
    hide Pow2;
    Euclid(n, Pow2(j), 0, n);
  }

  lemma {:induction false} ModLess(n: nat, k: nat, i: nat)
    requires i < k && Pow2(k) <= n
    ensures Low(n - Pow2(k), i + 1) == Low(n, i + 1)
  {
    AlignedPow2(k, i + 1);
    AlignedMod(Pow2(k), i + 1);
    TakenOff(n, Pow2(k), Pow2(i + 1));
  }

  lemma {:induction false} TakenOff(n: nat, x: nat, m: nat)
    requires m > 0 && x % m == 0 && x <= n
    ensures (n - x) % m == n % m
  {
    var a, c := n / m, x / m;
    assert m * (a - c) == m * a - m * c;
    NoLess(n, x, m);
    Euclid(n - x, m, a - c, n % m);
  }

  lemma {:induction false} NoLess(n: nat, x: nat, m: nat)
    requires m > 0 && x <= n
    ensures x / m <= n / m
  {
    var d := n / m - x / m;
    assert m * d == m * (n / m) - m * (x / m) > -(m as int);
    if d != 0 { Multiple(m, d); }
  }

  /** After the pages from base on are handed over, in whatever number, each list starts with the blocks of
      the binary numeral of n, from the largest down, and then has what it had. */
  lemma {:induction false} InitLists(z: Zone, base: nat, n: nat)
    requires |z.areas| == MAX_ORDER && InitMemmap(z, base, n).Done?
    ensures var areas' := InitMemmap(z, base, n).value.areas;
      |areas'| == MAX_ORDER && forall i :: 0 <= i < MAX_ORDER ==> areas'[i].list == CutList(base, n, i) + z.areas[i].list
  {
    hide Greedy, CutList;
    GreedyLists(z.(pages := InitPages(z.pages, base, n)), base, n);
  }

  lemma {:induction false} GreedyClean(z: Zone, p: nat, n: nat)
    requires |z.areas| == MAX_ORDER && p + n <= |z.pages| && Greedy(z, p, n).Done?
    ensures var pages' := Greedy(z, p, n).value.pages;
      && |pages'| == |z.pages|
      && (forall x :: 0 <= x < |pages'| && !(p <= x < p + n) ==> pages'[x] == z.pages[x])
      && (forall x :: p <= x < p + n ==> pages'[x].ref == z.pages[x].ref && pages'[x].reserved == z.pages[x].reserved
                                         && (pages'[x].head || pages'[x] == z.pages[x]))
    decreases n
  {
    hide Pow2, Push;
    if n > 0 {
      var k := BlockOrder(n);
      BlockOrderFits(n);
      hide BlockOrder;
      CutShape(z, p, k);
      GreedyClean(Cut(z, p, k), p + Pow2(k), n - Pow2(k));
    }
  }

  /** Every page handed over ends without references and not reserved, with no size unless it heads a block;
      all others stay as they were. */
  lemma {:induction false} InitClean(z: Zone, base: nat, n: nat)
    requires |z.areas| == MAX_ORDER && InitMemmap(z, base, n).Done?
    ensures var pages' := InitMemmap(z, base, n).value.pages;
      && |pages'| == |z.pages|
      && forall x :: 0 <= x < |pages'| ==>
           if base <= x < base + n then pages'[x].ref == 0 && !pages'[x].reserved && (pages'[x].head || pages'[x].property == 0)
           else pages'[x] == z.pages[x]
  {
    hide Greedy;
    var pages := InitPages(z.pages, base, n);
    GreedyClean(z.(pages := pages), base, n);
    assert forall x :: 0 <= x < |pages| ==> pages[x] == if base <= x < base + n then Clear(0) else z.pages[x];
  }
}
