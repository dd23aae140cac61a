/** lab2/kern/mm/buddysystem_pmm.c as it runs: descriptors and free areas updated in place by loops
    and recursion, proved to compute the functions of BuddyModel.  A method returns whether it
    panicked; what the state is then, nothing says.  The requires clauses exclude only wild accesses,
    which BuddyRuns proves no legal run ever makes. */
module BuddySystem {
  import opened Wrappers
  import opened Powers
  import opened Bits
  import opened Memlayout
  import opened BuddyModel

  class Allocator {
    const pages: array<Page>
    const areas: array<FreeArea>

    ghost predicate Valid() {
      areas.Length == MAX_ORDER && pages as object != areas as object
    }

    ghost function State(): Zone
      reads pages, areas
    {
      Zone(pages[..], areas[..])
    }

    /** The descriptors as page_init leaves them. */
    constructor (npages: nat)
      ensures Valid() && fresh(pages) && fresh(areas)
      ensures State() == Zone(seq(npages, _ => Page(0, true, false, 0)), EmptyAreas())
    {
      pages := new Page[npages](_ => Page(0, true, false, 0));
      areas := new FreeArea[MAX_ORDER](_ => FreeArea([], 0));
    }

    /** buddy_system_init */
    method Init()
      requires Valid()
      modifies areas
      ensures State() == old(State()).(areas := EmptyAreas())
    {
      for i := 0 to MAX_ORDER
        invariant forall j :: 0 <= j < i ==> areas[j] == FreeArea([], 0)
        invariant pages[..] == old(pages[..])
      {
        areas[i] := FreeArea([], 0);
      }
      assert areas[..] == EmptyAreas();
    }

    method ListAdd(k: nat, p: nat)
      requires Valid() && k < MAX_ORDER
      modifies areas
      ensures areas[..] == Push(old(areas[..]), k, p)
      ensures pages[..] == old(pages[..])
    {
      areas[k] := FreeArea([p] + areas[k].list, areas[k].nr + 1);
    }

    method ListDel(k: nat, p: nat)
      requires Valid() && k < MAX_ORDER
      modifies areas
      ensures areas[..] == Unlist(old(areas[..]), k, p)
      ensures pages[..] == old(pages[..])
    {
      areas[k] := FreeArea(Remove(areas[k].list, p), areas[k].nr - 1);
    }

    /** buddy_system_init_memmap */
    method InitMemmap(base: nat, n: nat) returns (halted: bool)
      requires Valid() && !BuddyModel.InitMemmap(State(), base, n).Wild?
      modifies pages, areas
      ensures halted <==> BuddyModel.InitMemmap(old(State()), base, n).Panic?
      ensures !halted ==> BuddyModel.InitMemmap(old(State()), base, n) == Done(State())
    {
      if n == 0 { return true; }
      halted := ClearReserved(base, n);
      if halted { return; }
      ghost var z0 := State();
      var offset: nat, left: nat := 0, n;
      while left > 0
        invariant offset + left == n
        invariant Greedy(State(), base + offset, left) == Greedy(z0, base, n)
      {
        var order := Order(left);
        var p := base + offset;
        BlockOrderFits(left);
        Place(order, p);
        offset := offset + Pow2(order);
        left := left - Pow2(order);
      }
      return false;
    }

    /** Lines 41-49: every page must be reserved, and is cleared. */
    method ClearReserved(base: nat, n: nat) returns (halted: bool)
      requires Valid() && base + n <= pages.Length
      modifies pages
      ensures halted <==> exists i :: base <= i < base + n && !old(pages[..])[i].reserved
      ensures !halted ==> pages[..] == InitPages(old(pages[..]), base, n)
      ensures areas[..] == old(areas[..])
    {
      ghost var was := pages[..];
      for p := base to base + n
        invariant forall i :: base <= i < p ==> was[i].reserved
        invariant areas[..] == old(areas[..])
        invariant forall i :: 0 <= i < pages.Length ==> pages[i] == if base <= i < p then Clear(0) else was[i]
      {
        if !pages[p].reserved { return true; }
        pages[p] := Page(0, false, false, 0);
      }
      return false;
    }

    /** A block of a new region is linked: lines 63-68. */
    method Place(order: nat, p: nat)
      requires Valid() && order < MAX_ORDER && p < pages.Length
      modifies pages, areas
      ensures State() == Cut(old(State()), p, order)
    {
      pages[p] := pages[p].(property := Pow2(order));
      pages[p] := pages[p].(head := true);
      ListAdd(order, p);
    }

    /** The order of the next block: lines 56-59. */
    static method Order(n: nat) returns (order: nat)
      requires n > 0
      ensures order == BlockOrder(n)
    {
      order := 0;
      while Pow2(order) <= n && order < MAX_ORDER
        invariant order <= MAX_ORDER && (order > 0 ==> Pow2(order - 1) <= n)
        decreases MAX_ORDER - order
      {
        order := order + 1;
      }
      if order > 0 { order := order - 1; }
      Log2Spec(n, order);
      Log2Spec(n, order + 1);
      if order < MAX_ORDER - 1 { Pow2Mono(order + 1, MAX_ORDER - 1); }
    }

    /** split_page */
    method SplitPage(order: nat) returns (halted: bool)
      requires Valid() && !Split(State(), order).Wild?
      modifies pages, areas
      ensures halted <==> Split(old(State()), order).Panic?
      ensures !halted ==> Split(old(State()), order) == Done(State())
      decreases MAX_ORDER - order
    {
      if !(0 < order < MAX_ORDER) { return true; }
      if areas[order].list == [] {
        halted := SplitPage(order + 1);
        if halted { return; }
      }
      if areas[order].list == [] { return false; }
      SplitFirst(order);
      return false;
    }

    /** The second half of split_page: the first block listed is cut in two. */
    method SplitFirst(order: nat)
      requires Valid() && 0 < order < MAX_ORDER && areas[order].list != [] && Halve(State(), order).Done?
      modifies pages, areas
      ensures Halve(old(State()), order) == Done(State())
    {
      var p := areas[order].list[0];
      ListDel(order, p);
      var size := Pow2(order - 1);
      var buddy := p + size;
      pages[p] := pages[p].(property := size);
      pages[buddy] := pages[buddy].(property := size);
      pages[p] := pages[p].(head := true);
      pages[buddy] := pages[buddy].(head := true);
      ListAdd(order - 1, p);
      ListAdd(order - 1, buddy);
    }

    /** buddy_system_alloc_pages */
    method AllocPages(n: nat) returns (halted: bool, page: Option<nat>)
      requires Valid() && !Alloc(State(), n).Wild?
      modifies pages, areas
      ensures halted <==> Alloc(old(State()), n).Panic?
      ensures !halted ==> Alloc(old(State()), n) == Done(Allocation(State(), page))
    {
      if n == 0 { return true, None; }
      if n > Pow2(MAX_ORDER - 1) { return false, None; }
      ghost var z := State();
      hide SplitDown, OrderFrom, ListedFrom;
      var order := OrderFor(n);
      if order >= MAX_ORDER { return false, None; }
      var current := Listed(order);
      if current == MAX_ORDER { return false, None; }
      halted := SplitTo(current, order);
      if halted { return true, None; }
      var p := TakeFront(order);
      return false, Some(p);
    }

    /** Lines 134-138. */
    method TakeFront(order: nat) returns (p: nat)
      requires Valid() && order < MAX_ORDER && areas[order].list != [] && areas[order].list[0] < pages.Length
      modifies pages, areas
      ensures p == old(areas[order]).list[0] && State() == Take(old(State()), order, p)
    {
      p := areas[order].list[0];
      ListDel(order, p);
      pages[p] := pages[p].(head := false);
    }

    /** Lines 115-116. */
    static method OrderFor(n: nat) returns (order: nat)
      ensures order == OrderFrom(n, 0)
    {
      order := 0;
      while Pow2(order) < n && order < MAX_ORDER
        invariant order <= MAX_ORDER && OrderFrom(n, order) == OrderFrom(n, 0)
      {
        order := order + 1;
      }
    }

    /** Lines 119-122. */
    method Listed(order: nat) returns (current: nat)
      requires Valid() && order <= MAX_ORDER
      ensures current == ListedFrom(State(), order)
    {
      current := order;
      while current < MAX_ORDER && areas[current].list == []
        invariant order <= current <= MAX_ORDER && ListedFrom(State(), current) == ListedFrom(State(), order)
      {
        current := current + 1;
      }
    }

    /** Lines 127-131. */
    method SplitTo(c: nat, order: nat) returns (halted: bool)
      requires Valid() && order <= c && !SplitDown(State(), c, order).Wild?
      modifies pages, areas
      ensures halted <==> SplitDown(old(State()), c, order).Panic?
      ensures !halted ==> SplitDown(old(State()), c, order) == Done(State())
    {
      ghost var z := State();
      var current := c;
      while current > order
        invariant order <= current <= c && SplitDown(State(), current, order) == SplitDown(z, c, order)
      {
        halted := SplitPage(current);
        if halted { return true; }
        current := current - 1;
      }
      return false;
    }

    /** merge_page, as written */
    method MergePage(order: nat, base: nat) returns (halted: bool)
      requires Valid() && order < MAX_ORDER && base < pages.Length
      requires !Merge(State(), order, base, AsWritten).Wild?
      modifies pages, areas
      ensures halted <==> Merge(old(State()), order, base, AsWritten).Panic?
      ensures !halted ==> Merge(old(State()), order, base, AsWritten) == Done(State())
      decreases MAX_ORDER - order
    {
      if order >= MAX_ORDER - 1 {
        ListAdd(order, base);
        return false;
      }
      var size := Pow2(order);
      var addr := (base + NBASE) * PGSIZE;
      var buddyAddr := Xor(addr, size * PGSIZE);
      if buddyAddr / PGSIZE >= NBASE + pages.Length { return true; }
      var buddy := buddyAddr / PGSIZE - NBASE;
      if pages[buddy].property != size || !pages[buddy].head {
        ListAdd(order, base);
        return false;
      }
      ListDel(order, buddy);
      pages[buddy] := pages[buddy].(head := false);
      var low := base;
      if buddy < low { low := buddy; }
      pages[low] := pages[low].(property := size * 2);
      pages[low] := pages[low].(head := false);
      halted := MergePage(order + 1, low);
    }

    /** buddy_system_free_pages */
    method FreePages(base: nat, n: nat) returns (halted: bool)
      requires Valid() && !Free(State(), base, n, AsWritten).Wild?
      modifies pages, areas
      ensures halted <==> Free(old(State()), base, n, AsWritten).Panic?
      ensures !halted ==> Free(old(State()), base, n, AsWritten) == Done(State())
    {
      if n == 0 || And(n, n - 1) != 0 || n > Pow2(MAX_ORDER - 1) { return true; }
      ghost var was := pages[..];
      for p := base to base + n
        invariant forall i :: base <= i < p ==> !was[i].reserved && !was[i].head
        invariant areas[..] == old(areas[..])
        invariant forall i :: 0 <= i < pages.Length ==> pages[i] == if base <= i < p then Clear(was[i].property) else was[i]
      {
        if pages[p].reserved || pages[p].head { return true; }
        pages[p] := Page(0, false, false, pages[p].property);
      }
      pages[base] := pages[base].(property := n);
      pages[base] := pages[base].(head := true);
      assert pages[..] == Release(was, base, n);
      var order, temp := 0, n;
      while temp > 1
        invariant temp >= 1 && order + Log2(temp) == Log2(n)
      {
        temp := temp / 2;
        order := order + 1;
      }
      FreeOrder(n);
      halted := MergePage(order, base);
    }

    /** buddy_system_nr_free_pages */
    method NrFreePages() returns (num: int)
      requires Valid()
      ensures num == BuddyModel.NrFreePages(areas[..], MAX_ORDER)
    {
      num := 0;
      for i := 0 to MAX_ORDER
        invariant num == BuddyModel.NrFreePages(areas[..], i)
      {
        num := num + areas[i].nr * Pow2(i);
      }
    }
  }
}
