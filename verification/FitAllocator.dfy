/** lab2/kern/mm/default_pmm.c and best_fit_pmm.c as they run, on descriptors and links updated in
    place.  The two files differ only in the search of alloc_pages.  Every method is proved against the
    functions of FitMemory, on whatever the links lead through: the ghost parameter s has the entries that
    a loop looks at, and asking for it is asking that the loop ends.  With loop == Continues this is the
    code as written; with Stops, the insertion loop breaks after appending. */
module FitAllocator {
  import opened Wrappers
  import opened Memlayout
  import opened Ring
  import opened FitBlocks
  import opened FitDescriptors
  import opened FitRuns
  import opened FitMemory
  import opened FitRecords
  import opened FitAsWritten

  class Allocator {
    const pages: array<Page>
    const links: array<Link>
    const loop: Loop
    var nrFree: nat
    ghost var list: seq<nat>

    /** The index of free_list, the list head, among the links. */
    function Head(): nat {
      pages.Length
    }

    ghost function Mem(): Memory
      reads this, pages, links
    {
      Memory(links[..], pages[..], nrFree)
    }

    ghost predicate Shape()
      reads this, pages, links
    {
      pages as object != links as object && Formed(Mem())
    }

    /** The memory records the list. */
    ghost predicate Valid()
      reads this, pages, links
    {
      Shape() && Records(Mem(), list)
    }

    ghost function Blocks(): seq<Block>
      requires Valid()
      reads this, pages, links
    {
      BlocksOf(list, pages[..])
    }

    /** Descriptors as page_init leaves them, and the list as default_init and best_fit_init do. */
    constructor (npages: nat, loop: Loop)
      ensures Valid() && Blocks() == [] && pages.Length == npages && this.loop == loop
      ensures fresh(pages) && fresh(links) && forall x :: 0 <= x < npages ==> pages[x].reserved
    {
      this.loop := loop;
      pages := new Page[npages](_ => Page(0, true, false, 0));
      links := new Link[npages + 1](_ => Link(npages, npages));
      nrFree := 0;
      list := [];
      new;
      EmptyRing(links[..], npages);
      assert links[..] == links[..][npages := Link(npages, npages)];
    }

    /** In every valid state the searches end: list_next comes back to the head along the list. */
    lemma {:induction false} ValidEnds(policy: Policy, n: nat)
      requires Valid()
      ensures Walkable(Mem(), list) && Ends(policy, Mem(), list, n)
    {
      RecordsEnds(policy, Mem(), list, n);
    }

    /** And so does the insertion, whatever is inserted. */
    lemma {:induction false} ValidLands(base: nat, s: seq<nat>)
      requires Valid()
      ensures Lands(links[..], Head(), s, base) <==> s == Seen(list, base)
    {
      RecordsWalkable(Mem(), list);
      Ascending(list, pages[..]);
      LandsIff(links[..], Head(), list, base, s);
    }

    // ---------- lab2/libs/list.h ----------

    method ListAddAfter(at: nat, elm: nat)
      requires at < links.Length && elm < links.Length && links[at].next < links.Length && pages as object != links as object
      modifies links
      ensures links[..] == AddAfter(old(links[..]), at, elm) && pages[..] == old(pages[..])
    {
      ListAdd(elm, at, links[at].next);
    }

    method ListAddBefore(at: nat, elm: nat)
      requires at < links.Length && elm < links.Length && links[at].prev < links.Length && pages as object != links as object
      modifies links
      ensures links[..] == AddBefore(old(links[..]), at, elm) && pages[..] == old(pages[..])
    {
      ListAdd(elm, links[at].prev, at);
    }

    /** __list_add */
    method ListAdd(elm: nat, prev: nat, next: nat)
      requires elm < links.Length && prev < links.Length && next < links.Length && pages as object != links as object
      modifies links
      ensures links[..] == AddBetween(old(links[..]), elm, prev, next) && pages[..] == old(pages[..])
    {
      links[next] := links[next].(prev := elm);
      links[prev] := links[prev].(next := elm);
      links[elm] := links[elm].(next := next);
      links[elm] := links[elm].(prev := prev);
    }

    /** list_del */
    method ListDel(elm: nat)
      requires elm < links.Length && links[elm].prev < links.Length && links[elm].next < links.Length && pages as object != links as object
      modifies links
      ensures links[..] == Del(old(links[..]), elm) && pages[..] == old(pages[..])
    {
      var prev, next := links[elm].prev, links[elm].next;
      links[prev] := links[prev].(next := next);
      links[next] := links[next].(prev := prev);
    }

    // ---------- Insertion ----------

    /** The insertion of init_memmap and free_pages: default_pmm.c lines 80-93 and 139-152. */
    method Enlist(base: nat, ghost s: seq<nat>)
      requires Shape() && base < pages.Length && Lands(links[..], Head(), s, base)
      modifies links
      ensures Shape() && pages[..] == old(pages[..])
      ensures links[..] == Inserted(old(links[..]), Head(), s, base, loop)
    {
      PathStart(links[..], Head(), s);
      if links[Head()].next == Head() {
        ListAddAfter(Head(), base);
      } else {
        Walk(base, s);
      }
    }

    /** The insertion loop itself. */
    method Walk(base: nat, ghost s: seq<nat>)
      requires Shape() && base < pages.Length && Lands(links[..], Head(), s, base) && s != []
      modifies links
      ensures Shape() && pages[..] == old(pages[..])
      ensures links[..] == Inserted(old(links[..]), Head(), s, base, loop)
    {
      hide Walking, AddBetween, Lands, Path;
      ghost var l, h := links[..], Head();
      WalkStart(l, h, s, base);
      ghost var at, phase := 0, 0;
      var le := links[Head()].next;
      while le != Head()
        invariant phase <= 2 && at <= |s| && Walking(l, links[..], h, s, base, le, at, phase) && (loop.Stops? ==> phase == 0)
        invariant pages[..] == old(pages[..])
        decreases |s| - at, 2 - phase
      {
        WalkInside(l, links[..], h, s, base, le, at, phase);
        if base < le {
          ListAddBefore(le, base);
          assert links[..] == Inserted(l, h, s, base, loop);
          return;
        }
        WalkTurn(l, links[..], h, s, base, le, at, phase);
        if links[le].next == Head() {
          ListAddAfter(le, base);
          if loop.Stops? {
            assert links[..] == Inserted(l, h, s, base, loop);
            return;
          }
          at := |s|;
          phase := if links[le].next == h then 2 else 1;
        } else {
          at := at + 1;
        }
        le := links[le].next;
      }
      WalkEnd(l, links[..], h, s, base, at, phase);
      assert links[..] == Inserted(l, h, s, base, loop);
    }

    // ---------- Releasing ----------

    /** default_init_memmap, best_fit_init_memmap: a region of reserved pages becomes a free block. */
    method InitMemmap(base: nat, n: nat, ghost s: seq<nat>) returns (halted: bool)
      requires Shape() && base + n <= pages.Length && Lands(links[..], Head(), s, base)
      modifies pages, links, `nrFree, `list
      ensures halted <==> n == 0 || exists x :: base <= x < base + n && !old(pages[..])[x].reserved
      ensures !halted ==> Mem() == Entered(Wiped(old(Mem()), Block(base, n)), s, Block(base, n), loop)
      ensures !halted && old(Valid()) && (loop.Stops? || !Appends(old(Blocks()), base)) ==>
        Valid() && Blocks() == Insert(old(Blocks()), Block(base, n))
    {
      if n == 0 { return true; }
      hide Records, Lands, Entered, Formed;
      ghost var m, valid := Mem(), Valid();
      halted := ClearReserved(base, n);
      if halted { return; }
      AddBlock(base, n, s, Wiped(m, Block(base, n)));
      if valid { list := Initialised(m, list, Block(base, n), s); }
      return false;
    }

    /** Lines 71-76: every page must be reserved, and is cleared. */
    method ClearReserved(base: nat, n: nat) returns (halted: bool)
      requires pages as object != links as object && base + n <= pages.Length
      modifies pages
      ensures links[..] == old(links[..])
      ensures halted <==> exists x :: base <= x < base + n && !old(pages[..])[x].reserved
      ensures !halted ==> pages[..] == Cleared(old(pages[..]), Block(base, n), false)
    {
      ghost var was := pages[..];
      for p := base to base + n
        invariant links[..] == old(links[..])
        invariant forall x :: base <= x < p ==> was[x].reserved
        invariant forall x :: 0 <= x < pages.Length ==> pages[x] == if base <= x < p then Page(0, false, false, 0) else was[x]
      {
        if !pages[p].reserved { return true; }
        pages[p] := Page(0, false, false, 0);
      }
      return false;
    }

    lemma {:induction false} Initialised(m: Memory, list: seq<nat>, b: Block, s: seq<nat>) returns (list': seq<nat>)
      requires Records(m, list) && b.len > 0 && End(b) <= |m.pages| && Lands(m.links, |m.pages|, s, b.start)
      requires forall x :: b.start <= x < End(b) ==> m.pages[x].reserved
      ensures loop.Stops? || !Appends(BlocksOf(list, m.pages), b.start) ==> var m' := Entered(Wiped(m, b), s, b, loop);
        Records(m', list') && BlocksOf(list', m'.pages) == Insert(BlocksOf(list, m.pages), b)
    {
      hide Records, Lands, Cleared, Entered, Sound, Apart, Appends, Unflagged;
      RecordsLands(m, list, b.start, s);
      WipedRecords(m, list, b);
      list' := list;
      assert Wiped(m, b).links == m.links && |Wiped(m, b).pages| == |m.pages|;
      if loop.Stops? || !Appends(BlocksOf(list, m.pages), b.start) {
        EnteredRecords(Wiped(m, b), list, b, loop);
        list' := WithEntry(list, Place(BlocksOf(list, m.pages), b.start), b.start);
      }
    }

    /** The pages of a block, cleared, are marked, counted and inserted: what init_memmap and free_pages share. */
    method AddBlock(base: nat, n: nat, ghost s: seq<nat>, ghost m: Memory)
      requires Shape() && n > 0 && base + n <= pages.Length == |m.pages| && nrFree == m.nrFree && links[..] == m.links
      requires pages[..] == Cleared(m.pages, Block(base, n), true) && Lands(links[..], Head(), s, base)
      modifies pages, links, `nrFree
      ensures Shape() && Mem() == Entered(m, s, Block(base, n), loop)
    {
      pages[base] := pages[base].(property := n);
      pages[base] := pages[base].(head := true);
      nrFree := nrFree + n;
      assert pages[..] == Given(m.pages, Block(base, n));
      hide Given, Cleared, Lands, Formed;
      Enlist(base, s);
    }

    /** default_free_pages, best_fit_free_pages. */
    method FreePages(base: nat, n: nat, ghost s: seq<nat>) returns (halted: bool)
      requires Shape() && base + n <= pages.Length
      requires !Halting(pages[..], Block(base, n)) ==> Lands(links[..], Head(), s, base)
      modifies pages, links, `nrFree, `list
      ensures halted <==> Halting(old(pages[..]), Block(base, n))
      ensures !halted ==> Mem() == Released(old(Mem()), s, Block(base, n), loop)
      ensures !halted && old(Valid()) ==>
        match Arising(old(Blocks()), Block(base, n), loop)
        case InOrder => Valid() && Blocks() == Free(old(Blocks()), Block(base, n))
        case ToItself => Apart(old(Blocks()), Block(base, n)) ==>
          Looped(Mem(), old(list), base) && BlocksOf(old(list) + [base], pages[..]) == old(Blocks()) + [Block(base, n)]
        case Overlaid => Shape() && IsRing(links[..], Head(), list) && !Valid()
    {
      if n == 0 { return true; }
      hide Records, Lands, Released, Entered, Formed, Looped, Free;
      ghost var m, valid := Mem(), Valid();
      halted := ClearGiven(base, n);
      if halted { return; }
      AddBlock(base, n, s, m);
      var low := FuseBackward(base);
      FuseForward(low);
      ReleasedSteps(m, s, Block(base, n));
      if valid { list := Freed(m, list, Block(base, n), s); }
      return false;
    }

    lemma {:induction false} ReleasedSteps(m: Memory, s: seq<nat>, b: Block)
      requires Formed(m) && b.len > 0 && End(b) <= |m.pages| && Lands(m.links, |m.pages|, s, b.start)
      ensures |m.links| == |m.pages| + 1 && forall i :: 0 <= i < |s| ==> s[i] < |m.links|
      ensures var r := FusedBack(Entered(m, s, b, loop), b.start);
        Released(m, s, b, loop) == FusedFore(r.0, r.1)
    {
    }

    /** Lines 129-134: no page may be reserved or flagged, and every page is cleared. */
    method ClearGiven(base: nat, n: nat) returns (halted: bool)
      requires pages as object != links as object && base + n <= pages.Length && n > 0
      modifies pages
      ensures links[..] == old(links[..])
      ensures halted <==> Halting(old(pages[..]), Block(base, n))
      ensures !halted ==> pages[..] == Cleared(old(pages[..]), Block(base, n), true)
    {
      ghost var was := pages[..];
      for p := base to base + n
        invariant links[..] == old(links[..])
        invariant forall x :: base <= x < p ==> !was[x].reserved && !was[x].head
        invariant forall x :: 0 <= x < pages.Length ==>
          pages[x] == if base <= x < p then Page(0, false, false, was[x].property) else was[x]
      {
        if pages[p].reserved || pages[p].head { return true; }
        pages[p] := Page(0, false, false, pages[p].property);
      }
      return false;
    }

    /** What a release makes of a list. */
    lemma {:induction false} Freed(m: Memory, list: seq<nat>, b: Block, s: seq<nat>) returns (list': seq<nat>)
      requires Records(m, list) && b.len > 0 && End(b) <= |m.pages| && !Halting(m.pages, b) && Lands(m.links, |m.pages|, s, b.start)
      ensures var m', bs := Released(m, s, b, loop), BlocksOf(list, m.pages);
        match Arising(bs, b, loop)
        case InOrder => Records(m', list') && BlocksOf(list', m'.pages) == Free(bs, b)
        case ToItself => Apart(bs, b) ==> Looped(m', list, b.start) && BlocksOf(list + [b.start], m'.pages) == bs + [b]
        case Overlaid => IsRing(m'.links, |m'.pages|, list') && !Sound(list', m'.pages, m'.nrFree)
    {
      RecordsLands(m, list, b.start, s);
      assert Unflagged(m.pages, b);
      hide Records, Released, Looped, Lands;
      list' := list;
      match Arising(BlocksOf(list, m.pages), b, loop)
      case InOrder => list' := ReleasedRecords(m, list, b, loop);
      case ToItself => if Apart(BlocksOf(list, m.pages), b) { ReleasedLooped(m, list, b); }
      case Overlaid => list' := ReleasedBehind(m, list, b, loop);
    }

    /** default_pmm.c lines 154-163. */
    method FuseBackward(base: nat) returns (low: nat)
      requires Shape() && base < pages.Length
      modifies pages, links
      ensures Shape() && (Mem(), low) == FusedBack(old(Mem()), base) && low < pages.Length
    {
      low := base;
      var le := links[base].prev;
      if le != Head() {
        var p := le;
        if p + pages[p].property == base {
          FusePair(p, base);
          low := p;
        }
      }
    }

    /** default_pmm.c lines 165-173. */
    method FuseForward(base: nat)
      requires Shape() && base < pages.Length
      modifies pages, links
      ensures Shape() && Mem() == FusedFore(old(Mem()), base)
    {
      var le := links[base].next;
      if le != Head() {
        var p := le;
        if base + pages[base].property == p {
          FusePair(base, p);
        }
      }
    }

    /** The block at upper joins the one at lower and leaves the list. */
    method FusePair(lower: nat, upper: nat)
      requires Shape() && lower < pages.Length && upper < pages.Length
      modifies pages, links
      ensures Shape() && Mem() == Fuse(old(Mem()), lower, upper)
    {
      pages[lower] := pages[lower].(property := pages[lower].property + pages[upper].property);
      pages[upper] := pages[upper].(head := false);
      ListDel(upper);
    }

    // ---------- Requests ----------

    /** default_alloc_pages: the first block that is large enough. */
    method DefaultAllocPages(n: nat, ghost s: seq<nat>) returns (halted: bool, page: Option<nat>, ghost i: nat)
      requires Shape() && Walkable(Mem(), s) && (0 < n <= nrFree ==> Ends(FirstFit, Mem(), s, n))
      modifies pages, links, `nrFree, `list
      ensures halted <==> n == 0
      ensures !halted ==> Allocated(FirstFit, old(Mem()), s, n, page, i, Mem())
      ensures !halted && old(Valid()) ==> Valid() && Granted(FirstFit, old(Blocks()), n, page, i, Blocks())
    {
      if n == 0 { return true, None, 0; }
      ghost var m, valid := Mem(), Valid();
      page, i := None, 0;
      if n <= nrFree {
        page, i := FirstSearch(n, s);
        if page.Some? { Carve(page.value, n); }
      }
      if valid { list := AllocatedRecords(FirstFit, m, list, s, n, page, i, Mem()); }
      halted := false;
    }

    /** best_fit_alloc_pages: the first of the smallest blocks that are large enough. */
    method BestFitAllocPages(n: nat, ghost s: seq<nat>) returns (halted: bool, page: Option<nat>, ghost i: nat)
      requires Shape() && Walkable(Mem(), s) && (0 < n <= nrFree ==> Ends(BestFit, Mem(), s, n))
      modifies pages, links, `nrFree, `list
      ensures halted <==> n == 0
      ensures !halted ==> Allocated(BestFit, old(Mem()), s, n, page, i, Mem())
      ensures !halted && old(Valid()) ==> Valid() && Granted(BestFit, old(Blocks()), n, page, i, Blocks())
    {
      if n == 0 { return true, None, 0; }
      ghost var m, valid := Mem(), Valid();
      page, i := None, 0;
      if n <= nrFree {
        page, i := BestSearch(n, s);
        if page.Some? { Carve(page.value, n); }
      }
      if valid { list := AllocatedRecords(BestFit, m, list, s, n, page, i, Mem()); }
      halted := false;
    }

    /** The outcome of a search for n pages that ends with the entries of s. */
    ghost predicate Searched(policy: Policy, s: seq<nat>, n: nat, page: Option<nat>, i: nat)
      requires Walkable(Mem(), s)
      reads this, pages, links
    {
      if page.Some? then i < |s| && page.value == s[i] && Finds(policy, BlocksOf(s, pages[..]), n, nrFree, i)
      else forall j: nat :: !Finds(policy, BlocksOf(s, pages[..]), n, nrFree, j)
    }

    /** default_pmm.c lines 102-110. */
    method FirstSearch(n: nat, ghost s: seq<nat>) returns (page: Option<nat>, ghost i: nat)
      requires Ends(FirstFit, Mem(), s, n)
      ensures Searched(FirstFit, s, n, page, i)
    {
      hide Walkable, BlocksOf, Leave, Ends, Finds, FirstSoFar, Shape, Valid;
      ghost var m := Mem();
      ghost var hit := EndsAt(FirstFit, m, s, n);
      WalkableReads(m, s);
      ghost var bs, leave := BlocksOf(s, m.pages), Leave(m.links, Head(), s);
      i := 0;
      var le := links[Head()].next;
      FirstStart(bs, n);
      while le != Head()
        invariant pages[..] == m.pages && links[..] == m.links
        invariant i <= |s| && le == (if i < |s| then s[i] else leave) && FirstSoFar(bs, n, i)
        decreases |s| - i
      {
        FirstEnd(bs, n, i, nrFree);
        assert i < |s|;
        WalkableReadsAt(m, s, i);
        FirstStep(bs, n, i, nrFree);
        var size := pages[le].property;
        assert size == bs[i].len;
        if size >= n { return Some(le), i; }
        le := links[le].next;
        i := i + 1;
      }
      assert i == |s|;
      FirstEnd(bs, n, i, nrFree);
      page := None;
    }

    /** best_fit_pmm.c lines 117-131. */
    method BestSearch(n: nat, ghost s: seq<nat>) returns (page: Option<nat>, ghost i: nat)
      requires Ends(BestFit, Mem(), s, n)
      ensures Searched(BestFit, s, n, page, i)
    {
      hide Walkable, BlocksOf, Leave, Ends, Finds, BestSoFar, Shape, Valid;
      ghost var m := Mem();
      ghost var hit := EndsAt(BestFit, m, s, n);
      WalkableReads(m, s);
      ghost var bs := BlocksOf(s, m.pages);
      page, i := None, 0;
      var minSize: nat := nrFree + 1;
      ghost var at := 0;
      var le := links[Head()].next;
      BestStart(bs, n, nrFree);
      while le != Head()
        invariant pages[..] == m.pages && links[..] == m.links
        invariant at <= |s| && le == (if at < |s| then s[at] else Head())
        invariant BestSoFar(bs, n, at, page.Some?, i, minSize, nrFree) && (page.Some? ==> i < |s| && page.value == s[i])
        decreases |s| - at
      {
        WalkableReadsAt(m, s, at);
        BestStep(bs, n, at, page.Some?, i, minSize, nrFree);
        var size := pages[le].property;
        assert size == bs[at].len;
        if size >= n && size < minSize {
          page := Some(le);
          minSize := size;
          i := at;
          assert BestSoFar(bs, n, at + 1, page.Some?, i, minSize, nrFree);
        } else {
          assert BestSoFar(bs, n, at + 1, page.Some?, i, minSize, nrFree);
        }
        le := links[le].next;
        at := at + 1;
        assert BestSoFar(bs, n, at, page.Some?, i, minSize, nrFree);
      }
      assert at == |s|;
      BestFound(bs, n, page.Some?, i, minSize, nrFree);
    }

    /** Where a search ends: back at the head, or at an entry that is large enough. */
    lemma {:induction false} EndsAt(policy: Policy, m: Memory, s: seq<nat>, n: nat) returns (hit: nat)
      requires Ends(policy, m, s, n)
      ensures Walkable(m, s)
      ensures Leave(m.links, |m.pages|, s) == |m.pages| || (policy.FirstFit? && hit < |s| && n <= BlocksOf(s, m.pages)[hit].len)
    {
      hit := 0;
      if Leave(m.links, |m.pages|, s) != |m.pages| {
        hit :| IsFirst(BlocksOf(s, m.pages), n, hit);
      }
    }

    lemma {:induction false} WalkableReads(m: Memory, s: seq<nat>)
      requires Walkable(m, s)
      ensures |m.pages| < |m.links| && (forall i :: 0 <= i < |s| ==> s[i] < |m.pages|)
      ensures m.links[|m.pages|].next == if s == [] then Leave(m.links, |m.pages|, s) else s[0]
    {
      PathStart(m.links, |m.pages|, s);
    }

    lemma {:induction false} WalkableReadsAt(m: Memory, s: seq<nat>, i: nat)
      requires Walkable(m, s) && i < |s|
      ensures |m.pages| < |m.links| && forall j :: 0 <= j < |s| ==> s[j] < |m.pages|
      ensures m.links[s[i]].next == if i + 1 < |s| then s[i + 1] else Leave(m.links, |m.pages|, s)
      ensures BlocksOf(s, m.pages)[i].len == m.pages[s[i]].property
    {
      PathNext(m.links, |m.pages|, s, i);
    }

    /** The block found gives its first n pages: default_pmm.c lines 112-121, best_fit_pmm.c lines 134-143. */
    method Carve(page: nat, n: nat)
      requires Shape() && Carvable(Mem(), page) && n <= nrFree
      modifies pages, links, `nrFree
      ensures Shape() && Mem() == Carved(old(Mem()), page, n)
    {
      hide Del, AddAfter, Wired;
      ghost var m := Mem();
      DelWired(m.links, page);
      var prev := links[page].prev;
      ListDel(page);
      if pages[page].property > n {
        MarkRest(page + n, pages[page].property - n);
        ListAddAfter(prev, page + n);
      }
      nrFree := nrFree - n;
      ClearHead(page);
      assert Mem() == Carved(m, page, n);
    }

    method ClearHead(p: nat)
      requires p < pages.Length && pages as object != links as object
      modifies pages
      ensures pages[..] == old(pages[..])[p := old(pages[..])[p].(head := false)]
      ensures links[..] == old(links[..])
    {
      pages[p] := pages[p].(head := false);
    }

    /** The head of what is left of a block: default_pmm.c lines 116-117. */
    method MarkRest(p: nat, len: nat)
      requires p < pages.Length && pages as object != links as object
      modifies pages
      ensures pages[..] == old(pages[..])[p := old(pages[..])[p].(property := len, head := true)]
      ensures links[..] == old(links[..])
    {
      pages[p] := pages[p].(property := len);
      pages[p] := pages[p].(head := true);
    }
  }
}
