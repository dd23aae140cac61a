/** The buddy allocator of lab2/kern/mm/buddysystem_pmm.c as functions on the state of the page
    descriptors and the free areas.  A page is named by its index in the array of descriptors;
    the physical page number of page 0 is NBASE. */
module BuddyModel {
  import opened Wrappers
  import opened Powers
  import opened Bits
  import opened Memlayout

  const MAX_ORDER: nat := 11
  const NBASE: nat := 0x80000
  const PGSIZE: nat := 4096

  datatype FreeArea = FreeArea(list: seq<nat>, nr: int)

  datatype Zone = Zone(pages: seq<Page>, areas: seq<FreeArea>)

  /** Panic is a failed assertion or a failed pa2page; Wild is an access outside the descriptors or
      the unlinking of a page that is not on the list at hand, of which the code promises nothing. */
  datatype Outcome<+T> = Done(value: T) | Panic | Wild

  datatype Allocation = Allocation(zone: Zone, page: Option<nat>)

  /** Whether merge_page has the two changes that keep a flag on exactly the heads of listed blocks:
      the absorbed upper head is cleared and the head that is linked is flagged.
      The source is AsWritten. */
  datatype Flags = AsWritten | Kept

  // ---------- Lists and descriptors ----------

  function Remove(s: seq<nat>, x: nat): seq<nat> {
    if s == [] then [] else if s[0] == x then s[1..] else [s[0]] + Remove(s[1..], x)
  }

  /** list_add at the front of list k, and its count. */
  function Push(areas: seq<FreeArea>, k: nat, p: nat): seq<FreeArea>
    requires k < |areas|
  {
    areas[k := FreeArea([p] + areas[k].list, areas[k].nr + 1)]
  }

  /** list_del of a page on list k, and its count. */
  function Unlist(areas: seq<FreeArea>, k: nat, p: nat): seq<FreeArea>
    requires k < |areas|
  {
    areas[k := FreeArea(Remove(areas[k].list, p), areas[k].nr - 1)]
  }

  function SetHead(pages: seq<Page>, p: nat, head: bool): seq<Page>
    requires p < |pages|
  {
    pages[p := pages[p].(head := head)]
  }

  function SetProperty(pages: seq<Page>, p: nat, property: nat): seq<Page>
    requires p < |pages|
  {
    pages[p := pages[p].(property := property)]
  }

  // ---------- Initialisation ----------

  function EmptyAreas(): seq<FreeArea> {
    seq(MAX_ORDER, i => FreeArea([], 0))
  }

  function Clear(property: nat): Page {
    Page(0, false, false, property)
  }

  function InitMemmap(z: Zone, base: nat, n: nat): Outcome<Zone> {
    if n == 0 then Panic
    else if base + n > |z.pages| then Wild
    else if exists i :: base <= i < base + n && !z.pages[i].reserved then Panic
    else Greedy(z.(pages := InitPages(z.pages, base, n)), base, n)
  }

  function InitPages(pages: seq<Page>, base: nat, n: nat): seq<Page> {
    seq(|pages|, i requires 0 <= i < |pages| => if base <= i < base + n then Clear(0) else pages[i])
  }

  /** The order of the next block of a region of n pages. */
  function BlockOrder(n: nat): nat
    requires n > 0
  {
    if n >= Pow2(MAX_ORDER - 1) then MAX_ORDER - 1 else Log2(n)
  }

  function Greedy(z: Zone, p: nat, n: nat): Outcome<Zone>
    decreases n
  {
    if n == 0 then Done(z)
    else
      var k := BlockOrder(n);
      BlockOrderFits(n);
      if p >= |z.pages| || k >= |z.areas| then Wild
      else
        Greedy(Cut(z, p, k), p + Pow2(k), n - Pow2(k))
  }

  /** The block of order k at p is marked and listed. */
  function Cut(z: Zone, p: nat, k: nat): Zone
    requires p < |z.pages| && k < |z.areas|
  {
    Zone(SetHead(SetProperty(z.pages, p, Pow2(k)), p, true), Push(z.areas, k, p))
  }

  lemma {:induction false} BlockOrderFits(n: nat)
    requires n > 0
    ensures BlockOrder(n) < MAX_ORDER && Pow2(BlockOrder(n)) <= n
    ensures BlockOrder(n) < MAX_ORDER - 1 ==> n < 2 * Pow2(BlockOrder(n))
  {
    Log2Spec(n, Log2(n));
    Log2Spec(n, Log2(n) + 1);
    Log2Spec(n, MAX_ORDER - 1);
  }

  // ---------- Allocation ----------

  function Split(z: Zone, order: nat): Outcome<Zone>
    decreases MAX_ORDER - order
  {
    if !(0 < order < MAX_ORDER) then Panic
    else if order >= |z.areas| then Wild
    else
      var first := if z.areas[order].list == [] then Split(z, order + 1) else Done(z);
      if !first.Done? || order >= |first.value.areas| || first.value.areas[order].list == [] then first
      else Halve(first.value, order)
  }

  /** The rest of split_page, for a list that is not empty. */
  function Halve(z: Zone, order: nat): Outcome<Zone>
    requires 0 < order < |z.areas| && z.areas[order].list != []
  {
    var p := z.areas[order].list[0];
    var size := Pow2(order - 1);
    if p + size >= |z.pages| then Wild
    else Done(Zone(HalvePages(z.pages, p, size), HalveAreas(z.areas, order, p, size)))
  }

  function HalvePages(pages: seq<Page>, p: nat, size: nat): seq<Page>
    requires p + size < |pages|
  {
    var sized := SetProperty(SetProperty(pages, p, size), p + size, size);
    SetHead(SetHead(sized, p, true), p + size, true)
  }

  function HalveAreas(areas: seq<FreeArea>, order: nat, p: nat, size: nat): seq<FreeArea>
    requires 0 < order < |areas|
  {
    Push(Push(Unlist(areas, order, p), order - 1, p), order - 1, p + size)
  }

  /** The least order from k up whose blocks hold n pages, or MAX_ORDER. */
  function OrderFrom(n: nat, k: nat): nat
    requires k <= MAX_ORDER
    decreases MAX_ORDER - k
  {
    if k < MAX_ORDER && Pow2(k) < n then OrderFrom(n, k + 1) else k
  }

  /** The least order from k up with a listed block, or MAX_ORDER. */
  function ListedFrom(z: Zone, k: nat): (c: nat)
    requires k <= MAX_ORDER && |z.areas| == MAX_ORDER
    ensures k <= c <= MAX_ORDER
    decreases MAX_ORDER - k
  {
    if k < MAX_ORDER && z.areas[k].list == [] then ListedFrom(z, k + 1) else k
  }

  function SplitDown(z: Zone, c: nat, k: nat): Outcome<Zone>
    requires k <= c
    decreases c - k
  {
    if c == k then Done(z)
    else
      var y := Split(z, c);
      if y.Done? then SplitDown(y.value, c - 1, k) else y
  }

  function Alloc(z: Zone, n: nat): Outcome<Allocation>
    requires |z.areas| == MAX_ORDER
  {
    if n == 0 then Panic
    else if n > Pow2(MAX_ORDER - 1) then Done(Allocation(z, None))
    else
      var k := OrderFrom(n, 0);
      if k >= MAX_ORDER then Done(Allocation(z, None))
      else
        var c := ListedFrom(z, k);
        if c == MAX_ORDER then Done(Allocation(z, None))
        else AllocFrom(z, c, k)
  }

  /** The part of an allocation after the search: split from order c down to k and take. */
  function AllocFrom(z: Zone, c: nat, k: nat): Outcome<Allocation>
    requires k <= c
  {
    var y := SplitDown(z, c, k);
    if !y.Done? then (if y.Panic? then Panic else Wild)
    else if k >= |y.value.areas| || y.value.areas[k].list == [] then Wild
    else
      var p := y.value.areas[k].list[0];
      if p >= |y.value.pages| then Wild
      else Done(Allocation(Take(y.value, k, p), Some(p)))
  }

  function Take(z: Zone, k: nat, p: nat): Zone
    requires k < |z.areas| && p < |z.pages|
  {
    Zone(SetHead(z.pages, p, false), Unlist(z.areas, k, p))
  }

  // ---------- Freeing ----------

  /** The index of the buddy descriptor by way of physical addresses, as merge_page computes it. */
  function BuddyIndex(base: nat, k: nat): int {
    Xor((base + NBASE) * PGSIZE, Pow2(k) * PGSIZE) / PGSIZE - NBASE
  }

  function AddPage(z: Zone, k: nat, base: nat, flags: Flags): Zone
    requires k < |z.areas| && base < |z.pages|
  {
    Zone(if flags.Kept? then SetHead(z.pages, base, true) else z.pages, Push(z.areas, k, base))
  }

  function Merge(z: Zone, k: nat, base: nat, flags: Flags): Outcome<Zone>
    requires k < MAX_ORDER == |z.areas| && base < |z.pages|
    decreases MAX_ORDER - k
  {
    if k >= MAX_ORDER - 1 then Done(AddPage(z, k, base, flags))
    else
      var q := BuddyIndex(base, k);
      if q >= |z.pages| then Panic
      else if q < 0 then Wild
      else if z.pages[q].property != Pow2(k) || !z.pages[q].head then Done(AddPage(z, k, base, flags))
      else if q !in z.areas[k].list then Wild
      else Merge(Join(z, k, base, q, flags), k + 1, if q < base then q else base, flags)
  }

  /** One step of merge_page: q leaves its list and the lower of the two stands for both. */
  function Join(z: Zone, k: nat, base: nat, q: nat, flags: Flags): Zone
    requires k < |z.areas| && base < |z.pages| && q < |z.pages|
  {
    Zone(JoinPages(z.pages, base, q, 2 * Pow2(k), flags), Unlist(z.areas, k, q))
  }

  function JoinPages(pages: seq<Page>, base: nat, q: nat, size: nat, flags: Flags): seq<Page>
    requires base < |pages| && q < |pages|
  {
    var pages1 := SetHead(pages, q, false);
    var pages2 := if flags.Kept? then SetHead(pages1, base, false) else pages1;
    var low := if q < base then q else base;
    SetHead(SetProperty(pages2, low, size), low, false)
  }

  function Free(z: Zone, base: nat, n: nat, flags: Flags): Outcome<Zone>
    requires |z.areas| == MAX_ORDER
  {
    if n == 0 || And(n, n - 1) != 0 || n > Pow2(MAX_ORDER - 1) then Panic
    else if base + n > |z.pages| then Wild
    else if exists i :: base <= i < base + n && (z.pages[i].reserved || z.pages[i].head) then Panic
    else
      FreeOrder(n);
      Merge(z.(pages := Release(z.pages, base, n)), Log2(n), base, flags)
  }

  lemma {:induction false} FreeOrder(n: nat)
    requires 1 <= n <= Pow2(MAX_ORDER - 1)
    ensures Log2(n) < MAX_ORDER
  {
    Log2Mono(n, Pow2(MAX_ORDER - 1));
    Log2Pow2(MAX_ORDER - 1);
  }

  /** The pages cleared and their head marked, before merging. */
  function Release(pages: seq<Page>, base: nat, n: nat): seq<Page>
    requires 0 < n && base + n <= |pages|
  {
    var cleared := seq(|pages|, i requires 0 <= i < |pages| =>
      if base <= i < base + n then Clear(pages[i].property) else pages[i]);
    SetHead(SetProperty(cleared, base, n), base, true)
  }

  /** The sum of the first k areas' counts, in pages. */
  function NrFreePages(areas: seq<FreeArea>, k: nat): int
    requires k <= |areas|
  {
    if k == 0 then 0 else NrFreePages(areas, k - 1) + areas[k - 1].nr * Pow2(k - 1)
  }
}
