/** The memory of the two list allocators: links, descriptors and the count of free pages, and what the
    steps of the code make of any such memory, whether its links are a list or not.  With loop ==
    Continues this is the code as written; with Stops, the insertion loop breaks after appending. */
module FitMemory {
  import opened Wrappers
  import opened Memlayout
  import opened Ring
  import opened FitBlocks
  import opened FitDescriptors
  import opened FitRuns

  /** Page i is entry i of the links; the list head is the entry after them. */
  datatype Memory = Memory(links: seq<Link>, pages: seq<Page>, nrFree: nat)

  /** Links name entries. */
  ghost predicate Wired(l: seq<Link>) {
    forall x :: 0 <= x < |l| ==> l[x].prev < |l| && l[x].next < |l|
  }

  ghost predicate Formed(m: Memory) {
    |m.links| == |m.pages| + 1 && Wired(m.links)
  }

  // ---------- What list_next visits ----------

  /** From the head h, list_next visits the entries of s. */
  ghost predicate Path(l: seq<Link>, h: nat, s: seq<nat>) {
    && h < |l| && (forall i :: 0 <= i < |s| ==> s[i] < |l| && s[i] != h)
    && forall i :: 0 <= i < |s| ==> l[At(h, s, i)].next == s[i]
  }

  /** Where list_next leads after them. */
  function Leave(l: seq<Link>, h: nat, s: seq<nat>): nat
    requires h < |l| && forall i :: 0 <= i < |s| ==> s[i] < |l|
  {
    l[if s == [] then h else s[|s| - 1]].next
  }

  /** It visits them and comes back to h. */
  ghost predicate Forward(l: seq<Link>, h: nat, s: seq<nat>) {
    Path(l, h, s) && Leave(l, h, s) == h
  }

  lemma {:induction false} RingForward(l: seq<Link>, h: nat, s: seq<nat>)
    requires IsRing(l, h, s)
    ensures Forward(l, h, s)
  {
    forall i | 0 <= i < |s|
      ensures l[At(h, s, i)].next == s[i]
    {
      assert l[At(h, s, i)].next == At(h, s, i + 1);
    }
    assert l[At(h, s, |s|)].next == At(h, s, |s| + 1);
  }

  lemma {:induction false} PathStart(l: seq<Link>, h: nat, s: seq<nat>)
    requires Path(l, h, s)
    ensures s != [] ==> l[h].next == s[0]
  {
    if s != [] { assert l[At(h, s, 0)].next == s[0]; }
  }

  lemma {:induction false} PathNext(l: seq<Link>, h: nat, s: seq<nat>, i: nat)
    requires Path(l, h, s) && i < |s|
    ensures l[s[i]].next == if i + 1 < |s| then s[i + 1] else Leave(l, h, s)
  {
    if i + 1 < |s| { assert l[At(h, s, i + 1)].next == s[i + 1]; }
  }

  lemma {:induction false} PathAt(l: seq<Link>, h: nat, s: seq<nat>, k: nat)
    requires Path(l, h, s) && k < |s|
    ensures (if k == 0 then h else s[k - 1]) < |l| && l[if k == 0 then h else s[k - 1]].next == s[k] != h
  {
    assert l[At(h, s, k)].next == s[k];
  }

  lemma {:induction false} PathAgrees(l: seq<Link>, h: nat, s: seq<nat>, r: seq<nat>, k: nat)
    requires Path(l, h, s) && Forward(l, h, r) && k <= |s|
    ensures k <= |r| && forall i :: 0 <= i < k ==> s[i] == r[i]
  {
    hide Path;
    if k > 0 {
      PathAgrees(l, h, s, r, k - 1);
      PathAt(l, h, s, k - 1);
      if k <= |r| { PathAt(l, h, r, k - 1); }
    }
  }

  /** Every path is a part of one that comes back. */
  lemma {:induction false} PathWithin(l: seq<Link>, h: nat, s: seq<nat>, r: seq<nat>)
    requires Path(l, h, s) && Forward(l, h, r)
    ensures |s| <= |r| && s == r[..|s|] && (Leave(l, h, s) == h <==> |s| == |r|)
  {
    PathAgrees(l, h, s, r, |s|);
    if |s| < |r| { PathAt(l, h, r, |s|); }
  }

  // ---------- The insertion ----------

  /** The entries that the insertion of base looks at: up to the first above it, or all, if list_next
      comes back.  There are such entries exactly when the loop ends. */
  ghost predicate Lands(l: seq<Link>, h: nat, s: seq<nat>, base: nat) {
    && Path(l, h, s) && (forall j :: 0 <= j < |s| - 1 ==> s[j] <= base)
    && (s == [] || s[|s| - 1] <= base ==> Leave(l, h, s) == h)
  }

  /** default_pmm.c lines 80-93 and 139-152. */
  function Inserted(l: seq<Link>, h: nat, s: seq<nat>, base: nat, loop: Loop): (l': seq<Link>)
    requires Wired(l) && h < |l| && base < |l| && forall i :: 0 <= i < |s| ==> s[i] < |l|
    ensures |l'| == |l| && Wired(l')
  {
    if s == [] then AddAfter(l, h, base)
    else
      var last := s[|s| - 1];
      if base < last then AddBefore(l, last, base)
      else if loop.Stops? then AddAfter(l, last, base)
      else LinkedToItself(l, last, base)
  }

  /** How far the insertion loop has come, with links m: looking at entry "at" with the links as they
      were; or, base appended, looking at base itself; or past it. */
  ghost predicate Walking(l: seq<Link>, m: seq<Link>, h: nat, s: seq<nat>, base: nat, le: nat, at: nat, phase: nat) {
    && s != [] && Lands(l, h, s, base) && base < |l| && Wired(l)
    && match phase
       case 0 => at < |s| && le == s[at] && m == l
       case 1 => at == |s| && le == base && s[|s| - 1] < base && m == AddAfter(l, s[|s| - 1], base) && Leave(l, h, s) == h
       case _ => at == |s| && le == h && s[|s| - 1] <= base && m == LinkedToItself(l, s[|s| - 1], base)
  }

  /** One turn of the loop that does not find an entry above base. */
  lemma {:induction false} WalkTurn(l: seq<Link>, m: seq<Link>, h: nat, s: seq<nat>, base: nat, le: nat, at: nat, phase: nat)
    requires Walking(l, m, h, s, base, le, at, phase) && le != h && base >= le && base != h
    ensures phase <= 1 && |m| == |l| && le < |m| && m[le].next < |m|
    ensures m[le].next != h ==> phase == 0 && Walking(l, m, h, s, base, m[le].next, at + 1, 0)
    ensures m[le].next == h ==> var m' := AddAfter(m, le, base);
      && (phase == 0 ==> at + 1 == |s| && s[at] <= base && m == l && le == s[at])
      && |m'| == |m| && m'[le].next < |m| && (m'[le].next == h || phase == 0)
      && Walking(l, m', h, s, base, m'[le].next, |s|, if m'[le].next == h then 2 else 1)
  {
    if phase == 0 {
      PathNext(l, h, s, at);
    }
  }

  lemma {:induction false} WalkStart(l: seq<Link>, h: nat, s: seq<nat>, base: nat)
    requires Wired(l) && Lands(l, h, s, base) && s != [] && base < |l|
    ensures Walking(l, l, h, s, base, s[0], 0, 0) && h < |l| && l[h].next == s[0]
    ensures forall i :: 0 <= i < |s| ==> s[i] < |l|
  {
    PathStart(l, h, s);
  }

  /** Looking at an entry: it is one of the list, and if it is above base, the one looked for. */
  lemma {:induction false} WalkInside(l: seq<Link>, m: seq<Link>, h: nat, s: seq<nat>, base: nat, le: nat, at: nat, phase: nat)
    requires Walking(l, m, h, s, base, le, at, phase) && le != h
    ensures le < |m| == |l| && (base < le ==> m == l && s != [] && le == s[|s| - 1] && l[le].prev < |l|)
  {
  }

  lemma {:induction false} WalkEnd(l: seq<Link>, m: seq<Link>, h: nat, s: seq<nat>, base: nat, at: nat, phase: nat)
    requires Walking(l, m, h, s, base, h, at, phase) && base != h
    ensures phase > 1 && s != [] && s[|s| - 1] < |l| && base < |l| && l[s[|s| - 1]].next < |l| && !(base < s[|s| - 1])
    ensures m == LinkedToItself(l, s[|s| - 1], base)
  {
  }

  // ---------- Freeing ----------

  /** The pages of b cleared.  free_pages keeps the sizes that they may have recorded. */
  function Cleared(pages: seq<Page>, b: Block, keep: bool): (pages': seq<Page>)
    ensures |pages'| == |pages|
  {
    seq(|pages|, i requires 0 <= i < |pages| =>
      if b.start <= i < End(b) then Page(0, false, false, if keep then pages[i].property else 0) else pages[i])
  }

  /** And their head marked. */
  function Given(pages: seq<Page>, b: Block): (pages': seq<Page>)
    requires b.len > 0 && End(b) <= |pages|
    ensures |pages'| == |pages|
  {
    var cleared := Cleared(pages, b, true);
    cleared[b.start := cleared[b.start].(property := b.len, head := true)]
  }

  /** What init_memmap clears. */
  function Wiped(m: Memory, b: Block): Memory {
    Memory(m.links, Cleared(m.pages, b, false), m.nrFree)
  }

  /** The assertions of free_pages. */
  ghost predicate Halting(pages: seq<Page>, b: Block)
    requires End(b) <= |pages|
  {
    b.len == 0 || exists x :: b.start <= x < End(b) && (pages[x].reserved || pages[x].head)
  }

  /** The block at q joins the one at p and leaves the list. */
  function Fuse(m: Memory, p: nat, q: nat): (m': Memory)
    requires Formed(m) && p < |m.pages| && q < |m.pages|
    ensures Formed(m') && |m'.pages| == |m.pages|
  {
    Memory(Del(m.links, q), Grown(m.pages, p, q), m.nrFree)
  }

  /** default_pmm.c lines 154-163: the block before, if it ends where this one starts, takes it over. */
  function FusedBack(m: Memory, base: nat): (r: (Memory, nat))
    requires Formed(m) && base < |m.pages|
    ensures Formed(r.0) && |r.0.pages| == |m.pages| && r.1 < |m.pages|
  {
    var p := m.links[base].prev;
    if p != |m.pages| && p + m.pages[p].property == base then (Fuse(m, p, base), p) else (m, base)
  }

  /** default_pmm.c lines 165-173: the block after, if it starts where this one ends, is taken over. */
  function FusedFore(m: Memory, base: nat): (m': Memory)
    requires Formed(m) && base < |m.pages|
    ensures Formed(m') && |m'.pages| == |m.pages|
  {
    var q := m.links[base].next;
    if q != |m.pages| && base + m.pages[base].property == q then Fuse(m, base, q) else m
  }

  /** The block b marked, counted and inserted, before any merge. */
  function Entered(m: Memory, s: seq<nat>, b: Block, loop: Loop): (m': Memory)
    requires Formed(m) && b.len > 0 && End(b) <= |m.pages| && forall i :: 0 <= i < |s| ==> s[i] < |m.links|
    ensures Formed(m') && |m'.pages| == |m.pages|
  {
    Memory(Inserted(m.links, |m.pages|, s, b.start, loop), Given(m.pages, b), m.nrFree + b.len)
  }

  /** default_free_pages and best_fit_free_pages, when the insertion looks at the entries of s. */
  function Released(m: Memory, s: seq<nat>, b: Block, loop: Loop): (m': Memory)
    requires Formed(m) && b.len > 0 && End(b) <= |m.pages| && forall i :: 0 <= i < |s| ==> s[i] < |m.links|
    ensures Formed(m') && |m'.pages| == |m.pages|
  {
    var (m1, base) := FusedBack(Entered(m, s, b, loop), b.start);
    FusedFore(m1, base)
  }

  /** The pages of b have no references and are not reserved; those of all other pages are as they were. */
  ghost predicate Unreferenced(pages: seq<Page>, pages': seq<Page>, b: Block) {
    |pages'| == |pages| && forall x :: 0 <= x < |pages| ==>
      if b.start <= x < End(b) then pages'[x].ref == 0 && !pages'[x].reserved
      else pages'[x].ref == pages[x].ref && pages'[x].reserved == pages[x].reserved
  }

  /** Handing pages over and releasing them clears those pages and no others, whatever is merged. */
  lemma {:induction false} PagesUnreferenced(m: Memory, s: seq<nat>, b: Block, loop: Loop)
    requires Formed(m) && b.len > 0 && End(b) <= |m.pages| && forall i :: 0 <= i < |s| ==> s[i] < |m.links|
    ensures Unreferenced(m.pages, Released(m, s, b, loop).pages, b)
    ensures Unreferenced(m.pages, Entered(Wiped(m, b), s, b, loop).pages, b)
  {
    hide Inserted, Del;
  }

  // ---------- Requests ----------

  /** The descriptors past the block recorded at page are in the array. */
  ghost predicate Carvable(m: Memory, page: nat) {
    page < |m.pages| && page + m.pages[page].property <= |m.pages|
  }

  /** A search meets the heads of s. */
  ghost predicate Walkable(m: Memory, s: seq<nat>) {
    Formed(m) && Path(m.links, |m.pages|, s) && forall i :: 0 <= i < |s| ==> Carvable(m, s[i])
  }

  /** The search for n pages ends with the entries of s: list_next comes back to the head, or, for first
      fit, one of them is large enough. */
  ghost predicate Ends(policy: Policy, m: Memory, s: seq<nat>, n: nat) {
    && Walkable(m, s)
    && (Leave(m.links, |m.pages|, s) == |m.pages| || (policy.FirstFit? && exists i: nat :: IsFirst(BlocksOf(s, m.pages), n, i)))
  }

  /** What the search finds: the first block of at least n pages, or the first of the smallest of those,
      where best fit starts from the minimum nr_free + 1. */
  ghost predicate Finds(policy: Policy, bs: seq<Block>, n: nat, nrFree: nat, i: nat) {
    if policy.FirstFit? then IsFirst(bs, n, i) else IsBestWithin(bs, n, nrFree, i)
  }

  /** None of the first i blocks fits. */
  ghost predicate FirstSoFar(bs: seq<Block>, n: nat, i: nat) {
    i <= |bs| && forall j :: 0 <= j < i ==> bs[j].len < n
  }

  lemma {:induction false} FirstStart(bs: seq<Block>, n: nat)
    ensures FirstSoFar(bs, n, 0)
  {
  }

  lemma {:induction false} FirstStep(bs: seq<Block>, n: nat, i: nat, nrFree: nat)
    requires FirstSoFar(bs, n, i) && i < |bs|
    ensures if n <= bs[i].len then Finds(FirstFit, bs, n, nrFree, i) else FirstSoFar(bs, n, i + 1)
  {
  }

  lemma {:induction false} FirstEnd(bs: seq<Block>, n: nat, i: nat, nrFree: nat)
    requires FirstSoFar(bs, n, i)
    ensures i == |bs| ==> forall j: nat :: !Finds(FirstFit, bs, n, nrFree, j)
    ensures forall j: nat :: j < |bs| && n <= bs[j].len ==> i <= j
  {
  }

  lemma {:induction false} BestFound(bs: seq<Block>, n: nat, found: bool, i: nat, min: nat, nrFree: nat)
    requires BestSoFar(bs, n, |bs|, found, i, min, nrFree)
    ensures if found then Finds(BestFit, bs, n, nrFree, i) else forall j: nat :: !Finds(BestFit, bs, n, nrFree, j)
  {
    BestEnd(bs, n, found, i, min, nrFree);
  }

  /** default_pmm.c lines 112-121, best_fit_pmm.c lines 134-143. */
  function Carved(m: Memory, page: nat, n: nat): (m': Memory)
    requires Formed(m) && Carvable(m, page) && n <= m.nrFree
    ensures Formed(m') && |m'.pages| == |m.pages|
  {
    var links := Del(m.links, page);
    if m.pages[page].property > n then
      var pages := m.pages[page + n := m.pages[page + n].(property := m.pages[page].property - n, head := true)];
      Memory(AddAfter(links, m.links[page].prev, page + n), pages[page := pages[page].(head := false)], m.nrFree - n)
    else
      Memory(links, m.pages[page := m.pages[page].(head := false)], m.nrFree - n)
  }

  lemma {:induction false} DelWired(l: seq<Link>, elm: nat)
    requires Wired(l) && elm < |l|
    ensures l[elm].prev < |l| && l[elm].next < |l| && |Del(l, elm)| == |l| && Wired(Del(l, elm))
    ensures Del(l, elm)[l[elm].prev].next < |l|
  {
  }

  /** A request of n > 0 pages whose search ends with the entries of s, if it makes one. */
  ghost predicate Allocated(policy: Policy, m: Memory, s: seq<nat>, n: nat, page: Option<nat>, i: nat, m': Memory) {
    && Walkable(m, s) && (n <= m.nrFree ==> Ends(policy, m, s, n))
    && var bs := BlocksOf(s, m.pages);
       match page
       case None => m' == m && (n > m.nrFree || forall j: nat :: !Finds(policy, bs, n, m.nrFree, j))
       case Some(p) => n <= m.nrFree && Finds(policy, bs, n, m.nrFree, i) && p == s[i] && m' == Carved(m, p, n)
  }
}
