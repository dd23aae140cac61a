/** What comes of appending as the code is written, which links a block to itself: a later request is
    given the same pages again, and a later release can leave links that never lead back to the head. */
module FitAsWritten {
  import opened Wrappers
  import opened Ring
  import opened FitBlocks
  import opened FitDescriptors
  import opened FitRuns
  import opened FitMemory
  import opened FitRecords

  // ---------- A block linked to itself ----------

  /** What appending elm to the list s leaves as written: forward links and descriptors are right, but
      elm's back link is its own. */
  ghost predicate Looped(m: Memory, s: seq<nat>, elm: nat) {
    && Formed(m) && elm < |m.pages| && elm !in s && Forward(m.links, |m.pages|, s + [elm])
    && m.links[elm] == Link(elm, |m.pages|) && m.links[|m.pages|].prev == elm
    && Sound(s + [elm], m.pages, m.nrFree)
  }

  /** Seen from the head, what LinkedToItself makes of the links is the list with elm at its end. */
  lemma {:induction false} LinkedToItselfForward(l: seq<Link>, h: nat, s: seq<nat>, elm: nat)
    requires IsRing(l, h, s) && s != [] && elm < |l| && elm != h && elm !in s && s[|s| - 1] < |l| && l[s[|s| - 1]].next < |l|
    ensures var l' := LinkedToItself(l, s[|s| - 1], elm);
      Forward(l', h, s + [elm]) && l'[elm] == Link(elm, h) && l'[h].prev == elm
  {
    var l', t := LinkedToItself(l, s[|s| - 1], elm), s + [elm];
    RingLast(l, h, s);
    forall i | 0 <= i < |t|
      ensures l'[At(h, t, i)].next == t[i]
    {
      assert At(h, t, i) == At(h, s, i);
      assert l[At(h, s, i)].next == At(h, s, i + 1);
      if i < |s| {
        DistinctAt(h, s, i, |s|);
      } else {
        assert At(h, s, i) == s[|s| - 1];
      }
    }
  }

  /** A release that appends as written, whatever the block: nothing is merged. */
  lemma {:induction false} AppendedLinks(m: Memory, list: seq<nat>, b: Block)
    requires Records(m, list) && b.len > 0 && End(b) <= |m.pages| && Unflagged(m.pages, b)
    requires Appends(BlocksOf(list, m.pages), b.start)
    ensures list != [] && Seen(list, b.start) == list && forall i :: 0 <= i < |list| ==> list[i] < |m.pages|
    ensures var m' := Entered(m, list, b, Continues);
      && Released(m, list, b, Continues) == m' && m'.links == LinkedToItself(m.links, list[|list| - 1], b.start)
      && Forward(m'.links, |m.pages|, list + [b.start]) && m'.links[b.start] == Link(b.start, |m.pages|)
      && m'.links[|m.pages|].prev == b.start && b.start !in list
  {
    EnterReady(m, list, b);
    PlaceInAt(list, b.start);
    LinkedToItselfForward(m.links, |m.pages|, list, b.start);
    var m' := Entered(m, list, b, Continues);
    assert m'.pages[b.start].property == b.len;
    hide IsRing, Sound, Place, LinkedToItself, Seen, PlaceIn, Unflagged, Forward, Given;
  }

  lemma {:induction false} ReleasedLooped(m: Memory, list: seq<nat>, b: Block)
    requires Records(m, list) && b.len > 0 && End(b) <= |m.pages| && Unflagged(m.pages, b)
    requires Appends(BlocksOf(list, m.pages), b.start) && Apart(BlocksOf(list, m.pages), b)
    ensures forall i :: 0 <= i < |list| ==> list[i] < |m.pages|
    ensures var m' := Released(m, Seen(list, b.start), b, Continues);
      Looped(m', list, b.start) && BlocksOf(list + [b.start], m'.pages) == BlocksOf(list, m.pages) + [b]
  {
    hide Records, Sound, Given, LinkedToItself, Seen, Unflagged, Forward, Path, Apart, Released, Inserted, BlocksOf, Appends;
    AppendedLinks(m, list, b);
    AppendedSound(m, list, b);
  }

  lemma {:induction false} AppendedSound(m: Memory, list: seq<nat>, b: Block)
    requires Records(m, list) && b.len > 0 && End(b) <= |m.pages| && Unflagged(m.pages, b)
    requires Appends(BlocksOf(list, m.pages), b.start) && Apart(BlocksOf(list, m.pages), b)
    ensures Sound(list + [b.start], Given(m.pages, b), m.nrFree + b.len)
    ensures BlocksOf(list + [b.start], Given(m.pages, b)) == BlocksOf(list, m.pages) + [b]
  {
    hide IsRing, Sound, Given, Added, Unflagged, Apart, Place, PlaceIn, Appends;
    EnterReady(m, list, b);
    GivenAdded(m.pages, b);
    SoundInsert(list, m.pages, m.nrFree, b, Given(m.pages, b));
    var bs := BlocksOf(list, m.pages);
    assert WithEntry(list, |list|, b.start) == list + [b.start];
    assert bs[..|bs|] + [b] + bs[|bs|..] == bs + [b];
  }

  lemma {:induction false} LoopedWalkable(m: Memory, s: seq<nat>, elm: nat)
    requires Looped(m, s, elm)
    ensures Walkable(m, s + [elm])
  {
    var t := s + [elm];
    forall i | 0 <= i < |t|
      ensures Carvable(m, t[i])
    {
      BlockInside(t, m.pages, m.nrFree, i);
    }
  }

  // ---------- Requests: pages are handed out twice ----------

  /** The list after n pages of elm have been carved off: elm is still on it. */
  function StillListed(s: seq<nat>, elm: nat, n: nat, len: nat): seq<nat> {
    s + [elm] + if len > n then [elm + n] else []
  }

  /** Carving pages off elm does not take it off the list, nor change its size on record. */
  lemma {:induction false} LoopedCarved(m: Memory, s: seq<nat>, elm: nat, n: nat)
    requires Looped(m, s, elm) && 0 < n <= m.nrFree && elm < |m.pages| && n <= m.pages[elm].property
    ensures Carvable(m, elm)
    ensures var len, m' := m.pages[elm].property, Carved(m, elm, n); var s' := StillListed(s, elm, n, len);
      && Walkable(m', s') && Forward(m'.links, |m'.pages|, s') && m'.nrFree == m.nrFree - n && !m'.pages[elm].head
      && BlocksOf(s', m'.pages) == BlocksOf(s + [elm], m.pages) + if len > n then [Block(elm + n, len - n)] else []
  {
    hide Looped, Forward, Path, Sound, Del, AddAfter;
    LoopedWalkable(m, s, elm);
    LoopedRest(m, s, elm, n);
    LoopedWalks(m, s, elm, n);
    CarvedPages(m, s + [elm], elm, n);
    CarvedWalkable(m, s + [elm], elm, n);
  }

  lemma {:induction false} CarvedWalkable(m: Memory, t: seq<nat>, elm: nat, n: nat)
    requires Walkable(m, t) && elm in t && Carvable(m, elm) && 0 < n <= m.nrFree && n <= m.pages[elm].property
    requires n < m.pages[elm].property ==> elm + n !in t
    ensures var len, m' := m.pages[elm].property, Carved(m, elm, n); var t' := t + if len > n then [elm + n] else [];
      forall i :: 0 <= i < |t'| ==> Carvable(m', t'[i])
  {
    hide Path, Del, AddAfter;
    var len, m' := m.pages[elm].property, Carved(m, elm, n);
    var t' := t + if len > n then [elm + n] else [];
    forall i | 0 <= i < |t'|
      ensures Carvable(m', t'[i])
    {
      if i < |t| { assert t'[i] == t[i] && t[i] in t && Carvable(m, t[i]); }
    }
  }

  lemma {:induction false} LoopedRest(m: Memory, s: seq<nat>, elm: nat, n: nat)
    requires Looped(m, s, elm) && elm < |m.pages| && 0 < n
    ensures Formed(m) && elm !in s && elm in s + [elm] && Carvable(m, elm)
    ensures n < m.pages[elm].property ==> elm + n !in s + [elm]
  {
    hide Path, Sound;
    assert (s + [elm])[|s|] == elm;
    BlockInside(s + [elm], m.pages, m.nrFree, |s|);
    if n < m.pages[elm].property { RestUnlisted(m, s + [elm], |s|, n); }
  }

  lemma {:induction false} LoopedWalks(m: Memory, s: seq<nat>, elm: nat, n: nat)
    requires Looped(m, s, elm) && 0 < n <= m.nrFree && Carvable(m, elm) && n <= m.pages[elm].property
    requires n < m.pages[elm].property ==> elm + n !in s + [elm]
    ensures var len, m' := m.pages[elm].property, Carved(m, elm, n);
      Path(m'.links, |m'.pages|, StillListed(s, elm, n, len)) && Forward(m'.links, |m'.pages|, StillListed(s, elm, n, len))
  {
    hide Sound, BlocksOf, Path, AddAfter;
    LoopedDel(m.links, |m.pages|, elm);
    if m.pages[elm].property > n {
      LoopedAppend(m.links, |m.pages|, s, elm, elm + n);
    } else {
      assert s + [elm] + [] == s + [elm];
    }
  }

  /** list_del of elm changes nothing. */
  lemma {:induction false} LoopedDel(l: seq<Link>, h: nat, elm: nat)
    requires h < |l| && elm < |l| && l[elm] == Link(elm, h) && l[h].prev == elm
    ensures Del(l, elm) == l
  {
    assert l[h := l[h].(prev := elm)] == l && l[elm := l[elm].(next := h)] == l;
  }

  /** list_add behind elm appends r. */
  lemma {:induction false} LoopedAppend(l: seq<Link>, h: nat, s: seq<nat>, elm: nat, r: nat)
    requires Path(l, h, s + [elm]) && elm < |l| && l[elm] == Link(elm, h)
    requires elm !in s && r < |l| && r != h && r !in s + [elm]
    ensures var l', t' := AddAfter(l, elm, r), s + [elm] + [r];
      Path(l', h, t') && Forward(l', h, t')
  {
    var t := s + [elm];
    var t' := t + [r];
    var l' := AddAfter(l, elm, r);
    forall i | 0 <= i < |t'|
      ensures l'[At(h, t', i)].next == t'[i]
    {
      if i <= |s| {
        assert At(h, t', i) == At(h, t, i) && t'[i] == t[i];
        assert l[At(h, t, i)].next == t[i];
        assert i > 0 ==> At(h, t, i) == s[i - 1] && s[i - 1] in s && t[i - 1] == s[i - 1];
      } else {
        assert At(h, t', i) == elm && t'[i] == r;
      }
    }
    assert t'[|t'| - 1] == r && l'[r].next == h;
  }

  lemma {:induction false} CarvedPages(m: Memory, t: seq<nat>, elm: nat, n: nat)
    requires Formed(m) && Carvable(m, elm) && 0 < n <= m.nrFree && n <= m.pages[elm].property
    requires forall x :: x in t ==> x < |m.pages| && (n < m.pages[elm].property ==> x != elm + n)
    ensures var m' := Carved(m, elm, n);
      && (forall x :: x in t ==> m'.pages[x].property == m.pages[x].property)
      && (n < m.pages[elm].property ==> m'.pages[elm + n].property == m.pages[elm].property - n)
      && m'.nrFree == m.nrFree - n && !m'.pages[elm].head
  {
    hide Del, AddAfter;
  }

  lemma {:induction false} FindsUnique(policy: Policy, bs: seq<Block>, n: nat, nrFree: nat, i: nat, j: nat)
    requires Finds(policy, bs, n, nrFree, i) && Finds(policy, bs, n, nrFree, j)
    ensures i == j
  {
  }

  /** When the block of len pages linked to itself behind the blocks bs is found once more by a request
      of n2 pages, after one of n1 pages took from it: its size on record is what it was. */
  ghost predicate Again(policy: Policy, bs: seq<Block>, len: nat, n1: nat, n2: nat, nrFree: nat) {
    && n2 <= len && n1 + n2 <= nrFree
    && if policy.FirstFit? then forall j :: 0 <= j < |bs| ==> bs[j].len < n2
       else
         && n1 + len <= nrFree && len < n1 + n2
         && forall j :: 0 <= j < |bs| && n2 <= bs[j].len && n1 + bs[j].len <= nrFree ==> len < bs[j].len
  }

  lemma {:induction false} FoundAgain(policy: Policy, bs: seq<Block>, b: Block, rest: seq<Block>, n1: nat, n2: nat, nrFree: nat)
    requires 0 < n1 <= b.len && n1 <= nrFree && b.len <= nrFree && 0 < n2
    requires rest == if b.len > n1 then [Block(b.start + n1, b.len - n1)] else []
    ensures n1 + n2 <= nrFree && Finds(policy, bs + [b] + rest, n2, nrFree - n1, |bs|) <==> Again(policy, bs, b.len, n1, n2, nrFree)
  {
    var all := bs + [b] + rest;
    assert all[|bs|] == b && (rest != [] ==> all[|bs| + 1] == rest[0]);
    if Finds(policy, all, n2, nrFree - n1, |bs|) {
      assert forall j :: 0 <= j < |bs| ==> bs[j] == all[j];
    }
    if Again(policy, bs, b.len, n1, n2, nrFree) {
      assert forall j :: 0 <= j < |bs| ==> all[j] == bs[j];
      if policy.FirstFit? {
        assert IsFirst(all, n2, |bs|);
      } else {
        assert IsBestWithin(all, n2, nrFree - n1, |bs|);
      }
    }
  }

  /** As written, pages that are out are handed out again: after an appended block at elm gave n1 pages,
      a request of n2 pages returns page elm once more, exactly under the condition Again. */
  lemma {:induction false} HandedOutTwice(policy: Policy, m: Memory, s: seq<nat>, elm: nat, n1: nat, s1: seq<nat>, i1: nat, m1: Memory,
                                          n2: nat, s2: seq<nat>, page: Option<nat>, i2: nat, m2: Memory)
    requires Looped(m, s, elm) && elm < |m.pages| && forall j :: 0 <= j < |s| ==> s[j] < |m.pages|
    requires 0 < n1 && 0 < n2 && Allocated(policy, m, s1, n1, Some(elm), i1, m1)
    requires Allocated(policy, m1, s2, n2, page, i2, m2)
    ensures page == Some(elm) <==> Again(policy, BlocksOf(s, m.pages), m.pages[elm].property, n1, n2, m.nrFree)
  {
    hide *;
    var bs, b := BlocksOf(s, m.pages), Block(elm, m.pages[elm].property);
    var t, rest := StillListed(s, elm, n1, b.len), if b.len > n1 then [Block(elm + n1, b.len - n1)] else [];
    AfterFirst(policy, m, s, elm, n1, s1, i1, m1, b, rest);
    SecondIff(policy, bs, b, rest, n1, m.nrFree, t, m1, n2, s2, page, i2, m2);
  }

  lemma {:induction false} SecondIff(policy: Policy, bs: seq<Block>, b: Block, rest: seq<Block>, n1: nat, nrFree: nat, t: seq<nat>,
                                     m1: Memory, n2: nat, s2: seq<nat>, page: Option<nat>, i2: nat, m2: Memory)
    requires 0 < n1 <= b.len <= nrFree && m1.nrFree == nrFree - n1 && 0 < n2
    requires rest == if b.len > n1 then [Block(b.start + n1, b.len - n1)] else []
    requires Walkable(m1, t) && Forward(m1.links, |m1.pages|, t) && BlocksOf(t, m1.pages) == bs + [b] + rest
    requires |bs| < |t| && t[|bs|] == b.start && forall j :: 0 <= j < |t| && t[j] == b.start ==> j == |bs|
    requires Allocated(policy, m1, s2, n2, page, i2, m2)
    ensures page == Some(b.start) <==> Again(policy, bs, b.len, n1, n2, nrFree)
  {
    hide *;
    FoundAgain(policy, bs, b, rest, n1, n2, nrFree);
    Picked(policy, m1, t, s2, n2, page, i2, m2, |bs|);
  }

  /** What the first of the two requests leaves. */
  lemma {:induction false} AfterFirst(policy: Policy, m: Memory, s: seq<nat>, elm: nat, n1: nat, s1: seq<nat>, i1: nat, m1: Memory,
                                      b: Block, rest: seq<Block>)
    requires Looped(m, s, elm) && elm < |m.pages| && forall j :: 0 <= j < |s| ==> s[j] < |m.pages|
    requires 0 < n1 && Allocated(policy, m, s1, n1, Some(elm), i1, m1)
    requires b == Block(elm, m.pages[elm].property) && rest == if b.len > n1 then [Block(elm + n1, b.len - n1)] else []
    ensures n1 <= b.len <= m.nrFree && m1.nrFree == m.nrFree - n1
    ensures var t := StillListed(s, elm, n1, b.len);
      && Walkable(m1, t) && Forward(m1.links, |m1.pages|, t) && BlocksOf(t, m1.pages) == BlocksOf(s, m.pages) + [b] + rest
      && t[|s|] == elm && forall j :: 0 <= j < |t| && t[j] == elm ==> j == |s|
  {
    hide Looped, Sound, Walkable, Carvable, Carved, Allocated, Path;
    AllocatedSome(policy, m, s1, n1, elm, i1, m1);
    LoopedLen(m, s, elm);
    LoopedRest(m, s, elm, n1);
    LoopedCarved(m, s, elm, n1);
    assert BlocksOf(s + [elm], m.pages) == BlocksOf(s, m.pages) + [b];
  }

  lemma {:induction false} AllocatedSome(policy: Policy, m: Memory, s: seq<nat>, n: nat, page: nat, i: nat, m': Memory)
    requires Allocated(policy, m, s, n, Some(page), i, m')
    ensures Formed(m) && Carvable(m, page) && n <= m.nrFree && n <= m.pages[page].property && m' == Carved(m, page, n)
  {
    hide Path, Carved;
  }

  /** On links that come back along the entries of list, a request returns an entry that is listed once
      exactly when the search finds the block there. */
  lemma {:induction false} Picked(policy: Policy, m: Memory, list: seq<nat>, s: seq<nat>, n: nat, page: Option<nat>, i: nat, m': Memory, at: nat)
    requires Walkable(m, list) && Forward(m.links, |m.pages|, list) && Allocated(policy, m, s, n, page, i, m')
    requires at < |list| && forall j :: 0 <= j < |list| && list[j] == list[at] ==> j == at
    ensures page == Some(list[at]) <==> n <= m.nrFree && Finds(policy, BlocksOf(list, m.pages), n, m.nrFree, at)
  {
    hide Carved, Path, Finds, Forward;
    if n <= m.nrFree {
      FindsAll(policy, m, list, s, n, m.nrFree, at);
      if page.Some? {
        FindsIn(policy, BlocksOf(s, m.pages), n, m.nrFree, i);
        if Finds(policy, BlocksOf(s, m.pages), n, m.nrFree, at) {
          FindsUnique(policy, BlocksOf(s, m.pages), n, m.nrFree, i, at);
          FindsIn(policy, BlocksOf(s, m.pages), n, m.nrFree, at);
        }
      }
    }
  }

  lemma {:induction false} FindsIn(policy: Policy, bs: seq<Block>, n: nat, nrFree: nat, i: nat)
    requires Finds(policy, bs, n, nrFree, i)
    ensures i < |bs| && n <= bs[i].len
  {
  }

  lemma {:induction false} LoopedLen(m: Memory, s: seq<nat>, elm: nat)
    requires Looped(m, s, elm) && elm < |m.pages|
    ensures m.pages[elm].property <= m.nrFree
  {
    LenWithinTotal(BlocksOf(s + [elm], m.pages), |s|);
  }

  // ---------- Releases: links that never lead back ----------

  /** Once list_next has come to entries that lead to one another only, it never comes back. */
  lemma {:induction false} NeverBack(l: seq<Link>, h: nat, s: seq<nat>, x: nat, y: nat, r: seq<nat>)
    requires Path(l, h, s + [x]) && x < |l| && y < |l| && x != h && y != h && l[x].next in {x, y} && l[y].next in {x, y}
    ensures !Forward(l, h, r)
  {
    if Forward(l, h, r) {
      PathWithin(l, h, s + [x], r);
      assert r[|s|] == (s + [x])[|s|];
      Captured(l, h, r, |s|, x, y, |r| - 1);
      assert false;
    }
  }

  lemma {:induction false} Captured(l: seq<Link>, h: nat, r: seq<nat>, k: nat, x: nat, y: nat, j: nat)
    requires Path(l, h, r) && k <= j < |r| && r[k] in {x, y} && x < |l| && y < |l| && l[x].next in {x, y} && l[y].next in {x, y}
    ensures r[j] in {x, y}
    decreases j - k
  {
    if k < j {
      Captured(l, h, r, k, x, y, j - 1);
      PathNext(l, h, r, j - 1);
    }
  }

  /** A release that belongs just below a block linked to itself leaves links that never lead back to the
      head: the two lead to one another, or, merged, the block released leads to itself. */
  lemma {:induction false} ReleasedEndless(m: Memory, s: seq<nat>, elm: nat, b: Block, loop: Loop, r: seq<nat>)
    requires Looped(m, s, elm) && b.len > 0 && End(b) <= |m.pages| && b.start < elm && forall j :: 0 <= j < |s| ==> s[j] < b.start
    ensures forall i :: 0 <= i < |s + [elm]| ==> (s + [elm])[i] < |m.links|
    ensures Lands(m.links, |m.pages|, s + [elm], b.start)
    ensures !Forward(Released(m, s + [elm], b, loop).links, |m.pages|, r)
    ensures b.start + b.len == elm ==> Released(m, s + [elm], b, loop).links[b.start] == Link(b.start, b.start)
  {
    hide Sound;
    var h, t, base := |m.pages|, s + [elm], b.start;
    assert t[|t| - 1] == elm;
    var m1 := Entered(m, t, b, loop);
    BeforeLoop(m.links, h, s, elm, base);
    assert m1.links == AddBefore(m.links, elm, base) && m1.pages[base].property == b.len;
    hide Given, AddBefore, Entered, Path, Wired;
    assert FusedBack(m1, base) == (m1, base);
    if base + b.len == elm {
      FuseLoop(m1.links, h, s, elm, base);
      NeverBack(Del(m1.links, elm), h, s, elm, base, r);
    } else {
      NeverBack(m1.links, h, s, elm, base, r);
    }
  }

  /** Insertion before a block linked to itself: the two are linked to one another. */
  lemma {:induction false} BeforeLoop(l: seq<Link>, h: nat, s: seq<nat>, elm: nat, base: nat)
    requires Wired(l) && Path(l, h, s + [elm]) && elm < |l| && l[elm].prev == elm && elm !in s && base < elm && base != h && base !in s
    ensures var l' := AddBefore(l, elm, base);
      && |l'| == |l| && Path(l', h, s + [elm]) && l'[elm] == Link(base, base) && l'[base] == Link(elm, elm)
  {
    var l', t := AddBefore(l, elm, base), s + [elm];
    assert t[|s|] == elm;
    forall i | 0 <= i < |t|
      ensures l'[At(h, t, i)].next == t[i]
    {
      assert l[At(h, t, i)].next == t[i];
      assert i > 0 ==> At(h, t, i) == s[i - 1] && s[i - 1] in s && t[i - 1] == s[i - 1];
    }
  }

  /** Then the merge with it leaves the lower one linked to itself, and the way there as it was. */
  lemma {:induction false} FuseLoop(l: seq<Link>, h: nat, s: seq<nat>, elm: nat, base: nat)
    requires Path(l, h, s + [elm]) && elm < |l| && base < |l| && l[elm] == Link(base, base) && l[base] == Link(elm, elm)
    requires base !in s && base != h && base != elm
    ensures var l' := Del(l, elm);
      |l'| == |l| && Path(l', h, s + [elm]) && l'[elm] == Link(base, base) && l'[base] == Link(base, base)
  {
    var l', t := Del(l, elm), s + [elm];
    forall i | 0 <= i < |t|
      ensures l'[At(h, t, i)].next == t[i]
    {
      assert l[At(h, t, i)].next == t[i];
      assert i > 0 ==> At(h, t, i) == s[i - 1] && s[i - 1] in s && t[i - 1] == s[i - 1];
    }
  }

  // ---------- A run that gets there ----------

  lemma {:induction false} RunThree(s0: State, a: Op, s1: State, b: Op, s2: State, c: Op, s3: State, policy: Policy, loop: Loop)
    requires Step(s0, a, s1, policy, loop) && Step(s1, b, s2, policy, loop) && Step(s2, c, s3, policy, loop)
    ensures Run(s0, [a, b, c], s3, policy, loop)
  {
    hide Step;
    assert [a, b, c][1..] == [b, c] && [b, c][1..] == [c] && [c][1..] == [];
    assert Run(s3, [], s3, policy, loop);
    assert Run(s2, [c], s3, policy, loop);
    assert Run(s1, [b, c], s3, policy, loop);
  }

  lemma {:induction false} PagesAre(b: Block)
    ensures forall x: nat :: x in Pages(b) <==> b.start <= x < b.start + b.len
  {
    forall x: nat
      ensures x in Pages(b) <==> b.start <= x < b.start + b.len
    {
      assert In(b, x) <==> b.start <= x < b.start + b.len;
    }
  }

  /** What is out after seven pages were asked for and pages 0 and 2 given back. */
  ghost const OUT: set<nat> := Pages(Block(0, 7)) - Pages(Block(2, 1)) - Pages(Block(0, 1))

  /** From one region of seven pages: a request for all of them, then pages 2 and 0 are given back.  No
      block has been appended so far; giving back pages 4 to 6 appends one. */
  lemma {:induction false} SevenPagesAppend(policy: Policy)
    ensures Run(State([Block(0, 7)], {}), [Ask(7), Give(Block(2, 1)), Give(Block(0, 1))],
                State([Block(0, 1), Block(2, 1)], OUT), policy, Continues)
    ensures Pages(Block(4, 3)) <= OUT && Appends([Block(0, 1), Block(2, 1)], 4)
    ensures Insert([Block(0, 1), Block(2, 1)], Block(4, 3)) == [Block(0, 1), Block(2, 1), Block(4, 3)]
    ensures Pages(Block(3, 1)) <= OUT - Pages(Block(4, 3))
  {
    var s0, s1 := State([Block(0, 7)], {}), State([], Pages(Block(0, 7)));
    var s2, s3 := State([Block(2, 1)], s1.out - Pages(Block(2, 1))), State([Block(0, 1), Block(2, 1)], OUT);
    AskSeven(policy);
    GiveTwo(policy);
    hide Step, Run, Pages, Place;
    RunThree(s0, Ask(7), s1, Give(Block(2, 1)), s2, Give(Block(0, 1)), s3, policy, Continues);
    Rest();
  }

  lemma {:induction false} AskSeven(policy: Policy)
    ensures Step(State([Block(0, 7)], {}), Ask(7), State([], Pages(Block(0, 7))), policy, Continues)
  {
    var bs := [Block(0, 7)];
    assert Chosen(policy, bs, 7, 0) && Take(bs, 0, 7) == [] && Fits(bs, 7);
    assert {} + Pages(Block(0, 7)) == Pages(Block(0, 7));
  }

  lemma {:induction false} GiveTwo(policy: Policy)
    ensures var s1 := State([], Pages(Block(0, 7))); var s2 := State([Block(2, 1)], s1.out - Pages(Block(2, 1)));
      && Step(s1, Give(Block(2, 1)), s2, policy, Continues)
      && Step(s2, Give(Block(0, 1)), State([Block(0, 1), Block(2, 1)], OUT), policy, Continues)
  {
    PagesAre(Block(0, 7));
    PagesAre(Block(2, 1));
    PagesAre(Block(0, 1));
    assert Free([], Block(2, 1)) == [Block(2, 1)];
    var bs := [Block(2, 1)];
    assert Place(bs, 0) == 0 && Fused(bs, Block(0, 1), 0) == (0, 0, Block(0, 1));
    assert Free(bs, Block(0, 1)) == bs[..0] + [Block(0, 1)] + bs[0..] == [Block(0, 1), Block(2, 1)];
  }

  lemma {:induction false} Rest()
    ensures Pages(Block(4, 3)) <= OUT && Pages(Block(3, 1)) <= OUT - Pages(Block(4, 3))
    ensures Insert([Block(0, 1), Block(2, 1)], Block(4, 3)) == [Block(0, 1), Block(2, 1), Block(4, 3)]
  {
    PagesAre(Block(0, 7));
    PagesAre(Block(2, 1));
    PagesAre(Block(0, 1));
    PagesAre(Block(4, 3));
    PagesAre(Block(3, 1));
    var bs := [Block(0, 1), Block(2, 1)];
    var i := Place(bs, 4);
    assert i == 2;
  }

  /** The memory that this leaves. */
  ghost predicate SevenPages(m: Memory) {
    && |m.pages| >= 7 && Looped(m, [0, 2], 4)
    && BlocksOf([0, 2, 4], m.pages) == [Block(0, 1), Block(2, 1), Block(4, 3)]
  }

  /** What happens next: two requests for two pages both return page 4, by either policy. */
  lemma {:induction false} SevenPagesTwice(policy: Policy, m: Memory, s1: seq<nat>, page1: Option<nat>, i1: nat, m1: Memory,
                                           s2: seq<nat>, page2: Option<nat>, i2: nat, m2: Memory)
    requires SevenPages(m) && Allocated(policy, m, s1, 2, page1, i1, m1) && Allocated(policy, m1, s2, 2, page2, i2, m2)
    ensures page1 == page2 == Some(4)
  {
    hide *;
    SevenPagesState(m);
    SevenPagesFound(policy);
    Picked(policy, m, [0, 2, 4], s1, 2, page1, i1, m1, 2);
    HandedOutTwice(policy, m, [0, 2], 4, 2, s1, i1, m1, 2, s2, page2, i2, m2);
  }

  lemma {:induction false} SevenPagesState(m: Memory)
    requires SevenPages(m)
    ensures |m.pages| >= 7 && Looped(m, [0, 2], 4) && BlocksOf([0, 2, 4], m.pages) == [Block(0, 1), Block(2, 1), Block(4, 3)]
    ensures m.nrFree == 5 && m.pages[4].property == 3 && Walkable(m, [0, 2, 4]) && Forward(m.links, |m.pages|, [0, 2, 4])
    ensures [0, 2] + [4] == [0, 2, 4] && BlocksOf([0, 2], m.pages) == [Block(0, 1), Block(2, 1)]
  {
    LoopedWalkable(m, [0, 2], 4);
    var bs := BlocksOf([0, 2, 4], m.pages);
    assert [0, 2] + [4] == [0, 2, 4] && m.nrFree == Total(bs);
    assert BlocksOf([0, 2], m.pages) == bs[..2] && m.pages[4].property == bs[2].len;
    SevenPagesTotal();
    hide Looped, Sound, Total, Walkable, Path;
  }

  lemma {:induction false} SevenPagesFound(policy: Policy)
    ensures var bs := [Block(0, 1), Block(2, 1), Block(4, 3)];
      Finds(policy, bs, 2, 5, 2) && Again(policy, [Block(0, 1), Block(2, 1)], 3, 2, 2, 5)
  {
  }

  lemma {:induction false} SevenPagesTotal()
    ensures Total([Block(0, 1), Block(2, 1), Block(4, 3)]) == 5
  {
    assert [Block(0, 1), Block(2, 1), Block(4, 3)][1..] == [Block(2, 1), Block(4, 3)];
    assert [Block(2, 1), Block(4, 3)][1..] == [Block(4, 3)];
  }

  /** Or page 3, which is out, is given back.  It passes the assertions, and ends linked to itself behind
      page 4: no best-fit request for anything that is free ever ends. */
  lemma {:induction false} SevenPagesHang(m: Memory, n: nat, s: seq<nat>, page: Option<nat>, i: nat, m2: Memory)
    requires SevenPages(m) && !m.pages[3].reserved
    ensures !Halting(m.pages, Block(3, 1)) && |m.links| > 4
    ensures var m1 := Released(m, [0, 2, 4], Block(3, 1), Continues);
      && m1.links[3] == Link(3, 3) && m1.nrFree == 6
      && (n <= 6 ==> !Allocated(BestFit, m1, s, n, page, i, m2))
  {
    hide Looped, SevenPages, Released, Path, Forward, Walkable, Halting, Allocated, BlocksOf, Lands;
    SevenPagesState(m);
    Unlisted(m);
    ReleasedEndless(m, [0, 2], 4, Block(3, 1), Continues, s);
    ReleasedCount(m, [0, 2, 4], Block(3, 1), Continues);
    var m1 := Released(m, [0, 2, 4], Block(3, 1), Continues);
    if n <= m1.nrFree { Unending(m1, n, s, page, i, m2); }
  }

  lemma {:induction false} Unlisted(m: Memory)
    requires SevenPages(m) && !m.pages[3].reserved
    ensures Formed(m) && |m.links| > 7 && !Halting(m.pages, Block(3, 1))
  {
    assert 3 !in [0, 2] + [4];
  }

  /** A best-fit search on links that do not come back along the entries of s does not end with them. */
  lemma {:induction false} Unending(m: Memory, n: nat, s: seq<nat>, page: Option<nat>, i: nat, m': Memory)
    requires n <= m.nrFree && !Forward(m.links, |m.pages|, s)
    ensures !Allocated(BestFit, m, s, n, page, i, m')
  {
    hide Carved;
  }

  lemma {:induction false} ReleasedCount(m: Memory, s: seq<nat>, b: Block, loop: Loop)
    requires Formed(m) && b.len > 0 && End(b) <= |m.pages| && forall i :: 0 <= i < |s| ==> s[i] < |m.links|
    ensures Released(m, s, b, loop).nrFree == m.nrFree + b.len && |Released(m, s, b, loop).pages| == |m.pages|
  {
    hide Inserted, Given, Grown, Del;
  }
}
