/** What the flags as written lead to: where the stale flags come from, and exactly when free
    buddies are left uncoalesced. */
module BuddyAsWritten {
  import opened Powers
  import opened Bits
  import opened BuddyModel
  import opened BuddyTiling
  import opened BuddySafety
  import opened BuddySteps
  import opened BuddyCoalesce

  // ---------- Stale flags ----------

  /** Merging as written sets no flag. */
  lemma {:induction false} MergeSetsNone(z: Zone, k: nat, base: nat, i: nat, o: Outcome<Zone>)
    requires k < MAX_ORDER == |z.areas| && base < |z.pages| && i < |z.pages| && !z.pages[i].head
    requires o == Merge(z, k, base, AsWritten)
    ensures o.Done? ==> i < |o.value.pages| && !o.value.pages[i].head
    decreases MAX_ORDER - k
  {
    if k < TOP {
      var q := BuddyIndex(base, k);
      if 0 <= q < |z.pages| && z.pages[q].property == Pow2(k) && z.pages[q].head && q in z.areas[k].list {
        MergeSetsNone(Join(z, k, base, q, AsWritten), k + 1, if q < base then q else base, i, o);
      }
    }
  }

  /** Merging clears no flag strictly inside a block, and links no such page. */
  lemma {:induction false} MergeKeepsInner(z: Zone, t: Tiling, k: nat, base: nat, i: nat, o: Outcome<Zone>)
    requires Handing(z, t, base, k) && i < |z.pages| && i !in t.blocks && z.pages[i].head
    requires k < MAX_ORDER && o == Merge(z, k, base, AsWritten)
    ensures o.Done? ==> i < |o.value.pages| && o.value.pages[i].head && !Listed(o.value.areas, i)
    decreases MAX_ORDER - k
  {
    hide Tiles, Lists, Descriptors;
    MergeCases(z, t, k, base, AsWritten, o);
    if Passes(z.pages, k, base) {
      var q := Flip(base, k);
      var low, high := (if q < base then q else base), if q < base then base else q;
      JoinHand(z, t, k, base, q, low, high, AsWritten);
      JoinKeepsInner(z, t, k, base, q, low, high, i);
      MergeKeepsInner(Join(z, k, base, q, AsWritten), Joined(t, low, high), k + 1, low, i, o);
    } else {
      AddListed(z, t, k, base, i);
    }
  }

  lemma {:induction false} JoinKeepsInner(z: Zone, t: Tiling, k: nat, base: nat, q: nat, low: nat, high: nat, i: nat)
    requires k < |z.areas| && base < |z.pages| && q < |z.pages| && base in t.blocks && q in t.blocks
    requires low == (if q < base then q else base) && high == if q < base then base else q
    requires i < |z.pages| && i !in t.blocks && z.pages[i].head
    ensures var z' := Join(z, k, base, q, AsWritten);
      i < |z'.pages| && z'.pages[i].head && i !in Joined(t, low, high).blocks
  {
  }

  lemma {:induction false} AddListed(z: Zone, t: Tiling, k: nat, base: nat, i: nat)
    requires Handing(z, t, base, k) && k < MAX_ORDER
    ensures i !in t.blocks ==> !Listed(AddPage(z, k, base, AsWritten).areas, i)
  {
    ListedPush(z.areas, k, base);
    assert forall j :: 0 <= j < MAX_ORDER && i in z.areas[j].list ==> FreeBlock(t, i, j);
  }

  /** Exactly when a free leaves a stale flag: the freed block merges, and is the upper half. */
  lemma {:induction false} StaleIff(z: Zone, t: Tiling, base: nat, k: nat)
    requires Inv(z, t) && Block(t, base, k) && base in t.live && Free(z, base, Pow2(k), AsWritten).Done?
    ensures base + Pow2(k) <= |z.pages|
    ensures var z' := Free(z, base, Pow2(k), AsWritten).value;
      && base < |z'.pages|
      && (z'.pages[base].head && !Listed(z'.areas, base) <==> Passes(z.pages, k, base) && Flip(base, k) < base)
  {
    var t' := FreeInv(z, t, base, k, AsWritten);
    ReleaseDescriptors(z.pages, t, base, k);
    var z1 := z.(pages := Release(z.pages, base, Pow2(k)));
    FlipOutside(base, k);
    assert Passes(z1.pages, k, base) <==> Passes(z.pages, k, base);
    BaseIff(z1, t, k, base, Merge(z1, k, base, AsWritten));
  }

  /** The buddy's pages are not the block's own. */
  lemma {:induction false} FlipOutside(base: nat, k: nat)
    ensures Flip(base, k) < base || base + Pow2(k) <= Flip(base, k)
  {
  }

  lemma {:induction false} BaseIff(z: Zone, t: Tiling, k: nat, base: nat, o: Outcome<Zone>)
    requires Handing(z, t, base, k) && z.pages[base].head && k < MAX_ORDER && o == Merge(z, k, base, AsWritten)
    ensures o.Done? ==>
      && base < |o.value.pages|
      && (o.value.pages[base].head && !Listed(o.value.areas, base) <==> Passes(z.pages, k, base) && Flip(base, k) < base)
  {
    hide Tiles, Lists, Descriptors;
    MergeCases(z, t, k, base, AsWritten, o);
    if Passes(z.pages, k, base) {
      if Flip(base, k) < base { UpperStaysFlagged(z, t, k, base, o); } else { LowerIsCleared(z, t, k, base, o); }
    } else {
      ListedPush(z.areas, k, base);
    }
  }

  lemma {:induction false} UpperStaysFlagged(z: Zone, t: Tiling, k: nat, base: nat, o: Outcome<Zone>)
    requires Handing(z, t, base, k) && z.pages[base].head && Passes(z.pages, k, base) && Flip(base, k) < base
    requires o == Merge(Join(z, k, base, Flip(base, k), AsWritten), k + 1, Flip(base, k), AsWritten)
    ensures o.Done? ==> base < |o.value.pages| && o.value.pages[base].head && !Listed(o.value.areas, base)
  {
    hide Tiles, Lists, Descriptors, Listed;
    var q: nat := Flip(base, k);
    JoinHand(z, t, k, base, q, q, base, AsWritten);
    MergeKeepsInner(Join(z, k, base, q, AsWritten), Joined(t, q, base), k + 1, q, base, o);
  }

  lemma {:induction false} LowerIsCleared(z: Zone, t: Tiling, k: nat, base: nat, o: Outcome<Zone>)
    requires Handing(z, t, base, k) && Passes(z.pages, k, base) && Flip(base, k) >= base
    requires o == Merge(Join(z, k, base, Flip(base, k), AsWritten), k + 1, base, AsWritten)
    ensures o.Done? ==> base < |o.value.pages| && !o.value.pages[base].head
  {
    hide Tiles, Lists, Descriptors;
    MergeSetsNone(Join(z, k, base, Flip(base, k), AsWritten), k + 1, base, base, o);
  }

  // ---------- Coalescing ----------

  /** Exactly when merging leaves two free buddies: when the first buddy on the way up that fails the
      test of line 163 is listed all the same. */
  lemma {:induction false} BuddiesIff(z: Zone, t: Tiling, k: nat, base: nat, flags: Flags, o: Outcome<Zone>)
    requires Handing(z, t, base, k) && NoBuddies(z.areas) && k < MAX_ORDER && o == Merge(z, k, base, flags)
    ensures o.Done? ==> var (w, j) := StopAt(z.pages, k, base);
      NoBuddies(o.value.areas) <==> j == TOP || Flip(w, j) !in z.areas[j].list
    decreases MAX_ORDER - k
  {
    hide Tiles, Lists, Descriptors, NoBuddies, JoinPages, Unlist, Push;
    MergeCases(z, t, k, base, flags, o);
    if Passes(z.pages, k, base) {
      var q := Flip(base, k);
      var low, high := (if q < base then q else base), if q < base then base else q;
      JoinHand(z, t, k, base, q, low, high, flags);
      UnlistBuddies(z.areas, t, k, q);
      var z1 := Join(z, k, base, q, flags);
      BuddiesIff(z1, Joined(t, low, high), k + 1, low, flags, o);
      JoinStops(z, k, base, q, flags);
      assert z1.areas == Unlist(z.areas, k, q);
    } else {
      PushBuddies(z.areas, k, base);
    }
  }

  /** The same for a whole call of free_pages that goes through, on a state without free buddies: the
      condition is one on lists and descriptors before the call.  That buddy is then a listed head whose
      flag is missing. */
  lemma {:induction false} FreeBuddiesIff(z: Zone, t: Tiling, base: nat, k: nat, flags: Flags)
    requires Inv(z, t) && NoBuddies(z.areas) && Block(t, base, k) && base in t.live
    requires Free(z, base, Pow2(k), flags).Done?
    ensures k < MAX_ORDER
    ensures var (w, j) := StopAt(z.pages, k, base);
      && (NoBuddies(Free(z, base, Pow2(k), flags).value.areas) <==> j == TOP || Flip(w, j) !in z.areas[j].list)
      && (j < TOP && Flip(w, j) in z.areas[j].list ==> 0 <= Flip(w, j) < |z.pages| && !z.pages[Flip(w, j)].head)
  {
    FreeCases(z, base, k, flags);
    ReleaseDescriptors(z.pages, t, base, k);
    var z1 := z.(pages := Release(z.pages, base, Pow2(k)));
    StopAgrees(z.pages, z1.pages, k, base);
    BuddiesIff(z1, t, k, base, flags, Merge(z1, k, base, flags));
    var (w, j) := StopAt(z.pages, k, base);
    if j < TOP && Flip(w, j) in z.areas[j].list { ListedUnflagged(z, t, w, j); }
  }

  /** A listed buddy that fails the test has no flag. */
  lemma {:induction false} ListedUnflagged(z: Zone, t: Tiling, w: nat, j: nat)
    requires Inv(z, t) && j < TOP && Flip(w, j) in z.areas[j].list && !Passes(z.pages, j, w)
    ensures 0 <= Flip(w, j) < |z.pages| && !z.pages[Flip(w, j)].head
  {
    FlipFlip(w, j);
    assert FreeBlock(t, Flip(w, j), j);
  }

  lemma {:induction false} UnlistBuddies(areas: seq<FreeArea>, t: Tiling, k: nat, q: nat)
    requires Lists(areas, t) && NoBuddies(areas) && k < MAX_ORDER && q in areas[k].list
    ensures NoBuddies(Unlist(areas, k, q)) && forall j :: k < j < MAX_ORDER ==> Unlist(areas, k, q)[j] == areas[j]
  {
    ListedUnlist(areas, t, k, q);
  }

  lemma {:induction false} PushBuddies(areas: seq<FreeArea>, k: nat, base: nat)
    requires k < MAX_ORDER == |areas| && NoBuddies(areas)
    ensures NoBuddies(Push(areas, k, base)) <==> k == TOP || Flip(base, k) !in areas[k].list
  {
    var areas' := Push(areas, k, base);
    ListedPush(areas, k, base);
    FlipFlip(base, k);
    if k < TOP && Flip(base, k) in areas[k].list {
      assert base in areas'[k].list && Flip(base, k) in areas'[k].list;
    } else {
      forall j, p | 0 <= j < MAX_ORDER && j < TOP && p in areas'[j].list
        ensures Flip(p, j) !in areas'[j].list
      {
        FlipFlip(p, j);
      }
    }
  }
}
