/** lab2/libs/list.h: doubly linked circular lists threaded through entries named by index, as the
    page_link fields of the descriptors and a list head are.  A ring refines a sequence. */
module Ring {

  datatype Link = Link(prev: nat, next: nat)

  /** __list_add: the assignments in the order C makes them, which matters when entries coincide. */
  function AddBetween(l: seq<Link>, elm: nat, prev: nat, next: nat): seq<Link>
    requires elm < |l| && prev < |l| && next < |l|
  {
    var l1 := l[next := l[next].(prev := elm)];
    var l2 := l1[prev := l1[prev].(next := elm)];
    var l3 := l2[elm := l2[elm].(next := next)];
    l3[elm := l3[elm].(prev := prev)]
  }

  /** __list_del */
  function DelBetween(l: seq<Link>, prev: nat, next: nat): seq<Link>
    requires prev < |l| && next < |l|
  {
    var l1 := l[prev := l[prev].(next := next)];
    l1[next := l1[next].(prev := prev)]
  }

  function AddAfter(l: seq<Link>, at: nat, elm: nat): seq<Link>
    requires at < |l| && elm < |l| && l[at].next < |l|
  {
    AddBetween(l, elm, at, l[at].next)
  }

  function AddBefore(l: seq<Link>, at: nat, elm: nat): seq<Link>
    requires at < |l| && elm < |l| && l[at].prev < |l|
  {
    AddBetween(l, elm, l[at].prev, at)
  }

  function Del(l: seq<Link>, elm: nat): seq<Link>
    requires elm < |l| && l[elm].prev < |l| && l[elm].next < |l|
  {
    DelBetween(l, l[elm].prev, l[elm].next)
  }

  /** The entries around the ring: the head, those of s, and the head again. */
  function At(h: nat, s: seq<nat>, i: nat): nat
    requires i <= |s| + 1
  {
    if i == 0 || i == |s| + 1 then h else s[i - 1]
  }

  ghost predicate Distinct(h: nat, s: seq<nat>) {
    h !in s && forall i, j :: 0 <= i < j < |s| ==> s[i] != s[j]
  }

  /** The entries of s, in that order, hang from the head h, linked both ways. */
  ghost predicate IsRing(l: seq<Link>, h: nat, s: seq<nat>) {
    && h < |l| && (forall i :: 0 <= i < |s| ==> s[i] < |l|) && Distinct(h, s)
    && forall i :: 0 <= i <= |s| ==> l[At(h, s, i)].next == At(h, s, i + 1) && l[At(h, s, i + 1)].prev == At(h, s, i)
  }

  lemma {:induction false} EmptyRing(l: seq<Link>, h: nat)
    requires h < |l|
    ensures IsRing(l[h := Link(h, h)], h, [])
  {
  }

  function NextOf(h: nat, s: seq<nat>, i: nat): nat
    requires i < |s|
  {
    if i + 1 < |s| then s[i + 1] else h
  }

  function PrevOf(h: nat, s: seq<nat>, i: nat): nat
    requires i < |s|
  {
    if i > 0 then s[i - 1] else h
  }

  /** list_empty, list_next and list_prev, read off the sequence. */
  lemma {:induction false} RingReads(l: seq<Link>, h: nat, s: seq<nat>)
    requires IsRing(l, h, s)
    ensures h < |l| && (forall i :: 0 <= i < |s| ==> s[i] < |l| && s[i] != h)
    ensures l[h].next == h <==> s == []
    ensures l[h].next == (if s == [] then h else s[0]) && l[h].prev == if s == [] then h else s[|s| - 1]
  {
    assert l[At(h, s, 0)].next == At(h, s, 1);
    assert l[At(h, s, |s| + 1)].prev == At(h, s, |s|);
  }

  lemma {:induction false} RingReadsAt(l: seq<Link>, h: nat, s: seq<nat>, i: nat)
    requires IsRing(l, h, s) && i < |s|
    ensures s[i] < |l| && s[i] != h && l[s[i]].next == NextOf(h, s, i) && l[s[i]].prev == PrevOf(h, s, i)
  {
    assert At(h, s, i + 1) == s[i];
    assert l[At(h, s, i + 1)].next == At(h, s, i + 2);
    assert l[At(h, s, i + 1)].prev == At(h, s, i);
  }

  /** The ring's last entry points back to the head. */
  lemma {:induction false} RingLast(l: seq<Link>, h: nat, s: seq<nat>)
    requires IsRing(l, h, s) && s != []
    ensures s[|s| - 1] < |l| && l[s[|s| - 1]].next == h && l[h].prev == s[|s| - 1] && l[h].next == s[0]
  {
    RingReads(l, h, s);
    assert At(h, s, |s|) == s[|s| - 1];
    assert l[At(h, s, |s|)].next == At(h, s, |s| + 1);
  }

  /** No entry of a ring is its own neighbour, and the head's is not unless the ring is empty. */
  lemma {:induction false} RingNoSelf(l: seq<Link>, h: nat, s: seq<nat>)
    requires IsRing(l, h, s)
    ensures l[h].prev < |l| && (l[h].prev != h ==> l[l[h].prev].prev != l[h].prev)
  {
    RingReads(l, h, s);
    if s != [] {
      assert At(h, s, |s|) == s[|s| - 1];
      assert l[At(h, s, |s|)].prev == At(h, s, |s| - 1);
      DistinctAt(h, s, |s| - 1, |s|);
    }
  }

  /** list_add_after and list_add_before: one entry more, at its place. */
  lemma {:induction false} InsertRing(l: seq<Link>, h: nat, s: seq<nat>, i: nat, elm: nat)
    requires IsRing(l, h, s) && i <= |s| && elm < |l| && elm != h && elm !in s
    ensures var l' := AddBetween(l, elm, At(h, s, i), At(h, s, i + 1));
      |l'| == |l| && IsRing(l', h, s[..i] + [elm] + s[i..])
  {
    var s' := s[..i] + [elm] + s[i..];
    var p, n := At(h, s, i), At(h, s, i + 1);
    var l' := AddBetween(l, elm, p, n);
    assert forall j :: 0 <= j <= |s| + 1 ==> At(h, s, j) != elm;
    forall j | 0 <= j <= |s'|
      ensures l'[At(h, s', j)].next == At(h, s', j + 1) && l'[At(h, s', j + 1)].prev == At(h, s', j)
    {
      if j < i {
        assert At(h, s', j) == At(h, s, j) && At(h, s', j + 1) == At(h, s, j + 1);
        DistinctAt(h, s, j, i);
        DistinctAt(h, s, j + 1, i + 1);
      } else if j > i + 1 {
        assert At(h, s', j) == At(h, s, j - 1) && At(h, s', j + 1) == At(h, s, j);
        DistinctAt(h, s, j - 1, i);
        DistinctAt(h, s, j, i + 1);
      } else if j == i {
        assert At(h, s', j) == p && At(h, s', j + 1) == elm;
      } else {
        assert At(h, s', j) == elm && At(h, s', j + 1) == n;
      }
    }
  }

  lemma {:induction false} AddBeforeRing(l: seq<Link>, h: nat, s: seq<nat>, i: nat, elm: nat)
    requires IsRing(l, h, s) && i < |s| && elm < |l| && elm != h && elm !in s
    ensures l[s[i]].prev < |l| && IsRing(AddBefore(l, s[i], elm), h, s[..i] + [elm] + s[i..])
  {
    assert At(h, s, i + 1) == s[i] && l[At(h, s, i + 1)].prev == At(h, s, i);
    InsertRing(l, h, s, i, elm);
  }

  /** list_add at place i, where place 0 is the head. */
  lemma {:induction false} AddAfterRing(l: seq<Link>, h: nat, s: seq<nat>, i: nat, elm: nat)
    requires IsRing(l, h, s) && i <= |s| && elm < |l| && elm != h && elm !in s
    ensures l[At(h, s, i)].next < |l| && IsRing(AddAfter(l, At(h, s, i), elm), h, s[..i] + [elm] + s[i..])
  {
    assert l[At(h, s, i)].next == At(h, s, i + 1);
    InsertRing(l, h, s, i, elm);
  }

  /** Places around the ring hold different entries, but for the two of the head. */
  lemma {:induction false} DistinctAt(h: nat, s: seq<nat>, i: nat, j: nat)
    requires Distinct(h, s) && i <= |s| + 1 && j <= |s| + 1 && i != j
    ensures At(h, s, i) == At(h, s, j) <==> (i == 0 && j == |s| + 1) || (j == 0 && i == |s| + 1)
  {
  }

  lemma {:induction false} DelReads(l: seq<Link>, h: nat, s: seq<nat>, i: nat)
    requires IsRing(l, h, s) && i < |s|
    ensures s[i] < |l| && At(h, s, i) < |l| && At(h, s, i + 2) < |l|
    ensures l[s[i]].prev == At(h, s, i) && l[s[i]].next == At(h, s, i + 2)
  {
    assert At(h, s, i + 1) == s[i];
    assert l[At(h, s, i + 1)].prev == At(h, s, i) && l[At(h, s, i + 1)].next == At(h, s, i + 2);
  }

  /** list_del of an entry: that entry less. */
  lemma {:induction false} DelRing(l: seq<Link>, h: nat, s: seq<nat>, i: nat)
    requires IsRing(l, h, s) && i < |s|
    ensures s[i] < |l| && l[s[i]].prev == At(h, s, i) < |l| && l[s[i]].next < |l|
    ensures |Del(l, s[i])| == |l| && IsRing(Del(l, s[i]), h, s[..i] + s[i + 1..])
  {
    var s' := s[..i] + s[i + 1..];
    DelReads(l, h, s, i);
    var l' := Del(l, s[i]);
    forall j | 0 <= j <= |s'|
      ensures l'[At(h, s', j)].next == At(h, s', j + 1) && l'[At(h, s', j + 1)].prev == At(h, s', j)
    {
      if j < i {
        assert At(h, s', j) == At(h, s, j) && At(h, s', j + 1) == At(h, s, j + 1);
        DistinctAt(h, s, j, i);
        DistinctAt(h, s, j + 1, i + 2);
      } else if j > i {
        assert At(h, s', j) == At(h, s, j + 1) && At(h, s', j + 1) == At(h, s, j + 2);
        DistinctAt(h, s, j + 1, i);
        DistinctAt(h, s, j + 2, i + 2);
      }
    }
  }
}
