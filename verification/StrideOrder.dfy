/** The comparator the scheduler gives the skew heap (lab6/kern/schedule/default_sched_stride.c):
    strides are 32-bit counters that wrap, compared by the sign of their difference. */
module StrideOrder {
  import opened SkewTree

  const UINT32 := 0x1_0000_0000
  const INT32_MIN := 0x8000_0000
  const BIG_STRIDE := 0x4000_0000

  /** The conversion of an unsigned 32-bit difference to int32_t. */
  function Signed(x: int): int {
    var u := x % UINT32;
    if u < INT32_MIN then u else u - UINT32
  }

  function CompareStrides(p: int, q: int): int {
    var c := Signed(p - q);
    if c > 0 then 1 else if c == 0 then 0 else -1
  }

  /** How far x runs ahead of m, modulo wrap-around. */
  function Ahead(x: int, m: int): int {
    (x - m) % UINT32
  }

  ghost predicate Window(S: set<int>, m: int, width: int) {
    m in S && forall x :: x in S ==> Ahead(x, m) < width
  }

  ghost predicate HasWindow(S: set<int>, width: int) {
    exists m :: Window(S, m, width)
  }

  lemma {:induction false} DifferenceInWindow(x: int, y: int, m: int)
    requires Ahead(x, m) < INT32_MIN && Ahead(y, m) < INT32_MIN
    ensures Signed(x - y) == Ahead(x, m) - Ahead(y, m)
  {
    var a, b := Ahead(x, m), Ahead(y, m);
    var i, j := (x - m) / UINT32, (y - m) / UINT32;
    assert x - y == (i - j) * UINT32 + (a - b);
    if a < b {
      assert x - y == (i - j - 1) * UINT32 + (a - b + UINT32);
    }
  }

  lemma {:induction false} NotBelow(x: int, m: int)
    ensures CompareStrides(x, m) != -1 <==> Ahead(x, m) < INT32_MIN
  {
  }

  /** A finite set ordered by its comparator has a least entry. */
  lemma {:induction false} LeastExists<T>(comp: (T, T) -> int, S: set<T>) returns (m: T)
    requires S != {} && Compares(comp, S)
    ensures m in S && NoneBelow(m, S, comp)
  {
    m :| m in S;
    if S != {m} {
      var rest := S - {m};
      var k := LeastExists(comp, rest);
      if comp(k, m) == -1 { m := k; }
    }
  }

  /** The strides can be ordered exactly when they all lie within half the counter's range
      ahead of one of them. */
  lemma {:induction false} OrderIffWindow(S: set<int>)
    ensures Compares(CompareStrides, S) <==> S == {} || HasWindow(S, INT32_MIN)
  {
    if Compares(CompareStrides, S) && S != {} {
      var m := LeastExists(CompareStrides, S);
      forall x | x in S
        ensures Ahead(x, m) < INT32_MIN
      {
        NotBelow(x, m);
      }
      assert Window(S, m, INT32_MIN);
    }
    if m :| Window(S, m, INT32_MIN) {
      forall x, y | x in S && y in S
        ensures CompareStrides(x, y) == -1 <==> Ahead(x, m) < Ahead(y, m)
      {
        DifferenceInWindow(x, y, m);
      }
    }
  }

  /** Running a process of least stride keeps all strides within BIG_STRIDE of each other, so they
      stay ordered.  step is BIG_STRIDE / priority for a priority of at least 1; S' are the strides
      of the processes queued after it, whether or not others share the least stride. */
  lemma {:induction false} RunningKeepsOrder(S: set<int>, least: int, step: int, S': set<int>)
    requires Window(S, least, BIG_STRIDE + 1) && 0 <= step <= BIG_STRIDE
    requires S' != {} && S' <= S + {(least + step) % UINT32}
    ensures Compares(CompareStrides, S') && HasWindow(S', BIG_STRIDE + 1)
  {
    var moved := (least + step) % UINT32;
    assert Ahead(moved, least) == step by {
      assert moved - least == step - UINT32 * ((least + step) / UINT32);
    }
    forall x, y | x in S' && y in S'
      ensures CompareStrides(x, y) == -1 <==> Ahead(x, least) < Ahead(y, least)
      ensures Signed(x - y) <= BIG_STRIDE
    {
      DifferenceInWindow(x, y, least);
    }
    var m := LeastExists(CompareStrides, S');
    forall x | x in S'
      ensures Ahead(x, m) < BIG_STRIDE + 1
    {
      NotBelow(x, m);
    }
    assert Window(S', m, BIG_STRIDE + 1);
  }

  // ---------- A process joining the queue ----------

  /** Two strides at most half the range ahead of each other are the same, modulo wrap-around. */
  lemma {:induction false} BothAhead(x: int, y: int, z: int)
    requires Ahead(x, y) < INT32_MIN && Ahead(y, x) < INT32_MIN
    ensures Ahead(z, x) == Ahead(z, y)
  {
    DifferenceInWindow(x, y, y);
    var i, j := (x - y) / UINT32, (y - x) / UINT32;
    assert (i + j) * UINT32 + Ahead(x, y) + Ahead(y, x) == 0;
    assert Ahead(x, y) == 0;
    assert z - y == (z - x) + i * UINT32;
    var k := (z - x) / UINT32;
    assert z - y == (k + i) * UINT32 + Ahead(z, x);
  }

  /** Queued strides that can be ordered, with least stride m, can be ordered together with one more
      exactly when that is less than half the range ahead of m, or all of them are of it. */
  lemma {:induction false} EnqueueIff(S: set<int>, m: int, x: int)
    requires Window(S, m, INT32_MIN)
    ensures Compares(CompareStrides, S + {x}) <==>
      Ahead(x, m) < INT32_MIN || forall y :: y in S ==> Ahead(y, x) < INT32_MIN
  {
    var S' := S + {x};
    OrderIffWindow(S');
    if w :| Window(S', w, INT32_MIN) {
      if w in S {
        BothAhead(w, m, x);
      }
    }
    if Ahead(x, m) < INT32_MIN { assert Window(S', m, INT32_MIN); }
    if forall y :: y in S ==> Ahead(y, x) < INT32_MIN { assert Window(S', x, INT32_MIN); }
  }

  /** A new process enters with stride 0, whatever the queue has come to: between these two strides of
      a queue in good order, it makes a cycle. */
  lemma {:induction false} NewProcessCycle()
    ensures var a, b := 0x6000_0000, 0xa000_0000;
      && Window({a, b}, a, BIG_STRIDE + 1)
      && CompareStrides(a, b) == CompareStrides(b, 0) == CompareStrides(0, a) == -1
      && !Compares(CompareStrides, {a, b} + {0})
  {
    var a, b := 0x6000_0000, 0xa000_0000;
    assert Ahead(a, a) == 0 && Ahead(b, a) == BIG_STRIDE && Ahead(0, a) == 0xa000_0000 && Ahead(b, 0) == b;
    EnqueueIff({a, b}, a, 0);
  }
}
