/**
 What the allocator promises, said on trees: a reference for splitting and for releasing
 with coalescing, and the theorems about every run of them.
 */
module BuddySpec {
  import opened Powers
  import opened BuddyTree

  // ---- tiling --------------------------------------------------------------------

  /** Two blocks never overlap. */
  lemma {:induction false} BlocksDisjoint(t: Tree, k: nat, a: nat, b: nat)
    requires WF(t, k) && Lookup(t, k, a).Block? && Lookup(t, k, b).Block? && a < b
    ensures a + Pow2(Lookup(t, k, a).order) <= b
  {
    var h := Pow2(k - 1);
    if b < h {
      BlocksDisjoint(t.left, k - 1, a, b);
    } else if a >= h {
      BlocksDisjoint(t.right, k - 1, a - h, b - h);
    }
  }

  /** Every byte of the arena lies in a block, and the block is aligned to its own size. */
  lemma {:induction false} BlocksCover(t: Tree, k: nat, x: nat) returns (off: nat)
    requires WF(t, k) && x < Pow2(k)
    ensures Lookup(t, k, off).Block?
    ensures off <= x < off + Pow2(Lookup(t, k, off).order)
    ensures Aligned(off, Lookup(t, k, off).order)
  {
    if t.Leaf? {
      off := 0;
    } else if x < Pow2(k - 1) {
      off := BlocksCover(t.left, k - 1, x);
    } else {
      off := BlocksCover(t.right, k - 1, x - Pow2(k - 1));
      AlignedShift(off, Lookup(t.right, k - 1, off).order, k - 1);
      off := off + Pow2(k - 1);
    }
  }

  /** The status of the block that contains byte `x`. */
  ghost function StatusAt(t: Tree, k: nat, x: nat): Status
    requires WF(t, k) && x < Pow2(k)
  {
    match t
    case Leaf(st) => st
    case Node(l, r) => if x < Pow2(k - 1) then StatusAt(l, k - 1, x) else StatusAt(r, k - 1, x - Pow2(k - 1))
  }

  lemma {:induction false} StatusInBlock(t: Tree, k: nat, off: nat, x: nat)
    requires WF(t, k) && Lookup(t, k, off).Block?
    requires off <= x < off + Pow2(Lookup(t, k, off).order)
    ensures x < Pow2(k) && StatusAt(t, k, x) == Lookup(t, k, off).st
  {
    if t.Node? {
      var h := Pow2(k - 1);
      if off < h {
        StatusInBlock(t.left, k - 1, off, x);
      } else {
        StatusInBlock(t.right, k - 1, off - h, x - h);
      }
    }
  }

  lemma {:induction false} PutStatus(t: Tree, k: nat, off: nat, ord: nat, s: Tree, x: nat)
    requires WF(t, k) && At(t, k, off, ord) && WF(s, ord) && x < Pow2(k)
    ensures StatusAt(Put(t, k, off, ord, s), k, x)
         == if off <= x < off + Pow2(ord) then StatusAt(s, ord, x - off) else StatusAt(t, k, x)
  {
    if ord < k {
      var h := Pow2(k - 1);
      if off < h {
        AtRange(t.left, k - 1, off, ord);
        if x < h {
          PutStatus(t.left, k - 1, off, ord, s, x);
        }
      } else if x >= h {
        PutStatus(t.right, k - 1, off - h, ord, s, x - h);
      }
    }
  }

  // ---- live blocks ---------------------------------------------------------------

  /** The blocks handed out to callers: offset to order. */
  ghost function Live(t: Tree, k: nat): map<nat, nat>
    requires WF(t, k)
  {
    map o: nat | 0 <= o < Pow2(k) && IsUsed(t, k, o) :: Lookup(t, k, o).order
  }

  ghost predicate IsUsed(t: Tree, k: nat, o: nat)
    requires WF(t, k)
  {
    Lookup(t, k, o).Block? && Lookup(t, k, o).st.Used?
  }

  ghost predicate IsFree(t: Tree, k: nat, o: nat, ord: nat)
    requires WF(t, k)
  {
    Lookup(t, k, o) == Block(ord, Free)
  }

  ghost predicate Settled(t: Tree) {
    match t
    case Leaf(st) => !st.Held?
    case Node(l, r) => Settled(l) && Settled(r)
  }

  /** No two free buddies of the same order. */
  ghost predicate Coalesced(t: Tree) {
    match t
    case Leaf(_) => true
    case Node(l, r) => !(l == Leaf(Free) && r == Leaf(Free)) && Coalesced(l) && Coalesced(r)
  }

  // ---- splitting -----------------------------------------------------------------

  /** A block of order `j` cut down to a used block of order `ord` at its start. */
  ghost function Split(j: nat, ord: nat, st: Status): (s: Tree)
    requires MIN_ORDER <= ord <= j
    ensures WF(s, j)
    ensures s != Leaf(Free) || st.Free?
  {
    if j == ord then Leaf(st) else Node(Split(j - 1, ord, st), Leaf(Free))
  }

  lemma {:induction false} SplitLookup(j: nat, ord: nat, st: Status, x: nat)
    requires MIN_ORDER <= ord <= j
    ensures x == 0 ==> Lookup(Split(j, ord, st), j, x) == Block(ord, st)
    ensures x != 0 && Lookup(Split(j, ord, st), j, x).Block? ==> Lookup(Split(j, ord, st), j, x).st.Free?
  {
    if j > ord && x < Pow2(j - 1) {
      SplitLookup(j - 1, ord, st, x);
    }
  }

  lemma {:induction false} SplitGood(j: nat, ord: nat)
    requires MIN_ORDER <= ord <= j
    ensures Coalesced(Split(j, ord, Used)) && Settled(Split(j, ord, Used))
  {
    if j > ord {
      SplitGood(j - 1, ord);
    }
  }

  lemma {:induction false} PutGood(t: Tree, k: nat, off: nat, ord: nat, s: Tree)
    requires WF(t, k) && At(t, k, off, ord) && WF(s, ord)
    requires s != Leaf(Free)
    ensures Coalesced(t) && Coalesced(s) ==> Coalesced(Put(t, k, off, ord, s))
    ensures Settled(t) && Settled(s) ==> Settled(Put(t, k, off, ord, s))
  {
    if ord < k {
      if off < Pow2(k - 1) {
        PutGood(t.left, k - 1, off, ord, s);
      } else {
        PutGood(t.right, k - 1, off - Pow2(k - 1), ord, s);
      }
    }
  }

  /** One pass of the splitting loop: cutting the held block at the start in two. */
  lemma {:induction false} SplitStep(t: Tree, k: nat, n: nat, j: nat, ord: nat)
    requires WF(t, k) && At(t, k, n, j) && MIN_ORDER <= ord < j
    ensures var t' := Put(t, k, n, j, Split(j, ord + 1, Held));
            At(t', k, n, ord + 1) && Sub(t', k, n, ord + 1) == Leaf(Held)
            && Put(t', k, n, ord + 1, Node(Leaf(Held), Leaf(Free))) == Put(t, k, n, j, Split(j, ord, Held))
  {
    if j < k {
      if n < Pow2(k - 1) {
        SplitStep(t.left, k - 1, n, j, ord);
      } else {
        SplitStep(t.right, k - 1, n - Pow2(k - 1), j, ord);
      }
    } else {
      SpineStep(j, ord);
    }
  }

  lemma {:induction false} SpineStep(j: nat, ord: nat)
    requires MIN_ORDER <= ord < j
    ensures At(Split(j, ord + 1, Held), j, 0, ord + 1)
    ensures Sub(Split(j, ord + 1, Held), j, 0, ord + 1) == Leaf(Held)
    ensures WF(Node(Leaf(Held), Leaf(Free)), ord + 1)
    ensures Put(Split(j, ord + 1, Held), j, 0, ord + 1, Node(Leaf(Held), Leaf(Free))) == Split(j, ord, Held)
  {
    if ord + 1 < j {
      SpineStep(j - 1, ord);
    }
  }

  /** The splitting loop ends by handing out the block it holds. */
  lemma {:induction false} SplitEnd(t: Tree, k: nat, n: nat, j: nat, ord: nat)
    requires WF(t, k) && At(t, k, n, j) && MIN_ORDER <= ord <= j
    ensures var t' := Put(t, k, n, j, Split(j, ord, Held));
            At(t', k, n, ord) && Sub(t', k, n, ord) == Leaf(Held)
            && Put(t', k, n, ord, Leaf(Used)) == Put(t, k, n, j, Split(j, ord, Used))
    decreases k
  {
    if j < k {
      if n < Pow2(k - 1) {
        SplitEnd(t.left, k - 1, n, j, ord);
      } else {
        SplitEnd(t.right, k - 1, n - Pow2(k - 1), j, ord);
      }
    } else if ord < j {
      SplitEnd(Split(j - 1, ord, Held), j - 1, 0, j - 1, ord);
    }
  }

  // ---- releasing -----------------------------------------------------------------

  ghost function Collapse(l: Tree, r: Tree): Tree {
    if l == Leaf(Free) && r == Leaf(Free) then Leaf(Free) else Node(l, r)
  }

  /** Free the subtree at (off, ord) and join free buddies on the way back up. */
  ghost function Release(t: Tree, k: nat, off: nat, ord: nat): (t': Tree)
    requires WF(t, k) && At(t, k, off, ord)
    ensures WF(t', k)
  {
    if ord == k then Leaf(Free)
    else if off < Pow2(k - 1) then Collapse(Release(t.left, k - 1, off, ord), t.right)
    else Collapse(t.left, Release(t.right, k - 1, off - Pow2(k - 1), ord))
  }

  lemma {:induction false} ReleaseCoalesced(t: Tree, k: nat, off: nat, ord: nat)
    requires WF(t, k) && At(t, k, off, ord) && Coalesced(t)
    ensures Coalesced(Release(t, k, off, ord))
  {
    if ord < k {
      if off < Pow2(k - 1) {
        ReleaseCoalesced(t.left, k - 1, off, ord);
      } else {
        ReleaseCoalesced(t.right, k - 1, off - Pow2(k - 1), ord);
      }
    }
  }

  lemma {:induction false} ReleaseSettled(t: Tree, k: nat, off: nat, ord: nat)
    requires WF(t, k) && At(t, k, off, ord) && Settled(t)
    ensures Settled(Release(t, k, off, ord))
  {
    if ord < k {
      if off < Pow2(k - 1) {
        ReleaseSettled(t.left, k - 1, off, ord);
      } else {
        ReleaseSettled(t.right, k - 1, off - Pow2(k - 1), ord);
      }
    }
  }

  lemma NodeLookup(l: Tree, r: Tree, k: nat, x: nat)
    requires k > 0 && WF(Node(l, r), k)
    ensures Lookup(Node(l, r), k, x)
         == if x < Pow2(k - 1) then Lookup(l, k - 1, x) else Lookup(r, k - 1, x - Pow2(k - 1))
  {
  }

  /** Joining two free halves hides no used block. */
  lemma CollapseUsed(l: Tree, r: Tree, k: nat, x: nat)
    requires k > 0 && WF(Node(l, r), k)
    ensures WF(Collapse(l, r), k) && IsUsed(Collapse(l, r), k, x) == IsUsed(Node(l, r), k, x)
    ensures IsUsed(Node(l, r), k, x) ==> Lookup(Collapse(l, r), k, x) == Lookup(Node(l, r), k, x)
  {
    NodeLookup(l, r, k, x);
  }

  /** Releasing changes no used block outside the released range, and leaves none inside. */
  lemma {:induction false} ReleaseUsed(t: Tree, k: nat, off: nat, ord: nat, x: nat)
    requires WF(t, k) && At(t, k, off, ord)
    ensures IsUsed(Release(t, k, off, ord), k, x) <==> IsUsed(t, k, x) && !(off <= x < off + Pow2(ord))
    ensures IsUsed(Release(t, k, off, ord), k, x) ==> Lookup(Release(t, k, off, ord), k, x) == Lookup(t, k, x)
  {
    if ord == k {
      if x >= Pow2(k) {
        NoBlockOutside(t, k, x);
      }
    } else {
      var h := Pow2(k - 1);
      AtRange(t, k, off, ord);
      NodeLookup(t.left, t.right, k, x);
      if off < h {
        var l := Release(t.left, k - 1, off, ord);
        AtRange(t.left, k - 1, off, ord);
        CollapseUsed(l, t.right, k, x);
        NodeLookup(l, t.right, k, x);
        if x < h {
          ReleaseUsed(t.left, k - 1, off, ord, x);
        }
      } else {
        var r := Release(t.right, k - 1, off - h, ord);
        CollapseUsed(t.left, r, k, x);
        NodeLookup(t.left, r, k, x);
        if x >= h {
          ReleaseUsed(t.right, k - 1, off - h, ord, x - h);
        }
      }
    }
  }

  /** What sits in the released range does not matter. */
  lemma {:induction false} ReleaseIgnores(t: Tree, k: nat, off: nat, ord: nat, s: Tree)
    requires WF(t, k) && At(t, k, off, ord) && WF(s, ord)
    ensures At(Put(t, k, off, ord, s), k, off, ord)
    ensures Release(Put(t, k, off, ord, s), k, off, ord) == Release(t, k, off, ord)
  {
    if ord < k {
      if off < Pow2(k - 1) {
        ReleaseIgnores(t.left, k - 1, off, ord, s);
      } else {
        ReleaseIgnores(t.right, k - 1, off - Pow2(k - 1), ord, s);
      }
    }
  }

  /** One merge of the bottom-up loop: with a free sibling, releasing the parent is the same. */
  lemma {:induction false} MergeStep(t: Tree, k: nat, p: nat, ord: nat, off: nat)
    requires WF(t, k) && At(t, k, p, ord + 1) && At(t, k, p, ord) && At(t, k, p + Pow2(ord), ord)
    requires || (off == p && Sub(t, k, p + Pow2(ord), ord) == Leaf(Free))
             || (off == p + Pow2(ord) && Sub(t, k, p, ord) == Leaf(Free))
    ensures Release(t, k, off, ord) == Release(t, k, p, ord + 1)
  {
    if ord + 1 < k {
      var h := Pow2(k - 1);
      if p < h {
        AtRange(t.left, k - 1, p, ord + 1);
        MergeStep(t.left, k - 1, p, ord, off);
      } else {
        MergeStep(t.right, k - 1, p - h, ord, off - h);
      }
    }
  }

  /** Without a free sibling nothing is joined. */
  lemma {:induction false} NoMerge(t: Tree, k: nat, p: nat, ord: nat, off: nat)
    requires WF(t, k) && At(t, k, p, ord + 1) && At(t, k, p, ord) && At(t, k, p + Pow2(ord), ord)
    requires || (off == p && Sub(t, k, p + Pow2(ord), ord) != Leaf(Free))
             || (off == p + Pow2(ord) && Sub(t, k, p, ord) != Leaf(Free))
    ensures Release(t, k, off, ord) == Put(t, k, off, ord, Leaf(Free))
    ensures Release(t, k, off, ord).Node?
  {
    if ord + 1 < k {
      var h := Pow2(k - 1);
      if p < h {
        AtRange(t.left, k - 1, p, ord + 1);
        NoMerge(t.left, k - 1, p, ord, off);
      } else {
        NoMerge(t.right, k - 1, p - h, ord, off - h);
      }
    }
  }

  // ---- accounting ----------------------------------------------------------------

  ghost function Bytes(t: Tree, k: nat, st: Status): nat
    requires WF(t, k)
  {
    match t
    case Leaf(s) => if s == st then Pow2(k) else 0
    case Node(l, r) => Bytes(l, k - 1, st) + Bytes(r, k - 1, st)
  }

  lemma {:induction false} BytesTotal(t: Tree, k: nat)
    requires WF(t, k)
    ensures Bytes(t, k, Free) + Bytes(t, k, Used) + Bytes(t, k, Held) == Pow2(k)
    ensures Settled(t) ==> Bytes(t, k, Held) == 0
  {
    if t.Node? {
      BytesTotal(t.left, k - 1);
      BytesTotal(t.right, k - 1);
    }
  }

  lemma {:induction false} BytesPut(t: Tree, k: nat, off: nat, ord: nat, s: Tree, st: Status)
    requires WF(t, k) && At(t, k, off, ord) && WF(s, ord)
    ensures Bytes(Put(t, k, off, ord, s), k, st)
         == Bytes(t, k, st) - Bytes(Sub(t, k, off, ord), ord, st) + Bytes(s, ord, st)
  {
    if ord < k {
      if off < Pow2(k - 1) {
        BytesPut(t.left, k - 1, off, ord, s, st);
      } else {
        BytesPut(t.right, k - 1, off - Pow2(k - 1), ord, s, st);
      }
    }
  }

  lemma {:induction false} SplitBytes(j: nat, ord: nat)
    requires MIN_ORDER <= ord <= j
    ensures Bytes(Split(j, ord, Used), j, Used) == Pow2(ord)
  {
    if j > ord {
      SplitBytes(j - 1, ord);
    }
  }

  lemma {:induction false} ReleaseBytes(t: Tree, k: nat, off: nat, ord: nat)
    requires WF(t, k) && At(t, k, off, ord)
    ensures Bytes(Release(t, k, off, ord), k, Used) == Bytes(t, k, Used) - Bytes(Sub(t, k, off, ord), ord, Used)
  {
    if ord < k {
      if off < Pow2(k - 1) {
        ReleaseBytes(t.left, k - 1, off, ord);
      } else {
        ReleaseBytes(t.right, k - 1, off - Pow2(k - 1), ord);
      }
    }
  }

  // ---- counting free blocks ------------------------------------------------------------

  /** How many free blocks of order `ord` there are. */
  ghost function CountFree(t: Tree, k: nat, ord: nat): nat
    requires WF(t, k)
  {
    match t
    case Leaf(st) => if st.Free? && ord == k then 1 else 0
    case Node(l, r) => CountFree(l, k - 1, ord) + CountFree(r, k - 1, ord)
  }

  /** Bytes in free blocks of the orders below `hi`, added up order by order. */
  ghost function SumFree(t: Tree, k: nat, hi: nat): nat
    requires WF(t, k)
  {
    if hi == 0 then 0 else SumFree(t, k, hi - 1) + CountFree(t, k, hi - 1) * Pow2(hi - 1)
  }

  lemma {:induction false} SumFreeNode(t: Tree, k: nat, hi: nat)
    requires WF(t, k) && t.Node?
    ensures SumFree(t, k, hi) == SumFree(t.left, k - 1, hi) + SumFree(t.right, k - 1, hi)
  {
    if hi > 0 {
      SumFreeNode(t, k, hi - 1);
      Distribute(CountFree(t.left, k - 1, hi - 1), CountFree(t.right, k - 1, hi - 1), Pow2(hi - 1));
    }
  }

  lemma Distribute(a: nat, b: nat, p: nat)
    ensures (a + b) * p == a * p + b * p
  {
  }

  lemma {:induction false} SumFreeLeaf(st: Status, k: nat, hi: nat)
    requires k >= MIN_ORDER
    ensures SumFree(Leaf(st), k, hi) == if st.Free? && hi > k then Pow2(k) else 0
  {
    if hi > 0 {
      SumFreeLeaf(st, k, hi - 1);
    }
  }

  /** Adding up list lengths order by order gives the free bytes of the arena. */
  lemma {:induction false} SumFreeIsBytes(t: Tree, k: nat, hi: nat)
    requires WF(t, k) && hi > k
    ensures SumFree(t, k, hi) == Bytes(t, k, Free)
  {
    if t.Leaf? {
      SumFreeLeaf(t.st, k, hi);
    } else {
      SumFreeNode(t, k, hi);
      SumFreeIsBytes(t.left, k - 1, hi);
      SumFreeIsBytes(t.right, k - 1, hi);
    }
  }

  lemma {:induction false} SumFreeBelowMin(t: Tree, k: nat, hi: nat)
    requires WF(t, k) && hi <= MIN_ORDER
    ensures SumFree(t, k, hi) == 0
  {
    if t.Leaf? {
      SumFreeLeaf(t.st, k, hi);
    } else {
      SumFreeNode(t, k, hi);
      SumFreeBelowMin(t.left, k - 1, hi);
      SumFreeBelowMin(t.right, k - 1, hi);
    }
  }

  /** The offsets of the free blocks of one order. */
  ghost function FreeSet(t: Tree, k: nat, ord: nat): set<nat>
    requires WF(t, k)
  {
    set o: nat | 0 <= o < Pow2(k) && IsFree(t, k, o, ord)
  }

  lemma {:induction false} FreeSetSize(t: Tree, k: nat, ord: nat)
    requires WF(t, k)
    ensures |FreeSet(t, k, ord)| == CountFree(t, k, ord)
  {
    match t
    case Leaf(st) =>
      forall o: nat ensures o in FreeSet(t, k, ord) <==> o == 0 && st.Free? && ord == k {
        assert IsFree(t, k, o, ord) <==> o == 0 && st.Free? && ord == k;
      }
      assert FreeSet(t, k, ord) == if st.Free? && ord == k then {0} else {};
    case Node(l, r) =>
      FreeSetSize(l, k - 1, ord);
      FreeSetSize(r, k - 1, ord);
      var h, a, b := Pow2(k - 1), FreeSet(l, k - 1, ord), FreeSet(r, k - 1, ord);
      ShiftSize(b, h);
      FreeSetNode(t, k, ord);
      assert a !! Shift(b, h);
  }

  lemma FreeSetNode(t: Tree, k: nat, ord: nat)
    requires WF(t, k) && t.Node?
    ensures FreeSet(t, k, ord) == FreeSet(t.left, k - 1, ord) + Shift(FreeSet(t.right, k - 1, ord), Pow2(k - 1))
  {
    var h, a, b := Pow2(k - 1), FreeSet(t.left, k - 1, ord), FreeSet(t.right, k - 1, ord);
    forall o: nat ensures o in FreeSet(t, k, ord) <==> o in a + Shift(b, h) {
      if o >= h {
        InShift(b, h, o);
        assert IsFree(t, k, o, ord) == IsFree(t.right, k - 1, o - h, ord);
      } else {
        assert IsFree(t, k, o, ord) == IsFree(t.left, k - 1, o, ord);
      }
    }
  }

  ghost function Shift(s: set<nat>, h: nat): set<nat> {
    set o: nat | o in s :: o + h
  }

  lemma InShift(s: set<nat>, h: nat, o: nat)
    ensures o in Shift(s, h) <==> o >= h && o - h in s
  {
    if o >= h && o - h in s {
      assert o == (o - h) + h;
    }
  }

  lemma ShiftLess(s: set<nat>, h: nat, x: nat)
    requires x in s
    ensures Shift(s, h) == Shift(s - {x}, h) + {x + h} && x + h !in Shift(s - {x}, h)
  {
    forall o: nat ensures o in Shift(s, h) <==> o in Shift(s - {x}, h) + {x + h} {
      InShift(s, h, o);
      InShift(s - {x}, h, o);
    }
    InShift(s - {x}, h, x + h);
  }

  lemma {:induction false} ShiftSize(s: set<nat>, h: nat)
    ensures |Shift(s, h)| == |s|
  {
    if s != {} {
      var x :| x in s;
      ShiftSize(s - {x}, h);
      ShiftLess(s, h, x);
    }
  }

  lemma {:induction false} NoUsedIsRoot(t: Tree, k: nat)
    requires WF(t, k) && Coalesced(t) && Settled(t) && forall o: nat :: !IsUsed(t, k, o)
    ensures t == Leaf(Free)
  {
    assert !IsUsed(t, k, 0);
    if t.Node? {
      var h, k', l, r := Pow2(k - 1), k - 1, t.left, t.right;
      forall o: nat ensures !IsUsed(l, k', o) {
        if o < h {
          assert IsUsed(t, k, o) == IsUsed(l, k', o);
        } else {
          NoBlockOutside(l, k', o);
        }
      }
      forall o: nat ensures !IsUsed(r, k', o) {
        assert IsUsed(t, k, o + h) == IsUsed(r, k', o);
      }
      NoUsedIsRoot(l, k');
      NoUsedIsRoot(r, k');
    }
  }

  /** An arena with nothing live, in a coalesced state, is the single block made by init. */
  lemma NothingLiveIsRoot(t: Tree, k: nat)
    requires WF(t, k) && Coalesced(t) && Settled(t) && Live(t, k) == map[]
    ensures t == Leaf(Free)
  {
    forall o: nat ensures !IsUsed(t, k, o) {
      assert o !in Live(t, k);
    }
    NoUsedIsRoot(t, k);
  }

  // ---- runs ----------------------------------------------------------------------

  /** One successful operation on the arena: `Take` cuts a free block, `Give` releases a live one. */
  datatype Op = Take(from: nat, fromOrder: nat, order: nat) | Give(off: nat)

  ghost predicate Enabled(t: Tree, k: nat, op: Op)
    requires WF(t, k)
  {
    match op
    case Take(from, j, ord) => IsFree(t, k, from, j) && MIN_ORDER <= ord <= j
    case Give(off) => IsUsed(t, k, off)
  }

  ghost function Step(t: Tree, k: nat, op: Op): (t': Tree)
    requires WF(t, k) && Enabled(t, k, op)
    ensures WF(t', k)
  {
    match op
    case Take(from, j, ord) =>
      LookupIsLeaf(t, k, from, j, Free);
      Put(t, k, from, j, Split(j, ord, Used))
    case Give(off) =>
      LookupIsLeaf(t, k, off, Lookup(t, k, off).order, Used);
      Release(t, k, off, Lookup(t, k, off).order)
  }

  /** Any step keeps the arena coalesced, and changes the live blocks by exactly its own block. */
  lemma StepKeeps(t: Tree, k: nat, op: Op)
    requires WF(t, k) && Coalesced(t) && Settled(t) && Enabled(t, k, op)
    ensures Coalesced(Step(t, k, op)) && Settled(Step(t, k, op))
    ensures op.Take? ==> op.from !in Live(t, k) && Live(Step(t, k, op), k) == Live(t, k)[op.from := op.order]
    ensures op.Take? ==> Lookup(Step(t, k, op), k, op.from) == Block(op.order, Used)
    ensures op.Take? ==> Bytes(Step(t, k, op), k, Used) == Bytes(t, k, Used) + Pow2(op.order)
    ensures op.Give? ==> Live(Step(t, k, op), k) == Live(t, k) - {op.off}
    ensures op.Give? ==> Bytes(Step(t, k, op), k, Used) == Bytes(t, k, Used) - Pow2(Lookup(t, k, op.off).order)
  {
    match op
    case Take(from, j, ord) => TakeKeeps(t, k, from, j, ord);
    case Give(off) => GiveKeeps(t, k, off);
  }

  lemma TakeKeeps(t: Tree, k: nat, from: nat, j: nat, ord: nat)
    requires WF(t, k) && Coalesced(t) && Settled(t) && IsFree(t, k, from, j) && MIN_ORDER <= ord <= j
    ensures At(t, k, from, j)
    ensures var t' := Put(t, k, from, j, Split(j, ord, Used));
            && Coalesced(t') && Settled(t')
            && from !in Live(t, k) && Live(t', k) == Live(t, k)[from := ord]
            && Lookup(t', k, from) == Block(ord, Used)
            && Bytes(t', k, Used) == Bytes(t, k, Used) + Pow2(ord)
  {
    LookupIsLeaf(t, k, from, j, Free);
    TakeAt(t, k, from, j, ord, from);
    SplitGood(j, ord);
    var s := Split(j, ord, Used);
    PutGood(t, k, from, j, s);
    BytesPut(t, k, from, j, s, Used);
    SplitBytes(j, ord);
    TakeLive(t, k, from, j, ord);
  }

  /** The block at each offset after a block was cut at `from`. */
  lemma TakeAt(t: Tree, k: nat, from: nat, j: nat, ord: nat, o: nat)
    requires WF(t, k) && IsFree(t, k, from, j) && At(t, k, from, j) && MIN_ORDER <= ord <= j
    ensures var t' := Put(t, k, from, j, Split(j, ord, Used));
            && (o == from ==> Lookup(t', k, o) == Block(ord, Used))
            && (o != from ==> (IsUsed(t', k, o) <==> IsUsed(t, k, o)))
            && (o != from && IsUsed(t, k, o) ==> Lookup(t', k, o) == Lookup(t, k, o))
  {
    PutLookup(t, k, from, j, Split(j, ord, Used), o);
    if from <= o < from + Pow2(j) {
      SplitLookup(j, ord, Used, o - from);
      if from < o && Lookup(t, k, o).Block? {
        BlocksDisjoint(t, k, from, o);
      }
    }
  }

  lemma TakeLive(t: Tree, k: nat, from: nat, j: nat, ord: nat)
    requires WF(t, k) && IsFree(t, k, from, j) && At(t, k, from, j) && MIN_ORDER <= ord <= j
    ensures from !in Live(t, k)
    ensures Live(Put(t, k, from, j, Split(j, ord, Used)), k) == Live(t, k)[from := ord]
  {
    var t' := Put(t, k, from, j, Split(j, ord, Used));
    AtRange(t, k, from, j);
    forall o: nat
      ensures o in Live(t', k) <==> o in Live(t, k)[from := ord]
      ensures o in Live(t', k) ==> Live(t', k)[o] == Live(t, k)[from := ord][o]
    {
      TakeAt(t, k, from, j, ord, o);
    }
  }

  lemma GiveKeeps(t: Tree, k: nat, off: nat)
    requires WF(t, k) && Coalesced(t) && Settled(t) && IsUsed(t, k, off)
    ensures At(t, k, off, Lookup(t, k, off).order)
    ensures var t' := Release(t, k, off, Lookup(t, k, off).order);
            && Coalesced(t') && Settled(t')
            && Live(t', k) == Live(t, k) - {off}
            && Bytes(t', k, Used) == Bytes(t, k, Used) - Pow2(Lookup(t, k, off).order)
  {
    var ord := Lookup(t, k, off).order;
    LookupIsLeaf(t, k, off, ord, Used);
    ReleaseCoalesced(t, k, off, ord);
    ReleaseSettled(t, k, off, ord);
    ReleaseBytes(t, k, off, ord);
    GiveLive(t, k, off, ord);
  }

  lemma GiveAt(t: Tree, k: nat, off: nat, ord: nat, o: nat)
    requires WF(t, k) && At(t, k, off, ord) && Lookup(t, k, off) == Block(ord, Used)
    ensures var t' := Release(t, k, off, ord);
            && (IsUsed(t', k, o) <==> IsUsed(t, k, o) && o != off)
            && (IsUsed(t', k, o) ==> Lookup(t', k, o) == Lookup(t, k, o))
  {
    ReleaseUsed(t, k, off, ord, o);
    if off < o < off + Pow2(ord) && Lookup(t, k, o).Block? {
      BlocksDisjoint(t, k, off, o);
    }
  }

  lemma GiveLive(t: Tree, k: nat, off: nat, ord: nat)
    requires WF(t, k) && At(t, k, off, ord) && Lookup(t, k, off) == Block(ord, Used)
    ensures Live(Release(t, k, off, ord), k) == Live(t, k) - {off}
  {
    var t' := Release(t, k, off, ord);
    forall o: nat
      ensures o in Live(t', k) <==> o in Live(t, k) - {off}
      ensures o in Live(t', k) ==> Live(t', k)[o] == Live(t, k)[o]
    {
      GiveAt(t, k, off, ord, o);
    }
  }

  ghost predicate RunOk(t: Tree, k: nat, ops: seq<Op>)
    requires WF(t, k)
    decreases |ops|
  {
    ops == [] || (Enabled(t, k, ops[0]) && RunOk(Step(t, k, ops[0]), k, ops[1..]))
  }

  ghost function Run(t: Tree, k: nat, ops: seq<Op>): (t': Tree)
    requires WF(t, k) && RunOk(t, k, ops)
    ensures WF(t', k)
    decreases |ops|
  {
    if ops == [] then t else Run(Step(t, k, ops[0]), k, ops[1..])
  }

  /** Every run from the arena made by init keeps it settled and maximally coalesced. */
  lemma {:induction false} RunKeeps(t: Tree, k: nat, ops: seq<Op>)
    requires WF(t, k) && Coalesced(t) && Settled(t) && RunOk(t, k, ops)
    ensures Coalesced(Run(t, k, ops)) && Settled(Run(t, k, ops))
    decreases |ops|
  {
    if ops != [] {
      StepKeeps(t, k, ops[0]);
      RunKeeps(Step(t, k, ops[0]), k, ops[1..]);
    }
  }

  /** Giving back every live block, in whatever order, is always possible and restores the root block. */
  lemma {:induction false} GiveAllRestoresRoot(t: Tree, k: nat, offs: seq<nat>)
    requires WF(t, k) && Coalesced(t) && Settled(t)
    requires forall i, j :: 0 <= i < j < |offs| ==> offs[i] != offs[j]
    requires forall o :: o in offs <==> o in Live(t, k)
    ensures var ops := seq(|offs|, i requires 0 <= i < |offs| => Give(offs[i]));
            RunOk(t, k, ops) && Run(t, k, ops) == Leaf(Free)
    decreases |offs|
  {
    var ops := seq(|offs|, i requires 0 <= i < |offs| => Give(offs[i]));
    if offs == [] {
      assert forall o :: o in Live(t, k) ==> o in offs;
      assert Live(t, k) == map[];
      NothingLiveIsRoot(t, k);
    } else {
      var rest := offs[1..];
      assert offs[0] in offs;
      StepKeeps(t, k, ops[0]);
      var t' := Step(t, k, ops[0]);
      assert forall o :: o in rest <==> o in Live(t', k);
      GiveAllRestoresRoot(t', k, rest);
      assert ops[1..] == seq(|rest|, i requires 0 <= i < |rest| => Give(rest[i]));
    }
  }
}
