/** Where the allocator writes: only in the granule a block starts with. */
module PalTouch {
  import opened Powers
  import opened BuddyTree
  import opened BuddySpec
  import opened PalAlloc

  /** Nothing but the granule at `n` has changed. */
  ghost predicate OnlyAt(c: Memory, c': Memory, n: nat) {
    forall o: nat :: o in c && o != n ==> o in c' && c'[o] == c[o]
  }

  /** The block at `n` is linked to nothing. */
  ghost predicate Loose(c: Memory, n: nat) {
    n in c && c[n].next == NULL
  }

  /** Nothing has changed but where a block of `t` starts. */
  ghost predicate StartsOnly(K: nat, t: Tree, c: Memory, c': Memory)
    requires WF(t, K)
  {
    forall o: nat :: o in c && Lookup(t, K, o).Nothing? ==> o in c' && c'[o] == c[o]
  }

  /** Where a block of `t` starts, one of `t'` starts. */
  ghost predicate StartsIn(K: nat, t: Tree, t': Tree)
    requires WF(t, K) && WF(t', K)
  {
    forall o: nat :: Lookup(t', K, o).Nothing? ==> Lookup(t, K, o).Nothing?
  }

  lemma StartsTrans(K: nat, t: Tree, c: Memory, c': Memory, c'': Memory)
    requires WF(t, K) && StartsOnly(K, t, c, c') && StartsOnly(K, t, c', c'')
    ensures StartsOnly(K, t, c, c'')
  {
  }

  lemma StartsWider(K: nat, t: Tree, t': Tree, c: Memory, c': Memory)
    requires WF(t, K) && WF(t', K) && StartsIn(K, t, t') && StartsOnly(K, t, c, c')
    ensures StartsOnly(K, t', c, c')
  {
  }

  lemma StartsInTrans(K: nat, t: Tree, t': Tree, t'': Tree)
    requires WF(t, K) && WF(t', K) && WF(t'', K) && StartsIn(K, t, t') && StartsIn(K, t', t'')
    ensures StartsIn(K, t, t'')
  {
  }

  lemma OnlyAtStart(K: nat, t: Tree, c: Memory, c': Memory, n: nat)
    requires WF(t, K) && Lookup(t, K, n).Block? && OnlyAt(c, c', n)
    ensures StartsOnly(K, t, c, c')
  {
  }

  /** A new status moves no block. */
  lemma MarkStarts(K: nat, t: Tree, n: nat, ord: nat, st: Status)
    requires WF(t, K) && Lookup(t, K, n).Block? && Lookup(t, K, n).order == ord
    ensures StartsIn(K, t, Mark(t, K, n, ord, st)) && StartsIn(K, Mark(t, K, n, ord, st), t)
  {
    var t' := Mark(t, K, n, ord, st);
    forall o: nat ensures Lookup(t', K, o).Nothing? <==> Lookup(t, K, o).Nothing? {
      MarkAt(t, K, n, ord, st, o);
    }
  }

  /** Cutting a block in two adds a start. */
  lemma SplitStarts(K: nat, t: Tree, n: nat, cur: nat, s: Tree)
    requires WF(t, K) && MIN_ORDER <= cur && Lookup(t, K, n) == Block(cur + 1, Held) && At(t, K, n, cur + 1)
    requires WF(s, cur + 1) && s.Node? && s.left.Leaf? && s.right.Leaf?
    ensures var t' := Put(t, K, n, cur + 1, s);
            StartsIn(K, t, t') && Lookup(t', K, n).Block? && Lookup(t', K, n + Pow2(cur)).Block?
  {
    var t' := Put(t, K, n, cur + 1, s);
    PutLookup(t, K, n, cur + 1, s, n);
    PutLookup(t, K, n, cur + 1, s, n + Pow2(cur));
    forall o: nat | Lookup(t', K, o).Nothing? ensures Lookup(t, K, o).Nothing? {
      PutStart(K, t, n, cur + 1, s, o);
    }
  }

  /** Whatever is put in the place of a block, no start is lost but perhaps its own. */
  lemma PutStart(K: nat, t: Tree, n: nat, ord: nat, s: Tree, o: nat)
    requires WF(t, K) && WF(s, ord) && At(t, K, n, ord) && Lookup(t, K, n).Block? && Lookup(t, K, n).order == ord
      && o != n
    requires Lookup(Put(t, K, n, ord, s), K, o).Nothing?
    ensures Lookup(t, K, o).Nothing?
  {
    PutLookup(t, K, n, ord, s, o);
    if n < o < n + Pow2(ord) {
      NoBlockInside(K, t, n, o);
    }
  }

  /** No block starts inside another. */
  lemma NoBlockInside(K: nat, t: Tree, n: nat, x: nat)
    requires WF(t, K) && Lookup(t, K, n).Block? && n < x < n + Pow2(Lookup(t, K, n).order)
    ensures Lookup(t, K, x).Nothing?
  {
    if Lookup(t, K, x).Block? {
      BlocksDisjoint(t, K, n, x);
    }
  }

  /** Joining two halves removes a start. */
  lemma JoinStarts(K: nat, t: Tree, p: nat, ord: nat)
    requires WF(t, K) && MIN_ORDER <= ord && At(t, K, p, ord + 1) && Lookup(t, K, p).Block?
    ensures StartsIn(K, Join(t, K, p, ord), t)
  {
    var t' := Join(t, K, p, ord);
    forall o: nat | Lookup(t, K, o).Nothing? ensures Lookup(t', K, o).Nothing? {
      PutLookup(t, K, p, ord + 1, Leaf(Held), o);
    }
  }

  /** Links lie at block starts. */
  lemma RelinkedStarts(K: nat, t: Tree, c: Memory, c': Memory, n: nat, ord: nat, lists: seq<seq<nat>>)
    requires WF(t, K) && |lists| == K + 1 && Listed(K, t, lists) && MIN_ORDER <= ord <= K
    requires Lookup(t, K, n).Block? && Relinked(c, c', n, lists[ord])
    ensures StartsOnly(K, t, c, c')
  {
    forall o: nat | o in c && Lookup(t, K, o).Nothing? ensures o in c' && c'[o] == c[o] {
      assert !IsFree(t, K, o, ord);
    }
  }

  // ---- along an allocation ------------------------------------------------------------------

  /** The free block at `n` was taken off its list, and nothing else has changed. */
  ghost predicate Popped(K: nat, t: Tree, c: Memory, n: int, ord: nat, t': Tree, c': Memory) {
    && WF(t, K) && WF(t', K) && 0 <= n && IsFree(t, K, n, ord)
    && t' == Mark(t, K, n, ord, Held) && SameUsed(K, t, t') && Undisturbed(K, t, c, c')
    && OnlyAt(c, c', n) && Loose(c', n)
  }

  /** The block at `p` is linked to nothing, and nothing was written on the way but where blocks start now. */
  ghost predicate FreshBlock(K: nat, c: Memory, t': Tree, c': Memory, p: int) {
    WF(t', K) && p >= HDR && Loose(c', p - HDR) && StartsOnly(K, t', c, c')
  }

  lemma GrowStarts(K: nat, t: Tree, t1: Tree, t2: Tree, c: Memory, c1: Memory, c2: Memory)
    requires WF(t, K) && WF(t1, K) && WF(t2, K) && StartsIn(K, t, t1) && StartsIn(K, t1, t2)
    requires StartsOnly(K, t1, c, c1) && StartsOnly(K, t2, c1, c2)
    ensures StartsIn(K, t, t2) && StartsOnly(K, t2, c, c2)
  {
    StartsInTrans(K, t, t1, t2);
    StartsWider(K, t1, t2, c, c1);
    StartsTrans(K, t2, c, c1, c2);
  }

  lemma HandOutStarts(K: nat, t: Tree, t1: Tree, c: Memory, c1: Memory, c2: Memory, n: nat, ord: nat)
    requires WF(t, K) && WF(t1, K) && Lookup(t1, K, n) == Block(ord, Held)
    requires StartsIn(K, t, t1) && StartsOnly(K, t1, c, c1) && OnlyAt(c1, c2, n)
    ensures var t2 := Mark(t1, K, n, ord, Used); StartsIn(K, t, t2) && StartsOnly(K, t2, c, c2)
  {
    MarkStarts(K, t1, n, ord, Used);
    MarkAt(t1, K, n, ord, Used, n);
    OnlyAtStart(K, Mark(t1, K, n, ord, Used), c1, c2, n);
    GrowStarts(K, t, t1, Mark(t1, K, n, ord, Used), c, c1, c2);
  }

  lemma PopStarts(K: nat, t1: Tree, t2: Tree, c: Memory, c1: Memory, c2: Memory, n: nat)
    requires WF(t1, K) && WF(t2, K) && Lookup(t1, K, n).Block? && OnlyAt(c, c1, n)
    requires StartsIn(K, t1, t2) && StartsOnly(K, t2, c1, c2)
    ensures StartsOnly(K, t2, c, c2)
  {
    OnlyAtStart(K, t1, c, c1, n);
    StartsWider(K, t1, t2, c, c1);
    StartsTrans(K, t2, c, c1, c2);
  }

  // ---- along a free -------------------------------------------------------------------------

  lemma ShrinkStarts(K: nat, t: Tree, t1: Tree, t2: Tree, c: Memory, c1: Memory, c2: Memory)
    requires WF(t, K) && WF(t1, K) && WF(t2, K) && StartsIn(K, t1, t) && StartsIn(K, t2, t1)
    requires StartsOnly(K, t, c, c1) && StartsOnly(K, t1, c1, c2)
    ensures StartsIn(K, t2, t) && StartsOnly(K, t, c, c2)
  {
    StartsInTrans(K, t2, t1, t);
    StartsWider(K, t1, t, c1, c2);
    StartsTrans(K, t, c, c1, c2);
  }

  /** One merge: a link is taken out, the buddy is held, and the lower half gets a new header. */
  lemma MergeStarts(K: nat, t: Tree, c: Memory, c1: Memory, c2: Memory, lists: seq<seq<nat>>, off: nat, ord: nat,
                    b: nat, p: nat)
    requires WF(t, K) && |lists| == K + 1 && Listed(K, t, lists) && MIN_ORDER <= ord <= K
    requires IsFree(t, K, b, ord) && Lookup(t, K, off).Block? && (p == b || p == off)
    requires Relinked(c, c1, b, lists[ord]) && OnlyAt(c1, c2, p)
    requires At(Mark(t, K, b, ord, Held), K, p, ord + 1)
    ensures StartsIn(K, Join(Mark(t, K, b, ord, Held), K, p, ord), t) && StartsOnly(K, t, c, c2)
  {
    var t1 := Mark(t, K, b, ord, Held);
    MarkStarts(K, t, b, ord, Held);
    MarkAt(t, K, b, ord, Held, p);
    JoinStarts(K, t1, p, ord);
    StartsInTrans(K, Join(t1, K, p, ord), t1, t);
    RelinkedStarts(K, t, c, c1, b, ord, lists);
    OnlyAtStart(K, t, c1, c2, p);
    StartsTrans(K, t, c, c1, c2);
  }

  lemma FreeStarts(K: nat, t: Tree, c: Memory, c1: Memory, c2: Memory, n: nat, ord: nat)
    requires WF(t, K) && Lookup(t, K, n) == Block(ord, Used) && OnlyAt(c, c1, n)
    requires StartsOnly(K, Mark(t, K, n, ord, Held), c1, c2)
    ensures StartsOnly(K, t, c, c2)
  {
    MarkStarts(K, t, n, ord, Held);
    OnlyAtStart(K, t, c, c1, n);
    StartsWider(K, Mark(t, K, n, ord, Held), t, c1, c2);
    StartsTrans(K, t, c, c1, c2);
  }
}
