/** What realloc does to a live pointer, and to everything else that is live. */
module PalFrames {
  import opened Powers
  import opened BuddyTree
  import opened BuddySpec
  import opened PalAlloc
  import opened PalTouch

  /** The memory of every live block is as it was, but for the blocks at `a` and `b`. */
  ghost predicate KeptBut(K: nat, t: Tree, c: Memory, c': Memory, a: nat, ao: nat, b: nat, bo: nat)
    requires WF(t, K)
  {
    forall o: nat ::
      o in c && o < Pow2(K) && StatusAt(t, K, o).Used? && !(a <= o < a + Pow2(ao)) && !(b <= o < b + Pow2(bo)) ==>
        o in c' && c'[o] == c[o]
  }

  ghost predicate OthersKept(K: nat, t: Tree, c: Memory, c': Memory, a: nat, ao: nat)
    requires WF(t, K)
  {
    KeptBut(K, t, c, c', a, ao, a, ao)
  }

  /** A block moved by realloc: the whole old user region is in the new, larger block, and the old block is gone. */
  ghost predicate Moved(K: nat, t: Tree, c: Memory, off: nat, ord: nat, size: nat, r: int, op: Op, t': Tree,
                        c': Memory) {
    && WF(t, K) && Served(t, K, size, r, op) && ord < op.order
    && IsUsed(Step(t, K, op), K, off)
    && t' == Step(Step(t, K, op), K, Give(off))
    && Payload(c, c', off, op.from, Pow2(ord))
  }

  /** What realloc does to a live pointer. No other live block is touched in any case. */
  ghost predicate Resized(K: nat, t: Tree, c: Memory, ptr: int, size: nat, r: int, op: Op, t': Tree, c': Memory)
    requires WF(t, K) && ptr >= HDR && IsUsed(t, K, ptr - HDR)
  {
    var ord := Lookup(t, K, ptr - HDR).order;
    && OthersKept(K, t, c, c', ptr - HDR, ord)
    && if size == 0 then r == NULL && t' == Step(t, K, Give(ptr - HDR))
       else if size + HDR <= Pow2(ord) then r == ptr && t' == t && c' == c
       else if r == NULL then t' == t && c' == c && NoRoom(t, K, Need(size))
       else Moved(K, t, c, ptr - HDR, ord, size, r, op, t', c')
  }

  /**
   What free does to a live block: one step of the arena, its bytes off the count, nothing written but at block
   starts.
   */
  ghost predicate Freed(K: nat, t: Tree, c: Memory, s: Stats, off: nat, t': Tree, c': Memory, s': Stats)
    requires WF(t, K) && IsUsed(t, K, off)
  {
    var ord := Lookup(t, K, off).order;
    && Pow2(ord) <= s.bytesInUse && s' == Refunded(s, Pow2(ord))
    && t' == Step(t, K, Give(off)) && Undisturbed(K, Mark(t, K, off, ord, Held), c, c')
    && StartsOnly(K, t, c, c')
  }

  /** Marking a block as held leaves the others live. */
  lemma FreedOthers(K: nat, t: Tree, c: Memory, c': Memory, off: nat, ord: nat)
    requires WF(t, K) && Lookup(t, K, off) == Block(ord, Used) && Undisturbed(K, Mark(t, K, off, ord, Held), c, c')
    ensures OthersKept(K, t, c, c', off, ord)
  {
    LookupIsLeaf(t, K, off, ord, Used);
    forall o: nat | o in c && o < Pow2(K) && StatusAt(t, K, o).Used? && !(off <= o < off + Pow2(ord))
      ensures o in c' && c'[o] == c[o]
    {
      PutStatus(t, K, off, ord, Leaf(Held), o);
    }
  }

  lemma CopiedAndFreed(K: nat, t: Tree, c: Memory, c1: Memory, c2: Memory, src: nat, ord: nat, dst: nat, dord: nat)
    requires WF(t, K) && KeptOutside(c, c1, dst, dst + Pow2(dord)) && OthersKept(K, t, c1, c2, src, ord)
    ensures KeptBut(K, t, c, c2, src, ord, dst, dord)
  {
  }

  /** An allocation leaves what was live live, and takes its block from what was not. */
  lemma MovedOthers(K: nat, t: Tree, c: Memory, size: nat, r: int, op: Op, t': Tree, c1: Memory, c2: Memory, off: nat,
                    ord: nat)
    requires Outcome(K, t, c, size, r, op, t', c1) && r != NULL
    requires KeptBut(K, t', c1, c2, off, ord, op.from, op.order)
    ensures OthersKept(K, t, c, c2, off, ord)
  {
    LookupIsLeaf(t, K, op.from, op.fromOrder, Free);
    Pow2Monotone(op.order, op.fromOrder);
    forall o: nat | o in c && o < Pow2(K) && StatusAt(t, K, o).Used? && !(off <= o < off + Pow2(ord))
      ensures o in c2 && c2[o] == c[o]
    {
      PutStatus(t, K, op.from, op.fromOrder, Split(op.fromOrder, op.order, Used), o);
      if op.from <= o < op.from + Pow2(op.fromOrder) {
        StatusInBlock(t, K, op.from, o);
      }
    }
  }

  /** An allocation followed by a move is what realloc promises. */
  lemma GrowDone(K: nat, t: Tree, c: Memory, off: nat, ord: nat, size: nat, r: int, op: Op, t1: Tree, c1: Memory,
                 t2: Tree, c2: Memory)
    requires Outcome(K, t, c, size, r, op, t1, c1) && r != NULL && Mapped(K, c)
    requires Lookup(t, K, off) == Block(ord, Used) && ord < op.order && IsUsed(t1, K, off)
      && t2 == Step(t1, K, Give(off))
    requires Payload(c1, c2, off, op.from, Pow2(ord)) && KeptBut(K, t1, c1, c2, off, ord, op.from, op.order)
    ensures Moved(K, t, c, off, ord, size, r, op, t2, c2) && OthersKept(K, t, c, c2, off, ord)
  {
    PayloadFrom(K, t, c, c1, c2, off, op.from, ord);
    MovedOthers(K, t, c, size, r, op, t1, c1, c2, off, ord);
  }
}
