/** A run in which `free` of an aligned pointer goes wrong: what misleads it is what an earlier owner stored. */
module PalStale {
  import opened Powers
  import opened BuddyTree
  import opened BuddySpec
  import opened PalAlloc
  import opened PalTouch
  import opened PalFrames
  import opened PalAligned
  import opened PalAllocatorObject

  lemma ArenaBound(K: nat)
    requires MIN_ORDER <= K <= MAX_ORDER
    ensures 32 <= Pow2(K) < SIZE_WRAP
  {
    Pow2Monotone(MIN_ORDER, K);
    Pow2Monotone(K, MAX_ORDER);
    assert Pow2(5) == 32 by { assert Pow2(3) == 8; }
    Pow2Add(10, 16);
    Pow2Add(8, 8);
    Pow2Add(5, 5);
    Pow2Add(5, 3);
  }

  /** From an arena with nothing live every block is cut at its start. */
  lemma FromRoot(K: nat, c: Memory, size: nat, p: int, op: Op, t': Tree, c': Memory)
    requires Outcome(K, Leaf(Free), c, size, p, op, t', c') && Need(size) <= Pow2(K)
    ensures p == HDR && op.Take? && op.from == 0 && op.fromOrder == K && IsUsed(t', K, 0)
  {
    assert IsFree(Leaf(Free), K, 0, K);
    StepKeeps(Leaf(Free), K, op);
  }

  lemma NeedAll(K: nat)
    requires MIN_ORDER <= K <= MAX_ORDER
    ensures Pow2(K) >= 32 && Need(Pow2(K) - HDR) == Pow2(K)
  {
    ArenaBound(K);
  }

  lemma Pow2Strict(a: nat, b: nat)
    requires a < b
    ensures Pow2(a) < Pow2(b)
  {
    Pow2Monotone(a, b - 1);
  }

  /** A request for all of it gets all of it. */
  lemma WholeArena(K: nat, c: Memory, size: nat, p: int, op: Op, t': Tree, c': Memory)
    requires Outcome(K, Leaf(Free), c, size, p, op, t', c') && Need(size) == Pow2(K)
    ensures p == HDR && t' == Leaf(Used)
  {
    FromRoot(K, c, size, p, op, t', c');
    if op.order < K {
      Pow2Strict(op.order, K);
    }
  }

  /** The first multiple of 64 behind the header of a block at the start of the arena. */
  lemma At64(base: nat, p: int)
    requires base % 64 == 0 && 24 <= p < 88 && Multiple(base + p, 64)
    ensures p == 64
  {
    MultipleIs(base + p, 64);
  }

  /**
   An owner of the whole arena stores what looks like a live header at offset 48 and frees the
   arena. The next aligned allocation is placed at 64, and freeing it would free a block at 48.
   */
  method StaleContents(a: PalAllocator, base: nat, ord: nat) returns (p: int, ghost raw: int)
    requires a.Valid() && a.tree == Leaf(Free) && a.maxOrder >= 7 && base % 64 == 0 && MIN_ORDER <= ord <= a.maxOrder
    modifies a
    ensures a.Valid() && p != NULL && Backed(a.maxOrder, a.tree, a.cells, p, raw)
    ensures FreeTarget(a.maxOrder, a.cells, p) == p - HDR && Lookup(a.tree, a.maxOrder, p - HDR).Nothing?
  {
    LeaveStale(a, ord);
    p, raw := AlignOver(a, base, ord);
    Lead(a.maxOrder, a.cells, a.tree, p, raw, ord);
  }

  /** The memory at offset 48 looks like a live header of order `ord`. */
  predicate Stale(c: Memory, ord: nat) {
    HeaderAt(c, 48) == Header(MAGIC, ord, 1)
  }

  lemma StoredStale(c: Memory, ord: nat)
    requires 32 in c && ord < TWO16
    ensures Stale(c[32 := WithWord(c[32], 16, LiveHeader(ord))], ord)
  {
    LiveHeaderParts(ord);
    WordIn(32, 16);
  }

  /** Allocate everything, store, free. */
  method LeaveStale(a: PalAllocator, ord: nat)
    requires a.Valid() && a.tree == Leaf(Free) && a.maxOrder >= 7 && MIN_ORDER <= ord <= a.maxOrder
    modifies a
    ensures a.Valid() && a.tree == Leaf(Free) && a.maxOrder == old(a.maxOrder) && Stale(a.cells, ord)
  {
    ghost var K := a.maxOrder;
    NeedAll(a.maxOrder);
    ghost var op;
    var size, q := Pow2(a.maxOrder) - HDR, 0;
    q, op := a.Malloc(size);
    WholeArena(K, old(a.cells), size, q, op, a.tree, a.cells);
    RoomFor(K);
    StoredStale(a.cells, ord);
    a.Store(32, WithWord(a.cells[32], 16, LiveHeader(ord)));
    ghost var c := a.cells;
    a.FreePtr(q, q);
    assert 32 in c && Lookup(Leaf(Used), K, 32).Nothing?;
    StaleStays(c, a.cells, ord);
  }

  lemma StaleStays(c: Memory, c': Memory, ord: nat)
    requires 32 in c && 32 in c' && c[32] == c'[32] && Stale(c, ord)
    ensures Stale(c', ord)
  {
    WordIn(32, 16);
  }

  lemma RoomFor(K: nat)
    requires 7 <= K
    ensures Pow2(K) >= 128
  {
    Pow2Monotone(7, K);
    assert Pow2(7) == 128 by { assert Pow2(3) == 8; }
  }

  /** The aligned allocation that follows. */
  method AlignOver(a: PalAllocator, base: nat, ghost ord: nat) returns (p: int, ghost raw: int)
    requires a.Valid() && a.tree == Leaf(Free) && a.maxOrder >= 7 && base % 64 == 0 && Stale(a.cells, ord)
    modifies a
    ensures a.Valid() && a.maxOrder == old(a.maxOrder) && p == 64 && raw == HDR
    ensures Backed(a.maxOrder, a.tree, a.cells, p, raw) && Stale(a.cells, ord)
  {
    ghost var K := a.maxOrder;
    ghost var op, mid;
    RoomFor(K);
    p, raw, op, mid := a.AlignedAlloc(base, 64, 8);
    SixtyFour();
    FromRoot(K, old(a.cells), 80, raw, op, a.tree, a.cells);
    At64(base, p);
    StaleHeader(K, old(a.cells), a.tree, mid, a.cells, p, raw);
  }

  lemma SixtyFour()
    ensures IsPow2(64) && AtLeast8(64) == 64
  {
    assert Pow2(6) == 64 by { assert Pow2(3) == 8; }
  }

  lemma Lead(K: nat, c: Memory, t: Tree, p: nat, raw: nat, ord: nat)
    requires WF(t, K) && Backed(K, t, c, p, raw) && p == 64 && raw == HDR && Stale(c, ord) && MIN_ORDER <= ord <= K
    ensures FreeTarget(K, c, p) == p - HDR && Lookup(t, K, p - HDR).Nothing?
  {
    NoBlockInside(K, t, 0, 48);
    TargetOf(K, c, p);
  }
}
