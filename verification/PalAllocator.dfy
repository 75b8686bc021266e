/**
 The allocator object and its operations. malloc and free run under the allocator's spin lock
 from end to end. calloc, realloc and aligned_alloc take the lock for the mallocs and frees they
 are made of, and work on the caller's own blocks in between; each is one sequence of steps here.
 */
module PalAllocatorObject {
  import opened Powers
  import opened BuddyTree
  import opened BuddySpec
  import opened PalAlloc
  import opened PalClear
  import opened PalFrames
  import opened PalTouch
  import opened PalAligned
  import opened BuddyCanon

  /** What an aligned allocation does: an allocation of the enlarged size, and an aligned region inside its block. */
  ghost predicate AlignedOutcome(K: nat, t: Tree, c: Memory, base: nat, a: nat, size: nat, p: int, raw: int, op: Op,
                                 t': Tree, c': Memory)
    requires a > 0
  {
    && Outcome(K, t, c, size + a + 8, raw, op, t', c') && (raw == NULL ==> p == NULL)
    && (raw != NULL ==> op.Take? && AlignedInside(base, p, a, size, raw - HDR, op.order))
  }

  lemma BlockServed(K: nat, t: Tree, c: Memory, size: nat, p: int, op: Op, t': Tree, c': Memory)
    requires Outcome(K, t, c, size, p, op, t', c') && p != NULL && Coalesced(t) && Settled(t)
    ensures op.Take? && p == op.from + HDR && Lookup(t', K, op.from) == Block(op.order, Used)
      && OrderFor(Need(size), op.order)
  {
    OutcomeLive(K, t, c, size, p, op, t', c');
  }

  lemma AlignedKept(K: nat, t: Tree, c: Memory, base: nat, a: nat, size: nat, p: int, raw: int, op: Op, t': Tree,
                    c': Memory, c'': Memory)
    requires a > 0 && Outcome(K, t, c, size + a + 8, raw, op, t', c') && raw != NULL
    requires op.Take? && KeptOutside(c', c'', op.from, op.from + Pow2(op.order)) && raw == op.from + HDR
    requires AlignedInside(base, p, a, size, op.from, op.order)
    ensures AlignedOutcome(K, t, c, base, a, size, p, raw, op, t', c'')
  {
    OutcomeKept(K, t, c, size + a + 8, raw, op, t', c', c'');
  }

  lemma AlignedUndo(K: nat, t: Tree, c: Memory, base: nat, a: nat, size: nat, p: int, raw: int, op: Op, t': Tree,
                    c': Memory)
    requires a > 0 && AlignedOutcome(K, t, c, base, a, size, p, raw, op, t', c') && Coalesced(t) && Settled(t)
    ensures p == NULL ==> t' == t
    ensures p != NULL ==> raw >= HDR && IsUsed(t', K, raw - HDR) && Step(t', K, Give(raw - HDR)) == t
  {
    if raw != NULL {
      GiveUndoesTake(t, K, op);
    }
  }

  /** The live blocks are those at `blocks[i..]`. */
  ghost predicate Remaining(K: nat, t: Tree, blocks: seq<nat>, i: nat)
    requires WF(t, K) && i <= |blocks|
  {
    forall o: nat :: o in blocks[i..] <==> IsUsed(t, K, o)
  }

  lemma RemainingStep(K: nat, t: Tree, blocks: seq<nat>, i: nat)
    requires WF(t, K) && Coalesced(t) && Settled(t) && NoDup(blocks) && i < |blocks| && Remaining(K, t, blocks, i)
    ensures IsUsed(t, K, blocks[i]) && Remaining(K, Step(t, K, Give(blocks[i])), blocks, i + 1)
  {
    var b := blocks[i];
    assert b in blocks[i..];
    var t' := Step(t, K, Give(b));
    StepKeeps(t, K, Give(b));
    forall o: nat ensures o in blocks[i + 1..] <==> IsUsed(t', K, o) {
      LiveIs(t, K, o);
      LiveIs(t', K, o);
      assert o in blocks[i..] <==> o == b || o in blocks[i + 1..];
      assert b !in blocks[i + 1..];
    }
  }

  lemma NoneRemains(K: nat, t: Tree, blocks: seq<nat>)
    requires WF(t, K) && Coalesced(t) && Settled(t) && Remaining(K, t, blocks, |blocks|)
    ensures t == Leaf(Free) && Bytes(t, K, Used) == 0
  {
    forall o: nat ensures !IsUsed(t, K, o) {
      assert o !in blocks[|blocks|..];
    }
    NoUsedIsRoot(t, K);
  }

  /** The granules before `g` are copied, and nothing outside the destination block has changed. */
  ghost predicate Copied(K: nat, t: Tree, c0: Memory, c: Memory, src: nat, dst: nat, g: nat)
    requires WF(t, K) && IsUsed(t, K, dst)
  {
    Payload(c0, c, src, dst, g) && KeptOutside(c0, c, dst, dst + Pow2(Lookup(t, K, dst).order))
  }

  lemma NextGranule(g: nat, size: nat)
    requires g % 32 == 0 && size % 32 == 0 && g < size
    ensures g + 32 <= size && (g + 32) % 32 == 0
  {
  }

  lemma CopiedStep(K: nat, c0: Memory, c: Memory, heads: seq<int>, t: Tree, lists: seq<seq<nat>>, src: nat, dst: nat,
                   g: nat)
    requires Inv(K, c, heads, t, lists) && Mapped(K, c0)
    requires IsUsed(t, K, src) && IsUsed(t, K, dst) && src != dst && Copied(K, t, c0, c, src, dst, g)
    requires 32 <= g && g % 32 == 0 && g < Pow2(Lookup(t, K, src).order) && g < Pow2(Lookup(t, K, dst).order)
    ensures src + g in c && dst + g in c
    ensures var c' := c[dst + g := c[src + g]]; Inv(K, c', heads, t, lists) && Copied(K, t, c0, c', src, dst, g + 32)
  {
    CopyStep(K, c0, c, heads, t, lists, src, dst, g);
  }

  class PalAllocator {
    var maxOrder: nat
    var cells: Memory
    var heads: seq<int>
    var stats: Stats
    ghost var tree: Tree
    ghost var lists: seq<seq<nat>>

    /** Headers, links and free lists describe `tree`; some blocks may be held. */
    ghost predicate Consistent()
      reads this
    {
      Inv(maxOrder, cells, heads, tree, lists)
    }

    /** What holds between operations. */
    ghost predicate Valid()
      reads this
    {
      && Consistent()
      && Settled(tree) && Coalesced(tree)
      && stats.bytesInUse == Bytes(tree, maxOrder, Used)
      && stats.bytesInUse <= stats.bytesPeak
    }

    /** `pal_allocator_init` on `usable` aligned bytes that hold `buffer` (after prefaulting). */
    constructor (usable: nat, buffer: Memory)
      requires usable >= Pow2(MIN_ORDER)
      requires forall o: nat :: o < usable && o % 32 == 0 ==> o in buffer
      ensures Valid()
      ensures tree == Leaf(Free) && Live(tree, maxOrder) == map[]
      ensures MIN_ORDER <= maxOrder <= MAX_ORDER && Pow2(maxOrder) <= usable
      ensures maxOrder < MAX_ORDER ==> usable < Pow2(maxOrder + 1)
      ensures stats == Stats(0, 0, 0, 0, 0)
    {
      var k := ArenaOrder(usable);
      maxOrder := k;
      heads := seq(LISTS, i => if i == k - MIN_ORDER then 0 else NULL);
      cells := buffer[0 := InitRoot(k)];
      stats := Stats(0, 0, 0, 0, 0);
      tree := Leaf(Free);
      lists := InitLists(k);
      InitInv(k, buffer);
    }

    /** `list_pop` */
    method ListPop(order: nat) returns (n: int)
      requires Consistent() && MIN_ORDER <= order <= maxOrder
      modifies this`cells, this`tree, this`lists, this`heads
      ensures Consistent()
      ensures old(lists[order]) == [] ==>
                n == NULL && cells == old(cells) && tree == old(tree) && lists == old(lists) && heads == old(heads)
      ensures old(lists[order]) != [] ==>
                n == old(lists[order])[0] && Popped(maxOrder, old(tree), old(cells), n, order, tree, cells)
    {
      var idx := order - MIN_ORDER;
      n := heads[idx];
      ghost var l := lists[order];
      assert Chain(cells, n, l);
      if n != NULL {
        UnlinkInv(maxOrder, cells, heads, tree, lists, order, 0);
        UnlinkFrame(maxOrder, cells, heads, tree, lists, order, 0);
        assert Without(l, 0) == l[1..];
        tree := Mark(tree, maxOrder, n, order, Held);
        lists := lists[order := l[1..]];
        heads := heads[idx := cells[n].next];
        cells := cells[n := cells[n].(next := NULL)];
      }
    }

    /** `list_push` of a held block whose header says it is free. */
    method ListPush(order: nat, n: nat)
      requires Consistent() && MIN_ORDER <= order <= maxOrder
      requires Lookup(tree, maxOrder, n) == Block(order, Held)
      requires n in cells && HeaderOk(cells[n], order, 0)
      modifies this`cells, this`tree, this`lists, this`heads
      ensures Consistent()
      ensures tree == Mark(old(tree), maxOrder, n, order, Free)
      ensures SameUsed(maxOrder, old(tree), tree)
      ensures Undisturbed(maxOrder, old(tree), old(cells), cells)
      ensures OnlyAt(old(cells), cells, n)
    {
      var idx := order - MIN_ORDER;
      PushKeeps(maxOrder, cells, heads, tree, lists, order, n);
      ghost var t, l := Mark(tree, maxOrder, n, order, Free), lists[order := [n] + lists[order]];
      var c, h := cells[n := cells[n].(next := heads[idx])], heads[idx := n as int];
      assert Inv(maxOrder, c, h, t, l) && SameUsed(maxOrder, tree, t) && Undisturbed(maxOrder, tree, cells, c);
      tree, lists, cells, heads := t, l, c, h;
    }

    /** The part of `list_remove` that takes node `i` of a list out of it. */
    method Unlinking(order: nat, prev: int, cur: nat, ghost i: nat)
      requires Consistent() && MIN_ORDER <= order <= maxOrder
      requires i < |lists[order]| && cur == lists[order][i]
      requires prev == if i == 0 then NULL else lists[order][i - 1] as int
      modifies this`cells, this`tree, this`lists, this`heads
      ensures Consistent()
      ensures IsFree(old(tree), maxOrder, cur, order)
      ensures tree == Mark(old(tree), maxOrder, cur, order, Held)
      ensures SameUsed(maxOrder, old(tree), tree)
      ensures Undisturbed(maxOrder, old(tree), old(cells), cells)
      ensures Relinked(old(cells), cells, cur, old(lists)[order])
    {
      var idx := order - MIN_ORDER;
      ghost var l := lists[order];
      UnlinkInv(maxOrder, cells, heads, tree, lists, order, i);
      UnlinkFrame(maxOrder, cells, heads, tree, lists, order, i);
      tree := Mark(tree, maxOrder, cur, order, Held);
      lists := lists[order := Without(l, i)];
      Rewire(idx, prev, cur, l, i);
    }

    /** The link before the node is led past it, and the node's own is cleared. */
    method Rewire(idx: nat, prev: int, cur: nat, ghost l: seq<nat>, ghost i: nat)
      requires i < |l| && cur == l[i] && prev == (if i == 0 then NULL else l[i - 1] as int) && idx < |heads|
      requires l[i] in cells && (i > 0 ==> l[i - 1] in cells)
      modifies this`cells, this`heads
      ensures cells == Unlinked(old(cells), l, i)
      ensures heads == if i > 0 then old(heads) else old(heads)[idx := old(cells)[cur].next]
    {
      if prev != NULL {
        cells := cells[prev := cells[prev].(next := cells[cur].next)];
      } else {
        heads := heads[idx := cells[cur].next];
      }
      cells := cells[cur := cells[cur].(next := NULL)];
    }

    /** `list_remove` */
    method ListRemove(order: nat, target: nat) returns (found: bool)
      requires Consistent() && MIN_ORDER <= order <= maxOrder
      modifies this`cells, this`tree, this`lists, this`heads
      ensures Consistent()
      ensures found <==> IsFree(old(tree), maxOrder, target, order)
      ensures !found ==> cells == old(cells) && tree == old(tree) && lists == old(lists) && heads == old(heads)
      ensures found ==>
                && tree == Mark(old(tree), maxOrder, target, order, Held)
                && SameUsed(maxOrder, old(tree), tree)
                && Undisturbed(maxOrder, old(tree), old(cells), cells)
                && Relinked(old(cells), cells, target, old(lists)[order])
    {
      var prev;
      ghost var i;
      found, prev, i := FindNode(order, target);
      if found {
        Unlinking(order, prev, target, i);
      }
    }

    /** The walk of `list_remove` down a list, with the node before the one looked at. */
    method FindNode(order: nat, target: nat) returns (found: bool, prev: int, ghost i: nat)
      requires Consistent() && MIN_ORDER <= order <= maxOrder
      ensures found <==> IsFree(tree, maxOrder, target, order)
      ensures found ==> i < |lists[order]| && target == lists[order][i]
      ensures found ==> prev == if i == 0 then NULL else lists[order][i - 1] as int
    {
      ghost var l := lists[order];
      i := 0;
      var cur := heads[order - MIN_ORDER];
      assert Chain(cells, cur, l) && NoDup(l);
      assert target in l <==> IsFree(tree, maxOrder, target, order);
      prev := NULL;
      while cur != NULL
        invariant 0 <= i <= |l| && cur == Nth(l, i)
        invariant prev == if i == 0 then NULL else l[i - 1] as int
        invariant target !in l[..i]
        decreases |l| - i
      {
        assert cur == l[i] && Linked(cells, l, i);
        if cur == target {
          return true, prev, i;
        }
        prev, cur := cur, cells[cur].next;
        i := i + 1;
      }
      assert l[..i] == l;
      found := false;
    }

    /** One pass of the splitting loop: the upper half of the held block goes on the list of `cur`. */
    method SplitOnce(n: nat, cur: nat)
      requires Consistent() && MIN_ORDER <= cur < maxOrder
      requires Lookup(tree, maxOrder, n) == Block(cur + 1, Held)
      modifies this`cells, this`tree, this`lists, this`heads
      ensures Consistent()
      ensures At(old(tree), maxOrder, n, cur + 1) && WF(Node(Leaf(Held), Leaf(Free)), cur + 1)
      ensures tree == Put(old(tree), maxOrder, n, cur + 1, Node(Leaf(Held), Leaf(Free)))
      ensures SameUsed(maxOrder, old(tree), tree)
      ensures Undisturbed(maxOrder, old(tree), old(cells), cells)
      ensures StartsIn(maxOrder, old(tree), tree) && StartsOnly(maxOrder, tree, old(cells), cells)
      ensures Loose(old(cells), n) ==> Loose(cells, n)
    {
      ghost var K, t0, c0 := maxOrder, tree, cells;
      var buddy := n + Pow2(cur);
      LookupIsLeaf(t0, K, n, cur + 1, Held);
      SplitStarts(K, t0, n, cur, Node(Leaf(Held), Leaf(Free)));
      ghost var halves := Node(Leaf(Held), Leaf(Held));
      Reshape(K, cells, heads, t0, lists, n, cur + 1, halves);
      PutRight(t0, K, n, cur, Leaf(Held), Leaf(Held), Leaf(Free));
      PutLeft(t0, K, n, cur, Leaf(Held), Leaf(Free), Leaf(Held));
      tree := Put(t0, K, n, cur + 1, halves);
      ghost var t1 := tree;
      LookupIsLeaf(t1, K, buddy, cur, Held);
      PushUpper(buddy, cur);
      ghost var t2, c2 := tree, cells;
      UndisturbedTrans(K, t0, t1, c0, c0, c2);
      LookupIsLeaf(t2, K, n, cur, Held);
      BlockMapped(K, cells, t2, n);
      HeldWrite(K, cells, heads, t2, lists, n, cells[n].(order := cur));
      cells := cells[n := cells[n].(order := cur)];
      UndisturbedTrans(K, t0, t2, c0, c2, cells);
    }

    /** The upper half gets its header and goes on the list. */
    method PushUpper(buddy: nat, cur: nat)
      requires Consistent() && MIN_ORDER <= cur <= maxOrder && Lookup(tree, maxOrder, buddy) == Block(cur, Held)
      modifies this`cells, this`tree, this`lists, this`heads
      ensures Consistent() && tree == Mark(old(tree), maxOrder, buddy, cur, Free)
      ensures SameUsed(maxOrder, old(tree), tree) && Undisturbed(maxOrder, old(tree), old(cells), cells)
      ensures OnlyAt(old(cells), cells, buddy)
    {
      ghost var K, t, c := maxOrder, tree, cells;
      BlockMapped(K, cells, t, buddy);
      var v := cells[buddy].(magic := MAGIC, order := cur, used := 0, pad := 0, next := NULL);
      HeldWrite(K, cells, heads, t, lists, buddy, v);
      cells := cells[buddy := v];
      ghost var c1 := cells;
      ListPush(cur, buddy);
      UndisturbedTrans(K, t, t, c, c1, cells);
    }

    /** The search loop of `alloc_locked`: pops from the first list at or above `order` that is not empty. */
    method Search(order: nat) returns (node: int, cur: nat)
      requires Consistent() && MIN_ORDER <= order <= maxOrder
      modifies this`cells, this`tree, this`lists, this`heads
      ensures Consistent()
      ensures node == NULL ==>
                && cells == old(cells) && tree == old(tree) && lists == old(lists) && heads == old(heads)
                && NoFree(old(tree), maxOrder, order, maxOrder + 1)
      ensures node != NULL ==>
                && order <= cur <= maxOrder && NoFree(old(tree), maxOrder, order, cur)
                && Popped(maxOrder, old(tree), old(cells), node, cur, tree, cells)
    {
      node, cur := NULL, order;
      while cur <= maxOrder
        invariant order <= cur <= maxOrder + 1 && node == NULL
        invariant Consistent()
        invariant cells == old(cells) && tree == old(tree) && lists == old(lists) && heads == old(heads)
        invariant NoFree(tree, maxOrder, order, cur)
      {
        node := ListPop(cur);
        if node != NULL {
          return;
        }
        EmptyNoFree(maxOrder, tree, lists, order, cur);
        cur := cur + 1;
      }
    }

    method HandOut(n: nat, order: nat)
      requires Consistent() && MIN_ORDER <= order <= maxOrder
      requires Lookup(tree, maxOrder, n) == Block(order, Held)
      modifies this`cells, this`tree
      ensures Consistent()
      ensures tree == Mark(old(tree), maxOrder, n, order, Used)
      ensures Undisturbed(maxOrder, old(tree), old(cells), cells)
      ensures OnlyAt(old(cells), cells, n) && (Loose(old(cells), n) ==> Loose(cells, n))
    {
      ghost var K, t := maxOrder, tree;
      BlockMapped(K, cells, t, n);
      HeldWrite(K, cells, heads, t, lists, n, cells[n].(magic := MAGIC, order := order, used := 1, pad := 0));
      cells := cells[n := cells[n].(magic := MAGIC, order := order, used := 1, pad := 0)];
      HandOutKeeps(K, cells, heads, t, lists, order, n);
      tree := Mark(t, K, n, order, Used);
    }

    /** The splitting loop of `alloc_locked`, and the header of the block it hands out. */
    method SplitDown(n: nat, j: nat, order: nat, ghost t0: Tree)
      requires Consistent() && MIN_ORDER <= order <= j <= maxOrder
      requires WF(t0, maxOrder) && IsFree(t0, maxOrder, n, j) && tree == Mark(t0, maxOrder, n, j, Held)
      requires Loose(cells, n)
      modifies this`cells, this`tree, this`lists, this`heads
      ensures Consistent()
      ensures At(t0, maxOrder, n, j) && tree == Put(t0, maxOrder, n, j, Split(j, order, Used))
      ensures Undisturbed(maxOrder, old(tree), old(cells), cells)
      ensures StartsIn(maxOrder, old(tree), tree) && StartsOnly(maxOrder, tree, old(cells), cells) && Loose(cells, n)
    {
      ghost var K, t1, c1 := maxOrder, tree, cells;
      LookupIsLeaf(t0, K, n, j, Free);
      var cur := j;
      while cur > order
        invariant order <= cur <= j
        invariant Consistent()
        invariant tree == Put(t0, K, n, j, Split(j, cur, Held))
        invariant SameUsed(K, t1, tree) && Undisturbed(K, t1, c1, cells)
        invariant StartsIn(K, t1, tree) && StartsOnly(K, tree, c1, cells) && Loose(cells, n)
      {
        cur := cur - 1;
        ghost var t2, c2 := tree, cells;
        SplitStep(t0, K, n, j, cur);
        LookupIsLeaf(t2, K, n, cur + 1, Held);
        SplitOnce(n, cur);
        UndisturbedTrans(K, t1, t2, c1, c2, cells);
        GrowStarts(K, t1, t2, tree, c1, c2, cells);
      }
      SplitEnd(t0, K, n, j, order);
      ghost var t2, c2 := tree, cells;
      LookupIsLeaf(t2, K, n, order, Held);
      HandOut(n, order);
      UndisturbedTrans(K, t1, t2, c1, c2, cells);
      HandOutStarts(K, t1, t2, c1, c2, cells, n, order);
    }

    /** `alloc_locked` */
    method AllocLocked(size: nat) returns (p: int, ghost op: Op)
      requires Valid() && size < SIZE_WRAP
      modifies this`cells, this`tree, this`lists, this`heads
      ensures Consistent()
      ensures Outcome(maxOrder, old(tree), old(cells), size, p, op, tree, cells)
      ensures Fitting(maxOrder, old(tree), size, p, if op.Take? then op.order else 0)
      ensures p != NULL ==> FreshBlock(maxOrder, old(cells), tree, cells, p)
    {
      p, op := AllocNeed(Need(size), size);
      OutcomeFits(maxOrder, old(tree), old(cells), size, p, op, tree, cells);
    }

    /** The same for the bytes the request takes with its header. */
    method AllocNeed(need: nat, ghost size: nat) returns (p: int, ghost op: Op)
      requires Valid() && need == Need(size)
      modifies this`cells, this`tree, this`lists, this`heads
      ensures Consistent()
      ensures Outcome(maxOrder, old(tree), old(cells), size, p, op, tree, cells)
      ensures p != NULL ==> FreshBlock(maxOrder, old(cells), tree, cells, p)
    {
      ghost var K, t0, c0 := maxOrder, tree, cells;
      op := Give(0);
      if need > Pow2(maxOrder) {
        TooLargeNoRoom(tree, maxOrder, need);
        RefusedOutcome(K, t0, c0, size, op);
        return NULL, op;
      }
      var order := RequestOrder(need);
      assert Fits(need, maxOrder);
      p, op := AllocOrder(order, size);
    }

    /** The rest of `alloc_locked`, from the order on. */
    method AllocOrder(order: nat, ghost size: nat) returns (p: int, ghost op: Op)
      requires Valid() && OrderFor(Need(size), order) && order <= maxOrder
      modifies this`cells, this`tree, this`lists, this`heads
      ensures Consistent()
      ensures Outcome(maxOrder, old(tree), old(cells), size, p, op, tree, cells)
      ensures p != NULL ==> FreshBlock(maxOrder, old(cells), tree, cells, p)
    {
      ghost var K, t0, c0 := maxOrder, tree, cells;
      op := Give(0);
      var node, cur := Search(order);
      if node == NULL {
        NotFoundOutcome(K, t0, c0, size, order, op);
        return NULL, op;
      }
      op := Serve(node, cur, order, size, t0, c0);
      p := node + HDR;
    }

    /** The block found serves the request. */
    method Serve(node: nat, cur: nat, order: nat, ghost size: nat, ghost t0: Tree, ghost c0: Memory)
      returns (ghost op: Op)
      requires Consistent() && OrderFor(Need(size), order) && order <= cur <= maxOrder
      requires Popped(maxOrder, t0, c0, node, cur, tree, cells) && NoFree(t0, maxOrder, order, cur)
      modifies this`cells, this`tree, this`lists, this`heads
      ensures Consistent()
      ensures Outcome(maxOrder, t0, c0, size, node + HDR, op, tree, cells)
      ensures FreshBlock(maxOrder, c0, tree, cells, node + HDR)
    {
      Carve(node, cur, order, t0, c0);
      op := Take(node, cur, order);
      ServedOutcome(maxOrder, t0, c0, size, node, cur, order, tree, cells);
    }

    /** The block found is cut down to the order wanted. */
    method Carve(node: nat, cur: nat, order: nat, ghost t0: Tree, ghost c0: Memory)
      requires Consistent() && MIN_ORDER <= order <= cur <= maxOrder
      requires Popped(maxOrder, t0, c0, node, cur, tree, cells)
      modifies this`cells, this`tree, this`lists, this`heads
      ensures Consistent()
      ensures At(t0, maxOrder, node, cur) && tree == Put(t0, maxOrder, node, cur, Split(cur, order, Used))
      ensures Undisturbed(maxOrder, t0, c0, cells) && FreshBlock(maxOrder, c0, tree, cells, node + HDR)
    {
      ghost var K, t1, c1 := maxOrder, tree, cells;
      MarkAt(t0, K, node, cur, Held, node);
      SplitDown(node, cur, order, t0);
      UndisturbedTrans(K, t0, t1, c0, c1, cells);
      PopStarts(K, t1, tree, c0, c1, cells, node);
    }

    /** `pal_allocator_malloc` */
    method Malloc(size: nat) returns (p: int, ghost op: Op)
      requires Valid() && size < SIZE_WRAP
      modifies this`cells, this`tree, this`lists, this`heads, this`stats
      ensures Valid()
      ensures Outcome(maxOrder, old(tree), old(cells), size, p, op, tree, cells)
      ensures Fitting(maxOrder, old(tree), size, p, if op.Take? then op.order else 0)
      ensures p != NULL ==> FreshBlock(maxOrder, old(cells), tree, cells, p)
      ensures p == NULL ==> stats == old(stats).(failures := old(stats).failures + 1)
      ensures p != NULL ==> stats == Charged(old(stats), Pow2(op.order))
      ensures p != NULL ==>
                && stats.bytesInUse == old(stats).bytesInUse + Pow2(op.order)
                && (stats.bytesPeak == old(stats).bytesPeak || stats.bytesPeak == stats.bytesInUse)
                && stats.allocCalls == old(stats).allocCalls + 1 && stats.failures == old(stats).failures
    {
      p, op := AllocLocked(size);
      Account(p, size, op, old(tree), old(cells));
    }

    /** The counters of an allocation; a block's size is read from its own header. */
    method Account(p: int, ghost size: nat, ghost op: Op, ghost t0: Tree, ghost c0: Memory)
      requires Consistent() && Outcome(maxOrder, t0, c0, size, p, op, tree, cells)
      requires Settled(t0) && Coalesced(t0)
      requires stats.bytesInUse == Bytes(t0, maxOrder, Used) && stats.bytesInUse <= stats.bytesPeak
      modifies this`stats
      ensures Valid()
      ensures p == NULL ==> stats == old(stats).(failures := old(stats).failures + 1)
      ensures p != NULL ==> stats == Charged(old(stats), Pow2(op.order))
    {
      if p != NULL {
        OutcomeLive(maxOrder, t0, c0, size, p, op, tree, cells);
        HeaderOfLive(maxOrder, cells, tree, p - HDR);
        stats := Charged(stats, Pow2(cells[p - HDR].order));
      } else {
        stats := stats.(failures := stats.failures + 1);
      }
    }

    /** The start of `free_locked`: the header is read and cleared, the block is held. */
    method TakeBack(n: nat, order: nat)
      requires Consistent() && Settled(tree) && Lookup(tree, maxOrder, n) == Block(order, Used)
      modifies this`cells, this`tree
      ensures Consistent()
      ensures tree == Mark(old(tree), maxOrder, n, order, Held) && OnlyHeld(tree, maxOrder, n)
      ensures n in old(cells) && n in cells && HeaderOk(cells[n], order, 0)
      ensures cells == old(cells)[n := cells[n]]
    {
      ghost var K, t := maxOrder, tree;
      TakeBackKeeps(K, cells, heads, t, lists, order, n);
      tree := Mark(t, K, n, order, Held);
      MarkAt(t, K, n, order, Held, n);
      HeldWrite(K, cells, heads, tree, lists, n, cells[n].(used := 0, next := NULL));
      cells := cells[n := cells[n].(used := 0, next := NULL)];
    }

    /** One pass of the coalescing loop of `free_locked`. */
    method MergeOnce(offset: nat, order: nat) returns (merged: bool, offset': nat)
      requires Consistent() && order < maxOrder
      requires Lookup(tree, maxOrder, offset) == Block(order, Held) && OnlyHeld(tree, maxOrder, offset)
      requires offset in cells && HeaderOk(cells[offset], order, 0)
      modifies this`cells, this`tree, this`lists, this`heads
      ensures Consistent()
      ensures !merged ==>
                && cells == old(cells) && tree == old(tree) && offset' == offset
                && At(tree, maxOrder, offset, order)
                && Release(tree, maxOrder, offset, order) == Put(tree, maxOrder, offset, order, Leaf(Free))
      ensures merged ==>
                && Lookup(tree, maxOrder, offset') == Block(order + 1, Held) && OnlyHeld(tree, maxOrder, offset')
                && offset' in cells && HeaderOk(cells[offset'], order + 1, 0)
                && At(old(tree), maxOrder, offset, order) && At(tree, maxOrder, offset', order + 1)
                && Release(tree, maxOrder, offset', order + 1) == Release(old(tree), maxOrder, offset, order)
      ensures SameUsed(maxOrder, old(tree), tree) && Undisturbed(maxOrder, old(tree), old(cells), cells)
      ensures StartsIn(maxOrder, tree, old(tree)) && StartsOnly(maxOrder, old(tree), old(cells), cells)
    {
      ghost var K, t, c := maxOrder, tree, cells;
      ghost var ls := lists;
      var buddy := Xor(offset, Pow2(order));
      BuddyHeaderIsReal(K, cells, heads, t, lists, offset, order);
      NoFreeSibling(t, K, offset, order);
      offset' := offset;
      if buddy >= Pow2(maxOrder) || cells[buddy].magic != MAGIC || cells[buddy].used != 0
        || cells[buddy].order != order {
        return false, offset;
      }
      merged := ListRemove(order, buddy);
      if !merged {
        return;
      }
      offset' := JoinHalves(offset, buddy, order, t, c, ls);
    }

    /** With the buddy off its list the two halves become one held block. */
    method JoinHalves(offset: nat, buddy: nat, order: nat, ghost t: Tree, ghost c: Memory, ghost ls: seq<seq<nat>>)
      returns (offset': nat)
      requires Consistent() && WF(t, maxOrder) && MIN_ORDER <= order < maxOrder && buddy == Xor(offset, Pow2(order))
      requires Lookup(t, maxOrder, offset) == Block(order, Held) && OnlyHeld(t, maxOrder, offset)
      requires IsFree(t, maxOrder, buddy, order) && tree == Mark(t, maxOrder, buddy, order, Held)
      requires SameUsed(maxOrder, t, tree) && Undisturbed(maxOrder, t, c, cells)
      requires |ls| == maxOrder + 1 && Listed(maxOrder, t, ls) && Relinked(c, cells, buddy, ls[order])
      requires offset in cells && buddy in cells && cells[offset].magic == MAGIC && cells[buddy].magic == MAGIC
      modifies this`cells, this`tree
      ensures Consistent()
      ensures Lookup(tree, maxOrder, offset') == Block(order + 1, Held) && OnlyHeld(tree, maxOrder, offset')
      ensures offset' in cells && HeaderOk(cells[offset'], order + 1, 0)
      ensures At(t, maxOrder, offset, order) && At(tree, maxOrder, offset', order + 1)
      ensures Release(tree, maxOrder, offset', order + 1) == Release(t, maxOrder, offset, order)
      ensures SameUsed(maxOrder, t, tree) && Undisturbed(maxOrder, t, c, cells)
      ensures StartsIn(maxOrder, tree, t) && StartsOnly(maxOrder, t, c, cells)
    {
      ghost var K, t1, c1 := maxOrder, tree, cells;
      JoinKeeps(K, cells, heads, t, t1, lists, offset, order);
      offset' := if buddy < offset then buddy else offset;
      tree := Join(t1, K, offset', order);
      ghost var t2 := tree;
      var v := cells[offset'].(order := order + 1, used := 0, pad := 0, next := NULL);
      HeldWrite(K, cells, heads, tree, lists, offset', v);
      cells := cells[offset' := v];
      UndisturbedTrans(K, t, t1, c, c1, c1);
      UndisturbedTrans(K, t, t2, c, c1, cells);
      MergeStarts(K, t, c, c1, cells, ls, offset, order, buddy, offset');
    }

    /** The coalescing loop of `free_locked` and the push that ends it: the bottom-up reference of `Release`. */
    method Coalesce(off: nat, ord: nat)
      requires Consistent() && MIN_ORDER <= ord <= maxOrder
      requires Lookup(tree, maxOrder, off) == Block(ord, Held) && OnlyHeld(tree, maxOrder, off)
      requires off in cells && HeaderOk(cells[off], ord, 0)
      modifies this`cells, this`tree, this`lists, this`heads
      ensures Consistent()
      ensures At(old(tree), maxOrder, off, ord) && tree == Release(old(tree), maxOrder, off, ord)
      ensures Undisturbed(maxOrder, old(tree), old(cells), cells)
      ensures StartsOnly(maxOrder, old(tree), old(cells), cells)
    {
      ghost var K, t0, c0 := maxOrder, tree, cells;
      LookupIsLeaf(t0, K, off, ord, Held);
      var offset, order := off, ord;
      while order < maxOrder
        invariant Consistent() && MIN_ORDER <= order <= maxOrder
        invariant Lookup(tree, K, offset) == Block(order, Held) && OnlyHeld(tree, K, offset)
        invariant offset in cells && HeaderOk(cells[offset], order, 0)
        invariant At(tree, K, offset, order) && Release(tree, K, offset, order) == Release(t0, K, off, ord)
        invariant SameUsed(K, t0, tree) && Undisturbed(K, t0, c0, cells)
        invariant StartsIn(K, tree, t0) && StartsOnly(K, t0, c0, cells)
      {
        ghost var t1, c1 := tree, cells;
        var merged, offset' := MergeOnce(offset, order);
        UndisturbedTrans(K, t0, t1, c0, c1, cells);
        ShrinkStarts(K, t0, t1, tree, c0, c1, cells);
        if !merged {
          break;
        }
        offset, order := offset', order + 1;
      }
      ghost var t1, c1 := tree, cells;
      assert Release(t1, K, offset, order) == Put(t1, K, offset, order, Leaf(Free));
      ListPush(order, offset);
      UndisturbedTrans(K, t0, t1, c0, c1, cells);
      OnlyAtStart(K, t1, c1, cells, offset);
      ShrinkStarts(K, t0, t1, t1, c0, c1, cells);
    }

    /**
     `pal_allocator_free` of NULL, or of a pointer that names the block of `raw`: one `Malloc` or
     `AlignedAlloc` gave, or one freed before.
     */
    method FreePtr(ptr: int, ghost raw: int)
      requires Valid() && (ptr == NULL || Names(maxOrder, tree, cells, ptr, raw))
      modifies this`cells, this`tree, this`lists, this`heads, this`stats
      ensures Valid()
      ensures ptr == NULL || !IsUsed(old(tree), maxOrder, raw - HDR) ==>
                tree == old(tree) && cells == old(cells) && stats == old(stats)
      ensures ptr != NULL && IsUsed(old(tree), maxOrder, raw - HDR) ==>
                Freed(maxOrder, old(tree), old(cells), old(stats), raw - HDR, tree, cells, stats)
    {
      if ptr == NULL {
        return;
      }
      var off := FindTarget(maxOrder, cells, ptr, tree, raw);
      if off != NULL {
        HeaderOfLive(maxOrder, cells, tree, off);
        Reclaim(off, cells[off].order);
      }
    }

    /** The rest of `free_locked`, from the header it has found. */
    method Reclaim(off: nat, order: nat)
      requires Valid() && Lookup(tree, maxOrder, off) == Block(order, Used)
      modifies this`cells, this`tree, this`lists, this`heads, this`stats
      ensures Valid() && Freed(maxOrder, old(tree), old(cells), old(stats), off, tree, cells, stats)
    {
      ghost var K, t0, c0 := maxOrder, tree, cells;
      FreeKeeps(t0, K, off, order);
      TakeBack(off, order);
      ghost var t1, c1 := tree, cells;
      StatusInBlock(t1, K, off, off);
      assert Undisturbed(K, t1, c0, c1);
      Coalesce(off, order);
      UndisturbedTrans(K, t1, t1, c0, c1, cells);
      FreeStarts(K, t0, c0, c1, cells, off, order);
      stats := Refunded(stats, Pow2(order));
    }

    /** Every live block is given back, in any order: the arena is one free block again. */
    method FreeAll(blocks: seq<nat>)
      requires Valid() && NoDup(blocks) && Remaining(maxOrder, tree, blocks, 0)
      modifies this`cells, this`tree, this`lists, this`heads, this`stats
      ensures Valid() && tree == Leaf(Free) && stats.bytesInUse == 0
    {
      var i := 0;
      while i < |blocks|
        invariant i <= |blocks| && Valid() && Remaining(maxOrder, tree, blocks, i)
      {
        RemainingStep(maxOrder, tree, blocks, i);
        FreePtr(blocks[i] + HDR, blocks[i] + HDR);
        i := i + 1;
      }
      NoneRemains(maxOrder, tree, blocks);
    }

    /** `pal_alloc_arena_free_approx`: what the free lists hold is what is not in use. */
    method ArenaFree() returns (total: nat)
      requires Valid()
      ensures total == Bytes(tree, maxOrder, Free)
      ensures total + stats.bytesInUse == Pow2(maxOrder)
    {
      total := 0;
      SumFreeBelowMin(tree, maxOrder, MIN_ORDER);
      for order := MIN_ORDER to maxOrder + 1
        invariant total == SumFree(tree, maxOrder, order)
      {
        total := ListBytes(order, total);
      }
      SumFreeIsBytes(tree, maxOrder, maxOrder + 1);
      BytesTotal(tree, maxOrder);
    }

    /** Walks one list, adding a block size for each node. */
    method ListBytes(order: nat, before: nat) returns (total: nat)
      requires Valid() && MIN_ORDER <= order <= maxOrder
      ensures total == before + CountFree(tree, maxOrder, order) * Pow2(order)
    {
      ghost var l := lists[order];
      ghost var i := 0;
      var n := heads[order - MIN_ORDER];
      assert Chain(cells, n, l);
      total := before;
      var size := Pow2(order);
      while n != NULL
        invariant 0 <= i <= |l| && n == Nth(l, i)
        invariant total == before + i * size
        decreases |l| - i
      {
        assert n == l[i] && Linked(cells, l, i);
        assert (i + 1) * size == i * size + size;
        total := total + size;
        n := cells[n].next;
        i := i + 1;
      }
      ListLength(maxOrder, cells, heads, tree, lists, order);
    }

    /** A caller storing into its own live block: anything but the block's header. */
    method Store(o: nat, v: Cell)
      requires Valid() && o in cells && o < Pow2(maxOrder) && StatusAt(tree, maxOrder, o).Used?
      requires Lookup(tree, maxOrder, o).Block? ==> v.(next := cells[o].next, rest := cells[o].rest) == cells[o]
      modifies this`cells
      ensures Valid() && cells == old(cells)[o := v]
    {
      PayloadWrite(maxOrder, cells, heads, tree, lists, o, v);
      cells := cells[o := v];
    }

    /** The `memcpy` of `pal_allocator_realloc`: the whole user region of one live block into another. */
    method CopyPayload(src: nat, dst: nat, ord: nat)
      requires Valid() && src != dst
      requires Lookup(tree, maxOrder, src) == Block(ord, Used)
      requires IsUsed(tree, maxOrder, dst) && ord <= Lookup(tree, maxOrder, dst).order
      modifies this`cells
      ensures Valid() && Payload(old(cells), cells, src, dst, Pow2(ord))
      ensures KeptOutside(old(cells), cells, dst, dst + Pow2(Lookup(tree, maxOrder, dst).order))
    {
      ghost var K, t, c0 := maxOrder, tree, cells;
      Pow2Monotone(ord, Lookup(t, K, dst).order);
      Pow2Multiple32(ord);
      CopyHeader(K, cells, heads, t, lists, src, dst);
      cells := cells[dst := cells[dst].(next := cells[src].next, rest := cells[src].rest)];
      CopyGranules(src, dst, Pow2(ord), c0);
    }

    /** The rest of the copy, one granule after another. */
    method CopyGranules(src: nat, dst: nat, size: nat, ghost c0: Memory)
      requires Valid() && Mapped(maxOrder, c0) && src != dst && IsUsed(tree, maxOrder, src)
        && IsUsed(tree, maxOrder, dst)
      requires 32 <= size <= Pow2(Lookup(tree, maxOrder, src).order) && size <= Pow2(Lookup(tree, maxOrder, dst).order)
      requires size % 32 == 0 && Copied(maxOrder, tree, c0, cells, src, dst, 32)
      modifies this`cells
      ensures Valid() && Copied(maxOrder, tree, c0, cells, src, dst, size)
    {
      var g := 32;
      while g < size
        invariant 32 <= g <= size && g % 32 == 0
        invariant Valid() && Copied(maxOrder, tree, c0, cells, src, dst, g)
      {
        CopyGranule(src, dst, g, c0);
        NextGranule(g, size);
        g := g + 32;
      }
    }

    method CopyGranule(src: nat, dst: nat, g: nat, ghost c0: Memory)
      requires Valid() && Mapped(maxOrder, c0) && src != dst && IsUsed(tree, maxOrder, src)
        && IsUsed(tree, maxOrder, dst)
      requires 32 <= g && g % 32 == 0 && g < Pow2(Lookup(tree, maxOrder, src).order)
        && g < Pow2(Lookup(tree, maxOrder, dst).order)
      requires Copied(maxOrder, tree, c0, cells, src, dst, g)
      modifies this`cells
      ensures Valid() && Copied(maxOrder, tree, c0, cells, src, dst, g + 32)
    {
      CopiedStep(maxOrder, c0, cells, heads, tree, lists, src, dst, g);
      cells := cells[dst + g := cells[src + g]];
    }

    /** `pal_allocator_calloc` */
    method Calloc(nmemb: nat, size: nat) returns (p: int, ghost op: Op)
      requires Valid() && nmemb < SIZE_WRAP && size < SIZE_WRAP
      requires nmemb * size >= SIZE_WRAP || nmemb * size + HDR < SIZE_WRAP
      modifies this`cells, this`tree, this`lists, this`heads, this`stats
      ensures Valid()
      ensures nmemb * size >= SIZE_WRAP ==> p == NULL && tree == old(tree) && cells == old(cells)
      ensures nmemb * size < SIZE_WRAP ==>
                && Outcome(maxOrder, old(tree), old(cells), nmemb * size, p, op, tree, cells)
                && (p != NULL ==> Zeroed(cells, op.from, nmemb * size))
    {
      if nmemb == 0 || size == 0 {
        assert nmemb * size == 0;
        p, op := Malloc(0);
        return;
      }
      CallocGuard(nmemb, size);
      if nmemb > (SIZE_WRAP - 1) / size {
        return NULL, Give(0);
      }
      p, op := AllocAndClear(nmemb * size);
    }

    method AllocAndClear(total: nat) returns (p: int, ghost op: Op)
      requires Valid() && total + HDR < SIZE_WRAP
      modifies this`cells, this`tree, this`lists, this`heads, this`stats
      ensures Valid() && Outcome(maxOrder, old(tree), old(cells), total, p, op, tree, cells)
      ensures p != NULL ==> Zeroed(cells, op.from, total)
    {
      p, op := Malloc(total);
      if p != NULL {
        ClearBlock(p, op, total, old(tree), old(cells));
      }
    }

    method ClearBlock(p: int, ghost op: Op, total: nat, ghost t0: Tree, ghost c0: Memory)
      requires Valid() && total + HDR < SIZE_WRAP && Coalesced(t0) && Settled(t0)
      requires p != NULL && Outcome(maxOrder, t0, c0, total, p, op, tree, cells)
      modifies this`cells
      ensures Valid() && Outcome(maxOrder, t0, c0, total, p, op, tree, cells) && Zeroed(cells, op.from, total)
    {
      ghost var c1 := cells;
      BlockServed(maxOrder, t0, c0, total, p, op, tree, c1);
      HoldsIffNoWrap(total, op.order);
      Clear(p - HDR, op.order, total);
      OutcomeKept(maxOrder, t0, c0, total, p, op, tree, c1, cells);
    }

    /** The `memset` over the user region of a live block. */
    method Clear(n: nat, ghost order: nat, total: nat)
      requires Valid() && Lookup(tree, maxOrder, n) == Block(order, Used) && total + HDR <= Pow2(order)
      modifies this`cells
      ensures Valid() && KeptOutside(old(cells), cells, n, n + Pow2(order)) && Zeroed(cells, n, total)
    {
      ghost var c0 := cells;
      ClearFirstStep(maxOrder, cells, heads, tree, lists, n, order, total);
      cells := cells[n := ClearSecond(cells[n], Min(total, 16))];
      var g := 32;
      while g < total + HDR
        invariant 32 <= g && g % 32 == 0 && Valid() && ClearedTo(c0, cells, n, order, total, g)
        decreases total + HDR - g
      {
        ClearNext(n, order, total, g, c0);
        g := g + 32;
      }
      ClearedZeroes(c0, cells, n, total, g);
    }

    method ClearNext(n: nat, ghost order: nat, total: nat, g: nat, ghost c0: Memory)
      requires Valid() && Mapped(maxOrder, c0) && Lookup(tree, maxOrder, n) == Block(order, Used)
      requires total + HDR <= Pow2(order) && 32 <= g < total + HDR && g % 32 == 0
      requires ClearedTo(c0, cells, n, order, total, g)
      modifies this`cells
      ensures Valid() && ClearedTo(c0, cells, n, order, total, g + 32)
    {
      ClearNextStep(maxOrder, c0, cells, heads, tree, lists, n, order, total, g);
      cells := cells[n + g := ClearFirst(cells[n + g], Min(total + HDR - g, 32))];
    }

    /** `pal_allocator_realloc` of NULL, of a live pointer or of one freed before. */
    method Realloc(ptr: int, size: nat) returns (r: int, ghost op: Op)
      requires Valid() && size + HDR < SIZE_WRAP
      requires ptr == NULL || (ptr >= HDR && Lookup(tree, maxOrder, ptr - HDR).Block?)
      modifies this`cells, this`tree, this`lists, this`heads, this`stats
      ensures Valid()
      ensures ptr == NULL ==> Outcome(maxOrder, old(tree), old(cells), size, r, op, tree, cells)
      ensures ptr != NULL && !IsUsed(old(tree), maxOrder, ptr - HDR) ==>
        r == NULL && tree == old(tree) && cells == old(cells)
      ensures ptr != NULL && IsUsed(old(tree), maxOrder, ptr - HDR) ==>
                Resized(maxOrder, old(tree), old(cells), ptr, size, r, op, tree, cells)
    {
      op := Give(0);
      if ptr == NULL {
        r, op := Malloc(size);
        return;
      }
      var off := ptr - HDR;
      if size == 0 {
        FreePtr(ptr, ptr);
        if IsUsed(old(tree), maxOrder, off) {
          FreedOthers(maxOrder, old(tree), old(cells), cells, off, Lookup(old(tree), maxOrder, off).order);
        }
        return NULL, op;
      }
      SettledLookup(tree, maxOrder, off);
      BlockMapped(maxOrder, cells, tree, off);
      var hdr := cells[off];
      if hdr.magic != MAGIC || hdr.used == 0 {
        return NULL, op;
      }
      var order := hdr.order;
      if size <= Pow2(order) - HDR {
        return ptr, op;
      }
      r, op := Grow(off, order, size);
    }

    /** The moving part of `pal_allocator_realloc`. */
    method Grow(off: nat, order: nat, size: nat) returns (r: int, ghost op: Op)
      requires Valid() && Lookup(tree, maxOrder, off) == Block(order, Used)
      requires Pow2(order) < size + HDR < SIZE_WRAP
      modifies this`cells, this`tree, this`lists, this`heads, this`stats
      ensures Valid()
      ensures r == NULL ==> tree == old(tree) && cells == old(cells) && NoRoom(old(tree), maxOrder, Need(size))
      ensures r != NULL ==> Moved(maxOrder, old(tree), old(cells), off, order, size, r, op, tree, cells)
      ensures OthersKept(maxOrder, old(tree), old(cells), cells, off, order)
    {
      ghost var t0, c0 := tree, cells;
      r, op := Malloc(size);
      if r != NULL {
        Relocate(off, order, size, r, op, t0, c0);
      }
    }

    method Relocate(off: nat, order: nat, ghost size: nat, r: int, ghost op: Op, ghost t0: Tree, ghost c0: Memory)
      requires Valid() && Outcome(maxOrder, t0, c0, size, r, op, tree, cells) && r != NULL
      requires Coalesced(t0) && Settled(t0) && Mapped(maxOrder, c0)
      requires Lookup(t0, maxOrder, off) == Block(order, Used) && Pow2(order) < size + HDR < SIZE_WRAP
      modifies this`cells, this`tree, this`lists, this`heads, this`stats
      ensures Valid() && Moved(maxOrder, t0, c0, off, order, size, r, op, tree, cells)
      ensures OthersKept(maxOrder, t0, c0, cells, off, order)
    {
      ghost var t1, c1 := tree, cells;
      GrowBlocks(maxOrder, t0, c0, off, order, size, r, op, t1, c1);
      MoveBlock(off, r - HDR, order);
      GrowDone(maxOrder, t0, c0, off, order, size, r, op, t1, c1, tree, cells);
    }

    /** Copies one live block into another and frees the first. */
    method MoveBlock(src: nat, dst: nat, ord: nat)
      requires Valid() && src != dst
      requires Lookup(tree, maxOrder, src) == Block(ord, Used)
      requires IsUsed(tree, maxOrder, dst) && ord <= Lookup(tree, maxOrder, dst).order
      modifies this`cells, this`tree, this`lists, this`heads, this`stats
      ensures Valid() && tree == Step(old(tree), maxOrder, Give(src))
      ensures Payload(old(cells), cells, src, dst, Pow2(ord))
      ensures KeptBut(maxOrder, old(tree), old(cells), cells, src, ord, dst, Lookup(old(tree), maxOrder, dst).order)
    {
      ghost var K, t := maxOrder, tree;
      CopyPayload(src, dst, ord);
      ghost var c2 := cells;
      FreePtr(src + HDR, src + HDR);
      MoveSurvives(K, t, old(cells), c2, cells, src, dst, ord);
      FreedOthers(K, t, c2, cells, src, ord);
      CopiedAndFreed(K, t, old(cells), c2, cells, src, ord, dst, Lookup(t, K, dst).order);
    }

    /**
     `pal_allocator_aligned_alloc` for an arena at address `base`: the aligned pointer, the slot
     for the raw pointer just below it and all `size` bytes above it lie in one fresh block.
     */
    method AlignedAlloc(base: nat, alignment: nat, size: nat)
      returns (p: int, ghost raw: int, ghost op: Op, ghost mid: Memory)
      requires Valid() && base % 16 == 0 && size + AtLeast8(alignment) + 8 + HDR < SIZE_WRAP
      modifies this`cells, this`tree, this`lists, this`heads, this`stats
      ensures Valid()
      ensures !IsPow2(AtLeast8(alignment)) ==> p == raw == NULL && tree == old(tree) && cells == old(cells)
      ensures IsPow2(AtLeast8(alignment)) ==>
                AlignedOutcome(maxOrder, old(tree), old(cells), base, AtLeast8(alignment), size,
                               p, raw, op, tree, cells)
      ensures p != NULL ==> p < raw + 8 + AtLeast8(alignment) && Backed(maxOrder, tree, cells, p, raw)
      ensures p != NULL ==> FreshBlock(maxOrder, old(cells), tree, mid, raw) && Slotted(mid, cells, p, raw)
    {
      var a := AtLeast8(alignment);
      var power := PowerOfTwo(a);
      if !power {
        return NULL, NULL, Give(0), cells;
      }
      PowerIsAlignment(a);
      p, raw, op, mid := AllocAndAlign(base, a, size);
    }

    /** A block with room for the alignment and the back pointer, and the aligned address in it. */
    method AllocAndAlign(base: nat, a: nat, size: nat) returns (p: int, ghost raw: int, ghost op: Op, ghost mid: Memory)
      requires Valid() && base % 16 == 0 && Alignment(a) && size + a + 8 + HDR < SIZE_WRAP
      modifies this`cells, this`tree, this`lists, this`heads, this`stats
      ensures Valid() && AlignedOutcome(maxOrder, old(tree), old(cells), base, a, size, p, raw, op, tree, cells)
      ensures p != NULL ==> p < raw + 8 + a && Backed(maxOrder, tree, cells, p, raw)
      ensures p != NULL ==> FreshBlock(maxOrder, old(cells), tree, mid, raw) && Slotted(mid, cells, p, raw)
    {
      var need, block := size + a + 8, NULL;
      block, op := Malloc(need);
      raw, mid := block, cells;
      p := AlignBlock(base, a, size, need, block, op, old(tree), old(cells));
    }

    method AlignBlock(base: nat, a: nat, size: nat, ghost need: nat, block: int,
                      ghost op: Op, ghost t0: Tree, ghost c0: Memory)
      returns (p: int)
      requires Valid() && base % 16 == 0 && Alignment(a) && size + a + 8 + HDR < SIZE_WRAP
      requires need == size + a + 8 && Outcome(maxOrder, t0, c0, need, block, op, tree, cells)
      requires Coalesced(t0) && Settled(t0)
      modifies this`cells
      ensures Valid() && AlignedOutcome(maxOrder, t0, c0, base, a, size, p, block, op, tree, cells)
      ensures p != NULL ==> block != NULL && p < block + 8 + a && Backed(maxOrder, tree, cells, p, block)
      ensures p != NULL ==> Slotted(old(cells), cells, p, block)
    {
      if block == NULL {
        return NULL;
      }
      ghost var c1 := cells;
      BlockServed(maxOrder, t0, c0, need, block, op, tree, c1);
      p := PlaceAligned(base, a, size, block - HDR, op.order);
      AlignedKept(maxOrder, t0, c0, base, a, size, p, block, op, tree, c1, cells);
    }

    /** The aligned pointer in a block of sufficient size, with the slot below it filled. */
    method PlaceAligned(base: nat, a: nat, size: nat, n: nat, ghost order: nat) returns (p: nat)
      requires Valid() && base % 16 == 0 && Alignment(a) && size + a + 8 + HDR < SIZE_WRAP
      requires Lookup(tree, maxOrder, n) == Block(order, Used) && OrderFor(Need(size + a + 8), order)
      modifies this`cells
      ensures Valid() && AlignedInside(base, p, a, size, n, order) && Backed(maxOrder, tree, cells, p, n + HDR)
      ensures KeptOutside(old(cells), cells, n, n + Pow2(order))
      ensures p < n + HDR + 8 + a && Slotted(old(cells), cells, p, n + HDR)
    {
      p := AlignUp(base, n, a, size, order);
      BlockStart(maxOrder, tree, n);
      Placement(base, n, p, a);
      PlaceIsEight(n, p);
      StoreSlot(p, n, order);
    }

    method StoreSlot(p: nat, n: nat, ghost order: nat)
      requires Valid() && Lookup(tree, maxOrder, n) == Block(order, Used)
      requires IsPlaceFor(n + HDR, p) && p % 8 == 0 && n + HDR + 8 <= p <= n + Pow2(order)
      modifies this`cells
      ensures Valid() && Backed(maxOrder, tree, cells, p, n + HDR) && Slotted(old(cells), cells, p, n + HDR)
      ensures KeptOutside(old(cells), cells, n, n + Pow2(order))
    {
      ghost var c' := SlotWrite(maxOrder, cells, heads, tree, lists, n, order, p);
      cells := WithWordAt(cells, p - 8, n + HDR + 1);
      assert cells == c';
    }

    /**
     An aligned allocation that is given back leaves the arena as it was, unless the memory before
     the slot looked like the header of a live block beforehand. Up to an alignment of 16 this
     cannot be: the slot lies directly behind the header.
     */
    method AlignedRoundTrip(base: nat, alignment: nat, size: nat) returns (p: int, clear: bool, ghost raw: int)
      requires Valid() && base % 16 == 0 && size + AtLeast8(alignment) + 8 + HDR < SIZE_WRAP
      modifies this`cells, this`tree, this`lists, this`heads, this`stats
      ensures Valid() && (clear ==> tree == old(tree))
      ensures clear <==> p == NULL || p < raw + 24 || !LooksUsed(old(cells), p - HDR)
      ensures alignment <= 16 ==> clear
    {
      ghost var op, mid;
      p, raw, op, mid := AlignedAlloc(base, alignment, size);
      if IsPow2(AtLeast8(alignment)) {
        AlignedUndo(maxOrder, old(tree), old(cells), base, AtLeast8(alignment), size, p, raw, op, tree, cells);
      }
      clear := true;
      if p != NULL {
        ClearWhen(maxOrder, old(cells), tree, mid, cells, p, raw);
        clear := FreeIfClear(p, raw);
      }
    }

    /** Frees an aligned pointer unless that would go wrong. */
    method FreeIfClear(p: int, ghost raw: int) returns (clear: bool)
      requires Valid() && p != NULL && Backed(maxOrder, tree, cells, p, raw)
      modifies this`cells, this`tree, this`lists, this`heads, this`stats
      ensures Valid() && (clear <==> !LooksUsed(old(cells), p - HDR))
      ensures if clear then tree == Step(old(tree), maxOrder, Give(raw - HDR))
        else tree == old(tree) && cells == old(cells)
    {
      clear := !LooksUsed(cells, p - HDR);
      if clear {
        FreePtr(p, raw);
      }
    }
  }

  /**
   `pal_allocator_init` on `size` bytes at `address`: the arena starts at the next multiple of 16.
   NULL stands for the result -1; `buffer` is what the bytes from there on hold.
   */
  method Init(address: nat, size: nat, buffer: Memory) returns (a: PalAllocator?)
    requires forall o: nat :: o < size && o % 32 == 0 ==> o in buffer
    ensures a == null <==> size < RoundUp(address, 16) - address + Pow2(MIN_ORDER)
    ensures a != null ==> fresh(a) && a.Valid() && a.tree == Leaf(Free) && a.stats == Stats(0, 0, 0, 0, 0)
    ensures a != null ==> RoundUp(address, 16) + Pow2(a.maxOrder) <= address + size
    ensures a != null && a.maxOrder < MAX_ORDER ==> address + size < RoundUp(address, 16) + Pow2(a.maxOrder + 1)
  {
    a := null;
    RoundUpBounds(address, 16);
    if size < Pow2(MIN_ORDER) {
      return;
    }
    var adj := RoundUp(address, 16) - address;
    if adj >= size || size - adj < Pow2(MIN_ORDER) {
      return;
    }
    a := new PalAllocator(size - adj, buffer);
  }
}
