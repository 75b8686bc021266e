/**
 The buddy allocator of src/pal_alloc.c: block headers and intrusive free lists in the
 arena's own memory, updated in place under the allocator lock.
 */
module PalAlloc {
  import opened Powers
  import opened BuddyTree
  import opened BuddySpec

  const MAGIC: nat := 0xA11C0A7
  const NULL: int := -1
  const HDR: nat := 16
  const LISTS: nat := MAX_ORDER - MIN_ORDER + 1
  const SIZE_WRAP: nat := 0x1_0000_0000_0000_0000

  /**
   32 bytes of the arena. Read as a block start they are the 16-byte header followed by the
   free-list link; inside a live block they are whatever the caller stored.
   */
  datatype Cell = Cell(magic: nat, order: nat, used: nat, pad: nat, next: int, rest: nat)

  type Memory = map<int, Cell>

  predicate HeaderOk(c: Cell, order: nat, used: nat) {
    c.magic == MAGIC && c.order == order && c.used == used && c.pad == 0
  }

  // ---- the invariant, on values ----------------------------------------------------

  ghost predicate Mapped(K: nat, cells: Memory) {
    forall o: nat :: o < Pow2(K) && o % 32 == 0 ==> o in cells
  }

  ghost predicate HeadersOk(K: nat, cells: Memory, t: Tree)
    requires WF(t, K)
  {
    forall o: nat :: Lookup(t, K, o).Block? && !Lookup(t, K, o).st.Held? ==>
      && o in cells
      && HeaderOk(cells[o], Lookup(t, K, o).order, if Lookup(t, K, o).st.Used? then 1 else 0)
  }

  function Nth(l: seq<nat>, i: nat): int {
    if i < |l| then l[i] else NULL
  }

  /** The link of node `i` leads to the next one. */
  ghost predicate Linked(cells: Memory, l: seq<nat>, i: nat) {
    i < |l| ==> l[i] in cells && cells[l[i]].next == Nth(l, i + 1)
  }

  /** The links in memory spell out the list `l` from `head` to NULL. */
  ghost predicate Chain(cells: Memory, head: int, l: seq<nat>) {
    head == Nth(l, 0) && forall i: nat :: Linked(cells, l, i)
  }

  ghost predicate NoDup(l: seq<nat>) {
    forall i, j :: 0 <= i < j < |l| ==> l[i] != l[j]
  }

  ghost predicate ListsOk(K: nat, cells: Memory, heads: seq<int>, lists: seq<seq<nat>>)
    requires MIN_ORDER <= K <= MAX_ORDER && |heads| == LISTS && |lists| == K + 1
  {
    forall ord: nat {:trigger lists[ord]} :: MIN_ORDER <= ord <= K ==>
      Chain(cells, heads[ord - MIN_ORDER], lists[ord]) && NoDup(lists[ord])
  }

  /** The list of each order holds exactly the free blocks of that order. */
  ghost predicate Listed(K: nat, t: Tree, lists: seq<seq<nat>>)
    requires WF(t, K) && |lists| == K + 1
  {
    forall ord: nat, o: nat {:trigger o in lists[ord]} {:trigger IsFree(t, K, o, ord)} ::
      MIN_ORDER <= ord <= K ==> (o in lists[ord] <==> IsFree(t, K, o, ord))
  }

  ghost predicate Inv(K: nat, cells: Memory, heads: seq<int>, t: Tree, lists: seq<seq<nat>>) {
    && MIN_ORDER <= K <= MAX_ORDER && |heads| == LISTS && |lists| == K + 1
    && WF(t, K)
    && Mapped(K, cells)
    && HeadersOk(K, cells, t)
    && ListsOk(K, cells, heads, lists)
    && Listed(K, t, lists)
  }

  /** Memory of live blocks is the caller's: nothing in it changed. */
  ghost predicate Undisturbed(K: nat, t: Tree, c: Memory, c': Memory)
    requires WF(t, K)
  {
    forall o: nat :: o in c && o < Pow2(K) && StatusAt(t, K, o).Used? ==> o in c' && c'[o] == c[o]
  }

  ghost predicate SameUsed(K: nat, t: Tree, t': Tree)
    requires WF(t, K) && WF(t', K)
  {
    forall x: nat :: x < Pow2(K) ==> (StatusAt(t, K, x).Used? <==> StatusAt(t', K, x).Used?)
  }

  // ---- changing the status of one block --------------------------------------------

  ghost function Mark(t: Tree, K: nat, n: nat, ord: nat, st: Status): (t': Tree)
    requires WF(t, K) && Lookup(t, K, n).Block? && Lookup(t, K, n).order == ord
    ensures WF(t', K)
  {
    LookupIsLeaf(t, K, n, ord, Lookup(t, K, n).st);
    Put(t, K, n, ord, Leaf(st))
  }

  lemma MarkAt(t: Tree, K: nat, n: nat, ord: nat, st: Status, o: nat)
    requires WF(t, K) && Lookup(t, K, n).Block? && Lookup(t, K, n).order == ord
    ensures Lookup(Mark(t, K, n, ord, st), K, o) == if o == n then Block(ord, st) else Lookup(t, K, o)
  {
    LookupIsLeaf(t, K, n, ord, Lookup(t, K, n).st);
    PutLookup(t, K, n, ord, Leaf(st), o);
    if n < o < n + Pow2(ord) && Lookup(t, K, o).Block? {
      BlocksDisjoint(t, K, n, o);
    }
  }

  /** `t'` is `t` with the block at `n` moved to status `st`. */
  ghost predicate Marked(t: Tree, t': Tree, K: nat, n: nat, ord: nat, st: Status)
    requires WF(t, K)
  {
    && WF(t', K)
    && Lookup(t, K, n).Block? && Lookup(t, K, n).order == ord
    && forall o: nat :: Lookup(t', K, o) == if o == n then Block(ord, st) else Lookup(t, K, o)
  }

  lemma MarkAll(t: Tree, K: nat, n: nat, ord: nat, st: Status)
    requires WF(t, K) && Lookup(t, K, n).Block? && Lookup(t, K, n).order == ord
    ensures Marked(t, Mark(t, K, n, ord, st), K, n, ord, st)
  {
    forall o: nat
      ensures Lookup(Mark(t, K, n, ord, st), K, o) == if o == n then Block(ord, st) else Lookup(t, K, o)
    {
      MarkAt(t, K, n, ord, st, o);
    }
  }

  lemma MarkSameUsed(t: Tree, K: nat, n: nat, ord: nat, st: Status)
    requires WF(t, K) && Lookup(t, K, n).Block? && Lookup(t, K, n).order == ord
    requires !Lookup(t, K, n).st.Used? && !st.Used?
    ensures SameUsed(K, t, Mark(t, K, n, ord, st))
    ensures n < Pow2(K) && !StatusAt(t, K, n).Used?
  {
    LookupIsLeaf(t, K, n, ord, Lookup(t, K, n).st);
    StatusInBlock(t, K, n, n);
    forall x: nat | x < Pow2(K)
      ensures StatusAt(t, K, x).Used? <==> StatusAt(Mark(t, K, n, ord, st), K, x).Used?
    {
      PutStatus(t, K, n, ord, Leaf(st), x);
      if n <= x < n + Pow2(ord) {
        StatusInBlock(t, K, n, x);
      }
    }
  }

  /** A subtree root is a multiple of 32, so its header has a cell. */
  lemma RootMapped(t: Tree, K: nat, off: nat, ord: nat)
    requires WF(t, K) && At(t, K, off, ord)
    ensures off < Pow2(K) && off % 32 == 0
  {
    AtRange(t, K, off, ord);
    AlignedSmaller(off, ord, 5);
    assert Pow2(5) == 32 by { assert Pow2(3) == 8; }
  }

  // ---- free-list operations, on values ---------------------------------------------

  /** `c'` is `c` with only links rewritten, and only those of `n` and of the nodes of `l`. */
  ghost predicate Relinked(c: Memory, c': Memory, n: nat, l: seq<nat>) {
    && c'.Keys == c.Keys
    && forall o :: o in c ==>
         && c'[o] == c[o].(next := c'[o].next)
         && (o != n && o !in l ==> c'[o] == c[o])
  }

  /** A block on the list of one order is on no other list. */
  lemma OthersAvoid(K: nat, t: Tree, lists: seq<seq<nat>>, ord: nat, n: nat, i: nat)
    requires WF(t, K) && |lists| == K + 1 && Listed(K, t, lists)
    requires MIN_ORDER <= ord <= K && Lookup(t, K, n).Block? && Lookup(t, K, n).order == ord
    requires MIN_ORDER <= i <= K && i != ord
    ensures n !in lists[i]
    ensures forall o :: o in lists[ord] ==> o !in lists[i]
  {
    assert !IsFree(t, K, n, i);
    forall o | o in lists[ord] ensures o !in lists[i] {
      assert IsFree(t, K, o, ord) && !IsFree(t, K, o, i);
    }
  }

  lemma OtherChain(K: nat, c: Memory, c': Memory, heads: seq<int>, t: Tree, lists: seq<seq<nat>>,
                   ord: nat, n: nat, i: nat)
    requires Inv(K, c, heads, t, lists)
    requires MIN_ORDER <= ord <= K && Lookup(t, K, n).Block? && Lookup(t, K, n).order == ord
    requires Relinked(c, c', n, lists[ord])
    requires MIN_ORDER <= i <= K && i != ord
    ensures Chain(c', heads[i - MIN_ORDER], lists[i])
  {
    OthersAvoid(K, t, lists, ord, n, i);
    var l := lists[i];
    assert Chain(c, heads[i - MIN_ORDER], l);
    forall j: nat ensures Linked(c', l, j) {
      assert Linked(c, l, j) && (j < |l| ==> l[j] in l);
    }
  }

  lemma RelistLists(K: nat, c: Memory, c': Memory, heads: seq<int>, t: Tree, lists: seq<seq<nat>>,
                    ord: nat, n: nat, h': int, l': seq<nat>)
    requires Inv(K, c, heads, t, lists)
    requires MIN_ORDER <= ord <= K && Lookup(t, K, n).Block? && Lookup(t, K, n).order == ord
    requires Relinked(c, c', n, lists[ord]) && Chain(c', h', l') && NoDup(l')
    ensures ListsOk(K, c', heads[ord - MIN_ORDER := h'], lists[ord := l'])
  {
    var lists', heads' := lists[ord := l'], heads[ord - MIN_ORDER := h'];
    forall i: nat | MIN_ORDER <= i <= K
      ensures Chain(c', heads'[i - MIN_ORDER], lists'[i]) && NoDup(lists'[i])
    {
      if i != ord {
        assert NoDup(lists[i]);
        OtherChain(K, c, c', heads, t, lists, ord, n, i);
      }
    }
  }

  lemma RelistListed(K: nat, t: Tree, t': Tree, lists: seq<seq<nat>>, ord: nat, n: nat, st: Status, l': seq<nat>)
    requires WF(t, K) && |lists| == K + 1 && Listed(K, t, lists)
    requires MIN_ORDER <= ord <= K && Marked(t, t', K, n, ord, st)
    requires forall o: nat :: o in l' <==> if o == n then st.Free? else o in lists[ord]
    ensures Listed(K, t', lists[ord := l'])
  {
    var lists' := lists[ord := l'];
    forall i: nat, o: nat | MIN_ORDER <= i <= K
      ensures o in lists'[i] <==> IsFree(t', K, o, i)
    {
      assert o in lists[i] <==> IsFree(t, K, o, i);
    }
  }

  lemma RelistHeaders(K: nat, c: Memory, c': Memory, t: Tree, t': Tree, n: nat, ord: nat, st: Status, l: seq<nat>)
    requires WF(t, K) && HeadersOk(K, c, t) && Relinked(c, c', n, l) && Marked(t, t', K, n, ord, st)
    requires !st.Held? ==> n in c && HeaderOk(c[n], ord, if st.Used? then 1 else 0)
    ensures HeadersOk(K, c', t')
  {
  }

  /** Every free-list operation keeps the invariant, moving block `n` to status `st`. */
  lemma Relist(K: nat, c: Memory, c': Memory, heads: seq<int>, t: Tree, t': Tree, lists: seq<seq<nat>>,
               ord: nat, n: nat, st: Status, h': int, l': seq<nat>)
    requires Inv(K, c, heads, t, lists)
    requires MIN_ORDER <= ord <= K && Marked(t, t', K, n, ord, st)
    requires Relinked(c, c', n, lists[ord]) && Chain(c', h', l') && NoDup(l')
    requires forall o: nat :: o in l' <==> if o == n then st.Free? else o in lists[ord]
    requires !st.Held? ==> n in c && HeaderOk(c[n], ord, if st.Used? then 1 else 0)
    ensures Inv(K, c', heads[ord - MIN_ORDER := h'], t', lists[ord := l'])
  {
    RelistLists(K, c, c', heads, t, lists, ord, n, h', l');
    RelistListed(K, t, t', lists, ord, n, st, l');
    RelistHeaders(K, c, c', t, t', n, ord, st, lists[ord]);
  }

  /** Moving a block between held and used, with the header to match, concerns no list. */
  lemma Remark(K: nat, c: Memory, heads: seq<int>, t: Tree, t': Tree, lists: seq<seq<nat>>, ord: nat, n: nat,
               st: Status)
    requires Inv(K, c, heads, t, lists) && Marked(t, t', K, n, ord, st)
    requires !Lookup(t, K, n).st.Free? && !st.Free?
    requires st.Used? ==> n in c && HeaderOk(c[n], ord, 1)
    ensures Inv(K, c, heads, t', lists)
  {
    forall i: nat, o: nat | MIN_ORDER <= i <= K
      ensures o in lists[i] <==> IsFree(t', K, o, i)
    {
      assert o in lists[i] <==> IsFree(t, K, o, i);
    }
  }

  /** Rewriting a live or held block's links and body disturbs no live memory elsewhere. */
  lemma RelinkUndisturbed(K: nat, c: Memory, c': Memory, t: Tree, n: nat, l: seq<nat>)
    requires WF(t, K) && Relinked(c, c', n, l)
    requires Lookup(t, K, n).Block? && !Lookup(t, K, n).st.Used?
    requires forall o :: o in l ==> Lookup(t, K, o).Block? && Lookup(t, K, o).st.Free?
    ensures Undisturbed(K, t, c, c')
  {
    forall o: nat | o in c && o < Pow2(K) && StatusAt(t, K, o).Used? ensures c'[o] == c[o] {
      if o == n || o in l {
        StatusInBlock(t, K, o, o);
      }
    }
  }

  // ---- blocks an operation holds ---------------------------------------------------

  ghost predicate AllHeld(s: Tree) {
    match s
    case Leaf(st) => st.Held?
    case Node(l, r) => AllHeld(l) && AllHeld(r)
  }

  lemma {:induction false} AllHeldLookup(s: Tree, k: nat, x: nat)
    requires WF(s, k) && AllHeld(s)
    ensures Lookup(s, k, x).Block? ==> Lookup(s, k, x).st.Held?
  {
    if s.Node? {
      if x < Pow2(k - 1) {
        AllHeldLookup(s.left, k - 1, x);
      } else {
        AllHeldLookup(s.right, k - 1, x - Pow2(k - 1));
      }
    }
  }

  lemma {:induction false} AllHeldStatus(s: Tree, k: nat, x: nat)
    requires WF(s, k) && AllHeld(s) && x < Pow2(k)
    ensures StatusAt(s, k, x).Held?
  {
    if s.Node? {
      if x < Pow2(k - 1) {
        AllHeldStatus(s.left, k - 1, x);
      } else {
        AllHeldStatus(s.right, k - 1, x - Pow2(k - 1));
      }
    }
  }

  /** Cutting or joining blocks that are only held concerns neither headers nor lists. */
  lemma Reshape(K: nat, c: Memory, heads: seq<int>, t: Tree, lists: seq<seq<nat>>, off: nat, ord: nat, s: Tree)
    requires Inv(K, c, heads, t, lists)
    requires At(t, K, off, ord) && AllHeld(Sub(t, K, off, ord)) && WF(s, ord) && AllHeld(s)
    ensures Inv(K, c, heads, Put(t, K, off, ord, s), lists)
    ensures SameUsed(K, t, Put(t, K, off, ord, s))
  {
    var t' := Put(t, K, off, ord, s);
    forall x: nat
      ensures Lookup(t', K, x) == Lookup(t, K, x) || (NotOut(t, K, x) && NotOut(t', K, x))
    {
      ReshapeAt(t, K, off, ord, s, x);
    }
    assert forall i: nat, o: nat :: IsFree(t', K, o, i) <==> IsFree(t, K, o, i);
    forall x: nat | x < Pow2(K)
      ensures StatusAt(t, K, x).Used? <==> StatusAt(t', K, x).Used?
    {
      ReshapeStatus(t, K, off, ord, s, x);
    }
  }

  ghost predicate NotOut(t: Tree, K: nat, x: nat)
    requires WF(t, K)
  {
    Lookup(t, K, x).Block? ==> Lookup(t, K, x).st.Held?
  }

  lemma ReshapeAt(t: Tree, K: nat, off: nat, ord: nat, s: Tree, x: nat)
    requires WF(t, K) && At(t, K, off, ord) && AllHeld(Sub(t, K, off, ord)) && WF(s, ord) && AllHeld(s)
    ensures var t' := Put(t, K, off, ord, s);
            Lookup(t', K, x) == Lookup(t, K, x) || (NotOut(t, K, x) && NotOut(t', K, x))
  {
    PutLookup(t, K, off, ord, s, x);
    PutLookup(t, K, off, ord, Sub(t, K, off, ord), x);
    PutSame(t, K, off, ord);
    if off <= x < off + Pow2(ord) {
      AllHeldLookup(s, ord, x - off);
      AllHeldLookup(Sub(t, K, off, ord), ord, x - off);
    }
  }

  lemma ReshapeStatus(t: Tree, K: nat, off: nat, ord: nat, s: Tree, x: nat)
    requires WF(t, K) && At(t, K, off, ord) && AllHeld(Sub(t, K, off, ord)) && WF(s, ord) && AllHeld(s)
    requires x < Pow2(K)
    ensures StatusAt(t, K, x).Used? <==> StatusAt(Put(t, K, off, ord, s), K, x).Used?
  {
    PutStatus(t, K, off, ord, s, x);
    PutStatus(t, K, off, ord, Sub(t, K, off, ord), x);
    PutSame(t, K, off, ord);
    if off <= x < off + Pow2(ord) {
      AllHeldStatus(s, ord, x - off);
      AllHeldStatus(Sub(t, K, off, ord), ord, x - off);
    }
  }

  lemma BlockMapped(K: nat, c: Memory, t: Tree, n: nat)
    requires WF(t, K) && Mapped(K, c) && Lookup(t, K, n).Block?
    ensures n in c
  {
    LookupIsLeaf(t, K, n, Lookup(t, K, n).order, Lookup(t, K, n).st);
    RootMapped(t, K, n, Lookup(t, K, n).order);
  }

  /** The memory of a held block may be written freely. */
  lemma HeldWrite(K: nat, c: Memory, heads: seq<int>, t: Tree, lists: seq<seq<nat>>, n: nat, v: Cell)
    requires Inv(K, c, heads, t, lists)
    requires Lookup(t, K, n).Block? && Lookup(t, K, n).st.Held?
    ensures n in c
    ensures Inv(K, c[n := v], heads, t, lists)
    ensures Undisturbed(K, t, c, c[n := v])
  {
    LookupIsLeaf(t, K, n, Lookup(t, K, n).order, Held);
    RootMapped(t, K, n, Lookup(t, K, n).order);
    StatusInBlock(t, K, n, n);
    var c' := c[n := v];
    forall i: nat | MIN_ORDER <= i <= K
      ensures Chain(c', heads[i - MIN_ORDER], lists[i]) && NoDup(lists[i])
    {
      assert !IsFree(t, K, n, i);
      var l := lists[i];
      forall j: nat ensures Linked(c', l, j) {
        assert Linked(c, l, j) && (j < |l| ==> l[j] in l);
      }
    }
  }

  /** A caller writing inside its live block: anything but the block's own header. */
  lemma PayloadWrite(K: nat, c: Memory, heads: seq<int>, t: Tree, lists: seq<seq<nat>>, o: nat, v: Cell)
    requires Inv(K, c, heads, t, lists)
    requires o in c && o < Pow2(K) && StatusAt(t, K, o).Used?
    requires Lookup(t, K, o).Block? ==> v.(next := c[o].next, rest := c[o].rest) == c[o]
    ensures Inv(K, c[o := v], heads, t, lists)
  {
    var c' := c[o := v];
    if Lookup(t, K, o).Block? {
      StatusInBlock(t, K, o, o);
    }
    forall i: nat | MIN_ORDER <= i <= K
      ensures Chain(c', heads[i - MIN_ORDER], lists[i]) && NoDup(lists[i])
    {
      assert !IsFree(t, K, o, i);
      var l := lists[i];
      forall j: nat ensures Linked(c', l, j) {
        assert Linked(c, l, j) && (j < |l| ==> l[j] in l);
      }
    }
  }

  lemma UndisturbedTrans(K: nat, t: Tree, t': Tree, c: Memory, c': Memory, c'': Memory)
    requires WF(t, K) && WF(t', K) && SameUsed(K, t, t')
    requires Undisturbed(K, t, c, c') && Undisturbed(K, t', c', c'')
    ensures Undisturbed(K, t, c, c'')
  {
  }

  // ---- lists with one node less or more ----------------------------------------------

  function Without(l: seq<nat>, i: nat): seq<nat>
    requires i < |l|
  {
    l[..i] + l[i + 1..]
  }

  lemma WithoutMembers(l: seq<nat>, i: nat)
    requires i < |l| && NoDup(l)
    ensures NoDup(Without(l, i))
    ensures forall o: nat :: o in Without(l, i) <==> o in l && o != l[i]
  {
    var m := Without(l, i);
    forall o: nat ensures o in m <==> o in l && o != l[i] {
      if o in l && o != l[i] {
        var j :| 0 <= j < |l| && l[j] == o;
        if j < i {
          assert m[j] == o;
        } else {
          assert m[j - 1] == o;
        }
      }
    }
  }

  /** Unlinking node `i`: its predecessor (or the head) takes over its link. */
  ghost function Unlinked(c: Memory, l: seq<nat>, i: nat): Memory
    requires i < |l| && l[i] in c && (i > 0 ==> l[i - 1] in c)
  {
    var nx := c[l[i]].next;
    var c1 := if i > 0 then c[l[i - 1] := c[l[i - 1]].(next := nx)] else c;
    c1[l[i] := c1[l[i]].(next := NULL)]
  }

  lemma UnlinkedNext(c: Memory, head: int, l: seq<nat>, i: nat, j: nat)
    requires Chain(c, head, l) && NoDup(l) && i < |l| && j < |l| && j != i
    ensures l[i] in c && l[j] in c && (i > 0 ==> l[i - 1] in c)
    ensures l[j] in Unlinked(c, l, i)
    ensures Unlinked(c, l, i)[l[j]].next == Nth(l, if j + 1 == i then i + 1 else j + 1)
  {
    assert Linked(c, l, i) && Linked(c, l, j);
    if i > 0 {
      assert Linked(c, l, i - 1);
    }
    assert l[j] != l[i];
    if i > 0 && j != i - 1 {
      assert l[j] != l[i - 1];
    }
  }

  lemma Unlink(c: Memory, head: int, l: seq<nat>, i: nat)
    requires Chain(c, head, l) && NoDup(l) && i < |l|
    ensures l[i] in c && (i > 0 ==> l[i - 1] in c)
    ensures Chain(Unlinked(c, l, i), if i > 0 then head else c[l[i]].next, Without(l, i))
    ensures Relinked(c, Unlinked(c, l, i), l[i], l)
  {
    assert Linked(c, l, i) && (i > 0 ==> Linked(c, l, i - 1));
    UnlinkRelinks(c, l, i);
    var c2, m := Unlinked(c, l, i), Without(l, i);
    forall j: nat ensures Linked(c2, m, j) {
      if j < |m| {
        UnlinkedAt(c, head, l, i, j);
      }
    }
  }

  lemma UnlinkedAt(c: Memory, head: int, l: seq<nat>, i: nat, j: nat)
    requires Chain(c, head, l) && NoDup(l) && i < |l| && j < |l| - 1
    ensures l[i] in c && (i > 0 ==> l[i - 1] in c)
    ensures var c2, m := Unlinked(c, l, i), Without(l, i); m[j] in c2 && c2[m[j]].next == Nth(m, j + 1)
  {
    var j' := if j < i then j else j + 1;
    assert Linked(c, l, i) && (i > 0 ==> Linked(c, l, i - 1));
    UnlinkedNext(c, head, l, i, j');
    WithoutAt(l, i, j);
    if j + 1 < |l| - 1 {
      WithoutAt(l, i, j + 1);
    }
  }

  lemma WithoutAt(l: seq<nat>, i: nat, j: nat)
    requires i < |l| && j < |l| - 1
    ensures |Without(l, i)| == |l| - 1 && Without(l, i)[j] == l[if j < i then j else j + 1]
  {
  }

  lemma UnlinkRelinks(c: Memory, l: seq<nat>, i: nat)
    requires i < |l| && l[i] in c && (i > 0 ==> l[i - 1] in c)
    ensures Relinked(c, Unlinked(c, l, i), l[i], l)
  {
    assert i > 0 ==> l[i - 1] in l;
  }

  /** Taking node `i` off the list of `ord` leaves its block held. */
  lemma UnlinkInv(K: nat, c: Memory, heads: seq<int>, t: Tree, lists: seq<seq<nat>>, ord: nat, i: nat)
    requires Inv(K, c, heads, t, lists) && MIN_ORDER <= ord <= K && i < |lists[ord]|
    ensures var l := lists[ord];
            && l[i] in c && (i > 0 ==> l[i - 1] in c) && IsFree(t, K, l[i], ord)
            && Inv(K, Unlinked(c, l, i), if i > 0 then heads else heads[ord - MIN_ORDER := c[l[i]].next],
                   Mark(t, K, l[i], ord, Held), lists[ord := Without(l, i)])
  {
    var l := lists[ord];
    var n, h := l[i], heads[ord - MIN_ORDER];
    assert Chain(c, h, l) && NoDup(l);
    Unlink(c, h, l, i);
    WithoutMembers(l, i);
    assert n in l && IsFree(t, K, n, ord);
    MarkAll(t, K, n, ord, Held);
    UpdateSame(heads, ord - MIN_ORDER);
    var first := if i > 0 then h else c[n].next;
    Relist(K, c, Unlinked(c, l, i), heads, t, Mark(t, K, n, ord, Held), lists, ord, n, Held, first, Without(l, i));
  }

  lemma UpdateSame(s: seq<int>, i: nat)
    requires i < |s|
    ensures s[i := s[i]] == s
  {
  }

  /** And it touches nothing that is live. */
  lemma UnlinkFrame(K: nat, c: Memory, heads: seq<int>, t: Tree, lists: seq<seq<nat>>, ord: nat, i: nat)
    requires Inv(K, c, heads, t, lists) && MIN_ORDER <= ord <= K && i < |lists[ord]|
    ensures var l := lists[ord];
            && l[i] in c && (i > 0 ==> l[i - 1] in c) && IsFree(t, K, l[i], ord)
            && SameUsed(K, t, Mark(t, K, l[i], ord, Held))
            && Undisturbed(K, t, c, Unlinked(c, l, i))
            && Relinked(c, Unlinked(c, l, i), l[i], l)
  {
    var l := lists[ord];
    var n := l[i];
    assert Chain(c, heads[ord - MIN_ORDER], l) && NoDup(l);
    Unlink(c, heads[ord - MIN_ORDER], l, i);
    assert n in l && IsFree(t, K, n, ord);
    MarkSameUsed(t, K, n, ord, Held);
    forall o | o in l ensures IsFree(t, K, o, ord) {}
    RelinkUndisturbed(K, c, Unlinked(c, l, i), t, n, l);
  }

  /** Putting a held block on the list of its order. */
  lemma PushKeeps(K: nat, c: Memory, heads: seq<int>, t: Tree, lists: seq<seq<nat>>, ord: nat, n: nat)
    requires Inv(K, c, heads, t, lists) && MIN_ORDER <= ord <= K
    requires Lookup(t, K, n) == Block(ord, Held) && n in c && HeaderOk(c[n], ord, 0)
    ensures var c' := c[n := c[n].(next := heads[ord - MIN_ORDER])];
            && Inv(K, c', heads[ord - MIN_ORDER := n as int], Mark(t, K, n, ord, Free), lists[ord := [n] + lists[ord]])
            && SameUsed(K, t, Mark(t, K, n, ord, Free))
            && Undisturbed(K, t, c, c')
  {
    PushInv(K, c, heads, t, lists, ord, n);
    PushFrame(K, c, t, ord, n, c[n].(next := heads[ord - MIN_ORDER]));
  }

  lemma PushInv(K: nat, c: Memory, heads: seq<int>, t: Tree, lists: seq<seq<nat>>, ord: nat, n: nat)
    requires Inv(K, c, heads, t, lists) && MIN_ORDER <= ord <= K
    requires Lookup(t, K, n) == Block(ord, Held) && n in c && HeaderOk(c[n], ord, 0)
    ensures Inv(K, c[n := c[n].(next := heads[ord - MIN_ORDER])], heads[ord - MIN_ORDER := n as int],
                Mark(t, K, n, ord, Free), lists[ord := [n] + lists[ord]])
  {
    var l, h := lists[ord], heads[ord - MIN_ORDER];
    assert Chain(c, h, l) && NoDup(l);
    assert !IsFree(t, K, n, ord);
    PushChain(c, h, l, n);
    MarkAll(t, K, n, ord, Free);
    Relist(K, c, c[n := c[n].(next := h)], heads, t, Mark(t, K, n, ord, Free), lists, ord, n, Free, n, [n] + l);
  }

  lemma PushChain(c: Memory, h: int, l: seq<nat>, n: nat)
    requires Chain(c, h, l) && NoDup(l) && n in c && n !in l
    ensures Chain(c[n := c[n].(next := h)], n, [n] + l) && NoDup([n] + l)
  {
    var c', m := c[n := c[n].(next := h)], [n] + l;
    forall j: nat ensures Linked(c', m, j) {
      if 0 < j < |m| {
        assert m[j] == l[j - 1] && l[j - 1] in l && Linked(c, l, j - 1);
      }
    }
  }

  lemma PushFrame(K: nat, c: Memory, t: Tree, ord: nat, n: nat, v: Cell)
    requires WF(t, K) && Lookup(t, K, n) == Block(ord, Held)
    ensures SameUsed(K, t, Mark(t, K, n, ord, Free)) && Undisturbed(K, t, c, c[n := v])
  {
    MarkSameUsed(t, K, n, ord, Free);
    StatusInBlock(t, K, n, n);
  }

  /** Marking a held block as handed out, once its header says so. */
  lemma HandOutKeeps(K: nat, c: Memory, heads: seq<int>, t: Tree, lists: seq<seq<nat>>, ord: nat, n: nat)
    requires Inv(K, c, heads, t, lists) && MIN_ORDER <= ord <= K
    requires Lookup(t, K, n) == Block(ord, Held) && n in c && HeaderOk(c[n], ord, 1)
    ensures Inv(K, c, heads, Mark(t, K, n, ord, Used), lists)
  {
    MarkAll(t, K, n, ord, Used);
    Remark(K, c, heads, t, Mark(t, K, n, ord, Used), lists, ord, n, Used);
  }

  /** No free block of an order in [lo, hi). */
  ghost predicate NoFree(t: Tree, K: nat, lo: nat, hi: nat)
    requires WF(t, K)
  {
    forall o: nat, i: nat :: lo <= i < hi ==> !IsFree(t, K, o, i)
  }

  lemma EmptyNoFree(K: nat, t: Tree, lists: seq<seq<nat>>, lo: nat, cur: nat)
    requires WF(t, K) && |lists| == K + 1 && Listed(K, t, lists)
    requires MIN_ORDER <= lo <= cur <= K && NoFree(t, K, lo, cur) && lists[cur] == []
    ensures NoFree(t, K, lo, cur + 1)
  {
    forall o: nat, i: nat | lo <= i < cur + 1 ensures !IsFree(t, K, o, i) {
      if i == cur {
        assert o !in lists[cur];
      }
    }
  }

  /** No free block is as large as `need`. */
  ghost predicate NoRoom(t: Tree, K: nat, need: nat)
    requires WF(t, K)
  {
    forall o: nat, i: nat :: IsFree(t, K, o, i) ==> Pow2(i) < need
  }

  lemma TooLargeNoRoom(t: Tree, K: nat, need: nat)
    requires WF(t, K) && need > Pow2(K)
    ensures NoRoom(t, K, need)
  {
    forall o: nat, i: nat | IsFree(t, K, o, i) ensures Pow2(i) < need {
      Pow2Monotone(i, K);
    }
  }

  lemma {:induction false} SettledLookup(t: Tree, K: nat, o: nat)
    requires WF(t, K) && Settled(t)
    ensures Lookup(t, K, o).Block? ==> !Lookup(t, K, o).st.Held?
  {
    if t.Node? {
      if o < Pow2(K - 1) {
        SettledLookup(t.left, K - 1, o);
      } else {
        SettledLookup(t.right, K - 1, o - Pow2(K - 1));
      }
    }
  }

  /** The one block an operation holds is the one at `n`. */
  ghost predicate OnlyHeld(t: Tree, K: nat, n: nat)
    requires WF(t, K)
  {
    forall o: nat :: Lookup(t, K, o).Block? && Lookup(t, K, o).st.Held? ==> o == n
  }

  /** Taking a live block back: the block becomes held. */
  lemma TakeBackKeeps(K: nat, c: Memory, heads: seq<int>, t: Tree, lists: seq<seq<nat>>, ord: nat, n: nat)
    requires Inv(K, c, heads, t, lists) && Settled(t)
    requires Lookup(t, K, n) == Block(ord, Used)
    ensures n in c
    ensures Inv(K, c, heads, Mark(t, K, n, ord, Held), lists)
    ensures OnlyHeld(Mark(t, K, n, ord, Held), K, n)
  {
    BlockMapped(K, c, t, n);
    var t' := Mark(t, K, n, ord, Held);
    MarkAll(t, K, n, ord, Held);
    Remark(K, c, heads, t, t', lists, ord, n, Held);
    forall o: nat | Lookup(t', K, o).Block? && Lookup(t', K, o).st.Held? ensures o == n {
      SettledLookup(t, K, o);
    }
  }

  /**
   The header a merge reads is always the header of a block: a block starts at the XOR offset,
   it is no larger than the block being freed, and what its header says is true of it.
   */
  lemma BuddyHeaderIsReal(K: nat, c: Memory, heads: seq<int>, t: Tree, lists: seq<seq<nat>>, off: nat, ord: nat)
    requires Inv(K, c, heads, t, lists)
    requires Lookup(t, K, off) == Block(ord, Held) && ord < K && OnlyHeld(t, K, off)
    ensures var b := Xor(off, Pow2(ord));
            && b < Pow2(K) && b in c
            && Lookup(t, K, b).Block? && Lookup(t, K, b).order <= ord && b != off
            && c[b].magic == MAGIC
            && (c[b].used == 0 && c[b].order == ord <==> IsFree(t, K, b, ord))
  {
    LookupIsLeaf(t, K, off, ord, Held);
    var p, b := XorSiblings(t, K, off, ord);
    BlockAtRoot(t, K, b, ord);
    BlockMapped(K, c, t, b);
  }

  /** What one merge of `free_locked` does to the arena. */
  ghost function Join(t: Tree, K: nat, p: nat, ord: nat): (t': Tree)
    requires WF(t, K) && At(t, K, p, ord + 1) && ord + 1 >= MIN_ORDER
    ensures WF(t', K)
  {
    Put(t, K, p, ord + 1, Leaf(Held))
  }

  lemma JoinKeeps(K: nat, c: Memory, heads: seq<int>, t: Tree, t1: Tree, lists: seq<seq<nat>>, off: nat, ord: nat)
    requires Inv(K, c, heads, t1, lists) && WF(t, K)
    requires Lookup(t, K, off) == Block(ord, Held) && ord < K && OnlyHeld(t, K, off)
    requires IsFree(t, K, Xor(off, Pow2(ord)), ord) && t1 == Mark(t, K, Xor(off, Pow2(ord)), ord, Held)
    ensures var b := Xor(off, Pow2(ord));
            var p := if b < off then b else off;
            && At(t, K, off, ord) && At(t1, K, p, ord + 1)
            && Inv(K, c, heads, Join(t1, K, p, ord), lists)
            && SameUsed(K, t1, Join(t1, K, p, ord))
            && Lookup(Join(t1, K, p, ord), K, p) == Block(ord + 1, Held)
            && At(Join(t1, K, p, ord), K, p, ord + 1)
            && Release(Join(t1, K, p, ord), K, p, ord + 1) == Release(t, K, off, ord)
            && OnlyHeld(Join(t1, K, p, ord), K, p)
  {
    LookupIsLeaf(t, K, off, ord, Held);
    var p, b := XorSiblings(t, K, off, ord);
    LookupIsLeaf(t, K, b, ord, Free);
    BothHalvesHeld(t, K, p, ord, off, b);
    Reshape(K, c, heads, t1, lists, p, ord + 1, Leaf(Held));
    JoinTree(t, K, off, ord, p, b);
  }

  /** On the tree: the joined block is the one held, and releasing it is releasing the half it came from. */
  lemma JoinTree(t: Tree, K: nat, off: nat, ord: nat, p: nat, b: nat)
    requires WF(t, K) && ord < K && MIN_ORDER <= ord && Halves(t, K, p, ord) && At(t, K, off, ord) && At(t, K, b, ord)
    requires (off == p && b == p + Pow2(ord)) || (off == p + Pow2(ord) && b == p)
    requires Sub(t, K, off, ord) == Leaf(Held) && Sub(t, K, b, ord) == Leaf(Free) && OnlyHeld(t, K, off)
    ensures var t1 := Put(t, K, b, ord, Leaf(Held));
            At(t1, K, p, ord + 1) && At(Join(t1, K, p, ord), K, p, ord + 1)
    ensures var t2 := Join(Put(t, K, b, ord, Leaf(Held)), K, p, ord);
            && Lookup(t2, K, p) == Block(ord + 1, Held)
            && Release(t2, K, p, ord + 1) == Release(t, K, off, ord)
            && OnlyHeld(t2, K, p)
  {
    BothHalvesHeld(t, K, p, ord, off, b);
    MergeStep(t, K, p, ord, off);
    PutAbsorbs(t, K, p, ord, b, Leaf(Held), Leaf(Held));
    ReleaseIgnores(t, K, p, ord + 1, Leaf(Held));
    PutSub(t, K, p, ord + 1, Leaf(Held));
    var t2 := Put(t, K, p, ord + 1, Leaf(Held));
    LookupIsLeaf(t2, K, p, ord + 1, Held);
    forall o: nat | Lookup(t2, K, o).Block? && Lookup(t2, K, o).st.Held? ensures o == p {
      PutLookup(t, K, p, ord + 1, Leaf(Held), o);
    }
  }

  lemma BothHalvesHeld(t: Tree, K: nat, p: nat, ord: nat, off: nat, b: nat)
    requires WF(t, K) && At(t, K, p, ord + 1) && At(t, K, p, ord) && At(t, K, p + Pow2(ord), ord)
    requires Sub(t, K, p, ord + 1) == Node(Sub(t, K, p, ord), Sub(t, K, p + Pow2(ord), ord))
    requires (off == p && b == p + Pow2(ord)) || (off == p + Pow2(ord) && b == p)
    requires Sub(t, K, off, ord) == Leaf(Held) && At(t, K, b, ord)
    ensures var t1 := Put(t, K, b, ord, Leaf(Held));
            At(t1, K, p, ord + 1) && Sub(t1, K, p, ord + 1) == Node(Leaf(Held), Leaf(Held))
  {
    PutSame(t, K, p, ord + 1);
    var l, r := Sub(t, K, p, ord), Sub(t, K, p + Pow2(ord), ord);
    PutLeft(t, K, p, ord, l, r, Leaf(Held));
    PutRight(t, K, p, ord, l, r, Leaf(Held));
    PutSub(t, K, p, ord + 1, Node(Leaf(Held), r));
    PutSub(t, K, p, ord + 1, Node(l, Leaf(Held)));
  }

  ghost function Members(l: seq<nat>): set<nat> {
    set o: nat | o in l
  }

  lemma {:induction false} NoDupSize(l: seq<nat>)
    requires NoDup(l)
    ensures |Members(l)| == |l|
  {
    if l != [] {
      var m := l[1..];
      NoDupSize(m);
      assert l[0] !in m;
      assert Members(l) == Members(m) + {l[0]};
    }
  }

  /** A free list is as long as there are free blocks of its order. */
  lemma ListLength(K: nat, c: Memory, heads: seq<int>, t: Tree, lists: seq<seq<nat>>, ord: nat)
    requires Inv(K, c, heads, t, lists) && MIN_ORDER <= ord <= K
    ensures |lists[ord]| == CountFree(t, K, ord)
  {
    var l := lists[ord];
    assert NoDup(l);
    NoDupSize(l);
    FreeSetSize(t, K, ord);
    forall o: nat ensures o in Members(l) <==> o in FreeSet(t, K, ord) {
      assert o in l <==> IsFree(t, K, o, ord);
    }
    assert Members(l) == FreeSet(t, K, ord);
  }

  // ---- requests and their outcome -----------------------------------------------------

  /** Bytes a request takes with its header; the addition wraps like size_t. */
  function Need(size: nat): nat {
    ((if size == 0 then 1 else size) + HDR) % SIZE_WRAP
  }

  predicate Fits(need: nat, ord: nat) {
    MIN_ORDER <= ord && need <= Pow2(ord)
  }

  /** The order a request is served with: the least that fits, and at least the minimum. */
  ghost predicate OrderFor(need: nat, ord: nat) {
    Fits(need, ord) && forall j: nat :: Fits(need, j) ==> ord <= j
  }

  method RequestOrder(need: nat) returns (ord: nat)
    ensures OrderFor(need, ord)
  {
    ord := CeilLog2(need);
    if ord < MIN_ORDER {
      Pow2Monotone(ord, MIN_ORDER);
      ord := MIN_ORDER;
    }
  }

  /** The largest order, up to the maximum, that fits in the buffer. */
  method ArenaOrder(usable: nat) returns (k: nat)
    requires usable >= Pow2(MIN_ORDER)
    ensures MIN_ORDER <= k <= MAX_ORDER && Pow2(k) <= usable
    ensures k < MAX_ORDER ==> usable < Pow2(k + 1)
  {
    k := FloorLog2(usable);
    if k < MIN_ORDER {
      Pow2Monotone(k + 1, MIN_ORDER);
    }
    if k > MAX_ORDER {
      Pow2Monotone(MAX_ORDER, k);
      k := MAX_ORDER;
    }
  }

  function InitRoot(k: nat): Cell {
    Cell(MAGIC, k, 0, 0, NULL, 0)
  }

  ghost function InitLists(k: nat): seq<seq<nat>> {
    seq(k + 1, i => if i == k then [0] else [])
  }

  ghost function InitHeads(k: nat): seq<int> {
    seq(LISTS, i => if i == k - MIN_ORDER then 0 else NULL)
  }

  lemma InitInv(k: nat, buffer: Memory)
    requires MIN_ORDER <= k <= MAX_ORDER
    requires forall o: nat :: o < Pow2(k) && o % 32 == 0 ==> o in buffer
    ensures Inv(k, buffer[0 := InitRoot(k)], InitHeads(k), Leaf(Free), InitLists(k))
    ensures Live(Leaf(Free), k) == map[]
  {
    var c, lists, heads := buffer[0 := InitRoot(k)], InitLists(k), InitHeads(k);
    forall ord: nat | MIN_ORDER <= ord <= k
      ensures Chain(c, heads[ord - MIN_ORDER], lists[ord]) && NoDup(lists[ord])
    {
    }
    assert Live(Leaf(Free), k) == map[];
  }

  lemma RoomByOrder(t: Tree, K: nat, need: nat, ord: nat)
    requires WF(t, K) && OrderFor(need, ord)
    ensures NoRoom(t, K, need) <==> NoFree(t, K, ord, K + 1)
  {
    forall o: nat, i: nat | IsFree(t, K, o, i)
      ensures need <= Pow2(i) <==> ord <= i <= K
    {
      assert Fits(need, i) <==> need <= Pow2(i);
      if ord <= i {
        Pow2Monotone(ord, i);
      }
    }
  }

  lemma HeaderOfLive(K: nat, c: Memory, t: Tree, n: nat)
    requires WF(t, K) && HeadersOk(K, c, t) && IsUsed(t, K, n)
    ensures n in c && HeaderOk(c[n], Lookup(t, K, n).order, 1)
  {
  }

  lemma NoFreeHalf(t: Tree, K: nat, off: nat, ord: nat, p: nat, b: nat)
    requires WF(t, K) && At(t, K, p, ord + 1) && At(t, K, p, ord) && At(t, K, p + Pow2(ord), ord)
    requires MIN_ORDER <= ord && At(t, K, off, ord) && At(t, K, b, ord) && !IsFree(t, K, b, ord)
    requires (off == p && b == p + Pow2(ord)) || (off == p + Pow2(ord) && b == p)
    ensures Release(t, K, off, ord) == Put(t, K, off, ord, Leaf(Free))
  {
    LookupIsLeaf(t, K, b, ord, Free);
    NoMerge(t, K, p, ord, off);
  }

  /** When the block at the XOR offset is not a free block of the same order, nothing merges. */
  lemma NoFreeSibling(t: Tree, K: nat, off: nat, ord: nat)
    requires WF(t, K) && Lookup(t, K, off) == Block(ord, Held) && ord < K
    ensures At(t, K, off, ord)
    ensures !IsFree(t, K, Xor(off, Pow2(ord)), ord) ==>
              Release(t, K, off, ord) == Put(t, K, off, ord, Leaf(Free))
  {
    LookupIsLeaf(t, K, off, ord, Held);
    var p, b := XorSiblings(t, K, off, ord);
    if !IsFree(t, K, b, ord) {
      NoFreeHalf(t, K, off, ord, p, b);
    }
  }

  /** `op` is how a request is served: the least order that fits, cut from the smallest free block that holds it. */
  ghost predicate Served(t: Tree, K: nat, size: nat, p: int, op: Op)
    requires WF(t, K)
  {
    && op.Take? && p == op.from + HDR && Enabled(t, K, op)
    && OrderFor(Need(size), op.order) && NoFree(t, K, op.order, op.fromOrder)
  }

  /**
   What an allocation does: NULL exactly when no free block is large enough, and then nothing
   changes; otherwise one step of the arena. Live memory is never touched.
   */
  ghost predicate Outcome(K: nat, t: Tree, c: Memory, size: nat, p: int, op: Op, t': Tree, c': Memory) {
    && WF(t, K) && WF(t', K)
    && (p == NULL <==> NoRoom(t, K, Need(size)))
    && (p == NULL ==> t' == t && c' == c)
    && (p != NULL ==> Served(t, K, size, p, op) && t' == Step(t, K, op))
    && Undisturbed(K, t, c, c')
  }

  lemma ServedOutcome(K: nat, t: Tree, c: Memory, size: nat, n: nat, cur: nat, ord: nat, t': Tree, c': Memory)
    requires WF(t, K) && WF(t', K) && IsFree(t, K, n, cur) && MIN_ORDER <= ord <= cur && OrderFor(Need(size), ord)
    requires NoFree(t, K, ord, cur) && Undisturbed(K, t, c, c')
    requires At(t, K, n, cur) && t' == Put(t, K, n, cur, Split(cur, ord, Used))
    ensures Outcome(K, t, c, size, n + HDR, Take(n, cur, ord), t', c')
  {
    Pow2Monotone(ord, cur);
    assert IsFree(t, K, n, cur) && Need(size) <= Pow2(cur);
  }

  lemma NotFoundOutcome(K: nat, t: Tree, c: Memory, size: nat, ord: nat, op: Op)
    requires WF(t, K) && OrderFor(Need(size), ord) && NoFree(t, K, ord, K + 1)
    ensures Outcome(K, t, c, size, NULL, op, t, c)
  {
    RoomByOrder(t, K, Need(size), ord);
  }

  lemma RefusedOutcome(K: nat, t: Tree, c: Memory, size: nat, op: Op)
    requires WF(t, K) && NoRoom(t, K, Need(size))
    ensures Outcome(K, t, c, size, NULL, op, t, c)
  {
  }

  /** A successful allocation adds exactly its own block, fresh and large enough, to the live ones. */
  lemma OutcomeLive(K: nat, t: Tree, c: Memory, size: nat, p: int, op: Op, t': Tree, c': Memory)
    requires Outcome(K, t, c, size, p, op, t', c') && p != NULL && Coalesced(t) && Settled(t)
    ensures Coalesced(t') && Settled(t')
    ensures op.from !in Live(t, K) && Live(t', K) == Live(t, K)[op.from := op.order]
    ensures p == op.from + HDR && Lookup(t', K, op.from) == Block(op.order, Used)
    ensures Bytes(t', K, Used) == Bytes(t, K, Used) + Pow2(op.order)
  {
    StepKeeps(t, K, op);
  }

  datatype Stats = Stats(allocCalls: nat, freeCalls: nat, failures: nat, bytesInUse: nat, bytesPeak: nat)

  /** The counters after a successful allocation of `bytes`. */
  function Charged(s: Stats, bytes: nat): Stats {
    var inUse := s.bytesInUse + bytes;
    s.(allocCalls := s.allocCalls + 1, bytesInUse := inUse,
       bytesPeak := if inUse > s.bytesPeak then inUse else s.bytesPeak)
  }

  /** The counters after a block of `bytes` came back. */
  function Refunded(s: Stats, bytes: nat): Stats
    requires bytes <= s.bytesInUse
  {
    s.(freeCalls := s.freeCalls + 1, bytesInUse := s.bytesInUse - bytes)
  }

  /** Taking a live block back and releasing it from there is one step of the arena. */
  lemma FreeKeeps(t: Tree, K: nat, off: nat, ord: nat)
    requires WF(t, K) && Coalesced(t) && Settled(t) && Lookup(t, K, off) == Block(ord, Used)
    ensures Lookup(Mark(t, K, off, ord, Held), K, off) == Block(ord, Held)
    ensures At(Mark(t, K, off, ord, Held), K, off, ord)
    ensures Release(Mark(t, K, off, ord, Held), K, off, ord) == Step(t, K, Give(off))
    ensures Coalesced(Step(t, K, Give(off))) && Settled(Step(t, K, Give(off)))
    ensures Bytes(Step(t, K, Give(off)), K, Used) == Bytes(t, K, Used) - Pow2(ord)
  {
    LookupIsLeaf(t, K, off, ord, Used);
    ReleaseIgnores(t, K, off, ord, Leaf(Held));
    MarkAt(t, K, off, ord, Held, off);
    StepKeeps(t, K, Give(off));
  }

  /** The block a request gets holds `size` bytes exactly when adding the header does not wrap. */
  lemma HoldsIffNoWrap(size: nat, ord: nat)
    requires size < SIZE_WRAP && OrderFor(Need(size), ord)
    ensures size + HDR <= Pow2(ord) <==> size + HDR < SIZE_WRAP
  {
    if size + HDR >= SIZE_WRAP {
      assert Need(size) < HDR;
      assert Fits(Need(size), MIN_ORDER) by { assert Pow2(5) == 32 by { assert Pow2(3) == 8; } }
      assert Pow2(ord) == 32 by { assert Pow2(5) == 32 by { assert Pow2(3) == 8; } }
    }
  }

  /**
   What a request for `size` bytes gets, in terms of the size alone: a block that holds them (one byte
   for none) and the header and is no larger than it must be, and NULL exactly when no free block
   holds them. When the sum with the header wraps, any free block will do and the smallest is given.
   */
  ghost predicate Fitting(K: nat, t: Tree, size: nat, p: int, ord: nat)
    requires WF(t, K)
  {
    var bytes := (if size == 0 then 1 else size) + HDR;
    if bytes < SIZE_WRAP then
      && (p == NULL <==> NoRoom(t, K, bytes))
      && (p != NULL ==> bytes <= Pow2(ord) && (ord > MIN_ORDER ==> Pow2(ord - 1) < bytes))
    else
      && (p == NULL <==> NoRoom(t, K, 1))
      && (p != NULL ==> ord == MIN_ORDER)
  }

  lemma TightOrder(bytes: nat, ord: nat)
    requires OrderFor(bytes, ord) && ord > MIN_ORDER
    ensures Pow2(ord - 1) < bytes
  {
    assert !Fits(bytes, ord - 1);
  }

  /** A need below the smallest block is served from any free block, with the smallest order. */
  lemma SmallNeed(t: Tree, K: nat, need: nat)
    requires WF(t, K) && need < HDR
    ensures NoRoom(t, K, need) <==> NoRoom(t, K, 1)
    ensures forall ord: nat :: OrderFor(need, ord) ==> ord == MIN_ORDER
  {
    assert Pow2(MIN_ORDER) == 32 by { assert Pow2(3) == 8; }
    assert Fits(need, MIN_ORDER);
    forall o: nat, i: nat | IsFree(t, K, o, i) ensures Pow2(i) >= 32 {
      Pow2Monotone(MIN_ORDER, i);
    }
  }

  lemma OutcomeFits(K: nat, t: Tree, c: Memory, size: nat, p: int, op: Op, t': Tree, c': Memory)
    requires size < SIZE_WRAP && Outcome(K, t, c, size, p, op, t', c')
    ensures Fitting(K, t, size, p, if op.Take? then op.order else 0)
  {
    var bytes := (if size == 0 then 1 else size) + HDR;
    if bytes < SIZE_WRAP {
      assert Need(size) == bytes;
      if p != NULL && op.order > MIN_ORDER {
        TightOrder(bytes, op.order);
      }
    } else {
      assert Need(size) == bytes - SIZE_WRAP;
      SmallNeed(t, K, Need(size));
    }
  }

  /** No two live user regions overlap, and each lies inside the arena after its own header. */
  lemma RegionsDisjoint(t: Tree, K: nat, a: nat, b: nat)
    requires WF(t, K) && IsUsed(t, K, a) && IsUsed(t, K, b) && a < b
    ensures a + HDR + (Pow2(Lookup(t, K, a).order) - HDR) < b + HDR
    ensures b + Pow2(Lookup(t, K, b).order) <= Pow2(K)
  {
    BlocksDisjoint(t, K, a, b);
  }

  // ---- copying between live blocks ----------------------------------------------------

  ghost predicate Payload(c: Memory, c': Memory, src: nat, dst: nat, size: nat) {
    && src in c && dst in c'
    && c'[dst].next == c[src].next && c'[dst].rest == c[src].rest
    && forall g: nat :: 32 <= g < size && g % 32 == 0 ==>
         src + g in c && dst + g in c' && c'[dst + g] == c[src + g]
  }

  lemma GranuleSum(n: nat, g: nat)
    requires n % 32 == 0 && g % 32 == 0
    ensures (n + g) % 32 == 0
  {
    assert n + g == 32 * (n / 32 + g / 32);
  }

  lemma LiveMapped(K: nat, c: Memory, t: Tree, n: nat, g: nat)
    requires WF(t, K) && Mapped(K, c) && IsUsed(t, K, n) && g < Pow2(Lookup(t, K, n).order) && g % 32 == 0
    ensures n + g in c && n + g < Pow2(K) && StatusAt(t, K, n + g).Used?
    ensures g > 0 ==> Lookup(t, K, n + g).Nothing?
  {
    var ord := Lookup(t, K, n).order;
    LookupIsLeaf(t, K, n, ord, Used);
    RootMapped(t, K, n, ord);
    GranuleSum(n, g);
    StatusInBlock(t, K, n, n + g);
    if g > 0 && Lookup(t, K, n + g).Block? {
      BlocksDisjoint(t, K, n, n + g);
    }
  }

  /** What is stored in one live block survives an operation that leaves that block alone. */
  lemma PayloadSurvives(K: nat, t: Tree, c: Memory, c': Memory, c'': Memory, src: nat, dst: nat, size: nat)
    requires WF(t, K) && Mapped(K, c') && IsUsed(t, K, dst) && size <= Pow2(Lookup(t, K, dst).order)
    requires Payload(c, c', src, dst, size) && Undisturbed(K, t, c', c'')
    ensures Payload(c, c'', src, dst, size)
  {
    LiveMapped(K, c', t, dst, 0);
    forall g: nat | 32 <= g < size && g % 32 == 0
      ensures src + g in c && dst + g in c'' && c''[dst + g] == c[src + g]
    {
      LiveMapped(K, c', t, dst, g);
    }
  }

  /** A byte of one live block is not in another. */
  lemma Apart(t: Tree, K: nat, a: nat, b: nat, g: nat)
    requires WF(t, K) && IsUsed(t, K, a) && IsUsed(t, K, b) && a != b && g < Pow2(Lookup(t, K, a).order)
    ensures !(b <= a + g < b + Pow2(Lookup(t, K, b).order))
  {
    if a < b {
      BlocksDisjoint(t, K, a, b);
    } else {
      BlocksDisjoint(t, K, b, a);
    }
  }

  ghost predicate KeptOutside(c: Memory, c': Memory, lo: nat, hi: nat) {
    forall o: nat :: o in c && !(lo <= o < hi) ==> o in c' && c'[o] == c[o]
  }

  /** One 32-byte cell of the copy. */
  lemma CopyStep(K: nat, c0: Memory, c: Memory, heads: seq<int>, t: Tree, lists: seq<seq<nat>>, src: nat, dst: nat,
                 g: nat)
    requires Inv(K, c, heads, t, lists) && Mapped(K, c0)
    requires IsUsed(t, K, src) && IsUsed(t, K, dst) && src != dst
    requires 32 <= g && g % 32 == 0 && g < Pow2(Lookup(t, K, src).order) && g < Pow2(Lookup(t, K, dst).order)
    requires Payload(c0, c, src, dst, g) && KeptOutside(c0, c, dst, dst + Pow2(Lookup(t, K, dst).order))
    ensures src + g in c && dst + g in c
    ensures var c' := c[dst + g := c[src + g]];
            && Inv(K, c', heads, t, lists)
            && Payload(c0, c', src, dst, g + 32)
            && KeptOutside(c0, c', dst, dst + Pow2(Lookup(t, K, dst).order))
  {
    LiveMapped(K, c, t, src, g);
    LiveMapped(K, c0, t, src, g);
    LiveMapped(K, c, t, dst, g);
    Apart(t, K, src, dst, g);
    PayloadWrite(K, c, heads, t, lists, dst + g, c[src + g]);
    PayloadExtend(c0, c, src, dst, g, c[src + g]);
    KeepInside(c0, c, dst, dst + Pow2(Lookup(t, K, dst).order), dst + g, c[src + g]);
  }

  lemma PayloadExtend(c0: Memory, c: Memory, src: nat, dst: nat, g: nat, v: Cell)
    requires 32 <= g && g % 32 == 0 && Payload(c0, c, src, dst, g)
    requires src + g in c0 && v == c0[src + g]
    ensures Payload(c0, c[dst + g := v], src, dst, g + 32)
  {
    forall x: nat | 32 <= x < g + 32 && x % 32 == 0
      ensures src + x in c0 && dst + x in c[dst + g := v] && c[dst + g := v][dst + x] == c0[src + x]
    {
      assert x >= g ==> x == g;
    }
  }

  lemma KeepInside(c: Memory, c': Memory, lo: nat, hi: nat, o: nat, v: Cell)
    requires KeptOutside(c, c', lo, hi) && lo <= o < hi
    ensures KeptOutside(c, c'[o := v], lo, hi)
  {
  }

  lemma CopyHeader(K: nat, c: Memory, heads: seq<int>, t: Tree, lists: seq<seq<nat>>, src: nat, dst: nat)
    requires Inv(K, c, heads, t, lists) && IsUsed(t, K, src) && IsUsed(t, K, dst)
    ensures src in c && dst in c
    ensures var c' := c[dst := c[dst].(next := c[src].next, rest := c[src].rest)];
            Inv(K, c', heads, t, lists) && Payload(c, c', src, dst, 32)
              && KeptOutside(c, c', dst, dst + Pow2(Lookup(t, K, dst).order))
  {
    LiveMapped(K, c, t, src, 0);
    LiveMapped(K, c, t, dst, 0);
    PayloadWrite(K, c, heads, t, lists, dst, c[dst].(next := c[src].next, rest := c[src].rest));
  }

  lemma Pow2Multiple32(ord: nat)
    requires ord >= MIN_ORDER
    ensures Pow2(ord) % 32 == 0 && Pow2(ord) >= 32
  {
    assert Pow2(5) == 32 by { assert Pow2(3) == 8; }
    MultipleIsAligned(1, ord);
    AlignedSmaller(Pow2(ord), ord, 5);
    Pow2Monotone(5, ord);
  }

  lemma LargerOrder(ord: nat, size: nat, ord': nat)
    requires Pow2(ord) < size + HDR < SIZE_WRAP && OrderFor(Need(size), ord')
    ensures ord < ord'
  {
    HoldsIffNoWrap(size, ord');
    if ord' <= ord {
      Pow2Monotone(ord', ord);
    }
  }

  lemma GrowBlocks(K: nat, t: Tree, c: Memory, off: nat, ord: nat, size: nat, r: int, op: Op, t': Tree, c': Memory)
    requires Outcome(K, t, c, size, r, op, t', c') && r != NULL && Coalesced(t) && Settled(t)
    requires Lookup(t, K, off) == Block(ord, Used) && Pow2(ord) < size + HDR < SIZE_WRAP
    ensures op.from == r - HDR != off && ord < op.order
    ensures Lookup(t', K, off) == Block(ord, Used) && Lookup(t', K, op.from) == Block(op.order, Used)
  {
    LookupIsLeaf(t, K, op.from, op.fromOrder, Free);
    TakeAt(t, K, op.from, op.fromOrder, op.order, off);
    TakeAt(t, K, op.from, op.fromOrder, op.order, op.from);
    LargerOrder(ord, size, op.order);
  }

  lemma MoveSurvives(K: nat, t: Tree, c1: Memory, c2: Memory, c3: Memory, src: nat, dst: nat, ord: nat)
    requires WF(t, K) && Mapped(K, c2) && src != dst
    requires Lookup(t, K, src) == Block(ord, Used) && IsUsed(t, K, dst) && ord <= Lookup(t, K, dst).order
    requires Payload(c1, c2, src, dst, Pow2(ord)) && Undisturbed(K, Mark(t, K, src, ord, Held), c2, c3)
    ensures Payload(c1, c3, src, dst, Pow2(ord))
  {
    Pow2Monotone(ord, Lookup(t, K, dst).order);
    MarkAt(t, K, src, ord, Held, dst);
    PayloadSurvives(K, Mark(t, K, src, ord, Held), c1, c2, c3, src, dst, Pow2(ord));
  }

  /** A payload read after an operation that left the source block alone is the one from before it. */
  lemma PayloadFrom(K: nat, t: Tree, c0: Memory, c1: Memory, c3: Memory, src: nat, dst: nat, ord: nat)
    requires WF(t, K) && Mapped(K, c0) && Lookup(t, K, src) == Block(ord, Used)
    requires Undisturbed(K, t, c0, c1) && Payload(c1, c3, src, dst, Pow2(ord))
    ensures Payload(c0, c3, src, dst, Pow2(ord))
  {
    LiveMapped(K, c0, t, src, 0);
    forall g: nat | 32 <= g < Pow2(ord) && g % 32 == 0
      ensures src + g in c0 && dst + g in c3 && c3[dst + g] == c0[src + g]
    {
      LiveMapped(K, c0, t, src, g);
    }
  }

  /** The least multiple of `a` that is not below `x`. */
  function RoundUp(x: nat, a: nat): nat
    requires a > 0
  {
    ((x + a - 1) / a) * a
  }

  lemma RoundUpBounds(x: nat, a: nat)
    requires a > 0
    ensures RoundUp(x, a) % a == 0 && x <= RoundUp(x, a) < x + a
  {
    var q, r := (x + a - 1) / a, (x + a - 1) % a;
    assert q * a + r == x + a - 1;
    DivUnique(q * a, a, q, 0);
  }

  /** `x` is a multiple of `a`. */
  ghost predicate Multiple(x: nat, a: nat)
    requires a > 0
  {
    if x < a then x == 0 else Multiple(x - a, a)
  }

  lemma {:induction false} MultipleIs(x: nat, a: nat)
    requires a > 0
    ensures Multiple(x, a) <==> x % a == 0
  {
    if x >= a {
      MultipleIs(x - a, a);
      var q, r := (x - a) / a, (x - a) % a;
      assert x == (q + 1) * a + r;
      DivUnique(x, a, q + 1, r);
    } else {
      DivUnique(x, a, 0, x);
    }
  }

  /** An alignment below the pointer size is raised to it. */
  function AtLeast8(alignment: nat): nat {
    if alignment < 8 then 8 else alignment
  }

  ghost predicate AlignedInside(base: nat, p: int, a: nat, size: nat, from: nat, ord: nat)
    requires a > 0
  {
    base + p >= 0 && Multiple(base + p, a) && from + HDR <= p - 8 && p + size <= from + Pow2(ord)
  }

  /** The aligned pointer inside a block that was allocated for it. */
  method AlignUp(base: nat, from: nat, a: nat, size: nat, ghost ord: nat) returns (p: int)
    requires a > 0 && size + a + 8 + HDR < SIZE_WRAP && OrderFor(Need(size + a + 8), ord)
    ensures AlignedInside(base, p, a, size, from, ord) && p < from + HDR + 8 + a
  {
    HoldsIffNoWrap(size + a + 8, ord);
    RoundUpBounds(base + from + HDR + 8, a);
    p := RoundUp(base + from + HDR + 8, a) - base;
    MultipleIs(base + p, a);
  }
}
