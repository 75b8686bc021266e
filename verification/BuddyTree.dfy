/**
 The abstract state of the buddy allocator: how the arena is cut into blocks.
 A tree of order k covers 2^k bytes; a leaf is one block, a node is two buddies.
 */
module BuddyTree {
  import opened Powers

  const MIN_ORDER: nat := 5
  const MAX_ORDER: nat := 26

  /** Held: neither on a free list nor given out, while an operation works on it. */
  datatype Status = Free | Used | Held

  datatype Tree = Leaf(st: Status) | Node(left: Tree, right: Tree)

  datatype Found = Nothing | Block(order: nat, st: Status)

  ghost predicate WF(t: Tree, k: nat) {
    k >= MIN_ORDER && (t.Node? ==> k > MIN_ORDER && WF(t.left, k - 1) && WF(t.right, k - 1))
  }

  /** The block that starts at `off`, if one does. */
  ghost function Lookup(t: Tree, k: nat, off: nat): (r: Found)
    requires WF(t, k)
    ensures r.Block? ==> MIN_ORDER <= r.order <= k && off + Pow2(r.order) <= Pow2(k)
  {
    match t
    case Leaf(st) => if off == 0 then Block(k, st) else Nothing
    case Node(l, r) =>
      if off < Pow2(k - 1) then Lookup(l, k - 1, off) else Lookup(r, k - 1, off - Pow2(k - 1))
  }

  /** A subtree of order `ord` is rooted at `off`. */
  ghost predicate At(t: Tree, k: nat, off: nat, ord: nat)
    requires WF(t, k)
  {
    if ord == k then off == 0
    else
      && ord < k
      && t.Node?
      && (if off < Pow2(k - 1) then At(t.left, k - 1, off, ord)
          else At(t.right, k - 1, off - Pow2(k - 1), ord))
  }

  ghost function Sub(t: Tree, k: nat, off: nat, ord: nat): (s: Tree)
    requires WF(t, k) && At(t, k, off, ord)
    ensures WF(s, ord)
  {
    if ord == k then t
    else if off < Pow2(k - 1) then Sub(t.left, k - 1, off, ord)
    else Sub(t.right, k - 1, off - Pow2(k - 1), ord)
  }

  ghost function Put(t: Tree, k: nat, off: nat, ord: nat, s: Tree): (t': Tree)
    requires WF(t, k) && At(t, k, off, ord) && WF(s, ord)
    ensures WF(t', k)
  {
    if ord == k then s
    else if off < Pow2(k - 1) then Node(Put(t.left, k - 1, off, ord, s), t.right)
    else Node(t.left, Put(t.right, k - 1, off - Pow2(k - 1), ord, s))
  }

  // ---- positions -----------------------------------------------------------------

  lemma {:induction false} AtRange(t: Tree, k: nat, off: nat, ord: nat)
    requires WF(t, k) && At(t, k, off, ord)
    ensures MIN_ORDER <= ord <= k
    ensures off + Pow2(ord) <= Pow2(k)
    ensures Aligned(off, ord)
  {
    if ord == k {
    } else if off < Pow2(k - 1) {
      AtRange(t.left, k - 1, off, ord);
    } else {
      var off' := off - Pow2(k - 1);
      AtRange(t.right, k - 1, off', ord);
      AlignedShift(off', ord, k - 1);
    }
  }

  /** Moving by a larger power of two keeps alignment and the side within the parent. */
  lemma AlignedShift(off: nat, ord: nat, k: nat)
    requires ord <= k && Aligned(off, ord)
    ensures Aligned(off + Pow2(k), ord)
    ensures ord < k ==> Buddy(off + Pow2(k), ord) == Buddy(off, ord) + Pow2(k)
  {
    ParityShift(off, ord, k);
  }

  lemma QuotientIs(off: nat, m: nat, ord: nat)
    requires off == m * Pow2(ord)
    ensures off / Pow2(ord) == m && Aligned(off, ord)
  {
    MultipleIsAligned(m, ord);
  }

  lemma ParityShift(off: nat, ord: nat, k: nat)
    requires ord <= k && Aligned(off, ord)
    ensures Aligned(off + Pow2(k), ord)
    ensures ord < k ==> ((off + Pow2(k)) / Pow2(ord)) % 2 == (off / Pow2(ord)) % 2
  {
    var q := Pow2Divides(ord, k);
    ParityDiv(off, Pow2(ord), q, Pow2(k));
  }

  lemma ParityDiv(off: nat, d: nat, q: nat, p: nat)
    requires d > 0 && off % d == 0 && p == q * d
    ensures (off + p) % d == 0 && (q % 2 == 0 ==> ((off + p) / d) % 2 == (off / d) % 2)
  {
    ShiftDiv(off, d, q, p);
    SameParity(off / d, q);
  }

  lemma SameParity(a: int, q: int)
    ensures q % 2 == 0 ==> (a + q) % 2 == a % 2
  {
  }

  lemma ShiftDiv(off: nat, d: nat, q: nat, p: nat)
    requires d > 0 && off % d == 0 && p == q * d
    ensures (off + p) % d == 0 && (off + p) / d == off / d + q
  {
    var m := off / d;
    assert off == m * d;
    assert off + p == (m + q) * d;
    DivUnique(off + p, d, m + q, 0);
  }

  /** A block is a subtree that is a leaf, and the two views agree. */
  lemma {:induction false} LookupIsLeaf(t: Tree, k: nat, off: nat, ord: nat, st: Status)
    requires WF(t, k)
    ensures Lookup(t, k, off) == Block(ord, st) <==> At(t, k, off, ord) && Sub(t, k, off, ord) == Leaf(st)
  {
    match t
    case Leaf(_) =>
    case Node(l, r) =>
      if off < Pow2(k - 1) {
        LookupIsLeaf(l, k - 1, off, ord, st);
      } else {
        LookupIsLeaf(r, k - 1, off - Pow2(k - 1), ord, st);
      }
  }

  /** A block starts wherever a subtree is rooted, and it is no larger than the subtree. */
  lemma {:induction false} BlockAtRoot(t: Tree, k: nat, off: nat, ord: nat)
    requires WF(t, k) && At(t, k, off, ord)
    ensures Lookup(t, k, off) == Lookup(Sub(t, k, off, ord), ord, 0)
    ensures Lookup(t, k, off).Block? && Lookup(t, k, off).order <= ord
  {
    if ord == k {
      LeftmostBlock(t, k);
    } else if off < Pow2(k - 1) {
      BlockAtRoot(t.left, k - 1, off, ord);
    } else {
      BlockAtRoot(t.right, k - 1, off - Pow2(k - 1), ord);
    }
  }

  lemma {:induction false} LeftmostBlock(t: Tree, k: nat)
    requires WF(t, k)
    ensures Lookup(t, k, 0).Block?
  {
    if t.Node? {
      LeftmostBlock(t.left, k - 1);
    }
  }

  // ---- replacing a subtree -------------------------------------------------------

  lemma {:induction false} PutLookup(t: Tree, k: nat, off: nat, ord: nat, s: Tree, x: nat)
    requires WF(t, k) && At(t, k, off, ord) && WF(s, ord)
    ensures Lookup(Put(t, k, off, ord, s), k, x)
         == if off <= x < off + Pow2(ord) then Lookup(s, ord, x - off) else Lookup(t, k, x)
  {
    if ord == k {
      if x >= Pow2(k) {
        NoBlockOutside(s, k, x);
        NoBlockOutside(t, k, x);
      }
    } else if off < Pow2(k - 1) {
      AtRange(t.left, k - 1, off, ord);
      if x < Pow2(k - 1) {
        PutLookup(t.left, k - 1, off, ord, s, x);
      }
    } else {
      var h := Pow2(k - 1);
      AtRange(t.right, k - 1, off - h, ord);
      if x >= h {
        PutLookup(t.right, k - 1, off - h, ord, s, x - h);
      }
    }
  }

  lemma {:induction false} NoBlockOutside(t: Tree, k: nat, x: nat)
    requires WF(t, k) && x >= Pow2(k)
    ensures Lookup(t, k, x).Nothing?
  {
    if t.Node? {
      NoBlockOutside(t.right, k - 1, x - Pow2(k - 1));
    }
  }

  lemma {:induction false} PutSub(t: Tree, k: nat, off: nat, ord: nat, s: Tree)
    requires WF(t, k) && At(t, k, off, ord) && WF(s, ord)
    ensures At(Put(t, k, off, ord, s), k, off, ord)
    ensures Sub(Put(t, k, off, ord, s), k, off, ord) == s
    ensures forall s' :: WF(s', ord) ==> Put(Put(t, k, off, ord, s), k, off, ord, s') == Put(t, k, off, ord, s')
  {
    if ord < k {
      if off < Pow2(k - 1) {
        PutSub(t.left, k - 1, off, ord, s);
      } else {
        PutSub(t.right, k - 1, off - Pow2(k - 1), ord, s);
      }
    }
  }

  /** A change inside the left half of a subtree, seen from the subtree. */
  lemma {:induction false} PutLeft(t: Tree, k: nat, p: nat, ord: nat, l: Tree, r: Tree, s: Tree)
    requires WF(t, k) && At(t, k, p, ord + 1) && WF(l, ord) && WF(r, ord) && WF(s, ord)
    ensures var t' := Put(t, k, p, ord + 1, Node(l, r));
            At(t', k, p, ord) && Sub(t', k, p, ord) == l
            && Put(t', k, p, ord, s) == Put(t, k, p, ord + 1, Node(s, r))
  {
    if ord + 1 < k {
      var h := Pow2(k - 1);
      if p < h {
        PutLeft(t.left, k - 1, p, ord, l, r, s);
      } else {
        PutLeft(t.right, k - 1, p - h, ord, l, r, s);
      }
    }
  }

  lemma {:induction false} PutRight(t: Tree, k: nat, p: nat, ord: nat, l: Tree, r: Tree, s: Tree)
    requires WF(t, k) && At(t, k, p, ord + 1) && WF(l, ord) && WF(r, ord) && WF(s, ord)
    ensures var t' := Put(t, k, p, ord + 1, Node(l, r));
            At(t', k, p + Pow2(ord), ord) && Sub(t', k, p + Pow2(ord), ord) == r
            && Put(t', k, p + Pow2(ord), ord, s) == Put(t, k, p, ord + 1, Node(l, s))
  {
    if ord + 1 < k {
      var h := Pow2(k - 1);
      if p < h {
        AtRange(t.left, k - 1, p, ord + 1);
        PutRight(t.left, k - 1, p, ord, l, r, s);
      } else {
        PutRight(t.right, k - 1, p - h, ord, l, r, s);
      }
    }
  }

  /** Replacing a subtree forgets any change made inside it. */
  lemma {:induction false} PutAbsorbs(t: Tree, k: nat, p: nat, ord: nat, off: nat, s: Tree, s': Tree)
    requires WF(t, k) && At(t, k, p, ord + 1) && At(t, k, off, ord) && (off == p || off == p + Pow2(ord))
    requires WF(s, ord) && WF(s', ord + 1)
    ensures At(Put(t, k, off, ord, s), k, p, ord + 1)
    ensures Put(Put(t, k, off, ord, s), k, p, ord + 1, s') == Put(t, k, p, ord + 1, s')
  {
    if ord + 1 < k {
      var h := Pow2(k - 1);
      if p < h {
        AtRange(t.left, k - 1, p, ord + 1);
        PutAbsorbs(t.left, k - 1, p, ord, off, s, s');
      } else {
        PutAbsorbs(t.right, k - 1, p - h, ord, off - h, s, s');
      }
    }
  }

  lemma {:induction false} PutSame(t: Tree, k: nat, off: nat, ord: nat)
    requires WF(t, k) && At(t, k, off, ord)
    ensures Put(t, k, off, ord, Sub(t, k, off, ord)) == t
  {
    if ord < k {
      if off < Pow2(k - 1) {
        PutSame(t.left, k - 1, off, ord);
      } else {
        PutSame(t.right, k - 1, off - Pow2(k - 1), ord);
      }
    }
  }

  // ---- buddies -------------------------------------------------------------------

  /** The subtrees of order `ord` at `p` and behind it are the two halves of the one at `p`. */
  ghost predicate Halves(t: Tree, k: nat, p: nat, ord: nat)
    requires WF(t, k)
  {
    && At(t, k, p, ord + 1) && At(t, k, p, ord) && At(t, k, p + Pow2(ord), ord)
    && Sub(t, k, p, ord + 1) == Node(Sub(t, k, p, ord), Sub(t, k, p + Pow2(ord), ord))
  }

  lemma HalvesLeft(t: Tree, k: nat, p: nat, ord: nat)
    requires WF(t, k) && t.Node? && ord + 1 < k && Halves(t.left, k - 1, p, ord)
    ensures Halves(t, k, p, ord)
  {
    AtRange(t.left, k - 1, p + Pow2(ord), ord);
    AtRange(t.left, k - 1, p, ord);
  }

  lemma HalvesRight(t: Tree, k: nat, p: nat, ord: nat)
    requires WF(t, k) && t.Node? && ord + 1 < k && Halves(t.right, k - 1, p, ord)
    ensures Halves(t, k, p + Pow2(k - 1), ord)
  {
    assert p + Pow2(k - 1) + Pow2(ord) - Pow2(k - 1) == p + Pow2(ord);
  }

  /** `off` is one of the two halves at `p`, and its buddy is the other. */
  ghost predicate OneOf(off: nat, p: nat, ord: nat) {
    || (off == p && Buddy(off, ord) == p + Pow2(ord))
    || (off == p + Pow2(ord) && Buddy(off, ord) == p)
  }

  /** The subtree at `off` and the one at its buddy are the two halves of one parent. */
  lemma {:induction false} Siblings(t: Tree, k: nat, off: nat, ord: nat) returns (p: nat)
    requires WF(t, k) && At(t, k, off, ord) && ord < k
    ensures Halves(t, k, p, ord) && OneOf(off, p, ord)
  {
    var h := Pow2(k - 1);
    if ord == k - 1 {
      RootSiblings(t, k, off);
      p := 0;
    } else if off < h {
      p := Siblings(t.left, k - 1, off, ord);
      HalvesLeft(t, k, p, ord);
    } else {
      p := Siblings(t.right, k - 1, off - h, ord);
      BuddyShift(t.right, k - 1, off - h, ord);
      HalvesRight(t, k, p, ord);
      p := p + h;
    }
  }

  lemma RootSiblings(t: Tree, k: nat, off: nat)
    requires k > 0 && WF(t, k) && At(t, k, off, k - 1)
    ensures (off == 0 && Buddy(off, k - 1) == Pow2(k - 1)) || (off == Pow2(k - 1) && Buddy(off, k - 1) == 0)
  {
    QuotientIs(0, 0, k - 1);
    QuotientIs(Pow2(k - 1), 1, k - 1);
  }

  lemma BuddyShift(t: Tree, k: nat, off: nat, ord: nat)
    requires WF(t, k) && At(t, k, off, ord) && ord < k
    ensures Buddy(off + Pow2(k), ord) == Buddy(off, ord) + Pow2(k)
  {
    AtRange(t, k, off, ord);
    AlignedShift(off, ord, k);
  }

  /** The same, for the offset the allocator computes. */
  lemma XorSiblings(t: Tree, k: nat, off: nat, ord: nat) returns (p: nat, b: nat)
    requires WF(t, k) && At(t, k, off, ord) && ord < k
    ensures b == Xor(off, Pow2(ord))
    ensures Halves(t, k, p, ord) && At(t, k, b, ord)
    ensures (off == p && b == p + Pow2(ord)) || (off == p + Pow2(ord) && b == p)
  {
    XorIsBuddy(off, ord);
    p := Siblings(t, k, off, ord);
    b := Xor(off, Pow2(ord));
    assert b == Buddy(off, ord) && OneOf(off, p, ord);
  }
}
