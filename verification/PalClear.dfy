/** The `memset` of calloc: clearing a block that has just been handed out. */
module PalClear {
  import opened Powers
  import opened BuddyTree
  import opened BuddySpec
  import opened PalAlloc

  // ---- the bytes of a granule -------------------------------------------------------------

  /** Byte `j` of a number, least significant first. */
  function Digit(x: int, j: nat): nat
    decreases j
  {
    if j == 0 then x % 256 else Digit(x / 256, j - 1)
  }

  /** A number with its `k` lowest bytes cleared. */
  function ClearLow(x: int, k: nat): int
    decreases k
  {
    if k == 0 then x else 256 * ClearLow(x / 256, k - 1)
  }

  lemma {:induction false} ClearLowDigit(x: int, k: nat, j: nat)
    ensures Digit(ClearLow(x, k), j) == if j < k then 0 else Digit(x, j)
    decreases k
  {
    if k > 0 && j > 0 {
      ClearLowDigit(x / 256, k - 1, j - 1);
    }
  }

  lemma {:induction false} ZeroDigit(j: nat)
    ensures Digit(0, j) == 0
  {
    if j > 0 {
      ZeroDigit(j - 1);
    }
  }

  /** A field of `w` bytes after the first `k` of them were cleared. */
  function ClearField(x: int, w: nat, k: int): int {
    if k >= w then 0 else if k <= 0 then x else ClearLow(x, k)
  }

  lemma FieldDigit(x: int, w: nat, k: int, j: nat)
    requires j < w
    ensures Digit(ClearField(x, w, k), j) == if j < k then 0 else Digit(x, j)
  {
    ZeroDigit(j);
    if 0 < k < w {
      ClearLowDigit(x, k, j);
    }
  }

  lemma {:induction false} ClearLowNat(x: nat, k: nat)
    ensures 0 <= ClearLow(x, k)
  {
    if k > 0 {
      ClearLowNat(x / 256, k - 1);
    }
  }

  function ClearNat(x: nat, w: nat, k: int): (r: nat)
    ensures r == ClearField(x, w, k)
  {
    if 0 < k < w then ClearLowNat(x, k); ClearLow(x, k) else ClearField(x, w, k)
  }

  /** Byte `j` of a granule: magic, order, used and pad make up the first sixteen, the link is 0 for NULL. */
  function ByteOf(v: Cell, j: nat): nat
    requires j < 32
  {
    if j < 4 then Digit(v.magic, j)
    else if j < 6 then Digit(v.order, j - 4)
    else if j < 8 then Digit(v.used, j - 6)
    else if j < 16 then Digit(v.pad, j - 8)
    else if j < 24 then Digit(v.next - NULL, j - 16)
    else Digit(v.rest, j - 24)
  }

  /** The granule after `k` bytes from its second half on were cleared. */
  function ClearSecond(v: Cell, k: nat): Cell {
    v.(next := ClearField(v.next - NULL, 8, k) + NULL, rest := ClearNat(v.rest, 8, k - 8))
  }

  /** The granule after its first `k` bytes were cleared. */
  function ClearFirst(v: Cell, k: nat): Cell {
    ClearSecond(v, if k > 16 then k - 16 else 0)
      .(magic := ClearNat(v.magic, 4, k), order := ClearNat(v.order, 2, k - 4), used := ClearNat(v.used, 2, k - 6),
        pad := ClearNat(v.pad, 8, k - 8))
  }

  lemma SecondByte(v: Cell, k: nat, j: nat)
    requires j < 32
    ensures ByteOf(ClearSecond(v, k), j) == if 16 <= j < 16 + k then 0 else ByteOf(v, j)
  {
    if 16 <= j < 24 {
      FieldDigit(v.next - NULL, 8, k, j - 16);
    } else if 24 <= j {
      FieldDigit(v.rest, 8, k - 8, j - 24);
    }
  }

  lemma FirstByte(v: Cell, k: nat, j: nat)
    requires j < 32
    ensures ByteOf(ClearFirst(v, k), j) == if j < k then 0 else ByteOf(v, j)
  {
    if j < 4 {
      FieldDigit(v.magic, 4, k, j);
    } else if j < 6 {
      FieldDigit(v.order, 2, k - 4, j - 4);
    } else if j < 8 {
      FieldDigit(v.used, 2, k - 6, j - 6);
    } else if j < 16 {
      FieldDigit(v.pad, 8, k - 8, j - 8);
    } else {
      SecondByte(v, if k > 16 then k - 16 else 0, j);
    }
  }

  // ---- the bytes of a block ---------------------------------------------------------------

  function Min(a: int, b: int): int {
    if a < b then a else b
  }

  /** The granules before offset `g` hold what a `memset` of `total` user bytes leaves of them. */
  ghost predicate Cleared(c0: Memory, c: Memory, n: nat, total: nat, g: nat) {
    && n in c0 && n in c && c[n] == ClearSecond(c0[n], Min(total, 16))
    && forall x: nat :: 32 <= x < g && x < total + 16 && x % 32 == 0 ==>
         n + x in c0 && n + x in c && c[n + x] == ClearFirst(c0[n + x], Min(total + 16 - x, 32))
  }

  /** Byte `b` of the user region of the block at `n`, in granule `x` at place `j`. */
  ghost predicate UserByteAt(b: nat, x: nat, j: nat) {
    x % 32 == 0 && j < 32 && x + j == b + HDR
  }

  /** The first `total` user bytes are zero. */
  ghost predicate Zeroed(c: Memory, n: nat, total: nat) {
    forall b: nat, x: nat, j: nat :: UserByteAt(b, x, j) && b < total ==> n + x in c && ByteOf(c[n + x], j) == 0
  }

  /** A `memset` zeroes its bytes and no others. */
  lemma ClearedBytes(c0: Memory, c: Memory, n: nat, total: nat, g: nat, b: nat, x: nat, j: nat)
    requires Cleared(c0, c, n, total, g) && total + 16 <= g && UserByteAt(b, x, j) && x < total + 16
    ensures n + x in c0 && n + x in c && ByteOf(c[n + x], j) == if b < total then 0 else ByteOf(c0[n + x], j)
  {
    if x == 0 {
      SecondByte(c0[n], Min(total, 16), j);
    } else {
      FirstByte(c0[n + x], Min(total + 16 - x, 32), j);
    }
  }

  lemma ClearedZeroes(c0: Memory, c: Memory, n: nat, total: nat, g: nat)
    requires Cleared(c0, c, n, total, g) && total + 16 <= g
    ensures Zeroed(c, n, total)
  {
    forall b: nat, x: nat, j: nat | UserByteAt(b, x, j) && b < total ensures n + x in c && ByteOf(c[n + x], j) == 0 {
      ClearedBytes(c0, c, n, total, g, b, x, j);
    }
  }

  lemma ClearedStep(c0: Memory, c: Memory, n: nat, total: nat, g: nat)
    requires 32 <= g < total + 16 && g % 32 == 0 && Cleared(c0, c, n, total, g)
    requires n + g in c0 && n + g in c && c[n + g] == c0[n + g]
    ensures Cleared(c0, c[n + g := ClearFirst(c[n + g], Min(total + 16 - g, 32))], n, total, g + 32)
  {
    var c' := c[n + g := ClearFirst(c[n + g], Min(total + 16 - g, 32))];
    forall x: nat | 32 <= x < g + 32 && x < total + 16 && x % 32 == 0
      ensures n + x in c0 && n + x in c' && c'[n + x] == ClearFirst(c0[n + x], Min(total + 16 - x, 32))
    {
      assert x < g || x == g;
    }
  }

  /** From offset `g` on nothing has been written yet. */
  ghost predicate SameFrom(c0: Memory, c: Memory, n: nat, g: nat) {
    forall o: nat :: n + g <= o && o in c0 && o in c ==> c[o] == c0[o]
  }

  lemma SameFromStep(c0: Memory, c: Memory, n: nat, g: nat, v: Cell)
    requires SameFrom(c0, c, n, g)
    ensures SameFrom(c0, c[n + g := v], n, g + 1) && SameFrom(c0, c[n + g := v], n, g + 32)
  {
  }

  /** One granule of a live block is written. */
  lemma GranuleWrite(K: nat, c0: Memory, c: Memory, heads: seq<int>, t: Tree, lists: seq<seq<nat>>, n: nat, ord: nat,
                     g: nat, v: Cell)
    requires Inv(K, c, heads, t, lists) && Lookup(t, K, n) == Block(ord, Used) && g < Pow2(ord) && g % 32 == 0
    requires KeptOutside(c0, c, n, n + Pow2(ord))
    requires g == 0 && n in c ==> v.(next := c[n].next, rest := c[n].rest) == c[n]
    ensures n + g in c && Inv(K, c[n + g := v], heads, t, lists) && KeptOutside(c0, c[n + g := v], n, n + Pow2(ord))
  {
    LiveMapped(K, c, t, n, g);
    PayloadWrite(K, c, heads, t, lists, n + g, v);
    KeepInside(c0, c, n, n + Pow2(ord), n + g, v);
  }

  /** How far a `memset` of the block at `n` has come. */
  ghost predicate ClearedTo(c0: Memory, c: Memory, n: nat, ord: nat, total: nat, g: nat) {
    KeptOutside(c0, c, n, n + Pow2(ord)) && Cleared(c0, c, n, total, g) && SameFrom(c0, c, n, g)
  }

  lemma ClearFirstStep(K: nat, c: Memory, heads: seq<int>, t: Tree, lists: seq<seq<nat>>, n: nat, ord: nat, total: nat)
    requires Inv(K, c, heads, t, lists) && Lookup(t, K, n) == Block(ord, Used) && total + 16 <= Pow2(ord)
    ensures n in c
    ensures var c' := c[n := ClearSecond(c[n], Min(total, 16))];
            Inv(K, c', heads, t, lists) && ClearedTo(c, c', n, ord, total, 32)
  {
    LiveMapped(K, c, t, n, 0);
    GranuleWrite(K, c, c, heads, t, lists, n, ord, 0, ClearSecond(c[n], Min(total, 16)));
    SameFromStep(c, c, n, 0, ClearSecond(c[n], Min(total, 16)));
  }

  lemma ClearNextStep(K: nat, c0: Memory, c: Memory, heads: seq<int>, t: Tree, lists: seq<seq<nat>>, n: nat, ord: nat,
                      total: nat, g: nat)
    requires Inv(K, c, heads, t, lists) && Mapped(K, c0) && Lookup(t, K, n) == Block(ord, Used)
      && total + 16 <= Pow2(ord)
    requires 32 <= g < total + 16 && g % 32 == 0 && ClearedTo(c0, c, n, ord, total, g)
    ensures n + g in c
    ensures var c' := c[n + g := ClearFirst(c[n + g], Min(total + 16 - g, 32))];
            Inv(K, c', heads, t, lists) && ClearedTo(c0, c', n, ord, total, g + 32)
  {
    LiveMapped(K, c, t, n, g);
    LiveMapped(K, c0, t, n, g);
    GranuleWrite(K, c0, c, heads, t, lists, n, ord, g, ClearFirst(c[n + g], Min(total + 16 - g, 32)));
    ClearedStep(c0, c, n, total, g);
    SameFromStep(c0, c, n, g, ClearFirst(c[n + g], Min(total + 16 - g, 32)));
  }

  /** Writes into the block that an allocation handed out leave what it promised. */
  lemma OutcomeKept(K: nat, t: Tree, c: Memory, size: nat, p: int, op: Op, t': Tree, c': Memory, c'': Memory)
    requires Outcome(K, t, c, size, p, op, t', c') && p != NULL
      && KeptOutside(c', c'', op.from, op.from + Pow2(op.order))
    ensures Outcome(K, t, c, size, p, op, t', c'')
  {
    Pow2Monotone(op.order, op.fromOrder);
    forall o: nat | o in c && o < Pow2(K) && StatusAt(t, K, o).Used? ensures o in c'' && c''[o] == c[o] {
      if op.from <= o < op.from + Pow2(op.order) {
        StatusInBlock(t, K, op.from, o);
      }
    }
  }

  /** `nmemb > SIZE_MAX / size` is the overflow of the product. */
  lemma CallocGuard(nmemb: nat, size: nat)
    requires size > 0
    ensures nmemb > (SIZE_WRAP - 1) / size <==> nmemb * size >= SIZE_WRAP
  {
    var q := (SIZE_WRAP - 1) / size;
    assert q * size <= SIZE_WRAP - 1 < q * size + size;
    if nmemb > q {
      MulAtLeast(nmemb - q, size);
      assert nmemb * size == q * size + (nmemb - q) * size;
    } else {
      assert nmemb * size <= q * size by { assert q * size == nmemb * size + (q - nmemb) * size; }
    }
  }
}
