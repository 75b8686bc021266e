/**
 Aligned allocations: the raw pointer is kept in the eight bytes below the aligned one, and
 `free_locked` looks for it there when what precedes the pointer does not look like a header.
 */
module PalAligned {
  import opened Powers
  import opened BuddyTree
  import opened BuddySpec
  import opened PalAlloc
  import opened PalTouch

  const TWO16: nat := 0x1_0000
  const TWO32: nat := 0x1_0000_0000

  // ---- words of the arena -----------------------------------------------------------------

  /** The 64-bit word at place 0, 8, 16 or 24 of a granule; a pointer is 0 for NULL. */
  function WordOf(v: Cell, w: nat): int {
    if w == 0 then v.magic + TWO32 * (v.order + TWO16 * v.used)
    else if w == 8 then v.pad
    else if w == 16 then v.next - NULL
    else v.rest
  }

  function WithWord(v: Cell, w: nat, x: nat): Cell {
    if w == 0 then v.(magic := x % TWO32, order := x / TWO32 % TWO16, used := x / TWO32 / TWO16)
    else if w == 8 then v.(pad := x)
    else if w == 16 then v.(next := x + NULL)
    else v.(rest := x)
  }

  lemma WordWritten(v: Cell, w: nat, x: nat)
    ensures WordOf(WithWord(v, w, x), w) == x
  {
    var y := x / TWO32;
    assert y == TWO16 * (y / TWO16) + y % TWO16;
  }

  /** Where the granule of a byte starts. */
  function Granule(x: int): int {
    x - x % 32
  }

  function WordAt(c: Memory, x: int): int {
    if Granule(x) in c then WordOf(c[Granule(x)], x % 32) else 0
  }

  /** What `free_locked` reads from a header at `x`, which need not be the start of a block. */
  datatype Header = Header(magic: int, order: int, used: int)

  function HeaderAt(c: Memory, x: int): Header {
    if x % 32 == 0 && x in c then Header(c[x].magic, c[x].order, c[x].used)
    else var y := WordAt(c, x); Header(y % TWO32, y / TWO32 % TWO16, y / TWO32 / TWO16)
  }

  predicate LooksUsed(c: Memory, x: int) {
    HeaderAt(c, x).magic == MAGIC && HeaderAt(c, x).used != 0
  }

  // ---- the block a pointer names ----------------------------------------------------------

  /** The header of the block that `free_locked` gives back for `ptr`, or NULL if it gives up. */
  function FreeTarget(K: nat, c: Memory, ptr: int): int {
    var hdr := ptr - HDR;
    var found :=
      if LooksUsed(c, hdr) then hdr
      else if ptr % 8 != 0 then NULL
      else
        var raw := WordAt(c, ptr - 8) + NULL;
        if 0 <= raw < Pow2(K) && LooksUsed(c, raw - HDR) then raw - HDR else NULL;
    if found != NULL && MIN_ORDER <= HeaderAt(c, found).order <= K then found else NULL
  }

  /** `ptr` is an aligned pointer inside the live block with user pointer `raw`, and its slot says so. */
  ghost predicate Backed(K: nat, t: Tree, c: Memory, ptr: int, raw: int)
    requires WF(t, K)
  {
    && raw >= HDR && IsUsed(t, K, raw - HDR) && ptr % 8 == 0
    && raw + 8 <= ptr <= raw - HDR + Pow2(Lookup(t, K, raw - HDR).order)
    && WordAt(c, ptr - 8) == raw - NULL
  }

  /** `ptr` names the block with user pointer `raw`: it is that pointer, or an aligned one in it. */
  ghost predicate Names(K: nat, t: Tree, c: Memory, ptr: int, raw: int)
    requires WF(t, K)
  {
    && raw >= HDR && Lookup(t, K, raw - HDR).Block?
    && (ptr == raw || (Backed(K, t, c, ptr, raw) && !LooksUsed(c, ptr - HDR)))
  }

  lemma BlockStart(K: nat, t: Tree, off: nat)
    requires WF(t, K) && Lookup(t, K, off).Block?
    ensures off % 32 == 0 && off < Pow2(K)
  {
    LookupIsLeaf(t, K, off, Lookup(t, K, off).order, Lookup(t, K, off).st);
    RootMapped(t, K, off, Lookup(t, K, off).order);
  }

  /** A pointer to the start of a block gives back that block if it is live; freed again, it is ignored. */
  lemma TargetPlain(K: nat, c: Memory, t: Tree, off: nat)
    requires WF(t, K) && K <= MAX_ORDER && HeadersOk(K, c, t) && Lookup(t, K, off).Block? && !Lookup(t, K, off).st.Held?
    ensures FreeTarget(K, c, off + HDR) == if IsUsed(t, K, off) then off else NULL
  {
    BlockStart(K, t, off);
    var b := Lookup(t, K, off);
    assert HeaderOk(c[off], b.order, if b.st.Used? then 1 else 0);
    HeaderTarget(K, c, off, b.order, if b.st.Used? then 1 else 0);
  }

  lemma HeaderTarget(K: nat, c: Memory, off: nat, order: nat, used: nat)
    requires off % 32 == 0 && off in c && HeaderOk(c[off], order, used) && MIN_ORDER <= order <= K
    ensures FreeTarget(K, c, off + HDR) == if used != 0 then off else NULL
  {
    assert Granule(off + 8) == off && (off + 8) % 32 == 8;
    assert WordAt(c, off + HDR - 8) == 0;
  }

  /** An aligned pointer gives back its block exactly when the bytes before its slot do not look like a live header. */
  lemma TargetIff(K: nat, c: Memory, t: Tree, ptr: int, raw: int)
    requires WF(t, K) && K <= MAX_ORDER && HeadersOk(K, c, t) && Backed(K, t, c, ptr, raw)
    ensures FreeTarget(K, c, ptr) == raw - HDR <==> !LooksUsed(c, ptr - HDR)
  {
    BackedHeader(K, c, t, ptr, raw);
    SlotTarget(K, c, ptr, raw, Lookup(t, K, raw - HDR).order);
  }

  lemma BackedHeader(K: nat, c: Memory, t: Tree, ptr: int, raw: int)
    requires WF(t, K) && HeadersOk(K, c, t) && Backed(K, t, c, ptr, raw)
    ensures raw < Pow2(K) && (raw - HDR) % 32 == 0
    ensures raw - HDR in c && HeaderOk(c[raw - HDR], Lookup(t, K, raw - HDR).order, 1)
  {
    BlockStart(K, t, raw - HDR);
    HeaderOfLive(K, c, t, raw - HDR);
  }

  lemma SlotTarget(K: nat, c: Memory, ptr: int, raw: int, order: nat)
    requires HDR <= raw < ptr && raw < Pow2(K) && ptr % 8 == 0 && WordAt(c, ptr - 8) == raw - NULL
    requires (raw - HDR) % 32 == 0 && raw - HDR in c && HeaderOk(c[raw - HDR], order, 1) && MIN_ORDER <= order <= K
    ensures FreeTarget(K, c, ptr) == raw - HDR <==> !LooksUsed(c, ptr - HDR)
  {
  }

  /** The look for the header of `ptr` at the start of `free_locked`. */
  method FindTarget(K: nat, c: Memory, ptr: int, ghost t: Tree, ghost raw: int) returns (off: int)
    requires WF(t, K) && K <= MAX_ORDER && HeadersOk(K, c, t) && Settled(t) && Names(K, t, c, ptr, raw)
    ensures off == if IsUsed(t, K, raw - HDR) then raw - HDR else NULL
  {
    ghost var live := IsUsed(t, K, raw - HDR);
    ghost var aligned := ptr != raw;
    assert live || !aligned;
    if aligned {
      TargetIff(K, c, t, ptr, raw);
    } else {
      SettledPlain(K, c, t, raw - HDR);
    }
    off := FreeTarget(K, c, ptr);
  }

  lemma SettledPlain(K: nat, c: Memory, t: Tree, off: nat)
    requires WF(t, K) && K <= MAX_ORDER && HeadersOk(K, c, t) && Settled(t) && Lookup(t, K, off).Block?
    ensures FreeTarget(K, c, off + HDR) == if IsUsed(t, K, off) then off else NULL
  {
    SettledLookup(t, K, off);
    TargetPlain(K, c, t, off);
  }

  // ---- the slot ---------------------------------------------------------------------------

  /** The word at `x` of the arena set to `y`. */
  function WithWordAt(c: Memory, x: int, y: nat): Memory
    requires Granule(x) in c
  {
    c[Granule(x) := WithWord(c[Granule(x)], x % 32, y)]
  }

  /** The granule of a word in the user region of the block at `n`; in the first one it is behind the header. */
  lemma GranuleIn(n: nat, x: nat, end: nat)
    requires n % 32 == 0 && n + HDR <= x < end
    ensures 0 <= Granule(x) - n < end - n && (Granule(x) - n) % 32 == 0
    ensures Granule(x) == n ==> x % 32 >= 16
  {
  }

  lemma WordWrite(K: nat, c: Memory, heads: seq<int>, t: Tree, lists: seq<seq<nat>>, n: nat, ord: nat, x: nat, y: nat)
    requires Inv(K, c, heads, t, lists) && Lookup(t, K, n) == Block(ord, Used) && n + HDR <= x < n + Pow2(ord)
    requires x % 8 == 0
    ensures Granule(x) in c
    ensures Inv(K, WithWordAt(c, x, y), heads, t, lists) && KeptOutside(c, WithWordAt(c, x, y), n, n + Pow2(ord))
  {
    BlockStart(K, t, n);
    GranuleIn(n, x, n + Pow2(ord));
    LiveAt(K, c, t, n, Granule(x));
    if x % 32 >= 16 {
      BehindHeader(c[Granule(x)], x % 32, y);
    }
    PayloadWrite(K, c, heads, t, lists, Granule(x), WithWord(c[Granule(x)], x % 32, y));
    KeepInside(c, c, n, n + Pow2(ord), Granule(x), WithWord(c[Granule(x)], x % 32, y));
  }

  lemma LiveAt(K: nat, c: Memory, t: Tree, n: nat, o: nat)
    requires WF(t, K) && Mapped(K, c) && IsUsed(t, K, n) && n <= o < n + Pow2(Lookup(t, K, n).order)
      && (o - n) % 32 == 0
    ensures o in c && o < Pow2(K) && StatusAt(t, K, o).Used?
    ensures o > n ==> Lookup(t, K, o).Nothing?
  {
    LiveMapped(K, c, t, n, o - n);
  }

  lemma BehindHeader(v: Cell, w: nat, y: nat)
    requires w >= 16
    ensures WithWord(v, w, y).(next := v.next, rest := v.rest) == v
  {
  }

  lemma WordRead(c: Memory, x: int, y: nat)
    requires Granule(x) in c
    ensures WordAt(WithWordAt(c, x, y), x) == y
  {
    WordWritten(c[Granule(x)], x % 32, y);
  }

  lemma SlotBacks(K: nat, c: Memory, t: Tree, n: nat, ord: nat, ptr: nat)
    requires WF(t, K) && Lookup(t, K, n) == Block(ord, Used) && Granule(ptr - 8) in c
    requires ptr % 8 == 0 && n + HDR + 8 <= ptr <= n + Pow2(ord)
    ensures Backed(K, t, WithWordAt(c, ptr - 8, n + HDR + 1), ptr, n + HDR)
  {
    WordRead(c, ptr - 8, n + HDR + 1);
  }

  predicate IsPlace(w: int) {
    w == 0 || w == 8 || w == 16 || w == 24
  }

  /** A place for an aligned pointer in the block with user pointer `raw`. */
  predicate IsPlaceFor(raw: int, ptr: int) {
    ptr == raw + 8 || (raw + 16 <= ptr && ptr % 16 == 0)
  }

  /** `c` is `mid` with the slot of `ptr` filled. */
  ghost predicate Slotted(mid: Memory, c: Memory, ptr: int, raw: int) {
    raw >= HDR && Granule(ptr - 8) in mid && c == WithWordAt(mid, ptr - 8, raw + 1) && IsPlaceFor(raw, ptr)
  }

  lemma PlaceIsEight(n: nat, p: nat)
    requires n % 32 == 0 && IsPlaceFor(n + HDR, p)
    ensures p % 8 == 0 && n + HDR + 8 <= p
  {
    if p == n + HDR + 8 {
      assert p == 8 * (4 * (n / 32) + 3);
    } else {
      assert p == 8 * (2 * (p / 16));
    }
  }

  /** A word at place `w` of the granule at `o`. */
  lemma WordIn(o: nat, w: nat)
    requires o % 32 == 0 && IsPlace(w)
    ensures Granule(o + w) == o && (o + w) % 32 == w
  {
  }

  /** Storing the raw pointer in the slot keeps the arena consistent and backs the aligned pointer. */
  lemma SlotWrite(K: nat, c: Memory, heads: seq<int>, t: Tree, lists: seq<seq<nat>>, n: nat, ord: nat, ptr: nat)
    returns (c': Memory)
    requires Inv(K, c, heads, t, lists) && Lookup(t, K, n) == Block(ord, Used)
    requires ptr % 8 == 0 && n + HDR + 8 <= ptr <= n + Pow2(ord)
    ensures Granule(ptr - 8) in c && c' == WithWordAt(c, ptr - 8, n + HDR + 1)
    ensures Inv(K, c', heads, t, lists) && Backed(K, t, c', ptr, n + HDR) && KeptOutside(c, c', n, n + Pow2(ord))
  {
    WordWrite(K, c, heads, t, lists, n, ord, ptr - 8, n + HDR + 1);
    SlotBacks(K, c, t, n, ord, ptr);
    c' := WithWordAt(c, ptr - 8, n + HDR + 1);
  }

  /** With the smallest alignment the bytes before the slot are the header's zeroed pad. */
  lemma PadIsNoHeader(c: Memory, n: nat, order: nat)
    requires n % 32 == 0 && n in c && HeaderOk(c[n], order, 1)
    ensures !LooksUsed(c, n + 8)
  {
    WordIn(n, 8);
  }

  /** A granule's words do not share bytes. */
  lemma OtherWord(c: Memory, x: int, y: nat, z: int)
    requires Granule(x) in c && x % 8 == 0 && z % 8 == 0 && x != z
    ensures WordAt(WithWordAt(c, x, y), z) == WordAt(c, z)
  {
    if Granule(x) == Granule(z) {
      PlacesDiffer(x, z);
      OtherPlace(c[Granule(x)], x % 32, y, z % 32);
    }
  }

  lemma PlacesDiffer(x: int, z: int)
    requires x % 8 == 0 && z % 8 == 0 && x != z && Granule(x) == Granule(z)
    ensures IsPlace(x % 32) && IsPlace(z % 32) && x % 32 != z % 32
  {
  }

  lemma OtherPlace(v: Cell, w: nat, y: nat, u: nat)
    requires IsPlace(w) && IsPlace(u) && w != u
    ensures WordOf(WithWord(v, w, y), u) == WordOf(v, u)
  {
  }

  /** The link of a block just handed out is NULL, which is no header either. */
  lemma LinkIsNoHeader(c: Memory, n: nat)
    requires n % 32 == 0 && n in c && c[n].next == NULL
    ensures !LooksUsed(c, n + 16)
  {
    WordIn(n, 16);
  }

  // ---- what an aligned allocation leaves ---------------------------------------------------

  /** The places beyond the two directly behind the header. */
  lemma FarPlace(n: nat, p: nat)
    requires n % 32 == 0 && IsPlaceFor(n + HDR, p)
    ensures p == n + 24 || p == n + 32 || (n + 48 <= p && p % 16 == 0)
  {
    if p != n + HDR + 8 {
      assert p == 16 * (p / 16) && n == 16 * (2 * (n / 32));
    }
  }

  /** The granule of the word before the slot there, and its place in it. */
  lemma FarGranule(n: nat, p: nat) returns (o: nat, w: nat)
    requires n % 32 == 0 && n + 48 <= p && p % 16 == 0
    ensures p - HDR == o + w && n + 32 <= o && (o - n) % 32 == 0 && o % 32 == 0 && (w == 0 || w == 16)
  {
    var q, b := n / 32, p / 16 - 1;
    var h := b / 2;
    assert n == 32 * q && p - HDR == 16 * b && b >= 2 * q + 2 && b == 2 * h + b % 2;
    o, w := 32 * h, 16 * (b % 2);
    Multiple32(h);
    Multiple32(h - q);
  }

  lemma Multiple32(q: nat)
    ensures (32 * q) % 32 == 0
  {
  }

  lemma SafePad(K: nat, c: Memory, t: Tree, n: nat)
    requires WF(t, K) && HeadersOk(K, c, t) && IsUsed(t, K, n)
    ensures !LooksUsed(c, n + 8)
  {
    BlockStart(K, t, n);
    HeaderOfLive(K, c, t, n);
    PadIsNoHeader(c, n, Lookup(t, K, n).order);
  }

  lemma SafeLink(K: nat, t: Tree, mid: Memory, n: nat, y: nat, c: Memory)
    requires WF(t, K) && IsUsed(t, K, n) && Loose(mid, n) && Granule(n + 24) in mid && c == WithWordAt(mid, n + 24, y)
    ensures !LooksUsed(c, n + 16)
  {
    BlockStart(K, t, n);
    WordIn(n, 24);
    LinkIsNoHeader(c, n);
  }

  lemma NearPlace(K: nat, t: Tree, n: nat, p: nat)
    requires WF(t, K) && IsUsed(t, K, n) && IsPlaceFor(n + HDR, p) && p < n + 40
    ensures p == n + 24 || p == n + 32
  {
    BlockStart(K, t, n);
    FarPlace(n, p);
  }

  /** Directly behind the header there is nothing that looks like one. */
  lemma SafePlace(K: nat, c: Memory, t: Tree, mid: Memory, p: nat, n: nat)
    requires WF(t, K) && HeadersOk(K, c, t) && IsUsed(t, K, n)
    requires Slotted(mid, c, p, n + HDR) && Loose(mid, n) && p < n + 40
    ensures !LooksUsed(c, p - HDR)
  {
    NearPlace(K, t, n, p);
    if p == n + 24 {
      SafePad(K, c, t, n);
    } else {
      SafeLink(K, t, mid, n, n + HDR + 1, c);
    }
  }

  /** Further on, what stands before the slot is what stood there before the allocation. */
  lemma StaleHeader(K: nat, c0: Memory, t: Tree, mid: Memory, c: Memory, p: nat, raw: nat)
    requires Mapped(K, c0) && FreshBlock(K, c0, t, mid, raw) && Slotted(mid, c, p, raw) && raw >= HDR
    requires IsUsed(t, K, raw - HDR) && raw + 24 <= p <= raw - HDR + Pow2(Lookup(t, K, raw - HDR).order)
    ensures HeaderAt(c, p - HDR) == HeaderAt(c0, p - HDR)
  {
    var n := raw - HDR;
    BlockStart(K, t, n);
    FarPlace(n, p);
    var o, w := FarGranule(n, p);
    LiveAt(K, c0, t, n, o);
    SlotKeeps(c0, mid, o, w, raw + 1);
  }

  /** Filling a slot leaves the word before it. */
  lemma SlotKeeps(c0: Memory, c: Memory, o: nat, w: nat, y: nat)
    requires o % 32 == 0 && (w == 0 || w == 16) && o in c0 && o in c && c[o] == c0[o]
    ensures Granule(o + w + 8) == o && HeaderAt(WithWordAt(c, o + w + 8, y), o + w) == HeaderAt(c0, o + w)
  {
    WordIn(o, w);
    WordIn(o, w + 8);
    var v := WithWord(c[o], w + 8, y);
    assert WithWordAt(c, o + w + 8, y) == c[o := v];
    if w == 16 {
      assert WordOf(v, 16) == WordOf(c[o], 16);
    }
  }

  /**
   After an aligned allocation `free` will be misled exactly when the pointer lies far enough behind
   the header and the memory there looked like a live header before.
   */
  lemma ClearWhen(K: nat, c0: Memory, t: Tree, mid: Memory, c: Memory, p: nat, raw: nat)
    requires Mapped(K, c0) && FreshBlock(K, c0, t, mid, raw) && Slotted(mid, c, p, raw) && raw >= HDR
      && HeadersOk(K, c, t)
    requires IsUsed(t, K, raw - HDR) && p <= raw - HDR + Pow2(Lookup(t, K, raw - HDR).order)
    ensures LooksUsed(c, p - HDR) <==> raw + 24 <= p && LooksUsed(c0, p - HDR)
  {
    if raw + 24 <= p {
      StaleHeader(K, c0, t, mid, c, p, raw);
    } else {
      SafePlace(K, c, t, mid, p, raw - HDR);
    }
  }

  /** What a live header looks like, as one word. */
  function LiveHeader(ord: nat): nat {
    MAGIC + TWO32 * (ord + TWO16)
  }

  lemma LiveHeaderParts(ord: nat)
    requires ord < TWO16
    ensures var y := LiveHeader(ord); y % TWO32 == MAGIC && y / TWO32 % TWO16 == ord && y / TWO32 / TWO16 == 1
  {
    assert LiveHeader(ord) / TWO32 == ord + TWO16;
  }

  lemma LooksLive(c: Memory, x: int, ord: nat)
    requires Granule(x) in c && ord < TWO16
    ensures var c' := WithWordAt(c, x, LiveHeader(ord)); LooksUsed(c', x) && HeaderAt(c', x).order == ord
  {
    LiveHeaderParts(ord);
    WordRead(c, x, LiveHeader(ord));
  }

  /**
   Whatever the arena, some contents of the bytes before the slot mislead `free_locked`: it then
   takes a place inside the block for a block of its own. The arena stays consistent (`WordWrite`).
   */
  lemma Misled(K: nat, c: Memory, t: Tree, ptr: nat, raw: nat, ord: nat)
    requires WF(t, K) && K <= MAX_ORDER && Backed(K, t, c, ptr, raw) && raw + 24 <= ptr && MIN_ORDER <= ord <= K
    requires Granule(ptr - 16) in c
    ensures var c' := WithWordAt(c, ptr - 16, LiveHeader(ord));
            Backed(K, t, c', ptr, raw) && FreeTarget(K, c', ptr) == ptr - HDR && Lookup(t, K, ptr - HDR).Nothing?
  {
    var c' := WithWordAt(c, ptr - 16, LiveHeader(ord));
    MisledBacked(K, c, t, ptr, raw, LiveHeader(ord));
    LooksLive(c, ptr - 16, ord);
    TargetOf(K, c', ptr);
    NoBlockInside(K, t, raw - HDR, ptr - HDR);
  }

  lemma Before(ptr: int)
    requires ptr % 8 == 0
    ensures (ptr - 8) % 8 == 0 && (ptr - 16) % 8 == 0
  {
  }

  lemma MisledBacked(K: nat, c: Memory, t: Tree, ptr: nat, raw: nat, y: nat)
    requires WF(t, K) && Backed(K, t, c, ptr, raw) && Granule(ptr - 16) in c
    ensures Backed(K, t, WithWordAt(c, ptr - 16, y), ptr, raw)
  {
    Before(ptr);
    OtherWord(c, ptr - 16, y, ptr - 8);
    StillBacked(K, t, c, WithWordAt(c, ptr - 16, y), ptr, raw);
  }

  lemma StillBacked(K: nat, t: Tree, c: Memory, c': Memory, ptr: int, raw: int)
    requires WF(t, K) && Backed(K, t, c, ptr, raw) && WordAt(c', ptr - 8) == WordAt(c, ptr - 8)
    ensures Backed(K, t, c', ptr, raw)
  {
  }

  lemma TargetOf(K: nat, c: Memory, ptr: int)
    requires ptr >= HDR && LooksUsed(c, ptr - HDR) && MIN_ORDER <= HeaderAt(c, ptr - HDR).order <= K
    ensures FreeTarget(K, c, ptr) == ptr - HDR
  {
  }

  /** 8, or a multiple of 16: every power of two from 8 on. */
  predicate Alignment(a: nat) {
    a == 8 || (16 <= a && a % 16 == 0)
  }

  lemma {:induction false} MultipleOf16(x: nat, q: nat)
    requires q > 0 && Multiple(x, 16 * q)
    ensures x % 16 == 0
    decreases x
  {
    if x >= 16 * q {
      MultipleOf16(x - 16 * q, q);
    }
  }

  lemma SmallPowers(k: nat)
    requires Pow2(k) >= 8
    ensures Pow2(3) == 8 && Pow2(4) == 16 && k >= 3
  {
    assert Pow2(2) == 4;
    if k <= 2 {
      Pow2Monotone(k, 2);
    }
  }

  lemma PowerIsAlignment(a: nat)
    requires IsPow2(a) && a >= 8
    ensures Alignment(a)
  {
    var k: nat :| a == Pow2(k);
    SmallPowers(k);
    if k > 3 {
      var q := Pow2Divides(4, k);
      Pow2Monotone(4, k);
    }
  }

  /** Where the aligned pointer of a block can lie. */
  lemma Placement(base: nat, n: nat, p: nat, a: nat)
    requires base % 16 == 0 && n % 32 == 0 && Alignment(a) && Multiple(base + p, a)
    requires n + HDR + 8 <= p < n + HDR + 8 + a
    ensures IsPlaceFor(n + HDR, p)
  {
    if a == 8 {
      MultipleIs(base + p, 8);
      EightPlace(base, n, p);
    } else {
      MultipleOf16(base + p, a / 16);
      SixteenPlace(base, n, p);
    }
  }

  lemma EightPlace(base: nat, n: nat, p: nat)
    requires base % 16 == 0 && n % 32 == 0 && (base + p) % 8 == 0 && n + 24 <= p < n + 32
    ensures p == n + 24
  {
    var x, y, z := base / 16, n / 32, (base + p) / 8;
    assert base == 16 * x && n == 32 * y && base + p == 8 * z;
    assert p == 8 * (z - 2 * x) && z - 2 * x == 4 * y + 3;
  }

  lemma SixteenPlace(base: nat, n: nat, p: nat)
    requires base % 16 == 0 && n % 32 == 0 && (base + p) % 16 == 0 && n + 24 <= p
    ensures n + 32 <= p && p % 16 == 0
  {
    var x, y, z := base / 16, n / 32, (base + p) / 16;
    assert base == 16 * x && n == 32 * y && base + p == 16 * z;
    assert p == 16 * (z - x) && z - x >= 2 * y + 2;
  }
}
