/** Powers of two, the two log2 loops of the allocator and the XOR that finds a buddy. */
module Powers {

  function Pow2(k: nat): (r: nat)
    ensures r >= 1
  {
    if k == 0 then 1 else 2 * Pow2(k - 1)
  }

  lemma {:induction false} Pow2Monotone(a: nat, b: nat)
    requires a <= b
    ensures Pow2(a) <= Pow2(b)
    ensures a < b ==> 2 * Pow2(a) <= Pow2(b)
    decreases b - a
  {
    if a < b {
      Pow2Monotone(a + 1, b);
    }
  }

  lemma {:induction false} Pow2Add(a: nat, b: nat)
    ensures Pow2(a + b) == Pow2(a) * Pow2(b)
  {
    if a != 0 {
      Pow2Add(a - 1, b);
      assert Pow2(a + b) == 2 * Pow2(a - 1 + b);
    }
  }

  /** A power of two divides every larger one; the quotient is even when it is strictly larger. */
  lemma Pow2Divides(a: nat, b: nat) returns (q: nat)
    requires a <= b
    ensures Pow2(b) == q * Pow2(a)
    ensures a < b ==> q % 2 == 0
  {
    q := Pow2(b - a);
    Pow2Add(b - a, a);
  }

  predicate Aligned(off: nat, ord: nat) {
    off % Pow2(ord) == 0
  }

  lemma MultipleIsAligned(q: nat, ord: nat)
    ensures Aligned(q * Pow2(ord), ord)
    ensures (q * Pow2(ord)) / Pow2(ord) == q
  {
    DivUnique(q * Pow2(ord), Pow2(ord), q, 0);
  }

  lemma MulAtLeast(a: int, d: nat)
    requires a >= 1
    ensures a * d >= d
  {
    assert a * d == d + (a - 1) * d;
  }

  /** Euclidean division is unique. */
  lemma DivUnique(n: nat, d: nat, q: nat, r: nat)
    requires d > 0 && n == q * d + r && r < d
    ensures n / d == q && n % d == r
  {
    var q', r' := n / d, n % d;
    assert q * d - q' * d == r' - r;
    if q > q' {
      MulAtLeast(q - q', d);
    } else if q < q' {
      MulAtLeast(q' - q, d);
    }
  }

  /** `v >> k`. */
  function Shr(v: nat, k: nat): (r: nat)
  {
    if k == 0 then v else Shr(v, k - 1) / 2
  }

  lemma {:induction false} ShrBounds(v: nat, k: nat)
    ensures Shr(v, k) * Pow2(k) <= v < (Shr(v, k) + 1) * Pow2(k)
  {
    if k != 0 {
      ShrBounds(v, k - 1);
      HalveProduct(Shr(v, k - 1), Pow2(k - 1));
    }
  }

  lemma HalveProduct(s: nat, p: nat)
    ensures (s / 2) * (2 * p) <= s * p
    ensures (s + 1) * p <= (s / 2 + 1) * (2 * p)
  {
    var h := s / 2;
    var hp := h * p;
    assert h * (2 * p) == 2 * hp && (h + 1) * (2 * p) == 2 * hp + 2 * p;
    if s % 2 == 0 {
      assert s * p == (2 * h) * p == 2 * hp;
    } else {
      assert s * p == (2 * h + 1) * p == 2 * hp + p;
    }
  }

  /** Alignment to a power of two is alignment to every smaller one. */
  lemma AlignedSmaller(off: nat, ord: nat, small: nat)
    requires small <= ord && Aligned(off, ord)
    ensures Aligned(off, small)
  {
    var q := Pow2Divides(small, ord);
    var m := off / Pow2(ord);
    assert off == m * Pow2(ord);
    assert m * (q * Pow2(small)) == (m * q) * Pow2(small);
    MultipleIsAligned(m * q, small);
  }

  /** Bitwise exclusive or of two naturals. */
  function Xor(a: nat, b: nat): (r: nat)
  {
    if a == 0 && b == 0 then 0
    else 2 * Xor(a / 2, b / 2) + (if a % 2 != b % 2 then 1 else 0)
  }

  /** Exclusive or with zero changes nothing. */
  lemma {:induction false} XorZero(a: nat)
    ensures Xor(a, 0) == a
  {
    if a != 0 {
      XorZero(a / 2);
    }
  }

  /** The block of the same size that shares `off`'s parent, said without bits. */
  function Buddy(off: nat, ord: nat): (b: int)
  {
    if (off / Pow2(ord)) % 2 == 0 then off + Pow2(ord) else off - Pow2(ord)
  }

  lemma HalveDiv(off: nat, ord: nat)
    ensures off / Pow2(ord + 1) == (off / 2) / Pow2(ord)
  {
    HalveBoth(off, Pow2(ord));
  }

  lemma HalveBoth(off: nat, d: nat)
    requires d > 0
    ensures off / (2 * d) == (off / 2) / d
  {
    var q, r := (off / 2) / d, (off / 2) % d;
    assert off / 2 == q * d + r;
    assert off == q * (2 * d) + (2 * r + off % 2);
    DivUnique(off, 2 * d, q, 2 * r + off % 2);
  }

  /** XOR with a power of two is the buddy offset, for every offset. */
  lemma {:induction false} XorIsBuddy(off: nat, ord: nat)
    ensures Xor(off, Pow2(ord)) == Buddy(off, ord)
  {
    if ord == 0 {
      XorZero(off / 2);
      assert Xor(off, 1) == 2 * Xor(off / 2, 0) + (if off % 2 != 1 then 1 else 0);
    } else {
      XorIsBuddy(off / 2, ord - 1);
      HalveDiv(off, ord - 1);
      assert Xor(off, Pow2(ord)) == 2 * Xor(off / 2, Pow2(ord - 1)) + off % 2;
    }
  }

  /** Bitwise and of two naturals. */
  function And(a: nat, b: nat): (r: nat)
  {
    if a == 0 || b == 0 then 0
    else 2 * And(a / 2, b / 2) + (if a % 2 == 1 && b % 2 == 1 then 1 else 0)
  }

  ghost predicate IsPow2(a: nat) {
    exists k: nat :: a == Pow2(k)
  }

  /** The test `(a & (a - 1)) == 0` picks out the powers of two. */
  lemma {:induction false} AndTest(a: nat)
    requires a > 0
    ensures And(a, a - 1) == 0 <==> IsPow2(a)
  {
    if a == 1 {
      assert a == Pow2(0);
    } else if a % 2 == 0 {
      AndTest(a / 2);
      assert (a - 1) / 2 == a / 2 - 1;
      if k: nat :| a / 2 == Pow2(k) {
        assert a == Pow2(k + 1);
      }
      if k: nat :| a == Pow2(k) {
        assert k > 0 && a / 2 == Pow2(k - 1);
      }
    } else {
      assert (a - 1) / 2 == a / 2;
      AndSelf(a / 2);
      assert And(a, a - 1) == 2 * And(a / 2, a / 2);
      forall k: nat ensures a != Pow2(k) {
        assert k > 0 ==> Pow2(k) == 2 * Pow2(k - 1);
      }
    }
  }

  method PowerOfTwo(a: nat) returns (b: bool)
    requires a > 0
    ensures b <==> IsPow2(a)
  {
    AndTest(a);
    b := And(a, a - 1) == 0;
  }

  lemma {:induction false} AndSelf(a: nat)
    ensures And(a, a) == a
  {
    if a != 0 {
      AndSelf(a / 2);
    }
  }

  /** `floor_log2_u64`: counts the shifts until nothing is left. */
  method FloorLog2(v: nat) returns (r: nat)
    ensures v == 0 ==> r == 0
    ensures v > 0 ==> Pow2(r) <= v < Pow2(r + 1)
  {
    r := 0;
    var w := v / 2;
    while w != 0
      invariant w == Shr(v, r + 1)
      invariant v > 0 ==> Shr(v, r) >= 1
      invariant v == 0 ==> r == 0
      decreases w
    {
      r, w := r + 1, w / 2;
    }
    ShrBounds(v, r);
    ShrBounds(v, r + 1);
    if v > 0 {
      MulAtLeast(Shr(v, r), Pow2(r));
    }
  }

  /** `ceil_log2_u64`: the least exponent whose power reaches `v`. */
  method CeilLog2(v: nat) returns (r: nat)
    ensures v <= Pow2(r)
    ensures forall j: nat :: v <= Pow2(j) ==> r <= j
  {
    if v <= 1 {
      return 0;
    }
    var f := FloorLog2(v - 1);
    r := f + 1;
    forall j: nat | v <= Pow2(j) ensures r <= j {
      if j < r {
        Pow2Monotone(j, f);
      }
    }
  }
}
