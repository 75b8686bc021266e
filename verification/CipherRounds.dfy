/**
 The block function of src/ftp_crypto.c as sections 2.1 and 2.3 of RFC 7539 describe it: what the quarter round does
 to words, which words a round touches, that nothing is lost, and that no two blocks of a key enter it alike.
 */
module CipherRounds {
  import opened Common
  import opened Powers
  import opened Cipher

  // ---- the quarter round -------------------------------------------------------------------------

  lemma {:induction false} XorSelf(a: nat)
    ensures Xor(a, a) == 0
  {
    if a != 0 {
      XorSelf(a / 2);
    }
  }

  lemma {:induction false} ZeroXor(a: nat)
    ensures Xor(0, a) == a
  {
    if a != 0 {
      ZeroXor(a / 2);
    }
  }

  lemma WordXor(a: Word)
    ensures XorWord(0, a) == a && XorWord(a, 0) == a && XorWord(a, a) == 0
  {
    XorSelf(a);
    ZeroXor(a);
    XorZero(a);
  }

  function Negated(w: Word): Word {
    Sub(0, w)
  }

  lemma AddNegated(w: Word)
    ensures Add(Negated(w), w) == 0 && Add(w, 0) == w && Add(0, w) == w
  {
  }

  /** The sums and exclusive ors of a quarter round, in their order. */
  predicate Steps(q: Four, a1: Word, x1: Word, c1: Word, x2: Word, a2: Word, x3: Word, c2: Word, x4: Word) {
    && a1 == Add(q.a, q.b) && x1 == XorWord(q.d, a1)
    && c1 == Add(q.c, Rotl16(x1)) && x2 == XorWord(q.b, c1)
    && a2 == Add(a1, Rotl12(x2)) && x3 == XorWord(Rotl16(x1), a2)
    && c2 == Add(c1, Rotl8(x3)) && x4 == XorWord(Rotl12(x2), c2)
  }

  lemma QuarterVia(q: Four, a1: Word, x1: Word, c1: Word, x2: Word, a2: Word, x3: Word, c2: Word, x4: Word)
    requires Steps(q, a1, x1, c1, x2, a2, x3, c2, x4)
    ensures Quarter(q) == Four(a2, Rotl7(x4), c2, Rotl8(x3))
  {
  }

  lemma RotateZero()
    ensures Rotl16(0) == 0 && Rotl12(0) == 0 && Rotl8(0) == 0
  {
    DivUnique(0, 0x1_0000, 0, 0);
    DivUnique(0, 0x10_0000, 0, 0);
    DivUnique(0, 0x100_0000, 0, 0);
  }

  lemma EndsSteps(a: Word, e: Word)
    requires e == Rotl8(a)
    ensures Steps(Four(a, 0, 0, a), a, 0, 0, 0, a, a, e, e)
  {
    WordXor(a);
    WordXor(e);
    WordXor(0);
    AddNegated(a);
    AddNegated(e);
    RotateZero();
  }

  lemma MiddleSteps(b: Word)
    ensures Steps(Four(Negated(b), b, b, 0), 0, 0, b, 0, 0, 0, b, b)
  {
    WordXor(b);
    WordXor(0);
    AddNegated(b);
    RotateZero();
  }

  lemma LastSteps(d: Word, e: Word, f: Word)
    requires e == Rotl16(d) && f == Rotl8(e)
    ensures Steps(Four(0, 0, Negated(e), d), 0, d, 0, 0, 0, e, f, f)
  {
    LastXors(d, e, f);
    LastSums(e, f);
    RotateZero();
  }

  lemma LastXors(d: Word, e: Word, f: Word)
    ensures XorWord(d, 0) == d && XorWord(0, 0) == 0 && XorWord(e, 0) == e && XorWord(0, f) == f
  {
    WordXor(d);
    WordXor(e);
    WordXor(f);
    WordXor(0);
  }

  lemma LastSums(e: Word, f: Word)
    ensures Add(0, 0) == 0 && Add(Negated(e), e) == 0 && Add(0, f) == f
  {
    AddNegated(0);
    AddNegated(e);
    AddNegated(f);
  }

  lemma SecondSteps(b: Word, e: Word, f: Word)
    requires e == Rotl12(b) && f == Rotl8(e)
    ensures Steps(Four(Negated(b), b, 0, 0), 0, 0, 0, b, e, e, f, XorWord(e, f))
  {
    SecondXors(b, e);
    SecondSums(b, e, f);
    RotateZero();
  }

  lemma SecondXors(b: Word, e: Word)
    ensures XorWord(0, 0) == 0 && XorWord(b, 0) == b && XorWord(0, e) == e
  {
    WordXor(b);
    WordXor(e);
    WordXor(0);
  }

  lemma SecondSums(b: Word, e: Word, f: Word)
    ensures Add(Negated(b), b) == 0 && Add(0, 0) == 0 && Add(0, e) == e && Add(0, f) == f
  {
    AddNegated(0);
    AddNegated(b);
    AddNegated(e);
    AddNegated(f);
  }

  /** Equal words `a` and `d` cancel: `a` stays and the rest is `a` turned by 8 bits, and by 7 more. */
  lemma QuarterOfEnds(a: Word, e: Word)
    requires e == Rotl8(a)
    ensures Quarter(Four(a, 0, 0, a)) == Four(a, Rotl7(e), e, e)
  {
    EndsSteps(a, e);
    QuarterVia(Four(a, 0, 0, a), a, 0, 0, 0, a, a, e, e);
  }

  /** Where the sums cancel, `b` is turned by 7 bits. */
  lemma QuarterOfMiddle(b: Word)
    ensures Quarter(Four(Negated(b), b, b, 0)) == Four(0, Rotl7(b), b, 0)
  {
    MiddleSteps(b);
    QuarterVia(Four(Negated(b), b, b, 0), 0, 0, b, 0, 0, 0, b, b);
    assert Rotl8(0) == 0 by {
      RotateZero();
    }
  }

  /** `d` is turned by 16 and then 8 bits, and for `b` by 7 more. */
  lemma QuarterOfLast(d: Word, e: Word, f: Word)
    requires e == Rotl16(d) && f == Rotl8(e)
    ensures Quarter(Four(0, 0, Negated(e), d)) == Four(0, Rotl7(f), f, f)
  {
    LastSteps(d, e, f);
    QuarterVia(Four(0, 0, Negated(e), d), 0, d, 0, 0, 0, e, f, f);
  }

  /** `b` alone is turned by 12 bits into `a`, and by 8 more into `c` and `d`. */
  lemma QuarterOfSecond(b: Word, e: Word, f: Word)
    requires e == Rotl12(b) && f == Rotl8(e)
    ensures Quarter(Four(Negated(b), b, 0, 0)) == Four(e, Rotl7(XorWord(e, f)), f, f)
  {
    SecondSteps(b, e, f);
    QuarterVia(Four(Negated(b), b, 0, 0), 0, 0, 0, b, e, e, f, XorWord(e, f));
  }

  // ---- rounds ----------------------------------------------------------------------------------------

  /** A quarter round changes its four words and no other. */
  lemma QuarterAtIs(x: Words, i: nat, j: nat, k: nat, l: nat, y: Words)
    requires Distinct(i, j, k, l) && y == QuarterAt(x, i, j, k, l)
    ensures Four(y[i], y[j], y[k], y[l]) == Quarter(Four(x[i], x[j], x[k], x[l]))
    ensures forall m :: 0 <= m < 16 && m != i && m != j && m != k && m != l ==> y[m] == x[m]
  {
  }

  /** Column `i` of the four by four matrix of words. */
  function Column(x: Words, i: nat): Four
    requires i < 4
  {
    Four(x[i], x[4 + i], x[8 + i], x[12 + i])
  }

  /** The diagonal that starts in column `i` and goes one to the right in each row. */
  function Diagonal(x: Words, i: nat): Four
    requires i < 4
  {
    Four(x[i], x[4 + (i + 1) % 4], x[8 + (i + 2) % 4], x[12 + (i + 3) % 4])
  }

  lemma ColumnsAre(x: Words, y: Words)
    requires y == QuarterAt(QuarterAt(QuarterAt(QuarterAt(x, 0, 4, 8, 12), 1, 5, 9, 13), 2, 6, 10, 14), 3, 7, 11, 15)
    ensures forall i :: 0 <= i < 4 ==> Column(y, i) == Quarter(Column(x, i))
  {
    var x0 := QuarterAt(x, 0, 4, 8, 12);
    var x1 := QuarterAt(x0, 1, 5, 9, 13);
    var x2 := QuarterAt(x1, 2, 6, 10, 14);
    QuarterAtIs(x, 0, 4, 8, 12, x0);
    QuarterAtIs(x0, 1, 5, 9, 13, x1);
    QuarterAtIs(x1, 2, 6, 10, 14, x2);
    QuarterAtIs(x2, 3, 7, 11, 15, y);
  }

  lemma DiagonalQuarters(x: Words, y: Words)
    requires y == QuarterAt(QuarterAt(QuarterAt(QuarterAt(x, 0, 5, 10, 15), 1, 6, 11, 12), 2, 7, 8, 13), 3, 4, 9, 14)
    ensures Four(y[0], y[5], y[10], y[15]) == Quarter(Four(x[0], x[5], x[10], x[15]))
    ensures Four(y[1], y[6], y[11], y[12]) == Quarter(Four(x[1], x[6], x[11], x[12]))
    ensures Four(y[2], y[7], y[8], y[13]) == Quarter(Four(x[2], x[7], x[8], x[13]))
    ensures Four(y[3], y[4], y[9], y[14]) == Quarter(Four(x[3], x[4], x[9], x[14]))
  {
    var x0 := QuarterAt(x, 0, 5, 10, 15);
    var x1 := QuarterAt(x0, 1, 6, 11, 12);
    var x2 := QuarterAt(x1, 2, 7, 8, 13);
    QuarterAtIs(x, 0, 5, 10, 15, x0);
    QuarterAtIs(x0, 1, 6, 11, 12, x1);
    QuarterAtIs(x1, 2, 7, 8, 13, x2);
    QuarterAtIs(x2, 3, 4, 9, 14, y);
  }

  lemma DiagonalsAre(x: Words, y: Words)
    requires y == QuarterAt(QuarterAt(QuarterAt(QuarterAt(x, 0, 5, 10, 15), 1, 6, 11, 12), 2, 7, 8, 13), 3, 4, 9, 14)
    ensures forall i :: 0 <= i < 4 ==> Diagonal(y, i) == Quarter(Diagonal(x, i))
  {
    DiagonalQuarters(x, y);
  }

  /** A double round is the quarter round on each column and then on each diagonal. */
  lemma DoubleRoundIs(x: Words) returns (y: Words)
    ensures forall i :: 0 <= i < 4 ==> Column(y, i) == Quarter(Column(x, i))
    ensures forall i :: 0 <= i < 4 ==> Diagonal(DoubleRound(x), i) == Quarter(Diagonal(y, i))
  {
    y := QuarterAt(QuarterAt(QuarterAt(QuarterAt(x, 0, 4, 8, 12), 1, 5, 9, 13), 2, 6, 10, 14), 3, 7, 11, 15);
    ColumnsAre(x, y);
    DiagonalsAre(y, DoubleRound(x));
  }

  lemma QuarterInjective(q: Four, q': Four)
    requires Quarter(q) == Quarter(q')
    ensures q == q'
  {
    QuarterInvertible(q);
    QuarterInvertible(q');
  }

  /** Equal columns, or equal diagonals, make equal states. */
  lemma SameWords(x: Words, y: Words)
    requires (forall i :: 0 <= i < 4 ==> Column(x, i) == Column(y, i))
          || (forall i :: 0 <= i < 4 ==> Diagonal(x, i) == Diagonal(y, i))
    ensures x == y
  {
    if forall i :: 0 <= i < 4 ==> Column(x, i) == Column(y, i) {
      forall k | 0 <= k < 16 ensures x[k] == y[k] {
        assert Column(x, k % 4) == Column(y, k % 4);
      }
    } else {
      assert Diagonal(x, 0) == Diagonal(y, 0) && Diagonal(x, 1) == Diagonal(y, 1);
      assert Diagonal(x, 2) == Diagonal(y, 2) && Diagonal(x, 3) == Diagonal(y, 3);
    }
  }

  lemma DoubleRoundInjective(x: Words, x': Words)
    requires DoubleRound(x) == DoubleRound(x')
    ensures x == x'
  {
    var y := DoubleRoundIs(x);
    var y' := DoubleRoundIs(x');
    forall i | 0 <= i < 4 ensures Diagonal(y, i) == Diagonal(y', i) {
      QuarterInjective(Diagonal(y, i), Diagonal(y', i));
    }
    SameWords(y, y');
    forall i | 0 <= i < 4 ensures Column(x, i) == Column(x', i) {
      QuarterInjective(Column(x, i), Column(x', i));
    }
    SameWords(x, x');
  }

  ghost predicate Injective(f: Words -> Words) {
    forall x, y :: f(x) == f(y) ==> x == y
  }

  lemma {:induction false} IterateInjective(f: Words -> Words, x: Words, y: Words, n: nat)
    requires Injective(f) && Iterate(f, x, n) == Iterate(f, y, n)
    ensures x == y
  {
    if n > 0 {
      IterateInjective(f, x, y, n - 1);
    }
  }

  /** However many rounds, the state can be told from what they make of it. */
  lemma RoundsInjective(x: Words, y: Words, n: nat)
    requires Rounds(x, n) == Rounds(y, n)
    ensures x == y
  {
    forall u, v | DoubleRound(u) == DoubleRound(v) ensures u == v {
      DoubleRoundInjective(u, v);
    }
    IterateInjective(DoubleRound, x, y, n);
  }

  // ---- the blocks of one key -----------------------------------------------------------------------

  /** The state that enters block `n` is the key's, with the low 32 bits of `n` in its counter word. */
  lemma CounterIs(base: Words, n: nat)
    ensures WithCounter(base, n)[12] == n % 0x1_0000_0000
    ensures forall i :: 0 <= i < 16 && i != 12 ==> WithCounter(base, n)[i] == base[i]
  {
  }

  /** After any number of rounds, two blocks of a key are alike exactly when their numbers agree in 32 bits. */
  lemma BlocksDiffer(base: Words, n: nat, m: nat, rounds: nat)
    ensures Rounds(WithCounter(base, n), rounds) == Rounds(WithCounter(base, m), rounds)
       <==> n % 0x1_0000_0000 == m % 0x1_0000_0000
  {
    CounterIs(base, n);
    CounterIs(base, m);
    if n % 0x1_0000_0000 == m % 0x1_0000_0000 {
      assert WithCounter(base, n) == WithCounter(base, m);
    } else if Rounds(WithCounter(base, n), rounds) == Rounds(WithCounter(base, m), rounds) {
      RoundsInjective(WithCounter(base, n), WithCounter(base, m), rounds);
    }
  }

  /** After 2^32 blocks the keystream starts again. */
  lemma KeystreamRepeats(base: Words, p: nat)
    ensures Keystream(base, p + 64 * 0x1_0000_0000) == Keystream(base, p)
  {
    var n, j := p / 64, p % 64;
    var m := n + 0x1_0000_0000;
    DivUnique(p + 64 * 0x1_0000_0000, 64, m, j);
    assert m % 0x1_0000_0000 == n % 0x1_0000_0000;
  }

  /** A block, less the state it was made from, is that state after twenty rounds. */
  lemma BlockOpens(state: Words, i: nat)
    requires i < 16
    ensures Sub(Load(Block(state), 4 * i), state[i]) == Rounds(state, 10)[i]
  {
    var x := Rounds(state, 10);
    var w := Sum(x, state);
    var out := Serialize(w);
    WordStored(w, i);
    AddUndo(x[i], state[i]);
  }

  lemma WordStored(w: Words, i: nat)
    requires i < 16
    ensures Load(Serialize(w), 4 * i) == w[i]
  {
    var out := Serialize(w);
    forall j | 0 <= j < 4 ensures out[4 * i + j] == ByteOf(w[i], j) {
      DivUnique(4 * i + j, 4, i, j);
    }
    LoadStore(w[i]);
    assert out[4 * i + 0] == ByteOf(w[i], 0);
  }

  /** "expand 32-byte k" */
  const EXPAND: seq<Byte> := [101, 120, 112, 97, 110, 100, 32, 51, 50, 45, 98, 121, 116, 101, 32, 107]

  /** The state holds, in order, the constant text, the key's bytes, a counter of zero and the nonce's bytes. */
  lemma KeyStored(key: seq<Byte>, nonce: seq<Byte>)
    requires |key| == 32 && |nonce| == 12
    ensures Serialize(KeyState(key, nonce)) == EXPAND + key + [0, 0, 0, 0] + nonce
  {
    var s := KeyState(key, nonce);
    var bytes := EXPAND + key + [0, 0, 0, 0] + nonce;
    forall k | 0 <= k < 16 ensures s[k] == Load(bytes, 4 * k) {
      if k < 4 {
        ConstantWords();
        LoadPart([], EXPAND, key + [0, 0, 0, 0] + nonce, 4 * k, bytes);
      } else if k < 12 {
        LoadPart(EXPAND, key, [0, 0, 0, 0] + nonce, 4 * (k - 4), bytes);
      } else if k > 12 {
        LoadPart(EXPAND + key + [0, 0, 0, 0], nonce, [], 4 * (k - 13), bytes);
      }
    }
    Stored(s, bytes);
  }

  lemma ConstantWords()
    ensures Load(EXPAND, 0) == 0x61707865 && Load(EXPAND, 4) == 0x3320646E
    ensures Load(EXPAND, 8) == 0x79622D32 && Load(EXPAND, 12) == 0x6B206574
  {
  }

  lemma LoadPart(front: seq<Byte>, part: seq<Byte>, rest: seq<Byte>, i: nat, bytes: seq<Byte>)
    requires i + 4 <= |part| && bytes == front + part + rest
    ensures Load(bytes, |front| + i) == Load(part, i)
  {
  }

  /** Words loaded from bytes are stored as those bytes. */
  lemma Stored(w: Words, bytes: seq<Byte>)
    requires |bytes| == 64 && forall k :: 0 <= k < 16 ==> w[k] == Load(bytes, 4 * k)
    ensures Serialize(w) == bytes
  {
    forall i | 0 <= i < 64 ensures Serialize(w)[i] == bytes[i] {
      StoreLoad(bytes, 4 * (i / 4), i % 4);
    }
  }

  /** Loading a word and storing it again gives its bytes. */
  lemma StoreLoad(b: seq<Byte>, i: nat, j: nat)
    requires i + 4 <= |b| && j < 4
    ensures ByteOf(Load(b, i), j) == b[i + j]
  {
    var b0: nat, b1: nat, b2: nat, b3: nat := b[i], b[i + 1], b[i + 2], b[i + 3];
    var w: nat := Load(b, i);
    DivUnique(w, 0x100, b1 + 0x100 * b2 + 0x1_0000 * b3, b0);
    DivUnique(w, 0x1_0000, b2 + 0x100 * b3, b0 + 0x100 * b1);
    DivUnique(w, 0x100_0000, b3, b0 + 0x100 * b1 + 0x1_0000 * b2);
  }
}
