/**
 The ChaCha20 stream cipher of src/ftp_crypto.c (sections 2.1, 2.3 and 2.4 of RFC 7539) and
 the way src/ftp_session.c applies it to the data connection.
 */
module Cipher {
  import opened Common
  import opened Powers

  const WRAP: nat := 0x1_0000_0000
  const DOUBLE_ROUNDS: nat := 10

  type Word = w: nat | w < 0x1_0000_0000
  type Words = s: seq<Word> | |s| == 16 witness seq(16, _ => 0)

  // ---- 32-bit arithmetic ------------------------------------------------------------------------

  lemma {:induction false} XorBound(a: nat, b: nat, k: nat)
    requires a < Pow2(k) && b < Pow2(k)
    ensures Xor(a, b) < Pow2(k)
    decreases k
  {
    if k > 0 {
      XorBound(a / 2, b / 2, k - 1);
    }
  }

  /** Exclusive or, bit by bit. */
  lemma XorBit(x: nat, y: nat, p: nat, q: nat)
    requires p < 2 && q < 2
    ensures Xor(2 * x + p, 2 * y + q) == 2 * Xor(x, y) + if p != q then 1 else 0
  {
    assert (2 * x + p) / 2 == x && (2 * y + q) / 2 == y;
  }

  lemma {:induction false} XorUndo(a: nat, b: nat)
    ensures Xor(Xor(a, b), b) == a
    decreases a + b
  {
    if a + b > 0 {
      var x, y, p, q := a / 2, b / 2, a % 2, b % 2;
      XorUndo(x, y);
      UndoBit(x, y, p, q);
      assert a == 2 * x + p && b == 2 * y + q;
    }
  }

  lemma UndoBit(x: nat, y: nat, p: nat, q: nat)
    requires p < 2 && q < 2 && Xor(Xor(x, y), y) == x
    ensures Xor(Xor(2 * x + p, 2 * y + q), 2 * y + q) == 2 * x + p
  {
    XorBit(x, y, p, q);
    XorBit(Xor(x, y), y, if p != q then 1 else 0, q);
  }

  function Add(a: Word, b: Word): Word {
    (a + b) % WRAP
  }

  function XorWord(a: Word, b: Word): Word {
    WordBits();
    XorBound(a, b, 32);
    Xor(a, b)
  }

  lemma WordBits()
    ensures Pow2(32) == WRAP
  {
    assert Pow2(8) == 256;
    Pow2Add(8, 8);
    Pow2Add(16, 16);
  }

  function XorByte(a: Byte, b: Byte): Byte {
    assert Pow2(8) == 256;
    XorBound(a, b, 8);
    Xor(a, b)
  }

  /** `rotl32` by 16, 12, 8 and 7 bits: the low part moves up, the high part comes down. */
  function Rotl16(v: Word): Word { (v % 0x1_0000) * 0x1_0000 + v / 0x1_0000 }
  function Rotl12(v: Word): Word { (v % 0x10_0000) * 0x1000 + v / 0x10_0000 }
  function Rotl8(v: Word): Word { (v % 0x100_0000) * 0x100 + v / 0x100_0000 }
  function Rotl7(v: Word): Word { (v % 0x200_0000) * 0x80 + v / 0x200_0000 }

  /** `load32_le` */
  function Load(b: seq<Byte>, i: nat): Word
    requires i + 4 <= |b|
  {
    var b0: nat, b1: nat, b2: nat, b3: nat := b[i], b[i + 1], b[i + 2], b[i + 3];
    b0 + 0x100 * b1 + 0x1_0000 * b2 + 0x100_0000 * b3
  }

  /** Byte `j` of a word, least significant first. */
  function ByteOf(w: Word, j: nat): Byte
    requires j < 4
  {
    if j == 0 then w % 256 else if j == 1 then (w / 0x100) % 256 else if j == 2 then (w / 0x1_0000) % 256
      else w / 0x100_0000
  }

  /** Storing a word and loading it again gives the word. */
  lemma LoadStore(w: Word)
    ensures Load([ByteOf(w, 0), ByteOf(w, 1), ByteOf(w, 2), ByteOf(w, 3)], 0) == w
  {
    var x := w / 256;
    var y := x / 256;
    assert w / 0x1_0000 == y && w / 0x100_0000 == y / 256;
    assert w == 256 * x + w % 256 && x == 256 * y + x % 256 && y == 256 * (y / 256) + y % 256;
  }

  // ---- the block function ---------------------------------------------------------------------

  datatype Four = Four(a: Word, b: Word, c: Word, d: Word)

  /** Section 2.1: the quarter round on four words. */
  function Quarter(q: Four): Four {
    var a1 := Add(q.a, q.b); var d1 := Rotl16(XorWord(q.d, a1));
    var c1 := Add(q.c, d1); var b1 := Rotl12(XorWord(q.b, c1));
    var a2 := Add(a1, b1); var d2 := Rotl8(XorWord(d1, a2));
    var c2 := Add(c1, d2); var b2 := Rotl7(XorWord(b1, c2));
    Four(a2, b2, c2, d2)
  }

  function Sub(a: Word, b: Word): Word {
    (a + WRAP - b) % WRAP
  }

  function Rotr16(v: Word): Word { Rotl16(v) }
  function Rotr12(v: Word): Word { (v % 0x1000) * 0x10_0000 + v / 0x1000 }
  function Rotr8(v: Word): Word { (v % 0x100) * 0x100_0000 + v / 0x100 }
  function Rotr7(v: Word): Word { (v % 0x80) * 0x200_0000 + v / 0x80 }

  /** The quarter round run backwards. */
  function Unquarter(q: Four): Four {
    var b1 := XorWord(Rotr7(q.b), q.c); var c1 := Sub(q.c, q.d);
    var d1 := XorWord(Rotr8(q.d), q.a); var a1 := Sub(q.a, b1);
    var b0 := XorWord(Rotr12(b1), c1); var c0 := Sub(c1, d1);
    var d0 := XorWord(Rotr16(d1), a1); var a0 := Sub(a1, b0);
    Four(a0, b0, c0, d0)
  }

  /** Each rotation multiplies by its power of two, with the overflow coming back at the bottom. */
  lemma RotationAmounts(v: Word)
    ensures Rotl16(v) == (v * 0x1_0000) % WRAP + (v * 0x1_0000) / WRAP
    ensures Rotl12(v) == (v * 0x1000) % WRAP + (v * 0x1000) / WRAP
    ensures Rotl8(v) == (v * 0x100) % WRAP + (v * 0x100) / WRAP
    ensures Rotl7(v) == (v * 0x80) % WRAP + (v * 0x80) / WRAP
  {
    RotationAmount(v, 0x1_0000, 0x1_0000);
    RotationAmount(v, 0x1000, 0x10_0000);
    RotationAmount(v, 0x100, 0x100_0000);
    RotationAmount(v, 0x80, 0x200_0000);
  }

  lemma RotationAmount(v: nat, hi: nat, lo: nat)
    requires hi > 0 && lo > 0 && hi * lo == WRAP
    ensures (v % lo) * hi == (v * hi) % WRAP && v / lo == (v * hi) / WRAP
  {
    var q, r := v / lo, v % lo;
    assert v * hi == q * WRAP + r * hi by { assert v == q * lo + r; assert (q * lo) * hi == q * (hi * lo); }
    assert r * hi < WRAP by { MulAtLeast(lo - r, hi); assert (lo - r) * hi == lo * hi - r * hi; }
    DivUnique(v * hi, WRAP, q, r * hi);
  }

  lemma RotationsUndo(v: Word)
    ensures Rotr16(Rotl16(v)) == v && Rotr12(Rotl12(v)) == v && Rotr8(Rotl8(v)) == v && Rotr7(Rotl7(v)) == v
  {
    Undo16(v);
    Undo12(v);
    Undo8(v);
    Undo7(v);
  }

  lemma Undo16(v: Word)
    ensures Rotr16(Rotl16(v)) == v
  {
    RotationUndo(v, 0x1_0000, 0x1_0000);
  }

  lemma Undo12(v: Word)
    ensures Rotr12(Rotl12(v)) == v
  {
    RotationUndo(v, 0x1000, 0x10_0000);
  }

  lemma Undo8(v: Word)
    ensures Rotr8(Rotl8(v)) == v
  {
    RotationUndo(v, 0x100, 0x100_0000);
  }

  lemma Undo7(v: Word)
    ensures Rotr7(Rotl7(v)) == v
  {
    RotationUndo(v, 0x80, 0x200_0000);
  }

  lemma RotationUndo(v: Word, hi: nat, lo: nat)
    requires hi > 0 && lo > 0 && hi * lo == WRAP
    ensures var w := (v % lo) * hi + v / lo; w % hi == v / lo && w / hi == v % lo
  {
    var q, r := v / lo, v % lo;
    if q >= hi {
      MulAtLeast(q - hi + 1, lo);
    }
    DivUnique(r * hi + q, hi, r, q);
  }

  /** The quarter round loses nothing: it can be undone for all inputs. */
  lemma QuarterInvertible(q: Four)
    ensures Unquarter(Quarter(q)) == q
  {
    var a1 := Add(q.a, q.b); var x1 := XorWord(q.d, a1); var d1 := Rotl16(x1);
    var c1 := Add(q.c, d1); var x2 := XorWord(q.b, c1); var b1 := Rotl12(x2);
    var a2 := Add(a1, b1); var x3 := XorWord(d1, a2); var d2 := Rotl8(x3);
    var c2 := Add(c1, d2); var x4 := XorWord(b1, c2);
    RotationsUndo(x1); RotationsUndo(x2); RotationsUndo(x3); RotationsUndo(x4);
    XorUndo(q.d, a1); XorUndo(q.b, c1); XorUndo(d1, a2); XorUndo(b1, c2);
    AddUndo(q.a, q.b); AddUndo(q.c, d1); AddUndo(a1, b1); AddUndo(c1, d2);
  }

  lemma AddUndo(a: Word, b: Word)
    ensures Sub(Add(a, b), b) == a
  {
  }

  predicate Distinct(i: nat, j: nat, k: nat, l: nat) {
    i < 16 && j < 16 && k < 16 && l < 16 && i != j && i != k && i != l && j != k && j != l && k != l
  }

  function QuarterAt(x: Words, i: nat, j: nat, k: nat, l: nat): Words
    requires Distinct(i, j, k, l)
  {
    var q := Quarter(Four(x[i], x[j], x[k], x[l]));
    x[i := q.a][j := q.b][k := q.c][l := q.d]
  }

  function DoubleRound(x: Words): Words {
    var x1 := QuarterAt(QuarterAt(QuarterAt(QuarterAt(x, 0, 4, 8, 12), 1, 5, 9, 13), 2, 6, 10, 14), 3, 7, 11, 15);
    QuarterAt(QuarterAt(QuarterAt(QuarterAt(x1, 0, 5, 10, 15), 1, 6, 11, 12), 2, 7, 8, 13), 3, 4, 9, 14)
  }

  function Iterate(f: Words -> Words, x: Words, n: nat): Words {
    if n == 0 then x else f(Iterate(f, x, n - 1))
  }

  function Rounds(x: Words, n: nat): Words {
    Iterate(DoubleRound, x, n)
  }

  function Sum(x: Words, y: Words): Words {
    seq(16, i requires 0 <= i < 16 => Add(x[i], y[i]))
  }

  function Serialize(w: Words): (r: seq<Byte>)
    ensures |r| == 64
  {
    seq(64, i requires 0 <= i < 64 => ByteOf(w[i / 4], i % 4))
  }

  /** Section 2.3: the 64 bytes of keystream for one state. */
  function Block(state: Words): (r: seq<Byte>)
    ensures |r| == 64
  {
    Serialize(Sum(Rounds(state, DOUBLE_ROUNDS), state))
  }

  method QuarterRound(x: array<Word>, a: nat, b: nat, c: nat, d: nat)
    requires x.Length == 16 && Distinct(a, b, c, d)
    modifies x
    ensures x[..] == QuarterAt(old(x[..]), a, b, c, d)
  {
    ghost var q := Quarter(Four(x[a], x[b], x[c], x[d]));
    x[a] := Add(x[a], x[b]);
    x[d] := XorWord(x[d], x[a]);
    x[d] := Rotl16(x[d]);
    x[c] := Add(x[c], x[d]);
    x[b] := XorWord(x[b], x[c]);
    x[b] := Rotl12(x[b]);
    x[a] := Add(x[a], x[b]);
    x[d] := XorWord(x[d], x[a]);
    x[d] := Rotl8(x[d]);
    x[c] := Add(x[c], x[d]);
    x[b] := XorWord(x[b], x[c]);
    x[b] := Rotl7(x[b]);
    assert Four(x[a], x[b], x[c], x[d]) == q;
  }

  /** `chacha20_block` */
  method ChachaBlock(state: array<Word>, out: array<Byte>)
    requires state.Length == 16 && out.Length == 64
    modifies out
    ensures out[..] == Block(state[..])
  {
    ghost var s0: Words := state[..];
    var x := new Word[16](i requires 0 <= i < 16 reads state => state[i]);
    assert x[..] == s0;
    for i := 0 to DOUBLE_ROUNDS
      invariant x[..] == Rounds(s0, i)
    {
      DoubleRoundInPlace(x);
    }
    AddState(x, state);
    StoreWords(x, out);
  }

  method AddState(x: array<Word>, state: array<Word>)
    requires x.Length == 16 && state.Length == 16 && x != state
    modifies x
    ensures x[..] == Sum(old(x[..]), state[..])
  {
    for i := 0 to 16
      invariant forall j :: 0 <= j < 16 ==> x[j] == if j < i then Add(old(x[j]), state[j]) else old(x[j])
    {
      x[i] := Add(x[i], state[i]);
    }
  }

  method StoreWords(x: array<Word>, out: array<Byte>)
    requires x.Length == 16 && out.Length == 64
    modifies out
    ensures out[..] == Serialize(x[..])
  {
    for i := 0 to 64
      invariant forall j :: 0 <= j < i ==> out[j] == ByteOf(x[j / 4], j % 4)
    {
      out[i] := ByteOf(x[i / 4], i % 4);
    }
  }

  method DoubleRoundInPlace(x: array<Word>)
    requires x.Length == 16
    modifies x
    ensures x[..] == DoubleRound(old(x[..]))
  {
    QuarterRound(x, 0, 4, 8, 12);
    QuarterRound(x, 1, 5, 9, 13);
    QuarterRound(x, 2, 6, 10, 14);
    QuarterRound(x, 3, 7, 11, 15);
    QuarterRound(x, 0, 5, 10, 15);
    QuarterRound(x, 1, 6, 11, 12);
    QuarterRound(x, 2, 7, 8, 13);
    QuarterRound(x, 3, 4, 9, 14);
  }

  // ---- the keystream ------------------------------------------------------------------------------

  function WithCounter(base: Words, n: nat): Words {
    base[12 := n % WRAP]
  }

  /** Keystream byte at stream position `p`: a function of key, nonce and position alone. */
  function Keystream(base: Words, p: nat): Byte {
    Block(WithCounter(base, p / 64))[p % 64]
  }

  /** A stretch of the stream starting at position `p`, encrypted or decrypted with keystream `ks`. */
  function Crypt(ks: nat -> Byte, p: nat, data: seq<Byte>): (r: seq<Byte>)
    ensures |r| == |data|
  {
    seq(|data|, i requires 0 <= i < |data| => XorByte(data[i], ks(p + i)))
  }

  /** The state matrix of section 2.3: constants, key, counter 0, nonce. */
  function KeyState(key: seq<Byte>, nonce: seq<Byte>): Words
    requires |key| == 32 && |nonce| == 12
  {
    [0x61707865, 0x3320646E, 0x79622D32, 0x6B206574]
    + seq(8, i requires 0 <= i < 8 => Load(key, 4 * i))
    + [0, Load(nonce, 0), Load(nonce, 4), Load(nonce, 8)]
  }

  /** Cutting the data anywhere makes no difference, as long as the position moves on. */
  lemma CryptConcat(ks: nat -> Byte, p: nat, a: seq<Byte>, b: seq<Byte>)
    ensures Crypt(ks, p, a + b) == Crypt(ks, p, a) + Crypt(ks, p + |a|, b)
  {
    var l, r := Crypt(ks, p, a + b), Crypt(ks, p, a) + Crypt(ks, p + |a|, b);
    forall i | 0 <= i < |a| + |b| ensures l[i] == r[i] {
      assert i >= |a| ==> p + i == p + |a| + (i - |a|);
    }
  }

  lemma CryptTwice(ks: nat -> Byte, p: nat, data: seq<Byte>)
    ensures Crypt(ks, p, Crypt(ks, p, data)) == data
  {
    forall i | 0 <= i < |data| ensures Crypt(ks, p, Crypt(ks, p, data))[i] == data[i] {
      XorUndo(data[i], ks(p + i));
    }
  }

  /** The chunks of a stream processed one after another. */
  function CryptChunks(ks: nat -> Byte, p: nat, chunks: seq<seq<Byte>>): seq<seq<Byte>>
    decreases |chunks|
  {
    if chunks == [] then [] else [Crypt(ks, p, chunks[0])] + CryptChunks(ks, p + |chunks[0]|, chunks[1..])
  }

  lemma {:induction false} ChunkingIrrelevant(ks: nat -> Byte, p: nat, chunks: seq<seq<Byte>>)
    ensures Concat(CryptChunks(ks, p, chunks)) == Crypt(ks, p, Concat(chunks))
    decreases |chunks|
  {
    if chunks != [] {
      ChunkingIrrelevant(ks, p + |chunks[0]|, chunks[1..]);
      CryptConcat(ks, p, chunks[0], Concat(chunks[1..]));
    }
  }

  // ---- the context ------------------------------------------------------------------------------------

  /** `ks` is the keystream of section 2.4 for this key and nonce. */
  ghost predicate IsKeystream(base: Words, ks: nat -> Byte) {
    forall p: nat {:trigger Keystream(base, p)} :: ks(p) == Keystream(base, p)
  }

  /** The 64 bytes of `ks` that block `n` holds. */
  ghost predicate HoldsBlock(bytes: seq<Byte>, ks: nat -> Byte, n: nat) {
    |bytes| == 64 && forall j :: 0 <= j < 64 ==> bytes[j] == ks(64 * n + j)
  }

  lemma BlockHolds(base: Words, ks: nat -> Byte, n: nat)
    requires IsKeystream(base, ks)
    ensures HoldsBlock(Block(WithCounter(base, n)), ks, n)
  {
    var block := Block(WithCounter(base, n));
    forall j | 0 <= j < 64 ensures block[j] == ks(64 * n + j) {
      var p := 64 * n + j;
      DivUnique(p, 64, n, j);
      KeystreamAt(base, ks, p, n, j);
    }
  }

  lemma KeystreamAt(base: Words, ks: nat -> Byte, p: nat, n: nat, j: nat)
    requires IsKeystream(base, ks) && p / 64 == n && p % 64 == j
    ensures ks(p) == Block(WithCounter(base, n))[j]
  {
    assert ks(p) == Keystream(base, p);
  }

  method NextBlock(state: array<Word>, out: array<Byte>, ghost base: Words, ghost ks: nat -> Byte, ghost n: nat)
    requires state.Length == 16 && out.Length == 64 && IsKeystream(base, ks) && state[..] == WithCounter(base, n)
    modifies out
    ensures HoldsBlock(out[..], ks, n)
  {
    ChachaBlock(state, out);
    BlockHolds(base, ks, n);
  }

  /** `ftp_crypto_ctx_t` */
  class Context {
    const state: array<Word>
    const keystream: array<Byte>
    var ksOffset: nat
    var counter: Word
    ghost const base: Words            // key and nonce
    ghost const ks: nat -> Byte        // their keystream
    ghost var blocks: nat              // keystream blocks generated so far

    ghost predicate Valid()
      reads this, state, keystream
    {
      && state.Length == 16 && keystream.Length == 64 && ksOffset <= 64
      && IsKeystream(base, ks)
      && counter == blocks % WRAP
      && (blocks == 0 ==> ksOffset == 64)
      && (forall i :: 0 <= i < 16 && i != 12 ==> state[i] == base[i])
      && (blocks > 0 ==> HoldsBlock(keystream[..], ks, blocks - 1))
    }

    /** Bytes of the stream consumed so far. */
    ghost function Position(): (p: int)
      reads this
    {
      64 * blocks + ksOffset - 64
    }

    /** `ftp_crypto_init` */
    constructor (key: seq<Byte>, nonce: seq<Byte>)
      requires |key| == 32 && |nonce| == 12
      ensures Valid() && Position() == 0 && base == KeyState(key, nonce) && fresh(state) && fresh(keystream)
    {
      var s := new Word[16](_ => 0);
      FillState(s, key, nonce);
      state := s;
      keystream := new Byte[64](_ => 0);
      ksOffset := 64;
      counter := 0;
      ghost var words: Words := s[..];
      base := words;
      ks := (p: nat) => Keystream(words, p);
      blocks := 0;
    }

    /** Generating the next block when the current one is used up. */
    method Refill()
      requires Valid() && ksOffset == 64
      modifies this`ksOffset, this`counter, this`blocks, state, keystream
      ensures Valid() && ksOffset == 0 && blocks == old(blocks) + 1 && Position() == old(Position())
    {
      state[12] := counter;
      assert state[..] == WithCounter(base, blocks);
      NextBlock(state, keystream, base, ks, blocks);
      counter := Add(counter, 1);
      ksOffset := 0;
      blocks := blocks + 1;
    }

    /** `ftp_crypto_xor` on data[from..from + len] */
    method XorInPlace(data: array<Byte>, from: nat, len: nat)
      requires Valid() && Position() >= 0 && from + len <= data.Length && data != keystream
      modifies this`ksOffset, this`counter, this`blocks, state, keystream, data
      ensures Valid() && Position() == old(Position()) + len
      ensures Xored(data[..], old(data[..]), ks, from, from + len, old(Position()))
    {
      var done := 0;
      ghost var p0, d0 := Position(), data[..];
      while done < len
        invariant 0 <= done <= len && Valid() && Position() == p0 + done
        invariant Xored(data[..], d0, ks, from, from + done, p0)
      {
        ghost var d1 := data[..];
        var chunk := XorSome(data, from + done, len - done, p0 + done);
        XoredTrans(data[..], d1, d0, ks, from, from + done, from + done + chunk, p0);
        done := done + chunk;
      }
    }

    /** As much as the current block allows, after a new block if it is used up. */
    method XorSome(data: array<Byte>, at: nat, left: nat, ghost p: nat) returns (chunk: nat)
      requires Valid() && Position() == p && 0 < left && at + left <= data.Length && data != keystream
      modifies this`ksOffset, this`counter, this`blocks, state, keystream, data
      ensures 0 < chunk <= left && Valid() && Position() == p + chunk
      ensures Xored(data[..], old(data[..]), ks, at, at + chunk, p)
    {
      if ksOffset >= 64 {
        Refill();
      }
      var avail := 64 - ksOffset;
      chunk := if left < avail then left else avail;
      XorChunk(data, at, chunk, p);
    }

    /** XOR with what is left of the current block. */
    method XorChunk(data: array<Byte>, at: nat, chunk: nat, ghost p: nat)
      requires Valid() && blocks > 0 && ksOffset + chunk <= 64 && at + chunk <= data.Length && data != keystream
      requires Position() == p
      modifies this`ksOffset, data
      ensures Valid() && Position() == p + chunk
      ensures Xored(data[..], old(data[..]), ks, at, at + chunk, p)
    {
      ghost var d0 := data[..];
      for i := 0 to chunk
        invariant Valid() && ksOffset == old(ksOffset)
        invariant Xored(data[..], d0, ks, at, at + i, p)
      {
        assert keystream[..][ksOffset + i] == ks(64 * (blocks - 1) + (ksOffset + i)) == ks(p + i);
        ghost var d1 := data[..];
        data[at + i] := XorByte(data[at + i], keystream[ksOffset + i]);
        assert data[..] == d1[at + i := XorByte(d0[at + i], ks(p + i))];
      }
      ksOffset := ksOffset + chunk;
    }
  }

  /** `d` is `d0` with [lo, hi) combined with the keystream from position `p`. */
  ghost predicate Xored(d: seq<Byte>, d0: seq<Byte>, ks: nat -> Byte, lo: nat, hi: nat, p: nat) {
    && |d| == |d0| && lo <= hi <= |d|
    && forall i :: 0 <= i < |d| ==> d[i] == if lo <= i < hi then XorByte(d0[i], ks(p + (i - lo))) else d0[i]
  }

  lemma XoredTrans(d2: seq<Byte>, d1: seq<Byte>, d0: seq<Byte>, ks: nat -> Byte, lo: nat, mid: nat, hi: nat, p: nat)
    requires Xored(d1, d0, ks, lo, mid, p) && Xored(d2, d1, ks, mid, hi, p + (mid - lo))
    ensures Xored(d2, d0, ks, lo, hi, p)
  {
    forall i | 0 <= i < |d2| ensures d2[i] == if lo <= i < hi then XorByte(d0[i], ks(p + (i - lo))) else d0[i] {
      assert i >= mid ==> p + (mid - lo) + (i - mid) == p + (i - lo);
    }
  }

  lemma XoredIsCrypt(d: seq<Byte>, d0: seq<Byte>, ks: nat -> Byte, lo: nat, hi: nat, p: nat)
    requires Xored(d, d0, ks, lo, hi, p)
    ensures d[lo..hi] == Crypt(ks, p, d0[lo..hi]) && d[..lo] == d0[..lo] && d[hi..] == d0[hi..]
  {
  }

  const SCRATCH: nat := 4096

  /** The peer took less than all of the k-th piece: the ones before it count, and what it took went out. */
  predicate CutShort(accepted: nat -> nat, k: nat, total: nat, sent: nat) {
    accepted(k) < SCRATCH && total == SCRATCH * k && sent == total + accepted(k)
  }

  /**
   `ftp_session_send_data` with encryption on: the caller's data goes through a 4096-byte
   scratch buffer. `accepted(k)` is how much of the k-th piece the peer takes before the
   connection fails; a full piece is a success.
   */
  method SendData(ctx: Context, buffer: seq<Byte>, accepted: nat -> nat) returns (total: nat, wire: seq<Byte>)
    requires ctx.Valid() && ctx.Position() >= 0
    modifies ctx`ksOffset, ctx`counter, ctx`blocks, ctx.state, ctx.keystream
    ensures ctx.Valid() && total <= |wire| <= |buffer|
    ensures wire == Crypt(ctx.ks, old(ctx.Position()), buffer[..|wire|])
    ensures total == |buffer| ==> ctx.Position() == old(ctx.Position()) + |buffer|
    ensures total < |buffer| ==> exists k: nat :: CutShort(accepted, k, total, |wire|) && |wire| < |buffer|
  {
    total, wire := 0, [];
    var k := 0;
    ghost var p0 := ctx.Position();
    while total < |buffer|
      invariant total == |wire| <= |buffer| && ctx.Valid() && ctx.Position() == p0 + total
      invariant wire == Crypt(ctx.ks, p0, buffer[..total]) && (total == |buffer| || total == SCRATCH * k)
    {
      var chunk := if |buffer| - total < SCRATCH then |buffer| - total else SCRATCH;
      var sent;
      sent, wire := SendPiece(ctx, buffer, wire, chunk, accepted(k), p0);
      if sent < chunk {
        assert CutShort(accepted, k, total, |wire|);
        return;
      }
      total := total + chunk;
      k := k + 1;
    }
    assert buffer[..total] == buffer;
  }

  /** The next `chunk` bytes of the buffer, encrypted and sent as far as the peer takes them. */
  method SendPiece(ctx: Context, buffer: seq<Byte>, wire: seq<Byte>, chunk: nat, most: nat, ghost p: nat)
    returns (sent: nat, more: seq<Byte>)
    requires ctx.Valid() && |wire| + chunk <= |buffer| && chunk <= SCRATCH && ctx.Position() == p + |wire|
    requires wire == Crypt(ctx.ks, p, buffer[..|wire|])
    modifies ctx`ksOffset, ctx`counter, ctx`blocks, ctx.state, ctx.keystream
    ensures ctx.Valid() && ctx.Position() == p + |wire| + chunk
    ensures sent == (if most < chunk then most else chunk) && |more| == |wire| + sent
    ensures more == Crypt(ctx.ks, p, buffer[..|more|])
  {
    var total := |wire|;
    var piece := EncryptPiece(ctx, buffer[total..total + chunk], p + total);
    sent := if most < chunk then most else chunk;
    PieceExtends(ctx.ks, p, buffer, total, chunk, sent);
    more := wire + piece[..sent];
  }

  lemma PieceExtends(ks: nat -> Byte, p: nat, buffer: seq<Byte>, total: nat, chunk: nat, sent: nat)
    requires total + chunk <= |buffer| && sent <= chunk
    ensures Crypt(ks, p, buffer[..total]) + Crypt(ks, p + total, buffer[total..total + chunk])[..sent]
         == Crypt(ks, p, buffer[..total + sent])
  {
    CryptConcat(ks, p, buffer[..total], buffer[total..total + sent]);
    assert buffer[..total] + buffer[total..total + sent] == buffer[..total + sent];
  }

  lemma PieceFollows(ks: nat -> Byte, p: nat, buffer: seq<Byte>, at: nat, n: nat)
    requires at + n <= |buffer|
    ensures Crypt(ks, p, buffer[..at]) + Crypt(ks, p + at, buffer[at..at + n]) == Crypt(ks, p, buffer[..at + n])
  {
    CryptConcat(ks, p, buffer[..at], buffer[at..at + n]);
    assert buffer[..at] + buffer[at..at + n] == buffer[..at + n];
  }

  /** One scratch buffer's worth, copied and encrypted. */
  method EncryptPiece(ctx: Context, data: seq<Byte>, ghost p: nat) returns (piece: seq<Byte>)
    requires ctx.Valid() && ctx.Position() == p && |data| <= SCRATCH
    modifies ctx`ksOffset, ctx`counter, ctx`blocks, ctx.state, ctx.keystream
    ensures ctx.Valid() && ctx.Position() == p + |data|
    ensures piece == Crypt(ctx.ks, p, data)
  {
    var scratch := new Byte[SCRATCH](i => if 0 <= i < |data| then data[i] else 0);
    ghost var d0 := scratch[..];
    assert d0[0..|data|] == data;
    ctx.XorInPlace(scratch, 0, |data|);
    XoredIsCrypt(scratch[..], d0, ctx.ks, 0, |data|, p);
    piece := scratch[..|data|];
    assert piece == scratch[..][0..|data|];
  }

  /** Two contexts made from the same key and nonce have the same keystream. */
  lemma SameStream(base: Words, ks: nat -> Byte, ks': nat -> Byte, p: nat, data: seq<Byte>)
    requires IsKeystream(base, ks) && IsKeystream(base, ks')
    ensures Crypt(ks, p, data) == Crypt(ks', p, data)
  {
    var a, b := Crypt(ks, p, data), Crypt(ks', p, data);
    forall i | 0 <= i < |data| ensures a[i] == b[i] {
      SameKey(base, ks, ks', p + i);
    }
  }

  lemma SameKey(base: Words, ks: nat -> Byte, ks': nat -> Byte, p: nat)
    requires IsKeystream(base, ks) && IsKeystream(base, ks')
    ensures ks(p) == ks'(p)
  {
    assert ks(p) == Keystream(base, p) == ks'(p);
  }

  /** What one side sends under a key and nonce, the other side reads, however either side cuts it up. */
  lemma SenderToReceiver(base: Words, ks: nat -> Byte, ks': nat -> Byte, plain: seq<seq<Byte>>,
                         received: seq<seq<Byte>>)
    requires IsKeystream(base, ks) && IsKeystream(base, ks')
    requires Concat(received) == Concat(CryptChunks(ks, 0, plain))
    ensures Concat(CryptChunks(ks', 0, received)) == Concat(plain)
  {
    ChunkingIrrelevant(ks', 0, received);
    ChunkingIrrelevant(ks, 0, plain);
    SameStream(base, ks, ks', 0, Concat(received));
    CryptTwice(ks, 0, Concat(plain));
  }

  /**
   `ftp_session_recv_data` with decryption on, until the peer's bytes are used up; `size(k)` is how much the k-th
   receive gets.
   */
  method ReceiveData(ctx: Context, wire: seq<Byte>, size: nat -> nat) returns (data: seq<Byte>)
    requires ctx.Valid() && ctx.Position() >= 0
    modifies ctx`ksOffset, ctx`counter, ctx`blocks, ctx.state, ctx.keystream
    ensures ctx.Valid() && ctx.Position() == old(ctx.Position()) + |wire|
    ensures data == Crypt(ctx.ks, old(ctx.Position()), wire)
  {
    data := [];
    var k := 0;
    ghost var p0 := ctx.Position();
    while |data| < |wire|
      invariant |data| <= |wire| && ctx.Valid() && ctx.Position() == p0 + |data|
      invariant data == Crypt(ctx.ks, p0, wire[..|data|])
    {
      var at := |data|;
      var n := if 1 <= size(k) <= |wire| - at then size(k) else |wire| - at;
      data := ReceivePiece(ctx, wire, n, data, p0);
      k := k + 1;
    }
    assert wire[..|data|] == wire;
  }

  /** The next `n` bytes of the wire, decrypted and added. */
  method ReceivePiece(ctx: Context, wire: seq<Byte>, n: nat, data: seq<Byte>, ghost p: nat) returns (more: seq<Byte>)
    requires ctx.Valid() && ctx.Position() == p + |data| && |data| + n <= |wire|
      && data == Crypt(ctx.ks, p, wire[..|data|])
    modifies ctx`ksOffset, ctx`counter, ctx`blocks, ctx.state, ctx.keystream
    ensures ctx.Valid() && |more| == |data| + n && ctx.Position() == p + |more|
      && more == Crypt(ctx.ks, p, wire[..|more|])
  {
    ghost var at := |data|;
    var piece := DecryptPiece(ctx, wire[|data|..|data| + n], p + at);
    PieceFollows(ctx.ks, p, wire, at, n);
    more := data + piece;
  }

  /** One receive, decrypted where it lies. */
  method DecryptPiece(ctx: Context, received: seq<Byte>, ghost p: nat) returns (piece: seq<Byte>)
    requires ctx.Valid() && ctx.Position() == p
    modifies ctx`ksOffset, ctx`counter, ctx`blocks, ctx.state, ctx.keystream
    ensures ctx.Valid() && ctx.Position() == p + |received|
    ensures piece == Crypt(ctx.ks, p, received)
  {
    var buffer := new Byte[|received|](i requires 0 <= i < |received| => received[i]);
    ghost var d0 := buffer[..];
    assert d0[0..|received|] == received;
    ctx.XorInPlace(buffer, 0, buffer.Length);
    XoredIsCrypt(buffer[..], d0, ctx.ks, 0, |received|, p);
    piece := buffer[..];
    assert piece == buffer[..][0..|received|];
  }

  /**
   The two ends of one connection, each with its own context for the session's key and nonce: what
   reaches the receiver is the data sent, however it was cut up on the way.
   */
  method Transfer(key: seq<Byte>, nonce: seq<Byte>, plain: seq<Byte>, accepted: nat -> nat, size: nat -> nat)
    returns (total: nat, received: seq<Byte>)
    requires |key| == 32 && |nonce| == 12
    ensures total <= |received| <= |plain| && received == plain[..|received|]
    ensures total == |plain| ==> received == plain
    ensures total < |plain| ==> exists k: nat :: CutShort(accepted, k, total, |received|)
  {
    var sender := new Context(key, nonce);
    var receiver := new Context(key, nonce);
    var wire;
    total, wire := SendData(sender, plain, accepted);
    received := ReceiveData(receiver, wire, size);
    SameStream(sender.base, sender.ks, receiver.ks, 0, wire);
    CryptTwice(sender.ks, 0, plain[..|wire|]);
  }

  method FillState(s: array<Word>, key: seq<Byte>, nonce: seq<Byte>)
    requires s.Length == 16 && |key| == 32 && |nonce| == 12
    modifies s
    ensures s[..] == KeyState(key, nonce)
  {
    s[0], s[1], s[2], s[3] := 0x61707865, 0x3320646E, 0x79622D32, 0x6B206574;
    for i := 0 to 8
      invariant s[0] == 0x61707865 && s[1] == 0x3320646E && s[2] == 0x79622D32 && s[3] == 0x6B206574
      invariant forall j :: 0 <= j < i ==> s[4 + j] == Load(key, 4 * j)
    {
      s[4 + i] := Load(key, i * 4);
    }
    s[12] := 0;
    s[13] := Load(nonce, 0);
    s[14] := Load(nonce, 4);
    s[15] := Load(nonce, 8);
  }
}
