/**
 File extraction of src/exfat_unpacker.c: the cluster walk along the FAT or a contiguous run,
 read in pieces of at most 256 KiB with short reads, into a sink of bounded size.
 */
module Exfat {
  import opened Common

  const BAD_CLUSTER: nat := 0xFFFF_FFF7
  const END_OF_CHAIN: nat := 0xFFFF_FFFF
  const IO_CHUNK_SIZE: nat := 256 * 1024

  /** A mounted image: its bytes, its FAT, where the cluster heap starts and how large a cluster is. */
  datatype Volume = Volume(image: seq<Byte>, fat: seq<nat>, heap: nat, clusterSize: nat)

  /** What the boot sector checks leave: clusters of 2^9 to 2^25 bytes, and a heap offset of 32 bits of sectors. */
  predicate Mounted(v: Volume) {
    && 512 <= v.clusterSize <= 0x200_0000 && v.heap < 0x1000_0000_0000
    && forall c :: 0 <= c < |v.fat| ==> v.fat[c] <= END_OF_CHAIN
  }

  datatype FileInfo = FileInfo(firstCluster: nat, dataLength: nat, noFatChain: bool)

  predicate ValidCluster(c: nat) {
    2 <= c < BAD_CLUSTER
  }

  predicate EndOfChain(c: nat) {
    c >= BAD_CLUSTER
  }

  function NextCluster(v: Volume, c: nat): nat {
    if c >= |v.fat| then END_OF_CHAIN else v.fat[c]
  }

  /** The offset is computed in 64 bits; on a mounted volume it does not wrap. */
  function ClusterOffset(v: Volume, c: nat): (off: nat)
    requires ValidCluster(c)
    ensures Mounted(v) ==> off + v.clusterSize < 0x8000_0000_0000_0000
  {
    assert Mounted(v) ==> (c - 2) * v.clusterSize <= BAD_CLUSTER * 0x200_0000 by {
      if Mounted(v) {
        Product(c - 2, BAD_CLUSTER, v.clusterSize, 0x200_0000);
      }
    }
    v.heap + (c - 2) * v.clusterSize
  }

  /** The clusters lie one behind the other in the heap, and the first of them has the number 2. */
  lemma ClustersInRow(v: Volume, c: nat)
    requires ValidCluster(c)
    ensures ClusterOffset(v, 2) == v.heap
    ensures ValidCluster(c + 1) ==> ClusterOffset(v, c + 1) == ClusterOffset(v, c) + v.clusterSize
  {
    assert (c + 1 - 2) * v.clusterSize == (c - 2) * v.clusterSize + v.clusterSize;
  }

  lemma Product(a: nat, b: nat, c: nat, d: nat)
    requires a <= b && c <= d
    ensures a * c <= b * d
  {
    assert a * c <= b * c <= b * d;
  }

  // ---- What a file is ---------------------------------------------------------------------------

  /** The cluster after `c` in a file's layout. */
  function Successor(v: Volume, contiguous: bool, c: nat): nat {
    if contiguous then c + 1 else NextCluster(v, c)
  }

  /** The i-th cluster of the layout that starts at `c`. */
  function Nth(v: Volume, contiguous: bool, c: nat, i: nat): nat
    decreases i
  {
    if i == 0 then c else Nth(v, contiguous, Successor(v, contiguous, c), i - 1)
  }

  /** A contiguous file counts its clusters up; any other follows the FAT, which ends the chain where it ends itself. */
  lemma {:induction false} NthIs(v: Volume, c: nat, i: nat)
    ensures Nth(v, true, c, i) == c + i
    ensures var d := Nth(v, false, c, i);
            Nth(v, false, c, i + 1) == if d < |v.fat| then v.fat[d] else 0xFFFF_FFFF
    decreases i
  {
    if i > 0 {
      NthIs(v, c + 1, i - 1);
      NthIs(v, NextCluster(v, c), i - 1);
    }
  }

  function ByteAt(v: Volume, i: nat): Byte {
    if i < |v.image| then v.image[i] else 0
  }

  function Stretch(v: Volume, off: nat, n: nat): (r: seq<Byte>)
    ensures |r| == n && forall i :: 0 <= i < n ==> r[i] == ByteAt(v, off + i)
  {
    seq<Byte>(n, i requires 0 <= i < n => ByteAt(v, off + i))
  }

  /** The first `n` bytes of the clusters from `c` on, fewer when the chain stops earlier. */
  function FileBytes(v: Volume, contiguous: bool, c: nat, n: nat): (r: seq<Byte>)
    requires v.clusterSize > 0
    ensures |r| <= n
    decreases n
  {
    if n == 0 || !ValidCluster(c) then []
    else if n <= v.clusterSize then Stretch(v, ClusterOffset(v, c), n)
    else Stretch(v, ClusterOffset(v, c), v.clusterSize)
         + FileBytes(v, contiguous, Successor(v, contiguous, c), n - v.clusterSize)
  }

  /** Every byte of the file lies inside the image. */
  predicate Inside(v: Volume, contiguous: bool, c: nat, n: nat)
    requires v.clusterSize > 0
    decreases n
  {
    n == 0 || !ValidCluster(c) ||
    (if n <= v.clusterSize then ClusterOffset(v, c) + n <= |v.image|
     else ClusterOffset(v, c) + v.clusterSize <= |v.image|
          && Inside(v, contiguous, Successor(v, contiguous, c), n - v.clusterSize))
  }

  /** The k-th byte of a file is byte k mod size of the (k div size)-th cluster of its chain. */
  lemma {:induction false} FileByteIs(v: Volume, contiguous: bool, c: nat, n: nat, i: nat, j: nat, k: nat)
    requires v.clusterSize > 0 && j < v.clusterSize && k == i * v.clusterSize + j < |FileBytes(v, contiguous, c, n)|
    ensures ValidCluster(Nth(v, contiguous, c, i))
    ensures FileBytes(v, contiguous, c, n)[k] == ByteAt(v, ClusterOffset(v, Nth(v, contiguous, c, i)) + j)
    decreases i
  {
    if i > 0 {
      OneLess(i, v.clusterSize);
      FileByteIs(v, contiguous, Successor(v, contiguous, c), n - v.clusterSize, i - 1, j, k - v.clusterSize);
    }
  }

  lemma OneLess(i: nat, m: nat)
    requires i > 0
    ensures i * m == m + (i - 1) * m && (i - 1) * m >= 0
  {
  }

  /** The chain has a cluster for every byte. */
  ghost predicate Enough(v: Volume, contiguous: bool, c: nat, n: nat) {
    forall i: nat :: i * v.clusterSize < n ==> ValidCluster(Nth(v, contiguous, c, i))
  }

  /** Nothing is missing from the file exactly when its chain has enough clusters. */
  lemma {:induction false} CompleteIffEnough(v: Volume, contiguous: bool, c: nat, n: nat)
    requires v.clusterSize > 0
    ensures |FileBytes(v, contiguous, c, n)| == n <==> Enough(v, contiguous, c, n)
    decreases n
  {
    assert n > 0 ==> (Enough(v, contiguous, c, n) ==> ValidCluster(Nth(v, contiguous, c, 0))) by {
      assert 0 * v.clusterSize == 0;
    }
    if n > 0 && ValidCluster(c) {
      if n <= v.clusterSize {
        forall i: nat | i * v.clusterSize < n ensures ValidCluster(Nth(v, contiguous, c, i)) {
          assert i >= 1 ==> i * v.clusterSize >= v.clusterSize;
        }
      } else {
        CompleteIffEnough(v, contiguous, Successor(v, contiguous, c), n - v.clusterSize);
        EnoughStep(v, contiguous, c, n);
      }
    }
  }

  lemma EnoughStep(v: Volume, contiguous: bool, c: nat, n: nat)
    requires 0 < v.clusterSize < n && ValidCluster(c)
    ensures Enough(v, contiguous, c, n) <==> Enough(v, contiguous, Successor(v, contiguous, c), n - v.clusterSize)
  {
    var d := Successor(v, contiguous, c);
    if Enough(v, contiguous, c, n) {
      forall i: nat | i * v.clusterSize < n - v.clusterSize ensures ValidCluster(Nth(v, contiguous, d, i)) {
        assert (i + 1) * v.clusterSize == i * v.clusterSize + v.clusterSize;
        assert Nth(v, contiguous, c, i + 1) == Nth(v, contiguous, d, i);
      }
    }
    if Enough(v, contiguous, d, n - v.clusterSize) {
      forall i: nat | i * v.clusterSize < n ensures ValidCluster(Nth(v, contiguous, c, i)) {
        if i > 0 {
          assert i * v.clusterSize == (i - 1) * v.clusterSize + v.clusterSize;
          assert Nth(v, contiguous, c, i) == Nth(v, contiguous, d, i - 1);
        }
      }
    }
  }

  /** Where the FAT links each cluster of a run to the next, the contiguous walk reads what the FAT walk reads. */
  lemma {:induction false} ContiguousIsChain(v: Volume, c: nat, n: nat)
    requires v.clusterSize > 0
    requires forall d: nat :: c <= d && (d - c + 1) * v.clusterSize < n ==> NextCluster(v, d) == d + 1
    ensures FileBytes(v, true, c, n) == FileBytes(v, false, c, n)
    decreases n
  {
    if n > v.clusterSize && ValidCluster(c) {
      assert (c - c + 1) * v.clusterSize == v.clusterSize;
      forall d: nat | c + 1 <= d && (d - (c + 1) + 1) * v.clusterSize < n - v.clusterSize
        ensures NextCluster(v, d) == d + 1
      {
        assert (d - c + 1) * v.clusterSize == (d - (c + 1) + 1) * v.clusterSize + v.clusterSize;
      }
      ContiguousIsChain(v, c + 1, n - v.clusterSize);
    }
  }

  // ---- Reading it -------------------------------------------------------------------------------

  /** A destination that takes `buf.Length` bytes; `pos` of them have been taken. */
  class Sink {
    const buf: array<Byte>
    var pos: nat

    constructor (b: array<Byte>)
      ensures buf == b && pos == 0
    {
      buf, pos := b, 0;
    }

    /** `write_cb_mem`: everything if it fits, otherwise as much as fits and a failure. */
    method Write(data: seq<Byte>) returns (ok: bool)
      requires pos <= buf.Length
      modifies this, buf
      ensures ok <==> old(pos) + |data| <= buf.Length
      ensures pos == (if ok then old(pos) + |data| else buf.Length)
      ensures buf[..pos] == old(buf[..pos]) + data[..pos - old(pos)]
      ensures forall i :: pos <= i < buf.Length ==> buf[i] == old(buf[i])
    {
      var n := if pos + |data| > buf.Length then buf.Length - pos else |data|;
      forall i | 0 <= i < n {
        buf[pos + i] := data[i];
      }
      pos := pos + n;
      ok := n == |data|;
    }
  }

  /** What one seek and one fread do: fail to seek, or return at most `got` bytes. */
  datatype Io = Io(seekOk: bool, got: nat)

  /** Every seek works and no read returns nothing while there are bytes to read. */
  ghost predicate Healthy(env: nat -> Io) {
    forall k: nat :: env(k).seekOk && env(k).got > 0
  }

  /** The pieces of one cluster. */
  method ReadCluster(v: Volume, off: nat, want: nat, sink: Sink, env: nat -> Io, k0: nat) returns (ok: bool, k: nat)
    requires sink.pos <= sink.buf.Length
    modifies sink, sink.buf
    ensures old(sink.pos) <= sink.pos <= sink.buf.Length && sink.pos <= old(sink.pos) + want
    ensures sink.buf[..sink.pos] == old(sink.buf[..sink.pos]) + Stretch(v, off, sink.pos - old(sink.pos))
    ensures forall i :: sink.pos <= i < sink.buf.Length ==> sink.buf[i] == old(sink.buf[i])
    ensures ok ==> sink.pos == old(sink.pos) + want && (want == 0 || off + want <= |v.image|)
    ensures !ok ==> !Healthy(env) || off + want > |v.image| || old(sink.pos) + want > sink.buf.Length
  {
    k := k0;
    var done := 0;
    while done < want
      invariant 0 <= done <= want && sink.pos == old(sink.pos) + done <= sink.buf.Length
      invariant sink.buf[..sink.pos] == old(sink.buf[..sink.pos]) + Stretch(v, off, done)
      invariant forall i :: sink.pos <= i < sink.buf.Length ==> sink.buf[i] == old(sink.buf[i])
      invariant done == 0 || off + done <= |v.image|
      decreases want - done
    {
      var chunk := want - done;
      if chunk > IO_CHUNK_SIZE {
        chunk := IO_CHUNK_SIZE;
      }
      var io := env(k);
      k := k + 1;
      if !io.seekOk {
        return false, k;
      }
      var got, w := ReadPiece(v, off + done, chunk, sink, io.got);
      StretchJoin(v, off, done, sink.pos - old(sink.pos) - done);
      if !w {
        return false, k;
      }
      done := done + got;
    }
    ok := true;
  }

  /** One fread of at most `chunk` bytes and one write; nothing read is a failure. */
  method ReadPiece(v: Volume, at: nat, chunk: nat, sink: Sink, most: nat) returns (got: nat, ok: bool)
    requires sink.pos <= sink.buf.Length && 0 < chunk
    modifies sink, sink.buf
    ensures old(sink.pos) <= sink.pos <= sink.buf.Length && sink.pos <= old(sink.pos) + got
    ensures got <= chunk && (got > 0 ==> at + got <= |v.image|)
    ensures sink.pos > old(sink.pos) ==> at + (sink.pos - old(sink.pos)) <= |v.image|
    ensures var n := sink.pos - old(sink.pos);
            sink.buf[..sink.pos] == old(sink.buf[..sink.pos]) + Stretch(v, at, n)
    ensures forall i :: sink.pos <= i < sink.buf.Length ==> sink.buf[i] == old(sink.buf[i])
    ensures ok ==> got > 0 && sink.pos == old(sink.pos) + got
    ensures !ok ==> most == 0 || at + chunk > |v.image| || old(sink.pos) + chunk > sink.buf.Length
  {
    got := if most < chunk then most else chunk;
    if at + got > |v.image| {
      got := if at < |v.image| then |v.image| - at else 0;
    }
    if got == 0 {
      return got, false;
    }
    ok := sink.Write(v.image[at..at + got]);
    ghost var n := sink.pos - old(sink.pos);
    assert v.image[at..at + got][..n] == Stretch(v, at, n);
  }

  lemma StretchJoin(v: Volume, off: nat, a: nat, n: nat)
    ensures Stretch(v, off, a) + Stretch(v, off + a, n) == Stretch(v, off, a + n)
  {
    var r := Stretch(v, off, a) + Stretch(v, off + a, n);
    forall i | 0 <= i < a + n ensures r[i] == Stretch(v, off, a + n)[i] {
      assert i >= a ==> r[i] == ByteAt(v, off + a + (i - a));
    }
  }

  /** One cluster done: the file is what was read of it and the file that starts at the next one. */
  lemma FileStep(v: Volume, contiguous: bool, c: nat, n: nat, want: nat)
    requires 0 < v.clusterSize && 0 < n && ValidCluster(c)
    requires want == if n < v.clusterSize then n else v.clusterSize
    ensures want > 0 && Stretch(v, ClusterOffset(v, c), want)
              + FileBytes(v, contiguous, Successor(v, contiguous, c), n - want) == FileBytes(v, contiguous, c, n)
    ensures Inside(v, contiguous, c, n) <==>
            ClusterOffset(v, c) + want <= |v.image| && Inside(v, contiguous, Successor(v, contiguous, c), n - want)
  {
    if n <= v.clusterSize {
      assert FileBytes(v, contiguous, Successor(v, contiguous, c), 0) == [];
    }
  }

  /** `taken` is what comes before the file that starts at `c`. */
  ghost predicate Splits(v: Volume, contiguous: bool, c: nat, n: nat, taken: seq<Byte>, bytes: seq<Byte>)
    requires v.clusterSize > 0
  {
    bytes == taken + FileBytes(v, contiguous, c, n)
  }

  lemma Advance(v: Volume, contiguous: bool, c: nat, n: nat, want: nat, taken: seq<Byte>, bytes: seq<Byte>, m: nat)
    requires 0 < v.clusterSize && 0 < n && ValidCluster(c) && Splits(v, contiguous, c, n, taken, bytes)
    requires m <= want == if n < v.clusterSize then n else v.clusterSize
    ensures var read := taken + Stretch(v, ClusterOffset(v, c), m);
      && read <= bytes && (m == want ==> Splits(v, contiguous, Successor(v, contiguous, c), n - want, read, bytes))
  {
    FileStep(v, contiguous, c, n, want);
    assert Stretch(v, ClusterOffset(v, c), m) == Stretch(v, ClusterOffset(v, c), want)[..m];
  }

  /** The body of the cluster loop, up to the choice of the next cluster. */
  method OneCluster(v: Volume, contiguous: bool, cluster: nat, remaining: nat, sink: Sink, env: nat -> Io, k0: nat,
                    ghost bytes: seq<Byte>)
    returns (ok: bool, k: nat, left: nat)
    requires Mounted(v) && sink.pos <= sink.buf.Length && remaining > 0 && ValidCluster(cluster)
    requires Splits(v, contiguous, cluster, remaining, sink.buf[..sink.pos], bytes)
    modifies sink, sink.buf
    ensures sink.pos <= sink.buf.Length && sink.buf[..sink.pos] <= bytes
    ensures forall i :: sink.pos <= i < sink.buf.Length ==> sink.buf[i] == old(sink.buf[i])
    ensures old(sink.pos) <= sink.pos
    ensures ok ==>
      && left < remaining
      && Splits(v, contiguous, Successor(v, contiguous, cluster), left, sink.buf[..sink.pos], bytes)
      && (Inside(v, contiguous, cluster, remaining) <==> Inside(v, contiguous, Successor(v, contiguous, cluster), left))
    ensures !ok ==> !Healthy(env) || !Inside(v, contiguous, cluster, remaining) || sink.buf.Length < |bytes|
  {
    var want := if remaining < v.clusterSize then remaining else v.clusterSize;
    FileStep(v, contiguous, cluster, remaining, want);
    ok, k := ReadCluster(v, ClusterOffset(v, cluster), want, sink, env, k0);
    Advance(v, contiguous, cluster, remaining, want, old(sink.buf[..sink.pos]), bytes, sink.pos - old(sink.pos));
    left := remaining - want;
  }

  lemma Finished(v: Volume, contiguous: bool, c: nat, n: nat, taken: seq<Byte>, bytes: seq<Byte>)
    requires 0 < v.clusterSize && (n == 0 || !ValidCluster(c)) && Splits(v, contiguous, c, n, taken, bytes)
    ensures taken == bytes && Inside(v, contiguous, c, n)
  {
  }

  /** The cluster loop. */
  method WalkClusters(v: Volume, contiguous: bool, first: nat, length: nat, sink: Sink, env: nat -> Io,
                      ghost bytes: seq<Byte>)
    returns (ok: bool)
    requires Mounted(v) && sink.pos == 0 && Splits(v, contiguous, first, length, [], bytes)
    modifies sink, sink.buf
    ensures sink.pos <= sink.buf.Length && sink.buf[..sink.pos] <= bytes
    ensures ok ==> sink.buf[..sink.pos] == bytes && Inside(v, contiguous, first, length)
    ensures !ok ==> !Healthy(env) || !Inside(v, contiguous, first, length) || sink.buf.Length < |bytes|
    ensures forall i :: sink.pos <= i < sink.buf.Length ==> sink.buf[i] == old(sink.buf[i])
  {
    ghost var inside := Inside(v, contiguous, first, length);
    var cluster: nat, remaining: nat, k: nat := first, length, 0;
    assert sink.buf[..0] == [];
    while remaining > 0 && ValidCluster(cluster)
      invariant sink.pos <= sink.buf.Length
      invariant Splits(v, contiguous, cluster, remaining, sink.buf[..sink.pos], bytes)
      invariant inside <==> Inside(v, contiguous, cluster, remaining)
      invariant forall i :: sink.pos <= i < sink.buf.Length ==> sink.buf[i] == old(sink.buf[i])
      decreases remaining
    {
      ok, k, remaining := OneCluster(v, contiguous, cluster, remaining, sink, env, k, bytes);
      if !ok {
        return;
      }
      cluster := if contiguous then cluster + 1 else NextCluster(v, cluster);
      if remaining == 0 || EndOfChain(cluster) {
        break;
      }
    }
    Finished(v, contiguous, cluster, remaining, sink.buf[..sink.pos], bytes);
    ok := true;
  }

  /** `exfat_read_file_data`: success means the whole of what the chain holds, failure a prefix of it. */
  method ReadFileData(v: Volume, info: FileInfo, sink: Sink, env: nat -> Io) returns (ok: bool)
    requires Mounted(v) && sink.pos == 0
    modifies sink, sink.buf
    ensures sink.pos <= sink.buf.Length
    ensures var bytes := FileBytes(v, info.noFatChain, info.firstCluster, info.dataLength);
      && sink.buf[..sink.pos] <= bytes && (ok ==> sink.buf[..sink.pos] == bytes)
      && (!ok ==>
            || (info.dataLength > 0 && !ValidCluster(info.firstCluster)) || !Healthy(env)
            || !Inside(v, info.noFatChain, info.firstCluster, info.dataLength) || sink.buf.Length < |bytes|)
    ensures ok ==> Inside(v, info.noFatChain, info.firstCluster, info.dataLength)
    ensures ok && info.dataLength > 0 ==> ValidCluster(info.firstCluster)
    ensures forall i :: sink.pos <= i < sink.buf.Length ==> sink.buf[i] == old(sink.buf[i])
  {
    ghost var bytes := FileBytes(v, info.noFatChain, info.firstCluster, info.dataLength);
    assert [] + bytes == bytes;
    if !ValidCluster(info.firstCluster) && info.dataLength > 0 {
      return false;
    }
    ok := WalkClusters(v, info.noFatChain, info.firstCluster, info.dataLength, sink, env, bytes);
  }

  /** `exfat_extract_to_buffer`: the number of bytes extracted, or -1. */
  method ExtractToBuffer(v: Volume, info: FileInfo, buf: array<Byte>, env: nat -> Io) returns (r: int)
    requires Mounted(v)
    modifies buf
    ensures var bytes := FileBytes(v, info.noFatChain, info.firstCluster, info.dataLength);
      && (r >= 0 ==> r == |bytes| <= buf.Length && buf[..r] == bytes)
      && (r < 0 ==>
            || buf.Length == 0 || info.dataLength > buf.Length
            || (info.dataLength > 0 && !ValidCluster(info.firstCluster)) || !Healthy(env)
            || !Inside(v, info.noFatChain, info.firstCluster, info.dataLength))
    ensures r >= 0 ==> Inside(v, info.noFatChain, info.firstCluster, info.dataLength)
    ensures r >= 0 ==> forall i :: r <= i < buf.Length ==> buf[i] == old(buf[i])
    ensures r == info.dataLength ==> Enough(v, info.noFatChain, info.firstCluster, info.dataLength)
  {
    if buf.Length == 0 || info.dataLength > buf.Length {
      return -1;
    }
    CompleteIffEnough(v, info.noFatChain, info.firstCluster, info.dataLength);
    var m := new Sink(buf);
    var ok := ReadFileData(v, info, m, env);
    if !ok {
      return -1;
    }
    r := m.pos;
  }
}
