// A target file as the bytes the kernel holds, and the writes of
// src/server/service.cpp (write_file) on it.

module Disk {
  import opened Structures

  // FCOPY_CHUNK_BASE
  const BASE: nat := 8192

  // The size handed to pwrite for a payload of n bytes.
  function PaddedLen(n: nat): nat {
    if n % BASE != 0 then (n + BASE) / BASE * BASE else n
  }

  lemma PaddedLenLeast(n: nat, m: nat)
    ensures PaddedLen(n) % BASE == 0 && n <= PaddedLen(n) < n + BASE
    ensures m % BASE == 0 && n <= m ==> PaddedLen(n) <= m
  {
  }

  function Zeros(n: nat): seq<byte> { seq(n, _ => 0) }

  // The buffer write_file hands to pwrite.
  function Padded(data: seq<byte>): (r: seq<byte>)
    ensures |r| == PaddedLen(|data|)
  {
    PaddedLenLeast(|data|, 0);
    data + Zeros(PaddedLen(|data|) - |data|)
  }

  // A complete pwrite; a write past the end leaves a hole of zeros.
  function PWrite(disk: seq<byte>, off: nat, d: seq<byte>): seq<byte> {
    if d == [] then disk
    else
      var base := if |disk| < off + |d| then disk + Zeros(off + |d| - |disk|) else disk;
      base[..off] + d + base[off + |d|..]
  }

  function Truncate(disk: seq<byte>, size: nat): seq<byte> {
    if size <= |disk| then disk[..size] else disk + Zeros(size - |disk|)
  }

  lemma PWriteAt(disk: seq<byte>, off: nat, d: seq<byte>, p: nat)
    requires d != []
    ensures |PWrite(disk, off, d)| == if |disk| < off + |d| then off + |d| else |disk|
    ensures p < |PWrite(disk, off, d)| ==>
              PWrite(disk, off, d)[p] ==
              if off <= p < off + |d| then d[p - off] else if p < |disk| then disk[p] else 0
  {
  }

  // ftruncate keeps what there is up to the size, and fills up with zeros.
  lemma TruncateAt(disk: seq<byte>, size: nat, p: nat)
    ensures |Truncate(disk, size)| == size
    ensures p < size ==> Truncate(disk, size)[p] == if p < |disk| then disk[p] else 0
  {
  }

  /******* Chunks of the source file *******/

  // What a successful pread of `chunk` bytes at `off` returns.
  function ChunkAt(src: seq<byte>, chunk: nat, off: nat): seq<byte>
    requires off < |src|
  {
    src[off..Min(off + chunk, |src|)]
  }

  predicate IsChunk(src: seq<byte>, chunk: nat, off: nat) {
    chunk > 0 && chunk % BASE == 0 && off < |src| && off % chunk == 0
  }

  lemma MulMono(x: int, y: int, c: nat)
    ensures x <= y ==> c * x <= c * y
  {
    if x <= y { assert 0 <= c * (y - x) == c * y - c * x; }
  }

  lemma MultiplesApart(a: nat, b: nat, c: nat)
    requires c > 0 && a % c == 0 && b % c == 0 && a < b
    ensures a + c <= b
  {
    assert a == c * (a / c) && b == c * (b / c);
    MulMono(b / c, a / c, c);
    MulMono(a / c + 1, b / c, c);
  }

  lemma MulMod(k: int, c: nat)
    requires c > 0
    ensures (c * k) % c == 0
  {
    var d, m := (c * k) / c, (c * k) % c;
    assert c * k == c * d + m;
    assert c * (k - d) == m;
    MulMono(1, k - d, c);
    MulMono(k - d, -1, c);
  }

  lemma MultipleOfMultiple(a: nat, b: nat, c: nat)
    requires c > 0 && b > 0 && a % b == 0 && b % c == 0
    ensures a % c == 0
  {
    var q, r := a / b, b / c;
    assert a == b * q && b == c * r;
    assert a == c * (r * q);
    MulMod(r * q, c);
  }

  // Every server write is aligned for direct I/O, never longer than a chunk, and
  // stays inside the chunk's own slot; only the last chunk is padded at all.
  lemma WriteIsAligned(src: seq<byte>, chunk: nat, off: nat)
    requires IsChunk(src, chunk, off)
    ensures off % 8192 == 0
    ensures |Padded(ChunkAt(src, chunk, off))| % 8192 == 0
    ensures 0 < |ChunkAt(src, chunk, off)| <= |Padded(ChunkAt(src, chunk, off))| <= chunk
    ensures off + |Padded(ChunkAt(src, chunk, off))| <= PaddedLen(|src|)
    ensures |Padded(ChunkAt(src, chunk, off))| != |ChunkAt(src, chunk, off)| ==> |src| < off + chunk
  {
    MultipleOfMultiple(off, chunk, BASE);
    SlotArithmetic(|src|, chunk, off);
  }

  lemma SlotArithmetic(size: nat, chunk: nat, off: nat)
    requires chunk > 0 && chunk % BASE == 0 && off % BASE == 0 && off < size
    ensures var n := Min(off + chunk, size) - off;
            && PaddedLen(n) % BASE == 0 && n <= PaddedLen(n) <= chunk && off + PaddedLen(n) <= PaddedLen(size)
            && (off + chunk <= size ==> PaddedLen(n) == n)
  {
    var n: nat := Min(off + chunk, size) - off;
    PaddedLenLeast(n, chunk);
    PaddedLenShifts(off, n);
    PaddedLenLeast(size, 0);
    PaddedLenLeast(off + n, PaddedLen(size));
  }

  lemma SlotsDisjoint(src: seq<byte>, chunk: nat, o1: nat, o2: nat)
    requires IsChunk(src, chunk, o1) && IsChunk(src, chunk, o2) && o1 != o2
    ensures o1 + |Padded(ChunkAt(src, chunk, o1))| <= o2 || o2 + |Padded(ChunkAt(src, chunk, o2))| <= o1
  {
    WriteIsAligned(src, chunk, o1);
    WriteIsAligned(src, chunk, o2);
    if o1 < o2 { MultiplesApart(o1, o2, chunk); } else { MultiplesApart(o2, o1, chunk); }
  }

  // The chunk at off is on disk, out to the end of its padded write.
  ghost predicate HasChunk(disk: seq<byte>, src: seq<byte>, chunk: nat, off: nat)
    requires off < |src|
  {
    && off + |Padded(ChunkAt(src, chunk, off))| <= |disk|
    && forall p :: off <= p < Min(off + chunk, |src|) ==> p < |disk| && disk[p] == src[p]
  }

  // Nothing but zeros past the end of the source, and no more than its padding.
  ghost predicate TailOk(disk: seq<byte>, src: seq<byte>) {
    |disk| <= PaddedLen(|src|) && forall p :: |src| <= p < |disk| ==> disk[p] == 0
  }

  // A write of (a prefix of) one padded chunk disturbs no chunk already present.
  lemma WriteKeepsChunk(disk: seq<byte>, src: seq<byte>, chunk: nat, o: nat, off: nat, m: nat)
    requires IsChunk(src, chunk, o) && IsChunk(src, chunk, off) && HasChunk(disk, src, chunk, o)
    requires m <= |Padded(ChunkAt(src, chunk, off))|
    ensures HasChunk(PWrite(disk, off, Padded(ChunkAt(src, chunk, off))[..m]), src, chunk, o)
  {
    var d := Padded(ChunkAt(src, chunk, off))[..m];
    if d != [] {
      WriteIsAligned(src, chunk, o);
      if o != off { SlotsDisjoint(src, chunk, o, off); }
      PWriteAt(disk, off, d, 0);
      forall p | o <= p < Min(o + chunk, |src|)
        ensures p < |PWrite(disk, off, d)| && PWrite(disk, off, d)[p] == src[p]
      {
        PWriteAt(disk, off, d, p);
      }
    }
  }

  lemma WriteKeepsTail(disk: seq<byte>, src: seq<byte>, chunk: nat, off: nat, m: nat)
    requires IsChunk(src, chunk, off) && TailOk(disk, src)
    requires m <= |Padded(ChunkAt(src, chunk, off))|
    ensures TailOk(PWrite(disk, off, Padded(ChunkAt(src, chunk, off))[..m]), src)
  {
    var d := Padded(ChunkAt(src, chunk, off))[..m];
    WriteIsAligned(src, chunk, off);
    if d != [] {
      forall p | 0 <= p < |PWrite(disk, off, d)| { PWriteAt(disk, off, d, p); }
      PWriteAt(disk, off, d, 0);
    }
  }

  lemma WritePutsChunk(disk: seq<byte>, src: seq<byte>, chunk: nat, off: nat)
    requires IsChunk(src, chunk, off)
    ensures HasChunk(PWrite(disk, off, Padded(ChunkAt(src, chunk, off))), src, chunk, off)
  {
    var d := Padded(ChunkAt(src, chunk, off));
    WriteIsAligned(src, chunk, off);
    forall p | 0 <= p < |PWrite(disk, off, d)| { PWriteAt(disk, off, d, p); }
    PWriteAt(disk, off, d, 0);
  }

  ghost predicate AllChunks(disk: seq<byte>, src: seq<byte>, chunk: nat) {
    forall off :: IsChunk(src, chunk, off) ==> HasChunk(disk, src, chunk, off)
  }

  // With every chunk present the file is the source, padded with zeros. This is
  // the state a close finds: ftruncate then makes it the source itself, and a
  // close whose ftruncate fails (the result is ignored) leaves the padding.
  lemma AllChunksMakeTheFile(disk: seq<byte>, src: seq<byte>, chunk: nat)
    requires chunk > 0 && chunk % BASE == 0
    requires TailOk(disk, src) && AllChunks(disk, src, chunk)
    ensures disk == Padded(src)
  {
    PaddedLenLeast(|src|, 0);
    forall p | 0 <= p < |src| ensures p < |disk| && disk[p] == src[p] {
      SlotOf(p, chunk);
      assert IsChunk(src, chunk, p - p % chunk);
    }
    if src != [] { LastChunkReachesTheEnd(disk, src, chunk); }
  }

  lemma LastChunkReachesTheEnd(disk: seq<byte>, src: seq<byte>, chunk: nat)
    requires chunk > 0 && chunk % BASE == 0 && src != []
    requires AllChunks(disk, src, chunk)
    ensures PaddedLen(|src|) <= |disk|
  {
    var last := |src| - 1 - (|src| - 1) % chunk;
    SlotOf(|src| - 1, chunk);
    assert IsChunk(src, chunk, last);
    LastPaddingEndsTheFile(src, chunk, last);
  }

  lemma LastPaddingEndsTheFile(src: seq<byte>, chunk: nat, last: nat)
    requires IsChunk(src, chunk, last) && |src| <= last + chunk
    ensures last + |Padded(ChunkAt(src, chunk, last))| == PaddedLen(|src|)
  {
    WriteIsAligned(src, chunk, last);
    PaddedLenShifts(last, |src| - last);
  }

  lemma PaddedLenShifts(a: nat, n: nat)
    requires a % BASE == 0
    ensures a + PaddedLen(n) == PaddedLen(a + n)
  {
    assert a == BASE * (a / BASE);
    assert (a + n) % BASE == n % BASE;
    assert (a + n + BASE) / BASE == a / BASE + (n + BASE) / BASE;
  }

  lemma SlotOf(p: nat, chunk: nat)
    requires chunk > 0
    ensures 0 <= p - p % chunk <= p < p - p % chunk + chunk
    ensures (p - p % chunk) % chunk == 0
  {
    assert p - p % chunk == chunk * (p / chunk);
    MulMod(p / chunk, chunk);
  }

  lemma TruncateIsExact(src: seq<byte>)
    ensures Truncate(Padded(src), |src|) == src
    ensures Padded(src) == src <==> |src| % 8192 == 0
  {
    PaddedLenLeast(|src|, 0);
  }

  /******* Order and repetition of writes do not matter *******/

  predicate AreChunks(src: seq<byte>, chunk: nat, offs: seq<nat>) {
    forall i :: 0 <= i < |offs| ==> IsChunk(src, chunk, offs[i])
  }

  function WriteAll(src: seq<byte>, chunk: nat, offs: seq<nat>): seq<byte>
    requires AreChunks(src, chunk, offs)
  {
    if offs == [] then []
    else
      var o := offs[|offs| - 1];
      PWrite(WriteAll(src, chunk, offs[..|offs| - 1]), o, Padded(ChunkAt(src, chunk, o)))
  }

  // Position p lies in the slot of a chunk that was written.
  predicate Covered(chunk: nat, offs: seq<nat>, p: nat) {
    exists i :: 0 <= i < |offs| && offs[i] <= p < offs[i] + chunk
  }

  function End(src: seq<byte>, chunk: nat, off: nat): nat
    requires IsChunk(src, chunk, off)
  {
    off + |Padded(ChunkAt(src, chunk, off))|
  }

  lemma Snoc(offs: seq<nat>)
    requires offs != []
    ensures offs == offs[..|offs| - 1] + [offs[|offs| - 1]]
  {
  }

  // The file after any sequence of chunk writes, told without the order: it ends
  // where the furthest write ends, written chunks hold the source, and the rest
  // is zero.
  lemma {:induction false} WriteAllIs(src: seq<byte>, chunk: nat, offs: seq<nat>)
    requires AreChunks(src, chunk, offs)
    ensures forall i :: 0 <= i < |offs| ==> End(src, chunk, offs[i]) <= |WriteAll(src, chunk, offs)|
    ensures if offs == [] then WriteAll(src, chunk, offs) == []
            else exists i :: 0 <= i < |offs| && |WriteAll(src, chunk, offs)| == End(src, chunk, offs[i])
    ensures forall p :: 0 <= p < |WriteAll(src, chunk, offs)| ==>
              WriteAll(src, chunk, offs)[p] == if p < |src| && Covered(chunk, offs, p) then src[p] else 0
  {
    if offs != [] {
      var pre, o := offs[..|offs| - 1], offs[|offs| - 1];
      var disk := WriteAll(src, chunk, pre);
      WriteAllIs(src, chunk, pre);
      OneMoreEnd(src, chunk, disk, pre, o);
      Snoc(offs);
      forall p | 0 <= p < |WriteAll(src, chunk, offs)| {
        OneMoreByte(src, chunk, disk, pre, o, p);
      }
    }
  }

  lemma OneMoreEnd(src: seq<byte>, chunk: nat, disk: seq<byte>, pre: seq<nat>, o: nat)
    requires AreChunks(src, chunk, pre) && IsChunk(src, chunk, o)
    requires forall i :: 0 <= i < |pre| ==> End(src, chunk, pre[i]) <= |disk|
    requires if pre == [] then disk == [] else exists i :: 0 <= i < |pre| && |disk| == End(src, chunk, pre[i])
    ensures AreChunks(src, chunk, pre + [o])
    ensures forall i :: 0 <= i < |pre + [o]| ==>
              End(src, chunk, (pre + [o])[i]) <= |PWrite(disk, o, Padded(ChunkAt(src, chunk, o)))|
    ensures exists i :: 0 <= i < |pre + [o]| &&
              |PWrite(disk, o, Padded(ChunkAt(src, chunk, o)))| == End(src, chunk, (pre + [o])[i])
  {
    WriteIsAligned(src, chunk, o);
    PWriteAt(disk, o, Padded(ChunkAt(src, chunk, o)), 0);
    if |disk| <= End(src, chunk, o) {
      assert (pre + [o])[|pre|] == o;
    } else {
      var i :| 0 <= i < |pre| && |disk| == End(src, chunk, pre[i]);
      assert (pre + [o])[i] == pre[i];
    }
  }

  lemma OneMoreByte(src: seq<byte>, chunk: nat, disk: seq<byte>, pre: seq<nat>, o: nat, p: nat)
    requires AreChunks(src, chunk, pre) && IsChunk(src, chunk, o)
    requires forall i :: 0 <= i < |pre| ==> End(src, chunk, pre[i]) <= |disk|
    requires p < |disk| ==> disk[p] == if p < |src| && Covered(chunk, pre, p) then src[p] else 0
    requires p < |PWrite(disk, o, Padded(ChunkAt(src, chunk, o)))|
    ensures PWrite(disk, o, Padded(ChunkAt(src, chunk, o)))[p] ==
            if p < |src| && Covered(chunk, pre + [o], p) then src[p] else 0
  {
    WriteIsAligned(src, chunk, o);
    PWriteAt(disk, o, Padded(ChunkAt(src, chunk, o)), p);
    CoveredOneMore(chunk, pre, o, p);
    if p < |src| && |disk| <= p && Covered(chunk, pre, p) { CoveredIsInside(src, chunk, pre, p); }
  }

  lemma CoveredOneMore(chunk: nat, pre: seq<nat>, o: nat, p: nat)
    ensures Covered(chunk, pre + [o], p) <==> Covered(chunk, pre, p) || o <= p < o + chunk
  {
    var offs := pre + [o];
    if o <= p < o + chunk { assert offs[|pre|] == o; }
    if Covered(chunk, pre, p) {
      var i :| 0 <= i < |pre| && pre[i] <= p < pre[i] + chunk;
      assert offs[i] == pre[i];
    }
  }

  lemma CoveredIsInside(src: seq<byte>, chunk: nat, offs: seq<nat>, p: nat)
    requires AreChunks(src, chunk, offs) && p < |src| && Covered(chunk, offs, p)
    ensures exists i :: 0 <= i < |offs| && p < End(src, chunk, offs[i])
  {
    var i :| 0 <= i < |offs| && offs[i] <= p < offs[i] + chunk;
    WriteIsAligned(src, chunk, offs[i]);
  }

  lemma OrderAndRepetitionDoNotMatter(src: seq<byte>, chunk: nat, a: seq<nat>, b: seq<nat>)
    requires AreChunks(src, chunk, a) && AreChunks(src, chunk, b)
    requires forall o :: o in a <==> o in b
    ensures WriteAll(src, chunk, a) == WriteAll(src, chunk, b)
  {
    WriteAllReaches(src, chunk, a, b);
    WriteAllReaches(src, chunk, b, a);
    WriteAllIs(src, chunk, a);
    WriteAllIs(src, chunk, b);
    forall p: nat ensures Covered(chunk, a, p) <==> Covered(chunk, b, p) {
      if i :| 0 <= i < |a| && a[i] <= p < a[i] + chunk { assert a[i] in b; }
      if i :| 0 <= i < |b| && b[i] <= p < b[i] + chunk { assert b[i] in a; }
    }
  }

  lemma WriteAllReaches(src: seq<byte>, chunk: nat, a: seq<nat>, b: seq<nat>)
    requires AreChunks(src, chunk, a) && AreChunks(src, chunk, b)
    requires forall o :: o in a ==> o in b
    ensures |WriteAll(src, chunk, a)| <= |WriteAll(src, chunk, b)|
  {
    WriteAllIs(src, chunk, a);
    WriteAllIs(src, chunk, b);
    if a != [] {
      var i :| 0 <= i < |a| && |WriteAll(src, chunk, a)| == End(src, chunk, a[i]);
      assert a[i] in b;
    }
  }
}
