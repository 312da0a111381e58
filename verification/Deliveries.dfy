// How many requests a send phase delivers.

module Deliveries {
  import opened Structures
  import opened Disk
  import opened Relay
  import opened SendPhase
  import Faults
  import Trace

  function ChunkCount(size: nat, chunk: nat): nat
    requires chunk > 0
  {
    (size + chunk - 1) / chunk
  }

  // The first n chunk offsets.
  function Offsets(chunk: nat, n: nat): set<nat> {
    if n == 0 then {} else Offsets(chunk, n - 1) + {(n - 1) * chunk}
  }

  lemma {:induction false} OffsetsAre(chunk: nat, n: nat, off: nat)
    requires chunk > 0
    ensures off in Offsets(chunk, n) <==> off % chunk == 0 && off / chunk < n
    decreases n
  {
    if n > 0 {
      OffsetsAre(chunk, n - 1, off);
      Quotient(chunk, n - 1, off);
    }
  }

  lemma Quotient(chunk: nat, k: nat, off: nat)
    requires chunk > 0
    ensures off == k * chunk <==> off % chunk == 0 && off / chunk == k
  {
    assert off == chunk * (off / chunk) + off % chunk;
    if off == k * chunk {
      assert off == chunk * k;
      MulMod(k, chunk);
      MulMono(k + 1, off / chunk, chunk);
      MulMono(off / chunk + 1, k, chunk);
    }
  }

  lemma {:induction false} OffsetsCount(chunk: nat, n: nat)
    requires chunk > 0
    ensures |Offsets(chunk, n)| == n
    decreases n
  {
    if n > 0 {
      OffsetsCount(chunk, n - 1);
      NextIsNew(chunk, n - 1);
    }
  }

  lemma NextIsNew(chunk: nat, n: nat)
    requires chunk > 0
    ensures n * chunk !in Offsets(chunk, n)
  {
    OffsetsAre(chunk, n, n * chunk);
    Quotient(chunk, n, n * chunk);
  }

  // The chunks are the offsets below the number of chunks.
  lemma ChunksAre(src: seq<byte>, chunk: nat, off: nat)
    requires chunk > 0 && chunk % BASE == 0
    ensures off in Offsets(chunk, ChunkCount(|src|, chunk)) <==> IsChunk(src, chunk, off)
  {
    var n := ChunkCount(|src|, chunk);
    OffsetsAre(chunk, n, off);
    var q := off / chunk;
    var r := (|src| + chunk - 1) % chunk;
    assert off == chunk * q + off % chunk;
    assert |src| + chunk - 1 == chunk * n + r;
    MulMono(q + 1, n, chunk);
    MulMono(n, q, chunk);
  }

  function Row(a: Addr, offs: set<nat>): set<(Addr, nat)> { set o | o in offs :: (a, o) }

  function Pairs(addrs: seq<Addr>, offs: set<nat>): set<(Addr, nat)> {
    if addrs == [] then {} else Row(addrs[0], offs) + Pairs(addrs[1..], offs)
  }

  lemma {:induction false} PairsAre(addrs: seq<Addr>, offs: set<nat>, x: (Addr, nat))
    ensures x in Pairs(addrs, offs) <==> x.0 in addrs && x.1 in offs
    decreases |addrs|
  {
    if addrs != [] {
      PairsAre(addrs[1..], offs, x);
      assert addrs == [addrs[0]] + addrs[1..];
    }
  }

  lemma {:induction false} RowCount(a: Addr, offs: set<nat>)
    ensures |Row(a, offs)| == |offs|
    decreases |offs|
  {
    if offs == {} {
      assert Row(a, offs) == {};
    } else {
      var o :| o in offs;
      RowCount(a, offs - {o});
      assert Row(a, offs) == Row(a, offs - {o}) + {(a, o)};
    }
  }

  lemma OneMoreRow(n: nat, m: nat)
    requires n > 0
    ensures n * m == m + (n - 1) * m
  {
  }

  lemma {:induction false} PairsCount(addrs: seq<Addr>, offs: set<nat>)
    requires forall i, j :: 0 <= i < j < |addrs| ==> addrs[i] != addrs[j]
    ensures |Pairs(addrs, offs)| == |addrs| * |offs|
    decreases |addrs|
  {
    if addrs != [] {
      var row, rest := Row(addrs[0], offs), Pairs(addrs[1..], offs);
      PairsCount(addrs[1..], offs);
      RowCount(addrs[0], offs);
      forall x | x in row ensures x !in rest { PairsAre(addrs[1..], offs, x); }
      assert row !! rest;
      OneMoreRow(|addrs|, |offs|);
    }
  }

  lemma {:induction false} SetCount<T>(s: set<T>)
    ensures |multiset(s)| == |s|
    decreases |s|
  {
    if s != {} {
      var x :| x in s;
      SetCount(s - {x});
      assert multiset(s) == multiset(s - {x}) + multiset{x};
    }
  }

  lemma AtMostOnce<T(!new)>(m: multiset<T>, s: set<T>)
    requires forall x :: m[x] <= if x in s then 1 else 0
    ensures |m| <= |s|
  {
    SetCount(s);
    assert multiset(s) == m + (multiset(s) - m);
  }

  lemma AtLeastOnce<T(!new)>(m: multiset<T>, s: set<T>)
    requires forall x :: x in s ==> m[x] >= 1
    ensures |m| >= |s|
  {
    SetCount(s);
    assert m == multiset(s) + (m - multiset(s));
  }

  // A run that repeats no request delivers at most one for each server and chunk,
  // and exactly one for each if it succeeds; with repeats a success delivers no fewer.
  lemma DeliveryBound(c: Config, w: World, evs: seq<Event>)
    requires c.N() > 0 && c.workers > 0 && Ready(c, w) && w.active == {} && w.log == multiset{}
    requires Run(c, Init(c, w), evs).Some? && AllGone(Run(c, Init(c, w), evs).value)
    ensures var s := Run(c, Init(c, w), evs).value;
            var all := c.N() * ChunkCount(|c.src|, c.chunk);
            && (Faults.NoRetry(evs) ==> |s.w.log| <= all)
            && (s.error == 0 ==> |s.w.log| >= all)
            && (Faults.NoRetry(evs) && s.error == 0 ==> |s.w.log| == all)
  {
    var log := Run(c, Init(c, w), evs).value.w.log;
    var offs := Offsets(c.chunk, ChunkCount(|c.src|, c.chunk));
    var pairs := Pairs(c.targets, offs);
    PairsCount(c.targets, offs);
    OffsetsCount(c.chunk, ChunkCount(|c.src|, c.chunk));
    forall x: (Addr, nat) ensures x in pairs <==> x.0 in c.targets && IsChunk(c.src, c.chunk, x.1) {
      PairsAre(c.targets, offs, x);
      ChunksAre(c.src, c.chunk, x.1);
    }
    forall x: (Addr, nat)
      ensures x !in pairs ==> log[x] == 0
      ensures Faults.NoRetry(evs) ==> log[x] <= 1
      ensures x in pairs && Run(c, Init(c, w), evs).value.error == 0 ==> log[x] >= 1
    {
      Trace.ExactlyOnce(c, w, evs, x.0, x.1);
      assert x == (x.0, x.1);
    }
    if Faults.NoRetry(evs) { AtMostOnce(log, pairs); }
    if Run(c, Init(c, w), evs).value.error == 0 { AtLeastOnce(log, pairs); }
  }
}
