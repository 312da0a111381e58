// The requests of a send phase: what each of them writes and forwards, and that
// what send_one and parallel_send put on the wire arrives as it was meant.

module Transport {
  import opened Structures
  import opened Disk
  import opened Relay
  import opened SendPhase
  import Faults
  import Wire

  /******* What is written and forwarded *******/

  // At every depth: a whole number of disk blocks at a block boundary, no longer
  // than a chunk, and the client's own bytes without the padding.
  predicate AlignedBelow(c: Config, off: nat, call: Call)
    requires off < |c.src|
    decreases call
  {
    && call.off == off && call.data == ChunkAt(c.src, c.chunk, off)
    && call.off % 8192 == 0 && |Padded(call.data)| % 8192 == 0 && 0 < |Padded(call.data)| <= c.chunk
    && (call.st.Running? ==> forall a :: 0 <= a < |call.st.kids| ==> AlignedBelow(c, off, call.st.kids[a]))
  }

  lemma {:induction false} RequestsAreAligned(c: Config, w: World, i: nat, off: nat, call: Call)
    requires i < c.N() && IsChunk(c.src, c.chunk, off) && CallOk(c, w, i, off, call)
    ensures AlignedBelow(c, off, call)
    decreases call
  {
    WriteIsAligned(c.src, c.chunk, off);
    if call.st.Running? {
      forall a | 0 <= a < |call.st.kids| ensures AlignedBelow(c, off, call.st.kids[a]) {
        RequestsAreAligned(c, w, c.Kids(i)[a], off, call.st.kids[a]);
      }
    }
  }

  // So it is in every run, for whatever is in flight.
  lemma RunIsAligned(c: Config, w: World, evs: seq<Event>, k: nat)
    requires c.N() > 0 && Ready(c, w) && Run(c, Init(c, w), evs).Some?
    requires var s := Run(c, Init(c, w), evs).value; k < |s.workers| && s.workers[k].Calling?
    ensures var wk := Run(c, Init(c, w), evs).value.workers[k];
            wk.off < |c.src| && AlignedBelow(c, wk.off, wk.call)
  {
    var s := Run(c, Init(c, w), evs).value;
    InvInit(c, w);
    InvRun(c, Init(c, w), evs);
    assert WorkerOk(c, s, s.workers[k]);
    RequestsAreAligned(c, s.w, 0, s.workers[k].off, s.workers[k].call);
  }

  /******* Requests and replies as messages *******/

  function RequestOf(call: Call): Wire.Message {
    Wire.Message(0, Wire.SendFileReq(call.hops, 0, |call.data|, 0, call.off, call.token), call.data)
  }

  function ReplyOf(err: int): Wire.Message { Wire.Message(err, Wire.SendFileResp, []) }

  // What a request tells its receiver: where the bytes go, whose file it is, how far
  // they may be forwarded, and the bytes.
  predicate Tells(o: Wire.Outcome, call: Call) {
    && o.Done? && o.msg.error == 0 && o.msg.body.SendFileReq? && o.msg.data == call.data
    && o.msg.body.offset == call.off && o.msg.body.fileToken == call.token && o.msg.body.maxChainLen == call.hops
    && o.msg.body.originSize == |call.data| && o.msg.body.compressType == 0 && o.msg.body.crc32 == 0
  }

  // Sizes are within their fields, and a whole chunk is within the receiver's limit.
  ghost predicate Sendable(c: Config, limit: nat) {
    && |c.src| <= Wire.Pow256(8) && limit < Wire.U32
    && forall i :: 0 <= i < c.N() ==> Wire.HEADER_SIZE + 24 + |c.Token(i)| + c.chunk <= limit
  }

  lemma RequestFits(m: Wire.Message, limit: nat)
    requires m.body.SendFileReq? && m.error == 0 && m.body.compressType == 0 && m.body.crc32 == 0
    requires m.body.maxChainLen < 0x1_0000 && m.body.originSize == |m.data| && m.body.offset < Wire.Pow256(8)
    requires Wire.HEADER_SIZE + 24 + |m.body.fileToken| + |m.data| <= limit < Wire.U32
    ensures Wire.Fits(m) && |Wire.Encode(m)| <= limit && |Wire.EncodeBody(m.body)| + |m.data| < Wire.U32
  {
    Wire.Widths();
    assert |Wire.EncodeBody(m.body)| == 24 + |m.body.fileToken|;
  }

  // A request for target i, wherever it is in the tree of forwards, is read as it
  // was written, in however many pieces it comes.
  lemma RequestTravels(c: Config, w: World, i: nat, off: nat, call: Call, limit: nat, fragments: seq<seq<byte>>)
    requires i < c.N() && IsChunk(c.src, c.chunk, off) && CallOk(c, w, i, off, call) && Faults.HopOk(c, i, call)
    requires Sendable(c, limit) && Wire.Flatten(fragments) == Wire.Encode(RequestOf(call))
    ensures Wire.Feed(limit, [], fragments) == Wire.Done(RequestOf(call), |Wire.Flatten(fragments)|)
    ensures Tells(Wire.Feed(limit, [], fragments), call)
  {
    WriteIsAligned(c.src, c.chunk, off);
    var m := RequestOf(call);
    RequestFits(m, limit);
    assert Wire.Encode(m) + [] == Wire.Encode(m);
    Wire.RoundTripInFragments(limit, m, fragments, []);
  }

  // In every run, whatever request a worker has out is one the first server reads
  // as it was written.
  lemma RunTravels(c: Config, w: World, evs: seq<Event>, k: nat, limit: nat, fragments: seq<seq<byte>>)
    requires c.N() > 0 && Ready(c, w) && Run(c, Init(c, w), evs).Some? && Sendable(c, limit)
    requires var s := Run(c, Init(c, w), evs).value;
             && k < |s.workers| && s.workers[k].Calling?
             && Wire.Flatten(fragments) == Wire.Encode(RequestOf(s.workers[k].call))
    ensures var wk := Run(c, Init(c, w), evs).value.workers[k];
            var o := Wire.Feed(limit, [], fragments);
            && Tells(o, wk.call) && o.used == |Wire.Flatten(fragments)|
            && wk.off < |c.src| && o.msg.body.offset == wk.off && o.msg.body.fileToken == c.Token(0)
            && o.msg.data == ChunkAt(c.src, c.chunk, wk.off)
  {
    var s := Run(c, Init(c, w), evs).value;
    InvInit(c, w);
    InvRun(c, Init(c, w), evs);
    assert forall x :: 0 <= x < c.workers ==> Init(c, w).workers[x] == Starting;
    Faults.FaultsRun(c, Init(c, w), evs);
    assert WorkerOk(c, s, s.workers[k]);
    RequestTravels(c, s.w, 0, s.workers[k].off, s.workers[k].call, limit, fragments);
  }

  // The error that a handler answers is the one its caller reads: the join has
  // already narrowed it to the 16 bits of the header.
  lemma ReplyTravels(e: int, limit: nat, fragments: seq<seq<byte>>)
    requires limit >= Wire.HEADER_SIZE && Wire.Flatten(fragments) == Wire.Encode(ReplyOf(Int16(e)))
    ensures var o := Wire.Feed(limit, [], fragments);
            && o.Done? && o.msg.body == Wire.SendFileResp && o.msg.data == []
            && o.msg.error == Int16(e) && o.used == |Wire.Flatten(fragments)|
  {
    var m := ReplyOf(Int16(e));
    assert Wire.Encode(m) + [] == Wire.Encode(m);
    Wire.RoundTripInFragments(limit, m, fragments, []);
  }
}
