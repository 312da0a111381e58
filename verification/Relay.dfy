// The server side of SEND_FILE: src/server/service.cpp (handle_send_file,
// send_chain, send_one, write_file). A request in flight is a tree of suspended
// handlers: each waits for its own write and for the requests it forwarded.

module Relay {
  import opened Structures
  import opened Disk
  import opened Topology
  import FileTable

  // One upload: what the client sends, how, and to whom.
  datatype Config = Config(
    src: seq<byte>, chunk: nat, shape: Shape, targets: seq<Addr>,
    tok: map<Addr, Str>,           // the token each server derives for this upload's path
    workers: nat, retries: nat)
  {
    function N(): nat { |targets| }

    function TokenAt(a: Addr): Str { if a in tok then tok[a] else [] }

    function Token(i: nat): Str
      requires i < N()
    {
      TokenAt(targets[i])
    }

    function Kids(i: nat): (r: seq<nat>)
      ensures forall a :: 0 <= a < |r| ==> i < r[a] < N()
    {
      ChildrenArePreimage(shape, N(), i);
      Children(shape, N(), i)
    }

    function LinkTo(i: nat): ChainTarget
      requires i < N()
    {
      ChainTarget(targets[i].host, targets[i].port, Token(i))
    }

    // The links that target i is given.
    function Links(i: nat): seq<ChainTarget> {
      seq(|Kids(i)|, a requires 0 <= a < |Kids(i)| => LinkTo(Kids(i)[a]))
    }
  }

  // A server: its table, and the bytes of this upload's file.
  datatype Node = Node(fmap: FileTable.Table, disk: seq<byte>)

  // active, log and alone only record history: the handlers now at work, every
  // request a handler was started for, by server and offset, and the tables as the
  // other clients would have left them if this upload had never been.
  datatype World = World(
    nodes: map<Addr, Node>, active: set<(Addr, nat)>, log: multiset<(Addr, nat)>, alone: map<Addr, FileTable.Table>)

  datatype CallState =
    | Sent
    | Running(written: Option<int>, kids: seq<Call>)
    | Answered(err: int)           // the handler is done, the reply under way
    | Replied(err: int)            // what the caller's request() returned

  datatype Call = Call(to: Addr, token: Str, hops: nat, off: nat, data: seq<byte>, left: nat, st: CallState)

  datatype CallEvent =
    | Drop(e: int)                 // not executed, error e
    | Resend                       // not executed, tried again
    | Deliver
    | WriteOk
    | WriteFail(e: int, m: nat)    // error e after m bytes
    | InKid(a: nat, ev: CallEvent)
    | Join
    | Reply
    | ReplyLost(e: int)            // executed, error e (also a reply of the wrong kind)
    | Redo                         // executed, reply lost, tried again

  // An error that survives the 16-bit field of a reply.
  predicate Fault(e: int) { Int16(e) != 0 }

  function FirstNonzero(errs: seq<int>): (r: int)
    ensures r == 0 <==> forall k :: 0 <= k < |errs| ==> errs[k] == 0
    ensures r != 0 ==> r in errs
  {
    if errs == [] then 0 else if errs[0] != 0 then errs[0] else FirstNonzero(errs[1..])
  }

  // send_chain's requests, one for each link.
  function Forward(call: Call, t: ChainTarget, retries: nat): Call {
    Call(t.At(), t.fileToken, U16(call.hops - 1), call.off, call.data, retries, Sent)
  }

  function ForwardAll(call: Call, ts: seq<ChainTarget>, retries: nat): (r: seq<Call>)
    ensures |r| == |ts| && forall a :: 0 <= a < |ts| ==> r[a] == Forward(call, ts[a], retries)
  {
    seq(|ts|, a requires 0 <= a < |ts| => Forward(call, ts[a], retries))
  }

  function Errors(kids: seq<Call>): (r: seq<int>)
    requires forall a :: 0 <= a < |kids| ==> kids[a].st.Replied?
    ensures |r| == |kids| && forall a :: 0 <= a < |kids| ==> r[a] == kids[a].st.err
  {
    seq(|kids|, a requires 0 <= a < |kids| => kids[a].st.err)
  }

  predicate AllReplied(kids: seq<Call>) { forall a :: 0 <= a < |kids| ==> kids[a].st.Replied? }

  function WriteTo(w: World, a: Addr, off: nat, d: seq<byte>): World
    requires a in w.nodes
  {
    w.(nodes := w.nodes[a := w.nodes[a].(disk := PWrite(w.nodes[a].disk, off, d))])
  }

  // None when the event is not possible.
  function CallStep(retries: nat, w: World, call: Call, ev: CallEvent): Option<(World, Call)>
    decreases call
  {
    match (call.st, ev)
    case (Sent, Drop(e)) => if Fault(e) then Some((w, call.(st := Replied(e)))) else None
    case (Sent, Resend) => if call.left > 0 then Some((w, call.(left := call.left - 1))) else None
    case (Sent, Deliver) =>
      if call.to !in w.nodes then None
      else
        var fmap := w.nodes[call.to].fmap;
        if call.token !in fmap then Some((w, call.(st := Answered(Int16(-ENOENT)))))
        else
          var targets := fmap[call.token].targets;
          if call.hops <= 1 && targets != [] then Some((w, call.(st := Answered(Int16(-ECANCELED)))))
          else
            Some((w.(active := w.active + {(call.to, call.off)}, log := w.log + multiset{(call.to, call.off)}),
                  call.(st := Running(None, ForwardAll(call, targets, retries)))))
    case (Running(written, kids), WriteOk) =>
      if written.None? && call.to in w.nodes then
        Some((WriteTo(w, call.to, call.off, Padded(call.data)), call.(st := Running(Some(0), kids))))
      else None
    case (Running(written, kids), WriteFail(e, m)) =>
      if written.None? && call.to in w.nodes && Fault(e) && m <= |Padded(call.data)| then
        Some((WriteTo(w, call.to, call.off, Padded(call.data)[..m]), call.(st := Running(Some(e), kids))))
      else None
    case (Running(written, kids), InKid(a, kev)) =>
      if a < |kids| then
        match CallStep(retries, w, kids[a], kev)
        case None => None
        case Some((w', kid)) => Some((w', call.(st := Running(written, kids[a := kid]))))
      else None
    case (Running(written, kids), Join) =>
      if written.Some? && AllReplied(kids) then
        Some((w.(active := w.active - {(call.to, call.off)}),
              call.(st := Answered(Int16(FirstNonzero(Errors(kids) + [written.value]))))))
      else None
    case (Answered(err), Reply) => Some((w, call.(st := Replied(err))))
    case (Answered(err), ReplyLost(e)) => if Fault(e) then Some((w, call.(st := Replied(e)))) else None
    case (Answered(err), Redo) => if call.left > 0 then Some((w, call.(st := Sent, left := call.left - 1))) else None
    case _ => None
  }

  // A handler that finds no entry answers what a close would; one that may not forward
  // and would have to answers ECANCELED. Neither starts anything.
  lemma RefusedIsHarmless(retries: nat, w: World, call: Call)
    requires call.st.Sent? && call.to in w.nodes
    ensures var fmap := w.nodes[call.to].fmap;
            var r := CallStep(retries, w, call, Deliver);
            && r.Some?
            && (call.token !in fmap ==> r.value == (w, call.(st := Answered(FileTable.Erase(fmap, call.token).1))))
            && (call.token in fmap && fmap[call.token].targets != [] && call.hops <= 1 ==>
                  r.value == (w, call.(st := Answered(-ECANCELED))))
  {
  }

  /******* The two loops of the handler *******/

  method SendChain(origin: Call, targets: seq<ChainTarget>, retries: nat) returns (tasks: seq<Call>)
    ensures tasks == ForwardAll(origin, targets, retries)
  {
    tasks := [];
    for i := 0 to |targets|
      invariant |tasks| == i && forall a :: 0 <= a < i ==> tasks[a] == Forward(origin, targets[a], retries)
    {
      var to := targets[i];
      var req := Call(Addr(to.host, to.port), to.fileToken, U16(origin.hops - 1), origin.off, origin.data,
                      retries, Sent);
      tasks := tasks + [req];
    }
  }

  method FirstError(chainErrors: seq<int>, writeError: int) returns (error: int)
    ensures error == FirstNonzero(chainErrors + [writeError])
  {
    error := 0;
    var i := 0;
    while i < |chainErrors| && error == 0
      invariant 0 <= i <= |chainErrors|
      invariant error == 0 ==> FirstNonzero(chainErrors + [writeError]) == FirstNonzero(chainErrors[i..] + [writeError])
      invariant error != 0 ==> error == FirstNonzero(chainErrors + [writeError])
    {
      assert (chainErrors[i..] + [writeError])[1..] == chainErrors[i + 1..] + [writeError];
      error := chainErrors[i];
      i := i + 1;
    }
    if error == 0 { error := writeError; }
  }

  /******* A zero reply means the whole subtree has the chunk *******/

  // The create phase has set up this upload: distinct servers, each with an open
  // entry that carries its links.
  ghost predicate Ready(c: Config, w: World) {
    && c.chunk > 0 && c.chunk % BASE == 0
    && (forall i, j :: 0 <= i < j < c.N() ==> c.targets[i] != c.targets[j])
    && forall i :: 0 <= i < c.N() ==>
         && c.targets[i] in w.nodes
         && c.Token(i) in w.nodes[c.targets[i]].fmap
         && w.nodes[c.targets[i]].fmap[c.Token(i)].targets == c.Links(i)
         && TailOk(w.nodes[c.targets[i]].disk, c.src)
  }

  ghost predicate NodeHas(c: Config, w: World, j: nat, off: nat)
    requires j < c.N() && off < |c.src|
  {
    c.targets[j] in w.nodes && HasChunk(w.nodes[c.targets[j]].disk, c.src, c.chunk, off)
  }

  ghost predicate SubtreeHas(c: Config, w: World, i: nat, off: nat)
    requires off < |c.src|
  {
    forall j :: 0 <= j < c.N() && Under(c.shape, i, j) ==> NodeHas(c, w, j, off)
  }

  // Call is the request for the chunk at off, sent to target i.
  ghost predicate CallOk(c: Config, w: World, i: nat, off: nat, call: Call)
    requires i < c.N() && IsChunk(c.src, c.chunk, off)
    decreases call
  {
    && call.to == c.targets[i] && call.token == c.Token(i)
    && call.off == off && call.data == ChunkAt(c.src, c.chunk, off)
    && match call.st
       case Sent => true
       case Answered(err) => (err == 0 ==> SubtreeHas(c, w, i, off)) && (err != 0 ==> Fault(err))
       case Replied(err) => (err == 0 ==> SubtreeHas(c, w, i, off)) && (err != 0 ==> Fault(err))
       case Running(written, kids) =>
         && |kids| == |c.Kids(i)|
         && (forall a :: 0 <= a < |kids| ==> CallOk(c, w, c.Kids(i)[a], off, kids[a]))
         && (written == Some(0) ==> NodeHas(c, w, i, off))
         && (written.Some? && written.value != 0 ==> Fault(written.value))
  }

  // Tables stay, and no chunk is lost.
  ghost predicate Grows(c: Config, w: World, w': World) {
    && w.nodes.Keys == w'.nodes.Keys && w.alone == w'.alone
    && (forall a :: a in w.nodes ==> w'.nodes[a].fmap == w.nodes[a].fmap)
    && forall j, off :: 0 <= j < c.N() && IsChunk(c.src, c.chunk, off) && NodeHas(c, w, j, off) ==>
       NodeHas(c, w', j, off)
  }

  lemma {:induction false} CallOkGrows(c: Config, w: World, w': World, i: nat, off: nat, call: Call)
    requires i < c.N() && IsChunk(c.src, c.chunk, off) && CallOk(c, w, i, off, call) && Grows(c, w, w')
    ensures CallOk(c, w', i, off, call)
    decreases call
  {
    if call.st.Running? {
      forall a | 0 <= a < |call.st.kids| { CallOkGrows(c, w, w', c.Kids(i)[a], off, call.st.kids[a]); }
    }
  }

  lemma WriteGrows(c: Config, w: World, i: nat, off: nat, m: nat)
    requires Ready(c, w) && i < c.N() && IsChunk(c.src, c.chunk, off)
    requires m <= |Padded(ChunkAt(c.src, c.chunk, off))|
    ensures var w' := WriteTo(w, c.targets[i], off, Padded(ChunkAt(c.src, c.chunk, off))[..m]);
            Ready(c, w') && Grows(c, w, w')
  {
    var disk := w.nodes[c.targets[i]].disk;
    var w' := WriteTo(w, c.targets[i], off, Padded(ChunkAt(c.src, c.chunk, off))[..m]);
    WriteKeepsTail(disk, c.src, c.chunk, off, m);
    forall j, o | 0 <= j < c.N() && IsChunk(c.src, c.chunk, o) && NodeHas(c, w, j, o) ensures NodeHas(c, w', j, o) {
      if c.targets[j] == c.targets[i] { WriteKeepsChunk(disk, c.src, c.chunk, o, off, m); }
    }
  }

  lemma {:induction false} CallStepKeeps(c: Config, w: World, i: nat, off: nat, call: Call, ev: CallEvent)
    requires Ready(c, w) && i < c.N() && IsChunk(c.src, c.chunk, off) && CallOk(c, w, i, off, call)
    requires CallStep(c.retries, w, call, ev).Some?
    ensures var (w', call') := CallStep(c.retries, w, call, ev).value;
            Ready(c, w') && Grows(c, w, w') && CallOk(c, w', i, off, call')
    decreases call
  {
    match ev
    case WriteOk => WriteOkKeeps(c, w, i, off, call);
    case WriteFail(e, m) => WriteFailKeeps(c, w, i, off, call, e, m);
    case InKid(a, kev) =>
      CallStepKeeps(c, w, c.Kids(i)[a], off, call.st.kids[a], kev);
      KidKeeps(c, w, i, off, call, a, kev);
    case Join => JoinKeeps(c, w, i, off, call);
    case _ => TransportKeeps(c, w, i, off, call, ev);
  }

  // Delivery, replies and everything the network does leave the disks alone.
  lemma TransportKeeps(c: Config, w: World, i: nat, off: nat, call: Call, ev: CallEvent)
    requires Ready(c, w) && i < c.N() && IsChunk(c.src, c.chunk, off) && CallOk(c, w, i, off, call)
    requires CallStep(c.retries, w, call, ev).Some? && !ev.InKid? && !ev.Join? && !ev.WriteOk? && !ev.WriteFail?
    ensures var (w', call') := CallStep(c.retries, w, call, ev).value;
            Ready(c, w') && Grows(c, w, w') && CallOk(c, w', i, off, call')
  {
    var w' := CallStep(c.retries, w, call, ev).value.0;
    SameNodesGrow(c, w, w');
    if ev.Deliver? { assert |c.Links(i)| == |c.Kids(i)|; } else { CallOkGrows(c, w, w', i, off, call); }
  }

  lemma SameNodesGrow(c: Config, w: World, w': World)
    requires Ready(c, w) && w'.nodes == w.nodes && w'.alone == w.alone
    ensures Ready(c, w') && Grows(c, w, w')
    ensures forall i, off: nat :: off < |c.src| && SubtreeHas(c, w, i, off) ==> SubtreeHas(c, w', i, off)
  {
    forall j, off: nat | 0 <= j < c.N() && off < |c.src| ensures NodeHas(c, w, j, off) <==> NodeHas(c, w', j, off) {}
  }

  lemma WriteOkKeeps(c: Config, w: World, i: nat, off: nat, call: Call)
    requires Ready(c, w) && i < c.N() && IsChunk(c.src, c.chunk, off) && CallOk(c, w, i, off, call)
    requires CallStep(c.retries, w, call, WriteOk).Some?
    ensures var (w', call') := CallStep(c.retries, w, call, WriteOk).value;
            Ready(c, w') && Grows(c, w, w') && CallOk(c, w', i, off, call')
  {
    var (w', call') := CallStep(c.retries, w, call, WriteOk).value;
    var d := Padded(call.data);
    assert d[..|d|] == d;
    WriteGrows(c, w, i, off, |d|);
    WritePutsChunk(w.nodes[c.targets[i]].disk, c.src, c.chunk, off);
    RunningGrows(c, w, w', i, off, call);
  }

  lemma WriteFailKeeps(c: Config, w: World, i: nat, off: nat, call: Call, e: int, m: nat)
    requires Ready(c, w) && i < c.N() && IsChunk(c.src, c.chunk, off) && CallOk(c, w, i, off, call)
    requires CallStep(c.retries, w, call, WriteFail(e, m)).Some?
    ensures var (w', call') := CallStep(c.retries, w, call, WriteFail(e, m)).value;
            Ready(c, w') && Grows(c, w, w') && CallOk(c, w', i, off, call')
  {
    WriteGrows(c, w, i, off, m);
    RunningGrows(c, w, CallStep(c.retries, w, call, WriteFail(e, m)).value.0, i, off, call);
  }

  lemma KidKeeps(c: Config, w: World, i: nat, off: nat, call: Call, a: nat, kev: CallEvent)
    requires i < c.N() && IsChunk(c.src, c.chunk, off) && CallOk(c, w, i, off, call)
    requires CallStep(c.retries, w, call, InKid(a, kev)).Some?
    requires var (w', kid) := CallStep(c.retries, w, call.st.kids[a], kev).value;
             Grows(c, w, w') && CallOk(c, w', c.Kids(i)[a], off, kid)
    ensures var (w', call') := CallStep(c.retries, w, call, InKid(a, kev)).value; CallOk(c, w', i, off, call')
  {
    RunningGrows(c, w, CallStep(c.retries, w, call.st.kids[a], kev).value.0, i, off, call);
  }

  lemma JoinKeeps(c: Config, w: World, i: nat, off: nat, call: Call)
    requires Ready(c, w) && i < c.N() && IsChunk(c.src, c.chunk, off) && CallOk(c, w, i, off, call)
    requires CallStep(c.retries, w, call, Join).Some?
    ensures var (w', call') := CallStep(c.retries, w, call, Join).value;
            Ready(c, w') && Grows(c, w, w') && CallOk(c, w', i, off, call')
  {
    JoinIsSound(c, w, i, off, call);
    SameNodesGrow(c, w, CallStep(c.retries, w, call, Join).value.0);
  }

  lemma RunningGrows(c: Config, w: World, w': World, i: nat, off: nat, call: Call)
    requires i < c.N() && IsChunk(c.src, c.chunk, off) && CallOk(c, w, i, off, call) && Grows(c, w, w')
             && call.st.Running?
    ensures forall a :: 0 <= a < |call.st.kids| ==> CallOk(c, w', c.Kids(i)[a], off, call.st.kids[a])
  {
    forall a | 0 <= a < |call.st.kids| { CallOkGrows(c, w, w', c.Kids(i)[a], off, call.st.kids[a]); }
  }

  // The first-error rule: zero only if the write and every forward succeeded.
  lemma JoinIsSound(c: Config, w: World, i: nat, off: nat, call: Call)
    requires i < c.N() && IsChunk(c.src, c.chunk, off) && CallOk(c, w, i, off, call)
    requires call.st.Running? && call.st.written.Some? && AllReplied(call.st.kids)
    ensures var err := Int16(FirstNonzero(Errors(call.st.kids) + [call.st.written.value]));
            && (err == 0 ==> SubtreeHas(c, w, i, off)) && (err != 0 ==> Fault(err))
            && (err == 0 <==>
                call.st.written.value == 0 && forall a :: 0 <= a < |call.st.kids| ==> call.st.kids[a].st.err == 0)
  {
    var kids, wr := call.st.kids, call.st.written.value;
    var errs := Errors(kids) + [wr];
    var first := FirstNonzero(errs);
    Int16Idempotent(first);
    if first == 0 {
      assert errs[|kids|] == 0;
      forall a | 0 <= a < |kids| ensures kids[a].st.err == 0 { assert errs[a] == 0; }
      forall j | 0 <= j < c.N() && Under(c.shape, i, j) ensures NodeHas(c, w, j, off) {
        UnderSplits(c.shape, c.N(), i, j);
      }
    } else {
      var k :| 0 <= k < |errs| && errs[k] == first;
      assert Fault(first) by { if k < |kids| { assert CallOk(c, w, c.Kids(i)[k], off, kids[k]); } }
    }
  }
}
