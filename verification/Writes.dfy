// What a send phase writes to each file: the writes of that server's own handlers, in
// their order, and nothing else, whether the phase succeeds or not.

module Writes {
  import opened Structures
  import opened Disk
  import opened Relay
  import opened SendPhase

  // Which target an event of a request for target i writes to, and what: the padded
  // chunk, or as much of it as a failed write has done.
  function WriteOf(c: Config, i: nat, off: nat, ev: CallEvent): Option<(nat, seq<byte>)>
    requires i < c.N() && off < |c.src|
    decreases ev
  {
    var d := Padded(ChunkAt(c.src, c.chunk, off));
    match ev
    case WriteOk => Some((i, d))
    case WriteFail(_, m) => Some((i, d[..Min(m, |d|)]))
    case InKid(a, kev) => if a < |c.Kids(i)| then WriteOf(c, c.Kids(i)[a], off, kev) else None
    case _ => None
  }

  // The servers after a write of d at off of target j's file.
  ghost predicate Wrote(c: Config, w: World, w': World, off: nat, write: Option<(nat, seq<byte>)>) {
    match write
    case None => w'.nodes == w.nodes
    case Some((j, d)) =>
      && j < c.N() && c.targets[j] in w.nodes
      && var node := w.nodes[c.targets[j]];
         w'.nodes == w.nodes[c.targets[j] := Node(node.fmap, PWrite(node.disk, off, d))]
  }

  lemma {:induction false} WriteStep(c: Config, w: World, i: nat, off: nat, call: Call, ev: CallEvent)
    requires i < c.N() && IsChunk(c.src, c.chunk, off) && CallOk(c, w, i, off, call)
    requires CallStep(c.retries, w, call, ev).Some?
    ensures Wrote(c, w, CallStep(c.retries, w, call, ev).value.0, off, WriteOf(c, i, off, ev))
    decreases call
  {
    if ev.InKid? { WriteStep(c, w, c.Kids(i)[ev.a], off, call.st.kids[ev.a], ev.ev); }
    if ev.WriteOk? { assert Padded(call.data)[..|Padded(call.data)|] == Padded(call.data); }
  }

  // The writes to target j's file, in order.
  function WritesTo(c: Config, s: State, evs: seq<Event>, j: nat): seq<(nat, seq<byte>)>
    requires c.N() > 0
    decreases |evs|
  {
    if evs == [] || Step(c, s, evs[0]).None? then []
    else WritesBy(c, s, evs[0], j) + WritesTo(c, Step(c, s, evs[0]).value, evs[1..], j)
  }

  function WritesBy(c: Config, s: State, ev: Event, j: nat): seq<(nat, seq<byte>)>
    requires c.N() > 0
  {
    if ev.k < |s.workers| && s.workers[ev.k].Calling? && ev.act.InCall? && s.workers[ev.k].off < |c.src| then
      match WriteOf(c, 0, s.workers[ev.k].off, ev.act.ev)
      case None => []
      case Some((i, d)) => if i == j then [(s.workers[ev.k].off, d)] else []
    else []
  }

  function After(disk: seq<byte>, writes: seq<(nat, seq<byte>)>): seq<byte>
    decreases |writes|
  {
    if writes == [] then disk else After(PWrite(disk, writes[0].0, writes[0].1), writes[1..])
  }

  predicate ChunkWrite(c: Config, write: (nat, seq<byte>)) {
    IsChunk(c.src, c.chunk, write.0) && write.1 <= Padded(ChunkAt(c.src, c.chunk, write.0))
  }

  lemma {:induction false} WriteOfIs(c: Config, i: nat, off: nat, ev: CallEvent)
    requires i < c.N() && IsChunk(c.src, c.chunk, off) && WriteOf(c, i, off, ev).Some?
    ensures ChunkWrite(c, (off, WriteOf(c, i, off, ev).value.1)) && WriteOf(c, i, off, ev).value.0 < c.N()
    decreases ev
  {
    if ev.InKid? { WriteOfIs(c, c.Kids(i)[ev.a], off, ev.ev); }
  }

  lemma EventWrites(c: Config, s: State, ev: Event, j: nat)
    requires Inv(c, s) && Step(c, s, ev).Some? && j < c.N()
    ensures var a := c.targets[j];
            && a in s.w.nodes && a in Step(c, s, ev).value.w.nodes
            && Step(c, s, ev).value.w.nodes[a].disk == After(s.w.nodes[a].disk, WritesBy(c, s, ev, j))
            && forall x :: x in WritesBy(c, s, ev, j) ==> ChunkWrite(c, x)
  {
    if ev.act.InCall? {
      var wk := s.workers[ev.k];
      assert WorkerOk(c, s, wk);
      WriteStep(c, s.w, 0, wk.off, wk.call, ev.act.ev);
      if WriteOf(c, 0, wk.off, ev.act.ev).Some? { WriteOfIs(c, 0, wk.off, ev.act.ev); }
    }
  }

  lemma {:induction false} AfterBoth(disk: seq<byte>, a: seq<(nat, seq<byte>)>, b: seq<(nat, seq<byte>)>)
    ensures After(disk, a + b) == After(After(disk, a), b)
    decreases |a|
  {
    if a == [] {
      assert a + b == b;
    } else {
      assert (a + b)[1..] == a[1..] + b;
      AfterBoth(PWrite(disk, a[0].0, a[0].1), a[1..], b);
    }
  }

  // In every run, successful or not, each target's file is what its own writes make of
  // it, and each of them is a padded chunk, or the beginning of one.
  lemma {:induction false} FilesAreTheirWrites(c: Config, s: State, evs: seq<Event>, j: nat)
    requires Inv(c, s) && Run(c, s, evs).Some? && j < c.N()
    ensures var a := c.targets[j];
            && a in s.w.nodes && a in Run(c, s, evs).value.w.nodes
            && Run(c, s, evs).value.w.nodes[a].disk == After(s.w.nodes[a].disk, WritesTo(c, s, evs, j))
            && forall x :: x in WritesTo(c, s, evs, j) ==> ChunkWrite(c, x)
    decreases |evs|
  {
    if evs != [] {
      var s1 := Step(c, s, evs[0]).value;
      InvStep(c, s, evs[0]);
      EventWrites(c, s, evs[0], j);
      FilesAreTheirWrites(c, s1, evs[1..], j);
      AfterBoth(s.w.nodes[c.targets[j]].disk, WritesBy(c, s, evs[0], j), WritesTo(c, s1, evs[1..], j));
    }
  }
}
