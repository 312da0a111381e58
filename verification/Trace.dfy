// Who is at work, and who was ever asked: quiescence and exactly-once delivery.

module Trace {
  import opened Structures
  import opened Disk
  import opened Topology
  import opened Relay
  import opened SendPhase
  import opened Progress
  import Faults

  // No handler for the chunk at off is at work in the subtree of target i.
  ghost predicate Quiet(c: Config, w: World, i: nat, off: nat) {
    forall j :: 0 <= j < c.N() && Under(c.shape, i, j) ==> (c.targets[j], off) !in w.active
  }

  // Each server in the subtree of i was asked for the chunk at least lo times, and
  // while nothing has been repeated (once) at most hi times.
  ghost predicate Asked(c: Config, w: World, i: nat, off: nat, lo: nat, hi: nat, once: bool) {
    forall j :: 0 <= j < c.N() && Under(c.shape, i, j) ==>
      lo <= w.log[(c.targets[j], off)] && (once ==> w.log[(c.targets[j], off)] <= hi)
  }

  // The history agrees with the tree of suspended handlers.
  ghost predicate CallTrace(c: Config, w: World, i: nat, off: nat, call: Call, once: bool)
    requires i < c.N()
    decreases call
  {
    && match call.st
       case Sent => Quiet(c, w, i, off) && Asked(c, w, i, off, 0, 0, once)
       case Answered(err) => Quiet(c, w, i, off) && Asked(c, w, i, off, if err == 0 then 1 else 0, 1, once)
       case Replied(err) => Quiet(c, w, i, off) && Asked(c, w, i, off, if err == 0 then 1 else 0, 1, once)
       case Running(_, kids) =>
         && (c.targets[i], off) in w.active
         && w.log[(c.targets[i], off)] >= 1 && (once ==> w.log[(c.targets[i], off)] == 1)
         && |kids| == |c.Kids(i)|
         && forall a :: 0 <= a < |kids| ==> CallTrace(c, w, c.Kids(i)[a], off, kids[a], once)
  }

  ghost predicate SameAt(w: World, w': World, a: Addr, off: nat) {
    ((a, off) in w.active <==> (a, off) in w'.active) && w.log[(a, off)] == w'.log[(a, off)]
  }

  ghost predicate SameUnder(c: Config, w: World, w': World, i: nat, off: nat) {
    forall j :: 0 <= j < c.N() && Under(c.shape, i, j) ==> SameAt(w, w', c.targets[j], off)
  }

  // Nothing changes but the subtree of i, and there only for off.
  ghost predicate OnlyUnder(c: Config, w: World, w': World, i: nat, off: nat) {
    && (forall a, o: nat :: o != off ==> SameAt(w, w', a, o))
    && (forall j :: 0 <= j < c.N() && !Under(c.shape, i, j) ==> SameAt(w, w', c.targets[j], off))
    && (forall a :: (a, off) in w'.active ==> (a, off) in w.active || exists j :: 0 <= j < c.N() && a == c.targets[j])
    && (forall a :: (a, off) in w'.log ==> (a, off) in w.log || exists j :: 0 <= j < c.N() && a == c.targets[j])
  }

  lemma {:induction false} CallTraceFrame(c: Config, w: World, w': World, i: nat, off: nat, call: Call, once: bool,
                                          still: bool)
    requires i < c.N() && CallTrace(c, w, i, off, call, once) && SameUnder(c, w, w', i, off) && (still ==> once)
    ensures CallTrace(c, w', i, off, call, still)
    decreases call
  {
    if call.st.Running? {
      assert Under(c.shape, i, i);
      forall a | 0 <= a < |call.st.kids| ensures CallTrace(c, w', c.Kids(i)[a], off, call.st.kids[a], still) {
        KidsAreUnder(c, i, a);
        CallTraceFrame(c, w, w', c.Kids(i)[a], off, call.st.kids[a], once, still);
      }
    }
  }

  lemma KidsAreUnder(c: Config, i: nat, a: nat)
    requires a < |c.Kids(i)|
    ensures forall j :: 0 <= j < c.N() && Under(c.shape, c.Kids(i)[a], j) ==> Under(c.shape, i, j)
  {
    forall j | 0 <= j < c.N() && Under(c.shape, c.Kids(i)[a], j) ensures Under(c.shape, i, j) {
      UnderSplits(c.shape, c.N(), i, j);
    }
  }

  // What holds of i and of every child's subtree holds of the subtree of i.
  lemma UnderFromKids(c: Config, i: nat, j: nat)
    requires j < c.N() && Under(c.shape, i, j) && j != i
    ensures exists a :: 0 <= a < |c.Kids(i)| && Under(c.shape, c.Kids(i)[a], j)
  {
    UnderSplits(c.shape, c.N(), i, j);
    var a :| 0 <= a < |Children(c.shape, c.N(), i)| && Under(c.shape, Children(c.shape, c.N(), i)[a], j);
    assert Under(c.shape, c.Kids(i)[a], j);
  }

  lemma {:induction false} CallTraceStep(c: Config, w: World, i: nat, off: nat, call: Call, ev: CallEvent, once: bool)
    requires Ready(c, w) && i < c.N() && IsChunk(c.src, c.chunk, off)
    requires CallOk(c, w, i, off, call) && CallTrace(c, w, i, off, call, once)
    requires CallStep(c.retries, w, call, ev).Some?
    ensures var (w', call') := CallStep(c.retries, w, call, ev).value;
            CallTrace(c, w', i, off, call', once && !CallRetry(ev)) && OnlyUnder(c, w, w', i, off)
    decreases call
  {
    match ev
    case Deliver => DeliverTrace(c, w, i, off, call, once);
    case InKid(a, kev) =>
      CallTraceStep(c, w, c.Kids(i)[a], off, call.st.kids[a], kev, once);
      KidTrace(c, w, i, off, call, a, kev, once);
    case Join => JoinTrace(c, w, i, off, call, once);
    case _ => OtherTrace(c, w, i, off, call, ev, once);
  }

  lemma OtherTrace(c: Config, w: World, i: nat, off: nat, call: Call, ev: CallEvent, once: bool)
    requires i < c.N() && CallTrace(c, w, i, off, call, once)
    requires CallStep(c.retries, w, call, ev).Some? && !ev.Deliver? && !ev.InKid? && !ev.Join?
    ensures var (w', call') := CallStep(c.retries, w, call, ev).value;
            CallTrace(c, w', i, off, call', once && !CallRetry(ev)) && OnlyUnder(c, w, w', i, off)
  {
    if ev.WriteOk? || ev.WriteFail? {
      RunningFrame(c, w, CallStep(c.retries, w, call, ev).value.0, i, off, call, once, once);
    }
  }

  lemma RunningFrame(c: Config, w: World, w': World, i: nat, off: nat, call: Call, once: bool, still: bool)
    requires i < c.N() && call.st.Running? && CallTrace(c, w, i, off, call, once)
    requires still ==> once
    requires w'.active == w.active && w'.log == w.log
    ensures forall a :: 0 <= a < |call.st.kids| ==> CallTrace(c, w', c.Kids(i)[a], off, call.st.kids[a], still)
  {
    forall a | 0 <= a < |call.st.kids| { CallTraceFrame(c, w, w', c.Kids(i)[a], off, call.st.kids[a], once, still); }
  }

  lemma DeliverTrace(c: Config, w: World, i: nat, off: nat, call: Call, once: bool)
    requires Ready(c, w) && i < c.N() && IsChunk(c.src, c.chunk, off)
    requires CallOk(c, w, i, off, call) && CallTrace(c, w, i, off, call, once)
    requires CallStep(c.retries, w, call, Deliver).Some?
    ensures var (w', call') := CallStep(c.retries, w, call, Deliver).value;
            CallTrace(c, w', i, off, call', once) && OnlyUnder(c, w, w', i, off)
  {
    var (w', call') := CallStep(c.retries, w, call, Deliver).value;
    if call'.st.Running? {
      StartedUnder(c, w, w', i, off, once);
      assert |c.Links(i)| == |c.Kids(i)|;
      forall a | 0 <= a < |c.Kids(i)| ensures CallTrace(c, w', c.Kids(i)[a], off, call'.st.kids[a], once) {
        StartedKid(c, w, w', i, off, a, once);
      }
    }
  }

  ghost predicate Started(c: Config, w: World, w': World, i: nat, off: nat)
    requires i < c.N()
  {
    w'.active == w.active + {(c.targets[i], off)} && w'.log == w.log + multiset{(c.targets[i], off)}
  }

  lemma StartedUnder(c: Config, w: World, w': World, i: nat, off: nat, once: bool)
    requires Ready(c, w) && i < c.N() && Quiet(c, w, i, off) && Asked(c, w, i, off, 0, 0, once)
             && Started(c, w, w', i, off)
    ensures OnlyUnder(c, w, w', i, off)
    ensures w'.log[(c.targets[i], off)] >= 1 && (once ==> w'.log[(c.targets[i], off)] == 1)
  {
    assert Under(c.shape, i, i);
  }

  lemma StartedKid(c: Config, w: World, w': World, i: nat, off: nat, a: nat, once: bool)
    requires Ready(c, w) && i < c.N() && a < |c.Kids(i)|
    requires Quiet(c, w, i, off) && Asked(c, w, i, off, 0, 0, once)
    requires Started(c, w, w', i, off)
    ensures Quiet(c, w', c.Kids(i)[a], off) && Asked(c, w', c.Kids(i)[a], off, 0, 0, once)
  {
    KidsAreUnder(c, i, a);
    forall j | 0 <= j < c.N() && Under(c.shape, c.Kids(i)[a], j) ensures c.targets[j] != c.targets[i] {
      NotAboveItself(c, i, a, j);
    }
  }

  lemma NotAboveItself(c: Config, i: nat, a: nat, j: nat)
    requires a < |c.Kids(i)| && Under(c.shape, c.Kids(i)[a], j)
    ensures j != i
  {
  }

  lemma KidTrace(c: Config, w: World, i: nat, off: nat, call: Call, a: nat, kev: CallEvent, once: bool)
    requires Ready(c, w) && i < c.N() && CallTrace(c, w, i, off, call, once)
    requires CallStep(c.retries, w, call, InKid(a, kev)).Some?
    requires var (w', kid) := CallStep(c.retries, w, call.st.kids[a], kev).value;
             CallTrace(c, w', c.Kids(i)[a], off, kid, once && !CallRetry(kev)) && OnlyUnder(c, w, w', c.Kids(i)[a], off)
    ensures var (w', call') := CallStep(c.retries, w, call, InKid(a, kev)).value;
            CallTrace(c, w', i, off, call', once && !CallRetry(kev)) && OnlyUnder(c, w, w', i, off)
  {
    var w' := CallStep(c.retries, w, call.st.kids[a], kev).value.0;
    KidsAreUnder(c, i, a);
    assert !Under(c.shape, c.Kids(i)[a], i);
    assert SameAt(w, w', c.targets[i], off);
    forall b | 0 <= b < |call.st.kids| && b != a
      ensures CallTrace(c, w', c.Kids(i)[b], off, call.st.kids[b], once && !CallRetry(kev))
    {
      SiblingTrace(c, w, w', i, off, call.st.kids[b], a, b, once, once && !CallRetry(kev));
    }
  }

  lemma SiblingTrace(c: Config, w: World, w': World, i: nat, off: nat, kid: Call, a: nat, b: nat, once: bool,
                     still: bool)
    requires Ready(c, w) && i < c.N() && a < |c.Kids(i)| && b < |c.Kids(i)| && a != b && (still ==> once)
    requires CallTrace(c, w, c.Kids(i)[b], off, kid, once) && OnlyUnder(c, w, w', c.Kids(i)[a], off)
    ensures CallTrace(c, w', c.Kids(i)[b], off, kid, still)
  {
    forall j | 0 <= j < c.N() && Under(c.shape, c.Kids(i)[b], j) ensures SameAt(w, w', c.targets[j], off) {
      SiblingsAreDisjoint(c.shape, c.N(), i, a, b, j);
    }
    CallTraceFrame(c, w, w', c.Kids(i)[b], off, kid, once, still);
  }

  lemma JoinTrace(c: Config, w: World, i: nat, off: nat, call: Call, once: bool)
    requires Ready(c, w) && i < c.N() && IsChunk(c.src, c.chunk, off)
    requires CallOk(c, w, i, off, call) && CallTrace(c, w, i, off, call, once)
    requires CallStep(c.retries, w, call, Join).Some?
    ensures var (w', call') := CallStep(c.retries, w, call, Join).value;
            CallTrace(c, w', i, off, call', once) && OnlyUnder(c, w, w', i, off)
  {
    var err := CallStep(c.retries, w, call, Join).value.1.st.err;
    JoinIsSound(c, w, i, off, call);
    forall j | 0 <= j < c.N() && Under(c.shape, i, j)
      ensures (c.targets[j], off) in w.active ==> j == i
      ensures (if err == 0 then 1 else 0) <= w.log[(c.targets[j], off)] && (once ==> w.log[(c.targets[j], off)] <= 1)
    {
      JoinAt(c, w, i, off, call, err, j, once);
    }
    FinishedUnder(c, w, CallStep(c.retries, w, call, Join).value.0, i, off);
  }

  lemma FinishedUnder(c: Config, w: World, w': World, i: nat, off: nat)
    requires Ready(c, w) && i < c.N() && w'.log == w.log && w'.active == w.active - {(c.targets[i], off)}
    requires forall j :: 0 <= j < c.N() && Under(c.shape, i, j) && (c.targets[j], off) in w.active ==> j == i
    ensures OnlyUnder(c, w, w', i, off) && Quiet(c, w', i, off)
  {
    assert Under(c.shape, i, i);
  }

  lemma JoinAt(c: Config, w: World, i: nat, off: nat, call: Call, err: int, j: nat, once: bool)
    requires i < c.N() && IsChunk(c.src, c.chunk, off) && CallTrace(c, w, i, off, call, once)
    requires call.st.Running? && AllReplied(call.st.kids)
    requires err == 0 ==> forall a :: 0 <= a < |call.st.kids| ==> call.st.kids[a].st.err == 0
    requires j < c.N() && Under(c.shape, i, j)
    ensures (c.targets[j], off) in w.active ==> j == i
    ensures (if err == 0 then 1 else 0) <= w.log[(c.targets[j], off)] && (once ==> w.log[(c.targets[j], off)] <= 1)
  {
    if j != i {
      UnderFromKids(c, i, j);
      var a :| 0 <= a < |c.Kids(i)| && Under(c.shape, c.Kids(i)[a], j);
      assert CallTrace(c, w, c.Kids(i)[a], off, call.st.kids[a], once);
    }
  }

  /******* Over the whole send phase *******/

  ghost predicate WorkerTrace(c: Config, s: State, wk: Worker, once: bool)
    requires c.N() > 0
  {
    match wk
    case Reading(off) => Quiet(c, s.w, 0, off) && Asked(c, s.w, 0, off, 0, 0, once)
    case Calling(off, call) => CallTrace(c, s.w, 0, off, call, once)
    case _ => true
  }

  ghost predicate TraceOk(c: Config, s: State, once: bool)
    requires c.N() > 0
  {
    && (forall k :: 0 <= k < |s.workers| ==> WorkerTrace(c, s, s.workers[k], once))
    && (forall off: nat :: IsChunk(c.src, c.chunk, off) && s.cursor <= off ==>
          Quiet(c, s.w, 0, off) && Asked(c, s.w, 0, off, 0, 0, once))
    && (forall off: nat :: IsChunk(c.src, c.chunk, off) && off < s.cursor && !Held(s, off) ==>
          Quiet(c, s.w, 0, off) && Asked(c, s.w, 0, off, 0, 1, once) &&
          (Failed(s) || Asked(c, s.w, 0, off, 1, 1, once)))
  }

  // A handler is, or was, at work only for a chunk and only on a target.
  ghost predicate OnlyTargets(c: Config, w: World) {
    && (forall a, o :: (a, o) in w.active ==>
          IsChunk(c.src, c.chunk, o) && exists j :: 0 <= j < c.N() && a == c.targets[j])
    && (forall a, o :: (a, o) in w.log ==>
          IsChunk(c.src, c.chunk, o) && exists j :: 0 <= j < c.N() && a == c.targets[j])
  }

  lemma OnlyTargetsStep(c: Config, s: State, ev: Event, once: bool)
    requires Inv(c, s) && TraceOk(c, s, once) && OnlyTargets(c, s.w) && Step(c, s, ev).Some?
    ensures OnlyTargets(c, Step(c, s, ev).value.w)
  {
    if ev.act.InCall? {
      CallWorkerTrace(c, s, ev, once);
      StillOnlyTargets(c, s.w, Step(c, s, ev).value.w, s.workers[ev.k].off);
    }
  }

  lemma StillOnlyTargets(c: Config, w: World, w': World, off: nat)
    requires c.N() > 0 && IsChunk(c.src, c.chunk, off) && OnlyTargets(c, w) && OnlyUnder(c, w, w', 0, off)
    ensures OnlyTargets(c, w')
  {
    forall a, o | (a, o) in w'.active
      ensures IsChunk(c.src, c.chunk, o) && exists j :: 0 <= j < c.N() && a == c.targets[j]
    {
      if o != off { assert SameAt(w, w', a, o); }
    }
    forall a, o | (a, o) in w'.log
      ensures IsChunk(c.src, c.chunk, o) && exists j :: 0 <= j < c.N() && a == c.targets[j]
    {
      if o != off { assert SameAt(w, w', a, o); }
    }
  }

  lemma TraceInit(c: Config, w: World, once: bool)
    requires c.N() > 0 && w.active == {} && w.log == multiset{}
    ensures TraceOk(c, Init(c, w), once)
  {
    var s := Init(c, w);
    assert forall k :: 0 <= k < |s.workers| ==> s.workers[k] == Starting;
  }

  // The step of one worker, seen from a chunk it does not hold.
  lemma OtherChunkSame(c: Config, s: State, ev: Event, off: nat, once: bool)
    requires Inv(c, s) && TraceOk(c, s, once) && Step(c, s, ev).Some?
    requires !(s.workers[ev.k].Calling? && s.workers[ev.k].off == off)
    ensures SameUnder(c, s.w, Step(c, s, ev).value.w, 0, off)
  {
    if ev.act.InCall? {
      CallWorkerTrace(c, s, ev, once);
      OtherOffsetsSame(c, s.w, Step(c, s, ev).value.w, s.workers[ev.k].off, off);
    } else {
      assert Step(c, s, ev).value.w == s.w;
    }
  }

  lemma OtherOffsetsSame(c: Config, w: World, w': World, off: nat, other: nat)
    requires OnlyUnder(c, w, w', 0, off) && other != off
    ensures SameUnder(c, w, w', 0, other)
  {
  }

  lemma CallWorkerTrace(c: Config, s: State, ev: Event, once: bool)
    requires Inv(c, s) && TraceOk(c, s, once) && Step(c, s, ev).Some? && ev.act.InCall?
    ensures var off := s.workers[ev.k].off;
            var s' := Step(c, s, ev).value;
            && OnlyUnder(c, s.w, s'.w, 0, off)
            && s'.workers[ev.k].Calling? && s'.workers[ev.k].off == off
            && CallTrace(c, s'.w, 0, off, s'.workers[ev.k].call, once && !IsRetry(ev.act))
  {
    var wk := s.workers[ev.k];
    assert WorkerOk(c, s, wk) && WorkerTrace(c, s, wk, once);
    CallTraceStep(c, s.w, 0, wk.off, wk.call, ev.act.ev, once);
  }

  lemma WorkersTraceStep(c: Config, s: State, ev: Event, k: nat, once: bool)
    requires Inv(c, s) && TraceOk(c, s, once) && Step(c, s, ev).Some? && k < |s.workers|
    ensures WorkerTrace(c, Step(c, s, ev).value, Step(c, s, ev).value.workers[k], once && !IsRetry(ev.act))
  {
    if k == ev.k { OwnTraceStep(c, s, ev, once); } else { OtherTraceStep(c, s, ev, k, once); }
  }

  lemma OwnTraceStep(c: Config, s: State, ev: Event, once: bool)
    requires Inv(c, s) && TraceOk(c, s, once) && Step(c, s, ev).Some?
    ensures WorkerTrace(c, Step(c, s, ev).value, Step(c, s, ev).value.workers[ev.k], once && !IsRetry(ev.act))
  {
    if ev.act.InCall? {
      CallWorkerTrace(c, s, ev, once);
    } else if ev.act.Claim? {
      if s.cursor < |c.src| { assert IsChunk(c.src, c.chunk, s.cursor); }
    } else if ev.act.ReadOk? {
      assert WorkerTrace(c, s, s.workers[ev.k], once);
    } else {
      assert !Step(c, s, ev).value.workers[ev.k].Reading? && !Step(c, s, ev).value.workers[ev.k].Calling?;
    }
  }

  lemma OtherTraceStep(c: Config, s: State, ev: Event, k: nat, once: bool)
    requires Inv(c, s) && TraceOk(c, s, once) && Step(c, s, ev).Some? && k < |s.workers| && k != ev.k
    ensures WorkerTrace(c, Step(c, s, ev).value, Step(c, s, ev).value.workers[k], once && !IsRetry(ev.act))
  {
    var s', wk := Step(c, s, ev).value, s.workers[k];
    assert s'.workers[k] == wk && WorkerTrace(c, s, wk, once);
    if wk.Reading? || wk.Calling? {
      assert Holds(wk, wk.off) && !Holds(s.workers[ev.k], wk.off);
      OtherChunkSame(c, s, ev, wk.off, once);
      if wk.Calling? { CallTraceFrame(c, s.w, s'.w, 0, wk.off, wk.call, once, once && !IsRetry(ev.act)); }
    }
  }

  lemma TraceStep(c: Config, s: State, ev: Event, once: bool)
    requires Inv(c, s) && TraceOk(c, s, once) && Step(c, s, ev).Some?
    ensures TraceOk(c, Step(c, s, ev).value, once && !IsRetry(ev.act))
  {
    var s', once' := Step(c, s, ev).value, once && !IsRetry(ev.act);
    forall k | 0 <= k < |s.workers| { WorkersTraceStep(c, s, ev, k, once); }
    forall off: nat | IsChunk(c.src, c.chunk, off) && s'.cursor <= off
      ensures Quiet(c, s'.w, 0, off) && Asked(c, s'.w, 0, off, 0, 0, once')
    {
      UnclaimedStep(c, s, ev, off, once);
    }
    forall off: nat | IsChunk(c.src, c.chunk, off) && off < s'.cursor && !Held(s', off)
      ensures Quiet(c, s'.w, 0, off) && Asked(c, s'.w, 0, off, 0, 1, once')
      ensures Failed(s') || Asked(c, s'.w, 0, off, 1, 1, once')
    {
      ReleasedStep(c, s, ev, off, once);
    }
  }

  lemma UnclaimedStep(c: Config, s: State, ev: Event, off: nat, once: bool)
    requires Inv(c, s) && TraceOk(c, s, once) && Step(c, s, ev).Some?
    requires IsChunk(c.src, c.chunk, off) && Step(c, s, ev).value.cursor <= off
    ensures var s' := Step(c, s, ev).value;
            Quiet(c, s'.w, 0, off) && Asked(c, s'.w, 0, off, 0, 0, once && !IsRetry(ev.act))
  {
    assert WorkerOk(c, s, s.workers[ev.k]);
    OtherChunkSame(c, s, ev, off, once);
  }

  lemma ReleasedStep(c: Config, s: State, ev: Event, off: nat, once: bool)
    requires Inv(c, s) && TraceOk(c, s, once) && Step(c, s, ev).Some?
    requires IsChunk(c.src, c.chunk, off) && off < Step(c, s, ev).value.cursor && !Held(Step(c, s, ev).value, off)
    ensures var s' := Step(c, s, ev).value;
            var once' := once && !IsRetry(ev.act);
            && Quiet(c, s'.w, 0, off) && Asked(c, s'.w, 0, off, 0, 1, once')
            && (Failed(s') || Asked(c, s'.w, 0, off, 1, 1, once'))
  {
    if s.cursor <= off { NewChunkOk(c, s, ev, off); }
    if Held(s, off) {
      HeldOtherwise(c, s, ev, off);
      JustReleased(c, s, ev, off, once);
    } else {
      assert !Holds(s.workers[ev.k], off);
      if Failed(s) { FailedStays(c, s, ev); }
      OtherChunkSame(c, s, ev, off, once);
    }
  }

  // The chunk has this moment been let go: after a failed read, or with a reply.
  lemma JustReleased(c: Config, s: State, ev: Event, off: nat, once: bool)
    requires Inv(c, s) && TraceOk(c, s, once) && Step(c, s, ev).Some?
    requires Holds(s.workers[ev.k], off) && !Held(Step(c, s, ev).value, off)
    ensures var s' := Step(c, s, ev).value;
            var once' := once && !IsRetry(ev.act);
            && Quiet(c, s'.w, 0, off) && Asked(c, s'.w, 0, off, 0, 1, once')
            && (Failed(s') || Asked(c, s'.w, 0, off, 1, 1, once'))
  {
    var s', wk := Step(c, s, ev).value, s.workers[ev.k];
    assert WorkerTrace(c, s, wk, once);
    assert !Holds(s'.workers[ev.k], off);
    assert ev.act.ReadFail? || ev.act.Return?;
    assert s'.w == s.w;
    assert (wk.Calling? && wk.call.st.Replied? && wk.call.st.err == 0)
           || (s'.workers[ev.k].Leaving? && s'.workers[ev.k].err != 0);
  }

  lemma {:induction false} TraceRun(c: Config, s: State, evs: seq<Event>, once: bool)
    requires Inv(c, s) && TraceOk(c, s, once) && OnlyTargets(c, s.w) && Run(c, s, evs).Some?
    ensures TraceOk(c, Run(c, s, evs).value, once && Faults.NoRetry(evs)) && OnlyTargets(c, Run(c, s, evs).value.w)
    decreases |evs|
  {
    if evs != [] {
      InvStep(c, s, evs[0]);
      TraceStep(c, s, evs[0], once);
      OnlyTargetsStep(c, s, evs[0], once);
      TraceRun(c, Step(c, s, evs[0]).value, evs[1..], once && !IsRetry(evs[0].act));
      NoRetryStep(evs);
    }
  }

  lemma NoRetryStep(evs: seq<Event>)
    requires evs != []
    ensures Faults.NoRetry(evs) <==> !IsRetry(evs[0].act) && Faults.NoRetry(evs[1..])
  {
    if Faults.NoRetry(evs) {
      forall x | 0 <= x < |evs[1..]| ensures !IsRetry(evs[1..][x].act) { assert evs[1..][x] == evs[x + 1]; }
    }
    if !IsRetry(evs[0].act) && Faults.NoRetry(evs[1..]) {
      forall x | 0 <= x < |evs| ensures !IsRetry(evs[x].act) { assert x == 0 || evs[x] == evs[1..][x - 1]; }
    }
  }

  // When send_file returns, with or without an error, no handler and no write of
  // this upload is at work on any server.
  lemma SendIsQuiet(c: Config, w: World, evs: seq<Event>)
    requires c.N() > 0 && Ready(c, w) && w.active == {} && w.log == multiset{}
    requires Run(c, Init(c, w), evs).Some? && AllGone(Run(c, Init(c, w), evs).value)
    ensures Run(c, Init(c, w), evs).value.w.active == {}
  {
    var s := Run(c, Init(c, w), evs).value;
    InvInit(c, w);
    TraceInit(c, w, true);
    InvRun(c, Init(c, w), evs);
    TraceRun(c, Init(c, w), evs, true);
    if s.w.active != {} {
      var x :| x in s.w.active;
      NobodyAtWork(c, s, x.0, x.1, Faults.NoRetry(evs));
    }
  }

  lemma NobodyAtWork(c: Config, s: State, a: Addr, o: nat, once: bool)
    requires c.N() > 0 && TraceOk(c, s, once) && OnlyTargets(c, s.w) && AllGone(s)
    ensures (a, o) !in s.w.active
  {
    forall j: nat { RootCoversAll(c.shape, j); }
    if IsChunk(c.src, c.chunk, o) { assert !Held(s, o) && Quiet(c, s.w, 0, o); }
  }

  // After a success every target has been asked for every chunk, and nobody for
  // anything else. In a run that repeats no request, each at most once.
  lemma ExactlyOnce(c: Config, w: World, evs: seq<Event>, a: Addr, off: nat)
    requires c.N() > 0 && c.workers > 0 && Ready(c, w) && w.active == {} && w.log == multiset{}
    requires Run(c, Init(c, w), evs).Some? && AllGone(Run(c, Init(c, w), evs).value)
    ensures var s := Run(c, Init(c, w), evs).value;
            var due := a in c.targets && IsChunk(c.src, c.chunk, off);
            && (!due ==> s.w.log[(a, off)] == 0)
            && (due && s.error == 0 ==> s.w.log[(a, off)] >= 1)
            && (Faults.NoRetry(evs) ==> s.w.log[(a, off)] <= 1)
  {
    var s := Run(c, Init(c, w), evs).value;
    InvInit(c, w);
    TraceInit(c, w, true);
    InvRun(c, Init(c, w), evs);
    TraceRun(c, Init(c, w), evs, true);
    if a in c.targets && IsChunk(c.src, c.chunk, off) {
      var i :| 0 <= i < c.N() && c.targets[i] == a;
      AskedInTheEnd(c, s, i, off, Faults.NoRetry(evs));
    } else {
      assert (a, off) !in s.w.log;
    }
  }

  lemma AskedInTheEnd(c: Config, s: State, i: nat, off: nat, once: bool)
    requires c.workers > 0 && Inv(c, s) && TraceOk(c, s, once) && AllGone(s)
    requires i < c.N() && IsChunk(c.src, c.chunk, off)
    ensures once ==> s.w.log[(c.targets[i], off)] <= 1
    ensures s.error == 0 ==> s.w.log[(c.targets[i], off)] >= 1
  {
    RootCoversAll(c.shape, i);
    assert WorkerOk(c, s, s.workers[0]);
    assert !Held(s, off);
  }
}
