// Which error the client gets to see.

module ErrorOrder {
  import opened Structures
  import opened Disk
  import opened Topology
  import opened Relay
  import opened SendPhase
  import opened Faults

  // The outcome of each target's own write of one chunk; 0 is success.
  type Outcomes = nat -> int

  // The outcomes in the subtree of i, children before their parent, as they read
  // after the 16-bit error field.
  function PostOrder(c: Config, out: Outcomes, i: nat): seq<int>
    requires i < c.N()
    decreases c.N() - i, |c.Kids(i)| + 1
  {
    PostOrderFrom(c, out, i, 0) + [Int16(out(i))]
  }

  function PostOrderFrom(c: Config, out: Outcomes, i: nat, a: nat): seq<int>
    requires i < c.N() && a <= |c.Kids(i)|
    decreases c.N() - i, |c.Kids(i)| - a
  {
    if a == |c.Kids(i)| then [] else PostOrder(c, out, c.Kids(i)[a]) + PostOrderFrom(c, out, i, a + 1)
  }

  // In a chain, the deepest target comes first.
  lemma {:induction false} ChainIsDeepestFirst(c: Config, out: Outcomes, i: nat, k: nat)
    requires c.shape == Chain && i < c.N() && k < c.N() - i
    ensures |PostOrder(c, out, i)| == c.N() - i && PostOrder(c, out, i)[k] == Int16(out(c.N() - 1 - k))
    decreases c.N() - i
  {
    if c.Kids(i) != [] {
      assert PostOrderFrom(c, out, i, 0) == PostOrder(c, out, i + 1) + PostOrderFrom(c, out, i, 1);
      assert PostOrderFrom(c, out, i, 1) == [];
      ChainIsDeepestFirst(c, out, i + 1, if k < c.N() - i - 1 then k else 0);
    }
  }

  lemma {:induction false} FirstOfConcat(a: seq<int>, b: seq<int>)
    ensures FirstNonzero(a + b) == if FirstNonzero(a) != 0 then FirstNonzero(a) else FirstNonzero(b)
    decreases |a|
  {
    if a == [] {
      assert a + b == b;
    } else {
      assert (a + b)[1..] == a[1..] + b;
      FirstOfConcat(a[1..], b);
    }
  }

  function Surface(c: Config, out: Outcomes, i: nat): int
    requires i < c.N()
  {
    FirstNonzero(PostOrder(c, out, i))
  }

  lemma {:induction false} FirstOfKids(c: Config, out: Outcomes, i: nat, errs: seq<int>, a: nat)
    requires i < c.N() && a <= |c.Kids(i)| == |errs|
    requires forall b :: 0 <= b < |errs| ==> errs[b] == Surface(c, out, c.Kids(i)[b])
    ensures FirstNonzero(errs[a..]) == FirstNonzero(PostOrderFrom(c, out, i, a))
    decreases |errs| - a
  {
    if a < |errs| {
      FirstOfKids(c, out, i, errs, a + 1);
      FirstOfConcat(PostOrder(c, out, c.Kids(i)[a]), PostOrderFrom(c, out, i, a + 1));
      assert errs[a..][1..] == errs[a + 1..];
    }
  }

  // The join rule of one handler computes the post-order rule of its subtree.
  lemma JoinSurfaces(c: Config, out: Outcomes, i: nat, errs: seq<int>)
    requires i < c.N() && |errs| == |c.Kids(i)|
    requires forall b :: 0 <= b < |errs| ==> errs[b] == Surface(c, out, c.Kids(i)[b]) && Int16(errs[b]) == errs[b]
    ensures Int16(FirstNonzero(errs + [out(i)])) == Surface(c, out, i)
  {
    FirstOfKids(c, out, i, errs, 0);
    assert errs[0..] == errs;
    FirstOfConcat(errs, [out(i)]);
    FirstOfConcat(PostOrderFrom(c, out, i, 0), [Int16(out(i))]);
    if FirstNonzero(errs) != 0 {
      var b :| 0 <= b < |errs| && errs[b] == FirstNonzero(errs);
    }
  }

  lemma {:induction false} ZeroIffAllZero(c: Config, out: Outcomes, i: nat)
    requires i < c.N()
    ensures Surface(c, out, i) == 0 <==> forall j :: 0 <= j < c.N() && Under(c.shape, i, j) ==> Int16(out(j)) == 0
    decreases c.N() - i, |c.Kids(i)| + 1
  {
    FirstOfConcat(PostOrderFrom(c, out, i, 0), [Int16(out(i))]);
    KidsZeroIffAllZero(c, out, i, 0);
    assert Under(c.shape, i, i);
    forall j | 0 <= j < c.N() { UnderSplits(c.shape, c.N(), i, j); }
    if Surface(c, out, i) == 0 {
      forall j | 0 <= j < c.N() && Under(c.shape, i, j) ensures Int16(out(j)) == 0 {
        if j != i { var a :| 0 <= a < |c.Kids(i)| && Under(c.shape, c.Kids(i)[a], j); }
      }
    }
    if forall j :: 0 <= j < c.N() && Under(c.shape, i, j) ==> Int16(out(j)) == 0 {
      forall a, j | 0 <= a < |c.Kids(i)| && 0 <= j < c.N() && Under(c.shape, c.Kids(i)[a], j)
        ensures Int16(out(j)) == 0
      {
        assert Under(c.shape, i, j);
      }
    }
  }

  lemma {:induction false} KidsZeroIffAllZero(c: Config, out: Outcomes, i: nat, a: nat)
    requires i < c.N() && a <= |c.Kids(i)|
    ensures FirstNonzero(PostOrderFrom(c, out, i, a)) == 0 <==>
            forall b, j :: a <= b < |c.Kids(i)| && 0 <= j < c.N() && Under(c.shape, c.Kids(i)[b], j) ==>
                Int16(out(j)) == 0
    decreases c.N() - i, |c.Kids(i)| - a
  {
    if a < |c.Kids(i)| {
      FirstOfConcat(PostOrder(c, out, c.Kids(i)[a]), PostOrderFrom(c, out, i, a + 1));
      ZeroIffAllZero(c, out, c.Kids(i)[a]);
      KidsZeroIffAllZero(c, out, i, a + 1);
    }
  }

  // Transport works, and every write ends as out says.
  predicate Follows(c: Config, out: Outcomes, i: nat, ev: CallEvent)
    decreases ev
  {
    match ev
    case Drop(_) => false
    case ReplyLost(_) => false
    case WriteOk => out(i) == 0
    case WriteFail(e, _) => out(i) == e
    case InKid(a, kev) => a < |c.Kids(i)| && Follows(c, out, c.Kids(i)[a], kev)
    case _ => true
  }

  ghost predicate Surfaces(c: Config, out: Outcomes, i: nat, call: Call)
    requires i < c.N()
    decreases call
  {
    match call.st
    case Sent => true
    case Answered(err) => err == Surface(c, out, i) && Int16(err) == err
    case Replied(err) => err == Surface(c, out, i) && Int16(err) == err
    case Running(written, kids) =>
      && (written.Some? ==> written.value == out(i))
      && |kids| == |c.Kids(i)| && forall a :: 0 <= a < |kids| ==> Surfaces(c, out, c.Kids(i)[a], kids[a])
  }

  lemma {:induction false} SurfacesStep(c: Config, w: World, out: Outcomes, i: nat, off: nat, call: Call, ev: CallEvent)
    requires Ready(c, w) && i < c.N() && IsChunk(c.src, c.chunk, off) && HopsSuffice(c)
    requires CallOk(c, w, i, off, call) && HopOk(c, i, call) && Surfaces(c, out, i, call)
    requires CallStep(c.retries, w, call, ev).Some? && Follows(c, out, i, ev)
    ensures Surfaces(c, out, i, CallStep(c.retries, w, call, ev).value.1)
    decreases call
  {
    var (_, call') := CallStep(c.retries, w, call, ev).value;
    match ev
    case Deliver =>
      assert HopFits(c, i);
      HopForward(c, w, i, call);
      forall a | 0 <= a < |c.Kids(i)| ensures Surfaces(c, out, c.Kids(i)[a], call'.st.kids[a]) {
        assert call'.st.kids[a].st == Sent;
      }
    case InKid(a, kev) => SurfacesStep(c, w, out, c.Kids(i)[a], off, call.st.kids[a], kev);
    case Join =>
      forall a | 0 <= a < |c.Kids(i)| ensures Surfaces(c, out, c.Kids(i)[a], call.st.kids[a]) {}
      JoinSurfaces(c, out, i, Errors(call.st.kids));
      Int16Idempotent(FirstNonzero(Errors(call.st.kids) + [call.st.written.value]));
    case _ =>
  }

  /******* Over the whole send phase *******/

  predicate EventFollows(c: Config, out: nat -> Outcomes, s: State, ev: Event)
    requires c.N() > 0
  {
    ev.act.InCall? && ev.k < |s.workers| && s.workers[ev.k].Calling? ==>
      Follows(c, out(s.workers[ev.k].off), 0, ev.act.ev)
  }

  predicate RunFollows(c: Config, out: nat -> Outcomes, s: State, evs: seq<Event>)
    requires c.N() > 0
    decreases |evs|
  {
    evs != [] && Step(c, s, evs[0]).Some? ==>
      EventFollows(c, out, s, evs[0]) && RunFollows(c, out, Step(c, s, evs[0]).value, evs[1..])
  }

  ghost predicate AllSurface(c: Config, out: nat -> Outcomes, s: State)
    requires c.N() > 0
  {
    forall k :: 0 <= k < |s.workers| && s.workers[k].Calling? ==>
        Surfaces(c, out(s.workers[k].off), 0, s.workers[k].call)
  }

  lemma AllSurfaceStep(c: Config, out: nat -> Outcomes, s: State, ev: Event)
    requires Inv(c, s) && HopsOk(c, s) && HopsSuffice(c) && AllSurface(c, out, s)
    requires Step(c, s, ev).Some? && EventFollows(c, out, s, ev)
    ensures AllSurface(c, out, Step(c, s, ev).value)
  {
    var wk := s.workers[ev.k];
    assert WorkerOk(c, s, wk);
    if ev.act.InCall? { SurfacesStep(c, s.w, out(wk.off), 0, wk.off, wk.call, ev.act.ev); }
  }

  lemma {:induction false} AllSurfaceRun(c: Config, out: nat -> Outcomes, s: State, evs: seq<Event>)
    requires Inv(c, s) && HopsOk(c, s) && HopsSuffice(c) && AllSurface(c, out, s)
    requires Run(c, s, evs).Some? && RunFollows(c, out, s, evs)
    ensures AllSurface(c, out, Run(c, s, evs).value)
    decreases |evs|
  {
    if evs != [] {
      InvStep(c, s, evs[0]);
      HopsStep(c, s, evs[0]);
      AllSurfaceStep(c, out, s, evs[0]);
      AllSurfaceRun(c, out, Step(c, s, evs[0]).value, evs[1..]);
    }
  }

  // In every run in which only writes fail, what a worker gets for its chunk is
  // the first failure in post order, and 0 only if every write succeeded.
  lemma FirstErrorInPostOrder(c: Config, out: nat -> Outcomes, w: World, evs: seq<Event>, k: nat)
    requires c.N() > 0 && Ready(c, w) && HopsSuffice(c)
    requires Run(c, Init(c, w), evs).Some? && RunFollows(c, out, Init(c, w), evs)
    requires var s := Run(c, Init(c, w), evs).value;
             k < |s.workers| && s.workers[k].Calling? && s.workers[k].call.st.Replied?
    ensures var wk := Run(c, Init(c, w), evs).value.workers[k];
            && wk.call.st.err == FirstNonzero(PostOrder(c, out(wk.off), 0))
            && (wk.call.st.err == 0 <==> forall j :: 0 <= j < c.N() ==> Int16(out(wk.off)(j)) == 0)
  {
    var s0 := Init(c, w);
    InvInit(c, w);
    assert forall x :: 0 <= x < |s0.workers| ==> s0.workers[x] == Starting;
    AllSurfaceRun(c, out, s0, evs);
    ZeroIffAllZero(c, out(Run(c, s0, evs).value.workers[k].off), 0);
    forall j: nat { RootCoversAll(c.shape, j); }
  }
}
