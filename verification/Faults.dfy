// When send_file returns 0: the hop budget, and the exact effect of faults.

module Faults {
  import opened Structures
  import opened Disk
  import opened Topology
  import opened Relay
  import opened SendPhase
  import opened Progress

  /******* The hop budget *******/

  // A request that has used up Depth(i) hops may still be forwarded by target i.
  ghost predicate HopFits(c: Config, i: nat) {
    c.Kids(i) != [] ==> U16(c.N()) >= Depth(c.shape, i) + 2
  }

  ghost predicate HopsSuffice(c: Config) {
    forall i :: 0 <= i < c.N() ==> HopFits(c, i)
  }

  // The last target is the deepest, so the budget must cover it.
  lemma LastNeeds(c: Config)
    requires c.N() > 1 && HopsSuffice(c)
    ensures U16(c.N()) >= Depth(c.shape, c.N() - 1) + 1
  {
    var p := Parent(c.shape, c.N() - 1);
    ChildrenArePreimage(c.shape, c.N(), p);
    assert c.Kids(p) != [] && HopFits(c, p);
  }

  lemma LastSuffices(c: Config)
    requires c.N() > 1 && U16(c.N()) >= Depth(c.shape, c.N() - 1) + 1
    ensures HopsSuffice(c)
  {
    forall i | 0 <= i < c.N() ensures HopFits(c, i) {
      if c.Kids(i) != [] {
        KidDepth(c, i, 0);
        DepthMonotone(c.shape, c.Kids(i)[0], c.N() - 1);
      }
    }
  }

  // What the client grants is n modulo 65536. It suffices exactly when it covers
  // the last target: for every n up to 65535, for no longer chain, and for some larger
  // trees but not all.
  lemma HopBudget(c: Config)
    ensures HopsSuffice(c) <==> c.N() <= 1 || U16(c.N()) >= Depth(c.shape, c.N() - 1) + 1
    ensures c.N() <= 0xFFFF ==> HopsSuffice(c)
    ensures c.shape == Chain ==> (HopsSuffice(c) <==> c.N() <= 0xFFFF)
  {
    if c.N() > 1 {
      DepthMonotone(c.shape, 0, c.N() - 1);
      DepthIs(c.shape, c.N() - 1);
      if HopsSuffice(c) { LastNeeds(c); }
      if U16(c.N()) >= Depth(c.shape, c.N() - 1) + 1 { LastSuffices(c); }
    }
  }

  // A tree of 65536 fails, and one of 65600 does not.
  lemma HopBudgetOfTrees(c: Config)
    requires c.shape == Tree
    ensures c.N() == 0x1_0000 ==> !HopsSuffice(c)
    ensures c.N() == 0x1_0040 ==> HopsSuffice(c)
  {
    HopBudget(c);
    assert Depth(Tree, 127) == 7 by { assert Depth(Tree, 15) == 4; }
    assert Depth(Tree, 511) == 9 by { assert Depth(Tree, 255) == 8; }
    assert Depth(Tree, 2049) == 11 by { assert Depth(Tree, 1024) == 10; }
    assert Depth(Tree, 16399) == 14 by { assert Depth(Tree, 4099) == 12 && Depth(Tree, 8199) == 13; }
    assert Depth(Tree, 0x1_003F) == 16 by { assert Depth(Tree, 32799) == 15; }
  }

  // Every request carries what is left of the budget, nothing wraps below zero,
  // and a zero reply shows that the budget sufficed in the whole subtree.
  ghost predicate HopOk(c: Config, i: nat, call: Call)
    requires i < c.N()
    decreases call
  {
    && call.hops + Depth(c.shape, i) == U16(c.N())
    && match call.st
       case Sent => true
       case Answered(err) => err == 0 ==> FitsUnder(c, i)
       case Replied(err) => err == 0 ==> FitsUnder(c, i)
       case Running(_, kids) =>
         HopFits(c, i) && |kids| == |c.Kids(i)| && forall a :: 0 <= a < |kids| ==> HopOk(c, c.Kids(i)[a], kids[a])
  }

  ghost predicate FitsUnder(c: Config, i: nat) {
    forall j :: 0 <= j < c.N() && Under(c.shape, i, j) ==> HopFits(c, j)
  }

  lemma {:induction false} HopStep(c: Config, w: World, i: nat, off: nat, call: Call, ev: CallEvent)
    requires Ready(c, w) && i < c.N() && IsChunk(c.src, c.chunk, off)
    requires CallOk(c, w, i, off, call) && HopOk(c, i, call)
    requires CallStep(c.retries, w, call, ev).Some?
    ensures HopOk(c, i, CallStep(c.retries, w, call, ev).value.1)
    decreases call
  {
    match ev
    case Deliver => HopForward(c, w, i, call);
    case InKid(a, kev) =>
      HopStep(c, w, c.Kids(i)[a], off, call.st.kids[a], kev);
      HopKid(c, w, i, call, a, kev);
    case Join =>
      JoinIsSound(c, w, i, off, call);
      if CallStep(c.retries, w, call, ev).value.1.st.err == 0 { HopJoin(c, i, call); }
    case _ => HopOther(c, w, i, call, ev);
  }

  lemma HopKid(c: Config, w: World, i: nat, call: Call, a: nat, kev: CallEvent)
    requires i < c.N() && HopOk(c, i, call) && CallStep(c.retries, w, call, InKid(a, kev)).Some?
    requires HopOk(c, c.Kids(i)[a], CallStep(c.retries, w, call.st.kids[a], kev).value.1)
    ensures HopOk(c, i, CallStep(c.retries, w, call, InKid(a, kev)).value.1)
  {
  }

  lemma HopOther(c: Config, w: World, i: nat, call: Call, ev: CallEvent)
    requires i < c.N() && HopOk(c, i, call) && CallStep(c.retries, w, call, ev).Some?
    requires !ev.Deliver? && !ev.InKid? && !ev.Join?
    ensures HopOk(c, i, CallStep(c.retries, w, call, ev).value.1)
  {
    if ev.Drop? || ev.ReplyLost? { assert CallStep(c.retries, w, call, ev).value.1.st.err != 0; }
  }

  lemma HopForward(c: Config, w: World, i: nat, call: Call)
    requires Ready(c, w) && i < c.N() && call.to == c.targets[i] && call.token == c.Token(i)
    requires call.st.Sent? && HopOk(c, i, call)
    ensures CallStep(c.retries, w, call, Deliver).Some?
    ensures var (w', call') := CallStep(c.retries, w, call, Deliver).value;
            HopOk(c, i, call') && (HopFits(c, i) ==> call'.st.Running?)
  {
    var (w', call') := CallStep(c.retries, w, call, Deliver).value;
    assert |c.Links(i)| == |c.Kids(i)|;
    if call'.st.Running? {
      assert HopFits(c, i);
      forall a | 0 <= a < |c.Kids(i)| ensures HopOk(c, c.Kids(i)[a], call'.st.kids[a]) {
        assert call'.st.kids[a] == Forward(call, c.Links(i)[a], c.retries);
        KidDepth(c, i, a);
        OneHopLess(call.hops);
      }
    }
  }

  lemma KidDepth(c: Config, i: nat, a: nat)
    requires a < |c.Kids(i)|
    ensures Depth(c.shape, c.Kids(i)[a]) == Depth(c.shape, i) + 1
  {
    ChildrenArePreimage(c.shape, c.N(), i);
  }

  lemma OneHopLess(hops: nat)
    requires 2 <= hops < 0x1_0000
    ensures U16(hops - 1) == hops - 1
  {
  }

  lemma HopJoin(c: Config, i: nat, call: Call)
    requires i < c.N() && HopOk(c, i, call) && call.st.Running? && AllReplied(call.st.kids)
    requires forall a :: 0 <= a < |call.st.kids| ==> call.st.kids[a].st.err == 0
    ensures FitsUnder(c, i)
  {
    forall j | 0 <= j < c.N() && Under(c.shape, i, j) ensures HopFits(c, j) {
      UnderSplits(c.shape, c.N(), i, j);
      if j != i {
        var a :| 0 <= a < |c.Kids(i)| && Under(c.shape, c.Kids(i)[a], j);
        assert HopOk(c, c.Kids(i)[a], call.st.kids[a]);
      }
    }
  }

  /******* Faults *******/

  // Some error is already on its way up.
  ghost predicate Doomed(call: Call)
    decreases call
  {
    match call.st
    case Sent => false
    case Answered(err) => err != 0
    case Replied(err) => err != 0
    case Running(written, kids) =>
      (written.Some? && written.value != 0) || AnyDoomed(kids)
  }

  ghost predicate AnyDoomed(kids: seq<Call>)
    decreases kids
  {
    exists a :: 0 <= a < |kids| && Doomed(kids[a])
  }

  lemma {:induction false} DoomedStep(c: Config, w: World, i: nat, off: nat, call: Call, ev: CallEvent)
    requires Ready(c, w) && i < c.N() && IsChunk(c.src, c.chunk, off)
    requires CallOk(c, w, i, off, call) && HopOk(c, i, call) && HopsSuffice(c)
    requires CallStep(c.retries, w, call, ev).Some? && !CallRetry(ev)
    ensures Doomed(CallStep(c.retries, w, call, ev).value.1) <==> Doomed(call) || CallFault(ev)
    decreases call
  {
    match ev
    case Deliver => DeliveredIsClean(c, w, i, call);
    case InKid(a, kev) =>
      DoomedStep(c, w, c.Kids(i)[a], off, call.st.kids[a], kev);
      DoomedKid(call.st.kids, a, CallStep(c.retries, w, call.st.kids[a], kev).value.1);
    case Join => JoinDoom(c, w, i, off, call);
    case _ => DoomedOther(c, w, call, ev);
  }

  lemma DoomedOther(c: Config, w: World, call: Call, ev: CallEvent)
    requires CallStep(c.retries, w, call, ev).Some? && !CallRetry(ev) && !ev.Deliver? && !ev.InKid? && !ev.Join?
    ensures Doomed(CallStep(c.retries, w, call, ev).value.1) <==> Doomed(call) || CallFault(ev)
  {
  }

  lemma DeliveredIsClean(c: Config, w: World, i: nat, call: Call)
    requires Ready(c, w) && i < c.N() && call.to == c.targets[i] && call.token == c.Token(i)
    requires call.st.Sent? && HopOk(c, i, call) && HopFits(c, i)
    ensures CallStep(c.retries, w, call, Deliver).Some? && !Doomed(CallStep(c.retries, w, call, Deliver).value.1)
  {
    HopForward(c, w, i, call);
    var kids := CallStep(c.retries, w, call, Deliver).value.1.st.kids;
    forall a | 0 <= a < |kids| ensures !Doomed(kids[a]) { assert kids[a].st == Sent; }
    assert !AnyDoomed(kids);
  }

  lemma JoinDoom(c: Config, w: World, i: nat, off: nat, call: Call)
    requires i < c.N() && IsChunk(c.src, c.chunk, off) && CallOk(c, w, i, off, call)
    requires CallStep(c.retries, w, call, Join).Some?
    ensures Doomed(CallStep(c.retries, w, call, Join).value.1) <==> Doomed(call)
  {
    JoinIsSound(c, w, i, off, call);
    assert AnyDoomed(call.st.kids) <==> exists a :: 0 <= a < |call.st.kids| && call.st.kids[a].st.err != 0 by {
      if a :| 0 <= a < |call.st.kids| && call.st.kids[a].st.err != 0 { assert Doomed(call.st.kids[a]); }
    }
  }

  lemma DoomedKid(kids: seq<Call>, a: nat, kid: Call)
    requires a < |kids| && (Doomed(kids[a]) ==> Doomed(kid))
    ensures AnyDoomed(kids[a := kid]) <==> AnyDoomed(kids) || Doomed(kid)
  {
    var u := kids[a := kid];
    if b :| 0 <= b < |kids| && Doomed(kids[b]) { assert Doomed(u[if b == a then a else b]); }
    if b :| 0 <= b < |kids| && Doomed(u[b]) { assert b == a || Doomed(kids[b]); }
    if Doomed(kid) { assert Doomed(u[a]); }
  }

  ghost predicate HopsOk(c: Config, s: State)
    requires c.N() > 0
  {
    && (forall k :: 0 <= k < |s.workers| && s.workers[k].Calling? ==> HopOk(c, 0, s.workers[k].call))
    && (forall off: nat :: IsChunk(c.src, c.chunk, off) && off < s.cursor ==>
       Held(s, off) || Failed(s) || HopsSuffice(c))
  }

  ghost predicate SomeDoomed(s: State) {
    Failed(s) || exists k :: 0 <= k < |s.workers| && s.workers[k].Calling? && Doomed(s.workers[k].call)
  }

  lemma HopsStep(c: Config, s: State, ev: Event)
    requires Inv(c, s) && HopsOk(c, s) && Step(c, s, ev).Some?
    ensures HopsOk(c, Step(c, s, ev).value)
  {
    var s', wk := Step(c, s, ev).value, s.workers[ev.k];
    assert WorkerOk(c, s, wk);
    if ev.act.InCall? { HopStep(c, s.w, 0, wk.off, wk.call, ev.act.ev); }
    forall off: nat | IsChunk(c.src, c.chunk, off) && off < s'.cursor
      ensures Held(s', off) || Failed(s') || HopsSuffice(c)
    {
      if Failed(s) { FailedStays(c, s, ev); }
      else if s.cursor <= off { NewChunkOk(c, s, ev, off); }
      else if Held(s, off) {
        HeldOtherwise(c, s, ev, off);
        if Holds(wk, off) { HopLetGo(c, s, ev, off); }
      }
    }
  }

  lemma HopLetGo(c: Config, s: State, ev: Event, off: nat)
    requires Inv(c, s) && HopsOk(c, s) && Step(c, s, ev).Some? && Holds(s.workers[ev.k], off)
    ensures Held(Step(c, s, ev).value, off) || Failed(Step(c, s, ev).value) || HopsSuffice(c)
  {
    var s' := Step(c, s, ev).value;
    if ev.act.ReadFail? || ev.act.Return? {
      assert s'.workers[ev.k].Leaving? || s'.workers[ev.k].Checking?;
      forall j: nat { RootCoversAll(c.shape, j); }
    } else {
      assert Holds(s'.workers[ev.k], off);
    }
  }

  lemma SomeDoomedStep(c: Config, s: State, ev: Event)
    requires Inv(c, s) && HopsOk(c, s) && HopsSuffice(c) && Step(c, s, ev).Some? && !IsRetry(ev.act)
    ensures SomeDoomed(Step(c, s, ev).value) <==> SomeDoomed(s) || IsFault(ev.act)
  {
    if ev.act.InCall? { CallDoom(c, s, ev); }
    if IsFault(ev.act) { FaultDooms(c, s, ev); } else if SomeDoomed(s) { DoomStays(c, s, ev); }
    if SomeDoomed(Step(c, s, ev).value) && !IsFault(ev.act) { DoomComesFromBefore(c, s, ev); }
  }

  lemma CallDoom(c: Config, s: State, ev: Event)
    requires Inv(c, s) && HopsOk(c, s) && HopsSuffice(c) && Step(c, s, ev).Some? && ev.act.InCall?
             && !CallRetry(ev.act.ev)
    ensures Step(c, s, ev).value.workers[ev.k].Calling?
    ensures Doomed(Step(c, s, ev).value.workers[ev.k].call) <==> Doomed(s.workers[ev.k].call) || CallFault(ev.act.ev)
  {
    var wk := s.workers[ev.k];
    assert WorkerOk(c, s, wk);
    DoomedStep(c, s.w, 0, wk.off, wk.call, ev.act.ev);
  }

  lemma FaultDooms(c: Config, s: State, ev: Event)
    requires c.N() > 0 && Step(c, s, ev).Some? && IsFault(ev.act)
    requires ev.act.InCall? ==>
               Step(c, s, ev).value.workers[ev.k].Calling? && Doomed(Step(c, s, ev).value.workers[ev.k].call)
    ensures SomeDoomed(Step(c, s, ev).value)
  {
    var wk' := Step(c, s, ev).value.workers[ev.k];
    assert (wk'.Calling? && Doomed(wk'.call)) || (wk'.Leaving? && wk'.err != 0) || Step(c, s, ev).value.error != 0;
  }

  lemma DoomStays(c: Config, s: State, ev: Event)
    requires c.N() > 0 && Step(c, s, ev).Some? && SomeDoomed(s)
    requires ev.act.InCall? ==> (Doomed(s.workers[ev.k].call) ==>
                                   Step(c, s, ev).value.workers[ev.k].Calling? &&
                                   Doomed(Step(c, s, ev).value.workers[ev.k].call))
    ensures SomeDoomed(Step(c, s, ev).value)
  {
    var s' := Step(c, s, ev).value;
    if Failed(s) {
      FailedStays(c, s, ev);
    } else {
      var k :| 0 <= k < |s.workers| && s.workers[k].Calling? && Doomed(s.workers[k].call);
      var wk' := s'.workers[k];
      assert (wk'.Calling? && Doomed(wk'.call)) || (wk'.Leaving? && wk'.err != 0);
    }
  }

  lemma DoomComesFromBefore(c: Config, s: State, ev: Event)
    requires c.N() > 0 && Step(c, s, ev).Some? && SomeDoomed(Step(c, s, ev).value) && !IsFault(ev.act)
    requires ev.act.InCall? ==> (Doomed(Step(c, s, ev).value.workers[ev.k].call) ==> Doomed(s.workers[ev.k].call))
    ensures SomeDoomed(s)
  {
    var s', wk := Step(c, s, ev).value, s.workers[ev.k];
    if s'.error == 0 {
      var k :| 0 <= k < |s'.workers| && ((s'.workers[k].Leaving? && s'.workers[k].err != 0) ||
                                         (s'.workers[k].Calling? && Doomed(s'.workers[k].call)));
      if k != ev.k { assert s.workers[k] == s'.workers[k]; }
      else if ev.act.Return? { assert Doomed(wk.call); }
    } else if s.error == 0 {
      assert wk.Leaving? && wk.err != 0;
    }
  }

  predicate AnyFault(evs: seq<Event>) { exists x :: 0 <= x < |evs| && IsFault(evs[x].act) }

  predicate NoRetry(evs: seq<Event>) { forall x :: 0 <= x < |evs| ==> !IsRetry(evs[x].act) }

  lemma {:induction false} FaultsRun(c: Config, s: State, evs: seq<Event>)
    requires Inv(c, s) && HopsOk(c, s) && Run(c, s, evs).Some?
    ensures HopsOk(c, Run(c, s, evs).value)
    ensures HopsSuffice(c) && NoRetry(evs) ==>
              (SomeDoomed(Run(c, s, evs).value) <==> SomeDoomed(s) || AnyFault(evs))
    decreases |evs|
  {
    if evs != [] {
      var s1, rest := Step(c, s, evs[0]).value, evs[1..];
      assert evs == [evs[0]] + rest;
      InvStep(c, s, evs[0]);
      HopsStep(c, s, evs[0]);
      FaultsRun(c, s1, rest);
      if HopsSuffice(c) && NoRetry(evs) {
        SomeDoomedStep(c, s, evs[0]);
        assert NoRetry(rest) by {
          forall x | 0 <= x < |rest| ensures !IsRetry(rest[x].act) { assert rest[x] == evs[x + 1]; }
        }
        assert AnyFault(evs) <==> IsFault(evs[0].act) || AnyFault(rest) by {
          if x :| 0 <= x < |rest| && IsFault(rest[x].act) { assert IsFault(evs[x + 1].act); }
          if x :| 0 <= x < |evs| && IsFault(evs[x].act) { assert x == 0 || IsFault(rest[x - 1].act); }
        }
      }
    }
  }

  // Where nothing is tried again, send_file returns 0 exactly when no allocation,
  // read, write, forward or reply failed anywhere, and the hop budget sufficed
  // (which nobody asks of an empty file).
  lemma ZeroIffNoFault(c: Config, w: World, evs: seq<Event>)
    requires c.N() > 0 && c.workers > 0 && Ready(c, w)
    requires Run(c, Init(c, w), evs).Some? && AllGone(Run(c, Init(c, w), evs).value)
    ensures c.src != [] && Run(c, Init(c, w), evs).value.error == 0 ==> HopsSuffice(c)
    ensures HopsSuffice(c) && NoRetry(evs) ==> (Run(c, Init(c, w), evs).value.error == 0 <==> !AnyFault(evs))
  {
    var s0, s := Init(c, w), Run(c, Init(c, w), evs).value;
    InvInit(c, w);
    InvRun(c, s0, evs);
    assert forall k :: 0 <= k < |s0.workers| ==> s0.workers[k] == Starting;
    FaultsRun(c, s0, evs);
    assert WorkerOk(c, s, s.workers[0]);
    if c.src != [] && s.error == 0 {
      assert Ready(c, s.w) && IsChunk(c.src, c.chunk, 0) && !Held(s, 0);
    }
  }
}
