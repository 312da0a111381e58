// The send phase always comes to an end, and is never stuck before it.

module Progress {
  import opened Disk
  import opened Relay
  import opened SendPhase

  /******* The work a request may still cause *******/

  function SentCost(c: Config, i: nat, left: nat): nat
    requires i < c.N()
    decreases c.N() - i, left, |c.Kids(i)| + 1
  {
    4 + KidsCost(c, i, 0) + AnsweredCost(c, i, left)
  }

  function AnsweredCost(c: Config, i: nat, left: nat): nat
    requires i < c.N()
    decreases c.N() - i, left, 0
  {
    1 + if left > 0 then 1 + SentCost(c, i, left - 1) else 0
  }

  function KidsCost(c: Config, i: nat, a: nat): nat
    requires i < c.N() && a <= |c.Kids(i)|
    decreases c.N() - i, 0, |c.Kids(i)| - a
  {
    if a == |c.Kids(i)| then 0 else SentCost(c, c.Kids(i)[a], c.retries) + KidsCost(c, i, a + 1)
  }

  function CallCost(c: Config, i: nat, call: Call): nat
    requires i < c.N()
    decreases call, 0
  {
    match call.st
    case Sent => SentCost(c, i, call.left)
    case Running(written, kids) =>
      (if written.None? then 1 else 0) + SumCost(c, i, kids, 0) + 1 + AnsweredCost(c, i, call.left)
    case Answered(_) => AnsweredCost(c, i, call.left)
    case Replied(_) => 0
  }

  function SumCost(c: Config, i: nat, kids: seq<Call>, a: nat): nat
    requires i < c.N() && a <= |kids|
    decreases kids, |kids| - a
  {
    if a == |kids| then 0
    else (if a < |c.Kids(i)| then CallCost(c, c.Kids(i)[a], kids[a]) else 0) + SumCost(c, i, kids, a + 1)
  }

  lemma {:induction false} SumCostUpdate(c: Config, i: nat, kids: seq<Call>, b: nat, kid: Call, a: nat)
    requires i < c.N() && a <= |kids| == |c.Kids(i)| && b < |kids|
    ensures SumCost(c, i, kids[b := kid], a) ==
            if b < a then SumCost(c, i, kids, a)
            else SumCost(c, i, kids, a) - CallCost(c, c.Kids(i)[b], kids[b]) + CallCost(c, c.Kids(i)[b], kid)
    decreases |kids| - a
  {
    if a < |kids| { SumCostUpdate(c, i, kids, b, kid, a + 1); }
  }

  lemma {:induction false} SumCostFresh(c: Config, i: nat, kids: seq<Call>, a: nat)
    requires i < c.N() && a <= |kids| == |c.Kids(i)|
    requires forall b :: 0 <= b < |kids| ==> kids[b].st.Sent? && kids[b].left == c.retries
    ensures SumCost(c, i, kids, a) == KidsCost(c, i, a)
    decreases |kids| - a
  {
    if a < |kids| { SumCostFresh(c, i, kids, a + 1); }
  }

  lemma {:induction false} CallCostDrops(c: Config, w: World, i: nat, off: nat, call: Call, ev: CallEvent)
    requires Ready(c, w) && i < c.N() && IsChunk(c.src, c.chunk, off) && CallOk(c, w, i, off, call)
    requires CallStep(c.retries, w, call, ev).Some?
    ensures CallCost(c, i, CallStep(c.retries, w, call, ev).value.1) < CallCost(c, i, call)
    decreases call
  {
    match ev
    case Deliver => DeliverCost(c, w, i, off, call);
    case InKid(a, kev) =>
      CallCostDrops(c, w, c.Kids(i)[a], off, call.st.kids[a], kev);
      SumCostUpdate(c, i, call.st.kids, a, CallStep(c.retries, w, call.st.kids[a], kev).value.1, 0);
    case _ => OtherCost(c, w, i, call, ev);
  }

  lemma DeliverCost(c: Config, w: World, i: nat, off: nat, call: Call)
    requires Ready(c, w) && i < c.N() && IsChunk(c.src, c.chunk, off) && CallOk(c, w, i, off, call)
    requires CallStep(c.retries, w, call, Deliver).Some?
    ensures CallCost(c, i, CallStep(c.retries, w, call, Deliver).value.1) < CallCost(c, i, call)
  {
    var (_, call') := CallStep(c.retries, w, call, Deliver).value;
    if call'.st.Running? { SumCostFresh(c, i, call'.st.kids, 0); }
  }

  lemma OtherCost(c: Config, w: World, i: nat, call: Call, ev: CallEvent)
    requires i < c.N() && !ev.Deliver? && !ev.InKid? && CallStep(c.retries, w, call, ev).Some?
    ensures CallCost(c, i, CallStep(c.retries, w, call, ev).value.1) < CallCost(c, i, call)
  {
    match ev
    case Resend => RetryCost(c, i, call.left);
    case Redo => RetryCost(c, i, call.left);
    case _ =>
  }

  lemma RetryCost(c: Config, i: nat, left: nat)
    requires i < c.N() && left > 0
    ensures SentCost(c, i, left - 1) < AnsweredCost(c, i, left) < SentCost(c, i, left)
  {
  }

  function WorkerCost(c: Config, wk: Worker): nat
    requires c.N() > 0
  {
    match wk
    case Starting => 5
    case Checking => 4
    case Claiming => 3
    case Reading(_) => 6 + SentCost(c, 0, c.retries)
    case Calling(_, call) => 5 + CallCost(c, 0, call)
    case Leaving(_) => 1
    case Gone => 0
  }

  function WorkersCost(c: Config, workers: seq<Worker>): nat
    requires c.N() > 0
  {
    if workers == [] then 0 else WorkerCost(c, workers[0]) + WorkersCost(c, workers[1..])
  }

  function UnclaimedCost(c: Config, cursor: nat): nat
    requires c.N() > 0 && c.chunk > 0
    decreases |c.src| - cursor
  {
    if cursor >= |c.src| then 0 else 4 + SentCost(c, 0, c.retries) + UnclaimedCost(c, cursor + c.chunk)
  }

  function Rank(c: Config, s: State): nat
    requires c.N() > 0 && c.chunk > 0
  {
    UnclaimedCost(c, s.cursor) + WorkersCost(c, s.workers)
  }

  lemma {:induction false} WorkersCostUpdate(c: Config, workers: seq<Worker>, k: nat, wk: Worker)
    requires c.N() > 0 && k < |workers|
    ensures WorkersCost(c, workers[k := wk]) == WorkersCost(c, workers) - WorkerCost(c, workers[k]) + WorkerCost(c, wk)
    decreases |workers|
  {
    if k == 0 {
      assert workers[k := wk][1..] == workers[1..];
    } else {
      assert workers[k := wk][1..] == workers[1..][k - 1 := wk];
      WorkersCostUpdate(c, workers[1..], k - 1, wk);
    }
  }

  lemma RankDrops(c: Config, s: State, ev: Event)
    requires Inv(c, s) && Step(c, s, ev).Some?
    ensures Rank(c, Step(c, s, ev).value) < Rank(c, s)
  {
    var s' := Step(c, s, ev).value;
    assert s'.workers == s.workers[ev.k := s'.workers[ev.k]];
    WorkersCostUpdate(c, s.workers, ev.k, s'.workers[ev.k]);
    if ev.act.InCall? { CallWorkerCost(c, s, ev); } else { OtherWorkerCost(c, s, ev); }
  }

  lemma OtherWorkerCost(c: Config, s: State, ev: Event)
    requires c.N() > 0 && c.chunk > 0 && Step(c, s, ev).Some? && !ev.act.InCall?
    ensures var s' := Step(c, s, ev).value;
            UnclaimedCost(c, s'.cursor) + WorkerCost(c, s'.workers[ev.k]) <
            UnclaimedCost(c, s.cursor) + WorkerCost(c, s.workers[ev.k])
  {
  }

  lemma CallWorkerCost(c: Config, s: State, ev: Event)
    requires Inv(c, s) && Step(c, s, ev).Some? && ev.act.InCall?
    ensures Step(c, s, ev).value.cursor == s.cursor
    ensures WorkerCost(c, Step(c, s, ev).value.workers[ev.k]) < WorkerCost(c, s.workers[ev.k])
  {
    var wk := s.workers[ev.k];
    assert WorkerOk(c, s, wk);
    CallCostDrops(c, s.w, 0, wk.off, wk.call, ev.act.ev);
  }

  // No schedule is longer than the rank of where it starts.
  lemma {:induction false} EveryRunEnds(c: Config, s: State, evs: seq<Event>)
    requires Inv(c, s) && Run(c, s, evs).Some?
    ensures |evs| + Rank(c, Run(c, s, evs).value) <= Rank(c, s)
    decreases |evs|
  {
    if evs != [] {
      RankDrops(c, s, evs[0]);
      InvStep(c, s, evs[0]);
      EveryRunEnds(c, Step(c, s, evs[0]).value, evs[1..]);
    }
  }

  /******* Something can always happen *******/

  predicate CallFault(ev: CallEvent) {
    match ev
    case Drop(_) => true
    case WriteFail(_, _) => true
    case ReplyLost(_) => true
    case InKid(_, kev) => CallFault(kev)
    case _ => false
  }

  predicate CallRetry(ev: CallEvent) {
    match ev
    case Resend => true
    case Redo => true
    case InKid(_, kev) => CallRetry(kev)
    case _ => false
  }

  predicate IsFault(act: Action) {
    act.AllocFail? || act.ReadFail? || (act.InCall? && CallFault(act.ev))
  }

  predicate IsRetry(act: Action) { act.InCall? && CallRetry(act.ev) }

  predicate Smooth(evs: seq<Event>) {
    forall x :: 0 <= x < |evs| ==> !IsFault(evs[x].act) && !IsRetry(evs[x].act)
  }

  lemma {:induction false} CallCanGoOn(c: Config, w: World, i: nat, off: nat, call: Call) returns (ev: CallEvent)
    requires Ready(c, w) && i < c.N() && IsChunk(c.src, c.chunk, off) && CallOk(c, w, i, off, call)
    requires !call.st.Replied?
    ensures CallStep(c.retries, w, call, ev).Some? && !CallFault(ev) && !CallRetry(ev)
    decreases call
  {
    match call.st
    case Sent => ev := Deliver;
    case Answered(_) => ev := Reply;
    case Running(written, kids) =>
      if written.None? {
        ev := WriteOk;
      } else if a :| 0 <= a < |kids| && !kids[a].st.Replied? {
        var kev := CallCanGoOn(c, w, c.Kids(i)[a], off, kids[a]);
        ev := InKid(a, kev);
      } else {
        ev := Join;
      }
  }

  lemma CanGoOn(c: Config, s: State) returns (ev: Event)
    requires Inv(c, s) && !AllGone(s)
    ensures Step(c, s, ev).Some? && !IsFault(ev.act) && !IsRetry(ev.act)
  {
    var k :| 0 <= k < |s.workers| && !s.workers[k].Gone?;
    var wk := s.workers[k];
    assert WorkerOk(c, s, wk);
    match wk
    case Starting => ev := Event(k, Alloc);
    case Checking => ev := Event(k, Check);
    case Claiming => ev := Event(k, Claim);
    case Reading(_) => ev := Event(k, ReadOk);
    case Leaving(_) => ev := Event(k, Leave);
    case Calling(off, call) =>
      if call.st.Replied? {
        ev := Event(k, Return);
      } else {
        var cev := CallCanGoOn(c, s.w, 0, off, call);
        ev := Event(k, InCall(cev));
      }
  }

  // From wherever a run has got to, it can be brought to its end without a fault.
  lemma {:induction false} CanFinish(c: Config, s: State) returns (evs: seq<Event>)
    requires Inv(c, s)
    ensures Run(c, s, evs).Some? && AllGone(Run(c, s, evs).value) && Smooth(evs)
    decreases Rank(c, s)
  {
    if AllGone(s) {
      evs := [];
    } else {
      var ev := CanGoOn(c, s);
      InvStep(c, s, ev);
      RankDrops(c, s, ev);
      var rest := CanFinish(c, Step(c, s, ev).value);
      evs := [ev] + rest;
      assert evs[1..] == rest;
    }
  }
}
