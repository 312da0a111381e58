// Which error send_file returns: it is determined by the events alone.

module Returned {
  import opened Structures
  import opened Disk
  import opened Relay
  import opened SendPhase
  import opened Faults
  import ErrorOrder

  /******* One request *******/

  // What happened to child a since the request was last delivered.
  function KidEvents(evs: seq<CallEvent>, a: nat): seq<CallEvent> {
    if evs == [] then []
    else
      var pre := evs[..|evs| - 1];
      match evs[|evs| - 1]
      case Deliver => []
      case InKid(b, ev) => if a == b then KidEvents(pre, a) + [ev] else KidEvents(pre, a)
      case _ => KidEvents(pre, a)
  }

  // How the server's own write ended since then.
  function WriteError(evs: seq<CallEvent>): int {
    if evs == [] then 0
    else
      match evs[|evs| - 1]
      case Deliver => 0
      case WriteOk => 0
      case WriteFail(e, _) => e
      case _ => WriteError(evs[..|evs| - 1])
  }

  // What target i answers: it refuses to forward without hops; else the first error
  // of the children in their order, else that of its own write; 16 bits of it.
  ghost function Answer(c: Config, i: nat, evs: seq<CallEvent>): int
    requires i < c.N()
    decreases c.N() - i, 0
  {
    if !HopFits(c, i) then Int16(-ECANCELED) else Int16(FirstNonzero(KidVerdicts(c, i, evs) + [WriteError(evs)]))
  }

  ghost function KidVerdicts(c: Config, i: nat, evs: seq<CallEvent>): (r: seq<int>)
    requires i < c.N()
    ensures |r| == |c.Kids(i)|
    decreases c.N() - i, 0, 0
  {
    seq(|c.Kids(i)|, a requires 0 <= a < |c.Kids(i)| => Verdict(c, c.Kids(i)[a], KidEvents(evs, a)))
  }

  // What its caller gets: the transport's error if the last try was lost, and otherwise
  // the answer.
  ghost function Verdict(c: Config, i: nat, evs: seq<CallEvent>): int
    requires i < c.N()
    decreases c.N() - i, 1
  {
    if evs == [] then 0
    else
      match evs[|evs| - 1]
      case Drop(e) => e
      case ReplyLost(e) => e
      case _ => Answer(c, i, evs)
  }

  ghost predicate Judged(c: Config, i: nat, call: Call, evs: seq<CallEvent>)
    requires i < c.N()
    decreases call
  {
    match call.st
    case Sent => true
    case Answered(err) => err == Answer(c, i, evs)
    case Replied(err) => err == Verdict(c, i, evs)
    case Running(written, kids) =>
      && HopFits(c, i) && |kids| == |c.Kids(i)| && (written.Some? ==> written.value == WriteError(evs))
      && forall a :: 0 <= a < |kids| ==> Judged(c, c.Kids(i)[a], kids[a], KidEvents(evs, a))
  }

  // Whatever fails, is lost or is tried again, in whatever order.
  lemma {:induction false} VerdictStep(c: Config, w: World, i: nat, off: nat, call: Call, ev: CallEvent,
                                       evs: seq<CallEvent>)
    requires Ready(c, w) && i < c.N() && IsChunk(c.src, c.chunk, off)
    requires CallOk(c, w, i, off, call) && HopOk(c, i, call) && Judged(c, i, call, evs)
    requires CallStep(c.retries, w, call, ev).Some?
    ensures Judged(c, i, CallStep(c.retries, w, call, ev).value.1, evs + [ev])
    decreases call
  {
    assert (evs + [ev])[..|evs|] == evs;
    match ev
    case Deliver => DeliverVerdict(c, w, i, call, evs);
    case InKid(a, kev) =>
      VerdictStep(c, w, c.Kids(i)[a], off, call.st.kids[a], kev, KidEvents(evs, a));
      KidVerdict(c, w, i, call, a, kev, evs);
    case Join => JoinVerdict(c, w, i, call, evs);
    case _ => OtherVerdict(c, w, i, call, ev, evs);
  }

  lemma DeliverVerdict(c: Config, w: World, i: nat, call: Call, evs: seq<CallEvent>)
    requires Ready(c, w) && i < c.N() && call.to == c.targets[i] && call.token == c.Token(i)
    requires call.st.Sent? && HopOk(c, i, call)
    ensures CallStep(c.retries, w, call, Deliver).Some?
    ensures Judged(c, i, CallStep(c.retries, w, call, Deliver).value.1, evs + [Deliver])
  {
    var call' := CallStep(c.retries, w, call, Deliver).value.1;
    HopForward(c, w, i, call);
    if call'.st.Running? {
      forall a | 0 <= a < |c.Kids(i)| ensures Judged(c, c.Kids(i)[a], call'.st.kids[a], KidEvents(evs + [Deliver], a)) {
        assert call'.st.kids[a].st == Sent;
      }
    }
  }

  lemma KidVerdict(c: Config, w: World, i: nat, call: Call, a: nat, kev: CallEvent, evs: seq<CallEvent>)
    requires i < c.N() && Judged(c, i, call, evs) && CallStep(c.retries, w, call, InKid(a, kev)).Some?
    requires var kid := CallStep(c.retries, w, call.st.kids[a], kev).value.1;
             Judged(c, c.Kids(i)[a], kid, KidEvents(evs, a) + [kev])
    ensures Judged(c, i, CallStep(c.retries, w, call, InKid(a, kev)).value.1, evs + [InKid(a, kev)])
  {
    assert (evs + [InKid(a, kev)])[..|evs|] == evs;
  }

  lemma SameAnswer(c: Config, i: nat, ev: CallEvent, evs: seq<CallEvent>)
    requires i < c.N() && !ev.Deliver? && !ev.InKid? && !ev.WriteOk? && !ev.WriteFail?
    ensures Answer(c, i, evs + [ev]) == Answer(c, i, evs)
  {
    assert (evs + [ev])[..|evs|] == evs;
    assert KidVerdicts(c, i, evs + [ev]) == KidVerdicts(c, i, evs);
  }

  lemma JoinVerdict(c: Config, w: World, i: nat, call: Call, evs: seq<CallEvent>)
    requires i < c.N() && Judged(c, i, call, evs) && CallStep(c.retries, w, call, Join).Some?
    ensures Judged(c, i, CallStep(c.retries, w, call, Join).value.1, evs + [Join])
  {
    SameAnswer(c, i, Join, evs);
    assert Errors(call.st.kids) == KidVerdicts(c, i, evs);
  }

  lemma OtherVerdict(c: Config, w: World, i: nat, call: Call, ev: CallEvent, evs: seq<CallEvent>)
    requires i < c.N() && Judged(c, i, call, evs) && CallStep(c.retries, w, call, ev).Some?
    requires !ev.Deliver? && !ev.InKid? && !ev.Join?
    ensures Judged(c, i, CallStep(c.retries, w, call, ev).value.1, evs + [ev])
  {
    assert (evs + [ev])[..|evs|] == evs;
    if ev.Reply? { SameAnswer(c, i, ev, evs); }
  }

  /******* The send phase *******/

  // What happened to the request that worker k has out.
  function CallEvents(evs: seq<Event>, k: nat): seq<CallEvent> {
    if evs == [] then []
    else
      var ev, pre := evs[|evs| - 1], evs[..|evs| - 1];
      if ev.k != k then CallEvents(pre, k)
      else
        match ev.act
        case ReadOk => []
        case InCall(cev) => CallEvents(pre, k) + [cev]
        case _ => CallEvents(pre, k)
  }

  // The error that worker k has in hand.
  ghost function InHand(c: Config, evs: seq<Event>, k: nat): int
    requires c.N() > 0
  {
    if evs == [] then 0
    else
      var ev, pre := evs[|evs| - 1], evs[..|evs| - 1];
      if ev.k != k then InHand(c, pre, k)
      else
        match ev.act
        case ReadFail(e) => e
        case Return => Verdict(c, 0, CallEvents(pre, k))
        case _ => 0
  }

  // The error that event x records, or 0: a failed allocation, or a worker leaving
  // with an error in hand.
  ghost function Recorded(c: Config, evs: seq<Event>, x: nat): int
    requires c.N() > 0 && x < |evs|
  {
    match evs[x].act
    case AllocFail(e) => e
    case Leave => InHand(c, evs[..x], evs[x].k)
    case _ => 0
  }

  // The last error that is recorded wins; 0 if none is.
  ghost predicate LastRecorded(c: Config, evs: seq<Event>, error: int)
    requires c.N() > 0
  {
    if error == 0 then forall x :: 0 <= x < |evs| ==> Recorded(c, evs, x) == 0
    else
      exists x :: 0 <= x < |evs| && Recorded(c, evs, x) == error &&
        forall y :: x < y < |evs| ==> Recorded(c, evs, y) == 0
  }

  ghost predicate WorkerJudged(c: Config, wk: Worker, evs: seq<Event>, k: nat)
    requires c.N() > 0
  {
    match wk
    case Calling(_, call) => Judged(c, 0, call, CallEvents(evs, k))
    case Leaving(err) => err == InHand(c, evs, k)
    case _ => true
  }

  ghost predicate AllJudged(c: Config, s: State, evs: seq<Event>)
    requires c.N() > 0
  {
    (forall k :: 0 <= k < |s.workers| ==> WorkerJudged(c, s.workers[k], evs, k)) && LastRecorded(c, evs, s.error)
  }

  lemma WorkerJudgedStep(c: Config, s: State, ev: Event, evs: seq<Event>, k: nat)
    requires Inv(c, s) && HopsOk(c, s) && Step(c, s, ev).Some? && k < |s.workers|
    requires WorkerJudged(c, s.workers[k], evs, k)
    ensures WorkerJudged(c, Step(c, s, ev).value.workers[k], evs + [ev], k)
  {
    assert (evs + [ev])[..|evs|] == evs;
    var wk := s.workers[k];
    if k == ev.k && ev.act.InCall? {
      assert WorkerOk(c, s, wk);
      VerdictStep(c, s.w, 0, wk.off, wk.call, ev.act.ev, CallEvents(evs, k));
    }
  }

  lemma RecordedSame(c: Config, evs: seq<Event>, ev: Event, x: nat)
    requires c.N() > 0 && x < |evs|
    ensures Recorded(c, evs + [ev], x) == Recorded(c, evs, x)
  {
    assert (evs + [ev])[..x] == evs[..x];
  }

  lemma LastRecordedStep(c: Config, evs: seq<Event>, ev: Event, error: int)
    requires c.N() > 0 && LastRecorded(c, evs, error)
    ensures var e := Recorded(c, evs + [ev], |evs|); LastRecorded(c, evs + [ev], if e != 0 then e else error)
  {
    forall x | 0 <= x < |evs| { RecordedSame(c, evs, ev, x); }
    var e := Recorded(c, evs + [ev], |evs|);
    if e == 0 && error != 0 {
      var x :| 0 <= x < |evs| && Recorded(c, evs, x) == error && forall y :: x < y < |evs| ==> Recorded(c, evs, y) == 0;
      assert Recorded(c, evs + [ev], x) == error;
    }
  }

  lemma JudgedStep(c: Config, s: State, ev: Event, evs: seq<Event>)
    requires Inv(c, s) && HopsOk(c, s) && Step(c, s, ev).Some? && AllJudged(c, s, evs)
    ensures AllJudged(c, Step(c, s, ev).value, evs + [ev])
  {
    forall k | 0 <= k < |s.workers| { WorkerJudgedStep(c, s, ev, evs, k); }
    assert WorkerJudged(c, s.workers[ev.k], evs, ev.k) && (evs + [ev])[..|evs|] == evs;
    LastRecordedStep(c, evs, ev, s.error);
  }

  lemma {:induction false} JudgedRun(c: Config, s: State, done: seq<Event>, evs: seq<Event>)
    requires Inv(c, s) && HopsOk(c, s) && Run(c, s, evs).Some? && AllJudged(c, s, done)
    ensures AllJudged(c, Run(c, s, evs).value, done + evs)
    decreases |evs|
  {
    if evs == [] {
      assert done + evs == done;
    } else {
      InvStep(c, s, evs[0]);
      HopsStep(c, s, evs[0]);
      JudgedStep(c, s, evs[0], done);
      JudgedRun(c, Step(c, s, evs[0]).value, done + [evs[0]], evs[1..]);
      assert done + [evs[0]] + evs[1..] == done + evs;
    }
  }

  // In every run, whatever fails or is repeated and whatever the hop budget: the
  // error is the last one recorded; a worker leaves with the error of its read or with
  // the verdict on its request; and that is what its events make it.
  lemma LastRecordedWins(c: Config, w: World, evs: seq<Event>)
    requires c.N() > 0 && Ready(c, w) && Run(c, Init(c, w), evs).Some?
    ensures AllJudged(c, Run(c, Init(c, w), evs).value, evs)
  {
    var s0 := Init(c, w);
    InvInit(c, w);
    assert forall k :: 0 <= k < |s0.workers| ==> s0.workers[k] == Starting;
    JudgedRun(c, s0, [], evs);
    assert [] + evs == evs;
  }

  /******* How often a request is tried *******/

  // The tries after the first.
  function Repeated(evs: seq<CallEvent>): nat {
    if evs == [] then 0
    else Repeated(evs[..|evs| - 1]) + match evs[|evs| - 1] case Resend => 1 case Redo => 1 case _ => 0
  }

  // Every request in flight, at any depth, has all its tries but those used.
  ghost predicate Budgeted(c: Config, call: Call, evs: seq<CallEvent>)
    decreases call
  {
    && call.left + Repeated(evs) == c.retries
    && (call.st.Running? ==> forall a :: 0 <= a < |call.st.kids| ==> Budgeted(c, call.st.kids[a], KidEvents(evs, a)))
  }

  lemma {:induction false} BudgetStep(c: Config, w: World, call: Call, ev: CallEvent, evs: seq<CallEvent>)
    requires Budgeted(c, call, evs) && CallStep(c.retries, w, call, ev).Some?
    ensures Budgeted(c, CallStep(c.retries, w, call, ev).value.1, evs + [ev])
    decreases call
  {
    assert (evs + [ev])[..|evs|] == evs;
    var call' := CallStep(c.retries, w, call, ev).value.1;
    if ev.InKid? {
      BudgetStep(c, w, call.st.kids[ev.a], ev.ev, KidEvents(evs, ev.a));
      KidBudget(c, w, call, ev.a, ev.ev, evs);
    } else if ev.Deliver? && call'.st.Running? {
      forall a | 0 <= a < |call'.st.kids| ensures Budgeted(c, call'.st.kids[a], KidEvents(evs + [ev], a)) {
        assert call'.st.kids[a].left == c.retries && call'.st.kids[a].st == Sent;
      }
    }
  }

  lemma KidBudget(c: Config, w: World, call: Call, a: nat, kev: CallEvent, evs: seq<CallEvent>)
    requires Budgeted(c, call, evs) && CallStep(c.retries, w, call, InKid(a, kev)).Some?
    requires Budgeted(c, CallStep(c.retries, w, call.st.kids[a], kev).value.1, KidEvents(evs, a) + [kev])
    ensures Budgeted(c, CallStep(c.retries, w, call, InKid(a, kev)).value.1, evs + [InKid(a, kev)])
  {
    assert (evs + [InKid(a, kev)])[..|evs|] == evs;
  }

  ghost predicate AllBudgeted(c: Config, s: State, evs: seq<Event>) {
    forall k :: 0 <= k < |s.workers| && s.workers[k].Calling? ==> Budgeted(c, s.workers[k].call, CallEvents(evs, k))
  }

  lemma {:induction false} BudgetRun(c: Config, s: State, done: seq<Event>, evs: seq<Event>)
    requires c.N() > 0 && Run(c, s, evs).Some? && AllBudgeted(c, s, done)
    ensures AllBudgeted(c, Run(c, s, evs).value, done + evs)
    decreases |evs|
  {
    if evs == [] {
      assert done + evs == done;
    } else {
      var s1, ev := Step(c, s, evs[0]).value, evs[0];
      assert (done + [ev])[..|done|] == done;
      if ev.act.InCall? { BudgetStep(c, s.w, s.workers[ev.k].call, ev.act.ev, CallEvents(done, ev.k)); }
      BudgetRun(c, s1, done + [ev], evs[1..]);
      assert done + [ev] + evs[1..] == done + evs;
    }
  }

  // In every run: a request that has been repeated fewer than `retries` times, and only
  // such a one, can be repeated when it is lost.
  lemma RepeatsAreBounded(c: Config, w: World, evs: seq<Event>, k: nat)
    requires c.N() > 0 && Run(c, Init(c, w), evs).Some?
    requires k < |Run(c, Init(c, w), evs).value.workers| && Run(c, Init(c, w), evs).value.workers[k].Calling?
    ensures var s := Run(c, Init(c, w), evs).value;
            var call, mine := s.workers[k].call, CallEvents(evs, k);
            && Budgeted(c, call, mine) && Repeated(mine) <= c.retries
            && (call.st.Sent? ==> (Step(c, s, Event(k, InCall(Resend))).Some? <==> Repeated(mine) < c.retries))
            && (call.st.Answered? ==> (Step(c, s, Event(k, InCall(Redo))).Some? <==> Repeated(mine) < c.retries))
  {
    assert forall x :: 0 <= x < c.workers ==> Init(c, w).workers[x] == Starting;
    BudgetRun(c, Init(c, w), [], evs);
    assert [] + evs == evs;
  }

  /******* When only writes fail *******/

  ghost predicate Claimed(c: Config, out: nat -> ErrorOrder.Outcomes, s: State, err: int)
    requires c.N() > 0
  {
    err == 0 || exists off :: off in s.claims && err == ErrorOrder.Surface(c, out(off), 0)
  }

  // Every error in a worker's hand or recorded is that of a claimed chunk.
  ghost predicate AllClaimed(c: Config, out: nat -> ErrorOrder.Outcomes, s: State)
    requires c.N() > 0
  {
    Claimed(c, out, s, s.error) &&
    forall k :: 0 <= k < |s.workers| && s.workers[k].Leaving? ==> Claimed(c, out, s, s.workers[k].err)
  }

  predicate NoLocal(evs: seq<Event>) {
    forall x :: 0 <= x < |evs| ==> !evs[x].act.AllocFail? && !evs[x].act.ReadFail?
  }

  lemma ClaimedStep(c: Config, out: nat -> ErrorOrder.Outcomes, s: State, ev: Event)
    requires Inv(c, s) && Step(c, s, ev).Some? && ErrorOrder.AllSurface(c, out, s) && AllClaimed(c, out, s)
    requires !ev.act.AllocFail? && !ev.act.ReadFail?
    ensures AllClaimed(c, out, Step(c, s, ev).value)
  {
    var s', wk := Step(c, s, ev).value, s.workers[ev.k];
    assert WorkerOk(c, s, wk);
    if ev.act.Return? { ClaimsReach(c, s, wk.off); }
    forall err | Claimed(c, out, s, err) ensures Claimed(c, out, s', err) {
      if err != 0 {
        var off :| off in s.claims && err == ErrorOrder.Surface(c, out(off), 0);
        assert off in s'.claims;
      }
    }
  }

  lemma {:induction false} ClaimedRun(c: Config, out: nat -> ErrorOrder.Outcomes, s: State, evs: seq<Event>)
    requires Inv(c, s) && HopsOk(c, s) && HopsSuffice(c) && Run(c, s, evs).Some? && NoLocal(evs)
    requires ErrorOrder.RunFollows(c, out, s, evs) && ErrorOrder.AllSurface(c, out, s) && AllClaimed(c, out, s)
    ensures AllClaimed(c, out, Run(c, s, evs).value)
    decreases |evs|
  {
    if evs != [] {
      InvStep(c, s, evs[0]);
      HopsStep(c, s, evs[0]);
      ErrorOrder.AllSurfaceStep(c, out, s, evs[0]);
      ClaimedStep(c, out, s, evs[0]);
      assert evs == [evs[0]] + evs[1..];
      ClaimedRun(c, out, Step(c, s, evs[0]).value, evs[1..]);
    }
  }

  // Where only writes fail, send_file returns the first failure in post order of a
  // chunk that was claimed.
  lemma SendReturnsPostOrder(c: Config, out: nat -> ErrorOrder.Outcomes, w: World, evs: seq<Event>)
    requires c.N() > 0 && Ready(c, w) && HopsSuffice(c) && Run(c, Init(c, w), evs).Some? && NoLocal(evs)
    requires ErrorOrder.RunFollows(c, out, Init(c, w), evs)
    ensures var s := Run(c, Init(c, w), evs).value;
            s.error != 0 ==>
              exists off :: off in s.claims && s.error == FirstNonzero(ErrorOrder.PostOrder(c, out(off), 0))
  {
    var s0 := Init(c, w);
    InvInit(c, w);
    assert forall k :: 0 <= k < |s0.workers| ==> s0.workers[k] == Starting;
    ClaimedRun(c, out, s0, evs);
    var s := Run(c, s0, evs).value;
    if s.error != 0 {
      var off :| off in s.claims && s.error == ErrorOrder.Surface(c, out(off), 0);
      assert s.error == FirstNonzero(ErrorOrder.PostOrder(c, out(off), 0));
    }
  }

  /******* After an error *******/

  // Workers that have seen no error and are about to claim a chunk.
  function Claiming(workers: seq<Worker>): nat {
    if workers == [] then 0 else (if workers[0].Claiming? then 1 else 0) + Claiming(workers[1..])
  }

  lemma {:induction false} ClaimingUpdate(workers: seq<Worker>, k: nat, wk: Worker)
    requires k < |workers|
    ensures Claiming(workers[k := wk]) + (if workers[k].Claiming? then 1 else 0) ==
            Claiming(workers) + if wk.Claiming? then 1 else 0
    decreases |workers|
  {
    if k == 0 {
      assert workers[k := wk][1..] == workers[1..];
    } else {
      assert workers[k := wk][1..] == workers[1..][k - 1 := wk];
      ClaimingUpdate(workers[1..], k - 1, wk);
    }
  }

  // Once an error is recorded there always is one, and no chunk is claimed but by the
  // workers that were about to.
  lemma {:induction false} NoMoreClaims(c: Config, s: State, evs: seq<Event>)
    requires c.N() > 0 && Run(c, s, evs).Some? && s.error != 0
    ensures var s' := Run(c, s, evs).value;
            && s'.error != 0 && s.claims <= s'.claims
            && |s'.claims| + Claiming(s'.workers) <= |s.claims| + Claiming(s.workers)
    decreases |evs|
  {
    if evs != [] {
      var s1 := Step(c, s, evs[0]).value;
      ClaimingUpdate(s.workers, evs[0].k, s1.workers[evs[0].k]);
      NoMoreClaims(c, s1, evs[1..]);
    }
  }
}
