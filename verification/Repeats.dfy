// What repeats of requests make good: exactly when send_file returns 0, whatever the
// transport repeats.

module Repeats {
  import opened Structures
  import opened Disk
  import opened Relay
  import opened SendPhase
  import opened Progress
  import opened Faults

  // A place in the tree of forwards below a request: which child, and so on.
  type Place = seq<nat>

  // Where an event is a fault, or has a request executed again.
  function FaultAt(ev: CallEvent): Option<Place> {
    match ev
    case Drop(_) => Some([])
    case WriteFail(_, _) => Some([])
    case ReplyLost(_) => Some([])
    case InKid(a, kev) => (match FaultAt(kev) case None => None case Some(p) => Some([a] + p))
    case _ => None
  }

  function RedoAt(ev: CallEvent): Option<Place> {
    match ev
    case Redo => Some([])
    case InKid(a, kev) => (match RedoAt(kev) case None => None case Some(p) => Some([a] + p))
    case _ => None
  }

  // The faults not made good so far: a request that is executed again makes good all
  // that went wrong at its place and below.
  function After(left: set<Place>, ev: CallEvent): set<Place> {
    match RedoAt(ev)
    case Some(q) => set p | p in left && !(q <= p)
    case None => match FaultAt(ev) case None => left case Some(p) => left + {p}
  }

  // Those below child a, as it sees them.
  function Below(left: set<Place>, a: nat): set<Place> { set p | p in left && p != [] && p[0] == a :: p[1..] }

  // Errors on their way up are those of faults not made good.
  ghost predicate Carried(call: Call, left: set<Place>)
    decreases call
  {
    match call.st
    case Sent => left == {}
    case Answered(err) => err != 0 <==> left != {}
    case Replied(err) => err != 0 <==> left != {}
    case Running(written, kids) =>
      && ([] in left <==> written.Some? && written.value != 0)
      && (forall p :: p in left && p != [] ==> p[0] < |kids|)
      && forall a :: 0 <= a < |kids| ==> Carried(kids[a], Below(left, a))
  }

  lemma BelowAt(left: set<Place>, a: nat, p: Place)
    ensures p in Below(left, a) <==> [a] + p in left
  {
    if p in Below(left, a) {
      var q :| q in left && q != [] && q[0] == a && q[1..] == p;
      assert q == [a] + p;
    }
    assert ([a] + p)[1..] == p;
  }

  // An event below one child concerns that child.
  lemma BelowAfter(left: set<Place>, a: nat, kev: CallEvent, b: nat)
    ensures Below(After(left, InKid(a, kev)), b) == if b == a then After(Below(left, a), kev) else Below(left, b)
    ensures [] in After(left, InKid(a, kev)) <==> [] in left
  {
    var after := After(left, InKid(a, kev));
    forall p ensures p in Below(after, b) <==> p in if b == a then After(Below(left, a), kev) else Below(left, b) {
      BelowAt(after, b, p);
      BelowAt(left, b, p);
      PrefixBelow(a, b, kev, p);
    }
  }

  lemma PrefixBelow(a: nat, b: nat, kev: CallEvent, p: Place)
    ensures RedoAt(kev).Some? ==> ([a] + RedoAt(kev).value <= [b] + p <==> a == b && RedoAt(kev).value <= p)
    ensures FaultAt(kev).Some? ==> ([a] + FaultAt(kev).value == [b] + p <==> a == b && FaultAt(kev).value == p)
  {
    if RedoAt(kev).Some? {
      var q := RedoAt(kev).value;
      if |q| <= |p| {
        assert ([b] + p)[..|q| + 1] == [b] + p[..|q|];
        SameStep(a, q, b, p[..|q|]);
      }
    }
    if FaultAt(kev).Some? { SameStep(a, FaultAt(kev).value, b, p); }
  }

  lemma SameStep(a: nat, p: Place, b: nat, q: Place)
    ensures [a] + p == [b] + q <==> a == b && p == q
  {
    if [a] + p == [b] + q {
      assert ([a] + p)[0] == a && ([b] + q)[0] == b;
      assert ([a] + p)[1..] == p && ([b] + q)[1..] == q;
    }
  }

  lemma {:induction false} CarriedStep(c: Config, w: World, i: nat, off: nat, call: Call, ev: CallEvent,
                                       left: set<Place>)
    requires Ready(c, w) && i < c.N() && IsChunk(c.src, c.chunk, off) && HopsSuffice(c)
    requires CallOk(c, w, i, off, call) && HopOk(c, i, call) && Carried(call, left)
    requires CallStep(c.retries, w, call, ev).Some?
    ensures Carried(CallStep(c.retries, w, call, ev).value.1, After(left, ev))
    decreases call
  {
    match ev
    case Deliver => CarriedDeliver(c, w, i, call);
    case InKid(a, kev) =>
      CarriedStep(c, w, c.Kids(i)[a], off, call.st.kids[a], kev, Below(left, a));
      CarriedKid(c, w, call, a, kev, left);
    case Join => CarriedJoin(c, w, i, off, call, left);
    case _ => CarriedOther(c, w, call, ev, left);
  }

  lemma CarriedDeliver(c: Config, w: World, i: nat, call: Call)
    requires Ready(c, w) && i < c.N() && call.to == c.targets[i] && call.token == c.Token(i)
    requires call.st.Sent? && HopOk(c, i, call) && HopsSuffice(c) && CallStep(c.retries, w, call, Deliver).Some?
    ensures Carried(CallStep(c.retries, w, call, Deliver).value.1, {})
  {
    assert HopFits(c, i);
    HopForward(c, w, i, call);
    var kids := CallStep(c.retries, w, call, Deliver).value.1.st.kids;
    forall a | 0 <= a < |kids| ensures Carried(kids[a], Below({}, a)) { assert kids[a].st == Sent; }
  }

  lemma CarriedKid(c: Config, w: World, call: Call, a: nat, kev: CallEvent, left: set<Place>)
    requires Carried(call, left) && CallStep(c.retries, w, call, InKid(a, kev)).Some?
    requires Carried(CallStep(c.retries, w, call.st.kids[a], kev).value.1, After(Below(left, a), kev))
    ensures Carried(CallStep(c.retries, w, call, InKid(a, kev)).value.1, After(left, InKid(a, kev)))
  {
    var kids := CallStep(c.retries, w, call, InKid(a, kev)).value.1.st.kids;
    forall b | 0 <= b < |kids| ensures Carried(kids[b], Below(After(left, InKid(a, kev)), b)) {
      BelowAfter(left, a, kev, b);
    }
    BelowAfter(left, a, kev, a);
  }

  lemma CarriedJoin(c: Config, w: World, i: nat, off: nat, call: Call, left: set<Place>)
    requires i < c.N() && IsChunk(c.src, c.chunk, off) && CallOk(c, w, i, off, call) && Carried(call, left)
    requires CallStep(c.retries, w, call, Join).Some?
    ensures Carried(CallStep(c.retries, w, call, Join).value.1, left)
  {
    var kids := call.st.kids;
    JoinIsSound(c, w, i, off, call);
    forall a | 0 <= a < |kids| ensures kids[a].st.err != 0 <==> Below(left, a) != {} { assert kids[a].st.Replied?; }
    if left != {} {
      var p :| p in left;
      if p != [] {
        BelowAt(left, p[0], p[1..]);
        assert [p[0]] + p[1..] == p && p[1..] in Below(left, p[0]);
      }
    }
    if a :| 0 <= a < |kids| && Below(left, a) != {} {
      var p :| p in Below(left, a);
      BelowAt(left, a, p);
    }
  }

  lemma CarriedOther(c: Config, w: World, call: Call, ev: CallEvent, left: set<Place>)
    requires Carried(call, left) && CallStep(c.retries, w, call, ev).Some?
    requires !ev.Deliver? && !ev.InKid? && !ev.Join?
    ensures Carried(CallStep(c.retries, w, call, ev).value.1, After(left, ev))
  {
    if ev.WriteFail? {
      forall a | 0 <= a < |call.st.kids| ensures Below(left + {[]}, a) == Below(left, a) {}
    }
    if ev.Drop? || ev.ReplyLost? { assert [] in After(left, ev); }
    if ev.Redo? { assert After(left, ev) == {}; }
  }

  /******* Over the whole send phase *******/

  // The faults in worker k's requests that are not made good.
  function LeftOf(left: set<Place>, evs: seq<Event>, k: nat): set<Place>
    decreases |evs|
  {
    if evs == [] then left
    else
      LeftOf(if evs[0].k == k && evs[0].act.InCall? then After(left, evs[0].act.ev) else left, evs[1..], k)
  }

  predicate IsLocal(act: Action) { act.AllocFail? || act.ReadFail? }

  predicate AnyLocal(evs: seq<Event>) { exists x :: 0 <= x < |evs| && IsLocal(evs[x].act) }

  // A failed allocation or read, or a fault in a request that nothing made good.
  predicate Unrepaired(workers: nat, evs: seq<Event>) {
    AnyLocal(evs) || exists k :: 0 <= k < workers && LeftOf({}, evs, k) != {}
  }

  // lefts: the faults not made good, worker by worker; failed: a local one.
  ghost predicate WorkerCarries(wk: Worker, left: set<Place>) {
    match wk
    case Calling(_, call) => Carried(call, left)
    case Leaving(err) => left != {} ==> err != 0
    case Gone => true
    case _ => left == {}
  }

  ghost predicate Shown(s: State, lefts: seq<set<Place>>, failed: bool)
    requires |lefts| == |s.workers|
  {
    Failed(s) <==> failed || exists k :: 0 <= k < |lefts| && !s.workers[k].Calling? && lefts[k] != {}
  }

  ghost predicate AllCarry(c: Config, s: State, lefts: seq<set<Place>>, failed: bool) {
    && |lefts| == |s.workers| && (forall k :: 0 <= k < |lefts| ==> WorkerCarries(s.workers[k], lefts[k]))
    && Shown(s, lefts, failed)
  }

  function Next(lefts: seq<set<Place>>, ev: Event): seq<set<Place>>
    requires ev.k < |lefts|
  {
    lefts[ev.k := if ev.act.InCall? then After(lefts[ev.k], ev.act.ev) else lefts[ev.k]]
  }

  lemma CarryStep(c: Config, s: State, ev: Event, lefts: seq<set<Place>>, failed: bool)
    requires Inv(c, s) && HopsOk(c, s) && HopsSuffice(c) && Step(c, s, ev).Some? && AllCarry(c, s, lefts, failed)
    ensures AllCarry(c, Step(c, s, ev).value, Next(lefts, ev), failed || IsLocal(ev.act))
  {
    var s', next := Step(c, s, ev).value, Next(lefts, ev);
    forall k | 0 <= k < |next| ensures WorkerCarries(s'.workers[k], next[k]) {
      assert WorkerCarries(s.workers[k], lefts[k]);
      if k == ev.k { OwnCarries(c, s, ev, lefts[k]); }
    }
    ShownStep(c, s, ev, lefts, failed);
  }

  lemma OwnCarries(c: Config, s: State, ev: Event, left: set<Place>)
    requires Inv(c, s) && HopsOk(c, s) && HopsSuffice(c) && Step(c, s, ev).Some? && WorkerCarries(s.workers[ev.k], left)
    ensures WorkerCarries(Step(c, s, ev).value.workers[ev.k], if ev.act.InCall? then After(left, ev.act.ev) else left)
  {
    var wk := s.workers[ev.k];
    if ev.act.InCall? {
      assert WorkerOk(c, s, wk);
      CarriedStep(c, s.w, 0, wk.off, wk.call, ev.act.ev, left);
    }
  }

  lemma ShownStep(c: Config, s: State, ev: Event, lefts: seq<set<Place>>, failed: bool)
    requires c.N() > 0 && Step(c, s, ev).Some? && AllCarry(c, s, lefts, failed)
    ensures Shown(Step(c, s, ev).value, Next(lefts, ev), failed || IsLocal(ev.act))
  {
    var s', next := Step(c, s, ev).value, Next(lefts, ev);
    assert WorkerCarries(s.workers[ev.k], lefts[ev.k]);
    if Failed(s) { FailedStays(c, s, ev); }
    if IsLocal(ev.act) { assert s'.error != 0 || (s'.workers[ev.k].Leaving? && s'.workers[ev.k].err != 0); }
    if k :| 0 <= k < |next| && !s'.workers[k].Calling? && next[k] != {} {
      if k == ev.k && s.workers[k].Calling? {
        assert s'.workers[k].Leaving? && s'.workers[k].err != 0;
      } else {
        assert !s.workers[k].Calling? && lefts[k] != {};
      }
    }
    if Failed(s') && !Failed(s) && !IsLocal(ev.act) {
      assert ev.act.Return? && s'.workers[ev.k].Leaving? && next[ev.k] != {};
    }
    if k :| 0 <= k < |lefts| && !s.workers[k].Calling? && lefts[k] != {} {
      assert next[k] == lefts[k] && !s'.workers[k].Calling?;
    }
  }

  lemma {:induction false} CarryRun(c: Config, s: State, evs: seq<Event>, lefts: seq<set<Place>>, failed: bool)
    returns (last: seq<set<Place>>)
    requires Inv(c, s) && HopsOk(c, s) && HopsSuffice(c) && Run(c, s, evs).Some? && AllCarry(c, s, lefts, failed)
    ensures AllCarry(c, Run(c, s, evs).value, last, failed || AnyLocal(evs))
    ensures |last| == |lefts| && forall k: nat :: k < |lefts| ==> last[k] == LeftOf(lefts[k], evs, k)
    decreases |evs|
  {
    last := lefts;
    if evs != [] {
      InvStep(c, s, evs[0]);
      HopsStep(c, s, evs[0]);
      CarryStep(c, s, evs[0], lefts, failed);
      last := CarryRun(c, Step(c, s, evs[0]).value, evs[1..], Next(lefts, evs[0]), failed || IsLocal(evs[0].act));
      AnyLocalStep(evs);
    }
  }

  lemma AnyLocalStep(evs: seq<Event>)
    requires evs != []
    ensures AnyLocal(evs) <==> IsLocal(evs[0].act) || AnyLocal(evs[1..])
  {
    if x :| 0 <= x < |evs| && IsLocal(evs[x].act) { assert x == 0 || IsLocal(evs[1..][x - 1].act); }
    if x :| 0 <= x < |evs[1..]| && IsLocal(evs[1..][x].act) { assert IsLocal(evs[x + 1].act); }
  }

  // Whatever is repeated: within the hop budget, send_file returns 0 exactly when
  // every allocation and read succeeded and every fault in a request was made good,
  // that is, a request at or above its place was executed again.
  lemma ZeroIffRepaired(c: Config, w: World, evs: seq<Event>)
    requires c.N() > 0 && c.workers > 0 && Ready(c, w) && HopsSuffice(c)
    requires Run(c, Init(c, w), evs).Some? && AllGone(Run(c, Init(c, w), evs).value)
    ensures Run(c, Init(c, w), evs).value.error == 0 <==> !Unrepaired(c.workers, evs)
  {
    var s0, s := Init(c, w), Run(c, Init(c, w), evs).value;
    var none: seq<set<Place>> := seq(c.workers, _ => {});
    InvInit(c, w);
    assert forall k :: 0 <= k < |s0.workers| ==> s0.workers[k] == Starting;
    var last := CarryRun(c, s0, evs, none, false);
    InvRun(c, s0, evs);
    assert !Failed(s) <==> s.error == 0;
    if k :| 0 <= k < c.workers && LeftOf({}, evs, k) != {} { assert last[k] != {} && s.workers[k].Gone?; }
    if k :| 0 <= k < |last| && last[k] != {} { assert LeftOf({}, evs, k) != {}; }
  }

  // Without a fault there is nothing to make good, however much is repeated.
  lemma {:induction false} NoFaultLeft(evs: seq<Event>, k: nat)
    requires !AnyFault(evs)
    ensures LeftOf({}, evs, k) == {}
    decreases |evs|
  {
    if evs != [] {
      assert !IsFault(evs[0].act);
      if evs[0].act.InCall? {
        NoFaultHere(evs[0].act.ev);
        assert After({}, evs[0].act.ev) == {};
      }
      forall x | 0 <= x < |evs[1..]| ensures !IsFault(evs[1..][x].act) { assert evs[1..][x] == evs[x + 1]; }
      NoFaultLeft(evs[1..], k);
    }
  }

  lemma {:induction false} NoFaultHere(ev: CallEvent)
    ensures FaultAt(ev).Some? <==> CallFault(ev)
    ensures RedoAt(ev).Some? ==> CallRetry(ev)
    decreases ev
  {
    if ev.InKid? { NoFaultHere(ev.ev); }
  }

  lemma ZeroIfNoFault(c: Config, w: World, evs: seq<Event>)
    requires c.N() > 0 && c.workers > 0 && Ready(c, w) && HopsSuffice(c)
    requires Run(c, Init(c, w), evs).Some? && AllGone(Run(c, Init(c, w), evs).value) && !AnyFault(evs)
    ensures Run(c, Init(c, w), evs).value.error == 0
  {
    ZeroIffRepaired(c, w, evs);
    forall k: nat ensures LeftOf({}, evs, k) == {} { NoFaultLeft(evs, k); }
    if x :| 0 <= x < |evs| && IsLocal(evs[x].act) { assert IsFault(evs[x].act); }
  }

  // And where nothing is repeated, nothing is made good.
  lemma UnrepairedIfNoRetry(c: Config, w: World, evs: seq<Event>)
    requires c.N() > 0 && c.workers > 0 && Ready(c, w) && HopsSuffice(c) && NoRetry(evs)
    requires Run(c, Init(c, w), evs).Some? && AllGone(Run(c, Init(c, w), evs).value)
    ensures Unrepaired(c.workers, evs) <==> AnyFault(evs)
  {
    ZeroIffRepaired(c, w, evs);
    ZeroIffNoFault(c, w, evs);
  }
}
