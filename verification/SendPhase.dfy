// The send phase: the workers of src/client/file_sender.cpp (parallel_send) over
// the relaying servers, as a transition system. One event is one atomic step of
// one worker or of one of its handlers, so a sequence of events is a schedule.

module SendPhase {
  import opened Structures
  import opened Disk
  import opened Topology
  import opened Relay

  datatype Worker =
    | Starting
    | Checking                     // before `while (error == 0)`
    | Claiming                     // before the lock
    | Reading(off: nat)
    | Calling(off: nat, call: Call)
    | Leaving(err: int)            // out of the loop, local_error in hand
    | Gone

  // claims only records history: the offsets claimed so far, in order.
  datatype State = State(w: World, cursor: nat, error: int, workers: seq<Worker>, claims: seq<nat>)

  datatype Action =
    | Alloc | AllocFail(e: int)
    | Check
    | Claim
    | ReadOk | ReadFail(e: int)
    | InCall(ev: CallEvent)
    | Return
    | Leave

  datatype Event = Event(k: nat, act: Action)

  function Init(c: Config, w: World): State {
    State(w, 0, 0, seq(c.workers, _ => Starting), [])
  }

  function Request(c: Config, off: nat): Call
    requires c.N() > 0 && off < |c.src|
  {
    Call(c.targets[0], c.Token(0), U16(c.N()), off, ChunkAt(c.src, c.chunk, off), c.retries, Sent)
  }

  // None when the event is not possible.
  function Step(c: Config, s: State, ev: Event): Option<State>
    requires c.N() > 0
  {
    if ev.k >= |s.workers| then None
    else
      var to := (wk: Worker) => s.workers[ev.k := wk];
      match (s.workers[ev.k], ev.act)
      case (Starting, Alloc) => Some(s.(workers := to(Checking)))
      case (Starting, AllocFail(e)) => if e != 0 then Some(s.(error := e, workers := to(Gone))) else None
      case (Checking, Check) => Some(s.(workers := to(if s.error == 0 then Claiming else Leaving(0))))
      case (Claiming, Claim) =>
        if s.cursor < |c.src| then
          Some(s.(cursor := s.cursor + c.chunk, workers := to(Reading(s.cursor)), claims := s.claims + [s.cursor]))
        else Some(s.(workers := to(Leaving(0))))
      case (Reading(off), ReadOk) =>
        if off < |c.src| then Some(s.(workers := to(Calling(off, Request(c, off))))) else None
      case (Reading(off), ReadFail(e)) => if e != 0 then Some(s.(workers := to(Leaving(e)))) else None
      case (Calling(off, call), InCall(cev)) =>
        (match CallStep(c.retries, s.w, call, cev)
         case None => None
         case Some((w', call')) => Some(s.(w := w', workers := to(Calling(off, call')))))
      case (Calling(off, call), Return) =>
        if call.st.Replied? then
          Some(s.(workers := to(if call.st.err == 0 then Checking else Leaving(call.st.err))))
        else None
      case (Leaving(err), Leave) =>
        Some(s.(error := if err != 0 then err else s.error, workers := to(Gone)))
      case _ => None
  }

  function Run(c: Config, s: State, evs: seq<Event>): Option<State>
    requires c.N() > 0
    decreases |evs|
  {
    if evs == [] then Some(s)
    else match Step(c, s, evs[0])
      case None => None
      case Some(s1) => Run(c, s1, evs[1..])
  }

  predicate AllGone(s: State) { forall k :: 0 <= k < |s.workers| ==> s.workers[k].Gone? }

  predicate Holds(wk: Worker, off: nat) {
    (wk.Reading? || wk.Calling?) && wk.off == off
  }

  // An error has been recorded, or a worker is about to record one.
  ghost predicate Failed(s: State) {
    s.error != 0 || exists k :: 0 <= k < |s.workers| && s.workers[k].Leaving? && s.workers[k].err != 0
  }

  ghost predicate Held(s: State, off: nat) {
    exists k :: 0 <= k < |s.workers| && Holds(s.workers[k], off)
  }

  /******* The invariant *******/

  ghost predicate WorkerOk(c: Config, s: State, wk: Worker)
    requires c.N() > 0
  {
    match wk
    case Reading(off) => IsChunk(c.src, c.chunk, off) && off < s.cursor
    case Calling(off, call) => IsChunk(c.src, c.chunk, off) && off < s.cursor && CallOk(c, s.w, 0, off, call)
    case Leaving(err) => err == 0 ==> s.cursor >= |c.src| || Failed(s)
    case Gone => s.cursor >= |c.src| || Failed(s)
    case _ => true
  }

  // Every claimed chunk is everywhere, or still in a worker's hands.
  ghost predicate ChunksOk(c: Config, s: State) {
    forall off: nat :: IsChunk(c.src, c.chunk, off) && off < s.cursor ==>
      SubtreeHas(c, s.w, 0, off) || Held(s, off) || Failed(s)
  }

  // The claims are 0, chunk, 2 * chunk, ... up to the cursor, inside the file, and
  // no two workers hold the same one.
  ghost predicate ClaimsOk(c: Config, s: State) {
    && c.chunk > 0 && s.cursor % c.chunk == 0
    && (forall x :: 0 <= x < |s.claims| ==> IsChunk(c.src, c.chunk, s.claims[x]))
    && (s.claims != [] ==> s.claims[0] == 0)
    && (forall x, y :: 0 <= x < |s.claims| - 1 && y == x + 1 ==> s.claims[y] == s.claims[x] + c.chunk)
    && s.cursor == (if s.claims == [] then 0 else s.claims[|s.claims| - 1] + c.chunk)
    && (forall k, off: nat :: 0 <= k < |s.workers| && Holds(s.workers[k], off) ==> off < s.cursor)
    && (forall k, l, off: nat :: 0 <= k < l < |s.workers| && Holds(s.workers[k], off) ==> !Holds(s.workers[l], off))
  }

  ghost predicate Inv(c: Config, s: State) {
    && c.N() > 0 && Ready(c, s.w)
    && |s.workers| == c.workers
    && ClaimsOk(c, s)
    && (forall k :: 0 <= k < |s.workers| ==> WorkerOk(c, s, s.workers[k]))
    && ChunksOk(c, s)
  }

  lemma InvInit(c: Config, w: World)
    requires c.N() > 0 && Ready(c, w)
    ensures Inv(c, Init(c, w))
  {
    var s := Init(c, w);
    assert forall k :: 0 <= k < |s.workers| ==> s.workers[k] == Starting;
    assert ClaimsOk(c, s);
  }

  lemma FailedStays(c: Config, s: State, ev: Event)
    requires c.N() > 0 && Step(c, s, ev).Some? && Failed(s)
    ensures Failed(Step(c, s, ev).value)
  {
    var s' := Step(c, s, ev).value;
    if s'.error == 0 {
      var k :| 0 <= k < |s.workers| && s.workers[k].Leaving? && s.workers[k].err != 0;
      assert s'.workers[k] == s.workers[k];
    }
  }

  lemma HeldOtherwise(c: Config, s: State, ev: Event, off: nat)
    requires c.N() > 0 && Step(c, s, ev).Some? && Held(s, off)
    ensures Held(Step(c, s, ev).value, off) || Holds(s.workers[ev.k], off)
  {
    var s' := Step(c, s, ev).value;
    var k :| 0 <= k < |s.workers| && Holds(s.workers[k], off);
    if k != ev.k { assert s'.workers[k] == s.workers[k]; }
  }

  lemma WorldGrows(c: Config, s: State, ev: Event)
    requires Inv(c, s) && Step(c, s, ev).Some?
    ensures var s' := Step(c, s, ev).value;
            && Ready(c, s'.w) && Grows(c, s.w, s'.w)
            && (ev.act.InCall? ==> CallOk(c, s'.w, 0, s'.workers[ev.k].off, s'.workers[ev.k].call))
  {
    if ev.act.InCall? {
      var wk := s.workers[ev.k];
      assert WorkerOk(c, s, wk);
      CallStepKeeps(c, s.w, 0, wk.off, wk.call, ev.act.ev);
    }
  }

  lemma WorkersStep(c: Config, s: State, ev: Event, k: nat)
    requires Inv(c, s) && Step(c, s, ev).Some? && k < |s.workers|
    ensures WorkerOk(c, Step(c, s, ev).value, Step(c, s, ev).value.workers[k])
  {
    if k == ev.k { OwnWorkerStep(c, s, ev); } else { OtherWorkerStep(c, s, ev, k); }
  }

  lemma OwnWorkerStep(c: Config, s: State, ev: Event)
    requires Inv(c, s) && Step(c, s, ev).Some?
    ensures WorkerOk(c, Step(c, s, ev).value, Step(c, s, ev).value.workers[ev.k])
  {
    assert WorkerOk(c, s, s.workers[ev.k]);
    if ev.act.InCall? { WorldGrows(c, s, ev); }
    if Failed(s) { FailedStays(c, s, ev); }
  }

  lemma OtherWorkerStep(c: Config, s: State, ev: Event, k: nat)
    requires Inv(c, s) && Step(c, s, ev).Some? && k < |s.workers| && k != ev.k
    ensures WorkerOk(c, Step(c, s, ev).value, Step(c, s, ev).value.workers[k])
  {
    var s', wk := Step(c, s, ev).value, s.workers[k];
    assert s'.workers[k] == wk && s'.cursor >= s.cursor;
    assert WorkerOk(c, s, wk);
    if wk.Calling? {
      WorldGrows(c, s, ev);
      CallOkGrows(c, s.w, s'.w, 0, wk.off, wk.call);
    } else if Failed(s) {
      FailedStays(c, s, ev);
    }
  }

  // A worker comes to hold an offset only by claiming it at the cursor.
  lemma HoldsStep(c: Config, s: State, ev: Event, k: nat, off: nat)
    requires c.N() > 0 && Step(c, s, ev).Some? && k < |s.workers| && Holds(Step(c, s, ev).value.workers[k], off)
    ensures Holds(s.workers[k], off) ||
            (k == ev.k && off == s.cursor && Step(c, s, ev).value.cursor == s.cursor + c.chunk)
  {
  }

  lemma ClaimsStep(c: Config, s: State, ev: Event)
    requires Inv(c, s) && Step(c, s, ev).Some?
    ensures ClaimsOk(c, Step(c, s, ev).value)
  {
    HoldersStep(c, s, ev);
    if Step(c, s, ev).value.claims != s.claims { NextMultiple(s.cursor, c.chunk); }
  }

  lemma HoldersStep(c: Config, s: State, ev: Event)
    requires c.N() > 0 && ClaimsOk(c, s) && Step(c, s, ev).Some?
    ensures var s' := Step(c, s, ev).value;
            && (forall k, off: nat :: 0 <= k < |s'.workers| && Holds(s'.workers[k], off) ==> off < s'.cursor)
            && (forall k, l, off: nat :: 0 <= k < l < |s'.workers| && Holds(s'.workers[k], off) ==>
               !Holds(s'.workers[l], off))
  {
    var s' := Step(c, s, ev).value;
    forall k, off: nat | 0 <= k < |s.workers| && Holds(s'.workers[k], off) ensures off < s'.cursor {
      HoldsStep(c, s, ev, k, off);
    }
    forall k, l, off: nat | 0 <= k < l < |s.workers| && Holds(s'.workers[k], off) ensures !Holds(s'.workers[l], off) {
      HoldsStep(c, s, ev, k, off);
      if Holds(s'.workers[l], off) { HoldsStep(c, s, ev, l, off); }
    }
  }

  lemma NextMultiple(a: nat, c: nat)
    requires c > 0 && a % c == 0
    ensures (a + c) % c == 0
  {
    assert a + c == c * (a / c + 1);
    MulMod(a / c + 1, c);
  }

  lemma ChunksStep(c: Config, s: State, ev: Event)
    requires Inv(c, s) && Step(c, s, ev).Some?
    ensures ChunksOk(c, Step(c, s, ev).value)
  {
    var s' := Step(c, s, ev).value;
    WorldGrows(c, s, ev);
    if Failed(s) {
      FailedStays(c, s, ev);
    } else {
      forall off: nat | IsChunk(c.src, c.chunk, off) && off < s'.cursor
        ensures SubtreeHas(c, s'.w, 0, off) || Held(s', off) || Failed(s')
      {
        if off < s.cursor { OldChunkOk(c, s, ev, off); } else { NewChunkOk(c, s, ev, off); }
      }
    }
  }

  lemma NewChunkOk(c: Config, s: State, ev: Event, off: nat)
    requires Inv(c, s) && Step(c, s, ev).Some?
    requires IsChunk(c.src, c.chunk, off) && s.cursor <= off < Step(c, s, ev).value.cursor
    ensures Held(Step(c, s, ev).value, off)
  {
    if s.cursor < off { MultiplesApart(s.cursor, off, c.chunk); }
    assert Holds(Step(c, s, ev).value.workers[ev.k], off);
  }

  lemma OldChunkOk(c: Config, s: State, ev: Event, off: nat)
    requires Inv(c, s) && Step(c, s, ev).Some? && IsChunk(c.src, c.chunk, off) && off < s.cursor && !Failed(s)
    requires Grows(c, s.w, Step(c, s, ev).value.w)
    ensures var s' := Step(c, s, ev).value; SubtreeHas(c, s'.w, 0, off) || Held(s', off) || Failed(s')
  {
    if SubtreeHas(c, s.w, 0, off) {
      SubtreeGrows(c, s.w, Step(c, s, ev).value.w, 0, off);
    } else {
      HeldOtherwise(c, s, ev, off);
      if Holds(s.workers[ev.k], off) { LetGoOk(c, s, ev, off); }
    }
  }

  lemma SubtreeGrows(c: Config, w: World, w': World, i: nat, off: nat)
    requires IsChunk(c.src, c.chunk, off) && Grows(c, w, w') && SubtreeHas(c, w, i, off)
    ensures SubtreeHas(c, w', i, off)
  {
  }

  // A worker lets go of its chunk only with a zero reply, or with an error.
  lemma LetGoOk(c: Config, s: State, ev: Event, off: nat)
    requires Inv(c, s) && Step(c, s, ev).Some? && Holds(s.workers[ev.k], off) && IsChunk(c.src, c.chunk, off)
    ensures var s' := Step(c, s, ev).value; SubtreeHas(c, s'.w, 0, off) || Held(s', off) || Failed(s')
  {
    var s' := Step(c, s, ev).value;
    assert WorkerOk(c, s, s.workers[ev.k]);
    if ev.act.ReadFail? || ev.act.Return? {
      assert s'.workers[ev.k].Leaving? || s'.workers[ev.k].Checking?;
    } else {
      assert Holds(s'.workers[ev.k], off);
    }
  }

  lemma InvStep(c: Config, s: State, ev: Event)
    requires Inv(c, s) && Step(c, s, ev).Some?
    ensures Inv(c, Step(c, s, ev).value)
  {
    WorldGrows(c, s, ev);
    ClaimsStep(c, s, ev);
    ChunksStep(c, s, ev);
    forall k | 0 <= k < |s.workers| { WorkersStep(c, s, ev, k); }
  }

  lemma {:induction false} InvRun(c: Config, s: State, evs: seq<Event>)
    requires Inv(c, s) && Run(c, s, evs).Some?
    ensures Inv(c, Run(c, s, evs).value)
    ensures TablesStay(s.w, Run(c, s, evs).value.w)
    decreases |evs|
  {
    if evs != [] {
      InvStep(c, s, evs[0]);
      WorldGrows(c, s, evs[0]);
      InvRun(c, Step(c, s, evs[0]).value, evs[1..]);
    }
  }

  ghost predicate TablesStay(w: World, w': World) {
    w.nodes.Keys == w'.nodes.Keys && w.alone == w'.alone && forall a :: a in w.nodes ==>
        w'.nodes[a].fmap == w.nodes[a].fmap
  }

  /******* What a zero from send_file means *******/

  // Whatever the interleaving, if the workers are all gone and no error was left,
  // the claims cover the file and every target holds the source, padded.
  lemma SendSound(c: Config, w: World, evs: seq<Event>)
    requires c.N() > 0 && c.workers > 0 && Ready(c, w)
    requires Run(c, Init(c, w), evs).Some?
    requires AllGone(Run(c, Init(c, w), evs).value) && Run(c, Init(c, w), evs).value.error == 0
    ensures var s := Run(c, Init(c, w), evs).value;
            && |c.src| <= s.cursor
            && (forall off: nat :: IsChunk(c.src, c.chunk, off) ==> off in s.claims)
            && forall i :: 0 <= i < c.N() ==> c.targets[i] in s.w.nodes && s.w.nodes[c.targets[i]].disk == Padded(c.src)
  {
    var s := Run(c, Init(c, w), evs).value;
    InvInit(c, w);
    InvRun(c, Init(c, w), evs);
    assert WorkerOk(c, s, s.workers[0]);
    assert !Failed(s);
    forall off: nat | IsChunk(c.src, c.chunk, off) ensures off in s.claims && SubtreeHas(c, s.w, 0, off) {
      ClaimsReach(c, s, off);
      assert !Held(s, off);
    }
    forall i | 0 <= i < c.N() ensures s.w.nodes[c.targets[i]].disk == Padded(c.src) {
      RootCoversAll(c.shape, i);
      forall off: nat | IsChunk(c.src, c.chunk, off)
        ensures HasChunk(s.w.nodes[c.targets[i]].disk, c.src, c.chunk, off)
      {
        assert NodeHas(c, s.w, i, off);
      }
      AllChunksMakeTheFile(s.w.nodes[c.targets[i]].disk, c.src, c.chunk);
    }
  }

  lemma ClaimsReach(c: Config, s: State, off: nat)
    requires ClaimsOk(c, s) && IsChunk(c.src, c.chunk, off) && off < s.cursor
    ensures off in s.claims
  {
    ClaimsReachBelow(c, s, off, |s.claims| - 1);
  }

  lemma {:induction false} ClaimsReachBelow(c: Config, s: State, off: nat, x: nat)
    requires ClaimsOk(c, s) && IsChunk(c.src, c.chunk, off)
    requires x < |s.claims| && off < s.claims[x] + c.chunk
    ensures off in s.claims
  {
    if s.claims[x] < off {
      MultiplesApart(s.claims[x], off, c.chunk);
    } else if off < s.claims[x] {
      assert x > 0;
      MultiplesApart(off, s.claims[x], c.chunk);
      ClaimsReachBelow(c, s, off, x - 1);
    }
  }
}
