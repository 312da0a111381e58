// Other clients at work on the servers during the send phase. They change entries
// under other tokens only, and so it does not matter when they do.

module Others {
  import opened Structures
  import opened Disk
  import opened Relay
  import opened SendPhase
  import opened Entries
  import FileTable

  datatype Move = Ours(ev: Event) | Theirs(a: Addr, t: FileTable.Table)

  function Turns(c: Config, w: World, ts: seq<(Addr, FileTable.Table)>): (r: World)
    ensures r.nodes.Keys == w.nodes.Keys && r == w.(nodes := r.nodes, alone := r.alone)
  {
    if ts == [] then w
    else
      var (a, t) := ts[|ts| - 1];
      Turn(c, Turns(c, w, ts[..|ts| - 1]), a, Some(t))
  }

  // A send phase with the others' moves among its own.
  function RunWith(c: Config, s: State, moves: seq<Move>): Option<State>
    requires c.N() > 0
    decreases |moves|
  {
    if moves == [] then Some(s)
    else
      match moves[0]
      case Theirs(a, t) => RunWith(c, s.(w := Turn(c, s.w, a, Some(t))), moves[1..])
      case Ours(ev) =>
        match Step(c, s, ev)
        case None => None
        case Some(s1) => RunWith(c, s1, moves[1..])
  }

  function OursOf(moves: seq<Move>): seq<Event> {
    if moves == [] then []
    else match moves[0]
      case Ours(ev) => [ev] + OursOf(moves[1..])
      case Theirs(_, _) => OursOf(moves[1..])
  }

  function TheirsOf(moves: seq<Move>): seq<(Addr, FileTable.Table)> {
    if moves == [] then []
    else match moves[0]
      case Ours(_) => TheirsOf(moves[1..])
      case Theirs(a, t) => [(a, t)] + TheirsOf(moves[1..])
  }

  // Every request carries the token that this upload has at its server.
  ghost predicate Addressed(c: Config, call: Call)
    decreases call
  {
    && call.token == c.TokenAt(call.to)
    && (call.st.Running? ==> forall k :: 0 <= k < |call.st.kids| ==> Addressed(c, call.st.kids[k]))
  }

  lemma {:induction false} CallIsAddressed(c: Config, w: World, i: nat, off: nat, call: Call)
    requires i < c.N() && IsChunk(c.src, c.chunk, off) && CallOk(c, w, i, off, call)
    ensures Addressed(c, call)
    decreases call
  {
    if call.st.Running? {
      forall k | 0 <= k < |call.st.kids| ensures Addressed(c, call.st.kids[k]) {
        CallIsAddressed(c, w, c.Kids(i)[k], off, call.st.kids[k]);
      }
    }
  }

  function Turned(c: Config, r: Option<(World, Call)>, a: Addr, t: FileTable.Table): Option<(World, Call)> {
    match r
    case None => None
    case Some((w, call)) => Some((Turn(c, w, a, Some(t)), call))
  }

  lemma WriteTurns(c: Config, w: World, a: Addr, t: FileTable.Table, b: Addr, off: nat, d: seq<byte>)
    requires b in w.nodes
    ensures WriteTo(Turn(c, w, a, Some(t)), b, off, d) == Turn(c, WriteTo(w, b, off, d), a, Some(t))
  {
    var x, y := WriteTo(Turn(c, w, a, Some(t)), b, off, d), Turn(c, WriteTo(w, b, off, d), a, Some(t));
    assert x.nodes == y.nodes;
  }

  // A handler's step is the same before and after a turn of the others.
  lemma {:induction false} CallStepTurns(c: Config, w: World, call: Call, ev: CallEvent, a: Addr, t: FileTable.Table)
    requires Addressed(c, call)
    ensures CallStep(c.retries, Turn(c, w, a, Some(t)), call, ev) == Turned(c, CallStep(c.retries, w, call, ev), a, t)
    decreases call
  {
    if call.st.Running? && ev.InKid? {
      if ev.a < |call.st.kids| { CallStepTurns(c, w, call.st.kids[ev.a], ev.ev, a, t); }
    } else if call.st.Running? && (ev.WriteOk? || ev.WriteFail?) {
      if call.to in w.nodes {
        WriteTurns(c, w, a, t, call.to, call.off, Padded(call.data));
        if ev.WriteFail? && ev.m <= |Padded(call.data)| {
          WriteTurns(c, w, a, t, call.to, call.off, Padded(call.data)[..ev.m]);
        }
      }
    } else if call.st.Sent? && ev.Deliver? {
      DeliverTurns(c, w, call, a, t);
    }
  }

  lemma DeliverTurns(c: Config, w: World, call: Call, a: Addr, t: FileTable.Table)
    requires call.st.Sent? && call.token == c.TokenAt(call.to)
    ensures CallStep(c.retries, Turn(c, w, a, Some(t)), call, Deliver) ==
            Turned(c, CallStep(c.retries, w, call, Deliver), a, t)
  {
    if call.to in w.nodes { TurnKeepsOwn(c, w, a, Some(t), call.to); }
  }

  function TurnedState(c: Config, s: State, a: Addr, t: FileTable.Table): State { s.(w := Turn(c, s.w, a, Some(t))) }

  lemma StepTurns(c: Config, s: State, ev: Event, a: Addr, t: FileTable.Table)
    requires c.N() > 0 && forall k :: 0 <= k < |s.workers| && s.workers[k].Calling? ==> Addressed(c, s.workers[k].call)
    ensures Step(c, TurnedState(c, s, a, t), ev) ==
            match Step(c, s, ev) case None => None case Some(s') => Some(TurnedState(c, s', a, t))
  {
    if ev.act.InCall? {
      if ev.k < |s.workers| && s.workers[ev.k].Calling? {
        CallStepTurns(c, s.w, s.workers[ev.k].call, ev.act.ev, a, t);
      }
    } else {
      OwnStepTurns(c, s, ev, a, t);
    }
  }

  // A worker's own steps do not look at the servers.
  lemma OwnStepTurns(c: Config, s: State, ev: Event, a: Addr, t: FileTable.Table)
    requires c.N() > 0 && !ev.act.InCall?
    ensures Step(c, TurnedState(c, s, a, t), ev) ==
            match Step(c, s, ev) case None => None case Some(s') => Some(TurnedState(c, s', a, t))
  {
  }

  function AllTurned(c: Config, s: State, ts: seq<(Addr, FileTable.Table)>): State { s.(w := Turns(c, s.w, ts)) }

  lemma {:induction false} StepAllTurns(c: Config, s: State, ev: Event, ts: seq<(Addr, FileTable.Table)>)
    requires c.N() > 0 && forall k :: 0 <= k < |s.workers| && s.workers[k].Calling? ==> Addressed(c, s.workers[k].call)
    ensures Step(c, AllTurned(c, s, ts), ev) ==
            match Step(c, s, ev) case None => None case Some(s') => Some(AllTurned(c, s', ts))
    decreases |ts|
  {
    if ts == [] {
      assert AllTurned(c, s, []) == s;
    } else {
      var pre := ts[..|ts| - 1];
      var (a, t) := ts[|ts| - 1];
      StepAllTurns(c, s, ev, pre);
      StepTurns(c, AllTurned(c, s, pre), ev, a, t);
    }
  }

  lemma AllAddressed(c: Config, s: State)
    requires Inv(c, s)
    ensures forall k :: 0 <= k < |s.workers| && s.workers[k].Calling? ==> Addressed(c, s.workers[k].call)
  {
    forall k | 0 <= k < |s.workers| && s.workers[k].Calling? ensures Addressed(c, s.workers[k].call) {
      assert WorkerOk(c, s, s.workers[k]);
      CallIsAddressed(c, s.w, 0, s.workers[k].off, s.workers[k].call);
    }
  }

  // Whenever the others make their moves, the send phase goes as without them, and
  // the servers end as if they had made them all at the end.
  lemma {:induction false} OthersDoNotMatter(c: Config, s: State, ts: seq<(Addr, FileTable.Table)>, moves: seq<Move>)
    requires Inv(c, s)
    ensures RunWith(c, AllTurned(c, s, ts), moves) ==
            match Run(c, s, OursOf(moves))
            case None => None
            case Some(s') => Some(AllTurned(c, s', ts + TheirsOf(moves)))
    decreases |moves|
  {
    if moves == [] {
      assert ts + [] == ts;
    } else if moves[0].Theirs? {
      var more := ts + [(moves[0].a, moves[0].t)];
      OneMoreTurn(c, s, ts, moves[0].a, moves[0].t);
      OthersDoNotMatter(c, s, more, moves[1..]);
      assert more + TheirsOf(moves[1..]) == ts + TheirsOf(moves);
    } else {
      var ev := moves[0].ev;
      AllAddressed(c, s);
      StepAllTurns(c, s, ev, ts);
      RunOfCons(c, s, ev, OursOf(moves[1..]));
      if Step(c, s, ev).Some? {
        InvStep(c, s, ev);
        OthersDoNotMatter(c, Step(c, s, ev).value, ts, moves[1..]);
      }
    }
  }

  lemma OneMoreTurn(c: Config, s: State, ts: seq<(Addr, FileTable.Table)>, a: Addr, t: FileTable.Table)
    ensures TurnedState(c, AllTurned(c, s, ts), a, t) == AllTurned(c, s, ts + [(a, t)])
  {
    assert (ts + [(a, t)])[..|ts|] == ts;
  }

  lemma RunOfCons(c: Config, s: State, ev: Event, evs: seq<Event>)
    requires c.N() > 0
    ensures Run(c, s, [ev] + evs) == match Step(c, s, ev) case None => None case Some(s1) => Run(c, s1, evs)
  {
    assert ([ev] + evs)[1..] == evs;
  }

  // Turns keep the ledger, the entries and the files of this upload.
  lemma {:induction false} TurnsKeep(c: Config, w: World, ts: seq<(Addr, FileTable.Table)>, mine: set<Addr>)
    requires Ledger(c, w, mine)
    ensures Ledger(c, Turns(c, w, ts), mine) && SameTaken(c, w.alone, Turns(c, w, ts).alone)
    decreases |ts|
  {
    if ts != [] {
      var pre := ts[..|ts| - 1];
      var (a, t) := ts[|ts| - 1];
      TurnsKeep(c, w, pre, mine);
      TurnKeeps(c, Turns(c, w, pre), a, Some(t), mine);
      SameTakenTwice(c, w.alone, Turns(c, w, pre).alone, Turns(c, w, ts).alone);
    }
  }

  lemma {:induction false} TurnsGiven(c: Config, w: World, ts: seq<(Addr, FileTable.Table)>,
                                      given: set<(Addr, FileTable.Table)>)
    requires forall x :: x in ts ==> x in given
    ensures OnlyBy(c, w.alone, Turns(c, w, ts).alone, given)
    decreases |ts|
  {
    if ts != [] {
      var pre := ts[..|ts| - 1];
      var (a, t) := ts[|ts| - 1];
      TurnsGiven(c, w, pre, given);
      assert (a, t) == ts[|ts| - 1] && (a, t) in ts;
      TurnIsGiven(c, Turns(c, w, pre), a, Some(t), given);
      OnlyByTwice(c, w.alone, Turns(c, w, pre).alone, Turns(c, w, ts).alone, given);
    }
  }

  lemma {:induction false} TurnsKeepDisks(c: Config, w: World, ts: seq<(Addr, FileTable.Table)>, b: Addr)
    requires b in w.nodes
    ensures Turns(c, w, ts).nodes[b].disk == w.nodes[b].disk
    decreases |ts|
  {
    if ts != [] {
      var pre := ts[..|ts| - 1];
      var (a, t) := ts[|ts| - 1];
      TurnsKeepDisks(c, w, pre, b);
      TurnKeepsOwn(c, Turns(c, w, pre), a, Some(t), b);
    }
  }
}
