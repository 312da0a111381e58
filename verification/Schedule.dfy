// Schedulers. A scheduler says in every state which worker or handler goes next;
// every interleaving of a send phase is the order of one.

module Schedule {
  import opened Relay
  import opened SendPhase
  import opened Progress

  ghost predicate Schedules(c: Config, next: State -> Event) {
    forall s: State :: Inv(c, s) && !AllGone(s) ==> Step(c, s, next(s)).Some?
  }

  // evs is what next does from s on.
  predicate Follows(c: Config, next: State -> Event, s: State, evs: seq<Event>)
    requires c.N() > 0
    decreases |evs|
  {
    evs != [] && Step(c, s, evs[0]).Some? ==>
      next(s) == evs[0] && Follows(c, next, Step(c, s, evs[0]).value, evs[1..])
  }

  lemma {:induction false} RunOneMore(c: Config, next: State -> Event, s: State, evs: seq<Event>)
    requires c.N() > 0 && Run(c, s, evs).Some? && Follows(c, next, s, evs)
    ensures var s' := Run(c, s, evs).value; var ev := next(s');
            Run(c, s, evs + [ev]) == Step(c, s', ev) && Follows(c, next, s, evs + [ev])
    decreases |evs|
  {
    if evs == [] {
      assert evs + [next(s)] == [next(s)];
    } else {
      var s1 := Step(c, s, evs[0]).value;
      assert (evs + [next(Run(c, s, evs).value)])[1..] == evs[1..] + [next(Run(c, s1, evs[1..]).value)];
      RunOneMore(c, next, s1, evs[1..]);
    }
  }

  lemma SomethingCanHappen(c: Config, s: State)
    requires Inv(c, s) && !AllGone(s)
    ensures exists ev :: Step(c, s, ev).Some?
  {
    var ev := CanGoOn(c, s);
  }

  ghost function Pick(c: Config, s: State): (ev: Event)
    requires Inv(c, s) && !AllGone(s)
    ensures Step(c, s, ev).Some?
  {
    SomethingCanHappen(c, s);
    var ev :| Step(c, s, ev).Some?;
    ev
  }

  // Does what evs does from s on, and elsewhere whatever is possible.
  ghost function SchedulerOf(c: Config, s: State, evs: seq<Event>): State -> Event
    requires c.N() > 0 && Run(c, s, evs).Some?
    decreases |evs|
  {
    if evs == [] then (t: State) => if Inv(c, t) && !AllGone(t) then Pick(c, t) else Event(0, Check)
    else
      var later := SchedulerOf(c, Step(c, s, evs[0]).value, evs[1..]);
      (t: State) => if t == s then evs[0] else later(t)
  }

  // next agrees with later on all states of lower rank than s, so on the whole run.
  lemma {:induction false} FollowsBelow(c: Config, next: State -> Event, later: State -> Event, s: State, t: State,
                                        evs: seq<Event>)
    requires Inv(c, s) && Inv(c, t) && Rank(c, t) < Rank(c, s) && Run(c, t, evs).Some? && Follows(c, later, t, evs)
    requires forall u: State :: u != s ==> next(u) == later(u)
    ensures Follows(c, next, t, evs)
    decreases |evs|
  {
    if evs != [] {
      InvStep(c, t, evs[0]);
      RankDrops(c, t, evs[0]);
      FollowsBelow(c, next, later, s, Step(c, t, evs[0]).value, evs[1..]);
    }
  }

  // Whatever the interleaving, there is a scheduler that follows it.
  lemma {:induction false} EveryInterleavingIsScheduled(c: Config, s: State, evs: seq<Event>)
    requires Inv(c, s) && Run(c, s, evs).Some?
    ensures Schedules(c, SchedulerOf(c, s, evs)) && Follows(c, SchedulerOf(c, s, evs), s, evs)
    decreases |evs|
  {
    if evs != [] {
      var s1 := Step(c, s, evs[0]).value;
      InvStep(c, s, evs[0]);
      RankDrops(c, s, evs[0]);
      EveryInterleavingIsScheduled(c, s1, evs[1..]);
      FollowsBelow(c, SchedulerOf(c, s, evs), SchedulerOf(c, s1, evs[1..]), s, s1, evs[1..]);
    }
  }

  // And only one interleaving follows a scheduler to the end.
  lemma {:induction false} OnlyOneFollows(c: Config, next: State -> Event, s: State, a: seq<Event>, b: seq<Event>)
    requires Inv(c, s) && Run(c, s, a).Some? && Run(c, s, b).Some? && Follows(c, next, s, a) && Follows(c, next, s, b)
    requires AllGone(Run(c, s, a).value) && AllGone(Run(c, s, b).value)
    ensures a == b
    decreases |a|
  {
    if AllGone(s) {
      if a != [] { NothingAfterGone(c, s, a[0]); }
      if b != [] { NothingAfterGone(c, s, b[0]); }
    } else {
      InvStep(c, s, a[0]);
      OnlyOneFollows(c, next, Step(c, s, a[0]).value, a[1..], b[1..]);
      assert a == [a[0]] + a[1..] && b == [b[0]] + b[1..];
    }
  }

  lemma NothingAfterGone(c: Config, s: State, ev: Event)
    requires c.N() > 0 && AllGone(s)
    ensures Step(c, s, ev).None?
  {
  }
}
