// One upload from end to end: src/client/file_sender.cpp and upload_file of
// src/client/fcopy_cli.cpp, with the servers' answers as parameters.

module FileSender {
  import opened Structures
  import opened Disk
  import opened Topology
  import opened Relay
  import opened SendPhase
  import opened Progress
  import opened Schedule
  import opened Entries
  import opened Opening
  import opened Linking
  import opened Closing
  import opened Others
  import Faults
  import FileTable
  import Repeats
  import Returned
  import Trace

  /******* What each phase hands to the next *******/

  // The first n targets.
  function First(c: Config, n: nat): set<Addr> { set a | a in c.targets[..Min(n, c.N())] }

  // How many creates the client hears of.
  function HeardCreates(c: Config, base: Tables, readable: bool, creates: seq<CreateAnswer>): (n: nat)
    requires |creates| == c.N()
    ensures n <= c.N()
  {
    if readable then HeardOf(c, base, creates, 0) else 0
  }

  // The servers with an entry of the upload before any close: those heard of, and the
  // one that was made and not heard of, if there is one.
  function Made(c: Config, base: Tables, readable: bool, creates: seq<CreateAnswer>): set<Addr>
    requires |creates| == c.N()
  {
    var n := HeardCreates(c, base, readable, creates);
    First(c, n) + if readable then Orphans(c, base, creates, n) else {}
  }

  // create_file: the servers after it, and the error.
  function CreateFrom(c: Config, w: World, readable: bool, errno: int, creates: seq<CreateAnswer>,
                      links: seq<LinkAnswer>)
    : (World, int)
    requires Reachable(c, w.nodes, creates) && |links| == c.N()
  {
    if !readable then (w, errno)
    else if c.N() == 0 then (w, EINVAL)
    else
      var (w1, _, err) := OpenFrom(c, w, creates, []);
      if err != 0 then (w1, err) else LinkFrom(c, w1, links, 0)
  }

  function TokensGot(c: Config, w: World, readable: bool, creates: seq<CreateAnswer>): seq<Str>
    requires Reachable(c, w.nodes, creates)
  {
    if readable then OpenFrom(c, w, creates, []).1 else []
  }

  predicate CanCreate(c: Config, base: Tables, readable: bool, creates: seq<CreateAnswer>, links: seq<LinkAnswer>)
    requires |creates| == c.N() == |links|
  {
    readable && c.N() > 0 && AllMade(c, base, creates, 0) && AllLinked(c, links, 0)
  }

  // The error of create_file: that of the source; or there are no targets; or what the
  // client is told of the first create that it does not hear of, or of the first link
  // that is lost.
  predicate CreateTells(c: Config, base: Tables, readable: bool, errno: int, creates: seq<CreateAnswer>,
                        links: seq<LinkAnswer>, err: int)
    requires |creates| == c.N() == |links| && forall j :: 0 <= j < c.N() ==> Opening.AnswerOk(creates[j])
  {
    var n := HeardCreates(c, base, readable, creates);
    if !readable then err == errno
    else if c.N() == 0 then err == EINVAL
    else if n < c.N() then err != 0 && Opening.Told(c, base, creates, n, err)
    else Linking.Told(c, links, 0, err)
  }

  // Tokens and entries after the creates: the client has the tokens of all targets in
  // First, and not a single empty one.
  ghost predicate Created(c: Config, w: World, tokens: seq<Str>, mine: set<Addr>) {
    && Books(c, w, tokens, mine) && First(c, |tokens|) <= mine
    && forall i :: 0 <= i < |tokens| ==> tokens[i] != [] && tokens[i] == c.Token(i)
  }

  lemma OpenedIsCreated(c: Config, base: Tables, w: World, tokens: seq<Str>, mine: set<Addr>)
    requires |tokens| <= c.N() && Opened(c, w, tokens, mine)
    ensures Created(c, w, tokens, mine) && Live(c, tokens) == First(c, |tokens|)
  {
    LiveIsPrefix(c, tokens);
    forall j | 0 <= j < |tokens| ensures Free(c, w, j) {
      assert EntryAt(c, w.nodes, j, []) && tokens[j] != [];
      assert c.targets[j] in Live(c, tokens);
      assert LedgerAt(c.TokenAt(c.targets[j]), |c.src|, w.alone[c.targets[j]], w.nodes[c.targets[j]].fmap, true);
    }
  }

  lemma NothingOpened(c: Config, w: World)
    requires w.alone == TablesOf(w.nodes)
    ensures Opened(c, w, [], {}) && Live(c, []) == {} && First(c, 0) == {} && SameTaken(c, w.alone, w.alone)
  {
  }

  lemma OpenOutcome(c: Config, w: World, creates: seq<CreateAnswer>, mine: set<Addr>)
    requires Reachable(c, w.nodes, creates) && w.alone == TablesOf(w.nodes) && mine == Made(c, w.alone, true, creates)
    ensures var (w', tokens, err) := OpenFrom(c, w, creates, []);
            && Opened(c, w', tokens, mine) && Created(c, w', tokens, mine)
            && |tokens| == HeardCreates(c, w.alone, true, creates)
            && (err == 0 <==> AllMade(c, w.alone, creates, 0)) && (err == 0 <==> |tokens| == c.N())
            && (err != 0 ==> Opening.Told(c, w.alone, creates, |tokens|, err))
  {
    var (w', tokens, err) := OpenFrom(c, w, creates, []);
    NothingOpened(c, w);
    OpenIsExact(c, w.alone, w, creates, []);
    OpenedIsCreated(c, w.alone, w', tokens, Live(c, tokens) + Orphans(c, w.alone, creates, |tokens|));
    assert mine == Live(c, tokens) + Orphans(c, w.alone, creates, |tokens|);
  }

  // Exactly when create_file returns 0, and what is open in any case.
  lemma CreateOutcome(c: Config, w: World, readable: bool, errno: int, creates: seq<CreateAnswer>,
                      links: seq<LinkAnswer>, mine: set<Addr>)
    requires Reachable(c, w.nodes, creates) && Linking.AnswersOk(c, links) && w.alone == TablesOf(w.nodes) && errno != 0
    requires mine == Made(c, w.alone, readable, creates)
    ensures var (w', err) := CreateFrom(c, w, readable, errno, creates, links);
            var tokens := TokensGot(c, w, readable, creates);
            && Created(c, w', tokens, mine) && |tokens| == HeardCreates(c, w.alone, readable, creates)
            && (err == 0 <==> CanCreate(c, w.alone, readable, creates, links))
            && (err == 0 ==> |tokens| == c.N() && Ready(c, w'))
            && CreateTells(c, w.alone, readable, errno, creates, links, err)
  {
    if !readable {
      NothingOpened(c, w);
      OpenedIsCreated(c, w.alone, w, [], {});
      assert mine == {};
    } else {
      OpenOutcome(c, w, creates, mine);
      var (w1, tokens, err) := OpenFrom(c, w, creates, []);
      if err == 0 && c.N() > 0 { LinkOutcome(c, w1, tokens, mine, links); }
    }
  }

  lemma CreateIsGiven(c: Config, w: World, readable: bool, errno: int, creates: seq<CreateAnswer>,
                      links: seq<LinkAnswer>, given: set<(Addr, FileTable.Table)>, w': World)
    requires Reachable(c, w.nodes, creates) && |links| == c.N() && CreatesGiven(c, creates, links, given)
    requires w' == CreateFrom(c, w, readable, errno, creates, links).0
    ensures OnlyBy(c, w.alone, w'.alone, given)
    ensures w'.nodes.Keys == w.nodes.Keys && w' == w.(nodes := w'.nodes, alone := w'.alone)
  {
    if readable && c.N() > 0 {
      var (w1, _, err) := OpenFrom(c, w, creates, []);
      OpenGiven(c, w, creates, [], given);
      if err == 0 {
        LinkGiven(c, w1, links, 0, given);
        OnlyByTwice(c, w.alone, w1.alone, LinkFrom(c, w1, links, 0).0.alone, given);
      }
    }
  }

  lemma LinkOutcome(c: Config, w: World, tokens: seq<Str>, mine: set<Addr>, links: seq<LinkAnswer>)
    requires |tokens| == c.N() > 0 && Opened(c, w, tokens, mine) && Created(c, w, tokens, mine)
             && Linking.AnswersOk(c, links)
    requires forall j :: 0 <= j < c.N() ==> c.targets[j] in w.nodes
    ensures var (w', err) := LinkFrom(c, w, links, 0);
            && Created(c, w', tokens, mine) && (err == 0 <==> AllLinked(c, links, 0)) && Linking.Told(c, links, 0, err)
            && (err == 0 ==> LinkedUpTo(c, w'.nodes, c.N()) && ReadyNodes(c, w'))
  {
    var w' := LinkFrom(c, w, links, 0).0;
    var none := 0;
    forall j | 0 <= j < c.N() ensures LinkedAt(c, w.nodes, none, j) && c.targets[j] in mine {
      assert EntryAt(c, w.nodes, j, []);
      assert c.targets[j] in First(c, |tokens|) by { assert c.targets[j] in c.targets[..c.N()]; }
    }
    assert LinkedUpTo(c, w.nodes, 0);
    LinkIsComplete(c, w, links, 0, mine);
    LinkTells(c, w, links, 0, mine, LinkFrom(c, w, links, 0).1);
    FreeStays(c, w, w', |tokens|);
    if LinkFrom(c, w, links, 0).1 == 0 {
      LinkedToAll(c, links, 0);
      LinkedIsReady(c, w', |tokens|);
    }
  }

  // Ready, as far as create and link see to it.
  ghost predicate ReadyNodes(c: Config, w: World) { FileTable.ChunkSizeOk(c.chunk) && Apart(c, c.N()) ==> Ready(c, w) }

  lemma LinkedIsReady(c: Config, w: World, n: nat)
    requires n == c.N() && LinkedUpTo(c, w.nodes, c.N())
    ensures ReadyNodes(c, w)
  {
    forall i | 0 <= i < c.N()
      ensures EntryAt(c, w.nodes, i, c.Links(i)) && TailOk(w.nodes[c.targets[i]].disk, c.src)
    {
      assert LinkedAt(c, w.nodes, c.N(), i);
    }
  }

  lemma SendKeepsLedger(c: Config, w: World, w': World, mine: set<Addr>)
    requires Ledger(c, w, mine) && TablesStay(w, w')
    ensures Ledger(c, w', mine)
  {
  }

  // After the send phase nobody is at work; the entries are those there were; and 0
  // means that every target holds the source, padded.
  lemma SendOutcome(c: Config, w: World, evs: seq<Event>, tokens: seq<Str>, mine: set<Addr>,
                    theirs: seq<(Addr, FileTable.Table)>, given: set<(Addr, FileTable.Table)>)
    requires c.N() > 0 && c.workers > 0 && Ready(c, w) && w.active == {} && w.log == multiset{}
    requires Run(c, Init(c, w), evs).Some? && AllGone(Run(c, Init(c, w), evs).value) && Created(c, w, tokens, mine)
    requires forall x :: x in theirs ==> x in given
    ensures var s := Run(c, Init(c, w), evs).value;
            var w' := Turns(c, s.w, theirs);
            && w'.active == {} && Created(c, w', tokens, mine) && w'.nodes.Keys == w.nodes.Keys
            && OnlyBy(c, w.alone, w'.alone, given)
            && (s.error == 0 ==> AllHolding(c, w'))
  {
    var s := Run(c, Init(c, w), evs).value;
    InvInit(c, w);
    InvRun(c, Init(c, w), evs);
    SendKeepsLedger(c, w, s.w, mine);
    TurnsKeep(c, s.w, theirs, mine);
    TurnsGiven(c, s.w, theirs, given);
    FreeStays(c, w, Turns(c, s.w, theirs), |tokens|);
    Trace.SendIsQuiet(c, w, evs);
    if s.error == 0 {
      SendSound(c, w, evs);
      forall i | 0 <= i < c.N() ensures Holding(c, Turns(c, s.w, theirs), i) {
        TurnsKeepDisks(c, s.w, theirs, c.targets[i]);
      }
    }
  }

  // Target i holds the source, padded.
  ghost predicate Holding(c: Config, w: World, i: nat)
    requires i < c.N()
  {
    c.targets[i] in w.nodes && w.nodes[c.targets[i]].disk == Padded(c.src)
  }

  ghost predicate AllHolding(c: Config, w: World) { forall i :: 0 <= i < c.N() ==> Holding(c, w, i) }

  /******* Closing what an upload has opened *******/

  // The servers whose entry goes when the first n targets are closed.
  function Closed(c: Config, wait: bool, closes: seq<CloseAnswer>, n: nat): set<Addr>
    requires n <= c.N() == |closes|
  {
    set j | 0 <= j < n && ClosedBy(wait, false, closes[j].execs).Some? :: c.targets[j]
  }

  // A server has answered and has still to close.
  predicate Owing(wait: bool, ans: CloseAnswer) {
    !wait && ans.execs != [] && ClosedBy(wait, false, ans.execs).None?
  }

  predicate AllAccepted(c: Config, wait: bool, closes: seq<CloseAnswer>, n: nat)
    requires n <= c.N() == |closes|
  {
    forall j :: 0 <= j < n ==> Accepts(wait, false, closes[j])
  }

  // The error of the close of an upload: what the client is told of the first close that
  // it does not hear of.
  predicate CloseTellsOf(c: Config, wait: bool, closes: seq<CloseAnswer>, n: nat, err: int)
    requires n <= c.N() == |closes|
  {
    if AllAccepted(c, wait, closes, n) then err == 0
    else
      exists j :: 0 <= j < n && !Accepts(wait, false, closes[j]) && err == Failure(wait, closes[j]) &&
        AllAccepted(c, wait, closes, j)
  }

  // The tokens of the closes that the client has not heard a 0 of.
  function TokensLeft(c: Config, wait: bool, closes: seq<CloseAnswer>, n: nat): seq<Str>
    requires n <= c.N() == |closes|
  {
    seq(n, j requires 0 <= j < n <= c.N() == |closes| => if Accepts(wait, false, closes[j]) then [] else c.Token(j))
  }

  // Tokens, entries, closes owed and files after the close of an upload.
  ghost predicate AfterClose(c: Config, wait: bool, w: World, n: nat, mine: set<Addr>, closes: seq<CloseAnswer>,
                             r: (World, seq<Str>, set<nat>, int), left: set<Addr>)
    requires n <= c.N() == |closes|
  {
    match r
    case (w', tokens', pending', err) =>
      && left == mine - Closed(c, wait, closes, n)
      && Closable(c, wait, w', if err == 0 then [] else tokens', pending', left)
      && (err == 0 <==> AllAccepted(c, wait, closes, n)) && tokens' == TokensLeft(c, wait, closes, n)
      && (forall j: nat :: j in pending' <==> j < n && Owing(wait, closes[j]))
      && w'.nodes.Keys == w.nodes.Keys && SameTaken(c, w.alone, w'.alone)
      && forall j :: 0 <= j < n ==> ClosedDisk(c, wait, w, w', closes, j)
  }

  ghost predicate ClosedDisk(c: Config, wait: bool, w: World, w': World, closes: seq<CloseAnswer>, j: nat)
    requires j < c.N() == |closes|
  {
    && c.targets[j] in w.nodes && c.targets[j] in w'.nodes
    && w'.nodes[c.targets[j]].disk == DiskAfter(c, w.nodes[c.targets[j]].disk, ClosedBy(wait, false, closes[j].execs))
  }

  // What the general statements about closes say of one that finds all its entries.
  lemma FoundAll(c: Config, wait: bool, tokens: seq<Str>, mine: set<Addr>, closes: seq<CloseAnswer>, j: nat)
    requires j < |tokens| <= c.N() == |closes| && tokens[j] != [] && tokens[j] == c.Token(j)
             && First(c, |tokens|) <= mine
    ensures c.targets[j] in mine
    ensures Goes(c, wait, tokens, {}, mine, j, closes[j]) <==> ClosedBy(wait, false, closes[j].execs).Some?
    ensures HeardOrEmpty(c, wait, tokens, {}, mine, j, closes[j]) <==> Accepts(wait, false, closes[j])
    ensures Owes(c, wait, tokens, {}, mine, j, closes[j]) <==> Owing(wait, closes[j])
  {
    assert c.targets[j] in c.targets[..|tokens|];
  }

  lemma AllFound(c: Config, wait: bool, tokens: seq<Str>, mine: set<Addr>, closes: seq<CloseAnswer>)
    requires |tokens| <= c.N() == |closes| && First(c, |tokens|) <= mine
    requires forall i :: 0 <= i < |tokens| ==> tokens[i] != [] && tokens[i] == c.Token(i)
    ensures GoneFrom(c, wait, tokens, {}, mine, closes, 0) == Closed(c, wait, closes, |tokens|)
    ensures AllHeard(c, wait, tokens, {}, mine, closes, 0) <==> AllAccepted(c, wait, closes, |tokens|)
  {
    forall j | 0 <= j < |tokens| { FoundAll(c, wait, tokens, mine, closes, j); }
    forall a | a in Closed(c, wait, closes, |tokens|) ensures a in GoneFrom(c, wait, tokens, {}, mine, closes, 0) {
      var j :| 0 <= j < |tokens| && ClosedBy(wait, false, closes[j].execs).Some? && c.targets[j] == a;
      assert Goes(c, wait, tokens, {}, mine, j, closes[j]);
    }
    forall j | 0 <= j < |tokens|
      ensures HeardOrEmpty(c, wait, tokens, {}, mine, j, closes[j]) <==> Accepts(wait, false, closes[j])
    {
      FoundAll(c, wait, tokens, mine, closes, j);
    }
  }

  lemma FirstOfAll(c: Config, wait: bool, tokens: seq<Str>, mine: set<Addr>, closes: seq<CloseAnswer>, err: int)
    requires |tokens| <= c.N() == |closes| && First(c, |tokens|) <= mine
    requires forall i :: 0 <= i < |tokens| ==> tokens[i] != [] && tokens[i] == c.Token(i)
    requires Tells(c, wait, tokens, {}, mine, closes, 0, err)
    ensures CloseTellsOf(c, wait, closes, |tokens|, err)
  {
    forall j | 0 <= j < |tokens|
      ensures HeardOrEmpty(c, wait, tokens, {}, mine, j, closes[j]) <==> Accepts(wait, false, closes[j])
    {
      FoundAll(c, wait, tokens, mine, closes, j);
    }
  }

  lemma CloseOutcome(c: Config, wait: bool, w: World, tokens: seq<Str>, mine: set<Addr>, closes: seq<CloseAnswer>,
                     left: set<Addr>)
    requires Created(c, w, tokens, mine) && Closing.AnswersOk(c, closes)
    requires forall j :: 0 <= j < |tokens| ==> c.targets[j] in w.nodes
    requires left == mine - Closed(c, wait, closes, |tokens|)
    ensures AfterClose(c, wait, w, |tokens|, mine, closes, CloseFrom(c, wait, w, tokens, {}, closes, 0, 0), left)
  {
    var n := |tokens|;
    var r := CloseFrom(c, wait, w, tokens, {}, closes, 0, 0);
    CloseEntries(c, wait, w, tokens, mine, closes, left);
    CloseTokens(c, wait, w, tokens, mine, closes, r.1);
    forall k: nat { CloseOwed(c, wait, w, tokens, mine, closes, k); }
    forall j | 0 <= j < n
      ensures ClosedDisk(c, wait, w, r.0, closes, j)
    {
      CloseTarget(c, wait, w, tokens, mine, closes, j);
    }
    if r.3 == 0 { NoTokens(c, wait, r.0, r.1, r.2, left); }
  }

  lemma CloseEntries(c: Config, wait: bool, w: World, tokens: seq<Str>, mine: set<Addr>, closes: seq<CloseAnswer>,
                     left: set<Addr>)
    requires Created(c, w, tokens, mine) && Closing.AnswersOk(c, closes)
    requires forall j :: 0 <= j < |tokens| ==> c.targets[j] in w.nodes
    requires left == mine - Closed(c, wait, closes, |tokens|)
    ensures var (w', tokens', pending', err) := CloseFrom(c, wait, w, tokens, {}, closes, 0, 0);
            && Closable(c, wait, w', tokens', pending', left)
            && SameTaken(c, w.alone, w'.alone) && (err == 0 <==> AllAccepted(c, wait, closes, |tokens|))
  {
    assert Closable(c, wait, w, tokens, {}, mine);
    AllFound(c, wait, tokens, mine, closes);
    CloseKeeps(c, wait, w, tokens, {}, mine, closes, 0, 0, CloseFrom(c, wait, w, tokens, {}, closes, 0, 0), left);
    CloseTakesNone(c, wait, w, tokens, {}, closes, 0, 0);
    CloseError(c, wait, w, tokens, {}, mine, closes, 0, 0);
  }

  lemma CloseTokens(c: Config, wait: bool, w: World, tokens: seq<Str>, mine: set<Addr>, closes: seq<CloseAnswer>,
                    tokens': seq<Str>)
    requires Created(c, w, tokens, mine) && Closing.AnswersOk(c, closes)
    requires forall j :: 0 <= j < |tokens| ==> c.targets[j] in w.nodes
    requires tokens' == CloseFrom(c, wait, w, tokens, {}, closes, 0, 0).1
    ensures tokens' == TokensLeft(c, wait, closes, |tokens|)
  {
    forall j | 0 <= j < |tokens| ensures tokens'[j] == if Accepts(wait, false, closes[j]) then [] else c.Token(j) {
      CloseTarget(c, wait, w, tokens, mine, closes, j);
    }
  }

  lemma CloseOwed(c: Config, wait: bool, w: World, tokens: seq<Str>, mine: set<Addr>, closes: seq<CloseAnswer>, k: nat)
    requires Created(c, w, tokens, mine) && Closing.AnswersOk(c, closes)
    requires forall j :: 0 <= j < |tokens| ==> c.targets[j] in w.nodes
    ensures k in CloseFrom(c, wait, w, tokens, {}, closes, 0, 0).2 <==> k < |tokens| && Owing(wait, closes[k])
  {
    if k < |tokens| {
      CloseTarget(c, wait, w, tokens, mine, closes, k);
    } else {
      StillOwed(c, wait, w, tokens, {}, closes, 0, 0, k);
    }
  }

  lemma NoTokens(c: Config, wait: bool, w: World, tokens: seq<Str>, pending: set<nat>, mine: set<Addr>)
    requires Closable(c, wait, w, tokens, pending, mine)
    ensures Closable(c, wait, w, [], pending, mine)
  {
  }

  lemma CloseTarget(c: Config, wait: bool, w: World, tokens: seq<Str>, mine: set<Addr>, closes: seq<CloseAnswer>,
                    j: nat)
    requires j < |tokens| <= c.N() && Created(c, w, tokens, mine) && Closing.AnswersOk(c, closes)
    requires forall j :: 0 <= j < |tokens| ==> c.targets[j] in w.nodes
    ensures var (w', tokens', pending', err) := CloseFrom(c, wait, w, tokens, {}, closes, 0, 0);
            && tokens'[j] == (if Accepts(wait, false, closes[j]) then [] else c.Token(j))
            && (j in pending' <==> Owing(wait, closes[j])) && ClosedDisk(c, wait, w, w', closes, j)
  {
    assert Closable(c, wait, w, tokens, {}, mine);
    FoundAll(c, wait, tokens, mine, closes, j);
    var last := CloseFrom(c, wait, w, tokens, {}, closes, 0, 0);
    CloseIsExact(c, wait, w, tokens, {}, mine, closes, 0, 0, last, j);
    CloseDisks(c, wait, w, tokens, {}, mine, closes, 0, 0, last, j,
               DiskAfter(c, w.nodes[c.targets[j]].disk, HowFrom(c, wait, tokens, {}, mine, closes, 0, j)));
  }

  lemma CloseTold(c: Config, wait: bool, w: World, tokens: seq<Str>, pending: set<nat>, mine: set<Addr>,
                  closes: seq<CloseAnswer>)
    requires |tokens| <= c.N() && Closable(c, wait, w, tokens, pending, mine) && Closing.AnswersOk(c, closes)
    requires forall j :: 0 <= j < |tokens| ==> c.targets[j] in w.nodes
    ensures Tells(c, wait, tokens, pending, mine, closes, 0, CloseFrom(c, wait, w, tokens, pending, closes, 0, 0).3)
  {
    CloseTells(c, wait, w, tokens, pending, mine, closes, 0, 0,
               CloseFrom(c, wait, w, tokens, pending, closes, 0, 0).3);
  }

  /******* The client object *******/

  lemma TreeLinks(c: Config, i: nat, ts: seq<ChainTarget>)
    requires c.shape == Tree && 2 * i + 1 < c.N()
    requires ts == if 2 * i + 2 < c.N() then [c.LinkTo(2 * i + 1), c.LinkTo(2 * i + 2)] else [c.LinkTo(2 * i + 1)]
    ensures ts == c.Links(i) && c.Kids(i) != []
  {
  }

  // All that other clients do, at each request and during the send phase, is given.
  ghost predicate CreatesGiven(c: Config, creates: seq<CreateAnswer>, links: seq<LinkAnswer>,
                               given: set<(Addr, FileTable.Table)>)
    requires |creates| == c.N() == |links|
  {
    && (forall j :: 0 <= j < c.N() && creates[j].theirs.Some? ==> (c.targets[j], creates[j].theirs.value) in given)
    && (forall j :: 0 <= j < c.N() && links[j].theirs.Some? ==> (c.targets[j], links[j].theirs.value) in given)
  }

  ghost predicate SendsGiven(theirs: seq<(Addr, FileTable.Table)>, given: set<(Addr, FileTable.Table)>) {
    forall x :: x in theirs ==> x in given
  }

  ghost predicate ClosesGiven(c: Config, closes: seq<CloseAnswer>, given: set<(Addr, FileTable.Table)>)
    requires |closes| == c.N()
  {
    forall j :: 0 <= j < c.N() && closes[j].theirs.Some? ==> (c.targets[j], closes[j].theirs.value) in given
  }

  class FileSender {
    const c: Config
    const waitClose: bool
    var servers: World
    var fileTokens: seq<Str>
    var error: int
    var fd: int
    var curOffset: nat
    var pending: set<nat>             // targets that have answered a close and still have to do it

    constructor (c: Config, waitClose: bool, servers: World)
      ensures this.c == c && this.waitClose == waitClose && this.servers == servers
      ensures fileTokens == [] && error == 0 && fd == -1 && curOffset == 0 && pending == {}
    {
      this.c, this.waitClose, this.servers := c, waitClose, servers;
      fileTokens, error, fd, curOffset, pending := [], 0, -1, 0, {};
    }

    method RemoteOpen(answers: seq<CreateAnswer>) returns (localError: int)
      requires Reachable(c, servers.nodes, answers)
      modifies `servers, `fileTokens
      ensures (servers, fileTokens, localError) ==
              if c.N() == 0 then (old(servers), old(fileTokens), EINVAL) else OpenFrom(c, old(servers), answers, [])
    {
      localError := 0;
      if c.N() == 0 { return EINVAL; }

      fileTokens := [];
      while |fileTokens| < c.N() && localError == 0
        invariant |fileTokens| <= c.N() && Reachable(c, servers.nodes, answers)
        invariant OpenFrom(c, old(servers), answers, []) ==
                  if localError != 0 then (servers, fileTokens, localError)
                  else OpenFrom(c, servers, answers, fileTokens)
        decreases c.N() - |fileTokens|, localError == 0
      {
        var i := |fileTokens|;
        servers, localError := CreateAt(c, servers, i, answers[i]).0, CreateAt(c, servers, i, answers[i]).1;
        if localError == 0 { fileTokens := fileTokens + [c.Token(i)]; }
      }
    }

    method SetSendChain(answers: seq<LinkAnswer>) returns (localError: int)
      requires c.shape == Chain && |answers| == c.N() == |fileTokens|
      requires forall j :: 0 <= j < c.N() ==> c.targets[j] in servers.nodes && fileTokens[j] == c.Token(j)
      modifies `servers
      ensures (servers, localError) == LinkFrom(c, old(servers), answers, 0)
    {
      var ntarget := |fileTokens|;
      var i := 0;
      localError := 0;
      while i + 1 < ntarget && localError == 0
        invariant 0 <= i <= ntarget && servers.nodes.Keys == old(servers.nodes.Keys)
        invariant LinkFrom(c, old(servers), answers, 0) ==
                  if localError != 0 then (servers, localError) else LinkFrom(c, servers, answers, i)
      {
        var chainTarget := ChainTarget(c.targets[i + 1].host, c.targets[i + 1].port, fileTokens[i + 1]);
        assert [chainTarget] == c.Links(i);
        var r := LinkAt(c, servers, i, [chainTarget], answers[i]);
        servers, localError, i := r.0, r.1, i + 1;
      }
    }

    // The children of target i, each with the token that it has handed out.
    method TreeTargets(i: nat) returns (targets: seq<ChainTarget>)
      requires c.shape == Tree && |fileTokens| == c.N() && i * 2 + 1 < c.N()
      requires forall j :: 0 <= j < c.N() ==> fileTokens[j] == c.Token(j)
      ensures targets == c.Links(i) && c.Kids(i) != []
    {
      var l := i * 2 + 1;
      targets := [ChainTarget(c.targets[l].host, c.targets[l].port, fileTokens[l])];
      if l + 1 < c.N() {
        targets := targets + [ChainTarget(c.targets[l + 1].host, c.targets[l + 1].port, fileTokens[l + 1])];
      }
      TreeLinks(c, i, targets);
    }

    method SetSendTree(answers: seq<LinkAnswer>) returns (localError: int)
      requires c.shape == Tree && |answers| == c.N() == |fileTokens|
      requires forall j :: 0 <= j < c.N() ==> c.targets[j] in servers.nodes && fileTokens[j] == c.Token(j)
      modifies `servers
      ensures (servers, localError) == LinkFrom(c, old(servers), answers, 0)
    {
      var ntarget := |fileTokens|;
      var i := 0;
      localError := 0;
      while i * 2 + 1 < ntarget && localError == 0
        invariant 0 <= i <= ntarget && servers.nodes.Keys == old(servers.nodes.Keys)
        invariant LinkFrom(c, old(servers), answers, 0) ==
                  if localError != 0 then (servers, localError) else LinkFrom(c, servers, answers, i)
      {
        var targets := TreeTargets(i);
        var r := LinkAt(c, servers, i, targets, answers[i]);
        servers, localError, i := r.0, r.1, i + 1;
      }
    }

    // set_send_tree or set_send_chain, as the parameters say.
    method LinkTargets(links: seq<LinkAnswer>) returns (localError: int)
      requires |links| == c.N() == |fileTokens|
      requires forall j :: 0 <= j < c.N() ==> c.targets[j] in servers.nodes && fileTokens[j] == c.Token(j)
      modifies `servers
      ensures (servers, localError) == LinkFrom(c, old(servers), links, 0)
    {
      if c.shape == Tree {
        localError := SetSendTree(links);
      } else {
        localError := SetSendChain(links);
      }
    }

    // Exactly when it returns 0, and what is open in any case.
    method CreateFile(clientFd: int, errno: int, creates: seq<CreateAnswer>, links: seq<LinkAnswer>)
      returns (ret: int)
      requires fileTokens == [] && servers.alone == TablesOf(servers.nodes)
      requires Reachable(c, servers.nodes, creates) && Linking.AnswersOk(c, links) && errno != 0
      modifies `servers, `fileTokens, `error, `fd
      ensures ret == error && fd == (if old(fd) >= 0 then old(fd) else clientFd)
      ensures (servers, error) == CreateFrom(c, old(servers), fd >= 0, errno, creates, links)
      ensures fileTokens == TokensGot(c, old(servers), fd >= 0, creates)
      ensures |fileTokens| == HeardCreates(c, old(servers.alone), fd >= 0, creates)
      ensures Created(c, servers, fileTokens, Made(c, old(servers.alone), fd >= 0, creates))
      ensures error == 0 <==> CanCreate(c, old(servers.alone), fd >= 0, creates, links)
      ensures CreateTells(c, old(servers.alone), fd >= 0, errno, creates, links, error)
      ensures error == 0 ==> |fileTokens| == c.N() && Ready(c, servers)
    {
      if fd < 0 { fd := clientFd; }
      ghost var mine := Made(c, servers.alone, fd >= 0, creates);
      CreateOutcome(c, servers, fd >= 0, errno, creates, links, mine);
      if fd < 0 {
        error := errno;
        return error;
      }
      error := OpenAndLink(creates, links);
      ret := error;
    }

    method OpenAndLink(creates: seq<CreateAnswer>, links: seq<LinkAnswer>) returns (localError: int)
      requires servers.alone == TablesOf(servers.nodes) && fileTokens == []
      requires Reachable(c, servers.nodes, creates) && Linking.AnswersOk(c, links)
      modifies `servers, `fileTokens
      ensures (servers, localError) == CreateFrom(c, old(servers), true, 0, creates, links)
      ensures fileTokens == TokensGot(c, old(servers), true, creates)
    {
      ghost var mine := Made(c, servers.alone, true, creates);
      OpenOutcome(c, servers, creates, mine);
      localError := RemoteOpen(creates);
      if localError == 0 { localError := LinkTargets(links); }
    }

    // The others' moves (theirs) are told at the end: OthersDoNotMatter shows that it
    // makes no difference when in the send phase they are made.
    method SendFile(next: State -> Event, theirs: seq<(Addr, FileTable.Table)>)
      returns (ret: int, ghost evs: seq<Event>)
      requires c.N() > 0 && c.workers > 0 && Ready(c, servers) && Schedules(c, next)
      modifies `servers, `error, `curOffset
      ensures Run(c, Init(c, old(servers)), evs).Some? && Follows(c, next, Init(c, old(servers)), evs)
      ensures var s := Run(c, Init(c, old(servers)), evs).value;
              AllGone(s) && servers == Turns(c, s.w, theirs) && error == s.error == ret && curOffset == s.cursor
      ensures Returned.LastRecorded(c, evs, ret)
    {
      var s := Init(c, servers);
      evs := [];
      InvInit(c, servers);
      while !AllGone(s)
        invariant Inv(c, s) && Run(c, Init(c, old(servers)), evs) == Some(s)
        invariant Follows(c, next, Init(c, old(servers)), evs)
        decreases Rank(c, s)
      {
        var ev := next(s);
        InvStep(c, s, ev);
        RankDrops(c, s, ev);
        RunOneMore(c, next, Init(c, old(servers)), evs);
        s := Step(c, s, ev).value;
        evs := evs + [ev];
      }
      Returned.LastRecordedWins(c, old(servers), evs);
      servers, error, curOffset := Turns(c, s.w, theirs), s.error, s.cursor;
      ret := error;
    }

    // Only called when no handler is at work, so no descriptor is closed under a write.
    method RemoteClose(answers: seq<CloseAnswer>) returns (firstError: int)
      requires servers.active == {} && |answers| == c.N()
      requires |fileTokens| <= c.N() && forall j :: 0 <= j < |fileTokens| ==> c.targets[j] in servers.nodes
      modifies `servers, `fileTokens, `pending
      ensures var (w, tokens, owed, err) :=
                CloseFrom(c, waitClose, old(servers), old(fileTokens), old(pending), answers, 0, 0);
              servers == w && pending == owed && firstError == err && fileTokens == if err == 0 then [] else tokens
    {
      firstError := 0;
      for i := 0 to |fileTokens|
        invariant servers.nodes.Keys == old(servers.nodes.Keys) && |fileTokens| == |old(fileTokens)|
        invariant CloseFrom(c, waitClose, old(servers), old(fileTokens), old(pending), answers, 0, 0) ==
                  CloseFrom(c, waitClose, servers, fileTokens, pending, answers, i, firstError)
      {
        if fileTokens[i] == [] { continue; }

        var (w, owed, localError) := CloseAt(c, waitClose, servers, i, i in pending, fileTokens[i], answers[i]);
        servers, pending := w, if owed then pending + {i} else pending - {i};
        if localError != 0 && firstError == 0 { firstError := localError; }
        if localError == 0 { fileTokens := fileTokens[i := []]; }
      }
      if firstError == 0 { fileTokens := []; }
    }

    // Closes whatever there is to close: entries without a token stay, and a token
    // without an entry (its close was executed and not heard of) is never got rid of.
    method CloseFile(answers: seq<CloseAnswer>, ghost mine: set<Addr>) returns (ret: int)
      requires servers.active == {} && Closing.AnswersOk(c, answers)
      requires Closable(c, waitClose, servers, fileTokens, pending, mine)
      requires forall j :: 0 <= j < |fileTokens| ==> c.targets[j] in servers.nodes
      modifies `servers, `fileTokens, `pending, `error, `fd
      ensures ret == error && fd == (if old(fd) > 0 then -1 else old(fd))
      ensures Closing.Tells(c, waitClose, old(fileTokens), old(pending), mine, answers, 0, error)
      ensures var (w, tokens, owed, err) :=
                CloseFrom(c, waitClose, old(servers), old(fileTokens), old(pending), answers, 0, 0);
              servers == w && pending == owed && error == err && fileTokens == if err == 0 then [] else tokens
      ensures error == 0 <==> AllHeard(c, waitClose, old(fileTokens), old(pending), mine, answers, 0)
      ensures Closable(c, waitClose, servers, fileTokens, pending,
                       mine - GoneFrom(c, waitClose, old(fileTokens), old(pending), mine, answers, 0))
    {
      ghost var left := mine - GoneFrom(c, waitClose, fileTokens, pending, mine, answers, 0);
      ghost var r := CloseFrom(c, waitClose, servers, fileTokens, pending, answers, 0, 0);
      CloseKeeps(c, waitClose, servers, fileTokens, pending, mine, answers, 0, 0, r, left);
      CloseError(c, waitClose, servers, fileTokens, pending, mine, answers, 0, 0);
      CloseTold(c, waitClose, servers, fileTokens, pending, mine, answers);
      NoTokens(c, waitClose, r.0, r.1, r.2, left);
      error := RemoteClose(answers);
      if fd > 0 { fd := -1; }
      ret := error;
    }

    // The closes that servers do after they have answered.
    method FinishCloses(late: seq<LateClose>)
      requires servers.active == {} && |late| == c.N()
      requires forall j :: j in pending ==> j < c.N() && c.targets[j] in servers.nodes
      modifies `servers, `pending
      ensures pending == {} && servers == FinishFrom(c, old(servers), old(pending), late, 0)
    {
      for i := 0 to c.N()
        invariant pending == old(pending) && servers.nodes.Keys == old(servers.nodes.Keys)
        invariant FinishFrom(c, old(servers), pending, late, 0) == FinishFrom(c, servers, pending, late, i)
      {
        if i in pending { servers := FinishAt(c, servers, i, late[i]); }
      }
      pending := {};
    }

    // The first half of upload_file: send only what could be created. mine are the
    // servers with an entry.
    method CreateAndSend(clientFd: int, errno: int, creates: seq<CreateAnswer>, links: seq<LinkAnswer>,
                         next: State -> Event, theirs: seq<(Addr, FileTable.Table)>,
                         ghost given: set<(Addr, FileTable.Table)>)
      returns (e: int, ghost evs: seq<Event>, ghost mine: set<Addr>)
      requires fileTokens == [] && servers.alone == TablesOf(servers.nodes)
      requires servers.active == {} && servers.log == multiset{}
      requires Reachable(c, servers.nodes, creates) && Linking.AnswersOk(c, links) && errno != 0
      requires c.workers > 0 && Schedules(c, next)
      requires CreatesGiven(c, creates, links, given) && SendsGiven(theirs, given)
      modifies `servers, `fileTokens, `error, `fd, `curOffset
      ensures fd == (if old(fd) >= 0 then old(fd) else clientFd)
      ensures SentAs(c, CreateFrom(c, old(servers), fd >= 0, errno, creates, links), next, evs, e)
      ensures servers.active == {} && servers.nodes.Keys == old(servers.nodes.Keys)
      ensures |fileTokens| == HeardCreates(c, old(servers.alone), fd >= 0, creates)
      ensures mine == Made(c, old(servers.alone), fd >= 0, creates) && Created(c, servers, fileTokens, mine)
      ensures SendTells(c, old(servers.alone), fd >= 0, errno, creates, links, evs, e)
      ensures e == 0 ==> |fileTokens| == c.N() > 0 && AllHolding(c, servers)
      ensures OnlyBy(c, old(servers.alone), servers.alone, given)
      ensures Faults.HopsSuffice(c) ==>
                (e == 0 <==>
                 CanCreate(c, old(servers.alone), fd >= 0, creates, links) && !Repeats.Unrepaired(c.workers, evs))
    {
      ghost var base := servers.alone;
      e, mine := CreateAll(clientFd, errno, creates, links, given);
      evs := [];
      if e == 0 { e, evs := SendCreated(next, theirs, mine, base, given); }
    }

    // CreateFile, and what the others have done meanwhile.
    method CreateAll(clientFd: int, errno: int, creates: seq<CreateAnswer>, links: seq<LinkAnswer>,
                     ghost given: set<(Addr, FileTable.Table)>)
      returns (e: int, ghost mine: set<Addr>)
      requires fileTokens == [] && servers.alone == TablesOf(servers.nodes) && errno != 0
      requires Reachable(c, servers.nodes, creates) && Linking.AnswersOk(c, links)
      requires CreatesGiven(c, creates, links, given)
      modifies `servers, `fileTokens, `error, `fd
      ensures fd == (if old(fd) >= 0 then old(fd) else clientFd)
      ensures (servers, e) == CreateFrom(c, old(servers), fd >= 0, errno, creates, links)
      ensures servers == old(servers).(nodes := servers.nodes, alone := servers.alone)
      ensures servers.nodes.Keys == old(servers.nodes.Keys) && OnlyBy(c, old(servers.alone), servers.alone, given)
      ensures |fileTokens| == HeardCreates(c, old(servers.alone), fd >= 0, creates)
      ensures mine == Made(c, old(servers.alone), fd >= 0, creates) && Created(c, servers, fileTokens, mine)
      ensures e == 0 <==> CanCreate(c, old(servers.alone), fd >= 0, creates, links)
      ensures CreateTells(c, old(servers.alone), fd >= 0, errno, creates, links, e)
      ensures e == 0 ==> |fileTokens| == c.N() > 0 && Ready(c, servers)
    {
      ghost var before := servers;
      e := CreateFile(clientFd, errno, creates, links);
      CreateIsGiven(c, before, fd >= 0, errno, creates, links, given, servers);
      mine := Made(c, before.alone, fd >= 0, creates);
    }

    // SendFile, once all targets are open.
    method SendCreated(next: State -> Event, theirs: seq<(Addr, FileTable.Table)>, ghost mine: set<Addr>,
                       ghost base: Tables, ghost given: set<(Addr, FileTable.Table)>)
      returns (e: int, ghost evs: seq<Event>)
      requires c.N() > 0 && c.workers > 0 && Schedules(c, next) && SendsGiven(theirs, given)
      requires Ready(c, servers) && servers.active == {} && servers.log == multiset{}
      requires Created(c, servers, fileTokens, mine) && OnlyBy(c, base, servers.alone, given)
      modifies `servers, `error, `curOffset
      ensures SendRun(c, old(servers), next, evs, e) && e == error && Returned.LastRecorded(c, evs, e)
      ensures servers.active == {} && servers.nodes.Keys == old(servers.nodes.Keys)
      ensures Created(c, servers, fileTokens, mine) && (e == 0 ==> AllHolding(c, servers))
      ensures OnlyBy(c, base, servers.alone, given)
      ensures Faults.HopsSuffice(c) ==> (e == 0 <==> !Repeats.Unrepaired(c.workers, evs))
    {
      ghost var w := servers;
      e, evs := SendFile(next, theirs);
      SendOutcome(c, w, evs, fileTokens, mine, theirs, given);
      OnlyByTwice(c, base, w.alone, servers.alone, given);
      if Faults.HopsSuffice(c) { Repeats.ZeroIffRepaired(c, w, evs); }
    }

    // upload_file: create, send, and close in any case. Whatever the servers answer
    // and other clients do, and however the send phase is scheduled: no handler is left
    // at work; tried are the creates heard of, up to the first that is not; the entries
    // left are exactly those made and not closed; the tokens left are those of the
    // closes not heard of. Last, exactly when it returns 0, which means that every
    // target holds the source.
    method UploadFile(clientFd: int, errno: int, creates: seq<CreateAnswer>, links: seq<LinkAnswer>,
                      next: State -> Event, theirs: seq<(Addr, FileTable.Table)>, closes: seq<CloseAnswer>,
                      ghost given: set<(Addr, FileTable.Table)>)
      returns (ret: int, e: int, ghost tried: nat, ghost left: set<Addr>, ghost evs: seq<Event>)
      requires fileTokens == [] && pending == {} && servers.alone == TablesOf(servers.nodes)
      requires servers.active == {} && servers.log == multiset{}
      requires Reachable(c, servers.nodes, creates) && Linking.AnswersOk(c, links) && errno != 0
      requires c.workers > 0 && Schedules(c, next) && Closing.AnswersOk(c, closes)
      requires CreatesGiven(c, creates, links, given) && SendsGiven(theirs, given) && ClosesGiven(c, closes, given)
      modifies this
      ensures servers.active == {} && fd <= 0
      ensures var f := if old(fd) >= 0 then old(fd) else clientFd; fd == if f > 0 then -1 else f
      ensures tried == HeardCreates(c, old(servers.alone), Readable(old(fd), clientFd), creates)
      ensures SentAs(c, CreateFrom(c, old(servers), Readable(old(fd), clientFd), errno, creates, links), next, evs, e)
      ensures left == Made(c, old(servers.alone), Readable(old(fd), clientFd), creates)
                      - Closed(c, waitClose, closes, tried)
      ensures Closable(c, waitClose, servers, fileTokens, pending, left)
      ensures error == 0 <==> AllAccepted(c, waitClose, closes, tried)
      ensures fileTokens == if error == 0 then [] else TokensLeft(c, waitClose, closes, tried)
      ensures forall j: nat :: j in pending <==> j < tried && Owing(waitClose, closes[j])
      ensures ret == if e != 0 then e else error
      ensures SendTells(c, old(servers.alone), Readable(old(fd), clientFd), errno, creates, links, evs, e)
      ensures CloseTellsOf(c, waitClose, closes, tried, error)
      ensures ret == 0 ==> tried == c.N() > 0 && AllDelivered(c, waitClose, servers, closes)
      ensures ret == 0 && waitClose ==> TablesOf(servers.nodes) == servers.alone
      ensures OnlyBy(c, old(servers.alone), servers.alone, given)
      ensures Faults.HopsSuffice(c) ==>
                (ret == 0 <==>
                 && CanCreate(c, old(servers.alone), Readable(old(fd), clientFd), creates, links)
                 && !Repeats.Unrepaired(c.workers, evs) && AllAccepted(c, waitClose, closes, c.N()))
    {
      ghost var mine;
      e, evs, mine := CreateAndSend(clientFd, errno, creates, links, next, theirs, given);
      tried := |fileTokens|;
      ghost var sent := servers;
      ret, left := CloseUpload(closes, mine, given);
      OnlyByTwice(c, old(servers.alone), sent.alone, servers.alone, given);
      if ret == 0 && e == 0 {
        AllMine(c, old(servers.alone), creates, mine);
        AllClosed(c, waitClose, sent, servers, tried, mine, closes, pending, left);
      }
      if e != 0 { ret := e; }
    }

    // The second half: CloseFile, for the tokens that the first half has got.
    method CloseUpload(closes: seq<CloseAnswer>, ghost mine: set<Addr>, ghost given: set<(Addr, FileTable.Table)>)
      returns (ret: int, ghost left: set<Addr>)
      requires Created(c, servers, fileTokens, mine) && pending == {} && servers.active == {}
      requires forall j :: 0 <= j < |fileTokens| ==> c.targets[j] in servers.nodes
      requires Closing.AnswersOk(c, closes) && ClosesGiven(c, closes, given)
      modifies `servers, `fileTokens, `pending, `error, `fd
      ensures ret == error && servers.active == {} && fd == (if old(fd) > 0 then -1 else old(fd))
      ensures CloseTellsOf(c, waitClose, closes, |old(fileTokens)|, error)
      ensures left == mine - Closed(c, waitClose, closes, |old(fileTokens)|)
      ensures Closable(c, waitClose, servers, fileTokens, pending, left)
      ensures error == 0 <==> AllAccepted(c, waitClose, closes, |old(fileTokens)|)
      ensures fileTokens == if error == 0 then [] else TokensLeft(c, waitClose, closes, |old(fileTokens)|)
      ensures forall j: nat :: j in pending <==> j < |old(fileTokens)| && Owing(waitClose, closes[j])
      ensures forall j :: 0 <= j < |old(fileTokens)| ==> ClosedDisk(c, waitClose, old(servers), servers, closes, j)
      ensures OnlyBy(c, old(servers.alone), servers.alone, given)
    {
      left := mine - Closed(c, waitClose, closes, |fileTokens|);
      CloseOutcome(c, waitClose, servers, fileTokens, mine, closes, left);
      CloseGiven(c, waitClose, servers, fileTokens, {}, closes, 0, 0, given);
      ghost var tokens := fileTokens;
      ret := CloseFile(closes, mine);
      FirstOfAll(c, waitClose, tokens, mine, closes, error);
    }
  }

  lemma AllMine(c: Config, base: Tables, creates: seq<CreateAnswer>, mine: set<Addr>)
    requires |creates| == c.N() && mine == Made(c, base, true, creates) && HeardCreates(c, base, true, creates) == c.N()
    ensures mine == First(c, c.N())
  {
  }

  // The source file could be opened.
  predicate Readable(fd: int, clientFd: int) { fd >= 0 || clientFd >= 0 }

  // Every target holds the source, or the source padded if its file has not been
  // truncated.
  ghost predicate AllDelivered(c: Config, wait: bool, w: World, closes: seq<CloseAnswer>)
    requires |closes| == c.N()
  {
    forall i :: 0 <= i < c.N() ==>
      && c.targets[i] in w.nodes
      && w.nodes[c.targets[i]].disk ==
         if ClosedBy(wait, false, closes[i].execs) == Some(true) then c.src else Padded(c.src)
  }

  // When every close is accepted: the files, and with wait_close the tables.
  lemma AllClosed(c: Config, wait: bool, w: World, w': World, n: nat, mine: set<Addr>, closes: seq<CloseAnswer>,
                  pending: set<nat>, left: set<Addr>)
    requires n == c.N() == |closes| && AllAccepted(c, wait, closes, n) && mine == First(c, n)
    requires left == mine - Closed(c, wait, closes, n) && Closable(c, wait, w', [], pending, left)
    requires AllHolding(c, w) && forall j :: 0 <= j < n ==> ClosedDisk(c, wait, w, w', closes, j)
    ensures AllDelivered(c, wait, w', closes)
    ensures wait ==> TablesOf(w'.nodes) == w'.alone
  {
    TruncateIsExact(c.src);
    forall i | 0 <= i < n
      ensures c.targets[i] in w'.nodes
      ensures w'.nodes[c.targets[i]].disk ==
              if ClosedBy(wait, false, closes[i].execs) == Some(true) then c.src else Padded(c.src)
    {
      assert ClosedDisk(c, wait, w, w', closes, i) && Holding(c, w, i);
    }
    if wait {
      forall a | a in mine ensures a in Closed(c, wait, closes, n) {
        var j :| 0 <= j < n && c.targets[j] == a;
        WaitingClosesAtOnce(false, closes[j].execs);
        assert Accepts(wait, false, closes[j]) && ClosedBy(wait, false, closes[j].execs).Some?;
      }
      assert left == {};
      NothingLeft(c, w');
    }
  }

  // The error of the first half, and the events of its send phase: those that the
  // scheduler has, from where the creates have left the servers to the end; none if
  // the file could not be created.
  ghost predicate SentAs(c: Config, created: (World, int), next: State -> Event, evs: seq<Event>, e: int) {
    match created.1 == 0 && c.N() > 0
    case true => SendRun(c, created.0, next, evs, e)
    case false => evs == [] && e == created.1
  }

  // The error of the first half, by the answers if the file could not be created and by
  // the events if it could.
  ghost predicate SendTells(c: Config, base: Tables, readable: bool, errno: int, creates: seq<CreateAnswer>,
                            links: seq<LinkAnswer>, evs: seq<Event>, e: int)
    requires |creates| == c.N() == |links| && forall j :: 0 <= j < c.N() ==> Opening.AnswerOk(creates[j])
  {
    match CanCreate(c, base, readable, creates, links)
    case true => Returned.LastRecorded(c, evs, e)
    case false => e != 0 && CreateTells(c, base, readable, errno, creates, links, e)
  }

  // The complete run of the send phase that the scheduler has, and its error.
  ghost predicate SendRun(c: Config, w: World, next: State -> Event, evs: seq<Event>, e: int)
    requires c.N() > 0
  {
    && Run(c, Init(c, w), evs).Some? && AllGone(Run(c, Init(c, w), evs).value)
    && Follows(c, next, Init(c, w), evs) && e == Run(c, Init(c, w), evs).value.error
  }

  /******* In the end *******/

  // The servers that the close of an upload reached.
  function Asked(c: Config, closes: seq<CloseAnswer>, n: nat): set<Addr>
    requires n <= c.N() == |closes|
  {
    set j | 0 <= j < n && closes[j].execs != [] :: c.targets[j]
  }

  // With wait_close or without, once nothing is owed any more: the entries left are
  // those made at servers that no close reached, whether or not the client heard of it.
  lemma LeftInTheEnd(c: Config, wait: bool, closes: seq<CloseAnswer>, n: nat, mine: set<Addr>, pending: set<nat>)
    requires n <= c.N() == |closes| && forall j: nat :: j in pending <==> j < n && Owing(wait, closes[j])
    ensures mine - Closed(c, wait, closes, n) - OwedFrom(c, pending, 0) == mine - Asked(c, closes, n)
  {
    var closed, owed, asked := Closed(c, wait, closes, n), OwedFrom(c, pending, 0), Asked(c, closes, n);
    if wait {
      forall j | 0 <= j < n { WaitingClosesAtOnce(false, closes[j].execs); }
    }
    forall a ensures a in closed || a in owed <==> a in asked {
      if a in closed {
        var j :| 0 <= j < n && ClosedBy(wait, false, closes[j].execs).Some? && c.targets[j] == a;
        assert closes[j].execs != [];
      }
      if a in owed {
        var j :| j in pending && 0 <= j < c.N() && c.targets[j] == a;
        assert closes[j].execs != [];
      }
      if a in asked {
        var j :| 0 <= j < n && closes[j].execs != [] && c.targets[j] == a;
        assert ClosedBy(wait, false, closes[j].execs).Some? || j in pending;
      }
    }
  }

  // After an upload without wait_close, successful or not, the closes owed are
  // carried out: what is left is what a close with wait_close leaves, and closing can
  // go on. If it was successful the tables are those of the others and the targets
  // hold the source.
  lemma LateClosesFinish(c: Config, w: World, tokens: seq<Str>, pending: set<nat>, n: nat, mine: set<Addr>,
                         closes: seq<CloseAnswer>, late: seq<LateClose>)
    requires n <= c.N() == |closes| == |late| && (forall j :: 0 <= j < n ==> c.targets[j] in w.nodes)
    requires Closable(c, false, w, tokens, pending, mine - Closed(c, false, closes, n))
    requires forall j: nat :: j in pending <==> j < n && Owing(false, closes[j])
    ensures var w' := FinishFrom(c, w, pending, late, 0);
            && Closable(c, false, w', tokens, {}, mine - Asked(c, closes, n))
            && (mine == First(c, n) && AllAccepted(c, false, closes, n) ==> TablesOf(w'.nodes) == w'.alone)
            && forall i :: i in pending && Holding(c, w, i) ==>
                 c.targets[i] in w'.nodes &&
                 w'.nodes[c.targets[i]].disk == if late[i].truncated then c.src else Padded(c.src)
  {
    var w' := FinishFrom(c, w, pending, late, 0);
    var left := mine - Closed(c, false, closes, n);
    LeftInTheEnd(c, false, closes, n, mine, pending);
    LateCloseKeeps(c, w, tokens, pending, left, late);
    if mine == First(c, n) && AllAccepted(c, false, closes, n) { NoneLeft(c, w', tokens, n, mine, closes); }
    forall i | i in pending && Holding(c, w, i)
      ensures w'.nodes[c.targets[i]].disk == if late[i].truncated then c.src else Padded(c.src)
    {
      LateDisk(c, w, tokens, pending, left, late, w', i);
    }
  }

  lemma LateDisk(c: Config, w: World, tokens: seq<Str>, pending: set<nat>, mine: set<Addr>, late: seq<LateClose>,
                 w': World, i: nat)
    requires |late| == c.N() && Closable(c, false, w, tokens, pending, mine) && i in pending && Holding(c, w, i)
    requires (forall j :: j in pending ==> c.targets[j] in w.nodes) && w' == FinishFrom(c, w, pending, late, 0)
    ensures w'.nodes[c.targets[i]].disk == if late[i].truncated then c.src else Padded(c.src)
  {
    FinishDisks(c, w, pending, late, 0, mine, w', i);
    TruncateIsExact(c.src);
  }

  lemma NoneLeft(c: Config, w: World, tokens: seq<Str>, n: nat, mine: set<Addr>, closes: seq<CloseAnswer>)
    requires n <= c.N() == |closes| && mine == First(c, n) && AllAccepted(c, false, closes, n)
    requires Closable(c, false, w, tokens, {}, mine - Asked(c, closes, n))
    ensures TablesOf(w.nodes) == w.alone
  {
    forall a | a in mine ensures a in Asked(c, closes, n) {
      var j :| 0 <= j < n && c.targets[j] == a;
      assert Accepts(false, false, closes[j]) && closes[j].execs != [];
    }
    assert mine - Asked(c, closes, n) == {};
    NothingLeft(c, w);
  }
}
