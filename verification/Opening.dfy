// Opening the file on every target: remote_open of src/client/file_sender.cpp
// against handle_create_file of src/server/service.cpp.

module Opening {
  import opened Structures
  import opened Relay
  import opened Entries
  import FileTable

  /******* What the servers answer *******/

  // One execution of a create request.
  datatype CreateExec =
    | NoPlace(e: int)                     // no such partition, or a bad path
    | Os(os: FileTable.OsAnswer)

  // One request: what other clients have done at the server meanwhile, each execution,
  // and the transport error that the client gets in the end, or 0 if it gets the
  // reply of the last execution. (What others do between two executions can as well
  // be told before the first: it is about other entries.)
  datatype CreateAnswer = CreateAnswer(theirs: Option<FileTable.Table>, execs: seq<CreateExec>, lost: int)

  // Failures are reported as failures.
  predicate ExecOk(x: CreateExec) {
    match x
    case NoPlace(e) => Fault(e)
    case Os(NoDirectory) => true
    case Os(NoOpen(errno)) => Fault(-errno)
    case Os(Opened(fd, truncated, errno)) => fd >= 0 && (fd == 0 || !truncated ==> Fault(-errno))
  }

  predicate AnswerOk(ans: CreateAnswer) {
    (ans.execs == [] ==> ans.lost != 0) && forall k :: 0 <= k < |ans.execs| ==> ExecOk(ans.execs[k])
  }

  // handle_create_file: the file is truncated before the token is found to be taken.
  function ServeCreate(c: Config, i: nat, node: Node, x: CreateExec): (Node, int)
    requires i < c.N()
  {
    match x
    case NoPlace(e) => (node, Int16(e))
    case Os(os) =>
      match FileTable.OpenPhase({}, c.chunk, os).1
      case Refused(ret) => (node, Int16(ret))
      case Holding(fd) =>
        var info := FileTable.FileInfo(fd, |c.src|, [], [], c.Token(i), []);
        var (t, ret) := FileTable.Insert(node.fmap, info);
        (Node(t, []), Int16(ret))
  }

  // All executions of one request, and the reply of the last.
  function ServeCreates(c: Config, i: nat, node: Node, execs: seq<CreateExec>): (Node, int)
    requires i < c.N()
  {
    if execs == [] then (node, 0)
    else
      var n := |execs| - 1;
      ServeCreate(c, i, ServeCreates(c, i, node, execs[..n]).0, execs[n])
  }

  // This execution gets as far as the table.
  predicate Opens(c: Config, x: CreateExec) { x.Os? && FileTable.OpenPhase({}, c.chunk, x.os).1.Holding? }

  predicate SomeOpens(c: Config, execs: seq<CreateExec>) {
    exists k :: 0 <= k < |execs| && Opens(c, execs[k])
  }

  // The last execution is the first to get as far as the table.
  predicate LastOpens(c: Config, execs: seq<CreateExec>) {
    execs != [] && Opens(c, execs[|execs| - 1]) && !SomeOpens(c, execs[..|execs| - 1])
  }

  // What requests for the file leave at a server: an entry exactly if the token was
  // free and some execution got as far as the table; and an empty file, whether the
  // token was free or taken, exactly if one did or the file was empty.
  ghost predicate Effect(c: Config, token: Str, before: Node, opens: bool, after: Node) {
    && after.disk == (if opens then [] else before.disk)
    && if token in before.fmap || !opens then after.fmap == before.fmap
       else
         && token in after.fmap && after.fmap == before.fmap[token := after.fmap[token]]
         && after.fmap[token].totalSize == |c.src| && after.fmap[token].targets == []
         && FileTable.ChunkSizeOk(c.chunk)
  }

  // What an execution replies; taken: it finds the token in the table.
  predicate Replies(c: Config, taken: bool, x: CreateExec, r: int) {
    match x
    case NoPlace(e) => r == Int16(e)
    case Os(os) =>
      if !FileTable.ChunkSizeOk(c.chunk) then r == -EINVAL
      else
        match os
        case NoDirectory => r == -ENOTDIR
        case NoOpen(errno) => r == Int16(-errno)
        case Opened(fd, truncated, errno) =>
          if fd == 0 || !truncated then r == Int16(-errno) else if taken then r == -EEXIST else r == 0
  }

  // The last execution replies 0 only if it is the one that made the entry.
  lemma {:induction false} ServeCreatesEffect(c: Config, i: nat, node: Node, execs: seq<CreateExec>)
    requires i < c.N() && forall k :: 0 <= k < |execs| ==> ExecOk(execs[k])
    ensures Effect(c, c.Token(i), node, SomeOpens(c, execs), ServeCreates(c, i, node, execs).0)
    ensures execs != [] ==>
              && (ServeCreates(c, i, node, execs).1 == 0 <==> c.Token(i) !in node.fmap && LastOpens(c, execs))
              && LastReplies(c, c.Token(i) in node.fmap, execs, ServeCreates(c, i, node, execs).1)
    decreases |execs|
  {
    if execs != [] {
      var pre, x := execs[..|execs| - 1], execs[|execs| - 1];
      ServeCreatesEffect(c, i, node, pre);
      SomeOpensSnoc(c, pre, x);
      assert execs == pre + [x];
      ServeCreateEffect(c, i, ServeCreates(c, i, node, pre).0, x);
    }
  }

  // The reply of the last of some executions; taken: the first finds the token in the
  // table.
  predicate LastReplies(c: Config, taken: bool, execs: seq<CreateExec>, r: int)
    requires execs != []
  {
    Replies(c, taken || SomeOpens(c, execs[..|execs| - 1]), execs[|execs| - 1], r)
  }

  // The shortfall: a create of a token that is taken fails, changes no entry, and
  // empties the file all the same.
  lemma TakenIsTruncated(c: Config, i: nat, node: Node, execs: seq<CreateExec>)
    requires i < c.N() && (forall k :: 0 <= k < |execs| ==> ExecOk(execs[k])) && c.Token(i) in node.fmap && execs != []
    ensures var (after, reply) := ServeCreates(c, i, node, execs);
            && reply != 0 && after.fmap == node.fmap
            && (after.disk == node.disk <==> node.disk == [] || !SomeOpens(c, execs))
            && (SomeOpens(c, execs) ==> after.disk == [])
  {
    ServeCreatesEffect(c, i, node, execs);
  }

  lemma SomeOpensSnoc(c: Config, pre: seq<CreateExec>, x: CreateExec)
    ensures SomeOpens(c, pre + [x]) <==> SomeOpens(c, pre) || Opens(c, x)
  {
    var execs := pre + [x];
    if k :| 0 <= k < |pre| && Opens(c, pre[k]) { assert Opens(c, execs[k]); }
    if Opens(c, x) { assert Opens(c, execs[|pre|]); }
    if k :| 0 <= k < |execs| && Opens(c, execs[k]) { assert k == |pre| || Opens(c, pre[k]); }
  }

  lemma ServeCreateEffect(c: Config, i: nat, node: Node, x: CreateExec)
    requires i < c.N() && ExecOk(x)
    ensures Effect(c, c.Token(i), node, Opens(c, x), ServeCreate(c, i, node, x).0)
    ensures ServeCreate(c, i, node, x).1 == 0 <==> c.Token(i) !in node.fmap && Opens(c, x)
    ensures Replies(c, c.Token(i) in node.fmap, x, ServeCreate(c, i, node, x).1)
  {
  }

  /******* The loop *******/

  // A target that cannot be reached is a server that never executes anything.
  predicate Reachable(c: Config, nodes: map<Addr, Node>, answers: seq<CreateAnswer>) {
    && |answers| == c.N()
    && forall i :: 0 <= i < c.N() ==> c.targets[i] in nodes && c.Token(i) != [] && AnswerOk(answers[i])
  }

  // One request to target i.
  function CreateAt(c: Config, w: World, i: nat, ans: CreateAnswer): (r: (World, int))
    requires i < c.N() && c.targets[i] in w.nodes
    ensures r.0.nodes.Keys == w.nodes.Keys && r.0 == w.(nodes := r.0.nodes, alone := r.0.alone)
  {
    var w1 := Turn(c, w, c.targets[i], ans.theirs);
    var (node, r) := ServeCreates(c, i, w1.nodes[c.targets[i]], ans.execs);
    (Served(w1, c.targets[i], node), if ans.lost != 0 then ans.lost else r)
  }

  // remote_open from target |tokens| on: the servers, the tokens and the error.
  function OpenFrom(c: Config, w: World, answers: seq<CreateAnswer>, tokens: seq<Str>): (r: (World, seq<Str>, int))
    requires Reachable(c, w.nodes, answers) && |tokens| <= c.N()
    ensures r.0.nodes.Keys == w.nodes.Keys && r.0 == w.(nodes := r.0.nodes, alone := r.0.alone)
    ensures tokens <= r.1 && |r.1| <= c.N()
    decreases c.N() - |tokens|
  {
    var i := |tokens|;
    if i == c.N() then (w, tokens, 0)
    else
      var (w1, err) := CreateAt(c, w, i, answers[i]);
      if err != 0 then (w1, tokens, err) else OpenFrom(c, w1, answers, tokens + [c.Token(i)])
  }

  // The targets that have handed out a token hold a fresh entry for an empty file.
  ghost predicate Opened(c: Config, w: World, tokens: seq<Str>, mine: set<Addr>) {
    && TokensOk(c, tokens) && Ledger(c, w, mine) && Live(c, tokens) <= mine
    && (forall i :: 0 <= i < |tokens| ==> tokens[i] != [])
    && (tokens != [] ==> FileTable.ChunkSizeOk(c.chunk))
    && forall i :: 0 <= i < |tokens| ==> EntryAt(c, w.nodes, i, []) && w.nodes[c.targets[i]].disk == []
  }

  // The one entry that may be left without its token in the client's hands: a create
  // made it, and the client was told of an error.
  function Orphans(c: Config, base: Tables, answers: seq<CreateAnswer>, n: nat): set<Addr>
    requires |answers| == c.N()
  {
    if n < c.N() && c.targets[n] in base && c.TokenAt(c.targets[n]) !in base[c.targets[n]]
       && c.targets[n] !in c.targets[..n] && SomeOpens(c, answers[n].execs) && !MadeAt(c, base, answers, n)
    then {c.targets[n]} else {}
  }

  // Every create from target i on makes an entry, at a server that has none yet, and
  // the client hears of it.
  predicate AllMade(c: Config, base: Tables, answers: seq<CreateAnswer>, i: nat)
    requires |answers| == c.N()
  {
    forall j :: i <= j < c.N() ==> MadeAt(c, base, answers, j)
  }

  predicate MadeAt(c: Config, base: Tables, answers: seq<CreateAnswer>, j: nat)
    requires j < c.N() == |answers|
  {
    && answers[j].lost == 0 && LastOpens(c, answers[j].execs) && c.targets[j] !in c.targets[..j]
    && c.targets[j] in base && c.TokenAt(c.targets[j]) !in base[c.targets[j]]
  }

  // What the client is told of a create that it does not hear of: that it was lost, or
  // the reply of its last execution.
  predicate Told(c: Config, base: Tables, answers: seq<CreateAnswer>, n: nat, err: int)
    requires n < c.N() == |answers| && AnswerOk(answers[n])
  {
    var a := c.targets[n];
    if answers[n].lost != 0 then err == answers[n].lost
    else
      a in base && LastReplies(c, c.TokenAt(a) in base[a] || a in c.targets[..n], answers[n].execs, err)
  }

  // How many creates from target i on the client hears of, one after the other.
  function HeardOf(c: Config, base: Tables, answers: seq<CreateAnswer>, i: nat): (n: nat)
    requires i <= c.N() == |answers|
    ensures i <= n <= c.N()
    decreases c.N() - i
  {
    if i < c.N() && MadeAt(c, base, answers, i) then HeardOf(c, base, answers, i + 1) else i
  }

  lemma LiveIsPrefix(c: Config, tokens: seq<Str>)
    requires |tokens| <= c.N() && forall i :: 0 <= i < |tokens| ==> tokens[i] != []
    ensures forall a :: a in Live(c, tokens) <==> a in c.targets[..|tokens|]
  {
    forall a | a in c.targets[..|tokens|] ensures a in Live(c, tokens) {
      var i :| 0 <= i < |tokens| && c.targets[i] == a;
      assert tokens[i] != [];
    }
  }

  lemma TurnKeepsOpened(c: Config, w: World, a: Addr, t: Option<FileTable.Table>, tokens: seq<Str>)
    requires |tokens| <= c.N() && Opened(c, w, tokens, Live(c, tokens))
    ensures Opened(c, Turn(c, w, a, t), tokens, Live(c, tokens)) && SameTaken(c, w.alone, Turn(c, w, a, t).alone)
  {
    var nodes := Turn(c, w, a, t).nodes;
    TurnKeeps(c, w, a, t, Live(c, tokens));
    forall j | 0 <= j < |tokens| ensures EntryAt(c, nodes, j, []) && nodes[c.targets[j]].disk == [] {
      assert EntryAt(c, w.nodes, j, []);
      TurnKeepsOwn(c, w, a, t, c.targets[j]);
    }
  }

  // The token is taken at target i by somebody else, or because the target is listed
  // twice; or it is free.
  lemma TokenThere(c: Config, w: World, tokens: seq<Str>)
    requires |tokens| < c.N() && c.targets[|tokens|] in w.nodes && Opened(c, w, tokens, Live(c, tokens))
    ensures var a := c.targets[|tokens|];
            c.TokenAt(a) in w.nodes[a].fmap <==> c.TokenAt(a) in w.alone[a] || a in c.targets[..|tokens|]
  {
    var a := c.targets[|tokens|];
    assert LedgerAt(c.TokenAt(a), |c.src|, w.alone[a], w.nodes[a].fmap, a in Live(c, tokens));
    LiveIsPrefix(c, tokens);
  }

  // If some execution has made an entry it is there, whether the client has heard of
  // it or not.
  lemma CreateLeaves(c: Config, w: World, tokens: seq<Str>, opens: bool, node: Node, orphans: set<Addr>)
    requires |tokens| < c.N() && c.targets[|tokens|] in w.nodes && Opened(c, w, tokens, Live(c, tokens))
    requires Effect(c, c.Token(|tokens|), w.nodes[c.targets[|tokens|]], opens, node)
    requires var a := c.targets[|tokens|];
             orphans == if c.TokenAt(a) !in w.alone[a] && a !in c.targets[..|tokens|] && opens then {a} else {}
    ensures Opened(c, Served(w, c.targets[|tokens|], node), tokens, Live(c, tokens) + orphans)
  {
    var a, live := c.targets[|tokens|], Live(c, tokens);
    var nodes' := w.nodes[a := node];
    TokenThere(c, w, tokens);
    LiveIsPrefix(c, tokens);
    assert LedgerAt(c.TokenAt(a), |c.src|, w.alone[a], w.nodes[a].fmap, a in live);
    assert LedgerAt(c.TokenAt(a), |c.src|, w.alone[a], node.fmap, a in live + orphans);
    ServedKeeps(c, w, live, a, node, live + orphans);
    forall j | 0 <= j < |tokens| ensures EntryAt(c, nodes', j, []) && nodes'[c.targets[j]].disk == [] {
      assert EntryAt(c, w.nodes, j, []);
    }
  }

  lemma OneMoreToken(c: Config, tokens: seq<Str>)
    requires |tokens| < c.N() && TokensOk(c, tokens) && c.Token(|tokens|) != []
    requires c.targets[|tokens|] !in c.targets[..|tokens|]
    ensures var tokens' := tokens + [c.Token(|tokens|)];
            TokensOk(c, tokens') && Live(c, tokens') == Live(c, tokens) + {c.targets[|tokens|]}
  {
    var tokens' := tokens + [c.Token(|tokens|)];
    forall i, j | 0 <= i < j < |tokens'| ensures c.targets[i] != c.targets[j] {
      if j == |tokens| { assert c.targets[..|tokens|][i] == c.targets[i]; }
    }
    forall a | a in Live(c, tokens) + {c.targets[|tokens|]} ensures a in Live(c, tokens') {
      if a == c.targets[|tokens|] {
        assert tokens'[|tokens|] != [];
      } else {
        var i :| 0 <= i < |tokens| && tokens[i] != [] && c.targets[i] == a;
        assert tokens'[i] == tokens[i];
      }
    }
  }

  // The token is added to the client's once its entry is there.
  lemma TokenAdded(c: Config, w: World, tokens: seq<Str>)
    requires |tokens| < c.N() && c.targets[|tokens|] !in c.targets[..|tokens|] && c.Token(|tokens|) != []
    requires Opened(c, w, tokens, Live(c, tokens) + {c.targets[|tokens|]}) && FileTable.ChunkSizeOk(c.chunk)
    requires EntryAt(c, w.nodes, |tokens|, []) && w.nodes[c.targets[|tokens|]].disk == []
    ensures var tokens' := tokens + [c.Token(|tokens|)]; Opened(c, w, tokens', Live(c, tokens'))
  {
    OneMoreToken(c, tokens);
    forall j | 0 <= j < |tokens| ensures EntryAt(c, w.nodes, j, []) && w.nodes[c.targets[j]].disk == [] {}
  }

  // What one create comes to: w is the state after it.
  ghost predicate CreateDone(c: Config, base: Tables, w: World, answers: seq<CreateAnswer>, tokens: seq<Str>, err: int)
    requires |tokens| < c.N() == |answers| && AnswerOk(answers[|tokens|])
  {
    match err == 0
    case true =>
      && MadeAt(c, base, answers, |tokens|) && FileTable.ChunkSizeOk(c.chunk)
      && Opened(c, w, tokens, Live(c, tokens) + {c.targets[|tokens|]})
      && EntryAt(c, w.nodes, |tokens|, []) && w.nodes[c.targets[|tokens|]].disk == []
    case false =>
      && !MadeAt(c, base, answers, |tokens|) && Told(c, base, answers, |tokens|, err)
      && Opened(c, w, tokens, Live(c, tokens) + Orphans(c, base, answers, |tokens|))
  }

  lemma CreateServed(c: Config, base: Tables, w: World, answers: seq<CreateAnswer>, tokens: seq<Str>, node: Node,
                     r: int)
    requires |tokens| < c.N() == |answers| && c.targets[|tokens|] in w.nodes && AnswerOk(answers[|tokens|])
    requires Opened(c, w, tokens, Live(c, tokens)) && SameTaken(c, base, w.alone)
    requires var a := c.targets[|tokens|];
             var execs := answers[|tokens|].execs;
             && Effect(c, c.TokenAt(a), w.nodes[a], SomeOpens(c, execs), node)
             && (execs != [] ==> (r == 0 <==> c.TokenAt(a) !in w.nodes[a].fmap && LastOpens(c, execs)))
             && (execs != [] ==> LastReplies(c, c.TokenAt(a) in w.nodes[a].fmap, execs, r))
    ensures var err := if answers[|tokens|].lost != 0 then answers[|tokens|].lost else r;
            CreateDone(c, base, Served(w, c.targets[|tokens|], node), answers, tokens, err)
  {
    var i := |tokens|;
    TokenThere(c, w, tokens);
    if LastOpens(c, answers[i].execs) { assert SomeOpens(c, answers[i].execs); }
    var added := if MadeAt(c, base, answers, i) then {c.targets[i]} else Orphans(c, base, answers, i);
    CreateLeaves(c, w, tokens, SomeOpens(c, answers[i].execs), node, added);
  }

  // One create: it succeeds exactly if its last execution makes the entry, at a
  // server with none yet.
  lemma CreateEffect(c: Config, base: Tables, w: World, answers: seq<CreateAnswer>, tokens: seq<Str>)
    requires Reachable(c, w.nodes, answers) && |tokens| < c.N() && SameTaken(c, base, w.alone)
    requires Opened(c, w, tokens, Live(c, tokens))
    ensures var (w1, err) := CreateAt(c, w, |tokens|, answers[|tokens|]);
            CreateDone(c, base, w1, answers, tokens, err) && SameTaken(c, base, w1.alone)
  {
    var i := |tokens|;
    var w1 := Turn(c, w, c.targets[i], answers[i].theirs);
    var (node, r) := ServeCreates(c, i, w1.nodes[c.targets[i]], answers[i].execs);
    TurnKeepsOpened(c, w, c.targets[i], answers[i].theirs, tokens);
    ServeCreatesEffect(c, i, w1.nodes[c.targets[i]], answers[i].execs);
    CreateServed(c, base, w1, answers, tokens, node, r);
  }

  // It is the first create that it does not hear of.
  lemma {:induction false} HeardIsFirst(c: Config, base: Tables, answers: seq<CreateAnswer>, i: nat)
    requires i <= c.N() == |answers|
    ensures var n := HeardOf(c, base, answers, i);
            && (forall j :: i <= j < n ==> MadeAt(c, base, answers, j))
            && (n < c.N() ==> !MadeAt(c, base, answers, n))
    decreases c.N() - i
  {
    if i < c.N() && MadeAt(c, base, answers, i) { HeardIsFirst(c, base, answers, i + 1); }
  }

  lemma HearingAll(c: Config, base: Tables, answers: seq<CreateAnswer>, i: nat)
    requires i <= c.N() == |answers|
    ensures HeardOf(c, base, answers, i) == c.N() <==> AllMade(c, base, answers, i)
  {
    HeardIsFirst(c, base, answers, i);
  }

  // One round: the client has one more token, or is done.
  ghost predicate Round(c: Config, base: Tables, w: World, answers: seq<CreateAnswer>, tokens: seq<Str>, err: int)
    requires |tokens| < c.N() == |answers| && AnswerOk(answers[|tokens|])
  {
    match err == 0
    case true =>
      var tokens' := tokens + [c.Token(|tokens|)];
      MadeAt(c, base, answers, |tokens|) && OpenedSo(c, base, w, tokens', Live(c, tokens'))
    case false =>
      !MadeAt(c, base, answers, |tokens|) && Told(c, base, answers, |tokens|, err) &&
      OpenedSo(c, base, w, tokens, Live(c, tokens) + Orphans(c, base, answers, |tokens|))
  }

  ghost predicate OpenedSo(c: Config, base: Tables, w: World, tokens: seq<Str>, mine: set<Addr>) {
    Opened(c, w, tokens, mine) && SameTaken(c, base, w.alone)
  }

  lemma CreateRound(c: Config, base: Tables, w: World, answers: seq<CreateAnswer>, tokens: seq<Str>)
    returns (w1: World, err: int)
    requires Reachable(c, w.nodes, answers) && |tokens| < c.N() && OpenedSo(c, base, w, tokens, Live(c, tokens))
    ensures Round(c, base, w1, answers, tokens, err) && w1.nodes.Keys == w.nodes.Keys
    ensures OpenFrom(c, w, answers, tokens) ==
            if err != 0 then (w1, tokens, err) else OpenFrom(c, w1, answers, tokens + [c.Token(|tokens|)])
  {
    w1, err := CreateAt(c, w, |tokens|, answers[|tokens|]).0, CreateAt(c, w, |tokens|, answers[|tokens|]).1;
    CreateEffect(c, base, w, answers, tokens);
    if err == 0 { TokenAdded(c, w1, tokens); }
  }

  lemma {:induction false} OpenEntries(c: Config, base: Tables, w: World, answers: seq<CreateAnswer>, tokens: seq<Str>)
    requires Reachable(c, w.nodes, answers) && |tokens| <= c.N() && OpenedSo(c, base, w, tokens, Live(c, tokens))
    ensures var (w', tokens', err) := OpenFrom(c, w, answers, tokens);
            OpenedSo(c, base, w', tokens', Live(c, tokens') + Orphans(c, base, answers, |tokens'|))
    decreases c.N() - |tokens|
  {
    if |tokens| == c.N() {
      assert Live(c, tokens) + Orphans(c, base, answers, |tokens|) == Live(c, tokens);
    } else {
      var w1, err := CreateRound(c, base, w, answers, tokens);
      if err == 0 { OpenEntries(c, base, w1, answers, tokens + [c.Token(|tokens|)]); }
    }
  }

  lemma {:induction false} OpenTokens(c: Config, base: Tables, w: World, answers: seq<CreateAnswer>, tokens: seq<Str>)
    requires Reachable(c, w.nodes, answers) && |tokens| <= c.N() && OpenedSo(c, base, w, tokens, Live(c, tokens))
    ensures var (w', tokens', err) := OpenFrom(c, w, answers, tokens);
            |tokens'| == HeardOf(c, base, answers, |tokens|) && (err == 0 <==> |tokens'| == c.N())
    decreases c.N() - |tokens|
  {
    if |tokens| < c.N() {
      var w1, err := CreateRound(c, base, w, answers, tokens);
      if err == 0 { OpenTokens(c, base, w1, answers, tokens + [c.Token(|tokens|)]); }
    }
  }

  lemma {:induction false} OpenTells(c: Config, base: Tables, w: World, answers: seq<CreateAnswer>, tokens: seq<Str>,
                                     n: nat, err: int)
    requires Reachable(c, w.nodes, answers) && |tokens| <= c.N() && OpenedSo(c, base, w, tokens, Live(c, tokens))
    requires n == |OpenFrom(c, w, answers, tokens).1| && err == OpenFrom(c, w, answers, tokens).2 != 0
    ensures n < c.N() && Told(c, base, answers, n, err)
    decreases c.N() - |tokens|
  {
    if |tokens| < c.N() {
      var w1, e := CreateRound(c, base, w, answers, tokens);
      if e == 0 { OpenTells(c, base, w1, answers, tokens + [c.Token(|tokens|)], n, err); }
    }
  }

  // Whatever is answered, executed, lost or repeated: the client gets the tokens up to
  // the first create that it does not hear of; the targets with a token hold an entry,
  // and so does the orphan, if there is one, and nobody else; success needs every
  // create to make its entry on a server of its own.
  lemma OpenIsExact(c: Config, base: Tables, w: World, answers: seq<CreateAnswer>, tokens: seq<Str>)
    requires Reachable(c, w.nodes, answers) && |tokens| <= c.N() && SameTaken(c, base, w.alone)
    requires Opened(c, w, tokens, Live(c, tokens))
    ensures var (w', tokens', err) := OpenFrom(c, w, answers, tokens);
            && Opened(c, w', tokens', Live(c, tokens') + Orphans(c, base, answers, |tokens'|))
            && SameTaken(c, base, w'.alone) && |tokens'| == HeardOf(c, base, answers, |tokens|)
            && (err == 0 <==> |tokens'| == c.N()) && (err == 0 <==> AllMade(c, base, answers, |tokens|))
            && (err != 0 ==> Told(c, base, answers, |tokens'|, err))
  {
    OpenEntries(c, base, w, answers, tokens);
    OpenTokens(c, base, w, answers, tokens);
    HearingAll(c, base, answers, |tokens|);
    var (_, tokens', err) := OpenFrom(c, w, answers, tokens);
    if err != 0 { OpenTells(c, base, w, answers, tokens, |tokens'|, err); }
  }

  // What other clients do is what the answers say, and nothing else.
  lemma {:induction false} OpenGiven(c: Config, w: World, answers: seq<CreateAnswer>, tokens: seq<Str>,
                                     given: set<(Addr, FileTable.Table)>)
    requires Reachable(c, w.nodes, answers) && |tokens| <= c.N()
    requires forall j :: 0 <= j < c.N() && answers[j].theirs.Some? ==> (c.targets[j], answers[j].theirs.value) in given
    ensures OnlyBy(c, w.alone, OpenFrom(c, w, answers, tokens).0.alone, given)
    decreases c.N() - |tokens|
  {
    var i := |tokens|;
    if i < c.N() {
      var (w1, err) := CreateAt(c, w, i, answers[i]);
      TurnIsGiven(c, w, c.targets[i], answers[i].theirs, given);
      if err == 0 {
        OpenGiven(c, w1, answers, tokens + [c.Token(i)], given);
        OnlyByTwice(c, w.alone, w1.alone, OpenFrom(c, w, answers, tokens).0.alone, given);
      }
    }
  }
}
