// Closing the file on every target: remote_close of src/client/file_sender.cpp
// against handle_close_file of src/server/service.cpp.

module Closing {
  import opened Structures
  import opened Disk
  import opened Relay
  import opened Entries
  import FileTable

  /******* What the servers answer *******/

  // One execution. Without wait_close a server answers once it has found the entry,
  // and closes it afterwards; caughtUp: it has done what it owed from earlier
  // executions before this one.
  datatype CloseExec = CloseExec(truncated: bool, caughtUp: bool)

  // One request: other clients' turn at the server, each execution, and the transport
  // error in the end, or 0.
  datatype CloseAnswer = CloseAnswer(theirs: Option<FileTable.Table>, execs: seq<CloseExec>, lost: int)

  predicate AnswerOk(ans: CloseAnswer) { ans.execs == [] ==> ans.lost != 0 }

  predicate AnswersOk(c: Config, answers: seq<CloseAnswer>) {
    |answers| == c.N() && forall j :: 0 <= j < c.N() ==> AnswerOk(answers[j])
  }

  // FileManager::close_file; the result of ftruncate is ignored.
  function CloseEntry(node: Node, token: Str, truncated: bool): Node {
    if token !in node.fmap then node
    else
      Node(FileTable.Erase(node.fmap, token).0,
           if truncated then Truncate(node.disk, node.fmap[token].totalSize) else node.disk)
  }

  // handle_close_file: the server, whether it owes a close, and the reply.
  function ServeClose(wait: bool, node: Node, owed: bool, token: Str, x: CloseExec): (Node, bool, int) {
    if wait then (CloseEntry(node, token, x.truncated), owed, Int16(FileTable.Erase(node.fmap, token).1))
    else
      var caught := owed && x.caughtUp;
      var n := if caught then CloseEntry(node, token, x.truncated) else node;
      if token in n.fmap then (n, true, 0) else (n, owed && !caught, Int16(ERR_NO_FILE))
  }

  // All executions of one request, and the reply of the last.
  function ServeCloses(wait: bool, node: Node, owed: bool, token: Str, execs: seq<CloseExec>): (Node, bool, int) {
    if execs == [] then (node, owed, 0)
    else
      var (n, o, _) := ServeCloses(wait, node, owed, token, execs[..|execs| - 1]);
      ServeClose(wait, n, o, token, execs[|execs| - 1])
  }

  // Whether some execution closes the entry, and if so how its ftruncate ends. With
  // wait_close the first one does; without it, one that catches up on a close owed.
  function ClosedBy(wait: bool, owed: bool, execs: seq<CloseExec>): Option<bool> {
    if execs == [] then None
    else
      var pre, x := execs[..|execs| - 1], execs[|execs| - 1];
      match ClosedBy(wait, owed, pre)
      case Some(truncated) => Some(truncated)
      case None => if wait || ((owed || pre != []) && x.caughtUp) then Some(x.truncated) else None
  }

  // The client hears of a 0.
  predicate Accepts(wait: bool, owed: bool, ans: CloseAnswer) {
    && ans.lost == 0 && ans.execs != []
    && if wait then |ans.execs| == 1 else ClosedBy(wait, owed, ans.execs).None?
  }

  // What the client is told of a close that it does not hear of: that it was lost, or
  // that there is no entry.
  function Failure(wait: bool, ans: CloseAnswer): int {
    if ans.lost != 0 then ans.lost else if wait then -ENOENT else ERR_NO_FILE
  }

  lemma {:induction false} WaitingClosesAtOnce(owed: bool, execs: seq<CloseExec>)
    ensures ClosedBy(true, owed, execs) == if execs == [] then None else Some(execs[0].truncated)
    decreases |execs|
  {
    if execs != [] { WaitingClosesAtOnce(owed, execs[..|execs| - 1]); }
  }

  // What any number of executions leave of an entry, of its file and of a close owed,
  // and what the last of them replies.
  ghost predicate Effect(wait: bool, node: Node, owed: bool, token: Str, execs: seq<CloseExec>, r: (Node, bool, int)) {
    var how := ClosedBy(wait, owed, execs);
    if token in node.fmap then
      && r.0 == (if how.Some? then CloseEntry(node, token, how.value) else node)
      && r.1 == (how.None? && (owed || (!wait && execs != [])))
      && (execs != [] ==> (r.2 == 0 <==> if wait then |execs| == 1 else how.None?))
    else r.0 == node && !r.1 && (execs != [] ==> r.2 != 0)
  }

  lemma {:induction false} ServeClosesEffect(wait: bool, node: Node, owed: bool, token: Str, execs: seq<CloseExec>)
    requires (wait ==> !owed) && (owed ==> token in node.fmap)
    ensures Effect(wait, node, owed, token, execs, ServeCloses(wait, node, owed, token, execs))
    decreases |execs|
  {
    if execs != [] {
      var pre := execs[..|execs| - 1];
      ServeClosesEffect(wait, node, owed, token, pre);
      if wait { WaitingClosesAtOnce(owed, pre); }
    }
  }

  /******* The loop *******/

  // One request to target i.
  function CloseAt(c: Config, wait: bool, w: World, i: nat, owed: bool, token: Str, ans: CloseAnswer)
    : (r: (World, bool, int))
    requires i < c.N() && c.targets[i] in w.nodes
    ensures r.0.nodes.Keys == w.nodes.Keys && r.0 == w.(nodes := r.0.nodes, alone := r.0.alone)
  {
    var w1 := Turn(c, w, c.targets[i], ans.theirs);
    var (node, o, r) := ServeCloses(wait, w1.nodes[c.targets[i]], owed, token, ans.execs);
    (Served(w1, c.targets[i], node), o, if ans.lost != 0 then ans.lost else r)
  }

  // One round: an empty token is skipped, a successful close empties it. pending are
  // the targets that have answered and still have to close.
  function CloseOne(c: Config, wait: bool, w: World, tokens: seq<Str>, pending: set<nat>, i: nat, ans: CloseAnswer)
    : (r: (World, seq<Str>, set<nat>, int))
    requires i < |tokens| <= c.N() && c.targets[i] in w.nodes
    ensures |r.1| == |tokens| && r.0.nodes.Keys == w.nodes.Keys && r.0 == w.(nodes := r.0.nodes, alone := r.0.alone)
  {
    if tokens[i] == [] then (w, tokens, pending, 0)
    else
      var (w1, owed, err) := CloseAt(c, wait, w, i, i in pending, tokens[i], ans);
      (w1, if err == 0 then tokens[i := []] else tokens, if owed then pending + {i} else pending - {i}, err)
  }

  function CloseFrom(c: Config, wait: bool, w: World, tokens: seq<Str>, pending: set<nat>, answers: seq<CloseAnswer>,
                     i: nat, first: int)
    : (r: (World, seq<Str>, set<nat>, int))
    requires i <= |tokens| <= c.N() == |answers|
    requires forall j :: 0 <= j < |tokens| ==> c.targets[j] in w.nodes
    ensures |r.1| == |tokens| && r.0.nodes.Keys == w.nodes.Keys && r.0 == w.(nodes := r.0.nodes, alone := r.0.alone)
    decreases |tokens| - i
  {
    if i == |tokens| then (w, tokens, pending, first)
    else
      var (w1, tokens1, pending1, err) := CloseOne(c, wait, w, tokens, pending, i, answers[i]);
      CloseFrom(c, wait, w1, tokens1, pending1, answers, i + 1, if first == 0 then err else first)
  }

  // The client's tokens and the closes owed, against the entries there are (mine).
  // A token may be left whose entry is gone: its close was executed and not heard of.
  ghost predicate Closable(c: Config, wait: bool, w: World, tokens: seq<Str>, pending: set<nat>, mine: set<Addr>) {
    match wait
    case true => Books(c, w, tokens, mine) && pending == {}
    case false => Books(c, w, tokens, mine) && PendingOk(c, tokens, pending, mine)
  }

  ghost predicate Books(c: Config, w: World, tokens: seq<Str>, mine: set<Addr>) {
    TokensOk(c, tokens) && Ledger(c, w, mine) && forall j :: 0 <= j < |tokens| ==> Free(c, w, j)
  }

  // Nobody else has the token at target j.
  ghost predicate Free(c: Config, w: World, j: nat)
    requires j < c.N()
  {
    var a := c.targets[j];
    a in w.nodes && a in w.alone && c.TokenAt(a) !in w.alone[a]
  }

  ghost predicate PendingOk(c: Config, tokens: seq<Str>, pending: set<nat>, mine: set<Addr>) {
    && (forall i :: i in pending ==> i < c.N() && c.targets[i] in mine)
    && (forall i, j :: i in pending && j in pending && i != j ==> c.targets[i] != c.targets[j])
    && (forall i, j :: i in pending && 0 <= j < |tokens| && j < c.N() && i != j ==> c.targets[i] != c.targets[j])
  }

  // The entry of target j goes, the client is told of a 0, and the close is owed.
  predicate Goes(c: Config, wait: bool, tokens: seq<Str>, pending: set<nat>, mine: set<Addr>, j: nat, ans: CloseAnswer)
    requires j < |tokens| <= c.N()
  {
    tokens[j] != [] && c.targets[j] in mine && ClosedBy(wait, j in pending, ans.execs).Some?
  }

  predicate Heard(c: Config, wait: bool, tokens: seq<Str>, pending: set<nat>, mine: set<Addr>, j: nat, ans: CloseAnswer)
    requires j < |tokens| <= c.N()
  {
    tokens[j] != [] && c.targets[j] in mine && Accepts(wait, j in pending, ans)
  }

  predicate Owes(c: Config, wait: bool, tokens: seq<Str>, pending: set<nat>, mine: set<Addr>, j: nat, ans: CloseAnswer)
    requires j < |tokens| <= c.N()
  {
    && (j in pending || (!wait && tokens[j] != [] && c.targets[j] in mine && ans.execs != []))
    && !Goes(c, wait, tokens, pending, mine, j, ans)
  }

  predicate HeardOrEmpty(c: Config, wait: bool, tokens: seq<Str>, pending: set<nat>, mine: set<Addr>, j: nat,
                         ans: CloseAnswer)
    requires j < |tokens| <= c.N()
  {
    tokens[j] == [] || Heard(c, wait, tokens, pending, mine, j, ans)
  }

  /******* One request *******/

  lemma CloseEntryKeeps(token: Str, size: nat, theirs: FileTable.Table, node: Node, truncated: bool)
    requires LedgerAt(token, size, theirs, node.fmap, true)
    ensures LedgerAt(token, size, theirs, CloseEntry(node, token, truncated).fmap, false)
    ensures CloseEntry(node, token, truncated).disk == if truncated then Truncate(node.disk, size) else node.disk
  {
  }

  // The server that is asked, and all others.
  lemma CloseAtEffect(c: Config, wait: bool, w: World, i: nat, owed: bool, ans: CloseAnswer, mine: set<Addr>)
    requires i < c.N() && Free(c, w, i) && Ledger(c, w, mine) && AnswerOk(ans)
    requires (wait ==> !owed) && (owed ==> c.targets[i] in mine)
    ensures var (w', o, err) := CloseAt(c, wait, w, i, owed, c.Token(i), ans);
            var a := c.targets[i];
            var how := ClosedBy(wait, owed, ans.execs);
            && Ledger(c, w', if a in mine && how.Some? then mine - {a} else mine) && SameTaken(c, w.alone, w'.alone)
            && (err == 0 <==> a in mine && Accepts(wait, owed, ans))
            && o == (a in mine && how.None? && (owed || (!wait && ans.execs != [])))
            && (forall b :: b in w.nodes && b != a ==> w'.nodes[b] == w.nodes[b])
            && w'.nodes[a].disk == DiskAfter(c, w.nodes[a].disk, if a in mine then how else None)
  {
    var a := c.targets[i];
    var w1 := Turn(c, w, a, ans.theirs);
    var node := w1.nodes[a];
    var r := ServeCloses(wait, node, owed, c.Token(i), ans.execs);
    var how := ClosedBy(wait, owed, ans.execs);
    TurnKeeps(c, w, a, ans.theirs, mine);
    TurnKeepsOwn(c, w, a, ans.theirs, a);
    assert LedgerAt(c.TokenAt(a), |c.src|, w1.alone[a], node.fmap, a in mine);
    assert c.TokenAt(a) in node.fmap <==> a in mine;
    ServeClosesEffect(wait, node, owed, c.Token(i), ans.execs);
    if a in mine && how.Some? { CloseEntryKeeps(c.TokenAt(a), |c.src|, w1.alone[a], node, how.value); }
    ServedKeeps(c, w1, mine, a, r.0, if a in mine && how.Some? then mine - {a} else mine);
  }

  // The file of a closed entry.
  function DiskAfter(c: Config, disk: seq<byte>, how: Option<bool>): seq<byte> {
    if how == Some(true) then Truncate(disk, |c.src|) else disk
  }

  // The entries without target i's, if it goes.
  function Minus(c: Config, wait: bool, tokens: seq<Str>, pending: set<nat>, mine: set<Addr>, i: nat, ans: CloseAnswer)
    : set<Addr>
    requires i < |tokens| <= c.N()
  {
    mine - if Goes(c, wait, tokens, pending, mine, i, ans) then {c.targets[i]} else {}
  }

  // One round, for all that is kept about tokens, entries, closes owed and files.
  ghost predicate Round(c: Config, wait: bool, w: World, tokens: seq<Str>, pending: set<nat>, mine: set<Addr>, i: nat,
                        ans: CloseAnswer, r: (World, seq<Str>, set<nat>, int), mine': set<Addr>)
    requires i < |tokens| <= c.N() && c.targets[i] in w.nodes
  {
    match r
    case (w', tokens', pending', err) =>
      var a := c.targets[i];
      && mine' == Minus(c, wait, tokens, pending, mine, i, ans) && Closable(c, wait, w', tokens', pending', mine')
      && tokens' == (if Heard(c, wait, tokens, pending, mine, i, ans) then tokens[i := []] else tokens)
      && (err == 0 <==> HeardOrEmpty(c, wait, tokens, pending, mine, i, ans))
      && (forall j :: j in pending' <==> if j == i then Owes(c, wait, tokens, pending, mine, i, ans) else j in pending)
      && SameTaken(c, w.alone, w'.alone) && w'.nodes.Keys == w.nodes.Keys
      && (forall b :: b in w.nodes && b != a ==> w'.nodes[b] == w.nodes[b])
      && w'.nodes[a].disk == DiskAfter(c, w.nodes[a].disk, How(c, wait, tokens, pending, mine, i, ans))
  }

  // How target j's entry goes, if it does.
  function How(c: Config, wait: bool, tokens: seq<Str>, pending: set<nat>, mine: set<Addr>, j: nat, ans: CloseAnswer)
    : Option<bool>
    requires j < |tokens| <= c.N()
  {
    if tokens[j] != [] && c.targets[j] in mine then ClosedBy(wait, j in pending, ans.execs) else None
  }

  lemma PendingStep(c: Config, wait: bool, w: World, w': World, tokens: seq<Str>, tokens': seq<Str>,
                    pending: set<nat>, pending': set<nat>, mine: set<Addr>, mine': set<Addr>, i: nat)
    requires Closable(c, wait, w, tokens, pending, mine) && Books(c, w', tokens', mine') && i < |tokens| == |tokens'|
    requires (forall j :: j in pending' && j != i ==> j in pending) && (wait ==> pending' == {})
    requires (i in pending' ==> mine' == mine && c.targets[i] in mine) && mine - {c.targets[i]} <= mine'
    ensures Closable(c, wait, w', tokens', pending', mine')
  {
  }

  lemma FreeStays(c: Config, w: World, w': World, n: nat)
    requires n <= c.N() && w'.nodes.Keys == w.nodes.Keys && SameTaken(c, w.alone, w'.alone)
    requires forall j :: 0 <= j < n ==> Free(c, w, j)
    ensures forall j :: 0 <= j < n ==> Free(c, w', j)
  {
    forall j | 0 <= j < n ensures Free(c, w', j) { assert Free(c, w, j); }
  }

  lemma SkippedRound(c: Config, wait: bool, w: World, tokens: seq<Str>, pending: set<nat>, mine: set<Addr>, i: nat,
                     ans: CloseAnswer)
    requires i < |tokens| <= c.N() && Closable(c, wait, w, tokens, pending, mine) && tokens[i] == []
    requires c.targets[i] in w.nodes
    ensures Round(c, wait, w, tokens, pending, mine, i, ans, (w, tokens, pending, 0), mine)
  {
    assert mine - {} == mine;
  }

  lemma CloseOneEffect(c: Config, wait: bool, w: World, tokens: seq<Str>, pending: set<nat>, mine: set<Addr>, i: nat,
                       ans: CloseAnswer, mine': set<Addr>)
    requires i < |tokens| <= c.N() && Closable(c, wait, w, tokens, pending, mine) && AnswerOk(ans)
    requires c.targets[i] in w.nodes && mine' == Minus(c, wait, tokens, pending, mine, i, ans)
    ensures Round(c, wait, w, tokens, pending, mine, i, ans, CloseOne(c, wait, w, tokens, pending, i, ans), mine')
  {
    if tokens[i] == [] {
      assert mine' == mine;
      SkippedRound(c, wait, w, tokens, pending, mine, i, ans);
    } else {
      var (w1, owed, err) := CloseAt(c, wait, w, i, i in pending, tokens[i], ans);
      assert Free(c, w, i);
      CloseAtEffect(c, wait, w, i, i in pending, ans, mine);
      AskedRound(c, wait, w, tokens, pending, mine, i, ans, w1, owed, err, mine');
    }
  }

  lemma AskedRound(c: Config, wait: bool, w: World, tokens: seq<Str>, pending: set<nat>, mine: set<Addr>, i: nat,
                   ans: CloseAnswer, w': World, owed: bool, err: int, mine': set<Addr>)
    requires i < |tokens| <= c.N() && Closable(c, wait, w, tokens, pending, mine) && tokens[i] != []
    requires mine' == Minus(c, wait, tokens, pending, mine, i, ans)
    requires c.targets[i] in w.nodes && w'.nodes.Keys == w.nodes.Keys && SameTaken(c, w.alone, w'.alone)
    requires var a := c.targets[i];
             var how := ClosedBy(wait, i in pending, ans.execs);
             && Ledger(c, w', if a in mine && how.Some? then mine - {a} else mine)
             && (err == 0 <==> a in mine && Accepts(wait, i in pending, ans))
             && owed == (a in mine && how.None? && (i in pending || (!wait && ans.execs != [])))
             && (forall b :: b in w.nodes && b != a ==> w'.nodes[b] == w.nodes[b])
             && w'.nodes[a].disk == DiskAfter(c, w.nodes[a].disk, if a in mine then how else None)
    ensures Round(c, wait, w, tokens, pending, mine, i, ans,
                  (w', if err == 0 then tokens[i := []] else tokens,
                   if owed then pending + {i} else pending - {i}, err), mine')
  {
    var tokens' := if err == 0 then tokens[i := []] else tokens;
    var pending' := if owed then pending + {i} else pending - {i};
    AskedClosable(c, wait, w, tokens, pending, mine, i, ans, w', tokens', pending', mine');
    assert forall j :: j in pending' <==> if j == i then Owes(c, wait, tokens, pending, mine, i, ans) else j in pending;
  }

  lemma AskedClosable(c: Config, wait: bool, w: World, tokens: seq<Str>, pending: set<nat>, mine: set<Addr>, i: nat,
                      ans: CloseAnswer, w': World, tokens': seq<Str>, pending': set<nat>, mine': set<Addr>)
    requires i < |tokens| <= c.N() && Closable(c, wait, w, tokens, pending, mine) && tokens[i] != []
    requires w'.nodes.Keys == w.nodes.Keys && SameTaken(c, w.alone, w'.alone)
    requires mine' == Minus(c, wait, tokens, pending, mine, i, ans)
    requires tokens' == tokens || tokens' == tokens[i := []]
    requires var a := c.targets[i];
             var how := ClosedBy(wait, i in pending, ans.execs);
             && Ledger(c, w', if a in mine && how.Some? then mine - {a} else mine)
             && (forall j :: j in pending' && j != i ==> j in pending)
             && (i in pending' ==> a in mine && how.None? && (i in pending || !wait))
    ensures Closable(c, wait, w', tokens', pending', mine')
  {
    var a := c.targets[i];
    assert mine' == if Goes(c, wait, tokens, pending, mine, i, ans) then mine - {a} else mine;
    FreeStays(c, w, w', |tokens|);
    assert Books(c, w', tokens', mine');
    PendingStep(c, wait, w, w', tokens, tokens', pending, pending', mine, mine', i);
  }

  /******* The whole loop *******/

  // Rounds do not disturb one another.
  lemma LaterSame(c: Config, wait: bool, w: World, tokens: seq<Str>, pending: set<nat>, mine: set<Addr>, i: nat,
                  ans: CloseAnswer, r: (World, seq<Str>, set<nat>, int), mine': set<Addr>, j: nat, later: CloseAnswer)
    requires i < j < |tokens| <= c.N() && c.targets[i] in w.nodes && TokensOk(c, tokens)
    requires Round(c, wait, w, tokens, pending, mine, i, ans, r, mine')
    ensures |r.1| == |tokens| && r.1[j] == tokens[j] && (j in r.2 <==> j in pending)
    ensures c.targets[j] in mine' <==> c.targets[j] in mine
  {
  }

  // The servers whose entry goes in the rounds from i on.
  function GoneFrom(c: Config, wait: bool, tokens: seq<Str>, pending: set<nat>, mine: set<Addr>,
                    answers: seq<CloseAnswer>, i: nat)
    : set<Addr>
    requires |tokens| <= c.N() == |answers|
  {
    set j | i <= j < |tokens| && Goes(c, wait, tokens, pending, mine, j, answers[j]) :: c.targets[j]
  }

  lemma GoneStep(c: Config, wait: bool, w: World, tokens: seq<Str>, pending: set<nat>, mine: set<Addr>,
                 answers: seq<CloseAnswer>, i: nat, r: (World, seq<Str>, set<nat>, int), mine': set<Addr>,
                 left: set<Addr>)
    requires i < |tokens| <= c.N() == |answers| && c.targets[i] in w.nodes && TokensOk(c, tokens)
    requires Round(c, wait, w, tokens, pending, mine, i, answers[i], r, mine')
    requires left == mine - GoneFrom(c, wait, tokens, pending, mine, answers, i)
    ensures |r.1| == |tokens| && left == mine' - GoneFrom(c, wait, r.1, r.2, mine', answers, i + 1)
  {
    forall j | i < j < |tokens| {
      LaterSame(c, wait, w, tokens, pending, mine, i, answers[i], r, mine', j, answers[j]);
    }
    var gone := GoneFrom(c, wait, tokens, pending, mine, answers, i);
    var later := GoneFrom(c, wait, r.1, r.2, mine', answers, i + 1);
    forall a | a in gone ensures a in later || a !in mine' {
      var j :| i <= j < |tokens| && Goes(c, wait, tokens, pending, mine, j, answers[j]) && c.targets[j] == a;
      if j > i { assert Goes(c, wait, r.1, r.2, mine', j, answers[j]); }
    }
    forall a | a in later ensures a in gone {
      var j :| i + 1 <= j < |tokens| && Goes(c, wait, r.1, r.2, mine', j, answers[j]) && c.targets[j] == a;
      assert Goes(c, wait, tokens, pending, mine, j, answers[j]);
    }
    if Goes(c, wait, tokens, pending, mine, i, answers[i]) { assert c.targets[i] in gone; }
  }

  // The first round from i on, and what remains of the loop after it.
  lemma NextRound(c: Config, wait: bool, w: World, tokens: seq<Str>, pending: set<nat>, mine: set<Addr>,
                  answers: seq<CloseAnswer>, i: nat, first: int, last: (World, seq<Str>, set<nat>, int))
    returns (r: (World, seq<Str>, set<nat>, int), mine': set<Addr>, next: int)
    requires i < |tokens| <= c.N() && Closable(c, wait, w, tokens, pending, mine) && AnswersOk(c, answers)
    requires forall j :: 0 <= j < |tokens| ==> c.targets[j] in w.nodes
    requires last == CloseFrom(c, wait, w, tokens, pending, answers, i, first)
    ensures Round(c, wait, w, tokens, pending, mine, i, answers[i], r, mine')
    ensures next == if first == 0 then r.3 else first
    ensures |r.1| == |tokens| && r.0.nodes.Keys == w.nodes.Keys && Closable(c, wait, r.0, r.1, r.2, mine')
    ensures last == CloseFrom(c, wait, r.0, r.1, r.2, answers, i + 1, next)
  {
    r := CloseOne(c, wait, w, tokens, pending, i, answers[i]);
    mine', next := Minus(c, wait, tokens, pending, mine, i, answers[i]), if first == 0 then r.3 else first;
    CloseOneEffect(c, wait, w, tokens, pending, mine, i, answers[i], mine');
  }

  // The same, for the entries left in the end.
  lemma NextLeaves(c: Config, wait: bool, w: World, tokens: seq<Str>, pending: set<nat>, mine: set<Addr>,
                   answers: seq<CloseAnswer>, i: nat, first: int, last: (World, seq<Str>, set<nat>, int),
                   left: set<Addr>)
    returns (r: (World, seq<Str>, set<nat>, int), mine': set<Addr>, next: int)
    requires i < |tokens| <= c.N() && Closable(c, wait, w, tokens, pending, mine) && AnswersOk(c, answers)
    requires forall j :: 0 <= j < |tokens| ==> c.targets[j] in w.nodes
    requires last == CloseFrom(c, wait, w, tokens, pending, answers, i, first)
    requires left == mine - GoneFrom(c, wait, tokens, pending, mine, answers, i)
    ensures |r.1| == |tokens| && r.0.nodes.Keys == w.nodes.Keys && Closable(c, wait, r.0, r.1, r.2, mine')
    ensures left == mine' - GoneFrom(c, wait, r.1, r.2, mine', answers, i + 1)
    ensures last == CloseFrom(c, wait, r.0, r.1, r.2, answers, i + 1, next)
  {
    r, mine', next := NextRound(c, wait, w, tokens, pending, mine, answers, i, first, last);
    GoneStep(c, wait, w, tokens, pending, mine, answers, i, r, mine', left);
  }

  // After any closes the entries left are those there were, but for the ones that went.
  lemma {:induction false} CloseKeeps(c: Config, wait: bool, w: World, tokens: seq<Str>, pending: set<nat>,
                                      mine: set<Addr>, answers: seq<CloseAnswer>, i: nat, first: int,
                                      last: (World, seq<Str>, set<nat>, int), left: set<Addr>)
    requires i <= |tokens| <= c.N() && Closable(c, wait, w, tokens, pending, mine) && AnswersOk(c, answers)
    requires forall j :: 0 <= j < |tokens| ==> c.targets[j] in w.nodes
    requires left == mine - GoneFrom(c, wait, tokens, pending, mine, answers, i)
    requires last == CloseFrom(c, wait, w, tokens, pending, answers, i, first)
    ensures Closable(c, wait, last.0, last.1, last.2, left)
    decreases |tokens| - i
  {
    if i == |tokens| {
      assert left == mine;
    } else {
      var r, mine', next := NextLeaves(c, wait, w, tokens, pending, mine, answers, i, first, last, left);
      CloseKeeps(c, wait, r.0, r.1, r.2, mine', answers, i + 1, next, last, left);
    }
  }

  // And nobody else's token comes or goes.
  lemma {:induction false} CloseTakesNone(c: Config, wait: bool, w: World, tokens: seq<Str>, pending: set<nat>,
                                          answers: seq<CloseAnswer>, i: nat, first: int)
    requires i <= |tokens| <= c.N() == |answers| && forall j :: 0 <= j < |tokens| ==> c.targets[j] in w.nodes
    ensures SameTaken(c, w.alone, CloseFrom(c, wait, w, tokens, pending, answers, i, first).0.alone)
    decreases |tokens| - i
  {
    if i < |tokens| {
      var r := CloseOne(c, wait, w, tokens, pending, i, answers[i]);
      var next := if first == 0 then r.3 else first;
      TurnTakesNone(c, w, c.targets[i], answers[i].theirs);
      CloseTakesNone(c, wait, r.0, r.1, r.2, answers, i + 1, next);
      SameTakenTwice(c, w.alone, r.0.alone, CloseFrom(c, wait, r.0, r.1, r.2, answers, i + 1, next).0.alone);
    }
  }

  // Target j in the end: its token is emptied exactly if the client hears of a 0, and
  // a close is owed exactly as the answer leaves it.
  ghost predicate Settled(c: Config, wait: bool, tokens: seq<Str>, pending: set<nat>, mine: set<Addr>,
                          answers: seq<CloseAnswer>, i: nat, j: nat, tokens': seq<Str>, pending': set<nat>)
    requires j < |tokens| <= c.N() == |answers| && |tokens'| == |tokens|
  {
    match j >= i
    case true =>
      && tokens'[j] == (if Heard(c, wait, tokens, pending, mine, j, answers[j]) then [] else tokens[j])
      && (j in pending' <==> Owes(c, wait, tokens, pending, mine, j, answers[j]))
    case false => tokens'[j] == tokens[j] && (j in pending' <==> j in pending)
  }

  lemma SettledStep(c: Config, wait: bool, w: World, tokens: seq<Str>, pending: set<nat>, mine: set<Addr>,
                    answers: seq<CloseAnswer>, i: nat, r: (World, seq<Str>, set<nat>, int), mine': set<Addr>, j: nat,
                    tokens': seq<Str>, pending': set<nat>)
    requires i < |tokens| <= c.N() == |answers| && j < |tokens| && TokensOk(c, tokens) && c.targets[i] in w.nodes
    requires Round(c, wait, w, tokens, pending, mine, i, answers[i], r, mine') && |r.1| == |tokens| == |tokens'|
    requires Settled(c, wait, r.1, r.2, mine', answers, i + 1, j, tokens', pending')
    ensures Settled(c, wait, tokens, pending, mine, answers, i, j, tokens', pending')
  {
    if j > i { LaterSame(c, wait, w, tokens, pending, mine, i, answers[i], r, mine', j, answers[j]); }
  }

  lemma NextSettles(c: Config, wait: bool, w: World, tokens: seq<Str>, pending: set<nat>, mine: set<Addr>,
                    answers: seq<CloseAnswer>, i: nat, first: int, last: (World, seq<Str>, set<nat>, int), j: nat)
    returns (r: (World, seq<Str>, set<nat>, int), mine': set<Addr>, next: int)
    requires i < |tokens| <= c.N() && Closable(c, wait, w, tokens, pending, mine) && AnswersOk(c, answers)
    requires j < |tokens| && forall j :: 0 <= j < |tokens| ==> c.targets[j] in w.nodes
    requires last == CloseFrom(c, wait, w, tokens, pending, answers, i, first)
    ensures |r.1| == |tokens| && r.0.nodes.Keys == w.nodes.Keys && Closable(c, wait, r.0, r.1, r.2, mine')
    ensures last == CloseFrom(c, wait, r.0, r.1, r.2, answers, i + 1, next)
    ensures Settled(c, wait, r.1, r.2, mine', answers, i + 1, j, last.1, last.2) ==>
              Settled(c, wait, tokens, pending, mine, answers, i, j, last.1, last.2)
  {
    r, mine', next := NextRound(c, wait, w, tokens, pending, mine, answers, i, first, last);
    if Settled(c, wait, r.1, r.2, mine', answers, i + 1, j, last.1, last.2) {
      SettledStep(c, wait, w, tokens, pending, mine, answers, i, r, mine', j, last.1, last.2);
    }
  }

  // Every nonempty token is tried, whatever happened before.
  lemma {:induction false} CloseIsExact(c: Config, wait: bool, w: World, tokens: seq<Str>, pending: set<nat>,
                                        mine: set<Addr>, answers: seq<CloseAnswer>, i: nat, first: int,
                                        last: (World, seq<Str>, set<nat>, int), j: nat)
    requires i <= |tokens| <= c.N() && Closable(c, wait, w, tokens, pending, mine) && AnswersOk(c, answers)
    requires j < |tokens| && forall j :: 0 <= j < |tokens| ==> c.targets[j] in w.nodes
    requires last == CloseFrom(c, wait, w, tokens, pending, answers, i, first)
    ensures Settled(c, wait, tokens, pending, mine, answers, i, j, last.1, last.2)
    decreases |tokens| - i
  {
    if i < |tokens| {
      var r, mine', next := NextSettles(c, wait, w, tokens, pending, mine, answers, i, first, last, j);
      CloseIsExact(c, wait, r.0, r.1, r.2, mine', answers, i + 1, next, last, j);
    }
  }

  // Closes owed by targets that are not asked are still owed.
  lemma {:induction false} StillOwed(c: Config, wait: bool, w: World, tokens: seq<Str>, pending: set<nat>,
                                     answers: seq<CloseAnswer>, i: nat, first: int, k: nat)
    requires i <= |tokens| <= c.N() == |answers| && forall j :: 0 <= j < |tokens| ==> c.targets[j] in w.nodes
    requires k >= |tokens|
    ensures k in CloseFrom(c, wait, w, tokens, pending, answers, i, first).2 <==> k in pending
    decreases |tokens| - i
  {
    if i < |tokens| {
      var r := CloseOne(c, wait, w, tokens, pending, i, answers[i]);
      StillOwed(c, wait, r.0, r.1, r.2, answers, i + 1, if first == 0 then r.3 else first, k);
    }
  }

  // From i on, the client hears of a 0 for every token.
  predicate AllHeard(c: Config, wait: bool, tokens: seq<Str>, pending: set<nat>, mine: set<Addr>,
                     answers: seq<CloseAnswer>, i: nat)
    requires |tokens| <= c.N() == |answers|
  {
    forall j :: i <= j < |tokens| ==> HeardOrEmpty(c, wait, tokens, pending, mine, j, answers[j])
  }

  lemma AllHeardStep(c: Config, wait: bool, w: World, tokens: seq<Str>, pending: set<nat>, mine: set<Addr>,
                     answers: seq<CloseAnswer>, i: nat, r: (World, seq<Str>, set<nat>, int), mine': set<Addr>,
                     first: int, next: int, all: bool)
    requires i < |tokens| <= c.N() == |answers| && c.targets[i] in w.nodes && TokensOk(c, tokens)
    requires Round(c, wait, w, tokens, pending, mine, i, answers[i], r, mine')
    requires next == if first == 0 then r.3 else first
    requires all <==> first == 0 && AllHeard(c, wait, tokens, pending, mine, answers, i)
    ensures |r.1| == |tokens| && (all <==> next == 0 && AllHeard(c, wait, r.1, r.2, mine', answers, i + 1))
  {
    forall j | i < j < |tokens|
      ensures HeardOrEmpty(c, wait, tokens, pending, mine, j, answers[j]) <==>
              HeardOrEmpty(c, wait, r.1, r.2, mine', j, answers[j])
    {
      LaterSame(c, wait, w, tokens, pending, mine, i, answers[i], r, mine', j, answers[j]);
    }
  }

  lemma NextHears(c: Config, wait: bool, w: World, tokens: seq<Str>, pending: set<nat>, mine: set<Addr>,
                  answers: seq<CloseAnswer>, i: nat, first: int, last: (World, seq<Str>, set<nat>, int), all: bool)
    returns (r: (World, seq<Str>, set<nat>, int), mine': set<Addr>, next: int)
    requires i < |tokens| <= c.N() && Closable(c, wait, w, tokens, pending, mine) && AnswersOk(c, answers)
    requires forall j :: 0 <= j < |tokens| ==> c.targets[j] in w.nodes
    requires last == CloseFrom(c, wait, w, tokens, pending, answers, i, first)
    requires all <==> first == 0 && AllHeard(c, wait, tokens, pending, mine, answers, i)
    ensures |r.1| == |tokens| && r.0.nodes.Keys == w.nodes.Keys && Closable(c, wait, r.0, r.1, r.2, mine')
    ensures all <==> next == 0 && AllHeard(c, wait, r.1, r.2, mine', answers, i + 1)
    ensures last == CloseFrom(c, wait, r.0, r.1, r.2, answers, i + 1, next)
  {
    r, mine', next := NextRound(c, wait, w, tokens, pending, mine, answers, i, first, last);
    AllHeardStep(c, wait, w, tokens, pending, mine, answers, i, r, mine', first, next, all);
  }

  // all: from round i on nothing goes wrong.
  lemma {:induction false} CloseErrorIs(c: Config, wait: bool, w: World, tokens: seq<Str>, pending: set<nat>,
                                        mine: set<Addr>, answers: seq<CloseAnswer>, i: nat, first: int,
                                        last: (World, seq<Str>, set<nat>, int), all: bool)
    requires i <= |tokens| <= c.N() && Closable(c, wait, w, tokens, pending, mine) && AnswersOk(c, answers)
    requires forall j :: 0 <= j < |tokens| ==> c.targets[j] in w.nodes
    requires all <==> first == 0 && AllHeard(c, wait, tokens, pending, mine, answers, i)
    requires last == CloseFrom(c, wait, w, tokens, pending, answers, i, first)
    ensures last.3 == 0 <==> all
    decreases |tokens| - i
  {
    if i < |tokens| {
      var r, mine', next := NextHears(c, wait, w, tokens, pending, mine, answers, i, first, last, all);
      CloseErrorIs(c, wait, r.0, r.1, r.2, mine', answers, i + 1, next, last, all);
    }
  }

  // A token whose entry is gone is never heard of again: from then on no close_file
  // returns 0.
  lemma CloseError(c: Config, wait: bool, w: World, tokens: seq<Str>, pending: set<nat>, mine: set<Addr>,
                   answers: seq<CloseAnswer>, i: nat, first: int)
    requires i <= |tokens| <= c.N() && Closable(c, wait, w, tokens, pending, mine) && AnswersOk(c, answers)
    requires forall j :: 0 <= j < |tokens| ==> c.targets[j] in w.nodes
    ensures CloseFrom(c, wait, w, tokens, pending, answers, i, first).3 == 0 <==>
            first == 0 && AllHeard(c, wait, tokens, pending, mine, answers, i)
  {
    var all := first == 0 && AllHeard(c, wait, tokens, pending, mine, answers, i);
    var last := CloseFrom(c, wait, w, tokens, pending, answers, i, first);
    CloseErrorIs(c, wait, w, tokens, pending, mine, answers, i, first, last, all);
  }

  // j is the first round from i on that the client does not hear a 0 of.
  predicate FirstUnheard(c: Config, wait: bool, tokens: seq<Str>, pending: set<nat>, mine: set<Addr>,
                         answers: seq<CloseAnswer>, i: nat, j: nat)
    requires |tokens| <= c.N() == |answers|
  {
    && i <= j < |tokens| && !HeardOrEmpty(c, wait, tokens, pending, mine, j, answers[j])
    && forall k :: i <= k < j ==> HeardOrEmpty(c, wait, tokens, pending, mine, k, answers[k])
  }

  // What the client is told by the rounds from i on.
  ghost predicate Tells(c: Config, wait: bool, tokens: seq<Str>, pending: set<nat>, mine: set<Addr>,
                        answers: seq<CloseAnswer>, i: nat, err: int)
    requires |tokens| <= c.N() == |answers|
  {
    match AllHeard(c, wait, tokens, pending, mine, answers, i)
    case true => err == 0
    case false =>
      exists j: nat :: FirstUnheard(c, wait, tokens, pending, mine, answers, i, j) && err == Failure(wait, answers[j])
  }

  lemma CloseOneTells(c: Config, wait: bool, w: World, tokens: seq<Str>, pending: set<nat>, i: nat, ans: CloseAnswer)
    requires i < |tokens| <= c.N() && c.targets[i] in w.nodes && AnswerOk(ans)
    ensures CloseOne(c, wait, w, tokens, pending, i, ans).3 in {0, Failure(wait, ans)}
  {
  }

  lemma UnheardLater(c: Config, wait: bool, w: World, tokens: seq<Str>, pending: set<nat>, mine: set<Addr>,
                     answers: seq<CloseAnswer>, i: nat, r: (World, seq<Str>, set<nat>, int), mine': set<Addr>, j: nat)
    requires i < |tokens| <= c.N() == |answers| && c.targets[i] in w.nodes && TokensOk(c, tokens)
    requires Round(c, wait, w, tokens, pending, mine, i, answers[i], r, mine') && r.3 == 0 && |r.1| == |tokens|
    requires FirstUnheard(c, wait, r.1, r.2, mine', answers, i + 1, j)
    ensures FirstUnheard(c, wait, tokens, pending, mine, answers, i, j)
  {
    forall k | i < k <= j
      ensures HeardOrEmpty(c, wait, tokens, pending, mine, k, answers[k]) <==>
              HeardOrEmpty(c, wait, r.1, r.2, mine', k, answers[k])
    {
      LaterSame(c, wait, w, tokens, pending, mine, i, answers[i], r, mine', k, answers[k]);
    }
  }

  lemma TellsStep(c: Config, wait: bool, w: World, tokens: seq<Str>, pending: set<nat>, mine: set<Addr>,
                  answers: seq<CloseAnswer>, i: nat, r: (World, seq<Str>, set<nat>, int), mine': set<Addr>, err: int)
    requires i < |tokens| <= c.N() == |answers| && c.targets[i] in w.nodes && TokensOk(c, tokens)
    requires Round(c, wait, w, tokens, pending, mine, i, answers[i], r, mine') && r.3 in {0, Failure(wait, answers[i])}
    requires |r.1| == |tokens| &&
             if r.3 != 0 then err == r.3 else Tells(c, wait, r.1, r.2, mine', answers, i + 1, err)
    ensures Tells(c, wait, tokens, pending, mine, answers, i, err)
  {
    AllHeardStep(c, wait, w, tokens, pending, mine, answers, i, r, mine', 0, r.3,
                 AllHeard(c, wait, tokens, pending, mine, answers, i));
    if r.3 != 0 {
      assert FirstUnheard(c, wait, tokens, pending, mine, answers, i, i);
    } else if !AllHeard(c, wait, r.1, r.2, mine', answers, i + 1) {
      var j: nat :| FirstUnheard(c, wait, r.1, r.2, mine', answers, i + 1, j) && err == Failure(wait, answers[j]);
      UnheardLater(c, wait, w, tokens, pending, mine, answers, i, r, mine', j);
    }
  }

  // The error returned is that of the first close that is not heard of.
  lemma {:induction false} CloseTells(c: Config, wait: bool, w: World, tokens: seq<Str>, pending: set<nat>,
                                      mine: set<Addr>, answers: seq<CloseAnswer>, i: nat, first: int, err: int)
    requires i <= |tokens| <= c.N() && Closable(c, wait, w, tokens, pending, mine) && AnswersOk(c, answers)
    requires forall j :: 0 <= j < |tokens| ==> c.targets[j] in w.nodes
    requires err == CloseFrom(c, wait, w, tokens, pending, answers, i, first).3
    ensures if first != 0 then err == first else Tells(c, wait, tokens, pending, mine, answers, i, err)
    decreases |tokens| - i
  {
    if i < |tokens| {
      var r := CloseOne(c, wait, w, tokens, pending, i, answers[i]);
      var mine' := Minus(c, wait, tokens, pending, mine, i, answers[i]);
      CloseOneEffect(c, wait, w, tokens, pending, mine, i, answers[i], mine');
      CloseOneTells(c, wait, w, tokens, pending, i, answers[i]);
      CloseTells(c, wait, r.0, r.1, r.2, mine', answers, i + 1, if first == 0 then r.3 else first, err);
      if first == 0 { TellsStep(c, wait, w, tokens, pending, mine, answers, i, r, mine', err); }
    }
  }

  // A file is truncated, to the size it was created for, exactly if its entry goes
  // and ftruncate succeeds.
  lemma {:induction false} CloseDisks(c: Config, wait: bool, w: World, tokens: seq<Str>, pending: set<nat>,
                                      mine: set<Addr>, answers: seq<CloseAnswer>, i: nat, first: int,
                                      last: (World, seq<Str>, set<nat>, int), j: nat, disk: seq<byte>)
    requires i <= |tokens| <= c.N() && Closable(c, wait, w, tokens, pending, mine) && AnswersOk(c, answers)
    requires j < |tokens| && forall j :: 0 <= j < |tokens| ==> c.targets[j] in w.nodes
    requires last == CloseFrom(c, wait, w, tokens, pending, answers, i, first)
    requires disk == DiskAfter(c, w.nodes[c.targets[j]].disk, HowFrom(c, wait, tokens, pending, mine, answers, i, j))
    ensures last.0.nodes[c.targets[j]].disk == disk
    decreases |tokens| - i
  {
    if i < |tokens| {
      var r, mine', next := NextDisk(c, wait, w, tokens, pending, mine, answers, i, first, last, j, disk);
      CloseDisks(c, wait, r.0, r.1, r.2, mine', answers, i + 1, next, last, j, disk);
    }
  }

  function HowFrom(c: Config, wait: bool, tokens: seq<Str>, pending: set<nat>, mine: set<Addr>,
                   answers: seq<CloseAnswer>, i: nat, j: nat)
    : Option<bool>
    requires j < |tokens| <= c.N() == |answers|
  {
    if j >= i then How(c, wait, tokens, pending, mine, j, answers[j]) else None
  }

  lemma NextDisk(c: Config, wait: bool, w: World, tokens: seq<Str>, pending: set<nat>, mine: set<Addr>,
                 answers: seq<CloseAnswer>, i: nat, first: int, last: (World, seq<Str>, set<nat>, int), j: nat,
                 disk: seq<byte>)
    returns (r: (World, seq<Str>, set<nat>, int), mine': set<Addr>, next: int)
    requires i < |tokens| <= c.N() && Closable(c, wait, w, tokens, pending, mine) && AnswersOk(c, answers)
    requires j < |tokens| && forall j :: 0 <= j < |tokens| ==> c.targets[j] in w.nodes
    requires last == CloseFrom(c, wait, w, tokens, pending, answers, i, first)
    requires disk == DiskAfter(c, w.nodes[c.targets[j]].disk, HowFrom(c, wait, tokens, pending, mine, answers, i, j))
    ensures |r.1| == |tokens| && r.0.nodes.Keys == w.nodes.Keys && Closable(c, wait, r.0, r.1, r.2, mine')
    ensures last == CloseFrom(c, wait, r.0, r.1, r.2, answers, i + 1, next)
    ensures disk == DiskAfter(c, r.0.nodes[c.targets[j]].disk, HowFrom(c, wait, r.1, r.2, mine', answers, i + 1, j))
  {
    r, mine', next := NextRound(c, wait, w, tokens, pending, mine, answers, i, first, last);
    DiskStep(c, wait, w, tokens, pending, mine, answers, i, r, mine', j);
  }

  lemma DiskStep(c: Config, wait: bool, w: World, tokens: seq<Str>, pending: set<nat>, mine: set<Addr>,
                 answers: seq<CloseAnswer>, i: nat, r: (World, seq<Str>, set<nat>, int), mine': set<Addr>, j: nat)
    requires i < |tokens| <= c.N() == |answers| && j < |tokens| && TokensOk(c, tokens)
    requires c.targets[i] in w.nodes && c.targets[j] in w.nodes
    requires Round(c, wait, w, tokens, pending, mine, i, answers[i], r, mine')
    ensures |r.1| == |tokens| && r.0.nodes.Keys == w.nodes.Keys
    ensures var a := c.targets[j];
            DiskAfter(c, r.0.nodes[a].disk, HowFrom(c, wait, r.1, r.2, mine', answers, i + 1, j)) ==
            DiskAfter(c, w.nodes[a].disk, HowFrom(c, wait, tokens, pending, mine, answers, i, j))
  {
    if j > i {
      LaterSame(c, wait, w, tokens, pending, mine, i, answers[i], r, mine', j, answers[j]);
    }
    assert j != i ==> r.0.nodes[c.targets[j]] == w.nodes[c.targets[j]];
  }

  /******* Closes after the reply *******/

  datatype LateClose = LateClose(theirs: Option<FileTable.Table>, truncated: bool)

  function FinishAt(c: Config, w: World, i: nat, late: LateClose): (r: World)
    requires i < c.N() && c.targets[i] in w.nodes
    ensures r.nodes.Keys == w.nodes.Keys && r == w.(nodes := r.nodes, alone := r.alone)
  {
    var w1 := Turn(c, w, c.targets[i], late.theirs);
    Served(w1, c.targets[i], CloseEntry(w1.nodes[c.targets[i]], c.Token(i), late.truncated))
  }

  // The closes owed by targets from i on.
  function FinishFrom(c: Config, w: World, pending: set<nat>, late: seq<LateClose>, i: nat): (r: World)
    requires |late| == c.N() && forall j :: j in pending ==> j < c.N() && c.targets[j] in w.nodes
    ensures r.nodes.Keys == w.nodes.Keys && r == w.(nodes := r.nodes, alone := r.alone)
    decreases c.N() - i
  {
    if i >= c.N() then w
    else FinishFrom(c, if i in pending then FinishAt(c, w, i, late[i]) else w, pending, late, i + 1)
  }

  // Whose closes are owed, from i on.
  function OwedFrom(c: Config, pending: set<nat>, i: nat): set<Addr> {
    set j | j in pending && i <= j < c.N() :: c.targets[j]
  }

  ghost predicate PendingApart(c: Config, pending: set<nat>) {
    && (forall i :: i in pending ==> i < c.N())
    && forall i, j :: i in pending && j in pending && i != j ==> c.targets[i] != c.targets[j]
  }

  lemma FinishEffect(c: Config, w: World, i: nat, late: LateClose, mine: set<Addr>)
    requires i < c.N() && c.targets[i] in w.nodes && c.targets[i] in mine && Ledger(c, w, mine)
    ensures var w' := FinishAt(c, w, i, late);
            var a := c.targets[i];
            && Ledger(c, w', mine - {a}) && SameTaken(c, w.alone, w'.alone)
            && (forall b :: b in w.nodes && b != a ==> w'.nodes[b] == w.nodes[b])
            && w'.nodes[a].disk == DiskAfter(c, w.nodes[a].disk, Some(late.truncated))
  {
    var a := c.targets[i];
    var w1 := Turn(c, w, a, late.theirs);
    TurnKeeps(c, w, a, late.theirs, mine);
    TurnKeepsOwn(c, w, a, late.theirs, a);
    assert LedgerAt(c.TokenAt(a), |c.src|, w1.alone[a], w1.nodes[a].fmap, true);
    CloseEntryKeeps(c.TokenAt(a), |c.src|, w1.alone[a], w1.nodes[a], late.truncated);
    ServedKeeps(c, w1, mine, a, CloseEntry(w1.nodes[a], c.Token(i), late.truncated), mine - {a});
  }

  lemma FinishRound(c: Config, w: World, pending: set<nat>, late: seq<LateClose>, i: nat, mine: set<Addr>)
    returns (w1: World, mine': set<Addr>)
    requires i < c.N() == |late| && PendingApart(c, pending) && Ledger(c, w, mine)
    requires (forall j :: j in pending ==> c.targets[j] in w.nodes) && OwedFrom(c, pending, i) <= mine
    ensures w1.nodes.Keys == w.nodes.Keys && Ledger(c, w1, mine') && OwedFrom(c, pending, i + 1) <= mine'
    ensures mine' - OwedFrom(c, pending, i + 1) == mine - OwedFrom(c, pending, i)
    ensures FinishFrom(c, w, pending, late, i) == FinishFrom(c, w1, pending, late, i + 1)
    ensures w1 == if i in pending then FinishAt(c, w, i, late[i]) else w
    ensures i in pending ==> c.targets[i] in mine
  {
    w1, mine' := w, mine;
    if i in pending {
      w1, mine' := FinishAt(c, w, i, late[i]), mine - {c.targets[i]};
      OwedStep(c, pending, i, mine);
      FinishEffect(c, w, i, late[i], mine);
    } else {
      assert OwedFrom(c, pending, i) == OwedFrom(c, pending, i + 1);
    }
  }

  // Once the closes owed are done, their entries are gone, and no other.
  lemma {:induction false} FinishKeeps(c: Config, w: World, pending: set<nat>, late: seq<LateClose>, i: nat,
                                       mine: set<Addr>, last: World, left: set<Addr>)
    requires |late| == c.N() && PendingApart(c, pending) && Ledger(c, w, mine)
    requires (forall j :: j in pending ==> c.targets[j] in w.nodes) && OwedFrom(c, pending, i) <= mine
    requires left == mine - OwedFrom(c, pending, i) && last == FinishFrom(c, w, pending, late, i)
    ensures Ledger(c, last, left)
    decreases c.N() - i
  {
    if i >= c.N() {
      assert left == mine;
    } else {
      var w1, mine' := FinishRound(c, w, pending, late, i, mine);
      FinishKeeps(c, w1, pending, late, i + 1, mine', last, left);
    }
  }

  lemma {:induction false} FinishTakesNone(c: Config, w: World, pending: set<nat>, late: seq<LateClose>, i: nat)
    requires |late| == c.N() && forall j :: j in pending ==> j < c.N() && c.targets[j] in w.nodes
    ensures SameTaken(c, w.alone, FinishFrom(c, w, pending, late, i).alone)
    decreases c.N() - i
  {
    if i < c.N() {
      var w1 := if i in pending then FinishAt(c, w, i, late[i]) else w;
      if i in pending { TurnTakesNone(c, w, c.targets[i], late[i].theirs); }
      FinishTakesNone(c, w1, pending, late, i + 1);
      SameTakenTwice(c, w.alone, w1.alone, FinishFrom(c, w1, pending, late, i + 1).alone);
    }
  }

  lemma OwedStep(c: Config, pending: set<nat>, i: nat, mine: set<Addr>)
    requires i in pending && i < c.N() && PendingApart(c, pending)
    ensures OwedFrom(c, pending, i) == OwedFrom(c, pending, i + 1) + {c.targets[i]}
    ensures c.targets[i] !in OwedFrom(c, pending, i + 1)
    ensures OwedFrom(c, pending, i) <= mine ==> OwedFrom(c, pending, i + 1) <= mine - {c.targets[i]}
    ensures (mine - {c.targets[i]}) - OwedFrom(c, pending, i + 1) == mine - OwedFrom(c, pending, i)
  {
  }

  function LateFrom(c: Config, late: seq<LateClose>, i: nat, j: nat): Option<bool>
    requires j < c.N() == |late|
  {
    if j >= i then Some(late[j].truncated) else None
  }

  lemma FinishDiskStep(c: Config, w: World, pending: set<nat>, late: seq<LateClose>, i: nat, mine: set<Addr>, j: nat)
    requires |late| == c.N() && PendingApart(c, pending) && Ledger(c, w, mine) && i in pending && j in pending
    requires c.targets[i] in w.nodes && c.targets[j] in w.nodes && c.targets[i] in mine
    ensures var a := c.targets[j];
            DiskAfter(c, FinishAt(c, w, i, late[i]).nodes[a].disk, LateFrom(c, late, i + 1, j)) ==
            DiskAfter(c, w.nodes[a].disk, LateFrom(c, late, i, j))
  {
    FinishEffect(c, w, i, late[i], mine);
    assert j != i ==> FinishAt(c, w, i, late[i]).nodes[c.targets[j]] == w.nodes[c.targets[j]];
  }

  // A file whose close is owed is closed once.
  lemma {:induction false} FinishDisks(c: Config, w: World, pending: set<nat>, late: seq<LateClose>, i: nat,
                                       mine: set<Addr>, last: World, j: nat)
    requires |late| == c.N() && PendingApart(c, pending) && Ledger(c, w, mine) && j in pending
    requires (forall k :: k in pending ==> c.targets[k] in w.nodes) && OwedFrom(c, pending, i) <= mine
    requires last == FinishFrom(c, w, pending, late, i)
    ensures last.nodes[c.targets[j]].disk == DiskAfter(c, w.nodes[c.targets[j]].disk, LateFrom(c, late, i, j))
    decreases c.N() - i
  {
    if i < c.N() {
      var w1, mine' := FinishRound(c, w, pending, late, i, mine);
      FinishDisks(c, w1, pending, late, i + 1, mine', last, j);
      if i in pending { FinishDiskStep(c, w, pending, late, i, mine, j); }
    }
  }

  // Tokens and entries after the closes owed have been done: closing can go on.
  lemma LateCloseKeeps(c: Config, w: World, tokens: seq<Str>, pending: set<nat>, mine: set<Addr>, late: seq<LateClose>)
    requires Closable(c, false, w, tokens, pending, mine) && |late| == c.N()
    requires forall j :: j in pending ==> j < c.N() && c.targets[j] in w.nodes
    ensures Closable(c, false, FinishFrom(c, w, pending, late, 0), tokens, {}, mine - OwedFrom(c, pending, 0))
  {
    var last := FinishFrom(c, w, pending, late, 0);
    FinishKeeps(c, w, pending, late, 0, mine, last, mine - OwedFrom(c, pending, 0));
    FinishTakesNone(c, w, pending, late, 0);
    FreeStays(c, w, FinishFrom(c, w, pending, late, 0), |tokens|);
  }

  /******* Both ways of closing *******/

  // The servers that some close reached, and those that none did.
  function Reached(c: Config, tokens: seq<Str>, answers: seq<CloseAnswer>): set<Addr>
    requires |tokens| <= c.N() == |answers|
  {
    set j | 0 <= j < |tokens| && tokens[j] != [] && answers[j].execs != [] :: c.targets[j]
  }

  // With wait_close the entries left are those that no close reached.
  lemma WaitingLeaves(c: Config, tokens: seq<Str>, mine: set<Addr>, answers: seq<CloseAnswer>)
    requires |tokens| <= c.N() == |answers|
    ensures mine - GoneFrom(c, true, tokens, {}, mine, answers, 0) == mine - Reached(c, tokens, answers)
  {
    var gone, reached := GoneFrom(c, true, tokens, {}, mine, answers, 0), Reached(c, tokens, answers);
    forall j | 0 <= j < |tokens| { WaitingClosesAtOnce(false, answers[j].execs); }
    forall a | a in mine ensures a in gone <==> a in reached {
      if a in gone {
        var j :| 0 <= j < |tokens| && Goes(c, true, tokens, {}, mine, j, answers[j]) && c.targets[j] == a;
        assert answers[j].execs != [];
      }
      if a in reached {
        var j :| 0 <= j < |tokens| && tokens[j] != [] && answers[j].execs != [] && c.targets[j] == a;
        assert Goes(c, true, tokens, {}, mine, j, answers[j]);
      }
    }
  }

  // And so they are without it, once the closes owed are done.
  lemma NotWaitingLeaves(c: Config, tokens: seq<Str>, mine: set<Addr>, answers: seq<CloseAnswer>, pending: set<nat>)
    requires |tokens| <= c.N() == |answers|
    requires forall j: nat :: j in pending <==> j < |tokens| && Owes(c, false, tokens, {}, mine, j, answers[j])
    ensures mine - GoneFrom(c, false, tokens, {}, mine, answers, 0) - OwedFrom(c, pending, 0) ==
            mine - Reached(c, tokens, answers)
  {
    var gone, owed := GoneFrom(c, false, tokens, {}, mine, answers, 0), OwedFrom(c, pending, 0);
    var reached := Reached(c, tokens, answers);
    forall a | a in mine ensures a in gone || a in owed <==> a in reached {
      if a in gone {
        var j :| 0 <= j < |tokens| && Goes(c, false, tokens, {}, mine, j, answers[j]) && c.targets[j] == a;
        assert answers[j].execs != [];
      }
      if a in owed {
        var j :| j in pending && 0 <= j < c.N() && c.targets[j] == a;
        assert answers[j].execs != [];
      }
      if a in reached {
        var j :| 0 <= j < |tokens| && tokens[j] != [] && answers[j].execs != [] && c.targets[j] == a;
        assert Goes(c, false, tokens, {}, mine, j, answers[j]) || Owes(c, false, tokens, {}, mine, j, answers[j]);
      }
    }
  }

  lemma AcceptsAlike(ans: CloseAnswer)
    requires |ans.execs| <= 1
    ensures Accepts(true, false, ans) <==> Accepts(false, false, ans)
  {
    if ans.execs != [] {
      var pre := ans.execs[..|ans.execs| - 1];
      assert pre == [] && ClosedBy(false, false, pre) == None;
    }
  }

  // Where nothing is repeated the client cannot tell the two apart.
  lemma LazyIsLateClose(c: Config, w: World, tokens: seq<Str>, mine: set<Addr>, answers: seq<CloseAnswer>)
    requires |tokens| <= c.N() && Closable(c, true, w, tokens, {}, mine) && AnswersOk(c, answers)
    requires forall j :: 0 <= j < |tokens| ==> c.targets[j] in w.nodes && |answers[j].execs| <= 1
    ensures var (_, tokens', _, err) := CloseFrom(c, true, w, tokens, {}, answers, 0, 0);
            var (_, lazyTokens, _, lazyErr) := CloseFrom(c, false, w, tokens, {}, answers, 0, 0);
            lazyTokens == tokens' && (lazyErr == 0 <==> err == 0)
  {
    assert Closable(c, false, w, tokens, {}, mine);
    CloseError(c, true, w, tokens, {}, mine, answers, 0, 0);
    CloseError(c, false, w, tokens, {}, mine, answers, 0, 0);
    HeardAlike(c, tokens, mine, answers);
    var now := CloseFrom(c, true, w, tokens, {}, answers, 0, 0);
    var lazy := CloseFrom(c, false, w, tokens, {}, answers, 0, 0);
    forall j | 0 <= j < |tokens| ensures lazy.1[j] == now.1[j] {
      CloseIsExact(c, true, w, tokens, {}, mine, answers, 0, 0, now, j);
      CloseIsExact(c, false, w, tokens, {}, mine, answers, 0, 0, lazy, j);
      AcceptsAlike(answers[j]);
    }
  }

  lemma HeardAlike(c: Config, tokens: seq<Str>, mine: set<Addr>, answers: seq<CloseAnswer>)
    requires |tokens| <= c.N() == |answers| && forall j :: 0 <= j < |tokens| ==> |answers[j].execs| <= 1
    ensures AllHeard(c, true, tokens, {}, mine, answers, 0) <==> AllHeard(c, false, tokens, {}, mine, answers, 0)
  {
    forall j | 0 <= j < |tokens|
      ensures HeardOrEmpty(c, true, tokens, {}, mine, j, answers[j]) <==>
              HeardOrEmpty(c, false, tokens, {}, mine, j, answers[j])
    {
      AcceptsAlike(answers[j]);
    }
  }

  /******* What other clients do *******/

  // It is what the answers say, and nothing else.
  lemma {:induction false} CloseGiven(c: Config, wait: bool, w: World, tokens: seq<Str>, pending: set<nat>,
                                      answers: seq<CloseAnswer>, i: nat, first: int,
                                      given: set<(Addr, FileTable.Table)>)
    requires i <= |tokens| <= c.N() == |answers| && forall j :: 0 <= j < |tokens| ==> c.targets[j] in w.nodes
    requires forall j :: 0 <= j < c.N() && answers[j].theirs.Some? ==> (c.targets[j], answers[j].theirs.value) in given
    ensures OnlyBy(c, w.alone, CloseFrom(c, wait, w, tokens, pending, answers, i, first).0.alone, given)
    decreases |tokens| - i
  {
    if i < |tokens| {
      var r := CloseOne(c, wait, w, tokens, pending, i, answers[i]);
      var next := if first == 0 then r.3 else first;
      TurnIsGiven(c, w, c.targets[i], answers[i].theirs, given);
      CloseGiven(c, wait, r.0, r.1, r.2, answers, i + 1, next, given);
      OnlyByTwice(c, w.alone, r.0.alone, CloseFrom(c, wait, r.0, r.1, r.2, answers, i + 1, next).0.alone, given);
    }
  }
}
