// Linking the servers into a chain or a tree: set_send_chain and set_send_tree of
// src/client/file_sender.cpp against handle_set_chain of src/server/service.cpp.

module Linking {
  import opened Structures
  import opened Relay
  import opened Entries
  import FileTable

  // One request: other clients' turn at the server, how often it is executed, and the
  // transport error in the end, or 0.
  datatype LinkAnswer = LinkAnswer(theirs: Option<FileTable.Table>, executed: nat, lost: int)

  predicate AnswersOk(c: Config, answers: seq<LinkAnswer>) {
    |answers| == c.N() && forall i :: 0 <= i < c.N() && answers[i].executed == 0 ==> answers[i].lost != 0
  }

  // n executions of one request, and the reply of the last.
  function ServeLinks(c: Config, i: nat, node: Node, ts: seq<ChainTarget>, n: nat): (Node, int)
    requires i < c.N()
  {
    if n == 0 then (node, 0)
    else
      var (t, ret) := FileTable.Link(ServeLinks(c, i, node, ts, n - 1).0.fmap, c.Token(i), ts);
      (node.(fmap := t), Int16(ret))
  }

  // Repeating the request changes nothing, nor does a request for a file that is not
  // open, which gets -1.
  lemma {:induction false} LinkingRepeats(c: Config, i: nat, node: Node, ts: seq<ChainTarget>, n: nat)
    requires i < c.N() && n > 0
    ensures ServeLinks(c, i, node, ts, n) ==
            if c.Token(i) in node.fmap then (node.(fmap := FileTable.Link(node.fmap, c.Token(i), ts).0), 0)
            else (node, -1)
    decreases n
  {
    if n > 1 {
      LinkingRepeats(c, i, node, ts, n - 1);
      var t := FileTable.Link(node.fmap, c.Token(i), ts).0;
      assert FileTable.Link(t, c.Token(i), ts).0 == t;
    }
  }

  function LinkAt(c: Config, w: World, i: nat, ts: seq<ChainTarget>, ans: LinkAnswer): (r: (World, int))
    requires i < c.N() && c.targets[i] in w.nodes
    ensures r.0.nodes.Keys == w.nodes.Keys && r.0 == w.(nodes := r.0.nodes, alone := r.0.alone)
  {
    var w1 := Turn(c, w, c.targets[i], ans.theirs);
    var (node, r) := ServeLinks(c, i, w1.nodes[c.targets[i]], ts, ans.executed);
    (Served(w1, c.targets[i], node), if ans.lost != 0 then ans.lost else r)
  }

  // The linking loops, from target i on. Targets without children are never asked.
  function LinkFrom(c: Config, w: World, answers: seq<LinkAnswer>, i: nat): (r: (World, int))
    requires |answers| == c.N() && (forall j :: 0 <= j < c.N() ==> c.targets[j] in w.nodes)
    ensures r.0.nodes.Keys == w.nodes.Keys && r.0 == w.(nodes := r.0.nodes, alone := r.0.alone)
    decreases c.N() - i
  {
    if i >= c.N() || c.Kids(i) == [] then (w, 0)
    else
      var (w1, err) := LinkAt(c, w, i, c.Links(i), answers[i]);
      if err != 0 then (w1, err) else LinkFrom(c, w1, answers, i + 1)
  }

  // The first i targets have their links.
  ghost predicate LinkedUpTo(c: Config, nodes: map<Addr, Node>, i: nat) {
    forall j :: 0 <= j < c.N() ==> LinkedAt(c, nodes, i, j)
  }

  ghost predicate LinkedAt(c: Config, nodes: map<Addr, Node>, i: nat, j: nat)
    requires j < c.N()
  {
    EntryAt(c, nodes, j, if j < i then c.Links(j) else []) && nodes[c.targets[j]].disk == []
  }

  predicate AllLinked(c: Config, answers: seq<LinkAnswer>, i: nat)
    requires |answers| == c.N()
  {
    forall j :: i <= j < c.N() && c.Kids(j) != [] ==> answers[j].lost == 0
  }

  // The first link from target i on that is lost, if there is one, and what the client
  // is told of it.
  predicate Told(c: Config, answers: seq<LinkAnswer>, i: nat, err: int)
    requires |answers| == c.N()
  {
    if AllLinked(c, answers, i) then err == 0
    else
      exists j :: i <= j < c.N() && c.Kids(j) != [] && answers[j].lost == err != 0 &&
        forall k :: i <= k < j ==> answers[k].lost == 0
  }

  // A link that is executed keeps every entry, sets this one's links, and replies 0.
  lemma LinkEffect(c: Config, w: World, i: nat, ans: LinkAnswer, mine: set<Addr>)
    requires i < c.N() && c.targets[i] in mine && Ledger(c, w, mine) && (ans.executed == 0 ==> ans.lost != 0)
    ensures var (w1, err) := LinkAt(c, w, i, c.Links(i), ans);
            && Ledger(c, w1, mine) && SameTaken(c, w.alone, w1.alone) && err == ans.lost
  {
    var a := c.targets[i];
    var w1 := Turn(c, w, a, ans.theirs);
    TurnKeeps(c, w, a, ans.theirs, mine);
    assert LedgerAt(c.TokenAt(a), |c.src|, w1.alone[a], w1.nodes[a].fmap, true);
    if ans.executed > 0 {
      LinkingRepeats(c, i, w1.nodes[a], c.Links(i), ans.executed);
      LinkKeepsLedgerAt(c.TokenAt(a), |c.src|, w1.alone[a], w1.nodes[a].fmap, c.Links(i));
    }
    ServedKeeps(c, w1, mine, a, ServeLinks(c, i, w1.nodes[a], c.Links(i), ans.executed).0, mine);
  }

  lemma LinkKeepsLedgerAt(token: Str, size: nat, theirs: FileTable.Table, all: FileTable.Table, ts: seq<ChainTarget>)
    requires LedgerAt(token, size, theirs, all, true)
    ensures LedgerAt(token, size, theirs, FileTable.Link(all, token, ts).0, true)
  {
    assert FileTable.Link(all, token, ts).0 - {token} == all - {token};
  }

  // How many targets have their links after one request to target i.
  function After(i: nat, ans: LinkAnswer): nat { if ans.executed > 0 then i + 1 else i }

  lemma LinkOne(c: Config, w: World, i: nat, ans: LinkAnswer)
    requires i < c.N() && Apart(c, c.N()) && LinkedUpTo(c, w.nodes, i)
    requires forall j :: 0 <= j < c.N() ==> c.targets[j] in w.nodes
    ensures LinkedUpTo(c, LinkAt(c, w, i, c.Links(i), ans).0.nodes, After(i, ans))
  {
    var nodes', next := LinkAt(c, w, i, c.Links(i), ans).0.nodes, After(i, ans);
    forall j | 0 <= j < c.N() ensures LinkedAt(c, nodes', next, j) {
      LinkOneAt(c, w, i, ans, j);
    }
  }

  lemma LinkOneAt(c: Config, w: World, i: nat, ans: LinkAnswer, j: nat)
    requires i < c.N() && j < c.N() && Apart(c, c.N()) && LinkedUpTo(c, w.nodes, i) && c.targets[i] in w.nodes
    ensures LinkedAt(c, LinkAt(c, w, i, c.Links(i), ans).0.nodes, After(i, ans), j)
  {
    assert LinkedAt(c, w.nodes, i, j);
    TurnKeepsOwn(c, w, c.targets[i], ans.theirs, c.targets[j]);
    if j == i && ans.executed > 0 {
      LinkingRepeats(c, i, Turn(c, w, c.targets[i], ans.theirs).nodes[c.targets[i]], c.Links(i), ans.executed);
    }
  }

  lemma ChildlessFromHere(c: Config, nodes: map<Addr, Node>, i: nat)
    requires LinkedUpTo(c, nodes, i) && (i >= c.N() || c.Kids(i) == [])
    ensures LinkedUpTo(c, nodes, c.N())
    ensures forall j :: i <= j < c.N() ==> c.Kids(j) == []
  {
    forall j | 0 <= j < c.N()
      ensures LinkedAt(c, nodes, c.N(), j) && (i <= j ==> c.Kids(j) == [])
    {
      assert LinkedAt(c, nodes, i, j);
      if i <= j { assert c.Kids(j) == [] && c.Links(j) == []; }
    }
  }

  lemma AllLinkedStep(c: Config, answers: seq<LinkAnswer>, i: nat)
    requires i < c.N() == |answers| && c.Kids(i) != []
    ensures AllLinked(c, answers, i) <==> answers[i].lost == 0 && AllLinked(c, answers, i + 1)
  {
  }

  // How many targets have their links in the end: all, or those up to the first link
  // that is lost, and that one if it was executed.
  function LinkedTo(c: Config, answers: seq<LinkAnswer>, i: nat): nat
    requires i <= c.N() == |answers|
    decreases c.N() - i
  {
    if i == c.N() || c.Kids(i) == [] then c.N()
    else if answers[i].lost != 0 then After(i, answers[i])
    else LinkedTo(c, answers, i + 1)
  }

  // Linking succeeds exactly if no request to a target with children is lost, and
  // then every server has its links, leaves included, each carrying the token that its
  // own target handed out. In any case every entry is there as before, and beyond the
  // first link that is lost none has links.
  lemma {:induction false} LinkIsComplete(c: Config, w: World, answers: seq<LinkAnswer>, i: nat, mine: set<Addr>)
    requires AnswersOk(c, answers) && i <= c.N() && Apart(c, c.N()) && Ledger(c, w, mine)
    requires LinkedUpTo(c, w.nodes, i) && forall j :: 0 <= j < c.N() ==> c.targets[j] in mine && c.targets[j] in w.nodes
    ensures var (w', err) := LinkFrom(c, w, answers, i);
            && Ledger(c, w', mine) && SameTaken(c, w.alone, w'.alone)
            && (err == 0 <==> AllLinked(c, answers, i)) && LinkedUpTo(c, w'.nodes, LinkedTo(c, answers, i))
    decreases c.N() - i
  {
    if i >= c.N() || c.Kids(i) == [] {
      ChildlessFromHere(c, w.nodes, i);
    } else {
      var w1 := LinkAt(c, w, i, c.Links(i), answers[i]).0;
      LinkEffect(c, w, i, answers[i], mine);
      LinkOne(c, w, i, answers[i]);
      AllLinkedStep(c, answers, i);
      if answers[i].lost == 0 {
        LinkIsComplete(c, w1, answers, i + 1, mine);
        assert LinkFrom(c, w, answers, i) == LinkFrom(c, w1, answers, i + 1);
      }
    }
  }

  lemma {:induction false} LinkedToAll(c: Config, answers: seq<LinkAnswer>, i: nat)
    requires i <= c.N() == |answers| && AllLinked(c, answers, i)
    ensures LinkedTo(c, answers, i) == c.N()
    decreases c.N() - i
  {
    if i < c.N() && c.Kids(i) != [] { LinkedToAll(c, answers, i + 1); }
  }

  lemma ToldStep(c: Config, answers: seq<LinkAnswer>, i: nat, err: int)
    requires i < c.N() == |answers| && c.Kids(i) != []
    requires if answers[i].lost != 0 then err == answers[i].lost else Told(c, answers, i + 1, err)
    ensures Told(c, answers, i, err)
  {
    AllLinkedStep(c, answers, i);
    if answers[i].lost == 0 && err != 0 {
      var j :| i + 1 <= j < c.N() && c.Kids(j) != [] && answers[j].lost == err &&
               forall k :: i + 1 <= k < j ==> answers[k].lost == 0;
      assert i <= j;
    }
  }

  // Linking stops at the first link that is lost, with its error.
  lemma {:induction false} LinkTells(c: Config, w: World, answers: seq<LinkAnswer>, i: nat, mine: set<Addr>, err: int)
    requires AnswersOk(c, answers) && i <= c.N() && Ledger(c, w, mine)
    requires forall j :: 0 <= j < c.N() ==> c.targets[j] in mine && c.targets[j] in w.nodes
    requires err == LinkFrom(c, w, answers, i).1
    ensures Told(c, answers, i, err)
    decreases c.N() - i
  {
    if i < c.N() && c.Kids(i) != [] {
      var w1 := LinkAt(c, w, i, c.Links(i), answers[i]).0;
      LinkEffect(c, w, i, answers[i], mine);
      if answers[i].lost == 0 { LinkTells(c, w1, answers, i + 1, mine, err); }
      ToldStep(c, answers, i, err);
    } else {
      assert forall j :: i <= j < c.N() ==> c.Kids(j) == [];
    }
  }

  // What other clients do is what the answers say, and nothing else.
  lemma {:induction false} LinkGiven(c: Config, w: World, answers: seq<LinkAnswer>, i: nat,
                                     given: set<(Addr, FileTable.Table)>)
    requires |answers| == c.N() && forall j :: 0 <= j < c.N() ==> c.targets[j] in w.nodes
    requires forall j :: 0 <= j < c.N() && answers[j].theirs.Some? ==> (c.targets[j], answers[j].theirs.value) in given
    ensures OnlyBy(c, w.alone, LinkFrom(c, w, answers, i).0.alone, given)
    decreases c.N() - i
  {
    if i < c.N() && c.Kids(i) != [] {
      var w1 := LinkAt(c, w, i, c.Links(i), answers[i]).0;
      TurnIsGiven(c, w, c.targets[i], answers[i].theirs, given);
      LinkGiven(c, w1, answers, i + 1, given);
      OnlyByTwice(c, w.alone, w1.alone, LinkFrom(c, w1, answers, i + 1).0.alone, given);
    }
  }
}
