// Whose entries are in the servers' tables while an upload and other clients are
// at work on them.

module Entries {
  import opened Structures
  import opened Relay
  import FileTable

  type Tables = map<Addr, FileTable.Table>

  function TablesOf(nodes: map<Addr, Node>): Tables { map a | a in nodes :: nodes[a].fmap }

  /******* Other clients *******/

  // A table that other clients change to t. They do as they like with all entries
  // but the one under this upload's token.
  function Theirs(token: Str, now: FileTable.Table, t: FileTable.Table): FileTable.Table {
    if token in now then t[token := now[token]] else t - {token}
  }

  // The other clients have changed the table at a, and so they would have without
  // this upload. Each request to a server is preceded by such a turn.
  function Turn(c: Config, w: World, a: Addr, t: Option<FileTable.Table>): (r: World)
    ensures r.nodes.Keys == w.nodes.Keys && r.alone.Keys == w.alone.Keys
    ensures r == w.(nodes := r.nodes, alone := r.alone)
  {
    if t.None? || a !in w.nodes || a !in w.alone then w
    else
      w.(nodes := w.nodes[a := w.nodes[a].(fmap := Theirs(c.TokenAt(a), w.nodes[a].fmap, t.value))],
         alone := w.alone[a := Theirs(c.TokenAt(a), w.alone[a], t.value)])
  }

  // The same servers, and the token taken at the same ones.
  ghost predicate SameTaken(c: Config, base: Tables, now: Tables) {
    base.Keys == now.Keys && forall a :: a in base ==> (c.TokenAt(a) in base[a] <==> c.TokenAt(a) in now[a])
  }

  lemma SameTakenTwice(c: Config, x: Tables, y: Tables, z: Tables)
    requires SameTaken(c, x, y) && SameTaken(c, y, z)
    ensures SameTaken(c, x, z)
  {
  }

  // The others' tables have changed only as given, and not under this upload's token.
  ghost predicate OnlyBy(c: Config, before: Tables, after: Tables, given: set<(Addr, FileTable.Table)>) {
    before.Keys == after.Keys && forall a :: a in before ==> OnlyByAt(c, a, before[a], after[a], given)
  }

  ghost predicate OnlyByAt(c: Config, a: Addr, before: FileTable.Table, after: FileTable.Table,
                           given: set<(Addr, FileTable.Table)>)
  {
    after == before || exists t :: (a, t) in given && after == Theirs(c.TokenAt(a), before, t)
  }

  lemma TurnIsGiven(c: Config, w: World, a: Addr, t: Option<FileTable.Table>, given: set<(Addr, FileTable.Table)>)
    requires t.Some? ==> (a, t.value) in given
    ensures OnlyBy(c, w.alone, Turn(c, w, a, t).alone, given)
  {
  }

  lemma OnlyByTwice(c: Config, x: Tables, y: Tables, z: Tables, given: set<(Addr, FileTable.Table)>)
    requires OnlyBy(c, x, y, given) && OnlyBy(c, y, z, given)
    ensures OnlyBy(c, x, z, given)
  {
    forall a | a in x ensures OnlyByAt(c, a, x[a], z[a], given) {
      assert OnlyByAt(c, a, x[a], y[a], given) && OnlyByAt(c, a, y[a], z[a], given);
    }
  }

  /******* The ledger *******/

  // The tables are those of the others, plus an entry of this upload, of the size of
  // its file, at each server in mine.
  ghost predicate Ledger(c: Config, w: World, mine: set<Addr>) {
    && w.nodes.Keys == w.alone.Keys && mine <= w.alone.Keys
    && forall a :: a in w.alone ==> LedgerAt(c.TokenAt(a), |c.src|, w.alone[a], w.nodes[a].fmap, a in mine)
  }

  ghost predicate LedgerAt(token: Str, size: nat, theirs: FileTable.Table, all: FileTable.Table, mine: bool) {
    if mine then token !in theirs && token in all && all[token].totalSize == size && all - {token} == theirs
    else all == theirs
  }

  lemma TurnKeepsLedgerAt(token: Str, size: nat, theirs: FileTable.Table, all: FileTable.Table, mine: bool,
                          t: FileTable.Table)
    requires LedgerAt(token, size, theirs, all, mine)
    ensures LedgerAt(token, size, Theirs(token, theirs, t), Theirs(token, all, t), mine)
  {
  }

  lemma TurnTakesNone(c: Config, w: World, a: Addr, t: Option<FileTable.Table>)
    ensures SameTaken(c, w.alone, Turn(c, w, a, t).alone)
  {
  }

  // A turn of the others changes their entries only, here as it would have alone.
  lemma TurnKeeps(c: Config, w: World, a: Addr, t: Option<FileTable.Table>, mine: set<Addr>)
    requires Ledger(c, w, mine)
    ensures Ledger(c, Turn(c, w, a, t), mine) && SameTaken(c, w.alone, Turn(c, w, a, t).alone)
  {
    if t.Some? && a in w.nodes {
      TurnKeepsLedgerAt(c.TokenAt(a), |c.src|, w.alone[a], w.nodes[a].fmap, a in mine, t.value);
    }
  }

  lemma TurnKeepsOwn(c: Config, w: World, a: Addr, t: Option<FileTable.Table>, b: Addr)
    requires b in w.nodes
    ensures SameOwn(c, b, w.nodes[b], Turn(c, w, a, t).nodes[b])
  {
  }

  // The file and the entry of this upload, if there is one.
  ghost predicate SameOwn(c: Config, a: Addr, n: Node, n': Node) {
    && n'.disk == n.disk
    && (c.TokenAt(a) in n'.fmap <==> c.TokenAt(a) in n.fmap)
    && (c.TokenAt(a) in n.fmap ==> n'.fmap[c.TokenAt(a)] == n.fmap[c.TokenAt(a)])
  }

  // A server after a request.
  function Served(w: World, a: Addr, node: Node): World { w.(nodes := w.nodes[a := node]) }

  // One request at one server: only this upload's entry may come, go or change.
  lemma ServedKeeps(c: Config, w: World, mine: set<Addr>, a: Addr, node: Node, mine': set<Addr>)
    requires Ledger(c, w, mine) && a in w.nodes
    requires mine' == mine || mine' == mine + {a} || mine' == mine - {a}
    requires LedgerAt(c.TokenAt(a), |c.src|, w.alone[a], node.fmap, a in mine')
    ensures Ledger(c, Served(w, a, node), mine')
  {
  }

  lemma NothingLeft(c: Config, w: World)
    requires Ledger(c, w, {})
    ensures TablesOf(w.nodes) == w.alone
  {
    forall a | a in w.alone ensures w.nodes[a].fmap == w.alone[a] {
      assert LedgerAt(c.TokenAt(a), |c.src|, w.alone[a], w.nodes[a].fmap, false);
    }
  }

  /******* The client's tokens *******/

  ghost predicate Apart(c: Config, n: nat) {
    n <= c.N() && forall i, j :: 0 <= i < j < n ==> c.targets[i] != c.targets[j]
  }

  ghost predicate TokensOk(c: Config, tokens: seq<Str>) {
    Apart(c, |tokens|) && forall i :: 0 <= i < |tokens| && tokens[i] != [] ==> tokens[i] == c.Token(i)
  }

  // The servers whose token is not empty.
  function Live(c: Config, tokens: seq<Str>): (r: set<Addr>)
    requires |tokens| <= c.N()
  {
    set i | 0 <= i < |tokens| && tokens[i] != [] :: c.targets[i]
  }

  // An entry at target i, for a file of the right size, linked to ts.
  ghost predicate EntryAt(c: Config, nodes: map<Addr, Node>, i: nat, ts: seq<ChainTarget>)
    requires i < c.N()
  {
    && c.targets[i] in nodes && c.Token(i) in nodes[c.targets[i]].fmap
    && nodes[c.targets[i]].fmap[c.Token(i)].totalSize == |c.src|
    && nodes[c.targets[i]].fmap[c.Token(i)].targets == ts
  }
}
