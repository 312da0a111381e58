// Small instances of where opening and closing fall short: two servers, an answer
// that is lost, and what stays behind.

module Shortfalls {
  import opened Structures
  import opened Topology
  import opened Relay
  import opened Opening
  import opened Closing
  import FileTable

  const ONE := Addr([1], 5300)
  const TWO := Addr([2], 5300)
  const TOKEN: Str := [7]

  // An empty file, for two servers.
  function Pair(): Config { Config([], 8192, Chain, [ONE, TWO], map[ONE := TOKEN, TWO := TOKEN], 1, 2) }

  function Servers(one: Node, two: Node): World {
    World(map[ONE := one, TWO := two], {}, multiset{}, map[ONE := map[], TWO := map[]])
  }

  function Empty(): Node { Node(map[], []) }

  function Holder(fd: int): Node { Node(map[TOKEN := FileTable.FileInfo(fd, 0, [], [], TOKEN, [])], []) }

  /******* Creates *******/

  function Open(fd: int): CreateExec { Os(FileTable.Opened(fd, true, 0)) }

  // A second execution of a create finds the token taken, by the first.
  lemma CreateTwice(i: nat, fd: int, other: int)
    requires i < 2 && fd > 0 && other > 0
    ensures ServeCreates(Pair(), i, Empty(), [Open(fd)]) == (Holder(fd), 0)
    ensures ServeCreates(Pair(), i, Empty(), [Open(fd), Open(other)]) == (Holder(fd), -EEXIST)
  {
    assert [Open(fd)][..0] == [] && [Open(fd), Open(other)][..1] == [Open(fd)];
    assert Pair().Token(i) == TOKEN;
  }

  lemma CreateOnPair(one: Node, two: Node, i: nat, ans: CreateAnswer)
    requires i < 2 && ans.theirs == None
    ensures var (node, r) := ServeCreates(Pair(), i, if i == 0 then one else two, ans.execs);
            CreateAt(Pair(), Servers(one, two), i, ans) ==
            (if i == 0 then Servers(node, two) else Servers(one, node), if ans.lost != 0 then ans.lost else r)
  {
    var (node, r) := ServeCreates(Pair(), i, if i == 0 then one else two, ans.execs);
    assert Servers(one, two).nodes[Pair().targets[i] := node] ==
           (if i == 0 then Servers(node, two) else Servers(one, node)).nodes;
  }

  // The second server has made its entry, and the client is told of an error, be it the
  // transport's or that of the repeat. It has one token for two entries.
  lemma UnheardCreateStays(fd: int, other: int, again: int, lost: int)
    requires fd > 0 && other > 0 && again > 0 && lost != 0
    ensures var first := CreateAnswer(None, [Open(fd)], 0);
            var left := Servers(Holder(fd), Holder(other));
            && OpenFrom(Pair(), Servers(Empty(), Empty()), [first, CreateAnswer(None, [Open(other)], lost)], []) ==
               (left, [TOKEN], lost)
            && OpenFrom(Pair(), Servers(Empty(), Empty()), [first, CreateAnswer(None, [Open(other), Open(again)], 0)],
                        []) ==
               (left, [TOKEN], -EEXIST)
  {
    var first := CreateAnswer(None, [Open(fd)], 0);
    CreateTwice(0, fd, again);
    CreateTwice(1, other, again);
    CreateOnPair(Empty(), Empty(), 0, first);
    CreateOnPair(Holder(fd), Empty(), 1, CreateAnswer(None, [Open(other)], lost));
    CreateOnPair(Holder(fd), Empty(), 1, CreateAnswer(None, [Open(other), Open(again)], 0));
    assert Pair().Token(0) == TOKEN && [] + [TOKEN] == [TOKEN];
  }

  /******* Closes *******/

  function CloseOnce(lost: int): CloseAnswer { CloseAnswer(None, [CloseExec(true, true)], lost) }

  // Only the first close of an entry replies 0.
  lemma CloseTwice(fd: int)
    ensures ServeCloses(true, Holder(fd), false, TOKEN, CloseOnce(0).execs) == (Empty(), false, 0)
    ensures ServeCloses(true, Empty(), false, TOKEN, CloseOnce(0).execs) == (Empty(), false, -ENOENT)
  {
    assert CloseOnce(0).execs[..0] == [];
    assert Holder(fd).fmap - {TOKEN} == map[];
  }

  lemma CloseOnPair(one: Node, two: Node, i: nat, lost: int)
    requires i < 2
    ensures var (node, o, r) :=
              ServeCloses(true, if i == 0 then one else two, false, TOKEN, CloseOnce(lost).execs);
            CloseAt(Pair(), true, Servers(one, two), i, false, TOKEN, CloseOnce(lost)) ==
            (if i == 0 then Servers(node, two) else Servers(one, node), o, if lost != 0 then lost else r)
  {
    var (node, o, r) := ServeCloses(true, if i == 0 then one else two, false, TOKEN, CloseOnce(lost).execs);
    assert Servers(one, two).nodes[Pair().targets[i] := node] ==
           (if i == 0 then Servers(node, two) else Servers(one, node)).nodes;
  }

  // Both entries are gone, and the client keeps a token.
  lemma UnheardCloseStays(fd: int, other: int, lost: int)
    requires lost != 0
    ensures CloseFrom(Pair(), true, Servers(Holder(fd), Holder(other)), [TOKEN, TOKEN], {},
                      [CloseOnce(0), CloseOnce(lost)], 0, 0) ==
            (Servers(Empty(), Empty()), [[], TOKEN], {}, lost)
  {
    var none: set<nat>, answers := {}, [CloseOnce(0), CloseOnce(lost)];
    CloseTwice(fd);
    CloseTwice(other);
    CloseOnPair(Holder(fd), Holder(other), 0, 0);
    CloseOnPair(Empty(), Holder(other), 1, lost);
    assert [TOKEN, TOKEN][0 := []] == [[], TOKEN] && none - {0} == none && none - {1} == none;
    assert CloseOne(Pair(), true, Servers(Holder(fd), Holder(other)), [TOKEN, TOKEN], none, 0, answers[0]) ==
           (Servers(Empty(), Holder(other)), [[], TOKEN], none, 0);
    assert CloseOne(Pair(), true, Servers(Empty(), Holder(other)), [[], TOKEN], none, 1, answers[1]) ==
           (Servers(Empty(), Empty()), [[], TOKEN], none, lost);
    assert CloseFrom(Pair(), true, Servers(Empty(), Holder(other)), [[], TOKEN], none, answers, 1, 0) ==
           CloseFrom(Pair(), true, Servers(Empty(), Empty()), [[], TOKEN], none, answers, 2, lost);
  }

  // Closing again does not help.
  lemma ClosingAgainFails()
    ensures CloseFrom(Pair(), true, Servers(Empty(), Empty()), [[], TOKEN], {}, [CloseOnce(0), CloseOnce(0)], 0, 0) ==
            (Servers(Empty(), Empty()), [[], TOKEN], {}, -ENOENT)
  {
    var w, none: set<nat> := Servers(Empty(), Empty()), {};
    CloseTwice(1);
    CloseOnPair(Empty(), Empty(), 1, 0);
    assert none - {1} == none;
    assert CloseOne(Pair(), true, w, [[], TOKEN], none, 1, CloseOnce(0)) == (w, [[], TOKEN], none, -ENOENT);
    assert CloseFrom(Pair(), true, w, [[], TOKEN], none, [CloseOnce(0), CloseOnce(0)], 1, 0) ==
           CloseFrom(Pair(), true, w, [[], TOKEN], none, [CloseOnce(0), CloseOnce(0)], 2, -ENOENT);
  }
}
