// The forwarding tree that the linking loops of src/client/file_sender.cpp build.

module Topology {

  datatype Shape = Chain | Tree

  function Parent(m: Shape, j: nat): nat
    requires j > 0
  {
    match m
    case Chain => j - 1
    case Tree => (j - 1) / 2
  }

  function Children(m: Shape, n: nat, i: nat): seq<nat> {
    match m
    case Chain => if i + 1 < n then [i + 1] else []
    case Tree =>
      if 2 * i + 2 < n then [2 * i + 1, 2 * i + 2]
      else if 2 * i + 1 < n then [2 * i + 1] else []
  }

  lemma ChildrenArePreimage(m: Shape, n: nat, i: nat)
    ensures forall j: nat :: j in Children(m, n, i) <==> 0 < j < n && Parent(m, j) == i
    ensures forall a, b :: 0 <= a < b < |Children(m, n, i)| ==> Children(m, n, i)[a] < Children(m, n, i)[b]
    ensures forall a :: 0 <= a < |Children(m, n, i)| ==> i < Children(m, n, i)[a] < n
  {
  }

  // j lies in the subtree rooted at i.
  predicate Under(m: Shape, i: nat, j: nat)
    decreases j
  {
    j == i || (j > i && Under(m, i, Parent(m, j)))
  }

  lemma {:induction false} RootCoversAll(m: Shape, j: nat)
    ensures Under(m, 0, j)
    decreases j
  {
    if j > 0 { RootCoversAll(m, Parent(m, j)); }
  }

  lemma {:induction false} UnderSplits(m: Shape, n: nat, i: nat, j: nat)
    requires j < n
    ensures Under(m, i, j) <==> j == i || exists a :: 0 <= a < |Children(m, n, i)| && Under(m, Children(m, n, i)[a], j)
    decreases j
  {
    var ch := Children(m, n, i);
    ChildrenArePreimage(m, n, i);
    if j > i {
      UnderSplits(m, n, i, Parent(m, j));
      if Parent(m, j) == i {
        var a :| 0 <= a < |ch| && ch[a] == j;
        assert Under(m, ch[a], j);
      } else if Under(m, i, j) {
        var a :| 0 <= a < |ch| && Under(m, ch[a], Parent(m, j));
        assert Under(m, ch[a], j);
      } else if a :| 0 <= a < |ch| && Under(m, ch[a], j) {
        assert j == ch[a] || Under(m, ch[a], Parent(m, j));
      }
    }
  }

  lemma {:induction false} AncestorsLineUp(m: Shape, a: nat, b: nat, j: nat)
    requires Under(m, a, j) && Under(m, b, j) && a <= b
    ensures Under(m, a, b)
    decreases j
  {
    if j != b { AncestorsLineUp(m, a, b, Parent(m, j)); }
  }

  lemma SiblingsAreDisjoint(m: Shape, n: nat, i: nat, x: nat, y: nat, j: nat)
    requires x < |Children(m, n, i)| && y < |Children(m, n, i)| && x != y
    ensures !(Under(m, Children(m, n, i)[x], j) && Under(m, Children(m, n, i)[y], j))
    ensures !Under(m, Children(m, n, i)[x], i)
  {
    ChildrenArePreimage(m, n, i);
    var a, b := Children(m, n, i)[if x < y then x else y], Children(m, n, i)[if x < y then y else x];
    assert Under(m, a, b) <==> Under(m, a, Parent(m, b));
    if Under(m, a, j) && Under(m, b, j) { AncestorsLineUp(m, a, b, j); }
  }

  /******* Depth and the hop budget *******/

  function Depth(m: Shape, j: nat): nat
    decreases j
  {
    if j == 0 then 0 else 1 + Depth(m, Parent(m, j))
  }

  lemma {:induction false} DepthMonotone(m: Shape, i: nat, j: nat)
    requires i <= j
    ensures Depth(m, i) <= Depth(m, j) <= j
    decreases j
  {
    if i > 0 { DepthMonotone(m, Parent(m, i), Parent(m, j)); }
    else if j > 0 { DepthMonotone(m, 0, Parent(m, j)); }
  }

  function Pow2(d: nat): nat { if d == 0 then 1 else 2 * Pow2(d - 1) }

  // Depth is the index in a chain, and floor(log2(j + 1)) in a tree.
  lemma {:induction false} DepthIs(m: Shape, j: nat)
    ensures m == Chain ==> Depth(m, j) == j
    ensures m == Tree ==> Pow2(Depth(m, j)) <= j + 1 < Pow2(Depth(m, j) + 1)
    decreases j
  {
    if j > 0 { DepthIs(m, Parent(m, j)); }
  }
}
