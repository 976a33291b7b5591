// In-order positions: what following rbtree_next and rbtree_prev must visit.
module RbWalk {
  import opened RbShape
  import opened RbOrder

  // The node at position k of the in-order sequence, or null past either end.
  function NodeAt<K, D>(t: Shape<K, D>, k: int): (n: RbNode?<K, D>)
    ensures n != null ==> n in Nodes(t)
  {
    if 0 <= k < |InOrder(t)| then InOrderInNodes(t, k); InOrder(t)[k].node else null
  }

  // The position of a node of the tree.
  ghost function Rank<K, D>(t: Shape<K, D>, n: RbNode<K, D>): (k: nat)
    requires n in Nodes(t)
    ensures k < |InOrder(t)| && NodeAt(t, k) == n
  {
    if n == t.entry.node then |InOrder(t.left)|
    else if n in Nodes(t.left) then Rank(t.left, n)
    else |InOrder(t.left)| + 1 + Rank(t.right, n)
  }

  lemma {:induction false} InOrderInNodes<K, D>(t: Shape<K, D>, k: nat)
    requires k < |InOrder(t)|
    ensures InOrder(t)[k].node in Nodes(t)
  {
    var l := |InOrder(t.left)|;
    if k < l {
      InOrderInNodes(t.left, k);
    } else if k > l {
      InOrderInNodes(t.right, k - l - 1);
    }
  }

  lemma {:induction false} RankOfNodeAt<K, D>(t: Shape<K, D>, k: nat)
    requires Distinct(t) && k < |InOrder(t)|
    ensures InOrder(t)[k].node in Nodes(t) && Rank(t, InOrder(t)[k].node) == k
  {
    InOrderInNodes(t, k);
    var l := |InOrder(t.left)|;
    if k < l {
      RankOfNodeAt(t.left, k);
    } else if k > l {
      InOrderInNodes(t.right, k - l - 1);
      RankOfNodeAt(t.right, k - l - 1);
    }
  }

  // What rbtree_next and rbtree_prev return; see Tree.Next and Tree.Prev.
  ghost function Successor<K, D>(t: Shape<K, D>, n: RbNode<K, D>): (m: RbNode?<K, D>)
    requires n in Nodes(t)
    ensures m != null ==> m in Nodes(t)
  {
    NodeAt(t, Rank(t, n) + 1)
  }

  ghost function Predecessor<K, D>(t: Shape<K, D>, n: RbNode<K, D>): RbNode?<K, D>
    requires n in Nodes(t)
  {
    NodeAt(t, Rank(t, n) - 1)
  }

  lemma PrevUndoesNext<K, D>(t: Shape<K, D>, n: RbNode<K, D>)
    requires Distinct(t) && n in Nodes(t)
    ensures Successor(t, n) != null ==> Successor(t, n) in Nodes(t) && Predecessor(t, Successor(t, n)) == n
    ensures Predecessor(t, n) != null ==> Predecessor(t, n) in Nodes(t) && Successor(t, Predecessor(t, n)) == n
  {
    hide InOrder;
    hide Nodes;
    hide Distinct;
    hide Rank;
    var k := Rank(t, n);
    if k + 1 < |InOrder(t)| { RankOfNodeAt(t, k + 1); }
    if k > 0 { RankOfNodeAt(t, k - 1); }
  }

  // The node reached from the minimum by k steps of rbtree_next.
  ghost function Walk<K, D>(t: Shape<K, D>, k: nat): (n: RbNode?<K, D>)
    requires Distinct(t)
    ensures n != null ==> n in Nodes(t)
  {
    if k == 0 then NodeAt(t, 0) else
    var m := Walk(t, k - 1);
    if m == null then null else Successor(t, m)
  }

  // The walk visits every entry exactly once, in order, and then ends.
  lemma {:induction false} WalkVisitsAll<K, D>(t: Shape<K, D>, k: nat)
    requires Distinct(t)
    ensures Walk(t, k) == NodeAt(t, k)
  {
    hide InOrder;
    hide Nodes;
    hide Distinct;
    hide Rank;
    if k > 0 {
      WalkVisitsAll(t, k - 1);
      if k - 1 < |InOrder(t)| { RankOfNodeAt(t, k - 1); }
    }
  }

  lemma NoNodeTwice<K, D>(t: Shape<K, D>, i: nat, j: nat)
    requires Distinct(t) && i < j < |InOrder(t)|
    ensures InOrder(t)[i].node != InOrder(t)[j].node
  {
    RankOfNodeAt(t, i);
    RankOfNodeAt(t, j);
  }

  // ----- finding a node's place

  // The path from (p, t) down to the entry at position k of t.
  function PathTo<K, D>(p: Path<K, D>, t: Shape<K, D>, k: nat): (Path<K, D>, Shape<K, D>)
    requires k < |InOrder(t)|
    decreases t
  {
    var l := |InOrder(t.left)|;
    if k == l then (p, t)
    else if k < l then PathTo(Step(L, t.color, t.entry, t.right, p), t.left, k)
    else PathTo(Step(R, t.color, t.entry, t.left, p), t.right, k - l - 1)
  }

  lemma {:induction false} PathToFacts<K, D>(p: Path<K, D>, t: Shape<K, D>, k: nat)
    requires k < |InOrder(t)|
    ensures var (q, s) := PathTo(p, t, k);
      && s.Fork? && s.entry == InOrder(t)[k] && |LeftOf(q, s)| == |Before(p)| + k
      && Plug(q, s) == Plug(p, t) && PathNodes(q) + Nodes(s) == PathNodes(p) + Nodes(t)
    decreases t
  {
    var l := |InOrder(t.left)|;
    if k < l {
      PathToFacts(Step(L, t.color, t.entry, t.right, p), t.left, k);
    } else if k > l {
      PathToFacts(Step(R, t.color, t.entry, t.left, p), t.right, k - l - 1);
    }
  }

  // Seen from a node, its successor is the first entry right of it and its predecessor the
  // last entry left of it.
  function FirstNode<K, D>(s: seq<Entry<K, D>>): RbNode?<K, D> {
    if s == [] then null else s[0].node
  }

  function LastNode<K, D>(s: seq<Entry<K, D>>): RbNode?<K, D> {
    if s == [] then null else s[|s| - 1].node
  }

  lemma NeighboursInSeq<K, D>(s: seq<Entry<K, D>>, a: seq<Entry<K, D>>, x: Entry<K, D>, b: seq<Entry<K, D>>)
    requires s == a + [x] + b
    ensures FirstNode(b) == if |a| + 1 < |s| then s[|a| + 1].node else null
    ensures LastNode(a) == if |a| > 0 then s[|a| - 1].node else null
  {
    if b != [] { assert s[|a| + 1] == b[0]; }
  }

  lemma Neighbours<K, D>(t: Shape<K, D>, k: nat, p: Path<K, D>, s: Shape<K, D>)
    requires k < |InOrder(t)| && (p, s) == PathTo(Top, t, k)
    ensures s.Fork? && s.entry.node == NodeAt(t, k)
    ensures FirstNode(RightOf(p, s)) == NodeAt(t, k + 1)
    ensures LastNode(LeftOf(p, s)) == NodeAt(t, k - 1)
  {
    PathToFacts(Top, t, k);
    assert Plug(p, s) == t;
    SplitAtRoot(p, s);
    NeighboursInSeq(InOrder(t), LeftOf(p, s), s.entry, RightOf(p, s));
  }

  lemma {:induction false} MinIsFirst<K, D>(t: Shape<K, D>)
    requires t.Fork?
    ensures InOrder(t) != [] && InOrder(t)[0] == MinTree(t).entry
  {
    if t.left.Fork? { MinIsFirst(t.left); }
  }

  function MaxTree<K, D>(t: Shape<K, D>): (m: Shape<K, D>)
    requires t.Fork?
    ensures m.Fork? && m.right.Leaf?
  {
    if t.right.Leaf? then t else MaxTree(t.right)
  }

  lemma {:induction false} MaxIsLast<K, D>(t: Shape<K, D>)
    requires t.Fork?
    ensures InOrder(t) != [] && InOrder(t)[|InOrder(t)| - 1] == MaxTree(t).entry
  {
    if t.right.Fork? { MaxIsLast(t.right); }
  }
}
