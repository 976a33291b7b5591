// The red-black tree of t2u_rbtree.c, on linked nodes with parent pointers.
module RbTree {
  import opened RbShape
  import opened RbOrder
  import opened RbWalk

  // ----- what it means for linked nodes to spell out a shape

  function RootOf<K, D>(t: Shape<K, D>): RbNode?<K, D> {
    if t.Leaf? then null else t.entry.node
  }

  // The node whose child the hole of p is.
  function Owner<K, D>(p: Path<K, D>): RbNode?<K, D> {
    if p.Top? then null else p.entry.node
  }

  function TopOf<K, D>(p: Path<K, D>, hole: RbNode?<K, D>): RbNode?<K, D>
    decreases p
  {
    if p.Top? then hole else TopOf(p.up, p.entry.node)
  }

  ghost predicate Stores<K, D>(e: Entry<K, D>, c: Color)
    reads e.node
  {
    e.node.color == c && e.node.key == e.key && e.node.data == e.data
  }

  ghost predicate Linked<K, D>(t: Shape<K, D>, parent: RbNode?<K, D>)
    reads Nodes(t)
    decreases t
  {
    t.Fork? ==>
      var n := t.entry.node;
      && Stores(t.entry, t.color)
      && n.parent == parent && n.left == RootOf(t.left) && n.right == RootOf(t.right)
      && Linked(t.left, n) && Linked(t.right, n)
  }

  ghost predicate Around<K, D>(p: Path<K, D>, hole: RbNode?<K, D>)
    reads PathNodes(p)
    decreases p
  {
    p.Step? ==>
      var n := p.entry.node;
      && Stores(p.entry, p.color)
      && n.parent == Owner(p.up)
      && n.left == (if p.side == L then hole else RootOf(p.sibling))
      && n.right == (if p.side == R then hole else RootOf(p.sibling))
      && Linked(p.sibling, n) && Around(p.up, n)
  }

  class Tree<K(!new), D> {
    const compare: (K, K) -> int
    var root: RbNode?<K, D>
    ghost var shape: Shape<K, D>

    // The heap holds subtree t at the end of path p, and nothing is shared.
    ghost predicate Focus(p: Path<K, D>, t: Shape<K, D>)
      reads this`root, Nodes(t), PathNodes(p)
    {
      && Apart(p, t)
      && root == TopOf(p, RootOf(t))
      && Linked(t, Owner(p))
      && Around(p, RootOf(t))
    }

    lemma ZoomOut(p: Path<K, D>, t: Shape<K, D>)
      requires p.Step? && Focus(p, t)
      ensures Focus(p.up, Make(p.side, p.color, p.entry, t, p.sibling))
      ensures Nodes(Make(p.side, p.color, p.entry, t, p.sibling)) + PathNodes(p.up) == Nodes(t) + PathNodes(p)
    {
    }

    lemma ZoomIn(d: Side, p: Path<K, D>, t: Shape<K, D>)
      requires t.Fork? && Focus(p, t)
      ensures Focus(Step(d, t.color, t.entry, Far(d, t), p), Near(d, t))
      ensures Nodes(Near(d, t)) + PathNodes(Step(d, t.color, t.entry, Far(d, t), p)) == Nodes(t) + PathNodes(p)
    {
    }

    method SetColor(color: Color, node: RbNode<K, D>, ghost p: Path<K, D>, ghost t: Shape<K, D>)
      requires Focus(p, t) && node == RootOf(t)
      modifies node`color
      ensures Focus(p, Paint(t, color))
      ensures Nodes(Paint(t, color)) == Nodes(t)
    {
      node.color := color;
    }

    // The links from above lead to hole.
    ghost predicate LedTo(p: Path<K, D>, hole: RbNode?<K, D>)
      reads this`root, PathNodes(p)
    {
      root == TopOf(p, hole) && Around(p, hole)
    }

    // Both rotations and replace_node begin by making what points at node point at q.
    method Redirect(node: RbNode<K, D>, q: RbNode?<K, D>, ghost p: Path<K, D>)
      requires DistinctPath(p) && LedTo(p, node) && node !in PathNodes(p) && node.parent == Owner(p)
      modifies this`root, (if p.Top? then {} else {p.entry.node})
      ensures LedTo(p, q)
    {
      var parent := node.parent;
      ghost var other := if p.Step? then RootOf(p.sibling) else null;
      assert p.Step? ==> other != node;
      if parent == null {
        root := q;
      } else {
        if parent.left == node {
          parent.left := q;
        } else {
          parent.right := q;
        }
      }
      assert p.Step? ==> Linked(p.sibling, parent) && Around(p.up, parent);
    }

    method SetParent(parent: RbNode<K, D>, node: RbNode<K, D>, ghost t: Shape<K, D>)
      requires t.Fork? && node == t.entry.node && Distinct(t) && Linked(t, node.parent)
      modifies node`parent
      ensures node.parent == parent && Linked(t, parent)
    {
      assert Linked(t.left, node) && Linked(t.right, node);
      node.parent := parent;
    }

    // The rest of the rotation, below the parent: q comes up, node goes down.
    method TurnLeft(node: RbNode<K, D>, q: RbNode<K, D>, ghost t: Shape<K, D>)
      requires Distinct(t) && Linked(t, node.parent)
      requires t.Fork? && t.right.Fork? && node == t.entry.node && q == t.right.entry.node
      modifies Nodes(t)
      ensures Linked(Turn(L, t), old(node.parent))
    {
      ghost var a, b, c := t.left, t.right.left, t.right.right;
      assert allocated(Nodes(a)) && allocated(Nodes(b)) && allocated(Nodes(c));
      assert Linked(t.right, node) && Distinct(t.right);
      q.parent := node.parent;
      node.parent := q;
      node.right := q.left;
      assert Linked(b, q);
      if q.left != null {
        SetParent(node, q.left, b);
      }
      q.left := node;
      assert Linked(a, node) && Linked(b, node) && Linked(c, q);
    }

    method TurnRight(node: RbNode<K, D>, q: RbNode<K, D>, ghost t: Shape<K, D>)
      requires Distinct(t) && Linked(t, node.parent)
      requires t.Fork? && t.left.Fork? && node == t.entry.node && q == t.left.entry.node
      modifies Nodes(t)
      ensures Linked(Turn(R, t), old(node.parent))
    {
      ghost var a, b, c := t.right, t.left.right, t.left.left;
      assert allocated(Nodes(a)) && allocated(Nodes(b)) && allocated(Nodes(c));
      assert Linked(t.left, node) && Distinct(t.left);
      q.parent := node.parent;
      node.parent := q;
      node.left := q.right;
      assert Linked(b, q);
      if q.right != null {
        SetParent(node, q.right, b);
      }
      q.right := node;
      assert Linked(a, node) && Linked(b, node) && Linked(c, q);
    }

    method RotateLeft(node: RbNode<K, D>, ghost p: Path<K, D>, ghost t: Shape<K, D>)
      requires Focus(p, t) && node == RootOf(t) && t.right.Fork?
      modifies this`root, Nodes(t), PathNodes(p)
      ensures Focus(p, Turn(L, t))
      ensures Nodes(Turn(L, t)) == Nodes(t)
    {
      TurnIsApart(L, p, t);
      assert p.Step? ==> p.entry.node in PathNodes(p) && p.entry.node !in Nodes(t);
      assert allocated(Nodes(t)) && allocated(PathNodes(p));
      var q := node.right;
      Redirect(node, q, p);
      TurnLeft(node, q, t);
      assert LedTo(p, q);
    }

    method RotateRight(node: RbNode<K, D>, ghost p: Path<K, D>, ghost t: Shape<K, D>)
      requires Focus(p, t) && node == RootOf(t) && t.left.Fork?
      modifies this`root, Nodes(t), PathNodes(p)
      ensures Focus(p, Turn(R, t))
      ensures Nodes(Turn(R, t)) == Nodes(t)
    {
      TurnIsApart(R, p, t);
      assert p.Step? ==> p.entry.node in PathNodes(p) && p.entry.node !in Nodes(t);
      assert allocated(Nodes(t)) && allocated(PathNodes(p));
      var q := node.left;
      Redirect(node, q, p);
      TurnRight(node, q, t);
      assert LedTo(p, q);
    }

    // ----- the whole tree

    ghost predicate Valid()
      reads this, Nodes(shape)
    {
      && TotalOrder(compare)
      && Focus(Top, shape)
      && RedBlack(shape)
      && Sorted(compare, Items(InOrder(shape)))
    }

    ghost function Repr(): set<RbNode<K, D>>
      reads this
    {
      Nodes(shape)
    }

    ghost function Contents(): map<K, D>
      reads this
    {
      MapOf(Items(InOrder(shape)))
    }

    constructor (compare: (K, K) -> int)
      requires TotalOrder(compare)
      ensures Valid() && Contents() == map[] && Repr() == {} && this.compare == compare
    {
      this.compare := compare;
      root := null;
      shape := Leaf;
    }

    lemma {:induction false} ZoomToTop(p: Path<K, D>, t: Shape<K, D>)
      requires Focus(p, t)
      ensures Focus(Top, Plug(p, t)) && Nodes(Plug(p, t)) == Nodes(t) + PathNodes(p)
      decreases p
    {
      if p.Step? {
        ZoomOut(p, t);
        ZoomToTop(p.up, Make(p.side, p.color, p.entry, t, p.sibling));
      }
    }

    lemma {:induction false} ZoomToMin(p: Path<K, D>, t: Shape<K, D>)
      requires Focus(p, t) && t.Fork?
      ensures Focus(MinPath(p, t), MinTree(t))
      decreases t
    {
      if t.left.Fork? {
        ZoomIn(L, p, t);
        ZoomToMin(Step(L, t.color, t.entry, t.right, p), t.left);
      }
    }

    // ----- lookup

    // The search for key has come to subtree t at the end of path p.
    ghost predicate Searching(p: Path<K, D>, t: Shape<K, D>, key: K)
      reads this, Nodes(t), PathNodes(p)
    {
      && Focus(p, t) && Plug(p, t) == shape && Nodes(t) + PathNodes(p) == Repr()
      && Between(compare, p, key)
    }

    lemma SearchLeft(p: Path<K, D>, t: Shape<K, D>, key: K)
      requires Valid() && t.Fork? && Searching(p, t, key) && compare(t.entry.key, key) > 0
      ensures Searching(Step(L, t.color, t.entry, t.right, p), t.left, key)
    {
      DescendLeft(compare, p, t, key);
      ZoomIn(L, p, t);
    }

    lemma SearchRight(p: Path<K, D>, t: Shape<K, D>, key: K)
      requires Valid() && t.Fork? && Searching(p, t, key) && compare(t.entry.key, key) < 0
      ensures Searching(Step(R, t.color, t.entry, t.left, p), t.right, key)
    {
      DescendRight(compare, p, t, key);
      ZoomIn(R, p, t);
    }

    // node is the one holding key, or null; parent is the last node passed on the way.
    method DoLookup(key: K) returns (node: RbNode?<K, D>, parent: RbNode?<K, D>,
                                     ghost p: Path<K, D>, ghost t: Shape<K, D>, ghost steps: nat)
      requires Valid()
      ensures Valid() && Searching(p, t, key) && node == RootOf(t) && parent == Owner(p)
      ensures t.Fork? ==> t.entry.key == key
      ensures steps <= Height(shape)
    {
      node, parent := root, null;
      p, t, steps := Top, shape, 0;
      while node != null
        invariant Valid() && Searching(p, t, key)
        invariant node == RootOf(t) && parent == Owner(p)
        invariant steps + Height(t) <= Height(shape)
        decreases t
      {
        steps := steps + 1;
        assert Stores(t.entry, t.color);
        var ret := compare(node.key, key);
        if ret == 0 {
          return;
        }
        parent := node;
        if ret < 0 {
          SearchRight(p, t, key);
          node := node.right;
          p, t := Step(R, t.color, t.entry, t.left, p), t.right;
        } else {
          SearchLeft(p, t, key);
          node := node.left;
          p, t := Step(L, t.color, t.entry, t.right, p), t.left;
        }
      }
    }

    lemma FoundOrAbsent(p: Path<K, D>, t: Shape<K, D>, key: K)
      requires Valid() && Searching(p, t, key) && (t.Fork? ==> t.entry.key == key)
      ensures t.Leaf? ==> key !in Contents()
      ensures t.Fork? ==> key in Contents() && Contents()[key] == t.entry.data
    {
      if t.Leaf? {
        InOrderPlug(p, t);
        assert InOrder(shape) == Before(p) + After(p);
        ItemsConcat(Before(p), After(p));
        KeyAbsent(compare, Items(Before(p)), key, Items(After(p)));
      } else {
        SplitAtRoot(p, t);
        SortedDropsOne(compare, Items(LeftOf(p, t)), Item(t.entry), Items(RightOf(p, t)));
        MapOfAround(compare, Items(LeftOf(p, t)), Item(t.entry), Items(RightOf(p, t)));
      }
    }

    lemma RootHolds(p: Path<K, D>, t: Shape<K, D>, key: K)
      requires Searching(p, t, key) && t.Fork?
      ensures t.entry.node.data == t.entry.data
    {
      assert Stores(t.entry, t.color);
    }

    lemma FewSteps(steps: nat)
      requires Valid() && steps <= Height(shape)
      ensures Pow2(steps) <= (|Contents()| + 1) * (|Contents()| + 1)
    {
      StepsBound(compare, shape, steps);
    }

    // rbtree_lookup; found is false where the source returns NULL.  It looks at no more
    // nodes than twice the binary logarithm of the number of keys plus one.
    method Lookup(key: K, absent: D) returns (found: bool, data: D, ghost steps: nat)
      requires Valid()
      ensures Pow2(steps) <= (|Contents()| + 1) * (|Contents()| + 1)
      ensures found <==> key in Contents()
      ensures data == if key in Contents() then Contents()[key] else absent
    {
      hide Valid;
      hide Searching;
      hide Contents;
      hide Pow2;
      hide Height;
      var node, parent, p, t, count := DoLookup(key);
      FewSteps(count);
      steps := count;
      FoundOrAbsent(p, t, key);
      if t.Fork? { RootHolds(p, t, key); }
      if node == null {
        found, data := false, absent;
      } else {
        found, data := true, node.data;
      }
    }

    // ----- insertion

    // The three set_color calls of the red-uncle branches.
    method Recolor(grandpa: RbNode<K, D>, parent: RbNode<K, D>, uncle: RbNode<K, D>,
                   ghost p: Path<K, D>, ghost t: Shape<K, D>)
      requires Focus(p, t) && p.Step? && p.up.Step?
      requires parent == p.entry.node && grandpa == p.up.entry.node && uncle == RootOf(p.up.sibling)
      modifies PathNodes(p)
      ensures Focus(p.up.up, Recolored(p, t))
      ensures Nodes(Recolored(p, t)) + PathNodes(p.up.up) == Nodes(t) + PathNodes(p)
    {
      ghost var g := p.up;
      ghost var pt := Make(p.side, p.color, p.entry, t, p.sibling);
      ZoomOut(p, t);
      ZoomOut(g, pt);
      SetColor(Red, grandpa, g.up, Make(g.side, g.color, g.entry, pt, g.sibling));
      ZoomIn(g.side, g.up, Make(g.side, Red, g.entry, pt, g.sibling));
      SetColor(Black, parent, g.(color := Red), pt);
      ghost var pb := Paint(pt, Black);
      ZoomOut(g.(color := Red), pb);
      ghost var other := if g.side == L then R else L;
      ZoomIn(other, g.up, Make(g.side, Red, g.entry, pb, g.sibling));
      SetColor(Black, uncle, Step(other, Red, g.entry, pb, g.up), g.sibling);
      ZoomOut(Step(other, Red, g.entry, pb, g.up), Paint(g.sibling, Black));
    }

    // Red parent on the left, black uncle: first make node the outer grandchild ...
    method StraightenLeft(child: RbNode<K, D>, ghost p: Path<K, D>, ghost t: Shape<K, D>)
      returns (node: RbNode<K, D>, parent: RbNode<K, D>)
      requires Focus(p, t) && t.Fork? && child == t.entry.node && p.Step?
      modifies this`root, Nodes(t), PathNodes(p)
      ensures Focus(p.up, Straight(L, p, t))
      ensures Nodes(Straight(L, p, t)) + PathNodes(p.up) == Nodes(t) + PathNodes(p)
      ensures parent == Straight(L, p, t).entry.node
      ensures node == RootOf(Straight(L, p, t).left)
    {
      node := child;
      parent := node.parent;
      assert child in Nodes(t) && (p.sibling.Fork? ==> RootOf(p.sibling) in PathNodes(p));
      ZoomOut(p, t);
      if node == parent.right {
        RotateLeft(parent, p.up, Make(p.side, p.color, p.entry, t, p.sibling));
        node := parent;
        assert Linked(Straight(L, p, t).left, t.entry.node);
        parent := parent.parent;
      }
    }

    // ... then bring the parent, the root of subtree s, up over the grandparent.
    method LiftRight(parent: RbNode<K, D>, grandpa: RbNode<K, D>, ghost g: Path<K, D>, ghost s: Shape<K, D>)
      requires Focus(g, s) && g.Step? && g.side == L && s.Fork?
      requires parent == s.entry.node && grandpa == g.entry.node
      modifies this`root, Nodes(s), PathNodes(g)
      ensures Focus(g.up, Lifted(g, s)) && parent.color == Black
      ensures s.left.Fork? ==> s.left.entry.node.parent == parent
      ensures Nodes(Lifted(g, s)) + PathNodes(g.up) == Nodes(s) + PathNodes(g)
    {
      SetColor(Black, parent, g, s);
      ghost var b := Paint(s, Black);
      ZoomOut(g, b);
      SetColor(Red, grandpa, g.up, Make(L, g.color, g.entry, b, g.sibling));
      RotateRight(grandpa, g.up, Make(L, Red, g.entry, b, g.sibling));
      assert Linked(Lifted(g, s).left, parent);
    }

    // Red parent on the right, black uncle: first make node the outer grandchild ...
    method StraightenRight(child: RbNode<K, D>, ghost p: Path<K, D>, ghost t: Shape<K, D>)
      returns (node: RbNode<K, D>, parent: RbNode<K, D>)
      requires Focus(p, t) && t.Fork? && child == t.entry.node && p.Step?
      modifies this`root, Nodes(t), PathNodes(p)
      ensures Focus(p.up, Straight(R, p, t))
      ensures Nodes(Straight(R, p, t)) + PathNodes(p.up) == Nodes(t) + PathNodes(p)
      ensures parent == Straight(R, p, t).entry.node
      ensures node == RootOf(Straight(R, p, t).right)
    {
      node := child;
      parent := node.parent;
      assert child in Nodes(t) && (p.sibling.Fork? ==> RootOf(p.sibling) in PathNodes(p));
      ZoomOut(p, t);
      if node == parent.left {
        RotateRight(parent, p.up, Make(p.side, p.color, p.entry, t, p.sibling));
        node := parent;
        assert Linked(Straight(R, p, t).right, t.entry.node);
        parent := parent.parent;
      }
    }

    // ... then bring the parent, the root of subtree s, up over the grandparent.
    method LiftLeft(parent: RbNode<K, D>, grandpa: RbNode<K, D>, ghost g: Path<K, D>, ghost s: Shape<K, D>)
      requires Focus(g, s) && g.Step? && g.side == R && s.Fork?
      requires parent == s.entry.node && grandpa == g.entry.node
      modifies this`root, Nodes(s), PathNodes(g)
      ensures Focus(g.up, Lifted(g, s)) && parent.color == Black
      ensures s.right.Fork? ==> s.right.entry.node.parent == parent
      ensures Nodes(Lifted(g, s)) + PathNodes(g.up) == Nodes(s) + PathNodes(g)
    {
      SetColor(Black, parent, g, s);
      ghost var b := Paint(s, Black);
      ZoomOut(g, b);
      SetColor(Red, grandpa, g.up, Make(R, g.color, g.entry, b, g.sibling));
      RotateLeft(grandpa, g.up, Make(R, Red, g.entry, b, g.sibling));
      assert Linked(Lifted(g, s).right, parent);
    }

    // set_child: hang a leaf node where the search for its key ended.
    method SetChild(node: RbNode<K, D>, child: RbNode<K, D>)
      requires compare(node.key, child.key) != 0
      modifies node
      ensures node.left == if compare(node.key, child.key) > 0 then child else old(node.left)
      ensures node.right == if compare(node.key, child.key) > 0 then old(node.right) else child
      ensures node.parent == old(node.parent) && node.color == old(node.color)
      ensures node.key == old(node.key) && node.data == old(node.data)
    {
      var ret := compare(node.key, child.key);
      if ret > 0 {
        node.left := child;
      } else {
        node.right := child;
      }
    }

    // The search ended left of its owner exactly when the owner's key is larger.
    lemma SideOfOwner(p: Path<K, D>, key: K)
      requires TotalOrder(compare) && p.Step? && Between(compare, p, key)
      ensures compare(p.entry.key, key) != 0
      ensures p.side == L <==> compare(p.entry.key, key) > 0
    {
      if p.side == L {
        var s := Items(After(p));
        assert After(p)[0] == p.entry && s[0] == Item(p.entry);
        assert Less(compare, key, p.entry.key);
      } else {
        var s := Items(Before(p));
        assert Before(p)[|Before(p)| - 1] == p.entry && s[|s| - 1] == Item(p.entry);
        assert Less(compare, p.entry.key, key);
      }
    }

    method Attach(node: RbNode<K, D>, parent: RbNode?<K, D>, ghost p: Path<K, D>)
      requires TotalOrder(compare) && Focus(p, Leaf) && parent == Owner(p) && Between(compare, p, node.key)
      requires node !in PathNodes(p)
      modifies this`root, node, PathNodes(p)
      ensures Focus(p, NewLeaf(node, old(node.key), old(node.data)))
    {
      node.left := null;
      node.right := null;
      node.color := Red;
      node.parent := parent;
      assert Around(p, null);
      if parent == null {
        root := node;
      } else {
        SideOfOwner(p, node.key);
        assert Stores(p.entry, p.color) && parent in PathNodes(p);
        assert allocated(PathNodes(p));
        SetChild(parent, node);
        assert Linked(p.sibling, parent) && Around(p.up, parent);
      }
    }

    // What the loop reads: a red parent has a parent, and the uncle is where the path says.
    lemma Family(p: Path<K, D>, t: Shape<K, D>)
      requires Focus(p, t) && Unsettled(p, t)
      requires t.entry.node.parent != null && t.entry.node.parent.color == Red
      ensures p.Step? && p.color == Red && p.up.Step? && t.entry.node.parent == p.entry.node
      ensures p.entry.node in PathNodes(p) && p.up.entry.node in PathNodes(p)
      ensures var grandpa := p.up.entry.node;
        && p.entry.node.parent == grandpa
        && (p.entry.node == grandpa.left <==> p.up.side == L)
        && (if p.up.side == L then grandpa.right else grandpa.left) == RootOf(p.up.sibling)
      ensures p.up.sibling.Fork? ==> p.up.sibling.entry.node.color == ColorOf(p.up.sibling)
    {
      GrandparentExists(p, t);
      assert Around(p.up, p.entry.node);
      var g := p.up;
      assert g.sibling.Fork? ==> RootOf(g.sibling) in Nodes(g.sibling) && Linked(g.sibling, g.entry.node);
    }

    method BlackenRoot(ghost p: Path<K, D>, ghost t: Shape<K, D>)
      requires Focus(p, t) && t.Fork?
      modifies Nodes(t), PathNodes(p)
      ensures Focus(Top, Paint(Plug(p, t), Black))
      ensures Nodes(Paint(Plug(p, t), Black)) == Nodes(t) + PathNodes(p)
    {
      ZoomToTop(p, t);
      InOrderPlug(p, t);
      assert |InOrder(Plug(p, t))| > 0;
      SetColor(Black, root, Top, Plug(p, t));
    }

    static lemma RedRoot(p: Path<K, D>, t: Shape<K, D>)
      requires Unsettled(p, t)
      ensures t.Fork? && t.color == Red
    {
    }

    // The recolour-and-rotate loop, then the root painted black.
    method Fixup(start: RbNode<K, D>, ghost p: Path<K, D>, ghost t: Shape<K, D>)
      requires Focus(p, t) && Unsettled(p, t) && start == t.entry.node
      modifies this`root, Nodes(t), PathNodes(p)
      ensures Focus(Top, Settle(p, t))
      ensures Nodes(Settle(p, t)) == Nodes(t) + PathNodes(p)
    {
      var node: RbNode<K, D> := start;
      ghost var q, s, done := p, t, false;
      assert s.Fork?;
      hide Unsettled;
      while node.parent != null && node.parent.color == Red
        invariant Focus(q, s) && Nodes(s) + PathNodes(q) == Nodes(t) + PathNodes(p)
        invariant !done ==> Unsettled(q, s) && s.Fork? && node == s.entry.node && Settle(q, s) == Settle(p, t)
        invariant done ==> s.Fork? && node.parent == s.entry.node && s.color == Black && Plug(q, s) == Settle(p, t)
        decreases !done, q
      {
        assert !done;
        Family(q, s);
        RedRoot(q, s);
        ghost var g := q.up;
        var parent := node.parent;
        var grandpa := parent.parent;
        if parent == grandpa.left {
          var uncle := grandpa.right;
          if uncle != null && uncle.color == Red {
            Recolor(grandpa, parent, uncle, q, s);
            RecoloredIsUnsettled(q, s);
            node := grandpa;
            q, s := g.up, Recolored(q, s);
          } else {
            TwoStepsAreRotated(q, s);
            node, parent := StraightenLeft(node, q, s);
            LiftRight(parent, grandpa, g, Straight(L, q, s));
            q, s, done := g.up, Rotated(q, s), true;
          }
        } else {
          var uncle := grandpa.left;
          if uncle != null && uncle.color == Red {
            Recolor(grandpa, parent, uncle, q, s);
            RecoloredIsUnsettled(q, s);
            node := grandpa;
            q, s := g.up, Recolored(q, s);
          } else {
            TwoStepsAreRotated(q, s);
            node, parent := StraightenRight(node, q, s);
            LiftLeft(parent, grandpa, g, Straight(R, q, s));
            q, s, done := g.up, Rotated(q, s), true;
          }
        }
      }
      assert Settle(p, t) == Paint(Plug(q, s), Black);
      BlackenRoot(q, s);
    }

    // The part of __rbtree_insert after an unsuccessful search.
    method LinkNew(node: RbNode<K, D>, parent: RbNode?<K, D>, ghost p: Path<K, D>)
      requires Valid() && node !in Repr() && Searching(p, Leaf, node.key) && parent == Owner(p)
      modifies this`root, this`shape, node, PathNodes(p)
      ensures Valid()
      ensures Contents() == old(Contents())[old(node.key) := old(node.data)]
      ensures Repr() == old(Repr()) + {node}
    {
      Inserted(compare, p, node, node.key, node.data);
      ghost var leaf := NewLeaf(node, node.key, node.data);
      ghost var settled := Settle(p, leaf);
      hide RedBlack;
      hide Sorted;
      hide TotalOrder;
      hide Unsettled;
      hide Between;
      hide MapOf;
      Attach(node, parent, p);
      Fixup(node, p, leaf);
      shape := settled;
    }

    // __rbtree_insert: the node already linked under the same key, or null after linking this one.
    method InsertNode(node: RbNode<K, D>) returns (same: RbNode?<K, D>)
      requires Valid() && node !in Repr()
      modifies this, Repr(), node
      ensures Valid()
      ensures same != null <==> old(node.key) in old(Contents())
      ensures same != null ==> same in Repr() && shape == old(shape)
      ensures same == null ==> Contents() == old(Contents())[old(node.key) := old(node.data)]
      ensures same == null ==> Repr() == old(Repr()) + {node}
    {
      var parent;
      ghost var p, t, steps;
      same, parent, p, t, steps := DoLookup(node.key);
      FoundOrAbsent(p, t, node.key);
      if same != null {
        return;
      }
      LinkNew(node, parent, p);
    }

    // rbtree_insert; the node allocation is assumed to succeed
    method Insert(key: K, data: D) returns (r: int)
      requires Valid()
      modifies this, Repr()
      ensures Valid() && fresh(Repr() - old(Repr()))
      ensures r == if key in old(Contents()) then -2 else 0
      ensures Contents() == if key in old(Contents()) then old(Contents()) else old(Contents())[key := data]
      ensures r == -2 ==> shape == old(shape)
    {
      assert allocated(Repr());
      var node := new RbNode(key, data);
      assert node !in Repr() && Valid();
      var same := InsertNode(node);
      r := if same != null then -2 else 0;
    }

    // ----- deletion

    function Sibling(node: RbNode<K, D>): RbNode?<K, D>
      requires node.parent != null
      reads node, node.parent
    {
      if node == node.parent.left then node.parent.right else node.parent.left
    }

    // What the cases read: the sibling is where the path says it is.
    lemma SiblingOnPath(p: Path<K, D>, t: Shape<K, D>)
      requires Focus(p, t) && t.Fork? && p.Step?
      ensures var node := t.entry.node;
        && node.parent == p.entry.node && p.entry.node in PathNodes(p)
        && node.parent.color == p.color
        && Sibling(node) == RootOf(p.sibling)
        && (node == node.parent.left <==> p.side == L)
        && (node == node.parent.right <==> p.side == R)
      ensures p.sibling.Fork? ==>
        var s := p.sibling.entry.node;
        && s in PathNodes(p) && s.color == p.sibling.color
        && s.left == RootOf(p.sibling.left) && s.right == RootOf(p.sibling.right)
        && GetColor(s.left) == ColorOf(p.sibling.left) && GetColor(s.right) == ColorOf(p.sibling.right)
    {
      if p.sibling.Fork? {
        var s := p.sibling.entry.node;
        assert s in Nodes(p.sibling) && Linked(p.sibling, p.entry.node);
        assert Linked(p.sibling.left, s) && Linked(p.sibling.right, s);
      }
      assert t.entry.node in Nodes(t);
    }

    function GetColor(node: RbNode?<K, D>): Color
      reads node
    {
      if node == null then Black else node.color
    }

    // Move the focus from a subtree to its sibling and back.
    lemma ZoomAcross(p: Path<K, D>, t: Shape<K, D>)
      requires Focus(p, t) && p.Step?
      ensures Focus(Across(p, t), p.sibling)
      ensures Nodes(p.sibling) + PathNodes(Across(p, t)) == Nodes(t) + PathNodes(p)
    {
      ZoomOut(p, t);
      ZoomIn(Other(p.side), p.up, Make(p.side, p.color, p.entry, t, p.sibling));
    }

    // Rotating the parent, as cases 2 and 6 end, seen from the hole.
    method RotateParent(parent: RbNode<K, D>, left: bool, ghost p: Path<K, D>, ghost t: Shape<K, D>)
      requires Focus(p, t) && p.Step? && p.sibling.Fork? && parent == p.entry.node
      requires left <==> p.side == L
      modifies this`root, Nodes(t), PathNodes(p)
      ensures Focus(Raised(p), t) && PathNodes(Raised(p)) == PathNodes(p)
    {
      ZoomOut(p, t);
      ghost var pt := Make(p.side, p.color, p.entry, t, p.sibling);
      MakeNodes(p.side, p.color, p.entry, t, p.sibling);
      if left {
        RotateLeft(parent, p.up, pt);
      } else {
        RotateRight(parent, p.up, pt);
      }
      ghost var q := Raised(p);
      ZoomIn(p.side, p.up, Turn(p.side, pt));
      ZoomIn(p.side, q.up, Make(q.side, q.color, q.entry, t, q.sibling));
      MakeNodes(p.side, p.sibling.color, p.sibling.entry, Near(p.side, p.sibling), Far(p.side, p.sibling));
    }

    // sibling(node)->color = color
    method SetSiblingColor(color: Color, node: RbNode<K, D>, ghost p: Path<K, D>, ghost t: Shape<K, D>)
      requires Focus(p, t) && t.Fork? && node == t.entry.node && p.Step? && p.sibling.Fork?
      modifies PathNodes(p)
      ensures Focus(p.(sibling := Paint(p.sibling, color)), t)
      ensures PathNodes(p.(sibling := Paint(p.sibling, color))) == PathNodes(p)
    {
      SiblingOnPath(p, t);
      ZoomAcross(p, t);
      SetColor(color, Sibling(node), Across(p, t), p.sibling);
      ZoomAcross(Across(p, t), Paint(p.sibling, color));
    }

    // node->parent->color = color
    method SetParentColor(color: Color, node: RbNode<K, D>, ghost p: Path<K, D>, ghost t: Shape<K, D>)
      requires Focus(p, t) && t.Fork? && node == t.entry.node && p.Step?
      modifies PathNodes(p)
      ensures Focus(p.(color := color), t)
      ensures PathNodes(p.(color := color)) == PathNodes(p)
    {
      SiblingOnPath(p, t);
      ZoomOut(p, t);
      SetColor(color, node.parent, p.up, Make(p.side, p.color, p.entry, t, p.sibling));
      ZoomIn(p.side, p.up, Make(p.side, color, p.entry, t, p.sibling));
    }

    // the colour of a child of sibling(node)
    method SetNephewColor(color: Color, nephew: RbNode<K, D>, ghost d: Side, ghost p: Path<K, D>, ghost t: Shape<K, D>)
      requires Focus(p, t) && p.Step? && p.sibling.Fork? && nephew == RootOf(Near(d, p.sibling))
      modifies PathNodes(p)
      ensures Focus(p.(sibling := PaintChild(d, p.sibling, color)), t)
      ensures PathNodes(p.(sibling := PaintChild(d, p.sibling, color))) == PathNodes(p)
    {
      ghost var s, a := p.sibling, Across(p, t);
      ghost var q := Step(d, s.color, s.entry, Far(d, s), a);
      assert nephew in Nodes(Near(d, s)) && Nodes(Near(d, s)) <= Nodes(s) <= PathNodes(p);
      ZoomAcross(p, t);
      ZoomIn(d, a, s);
      SetColor(color, nephew, q, Near(d, s));
      ZoomOut(q, Paint(Near(d, s), color));
      ZoomAcross(a, PaintChild(d, s, color));
    }

    // Rotating the sibling away from the hole, as case 5 ends.
    method RotateSibling(sibling: RbNode<K, D>, left: bool, ghost p: Path<K, D>, ghost t: Shape<K, D>)
      requires Focus(p, t) && p.Step? && p.sibling.Fork? && Near(p.side, p.sibling).Fork?
      requires sibling == p.sibling.entry.node && (left <==> p.side == R)
      modifies this`root, Nodes(t), PathNodes(p)
      ensures Focus(p.(sibling := Turn(Other(p.side), p.sibling)), t)
      ensures PathNodes(p.(sibling := Turn(Other(p.side), p.sibling))) == PathNodes(p)
    {
      ZoomAcross(p, t);
      if left {
        RotateLeft(sibling, Across(p, t), p.sibling);
      } else {
        RotateRight(sibling, Across(p, t), p.sibling);
      }
      ZoomAcross(Across(p, t), Turn(Other(p.side), p.sibling));
    }

    method DeleteCase1(node: RbNode<K, D>, ghost p: Path<K, D>, ghost t: Shape<K, D>, ghost h: nat)
      requires Focus(p, t) && t.Fork? && node == t.entry.node && OneShort(p, h)
      modifies this`root, Nodes(t), PathNodes(p)
      ensures Focus(Case1(p, h), t)
      decreases BlackRun(p), 6
    {
      assert p.Step? ==> Around(p, node);
      if node.parent == null {
        return;
      } else {
        DeleteCase2(node, p, t, h);
      }
    }

    method DeleteCase2(node: RbNode<K, D>, ghost p: Path<K, D>, ghost t: Shape<K, D>, ghost h: nat)
      requires Focus(p, t) && t.Fork? && node == t.entry.node && p.Step? && OneShort(p, h)
      modifies this`root, Nodes(t), PathNodes(p)
      ensures Focus(Case2(p, h), t)
      decreases BlackRun(p), 5
    {
      ghost var q := p;
      SiblingOnPath(p, t);
      if GetColor(Sibling(node)) == Red {
        SetParentColor(Red, node, q, t);
        q := q.(color := Red);
        SetSiblingColor(Black, node, q, t);
        q := q.(sibling := Paint(q.sibling, Black));
        SiblingOnPath(q, t);
        if node == node.parent.left {
          RotateParent(node.parent, true, q, t);
        } else {
          RotateParent(node.parent, false, q, t);
        }
        q := Raised(q);
        assert q == SiblingUp(p);
      }
      DeleteCase3(node, q, t, h);
    }

    method DeleteCase3(node: RbNode<K, D>, ghost p: Path<K, D>, ghost t: Shape<K, D>, ghost h: nat)
      requires Focus(p, t) && t.Fork? && node == t.entry.node && BlackSibling(p, h)
      modifies this`root, Nodes(t), PathNodes(p)
      ensures Focus(Case3(p, h), t)
      decreases BlackRun(p), 4
    {
      SiblingOnPath(p, t);
      if node.parent.color == Black && GetColor(Sibling(node)) == Black
         && GetColor(Sibling(node).right) == Black && GetColor(Sibling(node).left) == Black {
        SetSiblingColor(Red, node, p, t);
        ghost var q := p.(sibling := Paint(p.sibling, Red));
        SiblingOnPath(q, t);
        ZoomOut(q, t);
        ghost var pt := Make(q.side, q.color, q.entry, t, q.sibling);
        DeleteCase1(node.parent, p.up, pt, h + 1);
        ZoomIn(q.side, Case1(p.up, h + 1), pt);
      } else {
        DeleteCase4(node, p, t, h);
      }
    }

    method DeleteCase4(node: RbNode<K, D>, ghost p: Path<K, D>, ghost t: Shape<K, D>, ghost h: nat)
      requires Focus(p, t) && t.Fork? && node == t.entry.node
      requires BlackSibling(p, h) && (p.color == Red || !NephewsBlack(p))
      modifies this`root, Nodes(t), PathNodes(p)
      ensures Focus(Case4(p, h), t)
    {
      SiblingOnPath(p, t);
      if GetColor(node.parent) == Red && GetColor(Sibling(node)) == Black
         && GetColor(Sibling(node).left) == Black && GetColor(Sibling(node).right) == Black {
        SetSiblingColor(Red, node, p, t);
        SetParentColor(Black, node, p.(sibling := Paint(p.sibling, Red)), t);
      } else {
        DeleteCase5(node, p, t, h);
      }
    }

    method DeleteCase5(node: RbNode<K, D>, ghost p: Path<K, D>, ghost t: Shape<K, D>, ghost h: nat)
      requires Focus(p, t) && t.Fork? && node == t.entry.node
      requires BlackSibling(p, h) && !NephewsBlack(p)
      modifies this`root, Nodes(t), PathNodes(p)
      ensures Focus(Case5(p, h), t)
    {
      ghost var q := p;
      SiblingOnPath(p, t);
      if node == node.parent.left && GetColor(Sibling(node)) == Black
         && GetColor(Sibling(node).left) == Red && GetColor(Sibling(node).right) == Black {
        SetSiblingColor(Red, node, q, t);
        q := q.(sibling := Paint(q.sibling, Red));
        SiblingOnPath(q, t);
        SetNephewColor(Black, Sibling(node).left, L, q, t);
        q := q.(sibling := PaintChild(L, q.sibling, Black));
        SiblingOnPath(q, t);
        RotateSibling(Sibling(node), false, q, t);
        q := q.(sibling := Turn(R, q.sibling));
      } else if node == node.parent.right && GetColor(Sibling(node)) == Black
         && GetColor(Sibling(node).right) == Red && GetColor(Sibling(node).left) == Black {
        SetSiblingColor(Red, node, q, t);
        q := q.(sibling := Paint(q.sibling, Red));
        SiblingOnPath(q, t);
        SetNephewColor(Black, Sibling(node).right, R, q, t);
        q := q.(sibling := PaintChild(R, q.sibling, Black));
        SiblingOnPath(q, t);
        RotateSibling(Sibling(node), true, q, t);
        q := q.(sibling := Turn(L, q.sibling));
      }
      assert q == if ColorOf(Far(p.side, p.sibling)) == Black then NephewUp(p) else p;
      if ColorOf(Far(p.side, p.sibling)) == Black {
        NephewUpFacts(p, h);
        NephewUpKeepsEntries(p);
      }
      DeleteCase6(node, q, t, h);
    }

    method DeleteCase6(node: RbNode<K, D>, ghost p: Path<K, D>, ghost t: Shape<K, D>, ghost h: nat)
      requires Focus(p, t) && t.Fork? && node == t.entry.node
      requires BlackSibling(p, h) && ColorOf(Far(p.side, p.sibling)) == Red
      modifies this`root, Nodes(t), PathNodes(p)
      ensures Focus(Case6(p, h), t)
    {
      ghost var q := p;
      SiblingOnPath(p, t);
      SetSiblingColor(GetColor(node.parent), node, q, t);
      q := q.(sibling := Paint(q.sibling, p.color));
      SetParentColor(Black, node, q, t);
      q := q.(color := Black);
      SiblingOnPath(q, t);
      if node == node.parent.left {
        assert GetColor(Sibling(node).right) == Red;
        SetNephewColor(Black, Sibling(node).right, R, q, t);
        q := q.(sibling := PaintChild(R, q.sibling, Black));
        SiblingOnPath(q, t);
        RotateParent(node.parent, true, q, t);
      } else {
        assert GetColor(Sibling(node).left) == Red;
        SetNephewColor(Black, Sibling(node).left, L, q, t);
        q := q.(sibling := PaintChild(L, q.sibling, Black));
        SiblingOnPath(q, t);
        RotateParent(node.parent, false, q, t);
      }
      assert Raised(q) == SiblingRaised(p);
    }

    // get_min: the leftmost node of a subtree
    method GetMin(start: RbNode<K, D>, ghost p: Path<K, D>, ghost t: Shape<K, D>) returns (node: RbNode<K, D>)
      requires Focus(p, t) && t.Fork? && start == t.entry.node
      ensures node == MinTree(t).entry.node
      ensures Focus(p, t)
    {
      node := start;
      ghost var q, s := p, t;
      while node.left != null
        invariant Focus(q, s) && s.Fork? && node == s.entry.node && MinTree(s) == MinTree(t)
        invariant Focus(p, t)
        decreases s
      {
        ZoomIn(L, q, s);
        node := node.left;
        q, s := Step(L, s.color, s.entry, s.right, q), s.left;
      }
    }

    method ReplaceNode(oldn: RbNode<K, D>, newn: RbNode?<K, D>, ghost p: Path<K, D>, ghost t: Shape<K, D>)
      requires Focus(p, t) && t.Fork? && oldn == t.entry.node
      requires newn == RootOf(OnlyChild(t))
      modifies this`root, (if p.Top? then {} else {p.entry.node}), (if newn == null then {} else {newn})
      ensures Focus(p, OnlyChild(t))
      ensures oldn.parent == Owner(p)
    {
      ghost var c := OnlyChild(t);
      assert Nodes(c) <= Nodes(t) && oldn !in Nodes(c) && Distinct(c);
      assert p.Step? ==> p.entry.node in PathNodes(p);
      assert allocated(Nodes(t)) && allocated(PathNodes(p));
      assert Linked(c, oldn);
      Redirect(oldn, newn, p);
      assert Linked(c, oldn);
      if newn != null {
        assert Linked(c.left, newn) && Linked(c.right, newn);
        newn.parent := oldn.parent;
        assert Linked(c.left, newn) && Linked(c.right, newn);
      }
      assert LedTo(p, newn);
    }

    // A black node takes its child's colour, then the six cases run while it is still linked.
    method RepairAbove(node: RbNode<K, D>, child: RbNode?<K, D>, ghost p: Path<K, D>, ghost t: Shape<K, D>)
      returns (ghost s: Shape<K, D>)
      requires Focus(p, t) && Spliceable(p, t) && node == t.entry.node && child == RootOf(OnlyChild(t))
      modifies this`root, Nodes(t), PathNodes(p)
      ensures Focus(SplicePath(p, t), s)
      ensures s.Fork? && s.entry == t.entry && s.left == t.left && s.right == t.right
    {
      SpliceFacts(p, t);
      s := t;
      assert Linked(t.left, node) && Linked(t.right, node);
      assert child != null ==> child in Nodes(t);
      if GetColor(node) == Black {
        SetColor(GetColor(child), node, p, t);
        s := Paint(t, ColorOf(OnlyChild(t)));
        DeleteCase1(node, p, s, 0);
      }
    }

    // The end of __rbtree_remove: node has at most one child and is taken out.
    method Splice(node: RbNode<K, D>, ghost p: Path<K, D>, ghost t: Shape<K, D>)
      requires Focus(p, t) && Spliceable(p, t) && node == t.entry.node
      modifies this`root, Nodes(t), PathNodes(p)
      ensures Focus(Top, Spliced(p, t))
      ensures Nodes(Spliced(p, t)) == Nodes(t) + PathNodes(p) - {node}
    {
      ghost var c, q := OnlyChild(t), SplicePath(p, t);
      var child := if node.right == null then node.left else node.right;
      ghost var s := RepairAbove(node, child, p, t);
      ReplaceNode(node, child, q, s);
      assert Nodes(c) == Nodes(t) - {node};
      if node.parent == null && child != null {
        SetColor(Black, child, q, c);
        c := Paint(c, Black);
      }
      ZoomToTop(q, c);
    }

    // The node with two children takes its successor's key and data.
    method TakeOver(node: RbNode<K, D>, from: RbNode<K, D>, ghost p: Path<K, D>, ghost t: Shape<K, D>)
      requires Focus(p, t) && TwoChildren(t) && node == t.entry.node && from == MinTree(t.right).entry.node
      modifies Nodes(t)
      ensures Focus(VictimPath(p, t), Victim(t))
      ensures Nodes(Victim(t)) + PathNodes(VictimPath(p, t)) == Nodes(t) + PathNodes(p)
    {
      ghost var m := MinTree(t.right);
      ghost var down := Step(R, t.color, t.entry, t.left, p);
      ZoomIn(R, p, t);
      ZoomToMin(down, t.right);
      assert Stores(m.entry, m.color);
      node.key := from.key;
      node.data := from.data;
      ghost var t' := t.(entry := TakesOver(t.entry, m.entry));
      assert Linked(t.left, node) && Linked(t.right, node);
      assert Focus(p, t');
      ZoomIn(R, p, t');
      down := Step(R, t'.color, t'.entry, t'.left, p);
      ZoomToMin(down, t'.right);
      MinPathFacts(down, t'.right);
    }

    // __rbtree_remove on the links; freed is the node the source frees.
    method Unlink(start: RbNode<K, D>, ghost p: Path<K, D>, ghost t: Shape<K, D>) returns (freed: RbNode<K, D>)
      requires Focus(p, t) && t.Fork? && start == t.entry.node && RedBlack(Plug(p, t))
      requires Spliceable(VictimPath(p, t), Victim(t))
      modifies this`root, Nodes(t), PathNodes(p)
      ensures Focus(Top, Spliced(VictimPath(p, t), Victim(t)))
      ensures freed in Nodes(t)
      ensures Nodes(Spliced(VictimPath(p, t), Victim(t))) == Nodes(t) + PathNodes(p) - {freed}
    {
      freed := start;
      assert Linked(t.left, freed) && Linked(t.right, freed);
      if freed.left != null && freed.right != null {
        ZoomIn(R, p, t);
        var next := GetMin(freed.right, Step(R, t.color, t.entry, t.left, p), t.right);
        TakeOver(freed, next, p, t);
        freed := next;
        VictimInTree(t);
      }
      Splice(freed, VictimPath(p, t), Victim(t));
    }

    // __rbtree_remove
    method RemoveNode(node: RbNode<K, D>, ghost p: Path<K, D>, ghost t: Shape<K, D>) returns (freed: RbNode<K, D>)
      requires Valid() && Focus(p, t) && Plug(p, t) == shape && Nodes(t) + PathNodes(p) == Repr()
      requires t.Fork? && node == t.entry.node
      modifies this`root, this`shape, Repr()
      ensures Valid()
      ensures Contents() == old(Contents()) - {t.entry.key}
      ensures freed in old(Repr()) && Repr() == old(Repr()) - {freed}
    {
      Removed(compare, p, t);
      hide Sorted;
      hide TotalOrder;
      hide MapOf;
      hide Items;
      hide InOrder;
      hide Spliceable;
      hide RedBlack;
      hide Spliced;
      hide Victim;
      hide VictimPath;
      freed := Unlink(node, p, t);
      shape := Spliced(VictimPath(p, t), Victim(t));
    }

    // rbtree_remove
    method Remove(key: K) returns (r: int)
      requires Valid()
      modifies this, Repr()
      ensures Valid() && Repr() <= old(Repr())
      ensures r == if key in old(Contents()) then 0 else -1
      ensures Contents() == old(Contents()) - {key}
      ensures r == -1 ==> shape == old(shape)
    {
      var node, parent, p, t, steps := DoLookup(key);
      FoundOrAbsent(p, t, key);
      if node == null {
        assert Contents() == Contents() - {key};
        return -1;
      }
      var freed := RemoveNode(node, p, t);
      return 0;
    }

    // ----- in-order walking

    method GetMax(start: RbNode<K, D>, ghost p: Path<K, D>, ghost t: Shape<K, D>) returns (node: RbNode<K, D>)
      requires Focus(p, t) && t.Fork? && start == t.entry.node
      ensures node == MaxTree(t).entry.node
    {
      node := start;
      ghost var q, s := p, t;
      while node.right != null
        invariant Focus(q, s) && s.Fork? && node == s.entry.node && MaxTree(s) == MaxTree(t)
        decreases s
      {
        ZoomIn(R, q, s);
        node := node.right;
        q, s := Step(R, s.color, s.entry, s.left, q), s.right;
      }
    }

    method Min() returns (node: RbNode?<K, D>)
      requires Valid()
      ensures node == NodeAt(shape, 0)
    {
      if root == null {
        return null;
      }
      MinIsFirst(shape);
      node := GetMin(root, Top, shape);
    }

    method Max() returns (node: RbNode?<K, D>)
      requires Valid()
      ensures node == NodeAt(shape, |InOrder(shape)| - 1)
    {
      if root == null {
        return null;
      }
      MaxIsLast(shape);
      node := GetMax(root, Top, shape);
    }

    lemma {:induction false} ZoomTo(p: Path<K, D>, t: Shape<K, D>, k: nat)
      requires Focus(p, t) && k < |InOrder(t)|
      ensures Focus(PathTo(p, t, k).0, PathTo(p, t, k).1)
      decreases t
    {
      var l := |InOrder(t.left)|;
      if k < l {
        ZoomIn(L, p, t);
        ZoomTo(Step(L, t.color, t.entry, t.right, p), t.left, k);
      } else if k > l {
        ZoomIn(R, p, t);
        ZoomTo(Step(R, t.color, t.entry, t.left, p), t.right, k - l - 1);
      }
    }

    // rbtree_next
    method Next(start: RbNode<K, D>) returns (r: RbNode?<K, D>)
      requires Valid() && start in Repr()
      ensures r == Successor(shape, start)
    {
      ghost var k := Rank(shape, start);
      ghost var (p, t) := PathTo(Top, shape, k);
      ZoomTo(Top, shape, k);
      Neighbours(shape, k, p, t);
      hide RedBlack;
      hide Sorted;
      hide TotalOrder;
      hide PathTo;
      hide Rank;
      if start.right != null {
        ZoomIn(R, p, t);
        MinIsFirst(t.right);
        r := GetMin(start.right, Step(R, t.color, t.entry, t.left, p), t.right);
      } else {
        var node := start;
        ghost var q, s := p, t;
        assert RightOf(p, t) == After(q);
        while node.parent != null && node.parent.right == node
          invariant Focus(q, s) && s.Fork? && node == s.entry.node && After(q) == RightOf(p, t)
          decreases q
        {
          assert node in Nodes(s) && (q.sibling.Fork? ==> q.sibling.entry.node in PathNodes(q));
          ZoomOut(q, s);
          node := node.parent;
          q, s := q.up, Make(q.side, q.color, q.entry, s, q.sibling);
        }
        r := node.parent;
      }
    }

    // rbtree_prev
    method Prev(start: RbNode<K, D>) returns (r: RbNode?<K, D>)
      requires Valid() && start in Repr()
      ensures r == Predecessor(shape, start)
    {
      ghost var k := Rank(shape, start);
      ghost var (p, t) := PathTo(Top, shape, k);
      ZoomTo(Top, shape, k);
      Neighbours(shape, k, p, t);
      if start.left != null {
        ZoomIn(L, p, t);
        MaxIsLast(t.left);
        r := GetMax(start.left, Step(L, t.color, t.entry, t.right, p), t.left);
      } else {
        var node := start;
        ghost var q, s := p, t;
        assert LeftOf(p, t) == Before(q);
        while node.parent != null && node.parent.left == node
          invariant Focus(q, s) && s.Fork? && node == s.entry.node && Before(q) == LeftOf(p, t)
          decreases q
        {
          assert node in Nodes(s) && (q.sibling.Fork? ==> q.sibling.entry.node in PathNodes(q));
          ZoomOut(q, s);
          node := node.parent;
          q, s := q.up, Make(q.side, q.color, q.entry, s, q.sibling);
        }
        r := node.parent;
      }
    }
  }
}
