// The mathematical side of the red-black tree: what the linked nodes spell out.
// Nothing here reads the heap.  A Shape is a tree of node references together with
// the colour, key and data each node holds.  A Path is the way back up from a
// subtree to the root, so that (path, subtree) is a tree seen from one of its nodes;
// the code walks trees this way, through parent pointers.
module RbShape {

  datatype Color = Black | Red

  class RbNode<K, D> {
    var parent: RbNode?<K, D>
    var left: RbNode?<K, D>
    var right: RbNode?<K, D>
    var color: Color
    var key: K
    var data: D

    constructor (key: K, data: D)
      ensures this.key == key && this.data == data
      ensures parent == null && left == null && right == null
    {
      this.key, this.data := key, data;
      parent, left, right := null, null, null;
    }
  }

  datatype Entry<K, D> = Entry(node: RbNode<K, D>, key: K, data: D)

  datatype Shape<K, D> =
    | Leaf
    | Fork(color: Color, entry: Entry<K, D>, left: Shape<K, D>, right: Shape<K, D>)

  // Side(d) names the side of its parent on which a subtree hangs.
  datatype Side = L | R

  datatype Path<K, D> =
    | Top
    | Step(side: Side, color: Color, entry: Entry<K, D>, sibling: Shape<K, D>, up: Path<K, D>)

  // ----- building and taking apart, seen from one side

  // The fork whose child on side d is near and whose other child is far.
  function Make<K, D>(d: Side, c: Color, e: Entry<K, D>, near: Shape<K, D>, far: Shape<K, D>): Shape<K, D> {
    if d == L then Fork(c, e, near, far) else Fork(c, e, far, near)
  }

  function Near<K, D>(d: Side, t: Shape<K, D>): Shape<K, D>
    requires t.Fork?
  {
    if d == L then t.left else t.right
  }

  function Far<K, D>(d: Side, t: Shape<K, D>): Shape<K, D>
    requires t.Fork?
  {
    if d == L then t.right else t.left
  }

  function ColorOf<K, D>(t: Shape<K, D>): Color {
    if t.Leaf? then Black else t.color
  }

  function Paint<K, D>(t: Shape<K, D>, c: Color): Shape<K, D> {
    if t.Leaf? then t else t.(color := c)
  }

  // The whole tree around a subtree.
  function Plug<K, D>(p: Path<K, D>, t: Shape<K, D>): Shape<K, D>
    decreases p
  {
    if p.Top? then t else Plug(p.up, Make(p.side, p.color, p.entry, t, p.sibling))
  }

  // ----- entries in key order

  function InOrder<K, D>(t: Shape<K, D>): seq<Entry<K, D>> {
    if t.Leaf? then [] else InOrder(t.left) + [t.entry] + InOrder(t.right)
  }

  function Before<K, D>(p: Path<K, D>): seq<Entry<K, D>> {
    if p.Top? then [] else
    if p.side == L then Before(p.up) else Before(p.up) + (InOrder(p.sibling) + [p.entry])
  }

  function After<K, D>(p: Path<K, D>): seq<Entry<K, D>> {
    if p.Top? then [] else
    if p.side == R then After(p.up) else [p.entry] + InOrder(p.sibling) + After(p.up)
  }

  lemma FlatAssoc<A>(a: seq<A>, x: A, b: seq<A>, y: A, c: seq<A>)
    ensures (a + [x] + b) + [y] + c == a + [x] + (b + [y] + c)
  {
  }

  lemma InnerAssoc<A>(a: seq<A>, x: A, b: seq<A>, y: A, c: seq<A>, z: A, d: seq<A>)
    ensures (a + [x] + (b + [y] + c)) + [z] + d == (a + [x] + b) + [y] + (c + [z] + d)
    ensures a + [x] + ((b + [y] + c) + [z] + d) == (a + [x] + b) + [y] + (c + [z] + d)
  {
    FlatAssoc(a, x, b, y, c);
    FlatAssoc(a + [x] + b, y, c, z, d);
    FlatAssoc(b, y, c, z, d);
    FlatAssoc(a, x, b, y, c + [z] + d);
  }

  lemma RaisingAssoc<A>(a: seq<A>, b: seq<A>, x: A, c: seq<A>, d: seq<A>)
    ensures a + b + ([x] + c + d) == a + (b + [x] + c) + d
    ensures (a + (b + [x])) + (c + d) == a + ((b + [x] + c) + d)
  {
  }

  // Zooming out by one step does not move an entry.
  lemma OrderAroundParent<K, D>(p: Path<K, D>, t: Shape<K, D>)
    requires p.Step?
    ensures Before(p.up) + InOrder(Make(p.side, p.color, p.entry, t, p.sibling)) + After(p.up)
         == Before(p) + InOrder(t) + After(p)
  {
    var b, a := Before(p.up), After(p.up);
    var m, s := InOrder(t), InOrder(p.sibling);
    if p.side == L {
      assert b + (m + [p.entry] + s) + a == b + m + ([p.entry] + s + a);
    } else {
      assert b + (s + [p.entry] + m) + a == (b + (s + [p.entry])) + m + a;
    }
  }

  lemma {:induction false} InOrderPlug<K, D>(p: Path<K, D>, t: Shape<K, D>)
    ensures InOrder(Plug(p, t)) == Before(p) + InOrder(t) + After(p)
    decreases p
  {
    if p.Step? {
      InOrderPlug(p.up, Make(p.side, p.color, p.entry, t, p.sibling));
      OrderAroundParent(p, t);
    }
  }

  // ----- the nodes of a tree and of a path

  function Nodes<K, D>(t: Shape<K, D>): set<RbNode<K, D>> {
    if t.Leaf? then {} else {t.entry.node} + Nodes(t.left) + Nodes(t.right)
  }

  function PathNodes<K, D>(p: Path<K, D>): set<RbNode<K, D>> {
    if p.Top? then {} else {p.entry.node} + Nodes(p.sibling) + PathNodes(p.up)
  }

  lemma MakeNodes<K, D>(d: Side, c: Color, e: Entry<K, D>, near: Shape<K, D>, far: Shape<K, D>)
    ensures Nodes(Make(d, c, e, near, far)) == {e.node} + Nodes(near) + Nodes(far)
  {
  }

  // No node occurs twice.
  predicate Distinct<K, D>(t: Shape<K, D>) {
    t.Fork? ==>
      && t.entry.node !in Nodes(t.left) && t.entry.node !in Nodes(t.right)
      && Nodes(t.left) !! Nodes(t.right)
      && Distinct(t.left) && Distinct(t.right)
  }

  predicate DistinctPath<K, D>(p: Path<K, D>) {
    p.Step? ==>
      && p.entry.node !in Nodes(p.sibling) && p.entry.node !in PathNodes(p.up)
      && Nodes(p.sibling) !! PathNodes(p.up)
      && Distinct(p.sibling) && DistinctPath(p.up)
  }

  predicate Apart<K, D>(p: Path<K, D>, t: Shape<K, D>) {
    Distinct(t) && DistinctPath(p) && Nodes(t) !! PathNodes(p)
  }

  // ----- balance

  function Weight(c: Color): nat {
    if c == Black then 1 else 0
  }

  function BlackHeight<K, D>(t: Shape<K, D>): nat {
    if t.Leaf? then 0 else BlackHeight(t.left) + Weight(t.color)
  }

  predicate Balanced<K, D>(t: Shape<K, D>) {
    t.Fork? ==> Balanced(t.left) && Balanced(t.right) && BlackHeight(t.left) == BlackHeight(t.right)
  }

  predicate NoRedRed<K, D>(t: Shape<K, D>) {
    t.Fork? ==>
      && NoRedRed(t.left) && NoRedRed(t.right)
      && (t.color == Red ==> ColorOf(t.left) == Black && ColorOf(t.right) == Black)
  }

  predicate RedBlack<K, D>(t: Shape<K, D>) {
    Balanced(t) && NoRedRed(t) && ColorOf(t) == Black
  }

  lemma MakeFacts<K, D>(d: Side, c: Color, e: Entry<K, D>, near: Shape<K, D>, far: Shape<K, D>)
    ensures var t := Make(d, c, e, near, far);
      && (Balanced(t) <==> Balanced(near) && Balanced(far) && BlackHeight(near) == BlackHeight(far))
      && (BlackHeight(near) == BlackHeight(far) ==> BlackHeight(t) == BlackHeight(near) + Weight(c))
      && (NoRedRed(t) <==> NoRedRed(near) && NoRedRed(far)
                           && (c == Red ==> ColorOf(near) == Black && ColorOf(far) == Black))
      && InOrder(t) == (if d == L then InOrder(near) + [e] + InOrder(far) else InOrder(far) + [e] + InOrder(near))
  {
  }

  // A path is sound for a hole of black height h when filling the hole with any sound
  // black-rooted tree of that black height gives a red-black tree.  See PlugIsRedBlack.
  predicate PathBalanced<K, D>(p: Path<K, D>, h: nat)
    decreases p
  {
    p.Step? ==> Balanced(p.sibling) && BlackHeight(p.sibling) == h && PathBalanced(p.up, h + Weight(p.color))
  }

  // c is the colour of the subtree in the hole; at the top only black is sound
  predicate PathColors<K, D>(p: Path<K, D>, c: Color)
    decreases p
  {
    if p.Top? then c == Black else
    && NoRedRed(p.sibling)
    && (p.color == Red ==> c == Black && ColorOf(p.sibling) == Black)
    && PathColors(p.up, p.color)
  }

  lemma {:induction false} PlugIsRedBlack<K, D>(p: Path<K, D>, t: Shape<K, D>)
    ensures (Balanced(t) && NoRedRed(t) && PathBalanced(p, BlackHeight(t)) && PathColors(p, ColorOf(t)))
            <==> RedBlack(Plug(p, t))
    decreases p
  {
    if p.Step? {
      var t' := Make(p.side, p.color, p.entry, t, p.sibling);
      PlugIsRedBlack(p.up, t');
      assert BlackHeight(t') == (if p.side == L then BlackHeight(t) else BlackHeight(p.sibling)) + Weight(p.color);
    }
  }

  // ----- insertion: what the recolour-and-rotate loop makes of a red subtree t at the
  // ----- end of path p

  ghost predicate Unsettled<K, D>(p: Path<K, D>, t: Shape<K, D>) {
    && t.Fork? && t.color == Red && Balanced(t) && NoRedRed(t)
    && PathBalanced(p, BlackHeight(t)) && PathColors(p, Black)
  }

  // The parent is red, so it is not the root and the grandparent is black.
  lemma GrandparentExists<K, D>(p: Path<K, D>, t: Shape<K, D>)
    requires Unsettled(p, t) && p.Step? && p.color == Red
    ensures p.up.Step? && p.up.color == Black && ColorOf(p.sibling) == Black
    ensures PathColors(p.up.up, Black)
  {
    assert PathColors(p.up, Red);
  }

  // Red parent, black uncle: the subtree of the grandparent after the one or two rotations.
  function Rotated<K, D>(p: Path<K, D>, t: Shape<K, D>): Shape<K, D>
    requires t.Fork? && p.Step? && p.up.Step?
  {
    var g := p.up;
    if p.side != g.side then
      Make(g.side, Black, t.entry,
           Make(g.side, Red, p.entry, p.sibling, Near(g.side, t)),
           Make(g.side, Red, g.entry, Far(g.side, t), g.sibling))
    else
      Make(g.side, Black, p.entry, t, Make(g.side, Red, g.entry, p.sibling, g.sibling))
  }

  // Red parent, red uncle: the subtree of the grandparent after recolouring.
  function Recolored<K, D>(p: Path<K, D>, t: Shape<K, D>): Shape<K, D>
    requires p.Step? && p.up.Step?
  {
    Make(p.up.side, Red, p.up.entry,
         Make(p.side, Black, p.entry, t, p.sibling),
         Paint(p.up.sibling, Black))
  }

  // The entries below the grandparent, in order, before either step.
  function OrderBelowGrandparent<K, D>(p: Path<K, D>, t: Shape<K, D>): seq<Entry<K, D>>
    requires p.Step? && p.up.Step?
  {
    InOrder(Make(p.up.side, p.up.color, p.up.entry, Make(p.side, p.color, p.entry, t, p.sibling), p.up.sibling))
  }

  lemma OrderAroundGrandparent<K, D>(p: Path<K, D>, t: Shape<K, D>)
    requires p.Step? && p.up.Step?
    ensures Before(p.up.up) + OrderBelowGrandparent(p, t) + After(p.up.up) == Before(p) + InOrder(t) + After(p)
  {
    OrderAroundParent(p, t);
    OrderAroundParent(p.up, Make(p.side, p.color, p.entry, t, p.sibling));
  }

  lemma RotatedKeepsOrder<K, D>(p: Path<K, D>, t: Shape<K, D>)
    requires t.Fork? && p.Step? && p.up.Step?
    ensures InOrder(Rotated(p, t)) == OrderBelowGrandparent(p, t)
  {
    if p.side == p.up.side { OuterRotationKeepsOrder(p, t); } else { InnerRotationKeepsOrder(p, t); }
  }

  lemma OuterRotationKeepsOrder<K, D>(p: Path<K, D>, t: Shape<K, D>)
    requires t.Fork? && p.Step? && p.up.Step? && p.side == p.up.side
    ensures InOrder(Rotated(p, t)) == OrderBelowGrandparent(p, t)
  {
    var g := p.up;
    MakeFacts(g.side, Red, g.entry, p.sibling, g.sibling);
    MakeFacts(p.side, p.color, p.entry, t, p.sibling);
    var m, s, u := InOrder(t), InOrder(p.sibling), InOrder(g.sibling);
    if p.side == L {
      FlatAssoc(m, p.entry, s, g.entry, u);
    } else {
      FlatAssoc(u, g.entry, s, p.entry, m);
    }
  }

  lemma InnerRotationKeepsOrder<K, D>(p: Path<K, D>, t: Shape<K, D>)
    requires t.Fork? && p.Step? && p.up.Step? && p.side != p.up.side
    ensures InOrder(Rotated(p, t)) == OrderBelowGrandparent(p, t)
  {
    var g := p.up;
    MakeFacts(g.side, Red, p.entry, p.sibling, Near(g.side, t));
    MakeFacts(g.side, Red, g.entry, Far(g.side, t), g.sibling);
    MakeFacts(p.side, p.color, p.entry, t, p.sibling);
    var s, u := InOrder(p.sibling), InOrder(g.sibling);
    var tl, tr := InOrder(t.left), InOrder(t.right);
    if p.side == R {
      InnerAssoc(s, p.entry, tl, t.entry, tr, g.entry, u);
    } else {
      InnerAssoc(u, g.entry, tl, t.entry, tr, p.entry, s);
    }
  }

  lemma RotatedIsSound<K, D>(p: Path<K, D>, t: Shape<K, D>)
    requires Unsettled(p, t) && p.Step? && p.color == Red && p.up.Step? && ColorOf(p.up.sibling) == Black
    ensures var r := Rotated(p, t);
      && Balanced(r) && NoRedRed(r) && r.color == Black
      && PathBalanced(p.up.up, BlackHeight(r)) && PathColors(p.up.up, Black)
  {
    GrandparentExists(p, t);
    var g, r := p.up, Rotated(p, t);
    assert PathBalanced(g, BlackHeight(t)) && PathColors(g, Red);
    if p.side != g.side {
      MakeFacts(g.side, Red, t.entry, Near(g.side, t), Far(g.side, t));
      MakeFacts(g.side, Red, p.entry, p.sibling, Near(g.side, t));
      MakeFacts(g.side, Red, g.entry, Far(g.side, t), g.sibling);
    } else {
      MakeFacts(g.side, Red, g.entry, p.sibling, g.sibling);
    }
    MakeFacts(g.side, Black, r.entry, Near(g.side, r), Far(g.side, r));
  }

  lemma RecoloredKeepsOrder<K, D>(p: Path<K, D>, t: Shape<K, D>)
    requires p.Step? && p.up.Step?
    ensures InOrder(Recolored(p, t)) == OrderBelowGrandparent(p, t)
  {
    assert InOrder(Paint(p.up.sibling, Black)) == InOrder(p.up.sibling);
    assert InOrder(Make(p.side, Black, p.entry, t, p.sibling)) == InOrder(Make(p.side, p.color, p.entry, t, p.sibling));
  }

  lemma RecoloredIsUnsettled<K, D>(p: Path<K, D>, t: Shape<K, D>)
    requires Unsettled(p, t) && p.Step? && p.color == Red && p.up.Step? && ColorOf(p.up.sibling) == Red
    ensures Unsettled(p.up.up, Recolored(p, t))
  {
    GrandparentExists(p, t);
    var g := p.up;
    assert PathBalanced(g, BlackHeight(t)) && PathColors(g, Red);
    assert Balanced(g.sibling) && NoRedRed(g.sibling);
    MakeFacts(p.side, Black, p.entry, t, p.sibling);
    MakeFacts(g.side, Red, g.entry, Make(p.side, Black, p.entry, t, p.sibling), Paint(g.sibling, Black));
  }

  // The tree the loop and the final blackening of the root end with.
  ghost function Settle<K, D>(p: Path<K, D>, t: Shape<K, D>): (r: Shape<K, D>)
    requires Unsettled(p, t)
    ensures RedBlack(r)
    ensures InOrder(r) == Before(p) + InOrder(t) + After(p)
    decreases p
  {
    if p.Top? then
      t.(color := Black)
    else if p.color == Black then
      PlugIsRedBlack(p, t); InOrderPlug(p, t);
      Plug(p, t)
    else
      GrandparentExists(p, t); OrderAroundGrandparent(p, t);
      if ColorOf(p.up.sibling) == Red then
        RecoloredIsUnsettled(p, t); RecoloredKeepsOrder(p, t);
        Settle(p.up.up, Recolored(p, t))
      else
        var r := Rotated(p, t);
        RotatedIsSound(p, t); RotatedKeepsOrder(p, t); PlugIsRedBlack(p.up.up, r); InOrderPlug(p.up.up, r);
        Plug(p.up.up, r)
  }

  // ----- deletion: the six-case repair.  The doomed node stays in the hole, untouched,
  // ----- while the repair rewrites the path above it.

  function Depth<K, D>(p: Path<K, D>): nat {
    if p.Top? then 0 else 1 + Depth(p.up)
  }

  lemma BlackFitsAnywhere<K, D>(p: Path<K, D>, c: Color)
    requires PathColors(p, c)
    ensures PathColors(p, Black)
  {
  }

  // Everything the hole may expect is one black too many.
  ghost predicate OneShort<K, D>(p: Path<K, D>, h: nat) {
    PathBalanced(p, h + 1) && PathColors(p, Black)
  }

  // Sound for a hole of black height h, whatever the colour of what fills it,
  // unless the hole is the root.
  ghost predicate Repaired<K, D>(p: Path<K, D>, h: nat) {
    PathBalanced(p, h) && PathColors(p, Black) && (p.Step? ==> p.color == Black)
  }

  // Cases 3 to 6 run after case 2, which leaves a black sibling.
  ghost predicate BlackSibling<K, D>(p: Path<K, D>, h: nat) {
    p.Step? && OneShort(p, h) && p.sibling.Fork? && p.sibling.color == Black
  }

  ghost predicate SameEntries<K, D>(p: Path<K, D>, q: Path<K, D>) {
    Before(p) == Before(q) && After(p) == After(q) && PathNodes(p) == PathNodes(q)
  }

  // Cases 2 and 6 lift the sibling s over the parent: s keeps its far child, the parent
  // takes its near one.
  lemma RaisingKeepsEntries<K, D>(p: Path<K, D>, low: Color, high: Color, far: Shape<K, D>)
    requires p.Step? && p.sibling.Fork?
    requires InOrder(far) == InOrder(Far(p.side, p.sibling)) && Nodes(far) == Nodes(Far(p.side, p.sibling))
    ensures SameEntries(p, Step(p.side, low, p.entry, Near(p.side, p.sibling),
                                Step(p.side, high, p.sibling.entry, far, p.up)))
  {
    var s := p.sibling;
    var n, f := InOrder(Near(p.side, s)), InOrder(far);
    if p.side == L {
      RaisingAssoc([p.entry], n, s.entry, f, After(p.up));
    } else {
      RaisingAssoc(Before(p.up), f, s.entry, n, [p.entry]);
    }
  }

  function BlackRun<K, D>(p: Path<K, D>): nat {
    if p.Top? || p.color == Red then 0 else Depth(p)
  }

  ghost function Case1<K, D>(p: Path<K, D>, h: nat): (q: Path<K, D>)
    requires OneShort(p, h)
    ensures Repaired(q, h) && SameEntries(p, q)
    decreases BlackRun(p), 6
  {
    if p.Top? then p else Case2(p, h)
  }

  ghost function Case2<K, D>(p: Path<K, D>, h: nat): (q: Path<K, D>)
    requires p.Step? && OneShort(p, h)
    ensures Repaired(q, h) && SameEntries(p, q)
    decreases BlackRun(p), 5
  {
    if ColorOf(p.sibling) == Red then
      RaisingKeepsEntries(p, Red, Black, Far(p.side, p.sibling));
      Case3(SiblingUp(p), h)
    else
      Case3(p, h)
  }

  // Case 2's rotation: the red sibling takes the parent's place, above it.
  function SiblingUp<K, D>(p: Path<K, D>): Path<K, D>
    requires p.Step? && p.sibling.Fork?
  {
    var s := p.sibling;
    Step(p.side, Red, p.entry, Near(p.side, s), Step(p.side, Black, s.entry, Far(p.side, s), p.up))
  }

  predicate NephewsBlack<K, D>(p: Path<K, D>)
    requires p.Step? && p.sibling.Fork?
  {
    ColorOf(p.sibling.left) == Black && ColorOf(p.sibling.right) == Black
  }

  ghost function Case3<K, D>(p: Path<K, D>, h: nat): (q: Path<K, D>)
    requires BlackSibling(p, h)
    ensures Repaired(q, h) && SameEntries(p, q)
    decreases BlackRun(p), 4
  {
    if p.color == Black && NephewsBlack(p) then
      p.(sibling := Paint(p.sibling, Red), up := Case1(p.up, h + 1))
    else
      Case4(p, h)
  }

  ghost function Case4<K, D>(p: Path<K, D>, h: nat): (q: Path<K, D>)
    requires BlackSibling(p, h) && (p.color == Red || !NephewsBlack(p))
    ensures Repaired(q, h) && SameEntries(p, q)
  {
    if p.color == Red && NephewsBlack(p) then
      BlackFitsAnywhere(p.up, p.color);
      p.(color := Black, sibling := Paint(p.sibling, Red))
    else
      Case5(p, h)
  }

  // Case 5's rotation: the red near nephew becomes the black sibling.
  function NephewUp<K, D>(p: Path<K, D>): Path<K, D>
    requires p.Step? && p.sibling.Fork? && Near(p.side, p.sibling).Fork?
  {
    var s := p.sibling;
    var n := Near(p.side, s);
    p.(sibling := Make(p.side, Black, n.entry, Near(p.side, n),
                       Make(p.side, Red, s.entry, Far(p.side, n), Far(p.side, s))))
  }

  lemma NephewUpFacts<K, D>(p: Path<K, D>, h: nat)
    requires BlackSibling(p, h) && !NephewsBlack(p) && ColorOf(Far(p.side, p.sibling)) == Black
    ensures BlackSibling(NephewUp(p), h) && ColorOf(Far(p.side, NephewUp(p).sibling)) == Red
  {
    var s := p.sibling;
    var n, far := Near(p.side, s), Far(p.side, s);
    MakeFacts(p.side, s.color, s.entry, n, far);
    MakeFacts(p.side, n.color, n.entry, Near(p.side, n), Far(p.side, n));
    MakeFacts(p.side, Red, s.entry, Far(p.side, n), far);
    MakeFacts(p.side, Black, n.entry, Near(p.side, n), Make(p.side, Red, s.entry, Far(p.side, n), far));
  }

  lemma NephewUpKeepsEntries<K, D>(p: Path<K, D>)
    requires p.Step? && p.sibling.Fork? && Near(p.side, p.sibling).Fork?
    ensures SameEntries(p, NephewUp(p))
  {
    var s, r := p.sibling, NephewUp(p).sibling;
    var n, far := Near(p.side, s), Far(p.side, s);
    var x, y := Near(p.side, n), Far(p.side, n);
    assert Nodes(s) == {s.entry.node} + ({n.entry.node} + Nodes(x) + Nodes(y)) + Nodes(far);
    MakeNodes(p.side, Red, s.entry, y, far);
    MakeNodes(p.side, Black, n.entry, x, Make(p.side, Red, s.entry, y, far));
    if p.side == L {
      FlatAssoc(InOrder(x), n.entry, InOrder(y), s.entry, InOrder(far));
    } else {
      FlatAssoc(InOrder(far), s.entry, InOrder(y), n.entry, InOrder(x));
    }
    assert InOrder(r) == InOrder(s);
  }

  ghost function Case5<K, D>(p: Path<K, D>, h: nat): (q: Path<K, D>)
    requires BlackSibling(p, h) && !NephewsBlack(p)
    ensures Repaired(q, h) && SameEntries(p, q)
  {
    if ColorOf(Far(p.side, p.sibling)) == Black then
      NephewUpFacts(p, h); NephewUpKeepsEntries(p);
      Case6(NephewUp(p), h)
    else
      Case6(p, h)
  }

  ghost function Case6<K, D>(p: Path<K, D>, h: nat): (q: Path<K, D>)
    requires BlackSibling(p, h) && ColorOf(Far(p.side, p.sibling)) == Red
    ensures Repaired(q, h) && SameEntries(p, q)
  {
    SiblingRaisedFacts(p, h); RaisingKeepsEntries(p, Black, p.color, Paint(Far(p.side, p.sibling), Black));
    SiblingRaised(p)
  }

  // Case 6's rotation: the sibling takes the parent's place and colour.
  function SiblingRaised<K, D>(p: Path<K, D>): Path<K, D>
    requires p.Step? && p.sibling.Fork?
  {
    var s := p.sibling;
    Step(p.side, Black, p.entry, Near(p.side, s),
         Step(p.side, p.color, s.entry, Paint(Far(p.side, s), Black), p.up))
  }

  lemma SiblingRaisedFacts<K, D>(p: Path<K, D>, h: nat)
    requires BlackSibling(p, h) && ColorOf(Far(p.side, p.sibling)) == Red
    ensures Repaired(SiblingRaised(p), h)
  {
    var s, q := p.sibling, SiblingRaised(p);
    var n, far := Near(p.side, s), Far(p.side, s);
    MakeFacts(p.side, s.color, s.entry, n, far);
    BlackFitsAnywhere(p.up, p.color);
    assert BlackHeight(q.sibling) == h && BlackHeight(q.up.sibling) == h + 1;
    assert PathBalanced(q.up, h + 1);
    assert PathColors(q.up, Black);
  }

  // The tree turned one step towards side d: the far child comes up.
  function Turn<K, D>(d: Side, t: Shape<K, D>): Shape<K, D>
    requires t.Fork? && Far(d, t).Fork?
  {
    var q := Far(d, t);
    Make(d, q.color, q.entry, Make(d, t.color, t.entry, Near(d, t), Near(d, q)), Far(d, q))
  }

  function Other(d: Side): Side {
    if d == L then R else L
  }

  function PaintChild<K, D>(d: Side, s: Shape<K, D>, c: Color): Shape<K, D>
    requires s.Fork?
  {
    Make(d, s.color, s.entry, Paint(Near(d, s), c), Far(d, s))
  }

  // The path to the sibling of subtree t.
  function Across<K, D>(p: Path<K, D>, t: Shape<K, D>): Path<K, D>
    requires p.Step?
  {
    Step(Other(p.side), p.color, p.entry, t, p.up)
  }

  // The path to the hole after its parent has been turned towards it: the sibling is now the
  // grandparent and its near child the new sibling.
  function Raised<K, D>(p: Path<K, D>): Path<K, D>
    requires p.Step? && p.sibling.Fork?
  {
    Step(p.side, p.color, p.entry, Near(p.side, p.sibling),
         Step(p.side, p.sibling.color, p.sibling.entry, Far(p.side, p.sibling), p.up))
  }

  // The red-parent, black-uncle branch of insertion in the source's two steps.
  function Straight<K, D>(d: Side, p: Path<K, D>, t: Shape<K, D>): Shape<K, D>
    requires p.Step? && t.Fork?
  {
    var pt := Make(p.side, p.color, p.entry, t, p.sibling);
    if p.side == d then pt else Turn(d, pt)
  }

  function Lifted<K, D>(g: Path<K, D>, s: Shape<K, D>): Shape<K, D>
    requires g.Step? && s.Fork?
  {
    Turn(Other(g.side), Make(g.side, Red, g.entry, Paint(s, Black), g.sibling))
  }

  lemma TwoStepsAreRotated<K, D>(p: Path<K, D>, t: Shape<K, D>)
    requires t.Fork? && t.color == Red && p.Step? && p.color == Red && p.up.Step?
    ensures Lifted(p.up, Straight(p.up.side, p, t)) == Rotated(p, t)
  {
  }

  lemma TurnIsApart<K, D>(d: Side, p: Path<K, D>, t: Shape<K, D>)
    requires t.Fork? && Far(d, t).Fork? && Apart(p, t)
    ensures Apart(p, Turn(d, t)) && Nodes(Turn(d, t)) == Nodes(t)
  {
    assert Distinct(Far(d, t));
    var inner := Make(d, t.color, t.entry, Near(d, t), Near(d, Far(d, t)));
    assert Distinct(inner) && Nodes(inner) == {t.entry.node} + Nodes(Near(d, t)) + Nodes(Near(d, Far(d, t)));
  }
}
