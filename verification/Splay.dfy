// The mathematical side of the top-down splay tree.  While it works, the tree is in three
// parts: what is still to be searched, and two spines of nodes already known to be smaller or
// larger than the key.
module SplayTree {
  import opened RbShape
  import opened RbOrder

  class SplayNode<K> {
    const key: K
    var left: SplayNode?<K>
    var right: SplayNode?<K>

    constructor (key: K)
      ensures this.key == key && left == null && right == null
    {
      this.key := key;
      left, right := null, null;
    }
  }

  datatype Splay<K> = Nil | Bin(node: SplayNode<K>, left: Splay<K>, right: Splay<K>)

  // A spine from its innermost node outwards.  On side d each node has the next node inwards,
  // on the other side the subtree sub.
  datatype Spine<K> = End | Link(node: SplayNode<K>, sub: Splay<K>, up: Spine<K>)

  function Join<K>(d: Side, n: SplayNode<K>, near: Splay<K>, far: Splay<K>): Splay<K> {
    if d == L then Bin(n, near, far) else Bin(n, far, near)
  }

  function Kid<K>(t: Splay<K>, d: Side): Splay<K>
    requires t.Bin?
  {
    if d == L then t.left else t.right
  }

  function Child<K>(n: SplayNode<K>, d: Side): SplayNode?<K>
    reads n
  {
    if d == L then n.left else n.right
  }

  // ----- the nodes, and their order

  function NodesOf<K>(t: Splay<K>): set<SplayNode<K>> {
    if t.Nil? then {} else {t.node} + NodesOf(t.left) + NodesOf(t.right)
  }

  function SpineNodes<K>(s: Spine<K>): set<SplayNode<K>> {
    if s.End? then {} else {s.node} + NodesOf(s.sub) + SpineNodes(s.up)
  }

  predicate AllDistinct<K>(t: Splay<K>) {
    t.Bin? ==>
      && t.node !in NodesOf(t.left) && t.node !in NodesOf(t.right) && NodesOf(t.left) !! NodesOf(t.right)
      && AllDistinct(t.left) && AllDistinct(t.right)
  }

  predicate SpineDistinct<K>(s: Spine<K>) {
    s.Link? ==>
      && s.node !in NodesOf(s.sub) && s.node !in SpineNodes(s.up) && NodesOf(s.sub) !! SpineNodes(s.up)
      && AllDistinct(s.sub) && SpineDistinct(s.up)
  }

  function Flat<K>(t: Splay<K>): seq<SplayNode<K>> {
    if t.Nil? then [] else Flat(t.left) + [t.node] + Flat(t.right)
  }

  function SpineFlat<K>(d: Side, s: Spine<K>): seq<SplayNode<K>> {
    if s.End? then [] else
    if d == R then SpineFlat(d, s.up) + (Flat(s.sub) + [s.node]) else [s.node] + Flat(s.sub) + SpineFlat(d, s.up)
  }

  ghost predicate Ascending<K>(compare: (K, K) -> int, s: seq<SplayNode<K>>) {
    forall i, j :: 0 <= i < j < |s| ==> Less(compare, s[i].key, s[j].key)
  }

  lemma {:induction false} FlatNodes<K>(t: Splay<K>, n: SplayNode<K>)
    ensures n in Flat(t) <==> n in NodesOf(t)
  {
    if t.Bin? {
      FlatNodes(t.left, n);
      FlatNodes(t.right, n);
    }
  }

  // ----- what the heap holds

  ghost predicate Spells<K>(n: SplayNode?<K>, t: Splay<K>)
    reads NodesOf(t)
    decreases t
  {
    if t.Nil? then n == null
    else n == t.node && Spells(t.node.left, t.left) && Spells(t.node.right, t.right)
  }

  ghost predicate Chain<K>(d: Side, s: Spine<K>)
    reads SpineNodes(s)
    decreases s
  {
    s.Link? ==>
      && Spells(Child(s.node, Other(d)), s.sub)
      && (s.up.Link? ==> s.up.node in SpineNodes(s.up) && Child(s.up.node, d) == s.node)
      && Chain(d, s.up)
  }

  // The outermost node of a spine.
  function Outer<K>(s: Spine<K>): (n: SplayNode<K>)
    requires s.Link?
    ensures n in SpineNodes(s)
  {
    if s.up.End? then s.node else Outer(s.up)
  }

  // ----- closing a spine: a tree goes where the innermost node has no child yet

  function Fill<K>(d: Side, s: Spine<K>, t: Splay<K>): Splay<K>
    decreases s
  {
    if s.End? then t else Fill(d, s.up, Join(d, s.node, t, s.sub))
  }

  lemma {:induction false} FillFlat<K>(d: Side, s: Spine<K>, t: Splay<K>)
    ensures Flat(Fill(d, s, t)) == if d == R then SpineFlat(d, s) + Flat(t) else Flat(t) + SpineFlat(d, s)
    decreases s
  {
    if s.Link? {
      FillFlat(d, s.up, Join(d, s.node, t, s.sub));
    }
  }

  lemma {:induction false} FillDistinct<K>(d: Side, s: Spine<K>, t: Splay<K>)
    requires SpineDistinct(s) && AllDistinct(t) && SpineNodes(s) !! NodesOf(t)
    ensures AllDistinct(Fill(d, s, t)) && NodesOf(Fill(d, s, t)) == SpineNodes(s) + NodesOf(t)
    decreases s
  {
    if s.Link? {
      FillDistinct(d, s.up, Join(d, s.node, t, s.sub));
    }
  }

  lemma {:induction false} FillSpells<K>(d: Side, s: Spine<K>, t: Splay<K>)
    requires s.Link? && Chain(d, s) && Spells(Child(s.node, d), t)
    ensures Spells(Outer(s), Fill(d, s, t))
    decreases s
  {
    var t' := Join(d, s.node, t, s.sub);
    assert Spells(s.node, t');
    if s.up.Link? {
      FillSpells(d, s.up, t');
    } else {
      assert Fill(d, s, t) == t';
    }
  }

  // ----- the three parts together

  datatype Parts<K> = Parts(less: Spine<K>, mid: Splay<K>, more: Spine<K>)

  ghost predicate PartsApart<K>(p: Parts<K>) {
    && SpineDistinct(p.less) && AllDistinct(p.mid) && SpineDistinct(p.more)
    && SpineNodes(p.less) !! NodesOf(p.mid) && SpineNodes(p.less) !! SpineNodes(p.more) && NodesOf(p.mid) !! SpineNodes(p.more)
  }

  function PartNodes<K>(p: Parts<K>): set<SplayNode<K>> {
    SpineNodes(p.less) + NodesOf(p.mid) + SpineNodes(p.more)
  }

  function PartsFlat<K>(p: Parts<K>): seq<SplayNode<K>> {
    SpineFlat(R, p.less) + Flat(p.mid) + SpineFlat(L, p.more)
  }

  // The child on side d comes up, the root goes down on the other side.
  function Turned<K>(t: Splay<K>, d: Side): Splay<K>
    requires t.Bin? && Kid(t, d).Bin?
  {
    var m := Kid(t, d);
    Join(d, m.node, Kid(m, d), Join(d, t.node, Kid(m, Other(d)), Kid(t, Other(d))))
  }

  lemma TurnedKeeps<K>(t: Splay<K>, d: Side)
    requires t.Bin? && Kid(t, d).Bin?
    ensures Flat(Turned(t, d)) == Flat(t) && NodesOf(Turned(t, d)) == NodesOf(t)
    ensures AllDistinct(t) ==> AllDistinct(Turned(t, d))
  {
    TurnedFlat(t, d);
    var m := Kid(t, d);
    assert AllDistinct(t) ==> AllDistinct(m);
    assert AllDistinct(t) ==> AllDistinct(Join(d, t.node, Kid(m, Other(d)), Kid(t, Other(d))));
  }

  lemma TurnedFlat<K>(t: Splay<K>, d: Side)
    requires t.Bin? && Kid(t, d).Bin?
    ensures Flat(Turned(t, d)) == Flat(t)
  {
    var m := Kid(t, d);
    if d == L {
      assert Flat(t) == (Flat(m.left) + [m.node] + Flat(m.right)) + [t.node] + Flat(t.right);
      assert Flat(Turned(t, d)) == Flat(m.left) + [m.node] + (Flat(m.right) + [t.node] + Flat(t.right));
      hide Flat;
      FlatAssoc(Flat(m.left), m.node, Flat(m.right), t.node, Flat(t.right));
    } else {
      assert Flat(t) == Flat(t.left) + [t.node] + (Flat(m.left) + [m.node] + Flat(m.right));
      assert Flat(Turned(t, d)) == (Flat(t.left) + [t.node] + Flat(m.left)) + [m.node] + Flat(m.right);
      hide Flat;
      FlatAssoc(Flat(t.left), t.node, Flat(m.left), m.node, Flat(m.right));
    }
  }

  // The search goes on below side d; the root and what is on its other side join a spine.
  function Linked<K>(p: Parts<K>, d: Side): Parts<K>
    requires p.mid.Bin?
  {
    if d == L then Parts(p.less, p.mid.left, Link(p.mid.node, p.mid.right, p.more))
    else Parts(Link(p.mid.node, p.mid.left, p.less), p.mid.right, p.more)
  }

  lemma LinkedKeeps<K>(p: Parts<K>, d: Side)
    requires p.mid.Bin?
    ensures PartsFlat(Linked(p, d)) == PartsFlat(p) && PartNodes(Linked(p, d)) == PartNodes(p)
    ensures PartsApart(p) ==> PartsApart(Linked(p, d))
  {
    LinkedFlat(p, d);
    hide SpineFlat;
    hide Flat;
  }

  lemma LinkedFlat<K>(p: Parts<K>, d: Side)
    requires p.mid.Bin?
    ensures PartsFlat(Linked(p, d)) == PartsFlat(p)
  {
    Regroup(SpineFlat(R, p.less), Flat(p.mid.left), p.mid.node, Flat(p.mid.right), SpineFlat(L, p.more));
  }

  function Assembled<K>(p: Parts<K>): Splay<K>
    requires p.mid.Bin?
  {
    Bin(p.mid.node, Fill(R, p.less, p.mid.left), Fill(L, p.more, p.mid.right))
  }

  lemma AssembledKeeps<K>(p: Parts<K>)
    requires p.mid.Bin? && PartsApart(p)
    ensures Flat(Assembled(p)) == PartsFlat(p) && NodesOf(Assembled(p)) == PartNodes(p) && AllDistinct(Assembled(p))
  {
    FillDistinct(R, p.less, p.mid.left);
    FillDistinct(L, p.more, p.mid.right);
    AssembledFlat(p);
  }

  lemma Regroup<A>(l: seq<A>, a: seq<A>, n: A, b: seq<A>, r: seq<A>)
    ensures l + (a + [n] + b) + r == (l + a) + [n] + (b + r)
    ensures l + (a + [n] + b) + r == l + a + ([n] + b + r)
    ensures l + (a + [n] + b) + r == (l + (a + [n])) + b + r
  {
  }

  lemma AssembledFlat<K>(p: Parts<K>)
    requires p.mid.Bin?
    ensures Flat(Assembled(p)) == PartsFlat(p)
  {
    FillFlat(R, p.less, p.mid.left);
    FillFlat(L, p.more, p.mid.right);
    hide Fill;
    hide SpineFlat;
    Regroup(SpineFlat(R, p.less), Flat(p.mid.left), p.mid.node, Flat(p.mid.right), SpineFlat(L, p.more));
  }

  // ----- what is sought

  // seek gives the sign of the sought key against a key of the tree: it falls as keys rise.
  ghost predicate Falling<K(!new)>(compare: (K, K) -> int, seek: K -> int) {
    forall a, b {:trigger Less(compare, a, b)} :: Less(compare, a, b) ==>
      (seek(a) <= 0 ==> seek(b) < 0) && (seek(b) >= 0 ==> seek(a) > 0)
  }

  function Seek<K>(compare: (K, K) -> int, key: K): K -> int {
    x => compare(key, x)
  }

  lemma SeekingIsFalling<K(!new)>(compare: (K, K) -> int, key: K)
    requires TotalOrder(compare)
    ensures Falling(compare, Seek(compare, key))
  {
    forall a, b | Less(compare, a, b)
      ensures (compare(key, a) <= 0 ==> compare(key, b) < 0) && (compare(key, b) >= 0 ==> compare(key, a) > 0)
    {
      assert Less(compare, key, a) ==> Less(compare, key, b);
      assert Less(compare, a, key) <==> compare(key, a) > 0;
      assert Less(compare, b, key) <==> compare(key, b) > 0;
      assert compare(key, a) == 0 <==> key == a;
    }
  }

  ghost predicate SeekBefore<K>(nodes: set<SplayNode<K>>, seek: K -> int) {
    forall n :: n in nodes ==> seek(n.key) < 0
  }

  ghost predicate SeekAfter<K>(nodes: set<SplayNode<K>>, seek: K -> int) {
    forall n :: n in nodes ==> seek(n.key) > 0
  }

  // The sought key is at the root, or else belongs directly beside it.
  ghost predicate Found<K>(t: Splay<K>, seek: K -> int) {
    t.Bin? && SeekAfter(NodesOf(t.left), seek) && SeekBefore(NodesOf(t.right), seek)
  }

  lemma AscendingSplit<K>(compare: (K, K) -> int, a: seq<SplayNode<K>>, n: SplayNode<K>, b: seq<SplayNode<K>>)
    requires Ascending(compare, a + [n] + b)
    ensures Ascending(compare, a) && Ascending(compare, b)
    ensures forall x :: x in a ==> Less(compare, x.key, n.key)
    ensures forall x :: x in b ==> Less(compare, n.key, x.key)
  {
    hide Less;
    var s, k := a + [n] + b, |a|;
    assert s[k] == n;
    forall i | 0 <= i < |a| ensures s[i] == a[i] && Less(compare, a[i].key, n.key) {
    }
    forall i | 0 <= i < |b| ensures s[k + 1 + i] == b[i] && Less(compare, n.key, b[i].key) {
    }
    forall i, j | 0 <= i < j < |b| ensures Less(compare, b[i].key, b[j].key) {
      assert s[k + 1 + i] == b[i] && s[k + 1 + j] == b[j];
    }
  }

  lemma AscendingParts<K>(compare: (K, K) -> int, t: Splay<K>)
    requires t.Bin? && Ascending(compare, Flat(t))
    ensures Ascending(compare, Flat(t.left)) && Ascending(compare, Flat(t.right))
    ensures forall n :: n in NodesOf(t.left) ==> Less(compare, n.key, t.node.key)
    ensures forall n :: n in NodesOf(t.right) ==> Less(compare, t.node.key, n.key)
  {
    assert Flat(t) == Flat(t.left) + [t.node] + Flat(t.right);
    AscendingSplit(compare, Flat(t.left), t.node, Flat(t.right));
    hide Less;
    hide Ascending;
    hide Flat;
    hide NodesOf;
    forall n | n in NodesOf(t.left) ensures Less(compare, n.key, t.node.key) {
      FlatNodes(t.left, n);
    }
    forall n | n in NodesOf(t.right) ensures Less(compare, t.node.key, n.key) {
      FlatNodes(t.right, n);
    }
  }

  // One turn of the search keeps what the spines promise.
  ghost predicate Sided<K>(p: Parts<K>, seek: K -> int) {
    SeekAfter(SpineNodes(p.less), seek) && SeekBefore(SpineNodes(p.more), seek)
  }

  lemma LinkedKeepsSides<K(!new)>(compare: (K, K) -> int, p: Parts<K>, d: Side, seek: K -> int)
    requires p.mid.Bin? && Ascending(compare, Flat(p.mid)) && Falling(compare, seek) && Sided(p, seek)
    requires if d == L then seek(p.mid.node.key) < 0 else seek(p.mid.node.key) > 0
    ensures Sided(Linked(p, d), seek) && Ascending(compare, Flat(Linked(p, d).mid))
  {
    AscendingParts(compare, p.mid);
  }

  // What the loop keeps: these nodes in this order, taken apart by the search so far.
  ghost predicate Searching<K(!new)>(compare: (K, K) -> int, seek: K -> int, p: Parts<K>, all: Splay<K>) {
    && p.mid.Bin? && PartsApart(p) && Sided(p, seek) && Ascending(compare, Flat(p.mid))
    && PartsFlat(p) == Flat(all) && PartNodes(p) == NodesOf(all)
  }

  lemma SearchStarts<K(!new)>(compare: (K, K) -> int, seek: K -> int, all: Splay<K>)
    requires all.Bin? && AllDistinct(all) && Ascending(compare, Flat(all))
    ensures Searching(compare, seek, Parts(End, all, End), all)
  {
    assert SpineFlat<K>(R, End) == [] && SpineFlat<K>(L, End) == [];
    hide Flat;
    hide AllDistinct;
    hide Ascending;
    assert [] + Flat(all) + [] == Flat(all);
  }

  lemma RotateKeepsSearching<K(!new)>(compare: (K, K) -> int, seek: K -> int, p: Parts<K>, all: Splay<K>, d: Side)
    requires Searching(compare, seek, p, all) && Kid(p.mid, d).Bin?
    ensures Searching(compare, seek, p.(mid := Turned(p.mid, d)), all)
    ensures Flat(Turned(p.mid, d)) == Flat(p.mid) && NodesOf(Turned(p.mid, d)) == NodesOf(p.mid)
  {
    TurnedKeeps(p.mid, d);
  }

  lemma LinkKeepsSearching<K(!new)>(compare: (K, K) -> int, seek: K -> int, p: Parts<K>, all: Splay<K>, d: Side)
    requires Searching(compare, seek, p, all) && Falling(compare, seek) && Kid(p.mid, d).Bin?
    requires if d == L then seek(p.mid.node.key) < 0 else seek(p.mid.node.key) > 0
    ensures Searching(compare, seek, Linked(p, d), all)
    ensures |Flat(Linked(p, d).mid)| < |Flat(p.mid)|
  {
    LinkedKeeps(p, d);
    LinkedKeepsSides(compare, p, d, seek);
  }

  // The search ends at the key, or where there is nothing on its side.
  lemma AssembledIsFound<K(!new)>(compare: (K, K) -> int, p: Parts<K>, seek: K -> int)
    requires p.mid.Bin? && PartsApart(p) && Ascending(compare, Flat(p.mid)) && Falling(compare, seek) && Sided(p, seek)
    requires || seek(p.mid.node.key) == 0
             || (seek(p.mid.node.key) < 0 && p.mid.left.Nil?) || (seek(p.mid.node.key) > 0 && p.mid.right.Nil?)
    ensures Found(Assembled(p), seek)
  {
    AscendingParts(compare, p.mid);
    FillDistinct(R, p.less, p.mid.left);
    FillDistinct(L, p.more, p.mid.right);
  }

  // ----- the code, in place.  The two mirror images of each macro are written once, for a
  // side; the search by key and the search for an end are one loop, for a sign.

  // last is where the next node is hung on side d: the spine's innermost node, or the dummy.
  ghost predicate Hung<K>(d: Side, s: Spine<K>, dummy: SplayNode<K>, last: SplayNode<K>)
    reads dummy, SpineNodes(s)
  {
    && last == (if s.End? then dummy else s.node)
    && (s.Link? ==> Child(dummy, d) == Outer(s))
    && Chain(d, s)
  }

  // The heap in the middle of a splay.
  ghost predicate Held<K>(root: SplayNode?<K>, p: Parts<K>, dummy: SplayNode<K>, less: SplayNode<K>, more: SplayNode<K>)
    reads dummy, PartNodes(p)
  {
    && Spells(root, p.mid)
    && Hung(R, p.less, dummy, less) && Hung(L, p.more, dummy, more)
  }

  method SetChild<K>(n: SplayNode<K>, d: Side, child: SplayNode?<K>)
    modifies n
    ensures Child(n, d) == child && Child(n, Other(d)) == old(Child(n, Other(d)))
  {
    if d == L { n.left := child; } else { n.right := child; }
  }

  // SPLAY_ROTATE_RIGHT for the left side, SPLAY_ROTATE_LEFT for the right one
  method Rotate<K>(root: SplayNode<K>, child: SplayNode<K>, d: Side, ghost t: Splay<K>)
    requires Spells(root, t) && AllDistinct(t) && child == Child(root, d)
    modifies root, child
    ensures t.Bin? && Kid(t, d).Bin?
    ensures Spells(child, Turned(t, d))
  {
    ghost var m := Kid(t, d);
    assert Spells(root.left, t.left) && Spells(root.right, t.right);
    assert Spells(child.left, m.left) && Spells(child.right, m.right);
    assert AllDistinct(m) && allocated(NodesOf(t.left)) && allocated(NodesOf(t.right));
    assert allocated(NodesOf(m.left)) && allocated(NodesOf(m.right));
    SetChild(root, d, Child(child, Other(d)));
    SetChild(child, Other(d), root);
    assert Spells(root, Join(d, t.node, Kid(m, Other(d)), Kid(t, Other(d))));
  }

  // SPLAY_LINKLEFT for the left side, SPLAY_LINKRIGHT for the right one
  method LinkRoot<K>(root: SplayNode<K>, last: SplayNode<K>, d: Side,
                     ghost p: Parts<K>, ghost dummy: SplayNode<K>, ghost less: SplayNode<K>, ghost more: SplayNode<K>)
    returns (root': SplayNode?<K>)
    requires PartsApart(p) && dummy !in PartNodes(p) && Held(root, p, dummy, less, more)
    requires last == if d == L then more else less
    modifies last
    ensures p.mid.Bin? && root' == Child(root, d)
    ensures Held(root', Linked(p, d), dummy, if d == L then less else root, if d == L then root else more)
  {
    assert Spells(root.left, p.mid.left) && Spells(root.right, p.mid.right);
    assert allocated(NodesOf(p.mid.left)) && allocated(NodesOf(p.mid.right));
    assert allocated(SpineNodes(p.less)) && allocated(SpineNodes(p.more));
    SetChild(last, d, root);
    root' := Child(root, d);
    assert Chain(R, p.less) && Chain(L, p.more);
  }

  // One line of SPLAY_ASSEMBLE: what is left of the tree closes a spine.
  method Close<K>(last: SplayNode<K>, d: Side, child: SplayNode?<K>, ghost s: Spine<K>, ghost t: Splay<K>, ghost dummy: SplayNode<K>)
    requires Hung(d, s, dummy, last) && Spells(child, t)
    requires SpineDistinct(s) && SpineNodes(s) !! NodesOf(t) && dummy !in SpineNodes(s) + NodesOf(t)
    modifies last
    ensures Child(dummy, Other(d)) == old(Child(dummy, Other(d))) && Spells(Child(dummy, d), Fill(d, s, t))
  {
    assert allocated(NodesOf(t)) && allocated(SpineNodes(s));
    SetChild(last, d, child);
    assert Spells(child, t) && Chain(d, s);
    if s.Link? { FillSpells(d, s, t); }
  }

  // What the four lines of SPLAY_ASSEMBLE change is out of each other's way.
  lemma AssembleRoom<K>(root: SplayNode<K>, dummy: SplayNode<K>, less: SplayNode<K>, more: SplayNode<K>, p: Parts<K>)
    requires PartsApart(p) && dummy !in PartNodes(p) && Held(root, p, dummy, less, more)
    ensures p.mid.Bin? && root == p.mid.node && Spells(root.left, p.mid.left) && Spells(root.right, p.mid.right)
    ensures SpineDistinct(p.less) && SpineNodes(p.less) !! NodesOf(p.mid.left)
    ensures SpineDistinct(p.more) && SpineNodes(p.more) !! NodesOf(p.mid.right)
    ensures less !in SpineNodes(p.more) + NodesOf(p.mid.right) && root !in SpineNodes(p.more) && root != dummy
    ensures dummy !in SpineNodes(p.less) + NodesOf(p.mid.left) + SpineNodes(p.more) + NodesOf(p.mid.right)
    ensures root !in {less, more} && more !in NodesOf(Fill(R, p.less, p.mid.left)) && (less == more ==> less == dummy)
    ensures {root, dummy} !! NodesOf(Fill(R, p.less, p.mid.left)) && {root, dummy} !! NodesOf(Fill(L, p.more, p.mid.right))
  {
    FillDistinct(R, p.less, p.mid.left);
    FillDistinct(L, p.more, p.mid.right);
  }

  // The last two lines of SPLAY_ASSEMBLE.
  method Crown<K>(root: SplayNode<K>, dummy: SplayNode<K>, ghost a: Splay<K>, ghost b: Splay<K>)
    requires Spells(dummy.right, a) && Spells(dummy.left, b) && root !in NodesOf(a) && root !in NodesOf(b) && root != dummy
    modifies root
    ensures Spells(root, Bin(root, a, b))
  {
    root.left := dummy.right;
    root.right := dummy.left;
  }

  // SPLAY_ASSEMBLE
  method Assemble<K>(root: SplayNode<K>, dummy: SplayNode<K>, less: SplayNode<K>, more: SplayNode<K>, ghost p: Parts<K>)
    requires PartsApart(p) && dummy !in PartNodes(p) && Held(root, p, dummy, less, more)
    modifies root, dummy, less, more
    ensures p.mid.Bin? && Spells(root, Assembled(p))
  {
    AssembleRoom(root, dummy, less, more, p);
    hide PartsApart;
    hide SpineDistinct;
    hide Spells;
    hide Chain;
    hide Fill;
    hide NodesOf;
    hide SpineNodes;
    hide Outer;
    ghost var a', b' := Fill(R, p.less, p.mid.left), Fill(L, p.more, p.mid.right);
    assert allocated(SpineNodes(p.more)) && allocated(NodesOf(p.mid.right));
    Close(less, R, root.left, p.less, p.mid.left, dummy);
    assert Hung(L, p.more, dummy, more);
    assert allocated(NodesOf(a'));
    Close(more, L, root.right, p.more, p.mid.right, dummy);
    hide Hung;
    assert Spells(dummy.right, a') && Spells(dummy.left, b');
    Crown(root, dummy, a', b');
  }

  lemma HeldTop<K(!new)>(compare: (K, K) -> int, seek: K -> int, p: Parts<K>, all: Splay<K>,
                        top: SplayNode<K>, dummy: SplayNode<K>, less: SplayNode<K>, more: SplayNode<K>)
    requires Searching(compare, seek, p, all) && Held(top, p, dummy, less, more)
    ensures p.mid.Bin? && top == p.mid.node && {top, less, more} <= NodesOf(all) + {dummy}
    ensures forall d :: Child(top, d) == null <==> Kid(p.mid, d).Nil?
    ensures forall d :: Child(top, d) == null || (Child(top, d) in NodesOf(all) && Child(top, d) in NodesOf(p.mid))
  {
    assert Spells(top.left, p.mid.left) && Spells(top.right, p.mid.right);
  }

  // The two nodes a rotation changes are on neither spine.
  lemma RotateRoom<K(!new)>(compare: (K, K) -> int, seek: K -> int, p: Parts<K>, all: Splay<K>, d: Side, top: SplayNode<K>,
      tmp: SplayNode<K>, dummy: SplayNode<K>, less: SplayNode<K>, more: SplayNode<K>)
    requires Searching(compare, seek, p, all) && Held(top, p, dummy, less, more) && dummy !in NodesOf(all)
    requires tmp == Child(top, d)
    ensures AllDistinct(p.mid) && Spells(top, p.mid) && Kid(p.mid, d).Bin?
    ensures {top, tmp} !! SpineNodes(p.less) && {top, tmp} !! SpineNodes(p.more) && dummy !in {top, tmp}
    ensures Searching(compare, seek, p.(mid := Turned(p.mid, d)), all) && |Flat(Turned(p.mid, d))| == |Flat(p.mid)|
  {
    HeldTop(compare, seek, p, all, top, dummy, less, more);
    RotateKeepsSearching(compare, seek, p, all, d);
  }

  // One rotation of the loop.
  method RotateParts<K(!new)>(top: SplayNode<K>, tmp: SplayNode<K>, d: Side, ghost compare: (K, K) -> int, ghost seek: K -> int,
      ghost p: Parts<K>, ghost all: Splay<K>, ghost dummy: SplayNode<K>, ghost less: SplayNode<K>, ghost more: SplayNode<K>)
    returns (ghost p': Parts<K>)
    requires Searching(compare, seek, p, all) && Held(top, p, dummy, less, more) && dummy !in NodesOf(all)
    requires tmp == Child(top, d)
    modifies top, tmp
    ensures Searching(compare, seek, p', all) && Held(tmp, p', dummy, less, more) && |Flat(p'.mid)| == |Flat(p.mid)|
  {
    RotateRoom(compare, seek, p, all, d, top, tmp, dummy, less, more);
    p' := p.(mid := Turned(p.mid, d));
    assert Hung(R, p.less, dummy, less) && Hung(L, p.more, dummy, more);
    hide Ascending;
    hide Flat;
    hide Turned;
    hide Searching;
    hide AllDistinct;
    hide Spells;
    hide NodesOf;
    hide SpineNodes;
    hide Chain;
    hide Outer;
    assert allocated(SpineNodes(p.less)) && allocated(SpineNodes(p.more));
    Rotate(top, tmp, d, p.mid);
    assert Hung(R, p.less, dummy, less) && Hung(L, p.more, dummy, more);
  }

  // One step down of the loop.
  method LinkParts<K(!new)>(top: SplayNode<K>, less: SplayNode<K>, more: SplayNode<K>, d: Side,
      ghost compare: (K, K) -> int, ghost seek: K -> int, ghost p: Parts<K>, ghost all: Splay<K>, ghost dummy: SplayNode<K>)
    returns (ghost p': Parts<K>, top': SplayNode<K>, less': SplayNode<K>, more': SplayNode<K>)
    requires Searching(compare, seek, p, all) && Held(top, p, dummy, less, more) && dummy !in NodesOf(all)
    requires Falling(compare, seek) && Child(top, d) != null
    requires if d == L then seek(top.key) < 0 else seek(top.key) > 0
    modifies if d == L then more else less
    ensures Searching(compare, seek, p', all) && Held(top', p', dummy, less', more') && |Flat(p'.mid)| < |Flat(p.mid)|
  {
    HeldTop(compare, seek, p, all, top, dummy, less, more);
    LinkKeepsSearching(compare, seek, p, all, d);
    p' := Linked(p, d);
    var last := if d == L then more else less;
    top' := LinkRoot(top, last, d, p, dummy, less, more);
    less', more' := if d == L then less else top, if d == L then top else more;
  }

  lemma SearchEnds<K(!new)>(compare: (K, K) -> int, seek: K -> int, p: Parts<K>, all: Splay<K>)
    requires Searching(compare, seek, p, all) && Falling(compare, seek) && Ascending(compare, Flat(all))
    requires Stopped(p, seek)
    ensures PartsApart(p) && PartNodes(p) == NodesOf(all)
    ensures Flat(Assembled(p)) == Flat(all) && NodesOf(Assembled(p)) == NodesOf(all) && AllDistinct(Assembled(p))
    ensures Found(Assembled(p), seek) && Ascending(compare, Flat(Assembled(p)))
  {
    AssembledIsFound(compare, p, seek);
    AssembledKeeps(p);
  }

  // What is known when the loop is left.
  ghost predicate Stopped<K>(p: Parts<K>, seek: K -> int) {
    p.mid.Bin? && (|| seek(p.mid.node.key) == 0
                   || (seek(p.mid.node.key) < 0 && p.mid.left.Nil?)
                   || (seek(p.mid.node.key) > 0 && p.mid.right.Nil?))
  }

  // One turn of the loop: perhaps a rotation, then a step down, unless there is nothing below.
  method SearchOnce<K(!new)>(top: SplayNode<K>, less: SplayNode<K>, more: SplayNode<K>, comp: int, seek: K -> int,
      ghost compare: (K, K) -> int, ghost p: Parts<K>, ghost all: Splay<K>, ghost dummy: SplayNode<K>)
    returns (stop: bool, ghost p': Parts<K>, top': SplayNode<K>, less': SplayNode<K>, more': SplayNode<K>)
    requires Searching(compare, seek, p, all) && Held(top, p, dummy, less, more) && dummy !in NodesOf(all)
    requires Falling(compare, seek) && comp == seek(top.key) != 0
    modifies NodesOf(all), dummy
    ensures Searching(compare, seek, p', all) && Held(top', p', dummy, less', more')
    ensures if stop then Stopped(p', seek) else |Flat(p'.mid)| < |Flat(p.mid)|
  {
    HeldTop(compare, seek, p, all, top, dummy, less, more);
    hide Searching;
    hide Falling;
    hide Held;
    hide NodesOf;
    hide Flat;
    stop, p', top', less', more' := true, p, top, less, more;
    var d := if comp < 0 then L else R;
    var tmp := Child(top, d);
    if tmp == null { return; }
    var further := seek(tmp.key);
    if (comp < 0 && further < 0) || (comp > 0 && further > 0) {
      p' := RotateParts(top, tmp, d, compare, seek, p, all, dummy, less, more);
      top' := tmp;
      HeldTop(compare, seek, p', all, top', dummy, less, more);
      if Child(top', d) == null { return; }
    }
    stop := false;
    p', top', less', more' := LinkParts(top', less, more, d, compare, seek, p', all, dummy);
  }

  // The loop itself.
  method Search<K(!new)>(root: SplayNode<K>, dummy: SplayNode<K>, seek: K -> int, ghost compare: (K, K) -> int, ghost all: Splay<K>)
    returns (ghost p: Parts<K>, top: SplayNode<K>, less: SplayNode<K>, more: SplayNode<K>)
    requires Searching(compare, seek, Parts(End, all, End), all) && Spells(root, all) && dummy !in NodesOf(all)
    requires Falling(compare, seek)
    modifies NodesOf(all), dummy
    ensures Searching(compare, seek, p, all) && Held(top, p, dummy, less, more) && Stopped(p, seek)
  {
    p := Parts(End, all, End);
    top, less, more := root, dummy, dummy;
    assert Held(top, p, dummy, less, more);
    HeldTop(compare, seek, p, all, top, dummy, less, more);
    hide Searching;
    hide Falling;
    hide Held;
    hide NodesOf;
    hide Flat;
    var comp, stop := seek(top.key), false;
    while comp != 0 && !stop
      invariant Searching(compare, seek, p, all) && Held(top, p, dummy, less, more)
      invariant p.mid.Bin? && top == p.mid.node && comp == seek(top.key) && (stop ==> Stopped(p, seek))
      decreases !stop, |Flat(p.mid)|
    {
      stop, p, top, less, more := SearchOnce(top, less, more, comp, seek, compare, p, all, dummy);
      HeldTop(compare, seek, p, all, top, dummy, less, more);
      comp := seek(top.key);
    }
  }

  method SplayNodes<K(!new)>(root: SplayNode<K>, seek: K -> int, ghost compare: (K, K) -> int, ghost all: Splay<K>)
    returns (top: SplayNode<K>, ghost t: Splay<K>)
    requires Spells(root, all) && AllDistinct(all) && Ascending(compare, Flat(all)) && Falling(compare, seek)
    modifies NodesOf(all)
    ensures Spells(top, t) && AllDistinct(t) && Flat(t) == Flat(all) && NodesOf(t) == NodesOf(all) && Found(t, seek)
  {
    assert all.Bin? && allocated(NodesOf(all));
    hide Falling;
    hide Ascending;
    hide AllDistinct;
    hide Flat;
    hide Searching;
    hide Found;
    SearchStarts(compare, seek, all);
    var dummy := new SplayNode(root.key);
    ghost var p;
    var less, more;
    p, top, less, more := Search(root, dummy, seek, compare, all);
    HeldTop(compare, seek, p, all, top, dummy, less, more);
    SearchEnds(compare, seek, p, all);
    hide Held;
    Assemble(top, dummy, less, more, p);
    t := Assembled(p);
  }

  // Where the key is not in the tree, the new node goes between the two sides of the root.
  ghost predicate Separates<K(!new)>(compare: (K, K) -> int, a: seq<SplayNode<K>>, n: SplayNode<K>, b: seq<SplayNode<K>>) {
    (forall x :: x in a ==> Less(compare, x.key, n.key)) && (forall x :: x in b ==> Less(compare, n.key, x.key))
  }

  lemma AscendingAround<K(!new)>(compare: (K, K) -> int, a: seq<SplayNode<K>>, n: SplayNode<K>, b: seq<SplayNode<K>>)
    requires TotalOrder(compare) && Ascending(compare, a) && Ascending(compare, b) && Separates(compare, a, n, b)
    ensures Ascending(compare, a + [n] + b)
  {
    var s := a + [n] + b;
    forall i, j | 0 <= i < j < |s| ensures Less(compare, s[i].key, s[j].key) {
      if i < |a| < j {
        assert s[i] in a && s[j] in b;
        assert Less(compare, s[i].key, n.key) && Less(compare, n.key, s[j].key);
      }
    }
  }

  // Both sides of what a splay finds, in the terms of the order.
  lemma FoundSides<K(!new)>(compare: (K, K) -> int, t: Splay<K>, key: K)
    requires TotalOrder(compare) && Found(t, Seek(compare, key))
    ensures forall n :: n in Flat(t.left) ==> Less(compare, n.key, key)
    ensures forall n :: n in Flat(t.right) ==> Less(compare, key, n.key)
    ensures forall n :: n in NodesOf(t) && n.key == key ==> n == t.node && compare(key, t.node.key) == 0
    ensures compare(key, t.node.key) == 0 ==> t.node.key == key
  {
    forall n | n in Flat(t.left) ensures Less(compare, n.key, key) {
      FlatNodes(t.left, n);
    }
    forall n | n in Flat(t.right) ensures Less(compare, key, n.key) {
      FlatNodes(t.right, n);
    }
  }

  // The tree with a new node at the root.
  function Grown<K>(t: Splay<K>, n: SplayNode<K>, comp: int): Splay<K>
    requires t.Bin?
  {
    if comp < 0 then Bin(n, t.left, Bin(t.node, Nil, t.right)) else Bin(n, Bin(t.node, t.left, Nil), t.right)
  }

  lemma GrownNodes<K>(t: Splay<K>, n: SplayNode<K>, comp: int)
    requires t.Bin? && AllDistinct(t) && n !in NodesOf(t)
    ensures AllDistinct(Grown(t, n, comp)) && NodesOf(Grown(t, n, comp)) == NodesOf(t) + {n}
  {
    assert AllDistinct(Bin(t.node, Nil, t.right)) && AllDistinct(Bin(t.node, t.left, Nil));
  }

  lemma GrownIsAscending<K(!new)>(compare: (K, K) -> int, t: Splay<K>, n: SplayNode<K>)
    requires TotalOrder(compare) && Found(t, Seek(compare, n.key)) && compare(n.key, t.node.key) != 0
    requires Ascending(compare, Flat(t))
    ensures Ascending(compare, Flat(Grown(t, n, compare(n.key, t.node.key))))
  {
    FoundSides(compare, t, n.key);
    var a, r, b := Flat(t.left), [t.node], Flat(t.right);
    var comp := compare(n.key, t.node.key);
    assert Flat(t) == a + r + b;
    assert if comp < 0 then Less(compare, n.key, t.node.key) else Less(compare, t.node.key, n.key);
    GrownFlat(t, n, comp);
    AscendingSplit(compare, a, t.node, b);
    hide Flat;
    hide Found;
    hide Grown;
    hide Ascending;
    if comp < 0 {
      AscendingAround(compare, [], t.node, b);
      assert [] + r + b == r + b;
      AscendingAround(compare, a, n, r + b);
    } else {
      AscendingAround(compare, a, t.node, []);
      assert a + r + [] == a + r;
      AscendingAround(compare, a + r, n, b);
    }
  }

  lemma GrownFlat<K>(t: Splay<K>, n: SplayNode<K>, comp: int)
    requires t.Bin?
    ensures Flat(Grown(t, n, comp)) ==
      if comp < 0 then Flat(t.left) + [n] + ([t.node] + Flat(t.right)) else (Flat(t.left) + [t.node]) + [n] + Flat(t.right)
  {
    assert Flat(Bin(t.node, Nil, t.right)) == [t.node] + Flat(t.right);
    assert Flat(Bin(t.node, t.left, Nil)) == Flat(t.left) + [t.node];
  }

  // The tree without its root; rest is the left side, splayed once more.
  lemma WithoutRoot<K(!new)>(compare: (K, K) -> int, t: Splay<K>, rest: Splay<K>, key: K)
    requires TotalOrder(compare) && Found(t, Seek(compare, key)) && AllDistinct(t) && Ascending(compare, Flat(t))
    requires NodesOf(rest) == NodesOf(t.left) && Flat(rest) == Flat(t.left) && AllDistinct(rest)
    requires Found(rest, Seek(compare, key))
    ensures rest.right == Nil && var t' := Bin(rest.node, rest.left, t.right);
      AllDistinct(t') && NodesOf(t') == NodesOf(t) - {t.node} && Ascending(compare, Flat(t'))
  {
    assert forall n :: n in NodesOf(rest.right) ==> n in NodesOf(t.left);
    var t' := Bin(rest.node, rest.left, t.right);
    JoinedIsAscending(compare, t, rest);
    assert AllDistinct(t') && NodesOf(t') == NodesOf(t) - {t.node};
  }

  lemma JoinedIsAscending<K(!new)>(compare: (K, K) -> int, t: Splay<K>, rest: Splay<K>)
    requires TotalOrder(compare) && t.Bin? && Ascending(compare, Flat(t))
    requires rest.Bin? && rest.right.Nil? && Flat(rest) == Flat(t.left)
    ensures Ascending(compare, Flat(Bin(rest.node, rest.left, t.right)))
  {
    var a, m, b := Flat(rest.left), rest.node, Flat(t.right);
    assert Flat(t) == Flat(t.left) + [t.node] + b && Flat(rest) == a + [m] + [];
    AscendingSplit(compare, Flat(t.left), t.node, b);
    AscendingSplit(compare, a, m, []);
    assert Flat(Bin(m, rest.left, t.right)) == a + [m] + b;
    assert m in Flat(rest);
    hide Flat;
    hide Ascending;
    forall x | x in b ensures Less(compare, m.key, x.key) {
      assert Less(compare, m.key, t.node.key) && Less(compare, t.node.key, x.key);
    }
    AscendingAround(compare, a, m, b);
  }

  // The end of SPLAY_INSERT: elm above the splayed root.
  method PutAbove<K>(root: SplayNode<K>, elm: SplayNode<K>, comp: int, ghost t: Splay<K>)
    requires Spells(root, t) && AllDistinct(t) && elm !in NodesOf(t) && t.Bin?
    modifies root, elm
    ensures Spells(elm, Grown(t, elm, comp))
  {
    assert Spells(root.left, t.left) && Spells(root.right, t.right);
    if comp < 0 {
      elm.left := root.left;
      elm.right := root;
      root.left := null;
      assert Spells(root, Bin(t.node, Nil, t.right));
    } else {
      elm.right := root.right;
      elm.left := root;
      root.right := null;
      assert Spells(root, Bin(t.node, t.left, Nil));
    }
  }

  // The middle of SPLAY_REMOVE: the splayed root goes.
  method TakeRoot<K(!new)>(root: SplayNode<K>, key: K, compare: (K, K) -> int, ghost t: Splay<K>)
    returns (top: SplayNode?<K>, ghost t': Splay<K>)
    requires TotalOrder(compare) && Spells(root, t) && AllDistinct(t) && Ascending(compare, Flat(t))
    requires Found(t, Seek(compare, key))
    modifies NodesOf(t)
    ensures Spells(top, t') && AllDistinct(t') && Ascending(compare, Flat(t')) && NodesOf(t') == NodesOf(t) - {t.node}
  {
    AscendingParts(compare, t);
    assert Spells(root.left, t.left) && Spells(root.right, t.right);
    if root.left == null {
      return root.right, t.right;
    }
    SeekingIsFalling(compare, key);
    hide TotalOrder;
    hide Falling;
    hide Ascending;
    hide Flat;
    var tmp := root.right;
    ghost var rest;
    assert allocated(NodesOf(t.left)) && allocated(NodesOf(t.right));
    top, rest := SplayNodes(root.left, Seek(compare, key), compare, t.left);
    WithoutRoot(compare, t, rest, key);
    hide Found;
    hide Seek;
    t' := Bin(rest.node, rest.left, t.right);
    hide AllDistinct;
    HangRight(top, tmp, rest, t.right);
  }

  // The splayed left side has no right child; tmp becomes it.
  method HangRight<K>(top: SplayNode<K>, tmp: SplayNode?<K>, ghost rest: Splay<K>, ghost right: Splay<K>)
    requires rest.Bin? && Spells(top, rest) && Spells(tmp, right) && top !in NodesOf(rest.left) && top !in NodesOf(right)
    modifies top
    ensures Spells(top, Bin(rest.node, rest.left, right))
  {
    top.right := tmp;
  }

  lemma NoNodes<K>(t: Splay<K>)
    ensures NodesOf(t) == {} <==> t.Nil?
  {
    assert t.Bin? ==> t.node in NodesOf(t);
  }

  // The node in place k, or null past the end.
  function NodeAt<K>(t: Splay<K>, k: nat): SplayNode?<K> {
    if k < |Flat(t)| then Flat(t)[k] else null
  }

  class Head<K(!new)> {
    const compare: (K, K) -> int
    var root: SplayNode?<K>
    ghost var tree: Splay<K>

    ghost predicate Valid()
      reads this, NodesOf(tree)
    {
      TotalOrder(compare) && Spells(root, tree) && AllDistinct(tree) && Ascending(compare, Flat(tree))
    }

    // SPLAY_INIT
    constructor (compare: (K, K) -> int)
      requires TotalOrder(compare)
      ensures Valid() && this.compare == compare && tree == Nil
    {
      this.compare := compare;
      root, tree := null, Nil;
    }

    // The loop of name_SPLAY and of name_SPLAY_MINMAX: seek is the comparison with the
    // element, or a constant sign.
    method SplayBy(seek: K -> int)
      requires Valid() && root != null && Falling(compare, seek)
      modifies this`root, this`tree, NodesOf(tree)
      ensures Valid() && root != null
      ensures Flat(tree) == old(Flat(tree)) && NodesOf(tree) == old(NodesOf(tree)) && Found(tree, seek)
    {
      hide Falling;
      hide Ascending;
      hide AllDistinct;
      hide Flat;
      hide Found;
      ghost var t;
      var top;
      top, t := SplayNodes(root, seek, compare, tree);
      root, tree := top, t;
    }

    // name_SPLAY
    method Splay(elm: SplayNode<K>)
      requires Valid() && root != null
      modifies this`root, this`tree, NodesOf(tree)
      ensures Valid() && root != null && Flat(tree) == old(Flat(tree)) && NodesOf(tree) == old(NodesOf(tree))
      ensures Found(tree, Seek(compare, elm.key))
    {
      SeekingIsFalling(compare, elm.key);
      SplayBy(Seek(compare, elm.key));
    }

    // name_SPLAY_FIND
    method Find(elm: SplayNode<K>) returns (found: SplayNode?<K>)
      requires Valid()
      modifies this`root, this`tree, NodesOf(tree)
      ensures Valid() && Flat(tree) == old(Flat(tree)) && NodesOf(tree) == old(NodesOf(tree))
      ensures found == null <==> forall n :: n in NodesOf(tree) ==> n.key != elm.key
      ensures found != null ==> found in NodesOf(tree) && found.key == elm.key && found == root
    {
      if root == null { return null; }
      Splay(elm);
      FoundSides(compare, tree, elm.key);
      assert root == tree.node && tree.node in NodesOf(tree);
      found := if compare(elm.key, root.key) == 0 then root else null;
    }

    // name_SPLAY_INSERT
    method Insert(elm: SplayNode<K>) returns (present: SplayNode?<K>)
      requires Valid()
      modifies this`root, this`tree, NodesOf(tree), elm
      ensures Valid()
      ensures present == null <==> forall n :: n in old(NodesOf(tree)) ==> n.key != elm.key
      ensures present == null ==> NodesOf(tree) == old(NodesOf(tree)) + {elm} && root == elm
      ensures present != null ==> Flat(tree) == old(Flat(tree)) && NodesOf(tree) == old(NodesOf(tree))
      ensures present != null ==> present in NodesOf(tree) && present.key == elm.key
    {
      present := null;
      if root == null {
        elm.left, elm.right := null, null;
        root, tree := elm, Bin(elm, Nil, Nil);
        return;
      }
      Splay(elm);
      FoundSides(compare, tree, elm.key);
      var comp := compare(elm.key, root.key);
      ghost var t := tree;
      if comp == 0 { return root; }
      assert elm !in NodesOf(t);
      GrownIsAscending(compare, t, elm);
      GrownNodes(t, elm, comp);
      hide Found;
      hide Ascending;
      hide AllDistinct;
      hide NodesOf;
      hide TotalOrder;
      hide Flat;
      hide Grown;
      PutAbove(root, elm, comp, t);
      root, tree := elm, Grown(t, elm, comp);
    }

    // name_SPLAY_REMOVE.  The node with the element's key goes; what is returned is the element,
    // and that is the node which went exactly if the element was itself in the tree.
    method Remove(elm: SplayNode<K>) returns (removed: SplayNode?<K>)
      requires Valid()
      modifies this`root, this`tree, NodesOf(tree)
      ensures Valid()
      ensures removed == null <==> forall n :: n in old(NodesOf(tree)) ==> n.key != elm.key
      ensures removed == null ==> Flat(tree) == old(Flat(tree)) && NodesOf(tree) == old(NodesOf(tree))
      ensures removed != null ==> removed == elm
      ensures removed != null ==>
        (NodesOf(tree) == old(NodesOf(tree)) - {removed} <==> elm in old(NodesOf(tree)))
      ensures removed != null ==> exists n :: n in old(NodesOf(tree)) && n.key == elm.key && NodesOf(tree) == old(NodesOf(tree)) - {n}
    {
      if root == null { return null; }
      Splay(elm);
      FoundSides(compare, tree, elm.key);
      if compare(elm.key, root.key) != 0 { return null; }
      ghost var gone := tree.node;
      assert gone in NodesOf(tree) && gone.key == elm.key;
      hide Found;
      hide Ascending;
      hide AllDistinct;
      hide NodesOf;
      hide TotalOrder;
      hide Flat;
      ghost var t;
      var top;
      top, t := TakeRoot(root, elm.key, compare, tree);
      root, tree := top, t;
      return elm;
    }

    // name_SPLAY_MIN_MAX: the first node for a negative sign, the last for a positive one.
    method MinMax(sign: int) returns (end: SplayNode<K>)
      requires Valid() && root != null && sign != 0
      modifies this`root, this`tree, NodesOf(tree)
      ensures Valid() && Flat(tree) == old(Flat(tree)) && NodesOf(tree) == old(NodesOf(tree))
      ensures Flat(tree) != [] && end == root == if sign < 0 then Flat(tree)[0] else Flat(tree)[|Flat(tree)| - 1]
    {
      SplayBy(_ => sign);
      NoNodes(tree.left);
      NoNodes(tree.right);
      assert if sign < 0 then NodesOf(tree.left) == {} else NodesOf(tree.right) == {};
      end := root;
    }

    // name_SPLAY_NEXT
    method Next(elm: SplayNode<K>) returns (next: SplayNode?<K>)
      requires Valid() && elm in NodesOf(tree)
      modifies this`root, this`tree, NodesOf(tree)
      ensures Valid() && Flat(tree) == old(Flat(tree)) && NodesOf(tree) == old(NodesOf(tree))
      ensures exists k :: 0 <= k < |Flat(tree)| && Flat(tree)[k] == elm && next == NodeAt(tree, k + 1)
    {
      Splay(elm);
      FoundSides(compare, tree, elm.key);
      assert elm == root && Spells(elm.right, tree.right);
      ghost var k, t := |Flat(tree.left)|, tree.right;
      assert Flat(tree)[k] == elm && forall i :: 0 <= i < |Flat(t)| ==> Flat(tree)[k + 1 + i] == Flat(t)[i];
      next := elm.right;
      if next != null {
        assert Flat(t)[0] == Flat(tree)[k + 1];
        while next.left != null
          invariant t.Bin? && Spells(next, t) && Flat(t) != [] && Flat(t)[0] == Flat(tree)[k + 1]
          decreases t
        {
          next, t := next.left, t.left;
        }
      }
    }
  }
}
