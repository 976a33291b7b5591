// Keys in order, the finite map a shape stands for, and how deep a shape can be.
module RbOrder {
  import opened RbShape

  // ----- comparison procedures

  predicate Less<K>(compare: (K, K) -> int, a: K, b: K) {
    compare(a, b) < 0
  }

  // What rbtree.compare must be: the sign of a total order, zero only on equal keys.
  ghost predicate TotalOrder<K(!new)>(compare: (K, K) -> int) {
    && (forall a, b :: compare(a, b) == 0 <==> a == b)
    && (forall a, b {:trigger Less(compare, a, b)} :: Less(compare, a, b) <==> compare(b, a) > 0)
    && (forall a, b, c {:trigger Less(compare, a, b), Less(compare, b, c)} ::
          Less(compare, a, b) && Less(compare, b, c) ==> Less(compare, a, c))
  }

  // Keys and data alone: deleting a node with two children moves them between nodes.
  function Items<K, D>(s: seq<Entry<K, D>>): seq<(K, D)> {
    seq(|s|, i requires 0 <= i < |s| => (s[i].key, s[i].data))
  }

  lemma ItemsConcat<K, D>(a: seq<Entry<K, D>>, b: seq<Entry<K, D>>)
    ensures Items(a + b) == Items(a) + Items(b)
  {
  }

  function Item<K, D>(e: Entry<K, D>): (K, D) {
    (e.key, e.data)
  }

  lemma ItemsAround<K, D>(a: seq<Entry<K, D>>, e: Entry<K, D>, b: seq<Entry<K, D>>)
    ensures Items(a + [e] + b) == Items(a) + [Item(e)] + Items(b)
  {
  }

  // What comes before and after the root entry of t, in the tree with t at the end of p.
  function LeftOf<K, D>(p: Path<K, D>, t: Shape<K, D>): seq<Entry<K, D>>
    requires t.Fork?
  {
    Before(p) + InOrder(t.left)
  }

  function RightOf<K, D>(p: Path<K, D>, t: Shape<K, D>): seq<Entry<K, D>>
    requires t.Fork?
  {
    InOrder(t.right) + After(p)
  }

  lemma OneRow<A>(b: seq<A>, l: seq<A>, x: A, r: seq<A>, a: seq<A>)
    ensures b + (l + [x] + r) + a == (b + l) + [x] + (r + a)
  {
  }

  lemma SplitAtRoot<K, D>(p: Path<K, D>, t: Shape<K, D>)
    requires t.Fork?
    ensures InOrder(Plug(p, t)) == LeftOf(p, t) + [t.entry] + RightOf(p, t)
    ensures Items(InOrder(Plug(p, t))) == Items(LeftOf(p, t)) + [Item(t.entry)] + Items(RightOf(p, t))
  {
    InOrderPlug(p, t);
    assert InOrder(t) == InOrder(t.left) + [t.entry] + InOrder(t.right);
    hide Plug;
    hide InOrder;
    hide Items;
    OneRow(Before(p), InOrder(t.left), t.entry, InOrder(t.right), After(p));
    ItemsAround(LeftOf(p, t), t.entry, RightOf(p, t));
  }

  ghost predicate Sorted<K, D>(compare: (K, K) -> int, s: seq<(K, D)>) {
    forall i, j :: 0 <= i < j < |s| ==> compare(s[i].0, s[j].0) < 0
  }

  ghost predicate AllBelow<K, D>(compare: (K, K) -> int, s: seq<(K, D)>, key: K) {
    forall i :: 0 <= i < |s| ==> compare(s[i].0, key) < 0
  }

  ghost predicate AllAbove<K, D>(compare: (K, K) -> int, s: seq<(K, D)>, key: K) {
    forall i :: 0 <= i < |s| ==> compare(key, s[i].0) < 0
  }

  lemma BelowMore<K(!new), D>(compare: (K, K) -> int, s: seq<(K, D)>, low: K, high: K)
    requires TotalOrder(compare) && AllBelow(compare, s, low) && compare(low, high) < 0
    ensures AllBelow(compare, s, high)
  {
    forall i | 0 <= i < |s| ensures compare(s[i].0, high) < 0 {
      assert Less(compare, s[i].0, low) && Less(compare, low, high);
    }
  }

  lemma AboveMore<K(!new), D>(compare: (K, K) -> int, s: seq<(K, D)>, low: K, high: K)
    requires TotalOrder(compare) && AllAbove(compare, s, high) && compare(high, low) > 0
    ensures AllAbove(compare, s, low) && compare(low, high) < 0
  {
    assert Less(compare, low, high);
    forall i | 0 <= i < |s| ensures compare(low, s[i].0) < 0 {
      assert Less(compare, high, s[i].0);
    }
  }

  lemma AllBelowSnoc<K, D>(compare: (K, K) -> int, s: seq<Entry<K, D>>, e: Entry<K, D>, key: K)
    requires AllBelow(compare, Items(s), key) && compare(e.key, key) < 0
    ensures AllBelow(compare, Items(s + [e]), key)
  {
    assert Items(s + [e]) == Items(s) + [Item(e)];
  }

  lemma AllAboveCons<K, D>(compare: (K, K) -> int, e: Entry<K, D>, s: seq<Entry<K, D>>, key: K)
    requires AllAbove(compare, Items(s), key) && compare(key, e.key) < 0
    ensures AllAbove(compare, Items([e] + s), key)
  {
    assert Items([e] + s) == [Item(e)] + Items(s);
  }

  // key lies between everything before the hole of p and everything after it.
  ghost predicate Between<K, D>(compare: (K, K) -> int, p: Path<K, D>, key: K) {
    AllBelow(compare, Items(Before(p)), key) && AllAbove(compare, Items(After(p)), key)
  }

  lemma DescendLeft<K(!new), D>(compare: (K, K) -> int, p: Path<K, D>, t: Shape<K, D>, key: K)
    requires TotalOrder(compare) && t.Fork? && Sorted(compare, Items(InOrder(Plug(p, t))))
    requires Between(compare, p, key) && compare(t.entry.key, key) > 0
    ensures Between(compare, Step(L, t.color, t.entry, t.right, p), key)
  {
    AroundLeft(p, t);
    hide TotalOrder;
    hide Plug;
    hide InOrder;
    hide Items;
    hide Before;
    hide After;
    hide LeftOf;
    hide RightOf;
    SplitAtRoot(p, t);
    SortedDropsOne(compare, Items(LeftOf(p, t)), Item(t.entry), Items(RightOf(p, t)));
    hide Sorted;
    hide AllBelow;
    AboveMore(compare, Items(RightOf(p, t)), key, t.entry.key);
    hide AllAbove;
    AllAboveCons(compare, t.entry, RightOf(p, t), key);
  }

  // What is before and after the left child, and the right one.
  lemma AroundLeft<K, D>(p: Path<K, D>, t: Shape<K, D>)
    requires t.Fork?
    ensures var q := Step(L, t.color, t.entry, t.right, p); Before(q) == Before(p) && After(q) == [t.entry] + RightOf(p, t)
  {
  }

  lemma AroundRight<K, D>(p: Path<K, D>, t: Shape<K, D>)
    requires t.Fork?
    ensures var q := Step(R, t.color, t.entry, t.left, p); After(q) == After(p) && Before(q) == LeftOf(p, t) + [t.entry]
  {
    assert Before(p) + (InOrder(t.left) + [t.entry]) == (Before(p) + InOrder(t.left)) + [t.entry];
  }

  lemma DescendRight<K(!new), D>(compare: (K, K) -> int, p: Path<K, D>, t: Shape<K, D>, key: K)
    requires TotalOrder(compare) && t.Fork? && Sorted(compare, Items(InOrder(Plug(p, t))))
    requires Between(compare, p, key) && compare(t.entry.key, key) < 0
    ensures Between(compare, Step(R, t.color, t.entry, t.left, p), key)
  {
    AroundRight(p, t);
    hide TotalOrder;
    hide Plug;
    hide InOrder;
    hide Items;
    hide Before;
    hide After;
    hide LeftOf;
    hide RightOf;
    SplitAtRoot(p, t);
    SortedDropsOne(compare, Items(LeftOf(p, t)), Item(t.entry), Items(RightOf(p, t)));
    hide Sorted;
    hide AllAbove;
    BelowMore(compare, Items(LeftOf(p, t)), t.entry.key, key);
    hide AllBelow;
    AllBelowSnoc(compare, LeftOf(p, t), t.entry, key);
  }

  lemma SortedDropsOne<K, D>(compare: (K, K) -> int, a: seq<(K, D)>, x: (K, D), b: seq<(K, D)>)
    requires Sorted(compare, a + [x] + b)
    ensures Sorted(compare, a + b) && AllBelow(compare, a, x.0) && AllAbove(compare, b, x.0)
  {
    var s, r := a + [x] + b, a + b;
    assert s[|a|] == x;
    forall i, j | 0 <= i < j < |r| ensures compare(r[i].0, r[j].0) < 0 {
      assert r[i] == s[if i < |a| then i else i + 1] && r[j] == s[if j < |a| then j else j + 1];
    }
    forall i | 0 <= i < |a| ensures compare(a[i].0, x.0) < 0 {
      assert a[i] == s[i];
    }
    forall i | 0 <= i < |b| ensures compare(x.0, b[i].0) < 0 {
      assert b[i] == s[|a| + 1 + i];
    }
  }

  lemma SortedAddsOne<K, D>(compare: (K, K) -> int, a: seq<(K, D)>, x: (K, D), b: seq<(K, D)>)
    requires Sorted(compare, a + b) && AllBelow(compare, a, x.0) && AllAbove(compare, b, x.0)
    ensures Sorted(compare, a + [x] + b)
  {
    var s, r := a + [x] + b, a + b;
    forall i, j | 0 <= i < j < |s| ensures compare(s[i].0, s[j].0) < 0 {
      if i == |a| {
        assert s[j] == b[j - |a| - 1];
      } else if j == |a| {
        assert s[i] == a[i];
      } else {
        assert s[i] == r[if i < |a| then i else i - 1] && s[j] == r[if j < |a| then j else j - 1];
      }
    }
  }

  // ----- the map

  ghost function MapOf<K, D>(s: seq<(K, D)>): map<K, D> {
    if s == [] then map[] else MapOf(s[..|s| - 1])[s[|s| - 1].0 := s[|s| - 1].1]
  }

  lemma {:induction false} MapOfConcat<K, D>(a: seq<(K, D)>, b: seq<(K, D)>)
    ensures MapOf(a + b) == MapOf(a) + MapOf(b)
  {
    if b == [] {
      assert a + b == a;
    } else {
      MapOfConcat(a, b[..|b| - 1]);
      assert (a + b)[..|a + b| - 1] == a + b[..|b| - 1];
    }
  }

  lemma {:induction false} MapOfKeys<K, D>(s: seq<(K, D)>, key: K)
    ensures key in MapOf(s) <==> exists i :: 0 <= i < |s| && s[i].0 == key
  {
    if s != [] {
      var r := s[..|s| - 1];
      MapOfKeys(r, key);
      if key in MapOf(s) {
        if s[|s| - 1].0 != key {
          var i :| 0 <= i < |r| && r[i].0 == key;
          assert s[i].0 == key;
        }
      }
      if i :| 0 <= i < |s| && s[i].0 == key {
        assert i < |r| ==> r[i].0 == key;
      }
    }
  }

  lemma KeyAbsent<K(!new), D>(compare: (K, K) -> int, a: seq<(K, D)>, key: K, b: seq<(K, D)>)
    requires TotalOrder(compare) && AllBelow(compare, a, key) && AllAbove(compare, b, key)
    ensures key !in MapOf(a) && key !in MapOf(b) && key !in MapOf(a + b)
  {
    MapOfKeys(a, key);
    MapOfKeys(b, key);
    MapOfConcat(a, b);
  }

  // Entry x stands between the keys below it and the keys above it.
  lemma MapOfAround<K(!new), D>(compare: (K, K) -> int, a: seq<(K, D)>, x: (K, D), b: seq<(K, D)>)
    requires TotalOrder(compare) && AllBelow(compare, a, x.0) && AllAbove(compare, b, x.0)
    ensures x.0 !in MapOf(a + b)
    ensures MapOf(a + [x] + b) == MapOf(a + b)[x.0 := x.1]
  {
    KeyAbsent(compare, a, x.0, b);
    MapOfConcat(a, b);
    MapOfConcat(a, [x]);
    MapOfConcat(a + [x], b);
    assert MapOf([x]) == map[x.0 := x.1] by { assert [x][..0] == []; }
    AddInTheMiddle(MapOf(a), x.0, x.1, MapOf(b));
  }

  lemma AddInTheMiddle<K, D>(m: map<K, D>, k: K, d: D, n: map<K, D>)
    requires k !in n
    ensures m + map[k := d] + n == (m + n)[k := d]
  {
  }

  function NewLeaf<K, D>(node: RbNode<K, D>, key: K, data: D): Shape<K, D> {
    Fork(Red, Entry(node, key, data), Leaf, Leaf)
  }

  // Insertion as a whole: the search for key ended at an empty subtree, a red leaf is linked
  // there, and the tree is settled.
  lemma Inserted<K(!new), D>(compare: (K, K) -> int, p: Path<K, D>, node: RbNode<K, D>, key: K, data: D)
    requires TotalOrder(compare) && Between(compare, p, key)
    requires RedBlack(Plug(p, Leaf)) && Sorted(compare, Items(InOrder(Plug(p, Leaf))))
    ensures Unsettled(p, NewLeaf(node, key, data))
    ensures var r := Settle(p, NewLeaf(node, key, data));
      && RedBlack(r) && Sorted(compare, Items(InOrder(r)))
      && MapOf(Items(InOrder(r))) == MapOf(Items(InOrder(Plug(p, Leaf))))[key := data]
    ensures key !in MapOf(Items(InOrder(Plug(p, Leaf))))
  {
    PlugIsRedBlack(p, Leaf);
    InOrderPlug(p, Leaf);
    var t := NewLeaf(node, key, data);
    assert InOrder(t) == [t.entry];
    assert InOrder(Plug(p, Leaf)) == Before(p) + After(p);
    ItemsConcat(Before(p), After(p));
    ItemsAround(Before(p), t.entry, After(p));
    SortedAddsOne(compare, Items(Before(p)), Item(t.entry), Items(After(p)));
    MapOfAround(compare, Items(Before(p)), Item(t.entry), Items(After(p)));
  }

  // ----- the leftmost entry of a subtree

  function MinPath<K, D>(p: Path<K, D>, t: Shape<K, D>): Path<K, D>
    requires t.Fork?
    decreases t
  {
    if t.left.Leaf? then p else MinPath(Step(L, t.color, t.entry, t.right, p), t.left)
  }

  function MinTree<K, D>(t: Shape<K, D>): (m: Shape<K, D>)
    requires t.Fork?
    ensures m.Fork? && m.left.Leaf?
  {
    if t.left.Leaf? then t else MinTree(t.left)
  }

  lemma {:induction false} MinPathFacts<K, D>(p: Path<K, D>, t: Shape<K, D>)
    requires t.Fork?
    ensures Before(MinPath(p, t)) == Before(p)
    ensures Plug(MinPath(p, t), MinTree(t)) == Plug(p, t)
    ensures PathNodes(MinPath(p, t)) + Nodes(MinTree(t)) == PathNodes(p) + Nodes(t)
    decreases t
  {
    if t.left.Fork? {
      MinPathFacts(Step(L, t.color, t.entry, t.right, p), t.left);
    }
  }

  // ----- removal as a whole

  function OnlyChild<K, D>(t: Shape<K, D>): Shape<K, D>
    requires t.Fork?
  {
    if t.right.Leaf? then t.left else t.right
  }

  ghost predicate Spliceable<K, D>(p: Path<K, D>, t: Shape<K, D>) {
    t.Fork? && (t.left.Leaf? || t.right.Leaf?) && RedBlack(Plug(p, t))
  }

  lemma SpliceFacts<K, D>(p: Path<K, D>, t: Shape<K, D>)
    requires Spliceable(p, t)
    ensures var c := OnlyChild(t); Balanced(c) && NoRedRed(c) && BlackHeight(c) == 0
    ensures t.color == Black ==> OneShort(p, 0)
    ensures t.color == Red ==> OnlyChild(t).Leaf? && PathBalanced(p, 0) && PathColors(p, Black) && p.Step?
  {
    PlugIsRedBlack(p, t);
    if t.color == Red { BlackFitsAnywhere(p, Red); }
  }

  // A child that becomes the root is painted black.
  function Crowned<K, D>(p: Path<K, D>, c: Shape<K, D>): Shape<K, D> {
    if p.Top? then Paint(c, Black) else Plug(p, c)
  }

  // The path above the doomed node once the repair has run, if it has to run.
  ghost function SplicePath<K, D>(p: Path<K, D>, t: Shape<K, D>): (q: Path<K, D>)
    requires Spliceable(p, t)
    ensures RedBlack(Crowned(q, OnlyChild(t))) && SameEntries(p, q)
  {
    SpliceFacts(p, t);
    var q := if t.color == Black then Case1(p, 0) else p;
    PlugIsRedBlack(q, OnlyChild(t));
    q
  }

  // The tree after a node with at most one child is taken out of it.
  ghost function Spliced<K, D>(p: Path<K, D>, t: Shape<K, D>): (r: Shape<K, D>)
    requires Spliceable(p, t)
    ensures RedBlack(r)
    ensures InOrder(r) == Before(p) + InOrder(OnlyChild(t)) + After(p)
  {
    var q := SplicePath(p, t);
    InOrderPlug(q, OnlyChild(t));
    Crowned(q, OnlyChild(t))
  }

  // The node with two children takes over its successor's key and data; the successor goes.
  function TakesOver<K, D>(e: Entry<K, D>, from: Entry<K, D>): Entry<K, D> {
    Entry(e.node, from.key, from.data)
  }

  predicate TwoChildren<K, D>(t: Shape<K, D>) {
    t.Fork? && t.left.Fork? && t.right.Fork?
  }

  function VictimPath<K, D>(p: Path<K, D>, t: Shape<K, D>): Path<K, D>
    requires t.Fork?
  {
    if TwoChildren(t) then
      MinPath(Step(R, t.color, TakesOver(t.entry, MinTree(t.right).entry), t.left, p), t.right)
    else p
  }

  function Victim<K, D>(t: Shape<K, D>): Shape<K, D>
    requires t.Fork?
  {
    if TwoChildren(t) then MinTree(t.right) else t
  }

  lemma {:induction false} MinTreeInTree<K, D>(t: Shape<K, D>)
    requires t.Fork?
    ensures MinTree(t).entry.node in Nodes(t)
  {
    if t.left.Fork? { MinTreeInTree(t.left); }
  }

  lemma VictimInTree<K, D>(t: Shape<K, D>)
    requires t.Fork?
    ensures Victim(t).entry.node in Nodes(t)
  {
    if TwoChildren(t) { MinTreeInTree(t.right); }
  }

  lemma VictimIsSpliceable<K, D>(p: Path<K, D>, t: Shape<K, D>)
    requires t.Fork? && RedBlack(Plug(p, t))
    ensures Spliceable(VictimPath(p, t), Victim(t))
  {
    if TwoChildren(t) {
      var t' := t.(entry := TakesOver(t.entry, MinTree(t.right).entry));
      PlugIsRedBlack(p, t);
      PlugIsRedBlack(p, t');
      MinPathFacts(Step(R, t'.color, t'.entry, t'.left, p), t'.right);
    }
  }

  // Below a node with two children: its successor heads what follows it.
  lemma SuccessorHeadsRight<K, D>(p: Path<K, D>, t: Shape<K, D>)
    requires TwoChildren(t)
    ensures var q, m := VictimPath(p, t), Victim(t);
      && Before(q) == LeftOf(p, t) + [TakesOver(t.entry, m.entry)]
      && RightOf(p, t) == [m.entry] + (InOrder(m.right) + After(q))
  {
    var q, m := VictimPath(p, t), Victim(t);
    var down := Step(R, t.color, TakesOver(t.entry, m.entry), t.left, p);
    MinPathFacts(down, t.right);
    InOrderPlug(q, m);
    InOrderPlug(down, t.right);
    SameTail(Before(q), InOrder(m), After(q), InOrder(t.right), After(p));
    assert Before(down) == LeftOf(p, t) + [down.entry];
    assert InOrder(m) == [m.entry] + InOrder(m.right);
  }

  lemma TakeOverItems<K, D>(a: seq<Entry<K, D>>, e: Entry<K, D>, f: Entry<K, D>, b: seq<Entry<K, D>>)
    requires Item(e) == Item(f)
    ensures Items((a + [e]) + b) == Items(a) + Items([f] + b)
  {
    assert Items([f] + b) == [Item(f)] + Items(b);
    ItemsConcat(a + [e], b);
    ItemsConcat(a, [e]);
    assert Items([e]) == [Item(f)];
  }

  lemma VictimItems<K, D>(p: Path<K, D>, t: Shape<K, D>)
    requires t.Fork? && Spliceable(VictimPath(p, t), Victim(t))
    ensures Items(InOrder(Spliced(VictimPath(p, t), Victim(t)))) == Items(LeftOf(p, t)) + Items(RightOf(p, t))
  {
    var q, m := VictimPath(p, t), Victim(t);
    var r := Spliced(q, m);
    if TwoChildren(t) {
      SuccessorHeadsRight(p, t);
      var e := TakesOver(t.entry, m.entry);
      assert InOrder(r) == (LeftOf(p, t) + [e]) + InOrder(m.right) + After(q);
      assert InOrder(r) == (LeftOf(p, t) + [e]) + (InOrder(m.right) + After(q));
      TakeOverItems(LeftOf(p, t), e, m.entry, InOrder(m.right) + After(q));
    } else {
      assert InOrder(r) == LeftOf(p, t) + RightOf(p, t);
      ItemsConcat(LeftOf(p, t), RightOf(p, t));
    }
  }

  lemma SameTail<A>(a: seq<A>, b: seq<A>, c: seq<A>, d: seq<A>, e: seq<A>)
    requires a + b + c == a + d + e
    ensures b + c == d + e
  {
    assert b + c == (a + b + c)[|a|..];
    assert d + e == (a + d + e)[|a|..];
  }

  // Removal as a whole.
  lemma Removed<K(!new), D>(compare: (K, K) -> int, p: Path<K, D>, t: Shape<K, D>)
    requires TotalOrder(compare) && t.Fork?
    requires RedBlack(Plug(p, t)) && Sorted(compare, Items(InOrder(Plug(p, t))))
    ensures Spliceable(VictimPath(p, t), Victim(t))
    ensures var r := Spliced(VictimPath(p, t), Victim(t));
      && RedBlack(r) && Sorted(compare, Items(InOrder(r)))
      && MapOf(Items(InOrder(r))) == MapOf(Items(InOrder(Plug(p, t)))) - {t.entry.key}
  {
    VictimIsSpliceable(p, t);
    VictimItems(p, t);
    SplitAtRoot(p, t);
    DropMiddle(compare, Items(LeftOf(p, t)), Item(t.entry), Items(RightOf(p, t)));
  }

  lemma DropMiddle<K(!new), D>(compare: (K, K) -> int, a: seq<(K, D)>, x: (K, D), b: seq<(K, D)>)
    requires TotalOrder(compare) && Sorted(compare, a + [x] + b)
    ensures Sorted(compare, a + b)
    ensures x.0 in MapOf(a + [x] + b) && MapOf(a + b) == MapOf(a + [x] + b) - {x.0}
  {
    SortedDropsOne(compare, a, x, b);
    MapOfAround(compare, a, x, b);
  }

  // ----- height

  function Height<K, D>(t: Shape<K, D>): nat {
    if t.Leaf? then 0 else 1 + (if Height(t.left) < Height(t.right) then Height(t.right) else Height(t.left))
  }

  function Pow2(n: nat): nat {
    if n == 0 then 1 else 2 * Pow2(n - 1)
  }

  lemma {:induction false} Pow2Adds(a: nat, b: nat)
    ensures Pow2(a + b) == Pow2(a) * Pow2(b)
  {
    if a != 0 {
      Pow2Adds(a - 1, b);
      assert Pow2(a) == 2 * Pow2(a - 1) && Pow2(a + b) == 2 * Pow2(a - 1 + b);
      hide Pow2;
      Doubling(Pow2(a - 1), Pow2(b));
    }
  }

  lemma Doubling(x: nat, y: nat)
    ensures (2 * x) * y == 2 * (x * y)
  {
  }

  lemma {:induction false} Pow2Grows(a: nat, b: nat)
    requires a <= b
    ensures Pow2(a) <= Pow2(b)
  {
    if a < b { Pow2Grows(a, b - 1); }
  }

  lemma {:induction false} HeightFromBlackHeight<K, D>(t: Shape<K, D>)
    requires Balanced(t) && NoRedRed(t)
    ensures Height(t) <= 2 * BlackHeight(t) + (if ColorOf(t) == Red then 1 else 0)
    ensures Pow2(BlackHeight(t)) <= |InOrder(t)| + 1
  {
    if t.Fork? {
      HeightFromBlackHeight(t.left);
      HeightFromBlackHeight(t.right);
    }
  }

  // height <= 2 log2 (n + 1), without logarithms
  lemma HeightBound<K, D>(t: Shape<K, D>)
    requires RedBlack(t)
    ensures Pow2(Height(t)) <= (|InOrder(t)| + 1) * (|InOrder(t)| + 1)
  {
    HeightFromBlackHeight(t);
    var b, n := BlackHeight(t), |InOrder(t)| + 1;
    Pow2Grows(Height(t), b + b);
    Pow2Adds(b, b);
    assert Pow2(b) * Pow2(b) <= n * n by { Squares(Pow2(b), n); }
  }

  lemma {:induction false} MapOfSize<K(!new), D>(compare: (K, K) -> int, s: seq<(K, D)>)
    requires TotalOrder(compare) && Sorted(compare, s)
    ensures |MapOf(s)| == |s|
  {
    if s != [] {
      var r, x := s[..|s| - 1], s[|s| - 1];
      assert s == r + [x] + [];
      SortedDropsOne(compare, r, x, []);
      assert r + [] == r;
      MapOfSize(compare, r);
      KeyAbsent(compare, r, x.0, []);
    }
  }

  // A walk from the root no longer than the height takes at most 2 log2 (n + 1) steps on n keys.
  lemma StepsBound<K(!new), D>(compare: (K, K) -> int, t: Shape<K, D>, steps: nat)
    requires TotalOrder(compare) && RedBlack(t) && Sorted(compare, Items(InOrder(t)))
    requires steps <= Height(t)
    ensures var n := |MapOf(Items(InOrder(t)))|; Pow2(steps) <= (n + 1) * (n + 1)
  {
    MapOfSize(compare, Items(InOrder(t)));
    HeightBound(t);
    Pow2Grows(steps, Height(t));
  }

  lemma Squares(a: nat, b: nat)
    requires a <= b
    ensures a * a <= b * b
  {
  }
}
