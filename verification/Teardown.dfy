// Deleting a context: nested loops that take whatever node is at a tree's root, free its data,
// and remove the key its data says.
module Teardown {
  import opened Wire
  import EndSpec
  import Lifecycle
  import SendQueue

  // A session with its two queues.  Whatever tree it is filed in, s.born tells which it is.
  datatype OwnedSess = OwnedSess(s: Lifecycle.Sess, send: map<u32, EndSpec.Message>, recv: map<u32, Payload>)

  // What can be freed.
  datatype Item =
    | Sent(born: u32, number: u32)
    | Received(born: u32, number: u32)
    | Session(born: u32)
    | Served(service: string)

  // ----- every node is filed under its data's own key

  predicate OwnSess(tree: map<u64, OwnedSess>) {
    forall k :: k in tree ==> tree[k].s.handle == k
  }

  predicate OwnQueues(tree: map<u64, OwnedSess>) {
    forall k :: k in tree ==> SendQueue.FilesOwn(tree[k].send)
  }

  // No session is filed twice.
  predicate FiledOnce(tree: map<u64, OwnedSess>) {
    forall j, k :: j in tree && k in tree && j != k ==> tree[j].s.born != tree[k].s.born
  }

  function Born(tree: map<u64, OwnedSess>): set<u32> {
    set k | k in tree :: tree[k].s.born
  }

  // One turn of a loop with k at the root.
  function TurnAt(tree: map<u64, OwnedSess>, k: u64): map<u64, OwnedSess>
    requires k in tree
  {
    tree - {tree[k].s.handle}
  }

  // A turn removes the node whose session it frees exactly if that is filed under its own
  // handle; and it removes nothing, so that the loop frees the same session again for ever,
  // exactly if its handle is no key of the tree.
  lemma TurnRemoves(tree: map<u64, OwnedSess>, k: u64)
    requires k in tree
    ensures TurnAt(tree, k) == tree - {k} <==> tree[k].s.handle == k
    ensures TurnAt(tree, k) == tree <==> tree[k].s.handle !in tree
  {
    if tree[k].s.handle != k {
      assert k in TurnAt(tree, k) && k !in tree - {k};
    }
    if tree[k].s.handle in tree {
      assert tree[k].s.handle !in TurnAt(tree, k);
    }
  }

  // ----- what there is to free

  ghost function SentItems(born: u32, tree: map<u32, EndSpec.Message>): set<Item> {
    set k | k in tree :: Sent(born, k)
  }

  ghost function ReceivedItems(born: u32, tree: map<u32, Payload>): set<Item> {
    set k | k in tree :: Received(born, k)
  }

  ghost function SessItems(s: OwnedSess): set<Item> {
    ReceivedItems(s.s.born, s.recv) + SentItems(s.s.born, s.send) + {Session(s.s.born)}
  }

  ghost function ConnectedItems(tree: map<u64, OwnedSess>): set<Item> {
    set h, x | h in tree && x in SessItems(tree[h]) :: x
  }

  ghost function ConnectingItems(tree: map<u64, OwnedSess>): set<Item> {
    set h | h in tree :: Session(tree[h].s.born)
  }

  ghost function RuleItems(service: string, sessions: map<u64, OwnedSess>, connecting: map<u64, OwnedSess>): set<Item> {
    ConnectedItems(sessions) + ConnectingItems(connecting) + {Served(service)}
  }

  // freed holds exactly these items, each of them once.
  ghost predicate Exactly(freed: seq<Item>, items: set<Item>) {
    && (forall x :: x in freed <==> x in items)
    && (forall i, j :: 0 <= i < j < |freed| ==> freed[i] != freed[j])
  }

  lemma ExactlyBoth(a: seq<Item>, x: set<Item>, b: seq<Item>, y: set<Item>)
    requires Exactly(a, x) && Exactly(b, y) && x !! y
    ensures Exactly(a + b, x + y)
  {
    var all := a + b;
    forall i, j | 0 <= i < j < |all| ensures all[i] != all[j] {
      if i < |a| <= j {
        assert all[i] in x && all[j] in y;
      }
    }
  }

  // done, mine and rest make up all there is; mine has just been freed.
  lemma AnotherShare(freed: seq<Item>, done: set<Item>, one: seq<Item>, mine: set<Item>, rest: set<Item>)
    requires Exactly(freed, done) && Exactly(one, mine) && done !! (mine + rest) && mine !! rest
    ensures Exactly(freed + one, done + mine) && (done + mine) !! rest
    ensures (done + mine) + rest == done + (mine + rest)
  {
    ExactlyBoth(freed, done, one, mine);
  }

  lemma ExactlyOneMore(a: seq<Item>, x: set<Item>, y: Item)
    requires Exactly(a, x) && y !in x
    ensures Exactly(a + [y], x + {y})
  {
    assert Exactly([y], {y});
    ExactlyBoth(a, x, [y], {y});
  }

  // Everything a session owns comes before the session itself, and so on upwards.
  ghost predicate LastIs(freed: seq<Item>, x: Item) {
    freed != [] && freed[|freed| - 1] == x
  }

  // rest is what remains of whole.
  ghost predicate Remains<K, V>(rest: map<K, V>, whole: map<K, V>) {
    forall k :: k in rest ==> k in whole && rest[k] == whole[k]
  }

  // ----- the loops over one session's messages

  // The queue of received messages is emptied by the keys of its nodes...
  method FreeReceived(born: u32, tree: map<u32, Payload>) returns (freed: seq<Item>)
    ensures Exactly(freed, ReceivedItems(born, tree))
  {
    freed := [];
    var rest := tree;
    while rest != map[]
      invariant Remains(rest, tree)
      invariant Exactly(freed, ReceivedItems(born, tree) - ReceivedItems(born, rest))
      decreases |rest|
    {
      var root :| root in rest.Keys;
      ghost var x := Received(born, root);
      ghost var done := ReceivedItems(born, tree) - ReceivedItems(born, rest);
      assert x in ReceivedItems(born, rest);
      ExactlyOneMore(freed, done, x);
      freed := freed + [Received(born, root)];
      rest := rest - {root};
      assert done + {x} == ReceivedItems(born, tree) - ReceivedItems(born, rest);
    }
  }

  // ...the others by what the data says.
  method FreeSent(born: u32, tree: map<u32, EndSpec.Message>) returns (freed: seq<Item>)
    requires SendQueue.FilesOwn(tree)
    ensures Exactly(freed, SentItems(born, tree))
  {
    freed := [];
    var rest := tree;
    while rest != map[]
      invariant Remains(rest, tree)
      invariant Exactly(freed, SentItems(born, tree) - SentItems(born, rest))
      decreases |rest|
    {
      var root :| root in rest.Keys;
      var m := rest[root];
      ghost var x := Sent(born, root);
      ghost var done := SentItems(born, tree) - SentItems(born, rest);
      assert x in SentItems(born, rest);
      ExactlyOneMore(freed, done, x);
      freed := freed + [Sent(born, m.number)];
      rest := rest - {m.number};
      assert done + {x} == SentItems(born, tree) - SentItems(born, rest);
    }
  }

  // t2u_delete_connected_session: both queues are emptied, then the session goes.
  method FreeSession(s: OwnedSess) returns (freed: seq<Item>)
    requires SendQueue.FilesOwn(s.send)
    ensures Exactly(freed, SessItems(s)) && LastIs(freed, Session(s.s.born))
  {
    var received := FreeReceived(s.s.born, s.recv);
    var sent := FreeSent(s.s.born, s.send);
    ghost var x, y := ReceivedItems(s.s.born, s.recv), SentItems(s.s.born, s.send);
    ExactlyBoth(received, x, sent, y);
    ExactlyOneMore(received + sent, x + y, Session(s.s.born));
    freed := received + sent + [Session(s.s.born)];
  }

  // ----- one rule

  lemma BornOf(s: OwnedSess, x: Item)
    requires x in SessItems(s)
    ensures !x.Served? && x.born == s.s.born
  {
  }

  lemma BornOfConnected(tree: map<u64, OwnedSess>, x: Item)
    requires x in ConnectedItems(tree)
    ensures !x.Served? && x.born in Born(tree)
  {
    var h :| h in tree && x in SessItems(tree[h]);
    BornOf(tree[h], x);
  }

  lemma SessItemsApart(tree: map<u64, OwnedSess>, h: u64)
    requires FiledOnce(tree) && h in tree
    ensures SessItems(tree[h]) !! ConnectedItems(tree - {h})
    ensures ConnectedItems(tree) == SessItems(tree[h]) + ConnectedItems(tree - {h})
  {
    forall x | x in SessItems(tree[h]) ensures x !in ConnectedItems(tree - {h}) {
      BornOf(tree[h], x);
      if x in ConnectedItems(tree - {h}) {
        var g :| g in tree - {h} && x in SessItems((tree - {h})[g]);
        BornOf(tree[g], x);
      }
    }
    forall x | x in ConnectedItems(tree) ensures x in SessItems(tree[h]) + ConnectedItems(tree - {h}) {
      var g :| g in tree && x in SessItems(tree[g]);
      if g != h { assert g in tree - {h} && (tree - {h})[g] == tree[g]; }
    }
    forall x | x in ConnectedItems(tree - {h}) ensures x in ConnectedItems(tree) {
      var g :| g in tree - {h} && x in SessItems((tree - {h})[g]);
      assert g in tree && (tree - {h})[g] == tree[g];
    }
    forall x | x in SessItems(tree[h]) ensures x in ConnectedItems(tree) {
    }
  }

  lemma ConnectingApart(tree: map<u64, OwnedSess>, h: u64)
    requires FiledOnce(tree) && h in tree
    ensures Session(tree[h].s.born) !in ConnectingItems(tree - {h})
    ensures ConnectingItems(tree) == {Session(tree[h].s.born)} + ConnectingItems(tree - {h})
  {
    forall x | x in ConnectingItems(tree) ensures x in {Session(tree[h].s.born)} + ConnectingItems(tree - {h}) {
      var g :| g in tree && x == Session(tree[g].s.born);
      if g != h { assert g in tree - {h} && (tree - {h})[g] == tree[g]; }
    }
  }

  lemma OneFewer<K, V>(tree: map<K, V>, k: K)
    requires k in tree
    ensures |tree - {k}| < |tree|
  {
    assert (tree - {k}).Keys == tree.Keys - {k} && |tree.Keys| == |tree| && |(tree - {k}).Keys| == |tree - {k}|;
  }

  class OwnedRule {
    var service: string
    var sessions: map<u64, OwnedSess>
    var connecting: map<u64, OwnedSess>

    // Every node is filed under its own key, and no session twice.
    predicate OwnKeys()
      reads this
    {
      && OwnSess(sessions) && OwnQueues(sessions) && FiledOnce(sessions) && OwnSess(connecting) && FiledOnce(connecting)
      && Born(sessions) !! Born(connecting)
    }

    function Filed(): set<u32>
      reads this
    {
      Born(sessions) + Born(connecting)
    }

    ghost function Items(): set<Item>
      reads this
    {
      RuleItems(service, sessions, connecting)
    }

    lemma LabelOf(x: Item)
      requires x in Items()
      ensures if x.Served? then x.service == service else x.born in Filed()
    {
      if x in ConnectedItems(sessions) {
        BornOfConnected(sessions, x);
      }
    }

    // One turn of the loop over the established sessions.
    method FreeRoot(root: u64) returns (freed: seq<Item>)
      requires OwnSess(sessions) && OwnQueues(sessions) && FiledOnce(sessions) && root in sessions
      modifies this`sessions
      ensures sessions == old(sessions) - {root} && OwnSess(sessions) && OwnQueues(sessions) && FiledOnce(sessions)
      ensures Exactly(freed, SessItems(old(sessions)[root]))
    {
      var s := sessions[root];
      freed := FreeSession(s);
      sessions := sessions - {s.s.handle};
    }

    method FreeConnected() returns (freed: seq<Item>)
      requires OwnSess(sessions) && OwnQueues(sessions) && FiledOnce(sessions)
      modifies this`sessions
      ensures sessions == map[]
      ensures Exactly(freed, ConnectedItems(old(sessions)))
    {
      freed := [];
      ghost var done: set<Item> := {};
      assert ConnectedItems(map[]) == {};
      while sessions != map[]
        invariant OwnSess(sessions) && OwnQueues(sessions) && FiledOnce(sessions) && Exactly(freed, done)
        invariant done + ConnectedItems(sessions) == ConnectedItems(old(sessions))
        invariant done !! ConnectedItems(sessions)
        decreases |sessions|
      {
        var root :| root in sessions.Keys;
        ghost var mine := SessItems(sessions[root]);
        SessItemsApart(sessions, root);
        OneFewer(sessions, root);
        var one := FreeRoot(root);
        AnotherShare(freed, done, one, mine, ConnectedItems(sessions));
        freed := freed + one;
        done := done + mine;
      }
    }

    // One turn of the loop over the connecting ones.
    method FreeWaiting(root: u64) returns (freed: seq<Item>)
      requires OwnSess(connecting) && FiledOnce(connecting) && root in connecting
      modifies this`connecting
      ensures connecting == old(connecting) - {root} && OwnSess(connecting) && FiledOnce(connecting)
      ensures Exactly(freed, {Session(old(connecting)[root].s.born)})
    {
      var s := connecting[root];
      freed := [Session(s.s.born)];
      connecting := connecting - {s.s.handle};
    }

    method FreeConnecting() returns (freed: seq<Item>)
      requires OwnSess(connecting) && FiledOnce(connecting)
      modifies this`connecting
      ensures connecting == map[]
      ensures Exactly(freed, ConnectingItems(old(connecting)))
    {
      freed := [];
      ghost var done: set<Item> := {};
      assert ConnectingItems(map[]) == {};
      while connecting != map[]
        invariant OwnSess(connecting) && FiledOnce(connecting) && Exactly(freed, done)
        invariant done + ConnectingItems(connecting) == ConnectingItems(old(connecting))
        invariant done !! ConnectingItems(connecting)
        decreases |connecting|
      {
        var root :| root in connecting.Keys;
        ghost var mine := {Session(connecting[root].s.born)};
        ConnectingApart(connecting, root);
        OneFewer(connecting, root);
        var one := FreeWaiting(root);
        AnotherShare(freed, done, one, mine, ConnectingItems(connecting));
        freed := freed + one;
        done := done + mine;
      }
    }

    // delete_rule_cb_, up to the removal from the context
    method Free() returns (freed: seq<Item>)
      requires OwnKeys()
      modifies this`sessions, this`connecting
      ensures sessions == map[] && connecting == map[]
      ensures Exactly(freed, old(Items())) && LastIs(freed, Served(service))
    {
      ghost var x, y := ConnectedItems(sessions), ConnectingItems(connecting);
      forall item | item in x ensures !item.Served? && item !in y {
        BornOfConnected(sessions, item);
      }
      var connected := FreeConnected();
      var waiting := FreeConnecting();
      ExactlyBoth(connected, x, waiting, y);
      ExactlyOneMore(connected + waiting, x + y, Served(service));
      freed := connected + waiting + [Served(service)];
    }
  }

  // ----- the context

  // The items of each rule, by service name, have nothing in common.
  ghost predicate Disjoint(items: map<string, set<Item>>) {
    forall n, m :: n in items && m in items && n != m ==> items[n] !! items[m]
  }

  ghost function Union(items: map<string, set<Item>>): set<Item> {
    set n, x | n in items && x in items[n] :: x
  }

  lemma UnionSplit(items: map<string, set<Item>>, name: string)
    requires Disjoint(items) && name in items
    ensures Union(items) == items[name] + Union(items - {name}) && items[name] !! Union(items - {name})
    ensures Disjoint(items - {name})
  {
    var rest := items - {name};
    forall x | x in Union(items) ensures x in items[name] + Union(rest) {
      var n :| n in items && x in items[n];
      if n != name { assert n in rest && rest[n] == items[n]; }
    }
    forall x | x in Union(rest) ensures x in Union(items) && x !in items[name] {
      var n :| n in rest && x in rest[n];
      assert n in items && rest[n] == items[n] && n != name;
    }
    forall x | x in items[name] ensures x in Union(items) {
    }
  }

  // Of all these items, freed holds what is not left, each of them once.
  ghost predicate Shared(freed: seq<Item>, left: map<string, set<Item>>, all: set<Item>) {
    Disjoint(left) && Union(left) <= all && Exactly(freed, all - Union(left))
  }

  lemma NothingYet(items: map<string, set<Item>>)
    requires Disjoint(items)
    ensures Shared([], items, Union(items))
  {
  }

  lemma OneMoreRule(freed: seq<Item>, left: map<string, set<Item>>, all: set<Item>, name: string, one: seq<Item>)
    requires Shared(freed, left, all) && name in left && Exactly(one, left[name])
    ensures Shared(freed + one, left - {name}, all)
  {
    UnionSplit(left, name);
    var done, rest := all - Union(left), Union(left - {name});
    AnotherShare(freed, done, one, left[name], rest);
    assert done + left[name] == all - rest;
  }

  lemma NothingLeft(freed: seq<Item>, left: map<string, set<Item>>, all: set<Item>)
    requires Shared(freed, left, all) && left == map[]
    ensures Exactly(freed, all)
  {
  }

  class OwnedContext {
    var rules: map<string, OwnedRule>
    ghost var Repr: set<OwnedRule>

    // Service names are distinct, and each rule is filed under its own.
    ghost predicate OwnKeys()
      reads this, Repr
    {
      forall n :: n in rules ==> rules[n] in Repr && rules[n].service == n && rules[n].OwnKeys()
    }

    // No session is filed in two rules.
    ghost predicate Apart()
      requires OwnKeys()
      reads this, Repr
    {
      forall n, m :: n in rules && m in rules && n != m ==> rules[n].Filed() !! rules[m].Filed()
    }

    ghost function Items(): map<string, set<Item>>
      requires OwnKeys()
      reads this, Repr
    {
      map n | n in rules :: rules[n].Items()
    }

    lemma ItemsAreDisjoint()
      requires OwnKeys() && Apart()
      ensures Disjoint(Items())
    {
      forall n, m, x | n in rules && m in rules && n != m && x in rules[n].Items() ensures x !in rules[m].Items() {
        rules[n].LabelOf(x);
        if x in rules[m].Items() { rules[m].LabelOf(x); }
      }
    }

    // Of the rules there were, those that are gone have been emptied.
    ghost predicate Emptied(whole: map<string, OwnedRule>)
      reads this, Repr
    {
      && Remains(rules, whole)
      && (forall n :: n in whole ==> whole[n] in Repr)
      && (forall n :: n in whole && n !in rules ==> whole[n].sessions == map[] && whole[n].connecting == map[])
    }

    // A rule of the context is freed; the others do not notice.
    method FreeRule(root: string, rule: OwnedRule, ghost items: map<string, set<Item>>) returns (freed: seq<Item>)
      requires OwnKeys() && root in rules && rule == rules[root] && items == Items()
      modifies rule`sessions, rule`connecting
      ensures rule.sessions == map[] && rule.connecting == map[] && Exactly(freed, items[root])
      ensures forall n :: n in rules && n != root ==> rules[n] in Repr && rules[n] != rule
      ensures forall n :: n in rules && n != root ==>
        rules[n].service == n && rules[n].OwnKeys() && rules[n].Items() == items[n]
    {
      hide Exactly;
      hide RuleItems;
      hide OwnSess;
      hide OwnQueues;
      hide FiledOnce;
      hide Born;
      freed := rule.Free();
      forall n | n in rules && n != root
        ensures rules[n].service == n && rules[n].OwnKeys() && rules[n].Items() == items[n]
      {
        assert rules[n] != rule;
      }
    }

    // One turn of delete_context_cb_: some rule is freed and removed under its own name.
    method FreeOne(root: string, ghost whole: map<string, OwnedRule>) returns (freed: seq<Item>)
      requires OwnKeys() && Emptied(whole) && root in rules
      modifies this`rules, Repr
      ensures OwnKeys() && Emptied(whole) && rules == old(rules) - {root}
      ensures Items() == old(Items()) - {root} && Exactly(freed, old(Items()[root]))
    {
      hide Exactly;
      hide RuleItems;
      hide OwnSess;
      hide OwnQueues;
      hide FiledOnce;
      hide Born;
      var rule := rules[root];
      ghost var items := Items();
      freed := FreeRule(root, rule, items);
      forall n | n in whole && (n !in rules || n == root)
        ensures whole[n].sessions == map[] && whole[n].connecting == map[]
      {
        assert whole[n] == rule || old(whole[n].sessions == map[] && whole[n].connecting == map[]);
      }
      hide OwnedRule.OwnKeys;
      hide OwnedRule.Items;
      rules := rules - {rule.service};
      assert OwnKeys();
      assert Items() == items - {root};
    }

    // delete_context_cb_
    method Free() returns (freed: seq<Item>)
      requires OwnKeys() && Apart()
      modifies this`rules, Repr
      ensures rules == map[]
      ensures forall n :: n in old(rules) ==> old(rules)[n].sessions == map[] && old(rules)[n].connecting == map[]
      ensures Exactly(freed, Union(old(Items())))
    {
      ItemsAreDisjoint();
      hide Shared;
      hide Exactly;
      hide Disjoint;
      hide Union;
      freed := [];
      ghost var whole, all := rules, Union(Items());
      NothingYet(Items());
      while rules != map[]
        invariant OwnKeys() && Emptied(whole) && Shared(freed, Items(), all)
        decreases |rules|
      {
        var root :| root in rules.Keys;
        ghost var left := Items();
        assert root in left;
        OneFewer(rules, root);
        hide OwnKeys;
        hide Emptied;
        hide Items;
        var one := FreeOne(root, whole);
        OneMoreRule(freed, left, all, root, one);
        freed := freed + one;
      }
      NothingLeft(freed, Items(), all);
    }
  }

  // ----- contexts as the callbacks leave them

  ghost predicate SameTree(owned: map<u64, OwnedSess>, tree: map<u64, Lifecycle.Sess>) {
    owned.Keys == tree.Keys && forall h :: h in owned ==> owned[h].s == tree[h]
  }

  // ctx holds the sessions of st, under these service names.
  ghost predicate Mirrors(ctx: OwnedContext, names: seq<string>, st: Lifecycle.State)
    reads ctx, ctx.rules.Values
  {
    && |names| == |st.rules|
    && (forall n :: n in ctx.rules <==> n in names)
    && (forall i, j :: 0 <= i < j < |names| ==> names[i] != names[j])
    && (forall i :: 0 <= i < |names| ==>
          && SameTree(ctx.rules[names[i]].sessions, st.rules[i].sessions)
          && SameTree(ctx.rules[names[i]].connecting, st.rules[i].connecting))
  }

  lemma TreeIsOwn(st: Lifecycle.State, i: nat, established: bool, owned: map<u64, OwnedSess>, index: map<u32, Lifecycle.Place>)
    requires Lifecycle.WellFiled(st) && Lifecycle.Indexed(st, index) && i < |st.rules|
    requires SameTree(owned, Lifecycle.Tree(st, i, established))
    ensures OwnSess(owned) && FiledOnce(owned)
    ensures forall h :: h in owned ==> owned[h].s.born in index && index[owned[h].s.born] == Lifecycle.Place(i, established, h)
  {
    assert Lifecycle.ConnectingOk(st, i) && Lifecycle.SessionsOk(st, i);
    forall h | h in owned ensures owned[h].s.born in index && index[owned[h].s.born] == Lifecycle.Place(i, established, h) {
      assert Lifecycle.Holds(st, Lifecycle.Place(i, established, h), owned[h].s.born);
    }
  }

  lemma QueuesAreOwn(tree: map<u64, OwnedSess>)
    requires forall h :: h in tree ==> SendQueue.Left(tree[h].send)
    ensures OwnQueues(tree)
  {
    forall h | h in tree ensures SendQueue.FilesOwn(tree[h].send) {
      SendQueue.LeftFilesOwn(tree[h].send);
    }
  }

  // In every run of the callbacks each live session is filed once (Lifecycle.OnePlaceEach), so
  // that every session, and every message its callbacks left with it, is freed exactly once.
  lemma RunsAreOwned(modes: seq<Lifecycle.Mode>, uretries: nat, events: seq<Lifecycle.Event>, st: Lifecycle.State,
                     ctx: OwnedContext, names: seq<string>)
    requires uretries >= 1 && Lifecycle.Run(Lifecycle.Start(modes, uretries), events, st)
    requires Mirrors(ctx, names, st)
    requires forall n :: n in ctx.rules ==> ctx.rules[n] in ctx.Repr && ctx.rules[n].service == n
    requires forall n, h :: n in ctx.rules && h in ctx.rules[n].sessions ==> SendQueue.Left(ctx.rules[n].sessions[h].send)
    ensures ctx.OwnKeys() && ctx.Apart()
  {
    Lifecycle.StartIsInv(modes, uretries);
    Lifecycle.RunKeepsInv(Lifecycle.Start(modes, uretries), events, st);
    var index: map<u32, Lifecycle.Place> :| Lifecycle.Indexed(st, index);
    hide Lifecycle.Run;
    hide Lifecycle.WellFiled;
    hide Lifecycle.Indexed;
    hide OwnSess;
    hide OwnQueues;
    hide FiledOnce;
    forall i | 0 <= i < |names|
      ensures ctx.rules[names[i]].OwnKeys()
      ensures forall b :: b in ctx.rules[names[i]].Filed() ==> b in index && index[b].rule == i
    {
      RuleIsOwn(st, i, ctx.rules[names[i]], index);
    }
    hide OwnedRule.OwnKeys;
    hide OwnedRule.Filed;
    forall n, m | n in ctx.rules && m in ctx.rules && n != m ensures ctx.rules[n].Filed() !! ctx.rules[m].Filed() {
      var i :| 0 <= i < |names| && names[i] == n;
      var j :| 0 <= j < |names| && names[j] == m;
    }
  }

  lemma RuleIsOwn(st: Lifecycle.State, i: nat, r: OwnedRule, index: map<u32, Lifecycle.Place>)
    requires Lifecycle.WellFiled(st) && Lifecycle.Indexed(st, index) && i < |st.rules|
    requires SameTree(r.sessions, st.rules[i].sessions) && SameTree(r.connecting, st.rules[i].connecting)
    requires forall h :: h in r.sessions ==> SendQueue.Left(r.sessions[h].send)
    ensures r.OwnKeys() && forall b :: b in r.Filed() ==> b in index && index[b].rule == i
  {
    TreeIsOwn(st, i, true, r.sessions, index);
    TreeIsOwn(st, i, false, r.connecting, index);
    QueuesAreOwn(r.sessions);
    hide Lifecycle.WellFiled;
    hide Lifecycle.Indexed;
    hide SendQueue.Left;
  }
}
