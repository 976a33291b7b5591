// The sessions of one context: how they are named, bound and moved between the two trees of
// their rule.
module Lifecycle {
  import opened Wire

  datatype Mode = Client | Server

  // born is the value of the handle counter the session was created with.
  datatype Sess = Sess(born: u32, handle: u64, status: int, retries: nat, requests: nat)

  datatype Rule = Rule(mode: Mode, sessions: map<u64, Sess>, connecting: map<u64, Sess>)

  // rules in the order of their service names; live are the sessions not yet freed.
  datatype State = State(rules: seq<Rule>, handleSeq: u32, uretries: nat, live: set<u32>)

  function Low(handle: u64): u64 {
    handle % MOD32
  }

  function High(handle: u64): u64 {
    handle / MOD32
  }

  // ----- the callbacks

  function NextSeq(n: u32): u32 {
    if n + 1 == MOD32 then 1 else n + 1
  }

  function WithRule(st: State, i: nat, r: Rule): State
    requires i < |st.rules|
  {
    st.(rules := st.rules[i := r])
  }

  // rbtree_insert: a key already there keeps its entry.
  function Insert(tree: map<u64, Sess>, s: Sess): map<u64, Sess> {
    if s.handle in tree then tree else tree[s.handle := s]
  }

  function HandleFor(handle: u64, count: u32): u64 {
    if handle == 0 then count else (handle + count * MOD32) % MOD64
  }

  // t2u_add_connecting_session; refused is a local connect() that fails at once.
  function AddConnecting(st: State, i: nat, handle: u64, refused: bool): State
    requires i < |st.rules|
  {
    var r := st.rules[i];
    var count := NextSeq(st.handleSeq);
    var s := Sess(count, HandleFor(handle, count), 1, 0, if r.mode == Client then 1 else 0);
    var st1 := WithRule(st, i, r.(connecting := Insert(r.connecting, s))).(handleSeq := count, live := st.live + {count});
    if r.mode == Server && refused then DeleteConnecting(st1, i, s) else st1
  }

  // t2u_delete_connecting_session
  function DeleteConnecting(st: State, i: nat, s: Sess): State
    requires i < |st.rules|
  {
    var r := st.rules[i];
    WithRule(st, i, r.(connecting := r.connecting - {s.handle})).(live := st.live - {s.born})
  }

  // t2u_delete_connected_session, as far as the rule is concerned
  function DeleteConnected(st: State, i: nat, s: Sess): State
    requires i < |st.rules|
  {
    var r := st.rules[i];
    WithRule(st, i, r.(sessions := r.sessions - {s.handle})).(live := st.live - {s.born})
  }

  // t2u_rule_handle_connect_request; noSocket is a socket() that fails
  function ConnectRequest(st: State, i: nat, handle: u64, noSocket: bool, refused: bool): State
    requires i < |st.rules|
  {
    var st1 := if handle in st.rules[i].sessions then DeleteConnected(st, i, st.rules[i].sessions[handle]) else st;
    var st2 := if handle in st1.rules[i].connecting then DeleteConnecting(st1, i, st1.rules[i].connecting[handle]) else st1;
    if noSocket then st2 else AddConnecting(st2, i, handle, refused)
  }

  // The move of an established session from one tree to the other, under a handle.
  function Establish(st: State, i: nat, s: Sess, handle: u64): State
    requires i < |st.rules|
  {
    var r := st.rules[i];
    WithRule(st, i, r.(connecting := r.connecting - {s.handle},
                       sessions := Insert(r.sessions, s.(handle := handle, status := 2))))
  }

  // A rule's tree of established sessions, or of connecting ones.
  function TreeOf(r: Rule, established: bool): map<u64, Sess> {
    if established then r.sessions else r.connecting
  }

  // find_session_in_context: the first rule that has the handle.
  function FindSession(rules: seq<Rule>, handle: u64, established: bool): (i: nat)
    ensures i <= |rules|
    ensures i < |rules| ==> handle in TreeOf(rules[i], established)
    ensures forall j :: 0 <= j < i ==> handle !in TreeOf(rules[j], established)
  {
    if rules == [] || handle in TreeOf(rules[0], established) then 0 else 1 + FindSession(rules[1..], handle, established)
  }

  // A close request from the peer.
  function CloseRequest(st: State, handle: u64): State {
    var i := FindSession(st.rules, handle, true);
    if i == |st.rules| then st else DeleteConnected(st, i, st.rules[i].sessions[handle])
  }

  // A connect response: found by the lower half of its handle, bound under the whole.
  function ConnectResponse(st: State, handle: u64, error: bool): State {
    var i := FindSession(st.rules, Low(handle), false);
    if i == |st.rules| then st else
    var s := st.rules[i].connecting[Low(handle)];
    if error then DeleteConnecting(st, i, s) else Establish(st, i, s, handle)
  }

  // session_connect_success_cb_, for a session still connecting
  function ConnectDone(st: State, i: nat, handle: u64, error: bool): State
    requires i < |st.rules| && handle in st.rules[i].connecting
  {
    var s := st.rules[i].connecting[handle];
    if error then DeleteConnecting(st, i, s) else Establish(st, i, s, s.handle)
  }

  // session_connect_timeout_cb_
  function ConnectTimeout(st: State, i: nat, handle: u64): State
    requires i < |st.rules| && handle in st.rules[i].connecting
  {
    var r := st.rules[i];
    var s := r.connecting[handle];
    if s.retries + 1 >= st.uretries then DeleteConnecting(st, i, s) else
    var again := if r.mode == Client then s.requests + 1 else s.requests;
    WithRule(st, i, r.(connecting := r.connecting[handle := s.(retries := s.retries + 1, requests := again)]))
  }

  // ----- steps

  datatype Event =
    | Accepts(rule: nat)
    | Requested(rule: nat, handle: u64, noSocket: bool, refused: bool)
    | Responded(handle: u64, error: bool)
    | Done(rule: nat, handle: u64, error: bool)
    | TimedOut(rule: nat, handle: u64)
    | Closing(rule: nat, handle: u64)
    | Ended(rule: nat, handle: u64)
    | ClosedByPeer(handle: u64)
    | Elsewhere // another context takes a counter value

  // What can happen, with peers that ask only for services served here, under handles that
  // are counter values; and the counter short of its wrap.
  predicate Can(st: State, e: Event) {
    match e
    case Accepts(i) => i < |st.rules| && st.rules[i].mode == Client && st.handleSeq + 1 < MOD32
    case Requested(i, h, _, _) =>
      i < |st.rules| && st.rules[i].mode == Server && 1 <= h < MOD32 && st.handleSeq + 1 < MOD32
    case Responded(_, _) => true
    case Done(i, h, _) => i < |st.rules| && st.rules[i].mode == Server && h in st.rules[i].connecting
    case TimedOut(i, h) => i < |st.rules| && h in st.rules[i].connecting
    case Closing(i, h) => i < |st.rules| && h in st.rules[i].sessions
    case Ended(i, h) => i < |st.rules| && h in st.rules[i].sessions
    case ClosedByPeer(_) => true
    case Elsewhere => st.handleSeq + 1 < MOD32
  }

  function Step(st: State, e: Event): State
    requires Can(st, e)
  {
    match e
    case Accepts(i) => AddConnecting(st, i, 0, false)
    case Requested(i, h, noSocket, refused) => ConnectRequest(st, i, h, noSocket, refused)
    case Responded(h, error) => ConnectResponse(st, h, error)
    case Done(i, h, error) => ConnectDone(st, i, h, error)
    case TimedOut(i, h) => ConnectTimeout(st, i, h)
    case Closing(i, h) =>
      var r := st.rules[i];
      WithRule(st, i, r.(sessions := r.sessions[h := r.sessions[h].(status := 3)]))
    case Ended(i, h) => DeleteConnected(st, i, st.rules[i].sessions[h])
    case ClosedByPeer(h) => CloseRequest(st, h)
    case Elsewhere => st.(handleSeq := NextSeq(st.handleSeq))
  }

  predicate Run(st: State, events: seq<Event>, last: State)
    decreases |events|
  {
    if events == [] then last == st
    else Can(st, events[0]) && Run(Step(st, events[0]), events[1..], last)
  }

  function Start(modes: seq<Mode>, uretries: nat): State {
    State(seq(|modes|, i requires 0 <= i < |modes| => Rule(modes[i], map[], map[])), 0, uretries, {})
  }

  // ----- the invariant

  // A session in a tree of rule i: it is filed under its own handle, and the half of the
  // handle that was chosen here is its counter value.
  predicate Filed(st: State, i: nat, h: u64, s: Sess)
    requires i < |st.rules|
  {
    && s.handle == h && 1 <= s.born <= st.handleSeq && s.born in st.live
    && (if st.rules[i].mode == Client then Low(h) == s.born else High(h) == s.born && Low(h) != 0)
  }

  predicate ConnectingOk(st: State, i: nat)
    requires i < |st.rules|
  {
    forall h :: h in st.rules[i].connecting ==>
      var s := st.rules[i].connecting[h];
      && Filed(st, i, h, s) && s.status == 1 && s.retries < st.uretries
      && (st.rules[i].mode == Client ==> High(h) == 0 && s.requests == s.retries + 1)
  }

  predicate SessionsOk(st: State, i: nat)
    requires i < |st.rules|
  {
    forall h :: h in st.rules[i].sessions ==>
      var s := st.rules[i].sessions[h];
      Filed(st, i, h, s) && (s.status == 2 || s.status == 3) && (st.rules[i].mode == Client ==> s.requests <= st.uretries)
  }

  // Where a session may be filed: which rule, which of its trees, under which handle.
  datatype Place = Place(rule: nat, established: bool, handle: u64)

  function Tree(st: State, i: nat, established: bool): map<u64, Sess>
    requires i < |st.rules|
  {
    TreeOf(st.rules[i], established)
  }

  predicate Holds(st: State, p: Place, born: u32) {
    && p.rule < |st.rules|
    && p.handle in Tree(st, p.rule, p.established)
    && Tree(st, p.rule, p.established)[p.handle].born == born
  }

  // Every live session is filed in exactly one place, and nothing else is filed.
  ghost predicate Indexed(st: State, index: map<u32, Place>) {
    && index.Keys == st.live
    && (forall b, p :: Holds(st, p, b) <==> b in index && index[b] == p)
  }

  ghost predicate WellFiled(st: State) {
    && st.uretries >= 1
    && (forall b :: b in st.live ==> 1 <= b <= st.handleSeq)
    && (forall i :: 0 <= i < |st.rules| ==> ConnectingOk(st, i) && SessionsOk(st, i))
  }

  ghost predicate Inv(st: State) {
    WellFiled(st) && exists index :: Indexed(st, index)
  }

  // ----- filing, unfiling and moving

  // st' differs from st at most in one tree.
  ghost predicate OnlyTree(st: State, st': State, i: nat, established: bool) {
    && |st'.rules| == |st.rules| && i < |st.rules|
    && (forall j, c :: 0 <= j < |st.rules| && (j != i || c != established) ==> Tree(st', j, c) == Tree(st, j, c))
  }

  lemma Unfiled(st: State, st': State, i: nat, established: bool, h: u64, index: map<u32, Place>)
    requires Indexed(st, index) && OnlyTree(st, st', i, established) && h in Tree(st, i, established)
    requires Tree(st', i, established) == Tree(st, i, established) - {h}
    requires st'.live == st.live - {Tree(st, i, established)[h].born}
    ensures Indexed(st', index - {Tree(st, i, established)[h].born})
  {
    var born := Tree(st, i, established)[h].born;
    assert Holds(st, Place(i, established, h), born);
    forall b, p ensures Holds(st', p, b) <==> b in index - {born} && (index - {born})[b] == p {
      if p.rule < |st.rules| && (p.rule != i || p.established != established) {
        assert Tree(st', p.rule, p.established) == Tree(st, p.rule, p.established);
      }
      assert Holds(st', p, b) <==> Holds(st, p, b) && p != Place(i, established, h);
    }
  }

  lemma NewlyFiled(st: State, st': State, i: nat, established: bool, s: Sess, index: map<u32, Place>)
    requires Indexed(st, index) && OnlyTree(st, st', i, established) && s.handle !in Tree(st, i, established)
    requires s.born !in st.live && st'.live == st.live + {s.born}
    requires Tree(st', i, established) == Tree(st, i, established)[s.handle := s]
    ensures Indexed(st', index[s.born := Place(i, established, s.handle)])
  {
    var place := Place(i, established, s.handle);
    forall b, p ensures Holds(st', p, b) <==> b in index[s.born := place] && index[s.born := place][b] == p {
      if p.rule < |st.rules| && (p.rule != i || p.established != established) {
        assert Tree(st', p.rule, p.established) == Tree(st, p.rule, p.established);
      }
      assert Holds(st', p, b) <==> Holds(st, p, b) || (p == place && b == s.born);
    }
  }

  lemma Refiled(st: State, st': State, i: nat, established: bool, s: Sess, index: map<u32, Place>)
    requires Indexed(st, index) && OnlyTree(st, st', i, established) && s.handle in Tree(st, i, established)
    requires s.born == Tree(st, i, established)[s.handle].born && st'.live == st.live
    requires Tree(st', i, established) == Tree(st, i, established)[s.handle := s]
    ensures Indexed(st', index)
  {
    forall b, p ensures Holds(st', p, b) <==> b in index && index[b] == p {
      if p.rule < |st.rules| && (p.rule != i || p.established != established) {
        assert Tree(st', p.rule, p.established) == Tree(st, p.rule, p.established);
      }
      assert Holds(st', p, b) <==> Holds(st, p, b);
    }
  }

  // ----- each callback keeps the invariant

  // Before the counter wraps a new session's handle is not in the tree it is filed in.
  lemma NewHandle(st: State, i: nat, handle: u64)
    requires WellFiled(st) && i < |st.rules| && st.handleSeq + 1 < MOD32
    requires if st.rules[i].mode == Client then handle == 0 else 1 <= handle < MOD32
    ensures var count := NextSeq(st.handleSeq); var h := HandleFor(handle, count);
      && count == st.handleSeq + 1 && count !in st.live && h !in st.rules[i].connecting
      && (if st.rules[i].mode == Client then h == count && High(h) == 0 && Low(h) == count
          else High(h) == count && Low(h) == handle)
  {
    var count := NextSeq(st.handleSeq);
    assert ConnectingOk(st, i);
    if st.rules[i].mode == Server {
      HalvesOf(handle + count * MOD32, handle, count);
      assert handle + count * MOD32 < MOD64;
      assert HandleFor(handle, count) == handle + count * MOD32;
    } else {
      HalvesOf(count, count, 0);
    }
  }

  lemma RuleStaysOk(st: State, st': State, j: nat)
    requires j < |st.rules| == |st'.rules| && st'.rules[j] == st.rules[j] && st'.uretries == st.uretries
    requires st.handleSeq <= st'.handleSeq && ConnectingOk(st, j) && SessionsOk(st, j)
    requires forall b, c, h :: Holds(st, Place(j, c, h), b) ==> b in st'.live
    ensures ConnectingOk(st', j) && SessionsOk(st', j)
  {
    forall h | h in st'.rules[j].connecting ensures st.rules[j].connecting[h].born in st'.live {
      assert Holds(st, Place(j, false, h), st.rules[j].connecting[h].born);
    }
    forall h | h in st'.rules[j].sessions ensures st.rules[j].sessions[h].born in st'.live {
      assert Holds(st, Place(j, true, h), st.rules[j].sessions[h].born);
    }
    hide Low;
    hide High;
  }

  lemma AddKeepsInv(st: State, i: nat, handle: u64)
    requires Inv(st) && i < |st.rules| && st.handleSeq + 1 < MOD32
    requires if st.rules[i].mode == Client then handle == 0 else 1 <= handle < MOD32
    ensures Inv(AddConnecting(st, i, handle, false))
  {
    NewHandle(st, i, handle);
    var st' := AddConnecting(st, i, handle, false);
    var count := NextSeq(st.handleSeq);
    var s := st'.rules[i].connecting[HandleFor(handle, count)];
    var index :| Indexed(st, index);
    NewlyFiled(st, st', i, false, s, index);
    hide Low;
    hide High;
    hide HandleFor;
    hide NextSeq;
    forall j | 0 <= j < |st'.rules| ensures ConnectingOk(st', j) && SessionsOk(st', j) {
      assert ConnectingOk(st, j) && SessionsOk(st, j);
      if j != i {
        RuleStaysOk(st, st', j);
      }
    }
  }

  lemma UnfileKeepsInv(st: State, i: nat, established: bool, h: u64)
    requires Inv(st) && i < |st.rules| && h in Tree(st, i, established)
    ensures var s := Tree(st, i, established)[h];
      s.handle == h && Inv(if established then DeleteConnected(st, i, s) else DeleteConnecting(st, i, s))
  {
    assert ConnectingOk(st, i) && SessionsOk(st, i);
    var s := Tree(st, i, established)[h];
    var st' := if established then DeleteConnected(st, i, s) else DeleteConnecting(st, i, s);
    var index :| Indexed(st, index);
    assert Holds(st, Place(i, established, h), s.born);
    Unfiled(st, st', i, established, h, index);
    forall j | 0 <= j < |st'.rules| ensures ConnectingOk(st', j) && SessionsOk(st', j) {
      assert ConnectingOk(st, j) && SessionsOk(st, j);
      StillFiled(st, st', j, index - {s.born});
    }
  }

  // Rule j has lost entries at most.
  lemma StillFiled(st: State, st': State, j: nat, index': map<u32, Place>)
    requires j < |st.rules| == |st'.rules| && ConnectingOk(st, j) && SessionsOk(st, j)
    requires st'.handleSeq == st.handleSeq && st'.uretries == st.uretries && st'.rules[j].mode == st.rules[j].mode
    requires st'.rules[j].connecting.Items <= st.rules[j].connecting.Items
    requires st'.rules[j].sessions.Items <= st.rules[j].sessions.Items
    requires Indexed(st', index')
    ensures ConnectingOk(st', j) && SessionsOk(st', j)
  {
    hide Low;
    hide High;
    forall h | h in st'.rules[j].connecting
      ensures h in st.rules[j].connecting && st'.rules[j].connecting[h] == st.rules[j].connecting[h]
      ensures st'.rules[j].connecting[h].born in st'.live
    {
      assert (h, st'.rules[j].connecting[h]) in st'.rules[j].connecting.Items;
      assert Holds(st', Place(j, false, h), st'.rules[j].connecting[h].born);
    }
    forall h | h in st'.rules[j].sessions
      ensures h in st.rules[j].sessions && st'.rules[j].sessions[h] == st.rules[j].sessions[h]
      ensures st'.rules[j].sessions[h].born in st'.live
    {
      assert (h, st'.rules[j].sessions[h]) in st'.rules[j].sessions.Items;
      assert Holds(st', Place(j, true, h), st'.rules[j].sessions[h].born);
    }
  }

  // The move into the tree of established sessions never collides.
  lemma NoCollision(st: State, i: nat, h: u64, handle: u64)
    requires Inv(st) && i < |st.rules| && h in st.rules[i].connecting
    requires if st.rules[i].mode == Client then Low(handle) == h else handle == h
    ensures handle !in st.rules[i].sessions
  {
    assert ConnectingOk(st, i) && SessionsOk(st, i);
    var born := st.rules[i].connecting[h].born;
    var index :| Indexed(st, index);
    assert Holds(st, Place(i, false, h), born);
    if handle in st.rules[i].sessions {
      LowOfSmall(h);
      assert st.rules[i].sessions[handle].born == born;
      assert Holds(st, Place(i, true, handle), born);
    }
  }

  lemma LowOfSmall(h: u64)
    ensures High(h) == 0 <==> h < MOD32
    ensures h < MOD32 ==> Low(h) == h
  {
  }

  lemma EstablishKeepsInv(st: State, i: nat, h: u64, handle: u64)
    requires Inv(st) && i < |st.rules| && h in st.rules[i].connecting
    requires if st.rules[i].mode == Client then Low(handle) == h else handle == h
    ensures Inv(Establish(st, i, st.rules[i].connecting[h], handle))
  {
    NoCollision(st, i, h, handle);
    LowOfSmall(h);
    assert ConnectingOk(st, i) && SessionsOk(st, i);
    var s := st.rules[i].connecting[h];
    var mid := DeleteConnecting(st, i, s);
    UnfileKeepsInv(st, i, false, h);
    var st' := Establish(st, i, s, handle);
    var moved := s.(handle := handle, status := 2);
    var index :| Indexed(mid, index);
    NewlyFiled(mid, st', i, true, moved, index);
    EstablishedOk(st, mid, st', i, h, handle);
  }

  lemma EstablishedOk(st: State, mid: State, st': State, i: nat, h: u64, handle: u64)
    requires WellFiled(st) && i < |st.rules| && h in st.rules[i].connecting && h == st.rules[i].connecting[h].handle
    requires if st.rules[i].mode == Client then Low(handle) == h && Low(h) == h else handle == h
    requires mid == DeleteConnecting(st, i, st.rules[i].connecting[h]) && WellFiled(mid)
    requires st' == Establish(st, i, st.rules[i].connecting[h], handle) && handle !in st.rules[i].sessions
    ensures WellFiled(st')
  {
    hide High;
    hide Low;
    var s := st.rules[i].connecting[h];
    assert ConnectingOk(st, i);
    assert st'.live == mid.live + {s.born};
    forall j | 0 <= j < |st'.rules| ensures ConnectingOk(st', j) && SessionsOk(st', j) {
      assert ConnectingOk(mid, j) && SessionsOk(mid, j);
    }
  }

  lemma TimeoutKeepsInv(st: State, i: nat, h: u64)
    requires Inv(st) && i < |st.rules| && h in st.rules[i].connecting
    ensures Inv(ConnectTimeout(st, i, h))
  {
    assert ConnectingOk(st, i) && SessionsOk(st, i);
    var s := st.rules[i].connecting[h];
    if s.retries + 1 >= st.uretries {
      UnfileKeepsInv(st, i, false, h);
    } else {
      var st' := ConnectTimeout(st, i, h);
      var index :| Indexed(st, index);
      Refiled(st, st', i, false, st'.rules[i].connecting[h], index);
      hide Low;
      hide High;
      forall j | 0 <= j < |st'.rules| ensures ConnectingOk(st', j) && SessionsOk(st', j) {
        assert ConnectingOk(st, j) && SessionsOk(st, j);
      }
    }
  }

  lemma ClosingKeepsInv(st: State, i: nat, h: u64)
    requires Inv(st) && Can(st, Closing(i, h))
    ensures Inv(Step(st, Closing(i, h)))
  {
    assert ConnectingOk(st, i) && SessionsOk(st, i);
    var st' := Step(st, Closing(i, h));
    var index :| Indexed(st, index);
    Refiled(st, st', i, true, st'.rules[i].sessions[h], index);
    hide Low;
    hide High;
    forall j | 0 <= j < |st'.rules| ensures ConnectingOk(st', j) && SessionsOk(st', j) {
      assert ConnectingOk(st, j) && SessionsOk(st, j);
    }
  }

  // A request's handle is never filed by a server rule: its handles have an upper half.
  lemma RequestReplacesNothing(st: State, i: nat, h: u64)
    requires WellFiled(st) && i < |st.rules| && st.rules[i].mode == Server && h < MOD32
    ensures h !in st.rules[i].sessions && h !in st.rules[i].connecting
  {
    assert ConnectingOk(st, i) && SessionsOk(st, i);
    LowOfSmall(h);
  }

  lemma RequestKeepsInv(st: State, e: Event)
    requires Inv(st) && Can(st, e) && e.Requested?
    ensures Inv(Step(st, e))
  {
    var Requested(i, h, noSocket, refused) := e;
    RequestReplacesNothing(st, i, h);
    if !noSocket {
      AddKeepsInv(st, i, h);
      NewHandle(st, i, h);
      if refused {
        var st1 := AddConnecting(st, i, h, false);
        UnfileKeepsInv(st1, i, false, HandleFor(h, NextSeq(st.handleSeq)));
      }
    }
  }

  // A response binds a session of a client rule, or nothing.
  lemma ResponseFindsClient(st: State, handle: u64)
    requires Inv(st)
    ensures var i := FindSession(st.rules, Low(handle), false);
      i < |st.rules| ==> st.rules[i].mode == Client && Low(Low(handle)) == Low(handle)
  {
    var i := FindSession(st.rules, Low(handle), false);
    LowOfSmall(Low(handle));
    if i < |st.rules| { assert ConnectingOk(st, i); }
  }

  // A good response moves one session, changes only the upper half of its handle, and
  // overwrites nothing.
  lemma ResponseBinds(st: State, handle: u64)
    requires Inv(st) && FindSession(st.rules, Low(handle), false) < |st.rules|
    ensures var i := FindSession(st.rules, Low(handle), false); var h := Low(handle); var r := st.rules[i];
      && r.mode == Client && r.connecting[h].handle == h && handle !in r.sessions
      && ConnectResponse(st, handle, false) ==
           st.(rules := st.rules[i := r.(connecting := r.connecting - {h},
                                         sessions := r.sessions[handle := r.connecting[h].(handle := handle, status := 2)])])
  {
    var i := FindSession(st.rules, Low(handle), false);
    ResponseFindsClient(st, handle);
    assert ConnectingOk(st, i);
    NoCollision(st, i, Low(handle), handle);
  }

  lemma ElsewhereKeepsInv(st: State)
    requires Inv(st) && st.handleSeq + 1 < MOD32
    ensures Inv(Step(st, Elsewhere))
  {
    var st' := Step(st, Elsewhere);
    var index :| Indexed(st, index);
    forall b, p ensures Holds(st', p, b) <==> b in index && index[b] == p {
      assert Holds(st', p, b) <==> Holds(st, p, b);
    }
    assert Indexed(st', index);
    forall j | 0 <= j < |st'.rules| ensures ConnectingOk(st', j) && SessionsOk(st', j) {
      assert ConnectingOk(st, j) && SessionsOk(st, j);
      RuleStaysOk(st, st', j);
    }
  }

  lemma StepKeepsInv(st: State, e: Event)
    requires Inv(st) && Can(st, e)
    ensures Inv(Step(st, e))
  {
    match e
    case Accepts(i) => AddKeepsInv(st, i, 0);
    case Requested(_, _, _, _) => RequestKeepsInv(st, e);
    case Responded(handle, error) =>
      var i := FindSession(st.rules, Low(handle), false);
      ResponseFindsClient(st, handle);
      if i < |st.rules| {
        if error {
          UnfileKeepsInv(st, i, false, Low(handle));
        } else {
          EstablishKeepsInv(st, i, Low(handle), handle);
        }
      }
    case Done(i, h, error) =>
      assert ConnectingOk(st, i);
      if error {
        UnfileKeepsInv(st, i, false, h);
      } else {
        EstablishKeepsInv(st, i, h, h);
      }
    case TimedOut(i, h) => TimeoutKeepsInv(st, i, h);
    case Closing(i, h) => ClosingKeepsInv(st, i, h);
    case Ended(i, h) => UnfileKeepsInv(st, i, true, h);
    case ClosedByPeer(h) =>
      var i := FindSession(st.rules, h, true);
      if i < |st.rules| { UnfileKeepsInv(st, i, true, h); }
    case Elsewhere => ElsewhereKeepsInv(st);
  }

  lemma {:induction false} RunKeepsInv(st: State, events: seq<Event>, last: State)
    requires Inv(st) && Run(st, events, last)
    ensures Inv(last)
    decreases |events|
  {
    hide Inv;
    if events != [] {
      StepKeepsInv(st, events[0]);
      RunKeepsInv(Step(st, events[0]), events[1..], last);
    }
  }

  lemma StartIsInv(modes: seq<Mode>, uretries: nat)
    requires uretries >= 1
    ensures Inv(Start(modes, uretries))
  {
    var index: map<u32, Place> := map[];
    assert Indexed(Start(modes, uretries), index);
  }

  // In every run before the counter wraps, each live session is filed in exactly one tree of
  // exactly one rule, the one that matches its status, under its own handle.
  lemma OnePlaceEach(modes: seq<Mode>, uretries: nat, events: seq<Event>, st: State)
    requires uretries >= 1 && Run(Start(modes, uretries), events, st)
    ensures forall b :: b in st.live ==> exists p :: Holds(st, p, b)
    ensures forall b, p :: Holds(st, p, b) ==>
      && b in st.live && (forall q :: Holds(st, q, b) ==> q == p)
      && var s := Tree(st, p.rule, p.established)[p.handle];
         s.handle == p.handle && (p.established <==> s.status != 1)
  {
    StartIsInv(modes, uretries);
    RunKeepsInv(Start(modes, uretries), events, st);
    var index :| Indexed(st, index);
    hide Low;
    hide High;
    forall b | b in st.live ensures exists p :: Holds(st, p, b) {
      assert Holds(st, index[b], b);
    }
    forall b, p | Holds(st, p, b)
      ensures var s := Tree(st, p.rule, p.established)[p.handle];
        s.handle == p.handle && (p.established <==> s.status != 1)
    {
      assert ConnectingOk(st, p.rule) && SessionsOk(st, p.rule);
    }
  }

  // A client session is asked for at most uretries times, and bound at most once.
  lemma RequestsAreBounded(modes: seq<Mode>, uretries: nat, events: seq<Event>, st: State, p: Place, b: u32)
    requires uretries >= 1 && Run(Start(modes, uretries), events, st) && Holds(st, p, b)
    requires st.rules[p.rule].mode == Client
    ensures Tree(st, p.rule, p.established)[p.handle].requests <= st.uretries
  {
    StartIsInv(modes, uretries);
    RunKeepsInv(Start(modes, uretries), events, st);
    assert ConnectingOk(st, p.rule) && SessionsOk(st, p.rule);
  }

  lemma BoundOnce(modes: seq<Mode>, uretries: nat, events: seq<Event>, st: State, p: Place, handle: u64, error: bool)
    requires uretries >= 1 && Run(Start(modes, uretries), events, st)
    requires p.established && p.rule < |st.rules| && st.rules[p.rule].mode == Client && Holds(st, p, Low(handle))
    ensures ConnectResponse(st, handle, error) == st
  {
    StartIsInv(modes, uretries);
    RunKeepsInv(Start(modes, uretries), events, st);
    var index :| Indexed(st, index);
    LowOfSmall(Low(handle));
    forall j | 0 <= j < |st.rules| ensures Low(handle) !in st.rules[j].connecting {
      assert ConnectingOk(st, j);
      assert !Holds(st, Place(j, false, Low(handle)), Low(handle));
    }
  }
}
