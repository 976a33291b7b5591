// What each event does to a context, and not only what it keeps: which session goes, which
// comes, which moves; and that nothing else does.
module LifecycleEffects {
  import opened Wire
  import opened Lifecycle

  // ----- one rule at a time

  // Only rule i has changed, to r, and these sessions live.
  predicate Became(st: State, st': State, i: nat, r: Rule, live: set<u32>) {
    i < |st.rules| && st' == State(st.rules[i := r], st.handleSeq, st.uretries, live)
  }

  // The rule that a datagram for a handle reaches: the first that has it.
  predicate IsFirst(st: State, i: nat, handle: u64, established: bool) {
    && i < |st.rules|
    && handle in (if established then st.rules[i].sessions else st.rules[i].connecting)
    && forall j :: 0 <= j < i ==> handle !in (if established then st.rules[j].sessions else st.rules[j].connecting)
  }

  predicate Nowhere(st: State, handle: u64, established: bool) {
    forall j :: 0 <= j < |st.rules| ==> handle !in (if established then st.rules[j].sessions else st.rules[j].connecting)
  }

  lemma FindsFirst(st: State, i: nat, handle: u64, established: bool)
    requires IsFirst(st, i, handle, established)
    ensures FindSession(st.rules, handle, established) == i
  {
    var k := FindSession(st.rules, handle, established);
    assert k > i ==> handle !in TreeOf(st.rules[i], established);
  }

  lemma FindsNone(st: State, handle: u64, established: bool)
    requires Nowhere(st, handle, established)
    ensures FindSession(st.rules, handle, established) == |st.rules|
  {
    if FindSession(st.rules, handle, established) < |st.rules| { assert false; }
  }

  // ----- a close from the peer, or the end of a session here

  // The first rule with the handle loses that session and no other; the session is freed.
  lemma CloseEffect(st: State, i: nat, handle: u64)
    requires Inv(st) && IsFirst(st, i, handle, true)
    ensures var r := st.rules[i];
      Became(st, Step(st, ClosedByPeer(handle)), i, r.(sessions := r.sessions - {handle}), st.live - {r.sessions[handle].born})
  {
    FindsFirst(st, i, handle, true);
    assert SessionsOk(st, i);
  }

  lemma CloseOfNone(st: State, handle: u64)
    requires Nowhere(st, handle, true)
    ensures Step(st, ClosedByPeer(handle)) == st
  {
    FindsNone(st, handle, true);
  }

  lemma EndEffect(st: State, i: nat, handle: u64)
    requires Inv(st) && Can(st, Ended(i, handle))
    ensures var r := st.rules[i];
      Became(st, Step(st, Ended(i, handle)), i, r.(sessions := r.sessions - {handle}), st.live - {r.sessions[handle].born})
  {
    assert SessionsOk(st, i);
  }

  // ----- the end of a connect

  // At a server: success moves the session, under the same handle, and failure frees it.
  lemma DoneEffect(st: State, i: nat, h: u64)
    requires Inv(st) && Can(st, Done(i, h, false))
    ensures var r := st.rules[i]; var s := r.connecting[h];
      && h !in r.sessions
      && Became(st, Step(st, Done(i, h, false)), i,
                r.(connecting := r.connecting - {h}, sessions := r.sessions[h := s.(status := 2)]), st.live)
      && Became(st, Step(st, Done(i, h, true)), i, r.(connecting := r.connecting - {h}), st.live - {s.born})
  {
    assert ConnectingOk(st, i);
    NoCollision(st, i, h, h);
  }

  // At a client: a good response moves the session under the whole handle, a bad one frees it,
  // and one for nobody does nothing.
  lemma ResponseEffect(st: State, i: nat, handle: u64)
    requires Inv(st) && IsFirst(st, i, Low(handle), false)
    ensures var h, r := Low(handle), st.rules[i]; var s := r.connecting[h];
      && r.mode == Client && handle !in r.sessions
      && Became(st, Step(st, Responded(handle, false)), i,
                r.(connecting := r.connecting - {h}, sessions := r.sessions[handle := s.(handle := handle, status := 2)]), st.live)
      && Became(st, Step(st, Responded(handle, true)), i, r.(connecting := r.connecting - {h}), st.live - {s.born})
  {
    FindsFirst(st, i, Low(handle), false);
    ResponseBinds(st, handle);
    assert ConnectingOk(st, i);
    hide Low;
    hide High;
  }

  lemma ResponseToNone(st: State, handle: u64, error: bool)
    requires Nowhere(st, Low(handle), false)
    ensures Step(st, Responded(handle, error)) == st
  {
    FindsNone(st, Low(handle), false);
  }

  // A connect timer frees its session exactly at the last try; before that it counts the try,
  // and a client asks again.
  lemma TimeoutEffect(st: State, i: nat, h: u64)
    requires Inv(st) && Can(st, TimedOut(i, h))
    ensures var r := st.rules[i]; var s := r.connecting[h]; var st' := Step(st, TimedOut(i, h));
      && (s.retries + 1 == st.uretries ==> Became(st, st', i, r.(connecting := r.connecting - {h}), st.live - {s.born}))
      && (s.retries + 1 < st.uretries ==>
            Became(st, st', i,
                   r.(connecting := r.connecting[h := Sess(s.born, h, 1, s.retries + 1, if r.mode == Client then s.requests + 1 else s.requests)]),
                   st.live))
  {
    assert ConnectingOk(st, i);
    hide Low;
    hide High;
  }

  // A session that begins to close only changes its status.
  lemma ClosingEffect(st: State, i: nat, h: u64)
    requires Can(st, Closing(i, h))
    ensures var r := st.rules[i];
      Became(st, Step(st, Closing(i, h)), i, r.(sessions := r.sessions[h := r.sessions[h].(status := 3)]), st.live)
  {
  }

  // ----- new sessions

  // An accepted connection is a new connecting session under the next counter value, asked
  // for once.
  lemma AcceptEffect(st: State, i: nat)
    requires Inv(st) && Can(st, Accepts(i))
    ensures var count, r := st.handleSeq + 1, st.rules[i];
      && count !in st.live && count !in r.connecting
      && Step(st, Accepts(i)) ==
           State(st.rules[i := r.(connecting := r.connecting[count := Sess(count, count, 1, 0, 1)])],
                 count, st.uretries, st.live + {count})
  {
    NewHandle(st, i, 0);
    hide Low;
    hide High;
  }

  // A connect request that is refused at once, or gets no socket, leaves nothing but the
  // counter value it used, if any.
  lemma RefusedEffect(st: State, i: nat, h: u64, refused: bool)
    requires Inv(st) && Can(st, Requested(i, h, false, true))
    ensures Step(st, Requested(i, h, false, true)) == st.(handleSeq := st.handleSeq + 1)
    ensures Step(st, Requested(i, h, true, refused)) == st
  {
    RequestReplacesNothing(st, i, h);
    NewHandle(st, i, h);
    var count := st.handleSeq + 1;
    var key := HandleFor(h, count);
    hide HandleFor;
    hide Low;
    hide High;
    var r := st.rules[i];
    assert r.connecting[key := Sess(count, key, 1, 0, 0)] - {key} == r.connecting;
    assert st.live + {count} - {count} == st.live;
    assert st.rules[i := r] == st.rules;
  }

  // In any state at all, whatever handles peers make up: sessions filed under the very handle
  // of a request are freed before a new one comes.
  lemma RequestFreesOld(st: State, i: nat, h: u64, refused: bool)
    requires i < |st.rules|
    requires h in st.rules[i].sessions ==> st.rules[i].sessions[h].handle == h
    requires h in st.rules[i].connecting ==> st.rules[i].connecting[h].handle == h
    ensures var r := st.rules[i];
      var gone := (if h in r.sessions then {r.sessions[h].born} else {}) + (if h in r.connecting then {r.connecting[h].born} else {});
      Became(st, ConnectRequest(st, i, h, true, refused), i, r.(sessions := r.sessions - {h}, connecting := r.connecting - {h}), st.live - gone)
  {
    var r := st.rules[i];
    assert h !in r.sessions ==> r.sessions - {h} == r.sessions;
    assert h !in r.connecting ==> r.connecting - {h} == r.connecting;
    assert h !in r.sessions && h !in r.connecting ==> st.rules[i := r] == st.rules;
  }

  lemma RequestThenAdds(st: State, i: nat, h: u64, refused: bool)
    requires i < |st.rules|
    ensures ConnectRequest(st, i, h, false, refused) == AddConnecting(ConnectRequest(st, i, h, true, refused), i, h, refused)
  {
    hide AddConnecting;
  }

  // The counter goes up by one and never is 0, so that no session is told from "no handle".
  lemma CounterSkipsZero(n: u32)
    ensures NextSeq(n) != 0 && (n + 1 < MOD32 ==> NextSeq(n) == n + 1) && NextSeq(MOD32 - 1) == 1
  {
  }

  // Another context that takes a counter value leaves the sessions alone.
  lemma ElsewhereEffect(st: State)
    requires Can(st, Elsewhere)
    ensures Step(st, Elsewhere) == st.(handleSeq := st.handleSeq + 1)
  {
  }
}
