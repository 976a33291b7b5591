// Connect timers stop on their own; repeated connect requests do not.
module LifecycleLimits {
  import opened Wire
  import opened Lifecycle

  lemma RunsAreInv(modes: seq<Mode>, uretries: nat, events: seq<Event>, st: State)
    requires uretries >= 1 && Run(Start(modes, uretries), events, st)
    ensures Inv(st)
  {
    StartIsInv(modes, uretries);
    RunKeepsInv(Start(modes, uretries), events, st);
  }

  // ----- a repeated connect request

  // A connect request always adds a session, whatever sessions there are for its handle.
  lemma RequestAdds(st: State, i: nat, h: u64)
    requires Inv(st) && Can(st, Requested(i, h, false, false))
    ensures var st' := Step(st, Requested(i, h, false, false)); var count := st.handleSeq + 1; var key := h + count * MOD32;
      && Low(key) == h && High(key) == count < MOD32
      && count !in st.live && st'.live == st.live + {count} && st'.handleSeq == count
      && key !in st.rules[i].connecting && st'.rules[i].sessions == st.rules[i].sessions
      && st'.rules[i].connecting == st.rules[i].connecting[key := Sess(count, key, 1, 0, 0)]
      && st'.rules == st.rules[i := st'.rules[i]]
  {
    RequestReplacesNothing(st, i, h);
    NewHandle(st, i, h);
    HalvesOf(h + (st.handleSeq + 1) * MOD32, h, st.handleSeq + 1);
    assert HandleFor(h, st.handleSeq + 1) == h + (st.handleSeq + 1) * MOD32;
    hide Low;
    hide High;
    hide HandleFor;
  }

  // So in every run a connect request that arrives twice leaves two live sessions of the
  // server for one session of the client.
  lemma RepeatedRequestDoubles(modes: seq<Mode>, uretries: nat, events: seq<Event>, st: State, i: nat, h: u64)
    requires uretries >= 1 && Run(Start(modes, uretries), events, st)
    requires var e := Requested(i, h, false, false); Can(st, e) && Can(Step(st, e), e)
    ensures var e := Requested(i, h, false, false); var st' := Step(Step(st, e), e);
      var one, two := h + (st.handleSeq + 1) * MOD32, h + (st.handleSeq + 2) * MOD32;
      && |st'.live| == |st.live| + 2
      && Low(one) == h && Low(two) == h && one != two
      && one in st'.rules[i].connecting && two in st'.rules[i].connecting
      && st'.rules[i].connecting[one].born != st'.rules[i].connecting[two].born
  {
    hide Step;
    hide Low;
    hide High;
    hide Run;
    hide Inv;
    RunsAreInv(modes, uretries, events, st);
    var e := Requested(i, h, false, false);
    assert i < |st.rules|;
    RequestAdds(st, i, h);
    StepKeepsInv(st, e);
    var st1 := Step(st, e);
    RequestAdds(st1, i, h);
    hide Can;
    assert |st1.live| == |st.live| + 1 && |Step(st1, e).live| == |st1.live| + 1;
  }

  // ----- connect timers

  // In every run a connecting session of either mode has tries left.
  lemma RetriesAreBounded(modes: seq<Mode>, uretries: nat, events: seq<Event>, st: State, i: nat, h: u64)
    requires uretries >= 1 && Run(Start(modes, uretries), events, st)
    requires i < |st.rules| && h in st.rules[i].connecting
    ensures st.rules[i].connecting[h].retries < uretries
  {
    RunsAreInv(modes, uretries, events, st);
    RunKeepsRetries(Start(modes, uretries), events, st);
    assert ConnectingOk(st, i);
  }

  lemma StepKeepsRetries(st: State, e: Event)
    requires Can(st, e)
    ensures Step(st, e).uretries == st.uretries
  {
  }

  lemma {:induction false} RunKeepsRetries(st: State, events: seq<Event>, last: State)
    requires Run(st, events, last)
    ensures last.uretries == st.uretries
    decreases |events|
  {
    if events != [] {
      StepKeepsRetries(st, events[0]);
      hide Step;
      hide Can;
      RunKeepsRetries(Step(st, events[0]), events[1..], last);
    }
  }

  // How often the connect timer of a session can still fire.
  function TriesOf(s: Sess, established: bool, uretries: nat): nat {
    if established || s.retries >= uretries then 0 else uretries - s.retries
  }

  // The same for every live session, by the counter value it was created with.
  ghost function Tries(st: State, index: map<u32, Place>): map<u32, nat>
    requires Indexed(st, index)
  {
    map b | b in index :: (
      assert Holds(st, index[b], b);
      var p := index[b];
      TriesOf(Tree(st, p.rule, p.established)[p.handle], p.established, st.uretries))
  }

  ghost function Sum(m: map<u32, nat>): nat {
    if m == map[] then 0 else
    var k :| k in m;
    m[k] + Sum(m - {k})
  }

  lemma {:induction false} SumSplits(m: map<u32, nat>, k: u32)
    requires k in m
    ensures Sum(m) == m[k] + Sum(m - {k})
    decreases |m|
  {
    var first :| first in m && Sum(m) == m[first] + Sum(m - {first});
    if first != k {
      SumSplits(m - {first}, k);
      SumSplits(m - {k}, first);
      assert m - {first} - {k} == m - {k} - {first};
    }
  }

  lemma {:induction false} SumBound(m: map<u32, nat>, most: nat)
    requires forall k :: k in m ==> m[k] <= most
    ensures Sum(m) <= |m| * most
    decreases |m|
  {
    if m != map[] {
      var k :| k in m;
      SumSplits(m, k);
      SumBound(m - {k}, most);
      assert |m - {k}| == |m| - 1;
      assert |m| * most == (|m| - 1) * most + most;
    }
  }

  // Every firing uses up a try.
  lemma TimeoutUsesTry(st: State, i: nat, h: u64, index: map<u32, Place>) returns (index': map<u32, Place>)
    requires Inv(st) && Indexed(st, index) && i < |st.rules| && h in st.rules[i].connecting
    ensures Indexed(ConnectTimeout(st, i, h), index')
    ensures Sum(Tries(ConnectTimeout(st, i, h), index')) < Sum(Tries(st, index))
  {
    assert ConnectingOk(st, i);
    var s := st.rules[i].connecting[h];
    var st' := ConnectTimeout(st, i, h);
    OwnTries(st, i, h, index);
    if s.retries + 1 >= st.uretries {
      Unfiled(st, st', i, false, h, index);
      index' := index - {s.born};
      OthersKeepTries(st, st', i, h, index, index');
      hide Indexed;
      hide ConnectTimeout;
      LessWithout(Tries(st, index), Tries(st', index'), s.born);
    } else {
      Refiled(st, st', i, false, st'.rules[i].connecting[h], index);
      index' := index;
      OthersKeepTries(st, st', i, h, index, index');
      OwnTries(st', i, h, index);
      hide Indexed;
      hide ConnectTimeout;
      LessAtOne(Tries(st, index), Tries(st', index'), s.born);
    }
  }

  lemma OwnTries(st: State, i: nat, h: u64, index: map<u32, Place>)
    requires Indexed(st, index) && i < |st.rules| && h in st.rules[i].connecting
    ensures var s := st.rules[i].connecting[h]; s.born in index && Tries(st, index)[s.born] == TriesOf(s, false, st.uretries)
  {
    assert Holds(st, Place(i, false, h), st.rules[i].connecting[h].born);
  }

  lemma LessWithout(m: map<u32, nat>, m': map<u32, nat>, k: u32)
    requires k in m && m[k] > 0 && m'.Keys == m.Keys - {k} && forall j :: j in m' ==> m'[j] == m[j]
    ensures Sum(m') < Sum(m)
  {
    SumSplits(m, k);
    assert m' == m - {k};
  }

  lemma LessAtOne(m: map<u32, nat>, m': map<u32, nat>, k: u32)
    requires k in m && m'.Keys == m.Keys && m'[k] < m[k] && forall j :: j in m' && j != k ==> m'[j] == m[j]
    ensures Sum(m') < Sum(m)
  {
    SumSplits(m, k);
    SumSplits(m', k);
    assert m' - {k} == m - {k};
  }

  lemma OthersKeepTries(st: State, st': State, i: nat, h: u64, index: map<u32, Place>, index': map<u32, Place>)
    requires Indexed(st, index) && Indexed(st', index') && i < |st.rules| && h in st.rules[i].connecting
    requires index' == index || index' == index - {st.rules[i].connecting[h].born}
    requires st'.uretries == st.uretries && OnlyTree(st, st', i, false)
    requires forall g :: g != h && g in st'.rules[i].connecting ==>
      g in st.rules[i].connecting && st'.rules[i].connecting[g] == st.rules[i].connecting[g]
    ensures forall b :: b in index' && b != st.rules[i].connecting[h].born ==> Tries(st', index')[b] == Tries(st, index)[b]
  {
    assert Holds(st, Place(i, false, h), st.rules[i].connecting[h].born);
    forall b | b in index' && b != st.rules[i].connecting[h].born ensures Tries(st', index')[b] == Tries(st, index)[b] {
      var p := index[b];
      assert Holds(st, p, b) && Holds(st', p, b);
      if p.rule != i || p.established {
        assert Tree(st', p.rule, p.established) == Tree(st, p.rule, p.established);
      }
    }
  }

  predicate OnlyTimeouts(events: seq<Event>) {
    forall i :: 0 <= i < |events| ==> events[i].TimedOut?
  }

  lemma {:induction false} TimeoutsStop(st: State, events: seq<Event>, last: State, index: map<u32, Place>)
    requires Inv(st) && Indexed(st, index) && Run(st, events, last) && OnlyTimeouts(events)
    ensures |events| <= Sum(Tries(st, index))
    decreases |events|
  {
    if events != [] {
      var e := events[0];
      StepKeepsInv(st, e);
      var index' := TimeoutUsesTry(st, e.rule, e.handle, index);
      assert Step(st, e) == ConnectTimeout(st, e.rule, e.handle);
      hide Inv;
      hide Indexed;
      hide Tries;
      TimeoutsStop(Step(st, e), events[1..], last, index');
    }
  }

  lemma TriesBound(st: State, index: map<u32, Place>)
    requires Indexed(st, index)
    ensures forall b :: b in Tries(st, index) ==> Tries(st, index)[b] <= st.uretries
  {
    forall b | b in index ensures Tries(st, index)[b] <= st.uretries {
      assert Holds(st, index[b], b);
    }
  }

  // With nothing accepted and nothing received, the connect timers of a context fire at most
  // uretries_ times for each live session.
  lemma ConnectTimersStop(modes: seq<Mode>, uretries: nat, events: seq<Event>, st: State, timeouts: seq<Event>, last: State)
    requires uretries >= 1 && Run(Start(modes, uretries), events, st)
    requires Run(st, timeouts, last) && OnlyTimeouts(timeouts)
    ensures |timeouts| <= |st.live| * uretries
  {
    RunsAreInv(modes, uretries, events, st);
    RunKeepsRetries(Start(modes, uretries), events, st);
    var index :| Indexed(st, index);
    TimeoutsStop(st, timeouts, last, index);
    TriesBound(st, index);
    SumBound(Tries(st, index), uretries);
    assert Tries(st, index).Keys == st.live;
    assert |Tries(st, index)| == |Tries(st, index).Keys|;
    hide Run;
  }
}
