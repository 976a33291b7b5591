// The session callbacks of Lifecycle in place: rule objects whose two trees are updated, found
// by walking the context's tree of rules.
module ContextModule {
  import opened Wire
  import opened RbShape
  import Lifecycle

  class Rule {
    const mode: Lifecycle.Mode
    var sessions: map<u64, Lifecycle.Sess>
    var connecting: map<u64, Lifecycle.Sess>

    constructor (mode: Lifecycle.Mode)
      ensures this.mode == mode && sessions == map[] && connecting == map[]
    {
      this.mode := mode;
      sessions, connecting := map[], map[];
    }

    function Value(): Lifecycle.Rule
      reads this
    {
      Lifecycle.Rule(mode, sessions, connecting)
    }

    function TreeOf(established: bool): map<u64, Lifecycle.Sess>
      reads this
    {
      if established then sessions else connecting
    }
  }

  // The rules of a tree, in the order of their names.
  function RulesOf(t: Shape<string, Rule>): seq<Rule> {
    if t.Leaf? then [] else RulesOf(t.left) + [t.entry.data] + RulesOf(t.right)
  }

  lemma {:induction false} RulesOfInOrder(t: Shape<string, Rule>)
    ensures |RulesOf(t)| == |InOrder(t)|
    ensures forall k :: 0 <= k < |InOrder(t)| ==> RulesOf(t)[k] == InOrder(t)[k].data
  {
    if t.Fork? {
      RulesOfInOrder(t.left);
      RulesOfInOrder(t.right);
    }
  }

  ghost function Values(rules: seq<Rule>): (r: seq<Lifecycle.Rule>)
    reads rules
    ensures |r| == |rules|
  {
    seq(|rules|, k requires 0 <= k < |rules| reads rules => rules[k].Value())
  }

  // rules[i], if any, is the first of the rules with the handle in that tree.
  ghost predicate FirstWith(rules: seq<Rule>, handle: u64, established: bool, i: nat)
    reads rules
  {
    && i <= |rules| && (i < |rules| ==> handle in rules[i].TreeOf(established))
    && (forall k :: 0 <= k < i ==> handle !in rules[k].TreeOf(established))
  }

  lemma FirstIsUnique(rules: seq<Lifecycle.Rule>, handle: u64, established: bool, i: nat)
    requires i <= |rules| && (i < |rules| ==> handle in Lifecycle.TreeOf(rules[i], established))
    requires forall k :: 0 <= k < i ==> handle !in Lifecycle.TreeOf(rules[k], established)
    ensures i == Lifecycle.FindSession(rules, handle, established)
  {
  }

  class Context {
    const rules: Shape<string, Rule>
    const uretries: nat
    var handleSeq: u32
    ghost var live: set<u32>

    constructor (rules: Shape<string, Rule>, uretries: nat, handleSeq: u32)
      ensures this.rules == rules && this.uretries == uretries && this.handleSeq == handleSeq && live == {}
    {
      this.rules, this.uretries, this.handleSeq := rules, uretries, handleSeq;
      live := {};
    }

    ghost predicate Valid() {
      forall j, k :: 0 <= j < k < |RulesOf(rules)| ==> RulesOf(rules)[j] != RulesOf(rules)[k]
    }

    ghost function State(): Lifecycle.State
      reads this, RulesOf(rules)
    {
      Lifecycle.State(Values(RulesOf(rules)), handleSeq, uretries, live)
    }

    // rule is the one in place i.
    ghost predicate At(i: nat, rule: Rule) {
      i < |RulesOf(rules)| && RulesOf(rules)[i] == rule
    }

    // find_session_in_context_walk
    static method FindSession(t: Shape<string, Rule>, handle: u64, established: bool) returns (found: Rule?, ghost i: nat)
      ensures found == null <==> forall r :: r in RulesOf(t) ==> handle !in r.TreeOf(established)
      ensures found != null ==> found in RulesOf(t) && handle in found.TreeOf(established)
      ensures FirstWith(RulesOf(t), handle, established, i)
      ensures if found == null then i == |RulesOf(t)| else i < |RulesOf(t)| && RulesOf(t)[i] == found
    {
      if t.Leaf? { return null, 0; }
      found, i := FindSession(t.left, handle, established);
      if found == null {
        if handle in t.entry.data.TreeOf(established) {
          found := t.entry.data;
        } else {
          ghost var l, j := RulesOf(t.left), i;
          assert allocated(l);
          found, j := FindSession(t.right, handle, established);
          i := |l| + 1 + j;
          assert FirstWith(l, handle, established, |l|);
          forall k | 0 <= k < i ensures handle !in RulesOf(t)[k].TreeOf(established) {
            assert RulesOf(t)[k] == if k < |l| then l[k] else if k == |l| then t.entry.data else RulesOf(t.right)[k - |l| - 1];
          }
        }
      }
    }

    // One rule has changed, in place i.
    lemma OneChanged(i: nat, rule: Rule, was: seq<Lifecycle.Rule>)
      requires Valid() && At(i, rule) && |was| == |RulesOf(rules)|
      requires forall k :: 0 <= k < |was| && RulesOf(rules)[k] != rule ==> was[k] == RulesOf(rules)[k].Value()
      ensures Values(RulesOf(rules)) == was[i := rule.Value()]
    {
    }

    // t2u_delete_connecting_session
    method DeleteConnecting(rule: Rule, s: Lifecycle.Sess, ghost i: nat)
      requires Valid() && At(i, rule)
      modifies rule`connecting, this`live
      ensures State() == Lifecycle.DeleteConnecting(old(State()), i, s)
    {
      rule.connecting := rule.connecting - {s.handle};
      live := live - {s.born};
      OneChanged(i, rule, old(State()).rules);
    }

    // t2u_delete_connected_session
    method DeleteConnected(rule: Rule, s: Lifecycle.Sess, ghost i: nat)
      requires Valid() && At(i, rule)
      modifies rule`sessions, this`live
      ensures State() == Lifecycle.DeleteConnected(old(State()), i, s)
    {
      rule.sessions := rule.sessions - {s.handle};
      live := live - {s.born};
      OneChanged(i, rule, old(State()).rules);
    }

    // t2u_add_connecting_session
    method AddConnecting(rule: Rule, handle: u64, refused: bool, ghost i: nat)
      requires Valid() && At(i, rule)
      modifies rule`connecting, this`live, this`handleSeq
      ensures State() == Lifecycle.AddConnecting(old(State()), i, handle, refused)
    {
      handleSeq := (handleSeq + 1) % MOD32;
      if handleSeq == 0 { handleSeq := handleSeq + 1; }
      var own := Lifecycle.HandleFor(handle, handleSeq);
      hide Lifecycle.HandleFor;
      var s := Lifecycle.Sess(handleSeq, own, 1, 0, if rule.mode == Lifecycle.Client then 1 else 0);
      live := live + {handleSeq};
      assert handleSeq == Lifecycle.NextSeq(old(handleSeq));
      hide Lifecycle.NextSeq;
      if own !in rule.connecting {
        rule.connecting := rule.connecting[own := s];
      }
      OneChanged(i, rule, old(State()).rules);
      if rule.mode == Lifecycle.Server && refused {
        DeleteConnecting(rule, s, i);
      }
    }

    // t2u_rule_handle_connect_request
    method ConnectRequest(rule: Rule, handle: u64, noSocket: bool, refused: bool, ghost i: nat)
      requires Valid() && At(i, rule)
      modifies rule, this`live, this`handleSeq
      ensures State() == Lifecycle.ConnectRequest(old(State()), i, handle, noSocket, refused)
    {
      if handle in rule.sessions { DeleteConnected(rule, rule.sessions[handle], i); }
      if handle in rule.connecting { DeleteConnecting(rule, rule.connecting[handle], i); }
      if !noSocket { AddConnecting(rule, handle, refused, i); }
    }

    // connecting -> connected: out under the old handle, in under the new one
    method Establish(rule: Rule, s: Lifecycle.Sess, handle: u64, ghost i: nat)
      requires Valid() && At(i, rule)
      modifies rule
      ensures State() == Lifecycle.Establish(old(State()), i, s, handle)
    {
      rule.connecting := rule.connecting - {s.handle};
      var moved := s.(status := 2, handle := handle);
      if moved.handle !in rule.sessions {
        rule.sessions := rule.sessions[moved.handle := moved];
      }
      OneChanged(i, rule, old(State()).rules);
    }

    // the dispatch of a connect response, and t2u_session_handle_connect_response
    method ConnectResponse(handle: u64, error: bool)
      requires Valid()
      modifies this`live, RulesOf(rules)
      ensures State() == Lifecycle.ConnectResponse(old(State()), handle, error)
    {
      var low := handle % MOD32;
      ghost var i;
      var rule;
      ghost var st := State();
      assert allocated(RulesOf(rules));
      rule, i := FindSession(rules, low, false);
      assert Values(RulesOf(rules)) == st.rules;
      FirstIsUnique(st.rules, low, false, i);
      if rule != null {
        var s := rule.connecting[low];
        if error {
          DeleteConnecting(rule, s, i);
        } else {
          Establish(rule, s, handle, i);
        }
      }
    }

    // the dispatch of a close request
    method CloseRequest(handle: u64)
      requires Valid()
      modifies this`live, RulesOf(rules)
      ensures State() == Lifecycle.CloseRequest(old(State()), handle)
    {
      ghost var i;
      var rule;
      ghost var st := State();
      assert allocated(RulesOf(rules));
      rule, i := FindSession(rules, handle, true);
      assert Values(RulesOf(rules)) == st.rules;
      FirstIsUnique(st.rules, handle, true, i);
      if rule != null {
        DeleteConnected(rule, rule.sessions[handle], i);
      }
    }

    // session_connect_success_cb_
    method ConnectDone(rule: Rule, handle: u64, error: bool, ghost i: nat)
      requires Valid() && At(i, rule) && handle in rule.connecting
      modifies this`live, rule
      ensures State() == Lifecycle.ConnectDone(old(State()), i, handle, error)
    {
      var s := rule.connecting[handle];
      if !error {
        Establish(rule, s, s.handle, i);
      } else {
        DeleteConnecting(rule, s, i);
      }
    }

    // session_connect_timeout_cb_
    method ConnectTimeout(rule: Rule, handle: u64, ghost i: nat)
      requires Valid() && At(i, rule) && handle in rule.connecting
      modifies this`live, rule`connecting
      ensures State() == Lifecycle.ConnectTimeout(old(State()), i, handle)
    {
      var s := rule.connecting[handle];
      if s.retries + 1 >= uretries {
        DeleteConnecting(rule, s, i);
      } else {
        s := s.(retries := s.retries + 1);
        if rule.mode == Lifecycle.Client { s := s.(requests := s.requests + 1); }
        rule.connecting := rule.connecting[handle := s];
        OneChanged(i, rule, old(State()).rules);
      }
    }
  }
}
