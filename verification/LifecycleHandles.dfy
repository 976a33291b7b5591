// A datagram names its session by handle alone, across all rules of its context.  When that
// is enough, and when it is not.
module LifecycleHandles {
  import opened Wire
  import opened Lifecycle

  ghost predicate HandlesUnique(st: State) {
    forall i, j, h :: 0 <= i < |st.rules| && 0 <= j < |st.rules| && h in st.rules[i].sessions && h in st.rules[j].sessions
      ==> i == j
  }

  predicate OneMode(modes: seq<Mode>) {
    forall i, j :: 0 <= i < |modes| && 0 <= j < |modes| ==> modes[i] == modes[j]
  }

  predicate HasModes(st: State, modes: seq<Mode>) {
    |st.rules| == |modes| && forall i :: 0 <= i < |modes| ==> st.rules[i].mode == modes[i]
  }

  lemma StepKeepsModes(st: State, e: Event, modes: seq<Mode>)
    requires Can(st, e) && HasModes(st, modes)
    ensures HasModes(Step(st, e), modes)
  {
    hide Low;
    hide HandleFor;
    hide NextSeq;
  }

  lemma {:induction false} RunKeepsModes(st: State, events: seq<Event>, last: State, modes: seq<Mode>)
    requires Run(st, events, last) && HasModes(st, modes)
    ensures HasModes(last, modes)
    decreases |events|
  {
    if events != [] {
      StepKeepsModes(st, events[0], modes);
      hide Step;
      RunKeepsModes(Step(st, events[0]), events[1..], last, modes);
    }
  }

  // With rules of one mode, the half chosen here tells all sessions apart.
  lemma OneModeIsUnique(st: State, modes: seq<Mode>)
    requires Inv(st) && HasModes(st, modes) && OneMode(modes)
    ensures HandlesUnique(st)
  {
    var index :| Indexed(st, index);
    forall i, j, h | 0 <= i < |st.rules| && 0 <= j < |st.rules| && h in st.rules[i].sessions && h in st.rules[j].sessions
      ensures i == j
    {
      assert SessionsOk(st, i) && SessionsOk(st, j);
      var b := st.rules[i].sessions[h].born;
      assert modes[i] == modes[j];
      assert Holds(st, Place(i, true, h), b) && Holds(st, Place(j, true, h), b);
    }
  }

  // Everywhere but at the given rules both trees are empty.
  predicate EmptyBut(st: State, i: nat, j: nat) {
    forall k :: 0 <= k < |st.rules| && k != i && k != j ==> st.rules[k].connecting == map[] && st.rules[k].sessions == map[]
  }

  const CLASH := 1 + 2 * MOD32

  // One accepted connection, one connect request, both answered: the client's session and the
  // server's get the same handle, when the peer's counter stands where ours does.
  lemma TwoModesClash(modes: seq<Mode>, uretries: nat, i: nat, j: nat) returns (events: seq<Event>, st: State)
    requires i < |modes| && j < |modes| && modes[i] == Client && modes[j] == Server && uretries >= 1
    ensures events == [Accepts(i), Requested(j, 1, false, false), Done(j, CLASH, false), Responded(CLASH, false)]
    ensures Run(Start(modes, uretries), events, st)
    ensures |st.rules| == |modes| && CLASH in st.rules[i].sessions && CLASH in st.rules[j].sessions
  {
    var st0 := Start(modes, uretries);
    var e1, e2, e3, e4 := Accepts(i), Requested(j, 1, false, false), Done(j, CLASH, false), Responded(CLASH, false);
    var st1 := Step(st0, e1);
    assert EmptyBut(st1, i, j) && st1.rules[i].connecting.Keys == {1} && st1.rules[j] == st0.rules[j] && st1.handleSeq == 1;
    var st2 := Step(st1, e2);
    assert EmptyBut(st2, i, j) && st2.rules[i] == st1.rules[i] && st2.rules[j].connecting.Keys == {CLASH};
    var st3 := Step(st2, e3);
    assert EmptyBut(st3, i, j) && st3.rules[i] == st1.rules[i];
    assert st3.rules[j].connecting == map[] && CLASH in st3.rules[j].sessions;
    assert Low(CLASH) == 1;
    st := Step(st3, e4);
    assert FindSession(st3.rules, 1, false) == i;
    assert CLASH in st.rules[i].sessions && st.rules[j] == st3.rules[j];
    events := [e1, e2, e3, e4];
    hide Step;
    hide Can;
    hide Start;
    FourSteps(st0, e1, e2, e3, e4);
  }

  lemma FourSteps(st: State, e1: Event, e2: Event, e3: Event, e4: Event)
    requires Can(st, e1) && Can(Step(st, e1), e2) && Can(Step(Step(st, e1), e2), e3)
    requires Can(Step(Step(Step(st, e1), e2), e3), e4)
    ensures Run(st, [e1, e2, e3, e4], Step(Step(Step(Step(st, e1), e2), e3), e4))
  {
    var st1 := Step(st, e1);
    var st2 := Step(st1, e2);
    var st3 := Step(st2, e3);
    var last := Step(st3, e4);
    hide Step;
    hide Can;
    assert Run(last, [], last);
    RunStep(st3, e4, [], last);
    RunStep(st2, e3, [e4], last);
    RunStep(st1, e2, [e3, e4], last);
    RunStep(st, e1, [e2, e3, e4], last);
    assert [e4] + [] == [e4] && [e3] + [e4] == [e3, e4] && [e2] + [e3, e4] == [e2, e3, e4];
    assert [e1] + [e2, e3, e4] == [e1, e2, e3, e4];
  }

  lemma RunStep(st: State, e: Event, rest: seq<Event>, last: State)
    requires Can(st, e) && Run(Step(st, e), rest, last)
    ensures Run(st, [e] + rest, last)
  {
    assert ([e] + rest)[1..] == rest;
  }

  // In all runs a handle names one session of its context, if and only if the context's rules
  // are all of one mode.
  lemma UniqueExactlyForOneMode(modes: seq<Mode>, uretries: nat)
    requires uretries >= 1
    ensures (forall events, st :: Run(Start(modes, uretries), events, st) ==> HandlesUnique(st)) <==> OneMode(modes)
  {
    if OneMode(modes) {
      forall events, st | Run(Start(modes, uretries), events, st) ensures HandlesUnique(st) {
        StartIsInv(modes, uretries);
        RunKeepsInv(Start(modes, uretries), events, st);
        RunKeepsModes(Start(modes, uretries), events, st, modes);
        OneModeIsUnique(st, modes);
      }
    } else {
      var i, j :| 0 <= i < |modes| && 0 <= j < |modes| && modes[i] != modes[j];
      var c, s := if modes[i] == Client then i else j, if modes[i] == Client then j else i;
      var events, st := TwoModesClash(modes, uretries, c, s);
      RunKeepsModes(Start(modes, uretries), events, st, modes);
      assert !HandlesUnique(st);
    }
  }
}
