// Timers stop on their own: how often a data message is resent, and how often the timers of a
// pair can fire.
module TransportBudget {
  import opened Wire
  import opened EndSpec
  import opened Transport
  import opened TransportRuns
  import opened TransportLimits
  import TransportSend

  // ----- timers stop

  function Shots(m: Message, window: nat): nat {
    if m.timer && m.retries <= window + 1 then window + 2 - m.retries else 0
  }

  ghost function Budget(queue: map<u32, Message>, window: nat): nat {
    if queue == map[] then 0 else
    var number :| number in queue;
    Shots(queue[number], window) + Budget(queue - {number}, window)
  }

  lemma {:induction false} BudgetSplits(queue: map<u32, Message>, window: nat, number: u32)
    requires number in queue
    ensures Budget(queue, window) == Shots(queue[number], window) + Budget(queue - {number}, window)
    decreases |queue|
  {
    var first :| first in queue && Budget(queue, window) == Shots(queue[first], window) + Budget(queue - {first}, window);
    if first != number {
      BudgetSplits(queue - {first}, window, number);
      BudgetSplits(queue - {number}, window, first);
      assert queue - {first} - {number} == queue - {number} - {first};
    }
  }

  lemma {:induction false} BudgetBound(queue: map<u32, Message>, window: nat)
    ensures Budget(queue, window) <= |queue| * (window + 2)
    decreases |queue|
  {
    if queue != map[] {
      var number :| number in queue;
      BudgetSplits(queue, window, number);
      BudgetBound(queue - {number}, window);
      assert |queue - {number}| == |queue| - 1;
      assert |queue| * (window + 2) == (|queue| - 1) * (window + 2) + (window + 2);
    }
  }

  // Every firing uses up one shot.
  lemma FiringUsesShot(e: Endpoint, number: u32)
    requires e.alive && ShotsLeft(e) && number in e.sendMess && e.sendMess[number].timer
    ensures EndShots(RequestTimeout(e, number).e) < EndShots(e)
  {
    var m := e.sendMess[number];
    BudgetSplits(e.sendMess, e.window, number);
    var q := e.sendMess[number := m.(retries := m.retries + 1, timer := m.retries <= e.window)];
    BudgetSplits(q, e.window, number);
    assert q - {number} == e.sendMess - {number};
    assert Budget(map[], e.window) == 0;
    hide Budget;
  }

  predicate OnlyTimers(moves: seq<Move>) {
    forall i :: 0 <= i < |moves| ==> moves[i].act.Fires?
  }

  ghost function EndShots(e: Endpoint): nat {
    if e.alive then Budget(e.sendMess, e.window) else 0
  }

  ghost function BothShots(w: World): nat {
    EndShots(w.a.e) + EndShots(w.b.e)
  }

  // With nothing read from TCP and nothing received, the data timers of a pair can fire only
  // so often.
  lemma {:induction false} TimersStop(w: World, moves: seq<Move>, last: World)
    requires Inv(w) && Run(w, moves, last) && OnlyTimers(moves)
    ensures |moves| <= BothShots(w)
    decreases |moves|
  {
    if moves != [] {
      var m := moves[0];
      StepKeepsInv(w, m);
      TimerStep(w, m);
      TimersStop(Step(w, m), moves[1..], last);
    }
  }

  lemma TimerStep(w: World, m: Move)
    requires Inv(w) && Allowed(w, m) && m.act.Fires?
    ensures BothShots(Step(w, m)) < BothShots(w)
  {
    match m
    case ByA(act) => FiringUsesShot(w.a.e, act.number);
    case ByB(act) => FiringUsesShot(w.b.e, act.number);
    hide Budget;
    hide TxOk;
    hide RxOk;
  }

  // In any run, at most window * (window + 2) more firings at each end.
  lemma TimerBound(handle: u64, windowA: nat, windowB: nat, moves: seq<Move>, w: World, timers: seq<Move>, last: World)
    requires 1 <= windowA <= 64 && 1 <= windowB <= 64
    requires Run(Connected(handle, windowA, windowB), moves, w)
    requires Run(w, timers, last) && OnlyTimers(timers)
    ensures |timers| <= 2 * 64 * 66
  {
    RunsAreInv(handle, windowA, windowB, moves, w);
    TimersStop(w, timers, last);
    EndBudget(w.a, |w.b.written|);
    EndBudget(w.b, |w.a.written|);
    hide Run;
    hide EndShots;
  }

  lemma EndBudget(p: Peer, delivered: nat)
    requires Sized(p.e) && TxOk(p, delivered)
    ensures EndShots(p.e) <= 64 * 66
  {
    if p.e.alive {
      BudgetBound(p.e.sendMess, p.e.window);
      Product(|p.e.sendMess|, p.e.window);
    }
  }

  lemma Product(n: nat, window: nat)
    requires n <= window <= 64
    ensures n * (window + 2) <= 64 * 66
  {
  }

  // ----- resends of one message, over any run

  // The step resends message n of p.
  predicate Resends(p: Peer, act: Action, n: int) {
    && act.Fires? && act.number in p.e.sendMess && SerialOf(|p.sent|, act.number) == n
    && p.e.sendMess[act.number].retries <= p.e.window
  }

  // How often a run from w resends message n of end a.
  function ResendCount(w: World, moves: seq<Move>, n: int): nat
    decreases |moves|
  {
    if moves == [] then 0 else
    (if moves[0].ByA? && Resends(w.a, moves[0].act, n) then 1 else 0) + ResendCount(Step(w, moves[0]), moves[1..], n)
  }

  // How often message n of p can still be resent.
  function ResendsLeft(p: Peer, n: int): nat {
    if n > |p.sent| then p.e.window + 1
    else if p.e.alive && Low32(n) in p.e.sendMess && SerialOf(|p.sent|, Low32(n)) == n then MessageLeft(p.e.sendMess[Low32(n)], p.e.window)
    else 0
  }

  function MessageLeft(m: Message, window: nat): nat {
    if m.timer && m.retries <= window then window + 1 - m.retries else 0
  }

  // The queue of e' is what is left of the queue of e, no message with more tries to go.
  predicate Ages(e: Endpoint, e': Endpoint) {
    && e'.window == e.window
    && (e'.alive ==> e.alive && forall k :: k in e'.sendMess ==>
          k in e.sendMess && MessageLeft(e'.sendMess[k], e.window) <= MessageLeft(e.sendMess[k], e.window))
  }

  lemma DeliverKeepsQueue(e: Endpoint, number: u32, p: Payload, w: TcpWrite)
    ensures TransportSend.SameSending(e, DeliverOne(e, number, p, w).o.e)
  {
    hide Add32;
    hide Sub32;
  }

  lemma {:induction false} DrainKeepsQueue(e: Endpoint, number: u32, p: Payload, answers: seq<TcpWrite>, k: nat)
    ensures TransportSend.SameSending(e, Drain(e, number, p, answers, k).e)
    decreases |e.recvMess|
  {
    DeliverKeepsQueue(e, number, p, Answer(answers, k));
    var d := DeliverOne(e, number, p, Answer(answers, k));
    hide DeliverOne;
    if d.more {
      DrainKeepsQueue(d.o.e, d.number, d.payload, answers, k + 1);
    }
  }

  lemma DataKeepsQueue(e: Endpoint, number: u32, p: Payload, answers: seq<TcpWrite>)
    ensures TransportSend.SameSending(e, HandleDataRequest(e, number, p, answers).e)
  {
    DrainKeepsQueue(e, number, p, answers, 0);
    hide Drain;
    hide Ask;
    hide Sub32;
    hide Add32;
  }

  lemma ReceivingAges(e: Endpoint, act: Action)
    requires act.Receive?
    ensures Ages(e, React(e, act).e)
  {
    hide Add32;
    hide Sub32;
    hide HandleDataRequest;
    hide ValidLength;
    if e.alive && act.packet.dg.handle == e.handle && act.packet.dg.Data? {
      DataKeepsQueue(e, act.packet.dg.number, act.packet.dg.payload, act.answers);
    }
  }

  lemma OthersAge(e: Endpoint, act: Action)
    requires Enabled(e, act) && !act.Receive? && (act.Fires? ==> e.sendMess[act.number].timer)
    requires !(act.Readable? && act.read.Got? && e.sendCount < e.window)
    ensures Ages(e, React(e, act).e)
  {
    hide Add32;
    hide Sub32;
    if act.Fires? {
      FiringIs(e, act.number);
      hide React;
    }
  }

  lemma AgingUsesNone(p: Peer, p': Peer, n: int)
    requires Ages(p.e, p'.e) && p'.sent == p.sent
    ensures ResendsLeft(p', n) <= ResendsLeft(p, n)
  {
    hide Low32;
    hide SerialOf;
    hide MessageLeft;
  }

  // A resend uses up one.
  lemma ResendUsesOne(p: Peer, act: Action, n: int)
    requires p.e.alive && Resends(p, act, n) && p.e.sendMess[act.number].timer
    ensures ResendsLeft(StepPeer(p, act), n) + 1 <= ResendsLeft(p, n)
  {
    SerialFacts(|p.sent|, act.number);
    FiringIs(p.e, act.number);
    hide React;
    hide AskedFor;
    hide Low32;
    hide SerialOf;
    var m := p.e.sendMess[act.number];
    var e' := RequestTimeout(p.e, act.number).e;
    assert e' == Retried(p.e, act.number);
    hide RequestTimeout;
    assert p.sent + [] == p.sent;
  }

  // A payload read is a new message, with all its resends to come.
  lemma ReadingUsesNone(p: Peer, payload: Payload, n: int)
    requires p.e.sendSeq == Low32(|p.sent|) && Add32(p.e.sendSeq, 1) !in p.e.sendMess
    ensures ResendsLeft(p.(e := AddRequest(p.e, payload).e, sent := p.sent + [payload]), n) <= ResendsLeft(p, n)
  {
    AddToLow(|p.sent|, 1);
    SerialOfNext(|p.sent|, Low32(n));
    hide Low32;
    hide SerialOf;
    hide Sub32;
    hide Add32;
  }

  lemma StepUsesResends(w: World, m: Move, n: int)
    requires Inv(w) && Allowed(w, m)
    ensures ResendsLeft(Step(w, m).a, n) + (if m.ByA? && Resends(w.a, m.act, n) then 1 else 0) <= ResendsLeft(w.a, n)
  {
    if m.ByA? {
      var p, act := w.a, m.act;
      assert Step(w, m).a == StepPeer(p, act);
      if act.Readable? && act.read.Got? && p.e.sendCount < p.e.window {
        ReadingStep(p, act, |w.b.written|, n);
      } else if Resends(p, act, n) {
        ResendUsesOne(p, act, n);
      } else {
        OtherStep(p, act, n);
      }
    }
    hide ResendsLeft;
  }

  lemma ReadingStep(p: Peer, act: Action, delivered: nat, n: int)
    requires TxOk(p, delivered) && act.Readable? && act.read.Got? && p.e.sendCount < p.e.window && Timely(p, act)
    ensures ResendsLeft(StepPeer(p, act), n) <= ResendsLeft(p, n)
  {
    ReadingUsesNone(p, act.read.payload, n);
    hide Low32;
    hide Add32;
    hide Sub32;
    hide AskedFor;
    hide ResendsLeft;
    var p' := StepPeer(p, act);
    assert p'.e == AddRequest(p.e, act.read.payload).e && p'.sent == p.sent + [act.read.payload];
    hide StepPeer;
    hide AddRequest;
    SameLeft(p', p.(e := AddRequest(p.e, act.read.payload).e, sent := p.sent + [act.read.payload]), n);
  }

  lemma SameLeft(p: Peer, q: Peer, n: int)
    requires p.e == q.e && p.sent == q.sent
    ensures ResendsLeft(p, n) == ResendsLeft(q, n)
  {
  }

  lemma OtherStep(p: Peer, act: Action, n: int)
    requires Enabled(p.e, act) && !(act.Readable? && act.read.Got? && p.e.sendCount < p.e.window)
    requires act.Fires? ==> p.e.sendMess[act.number].timer
    ensures ResendsLeft(StepPeer(p, act), n) <= ResendsLeft(p, n)
  {
    if act.Receive? { ReceivingAges(p.e, act); } else { OthersAge(p.e, act); }
    hide React;
    hide AskedFor;
    hide Ages;
    assert p.sent + [] == p.sent;
    AgingUsesNone(p, StepPeer(p, act), n);
  }

  lemma {:induction false} RunUsesResends(w: World, moves: seq<Move>, last: World, n: int)
    requires Inv(w) && Run(w, moves, last)
    ensures ResendCount(w, moves, n) <= ResendsLeft(w.a, n)
    decreases |moves|
  {
    hide Inv;
    hide Step;
    hide Allowed;
    hide Resends;
    hide ResendsLeft;
    if moves != [] {
      StepKeepsInv(w, moves[0]);
      StepUsesResends(w, moves[0], n);
      RunUsesResends(Step(w, moves[0]), moves[1..], last, n);
    }
  }

  // In every run, reads and datagrams at will, no message is resent by its timer more often
  // than the window plus one; by symmetry (Mirrored) at either end.
  lemma ResendsAreBounded(handle: u64, windowA: nat, windowB: nat, moves: seq<Move>, w: World, n: int)
    requires 1 <= windowA <= 64 && 1 <= windowB <= 64
    requires Run(Connected(handle, windowA, windowB), moves, w)
    ensures ResendCount(Connected(handle, windowA, windowB), moves, n) <= windowA + 1
    ensures ResendCount(Connected(handle, windowB, windowA), Mirrored(moves), n) <= windowB + 1
  {
    var start := Connected(handle, windowA, windowB);
    ConnectedIsInv(handle, windowA, windowB);
    RunUsesResends(start, moves, w, n);
    assert Swap(start) == Connected(handle, windowB, windowA);
    MirroredRun(start, moves, w);
    ConnectedIsInv(handle, windowB, windowA);
    RunUsesResends(Swap(start), Mirrored(moves), Swap(w), n);
    hide ResendCount;
    hide Run;
    hide Inv;
  }

  // ----- the same run with the ends exchanged

  function Mirror(m: Move): Move {
    match m
    case ByA(act) => ByB(act)
    case ByB(act) => ByA(act)
  }

  function Mirrored(moves: seq<Move>): (r: seq<Move>)
    ensures |r| == |moves|
  {
    if moves == [] then [] else [Mirror(moves[0])] + Mirrored(moves[1..])
  }

  lemma {:induction false} MirroredRun(w: World, moves: seq<Move>, last: World)
    requires Run(w, moves, last)
    ensures Run(Swap(w), Mirrored(moves), Swap(last))
    decreases |moves|
  {
    if moves != [] {
      MirroredStep(w, moves[0]);
      hide Step;
      hide Allowed;
      MirroredRun(Step(w, moves[0]), moves[1..], last);
      var r := Mirrored(moves);
      assert r[0] == Mirror(moves[0]) && r[1..] == Mirrored(moves[1..]);
    }
  }

  lemma MirroredStep(w: World, m: Move)
    requires Allowed(w, m)
    ensures Allowed(Swap(w), Mirror(m)) && Step(Swap(w), Mirror(m)) == Swap(Step(w, m))
  {
    hide StepByA;
    hide AllowedByA;
    assert Swap(Swap(w)) == w;
  }

  // ----- the bound is reached

  // From a message just read, tried that often.
  lemma {:induction false} FireOn(s: Pair, p: Payload, retries: nat) returns (moves: seq<Move>, last: World)
    requires 1 <= s.windowA <= 64 && retries <= s.windowA + 1
    ensures var w := Scene(s, p, p, retries, [], {}, {Sent(s, p)});
      RunWith(_ => false, w, moves, last) && ResendCount(w, moves, 1) == s.windowA + 1 - retries
    decreases s.windowA + 1 - retries
  {
    hide Step;
    hide AllowedWith;
    hide Resends;
    hide Scene;
    hide Sent;
    var w, m := Scene(s, p, p, retries, [], {}, {Sent(s, p)}), ByA(Fires(1));
    if retries == s.windowA + 1 {
      moves, last := [], w;
    } else {
      FireOnce(s, p, retries);
      var rest;
      rest, last := FireOn(s, p, retries + 1);
      moves := [m] + rest;
      RunWithStep(_ => false, w, m, rest, last);
      hide RunWith;
      OneMoreResend(w, m, rest, 1);
    }
  }

  lemma OneMoreResend(w: World, m: Move, rest: seq<Move>, n: int)
    requires m.ByA? && Resends(w.a, m.act, n)
    ensures ResendCount(w, [m] + rest, n) == 1 + ResendCount(Step(w, m), rest, n)
  {
    hide Step;
    hide Resends;
    assert ([m] + rest)[0] == m && ([m] + rest)[1..] == rest;
  }

  lemma FireOnce(s: Pair, p: Payload, retries: nat)
    requires retries <= s.windowA
    ensures var w, m := Scene(s, p, p, retries, [], {}, {Sent(s, p)}), ByA(Fires(1));
      && AllowedWith(_ => false, w, m) && Resends(w.a, m.act, 1)
      && Step(w, m) == Scene(s, p, p, retries + 1, [], {}, {Sent(s, p)})
  {
    hide Step;
    hide AllowedWith;
    hide Resends;
    hide Scene;
    hide Sent;
    FiringAllowed(_ => false, s, p, p, retries, [], {}, {Sent(s, p)});
    FiringScene(s, p, p, retries, [], {}, {Sent(s, p)});
    FiringResends(s, p, retries);
    assert {Sent(s, p)} + {Sent(s, p)} == {Sent(s, p)};
  }

  lemma FiringResends(s: Pair, p: Payload, retries: nat)
    requires retries <= s.windowA
    ensures Resends(Scene(s, p, p, retries, [], {}, {Sent(s, p)}).a, Fires(1), 1)
  {
    var a := Scene(s, p, p, retries, [], {}, {Sent(s, p)}).a;
    assert Low32(1) == 1 && |a.sent| == 1 && 1 in a.e.sendMess && a.e.sendMess[1].retries <= a.e.window;
    hide Low32;
    hide Scene;
    hide Resends;
    NewestResends(a, 1);
  }

  lemma NewestResends(p: Peer, number: u32)
    requires number in p.e.sendMess && p.e.sendMess[number].retries <= p.e.window && number == Low32(|p.sent|)
    ensures Resends(p, Fires(number), |p.sent|)
  {
    SerialIsUnique(|p.sent|, |p.sent|);
    hide SerialOf;
    hide Low32;
  }

  lemma BoundIsReached(s: Pair, p: Payload) returns (moves: seq<Move>, last: World)
    requires 1 <= s.windowA <= 64 && 1 <= s.windowB <= 64 && 1 <= |p| <= PAYLOAD_MAX
    ensures Run(Start(s), moves, last) && ResendCount(Start(s), moves, 1) == s.windowA + 1
  {
    hide Step;
    hide AllowedWith;
    hide Start;
    hide RunWith;
    Reading(_ => false, s, p);
    var m := ByA(Readable(Got(p)));
    var rest;
    rest, last := FireOn(s, p, 0);
    RunWithStep(_ => false, Start(s), m, rest, last);
    moves := [m] + rest;
    assert moves[0] == m && moves[1..] == rest;
    assert !Resends(Start(s).a, m.act, 1);
    hide Resends;
    WholeRunIsRun(_ => false, Start(s), moves, last);
  }

  // A message can be resent more often than uretries_ exactly if uretries_ is no more than
  // the window: the timer counts against the window alone.
  lemma ResendsExceedRetries(handle: u64, windowA: nat, windowB: nat, uretries: nat)
    requires 1 <= windowA <= 64 && 1 <= windowB <= 64
    ensures (exists moves, w, n ::
               Run(Connected(handle, windowA, windowB), moves, w)
               && ResendCount(Connected(handle, windowA, windowB), moves, n) > uretries)
            <==> uretries <= windowA
  {
    var start := Connected(handle, windowA, windowB);
    if uretries <= windowA {
      var moves, w := BoundIsReached(Pair(handle, windowA, windowB), [0]);
      assert Run(start, moves, w) && ResendCount(start, moves, 1) > uretries;
    }
    forall moves, w, n | Run(start, moves, w) ensures ResendCount(start, moves, n) <= windowA + 1 {
      ResendsAreBounded(handle, windowA, windowB, moves, w, n);
    }
  }
}
