// Every run of two connected ends.
module TransportRuns {
  import opened Wire
  import opened EndSpec
  import opened Transport
  import opened TransportSend
  import TransportReceive
  import opened TransportStep

  datatype Move = ByA(act: Action) | ByB(act: Action)

  function Swap(w: World): World {
    World(w.b, w.a, w.toB, w.toA)
  }

  // A step the callbacks are not defined on leaves the world alone; no possible step is of that
  // kind.
  function StepByA(w: World, act: Action): World {
    if Enabled(w.a.e, act) then StepA(w, act) else w
  }

  function Step(w: World, m: Move): World {
    match m
    case ByA(act) => StepByA(w, act)
    case ByB(act) => Swap(StepByA(Swap(w), act))
  }

  predicate AllowedByA(w: World, act: Action) {
    Possible(w.a, w.toA, act) && Assumed(w.a, act)
  }

  predicate Allowed(w: World, m: Move) {
    match m
    case ByA(act) => AllowedByA(w, act)
    case ByB(act) => AllowedByA(Swap(w), act)
  }

  // moves is a run from w to its last world.
  predicate Run(w: World, moves: seq<Move>, last: World)
    decreases |moves|
  {
    if moves == [] then last == w
    else Allowed(w, moves[0]) && Run(Step(w, moves[0]), moves[1..], last)
  }

  function Connected(handle: u64, windowA: nat, windowB: nat): World {
    World(Peer(Fresh(handle, windowA), [], [], []), Peer(Fresh(handle, windowB), [], [], []), {}, {})
  }

  // ----- one step

  // In no run does an acknowledgement exceed its message, or fall short of it: it is for all of
  // it, or not positive.
  lemma AckIsWholeOrNone(w: World, k: Packet, answers: seq<TcpWrite>)
    requires Inv(w) && AllowedByA(w, Receive(k, answers)) && w.a.e.alive
    requires k.dg.handle == w.a.e.handle && k.dg.Response? && k.dg.number in w.a.e.sendMess
    ensures k.dg.value <= 0 || k.dg.value == |w.a.e.sendMess[k.dg.number].payload|
  {
    if k.dg.value > 0 {
      AckIsForKept(w.a, k, |w.b.written|);
    }
  }

  lemma ReadingMoreKeepsRx(p: Peer, sent: seq<Payload>, more: seq<Payload>)
    requires RxOk(p, sent) && sent <= more
    ensures RxOk(p, more)
  {
    hide Low32;
    hide Sub32;
  }

  lemma PacketsStayTrue(packets: set<Packet>, sent: seq<Payload>, more: seq<Payload>, delivered: nat, delivered': nat)
    requires sent <= more && delivered <= delivered'
    ensures (forall k :: k in packets ==> DataOk(sent, k)) ==> (forall k :: k in packets ==> DataOk(more, k))
    ensures (forall k :: k in packets ==> AckOk(sent, delivered, k))
            ==> (forall k :: k in packets ==> AckOk(more, delivered', k))
  {
    hide Low32;
  }

  lemma HonestPackets(out: seq<Datagram>, p': Peer, written: nat, sent: seq<Payload>)
    requires Honest(out, p', written, sent)
    ensures forall k :: k in Tagged(out, |p'.sent|, written) ==> DataOk(p'.sent, k) && AckOk(sent, |p'.written|, k)
  {
    hide DataOk;
    hide AckOk;
    hide Tag;
  }

  lemma StepByAKeepsInv(w: World, act: Action)
    requires Inv(w) && AllowedByA(w, act)
    ensures Inv(StepByA(w, act))
  {
    hide Low32;
    hide Sub32;
    assert Healthy(w.a, |w.b.written|, w.b.sent);
    assert Truthful(w.a, |w.b.written|, w.b.sent, act);
    AnyStep(w.a, w.toA, act, |w.b.written|, w.b.sent);
    var a', out := StepPeer(w.a, act), React(w.a.e, act).out;
    assert StepA(w, act) == World(a', w.b, w.toA, w.toB + Tagged(out, |a'.sent|, |w.a.written|));
    AfterStep(w, a', out);
  }

  lemma AfterStep(w: World, a': Peer, out: seq<Datagram>)
    requires Inv(w) && StepOk(w.a, a', out, |w.b.written|, w.b.sent)
    ensures Inv(World(a', w.b, w.toA, w.toB + Tagged(out, |a'.sent|, |w.a.written|)))
  {
    hide Low32;
    hide Sub32;
    hide Reorder;
    hide AskedOnce;
    hide Kept;
    DeliveringMoreKeepsTx(w.b, |w.a.written|, |a'.written|);
    hide NothingForgotten;
    ReadingMoreKeepsRx(w.b, w.a.sent, a'.sent);
    PacketsStayTrue(w.toB, w.a.sent, a'.sent, 0, 0);
    PacketsStayTrue(w.toA, w.a.sent, a'.sent, |w.b.written|, |w.b.written|);
    PacketsStayTrue(w.toB, w.b.sent, w.b.sent, |w.a.written|, |a'.written|);
    HonestPackets(out, a', |w.a.written|, w.b.sent);
    hide DataOk;
    hide AckOk;
    hide RxOk;
    hide TxOk;
    hide Tagged;
  }

  lemma StepKeepsInv(w: World, m: Move)
    requires Inv(w) && Allowed(w, m)
    ensures Inv(Step(w, m))
  {
    hide Flow;
    hide StepByA;
    match m
    case ByA(act) => StepByAKeepsInv(w, act);
    case ByB(act) => StepByAKeepsInv(Swap(w), act);
  }

  // ----- all runs

  lemma ConnectedIsInv(handle: u64, windowA: nat, windowB: nat)
    requires 1 <= windowA <= 64 && 1 <= windowB <= 64
    ensures Inv(Connected(handle, windowA, windowB))
  {
  }

  lemma {:induction false} RunKeepsInv(w: World, moves: seq<Move>, last: World)
    requires Inv(w) && Run(w, moves, last)
    ensures Inv(last)
    decreases |moves|
  {
    hide Inv;
    hide Step;
    hide Allowed;
    if moves != [] {
      StepKeepsInv(w, moves[0]);
      RunKeepsInv(Step(w, moves[0]), moves[1..], last);
    }
  }

  // Order, end to end: at every moment of every run, what has been written to either TCP
  // socket is a prefix of what the other end has read from its own.
  lemma DeliveredInOrder(handle: u64, windowA: nat, windowB: nat, moves: seq<Move>, w: World)
    requires 1 <= windowA <= 64 && 1 <= windowB <= 64
    requires Run(Connected(handle, windowA, windowB), moves, w)
    ensures w.b.written <= w.a.sent && w.a.written <= w.b.sent
    ensures Bytes(w.b.written) <= Bytes(w.a.sent) && Bytes(w.a.written) <= Bytes(w.b.sent)
  {
    ConnectedIsInv(handle, windowA, windowB);
    RunKeepsInv(Connected(handle, windowA, windowB), moves, w);
    BytesPrefix(w.b.written, w.a.sent);
    BytesPrefix(w.a.written, w.b.sent);
  }

  function Bytes(ps: seq<Payload>): Payload {
    if ps == [] then [] else ps[0] + Bytes(ps[1..])
  }

  lemma {:induction false} BytesPrefix(p: seq<Payload>, q: seq<Payload>)
    requires p <= q
    ensures Bytes(p) <= Bytes(q)
  {
    if p != [] {
      BytesPrefix(p[1..], q[1..]);
    }
  }

  // Every payload read at p and not yet delivered is still in its queue while it lives; there
  // are at most a window of them, the count is the queue's size, and TCP reading is off only
  // while the window is full.
  ghost predicate NothingLost(p: Peer, delivered: nat) {
    && |p.sent| - delivered <= p.e.window
    && (p.e.alive ==>
         && (forall n :: delivered < n <= |p.sent| ==>
               Low32(n) in p.e.sendMess && p.e.sendMess[Low32(n)].payload == p.sent[n - 1])
         && |p.e.sendMess| == p.e.sendCount <= p.e.window
         && (!p.e.armed ==> p.e.sendCount == p.e.window))
  }

  // Nothing is forgotten, at either end, in any run.
  lemma UndeliveredIsKept(handle: u64, windowA: nat, windowB: nat, moves: seq<Move>, w: World)
    requires 1 <= windowA <= 64 && 1 <= windowB <= 64
    requires Run(Connected(handle, windowA, windowB), moves, w)
    ensures NothingLost(w.a, |w.b.written|) && NothingLost(w.b, |w.a.written|)
  {
    RunsAreInv(handle, windowA, windowB, moves, w);
    KeptUntilDelivered(w.a, |w.b.written|);
    KeptUntilDelivered(w.b, |w.a.written|);
    hide NothingLost;
  }

  lemma RunsAreInv(handle: u64, windowA: nat, windowB: nat, moves: seq<Move>, w: World)
    requires 1 <= windowA <= 64 && 1 <= windowB <= 64
    requires Run(Connected(handle, windowA, windowB), moves, w)
    ensures Inv(w)
  {
    ConnectedIsInv(handle, windowA, windowB);
    RunKeepsInv(Connected(handle, windowA, windowB), moves, w);
  }

  lemma KeptUntilDelivered(p: Peer, delivered: nat)
    requires Sized(p.e) && TxOk(p, delivered)
    ensures NothingLost(p, delivered)
  {
    hide Low32;
    hide SerialOf;
    forall n | p.e.alive && delivered < n <= |p.sent|
      ensures Low32(n) in p.e.sendMess && p.e.sendMess[Low32(n)].payload == p.sent[n - 1]
    {
      SerialIsUnique(|p.sent|, n);
    }
  }

  // The retransmit requests strictly increase, and the reorder queue stays below the window.
  ghost predicate AsksOnce(p: Peer) {
    && (forall i, j :: 0 <= i < j < |p.asked| ==> p.asked[i] < p.asked[j])
    && (p.e.alive ==> |p.e.recvMess| == p.e.recvCount < p.e.window)
  }

  // No gap is asked for twice, however long the run.
  lemma NoGapAskedTwice(handle: u64, windowA: nat, windowB: nat, moves: seq<Move>, w: World)
    requires 1 <= windowA <= 64 && 1 <= windowB <= 64
    requires Run(Connected(handle, windowA, windowB), moves, w)
    ensures AsksOnce(w.a) && AsksOnce(w.b)
  {
    RunsAreInv(handle, windowA, windowB, moves, w);
    if w.a.e.alive { TransportReceive.FewKeys(|w.a.written|, w.a.e.window, w.a.e.recvMess.Keys); }
    if w.b.e.alive { TransportReceive.FewKeys(|w.b.written|, w.b.e.window, w.b.e.recvMess.Keys); }
    hide Run;
  }

  // k is ahead of its turn inside p's window.
  predicate Ahead(p: Peer, k: Packet) {
    && p.e.alive && k.dg.Data? && k.dg.handle == p.e.handle && Recent(p, k)
    && |p.written| + 2 <= k.serial <= |p.written| + p.e.window
  }

  // m is a gap before k that has not been asked for.
  predicate Gap(p: Peer, k: Packet, m: int) {
    |p.written| < m < k.serial && m > LastAsked(p.asked) && Low32(m) !in p.e.recvMess
  }

  // A packet ahead of its turn has every new gap before it asked for.
  ghost predicate AsksForGaps(p: Peer, inbox: set<Packet>) {
    forall k, answers, m :: k in inbox && Ahead(p, k) && AllOrNothing(answers) && Gap(p, k, m)
      ==> m in StepPeer(p, Receive(k, answers)).asked
  }

  // In every run, at either end: no gap is passed over while the last request lags by less
  // than 2^32 minus two windows.
  lemma GapsAreAskedFor(handle: u64, windowA: nat, windowB: nat, moves: seq<Move>, w: World)
    requires 1 <= windowA <= 64 && 1 <= windowB <= 64
    requires Run(Connected(handle, windowA, windowB), moves, w)
    ensures |w.a.written| - LastAsked(w.a.asked) < MOD32 - 2 * w.a.e.window ==> AsksForGaps(w.a, w.toA)
    ensures |w.b.written| - LastAsked(w.b.asked) < MOD32 - 2 * w.b.e.window ==> AsksForGaps(w.b, w.toB)
  {
    RunsAreInv(handle, windowA, windowB, moves, w);
    hide Run;
    if |w.a.written| - LastAsked(w.a.asked) < MOD32 - 2 * w.a.e.window { AheadAsksForGaps(w); }
    if |w.b.written| - LastAsked(w.b.asked) < MOD32 - 2 * w.b.e.window { AheadAsksForGaps(Swap(w)); }
    hide AsksForGaps;
    hide Inv;
  }

  lemma AheadAsksForGaps(w: World)
    requires Inv(w) && |w.a.written| - LastAsked(w.a.asked) < MOD32 - 2 * w.a.e.window
    ensures AsksForGaps(w.a, w.toA)
  {
    var p := w.a;
    forall k, answers, m | k in w.toA && Ahead(p, k) && AllOrNothing(answers) && Gap(p, k, m)
      ensures m in StepPeer(p, Receive(k, answers)).asked
    {
      hide Low32;
      hide Sub32;
      hide TxOk;
      hide RxOk;
      hide AskedFor;
      assert DataOk(w.b.sent, k);
      GapIsAskedFor(p, k, answers, |w.b.written|, w.b.sent, m);
    }
  }

  lemma GapIsAskedFor(p: Peer, k: Packet, answers: seq<TcpWrite>, delivered: nat, sent: seq<Payload>, m: int)
    requires DataArrives(p, Receive(k, answers), delivered, sent) && Ahead(p, k) && Gap(p, k, m)
    requires |p.written| - LastAsked(p.asked) < MOD32 - 2 * p.e.window
    ensures m in StepPeer(p, Receive(k, answers)).asked
  {
    hide Low32;
    hide Sub32;
    hide Add32;
    hide AskedFor;
    hide Ask;
    hide TxOk;
    ReactAhead(p, Receive(k, answers), delivered, sent);
    AheadQueued(p, k.serial, sent);
    hide React;
    hide RxOk;
    hide Reorder;
    hide TransportRetry.Asking;
    var e := Buffer(p.e, Low32(k.serial), sent[k.serial - 1]);
    if Low32(m) == Low32(k.serial) { SameLow(m, k.serial); }
    assert Low32(m) !in e.recvMess && e.recvSeq == p.e.recvSeq && e.window == p.e.window;
    hide Buffer;
    TransportRetry.AskMissesNothing(e, k.serial, |p.written|, LastAsked(p.asked), 0, m);
  }

  // The window test on a packet's 32-bit number says of its true number: next, inside the
  // window, or stale or beyond it.
  ghost predicate Classified(p: Peer, k: Packet)
    requires k.dg.Data?
  {
    var diff := Sub32(k.dg.number, p.e.recvSeq); var m, window := |p.written|, p.e.window;
    && (diff == 1 <==> k.serial == m + 1)
    && (2 <= diff <= window <==> m + 2 <= k.serial <= m + window)
    && (diff == 0 || diff > window <==> k.serial <= m || k.serial > m + window)
  }

  // At either end of every run, every packet that may arrive is classified as unbounded
  // counters would.
  lemma WindowTestIsTrue(handle: u64, windowA: nat, windowB: nat, moves: seq<Move>, w: World)
    requires 1 <= windowA <= 64 && 1 <= windowB <= 64
    requires Run(Connected(handle, windowA, windowB), moves, w)
    ensures forall k :: k in w.toA && k.dg.Data? && Recent(w.a, k) ==> Classified(w.a, k)
    ensures forall k :: k in w.toB && k.dg.Data? && Recent(w.b, k) ==> Classified(w.b, k)
  {
    RunsAreInv(handle, windowA, windowB, moves, w);
    hide Run;
    forall k | k in w.toA && k.dg.Data? && Recent(w.a, k) ensures Classified(w.a, k) {
      Classifies(w, k);
    }
    forall k | k in w.toB && k.dg.Data? && Recent(w.b, k) ensures Classified(w.b, k) {
      Classifies(Swap(w), k);
    }
  }

  lemma Classifies(w: World, k: Packet)
    requires Inv(w) && k in w.toA && k.dg.Data? && Recent(w.a, k)
    ensures Classified(w.a, k)
  {
    assert DataOk(w.b.sent, k);
    TransportReceive.WindowTest(k.serial, |w.a.written|, w.a.e.window);
    hide Low32;
    hide Sub32;
  }
}
