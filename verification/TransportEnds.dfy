// How a session ends, and what an end loses: a closing session waits for both of its queues, a
// message whose acknowledgement never arrives keeps it waiting, and the end of the local stream
// does not wait at all.
module TransportEnds {
  import opened Wire
  import opened EndSpec
  import opened Transport
  import opened TransportRuns
  import opened TransportLimits
  import TransportBudget
  import TransportSend

  // ----- a closing session

  // A session goes by try-delete exactly if it is closing and both queues are empty; and then
  // it tells the peer.
  lemma ClosingWaitsForQueues(e: Endpoint)
    requires e.alive
    ensures !TryDelete(e).e.alive <==> e.status == 3 && e.sendMess == map[] && e.recvMess == map[]
    ensures TryDelete(e).e.alive ==> TryDelete(e) == Quiet(e)
    ensures !TryDelete(e).e.alive ==> TryDelete(e).out == [Close(e.handle)]
  {
  }

  // A message whose tries have run out stays in the queue, so the session only starts closing.
  lemma ExhaustedStays(e: Endpoint, number: u32)
    requires e.alive && number in e.sendMess && e.sendMess[number].retries > e.window
    ensures var o := RequestTimeout(e, number);
      o.e.alive && o.e.status == 3 && o.e.sendMess.Keys == e.sendMess.Keys && o.out == []
  {
    var m := e.sendMess[number];
    var e1 := e.(status := 3, sendMess := e.sendMess[number := m.(retries := m.retries + 1, timer := false)]);
    assert number in e1.sendMess;
    ClosingWaitsForQueues(e1);
  }

  // What ends a session that still keeps a message.
  predicate Ending(e: Endpoint, act: Action) {
    match act
    case Idle => true
    case Readable(read) => read.Closed? && e.sendCount < e.window
    case Fires(_) => false
    case Receive(k, _) =>
      k.dg.handle == e.handle &&
      match k.dg
      case Close(_) => true
      case Response(_, number, value) => number in e.sendMess && value < 0 && value != ValidLength(e.sendMess[number])
      case _ => false
  }

  predicate Acknowledges(e: Endpoint, act: Action, number: u32) {
    && act.Receive? && act.packet.dg.handle == e.handle && act.packet.dg.Response?
    && act.packet.dg.number == number && number in e.sendMess && act.packet.dg.value == ValidLength(e.sendMess[number])
  }

  lemma DeliverOneStays(e: Endpoint, number: u32, p: Payload, w: TcpWrite)
    requires e.alive && e.sendMess != map[]
    ensures DeliverOne(e, number, p, w).o.e.alive
  {
    hide Add32;
    hide Sub32;
  }

  lemma {:induction false} DrainStays(e: Endpoint, number: u32, p: Payload, answers: seq<TcpWrite>, k: nat)
    requires e.alive && e.sendMess != map[]
    ensures Drain(e, number, p, answers, k).e.alive
    decreases |e.recvMess|
  {
    DeliverOneStays(e, number, p, Answer(answers, k));
    TransportBudget.DeliverKeepsQueue(e, number, p, Answer(answers, k));
    var d := DeliverOne(e, number, p, Answer(answers, k));
    hide DeliverOne;
    if d.more {
      DrainStays(d.o.e, d.number, d.payload, answers, k + 1);
    }
  }

  lemma DataStays(e: Endpoint, number: u32, p: Payload, answers: seq<TcpWrite>)
    requires e.alive && e.sendMess != map[]
    ensures HandleDataRequest(e, number, p, answers).e.alive
    ensures HandleDataRequest(e, number, p, answers).e.sendMess == e.sendMess
  {
    DrainStays(e, number, p, answers, 0);
    TransportBudget.DataKeepsQueue(e, number, p, answers);
    hide Drain;
    hide Ask;
    hide Add32;
    hide Sub32;
  }

  // While a message is kept and not acknowledged, exactly the ending events end the session,
  // and no other event takes the message away.
  lemma KeptUntilEnding(e: Endpoint, act: Action, number: u32)
    requires e.alive && Enabled(e, act) && number in e.sendMess && !Acknowledges(e, act, number)
    ensures React(e, act).e.alive <==> !Ending(e, act)
    ensures React(e, act).e.alive ==> number in React(e, act).e.sendMess
  {
    match act
    case Receive(k, answers) => ReceivedUntilEnding(e, act, number);
    case Fires(n) =>
      TransportLimits.FiringIs(e, n);
      hide React;
      if e.sendMess[n].retries > e.window { ExhaustedStays(e, n); }
    case Readable(_) =>
      hide Add32;
    case Idle =>
  }

  lemma ReceivedUntilEnding(e: Endpoint, act: Action, number: u32)
    requires e.alive && act.Receive? && number in e.sendMess && !Acknowledges(e, act, number)
    ensures React(e, act).e.alive <==> !Ending(e, act)
    ensures React(e, act).e.alive ==> number in React(e, act).e.sendMess
  {
    hide ValidLength;
    hide Shortened;
    hide Sub32;
    hide HandleDataRequest;
    var d := act.packet.dg;
    if d.handle == e.handle {
      match d
      case Data(_, n, p) => DataStays(e, n, p, act.answers);
      case Response(_, n, value) => AnsweredUntilEnding(e, n, value, number);
      case _ =>
    }
    hide HandleDataResponse;
  }

  lemma AnsweredUntilEnding(e: Endpoint, n: u32, value: int, number: u32)
    requires e.alive && number in e.sendMess
    requires n == number ==> value != ValidLength(e.sendMess[number])
    ensures var e' := HandleDataResponse(e, n, value).e;
      && (e'.alive <==> !(n in e.sendMess && value < 0 && value != ValidLength(e.sendMess[n])))
      && (e'.alive ==> number in e'.sendMess)
  {
    hide ValidLength;
    hide Shortened;
    hide Sub32;
  }

  // ----- a lost acknowledgement, over a run

  // End a lives and keeps message n.
  predicate Keeps(w: World, n: int) {
    && w.a.e.alive && 1 <= n <= |w.a.sent| < n + MOD32 && Low32(n) in w.a.e.sendMess
  }

  // The move brings end a an acknowledgement of message n.
  predicate Brings(m: Move, n: int) {
    m.ByA? && m.act.Receive? && m.act.packet.dg.Response? && m.act.packet.serial == n && m.act.packet.dg.value > 0
  }

  // A run from w that never brings an acknowledgement of message n and has no ending event at a.
  predicate Waits(w: World, moves: seq<Move>, n: int)
    decreases |moves|
  {
    moves == [] ||
    (!Brings(moves[0], n) && (moves[0].ByA? ==> !Ending(w.a.e, moves[0].act)) && Waits(Step(w, moves[0]), moves[1..], n))
  }

  lemma NotBroughtIsNotAcknowledged(w: World, m: Move, n: int)
    requires Inv(w) && Allowed(w, m) && Keeps(w, n) && m.ByA? && !Brings(m, n)
    ensures !Acknowledges(w.a.e, m.act, Low32(n))
  {
    SerialIsUnique(|w.a.sent|, n);
    if Acknowledges(w.a.e, m.act, Low32(n)) {
      var k := m.act.packet;
      hide Low32;
      hide SerialOf;
      hide RxOk;
      assert AckOk(w.a.sent, |w.b.written|, k);
      TransportSend.KeptInFull(w.a, k.dg.number, |w.b.written|);
      hide TxOk;
      hide ValidLength;
      hide Shortened;
      AckIsFor(w, k, n);
    }
  }

  lemma AckIsFor(w: World, k: Packet, n: int)
    requires Inv(w) && w.a.e.alive && k.dg.Response? && k.dg.number == Low32(n) && Low32(n) in w.a.e.sendMess
    requires AckOk(w.a.sent, |w.b.written|, k) && k.dg.value > 0 && Recent(w.a, k) && SerialOf(|w.a.sent|, Low32(n)) == n
    ensures k.serial == n
  {
    hide Low32;
    hide SerialOf;
    hide RxOk;
    TransportSend.AckIsForKept(w.a, k, |w.b.written|);
  }

  // One step of such a run: end a goes exactly if the event is an ending one, and until then
  // it keeps the message.
  lemma StepKeeps(w: World, m: Move, n: int)
    requires Inv(w) && Allowed(w, m) && Keeps(w, n) && !Brings(m, n)
    ensures Step(w, m).a.e.alive <==> !(m.ByA? && Ending(w.a.e, m.act))
    ensures Step(w, m).a.e.alive ==> Keeps(Step(w, m), n)
  {
    if m.ByA? {
      NotBroughtIsNotAcknowledged(w, m, n);
      KeptUntilEnding(w.a.e, m.act, Low32(n));
      SentGrows(w.a, m.act, |w.b.written|, n);
      hide React;
      hide Ending;
      hide Low32;
      hide Inv;
      hide AskedFor;
    }
  }

  lemma SentGrows(p: Peer, act: Action, delivered: nat, n: int)
    requires TxOk(p, delivered) && Enabled(p.e, act) && Timely(p, act)
    requires 1 <= n <= |p.sent| < n + MOD32 && Low32(n) in p.e.sendMess
    ensures |p.sent| <= |StepPeer(p, act).sent| < n + MOD32
  {
    AddToLow(|p.sent|, 1);
    if |p.sent| + 1 == n + MOD32 {
      LowIsPeriodic(|p.sent| + 1);
    }
    hide Low32;
    hide Add32;
    hide React;
    hide AskedFor;
  }

  // The retries running out, the peer closing up, try-delete: nothing but an ending event ends
  // a session one of whose messages is never acknowledged.
  lemma {:induction false} LostAckWaits(w: World, moves: seq<Move>, last: World, n: int)
    requires Inv(w) && Run(w, moves, last) && Keeps(w, n) && Waits(w, moves, n)
    ensures Keeps(last, n)
    decreases |moves|
  {
    hide Inv;
    hide Step;
    hide Allowed;
    hide Keeps;
    hide Ending;
    if moves != [] {
      StepKeepsInv(w, moves[0]);
      StepKeeps(w, moves[0], n);
      KeepsIsAlive(w, n);
      LostAckWaits(Step(w, moves[0]), moves[1..], last, n);
    }
  }

  lemma KeepsIsAlive(w: World, n: int)
    ensures Keeps(w, n) ==> w.a.e.alive
  {
  }

  // ----- the end of the local stream

  lemma ReactKeepsHandle(e: Endpoint, act: Action)
    requires Enabled(e, act)
    ensures React(e, act).e.handle == e.handle
  {
    hide Add32;
    hide Sub32;
    hide ValidLength;
    hide HandleDataRequest;
    if act.Receive? && act.packet.dg.Data? {
      TransportBudget.DataKeepsQueue(e, act.packet.dg.number, act.packet.dg.payload, act.answers);
    }
  }

  lemma StepKeepsHandles(w: World, m: Move)
    ensures Step(w, m).a.e.handle == w.a.e.handle && Step(w, m).b.e.handle == w.b.e.handle
  {
    match m
    case ByA(act) =>
      if Enabled(w.a.e, act) { ReactKeepsHandle(w.a.e, act); }
      hide React;
    case ByB(act) =>
      if Enabled(w.b.e, act) { ReactKeepsHandle(w.b.e, act); }
      hide React;
  }

  lemma {:induction false} RunKeepsHandles(w: World, moves: seq<Move>, last: World)
    requires Run(w, moves, last)
    ensures last.a.e.handle == w.a.e.handle && last.b.e.handle == w.b.e.handle
    decreases |moves|
  {
    if moves != [] {
      StepKeepsHandles(w, moves[0]);
      hide Step;
      hide Allowed;
      RunKeepsHandles(Step(w, moves[0]), moves[1..], last);
    }
  }

  // An end that is gone reads, writes and sends nothing.
  lemma DeadStep(w: World, act: Action)
    requires !w.a.e.alive && AllowedByA(w, act)
    ensures StepByA(w, act) == w
  {
    assert React(w.a.e, act) == Quiet(w.a.e);
    assert w.a.sent + [] == w.a.sent && w.a.written + [] == w.a.written && w.a.asked + [] == w.a.asked;
    assert w.toB + {} == w.toB && Tagged([], |w.a.sent|, |w.a.written|) == {};
    hide React;
  }

  // End a reads the end of its local stream, and the peer is told: the queue is dropped, and
  // both ends are gone.
  function AfterEof(w: World): World {
    Step(Step(w, ByA(Readable(Closed))), ByB(Receive(Packet(Close(w.a.e.handle), 0), [])))
  }

  lemma EofEnds(w: World)
    requires w.a.e.alive && w.b.e.alive && w.a.e.armed && w.a.e.sendCount < w.a.e.window && w.b.e.handle == w.a.e.handle
    ensures var m1, m2 := ByA(Readable(Closed)), ByB(Receive(Packet(Close(w.a.e.handle), 0), []));
      Allowed(w, m1) && Allowed(Step(w, m1), m2)
    ensures var w' := AfterEof(w);
      && !w'.a.e.alive && !w'.b.e.alive && w'.a.e.sendMess == map[]
      && w'.a.sent == w.a.sent && w'.b.written == w.b.written
  {
    var m1 := ByA(Readable(Closed));
    OneOut(Close(w.a.e.handle), |w.a.sent|, |w.a.written|, w.a.e.recvSeq);
    var w1 := Step(w, m1);
    assert React(w.a.e, Readable(Closed)) == Delete(w.a.e, false);
    assert w1.toB == w.toB + {Packet(Close(w.a.e.handle), 0)} && w1.b == w.b;
    assert w1.a.e == Delete(w.a.e, false).e && w1.a.sent == w.a.sent + [];
    assert Allowed(w, m1);
    EofArrives(w1, Packet(Close(w.a.e.handle), 0));
    hide Step;
    hide Allowed;
  }

  lemma EofArrives(w: World, k: Packet)
    requires w.b.e.alive && k.dg == Close(w.b.e.handle) && k in w.toB
    ensures var m := ByB(Receive(k, []));
      Allowed(w, m) && Step(w, m).a == w.a && !Step(w, m).b.e.alive && Step(w, m).b.written == w.b.written
  {
    assert React(w.b.e, Receive(k, [])) == Delete(w.b.e, true);
    assert w.b.written + [] == w.b.written;
    hide React;
    hide Tagged;
    hide AskedFor;
  }

  // An end that is gone stays as it is, whatever the other does.
  lemma {:induction false} DeadStays(w: World, moves: seq<Move>, last: World)
    requires !w.a.e.alive && Run(w, moves, last)
    ensures last.a == w.a
    decreases |moves|
  {
    if moves != [] {
      DeadAfter(w, moves[0]);
      hide Step;
      hide Allowed;
      DeadStays(Step(w, moves[0]), moves[1..], last);
    }
  }

  lemma DeadAfter(w: World, m: Move)
    requires !w.a.e.alive && Allowed(w, m)
    ensures Step(w, m).a == w.a
  {
    if m.ByA? { DeadStep(w, m.act); }
    hide StepByA;
  }

  lemma {:induction false} WritesOnlyGrow(w: World, moves: seq<Move>, last: World)
    requires Run(w, moves, last)
    ensures w.b.written <= last.b.written
    decreases |moves|
  {
    if moves != [] {
      assert w.b.written <= Step(w, moves[0]).b.written by { hide React; hide AskedFor; }
      hide Step;
      hide Allowed;
      WritesOnlyGrow(Step(w, moves[0]), moves[1..], last);
    }
  }

  // Exactly the payloads read and not yet delivered when the stream ends may be lost for good,
  // though all of them were still kept: whatever happens until the peer is gone too, everything
  // that was read has arrived if and only if nothing was outstanding.
  lemma EofLosesUndelivered(handle: u64, windowA: nat, windowB: nat, moves: seq<Move>, w: World)
    requires 1 <= windowA <= 64 && 1 <= windowB <= 64
    requires Run(Connected(handle, windowA, windowB), moves, w)
    requires w.a.e.alive && w.b.e.alive && w.a.e.armed && w.a.e.sendCount < w.a.e.window
    ensures NothingLost(w.a, |w.b.written|)
    ensures var w1 := Step(w, ByA(Readable(Closed))); !w1.a.e.alive && w1.a.e.sendMess == map[]
    ensures (forall rest, last :: Run(Step(w, ByA(Readable(Closed))), rest, last) && !last.b.e.alive
                                  ==> last.b.written == last.a.sent)
            <==> |w.b.written| == |w.a.sent|
  {
    hide Run;
    hide Inv;
    hide NothingLost;
    hide Step;
    hide Allowed;
    UndeliveredIsKept(handle, windowA, windowB, moves, w);
    RunsAreInv(handle, windowA, windowB, moves, w);
    RunKeepsHandles(Connected(handle, windowA, windowB), moves, w);
    EofKeeps(w);
    EofEnds(w);
    var w1 := Step(w, ByA(Readable(Closed)));
    StepKeepsInv(w, ByA(Readable(Closed)));
    if |w.b.written| == |w.a.sent| {
      forall rest, last | Run(w1, rest, last) && !last.b.e.alive ensures last.b.written == last.a.sent {
        AllHadArrived(w1, rest, last);
      }
    } else {
      OneMoveRun(w1, ByB(Receive(Packet(Close(w.a.e.handle), 0), [])));
      assert AfterEof(w).b.written != AfterEof(w).a.sent;
    }
  }

  lemma EofKeeps(w: World)
    requires w.a.e.alive && w.a.e.sendCount < w.a.e.window
    ensures var w1 := Step(w, ByA(Readable(Closed)));
      !w1.a.e.alive && w1.a.e.sendMess == map[] && w1.a.sent == w.a.sent && w1.b == w.b
  {
    assert w.a.sent + [] == w.a.sent;
    hide AskedFor;
    hide Tagged;
  }

  lemma AllHadArrived(w: World, rest: seq<Move>, last: World)
    requires Inv(w) && !w.a.e.alive && |w.b.written| == |w.a.sent| && Run(w, rest, last)
    ensures last.b.written == last.a.sent
  {
    RunKeepsInv(w, rest, last);
    DeadStays(w, rest, last);
    WritesOnlyGrow(w, rest, last);
    hide Run;
  }

  lemma OneMoveRun(w: World, m: Move)
    requires Allowed(w, m)
    ensures Run(w, [m], Step(w, m))
  {
    hide Allowed;
    hide Step;
    assert [m][1..] == [];
    assert Run(Step(w, m), [], Step(w, m));
  }

  // ----- the close inside the delivery loop

  // A turn of the loop that has taken the next payload out of the queue goes on to write it
  // unless that leaves a closing session with nothing: then the session is freed first, and
  // the payload is dropped.
  lemma LastQueuedIsDropped(e: Endpoint, number: u32, p: Payload)
    requires e.alive && p != [] && Add32(number, 1) in e.recvMess
    ensures DeliverOne(e, number, p, All).more
            <==> !(e.status == 3 && e.sendMess == map[] && e.recvMess.Keys == {Add32(number, 1)})
  {
    var next := Add32(number, 1);
    hide Add32;
    hide Sub32;
    assert (e.recvMess - {next}).Keys == e.recvMess.Keys - {next};
    assert e.recvMess - {next} == map[] <==> (e.recvMess - {next}).Keys == {};
    assert e.recvMess.Keys - {next} == {} <==> e.recvMess.Keys == {next};
  }

  // In that case only the packet that arrived is written, and nothing is left.
  lemma DroppedForGood(e: Endpoint, number: u32, p: Payload, answers: seq<TcpWrite>, k: nat)
    requires e.alive && p != [] && Answer(answers, k) == All
    requires e.status == 3 && e.sendMess == map[] && e.recvMess.Keys == {Add32(number, 1)}
    ensures var o := Drain(e, number, p, answers, k);
      o.wrote == [p] && !o.e.alive && o.e.recvMess == map[] && o.out == [Response(e.handle, number, |p|), Close(e.handle)]
  {
    LastQueuedIsDropped(e, number, p);
    var next := Add32(number, 1);
    hide Add32;
    hide Sub32;
    assert e.recvMess - {next} == map[];
    assert DeliverOne(e, number, p, All).o.out == [Response(e.handle, number, |p|)] + [Close(e.handle)];
    hide Drain;
    DrainOnce(e, number, p, answers, k);
  }

  lemma DrainOnce(e: Endpoint, number: u32, p: Payload, answers: seq<TcpWrite>, k: nat)
    ensures var d := DeliverOne(e, number, p, Answer(answers, k)); !d.more ==> Drain(e, number, p, answers, k) == d.o
  {
    hide DeliverOne;
  }

  // ----- a run in which that happens

  lemma SecondHalf(w: World, act: Action)
    requires Enabled(w.b.e, act)
    ensures var w' := Step(w, ByB(act)); var o := React(w.b.e, act);
      w'.a == w.a && w'.toB == w.toB && w'.b.e == o.e && w'.b.written == w.b.written + o.wrote
  {
    hide React;
    hide AskedFor;
    hide Tagged;
  }

  // A payload read in the usual way: what is sent, and under which true number.
  lemma ReadingOne(w: World, payload: Payload)
    requires w.a.e.alive && w.a.e.armed && w.a.e.sendCount < w.a.e.window && 1 <= |payload| <= PAYLOAD_MAX
    requires var number := Low32(|w.a.sent| + 1); Add32(w.a.e.sendSeq, 1) == number && number !in w.a.e.sendMess
    ensures var m := ByA(Readable(Got(payload))); var number := Low32(|w.a.sent| + 1); var w' := Step(w, m);
      && Allowed(w, m) && w'.b == w.b && w'.a.e == AddRequest(w.a.e, payload).e && w'.a.sent == w.a.sent + [payload]
      && w'.toB == w.toB + {Packet(Data(w.a.e.handle, number, payload), |w.a.sent| + 1)}
  {
    var n := |w.a.sent| + 1;
    var d := Data(w.a.e.handle, Low32(n), payload);
    NewestOut(d, n, |w.a.written|);
    assert React(w.a.e, Readable(Got(payload))) == AddRequest(w.a.e, payload);
    assert AddRequest(w.a.e, payload).out == [d];
    hide React;
    hide AddRequest;
    hide Tagged;
    hide AskedFor;
    hide Low32;
  }

  function DataPacket(s: Pair, number: u32, p: Payload): Packet {
    Packet(Data(s.handle, number, p), number)
  }

  // Both payloads are on their way, and nothing has arrived.
  predicate BothSent(s: Pair, p1: Payload, p2: Payload, w: World) {
    && w.a.sent == [p1, p2] && w.b == Peer(Fresh(s.handle, s.windowB), [], [], [])
    && DataPacket(s, 1, p1) in w.toB && DataPacket(s, 2, p2) in w.toB
  }

  lemma ReadingTwo(s: Pair, p1: Payload, p2: Payload)
    requires 2 <= s.windowA && 1 <= |p1| <= PAYLOAD_MAX && 1 <= |p2| <= PAYLOAD_MAX
    ensures var m1, m2 := ByA(Readable(Got(p1))), ByA(Readable(Got(p2))); var w1 := Step(Start(s), m1);
      Allowed(Start(s), m1) && Allowed(w1, m2) && BothSent(s, p1, p2, Step(w1, m2))
  {
    hide Step;
    hide Allowed;
    FirstIsCounted(s, p1);
    hide Low32;
    hide Add32;
    hide AddRequest;
    var w := Start(s);
    ReadingOne(w, p1);
    var w1 := Step(w, ByA(Readable(Got(p1))));
    assert w1.a.sent == [p1] && w1.a.e == AddRequest(Fresh(s.handle, s.windowA), p1).e;
    ReadingOne(w1, p2);
  }

  lemma FirstIsCounted(s: Pair, p1: Payload)
    ensures Low32(1) == 1 && Low32(2) == 2 && Add32(0, 1) == 1 && Add32(1, 1) == 2
    ensures var e := Fresh(s.handle, s.windowA); var e1 := AddRequest(e, p1).e;
      e1.sendSeq == 1 && e1.sendMess.Keys == {1} && e1.sendCount == 1
      && e1.alive && e1.armed && e1.window == s.windowA && e1.handle == s.handle
  {
  }

  // The second arrives first and is queued ...
  predicate Queued(s: Pair, p2: Payload, e: Endpoint, status: int) {
    e == Fresh(s.handle, s.windowB).(recvMess := map[2 := p2], recvCount := 1, retrySeq := e.retrySeq, status := status)
  }

  lemma Queueing(s: Pair, p2: Payload)
    requires 2 <= s.windowB
    ensures var o := React(Fresh(s.handle, s.windowB), Receive(DataPacket(s, 2, p2), []));
      Queued(s, p2, o.e, 2) && o.wrote == []
  {
    var e := Fresh(s.handle, s.windowB);
    assert Sub32(2, 0) == 2 && Add32(0, 1) == 1;
    hide Sub32;
    hide Add32;
    var e1 := Buffer(e, 2, p2);
    var empty: map<u32, Payload> := map[];
    assert e1.recvMess == empty[2 := p2] == map[2 := p2] && e1.recvCount == 1;
    assert React(e, Receive(DataPacket(s, 2, p2), [])) == Ask(e1, 2, 0);
    hide React;
  }

  // ... a local write that fails starts the closing, which waits for the queue ...
  lemma Failing(s: Pair, p1: Payload, p2: Payload, e: Endpoint)
    requires 2 <= s.windowB && Queued(s, p2, e, 2) && p1 != []
    ensures var o := React(e, Receive(DataPacket(s, 1, p1), [Failed])); Queued(s, p2, o.e, 3) && o.wrote == []
  {
    assert Sub32(1, 0) == 1;
    hide Sub32;
    hide Add32;
    assert 2 in e.recvMess;
    var o := Drain(e, 1, p1, [Failed], 0);
    assert o.e == e.(status := 3) && o.wrote == [];
    assert React(e, Receive(DataPacket(s, 1, p1), [Failed])) == o;
    hide React;
    hide Drain;
  }

  // ... and a copy of the first empties it, without the second being written.
  lemma Dropping(s: Pair, p1: Payload, p2: Payload, e: Endpoint)
    requires 2 <= s.windowB && Queued(s, p2, e, 3) && p1 != []
    ensures var o := React(e, Receive(DataPacket(s, 1, p1), [])); !o.e.alive && o.wrote == [p1]
  {
    assert Sub32(1, 0) == 1 && Add32(1, 1) == 2;
    hide Sub32;
    hide Add32;
    assert e.recvMess.Keys == {2};
    DroppedForGood(e, 1, p1, [], 0);
    assert React(e, Receive(DataPacket(s, 1, p1), [])) == Drain(e, 1, p1, [], 0);
    hide React;
    hide Drain;
  }

  // For any two payloads, a run with every hypothesis met in which both arrive, the second is
  // queued, and the first alone is ever written.
  lemma QueuedPayloadIsDropped(s: Pair, p1: Payload, p2: Payload) returns (moves: seq<Move>, before: World, m: Move)
    requires 2 <= s.windowA <= 64 && 2 <= s.windowB <= 64 && 1 <= |p1| <= PAYLOAD_MAX && 1 <= |p2| <= PAYLOAD_MAX
    ensures Run(Start(s), moves, before) && Allowed(before, m)
    ensures before.a.sent == [p1, p2] && before.b.e.recvMess == map[2 := p2] && before.b.written == []
    ensures !Step(before, m).b.e.alive && Step(before, m).b.written == [p1]
  {
    hide Step;
    hide Allowed;
    hide React;
    hide Queued;
    hide Start;
    ReadingTwo(s, p1, p2);
    var m1, m2 := ByA(Readable(Got(p1))), ByA(Readable(Got(p2)));
    var w1 := Step(Start(s), m1);
    var w2 := Step(w1, m2);
    var m3, m4 := ByB(Receive(DataPacket(s, 2, p2), [])), ByB(Receive(DataPacket(s, 1, p1), [Failed]));
    m := ByB(Receive(DataPacket(s, 1, p1), []));
    DataMayArrive(w2, DataPacket(s, 2, p2), []);
    SecondHalf(w2, m3.act);
    Queueing(s, p2);
    var w3 := Step(w2, m3);
    assert w3.b.written == [] && Queued(s, p2, w3.b.e, 2);
    DataMayArrive(w3, DataPacket(s, 1, p1), [Failed]);
    SecondHalf(w3, m4.act);
    Failing(s, p1, p2, w3.b.e);
    before := Step(w3, m4);
    assert before.b.written == [] && Queued(s, p2, before.b.e, 3);
    DataMayArrive(before, DataPacket(s, 1, p1), []);
    SecondHalf(before, m.act);
    Dropping(s, p1, p2, before.b.e);
    QueuedIs(s, p2, before.b.e);
    moves := [m1, m2, m3, m4];
    FourMoves(Start(s), m1, m2, m3, m4);
  }

  lemma QueuedIs(s: Pair, p2: Payload, e: Endpoint)
    requires Queued(s, p2, e, 3)
    ensures e.recvMess == map[2 := p2]
  {
  }

  lemma DataMayArrive(w: World, k: Packet, answers: seq<TcpWrite>)
    requires k in w.toB && k.dg.Data? && |w.b.written| <= k.serial && AllOrNothing(answers)
    ensures Allowed(w, ByB(Receive(k, answers)))
  {
  }

  lemma FourMoves(w: World, m1: Move, m2: Move, m3: Move, m4: Move)
    requires Allowed(w, m1)
    requires var w1 := Step(w, m1); var w2 := Step(w1, m2); Allowed(w1, m2) && Allowed(w2, m3) && Allowed(Step(w2, m3), m4)
    ensures Run(w, [m1, m2, m3, m4], Step(Step(Step(Step(w, m1), m2), m3), m4))
  {
    hide Step;
    hide Allowed;
    var w1 := Step(w, m1);
    var w2 := Step(w1, m2);
    var w3 := Step(w2, m3);
    OneMoveRun(w3, m4);
    MoveFirst(w2, m3, [m4], Step(w3, m4));
    MoveFirst(w1, m2, [m3, m4], Step(w3, m4));
    MoveFirst(w, m1, [m2, m3, m4], Step(w3, m4));
    assert [m3] + [m4] == [m3, m4] && [m2] + [m3, m4] == [m2, m3, m4] && [m1] + [m2, m3, m4] == [m1, m2, m3, m4];
  }

  lemma MoveFirst(w: World, m: Move, rest: seq<Move>, last: World)
    requires Allowed(w, m) && Run(Step(w, m), rest, last)
    ensures Run(w, [m] + rest, last)
  {
    hide Step;
    hide Allowed;
    assert ([m] + rest)[0] == m && ([m] + rest)[1..] == rest;
  }
}
