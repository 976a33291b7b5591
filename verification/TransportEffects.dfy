// What each event does, and not only what it keeps: the queue an acknowledgement leaves, the
// datagram a request brings, the answer a local write earns.
module TransportEffects {
  import opened Wire
  import opened EndSpec
  import opened Transport
  import opened TransportRuns
  import TransportEnds
  import TransportLimits
  import TransportReceive
  import TransportSend

  // ----- worlds that differ by what one end did

  // End a is in state e', nothing was read, written or asked for, and these packets were sent.
  function Now(w: World, e': Endpoint, packets: set<Packet>): World {
    World(w.a.(e := e'), w.b, w.toA, w.toB + packets)
  }

  predicate OnesOwn(e: Endpoint, k: Packet) {
    e.alive && k.dg.handle == e.handle
  }

  // The session is freed with both queues, and tells the peer if told.
  predicate Freed(w: World, w': World, told: bool) {
    && !w'.a.e.alive && w'.a.e.sendMess == map[] && w'.a.e.recvMess == map[]
    && w' == Now(w, w'.a.e, if told then {Packet(Close(w.a.e.handle), 0)} else {})
  }

  lemma SilentStep(w: World, act: Action)
    requires Enabled(w.a.e, act) && ReadBy(w.a.e, act) == []
    requires var o := React(w.a.e, act); o.out == [] && o.wrote == []
    ensures StepByA(w, act) == Now(w, React(w.a.e, act).e, {})
  {
    hide React;
    assert w.a.sent + [] == w.a.sent && w.a.written + [] == w.a.written && w.a.asked + [] == w.a.asked;
    assert Tagged([], |w.a.sent|, |w.a.written|) == {};
  }

  lemma TellingStep(w: World, act: Action, d: Datagram)
    requires Enabled(w.a.e, act) && ReadBy(w.a.e, act) == [] && !d.Retrans?
    requires var o := React(w.a.e, act); o.out == [d] && o.wrote == []
    ensures StepByA(w, act) == Now(w, React(w.a.e, act).e, {Tag(d, 0, |w.a.sent|, |w.a.written|)})
  {
    hide React;
    TransportLimits.OneOut(d, |w.a.sent|, |w.a.written|, w.a.e.recvSeq);
    hide Tagged;
    hide AskedFor;
    hide Tag;
    assert w.a.sent + [] == w.a.sent && w.a.written + [] == w.a.written && w.a.asked + [] == w.a.asked;
  }

  lemma FreedStep(w: World, act: Action)
    requires Enabled(w.a.e, act) && ReadBy(w.a.e, act) == []
    requires var o := React(w.a.e, act);
      && !o.e.alive && o.e.sendMess == map[] && o.e.recvMess == map[] && o.wrote == []
      && (o.out == [] || o.out == [Close(w.a.e.handle)])
    ensures Freed(w, StepByA(w, act), React(w.a.e, act).out != [])
  {
    if React(w.a.e, act).out == [] {
      SilentStep(w, act);
    } else {
      TellingStep(w, act, Close(w.a.e.handle));
    }
    hide React;
    hide StepByA;
  }

  // ----- responses, at any end in any state

  // The bytes a message still has to have acknowledged; negative once they were exceeded.
  function Unacknowledged(m: Message): int {
    if m.over > 0 then -(m.over as int) else |m.payload|
  }

  lemma AnswerEffect(e: Endpoint, k: Packet, answers: seq<TcpWrite>)
    requires OnesOwn(e, k) && k.dg.Response?
    ensures var number, value := k.dg.number, k.dg.value; var o := React(e, Receive(k, answers));
      && o.wrote == []
      && (number !in e.sendMess ==> o.e == e && o.out == [])
      && (number in e.sendMess ==>
           var m := e.sendMess[number];
           if value == Signed(Bits(Unacknowledged(m))) then
             if e.status == 3 && e.sendMess.Keys == {number} && e.recvMess == map[] then
               !o.e.alive && o.e.sendMess == map[] && o.e.recvMess == map[] && o.out == [Close(e.handle)]
             else
               o.out == [] && o.e == e.(sendMess := e.sendMess - {number}, sendCount := Sub32(e.sendCount, 1), armed := true)
           else if value >= 0 then
             && o.out == [] && o.e.sendMess.Keys == e.sendMess.Keys && o.e == e.(sendMess := o.e.sendMess)
             && (forall j :: j in e.sendMess && j != number ==> o.e.sendMess[j] == e.sendMess[j])
             && var m' := o.e.sendMess[number];
                && Unacknowledged(m') == Unacknowledged(m) - value
                && m'.number == m.number && m'.retries == m.retries && m'.timer == m.timer
           else
             !o.e.alive && o.e.sendMess == map[] && o.e.recvMess == map[] && o.out == [Close(e.handle)])
  {
    var number := k.dg.number;
    hide Sub32;
    hide Bits;
    hide Signed;
    hide HandleDataRequest;
    if number in e.sendMess {
      assert (e.sendMess - {number}).Keys == e.sendMess.Keys - {number};
      assert e.sendMess - {number} == map[] <==> (e.sendMess - {number}).Keys == {};
      assert e.sendMess.Keys - {number} == {} <==> e.sendMess.Keys == {number};
    }
  }

  // ----- responses, in every run

  // What a full acknowledgement of a kept message leaves.
  predicate MessageTaken(w: World, number: u32, w': World)
    requires number in w.a.e.sendMess
  {
    var e := w.a.e;
    if e.status == 3 && e.sendMess.Keys == {number} && e.recvMess == map[] then Freed(w, w', true)
    else
      && e.sendCount >= 1
      && w' == Now(w, e.(sendMess := e.sendMess - {number}, sendCount := e.sendCount - 1, armed := true), {})
  }

  ghost predicate AcksTakeMessages(w: World) {
    forall k, answers ::
      AllowedByA(w, Receive(k, answers)) && OnesOwn(w.a.e, k) && k.dg.Response? && k.dg.number in w.a.e.sendMess && k.dg.value > 0
      ==> MessageTaken(w, k.dg.number, StepByA(w, Receive(k, answers)))
  }

  // An answer of 0, or one to a message no longer kept, changes nothing; a negative one ends
  // the session that keeps the message.
  ghost predicate OtherAnswers(w: World) {
    forall k, answers ::
      AllowedByA(w, Receive(k, answers)) && OnesOwn(w.a.e, k) && k.dg.Response?
      ==> && (k.dg.number !in w.a.e.sendMess || k.dg.value == 0 ==> StepByA(w, Receive(k, answers)) == w)
          && (k.dg.number in w.a.e.sendMess && k.dg.value < 0 ==> Freed(w, StepByA(w, Receive(k, answers)), true))
  }

  lemma AckTakesMessage(w: World, k: Packet, answers: seq<TcpWrite>)
    requires Inv(w) && AllowedByA(w, Receive(k, answers)) && OnesOwn(w.a.e, k)
    requires k.dg.Response? && k.dg.number in w.a.e.sendMess && k.dg.value > 0
    ensures MessageTaken(w, k.dg.number, StepByA(w, Receive(k, answers)))
  {
    var act := Receive(k, answers);
    AnswerEffect(w.a.e, k, answers);
    AckIsCounted(w, k, answers);
    hide React;
    hide Inv;
    hide AllowedByA;
    hide ValidLength;
    if React(w.a.e, act).out == [] { SilentStep(w, act); } else { FreedStep(w, act); }
    hide StepByA;
  }

  lemma AckIsCounted(w: World, k: Packet, answers: seq<TcpWrite>)
    requires Inv(w) && AllowedByA(w, Receive(k, answers)) && OnesOwn(w.a.e, k)
    requires k.dg.Response? && k.dg.number in w.a.e.sendMess && k.dg.value > 0
    ensures k.dg.value == Signed(Bits(Unacknowledged(w.a.e.sendMess[k.dg.number])))
    ensures w.a.e.sendCount >= 1 && Sub32(w.a.e.sendCount, 1) == w.a.e.sendCount - 1
  {
    assert AckOk(w.a.sent, |w.b.written|, k);
    TransportSend.AckIsForKept(w.a, k, |w.b.written|);
    CountUpDown(w.a.e.sendCount);
    hide Low32;
    hide Sub32;
    hide Signed;
    hide Bits;
    hide RxOk;
    hide Kept;
    assert |w.a.e.sendMess| == w.a.e.sendCount;
  }

  lemma OtherAnswer(w: World, k: Packet, answers: seq<TcpWrite>)
    requires Inv(w) && AllowedByA(w, Receive(k, answers)) && OnesOwn(w.a.e, k) && k.dg.Response?
    ensures k.dg.number !in w.a.e.sendMess || k.dg.value == 0 ==> StepByA(w, Receive(k, answers)) == w
    ensures k.dg.number in w.a.e.sendMess && k.dg.value < 0 ==> Freed(w, StepByA(w, Receive(k, answers)), true)
  {
    var act, number := Receive(k, answers), k.dg.number;
    AnswerEffect(w.a.e, k, answers);
    if number in w.a.e.sendMess {
      TransportSend.KeptInFull(w.a, number, |w.b.written|);
      if k.dg.value == 0 { ZeroChangesNothing(w, k, answers); }
    }
    hide React;
    hide Inv;
    hide AllowedByA;
    hide Signed;
    hide Bits;
    if k.dg.value < 0 && number in w.a.e.sendMess {
      FreedStep(w, act);
    } else if number !in w.a.e.sendMess || k.dg.value == 0 {
      SilentStep(w, act);
      assert w.toB + {} == w.toB;
    }
    hide StepByA;
  }

  lemma ZeroChangesNothing(w: World, k: Packet, answers: seq<TcpWrite>)
    requires Inv(w) && OnesOwn(w.a.e, k) && k.dg.Response? && k.dg.number in w.a.e.sendMess && k.dg.value == 0
    ensures React(w.a.e, Receive(k, answers)) == Quiet(w.a.e)
  {
    TransportLimits.ZeroKeepsMessage(w.a, k.dg.number, |w.b.written|);
    hide HandleDataResponse;
    hide HandleDataRequest;
    hide Inv;
  }

  // ----- requests for a message again

  // A message still kept is sent again, exactly as it was read, and nothing else happens;
  // one no longer kept brings nothing.
  ghost predicate RequestAnswered(w: World, k: Packet, w': World)
    requires k.dg.Retrans?
  {
    && (k.dg.number !in w.a.e.sendMess ==> w' == w)
    && (forall n :: 1 <= n <= |w.a.sent| < n + MOD32 && Low32(n) == k.dg.number && k.dg.number in w.a.e.sendMess
         ==> w' == Now(w, w.a.e, {Packet(Data(w.a.e.handle, k.dg.number, w.a.sent[n - 1]), n)}))
  }

  ghost predicate RequestsAreAnswered(w: World) {
    forall k, answers ::
      AllowedByA(w, Receive(k, answers)) && OnesOwn(w.a.e, k) && k.dg.Retrans?
      ==> RequestAnswered(w, k, StepByA(w, Receive(k, answers)))
  }

  // At any end: the datagram a request brings.
  lemma RequestEffect(e: Endpoint, k: Packet, answers: seq<TcpWrite>)
    requires OnesOwn(e, k) && k.dg.Retrans?
    ensures var number := k.dg.number; var o := React(e, Receive(k, answers));
      && o.e == e && o.wrote == []
      && o.out == if number in e.sendMess && e.sendMess[number].over == 0
                  then [Data(e.handle, number, e.sendMess[number].payload)] else []
  {
    hide HandleDataRequest;
  }

  lemma RequestIsAnswered(w: World, k: Packet, answers: seq<TcpWrite>)
    requires Inv(w) && AllowedByA(w, Receive(k, answers)) && OnesOwn(w.a.e, k) && k.dg.Retrans?
    ensures RequestAnswered(w, k, StepByA(w, Receive(k, answers)))
  {
    var act, number := Receive(k, answers), k.dg.number;
    RequestEffect(w.a.e, k, answers);
    hide React;
    if number !in w.a.e.sendMess {
      SilentStep(w, act);
      assert w.toB + {} == w.toB;
    }
    forall n | 1 <= n <= |w.a.sent| < n + MOD32 && Low32(n) == number && number in w.a.e.sendMess
      ensures StepByA(w, act) == Now(w, w.a.e, {Packet(Data(w.a.e.handle, number, w.a.sent[n - 1]), n)})
    {
      SerialIsUnique(|w.a.sent|, n);
      hide Low32;
      hide SerialOf;
      hide RxOk;
      assert w.a.e.sendMess[number].payload == w.a.sent[n - 1] && w.a.e.sendMess[number].over == 0;
      hide Inv;
      hide AllowedByA;
      TellingStep(w, act, Data(w.a.e.handle, number, w.a.sent[n - 1]));
      hide StepByA;
    }
  }

  // ----- both ends of every run

  lemma SenderEffects(handle: u64, windowA: nat, windowB: nat, moves: seq<Move>, w: World)
    requires 1 <= windowA <= 64 && 1 <= windowB <= 64
    requires Run(Connected(handle, windowA, windowB), moves, w)
    ensures AcksTakeMessages(w) && OtherAnswers(w) && RequestsAreAnswered(w)
    ensures AcksTakeMessages(Swap(w)) && OtherAnswers(Swap(w)) && RequestsAreAnswered(Swap(w))
  {
    RunsAreInv(handle, windowA, windowB, moves, w);
    hide Run;
    EndEffects(w);
    SwapIsInv(w);
    EndEffects(Swap(w));
    hide AcksTakeMessages;
    hide OtherAnswers;
    hide RequestsAreAnswered;
  }

  lemma SwapIsInv(w: World)
    requires Inv(w)
    ensures Inv(Swap(w))
  {
    hide Flow;
  }

  lemma EndEffects(w: World)
    requires Inv(w)
    ensures AcksTakeMessages(w) && OtherAnswers(w) && RequestsAreAnswered(w)
  {
    hide Inv;
    hide AllowedByA;
    hide StepByA;
    hide MessageTaken;
    hide Freed;
    hide RequestAnswered;
    forall k, answers | AllowedByA(w, Receive(k, answers)) && OnesOwn(w.a.e, k) && k.dg.Response?
      ensures k.dg.number in w.a.e.sendMess && k.dg.value > 0 ==> MessageTaken(w, k.dg.number, StepByA(w, Receive(k, answers)))
      ensures k.dg.number !in w.a.e.sendMess || k.dg.value == 0 ==> StepByA(w, Receive(k, answers)) == w
      ensures k.dg.number in w.a.e.sendMess && k.dg.value < 0 ==> Freed(w, StepByA(w, Receive(k, answers)), true)
    {
      OtherAnswer(w, k, answers);
      if k.dg.number in w.a.e.sendMess && k.dg.value > 0 { AckTakesMessage(w, k, answers); }
    }
    forall k, answers | AllowedByA(w, Receive(k, answers)) && OnesOwn(w.a.e, k) && k.dg.Retrans?
      ensures RequestAnswered(w, k, StepByA(w, Receive(k, answers)))
    {
      RequestIsAnswered(w, k, answers);
    }
  }

  // ----- the local socket and the timers, at any end in any state

  predicate Ends(e: Endpoint, o: Outcome, told: bool) {
    && !o.e.alive && o.e.sendMess == map[] && o.e.recvMess == map[] && o.wrote == []
    && o.out == if told then [Close(e.handle)] else []
  }

  // With the window full nothing is read and the event goes; otherwise a payload becomes the
  // next message, the end of the stream ends the session, and an empty socket changes nothing.
  lemma ReadableEffect(e: Endpoint, read: TcpRead)
    ensures var o := React(e, Readable(read)); var next := Add32(e.sendSeq, 1);
      if e.sendCount >= e.window then
        o == Outcome(e.(armed := false), [], []) && ReadBy(e, Readable(read)) == []
      else match read
        case Got(payload) =>
          && ReadBy(e, Readable(read)) == [payload] && o.wrote == [] && o.out == [Data(e.handle, next, payload)]
          && o.e == e.(sendSeq := next, sendMess := o.e.sendMess, sendCount := Add32(e.sendCount, 1))
          && o.e.sendMess.Keys == e.sendMess.Keys + {next}
          && (forall j :: j in e.sendMess ==> o.e.sendMess[j] == e.sendMess[j])
          && (next !in e.sendMess ==> o.e.sendMess[next] == Message(next, payload, 0, true, 0))
        case Closed => Ends(e, o, true)
        case Blocked => o == Outcome(e, [], [])
  {
    hide Add32;
  }

  // A timer resends its message while the window has not been exceeded by its tries, and then
  // only starts the closing.
  lemma FiresEffect(e: Endpoint, number: u32)
    requires number in e.sendMess
    ensures var m := e.sendMess[number]; var o := React(e, Fires(number));
      && o.wrote == [] && o.e.alive == e.alive && o.e.sendMess.Keys == e.sendMess.Keys
      && (forall j :: j in e.sendMess && j != number ==> o.e.sendMess[j] == e.sendMess[j])
      && o.e.sendMess[number] == m.(retries := m.retries + 1, timer := m.retries <= e.window)
      && o.e == e.(sendMess := o.e.sendMess, status := if m.retries <= e.window then e.status else 3)
      && o.out == if m.retries <= e.window && m.over == 0 then [Data(e.handle, number, m.payload)] else []
  {
    TransportLimits.FiringIs(e, number);
    hide React;
    var m := e.sendMess[number];
    if m.retries > e.window {
      var queue := e.sendMess[number := m.(retries := m.retries + 1, timer := false)];
      assert number in queue;
    }
  }

  // Silence ends a session and tells the peer; a close from the peer ends it and tells nobody.
  lemma EndingEffect(e: Endpoint, k: Packet, answers: seq<TcpWrite>)
    requires OnesOwn(e, k) && k.dg.Close?
    ensures Ends(e, React(e, Idle), true) && Ends(e, React(e, Receive(k, answers)), false)
  {
    hide HandleDataRequest;
    hide HandleDataResponse;
  }

  // A datagram of another session, or for one that is gone, does nothing.
  lemma ForeignEffect(e: Endpoint, k: Packet, answers: seq<TcpWrite>)
    requires !OnesOwn(e, k)
    ensures React(e, Receive(k, answers)) == Quiet(e)
  {
    hide HandleDataRequest;
    hide HandleDataResponse;
  }

  // ----- data, at any live end

  // A packet neither next nor in the window is answered with 0 and nothing else; one in the
  // window is queued if it is new and there is room, and everything sent asks for something.
  lemma OutOfTurnEffect(e: Endpoint, k: Packet, answers: seq<TcpWrite>)
    requires OnesOwn(e, k) && k.dg.Data? && k.dg.number != Add32(e.recvSeq, 1)
    ensures var number := k.dg.number; var o := React(e, Receive(k, answers)); var diff := Sub32(number, e.recvSeq);
      && o.wrote == []
      && (diff == 0 || diff > e.window ==> o == Outcome(e, [Response(e.handle, number, 0)], []))
      && (2 <= diff <= e.window ==>
           && (forall i :: 0 <= i < |o.out| ==> o.out[i].Retrans?)
           && (number in e.recvMess || e.recvCount >= e.window ==> o.e == e.(retrySeq := o.e.retrySeq))
           && (number !in e.recvMess && e.recvCount < e.window ==>
                 o.e == e.(recvMess := e.recvMess[number := k.dg.payload], recvCount := Add32(e.recvCount, 1), retrySeq := o.e.retrySeq)))
  {
    NotNext(k.dg.number, e.recvSeq);
    AsksOnly(Buffer(e, k.dg.number, k.dg.payload), k.dg.number, 0);
    hide Add32;
    hide Sub32;
    hide Ask;
    hide Drain;
  }

  lemma NotNext(number: u32, recvSeq: u32)
    ensures Sub32(number, recvSeq) == 1 <==> number == Add32(recvSeq, 1)
  {
  }

  lemma {:induction false} AsksOnly(e: Endpoint, number: u32, i: nat)
    requires i <= e.window
    ensures forall j :: 0 <= j < |Ask(e, number, i).out| ==> Ask(e, number, i).out[j].Retrans?
    decreases e.window - i
  {
    hide Add32;
    hide MustAsk;
    if i < e.window {
      var test := Add32(e.recvSeq, 1 + i);
      if MustAsk(e, number, test) {
        AsksOnly(e.(retrySeq := test), number, i + 1);
      } else {
        AsksOnly(e, number, i + 1);
      }
    }
  }

  // The next packet in line is written at once: what the first local write takes decides the
  // first answer.  A failed write, or one of no bytes, is answered with -1 and starts the
  // closing; one that would block is answered with -1 and changes nothing; a short one is
  // answered with its length and changes nothing; a full one moves on.
  lemma NextEffect(e: Endpoint, k: Packet, answers: seq<TcpWrite>)
    requires OnesOwn(e, k) && k.dg.Data? && k.dg.number == Add32(e.recvSeq, 1)
    ensures var number, p, h := k.dg.number, k.dg.payload, e.handle; var o := React(e, Receive(k, answers));
      match Answer(answers, 0)
      case Failed => RefusedEffect(e, o, number)
      case WouldBlock => o == Outcome(e, [Response(h, number, -1)], [])
      case Part(v) =>
        if v == 0 || p == [] then RefusedEffect(e, o, number)
        else if v < |p| then o == Outcome(e, [Response(h, number, v)], [p[..v]])
        else TakenEffect(e, o, number, p)
      case All => if p == [] then RefusedEffect(e, o, number) else TakenEffect(e, o, number, p)
  {
    var number, p := k.dg.number, k.dg.payload;
    NotNext(number, e.recvSeq);
    FirstTurn(e, number, p, answers);
    TurnEffect(e, number, p, Answer(answers, 0));
    RepliesInOrder(e, number, p, answers, 0);
    AdvancesByWrites(e, number, p, answers, 0);
    hide Add32;
    hide Sub32;
    hide Drain;
    hide DeliverOne;
    assert React(e, Receive(k, answers)) == Drain(e, number, p, answers, 0);
    hide React;
  }

  predicate RefusedEffect(e: Endpoint, o: Outcome, number: u32) {
    && o.wrote == []
    && if e.sendMess == map[] && e.recvMess == map[] then
         !o.e.alive && o.e.recvSeq == e.recvSeq && o.out == [Response(e.handle, number, -1), Close(e.handle)]
       else o.e == e.(status := 3) && o.out == [Response(e.handle, number, -1)]
  }

  // p is written first and answered first, with its length, and counted.  With nothing queued
  // behind it that is all.
  ghost predicate TakenEffect(e: Endpoint, o: Outcome, number: u32, p: Payload) {
    && o.wrote != [] && o.wrote[0] == p && o.out != [] && o.out[0] == Response(e.handle, number, |p|)
    && (exists n :: 1 <= n <= |o.wrote| && o.e.recvSeq == Add32(e.recvSeq, n))
    && (Add32(number, 1) !in e.recvMess ==>
          o == Outcome(e.(recvSeq := Add32(e.recvSeq, 1)), [Response(e.handle, number, |p|)], [p]))
  }

  predicate Full(w: TcpWrite, p: Payload) {
    p != [] && (w == All || (w.Part? && w.bytes >= |p|))
  }

  predicate Refused(w: TcpWrite, p: Payload) {
    w == Failed || w == Part(0) || (p == [] && w != WouldBlock)
  }

  // One turn of the delivery loop, by what the write takes.
  lemma TurnEffect(e: Endpoint, number: u32, p: Payload, w: TcpWrite)
    requires e.alive
    ensures var d := DeliverOne(e, number, p, w);
      && (Full(w, p) ==> FullTurn(e, d, number, p))
      && (!Full(w, p) ==> !d.more)
      && (Refused(w, p) ==> RefusedEffect(e, d.o, number))
      && (w == WouldBlock ==> d.o == Outcome(e, [Response(e.handle, number, -1)], []))
      && (w.Part? && 0 < w.bytes < |p| ==> d.o == Outcome(e, [Response(e.handle, number, w.bytes)], [p[..w.bytes]]))
  {
    if Full(w, p) { FullTurnEffect(e, number, p, w); }
    hide Add32;
    hide Sub32;
    hide FullTurn;
  }

  lemma FullTurnEffect(e: Endpoint, number: u32, p: Payload, w: TcpWrite)
    requires e.alive && Full(w, p)
    ensures FullTurn(e, DeliverOne(e, number, p, w), number, p)
  {
    hide Add32;
    hide Sub32;
  }

  predicate FullTurn(e: Endpoint, d: Delivery, number: u32, p: Payload) {
    var next := Add32(number, 1);
    && d.o.wrote == [p] && d.o.out != [] && d.o.out[0] == Response(e.handle, number, |p|)
    && d.o.e.recvSeq == Add32(e.recvSeq, 1) && d.o.e.handle == e.handle
    && (forall i :: 1 <= i < |d.o.out| ==> d.o.out[i] == Close(e.handle))
    && (d.more ==>
          && next in e.recvMess && d.number == next && d.payload == e.recvMess[next] && |d.o.out| == 1
          && d.o.e == e.(recvSeq := Add32(e.recvSeq, 1), recvMess := e.recvMess - {next}, recvCount := Sub32(e.recvCount, 1)))
    && (next in e.recvMess && !d.more ==> !d.o.e.alive)
    && (next !in e.recvMess ==>
          !d.more && d.o == Outcome(e.(recvSeq := Add32(e.recvSeq, 1)), [Response(e.handle, number, |p|)], [p]))
  }

  lemma FirstTurn(e: Endpoint, number: u32, p: Payload, answers: seq<TcpWrite>)
    ensures var d := DeliverOne(e, number, p, Answer(answers, 0)); !d.more ==> Drain(e, number, p, answers, 0) == d.o
  {
    hide DeliverOne;
  }

  // ----- the whole loop

  // Whatever the local socket takes, each piece written is answered with its length, in order
  // of the numbers; after those at most a -1 and a close follow.
  ghost predicate Replies(e: Endpoint, o: Outcome, number: u32) {
    && |o.wrote| <= |o.out|
    && (forall i :: 0 <= i < |o.wrote| ==> o.out[i] == Response(e.handle, Add32(number, i), |o.wrote[i]|))
    && (forall i :: |o.wrote| <= i < |o.out| ==>
          o.out[i] == Close(e.handle) || (i == |o.wrote| && o.out[i] == Response(e.handle, Add32(number, i), -1)))
  }

  lemma {:induction false} RepliesInOrder(e: Endpoint, number: u32, p: Payload, answers: seq<TcpWrite>, k: nat)
    ensures Replies(e, Drain(e, number, p, answers, k), number)
    decreases |e.recvMess|
  {
    TurnReplies(e, number, p, Answer(answers, k));
    var d := DeliverOne(e, number, p, Answer(answers, k));
    hide DeliverOne;
    hide Add32;
    if d.more {
      RepliesInOrder(d.o.e, d.number, d.payload, answers, k + 1);
      RepliesThen(e, d.o, Drain(d.o.e, d.number, d.payload, answers, k + 1), number);
    }
  }

  lemma TurnReplies(e: Endpoint, number: u32, p: Payload, w: TcpWrite)
    ensures var d := DeliverOne(e, number, p, w);
      && Replies(e, d.o, number) && d.o.e.handle == e.handle
      && (d.more ==> d.number == Add32(number, 1) && |d.o.wrote| == |d.o.out| == 1)
  {
    assert Add32(number, 0) == number;
    hide Add32;
    hide Sub32;
  }

  lemma RepliesThen(e: Endpoint, o: Outcome, rest: Outcome, number: u32)
    requires Replies(e, o, number) && |o.wrote| == |o.out| == 1 && o.e.handle == e.handle
    requires Replies(o.e, rest, Add32(number, 1))
    ensures Replies(e, Then(o, rest), number)
  {
    var t := Then(o, rest);
    forall i | 0 <= i < |t.out| ensures i > 0 ==> t.out[i] == rest.out[i - 1] && Add32(Add32(number, 1), i - 1) == Add32(number, i) {
      TwoAdds(number, i);
    }
    hide Add32;
  }

  lemma TwoAdds(number: u32, i: int)
    ensures Add32(Add32(number, 1), i - 1) == Add32(number, i)
  {
  }

  // The number last delivered moves by the full writes: all of them, or all but a short last.
  ghost predicate Advances(e: Endpoint, o: Outcome) {
    exists n :: |o.wrote| - 1 <= n <= |o.wrote| && 0 <= n && o.e.recvSeq == Add32(e.recvSeq, n)
  }

  // The first payload is written whole.
  ghost predicate StartsWith(e: Endpoint, o: Outcome, number: u32, p: Payload) {
    && o.wrote != [] && o.wrote[0] == p && o.out != [] && o.out[0] == Response(e.handle, number, |p|)
    && exists n :: 1 <= n <= |o.wrote| && o.e.recvSeq == Add32(e.recvSeq, n)
  }

  lemma {:induction false} AdvancesByWrites(e: Endpoint, number: u32, p: Payload, answers: seq<TcpWrite>, k: nat)
    requires e.alive
    ensures var o := Drain(e, number, p, answers, k);
      Advances(e, o) && (Full(Answer(answers, k), p) ==> StartsWith(e, o, number, p))
    decreases |e.recvMess|
  {
    TurnAdvances(e, number, p, Answer(answers, k));
    var d := DeliverOne(e, number, p, Answer(answers, k));
    hide DeliverOne;
    hide Add32;
    if d.more {
      AdvancesByWrites(d.o.e, d.number, d.payload, answers, k + 1);
      AdvancesThen(e, d.o, Drain(d.o.e, d.number, d.payload, answers, k + 1), number, p);
    }
  }

  lemma TurnAdvances(e: Endpoint, number: u32, p: Payload, w: TcpWrite)
    requires e.alive
    ensures var d := DeliverOne(e, number, p, w);
      && Advances(e, d.o) && (Full(w, p) ==> StartsWith(e, d.o, number, p))
      && (d.more ==> Full(w, p) && d.o.wrote == [p] && d.o.e.recvSeq == Add32(e.recvSeq, 1) && d.o.e.alive)
  {
    assert Add32(e.recvSeq, 0) == e.recvSeq;
    TurnEffect(e, number, p, w);
    hide Add32;
    hide Sub32;
    hide DeliverOne;
    assert DeliverOne(e, number, p, w).o.e.recvSeq == Add32(e.recvSeq, if Full(w, p) then 1 else 0);
  }

  lemma AdvancesThen(e: Endpoint, o: Outcome, rest: Outcome, number: u32, p: Payload)
    requires StartsWith(e, o, number, p) && o.wrote == [p] && o.e.recvSeq == Add32(e.recvSeq, 1)
    requires Advances(o.e, rest)
    ensures Advances(e, Then(o, rest)) && StartsWith(e, Then(o, rest), number, p)
  {
    var n :| |rest.wrote| - 1 <= n <= |rest.wrote| && 0 <= n && rest.e.recvSeq == Add32(o.e.recvSeq, n);
    TwoAdds(e.recvSeq, n + 1);
    hide Add32;
    var t := Then(o, rest);
    assert t.e.recvSeq == Add32(e.recvSeq, n + 1) && |t.wrote| == 1 + |rest.wrote|;
    assert t.wrote[0] == o.wrote[0] && t.out[0] == o.out[0];
  }

  // ----- a local socket that takes everything

  // The payloads written are p and then the whole unbroken run of queued ones after it; those
  // leave the queue, and nothing else changes but the number last delivered.
  ghost predicate WholeRun(e: Endpoint, o: Outcome, number: u32, p: Payload) {
    && o.wrote != [] && o.wrote[0] == p
    && (forall i :: 1 <= i < |o.wrote| ==> Add32(number, i) in e.recvMess && o.wrote[i] == e.recvMess[Add32(number, i)])
    && (o.e.alive ==>
          && Add32(number, |o.wrote|) !in o.e.recvMess
          && o.e == e.(recvSeq := Add32(e.recvSeq, |o.wrote|), recvMess := o.e.recvMess, recvCount := Add32(e.recvCount, 1 - |o.wrote|))
          && o.e.recvMess == e.recvMess - (set i | 1 <= i < |o.wrote| :: Add32(number, i)))
  }

  lemma {:induction false} DrainWritesWholeRun(e: Endpoint, number: u32, p: Payload, answers: seq<TcpWrite>, k: nat)
    requires e.alive && p != [] && k >= |answers|
    requires forall j :: j in e.recvMess ==> e.recvMess[j] != []
    ensures WholeRun(e, Drain(e, number, p, answers, k), number, p)
    decreases |e.recvMess|
  {
    var d := DeliverOne(e, number, p, All);
    assert FullTurn(e, d, number, p) by { TurnEffect(e, number, p, All); }
    hide DeliverOne;
    hide Sub32;
    hide Add32;
    if d.more {
      hide FullTurn;
      hide WholeRun;
      assert d.o.e.alive && d.payload != [] && (forall j :: j in d.o.e.recvMess ==> d.o.e.recvMess[j] != []) by { GoesOn(e, d, number, p); }
      DrainWritesWholeRun(d.o.e, d.number, d.payload, answers, k + 1);
      RunGoesOn(e, d, Drain(d.o.e, d.number, d.payload, answers, k + 1), number, p);
    } else {
      RunStops(e, d, number, p);
    }
  }

  lemma GoesOn(e: Endpoint, d: Delivery, number: u32, p: Payload)
    requires e.alive && FullTurn(e, d, number, p) && d.more
    requires forall j :: j in e.recvMess ==> e.recvMess[j] != []
    ensures d.o.e.alive && d.payload != [] && forall j :: j in d.o.e.recvMess ==> d.o.e.recvMess[j] != []
  {
    hide Add32;
    hide Sub32;
  }

  lemma RunStops(e: Endpoint, d: Delivery, number: u32, p: Payload)
    requires e.alive && FullTurn(e, d, number, p) && !d.more
    ensures WholeRun(e, d.o, number, p)
  {
    SmallAdds(e.recvCount, number);
    hide Add32;
    hide Sub32;
    assert e.recvMess - (set i | 1 <= i < 1 :: Add32(number, i)) == e.recvMess;
  }

  lemma NextWritesWholeRun(e: Endpoint, k: Packet)
    requires OnesOwn(e, k) && k.dg.Data? && k.dg.number == Add32(e.recvSeq, 1) && k.dg.payload != []
    requires forall j :: j in e.recvMess ==> e.recvMess[j] != []
    ensures WholeRun(e, React(e, Receive(k, [])), k.dg.number, k.dg.payload)
  {
    NotNext(k.dg.number, e.recvSeq);
    DrainWritesWholeRun(e, k.dg.number, k.dg.payload, [], 0);
    hide Add32;
    hide Sub32;
    hide Drain;
    assert React(e, Receive(k, [])) == Drain(e, k.dg.number, k.dg.payload, [], 0);
    hide React;
  }

  lemma SmallAdds(count: u32, number: u32)
    ensures Add32(count, 0) == count && Add32(number, 0) == number
    ensures Sub32(count, 1) == Add32(count, -1)
  {
  }

  lemma AddsUp(x: u32, a: int, b: int)
    ensures Add32(Add32(x, a), b) == Add32(x, a + b)
  {
  }

  lemma RunGoesOn(e: Endpoint, d: Delivery, rest: Outcome, number: u32, p: Payload)
    requires FullTurn(e, d, number, p) && d.more
    requires WholeRun(d.o.e, rest, d.number, d.payload)
    ensures WholeRun(e, Then(d.o, rest), number, p)
  {
    var t := Then(d.o, rest);
    var n := |rest.wrote|;
    assert |t.wrote| == n + 1;
    AddsUp(number, 1, n);
    AddsUp(e.recvSeq, 1, n);
    AddsUp(e.recvCount, -1, 1 - n);
    SmallAdds(e.recvCount, d.number);
    assert Sub32(e.recvCount, 1) == Add32(e.recvCount, -1);
    forall i | 1 <= i < |t.wrote| ensures Add32(number, i) in e.recvMess && t.wrote[i] == e.recvMess[Add32(number, i)] {
      AddsUp(number, 1, i - 1);
      hide Add32;
      hide Sub32;
      assert t.wrote[i] == rest.wrote[i - 1] && Add32(d.number, i - 1) == Add32(number, i);
    }
    hide Add32;
    hide Sub32;
    if t.e.alive {
      QueueShrinks(e.recvMess, number, n);
    }
  }

  // The queue without the next number, and then without those after it.
  lemma QueueShrinks(queue: map<u32, Payload>, number: u32, n: nat)
    requires n >= 1
    ensures var next := Add32(number, 1);
      queue - {next} - (set i | 1 <= i < n :: Add32(next, i)) == queue - (set i | 1 <= i < n + 1 :: Add32(number, i))
  {
    var next := Add32(number, 1);
    var mine, others := set i | 1 <= i < n + 1 :: Add32(number, i), set i | 1 <= i < n :: Add32(next, i);
    forall i: int ensures Add32(next, i) == Add32(number, i + 1) { AddsUp(number, 1, i); }
    hide Add32;
    forall x | x in mine ensures x == next || x in others {
      var i :| 1 <= i < n + 1 && x == Add32(number, i);
      assert Add32(next, i - 1) == x;
    }
    forall x | x in others ensures x in mine {
      var i :| 1 <= i < n && x == Add32(next, i);
      assert x == Add32(number, i + 1);
    }
    assert mine == {next} + others;
    assert queue - {next} - others == queue - mine;
  }
}
