// One step of one end keeps the invariant.
module TransportStep {
  import opened Wire
  import opened EndSpec
  import opened Transport
  import opened TransportSend
  import opened TransportReceive
  import opened TransportRetry

  // What one end relies on: its two halves, and the arriving packet being what its sender
  // says it is.  delivered counts its payloads delivered at the other end; sent is what the
  // other end has read.
  ghost predicate Healthy(p: Peer, delivered: nat, sent: seq<Payload>) {
    && Sized(p.e) && TxOk(p, delivered) && RxOk(p, sent)
    && Sendable(sent) && |sent| <= |p.written| + 64
  }

  ghost predicate Truthful(p: Peer, delivered: nat, sent: seq<Payload>, act: Action) {
    act.Receive? && act.packet.dg.handle == p.e.handle ==>
      DataOk(sent, act.packet) && AckOk(p.sent, delivered, act.packet)
  }

  // Every datagram of a step that leads to p' is what it says it is.
  ghost predicate Honest(out: seq<Datagram>, p': Peer, written: nat, sent: seq<Payload>) {
    forall i :: 0 <= i < |out| ==>
      var k := Tag(out[i], i, |p'.sent|, written);
      DataOk(p'.sent, k) && AckOk(sent, |p'.written|, k)
  }

  // What one step guarantees.
  ghost predicate StepOk(p: Peer, p': Peer, out: seq<Datagram>, delivered: nat, sent: seq<Payload>) {
    && Sized(p'.e) && p'.e.handle == p.e.handle
    && TxOk(p', delivered) && RxOk(p', sent)
    && Honest(out, p', |p.written|, sent)
    && p.sent <= p'.sent && p.written <= p'.written
  }

  ghost predicate Goes(p: Peer, act: Action, delivered: nat, sent: seq<Payload>) {
    Enabled(p.e, act) && StepOk(p, StepPeer(p, act), React(p.e, act).out, delivered, sent)
  }

  // ----- callbacks that leave the receiving half alone

  predicate SameReceiving(e: Endpoint, e': Endpoint) {
    && e'.window == e.window && e'.handle == e.handle && e'.recvSeq == e.recvSeq && e'.retrySeq == e.retrySeq
    && (e'.alive ==> e.alive && e'.recvMess == e.recvMess && e'.recvCount == e.recvCount)
  }

  lemma SameReceivingKeepsRx(p: Peer, p': Peer, sent: seq<Payload>)
    requires RxOk(p, sent) && SameReceiving(p.e, p'.e) && p'.written == p.written && p'.asked == p.asked
    ensures RxOk(p', sent)
  {
    hide Low32;
    hide Sub32;
  }

  lemma {:induction false} NoneAsked(out: seq<Datagram>, recvSeq: u32, written: nat)
    requires forall i :: 0 <= i < |out| ==> !out[i].Retrans?
    ensures AskedFor(out, recvSeq, written) == []
  {
    if out != [] { NoneAsked(out[1..], recvSeq, written); }
  }

  // A callback that only sends: a datagram that is not data acknowledges nothing.
  lemma SenderStep(p: Peer, act: Action, delivered: nat, sent: seq<Payload>)
    requires Healthy(p, delivered, sent)
    requires Enabled(p.e, act)
    requires var o := React(p.e, act);
      && SameReceiving(p.e, o.e) && o.wrote == []
      && TxOk(Peer(o.e, p.sent + ReadBy(p.e, act), p.written, p.asked), delivered)
      && (forall i :: 0 <= i < |o.out| ==> o.out[i].Data? || o.out[i].Close?)
      && (forall i :: 0 <= i < |o.out| && o.out[i].Data? ==>
            DataOk(p.sent + ReadBy(p.e, act), Tag(o.out[i], i, |p.sent + ReadBy(p.e, act)|, |p.written|)))
    ensures Goes(p, act, delivered, sent)
  {
    var o := React(p.e, act);
    NoneAsked(o.out, p.e.recvSeq, |p.written|);
    var p' := StepPeer(p, act);
    assert p' == Peer(o.e, p.sent + ReadBy(p.e, act), p.written, p.asked);
    SameReceivingKeepsRx(p, p', sent);
    hide Low32;
    hide Sub32;
    hide RxOk;
    hide TxOk;
  }

  lemma GotStep(p: Peer, act: Action, delivered: nat, sent: seq<Payload>)
    requires Healthy(p, delivered, sent) && act.Readable? && Possible(p, {}, act) && Assumed(p, act)
    requires act.read.Got? && p.e.sendCount < p.e.window
    ensures Goes(p, act, delivered, sent)
  {
    RequestAdded(p, act.read.payload, delivered);
    AddToLow(|p.sent|, 1);
    SerialIsUnique(|p.sent| + 1, |p.sent| + 1);
    hide Low32;
    hide Sub32;
    hide Add32;
    hide TxOk;
    hide RxOk;
    SenderStep(p, act, delivered, sent);
  }

  lemma ReadableStep(p: Peer, act: Action, delivered: nat, sent: seq<Payload>)
    requires Healthy(p, delivered, sent) && act.Readable? && Possible(p, {}, act) && Assumed(p, act)
    ensures Goes(p, act, delivered, sent)
  {
    if p.e.sendCount < p.e.window && act.read.Got? {
      GotStep(p, act, delivered, sent);
    } else {
      assert p.sent + [] == p.sent;
      if p.e.sendCount >= p.e.window {
        assert TxOk(With(p, p.e.(armed := false)), delivered);
      } else {
        SameSendingKeepsTx(p, With(p, React(p.e, act).e), delivered);
      }
      SenderStep(p, act, delivered, sent);
    }
  }

  lemma FiresStep(p: Peer, act: Action, delivered: nat, sent: seq<Payload>)
    requires Healthy(p, delivered, sent) && act.Fires? && Possible(p, {}, act)
    ensures Goes(p, act, delivered, sent)
  {
    TimeoutKeepsTx(p, act.number, delivered);
    ResentIsTrue(p, act.number, delivered);
    hide Low32;
    hide Sub32;
    hide TxOk;
    hide RxOk;
    hide SerialOf;
    TimeoutKeepsRx(p.e, act.number);
    hide RequestTimeout;
    assert p.sent + [] == p.sent;
    SenderStep(p, act, delivered, sent);
  }

  lemma TimeoutKeepsRx(e: Endpoint, number: u32)
    requires e.alive && number in e.sendMess
    ensures var o := RequestTimeout(e, number);
      && SameReceiving(e, o.e) && o.wrote == []
      && (forall i :: 0 <= i < |o.out| ==> o.out[i].Close? || o.out[i] == Data(e.handle, number, e.sendMess[number].payload))
  {
  }

  lemma ClosingStep(p: Peer, act: Action, delivered: nat, sent: seq<Payload>)
    requires Healthy(p, delivered, sent)
    requires act == Idle || (act.Receive? && act.packet.dg.Close?)
    ensures Goes(p, act, delivered, sent)
  {
    assert p.sent + [] == p.sent;
    SameSendingKeepsTx(p, With(p, React(p.e, act).e), delivered);
    SenderStep(p, act, delivered, sent);
  }

  // A datagram for another session, or for one that is gone, does nothing.
  lemma IgnoredStep(p: Peer, act: Action, delivered: nat, sent: seq<Payload>)
    requires Healthy(p, delivered, sent)
    requires act.Receive? && (!p.e.alive || act.packet.dg.handle != p.e.handle)
    ensures Goes(p, act, delivered, sent)
  {
    assert p.sent + [] == p.sent;
    SenderStep(p, act, delivered, sent);
  }

  lemma ResponseKeepsRx(e: Endpoint, number: u32, value: int)
    requires e.alive
    ensures var o := HandleDataResponse(e, number, value);
      SameReceiving(e, o.e) && o.wrote == [] && forall i :: 0 <= i < |o.out| ==> o.out[i].Close?
  {
    hide Sub32;
  }

  lemma ResponseStep(p: Peer, act: Action, delivered: nat, sent: seq<Payload>)
    requires Healthy(p, delivered, sent) && p.e.alive && act.Receive? && act.packet.dg.Response?
    requires act.packet.dg.handle == p.e.handle
    requires Truthful(p, delivered, sent, act) && Recent(p, act.packet)
    ensures Goes(p, act, delivered, sent)
  {
    assert p.sent + [] == p.sent;
    ResponseKeepsTx(p, act.packet, delivered);
    hide Low32;
    hide Sub32;
    hide TxOk;
    hide RxOk;
    ResponseKeepsRx(p.e, act.packet.dg.number, act.packet.dg.value);
    hide HandleDataResponse;
    SenderStep(p, act, delivered, sent);
  }

  lemma RetransStep(p: Peer, act: Action, delivered: nat, sent: seq<Payload>)
    requires Healthy(p, delivered, sent) && p.e.alive && act.Receive? && act.packet.dg.Retrans?
    requires act.packet.dg.handle == p.e.handle
    ensures Goes(p, act, delivered, sent)
  {
    assert p.sent + [] == p.sent;
    if act.packet.dg.number in p.e.sendMess {
      ResentIsTrue(p, act.packet.dg.number, delivered);
    }
    SenderStep(p, act, delivered, sent);
  }

  // ----- data requests

  ghost predicate DataArrives(p: Peer, act: Action, delivered: nat, sent: seq<Payload>) {
    && Healthy(p, delivered, sent) && p.e.alive
    && act.Receive? && act.packet.dg.Data? && act.packet.dg.handle == p.e.handle
    && Recent(p, act.packet) && DataOk(sent, act.packet) && AllOrNothing(act.answers)
  }

  // Not next and not in the window: answered with 0.
  lemma OutsideStep(p: Peer, act: Action, delivered: nat, sent: seq<Payload>)
    requires DataArrives(p, act, delivered, sent)
    requires act.packet.serial <= |p.written| || act.packet.serial > |p.written| + p.e.window
    ensures Goes(p, act, delivered, sent)
  {
    ReactOutside(p, act, delivered, sent);
    hide React;
    hide Low32;
    hide Sub32;
    hide TxOk;
    hide RxOk;
    assert p.sent + [] == p.sent && p.written + [] == p.written && p.asked + [] == p.asked;
    NoneAsked(React(p.e, act).out, p.e.recvSeq, |p.written|);
    assert StepPeer(p, act) == p;
  }

  lemma ReactOutside(p: Peer, act: Action, delivered: nat, sent: seq<Payload>)
    requires DataArrives(p, act, delivered, sent)
    requires act.packet.serial <= |p.written| || act.packet.serial > |p.written| + p.e.window
    ensures Enabled(p.e, act)
    ensures React(p.e, act) == Outcome(p.e, [Response(p.e.handle, act.packet.dg.number, 0)], [])
  {
    WindowTest(act.packet.serial, |p.written|, p.e.window);
    hide Low32;
    hide Sub32;
  }

  // Next in line: delivered, with whatever the queue holds after it.
  lemma NextStep(p: Peer, act: Action, delivered: nat, sent: seq<Payload>)
    requires DataArrives(p, act, delivered, sent) && act.packet.serial == |p.written| + 1
    ensures Goes(p, act, delivered, sent)
  {
    hide Drain;
    hide Low32;
    hide React;
    hide StepOk;
    ReactNext(p, act, delivered, sent);
    NextKeeps(p, act.answers, delivered, sent);
    assert p.sent + [] == p.sent && p.asked + [] == p.asked;
  }

  lemma NextKeeps(p: Peer, answers: seq<TcpWrite>, delivered: nat, sent: seq<Payload>)
    requires Healthy(p, delivered, sent) && p.e.alive && |p.written| < |sent| && AllOrNothing(answers)
    ensures var m := |p.written|; var o := Drain(p.e, Low32(m + 1), sent[m], answers, 0);
      && StepOk(p, Peer(o.e, p.sent, p.written + o.wrote, p.asked), o.out, delivered, sent)
      && AskedFor(o.out, p.e.recvSeq, m) == []
  {
    hide Drain;
    hide Low32;
    hide Reorder;
    hide Kept;
    hide NothingForgotten;
    var m := |p.written|;
    DrainDelivers(p.e, m, sent, answers, 0);
    var o := Drain(p.e, Low32(m + 1), sent[m], answers, 0);
    var p' := Peer(o.e, p.sent, p.written + o.wrote, p.asked);
    NoneAsked(o.out, p.e.recvSeq, m);
    SameSendingKeepsTx(p, p', delivered);
    DeliveredKeepsRx(p, o, sent);
    DeliveryIsHonest(p', o.out, m, sent);
    hide TxOk;
    hide RxOk;
    hide AcksInOrder;
    hide Honest;
  }

  lemma DeliveredKeepsRx(p: Peer, o: Outcome, sent: seq<Payload>)
    requires RxOk(p, sent) && Delivered(p.e, o, |p.written|, sent)
    ensures RxOk(Peer(o.e, p.sent, p.written + o.wrote, p.asked), sent)
  {
    hide Low32;
    hide Sub32;
    var m := |p.written|;
    assert p.written == sent[..m];
    assert p.written + o.wrote == sent[..m + |o.wrote|];
  }

  lemma DeliveryIsHonest(p': Peer, out: seq<Datagram>, m: nat, sent: seq<Payload>)
    requires m <= |p'.written| && AcksInOrder(out, m, |p'.written| - m, sent)
    ensures Honest(out, p', m, sent)
  {
    hide Low32;
    hide SerialOf;
  }

  // Ahead of its turn inside the window: queued, and the gaps before it asked for.
  lemma AheadStep(p: Peer, act: Action, delivered: nat, sent: seq<Payload>)
    requires DataArrives(p, act, delivered, sent)
    requires |p.written| + 2 <= act.packet.serial <= |p.written| + p.e.window
    ensures Goes(p, act, delivered, sent)
  {
    hide Ask;
    hide Low32;
    hide Sub32;
    hide React;
    hide Buffer;
    hide StepOk;
    ReactAhead(p, act, delivered, sent);
    AheadKeeps(p, act.packet.serial, delivered, sent);
    assert p.sent + [] == p.sent && p.written + [] == p.written;
  }

  lemma AheadKeeps(p: Peer, n: int, delivered: nat, sent: seq<Payload>)
    requires Healthy(p, delivered, sent) && p.e.alive
    requires |p.written| + 2 <= n <= |p.written| + p.e.window && n <= |sent|
    ensures var o := Ask(Buffer(p.e, Low32(n), sent[n - 1]), Low32(n), 0);
      StepOk(p, Peer(o.e, p.sent, p.written, p.asked + AskedFor(o.out, p.e.recvSeq, |p.written|)), o.out, delivered, sent)
  {
    hide Low32;
    hide Sub32;
    hide TxOk;
    hide RxOk;
    AheadAsks(p, n, sent);
    var o := Ask(Buffer(p.e, Low32(n), sent[n - 1]), Low32(n), 0);
    hide Ask;
    hide Buffer;
    var asked := AskedFor(o.out, p.e.recvSeq, |p.written|);
    var p' := Peer(o.e, p.sent, p.written, p.asked + asked);
    SameSendingKeepsTx(p, p', delivered);
    RequestsAreHonest(o.out, p', sent);
    hide Honest;
  }

  lemma RequestsAreHonest(out: seq<Datagram>, p': Peer, sent: seq<Payload>)
    requires forall i :: 0 <= i < |out| ==> out[i].Retrans?
    ensures Honest(out, p', |p'.written|, sent)
  {
    hide Low32;
  }

  lemma AheadAsks(p: Peer, n: int, sent: seq<Payload>)
    requires Sized(p.e) && p.e.alive && RxOk(p, sent)
    requires |p.written| + 2 <= n <= |p.written| + p.e.window && n <= |sent|
    ensures var o := Ask(Buffer(p.e, Low32(n), sent[n - 1]), Low32(n), 0);
      var p' := Peer(o.e, p.sent, p.written, p.asked + AskedFor(o.out, p.e.recvSeq, |p.written|));
      && RxOk(p', sent) && SameSending(p.e, o.e) && o.e.window == p.e.window && o.e.handle == p.e.handle
      && (forall i :: 0 <= i < |o.out| ==> o.out[i].Retrans?)
  {
    hide Low32;
    hide Sub32;
    AheadQueued(p, n, sent);
    var e := Buffer(p.e, Low32(n), sent[n - 1]);
    hide RxOk;
    hide Asking;
    hide Reorder;
    hide Requests;
    AskRequests(e, n, |p.written|, LastAsked(p.asked), 0);
    var o := Ask(e, Low32(n), 0);
    hide Ask;
    AskedKeepsRx(p, e, o.e, n, AskedFor(o.out, e.recvSeq, |p.written|), sent);
    hide AskedFor;
  }

  lemma AheadQueued(p: Peer, n: int, sent: seq<Payload>)
    requires Sized(p.e) && p.e.alive && RxOk(p, sent)
    requires |p.written| + 2 <= n <= |p.written| + p.e.window && n <= |sent|
    ensures var e := Buffer(p.e, Low32(n), sent[n - 1]);
      Reorder(e, |p.written|, sent) && Asking(e, n, |p.written|, LastAsked(p.asked))
  {
    BufferTakes(p.e, n, |p.written|, sent);
    hide Low32;
    hide Sub32;
    hide Reorder;
  }

  lemma ReactAhead(p: Peer, act: Action, delivered: nat, sent: seq<Payload>)
    requires DataArrives(p, act, delivered, sent)
    requires |p.written| + 2 <= act.packet.serial <= |p.written| + p.e.window
    ensures Enabled(p.e, act) && React(p.e, act).wrote == []
    ensures var n := act.packet.serial;
      React(p.e, act) == Ask(Buffer(p.e, Low32(n), sent[n - 1]), Low32(n), 0)
  {
    WindowTest(act.packet.serial, |p.written|, p.e.window);
    hide Low32;
    hide Sub32;
    hide Ask;
    hide Buffer;
  }

  lemma ReactNext(p: Peer, act: Action, delivered: nat, sent: seq<Payload>)
    requires DataArrives(p, act, delivered, sent) && act.packet.serial == |p.written| + 1
    ensures Enabled(p.e, act)
    ensures React(p.e, act) == Drain(p.e, Low32(|p.written| + 1), sent[|p.written|], act.answers, 0)
  {
    WindowTest(act.packet.serial, |p.written|, p.e.window);
    hide Low32;
    hide Sub32;
    hide Drain;
  }

  lemma AskedKeepsRx(p: Peer, e: Endpoint, e': Endpoint, n: int, asked: seq<int>, sent: seq<Payload>)
    requires RxOk(p, sent) && Reorder(e, |p.written|, sent)
    requires e.window == p.e.window && e.recvSeq == p.e.recvSeq && e' == e.(retrySeq := e'.retrySeq)
    requires n <= |p.written| + e.window
    requires Requests(e, n, |p.written|, LastAsked(p.asked), 0, asked)
    requires e'.retrySeq == Low32(LastOr(asked, LastAsked(p.asked)))
    ensures RxOk(Peer(e', p.sent, p.written, p.asked + asked), sent)
  {
    hide Low32;
    hide Sub32;
    var all := p.asked + asked;
    assert LastAsked(all) == LastOr(asked, LastAsked(p.asked));
    forall i, j | 0 <= i < j < |all| ensures all[i] < all[j] {
      if i < |p.asked| <= j {
        assert p.asked[i] <= LastAsked(p.asked);
        assert all[j] == asked[j - |p.asked|];
      }
    }
  }

  // ----- any step

  lemma AnyStep(p: Peer, inbox: set<Packet>, act: Action, delivered: nat, sent: seq<Payload>)
    requires Healthy(p, delivered, sent)
    requires Possible(p, inbox, act) && Assumed(p, act) && Truthful(p, delivered, sent, act)
    requires Enabled(p.e, act)
    ensures Goes(p, act, delivered, sent)
  {
    hide Healthy;
    hide Goes;
    match act
    case Readable(_) => ReadableStep(p, act, delivered, sent);
    case Fires(_) => FiresStep(p, act, delivered, sent);
    case Idle => ClosingStep(p, act, delivered, sent);
    case Receive(k, _) =>
      if !p.e.alive || k.dg.handle != p.e.handle {
        IgnoredStep(p, act, delivered, sent);
      } else {
        match k.dg
        case Response(_, _, _) => ResponseStep(p, act, delivered, sent);
        case Retrans(_, _) => RetransStep(p, act, delivered, sent);
        case Close(_) => ClosingStep(p, act, delivered, sent);
        case Data(_, _, _) =>
          if k.serial == |p.written| + 1 {
            NextStep(p, act, delivered, sent);
          } else if |p.written| + 2 <= k.serial <= |p.written| + p.e.window {
            AheadStep(p, act, delivered, sent);
          } else {
            OutsideStep(p, act, delivered, sent);
          }
      }
  }
}
