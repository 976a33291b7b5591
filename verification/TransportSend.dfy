// What each callback keeps of the sending half of an end.
module TransportSend {
  import opened Wire
  import opened EndSpec
  import opened Transport

  // p after a callback that reads nothing from TCP, writes nothing to it and asks for nothing
  function With(p: Peer, e: Endpoint): Peer {
    p.(e := e)
  }

  lemma RequestAdded(p: Peer, payload: Payload, delivered: nat)
    requires TxOk(p, delivered) && p.e.alive && Sized(p.e) && 1 <= |payload| <= PAYLOAD_MAX
    requires p.e.armed && p.e.sendCount < p.e.window && Add32(p.e.sendSeq, 1) !in p.e.sendMess
    ensures var p' := Peer(AddRequest(p.e, payload).e, p.sent + [payload], p.written, p.asked);
      TxOk(p', delivered) && DataOk(p'.sent, Packet(AddRequest(p.e, payload).out[0], |p'.sent|))
  {
    var n := |p.sent|;
    var number := Low32(n + 1);
    AddToLow(n, 1);
    KeptGrows(p, payload);
    QueueGrows(p.e, number, payload);
    hide Low32;
    hide Sub32;
    hide Add32;
    hide Kept;
    hide Backpressure;
    hide ShotsLeft;
    var queue := p.e.sendMess[number := New(number, payload)];
    assert AddRequest(p.e, payload).e.sendMess == queue;
    forall m | delivered < m <= n + 1 ensures Low32(m) in queue {
    }
    Pigeonhole(delivered, n + 1, queue.Keys);
  }

  lemma QueueGrows(e: Endpoint, number: u32, payload: Payload)
    requires Sized(e) && e.armed && Backpressure(e) && ShotsLeft(e) && e.sendCount < e.window
    requires number == Add32(e.sendSeq, 1) && number !in e.sendMess
    ensures var e' := AddRequest(e, payload).e;
      Backpressure(e') && ShotsLeft(e') && |e.sendMess[number := New(number, payload)]| <= e.window
  {
    CountUpDown(e.sendCount);
    hide Add32;
    assert |e.sendMess[number := New(number, payload)]| == |e.sendMess| + 1;
  }

  lemma KeptGrows(p: Peer, payload: Payload)
    requires Kept(p)
    ensures var number := Low32(|p.sent| + 1);
      Kept(Peer(AddRequest(p.e, payload).e.(sendMess := p.e.sendMess[number := New(number, payload)]),
                p.sent + [payload], p.written, p.asked))
  {
    hide Low32;
    hide SerialOf;
    hide AddRequest;
    var n, sent := |p.sent|, p.sent + [payload];
    var queue := p.e.sendMess[Low32(n + 1) := New(Low32(n + 1), payload)];
    forall k | k in queue
      ensures var m := SerialOf(n + 1, k); 1 <= m <= n + 1 && queue[k].payload == sent[m - 1] && queue[k].over == 0
    {
      SerialOfNext(n, k);
      SerialFacts(n, k);
    }
  }

  // A message may leave the queue once it is delivered.
  lemma MessageRemoved(p: Peer, number: u32, delivered: nat)
    requires TxOk(p, delivered) && p.e.alive && Sized(p.e) && number in p.e.sendMess
    requires SerialOf(|p.sent|, number) <= delivered
    ensures TxOk(With(p, RemoveMessage(p.e, number)), delivered)
  {
    hide Low32;
    hide Sub32;
    var p' := With(p, RemoveMessage(p.e, number));
    assert |p'.e.sendMess| == |p.e.sendMess| - 1;
    CountUpDown(p.e.sendCount);
    forall n | delivered < n <= |p.sent| ensures Low32(n) in p'.e.sendMess {
      SerialIsUnique(|p.sent|, n);
    }
  }

  // Changing a message's retry count or timer changes nothing that matters here.
  lemma MessageTouched(p: Peer, number: u32, m: Message, delivered: nat)
    requires TxOk(p, delivered) && number in p.e.sendMess && m.payload == p.e.sendMess[number].payload && m.over == p.e.sendMess[number].over
    requires m.timer && p.e.alive ==> m.retries <= p.e.window + 1
    ensures TxOk(With(p, p.e.(sendMess := p.e.sendMess[number := m])), delivered)
  {
    var e' := p.e.(sendMess := p.e.sendMess[number := m]);
    assert e'.sendMess.Keys == p.e.sendMess.Keys;
    assert |e'.sendMess| == |p.e.sendMess| by {
      assert |e'.sendMess.Keys| == |p.e.sendMess.Keys|;
    }
    if p.e.alive {
      assert Kept(With(p, e'));
    }
  }

  // What TxOk looks at, apart from the histories.
  predicate SameSending(e: Endpoint, e': Endpoint) {
    && e'.window == e.window && e'.handle == e.handle && e'.sendSeq == e.sendSeq
    && (e'.alive ==> e.alive && e'.sendMess == e.sendMess && e'.sendCount == e.sendCount && e'.armed == e.armed)
  }

  lemma SameSendingKeepsTx(p: Peer, p': Peer, delivered: nat)
    requires TxOk(p, delivered) && SameSending(p.e, p'.e) && p'.sent == p.sent
    ensures TxOk(p', delivered)
  {
    if p'.e.alive {
      assert Kept(p');
    }
  }

  lemma DeliveringMoreKeepsTx(p: Peer, delivered: nat, more: nat)
    requires TxOk(p, delivered) && delivered <= more <= |p.sent|
    ensures TxOk(p, more)
  {
  }

  lemma TryDeleteKeepsTx(p: Peer, delivered: nat)
    requires TxOk(p, delivered)
    ensures TxOk(With(p, TryDelete(p.e).e), delivered)
  {
    SameSendingKeepsTx(p, With(p, TryDelete(p.e).e), delivered);
  }

  // What the length tests see of a message as it was kept.
  lemma KeptInFull(p: Peer, number: u32, delivered: nat)
    requires TxOk(p, delivered) && p.e.alive && number in p.e.sendMess
    ensures var m := p.e.sendMess[number];
      ValidLength(m) == |m.payload| > 0 && m.over == 0 && Shortened(m, 0) == m
  {
    hide Low32;
    hide Sub32;
    hide SerialOf;
    hide ValidLength;
    hide Shortened;
    hide Backpressure;
    hide ShotsLeft;
    hide NothingForgotten;
    KeptIsSent(p, number);
    FullMessage(p.e.sendMess[number]);
  }

  lemma KeptIsSent(p: Peer, number: u32)
    requires Kept(p) && Sendable(p.sent) && number in p.e.sendMess
    ensures p.e.sendMess[number].over == 0 && 1 <= |p.e.sendMess[number].payload| <= PAYLOAD_MAX
  {
    SerialFacts(|p.sent|, number);
    hide SerialOf;
    hide Low32;
  }

  lemma FullMessage(m: Message)
    requires m.over == 0 && 1 <= |m.payload| <= PAYLOAD_MAX
    ensures ValidLength(m) == |m.payload| && Shortened(m, 0) == m
  {
    assert Trim(m.payload, 0) == m.payload;
  }

  // An acknowledgement that arrives and counts is for the very message kept under its number.
  lemma AckIsForKept(p: Peer, k: Packet, delivered: nat)
    requires TxOk(p, delivered) && p.e.alive && k.dg.Response? && k.dg.number in p.e.sendMess
    requires AckOk(p.sent, delivered, k) && k.dg.value > 0 && Recent(p, k)
    ensures SerialOf(|p.sent|, k.dg.number) == k.serial <= delivered
    ensures k.dg.value == |p.e.sendMess[k.dg.number].payload| == ValidLength(p.e.sendMess[k.dg.number])
  {
    hide Low32;
    hide Sub32;
    SerialIsUnique(|p.sent|, k.serial);
    KeptInFull(p, k.dg.number, delivered);
    hide ValidLength;
  }

  lemma ResponseKeepsTx(p: Peer, k: Packet, delivered: nat)
    requires TxOk(p, delivered) && p.e.alive && Sized(p.e) && k.dg.Response?
    requires AckOk(p.sent, delivered, k) && Recent(p, k)
    ensures TxOk(With(p, HandleDataResponse(p.e, k.dg.number, k.dg.value).e), delivered)
  {
    var number, value := k.dg.number, k.dg.value;
    if number in p.e.sendMess {
      var m := p.e.sendMess[number];
      KeptInFull(p, number, delivered);
      hide ValidLength;
      hide Shortened;
      if value > 0 {
        AckIsForKept(p, k, delivered);
        MessageRemoved(p, number, delivered);
        hide TxOk;
        TryDeleteKeepsTx(With(p, RemoveMessage(p.e, number)), delivered);
      } else if value == 0 {
        assert p.e.sendMess[number := m] == p.e.sendMess;
        hide TxOk;
        TryDeleteKeepsTx(p, delivered);
      } else {
        SameSendingKeepsTx(p, With(p, Delete(p.e, false).e), delivered);
      }
    }
  }

  lemma ClosingKeepsTx(p: Peer, delivered: nat)
    requires TxOk(p, delivered)
    ensures TxOk(With(p, DeleteLater(p.e).e), delivered)
  {
    SameSendingKeepsTx(p, With(p, DeleteLater(p.e).e), delivered);
  }

  lemma TimeoutKeepsTx(p: Peer, number: u32, delivered: nat)
    requires TxOk(p, delivered) && number in p.e.sendMess
    ensures TxOk(With(p, RequestTimeout(p.e, number).e), delivered)
  {
    hide TxOk;
    var m := p.e.sendMess[number];
    if m.retries > p.e.window {
      var m' := m.(retries := m.retries + 1, timer := false);
      MessageTouched(p, number, m', delivered);
      ClosingKeepsTx(With(p, p.e.(sendMess := p.e.sendMess[number := m'])), delivered);
    } else {
      MessageTouched(p, number, m.(retries := m.retries + 1, timer := true), delivered);
    }
  }

  // A resent message is again the payload read under its number.
  lemma ResentIsTrue(p: Peer, number: u32, delivered: nat)
    requires TxOk(p, delivered) && p.e.alive && number in p.e.sendMess
    ensures DataOk(p.sent, Packet(Data(p.e.handle, number, p.e.sendMess[number].payload), SerialOf(|p.sent|, number)))
  {
    hide Low32;
    hide Sub32;
    SerialFacts(|p.sent|, number);
  }
}
