// What each callback keeps of the receiving half of an end.
module TransportReceive {
  import opened Wire
  import opened EndSpec
  import opened Transport
  import opened TransportSend

  // ----- the window test on 32-bit numbers agrees with true numbers

  // n arrives when m payloads have been delivered.
  lemma WindowTest(n: int, m: int, window: nat)
    requires 1 <= window <= 64 && n - m <= 64 && m - n < MOD32 - 64
    ensures var diff := Sub32(Low32(n), Low32(m));
      && (diff == 1 <==> n == m + 1)
      && (2 <= diff <= window <==> m + 2 <= n <= m + window)
      && (diff == 0 || diff > window <==> n <= m || n > m + window)
  {
    SubOfLows(n, m);
  }

  // An older datagram is taken for a new one exactly in the last window before it wraps.
  lemma StaleMisread(n: int, m: int, window: nat)
    requires 1 <= window <= 64 && 0 <= m - n < MOD32
    ensures 1 <= Sub32(Low32(n), Low32(m)) <= window <==> m - n >= MOD32 - window
  {
    SubOfLows(n, m);
  }

  // ----- the reorder queue

  // The keys at distances 2 to window are at most window - 1 many.
  lemma {:induction false} FewKeys(delivered: nat, window: nat, keys: set<u32>)
    requires 1 <= window <= 64
    requires forall k :: k in keys ==> 2 <= Sub32(k, Low32(delivered)) <= window
    ensures |keys| < window
    decreases window
  {
    var last := Low32(delivered + window);
    var rest := keys - {last};
    if window == 1 {
      assert keys == {};
    } else {
      forall k | k in rest ensures 2 <= Sub32(k, Low32(delivered)) <= window - 1 {
        if Sub32(k, Low32(delivered)) == window { DistanceIsKey(k, delivered, window); }
      }
      FewKeys(delivered, window - 1, rest);
      assert |keys| <= |rest| + 1;
    }
  }

  lemma DistanceIsKey(k: u32, m: int, d: nat)
    requires Sub32(k, Low32(m)) == d
    ensures k == Low32(m + d)
  {
  }

  lemma DistanceOfNext(k: u32, m: int)
    requires k != Low32(m)
    ensures Sub32(k, Low32(m)) >= 1
    ensures Sub32(k, Low32(m + 1)) == Sub32(k, Low32(m)) - 1 || k == Low32(m)
  {
  }

  // The count check never refuses a new packet inside the window.
  lemma BufferTakes(e: Endpoint, n: int, delivered: nat, sent: seq<Payload>)
    requires Sized(e) && Reorder(e, delivered, sent)
    requires delivered + 2 <= n <= delivered + e.window && n <= |sent|
    ensures var e' := Buffer(e, Low32(n), sent[n - 1]);
      Reorder(e', delivered, sent) && Low32(n) in e'.recvMess
  {
    FewKeys(delivered, e.window, e.recvMess.Keys);
    SubOfLows(n, delivered);
    CountUpDown(e.recvCount);
    hide Low32;
    hide Sub32;
    hide Add32;
    var e' := Buffer(e, Low32(n), sent[n - 1]);
    if Low32(n) !in e.recvMess {
      assert |e'.recvMess| == |e.recvMess| + 1;
    }
  }

  // ----- delivery

  ghost predicate Receiving(e: Endpoint, delivered: nat, sent: seq<Payload>) {
    && Sized(e) && delivered <= |sent| && Sendable(sent)
    && e.recvSeq == Low32(delivered)
    && (e.alive ==> Reorder(e, delivered, sent))
  }

  // The datagrams of a delivery: the i-th may acknowledge the i-th payload delivered, in full.
  ghost predicate AcksInOrder(out: seq<Datagram>, delivered: nat, count: nat, sent: seq<Payload>) {
    forall i :: 0 <= i < |out| ==>
      && (out[i].Response? || out[i].Close?)
      && (out[i].Response? && out[i].value > 0 ==>
            && i < count && delivered + i < |sent|
            && out[i].number == Low32(delivered + 1 + i) && out[i].value == |sent[delivered + i]|)
  }

  ghost predicate Delivered(e: Endpoint, o: Outcome, delivered: nat, sent: seq<Payload>) {
    && Receiving(o.e, delivered + |o.wrote|, sent)
    && o.wrote == sent[delivered..delivered + |o.wrote|]
    && AcksInOrder(o.out, delivered, |o.wrote|, sent)
    && SameSending(e, o.e) && o.e.retrySeq == e.retrySeq
  }

  // Every other queued number is one closer after a delivery.
  lemma OneCloser(k: u32, delivered: nat)
    requires k != Low32(delivered + 2) && Sub32(k, Low32(delivered)) >= 2
    ensures Sub32(k, Low32(delivered + 1)) == Sub32(k, Low32(delivered)) - 1 >= 2
  {
    SubOfLows(delivered, delivered);
    DistanceOfNext(k, delivered);
    if Sub32(k, Low32(delivered)) == 2 { DistanceIsKey(k, delivered, 2); }
  }

  lemma QueueAdvances(e: Endpoint, e': Endpoint, delivered: nat, sent: seq<Payload>)
    requires Reorder(e, delivered, sent) && e'.window == e.window
    requires e'.recvMess == e.recvMess - {Low32(delivered + 2)} && |e'.recvMess| == e'.recvCount
    ensures Reorder(e', delivered + 1, sent)
  {
    forall k | k in e'.recvMess
      ensures Sub32(k, Low32(delivered + 1)) == Sub32(k, Low32(delivered)) - 1 >= 2
    {
      OneCloser(k, delivered);
    }
    hide Low32;
    hide Sub32;
  }

  // Counting one payload as delivered, with the next one not (or no longer) in the queue.
  lemma AdvanceOne(e: Endpoint, delivered: nat, sent: seq<Payload>)
    requires Receiving(e, delivered, sent) && e.alive && delivered < |sent|
    ensures var next := Low32(delivered + 2);
      var e1 := e.(recvSeq := Add32(e.recvSeq, 1));
      if next in e.recvMess
      then && delivered + 2 <= |sent| && e.recvMess[next] == sent[delivered + 1]
           && Receiving(e1.(recvMess := e.recvMess - {next}, recvCount := Sub32(e.recvCount, 1)), delivered + 1, sent)
      else Receiving(e1, delivered + 1, sent)
  {
    var next := Low32(delivered + 2);
    AddToLow(delivered, 1);
    SubOfLows(delivered + 2, delivered);
    CountUpDown(e.recvCount);
    hide Low32;
    hide Sub32;
    hide Add32;
    var e1 := e.(recvSeq := Add32(e.recvSeq, 1));
    if next in e.recvMess {
      var e2 := e1.(recvMess := e.recvMess - {next}, recvCount := Sub32(e.recvCount, 1));
      assert |e.recvMess - {next}| == |e.recvMess| - 1;
      QueueAdvances(e, e2, delivered, sent);
    } else {
      assert e.recvMess - {next} == e.recvMess;
      QueueAdvances(e, e1, delivered, sent);
    }
  }

  // Freeing the session, or not, touches neither half of what is left.
  lemma TryDeleteKeepsRx(e: Endpoint, delivered: nat, sent: seq<Payload>)
    requires Receiving(e, delivered, sent)
    ensures var o := TryDelete(e);
      && Receiving(o.e, delivered, sent) && SameSending(e, o.e) && o.e.retrySeq == e.retrySeq && o.wrote == []
      && (o.e.alive ==> o.out == []) && (forall i :: 0 <= i < |o.out| ==> o.out[i].Close?)
  {
    hide Reorder;
  }

  lemma NothingDelivered(e: Endpoint, delivered: nat, sent: seq<Payload>, w: TcpWrite)
    requires Receiving(e, delivered, sent) && delivered < |sent| && (w == WouldBlock || w == Failed)
    ensures var d := DeliverOne(e, Low32(delivered + 1), sent[delivered], w);
      Delivered(e, d.o, delivered, sent) && !d.more
  {
    assert Receiving(e.(status := 3), delivered, sent);
    TryDeleteKeepsRx(e.(status := 3), delivered, sent);
    assert sent[delivered..delivered] == [];
    hide Low32;
    hide TryDelete;
    hide Receiving;
  }

  // The turn that empties the run of queued payloads.
  lemma LastDelivered(e: Endpoint, delivered: nat, sent: seq<Payload>)
    requires Receiving(e, delivered, sent) && e.alive && delivered < |sent| && sent[delivered] != []
    requires Low32(delivered + 2) !in e.recvMess
    ensures var d := DeliverOne(e, Low32(delivered + 1), sent[delivered], All);
      Delivered(e, d.o, delivered, sent) && !d.more
  {
    AdvanceOne(e, delivered, sent);
    AddToLow(delivered + 1, 1);
    AcksOfOne(e.handle, [], delivered, sent);
    hide Low32;
    hide Sub32;
    hide Add32;
    hide Receiving;
    hide AcksInOrder;
    var p := sent[delivered];
    assert sent[delivered..delivered + 1] == [p];
    var d := DeliverOne(e, Low32(delivered + 1), p, All);
    assert d.o == Outcome(e.(recvSeq := Add32(e.recvSeq, 1)), [Response(e.handle, Low32(delivered + 1), |p|)], [p]);
    hide DeliverOne;
  }

  // A turn with the next payload waiting in the queue; the session may be freed on the way.
  lemma MoreDelivered(e: Endpoint, delivered: nat, sent: seq<Payload>)
    requires Receiving(e, delivered, sent) && e.alive && delivered < |sent| && sent[delivered] != []
    requires Low32(delivered + 2) in e.recvMess
    ensures var d := DeliverOne(e, Low32(delivered + 1), sent[delivered], All);
      && Delivered(e, d.o, delivered, sent)
      && (d.more ==> |d.o.wrote| == |d.o.out| == 1 && delivered + 1 < |sent| && d.o.e.alive
                     && d.number == Low32(delivered + 2) && d.payload == sent[delivered + 1])
  {
    AdvanceOne(e, delivered, sent);
    TakesNext(e, delivered, sent[delivered]);
    hide DeliverOne;
    hide Low32;
    hide Sub32;
    hide Add32;
    hide Receiving;
    hide AcksInOrder;
    var o := TryDelete(Taking(e, Low32(delivered + 2)));
    TryDeleteKeepsRx(Taking(e, Low32(delivered + 2)), delivered + 1, sent);
    AcksOfOne(e.handle, o.out, delivered, sent);
    hide TryDelete;
    assert sent[delivered..delivered + 1] == [sent[delivered]];
  }

  // The session with one payload counted and the next one out of the queue.
  function Taking(e: Endpoint, next: u32): Endpoint {
    e.(recvSeq := Add32(e.recvSeq, 1), recvMess := e.recvMess - {next}, recvCount := Sub32(e.recvCount, 1))
  }

  lemma TakesNext(e: Endpoint, delivered: nat, p: Payload)
    requires e.alive && p != [] && Low32(delivered + 2) in e.recvMess
    ensures var next := Low32(delivered + 2); var o := TryDelete(Taking(e, next));
      DeliverOne(e, Low32(delivered + 1), p, All)
      == Delivery(Outcome(o.e, [Response(e.handle, Low32(delivered + 1), |p|)] + o.out, [p]),
                  o.e.alive, next, e.recvMess[next])
  {
    AddToLow(delivered + 1, 1);
    hide Low32;
    hide Sub32;
    hide Add32;
    hide TryDelete;
  }

  lemma AcksOfOne(handle: u64, closing: seq<Datagram>, delivered: nat, sent: seq<Payload>)
    requires delivered < |sent| && forall i :: 0 <= i < |closing| ==> closing[i].Close?
    ensures AcksInOrder([Response(handle, Low32(delivered + 1), |sent[delivered]|)] + closing, delivered, 1, sent)
  {
    hide Low32;
  }

  // A write of no bytes is taken for a failure, one of enough bytes for a full one.
  lemma WholeIsAllOrNothing(e: Endpoint, number: u32, p: Payload, w: TcpWrite)
    requires WholeWrite(w) && 1 <= |p| <= PAYLOAD_MAX
    ensures w.Part? ==> DeliverOne(e, number, p, w) == DeliverOne(e, number, p, if w.bytes == 0 then Failed else All)
  {
  }

  lemma DeliverOneDelivers(e: Endpoint, delivered: nat, sent: seq<Payload>, w: TcpWrite)
    requires Receiving(e, delivered, sent) && e.alive && delivered < |sent| && WholeWrite(w)
    ensures var d := DeliverOne(e, Low32(delivered + 1), sent[delivered], w);
      && Delivered(e, d.o, delivered, sent)
      && (d.more ==> |d.o.wrote| == |d.o.out| == 1 && delivered + 1 < |sent| && d.o.e.alive
                     && d.number == Low32(delivered + 2) && d.payload == sent[delivered + 1])
  {
    assert sent[delivered] != [];
    WholeIsAllOrNothing(e, Low32(delivered + 1), sent[delivered], w);
    hide *;
    var whole := if !w.Part? then w else if w.bytes == 0 then Failed else All;
    if whole == All {
      if Low32(delivered + 2) in e.recvMess {
        MoreDelivered(e, delivered, sent);
      } else {
        LastDelivered(e, delivered, sent);
      }
    } else {
      NothingDelivered(e, delivered, sent, whole);
    }
  }

  lemma {:induction false} DrainDelivers(e: Endpoint, delivered: nat, sent: seq<Payload>, answers: seq<TcpWrite>, k: nat)
    requires Receiving(e, delivered, sent) && e.alive && delivered < |sent| && AllOrNothing(answers)
    ensures Delivered(e, Drain(e, Low32(delivered + 1), sent[delivered], answers, k), delivered, sent)
    decreases |e.recvMess|
  {
    hide Low32;
    hide DeliverOne;
    var w := Answer(answers, k);
    assert WholeWrite(w);
    DeliverOneDelivers(e, delivered, sent, w);
    var d := DeliverOne(e, Low32(delivered + 1), sent[delivered], w);
    if d.more {
      DrainDelivers(d.o.e, delivered + 1, sent, answers, k + 1);
      ThenDelivers(e, d.o, Drain(d.o.e, d.number, d.payload, answers, k + 1), delivered, sent);
    }
    hide Delivered;
    hide Receiving;
  }

  lemma ThenDelivers(e: Endpoint, o: Outcome, rest: Outcome, delivered: nat, sent: seq<Payload>)
    requires Delivered(e, o, delivered, sent) && |o.wrote| == |o.out| == 1
    requires Delivered(o.e, rest, delivered + 1, sent)
    ensures Delivered(e, Then(o, rest), delivered, sent)
  {
    hide Low32;
    var t := Then(o, rest);
    forall i | 0 <= i < |t.out| ensures i > 0 ==> t.out[i] == rest.out[i - 1] {
    }
  }
}
