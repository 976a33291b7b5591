// The callbacks of t2u_session.c and t2u_message.c on an established session, updating its
// fields in place.  Each is proved to do what EndSpec.dfy says; the protocol theorems of
// Transport.dfy are about those functions.
module SessionModule {
  import opened Wire
  import opened EndSpec

  class Session {
    var alive: bool
    var handle: u64
    var window: nat
    var status: int
    var sendSeq: u32
    var sendMess: map<u32, Message>
    var sendCount: u32
    var armed: bool
    var recvSeq: u32
    var recvMess: map<u32, Payload>
    var recvCount: u32
    var retrySeq: u32

    ghost function State(): Endpoint
      reads this
    {
      Endpoint(alive, handle, window, status, sendSeq, sendMess, sendCount, armed,
                        recvSeq, recvMess, recvCount, retrySeq)
    }

    // A session as it is once both ends are connected.
    constructor (handle: u64, window: nat)
      ensures State() == Fresh(handle, window)
    {
      this.alive, this.handle, this.window, this.status := true, handle, window, 2;
      sendSeq, sendMess, sendCount, armed := 0, map[], 0, true;
      recvSeq, recvMess, recvCount, retrySeq := 0, map[], 0, 0;
    }

    // ----- closing

    method DeleteRequestMessage(number: u32)
      requires number in sendMess
      modifies this
      ensures State() == if old(alive) then RemoveMessage(old(State()), number)
                         else RemoveMessage(old(State()), number).(armed := old(armed))
    {
      sendMess := sendMess - {number};
      sendCount := Sub32(sendCount, 1);
      if alive {
        if !armed {
          armed := true;
        }
      }
    }

    method ClearRecv()
      modifies this
      ensures State() == old(State()).(recvMess := map[])
    {
      while recvMess != map[]
        invariant State() == old(State()).(recvMess := recvMess)
        decreases |recvMess|
      {
        var number :| number in recvMess.Keys;
        recvMess := recvMess - {number};
      }
    }

    method ClearSend()
      requires !alive
      modifies this
      ensures State() == old(State()).(sendMess := map[], sendCount := Add32(old(sendCount), -|old(sendMess)|))
    {
      while sendMess != map[]
        invariant State() == old(State()).(sendMess := sendMess, sendCount := sendCount)
        invariant sendCount == Add32(old(sendCount), |sendMess| - |old(sendMess)|)
        decreases |sendMess|
      {
        var number :| number in sendMess.Keys;
        OneFewer(old(sendCount), |sendMess| - |old(sendMess)|);
        ghost var n := |sendMess|;
        DeleteRequestMessage(number);
        assert |sendMess| == n - 1;
      }
    }

    method DeleteConnected(fromPair: bool) returns (out: seq<Datagram>)
      modifies this
      ensures State() == Delete(old(State()), fromPair).e
      ensures out == Delete(old(State()), fromPair).out
    {
      alive, armed := false, false;
      out := [];
      if !fromPair {
        out := [Close(handle)];
      }
      ClearRecv();
      ClearSend();
    }

    static lemma OneFewer(count: u32, k: int)
      ensures Sub32(Add32(count, k), 1) == Add32(count, k - 1)
    {
    }

    method TryDelete() returns (out: seq<Datagram>)
      modifies this
      ensures State() == EndSpec.TryDelete(old(State())).e
      ensures out == EndSpec.TryDelete(old(State())).out
    {
      out := [];
      if status == 3 && sendMess == map[] && recvMess == map[] {
        out := DeleteConnected(false);
      }
    }

    method DeleteLater() returns (out: seq<Datagram>)
      modifies this
      ensures State() == EndSpec.DeleteLater(old(State())).e
      ensures out == EndSpec.DeleteLater(old(State())).out
    {
      status := 3;
      out := TryDelete();
    }

    // ----- sending

    method AddRequest(payload: Payload) returns (out: seq<Datagram>)
      modifies this
      ensures State() == EndSpec.AddRequest(old(State()), payload).e
      ensures out == EndSpec.AddRequest(old(State()), payload).out
    {
      sendSeq := Add32(sendSeq, 1);
      if sendSeq !in sendMess {
        sendMess := sendMess[sendSeq := New(sendSeq, payload)];
      }
      sendCount := Add32(sendCount, 1);
      out := [Data(handle, sendSeq, payload)];
    }

    method ProcessTcp(read: TcpRead) returns (out: seq<Datagram>)
      modifies this
      ensures State() == EndSpec.ProcessTcp(old(State()), read).e
      ensures out == EndSpec.ProcessTcp(old(State()), read).out
    {
      out := [];
      if sendCount >= window {
        armed := false;
        return;
      }
      match read
      case Got(payload) =>
        out := AddRequest(payload);
      case Closed =>
        out := DeleteConnected(false);
      case Blocked =>
    }

    method RequestTimeout(number: u32) returns (out: seq<Datagram>)
      requires number in sendMess
      modifies this
      ensures State() == EndSpec.RequestTimeout(old(State()), number).e
      ensures out == EndSpec.RequestTimeout(old(State()), number).out
    {
      var m := sendMess[number];
      var tries := m.retries;
      m := m.(retries := tries + 1, timer := false);
      sendMess := sendMess[number := m];
      if tries > window {
        out := DeleteLater();
      } else {
        sendMess := sendMess[number := m.(timer := true)];
        out := Resend(handle, number, m);
      }
    }

    method HandleDataResponse(number: u32, value: int) returns (out: seq<Datagram>)
      requires alive
      modifies this
      ensures State() == EndSpec.HandleDataResponse(old(State()), number, value).e
      ensures out == EndSpec.HandleDataResponse(old(State()), number, value).out
    {
      out := [];
      if number in sendMess {
        var m := sendMess[number];
        if value == ValidLength(m) {
          DeleteRequestMessage(number);
        } else if value >= 0 {
          if value > 0 {
            sendMess := sendMess[number := Shortened(m, value)];
          } else {
            TrimNothing(m.payload);
            assert Shortened(m, 0) == m && sendMess == sendMess[number := m];
          }
        } else {
          out := DeleteConnected(false);
          return;
        }
        out := TryDelete();
      }
    }

    static lemma TrimNothing(p: Payload)
      ensures Trim(p, 0) == p
    {
    }

    method HandleRetrans(number: u32) returns (out: seq<Datagram>)
      ensures out == EndSpec.HandleRetrans(State(), number).out
      ensures EndSpec.HandleRetrans(State(), number).e == State()
    {
      out := [];
      if number in sendMess {
        out := Resend(handle, number, sendMess[number]);
      }
    }

    // ----- receiving

    // The body of the delivery loop.
    method DeliverNext(number: u32, payload: Payload, answer: TcpWrite)
      returns (out: seq<Datagram>, wrote: seq<Payload>, more: bool, nextNumber: u32, nextPayload: Payload)
      requires alive
      modifies this
      ensures Delivery(Outcome(State(), out, wrote), more, nextNumber, nextPayload)
           == DeliverOne(old(State()), number, payload, answer)
    {
      out, wrote, more, nextNumber, nextPayload := [], [], false, number, payload;
      var n := Taken(answer, payload);
      if answer == Failed || (answer != WouldBlock && n == 0) {
        out := DeleteLater();
        out := [Response(handle, number, -1)] + out;
        return;
      } else if answer == WouldBlock {
        out := [Response(handle, number, -1)];
        return;
      }
      out, wrote := [Response(handle, number, n)], [payload[..n]];
      if n != |payload| {
        return;
      }
      assert payload[..n] == payload;
      recvSeq := Add32(recvSeq, 1);
      var next := Add32(number, 1);
      if next in recvMess {
        nextNumber, nextPayload := next, recvMess[next];
        recvMess := recvMess - {next};
        recvCount := Sub32(recvCount, 1);
        var closing := TryDelete();
        out := out + closing;
        more := alive;
      }
    }

    method DeliverInOrder(first: u32, payload: Payload, answers: seq<TcpWrite>)
      returns (out: seq<Datagram>, wrote: seq<Payload>)
      requires alive
      modifies this
      ensures Outcome(State(), out, wrote) == Drain(old(State()), first, payload, answers, 0)
    {
      hide DeliverOne;
      out, wrote := [], [];
      var number, p, k, more := first, payload, 0, true;
      ghost var goal := Drain(State(), first, payload, answers, 0);
      ThenFirst(State(), goal);
      hide Drain;
      while more
        invariant more ==> alive && goal == Then(Outcome(State(), out, wrote), Drain(State(), number, p, answers, k))
        invariant !more ==> goal == Outcome(State(), out, wrote)
        decreases more, |recvMess|
      {
        OneTurn(Outcome(State(), out, wrote), State(), number, p, answers, k);
        var sent, written;
        sent, written, more, number, p := DeliverNext(number, p, Answer(answers, k));
        out, wrote, k := out + sent, wrote + written, k + 1;
      }
    }

    static lemma ThenFirst(e: Endpoint, o: Outcome)
      ensures Then(Outcome(e, [], []), o) == o
    {
      assert [] + o.out == o.out && [] + o.wrote == o.wrote;
    }

    // One turn of the loop, after what has been done before.
    static lemma OneTurn(before: Outcome, e: Endpoint, number: u32, p: Payload, answers: seq<TcpWrite>, k: nat)
      ensures var d := DeliverOne(e, number, p, Answer(answers, k));
        Then(before, Drain(e, number, p, answers, k))
        == if d.more then Then(Then(before, d.o), Drain(d.o.e, d.number, d.payload, answers, k + 1)) else Then(before, d.o)
    {
      var d := DeliverOne(e, number, p, Answer(answers, k));
      hide DeliverOne;
      if d.more {
        ThenThen(before, d.o, Drain(d.o.e, d.number, d.payload, answers, k + 1));
      }
    }

    static lemma ThenThen(a: Outcome, b: Outcome, c: Outcome)
      ensures Then(a, Then(b, c)) == Then(Then(a, b), c)
    {
      assert a.out + (b.out + c.out) == (a.out + b.out) + c.out;
      assert a.wrote + (b.wrote + c.wrote) == (a.wrote + b.wrote) + c.wrote;
    }

    method RequestMissing(number: u32) returns (out: seq<Datagram>)
      modifies this
      ensures State() == Ask(old(State()), number, 0).e
      ensures out == Ask(old(State()), number, 0).out
    {
      out := [];
      ghost var goal := Ask(State(), number, 0);
      AskEnds(State(), number);
      hide Ask;
      hide Add32;
      hide Sub32;
      for i := 0 to window
        invariant window == old(window)
        invariant goal.e == Ask(State(), number, i).e && goal.out == out + Ask(State(), number, i).out
      {
        AskTurn(State(), number, i);
        var test := Add32(recvSeq, 1 + i);
        if test !in recvMess {
          var span1 := Sub32(number, test);
          var span2 := Sub32(retrySeq, test);
          if span1 <= window && span2 > window {
            out := out + [Retrans(handle, test)];
            retrySeq := test;
          }
        }
      }
      AskEnds(State(), number);
    }

    // One turn of the retransmit loop, and what is left after the last.
    static lemma AskTurn(e: Endpoint, number: u32, i: nat)
      requires i < e.window
      ensures var test := Add32(e.recvSeq, 1 + i);
        if MustAsk(e, number, test) then
          var rest := Ask(e.(retrySeq := test), number, i + 1);
          Ask(e, number, i).e == rest.e && Ask(e, number, i).out == [Retrans(e.handle, test)] + rest.out
        else Ask(e, number, i) == Ask(e, number, i + 1)
    {
      hide Add32;
      hide MustAsk;
    }

    static lemma AskEnds(e: Endpoint, number: u32)
      ensures Ask(e, number, e.window) == Quiet(e)
    {
    }

    method HandleDataRequest(number: u32, payload: Payload, answers: seq<TcpWrite>)
      returns (out: seq<Datagram>, wrote: seq<Payload>)
      requires alive
      modifies this
      ensures Outcome(State(), out, wrote) == EndSpec.HandleDataRequest(old(State()), number, payload, answers)
    {
      out, wrote := [], [];
      var diff := Sub32(number, recvSeq);
      if diff > window || diff <= 1 {
        if diff == 1 {
          out, wrote := DeliverInOrder(number, payload, answers);
        } else {
          out := [Response(handle, number, 0)];
        }
      } else {
        if number !in recvMess && recvCount < window {
          recvMess := recvMess[number := payload];
          recvCount := Add32(recvCount, 1);
        }
        out := RequestMissing(number);
      }
    }

    // ----- dispatch

    method ProcessUdp(d: Datagram, answers: seq<TcpWrite>)
      returns (out: seq<Datagram>, wrote: seq<Payload>)
      modifies this
      ensures Outcome(State(), out, wrote) == Dispatch(old(State()), d, answers)
    {
      out, wrote := [], [];
      if !alive || d.handle != handle {
        return;
      }
      match d
      case Data(_, number, payload) =>
        out, wrote := HandleDataRequest(number, payload, answers);
      case Response(_, number, value) =>
        out := HandleDataResponse(number, value);
      case Retrans(_, number) =>
        out := HandleRetrans(number);
      case Close(_) =>
        out := DeleteConnected(true);
    }
  }
}
