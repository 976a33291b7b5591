// One end of a session, as a value: what each callback makes of its fields, which datagrams
// it sends and what it writes to the local TCP socket.  Session.dfy holds the callbacks
// themselves, in place, proved against these functions.
module EndSpec {
  import opened Wire

  // A data request kept until it is acknowledged; number is its seq_.  over is by how much acknowledgements have
  // exceeded its payload; len_ is then that much less than a header.
  datatype Message = Message(number: u32, payload: Payload, retries: nat, timer: bool, over: nat)

  function New(number: u32, payload: Payload): Message {
    Message(number, payload, 0, true, 0)
  }

  datatype Endpoint = Endpoint(
    alive: bool,                       // not yet freed
    handle: u64,
    window: nat,                       // udp_slide_window_ of this end's context
    status: int,                       // 2 established, 3 closing
    sendSeq: u32,
    sendMess: map<u32, Message>,
    sendCount: u32,
    armed: bool,                       // the TCP read event exists
    recvSeq: u32,
    recvMess: map<u32, Payload>,
    recvCount: u32,
    retrySeq: u32)

  // A session as both ends find it once connected.
  function Fresh(handle: u64, window: nat): Endpoint {
    Endpoint(true, handle, window, 2, 0, map[], 0, true, 0, map[], 0, 0)
  }

  datatype Outcome = Outcome(e: Endpoint, out: seq<Datagram>, wrote: seq<Payload>)

  // What recv() on the local TCP socket yields.
  datatype TcpRead = Got(payload: Payload) | Closed | Blocked

  // What send() on the local TCP socket does with a payload: takes all of it, or the given
  // number of bytes, or none because it would block, or fails.
  datatype TcpWrite = All | Part(bytes: nat) | WouldBlock | Failed

  function Taken(w: TcpWrite, p: Payload): nat {
    match w
    case All => |p|
    case Part(n) => if n < |p| then n else |p|
    case _ => 0
  }

  // The i-th answer of the socket; it takes everything unless told otherwise.
  function Answer(answers: seq<TcpWrite>, i: nat): TcpWrite {
    if i < |answers| then answers[i] else All
  }

  function Quiet(e: Endpoint): Outcome {
    Outcome(e, [], [])
  }

  // ----- closing

  // t2u_delete_connected_session
  function Delete(e: Endpoint, fromPair: bool): Outcome {
    Outcome(e.(alive := false, armed := false, recvMess := map[], sendMess := map[],
               sendCount := Add32(e.sendCount, -|e.sendMess|)),
            if fromPair then [] else [Close(e.handle)], [])
  }

  // t2u_try_delete_connected_session
  function TryDelete(e: Endpoint): Outcome {
    if e.status == 3 && e.sendMess == map[] && e.recvMess == map[] then Delete(e, false) else Quiet(e)
  }

  // t2u_delete_connected_session_later
  function DeleteLater(e: Endpoint): Outcome {
    TryDelete(e.(status := 3))
  }

  // ----- sending

  // t2u_add_request_message: a number still in use keeps its old message, but is counted again.
  function AddRequest(e: Endpoint, payload: Payload): Outcome {
    var number := Add32(e.sendSeq, 1);
    Outcome(e.(sendSeq := number,
               sendMess := if number in e.sendMess then e.sendMess else e.sendMess[number := New(number, payload)],
               sendCount := Add32(e.sendCount, 1)),
            [Data(e.handle, number, payload)], [])
  }

  // t2u_session_process_tcp
  function ProcessTcp(e: Endpoint, read: TcpRead): Outcome {
    if e.sendCount >= e.window then Quiet(e.(armed := false)) else
    match read
    case Got(payload) => AddRequest(e, payload)
    case Closed => Delete(e, false)
    case Blocked => Quiet(e)
  }

  // t2u_delete_request_message on a message in the tree: the read event is made again if it
  // is gone.  The message's own number, by which the source removes it, is the one it is filed
  // under (SendQueue.HistoryFilesOwn).
  function RemoveMessage(e: Endpoint, number: u32): Endpoint {
    e.(sendMess := e.sendMess - {number}, sendCount := Sub32(e.sendCount, 1), armed := true)
  }

  // A kept message sent again.  With len_ less than a header it is a cut header, which no
  // receiver takes for a datagram, or a length no send accepts.
  function Resend(handle: u64, number: u32, m: Message): seq<Datagram> {
    if m.over > 0 then [] else [Data(handle, number, m.payload)]
  }

  // process_request_timeout_cb_
  function RequestTimeout(e: Endpoint, number: u32): Outcome
    requires number in e.sendMess
  {
    var m := e.sendMess[number];
    if m.retries > e.window then
      DeleteLater(e.(sendMess := e.sendMess[number := m.(retries := m.retries + 1, timer := false)]))
    else
      Outcome(e.(sendMess := e.sendMess[number := m.(retries := m.retries + 1, timer := true)]),
              Resend(e.handle, number, m), [])
  }

  // The trimming after a partial acknowledgement: the length shrinks by value, but only
  // sizeof(int) bytes move.
  function Trim(p: Payload, value: nat): Payload
    requires value <= |p|
  {
    seq(|p| - value, i requires 0 <= i < |p| - value => if i < 4 then p[i + value] else p[i])
  }

  // valid_length: an int, whatever len_ has become.
  function ValidLength(m: Message): int {
    var length: int := if m.over > 0 then -(m.over as int) else |m.payload| as int;
    Signed(Bits(length))
  }

  // A message after an acknowledgement of some of it, or of more than it has.
  function Shortened(m: Message, value: nat): Message {
    if m.over > 0 then m.(over := m.over + value)
    else if value > |m.payload| then m.(payload := [], over := value - |m.payload|)
    else m.(payload := Trim(m.payload, value))
  }

  // t2u_message_handle_data_response
  function HandleDataResponse(e: Endpoint, number: u32, value: int): Outcome {
    if number !in e.sendMess then Quiet(e) else
    var m := e.sendMess[number];
    if value == ValidLength(m) then TryDelete(RemoveMessage(e, number))
    else if value >= 0 then TryDelete(e.(sendMess := e.sendMess[number := Shortened(m, value)]))
    else Delete(e, false)
  }

  // t2u_message_handle_retrans_request
  function HandleRetrans(e: Endpoint, number: u32): Outcome {
    if number !in e.sendMess then Quiet(e) else Outcome(e, Resend(e.handle, number, e.sendMess[number]), [])
  }

  // ----- receiving

  // One turn of the delivery loop, and the queued message the next turn is for, if any.
  datatype Delivery = Delivery(o: Outcome, more: bool, number: u32, payload: Payload)

  // The loop body of t2u_session_handle_data_request.  Once the session is freed the source
  // goes on with freed memory; here the loop stops.
  function DeliverOne(e: Endpoint, number: u32, p: Payload, w: TcpWrite): (d: Delivery)
    ensures d.more ==> d.o.e.alive == e.alive && |d.o.e.recvMess| < |e.recvMess|
  {
    var n := Taken(w, p);
    if w == Failed || (w != WouldBlock && n == 0) then
      var o := DeleteLater(e);
      Delivery(Outcome(o.e, [Response(e.handle, number, -1)] + o.out, []), false, number, p)
    else if w == WouldBlock then
      Delivery(Outcome(e, [Response(e.handle, number, -1)], []), false, number, p)
    else if n < |p| then
      Delivery(Outcome(e, [Response(e.handle, number, n)], [p[..n]]), false, number, p)
    else
      var e1 := e.(recvSeq := Add32(e.recvSeq, 1));
      var next := Add32(number, 1);
      var done := [Response(e.handle, number, n)];
      if next !in e1.recvMess then Delivery(Outcome(e1, done, [p]), false, number, p) else
      var o := TryDelete(e1.(recvMess := e1.recvMess - {next}, recvCount := Sub32(e1.recvCount, 1)));
      assert |e1.recvMess - {next}| == |e1.recvMess| - 1;
      Delivery(Outcome(o.e, done + o.out, [p]), o.e.alive && e.alive, next, e1.recvMess[next])
  }

  function Then(o: Outcome, rest: Outcome): Outcome {
    Outcome(rest.e, o.out + rest.out, o.wrote + rest.wrote)
  }

  // The delivery loop, from a message that is next in line; k answers of the socket are used up.
  function Drain(e: Endpoint, number: u32, p: Payload, answers: seq<TcpWrite>, k: nat): Outcome
    decreases |e.recvMess|
  {
    var d := DeliverOne(e, number, p, Answer(answers, k));
    if d.more then Then(d.o, Drain(d.o.e, d.number, d.payload, answers, k + 1)) else d.o
  }

  // One number of the retransmit loop: missing, at most a window before the packet just
  // received, and not within a window before the last number asked for.
  predicate MustAsk(e: Endpoint, number: u32, test: u32) {
    test !in e.recvMess && Sub32(number, test) <= e.window && Sub32(e.retrySeq, test) > e.window
  }

  // The retransmit loop from its i-th number on.
  function Ask(e: Endpoint, number: u32, i: nat): (o: Outcome)
    requires i <= e.window
    ensures o.wrote == [] && o.e == e.(retrySeq := o.e.retrySeq)
    decreases e.window - i
  {
    if i == e.window then Quiet(e) else
    var test := Add32(e.recvSeq, 1 + i);
    if MustAsk(e, number, test) then
      var rest := Ask(e.(retrySeq := test), number, i + 1);
      Outcome(rest.e, [Retrans(e.handle, test)] + rest.out, [])
    else
      Ask(e, number, i + 1)
  }

  // The reorder queue takes a packet ahead of its turn unless it has it or is full.
  function Buffer(e: Endpoint, number: u32, p: Payload): Endpoint {
    if number !in e.recvMess && e.recvCount < e.window then
      e.(recvMess := e.recvMess[number := p], recvCount := Add32(e.recvCount, 1))
    else e
  }

  // t2u_session_handle_data_request
  function HandleDataRequest(e: Endpoint, number: u32, p: Payload, answers: seq<TcpWrite>): Outcome {
    var diff := Sub32(number, e.recvSeq);
    if diff > e.window || diff <= 1 then
      if diff == 1 then Drain(e, number, p, answers, 0)
      else Outcome(e, [Response(e.handle, number, 0)], [])
    else
      Ask(Buffer(e, number, p), number, 0)
  }

  // ----- dispatch: process_udp_cb_ for an established session

  function Dispatch(e: Endpoint, d: Datagram, answers: seq<TcpWrite>): Outcome {
    if !e.alive || d.handle != e.handle then Quiet(e) else
    match d
    case Data(_, number, p) => HandleDataRequest(e, number, p, answers)
    case Response(_, number, value) => HandleDataResponse(e, number, value)
    case Retrans(_, number) => HandleRetrans(e, number)
    case Close(_) => Delete(e, true)
  }
}
