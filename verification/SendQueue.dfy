// Whatever happens to a session, each message it keeps is filed under its own number.
module SendQueue {
  import opened Wire
  import opened EndSpec
  import opened Transport
  import TransportBudget
  import TransportLimits

  predicate FilesOwn(queue: map<u32, Message>) {
    forall k :: k in queue ==> queue[k].number == k
  }

  // acts takes an end from e to last; nothing is assumed of the peer, the network or the local
  // socket.
  predicate History(e: Endpoint, acts: seq<Action>, last: Endpoint)
    decreases |acts|
  {
    if acts == [] then last == e
    else Enabled(e, acts[0]) && History(React(e, acts[0]).e, acts[1..], last)
  }

  // ----- receiving data leaves the queue alone, or frees it

  predicate SameOrFreed(e: Endpoint, e': Endpoint) {
    e'.sendMess == e.sendMess || e'.sendMess == map[]
  }

  lemma DeliverOneSparesQueue(e: Endpoint, number: u32, p: Payload, w: TcpWrite)
    ensures SameOrFreed(e, DeliverOne(e, number, p, w).o.e)
  {
    hide Add32;
    hide Sub32;
  }

  lemma {:induction false} DrainSparesQueue(e: Endpoint, number: u32, p: Payload, answers: seq<TcpWrite>, k: nat)
    ensures SameOrFreed(e, Drain(e, number, p, answers, k).e)
    decreases |e.recvMess|
  {
    DeliverOneSparesQueue(e, number, p, Answer(answers, k));
    var d := DeliverOne(e, number, p, Answer(answers, k));
    hide DeliverOne;
    if d.more {
      DrainSparesQueue(d.o.e, d.number, d.payload, answers, k + 1);
    }
  }

  lemma DataSparesQueue(e: Endpoint, number: u32, p: Payload, answers: seq<TcpWrite>)
    ensures SameOrFreed(e, HandleDataRequest(e, number, p, answers).e)
  {
    DrainSparesQueue(e, number, p, answers, 0);
    hide Drain;
    hide Ask;
    hide Add32;
    hide Sub32;
  }

  // ----- any event, any history

  lemma ReactFilesOwn(e: Endpoint, act: Action)
    requires Enabled(e, act) && FilesOwn(e.sendMess)
    ensures FilesOwn(React(e, act).e.sendMess)
  {
    hide Add32;
    hide Sub32;
    match act
    case Receive(k, answers) => ReceivingFilesOwn(e, k, answers);
    case Fires(number) =>
      TransportLimits.FiringIs(e, number);
      hide React;
    case _ =>
  }

  lemma ReceivingFilesOwn(e: Endpoint, k: Packet, answers: seq<TcpWrite>)
    requires FilesOwn(e.sendMess)
    ensures FilesOwn(React(e, Receive(k, answers)).e.sendMess)
  {
    match k.dg
    case Data(_, number, p) =>
      DataSparesQueue(e, number, p, answers);
      hide HandleDataRequest;
    case Response(_, number, value) =>
      AnswerFilesOwn(e, number, value);
      hide HandleDataResponse;
    case _ =>
  }

  lemma AnswerFilesOwn(e: Endpoint, number: u32, value: int)
    requires FilesOwn(e.sendMess)
    ensures FilesOwn(HandleDataResponse(e, number, value).e.sendMess)
  {
    hide Add32;
    hide Sub32;
    hide ValidLength;
    hide Trim;
  }

  lemma {:induction false} HistoryFilesOwn(e: Endpoint, acts: seq<Action>, last: Endpoint)
    requires History(e, acts, last) && FilesOwn(e.sendMess)
    ensures FilesOwn(last.sendMess)
    decreases |acts|
  {
    if acts != [] {
      ReactFilesOwn(e, acts[0]);
      hide React;
      hide FilesOwn;
      HistoryFilesOwn(React(e, acts[0]).e, acts[1..], last);
    }
  }

  // What some history of a connected session has left in its queue.
  ghost predicate Left(queue: map<u32, Message>) {
    exists handle, window, acts, last :: History(Fresh(handle, window), acts, last) && last.sendMess == queue
  }

  lemma LeftFilesOwn(queue: map<u32, Message>)
    requires Left(queue)
    ensures FilesOwn(queue)
  {
    var handle, window, acts, last :| History(Fresh(handle, window), acts, last) && last.sendMess == queue;
    HistoryFilesOwn(Fresh(handle, window), acts, last);
    hide History;
  }
}
