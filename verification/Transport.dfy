// Two ends of one session and the network between them, as a step system.  A packet once
// sent stays deliverable for ever: losing it is never delivering it, duplicating it is
// delivering it twice, and any order of delivery is allowed.
module Transport {
  import opened Wire
  import opened EndSpec

  // serial is the true, unbounded number behind a datagram's 32-bit one.  No callback sees it.
  datatype Packet = Packet(dg: Datagram, serial: int)

  // An end with its history: payloads read from and written to the local TCP socket, and the
  // true numbers of its retransmit requests.
  datatype Peer = Peer(e: Endpoint, sent: seq<Payload>, written: seq<Payload>, asked: seq<int>)

  datatype World = World(a: Peer, b: Peer, toA: set<Packet>, toB: set<Packet>)

  datatype Action =
    | Readable(read: TcpRead)                              // the TCP socket is readable
    | Fires(number: u32)                                   // a data message's timer
    | Idle                                                 // the session timeout
    | Receive(packet: Packet, answers: seq<TcpWrite>)      // a datagram arrives

  // ----- steps of end a

  // The largest number up to n with the given low bits.
  function SerialOf(n: int, number: u32): int {
    n - Sub32(Low32(n), number)
  }

  predicate Enabled(e: Endpoint, act: Action) {
    match act
    case Fires(number) => number in e.sendMess
    case _ => true
  }

  function React(e: Endpoint, act: Action): Outcome
    requires Enabled(e, act)
  {
    match act
    case Readable(read) => ProcessTcp(e, read)
    case Fires(number) => RequestTimeout(e, number)
    case Idle => Delete(e, false)
    case Receive(packet, answers) => Dispatch(e, packet.dg, answers)
  }

  function ReadBy(e: Endpoint, act: Action): seq<Payload> {
    if act.Readable? && act.read.Got? && e.sendCount < e.window then [act.read.payload] else []
  }

  // The i-th datagram of a step, tagged: data with its own number, the i-th response with the
  // number it answers when written payloads have been delivered before the step.
  function Tag(d: Datagram, i: nat, sent: nat, written: nat): Packet {
    Packet(d, match d
              case Data(_, number, _) => SerialOf(sent, number)
              case Response(_, _, _) => written + 1 + i
              case _ => 0)
  }

  function Tagged(out: seq<Datagram>, sent: nat, written: nat): set<Packet> {
    set i | 0 <= i < |out| :: Tag(out[i], i, sent, written)
  }

  function AskedFor(out: seq<Datagram>, recvSeq: u32, written: nat): seq<int> {
    if out == [] then [] else
    (if out[0].Retrans? then [written + Sub32(out[0].number, recvSeq)] else []) + AskedFor(out[1..], recvSeq, written)
  }

  function StepPeer(p: Peer, act: Action): Peer
    requires Enabled(p.e, act)
  {
    var o := React(p.e, act);
    Peer(o.e, p.sent + ReadBy(p.e, act), p.written + o.wrote,
         p.asked + AskedFor(o.out, p.e.recvSeq, |p.written|))
  }

  function StepA(w: World, act: Action): World
    requires Enabled(w.a.e, act)
  {
    var a' := StepPeer(w.a, act);
    World(a', w.b, w.toA, w.toB + Tagged(React(w.a.e, act).out, |a'.sent|, |w.a.written|))
  }

  // ----- the hypotheses

  // Local writes are all or nothing, whatever the payload.
  predicate WholeWrite(w: TcpWrite) {
    w.Part? ==> w.bytes == 0 || w.bytes >= PAYLOAD_MAX
  }

  predicate AllOrNothing(answers: seq<TcpWrite>) {
    forall i :: 0 <= i < |answers| ==> WholeWrite(answers[i])
  }

  // No datagram is older than 2^32 minus 65 messages when it arrives.
  predicate Recent(p: Peer, k: Packet) {
    match k.dg
    case Data(_, _, _) => |p.written| - k.serial < MOD32 - 64
    case Response(_, _, _) => |p.sent| - k.serial < MOD32 - 64
    case _ => true
  }

  // What the program itself allows.  A datagram of another session may arrive at any time.
  predicate Possible(p: Peer, inbox: set<Packet>, act: Action) {
    match act
    case Readable(read) => p.e.alive && p.e.armed && (read.Got? ==> 1 <= |read.payload| <= PAYLOAD_MAX)
    case Fires(number) => p.e.alive && number in p.e.sendMess && p.e.sendMess[number].timer
    case Idle => p.e.alive
    case Receive(k, _) => k in inbox || k.dg.handle != p.e.handle
  }

  // No number is reused while its message is kept, and no datagram arrives too late.
  predicate Timely(p: Peer, act: Action) {
    match act
    case Readable(read) => read.Got? && p.e.sendCount < p.e.window ==> Add32(p.e.sendSeq, 1) !in p.e.sendMess
    case Receive(k, _) => k.dg.handle == p.e.handle ==> Recent(p, k)
    case _ => true
  }

  predicate Assumed(p: Peer, act: Action) {
    Timely(p, act) && (act.Receive? ==> AllOrNothing(act.answers))
  }

  // ----- the invariant

  predicate Sendable(s: seq<Payload>) {
    forall i :: 0 <= i < |s| ==> 1 <= |s[i]| <= PAYLOAD_MAX
  }

  predicate DataOk(sent: seq<Payload>, k: Packet) {
    k.dg.Data? ==>
      && 1 <= k.serial <= |sent|
      && k.dg.number == Low32(k.serial) && k.dg.payload == sent[k.serial - 1]
  }

  // A positive acknowledgement is for a delivered payload and is its length.
  predicate AckOk(sent: seq<Payload>, delivered: nat, k: Packet) {
    k.dg.Response? && k.dg.value > 0 ==>
      && 1 <= k.serial <= delivered && k.serial <= |sent|
      && k.dg.number == Low32(k.serial) && k.dg.value == |sent[k.serial - 1]|
  }

  // Every kept message is the payload read under its number, in full.
  ghost predicate Kept(p: Peer) {
    forall number :: number in p.e.sendMess ==>
      var n := SerialOf(|p.sent|, number);
      1 <= n && p.e.sendMess[number].payload == p.sent[n - 1] && p.e.sendMess[number].over == 0
  }

  // Nothing is forgotten: what is not delivered is still kept.
  ghost predicate NothingForgotten(p: Peer, delivered: nat) {
    forall n :: delivered < n <= |p.sent| ==> Low32(n) in p.e.sendMess
  }

  // The count is the size of the queue, the window bounds it, and reading from TCP is off
  // only while the window is full.
  predicate Backpressure(e: Endpoint) {
    |e.sendMess| == e.sendCount <= e.window && (!e.armed ==> e.sendCount == e.window)
  }

  // An armed timer has shots left.
  predicate ShotsLeft(e: Endpoint) {
    forall number :: number in e.sendMess && e.sendMess[number].timer ==> e.sendMess[number].retries <= e.window + 1
  }

  // p sends; the other end has delivered that many payloads.
  ghost predicate TxOk(p: Peer, delivered: nat) {
    && p.e.sendSeq == Low32(|p.sent|)
    && delivered <= |p.sent| <= delivered + p.e.window
    && Sendable(p.sent)
    && (p.e.alive ==> Kept(p) && NothingForgotten(p, delivered) && Backpressure(p.e) && ShotsLeft(p.e))
  }

  // The reorder queue holds payloads at true distances 2 to window ahead of the last delivered.
  ghost predicate Reorder(e: Endpoint, delivered: nat, sent: seq<Payload>) {
    && |e.recvMess| == e.recvCount
    && forall number :: number in e.recvMess ==>
         var d := Sub32(number, Low32(delivered));
         2 <= d <= e.window && delivered + d <= |sent| && e.recvMess[number] == sent[delivered + d - 1]
  }

  function LastAsked(asked: seq<int>): int {
    if asked == [] then 0 else asked[|asked| - 1]
  }

  // The requests strictly increase: no gap is asked for twice.
  ghost predicate AskedOnce(p: Peer) {
    && (forall i, j :: 0 <= i < j < |p.asked| ==> p.asked[i] < p.asked[j])
    && p.e.retrySeq == Low32(LastAsked(p.asked))
    && 0 <= LastAsked(p.asked) <= |p.written| + p.e.window
  }

  // p receives what the other end has read.
  ghost predicate RxOk(p: Peer, sent: seq<Payload>) {
    && p.written <= sent
    && p.e.recvSeq == Low32(|p.written|)
    && (p.e.alive ==> Reorder(p.e, |p.written|, sent))
    && AskedOnce(p)
  }

  predicate Sized(e: Endpoint) {
    1 <= e.window <= 64
  }

  // One direction: s sends to r, data travels towards r and acknowledgements back.
  ghost predicate Flow(s: Peer, r: Peer, data: set<Packet>, back: set<Packet>) {
    && TxOk(s, |r.written|)
    && RxOk(r, s.sent)
    && (forall k :: k in data ==> DataOk(s.sent, k))
    && (forall k :: k in back ==> AckOk(s.sent, |r.written|, k))
  }

  ghost predicate Inv(w: World) {
    && Sized(w.a.e) && Sized(w.b.e)
    && Flow(w.a, w.b, w.toB, w.toA)
    && Flow(w.b, w.a, w.toA, w.toB)
  }

  // ----- serial numbers

  lemma SerialFacts(n: int, number: u32)
    ensures n - MOD32 < SerialOf(n, number) <= n
    ensures Low32(SerialOf(n, number)) == number
  {
  }

  lemma SerialIsUnique(n: int, m: int)
    requires n - MOD32 < m <= n
    ensures SerialOf(n, Low32(m)) == m
  {
    SerialFacts(n, Low32(m));
    SameLow(SerialOf(n, Low32(m)), m);
  }

  lemma SerialOfNext(n: int, number: u32)
    ensures SerialOf(n + 1, number) == if number == Low32(n + 1) then n + 1 else SerialOf(n, number)
  {
    SerialFacts(n, number);
    LowIsPeriodic(n + 1);
    hide Low32;
    if number == Low32(n + 1) {
      SerialIsUnique(n + 1, n + 1);
    } else {
      SerialIsUnique(n + 1, SerialOf(n, number));
    }
    hide SerialOf;
  }

  lemma LowIsPeriodic(n: int)
    ensures Low32(n - MOD32) == Low32(n)
  {
  }

  // Consecutive numbers have different low bits, so they take up that many keys.
  lemma {:induction false} Pigeonhole(low: nat, high: nat, keys: set<u32>)
    requires low <= high <= low + MOD32
    requires forall n :: low < n <= high ==> Low32(n) in keys
    ensures high - low <= |keys|
    decreases high - low
  {
    if low < high {
      var rest := keys - {Low32(high)};
      forall n | low < n <= high - 1 ensures Low32(n) in rest {
        if Low32(n) == Low32(high) { SameLow(n, high); }
      }
      Pigeonhole(low, high - 1, rest);
      assert |keys| == |rest| + 1;
    }
  }
}
