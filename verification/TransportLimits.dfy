// Where the promises end: what goes wrong outside the hypotheses, and exactly when.
module TransportLimits {
  import opened Wire
  import opened EndSpec
  import opened Transport
  import opened TransportRuns
  import TransportSend

  // ----- short writes

  // After value bytes were taken, what is resent is the rest exactly if every byte past the
  // first four already equals the one value further on.
  lemma TrimIsRest(p: Payload, value: nat)
    requires value <= |p|
    ensures Trim(p, value) == p[value..] <==> forall i :: 4 <= i < |p| - value ==> p[i] == p[i + value]
  {
    var t, rest := Trim(p, value), p[value..];
    if t == rest {
      forall i | 4 <= i < |p| - value ensures p[i] == p[i + value] {
        assert t[i] == rest[i];
      }
    }
  }

  // Whatever the bytes, that is only so if at most four are left.
  lemma TrimIsRestForAll(length: nat, value: nat)
    requires 0 < value <= length
    ensures (forall p: Payload :: |p| == length ==> Trim(p, value) == p[value..]) <==> length - value <= 4
  {
    if length - value <= 4 {
      forall p: Payload | |p| == length ensures Trim(p, value) == p[value..] {
        TrimIsRest(p, value);
      }
    } else {
      var p: Payload := seq(length, i => if i == length - 1 then 1 else 0);
      assert Trim(p, value)[length - value - 1] == 0 && p[value..][length - value - 1] == 1;
    }
  }

  // ----- runs in which local writes go as permitted

  predicate Does(permits: TcpWrite -> bool, w: World, act: Action) {
    && Possible(w.a, w.toA, act) && Timely(w.a, act)
    && (act.Receive? ==> forall i :: 0 <= i < |act.answers| ==> permits(act.answers[i]))
  }

  predicate AllowedWith(permits: TcpWrite -> bool, w: World, m: Move) {
    match m
    case ByA(act) => Does(permits, w, act)
    case ByB(act) => Does(permits, Swap(w), act)
  }

  predicate RunWith(permits: TcpWrite -> bool, w: World, moves: seq<Move>, last: World)
    decreases |moves|
  {
    if moves == [] then last == w
    else AllowedWith(permits, w, moves[0]) && RunWith(permits, Step(w, moves[0]), moves[1..], last)
  }

  lemma RunWithStep(permits: TcpWrite -> bool, w: World, m: Move, rest: seq<Move>, last: World)
    requires AllowedWith(permits, w, m) && RunWith(permits, Step(w, m), rest, last)
    ensures RunWith(permits, w, [m] + rest, last)
  {
    var moves := [m] + rest;
    assert moves[0] == m && moves[1..] == rest;
    hide Step;
    hide AllowedWith;
  }

  // No permitted write is short, for any payload there can be.
  ghost predicate NoneShort(permits: TcpWrite -> bool) {
    forall n: nat :: permits(Part(n)) ==> n == 0 || n >= PAYLOAD_MAX
  }

  lemma {:induction false} WholeRunIsRun(permits: TcpWrite -> bool, w: World, moves: seq<Move>, last: World)
    requires NoneShort(permits) && RunWith(permits, w, moves, last)
    ensures Run(w, moves, last)
    decreases |moves|
  {
    if moves != [] {
      WholeIsAllowed(permits, w, moves[0]);
      hide Step;
      hide AllowedWith;
      hide Allowed;
      hide NoneShort;
      WholeRunIsRun(permits, Step(w, moves[0]), moves[1..], last);
    }
  }

  lemma WholeIsAllowed(permits: TcpWrite -> bool, w: World, m: Move)
    requires NoneShort(permits) && AllowedWith(permits, w, m)
    ensures Allowed(w, m)
  {
    hide Timely;
    hide Possible;
    if m.act.Receive? {
      forall i | 0 <= i < |m.act.answers| ensures WholeWrite(m.act.answers[i]) {
        if m.act.answers[i].Part? { assert permits(Part(m.act.answers[i].bytes)); }
      }
    }
  }

  // ----- the runs that one short write of v bytes of p makes possible

  datatype Pair = Pair(handle: u64, windowA: nat, windowB: nat)

  predicate Real(s: Pair, p: Payload, v: nat) {
    1 <= s.windowA <= 64 && 1 <= s.windowB <= 64 && 0 < v < |p| <= PAYLOAD_MAX
  }

  function Sending(s: Pair, p: Payload, retries: nat): Endpoint {
    Fresh(s.handle, s.windowA).(sendSeq := 1, sendMess := map[1 := Message(1, p, retries, true, 0)], sendCount := 1)
  }

  function Sent(s: Pair, p: Payload): Packet {
    Packet(Data(s.handle, 1, p), 1)
  }

  function Acked(s: Pair, value: int): Packet {
    Packet(Response(s.handle, 1, value), 1)
  }

  function Start(s: Pair): World {
    Connected(s.handle, s.windowA, s.windowB)
  }

  // p was read; q is what is kept of it.
  function Scene(s: Pair, p: Payload, q: Payload, retries: nat, written: seq<Payload>, toA: set<Packet>, toB: set<Packet>): World {
    World(Peer(Sending(s, q, retries), [p], [], []), Peer(Fresh(s.handle, s.windowB), [], written, []), toA, toB)
  }

  // p is read and sent ...
  function WasRead(s: Pair, p: Payload): World {
    Scene(s, p, p, 0, [], {}, {Sent(s, p)})
  }

  // ... v bytes of it are taken ...
  function WasCut(s: Pair, p: Payload, v: nat): World
    requires v <= |p|
  {
    Scene(s, p, p, 0, [p[..v]], {Acked(s, v)}, {Sent(s, p)})
  }

  // ... the acknowledgement trims the message ...
  function WasTrimmed(s: Pair, p: Payload, v: nat): World
    requires v <= |p|
  {
    Scene(s, p, Trim(p, v), 0, [p[..v]], {Acked(s, v)}, {Sent(s, p)})
  }

  // ... and its timer resends it.
  function WasResent(s: Pair, p: Payload, v: nat): World
    requires v <= |p|
  {
    Scene(s, p, Trim(p, v), 1, [p[..v]], {Acked(s, v)}, {Sent(s, p), Sent(s, Trim(p, v))})
  }

  lemma OneOut(d: Datagram, sent: nat, written: nat, recvSeq: u32)
    requires !d.Retrans?
    ensures Tagged([d], sent, written) == {Tag(d, 0, sent, written)} && Tagged([], sent, written) == {}
    ensures AskedFor([d], recvSeq, written) == [] && AskedFor([], recvSeq, written) == []
  {
    assert [d][0] == d && [d][1..] == [];
  }

  lemma NewestOut(d: Datagram, n: nat, written: nat)
    requires d.Data? && d.number == Low32(n)
    ensures Tagged([d], n, written) == {Packet(d, n)}
  {
    SerialIsUnique(n, n);
    OneOut(d, n, written, 0);
    hide Low32;
    hide SerialOf;
    hide Tagged;
  }

  lemma FirstOut(s: Pair, p: Payload)
    ensures Tagged([Data(s.handle, 1, p)], 1, 0) == {Sent(s, p)}
  {
    assert Low32(1) == 1;
    hide Low32;
    NewestOut(Data(s.handle, 1, p), 1, 0);
  }

  lemma FirstRequest(s: Pair, p: Payload)
    requires s.windowA >= 1
    ensures ProcessTcp(Fresh(s.handle, s.windowA), Got(p)) == Outcome(Sending(s, p, 0), [Data(s.handle, 1, p)], [])
  {
    var empty: map<u32, Message> := map[];
    assert empty[1 := New(1, p)] == map[1 := Message(1, p, 0, true, 0)];
  }

  lemma ReadingPeer(s: Pair, p: Payload)
    requires s.windowA >= 1
    ensures var act := Readable(Got(p)); var a := Peer(Fresh(s.handle, s.windowA), [], [], []);
      && React(a.e, act) == Outcome(Sending(s, p, 0), [Data(s.handle, 1, p)], [])
      && StepPeer(a, act) == Peer(Sending(s, p, 0), [p], [], [])
  {
    hide Low32;
    hide Sub32;
    hide Add32;
    FirstRequest(s, p);
    OneOut(Data(s.handle, 1, p), 1, 0, 0);
    hide ProcessTcp;
    hide AskedFor;
    hide Sending;
  }

  lemma Reading(permits: TcpWrite -> bool, s: Pair, p: Payload)
    requires s.windowA >= 1 && 1 <= |p| <= PAYLOAD_MAX
    ensures var m := ByA(Readable(Got(p))); AllowedWith(permits, Start(s), m) && Step(Start(s), m) == WasRead(s, p)
  {
    hide Low32;
    hide Sub32;
    hide Add32;
    hide AskedFor;
    hide React;
    hide StepPeer;
    hide Tagged;
    ReadingPeer(s, p);
    FirstOut(s, p);
  }

  // What reaches the fresh end b: its answer to message 1, and what it writes.
  lemma Taking(s: Pair, w: World, q: Payload, answers: seq<TcpWrite>)
    requires s.windowB >= 1 && 1 <= |q| && w.b.e == Fresh(s.handle, s.windowB)
    requires answers == [] || (|answers| == 1 && answers[0].Part? && 0 < answers[0].bytes < |q|)
    ensures var n := if answers == [] then |q| else answers[0].bytes;
      var act := Receive(Sent(s, q), answers);
      var b' := StepPeer(w.b, act);
      && React(w.b.e, act).out == [Response(s.handle, 1, n)]
      && b'.written == w.b.written + [q[..n]] && b'.sent == w.b.sent && b'.asked == w.b.asked
      && (answers != [] ==> b'.e == w.b.e)
  {
    var n := if answers == [] then |q| else answers[0].bytes;
    var e := Fresh(s.handle, s.windowB);
    var w0 := Answer(answers, 0);
    assert Taken(w0, q) == n && q[..|q|] == q;
    var d := DeliverOne(e, 1, q, w0);
    assert Add32(1, 1) == 2 && !d.more;
    assert d.o.out == [Response(s.handle, 1, n)] && d.o.wrote == [q[..n]];
    assert Drain(e, 1, q, answers, 0) == d.o;
    hide Drain;
    hide DeliverOne;
    OneOut(Response(s.handle, 1, n), 0, 0, 0);
    OneOut(Response(s.handle, 1, n), 0, |w.b.written|, 0);
    hide AskedFor;
  }

  lemma Cutting(permits: TcpWrite -> bool, s: Pair, p: Payload, v: nat)
    requires Real(s, p, v) && permits(Part(v))
    ensures var m := ByB(Receive(Sent(s, p), [Part(v)]));
      AllowedWith(permits, WasRead(s, p), m) && Step(WasRead(s, p), m) == WasCut(s, p, v)
  {
    Taking(s, WasRead(s, p), p, [Part(v)]);
    OneOut(Response(s.handle, 1, v), 0, 0, 0);
    hide React;
    hide StepPeer;
    hide Tagged;
    hide Low32;
    hide Sub32;
  }

  // A copy of p in full, after the cut.
  lemma Copying(permits: TcpWrite -> bool, s: Pair, p: Payload, v: nat)
    requires Real(s, p, v)
    ensures var m := ByB(Receive(Sent(s, p), [])); var w := Step(WasCut(s, p, v), m);
      AllowedWith(permits, WasCut(s, p, v), m) && w.b.written == [p[..v], p] && w.a.sent == [p]
  {
    Taking(s, WasCut(s, p, v), p, []);
    assert p[..|p|] == p;
    hide React;
    hide StepPeer;
    hide Tagged;
    hide Low32;
    hide Sub32;
  }

  lemma Trimming(permits: TcpWrite -> bool, s: Pair, p: Payload, v: nat)
    requires Real(s, p, v)
    ensures var m := ByA(Receive(Acked(s, v), []));
      AllowedWith(permits, WasCut(s, p, v), m) && Step(WasCut(s, p, v), m) == WasTrimmed(s, p, v)
  {
    OneOut(Close(s.handle), 1, 0, 0);
    TrimsTo(s, p, v);
    hide HandleDataResponse;
    hide Tagged;
    hide AskedFor;
    hide Trim;
  }

  lemma TrimsTo(s: Pair, p: Payload, v: nat)
    requires Real(s, p, v)
    ensures HandleDataResponse(Sending(s, p, 0), 1, v) == Quiet(Sending(s, Trim(p, v), 0))
  {
    var e := Sending(s, p, 0);
    assert ValidLength(e.sendMess[1]) == |p|;
    assert e.sendMess[1 := Message(1, Trim(p, v), 0, true, 0)] == Sending(s, Trim(p, v), 0).sendMess;
    hide Trim;
  }

  lemma ResendingAllowed(permits: TcpWrite -> bool, s: Pair, p: Payload, v: nat)
    requires Real(s, p, v)
    ensures AllowedWith(permits, WasTrimmed(s, p, v), ByA(Fires(1)))
  {
    hide Trim;
    FiringAllowed(permits, s, p, Trim(p, v), 0, [p[..v]], {Acked(s, v)}, {Sent(s, p)});
    hide AllowedWith;
  }

  lemma Resending(s: Pair, p: Payload, v: nat)
    requires Real(s, p, v)
    ensures Step(WasTrimmed(s, p, v), ByA(Fires(1))) == WasResent(s, p, v)
  {
    hide Step;
    hide Scene;
    hide Trim;
    var q := Trim(p, v);
    FiringScene(s, p, q, 0, [p[..v]], {Acked(s, v)}, {Sent(s, p)});
    hide Sent;
    hide Acked;
    assert {Sent(s, p)} + {Sent(s, q)} == {Sent(s, p), Sent(s, q)};
  }

  lemma FiringAllowed(permits: TcpWrite -> bool, s: Pair, p: Payload, q: Payload, retries: nat,
                      written: seq<Payload>, toA: set<Packet>, toB: set<Packet>)
    ensures AllowedWith(permits, Scene(s, p, q, retries, written, toA, toB), ByA(Fires(1)))
  {
  }

  lemma FiringScene(s: Pair, p: Payload, q: Payload, retries: nat, written: seq<Payload>, toA: set<Packet>, toB: set<Packet>)
    requires retries <= s.windowA
    ensures Step(Scene(s, p, q, retries, written, toA, toB), ByA(Fires(1)))
         == Scene(s, p, q, retries + 1, written, toA, toB + {Sent(s, q)})
  {
    var w := Scene(s, p, q, retries, written, toA, toB);
    FiringWorld(w, 1);
    hide StepByA;
    FirstOut(s, q);
    hide Tagged;
    RetriedIs(s, q, retries);
    hide Retried;
  }

  // An end whose timer has fired with retries left.
  function Retried(e: Endpoint, number: u32): Endpoint
    requires number in e.sendMess
  {
    var m := e.sendMess[number];
    e.(sendMess := e.sendMess[number := m.(retries := m.retries + 1, timer := true)])
  }

  lemma RetriedIs(s: Pair, q: Payload, retries: nat)
    ensures Retried(Sending(s, q, retries), 1) == Sending(s, q, retries + 1)
  {
    assert Sending(s, q, retries).sendMess[1 := Message(1, q, retries + 1, true, 0)] == Sending(s, q, retries + 1).sendMess;
  }

  lemma FiringPeer(p: Peer, number: u32)
    requires number in p.e.sendMess && p.e.sendMess[number].over == 0 && p.e.sendMess[number].retries <= p.e.window
    ensures React(p.e, Fires(number)).out == [Data(p.e.handle, number, p.e.sendMess[number].payload)]
    ensures StepPeer(p, Fires(number)) == p.(e := Retried(p.e, number))
  {
    FiringIs(p.e, number);
    hide React;
    var d := Data(p.e.handle, number, p.e.sendMess[number].payload);
    assert RequestTimeout(p.e, number) == Outcome(Retried(p.e, number), [d], []);
    OneOut(d, 0, |p.written|, p.e.recvSeq);
    hide RequestTimeout;
    hide Retried;
    hide AskedFor;
    assert p.sent + [] == p.sent && p.written + [] == p.written && p.asked + [] == p.asked;
  }

  lemma FiringIs(e: Endpoint, number: u32)
    requires number in e.sendMess
    ensures React(e, Fires(number)) == RequestTimeout(e, number)
  {
    hide RequestTimeout;
  }

  lemma FiringWorld(w: World, number: u32)
    requires number in w.a.e.sendMess && w.a.e.sendMess[number].over == 0 && w.a.e.sendMess[number].retries <= w.a.e.window
    ensures var d := Data(w.a.e.handle, number, w.a.e.sendMess[number].payload);
      StepByA(w, Fires(number))
      == World(w.a.(e := Retried(w.a.e, number)), w.b, w.toA, w.toB + Tagged([d], |w.a.sent|, |w.a.written|))
  {
    FiringPeer(w.a, number);
    hide StepPeer;
    hide React;
    hide Retried;
    hide Tagged;
  }

  lemma TakingRest(permits: TcpWrite -> bool, s: Pair, p: Payload, v: nat)
    requires Real(s, p, v)
    ensures var m := ByB(Receive(Sent(s, Trim(p, v)), [])); var w := Step(WasResent(s, p, v), m);
      AllowedWith(permits, WasResent(s, p, v), m) && w.b.written == [p[..v], Trim(p, v)] && w.a.sent == [p]
  {
    var q := Trim(p, v);
    assert |q| > 0 && q[..|q|] == q;
    hide Trim;
    Taking(s, WasResent(s, p, v), q, []);
    hide React;
    hide StepPeer;
    hide Tagged;
    hide Low32;
    hide Sub32;
  }

  lemma BytesOf(p: Payload, q: Payload)
    ensures Bytes([p]) == p && Bytes([p, q]) == p + q
  {
    assert [p][1..] == [] && [p, q][1..] == [q] && [q][1..] == [];
  }

  // After any short write of any payload, a copy of its datagram is enough: the untrimmed
  // payload is written again from its beginning.
  lemma ShortWriteBreaksOrder(permits: TcpWrite -> bool, s: Pair, p: Payload, v: nat) returns (moves: seq<Move>, w: World)
    requires Real(s, p, v) && permits(Part(v))
    ensures RunWith(permits, Start(s), moves, w) && w.a.sent == [p] && w.b.written == [p[..v], p]
    ensures !(Bytes(w.b.written) <= Bytes(w.a.sent))
  {
    Reading(permits, s, p);
    Cutting(permits, s, p, v);
    Copying(permits, s, p, v);
    var m1, m2, m3 := ByA(Readable(Got(p))), ByB(Receive(Sent(s, p), [Part(v)])), ByB(Receive(Sent(s, p), []));
    w := Step(WasCut(s, p, v), m3);
    hide Step;
    hide AllowedWith;
    hide WasRead;
    hide WasCut;
    hide Start;
    moves := [];
    RunWithStep(permits, WasCut(s, p, v), m3, moves, w);
    moves := [m3] + moves;
    RunWithStep(permits, WasRead(s, p), m2, moves, w);
    moves := [m2] + moves;
    RunWithStep(permits, Start(s), m1, moves, w);
    moves := [m1] + moves;
    BytesOf(p, p);
    BytesOf(p[..v], p);
  }

  // What has been written is in order at both ends.
  predicate InOrder(w: World) {
    Bytes(w.b.written) <= Bytes(w.a.sent) && Bytes(w.a.written) <= Bytes(w.b.sent)
  }

  // Order holds in all runs exactly if no local write that can happen is short.
  lemma OrderExactlyForWholeWrites(permits: TcpWrite -> bool, handle: u64, windowA: nat, windowB: nat)
    requires 1 <= windowA <= 64 && 1 <= windowB <= 64
    ensures (forall moves, w :: RunWith(permits, Connected(handle, windowA, windowB), moves, w) ==> InOrder(w))
            <==> NoneShort(permits)
  {
    if NoneShort(permits) {
      forall moves, w | RunWith(permits, Connected(handle, windowA, windowB), moves, w) ensures InOrder(w) {
        WholeRunIsRun(permits, Connected(handle, windowA, windowB), moves, w);
        DeliveredInOrder(handle, windowA, windowB, moves, w);
      }
    } else {
      var v: nat :| permits(Part(v)) && 0 < v < PAYLOAD_MAX;
      var p: Payload := seq(v + 1, i => 0);
      var s := Pair(handle, windowA, windowB);
      var moves, w := ShortWriteBreaksOrder(permits, s, p, v);
      assert RunWith(permits, Connected(handle, windowA, windowB), moves, w) && !InOrder(w);
    }
  }

  // A run in which only the trimmed message follows the short write.
  lemma TrimmedRun(permits: TcpWrite -> bool, s: Pair, p: Payload, v: nat) returns (moves: seq<Move>, w: World)
    requires Real(s, p, v) && permits(Part(v))
    ensures RunWith(permits, Start(s), moves, w) && w.a.sent == [p] && w.b.written == [p[..v], Trim(p, v)]
  {
    Reading(permits, s, p);
    Cutting(permits, s, p, v);
    Trimming(permits, s, p, v);
    ResendingAllowed(permits, s, p, v);
    Resending(s, p, v);
    TakingRest(permits, s, p, v);
    var m1, m2, m3 := ByA(Readable(Got(p))), ByB(Receive(Sent(s, p), [Part(v)])), ByA(Receive(Acked(s, v), []));
    var m4, m5 := ByA(Fires(1)), ByB(Receive(Sent(s, Trim(p, v)), []));
    w := Step(WasResent(s, p, v), m5);
    hide Step;
    hide AllowedWith;
    hide Trim;
    hide WasRead;
    hide WasCut;
    hide WasTrimmed;
    hide WasResent;
    hide Start;
    moves := [];
    RunWithStep(permits, WasResent(s, p, v), m5, moves, w);
    moves := [m5] + moves;
    RunWithStep(permits, WasTrimmed(s, p, v), m4, moves, w);
    moves := [m4] + moves;
    RunWithStep(permits, WasCut(s, p, v), m3, moves, w);
    moves := [m3] + moves;
    RunWithStep(permits, WasRead(s, p), m2, moves, w);
    moves := [m2] + moves;
    RunWithStep(permits, Start(s), m1, moves, w);
    moves := [m1] + moves;
  }

  lemma PrefixAfterCut(p: Payload, v: nat, q: Payload)
    requires v <= |p| && |q| == |p| - v
    ensures p[..v] + q <= p <==> q == p[v..]
  {
    assert p[..v] + p[v..] == p;
    if p[..v] + q <= p {
      assert q == (p[..v] + q)[v..];
    }
  }

  // A remark about that one run: even without a copy, order survives in it only if the
  // trimming happens to be right.
  lemma TrimmedRunOrder(permits: TcpWrite -> bool, s: Pair, p: Payload, v: nat) returns (moves: seq<Move>, w: World)
    requires Real(s, p, v) && permits(Part(v))
    ensures RunWith(permits, Start(s), moves, w) && w.a.sent == [p]
    ensures Bytes(w.b.written) <= Bytes(w.a.sent) <==> forall i :: 4 <= i < |p| - v ==> p[i] == p[i + v]
  {
    moves, w := TrimmedRun(permits, s, p, v);
    BytesOf(p, p);
    BytesOf(p[..v], Trim(p, v));
    TrimIsRest(p, v);
    PrefixAfterCut(p, v, Trim(p, v));
    hide Bytes;
    hide RunWith;
    hide Trim;
  }

  // ----- a number reused while its old message is still kept

  // The new payload is sent once but not kept, and the count no longer matches the queue.
  lemma ReuseMiscounts(e: Endpoint, payload: Payload)
    requires Sized(e) && e.armed && Backpressure(e) && e.sendCount < e.window
    ensures Backpressure(AddRequest(e, payload).e) <==> Add32(e.sendSeq, 1) !in e.sendMess
  {
    CountUpDown(e.sendCount);
    hide Add32;
    var e' := AddRequest(e, payload).e;
    if Add32(e.sendSeq, 1) !in e.sendMess {
      assert |e'.sendMess| == |e.sendMess| + 1;
    }
  }

  // ----- a lost acknowledgement

  // Once a payload is delivered, every further copy of it is answered with 0 and changes
  // nothing, and an answer of 0 removes no message: a lost acknowledgement stays lost.
  lemma LateCopyIsAnsweredZero(handle: u64, windowA: nat, windowB: nat, moves: seq<Move>, w: World, k: Packet, answers: seq<TcpWrite>)
    requires 1 <= windowA <= 64 && 1 <= windowB <= 64
    requires Run(Connected(handle, windowA, windowB), moves, w)
    requires k in w.toB && k.dg.Data? && Recent(w.b, k) && k.serial <= |w.b.written| && w.b.e.alive
    ensures k.dg.handle == w.b.e.handle ==>
      Dispatch(w.b.e, k.dg, answers) == Outcome(w.b.e, [Response(w.b.e.handle, k.dg.number, 0)], [])
    ensures w.a.e.alive ==>
      HandleDataResponse(w.a.e, k.dg.number, 0) == if k.dg.number in w.a.e.sendMess then TryDelete(w.a.e) else Quiet(w.a.e)
  {
    RunsAreInv(handle, windowA, windowB, moves, w);
    Classifies(Swap(w), k);
    hide Run;
    hide Low32;
    hide Sub32;
    hide RxOk;
    if w.a.e.alive && k.dg.number in w.a.e.sendMess {
      ZeroKeepsMessage(w.a, k.dg.number, |w.b.written|);
    }
  }

  lemma ZeroKeepsMessage(p: Peer, number: u32, delivered: nat)
    requires TxOk(p, delivered) && p.e.alive && number in p.e.sendMess
    ensures HandleDataResponse(p.e, number, 0) == TryDelete(p.e)
  {
    var m := p.e.sendMess[number];
    TransportSend.KeptInFull(p, number, delivered);
    hide TxOk;
    hide ValidLength;
    hide Shortened;
    assert p.e.sendMess[number := m] == p.e.sendMess;
  }
}
