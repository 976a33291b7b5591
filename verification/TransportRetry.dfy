// Retransmit requests: which missing numbers are asked for, and how often.
module TransportRetry {
  import opened Wire
  import opened EndSpec
  import opened Transport

  // The retransmit loop while number n is handled: delivered payloads so far, last the true
  // number last asked for.
  ghost predicate Asking(e: Endpoint, n: int, delivered: nat, last: int) {
    && Sized(e) && e.recvSeq == Low32(delivered)
    && delivered + 2 <= n <= delivered + e.window && Low32(n) in e.recvMess
    && 0 <= last <= delivered + e.window && e.retrySeq == Low32(last)
  }

  // A number is asked for exactly if it is missing, before the packet just received, and after
  // the last one asked for, not counting the last window before that distance wraps.
  lemma MustAskMeans(e: Endpoint, n: int, delivered: nat, last: int, i: nat)
    requires Asking(e, n, delivered, last) && i < e.window
    ensures var m := delivered + 1 + i;
      MustAsk(e, Low32(n), Low32(m))
      <==> Low32(m) !in e.recvMess && m < n && m > last && (m - last - 1) % MOD32 < MOD32 - 1 - e.window
  {
    var m := delivered + 1 + i;
    SubOfLows(n, m);
    SpanBack(last, m, e.window);
    hide Low32;
    hide Sub32;
  }

  lemma SpanBack(last: int, m: int, window: nat)
    requires 1 <= window <= 64 && last <= m + window
    ensures Sub32(Low32(last), Low32(m)) > window <==> m > last && (m - last - 1) % MOD32 < MOD32 - 1 - window
  {
    if m > last {
      var d := m - last;
      var q, r := (d - 1) / MOD32, (d - 1) % MOD32;
      assert last - m == -(q + 1) * MOD32 + (MOD32 - 1 - r);
      LowDifference(last, m);
      ModOf(last - m, -(q + 1), MOD32 - 1 - r);
    } else {
      SubOfLows(last, m);
    }
  }

  lemma LowDifference(a: int, b: int)
    ensures Sub32(Low32(a), Low32(b)) == (a - b) % MOD32
  {
    var qa, qb := a / MOD32, b / MOD32;
    var r := Low32(a) - Low32(b);
    assert a - b == (qa - qb) * MOD32 + r;
    ModOf(a - b, qa - qb + r / MOD32, r % MOD32);
  }

  lemma ModOf(x: int, q: int, r: int)
    requires x == q * MOD32 + r && 0 <= r < MOD32
    ensures x % MOD32 == r
  {
  }

  // Every request is for a number missing strictly between the last delivered and the packet
  // just received, and later than every request before it.
  ghost predicate Requests(e: Endpoint, n: int, delivered: nat, last: int, from: nat, asked: seq<int>) {
    && (forall j :: 0 <= j < |asked| ==>
          delivered + from < asked[j] < n && last < asked[j] && Low32(asked[j]) !in e.recvMess)
    && (forall j, k :: 0 <= j < k < |asked| ==> asked[j] < asked[k])
  }

  function LastOr(asked: seq<int>, last: int): int {
    if asked == [] then last else asked[|asked| - 1]
  }

  lemma {:induction false} AskRequests(e: Endpoint, n: int, delivered: nat, last: int, i: nat)
    requires Asking(e, n, delivered, last) && i <= e.window
    ensures var o := Ask(e, Low32(n), i); var asked := AskedFor(o.out, e.recvSeq, delivered);
      && Requests(e, n, delivered, last, i, asked)
      && o.e.retrySeq == Low32(LastOr(asked, last))
      && (forall j :: 0 <= j < |o.out| ==> o.out[j].Retrans?)
    decreases e.window - i
  {
    hide Low32;
    hide Sub32;
    hide Add32;
    hide MustAsk;
    if i == e.window {
      NoRequests(e, n, delivered, last, i);
    } else {
      hide Requests;
      var m := delivered + 1 + i;
      MustAskMeans(e, n, delivered, last, i);
      AskUnfold(e, n, delivered, last, i);
      hide Ask;
      if MustAsk(e, Low32(n), Low32(m)) {
        var e' := e.(retrySeq := Low32(m));
        AskRequests(e', n, delivered, m, i + 1);
        MoreRequests(e, n, delivered, last, i, m, AskedFor(Ask(e', Low32(n), i + 1).out, e.recvSeq, delivered));
      } else {
        AskRequests(e, n, delivered, last, i + 1);
        RequestsFrom(e, n, delivered, last, i, AskedFor(Ask(e, Low32(n), i + 1).out, e.recvSeq, delivered));
      }
    }
  }

  lemma NoRequests(e: Endpoint, n: int, delivered: nat, last: int, i: nat)
    requires Asking(e, n, delivered, last) && i == e.window
    ensures Ask(e, Low32(n), i) == Quiet(e) && AskedFor([], e.recvSeq, delivered) == []
    ensures Requests(e, n, delivered, last, i, [])
  {
    hide Low32;
  }

  lemma RequestsFrom(e: Endpoint, n: int, delivered: nat, last: int, i: nat, asked: seq<int>)
    requires Requests(e, n, delivered, last, i + 1, asked)
    ensures Requests(e, n, delivered, last, i, asked)
  {
    hide Low32;
  }

  lemma MoreRequests(e: Endpoint, n: int, delivered: nat, last: int, i: nat, m: int, asked: seq<int>)
    requires m == delivered + 1 + i && last < m < n && Low32(m) !in e.recvMess
    requires Requests(e, n, delivered, m, i + 1, asked)
    ensures Requests(e, n, delivered, last, i, [m] + asked)
  {
    hide Low32;
  }

  // One turn of the loop.
  lemma AskUnfold(e: Endpoint, n: int, delivered: nat, last: int, i: nat)
    requires Asking(e, n, delivered, last) && i < e.window
    ensures var m := delivered + 1 + i; var o := Ask(e, Low32(n), i);
      if MustAsk(e, Low32(n), Low32(m)) then
        var rest := Ask(e.(retrySeq := Low32(m)), Low32(n), i + 1);
        && o == Outcome(rest.e, [Retrans(e.handle, Low32(m))] + rest.out, [])
        && AskedFor(o.out, e.recvSeq, delivered) == [m] + AskedFor(rest.out, e.recvSeq, delivered)
      else o == Ask(e, Low32(n), i + 1)
  {
    var m := delivered + 1 + i;
    AddToLow(delivered, 1 + i);
    SubOfLows(m, delivered);
    hide Low32;
    hide Sub32;
    hide Add32;
    hide MustAsk;
    var rest := Ask(e.(retrySeq := Low32(m)), Low32(n), i + 1);
    var out := [Retrans(e.handle, Low32(m))] + rest.out;
    assert out[1..] == rest.out;
  }

  // While the last request lags by less than 2^32 minus two windows, every gap after it is
  // asked for.
  lemma {:induction false} AskMissesNothing(e: Endpoint, n: int, delivered: nat, last: int, i: nat, m: int)
    requires Asking(e, n, delivered, last) && i <= e.window
    requires delivered - last < MOD32 - 2 * e.window
    requires delivered + i < m < n && m > last && Low32(m) !in e.recvMess
    ensures m in AskedFor(Ask(e, Low32(n), i).out, e.recvSeq, delivered)
    decreases e.window - i
  {
    hide Low32;
    hide Sub32;
    hide Add32;
    hide MustAsk;
    var here := delivered + 1 + i;
    MustAskMeans(e, n, delivered, last, i);
    AskUnfold(e, n, delivered, last, i);
    hide Ask;
    if MustAsk(e, Low32(n), Low32(here)) {
      if m != here {
        AskMissesNothing(e.(retrySeq := Low32(here)), n, delivered, here, i + 1, m);
      }
    } else {
      AskMissesNothing(e, n, delivered, last, i + 1, m);
    }
  }
}
