// The 20-byte header in front of every datagram, as a little-endian host builds it in memory
// and as the UDP callback takes it apart again.
module Header {
  import opened Wire

  // ----- integers in the memory of a little-endian host

  function Pow256(n: nat): nat {
    if n == 0 then 1 else 256 * Pow256(n - 1)
  }

  // The n bytes of x, lowest first.
  function ToLe(x: nat, n: nat): (s: seq<byte>)
    ensures |s| == n
  {
    if n == 0 then [] else [x % 256] + ToLe(x / 256, n - 1)
  }

  function FromLe(s: seq<byte>): nat {
    if s == [] then 0 else s[0] + 256 * FromLe(s[1..])
  }

  lemma {:induction false} FromToLe(x: nat, n: nat)
    requires x < Pow256(n)
    ensures FromLe(ToLe(x, n)) == x
  {
    if n > 0 {
      FromToLe(x / 256, n - 1);
      assert ToLe(x, n)[1..] == ToLe(x / 256, n - 1);
    }
  }

  lemma {:induction false} ToFromLe(s: seq<byte>)
    ensures FromLe(s) < Pow256(|s|) && ToLe(FromLe(s), |s|) == s
  {
    if s != [] {
      ToFromLe(s[1..]);
      var x := FromLe(s[1..]);
      var n := |s| - 1;
      assert FromLe(s) == s[0] + 256 * x && Pow256(n + 1) == 256 * Pow256(n);
      assert ToLe(s[0] + 256 * x, n + 1) == [(s[0] + 256 * x) % 256] + ToLe((s[0] + 256 * x) / 256, n);
      hide FromLe;
      hide ToLe;
      hide Pow256;
      LowestDigit(s[0], x, Pow256(n));
      assert s == [s[0]] + s[1..];
    }
  }

  lemma LowestDigit(b: byte, x: nat, p: nat)
    ensures (b + 256 * x) % 256 == b && (b + 256 * x) / 256 == x
    ensures x < p ==> b + 256 * x < 256 * p
  {
  }

  lemma {:induction false} FromLeConcat(a: seq<byte>, b: seq<byte>)
    ensures FromLe(a + b) == FromLe(a) + Pow256(|a|) * FromLe(b)
  {
    if a == [] {
      assert a + b == b;
    } else {
      FromLeConcat(a[1..], b);
      assert (a + b)[1..] == a[1..] + b;
      Regroup(a[0], FromLe(a[1..]), Pow256(|a| - 1), FromLe(b));
    }
  }

  lemma Regroup(x: int, y: int, p: int, z: int)
    ensures x + 256 * (y + p * z) == (x + 256 * y) + (256 * p) * z
  {
  }

  function Rev(s: seq<byte>): (r: seq<byte>)
    ensures |r| == |s|
  {
    seq(|s|, i requires 0 <= i < |s| => s[|s| - 1 - i])
  }

  lemma RevRev(s: seq<byte>)
    ensures Rev(Rev(s)) == s
  {
  }

  lemma RevConcat(a: seq<byte>, b: seq<byte>)
    ensures Rev(a + b) == Rev(b) + Rev(a)
  {
  }

  // ----- hton and ntoh

  // htons, htonl and their inverses: the same bytes in the other order.
  function Swap(x: nat, n: nat): (y: nat)
    ensures y < Pow256(n)
  {
    ToFromLe(Rev(ToLe(x, n)));
    FromLe(Rev(ToLe(x, n)))
  }

  lemma SwapBytes(x: nat, n: nat)
    ensures ToLe(Swap(x, n), n) == Rev(ToLe(x, n))
  {
    ToFromLe(Rev(ToLe(x, n)));
  }

  lemma SwapSwap(x: nat, n: nat)
    requires x < Pow256(n)
    ensures Swap(Swap(x, n), n) == x
  {
    SwapBytes(x, n);
    RevRev(ToLe(x, n));
    FromToLe(x, n);
  }

  lemma Powers()
    ensures Pow256(2) == 0x1_0000 && Pow256(4) == MOD32 && Pow256(8) == MOD64
  {
    assert Pow256(1) == 256 && Pow256(2) == 256 * 256 && Pow256(3) == 256 * Pow256(2);
    assert Pow256(4) == 256 * Pow256(3) && Pow256(5) == 256 * Pow256(4);
    assert Pow256(6) == 256 * Pow256(5) && Pow256(7) == 256 * Pow256(6) && Pow256(8) == 256 * Pow256(7);
  }

  // hton64 and ntoh64, the #else branch: each half swapped, and the halves exchanged.
  function Hton64(x: u64): nat {
    Swap(x % MOD32, 4) * MOD32 + Swap(x / MOD32, 4)
  }

  // Together that is all eight bytes in the other order.
  lemma Hton64IsSwap(x: u64)
    ensures Hton64(x) == Swap(x, 8) < MOD64
  {
    Powers();
    FromToLe(x, 8);
    var s := ToLe(x, 8);
    var low, high := s[..4], s[4..];
    assert s == low + high;
    FromLeConcat(low, high);
    ToFromLe(low);
    ToFromLe(high);
    HalvesOf(x, FromLe(low), FromLe(high));
    RevConcat(low, high);
    FromLeConcat(Rev(high), Rev(low));
    hide FromLe;
    hide ToLe;
    hide Pow256;
  }

  // A 64-bit handle survives the trip; its bytes on the wire are in network order.
  lemma HandleRoundTrip(x: u64)
    ensures Hton64(x) < MOD64 && Hton64(Hton64(x)) == x
    ensures ToLe(Hton64(x), 8) == Rev(ToLe(x, 8))
  {
    Powers();
    Hton64IsSwap(x);
    Hton64IsSwap(Swap(x, 8));
    SwapSwap(x, 8);
    SwapBytes(x, 8);
  }

  // The x86_64 branch: htonl and ntohl, which keep 32 bits.
  function Hton64Narrow(x: u64): nat {
    Swap(x % MOD32, 4)
  }

  // It loses exactly the handles that use the upper half, which every server's handle does.
  lemma NarrowRoundTrip(x: u64)
    ensures Hton64Narrow(x) < MOD64
    ensures Hton64Narrow(Hton64Narrow(x)) == x <==> x < MOD32
  {
    Powers();
    SwapSwap(x % MOD32, 4);
    var y := Swap(x % MOD32, 4);
    assert y < MOD32;
    hide Swap;
    hide Pow256;
    SmallRest(x);
    SmallRest(y);
  }

  lemma SmallRest(x: nat)
    ensures x % MOD32 == x <==> x < MOD32
  {
  }

  // ----- the header

  const MAGIC := 0x5432552E
  const HEADER_SIZE := 20

  datatype Oper =
    | ConnectRequest | ConnectResponse | CloseRequest | CloseResponse
    | DataRequest | DataResponse | RetransRequest

  function Code(o: Oper): u16 {
    match o
    case ConnectRequest => 0
    case ConnectResponse => 1
    case CloseRequest => 2
    case CloseResponse => 3
    case DataRequest => 4
    case DataResponse => 5
    case RetransRequest => 6
  }

  datatype Message = Message(oper: u16, handle: u64, number: u32, payload: Payload)

  // What the message builders lay out in memory and send.
  function Encode(m: Message): seq<byte> {
    ToLe(Swap(MAGIC, 4), 4) + ToLe(Swap(1, 2), 2) + ToLe(Swap(m.oper, 2), 2)
    + ToLe(Hton64(m.handle), 8) + ToLe(Swap(m.number, 4), 4) + m.payload
  }

  datatype Decoded = Unknown | Known(m: Message)

  // What the UDP callback makes of a datagram: magic and version are checked, the operation
  // is left to the dispatch.
  function Decode(b: seq<byte>): Decoded {
    if |b| < HEADER_SIZE then Unknown else
    if Field(b, 0, 4) != MAGIC || Field(b, 4, 2) != 1 then Unknown else
    Known(Message(Field(b, 6, 2), HandleField(b), Field(b, 16, 4), b[HEADER_SIZE..]))
  }

  function Field(b: seq<byte>, at: nat, n: nat): (x: nat)
    requires at + n <= |b|
    ensures x < Pow256(n)
    ensures n == 2 ==> x < 0x1_0000
    ensures n == 4 ==> x < MOD32
  {
    Powers();
    Swap(FromLe(b[at..at + n]), n)
  }

  function HandleField(b: seq<byte>): u64
    requires |b| >= 16
  {
    Powers();
    ToFromLe(b[8..16]);
    HandleRoundTrip(FromLe(b[8..16]));
    Hton64(FromLe(b[8..16]))
  }

  lemma FieldOf(b: seq<byte>, at: nat, n: nat, x: nat)
    requires at + n <= |b| && b[at..at + n] == ToLe(Swap(x, n), n) && x < Pow256(n)
    ensures Field(b, at, n) == x
  {
    FromToLe(Swap(x, n), n);
    SwapSwap(x, n);
  }

  // Decoding recovers exactly what was encoded.
  lemma DecodeEncode(m: Message)
    ensures Decode(Encode(m)) == Known(m)
  {
    Powers();
    var b := Encode(m);
    EncodeSlices(m);
    FieldOf(b, 0, 4, MAGIC);
    FieldOf(b, 4, 2, 1);
    FieldOf(b, 6, 2, m.oper);
    FieldOf(b, 16, 4, m.number);
    HandleRoundTrip(m.handle);
    FromToLe(Hton64(m.handle), 8);
    hide Field;
    hide Hton64;
    hide FromLe;
    hide ToLe;
    hide Swap;
    hide Encode;
    hide Pow256;
  }

  lemma EncodeSlices(m: Message)
    ensures var b := Encode(m);
      && |b| >= HEADER_SIZE
      && b[0..4] == ToLe(Swap(MAGIC, 4), 4) && b[4..6] == ToLe(Swap(1, 2), 2) && b[6..8] == ToLe(Swap(m.oper, 2), 2)
      && b[8..16] == ToLe(Hton64(m.handle), 8) && b[16..20] == ToLe(Swap(m.number, 4), 4)
      && b[HEADER_SIZE..] == m.payload
  {
    hide ToLe;
    hide Swap;
    hide Hton64;
  }

  // Only what was encoded decodes: a known datagram is the encoding of what it decodes to.
  lemma EncodeDecode(b: seq<byte>)
    requires Decode(b).Known?
    ensures Encode(Decode(b).m) == b
  {
    Powers();
    FieldBytes(b, 0, 4);
    FieldBytes(b, 4, 2);
    FieldBytes(b, 6, 2);
    FieldBytes(b, 16, 4);
    ToFromLe(b[8..16]);
    HandleRoundTrip(FromLe(b[8..16]));
    hide Field;
    hide Hton64;
    hide FromLe;
    hide ToLe;
    hide Swap;
    hide Pow256;
    SixParts(b);
  }

  lemma SixParts(b: seq<byte>)
    requires |b| >= HEADER_SIZE
    ensures b[0..4] + b[4..6] + b[6..8] + b[8..16] + b[16..20] + b[HEADER_SIZE..] == b
  {
    assert b[0..4] + b[4..6] == b[..6] && b[..6] + b[6..8] == b[..8];
    assert b[..8] + b[8..16] == b[..16] && b[..16] + b[16..20] == b[..20];
  }

  lemma FieldBytes(b: seq<byte>, at: nat, n: nat)
    requires at + n <= |b|
    ensures ToLe(Swap(Field(b, at, n), n), n) == b[at..at + n]
  {
    var s := b[at..at + n];
    ToFromLe(s);
    SwapSwap(FromLe(s), n);
  }

  // ----- the callback decodes its buffer in place

  // One field from network to host order, or back.
  function SwapAt(b: seq<byte>, at: nat, n: nat): (r: seq<byte>)
    requires at + n <= |b|
    ensures |r| == |b| && r[..at] == b[..at] && r[at..at + n] == Rev(b[at..at + n]) && r[at + n..] == b[at + n..]
  {
    b[..at] + Rev(b[at..at + n]) + b[at + n..]
  }

  method SwapField(buff: array<byte>, at: nat, n: nat)
    requires at + n <= buff.Length
    modifies buff
    ensures buff[..] == SwapAt(old(buff[..]), at, n)
  {
    forall i | 0 <= i < n {
      buff[at + i] := buff[at + n - 1 - i];
    }
  }

  function AllSwapped(b: seq<byte>): seq<byte>
    requires |b| >= HEADER_SIZE
  {
    SwapAt(SwapAt(SwapAt(SwapAt(SwapAt(b, 0, 4), 4, 2), 6, 2), 8, 8), 16, 4)
  }

  lemma AllSwappedFields(b: seq<byte>)
    requires |b| >= HEADER_SIZE
    ensures var r := AllSwapped(b);
      && |r| == |b| && r[0..4] == Rev(b[0..4]) && r[4..6] == Rev(b[4..6]) && r[6..8] == Rev(b[6..8])
      && r[8..16] == Rev(b[8..16]) && r[16..20] == Rev(b[16..20]) && r[HEADER_SIZE..] == b[HEADER_SIZE..]
  {
    var b1 := SwapAt(b, 0, 4);
    var b2 := SwapAt(b1, 4, 2);
    var b3 := SwapAt(b2, 6, 2);
    var b4 := SwapAt(b3, 8, 8);
    var b5 := SwapAt(b4, 16, 4);
    hide SwapAt;
    hide Rev;
    forall i | 4 <= i < |b| ensures b1[i] == b[i] { assert b1[4..][i - 4] == b[4..][i - 4]; }
    forall i | 0 <= i < |b| && !(4 <= i < 6) ensures b2[i] == b1[i] { Elsewhere(b1, b2, 4, 2, i); }
    forall i | 0 <= i < |b| && !(6 <= i < 8) ensures b3[i] == b2[i] { Elsewhere(b2, b3, 6, 2, i); }
    forall i | 0 <= i < |b| && !(8 <= i < 16) ensures b4[i] == b3[i] { Elsewhere(b3, b4, 8, 8, i); }
    forall i | 0 <= i < |b| && !(16 <= i < 20) ensures b5[i] == b4[i] { Elsewhere(b4, b5, 16, 4, i); }
    assert b5[0..4] == b1[0..4] && b5[4..6] == b2[4..6] && b5[6..8] == b3[6..8] && b5[8..16] == b4[8..16];
    assert b1[4..6] == b[4..6] && b2[6..8] == b[6..8] && b3[8..16] == b[8..16] && b4[16..20] == b[16..20];
    assert b5[20..] == b[20..];
  }

  lemma Elsewhere(b: seq<byte>, r: seq<byte>, at: nat, n: nat, i: nat)
    requires at + n <= |b| == |r| && r[..at] == b[..at] && r[at + n..] == b[at + n..]
    requires i < |b| && !(at <= i < at + n)
    ensures r[i] == b[i]
  {
    if i < at {
      assert r[..at][i] == b[..at][i];
    } else {
      assert r[at + n..][i - at - n] == b[at + n..][i - at - n];
    }
  }

  lemma SwapOfField(s: seq<byte>)
    ensures FromLe(Rev(s)) == Swap(FromLe(s), |s|)
  {
    ToFromLe(s);
  }

  // The buffer always has room for a header; recvBytes of it were received.
  method DecodeInPlace(buff: array<byte>, recvBytes: nat) returns (d: Decoded)
    requires HEADER_SIZE <= buff.Length && recvBytes <= buff.Length
    modifies buff
    ensures d == Decode(old(buff[..recvBytes]))
    ensures d.Known? ==>
      && FromLe(buff[6..8]) == d.m.oper && FromLe(buff[8..16]) == d.m.handle && FromLe(buff[16..20]) == d.m.number
      && buff[HEADER_SIZE..recvBytes] == d.m.payload
  {
    ghost var b := buff[..];
    SwapField(buff, 0, 4);
    SwapField(buff, 4, 2);
    SwapField(buff, 6, 2);
    SwapField(buff, 8, 8);
    SwapField(buff, 16, 4);
    ghost var r := buff[..];
    assert r == AllSwapped(b);
    HostOrder(b, r, recvBytes);
    assert forall i, j :: 0 <= i <= j <= buff.Length ==> buff[i..j] == r[i..j];
    var magic, version := FromLe(buff[0..4]), FromLe(buff[4..6]);
    if recvBytes < HEADER_SIZE || magic != MAGIC || version != 1 {
      return Unknown;
    }
    d := Known(Message(FromLe(buff[6..8]), FromLe(buff[8..16]), FromLe(buff[16..20]), buff[HEADER_SIZE..recvBytes]));
  }

  // After the swaps the fields read as the decoder's.
  lemma HostOrder(b: seq<byte>, r: seq<byte>, n: nat)
    requires HEADER_SIZE <= |b| && n <= |b| && r == AllSwapped(b)
    ensures |r| == |b|
    ensures n >= HEADER_SIZE ==>
      && FromLe(r[0..4]) == Field(b[..n], 0, 4) && FromLe(r[4..6]) == Field(b[..n], 4, 2)
      && FromLe(r[6..8]) == Field(b[..n], 6, 2) && FromLe(r[8..16]) == HandleField(b[..n])
      && FromLe(r[16..20]) == Field(b[..n], 16, 4) && r[HEADER_SIZE..n] == b[..n][HEADER_SIZE..]
  {
    AllSwappedFields(b);
    hide AllSwapped;
    hide FromLe;
    hide Field;
    hide HandleField;
    hide Rev;
    hide Pow256;
    if n >= HEADER_SIZE {
      var c := b[..n];
      PrefixFields(b, n);
      FieldIsReversed(c, 0, 4);
      FieldIsReversed(c, 4, 2);
      FieldIsReversed(c, 6, 2);
      FieldIsReversed(c, 16, 4);
      HandleIsReversed(c);
      SameTail(b, r, n);
    }
  }

  lemma PrefixFields(b: seq<byte>, n: nat)
    requires HEADER_SIZE <= n <= |b|
    ensures var c := b[..n];
      c[0..4] == b[0..4] && c[4..6] == b[4..6] && c[6..8] == b[6..8] && c[8..16] == b[8..16] && c[16..20] == b[16..20]
  {
  }

  lemma SameTail(b: seq<byte>, r: seq<byte>, n: nat)
    requires |r| == |b| && HEADER_SIZE <= n <= |b| && r[HEADER_SIZE..] == b[HEADER_SIZE..]
    ensures r[HEADER_SIZE..n] == b[..n][HEADER_SIZE..]
  {
    assert r[HEADER_SIZE..n] == r[HEADER_SIZE..][..n - HEADER_SIZE];
    assert b[..n][HEADER_SIZE..] == b[HEADER_SIZE..][..n - HEADER_SIZE];
  }

  lemma FieldIsReversed(c: seq<byte>, at: nat, n: nat)
    requires at + n <= |c|
    ensures Field(c, at, n) == FromLe(Rev(c[at..at + n]))
  {
    SwapOfField(c[at..at + n]);
  }

  lemma HandleIsReversed(c: seq<byte>)
    requires |c| >= 16
    ensures HandleField(c) == FromLe(Rev(c[8..16]))
  {
    Powers();
    ToFromLe(c[8..16]);
    Hton64IsSwap(FromLe(c[8..16]));
    SwapOfField(c[8..16]);
  }

  // ----- the datagrams of an established session

  function OnWire(d: Datagram): seq<byte> {
    match d
    case Data(handle, number, payload) => Encode(Message(Code(DataRequest), handle, number, payload))
    case Response(handle, number, value) =>
      Encode(Message(Code(DataResponse), handle, number, ToLe(Swap(Bits(value), 4), 4)))
    case Retrans(handle, number) => Encode(Message(Code(RetransRequest), handle, number, []))
    case Close(handle) => Encode(Message(Code(CloseRequest), handle, 0, []))
  }

  // A response too short for its value is read past its end; that is Garbled here.
  datatype Arrived = Dropped | Garbled | Arrived(d: Datagram)

  // What reaches an established session: the dispatch on the operation.
  function FromWire(b: seq<byte>): Arrived {
    var d := Decode(b);
    if d.Unknown? then Dropped else
    var m := d.m;
    if m.oper == Code(DataRequest) then Arrived(Data(m.handle, m.number, m.payload))
    else if m.oper == Code(DataResponse) then
      if |m.payload| < 4 then Garbled else Arrived(Response(m.handle, m.number, Signed(Field(m.payload, 0, 4))))
    else if m.oper == Code(RetransRequest) then Arrived(Retrans(m.handle, m.number))
    else if m.oper == Code(CloseRequest) then Arrived(Close(m.handle))
    else Dropped
  }

  lemma ValueRoundTrip(value: int)
    requires -0x8000_0000 <= value < 0x8000_0000
    ensures var b := ToLe(Swap(Bits(value), 4), 4); |b| == 4 && Signed(Field(b, 0, 4)) == value
  {
    var b := ToLe(Swap(Bits(value), 4), 4);
    assert b[0..4] == b;
    Powers();
    FieldOf(b, 0, 4, Bits(value));
    hide Field;
    hide Swap;
    hide ToLe;
    hide Pow256;
  }

  // Every datagram one end sends is the datagram the other end's session is handed.
  lemma WireRoundTrip(d: Datagram)
    requires d.Response? ==> -0x8000_0000 <= d.value < 0x8000_0000
    ensures FromWire(OnWire(d)) == Arrived(d)
  {
    hide Encode;
    hide Decode;
    hide Swap;
    hide ToLe;
    hide Field;
    hide Signed;
    hide Bits;
    hide Pow256;
    match d
    case Data(handle, number, payload) => DecodeEncode(Message(Code(DataRequest), handle, number, payload));
    case Retrans(handle, number) => DecodeEncode(Message(Code(RetransRequest), handle, number, []));
    case Close(handle) => DecodeEncode(Message(Code(CloseRequest), handle, 0, []));
    case Response(handle, number, value) =>
      ValueRoundTrip(value);
      DecodeEncode(Message(Code(DataResponse), handle, number, ToLe(Swap(Bits(value), 4), 4)));
  }
}
