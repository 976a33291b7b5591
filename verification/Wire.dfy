// Numbers on the wire: 32-bit sequence arithmetic, and a session's datagrams after decoding.
module Wire {

  // ----- uint32_t arithmetic

  const MOD32 := 0x1_0000_0000
  const MOD64 := 0x1_0000_0000_0000_0000

  type u16 = x: int | 0 <= x < 0x1_0000
  type u32 = x: int | 0 <= x < 0x1_0000_0000
  type u64 = x: int | 0 <= x < 0x1_0000_0000_0000_0000
  type byte = x: int | 0 <= x < 0x100

  // The low 32 bits of a true (unbounded) sequence number.
  function Low32(n: int): u32 {
    n % MOD32
  }

  function Add32(a: u32, b: int): u32 {
    (a + b) % MOD32
  }

  function Sub32(a: u32, b: u32): u32 {
    (a - b) % MOD32
  }

  // Wrapping differences of true numbers less than 2^32 apart.
  lemma SubOfLows(n: int, m: int)
    ensures 0 <= n - m < MOD32 ==> Sub32(Low32(n), Low32(m)) == n - m
    ensures 0 < m - n < MOD32 ==> Sub32(Low32(n), Low32(m)) == MOD32 - (m - n)
  {
    var qn, qm := n / MOD32, m / MOD32;
    assert n == qn * MOD32 + Low32(n) && m == qm * MOD32 + Low32(m);
  }

  lemma AddToLow(n: int, k: int)
    ensures Add32(Low32(n), k) == Low32(n + k)
  {
  }

  // Two true numbers with the same low bits, less than 2^32 apart, are equal.
  lemma SameLow(n: int, m: int)
    requires Low32(n) == Low32(m) && -MOD32 < n - m < MOD32
    ensures n == m
  {
  }

  // The two halves of a 64-bit number.
  lemma HalvesOf(x: nat, low: nat, high: nat)
    requires low < MOD32 && x == low + high * MOD32
    ensures x % MOD32 == low && x / MOD32 == high
  {
  }

  // Counters that stay small do not wrap.
  lemma CountUpDown(count: u32)
    ensures count + 1 < MOD32 ==> Add32(count, 1) == count + 1
    ensures count > 0 ==> Sub32(count, 1) == count - 1
  {
  }

  // A 32-bit int as the unsigned number with the same bits, and back.
  function Bits(v: int): u32 {
    v % MOD32
  }

  function Signed(w: u32): int {
    if w < 0x8000_0000 then w else w - MOD32
  }

  // ----- datagrams, after decoding

  // The most that one read from the local TCP socket yields.
  const PAYLOAD_MAX := 1400

  type Payload = seq<byte>

  datatype Datagram =
    | Data(handle: u64, number: u32, payload: Payload)       // data_request
    | Response(handle: u64, number: u32, value: int)         // data_response
    | Retrans(handle: u64, number: u32)                      // retrans_request
    | Close(handle: u64)                                  // close_request
}
