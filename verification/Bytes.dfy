/** Bytes, machine integers and the casts with which pointers cross the host/guest boundary. */
module Bytes {

  datatype Option<+T> = None | Some(value: T)

  datatype Result<+T, +E> = Ok(value: T) | Err(error: E)

  type byte = b: int | 0 <= b < 256

  const U32_LIMIT := 0x1_0000_0000
  const I32_LIMIT := 0x8000_0000
  const I32_MAX := I32_LIMIT - 1
  const U64_LIMIT := 0x1_0000_0000_0000_0000
  const USIZE_MAX := U64_LIMIT - 1

  type u32 = n: int | 0 <= n < U32_LIMIT
  type u64 = n: int | 0 <= n < U64_LIMIT
  type i32 = n: int | -I32_LIMIT <= n < I32_LIMIT
  /** Hosts are 64-bit machines. */
  type usize = n: int | 0 <= n <= USIZE_MAX

  /** `x as usize` for a guest `i32`: sign extension, so a negative pointer becomes huge. */
  function I32AsUsize(x: i32): usize { if x < 0 then x + U64_LIMIT else x }

  /** `x as u32` for a host `usize`: truncation. */
  function UsizeAsU32(x: usize): u32 { x % U32_LIMIT }

  /** The guest sees the 32 bits of a `u32` as an `i32`. */
  function U32AsI32(x: u32): i32 { if x < I32_LIMIT then x else x - U32_LIMIT }

  function I32AsU32(x: i32): u32 { if x < 0 then x + U32_LIMIT else x }

  /** The casts keep the bits: sign extension on the way to a 64-bit host, truncation on the way back. */
  lemma CastsKeepBits(x: i32)
    ensures I32AsUsize(x) % 0x1_0000_0000 == I32AsU32(x) && (I32AsUsize(x) - x) % 0x1_0000_0000_0000_0000 == 0
    ensures U32AsI32(I32AsU32(x)) == x && UsizeAsU32(I32AsUsize(x)) == I32AsU32(x)
    ensures x < 0 ==> I32AsUsize(x) >= 0xFFFF_FFFF_8000_0000 && I32AsU32(x) >= 0x8000_0000
  {
  }

  function Max(a: nat, b: nat): nat { if a < b then b else a }

  function Min(a: nat, b: nat): nat { if a < b then a else b }

  function Zeros(n: nat): (s: seq<byte>)
    ensures |s| == n
  {
    seq(n, _ => 0)
  }

  lemma ZerosAreZero(n: nat)
    ensures forall i :: 0 <= i < n ==> Zeros(n)[i] == 0
  {
  }

  /** `data` written over `s` starting at `offset`. */
  function Splice(s: seq<byte>, offset: nat, data: seq<byte>): (r: seq<byte>)
    requires offset + |data| <= |s|
    ensures |r| == |s|
  {
    s[..offset] + data + s[offset + |data|..]
  }

  lemma FullSplice(s: seq<byte>, data: seq<byte>)
    requires |data| == |s|
    ensures Splice(s, 0, data) == data
  {
  }

  /** Little-endian `u32::to_le_bytes`. */
  function Le32(n: u32): (s: seq<byte>)
    ensures |s| == 4
  {
    [n % 0x100, n / 0x100 % 0x100, n / 0x1_0000 % 0x100, n / 0x100_0000]
  }

  function FromLe32(s: seq<byte>): (n: u32)
    requires |s| == 4
  {
    var a: int, b: int, c: int, d: int := s[0], s[1], s[2], s[3];
    a + 0x100 * b + 0x1_0000 * c + 0x100_0000 * d
  }

  lemma Le32RoundTrip(n: u32)
    ensures FromLe32(Le32(n)) == n
  {
    assert n / 0x1_0000 == n / 0x100 / 0x100;
    assert n / 0x100_0000 == n / 0x1_0000 / 0x100;
  }

  lemma FromLe32RoundTrip(s: seq<byte>)
    requires |s| == 4
    ensures Le32(FromLe32(s)) == s
  {
    var a: int, b: int, c: int, d: int := s[0], s[1], s[2], s[3];
    LowByte(a, b + 0x100 * c + 0x1_0000 * d);
    LowByte(b, c + 0x100 * d);
    LowByte(c, d);
    var n: int := FromLe32(s);
    assert n / 0x1_0000 == n / 0x100 / 0x100 && n / 0x100_0000 == n / 0x1_0000 / 0x100;
  }

  lemma LowByte(low: int, high: int)
    requires 0 <= low < 0x100
    ensures (low + 0x100 * high) % 0x100 == low && (low + 0x100 * high) / 0x100 == high
  {
  }
}
