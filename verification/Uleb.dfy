/** The LEB128 `u32` reader (`read_uleb` in `src/runtime/config.rs`) against the format of
    section 5.2.2 of the WebAssembly Core Specification 1.0. */
module Uleb {
  import opened Bytes

  const MAX_ULEB_BYTES := 5

  /** The shape of an encoding: up to five bytes, of which only the last has a clear high bit. */
  predicate IsUleb(s: seq<byte>) {
    && 1 <= |s| <= MAX_ULEB_BYTES
    && s[|s| - 1] < 128
    && forall i :: 0 <= i < |s| - 1 ==> s[i] >= 128
  }

  /** The number the bytes denote: the base-128 sum of their low seven bits. */
  function Sum128(s: seq<byte>): nat {
    if s == [] then 0 else s[0] % 128 + 128 * Sum128(s[1..])
  }

  /** What the reader yields for an encoding. */
  function UlebValue(s: seq<byte>): u32 { Sum128(s) % U32_LIMIT }

  /** Length of the encoding that `s` starts with, looking at no more than `limit` bytes. */
  function UlebLength(s: seq<byte>, limit: nat): Option<nat>
    decreases limit
  {
    if s == [] || limit == 0 then None
    else if s[0] < 128 then Some(1)
    else match UlebLength(s[1..], limit - 1)
      case Some(n) => Some(n + 1)
      case None => None
  }

  lemma UlebLengthIff(s: seq<byte>, limit: nat, n: nat)
    ensures UlebLength(s, limit) == Some(n) <==>
            1 <= n <= Min(limit, |s|) && s[n - 1] < 128 && forall i :: 0 <= i < n - 1 ==> s[i] >= 128
    decreases limit
  {
    if s != [] && limit > 0 && s[0] >= 128 && n > 0 {
      UlebLengthIff(s[1..], limit - 1, n - 1);
      assert forall i :: 0 < i < |s| ==> s[i] == s[1..][i - 1];
    }
  }

  /** The reader as a function: the value and the number of bytes consumed. */
  function ParseUleb(s: seq<byte>): (r: Option<(u32, nat)>)
    ensures r.Some? ==> 1 <= r.value.1 <= |s|
  {
    match UlebLength(s, MAX_ULEB_BYTES)
    case None => None
    case Some(n) =>
      UlebLengthIff(s, MAX_ULEB_BYTES, n);
      Some((UlebValue(s[..n]), n))
  }

  /** The reader succeeds exactly on inputs that start with an encoding, and that encoding
      is the only one the input starts with. */
  lemma ParseUlebIff(s: seq<byte>, v: u32, n: nat)
    ensures ParseUleb(s) == Some((v, n)) <==> n <= |s| && IsUleb(s[..n]) && v == UlebValue(s[..n])
  {
    UlebLengthIff(s, MAX_ULEB_BYTES, n);
    if n <= |s| {
      assert forall i :: 0 <= i < n ==> s[..n][i] == s[i];
    }
  }

  lemma ParseUlebAppend(u: seq<byte>, rest: seq<byte>)
    requires IsUleb(u)
    ensures ParseUleb(u + rest) == Some((UlebValue(u), |u|))
  {
    assert (u + rest)[..|u|] == u;
    ParseUlebIff(u + rest, UlebValue(u), |u|);
  }

  /** A proper prefix of an encoding does not parse. */
  lemma ParseUlebTruncated(u: seq<byte>, k: nat)
    requires IsUleb(u) && k < |u|
    ensures ParseUleb(u[..k]).None?
  {
    if ParseUleb(u[..k]).Some? {
      var (v, n) := ParseUleb(u[..k]).value;
      ParseUlebIff(u[..k], v, n);
    }
  }

  /** Over arbitrary bytes: success exactly when some byte with a clear high bit occurs among
      the next five available ones. */
  lemma ParseUlebSucceedsIff(s: seq<byte>)
    ensures ParseUleb(s).Some? <==> exists i :: 0 <= i < Min(MAX_ULEB_BYTES, |s|) && s[i] < 128
  {
    SucceedsWithin(s, MAX_ULEB_BYTES);
  }

  lemma SucceedsWithin(s: seq<byte>, limit: nat)
    ensures UlebLength(s, limit).Some? <==> exists i :: 0 <= i < Min(limit, |s|) && s[i] < 128
    decreases limit
  {
    if s != [] && limit > 0 && s[0] >= 128 {
      SucceedsWithin(s[1..], limit - 1);
      assert forall i :: 0 < i < Min(limit, |s|) ==> s[1..][i - 1] == s[i];
      if i :| 0 <= i < Min(limit - 1, |s[1..]|) && s[1..][i] < 128 {
        assert s[i + 1] < 128;
      }
    }
  }

  // ---- Canonical encoding ----

  function EncodeUleb(n: nat): seq<byte> {
    if n < 128 then [n] else [128 + n % 128] + EncodeUleb(n / 128)
  }

  function Pow128(k: nat): nat { if k == 0 then 1 else 128 * Pow128(k - 1) }

  lemma EncodeUlebShape(n: nat, k: nat)
    requires 1 <= k && n < Pow128(k)
    ensures var s := EncodeUleb(n);
            1 <= |s| <= k && s[|s| - 1] < 128 && (forall i :: 0 <= i < |s| - 1 ==> s[i] >= 128)
    decreases k
  {
    if n >= 128 {
      assert Pow128(k) == 128 * Pow128(k - 1);
      assert Pow128(0) == 1;
      EncodeUlebShape(n / 128, k - 1);
    }
  }

  lemma SumOfEncoded(n: nat)
    ensures Sum128(EncodeUleb(n)) == n
  {
    if n < 128 {
      assert [n][1..] == [];
    } else {
      SumOfEncoded(n / 128);
      assert EncodeUleb(n)[1..] == EncodeUleb(n / 128);
    }
  }

  /** Every `u32`, encoded canonically and followed by anything, is read back with exactly its
      own bytes consumed. */
  lemma UlebRoundTrip(n: u32, rest: seq<byte>)
    ensures IsUleb(EncodeUleb(n))
    ensures ParseUleb(EncodeUleb(n) + rest) == Some((n, |EncodeUleb(n)|))
  {
    hide Pow128, EncodeUleb, Sum128, ParseUleb;
    Powers();
    EncodeUlebShape(n, 5);
    SumOfEncoded(n);
    ParseUlebAppend(EncodeUleb(n), rest);
  }

  // ---- What the fifth byte loses ----

  lemma Sum128Bound(s: seq<byte>)
    ensures Sum128(s) < Pow128(|s|)
  {
    if s != [] {
      Sum128Bound(s[1..]);
    }
  }

  lemma Sum128Snoc(s: seq<byte>, b: byte)
    ensures Sum128(s + [b]) == Sum128(s) + Pow128(|s|) * (b % 128)
  {
    if s == [] {
      assert s + [b] == [b] && [b][1..] == [];
    } else {
      assert (s + [b])[1..] == s[1..] + [b];
      Sum128Snoc(s[1..], b);
      MulAssociative(128, Pow128(|s| - 1), b % 128);
    }
  }

  lemma MulAssociative(a: nat, b: nat, c: nat)
    ensures a * (b * c) == a * b * c
  {
  }

  /** The specification bounds a `u32` encoding by its value; the reader bounds it by length
      only and drops the bits above the 32nd. The two agree exactly when a fifth byte, if there
      is one, is below 16. */
  lemma ReaderAgreesWithFormatIff(s: seq<byte>)
    requires IsUleb(s)
    ensures UlebValue(s) == Sum128(s) <==> (|s| == 5 ==> s[4] < 16)
  {
    hide Pow128, Sum128;
    Sum128Bound(s);
    Powers();
    if |s| == 5 {
      assert s == s[..4] + [s[4]];
      Sum128Snoc(s[..4], s[4]);
      Sum128Bound(s[..4]);
      TopDigitModulo(Sum128(s[..4]), s[4]);
    }
  }

  /** Five bytes that denote 2^32 are read as zero. */
  lemma OversizedIsReadAsZero()
    ensures var s := [0x80, 0x80, 0x80, 0x80, 0x10];
            IsUleb(s) && Sum128(s) == U32_LIMIT && ParseUleb(s) == Some((0, 5))
  {
    hide Sum128, ParseUleb;
    var s: seq<byte> := [0x80, 0x80, 0x80, 0x80, 0x10];
    SumOfZeroDigits(s[..4]);
    OneAboveZeroDigits(s[..4], 0x10);
    assert s == s[..4] + [0x10];
    assert s + [] == s;
    ParseUlebAppend(s, []);
  }

  lemma SumOfZeroDigits(s: seq<byte>)
    requires forall i :: 0 <= i < |s| ==> s[i] == 0x80
    ensures Sum128(s) == 0
  {
  }

  lemma OneAboveZeroDigits(s: seq<byte>, b: byte)
    requires |s| == 4 && Sum128(s) == 0 && b < 128
    ensures Sum128(s + [b]) == 0x1000_0000 * b
  {
    hide Pow128, Sum128;
    Sum128Snoc(s, b);
    Powers();
  }

  // ---- The loop ----

  function Pow2(k: nat): nat { if k == 0 then 1 else 2 * Pow2(k - 1) }

  /** Bitwise or of two unsigned integers. */
  function BitOr(a: nat, b: nat): nat {
    if a == 0 then b
    else 2 * BitOr(a / 2, b / 2) + (if a % 2 == 1 || b % 2 == 1 then 1 else 0)
  }

  /** `x << shift` in a `u32`: bits shifted out at the top are lost. */
  function Shl32(x: nat, shift: nat): u32 { x * Pow2(shift) % U32_LIMIT }

  lemma OrOfDisjointBits(a: nat, q: nat, k: nat)
    requires a < Pow2(k)
    ensures BitOr(a, q * Pow2(k)) == a + q * Pow2(k)
  {
    if k > 0 && a > 0 {
      var half := q * Pow2(k - 1);
      assert q * Pow2(k) == 2 * half;
      OrOfDisjointBits(a / 2, q, k - 1);
    }
  }

  lemma Pow2Of7(k: nat)
    ensures Pow2(7 * k) == Pow128(k)
  {
    if k > 0 {
      Pow2Of7(k - 1);
      var j := 7 * (k - 1);
      assert Pow2(j + 7) == 2 * Pow2(j + 6) == 4 * Pow2(j + 5) == 8 * Pow2(j + 4) == 16 * Pow2(j + 3)
          == 32 * Pow2(j + 2) == 64 * Pow2(j + 1) == 128 * Pow2(j);
    }
  }

  /** The digit that survives the shift of the `k`-th byte's seven bits. */
  function Kept(k: nat, x: nat): nat { if k == 4 then x % 16 else x }

  lemma Powers()
    ensures Pow128(0) == 1 && Pow128(1) == 0x80 && Pow128(2) == 0x4000 && Pow128(3) == 0x20_0000
    ensures Pow128(4) == 0x1000_0000 && Pow128(5) == 0x8_0000_0000
  {
    assert Pow128(2) == 128 * Pow128(1);
    assert Pow128(4) == 128 * Pow128(3);
  }

  lemma KeptModulo(k: nat, a: nat, x: nat)
    requires k <= 4 && x < 128 && a < Pow128(k)
    ensures (a + Pow128(k) * x) % U32_LIMIT == a + Kept(k, x) * Pow128(k)
  {
    hide Pow128;
    Powers();
    if k == 4 {
      TopDigitModulo(a, x);
    } else {
      LowDigitModulo(Pow128(k), a, x);
    }
  }

  lemma LowDigitModulo(p: nat, a: nat, x: nat)
    requires a < p <= 0x20_0000 && x < 128
    ensures (a + p * x) % U32_LIMIT == a + x * p
  {
    assert p * x <= 0x20_0000 * x;
  }

  lemma TopDigitModulo(a: nat, x: nat)
    requires x < 128 && a < 0x1000_0000
    ensures (a + 0x1000_0000 * x) % U32_LIMIT == a + (x % 16) * 0x1000_0000
  {
    var h, l := x / 16, x % 16;
    assert x == 16 * h + l;
    assert a + 0x1000_0000 * x == U32_LIMIT * h + (a + l * 0x1000_0000);
  }

  lemma ShiftKeepsDigit(k: nat, x: nat)
    requires k <= 4 && x < 128
    ensures Shl32(x, 7 * k) == Kept(k, x) * Pow2(7 * k)
    ensures Pow2(7 * k) == Pow128(k)
  {
    hide Pow128, Pow2, Kept;
    Pow2Of7(k);
    Powers();
    KeptModulo(k, 0, x);
  }

  /** One turn of the loop: or-ing in the next seven bits extends the base-128 sum. */
  lemma OrExtendsSum(s: seq<byte>, b: byte)
    requires |s| <= 4
    ensures BitOr(Sum128(s), Shl32(b % 128, 7 * |s|)) == Sum128(s + [b]) % U32_LIMIT
  {
    hide Pow128, Pow2, BitOr, Shl32, Kept, Sum128;
    Sum128Bound(s);
    Sum128Snoc(s, b);
    ShiftKeepsDigit(|s|, b % 128);
    OrOfDisjointBits(Sum128(s), Kept(|s|, b % 128), 7 * |s|);
    KeptModulo(|s|, Sum128(s), b % 128);
  }

  function Tail(s: seq<byte>, pos: nat): seq<byte> { if pos <= |s| then s[pos..] else [] }

  /** `read_uleb`: the value, and where the cursor is left (on failure as well). */
  method ReadUleb(bytes: seq<byte>, pos: nat) returns (value: Option<u32>, next: nat)
    ensures value.Some? <==> ParseUleb(Tail(bytes, pos)).Some?
    ensures value.Some? ==> ParseUleb(Tail(bytes, pos)) == Some((value.value, next - pos))
    ensures pos <= next <= Max(pos, |bytes|) && next <= pos + MAX_ULEB_BYTES
  {
    next := pos;
    hide ParseUleb, Sum128, Shl32, BitOr;
    assert Sum128([]) == 0 by { SumOfZeroDigits([]); }
    var result: u32 := 0;
    ghost var tail := Tail(bytes, pos);
    var shift := 0;
    while shift < 35
      invariant shift == 7 * (next - pos) && 0 <= next - pos <= Min(5, |tail|)
      invariant forall i :: 0 <= i < next - pos ==> tail[i] >= 128
      invariant shift < 35 ==> result == Sum128(tail[..next - pos])
      decreases 35 - shift
    {
      if next >= |bytes| {
        break;
      }
      var b := bytes[next];
      TurnExtendsSum(tail, next - pos, shift);
      result := BitOr(result, Shl32(b % 128, shift));
      next := next + 1;
      if b < 128 {
        ParseUlebIff(tail, result, next - pos);
        return Some(result), next;
      }
      shift := shift + 7;
    }
    ParseUlebSucceedsIff(tail);
    return None, next;
  }

  lemma TurnExtendsSum(s: seq<byte>, k: nat, shift: nat)
    requires k < |s| && k <= 4 && shift == 7 * k
    ensures BitOr(Sum128(s[..k]), Shl32(s[k] % 128, shift)) == UlebValue(s[..k + 1])
    ensures k < 4 ==> UlebValue(s[..k + 1]) == Sum128(s[..k + 1])
  {
    hide Pow128, Pow2, BitOr, Shl32, Sum128;
    assert s[..k + 1] == s[..k] + [s[k]];
    OrExtendsSum(s[..k], s[k]);
    Sum128Bound(s[..k + 1]);
    Powers();
  }
}
