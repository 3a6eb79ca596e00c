/** UTF-8 text, after Table 3-7 of the Unicode Standard. Rust strings are such byte sequences. */
module Utf8 {
  import opened Bytes

  predicate Continues(b: byte) { 0x80 <= b <= 0xBF }

  /** Length of the character that `s` starts with, or 0 if there is none. */
  function CharLength(s: seq<byte>): (n: nat)
    ensures n <= |s|
  {
    if |s| >= 1 && s[0] < 0x80 then 1
    else if |s| >= 2 && 0xC2 <= s[0] <= 0xDF && Continues(s[1]) then 2
    else if |s| >= 3 && 0xE0 <= s[0] <= 0xEF && Continues(s[1]) && Continues(s[2])
            && (s[0] == 0xE0 ==> s[1] >= 0xA0) && (s[0] == 0xED ==> s[1] <= 0x9F) then 3
    else if |s| >= 4 && 0xF0 <= s[0] <= 0xF4 && Continues(s[1]) && Continues(s[2]) && Continues(s[3])
            && (s[0] == 0xF0 ==> s[1] >= 0x90) && (s[0] == 0xF4 ==> s[1] <= 0x8F) then 4
    else 0
  }

  predicate IsUtf8(s: seq<byte>)
    decreases |s|
  {
    s == [] || (CharLength(s) > 0 && IsUtf8(s[CharLength(s)..]))
  }

  type Str = s: seq<byte> | IsUtf8(s) witness []

  lemma {:induction false} ConcatIsUtf8(a: seq<byte>, b: seq<byte>)
    requires IsUtf8(a) && IsUtf8(b)
    ensures IsUtf8(a + b)
    decreases |a|
  {
    if a == [] {
      assert a + b == b;
    } else {
      var n := CharLength(a);
      CharLengthAppend(a, b);
      ConcatIsUtf8(a[n..], b);
      assert (a + b)[n..] == a[n..] + b;
    }
  }

  lemma CharLengthAppend(a: seq<byte>, b: seq<byte>)
    requires CharLength(a) > 0
    ensures CharLength(a + b) == CharLength(a)
  {
    assert forall i :: 0 <= i < |a| ==> (a + b)[i] == a[i];
  }

  // ---- The table accepts exactly the encodings of Unicode scalar values ----

  type Scalar = c: int | 0 <= c < 0xD800 || 0xE000 <= c <= 0x10_FFFF witness 0

  function EncodeChar(c: Scalar): (s: seq<byte>)
    ensures 1 <= |s| <= 4
  {
    if c < 0x80 then [c]
    else if c < 0x800 then [0xC0 + c / 0x40, 0x80 + c % 0x40]
    else if c < 0x1_0000 then [0xE0 + c / 0x1000, 0x80 + c / 0x40 % 0x40, 0x80 + c % 0x40]
    else [0xF0 + c / 0x4_0000, 0x80 + c / 0x1000 % 0x40, 0x80 + c / 0x40 % 0x40, 0x80 + c % 0x40]
  }

  function EncodeChars(cs: seq<Scalar>): seq<byte> {
    if cs == [] then [] else EncodeChar(cs[0]) + EncodeChars(cs[1..])
  }

  lemma EncodedIsChar(c: Scalar)
    ensures CharLength(EncodeChar(c)) == |EncodeChar(c)|
  {
    if 0x800 <= c < 0x1_0000 {
      assert c == 0x1000 * (c / 0x1000) + 0x40 * (c / 0x40 % 0x40) + c % 0x40;
    } else if 0x1_0000 <= c {
      LongIsChar(c);
    }
  }

  lemma LongIsChar(c: Scalar)
    requires 0x1_0000 <= c
    ensures CharLength(EncodeChar(c)) == 4
  {
    var a, b := c / 0x4_0000, c / 0x1000 % 0x40;
    assert c / 0x1000 == 0x40 * a + b;
    assert 0x10 <= c / 0x1000 < 0x110;
  }

  lemma CharIsEncoded(s: seq<byte>) returns (c: Scalar)
    requires CharLength(s) > 0
    ensures EncodeChar(c) == s[..CharLength(s)]
  {
    var n := CharLength(s);
    var a: int := s[0];
    if n == 1 {
      c := a;
    } else if n == 2 {
      var b: int := s[1];
      c := 0x40 * (a - 0xC0) + (b - 0x80);
    } else if n == 3 {
      var b: int, d: int := s[1], s[2];
      c := 0x1000 * (a - 0xE0) + 0x40 * (b - 0x80) + (d - 0x80);
      SixBits(0x40 * (a - 0xE0) + (b - 0x80), d - 0x80);
    } else {
      c := LongIsEncoded(s);
    }
  }

  lemma LongIsEncoded(s: seq<byte>) returns (c: Scalar)
    requires CharLength(s) == 4
    ensures EncodeChar(c) == s[..4]
  {
    var a: int, b: int, d: int, e: int := s[0] - 0xF0, s[1] - 0x80, s[2] - 0x80, s[3] - 0x80;
    var high := 0x40 * a + b;
    var mid := 0x40 * high + d;
    SixBits(a, b);
    SixBits(high, d);
    SixBits(mid, e);
    assert 0x10 <= high < 0x110;
    c := 0x40 * mid + e;
    assert c / 0x1000 == c / 0x40 / 0x40 && c / 0x4_0000 == c / 0x1000 / 0x40;
  }

  lemma SixBits(high: nat, low: nat)
    requires low < 0x40
    ensures (0x40 * high + low) / 0x40 == high && (0x40 * high + low) % 0x40 == low
  {
  }

  lemma {:induction false} EncodedIsUtf8(cs: seq<Scalar>)
    ensures IsUtf8(EncodeChars(cs))
  {
    hide CharLength, EncodeChar;
    if cs != [] {
      var first, rest := EncodeChar(cs[0]), EncodeChars(cs[1..]);
      EncodedIsUtf8(cs[1..]);
      EncodedIsChar(cs[0]);
      CharLengthAppend(first, rest);
      assert (first + rest)[|first|..] == rest;
    }
  }

  lemma {:induction false} Utf8IsEncoded(s: seq<byte>) returns (cs: seq<Scalar>)
    requires IsUtf8(s)
    ensures EncodeChars(cs) == s
    decreases |s|
  {
    hide CharLength, EncodeChar;
    if s == [] {
      cs := [];
    } else {
      var n := CharLength(s);
      var c := CharIsEncoded(s);
      var rest := Utf8IsEncoded(s[n..]);
      cs := [c] + rest;
      assert cs[1..] == rest;
    }
  }

  /** Bytes are text exactly when they are the encodings of Unicode scalar values, one after another:
      no surrogates, nothing overlong, nothing beyond U+10FFFF. */
  lemma Utf8Iff(s: seq<byte>)
    ensures IsUtf8(s) <==> exists cs :: EncodeChars(cs) == s
  {
    if IsUtf8(s) {
      var cs := Utf8IsEncoded(s);
    }
    forall cs | EncodeChars(cs) == s ensures IsUtf8(s) {
      EncodedIsUtf8(cs);
    }
  }

  function Concat(a: Str, b: Str): Str {
    ConcatIsUtf8(a, b);
    a + b
  }

  lemma AsciiCharIsUtf8(c: byte)
    requires c < 128
    ensures IsUtf8([c])
  {
    assert CharLength([c]) == 1 && [c][1..] == [];
    assert IsUtf8([c][1..]);
  }

  /** The bytes of an ASCII text. */
  function Text(s: string): Str {
    if s == "" then []
    else
      var c: byte := if s[0] < 128 as char then s[0] as int else 63;
      AsciiCharIsUtf8(c);
      Concat([c], Text(s[1..]))
  }

  /** The same, character by character; what is not ASCII counts as a question mark. */
  function Ascii(s: string): (bytes: seq<byte>)
    ensures |bytes| == |s|
  {
    seq(|s|, k requires 0 <= k < |s| => if s[k] < 128 as char then s[k] as int else 63)
  }

  lemma {:induction false} TextIsAscii(s: string)
    ensures Text(s) == Ascii(s)
  {
    if s != "" {
      TextIsAscii(s[1..]);
      assert forall k :: 1 <= k < |s| ==> Ascii(s)[k] == Ascii(s[1..])[k - 1];
    }
  }
}

/** The Borsh encodings that cross the boundary. Field order follows the struct literals at
    `src/lib.rs:283-291` and `src/tests.rs:792-795`. */
module Borsh {
  import opened Bytes
  import opened Limits
  import opened Utf8

  datatype ResultData = ResultData(finalState: seq<byte>, success: bool, error: Str)

  datatype InitData = InitData(success: bool, error: Str)

  function EncodeBytes(b: seq<byte>): (s: seq<byte>)
    requires |b| < U32_LIMIT
    ensures |s| == 4 + |b|
  {
    Le32(|b|) + b
  }

  function EncodeBool(b: bool): seq<byte> { if b then [1] else [0] }

  /** A length-prefixed byte string and the rest of the input. */
  function DecodeBytes(s: seq<byte>): Option<(seq<byte>, seq<byte>)> {
    if |s| < 4 then None
    else
      var n := FromLe32(s[..4]);
      if |s| < 4 + n then None else Some((s[4..4 + n], s[4 + n..]))
  }

  function DecodeBool(s: seq<byte>): Option<(bool, seq<byte>)> {
    if s == [] || s[0] > 1 then None else Some((s[0] == 1, s[1..]))
  }

  /** `ContractData`: strict, so nothing may follow. */
  function DecodeData(s: seq<byte>): Option<seq<byte>> {
    match DecodeBytes(s)
    case Some((data, rest)) => if rest == [] then Some(data) else None
    case None => None
  }

  function DecodeInit(s: seq<byte>): Option<InitData> {
    match DecodeBool(s)
    case None => None
    case Some((success, rest)) =>
      match DecodeData(rest)
      case None => None
      case Some(error) => if IsUtf8(error) then Some(InitData(success, error)) else None
  }

  function DecodeResult(s: seq<byte>): Option<ResultData> {
    match DecodeBytes(s)
    case None => None
    case Some((finalState, rest)) =>
      match DecodeInit(rest)
      case None => None
      case Some(InitData(success, error)) => Some(ResultData(finalState, success, error))
  }

  /** `borsh::to_vec` fails only on a length that does not fit the prefix. */
  function SerializeData(data: seq<byte>): Option<seq<byte>> {
    if |data| < U32_LIMIT then Some(EncodeBytes(data)) else None
  }

  function SerializeInit(d: InitData): Option<seq<byte>> {
    if |d.error| < U32_LIMIT then Some(EncodeBool(d.success) + EncodeBytes(d.error)) else None
  }

  function SerializeResult(d: ResultData): Option<seq<byte>> {
    if |d.finalState| < U32_LIMIT && |d.error| < U32_LIMIT then
      Some(EncodeBytes(d.finalState) + (EncodeBool(d.success) + EncodeBytes(d.error)))
    else None
  }

  // ---- Decoding inverts encoding, both ways ----

  lemma DecodeBytesIff(s: seq<byte>, b: seq<byte>, rest: seq<byte>)
    ensures DecodeBytes(s) == Some((b, rest)) <==> |b| < U32_LIMIT && s == EncodeBytes(b) + rest
  {
    hide Le32, FromLe32;
    if DecodeBytes(s) == Some((b, rest)) {
      FromLe32RoundTrip(s[..4]);
      assert s == s[..4] + s[4..4 + |b|] + s[4 + |b|..];
    }
    if |b| < U32_LIMIT && s == EncodeBytes(b) + rest {
      Le32RoundTrip(|b|);
      assert s[..4] == Le32(|b|);
      assert s[4..4 + |b|] == b && s[4 + |b|..] == rest;
    }
  }

  lemma DecodeDataIff(s: seq<byte>, data: seq<byte>)
    ensures DecodeData(s) == Some(data) <==> SerializeData(data) == Some(s)
  {
    hide DecodeBytes, EncodeBytes;
    DecodeBytesIff(s, data, []);
    if |data| < U32_LIMIT {
      assert EncodeBytes(data) + [] == EncodeBytes(data);
    }
  }

  lemma DecodeInitIff(s: seq<byte>, d: InitData)
    ensures DecodeInit(s) == Some(d) <==> SerializeInit(d) == Some(s)
  {
    hide DecodeData, EncodeBytes, IsUtf8;
    if s != [] {
      DecodeDataIff(s[1..], d.error);
      assert s == [s[0]] + s[1..];
    }
    if SerializeInit(d) == Some(s) {
      assert s[1..] == EncodeBytes(d.error);
    }
  }

  /** A byte string decodes as an execution result exactly when it is that result's encoding: what
      the guest stores the host reads back, distinct results have distinct encodings, and no other
      bytes are accepted. */
  lemma DecodeResultIff(s: seq<byte>, d: ResultData)
    ensures DecodeResult(s) == Some(d) <==> SerializeResult(d) == Some(s)
  {
    hide DecodeBytes, DecodeInit, EncodeBytes, EncodeBool, IsUtf8;
    var inner := InitData(d.success, d.error);
    if DecodeResult(s) == Some(d) {
      var rest := DecodeBytes(s).value.1;
      DecodeBytesIff(s, d.finalState, rest);
      DecodeInitIff(rest, inner);
    }
    if SerializeResult(d) == Some(s) {
      var rest := SerializeInit(inner).value;
      DecodeBytesIff(s, d.finalState, rest);
      DecodeInitIff(rest, inner);
    }
  }

  /** A number in four bytes, the lowest first. */
  predicate LengthAt(s: seq<byte>, k: nat, n: nat) {
    && k + 4 <= |s|
    && var a: int, b: int, c: int, d: int := s[k], s[k + 1], s[k + 2], s[k + 3];
       n == a + 256 * b + 65_536 * c + 16_777_216 * d
  }

  lemma PrefixIsLength(s: seq<byte>, k: nat, n: u32)
    requires k + 4 <= |s| && s[k..k + 4] == Le32(n)
    ensures LengthAt(s, k, n)
  {
    hide Le32;
    Le32RoundTrip(n);
    var p := s[k..k + 4];
    assert p[0] == s[k] && p[1] == s[k + 1] && p[2] == s[k + 2] && p[3] == s[k + 3];
  }

  /** The layout of a result, place by place: the final state behind its length, the flag, the message
      behind its length. */
  lemma ResultLayout(d: ResultData, s: seq<byte>)
    requires SerializeResult(d) == Some(s)
    ensures var n, m := |d.finalState|, |d.error|;
            && |s| == 9 + n + m && LengthAt(s, 0, n) && s[4..4 + n] == d.finalState
            && s[4 + n] == (if d.success then 1 else 0) && LengthAt(s, 5 + n, m) && s[9 + n..] == d.error
  {
    hide Le32;
    var n := |d.finalState|;
    assert s[0..4] == Le32(n);
    assert s[5 + n..5 + n + 4] == Le32(|d.error|);
    PrefixIsLength(s, 0, n);
    PrefixIsLength(s, 5 + n, |d.error|);
  }

  /** The layout of an init check: the flag, then the message behind its length. */
  lemma InitLayout(d: InitData, s: seq<byte>)
    requires SerializeInit(d) == Some(s)
    ensures |s| == 5 + |d.error| && s[0] == (if d.success then 1 else 0) && LengthAt(s, 1, |d.error|) && s[5..] == d.error
  {
    hide Le32;
    assert s[1..1 + 4] == Le32(|d.error|);
    PrefixIsLength(s, 1, |d.error|);
  }

  /** The layout of a staged argument: its length, then its bytes. */
  lemma DataLayout(data: seq<byte>, s: seq<byte>)
    requires SerializeData(data) == Some(s)
    ensures |s| == 4 + |data| && LengthAt(s, 0, |data|) && s[4..] == data
  {
    hide Le32;
    assert s[0..4] == Le32(|data|);
    PrefixIsLength(s, 0, |data|);
  }

  // ---- A staged argument is not a result ----

  /** The bytes of a staged argument never decode as an execution result, so a contract that
      returns the pointer of its first argument is refused. */
  lemma StagedIsNoResult(payload: seq<byte>)
    requires |payload| < U32_LIMIT
    ensures DecodeResult(EncodeBytes(payload)).None?
  {
    hide DecodeBytes, EncodeBytes;
    assert EncodeBytes(payload) + [] == EncodeBytes(payload);
    DecodeBytesIff(EncodeBytes(payload), payload, []);
  }

  /** As an init-check result, a staged argument of any size a machine accepts decodes exactly when
      it is a single NUL byte, which no JSON text is. */
  lemma StagedIsInitIff(payload: seq<byte>)
    requires 4 + |payload| <= 8 * MIB
    ensures DecodeInit(EncodeBytes(payload)).Some? <==> payload == [0]
    ensures payload == [0] ==> DecodeInit(EncodeBytes(payload)) == Some(InitData(true, []))
  {
    hide Le32, FromLe32, IsUtf8;
    var n := |payload|;
    var s := EncodeBytes(payload);
    var prefix := Le32(n);
    PrefixIsModulo(n);
    assert s[0] == prefix[0];
    if n > 0 {
      assert s[1..][..4] == [prefix[1], prefix[2], prefix[3], payload[0]];
      PrefixOfStaged(n, payload[0]);
      OnlySingleByteFits(n, payload[0]);
      if payload == [0] {
        NothingIsUtf8();
        assert DecodeBytes(s[1..]) == Some(([], [])) by {
          assert FromLe32(s[1..][..4]) == 0;
          assert s[1..][4..4] == [] && s[1..][4..] == [];
        }
        assert DecodeData(s[1..]) == Some([]);
      }
    }
  }

  lemma NothingIsUtf8()
    ensures IsUtf8([])
  {
  }

  lemma PrefixIsModulo(n: u32)
    ensures Le32(n)[0] == n % 0x100
  {
  }

  lemma PrefixOfStaged(n: nat, b: byte)
    requires n <= 8 * MIB
    ensures var s := Le32(n); FromLe32([s[1], s[2], s[3], b]) == n / 0x100 + 0x100_0000 * (b as int)
  {
    assert n / 0x1_0000 == n / 0x100 / 0x100;
    assert n / 0x100_0000 == 0;
  }

  /** The only length for which the shifted prefix could describe the remaining bytes. */
  lemma OnlySingleByteFits(n: nat, b: byte)
    requires 1 <= n <= 8 * MIB
    ensures n % 0x100 <= 1 && n / 0x100 + 0x100_0000 * (b as int) == n - 1 <==> n == 1 && b == 0
  {
    if b > 0 {
      assert 0x100_0000 * (b as int) >= 0x100_0000;
    }
  }
}
