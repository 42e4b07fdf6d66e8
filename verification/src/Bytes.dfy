/** Byte strings, little-endian integers and Bitcoin's compact size, read with a moving cursor. */
module Bytes {
  type Byte = b: int | 0 <= b < 256
  type Bytes = seq<Byte>
  type Bytes4 = b: Bytes | |b| == 4 witness [0, 0, 0, 0]
  type Bytes12 = b: Bytes | |b| == 12 witness seq(12, _ => 0)
  type Bytes20 = b: Bytes | |b| == 20 witness seq(20, _ => 0)
  /** The address of an account. */
  type Account = Bytes20
  type Bytes32 = b: Bytes | |b| == 32 witness seq(32, _ => 0)
  type Bytes33 = b: Bytes | |b| == 33 witness seq(33, _ => 0)
  type U32 = n: int | 0 <= n < 0x1_0000_0000
  type U64 = n: int | 0 <= n < 0x1_0000_0000_0000_0000

  datatype DecodeError = InvalidFormat | InvalidPublicKey | TooManyBlockHeaders | InvalidLength | InvalidVersion

  /** The result of reading one value off the front of a byte string. */
  datatype Read<+T> = Fail(error: DecodeError) | Done(value: T, rest: Bytes) {
    predicate IsFailure() { Fail? }
    function PropagateFailure<U>(): Read<U> requires Fail? { Fail(error) }
    function Extract(): (T, Bytes) requires Done? { (value, rest) }
  }

  /** What is left after reading is the end of what was given. */
  ghost predicate IsSuffix(rest: Bytes, b: Bytes) {
    |rest| <= |b| && rest == b[|b| - |rest|..]
  }

  lemma SuffixOfSuffix(a: Bytes, b: Bytes, c: Bytes)
    requires IsSuffix(a, b) && IsSuffix(b, c)
    ensures IsSuffix(a, c)
  {
  }

  lemma Assoc(a: Bytes, b: Bytes, c: Bytes)
    ensures (a + b) + c == a + (b + c)
  {
  }

  function Pow256(k: nat): (p: nat)
    ensures p > 0
  {
    if k == 0 then 1 else 256 * Pow256(k - 1)
  }

  /** `n` as `k` bytes, least significant first. */
  function EncodeLE(n: nat, k: nat): (b: Bytes)
    ensures |b| == k
    decreases k
  {
    if k == 0 then [] else [n % 256] + EncodeLE(n / 256, k - 1)
  }

  function DecodeLE(b: Bytes): (n: nat)
    ensures n < Pow256(|b|)
  {
    if b == [] then 0 else b[0] + 256 * DecodeLE(b[1..])
  }

  lemma {:induction false} LittleEndianRoundTrip(n: nat, k: nat)
    requires n < Pow256(k)
    ensures DecodeLE(EncodeLE(n, k)) == n
    decreases k
  {
    if k > 0 {
      LittleEndianRoundTrip(n / 256, k - 1);
      assert EncodeLE(n, k)[1..] == EncodeLE(n / 256, k - 1);
    }
  }

  lemma {:induction false} LittleEndianCanonical(b: Bytes)
    ensures EncodeLE(DecodeLE(b), |b|) == b
  {
    if b != [] {
      LittleEndianCanonical(b[1..]);
      assert DecodeLE(b) % 256 == b[0] && DecodeLE(b) / 256 == DecodeLE(b[1..]);
      assert b == [b[0]] + b[1..];
    }
  }

  /** `n` moved up by `k` bytes. */
  function Shifted(n: nat, k: nat): (m: nat)
    decreases k
  {
    if k == 0 then n else 256 * Shifted(n, k - 1)
  }

  /** Later bytes weigh more. */
  lemma {:induction false} LaterBytesWeighMore(a: Bytes, b: Bytes)
    ensures DecodeLE(a + b) == DecodeLE(a) + Shifted(DecodeLE(b), |a|)
  {
    if a == [] {
      assert a + b == b;
    } else {
      assert (a + b)[1..] == a[1..] + b;
      LaterBytesWeighMore(a[1..], b);
    }
  }

  /** A field at an offset, and what follows it. */
  lemma FieldAt(b: Bytes, offset: nat, field: Bytes, rest: Bytes)
    requires offset <= |b| && b[offset..] == field + rest
    ensures offset + |field| <= |b| && b[offset..offset + |field|] == field && b[offset + |field|..] == rest
  {
    assert b[offset..offset + |field|] == b[offset..][..|field|];
    assert b[offset + |field|..] == b[offset..][|field|..];
  }

  lemma Widths()
    ensures Pow256(1) == 0x100 && Pow256(2) == 0x1_0000 && Pow256(4) == 0x1_0000_0000
    ensures Pow256(8) == 0x1_0000_0000_0000_0000
  {
    assert Pow256(2) == 256 * Pow256(1);
    assert Pow256(3) == 256 * Pow256(2);
    assert Pow256(4) == 256 * Pow256(3);
    assert Pow256(5) == 256 * Pow256(4);
    assert Pow256(6) == 256 * Pow256(5);
    assert Pow256(7) == 256 * Pow256(6);
    assert Pow256(8) == 256 * Pow256(7);
  }

  /** `read_slice` into a buffer of `n` bytes. */
  function Take(b: Bytes, n: nat): (r: Read<Bytes>)
    ensures r.Done? <==> n <= |b|
    ensures r.Done? ==> |r.value| == n && b == r.value + r.rest
  {
    if |b| < n then Fail(InvalidFormat) else Done(b[..n], b[n..])
  }

  lemma TakeFront(a: Bytes, rest: Bytes)
    ensures Take(a + rest, |a|) == Done(a, rest)
  {
    assert (a + rest)[..|a|] == a && (a + rest)[|a|..] == rest;
  }

  lemma TakeSuffix(b: Bytes, n: nat)
    requires n <= |b|
    ensures IsSuffix(Take(b, n).rest, b)
  {
  }

  function EncodeU32(n: U32): (b: Bytes4) {
    EncodeLE(n, 4)
  }

  function DecodeU32(b: Bytes): (r: Read<U32>)
    ensures r.Done? ==> |b| == |r.rest| + 4
  {
    Widths();
    var (s, rest) :- Take(b, 4);
    Done(DecodeLE(s), rest)
  }

  lemma U32RoundTrip(n: U32, rest: Bytes)
    ensures DecodeU32(EncodeU32(n) + rest) == Done(n, rest)
  {
    Widths();
    TakeFront(EncodeU32(n), rest);
    LittleEndianRoundTrip(n, 4);
  }

  lemma U32Canonical(b: Bytes)
    requires DecodeU32(b).Done?
    ensures b == EncodeU32(DecodeU32(b).value) + DecodeU32(b).rest
  {
    LittleEndianCanonical(b[..4]);
  }

  /** Bitcoin's variable-length integer. */
  function EncodeVarInt(n: U64): (b: Bytes)
    ensures b != []
  {
    if n < 0xFD then [n]
    else if n <= 0xFFFF then [0xFD] + EncodeLE(n, 2)
    else if n <= 0xFFFF_FFFF then [0xFE] + EncodeLE(n, 4)
    else [0xFF] + EncodeLE(n, 8)
  }

  /** Encodings longer than necessary are refused. */
  function DecodeVarInt(b: Bytes): (r: Read<U64>)
    ensures r.Done? ==> |r.rest| < |b|
  {
    Widths();
    var (tag, rest) :- Take(b, 1);
    if tag[0] == 0xFF then LongVarInt(rest, 8, 0x1_0000_0000)
    else if tag[0] == 0xFE then LongVarInt(rest, 4, 0x1_0000)
    else if tag[0] == 0xFD then LongVarInt(rest, 2, 0xFD)
    else Done(tag[0], rest)
  }

  function LongVarInt(b: Bytes, width: nat, least: nat): (r: Read<U64>)
    requires width in {2, 4, 8}
    ensures r.Done? ==> |r.rest| <= |b|
  {
    Widths();
    var (s, rest) :- Take(b, width);
    if DecodeLE(s) < least then Fail(InvalidFormat) else Done(DecodeLE(s), rest)
  }

  lemma LongVarIntRoundTrip(n: U64, width: nat, least: nat, rest: Bytes)
    requires width in {2, 4, 8} && least <= n < Pow256(width)
    ensures LongVarInt(EncodeLE(n, width) + rest, width, least) == Done(n, rest)
  {
    TakeFront(EncodeLE(n, width), rest);
    LittleEndianRoundTrip(n, width);
  }

  /** A tag and a number of its width. */
  lemma TaggedRoundTrip(tag: Byte, n: U64, width: nat, least: nat, rest: Bytes)
    requires (tag, width, least) in {(0xFD, 2, 0xFD), (0xFE, 4, 0x1_0000), (0xFF, 8, 0x1_0000_0000)}
    requires least <= n < Pow256(width)
    ensures DecodeVarInt(([tag] + EncodeLE(n, width)) + rest) == Done(n, rest)
  {
    Assoc([tag], EncodeLE(n, width), rest);
    TakeFront([tag], EncodeLE(n, width) + rest);
    LongVarIntRoundTrip(n, width, least, rest);
  }

  lemma VarIntRoundTrip(n: U64, rest: Bytes)
    ensures DecodeVarInt(EncodeVarInt(n) + rest) == Done(n, rest)
  {
    Widths();
    if n < 0xFD {
      TakeFront([n], rest);
    } else if n <= 0xFFFF {
      TaggedRoundTrip(0xFD, n, 2, 0xFD, rest);
    } else if n <= 0xFFFF_FFFF {
      TaggedRoundTrip(0xFE, n, 4, 0x1_0000, rest);
    } else {
      TaggedRoundTrip(0xFF, n, 8, 0x1_0000_0000, rest);
    }
  }

  lemma LongVarIntCanonical(b: Bytes, width: nat, least: nat)
    requires width in {2, 4, 8} && LongVarInt(b, width, least).Done?
    ensures b == EncodeLE(LongVarInt(b, width, least).value, width) + LongVarInt(b, width, least).rest
    ensures least <= LongVarInt(b, width, least).value < Pow256(width)
  {
    LittleEndianCanonical(b[..width]);
  }

  lemma VarIntCanonical(b: Bytes)
    requires DecodeVarInt(b).Done?
    ensures b == EncodeVarInt(DecodeVarInt(b).value) + DecodeVarInt(b).rest
  {
    Widths();
    var n, rest := DecodeVarInt(b).value, DecodeVarInt(b).rest;
    assert b == [b[0]] + b[1..];
    if b[0] == 0xFF {
      LongVarIntCanonical(b[1..], 8, 0x1_0000_0000);
    } else if b[0] == 0xFE {
      LongVarIntCanonical(b[1..], 4, 0x1_0000);
    } else if b[0] == 0xFD {
      LongVarIntCanonical(b[1..], 2, 0xFD);
    }
  }

  lemma VarIntSuffix(b: Bytes)
    requires DecodeVarInt(b).Done?
    ensures IsSuffix(DecodeVarInt(b).rest, b)
  {
  }
}
