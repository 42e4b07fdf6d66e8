/** Peg-out identifiers: a transaction hash and the position of the burn log in its receipt. */
module PegoutIds {
  import opened Options
  import opened Bytes

  datatype PegoutId = PegoutId(txid: Bytes32, idx: U32)

  /** Four bytes, most significant first. */
  function EncodeBE(n: U32): (b: Bytes4) {
    [n / 0x100_0000, n / 0x1_0000 % 0x100, n / 0x100 % 0x100, n % 0x100]
  }

  function DecodeBE(b: Bytes4): (n: U32) {
    (b[0] as int) * 0x100_0000 + (b[1] as int) * 0x1_0000 + (b[2] as int) * 0x100 + b[3] as int
  }

  function AsBytes(id: PegoutId): (b: Bytes)
    ensures |b| == 36
  {
    id.txid + EncodeBE(id.idx)
  }

  function FromBytes(b: Bytes): (r: Option<PegoutId>)
    ensures r.Some? <==> |b| == 36
  {
    if |b| == 36 then Some(PegoutId(b[..32], DecodeBE(b[32..36]))) else None
  }

  /** The 36-byte form is a bijection: both directions give back what went in. */
  lemma IdBytesRoundTrip(id: PegoutId, b: Bytes)
    ensures FromBytes(AsBytes(id)) == Some(id)
    ensures |b| == 36 ==> AsBytes(FromBytes(b).value) == b
  {
    assert AsBytes(id)[..32] == id.txid && AsBytes(id)[32..36] == EncodeBE(id.idx);
    BigEndianRoundTrip(id.idx);
    if |b| == 36 {
      BigEndianCanonical(b[32..36]);
      assert b == b[..32] + b[32..36];
    }
  }

  lemma BigEndianRoundTrip(n: U32)
    ensures DecodeBE(EncodeBE(n)) == n
  {
    assert n / 0x1_0000 == n / 0x100_0000 * 0x100 + n / 0x1_0000 % 0x100;
    assert n / 0x100 == n / 0x1_0000 * 0x100 + n / 0x100 % 0x100;
  }

  lemma BigEndianCanonical(b: Bytes4)
    ensures EncodeBE(DecodeBE(b)) == b
  {
    var n := DecodeBE(b);
    assert n / 0x100 == (b[0] as int) * 0x1_0000 + (b[1] as int) * 0x100 + b[2] as int;
    assert n / 0x1_0000 == (b[0] as int) * 0x100 + b[1] as int;
    assert n / 0x100_0000 == b[0];
  }

  /** Different ids have different byte forms. */
  lemma IdBytesInjective(a: PegoutId, b: PegoutId)
    requires AsBytes(a) == AsBytes(b)
    ensures a == b
  {
    IdBytesRoundTrip(a, []);
    IdBytesRoundTrip(b, []);
  }

  /** The first byte in which two strings differ decides. */
  predicate Before(a: Bytes, b: Bytes)
    requires |a| == |b|
  {
    a != [] && (a[0] < b[0] || (a[0] == b[0] && Before(a[1..], b[1..])))
  }

  /** The index is written most significant byte first: ids of one transaction sort by position as byte strings do. */
  lemma IndexSortsAsBytes(m: U32, n: U32)
    ensures Before(EncodeBE(m), EncodeBE(n)) <==> m < n
  {
    var a, b := EncodeBE(m), EncodeBE(n);
    BigEndianRoundTrip(m);
    BigEndianRoundTrip(n);
    assert a[1..][1..] == a[2..] && a[2..][1..] == a[3..] && a[3..][1..] == [];
    assert b[1..][1..] == b[2..] && b[2..][1..] == b[3..] && b[3..][1..] == [];
    assert Before(a[3..], b[3..]) <==> a[3] < b[3];
    assert Before(a[2..], b[2..]) <==> a[2] < b[2] || (a[2] == b[2] && a[3] < b[3]);
    assert Before(a[1..], b[1..]) <==> a[1] < b[1] || (a[1] == b[1] && Before(a[2..], b[2..]));
  }
}
