/** The binary format of peg-in proofs and the loop that splits a concatenation of proofs. */
module ProofCodec {
  import opened Bytes

  const MAX_BITCOIN_BLOCK_HEADERS: nat := 2016
  const BITCOIN_HEADER_SIZE: nat := 80

  /** A Bitcoin block header; `tail` is time, bits and nonce. */
  datatype Header = Header(version: Bytes4, prev: Bytes32, merkleRoot: Bytes32, tail: Bytes12)

  datatype Outpoint = Outpoint(txid: Bytes32, vout: U32)

  type Script = Bytes
  datatype TxOut = TxOut(value: U64, script: Script)

  /** A Bitcoin transaction; `body` stands for what the peg does not look at. */
  datatype Transaction = Transaction(outputs: seq<TxOut>, coinbase: bool, body: nat)

  /** A partial Merkle tree, left uninterpreted here. */
  datatype MerkleProof = MerkleProof(content: nat)

  datatype Proof = Proof(
    version: U32, outpoint: Outpoint, address: Bytes20, publicKey: Bytes33,
    headers: seq<Header>, merkleProof: MerkleProof, tx: Transaction)

  datatype Meta = V0(proof: Proof) | V1(proof: Proof, refBlockHash: Bytes32)

  /** The library formats a proof embeds. A `MerkleProof` is a tree in its decoded form, with its flag bits padded to
      whole bytes, so that encoding and decoding are inverse on it. */
  datatype Formats = Formats(
    validKey: Bytes33 -> bool,
    encodeMerkle: MerkleProof -> Bytes, decodeMerkle: Bytes -> Read<MerkleProof>,
    encodeTx: Transaction -> Bytes, decodeTx: Bytes -> Read<Transaction>)
  {
    /** A decoder reads from the front and leaves the rest. */
    ghost predicate Forward() {
      && (forall b :: decodeMerkle(b).Done? ==> IsSuffix(decodeMerkle(b).rest, b))
      && (forall b :: decodeTx(b).Done? ==> IsSuffix(decodeTx(b).rest, b))
    }

    ghost predicate RoundTrips() {
      && (forall m, rest :: decodeMerkle(encodeMerkle(m) + rest) == Done(m, rest))
      && (forall t, rest :: decodeTx(encodeTx(t) + rest) == Done(t, rest))
    }

    /** Only the encoder's own output is accepted. */
    ghost predicate Canonical() {
      && (forall b :: decodeMerkle(b).Done? ==> b == encodeMerkle(decodeMerkle(b).value) + decodeMerkle(b).rest)
      && (forall b :: decodeTx(b).Done? ==> b == encodeTx(decodeTx(b).value) + decodeTx(b).rest)
    }
  }

  // ---------- headers ----------

  function EncodeHeader(h: Header): (b: Bytes)
    ensures |b| == BITCOIN_HEADER_SIZE
  {
    h.version + (h.prev + (h.merkleRoot + h.tail))
  }

  function DecodeHeader(b: Bytes): (r: Read<Header>)
    ensures r.Done? <==> |b| >= BITCOIN_HEADER_SIZE
    ensures r.Done? ==> |b| == |r.rest| + BITCOIN_HEADER_SIZE
  {
    var (version, b1) :- Take(b, 4);
    var (prev, b2) :- Take(b1, 32);
    var (root, b3) :- Take(b2, 32);
    var (tail, rest) :- Take(b3, 12);
    Done(Header(version, prev, root, tail), rest)
  }

  lemma HeaderRoundTrip(h: Header, rest: Bytes)
    ensures DecodeHeader(EncodeHeader(h) + rest) == Done(h, rest)
  {
    var b3 := h.tail + rest;
    var b2 := h.merkleRoot + b3;
    var b1 := h.prev + b2;
    assert EncodeHeader(h) + rest == h.version + b1;
    TakeFront(h.version, b1);
    TakeFront(h.prev, b2);
    TakeFront(h.merkleRoot, b3);
    TakeFront(h.tail, rest);
  }

  lemma HeaderCanonical(b: Bytes)
    requires DecodeHeader(b).Done?
    ensures b == EncodeHeader(DecodeHeader(b).value) + DecodeHeader(b).rest
  {
  }

  function EncodeHeaders(hs: seq<Header>): (b: Bytes)
    ensures |b| == BITCOIN_HEADER_SIZE * |hs|
  {
    if hs == [] then [] else EncodeHeader(hs[0]) + EncodeHeaders(hs[1..])
  }

  function DecodeHeaders(b: Bytes, count: nat): (r: Read<seq<Header>>)
    ensures r.Done? ==> |r.rest| <= |b| && |r.value| == count
    decreases count
  {
    if count == 0 then Done([], b)
    else
      var (h, b1) :- DecodeHeader(b);
      var (hs, rest) :- DecodeHeaders(b1, count - 1);
      Done([h] + hs, rest)
  }

  lemma {:induction false} HeadersRoundTrip(hs: seq<Header>, rest: Bytes)
    ensures DecodeHeaders(EncodeHeaders(hs) + rest, |hs|) == Done(hs, rest)
  {
    if hs != [] {
      var tail := EncodeHeaders(hs[1..]) + rest;
      assert EncodeHeaders(hs) + rest == EncodeHeader(hs[0]) + tail;
      HeaderRoundTrip(hs[0], tail);
      HeadersRoundTrip(hs[1..], rest);
      assert [hs[0]] + hs[1..] == hs;
    } else {
      assert EncodeHeaders(hs) + rest == rest;
    }
  }

  lemma {:induction false} HeadersCanonical(b: Bytes, count: nat)
    requires DecodeHeaders(b, count).Done?
    ensures b == EncodeHeaders(DecodeHeaders(b, count).value) + DecodeHeaders(b, count).rest
    decreases count
  {
    if count > 0 {
      HeaderCanonical(b);
      var h, b1 := DecodeHeader(b).value, DecodeHeader(b).rest;
      HeadersCanonical(b1, count - 1);
      var hs := DecodeHeaders(b, count).value;
      assert hs[0] == h && hs[1..] == DecodeHeaders(b1, count - 1).value;
    }
  }

  /** The header loop of the deserializer, moving a cursor over the bytes. */
  method ReadHeaders(bytes: Bytes, count: nat) returns (r: Read<seq<Header>>)
    ensures r == DecodeHeaders(bytes, count)
  {
    var cursor, headers: seq<Header> := bytes, [];
    assert forall hs: seq<Header> :: [] + hs == hs;
    var i := 0;
    while i < count
      invariant i <= count
      invariant DecodeHeaders(bytes, count) ==
                match DecodeHeaders(cursor, count - i)
                case Fail(e) => Fail(e)
                case Done(hs, rest) => Done(headers + hs, rest)
    {
      var h := DecodeHeader(cursor);
      if h.Fail? { return Fail(h.error); }
      ghost var before := headers;
      headers := headers + [h.value];
      assert forall hs: seq<Header> :: before + ([h.value] + hs) == headers + hs;
      cursor := h.rest;
      i := i + 1;
    }
    assert headers + [] == headers;
    r := Done(headers, cursor);
  }

  // ---------- proofs ----------

  function EncodeFixed(p: Proof): (b: Bytes) {
    EncodeU32(p.version) + (p.outpoint.txid + (EncodeU32(p.outpoint.vout) + (p.address + p.publicKey)))
  }

  function EncodeProof(f: Formats, p: Proof): (b: Bytes)
    requires |p.headers| <= MAX_BITCOIN_BLOCK_HEADERS
  {
    EncodeFixed(p) + (EncodeVarInt(|p.headers|)
                      + (EncodeHeaders(p.headers) + (f.encodeMerkle(p.merkleProof) + f.encodeTx(p.tx))))
  }

  /** Where the fields of a header stand. */
  lemma HeaderLayout(h: Header)
    ensures var b := EncodeHeader(h);
            b[..4] == h.version && b[4..36] == h.prev && b[36..68] == h.merkleRoot && b[68..80] == h.tail
  {
  }

  /** Where the fixed fields of a proof stand. */
  lemma ProofLayout(f: Formats, p: Proof)
    requires |p.headers| <= MAX_BITCOIN_BLOCK_HEADERS
    ensures var b := EncodeProof(f, p);
            && |b| >= 93 && b[..4] == EncodeU32(p.version) && b[4..36] == p.outpoint.txid
            && b[36..40] == EncodeU32(p.outpoint.vout) && b[40..60] == p.address && b[60..93] == p.publicKey
  {
    FixedLayout(p);
    assert EncodeProof(f, p)[..93] == EncodeFixed(p);
  }

  lemma FixedLayout(p: Proof)
    ensures var b := EncodeFixed(p);
            && |b| == 93 && b[..4] == EncodeU32(p.version) && b[4..36] == p.outpoint.txid
            && b[36..40] == EncodeU32(p.outpoint.vout) && b[40..60] == p.address && b[60..93] == p.publicKey
  {
    var b, vout := EncodeFixed(p), EncodeU32(p.outpoint.vout);
    var tail := p.address + p.publicKey;
    assert b[0..] == b;
    FieldAt(b, 0, EncodeU32(p.version), p.outpoint.txid + (vout + tail));
    FieldAt(b, 4, p.outpoint.txid, vout + tail);
    FieldAt(b, 36, vout, tail);
    FieldAt(b, 40, p.address, p.publicKey);
    assert b[60..93] == b[60..];
  }

  lemma {:induction false} EncodeHeadersAppend(hs: seq<Header>, h: Header)
    ensures EncodeHeaders(hs + [h]) == EncodeHeaders(hs) + EncodeHeader(h)
  {
    if hs == [] {
      assert [h][1..] == [];
    } else {
      assert (hs + [h])[1..] == hs[1..] + [h];
      EncodeHeadersAppend(hs[1..], h);
    }
  }

  method AppendHeaders(buffer: Bytes, hs: seq<Header>) returns (bytes: Bytes)
    ensures bytes == buffer + EncodeHeaders(hs)
  {
    bytes := buffer;
    for i := 0 to |hs|
      invariant bytes == buffer + EncodeHeaders(hs[..i])
    {
      EncodeHeadersAppend(hs[..i], hs[i]);
      assert hs[..i + 1] == hs[..i] + [hs[i]];
      Assoc(buffer, EncodeHeaders(hs[..i]), EncodeHeader(hs[i]));
      bytes := bytes + EncodeHeader(hs[i]);
    }
    assert hs[..|hs|] == hs;
  }

  method AppendFixed(p: Proof) returns (bytes: Bytes)
    ensures bytes == EncodeFixed(p)
  {
    bytes := EncodeU32(p.version);
    bytes := bytes + p.outpoint.txid;
    bytes := bytes + EncodeU32(p.outpoint.vout);
    bytes := bytes + p.address;
    bytes := bytes + p.publicKey;
  }

  /** `PeginMetaV0::serialize`, appending field after field to one buffer. */
  method SerializeProof(f: Formats, p: Proof) returns (bytes: Bytes)
    requires |p.headers| <= MAX_BITCOIN_BLOCK_HEADERS
    ensures bytes == EncodeProof(f, p)
  {
    var count := EncodeVarInt(|p.headers|);
    ghost var headers := EncodeHeaders(p.headers);
    var merkle, tx := f.encodeMerkle(p.merkleProof), f.encodeTx(p.tx);
    bytes := AppendFixed(p);
    bytes := bytes + count;
    bytes := AppendHeaders(bytes, p.headers);
    bytes := bytes + merkle;
    bytes := bytes + tx;
    Assoc(EncodeFixed(p) + count + headers, merkle, tx);
    Assoc(EncodeFixed(p) + count, headers, merkle + tx);
    Assoc(EncodeFixed(p), count, headers + (merkle + tx));
  }

  /** The fields before the headers. */
  function DecodeFixed(f: Formats, b: Bytes): (r: Read<(U32, Outpoint, Bytes20, Bytes33)>)
    ensures r.Done? ==> |r.rest| + 93 == |b|
  {
    var (version, b1) :- DecodeU32(b);
    var (txid, b2) :- Take(b1, 32);
    var (vout, b3) :- DecodeU32(b2);
    var (address, b4) :- Take(b3, 20);
    var (key, b5) :- Take(b4, 33);
    if !f.validKey(key) then Fail(InvalidPublicKey)
    else Done((version, Outpoint(txid, vout), address, key), b5)
  }

  /** The header list, with its two length guards. */
  function DecodeHeaderList(b: Bytes): (r: Read<seq<Header>>)
    ensures r.Done? ==> |r.rest| <= |b| && |r.value| <= MAX_BITCOIN_BLOCK_HEADERS
  {
    var (len, b1) :- DecodeVarInt(b);
    if len > MAX_BITCOIN_BLOCK_HEADERS then Fail(TooManyBlockHeaders)
    else if len > |b1| / BITCOIN_HEADER_SIZE then Fail(InvalidLength)
    else DecodeHeaders(b1, len)
  }

  function DecodeProof(f: Formats, b: Bytes): (r: Read<Proof>)
    requires f.Forward()
    ensures r.Done? ==> |r.rest| < |b| && |r.value.headers| <= MAX_BITCOIN_BLOCK_HEADERS
  {
    var (fixed, b1) :- DecodeFixed(f, b);
    var (headers, b2) :- DecodeHeaderList(b1);
    var (merkle, b3) :- f.decodeMerkle(b2);
    var (tx, rest) :- f.decodeTx(b3);
    Done(Proof(fixed.0, fixed.1, fixed.2, fixed.3, headers, merkle, tx), rest)
  }

  method DeserializeHeaderList(bytes: Bytes) returns (r: Read<seq<Header>>)
    ensures r == DecodeHeaderList(bytes)
  {
    var len := DecodeVarInt(bytes);
    if len.Fail? { return Fail(len.error); }
    if len.value > MAX_BITCOIN_BLOCK_HEADERS { return Fail(TooManyBlockHeaders); }
    if len.value > |len.rest| / BITCOIN_HEADER_SIZE { return Fail(InvalidLength); }
    r := ReadHeaders(len.rest, len.value);
  }

  /** `PeginMetaV0::deserialize`, reading field after field from one cursor. */
  method DeserializeProof(f: Formats, bytes: Bytes) returns (r: Read<Proof>)
    requires f.Forward()
    ensures r == DecodeProof(f, bytes)
  {
    var fixed := DecodeFixed(f, bytes);
    if fixed.Fail? { return Fail(fixed.error); }
    var headers := DeserializeHeaderList(fixed.rest);
    if headers.Fail? { return Fail(headers.error); }
    var merkle := f.decodeMerkle(headers.rest);
    if merkle.Fail? { return Fail(merkle.error); }
    var tx := f.decodeTx(merkle.rest);
    if tx.Fail? { return Fail(tx.error); }
    var (version, outpoint, address, key) := fixed.value;
    r := Done(Proof(version, outpoint, address, key, headers.value, merkle.value, tx.value), tx.rest);
  }

  lemma EncodeFixedThen(p: Proof, rest: Bytes)
    ensures EncodeFixed(p) + rest
         == EncodeU32(p.version) + (p.outpoint.txid + (EncodeU32(p.outpoint.vout) + (p.address + (p.publicKey + rest))))
  {
    var t1 := p.address + p.publicKey;
    var t2 := EncodeU32(p.outpoint.vout) + t1;
    var t3 := p.outpoint.txid + t2;
    Assoc(p.address, p.publicKey, rest);
    Assoc(EncodeU32(p.outpoint.vout), t1, rest);
    Assoc(p.outpoint.txid, t2, rest);
    Assoc(EncodeU32(p.version), t3, rest);
  }

  lemma FixedRoundTrip(f: Formats, p: Proof, rest: Bytes)
    requires f.validKey(p.publicKey)
    ensures DecodeFixed(f, EncodeFixed(p) + rest) == Done((p.version, p.outpoint, p.address, p.publicKey), rest)
  {
    var b4 := p.publicKey + rest;
    var b3 := p.address + b4;
    var b2 := EncodeU32(p.outpoint.vout) + b3;
    var b1 := p.outpoint.txid + b2;
    EncodeFixedThen(p, rest);
    U32RoundTrip(p.version, b1);
    TakeFront(p.outpoint.txid, b2);
    U32RoundTrip(p.outpoint.vout, b3);
    TakeFront(p.address, b4);
    TakeFront(p.publicKey, rest);
  }

  lemma FixedCanonical(f: Formats, b: Bytes)
    requires DecodeFixed(f, b).Done?
    ensures var (v, o, a, k) := DecodeFixed(f, b).value;
            f.validKey(k) &&
            b == EncodeU32(v) + (o.txid + (EncodeU32(o.vout) + (a + k))) + DecodeFixed(f, b).rest
  {
    U32Canonical(b);
    U32Canonical(DecodeU32(b).rest[32..]);
  }

  /** The remaining-bytes guard never rejects an honest header list. */
  lemma HeaderListRoundTrip(hs: seq<Header>, rest: Bytes)
    requires |hs| <= MAX_BITCOIN_BLOCK_HEADERS
    ensures DecodeHeaderList(EncodeVarInt(|hs|) + (EncodeHeaders(hs) + rest)) == Done(hs, rest)
  {
    VarIntRoundTrip(|hs|, EncodeHeaders(hs) + rest);
    HeadersRoundTrip(hs, rest);
    assert |EncodeHeaders(hs) + rest| / BITCOIN_HEADER_SIZE >= |hs|;
  }

  lemma HeaderListCanonical(b: Bytes)
    requires DecodeHeaderList(b).Done?
    ensures var hs := DecodeHeaderList(b).value;
            b == EncodeVarInt(|hs|) + (EncodeHeaders(hs) + DecodeHeaderList(b).rest)
  {
    VarIntCanonical(b);
    HeadersCanonical(DecodeVarInt(b).rest, DecodeVarInt(b).value);
  }

  /** Decoding `encode(p) ++ rest` gives back `p` and leaves exactly `rest`. */
  lemma ProofRoundTrip(f: Formats, p: Proof, rest: Bytes)
    requires f.Forward() && f.RoundTrips() && f.validKey(p.publicKey)
    requires |p.headers| <= MAX_BITCOIN_BLOCK_HEADERS
    ensures DecodeProof(f, EncodeProof(f, p) + rest) == Done(p, rest)
  {
    var b2 := f.encodeMerkle(p.merkleProof) + (f.encodeTx(p.tx) + rest);
    var b1 := EncodeVarInt(|p.headers|) + (EncodeHeaders(p.headers) + b2);
    EncodeProofThen(f, p, rest);
    FixedRoundTrip(f, p, b1);
    HeaderListRoundTrip(p.headers, b2);
  }

  lemma EncodeProofThen(f: Formats, p: Proof, rest: Bytes)
    requires |p.headers| <= MAX_BITCOIN_BLOCK_HEADERS
    ensures EncodeProof(f, p) + rest
         == EncodeFixed(p) + (EncodeVarInt(|p.headers|) + (EncodeHeaders(p.headers)
                              + (f.encodeMerkle(p.merkleProof) + (f.encodeTx(p.tx) + rest))))
  {
    var t1 := f.encodeMerkle(p.merkleProof) + f.encodeTx(p.tx);
    var t2 := EncodeHeaders(p.headers) + t1;
    var t3 := EncodeVarInt(|p.headers|) + t2;
    Assoc(f.encodeMerkle(p.merkleProof), f.encodeTx(p.tx), rest);
    Assoc(EncodeHeaders(p.headers), t1, rest);
    Assoc(EncodeVarInt(|p.headers|), t2, rest);
    Assoc(EncodeFixed(p), t3, rest);
  }

  /** Whatever decodes is the encoding of what it decodes to. */
  lemma ProofCanonical(f: Formats, b: Bytes)
    requires f.Forward() && f.Canonical() && DecodeProof(f, b).Done?
    ensures b == EncodeProof(f, DecodeProof(f, b).value) + DecodeProof(f, b).rest
  {
    var p, rest := DecodeProof(f, b).value, DecodeProof(f, b).rest;
    var b1 := DecodeFixed(f, b).rest;
    FixedCanonical(f, b);
    HeaderListCanonical(b1);
    EncodeProofThen(f, p, rest);
  }

  // ---------- versioned proofs ----------

  /** The variant agrees with the version field, so that decoding picks the same variant. */
  predicate WellTagged(f: Formats, m: Meta) {
    && f.validKey(m.proof.publicKey)
    && |m.proof.headers| <= MAX_BITCOIN_BLOCK_HEADERS
    && m.proof.version == (if m.V0? then 0 else 1)
  }

  function EncodeMeta(f: Formats, m: Meta): (b: Bytes)
    requires |m.proof.headers| <= MAX_BITCOIN_BLOCK_HEADERS
  {
    match m
    case V0(p) => EncodeProof(f, p)
    case V1(p, h) => EncodeProof(f, p) + h
  }

  function DecodeMeta(f: Formats, b: Bytes): (r: Read<Meta>)
    requires f.Forward()
    ensures r.Done? ==> |r.rest| < |b| && |r.value.proof.headers| <= MAX_BITCOIN_BLOCK_HEADERS
  {
    var (version, _) :- DecodeU32(b);
    if version == 0 then
      var (p, rest) :- DecodeProof(f, b);
      Done(V0(p), rest)
    else if version == 1 then
      var (p, b1) :- DecodeProof(f, b);
      var (h, rest) :- Take(b1, 32);
      Done(V1(p, h), rest)
    else Fail(InvalidVersion)
  }

  /** `PeginMeta::deserialize`: looks at the version, then decodes from the start. */
  method DeserializeMeta(f: Formats, bytes: Bytes) returns (r: Read<Meta>)
    requires f.Forward()
    ensures r == DecodeMeta(f, bytes)
  {
    var version := DecodeU32(bytes);
    if version.Fail? { return Fail(version.error); }
    if version.value > 1 { return Fail(InvalidVersion); }
    var proof := DeserializeProof(f, bytes);
    if proof.Fail? { return Fail(proof.error); }
    if version.value == 0 { return Done(V0(proof.value), proof.rest); }
    var hash := Take(proof.rest, 32);
    if hash.Fail? { return Fail(hash.error); }
    r := Done(V1(proof.value, hash.value), hash.rest);
  }

  lemma ProofStartsWithVersion(f: Formats, p: Proof, rest: Bytes)
    requires |p.headers| <= MAX_BITCOIN_BLOCK_HEADERS
    ensures DecodeU32(EncodeProof(f, p) + rest).Done? && DecodeU32(EncodeProof(f, p) + rest).value == p.version
  {
    EncodeProofThen(f, p, rest);
    var tail := EncodeVarInt(|p.headers|) + (EncodeHeaders(p.headers)
                + (f.encodeMerkle(p.merkleProof) + (f.encodeTx(p.tx) + rest)));
    var fixed := p.outpoint.txid + (EncodeU32(p.outpoint.vout) + (p.address + p.publicKey));
    Assoc(EncodeU32(p.version), fixed, tail);
    U32RoundTrip(p.version, fixed + tail);
  }

  lemma MetaRoundTrip(f: Formats, m: Meta, rest: Bytes)
    requires f.Forward() && f.RoundTrips() && WellTagged(f, m)
    ensures DecodeMeta(f, EncodeMeta(f, m) + rest) == Done(m, rest)
  {
    var tail := if m.V0? then rest else m.refBlockHash + rest;
    if m.V1? {
      Assoc(EncodeProof(f, m.proof), m.refBlockHash, rest);
      TakeFront(m.refBlockHash, rest);
    }
    ProofRoundTrip(f, m.proof, tail);
    ProofStartsWithVersion(f, m.proof, tail);
  }

  lemma DecodedVersion(f: Formats, b: Bytes)
    requires f.Forward() && DecodeProof(f, b).Done?
    ensures DecodeU32(b).Done? && DecodeU32(b).value == DecodeProof(f, b).value.version
    ensures f.validKey(DecodeProof(f, b).value.publicKey)
  {
  }

  /** Decoding only yields proofs whose variant agrees with their version, and only from their own encoding. */
  lemma MetaCanonical(f: Formats, b: Bytes)
    requires f.Forward() && f.Canonical() && DecodeMeta(f, b).Done?
    ensures WellTagged(f, DecodeMeta(f, b).value)
    ensures b == EncodeMeta(f, DecodeMeta(f, b).value) + DecodeMeta(f, b).rest
  {
    DecodedVersion(f, b);
    ProofCanonical(f, b);
    var m, rest := DecodeMeta(f, b).value, DecodeMeta(f, b).rest;
    if m.V1? {
      Assoc(EncodeProof(f, m.proof), m.refBlockHash, rest);
    }
  }

  // ---------- decoding leaves a suffix ----------

  lemma {:induction false} HeadersSuffix(b: Bytes, count: nat)
    requires DecodeHeaders(b, count).Done?
    ensures IsSuffix(DecodeHeaders(b, count).rest, b)
    decreases count
  {
    if count > 0 {
      HeaderCanonical(b);
      var b1 := DecodeHeader(b).rest;
      assert IsSuffix(b1, b);
      HeadersSuffix(b1, count - 1);
      SuffixOfSuffix(DecodeHeaders(b, count).rest, b1, b);
    }
  }

  lemma HeaderListSuffix(b: Bytes)
    requires DecodeHeaderList(b).Done?
    ensures IsSuffix(DecodeHeaderList(b).rest, b)
  {
    VarIntSuffix(b);
    var b1 := DecodeVarInt(b).rest;
    HeadersSuffix(b1, DecodeVarInt(b).value);
    SuffixOfSuffix(DecodeHeaderList(b).rest, b1, b);
  }

  lemma FixedSuffix(f: Formats, b: Bytes)
    requires DecodeFixed(f, b).Done?
    ensures IsSuffix(DecodeFixed(f, b).rest, b)
  {
    FixedCanonical(f, b);
  }

  lemma ProofSuffix(f: Formats, b: Bytes)
    requires f.Forward() && DecodeProof(f, b).Done?
    ensures IsSuffix(DecodeProof(f, b).rest, b)
  {
    FixedSuffix(f, b);
    var b1 := DecodeFixed(f, b).rest;
    HeaderListSuffix(b1);
    var b2 := DecodeHeaderList(b1).rest;
    var b3 := f.decodeMerkle(b2).rest;
    SuffixOfSuffix(b2, b1, b);
    SuffixOfSuffix(b3, b2, b);
    SuffixOfSuffix(DecodeProof(f, b).rest, b3, b);
  }

  lemma MetaSuffix(f: Formats, b: Bytes)
    requires f.Forward() && DecodeMeta(f, b).Done?
    ensures IsSuffix(DecodeMeta(f, b).rest, b)
  {
    ProofSuffix(f, b);
    if DecodeMeta(f, b).value.V1? {
      var b1 := DecodeProof(f, b).rest;
      TakeSuffix(b1, 32);
      SuffixOfSuffix(DecodeMeta(f, b).rest, b1, b);
    }
  }

  // ---------- splitting a concatenation ----------

  datatype ParseResult = Parsed(proofs: seq<Meta>) | BadProof(error: DecodeError) | DuplicateOutpoints

  function ParseProofs(f: Formats, b: Bytes, seen: set<Outpoint>, done: seq<Meta>): (r: ParseResult)
    requires f.Forward()
    decreases |b|
  {
    if b == [] then Parsed(done)
    else match DecodeMeta(f, b)
      case Fail(e) => BadProof(e)
      case Done(m, rest) =>
        if m.proof.outpoint in seen then DuplicateOutpoints
        else ParseProofs(f, rest, seen + {m.proof.outpoint}, done + [m])
  }

  function Parse(f: Formats, b: Bytes): (r: ParseResult)
    requires f.Forward()
  {
    ParseProofs(f, b, {}, [])
  }

  lemma RestAtOffset(f: Formats, b: Bytes, offset: nat)
    requires f.Forward() && offset < |b| && DecodeMeta(f, b[offset..]).Done?
    ensures var rest := DecodeMeta(f, b[offset..]).rest;
            |rest| < |b| - offset && rest == b[|b| - |rest|..]
  {
    MetaSuffix(f, b[offset..]);
  }

  /** The `while offset < meta_bytes.len()` loop of `try_parse_mint_event`. */
  method ParseMetadata(f: Formats, metaBytes: Bytes) returns (r: ParseResult)
    requires f.Forward()
    ensures r == Parse(f, metaBytes)
  {
    var outpoints: set<Outpoint>, proofs: seq<Meta>, offset := {}, [], 0;
    assert metaBytes[0..] == metaBytes;
    while offset < |metaBytes|
      invariant 0 <= offset <= |metaBytes|
      invariant ParseProofs(f, metaBytes[offset..], outpoints, proofs) == Parse(f, metaBytes)
      decreases |metaBytes| - offset
    {
      var d := DeserializeMeta(f, metaBytes[offset..]);
      if d.Fail? { return BadProof(d.error); }
      if d.value.proof.outpoint in outpoints { return DuplicateOutpoints; }
      outpoints := outpoints + {d.value.proof.outpoint};
      proofs := proofs + [d.value];
      var size := |metaBytes[offset..]| - |d.rest|;
      RestAtOffset(f, metaBytes, offset);
      offset := offset + size;
    }
    r := Parsed(proofs);
  }

  ghost predicate DistinctOutpoints(ms: seq<Meta>) {
    forall i, j :: 0 <= i < j < |ms| ==> ms[i].proof.outpoint != ms[j].proof.outpoint
  }

  function EncodeAll(f: Formats, ms: seq<Meta>): (b: Bytes)
    requires forall i :: 0 <= i < |ms| ==> |ms[i].proof.headers| <= MAX_BITCOIN_BLOCK_HEADERS
  {
    if ms == [] then [] else EncodeMeta(f, ms[0]) + EncodeAll(f, ms[1..])
  }

  ghost predicate AllWellTagged(f: Formats, ms: seq<Meta>) {
    forall i :: 0 <= i < |ms| ==> WellTagged(f, ms[i])
  }

  /** Distinct from each other and from what was seen before. */
  ghost predicate Fresh(ms: seq<Meta>, seen: set<Outpoint>) {
    DistinctOutpoints(ms) && forall i :: 0 <= i < |ms| ==> ms[i].proof.outpoint !in seen
  }

  lemma ParseHead(f: Formats, ms: seq<Meta>, seen: set<Outpoint>, done: seq<Meta>)
    requires f.Forward() && f.RoundTrips() && AllWellTagged(f, ms) && ms != []
    ensures ParseProofs(f, EncodeAll(f, ms), seen, done)
         == if ms[0].proof.outpoint in seen then DuplicateOutpoints
            else ParseProofs(f, EncodeAll(f, ms[1..]), seen + {ms[0].proof.outpoint}, done + [ms[0]])
  {
    MetaRoundTrip(f, ms[0], EncodeAll(f, ms[1..]));
  }

  /** The parse loop on proofs instead of bytes. */
  function Collect(ms: seq<Meta>, seen: set<Outpoint>, done: seq<Meta>): (r: ParseResult)
    decreases |ms|
  {
    if ms == [] then Parsed(done)
    else if ms[0].proof.outpoint in seen then DuplicateOutpoints
    else Collect(ms[1..], seen + {ms[0].proof.outpoint}, done + [ms[0]])
  }

  lemma {:induction false} ParseCollects(f: Formats, ms: seq<Meta>, seen: set<Outpoint>, done: seq<Meta>)
    requires f.Forward() && f.RoundTrips() && AllWellTagged(f, ms)
    ensures ParseProofs(f, EncodeAll(f, ms), seen, done) == Collect(ms, seen, done)
    decreases |ms|
  {
    if ms != [] {
      ParseHead(f, ms, seen, done);
      if ms[0].proof.outpoint !in seen {
        ParseCollects(f, ms[1..], seen + {ms[0].proof.outpoint}, done + [ms[0]]);
      }
    }
  }

  lemma {:induction false} CollectsFresh(ms: seq<Meta>, seen: set<Outpoint>, done: seq<Meta>)
    ensures Collect(ms, seen, done) == if Fresh(ms, seen) then Parsed(done + ms) else DuplicateOutpoints
    decreases |ms|
  {
    if ms == [] {
      assert done + ms == done;
    } else if ms[0].proof.outpoint !in seen {
      CollectsFresh(ms[1..], seen + {ms[0].proof.outpoint}, done + [ms[0]]);
      FreshFromHead(ms, seen);
      assert (done + [ms[0]]) + ms[1..] == done + ms;
    }
  }

  lemma FreshFromHead(ms: seq<Meta>, seen: set<Outpoint>)
    requires ms != [] && ms[0].proof.outpoint !in seen
    ensures Fresh(ms, seen) <==> Fresh(ms[1..], seen + {ms[0].proof.outpoint})
  {
    var tail, o := ms[1..], ms[0].proof.outpoint;
    if Fresh(tail, seen + {o}) {
      forall i, j | 0 <= i < j < |ms| ensures ms[i].proof.outpoint != ms[j].proof.outpoint {
        assert ms[j] == tail[j - 1];
        if i > 0 { assert ms[i] == tail[i - 1]; }
      }
      forall i | 0 <= i < |ms| ensures ms[i].proof.outpoint !in seen {
        if i > 0 { assert ms[i] == tail[i - 1]; }
      }
    }
    if Fresh(ms, seen) {
      forall i | 0 <= i < |tail| ensures tail[i].proof.outpoint !in seen + {o} {
        assert tail[i] == ms[i + 1] && ms[0].proof.outpoint != ms[i + 1].proof.outpoint;
      }
    }
  }

  /** The parse loop recovers any concatenation of proofs with distinct outpoints and refuses every other one. */
  lemma ParseRecovers(f: Formats, ms: seq<Meta>)
    requires f.Forward() && f.RoundTrips() && AllWellTagged(f, ms)
    ensures Parse(f, EncodeAll(f, ms)) == if DistinctOutpoints(ms) then Parsed(ms) else DuplicateOutpoints
  {
    ParseCollects(f, ms, {}, []);
    CollectsFresh(ms, {}, []);
    assert [] + ms == ms;
  }

  lemma {:induction false} ParsedIsDistinct(f: Formats, b: Bytes, seen: set<Outpoint>, done: seq<Meta>)
    requires f.Forward() && DistinctOutpoints(done) && (forall i :: 0 <= i < |done| ==> done[i].proof.outpoint in seen)
    ensures var r := ParseProofs(f, b, seen, done);
            r.Parsed? ==> DistinctOutpoints(r.proofs)
    decreases |b|
  {
    if b != [] && DecodeMeta(f, b).Done? {
      var m := DecodeMeta(f, b).value;
      if m.proof.outpoint !in seen {
        ParsedIsDistinct(f, DecodeMeta(f, b).rest, seen + {m.proof.outpoint}, done + [m]);
      }
    }
  }

  lemma {:induction false} ParsedIsEncoded(f: Formats, b: Bytes, seen: set<Outpoint>, done: seq<Meta>)
    requires f.Forward() && f.Canonical() && ParseProofs(f, b, seen, done).Parsed?
    ensures var ps := ParseProofs(f, b, seen, done).proofs;
            |done| <= |ps| && ps[..|done|] == done && AllWellTagged(f, ps[|done|..]) && b == EncodeAll(f, ps[|done|..])
    decreases |b|
  {
    if b != [] {
      var m, rest := DecodeMeta(f, b).value, DecodeMeta(f, b).rest;
      MetaCanonical(f, b);
      ParsedIsEncoded(f, rest, seen + {m.proof.outpoint}, done + [m]);
      var ps := ParseProofs(f, b, seen, done).proofs;
      var tail := ps[|done|..];
      assert tail[0] == ps[..|done| + 1][|done|] == m;
      assert tail[1..] == ps[|done| + 1..];
      assert ps[..|done|] == ps[..|done| + 1][..|done|] == done;
    }
  }

  /** Whatever the loop accepts has pairwise distinct outpoints and is the concatenation of its proofs' encodings. */
  lemma ParseSound(f: Formats, b: Bytes)
    requires f.Forward() && f.Canonical() && Parse(f, b).Parsed?
    ensures DistinctOutpoints(Parse(f, b).proofs)
    ensures AllWellTagged(f, Parse(f, b).proofs) && b == EncodeAll(f, Parse(f, b).proofs)
  {
    ParsedIsDistinct(f, b, {}, []);
    ParsedIsEncoded(f, b, {}, []);
    assert Parse(f, b).proofs[0..] == Parse(f, b).proofs;
  }
}
