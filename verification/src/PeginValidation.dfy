/** Validation of a parsed peg-in against a Bitcoin checkpoint. */
module PeginValidation {
  import opened Options
  import opened Bytes
  import opened ProofCodec
  import opened Amounts

  const COINBASE_MATURITY: nat := 100
  const WRAP32: nat := 0x1_0000_0000

  type Key = Bytes33

  /** A Bitcoin header and its height. */
  datatype Checkpoint = Checkpoint(header: Header, height: U32)

  /** What the proofs of a peg-in have to show: deposits for an account in the Bitcoin block at a height. */
  datatype Claim = Claim(account: Account, height: U32)

  datatype PeginData = PeginData(account: Account, amount: nat, bitcoinBlockHeight: U32, meta: seq<Meta>) {
    function Claimed(): Claim {
      Claim(account, bitcoinBlockHeight)
    }
  }

  /** The library functions validation relies on: header hashing, Merkle extraction, transaction ids and the
      taproot script an account's deposits are sent to (`None` when the key cannot be tweaked). */
  datatype Primitives = Primitives(
    hash: Header -> Bytes32,
    extract: MerkleProof -> Option<(Bytes32, seq<Bytes32>)>,
    txid: Transaction -> Bytes32,
    gateway: (Key, Account) -> Option<Script>)

  datatype Rejection =
    | InvalidMetaVersion | RecentBlockHashMismatch | InvalidMerkleBlock | NotIncluded | MerkleRootMismatch
    | WrongTxid | WrongOutputIndex | InvalidTweak | InvalidScriptPubkey | InvalidHeaderSequence
    | InvalidBitcoinBlockHeight | NonMatureCoinbase

  /** `Aborted` is an out-of-bounds index, which ends the process instead of returning. */
  datatype Verdict<T> = Accepted(value: T) | Rejected(reason: Rejection) | Aborted

  predicate Linked(e: Primitives, hs: seq<Header>) {
    forall i :: 0 < i < |hs| ==> hs[i].prev == e.hash(hs[i - 1])
  }

  predicate Mentions(e: Primitives, hs: seq<Header>, h: Bytes32) {
    exists i :: 0 <= i < |hs| && e.hash(hs[i]) == h
  }

  /** The distance of the last header with hash `h` from the first header. */
  function Depth(e: Primitives, hs: seq<Header>, h: Bytes32): (d: nat)
    requires Mentions(e, hs, h)
    ensures d < |hs| && e.hash(hs[d]) == h
    ensures forall i :: d < i < |hs| ==> e.hash(hs[i]) != h
  {
    if e.hash(hs[|hs| - 1]) == h then |hs| - 1
    else
      var init := hs[..|hs| - 1];
      assert forall i :: 0 <= i < |init| ==> init[i] == hs[i];
      Depth(e, init, h)
  }

  /** The verdict on one proof; an accepted proof contributes the value of its output in wei. */
  function JudgeProof(e: Primitives, c: Checkpoint, key: Key, q: Claim, p: Proof): (v: Verdict<nat>)
  {
    var commit := e.hash(c.header);
    if p.version != 0 && p.version != 1 then Rejected(InvalidMetaVersion)
    else if !Mentions(e, p.headers, commit) then Rejected(RecentBlockHashMismatch)
    else if e.extract(p.merkleProof).None? then Rejected(InvalidMerkleBlock)
    else
      var (root, txids) := e.extract(p.merkleProof).value;
      if p.outpoint.txid !in txids then Rejected(NotIncluded)
      else if p.headers[0].merkleRoot != root then Rejected(MerkleRootMismatch)
      else if e.txid(p.tx) != p.outpoint.txid then Rejected(WrongTxid)
      else if |p.tx.outputs| < p.outpoint.vout then Rejected(WrongOutputIndex)
      else if e.gateway(key, q.account).None? then Rejected(InvalidTweak)
      else if p.outpoint.vout >= |p.tx.outputs| then Aborted
      else
        var output := p.tx.outputs[p.outpoint.vout];
        if e.gateway(key, q.account).value != output.script then Rejected(InvalidScriptPubkey)
        else if !Linked(e, p.headers) then Rejected(InvalidHeaderSequence)
        else
          var diff := Depth(e, p.headers, commit);
          if (c.height - diff) % WRAP32 != q.height then Rejected(InvalidBitcoinBlockHeight)
          else if p.tx.coinbase && diff < COINBASE_MATURITY then Rejected(NonMatureCoinbase)
          else Accepted(ToWei(output.value))
  }

  /** All proofs in order; the first one that is not accepted decides. */
  function Judge(e: Primitives, c: Checkpoint, key: Key, q: Claim, proofs: seq<Meta>): (v: Verdict<nat>)
  {
    if proofs == [] then Accepted(0)
    else
      var init := Judge(e, c, key, q, proofs[..|proofs| - 1]);
      if !init.Accepted? then init
      else
        match JudgeProof(e, c, key, q, proofs[|proofs| - 1].proof)
        case Accepted(w) => Accepted(init.value + w)
        case Rejected(r) => Rejected(r)
        case Aborted => Aborted
  }

  method CheckLinks(e: Primitives, hs: seq<Header>) returns (ok: bool)
    ensures ok <==> Linked(e, hs)
  {
    var i := 0;
    while i < |hs|
      invariant i <= |hs|
      invariant forall k :: 0 < k <= i && k < |hs| ==> hs[k].prev == e.hash(hs[k - 1])
    {
      if i + 1 < |hs| {
        if hs[i + 1].prev != e.hash(hs[i]) { return false; }
      }
      i := i + 1;
    }
    ok := true;
  }

  /** The body of the loop of `PeginData::validate` for one proof. */
  method ValidateProof(e: Primitives, c: Checkpoint, key: Key, q: Claim, p: Proof) returns (v: Verdict<nat>)
    ensures v == JudgeProof(e, c, key, q, p)
  {
    var commit := e.hash(c.header);
    if p.version != 0 && p.version != 1 { return Rejected(InvalidMetaVersion); }
    if !Mentions(e, p.headers, commit) { return Rejected(RecentBlockHashMismatch); }
    var matches := e.extract(p.merkleProof);
    if matches.None? { return Rejected(InvalidMerkleBlock); }
    var (root, txids) := matches.value;
    if p.outpoint.txid !in txids { return Rejected(NotIncluded); }
    if p.headers[0].merkleRoot != root { return Rejected(MerkleRootMismatch); }
    if e.txid(p.tx) != p.outpoint.txid { return Rejected(WrongTxid); }
    if |p.tx.outputs| < p.outpoint.vout { return Rejected(WrongOutputIndex); }
    var gateway := e.gateway(key, q.account);
    if gateway.None? { return Rejected(InvalidTweak); }
    if p.outpoint.vout >= |p.tx.outputs| { return Aborted; }
    var output := p.tx.outputs[p.outpoint.vout];
    if gateway.value != output.script { return Rejected(InvalidScriptPubkey); }
    var linked := CheckLinks(e, p.headers);
    if !linked { return Rejected(InvalidHeaderSequence); }
    var diff := Depth(e, p.headers, commit);
    if (c.height - diff) % WRAP32 != q.height { return Rejected(InvalidBitcoinBlockHeight); }
    if p.tx.coinbase && diff < COINBASE_MATURITY { return Rejected(NonMatureCoinbase); }
    v := Accepted(ToWei(output.value));
  }

  /** `PeginData::validate`: walks the proofs and accumulates their value. */
  method Validate(e: Primitives, c: Checkpoint, key: Key, d: PeginData) returns (v: Verdict<nat>)
    ensures v == Judge(e, c, key, d.Claimed(), d.meta)
  {
    var aggregate := 0;
    for i := 0 to |d.meta|
      invariant Judge(e, c, key, d.Claimed(), d.meta[..i]) == Accepted(aggregate)
    {
      var one := ValidateProof(e, c, key, d.Claimed(), d.meta[i].proof);
      Next(e, c, key, d, i);
      if !one.Accepted? {
        Prefix(e, c, key, d, i + 1);
        return one;
      }
      aggregate := aggregate + one.value;
    }
    assert d.meta[..|d.meta|] == d.meta;
    v := Accepted(aggregate);
  }

  lemma Next(e: Primitives, c: Checkpoint, key: Key, d: PeginData, i: nat)
    requires i < |d.meta| && Judge(e, c, key, d.Claimed(), d.meta[..i]).Accepted?
    ensures var one := JudgeProof(e, c, key, d.Claimed(), d.meta[i].proof);
            var sum := Judge(e, c, key, d.Claimed(), d.meta[..i]).value;
            Judge(e, c, key, d.Claimed(), d.meta[..i + 1]) == if one.Accepted? then Accepted(sum + one.value) else one
  {
    assert d.meta[..i + 1][..i] == d.meta[..i];
  }

  lemma {:induction false} Prefix(e: Primitives, c: Checkpoint, key: Key, d: PeginData, n: nat)
    requires n <= |d.meta| && !Judge(e, c, key, d.Claimed(), d.meta[..n]).Accepted?
    ensures Judge(e, c, key, d.Claimed(), d.meta) == Judge(e, c, key, d.Claimed(), d.meta[..n])
    decreases |d.meta| - n
  {
    if n == |d.meta| {
      assert d.meta[..n] == d.meta;
    } else {
      assert d.meta[..n + 1][..n] == d.meta[..n];
      Prefix(e, c, key, d, n + 1);
    }
  }

  /** The proof passes everything that is checked before its output is looked up. */
  predicate ReachesOutput(e: Primitives, c: Checkpoint, key: Key, q: Claim, p: Proof) {
    && (p.version == 0 || p.version == 1)
    && Mentions(e, p.headers, e.hash(c.header))
    && e.extract(p.merkleProof).Some?
    && p.outpoint.txid in e.extract(p.merkleProof).value.1
    && p.headers[0].merkleRoot == e.extract(p.merkleProof).value.0
    && e.txid(p.tx) == p.outpoint.txid
    && e.gateway(key, q.account).Some?
  }

  ghost predicate OnePastTheEnd(e: Primitives, c: Checkpoint, key: Key, q: Claim, ms: seq<Meta>, i: nat)
    requires i < |ms|
  {
    var p := ms[i].proof;
    Judge(e, c, key, q, ms[..i]).Accepted? && ReachesOutput(e, c, key, q, p) && p.outpoint.vout == |p.tx.outputs|
  }

  /** Validation always answers, unless some proof names the output one past the last: it then stops exactly when
      that proof and all before it pass every earlier check. */
  lemma {:induction false} AbortsExactlyOnePastTheEnd(e: Primitives, c: Checkpoint, key: Key, q: Claim,
      ms: seq<Meta>)
    ensures Judge(e, c, key, q, ms).Aborted? <==> exists i: nat :: i < |ms| && OnePastTheEnd(e, c, key, q, ms, i)
  {
    if ms != [] {
      var n := |ms| - 1;
      var init := ms[..n];
      AbortsExactlyOnePastTheEnd(e, c, key, q, init);
      forall i: nat | i < n ensures OnePastTheEnd(e, c, key, q, ms, i) <==> OnePastTheEnd(e, c, key, q, init, i) {
        assert ms[..i] == init[..i];
      }
      if Judge(e, c, key, q, init).Aborted? {
        var i: nat :| i < n && OnePastTheEnd(e, c, key, q, init, i);
        assert OnePastTheEnd(e, c, key, q, ms, i);
      } else if Judge(e, c, key, q, ms).Aborted? {
        assert OnePastTheEnd(e, c, key, q, ms, n);
      }
    }
  }

  // ---------- what acceptance means on the Bitcoin chain ----------

  /** No other header hashes to the hash of a block of the chain. */
  ghost predicate NoCollision(e: Primitives, chain: seq<Header>) {
    forall a: Header, h :: 0 <= h < |chain| && e.hash(a) == e.hash(chain[h]) ==> a == chain[h]
  }

  /** `chain[h]` is the block at height `h`, each block naming the hash of the one below. */
  ghost predicate IsChain(e: Primitives, chain: seq<Header>) {
    forall h :: 0 < h < |chain| ==> chain[h].prev == e.hash(chain[h - 1])
  }

  /** Walking back from a common block, a linked header list and the chain stay together. */
  lemma {:induction false} BackwardAlong(e: Primitives, chain: seq<Header>, hs: seq<Header>, k: nat, h: nat, i: nat)
    requires NoCollision(e, chain) && IsChain(e, chain) && Linked(e, hs)
    requires i <= k < |hs| && h < |chain| && k - i <= h && hs[k] == chain[h]
    ensures hs[i] == chain[h - (k - i)]
    decreases k - i
  {
    if i < k {
      BackwardAlong(e, chain, hs, k, h, i + 1);
      assert e.hash(hs[i]) == hs[i + 1].prev == e.hash(chain[h - (k - i)]);
    }
  }

  /** An accepted proof's first header is the block of the checkpoint's chain at the claimed height. The claimed
      height is at most the checkpoint's, which is what rules out a wrapped subtraction. */
  lemma AcceptedBlockIsAncestor(e: Primitives, chain: seq<Header>, c: Checkpoint, key: Key, d: PeginData, p: Proof)
    requires NoCollision(e, chain) && IsChain(e, chain) && c.height < |chain| && chain[c.height] == c.header
    requires |p.headers| <= MAX_BITCOIN_BLOCK_HEADERS && d.bitcoinBlockHeight <= c.height
    requires JudgeProof(e, c, key, d.Claimed(), p).Accepted?
    ensures p.headers != [] && p.headers[0] == chain[d.bitcoinBlockHeight]
  {
    var commit := e.hash(c.header);
    var diff := Depth(e, p.headers, commit);
    assert p.headers[diff] == c.header;
    assert c.height - diff == d.bitcoinBlockHeight;
    BackwardAlong(e, chain, p.headers, diff, c.height, 0);
  }

  lemma {:induction false} JudgedProofs(e: Primitives, c: Checkpoint, key: Key, q: Claim, ms: seq<Meta>, i: nat)
    requires Judge(e, c, key, q, ms).Accepted? && i < |ms|
    ensures JudgeProof(e, c, key, q, ms[i].proof).Accepted?
    decreases |ms|
  {
    if i < |ms| - 1 {
      JudgedProofs(e, c, key, q, ms[..|ms| - 1], i);
    }
  }

  /** All proofs of one accepted event name the very same Bitcoin block, the one at the claimed height. */
  lemma AcceptedProofsShareBlock(e: Primitives, chain: seq<Header>, c: Checkpoint, key: Key, d: PeginData)
    requires NoCollision(e, chain) && IsChain(e, chain) && c.height < |chain| && chain[c.height] == c.header
    requires forall i :: 0 <= i < |d.meta| ==> |d.meta[i].proof.headers| <= MAX_BITCOIN_BLOCK_HEADERS
    requires d.bitcoinBlockHeight <= c.height && Judge(e, c, key, d.Claimed(), d.meta).Accepted?
    ensures forall i :: 0 <= i < |d.meta| ==>
              d.meta[i].proof.headers != [] && d.meta[i].proof.headers[0] == chain[d.bitcoinBlockHeight]
  {
    forall i | 0 <= i < |d.meta|
      ensures d.meta[i].proof.headers != [] && d.meta[i].proof.headers[0] == chain[d.bitcoinBlockHeight]
    {
      JudgedProofs(e, c, key, d.Claimed(), d.meta, i);
      AcceptedBlockIsAncestor(e, chain, c, key, d, d.meta[i].proof);
    }
  }

  // ---------- which proofs are accepted ----------

  /** The headers lead from the block at height `h` along the chain to the checkpoint; whatever follows is linked and
      does not name the checkpoint again. */
  ghost predicate LeadsToCheckpoint(e: Primitives, chain: seq<Header>, c: Checkpoint, h: nat, hs: seq<Header>)
    requires h <= c.height < |chain|
  {
    var k := c.height - h;
    && k < |hs| && Linked(e, hs)
    && (forall i :: 0 <= i <= k ==> hs[i] == chain[h + i])
    && (forall i :: k < i < |hs| ==> hs[i] != c.header)
  }

  /** The proof shows a deposit for the account in the chain's block at the claimed height: the block leads to the
      checkpoint, it contains the transaction, the output exists and pays the account's script, and a coinbase has
      100 blocks on top of it. */
  ghost predicate ShowsDeposit(e: Primitives, chain: seq<Header>, c: Checkpoint, key: Key, q: Claim, p: Proof)
    requires q.height <= c.height < |chain|
  {
    && (p.version == 0 || p.version == 1)
    && LeadsToCheckpoint(e, chain, c, q.height, p.headers)
    && e.extract(p.merkleProof).Some?
    && e.extract(p.merkleProof).value.0 == chain[q.height].merkleRoot
    && p.outpoint.txid in e.extract(p.merkleProof).value.1
    && e.txid(p.tx) == p.outpoint.txid
    && p.outpoint.vout < |p.tx.outputs|
    && e.gateway(key, q.account) == Some(p.tx.outputs[p.outpoint.vout].script)
    && (p.tx.coinbase ==> q.height + 100 <= c.height)
  }

  lemma DepthOnChain(e: Primitives, chain: seq<Header>, c: Checkpoint, h: nat, hs: seq<Header>)
    requires NoCollision(e, chain) && c.height < |chain| && chain[c.height] == c.header
    requires h <= c.height && LeadsToCheckpoint(e, chain, c, h, hs)
    ensures Mentions(e, hs, e.hash(c.header)) && Depth(e, hs, e.hash(c.header)) == c.height - h
  {
    var k := c.height - h;
    assert hs[k] == c.header;
    var d := Depth(e, hs, e.hash(c.header));
    assert hs[d] == c.header;
  }

  lemma AcceptedLeadsToCheckpoint(e: Primitives, chain: seq<Header>, c: Checkpoint, key: Key, q: Claim, p: Proof)
    requires NoCollision(e, chain) && IsChain(e, chain) && c.height < |chain| && chain[c.height] == c.header
    requires |p.headers| <= MAX_BITCOIN_BLOCK_HEADERS && q.height <= c.height
    requires JudgeProof(e, c, key, q, p).Accepted?
    ensures LeadsToCheckpoint(e, chain, c, q.height, p.headers)
  {
    var diff := Depth(e, p.headers, e.hash(c.header));
    assert p.headers[diff] == c.header && c.height - diff == q.height;
    forall i | 0 <= i <= diff ensures p.headers[i] == chain[q.height + i] {
      BackwardAlong(e, chain, p.headers, diff, c.height, i);
    }
  }

  /** A proof is accepted exactly when it shows a deposit, and then for the value of the output. */
  lemma ProofAcceptedExactly(e: Primitives, chain: seq<Header>, c: Checkpoint, key: Key, q: Claim, p: Proof)
    requires NoCollision(e, chain) && IsChain(e, chain) && c.height < |chain| && chain[c.height] == c.header
    requires |p.headers| <= MAX_BITCOIN_BLOCK_HEADERS && q.height <= c.height
    ensures JudgeProof(e, c, key, q, p).Accepted? <==> ShowsDeposit(e, chain, c, key, q, p)
    ensures JudgeProof(e, c, key, q, p).Accepted? ==>
              JudgeProof(e, c, key, q, p).value == ToWei(p.tx.outputs[p.outpoint.vout].value)
  {
    if JudgeProof(e, c, key, q, p).Accepted? {
      AcceptedLeadsToCheckpoint(e, chain, c, key, q, p);
      DepthOnChain(e, chain, c, q.height, p.headers);
    }
    if ShowsDeposit(e, chain, c, key, q, p) {
      DepthOnChain(e, chain, c, q.height, p.headers);
    }
  }

  /** Headers cut out of the chain from the deposit's block to the checkpoint lead there. */
  lemma ChainLeadsToCheckpoint(e: Primitives, chain: seq<Header>, c: Checkpoint, h: nat)
    requires IsChain(e, chain) && h <= c.height < |chain|
    ensures LeadsToCheckpoint(e, chain, c, h, chain[h..c.height + 1])
  {
    var hs := chain[h..c.height + 1];
    forall i | 0 < i < |hs| ensures hs[i].prev == e.hash(hs[i - 1]) {
      assert hs[i] == chain[h + i] && hs[i - 1] == chain[h + i - 1];
    }
  }

  /** A list of proofs is accepted exactly when each of them is. */
  lemma {:induction false} JudgeAcceptsExactly(e: Primitives, c: Checkpoint, key: Key, q: Claim, ms: seq<Meta>)
    ensures Judge(e, c, key, q, ms).Accepted? <==>
              forall i :: 0 <= i < |ms| ==> JudgeProof(e, c, key, q, ms[i].proof).Accepted?
  {
    if ms != [] {
      var init := ms[..|ms| - 1];
      JudgeAcceptsExactly(e, c, key, q, init);
      assert forall i :: 0 <= i < |init| ==> init[i] == ms[i];
    }
  }

  /** What each rejection says about the proof. */
  lemma RejectionsMean(e: Primitives, c: Checkpoint, key: Key, q: Claim, p: Proof)
    requires JudgeProof(e, c, key, q, p).Rejected?
    ensures match JudgeProof(e, c, key, q, p).reason
            case InvalidMetaVersion => p.version > 1
            case RecentBlockHashMismatch =>
              forall i :: 0 <= i < |p.headers| ==> e.hash(p.headers[i]) != e.hash(c.header)
            case InvalidMerkleBlock => e.extract(p.merkleProof).None?
            case NotIncluded =>
              e.extract(p.merkleProof).Some? && p.outpoint.txid !in e.extract(p.merkleProof).value.1
            case MerkleRootMismatch =>
              && e.extract(p.merkleProof).Some? && p.headers != []
              && p.headers[0].merkleRoot != e.extract(p.merkleProof).value.0
            case WrongTxid => e.txid(p.tx) != p.outpoint.txid
            case WrongOutputIndex => p.outpoint.vout > |p.tx.outputs|
            case InvalidTweak => e.gateway(key, q.account).None?
            case InvalidScriptPubkey =>
              && p.outpoint.vout < |p.tx.outputs|
              && e.gateway(key, q.account) != Some(p.tx.outputs[p.outpoint.vout].script)
            case InvalidHeaderSequence => !Linked(e, p.headers)
            case InvalidBitcoinBlockHeight =>
              Mentions(e, p.headers, e.hash(c.header))
              && (c.height - Depth(e, p.headers, e.hash(c.header)) - q.height) % WRAP32 != 0
            case NonMatureCoinbase =>
              && p.tx.coinbase && Mentions(e, p.headers, e.hash(c.header))
              && Depth(e, p.headers, e.hash(c.header)) < 100
  {
  }
}
