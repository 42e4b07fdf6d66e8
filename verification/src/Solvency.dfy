/** Peg-in solvency over every chain of executed blocks. */
module Solvency {
  import opened Options
  import opened Bytes
  import opened Amounts
  import opened ProofCodec
  import opened PeginValidation
  import opened MintChecks
  import opened BlockExecution
  import MintContract

  /** A block to execute. `credited` are the account balances after the fees of the block have been paid out. */
  datatype Block = Block(env: Env, txs: seq<Tx>, credited: map<Account, Info>)

  /** The state and all accepted peg-ins and peg-outs after a chain of blocks; `prices` holds, for each peg-in, the
      base fee of its block. */
  datatype Ledger = Ledger(world: World, pegins: seq<PeginData>, prices: seq<nat>, pegouts: seq<Pegout>)

  function Repeated(x: nat, n: nat): (xs: seq<nat>)
    ensures |xs| == n && forall i :: 0 <= i < n ==> xs[i] == x
  {
    seq(n, _ => x)
  }

  /** Executes a chain of blocks; `None` when one of them is not valid. */
  function RunChain(node: Node, w: World, blocks: seq<Block>): (r: Option<Ledger>)
    requires node.formats.Forward() && forall i :: 0 <= i < |blocks| ==> blocks[i].env.node == node
  {
    if blocks == [] then Some(Ledger(w, [], [], []))
    else
      var b := blocks[|blocks| - 1];
      var init := RunChain(node, w, blocks[..|blocks| - 1]);
      if init.None? then None
      else
        var r := Execute(b.env, init.value.world, b.txs);
        if !r.Ok? then None
        else Some(Ledger(r.progress.world.(accounts := b.credited),
                         init.value.pegins + r.progress.pegins,
                         init.value.prices + Repeated(Base(b.env), |r.progress.pegins|),
                         init.value.pegouts + r.progress.pegouts))
  }

  // ---------- assumptions about Bitcoin, the libraries and the EVM ----------

  /** The checkpoint is the block of `chain` at its height. Height 0 is what a block without a checkpoint carries. */
  predicate OnPath(chain: seq<Header>, c: Checkpoint) {
    c.height == 0 || (c.height < |chain| && chain[c.height] == c.header)
  }

  /** The block's own checkpoint and all those it can look up lie on the chain. */
  ghost predicate KnowsPath(chain: seq<Header>, pkg: Package) {
    && OnPath(chain, pkg.checkpoint)
    && forall h: Bytes32 :: pkg.checkpointOf(h).Some? ==> OnPath(chain, pkg.checkpointOf(h).value)
  }

  /** All checkpoints of the run lie on one Bitcoin chain. */
  ghost predicate OnePath(node: Node, chain: seq<Header>, blocks: seq<Block>) {
    && IsChain(node.primitives, chain)
    && (forall i :: 0 <= i < |blocks| ==> KnowsPath(chain, blocks[i].env.pkg))
  }

  /** A Merkle proof under the root of the block at height `h` shows the transaction `txid`. */
  predicate Included(e: Primitives, chain: seq<Header>, h: nat, m: MerkleProof, txid: Bytes32) {
    h < |chain| && e.extract(m).Some? && e.extract(m).value.0 == chain[h].merkleRoot && txid in e.extract(m).value.1
  }

  /** No transaction can be shown to be in two blocks of the chain. */
  ghost predicate OneBlockPerTx(e: Primitives, chain: seq<Header>) {
    forall h1, h2, m1, m2, txid ::
      Included(e, chain, h1, m1, txid) && Included(e, chain, h2, m2, txid) ==> h1 == h2
  }

  /** Transactions that share the id of one in the chain have the same outputs. */
  ghost predicate TxidFixesOutputs(e: Primitives, chain: seq<Header>) {
    forall h, m, t1: Transaction, t2: Transaction ::
      Included(e, chain, h, m, e.txid(t1)) && e.txid(t1) == e.txid(t2) ==> t1.outputs == t2.outputs
  }

  /** A deposit script belongs to one account, also across federation keys. */
  ghost predicate ScriptNamesAccount(e: Primitives) {
    forall k1: Key, a1: Account, k2: Key, a2: Account ::
      e.gateway(k1, a1).Some? && e.gateway(k1, a1) == e.gateway(k2, a2) ==> a1 == a2
  }

  /** Some code has this effect on the mint contract at the given base fee. */
  ghost predicate ContractRan(baseFee: nat, before: World, logs: seq<Log>, after: World) {
    exists f: MintContract.Frame ::
      MintContract.RunFrame(f, baseFee, MintContract.State(before.heights, [], before.paid))
      == (true, MintContract.State(after.heights, logs, after.paid))
  }

  /** The EVM runs the mint contract: a successful transaction does to its storage and its payments what some code can
      do at the block's base fee, a failed one does nothing to them. */
  ghost predicate RunsContract(e: Env) {
    forall w: World, tx: Tx :: e.transact(w, tx).Executed? ==>
      var o := e.transact(w, tx);
      if o.success then ContractRan(Base(e), w, o.logs, o.world)
      else o.world.heights == w.heights && o.world.paid == w.paid
  }

  ghost predicate Assumptions(node: Node, chain: seq<Header>, blocks: seq<Block>) {
    && node.formats.Forward() && NoCollision(node.primitives, chain)
    && OnePath(node, chain, blocks) && OneBlockPerTx(node.primitives, chain)
    && TxidFixesOutputs(node.primitives, chain) && ScriptNamesAccount(node.primitives)
    && forall i :: 0 <= i < |blocks| ==> blocks[i].env.node == node && RunsContract(blocks[i].env)
  }

  // ---------- the contract's guard, seen from the accepted peg-ins ----------

  function HeightOf(heights: map<Account, U32>, a: Account): U32 {
    MintContract.HeightOf(heights, a)
  }

  /** As `MintContract.Guarded`, for peg-ins. */
  ghost predicate GuardedPegins(before: map<Account, U32>, ds: seq<PeginData>, after: map<Account, U32>) {
    && (forall a: Account :: HeightOf(before, a) <= HeightOf(after, a))
    && (forall i :: 0 <= i < |ds| ==>
          HeightOf(before, ds[i].account) < ds[i].bitcoinBlockHeight <= HeightOf(after, ds[i].account))
    && (forall i, j :: 0 <= i < j < |ds| && ds[i].account == ds[j].account
          ==> ds[i].bitcoinBlockHeight != ds[j].bitcoinBlockHeight)
  }

  lemma GuardedPeginsInSequence(a: map<Account, U32>, ds: seq<PeginData>, b: map<Account, U32>,
                                es: seq<PeginData>, c: map<Account, U32>)
    requires GuardedPegins(a, ds, b) && GuardedPegins(b, es, c)
    ensures GuardedPegins(a, ds + es, c)
  {
    var all := ds + es;
    forall i | 0 <= i < |all|
      ensures HeightOf(a, all[i].account) < all[i].bitcoinBlockHeight <= HeightOf(c, all[i].account)
    {
      if i < |ds| { assert all[i] == ds[i]; } else { assert all[i] == es[i - |ds|]; }
    }
    forall i, j | 0 <= i < j < |all| && all[i].account == all[j].account
      ensures all[i].bitcoinBlockHeight != all[j].bitcoinBlockHeight
    {
      if j < |ds| {
        assert all[i] == ds[i] && all[j] == ds[j];
      } else if i < |ds| {
        assert all[i] == ds[i] && all[j] == es[j - |ds|];
      } else {
        assert all[i] == es[i - |ds|] && all[j] == es[j - |ds|];
      }
    }
  }

  /** Which log a peg-in was parsed from. */
  predicate ParsedFrom(d: PeginData, log: Log) {
    log.MintLog? && d.account == log.account && d.bitcoinBlockHeight == log.height && d.amount == log.amount
  }

  lemma {:induction false} PeginsComeFromLogs(n: Node, pkg: Package, logs: seq<Log>)
    requires n.formats.Forward() && CheckMints(n, pkg, logs).Passed?
    ensures var ds := CheckMints(n, pkg, logs).value;
            forall i :: 0 <= i < |ds| ==> exists k :: 0 <= k < |logs| && ParsedFrom(ds[i], logs[k])
  {
    if logs != [] {
      var init, last := logs[..|logs| - 1], logs[|logs| - 1];
      PeginsComeFromLogs(n, pkg, init);
      var before, ds := CheckMints(n, pkg, init).value, CheckMints(n, pkg, logs).value;
      forall i | 0 <= i < |ds| ensures exists k :: 0 <= k < |logs| && ParsedFrom(ds[i], logs[k]) {
        if i < |before| {
          var k :| 0 <= k < |init| && ParsedFrom(before[i], init[k]);
          assert ParsedFrom(ds[i], logs[k]);
        } else {
          assert ParsedFrom(ds[i], logs[|logs| - 1]);
        }
      }
    }
  }

  lemma GuardedPeginsExtend(before: map<Account, U32>, ds: seq<PeginData>, after: map<Account, U32>, d: PeginData)
    requires GuardedPegins(before, ds, after)
    requires HeightOf(before, d.account) < d.bitcoinBlockHeight <= HeightOf(after, d.account)
    requires forall i :: 0 <= i < |ds| && ds[i].account == d.account ==>
               ds[i].bitcoinBlockHeight != d.bitcoinBlockHeight
    ensures GuardedPegins(before, ds + [d], after)
  {
  }

  lemma GuardedPrefix(before: map<Account, U32>, logs: seq<Log>, after: map<Account, U32>, k: nat)
    requires MintContract.Guarded(before, logs, after) && k <= |logs|
    ensures MintContract.Guarded(before, logs[..k], after)
  {
  }

  lemma {:induction false} GuardedLogsGuardPegins(n: Node, pkg: Package, before: map<Account, U32>, logs: seq<Log>,
                                                  after: map<Account, U32>)
    requires n.formats.Forward() && CheckMints(n, pkg, logs).Passed? && MintContract.Guarded(before, logs, after)
    ensures GuardedPegins(before, CheckMints(n, pkg, logs).value, after)
  {
    if logs != [] {
      var init, last := logs[..|logs| - 1], logs[|logs| - 1];
      GuardedPrefix(before, logs, after, |logs| - 1);
      GuardedLogsGuardPegins(n, pkg, before, init, after);
      if last.MintLog? {
        PeginsComeFromLogs(n, pkg, init);
        LastMintIsNew(before, logs, init, after, CheckMints(n, pkg, init).value, CheckMint(n, pkg, last).value);
      }
    }
  }

  lemma LastMintIsNew(before: map<Account, U32>, logs: seq<Log>, init: seq<Log>, after: map<Account, U32>,
                      ds: seq<PeginData>, d: PeginData)
    requires MintContract.Guarded(before, logs, after) && logs != [] && ParsedFrom(d, logs[|logs| - 1])
    requires GuardedPegins(before, ds, after) && init == logs[..|logs| - 1]
    requires forall i :: 0 <= i < |ds| ==> exists k :: 0 <= k < |init| && ParsedFrom(ds[i], init[k])
    ensures GuardedPegins(before, ds + [d], after)
  {
    forall i | 0 <= i < |ds| && ds[i].account == d.account
      ensures ds[i].bitcoinBlockHeight != d.bitcoinBlockHeight
    {
      var k :| 0 <= k < |init| && ParsedFrom(ds[i], init[k]);
      assert init[k] == logs[k];
    }
    GuardedPeginsExtend(before, ds, after, d);
  }

  /** What the contract guarantees of a successful transaction: its logs obey the height guard, and it pays out what
      they say plus one refund per mint. */
  lemma ContractGuards(baseFee: nat, before: World, logs: seq<Log>, after: World)
    requires ContractRan(baseFee, before, logs, after)
    ensures MintContract.Guarded(before.heights, logs, after.heights)
    ensures after.paid == before.paid + MintContract.Logged(logs)
                          + MintContract.Mints(logs) * MintContract.Refund(baseFee)
  {
    var f: MintContract.Frame :|
      MintContract.RunFrame(f, baseFee, MintContract.State(before.heights, [], before.paid))
      == (true, MintContract.State(after.heights, logs, after.paid));
    MintContract.TransactionIsGuarded(f, baseFee, before.heights, before.paid);
    MintContract.PaidOutIsLoggedPlusRefunds(f, baseFee, before.heights, before.paid);
    MintContract.RefundedIsProduct(logs, baseFee);
  }

  /** One transaction: committed, failed or rolled back. */
  lemma TxIsGuarded(e: Env, p: Progress, tx: Tx)
    requires e.node.formats.Forward() && RunsContract(e) && ExecuteTx(e, p, tx).Ok?
    ensures var q := ExecuteTx(e, p, tx).progress;
            |p.pegins| <= |q.pegins| && q.pegins[..|p.pegins|] == p.pegins
            && GuardedPegins(p.world.heights, q.pegins[|p.pegins|..], q.world.heights)
  {
    var q := ExecuteTx(e, p, tx).progress;
    var o := e.transact(p.world, tx);
    if o.success {
      ContractGuards(Base(e), p.world, o.logs, o.world);
      if CheckLogs(e.node, e.pkg, tx.hash, o.logs).Passed? {
        GuardedLogsGuardPegins(e.node, e.pkg, p.world.heights, o.logs, o.world.heights);
        assert q.pegins[|p.pegins|..] == CheckMints(e.node, e.pkg, o.logs).value;
      }
    }
  }

  lemma {:induction false} BlockIsGuarded(e: Env, w: World, txs: seq<Tx>)
    requires e.node.formats.Forward() && RunsContract(e) && Execute(e, w, txs).Ok?
    ensures var p := Execute(e, w, txs).progress;
            GuardedPegins(w.heights, p.pegins, p.world.heights)
  {
    if txs != [] {
      var init := txs[..|txs| - 1];
      BlockIsGuarded(e, w, init);
      var p, q := Execute(e, w, init).progress, Execute(e, w, txs).progress;
      TxIsGuarded(e, p, txs[|txs| - 1]);
      GuardedPeginsInSequence(w.heights, p.pegins, p.world.heights, q.pegins[|p.pegins|..], q.world.heights);
      assert q.pegins == p.pegins + q.pegins[|p.pegins|..];
    }
  }

  // ---------- what backs an accepted peg-in ----------

  /** The proof shows an output, in the chain's block at the peg-in's height, paying the peg-in's account. */
  ghost predicate BackedProof(e: Primitives, chain: seq<Header>, d: PeginData, p: Proof) {
    && Included(e, chain, d.bitcoinBlockHeight, p.merkleProof, p.outpoint.txid)
    && e.txid(p.tx) == p.outpoint.txid
    && p.outpoint.vout < |p.tx.outputs|
    && exists key: Key :: e.gateway(key, d.account) == Some(p.tx.outputs[p.outpoint.vout].script)
  }

  function ValueOf(p: Proof): nat {
    if p.outpoint.vout < |p.tx.outputs| then p.tx.outputs[p.outpoint.vout].value else 0
  }

  function ValuesOf(ms: seq<Meta>): nat {
    if ms == [] then 0 else ValuesOf(ms[..|ms| - 1]) + ValueOf(ms[|ms| - 1].proof)
  }

  ghost predicate Backed(e: Primitives, chain: seq<Header>, d: PeginData) {
    && d.amount < ToWei(ValuesOf(d.meta))
    && DistinctOutpoints(d.meta)
    && forall i :: 0 <= i < |d.meta| ==> BackedProof(e, chain, d, d.meta[i].proof)
  }

  lemma {:induction false} JudgedValue(e: Primitives, c: Checkpoint, key: Key, q: Claim, ms: seq<Meta>)
    requires Judge(e, c, key, q, ms).Accepted?
    ensures Judge(e, c, key, q, ms).value == ToWei(ValuesOf(ms))
  {
    if ms != [] {
      JudgedValue(e, c, key, q, ms[..|ms| - 1]);
    }
  }

  lemma JudgedProofIsBacked(e: Primitives, chain: seq<Header>, c: Checkpoint, key: Key, d: PeginData, p: Proof)
    requires NoCollision(e, chain) && IsChain(e, chain) && c.height < |chain| && chain[c.height] == c.header
    requires |p.headers| <= MAX_BITCOIN_BLOCK_HEADERS && d.bitcoinBlockHeight <= c.height
    requires JudgeProof(e, c, key, d.Claimed(), p).Accepted?
    ensures BackedProof(e, chain, d, p)
  {
    AcceptedBlockIsAncestor(e, chain, c, key, d, p);
    assert e.gateway(key, d.account) == Some(p.tx.outputs[p.outpoint.vout].script);
  }

  /** Decoding never yields more headers than allowed. */
  lemma {:induction false} ParsedHeaderCounts(f: Formats, b: Bytes, seen: set<Outpoint>, done: seq<Meta>)
    requires f.Forward() && ParseProofs(f, b, seen, done).Parsed?
    requires forall i :: 0 <= i < |done| ==> |done[i].proof.headers| <= MAX_BITCOIN_BLOCK_HEADERS
    ensures var ps := ParseProofs(f, b, seen, done).proofs;
            forall i :: 0 <= i < |ps| ==> |ps[i].proof.headers| <= MAX_BITCOIN_BLOCK_HEADERS
    decreases |b|
  {
    if b != [] {
      var m := DecodeMeta(f, b).value;
      ParsedHeaderCounts(f, DecodeMeta(f, b).rest, seen + {m.proof.outpoint}, done + [m]);
    }
  }

  /** A mint that passes all checks is backed. Its height is positive because the contract's guard let it pass. */
  lemma CheckedMintIsBacked(n: Node, chain: seq<Header>, pkg: Package, log: Log)
    requires n.formats.Forward() && NoCollision(n.primitives, chain) && IsChain(n.primitives, chain)
    requires KnowsPath(chain, pkg)
    requires log.MintLog? && log.height > 0 && CheckMint(n, pkg, log).Passed?
    ensures Backed(n.primitives, chain, CheckMint(n, pkg, log).value)
  {
    var d := CheckMint(n, pkg, log).value;
    var c := CheckpointFor(pkg, d.meta[0]).value;
    ParsedIsDistinct(n.formats, log.metadata, {}, []);
    ParsedHeaderCounts(n.formats, log.metadata, {}, []);
    JudgedValue(n.primitives, c, pkg.key, d.Claimed(), d.meta);
    forall i | 0 <= i < |d.meta| ensures BackedProof(n.primitives, chain, d, d.meta[i].proof) {
      JudgedProofs(n.primitives, c, pkg.key, d.Claimed(), d.meta, i);
      JudgedProofIsBacked(n.primitives, chain, c, pkg.key, d, d.meta[i].proof);
    }
  }

  lemma {:induction false} CheckedMintsAreBacked(n: Node, chain: seq<Header>, pkg: Package, logs: seq<Log>)
    requires n.formats.Forward() && NoCollision(n.primitives, chain) && IsChain(n.primitives, chain)
    requires KnowsPath(chain, pkg)
    requires CheckMints(n, pkg, logs).Passed?
    requires forall i :: 0 <= i < |logs| && logs[i].MintLog? ==> logs[i].height > 0
    ensures var ds := CheckMints(n, pkg, logs).value;
            forall i :: 0 <= i < |ds| ==> Backed(n.primitives, chain, ds[i])
  {
    if logs != [] {
      CheckedMintsAreBacked(n, chain, pkg, logs[..|logs| - 1]);
      var last := logs[|logs| - 1];
      if last.MintLog? {
        CheckedMintIsBacked(n, chain, pkg, last);
      }
    }
  }

  ghost predicate AllBacked(e: Primitives, chain: seq<Header>, ds: seq<PeginData>) {
    forall i :: 0 <= i < |ds| ==> Backed(e, chain, ds[i])
  }

  lemma {:induction false} BlockIsBacked(e: Env, chain: seq<Header>, w: World, txs: seq<Tx>)
    requires e.node.formats.Forward() && RunsContract(e) && Execute(e, w, txs).Ok?
    requires NoCollision(e.node.primitives, chain) && IsChain(e.node.primitives, chain)
    requires KnowsPath(chain, e.pkg)
    ensures AllBacked(e.node.primitives, chain, Execute(e, w, txs).progress.pegins)
  {
    if txs != [] {
      var init := txs[..|txs| - 1];
      BlockIsBacked(e, chain, w, init);
      var p, tx := Execute(e, w, init).progress, txs[|txs| - 1];
      var o := e.transact(p.world, tx);
      if o.success && CheckLogs(e.node, e.pkg, tx.hash, o.logs).Passed? {
        ContractGuards(Base(e), p.world, o.logs, o.world);
        CheckedMintsAreBacked(e.node, chain, e.pkg, o.logs);
      }
    }
  }

  // ---------- which mints pass ----------

  /** All proofs are of version 0, or all are of version 1 and name the same reference block. */
  ghost predicate SameReference(ms: seq<Meta>)
    requires ms != []
  {
    || (forall i :: 0 <= i < |ms| ==> ms[i].V0?)
    || (ms[0].V1? && forall i :: 0 <= i < |ms| ==> ms[i].V1? && ms[i].refBlockHash == ms[0].refBlockHash)
  }

  /** The block's own checkpoint for version 0, that of the reference block for version 1. */
  function Reference(pkg: Package, m: Meta): (c: Option<Checkpoint>) {
    match m
    case V0(_) => Some(pkg.checkpoint)
    case V1(_, h) => pkg.checkpointOf(h)
  }

  /** Variant and version field agree. */
  predicate Tagged(m: Meta) {
    m.proof.version == (if m.V0? then 0 else 1)
  }

  lemma {:induction false} ParsedTags(f: Formats, b: Bytes, seen: set<Outpoint>, done: seq<Meta>)
    requires f.Forward() && ParseProofs(f, b, seen, done).Parsed?
    requires forall i :: 0 <= i < |done| ==> Tagged(done[i])
    ensures var ps := ParseProofs(f, b, seen, done).proofs;
            forall i :: 0 <= i < |ps| ==> Tagged(ps[i])
    decreases |b|
  {
    if b != [] {
      var m := DecodeMeta(f, b).value;
      DecodedVersion(f, b);
      ParsedTags(f, DecodeMeta(f, b).rest, seen + {m.proof.outpoint}, done + [m]);
    }
  }

  /** For tagged proofs the source's choice of the checkpoint and its uniformity check mean just this. */
  lemma TaggedChoice(pkg: Package, ms: seq<Meta>)
    requires ms != [] && forall i :: 0 <= i < |ms| ==> Tagged(ms[i])
    ensures CheckpointFor(pkg, ms[0]) == Reference(pkg, ms[0])
    ensures Uniform(ms) <==> SameReference(ms)
  {
    assert Tagged(ms[0]);
    forall i | 0 <= i < |ms|
      ensures ms[i].proof.version == ms[0].proof.version && RefOf(ms[i]) == RefOf(ms[0]) <==>
              (ms[0].V0? && ms[i].V0?) || (ms[0].V1? && ms[i].V1? && ms[i].refBlockHash == ms[0].refBlockHash)
    {
      assert Tagged(ms[i]);
    }
  }

  /** The proofs show deposits for the claim, against the right checkpoint. */
  ghost predicate ShowDeposits(e: Primitives, chain: seq<Header>, pkg: Package, q: Claim, ms: seq<Meta>) {
    && ms != [] && SameReference(ms)
    && Reference(pkg, ms[0]).Some?
    && var c := Reference(pkg, ms[0]).value;
    && q.height <= c.height < |chain|
    && forall i :: 0 <= i < |ms| ==> ShowsDeposit(e, chain, c, pkg.key, q, ms[i].proof)
  }

  lemma ProofsAcceptedExactly(e: Primitives, chain: seq<Header>, c: Checkpoint, key: Key, q: Claim, ms: seq<Meta>)
    requires NoCollision(e, chain) && IsChain(e, chain) && c.height < |chain| && chain[c.height] == c.header
    requires q.height <= c.height
    requires forall i :: 0 <= i < |ms| ==> |ms[i].proof.headers| <= MAX_BITCOIN_BLOCK_HEADERS
    ensures Judge(e, c, key, q, ms).Accepted? <==>
              forall i :: 0 <= i < |ms| ==> ShowsDeposit(e, chain, c, key, q, ms[i].proof)
  {
    JudgeAcceptsExactly(e, c, key, q, ms);
    forall i | 0 <= i < |ms|
      ensures JudgeProof(e, c, key, q, ms[i].proof).Accepted? <==> ShowsDeposit(e, chain, c, key, q, ms[i].proof)
    {
      ProofAcceptedExactly(e, chain, c, key, q, ms[i].proof);
    }
  }

  lemma ProofsJudgedExactly(n: Node, chain: seq<Header>, pkg: Package, q: Claim, metadata: Bytes)
    requires n.formats.Forward() && NoCollision(n.primitives, chain) && IsChain(n.primitives, chain)
    requires KnowsPath(chain, pkg) && q.height > 0
    ensures JudgeMint(n, pkg, q, metadata).Passed? <==>
              && Parse(n.formats, metadata).Parsed?
              && ShowDeposits(n.primitives, chain, pkg, q, Parse(n.formats, metadata).proofs)
    ensures JudgeMint(n, pkg, q, metadata).Passed? ==>
              var ms := Parse(n.formats, metadata).proofs;
              JudgeMint(n, pkg, q, metadata).value == (ms, ToWei(ValuesOf(ms)))
  {
    if Parse(n.formats, metadata).Parsed? {
      var ms := Parse(n.formats, metadata).proofs;
      ParsedTags(n.formats, metadata, {}, []);
      ParsedHeaderCounts(n.formats, metadata, {}, []);
      if ms != [] {
        TaggedChoice(pkg, ms);
        var c := Reference(pkg, ms[0]);
        if c.Some? && q.height <= c.value.height {
          ProofsAcceptedExactly(n.primitives, chain, c.value, pkg.key, q, ms);
        }
      }
    }
    if JudgeMint(n, pkg, q, metadata).Passed? {
      MintIsWorthItsOutputs(n, pkg, q, metadata);
    }
  }

  /** A mint passes exactly when its metadata parses to proofs that show deposits for its account at its height and
      its amount is below their value; it then becomes the peg-in with those proofs. */
  lemma MintPassesExactly(n: Node, chain: seq<Header>, pkg: Package, log: Log)
    requires n.formats.Forward() && NoCollision(n.primitives, chain) && IsChain(n.primitives, chain)
    requires KnowsPath(chain, pkg) && log.MintLog? && log.height > 0
    ensures CheckMint(n, pkg, log).Passed? <==>
              && Parse(n.formats, log.metadata).Parsed?
              && var ms := Parse(n.formats, log.metadata).proofs;
              && ShowDeposits(n.primitives, chain, pkg, Claim(log.account, log.height), ms)
              && log.amount < ToWei(ValuesOf(ms))
    ensures CheckMint(n, pkg, log).Passed? ==>
              CheckMint(n, pkg, log).value
              == PeginData(log.account, log.amount, log.height, Parse(n.formats, log.metadata).proofs)
  {
    ProofsJudgedExactly(n, chain, pkg, Claim(log.account, log.height), log.metadata);
  }

  /** A proof made from the chain itself: the headers from the deposit's block to the checkpoint, its inclusion under
      that block's root, the transaction and an output of it that pays the account. */
  ghost predicate HonestProof(e: Primitives, chain: seq<Header>, c: Checkpoint, key: Key, q: Claim, p: Proof)
    requires q.height <= c.height < |chain|
  {
    && p.headers == chain[q.height..c.height + 1]
    && Included(e, chain, q.height, p.merkleProof, p.outpoint.txid)
    && e.txid(p.tx) == p.outpoint.txid
    && p.outpoint.vout < |p.tx.outputs|
    && e.gateway(key, q.account) == Some(p.tx.outputs[p.outpoint.vout].script)
    && (!p.tx.coinbase || q.height + 100 <= c.height)
  }

  lemma HonestProofShowsDeposit(e: Primitives, chain: seq<Header>, c: Checkpoint, key: Key, q: Claim, p: Proof)
    requires IsChain(e, chain) && q.height <= c.height < |chain| && (p.version == 0 || p.version == 1)
    requires HonestProof(e, chain, c, key, q, p)
    ensures ShowsDeposit(e, chain, c, key, q, p)
  {
    ChainLeadsToCheckpoint(e, chain, c, q.height);
  }

  /** Whoever deposits on Bitcoin can mint: honest proofs of distinct outputs, encoded one after the other, pass with
      every amount below their value. */
  lemma HonestMintPasses(n: Node, chain: seq<Header>, pkg: Package, log: Log, ms: seq<Meta>)
    requires n.formats.Forward() && n.formats.RoundTrips() && AllWellTagged(n.formats, ms) && DistinctOutpoints(ms)
    requires NoCollision(n.primitives, chain) && IsChain(n.primitives, chain) && KnowsPath(chain, pkg)
    requires log.MintLog? && log.height > 0 && log.metadata == EncodeAll(n.formats, ms)
    requires ms != [] && SameReference(ms) && Reference(pkg, ms[0]).Some?
    requires log.height <= Reference(pkg, ms[0]).value.height < |chain|
    requires forall i :: 0 <= i < |ms| ==>
               HonestProof(n.primitives, chain, Reference(pkg, ms[0]).value, pkg.key, Claim(log.account, log.height),
                           ms[i].proof)
    requires log.amount < ToWei(ValuesOf(ms))
    ensures CheckMint(n, pkg, log) == Passed(PeginData(log.account, log.amount, log.height, ms))
  {
    ParseRecovers(n.formats, ms);
    MintPassesExactly(n, chain, pkg, log);
    var c, q := Reference(pkg, ms[0]).value, Claim(log.account, log.height);
    forall i | 0 <= i < |ms| ensures ShowsDeposit(n.primitives, chain, c, pkg.key, q, ms[i].proof) {
      HonestProofShowsDeposit(n.primitives, chain, c, pkg.key, q, ms[i].proof);
    }
  }

  // ---------- the run ----------

  lemma {:induction false} ChainInvariant(node: Node, chain: seq<Header>, w: World, blocks: seq<Block>)
    requires Assumptions(node, chain, blocks) && RunChain(node, w, blocks).Some?
    ensures var l := RunChain(node, w, blocks).value;
            GuardedPegins(w.heights, l.pegins, l.world.heights) && AllBacked(node.primitives, chain, l.pegins)
  {
    if blocks != [] {
      var init, b := blocks[..|blocks| - 1], blocks[|blocks| - 1];
      ChainInvariant(node, chain, w, init);
      var l := RunChain(node, w, init).value;
      var p := Execute(b.env, l.world, b.txs).progress;
      BlockIsGuarded(b.env, l.world, b.txs);
      BlockIsBacked(b.env, chain, l.world, b.txs);
      GuardedPeginsInSequence(w.heights, l.pegins, l.world.heights, p.pegins, p.world.heights);
    }
  }

  /** The same output is in one block, hence at one height, and pays one account. */
  lemma SameOutputSameMint(e: Primitives, chain: seq<Header>, d1: PeginData, p1: Proof, d2: PeginData, p2: Proof)
    requires OneBlockPerTx(e, chain) && TxidFixesOutputs(e, chain) && ScriptNamesAccount(e)
    requires BackedProof(e, chain, d1, p1) && BackedProof(e, chain, d2, p2)
    ensures p1.outpoint == p2.outpoint ==>
              d1.account == d2.account && d1.bitcoinBlockHeight == d2.bitcoinBlockHeight
  {
    if p1.outpoint == p2.outpoint {
      assert p1.tx.outputs == p2.tx.outputs;
      var k1: Key :| e.gateway(k1, d1.account) == Some(p1.tx.outputs[p1.outpoint.vout].script);
      var k2: Key :| e.gateway(k2, d2.account) == Some(p2.tx.outputs[p2.outpoint.vout].script);
    }
  }

  /** Two accepted peg-ins never use the same output: they would be two mints of one account at one height. */
  lemma OutputsNotShared(e: Primitives, chain: seq<Header>, before: map<Account, U32>, ledger: seq<PeginData>,
                         after: map<Account, U32>, i: nat, x: nat, j: nat, y: nat)
    requires OneBlockPerTx(e, chain) && TxidFixesOutputs(e, chain) && ScriptNamesAccount(e)
    requires GuardedPegins(before, ledger, after) && AllBacked(e, chain, ledger)
    requires i < j < |ledger| && x < |ledger[i].meta| && y < |ledger[j].meta|
    ensures ledger[i].meta[x].proof.outpoint != ledger[j].meta[y].proof.outpoint
  {
    assert Backed(e, chain, ledger[i]) && Backed(e, chain, ledger[j]);
    SameOutputSameMint(e, chain, ledger[i], ledger[i].meta[x].proof, ledger[j], ledger[j].meta[y].proof);
  }

  /** All outputs behind a list of peg-ins, one entry per proof. */
  function Outputs(ds: seq<PeginData>): (r: seq<(Outpoint, nat)>) {
    if ds == [] then [] else Outputs(ds[..|ds| - 1]) + OutputsOf(ds[|ds| - 1].meta)
  }

  function OutputsOf(ms: seq<Meta>): (r: seq<(Outpoint, nat)>)
    ensures |r| == |ms|
    ensures forall i :: 0 <= i < |ms| ==> r[i] == (ms[i].proof.outpoint, ValueOf(ms[i].proof))
  {
    seq(|ms|, i requires 0 <= i < |ms| => (ms[i].proof.outpoint, ValueOf(ms[i].proof)))
  }

  function Satoshis(outputs: seq<(Outpoint, nat)>): nat {
    if outputs == [] then 0 else Satoshis(outputs[..|outputs| - 1]) + outputs[|outputs| - 1].1
  }

  function Minted(ds: seq<PeginData>): nat {
    if ds == [] then 0 else Minted(ds[..|ds| - 1]) + ds[|ds| - 1].amount
  }

  ghost predicate NoneTwice(outputs: seq<(Outpoint, nat)>) {
    forall i, j :: 0 <= i < j < |outputs| ==> outputs[i].0 != outputs[j].0
  }

  lemma {:induction false} OutputOrigin(ds: seq<PeginData>, k: nat)
    requires k < |Outputs(ds)|
    ensures exists i, x :: 0 <= i < |ds| && 0 <= x < |ds[i].meta| && Outputs(ds)[k].0 == ds[i].meta[x].proof.outpoint
  {
    var init := ds[..|ds| - 1];
    if k < |Outputs(init)| {
      OutputOrigin(init, k);
      var i, x :| 0 <= i < |init| && 0 <= x < |init[i].meta| && Outputs(init)[k].0 == init[i].meta[x].proof.outpoint;
      assert ds[i] == init[i];
    } else {
      var i, x := |ds| - 1, k - |Outputs(init)|;
      assert Outputs(ds)[k].0 == ds[i].meta[x].proof.outpoint;
    }
  }

  lemma NoneTwiceAppend(a: seq<(Outpoint, nat)>, b: seq<(Outpoint, nat)>)
    requires NoneTwice(a) && NoneTwice(b)
    requires forall i, j :: 0 <= i < |a| && 0 <= j < |b| ==> a[i].0 != b[j].0
    ensures NoneTwice(a + b)
  {
  }

  lemma OutputsApart(e: Primitives, chain: seq<Header>, before: map<Account, U32>, ledger: seq<PeginData>,
                     after: map<Account, U32>, a: nat, y: nat)
    requires OneBlockPerTx(e, chain) && TxidFixesOutputs(e, chain) && ScriptNamesAccount(e)
    requires GuardedPegins(before, ledger, after) && AllBacked(e, chain, ledger) && ledger != []
    requires a < |Outputs(ledger[..|ledger| - 1])| && y < |ledger[|ledger| - 1].meta|
    ensures Outputs(ledger[..|ledger| - 1])[a].0 != ledger[|ledger| - 1].meta[y].proof.outpoint
  {
    var init := ledger[..|ledger| - 1];
    OutputOrigin(init, a);
    var i, x :| 0 <= i < |init| && 0 <= x < |init[i].meta| && Outputs(init)[a].0 == init[i].meta[x].proof.outpoint;
    OutputsNotShared(e, chain, before, ledger, after, i, x, |ledger| - 1, y);
  }

  lemma {:induction false} OutputsDistinct(e: Primitives, chain: seq<Header>, before: map<Account, U32>,
                                           ledger: seq<PeginData>, after: map<Account, U32>)
    requires OneBlockPerTx(e, chain) && TxidFixesOutputs(e, chain) && ScriptNamesAccount(e)
    requires GuardedPegins(before, ledger, after) && AllBacked(e, chain, ledger)
    ensures NoneTwice(Outputs(ledger))
  {
    if ledger != [] {
      var init, last := ledger[..|ledger| - 1], ledger[|ledger| - 1];
      OutputsDistinct(e, chain, before, init, after);
      assert Backed(e, chain, last);
      forall a, y | 0 <= a < |Outputs(init)| && 0 <= y < |OutputsOf(last.meta)|
        ensures Outputs(init)[a].0 != OutputsOf(last.meta)[y].0
      {
        OutputsApart(e, chain, before, ledger, after, a, y);
      }
      NoneTwiceAppend(Outputs(init), OutputsOf(last.meta));
    }
  }

  lemma {:induction false} SatoshisAppend(a: seq<(Outpoint, nat)>, b: seq<(Outpoint, nat)>)
    ensures Satoshis(a + b) == Satoshis(a) + Satoshis(b)
  {
    if b == [] {
      assert a + b == a;
    } else {
      assert (a + b)[..|a + b| - 1] == a + b[..|b| - 1];
      SatoshisAppend(a, b[..|b| - 1]);
    }
  }

  lemma {:induction false} SatoshisOfProofs(ms: seq<Meta>)
    ensures Satoshis(OutputsOf(ms)) == ValuesOf(ms)
  {
    if ms != [] {
      assert OutputsOf(ms)[..|ms| - 1] == OutputsOf(ms[..|ms| - 1]);
      SatoshisOfProofs(ms[..|ms| - 1]);
    }
  }

  lemma {:induction false} MintedIsCovered(e: Primitives, chain: seq<Header>, ledger: seq<PeginData>)
    requires AllBacked(e, chain, ledger)
    ensures Minted(ledger) + |ledger| <= ToWei(Satoshis(Outputs(ledger)))
  {
    if ledger != [] {
      var init, last := ledger[..|ledger| - 1], ledger[|ledger| - 1];
      MintedIsCovered(e, chain, init);
      SatoshisAppend(Outputs(init), OutputsOf(last.meta));
      SatoshisOfProofs(last.meta);
    }
  }

  // ---------- what is paid out ----------

  /** The refunds of mints in blocks with the given base fees. */
  function Refunds(prices: seq<nat>): nat {
    if prices == [] then 0 else Refunds(prices[..|prices| - 1]) + MintContract.Refund(prices[|prices| - 1])
  }

  lemma {:induction false} RefundsOfBlock(prices: seq<nat>, baseFee: nat, n: nat)
    ensures Refunds(prices + Repeated(baseFee, n)) == Refunds(prices) + n * MintContract.Refund(baseFee)
  {
    if n == 0 {
      assert prices + Repeated(baseFee, n) == prices;
    } else {
      var all := prices + Repeated(baseFee, n);
      assert all[..|all| - 1] == prices + Repeated(baseFee, n - 1);
      RefundsOfBlock(prices, baseFee, n - 1);
      MintContract.MintTerm(n - 1, MintContract.Refund(baseFee));
    }
  }

  lemma {:induction false} MintedAppend(a: seq<PeginData>, b: seq<PeginData>)
    ensures Minted(a + b) == Minted(a) + Minted(b)
  {
    if b == [] {
      assert a + b == a;
    } else {
      assert (a + b)[..|a + b| - 1] == a + b[..|b| - 1];
      MintedAppend(a, b[..|b| - 1]);
    }
  }

  /** Every mint log that passes becomes one peg-in of the same amount. */
  lemma {:induction false} MintedIsLogged(n: Node, pkg: Package, logs: seq<Log>)
    requires n.formats.Forward() && CheckMints(n, pkg, logs).Passed?
    ensures Minted(CheckMints(n, pkg, logs).value) == MintContract.Logged(logs)
    ensures |CheckMints(n, pkg, logs).value| == MintContract.Mints(logs)
  {
    if logs != [] {
      MintedIsLogged(n, pkg, logs[..|logs| - 1]);
      if logs[|logs| - 1].MintLog? {
        MintedAppend(CheckMints(n, pkg, logs[..|logs| - 1]).value, [CheckMint(n, pkg, logs[|logs| - 1]).value]);
      }
    }
  }

  /** Between the two totals the peg-ins were paid, each with its refund. */
  predicate Pays(before: nat, ds: seq<PeginData>, refund: nat, after: nat) {
    after == before + Minted(ds) + |ds| * refund
  }

  lemma PaysInSequence(a: nat, ds: seq<PeginData>, b: nat, es: seq<PeginData>, c: nat, refund: nat)
    requires Pays(a, ds, refund, b) && Pays(b, es, refund, c)
    ensures Pays(a, ds + es, refund, c)
  {
    MintedAppend(ds, es);
    assert (|ds| + |es|) * refund == |ds| * refund + |es| * refund;
  }

  /** One transaction pays out what its peg-ins mint plus their refunds; a failed or rolled back one pays nothing. */
  lemma TxPays(e: Env, p: Progress, tx: Tx)
    requires e.node.formats.Forward() && RunsContract(e) && ExecuteTx(e, p, tx).Ok?
    ensures var q := ExecuteTx(e, p, tx).progress;
            |p.pegins| <= |q.pegins| && q.pegins[..|p.pegins|] == p.pegins
            && Pays(p.world.paid, q.pegins[|p.pegins|..], MintContract.Refund(Base(e)), q.world.paid)
  {
    var q := ExecuteTx(e, p, tx).progress;
    var o := e.transact(p.world, tx);
    if o.success && CheckLogs(e.node, e.pkg, tx.hash, o.logs).Passed? {
      ContractGuards(Base(e), p.world, o.logs, o.world);
      MintedIsLogged(e.node, e.pkg, o.logs);
      assert q.pegins[|p.pegins|..] == CheckMints(e.node, e.pkg, o.logs).value;
    } else {
      assert q.pegins[|p.pegins|..] == [];
    }
  }

  lemma {:induction false} BlockPays(e: Env, w: World, txs: seq<Tx>)
    requires e.node.formats.Forward() && RunsContract(e) && Execute(e, w, txs).Ok?
    ensures var p := Execute(e, w, txs).progress;
            Pays(w.paid, p.pegins, MintContract.Refund(Base(e)), p.world.paid)
  {
    if txs != [] {
      var init := txs[..|txs| - 1];
      BlockPays(e, w, init);
      var p, q := Execute(e, w, init).progress, Execute(e, w, txs).progress;
      TxPays(e, p, txs[|txs| - 1]);
      var added := q.pegins[|p.pegins|..];
      PaysInSequence(w.paid, p.pegins, p.world.paid, added, q.world.paid, MintContract.Refund(Base(e)));
      assert q.pegins == p.pegins + added;
    }
  }

  /** What the mint contract pays out over a chain is exactly what the accepted peg-ins mint plus, for each of them,
      a refund at the base fee of its block. */
  lemma {:induction false} ChainPays(node: Node, w: World, blocks: seq<Block>)
    requires node.formats.Forward()
    requires forall i :: 0 <= i < |blocks| ==> blocks[i].env.node == node && RunsContract(blocks[i].env)
    requires RunChain(node, w, blocks).Some?
    ensures var l := RunChain(node, w, blocks).value;
            |l.prices| == |l.pegins| && l.world.paid == w.paid + Minted(l.pegins) + Refunds(l.prices)
  {
    if blocks != [] {
      var init, b := blocks[..|blocks| - 1], blocks[|blocks| - 1];
      ChainPays(node, w, init);
      var l := RunChain(node, w, init).value;
      var p := Execute(b.env, l.world, b.txs).progress;
      BlockPays(b.env, l.world, b.txs);
      MintedAppend(l.pegins, p.pegins);
      RefundsOfBlock(l.prices, Base(b.env), |p.pegins|);
    }
  }

  /** Peg-in solvency: over every chain of executed blocks no Bitcoin output backs two proofs; the contract pays out
      the logged amounts of the accepted mints plus their refunds; and the logged amounts stay, by at least one wei
      per mint, below 10^10 times the satoshis of the distinct outputs behind them. */
  lemma PeginSolvency(node: Node, chain: seq<Header>, w: World, blocks: seq<Block>)
    requires Assumptions(node, chain, blocks) && RunChain(node, w, blocks).Some?
    ensures var l := RunChain(node, w, blocks).value;
            && NoneTwice(Outputs(l.pegins))
            && l.world.paid == w.paid + Minted(l.pegins) + Refunds(l.prices)
            && Minted(l.pegins) + |l.pegins| <= ToWei(Satoshis(Outputs(l.pegins)))
            && l.world.paid + |l.pegins| <= w.paid + ToWei(Satoshis(Outputs(l.pegins))) + Refunds(l.prices)
  {
    ChainInvariant(node, chain, w, blocks);
    ChainPays(node, w, blocks);
    var l := RunChain(node, w, blocks).value;
    OutputsDistinct(node.primitives, chain, w.heights, l.pegins, l.world.heights);
    MintedIsCovered(node.primitives, chain, l.pegins);
  }

  // ---------- when the payments themselves are covered ----------

  /** What the mint pays, refund included, is covered by its own outputs. */
  predicate Covers(d: PeginData, baseFee: nat) {
    d.amount + MintContract.Refund(baseFee) <= ToWei(ValuesOf(d.meta))
  }

  lemma {:induction false} CoveredMintsAddUp(ds: seq<PeginData>, prices: seq<nat>)
    requires |ds| == |prices| && forall i :: 0 <= i < |ds| ==> Covers(ds[i], prices[i])
    ensures Minted(ds) + Refunds(prices) <= ToWei(Satoshis(Outputs(ds)))
  {
    if ds != [] {
      var init, last := ds[..|ds| - 1], ds[|ds| - 1];
      CoveredMintsAddUp(init, prices[..|ds| - 1]);
      SatoshisAppend(Outputs(init), OutputsOf(last.meta));
      SatoshisOfProofs(last.meta);
    }
  }

  /** Over every chain each of whose mints is covered by its own outputs, refund included, all that is paid out is
      covered by the distinct outputs. */
  lemma PaymentsAreCovered(node: Node, chain: seq<Header>, w: World, blocks: seq<Block>)
    requires Assumptions(node, chain, blocks) && RunChain(node, w, blocks).Some?
    requires var l := RunChain(node, w, blocks).value;
             |l.prices| == |l.pegins| && forall i :: 0 <= i < |l.pegins| ==> Covers(l.pegins[i], l.prices[i])
    ensures var l := RunChain(node, w, blocks).value;
            NoneTwice(Outputs(l.pegins)) && l.world.paid <= w.paid + ToWei(Satoshis(Outputs(l.pegins)))
  {
    PeginSolvency(node, chain, w, blocks);
    var l := RunChain(node, w, blocks).value;
    CoveredMintsAddUp(l.pegins, l.prices);
  }

  lemma {:induction false} NoFeeNoRefund(node: Node, w: World, blocks: seq<Block>)
    requires node.formats.Forward()
    requires forall i :: 0 <= i < |blocks| ==> blocks[i].env.node == node && Base(blocks[i].env) == 0
    requires RunChain(node, w, blocks).Some?
    ensures Refunds(RunChain(node, w, blocks).value.prices) == 0
  {
    if blocks != [] {
      var init, b := blocks[..|blocks| - 1], blocks[|blocks| - 1];
      NoFeeNoRefund(node, w, init);
      var l := RunChain(node, w, init).value;
      RefundsOfBlock(l.prices, 0, |Execute(b.env, l.world, b.txs).progress.pegins|);
    }
  }

  /** Over every chain of blocks without a base fee all that is paid out is covered by the distinct outputs. */
  lemma FreeChainIsCovered(node: Node, chain: seq<Header>, w: World, blocks: seq<Block>)
    requires Assumptions(node, chain, blocks) && RunChain(node, w, blocks).Some?
    requires forall i :: 0 <= i < |blocks| ==> Base(blocks[i].env) == 0
    ensures var l := RunChain(node, w, blocks).value;
            NoneTwice(Outputs(l.pegins)) && l.world.paid <= w.paid + ToWei(Satoshis(Outputs(l.pegins)))
  {
    PeginSolvency(node, chain, w, blocks);
    NoFeeNoRefund(node, w, blocks);
  }

  /** The same log with another amount. */
  function Claiming(log: Log, amount: nat): (r: Log)
    requires log.MintLog?
  {
    MintContract.MintLog(log.account, amount, log.height, log.metadata)
  }

  lemma MintIsWorthItsOutputs(n: Node, pkg: Package, q: Claim, metadata: Bytes)
    requires n.formats.Forward() && JudgeMint(n, pkg, q, metadata).Passed?
    ensures var (ms, aggregate) := JudgeMint(n, pkg, q, metadata).value;
            aggregate == ToWei(ValuesOf(ms))
  {
    var ms := JudgeMint(n, pkg, q, metadata).value.0;
    JudgedValue(n.primitives, CheckpointFor(pkg, ms[0]).value, pkg.key, q, ms);
  }

  /** Which amounts a log may claim for proofs that are acceptable at all: any below the value of the outputs. */
  lemma ClaimsPassExactly(n: Node, pkg: Package, log: Log, amount: nat)
    requires n.formats.Forward() && log.MintLog? && CheckMint(n, pkg, log).Passed?
    ensures CheckMint(n, pkg, Claiming(log, amount)).Passed? <==>
              amount < ToWei(ValuesOf(CheckMint(n, pkg, log).value.meta))
    ensures log.amount < ToWei(ValuesOf(CheckMint(n, pkg, log).value.meta))
  {
    MintIsWorthItsOutputs(n, pkg, Claim(log.account, log.height), log.metadata);
  }

  /** The refund escapes the comparison of the logged amount with the outputs: whatever amount is claimed for
      acceptable proofs, the payment is covered, if and only if the base fee is zero. */
  lemma RefundIsCoveredExactly(n: Node, pkg: Package, log: Log, baseFee: nat)
    requires n.formats.Forward() && log.MintLog? && CheckMint(n, pkg, log).Passed?
    ensures (forall a: nat :: CheckMint(n, pkg, Claiming(log, a)).Passed? ==>
               a + MintContract.Refund(baseFee) <= ToWei(ValuesOf(CheckMint(n, pkg, log).value.meta)))
            <==> baseFee == 0
  {
    var v := ToWei(ValuesOf(CheckMint(n, pkg, log).value.meta));
    ClaimsPassExactly(n, pkg, log, log.amount);
    ClaimsPassExactly(n, pkg, log, v - 1);
    forall a: nat ensures CheckMint(n, pkg, Claiming(log, a)).Passed? <==> a < v {
      ClaimsPassExactly(n, pkg, log, a);
    }
  }

  /** A call that pays `v - 1` wei plus the refund. */
  function Outpaying(log: Log, v: nat, baseFee: nat): (f: MintContract.Frame)
    requires log.MintLog? && v > 0
  {
    MintContract.PlainMint(log.account, v - 1 + MintContract.Refund(baseFee), log.height, log.metadata)
  }

  lemma OutpayingPaysMore(log: Log, v: nat, baseFee: nat, heights: map<Account, U32>)
    requires log.MintLog? && v > 0 && baseFee > 0 && HeightOf(heights, log.account) < log.height
    ensures var s := MintContract.RunFrame(Outpaying(log, v, baseFee), baseFee, MintContract.State(heights, [], 0)).1;
            s.logs == [Claiming(log, v - 1)] && s.released > v
  {
    MintContract.PlainMintPays(log.account, v - 1 + MintContract.Refund(baseFee), log.height, log.metadata, baseFee,
                               MintContract.State(heights, [], 0));
  }

  /** The largest claim that passes is one wei below the value of the outputs. */
  lemma TopClaimPasses(n: Node, pkg: Package, log: Log) returns (v: nat)
    requires n.formats.Forward() && log.MintLog? && CheckMint(n, pkg, log).Passed?
    ensures v == ToWei(ValuesOf(CheckMint(n, pkg, log).value.meta)) > 0
    ensures CheckMint(n, pkg, Claiming(log, v - 1)).Passed?
  {
    v := ToWei(ValuesOf(CheckMint(n, pkg, log).value.meta));
    ClaimsPassExactly(n, pkg, log, log.amount);
    ClaimsPassExactly(n, pkg, log, v - 1);
  }

  /** The failing case: with a positive base fee a plain call of the contract leaves a log that passes and pays out
      more than the outputs behind it hold. */
  lemma MintMayOutpayItsOutputs(n: Node, pkg: Package, log: Log, baseFee: nat, heights: map<Account, U32>)
    returns (v: nat, s: MintContract.State)
    requires n.formats.Forward() && log.MintLog? && CheckMint(n, pkg, log).Passed?
    requires baseFee > 0 && HeightOf(heights, log.account) < log.height
    ensures v == ToWei(ValuesOf(CheckMint(n, pkg, log).value.meta)) > 0
    ensures s == MintContract.RunFrame(Outpaying(log, v, baseFee), baseFee, MintContract.State(heights, [], 0)).1
    ensures s.logs == [Claiming(log, v - 1)] && CheckMint(n, pkg, Claiming(log, v - 1)).Passed?
    ensures s.released > v
  {
    v := TopClaimPasses(n, pkg, log);
    s := MintContract.RunFrame(Outpaying(log, v, baseFee), baseFee, MintContract.State(heights, [], 0)).1;
    OutpayingPaysMore(log, v, baseFee, heights);
  }
}
