/** Peg-outs over every chain of executed blocks: distinct ids, and no more released than burned. */
module Pegouts {
  import opened Bytes
  import opened Amounts
  import opened PegoutIds
  import opened MintChecks
  import opened BlockExecution
  import opened Solvency

  function HashesOf(txs: seq<Tx>): (hs: seq<Bytes32>)
    ensures |hs| == |txs|
    ensures forall i :: 0 <= i < |txs| ==> hs[i] == txs[i].hash
  {
    seq(|txs|, i requires 0 <= i < |txs| => txs[i].hash)
  }

  /** The hashes of all transactions of a chain, in order. */
  function Hashes(blocks: seq<Block>): (hs: seq<Bytes32>) {
    if blocks == [] then [] else Hashes(blocks[..|blocks| - 1]) + HashesOf(blocks[|blocks| - 1].txs)
  }

  ghost predicate AllDifferent(hs: seq<Bytes32>) {
    forall i, j :: 0 <= i < j < |hs| ==> hs[i] != hs[j]
  }

  ghost predicate DistinctIds(ps: seq<Pegout>) {
    forall i, j :: 0 <= i < j < |ps| ==> ps[i].id != ps[j].id
  }

  /** The ids are pairwise distinct and name transactions of the list. */
  ghost predicate IdsWithin(ps: seq<Pegout>, hs: seq<Bytes32>) {
    DistinctIds(ps) && forall i :: 0 <= i < |ps| ==> ps[i].id.txid in hs
  }

  lemma IdsWithinAppend(ps: seq<Pegout>, hs: seq<Bytes32>, qs: seq<Pegout>, ks: seq<Bytes32>)
    requires IdsWithin(ps, hs) && IdsWithin(qs, ks) && AllDifferent(hs + ks)
    ensures IdsWithin(ps + qs, hs + ks)
  {
    var all := ps + qs;
    forall i | 0 <= i < |all| ensures all[i].id.txid in hs + ks {
      if i < |ps| { assert all[i] == ps[i]; } else { assert all[i] == qs[i - |ps|]; }
    }
    forall i, j | 0 <= i < |ps| && 0 <= j < |qs| ensures ps[i].id != qs[j].id {
      assert ps[i].id.txid in hs && qs[j].id.txid in ks;
      var x :| 0 <= x < |hs| && hs[x] == ps[i].id.txid;
      var y :| 0 <= y < |ks| && ks[y] == qs[j].id.txid;
      assert (hs + ks)[x] == hs[x] && (hs + ks)[|hs| + y] == ks[y];
    }
    forall i, j | 0 <= i < j < |all| ensures all[i].id != all[j].id {
      if j < |ps| {
        assert all[i] == ps[i] && all[j] == ps[j];
      } else if i < |ps| {
        assert all[i] == ps[i] && all[j] == qs[j - |ps|];
      } else {
        assert all[i] == qs[i - |ps|] && all[j] == qs[j - |ps|];
      }
    }
  }

  lemma AllDifferentPrefix(hs: seq<Bytes32>, ks: seq<Bytes32>)
    requires AllDifferent(hs + ks)
    ensures AllDifferent(hs) && AllDifferent(ks)
  {
    forall i, j | 0 <= i < j < |hs| ensures hs[i] != hs[j] {
      assert (hs + ks)[i] == hs[i] && (hs + ks)[j] == hs[j];
    }
    forall i, j | 0 <= i < j < |ks| ensures ks[i] != ks[j] {
      assert (hs + ks)[|hs| + i] == ks[i] && (hs + ks)[|hs| + j] == ks[j];
    }
  }

  /** A receipt never holds more logs than a 32-bit index can number. */
  ghost predicate FewLogs(e: Env) {
    forall w: World, tx: Tx :: e.transact(w, tx).Executed? ==> |e.transact(w, tx).logs| <= 0x1_0000_0000
  }

  /** What one transaction adds carries its own hash. */
  lemma TxIds(e: Env, p: Progress, tx: Tx)
    requires e.node.formats.Forward() && FewLogs(e) && ExecuteTx(e, p, tx).Ok?
    ensures var q := ExecuteTx(e, p, tx).progress;
            |p.pegouts| <= |q.pegouts| && q.pegouts[..|p.pegouts|] == p.pegouts
            && IdsWithin(q.pegouts[|p.pegouts|..], [tx.hash])
  {
    var o := e.transact(p.world, tx);
    if o.success && CheckLogs(e.node, e.pkg, tx.hash, o.logs).Passed? {
      PegoutIdsPointAtBurns(e.node, tx.hash, o.logs);
      var q := ExecuteTx(e, p, tx).progress;
      assert q.pegouts[|p.pegouts|..] == CheckBurns(e.node, tx.hash, o.logs).value;
    }
  }

  lemma {:induction false} BlockIds(e: Env, w: World, txs: seq<Tx>)
    requires e.node.formats.Forward() && FewLogs(e) && Execute(e, w, txs).Ok? && AllDifferent(HashesOf(txs))
    ensures IdsWithin(Execute(e, w, txs).progress.pegouts, HashesOf(txs))
  {
    if txs != [] {
      var init, last := txs[..|txs| - 1], txs[|txs| - 1];
      assert HashesOf(txs) == HashesOf(init) + [last.hash];
      AllDifferentPrefix(HashesOf(init), [last.hash]);
      BlockIds(e, w, init);
      var p, q := Execute(e, w, init).progress, Execute(e, w, txs).progress;
      TxIds(e, p, last);
      IdsWithinAppend(p.pegouts, HashesOf(init), q.pegouts[|p.pegouts|..], [last.hash]);
      assert q.pegouts == p.pegouts + q.pegouts[|p.pegouts|..];
    }
  }

  lemma {:induction false} ChainIds(node: Node, w: World, blocks: seq<Block>)
    requires node.formats.Forward() && RunnableOn(node, blocks) && RunChain(node, w, blocks).Some?
    requires AllDifferent(Hashes(blocks))
    ensures IdsWithin(RunChain(node, w, blocks).value.pegouts, Hashes(blocks))
  {
    if blocks != [] {
      var init, b := blocks[..|blocks| - 1], blocks[|blocks| - 1];
      AllDifferentPrefix(Hashes(init), HashesOf(b.txs));
      ChainIds(node, w, init);
      var l := RunChain(node, w, init).value;
      BlockIds(b.env, l.world, b.txs);
      IdsWithinAppend(l.pegouts, Hashes(init), Execute(b.env, l.world, b.txs).progress.pegouts, HashesOf(b.txs));
    }
  }

  ghost predicate RunnableOn(node: Node, blocks: seq<Block>) {
    forall i :: 0 <= i < |blocks| ==> blocks[i].env.node == node && FewLogs(blocks[i].env)
  }

  /** Over every chain with distinct transaction hashes, no two peg-outs share an id, nor its 36-byte form. */
  lemma PegoutIdsAreUnique(node: Node, w: World, blocks: seq<Block>)
    requires node.formats.Forward() && RunnableOn(node, blocks) && RunChain(node, w, blocks).Some?
    requires AllDifferent(Hashes(blocks))
    ensures var ps := RunChain(node, w, blocks).value.pegouts;
            forall i, j :: 0 <= i < j < |ps| ==> ps[i].id != ps[j].id && AsBytes(ps[i].id) != AsBytes(ps[j].id)
  {
    ChainIds(node, w, blocks);
    var ps := RunChain(node, w, blocks).value.pegouts;
    forall i, j | 0 <= i < j < |ps| ensures AsBytes(ps[i].id) != AsBytes(ps[j].id) {
      if AsBytes(ps[i].id) == AsBytes(ps[j].id) {
        IdBytesInjective(ps[i].id, ps[j].id);
      }
    }
  }

  // ---------- released against burned ----------

  /** What the successful receipts of a block burned, in wei. */
  function BurnedIn(receipts: seq<Receipt>): (n: nat) {
    if receipts == [] then 0 else BurnedIn(receipts[..|receipts| - 1]) + BurnedBy(receipts[|receipts| - 1])
  }

  lemma {:induction false} ReleasedAppend(a: seq<Pegout>, b: seq<Pegout>)
    ensures Released(a + b) == Released(a) + Released(b)
  {
    if b == [] {
      assert a + b == a;
    } else {
      assert (a + b)[..|a + b| - 1] == a + b[..|b| - 1];
      ReleasedAppend(a, b[..|b| - 1]);
    }
  }

  /** What one receipt burned, in wei. */
  function BurnedBy(r: Receipt): (n: nat) {
    if r.success then Burned(r.logs) else 0
  }

  lemma BurnedAppend(receipts: seq<Receipt>, r: Receipt)
    ensures BurnedIn(receipts + [r]) == BurnedIn(receipts) + BurnedBy(r)
  {
    assert (receipts + [r])[..|receipts|] == receipts;
  }

  /** The peg-outs release at most what was burned, and more than that without 10^10 wei for each of them. */
  predicate ReleasesBurned(ps: seq<Pegout>, burned: nat) {
    Released(ps) <= burned && burned + |ps| <= Released(ps) + ToWei(|ps|)
  }

  lemma ReleasesAppend(ps: seq<Pegout>, a: nat, qs: seq<Pegout>, b: nat)
    requires ReleasesBurned(ps, a) && ReleasesBurned(qs, b)
    ensures ReleasesBurned(ps + qs, a + b)
  {
    ReleasedAppend(ps, qs);
  }

  /** The receipt and the peg-outs one transaction adds: they release what the receipt burned, in whole satoshis. */
  lemma TxReleases(e: Env, p: Progress, tx: Tx) returns (r: Receipt, added: seq<Pegout>)
    requires e.node.formats.Forward() && ExecuteTx(e, p, tx).Ok?
    ensures ExecuteTx(e, p, tx).progress.receipts == p.receipts + [r]
    ensures ExecuteTx(e, p, tx).progress.pegouts == p.pegouts + added
    ensures ReleasesBurned(added, BurnedBy(r))
  {
    TxPegs(e, p, tx);
    var q := ExecuteTx(e, p, tx).progress;
    r := q.receipts[|p.receipts|];
    assert q.receipts == q.receipts[..|p.receipts|] + [r];
    added := [];
    if r.success {
      added := CheckBurns(e.node, tx.hash, r.logs).value;
      PegoutsCovered(e.node, tx.hash, r.logs);
    }
  }

  /** The peg-outs of a block release what its successful transactions burned, up to less than a satoshi each. */
  lemma {:induction false} ReleasedIsBurned(e: Env, w: World, txs: seq<Tx>)
    requires e.node.formats.Forward() && Execute(e, w, txs).Ok?
    ensures var p := Execute(e, w, txs).progress;
            ReleasesBurned(p.pegouts, BurnedIn(p.receipts))
  {
    if txs != [] {
      var init := txs[..|txs| - 1];
      ReleasedIsBurned(e, w, init);
      var p := Execute(e, w, init).progress;
      var r, added := TxReleases(e, p, txs[|txs| - 1]);
      ReleasesAppend(p.pegouts, BurnedIn(p.receipts), added, BurnedBy(r));
      BurnedAppend(p.receipts, r);
    }
  }

  /** What the successful transactions of a chain burned, in wei. */
  function BurnedOver(node: Node, w: World, blocks: seq<Block>): (n: nat)
    requires node.formats.Forward() && forall i :: 0 <= i < |blocks| ==> blocks[i].env.node == node
    requires RunChain(node, w, blocks).Some?
  {
    if blocks == [] then 0
    else
      var init, b := blocks[..|blocks| - 1], blocks[|blocks| - 1];
      BurnedOver(node, w, init) + BurnedIn(Execute(b.env, RunChain(node, w, init).value.world, b.txs).progress.receipts)
  }

  /** Over every chain the peg-outs release what was burned: never more, and less by under 10^10 wei for each. */
  lemma {:induction false} ChainReleasesWhatWasBurned(node: Node, w: World, blocks: seq<Block>)
    requires node.formats.Forward() && forall i :: 0 <= i < |blocks| ==> blocks[i].env.node == node
    requires RunChain(node, w, blocks).Some?
    ensures ReleasesBurned(RunChain(node, w, blocks).value.pegouts, BurnedOver(node, w, blocks))
  {
    if blocks != [] {
      var init, b := blocks[..|blocks| - 1], blocks[|blocks| - 1];
      ChainReleasesWhatWasBurned(node, w, init);
      var l := RunChain(node, w, init).value;
      var p := Execute(b.env, l.world, b.txs).progress;
      ReleasedIsBurned(b.env, l.world, b.txs);
      ReleasesAppend(l.pegouts, BurnedOver(node, w, init), p.pegouts, BurnedIn(p.receipts));
    }
  }
}
