/** One synchronization round against a node that may fail or reorganize between any two calls. */
module Synchronizer {
  import opened Options
  import opened BlockTree
  import opened CheckpointChain

  datatype SyncState = SyncState(window: seq<Checkpoint>, last: Option<nat>) {
    /** `last_synced_height.unwrap_or_default()` */
    function LastHeight(): nat {
      if last.None? then 0 else last.value
    }
  }

  datatype Outcome = Synced(list: seq<Checkpoint>) | RpcError | StaleBlock

  /** What a round decides to do from the two heights alone. */
  datatype Plan = NothingNew | TooYoung | NothingToFetch | Fetch(from: nat, to: nat)

  /** How many confirmed blocks a synchronizer that last saw tip `last` has behind it. */
  function ConfirmedAlready(p: Params, last: nat): nat {
    SaturatingSub(last + 1, p.lowest)
  }

  function MakePlan(p: Params, tip: nat, last: nat): (r: Plan)
    requires p.Wf()
  {
    if tip <= last then NothingNew
    else if tip < p.lowest then TooYoung
    else
      var confirmedAvailable := tip + 1 - p.lowest;
      var needToSync := SaturatingSub(confirmedAvailable, ConfirmedAlready(p, last));
      if needToSync == 0 then NothingToFetch
      else
        var blocksToSync := Min(needToSync, p.size);
        var top := SaturatingSub(tip, p.lowest - 1);
        Fetch(SaturatingSub(top, blocksToSync - 1), top)
  }

  /** Once the tip is new and deep enough, something is fetched; no subtraction saturates, the range never
      reaches below height 1, it ends at the newest confirmed block, and it is cut by the window size alone. */
  lemma RangeArithmetic(p: Params, tip: nat, last: nat)
    requires p.Wf() && last < tip && p.lowest <= tip
    ensures MakePlan(p, tip, last).Fetch?
    ensures var f := MakePlan(p, tip, last);
            && 1 <= f.from <= f.to == tip + 1 - p.lowest
            && f.to - f.from + 1 == Min(f.to - ConfirmedAlready(p, last), p.size)
            && ConfirmedAlready(p, last) < f.from
            && f.from == Max(ConfirmedAlready(p, last) + 1, if f.to < p.size then 1 else f.to - p.size + 1)
  {
  }

  /** The two calls that fetch the block at `height` from whatever chain is active at that moment. */
  function Fetched(t: Tree, rpc: Rpc, call: nat, height: nat): (c: Option<Checkpoint>)
    requires t.Wf() && Answers(t, rpc)
    ensures c.Some? ==> Genuine(t, c.value) && c.value.height == height
    ensures c.Some? ==> rpc(call).Up? && height <= t.heights[rpc(call).tip]
                        && c.value == BlockAt(t, rpc(call).tip, height)
    ensures c.None? <==> rpc(call).Down? || height > t.heights[rpc(call).tip] || rpc(call + 1).Down?
  {
    var hash := BlockHashAt(t, rpc(call), height);
    if hash.None? then None
    else
      var header := BlockHeader(t, rpc(call + 1), hash.value);
      if header.None? then None
      else Some(Checkpoint(header.value, height % 0x1_0000_0000, t.hash(header.value)))
  }

  /** Fetches and pushes heights `from..=to`, oldest first; stops at the first failure, keeping what was pushed. */
  function PushRange(size: nat, t: Tree, rpc: Rpc, call: nat, from: nat, to: nat,
                     w: seq<Checkpoint>, list: seq<Checkpoint>): (r: (Outcome, seq<Checkpoint>))
    requires t.Wf() && Answers(t, rpc)
    decreases 1 + to - from
  {
    if from > to then (Synced(list), w)
    else
      var c := Fetched(t, rpc, call, from);
      if c.None? then (RpcError, w)
      else
        var v := Pushed(size, w, c.value);
        if v.None? then (StaleBlock, w)
        else PushRange(size, t, rpc, call + 2, from + 1, to, v.value, list + [c.value])
  }

  /** `sync_new_blocks`: the first call asks for the tip height, the others fetch blocks. */
  function SyncRound(p: Params, t: Tree, rpc: Rpc, s: SyncState): (r: (Outcome, SyncState))
    requires p.Wf() && t.Wf() && Answers(t, rpc)
  {
    var count := BlockCount(t, rpc(0));
    if count.None? then (RpcError, s)
    else
      var tip := count.value;
      match MakePlan(p, tip, s.LastHeight())
      case NothingNew => (Synced([]), s)
      case TooYoung => (Synced([]), s.(last := Some(tip)))
      case NothingToFetch => (Synced([]), s.(last := Some(tip)))
      case Fetch(from, to) =>
        var (outcome, w) := PushRange(p.size, t, rpc, 1, from, to, s.window, []);
        (outcome, SyncState(w, if outcome.Synced? then Some(tip) else s.last))
  }

  /** `handle_new_blocks_sync_result`: a stale link resets everything. */
  function Handled(outcome: Outcome, s: SyncState): (r: SyncState) {
    if outcome.StaleBlock? then SyncState([], None) else s
  }

  /** A whole round as the loop runs it. */
  function Round(p: Params, t: Tree, rpc: Rpc, s: SyncState): (r: SyncState)
    requires p.Wf() && t.Wf() && Answers(t, rpc)
  {
    var (outcome, s') := SyncRound(p, t, rpc, s);
    Handled(outcome, s')
  }

  /** `BitcoinCheckpointsChainSynchronizer::new` */
  function Started(p: Params, w: seq<Checkpoint>): (s: SyncState) {
    SyncState(w, if w == [] then None else Some(Newest(w).height + p.lowest))
  }

  class BitcoinCheckpointsChainSynchronizer {
    const chain: CheckpointsChain
    var lastSyncedHeight: Option<nat>

    ghost function State(): SyncState
      reads this, chain
    {
      SyncState(chain.checkpoints, lastSyncedHeight)
    }

    constructor (chain: CheckpointsChain)
      requires chain.Valid()
      ensures this.chain == chain && State() == Started(chain.params, chain.checkpoints)
    {
      this.chain := chain;
      this.lastSyncedHeight :=
        if |chain.checkpoints| == 0 then None
        else Some(chain.checkpoints[|chain.checkpoints| - 1].height + chain.params.lowest);
    }

    /** The fetch loop of a round. */
    method PushHeights(t: Tree, rpc: Rpc, from: nat, to: nat) returns (outcome: Outcome)
      requires chain.Valid() && t.Wf() && Answers(t, rpc)
      modifies chain`checkpoints
      ensures chain.Valid()
      ensures (outcome, chain.checkpoints)
           == PushRange(chain.params.size, t, rpc, 1, from, to, old(chain.checkpoints), [])
    {
      var size := chain.params.size;
      var list, height, call := [], from, 1;
      while height <= to
        invariant chain.Valid()
        invariant PushRange(size, t, rpc, call, height, to, chain.checkpoints, list)
               == PushRange(size, t, rpc, 1, from, to, old(chain.checkpoints), [])
        decreases 1 + to - height
      {
        var c := Fetched(t, rpc, call, height);
        if c.None? { return RpcError; }
        list := list + [c.value];
        var accepted := chain.Push(c.value);
        if !accepted { return StaleBlock; }
        height, call := height + 1, call + 2;
      }
      outcome := Synced(list);
    }

    method SyncNewBlocks(t: Tree, rpc: Rpc) returns (outcome: Outcome)
      requires chain.Valid() && t.Wf() && Answers(t, rpc)
      modifies this`lastSyncedHeight, chain`checkpoints
      ensures chain.Valid()
      ensures (outcome, State()) == SyncRound(chain.params, t, rpc, old(State()))
    {
      var p := chain.params;
      var count := BlockCount(t, rpc(0));
      if count.None? { return RpcError; }
      var tip := count.value;
      var last := if lastSyncedHeight.None? then 0 else lastSyncedHeight.value;
      if tip <= last { return Synced([]); }
      if tip < p.lowest {
        lastSyncedHeight := Some(tip);
        return Synced([]);
      }
      var available := tip + 1 - p.lowest;
      var needToSync := SaturatingSub(available, SaturatingSub(last + 1, p.lowest));
      if needToSync == 0 {
        lastSyncedHeight := Some(tip);
        return Synced([]);
      }
      var blocksToSync := Min(needToSync, p.size);
      var to := SaturatingSub(tip, p.lowest - 1);
      var from := SaturatingSub(to, blocksToSync - 1);

      assert MakePlan(p, tip, last) == Fetch(from, to);
      outcome := PushHeights(t, rpc, from, to);
      if outcome.Synced? {
        lastSyncedHeight := Some(tip);
      }
    }

    /** Returns whether another round must be triggered right away. */
    method HandleResult(outcome: Outcome) returns (syncAgain: bool)
      requires chain.Valid()
      modifies this`lastSyncedHeight, chain`checkpoints
      ensures chain.Valid()
      ensures State() == Handled(outcome, old(State()))
      ensures syncAgain <==> !outcome.Synced?
    {
      if outcome.StaleBlock? {
        chain.Clear();
        lastSyncedHeight := None;
      }
      syncAgain := !outcome.Synced?;
    }
  }
}
