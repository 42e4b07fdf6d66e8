/** What every sequence of synchronization rounds keeps, whatever the node answers. */
module SyncRuns {
  import opened Options
  import opened BlockTree
  import opened CheckpointChain
  import opened Synchronizer

  /** The invariant behind all results. An empty window has nothing confirmed behind it; a window whose newest
      block is the one the recorded height stands for is full. Nothing ties the window to the recorded height
      otherwise: an interrupted round leaves it ahead, a restart on a non-empty window leaves it behind. */
  ghost predicate Inv(p: Params, t: Tree, s: SyncState) {
    && p.Wf() && IsPath(t, s.window) && |s.window| <= p.size
    && (s.window == [] ==> ConfirmedAlready(p, s.LastHeight()) == 0)
    && (s.window != [] && Newest(s.window).height == ConfirmedAlready(p, s.LastHeight())
        ==> |s.window| == Min(Newest(s.window).height, p.size))
  }

  /** Rounds one after another, each with its own answers. */
  function Rounds(p: Params, t: Tree, rpcs: seq<Rpc>, s: SyncState): (r: SyncState)
    requires p.Wf() && t.Wf() && forall i :: 0 <= i < |rpcs| ==> Answers(t, rpcs[i])
  {
    if rpcs == [] then s
    else Rounds(p, t, rpcs[1..], Round(p, t, rpcs[0], s))
  }

  /** What the fetch loop over `from..=to` leaves behind, interrupted or not. */
  ghost predicate RangeEffect(t: Tree, size: nat, from: nat, to: nat, w: seq<Checkpoint>, list: seq<Checkpoint>,
                              o: Outcome, v: seq<Checkpoint>) {
    && IsPath(t, v) && |v| <= size
    && (v == w || (v != [] && from <= Newest(v).height <= to && (w != [] ==> Newest(w).height == from - 1)))
    && (o.Synced? && from <= to ==>
          && v != [] && Newest(v).height == to
          && |v| == Min(|w| + (to - from + 1), size)
          && |o.list| == |list| + (to - from + 1)
          && (w != [] ==> Newest(w).height == from - 1))
  }

  /** Pushing one block before the rest of the range. */
  lemma RangeEffectGrows(t: Tree, size: nat, from: nat, to: nat, w: seq<Checkpoint>, c: Checkpoint,
                         u: seq<Checkpoint>, list: seq<Checkpoint>, o: Outcome, v: seq<Checkpoint>)
    requires 0 < from <= to && c.height == from && u != [] && Newest(u) == c && |u| == Min(|w| + 1, size)
    requires w != [] ==> Newest(w).height == from - 1
    requires RangeEffect(t, size, from + 1, to, u, list + [c], o, v)
    requires from == to ==> o == Synced(list + [c]) && v == u
    ensures RangeEffect(t, size, from, to, w, list, o, v)
  {
  }

  lemma {:induction false} PushRangeEffect(size: nat, t: Tree, rpc: Rpc, call: nat, from: nat, to: nat,
                                           w: seq<Checkpoint>, list: seq<Checkpoint>)
    requires Answers(t, rpc) && IsPath(t, w) && |w| <= size && 0 < size && 0 < from
    ensures var (o, v) := PushRange(size, t, rpc, call, from, to, w, list);
            RangeEffect(t, size, from, to, w, list, o, v)
    decreases 1 + to - from
  {
    if from <= to {
      var c := Fetched(t, rpc, call, from);
      if c.Some? {
        PushKeepsPath(t, size, w, c.value);
        var v := Pushed(size, w, c.value);
        if v.Some? {
          PushRangeEffect(size, t, rpc, call + 2, from + 1, to, v.value, list + [c.value]);
          var r := PushRange(size, t, rpc, call + 2, from + 1, to, v.value, list + [c.value]);
          RangeEffectGrows(t, size, from, to, w, c.value, v.value, list, r.0, r.1);
        }
      }
    }
  }

  /** A round that finds a new, deep enough tip runs the fetch loop over the range of `RangeArithmetic`. */
  lemma RoundFetches(p: Params, t: Tree, rpc: Rpc, s: SyncState) returns (f: Plan, o: Outcome, v: seq<Checkpoint>)
    requires p.Wf() && t.Wf() && Answers(t, rpc)
    requires rpc(0).Up? && s.LastHeight() < t.heights[rpc(0).tip] && p.lowest <= t.heights[rpc(0).tip]
    ensures f.Fetch? && 1 <= f.from <= f.to == t.heights[rpc(0).tip] + 1 - p.lowest
    ensures f.to - f.from + 1 == Min(f.to - ConfirmedAlready(p, s.LastHeight()), p.size)
    ensures ConfirmedAlready(p, s.LastHeight()) < f.from
    ensures (o, v) == PushRange(p.size, t, rpc, 1, f.from, f.to, s.window, [])
    ensures SyncRound(p, t, rpc, s) == (o, SyncState(v, if o.Synced? then Some(t.heights[rpc(0).tip]) else s.last))
  {
    var tip := t.heights[rpc(0).tip];
    RangeArithmetic(p, tip, s.LastHeight());
    f := MakePlan(p, tip, s.LastHeight());
    var r := PushRange(p.size, t, rpc, 1, f.from, f.to, s.window, []);
    o, v := r.0, r.1;
  }

  /** What such a round does to the state. */
  ghost predicate FetchEffect(p: Params, t: Tree, tip: nat, s: SyncState, o: Outcome, s': SyncState)
    requires p.Wf() && p.lowest <= tip
  {
    && IsPath(t, s'.window) && |s'.window| <= p.size
    && (o.Synced? ==>
          && o.list != [] && s'.last == Some(tip) && s'.window != []
          && Newest(s'.window).height == tip + 1 - p.lowest
          && |s'.window| == Min(tip + 1 - p.lowest, p.size))
    && (!o.Synced? ==>
          && s'.last == s.last
          && (s'.window == s.window
              || (s'.window != [] && ConfirmedAlready(p, s.LastHeight()) < Newest(s'.window).height)))
  }

  lemma RangeFillsWindow(p: Params, t: Tree, tip: nat, s: SyncState, f: Plan, o: Outcome, v: seq<Checkpoint>)
    requires Inv(p, t, s) && s.LastHeight() < tip && p.lowest <= tip
    requires f.Fetch? && 1 <= f.from <= f.to == tip + 1 - p.lowest
    requires f.to - f.from + 1 == Min(f.to - ConfirmedAlready(p, s.LastHeight()), p.size)
    requires ConfirmedAlready(p, s.LastHeight()) < f.from
    requires RangeEffect(t, p.size, f.from, f.to, s.window, [], o, v)
    ensures FetchEffect(p, t, tip, s, o, SyncState(v, if o.Synced? then Some(tip) else s.last))
  {
  }

  lemma FetchRound(p: Params, t: Tree, rpc: Rpc, s: SyncState)
    requires Inv(p, t, s) && Answers(t, rpc)
    requires rpc(0).Up? && s.LastHeight() < t.heights[rpc(0).tip] && p.lowest <= t.heights[rpc(0).tip]
    ensures FetchEffect(p, t, t.heights[rpc(0).tip], s, SyncRound(p, t, rpc, s).0, SyncRound(p, t, rpc, s).1)
  {
    var f, o, v := RoundFetches(p, t, rpc, s);
    PushRangeEffect(p.size, t, rpc, 1, f.from, f.to, s.window, []);
    RangeFillsWindow(p, t, t.heights[rpc(0).tip], s, f, o, v);
  }

  /** The rounds that fetch nothing. */
  lemma IdleRound(p: Params, t: Tree, rpc: Rpc, s: SyncState)
    requires p.Wf() && t.Wf() && Answers(t, rpc)
    requires rpc(0).Up? ==> t.heights[rpc(0).tip] <= s.LastHeight() || t.heights[rpc(0).tip] < p.lowest
    ensures rpc(0).Down? ==> SyncRound(p, t, rpc, s) == (RpcError, s)
    ensures rpc(0).Up? ==>
              var tip := t.heights[rpc(0).tip];
              SyncRound(p, t, rpc, s) == (Synced([]), if tip <= s.LastHeight() then s else s.(last := Some(tip)))
  {
  }

  lemma SyncFillsWindow(p: Params, t: Tree, rpc: Rpc, s: SyncState)
    requires Inv(p, t, s) && Answers(t, rpc)
    requires SyncRound(p, t, rpc, s).0.Synced? && SyncRound(p, t, rpc, s).0.list != []
    ensures rpc(0).Up? && s.LastHeight() < t.heights[rpc(0).tip] && p.lowest <= t.heights[rpc(0).tip]
    ensures var (o, s') := SyncRound(p, t, rpc, s);
            var top := t.heights[rpc(0).tip] + 1 - p.lowest;
            && s'.last == Some(t.heights[rpc(0).tip])
            && |s'.window| == Min(top, p.size)
            && IsPath(t, s'.window) && s'.window != [] && Newest(s'.window).height == top
  {
    if rpc(0).Down? || t.heights[rpc(0).tip] <= s.LastHeight() || t.heights[rpc(0).tip] < p.lowest {
      IdleRound(p, t, rpc, s);
    } else {
      FetchRound(p, t, rpc, s);
    }
  }

  /** A round that reports new checkpoints leaves exactly the newest confirmed blocks: the window ends at the
      newest block with the lowest depth and is as long as the chain and the size limit allow. */
  lemma SyncIsExact(p: Params, t: Tree, rpc: Rpc, s: SyncState)
    requires Inv(p, t, s) && Answers(t, rpc)
    requires SyncRound(p, t, rpc, s).0.Synced? && SyncRound(p, t, rpc, s).0.list != []
    ensures rpc(0).Up? && p.lowest <= t.heights[rpc(0).tip]
    ensures var (o, s') := SyncRound(p, t, rpc, s);
            var top := t.heights[rpc(0).tip] + 1 - p.lowest;
            && |s'.window| == Min(top, p.size)
            && IsPath(t, s'.window)
            && forall i :: 0 <= i < |s'.window| ==> s'.window[i].height == top - (|s'.window| - 1 - i)
  {
    SyncFillsWindow(p, t, rpc, s);
    var w := SyncRound(p, t, rpc, s).1.window;
    forall i | 0 <= i < |w| ensures w[i].height == Newest(w).height - (|w| - 1 - i) {
      HeightsCountDown(t, w, i);
    }
  }

  lemma {:induction false} HeightsCountDown(t: Tree, w: seq<Checkpoint>, i: nat)
    requires IsPath(t, w) && i < |w|
    ensures w[i].height == Newest(w).height - (|w| - 1 - i)
    decreases |w| - i
  {
    if i < |w| - 1 {
      HeightsCountDown(t, w, i + 1);
    }
  }

  ghost predicate IsTail(list: seq<Checkpoint>, w: seq<Checkpoint>) {
    |list| <= |w| && list == w[|w| - |list|..]
  }

  lemma PushKeepsTail(size: nat, w: seq<Checkpoint>, list: seq<Checkpoint>, c: Checkpoint)
    requires |w| <= size && |list| < size && IsTail(list, w) && Pushed(size, w, c).Some?
    ensures IsTail(list + [c], Pushed(size, w, c).value)
  {
    var v := Pushed(size, w, c).value;
    assert v[|v| - |list| - 1..] == list + [c];
  }

  lemma {:induction false} PushRangeReports(size: nat, t: Tree, rpc: Rpc, call: nat, from: nat, to: nat,
                                            w: seq<Checkpoint>, list: seq<Checkpoint>)
    requires t.Wf() && Answers(t, rpc) && 0 < size && |w| <= size && IsTail(list, w)
    requires from <= to ==> |list| + (to - from + 1) <= size
    ensures var (o, v) := PushRange(size, t, rpc, call, from, to, w, list);
            |v| <= size && (o.Synced? ==> IsTail(o.list, v))
    decreases 1 + to - from
  {
    if from <= to {
      var c := Fetched(t, rpc, call, from);
      if c.Some? {
        var v := Pushed(size, w, c.value);
        if v.Some? {
          PushKeepsTail(size, w, list, c.value);
          PushRangeReports(size, t, rpc, call + 2, from + 1, to, v.value, list + [c.value]);
        }
      }
    }
  }

  /** The checkpoints a round reports are exactly the newest ones of the window it leaves. */
  lemma ReportIsTail(p: Params, t: Tree, rpc: Rpc, s: SyncState)
    requires Inv(p, t, s) && Answers(t, rpc) && SyncRound(p, t, rpc, s).0.Synced?
    ensures IsTail(SyncRound(p, t, rpc, s).0.list, SyncRound(p, t, rpc, s).1.window)
  {
    if t.heights[rpc(0).tip] <= s.LastHeight() || t.heights[rpc(0).tip] < p.lowest {
      IdleRound(p, t, rpc, s);
    } else {
      var f, o, v := RoundFetches(p, t, rpc, s);
      PushRangeReports(p.size, t, rpc, 1, f.from, f.to, s.window, []);
    }
  }

  lemma RoundKeepsInv(p: Params, t: Tree, rpc: Rpc, s: SyncState)
    requires Inv(p, t, s) && Answers(t, rpc)
    ensures Inv(p, t, Round(p, t, rpc, s))
  {
    if rpc(0).Down? || t.heights[rpc(0).tip] <= s.LastHeight() || t.heights[rpc(0).tip] < p.lowest {
      IdleRound(p, t, rpc, s);
    } else {
      FetchRound(p, t, rpc, s);
    }
  }

  /** Every start is covered: an empty window, and a restart on any window of linked blocks. */
  lemma StartKeepsInv(p: Params, t: Tree, w: seq<Checkpoint>)
    requires p.Wf() && IsPath(t, w) && |w| <= p.size
    ensures Inv(p, t, Started(p, w))
  {
  }

  /** Over every run: the window is always a linked path of blocks with consecutive heights within its size. */
  lemma {:induction false} RunsKeepInv(p: Params, t: Tree, rpcs: seq<Rpc>, s: SyncState)
    requires Inv(p, t, s) && forall i :: 0 <= i < |rpcs| ==> Answers(t, rpcs[i])
    ensures Inv(p, t, Rounds(p, t, rpcs, s))
  {
    if rpcs != [] {
      RoundKeepsInv(p, t, rpcs[0], s);
      RunsKeepInv(p, t, rpcs[1..], Round(p, t, rpcs[0], s));
    }
  }

  // ---------- rounds during which the chain stays put ----------

  /** Every call of the round is answered, from one tip. */
  ghost predicate Steady(t: Tree, rpc: Rpc, tip: Hash) {
    tip in t.headers && forall i: nat :: rpc(i) == Up(tip)
  }

  /** Every call that is answered at all is answered from one tip. */
  ghost predicate OneTip(t: Tree, rpc: Rpc, tip: Hash) {
    tip in t.headers && forall i: nat :: rpc(i).Up? ==> rpc(i).tip == tip
  }

  /** The window a fully synchronized node holds for a tip. */
  function ExactWindow(p: Params, t: Tree, tip: Hash): (w: seq<Checkpoint>)
    requires p.Wf() && t.Wf() && tip in t.headers
  {
    if t.heights[tip] < p.lowest then []
    else
      var top := t.heights[tip] + 1 - p.lowest;
      Stretch(t, tip, top, Min(top, p.size))
  }

  lemma {:induction false} PushRangeNewest(size: nat, t: Tree, rpc: Rpc, call: nat, from: nat, to: nat,
                                           w: seq<Checkpoint>, list: seq<Checkpoint>, tip: Hash)
    requires t.Wf() && Answers(t, rpc) && OneTip(t, rpc, tip) && from <= to
    ensures var (o, v) := PushRange(size, t, rpc, call, from, to, w, list);
            o.Synced? ==> v != [] && to <= t.heights[tip] && Newest(v) == BlockAt(t, tip, to)
    decreases 1 + to - from
  {
    var c := Fetched(t, rpc, call, from);
    if c.Some? {
      var v := Pushed(size, w, c.value);
      if v.Some? && from < to {
        PushRangeNewest(size, t, rpc, call + 2, from + 1, to, v.value, list + [c.value], tip);
      }
    }
  }

  lemma WindowFromNewest(p: Params, t: Tree, w: seq<Checkpoint>, tip: Hash)
    requires p.Wf() && IsPath(t, w) && tip in t.headers && p.lowest <= t.heights[tip]
    requires var top := t.heights[tip] + 1 - p.lowest;
             w != [] && |w| == Min(top, p.size) && Newest(w) == BlockAt(t, tip, top)
    ensures w == ExactWindow(p, t, tip)
  {
    var e := ExactWindow(p, t, tip);
    forall i | 0 <= i < |w| ensures w[i] == e[i] {
      PathBelowAncestor(t, w, tip, i);
    }
  }

  lemma SyncEndsOnTip(p: Params, t: Tree, rpc: Rpc, s: SyncState, tip: Hash)
    requires p.Wf() && IsPath(t, s.window) && |s.window| <= p.size && Answers(t, rpc) && OneTip(t, rpc, tip)
    requires rpc(0).Up? && s.LastHeight() < t.heights[tip] && p.lowest <= t.heights[tip]
    requires SyncRound(p, t, rpc, s).0.Synced?
    ensures var w := SyncRound(p, t, rpc, s).1.window;
            w != [] && Newest(w) == BlockAt(t, tip, t.heights[tip] + 1 - p.lowest)
  {
    var f, o, v := RoundFetches(p, t, rpc, s);
    PushRangeNewest(p.size, t, rpc, 1, f.from, f.to, s.window, [], tip);
  }

  /** A round that reports new checkpoints and all of whose answers came from `tip`
      leaves exactly the window of `tip`: every block in it, old or new, is on that chain. */
  lemma SyncOnOneTip(p: Params, t: Tree, rpc: Rpc, s: SyncState, tip: Hash)
    requires Inv(p, t, s) && Answers(t, rpc) && OneTip(t, rpc, tip)
    requires SyncRound(p, t, rpc, s).0.Synced? && SyncRound(p, t, rpc, s).0.list != []
    ensures SyncRound(p, t, rpc, s).1 == SyncState(ExactWindow(p, t, tip), Some(t.heights[tip]))
  {
    SyncFillsWindow(p, t, rpc, s);
    SyncEndsOnTip(p, t, rpc, s, tip);
    WindowFromNewest(p, t, SyncRound(p, t, rpc, s).1.window, tip);
  }

  lemma {:induction false} PushRangeConnects(size: nat, t: Tree, rpc: Rpc, call: nat, from: nat, to: nat,
                                             w: seq<Checkpoint>, list: seq<Checkpoint>, tip: Hash)
    requires t.Wf() && Steady(t, rpc, tip) && IsPath(t, w) && |w| <= size && 0 < size
    requires 0 < from <= to + 1 && to <= t.heights[tip]
    requires w == [] || (Newest(w).height == from - 1 && Newest(w) == BlockAt(t, tip, from - 1))
    ensures PushRange(size, t, rpc, call, from, to, w, list).0.Synced?
    decreases 1 + to - from
  {
    if from <= to {
      var c := Fetched(t, rpc, call, from);
      ParentOfAncestor(t, tip, from);
      PushKeepsPath(t, size, w, c.value);
      PushRangeConnects(size, t, rpc, call + 2, from + 1, to, Pushed(size, w, c.value).value, list + [c.value], tip);
    }
  }

  /** A node that answers every call never makes a round fail with an RPC error. */
  lemma {:induction false} SteadyRoundNeverFails(size: nat, t: Tree, rpc: Rpc, call: nat, from: nat, to: nat,
                                                 w: seq<Checkpoint>, list: seq<Checkpoint>, tip: Hash)
    requires t.Wf() && Steady(t, rpc, tip) && to <= t.heights[tip]
    ensures !PushRange(size, t, rpc, call, from, to, w, list).0.RpcError?
    decreases 1 + to - from
  {
    if from <= to {
      var c := Fetched(t, rpc, call, from);
      var v := Pushed(size, w, c.value);
      if v.Some? {
        SteadyRoundNeverFails(size, t, rpc, call + 2, from + 1, to, v.value, list + [c.value], tip);
      }
    }
  }

  /** A round on a steady, new enough tip either reports new checkpoints or finds a stale link. */
  lemma SteadyRound(p: Params, t: Tree, s: SyncState, tip: Hash, rpc: Rpc)
    requires Inv(p, t, s) && Answers(t, rpc) && Steady(t, rpc, tip)
    requires s.LastHeight() < t.heights[tip] && p.lowest <= t.heights[tip]
    ensures var o := SyncRound(p, t, rpc, s).0;
            o.StaleBlock? || (o.Synced? && o.list != [])
    ensures s.window == [] ==> SyncRound(p, t, rpc, s).0.Synced?
  {
    var f, o, v := RoundFetches(p, t, rpc, s);
    SteadyRoundNeverFails(p.size, t, rpc, 1, f.from, f.to, s.window, [], tip);
    PushRangeEffect(p.size, t, rpc, 1, f.from, f.to, s.window, []);
    if s.window == [] {
      PushRangeConnects(p.size, t, rpc, 1, f.from, f.to, [], [], tip);
    }
  }

  /** Convergence: against a chain that stays put and a node that answers, two rounds reach the exact window from
      every state a run can leave, be it dirty, seeded, on another branch or behind by more than the window. */
  lemma TwoRoundsConverge(p: Params, t: Tree, s: SyncState, tip: Hash, rpc: Rpc, rpc': Rpc)
    requires Inv(p, t, s) && Answers(t, rpc) && Answers(t, rpc') && Steady(t, rpc, tip) && Steady(t, rpc', tip)
    requires s.LastHeight() < t.heights[tip] && p.lowest <= t.heights[tip]
    ensures Rounds(p, t, [rpc, rpc'], s) == SyncState(ExactWindow(p, t, tip), Some(t.heights[tip]))
  {
    SteadyRound(p, t, s, tip, rpc);
    var s1 := Round(p, t, rpc, s);
    if SyncRound(p, t, rpc, s).0.Synced? {
      SyncOnOneTip(p, t, rpc, s, tip);
      assert Round(p, t, rpc', s1) == s1;
    } else {
      assert s1 == SyncState([], None);
      SteadyRound(p, t, s1, tip, rpc');
      SyncOnOneTip(p, t, rpc', s1, tip);
    }
    assert [rpc, rpc'][1..] == [rpc'] && [rpc'][1..] == [];
    assert Rounds(p, t, [rpc, rpc'], s) == Rounds(p, t, [rpc'], s1) == Round(p, t, rpc', s1);
  }

  // ---------- which changes of the tip are followed ----------

  ghost predicate AllSteady(t: Tree, rpcs: seq<Rpc>, tip: Hash) {
    forall i :: 0 <= i < |rpcs| ==> Answers(t, rpcs[i]) && Steady(t, rpcs[i], tip)
  }

  lemma {:induction false} NoNewHeightNoChange(p: Params, t: Tree, s: SyncState, tip: Hash, rpcs: seq<Rpc>)
    requires p.Wf() && t.Wf() && tip in t.headers && AllSteady(t, rpcs, tip) && t.heights[tip] <= s.LastHeight()
    ensures Rounds(p, t, rpcs, s) == s
    decreases |rpcs|
  {
    if rpcs != [] {
      IdleRound(p, t, rpcs[0], s);
      NoNewHeightNoChange(p, t, s, tip, rpcs[1..]);
    }
  }

  /** The state after a completed synchronization with `tip`. */
  function SyncedTo(p: Params, t: Tree, tip: Hash): (s: SyncState)
    requires p.Wf() && t.Wf() && tip in t.headers
  {
    SyncState(ExactWindow(p, t, tip), Some(t.heights[tip]))
  }

  lemma ExactWindowIsReachable(p: Params, t: Tree, tip: Hash)
    requires p.Wf() && t.Wf() && tip in t.headers
    ensures Inv(p, t, SyncedTo(p, t, tip))
  {
    var w := ExactWindow(p, t, tip);
    forall i | 0 < i < |w| ensures w[i].header.prev == w[i - 1].hash {
      ParentOfAncestor(t, tip, w[i].height);
    }
  }

  /** The newest confirmed block of a tip. */
  function NewestConfirmed(p: Params, t: Tree, tip: Hash): (h: Hash)
    requires p.Wf() && t.Wf() && tip in t.headers && p.lowest <= t.heights[tip]
  {
    t.AncestorAt(tip, t.heights[tip] + 1 - p.lowest)
  }

  lemma WindowsAgreeExactly(p: Params, t: Tree, a: Hash, b: Hash)
    requires p.Wf() && t.Wf() && a in t.headers && b in t.headers
    requires p.lowest <= t.heights[a] && p.lowest <= t.heights[b]
    ensures ExactWindow(p, t, a) == ExactWindow(p, t, b) <==> NewestConfirmed(p, t, a) == NewestConfirmed(p, t, b)
  {
    NewestOfExactWindow(p, t, a);
    NewestOfExactWindow(p, t, b);
    if NewestConfirmed(p, t, a) == NewestConfirmed(p, t, b) {
      ExactWindowIsReachable(p, t, a);
      WindowFromNewest(p, t, ExactWindow(p, t, a), b);
    }
  }

  lemma NewestOfExactWindow(p: Params, t: Tree, tip: Hash)
    requires p.Wf() && t.Wf() && tip in t.headers && p.lowest <= t.heights[tip]
    ensures var w, top := ExactWindow(p, t, tip), t.heights[tip] + 1 - p.lowest;
            && |w| == Min(top, p.size) && w != [] && Newest(w) == BlockAt(t, tip, top)
            && Newest(w).hash == NewestConfirmed(p, t, tip) && t.heights[NewestConfirmed(p, t, tip)] == top
  {
  }

  /** A synchronized node whose tip moves from `a` to `b` and stays there ends up with the window of `b`, within two
      rounds and for good, exactly when `b` is higher than `a` or has the same newest confirmed block: a switch to
      another branch that is no higher goes unnoticed. */
  lemma SwitchIsFollowedExactly(p: Params, t: Tree, a: Hash, b: Hash, rpcs: seq<Rpc>)
    requires p.Wf() && t.Wf() && a in t.headers && b in t.headers && AllSteady(t, rpcs, b) && |rpcs| >= 2
    requires p.lowest <= t.heights[a] && p.lowest <= t.heights[b]
    ensures Rounds(p, t, rpcs, SyncedTo(p, t, a)).window == ExactWindow(p, t, b) <==>
              t.heights[a] < t.heights[b] || NewestConfirmed(p, t, a) == NewestConfirmed(p, t, b)
  {
    var s := SyncedTo(p, t, a);
    if t.heights[a] < t.heights[b] {
      ExactWindowIsReachable(p, t, a);
      TwoRoundsConverge(p, t, s, b, rpcs[0], rpcs[1]);
      RoundsSplit(p, t, rpcs, s);
      NoNewHeightNoChange(p, t, SyncedTo(p, t, b), b, rpcs[2..]);
    } else {
      NoNewHeightNoChange(p, t, s, b, rpcs);
      WindowsAgreeExactly(p, t, a, b);
    }
  }

  lemma RoundsSplit(p: Params, t: Tree, rpcs: seq<Rpc>, s: SyncState)
    requires p.Wf() && t.Wf() && |rpcs| >= 2 && forall i :: 0 <= i < |rpcs| ==> Answers(t, rpcs[i])
    ensures Rounds(p, t, rpcs, s) == Rounds(p, t, rpcs[2..], Rounds(p, t, [rpcs[0], rpcs[1]], s))
  {
    var two := [rpcs[0], rpcs[1]];
    assert two[1..] == [rpcs[1]] && [rpcs[1]][1..] == [];
    var s1 := Round(p, t, rpcs[0], s);
    assert Rounds(p, t, two, s) == Rounds(p, t, [rpcs[1]], s1) == Round(p, t, rpcs[1], s1);
    assert rpcs[1..][1..] == rpcs[2..];
    assert Rounds(p, t, rpcs[1..], s1) == Rounds(p, t, rpcs[2..], Round(p, t, rpcs[1], s1));
  }

  /** In an exact window, depth `d` finds the block with exactly `d` confirmations, and nothing is found exactly
      when `d` is outside the configured window or the chain above genesis is shorter than `d`. */
  lemma DepthLookup(p: Params, t: Tree, tip: Hash, d: nat)
    requires p.Wf() && t.Wf() && tip in t.headers
    ensures AtDepth(p, ExactWindow(p, t, tip), d).Some? <==> p.lowest <= d <= p.highest && d <= t.heights[tip]
    ensures p.lowest <= d <= p.highest && d <= t.heights[tip] ==>
              AtDepth(p, ExactWindow(p, t, tip), d) == Some(BlockAt(t, tip, t.heights[tip] + 1 - d))
  {
  }
}
