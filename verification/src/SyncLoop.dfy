/** The event loop around the rounds: a one-slot wake-up channel whose sends are dropped when it is full. */
module SyncLoop {
  import opened Options
  import opened BlockTree
  import opened CheckpointChain
  import opened Synchronizer
  import opened SyncRuns

  /** `Syncing(start)`: a token was taken while `tips[start]` was active. */
  datatype Phase = Starting | Waiting | Syncing(start: nat)

  /** A finished round: where it began, how it ended and the state it began with. */
  datatype RoundLog = RoundLog(start: nat, succeeded: bool, before: SyncState)

  /** `tips` lists every active tip so far, the current one last; `announced` is the position of the tip that was
      active when the latest block notification arrived. */
  datatype Loop = Loop(
    slot: bool, phase: Phase, sync: SyncState,
    tips: seq<Hash>, announced: Option<nat>, lastRound: Option<RoundLog>)

  datatype Event =
    | NewTip(tip: Hash)                       // Bitcoin moves on
    | Notification                            // a block hash message reaches the stream handler
    | FirstTrigger                            // the trigger before the loop
    | TakeToken                               // the loop receives
    | RoundEnds(seen: nat -> Option<nat>)     // which tip each call of the round saw, `None` for a failed call

  /** The calls of a round see tips that were active during the round, in order. */
  ghost predicate SeenDuring(l: Loop, start: nat, seen: nat -> Option<nat>) {
    && (forall i: nat :: seen(i).Some? ==> start <= seen(i).value < |l.tips|)
    && (forall i: nat, j: nat :: i <= j && seen(i).Some? && seen(j).Some? ==> seen(i).value <= seen(j).value)
  }

  function Replies(l: Loop, seen: nat -> Option<nat>): Rpc {
    (i: nat) => if seen(i).None? || seen(i).value >= |l.tips| then Down else Up(l.tips[seen(i).value])
  }

  ghost predicate Enabled(t: Tree, l: Loop, e: Event) {
    match e
    case NewTip(tip) => tip in t.headers
    case Notification => true
    case FirstTrigger => l.phase.Starting?
    case TakeToken => l.phase.Waiting? && l.slot
    case RoundEnds(seen) => l.phase.Syncing? && SeenDuring(l, l.phase.start, seen)
  }

  /** `try_send` on a channel of capacity one: the slot is full afterwards, whether or not this send was dropped. */
  function TrySend(l: Loop): Loop {
    l.(slot := true)
  }

  function Step(p: Params, t: Tree, l: Loop, e: Event): (l': Loop)
    requires p.Wf() && Shape(t, l) && Enabled(t, l, e)
  {
    match e
    case NewTip(tip) => l.(tips := l.tips + [tip])
    case Notification => TrySend(l).(announced := Some(|l.tips| - 1))
    case FirstTrigger => TrySend(l).(phase := Waiting)
    case TakeToken => l.(slot := false, phase := Syncing(|l.tips| - 1))
    case RoundEnds(seen) =>
      RepliesAnswer(t, l, seen);
      var (outcome, s) := SyncRound(p, t, Replies(l, seen), l.sync);
      AfterRound(l, outcome, s)
  }

  /** The loop back at its receive, with a token of its own when the round failed. */
  function AfterRound(l: Loop, outcome: Outcome, s: SyncState): (l': Loop)
    requires l.phase.Syncing?
  {
    var l' := l.(phase := Waiting, sync := Handled(outcome, s),
                 lastRound := Some(RoundLog(l.phase.start, outcome.Synced?, l.sync)));
    if outcome.Synced? then l' else TrySend(l')
  }

  ghost predicate Shape(t: Tree, l: Loop) {
    && t.Wf() && l.tips != []
    && (forall i :: 0 <= i < |l.tips| ==> l.tips[i] in t.headers)
    && (l.announced.Some? ==> l.announced.value < |l.tips|)
    && (l.phase.Syncing? ==> l.phase.start < |l.tips|)
  }

  lemma RepliesAnswer(t: Tree, l: Loop, seen: nat -> Option<nat>)
    requires Shape(t, l)
    ensures Answers(t, Replies(l, seen))
  {
  }

  /** The loop as it is created, around a synchronizer in any state the invariant of rounds allows. */
  ghost predicate Initial(p: Params, t: Tree, l: Loop) {
    && Shape(t, l) && Inv(p, t, l.sync)
    && !l.slot && l.phase.Starting? && l.announced.None? && l.lastRound.None?
  }

  /** A run: every event is enabled where it happens. */
  ghost predicate IsRun(p: Params, t: Tree, l: Loop, es: seq<Event>, l': Loop)
    requires p.Wf() && Shape(t, l)
    decreases |es|
  {
    if es == [] then l == l'
    else
      && Enabled(t, l, es[0])
      && Shape(t, Step(p, t, l, es[0]))
      && IsRun(p, t, Step(p, t, l, es[0]), es[1..], l')
  }

  // ---------- no lost wake-up ----------

  /** The latest notification is covered by a token still in the slot or by a round that began after it. */
  ghost predicate Covered(l: Loop, start: nat) {
    l.slot || l.announced.None? || l.announced.value <= start
  }

  ghost predicate LoopInv(p: Params, t: Tree, l: Loop) {
    && Shape(t, l) && Inv(p, t, l.sync)
    && (l.phase.Waiting? && !l.slot ==>
          l.lastRound.Some? && l.lastRound.value.succeeded && Covered(l, l.lastRound.value.start))
    && (l.phase.Syncing? ==> Covered(l, l.phase.start))
  }

  lemma StepKeepsLoopInv(p: Params, t: Tree, l: Loop, e: Event)
    requires p.Wf() && LoopInv(p, t, l) && Enabled(t, l, e)
    ensures LoopInv(p, t, Step(p, t, l, e))
  {
    if e.RoundEnds? {
      RepliesAnswer(t, l, e.seen);
      RoundKeepsInv(p, t, Replies(l, e.seen), l.sync);
    }
  }

  lemma {:induction false} RunKeepsLoopInv(p: Params, t: Tree, l: Loop, es: seq<Event>, l': Loop)
    requires p.Wf() && LoopInv(p, t, l) && IsRun(p, t, l, es, l')
    ensures LoopInv(p, t, l')
    decreases |es|
  {
    if es != [] {
      StepKeepsLoopInv(p, t, l, es[0]);
      RunKeepsLoopInv(p, t, Step(p, t, l, es[0]), es[1..], l');
    }
  }

  /** Event `j` takes the token of the last round, which ends at event `k`; no notification has arrived since `j`. */
  ghost predicate LastRoundServesAll(es: seq<Event>, j: nat, k: nat) {
    && j < k < |es| && es[j].TakeToken? && es[k].RoundEnds?
    && (forall i :: j < i < |es| ==> !es[i].TakeToken? && !es[i].Notification?)
    && (forall i :: j < i < |es| && i != k ==> !es[i].RoundEnds?)
  }

  ghost predicate TakesNone(es: seq<Event>) {
    forall i :: 0 <= i < |es| ==> !es[i].TakeToken?
  }

  /** Only taking the token empties the slot; a send of any kind leaves it full. */
  lemma SlotAfter(p: Params, t: Tree, l: Loop, e: Event)
    requires p.Wf() && Shape(t, l) && Enabled(t, l, e) && !e.TakeToken?
    ensures l.slot || e.Notification? || e.FirstTrigger? ==> Step(p, t, l, e).slot
  {
  }

  lemma PhaseAfter(p: Params, t: Tree, l: Loop, e: Event)
    requires p.Wf() && Shape(t, l) && Enabled(t, l, e)
    ensures Step(p, t, l, e).phase ==
              match e
              case FirstTrigger => Waiting
              case TakeToken => Syncing(|l.tips| - 1)
              case RoundEnds(_) => Waiting
              case NewTip(_) => l.phase
              case Notification => l.phase
  {
  }

  lemma {:induction false} NoTokenNoNotification(p: Params, t: Tree, l: Loop, es: seq<Event>, l': Loop)
    requires p.Wf() && Shape(t, l) && IsRun(p, t, l, es, l') && TakesNone(es) && !l'.slot
    ensures !l.slot && forall i :: 0 <= i < |es| ==> !es[i].Notification? && !es[i].FirstTrigger?
    ensures l.phase.Starting? ==> l'.phase.Starting?
    decreases |es|
  {
    if es != [] {
      SlotAfter(p, t, l, es[0]);
      PhaseAfter(p, t, l, es[0]);
      NoTokenNoNotification(p, t, Step(p, t, l, es[0]), es[1..], l');
      forall i | 0 < i < |es| ensures !es[i].Notification? && !es[i].FirstTrigger? {
        assert es[i] == es[1..][i - 1];
      }
    }
  }

  lemma {:induction false} NoTokenNoRound(p: Params, t: Tree, l: Loop, es: seq<Event>, l': Loop)
    requires p.Wf() && Shape(t, l) && IsRun(p, t, l, es, l') && TakesNone(es) && l.phase.Waiting?
    ensures forall i :: 0 <= i < |es| ==> !es[i].RoundEnds?
    decreases |es|
  {
    if es != [] {
      PhaseAfter(p, t, l, es[0]);
      NoTokenNoRound(p, t, Step(p, t, l, es[0]), es[1..], l');
      forall i | 0 < i < |es| ensures !es[i].RoundEnds? {
        assert es[i] == es[1..][i - 1];
      }
    }
  }

  lemma {:induction false} OneRoundEnds(p: Params, t: Tree, l: Loop, es: seq<Event>, l': Loop) returns (k: nat)
    requires p.Wf() && Shape(t, l) && IsRun(p, t, l, es, l') && TakesNone(es)
    requires l.phase.Syncing? && l'.phase.Waiting?
    ensures k < |es| && es[k].RoundEnds? && forall i :: 0 <= i < |es| && i != k ==> !es[i].RoundEnds?
    decreases |es|
  {
    PhaseAfter(p, t, l, es[0]);
    var rest := es[1..];
    if es[0].RoundEnds? {
      k := 0;
      NoTokenNoRound(p, t, Step(p, t, l, es[0]), rest, l');
    } else {
      var k' := OneRoundEnds(p, t, Step(p, t, l, es[0]), rest, l');
      k := k' + 1;
    }
    forall i | 0 < i < |es| && i != k ensures !es[i].RoundEnds? {
      assert es[i] == rest[i - 1];
    }
  }

  lemma {:induction false} LastTokenServes(p: Params, t: Tree, l: Loop, es: seq<Event>, l': Loop)
    returns (j: nat, k: nat)
    requires p.Wf() && Shape(t, l) && IsRun(p, t, l, es, l') && !TakesNone(es)
    requires l'.phase.Waiting? && !l'.slot
    ensures LastRoundServesAll(es, j, k)
    decreases |es|
  {
    var rest, mid := es[1..], Step(p, t, l, es[0]);
    if TakesNone(rest) {
      j := 0;
      PhaseAfter(p, t, l, es[0]);
      NoTokenNoNotification(p, t, mid, rest, l');
      var k' := OneRoundEnds(p, t, mid, rest, l');
      k := k' + 1;
    } else {
      var j', k' := LastTokenServes(p, t, mid, rest, l');
      j, k := j' + 1, k' + 1;
    }
    forall i | j < i < |es| ensures es[i] == rest[i - 1] {}
  }

  /** No wake-up is lost, although any number of sends may have been dropped: whenever the loop waits on an empty
      channel, its last round succeeded, and no notification has arrived since that round took its token. In terms of
      the tips, the tip of the latest notification was active no later than the one the round began on. */
  lemma NoLostWakeUp(p: Params, t: Tree, l: Loop, es: seq<Event>, l': Loop)
    requires p.Wf() && Initial(p, t, l) && IsRun(p, t, l, es, l')
    requires l'.phase.Waiting? && !l'.slot
    ensures exists j: nat, k: nat :: LastRoundServesAll(es, j, k)
    ensures l'.lastRound.Some? && l'.lastRound.value.succeeded
    ensures l'.announced.Some? ==> l'.announced.value <= l'.lastRound.value.start
  {
    RunKeepsLoopInv(p, t, l, es, l');
    if TakesNone(es) {
      NoTokenNoNotification(p, t, l, es, l');
    } else {
      var j, k := LastTokenServes(p, t, l, es, l');
    }
  }

  // ---------- arbitrary tips ----------

  /** What a successful round on one tip does, whatever state it began with. */
  function AfterOneTip(p: Params, t: Tree, before: SyncState, tip: Hash): (s: SyncState)
    requires p.Wf() && t.Wf() && tip in t.headers
  {
    if t.heights[tip] <= before.LastHeight() then before
    else if t.heights[tip] < p.lowest then before.(last := Some(t.heights[tip]))
    else SyncedTo(p, t, tip)
  }

  /** If the last round succeeded and began on the current tip, it decides the state. */
  ghost predicate DecidedInv(p: Params, t: Tree, l: Loop)
    requires p.Wf()
  {
    && LoopInv(p, t, l)
    && (l.lastRound.Some? ==> l.lastRound.value.start < |l.tips|)
    && (l.lastRound.Some? && l.lastRound.value.succeeded && l.lastRound.value.start == |l.tips| - 1 ==>
          l.sync == AfterOneTip(p, t, l.lastRound.value.before, Current(l)))
  }

  lemma OneTipRound(p: Params, t: Tree, rpc: Rpc, s: SyncState, tip: Hash)
    requires Inv(p, t, s) && Answers(t, rpc) && OneTip(t, rpc, tip) && SyncRound(p, t, rpc, s).0.Synced?
    ensures SyncRound(p, t, rpc, s).1 == AfterOneTip(p, t, s, tip)
  {
    if rpc(0).Down? || t.heights[tip] <= s.LastHeight() || t.heights[tip] < p.lowest {
      IdleRound(p, t, rpc, s);
    } else {
      FetchRound(p, t, rpc, s);
      SyncOnOneTip(p, t, rpc, s, tip);
    }
  }

  lemma LateRepliesAreCurrent(t: Tree, l: Loop, seen: nat -> Option<nat>)
    requires Shape(t, l) && SeenDuring(l, |l.tips| - 1, seen)
    ensures Answers(t, Replies(l, seen)) && OneTip(t, Replies(l, seen), Current(l))
  {
    RepliesAnswer(t, l, seen);
    forall i: nat | Replies(l, seen)(i).Up? ensures Replies(l, seen)(i).tip == Current(l) {
      assert |l.tips| - 1 <= seen(i).value < |l.tips|;
    }
  }

  lemma AfterRoundIsDecided(p: Params, t: Tree, l: Loop, outcome: Outcome, s: SyncState)
    requires p.Wf() && LoopInv(p, t, l) && l.phase.Syncing? && LoopInv(p, t, AfterRound(l, outcome, s))
    requires outcome.Synced? && l.phase.start == |l.tips| - 1 ==> s == AfterOneTip(p, t, l.sync, Current(l))
    ensures DecidedInv(p, t, AfterRound(l, outcome, s))
  {
  }

  lemma RoundKeepsDecided(p: Params, t: Tree, l: Loop, seen: nat -> Option<nat>)
    requires p.Wf() && LoopInv(p, t, l) && Enabled(t, l, RoundEnds(seen))
    ensures DecidedInv(p, t, Step(p, t, l, RoundEnds(seen)))
  {
    StepKeepsLoopInv(p, t, l, RoundEnds(seen));
    RepliesAnswer(t, l, seen);
    var r := SyncRound(p, t, Replies(l, seen), l.sync);
    if r.0.Synced? && l.phase.start == |l.tips| - 1 {
      LateRepliesAreCurrent(t, l, seen);
      OneTipRound(p, t, Replies(l, seen), l.sync, Current(l));
    }
    AfterRoundIsDecided(p, t, l, r.0, r.1);
  }

  lemma {:induction false} RunKeepsDecided(p: Params, t: Tree, l: Loop, es: seq<Event>, l': Loop)
    requires p.Wf() && DecidedInv(p, t, l) && IsRun(p, t, l, es, l')
    ensures DecidedInv(p, t, l')
    decreases |es|
  {
    if es != [] {
      StepKeepsDecided(p, t, l, es[0]);
      RunKeepsDecided(p, t, Step(p, t, l, es[0]), es[1..], l');
    }
  }

  lemma StepKeepsDecided(p: Params, t: Tree, l: Loop, e: Event)
    requires p.Wf() && DecidedInv(p, t, l) && Enabled(t, l, e)
    ensures DecidedInv(p, t, Step(p, t, l, e))
  {
    if e.RoundEnds? {
      RoundKeepsDecided(p, t, l, e.seen);
    } else {
      StepKeepsLoopInv(p, t, l, e);
    }
  }

  /** Whatever the tips did, a loop that waits on an empty channel with the current tip announced has recorded a height
      no lower than the tip's, and its state is what a round on that tip makes of the state its last round found:
      exactly the confirmed window, unless such a height had already been recorded before that round, or the chain is
      too short to confirm anything. */
  lemma WaitingMeansDecided(p: Params, t: Tree, l: Loop, es: seq<Event>, l': Loop)
    requires p.Wf() && Initial(p, t, l) && IsRun(p, t, l, es, l')
    requires l'.phase.Waiting? && !l'.slot && l'.announced == Some(|l'.tips| - 1)
    ensures Shape(t, l') && l'.lastRound.Some?
    ensures l'.sync == AfterOneTip(p, t, l'.lastRound.value.before, Current(l'))
    ensures t.heights[Current(l')] <= l'.sync.LastHeight()
  {
    RunKeepsDecided(p, t, l, es, l');
  }

  // ---------- a waiting loop is up to date ----------

  /** Each tip is higher than the one it replaces. */
  ghost predicate Rising(t: Tree, tips: seq<Hash>) {
    && (forall i :: 0 <= i < |tips| ==> tips[i] in t.headers && tips[i] in t.heights)
    && (forall i, j :: 0 <= i < j < |tips| ==> t.heights[tips[i]] < t.heights[tips[j]])
  }

  function Current(l: Loop): Hash
    requires l.tips != []
  {
    l.tips[|l.tips| - 1]
  }

  /** The recorded height never overtakes the chain, and once it has caught up the window is exact. */
  ghost predicate UpToDateInv(p: Params, t: Tree, l: Loop)
    requires p.Wf()
  {
    && LoopInv(p, t, l)
    && (Rising(t, l.tips) ==>
      && CaughtUp(p, t, l.sync, Current(l))
      && (l.lastRound.Some? && l.lastRound.value.succeeded && l.lastRound.value.start == |l.tips| - 1
          ==> l.sync.LastHeight() == t.heights[Current(l)]))
    && (l.lastRound.Some? ==> l.lastRound.value.start < |l.tips|)
  }

  lemma NewTipKeepsUpToDate(p: Params, t: Tree, l: Loop, tip: Hash)
    requires p.Wf() && UpToDateInv(p, t, l) && tip in t.headers
    ensures UpToDateInv(p, t, Step(p, t, l, NewTip(tip)))
  {
    var e := NewTip(tip);
    StepKeepsLoopInv(p, t, l, e);
    var l' := Step(p, t, l, e);
    if Rising(t, l'.tips) {
      forall i | 0 <= i < |l.tips| ensures l.tips[i] == l'.tips[i] {}
      assert t.heights[l'.tips[|l.tips| - 1]] < t.heights[l'.tips[|l.tips|]];
    }
  }

  /** What a round must leave so that `UpToDateInv` survives it. */
  ghost predicate CaughtUp(p: Params, t: Tree, s: SyncState, tip: Hash)
    requires p.Wf() && t.Wf() && tip in t.headers
  {
    && s.LastHeight() <= t.heights[tip]
    && (s.window != [] ==> p.lowest <= t.heights[tip])
    && (s.LastHeight() == t.heights[tip] && p.lowest <= t.heights[tip] ==> s.window == ExactWindow(p, t, tip))
  }

  lemma FetchCatchesUp(p: Params, t: Tree, rpc: Rpc, s: SyncState, tip: Hash)
    requires Inv(p, t, s) && Answers(t, rpc) && tip in t.headers && CaughtUp(p, t, s, tip)
    requires rpc(0).Up? && s.LastHeight() < t.heights[rpc(0).tip] && p.lowest <= t.heights[rpc(0).tip]
    requires t.heights[rpc(0).tip] <= t.heights[tip]
    requires t.heights[rpc(0).tip] == t.heights[tip] ==> OneTip(t, rpc, tip)
    ensures CaughtUp(p, t, SyncRound(p, t, rpc, s).1, tip)
    ensures SyncRound(p, t, rpc, s).0.Synced? ==> SyncRound(p, t, rpc, s).1.LastHeight() == t.heights[rpc(0).tip]
  {
    FetchRound(p, t, rpc, s);
    if SyncRound(p, t, rpc, s).0.Synced? && t.heights[rpc(0).tip] == t.heights[tip] {
      SyncOnOneTip(p, t, rpc, s, tip);
    }
  }

  /** No reply of the round names a higher tip than the current one. */
  ghost predicate Below(t: Tree, rpc: Rpc, tip: Hash)
    requires t.Wf() && Answers(t, rpc) && tip in t.headers
  {
    rpc(0).Up? ==>
      && t.heights[rpc(0).tip] <= t.heights[tip]
      && (t.heights[rpc(0).tip] == t.heights[tip] ==> OneTip(t, rpc, tip))
  }

  lemma RoundCatchesUp(p: Params, t: Tree, rpc: Rpc, s: SyncState, tip: Hash)
    requires Inv(p, t, s) && Answers(t, rpc) && tip in t.headers && CaughtUp(p, t, s, tip) && Below(t, rpc, tip)
    ensures CaughtUp(p, t, SyncRound(p, t, rpc, s).1, tip)
    ensures SyncRound(p, t, rpc, s).0.Synced? && (rpc(0).Up? ==> rpc(0).tip == tip) ==>
              SyncRound(p, t, rpc, s).1.LastHeight() == t.heights[tip]
  {
    if rpc(0).Down? || t.heights[rpc(0).tip] <= s.LastHeight() || t.heights[rpc(0).tip] < p.lowest {
      IdleRound(p, t, rpc, s);
    } else {
      FetchCatchesUp(p, t, rpc, s, tip);
    }
  }

  /** Once a round has seen the current tip it sees no other. */
  lemma LaterRepliesAreCurrent(l: Loop, start: nat, seen: nat -> Option<nat>)
    requires l.tips != [] && SeenDuring(l, start, seen) && seen(0) == Some(|l.tips| - 1)
    ensures forall i: nat :: Replies(l, seen)(i).Up? ==> Replies(l, seen)(i).tip == Current(l)
  {
    forall i: nat | Replies(l, seen)(i).Up? ensures Replies(l, seen)(i).tip == Current(l) {
      assert seen(0).value <= seen(i).value;
    }
  }

  /** On rising tips, a reply as high as the current tip comes from the current tip, and so do all later ones. */
  lemma RisingRepliesAreBelow(t: Tree, l: Loop, start: nat, seen: nat -> Option<nat>)
    requires Shape(t, l) && SeenDuring(l, start, seen) && Rising(t, l.tips)
    ensures Answers(t, Replies(l, seen)) && Below(t, Replies(l, seen), Current(l))
    ensures start == |l.tips| - 1 && Replies(l, seen)(0).Up? ==> Replies(l, seen)(0).tip == Current(l)
  {
    RepliesAnswer(t, l, seen);
    if seen(0).Some? {
      if seen(0).value == |l.tips| - 1 {
        LaterRepliesAreCurrent(l, start, seen);
      } else {
        assert t.heights[l.tips[seen(0).value]] < t.heights[l.tips[|l.tips| - 1]];
      }
    }
  }

  lemma AfterRoundIsUpToDate(p: Params, t: Tree, l: Loop, outcome: Outcome, s: SyncState)
    requires p.Wf() && Shape(t, l) && l.phase.Syncing? && LoopInv(p, t, AfterRound(l, outcome, s))
    requires Rising(t, l.tips) ==> CaughtUp(p, t, s, Current(l))
    requires Rising(t, l.tips) && outcome.Synced? && l.phase.start == |l.tips| - 1 ==>
               s.LastHeight() == t.heights[Current(l)]
    ensures UpToDateInv(p, t, AfterRound(l, outcome, s))
  {
  }

  lemma RoundKeepsUpToDate(p: Params, t: Tree, l: Loop, seen: nat -> Option<nat>)
    requires p.Wf() && UpToDateInv(p, t, l) && Enabled(t, l, RoundEnds(seen))
    requires LoopInv(p, t, Step(p, t, l, RoundEnds(seen)))
    ensures UpToDateInv(p, t, Step(p, t, l, RoundEnds(seen)))
  {
    RepliesAnswer(t, l, seen);
    var r := SyncRound(p, t, Replies(l, seen), l.sync);
    if Rising(t, l.tips) {
      RisingRepliesAreBelow(t, l, l.phase.start, seen);
      RoundCatchesUp(p, t, Replies(l, seen), l.sync, Current(l));
    }
    AfterRoundIsUpToDate(p, t, l, r.0, r.1);
  }

  // ---------- starting on a window ----------

  /** The tip is not above the height that a start on `w` records. */
  predicate Unnoticed(p: Params, t: Tree, w: seq<Checkpoint>, tip: Hash)
    requires t.Wf() && tip in t.headers
  {
    w != [] && t.heights[tip] <= Newest(w).height + p.lowest
  }

  /** A loop started on `w`: as long as the tip goes unnoticed nothing has changed; from then on it is up to date. */
  ghost predicate StartedInv(p: Params, t: Tree, w: seq<Checkpoint>, l: Loop)
    requires p.Wf()
  {
    && LoopInv(p, t, l)
    && (l.lastRound.Some? ==> l.lastRound.value.start < |l.tips|)
    && (Rising(t, l.tips) ==>
          if Unnoticed(p, t, w, Current(l)) then l.sync == Started(p, w) else UpToDateInv(p, t, l))
  }

  lemma NewTipKeepsStarted(p: Params, t: Tree, w: seq<Checkpoint>, l: Loop, tip: Hash)
    requires p.Wf() && StartedInv(p, t, w, l) && tip in t.headers
    ensures StartedInv(p, t, w, Step(p, t, l, NewTip(tip)))
  {
    StepKeepsLoopInv(p, t, l, NewTip(tip));
    var l' := Step(p, t, l, NewTip(tip));
    if Rising(t, l'.tips) {
      forall i | 0 <= i < |l.tips| ensures l.tips[i] == l'.tips[i] {}
      assert t.heights[l'.tips[|l.tips| - 1]] < t.heights[l'.tips[|l.tips|]];
      if !Unnoticed(p, t, w, Current(l)) {
        NewTipKeepsUpToDate(p, t, l, tip);
      }
    }
  }

  lemma UnnoticedRoundChangesNothing(p: Params, t: Tree, w: seq<Checkpoint>, l: Loop, seen: nat -> Option<nat>)
    requires p.Wf() && LoopInv(p, t, l) && Enabled(t, l, RoundEnds(seen)) && Rising(t, l.tips)
    requires Unnoticed(p, t, w, Current(l)) && l.sync == Started(p, w)
    ensures Step(p, t, l, RoundEnds(seen)).sync == l.sync
  {
    RisingRepliesAreBelow(t, l, l.phase.start, seen);
    IdleRound(p, t, Replies(l, seen), l.sync);
  }

  lemma RoundTouches(p: Params, t: Tree, l: Loop, seen: nat -> Option<nat>)
    requires p.Wf() && LoopInv(p, t, l) && Enabled(t, l, RoundEnds(seen))
    ensures Step(p, t, l, RoundEnds(seen)).tips == l.tips
    ensures Step(p, t, l, RoundEnds(seen)).lastRound.Some?
    ensures Step(p, t, l, RoundEnds(seen)).lastRound.value.start == l.phase.start
    ensures LoopInv(p, t, Step(p, t, l, RoundEnds(seen)))
  {
    StepKeepsLoopInv(p, t, l, RoundEnds(seen));
  }

  lemma RoundKeepsStarted(p: Params, t: Tree, w: seq<Checkpoint>, l: Loop, seen: nat -> Option<nat>)
    requires p.Wf() && StartedInv(p, t, w, l) && Enabled(t, l, RoundEnds(seen))
    ensures StartedInv(p, t, w, Step(p, t, l, RoundEnds(seen)))
  {
    RoundTouches(p, t, l, seen);
    if Rising(t, l.tips) && Unnoticed(p, t, w, Current(l)) {
      UnnoticedRoundChangesNothing(p, t, w, l, seen);
    } else if Rising(t, l.tips) {
      RoundKeepsUpToDate(p, t, l, seen);
    }
    StartedAgain(p, t, w, l, Step(p, t, l, RoundEnds(seen)));
  }

  lemma StartedAgain(p: Params, t: Tree, w: seq<Checkpoint>, l: Loop, l': Loop)
    requires p.Wf() && StartedInv(p, t, w, l) && LoopInv(p, t, l') && l'.tips == l.tips
    requires l'.lastRound.Some? ==> l'.lastRound.value.start < |l'.tips|
    requires Rising(t, l.tips) ==> if Unnoticed(p, t, w, Current(l)) then l'.sync == l.sync else UpToDateInv(p, t, l')
    ensures StartedInv(p, t, w, l')
  {
  }

  /** The events that touch neither the tips nor the synchronizer. */
  lemma OtherStepKeepsStarted(p: Params, t: Tree, w: seq<Checkpoint>, l: Loop, e: Event)
    requires p.Wf() && StartedInv(p, t, w, l) && Enabled(t, l, e) && !e.NewTip? && !e.RoundEnds?
    ensures StartedInv(p, t, w, Step(p, t, l, e))
  {
    StepKeepsLoopInv(p, t, l, e);
  }

  lemma StepKeepsStarted(p: Params, t: Tree, w: seq<Checkpoint>, l: Loop, e: Event)
    requires p.Wf() && StartedInv(p, t, w, l) && Enabled(t, l, e)
    ensures StartedInv(p, t, w, Step(p, t, l, e))
  {
    match e
    case NewTip(tip) => NewTipKeepsStarted(p, t, w, l, tip);
    case RoundEnds(seen) => RoundKeepsStarted(p, t, w, l, seen);
    case _ => OtherStepKeepsStarted(p, t, w, l, e);
  }

  lemma {:induction false} RunKeepsStarted(p: Params, t: Tree, w: seq<Checkpoint>, l: Loop, es: seq<Event>, l': Loop)
    requires p.Wf() && StartedInv(p, t, w, l) && IsRun(p, t, l, es, l')
    ensures StartedInv(p, t, w, l')
    decreases |es|
  {
    if es != [] {
      StepKeepsStarted(p, t, w, l, es[0]);
      RunKeepsStarted(p, t, w, Step(p, t, l, es[0]), es[1..], l');
    }
  }

  /** End to end: on a chain whose tips keep rising, whatever the start and whatever the interleaving of blocks,
      notifications, dropped sends, failed calls, mid-round reorganizations and resets, once the loop waits on an
      empty channel and the current tip has been announced, the window is exactly the confirmed window of the
      current tip, unless the tip has never been above the height recorded at the start. Then it is still the
      window the loop was started on. */
  lemma WaitingMeansSynchronized(p: Params, t: Tree, w: seq<Checkpoint>, l: Loop, es: seq<Event>, l': Loop)
    requires p.Wf() && Initial(p, t, l) && IsRun(p, t, l, es, l') && l.sync == Started(p, w)
    requires Rising(t, l'.tips)
    requires l'.phase.Waiting? && !l'.slot && l'.announced == Some(|l'.tips| - 1)
    ensures l'.sync.window == if Unnoticed(p, t, w, Current(l')) then w else ExactWindow(p, t, Current(l'))
  {
    RunKeepsStarted(p, t, w, l, es, l');
  }

  /** A restart on the window that a finished synchronization with `a` has left: the loop comes to hold the window of
      the current tip exactly when that tip is at least two blocks above `a` or confirms the same newest block. */
  lemma RestartIsFollowedExactly(p: Params, t: Tree, a: Hash, l: Loop, es: seq<Event>, l': Loop)
    requires p.Wf() && Initial(p, t, l) && IsRun(p, t, l, es, l')
    requires a in t.headers && p.lowest <= t.heights[a] && l.sync == Started(p, ExactWindow(p, t, a))
    requires l'.phase.Waiting? && !l'.slot && l'.announced == Some(|l'.tips| - 1)
    requires Rising(t, l'.tips) && p.lowest <= t.heights[Current(l')]
    ensures l'.sync.window == ExactWindow(p, t, Current(l')) <==>
              || t.heights[a] + 2 <= t.heights[Current(l')]
              || NewestConfirmed(p, t, a) == NewestConfirmed(p, t, Current(l'))
  {
    WaitingMeansSynchronized(p, t, ExactWindow(p, t, a), l, es, l');
    WindowsAgreeExactly(p, t, a, Current(l'));
  }

  // ---------- the loop comes to rest ----------

  /** Every call of the round sees the current tip. */
  function SeesCurrent(l: Loop): (seen: nat -> Option<nat>)
    requires l.tips != []
  {
    (i: nat) => Some(|l.tips| - 1)
  }

  /** Taking the token and a round on the current tip, with nothing in between. */
  function Pass(p: Params, t: Tree, l: Loop): (l': Loop)
    requires p.Wf() && Shape(t, l) && l.phase.Waiting? && l.slot
  {
    var l1 := Step(p, t, l, TakeToken);
    Step(p, t, l1, RoundEnds(SeesCurrent(l1)))
  }

  /** The pass ends waiting again, with a token exactly if the round failed. */
  lemma PassEnds(p: Params, t: Tree, l: Loop) returns (rpc: Rpc)
    requires p.Wf() && LoopInv(p, t, l) && l.phase.Waiting? && l.slot
    ensures Answers(t, rpc) && Steady(t, rpc, Current(l))
    ensures var l', r := Pass(p, t, l), SyncRound(p, t, rpc, l.sync);
            && LoopInv(p, t, l') && l'.phase.Waiting? && l'.tips == l.tips && l'.announced == l.announced
            && (l'.slot <==> !r.0.Synced?) && l'.sync == Handled(r.0, r.1)
  {
    var l1 := Step(p, t, l, TakeToken);
    StepKeepsLoopInv(p, t, l, TakeToken);
    StepKeepsLoopInv(p, t, l1, RoundEnds(SeesCurrent(l1)));
    RepliesAnswer(t, l1, SeesCurrent(l1));
    rpc := Replies(l1, SeesCurrent(l1));
  }

  lemma SteadyOutcome(p: Params, t: Tree, s: SyncState, tip: Hash, rpc: Rpc)
    requires Inv(p, t, s) && Answers(t, rpc) && Steady(t, rpc, tip)
    ensures SyncRound(p, t, rpc, s).0.Synced? || SyncRound(p, t, rpc, s).0.StaleBlock?
    ensures s == SyncState([], None) ==> SyncRound(p, t, rpc, s).0.Synced?
  {
    if t.heights[tip] <= s.LastHeight() || t.heights[tip] < p.lowest {
      IdleRound(p, t, rpc, s);
    } else {
      SteadyRound(p, t, s, tip, rpc);
    }
  }

  /** Progress: as soon as the chain stays put and the node answers, a woken loop comes to wait on an empty channel
      after one pass, or after two if the first finds a stale link. */
  lemma LoopComesToRest(p: Params, t: Tree, l: Loop)
    requires p.Wf() && LoopInv(p, t, l) && l.phase.Waiting? && l.slot
    ensures var l1 := Pass(p, t, l);
            && Shape(t, l1) && l1.phase.Waiting? && l1.tips == l.tips
            && (!l1.slot || (l1.sync == SyncState([], None) && Pass(p, t, l1).phase.Waiting? && !Pass(p, t, l1).slot))
  {
    var rpc := PassEnds(p, t, l);
    SteadyOutcome(p, t, l.sync, Current(l), rpc);
    var l1 := Pass(p, t, l);
    if l1.slot {
      var rpc' := PassEnds(p, t, l1);
      SteadyOutcome(p, t, l1.sync, Current(l1), rpc');
    }
  }
}
