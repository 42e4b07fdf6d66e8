/** The mint contract on chain, with the arbitrary code its payments may run. */
module MintContract {
  import opened Bytes

  /** Gas the contract refunds for, per mint. */
  const MINT_GAS_USED: nat := 150_000
  /** A burn must exceed this many wei. */
  const DUST_WEI: nat := 330 * 10_000_000_000

  datatype Log =
    | MintLog(account: Account, amount: nat, height: U32, metadata: Bytes)
    | BurnLog(sender: Account, burned: nat, destination: Bytes, data: Bytes)
    | OtherLog

  /** Code that a transaction or a payment runs: calls in order, then success or revert. */
  datatype Frame = Frame(calls: seq<Call>, succeeds: bool)

  datatype Call =
    | Mint(destination: Account, amount: nat, height: U32, metadata: Bytes, onPayment: Frame, onRefund: Frame)
    | Burn(sender: Account, value: nat, to: Bytes, data: Bytes)
    | Emit
    | Enter(frame: Frame)

  /** The contract's storage, the logs so far and the wei paid out so far. */
  datatype State = State(heights: map<Account, U32>, logs: seq<Log>, released: nat)

  function HeightOf(heights: map<Account, U32>, a: Account): U32 {
    if a in heights then heights[a] else 0
  }

  /** What a mint pays on top of the amount it logs. */
  function Refund(baseFee: nat): nat {
    MINT_GAS_USED * baseFee
  }

  /** Runs a frame; a revert undoes everything it did. */
  function RunFrame(f: Frame, baseFee: nat, s: State): (r: (bool, State))
    decreases f, 1, 0
  {
    var s' := RunCalls(f, |f.calls|, baseFee, s);
    if f.succeeds then (true, s') else (false, s)
  }

  /** The first `n` calls of a frame; a caller goes on after a call that reverted. */
  function RunCalls(f: Frame, n: nat, baseFee: nat, s: State): (s': State)
    requires n <= |f.calls|
    decreases f, 0, n
  {
    if n == 0 then s
    else
      var mid := RunCalls(f, n - 1, baseFee, s);
      assert f.calls[n - 1] in f.calls;
      RunCall(f.calls[n - 1], baseFee, mid).1
  }

  function RunCall(c: Call, baseFee: nat, s: State): (r: (bool, State))
    decreases c, 0, 0
  {
    match c
    case Mint(destination, amount, height, metadata, onPayment, onRefund) =>
      if height <= HeightOf(s.heights, destination) then (false, s)
      else
        var txCost := Refund(baseFee);
        if txCost > amount then (false, s)
        else
          // the height is recorded before any foreign code runs
          var s0 := s.(heights := s.heights[destination := height], released := s.released + amount);
          var (paid, s1) := RunFrame(onPayment, baseFee, s0);
          if !paid then (false, s)
          else
            var (refunded, s2) := RunFrame(onRefund, baseFee, s1);
            if !refunded then (false, s)
            else (true, s2.(logs := s2.logs + [MintLog(destination, amount - txCost, height, metadata)]))
    case Burn(sender, value, to, data) =>
      if value <= DUST_WEI then (false, s)
      else (true, s.(logs := s.logs + [BurnLog(sender, value, to, data)]))
    case Emit => (true, s.(logs := s.logs + [OtherLog]))
    case Enter(frame) => RunFrame(frame, baseFee, s)
  }

  // ---------- the guard, under re-entrancy ----------

  /** Between two storages with `logs` emitted in between: heights only grow, every mint log lies strictly above
      the old and at most at the new height of its account, and no two mint logs of an account share a height. */
  ghost predicate Guarded(before: map<Account, U32>, logs: seq<Log>, after: map<Account, U32>) {
    && (forall a: Account :: HeightOf(before, a) <= HeightOf(after, a))
    && (forall i :: 0 <= i < |logs| && logs[i].MintLog? ==>
          HeightOf(before, logs[i].account) < logs[i].height <= HeightOf(after, logs[i].account))
    && (forall i, j :: 0 <= i < j < |logs| && logs[i].MintLog? && logs[j].MintLog? && logs[i].account == logs[j].account
          ==> logs[i].height != logs[j].height)
  }

  lemma GuardedInSequence(a: map<Account, U32>, l1: seq<Log>, b: map<Account, U32>, l2: seq<Log>, c: map<Account, U32>)
    requires Guarded(a, l1, b) && Guarded(b, l2, c)
    ensures Guarded(a, l1 + l2, c)
  {
    var l := l1 + l2;
    forall i | 0 <= i < |l| && l[i].MintLog?
      ensures HeightOf(a, l[i].account) < l[i].height <= HeightOf(c, l[i].account)
    {
      if i < |l1| { assert l[i] == l1[i]; } else { assert l[i] == l2[i - |l1|]; }
    }
    forall i, j | 0 <= i < j < |l| && l[i].MintLog? && l[j].MintLog? && l[i].account == l[j].account
      ensures l[i].height != l[j].height
    {
      if j < |l1| {
        assert l[i] == l1[i] && l[j] == l1[j];
      } else if i < |l1| {
        assert l[i] == l1[i] && l[j] == l2[j - |l1|];
      } else {
        assert l[i] == l2[i - |l1|] && l[j] == l2[j - |l1|];
      }
    }
  }

  /** How one state follows another: new logs only at the end, guarded heights. */
  ghost predicate Follows(s: State, s': State) {
    && |s.logs| <= |s'.logs| && s'.logs[..|s.logs|] == s.logs
    && Guarded(s.heights, s'.logs[|s.logs|..], s'.heights)
  }

  lemma FollowsSelf(s: State)
    ensures Follows(s, s)
  {
  }

  lemma FollowsInSequence(s: State, t: State, u: State)
    requires Follows(s, t) && Follows(t, u)
    ensures Follows(s, u)
  {
    GuardedInSequence(s.heights, t.logs[|s.logs|..], t.heights, u.logs[|t.logs|..], u.heights);
    assert u.logs[|s.logs|..] == t.logs[|s.logs|..] + u.logs[|t.logs|..];
  }

  /** The final log of a mint, emitted after all foreign code has run, still carries a height of its own. */
  lemma MintFollows(s: State, s0: State, s2: State, log: Log)
    requires log.MintLog? && HeightOf(s.heights, log.account) < log.height
    requires s0.logs == s.logs && s0.heights == s.heights[log.account := log.height] && Follows(s0, s2)
    ensures Follows(s, s2.(logs := s2.logs + [log]))
  {
    var nested := s2.logs[|s.logs|..];
    var all := nested + [log];
    assert (s2.logs + [log])[|s.logs|..] == all;
    forall i | 0 <= i < |nested| && nested[i].MintLog?
      ensures HeightOf(s.heights, nested[i].account) < nested[i].height <= HeightOf(s2.heights, nested[i].account)
      ensures nested[i].account == log.account ==> nested[i].height != log.height
    {
    }
    forall a: Account ensures HeightOf(s.heights, a) <= HeightOf(s2.heights, a) {
      assert HeightOf(s0.heights, a) <= HeightOf(s2.heights, a);
    }
  }

  lemma PaymentsFollow(s: State, s0: State, s1: State, s2: State, log: Log)
    requires log.MintLog? && HeightOf(s.heights, log.account) < log.height
    requires s0.logs == s.logs && s0.heights == s.heights[log.account := log.height]
    requires Follows(s0, s1) && Follows(s1, s2)
    ensures Follows(s, s2.(logs := s2.logs + [log]))
  {
    FollowsInSequence(s0, s1, s2);
    MintFollows(s, s0, s2, log);
  }

  lemma OtherLogFollows(s: State, log: Log)
    requires !log.MintLog?
    ensures Follows(s, s.(logs := s.logs + [log]))
  {
  }

  lemma {:induction false} FrameFollows(f: Frame, baseFee: nat, s: State)
    ensures Follows(s, RunFrame(f, baseFee, s).1)
    decreases f, 1, 0
  {
    CallsFollow(f, |f.calls|, baseFee, s);
    FollowsSelf(s);
  }

  lemma {:induction false} CallsFollow(f: Frame, n: nat, baseFee: nat, s: State)
    requires n <= |f.calls|
    ensures Follows(s, RunCalls(f, n, baseFee, s))
    decreases f, 0, n
  {
    if n == 0 {
      FollowsSelf(s);
    } else {
      CallsFollow(f, n - 1, baseFee, s);
      var mid := RunCalls(f, n - 1, baseFee, s);
      assert f.calls[n - 1] in f.calls;
      CallFollows(f.calls[n - 1], baseFee, mid);
      FollowsInSequence(s, mid, RunCalls(f, n, baseFee, s));
    }
  }

  lemma {:induction false} CallFollows(c: Call, baseFee: nat, s: State)
    ensures Follows(s, RunCall(c, baseFee, s).1)
    decreases c, 0, 0
  {
    FollowsSelf(s);
    match c
    case Mint(destination, amount, height, metadata, onPayment, onRefund) =>
      if height > HeightOf(s.heights, destination) && Refund(baseFee) <= amount {
        var s0 := s.(heights := s.heights[destination := height], released := s.released + amount);
        FrameFollows(onPayment, baseFee, s0);
        var s1 := RunFrame(onPayment, baseFee, s0).1;
        FrameFollows(onRefund, baseFee, s1);
        var s2 := RunFrame(onRefund, baseFee, s1).1;
        PaymentsFollow(s, s0, s1, s2, MintLog(destination, amount - Refund(baseFee), height, metadata));
      }
    case Burn(sender, value, to, data) => OtherLogFollows(s, BurnLog(sender, value, to, data));
    case Emit => OtherLogFollows(s, OtherLog);
    case Enter(frame) => FrameFollows(frame, baseFee, s);
  }

  /** A whole transaction, however its calls nest, revert and re-enter: the guard holds for the logs it leaves. */
  lemma TransactionIsGuarded(f: Frame, baseFee: nat, heights: map<Account, U32>, released: nat)
    ensures var (ok, s) := RunFrame(f, baseFee, State(heights, [], released));
            Guarded(heights, s.logs, s.heights)
  {
    FrameFollows(f, baseFee, State(heights, [], released));
    var s := RunFrame(f, baseFee, State(heights, [], released)).1;
    assert s.logs[0..] == s.logs;
  }

  // ---------- the order of the logs ----------

  /** The mint logs of each account come in increasing order of height. */
  ghost predicate Rises(logs: seq<Log>) {
    forall i, j :: 0 <= i < j < |logs| && logs[i].MintLog? && logs[j].MintLog? && logs[i].account == logs[j].account
      ==> logs[i].height < logs[j].height
  }

  /** Some mint log is for the account. */
  predicate MintsFor(logs: seq<Log>, a: Account) {
    exists i :: 0 <= i < |logs| && logs[i].MintLog? && logs[i].account == a
  }

  /** What was logged between two states. */
  function NewLogs(s: State, s': State): (logs: seq<Log>) {
    if |s.logs| <= |s'.logs| then s'.logs[|s.logs|..] else []
  }

  /** No mint that completes in the frame, at any depth, has another mint for its own account complete during its
      payment or its refund. What reverts does not complete. */
  predicate FrameUnnested(f: Frame, baseFee: nat, s: State)
    decreases f, 1, 0
  {
    f.succeeds ==> CallsUnnested(f, |f.calls|, baseFee, s)
  }

  predicate CallsUnnested(f: Frame, n: nat, baseFee: nat, s: State)
    requires n <= |f.calls|
    decreases f, 0, n
  {
    n > 0 ==>
      && CallsUnnested(f, n - 1, baseFee, s)
      && (assert f.calls[n - 1] in f.calls;
          CallUnnested(f.calls[n - 1], baseFee, RunCalls(f, n - 1, baseFee, s)))
  }

  predicate CallUnnested(c: Call, baseFee: nat, s: State)
    decreases c, 0, 0
  {
    match c
    case Mint(destination, amount, height, metadata, onPayment, onRefund) =>
      RunCall(c, baseFee, s).0 ==>
        var s0 := s.(heights := s.heights[destination := height], released := s.released + amount);
        var s1 := RunFrame(onPayment, baseFee, s0).1;
        var s2 := RunFrame(onRefund, baseFee, s1).1;
        && FrameUnnested(onPayment, baseFee, s0) && FrameUnnested(onRefund, baseFee, s1)
        && !MintsFor(NewLogs(s0, s2), destination)
    case Burn(_, _, _, _) => true
    case Emit => true
    case Enter(frame) => FrameUnnested(frame, baseFee, s)
  }

  /** Of two stretches of logs the later one lies above the earlier one, so only each of them must rise. */
  lemma RisesInSequence(a: map<Account, U32>, l1: seq<Log>, b: map<Account, U32>, l2: seq<Log>, c: map<Account, U32>)
    requires Guarded(a, l1, b) && Guarded(b, l2, c)
    ensures Rises(l1 + l2) <==> Rises(l1) && Rises(l2)
  {
    var l := l1 + l2;
    if Rises(l) {
      forall i, j | 0 <= i < j < |l2| && l2[i].MintLog? && l2[j].MintLog? && l2[i].account == l2[j].account
        ensures l2[i].height < l2[j].height
      {
        assert l[|l1| + i] == l2[i] && l[|l1| + j] == l2[j];
      }
      forall i, j | 0 <= i < j < |l1| && l1[i].MintLog? && l1[j].MintLog? && l1[i].account == l1[j].account
        ensures l1[i].height < l1[j].height
      {
        assert l[i] == l1[i] && l[j] == l1[j];
      }
    }
  }

  lemma StatesRise(s: State, t: State, u: State)
    requires Follows(s, t) && Follows(t, u)
    ensures Rises(NewLogs(s, u)) <==> Rises(NewLogs(s, t)) && Rises(NewLogs(t, u))
  {
    assert NewLogs(s, u) == NewLogs(s, t) + NewLogs(t, u);
    RisesInSequence(s.heights, NewLogs(s, t), t.heights, NewLogs(t, u), u.heights);
  }

  /** The log of a mint comes last and lies below every mint its payments completed for the same account. */
  lemma MintRises(s0: State, s2: State, log: Log)
    requires log.MintLog? && Follows(s0, s2) && HeightOf(s0.heights, log.account) == log.height
    ensures Rises(NewLogs(s0, s2) + [log]) <==> Rises(NewLogs(s0, s2)) && !MintsFor(NewLogs(s0, s2), log.account)
  {
    var nested := NewLogs(s0, s2);
    var all := nested + [log];
    assert Guarded(s0.heights, nested, s2.heights);
    if MintsFor(nested, log.account) {
      var i :| 0 <= i < |nested| && nested[i].MintLog? && nested[i].account == log.account;
      assert all[i] == nested[i] && all[|nested|] == log;
      assert !Rises(all);
    } else {
      assert forall i :: 0 <= i < |nested| ==> all[i] == nested[i];
    }
  }

  /** A mint as a whole: its payment from `s0` to `s1`, its refund to `s2` and its log. */
  lemma PaymentsRise(s0: State, s1: State, s2: State, log: Log)
    requires log.MintLog? && HeightOf(s0.heights, log.account) == log.height && Follows(s0, s1) && Follows(s1, s2)
    ensures Rises(NewLogs(s0, s2.(logs := s2.logs + [log]))) <==>
              && Rises(NewLogs(s0, s1)) && Rises(NewLogs(s1, s2)) && !MintsFor(NewLogs(s0, s2), log.account)
  {
    StatesRise(s0, s1, s2);
    FollowsInSequence(s0, s1, s2);
    MintRises(s0, s2, log);
    assert NewLogs(s0, s2.(logs := s2.logs + [log])) == NewLogs(s0, s2) + [log];
  }

  lemma {:induction false} FrameRises(f: Frame, baseFee: nat, s: State)
    ensures Rises(NewLogs(s, RunFrame(f, baseFee, s).1)) <==> FrameUnnested(f, baseFee, s)
    decreases f, 1, 0
  {
    if f.succeeds {
      CallsRise(f, |f.calls|, baseFee, s);
    }
  }

  lemma {:induction false} CallsRise(f: Frame, n: nat, baseFee: nat, s: State)
    requires n <= |f.calls|
    ensures Rises(NewLogs(s, RunCalls(f, n, baseFee, s))) <==> CallsUnnested(f, n, baseFee, s)
    decreases f, 0, n
  {
    if n > 0 {
      var mid := RunCalls(f, n - 1, baseFee, s);
      assert f.calls[n - 1] in f.calls;
      CallsRise(f, n - 1, baseFee, s);
      CallRises(f.calls[n - 1], baseFee, mid);
      CallsFollow(f, n - 1, baseFee, s);
      CallFollows(f.calls[n - 1], baseFee, mid);
      StatesRise(s, mid, RunCall(f.calls[n - 1], baseFee, mid).1);
    }
  }

  lemma {:induction false} CallRises(c: Call, baseFee: nat, s: State)
    ensures Rises(NewLogs(s, RunCall(c, baseFee, s).1)) <==> CallUnnested(c, baseFee, s)
    decreases c, 0, 0
  {
    match c
    case Mint(destination, amount, height, metadata, onPayment, onRefund) =>
      if RunCall(c, baseFee, s).0 {
        var s0 := s.(heights := s.heights[destination := height], released := s.released + amount);
        var s1 := RunFrame(onPayment, baseFee, s0).1;
        var s2 := RunFrame(onRefund, baseFee, s1).1;
        FrameRises(onPayment, baseFee, s0);
        FrameRises(onRefund, baseFee, s1);
        FrameFollows(onPayment, baseFee, s0);
        FrameFollows(onRefund, baseFee, s1);
        PaymentsRise(s0, s1, s2, MintLog(destination, amount - Refund(baseFee), height, metadata));
      }
    case Burn(_, _, _, _) =>
    case Emit =>
    case Enter(frame) => FrameRises(frame, baseFee, s);
  }

  /** The mint logs of each account rise in log order, if and only if no completed mint had another mint for its own
      account complete during its payment or refund. */
  lemma LogsRiseExactly(f: Frame, baseFee: nat, heights: map<Account, U32>, released: nat)
    ensures Rises(RunFrame(f, baseFee, State(heights, [], released)).1.logs)
            <==> FrameUnnested(f, baseFee, State(heights, [], released))
  {
    var s := State(heights, [], released);
    FrameRises(f, baseFee, s);
    assert NewLogs(s, RunFrame(f, baseFee, s).1) == RunFrame(f, baseFee, s).1.logs;
  }

  // ---------- what is paid out ----------

  /** The amounts in the mint logs. */
  function Logged(logs: seq<Log>): (n: nat) {
    if logs == [] then 0
    else Logged(logs[..|logs| - 1]) + (if logs[|logs| - 1].MintLog? then logs[|logs| - 1].amount else 0)
  }

  function Mints(logs: seq<Log>): (n: nat) {
    if logs == [] then 0
    else Mints(logs[..|logs| - 1]) + (if logs[|logs| - 1].MintLog? then 1 else 0)
  }

  /** One refund for each mint log. */
  function Refunded(logs: seq<Log>, baseFee: nat): (n: nat) {
    if logs == [] then 0
    else Refunded(logs[..|logs| - 1], baseFee) + (if logs[|logs| - 1].MintLog? then Refund(baseFee) else 0)
  }

  lemma {:induction false} RefundedIsProduct(logs: seq<Log>, baseFee: nat)
    ensures Refunded(logs, baseFee) == Mints(logs) * Refund(baseFee)
  {
    if logs != [] {
      RefundedIsProduct(logs[..|logs| - 1], baseFee);
      MintTerm(Mints(logs[..|logs| - 1]), Refund(baseFee));
    }
  }

  /** All that has been paid out are the logged amounts, one refund per mint and `other` wei: those paid before the
      logs began and those whose log is not written yet. */
  ghost predicate Balanced(s: State, baseFee: nat, other: nat) {
    s.released == Logged(s.logs) + Refunded(s.logs, baseFee) + other
  }

  lemma {:induction false} FrameBalances(f: Frame, baseFee: nat, s: State, other: nat)
    requires Balanced(s, baseFee, other)
    ensures Balanced(RunFrame(f, baseFee, s).1, baseFee, other)
    decreases f, 1, 0
  {
    CallsBalance(f, |f.calls|, baseFee, s, other);
  }

  lemma {:induction false} CallsBalance(f: Frame, n: nat, baseFee: nat, s: State, other: nat)
    requires n <= |f.calls| && Balanced(s, baseFee, other)
    ensures Balanced(RunCalls(f, n, baseFee, s), baseFee, other)
    decreases f, 0, n
  {
    if n > 0 {
      CallsBalance(f, n - 1, baseFee, s, other);
      assert f.calls[n - 1] in f.calls;
      CallBalances(f.calls[n - 1], baseFee, RunCalls(f, n - 1, baseFee, s), other);
    }
  }

  lemma LogAppend(logs: seq<Log>, log: Log, baseFee: nat)
    ensures Logged(logs + [log]) == Logged(logs) + (if log.MintLog? then log.amount else 0)
    ensures Refunded(logs + [log], baseFee) == Refunded(logs, baseFee) + (if log.MintLog? then Refund(baseFee) else 0)
  {
    assert (logs + [log])[..|logs|] == logs;
  }

  /** Writing a log settles what was paid for it. */
  lemma LogBalances(s: State, log: Log, baseFee: nat, other: nat)
    requires Balanced(s, baseFee, other + (if log.MintLog? then log.amount + Refund(baseFee) else 0))
    ensures Balanced(s.(logs := s.logs + [log]), baseFee, other)
  {
    LogAppend(s.logs, log, baseFee);
  }

  lemma {:induction false} CallBalances(c: Call, baseFee: nat, s: State, other: nat)
    requires Balanced(s, baseFee, other)
    ensures Balanced(RunCall(c, baseFee, s).1, baseFee, other)
    decreases c, 0, 0
  {
    match c
    case Mint(destination, amount, height, metadata, onPayment, onRefund) =>
      if height > HeightOf(s.heights, destination) && Refund(baseFee) <= amount {
        var s0 := s.(heights := s.heights[destination := height], released := s.released + amount);
        FrameBalances(onPayment, baseFee, s0, other + amount);
        var s1 := RunFrame(onPayment, baseFee, s0).1;
        FrameBalances(onRefund, baseFee, s1, other + amount);
        var s2 := RunFrame(onRefund, baseFee, s1).1;
        LogBalances(s2, MintLog(destination, amount - Refund(baseFee), height, metadata), baseFee, other);
      }
    case Burn(sender, value, to, data) => LogBalances(s, BurnLog(sender, value, to, data), baseFee, other);
    case Emit => LogBalances(s, OtherLog, baseFee, other);
    case Enter(frame) => FrameBalances(frame, baseFee, s, other);
  }

  lemma MintTerm(n: nat, c: nat)
    ensures (n + 1) * c == n * c + c
  {
  }

  /** A transaction that calls `mint` once and whose payments run no code. */
  function PlainMint(destination: Account, amount: nat, height: U32, metadata: Bytes): (f: Frame) {
    Frame([Mint(destination, amount, height, metadata, Frame([], true), Frame([], true))], true)
  }

  lemma NothingRuns(baseFee: nat, s: State)
    ensures RunFrame(Frame([], true), baseFee, s) == (true, s)
  {
  }

  /** It succeeds exactly with a new height and an amount that covers the refund; it then pays out the whole amount
      and logs what is left of it after the refund. */
  lemma PlainMintPays(destination: Account, amount: nat, height: U32, metadata: Bytes, baseFee: nat, s: State)
    ensures var s' := RunFrame(PlainMint(destination, amount, height, metadata), baseFee, s).1;
            if height > HeightOf(s.heights, destination) && Refund(baseFee) <= amount then
              && s'.heights == s.heights[destination := height]
              && s'.logs == s.logs + [MintLog(destination, amount - Refund(baseFee), height, metadata)]
              && s'.released == s.released + amount
            else s' == s
  {
    var f := PlainMint(destination, amount, height, metadata);
    NothingRuns(baseFee, s.(heights := s.heights[destination := height], released := s.released + amount));
    assert RunCalls(f, 0, baseFee, s) == s;
    assert RunCalls(f, 1, baseFee, s) == RunCall(f.calls[0], baseFee, s).1;
  }

  /** A transaction pays out its logged amounts plus one refund per mint, nothing more and nothing less. */
  lemma PaidOutIsLoggedPlusRefunds(f: Frame, baseFee: nat, heights: map<Account, U32>, released: nat)
    ensures Balanced(RunFrame(f, baseFee, State(heights, [], released)).1, baseFee, released)
  {
    FrameBalances(f, baseFee, State(heights, [], released), released);
  }

  /** The failing case: a mint whose payment mints for the same account at the next height is logged after it. */
  lemma NestedMintsFall(a: Account, metadata: Bytes)
    ensures var outer := Mint(a, 1, 1, metadata, PlainMint(a, 1, 2, metadata), Frame([], true));
            var s := RunFrame(Frame([outer], true), 0, State(map[], [], 0)).1;
            s.logs == [MintLog(a, 1, 2, metadata), MintLog(a, 1, 1, metadata)] && !Rises(s.logs)
  {
    var inner := PlainMint(a, 1, 2, metadata);
    var outer := Mint(a, 1, 1, metadata, inner, Frame([], true));
    var f, s := Frame([outer], true), State(map[], [], 0);
    var s0 := State(map[a := 1], [], 1);
    PlainMintPays(a, 1, 2, metadata, 0, s0);
    var s1 := RunFrame(inner, 0, s0).1;
    NothingRuns(0, s1);
    assert RunCalls(f, 0, 0, s) == s;
    assert RunCalls(f, 1, 0, s) == RunCall(outer, 0, s).1;
    var logs := RunFrame(f, 0, s).1.logs;
    assert logs == [MintLog(a, 1, 2, metadata), MintLog(a, 1, 1, metadata)];
    assert logs[0].account == logs[1].account;
  }

  /** A transaction that burns once. */
  function PlainBurn(sender: Account, value: nat, to: Bytes, data: Bytes): (f: Frame) {
    Frame([Burn(sender, value, to, data)], true)
  }

  /** It logs the sender, the value, the destination and the data exactly when the value is above 330 satoshis in wei,
      and changes nothing else. */
  lemma PlainBurnLogs(sender: Account, value: nat, to: Bytes, data: Bytes, baseFee: nat, s: State)
    ensures var s' := RunFrame(PlainBurn(sender, value, to, data), baseFee, s).1;
            && s'.heights == s.heights && s'.released == s.released
            && s'.logs == s.logs + if value > 3_300_000_000_000 then [BurnLog(sender, value, to, data)] else []
  {
    var f := PlainBurn(sender, value, to, data);
    assert RunCalls(f, 0, baseFee, s) == s;
    assert RunCalls(f, 1, baseFee, s) == RunCall(f.calls[0], baseFee, s).1;
  }
}
