/** What the activation manager guarantees over whole runs. */
module ActivationRuns {
  import opened Options
  import opened VoteTable
  import opened Activation

  datatype Event =
    | Block(version: Version, height: nat, proposer: Address, vote: Option<Payload>)
    | Force(version: Version)

  function Apply(m: Manager, e: Event): (r: Manager) {
    match e
    case Block(v, h, p, vote) => Finalized(m, v, h, p, vote).1
    case Force(v) => Forced(m, v).1
  }

  function Run(m: Manager, es: seq<Event>): (r: Manager)
    decreases |es|
  {
    if es == [] then m else Run(Apply(m, es[0]), es[1..])
  }

  // ---------- the order of versions ----------

  /** Versions are totally ordered; a minor step goes up, and any major step goes above all minor ones. */
  lemma VersionsAreOrdered(u: Version, v: Version, w: Version)
    ensures !u.Less(u) && (u.Less(v) || u == v || v.Less(u)) && (u.Less(v) && v.Less(w) ==> u.Less(w))
    ensures u.AtMost(v) <==> !v.Less(u)
    ensures u.Less(u.(minor := u.minor + 1)) && u.Less(Version(u.major + 1, v.minor))
  {
  }

  // ---------- version safety ----------

  /** Where one manager may go from another: it keeps its version and its upgrade or gives the upgrade up, or it
      has moved to the tracked version, which it then complied with. */
  predicate MayBecome(m: Manager, m': Manager) {
    && m'.BuilderMade()
    && (m'.upgrade == m.upgrade || m'.upgrade.None?)
    && (m'.active != m.active ==>
          && m.upgrade.Some? && m.upgrade.value.compliant
          && m'.active == m.upgrade.value.version && m.active.Less(m'.active)
          && m'.upgrade.None?)
  }

  /** Over every run of a builder-made manager the active version never decreases and only ever becomes the tracked
      version, and only on a compliant node. */
  lemma {:induction false} VersionSafety(m: Manager, es: seq<Event>)
    requires m.BuilderMade()
    ensures MayBecome(m, Run(m, es))
    decreases |es|
  {
    if es != [] {
      VersionSafety(Apply(m, es[0]), es[1..]);
    }
  }

  /** After one change the active version is final. */
  lemma ChangesAtMostOnce(m: Manager, es: seq<Event>, es': seq<Event>)
    requires m.BuilderMade()
    ensures Run(m, es + es') == Run(Run(m, es), es')
    ensures Run(m, es).active != m.active ==> Run(m, es + es').active == Run(m, es).active
  {
    RunAppend(m, es, es');
    VersionSafety(m, es);
    VersionSafety(Run(m, es), es');
  }

  lemma {:induction false} RunAppend(m: Manager, es: seq<Event>, es': seq<Event>)
    ensures Run(m, es + es') == Run(Run(m, es), es')
    decreases |es|
  {
    if es == [] {
      assert es + es' == es';
    } else {
      assert (es + es')[0] == es[0] && (es + es')[1..] == es[1..] + es';
      RunAppend(Apply(m, es[0]), es[1..], es');
    }
  }

  /** A block is finalized exactly when its version is at most the version active after the call. */
  lemma FinalizedIffActiveReached(m: Manager, v: Version, height: nat, proposer: Address, vote: Option<Payload>)
    requires m.BuilderMade()
    ensures var (finalized, m') := Finalized(m, v, height, proposer, vote);
            finalized <==> v.AtMost(m'.active)
  {
  }

  /** PrepareProposal coherence: what a manager would propose, it also accepts and finalizes from the same state,
      whoever proposes and votes. */
  lemma ProposalIsAccepted(m: Manager, height: nat, proposer: Address, vote: Option<Payload>)
    requires m.BuilderMade()
    ensures Processes(m, height, Prepared(m, height))
    ensures Finalized(m, Prepared(m, height), height, proposer, vote).0
  {
    if m.upgrade.Some? {
      var c := Check(m.upgrade.value, m.votes, height);
      assert c.AllPassing() ==> m.upgrade.value.compliant;
    }
  }

  /** A node that only signals never proposes, accepts or moves to the upgrade. */
  lemma SignallingStaysPut(m: Manager, es: seq<Event>, height: nat, v: Version)
    requires m.BuilderMade() && m.upgrade.Some? && !m.upgrade.value.compliant
    ensures Run(m, es).active == m.active
    ensures var m' := Run(m, es);
            m'.BuilderMade() && Prepared(m', height) == m.active && (Processes(m', height, v) <==> v == m.active)
  {
    VersionSafety(m, es);
  }

  // ---------- what the decisions mean ----------

  /** The approval an upgrade needs: more than `quorum - 1` percent of the validators counted, but of at least the
      configured number of them. */
  predicate Approves(u: Upgrade, t: Table, supporters: set<Address>) {
    100 * |supporters| > (u.quorum - 1) * Max(|t|, u.minValidatorCount)
  }

  function AyeVoters(t: Table): set<Address> {
    set a | a in t && t[a].vote == Aye
  }

  function CompliantVoters(t: Table): set<Address> {
    set a | a in t && t[a].compliant
  }

  /** The upgrade may be activated at a height. */
  predicate Ready(u: Upgrade, t: Table, height: nat) {
    && u.compliant && u.targetHeight <= height
    && Approves(u, t, AyeVoters(t)) && Approves(u, t, CompliantVoters(t))
  }

  /** Each of the four reported conditions on its own. */
  lemma ConditionsMean(u: Upgrade, t: Table, height: nat)
    requires u.quorum > 0 && u.minValidatorCount > 0
    ensures var c := Check(u, t, height);
            && c.compReq == u.compliant && c.heightReq == (u.targetHeight <= height)
            && c.ayeReq == Approves(u, t, AyeVoters(t)) && c.compApprovalReq == Approves(u, t, CompliantVoters(t))
  {
    var total := Total(t, u.minValidatorCount);
    assert Voted(t, Aye) == AyeVoters(t) && VoteTable.Compliant(t) == CompliantVoters(t);
    RateReachesQuorum(|AyeVoters(t)|, total, u.quorum);
    RateReachesQuorum(|CompliantVoters(t)|, total, u.quorum);
  }

  /** A manager that tracks an upgrade proposes it exactly when it is ready, and otherwise its active version; it
      accepts exactly its active version and, when ready, the upgrade's. */
  lemma DecidesExactly(m: Manager, height: nat, v: Version)
    requires m.BuilderMade() && m.upgrade.Some?
    ensures var u := m.upgrade.value;
            && Prepared(m, height) == (if Ready(u, m.votes, height) then u.version else m.active)
            && (Processes(m, height, v) <==> v == m.active || (v == u.version && Ready(u, m.votes, height)))
  {
    ConditionsMean(m.upgrade.value, m.votes, height);
  }

  /** A manager that tracks nothing proposes and accepts its active version alone. */
  lemma IgnoringStaysPut(m: Manager, height: nat, v: Version)
    requires m.upgrade.None?
    ensures m.BuilderMade() && Prepared(m, height) == m.active && (Processes(m, height, v) <==> v == m.active)
  {
  }

  /** An accepted upgrade block has the support of more than 2(q-1)-100 percent of the validators counted who are at
      once aye voters and compliant; for the smallest quorum that is more than 32 percent. */
  lemma AcceptedUpgradeIsSupported(m: Manager, height: nat)
    requires m.BuilderMade() && m.upgrade.Some? && Processes(m, height, m.upgrade.value.version)
    ensures var u, t := m.upgrade.value, m.votes;
            100 * |AyeVoters(t) * CompliantVoters(t)| > (2 * (u.quorum - 1) - 100) * Max(|t|, u.minValidatorCount)
  {
    var u, t := m.upgrade.value, m.votes;
    assert Voted(t, Aye) == AyeVoters(t) && VoteTable.Compliant(t) == CompliantVoters(t);
    QuorumsOverlap(t, u.minValidatorCount, u.quorum);
  }

  /** What finalizing a block does to a manager that tracks an upgrade, apart from the votes: nothing for a version it
      has reached; a compliant node moves to the upgrade, another gives it up and stops; any other newer version stops
      the node and leaves the upgrade pending. */
  lemma FinalizingDecides(m: Manager, v: Version, height: nat, proposer: Address, vote: Option<Payload>)
    requires m.BuilderMade() && m.upgrade.Some?
    ensures var (finalized, m') := Finalized(m, v, height, proposer, vote);
            var u := m.upgrade.value;
            && m'.retention == m.retention
            && (v.AtMost(m.active) ==> finalized && m'.active == m.active && m'.upgrade == m.upgrade)
            && (v == u.version && u.compliant ==> finalized && m'.active == v && m'.upgrade.None?)
            && (v == u.version && !u.compliant ==> !finalized && m'.active == m.active && m'.upgrade.None?)
            && (!v.AtMost(m.active) && v != u.version ==>
                  !finalized && m'.active == m.active && m'.upgrade == m.upgrade)
  {
  }

  /** An upgrade is forced exactly on a compliant node that tracks that version, and then at once and for good. */
  lemma ForcedExactly(m: Manager, v: Version)
    ensures var (forced, m') := Forced(m, v);
            && (forced <==> exists u :: m.upgrade == Some(u) && u.version == v && u.compliant)
            && (forced ==> m'.active == v && m'.upgrade.None? && m'.votes == m.votes && m'.retention == m.retention)
            && (!forced ==> m' == m)
  {
  }

  // ---------- the vote table against the finalized log ----------

  datatype LogEntry = LogEntry(version: Version, height: nat, proposer: Address, vote: Option<Payload>)

  type Log = seq<LogEntry>

  ghost predicate Ascending(log: Log) {
    forall i, j :: 0 <= i < j < |log| ==> log[i].height < log[j].height
  }

  function LastHeight(log: Log): nat
    requires log != []
  {
    log[|log| - 1].height
  }

  /** The latest vote of a proposer anywhere in the log. */
  function Latest(u: Upgrade, log: Log, a: Address): (e: Option<Entry>) {
    if log == [] then None
    else
      var last := log[|log| - 1];
      if last.proposer == a then Some(Counted(u, last.vote, last.height))
      else Latest(u, log[..|log| - 1], a)
  }

  /** The latest vote of the proposer is in the table if it is recent enough, and nothing else is. */
  predicate IsEntryOf(u: Upgrade, retention: nat, log: Log, t: Table, a: Address)
    requires log != []
  {
    var e := Latest(u, log, a);
    if e.Some? && e.value.height + retention >= LastHeight(log) then a in t && t[a] == e.value
    else a !in t
  }

  /** The whole specification of the table: who is in it, and with what. */
  ghost predicate IsTableOf(u: Upgrade, retention: nat, log: Log, t: Table)
    requires log != []
  {
    forall a: Address :: IsEntryOf(u, retention, log, t, a)
  }

  /** The table as the manager maintains it, one finalized block at a time. */
  function TableAfter(u: Upgrade, retention: nat, log: Log): (t: Table) {
    if log == [] then map[]
    else
      var last := log[|log| - 1];
      Tracked(u, retention, TableAfter(u, retention, log[..|log| - 1]), last.height, last.proposer, last.vote)
  }

  /** Where the latest vote of a proposer comes from. */
  lemma {:induction false} LatestOrigin(u: Upgrade, log: Log, a: Address) returns (i: nat)
    requires Latest(u, log, a).Some?
    ensures i < |log| && log[i].proposer == a && Latest(u, log, a).value == Counted(u, log[i].vote, log[i].height)
    ensures forall j :: i < j < |log| ==> log[j].proposer != a
  {
    if log[|log| - 1].proposer == a {
      i := |log| - 1;
    } else {
      i := LatestOrigin(u, log[..|log| - 1], a);
      forall j | i < j < |log| ensures log[j].proposer != a {
        assert j < |log| - 1 ==> log[j] == log[..|log| - 1][j];
      }
    }
  }

  lemma LatestIsOlder(u: Upgrade, log: Log, a: Address)
    requires log != [] && Ascending(log) && Latest(u, log[..|log| - 1], a).Some?
    ensures Latest(u, log[..|log| - 1], a).value.height < LastHeight(log)
  {
    var i := LatestOrigin(u, log[..|log| - 1], a);
    assert log[i].height < log[|log| - 1].height;
  }

  /** For strictly ascending heights the incrementally updated and pruned table is the simple specification: each
      proposer's latest vote of the whole log, if it is within the retention period of the last block. */
  lemma TableMatchesLog(u: Upgrade, retention: nat, log: Log)
    requires log != [] && Ascending(log)
    ensures IsTableOf(u, retention, log, TableAfter(u, retention, log))
  {
    forall a: Address ensures IsEntryOf(u, retention, log, TableAfter(u, retention, log), a) {
      EntryMatchesLog(u, retention, log, a);
    }
  }

  lemma {:induction false} EntryMatchesLog(u: Upgrade, retention: nat, log: Log, a: Address)
    requires log != [] && Ascending(log)
    ensures IsEntryOf(u, retention, log, TableAfter(u, retention, log), a)
  {
    var init, last := log[..|log| - 1], log[|log| - 1];
    var before := TableAfter(u, retention, init);
    if init == [] {
      assert a !in before;
    } else {
      AscendingInit(log);
      EntryMatchesLog(u, retention, init, a);
    }
    if Latest(u, init, a).Some? {
      LatestIsOlder(u, log, a);
    }
    TrackedEntry(u, retention, before, last, a);
  }

  lemma AscendingInit(log: Log)
    requires |log| > 1 && Ascending(log)
    ensures Ascending(log[..|log| - 1]) && LastHeight(log[..|log| - 1]) < LastHeight(log)
  {
    assert LastHeight(log[..|log| - 1]) == log[|log| - 2].height;
  }

  /** What tracking one block does to one entry. */
  lemma TrackedEntry(u: Upgrade, retention: nat, t: Table, last: LogEntry, a: Address)
    requires a in t ==> t[a].height < last.height
    ensures var t' := Tracked(u, retention, t, last.height, last.proposer, last.vote);
            if a == last.proposer then a in t' && t'[a] == Counted(u, last.vote, last.height)
            else if a in t && t[a].height + retention >= last.height then a in t' && t'[a] == t[a]
            else a !in t'
  {
  }

  /** The last block of the proposer in the log, if it is within the retention period. */
  ghost predicate LastRecentBlock(log: Log, retention: nat, a: Address, i: nat)
    requires log != []
  {
    && i < |log| && log[i].proposer == a && log[i].height + retention >= LastHeight(log)
    && forall j :: i < j < |log| ==> log[j].proposer != a
  }

  /** The vote is for the tracked version. */
  predicate CastFor(u: Upgrade, vote: Option<Payload>) {
    vote.Some? && vote.value.version == u.version
  }

  /** What the table means in terms of the finalized blocks alone: a validator is in it exactly if its last block is
      recent enough, with that block's height and the vote and compliance cast there for the tracked version. A block
      without such a vote counts as abstained and not compliant. */
  lemma TableMeans(u: Upgrade, retention: nat, log: Log, a: Address)
    requires log != [] && Ascending(log)
    ensures a in TableAfter(u, retention, log) <==> exists i: nat :: LastRecentBlock(log, retention, a, i)
    ensures forall i: nat :: LastRecentBlock(log, retention, a, i) ==>
              var e, vote := TableAfter(u, retention, log)[a], log[i].vote;
              && e.height == log[i].height
              && (CastFor(u, vote) ==> e.vote == vote.value.vote && e.compliant == vote.value.compliant)
              && (!CastFor(u, vote) ==> e.vote == Abstain && !e.compliant)
  {
    EntryMatchesLog(u, retention, log, a);
    if Latest(u, log, a).Some? {
      var k := LatestOrigin(u, log, a);
      assert a in TableAfter(u, retention, log) ==> LastRecentBlock(log, retention, a, k);
      forall i: nat | LastRecentBlock(log, retention, a, i) ensures i == k {}
    } else {
      NoLatestNoBlock(u, log, a);
    }
  }

  lemma {:induction false} NoLatestNoBlock(u: Upgrade, log: Log, a: Address)
    requires Latest(u, log, a).None?
    ensures forall i :: 0 <= i < |log| ==> log[i].proposer != a
  {
    if log != [] {
      NoLatestNoBlock(u, log[..|log| - 1], a);
      forall i | 0 <= i < |log| - 1 ensures log[i].proposer != a {
        assert log[i] == log[..|log| - 1][i];
      }
    }
  }

  ghost predicate NoneNewer(log: Log, active: Version) {
    forall i :: 0 <= i < |log| ==> log[i].version.AtMost(active)
  }

  /** The blocks of the log, as events. */
  function AsBlocks(log: Log): (es: seq<Event>)
    ensures |es| == |log|
    ensures forall i :: 0 <= i < |log| ==> es[i] == Block(log[i].version, log[i].height, log[i].proposer, log[i].vote)
  {
    seq(|log|, i requires 0 <= i < |log| => Block(log[i].version, log[i].height, log[i].proposer, log[i].vote))
  }

  /** While no newer version is finalized, a manager's votes are the table of its log and nothing else changes. */
  lemma {:induction false} RunTracksLog(m: Manager, log: Log)
    requires m.upgrade.Some? && m.votes == map[] && NoneNewer(log, m.active)
    ensures Run(m, AsBlocks(log)) == m.(votes := TableAfter(m.upgrade.value, m.retention, log))
  {
    if log != [] {
      var init := log[..|log| - 1];
      var last := AsBlocks(log)[|log| - 1];
      RunTracksLog(m, init);
      assert AsBlocks(log) == AsBlocks(init) + [last];
      RunAppend(m, AsBlocks(init), [last]);
      var m' := Run(m, AsBlocks(init));
      assert [last][1..] == [];
      assert Run(m', [last]) == Apply(m', last);
    }
  }

  /** The part of the log that a table at its end may depend on. */
  function Recent(log: Log, from: nat): (r: Log) {
    if log == [] then []
    else
      var r := Recent(log[..|log| - 1], from);
      if log[|log| - 1].height >= from then r + [log[|log| - 1]] else r
  }

  /** Looking up a recent latest vote in the whole log or in its recent part is the same. */
  lemma {:induction false} LatestInRecent(u: Upgrade, log: Log, from: nat, a: Address)
    requires Ascending(log)
    ensures Latest(u, Recent(log, from), a)
         == if Latest(u, log, a).Some? && Latest(u, log, a).value.height >= from then Latest(u, log, a) else None
  {
    if log != [] {
      var init, last := log[..|log| - 1], log[|log| - 1];
      LatestInRecent(u, init, from, a);
      if last.height >= from {
        assert Recent(log, from)[..|Recent(log, from)| - 1] == Recent(init, from);
      } else if Latest(u, init, a).Some? {
        LatestIsOlder(u, log, a);
      }
    }
  }

  /** A table entry is the latest vote of the recent part of the log. */
  lemma EntryFromRecent(u: Upgrade, retention: nat, log: Log, a: Address)
    requires log != [] && Ascending(log)
    ensures var e := Latest(u, Recent(log, SaturatingSub(LastHeight(log), retention)), a);
            var t := TableAfter(u, retention, log);
            if e.Some? then a in t && t[a] == e.value else a !in t
  {
    EntryMatchesLog(u, retention, log, a);
    LatestInRecent(u, log, SaturatingSub(LastHeight(log), retention), a);
  }

  /** The logs end at the same height and agree on the retention window before it. */
  ghost predicate SameWindow(log1: Log, log2: Log, retention: nat) {
    && log1 != [] && log2 != [] && Ascending(log1) && Ascending(log2)
    && LastHeight(log1) == LastHeight(log2)
    && var from := SaturatingSub(LastHeight(log1), retention);
    Recent(log1, from) == Recent(log2, from)
  }

  /** Determinism: two nodes with the same upgrade configuration whose logs agree on the retention window before
      the same last height hold the same table, whatever each has seen before and whenever it started. */
  lemma SameWindowSameTable(u: Upgrade, retention: nat, log1: Log, log2: Log)
    requires SameWindow(log1, log2, retention)
    ensures TableAfter(u, retention, log1) == TableAfter(u, retention, log2)
  {
    var t1, t2 := TableAfter(u, retention, log1), TableAfter(u, retention, log2);
    forall a: Address
      ensures a in t1 <==> a in t2
      ensures a in t1 ==> t1[a] == t2[a]
    {
      EntryFromRecent(u, retention, log1, a);
      EntryFromRecent(u, retention, log2, a);
    }
  }

  /** The two configurations differ at most in the node's own vote. */
  predicate SameRules(u1: Upgrade, u2: Upgrade) {
    && u1.version == u2.version && u1.quorum == u2.quorum && u1.minValidatorCount == u2.minValidatorCount
    && u1.targetHeight == u2.targetHeight && u1.compliant == u2.compliant
  }

  /** Two such nodes, which may differ in their own vote, then decide every further proposal alike. */
  lemma SameWindowSameDecisions(m1: Manager, m2: Manager, log1: Log, log2: Log, height: nat, w: Version)
    requires m1.BuilderMade() && m2.BuilderMade() && m1.votes == m2.votes == map[]
    requires m1.upgrade.Some? && m2.upgrade.Some?
    requires SameRules(m1.upgrade.value, m2.upgrade.value)
    requires m1.active == m2.active && m1.retention == m2.retention
    requires NoneNewer(log1, m1.active) && NoneNewer(log2, m1.active)
    requires SameWindow(log1, log2, m1.retention)
    ensures var m1', m2' := Run(m1, AsBlocks(log1)), Run(m2, AsBlocks(log2));
            && m1'.BuilderMade() && m2'.BuilderMade()
            && Prepared(m1', height) == Prepared(m2', height)
            && (Processes(m1', height, w) <==> Processes(m2', height, w))
  {
    RunTracksLog(m1, log1);
    RunTracksLog(m2, log2);
    SameWindowSameTable(m1.upgrade.value, m1.retention, log1, log2);
    OwnVoteIsIrrelevant(m1.upgrade.value, m2.upgrade.value, m1.retention, log2);
  }

  lemma {:induction false} OwnVoteIsIrrelevant(u1: Upgrade, u2: Upgrade, retention: nat, log: Log)
    requires SameRules(u1, u2)
    ensures TableAfter(u1, retention, log) == TableAfter(u2, retention, log)
  {
    if log != [] {
      OwnVoteIsIrrelevant(u1, u2, retention, log[..|log| - 1]);
    }
  }

  /** The proposer of the last block is in the table with that block's height; all others are older. */
  lemma LastIsNewest(u: Upgrade, retention: nat, log: Log)
    requires log != [] && Ascending(log)
    ensures var t, last := TableAfter(u, retention, log), log[|log| - 1];
            && last.proposer in t && t[last.proposer].height == last.height
            && forall a :: a in t && a != last.proposer ==> t[a].height < last.height
  {
    var t, last := TableAfter(u, retention, log), log[|log| - 1];
    EntryMatchesLog(u, retention, log, last.proposer);
    assert Latest(u, log, last.proposer) == Some(Counted(u, last.vote, last.height));
    forall a | a in t && a != last.proposer ensures t[a].height < last.height {
      EntryMatchesLog(u, retention, log, a);
      assert Latest(u, log, a) == Latest(u, log[..|log| - 1], a);
      LatestIsOlder(u, log, a);
    }
  }

  lemma FinalizedPrunes(m: Manager, last: LogEntry)
    requires m.upgrade.Some? && !last.version.AtMost(m.active)
    ensures Finalized(m, last.version, last.height, last.proposer, last.vote).1.votes
            == Pruned(Tracked(m.upgrade.value, m.retention, m.votes, last.height, last.proposer, last.vote),
                      Min(last.height + 1, WORD_MAX))
  {
  }

  /** The first finalized block of any newer version empties the table, except at the largest height a machine word
      holds: there the saturating bound keeps exactly the vote of that block's proposer. */
  lemma NewerVersionClearsVotes(m: Manager, log: Log, last: LogEntry)
    requires m.upgrade.Some? && m.votes == TableAfter(m.upgrade.value, m.retention, log)
    requires Ascending(log + [last]) && last.height <= WORD_MAX && !last.version.AtMost(m.active)
    ensures Finalized(m, last.version, last.height, last.proposer, last.vote).1.votes.Keys
            == if last.height < WORD_MAX then {} else {last.proposer}
  {
    var all := log + [last];
    assert all[..|all| - 1] == log;
    FinalizedPrunes(m, last);
    LastIsNewest(m.upgrade.value, m.retention, all);
    PrunedKeys(TableAfter(m.upgrade.value, m.retention, all), last.proposer, last.height);
  }

  lemma PrunedKeys(t: Table, proposer: Address, height: nat)
    requires proposer in t && t[proposer].height == height <= WORD_MAX
    requires forall a :: a in t && a != proposer ==> t[a].height < height
    ensures Pruned(t, Min(height + 1, WORD_MAX)).Keys == if height < WORD_MAX then {} else {proposer}
  {
  }
}
