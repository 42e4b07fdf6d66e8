/** The network upgrade activation manager, driven by CometBFT's prepare, process and finalize calls. */
module Activation {
  import opened Options
  import opened VoteTable

  const MIN_QUORUM: nat := 67
  const MIN_VALIDATOR_COUNT: nat := 3
  const WORD_MAX: nat := 0xFFFF_FFFF_FFFF_FFFF

  /** Ordered lexicographically. */
  datatype Version = Version(major: nat, minor: nat) {
    predicate Less(v: Version) {
      major < v.major || (major == v.major && minor < v.minor)
    }
    predicate AtMost(v: Version) {
      this == v || Less(v)
    }
  }

  datatype Upgrade = Upgrade(
    version: Version, quorum: nat, minValidatorCount: nat, targetHeight: nat, ourVote: Vote, compliant: bool)

  datatype Payload = Payload(version: Version, vote: Vote, compliant: bool)

  datatype Conditions = Conditions(compReq: bool, ayeReq: bool, compApprovalReq: bool, heightReq: bool) {
    predicate AllPassing() {
      compReq && ayeReq && compApprovalReq && heightReq
    }
  }

  /** The manager's state as a value. */
  datatype Manager = Manager(active: Version, upgrade: Option<Upgrade>, retention: nat, votes: Table) {
    /** What the builders guarantee and every call keeps: a pending upgrade is newer than the active version and
        carries the minimum quorum and validator count. */
    predicate BuilderMade() {
      upgrade.Some? ==>
        && active.Less(upgrade.value.version)
        && upgrade.value.quorum >= MIN_QUORUM
        && upgrade.value.minValidatorCount >= MIN_VALIDATOR_COUNT
    }
  }

  // ---------- the three build modes; `None` is a failed assertion ----------

  function BuildIgnore(active: Version, retention: nat): (r: Option<Manager>)
    ensures r.Some? && r.value.BuilderMade() && r.value.upgrade.None?
    ensures r.value.active == active && r.value.retention == retention && r.value.votes == map[]
  {
    Some(Manager(active, None, retention, map[]))
  }

  function BuildSignal(active: Version, retention: nat, v: Version, vote: Vote): (r: Option<Manager>)
    ensures r.Some? <==> active.Less(v)
    ensures r.Some? ==> r.value.BuilderMade() && r.value.upgrade.Some? && !r.value.upgrade.value.compliant
    ensures r.Some? ==> r.value.active == active && r.value.retention == retention && r.value.votes == map[]
    ensures r.Some? ==> r.value.upgrade.value.version == v && r.value.upgrade.value.ourVote == vote
  {
    if !active.Less(v) then None
    else Some(Manager(active, Some(Upgrade(v, WORD_MAX, WORD_MAX, WORD_MAX, vote, false)), retention, map[]))
  }

  function BuildCompliant(active: Version, retention: nat, v: Version, quorum: nat, minCount: nat, target: nat,
                          vote: Option<Vote>): (r: Option<Manager>)
    ensures r.Some? <==> active.Less(v) && quorum >= MIN_QUORUM && minCount >= MIN_VALIDATOR_COUNT
    ensures r.Some? ==> r.value.BuilderMade() && r.value.upgrade.Some? && r.value.upgrade.value.compliant
    ensures r.Some? ==> r.value.active == active && r.value.retention == retention && r.value.votes == map[]
    ensures r.Some? ==>
              var u := r.value.upgrade.value;
              && u.version == v && u.quorum == quorum && u.minValidatorCount == minCount && u.targetHeight == target
              && u.ourVote == if vote.None? then Aye else vote.value
  {
    if !active.Less(v) || quorum < MIN_QUORUM || minCount < MIN_VALIDATOR_COUNT then None
    else
      var ourVote := if vote.None? then Aye else vote.value;
      Some(Manager(active, Some(Upgrade(v, quorum, minCount, target, ourVote, true)), retention, map[]))
  }

  // ---------- the calls as functions of the state ----------

  function Check(u: Upgrade, votes: Table, height: nat): (c: Conditions)
    requires u.minValidatorCount > 0
  {
    var total := Total(votes, u.minValidatorCount);
    Conditions(
      u.compliant,
      Rate(|Voted(votes, Aye)|, total) >= u.quorum,
      Rate(|VoteTable.Compliant(votes)|, total) >= u.quorum,
      height >= u.targetHeight)
  }

  /** The version `on_prepare_proposal` proposes. */
  function Prepared(m: Manager, height: nat): (v: Version)
    requires m.BuilderMade()
  {
    if m.upgrade.Some? && Check(m.upgrade.value, m.votes, height).AllPassing()
    then m.upgrade.value.version else m.active
  }

  /** Whether `on_process_proposal` accepts a block. */
  predicate Processes(m: Manager, height: nat, v: Version)
    requires m.BuilderMade()
  {
    || (m.upgrade.Some? && v == m.upgrade.value.version && Check(m.upgrade.value, m.votes, height).AllPassing())
    || v == m.active
  }

  /** A missing vote, or one for another version, counts as abstained and not compliant. */
  function Counted(u: Upgrade, vote: Option<Payload>, height: nat): Entry {
    if vote.Some? && vote.value.version == u.version then Entry(vote.value.vote, vote.value.compliant, height)
    else Entry(Abstain, false, height)
  }

  function Tracked(u: Upgrade, retention: nat, votes: Table, height: nat, proposer: Address,
                   vote: Option<Payload>): Table {
    Pruned(Updated(votes, proposer, Counted(u, vote, height)), SaturatingSub(height, retention))
  }

  /** State after `on_finalize_block`, and whether the block was finalized rather than rejected as a dead end. */
  function Finalized(m: Manager, v: Version, height: nat, proposer: Address, vote: Option<Payload>)
    : (r: (bool, Manager))
  {
    if m.upgrade.None? then (v.AtMost(m.active), m)
    else
      var u := m.upgrade.value;
      var tracked := m.(votes := Tracked(u, m.retention, m.votes, height, proposer, vote));
      if v.AtMost(m.active) then (true, tracked)
      else
        var cleared := tracked.(votes := Pruned(tracked.votes, Min(height + 1, WORD_MAX)));
        if v != u.version then (false, cleared)
        else if !u.compliant then (false, cleared.(upgrade := None))
        else (true, cleared.(upgrade := None, active := u.version))
  }

  /** State after `force_upgrade_checked`, and whether the upgrade was forced. */
  function Forced(m: Manager, v: Version): (r: (bool, Manager)) {
    if m.upgrade.None? || m.upgrade.value.version != v || !m.upgrade.value.compliant then (false, m)
    else (true, m.(upgrade := None, active := v))
  }

  // ---------- the manager as an object ----------

  datatype Proposal = Proposal(version: Version, vote: Option<Payload>, conditions: Option<Conditions>)
  datatype Verdict =
    | Process(version: Version, conditions: Option<Conditions>)
    | RejectBlock(version: Version, conditions: Option<Conditions>)
  datatype FinalizeDecision = Finalize(version: Version) | RejectBlockDeadEnd(version: Version)
  datatype Polling = Polling(ayes: nat, nays: nat, abstained: nat, compliant: nat, total: nat)

  class ActivationManager {
    const client: VoteWatcher
    const voteRetentionPeriod: nat
    var activeVersion: Version
    var upgrade: Option<Upgrade>

    ghost function State(): Manager
      reads this, client
    {
      Manager(activeVersion, upgrade, voteRetentionPeriod, client.votes)
    }

    constructor (client: VoteWatcher, retention: nat, active: Version, upgrade: Option<Upgrade>)
      ensures this.client == client && State() == Manager(active, upgrade, retention, client.votes)
    {
      this.client := client;
      this.voteRetentionPeriod := retention;
      this.activeVersion := active;
      this.upgrade := upgrade;
    }

    method ValidateConditions(u: Upgrade, height: nat) returns (c: Conditions)
      requires u.minValidatorCount > 0
      ensures c == Check(u, client.votes, height)
    {
      var total := Max(|client.votes|, u.minValidatorCount);
      var ayeApproval := DivCeil(|Voted(client.votes, Aye)| * 100, total);
      var compApproval := DivCeil(|VoteTable.Compliant(client.votes)| * 100, total);
      c := Conditions(u.compliant, ayeApproval >= u.quorum, compApproval >= u.quorum, height >= u.targetHeight);
    }

    /** Our own vote goes into every proposal while an upgrade is tracked, whatever version is proposed. */
    method OnPrepareProposal(height: nat) returns (d: Proposal)
      requires State().BuilderMade()
      ensures d.version == Prepared(State(), height)
      ensures d.vote == if upgrade.None? then None
                        else Some(Payload(upgrade.value.version, upgrade.value.ourVote, upgrade.value.compliant))
      ensures d.conditions == if upgrade.None? then None else Some(Check(upgrade.value, client.votes, height))
    {
      var ourVote, conditions := None, None;
      if upgrade.Some? {
        var u := upgrade.value;
        assert u.quorum >= MIN_QUORUM;
        ourVote := Some(Payload(u.version, u.ourVote, u.compliant));
        var c := ValidateConditions(u, height);
        if c.AllPassing() {
          return Proposal(u.version, ourVote, Some(c));
        }
        conditions := Some(c);
      }
      d := Proposal(activeVersion, ourVote, conditions);
    }

    method OnProcessProposal(height: nat, v: Version) returns (d: Verdict)
      requires State().BuilderMade()
      ensures d.Process? <==> Processes(State(), height, v)
      ensures d.version == v
      ensures d.conditions == if upgrade.None? then None else Some(Check(upgrade.value, client.votes, height))
    {
      var conditions := None;
      if upgrade.Some? {
        var c := ValidateConditions(upgrade.value, height);
        conditions := Some(c);
        if c.AllPassing() && v == upgrade.value.version {
          return Process(upgrade.value.version, conditions);
        }
      }
      if v == activeVersion {
        return Process(activeVersion, conditions);
      }
      d := RejectBlock(v, conditions);
    }

    method TrackVote(height: nat, proposer: Address, vote: Option<Payload>)
      requires upgrade.Some?
      modifies client
      ensures client.votes == Tracked(upgrade.value, voteRetentionPeriod, old(client.votes), height, proposer, vote)
    {
      var u := upgrade.value;
      var e := Counted(u, vote, height);
      client.UpdateUpgradingVote(proposer, e.vote, e.compliant, height);
      var _ := client.RemoveUpgradingVotes(SaturatingSub(height, voteRetentionPeriod));
    }

    method OnFinalizeBlock(v: Version, height: nat, proposer: Address, vote: Option<Payload>)
      returns (d: FinalizeDecision)
      modifies this`activeVersion, this`upgrade, client
      ensures (d.Finalize?, State()) == Finalized(old(State()), v, height, proposer, vote)
      ensures d.version == v
    {
      if upgrade.Some? {
        TrackVote(height, proposer, vote);
      }
      if v.AtMost(activeVersion) {
        return Finalize(v);
      }
      if upgrade.Some? {
        var u := upgrade.value;
        var _ := client.RemoveUpgradingVotes(Min(height + 1, WORD_MAX));
        if v != u.version {
          return RejectBlockDeadEnd(v);
        }
        if !u.compliant {
          upgrade := None;
          return RejectBlockDeadEnd(v);
        }
        activeVersion := u.version;
        upgrade := None;
        return Finalize(activeVersion);
      }
      d := RejectBlockDeadEnd(v);
    }

    method ForceUpgradeChecked(v: Version) returns (forced: bool)
      modifies this`activeVersion, this`upgrade
      ensures (forced, State()) == Forced(old(State()), v)
    {
      if upgrade.None? { return false; }
      if upgrade.value.version != v { return false; }
      if !upgrade.value.compliant { return false; }
      upgrade := None;
      activeVersion := v;
      forced := true;
    }

    /** The three vote counts add up to the number of validators that voted. */
    method GetUpgradePolling() returns (r: Option<(Version, Polling)>)
      ensures r.Some? <==> upgrade.Some?
      ensures r.Some? ==> r.value.0 == upgrade.value.version
      ensures r.Some? ==> var q := r.value.1;
                && q.ayes == |Voted(client.votes, Aye)| && q.nays == |Voted(client.votes, Nay)|
                && q.compliant == |VoteTable.Compliant(client.votes)|
                && q.total == |client.votes| && q.ayes + q.nays + q.abstained == q.total
    {
      if upgrade.None? { return None; }
      var t := client.votes;
      VotesAddUp(t);
      r := Some((upgrade.value.version,
                 Polling(|Voted(t, Aye)|, |Voted(t, Nay)|, |Voted(t, Abstain)|, |VoteTable.Compliant(t)|, |t|)));
    }
  }
}
