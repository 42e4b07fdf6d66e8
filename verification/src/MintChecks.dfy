/** The checks a block executor makes on the logs of a successful transaction. */
module MintChecks {
  import opened Options
  import opened Bytes
  import opened Amounts
  import opened ProofCodec
  import opened PeginValidation
  import opened PegoutIds
  import MintContract

  type Log = MintContract.Log

  /** What a Botanix block is executed with: the Bitcoin checkpoint and the federation's aggregate key it commits to,
      and the checkpoints of the blocks in the database at that time (`None` when there is no such block or it has no
      package). */
  datatype Package = Package(checkpoint: Checkpoint, key: Key, checkpointOf: Bytes32 -> Option<Checkpoint>)

  datatype PegoutData = PegoutData(amount: nat, destination: Bytes)
  datatype Pegout = Pegout(data: PegoutData, id: PegoutId)

  /** What the checks call: the library formats and primitives and whether an address string is valid for the
      network. */
  datatype Node = Node(formats: Formats, primitives: Primitives, validAddress: Bytes -> bool)

  datatype Check<+T> = Passed(value: T) | Failed | Crashed

  function RefOf(m: Meta): Option<Bytes32> {
    if m.V0? then None else Some(m.refBlockHash)
  }

  /** The checkpoint a peg-in is judged against: a version-1 proof names the block to take it from. */
  function CheckpointFor(pkg: Package, first: Meta): (c: Option<Checkpoint>) {
    if first.proof.version == 1 then
      if first.V0? then None else pkg.checkpointOf(first.refBlockHash)
    else if first.proof.version == 0 && first.V1? then None
    else Some(pkg.checkpoint)
  }

  predicate Uniform(ms: seq<Meta>) {
    forall i :: 0 <= i < |ms| ==> ms[i].proof.version == ms[0].proof.version && RefOf(ms[i]) == RefOf(ms[0])
  }

  /** The verdict on the proofs of a mint: how much their outputs are worth. */
  function JudgeMint(n: Node, pkg: Package, q: Claim, metadata: Bytes): (r: Check<(seq<Meta>, nat)>)
    requires n.formats.Forward()
  {
    match Parse(n.formats, metadata)
    case BadProof(_) => Failed
    case DuplicateOutpoints => Failed
    case Parsed(ms) =>
      if ms == [] || CheckpointFor(pkg, ms[0]).None? || !Uniform(ms) then Failed
      else
        var c := CheckpointFor(pkg, ms[0]).value;
        if q.height > c.height then Failed
        else
          match Judge(n.primitives, c, pkg.key, q, ms)
          case Rejected(_) => Failed
          case Aborted => Crashed
          case Accepted(aggregate) => Passed((ms, aggregate))
  }

  /** The verdict on one mint log. */
  function CheckMint(n: Node, pkg: Package, log: Log): (r: Check<PeginData>)
    requires n.formats.Forward() && log.MintLog?
  {
    match JudgeMint(n, pkg, Claim(log.account, log.height), log.metadata)
    case Failed => Failed
    case Crashed => Crashed
    case Passed((ms, aggregate)) =>
      if log.amount >= aggregate then Failed else Passed(PeginData(log.account, log.amount, log.height, ms))
  }

  /** The peg-ins of the logs, in order; the first bad mint decides. */
  function CheckMints(n: Node, pkg: Package, logs: seq<Log>): (r: Check<seq<PeginData>>)
    requires n.formats.Forward()
  {
    if logs == [] then Passed([])
    else
      var init, last := CheckMints(n, pkg, logs[..|logs| - 1]), logs[|logs| - 1];
      if !init.Passed? || !last.MintLog? then init
      else
        match CheckMint(n, pkg, last)
        case Passed(d) => Passed(init.value + [d])
        case Failed => Failed
        case Crashed => Crashed
  }

  /** A burn log as a peg-out: the amount is rounded down to whole satoshis. */
  function CheckBurn(n: Node, log: Log): (r: Check<PegoutData>)
    requires log.BurnLog?
    ensures r.Passed? ==> ToWei(r.value.amount) <= log.burned
    ensures !r.Crashed?
  {
    var amount := FromWeiFloor(log.burned);
    if amount.None? || |log.data| != 1 || !n.validAddress(log.destination) then Failed
    else Passed(PegoutData(amount.value, log.destination))
  }

  /** A burn becomes a peg-out exactly when its satoshis fit 64 bits, its version is one byte and its address is
      valid; it then releases the largest whole amount of satoshis that was burned, to that address. */
  lemma BurnPassesExactly(n: Node, log: Log)
    requires log.BurnLog?
    ensures CheckBurn(n, log).Passed? <==>
              log.burned < ToWei(MAX_SATOSHI + 1) && |log.data| == 1 && n.validAddress(log.destination)
    ensures CheckBurn(n, log).Passed? ==>
              var d := CheckBurn(n, log).value;
              ToWei(d.amount) <= log.burned < ToWei(d.amount + 1) && d.destination == log.destination
  {
  }

  function CheckBurns(n: Node, tx: Bytes32, logs: seq<Log>): (r: Check<seq<Pegout>>)
    ensures !r.Crashed?
  {
    if logs == [] then Passed([])
    else
      var i := |logs| - 1;
      var init := CheckBurns(n, tx, logs[..i]);
      if !init.Passed? || !logs[i].BurnLog? then init
      else
        match CheckBurn(n, logs[i])
        case Passed(d) => Passed(init.value + [Pegout(d, PegoutId(tx, i % 0x1_0000_0000))])
        case Failed => Failed
  }

  /** `botanix_mint_contract_checks` */
  function CheckLogs(n: Node, pkg: Package, tx: Bytes32, logs: seq<Log>): (r: Check<(seq<PeginData>, seq<Pegout>)>)
    requires n.formats.Forward()
  {
    match CheckMints(n, pkg, logs)
    case Failed => Failed
    case Crashed => Crashed
    case Passed(pegins) =>
      match CheckBurns(n, tx, logs)
      case Passed(pegouts) => Passed((pegins, pegouts))
      case Failed => Failed
  }

  lemma {:induction false} MintsPrefix(n: Node, pkg: Package, logs: seq<Log>, k: nat)
    requires n.formats.Forward() && k <= |logs| && !CheckMints(n, pkg, logs[..k]).Passed?
    ensures CheckMints(n, pkg, logs) == CheckMints(n, pkg, logs[..k])
    decreases |logs| - k
  {
    if k == |logs| {
      assert logs[..k] == logs;
    } else {
      assert logs[..k + 1][..k] == logs[..k];
      MintsPrefix(n, pkg, logs, k + 1);
    }
  }

  lemma {:induction false} BurnsPrefix(n: Node, tx: Bytes32, logs: seq<Log>, k: nat)
    requires k <= |logs| && !CheckBurns(n, tx, logs[..k]).Passed?
    ensures CheckBurns(n, tx, logs) == CheckBurns(n, tx, logs[..k])
    decreases |logs| - k
  {
    if k == |logs| {
      assert logs[..k] == logs;
    } else {
      assert logs[..k + 1][..k] == logs[..k];
      BurnsPrefix(n, tx, logs, k + 1);
    }
  }

  /** Parses and validates one mint log. */
  method CheckMintLog(n: Node, pkg: Package, log: Log) returns (r: Check<PeginData>)
    requires n.formats.Forward() && log.MintLog?
    ensures r == CheckMint(n, pkg, log)
  {
    var parsed := ParseMetadata(n.formats, log.metadata);
    if !parsed.Parsed? { return Failed; }
    var ms := parsed.proofs;
    if ms == [] { return Failed; }
    var c := CheckpointFor(pkg, ms[0]);
    if c.None? || !Uniform(ms) || log.height > c.value.height { return Failed; }
    var d := PeginData(log.account, log.amount, log.height, ms);
    var v := Validate(n.primitives, c.value, pkg.key, d);
    match v {
      case Rejected(_) => r := Failed;
      case Aborted => r := Crashed;
      case Accepted(aggregate) => r := if d.amount >= aggregate then Failed else Passed(d);
    }
  }

  method CheckAllMints(n: Node, pkg: Package, logs: seq<Log>) returns (r: Check<seq<PeginData>>)
    requires n.formats.Forward()
    ensures r == CheckMints(n, pkg, logs)
  {
    var pegins := [];
    for i := 0 to |logs|
      invariant CheckMints(n, pkg, logs[..i]) == Passed(pegins)
    {
      assert logs[..i + 1][..i] == logs[..i];
      if logs[i].MintLog? {
        var one := CheckMintLog(n, pkg, logs[i]);
        if !one.Passed? {
          MintsPrefix(n, pkg, logs, i + 1);
          return if one.Crashed? then Crashed else Failed;
        }
        pegins := pegins + [one.value];
      }
    }
    assert logs[..|logs|] == logs;
    r := Passed(pegins);
  }

  method CheckAllBurns(n: Node, tx: Bytes32, logs: seq<Log>) returns (r: Check<seq<Pegout>>)
    ensures r == CheckBurns(n, tx, logs)
  {
    var pegouts := [];
    for i := 0 to |logs|
      invariant CheckBurns(n, tx, logs[..i]) == Passed(pegouts)
    {
      assert logs[..i + 1][..i] == logs[..i];
      if logs[i].BurnLog? {
        var one := CheckBurn(n, logs[i]);
        if !one.Passed? {
          BurnsPrefix(n, tx, logs, i + 1);
          return Failed;
        }
        pegouts := pegouts + [Pegout(one.value, PegoutId(tx, i % 0x1_0000_0000))];
      }
    }
    assert logs[..|logs|] == logs;
    r := Passed(pegouts);
  }

  /** `botanix_mint_contract_checks`: first all mints, then all burns. */
  method BotanixMintContractChecks(n: Node, pkg: Package, tx: Bytes32, logs: seq<Log>)
    returns (r: Check<(seq<PeginData>, seq<Pegout>)>)
    requires n.formats.Forward()
    ensures r == CheckLogs(n, pkg, tx, logs)
  {
    var pegins := CheckAllMints(n, pkg, logs);
    if !pegins.Passed? { return if pegins.Crashed? then Crashed else Failed; }
    var pegouts := CheckAllBurns(n, tx, logs);
    if !pegouts.Passed? { return Failed; }
    r := Passed((pegins.value, pegouts.value));
  }

  // ---------- when the checks stop the process ----------

  /** The log gets as far as the validation of its proofs, and some proof there names the output one past the last. */
  ghost predicate StopsValidation(n: Node, pkg: Package, log: Log)
    requires n.formats.Forward()
  {
    && log.MintLog? && Parse(n.formats, log.metadata).Parsed?
    && var ms := Parse(n.formats, log.metadata).proofs;
    && ms != [] && CheckpointFor(pkg, ms[0]).Some? && Uniform(ms)
    && var c := CheckpointFor(pkg, ms[0]).value;
    && log.height <= c.height
    && exists i: nat :: i < |ms| &&
         OnePastTheEnd(n.primitives, c, pkg.key, Claim(log.account, log.height), ms, i)
  }

  lemma MintCrashesExactly(n: Node, pkg: Package, log: Log)
    requires n.formats.Forward() && log.MintLog?
    ensures CheckMint(n, pkg, log).Crashed? <==> StopsValidation(n, pkg, log)
  {
    if Parse(n.formats, log.metadata).Parsed? {
      var ms := Parse(n.formats, log.metadata).proofs;
      if ms != [] && CheckpointFor(pkg, ms[0]).Some? {
        AbortsExactlyOnePastTheEnd(n.primitives, CheckpointFor(pkg, ms[0]).value, pkg.key,
                                   Claim(log.account, log.height), ms);
      }
    }
  }

  /** Log `k` is the first that does not pass, and it stops the process. */
  ghost predicate StopsAt(n: Node, pkg: Package, logs: seq<Log>, k: nat)
    requires n.formats.Forward() && k < |logs|
  {
    CheckMints(n, pkg, logs[..k]).Passed? && StopsValidation(n, pkg, logs[k])
  }

  ghost predicate SomeLogStops(n: Node, pkg: Package, logs: seq<Log>)
    requires n.formats.Forward()
  {
    exists k: nat :: k < |logs| && StopsAt(n, pkg, logs, k)
  }

  lemma StopCrashesChecks(n: Node, pkg: Package, logs: seq<Log>, k: nat)
    requires n.formats.Forward() && k < |logs| && StopsAt(n, pkg, logs, k)
    ensures CheckMints(n, pkg, logs).Crashed?
  {
    MintCrashesExactly(n, pkg, logs[k]);
    assert logs[..k + 1][..k] == logs[..k];
    MintsPrefix(n, pkg, logs, k + 1);
  }

  lemma {:induction false} CrashStopsSomewhere(n: Node, pkg: Package, logs: seq<Log>) returns (k: nat)
    requires n.formats.Forward() && CheckMints(n, pkg, logs).Crashed?
    ensures k < |logs| && StopsAt(n, pkg, logs, k)
  {
    var i := |logs| - 1;
    if CheckMints(n, pkg, logs[..i]).Crashed? {
      k := CrashStopsSomewhere(n, pkg, logs[..i]);
      assert logs[..i][..k] == logs[..k];
    } else {
      k := i;
      MintCrashesExactly(n, pkg, logs[i]);
    }
  }

  /** The checks of a transaction stop the process exactly at a mint log, after passing ones, that names the output
      one past the last. */
  lemma ChecksCrashExactly(n: Node, pkg: Package, logs: seq<Log>)
    requires n.formats.Forward()
    ensures CheckMints(n, pkg, logs).Crashed? <==> SomeLogStops(n, pkg, logs)
  {
    if CheckMints(n, pkg, logs).Crashed? {
      var k := CrashStopsSomewhere(n, pkg, logs);
    }
    forall k: nat | k < |logs| && StopsAt(n, pkg, logs, k) ensures CheckMints(n, pkg, logs).Crashed? {
      StopCrashesChecks(n, pkg, logs, k);
    }
  }

  // ---------- peg-ins ----------

  /** The peg-in of the mint at position `k`: its account, amount and height, and the proofs parsed from its
      metadata. */
  ghost predicate IsPeginOf(f: Formats, logs: seq<Log>, d: PeginData, k: nat)
    requires f.Forward()
  {
    && k < |logs| && logs[k].MintLog? && Parse(f, logs[k].metadata).Parsed?
    && d == PeginData(logs[k].account, logs[k].amount, logs[k].height, Parse(f, logs[k].metadata).proofs)
  }

  /** The peg-ins are those of the mints at the given positions, in order, and there is no other mint. */
  ghost predicate PeginsMatch(f: Formats, logs: seq<Log>, ds: seq<PeginData>, ks: seq<nat>)
    requires f.Forward()
  {
    && |ks| == |ds|
    && (forall i :: 0 <= i < |ds| ==> IsPeginOf(f, logs, ds[i], ks[i]))
    && (forall i, j :: 0 <= i < j < |ks| ==> ks[i] < ks[j])
    && (forall k :: 0 <= k < |logs| && logs[k].MintLog? ==> k in ks)
  }

  lemma PeginsExtend(f: Formats, logs: seq<Log>, log: Log, ds: seq<PeginData>, ks: seq<nat>)
    requires f.Forward() && PeginsMatch(f, logs, ds, ks) && !log.MintLog?
    ensures PeginsMatch(f, logs + [log], ds, ks)
  {
    forall i | 0 <= i < |ds| ensures IsPeginOf(f, logs + [log], ds[i], ks[i]) {
      assert IsPeginOf(f, logs, ds[i], ks[i]);
    }
  }

  lemma PeginsGrow(f: Formats, logs: seq<Log>, log: Log, ds: seq<PeginData>, ks: seq<nat>, d: PeginData)
    requires f.Forward() && PeginsMatch(f, logs, ds, ks) && IsPeginOf(f, logs + [log], d, |logs|)
    ensures PeginsMatch(f, logs + [log], ds + [d], ks + [|logs|])
  {
    var ks' := ks + [|logs|];
    forall i | 0 <= i < |ds| ensures IsPeginOf(f, logs + [log], ds[i], ks[i]) && ks[i] < |logs| {
      assert IsPeginOf(f, logs, ds[i], ks[i]);
    }
    forall k | 0 <= k < |logs + [log]| && (logs + [log])[k].MintLog? ensures k in ks' {
      if k < |logs| {
        assert k in ks;
      } else {
        assert ks'[|ks|] == k;
      }
    }
  }

  lemma CheckedMintIsParsed(n: Node, pkg: Package, logs: seq<Log>, log: Log)
    requires n.formats.Forward() && log.MintLog? && CheckMint(n, pkg, log).Passed?
    ensures IsPeginOf(n.formats, logs + [log], CheckMint(n, pkg, log).value, |logs|)
  {
  }

  /** What the last log adds to the peg-ins. */
  lemma LastMintAdds(n: Node, pkg: Package, logs: seq<Log>)
    requires n.formats.Forward() && logs != [] && CheckMints(n, pkg, logs).Passed?
    ensures CheckMints(n, pkg, logs[..|logs| - 1]).Passed?
    ensures var before, log := CheckMints(n, pkg, logs[..|logs| - 1]).value, logs[|logs| - 1];
            if log.MintLog? then
              && CheckMint(n, pkg, log).Passed?
              && CheckMints(n, pkg, logs).value == before + [CheckMint(n, pkg, log).value]
            else CheckMints(n, pkg, logs).value == before
  {
  }

  lemma LastMintMatches(n: Node, pkg: Package, logs: seq<Log>, before: seq<PeginData>, ks: seq<nat>,
                        ds: seq<PeginData>) returns (ks': seq<nat>)
    requires n.formats.Forward() && logs != [] && PeginsMatch(n.formats, logs[..|logs| - 1], before, ks)
    requires var log := logs[|logs| - 1];
             if log.MintLog? then CheckMint(n, pkg, log).Passed? && ds == before + [CheckMint(n, pkg, log).value]
             else ds == before
    ensures PeginsMatch(n.formats, logs, ds, ks')
  {
    var init, log := logs[..|logs| - 1], logs[|logs| - 1];
    assert logs == init + [log];
    if log.MintLog? {
      CheckedMintIsParsed(n, pkg, init, log);
      PeginsGrow(n.formats, init, log, before, ks, CheckMint(n, pkg, log).value);
      ks' := ks + [|init|];
    } else {
      PeginsExtend(n.formats, init, log, before, ks);
      ks' := ks;
    }
  }

  lemma NoLogsMatch(f: Formats)
    requires f.Forward()
    ensures PeginsMatch(f, [], [], [])
  {
  }

  /** One peg-in per mint and no other, in log order. */
  lemma {:induction false} PeginsMatchMints(n: Node, pkg: Package, logs: seq<Log>, ds: seq<PeginData>)
    returns (ks: seq<nat>)
    requires n.formats.Forward() && CheckMints(n, pkg, logs) == Passed(ds)
    ensures PeginsMatch(n.formats, logs, ds, ks)
    decreases |logs|
  {
    if logs == [] {
      NoLogsMatch(n.formats);
      ks := [];
    } else {
      LastMintAdds(n, pkg, logs);
      var before := CheckMints(n, pkg, logs[..|logs| - 1]).value;
      var ks0 := PeginsMatchMints(n, pkg, logs[..|logs| - 1], before);
      ks := LastMintMatches(n, pkg, logs, before, ks0, ds);
    }
  }

  // ---------- peg-outs ----------

  function Burned(logs: seq<Log>): (n: nat) {
    if logs == [] then 0
    else Burned(logs[..|logs| - 1]) + (if logs[|logs| - 1].BurnLog? then logs[|logs| - 1].burned else 0)
  }

  function Released(ps: seq<Pegout>): (n: nat) {
    if ps == [] then 0 else Released(ps[..|ps| - 1]) + ToWei(ps[|ps| - 1].data.amount)
  }

  /** How many logs are burns. */
  function Burns(logs: seq<Log>): (n: nat) {
    if logs == [] then 0 else Burns(logs[..|logs| - 1]) + (if logs[|logs| - 1].BurnLog? then 1 else 0)
  }

  /** The peg-out of the burn at position `k`: it goes where the burn says, and its amount is the burned one without the
      part below a satoshi. */
  ghost predicate IsPegoutOf(tx: Bytes32, logs: seq<Log>, p: Pegout, k: nat) {
    && k < |logs| && logs[k].BurnLog? && p.id == PegoutId(tx, k % 0x1_0000_0000)
    && p.data.destination == logs[k].destination
    && ToWei(p.data.amount) <= logs[k].burned < ToWei(p.data.amount + 1)
  }

  /** The peg-outs are those of the burns at the given positions, in order, and there is no other burn. */
  ghost predicate PegoutsMatch(tx: Bytes32, logs: seq<Log>, ps: seq<Pegout>, ks: seq<nat>) {
    && |ks| == |ps|
    && (forall i :: 0 <= i < |ps| ==> IsPegoutOf(tx, logs, ps[i], ks[i]))
    && (forall i, j :: 0 <= i < j < |ks| ==> ks[i] < ks[j])
    && (forall k :: 0 <= k < |logs| && logs[k].BurnLog? ==> k in ks)
  }

  lemma MatchExtends(tx: Bytes32, logs: seq<Log>, log: Log, ps: seq<Pegout>, ks: seq<nat>)
    requires PegoutsMatch(tx, logs, ps, ks) && !log.BurnLog?
    ensures PegoutsMatch(tx, logs + [log], ps, ks)
  {
    forall i | 0 <= i < |ps| ensures IsPegoutOf(tx, logs + [log], ps[i], ks[i]) {
      assert IsPegoutOf(tx, logs, ps[i], ks[i]);
    }
  }

  lemma MatchGrows(tx: Bytes32, logs: seq<Log>, log: Log, ps: seq<Pegout>, ks: seq<nat>, p: Pegout)
    requires PegoutsMatch(tx, logs, ps, ks) && log.BurnLog? && IsPegoutOf(tx, logs + [log], p, |logs|)
    ensures PegoutsMatch(tx, logs + [log], ps + [p], ks + [|logs|])
  {
    var ks' := ks + [|logs|];
    forall i | 0 <= i < |ps| ensures IsPegoutOf(tx, logs + [log], ps[i], ks[i]) && ks[i] < |logs| {
      assert IsPegoutOf(tx, logs, ps[i], ks[i]);
    }
    forall k | 0 <= k < |logs + [log]| && (logs + [log])[k].BurnLog? ensures k in ks' {
      if k < |logs| {
        assert k in ks;
      } else {
        assert ks'[|ks|] == k;
      }
    }
  }

  /** One peg-out per burn and no other: each goes to its own burn's address and releases its own burn's whole satoshis,
      in log order. */
  lemma {:induction false} PegoutsMatchBurns(n: Node, tx: Bytes32, logs: seq<Log>) returns (ks: seq<nat>)
    requires CheckBurns(n, tx, logs).Passed?
    ensures PegoutsMatch(tx, logs, CheckBurns(n, tx, logs).value, ks)
  {
    if logs == [] {
      ks := [];
    } else {
      var i := |logs| - 1;
      var init, last := logs[..i], logs[i];
      ks := PegoutsMatchBurns(n, tx, init);
      assert logs == init + [last];
      if last.BurnLog? {
        BurnPassesExactly(n, last);
        MatchGrows(tx, init, last, CheckBurns(n, tx, init).value, ks,
                   Pegout(CheckBurn(n, last).value, PegoutId(tx, i % 0x1_0000_0000)));
        ks := ks + [i];
      } else {
        MatchExtends(tx, init, last, CheckBurns(n, tx, init).value, ks);
      }
    }
  }

  /** The burns of a transaction pass exactly when each of them does. */
  lemma {:induction false} BurnsPassExactly(n: Node, tx: Bytes32, logs: seq<Log>)
    ensures CheckBurns(n, tx, logs).Passed? <==>
              forall k :: 0 <= k < |logs| && logs[k].BurnLog? ==>
                logs[k].burned < ToWei(MAX_SATOSHI + 1) && |logs[k].data| == 1 && n.validAddress(logs[k].destination)
  {
    if logs != [] {
      var i := |logs| - 1;
      BurnsPassExactly(n, tx, logs[..i]);
      assert forall k :: 0 <= k < i ==> logs[..i][k] == logs[k];
      if logs[i].BurnLog? {
        BurnPassesExactly(n, logs[i]);
      }
    }
  }

  /** Peg-outs of one transaction release at most what it burned, and less than 10^10 wei per burn are lost. */
  lemma {:induction false} PegoutsCovered(n: Node, tx: Bytes32, logs: seq<Log>)
    requires CheckBurns(n, tx, logs).Passed?
    ensures Released(CheckBurns(n, tx, logs).value) <= Burned(logs)
    ensures Burned(logs) + Burns(logs) <= Released(CheckBurns(n, tx, logs).value) + ToWei(Burns(logs))
    ensures |CheckBurns(n, tx, logs).value| == Burns(logs)
  {
    if logs != [] {
      var init := logs[..|logs| - 1];
      PegoutsCovered(n, tx, init);
      var ps := CheckBurns(n, tx, logs).value;
      if logs[|logs| - 1].BurnLog? {
        BurnPassesExactly(n, logs[|logs| - 1]);
        assert ps[..|ps| - 1] == CheckBurns(n, tx, init).value;
      }
    }
  }

  /** Each id carries the transaction's hash and the position of one of its burn logs, in increasing order. */
  ghost predicate IdsPointAtBurns(tx: Bytes32, logs: seq<Log>, ps: seq<Pegout>) {
    && (forall i :: 0 <= i < |ps| ==> ps[i].id.txid == tx && ps[i].id.idx < |logs| && logs[ps[i].id.idx].BurnLog?)
    && (forall i, j :: 0 <= i < j < |ps| ==> ps[i].id.idx < ps[j].id.idx)
  }

  lemma PegoutIdsPointAtBurns(n: Node, tx: Bytes32, logs: seq<Log>)
    requires CheckBurns(n, tx, logs).Passed? && |logs| <= 0x1_0000_0000
    ensures IdsPointAtBurns(tx, logs, CheckBurns(n, tx, logs).value)
  {
    var ks := PegoutsMatchBurns(n, tx, logs);
    MatchGivesIds(tx, logs, CheckBurns(n, tx, logs).value, ks);
  }

  lemma MatchGivesIds(tx: Bytes32, logs: seq<Log>, ps: seq<Pegout>, ks: seq<nat>)
    requires PegoutsMatch(tx, logs, ps, ks) && |logs| <= 0x1_0000_0000
    ensures IdsPointAtBurns(tx, logs, ps)
  {
    forall i | 0 <= i < |ps| ensures ps[i].id == PegoutId(tx, ks[i]) && ks[i] < |logs| && logs[ks[i]].BurnLog? {
      assert IsPegoutOf(tx, logs, ps[i], ks[i]);
      assert ks[i] % 0x1_0000_0000 == ks[i];
    }
  }
}
