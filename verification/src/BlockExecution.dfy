/** Executing the transactions of a block, with the roll-back of mints that fail the checks. */
module BlockExecution {
  import opened Options
  import opened Bytes
  import opened PeginValidation
  import opened MintChecks

  datatype Info = Info(balance: nat, nonce: nat)

  /** The committed state: accounts, the mint contract's storage, the wei it has paid out and everything else. */
  datatype World = World(accounts: map<Account, Info>, heights: map<Account, U32>, paid: nat, rest: nat)

  /** A transaction; a legacy one has no priority fee and its gas price as `maxFee`. */
  datatype Tx = Tx(hash: Bytes32, sender: Account, gasLimit: nat, maxFee: nat, maxPriority: Option<nat>, body: nat)

  datatype Outcome = EvmError | Executed(success: bool, gasUsed: nat, logs: seq<Log>, world: World)

  /** The context of one block and the EVM, which is not interpreted here. */
  datatype Env = Env(
    node: Node, pkg: Package, baseFee: Option<nat>, blockGasLimit: nat, transact: (World, Tx) -> Outcome)

  datatype Receipt = Receipt(success: bool, cumulativeGas: nat, logs: seq<Log>)

  datatype Progress = Progress(
    world: World, gas: nat, fees: nat, receipts: seq<Receipt>, pegins: seq<PeginData>, pegouts: seq<Pegout>)

  /** `Invalid` rejects the block; `Crash` ends the process. */
  datatype Result = Ok(progress: Progress) | Invalid | Crash

  function Base(e: Env): nat {
    if e.baseFee.None? then 0 else e.baseFee.value
  }

  /** What each unit of gas adds to the block fees: the effective tip plus the base fee. `None` when the fee cap is
      below the base fee. */
  function FeePerGas(tx: Tx, base: nat): (r: Option<nat>) {
    if tx.maxFee < base then None
    else
      var tip := if tx.maxPriority.None? then tx.maxFee - base else Min(tx.maxFee - base, tx.maxPriority.value);
      Some(tip + base)
  }

  /** What each unit of gas costs the sender of a rejected mint. */
  function EffectiveGasPrice(tx: Tx, baseFee: Option<nat>): (r: nat) {
    if tx.maxPriority.None? || baseFee.None? then tx.maxFee
    else if SaturatingSub(tx.maxFee, baseFee.value) > tx.maxPriority.value then tx.maxPriority.value + baseFee.value
    else tx.maxFee
  }

  function GasCost(gas: nat, price: nat): nat {
    gas * price
  }

  /** The state after a mint that was executed but failed the checks: the whole effect of the transaction is
      dropped, then the sender's nonce is set and the gas is charged. */
  function RolledBack(before: World, after: World, tx: Tx, cost: nat): (w: Option<World>)
    requires tx.sender in before.accounts
  {
    var original := before.accounts[tx.sender];
    if tx.sender !in after.accounts || original.balance < cost then None
    else Some(before.(accounts := before.accounts[
                tx.sender := Info(original.balance - cost, after.accounts[tx.sender].nonce)]))
  }

  /** Commits an executed transaction, or rolls it back when its logs fail the checks. */
  function Settle(e: Env, p: Progress, tx: Tx, price: nat, gasUsed: nat, logs: seq<Log>, after: World): (r: Result)
    requires e.node.formats.Forward() && tx.sender in p.world.accounts
  {
    var gas, fees := p.gas + gasUsed, p.fees + GasCost(gasUsed, price);
    match CheckLogs(e.node, e.pkg, tx.hash, logs)
    case Crashed => Crash
    case Passed(pegs) =>
      Ok(Progress(after, gas, fees, p.receipts + [Receipt(true, gas, logs)], p.pegins + pegs.0, p.pegouts + pegs.1))
    case Failed =>
      var w := RolledBack(p.world, after, tx, GasCost(gasUsed, EffectiveGasPrice(tx, e.baseFee)));
      if w.None? then Invalid
      else Ok(Progress(w.value, gas, fees, p.receipts + [Receipt(false, gas, [])], p.pegins, p.pegouts))
  }

  function ExecuteTx(e: Env, p: Progress, tx: Tx): (r: Result)
    requires e.node.formats.Forward()
  {
    if p.gas > e.blockGasLimit then Crash
    else if tx.gasLimit > e.blockGasLimit - p.gas then Invalid
    else if tx.sender !in p.world.accounts then Invalid
    else
      match e.transact(p.world, tx)
      case EvmError => Invalid
      case Executed(success, gasUsed, logs, after) =>
        var price := FeePerGas(tx, Base(e));
        if price.None? then Crash
        else if success then Settle(e, p, tx, price.value, gasUsed, logs, after)
        else
          var gas, fees := p.gas + gasUsed, p.fees + GasCost(gasUsed, price.value);
          Ok(Progress(after, gas, fees, p.receipts + [Receipt(false, gas, [])], p.pegins, p.pegouts))
  }

  function Start(w: World): Progress {
    Progress(w, 0, 0, [], [], [])
  }

  /** All transactions in order; the first failure decides. */
  function Execute(e: Env, w: World, txs: seq<Tx>): (r: Result)
    requires e.node.formats.Forward()
  {
    if txs == [] then Ok(Start(w))
    else
      var init := Execute(e, w, txs[..|txs| - 1]);
      if init.Ok? then ExecuteTx(e, init.progress, txs[|txs| - 1]) else init
  }

  lemma {:induction false} FailureIsFinal(e: Env, w: World, txs: seq<Tx>, k: nat)
    requires e.node.formats.Forward() && k <= |txs| && !Execute(e, w, txs[..k]).Ok?
    ensures Execute(e, w, txs) == Execute(e, w, txs[..k])
    decreases |txs| - k
  {
    if k == |txs| {
      assert txs[..k] == txs;
    } else {
      assert txs[..k + 1][..k] == txs[..k];
      FailureIsFinal(e, w, txs, k + 1);
    }
  }

  /** The body of the transaction loop. */
  method ExecuteTransaction(e: Env, p: Progress, tx: Tx) returns (r: Result)
    requires e.node.formats.Forward()
    ensures r == ExecuteTx(e, p, tx)
  {
    if p.gas > e.blockGasLimit { return Crash; }
    if tx.gasLimit > e.blockGasLimit - p.gas || tx.sender !in p.world.accounts { return Invalid; }
    var o := e.transact(p.world, tx);
    if o.EvmError? { return Invalid; }
    var price := FeePerGas(tx, Base(e));
    if price.None? { return Crash; }
    var gas, fees := p.gas + o.gasUsed, p.fees + GasCost(o.gasUsed, price.value);
    if !o.success {
      return Ok(Progress(o.world, gas, fees, p.receipts + [Receipt(false, gas, [])], p.pegins, p.pegouts));
    }
    var checked := BotanixMintContractChecks(e.node, e.pkg, tx.hash, o.logs);
    match checked {
      case Crashed => r := Crash;
      case Passed(pegs) =>
        r := Ok(Progress(o.world, gas, fees, p.receipts + [Receipt(true, gas, o.logs)],
                         p.pegins + pegs.0, p.pegouts + pegs.1));
      case Failed =>
        var w := RolledBack(p.world, o.world, tx, GasCost(o.gasUsed, EffectiveGasPrice(tx, e.baseFee)));
        if w.None? { return Invalid; }
        r := Ok(Progress(w.value, gas, fees, p.receipts + [Receipt(false, gas, [])], p.pegins, p.pegouts));
    }
  }

  /** The transaction loop of `execute_state_transitions`, with its running totals. */
  method ExecuteStateTransitions(e: Env, w: World, txs: seq<Tx>) returns (r: Result)
    requires e.node.formats.Forward()
    ensures r == Execute(e, w, txs)
  {
    var world, gas, fees := w, 0, 0;
    var receipts, pegins, pegouts := [], [], [];
    for i := 0 to |txs|
      invariant Execute(e, w, txs[..i]) == Ok(Progress(world, gas, fees, receipts, pegins, pegouts))
    {
      assert txs[..i + 1][..i] == txs[..i];
      var step := ExecuteTransaction(e, Progress(world, gas, fees, receipts, pegins, pegouts), txs[i]);
      if !step.Ok? {
        FailureIsFinal(e, w, txs, i + 1);
        return step;
      }
      world, gas, fees := step.progress.world, step.progress.gas, step.progress.fees;
      receipts, pegins, pegouts := step.progress.receipts, step.progress.pegins, step.progress.pegouts;
    }
    assert txs[..|txs|] == txs;
    r := Ok(Progress(world, gas, fees, receipts, pegins, pegouts));
  }

  // ---------- gas ----------

  /** The EVM never uses more gas than a transaction allows. */
  ghost predicate Metered(e: Env) {
    forall w: World, tx: Tx :: e.transact(w, tx).Executed? ==> e.transact(w, tx).gasUsed <= tx.gasLimit
  }

  /** The available-gas subtraction never underflows, whatever the block. */
  lemma {:induction false} GasFitsBlock(e: Env, w: World, txs: seq<Tx>)
    requires e.node.formats.Forward() && Metered(e) && Execute(e, w, txs).Ok?
    ensures Execute(e, w, txs).progress.gas <= e.blockGasLimit
  {
    if txs != [] {
      GasFitsBlock(e, w, txs[..|txs| - 1]);
    }
  }

  // ---------- what a block adds up ----------

  /** The gas between a receipt and the one before it. */
  function GasAt(receipts: seq<Receipt>, i: nat): (g: int)
    requires i < |receipts|
  {
    receipts[i].cumulativeGas - (if i == 0 then 0 else receipts[i - 1].cumulativeGas)
  }

  /** What a sender pays for each unit of gas: the fee cap, or the priority fee on top of the base fee if that is less
      (EIP-1559). */
  function PriceAt(tx: Tx, base: nat): nat {
    if tx.maxPriority.None? then tx.maxFee else Min(tx.maxFee, tx.maxPriority.value + base)
  }

  /** The fees of a block, read off its transactions and receipts. */
  function FeesOf(txs: seq<Tx>, receipts: seq<Receipt>, base: nat): (n: int)
    requires |txs| == |receipts|
  {
    if txs == [] then 0
    else
      var k := |txs| - 1;
      FeesOf(txs[..k], receipts[..k], base) + GasAt(receipts, k) * PriceAt(txs[k], base)
  }

  /** The EVM's outcome of transaction `i`, on the state that the transactions before it leave. */
  function OutcomeAt(e: Env, w: World, txs: seq<Tx>, i: nat): (o: Outcome)
    requires e.node.formats.Forward() && i < |txs| && Execute(e, w, txs[..i]).Ok?
  {
    e.transact(Execute(e, w, txs[..i]).progress.world, txs[i])
  }

  /** What one transaction adds, however it ends: its gas to the total and the next receipt, its gas times the price to
      the fees. The EVM's state is committed unless the transaction succeeded and its logs failed the checks. */
  lemma TxAddsUp(e: Env, p: Progress, tx: Tx)
    requires e.node.formats.Forward() && ExecuteTx(e, p, tx).Ok?
    ensures var q := ExecuteTx(e, p, tx).progress;
            var o := e.transact(p.world, tx);
            && o.Executed? && Base(e) <= tx.maxFee
            && q.gas == p.gas + o.gasUsed && q.fees == p.fees + o.gasUsed * PriceAt(tx, Base(e))
            && |q.receipts| == |p.receipts| + 1 && q.receipts[..|p.receipts|] == p.receipts
            && q.receipts[|p.receipts|].cumulativeGas == q.gas
            && (!o.success || CheckLogs(e.node, e.pkg, tx.hash, o.logs).Passed? ==> q.world == o.world)
            && (q.receipts[|p.receipts|].success <==> o.success && CheckLogs(e.node, e.pkg, tx.hash, o.logs).Passed?)
            && q.receipts[|p.receipts|].logs == if q.receipts[|p.receipts|].success then o.logs else []
  {
  }

  /** Gas and fees of a block that executes: its total gas is the last cumulative gas, each receipt adds exactly the gas
      the EVM used, and the fees are the sum over all transactions, committed, failed or rolled back, of gas used times
      the price. */
  lemma {:induction false} BlockAddsUp(e: Env, w: World, txs: seq<Tx>)
    requires e.node.formats.Forward() && Execute(e, w, txs).Ok?
    ensures var p := Execute(e, w, txs).progress;
            && |p.receipts| == |txs|
            && p.gas == (if txs == [] then 0 else p.receipts[|txs| - 1].cumulativeGas)
            && p.fees == FeesOf(txs, p.receipts, Base(e))
  {
    if txs != [] {
      var k := |txs| - 1;
      BlockAddsUp(e, w, txs[..k]);
      var p, q := Execute(e, w, txs[..k]).progress, Execute(e, w, txs).progress;
      TxAddsUp(e, p, txs[k]);
      assert q.receipts[..k] == p.receipts;
      assert k > 0 ==> q.receipts[k - 1] == p.receipts[k - 1];
      assert GasAt(q.receipts, k) == e.transact(p.world, txs[k]).gasUsed;
    }
  }

  lemma TxGrowsReceipts(e: Env, p: Progress, tx: Tx)
    requires e.node.formats.Forward() && ExecuteTx(e, p, tx).Ok?
    ensures p.receipts <= ExecuteTx(e, p, tx).progress.receipts
  {
  }

  /** The receipts of the first transactions are the first receipts of the block. */
  lemma {:induction false} ReceiptsOfPrefix(e: Env, w: World, txs: seq<Tx>, i: nat)
    requires e.node.formats.Forward() && Execute(e, w, txs).Ok? && i <= |txs|
    ensures Execute(e, w, txs[..i]).Ok?
    ensures Execute(e, w, txs[..i]).progress.receipts <= Execute(e, w, txs).progress.receipts
  {
    var k := |txs| - 1;
    if i == |txs| {
      assert txs[..i] == txs;
    } else {
      TxGrowsReceipts(e, Execute(e, w, txs[..k]).progress, txs[k]);
      ReceiptsOfPrefix(e, w, txs[..k], i);
      assert txs[..k][..i] == txs[..i];
    }
  }

  lemma GasAtPrefix(rs: seq<Receipt>, rs': seq<Receipt>, i: nat)
    requires i < |rs| && rs <= rs'
    ensures GasAt(rs', i) == GasAt(rs, i) && rs'[i] == rs[i]
  {
  }

  /** Receipt `i` carries the EVM's gas, success and logs of transaction `i`, on the state that the transactions before
      it leave. */
  lemma ReceiptsShowOutcomes(e: Env, w: World, txs: seq<Tx>, i: nat)
    requires e.node.formats.Forward() && Execute(e, w, txs).Ok? && i < |txs|
    ensures |Execute(e, w, txs).progress.receipts| == |txs| && Execute(e, w, txs[..i]).Ok?
    ensures var o, rs := OutcomeAt(e, w, txs, i), Execute(e, w, txs).progress.receipts;
            && o.Executed? && GasAt(rs, i) == o.gasUsed
            && (rs[i].success <==> o.success && CheckLogs(e.node, e.pkg, txs[i].hash, o.logs).Passed?)
            && rs[i].logs == if rs[i].success then o.logs else []
  {
    BlockAddsUp(e, w, txs);
    ReceiptsOfPrefix(e, w, txs, i);
    ReceiptsOfPrefix(e, w, txs, i + 1);
    BlockAddsUp(e, w, txs[..i]);
    assert txs[..i + 1][..i] == txs[..i];
    var p, q := Execute(e, w, txs[..i]).progress, Execute(e, w, txs[..i + 1]).progress;
    TxAddsUp(e, p, txs[i]);
    GasAtPrefix(q.receipts, Execute(e, w, txs).progress.receipts, i);
  }

  /** Which transactions a block may hold next: the gas limit fits what is left, the sender exists, the EVM executes it,
      the fee cap reaches the base fee, the checks do not stop the process, and after a failed check the sender can pay
      for the gas. */
  lemma TxIsValidExactly(e: Env, p: Progress, tx: Tx)
    requires e.node.formats.Forward() && p.gas <= e.blockGasLimit
    ensures ExecuteTx(e, p, tx).Ok? <==>
              && p.gas + tx.gasLimit <= e.blockGasLimit && tx.sender in p.world.accounts
              && var o := e.transact(p.world, tx);
              && o.Executed? && Base(e) <= tx.maxFee
              && (o.success ==> !CheckLogs(e.node, e.pkg, tx.hash, o.logs).Crashed?)
              && (o.success && CheckLogs(e.node, e.pkg, tx.hash, o.logs).Failed? ==>
                    && tx.sender in o.world.accounts
                    && o.gasUsed * EffectiveGasPrice(tx, e.baseFee) <= p.world.accounts[tx.sender].balance)
  {
  }

  // ---------- when a block stops the process ----------

  /** The transaction is valid and succeeds, so that its logs are checked. */
  predicate ReachesChecks(e: Env, p: Progress, tx: Tx) {
    && p.gas + tx.gasLimit <= e.blockGasLimit && tx.sender in p.world.accounts
    && e.transact(p.world, tx).Executed? && e.transact(p.world, tx).success
  }

  ghost predicate StopsTx(e: Env, p: Progress, tx: Tx)
    requires e.node.formats.Forward()
  {
    ReachesChecks(e, p, tx) && SomeLogStops(e.node, e.pkg, e.transact(p.world, tx).logs)
  }

  /** Transaction `k` follows valid ones and stops the process. */
  ghost predicate StopsBlock(e: Env, w: World, txs: seq<Tx>, k: nat)
    requires e.node.formats.Forward() && k < |txs|
  {
    Execute(e, w, txs[..k]).Ok? && StopsTx(e, Execute(e, w, txs[..k]).progress, txs[k])
  }

  lemma CrashComesFromChecks(e: Env, p: Progress, tx: Tx)
    requires e.node.formats.Forward() && Base(e) <= tx.maxFee && p.gas <= e.blockGasLimit
    ensures ExecuteTx(e, p, tx).Crash? <==>
              ReachesChecks(e, p, tx) && CheckMints(e.node, e.pkg, e.transact(p.world, tx).logs).Crashed?
  {
  }

  lemma TxCrashesExactly(e: Env, p: Progress, tx: Tx)
    requires e.node.formats.Forward() && Base(e) <= tx.maxFee && p.gas <= e.blockGasLimit
    ensures ExecuteTx(e, p, tx).Crash? <==> StopsTx(e, p, tx)
  {
    CrashComesFromChecks(e, p, tx);
    if ReachesChecks(e, p, tx) {
      ChecksCrashExactly(e.node, e.pkg, e.transact(p.world, tx).logs);
    }
  }

  ghost predicate CapsReachBase(e: Env, txs: seq<Tx>) {
    forall i :: 0 <= i < |txs| ==> Base(e) <= txs[i].maxFee
  }

  lemma CrashIsFinal(e: Env, w: World, txs: seq<Tx>, k: nat)
    requires e.node.formats.Forward() && k < |txs| && Execute(e, w, txs[..k]).Ok?
    requires ExecuteTx(e, Execute(e, w, txs[..k]).progress, txs[k]).Crash?
    ensures Execute(e, w, txs).Crash?
  {
    assert txs[..k + 1][..k] == txs[..k];
    FailureIsFinal(e, w, txs, k + 1);
  }

  lemma StopCrashesBlock(e: Env, w: World, txs: seq<Tx>, k: nat)
    requires e.node.formats.Forward() && Metered(e) && CapsReachBase(e, txs) && k < |txs| && StopsBlock(e, w, txs, k)
    ensures Execute(e, w, txs).Crash?
  {
    GasFitsBlock(e, w, txs[..k]);
    TxCrashesExactly(e, Execute(e, w, txs[..k]).progress, txs[k]);
    CrashIsFinal(e, w, txs, k);
  }

  lemma {:induction false} CrashStopsAtSomeTx(e: Env, w: World, txs: seq<Tx>) returns (k: nat)
    requires e.node.formats.Forward() && Metered(e) && CapsReachBase(e, txs) && Execute(e, w, txs).Crash?
    ensures k < |txs| && StopsBlock(e, w, txs, k)
  {
    var i := |txs| - 1;
    if Execute(e, w, txs[..i]).Crash? {
      k := CrashStopsAtSomeTx(e, w, txs[..i]);
      assert txs[..i][..k] == txs[..k];
    } else {
      k := i;
      GasFitsBlock(e, w, txs[..i]);
      TxCrashesExactly(e, Execute(e, w, txs[..i]).progress, txs[i]);
    }
  }

  /** Provided the EVM meters gas and every fee cap reaches the base fee, executing a block stops the process exactly
      at a valid, successful transaction with a mint log that names the output one past the last. */
  lemma ExecutionCrashesExactly(e: Env, w: World, txs: seq<Tx>)
    requires e.node.formats.Forward() && Metered(e) && CapsReachBase(e, txs)
    ensures Execute(e, w, txs).Crash? <==> exists k: nat :: k < |txs| && StopsBlock(e, w, txs, k)
  {
    if Execute(e, w, txs).Crash? {
      var k := CrashStopsAtSomeTx(e, w, txs);
    }
    forall k: nat | k < |txs| && StopsBlock(e, w, txs, k) ensures Execute(e, w, txs).Crash? {
      StopCrashesBlock(e, w, txs, k);
    }
  }

  // ---------- which peg operations count ----------

  /** The peg operations of the transactions with successful receipts, in order. */
  function PegsOf(e: Env, txs: seq<Tx>, receipts: seq<Receipt>): (r: Option<(seq<PeginData>, seq<Pegout>)>)
    requires e.node.formats.Forward() && |txs| == |receipts|
  {
    if txs == [] then Some(([], []))
    else
      var k := |txs| - 1;
      var init := PegsOf(e, txs[..k], receipts[..k]);
      if init.None? || !receipts[k].success then init
      else
        match CheckLogs(e.node, e.pkg, txs[k].hash, receipts[k].logs)
        case Passed(pegs) => Some((init.value.0 + pegs.0, init.value.1 + pegs.1))
        case Failed => None
        case Crashed => None
  }

  /** What one transaction adds to the receipts and the peg operations. */
  lemma TxPegs(e: Env, p: Progress, tx: Tx)
    requires e.node.formats.Forward() && ExecuteTx(e, p, tx).Ok?
    ensures var q := ExecuteTx(e, p, tx).progress;
            && |q.receipts| == |p.receipts| + 1 && q.receipts[..|p.receipts|] == p.receipts
            && var r := q.receipts[|p.receipts|];
            && (!r.success ==> q.pegins == p.pegins && q.pegouts == p.pegouts)
            && (r.success ==>
                  var c := CheckLogs(e.node, e.pkg, tx.hash, r.logs);
                  c.Passed? && q.pegins == p.pegins + c.value.0 && q.pegouts == p.pegouts + c.value.1)
  {
  }

  /** A block's peg-ins and peg-outs are exactly those of its successful receipts: a rolled back mint or a failed
      transaction contributes none. */
  lemma {:induction false} PegsMatchReceipts(e: Env, w: World, txs: seq<Tx>)
    requires e.node.formats.Forward() && Execute(e, w, txs).Ok?
    ensures var p := Execute(e, w, txs).progress;
            |p.receipts| == |txs| && PegsOf(e, txs, p.receipts) == Some((p.pegins, p.pegouts))
  {
    if txs != [] {
      var k := |txs| - 1;
      PegsMatchReceipts(e, w, txs[..k]);
      TxPegs(e, Execute(e, w, txs[..k]).progress, txs[k]);
    }
  }

  // ---------- roll-back and fees ----------

  /** The transaction executed, but its logs failed the checks. */
  predicate RejectedMint(e: Env, p: Progress, tx: Tx)
    requires e.node.formats.Forward()
  {
    var o := e.transact(p.world, tx);
    o.Executed? && o.success && CheckLogs(e.node, e.pkg, tx.hash, o.logs).Failed?
  }

  /** A rejected mint leaves no trace but its sender's nonce and the gas charge: no other account, no storage of the
      mint contract or of anything else, no peg operation, a failed receipt. */
  lemma RejectedMintOnlyCharges(e: Env, p: Progress, tx: Tx)
    requires e.node.formats.Forward() && RejectedMint(e, p, tx) && ExecuteTx(e, p, tx).Ok?
    ensures var q := ExecuteTx(e, p, tx).progress;
            var o := e.transact(p.world, tx);
            && q.world.heights == p.world.heights && q.world.paid == p.world.paid && q.world.rest == p.world.rest
            && q.world.accounts.Keys == p.world.accounts.Keys && tx.sender in p.world.accounts
            && (forall a :: a in p.world.accounts && a != tx.sender ==> q.world.accounts[a] == p.world.accounts[a])
            && q.world.accounts[tx.sender].balance
               == p.world.accounts[tx.sender].balance - o.gasUsed * EffectiveGasPrice(tx, e.baseFee)
            && q.world.accounts[tx.sender].nonce == o.world.accounts[tx.sender].nonce
            && q.pegins == p.pegins && q.pegouts == p.pegouts
            && q.receipts == p.receipts + [Receipt(false, p.gas + o.gasUsed, [])]
  {
  }

  /** The price charged and the price credited agree exactly when the block has a base fee or the tip is not
      capped by a priority fee below the fee cap. */
  lemma PricesAgree(tx: Tx, baseFee: Option<nat>)
    requires FeePerGas(tx, if baseFee.None? then 0 else baseFee.value).Some?
    ensures FeePerGas(tx, if baseFee.None? then 0 else baseFee.value).value == EffectiveGasPrice(tx, baseFee)
       <==> baseFee.Some? || tx.maxPriority.None? || tx.maxPriority.value >= tx.maxFee
  {
  }

  /** With a base fee, what the sender of a rejected mint loses is exactly what the transaction adds to the fees. */
  lemma RejectedMintConserves(e: Env, p: Progress, tx: Tx)
    requires e.node.formats.Forward() && RejectedMint(e, p, tx) && ExecuteTx(e, p, tx).Ok?
    ensures tx.sender in p.world.accounts && tx.sender in ExecuteTx(e, p, tx).progress.world.accounts
    ensures var q := ExecuteTx(e, p, tx).progress;
            var lost := p.world.accounts[tx.sender].balance - q.world.accounts[tx.sender].balance;
            lost == q.fees - p.fees
            <==> e.baseFee.Some? || tx.maxPriority.None? || tx.maxPriority.value >= tx.maxFee
                 || e.transact(p.world, tx).gasUsed == 0
  {
    RejectedMintOnlyCharges(e, p, tx);
    PricesAgree(tx, e.baseFee);
    var gas := e.transact(p.world, tx).gasUsed;
    var x, y := FeePerGas(tx, Base(e)).value, EffectiveGasPrice(tx, e.baseFee);
    EqualProducts(gas, x, y);
  }

  lemma EqualProducts(g: nat, x: nat, y: nat)
    ensures GasCost(g, y) == GasCost(g, x) <==> g == 0 || x == y
  {
    if x < y {
      assert g * (y - x) == g * y - g * x;
    } else if y < x {
      assert g * (x - y) == g * x - g * y;
    }
  }
}
