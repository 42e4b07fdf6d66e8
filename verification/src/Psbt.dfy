/** Acceptance of a peg-out transaction by a signer. */
module Psbt {
  import opened Options
  import opened Bytes
  import opened ProofCodec
  import opened PegoutIds

  const NO_FLAGS: bv8 := 0
  const ROUND1: bv8 := 1
  const ROUND1_TRANSITION: bv8 := 3
  const ROUND2: bv8 := 7
  const ROUND2_TRANSITION: bv8 := 11
  const U64_MAX: nat := 0xFFFF_FFFF_FFFF_FFFF

  type SignerId = nat

  datatype Input = Input(
    witnessUtxo: Option<TxOut>, nonWitnessUtxo: Option<TxOut>, ethAddress: Option<Bytes20>,
    commitments: set<SignerId>, signatures: set<SignerId>)

  /** `inputs` and `outputs` are the PSBT records, `spends` and `pays` those of the unsigned transaction;
      `extractable` is whether the library hands the transaction out. A record without id is a change output. */
  datatype Psbt = Psbt(
    inputs: seq<Input>, outputs: seq<Option<PegoutId>>,
    spends: seq<Outpoint>, pays: seq<TxOut>, extractable: bool)

  datatype TrackedTx = TrackedTx(inputs: seq<Outpoint>, requests: seq<PegoutId>)

  datatype Utxo = Utxo(output: TxOut, ethAddress: Option<Bytes20>)

  /** What validation reads from the database. */
  datatype Records = Records(
    changeScript: Option<Script>, finalized: seq<PegoutId>, tracked: seq<TrackedTx>, utxos: map<Outpoint, Utxo>)

  datatype Refusal =
    | NoInputs | NoConflictingInput | NoOutputs | OutputCountMismatch | MissingKeyPackage
    | ExpectingOnlyOneChangeOutput | AlreadyFinalizedPegouts(id: PegoutId) | DuplicateOutputs | InvalidChangeOutput
    | MissingUtxo | FeeOverflow | NegativeFee | FeeSanityCheck | InvalidNumberOfSigningCommitments
    | InvalidNumberOfPartialSignatures | FrostIdMismatch | ExtractTxError | EthTweakMismatch | MissingWitnessUtxo
    | TxOutMismatch

  /** `Aborted` is a failed assertion inside the library, which ends the process. */
  datatype Verdict = Valid | Refused(reason: Refusal) | Aborted

  // ---------- peg-out ids and conflicts ----------

  function IdsOf(outputs: seq<Option<PegoutId>>): (ids: seq<PegoutId>) {
    if outputs == [] then []
    else
      var init, last := IdsOf(outputs[..|outputs| - 1]), outputs[|outputs| - 1];
      if last.Some? then init + [last.value] else init
  }

  ghost predicate SharesId(t: TrackedTx, ids: seq<PegoutId>) {
    exists i :: 0 <= i < |t.requests| && t.requests[i] in ids
  }

  ghost predicate SharesInput(t: TrackedTx, spends: seq<Outpoint>) {
    exists i :: 0 <= i < |t.inputs| && t.inputs[i] in spends
  }

  /** Every tracked transaction that pays one of our ids spends one of our inputs. */
  ghost predicate Conflicts(tracked: seq<TrackedTx>, p: Psbt) {
    forall k :: 0 <= k < |tracked| && SharesId(tracked[k], IdsOf(p.outputs)) ==> SharesInput(tracked[k], p.spends)
  }

  method AnyIn<T(==)>(xs: seq<T>, ys: set<T>) returns (found: bool)
    ensures found <==> exists i :: 0 <= i < |xs| && xs[i] in ys
  {
    for i := 0 to |xs|
      invariant forall k :: 0 <= k < i ==> xs[k] !in ys
    {
      if xs[i] in ys { return true; }
    }
    found := false;
  }

  /** `has_conflicting_input` */
  method HasConflictingInput(tracked: seq<TrackedTx>, p: Psbt) returns (ok: bool)
    ensures ok <==> Conflicts(tracked, p)
  {
    var spends := set x | x in p.spends;
    var ids := set x | x in IdsOf(p.outputs);
    for k := 0 to |tracked|
      invariant forall j :: 0 <= j < k && SharesId(tracked[j], IdsOf(p.outputs)) ==> SharesInput(tracked[j], p.spends)
    {
      var matching := AnyIn(tracked[k].requests, ids);
      if matching {
        var conflict := AnyIn(tracked[k].inputs, spends);
        if !conflict { return false; }
      }
    }
    ok := true;
  }

  // ---------- outputs ----------

  ghost predicate Distinct<T>(xs: seq<T>) {
    forall i, j :: 0 <= i < j < |xs| ==> xs[i] != xs[j]
  }

  lemma DistinctFromInit<T>(xs: seq<T>)
    requires xs != []
    ensures Distinct(xs) <==> Distinct(xs[..|xs| - 1]) && xs[|xs| - 1] !in xs[..|xs| - 1]
  {
    var init, last := xs[..|xs| - 1], xs[|xs| - 1];
    forall i | 0 <= i < |init| ensures xs[i] == init[i] {}
    if last in init {
      var i :| 0 <= i < |init| && init[i] == last;
      assert xs[i] == xs[|xs| - 1];
    }
  }

  lemma {:induction false} DistinctBySize<T>(xs: seq<T>)
    ensures |set x | x in xs| <= |xs|
    ensures |set x | x in xs| == |xs| <==> Distinct(xs)
  {
    if xs != [] {
      var init, last := xs[..|xs| - 1], xs[|xs| - 1];
      DistinctBySize(init);
      DistinctFromInit(xs);
      var s := set x | x in init;
      assert (set x | x in xs) == s + {last};
      if last in init {
        assert s + {last} == s;
      }
    }
  }

  ghost predicate OneChangeAtMost(outputs: seq<Option<PegoutId>>) {
    forall i, j :: 0 <= i < j < |outputs| ==> outputs[i].Some? || outputs[j].Some?
  }

  ghost predicate ChangePays(p: Psbt, script: Script) {
    forall i :: 0 <= i < |p.outputs| && i < |p.pays| && p.outputs[i].None? ==> p.pays[i].script == script
  }

  /** What `validate_outputs` promises. */
  ghost predicate GoodOutputs(r: Records, p: Psbt) {
    && |p.outputs| == |p.pays|
    && r.changeScript.Some?
    && OneChangeAtMost(p.outputs)
    && (forall i :: 0 <= i < |IdsOf(p.outputs)| ==> IdsOf(p.outputs)[i] !in r.finalized)
    && Distinct(IdsOf(p.outputs))
    && ChangePays(p, r.changeScript.value)
  }

  /** The first of the ids that is finalized. */
  ghost function FirstFinalized(r: Records, ids: seq<PegoutId>): (id: Option<PegoutId>)
    ensures id.Some? ==> id.value in ids && id.value in r.finalized
    ensures id.None? <==> forall i :: 0 <= i < |ids| ==> ids[i] !in r.finalized
  {
    if ids == [] then None
    else
      var init := FirstFinalized(r, ids[..|ids| - 1]);
      if init.Some? then init
      else if ids[|ids| - 1] in r.finalized then Some(ids[|ids| - 1])
      else None
  }

  lemma {:induction false} FirstFinalizedIsFirst(r: Records, ids: seq<PegoutId>, i: nat)
    requires i < |ids| && ids[i] in r.finalized && forall k :: 0 <= k < i ==> ids[k] !in r.finalized
    ensures FirstFinalized(r, ids) == Some(ids[i])
  {
    var init := ids[..|ids| - 1];
    if i < |init| {
      FirstFinalizedIsFirst(r, init, i);
    } else {
      assert forall k :: 0 <= k < |init| ==> init[k] == ids[k];
    }
  }

  /** What `validate_outputs` answers: the first rule that fails, in this order, decides. */
  ghost function OutputsVerdict(r: Records, p: Psbt): (v: Verdict)
    ensures v.Valid? <==> GoodOutputs(r, p)
  {
    var ids := IdsOf(p.outputs);
    if |p.outputs| != |p.pays| then Refused(OutputCountMismatch)
    else if r.changeScript.None? then Refused(MissingKeyPackage)
    else if !OneChangeAtMost(p.outputs) then Refused(ExpectingOnlyOneChangeOutput)
    else if FirstFinalized(r, ids).Some? then Refused(AlreadyFinalizedPegouts(FirstFinalized(r, ids).value))
    else if !Distinct(ids) then Refused(DuplicateOutputs)
    else if !ChangePays(p, r.changeScript.value) then Refused(InvalidChangeOutput)
    else Valid
  }

  /** The signer's database: the records it reads and the pending peg-outs it may drop. */
  class Db {
    var records: Records
    var pending: set<PegoutId>

    constructor (records: Records, pending: set<PegoutId>)
      ensures this.records == records && this.pending == pending
    {
      this.records := records;
      this.pending := pending;
    }
  }

  method CollectIds(p: Psbt) returns (ids: seq<PegoutId>, change: Option<nat>, one: bool)
    ensures one <==> OneChangeAtMost(p.outputs)
    ensures one ==> ids == IdsOf(p.outputs)
    ensures one && change.Some? ==> change.value < |p.outputs|
    ensures one ==> forall i :: 0 <= i < |p.outputs| ==> (p.outputs[i].None? <==> change == Some(i))
  {
    ids, change := [], None;
    for k := 0 to |p.outputs|
      invariant ids == IdsOf(p.outputs[..k])
      invariant change.Some? ==> change.value < k
      invariant forall i :: 0 <= i < k ==> (p.outputs[i].None? <==> change == Some(i))
    {
      assert p.outputs[..k + 1][..k] == p.outputs[..k];
      match p.outputs[k] {
        case Some(id) => ids := ids + [id];
        case None =>
          if change.Some? {
            assert p.outputs[change.value].None?;
            return ids, change, false;
          }
          change := Some(k);
      }
    }
    assert p.outputs[..|p.outputs|] == p.outputs;
    one := true;
  }

  method FindFinalized(r: Records, ids: seq<PegoutId>) returns (id: Option<PegoutId>)
    ensures id == FirstFinalized(r, ids)
  {
    for i := 0 to |ids|
      invariant forall k :: 0 <= k < i ==> ids[k] !in r.finalized
    {
      if ids[i] in r.finalized {
        FirstFinalizedIsFirst(r, ids, i);
        return Some(ids[i]);
      }
    }
    id := None;
  }

  method HasNoDuplicates(ids: seq<PegoutId>) returns (unique: bool)
    ensures unique <==> Distinct(ids)
  {
    DistinctBySize(ids);
    unique := |set x | x in ids| == |ids|;
  }

  /** `validate_outputs`. A refused finalized id is dropped from the pending ones; nothing else is changed. */
  method ValidateOutputs(db: Db, p: Psbt) returns (v: Verdict)
    modifies db`pending
    ensures v == OutputsVerdict(db.records, p)
    ensures v.Valid? <==> GoodOutputs(db.records, p)
    ensures !v.Aborted?
    ensures db.pending == if v.Refused? && v.reason.AlreadyFinalizedPegouts? then old(db.pending) - {v.reason.id}
                          else old(db.pending)
    ensures v.Refused? && v.reason.AlreadyFinalizedPegouts? ==>
              v.reason.id in IdsOf(p.outputs) && v.reason.id in db.records.finalized
  {
    if |p.outputs| != |p.pays| { return Refused(OutputCountMismatch); }
    if db.records.changeScript.None? { return Refused(MissingKeyPackage); }
    var ids, change, one := CollectIds(p);
    if !one { return Refused(ExpectingOnlyOneChangeOutput); }
    var paid := FindFinalized(db.records, ids);
    if paid.Some? {
      db.pending := db.pending - {paid.value};
      return Refused(AlreadyFinalizedPegouts(paid.value));
    }
    var unique := HasNoDuplicates(ids);
    if !unique { return Refused(DuplicateOutputs); }
    if change.Some? {
      if p.pays[change.value].script != db.records.changeScript.value {
        assert p.outputs[change.value].None?;
        return Refused(InvalidChangeOutput);
      }
    }
    v := Valid;
  }

  // ---------- fees ----------

  function Total(outs: seq<TxOut>): (n: nat) {
    if outs == [] then 0 else Total(outs[..|outs| - 1]) + outs[|outs| - 1].value
  }

  /** The fold of the sanity check: an overflowing addition restarts at zero. */
  function WrappingTotal(outs: seq<TxOut>): (n: nat) {
    if outs == [] then 0
    else
      var sum := WrappingTotal(outs[..|outs| - 1]) + outs[|outs| - 1].value;
      if sum > U64_MAX then 0 else sum
  }

  lemma {:induction false} WrappingIsExact(outs: seq<TxOut>)
    requires Total(outs) <= U64_MAX
    ensures WrappingTotal(outs) == Total(outs)
  {
    if outs != [] {
      WrappingIsExact(outs[..|outs| - 1]);
    }
  }

  function FundingUtxo(i: Input): Option<TxOut> {
    if i.witnessUtxo.Some? then i.witnessUtxo else i.nonWitnessUtxo
  }

  /** The outputs an input list spends; `None` when one is not given. */
  function Funding(inputs: seq<Input>): (r: Option<seq<TxOut>>)
    ensures r.Some? ==> |r.value| == |inputs|
  {
    if inputs == [] then Some([])
    else
      var init, last := Funding(inputs[..|inputs| - 1]), FundingUtxo(inputs[|inputs| - 1]);
      if init.None? || last.None? then None else Some(init.value + [last.value])
  }

  /** Every input shows the output it spends exactly when each has one record or the other; the witness record is
      preferred. */
  lemma {:induction false} FundingShown(inputs: seq<Input>)
    ensures Funding(inputs).Some? <==>
              forall i :: 0 <= i < |inputs| ==> inputs[i].witnessUtxo.Some? || inputs[i].nonWitnessUtxo.Some?
    ensures Funding(inputs).Some? ==>
              forall i :: 0 <= i < |inputs| ==>
                && (inputs[i].witnessUtxo.Some? ==> Funding(inputs).value[i] == inputs[i].witnessUtxo.value)
                && (inputs[i].witnessUtxo.None? ==> Some(Funding(inputs).value[i]) == inputs[i].nonWitnessUtxo)
  {
    if inputs != [] {
      var init := inputs[..|inputs| - 1];
      FundingShown(init);
      assert forall i :: 0 <= i < |init| ==> init[i] == inputs[i];
    }
  }

  datatype Fee = Amount(fee: nat) | BadFee(reason: Refusal) | FeeAborted

  /** What the inputs are worth: the first input without an output, or whose output overflows the sum, decides. */
  function InputSum(inputs: seq<Input>): (s: Fee)
    ensures s.Amount? || s == BadFee(MissingUtxo) || s == BadFee(FeeOverflow)
  {
    if inputs == [] then Amount(0)
    else
      var init, last := InputSum(inputs[..|inputs| - 1]), FundingUtxo(inputs[|inputs| - 1]);
      if !init.Amount? then init
      else if last.None? then BadFee(MissingUtxo)
      else if init.fee + last.value.value > U64_MAX then BadFee(FeeOverflow)
      else Amount(init.fee + last.value.value)
  }

  lemma {:induction false} InputSumIsTotal(inputs: seq<Input>)
    ensures InputSum(inputs).Amount? <==> Funding(inputs).Some? && Total(Funding(inputs).value) <= U64_MAX
    ensures InputSum(inputs).Amount? ==> InputSum(inputs).fee == Total(Funding(inputs).value)
  {
    if inputs != [] {
      var init, all := Funding(inputs[..|inputs| - 1]), Funding(inputs);
      InputSumIsTotal(inputs[..|inputs| - 1]);
      if all.Some? {
        assert all.value[..|all.value| - 1] == init.value;
      }
    }
  }

  /** `Psbt::fee` of the library. */
  function FeeOf(p: Psbt): (f: Fee) {
    if |p.inputs| != |p.spends| then FeeAborted
    else
      var paidIn, paidOut := InputSum(p.inputs), Total(p.pays);
      if !paidIn.Amount? then paidIn
      else if paidOut > U64_MAX then BadFee(FeeOverflow)
      else if paidIn.fee < paidOut then BadFee(NegativeFee)
      else Amount(paidIn.fee - paidOut)
  }

  // ---------- round checks ----------

  predicate Asks(flags: bv8, round: bv8) {
    flags & round == round
  }

  predicate CommitmentsOk(p: Psbt, minSigners: nat) {
    forall i :: 0 <= i < |p.inputs| ==> |p.inputs[i].commitments| >= minSigners
  }

  predicate NotTooManySignatures(p: Psbt, minSigners: nat) {
    forall i :: 0 <= i < |p.inputs| ==> |p.inputs[i].signatures| <= minSigners
  }

  predicate ExactSignatures(p: Psbt, minSigners: nat) {
    forall i :: 0 <= i < |p.inputs| ==> |p.inputs[i].signatures| == minSigners
  }

  predicate SameSigners(p: Psbt) {
    forall i :: 0 <= i < |p.inputs| ==> p.inputs[i].commitments == p.inputs[i].signatures
  }

  /** An input known to the database shows the stored output and tweak. */
  function MatchesUtxo(u: Utxo, i: Input): (v: Verdict) {
    if u.ethAddress.Some? && i.ethAddress != u.ethAddress then Refused(EthTweakMismatch)
    else if i.witnessUtxo.None? then Refused(MissingWitnessUtxo)
    else if i.witnessUtxo.value != u.output then Refused(TxOutMismatch)
    else Valid
  }

  /** The input loop from input `k` on: it ends, successfully, at the first input the database does not know. */
  function InputsFrom(r: Records, p: Psbt, k: nat): (v: Verdict)
    requires |p.inputs| == |p.spends| && k <= |p.inputs|
    decreases |p.inputs| - k
  {
    if k == |p.inputs| || p.spends[k] !in r.utxos then Valid
    else
      var one := MatchesUtxo(r.utxos[p.spends[k]], p.inputs[k]);
      if one.Valid? then InputsFrom(r, p, k + 1) else one
  }

  function RoundChecks(r: Records, p: Psbt, flags: bv8, minSigners: nat): (v: Verdict)
    requires |p.inputs| == |p.spends|
  {
    if flags == NO_FLAGS then Valid
    else if Asks(flags, ROUND1_TRANSITION) && !CommitmentsOk(p, minSigners) then
      Refused(InvalidNumberOfSigningCommitments)
    else if Asks(flags, ROUND2) && !NotTooManySignatures(p, minSigners) then
      Refused(InvalidNumberOfPartialSignatures)
    else if Asks(flags, ROUND2_TRANSITION) && !ExactSignatures(p, minSigners) then
      Refused(InvalidNumberOfPartialSignatures)
    else if Asks(flags, ROUND2_TRANSITION) && !SameSigners(p) then Refused(FrostIdMismatch)
    else if !p.extractable then Refused(ExtractTxError)
    else if Asks(flags, ROUND1) then InputsFrom(r, p, 0)
    else Valid
  }

  // ---------- the whole validation ----------

  /** When `validate_psbt` accepts. */
  ghost predicate Accepts(r: Records, p: Psbt, flags: bv8, minSigners: nat) {
    && p.inputs != [] && p.outputs != []
    && Conflicts(r.tracked, p)
    && GoodOutputs(r, p)
    && FeeOf(p).Amount? && FeeOf(p).fee <= WrappingTotal(p.pays)
    && RoundChecks(r, p, flags, minSigners).Valid?
  }

  /** The checks before the fee is computed pass. */
  ghost predicate ReachesFee(r: Records, p: Psbt) {
    p.inputs != [] && Conflicts(r.tracked, p) && p.outputs != [] && GoodOutputs(r, p)
  }

  /** What `validate_psbt` answers: the first check that fails, in this order, decides. */
  ghost function PsbtVerdict(r: Records, p: Psbt, flags: bv8, minSigners: nat): (v: Verdict) {
    if p.inputs == [] then Refused(NoInputs)
    else if !Conflicts(r.tracked, p) then Refused(NoConflictingInput)
    else if p.outputs == [] then Refused(NoOutputs)
    else if !OutputsVerdict(r, p).Valid? then OutputsVerdict(r, p)
    else FromFee(r, p, flags, minSigners)
  }

  /** The verdict from the fee on. */
  function FromFee(r: Records, p: Psbt, flags: bv8, minSigners: nat): (v: Verdict) {
    match FeeOf(p)
    case FeeAborted => Aborted
    case BadFee(reason) => Refused(reason)
    case Amount(fee) =>
      if fee > WrappingTotal(p.pays) then Refused(FeeSanityCheck) else RoundChecks(r, p, flags, minSigners)
  }

  method CheckInputs(r: Records, p: Psbt) returns (v: Verdict)
    requires |p.inputs| == |p.spends|
    ensures v == InputsFrom(r, p, 0)
  {
    for k := 0 to |p.inputs|
      invariant InputsFrom(r, p, k) == InputsFrom(r, p, 0)
    {
      if p.spends[k] !in r.utxos { return Valid; }
      var one := MatchesUtxo(r.utxos[p.spends[k]], p.inputs[k]);
      if !one.Valid? { return one; }
    }
    v := Valid;
  }

  method SumOutputs(outs: seq<TxOut>) returns (total: nat)
    ensures total == WrappingTotal(outs)
  {
    total := 0;
    for i := 0 to |outs|
      invariant total == WrappingTotal(outs[..i])
    {
      assert outs[..i + 1][..i] == outs[..i];
      total := if total + outs[i].value > U64_MAX then 0 else total + outs[i].value;
    }
    assert outs[..|outs|] == outs;
  }

  /** `validate_psbt` */
  method ValidatePsbt(db: Db, p: Psbt, flags: bv8, minSigners: nat) returns (v: Verdict)
    modifies db`pending
    ensures v.Valid? <==> Accepts(db.records, p, flags, minSigners)
    ensures v.Aborted? <==> ReachesFee(db.records, p) && |p.inputs| != |p.spends|
    ensures v == PsbtVerdict(db.records, p, flags, minSigners)
    ensures db.pending == if v.Refused? && v.reason.AlreadyFinalizedPegouts? then old(db.pending) - {v.reason.id}
                          else old(db.pending)
  {
    if |p.inputs| == 0 { return Refused(NoInputs); }
    var conflicting := HasConflictingInput(db.records.tracked, p);
    if !conflicting { return Refused(NoConflictingInput); }
    if |p.outputs| == 0 { return Refused(NoOutputs); }
    v := ValidateOutputs(db, p);
    if !v.Valid? { return; }
    var fee := FeeOf(p);
    match fee {
      case FeeAborted => return Aborted;
      case BadFee(reason) => return Refused(reason);
      case Amount(amount) =>
        var total := SumOutputs(p.pays);
        if amount > total { return Refused(FeeSanityCheck); }
    }
    v := CheckRounds(db.records, p, flags, minSigners);
  }

  method CheckRounds(r: Records, p: Psbt, flags: bv8, minSigners: nat) returns (v: Verdict)
    requires |p.inputs| == |p.spends|
    ensures v == RoundChecks(r, p, flags, minSigners)
    ensures !v.Aborted? && (v.Refused? ==> !v.reason.AlreadyFinalizedPegouts?)
  {
    if flags == NO_FLAGS { return Valid; }
    if flags & ROUND1_TRANSITION == ROUND1_TRANSITION {
      for i := 0 to |p.inputs|
        invariant forall k :: 0 <= k < i ==> |p.inputs[k].commitments| >= minSigners
      {
        if |p.inputs[i].commitments| < minSigners { return Refused(InvalidNumberOfSigningCommitments); }
      }
    }
    if flags & ROUND2 == ROUND2 {
      for i := 0 to |p.inputs|
        invariant forall k :: 0 <= k < i ==> |p.inputs[k].signatures| <= minSigners
      {
        if |p.inputs[i].signatures| > minSigners { return Refused(InvalidNumberOfPartialSignatures); }
      }
    }
    if flags & ROUND2_TRANSITION == ROUND2_TRANSITION {
      for i := 0 to |p.inputs|
        invariant forall k :: 0 <= k < i ==> |p.inputs[k].signatures| == minSigners
      {
        if |p.inputs[i].signatures| != minSigners { return Refused(InvalidNumberOfPartialSignatures); }
      }
      for i := 0 to |p.inputs|
        invariant forall k :: 0 <= k < i ==> p.inputs[k].commitments == p.inputs[k].signatures
      {
        if p.inputs[i].commitments != p.inputs[i].signatures { return Refused(FrostIdMismatch); }
      }
    }
    if !p.extractable { return Refused(ExtractTxError); }
    if flags & ROUND1 == ROUND1 {
      v := CheckInputs(r, p);
      InputVerdicts(r, p, 0);
      return;
    }
    v := Valid;
  }

  lemma {:induction false} InputVerdicts(r: Records, p: Psbt, k: nat)
    requires |p.inputs| == |p.spends| && k <= |p.inputs|
    ensures var v := InputsFrom(r, p, k);
            !v.Aborted? && (v.Refused? ==> !v.reason.AlreadyFinalizedPegouts?)
    decreases |p.inputs| - k
  {
    if k < |p.inputs| {
      InputVerdicts(r, p, k + 1);
    }
  }

  // ---------- what acceptance means ----------

  /** An accepted PSBT spends at least what it pays and at most twice that: the wrapping fold of the sanity check
      never wraps, because computing the fee has succeeded. */
  lemma AcceptedFeeIsSane(r: Records, p: Psbt, flags: bv8, minSigners: nat)
    requires Accepts(r, p, flags, minSigners)
    ensures Funding(p.inputs).Some? && WrappingTotal(p.pays) == Total(p.pays)
    ensures Total(p.pays) <= Total(Funding(p.inputs).value) <= 2 * Total(p.pays)
  {
    InputSumIsTotal(p.inputs);
    WrappingIsExact(p.pays);
  }

  /** Acceptance is monotone in the flags: whatever passes under `f` passes under every part of `f`. */
  lemma AcceptanceIsMonotone(r: Records, p: Psbt, f: bv8, g: bv8, minSigners: nat)
    requires f & g == g && Accepts(r, p, f, minSigners)
    ensures Accepts(r, p, g, minSigners)
  {
    FewerAsks(f, g, ROUND1);
    FewerAsks(f, g, ROUND1_TRANSITION);
    FewerAsks(f, g, ROUND2);
    FewerAsks(f, g, ROUND2_TRANSITION);
    assert g != 0 ==> f != 0;
  }

  lemma FewerAsks(f: bv8, g: bv8, round: bv8)
    requires f & g == g
    ensures Asks(g, round) ==> Asks(f, round)
  {
    if g & round == round {
      assert f & round == f & (g & round) == (f & g) & round == round;
    }
  }

  /** The database knows the inputs `k..=i`. */
  predicate KnownThrough(r: Records, p: Psbt, k: nat, i: nat)
    requires i < |p.spends|
  {
    forall j :: k <= j <= i ==> p.spends[j] in r.utxos
  }

  /** The input loop accepts exactly when every input before the first unknown one matches its stored output; what
      stands behind an unknown input is never looked at. */
  lemma {:induction false} InputsPassExactly(r: Records, p: Psbt, k: nat)
    requires |p.inputs| == |p.spends| && k <= |p.inputs|
    ensures InputsFrom(r, p, k).Valid? <==>
              forall i: nat :: k <= i < |p.inputs| && KnownThrough(r, p, k, i) ==>
                MatchesUtxo(r.utxos[p.spends[i]], p.inputs[i]).Valid?
    decreases |p.inputs| - k
  {
    if k < |p.inputs| && p.spends[k] in r.utxos {
      InputsPassExactly(r, p, k + 1);
      assert KnownThrough(r, p, k, k);
      forall i: nat | k < i < |p.inputs| ensures KnownThrough(r, p, k, i) <==> KnownThrough(r, p, k + 1, i) {}
    }
  }

  /** Every input before the first one the database does not know shows the stored output and tweak. */
  lemma {:induction false} KnownInputsMatch(r: Records, p: Psbt, k: nat, i: nat)
    requires |p.inputs| == |p.spends| && k <= i < |p.inputs| && InputsFrom(r, p, k).Valid?
    requires forall j :: k <= j <= i ==> p.spends[j] in r.utxos
    ensures p.inputs[i].witnessUtxo == Some(r.utxos[p.spends[i]].output)
    ensures r.utxos[p.spends[i]].ethAddress.Some? ==> p.inputs[i].ethAddress == r.utxos[p.spends[i]].ethAddress
    decreases |p.inputs| - k
  {
    if k < i {
      KnownInputsMatch(r, p, k + 1, i);
    }
  }

  // ---------- acceptance in terms of the records alone ----------

  /** The ids are exactly those of the outputs that carry one. */
  lemma {:induction false} IdsAreThoseOfOutputs(outputs: seq<Option<PegoutId>>)
    ensures forall id :: id in IdsOf(outputs) <==> Some(id) in outputs
  {
    if outputs != [] {
      var init, last := outputs[..|outputs| - 1], outputs[|outputs| - 1];
      IdsAreThoseOfOutputs(init);
      assert outputs == init + [last];
    }
  }

  /** No two outputs carry the same id. */
  ghost predicate IdsDiffer(outputs: seq<Option<PegoutId>>) {
    forall i, j :: 0 <= i < j < |outputs| && outputs[i].Some? ==> outputs[i] != outputs[j]
  }

  lemma {:induction false} DistinctIdsExactly(outputs: seq<Option<PegoutId>>)
    ensures Distinct(IdsOf(outputs)) <==> IdsDiffer(outputs)
  {
    if outputs != [] {
      var init, last := outputs[..|outputs| - 1], outputs[|outputs| - 1];
      DistinctIdsExactly(init);
      IdsAreThoseOfOutputs(init);
      DifferFromInit(outputs);
      if last.Some? {
        DistinctFromInit(IdsOf(outputs));
        assert IdsOf(outputs)[..|IdsOf(outputs)| - 1] == IdsOf(init);
      }
    }
  }

  lemma DifferFromInit(outputs: seq<Option<PegoutId>>)
    requires outputs != []
    ensures var init, last := outputs[..|outputs| - 1], outputs[|outputs| - 1];
            IdsDiffer(outputs) <==> IdsDiffer(init) && (last.Some? ==> last !in init)
  {
    var init, last := outputs[..|outputs| - 1], outputs[|outputs| - 1];
    forall i | 0 <= i < |init| ensures outputs[i] == init[i] {}
    if last.Some? && last in init {
      var i :| 0 <= i < |init| && init[i] == last;
      assert outputs[i] == outputs[|outputs| - 1];
    }
  }

  /** The outputs pay open peg-outs once each and at most one change, back to the federation. */
  ghost predicate OutputsAreGood(r: Records, p: Psbt) {
    && |p.outputs| == |p.pays| && r.changeScript.Some?
    && (forall i, j :: 0 <= i < j < |p.outputs| ==> p.outputs[i] != p.outputs[j])
    && (forall i :: 0 <= i < |p.outputs| && p.outputs[i].Some? ==> p.outputs[i].value !in r.finalized)
    && (forall i :: 0 <= i < |p.outputs| && p.outputs[i].None? ==> p.pays[i].script == r.changeScript.value)
  }

  lemma GoodOutputsExactly(r: Records, p: Psbt)
    ensures GoodOutputs(r, p) <==> OutputsAreGood(r, p)
  {
    var ids := IdsOf(p.outputs);
    IdsAreThoseOfOutputs(p.outputs);
    DistinctIdsExactly(p.outputs);
    if GoodOutputs(r, p) {
      forall i | 0 <= i < |p.outputs| && p.outputs[i].Some? ensures p.outputs[i].value !in r.finalized {
        assert p.outputs[i].value in ids;
      }
    }
    if OutputsAreGood(r, p) {
      forall k | 0 <= k < |ids| ensures ids[k] !in r.finalized {
        assert ids[k] in ids;
        var i :| 0 <= i < |p.outputs| && p.outputs[i] == Some(ids[k]);
      }
    }
  }

  /** Every tracked transaction that pays one of the outputs' ids spends one of the inputs. */
  ghost predicate RetriesConflict(r: Records, p: Psbt) {
    forall k, i :: 0 <= k < |r.tracked| && 0 <= i < |r.tracked[k].requests|
                   && Some(r.tracked[k].requests[i]) in p.outputs ==>
      exists j :: 0 <= j < |r.tracked[k].inputs| && r.tracked[k].inputs[j] in p.spends
  }

  lemma ConflictsExactly(r: Records, p: Psbt)
    ensures Conflicts(r.tracked, p) <==> RetriesConflict(r, p)
  {
    IdsAreThoseOfOutputs(p.outputs);
    if RetriesConflict(r, p) {
      forall k | 0 <= k < |r.tracked| && SharesId(r.tracked[k], IdsOf(p.outputs))
        ensures SharesInput(r.tracked[k], p.spends)
      {
        var i :| 0 <= i < |r.tracked[k].requests| && r.tracked[k].requests[i] in IdsOf(p.outputs);
        assert Some(r.tracked[k].requests[i]) in p.outputs;
      }
    }
    if Conflicts(r.tracked, p) {
      forall k, i | 0 <= k < |r.tracked| && 0 <= i < |r.tracked[k].requests|
                    && Some(r.tracked[k].requests[i]) in p.outputs
        ensures exists j :: 0 <= j < |r.tracked[k].inputs| && r.tracked[k].inputs[j] in p.spends
      {
        assert SharesId(r.tracked[k], IdsOf(p.outputs));
      }
    }
  }

  /** Every input shows the output it spends; together they are worth at least the outputs and at most twice as much,
      and both sums fit 64 bits. */
  ghost predicate FeeIsSane(p: Psbt) {
    && |p.inputs| == |p.spends| && Funding(p.inputs).Some?
    && Total(p.pays) <= Total(Funding(p.inputs).value) <= 2 * Total(p.pays)
    && Total(Funding(p.inputs).value) <= 0xFFFF_FFFF_FFFF_FFFF
  }

  lemma FeeIsSaneExactly(p: Psbt)
    ensures FeeOf(p).Amount? && FeeOf(p).fee <= WrappingTotal(p.pays) <==> FeeIsSane(p)
  {
    InputSumIsTotal(p.inputs);
    if Total(p.pays) <= U64_MAX {
      WrappingIsExact(p.pays);
    }
  }

  /** What the flags demand. Bits 0 and 1: enough commitments. Bits 0 to 2: not too many signatures. Bits 0, 1 and 3:
      exactly enough signatures, by the signers that committed. Any flag: the transaction can be extracted. Bit 0: each
      input, up to the first that the database does not know, shows the stored output and tweak. */
  ghost predicate FlagsAreMet(r: Records, p: Psbt, flags: bv8, minSigners: nat)
    requires |p.inputs| == |p.spends|
  {
    && (flags & 3 == 3 ==> forall i :: 0 <= i < |p.inputs| ==> minSigners <= |p.inputs[i].commitments|)
    && (flags & 7 == 7 ==> forall i :: 0 <= i < |p.inputs| ==> |p.inputs[i].signatures| <= minSigners)
    && (flags & 11 == 11 ==>
          forall i :: 0 <= i < |p.inputs| ==>
            |p.inputs[i].signatures| == minSigners && p.inputs[i].signatures == p.inputs[i].commitments)
    && (flags != 0 ==> p.extractable)
    && (flags & 1 == 1 ==>
          forall i: nat :: i < |p.inputs| && KnownThrough(r, p, 0, i) ==>
            var u := r.utxos[p.spends[i]];
            && p.inputs[i].witnessUtxo == Some(u.output)
            && (u.ethAddress.Some? ==> p.inputs[i].ethAddress == u.ethAddress))
  }

  lemma FlagsAreMetExactly(r: Records, p: Psbt, flags: bv8, minSigners: nat)
    requires |p.inputs| == |p.spends|
    ensures RoundChecks(r, p, flags, minSigners).Valid? <==> FlagsAreMet(r, p, flags, minSigners)
  {
    InputsPassExactly(r, p, 0);
    NoFlagAsksNothing();
  }

  lemma NoFlagAsksNothing()
    ensures 0 as bv8 & 1 != 1 && 0 as bv8 & 3 != 3 && 0 as bv8 & 7 != 7 && 0 as bv8 & 11 != 11
  {
  }

  /** The whole of PSBT validation: what is accepted, under any flags, in terms of the PSBT and the database alone. */
  lemma AcceptedExactly(r: Records, p: Psbt, flags: bv8, minSigners: nat)
    ensures Accepts(r, p, flags, minSigners) <==>
              && p.inputs != [] && p.outputs != []
              && RetriesConflict(r, p) && OutputsAreGood(r, p) && FeeIsSane(p) && FlagsAreMet(r, p, flags, minSigners)
  {
    ConflictsExactly(r, p);
    GoodOutputsExactly(r, p);
    FeeIsSaneExactly(p);
    if |p.inputs| == |p.spends| {
      FlagsAreMetExactly(r, p, flags, minSigners);
    }
  }

  /** What each refusal of the fee says about the PSBT. */
  lemma FeeRefusalsMean(p: Psbt)
    ensures FeeOf(p).FeeAborted? <==> |p.inputs| != |p.spends|
    ensures FeeOf(p) == BadFee(MissingUtxo) ==> Funding(p.inputs).None?
    ensures FeeOf(p) == BadFee(FeeOverflow) ==>
              InputSum(p.inputs) == BadFee(FeeOverflow) || Total(p.pays) > 0xFFFF_FFFF_FFFF_FFFF
    ensures FeeOf(p) == BadFee(NegativeFee) ==>
              Funding(p.inputs).Some? && Total(Funding(p.inputs).value) < Total(p.pays)
    ensures FeeOf(p).BadFee? ==> FeeOf(p).reason in {MissingUtxo, FeeOverflow, NegativeFee}
  {
    InputSumIsTotal(p.inputs);
    MissingIsMissing(p.inputs);
  }

  /** What each refusal of the round checks says about the PSBT. */
  lemma RoundRefusalsMean(r: Records, p: Psbt, flags: bv8, minSigners: nat)
    requires |p.inputs| == |p.spends| && RoundChecks(r, p, flags, minSigners).Refused?
    ensures match RoundChecks(r, p, flags, minSigners).reason
            case InvalidNumberOfSigningCommitments =>
              flags & 3 == 3 && exists i :: 0 <= i < |p.inputs| && |p.inputs[i].commitments| < minSigners
            case InvalidNumberOfPartialSignatures =>
              || (flags & 7 == 7 && exists i :: 0 <= i < |p.inputs| && |p.inputs[i].signatures| > minSigners)
              || (flags & 11 == 11 && exists i :: 0 <= i < |p.inputs| && |p.inputs[i].signatures| != minSigners)
            case FrostIdMismatch =>
              flags & 11 == 11 && exists i :: 0 <= i < |p.inputs| && p.inputs[i].signatures != p.inputs[i].commitments
            case ExtractTxError => !p.extractable
            case reason => flags & 1 == 1 && exists i: nat :: MismatchAt(r, p, i, reason)
  {
    if InputsFrom(r, p, 0).Refused? {
      var i := FirstMismatch(r, p, 0);
    }
  }

  lemma {:induction false} MissingIsMissing(inputs: seq<Input>)
    ensures InputSum(inputs) == BadFee(MissingUtxo) ==> Funding(inputs).None?
  {
    if inputs != [] {
      MissingIsMissing(inputs[..|inputs| - 1]);
    }
  }

  /** Input `i`, before any unknown one, does not show the stored tweak, or any output, or the stored output. */
  ghost predicate MismatchAt(r: Records, p: Psbt, i: nat, reason: Refusal)
    requires |p.inputs| == |p.spends|
  {
    && i < |p.inputs| && KnownThrough(r, p, 0, i)
    && var u := r.utxos[p.spends[i]];
    match reason
    case EthTweakMismatch => u.ethAddress.Some? && p.inputs[i].ethAddress != u.ethAddress
    case MissingWitnessUtxo => p.inputs[i].witnessUtxo.None?
    case TxOutMismatch => p.inputs[i].witnessUtxo.Some? && p.inputs[i].witnessUtxo.value != u.output
    case _ => false
  }

  lemma {:induction false} FirstMismatch(r: Records, p: Psbt, k: nat) returns (i: nat)
    requires |p.inputs| == |p.spends| && k <= |p.inputs| && InputsFrom(r, p, k).Refused?
    requires forall j :: 0 <= j < k ==> p.spends[j] in r.utxos
    ensures MismatchAt(r, p, i, InputsFrom(r, p, k).reason)
    decreases |p.inputs| - k
  {
    if MatchesUtxo(r.utxos[p.spends[k]], p.inputs[k]).Valid? {
      i := FirstMismatch(r, p, k + 1);
    } else {
      i := k;
    }
  }
}
