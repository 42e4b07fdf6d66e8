/** Peg-outs on the Bitcoin ledger: which sets of signed transactions can pay a peg-out twice. */
module PegoutLedger {
  import opened ProofCodec
  import opened PegoutIds
  import Psbt

  /** A signed peg-out transaction. */
  datatype Tx = Tx(txid: nat, inputs: set<Outpoint>, ids: set<PegoutId>)

  /** `signed` is every transaction ever accepted; each of them may confirm as long as its inputs are unspent.
      `buried` are the confirmed ones too deep to be reorganized away. `retired` are finalized ids that were pruned
      after the retention period. */
  datatype State = State(
    signed: set<Tx>, tracked: set<Tx>, finalized: set<PegoutId>, retired: set<PegoutId>,
    confirmed: set<Tx>, buried: set<Tx>)

  predicate Conflict(a: Tx, b: Tx) {
    a.inputs * b.inputs != {}
  }

  predicate SharesId(a: Tx, b: Tx) {
    a.ids * b.ids != {}
  }

  /** The Bitcoin ledger never holds two transactions spending the same output. */
  ghost predicate Wf(s: State) {
    && s.buried <= s.confirmed <= s.signed && s.tracked <= s.signed
    && forall a, b :: a in s.confirmed && b in s.confirmed && a != b ==> !Conflict(a, b)
  }

  /** An input of `a` is spent for good by another transaction. */
  ghost predicate Dead(s: State, a: Tx) {
    exists f :: f in s.buried && f != a && Conflict(f, a)
  }

  ghost predicate PaidTwice(s: State) {
    exists a, b :: a in s.confirmed && b in s.confirmed && a != b && SharesId(a, b)
  }

  // ---------- Bitcoin's moves ----------

  datatype ChainEvent = Confirm(tx: Tx) | Disconnect(tx: Tx) | Bury(tx: Tx)

  ghost predicate ChainEnabled(s: State, e: ChainEvent) {
    match e
    case Confirm(tx) => tx in s.signed && forall c :: c in s.confirmed && c != tx ==> !Conflict(c, tx)
    case Disconnect(tx) => tx in s.confirmed && tx !in s.buried
    case Bury(tx) => tx in s.confirmed
  }

  function ChainStep(s: State, e: ChainEvent): (s': State) {
    match e
    case Confirm(tx) => s.(confirmed := s.confirmed + {tx})
    case Disconnect(tx) => s.(confirmed := s.confirmed - {tx})
    case Bury(tx) => s.(buried := s.buried + {tx})
  }

  ghost predicate IsChainRun(s: State, es: seq<ChainEvent>, s': State)
    decreases |es|
  {
    if es == [] then s == s'
    else ChainEnabled(s, es[0]) && IsChainRun(ChainStep(s, es[0]), es[1..], s')
  }

  /** Of any two signed transactions with a common id, at most one can still confirm. */
  ghost predicate Harmless(s: State) {
    forall a, b :: a in s.signed && b in s.signed && a != b && SharesId(a, b) ==>
      Conflict(a, b) || Dead(s, a) || Dead(s, b)
  }

  lemma DeadIsForever(s: State, e: ChainEvent, a: Tx)
    requires Dead(s, a)
    ensures Dead(ChainStep(s, e), a)
  {
    var f :| f in s.buried && f != a && Conflict(f, a);
    assert f in ChainStep(s, e).buried;
  }

  lemma ChainStepKeepsHarmless(s: State, e: ChainEvent)
    requires Wf(s) && Harmless(s) && ChainEnabled(s, e)
    ensures Wf(ChainStep(s, e)) && Harmless(ChainStep(s, e))
  {
    var s' := ChainStep(s, e);
    forall a, b | a in s'.signed && b in s'.signed && a != b && SharesId(a, b)
      ensures Conflict(a, b) || Dead(s', a) || Dead(s', b)
    {
      if Dead(s, a) { DeadIsForever(s, e, a); }
      if Dead(s, b) { DeadIsForever(s, e, b); }
    }
  }

  lemma HarmlessPaysOnce(s: State)
    requires Wf(s) && Harmless(s)
    ensures !PaidTwice(s)
  {
    forall a, b | a in s.confirmed && b in s.confirmed && a != b
      ensures !SharesId(a, b)
    {
      NotDeadWhenConfirmed(s, a);
      NotDeadWhenConfirmed(s, b);
    }
  }

  lemma NotDeadWhenConfirmed(s: State, a: Tx)
    requires Wf(s) && a in s.confirmed
    ensures !Dead(s, a)
  {
  }

  lemma {:induction false} HarmlessStaysSafe(s: State, es: seq<ChainEvent>, s': State)
    requires Wf(s) && Harmless(s) && IsChainRun(s, es, s')
    ensures !PaidTwice(s')
    decreases |es|
  {
    if es == [] {
      HarmlessPaysOnce(s);
    } else {
      ChainStepKeepsHarmless(s, es[0]);
      HarmlessStaysSafe(ChainStep(s, es[0]), es[1..], s');
    }
  }

  /** Everything not buried may be reorganized away. */
  lemma {:induction false} DisconnectAll(s: State) returns (es: seq<ChainEvent>)
    requires s.buried <= s.confirmed
    ensures IsChainRun(s, es, s.(confirmed := s.buried))
    decreases |s.confirmed|
  {
    if s.confirmed == s.buried {
      es := [];
    } else {
      assert exists tx :: tx in s.confirmed && tx !in s.buried;
      var tx :| tx in s.confirmed && tx !in s.buried;
      var s1 := ChainStep(s, Disconnect(tx));
      var rest := DisconnectAll(s1);
      es := [Disconnect(tx)] + rest;
      assert es[1..] == rest;
      assert s1.(confirmed := s1.buried) == s.(confirmed := s.buried);
    }
  }

  lemma {:induction false} ChainRunAppend(s: State, es: seq<ChainEvent>, t: State, e: ChainEvent)
    requires IsChainRun(s, es, t) && ChainEnabled(t, e)
    ensures IsChainRun(s, es + [e], ChainStep(t, e))
    decreases |es|
  {
    if es == [] {
      assert ([] + [e])[1..] == [];
    } else {
      assert (es + [e])[0] == es[0] && (es + [e])[1..] == es[1..] + [e];
      ChainRunAppend(ChainStep(s, es[0]), es[1..], t, e);
    }
  }

  /** Two signed transactions with a common id that do not conflict and are both alive can both confirm. */
  lemma HarmReachesLedger(s: State, a: Tx, b: Tx) returns (es: seq<ChainEvent>, s': State)
    requires Wf(s) && a in s.signed && b in s.signed && a != b && SharesId(a, b)
    requires !Conflict(a, b) && !Dead(s, a) && !Dead(s, b)
    ensures IsChainRun(s, es, s') && PaidTwice(s')
  {
    es := DisconnectAll(s);
    var t := s.(confirmed := s.buried);
    ChainRunAppend(s, es, t, Confirm(a));
    es, s' := es + [Confirm(a)], ChainStep(t, Confirm(a));
    assert forall c :: c in s'.confirmed && c != b ==> !Conflict(c, b);
    ChainRunAppend(s, es, s', Confirm(b));
    es, s' := es + [Confirm(b)], ChainStep(s', Confirm(b));
    assert a in s'.confirmed && b in s'.confirmed;
  }

  /** Whatever the Bitcoin chain does with the signed transactions, no id is paid twice. */
  ghost predicate SafeForever(s: State) {
    forall es: seq<ChainEvent>, s': State :: IsChainRun(s, es, s') ==> !PaidTwice(s')
  }

  lemma HarmlessIsSafe(s: State)
    requires Wf(s) && Harmless(s)
    ensures SafeForever(s)
  {
    forall es: seq<ChainEvent>, s': State | IsChainRun(s, es, s') ensures !PaidTwice(s') {
      HarmlessStaysSafe(s, es, s');
    }
  }

  lemma SafeIsHarmless(s: State)
    requires Wf(s) && SafeForever(s)
    ensures Harmless(s)
  {
    forall a, b | a in s.signed && b in s.signed && a != b && SharesId(a, b)
      ensures Conflict(a, b) || Dead(s, a) || Dead(s, b)
    {
      if !(Conflict(a, b) || Dead(s, a) || Dead(s, b)) {
        var es, s' := HarmReachesLedger(s, a, b);
        assert false;
      }
    }
  }

  /** Exactly the harmless states are safe: no sequence of confirmations, reorganizations and burials pays an id
      twice if and only if of any two signed transactions with a common id at most one is able to confirm. */
  lemma HarmlessIsExact(s: State)
    requires Wf(s)
    ensures Harmless(s) <==> SafeForever(s)
  {
    if Harmless(s) {
      HarmlessIsSafe(s);
    }
    if SafeForever(s) {
      SafeIsHarmless(s);
    }
  }

  // ---------- the signer's moves ----------

  datatype SignerEvent =
    | Accept(tx: Tx)                // `validate_psbt` accepts, and the transaction is tracked
    | Finalize(tx: Tx)              // `finalize_block` on a buried transaction
    | Untrack(tx: Tx)               // `un_track_tx`
    | Prune(ids: set<PegoutId>)     // `prune_finalized_pegout_ids`

  /** The conflicting-input rule and the finalized-id rule. */
  ghost predicate RulesAccept(s: State, tx: Tx) {
    && (forall t :: t in s.tracked && SharesId(t, tx) ==> Conflict(t, tx))
    && tx.ids !! s.finalized
  }

  ghost predicate SignerEnabled(s: State, e: SignerEvent) {
    match e
    case Accept(tx) => RulesAccept(s, tx)
    case Finalize(tx) => tx in s.buried
    case Untrack(tx) => tx in s.tracked
    case Prune(ids) => ids <= s.finalized
  }

  function SignerStep(s: State, e: SignerEvent): (s': State) {
    match e
    case Accept(tx) => s.(signed := s.signed + {tx}, tracked := s.tracked + {tx})
    case Finalize(tx) => s.(finalized := s.finalized + tx.ids, tracked := s.tracked - {tx})
    case Untrack(tx) => s.(tracked := s.tracked - {tx})
    case Prune(ids) => s.(finalized := s.finalized - ids, retired := s.retired + ids)
  }

  /** The outputs spent for good. */
  function Spent(s: State): (os: set<Outpoint>) {
    set f, o | f in s.buried && o in f.inputs :: o
  }

  /** A tracked payer of `id` none of whose inputs is available to a transaction that could confirm beside `a`. */
  ghost predicate Shields(s: State, t: Tx, a: Tx, id: PegoutId) {
    t in s.tracked && id in t.ids && t.inputs <= a.inputs + Spent(s)
  }

  /** The id is closed, or a tracked transaction guards `a`'s payment of it. */
  ghost predicate Guarded(s: State, a: Tx, id: PegoutId) {
    id in s.finalized + s.retired || exists t :: Shields(s, t, a, id)
  }

  /** Every signed transaction that is still able to confirm is guarded on each id it pays. */
  ghost predicate Complete(s: State) {
    forall a, id :: a in s.signed && !Dead(s, a) && id in a.ids ==> Guarded(s, a, id)
  }

  /** Closed ids have been paid for good. */
  ghost predicate Settled(s: State) {
    forall id :: id in s.finalized + s.retired ==> exists f :: f in s.buried && id in f.ids
  }

  /** The invariant: the Bitcoin ledger is consistent, closed ids are paid, no harm is done and none can follow. */
  ghost predicate Inv(s: State) {
    Wf(s) && Settled(s) && Harmless(s) && Complete(s)
  }

  // ---------- accepting ----------

  lemma SameBurialsSameDead(s: State, s': State, a: Tx)
    requires s.buried == s'.buried
    ensures Dead(s, a) <==> Dead(s', a)
  {
  }

  lemma PayerIsCovered(s: State, a: Tx, tx: Tx)
    requires Complete(s) && RulesAccept(s, tx) && tx.ids !! s.retired && tx !in s.signed
    requires s.buried <= s.signed && a in s.signed && SharesId(a, tx)
    ensures Conflict(a, tx) || Dead(s, a) || Dead(s, tx)
  {
    var id :| id in a.ids * tx.ids;
    if !Dead(s, a) {
      assert Guarded(s, a, id);
      var t :| Shields(s, t, a, id);
      assert id in t.ids * tx.ids;
      var o :| o in t.inputs * tx.inputs;
      if o in a.inputs {
        assert o in a.inputs * tx.inputs;
      } else {
        var f :| f in s.buried && o in f.inputs;
        assert o in f.inputs * tx.inputs;
      }
    }
  }

  /** With every live payer guarded the two rules are enough: no accepted transaction can become a second payer. */
  lemma RulesKeepHarmless(s: State, tx: Tx)
    requires Wf(s) && Harmless(s) && Complete(s) && RulesAccept(s, tx) && tx.ids !! s.retired
    ensures Harmless(SignerStep(s, Accept(tx)))
  {
    if tx in s.signed {
      SignedAgain(s, tx);
    } else {
      forall a | a in s.signed && SharesId(a, tx) ensures Conflict(a, tx) || Dead(s, a) || Dead(s, tx) {
        PayerIsCovered(s, a, tx);
      }
      NewPayerIsHarmless(s, tx);
    }
  }

  lemma SignedAgain(s: State, tx: Tx)
    requires Harmless(s) && tx in s.signed
    ensures Harmless(SignerStep(s, Accept(tx)))
  {
    var s' := SignerStep(s, Accept(tx));
    assert s'.signed == s.signed;
    forall a ensures Dead(s, a) <==> Dead(s', a) {
      SameBurialsSameDead(s, s', a);
    }
  }

  lemma NewPayerIsHarmless(s: State, tx: Tx)
    requires Harmless(s)
    requires forall a :: a in s.signed && SharesId(a, tx) ==> Conflict(a, tx) || Dead(s, a) || Dead(s, tx)
    ensures Harmless(SignerStep(s, Accept(tx)))
  {
    var s' := SignerStep(s, Accept(tx));
    forall a, b | a in s'.signed && b in s'.signed && a != b && SharesId(a, b)
      ensures Conflict(a, b) || Dead(s', a) || Dead(s', b)
    {
      SameBurialsSameDead(s, s', a);
      SameBurialsSameDead(s, s', b);
      assert a.inputs * b.inputs == b.inputs * a.inputs && a.ids * b.ids == b.ids * a.ids;
    }
  }

  /** What may be accepted: a transaction all of whose ids are still known to be open or finalized; one that pays a
      pruned id only if it was signed before or is unable to confirm. */
  ghost predicate MayAccept(s: State, tx: Tx) {
    tx.ids !! s.retired || tx in s.signed || Dead(s, tx)
  }

  /** Pruning and acceptance, exactly: what the rules accept is safe if and only if it pays no pruned id, or was
      signed before, or is unable to confirm. */
  lemma AcceptExactly(s: State, tx: Tx)
    requires Inv(s) && RulesAccept(s, tx)
    ensures SafeForever(SignerStep(s, Accept(tx))) <==> MayAccept(s, tx)
  {
    var s' := SignerStep(s, Accept(tx));
    HarmlessIsExact(s');
    if MayAccept(s, tx) {
      AcceptKeepsHarmless(s, tx);
    } else {
      var id :| id in tx.ids && id in s.retired;
      assert id in s.finalized + s.retired;
      var f :| f in s.buried && id in f.ids;
      assert id in f.ids * tx.ids && SharesId(f, tx);
      NotDeadWhenConfirmed(s, f);
      SameBurialsSameDead(s, s', f);
      SameBurialsSameDead(s, s', tx);
      assert !Conflict(f, tx);
    }
  }

  lemma AcceptKeepsHarmless(s: State, tx: Tx)
    requires Inv(s) && RulesAccept(s, tx) && MayAccept(s, tx)
    ensures Harmless(SignerStep(s, Accept(tx)))
  {
    if tx.ids !! s.retired {
      RulesKeepHarmless(s, tx);
    } else if tx in s.signed {
      SignedAgain(s, tx);
    } else {
      NewPayerIsHarmless(s, tx);
    }
  }

  /** The failing case: an id that is finalized, pruned and offered again on an unrelated output. */
  lemma PrunedIdIsPaidAgain(s: State, tx: Tx, id: PegoutId, o: Outpoint, txid: nat)
    requires Inv(s) && tx in s.buried && id in tx.ids
    requires forall t :: t in s.tracked && t != tx ==> id !in t.ids
    requires forall a :: a in s.signed ==> o !in a.inputs
    ensures var s1 := SignerStep(s, Finalize(tx));
            var s2, tx2 := SignerStep(s1, Prune({id})), Tx(txid, {o}, {id});
            && SignerEnabled(s, Finalize(tx)) && SignerEnabled(s1, Prune({id})) && SignerEnabled(s2, Accept(tx2))
            && !SafeForever(SignerStep(s2, Accept(tx2)))
  {
    var s1 := SignerStep(s, Finalize(tx));
    var s2, tx2 := SignerStep(s1, Prune({id})), Tx(txid, {o}, {id});
    FinalizeKeepsInv(s, tx);
    PruneKeepsInv(s1, {id});
    assert !Dead(s2, tx2) && tx2 !in s2.signed && id in tx2.ids * s2.retired;
    AcceptExactly(s2, tx2);
  }

  // ---------- what an unguarded payer costs ----------

  /** No signed transaction spends the output. */
  ghost predicate Unused(s: State, o: Outpoint) {
    forall a :: a in s.signed ==> o !in a.inputs
  }

  /** A second payer of `id` that the rules accept and that leaves `a` alone: it spends an unused output and, to
      satisfy the conflicting-input rule, the inputs of tracked payers that `a` does not spend. */
  function SecondPayer(s: State, a: Tx, id: PegoutId, o: Outpoint): (tx: Tx) {
    var borrowed := set t, x | t in s.tracked && id in t.ids && x in t.inputs && x !in a.inputs + Spent(s) :: x;
    Tx(0, {o} + borrowed, {id})
  }

  lemma UnguardedIsUnsafe(s: State, a: Tx, id: PegoutId, o: Outpoint)
    requires Wf(s) && Unused(s, o) && a in s.signed && !Dead(s, a) && id in a.ids && !Guarded(s, a, id)
    ensures var tx := SecondPayer(s, a, id, o);
            RulesAccept(s, tx) && tx.ids !! s.retired && !SafeForever(SignerStep(s, Accept(tx)))
  {
    var tx := SecondPayer(s, a, id, o);
    forall t | t in s.tracked && SharesId(t, tx) ensures Conflict(t, tx) {
      assert id in t.ids && !Shields(s, t, a, id);
      var x :| x in t.inputs && x !in a.inputs + Spent(s);
      assert x in t.inputs * tx.inputs;
    }
    var s' := SignerStep(s, Accept(tx));
    SameBurialsSameDead(s, s', a);
    assert !Conflict(a, tx) && id in a.ids * tx.ids;
    forall f | f in s.buried ensures !Conflict(f, tx) {
      forall x | x in f.inputs ensures x !in tx.inputs {
        assert x in Spent(s);
      }
    }
    assert !Dead(s', tx) && tx != a;
    HarmlessIsExact(s');
  }

  // ---------- un-tracking ----------

  /** Un-tracking `tx` leaves every live payer of its open ids guarded by another tracked transaction. */
  ghost predicate MayUntrack(s: State, tx: Tx) {
    forall a, id :: a in s.signed && !Dead(s, a) && id in a.ids * tx.ids && id !in s.finalized + s.retired ==>
      exists t :: t != tx && Shields(s, t, a, id)
  }

  lemma UntrackKeepsInvExactly(s: State, tx: Tx)
    requires Inv(s) && tx in s.tracked
    ensures Wf(SignerStep(s, Untrack(tx))) && Settled(SignerStep(s, Untrack(tx)))
    ensures Harmless(SignerStep(s, Untrack(tx)))
    ensures Complete(SignerStep(s, Untrack(tx))) <==> MayUntrack(s, tx)
  {
    var s' := SignerStep(s, Untrack(tx));
    forall a ensures Dead(s, a) <==> Dead(s', a) {
      SameBurialsSameDead(s, s', a);
    }
    forall t, a, id ensures Shields(s', t, a, id) <==> t != tx && Shields(s, t, a, id) {}
    if MayUntrack(s, tx) {
      forall a, id | a in s'.signed && !Dead(s', a) && id in a.ids ensures Guarded(s', a, id) {
        assert Guarded(s, a, id);
        if id !in s.finalized + s.retired {
          if id in tx.ids {
            assert id in a.ids * tx.ids;
            var t :| t != tx && Shields(s, t, a, id);
            assert Shields(s', t, a, id);
          } else {
            var t :| Shields(s, t, a, id);
            assert Shields(s', t, a, id);
          }
        }
      }
    } else {
      var a, id :| a in s.signed && !Dead(s, a) && id in a.ids * tx.ids && id !in s.finalized + s.retired
                   && !exists t :: t != tx && Shields(s, t, a, id);
      assert !Guarded(s', a, id);
    }
  }

  /** For a transaction that is still able to confirm only its own payments matter: un-tracking it is fine if and only
      if each open id it pays has another tracked payer none of whose inputs leaves room beside it. */
  lemma UntrackLive(s: State, tx: Tx)
    requires Inv(s) && tx in s.tracked && !Dead(s, tx)
    ensures MayUntrack(s, tx) <==>
              forall id :: id in tx.ids && id !in s.finalized + s.retired ==>
                exists t :: t != tx && Shields(s, t, tx, id)
  {
    if MayUntrack(s, tx) {
      forall id | id in tx.ids && id !in s.finalized + s.retired ensures exists t :: t != tx && Shields(s, t, tx, id) {
        assert id in tx.ids * tx.ids;
      }
    } else {
      var a, id :| a in s.signed && !Dead(s, a) && id in a.ids * tx.ids && id !in s.finalized + s.retired
                   && !exists t :: t != tx && Shields(s, t, a, id);
      assert Guarded(s, a, id);
      assert Shields(s, tx, a, id);
      forall t | t != tx && Shields(s, t, tx, id) ensures Shields(s, t, a, id) {}
    }
  }

  /** A tracked retry that pays the same ids from inputs of the transaction makes the transaction dispensable. */
  lemma RetryAllowsUntrack(s: State, tx: Tx, retry: Tx)
    requires Inv(s) && tx in s.tracked && retry in s.tracked && retry != tx
    requires tx.ids <= retry.ids && retry.inputs <= tx.inputs
    ensures MayUntrack(s, tx)
  {
    forall a, id | a in s.signed && !Dead(s, a) && id in a.ids * tx.ids && id !in s.finalized + s.retired
      ensures exists t :: t != tx && Shields(s, t, a, id)
    {
      assert Guarded(s, a, id);
      var t :| Shields(s, t, a, id);
      if t == tx {
        assert Shields(s, retry, a, id);
      }
    }
  }

  // ---------- whole runs ----------

  datatype Event = OnChain(chain: ChainEvent) | BySigner(signer: SignerEvent)

  ghost predicate Enabled(s: State, e: Event) {
    match e
    case OnChain(c) => ChainEnabled(s, c)
    case BySigner(m) => SignerEnabled(s, m)
  }

  function Step(s: State, e: Event): State {
    match e
    case OnChain(c) => ChainStep(s, c)
    case BySigner(m) => SignerStep(s, m)
  }

  /** The conditions under which the rules protect a run: both are exact, see `AcceptExactly` and `UntrackExactly`. */
  ghost predicate Careful(s: State, e: Event) {
    match e
    case OnChain(_) => true
    case BySigner(Accept(tx)) => MayAccept(s, tx)
    case BySigner(Untrack(tx)) => MayUntrack(s, tx)
    case BySigner(_) => true
  }

  ghost predicate IsRun(s: State, es: seq<Event>, s': State)
    decreases |es|
  {
    if es == [] then s == s'
    else Enabled(s, es[0]) && Careful(s, es[0]) && IsRun(Step(s, es[0]), es[1..], s')
  }

  lemma ChainStepKeepsInv(s: State, e: ChainEvent)
    requires Inv(s) && ChainEnabled(s, e)
    ensures Inv(ChainStep(s, e))
  {
    ChainStepKeepsHarmless(s, e);
    var s' := ChainStep(s, e);
    assert s.buried <= s'.buried && Spent(s) <= Spent(s');
    forall a, id | a in s'.signed && !Dead(s', a) && id in a.ids ensures Guarded(s', a, id) {
      if Dead(s, a) {
        DeadIsForever(s, e, a);
      }
      assert Guarded(s, a, id);
      if id !in s.finalized + s.retired {
        var t :| Shields(s, t, a, id);
        assert Shields(s', t, a, id);
      }
    }
  }

  lemma AcceptKeepsInv(s: State, tx: Tx)
    requires Inv(s) && RulesAccept(s, tx) && MayAccept(s, tx)
    ensures Inv(SignerStep(s, Accept(tx)))
  {
    AcceptKeepsHarmless(s, tx);
    var s' := SignerStep(s, Accept(tx));
    forall a, id | a in s'.signed && !Dead(s', a) && id in a.ids ensures Guarded(s', a, id) {
      SameBurialsSameDead(s, s', a);
      if a == tx {
        assert Shields(s', tx, tx, id);
      } else {
        assert Guarded(s, a, id);
        if id !in s.finalized + s.retired {
          var t :| Shields(s, t, a, id);
          assert Shields(s', t, a, id);
        }
      }
    }
  }

  lemma FinalizeKeepsInv(s: State, tx: Tx)
    requires Inv(s) && tx in s.buried
    ensures Inv(SignerStep(s, Finalize(tx)))
  {
    var s' := SignerStep(s, Finalize(tx));
    forall a ensures Dead(s, a) <==> Dead(s', a) {
      SameBurialsSameDead(s, s', a);
    }
    forall a, id | a in s'.signed && !Dead(s', a) && id in a.ids ensures Guarded(s', a, id) {
      assert Guarded(s, a, id);
      if id !in s'.finalized + s'.retired {
        var t :| Shields(s, t, a, id);
        assert Shields(s', t, a, id);
      }
    }
  }

  lemma PruneKeepsInv(s: State, ids: set<PegoutId>)
    requires Inv(s) && ids <= s.finalized
    ensures Inv(SignerStep(s, Prune(ids)))
  {
    var s' := SignerStep(s, Prune(ids));
    assert s'.finalized + s'.retired == s.finalized + s.retired;
    forall a ensures Dead(s, a) <==> Dead(s', a) {
      SameBurialsSameDead(s, s', a);
    }
    forall a, id | a in s'.signed && !Dead(s', a) && id in a.ids ensures Guarded(s', a, id) {
      assert Guarded(s, a, id);
      if id !in s.finalized + s.retired {
        var t :| Shields(s, t, a, id);
        assert Shields(s', t, a, id);
      }
    }
  }

  lemma SignerStepKeepsInv(s: State, e: SignerEvent)
    requires Inv(s) && SignerEnabled(s, e) && Careful(s, BySigner(e))
    ensures Inv(SignerStep(s, e))
  {
    match e
    case Accept(tx) => AcceptKeepsInv(s, tx);
    case Finalize(tx) => FinalizeKeepsInv(s, tx);
    case Untrack(tx) => UntrackKeepsInvExactly(s, tx);
    case Prune(ids) => PruneKeepsInv(s, ids);
  }

  lemma {:induction false} RunKeepsInv(s: State, es: seq<Event>, s': State)
    requires Inv(s) && IsRun(s, es, s')
    ensures Inv(s')
    decreases |es|
  {
    if es != [] {
      match es[0] {
        case OnChain(c) => ChainStepKeepsInv(s, c);
        case BySigner(m) => SignerStepKeepsInv(s, m);
      }
      RunKeepsInv(Step(s, es[0]), es[1..], s');
    }
  }

  function Genesis(): State {
    State({}, {}, {}, {}, {}, {})
  }

  /** No peg-out is paid twice: over every careful run of acceptances, confirmations, reorganizations, burials,
      finalizations, un-trackings and prunings, no id is ever carried by two confirmed transactions. */
  lemma NoPegoutPaidTwice(es: seq<Event>, s: State)
    requires IsRun(Genesis(), es, s)
    ensures !PaidTwice(s)
    ensures forall id, a, b :: a in s.confirmed && b in s.confirmed && id in a.ids && id in b.ids ==> a == b
  {
    RunKeepsInv(Genesis(), es, s);
    HarmlessPaysOnce(s);
    forall id, a, b | a in s.confirmed && b in s.confirmed && id in a.ids && id in b.ids ensures a == b {
      assert id in a.ids * b.ids;
    }
  }

  // ---------- without any condition ----------

  /** A run in which events need only be possible, whatever is un-tracked, pruned or offered again. */
  ghost predicate IsAnyRun(s: State, es: seq<Event>, s': State)
    decreases |es|
  {
    if es == [] then s == s'
    else Enabled(s, es[0]) && IsAnyRun(Step(s, es[0]), es[1..], s')
  }

  /** All tracked payers of an id pairwise conflict, so that the ledger holds at most one of them. */
  ghost predicate TrackedPayersConflict(s: State) {
    forall a, b :: a in s.tracked && b in s.tracked && a != b && SharesId(a, b) ==> Conflict(a, b)
  }

  lemma StepKeepsTrackedConflicts(s: State, e: Event)
    requires TrackedPayersConflict(s) && Enabled(s, e)
    ensures TrackedPayersConflict(Step(s, e))
  {
    var s' := Step(s, e);
    forall a, b | a in s'.tracked && b in s'.tracked && a != b && SharesId(a, b) ensures Conflict(a, b) {
      assert a.inputs * b.inputs == b.inputs * a.inputs && a.ids * b.ids == b.ids * a.ids;
    }
  }

  /** The conflicting-input rule by itself, over every run. */
  lemma {:induction false} RunKeepsTrackedConflicts(s: State, es: seq<Event>, s': State)
    requires TrackedPayersConflict(s) && IsAnyRun(s, es, s')
    ensures TrackedPayersConflict(s')
    decreases |es|
  {
    if es != [] {
      StepKeepsTrackedConflicts(s, es[0]);
      RunKeepsTrackedConflicts(Step(s, es[0]), es[1..], s');
    }
  }

  // ---------- exactness over runs ----------

  predicate Untracks(e: Event) {
    e.BySigner? && e.signer.Untrack?
  }

  /** Nothing is un-tracked. */
  ghost predicate Quiet(es: seq<Event>) {
    forall i :: 0 <= i < |es| ==> !Untracks(es[i])
  }

  /** No continuation without un-tracking pays an id twice. */
  ghost predicate StaysSafe(s: State) {
    forall es: seq<Event>, s': State :: Quiet(es) && IsRun(s, es, s') ==> !PaidTwice(s')
  }

  lemma {:induction false} ChainRunIsRun(s: State, es: seq<ChainEvent>, s': State) returns (fs: seq<Event>)
    requires IsChainRun(s, es, s')
    ensures Quiet(fs) && IsRun(s, fs, s')
    decreases |es|
  {
    if es == [] {
      fs := [];
    } else {
      var rest := ChainRunIsRun(ChainStep(s, es[0]), es[1..], s');
      fs := [OnChain(es[0])] + rest;
      assert fs[1..] == rest;
    }
  }

  lemma StaysSafeIsSafeForever(s: State)
    requires StaysSafe(s)
    ensures SafeForever(s)
  {
    forall es: seq<ChainEvent>, s': State | IsChainRun(s, es, s') ensures !PaidTwice(s') {
      var fs := ChainRunIsRun(s, es, s');
    }
  }

  lemma StaysSafeStep(s: State, e: Event)
    requires StaysSafe(s) && Enabled(s, e) && Careful(s, e) && !Untracks(e)
    ensures StaysSafe(Step(s, e))
  {
    forall es: seq<Event>, s': State | Quiet(es) && IsRun(Step(s, e), es, s') ensures !PaidTwice(s') {
      var all := [e] + es;
      assert all[1..] == es;
      assert Quiet(all) && IsRun(s, all, s');
    }
  }

  /** The invariant is the exact condition for safety: no continuation without un-tracking pays an id twice if and
      only if the state is harmless and complete. */
  lemma InvIsExact(s: State, o: Outpoint)
    requires Wf(s) && Settled(s) && Unused(s, o)
    ensures StaysSafe(s) <==> Harmless(s) && Complete(s)
  {
    if Harmless(s) && Complete(s) {
      forall es: seq<Event>, s': State | Quiet(es) && IsRun(s, es, s') ensures !PaidTwice(s') {
        RunKeepsInv(s, es, s');
        HarmlessPaysOnce(s');
      }
    }
    if StaysSafe(s) {
      StaysSafeIsSafeForever(s);
      HarmlessIsExact(s);
      forall a, id | a in s.signed && !Dead(s, a) && id in a.ids ensures Guarded(s, a, id) {
        if !Guarded(s, a, id) {
          UnguardedIsUnsafe(s, a, id, o);
          var tx := SecondPayer(s, a, id, o);
          StaysSafeStep(s, BySigner(Accept(tx)));
          StaysSafeIsSafeForever(SignerStep(s, Accept(tx)));
          assert false;
        }
      }
    }
  }

  /** Un-tracking, exactly: after it no continuation without further un-tracking pays an id twice if and only if every
      live payer of the open ids of the transaction stays guarded. */
  lemma UntrackExactly(s: State, tx: Tx, o: Outpoint)
    requires Inv(s) && tx in s.tracked && Unused(s, o)
    ensures StaysSafe(SignerStep(s, Untrack(tx))) <==> MayUntrack(s, tx)
  {
    UntrackKeepsInvExactly(s, tx);
    InvIsExact(SignerStep(s, Untrack(tx)), o);
  }

  // ---------- the rules are those of `validate_psbt` ----------

  function TxOf(txid: nat, p: Psbt.Psbt): Tx {
    Tx(txid, set x | x in p.spends, set x | x in Psbt.IdsOf(p.outputs))
  }

  function TrackedTxOf(txid: nat, t: Psbt.TrackedTx): Tx {
    Tx(txid, set x | x in t.inputs, set x | x in t.requests)
  }

  /** The database lists every tracked transaction and every finalized id of the state. */
  ghost predicate Mirrors(r: Psbt.Records, s: State) {
    && (forall t :: t in s.tracked ==> exists k :: 0 <= k < |r.tracked| && TrackedTxOf(t.txid, r.tracked[k]) == t)
    && (forall id :: id in s.finalized ==> id in r.finalized)
  }

  /** A PSBT that validation accepts, under any flags, is one the two rules accept. */
  lemma AcceptedPsbtObeysRules(r: Psbt.Records, s: State, p: Psbt.Psbt, flags: bv8, minSigners: nat, txid: nat)
    requires Mirrors(r, s) && Psbt.Accepts(r, p, flags, minSigners)
    ensures SignerEnabled(s, Accept(TxOf(txid, p)))
  {
    var tx, ids := TxOf(txid, p), Psbt.IdsOf(p.outputs);
    forall t | t in s.tracked && SharesId(t, tx) ensures Conflict(t, tx) {
      var k :| 0 <= k < |r.tracked| && TrackedTxOf(t.txid, r.tracked[k]) == t;
      var id :| id in t.ids * tx.ids;
      assert id in r.tracked[k].requests && id in ids;
      assert Psbt.SharesId(r.tracked[k], ids);
      assert Psbt.SharesInput(r.tracked[k], p.spends);
      var i :| 0 <= i < |r.tracked[k].inputs| && r.tracked[k].inputs[i] in p.spends;
      assert r.tracked[k].inputs[i] in t.inputs * tx.inputs;
    }
    forall id | id in tx.ids ensures id !in s.finalized {
      var i :| 0 <= i < |ids| && ids[i] == id;
    }
  }
}
