/** Splitting the block fees and crediting the three recipients. */
module Fees {
  import opened Options
  import opened Bytes

  const U128_MAX: nat := 0xFFFF_FFFF_FFFF_FFFF_FFFF_FFFF_FFFF_FFFF

  /** 50% and 40%, rounded down, and the remainder; `None` when the percentage computation overflows. */
  function BlockFeesSplit(total: nat): (r: Option<(nat, nat, nat)>)
    ensures r.Some? <==> total * 50 <= U128_MAX
    ensures r.Some? ==> var (lst, botanix, recipient) := r.value;
              && lst + botanix + recipient == total
              && 2 * lst <= total < 2 * lst + 2
              && 5 * botanix <= 2 * total < 5 * botanix + 5
              && total <= 10 * recipient <= total + 15
  {
    if total * 50 > U128_MAX || total * 40 > U128_MAX then None
    else
      var lst := total * 50 / 100;
      var botanix := total * 40 / 100;
      Some((lst, botanix, total - lst - botanix))
  }

  datatype ChainSpec = ChainSpec(lstFeeReceiver: Option<Account>, botanixFeeRecipient: Option<Account>)

  function ZeroAddress(): Account {
    seq(20, _ => 0)
  }

  type Increments = map<Account, nat>

  /** `entry(a).and_modify(+= v).or_insert(v)` */
  function Credited(m: Increments, a: Account, v: nat): Increments {
    m[a := (if a in m then m[a] else 0) + v]
  }

  ghost function Sum(m: Increments): nat
    decreases |m|
  {
    if m == map[] then 0
    else
      var a :| a in m;
      m[a] + Sum(m - {a})
  }

  /** The sum does not depend on the order in which entries are taken out. */
  lemma {:induction false} SumWithout(m: Increments, a: Account)
    requires a in m
    ensures Sum(m) == m[a] + Sum(m - {a})
    decreases |m|
  {
    var b :| b in m && Sum(m) == m[b] + Sum(m - {b});
    if a != b {
      SumWithout(m - {b}, a);
      SumWithout(m - {a}, b);
      assert m - {b} - {a} == m - {a} - {b};
    }
  }

  lemma SumCredited(m: Increments, a: Account, v: nat)
    ensures Sum(Credited(m, a, v)) == Sum(m) + v
  {
    var m' := Credited(m, a, v);
    SumWithout(m', a);
    if a in m {
      SumWithout(m, a);
      assert m' - {a} == m - {a};
    } else {
      assert m' - {a} == m;
    }
  }

  /** `post_block_balance_increments`. When all recipients are configured and the block's recipient is not the zero
      address, the credited balances add up to exactly the block fees, however the three addresses coincide;
      otherwise nothing is credited. `None` is an arithmetic overflow, which ends the process. */
  method PostBlockBalanceIncrements(spec: ChainSpec, totalFees: Option<nat>, recipient: Option<Account>)
    returns (r: Option<Increments>)
    ensures var fees := if totalFees.None? then 0 else totalFees.value;
            var active := recipient.Some? && recipient.value != ZeroAddress()
                          && spec.lstFeeReceiver.Some? && spec.botanixFeeRecipient.Some?;
            && (r.None? <==> active && fees * 50 > U128_MAX)
            && (r.Some? ==> Sum(r.value) == if active then fees else 0)
            && (r.Some? && active && fees > 0 ==>
                  r.value.Keys == {recipient.value, spec.lstFeeReceiver.value, spec.botanixFeeRecipient.value})
    ensures var fees := if totalFees.None? then 0 else totalFees.value;
            r.Some? && fees > 0 && recipient.Some? && recipient.value != ZeroAddress()
            && spec.lstFeeReceiver.Some? && spec.botanixFeeRecipient.Some? ==>
              var (lst, botanix, rest) := BlockFeesSplit(fees).value;
              forall a :: a in r.value ==>
                r.value[a] == (if a == spec.lstFeeReceiver.value then lst else 0)
                              + (if a == spec.botanixFeeRecipient.value then botanix else 0)
                              + (if a == recipient.value then rest else 0)
  {
    var increments: Increments := map[];
    var fees := if totalFees.None? then 0 else totalFees.value;
    var blockFeeRecipient := if recipient.None? then ZeroAddress() else recipient.value;
    if fees > 0 && blockFeeRecipient != ZeroAddress() && spec.botanixFeeRecipient.Some? && spec.lstFeeReceiver.Some? {
      var split := BlockFeesSplit(fees);
      if split.None? { return None; }
      var (lst, botanix, rest) := split.value;
      SumCredited(increments, spec.lstFeeReceiver.value, lst);
      increments := Credited(increments, spec.lstFeeReceiver.value, lst);
      SumCredited(increments, spec.botanixFeeRecipient.value, botanix);
      increments := Credited(increments, spec.botanixFeeRecipient.value, botanix);
      SumCredited(increments, blockFeeRecipient, rest);
      increments := Credited(increments, blockFeeRecipient, rest);
    }
    r := Some(increments);
  }
}
