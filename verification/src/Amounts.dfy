/** Satoshi and wei. */
module Amounts {
  import opened Options

  const SATOSHI_IN_WEI: nat := 10_000_000_000
  const MAX_SATOSHI: nat := 0xFFFF_FFFF_FFFF_FFFF

  function ToWei(sat: nat): nat {
    sat * SATOSHI_IN_WEI
  }

  /** Drops what is smaller than one satoshi; `None` above the largest amount. */
  function FromWeiFloor(wei: nat): (r: Option<nat>)
    ensures r.Some? <==> wei < ToWei(MAX_SATOSHI + 1)
    ensures r.Some? ==> r.value <= MAX_SATOSHI && ToWei(r.value) <= wei < ToWei(r.value + 1)
  {
    var sat := wei / SATOSHI_IN_WEI;
    if sat <= MAX_SATOSHI then Some(sat) else None
  }

  /** Exact conversion: succeeds only on whole satoshis. */
  function FromWei(wei: nat): (r: Option<nat>) {
    var floor := FromWeiFloor(wei);
    if floor.Some? && ToWei(floor.value) == wei then floor else None
  }

  /** Rounding down is adjoint to `ToWei`: an amount is covered by `wei` exactly when it is at most the floor, so a
      peg-out never releases more than was burned and no larger whole amount would have been covered. */
  lemma FloorIsAdjoint(sat: nat, wei: nat)
    requires FromWeiFloor(wei).Some?
    ensures ToWei(sat) <= wei <==> sat <= FromWeiFloor(wei).value
  {
  }

  /** `FromWei` inverts `ToWei` and accepts nothing else. */
  lemma ExactConversion(sat: nat, wei: nat)
    requires sat <= MAX_SATOSHI
    ensures FromWei(wei) == Some(sat) <==> wei == ToWei(sat)
  {
    if wei == ToWei(sat) {
      FloorIsAdjoint(sat, wei);
    }
  }
}
