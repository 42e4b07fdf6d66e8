/** The last-vote table of the activation manager and its rounded approval rates. */
module VoteTable {
  import opened Options

  type Address = nat

  datatype Vote = Aye | Nay | Abstain

  datatype Entry = Entry(vote: Vote, compliant: bool, height: nat)

  type Table = map<Address, Entry>

  /** A validator's entry is replaced only by a vote from a greater height. */
  function Updated(t: Table, a: Address, e: Entry): (r: Table) {
    if a in t && t[a].height >= e.height then t else t[a := e]
  }

  /** Drops the votes cast below a height. */
  function Pruned(t: Table, below: nat): (r: Table) {
    map a | a in t && t[a].height >= below :: t[a]
  }

  function Voted(t: Table, v: Vote): set<Address> {
    set a | a in t && t[a].vote == v
  }

  function Compliant(t: Table): set<Address> {
    set a | a in t && t[a].compliant
  }

  /** Integer division rounded up. */
  function DivCeil(n: nat, d: nat): nat
    requires d > 0
  {
    if n % d > 0 then n / d + 1 else n / d
  }

  /** The denominator of both approval rates. */
  function Total(t: Table, minCount: nat): nat {
    Max(|t|, minCount)
  }

  /** Percentage, rounded up, of `count` validators. */
  function Rate(count: nat, total: nat): nat
    requires total > 0
  {
    DivCeil(count * 100, total)
  }

  /** Each entry counts as exactly one of aye, nay and abstained. */
  lemma VotesAddUp(t: Table)
    ensures |Voted(t, Aye)| + |Voted(t, Nay)| + |Voted(t, Abstain)| == |t|
  {
    var ayeOrNay := Voted(t, Aye) + Voted(t, Nay);
    assert t.Keys == ayeOrNay + Voted(t, Abstain);
    assert Voted(t, Aye) !! Voted(t, Nay) && ayeOrNay !! Voted(t, Abstain);
    assert |ayeOrNay| == |Voted(t, Aye)| + |Voted(t, Nay)|;
    assert |t.Keys| == |ayeOrNay| + |Voted(t, Abstain)|;
  }

  /** Rounding up lets a rate reach `q` percent as soon as the exact share exceeds `q - 1` percent, not before. */
  lemma RateReachesQuorum(count: nat, total: nat, q: nat)
    requires total > 0 && q > 0
    ensures Rate(count, total) >= q <==> 100 * count > (q - 1) * total
  {
    var n := count * 100;
    var k := n / total;
    assert n == k * total + n % total;
    if k >= q {
      MulLe(q, k, total);
      assert (q - 1) * total == q * total - total;
    } else if k == q - 1 {
    } else {
      MulLe(k + 1, q - 1, total);
      assert (k + 1) * total == k * total + total;
    }
  }

  lemma MulLe(a: nat, b: nat, c: nat)
    requires a <= b
    ensures a * c <= b * c
  {
  }

  /** When both rates reach quorum, more than `2(q - 1) - 100` percent are at once aye voters and compliant:
      for the minimum quorum of 67 that is more than 32 percent of the validators counted. */
  lemma QuorumsOverlap(t: Table, minCount: nat, q: nat)
    requires q > 0 && Total(t, minCount) > 0
    requires Rate(|Voted(t, Aye)|, Total(t, minCount)) >= q
    requires Rate(|Compliant(t)|, Total(t, minCount)) >= q
    ensures 100 * |Voted(t, Aye) * Compliant(t)| > (2 * (q - 1) - 100) * Total(t, minCount)
  {
    var ayes, compliant, total := Voted(t, Aye), Compliant(t), Total(t, minCount);
    RateReachesQuorum(|ayes|, total, q);
    RateReachesQuorum(|compliant|, total, q);
    assert ayes + compliant <= t.Keys;
    SubsetSize(ayes + compliant, t.Keys);
    assert |ayes + compliant| == |ayes| + |compliant| - |ayes * compliant|;
    assert (2 * (q - 1) - 100) * total == 2 * ((q - 1) * total) - 100 * total;
  }

  lemma {:induction false} SubsetSize<T>(a: set<T>, b: set<T>)
    requires a <= b
    ensures |a| <= |b|
  {
    if a != {} {
      var x :| x in a;
      SubsetSize(a - {x}, b - {x});
    }
  }

  /** What an update does: nobody else is touched, nobody's vote gets older, and the newer of the two votes stays; of
      two votes from one height the first one stays. */
  lemma UpdateKeepsNewest(t: Table, a: Address, e: Entry)
    ensures var r := Updated(t, a, e);
            && r.Keys == t.Keys + {a} && (forall b :: b in t && b != a ==> r[b] == t[b])
            && (a !in t || t[a].height < e.height ==> r[a] == e)
            && (a in t && e.height <= t[a].height ==> r[a] == t[a])
  {
  }

  /** Votes of one validator from different heights may arrive in any order. */
  lemma UpdatesCommute(t: Table, a: Address, e: Entry, b: Address, f: Entry)
    requires a != b || e.height != f.height
    ensures Updated(Updated(t, a, e), b, f) == Updated(Updated(t, b, f), a, e)
  {
  }

  /** The in-memory vote store. */
  class VoteWatcher {
    var votes: Table

    constructor ()
      ensures votes == map[]
    {
      votes := map[];
    }

    method UpdateUpgradingVote(a: Address, vote: Vote, compliant: bool, height: nat)
      modifies this
      ensures votes == Updated(old(votes), a, Entry(vote, compliant, height))
    {
      if a in votes {
        if votes[a].height >= height { return; }
      }
      votes := votes[a := Entry(vote, compliant, height)];
    }

    /** Returns how many votes were dropped. */
    method RemoveUpgradingVotes(below: nat) returns (removed: nat)
      modifies this
      ensures votes == Pruned(old(votes), below)
      ensures removed == |old(votes)| - |votes|
    {
      var gross := |votes|;
      ghost var before := votes;
      votes := map a | a in votes && votes[a].height >= below :: votes[a];
      assert votes.Keys <= before.Keys;
      SubsetSize(votes.Keys, before.Keys);
      removed := gross - |votes|;
    }
  }
}
