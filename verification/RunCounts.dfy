/** Counting runs of accepted drafts by their length. */
module RunCounts {
  /** How many of the runs have length at least `p`. */
  function AtLeast(runs: seq<nat>, p: int): (c: nat)
    ensures c <= |runs|
  {
    if runs == [] then 0 else AtLeast(runs[..|runs| - 1], p) + (if runs[|runs| - 1] >= p then 1 else 0)
  }

  /** How many of the runs have length exactly `p`. */
  function Exactly(runs: seq<nat>, p: int): nat {
    if runs == [] then 0 else Exactly(runs[..|runs| - 1], p) + (if runs[|runs| - 1] == p then 1 else 0)
  }

  function Sum(runs: seq<nat>): nat {
    if runs == [] then 0 else Sum(runs[..|runs| - 1]) + runs[|runs| - 1]
  }

  function Min(a: nat, b: nat): nat {
    if a <= b then a else b
  }

  /** The total length of the runs, each cut off at `k`. */
  function CappedSum(runs: seq<nat>, k: nat): nat {
    if runs == [] then 0 else CappedSum(runs[..|runs| - 1], k) + Min(runs[|runs| - 1], k)
  }

  /** The number of (position, run) pairs with position `1..k` inside the run, counted by position. */
  function ByPosition(runs: seq<nat>, k: nat): nat {
    if k == 0 then 0 else ByPosition(runs, k - 1) + AtLeast(runs, k)
  }

  lemma AtLeastSnoc(runs: seq<nat>, run: nat, p: int)
    ensures AtLeast(runs + [run], p) == AtLeast(runs, p) + (if run >= p then 1 else 0)
  {
  }

  lemma SumSnoc(runs: seq<nat>, run: nat)
    ensures Sum(runs + [run]) == Sum(runs) + run
  {
  }

  /** Neighbouring counts differ by the number of runs of exactly that length. */
  lemma {:induction false} AtLeastDifference(runs: seq<nat>, p: int)
    ensures AtLeast(runs, p) == AtLeast(runs, p + 1) + Exactly(runs, p)
  {
    if runs == [] {
    } else {
      AtLeastDifference(runs[..|runs| - 1], p);
    }
  }

  lemma {:induction false} ByPositionSnoc(runs: seq<nat>, run: nat, k: nat)
    ensures ByPosition(runs + [run], k) == ByPosition(runs, k) + Min(run, k)
  {
    if k == 0 {
    } else {
      ByPositionSnoc(runs, run, k - 1);
      AtLeastSnoc(runs, run, k);
    }
  }

  /** Counting by position and counting by run agree. */
  lemma {:induction false} DoubleCounting(runs: seq<nat>, k: nat)
    ensures ByPosition(runs, k) == CappedSum(runs, k)
  {
    if runs == [] {
      EmptyByPosition(k);
    } else {
      var init, run := runs[..|runs| - 1], runs[|runs| - 1];
      assert runs == init + [run];
      DoubleCounting(init, k);
      ByPositionSnoc(init, run, k);
    }
  }

  lemma {:induction false} EmptyByPosition(k: nat)
    ensures ByPosition([], k) == 0
  {
    if k == 0 {
    } else {
      EmptyByPosition(k - 1);
    }
  }

  /** Runs that never exceed the cap are summed in full. */
  lemma {:induction false} UncappedSum(runs: seq<nat>, k: nat)
    requires forall i :: 0 <= i < |runs| ==> runs[i] <= k
    ensures CappedSum(runs, k) == Sum(runs)
  {
    if runs == [] {
    } else {
      UncappedSum(runs[..|runs| - 1], k);
    }
  }

  /** Every run has length at least zero. */
  lemma {:induction false} AtLeastZero(runs: seq<nat>)
    ensures AtLeast(runs, 0) == |runs|
  {
    if runs == [] {
    } else {
      AtLeastZero(runs[..|runs| - 1]);
    }
  }
}
