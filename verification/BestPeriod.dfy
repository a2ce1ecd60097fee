/** Picking the best of the reports of a strategy.

    The reduction keeps the better of two totals, but starts again from the first report whenever
    the best total so far is zero, which JavaScript takes for a missing one. */
module BestPeriod {

  /** Index of the report kept after looking at the first `k`. */
  function Kept(totals: seq<real>, k: nat): (i: nat)
    requires totals != [] && k <= |totals|
    ensures i < |totals| && (k > 0 ==> i < k)
  {
    if k == 0 then 0
    else
      var kept := Kept(totals, k - 1);
      if totals[kept] == 0.0 then 0
      else if totals[k - 1] > totals[kept] then k - 1
      else kept
  }

  ghost predicate IsBest(totals: seq<real>, i: nat)
    requires i < |totals|
  {
    forall j | 0 <= j < |totals| :: totals[j] <= totals[i]
  }

  /** An odd number of zero totals stands right before report `k`; the reduction then passes over
      report `k`. */
  predicate OddZerosBefore(totals: seq<real>, k: nat)
    requires k <= |totals|
  {
    k > 0 && totals[k - 1] == 0.0 && !OddZerosBefore(totals, k - 1)
  }

  /** A profitable report that is not passed over. */
  predicate Counts(totals: seq<real>, k: nat)
    requires k < |totals|
  {
    totals[k] > 0.0 && !OddZerosBefore(totals, k)
  }

  ghost predicate FirstThatCounts(totals: seq<real>, f: nat)
    requires f < |totals|
  {
    Counts(totals, f) && forall j: nat | j < f :: !Counts(totals, j)
  }

  lemma {:induction false} KeptBeforeProfit(totals: seq<real>, k: nat)
    requires totals != [] && k <= |totals| && totals[0] < 0.0
    requires forall j: nat | j < k :: !Counts(totals, j)
    ensures totals[Kept(totals, k)] <= 0.0
    ensures totals[Kept(totals, k)] == 0.0 <==> OddZerosBefore(totals, k)
  {
    if k > 0 {
      KeptBeforeProfit(totals, k - 1);
      assert !Counts(totals, k - 1);
    }
  }

  lemma {:induction false} KeptAfterProfit(totals: seq<real>, f: nat, k: nat)
    requires f < k <= |totals| && totals[0] != 0.0 && FirstThatCounts(totals, f)
    ensures Kept(totals, k) >= f && totals[Kept(totals, k)] > 0.0
    ensures forall j | f <= j < k :: totals[j] <= totals[Kept(totals, k)]
  {
    if k > f + 1 {
      KeptAfterProfit(totals, f, k - 1);
    } else if f > 0 {
      assert totals[0] < 0.0 by {
        assert !Counts(totals, 0);
      }
      KeptBeforeProfit(totals, f);
    }
  }

  lemma {:induction false} KeptOfZeroFirst(totals: seq<real>, k: nat)
    requires totals != [] && k <= |totals| && totals[0] == 0.0
    ensures Kept(totals, k) == 0
  {
    if k > 0 {
      KeptOfZeroFirst(totals, k - 1);
    }
  }

  lemma {:induction false} KeptWithoutZeros(totals: seq<real>, k: nat)
    requires totals != [] && k <= |totals|
    requires forall j | 0 <= j < |totals| :: totals[j] != 0.0
    ensures forall j | 0 <= j < k :: totals[j] <= totals[Kept(totals, k)]
  {
    if k > 0 {
      KeptWithoutZeros(totals, k - 1);
    }
  }

  /** When the report kept at the end has the greatest total, for every list of totals. */
  lemma KeptIsBestIff(totals: seq<real>)
    requires totals != []
    ensures totals[0] == 0.0 ==>
              && Kept(totals, |totals|) == 0
              && (IsBest(totals, 0) <==> forall j | 0 <= j < |totals| :: totals[j] <= 0.0)
    ensures totals[0] > 0.0 || (forall j | 0 <= j < |totals| :: totals[j] != 0.0) ==>
              IsBest(totals, Kept(totals, |totals|))
    ensures totals[0] != 0.0 ==>
              forall f: nat | f < |totals| && FirstThatCounts(totals, f) ::
                IsBest(totals, Kept(totals, |totals|))
                <==> forall i | 0 <= i < f :: exists j | f <= j < |totals| :: totals[i] <= totals[j]
    ensures totals[0] < 0.0 && (forall j: nat | j < |totals| :: !Counts(totals, j)) ==>
              (IsBest(totals, Kept(totals, |totals|))
               <==> (forall j | 0 <= j < |totals| :: totals[j] < 0.0)
                    || (OddZerosBefore(totals, |totals|) && forall j | 0 <= j < |totals| :: totals[j] <= 0.0))
  {
    var n, kept := |totals|, Kept(totals, |totals|);
    if totals[0] == 0.0 {
      KeptOfZeroFirst(totals, n);
    } else {
      if totals[0] > 0.0 {
        assert FirstThatCounts(totals, 0);
        KeptAfterProfit(totals, 0, n);
      }
      forall f: nat | f < n && FirstThatCounts(totals, f)
        ensures IsBest(totals, kept)
           <==> forall i | 0 <= i < f :: exists j | f <= j < n :: totals[i] <= totals[j]
      {
        KeptAfterProfit(totals, f, n);
      }
      if forall j | 0 <= j < n :: totals[j] != 0.0 {
        KeptWithoutZeros(totals, n);
      }
      if totals[0] < 0.0 && forall j: nat | j < n :: !Counts(totals, j) {
        KeptBeforeProfit(totals, n);
      }
    }
  }

  /** A loss, a zero and then the only profit: the profit is passed over. */
  lemma ProfitPassedOver()
    ensures var totals := [-1.0, 0.0, 5.0]; Kept(totals, 3) == 0 && !IsBest(totals, 0)
  {
    var totals := [-1.0, 0.0, 5.0];
    assert Kept(totals, 1) == 0 && Kept(totals, 2) == 1;
    assert totals[2] > totals[0];
  }
}
