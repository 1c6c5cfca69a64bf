/** The maximum drawdown of an agent's profit-and-loss sequence. */
module Drawdowns {
  /** The cumulative sum up to and including position `i`. */
  function Cumulative(pnls: seq<real>, i: nat): real
    requires i < |pnls|
  {
    if i == 0 then pnls[0] else Cumulative(pnls, i - 1) + pnls[i]
  }

  /** `d` is the greatest fall of the cumulative sum from a position to a later one (or the same). */
  ghost predicate IsMaxDrawdown(pnls: seq<real>, d: real) {
    && (forall i, j :: 0 <= i <= j < |pnls| ==> Cumulative(pnls, i) - Cumulative(pnls, j) <= d)
    && exists i, j :: 0 <= i <= j < |pnls| && Cumulative(pnls, i) - Cumulative(pnls, j) == d
  }

  function Total(pnls: seq<real>): real {
    if pnls == [] then 0.0 else Total(pnls[..|pnls| - 1]) + pnls[|pnls| - 1]
  }

  /** What is lost by the positions after `i` up to `j`. */
  function LossOver(pnls: seq<real>, i: nat, j: nat): real
    requires i <= j < |pnls|
  {
    -Total(pnls[i + 1..j + 1])
  }

  /** `d` is the greatest loss over positions in a row that do not include the first. */
  ghost predicate IsWorstLoss(pnls: seq<real>, d: real) {
    && (forall i, j :: 0 <= i <= j < |pnls| ==> LossOver(pnls, i, j) <= d)
    && exists i, j :: 0 <= i <= j < |pnls| && LossOver(pnls, i, j) == d
  }

  lemma {:induction false} FallIsLoss(pnls: seq<real>, i: nat, j: nat)
    requires i <= j < |pnls|
    ensures Cumulative(pnls, i) - Cumulative(pnls, j) == LossOver(pnls, i, j)
  {
    if i < j {
      FallIsLoss(pnls, i, j - 1);
      assert pnls[i + 1..j + 1][..j - i - 1] == pnls[i + 1..j];
    }
  }

  lemma {:induction false} MaxDrawdownIsWorstLoss(pnls: seq<real>, d: real)
    requires IsMaxDrawdown(pnls, d)
    ensures IsWorstLoss(pnls, d)
  {
    forall i, j | 0 <= i <= j < |pnls|
      ensures LossOver(pnls, i, j) <= d
    {
      FallIsLoss(pnls, i, j);
    }
    var i, j :| 0 <= i <= j < |pnls| && Cumulative(pnls, i) - Cumulative(pnls, j) == d;
    FallIsLoss(pnls, i, j);
  }

  /** `m` is the greatest of `xs[0]` to `xs[j]`. */
  ghost predicate IsPrefixMax(xs: seq<real>, j: nat, m: real)
    requires j < |xs|
  {
    (forall i :: 0 <= i <= j ==> xs[i] <= m) && exists i :: 0 <= i <= j && xs[i] == m
  }

  /** `cumsum`, `maximum.accumulate`, their difference and its maximum, in turn. */
  method MaxDrawdown(pnls: seq<real>) returns (d: real)
    ensures pnls == [] ==> d == 0.0
    ensures pnls != [] ==> IsMaxDrawdown(pnls, d) && IsWorstLoss(pnls, d)
  {
    if pnls == [] {
      return 0.0;
    }
    var cumulative := CumulativeSums(pnls);
    var runningMax := RunningMaximum(cumulative);
    ghost var worst;
    d, worst := GreatestDifference(runningMax, cumulative);
    FallsFromPrefixMax(pnls, cumulative, runningMax, worst, d);
    MaxDrawdownIsWorstLoss(pnls, d);
  }

  method GreatestDifference(xs: seq<real>, ys: seq<real>) returns (d: real, ghost worst: nat)
    requires |xs| == |ys| > 0
    ensures worst < |xs| && d == xs[worst] - ys[worst]
    ensures forall j :: 0 <= j < |xs| ==> xs[j] - ys[j] <= d
  {
    d, worst := xs[0] - ys[0], 0;
    for i := 1 to |xs|
      invariant worst < i && d == xs[worst] - ys[worst]
      invariant forall j :: 0 <= j < i ==> xs[j] - ys[j] <= d
    {
      if xs[i] - ys[i] > d {
        d, worst := xs[i] - ys[i], i;
      }
    }
  }

  /** The greatest fall below the running maximum is the greatest fall. */
  lemma {:induction false} FallsFromPrefixMax(pnls: seq<real>, sums: seq<real>, maxima: seq<real>, worst: nat, d: real)
    requires |sums| == |maxima| == |pnls| && worst < |pnls|
    requires forall i :: 0 <= i < |pnls| ==> sums[i] == Cumulative(pnls, i) && IsPrefixMax(sums, i, maxima[i])
    requires d == maxima[worst] - sums[worst]
    requires forall j :: 0 <= j < |pnls| ==> maxima[j] - sums[j] <= d
    ensures IsMaxDrawdown(pnls, d)
  {
    assert IsPrefixMax(sums, worst, maxima[worst]);
    var peak :| 0 <= peak <= worst && sums[peak] == maxima[worst];
    assert Cumulative(pnls, peak) - Cumulative(pnls, worst) == d;
    forall i, j | 0 <= i <= j < |pnls|
      ensures Cumulative(pnls, i) - Cumulative(pnls, j) <= d
    {
      assert IsPrefixMax(sums, j, maxima[j]);
      assert sums[i] <= maxima[j];
    }
  }

  method CumulativeSums(pnls: seq<real>) returns (sums: seq<real>)
    ensures |sums| == |pnls| && forall i :: 0 <= i < |pnls| ==> sums[i] == Cumulative(pnls, i)
  {
    sums := [];
    for i := 0 to |pnls|
      invariant |sums| == i && forall j :: 0 <= j < i ==> sums[j] == Cumulative(pnls, j)
    {
      sums := sums + [if i == 0 then pnls[0] else sums[i - 1] + pnls[i]];
    }
  }

  method RunningMaximum(xs: seq<real>) returns (maxima: seq<real>)
    ensures |maxima| == |xs| && forall j :: 0 <= j < |xs| ==> IsPrefixMax(xs, j, maxima[j])
  {
    maxima := [];
    for k := 0 to |xs|
      invariant |maxima| == k && forall j :: 0 <= j < k ==> IsPrefixMax(xs, j, maxima[j])
    {
      assert k > 0 ==> IsPrefixMax(xs, k - 1, maxima[k - 1]);
      maxima := maxima + [if k > 0 && maxima[k - 1] > xs[k] then maxima[k - 1] else xs[k]];
      assert IsPrefixMax(xs, k, maxima[k]);
    }
  }

  lemma {:induction false} MaxDrawdownIsUnique(pnls: seq<real>, d: real, e: real)
    requires IsMaxDrawdown(pnls, d) && IsMaxDrawdown(pnls, e)
    ensures d == e
  {
  }

  lemma {:induction false} GainsNeverFall(pnls: seq<real>, i: nat, j: nat)
    requires forall k :: 1 <= k < |pnls| ==> pnls[k] >= 0.0
    requires i <= j < |pnls|
    ensures Cumulative(pnls, i) <= Cumulative(pnls, j)
  {
    if i < j {
      GainsNeverFall(pnls, i, j - 1);
    }
  }

  /** A drawdown is never negative, and it is zero exactly when every profit and loss after the
      first is at least zero.  The first one does not count: the peak starts at the first
      cumulative value, not at zero, so a losing first trade alone is no drawdown. */
  lemma {:induction false} DrawdownZeroExactlyWhen(pnls: seq<real>, d: real)
    requires pnls != [] && IsMaxDrawdown(pnls, d)
    ensures d >= 0.0
    ensures d == 0.0 <==> forall k :: 1 <= k < |pnls| ==> pnls[k] >= 0.0
  {
    assert Cumulative(pnls, 0) - Cumulative(pnls, 0) <= d;
    if forall k :: 1 <= k < |pnls| ==> pnls[k] >= 0.0 {
      var i, j :| 0 <= i <= j < |pnls| && Cumulative(pnls, i) - Cumulative(pnls, j) == d;
      GainsNeverFall(pnls, i, j);
    } else {
      var k :| 1 <= k < |pnls| && pnls[k] < 0.0;
      assert Cumulative(pnls, k - 1) - Cumulative(pnls, k) <= d;
    }
  }
}
