/**
 * The numeric core shared by the migration strategies: turning per-destination
 * rates into a cumulative distribution (NormalizeRates) and inverting a uniform
 * draw against it (the scan in PickMigrationStep).
 */
module MigrationCdf {

  /** The sum of the rates, accumulated from the first to the last. */
  function Sum(s: seq<real>): (total: real)
    ensures NonNegative(s) ==> 0.0 <= total
  {
    if s == [] then 0.0 else Sum(s[..|s| - 1]) + s[|s| - 1]
  }

  predicate NonNegative(s: seq<real>)
  {
    forall i :: 0 <= i < |s| ==> s[i] >= 0.0
  }

  predicate NonDecreasing(s: seq<real>)
  {
    forall i, j :: 0 <= i <= j < |s| ==> s[i] <= s[j]
  }

  /**
   * What NormalizeRates leaves in the list: when there is a rate and the total
   * is positive, the running sum of rate / total with the last entry forced to
   * exactly 1; otherwise the rates untouched.
   */
  function NormalizedCdf(rates: seq<real>): (cdf: seq<real>)
    ensures |cdf| == |rates|
  {
    var total := Sum(rates);
    if |rates| > 0 && total > 0.0 then
      seq(|rates|, i requires 0 <= i < |rates| =>
        if i == |rates| - 1 then 1.0 else Share(rates, i + 1, total))
    else
      rates
  }

  /** The fraction of the total carried by the first k rates. */
  function Share(rates: seq<real>, k: nat, total: real): real
    requires k <= |rates| && total != 0.0
  {
    Sum(rates[..k]) / total
  }

  lemma SumAppend(s: seq<real>, x: real)
    ensures Sum(s + [x]) == Sum(s) + x
  {
    assert (s + [x])[..|s + [x]| - 1] == s;
  }

  lemma {:induction false} SumNonNegativeMonotone(s: seq<real>, i: nat, j: nat)
    requires NonNegative(s) && i <= j <= |s|
    ensures 0.0 <= Sum(s[..i]) <= Sum(s[..j])
    decreases j
  {
    if j > 0 {
      assert s[..j][..j - 1] == s[..j - 1];
      if i < j {
        SumNonNegativeMonotone(s, i, j - 1);
      } else {
        SumNonNegativeMonotone(s, j - 1, j - 1);
      }
    }
  }

  /**
   * Every entry of the distribution is the share of the total carried by the
   * destinations up to and including it; for the last entry that share is 1,
   * so forcing it to 1 agrees with the running sum.
   */
  lemma NormalizedCdfIsRunningShare(rates: seq<real>, i: nat)
    requires |rates| > 0 && Sum(rates) > 0.0 && i < |rates|
    ensures NormalizedCdf(rates)[i] == Share(rates, i + 1, Sum(rates))
  {
    var total := Sum(rates);
    if i == |rates| - 1 {
      assert rates[..i + 1] == rates;
      DivSelf(total);
    }
  }

  lemma ShareBounds(rates: seq<real>, i: nat, j: nat)
    requires NonNegative(rates) && Sum(rates) > 0.0 && i <= j <= |rates|
    ensures 0.0 <= Share(rates, i, Sum(rates)) <= Share(rates, j, Sum(rates)) <= 1.0
  {
    var total := Sum(rates);
    SumNonNegativeMonotone(rates, i, j);
    SumNonNegativeMonotone(rates, j, |rates|);
    assert rates[..|rates|] == rates;
    OrderedShares(Sum(rates[..i]), Sum(rates[..j]), total);
  }

  lemma OrderedShares(a: real, b: real, t: real)
    requires 0.0 <= a <= b <= t && t > 0.0
    ensures 0.0 <= a / t <= b / t <= 1.0
  {
    DivMonotone(0.0, a, t);
    DivMonotone(a, b, t);
    DivMonotone(b, t, t);
    DivSelf(t);
  }

  lemma ShareStep(rates: seq<real>, i: nat, total: real)
    requires i < |rates| && total != 0.0
    ensures Share(rates, i + 1, total) == Share(rates, i, total) + rates[i] / total
  {
    assert rates[..i + 1] == rates[..i] + [rates[i]];
    SumAppend(rates[..i], rates[i]);
    DivAdd(Sum(rates[..i]), rates[i], total);
  }

  /**
   * With non-negative rates and a positive total the distribution rises from
   * its first entry to exactly 1, never decreases, and consecutive entries
   * differ by the rate of the destination over the total.
   */
  lemma NormalizedCdfIsDistribution(rates: seq<real>)
    requires |rates| > 0 && NonNegative(rates) && Sum(rates) > 0.0
    ensures var cdf := NormalizedCdf(rates);
      && cdf[|cdf| - 1] == 1.0
      && NonDecreasing(cdf)
      && (forall i :: 0 <= i < |cdf| ==> 0.0 <= cdf[i] <= 1.0)
      && cdf[0] == rates[0] / Sum(rates)
      && (forall i :: 0 < i < |cdf| ==> cdf[i] - cdf[i - 1] == rates[i] / Sum(rates))
  {
    CdfIsMonotone(rates);
    CdfSteps(rates);
  }

  lemma CdfIsMonotone(rates: seq<real>)
    requires |rates| > 0 && NonNegative(rates) && Sum(rates) > 0.0
    ensures var cdf := NormalizedCdf(rates);
      && NonDecreasing(cdf)
      && (forall i :: 0 <= i < |cdf| ==> 0.0 <= cdf[i] <= 1.0)
  {
    var cdf := NormalizedCdf(rates);
    forall i, j | 0 <= i <= j < |rates|
      ensures 0.0 <= cdf[i] <= cdf[j] <= 1.0
    {
      NormalizedCdfIsRunningShare(rates, i);
      NormalizedCdfIsRunningShare(rates, j);
      ShareBounds(rates, i + 1, j + 1);
    }
  }

  lemma CdfSteps(rates: seq<real>)
    requires |rates| > 0 && Sum(rates) > 0.0
    ensures var cdf := NormalizedCdf(rates);
      && cdf[|cdf| - 1] == 1.0
      && cdf[0] == rates[0] / Sum(rates)
      && (forall i :: 0 < i < |cdf| ==> cdf[i] - cdf[i - 1] == rates[i] / Sum(rates))
  {
    var cdf := NormalizedCdf(rates);
    var total := Sum(rates);
    NormalizedCdfIsRunningShare(rates, 0);
    ShareStep(rates, 0, total);
    forall i | 0 < i < |rates|
      ensures cdf[i] - cdf[i - 1] == rates[i] / total
    {
      NormalizedCdfIsRunningShare(rates, i);
      NormalizedCdfIsRunningShare(rates, i - 1);
      ShareStep(rates, i, total);
    }
  }

  lemma DivMonotone(a: real, b: real, t: real)
    requires t > 0.0 && a <= b
    ensures a / t <= b / t
  {
  }

  lemma DivSelf(t: real)
    requires t != 0.0
    ensures t / t == 1.0
  {
  }

  lemma DivAdd(a: real, b: real, t: real)
    requires t != 0.0
    ensures (a + b) / t == a / t + b / t
  {
  }

  /** An empty list, or one whose total is not positive, is left as it was. */
  lemma NormalizedCdfUnchanged(rates: seq<real>)
    requires |rates| == 0 || Sum(rates) <= 0.0
    ensures NormalizedCdf(rates) == rates
  {
  }

  /** The worked example: rates [1, 1, 2] give the distribution [0.25, 0.5, 1.0]. */
  lemma NormalizeExample()
    ensures Sum([1.0, 1.0, 2.0]) == 4.0
    ensures NormalizedCdf([1.0, 1.0, 2.0]) == [0.25, 0.5, 1.0]
  {
    var r := [1.0, 1.0, 2.0];
    assert r[..1] == [1.0] && r[..2] == [1.0, 1.0] && r[..3] == r;
    assert Sum([1.0]) == 1.0 by { SumAppend([], 1.0); }
    assert Sum([1.0, 1.0]) == 2.0 by { SumAppend([1.0], 1.0); }
    assert Sum(r) == 4.0 by { SumAppend([1.0, 1.0], 2.0); }
  }

  /**
   * MigrationInfoFixedRate::NormalizeRates: totals the rates, then rewrites the
   * list in place into the cumulative distribution.
   */
  method NormalizeRates(rates: seq<real>) returns (cdf: seq<real>, total: real)
    ensures total == Sum(rates)
    ensures cdf == NormalizedCdf(rates)
  {
    cdf := rates;
    total := 0.0;
    var i := 0;
    while i < |cdf|
      invariant 0 <= i <= |cdf| && cdf == rates
      invariant total == Sum(rates[..i])
    {
      assert rates[..i + 1] == rates[..i] + [rates[i]];
      SumAppend(rates[..i], rates[i]);
      total := total + cdf[i];
      i := i + 1;
    }
    assert rates[..|rates|] == rates;

    if |cdf| > 0 && total > 0.0 {
      ShareStep(rates, 0, total);
      cdf := cdf[0 := cdf[0] / total];
      i := 1;
      while i < |cdf|
        invariant 1 <= i <= |cdf| == |rates|
        invariant forall j :: 0 <= j < i ==> cdf[j] == Share(rates, j + 1, total)
        invariant forall j :: i <= j < |cdf| ==> cdf[j] == rates[j]
      {
        ShareStep(rates, i, total);
        cdf := cdf[i := (cdf[i] / total) + cdf[i - 1]];
        i := i + 1;
      }
      cdf := cdf[|cdf| - 1 := 1.0];
      assert forall j :: 0 <= j < |cdf| ==> cdf[j] == NormalizedCdf(rates)[j];
    }
  }

  /** The first index whose cumulative value is not below the draw, or |cdf| if none is. */
  function FirstNotBelow(cdf: seq<real>, draw: real): (i: nat)
    ensures i <= |cdf|
    ensures i < |cdf| ==> draw <= cdf[i]
    ensures forall j :: 0 <= j < i ==> draw > cdf[j]
  {
    if cdf == [] then 0
    else if draw <= cdf[0] then 0
    else 1 + FirstNotBelow(cdf[1..], draw)
  }

  /**
   * The scan of PickMigrationStep: step forward while the draw exceeds the
   * cumulative value. A draw equal to an entry stops at that entry.
   */
  method PickIndex(cdf: seq<real>, draw: real) returns (index: nat)
    requires |cdf| > 0 && draw <= cdf[|cdf| - 1]
    ensures index < |cdf| && index == FirstNotBelow(cdf, draw)
    ensures draw <= cdf[index]
    ensures forall j :: 0 <= j < index ==> draw > cdf[j]
  {
    index := 0;
    while draw > cdf[index]
      invariant index < |cdf|
      invariant forall j :: 0 <= j < index ==> draw > cdf[j]
      decreases |cdf| - index
    {
      index := index + 1;
    }
  }

  /**
   * On a distribution that never decreases, the chosen index is the bucket
   * (cdf[i-1], cdf[i]] holding the draw; a destination of zero width can be
   * chosen only when it is the first one and the draw is exactly its value.
   */
  lemma PickedBucket(cdf: seq<real>, draw: real, i: nat)
    requires NonDecreasing(cdf) && |cdf| > 0 && draw <= cdf[|cdf| - 1]
    requires i == FirstNotBelow(cdf, draw)
    ensures i < |cdf| && draw <= cdf[i]
    ensures i > 0 ==> cdf[i - 1] < draw
    ensures i > 0 ==> cdf[i - 1] < cdf[i]
  {
  }
}
