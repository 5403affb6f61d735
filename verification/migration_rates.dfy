/**
 * MigrationRateData: one destination of a node (target node, migration type,
 * interpolation type) together with its age -> rate table.
 */
module MigrationRates {

  /** The oldest age, in years, that the rate files may sample. */
  const MAX_HUMAN_AGE: real := 125.0

  /** A node's suid; 0 is the nil suid. External ids are used as suids. */
  type NodeId = nat

  const NIL_NODE: NodeId := 0

  datatype MigrationType =
    | NoMigration
    | LocalMigration
    | AirMigration
    | RegionalMigration
    | SeaMigration
    | FamilyMigration

  datatype InterpolationType = LinearInterpolation | PiecewiseConstant

  /** One (age in years, rate) point of the interpolation map. */
  datatype Sample = Sample(age: real, rate: real)

  /** The interpolation map is kept sorted on age with no repeated age. */
  predicate SortedAges(s: seq<Sample>)
  {
    forall i, j :: 0 <= i < j < |s| ==> s[i].age < s[j].age
  }

  predicate HasAge(s: seq<Sample>, age: real)
  {
    exists i :: 0 <= i < |s| && s[i].age == age
  }

  datatype MigrationRateData = MigrationRateData(
    toNode: NodeId,
    migType: MigrationType,
    interpType: InterpolationType,
    samples: seq<Sample>)
  {
    predicate Valid()
    {
      SortedAges(samples)
    }

    function NumRates(): nat
    {
      |samples|
    }
  }

  /** Every destination has a sorted, non-empty map, so GetRate may be asked of it. */
  predicate AllReadable(data: seq<MigrationRateData>)
  {
    forall i :: 0 <= i < |data| ==> data[i].Valid() && data[i].NumRates() > 0
  }

  /** A destination with an empty interpolation map. */
  function NewRateData(toNode: NodeId, migType: MigrationType, interpType: InterpolationType): (d: MigrationRateData)
    ensures d.Valid() && d.NumRates() == 0
  {
    MigrationRateData(toNode, migType, interpType, [])
  }

  /**
   * Insertion into the age-sorted map. An age that is already present keeps
   * the rate it had (insertion into a map does not overwrite).
   */
  function InsertSample(s: seq<Sample>, age: real, rate: real): (r: seq<Sample>)
    requires SortedAges(s)
    ensures SortedAges(r)
    ensures HasAge(s, age) ==> r == s
    ensures !HasAge(s, age) ==> |r| == |s| + 1
    ensures forall x :: x in r <==> x in s || (x == Sample(age, rate) && !HasAge(s, age))
    decreases |s|
  {
    if s == [] then [Sample(age, rate)]
    else if age < s[0].age then [Sample(age, rate)] + s
    else if age == s[0].age then s
    else
      var tail := InsertSample(s[1..], age, rate);
      assert HasAge(s, age) <==> HasAge(s[1..], age) by {
        HasAgeCons(s, age);
      }
      assert SortedAges([s[0]] + tail) by {
        HeadBelowTail(s);
        SortedCons(s[0], tail);
      }
      assert forall x :: x in s <==> x == s[0] || x in s[1..];
      [s[0]] + tail
  }

  lemma HasAgeCons(s: seq<Sample>, age: real)
    requires |s| > 0
    ensures HasAge(s, age) <==> s[0].age == age || HasAge(s[1..], age)
  {
    if HasAge(s, age) && s[0].age != age {
      var i :| 0 <= i < |s| && s[i].age == age;
      assert s[1..][i - 1].age == age;
    }
    if HasAge(s[1..], age) {
      var i :| 0 <= i < |s[1..]| && s[1..][i].age == age;
      assert s[i + 1].age == age;
    }
  }

  lemma HeadBelowTail(s: seq<Sample>)
    requires SortedAges(s) && |s| > 0
    ensures SortedAges(s[1..])
    ensures forall x :: x in s[1..] ==> s[0].age < x.age
  {
    forall x | x in s[1..] ensures s[0].age < x.age {
      var i :| 0 <= i < |s[1..]| && s[1..][i] == x;
      assert s[i + 1] == x;
    }
  }

  lemma SortedCons(h: Sample, t: seq<Sample>)
    requires SortedAges(t) && forall x :: x in t ==> h.age < x.age
    ensures SortedAges([h] + t)
  {
    var r := [h] + t;
    forall i, j | 0 <= i < j < |r| ensures r[i].age < r[j].age {
      assert r[j] == t[j - 1];
      if i > 0 {
        assert r[i] == t[i - 1];
      } else {
        assert t[j - 1] in t;
      }
    }
  }

  /** MigrationRateData::AddRate. */
  function AddRate(d: MigrationRateData, ageYears: real, rate: real): (r: MigrationRateData)
    requires d.Valid()
    ensures r.Valid()
    ensures r.toNode == d.toNode && r.migType == d.migType && r.interpType == d.interpType
    ensures HasAge(d.samples, ageYears) ==> r.samples == d.samples
    ensures !HasAge(d.samples, ageYears) ==> r.NumRates() == d.NumRates() + 1 && Sample(ageYears, rate) in r.samples
    ensures forall x :: x in d.samples ==> x in r.samples
  {
    d.(samples := InsertSample(d.samples, ageYears, rate))
  }

  /** The straight line through (a0, r0) and (a1, r1), evaluated at age. */
  function Lerp(a0: real, r0: real, a1: real, r1: real, age: real): real
    requires a0 < a1
  {
    r0 + (age - a0) * (r1 - r0) / (a1 - a0)
  }

  /** Linear interpolation between the two samples that bracket age. */
  function Linear(s: seq<Sample>, age: real): (r: real)
    requires |s| >= 2 && SortedAges(s)
    requires s[0].age <= age < s[|s| - 1].age
    ensures exists i :: 0 <= i < |s| - 1 && s[i].age <= age < s[i + 1].age &&
                        r == Lerp(s[i].age, s[i].rate, s[i + 1].age, s[i + 1].rate, age)
    decreases |s|
  {
    if age < s[1].age then
      Lerp(s[0].age, s[0].rate, s[1].age, s[1].rate, age)
    else
      var r := Linear(s[1..], age);
      var i :| 0 <= i < |s| - 2 && s[1..][i].age <= age < s[1..][i + 1].age &&
               r == Lerp(s[1..][i].age, s[1..][i].rate, s[1..][i + 1].age, s[1..][i + 1].rate, age);
      assert s[i + 1] == s[1..][i] && s[i + 2] == s[1..][i + 1];
      r
  }

  /** Piecewise-constant lookup: the rate of the last sample at or below age. */
  function Step(s: seq<Sample>, age: real): (r: real)
    requires |s| >= 1 && SortedAges(s)
    requires s[0].age <= age
    ensures exists i :: 0 <= i < |s| && s[i].age <= age && (i + 1 < |s| ==> age < s[i + 1].age) && r == s[i].rate
    decreases |s|
  {
    if |s| == 1 || age < s[1].age then s[0].rate
    else
      var r := Step(s[1..], age);
      var i :| 0 <= i < |s| - 1 && s[1..][i].age <= age && (i + 1 < |s| - 1 ==> age < s[1..][i + 1].age) &&
               r == s[1..][i].rate;
      assert s[i + 1] == s[1..][i] && (i + 2 < |s| ==> s[i + 2] == s[1..][i + 1]);
      r
  }

  /** MigrationRateData::GetRate. Ages outside the sampled range are capped. */
  function GetRate(d: MigrationRateData, ageYears: real): (r: real)
    requires d.Valid() && d.NumRates() > 0
    ensures ageYears <= d.samples[0].age ==> r == d.samples[0].rate
    ensures ageYears >= d.samples[|d.samples| - 1].age ==> r == d.samples[|d.samples| - 1].rate
    ensures d.samples[0].age < ageYears < d.samples[|d.samples| - 1].age ==>
              exists i :: 0 <= i < |d.samples| - 1 && d.samples[i].age <= ageYears < d.samples[i + 1].age &&
                r == if d.interpType == LinearInterpolation
                     then Lerp(d.samples[i].age, d.samples[i].rate, d.samples[i + 1].age, d.samples[i + 1].rate, ageYears)
                     else d.samples[i].rate
  {
    var s := d.samples;
    if ageYears <= s[0].age then s[0].rate
    else if ageYears >= s[|s| - 1].age then s[|s| - 1].rate
    else if d.interpType == LinearInterpolation then Linear(s, ageYears)
    else Step(s, ageYears)
  }

  function MinRate(s: seq<Sample>): real
    requires |s| > 0
  {
    if |s| == 1 then s[0].rate
    else var m := MinRate(s[1..]); if s[0].rate <= m then s[0].rate else m
  }

  function MaxRate(s: seq<Sample>): real
    requires |s| > 0
  {
    if |s| == 1 then s[0].rate
    else var m := MaxRate(s[1..]); if s[0].rate >= m then s[0].rate else m
  }

  lemma {:induction false} MinMaxRateBound(s: seq<Sample>, i: nat)
    requires i < |s|
    ensures MinRate(s) <= s[i].rate <= MaxRate(s)
    decreases |s|
  {
    if i > 0 {
      MinMaxRateBound(s[1..], i - 1);
    }
  }

  /**
   * Capping: an age at or below the smallest sampled age gives the first
   * rate, an age at or above the largest gives the last rate, in both
   * interpolation modes.
   */
  lemma GetRateClamps(d: MigrationRateData, ageYears: real)
    requires d.Valid() && d.NumRates() > 0
    ensures ageYears <= d.samples[0].age ==> GetRate(d, ageYears) == d.samples[0].rate
    ensures ageYears >= d.samples[d.NumRates() - 1].age ==> GetRate(d, ageYears) == d.samples[d.NumRates() - 1].rate
  {
  }

  /** A table with one sample returns that sample's rate for every age. */
  lemma OneSampleIsConstant(d: MigrationRateData, ageYears: real)
    requires d.Valid() && d.NumRates() == 1
    ensures GetRate(d, ageYears) == d.samples[0].rate
  {
  }

  lemma {:induction false} LinearAtSample(s: seq<Sample>, i: nat)
    requires |s| >= 2 && SortedAges(s)
    requires i < |s| - 1
    ensures Linear(s, s[i].age) == s[i].rate
    decreases |s|
  {
    if i > 0 {
      assert s[0].age < s[i].age < s[|s| - 1].age;
      assert s[1].age <= s[i].age;
      LinearAtSample(s[1..], i - 1);
    }
  }

  lemma {:induction false} StepAtSample(s: seq<Sample>, i: nat)
    requires |s| >= 1 && SortedAges(s)
    requires i < |s|
    ensures s[0].age <= s[i].age
    ensures Step(s, s[i].age) == s[i].rate
    decreases |s|
  {
    if i > 0 {
      assert s[0].age < s[i].age;
      assert s[1].age <= s[i].age;
      StepAtSample(s[1..], i - 1);
    }
  }

  /** At a sampled age, both interpolation modes return exactly the sampled rate. */
  lemma GetRateAtSample(d: MigrationRateData, i: nat)
    requires d.Valid() && i < d.NumRates()
    ensures GetRate(d, d.samples[i].age) == d.samples[i].rate
  {
    var s := d.samples;
    if 0 < i < |s| - 1 {
      if d.interpType == LinearInterpolation {
        LinearAtSample(s, i);
      } else {
        StepAtSample(s, i);
      }
    }
  }

  /** A fraction t in [0, 1] of d lies between 0 and d. */
  lemma Between(t: real, d: real)
    requires 0.0 <= t <= 1.0
    ensures 0.0 <= d ==> 0.0 <= t * d <= d
    ensures d <= 0.0 ==> d <= t * d <= 0.0
  {
    if 0.0 <= d {
      FractionOf(t, d);
    } else {
      FractionOf(t, -d);
      Negate(t, d);
    }
  }

  lemma Negate(t: real, d: real)
    ensures t * -d == -(t * d)
  {
  }

  lemma FractionOf(t: real, d: real)
    requires 0.0 <= t <= 1.0 && 0.0 <= d
    ensures 0.0 <= t * d <= d
  {
    assert (1.0 - t) * d >= 0.0;
    assert d - t * d == (1.0 - t) * d;
  }

  /** The interpolated value between two samples lies between their rates. */
  lemma LerpBetween(a0: real, r0: real, a1: real, r1: real, age: real)
    requires a0 <= age < a1
    ensures r0 <= r1 ==> r0 <= Lerp(a0, r0, a1, r1, age) <= r1
    ensures r1 <= r0 ==> r1 <= Lerp(a0, r0, a1, r1, age) <= r0
  {
    var w := a1 - a0;
    var x, y := age - a0, r1 - r0;
    var t := x / w;
    assert t * w == x;
    assert 0.0 <= t <= 1.0;
    var l := x * y / w;
    assert l * w == x * y;
    assert (t * y) * w == (t * w) * y;
    assert (l - t * y) * w == 0.0;
    assert l == t * y;
    Between(t, y);
  }

  lemma {:induction false} LinearBounded(s: seq<Sample>, age: real)
    requires |s| >= 2 && SortedAges(s)
    requires s[0].age <= age < s[|s| - 1].age
    ensures MinRate(s) <= Linear(s, age) <= MaxRate(s)
    decreases |s|
  {
    MinMaxRateBound(s, 0);
    MinMaxRateBound(s, 1);
    if age < s[1].age {
      LerpBetween(s[0].age, s[0].rate, s[1].age, s[1].rate, age);

    } else {
      LinearBounded(s[1..], age);
      assert MinRate(s) <= MinRate(s[1..]) && MaxRate(s[1..]) <= MaxRate(s);
    }
  }

  lemma {:induction false} StepIsSampled(s: seq<Sample>, age: real) returns (i: nat)
    requires |s| >= 1 && SortedAges(s)
    requires s[0].age <= age
    ensures i < |s| && Step(s, age) == s[i].rate
    decreases |s|
  {
    if |s| == 1 || age < s[1].age {
      i := 0;
    } else {
      var j := StepIsSampled(s[1..], age);
      i := j + 1;
    }
  }

  /**
   * Whatever the age and mode, the rate lies between the smallest and the
   * largest sampled rate; in piecewise-constant mode it is one of them.
   */
  lemma GetRateBounded(d: MigrationRateData, ageYears: real)
    requires d.Valid() && d.NumRates() > 0
    ensures MinRate(d.samples) <= GetRate(d, ageYears) <= MaxRate(d.samples)
    ensures d.interpType == PiecewiseConstant ==>
      exists i :: 0 <= i < d.NumRates() && GetRate(d, ageYears) == d.samples[i].rate
  {
    var s := d.samples;
    MinMaxRateBound(s, 0);
    MinMaxRateBound(s, |s| - 1);
    if s[0].age < ageYears < s[|s| - 1].age {
      if d.interpType == LinearInterpolation {
        LinearBounded(s, ageYears);
      } else {
        var i := StepIsSampled(s, ageYears);
        MinMaxRateBound(s, i);
      }
    }
  }

  /** The worked example {(10, 0.1), (50, 0.5)}: capped below and above, 0.3 halfway. */
  lemma GetRateExample()
    ensures var d := MigrationRateData(1, LocalMigration, LinearInterpolation,
                                       [Sample(10.0, 0.1), Sample(50.0, 0.5)]);
            d.Valid() && GetRate(d, 5.0) == 0.1 && GetRate(d, 100.0) == 0.5 && GetRate(d, 30.0) == 0.3
  {
  }
}
