/**
 * The three migration strategies of a node (MigrationInfoNull,
 * MigrationInfoFixedRate, MigrationInfoAgeAndGender) and the decision they
 * share: PickMigrationStep.
 */
module MigrationInfo {
  import opened Results
  import opened MigrationRates
  import opened MigrationCdf

  const DAYS_PER_YEAR: real := 365.0

  datatype Gender = Male | Female

  /** What a strategy reads of the individual who may travel. */
  datatype Traveler = Traveler(ageDays: real, gender: Gender)

  /** The gender's row in the per-gender rate data: 0 for male, 1 for female. */
  function GenderIndex(g: Gender): (i: nat)
    ensures i < 2 && (i == 0 <==> g == Male)
  {
    if g == Male then 0 else 1
  }

  /** A migration decision: where to, by which kind of migration, and after what time. */
  datatype MigrationStep = MigrationStep(destination: NodeId, migType: MigrationType, time: real)

  const NO_STEP: MigrationStep := MigrationStep(NIL_NODE, NoMigration, 0.0)

  /** MigrationInfoNull::PickMigrationStep: nowhere, never. */
  const NULL_STEP: MigrationStep := MigrationStep(NIL_NODE, NoMigration, -1.0)

  function Destinations(data: seq<MigrationRateData>): (nodes: seq<NodeId>)
    ensures |nodes| == |data| && forall i :: 0 <= i < |data| ==> nodes[i] == data[i].toNode
  {
    seq(|data|, i requires 0 <= i < |data| => data[i].toNode)
  }

  function Types(data: seq<MigrationRateData>): (types: seq<MigrationType>)
    ensures |types| == |data| && forall i :: 0 <= i < |data| ==> types[i] == data[i].migType
  {
    seq(|data|, i requires 0 <= i < |data| => data[i].migType)
  }

  /** The rate of every destination for a traveler of the given age. */
  function RatesAt(data: seq<MigrationRateData>, ageYears: real): (rates: seq<real>)
    requires AllReadable(data)
    ensures |rates| == |data| && forall i :: 0 <= i < |data| ==> rates[i] == GetRate(data[i], ageYears)
  {
    seq(|data|, i requires 0 <= i < |data| => GetRate(data[i], ageYears))
  }

  /**
   * The decision PickMigrationStep takes from the raw rates and the
   * destination and type lists aligned with them: no migration when there is
   * no destination or no positive total rate, otherwise the exponential time
   * for the total rate and the first destination whose cumulative share is
   * not below the draw.
   */
  function Decide(rates: seq<real>, nodes: seq<NodeId>, types: seq<MigrationType>,
                  draw: real, expdist: real -> real): (step: MigrationStep)
    requires |nodes| == |types| == |rates|
    requires 0.0 <= draw < 1.0
    ensures step == NO_STEP ||
            exists i :: 0 <= i < |nodes| && step == MigrationStep(nodes[i], types[i], expdist(Sum(rates)))
  {
    var cdf := NormalizedCdf(rates);
    var total := Sum(rates);
    if |cdf| == 0 || total <= 0.0 then NO_STEP
    else
      var i := FirstNotBelow(cdf, draw);
      assert cdf[|cdf| - 1] == 1.0;
      MigrationStep(nodes[i], types[i], expdist(total))
  }

  /** With no destination, or a total rate that is not positive, nobody moves and the time is 0. */
  lemma DecideNoMigration(rates: seq<real>, nodes: seq<NodeId>, types: seq<MigrationType>,
                          draw: real, expdist: real -> real)
    requires |nodes| == |types| == |rates| && 0.0 <= draw < 1.0
    requires |rates| == 0 || Sum(rates) <= 0.0
    ensures Decide(rates, nodes, types, draw, expdist) == NO_STEP
  {
  }

  /**
   * Otherwise the traveler leaves after expdist(total) for the destination at
   * an in-bounds index i: the first whose cumulative share reaches the draw.
   * With non-negative rates the draw lies in that destination's bucket, and a
   * destination of rate 0 is picked only when it is the first one and the
   * draw is exactly 0.
   */
  lemma DecideChoosesDestination(rates: seq<real>, nodes: seq<NodeId>, types: seq<MigrationType>,
                                 draw: real, expdist: real -> real)
    requires |nodes| == |types| == |rates| && 0.0 <= draw < 1.0
    requires |rates| > 0 && Sum(rates) > 0.0
    ensures var i := FirstNotBelow(NormalizedCdf(rates), draw);
      && i < |rates|
      && Decide(rates, nodes, types, draw, expdist) == MigrationStep(nodes[i], types[i], expdist(Sum(rates)))
      && draw <= NormalizedCdf(rates)[i]
      && (forall j :: 0 <= j < i ==> NormalizedCdf(rates)[j] < draw)
      && (NonNegative(rates) ==> rates[i] > 0.0 || (i == 0 && draw == 0.0))
  {
    var cdf := NormalizedCdf(rates);
    assert cdf[|cdf| - 1] == 1.0;
    if NonNegative(rates) {
      PickedHasWeight(rates, draw);
    }
  }

  /** With non-negative rates the destination picked has a positive rate, unless it is the first and the draw is 0. */
  lemma PickedHasWeight(rates: seq<real>, draw: real)
    requires NonNegative(rates) && |rates| > 0 && Sum(rates) > 0.0 && 0.0 <= draw < 1.0
    ensures var i := FirstNotBelow(NormalizedCdf(rates), draw);
      i < |rates| && (rates[i] > 0.0 || (i == 0 && draw == 0.0))
  {
    var cdf := NormalizedCdf(rates);
    var total := Sum(rates);
    var i := FirstNotBelow(cdf, draw);
    NormalizedCdfIsDistribution(rates);
    PickedBucket(cdf, draw, i);
    if i > 0 {
      assert rates[i] / total > 0.0;
      QuotientSign(rates[i], total);
    } else if rates[0] == 0.0 {
      QuotientSign(rates[0], total);
      assert cdf[0] == 0.0;
    }
  }

  /** Dividing by a positive total keeps the sign of the numerator. */
  lemma QuotientSign(x: real, total: real)
    requires total > 0.0
    ensures x / total > 0.0 ==> x > 0.0
    ensures x == 0.0 ==> x / total == 0.0
  {
    if x / total > 0.0 {
      assert x == (x / total) * total;
    }
  }

  /** Where the scan of PickMigrationStep ends. */
  datatype ScanOutcome = Stay | Chosen(index: nat) | ReadPastEnd

  /**
   * The CDF scan as written in PickMigrationStep, which guards only against a
   * total equal to 0.
   */
  function PickAsWritten(rates: seq<real>, draw: real): (r: ScanOutcome)
    ensures r.Stay? <==> |rates| == 0 || Sum(rates) == 0.0
    ensures r.Chosen? ==> r.index < |rates| && draw <= NormalizedCdf(rates)[r.index]
    ensures r.ReadPastEnd? ==> Sum(rates) < 0.0 || 1.0 < draw
  {
    var cdf := NormalizedCdf(rates);
    var total := Sum(rates);
    if |cdf| == 0 || total == 0.0 then Stay
    else
      var i := FirstNotBelow(cdf, draw);
      if i < |cdf| then Chosen(i)
      else assert total > 0.0 ==> cdf[|cdf| - 1] == 1.0; ReadPastEnd
  }

  /**
   * A single negative rate gives a negative total, which the guard lets
   * through; the list is then left unnormalised and a draw of 0.5 runs past
   * its end.
   */
  lemma PickAsWrittenReadsPastEnd()
    ensures Sum([-1.0]) == -1.0
    ensures PickAsWritten([-1.0], 0.5) == ReadPastEnd
  {
    SumAppend([], -1.0);
    assert [-1.0][..0] == [];
  }

  /**
   * A negative total that the scan survives: rates -1 and 0.5 total -0.5,
   * the list stays unnormalised, and a draw of 0.3 chooses destination 1,
   * where the guard of Decide moves nobody.
   */
  lemma PickAsWrittenChoosesOnNegativeTotal(expdist: real -> real)
    ensures Sum([-1.0, 0.5]) == -0.5
    ensures PickAsWritten([-1.0, 0.5], 0.3) == Chosen(1)
    ensures Decide([-1.0, 0.5], [1, 2], [LocalMigration, LocalMigration], 0.3, expdist) == NO_STEP
  {
    SumAppend([], -1.0);
    SumAppend([-1.0], 0.5);
    assert [-1.0][..0] == [] && [-1.0, 0.5][..1] == [-1.0];
  }

  /**
   * With the guard "total not positive", which Decide uses, the index is in
   * bounds for every list of rates and every draw in [0, 1); for
   * non-negative rates the scan as written ends exactly where Decide does.
   */
  lemma CorrectedGuardInBounds(rates: seq<real>, draw: real)
    requires 0.0 <= draw < 1.0
    ensures |rates| > 0 && Sum(rates) > 0.0 ==> FirstNotBelow(NormalizedCdf(rates), draw) < |rates|
    ensures NonNegative(rates) ==> PickAsWritten(rates, draw) != ReadPastEnd
    ensures NonNegative(rates) ==>
              PickAsWritten(rates, draw) ==
                if |rates| == 0 || Sum(rates) <= 0.0 then Stay
                else Chosen(FirstNotBelow(NormalizedCdf(rates), draw))
  {
    if NonNegative(rates) {
      SumNonNegativeMonotone(rates, 0, |rates|);
      assert rates[..|rates|] == rates;
    }
    if |rates| > 0 && Sum(rates) > 0.0 {
      assert NormalizedCdf(rates)[|rates| - 1] == 1.0;
    }
  }

  /**
   * For non-negative rates, Decide is the scan as written: no migration
   * where the scan stays, and the destination and type at the index it
   * chooses otherwise.
   */
  lemma DecideIsScanAsWritten(rates: seq<real>, nodes: seq<NodeId>, types: seq<MigrationType>,
                              draw: real, expdist: real -> real)
    requires |nodes| == |types| == |rates| && 0.0 <= draw < 1.0
    requires NonNegative(rates)
    ensures PickAsWritten(rates, draw).Stay? ==> Decide(rates, nodes, types, draw, expdist) == NO_STEP
    ensures PickAsWritten(rates, draw).Chosen? ==>
              var i := PickAsWritten(rates, draw).index;
              i < |rates| && Decide(rates, nodes, types, draw, expdist) == MigrationStep(nodes[i], types[i], expdist(Sum(rates)))
    ensures !PickAsWritten(rates, draw).ReadPastEnd?
  {
    CorrectedGuardInBounds(rates, draw);
  }

  /** MigrationInfoFixedRate: rates fixed once at initialisation. */
  class MigrationInfoFixedRate {
    var reachableNodes: seq<NodeId>
    var migrationTypes: seq<MigrationType>
    var rateCdf: seq<real>
    var totalRate: real
    /** The rates before normalisation. */
    ghost var rawRates: seq<real>

    ghost predicate Valid()
      reads this
    {
      && |reachableNodes| == |migrationTypes| == |rawRates|
      && rateCdf == NormalizedCdf(rawRates)
      && totalRate == Sum(rawRates)
    }

    constructor ()
      ensures Valid()
      ensures reachableNodes == [] && migrationTypes == [] && rawRates == [] && rateCdf == []
      ensures totalRate == 0.0
    {
      reachableNodes, migrationTypes, rateCdf, totalRate := [], [], [], 0.0;
      rawRates := [];
    }

    /**
     * MigrationInfoFixedRate::Initialize: the male list of the rate data gives
     * the destinations, their types and their (single) rates, index-aligned.
     */
    method Initialize(rateData: seq<seq<MigrationRateData>>)
      requires Valid() && reachableNodes == [] && migrationTypes == [] && rawRates == []
      requires |rateData| > 0 ==> forall i :: 0 <= i < |rateData[0]| ==>
        rateData[0][i].Valid() && rateData[0][i].NumRates() == 1
      modifies this
      ensures Valid()
      ensures |rateData| == 0 ==> reachableNodes == [] && migrationTypes == [] && rawRates == []
      ensures |rateData| > 0 ==>
        && reachableNodes == Destinations(rateData[0])
        && migrationTypes == Types(rateData[0])
        && rawRates == RatesAt(rateData[0], 0.0)
        && (forall i :: 0 <= i < |rawRates| ==> rawRates[i] == rateData[0][i].samples[0].rate)
    {
      rateCdf := [];
      if |rateData| > 0 {
        var data := rateData[0];
        var i := 0;
        while i < |data|
          invariant 0 <= i <= |data|
          invariant reachableNodes == Destinations(data[..i])
          invariant migrationTypes == Types(data[..i])
          invariant rateCdf == RatesAt(data[..i], 0.0)
        {
          migrationTypes := migrationTypes + [data[i].migType];
          reachableNodes := reachableNodes + [data[i].toNode];
          rateCdf := rateCdf + [GetRate(data[i], 0.0)];
          i := i + 1;
        }
        assert data[..|data|] == data;
        rawRates := rateCdf;
        forall j | 0 <= j < |rawRates|
          ensures rawRates[j] == data[j].samples[0].rate
        {
          OneSampleIsConstant(data[j], 0.0);
        }
        rateCdf, totalRate := NormalizeRates(rateCdf);
      }
    }

    /**
     * MigrationInfoFixedRate::PickMigrationStep. Rates do not depend on the
     * traveler, so its age and gender do not enter the decision.
     */
    method PickMigrationStep(traveler: Option<Traveler>, draw: real, expdist: real -> real)
      returns (step: MigrationStep)
      requires Valid() && 0.0 <= draw < 1.0
      ensures step == Decide(rawRates, reachableNodes, migrationTypes, draw, expdist)
    {
      if |rateCdf| == 0 || totalRate <= 0.0 {
        return NO_STEP;
      }
      var time := expdist(totalRate);
      assert rateCdf[|rateCdf| - 1] == 1.0;
      var index := PickIndex(rateCdf, draw);
      step := MigrationStep(reachableNodes[index], migrationTypes[index], time);
    }
  }

  /** MigrationInfoAgeAndGender: rates recomputed from age and gender at every decision. */
  class MigrationInfoAgeAndGender {
    var reachableNodes: seq<NodeId>
    var migrationTypes: seq<MigrationType>
    var reachableNodesFemale: seq<NodeId>
    var migrationTypesFemale: seq<MigrationType>
    var rateData: seq<seq<MigrationRateData>>
    var rateCdf: seq<real>
    var totalRate: real
    ghost var rawRates: seq<real>

    ghost predicate Valid()
      reads this
    {
      && |rateData| == 2
      && AllReadable(rateData[0]) && AllReadable(rateData[1])
      && reachableNodes == Destinations(rateData[0])
      && migrationTypes == Types(rateData[0])
      && reachableNodesFemale == Destinations(rateData[1])
      && migrationTypesFemale == Types(rateData[1])
      && rateCdf == NormalizedCdf(rawRates)
      && totalRate == Sum(rawRates)
    }

    constructor ()
      ensures reachableNodes == [] && migrationTypes == []
      ensures reachableNodesFemale == [] && migrationTypesFemale == []
      ensures rateData == [] && rateCdf == [] && rawRates == [] && totalRate == 0.0
    {
      reachableNodes, migrationTypes := [], [];
      reachableNodesFemale, migrationTypesFemale := [], [];
      rateData, rateCdf, totalRate := [], [], 0.0;
      rawRates := [];
    }

    /** The destinations of one gender. */
    function GetReachableNodes(g: Gender): (nodes: seq<NodeId>)
      reads this
      requires Valid()
      ensures nodes == Destinations(rateData[GenderIndex(g)])
    {
      if g == Female then reachableNodesFemale else reachableNodes
    }

    /** The migration types of one gender, aligned with its destinations. */
    function GetMigrationTypes(g: Gender): (types: seq<MigrationType>)
      reads this
      requires Valid()
      ensures types == Types(rateData[GenderIndex(g)])
    {
      if g == Female then migrationTypesFemale else migrationTypes
    }

    /**
     * MigrationInfoAgeAndGender::Initialize: male lists from the first row of
     * the rate data, female lists from the second, and the rate data kept.
     */
    method Initialize(data: seq<seq<MigrationRateData>>)
      requires reachableNodes == [] && migrationTypes == []
      requires reachableNodesFemale == [] && migrationTypesFemale == []
      requires rateCdf == [] && rawRates == [] && totalRate == 0.0
      requires |data| == 2 && AllReadable(data[0]) && AllReadable(data[1])
      modifies this
      ensures Valid() && rateData == data && rawRates == []
    {
      var i := 0;
      while i < |data[0]|
        invariant 0 <= i <= |data[0]|
        invariant reachableNodes == Destinations(data[0][..i])
        invariant migrationTypes == Types(data[0][..i])
        invariant reachableNodesFemale == [] && migrationTypesFemale == []
        invariant rateCdf == [] && rawRates == [] && totalRate == 0.0
      {
        migrationTypes := migrationTypes + [data[0][i].migType];
        reachableNodes := reachableNodes + [data[0][i].toNode];
        i := i + 1;
      }
      i := 0;
      while i < |data[1]|
        invariant 0 <= i <= |data[1]|
        invariant reachableNodes == Destinations(data[0])
        invariant migrationTypes == Types(data[0])
        invariant reachableNodesFemale == Destinations(data[1][..i])
        invariant migrationTypesFemale == Types(data[1][..i])
        invariant rateCdf == [] && rawRates == [] && totalRate == 0.0
      {
        migrationTypesFemale := migrationTypesFemale + [data[1][i].migType];
        reachableNodesFemale := reachableNodesFemale + [data[1][i].toNode];
        i := i + 1;
      }
      assert data[0][..|data[0]|] == data[0];
      assert data[1][..|data[1]|] == data[1];
      rateData := data;
    }

    /**
     * MigrationInfoAgeAndGender::CalculateRates: the distribution and total
     * are rebuilt from the rates of the gender's destinations at this age.
     */
    method CalculateRates(g: Gender, ageYears: real)
      requires Valid()
      modifies this`rateCdf, this`totalRate, this`rawRates
      ensures Valid()
      ensures rawRates == RatesAt(rateData[GenderIndex(g)], ageYears)
    {
      var data := rateData[GenderIndex(g)];
      var rates: seq<real> := [];
      var i := 0;
      while i < |data|
        invariant 0 <= i <= |data|
        invariant rates == RatesAt(data[..i], ageYears)
      {
        assert data[..i + 1] == data[..i] + [data[i]];
        rates := rates + [GetRate(data[i], ageYears)];
        i := i + 1;
      }
      assert data[..|data|] == data;
      rawRates := rates;
      rateCdf, totalRate := NormalizeRates(rates);
    }

    /**
     * MigrationInfoAgeAndGender::PickMigrationStep: an absent traveler counts
     * as a male of age 0; the decision uses the traveler's gender's rates at
     * their age in years and that gender's destination and type lists.
     */
    method PickMigrationStep(traveler: Option<Traveler>, draw: real, expdist: real -> real)
      returns (step: MigrationStep)
      requires Valid() && 0.0 <= draw < 1.0
      modifies this`rateCdf, this`totalRate, this`rawRates
      ensures Valid()
      ensures var g := if traveler.Some? then traveler.value.gender else Male;
              var age := if traveler.Some? then traveler.value.ageDays / DAYS_PER_YEAR else 0.0;
              && rawRates == RatesAt(rateData[GenderIndex(g)], age)
              && step == Decide(rawRates, GetReachableNodes(g), GetMigrationTypes(g), draw, expdist)
    {
      var ageYears := 0.0;
      var gender := Male;
      if traveler.Some? {
        ageYears := traveler.value.ageDays / DAYS_PER_YEAR;
        gender := traveler.value.gender;
      }
      CalculateRates(gender, ageYears);
      var nodes := GetReachableNodes(gender);
      var types := GetMigrationTypes(gender);
      if |rateCdf| == 0 || totalRate <= 0.0 {
        return NO_STEP;
      }
      var time := expdist(totalRate);
      assert rateCdf[|rateCdf| - 1] == 1.0;
      var index := PickIndex(rateCdf, draw);
      step := MigrationStep(nodes[index], types[index], time);
    }
  }

  /** The strategy a node holds: a closed choice of the three variants. */
  datatype Strategy =
    | Null
    | FixedRate(fixed: MigrationInfoFixedRate)
    | AgeAndGender(varying: MigrationInfoAgeAndGender)
  {
    ghost predicate Valid()
      reads if FixedRate? then {fixed} else if AgeAndGender? then {varying} else {}
    {
      match this
      case Null => true
      case FixedRate(f) => f.Valid()
      case AgeAndGender(a) => a.Valid()
    }

    /** GetTotalRate: 0 for Null, the total of the latest rates otherwise. */
    function GetTotalRate(): real
      reads if FixedRate? then {fixed} else if AgeAndGender? then {varying} else {}
    {
      match this
      case Null => 0.0
      case FixedRate(f) => f.totalRate
      case AgeAndGender(a) => a.totalRate
    }
  }

  /** PickMigrationStep dispatched on the strategy. */
  method PickMigrationStep(s: Strategy, traveler: Option<Traveler>, draw: real, expdist: real -> real)
    returns (step: MigrationStep)
    requires s.Valid() && 0.0 <= draw < 1.0
    modifies if s.AgeAndGender? then {s.varying} else {}
    ensures s.Valid()
    ensures s.Null? ==> step == NULL_STEP
    ensures s.FixedRate? ==> step == Decide(s.fixed.rawRates, s.fixed.reachableNodes, s.fixed.migrationTypes, draw, expdist)
    ensures s.AgeAndGender? ==>
      var a, g := s.varying, if traveler.Some? then traveler.value.gender else Male;
      var age := if traveler.Some? then traveler.value.ageDays / DAYS_PER_YEAR else 0.0;
      && a.rawRates == RatesAt(a.rateData[GenderIndex(g)], age)
      && step == Decide(a.rawRates, a.GetReachableNodes(g), a.GetMigrationTypes(g), draw, expdist)
  {
    match s
    case Null =>
      step := NULL_STEP;
    case FixedRate(f) =>
      step := f.PickMigrationStep(traveler, draw, expdist);
    case AgeAndGender(a) =>
      step := a.PickMigrationStep(traveler, draw, expdist);
  }
}
