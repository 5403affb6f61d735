/**
 * Assortative partner selection: an Assortivity object owns the validated
 * axes and weighting matrix of one relationship type and picks, for an
 * anchor individual, one partner from a candidate list by weighted draw.
 */
module Assortivity {
  import opened Results
  import opened Text
  import opened PartnerPool
  import opened AssortivityConfig

  // ---------------------------------------------------------------------
  // Selection as a function of the matrix row and the candidates' columns
  // ---------------------------------------------------------------------

  /** Every column index is below n. */
  predicate Fits(cols: seq<nat>, n: nat)
  {
    forall k :: 0 <= k < |cols| ==> cols[k] < n
  }

  /** Candidate k, weighted by the anchor's row at the candidate's column. */
  function Weights(row: seq<real>, cols: seq<nat>): (w: seq<Scored>)
    requires Fits(cols, |row|)
    ensures |w| == |cols|
    ensures forall k :: 0 <= k < |cols| ==> w[k] == Scored(k, row[cols[k]])
  {
    seq(|cols|, k requires 0 <= k < |cols| => Scored(k, row[cols[k]]))
  }

  /** The candidate position a pool's draw lands on, if any. */
  function Drawn(pool: seq<Scored>, draw: real): Option<nat>
  {
    match Choose(pool, draw)
    case None => None
    case Some(i) => Some(pool[i].partner)
  }

  /**
   * The candidate FindPartner and FindPartnerIP return, by position: the
   * pool of positively weighted candidates is built in list order and the
   * draw is inverted against its running weight.
   */
  function Pick(row: seq<real>, cols: seq<nat>, draw: real): (r: Option<nat>)
    requires Fits(cols, |row|)
    ensures r.Some? ==> r.value < |cols| && row[cols[r.value]] > 0.0
  {
    var w := Weights(row, cols);
    PoolBounded(w);
    var r := Drawn(PoolOf(w), draw);
    assert r.Some? ==> PoolOf(w)[Choose(PoolOf(w), draw).value] in w;
    r
  }

  /** No candidate with a positive weight: nobody is returned. */
  lemma PickNoneWithoutWeight(row: seq<real>, cols: seq<nat>, draw: real)
    requires Fits(cols, |row|)
    requires forall k :: 0 <= k < |cols| ==> row[cols[k]] <= 0.0
    ensures Pick(row, cols, draw) == None
  {
    var w := Weights(row, cols);
    PoolIsTruncatedPositive(w);
  }

  /**
   * Some candidate with a positive weight and a draw in [0, 1): someone is
   * always returned.
   */
  lemma PickSomeWithWeight(row: seq<real>, cols: seq<nat>, draw: real, k: nat)
    requires Fits(cols, |row|) && 0.0 <= draw < 1.0
    requires k < |cols| && row[cols[k]] > 0.0
    ensures Pick(row, cols, draw).Some?
  {
    var w := Weights(row, cols);
    PoolIsTruncatedPositive(w);
    PoolBounded(w);
    assert w[k] in Positive(w);
    NonEmptyPoolChooses(PoolOf(w), draw);
  }

  /** An individual's position on the TRUE/FALSE axes. */
  function GetIndexSTI(x: Individual): (i: nat)
    ensures i < 2 && (i == 1 <==> x.infected)
  {
    if x.infected then 1 else 0
  }

  function GetIndexStiCoInfection(x: Individual): (i: nat)
    ensures i < 2 && (i == 1 <==> x.coInfected)
  {
    if x.coInfected then 1 else 0
  }

  /** The label of a boolean trait on TRUE/FALSE axes. */
  function TraitLabel(b: bool): string
  {
    if b then "TRUE" else "FALSE"
  }

  /**
   * On the canonical axes FALSE, TRUE the boolean index functions give the
   * position of the individual's trait label.
   */
  lemma BooleanIndexIsAxis(x: Individual)
    ensures AxisIndex(["FALSE", "TRUE"], TraitLabel(x.infected)) == Ok(GetIndexSTI(x))
    ensures AxisIndex(["FALSE", "TRUE"], TraitLabel(x.coInfected)) == Ok(GetIndexStiCoInfection(x))
  {
    assert "TRUE" != "FALSE" by { assert "TRUE"[0] != "FALSE"[0]; }
  }

  /** Which boolean trait FindPartner reads. */
  datatype IndexRule = ByInfection | ByCoInfection

  function RuleIndex(rule: IndexRule, x: Individual): (i: nat)
    ensures i < 2
  {
    match rule
    case ByInfection => GetIndexSTI(x)
    case ByCoInfection => GetIndexStiCoInfection(x)
  }

  function RuleIndices(rule: IndexRule, xs: seq<Individual>): (cols: seq<nat>)
    ensures |cols| == |xs| && Fits(cols, 2)
    ensures forall k :: 0 <= k < |xs| ==> cols[k] == RuleIndex(rule, xs[k])
  {
    seq(|xs|, k requires 0 <= k < |xs| => RuleIndex(rule, xs[k]))
  }

  // ---------------------------------------------------------------------
  // Index cache for property-based selection
  // ---------------------------------------------------------------------

  /** A cached index: -1 (not resolved yet) or a position in n axes. */
  predicate CacheFits(c: int, n: nat)
  {
    -1 <= c < n
  }

  function CachedIn(m: map<RelationshipType, int>, rt: RelationshipType): int
  {
    if rt in m then m[rt] else -1
  }

  /** A resolved cached index is used as it is; an unresolved one is looked up in the axes. */
  function Resolve(cached: int, value: string, axes: seq<string>): (r: Result<nat, AssortivityError>)
    requires CacheFits(cached, |axes|)
    ensures r.Ok? ==> r.value < |axes|
    ensures cached == -1 && r.Ok? ==> axes[r.value] == value
    ensures r.Err? ==> cached == -1 && value !in axes
  {
    if cached != -1 then Ok(cached) else AxisIndex(axes, value)
  }

  /** The cache after resolving: a successful lookup is stored, nothing else changes. */
  function RefreshMap(m: map<RelationshipType, int>, rt: RelationshipType, value: string, axes: seq<string>)
    : map<RelationshipType, int>
  {
    if CachedIn(m, rt) != -1 then m
    else match AxisIndex(axes, value)
      case Ok(i) => m[rt := i]
      case Err(_) => m
  }

  /**
   * Resolving settles the cache: afterwards the cached index is the
   * resolved one, resolving again gives the same answer and changes nothing.
   */
  lemma RefreshSettles(m: map<RelationshipType, int>, rt: RelationshipType, value: string, axes: seq<string>)
    requires CacheFits(CachedIn(m, rt), |axes|)
    ensures var m' := RefreshMap(m, rt, value, axes);
            && CacheFits(CachedIn(m', rt), |axes|)
            && Resolve(CachedIn(m', rt), value, axes) == Resolve(CachedIn(m, rt), value, axes)
            && RefreshMap(m', rt, value, axes) == m'
            && (Resolve(CachedIn(m, rt), value, axes).Ok? ==>
                  CachedIn(m', rt) == Resolve(CachedIn(m, rt), value, axes).value)
            && (forall t :: t != rt ==> CachedIn(m', t) == CachedIn(m, t))
  {
  }

  /** The indices of a candidate list, in order; the first failure is reported. */
  function ResolveAll(cached: seq<int>, values: seq<string>, axes: seq<string>): (r: Result<seq<nat>, AssortivityError>)
    requires |cached| == |values| && forall k :: 0 <= k < |cached| ==> CacheFits(cached[k], |axes|)
    ensures r.Ok? ==> |r.value| == |values| && Fits(r.value, |axes|) &&
                      forall k :: 0 <= k < |values| ==> Resolve(cached[k], values[k], axes) == Ok(r.value[k])
    ensures r.Err? ==> exists k :: 0 <= k < |values| && Resolve(cached[k], values[k], axes) == Err(r.error)
    ensures r.Ok? <==> forall k :: 0 <= k < |values| ==> Resolve(cached[k], values[k], axes).Ok?
    decreases |values|
  {
    if |values| == 0 then Ok([])
    else
      var n := |values| - 1;
      match ResolveAll(cached[..n], values[..n], axes)
      case Err(e) => Err(e)
      case Ok(cols) =>
        match Resolve(cached[n], values[n], axes)
        case Err(e) => Err(e)
        case Ok(i) => Ok(cols + [i])
  }

  /** The anchor's index, then every candidate's; the first failure is reported. */
  function IPIndices(aCached: int, aValue: string, cached: seq<int>, values: seq<string>, axes: seq<string>)
    : (r: Result<(nat, seq<nat>), AssortivityError>)
    requires CacheFits(aCached, |axes|)
    requires |cached| == |values| && forall k :: 0 <= k < |cached| ==> CacheFits(cached[k], |axes|)
    ensures r.Ok? <==> Resolve(aCached, aValue, axes).Ok? && ResolveAll(cached, values, axes).Ok?
    ensures r.Ok? ==> r.value == (Resolve(aCached, aValue, axes).value, ResolveAll(cached, values, axes).value)
    ensures r.Err? && Resolve(aCached, aValue, axes).Err? ==> r.error == Resolve(aCached, aValue, axes).error
  {
    match Resolve(aCached, aValue, axes)
    case Err(e) => Err(e)
    case Ok(ai) =>
      match ResolveAll(cached, values, axes)
      case Err(e) => Err(e)
      case Ok(cols) => Ok((ai, cols))
  }

  /**
   * FindPartnerIP by position: the anchor's index, then every candidate's,
   * then the weighted draw on the anchor's row.
   */
  function IPChoice(aCached: int, aValue: string, cached: seq<int>, values: seq<string>,
                    axes: seq<string>, m: Matrix, draw: real): (r: Result<Option<nat>, AssortivityError>)
    requires Square(|axes|, m) && CacheFits(aCached, |axes|)
    requires |cached| == |values| && forall k :: 0 <= k < |cached| ==> CacheFits(cached[k], |axes|)
    ensures r.Err? <==> Resolve(aCached, aValue, axes).Err? || ResolveAll(cached, values, axes).Err?
    ensures r.Ok? && r.value.Some? ==>
      r.value.value < |values| &&
      m[Resolve(aCached, aValue, axes).value][Resolve(cached[r.value.value], values[r.value.value], axes).value] > 0.0
  {
    match IPIndices(aCached, aValue, cached, values, axes)
    case Err(e) => Err(e)
    case Ok((ai, cols)) => Ok(Pick(m[ai], cols, draw))
  }

  /** A resolved index is used as it is: the anchor's property value is then not read. */
  lemma CachedAnchorNotReread(aCached: int, v1: string, v2: string, cached: seq<int>, values: seq<string>,
                              axes: seq<string>, m: Matrix, draw: real)
    requires Square(|axes|, m) && CacheFits(aCached, |axes|) && aCached != -1
    requires |cached| == |values| && forall k :: 0 <= k < |cached| ==> CacheFits(cached[k], |axes|)
    ensures IPChoice(aCached, v1, cached, values, axes, m, draw) == IPChoice(aCached, v2, cached, values, axes, m, draw)
  {
  }

  // ---------------------------------------------------------------------
  // Individuals
  // ---------------------------------------------------------------------

  /** What the selection reads of an individual, and its per-relationship index cache. */
  class Individual {
    const infected: bool
    const coInfected: bool
    /** The individual's value of the configured property. */
    const propertyValue: string
    var assortivityIndex: map<RelationshipType, int>

    constructor (infected: bool, coInfected: bool, propertyValue: string)
      ensures this.infected == infected && this.coInfected == coInfected
      ensures this.propertyValue == propertyValue
      ensures assortivityIndex == map[]
    {
      this.infected, this.coInfected, this.propertyValue := infected, coInfected, propertyValue;
      assortivityIndex := map[];
    }

    /** -1 until an index has been stored for the relationship type. */
    function GetAssortivityIndex(rt: RelationshipType): int
      reads this
    {
      CachedIn(assortivityIndex, rt)
    }

    method SetAssortivityIndex(rt: RelationshipType, index: int)
      modifies this`assortivityIndex
      ensures assortivityIndex == old(assortivityIndex)[rt := index]
    {
      assortivityIndex := assortivityIndex[rt := index];
    }
  }

  /** The individual's cache is orig refreshed for relationship type rt against the axes. */
  ghost predicate Refreshed(x: Individual, orig: map<RelationshipType, int>, rt: RelationshipType, axes: seq<string>)
    reads x
  {
    x.assortivityIndex == RefreshMap(orig, rt, x.propertyValue, axes)
  }

  /** The cache maps of a candidate list, in order. */
  function Caches(xs: seq<Individual>): (c: seq<map<RelationshipType, int>>)
    reads xs
    ensures |c| == |xs| && forall k :: 0 <= k < |xs| ==> c[k] == xs[k].assortivityIndex
  {
    seq(|xs|, k reads xs requires 0 <= k < |xs| => xs[k].assortivityIndex)
  }

  /**
   * Settling the caches of the anchor and then of the candidates in order,
   * against their snapshots origA and origs: the anchor and the first k
   * candidates are settled, every other candidate is settled or untouched,
   * and the snapshots agree wherever the same individual appears twice.
   */
  ghost predicate Settling(a: Individual, candidates: seq<Individual>, k: nat, origA: map<RelationshipType, int>,
                           origs: seq<map<RelationshipType, int>>, rt: RelationshipType, axes: seq<string>)
    reads a, candidates
  {
    && |origs| == |candidates| && k <= |candidates|
    && Refreshed(a, origA, rt, axes)
    && (forall i :: 0 <= i < |candidates| && candidates[i] == a ==> origs[i] == origA)
    && (forall i, j :: 0 <= i < |candidates| && 0 <= j < |candidates| && candidates[i] == candidates[j] ==>
          origs[i] == origs[j])
    && (forall i :: 0 <= i < k ==> Refreshed(candidates[i], origs[i], rt, axes))
    && (forall i :: 0 <= i < |candidates| ==>
          candidates[i].assortivityIndex == origs[i] || Refreshed(candidates[i], origs[i], rt, axes))
  }

  /** The cached index of each snapshot for relationship type rt. */
  function CachedOf(origs: seq<map<RelationshipType, int>>, rt: RelationshipType): (c: seq<int>)
    ensures |c| == |origs| && forall k :: 0 <= k < |origs| ==> c[k] == CachedIn(origs[k], rt)
  {
    seq(|origs|, k requires 0 <= k < |origs| => CachedIn(origs[k], rt))
  }

  function CachedIndices(xs: seq<Individual>, rt: RelationshipType): (c: seq<int>)
    reads xs
    ensures |c| == |xs| && forall k :: 0 <= k < |xs| ==> c[k] == xs[k].GetAssortivityIndex(rt)
  {
    seq(|xs|, k reads xs requires 0 <= k < |xs| => xs[k].GetAssortivityIndex(rt))
  }

  function Values(xs: seq<Individual>): (v: seq<string>)
    ensures |v| == |xs| && forall k :: 0 <= k < |xs| ==> v[k] == xs[k].propertyValue
  {
    seq(|xs|, k requires 0 <= k < |xs| => xs[k].propertyValue)
  }

  /** The individual at a drawn position. */
  function AsPartner(xs: seq<Individual>, pos: Option<nat>): Option<Individual>
    requires pos.Some? ==> pos.value < |xs|
  {
    match pos
    case None => None
    case Some(k) => Some(xs[k])
  }

  // ---------------------------------------------------------------------
  // The scratch pool
  // ---------------------------------------------------------------------

  /**
   * The process-wide scratch list of (candidate, weight) pairs: unallocated
   * (size -1) until first use, then PS_MAX_LIST entries of which the first
   * size are in use.
   */
  class ScorePool {
    var list: array?<Scored>
    var size: int

    ghost predicate Valid()
      reads this
    {
      size == -1 || (list != null && list.Length == PS_MAX_LIST && 0 <= size <= PS_MAX_LIST)
    }

    /** The entries in use. */
    function Contents(): seq<Scored>
      reads this, list
      requires Valid()
    {
      if size == -1 then [] else list[..size]
    }

    constructor ()
      ensures Valid() && size == -1 && list == null
    {
      list, size := null, -1;
    }

    /**
     * The first loop of FindPartner and FindPartnerIP: the pool is reset
     * and filled with the positively weighted candidates in list order while
     * there is room, and their weights are summed.
     */
    method Fill(row: seq<real>, cols: seq<nat>) returns (total: real)
      requires Valid() && Fits(cols, |row|)
      modifies this, list
      ensures Valid() && size >= 0
      ensures Contents() == PoolOf(Weights(row, cols))
      ensures total == ScoreSum(Contents())
    {
      if size == -1 {
        list := new Scored[PS_MAX_LIST](_ => Scored(0, 0.0));
        size := 0;
      }
      var w := Weights(row, cols);
      size := 0;
      total := 0.0;
      var k := 0;
      while k < |cols|
        invariant 0 <= k <= |cols|
        invariant list != null && list.Length == PS_MAX_LIST && 0 <= size <= PS_MAX_LIST
        invariant list == old(list) || fresh(list)
        invariant list[..size] == PoolOf(w[..k])
        invariant total == ScoreSum(list[..size])
      {
        var score := row[cols[k]];
        assert PoolOf(w[..k + 1]) == Offer(list[..size], Scored(k, score)) by {
          assert w[k] == Scored(k, score);
          PoolStep(w, k);
        }
        total := Push(Scored(k, score), total);
        k := k + 1;
      }
      assert w[..|cols|] == w;
    }

    /** A candidate is appended, and its weight added to the total, when it is positive and there is room. */
    method Push(x: Scored, total: real) returns (newTotal: real)
      requires list != null && list.Length == PS_MAX_LIST && 0 <= size <= PS_MAX_LIST
      requires total == ScoreSum(list[..size])
      modifies this`size, list
      ensures 0 <= size <= PS_MAX_LIST
      ensures list[..size] == Offer(old(list[..size]), x)
      ensures newTotal == ScoreSum(list[..size])
    {
      newTotal := total;
      if x.score > 0.0 && size < PS_MAX_LIST {
        ghost var before := list[..size];
        list[size] := x;
        size := size + 1;
        assert list[..size] == before + [x];
        ScoreSumSnoc(before, x);
        newTotal := total + x.score;
      }
    }

    /**
     * The second loop: the first entry whose running weight exceeds
     * draw * total gives the candidate; none does when the pool is empty.
     */
    method Pick(total: real, draw: real) returns (r: Option<nat>)
      requires Valid() && size >= 0 && total == ScoreSum(Contents())
      ensures r == Drawn(Contents(), draw)
    {
      var ran := Scale(draw, total);
      var cum := 0.0;
      var i := 0;
      while i < size
        invariant 0 <= i <= size
        invariant cum == ScoreSum(list[..i])
        invariant FirstAbove(list[..size], ran, 0) == FirstAbove(list[..size], ran, i)
      {
        assert list[..size][..i + 1] == list[..i + 1];
        assert list[..i + 1][..i] == list[..i];
        cum := cum + list[i].score;
        if cum > ran {
          return Some(list[i].partner);
        }
        i := i + 1;
      }
      return None;
    }
  }

  // ---------------------------------------------------------------------
  // Assortivity
  // ---------------------------------------------------------------------

  /** The preference model of one relationship type. */
  class Assortivity {
    const relType: RelationshipType
    var group: AssortivityGroup
    var propertyKey: string
    var axes: seq<string>
    var matrix: Matrix
    var startYear: real
    var startUsing: bool

    /** The state a successful validation leaves: what the selection relies on. */
    ghost predicate Ready()
      reads this
    {
      group == NoGroup ||
      (MatrixOk(|axes|, matrix) && (group == StiInfectionStatus ==> axes == ["FALSE", "TRUE"]))
    }

    /** A new preference model: no group, not yet in use, starting from the earliest year. */
    constructor (relType: RelationshipType, minYear: real)
      ensures this.relType == relType && group == NoGroup && propertyKey == ""
      ensures axes == [] && matrix == [] && startYear == minYear && !startUsing
      ensures Ready()
    {
      this.relType := relType;
      group, propertyKey, axes, matrix := NoGroup, "", [], [];
      startYear, startUsing := minYear, false;
    }

    /** The groups for which Configure reads Start_Year. */
    predicate UsesStartYear()
      reads this
      ensures !UsesStartYear() <==> group == NoGroup || group == StiInfectionStatus || group == IndividualProperty
    {
      group == StiCoinfectionStatus || group == HivInfectionStatus ||
      group == HivTestedPositiveStatus || group == HivReceivedResultsStatus
    }

    /**
     * The Start_Year read of Configure (line 83): the parameter depends on
     * the group, so only a group that uses a start year takes the configured
     * year. Every other group keeps the year it had, the constructor's
     * minimum year, and so is in effect from the first update after it.
     */
    method ReadStartYear(configured: real)
      modifies this`startYear
      ensures UsesStartYear() ==> startYear == configured
      ensures !UsesStartYear() ==> startYear == old(startYear)
    {
      if UsesStartYear() {
        startYear := configured;
      }
    }

    /** The group in effect: the configured one once the start year has passed, NoGroup before. */
    function GetGroupToUse(): (g: AssortivityGroup)
      reads this
      ensures !startUsing ==> g == NoGroup
      ensures startUsing ==> g == group
    {
      if startUsing then group else NoGroup
    }

    /** The start-year gate opens strictly after the start year. */
    method Update(currentYear: real)
      modifies this`startUsing
      ensures startUsing <==> startYear < currentYear
      ensures GetGroupToUse() == (if startYear < currentYear then group else NoGroup)
    {
      startUsing := startYear < currentYear;
    }

    /**
     * Assortivity::CheckAxesForTrueFalse: the axes are upper-cased in place,
     * then must be exactly TRUE and FALSE in either order. The axes are left
     * in upper case, so upper-casing them again changes nothing.
     */
    method CheckAxesForTrueFalse() returns (error: Option<AssortivityError>)
      modifies this`axes
      ensures axes == UpperAll(old(axes))
      ensures error.None? <==> TrueFalse(axes)
      ensures error.Some? ==> error.value == AxesNotTrueFalse
      ensures UpperAll(axes) == axes
    {
      var i := 0;
      while i < |axes|
        invariant 0 <= i <= |axes| == |old(axes)|
        invariant forall j :: 0 <= j < i ==> axes[j] == ToUpper(old(axes)[j])
        invariant forall j :: i <= j < |axes| ==> axes[j] == old(axes)[j]
      {
        axes := axes[i := ToUpper(axes[i])];
        i := i + 1;
      }
      assert axes == UpperAll(old(axes));
      forall j | 0 <= j < |axes| ensures ToUpper(axes[j]) == axes[j] {
        ToUpperIdempotent(old(axes)[j]);
      }
      assert UpperAll(axes) == axes;
      if |axes| != 2 || (axes[0] != "TRUE" && axes[1] != "TRUE") || (axes[0] != "FALSE" && axes[1] != "FALSE") {
        return Some(AxesNotTrueFalse);
      }
      return None;
    }

    /**
     * Assortivity::CheckAxesForProperty, given the property's values: as
     * many axes as values, each axis one of the values and, corrected, no
     * axis repeated.
     */
    method CheckAxesForProperty(values: set<string>) returns (error: Option<AssortivityError>)
      ensures error.None? <==> AxesMatch(axes, values)
      ensures error.Some? ==> error.value == AxesDoNotMatchProperty
    {
      var invalid := |values| != |axes|;
      var i := 0;
      while !invalid && i < |axes|
        invariant 0 <= i <= |axes|
        invariant !invalid ==> |values| == |axes|
        invariant !invalid ==> forall j :: 0 <= j < i ==> axes[j] in values
        invariant !invalid ==> forall j, k :: 0 <= j < k < i ==> axes[j] != axes[k]
        invariant invalid ==> !AxesMatch(axes, values)
      {
        invalid := axes[i] !in values || axes[i] in axes[..i];
        if axes[i] in axes[..i] {
          var j :| 0 <= j < i && axes[..i][j] == axes[i];
          assert axes[j] == axes[i];
        }
        i := i + 1;
      }
      if invalid {
        return Some(AxesDoNotMatchProperty);
      }
      return None;
    }

    /** Whether row i and column i have a positive entry. */
    method LinesHavePositive(i: nat) returns (rowOk: bool, colOk: bool)
      requires Square(|matrix|, matrix) && i < |matrix|
      ensures rowOk == RowPositive(matrix, i) && colOk == ColumnPositive(matrix, i)
    {
      rowOk, colOk := false, false;
      var j := 0;
      while j < |matrix|
        invariant 0 <= j <= |matrix|
        invariant rowOk <==> exists k :: 0 <= k < j && matrix[i][k] > 0.0
        invariant colOk <==> exists k :: 0 <= k < j && matrix[k][i] > 0.0
      {
        rowOk := rowOk || matrix[i][j] > 0.0;
        colOk := colOk || matrix[j][i] > 0.0;
        j := j + 1;
      }
    }

    /**
     * Assortivity::CheckMatrix: the matrix must be square with the axes'
     * dimension, then the first all-zero row or column is reported.
     */
    method CheckMatrix() returns (error: Option<AssortivityError>)
      ensures error == MatrixVerdict(|axes|, matrix)
    {
      var invalid := |matrix| != |axes|;
      var i := 0;
      while !invalid && i < |matrix|
        invariant 0 <= i <= |matrix|
        invariant !invalid ==> |matrix| == |axes| && forall j :: 0 <= j < i ==> |matrix[j]| == |axes|
        invariant invalid ==> !Square(|axes|, matrix)
      {
        invalid := |matrix[i]| != |axes|;
        i := i + 1;
      }
      if invalid {
        return Some(MatrixNotSquare);
      }
      i := 0;
      while i < |matrix|
        invariant 0 <= i <= |matrix|
        invariant LineVerdict(matrix, 0) == LineVerdict(matrix, i)
      {
        var rowOk, colOk := LinesHavePositive(i);
        if !rowOk || !colOk {
          if !rowOk {
            return Some(AllZeroRow(i));
          } else {
            return Some(AllZeroColumn(i));
          }
        }
        i := i + 1;
      }
      return None;
    }

    /**
     * Assortivity::SortMatrixFalseTrue: when TRUE comes first, the axes
     * become FALSE, TRUE and the four corner cells are exchanged, so that
     * every pairing keeps its weight.
     */
    method SortMatrixFalseTrue()
      requires |axes| > 0 && (axes[0] == "TRUE" ==> |axes| >= 2 && HasCorners(matrix))
      modifies this`axes, this`matrix
      ensures old(axes)[0] == "TRUE" ==> axes == old(axes)[0 := "FALSE"][1 := "TRUE"] && matrix == SwapCorners(old(matrix))
      ensures old(axes)[0] != "TRUE" ==> axes == old(axes) && matrix == old(matrix)
      ensures TrueFalse(old(axes)) && Square(2, old(matrix)) ==>
                Canonical(axes, matrix) == SortFalseTrue(old(axes), old(matrix))
    {
      if axes[0] == "TRUE" {
        ghost var m := matrix;
        axes := axes[0 := "FALSE"][1 := "TRUE"];
        var tmp := matrix[0][0];
        matrix := matrix[0 := matrix[0][0 := matrix[1][1]]];
        matrix := matrix[1 := matrix[1][1 := tmp]];
        tmp := matrix[0][1];
        matrix := matrix[0 := matrix[0][1 := matrix[1][0]]];
        matrix := matrix[1 := matrix[1][0 := tmp]];
        assert matrix[0] == m[0][0 := m[1][1]][1 := m[1][0]];
        assert matrix[1] == m[1][0 := m[0][1]][1 := m[0][0]];
        assert matrix == SwapCorners(m);
      }
      if TrueFalse(old(axes)) && Square(2, old(matrix)) {
        TrueFalseIsPair(old(axes));
        if old(axes)[0] == "TRUE" {
          SwapCornersIsFlip(old(matrix));
        }
      }
    }

    /**
     * The checks Configure makes once the parameters are read (lines
     * 110-157), with the shape of the matrix checked before the TRUE/FALSE
     * reordering reads its corners.
     * The property's values are None when the property is not defined.
     */
    method ValidateConfiguration(propertyValues: Option<set<string>>) returns (error: Option<AssortivityError>)
      modifies this`axes, this`matrix
      ensures group == StiInfectionStatus ==>
                && (error.None? <==> StiChecks(old(axes), old(matrix)).StiAccepted?)
                && (error.Some? ==> StiChecks(old(axes), old(matrix)) == StiRejected(error.value))
                && (error.None? ==> Canonical(axes, matrix) == StiChecks(old(axes), old(matrix)).config)
      ensures group == IndividualProperty ==>
                && axes == old(axes) && matrix == old(matrix)
                && (error.None? <==> propertyKey != "" && propertyValues.Some? &&
                                     AxesMatch(axes, propertyValues.value) && MatrixOk(|axes|, matrix))
      ensures group != StiInfectionStatus && group != IndividualProperty ==>
                && axes == old(axes) && matrix == old(matrix)
                && (error.None? <==> group == NoGroup || MatrixOk(|axes|, matrix))
      ensures error.None? ==> Ready()
    {
      if group == StiInfectionStatus {
        error := CheckAxesForTrueFalse();
        if error.Some? {
          return;
        }
        if !Square(2, matrix) {
          return Some(MatrixNotSquare);
        }
        TrueFalseIsPair(axes);
        SortMatrixFalseTrue();
      } else if group == IndividualProperty {
        if propertyKey == "" {
          return Some(PropertyNameMissing);
        }
        if propertyValues.None? {
          return Some(PropertyNotDefined);
        }
        error := CheckAxesForProperty(propertyValues.value);
        if error.Some? {
          return;
        }
      }
      if group != NoGroup {
        error := CheckMatrix();
        if error.Some? {
          return;
        }
      }
      return None;
    }

    /** Assortivity::GetIndex through the cache of one individual. */
    method ResolveIndex(x: Individual) returns (r: Result<nat, AssortivityError>)
      requires CacheFits(x.GetAssortivityIndex(relType), |axes|)
      modifies x`assortivityIndex
      ensures r == Resolve(old(x.GetAssortivityIndex(relType)), x.propertyValue, axes)
      ensures x.assortivityIndex == RefreshMap(old(x.assortivityIndex), relType, x.propertyValue, axes)
    {
      var c := x.GetAssortivityIndex(relType);
      if c != -1 {
        return Ok(c);
      }
      r := AxisIndex(axes, x.propertyValue);
      if r.Ok? {
        x.SetAssortivityIndex(relType, r.value);
      }
    }

    /**
     * ResolveIndex on candidate k, whose cache is either its snapshot
     * origs[k] or already settled from it: the answer is that of resolving
     * the snapshot once, and one more candidate is settled.
     */
    method ResolveNext(a: Individual, candidates: seq<Individual>, k: nat,
                       ghost origA: map<RelationshipType, int>, ghost origs: seq<map<RelationshipType, int>>)
      returns (r: Result<nat, AssortivityError>)
      requires k < |candidates| && Settling(a, candidates, k, origA, origs, relType, axes)
      requires CacheFits(CachedIn(origs[k], relType), |axes|)
      modifies candidates[k]
      ensures Settling(a, candidates, k + 1, origA, origs, relType, axes)
      ensures r == Resolve(CachedIn(origs[k], relType), candidates[k].propertyValue, axes)
    {
      var x := candidates[k];
      RefreshSettles(origs[k], relType, x.propertyValue, axes);
      r := ResolveIndex(x);
    }

    /**
     * Assortivity::FindPartner: the anchor's and the candidates' indices
     * come from a boolean trait; returns the chosen candidate's position.
     */
    method FindPartner(a: Individual, candidates: seq<Individual>, rule: IndexRule, pool: ScorePool, draw: real)
      returns (r: Option<nat>)
      requires Square(|axes|, matrix) && |axes| >= 2 && pool.Valid()
      modifies pool, pool.list
      ensures pool.Valid()
      ensures r == Pick(matrix[RuleIndex(rule, a)], RuleIndices(rule, candidates), draw)
    {
      var aIndex := RuleIndex(rule, a);
      var cols := RuleIndices(rule, candidates);
      var total := pool.Fill(matrix[aIndex], cols);
      r := pool.Pick(total, draw);
    }
  
    /** Every cached index of the anchor and the candidates is -1 or a position in the axes. */
    ghost predicate CachesFit(a: Individual, candidates: seq<Individual>)
      reads this, a, candidates
    {
      && CacheFits(a.GetAssortivityIndex(relType), |axes|)
      && forall k :: 0 <= k < |candidates| ==> CacheFits(candidates[k].GetAssortivityIndex(relType), |axes|)
    }

    /**
     * The index lookups of Assortivity::FindPartnerIP: the anchor's first,
     * then each candidate's, each through the individual's cache; the
     * first value that is not an axis stops the lookups.
     */
    method ResolveIndices(a: Individual, candidates: seq<Individual>)
      returns (r: Result<(nat, seq<nat>), AssortivityError>)
      requires CachesFit(a, candidates)
      modifies a, candidates
      ensures r == IPIndices(old(a.GetAssortivityIndex(relType)), a.propertyValue,
                             old(CachedIndices(candidates, relType)), Values(candidates), axes)
      ensures r.Ok? ==> forall x :: x == a || x in candidates ==>
                x.assortivityIndex == RefreshMap(old(x.assortivityIndex), relType, x.propertyValue, axes)
    {
      ghost var origA := a.assortivityIndex;
      ghost var origs := Caches(candidates);
      assert CachedOf(origs, relType) == CachedIndices(candidates, relType);
      var aIndex := ResolveIndex(a);
      if aIndex.Err? {
        return Err(aIndex.error);
      }
      var cols := ResolveCandidates(a, candidates, origA, origs);
      if cols.Err? {
        return Err(cols.error);
      }
      return Ok((aIndex.value, cols.value));
    }

    /**
     * The candidate loop of ResolveIndices: every candidate's index in
     * order through its cache, stopping at the first failure; the caches
     * settle as they are resolved.
     */
    method ResolveCandidates(a: Individual, candidates: seq<Individual>,
                             ghost origA: map<RelationshipType, int>, ghost origs: seq<map<RelationshipType, int>>)
      returns (r: Result<seq<nat>, AssortivityError>)
      requires Settling(a, candidates, 0, origA, origs, relType, axes)
      requires forall i :: 0 <= i < |origs| ==> CacheFits(CachedIn(origs[i], relType), |axes|)
      modifies candidates
      ensures r == ResolveAll(CachedOf(origs, relType), Values(candidates), axes)
      ensures r.Ok? ==> Settling(a, candidates, |candidates|, origA, origs, relType, axes)
    {
      ghost var cached := CachedOf(origs, relType);
      ghost var values := Values(candidates);
      var cols: seq<nat> := [];
      var k := 0;
      while k < |candidates|
        invariant 0 <= k <= |candidates|
        invariant |cols| == k && forall i :: 0 <= i < k ==> Resolve(cached[i], values[i], axes) == Ok(cols[i])
        invariant Settling(a, candidates, k, origA, origs, relType, axes)
      {
        var b := ResolveNext(a, candidates, k, origA, origs);
        if b.Err? {
          FirstFailureReported(cached, values, axes, k);
          return Err(b.error);
        }
        assert Resolve(cached[k], values[k], axes) == Ok(b.value);
        cols := cols + [b.value];
        k := k + 1;
      }
      AllResolved(cached, values, axes, cols);
      return Ok(cols);
    }

    /**
     * Assortivity::FindPartnerIP: indices come from the individuals'
     * property values through their caches, the anchor's first; a value
     * that is not an axis raises an error. Returns the chosen position.
     */
    method FindPartnerIP(a: Individual, candidates: seq<Individual>, pool: ScorePool, draw: real)
      returns (r: Result<Option<nat>, AssortivityError>)
      requires Square(|axes|, matrix) && pool.Valid() && CachesFit(a, candidates)
      modifies pool, pool.list, a, candidates
      ensures pool.Valid()
      ensures r == IPChoice(old(a.GetAssortivityIndex(relType)), a.propertyValue,
                            old(CachedIndices(candidates, relType)), Values(candidates), axes, matrix, draw)
      ensures r.Ok? ==> forall x :: x == a || x in candidates ==>
                x.assortivityIndex == RefreshMap(old(x.assortivityIndex), relType, x.propertyValue, axes)
    {
      var indices := ResolveIndices(a, candidates);
      if indices.Err? {
        return Err(indices.error);
      }
      var (aIndex, cols) := indices.value;
      var total := pool.Fill(matrix[aIndex], cols);
      var chosen := pool.Pick(total, draw);
      return Ok(chosen);
    }

    /**
     * Assortivity::SelectPartner: a null anchor is an error, an empty list
     * gives nobody, NoGroup gives the first candidate, the boolean and
     * property groups draw, and any other group is an unhandled case.
     */
    method SelectPartner(a: Individual?, candidates: seq<Individual>, pool: ScorePool, draw: real)
      returns (r: Result<Option<Individual>, AssortivityError>)
      requires Ready() && pool.Valid()
      requires GetGroupToUse() == StiCoinfectionStatus ==> |axes| >= 2
      requires GetGroupToUse() == IndividualProperty && a != null ==> CachesFit(a, candidates)
      modifies pool, pool.list, a, candidates
      ensures pool.Valid()
      ensures a == null ==> r == Err(NullPartnerA)
      ensures a != null && |candidates| == 0 ==> r == Ok(None)
      ensures a != null && |candidates| > 0 ==>
        match GetGroupToUse()
        case NoGroup => r == Ok(Some(candidates[0]))
        case StiInfectionStatus =>
          r == Ok(AsPartner(candidates, Pick(matrix[GetIndexSTI(a)], RuleIndices(ByInfection, candidates), draw)))
        case StiCoinfectionStatus =>
          r == Ok(AsPartner(candidates, Pick(matrix[GetIndexStiCoInfection(a)], RuleIndices(ByCoInfection, candidates), draw)))
        case IndividualProperty =>
          r == (match IPChoice(old(a.GetAssortivityIndex(relType)), a.propertyValue,
                               old(CachedIndices(candidates, relType)), Values(candidates), axes, matrix, draw)
                case Err(e) => Err(e)
                case Ok(pos) => Ok(AsPartner(candidates, pos)))
        case _ => r == Err(BadEnumInSwitch(GetGroupToUse()))
      ensures r.Ok? && r.value.Some? ==> r.value.value in candidates
    {
      if a == null {
        return Err(NullPartnerA);
      }
      if |candidates| == 0 {
        return Ok(None);
      }
      var group := GetGroupToUse();
      match group {
        case NoGroup =>
          r := Ok(Some(candidates[0]));
        case StiInfectionStatus =>
          var pos := FindPartner(a, candidates, ByInfection, pool, draw);
          r := Ok(AsPartner(candidates, pos));
        case IndividualProperty =>
          var res := FindPartnerIP(a, candidates, pool, draw);
          r := match res
               case Err(e) => Err(e)
               case Ok(pos) => Ok(AsPartner(candidates, pos));
        case StiCoinfectionStatus =>
          var pos := FindPartner(a, candidates, ByCoInfection, pool, draw);
          r := Ok(AsPartner(candidates, pos));
        case _ =>
          r := Err(BadEnumInSwitch(group));
      }
    }
  }

  /**
   * The first candidate that fails to resolve decides the error that the
   * whole list reports.
   */
  /** When every candidate resolves, the list resolves to their indices. */
  lemma {:induction false} AllResolved(cached: seq<int>, values: seq<string>, axes: seq<string>, cols: seq<nat>)
    requires |cached| == |values| == |cols| && forall i :: 0 <= i < |cached| ==> CacheFits(cached[i], |axes|)
    requires forall i :: 0 <= i < |cols| ==> Resolve(cached[i], values[i], axes) == Ok(cols[i])
    ensures ResolveAll(cached, values, axes) == Ok(cols)
    decreases |values|
  {
    if |values| > 0 {
      var n := |values| - 1;
      AllResolved(cached[..n], values[..n], axes, cols[..n]);
      assert cols == cols[..n] + [cols[n]];
    }
  }

  lemma {:induction false} FirstFailureReported(cached: seq<int>, values: seq<string>, axes: seq<string>, k: nat)
    requires |cached| == |values| && forall i :: 0 <= i < |cached| ==> CacheFits(cached[i], |axes|)
    requires k < |values|
    requires forall i :: 0 <= i < k ==> Resolve(cached[i], values[i], axes).Ok?
    requires Resolve(cached[k], values[k], axes).Err?
    ensures ResolveAll(cached, values, axes) == Err(Resolve(cached[k], values[k], axes).error)
    decreases |values|
  {
    var n := |values| - 1;
    if k < n {
      FirstFailureReported(cached[..n], values[..n], axes, k);
    }
  }
}
