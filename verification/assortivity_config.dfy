/**
 * The configuration side of assortative partner selection: the grouping
 * modes, the axes (category labels) and the weighting matrix, the checks
 * made on them, the TRUE/FALSE canonicalisation and the axis-index lookup.
 */
module AssortivityConfig {
  import opened Results
  import opened Text

  datatype RelationshipType = Transitory | Informal | Marital | Commercial

  datatype AssortivityGroup =
    | NoGroup
    | StiInfectionStatus
    | IndividualProperty
    | StiCoinfectionStatus
    | HivInfectionStatus
    | HivTestedPositiveStatus
    | HivReceivedResultsStatus

  /** The exceptions the checks and the selection raise; rows and columns are 0-based. */
  datatype AssortivityError =
    | AxesNotTrueFalse
    | PropertyNameMissing
    | PropertyNotDefined
    | AxesDoNotMatchProperty
    | MatrixNotSquare
    | AllZeroRow(row: nat)
    | AllZeroColumn(column: nat)
    | ValueNotInAxes(value: string)
    | NullPartnerA
    | BadEnumInSwitch(group: AssortivityGroup)

  type Matrix = seq<seq<real>>

  // ---------------------------------------------------------------------
  // Weighting matrix
  // ---------------------------------------------------------------------

  /** An n x n matrix. */
  predicate Square(n: nat, m: Matrix)
  {
    |m| == n && forall i :: 0 <= i < |m| ==> |m[i]| == n
  }

  /** Row i has a strictly positive entry. */
  predicate RowPositive(m: Matrix, i: nat)
    requires Square(|m|, m) && i < |m|
  {
    exists j :: 0 <= j < |m| && m[i][j] > 0.0
  }

  /** Column i has a strictly positive entry. */
  predicate ColumnPositive(m: Matrix, i: nat)
    requires Square(|m|, m) && i < |m|
  {
    exists j :: 0 <= j < |m| && m[j][i] > 0.0
  }

  predicate LinesPositive(m: Matrix, i: nat)
    requires Square(|m|, m) && i < |m|
  {
    RowPositive(m, i) && ColumnPositive(m, i)
  }

  /** A weighting matrix the selection may use: n x n, no all-zero row or column. */
  predicate MatrixOk(n: nat, m: Matrix)
  {
    Square(n, m) && forall i :: 0 <= i < n ==> LinesPositive(m, i)
  }

  /**
   * The outcome of checking rows and columns i, i+1, ... in turn: the first
   * index whose row (checked first) or column has no positive entry.
   */
  function LineVerdict(m: Matrix, i: nat): (r: Option<AssortivityError>)
    requires Square(|m|, m) && i <= |m|
    ensures r.None? <==> forall j :: i <= j < |m| ==> LinesPositive(m, j)
    ensures r.Some? ==> r.value.AllZeroRow? || r.value.AllZeroColumn?
    ensures r.Some? && r.value.AllZeroRow? ==>
      var k := r.value.row;
      i <= k < |m| && !RowPositive(m, k) && forall j :: i <= j < k ==> LinesPositive(m, j)
    ensures r.Some? && r.value.AllZeroColumn? ==>
      var k := r.value.column;
      i <= k < |m| && RowPositive(m, k) && !ColumnPositive(m, k) && forall j :: i <= j < k ==> LinesPositive(m, j)
    decreases |m| - i
  {
    if i == |m| then None
    else if !RowPositive(m, i) then
      assert !LinesPositive(m, i);
      Some(AllZeroRow(i))
    else if !ColumnPositive(m, i) then
      assert !LinesPositive(m, i);
      Some(AllZeroColumn(i))
    else LineVerdict(m, i + 1)
  }

  /**
   * The verdict of Assortivity::CheckMatrix for n axes: the shape first,
   * then the first all-zero row or column.
   */
  function MatrixVerdict(n: nat, m: Matrix): (r: Option<AssortivityError>)
    ensures r.None? <==> MatrixOk(n, m)
    ensures r == Some(MatrixNotSquare) <==> !Square(n, m)
    ensures r.Some? && r.value.AllZeroRow? ==>
      var k := r.value.row;
      Square(n, m) && k < n && !RowPositive(m, k) && forall j :: 0 <= j < k ==> LinesPositive(m, j)
    ensures r.Some? && r.value.AllZeroColumn? ==>
      var k := r.value.column;
      Square(n, m) && k < n && RowPositive(m, k) && !ColumnPositive(m, k) &&
      forall j :: 0 <= j < k ==> LinesPositive(m, j)
    ensures r.Some? ==> r.value.MatrixNotSquare? || r.value.AllZeroRow? || r.value.AllZeroColumn?
  {
    if !Square(n, m) then Some(MatrixNotSquare) else LineVerdict(m, 0)
  }

  // ---------------------------------------------------------------------
  // TRUE / FALSE axes
  // ---------------------------------------------------------------------

  /** Every axis upper-cased, as CheckAxesForTrueFalse does in place. */
  function UpperAll(axes: seq<string>): (u: seq<string>)
    ensures |u| == |axes|
    ensures forall i :: 0 <= i < |axes| ==> u[i] == ToUpper(axes[i])
  {
    seq(|axes|, i requires 0 <= i < |axes| => ToUpper(axes[i]))
  }

  /** The test of CheckAxesForTrueFalse on the upper-cased axes. */
  predicate TrueFalse(axes: seq<string>)
    ensures TrueFalse(axes) ==> |axes| == 2 && axes[0] != axes[1]
  {
    assert "TRUE"[0] != "FALSE"[0];
    && |axes| == 2
    && (axes[0] == "TRUE" || axes[1] == "TRUE")
    && (axes[0] == "FALSE" || axes[1] == "FALSE")
  }

  /** The test accepts exactly the two orders of the pair TRUE, FALSE. */
  lemma TrueFalseIsPair(axes: seq<string>)
    ensures TrueFalse(axes) <==> axes == ["TRUE", "FALSE"] || axes == ["FALSE", "TRUE"]
  {
    if TrueFalse(axes) {
      assert "TRUE" != "FALSE" by { assert "TRUE"[0] != "FALSE"[0]; }
      if axes[0] == "TRUE" {
        assert axes == [axes[0], axes[1]];
      }
    }
  }

  /** Exchanging both the row and the column trait of a 2 x 2 matrix. */
  function Flip(m: Matrix): (f: Matrix)
    requires Square(2, m)
    ensures Square(2, f)
    ensures forall i, j :: 0 <= i < 2 && 0 <= j < 2 ==> f[i][j] == m[1 - i][1 - j]
  {
    [[m[1][1], m[1][0]], [m[0][1], m[0][0]]]
  }

  /** The configuration after SortMatrixFalseTrue: index 0 is FALSE. */
  datatype Canonical = Canonical(axes: seq<string>, matrix: Matrix)

  /**
   * Assortivity::SortMatrixFalseTrue on TRUE/FALSE axes and a 2 x 2
   * matrix: when TRUE comes first, both the axes and the matrix are
   * reordered.
   */
  function SortFalseTrue(axes: seq<string>, m: Matrix): (c: Canonical)
    requires TrueFalse(axes) && Square(2, m)
    ensures c.axes == ["FALSE", "TRUE"]
    ensures Square(2, c.matrix)
    ensures axes == ["FALSE", "TRUE"] ==> c.matrix == m
  {
    TrueFalseIsPair(axes);
    if axes[0] == "TRUE" then Canonical(["FALSE", "TRUE"], Flip(m)) else Canonical(axes, m)
  }

  /** The row (or column) of a TRUE/FALSE label in the axes. */
  function LabelIndex(axes: seq<string>, isTrue: bool): nat
    requires TrueFalse(axes)
  {
    if (axes[0] == "TRUE") == isTrue then 0 else 1
  }

  /**
   * Reordering keeps every pairing's weight: the weight between an anchor
   * with trait x and a candidate with trait y is the same before and after.
   */
  lemma SortKeepsWeights(axes: seq<string>, m: Matrix, x: bool, y: bool)
    requires TrueFalse(axes) && Square(2, m)
    ensures var c := SortFalseTrue(axes, m);
            TrueFalse(c.axes) &&
            c.matrix[LabelIndex(c.axes, x)][LabelIndex(c.axes, y)] == m[LabelIndex(axes, x)][LabelIndex(axes, y)]
  {
    TrueFalseIsPair(axes);
    assert "TRUE" != "FALSE" by { assert "TRUE"[0] != "FALSE"[0]; }
  }

  /**
   * The canonicalisation example: axes TRUE, FALSE with [[a, b], [c, d]]
   * become FALSE, TRUE with [[d, c], [b, a]].
   */
  lemma SortExample(a: real, b: real, c: real, d: real)
    ensures SortFalseTrue(["TRUE", "FALSE"], [[a, b], [c, d]]) ==
            Canonical(["FALSE", "TRUE"], [[d, c], [b, a]])
  {
  }

  /** Reordering neither creates nor removes an all-zero row or column. */
  lemma FlipKeepsMatrixOk(m: Matrix)
    requires Square(2, m)
    ensures MatrixOk(2, Flip(m)) <==> MatrixOk(2, m)
  {
    var f := Flip(m);
    forall i | 0 <= i < 2
      ensures LinesPositive(f, i) <==> LinesPositive(m, 1 - i)
    {
      if RowPositive(m, 1 - i) {
        var j :| 0 <= j < 2 && m[1 - i][j] > 0.0;
        assert f[i][1 - j] > 0.0;
      }
      if RowPositive(f, i) {
        var j :| 0 <= j < 2 && f[i][j] > 0.0;
        assert m[1 - i][1 - j] > 0.0;
      }
      if ColumnPositive(m, 1 - i) {
        var j :| 0 <= j < 2 && m[j][1 - i] > 0.0;
        assert f[1 - j][i] > 0.0;
      }
      if ColumnPositive(f, i) {
        var j :| 0 <= j < 2 && f[j][i] > 0.0;
        assert m[1 - j][1 - i] > 0.0;
      }
    }
    assert LinesPositive(f, 0) <==> LinesPositive(m, 1);
    assert LinesPositive(f, 1) <==> LinesPositive(m, 0);
  }

  // ---------------------------------------------------------------------
  // Axis lookup and property axes
  // ---------------------------------------------------------------------

  /**
   * Assortivity::GetIndex: the first position of the value in the axes;
   * a value that is not an axis raises an illegal-operation error.
   */
  function AxisIndex(axes: seq<string>, value: string): (r: Result<nat, AssortivityError>)
    ensures r.Ok? ==> r.value < |axes| && axes[r.value] == value &&
                      forall j :: 0 <= j < r.value ==> axes[j] != value
    ensures r.Err? <==> value !in axes
    ensures r.Err? ==> r.error == ValueNotInAxes(value)
  {
    if |axes| == 0 then Err(ValueNotInAxes(value))
    else if axes[0] == value then Ok(0)
    else match AxisIndex(axes[1..], value)
      case Ok(i) => Ok(i + 1)
      case Err(e) => Err(e)
  }

  /** No label occurs twice. */
  predicate Distinct(axes: seq<string>)
  {
    forall i, j :: 0 <= i < j < |axes| ==> axes[i] != axes[j]
  }

  /**
   * The test of CheckAxesForProperty as written: as many axes as property
   * values, and every axis one of the values.
   */
  predicate AxesMatchAsWritten(axes: seq<string>, values: set<string>)
    ensures AxesMatchAsWritten(axes, values) && Distinct(axes) ==> forall v :: v in values ==> v in axes
  {
    var ok := |values| == |axes| && forall i :: 0 <= i < |axes| ==> axes[i] in values;
    if ok && Distinct(axes) then
      var labels := set i | 0 <= i < |axes| :: axes[i];
      DistinctSetSize(axes);
      SubsetSameSize(labels, values);
      assert forall v :: v in labels ==> v in axes;
      ok
    else
      ok
  }

  /** The corrected test: the axes list every property value exactly once. */
  predicate AxesMatch(axes: seq<string>, values: set<string>)
  {
    AxesMatchAsWritten(axes, values) && Distinct(axes)
  }

  /**
   * A repeated axis passes the test as written, and then an individual
   * holding the value left out of the axes cannot be given an index.
   */
  lemma DuplicateAxisPassesAsWritten()
    ensures AxesMatchAsWritten(["A", "A"], {"A", "B"})
    ensures AxisIndex(["A", "A"], "B").Err?
  {
    assert "A" != "B" by { assert "A"[0] != "B"[0]; }
    assert |{"A", "B"}| == 2;
  }

  lemma {:induction false} DistinctSetSize(axes: seq<string>)
    requires Distinct(axes)
    ensures |set i | 0 <= i < |axes| :: axes[i]| == |axes|
    decreases |axes|
  {
    if |axes| > 0 {
      var init := axes[..|axes| - 1];
      DistinctSetSize(init);
      var s := set i | 0 <= i < |init| :: init[i];
      var t := set i | 0 <= i < |axes| :: axes[i];
      assert t == s + {axes[|axes| - 1]} by {
        forall x | x in t ensures x in s + {axes[|axes| - 1]} {
          var i :| 0 <= i < |axes| && axes[i] == x;
          if i < |axes| - 1 { assert init[i] == x; }
        }
        forall x | x in s ensures x in t {
          var i :| 0 <= i < |init| && init[i] == x;
          assert axes[i] == x;
        }
      }
      assert axes[|axes| - 1] !in s;
    }
  }

  lemma SubsetSameSize(a: set<string>, b: set<string>)
    requires a <= b && |a| == |b|
    ensures a == b
  {
    if a != b {
      var x :| x in b && x !in a;
      assert a <= b - {x};
      SubsetSize(a, b - {x});
    }
  }

  lemma {:induction false} SubsetSize(a: set<string>, b: set<string>)
    requires a <= b
    ensures |a| <= |b|
    decreases |b|
  {
    if a != {} {
      var x :| x in a;
      SubsetSize(a - {x}, b - {x});
    }
  }

  /**
   * With the corrected test, every property value has an axis, so
   * GetIndex never fails on a value of the property.
   */
  lemma CorrectedAxesResolveEveryValue(axes: seq<string>, values: set<string>, v: string)
    requires AxesMatch(axes, values) && v in values
    ensures AxisIndex(axes, v).Ok?
  {
    var labels := set i | 0 <= i < |axes| :: axes[i];
    DistinctSetSize(axes);
    SubsetSameSize(labels, values);
    assert v in labels;
  }

  /** For distinct axes the two tests agree; the corrected one is never looser. */
  lemma AxesTestsAgreeOnDistinct(axes: seq<string>, values: set<string>)
    ensures AxesMatch(axes, values) ==> AxesMatchAsWritten(axes, values)
    ensures Distinct(axes) ==> (AxesMatch(axes, values) <==> AxesMatchAsWritten(axes, values))
  {
  }

  // ---------------------------------------------------------------------
  // The STI_INFECTION_STATUS checks of Configure
  // ---------------------------------------------------------------------

  /** How the STI_INFECTION_STATUS checks end. */
  datatype StiOutcome =
    | StiRejected(error: AssortivityError)
    | StiAccepted(config: Canonical)
    | StiOutOfRange

  /** The 2 x 2 cells the reordering reads are there. */
  predicate HasCorners(m: Matrix)
  {
    |m| >= 2 && |m[0]| >= 2 && |m[1]| >= 2
  }

  /** The reordering in place when the corners exist: only the four corner cells move. */
  function SwapCorners(m: Matrix): (f: Matrix)
    requires HasCorners(m)
    ensures |f| == |m| && forall i :: 0 <= i < |m| ==> |f[i]| == |m[i]|
    ensures forall i, j :: 0 <= i < 2 && 0 <= j < 2 ==> f[i][j] == m[1 - i][1 - j]
    ensures forall i, j :: 0 <= i < |m| && 0 <= j < |m[i]| && (i >= 2 || j >= 2) ==> f[i][j] == m[i][j]
  {
    m[0 := m[0][0 := m[1][1]][1 := m[1][0]]][1 := m[1][0 := m[0][1]][1 := m[0][0]]]
  }

  /** On a 2 x 2 matrix the in-place exchange is the reordering. */
  lemma SwapCornersIsFlip(m: Matrix)
    requires Square(2, m)
    ensures SwapCorners(m) == Flip(m)
  {
    var f, g := SwapCorners(m), Flip(m);
    assert f[0] == [g[0][0], g[0][1]] == g[0];
    assert f[1] == [g[1][0], g[1][1]] == g[1];
  }

  /**
   * The checks in the order Configure runs them: axes, then the
   * reordering, which indexes the matrix before its shape is checked, then
   * CheckMatrix on the reordered matrix.
   */
  function StiChecksAsWritten(axes: seq<string>, m: Matrix): (r: StiOutcome)
    ensures r == StiRejected(AxesNotTrueFalse) <==> !TrueFalse(UpperAll(axes))
    ensures r == StiOutOfRange <==> TrueFalse(UpperAll(axes)) && UpperAll(axes)[0] == "TRUE" && !HasCorners(m)
    ensures r.StiAccepted? ==> r.config.axes == ["FALSE", "TRUE"] && MatrixOk(2, r.config.matrix)
  {
    var up := UpperAll(axes);
    TrueFalseIsPair(up);
    if !TrueFalse(up) then StiRejected(AxesNotTrueFalse)
    else if up[0] == "TRUE" && !HasCorners(m) then StiOutOfRange
    else
      var m2 := if up[0] == "TRUE" then SwapCorners(m) else m;
      var axes2 := if up[0] == "TRUE" then ["FALSE", "TRUE"] else up;
      match MatrixVerdict(2, m2)
      case Some(e) => StiRejected(e)
      case None => StiAccepted(Canonical(axes2, m2))
  }

  /** Axes TRUE, FALSE with a 1 x 1 matrix: the reordering reads row 1, which does not exist. */
  lemma StiAsWrittenReadsOutOfRange()
    ensures StiChecksAsWritten(["TRUE", "FALSE"], [[1.0]]) == StiOutOfRange
  {
    var up := UpperAll(["TRUE", "FALSE"]);
    assert up[0] == ToUpper("TRUE") == "TRUE";
    assert up[1] == ToUpper("FALSE") == "FALSE";
    assert TrueFalse(up);
  }

  /**
   * The corrected order: the matrix shape is checked before the reordering
   * reads its corners; the rest runs as written, so an all-zero row or
   * column is reported at its index in the reordered matrix.
   */
  function StiChecks(axes: seq<string>, m: Matrix): (r: StiOutcome)
    ensures r != StiOutOfRange
    ensures r.StiAccepted? <==> TrueFalse(UpperAll(axes)) && MatrixOk(2, m)
    ensures r.StiAccepted? ==> r.config == SortFalseTrue(UpperAll(axes), m) && MatrixOk(2, r.config.matrix)
    ensures r == StiRejected(AxesNotTrueFalse) <==> !TrueFalse(UpperAll(axes))
    ensures r == StiRejected(MatrixNotSquare) <==> TrueFalse(UpperAll(axes)) && !Square(2, m)
  {
    var up := UpperAll(axes);
    if !TrueFalse(up) then StiRejected(AxesNotTrueFalse)
    else if !Square(2, m) then StiRejected(MatrixNotSquare)
    else
      var c := SortFalseTrue(up, m);
      TrueFalseIsPair(up);
      FlipKeepsMatrixOk(m);
      match MatrixVerdict(2, c.matrix)
      case Some(e) => StiRejected(e)
      case None => StiAccepted(c)
  }

  /**
   * Wherever the checks as written do not read out of range, the corrected
   * order gives exactly the same outcome: the same error, or the same
   * canonical axes and matrix.
   */
  lemma CorrectedStiChecksAgree(axes: seq<string>, m: Matrix)
    requires StiChecksAsWritten(axes, m) != StiOutOfRange
    ensures StiChecksAsWritten(axes, m) == StiChecks(axes, m)
  {
    var up := UpperAll(axes);
    if TrueFalse(up) {
      TrueFalseIsPair(up);
      if up[0] == "TRUE" {
        if Square(2, m) {
          SwapCornersIsFlip(m);
        } else {
          assert !Square(2, SwapCorners(m));
        }
      }
    }
  }

  /**
   * An all-zero row is reported at its index after the reordering: axes
   * TRUE, FALSE with rows [0, 0] and [1, 1] report row 1, in both orders.
   */
  lemma StiReportsSortedRow()
    ensures StiChecks(["TRUE", "FALSE"], [[0.0, 0.0], [1.0, 1.0]]) == StiRejected(AllZeroRow(1))
    ensures StiChecksAsWritten(["TRUE", "FALSE"], [[0.0, 0.0], [1.0, 1.0]]) == StiRejected(AllZeroRow(1))
  {
    var up := UpperAll(["TRUE", "FALSE"]);
    assert up[0] == ToUpper("TRUE") == "TRUE";
    assert up[1] == ToUpper("FALSE") == "FALSE";
    assert up == ["TRUE", "FALSE"];
    var f := Flip([[0.0, 0.0], [1.0, 1.0]]);
    assert f == [[1.0, 1.0], [0.0, 0.0]];
    assert RowPositive(f, 0) by { assert f[0][0] > 0.0; }
    assert ColumnPositive(f, 0) by { assert f[0][0] > 0.0; }
    assert !RowPositive(f, 1);
    assert MatrixVerdict(2, f) == Some(AllZeroRow(1));
    CorrectedStiChecksAgree(["TRUE", "FALSE"], [[0.0, 0.0], [1.0, 1.0]]);
  }
}
