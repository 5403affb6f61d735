/**
 * The two migration-info factories. The file factory reads a node's rate
 * data from every migration file and picks the strategy; the default factory
 * connects every node of an n x n torus to its eight neighbours.
 */
module MigrationFactory {
  import opened Results
  import opened MigrationRates
  import opened MigrationInfo
  import opened MigrationFile

  // ------------------------------------------------------------------
  // MigrationInfoFactoryFile
  // ------------------------------------------------------------------

  /** The file has rate data for the node: it is enabled and lists the node. */
  predicate ListsNode(f: MigrationInfoFile, fromNode: NodeId)
    reads f
  {
    f.isEnabled && fromNode in f.offsets
  }

  /** ReadData of one file, as a function of the file's state. */
  function ReadOf(f: MigrationInfoFile, fromNode: NodeId, data: seq<seq<MigrationRateData>>)
    : Result<(bool, seq<seq<MigrationRateData>>), FileError>
    reads f
    requires RateDataShape(data)
  {
    ReadDataSpec(f.CurrentLayout(), f.stream, f.modifier, f.migrationType, f.isEnabled, fromNode, data)
  }

  /**
   * The reads of files in list order, each into the data the ones before it
   * produced, the fixed-rate flag and-ed with each file's answer; the first
   * exception ends the reading.
   */
  function ReadAll(files: seq<MigrationInfoFile>, fromNode: NodeId, fixed: bool, data: seq<seq<MigrationRateData>>)
    : (r: Result<(bool, seq<seq<MigrationRateData>>), FileError>)
    reads files
    requires RateDataShape(data)
    ensures r.Ok? ==> RateDataShape(r.value.1)
    decreases |files|
  {
    if files == [] then Ok((fixed, data))
    else match ReadOf(files[0], fromNode, data)
      case Err(e) => Err(e)
      case Ok((f, d)) => ReadAll(files[1..], fromNode, fixed && f, d)
  }

  /**
   * MigrationInfoFactoryFile::GetRateData: every file is read, whatever the
   * files before it answered, and the answers are and-ed.
   */
  method GetRateData(files: seq<MigrationInfoFile>, fromNode: NodeId)
    returns (r: Result<(bool, seq<seq<MigrationRateData>>), FileError>)
    ensures r == ReadAll(files, fromNode, true, [])
  {
    var isFixedRate := true;
    var rateData: seq<seq<MigrationRateData>> := [];
    var i := 0;
    while i < |files|
      invariant 0 <= i <= |files| && RateDataShape(rateData)
      invariant ReadAll(files, fromNode, true, []) == ReadAll(files[i..], fromNode, isFixedRate, rateData)
    {
      assert files[i..][1..] == files[i + 1..];
      var read := files[i].ReadData(fromNode, rateData);
      if read.Err? {
        return Err(read.error);
      }
      isFixedRate := isFixedRate && read.value.0;
      rateData := read.value.1;
      i := i + 1;
    }
    assert files[i..] == [];
    return Ok((isFixedRate, rateData));
  }

  /**
   * The data stays empty exactly when it was empty and no file lists the
   * node; a file that lists the node creates both gender lists.
   */
  lemma {:induction false} NoDataIffNoFileListsNode(files: seq<MigrationInfoFile>, fromNode: NodeId, fixed: bool,
                                                    data: seq<seq<MigrationRateData>>)
    requires RateDataShape(data)
    requires ReadAll(files, fromNode, fixed, data).Ok?
    ensures var d := ReadAll(files, fromNode, fixed, data).value.1;
            (|d| == 0 <==> |data| == 0 && forall i :: 0 <= i < |files| ==> !ListsNode(files[i], fromNode))
    decreases |files|
  {
    if files != [] {
      var d := ReadOf(files[0], fromNode, data).value.1;
      assert |d| == 0 <==> |data| == 0 && !ListsNode(files[0], fromNode);
      NoDataIffNoFileListsNode(files[1..], fromNode, fixed && ReadOf(files[0], fromNode, data).value.0, d);
      assert forall i :: 1 <= i < |files| ==> files[i] == files[1..][i - 1];
    }
  }

  /** The layout of every file that lists the node is fixed-rate. */
  predicate AllListingFixed(files: seq<MigrationInfoFile>, fromNode: NodeId)
    reads files
  {
    forall i :: 0 <= i < |files| && ListsNode(files[i], fromNode) ==> IsFixedRate(files[i].CurrentLayout())
  }

  /**
   * The flag is the logical and of the flag passed in and the answers of all
   * files: a file that does not list the node answers true, one that does
   * answers whether its layout is fixed-rate.
   */
  lemma {:induction false} FixedIffAllListingFixed(files: seq<MigrationInfoFile>, fromNode: NodeId, fixed: bool,
                                                   data: seq<seq<MigrationRateData>>)
    requires RateDataShape(data)
    requires ReadAll(files, fromNode, fixed, data).Ok?
    ensures ReadAll(files, fromNode, fixed, data).value.0 <==> fixed && AllListingFixed(files, fromNode)
    decreases |files|
  {
    if files != [] {
      var step := ReadOf(files[0], fromNode, data).value;
      assert step.0 <==> !ListsNode(files[0], fromNode) || IsFixedRate(files[0].CurrentLayout());
      FixedIffAllListingFixed(files[1..], fromNode, fixed && step.0, step.1);
      assert forall i :: 1 <= i < |files| ==> files[i] == files[1..][i - 1];
      assert AllListingFixed(files, fromNode) <==>
        (!ListsNode(files[0], fromNode) || IsFixedRate(files[0].CurrentLayout())) && AllListingFixed(files[1..], fromNode);
    }
  }

  /**
   * When all files answer fixed-rate, every destination of the data holds a
   * single sample, as MigrationInfoFixedRate::Initialize asserts.
   */
  lemma {:induction false} FixedDataSingleSampled(files: seq<MigrationInfoFile>, fromNode: NodeId, fixed: bool,
                                                  data: seq<seq<MigrationRateData>>)
    requires RateDataShape(data) && SingleSampled(data)
    requires ReadAll(files, fromNode, fixed, data).Ok?
    requires ReadAll(files, fromNode, fixed, data).value.0
    ensures SingleSampled(ReadAll(files, fromNode, fixed, data).value.1)
    decreases |files|
  {
    if files != [] {
      var f := files[0];
      var step := ReadOf(f, fromNode, data).value;
      FixedIffAllListingFixed(files[1..], fromNode, fixed && step.0, step.1);
      FixedReadKeepsSingleSamples(f.CurrentLayout(), f.stream, f.modifier, f.migrationType, f.isEnabled, fromNode, data);
      FixedDataSingleSampled(files[1..], fromNode, fixed && step.0, step.1);
    }
  }

  /**
   * MigrationInfoFactoryFile::CreateMigrationInfo: Null when no file has
   * data for the node, FixedRate when every file answered fixed-rate, and
   * AgeAndGender otherwise; a file's exception is passed on.
   */
  method CreateMigrationInfo(files: seq<MigrationInfoFile>, fromNode: NodeId) returns (r: Result<Strategy, FileError>)
    ensures ReadAll(files, fromNode, true, []).Err? ==> r == Err(ReadAll(files, fromNode, true, []).error)
    ensures ReadAll(files, fromNode, true, []).Ok? ==>
      var (fixed, data) := ReadAll(files, fromNode, true, []).value;
      && r.Ok? && r.value.Valid()
      && (r.value.Null? <==> forall i :: 0 <= i < |files| ==> !ListsNode(files[i], fromNode))
      && (r.value.FixedRate? <==> |data| > 0 && AllListingFixed(files, fromNode))
      && (r.value.FixedRate? ==>
            && fresh(r.value.fixed)
            && r.value.fixed.reachableNodes == Destinations(data[0])
            && r.value.fixed.migrationTypes == Types(data[0])
            && r.value.fixed.rawRates == RatesAt(data[0], 0.0))
      && (r.value.AgeAndGender? ==> fresh(r.value.varying) && r.value.varying.rateData == data)
  {
    var read := GetRateData(files, fromNode);
    if read.Err? {
      return Err(read.error);
    }
    var (isFixedRate, rateData) := read.value;
    assert |rateData| == 0 <==> forall i :: 0 <= i < |files| ==> !ListsNode(files[i], fromNode) by {
      NoDataIffNoFileListsNode(files, fromNode, true, []);
    }
    assert isFixedRate <==> AllListingFixed(files, fromNode) by {
      FixedIffAllListingFixed(files, fromNode, true, []);
    }
    if |rateData| > 0 {
      if isFixedRate {
        assert OneSampleEach(rateData[0]) by {
          FixedDataSingleSampled(files, fromNode, true, []);
        }
        var s := NewFixedRate(rateData);
        return Ok(s);
      } else {
        var s := NewAgeAndGender(rateData);
        return Ok(s);
      }
    }
    return Ok(Null);
  }

  /** A fresh fixed-rate strategy initialised from the male list of single-sample rate data. */
  method NewFixedRate(data: seq<seq<MigrationRateData>>) returns (s: Strategy)
    requires TwoReadable(data) && OneSampleEach(data[0])
    ensures s.FixedRate? && fresh(s.fixed) && s.Valid()
    ensures s.fixed.reachableNodes == Destinations(data[0])
    ensures s.fixed.migrationTypes == Types(data[0])
    ensures s.fixed.rawRates == RatesAt(data[0], 0.0)
  {
    var mifr := new MigrationInfoFixedRate();
    mifr.Initialize(data);
    s := FixedRate(mifr);
  }

  /** A fresh age-and-gender strategy holding both gender lists of the rate data. */
  method NewAgeAndGender(data: seq<seq<MigrationRateData>>) returns (s: Strategy)
    requires TwoReadable(data)
    ensures s.AgeAndGender? && fresh(s.varying) && s.Valid() && s.varying.rateData == data
  {
    var miag := new MigrationInfoAgeAndGender();
    miag.Initialize(data);
    s := AgeAndGender(miag);
  }

  // ------------------------------------------------------------------
  // MigrationInfoFactoryDefault: the torus
  // ------------------------------------------------------------------

  const MAX_LOCAL_MIGRATION_DESTINATIONS: nat := 8

  /** On average a person goes to one of the eight neighbours every ten days. */
  const BASIC_RATE: real := 1.0 / (MAX_LOCAL_MIGRATION_DESTINATIONS as real) / 10.0

  /**
   * The id offsets of the eight neighbours of node id on an n x n grid
   * numbered row by row from 1, corrected at the grid's edges so that they
   * wrap around to the opposite edge.
   */
  function TorusOffsets(n: int, id: nat): (o: seq<int>)
    requires n >= 1
    ensures |o| == 8
    ensures 1 < id % n && id > n && id <= n * (n - 1) ==> o == [-(n + 1), -n, -(n - 1), -1, 1, n - 1, n, n + 1]
  {
    CorrectedOffsets(n, n * n, id % n == 1, id % n == 0, id <= n, id > n * (n - 1))
  }

  /**
   * The eight offsets, corrected by the grid size n at the left or else the
   * right edge and by the grid area at the top or else the bottom edge.
   */
  function CorrectedOffsets(n: int, area: int, left: bool, right: bool, top: bool, bottom: bool): (o: seq<int>)
    ensures |o| == 8
    ensures forall k :: 0 <= k < 8 ==> o[k] == EdgeOffset(n, area, k, left, !left && right, top, !top && bottom)
  {
    var o := [-(n + 1), -n, -(n - 1), -1, 1, n - 1, n, n + 1];
    var o1 :=
      if left then o[0 := o[0] + n][3 := o[3] + n][5 := o[5] + n]
      else if right then o[2 := o[2] - n][4 := o[4] - n][7 := o[7] - n]
      else o;
    if top then o1[0 := o1[0] + area][1 := o1[1] + area][2 := o1[2] + area]
    else if bottom then o1[5 := o1[5] - area][6 := o1[6] - area][7 := o1[7] - area]
    else o1
  }

  function TorusNeighbours(n: int, id: nat): (nb: seq<int>)
    requires n >= 1
    ensures |nb| == 8
    ensures forall k :: 0 <= k < 8 ==> nb[k] - id == TorusOffsets(n, id)[k]
  {
    var o := TorusOffsets(n, id);
    seq(8, k requires 0 <= k < 8 => id + o[k])
  }

  predicate OnTorus(n: int, x: int)
  {
    1 <= x <= n * n
  }

  /** The destination of one torus neighbour: local, linear, one sample at MAX_HUMAN_AGE. */
  function TorusEntry(to: NodeId, modifier: real): (d: MigrationRateData)
    ensures d.Valid() && d.toNode == to && d.migType == LocalMigration && d.interpType == LinearInterpolation
    ensures d.samples == [Sample(MAX_HUMAN_AGE, BASIC_RATE * modifier)]
  {
    assert !HasAge([], MAX_HUMAN_AGE);
    AddRate(NewRateData(to, LocalMigration, LinearInterpolation), MAX_HUMAN_AGE, BASIC_RATE * modifier)
  }

  /**
   * MigrationInfoFactoryDefault::GetRateData: one list with the eight
   * neighbours in offset order, or the index of the first neighbour whose id
   * falls outside 1..n*n, where the source's assertion stops the program.
   */
  method TorusRateData(n: int, id: nat, modifier: real) returns (r: Result<seq<seq<MigrationRateData>>, nat>)
    requires n >= 1
    ensures r.Err? ==> r.error < 8 && !OnTorus(n, TorusNeighbours(n, id)[r.error]) &&
                       forall k :: 0 <= k < r.error ==> OnTorus(n, TorusNeighbours(n, id)[k])
    ensures r.Ok? ==>
      && |r.value| == 1 && |r.value[0]| == 8
      && forall k :: 0 <= k < 8 ==>
           OnTorus(n, TorusNeighbours(n, id)[k]) && r.value[0][k] == TorusEntry(TorusNeighbours(n, id)[k] as nat, modifier)
  {
    var offsets := TorusOffsets(n, id);
    var neighbours := TorusNeighbours(n, id);
    var list: seq<MigrationRateData> := [];
    var i := 0;
    while i < MAX_LOCAL_MIGRATION_DESTINATIONS
      invariant 0 <= i <= 8 && |list| == i
      invariant forall k :: 0 <= k < i ==> OnTorus(n, neighbours[k]) && list[k] == TorusEntry(neighbours[k] as nat, modifier)
    {
      var toNode := id + offsets[i];
      if !(toNode >= 1 && toNode <= n * n) {
        return Err(i);
      }
      list := list + [TorusEntry(toNode, modifier)];
      i := i + 1;
    }
    return Ok([list]);
  }

  /** The node in row r and column c (both from 0) of the n x n grid. */
  function Cell(n: int, r: int, c: int): int
  {
    r * n + c + 1
  }

  /** Row and column moved by -1, 0 or +1, wrapped around the torus. */
  function Wrap(n: int, x: int): int
  {
    if x < 0 then x + n else if x >= n then x - n else x
  }

  /** The row and column steps of the eight neighbours, in offset order. */
  const ROW_STEP: seq<int> := [-1, -1, -1, 0, 0, 1, 1, 1]
  const COL_STEP: seq<int> := [-1, 0, 1, -1, 1, -1, 0, 1]

  lemma {:induction false} MulLe(a: int, b: int, n: int)
    requires a <= b && n >= 0
    ensures a * n <= b * n
    decreases b - a
  {
    if a < b {
      MulLe(a + 1, b, n);
      assert (a + 1) * n == a * n + n;
    }
  }

  lemma DivModUnique(x: int, n: int, q: int, b: int)
    requires n > 0 && 0 <= b < n && x == q * n + b
    ensures x % n == b && x / n == q
  {
    var q', b' := x / n, x % n;
    var d := q - q';
    assert d * n == q * n - q' * n;
    assert d * n == b' - b;
    if d >= 1 {
      MulLe(1, d, n);
    } else if d <= -1 {
      MulLe(d, -1, n);
    }
  }

  lemma CellInside(n: int, r: int, c: int)
    requires 0 <= r < n && 0 <= c < n
    ensures 1 <= Cell(n, r, c) <= n * n
  {
    MulLe(r, n - 1, n);
    MulLe(0, r, n);
    assert (n - 1) * n + n == n * n;
  }

  /**
   * The edge tests of the source on node id = Cell(n, r, c): left edge is
   * column 0, right edge column n-1, top edge row 0, bottom edge row n-1.
   */
  lemma EdgeTests(n: int, id: nat, r: int, c: int)
    requires n >= 2 && 0 <= r < n && 0 <= c < n && id == Cell(n, r, c)
    ensures id % n == 1 <==> c == 0
    ensures id % n == 0 <==> c == n - 1
    ensures id <= n <==> r == 0
    ensures id > n * (n - 1) <==> r == n - 1
  {
    if c + 1 < n {
      DivModUnique(id, n, r, c + 1);
    } else {
      DivModUnique(id, n, r + 1, 0);
    }
    MulLe(0, r, n);
    if r >= 1 {
      MulLe(1, r, n);
    }
    assert n * (n - 1) == (n - 1) * n == (n - 2) * n + n;
    if r <= n - 2 {
      MulLe(r, n - 2, n);
    }
  }

  /**
   * On a torus of side at least 2, the k-th neighbour of the node in row r
   * and column c is the node one step in direction k, wrapped around the
   * edges; in particular every neighbour lies in 1..n*n.
   */
  lemma TorusNeighboursWrap(n: int, id: nat)
    requires n >= 2 && 1 <= id <= n * n
    ensures var r, c := (id - 1) / n, (id - 1) % n;
            forall k :: 0 <= k < 8 ==>
              TorusNeighbours(n, id)[k] == Cell(n, Wrap(n, r + ROW_STEP[k]), Wrap(n, c + COL_STEP[k]))
    ensures forall k :: 0 <= k < 8 ==> OnTorus(n, TorusNeighbours(n, id)[k])
  {
    var r, c := (id - 1) / n, (id - 1) % n;
    assert r < n by {
      if r >= n {
        MulLe(n, r, n);
      }
    }
    assert id == Cell(n, r, c);
    forall k | 0 <= k < 8
      ensures TorusNeighbours(n, id)[k] == Cell(n, Wrap(n, r + ROW_STEP[k]), Wrap(n, c + COL_STEP[k]))
      ensures OnTorus(n, TorusNeighbours(n, id)[k])
    {
      NeighbourWraps(n, id, r, c, k);
    }
  }

  /** A step of d (-1, 0 or +1) rows or columns, as a change of node id per unit u. */
  function Step(d: int, u: int): int
  {
    if d < 0 then -u else if d > 0 then u else 0
  }

  /**
   * The k-th offset written by direction: the row and column steps plus the
   * wrap corrections at the edges the source tests.
   */
  function EdgeOffset(n: int, area: int, k: int, left: bool, right: bool, top: bool, bottom: bool): int
    requires 0 <= k < 8
  {
    var dr, dc := ROW_STEP[k], COL_STEP[k];
    Step(dr, n) + dc
      + (if left && dc < 0 then n else if right && dc > 0 then -n else 0)
      + (if top && dr < 0 then area else if bottom && dr > 0 then -area else 0)
  }

  lemma OffsetsByEdges(n: int, area: int, k: int, left: bool, right: bool, top: bool, bottom: bool)
    requires 0 <= k < 8
    ensures CorrectedOffsets(n, area, left, right, top, bottom)[k]
         == EdgeOffset(n, area, k, left, !left && right, top, !top && bottom)
  {
  }

  /** One neighbour of the node in row r and column c: the wrapped step in direction k. */
  lemma NeighbourWraps(n: int, id: nat, r: int, c: int, k: int)
    requires n >= 2 && 0 <= r < n && 0 <= c < n && id == Cell(n, r, c) && 0 <= k < 8
    ensures TorusNeighbours(n, id)[k] == Cell(n, Wrap(n, r + ROW_STEP[k]), Wrap(n, c + COL_STEP[k]))
    ensures OnTorus(n, TorusNeighbours(n, id)[k])
  {
    NeighbourOffset(n, id, r, c, k);
    WrappedCell(n, r, c, k);
    CellInside(n, Wrap(n, r + ROW_STEP[k]), Wrap(n, c + COL_STEP[k]));
  }

  /** The offset the source adds for direction k, in terms of the row and column of the node. */
  lemma NeighbourOffset(n: int, id: nat, r: int, c: int, k: int)
    requires n >= 2 && 0 <= r < n && 0 <= c < n && id == Cell(n, r, c) && 0 <= k < 8
    ensures TorusNeighbours(n, id)[k] == id + EdgeOffset(n, n * n, k, c == 0, c == n - 1, r == 0, r == n - 1)
  {
    EdgeTests(n, id, r, c);
    OffsetsByEdges(n, n * n, k, id % n == 1, id % n == 0, id <= n, id > n * (n - 1));
  }

  /** The cell one wrapped step away in direction k differs from Cell(n, r, c) by that offset. */
  lemma WrappedCell(n: int, r: int, c: int, k: int)
    requires n >= 2 && 0 <= r < n && 0 <= c < n && 0 <= k < 8
    ensures Cell(n, Wrap(n, r + ROW_STEP[k]), Wrap(n, c + COL_STEP[k]))
         == Cell(n, r, c) + EdgeOffset(n, n * n, k, c == 0, c == n - 1, r == 0, r == n - 1)
  {
    var dr, dc := ROW_STEP[k], COL_STEP[k];
    assert Wrap(n, c + dc) == c + dc + (if c == 0 && dc < 0 then n else if c == n - 1 && dc > 0 then -n else 0);
    RowTimesSide(n, r, dr);
  }

  /** r' * n for the wrapped row r' of row r moved by dr. */
  lemma RowTimesSide(n: int, r: int, dr: int)
    requires n >= 2 && 0 <= r < n && -1 <= dr <= 1
    ensures Wrap(n, r + dr) * n == r * n + Step(dr, n)
      + (if r == 0 && dr < 0 then n * n else if r == n - 1 && dr > 0 then -(n * n) else 0)
  {
    assert (r + dr) * n == r * n + Step(dr, n);
    if r == 0 && dr < 0 {
      assert (n - 1) * n == n * n - n;
    } else if r == n - 1 && dr > 0 {
      assert r * n == n * n - n;
    }
  }

  /** A torus of side 1 has no room for neighbours: the first one is node 0. */
  lemma TorusOfOneFails()
    ensures TorusNeighbours(1, 1)[0] == 0 && !OnTorus(1, 0)
  {
  }

  /**
   * MigrationInfoFactoryDefault::CreateMigrationInfo: the rate data is built
   * first (its assertion can stop the program even when local migration is
   * off), then a FixedRate strategy over it, or Null when local migration is
   * disabled.
   */
  method CreateMigrationInfoDefault(n: int, id: nat, enableLocal: bool, modifier: real)
    returns (r: Result<Strategy, nat>)
    requires n >= 1
    ensures r.Err? <==> exists k :: 0 <= k < 8 && !OnTorus(n, TorusNeighbours(n, id)[k])
    ensures r.Ok? ==> r.value.Valid() && (r.value.FixedRate? <==> enableLocal) && (r.value.Null? <==> !enableLocal)
    ensures r.Ok? && enableLocal ==>
      && fresh(r.value.fixed)
      && |r.value.fixed.reachableNodes| == 8
      && (forall k :: 0 <= k < 8 ==> r.value.fixed.reachableNodes[k] == TorusNeighbours(n, id)[k])
      && (forall k :: 0 <= k < 8 ==> r.value.fixed.migrationTypes[k] == LocalMigration)
      && (forall k :: 0 <= k < 8 ==> r.value.fixed.rawRates[k] == BASIC_RATE * modifier)
  {
    var rateData := TorusRateData(n, id, modifier);
    if rateData.Err? {
      return Err(rateData.error);
    }
    if enableLocal {
      var mifr := new MigrationInfoFixedRate();
      mifr.Initialize(rateData.value);
      return Ok(FixedRate(mifr));
    }
    return Ok(Null);
  }
}
