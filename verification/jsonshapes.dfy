/** The shape conversions around the JSON files: the input file holds the
    cost table as an array of rows (a jagged array, rows possibly of
    different lengths) that is padded into a rectangular matrix for the
    solver, and the result is written back as an array of equal-length
    rows. Reading and writing the files themselves is not modelled. */
module JsonShapes {
  import opened Grid
  import opened Wrappers

  /** The deserialised input document. Each member may be missing from the
      file, which leaves it null. */
  datatype Data = Data(costs: Option<seq<seq<int>>>, supply: Option<seq<int>>, demand: Option<seq<int>>)

  /** The triple handed on to the solver. Supply and demand pass through
      untouched, null included. */
  datatype Arrays = Arrays(costs: Matrix, supply: Option<seq<int>>, demand: Option<seq<int>>)

  /** The length of the longest row. */
  function MaxLength(rows: seq<seq<int>>): (r: nat)
    requires |rows| > 0
    ensures forall i :: 0 <= i < |rows| ==> |rows[i]| <= r
    ensures exists i :: 0 <= i < |rows| && |rows[i]| == r
  {
    if |rows| == 1 then
      |rows[0]|
    else
      var m := MaxLength(rows[1..]);
      assert forall i :: 1 <= i < |rows| ==> rows[i] == rows[1..][i - 1];
      var k :| 0 <= k < |rows[1..]| && |rows[1..][k]| == m;
      assert |rows[k + 1]| == m;
      if |rows[0]| >= m then |rows[0]| else m
  }

  /** Every row has exactly `width` entries. */
  predicate Uniform(rows: seq<seq<int>>, width: nat) {
    forall i :: 0 <= i < |rows| ==> |rows[i]| == width
  }

  /** The copy loop into a fresh zero matrix: each row's entries land at
      their own positions and the rest of the row stays 0. */
  function Pad(rows: seq<seq<int>>, width: nat): (r: Matrix)
    requires forall i :: 0 <= i < |rows| ==> |rows[i]| <= width
    ensures r.WellFormed() && r.Height() == |rows| && r.width == width
    ensures forall i :: 0 <= i < |rows| ==> r.cells[i][..|rows[i]|] == rows[i]
    ensures forall i, j :: 0 <= i < |rows| && |rows[i]| <= j < width ==> r.cells[i][j] == 0
  {
    Matrix(seq(|rows|, i requires 0 <= i < |rows| => rows[i] + Zeros(width - |rows[i]|)), width)
  }

  /** GetArraysFromJsonFile once the file has been parsed: a missing
      document or cost table gives the all-null result, and so does an empty
      cost table, because taking the maximum row length of no rows throws
      and the exception is caught. Otherwise the matrix has one row per
      table row and as many columns as the longest row. */
  function Load(data: Option<Data>): (r: Option<Arrays>)
    ensures r.None? <==> data.None? || data.value.costs.None? || |data.value.costs.value| == 0
    ensures r.Some? ==>
              && r.value.supply == data.value.supply
              && r.value.demand == data.value.demand
              && r.value.costs.WellFormed()
              && r.value.costs.Height() == |data.value.costs.value|
              && (forall i :: 0 <= i < |data.value.costs.value| ==> |data.value.costs.value[i]| <= r.value.costs.width)
              && (exists i :: 0 <= i < |data.value.costs.value| && |data.value.costs.value[i]| == r.value.costs.width)
              && (forall i, j :: r.value.costs.InBounds(i, j) ==>
                    r.value.costs.cells[i][j] == if j < |data.value.costs.value[i]| then data.value.costs.value[i][j] else 0)
  {
    match data
    case None => None
    case Some(d) =>
      match d.costs
      case None => None
      case Some(rows) =>
        if |rows| == 0 then None
        else
          var m := Pad(rows, MaxLength(rows));
          assert forall i, j :: m.InBounds(i, j) && j < |rows[i]| ==> m.cells[i][j] == m.cells[i][..|rows[i]|][j];
          Some(Arrays(m, d.supply, d.demand))
  }

  /** SaveArraysToJsonFile up to serialisation: a null allocation writes
      nothing, any other becomes one row per matrix row, each as wide as the
      matrix. */
  function ToJagged(allocation: Option<Matrix>): (r: Option<seq<seq<int>>>)
    requires allocation.Some? ==> allocation.value.WellFormed()
    ensures r.None? <==> allocation.None?
    ensures r.Some? ==> |r.value| == allocation.value.Height() && Uniform(r.value, allocation.value.width)
    ensures r.Some? ==> forall i, j :: allocation.value.InBounds(i, j) ==> r.value[i][j] == allocation.value.cells[i][j]
  {
    match allocation
    case None => None
    case Some(m) =>
      Some(seq(m.Height(), i requires 0 <= i < m.Height() =>
             seq(m.width, j requires 0 <= j < m.width => m.cells[i][j])))
  }

  /** Saving a matrix and loading the file back gives the same matrix
      exactly when it has a row; with no rows the saved width is lost and the
      load fails. */
  lemma SaveThenLoad(m: Matrix, supply: Option<seq<int>>, demand: Option<seq<int>>)
    requires m.WellFormed()
    ensures var r := Load(Some(Data(ToJagged(Some(m)), supply, demand)));
            (r == Some(Arrays(m, supply, demand))) <==> m.Height() > 0
  {
    var rows := ToJagged(Some(m)).value;
    if m.Height() > 0 {
      var r := Load(Some(Data(Some(rows), supply, demand))).value;
      var k :| 0 <= k < |rows| && |rows[k]| == r.costs.width;
      assert r.costs.width == m.width;
      forall i | 0 <= i < m.Height()
        ensures r.costs.cells[i] == m.cells[i]
      {
        assert forall j :: 0 <= j < m.width ==> r.costs.cells[i][j] == m.cells[i][j];
      }
      assert r.costs.cells == m.cells;
    }
  }

  /** Loading a cost table and saving the matrix gives the table back
      exactly when every row has the same length; shorter rows come back
      padded with zeros. */
  lemma LoadThenSave(rows: seq<seq<int>>, supply: Option<seq<int>>, demand: Option<seq<int>>)
    requires |rows| > 0
    ensures var loaded := Load(Some(Data(Some(rows), supply, demand)));
            && loaded.Some?
            && (ToJagged(Some(loaded.value.costs)) == Some(rows) <==> Uniform(rows, |rows[0]|))
  {
    var m := Load(Some(Data(Some(rows), supply, demand))).value.costs;
    var back := ToJagged(Some(m)).value;
    if Uniform(rows, |rows[0]|) {
      assert m.width == |rows[0]|;
      forall i | 0 <= i < |rows|
        ensures back[i] == rows[i]
      {
        assert forall j :: 0 <= j < |rows[i]| ==> back[i][j] == rows[i][j];
      }
      assert back == rows;
    } else {
      var k :| 0 <= k < |rows| && |rows[k]| != |rows[0]|;
      assert |back[k]| == |back[0]|;
    }
  }
}
