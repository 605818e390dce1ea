/** Dense integer matrices (the C# `int[,]`), their row-major layout, and the
    sums the transportation model needs. */
module Grid {

  /** A dense matrix: `cells` lists the rows. `width` is kept apart from the
      rows because a matrix with no rows still has a number of columns
      (`new int[0, 5]`). */
  datatype Matrix = Matrix(cells: seq<seq<int>>, width: nat) {
    function Height(): nat { |cells| }

    /** Every row has exactly `width` entries, as for any `int[,]`. */
    predicate WellFormed() { Rectangular(cells, width) }

    predicate InBounds(i: int, j: int) { 0 <= i < |cells| && 0 <= j < width }
  }

  predicate Rectangular(rows: seq<seq<int>>, width: nat) {
    forall i :: 0 <= i < |rows| ==> |rows[i]| == width
  }

  function Zeros(n: nat): (r: seq<int>)
    ensures |r| == n
    ensures forall k :: 0 <= k < n ==> r[k] == 0
  {
    seq(n, _ => 0)
  }

  /** The `height` by `width` matrix of zeros, as `new int[height, width]`. */
  function ZeroMatrix(height: nat, width: nat): (r: Matrix)
    ensures r.WellFormed() && r.Height() == height && r.width == width
    ensures forall i, j :: r.InBounds(i, j) ==> r.cells[i][j] == 0
  {
    Matrix(seq(height, _ => Zeros(width)), width)
  }

  predicate NonNegative(s: seq<int>) {
    forall k :: 0 <= k < |s| ==> s[k] >= 0
  }

  predicate AllZero(s: seq<int>) {
    forall k :: 0 <= k < |s| ==> s[k] == 0
  }

  function Min(a: int, b: int): int { if a <= b then a else b }

  // ---------------------------------------------------------------------
  // Sums

  /** The sum of a sequence, taken from the back so that appending is one step. */
  function Sum(s: seq<int>): int
    decreases |s|
  {
    if |s| == 0 then 0 else Sum(s[..|s| - 1]) + s[|s| - 1]
  }

  lemma SumAppend(s: seq<int>, x: int)
    ensures Sum(s + [x]) == Sum(s) + x
  {
    assert (s + [x])[..|s|] == s;
  }

  /** Changing one entry changes the sum by the difference. */
  lemma {:induction false} SumUpdate(s: seq<int>, k: nat, v: int)
    requires k < |s|
    ensures Sum(s[k := v]) == Sum(s) - s[k] + v
    decreases |s|
  {
    var n := |s| - 1;
    if k < n {
      assert s[k := v][..n] == s[..n][k := v];
      SumUpdate(s[..n], k, v);
    } else {
      assert s[k := v][..n] == s[..n];
    }
  }

  lemma {:induction false} SumZeros(n: nat)
    ensures Sum(Zeros(n)) == 0
  {
    if n > 0 {
      assert Zeros(n)[..n - 1] == Zeros(n - 1);
      SumZeros(n - 1);
    }
  }

  /** A non-negative sequence sums to zero only if every entry is zero. */
  lemma {:induction false} SumZeroNonNegative(s: seq<int>)
    requires NonNegative(s)
    ensures Sum(s) >= 0
    ensures Sum(s) == 0 <==> AllZero(s)
    decreases |s|
  {
    if |s| > 0 {
      var n := |s| - 1;
      assert NonNegative(s[..n]);
      SumZeroNonNegative(s[..n]);
      if Sum(s) == 0 {
        forall k | 0 <= k < |s| ensures s[k] == 0 {
          if k < n { assert s[k] == s[..n][k]; }
        }
      }
      if AllZero(s) {
        assert AllZero(s[..n]);
      }
    }
  }

  lemma {:induction false} SumAllZero(s: seq<int>)
    requires AllZero(s)
    ensures Sum(s) == 0
    decreases |s|
  {
    if |s| > 0 {
      assert AllZero(s[..|s| - 1]);
      SumAllZero(s[..|s| - 1]);
    }
  }

  /** Column `j` of a rectangular grid, top to bottom. */
  function Column(rows: seq<seq<int>>, j: nat): (r: seq<int>)
    requires forall i :: 0 <= i < |rows| ==> j < |rows[i]|
    ensures |r| == |rows|
    ensures forall i :: 0 <= i < |rows| ==> r[i] == rows[i][j]
  {
    seq(|rows|, i requires 0 <= i < |rows| => rows[i][j])
  }

  /** The number of strictly positive entries. */
  function Positives(s: seq<int>): (r: nat)
    ensures r <= |s|
    decreases |s|
  {
    if |s| == 0 then 0 else Positives(s[..|s| - 1]) + (if s[|s| - 1] > 0 then 1 else 0)
  }

  lemma {:induction false} PositivesUpdate(s: seq<int>, k: nat, v: int)
    requires k < |s|
    ensures Positives(s[k := v]) == Positives(s) - (if s[k] > 0 then 1 else 0) + (if v > 0 then 1 else 0)
    decreases |s|
  {
    var n := |s| - 1;
    if k < n {
      assert s[k := v][..n] == s[..n][k := v];
      PositivesUpdate(s[..n], k, v);
    } else {
      assert s[k := v][..n] == s[..n];
    }
  }

  // ---------------------------------------------------------------------
  // Row-major layout

  /** The row-major position of cell (i, j) in a grid `width` wide, that is
      i * width + j, defined by repeated addition so that the solver never
      reasons about a product of two unknowns. */
  function Pos(width: nat, i: nat, j: nat): nat
    decreases i
  {
    if i == 0 then j else width + Pos(width, i - 1, j)
  }

  lemma {:induction false} PosIsProduct(width: nat, i: nat, j: nat)
    ensures Pos(width, i, j) == i * width + j
    decreases i
  {
    if i > 0 {
      PosIsProduct(width, i - 1, j);
      assert i * width == width + (i - 1) * width;
    }
  }

  /** Positions of distinct cells of a `height` by `width` grid are below
      Pos(width, height, 0), the number of cells. */
  lemma {:induction false} PosInRange(width: nat, height: nat, i: nat, j: nat)
    requires i < height && j < width
    ensures Pos(width, i, j) < Pos(width, height, 0)
    decreases height
  {
    if i + 1 < height {
      PosInRange(width, height - 1, i, j);
    } else {
      PosShift(width, i, j);
    }
  }

  lemma {:induction false} PosShift(width: nat, i: nat, j: nat)
    ensures Pos(width, i, j) == Pos(width, i, 0) + j
    decreases i
  {
    if i > 0 { PosShift(width, i - 1, j); }
  }

  /** A wider grid of the same height has at least as many cells. */
  lemma {:induction false} PosWider(width: nat, wider: nat, height: nat)
    requires width <= wider
    ensures Pos(width, height, 0) <= Pos(wider, height, 0)
    decreases height
  {
    if height > 0 { PosWider(width, wider, height - 1); }
  }

  /** The rows laid end to end: how .NET sees a multidimensional array when
      it copies it element by element. */
  function Flatten(rows: seq<seq<int>>): seq<int>
    decreases |rows|
  {
    if |rows| == 0 then [] else rows[0] + Flatten(rows[1..])
  }

  lemma {:induction false} FlattenLength(rows: seq<seq<int>>, width: nat)
    requires Rectangular(rows, width)
    ensures |Flatten(rows)| == Pos(width, |rows|, 0)
    decreases |rows|
  {
    if |rows| > 0 {
      assert Rectangular(rows[1..], width);
      FlattenLength(rows[1..], width);
    }
  }

  /** Cell (i, j) of a rectangular grid sits at position Pos(width, i, j) of
      its row-major layout. */
  lemma {:induction false} FlattenIndex(rows: seq<seq<int>>, width: nat, i: nat, j: nat)
    requires Rectangular(rows, width) && i < |rows| && j < width
    ensures Pos(width, i, j) < |Flatten(rows)|
    ensures Flatten(rows)[Pos(width, i, j)] == rows[i][j]
    decreases i
  {
    FlattenLength(rows, width);
    PosInRange(width, |rows|, i, j);
    assert Rectangular(rows[1..], width);
    if i > 0 {
      FlattenIndex(rows[1..], width, i - 1, j);
    }
  }

  /** The inverse of Flatten: cut a run of Pos(width, height, 0) entries into
      `height` rows of `width`. */
  function Reshape(run: seq<int>, width: nat, height: nat): (r: seq<seq<int>>)
    requires |run| == Pos(width, height, 0)
    ensures |r| == height && Rectangular(r, width)
    decreases height
  {
    if height == 0 then []
    else [run[..width]] + Reshape(run[width..], width, height - 1)
  }

  lemma {:induction false} ReshapeIndex(run: seq<int>, width: nat, height: nat, i: nat, j: nat)
    requires |run| == Pos(width, height, 0) && i < height && j < width
    ensures Pos(width, i, j) < |run|
    ensures Reshape(run, width, height)[i][j] == run[Pos(width, i, j)]
    decreases i
  {
    PosInRange(width, height, i, j);
    var rest := run[width..];
    assert Reshape(run, width, height) == [run[..width]] + Reshape(rest, width, height - 1);
    if i > 0 {
      ReshapeIndex(rest, width, height - 1, i - 1, j);
      assert Reshape(run, width, height)[i] == Reshape(rest, width, height - 1)[i - 1];
      assert rest[Pos(width, i - 1, j)] == run[Pos(width, i, j)];
    } else {
      assert Reshape(run, width, height)[0] == run[..width];
    }
  }

  /** Reshape undoes Flatten on a rectangular grid. */
  lemma {:induction false} ReshapeFlatten(rows: seq<seq<int>>, width: nat)
    requires Rectangular(rows, width)
    ensures |Flatten(rows)| == Pos(width, |rows|, 0)
    ensures Reshape(Flatten(rows), width, |rows|) == rows
    decreases |rows|
  {
    FlattenLength(rows, width);
    if |rows| > 0 {
      assert Rectangular(rows[1..], width);
      ReshapeFlatten(rows[1..], width);
      var f := Flatten(rows);
      assert f[..width] == rows[0];
      assert f[width..] == Flatten(rows[1..]);
    }
  }

  /** Reshaping a run padded with zeros: cell (i, j) holds the run's entry at
      flat position Pos(width, i, j), or 0 past its end. */
  lemma PaddedReshape(run: seq<int>, pad: nat, width: nat, height: nat)
    requires |run| + pad == Pos(width, height, 0)
    ensures forall i, j :: 0 <= i < height && 0 <= j < width ==>
              Reshape(run + Zeros(pad), width, height)[i][j]
              == (if Pos(width, i, j) < |run| then run[Pos(width, i, j)] else 0)
  {
    forall i, j | 0 <= i < height && 0 <= j < width
      ensures Reshape(run + Zeros(pad), width, height)[i][j]
              == (if Pos(width, i, j) < |run| then run[Pos(width, i, j)] else 0)
    {
      ReshapeIndex(run + Zeros(pad), width, height, i, j);
    }
  }

  /** `Array.Copy(source, destination, source.Length)` into a freshly
      allocated, zero-filled `height` by `width` destination. .NET copies a
      multidimensional array as one long row-major run, so destination cell
      (i, j) receives the source entry at FLAT position Pos(width, i, j), not
      the source cell (i, j); positions past the source's end stay 0. */
  function CopyIntoFresh(source: Matrix, height: nat, width: nat): (r: Matrix)
    requires source.WellFormed()
    requires Pos(source.width, source.Height(), 0) <= Pos(width, height, 0)
    ensures r.WellFormed() && r.Height() == height && r.width == width
    ensures |Flatten(source.cells)| == Pos(source.width, source.Height(), 0)
    ensures forall i, j :: r.InBounds(i, j) ==>
              r.cells[i][j] == (if Pos(width, i, j) < Pos(source.width, source.Height(), 0)
                                then Flatten(source.cells)[Pos(width, i, j)] else 0)
  {
    var run := Flatten(source.cells);
    FlattenLength(source.cells, source.width);
    var pad: nat := Pos(width, height, 0) - |run|;
    PaddedReshape(run, pad, width, height);
    Matrix(Reshape(run + Zeros(pad), width, height), width)
  }
}
