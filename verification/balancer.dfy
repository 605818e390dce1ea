/** Balancing a transportation problem: when total supply and total demand
    differ, one dummy destination (a demand column) or one dummy source (a
    supply row) is appended so that the totals agree. */
module Balancer {
  import opened Grid

  /** The solver's three arrays: cost matrix, supply per source (row) and
      demand per destination (column). Their sizes are not checked against
      each other anywhere in the solver. */
  datatype Problem = Problem(costs: Matrix, supply: seq<int>, demand: seq<int>)

  predicate Balanced(p: Problem) {
    Sum(p.supply) == Sum(p.demand)
  }

  /** The cost matrix agrees with the vectors: one row per source, one
      column per destination. */
  predicate Consistent(p: Problem) {
    p.costs.WellFormed() && p.costs.Height() == |p.supply| && p.costs.width == |p.demand|
  }

  /** The dummy-source branch: a fresh (h+1) by w matrix receives the old
      costs by a flat copy, then its last row is set to 0. Because the width
      is unchanged, every old cell keeps its (i, j). */
  function AddDummyRow(costs: Matrix): (r: Matrix)
    requires costs.WellFormed()
    ensures r.WellFormed()
    ensures r == Matrix(costs.cells + [Zeros(costs.width)], costs.width)
  {
    var h := costs.Height();
    var w := costs.width;
    var copied := CopyIntoFresh(costs, h + 1, w);
    var cells := copied.cells[h := Zeros(w)];
    forall i | 0 <= i < h
      ensures cells[i] == costs.cells[i]
    {
      forall j | 0 <= j < w
        ensures cells[i][j] == costs.cells[i][j]
      {
        PosInRange(w, h, i, j);
        FlattenIndex(costs.cells, w, i, j);
      }
    }
    assert cells == costs.cells + [Zeros(w)];
    Matrix(cells, w)
  }

  /** The dummy-destination branch as the code does it: a fresh h by (w+1)
      matrix receives the old costs by a flat row-major copy, then column w
      is set to 0. Cell (i, j) with j < w therefore holds the old entry at
      flat position Pos(w + 1, i, j) = i * (w + 1) + j, which is the old cell
      (i, j) only in row 0; entries that land in column w are overwritten. */
  function AddDummyColumn(costs: Matrix): (r: Matrix)
    requires costs.WellFormed()
    ensures r.WellFormed() && r.Height() == costs.Height() && r.width == costs.width + 1
    ensures forall i :: 0 <= i < r.Height() ==> r.cells[i][costs.width] == 0
    ensures |Flatten(costs.cells)| == Pos(costs.width, costs.Height(), 0)
    ensures forall i, j :: 0 <= i < r.Height() && 0 <= j < costs.width ==>
              r.cells[i][j] == (if Pos(costs.width + 1, i, j) < Pos(costs.width, costs.Height(), 0)
                                then Flatten(costs.cells)[Pos(costs.width + 1, i, j)] else 0)
  {
    var h := costs.Height();
    var w := costs.width;
    PosWider(w, w + 1, h);
    var copied := CopyIntoFresh(costs, h, w + 1);
    Matrix(seq(h, i requires 0 <= i < h => copied.cells[i][w := 0]), w + 1)
  }

  /** What the dummy-destination branch evidently means to do: append a zero
      column and leave every old cell where it was. */
  function AddDummyColumnIntended(costs: Matrix): (r: Matrix)
    requires costs.WellFormed()
    ensures r.WellFormed() && r.Height() == costs.Height() && r.width == costs.width + 1
    ensures forall i :: 0 <= i < r.Height() ==> r.cells[i][costs.width] == 0
    ensures forall i, j :: costs.InBounds(i, j) ==> r.cells[i][j] == costs.cells[i][j]
  {
    Matrix(seq(costs.Height(), i requires 0 <= i < costs.Height() => costs.cells[i] + [0]), costs.width + 1)
  }

  /** BalanceProblem as written. */
  function Balance(p: Problem): (r: Problem)
    requires p.costs.WellFormed()
    ensures r.costs.WellFormed()
    ensures Balanced(r)
    ensures r == p <==> Balanced(p)
    ensures Sum(p.supply) > Sum(p.demand) ==>
              && r.supply == p.supply
              && r.demand == p.demand + [Sum(p.supply) - Sum(p.demand)]
              && r.costs == AddDummyColumn(p.costs)
    ensures Sum(p.supply) < Sum(p.demand) ==>
              && r.demand == p.demand
              && r.supply == p.supply + [Sum(p.demand) - Sum(p.supply)]
              && r.costs == Matrix(p.costs.cells + [Zeros(p.costs.width)], p.costs.width)
    ensures Consistent(p) ==> Consistent(r)
  {
    var totalSupply := Sum(p.supply);
    var totalDemand := Sum(p.demand);
    if totalSupply == totalDemand then
      p
    else if totalSupply > totalDemand then
      SumAppend(p.demand, totalSupply - totalDemand);
      Problem(AddDummyColumn(p.costs), p.supply, p.demand + [totalSupply - totalDemand])
    else
      SumAppend(p.supply, totalDemand - totalSupply);
      Problem(AddDummyRow(p.costs), p.supply + [totalDemand - totalSupply], p.demand)
  }

  /** Balancing with the dummy column appended position-preservingly. */
  function BalanceIntended(p: Problem): (r: Problem)
    requires p.costs.WellFormed()
    ensures r.costs.WellFormed()
    ensures Balanced(r)
    ensures r.supply == Balance(p).supply && r.demand == Balance(p).demand
    ensures r.costs.Height() >= p.costs.Height() && r.costs.width >= p.costs.width
    ensures Sum(p.supply) == Sum(p.demand) ==> r == p
    ensures Sum(p.supply) > Sum(p.demand) ==>
              r.costs.Height() == p.costs.Height() && r.costs.width == p.costs.width + 1
    ensures Sum(p.supply) < Sum(p.demand) ==>
              r.costs.Height() == p.costs.Height() + 1 && r.costs.width == p.costs.width
    ensures Consistent(p) ==> Consistent(r)
    ensures forall i, j :: p.costs.InBounds(i, j) ==> r.costs.cells[i][j] == p.costs.cells[i][j]
    ensures forall i, j :: r.costs.InBounds(i, j) && !p.costs.InBounds(i, j) ==> r.costs.cells[i][j] == 0
  {
    var totalSupply := Sum(p.supply);
    var totalDemand := Sum(p.demand);
    if totalSupply == totalDemand then
      p
    else if totalSupply > totalDemand then
      SumAppend(p.demand, totalSupply - totalDemand);
      Problem(AddDummyColumnIntended(p.costs), p.supply, p.demand + [totalSupply - totalDemand])
    else
      SumAppend(p.supply, totalDemand - totalSupply);
      Problem(AddDummyRow(p.costs), p.supply + [totalDemand - totalSupply], p.demand)
  }

  /** A second call changes nothing. */
  lemma BalanceIdempotent(p: Problem)
    requires p.costs.WellFormed()
    ensures Balance(Balance(p)) == Balance(p)
  {
  }

  /** With a single source row the flat copy does keep every cell in place,
      so the code and the intended definition agree. */
  lemma BalanceSingleRow(p: Problem)
    requires p.costs.WellFormed() && p.costs.Height() <= 1
    ensures Balance(p) == BalanceIntended(p)
  {
    var w := p.costs.width;
    if Sum(p.supply) > Sum(p.demand) {
      var a := AddDummyColumn(p.costs);
      var b := AddDummyColumnIntended(p.costs);
      if p.costs.Height() == 1 {
        forall j | 0 <= j < w
          ensures a.cells[0][j] == b.cells[0][j]
        {
          FlattenIndex(p.costs.cells, w, 0, j);
        }
        assert a.cells[0] == b.cells[0];
      }
      assert a.cells == b.cells;
    }
  }

  /** Two sources, one destination, supply 10 against demand 7: the code
      leaves the dummy-column matrix as [[2, 0], [0, 0]], losing the cost 3 of
      source 1, where [[2, 0], [3, 0]] is intended. */
  lemma SupplyExcessScramblesCosts()
    ensures var p := Problem(Matrix([[2], [3]], 1), [5, 5], [7]);
            && Balance(p) == Problem(Matrix([[2, 0], [0, 0]], 2), [5, 5], [7, 3])
            && BalanceIntended(p) == Problem(Matrix([[2, 0], [3, 0]], 2), [5, 5], [7, 3])
  {
    var p := Problem(Matrix([[2], [3]], 1), [5, 5], [7]);
    assert Sum(p.supply) == 10 && Sum(p.demand) == 7;
    assert Flatten(p.costs.cells) == [2, 3];
    var a := AddDummyColumn(p.costs);
    assert a.cells[0][0] == 2 && a.cells[0][1] == 0;
    assert a.cells[1][0] == 0 && a.cells[1][1] == 0;
    assert a.cells[0] == [2, 0] && a.cells[1] == [0, 0];
    assert a.cells == [[2, 0], [0, 0]];
    var b := AddDummyColumnIntended(p.costs);
    assert b.cells[0] == [2, 0] && b.cells[1] == [3, 0];
    assert b.cells == [[2, 0], [3, 0]];
  }
}
