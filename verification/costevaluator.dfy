/** Total shipping cost of an allocation: the sum over its cells of cost
    times units. */
module CostEvaluator {
  import opened Grid
  import opened Wrappers

  /** The cost matrix can be read at every cell of the allocation. */
  predicate Fits(costs: Matrix, allocation: Matrix) {
    allocation.Height() <= costs.Height() && allocation.width <= costs.width
  }

  /** Some cell of the allocation grid, whether or not it holds units, lies
      outside the cost matrix, so reading its cost throws. */
  predicate Overruns(costs: Matrix, allocation: Matrix) {
    allocation.Height() > 0 && allocation.width > 0 && !Fits(costs, allocation)
  }

  /** cost[0] * units[0] + ... + cost[n-1] * units[n-1]. */
  function RowCost(cost: seq<int>, units: seq<int>, n: nat): int
    requires n <= |cost| && n <= |units|
  {
    if n == 0 then 0 else RowCost(cost, units, n - 1) + cost[n - 1] * units[n - 1]
  }

  /** The row costs of the allocation's first m rows, each over the
      allocation's full width. */
  function GridCost(costs: Matrix, allocation: Matrix, m: nat): int
    requires costs.WellFormed() && allocation.WellFormed() && Fits(costs, allocation)
    requires m <= allocation.Height()
  {
    if m == 0 then 0
    else GridCost(costs, allocation, m - 1)
         + RowCost(costs.cells[m - 1], allocation.cells[m - 1], allocation.width)
  }

  /** The reference total: the sum of costs[i][j] * allocation[i][j] over
      every cell of the allocation. */
  function TotalCost(costs: Matrix, allocation: Matrix): int
    requires costs.WellFormed() && allocation.WellFormed() && Fits(costs, allocation)
  {
    GridCost(costs, allocation, allocation.Height())
  }

  /** CalculateTotalCost: the nested loops over the allocation's dimensions.
      A missing allocation or a cost matrix too small to read every cell of
      the allocation grid ends in the caught exception and the result -1; a cost
      matrix larger than the allocation is fine, its extra cells are never
      read. */
  method CalculateTotalCost(costs: Matrix, allocation: Option<Matrix>) returns (total: int)
    requires costs.WellFormed() && (allocation.Some? ==> allocation.value.WellFormed())
    ensures allocation.None? ==> total == -1
    ensures allocation.Some? && Overruns(costs, allocation.value) ==> total == -1
    ensures allocation.Some? && Fits(costs, allocation.value) ==> total == TotalCost(costs, allocation.value)
    ensures allocation.Some? && (allocation.value.Height() == 0 || allocation.value.width == 0) ==> total == 0
  {
    if allocation.None? {
      return -1;
    }
    var a := allocation.value;
    var rows := a.Height();
    var cols := a.width;
    total := 0;
    var i := 0;
    while i < rows
      invariant 0 <= i <= rows
      invariant i > 0 && cols > 0 ==> i <= costs.Height() && cols <= costs.width
      invariant Fits(costs, a) ==> total == GridCost(costs, a, i)
      invariant rows == 0 || cols == 0 ==> total == 0
    {
      var j := 0;
      while j < cols
        invariant 0 <= j <= cols
        invariant j > 0 ==> i < costs.Height() && j <= costs.width
        invariant cols == 0 ==> total == 0
        invariant Fits(costs, a) ==> total == GridCost(costs, a, i) + RowCost(costs.cells[i], a.cells[i], j)
      {
        if !costs.InBounds(i, j) {
          return -1;
        }
        total := total + costs.cells[i][j] * a.cells[i][j];
        j := j + 1;
      }
      i := i + 1;
    }
  }

  lemma {:induction false} RowCostNonNegative(cost: seq<int>, units: seq<int>, n: nat)
    requires n <= |cost| && n <= |units| && NonNegative(cost) && NonNegative(units)
    ensures RowCost(cost, units, n) >= 0
  {
    if n > 0 {
      RowCostNonNegative(cost, units, n - 1);
      assert cost[n - 1] >= 0 && units[n - 1] >= 0;
    }
  }

  /** Non-negative costs and a non-negative allocation give a non-negative
      total, so the -1 failure value cannot be mistaken for the total of such
      a problem. */
  lemma {:induction false} GridCostNonNegative(costs: Matrix, allocation: Matrix, m: nat)
    requires costs.WellFormed() && allocation.WellFormed() && Fits(costs, allocation)
    requires m <= allocation.Height()
    requires forall i :: 0 <= i < costs.Height() ==> NonNegative(costs.cells[i])
    requires forall i :: 0 <= i < allocation.Height() ==> NonNegative(allocation.cells[i])
    ensures GridCost(costs, allocation, m) >= 0
  {
    if m > 0 {
      GridCostNonNegative(costs, allocation, m - 1);
      RowCostNonNegative(costs.cells[m - 1], allocation.cells[m - 1], allocation.width);
    }
  }
}
