/** The North-West Corner heuristic: a cursor starts in the top-left cell
    and walks right and down, filling each cell it stops on with as much as
    its row and column still allow. It never looks at the costs, so it takes
    none. */
module NorthWestCorner {
  import opened Grid
  import opened Allocation

  /** The loop state: the plan and the cursor (row i, column j). */
  datatype Cursor = Cursor(plan: Plan, row: nat, col: nat)

  /** The loop condition `i < supply.Length && j < demand.Length`. */
  predicate InGrid(c: Cursor) {
    c.row < |c.plan.supply| && c.col < |c.plan.demand|
  }

  /** The cursor's cell can never move on: neither working amount is 0, yet
      they are not both positive, so one of them is negative. */
  predicate Stalled(c: Cursor)
    requires InGrid(c)
  {
    var s := c.plan.supply[c.row];
    var d := c.plan.demand[c.col];
    s != 0 && d != 0 && !(s > 0 && d > 0)
  }

  /** Every row above the cursor has shipped everything, and every column to
      its left has received everything. */
  predicate Behind(c: Cursor) {
    && c.row <= |c.plan.supply| && c.col <= |c.plan.demand|
    && (forall k :: 0 <= k < c.row ==> c.plan.supply[k] == 0)
    && (forall k :: 0 <= k < c.col ==> c.plan.demand[k] == 0)
  }

  /** One pass of the loop body: allocate at the cursor when both its source
      and its destination are positive, then step down past an exhausted
      source and right past an exhausted destination (diagonally when both
      run out together). */
  function Step(c: Cursor): (r: Cursor)
    requires Shaped(c.plan) && InGrid(c)
    ensures Shaped(r.plan) && |r.plan.supply| == |c.plan.supply| && |r.plan.demand| == |c.plan.demand|
    ensures c.row <= r.row <= c.row + 1 && c.col <= r.col <= c.col + 1
    ensures r == c <==> Stalled(c)
    ensures !Stalled(c) ==> c.row + c.col < r.row + r.col
    ensures NonNegative(c.plan.supply) ==> NonNegative(r.plan.supply)
    ensures NonNegative(c.plan.demand) ==> NonNegative(r.plan.demand)
  {
    var p := if Eligible(c.plan.supply, c.plan.demand, c.row, c.col)
             then Allocate(c.plan, c.row, c.col) else c.plan;
    Cursor(p,
           if p.supply[c.row] == 0 then c.row + 1 else c.row,
           if p.demand[c.col] == 0 then c.col + 1 else c.col)
  }

  /** The loop itself. It terminates only because no entry is negative: a
      negative entry under the cursor stalls it for ever (see Step). */
  function Walk(c: Cursor): (r: Run)
    requires Shaped(c.plan) && c.row <= |c.plan.supply| && c.col <= |c.plan.demand|
    requires NonNegative(c.plan.supply) && NonNegative(c.plan.demand)
    ensures Shaped(r.plan) && |r.plan.supply| == |c.plan.supply| && |r.plan.demand| == |c.plan.demand|
    ensures !InGrid(c) ==> r.iterations == 0
    ensures InGrid(c) ==> r.iterations <= (|c.plan.supply| - c.row) + (|c.plan.demand| - c.col) - 1
    decreases |c.plan.supply| - c.row + |c.plan.demand| - c.col
  {
    if InGrid(c) then
      var rest := Walk(Step(c));
      Run(rest.plan, rest.iterations + 1)
    else
      Run(c.plan, 0)
  }

  /** Each step keeps the conservation laws and the region behind the cursor
      exhausted. */
  lemma StepKeeps(c: Cursor, supply0: seq<int>, demand0: seq<int>)
    requires Shaped(c.plan) && InGrid(c) && Behind(c) && Conserves(c.plan, supply0, demand0)
    ensures Behind(Step(c)) && Conserves(Step(c).plan, supply0, demand0)
  {
    if Eligible(c.plan.supply, c.plan.demand, c.row, c.col) {
      AllocateConserves(c.plan, c.row, c.col, supply0, demand0);
    }
    StepBehind(c);
  }

  /** Each step keeps the region behind the cursor exhausted: it leaves a
      row or column behind only once that row or column is at 0. */
  lemma StepBehind(c: Cursor)
    requires Shaped(c.plan) && InGrid(c) && Behind(c)
    ensures Behind(Step(c))
  {
    var r := Step(c);
    if Eligible(c.plan.supply, c.plan.demand, c.row, c.col) {
      var p := Allocate(c.plan, c.row, c.col);
      assert r.plan == p;
      assert forall k :: 0 <= k < c.row ==> p.supply[k] == c.plan.supply[k];
      assert forall k :: 0 <= k < c.col ==> p.demand[k] == c.plan.demand[k];
    }
  }

  /** When the walk ends, every source or every destination is exhausted,
      and the conservation laws still hold. */
  lemma {:induction false} WalkKeeps(c: Cursor, supply0: seq<int>, demand0: seq<int>)
    requires Shaped(c.plan) && Behind(c)
    requires NonNegative(c.plan.supply) && NonNegative(c.plan.demand)
    requires Conserves(c.plan, supply0, demand0)
    ensures Conserves(Walk(c).plan, supply0, demand0)
    ensures AllZero(Walk(c).plan.supply) || AllZero(Walk(c).plan.demand)
    decreases |c.plan.supply| - c.row + |c.plan.demand| - c.col
  {
    if InGrid(c) {
      StepKeeps(c, supply0, demand0);
      WalkKeeps(Step(c), supply0, demand0);
    }
  }

  /** SolveNorthWestCornerMethod on owned copies of supply and demand. The
      result holds the allocation grid and the working vectors it leaves.
      Without a negative entry the loop ends after at most
      rows + cols - 1 iterations; the grid always accounts for exactly what
      was taken off the vectors, and on a balanced problem it is a feasible
      solution that uses up all supply and all demand. */
  function Solve(supply: seq<int>, demand: seq<int>): (r: Run)
    requires NonNegative(supply) && NonNegative(demand)
    ensures Conserves(r.plan, supply, demand)
    ensures Sum(supply) == Sum(demand) ==>
              AllZero(r.plan.supply) && AllZero(r.plan.demand) && Feasible(r.plan.alloc, supply, demand)
    ensures |supply| > 0 && |demand| > 0 ==> r.iterations <= |supply| + |demand| - 1
    ensures |supply| == 0 || |demand| == 0 ==> r == Run(Start(supply, demand), 0)
  {
    var c := Cursor(Start(supply, demand), 0, 0);
    StartConserves(supply, demand);
    WalkKeeps(c, supply, demand);
    var r := Walk(c);
    if Sum(supply) == Sum(demand) then
      ExhaustedIsFeasible(r.plan, supply, demand);
      r
    else
      r
  }
}
