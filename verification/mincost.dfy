/** The Minimum-Cost-Cell heuristic: repeatedly scan the whole grid for the
    cheapest cell whose source and destination are both still positive, and
    fill it with as much as they allow. */
module MinimumCost {
  import opened Grid
  import opened Wrappers
  import opened Allocation

  /** `int.MaxValue`, the value the scan's running minimum starts from. */
  const IntMaxValue: int := 0x7FFF_FFFF

  /** What one full-grid scan yields: an eligible cell that the cost matrix
      cannot address (the scan reads its cost and throws), no cell, or the
      chosen cell. */
  datatype Pick = OutOfRange | NoCell | Cell(row: nat, col: nat)

  /** (a, b) comes before (i, j) in row-major scan order. */
  predicate Precedes(a: int, b: int, i: int, j: int) {
    a < i || (a == i && b < j)
  }

  /** An eligible cell outside the cost matrix: reading its cost throws. */
  predicate Faulting(costs: Matrix, supply: seq<int>, demand: seq<int>, a: int, b: int) {
    Eligible(supply, demand, a, b) && !costs.InBounds(a, b)
  }

  /** An eligible cell whose cost can be read. */
  predicate Candidate(costs: Matrix, supply: seq<int>, demand: seq<int>, a: int, b: int) {
    Eligible(supply, demand, a, b) && costs.InBounds(a, b)
  }

  /** (i, j) is the cell the scan must choose: of the readable eligible cells
      it has the least cost, every earlier one in row-major order costs
      strictly more, and its cost is below int.MaxValue. */
  ghost predicate FirstCheapest(costs: Matrix, supply: seq<int>, demand: seq<int>, i: int, j: int)
    requires costs.WellFormed()
  {
    && Candidate(costs, supply, demand, i, j)
    && costs.cells[i][j] < IntMaxValue
    && (forall a, b :: Candidate(costs, supply, demand, a, b) ==> costs.cells[i][j] <= costs.cells[a][b])
    && (forall a, b :: Candidate(costs, supply, demand, a, b) && Precedes(a, b, i, j) ==>
          costs.cells[i][j] < costs.cells[a][b])
  }

  /** The scan's state before cell (i, j): no earlier cell threw, `pick` is
      the first cheapest earlier candidate below int.MaxValue (or NoCell,
      with `minValue` still int.MaxValue), and no earlier candidate is
      cheaper than `minValue`. */
  ghost predicate Scanned(costs: Matrix, supply: seq<int>, demand: seq<int>, i: int, j: int, minValue: int, pick: Pick)
    requires costs.WellFormed()
  {
    && pick != OutOfRange
    && (forall a, b :: Precedes(a, b, i, j) ==> !Faulting(costs, supply, demand, a, b))
    && (pick == NoCell ==> minValue == IntMaxValue)
    && (pick.Cell? ==>
          && Candidate(costs, supply, demand, pick.row, pick.col)
          && Precedes(pick.row, pick.col, i, j)
          && costs.cells[pick.row][pick.col] == minValue < IntMaxValue)
    && (forall a, b :: Precedes(a, b, i, j) && Candidate(costs, supply, demand, a, b) ==>
          minValue <= costs.cells[a][b])
    && (pick.Cell? ==> forall a, b :: Precedes(a, b, pick.row, pick.col) && Candidate(costs, supply, demand, a, b) ==>
          minValue < costs.cells[a][b])
  }

  /** The nested scan loops from cell (i, j) on, with the running minimum
      and its position. A cell is considered only when its source and its
      destination are positive, and only then is its cost read; it replaces
      the running minimum only when strictly cheaper. */
  function ScanFrom(costs: Matrix, supply: seq<int>, demand: seq<int>, i: nat, j: nat, minValue: int, pick: Pick): (r: Pick)
    requires costs.WellFormed() && i <= |supply| && j <= |demand|
    requires Scanned(costs, supply, demand, i, j, minValue, pick)
    ensures r == OutOfRange <==> exists a, b :: Faulting(costs, supply, demand, a, b)
    ensures r == NoCell ==> forall a, b :: Candidate(costs, supply, demand, a, b) ==> costs.cells[a][b] >= IntMaxValue
    ensures r.Cell? ==> FirstCheapest(costs, supply, demand, r.row, r.col)
    decreases |supply| - i, |demand| - j
  {
    if i == |supply| then
      pick
    else if j == |demand| then
      ScanFrom(costs, supply, demand, i + 1, 0, minValue, pick)
    else if supply[i] > 0 && demand[j] > 0 then
      if !costs.InBounds(i, j) then
        assert Faulting(costs, supply, demand, i, j);
        OutOfRange
      else if costs.cells[i][j] < minValue then
        ScanFrom(costs, supply, demand, i, j + 1, costs.cells[i][j], Cell(i, j))
      else
        ScanFrom(costs, supply, demand, i, j + 1, minValue, pick)
    else
      ScanFrom(costs, supply, demand, i, j + 1, minValue, pick)
  }

  /** One full scan from the top-left cell with the running minimum at
      int.MaxValue: it throws exactly when some eligible cell lies outside the
      cost matrix, and otherwise returns the first cheapest readable eligible
      cell, or NoCell when every such cell costs int.MaxValue or more. */
  function FindMinCell(costs: Matrix, supply: seq<int>, demand: seq<int>): (r: Pick)
    requires costs.WellFormed()
    ensures r == OutOfRange <==> exists a, b :: Faulting(costs, supply, demand, a, b)
    ensures r == NoCell <==>
              && (forall a, b :: !Faulting(costs, supply, demand, a, b))
              && (forall a, b :: Candidate(costs, supply, demand, a, b) ==> costs.cells[a][b] >= IntMaxValue)
    ensures r.Cell? ==> FirstCheapest(costs, supply, demand, r.row, r.col)
  {
    ScanFrom(costs, supply, demand, 0, 0, IntMaxValue, NoCell)
  }

  /** The outer `while (true)` loop: scan, stop when nothing is found, give up
      (None, the caught exception) when the scan throws, otherwise allocate
      at the chosen cell and scan again. */
  function Greedy(costs: Matrix, p: Plan): (r: Option<Run>)
    requires costs.WellFormed() && Shaped(p)
    ensures r.Some? ==> Shaped(r.value.plan)
    ensures r.Some? ==> |r.value.plan.supply| == |p.supply| && |r.value.plan.demand| == |p.demand|
    ensures r.Some? ==> FindMinCell(costs, r.value.plan.supply, r.value.plan.demand) == NoCell
    ensures r.Some? ==> r.value.iterations <= Positives(p.supply) + Positives(p.demand)
    decreases Positives(p.supply) + Positives(p.demand)
  {
    match FindMinCell(costs, p.supply, p.demand)
    case OutOfRange => None
    case NoCell => Some(Run(p, 0))
    case Cell(i, j) =>
      var rest := Greedy(costs, Allocate(p, i, j));
      if rest.None? then None else Some(Run(rest.value.plan, rest.value.iterations + 1))
  }

  /** Allocation never makes a cell eligible that was not eligible before,
      so a scan that did not throw will not throw after an allocation. */
  lemma AllocateAddsNoFault(costs: Matrix, p: Plan, i: nat, j: nat)
    requires Shaped(p) && Eligible(p.supply, p.demand, i, j)
    requires forall a, b :: !Faulting(costs, p.supply, p.demand, a, b)
    ensures forall a, b :: !Faulting(costs, Allocate(p, i, j).supply, Allocate(p, i, j).demand, a, b)
  {
    var q := Allocate(p, i, j);
    forall a, b ensures !Faulting(costs, q.supply, q.demand, a, b) {
      if 0 <= a < |q.supply| && 0 <= b < |q.demand| {
        assert q.supply[a] <= p.supply[a] && q.demand[b] <= p.demand[b];
        assert !Faulting(costs, p.supply, p.demand, a, b);
      }
    }
  }

  /** The loop keeps the conservation laws. */
  lemma {:induction false} GreedyKeeps(costs: Matrix, p: Plan, supply0: seq<int>, demand0: seq<int>)
    requires costs.WellFormed() && Conserves(p, supply0, demand0)
    ensures Greedy(costs, p).Some? ==> Conserves(Greedy(costs, p).value.plan, supply0, demand0)
    decreases Positives(p.supply) + Positives(p.demand)
  {
    match FindMinCell(costs, p.supply, p.demand)
    case OutOfRange =>
    case NoCell =>
    case Cell(i, j) =>
      AllocateConserves(p, i, j, supply0, demand0);
      GreedyKeeps(costs, Allocate(p, i, j), supply0, demand0);
  }

  /** The loop fails exactly when its first scan does: later scans see fewer
      eligible cells, so they cannot throw once the first did not. */
  lemma {:induction false} GreedyFailsIff(costs: Matrix, p: Plan)
    requires costs.WellFormed() && Shaped(p)
    ensures Greedy(costs, p).None? <==> exists a, b :: Faulting(costs, p.supply, p.demand, a, b)
    decreases Positives(p.supply) + Positives(p.demand)
  {
    match FindMinCell(costs, p.supply, p.demand)
    case OutOfRange =>
    case NoCell =>
    case Cell(i, j) =>
      AllocateAddsNoFault(costs, p, i, j);
      GreedyFailsIff(costs, Allocate(p, i, j));
  }

  /** Every cell of the rows by cols grid can be read and costs less than
      int.MaxValue. */
  ghost predicate Priced(costs: Matrix, rows: nat, cols: nat)
    requires costs.WellFormed()
  {
    forall a, b :: 0 <= a < rows && 0 <= b < cols ==> costs.InBounds(a, b) && costs.cells[a][b] < IntMaxValue
  }

  /** With no eligible cell left, the sources or the destinations are used up. */
  lemma NoEligibleExhausted(supply: seq<int>, demand: seq<int>)
    requires NonNegative(supply) && NonNegative(demand)
    requires forall a, b :: !Eligible(supply, demand, a, b)
    ensures AllZero(supply) || AllZero(demand)
  {
    if !AllZero(supply) {
      var a :| 0 <= a < |supply| && supply[a] != 0;
      forall b | 0 <= b < |demand| ensures demand[b] == 0 {
        assert !Eligible(supply, demand, a, b);
      }
    }
  }

  /** When every cell is priced below int.MaxValue, a scan that finds
      nothing proves that no cell is eligible. */
  lemma NothingFoundNothingEligible(costs: Matrix, supply: seq<int>, demand: seq<int>)
    requires costs.WellFormed() && Priced(costs, |supply|, |demand|)
    requires FindMinCell(costs, supply, demand) == NoCell
    ensures forall a, b :: !Eligible(supply, demand, a, b)
  {
    forall a, b | Eligible(supply, demand, a, b) ensures false {
      assert Candidate(costs, supply, demand, a, b);
    }
  }

  /** When every cell is priced below int.MaxValue, the loop can only stop
      with the sources or the destinations used up; on a balanced problem
      with non-negative data that makes the grid feasible. */
  lemma SettledWhenPriced(costs: Matrix, p: Plan, supply0: seq<int>, demand0: seq<int>)
    requires costs.WellFormed() && Shaped(p)
    requires Greedy(costs, p).Some? ==> Conserves(Greedy(costs, p).value.plan, supply0, demand0)
    requires Greedy(costs, p).None? <==> exists a, b :: Faulting(costs, p.supply, p.demand, a, b)
    requires |p.supply| == |supply0| && |p.demand| == |demand0|
    ensures NonNegative(supply0) && NonNegative(demand0) && Sum(supply0) == Sum(demand0)
            && Priced(costs, |supply0|, |demand0|) ==>
              && Greedy(costs, p).Some?
              && AllZero(Greedy(costs, p).value.plan.supply) && AllZero(Greedy(costs, p).value.plan.demand)
              && Feasible(Greedy(costs, p).value.plan.alloc, supply0, demand0)
  {
    if NonNegative(supply0) && NonNegative(demand0) && Sum(supply0) == Sum(demand0)
       && Priced(costs, |supply0|, |demand0|) {
      assert forall a, b :: !Faulting(costs, p.supply, p.demand, a, b);
      var q := Greedy(costs, p).value.plan;
      assert NonNegative(q.supply) && NonNegative(q.demand);
      NothingFoundNothingEligible(costs, q.supply, q.demand);
      NoEligibleExhausted(q.supply, q.demand);
      ExhaustedIsFeasible(q, supply0, demand0);
    }
  }

  /** SolveMinimumCostMethod on owned copies of supply and demand. It
      returns None (the caught exception) exactly when some eligible cell
      lies outside the cost matrix; otherwise the loop ran at most
      rows + cols times, stopped only when no readable eligible cell cost
      less than int.MaxValue, and the grid accounts for exactly what was
      taken off the vectors. On a balanced problem with non-negative data
      whose cells all cost less than int.MaxValue, the grid is a feasible
      solution. */
  function Solve(costs: Matrix, supply: seq<int>, demand: seq<int>): (r: Option<Run>)
    requires costs.WellFormed()
    ensures r.None? <==> exists a, b :: Faulting(costs, supply, demand, a, b)
    ensures r.Some? ==> Conserves(r.value.plan, supply, demand)
    ensures r.Some? ==> r.value.iterations <= |supply| + |demand|
    ensures r.Some? ==> forall a, b :: Candidate(costs, r.value.plan.supply, r.value.plan.demand, a, b) ==>
              costs.cells[a][b] >= IntMaxValue
    ensures NonNegative(supply) && NonNegative(demand) && Sum(supply) == Sum(demand)
            && Priced(costs, |supply|, |demand|) ==>
              && r.Some?
              && AllZero(r.value.plan.supply) && AllZero(r.value.plan.demand)
              && Feasible(r.value.plan.alloc, supply, demand)
  {
    var p := Start(supply, demand);
    StartConserves(supply, demand);
    GreedyKeeps(costs, p, supply, demand);
    GreedyFailsIff(costs, p);
    SettledWhenPriced(costs, p, supply, demand);
    Greedy(costs, p)
  }
}
