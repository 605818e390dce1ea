/** The two-source, two-destination example: costs [[4, 6], [5, 3]],
    supply [10, 15], demand [12, 13]. It is already balanced, both heuristics
    arrive at the allocation [[10, 0], [2, 13]] in three loop iterations, and
    that allocation costs 89. */
module WorkedExample {
  import opened Grid
  import opened Wrappers
  import opened Allocation
  import Balancer
  import NorthWestCorner
  import MinimumCost
  import CostEvaluator

  function Costs(): Matrix { Matrix([[4, 6], [5, 3]], 2) }

  /** The empty starting plan of the example. */
  lemma StartIsZero()
    ensures Start([10, 15], [12, 13]) == Plan([10, 15], [12, 13], [[0, 0], [0, 0]])
  {
    var z := ZeroMatrix(2, 2).cells;
    assert z[0] == [0, 0] && z[1] == [0, 0];
    assert z == [[0, 0], [0, 0]];
  }

  /** The allocation both heuristics produce, with supply and demand used up. */
  function Answer(): Run { Run(Plan([0, 0], [0, 0], [[10, 0], [2, 13]]), 3) }

  /** Balancing leaves the balanced example as it is. */
  lemma ExampleIsBalanced()
    ensures Balancer.Balance(Balancer.Problem(Costs(), [10, 15], [12, 13]))
            == Balancer.Problem(Costs(), [10, 15], [12, 13])
  {
  }

  /** North-West Corner, first pass: 10 units at (0, 0) exhaust source 0. */
  lemma NorthWestFirst()
    ensures NorthWestCorner.Step(NorthWestCorner.Cursor(Plan([10, 15], [12, 13], [[0, 0], [0, 0]]), 0, 0))
            == NorthWestCorner.Cursor(Plan([0, 15], [2, 13], [[10, 0], [0, 0]]), 1, 0)
  {
    var c := NorthWestCorner.Step(NorthWestCorner.Cursor(Plan([10, 15], [12, 13], [[0, 0], [0, 0]]), 0, 0));
    assert c.plan.supply == [0, 15] && c.plan.demand == [2, 13];
    assert c.plan.alloc[0] == [10, 0] && c.plan.alloc[1] == [0, 0];
  }

  /** Second pass: 2 units at (1, 0) exhaust destination 0. */
  lemma NorthWestSecond()
    ensures NorthWestCorner.Step(NorthWestCorner.Cursor(Plan([0, 15], [2, 13], [[10, 0], [0, 0]]), 1, 0))
            == NorthWestCorner.Cursor(Plan([0, 13], [0, 13], [[10, 0], [2, 0]]), 1, 1)
  {
    var c := NorthWestCorner.Step(NorthWestCorner.Cursor(Plan([0, 15], [2, 13], [[10, 0], [0, 0]]), 1, 0));
    assert c.plan.supply == [0, 13] && c.plan.demand == [0, 13];
    assert c.plan.alloc[0] == [10, 0] && c.plan.alloc[1] == [2, 0];
  }

  /** Third pass: 13 units at (1, 1) exhaust both, and the cursor moves
      diagonally out of the grid. */
  lemma NorthWestThird()
    ensures NorthWestCorner.Step(NorthWestCorner.Cursor(Plan([0, 13], [0, 13], [[10, 0], [2, 0]]), 1, 1))
            == NorthWestCorner.Cursor(Answer().plan, 2, 2)
  {
    var c := NorthWestCorner.Step(NorthWestCorner.Cursor(Plan([0, 13], [0, 13], [[10, 0], [2, 0]]), 1, 1));
    assert c.plan.supply == [0, 0] && c.plan.demand == [0, 0];
    assert c.plan.alloc[0] == [10, 0] && c.plan.alloc[1] == [2, 13];
  }

  /** North-West Corner: 10 units at (0, 0), 2 at (1, 0), 13 at (1, 1). */
  lemma NorthWestExample()
    ensures NorthWestCorner.Solve([10, 15], [12, 13]) == Answer()
  {
    StartIsZero();
    NorthWestFirst();
    NorthWestSecond();
    NorthWestThird();
    var c0 := NorthWestCorner.Cursor(Plan([10, 15], [12, 13], [[0, 0], [0, 0]]), 0, 0);
    var c1 := NorthWestCorner.Step(c0);
    var c2 := NorthWestCorner.Step(c1);
    var c3 := NorthWestCorner.Step(c2);
    assert NorthWestCorner.Walk(c3) == Run(Answer().plan, 0);
    assert NorthWestCorner.Walk(c2) == Run(Answer().plan, 1);
    assert NorthWestCorner.Walk(c1) == Run(Answer().plan, 2);
    assert NorthWestCorner.Walk(c0) == Answer();
  }

  /** The scans of the Minimum Cost loop: the cheapest eligible cell while
      cells remain, then nothing. */
  lemma MinimumCostScans()
    ensures MinimumCost.FindMinCell(Costs(), [10, 15], [12, 13]) == MinimumCost.Cell(1, 1)
    ensures MinimumCost.FindMinCell(Costs(), [10, 2], [12, 0]) == MinimumCost.Cell(0, 0)
    ensures MinimumCost.FindMinCell(Costs(), [0, 2], [2, 0]) == MinimumCost.Cell(1, 0)
    ensures MinimumCost.FindMinCell(Costs(), [0, 0], [0, 0]) == MinimumCost.NoCell
  {
  }

  /** First allocation: 13 units at (1, 1) exhaust destination 1. */
  lemma MinimumCostFirst()
    ensures Allocate(Plan([10, 15], [12, 13], [[0, 0], [0, 0]]), 1, 1) == Plan([10, 2], [12, 0], [[0, 0], [0, 13]])
  {
    var p := Allocate(Plan([10, 15], [12, 13], [[0, 0], [0, 0]]), 1, 1);
    assert p.supply == [10, 2] && p.demand == [12, 0];
    assert p.alloc[0] == [0, 0] && p.alloc[1] == [0, 13];
  }

  /** Second allocation: 10 units at (0, 0) exhaust source 0. */
  lemma MinimumCostSecond()
    ensures Allocate(Plan([10, 2], [12, 0], [[0, 0], [0, 13]]), 0, 0) == Plan([0, 2], [2, 0], [[10, 0], [0, 13]])
  {
    var p := Allocate(Plan([10, 2], [12, 0], [[0, 0], [0, 13]]), 0, 0);
    assert p.supply == [0, 2] && p.demand == [2, 0];
    assert p.alloc[0] == [10, 0] && p.alloc[1] == [0, 13];
  }

  /** Third allocation: 2 units at (1, 0) exhaust everything. */
  lemma MinimumCostThird()
    ensures Allocate(Plan([0, 2], [2, 0], [[10, 0], [0, 13]]), 1, 0) == Answer().plan
  {
    var p := Allocate(Plan([0, 2], [2, 0], [[10, 0], [0, 13]]), 1, 0);
    assert p.supply == [0, 0] && p.demand == [0, 0];
    assert p.alloc[0] == [10, 0] && p.alloc[1] == [2, 13];
  }

  /** Minimum Cost: the cheapest cell 3 at (1, 1) first, then 4 at (0, 0),
      then 5 at (1, 0). */
  lemma MinimumCostExample()
    ensures MinimumCost.Solve(Costs(), [10, 15], [12, 13]) == Some(Answer())
  {
    StartIsZero();
    MinimumCostScans();
    MinimumCostFirst();
    MinimumCostSecond();
    MinimumCostThird();
    var p0 := Plan([10, 15], [12, 13], [[0, 0], [0, 0]]);
    var p1 := Plan([10, 2], [12, 0], [[0, 0], [0, 13]]);
    var p2 := Plan([0, 2], [2, 0], [[10, 0], [0, 13]]);
    assert MinimumCost.Greedy(Costs(), Answer().plan) == Some(Run(Answer().plan, 0));
    assert MinimumCost.Greedy(Costs(), p2) == Some(Run(Answer().plan, 1));
    assert MinimumCost.Greedy(Costs(), p1) == Some(Run(Answer().plan, 2));
    assert MinimumCost.Greedy(Costs(), p0) == Some(Answer());
  }

  /** The answer costs 10 * 4 + 2 * 5 + 13 * 3 = 89. */
  lemma ExampleCost()
    ensures CostEvaluator.TotalCost(Costs(), Matrix(Answer().plan.alloc, 2)) == 89
  {
  }
}
