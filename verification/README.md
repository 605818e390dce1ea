# Transport routes: a verified model of the solver core

TransportRoutes is a desktop tool for the classical transportation problem.
A set of sources (rows) with a supply each must ship to a set of destinations
(columns) with a demand each, and every source/destination pair has a unit
cost. The tool reads a cost table, a supply vector and a demand vector from a
JSON file. It balances the problem by adding a dummy destination or a dummy
source. It then builds an initial allocation with either the North-West Corner
or the Minimum Cost heuristic, computes the allocation's total cost, and can
save the allocation back to JSON.

This project models that core in Dafny and proves properties of it:

- `Grid` holds the matrix representation of the C# `int[,]` arrays. The width
  is kept apart from the rows, so a matrix with no rows still has a width. It
  also holds sums, and the row-major flat copy that `Array.Copy` performs on
  2-D arrays.
- `Balancer` models `BalanceProblem` as written. It also holds the
  position-preserving dummy column the code evidently intends (see Findings).
- `Allocation` holds the state both heuristics share: the working supply and
  demand, the allocation grid, and the allocation step. It also states the
  conservation laws that every step keeps: row sums plus remaining supply
  equal the original supply, and likewise for columns. Cells are never
  negative and are never written twice.
- `NorthWestCorner` and `MinimumCost` model the two heuristics as recursive
  functions, one call per loop iteration. Each returns the final working
  vectors together with the grid, because the C# methods consume the solver's
  own supply and demand arrays in place.
- `CostEvaluator` models `CalculateTotalCost` as the original nested loops,
  checked against a recursive reference sum.
- `JsonShapes` covers two conversions in `JsonFileExplorer`: padding the jagged
  cost table into a rectangular matrix, and turning the allocation back into
  equal-length rows. It also covers their null and empty cases and the two
  round trips.
- `WorkedExample` uses costs [[4, 6], [5, 3]], supply [10, 15] and demand
  [12, 13]. Both heuristics give [[10, 0], [2, 13]] in three iterations, and
  that allocation costs 89.

An exception that the source catches becomes an explicit outcome in the
model:

- The Minimum Cost method's catch, which returns null, becomes `None`.
- `CalculateTotalCost` returns -1.
- A load that fails returns the all-null triple, which becomes `None`.

## Model

| member | source | states |
|---|---|---|
| Grid.CopyIntoFresh | TransportRoutes/Classes/TransportProblemSolver.cs:54-55 | `Array.Copy` into a fresh zero array: cell (i, j) of the new array receives the old element at row-major position i * newWidth + j while there are old elements left, and 0 after that |
| Balancer.AddDummyRow | TransportRoutes/Classes/TransportProblemSolver.cs:70-76 | when the width is unchanged, the flat copy keeps every old cost at its (i, j), and the appended source row costs 0 everywhere |
| Balancer.AddDummyColumn | TransportRoutes/Classes/TransportProblemSolver.cs:53-60 | the dummy-destination matrix as the code builds it: same height, one more column, zeros in the new column, and every other cell taken from the old matrix's flat position i * (w + 1) + j, or 0 past its end |
| Balancer.AddDummyColumnIntended | TransportRoutes/Classes/TransportProblemSolver.cs:53-60 | the corrected dummy-destination matrix: every old cost stays at its (i, j), and the new column costs 0 |
| Balancer.Balance | TransportRoutes/Classes/TransportProblemSolver.cs:31-86 | afterwards total supply equals total demand, and the problem is unchanged exactly when it was already balanced; excess supply appends one destination that demands the difference, and excess demand appends one source that supplies it, each with the corresponding cost matrix; a consistent problem stays consistent |
| Balancer.BalanceIntended | TransportRoutes/Classes/TransportProblemSolver.cs:31-86 | the same vectors as `Balance`; a balanced problem is returned unchanged; excess supply appends exactly one zero column and excess demand exactly one zero row, every old cost keeps its position, and a consistent problem stays consistent |
| Balancer.BalanceSingleRow | TransportRoutes/Classes/TransportProblemSolver.cs:53-60 | with at most one source row the code's flat copy and the intended append agree |
| Balancer.SupplyExcessScramblesCosts | TransportRoutes/Classes/TransportProblemSolver.cs:53-60 | counterexample: for costs [[2], [3]], supply [5, 5] and demand [7], the code yields costs [[2, 0], [0, 0]], where the intended result is [[2, 0], [3, 0]] |
| Balancer.BalanceIdempotent | TransportRoutes/Classes/TransportProblemSolver.cs:39-44 | balancing a balanced problem changes nothing, so a second call is a no-op |
| Allocation.Allocate | TransportRoutes/Classes/TransportProblemSolver.cs:125-128 | one allocation step ships a positive amount through the chosen cell; that amount comes off both the source's supply and the destination's demand, one of the two reaches 0, neither goes negative, nothing else changes, and the number of positive entries strictly drops |
| Allocation.AllocateConserves | TransportRoutes/Classes/TransportProblemSolver.cs:153-156 | an allocation step at a cell whose source and destination are both positive keeps every conservation law: row and column accounting, non-negative cells written at most once, working amounts only decreasing, and equal decreases of both totals |
| Allocation.ExhaustedIsFeasible | TransportRoutes/Classes/TransportProblemSolver.cs:100-101 | in a balanced problem with non-negative data, once all sources or all destinations are exhausted, both are, and the grid is a feasible transportation plan |
| NorthWestCorner.Step | TransportRoutes/Classes/TransportProblemSolver.cs:151-165 | one loop pass moves the cursor down, right or diagonally. It leaves the state unchanged exactly when the cursor's source or destination is negative and neither is 0, in which case the loop can never move on |
| NorthWestCorner.Walk | TransportRoutes/Classes/TransportProblemSolver.cs:149-166 | without negative entries the loop runs at most (rows left) + (columns left) - 1 times, and not at all when the cursor starts outside the grid |
| NorthWestCorner.WalkKeeps | TransportRoutes/Classes/TransportProblemSolver.cs:149-166 | the loop keeps the conservation laws, and when it stops every source or every destination is exhausted |
| NorthWestCorner.Solve | TransportRoutes/Classes/TransportProblemSolver.cs:144-169 | the grid accounts for exactly what was taken off the vectors; on a balanced problem it is feasible and uses up all supply and demand; at most rows + cols - 1 iterations; with no sources or no destinations nothing happens |
| MinimumCost.ScanFrom | TransportRoutes/Classes/TransportProblemSolver.cs:108-119 | the scan throws exactly when some cell with positive supply and demand lies outside the cost matrix; otherwise it finds the first cell in row-major order with the smallest cost below int.MaxValue, or none when no such cell exists |
| MinimumCost.FindMinCell | TransportRoutes/Classes/TransportProblemSolver.cs:103-122 | reports no cell exactly when nothing throws and every cell with positive supply and demand costs int.MaxValue or more; a reported cell is the first cheapest such cell |
| MinimumCost.Greedy | TransportRoutes/Classes/TransportProblemSolver.cs:101-129 | the outer loop stops only in a state whose scan finds nothing, after at most as many iterations as there were positive entries in supply and demand |
| MinimumCost.GreedyFailsIff | TransportRoutes/Classes/TransportProblemSolver.cs:133-138 | the method ends in its catch (null result) exactly when an out-of-range cost is read, which can only happen on the first scan |
| MinimumCost.Solve | TransportRoutes/Classes/TransportProblemSolver.cs:91-139 | null exactly when some cell with positive supply and demand lies outside the cost matrix. Otherwise: the conservation laws hold, there are at most rows + cols iterations, and every remaining cell with positive supply and demand costs at least int.MaxValue. On a balanced, non-negative problem whose costs are all below int.MaxValue, the grid is feasible and exhausts everything |
| CostEvaluator.CalculateTotalCost | TransportRoutes/Classes/TransportProblemSolver.cs:200-225 | -1 for a null allocation or when some cell of the allocation grid, whether it holds units or 0, lies outside the cost matrix; 0 for an allocation without rows or columns; otherwise the sum of cost times units over all cells of the allocation |
| CostEvaluator.GridCostNonNegative | TransportRoutes/Classes/TransportProblemSolver.cs:212-223 | with non-negative costs and allocation the total is non-negative, so it never collides with the -1 error value |
| JsonShapes.MaxLength | TransportRoutes/Classes/JsonFileExplorer.cs:47 | the dense width is at least every row's length and equals the length of some row |
| JsonShapes.Pad | TransportRoutes/Classes/JsonFileExplorer.cs:47-54 | each jagged row is copied to the start of its dense row, and the rest of the row is 0 |
| JsonShapes.Load | TransportRoutes/Classes/JsonFileExplorer.cs:40-67 | a missing document, a missing cost table or an empty cost table gives the all-null result; otherwise the matrix has one row per table row and the width of the longest row, holds the table's entries padded with zeros, and supply and demand pass through unchanged |
| JsonShapes.ToJagged | TransportRoutes/Classes/JsonFileExplorer.cs:78-107 | a null allocation writes nothing; otherwise the output has one row per matrix row, all as wide as the matrix, holding the same entries |
| JsonShapes.SaveThenLoad | TransportRoutes/Classes/JsonFileExplorer.cs:47-107 | loading a saved matrix gives the same matrix back exactly when it has at least one row |
| JsonShapes.LoadThenSave | TransportRoutes/Classes/JsonFileExplorer.cs:47-107 | saving a loaded cost table gives the same table back exactly when all its rows have equal length |
| WorkedExample.ExampleIsBalanced | TransportRoutes/Classes/TransportProblemSolver.cs:39-44 | the example's totals agree (25 = 25), so balancing leaves it as it is |
| WorkedExample.NorthWestExample | TransportRoutes/Classes/TransportProblemSolver.cs:144-169 | North-West Corner on the example allocates 10, 2 and 13 units, at (0, 0), (1, 0) and (1, 1), in three iterations |
| WorkedExample.MinimumCostExample | TransportRoutes/Classes/TransportProblemSolver.cs:91-139 | Minimum Cost on the example takes the cells costing 3, 4 and 5 in turn and reaches the same allocation in three iterations |
| WorkedExample.ExampleCost | TransportRoutes/Classes/TransportProblemSolver.cs:200-225 | the example allocation costs 10 * 4 + 2 * 5 + 13 * 3 = 89 |

## Left out

- File dialogs, reading and writing files, JSON parsing and serialisation, and console messages are not modelled: they are I/O. The loader starts from the parsed document, and the saver ends at the jagged array it would serialise.
- `PrintAllocation` and the page code that wires the buttons are not modelled. They only display values or call the modelled operations.
- Null `costs`, `supply` or `demand` handed to the solver are not modelled. The vectors are sequences and the matrix is always present. In the source these paths end differently: `BalanceProblem` and the Minimum Cost method catch the resulting exceptions, while North-West Corner lets it escape.
- A null row inside the JSON cost table is not modelled. Rows are sequences. In the source such a row makes `Max` throw, the exception is caught, and the load returns all nulls.
- Balancer.Balance: does not model 32-bit integer limits. The checked LINQ `Sum` throws `OverflowException` on large totals, and the source then leaves the problem unchanged. The unchecked differences `totalSupply - totalDemand` (line 49) and `totalDemand - totalSupply` (line 66) can wrap: supply [2000000000] and demand [-2000000000] give the source a negative dummy demand, which leaves it unbalanced, where the model appends 4000000000 and balances. Totals and differences are unbounded integers in the model.
- CostEvaluator.CalculateTotalCost: does not model the unchecked 32-bit wrap-around of `+=` and `*`; the model's total is the exact mathematical sum.
- MinimumCost.Solve: costs are unbounded integers, so the model can also hold costs above int.MaxValue. Like int.MaxValue itself, the strict `<` in the scan never selects them.
- NorthWestCorner.Solve: requires every supply and demand entry to be non-negative. That also excludes inputs on which the source terminates. One case is a negative entry paired with a 0: supply [-1] and demand [0] advance past it and return [[0]]. Another is a negative entry the cursor never reaches: supply [5, -1] and demand [5] give [[5], [0]]. The source loops for ever only when the cursor sits on two non-zero amounts, at least one of them negative. A total function cannot express that, so `NorthWestCorner.Step` instead proves that exactly such a cursor never moves.
- The iteration counts carried in `Run` are not outputs of the program. They exist so that the loop bounds can be stated.

## Findings

| source | as written | input that shows it | evidently intended | confidence | as-written member | corrected member |
|---|---|---|---|---|---|---|
| TransportRoutes/Classes/TransportProblemSolver.cs:53-60 | the h-by-w costs are copied flat, row-major, into a fresh h-by-(w+1) array, and column w is then zeroed, so from row 1 onwards every old cost moves to a different cell or is overwritten | costs [[2], [3]], supply [5, 5], demand [7]: the balanced costs are [[2, 0], [0, 0]], and source 1's cost 3 is lost | each old cost stays at its (i, j) and a zero column is appended: [[2, 0], [3, 0]] | high; not executed | Balancer.SupplyExcessScramblesCosts | Balancer.BalanceIntended |

The comment at line 46 says this branch adds one dummy demand, that is,
one zero-cost destination column. The sibling dummy-source branch (lines
64-79) shows the intended shape: it keeps the width, so its flat copy leaves
every old cost at its (i, j). `Balancer.Balance` follows the code, and
`Balancer.BalanceIntended` gives the intended behaviour. The two agree
whenever there is at most one source row (`Balancer.BalanceSingleRow`) and
whenever supply is not in excess.
