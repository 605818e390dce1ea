/** The bookkeeping both heuristics share: working copies of supply and
    demand that are consumed while an allocation grid is filled in, and the
    conservation laws that every allocation step keeps. */
module Allocation {
  import opened Grid

  /** The state of a solve: what each source still has to ship, what each
      destination still needs, and the units allocated so far per cell. */
  datatype Plan = Plan(supply: seq<int>, demand: seq<int>, alloc: seq<seq<int>>)

  /** The outcome of a heuristic: the final plan and how many times its main
      loop ran. The iteration count is not an output of the program; it is
      kept so that the loop bounds can be stated. */
  datatype Run = Run(plan: Plan, iterations: nat)

  /** The allocation grid has one row per source and one column per destination. */
  predicate Shaped(p: Plan) {
    |p.alloc| == |p.supply| && Rectangular(p.alloc, |p.demand|)
  }

  /** A cell may receive units: its source still has supply and its
      destination still has demand. */
  predicate Eligible(supply: seq<int>, demand: seq<int>, i: int, j: int) {
    0 <= i < |supply| && 0 <= j < |demand| && supply[i] > 0 && demand[j] > 0
  }

  /** `new int[rows, cols]` with the untouched vectors. */
  function Start(supply: seq<int>, demand: seq<int>): (r: Plan)
    ensures Shaped(r) && r.supply == supply && r.demand == demand
  {
    Plan(supply, demand, ZeroMatrix(|supply|, |demand|).cells)
  }

  /** One allocation step, common to both heuristics: ship
      min(supply[i], demand[j]) units through cell (i, j) and take them off
      both working quantities. */
  function Allocate(p: Plan, i: nat, j: nat): (r: Plan)
    requires Shaped(p) && Eligible(p.supply, p.demand, i, j)
    ensures Shaped(r) && |r.supply| == |p.supply| && |r.demand| == |p.demand|
    ensures r.alloc[i][j] > 0
    ensures r.supply[i] == p.supply[i] - r.alloc[i][j] >= 0
    ensures r.demand[j] == p.demand[j] - r.alloc[i][j] >= 0
    ensures r.supply[i] == 0 || r.demand[j] == 0
    ensures forall k :: 0 <= k < |p.supply| && k != i ==> r.supply[k] == p.supply[k]
    ensures forall k :: 0 <= k < |p.demand| && k != j ==> r.demand[k] == p.demand[k]
    ensures forall a, b :: 0 <= a < |p.alloc| && 0 <= b < |p.demand| && (a, b) != (i, j) ==>
              r.alloc[a][b] == p.alloc[a][b]
    ensures Positives(r.supply) + Positives(r.demand) < Positives(p.supply) + Positives(p.demand)
  {
    var amount := Min(p.supply[i], p.demand[j]);
    var r := Plan(p.supply[i := p.supply[i] - amount],
                  p.demand[j := p.demand[j] - amount],
                  p.alloc[i := p.alloc[i][j := amount]]);
    PositivesUpdate(p.supply, i, p.supply[i] - amount);
    PositivesUpdate(p.demand, j, p.demand[j] - amount);
    r
  }

  /** Every row of the grid sums to `supply`, every column to `demand`. */
  predicate Feasible(alloc: seq<seq<int>>, supply: seq<int>, demand: seq<int>) {
    && |alloc| == |supply| && Rectangular(alloc, |demand|)
    && (forall i, j :: 0 <= i < |supply| && 0 <= j < |demand| ==> alloc[i][j] >= 0)
    && (forall i :: 0 <= i < |supply| ==> Sum(alloc[i]) == supply[i])
    && (forall j :: 0 <= j < |demand| ==> Sum(Column(alloc, j)) == demand[j])
  }

  /** What each row (column) has received plus what its source still has to
      ship (its destination still needs) is the original amount. */
  predicate Accounted(p: Plan, supply0: seq<int>, demand0: seq<int>)
    requires |p.supply| == |supply0| && |p.demand| == |demand0| && Shaped(p)
  {
    && (forall i :: 0 <= i < |supply0| ==> Sum(p.alloc[i]) + p.supply[i] == supply0[i])
    && (forall j :: 0 <= j < |demand0| ==> Sum(Column(p.alloc, j)) + p.demand[j] == demand0[j])
  }

  /** Cells hold non-negative amounts, and a cell holds units only once its
      source or its destination is exhausted, so no cell is written twice. */
  predicate Settled(p: Plan)
    requires Shaped(p)
  {
    && (forall i, j :: 0 <= i < |p.supply| && 0 <= j < |p.demand| ==> p.alloc[i][j] >= 0)
    && (forall i, j :: 0 <= i < |p.supply| && 0 <= j < |p.demand| && p.alloc[i][j] != 0 ==>
          p.supply[i] == 0 || p.demand[j] == 0)
  }

  /** Working quantities only go down, and only positive ones move, to a
      value that is still non-negative. */
  predicate Consumed(now: seq<int>, original: seq<int>)
    requires |now| == |original|
  {
    forall k :: 0 <= k < |original| ==> now[k] == original[k] || 0 <= now[k] < original[k]
  }

  /** The laws a plan keeps relative to the original vectors supply0 and
      demand0 while units are being allocated; both totals also go down by
      the same amount. */
  predicate Conserves(p: Plan, supply0: seq<int>, demand0: seq<int>) {
    && |p.supply| == |supply0| && |p.demand| == |demand0| && Shaped(p)
    && Accounted(p, supply0, demand0)
    && Settled(p)
    && Consumed(p.supply, supply0) && Consumed(p.demand, demand0)
    && Sum(supply0) - Sum(p.supply) == Sum(demand0) - Sum(p.demand)
  }

  /** Nothing allocated yet: the laws hold trivially at the start. */
  lemma StartConserves(supply: seq<int>, demand: seq<int>)
    ensures Conserves(Start(supply, demand), supply, demand)
  {
    var p := Start(supply, demand);
    forall i | 0 <= i < |supply| ensures Sum(p.alloc[i]) == 0 {
      SumZeros(|demand|);
    }
    forall j | 0 <= j < |demand| ensures Sum(Column(p.alloc, j)) == 0 {
      assert Column(p.alloc, j) == Zeros(|supply|);
      SumZeros(|supply|);
    }
  }

  lemma AllocateAccounted(p: Plan, i: nat, j: nat, supply0: seq<int>, demand0: seq<int>)
    requires |p.supply| == |supply0| && |p.demand| == |demand0| && Shaped(p)
    requires Accounted(p, supply0, demand0) && Settled(p) && Eligible(p.supply, p.demand, i, j)
    ensures Accounted(Allocate(p, i, j), supply0, demand0)
  {
    AllocateRowsAccounted(p, i, j, supply0);
    AllocateColumnsAccounted(p, i, j, demand0);
  }

  /** An allocation step moves units from row i's remaining supply into row
      i of the grid; every other row is untouched. */
  lemma AllocateRowsAccounted(p: Plan, i: nat, j: nat, supply0: seq<int>)
    requires |p.supply| == |supply0| && Shaped(p) && Settled(p) && Eligible(p.supply, p.demand, i, j)
    requires forall k :: 0 <= k < |supply0| ==> Sum(p.alloc[k]) + p.supply[k] == supply0[k]
    ensures forall k :: 0 <= k < |supply0| ==> Sum(Allocate(p, i, j).alloc[k]) + Allocate(p, i, j).supply[k] == supply0[k]
  {
    var r := Allocate(p, i, j);
    var amount := r.alloc[i][j];
    assert p.alloc[i][j] == 0;
    assert r.alloc[i] == p.alloc[i][j := amount];
    SumUpdate(p.alloc[i], j, amount);
    forall k | 0 <= k < |supply0| && k != i
      ensures Sum(r.alloc[k]) + r.supply[k] == supply0[k]
    {
      assert r.alloc[k] == p.alloc[k];
    }
  }

  /** The same for column j and its remaining demand. */
  lemma AllocateColumnsAccounted(p: Plan, i: nat, j: nat, demand0: seq<int>)
    requires |p.demand| == |demand0| && Shaped(p) && Settled(p) && Eligible(p.supply, p.demand, i, j)
    requires forall k :: 0 <= k < |demand0| ==> Sum(Column(p.alloc, k)) + p.demand[k] == demand0[k]
    ensures forall k :: 0 <= k < |demand0| ==> Sum(Column(Allocate(p, i, j).alloc, k)) + Allocate(p, i, j).demand[k] == demand0[k]
  {
    var r := Allocate(p, i, j);
    var amount := r.alloc[i][j];
    assert p.alloc[i][j] == 0;
    assert Column(r.alloc, j) == Column(p.alloc, j)[i := amount];
    SumUpdate(Column(p.alloc, j), i, amount);
    forall k | 0 <= k < |demand0| && k != j
      ensures Sum(Column(r.alloc, k)) + r.demand[k] == demand0[k]
    {
      assert Column(r.alloc, k) == Column(p.alloc, k);
    }
  }

  lemma AllocateSettled(p: Plan, i: nat, j: nat)
    requires Shaped(p) && Settled(p) && Eligible(p.supply, p.demand, i, j)
    ensures Settled(Allocate(p, i, j))
  {
  }

  lemma AllocateTotals(p: Plan, i: nat, j: nat)
    requires Shaped(p) && Eligible(p.supply, p.demand, i, j)
    ensures Sum(p.supply) - Sum(Allocate(p, i, j).supply) == Sum(p.demand) - Sum(Allocate(p, i, j).demand)
  {
    var r := Allocate(p, i, j);
    assert r.supply == p.supply[i := r.supply[i]];
    SumUpdate(p.supply, i, r.supply[i]);
    assert r.demand == p.demand[j := r.demand[j]];
    SumUpdate(p.demand, j, r.demand[j]);
  }

  lemma AllocateConsumed(p: Plan, i: nat, j: nat, supply0: seq<int>, demand0: seq<int>)
    requires Shaped(p) && Eligible(p.supply, p.demand, i, j)
    requires |p.supply| == |supply0| && |p.demand| == |demand0|
    requires Consumed(p.supply, supply0) && Consumed(p.demand, demand0)
    ensures Consumed(Allocate(p, i, j).supply, supply0) && Consumed(Allocate(p, i, j).demand, demand0)
  {
  }

  /** An allocation step at an eligible cell keeps every conservation law. */
  lemma AllocateConserves(p: Plan, i: nat, j: nat, supply0: seq<int>, demand0: seq<int>)
    requires Conserves(p, supply0, demand0) && Eligible(p.supply, p.demand, i, j)
    ensures Conserves(Allocate(p, i, j), supply0, demand0)
  {
    AllocateAccounted(p, i, j, supply0, demand0);
    AllocateSettled(p, i, j);
    AllocateTotals(p, i, j);
    AllocateConsumed(p, i, j, supply0, demand0);
  }

  /** Once sources or destinations are exhausted in a balanced problem with
      non-negative data, both are, and the grid is a feasible solution. */
  lemma ExhaustedIsFeasible(p: Plan, supply0: seq<int>, demand0: seq<int>)
    requires Conserves(p, supply0, demand0)
    requires NonNegative(supply0) && NonNegative(demand0) && Sum(supply0) == Sum(demand0)
    requires AllZero(p.supply) || AllZero(p.demand)
    ensures AllZero(p.supply) && AllZero(p.demand)
    ensures Feasible(p.alloc, supply0, demand0)
  {
    assert NonNegative(p.supply) && NonNegative(p.demand);
    SumZeroNonNegative(p.supply);
    SumZeroNonNegative(p.demand);
  }
}
