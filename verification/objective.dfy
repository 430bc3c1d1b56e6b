/**
 The objective `total_profit - distance_cost` and the two expressions it is
 built from, accumulated car by car as the source does, and what feasibility
 says about them.
 */
module Objective {
  import opened Sums
  import opened Formulation
  import Guarantees
  import Geometry

  /** The terms one car adds to `distance_cost`, one per ordered vertex
      pair, accumulated row by row; they total the cost of every arc the
      car uses. */
  method AccumulateCarCost(arc: seq<seq<int>>, dist: seq<seq<int>>) returns (cost: int)
    requires IsMatrix(arc, |arc|, |arc|) && IsMatrix(dist, |arc|, |arc|)
    ensures cost == CarDistanceCost(arc, dist)
  {
    var n := |arc|;
    var costs := ArcCosts(arc, dist);
    cost := 0;
    var j := 0;
    while j < n
      invariant 0 <= j <= n
      invariant cost == Sum(RowSums(costs)[..j])
    {
      var rowStart := cost;
      var k := 0;
      while k < n
        invariant 0 <= k <= n
        invariant cost == rowStart + Sum(costs[j][..k])
      {
        cost := cost + arc[j][k] * dist[j][k];
        SumSnoc(costs[j], k);
        k := k + 1;
      }
      assert costs[j][..n] == costs[j];
      SumSnoc(RowSums(costs), j);
      j := j + 1;
    }
    assert RowSums(costs)[..n] == RowSums(costs);
  }

  /** The terms one car adds to `total_profit`, one per client. */
  method AccumulateCarProfit(inst: Instance, load: seq<int>) returns (profit: real)
    requires WellFormed(inst) && |load| == inst.numClients
    ensures profit == RSum(ProfitTerms(inst, AsReals(load)))
  {
    var terms := ProfitTerms(inst, AsReals(load));
    profit := 0.0;
    var c := 0;
    while c < inst.numClients
      invariant 0 <= c <= inst.numClients
      invariant profit == RSum(terms[..c])
    {
      profit := profit + load[c] as real / inst.demand[c] as real * inst.income[c] as real;
      RSumSnoc(terms, c);
      c := c + 1;
    }
    assert terms[..inst.numClients] == terms;
  }

  /** Builds `distance_cost` and `total_profit` car by car, as the loop over
      cars in the source does. The running totals end equal to the sums over
      all cars, and the objective is profit minus cost. */
  method BuildObjective(inst: Instance, dist: seq<seq<int>>, a: Assignment)
    returns (distanceCost: int, totalProfit: real, objective: real)
    requires WellFormed(inst) && Shaped(inst, a)
    requires IsMatrix(dist, inst.numClients + 1, inst.numClients + 1)
    ensures distanceCost == DistanceCost(inst, dist, a)
    ensures totalProfit == TotalProfit(inst, a)
    ensures objective == totalProfit - distanceCost as real
  {
    var cars := CarCosts(inst, dist, a);
    var earned := CarProfits(inst, a);
    distanceCost := 0;
    totalProfit := 0.0;
    var v := 0;
    while v < inst.numCars
      invariant 0 <= v <= inst.numCars
      invariant distanceCost == Sum(cars[..v])
      invariant totalProfit == RSum(earned[..v])
    {
      var cost := AccumulateCarCost(a.arc[v], dist);
      distanceCost := distanceCost + cost;
      SumSnoc(cars, v);
      var profit := AccumulateCarProfit(inst, a.load[v]);
      totalProfit := totalProfit + profit;
      RSumSnoc(earned, v);
      v := v + 1;
    }
    assert cars[..inst.numCars] == cars;
    assert earned[..inst.numCars] == earned;
    objective := totalProfit - distanceCost as real;
  }

  /** With non-negative distances (rounded lengths are) the travel cost of a
      feasible assignment is never negative. */
  lemma DistanceCostNonNegative(inst: Instance, dist: seq<seq<int>>, a: Assignment)
    requires WellFormed(inst) && Feasible(inst, a)
    requires IsMatrix(dist, inst.numClients + 1, inst.numClients + 1)
    requires forall i, j :: 0 <= i < |dist| && 0 <= j < |dist[i]| ==> dist[i][j] >= 0
    ensures DistanceCost(inst, dist, a) >= 0
  {
    var cars := CarCosts(inst, dist, a);
    forall v | 0 <= v < inst.numCars
      ensures cars[v] >= 0
    {
      var costs := ArcCosts(a.arc[v], dist);
      forall j | 0 <= j < |costs|
        ensures RowSums(costs)[j] >= 0
      {
        assert Binary(a.arc[v][j]);
        assert NonNegative(costs[j]);
        SumNonNegative(costs[j]);
      }
      SumNonNegative(RowSums(costs));
    }
    SumNonNegative(cars);
  }

  /** The data flow of `solve_task` from the table to the travel cost: the
      instance built from the table, priced with the rounded distances of its
      coordinates, gives every feasible assignment a non-negative cost. */
  lemma TableDistanceCostNonNegative(t: Table, numClients: nat, numCars: nat, capacity: int, a: Assignment)
    requires |t.x| == |t.y| == |t.income| == |t.demand| == numClients + 1
    requires forall c :: 1 <= c <= numClients ==> t.demand[c] > 0
    requires Feasible(MakeInstance(t, numClients, numCars, capacity), a)
    ensures var inst := MakeInstance(t, numClients, numCars, capacity);
            DistanceCost(inst, Geometry.GetDistance(inst.x, inst.y), a) >= 0
  {
    var inst := MakeInstance(t, numClients, numCars, capacity);
    var dist := Geometry.GetDistance(inst.x, inst.y);
    DistanceCostNonNegative(inst, dist, a);
  }

  /** The income each client could bring, counted only when it is marked
      delivered. */
  function ServedIncome(inst: Instance, a: Assignment): seq<real>
    requires WellFormed(inst) && Shaped(inst, a)
  {
    seq(inst.numClients, c requires 0 <= c < inst.numClients => a.delivered[c] as real * inst.income[c] as real)
  }

  /** What all cars together earn from client c is its income scaled by the
      delivered share of its demand. */
  lemma ClientProfit(inst: Instance, a: Assignment, c: int)
    requires WellFormed(inst) && Shaped(inst, a)
    requires 0 <= c < inst.numClients
    ensures RSum(seq(inst.numCars, v requires 0 <= v < inst.numCars => ProfitTerms(inst, AsReals(a.load[v]))[c]))
            == Sum(Column(a.load, c)) as real * (inst.income[c] as real / inst.demand[c] as real)
  {
    var ratio := inst.income[c] as real / inst.demand[c] as real;
    var col := seq(inst.numCars, v requires 0 <= v < inst.numCars => ProfitTerms(inst, AsReals(a.load[v]))[c]);
    forall v | 0 <= v < inst.numCars
      ensures col[v] == ScaledReals(Column(a.load, c), ratio)[v]
    {
      Reassociate(a.load[v][c] as real, inst.demand[c] as real, inst.income[c] as real);
    }
    assert col == ScaledReals(Column(a.load, c), ratio);
    RSumOfScaledInts(Column(a.load, c), ratio);
  }

  lemma Reassociate(x: real, d: real, i: real)
    requires d != 0.0
    ensures x / d * i == x * (i / d)
  {
  }

  /** Scaling the coverage bound `total <= d * served` by the non-negative
      ratio `income / d` bounds the client's profit by its served income. */
  lemma ScaledCoverage(total: int, d: int, served: int, income: int)
    requires d > 0 && income >= 0
    requires total <= d * served
    ensures total as real * (income as real / d as real) <= served as real * income as real
  {
    var ratio := income as real / d as real;
    assert ratio >= 0.0;
    assert total as real <= d as real * served as real;
    assert total as real * ratio <= (d as real * served as real) * ratio;
    assert (d as real * served as real) * ratio == served as real * (d as real * ratio);
    assert d as real * ratio == income as real;
  }

  /** Client c's share of the profit is at most its income, and nothing
      unless it is marked delivered. */
  lemma ClientProfitBound(inst: Instance, a: Assignment, c: int)
    requires WellFormed(inst) && Feasible(inst, a)
    requires 0 <= c < inst.numClients && inst.income[c] >= 0
    ensures RSum(seq(inst.numCars, v requires 0 <= v < inst.numCars => ProfitTerms(inst, AsReals(a.load[v]))[c]))
            <= ServedIncome(inst, a)[c]
  {
    Guarantees.CoverageLinkage(inst, a, c);
    CoveredClientProfit(inst, a, c);
  }

  lemma CoveredClientProfit(inst: Instance, a: Assignment, c: int)
    requires WellFormed(inst) && Shaped(inst, a)
    requires 0 <= c < inst.numClients && inst.income[c] >= 0
    requires Sum(Column(a.load, c)) <= inst.demand[c] * a.delivered[c]
    ensures RSum(seq(inst.numCars, v requires 0 <= v < inst.numCars => ProfitTerms(inst, AsReals(a.load[v]))[c]))
            <= ServedIncome(inst, a)[c]
  {
    ClientProfit(inst, a, c);
    ScaledCoverage(Sum(Column(a.load, c)), inst.demand[c], a.delivered[c], inst.income[c]);
  }

  /** Profit is bounded by the income of the clients marked delivered: the
      cars together collect at most a client's full income, and only from a
      client marked delivered. */
  lemma ProfitAtMostServedIncome(inst: Instance, a: Assignment)
    requires WellFormed(inst) && Feasible(inst, a)
    requires forall c :: 0 <= c < inst.numClients ==> inst.income[c] >= 0
    ensures TotalProfit(inst, a) <= RSum(ServedIncome(inst, a))
  {
    var nc := inst.numClients;
    var p := seq(inst.numCars, v requires 0 <= v < inst.numCars => ProfitTerms(inst, AsReals(a.load[v])));
    assert RRowSums(p) == CarProfits(inst, a);
    RFubini(p, nc);
    var cols := RColumnSums(p, nc);
    forall c | 0 <= c < nc
      ensures cols[c] <= ServedIncome(inst, a)[c]
    {
      assert seq(|p|, v requires 0 <= v < |p| => p[v][c])
          == seq(inst.numCars, v requires 0 <= v < inst.numCars => ProfitTerms(inst, AsReals(a.load[v]))[c]);
      ClientProfitBound(inst, a, c);
    }
    RSumMono(cols, ServedIncome(inst, a));
  }
}
