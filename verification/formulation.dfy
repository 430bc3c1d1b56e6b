/**
 The mixed-integer formulation that `Model::solve_task` hands to the solver,
 stated as a feasibility predicate over one concrete integer assignment of its
 decision variables.

 Vertices are 0..N, vertex 0 being the depot and vertex c+1 being client c:
 the income and demand columns lose their depot row before use, so the
 per-client arrays (demand, income, deliveries, coverage) are indexed by
 client 0..N-1 while the per-vertex arrays (arcs, visits, auxiliary flow) are
 indexed by vertex 0..N.

 Decision variables and their names in the source:
   delivered[c]      is_delivered       binary
   load[v][c]        cars_to_clients    integer in [0, capacity]
   arc[v][i][j]      car_path           binary
   visited[v][i]     taked_vertices     binary
   aux[v][i][j]      edges              integer in [0, 1000], one matrix per car
 */
module Formulation {
  import opened Sums

  /** The input table, one row per vertex, row 0 being the depot. */
  datatype Table = Table(x: seq<int>, y: seq<int>, income: seq<int>, demand: seq<int>)

  /** One problem instance: N clients, K cars of equal capacity Q, the vertex
      coordinates, and the per-client income and demand. */
  datatype Instance = Instance(
    numClients: nat,
    numCars: nat,
    capacity: int,
    x: seq<int>,
    y: seq<int>,
    income: seq<int>,
    demand: seq<int>)

  /** One value for every decision variable of the formulation. */
  datatype Assignment = Assignment(
    delivered: seq<int>,
    load: seq<seq<int>>,
    arc: seq<seq<seq<int>>>,
    visited: seq<seq<int>>,
    aux: seq<seq<seq<int>>>)

  /** Upper bound the source gives every auxiliary flow variable. */
  const AuxFlowBound: int := 1000

  /** Builds the instance from the table: coordinates stay per vertex, while
      income and demand drop the depot's row, so client c reads row c+1. */
  function MakeInstance(t: Table, numClients: nat, numCars: nat, capacity: int): (inst: Instance)
    requires |t.x| == |t.y| == |t.income| == |t.demand| == numClients + 1
    ensures |inst.x| == |inst.y| == numClients + 1
    ensures |inst.income| == |inst.demand| == numClients
    ensures forall c :: 0 <= c < numClients ==>
              inst.income[c] == t.income[c + 1] && inst.demand[c] == t.demand[c + 1]
    ensures (forall c :: 1 <= c <= numClients ==> t.demand[c] > 0) <==> WellFormed(inst)
  {
    Instance(numClients, numCars, capacity, t.x, t.y, t.income[1..], t.demand[1..])
  }

  /** What the formulation needs of its input: a coordinate per vertex, an
      income and a positive demand per client (demand divides). */
  predicate WellFormed(inst: Instance)
  {
    && |inst.x| == |inst.y| == inst.numClients + 1
    && |inst.income| == |inst.demand| == inst.numClients
    && (forall c :: 0 <= c < inst.numClients ==> inst.demand[c] > 0)
  }

  /** Every variable array has the dimensions the source declares. */
  predicate Shaped(inst: Instance, a: Assignment)
  {
    var n := inst.numClients + 1;
    && |a.delivered| == inst.numClients
    && IsMatrix(a.load, inst.numCars, inst.numClients)
    && |a.arc| == inst.numCars
    && (forall v :: 0 <= v < inst.numCars ==> IsMatrix(a.arc[v], n, n))
    && IsMatrix(a.visited, inst.numCars, n)
    && |a.aux| == inst.numCars
    && (forall v :: 0 <= v < inst.numCars ==> IsMatrix(a.aux[v], n, n))
  }

  /** The bounds and integrality each variable is created with. */
  predicate InDomains(inst: Instance, a: Assignment)
    requires Shaped(inst, a)
  {
    var n := inst.numClients + 1;
    && Binary(a.delivered)
    && (forall v, c :: 0 <= v < inst.numCars && 0 <= c < inst.numClients ==>
          0 <= a.load[v][c] <= inst.capacity)
    && (forall v :: 0 <= v < inst.numCars ==> Binary(a.visited[v]))
    && (forall v, i :: 0 <= v < inst.numCars && 0 <= i < n ==> Binary(a.arc[v][i]))
    && (forall v, i, j :: 0 <= v < inst.numCars && 0 <= i < n && 0 <= j < n ==>
          0 <= a.aux[v][i][j] <= AuxFlowBound)
  }

  /** Coverage rows: a client counts as delivered at least the fraction of
      its demand that all cars together bring it. The division is the
      solver's real division. */
  predicate CoverageRows(inst: Instance, a: Assignment)
    requires WellFormed(inst) && Shaped(inst, a)
    ensures CoverageRows(inst, a) <==>
              forall c :: 0 <= c < inst.numClients ==> Sum(Column(a.load, c)) <= inst.demand[c] * a.delivered[c]
  {
    forall c :: 0 <= c < inst.numClients ==>
      a.delivered[c] as real >= Sum(Column(a.load, c)) as real / inst.demand[c] as real
  }

  /** Anti-concentration row: at most half the clients count as delivered. */
  predicate AntiConcentrationRow(inst: Instance, a: Assignment)
    requires Shaped(inst, a)
    ensures AntiConcentrationRow(inst, a) <==> 2 * Sum(a.delivered) <= inst.numClients
  {
    Sum(a.delivered) as real <= 0.5 * inst.numClients as real
  }

  /** The rows the source emits for car `v`. */
  predicate CarRows(inst: Instance, a: Assignment, v: int)
    requires WellFormed(inst) && Shaped(inst, a)
    requires 0 <= v < inst.numCars
  {
    var nc := inst.numClients;
    var arc := a.arc[v];
    var vis := a.visited[v];
    var aux := a.aux[v];
    // the depot is on every route
    && vis[0] == 1
    // a car delivers only to a client it visits, and at most its demand
    && (forall c :: 0 <= c < nc ==> vis[c + 1] * inst.demand[c] >= a.load[v][c])
    // in-degree and out-degree equal the visit flag
    && (forall j :: 0 <= j <= nc ==> Sum(Column(arc, j)) == vis[j])
    && (forall j :: 0 <= j <= nc ==> Sum(arc[j]) == vis[j])
    // no self-loops
    && (forall j :: 0 <= j <= nc ==> arc[j][j] == 0)
    // auxiliary flow only on used arcs
    && (forall j, k :: 0 <= j <= nc && 0 <= k <= nc ==> aux[j][k] - nc * arc[j][k] <= 0)
    // the depot sends one unit per visited vertex other than itself
    && Sum(aux[0]) - Sum(vis) == -1
    // every client keeps one unit of the flow when visited
    && (forall j :: 1 <= j <= nc ==> Sum(aux[j]) - Sum(Column(aux, j)) == -vis[j])
    // the car's total load fits its capacity
    && Sum(a.load[v]) <= inst.capacity
  }

  /** `a` satisfies every bound and every row of the formulation. */
  predicate Feasible(inst: Instance, a: Assignment)
    requires WellFormed(inst)
  {
    && Shaped(inst, a)
    && InDomains(inst, a)
    && CoverageRows(inst, a)
    && AntiConcentrationRow(inst, a)
    && (forall v :: 0 <= v < inst.numCars ==> CarRows(inst, a, v))
  }

  // ---------------------------------------------------------------------------
  // Objective
  // ---------------------------------------------------------------------------

  /** Entry (j, k): what arc (j, k) adds to one car's travel cost,
      `car_path[i][j][k] * distance[j][k]`. */
  function ArcCosts(arc: seq<seq<int>>, dist: seq<seq<int>>): seq<seq<int>>
    requires IsMatrix(arc, |arc|, |arc|) && IsMatrix(dist, |arc|, |arc|)
  {
    var n := |arc|;
    seq(n, j requires 0 <= j < n => seq(n, k requires 0 <= k < n => arc[j][k] * dist[j][k]))
  }

  /** Travel cost of one car: the distance of every arc it uses. */
  function CarDistanceCost(arc: seq<seq<int>>, dist: seq<seq<int>>): int
    requires IsMatrix(arc, |arc|, |arc|) && IsMatrix(dist, |arc|, |arc|)
  {
    Total(ArcCosts(arc, dist))
  }

  /** The travel cost of each car. */
  function CarCosts(inst: Instance, dist: seq<seq<int>>, a: Assignment): seq<int>
    requires Shaped(inst, a)
    requires IsMatrix(dist, inst.numClients + 1, inst.numClients + 1)
  {
    seq(inst.numCars, v requires 0 <= v < inst.numCars => CarDistanceCost(a.arc[v], dist))
  }

  /** `distance_cost`: the travel cost summed over cars. */
  function DistanceCost(inst: Instance, dist: seq<seq<int>>, a: Assignment): int
    requires Shaped(inst, a)
    requires IsMatrix(dist, inst.numClients + 1, inst.numClients + 1)
  {
    Sum(CarCosts(inst, dist, a))
  }

  /** What one car earns from each client: `load / demand * income`. */
  function ProfitTerms(inst: Instance, load: seq<real>): (r: seq<real>)
    requires WellFormed(inst) && |load| == inst.numClients
    ensures |r| == inst.numClients
  {
    seq(inst.numClients, c requires 0 <= c < inst.numClients =>
      load[c] / inst.demand[c] as real * inst.income[c] as real)
  }

  /** A delivery within the client's demand earns between nothing and the
      client's whole income, when that income is not negative. */
  lemma ProfitTermBounds(inst: Instance, load: seq<real>, c: int)
    requires WellFormed(inst) && |load| == inst.numClients
    requires 0 <= c < inst.numClients && inst.income[c] >= 0
    requires 0.0 <= load[c] <= inst.demand[c] as real
    ensures 0.0 <= ProfitTerms(inst, load)[c] <= inst.income[c] as real
  {
    var d := inst.demand[c] as real;
    var share := load[c] / d;
    assert 0.0 <= share <= 1.0 by {
      assert share * d == load[c];
    }
    var i := inst.income[c] as real;
    assert ProfitTerms(inst, load)[c] == share * i;
    assert share * i <= 1.0 * i;
  }

  /** Bringing a client more never earns less, when its income is not
      negative. */
  lemma ProfitTermMonotone(inst: Instance, load: seq<real>, more: seq<real>, c: int)
    requires WellFormed(inst) && |load| == |more| == inst.numClients
    requires 0 <= c < inst.numClients && inst.income[c] >= 0
    requires load[c] <= more[c]
    ensures ProfitTerms(inst, load)[c] <= ProfitTerms(inst, more)[c]
  {
    var d := inst.demand[c] as real;
    var i := inst.income[c] as real;
    assert load[c] / d <= more[c] / d by {
      assert (more[c] - load[c]) / d >= 0.0;
    }
    assert (load[c] / d) * i <= (more[c] / d) * i;
  }

  function AsReals(s: seq<int>): seq<real>
  {
    seq(|s|, i requires 0 <= i < |s| => s[i] as real)
  }

  /** What each car earns over all clients. */
  function CarProfits(inst: Instance, a: Assignment): seq<real>
    requires WellFormed(inst) && Shaped(inst, a)
  {
    seq(inst.numCars, v requires 0 <= v < inst.numCars => RSum(ProfitTerms(inst, AsReals(a.load[v]))))
  }

  /** `total_profit`: income in proportion to the delivered share of demand,
      summed over cars and clients, in exact rational arithmetic. */
  function TotalProfit(inst: Instance, a: Assignment): real
    requires WellFormed(inst) && Shaped(inst, a)
  {
    RSum(CarProfits(inst, a))
  }
}
