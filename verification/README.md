# Prize-collecting capacitated routing: the formulation, in Dafny

This project models the mixed-integer formulation that `Model::solve_task`
builds in `1/main.cpp` for a prize-collecting, capacitated, multi-vehicle
routing problem. A homogeneous fleet of K cars with capacity Q leaves one
depot (vertex 0). The cars may serve any subset of the N clients (vertices
1..N) and deliver up to each client's demand. At most half the clients may be
marked as served. The objective is income collected minus distance travelled.

The solver is not modelled. What is modelled is the constraint system and
objective the code hands to it:

- `Formulation.Feasible` is a predicate over one concrete integer assignment
  of every decision variable (`is_delivered`, `cars_to_clients`, `car_path`,
  `taked_vertices`, and the per-car auxiliary flow `edges`).
- The lemmas state what every feasible assignment guarantees.

The depot row is dropped from the income and demand columns. So client `c`
in the demand, income, delivery and coverage arrays is vertex `c+1` in the
arc, visit and auxiliary-flow arrays. The model keeps exactly that offset.

Files:

- `sums.dfy`: finite sums, exchange of summation order, and the cut identity.
- `geometry.dfy`: the distance table of `get_distance`.
- `formulation.dfy`: instance, assignment, constraint rows, objective terms.
- `guarantees.dfy`: coverage, anti-concentration, loads, degrees, depot.
- `subtour.dfy`: subtour elimination through the auxiliary flow.
- `objective.dfy`: accumulation of `distance_cost` and `total_profit`, and the profit bound.
- `scenarios.dfy`: small instances showing what the formulation admits.

The rounding `lround(pow(d, 0.5))` is a parameter `R` of `DistanceMatrix`.
The only assumption about it is `R(0) == 0`. `Geometry.RoundSqrt` gives the
exact-arithmetic reading of it, and `GetDistance` uses that reading.

Consequences of the rows as written in `1/main.cpp` that a reader might not
expect:

- Joint over-delivery is impossible. The coverage row has a binary
  `is_delivered`, so it caps the total all cars bring a client at the
  client's demand (`CoverageLinkage`).
- The auxiliary flow variables are declared with the upper bound 1000
  (line 97), while row 124 already caps each of them at N times its arc
  variable. So the constant 1000 only binds when N > 1000, and then no car
  can visit more than 1000 clients (`VisitedClientsCapped`).
- A capacity below a client's demand does not keep that client unserved.
  Partial deliveries are feasible (`PartialDeliveryFeasible`).
- A client can be marked delivered while receiving nothing
  (`IdleFleetFeasible`).

## Model

| member | source | states |
|---|---|---|
| Formulation.MakeInstance | 1/main.cpp:46-49 | income and demand lose the depot row, so client c reads table row c+1; coordinates stay per vertex; the instance is well formed exactly when every client row has a positive demand |
| Formulation.InDomains | 1/main.cpp:55-74 | the bounds and types of the `addVar` calls: is_delivered, car_path and taked_vertices binary, cars_to_clients an integer in [0, capacity], edges an integer in [0, 1000] (line 97) |
| Formulation.CoverageRows | 1/main.cpp:76-82 | the row `is_delivered[i] >= sum_j cars_to_clients[j][i] / demand[i]` for each client; holds exactly when total delivery is at most demand times is_delivered |
| Formulation.AntiConcentrationRow | 1/main.cpp:85-89 | the row `sum_i is_delivered[i] <= 0.5 * N`; holds exactly when twice the number of marked clients is at most N |
| Formulation.CarRows | 1/main.cpp:99-166 | the rows emitted for one car: depot visited, visit-gated delivery, in- and out-degree equal to the visit flag, no self-loop, edges at most N times car_path, depot outflow, per-client conservation, capacity |
| Formulation.Feasible | 1/main.cpp:55-166 | all variable domains and every row the code adds, for every car |
| Formulation.CarDistanceCost | 1/main.cpp:151-155 | one car's term of distance_cost, the sum of car_path times distance over ordered vertex pairs; its accumulation is stated by AccumulateCarCost |
| Formulation.DistanceCost | 1/main.cpp:151-155 | distance_cost, the per-car travel costs summed over cars; its accumulation is stated by BuildObjective |
| Formulation.ProfitTerms | 1/main.cpp:158-159 | one car's terms of total_profit, `cars_to_clients / demand * income` per client, one per client |
| Formulation.ProfitTermBounds | 1/main.cpp:158-159 | for a non-negative income, a car delivering between 0 and a client's demand earns between 0 and that client's income from it |
| Formulation.ProfitTermMonotone | 1/main.cpp:158-159 | for a non-negative income, delivering more to a client never earns less from it |
| Formulation.TotalProfit | 1/main.cpp:158-159 | total_profit, the per-car profits summed over cars; its bound is stated by ProfitAtMostServedIncome |
| Geometry.DistanceMatrix | 1/main.cpp:23-34 | entry (i, j) is R of the integer squared distance; for any R with R(0) = 0 the table is symmetric with a zero diagonal |
| Geometry.RoundSqrtFrom | 1/main.cpp:31 | stepping k up while k + 1/2 < sqrt(n) ends at the integer within one half of sqrt(n) |
| Geometry.RoundSqrt | 1/main.cpp:31 | the result is the integer nearest to sqrt(n), i.e. (2k-1)^2 < 4n < (2k+1)^2 |
| Geometry.RoundedRootUnique | 1/main.cpp:31 | the nearest integer to sqrt(n) is unique, so the rounding is fully determined (and maps 0 to 0) |
| Geometry.GetDistance | 1/main.cpp:23-34 | the table get_distance builds: non-negative rounded distances, symmetric, zero diagonal |
| Guarantees.CoverageLinkage | 1/main.cpp:76-82 | total delivery to a client is at most demand times is_delivered: any delivery forces is_delivered = 1, and the cars together never exceed the demand |
| Guarantees.AntiConcentration | 1/main.cpp:85-89 | the number of clients marked delivered is at most floor(N/2), odd N included |
| Guarantees.LoadBounds | 1/main.cpp:101-104 | each car brings each client between 0 and its demand, only if it visits vertex c+1, and at most Q in total (rows 162-166) |
| Guarantees.DegreeBalance | 1/main.cpp:105-118 | a visited vertex has exactly one incoming and one outgoing arc, an unvisited one has none, and no arc is a self-loop |
| Guarantees.ArcEndsVisited | 1/main.cpp:105-115 | both endpoints of a used arc are visited |
| Guarantees.RouteLeavesDepot | 1/main.cpp:99-118 | every car visits the depot and leaves it along an arc to a visited client |
| Guarantees.NoRouteWithoutClients | 1/main.cpp:99-118 | with zero clients and at least one car no assignment is feasible |
| Guarantees.VisitedClientsCapped | 1/main.cpp:95-135 | the depot emits one unit per visited client on a single arc whose flow is declared at most 1000, so a car visits at most 1000 clients; this binds only when N > 1000, since row 124 already caps that arc's flow at N |
| Subtour.AuxNetInflowPositive | 1/main.cpp:137-148 | summed over a set of clients holding a visited one, the conservation rows give a net inflow of at least one unit |
| Subtour.CutIsEntered | 1/main.cpp:120-148 | every set of clients holding a visited vertex is entered, from outside, by a used arc carrying positive auxiliary flow |
| Subtour.NoClosedClientSet | 1/main.cpp:105-148 | no set of clients holding a visited vertex is closed under the car's arcs: some used arc leaves it (no subtour detached from the depot) |
| Subtour.EveryVisitedVertexReachable | 1/main.cpp:105-148 | every vertex a car visits lies on a walk from the depot along that car's arcs |
| Objective.AccumulateCarCost | 1/main.cpp:151-155 | the per-pair terms one car adds to distance_cost total the distances of the arcs it uses |
| Objective.AccumulateCarProfit | 1/main.cpp:158-159 | the per-client terms one car adds to total_profit total load/demand*income over clients, in exact rationals |
| Objective.BuildObjective | 1/main.cpp:151-169 | the running totals built inside the loop over cars equal the sums over all cars; the objective is total_profit minus distance_cost |
| Objective.TableDistanceCostNonNegative | 1/main.cpp:46-51 | the instance built from the table, with the distance table of its own coordinates, gives every feasible assignment a non-negative distance_cost |
| Objective.DistanceCostNonNegative | 1/main.cpp:151-155 | with non-negative distances the travel cost of a feasible assignment is non-negative |
| Objective.ClientProfit | 1/main.cpp:158-159 | what all cars earn from client c is its income times the delivered share of its demand |
| Objective.ClientProfitBound | 1/main.cpp:76-82 | for a non-negative income, a client contributes at most its income to the profit, and nothing unless it is marked delivered |
| Objective.ProfitAtMostServedIncome | 1/main.cpp:158-159 | for non-negative incomes, total profit is at most the summed income of the clients marked delivered |
| Scenarios.IdleFleetFeasible | 1/main.cpp:76-91 | with no cars, any 0/1 marking of at most half the clients is feasible with zero cost and profit; marking does not require delivery |
| Scenarios.PartialDeliveryFeasible | 1/main.cpp:60-63 | a car with capacity 3 may deliver 3 of a client's 5 units on a depot-client-depot route; the assignment is feasible |

## Left out

- The solver session: environment, the 60-second time limit, `optimize()`, solution status, and any claim of optimality (1/main.cpp:41-44, 170). The model states feasibility of a given assignment only.
- CSV loading and file paths (1/main.cpp:25-26, 46, 48, 187-195): coordinates, income and demand are input sequences. There is no input validation in the code. Positive demand and matching column lengths are the precondition `WellFormed`.
- Printing the two objective values and the exception handlers (1/main.cpp:172-183): this is I/O. `BuildObjective` computes the two values the code prints, for a given assignment.
- Floating point in `std::pow` / `std::lround` (1/main.cpp:31): `DistanceMatrix` takes the rounding as a parameter, and `RoundSqrt` is its exact-arithmetic reading. The same goes for the solver's double-precision coefficients `income/demand`, which are modelled as exact rationals.
- Geometry.DistanceMatrix: does not model 32-bit wrap-around of the coordinate difference, or the narrowing of `lround`'s `long` result to `int32_t`. Both only matter for coordinates far beyond those of a routing dataset.
- Fixed-width integers in general: counts, capacity, loads and flows are unbounded integers.
- The compile-time `num_clients` template parameter and the heap-allocated `GRBLinExpr` handles: the model uses runtime N and K and plain values.
- The objective coefficient 1 passed to every `addVar`: `setObjective` replaces it.
- Determinism of the distance table under re-computation: `DistanceMatrix` is a pure function, so this holds by construction.
