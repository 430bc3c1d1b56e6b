/**
 Subtour elimination by the single-commodity auxiliary flow.

 For each car the depot emits one unit of auxiliary flow per client it
 visits, every visited client absorbs one unit, and flow may only travel on
 arcs the car uses. Summing the conservation rows over any set of clients
 that contains a visited one shows that flow, hence a used arc, must enter
 that set from outside. Consequently no set of clients holding a visited
 vertex is closed under the car's arcs, and every visited vertex is
 reachable from the depot.
 */
module Subtour {
  import opened Sums
  import opened Formulation
  import Guarantees

  /** `S` is a set of client vertices (the depot excluded) holding at least
      one vertex car `v` visits. */
  predicate VisitedClientSet(inst: Instance, a: Assignment, v: int, S: set<int>)
    requires Shaped(inst, a) && 0 <= v < inst.numCars
  {
    && (forall j :: j in S ==> 1 <= j <= inst.numClients)
    && (exists j :: j in S && a.visited[v][j] == 1)
  }

  /** The conservation rows, summed over `S`, give the number of visited
      vertices in `S`, which is at least one. */
  lemma AuxNetInflowPositive(inst: Instance, a: Assignment, v: int, S: set<int>)
    requires WellFormed(inst) && Feasible(inst, a)
    requires 0 <= v < inst.numCars
    requires VisitedClientSet(inst, a, v, S)
    ensures NetInflowOf(a.aux[v], S) >= 1
  {
    var aux := a.aux[v];
    var n := |aux|;
    assert CarRows(inst, a, v);
    assert Binary(a.visited[v]);
    var terms := seq(n, j requires 0 <= j < n => Ind(S, j) * (Sum(Column(aux, j)) - Sum(aux[j])));
    forall j | 0 <= j < n
      ensures terms[j] == Ind(S, j) * a.visited[v][j]
    {
      if j in S {
        assert Sum(aux[j]) - Sum(Column(aux, j)) == -a.visited[v][j];
      }
    }
    var j0 :| j0 in S && a.visited[v][j0] == 1;
    assert terms[j0] == 1;
    SumAtLeastTerm(terms, j0);
  }

  /** Flow enters every set of clients holding a visited vertex, along an
      arc the car uses, from a vertex outside the set. */
  lemma CutIsEntered(inst: Instance, a: Assignment, v: int, S: set<int>)
    requires WellFormed(inst) && Feasible(inst, a)
    requires 0 <= v < inst.numCars
    requires VisitedClientSet(inst, a, v, S)
    ensures exists k, j :: 0 <= k <= inst.numClients && k !in S && j in S
                           && a.arc[v][k][j] == 1 && a.aux[v][k][j] > 0
  {
    var arc := a.arc[v];
    var aux := a.aux[v];
    var nc := inst.numClients;
    assert CarRows(inst, a, v);
    AuxNetInflowPositive(inst, a, v, S);
    CutIdentity(aux, S);
    var crossing := Crossing(aux, S);
    if !exists k, j :: 0 <= k <= nc && k !in S && j in S && arc[k][j] == 1 && aux[k][j] > 0 {
      forall k, j | 0 <= k < |crossing| && 0 <= j < |crossing[k]|
        ensures crossing[k][j] <= 0
      {
        assert 0 <= aux[k][j];
        if k !in S && j in S {
          assert Binary(arc[k]);
          assert aux[k][j] - nc * arc[k][j] <= 0;
          if arc[k][j] == 0 {
            assert aux[k][j] <= 0;
          }
        }
      }
      TotalNonPositive(crossing);
      assert false;
    }
  }

  /** No set of clients holding a visited vertex is closed under the car's
      arcs: some used arc leaves it. This is what rules out a subtour that
      misses the depot. */
  lemma NoClosedClientSet(inst: Instance, a: Assignment, v: int, S: set<int>)
    requires WellFormed(inst) && Feasible(inst, a)
    requires 0 <= v < inst.numCars
    requires VisitedClientSet(inst, a, v, S)
    ensures exists j, k :: j in S && 0 <= k <= inst.numClients && k !in S && a.arc[v][j][k] == 1
  {
    var arc := a.arc[v];
    var nc := inst.numClients;
    assert CarRows(inst, a, v);
    CutIsEntered(inst, a, v, S);
    var k0, j0 :| 0 <= k0 <= nc && k0 !in S && j0 in S && arc[k0][j0] == 1 && a.aux[v][k0][j0] > 0;
    // The arc flow itself is conserved at every vertex, so its net inflow
    // into S is zero.
    var n := |arc|;
    var terms := seq(n, j requires 0 <= j < n => Ind(S, j) * (Sum(Column(arc, j)) - Sum(arc[j])));
    assert terms == seq(n, j => 0);
    SumOfZeros(n);
    CutIdentity(arc, S);
    var crossing := Crossing(arc, S);
    if !exists j, k :: j in S && 0 <= k <= nc && k !in S && arc[j][k] == 1 {
      forall k, j | 0 <= k < |crossing| && 0 <= j < |crossing[k]|
        ensures crossing[k][j] >= 0
      {
        assert Binary(arc[k]);
      }
      TotalAtLeastEntry(crossing, k0, j0);
      assert false;
    }
  }

  // ---------------------------------------------------------------------------
  // Reachability from the depot
  // ---------------------------------------------------------------------------

  /** `p` is a walk along used arcs of `arc` that starts at the depot. */
  predicate IsDepotWalk(arc: seq<seq<int>>, p: seq<int>)
    requires IsMatrix(arc, |arc|, |arc|)
  {
    && |p| >= 1
    && p[0] == 0
    && (forall i :: 0 <= i < |p| ==> 0 <= p[i] < |arc|)
    && (forall i :: 0 <= i < |p| - 1 ==> arc[p[i]][p[i + 1]] == 1)
  }

  ghost predicate Reachable(arc: seq<seq<int>>, j: int)
    requires IsMatrix(arc, |arc|, |arc|)
  {
    exists p :: IsDepotWalk(arc, p) && p[|p| - 1] == j
  }

  lemma ExtendWalk(arc: seq<seq<int>>, k: int, j: int)
    requires IsMatrix(arc, |arc|, |arc|)
    requires Reachable(arc, k)
    requires 0 <= j < |arc| && 0 <= k < |arc| && arc[k][j] == 1
    ensures Reachable(arc, j)
  {
    var p :| IsDepotWalk(arc, p) && p[|p| - 1] == k;
    var q := p + [j];
    assert IsDepotWalk(arc, q);
  }

  /** Every vertex a car visits lies on a walk from the depot along the
      car's arcs: the route has no piece detached from the depot. */
  lemma EveryVisitedVertexReachable(inst: Instance, a: Assignment, v: int, j: int)
    requires WellFormed(inst) && Feasible(inst, a)
    requires 0 <= v < inst.numCars && 0 <= j <= inst.numClients
    requires a.visited[v][j] == 1
    ensures Reachable(a.arc[v], j)
  {
    var arc := a.arc[v];
    var nc := inst.numClients;
    assert IsDepotWalk(arc, [0]);
    if j != 0 && !Reachable(arc, j) {
      var S := set x | 1 <= x <= nc && a.visited[v][x] == 1 && !Reachable(arc, x);
      assert j in S;
      CutIsEntered(inst, a, v, S);
      var k, i :| 0 <= k <= nc && k !in S && i in S && arc[k][i] == 1 && a.aux[v][k][i] > 0;
      Guarantees.ArcEndsVisited(inst, a, v, k, i);
      assert Reachable(arc, k);
      ExtendWalk(arc, k, i);
      assert false;
    }
  }
}
