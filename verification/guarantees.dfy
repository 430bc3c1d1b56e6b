/**
 What every feasible assignment of the formulation guarantees about
 coverage, the anti-concentration policy, deliveries, capacity and the shape
 of each car's arcs.
 */
module Guarantees {
  import opened Sums
  import opened Formulation

  /** Coverage linkage. The coverage row with a binary `delivered` reads, in
      integers, `total delivery <= demand * delivered`. So a client that
      receives anything is marked delivered, and the cars together never
      bring a client more than its demand. A client may still be marked
      delivered with nothing delivered (see the scenarios). */
  lemma CoverageLinkage(inst: Instance, a: Assignment, c: int)
    requires WellFormed(inst) && Feasible(inst, a)
    requires 0 <= c < inst.numClients
    ensures Sum(Column(a.load, c)) <= inst.demand[c] * a.delivered[c]
    ensures Sum(Column(a.load, c)) > 0 ==> a.delivered[c] == 1
    ensures Sum(Column(a.load, c)) <= inst.demand[c]
  {
    var total := Sum(Column(a.load, c));
    var d := inst.demand[c] as real;
    assert a.delivered[c] == 0 || a.delivered[c] == 1;
    assert a.delivered[c] as real >= total as real / d;
    assert a.delivered[c] as real * d >= total as real;
  }

  /** Anti-concentration: at most N/2 clients (rounded down) are marked
      delivered, odd N included. */
  lemma AntiConcentration(inst: Instance, a: Assignment)
    requires WellFormed(inst) && Feasible(inst, a)
    ensures |Ones(a.delivered)| <= inst.numClients / 2
  {
    BinarySumCountsOnes(a.delivered);
    var s := Sum(a.delivered);
    assert 2 * s <= inst.numClients by {
      assert s as real <= 0.5 * inst.numClients as real;
    }
  }

  /** Visit-gated delivery and capacity: a car brings a client between 0 and
      its demand, only when it visits the client's vertex, and at most its
      capacity in total. */
  lemma LoadBounds(inst: Instance, a: Assignment, v: int)
    requires WellFormed(inst) && Feasible(inst, a)
    requires 0 <= v < inst.numCars
    ensures forall c :: 0 <= c < inst.numClients ==> 0 <= a.load[v][c] <= inst.demand[c]
    ensures forall c :: 0 <= c < inst.numClients && a.load[v][c] > 0 ==> a.visited[v][c + 1] == 1
    ensures forall c :: 0 <= c < inst.numClients && a.visited[v][c + 1] == 0 ==> a.load[v][c] == 0
    ensures Sum(a.load[v]) <= inst.capacity
  {
    assert CarRows(inst, a, v);
    forall c | 0 <= c < inst.numClients
      ensures a.load[v][c] <= inst.demand[c]
      ensures a.load[v][c] > 0 ==> a.visited[v][c + 1] == 1
    {
      assert Binary(a.visited[v]);
      assert a.visited[v][c + 1] == 0 || a.visited[v][c + 1] == 1;
    }
  }

  /** Degree balance: a vertex the car visits has exactly one arc in and one
      arc out, a vertex it does not visit has none, and no arc is a loop. */
  lemma DegreeBalance(inst: Instance, a: Assignment, v: int, j: int)
    requires WellFormed(inst) && Feasible(inst, a)
    requires 0 <= v < inst.numCars && 0 <= j <= inst.numClients
    ensures a.visited[v][j] == 1 ==> ExactlyOne(Column(a.arc[v], j)) && ExactlyOne(a.arc[v][j])
    ensures a.visited[v][j] == 0 ==> AllZero(Column(a.arc[v], j)) && AllZero(a.arc[v][j])
    ensures a.arc[v][j][j] == 0
  {
    var arc := a.arc[v];
    assert CarRows(inst, a, v);
    assert Binary(a.visited[v]);
    assert Binary(arc[j]);
    assert Binary(Column(arc, j)) by {
      forall i | 0 <= i < |arc|
        ensures Column(arc, j)[i] == 0 || Column(arc, j)[i] == 1
      {
        assert Binary(arc[i]);
      }
    }
    if a.visited[v][j] == 1 {
      BinarySumOne(Column(arc, j));
      BinarySumOne(arc[j]);
    } else {
      SumZeroAllZero(Column(arc, j));
      SumZeroAllZero(arc[j]);
    }
  }

  /** A used arc joins two visited vertices. */
  lemma ArcEndsVisited(inst: Instance, a: Assignment, v: int, i: int, j: int)
    requires WellFormed(inst) && Feasible(inst, a)
    requires 0 <= v < inst.numCars && 0 <= i <= inst.numClients && 0 <= j <= inst.numClients
    requires a.arc[v][i][j] == 1
    ensures a.visited[v][i] == 1 && a.visited[v][j] == 1
  {
    var arc := a.arc[v];
    assert CarRows(inst, a, v);
    assert Binary(a.visited[v]);
    assert Binary(arc[i]);
    SumAtLeastTerm(arc[i], j);
    assert NonNegative(Column(arc, j)) by {
      forall r | 0 <= r < |arc|
        ensures Column(arc, j)[r] >= 0
      {
        assert Binary(arc[r]);
      }
    }
    SumAtLeastTerm(Column(arc, j), i);
  }

  /** Every car leaves the depot along an arc to a client it visits, so
      every route serves at least one client vertex. */
  lemma RouteLeavesDepot(inst: Instance, a: Assignment, v: int)
    requires WellFormed(inst) && Feasible(inst, a)
    requires 0 <= v < inst.numCars
    ensures a.visited[v][0] == 1
    ensures exists c :: 1 <= c <= inst.numClients && a.arc[v][0][c] == 1 && a.visited[v][c] == 1
  {
    assert CarRows(inst, a, v);
    DegreeBalance(inst, a, v, 0);
    var c :| 0 <= c < |a.arc[v][0]| && OnlyOneAt(a.arc[v][0], c);
    assert c != 0;
    ArcEndsVisited(inst, a, v, 0, c);
  }

  /** With no clients there is nowhere for a car to go: no assignment with
      at least one car is feasible. */
  lemma NoRouteWithoutClients(inst: Instance, a: Assignment)
    requires WellFormed(inst)
    requires inst.numClients == 0 && inst.numCars >= 1
    ensures !Feasible(inst, a)
  {
    if Feasible(inst, a) {
      RouteLeavesDepot(inst, a, 0);
    }
  }

  /** The auxiliary flow leaves the depot on the car's single outgoing arc,
      where its declared bound caps it at 1000 units; since the depot emits
      one unit per visited client, no car visits more than 1000 clients. The
      row capping each flow at N times its arc is tighter unless N > 1000. */
  lemma VisitedClientsCapped(inst: Instance, a: Assignment, v: int)
    requires WellFormed(inst) && Feasible(inst, a)
    requires 0 <= v < inst.numCars
    ensures Sum(a.visited[v]) - 1 <= AuxFlowBound
  {
    var arc := a.arc[v];
    var out := a.aux[v][0];
    var nc := inst.numClients;
    assert CarRows(inst, a, v);
    assert Binary(arc[0]);
    forall k | 0 <= k < |out|
      ensures out[k] <= Scale(AuxFlowBound, arc[0])[k]
    {
      if arc[0][k] == 0 {
        assert out[k] - nc * arc[0][k] <= 0;
      }
    }
    SumMono(out, Scale(AuxFlowBound, arc[0]));
    SumScale(AuxFlowBound, arc[0]);
  }
}
