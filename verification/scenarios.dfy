/**
 Small instances that show what the formulation admits: an idle fleet, a
 client marked delivered that receives nothing, and a partial delivery by a
 car whose capacity is below the client's demand.
 */
module Scenarios {
  import opened Sums
  import opened Formulation

  /** With no cars there are no per-car rows: any 0/1 marking of at most half
      the clients is feasible, even though nothing is delivered, and both
      objective terms are zero. */
  lemma IdleFleetFeasible(inst: Instance, dist: seq<seq<int>>, marked: seq<int>)
    requires WellFormed(inst) && inst.numCars == 0
    requires IsMatrix(dist, inst.numClients + 1, inst.numClients + 1)
    requires |marked| == inst.numClients && Binary(marked)
    requires 2 * Sum(marked) <= inst.numClients
    ensures Feasible(inst, Assignment(marked, [], [], [], []))
    ensures DistanceCost(inst, dist, Assignment(marked, [], [], [], [])) == 0
    ensures TotalProfit(inst, Assignment(marked, [], [], [], [])) == 0.0
  {
    var a := Assignment(marked, [], [], [], []);
    forall c | 0 <= c < inst.numClients
      ensures Sum(Column(a.load, c)) == 0
    {
      assert Column(a.load, c) == [];
    }
  }

  /** Two clients 10 and 20 units from the depot, demand 5 each, income 100
      each, one car of capacity 3. */
  function SmallInstance(): Instance
  {
    Instance(2, 1, 3, [0, 10, 0], [0, 0, 20], [100, 100], [5, 5])
  }

  /** The car goes depot -> client 0 -> depot and drops 3 of the 5 units. */
  function PartialRoute(): Assignment
  {
    Assignment(
      [1, 0],
      [[3, 0]],
      [[[0, 1, 0], [1, 0, 0], [0, 0, 0]]],
      [[1, 1, 0]],
      [[[0, 1, 0], [0, 0, 0], [0, 0, 0]]])
  }

  /** The route satisfies the rows of its one car. */
  lemma PartialRouteCarRows()
    ensures WellFormed(SmallInstance()) && Shaped(SmallInstance(), PartialRoute())
    ensures CarRows(SmallInstance(), PartialRoute(), 0)
  {
    var a := PartialRoute();
    var arc := a.arc[0];
    var aux := a.aux[0];
    assert Column(arc, 0) == [0, 1, 0];
    assert Column(arc, 1) == [1, 0, 0];
    assert Column(arc, 2) == [0, 0, 0];
    assert Sum(arc[0]) == 1 && Sum(arc[1]) == 1 && Sum(arc[2]) == 0;
    assert Column(aux, 1) == [1, 0, 0];
    assert Column(aux, 2) == [0, 0, 0];
    assert Sum(aux[0]) == 1 && Sum(aux[1]) == 0 && Sum(aux[2]) == 0;
    assert Sum(a.visited[0]) == 2;
  }

  lemma PartialRouteDomains()
    ensures WellFormed(SmallInstance()) && Shaped(SmallInstance(), PartialRoute())
    ensures InDomains(SmallInstance(), PartialRoute())
  {
    var a := PartialRoute();
    assert Binary(a.delivered);
    assert Binary(a.visited[0]);
    assert forall i :: 0 <= i < 3 ==> Binary(a.arc[0][i]);
    assert forall i, j :: 0 <= i < 3 && 0 <= j < 3 ==> 0 <= a.aux[0][i][j] <= AuxFlowBound;
  }

  /** Client 0 is marked delivered and receives 3 of its 5 units; client 1
      is neither marked nor served, which keeps within the cap of one. */
  lemma PartialRouteCoverage()
    ensures WellFormed(SmallInstance()) && Shaped(SmallInstance(), PartialRoute())
    ensures CoverageRows(SmallInstance(), PartialRoute())
    ensures AntiConcentrationRow(SmallInstance(), PartialRoute())
  {
    var a := PartialRoute();
    assert Sum(Column(a.load, 0)) == 3 by {
      assert Column(a.load, 0) == [3];
    }
    assert Sum(Column(a.load, 1)) == 0 by {
      assert Column(a.load, 1) == [0];
    }
    assert 1.0 >= 3.0 / 5.0;
    assert 0.0 >= 0.0 / 5.0;
    assert Sum(a.delivered) == 1;
  }

  /** A car whose capacity is below a client's demand may still serve that
      client in part: nothing in the formulation asks for full delivery. */
  lemma PartialDeliveryFeasible()
    ensures WellFormed(SmallInstance())
    ensures SmallInstance().capacity < SmallInstance().demand[0]
    ensures Feasible(SmallInstance(), PartialRoute())
    ensures PartialRoute().load[0][0] > 0
  {
    PartialRouteCarRows();
    PartialRouteDomains();
    PartialRouteCoverage();
  }
}
