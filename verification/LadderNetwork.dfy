/** A rung's contact network as an object: built node by node, ordered by Kahn's
    algorithm with a stack, and evaluated by letting power flow along that order. */
module LadderNetwork {
  import opened HalValues
  import opened LadderGraph
  import opened LadderPass

  /** The rail is a node, and the pass from it does not visit every node with an edge into it. */
  ghost predicate Orderable(edges: seq<ContactEdge>, n: nat, rail: Option<nat>) {
    rail.Some? ==>
      rail.value < n && forall topo :: KahnOrder(edges, n, {rail.value}, topo) ==> !Ready(edges, topo, rail.value)
  }

  lemma OrderablePassEnds(edges: seq<ContactEdge>, n: nat, rail: Option<nat>)
    requires EdgesWithin(edges, n) && Orderable(edges, n, rail)
    ensures PassEnds(edges, n, rail) && KahnOrder(edges, n, SeedsOf(edges, n, rail), PassOrder(edges, n, rail))
    ensures rail.Some? ==> rail.value < n
  {
    if rail.Some? {
      var topo := OrderExists(edges, n, rail);
      assert SeedsOf(edges, n, rail) == {rail.value};
      PassEndsExactly(edges, n, rail.value, topo);
    } else {
      RaillessPassEnds(edges, n);
    }
  }

  // ----- the object -----

  class ContactNetwork {
    var nodeCount: nat
    var edges: seq<ContactEdge>
    var leftRail: Option<nat>
    var outputNode: Option<nat>
    var outgoing: seq<seq<nat>>
    var topoOrder: seq<nat>
    var dirty: bool

    predicate Valid()
      reads this
    {
      && |outgoing| == nodeCount
      && EdgesWithin(edges, nodeCount)
      && (forall v: nat :: v < nodeCount ==> outgoing[v] == OutEdges(edges, v))
      && (forall v :: v in topoOrder ==> v < nodeCount)
    }

    /** If the order has to be built, that can be done. */
    ghost predicate Sortable()
      reads this
    {
      dirty ==> Orderable(edges, nodeCount, leftRail)
    }

    /** The order that the next evaluation uses: the stored one unless it is out of date. */
    ghost function OrderInUse(): seq<nat>
      reads this
    {
      if dirty && EdgesWithin(edges, nodeCount) then PassOrder(edges, nodeCount, leftRail) else topoOrder
    }

    constructor ()
      ensures Valid() && !dirty && topoOrder == []
      ensures nodeCount == 0 && edges == [] && leftRail.None? && outputNode.None?
    {
      nodeCount, edges, leftRail, outputNode := 0, [], None, None;
      outgoing, topoOrder, dirty := [], [], false;
    }

    method AddNode() returns (id: nat)
      requires Valid()
      modifies this`nodeCount, this`outgoing, this`dirty
      ensures Valid() && dirty && nodeCount == old(nodeCount) + 1 && id == old(nodeCount)
    {
      id := nodeCount;
      NoOutEdges(edges, nodeCount, nodeCount);
      nodeCount := nodeCount + 1;
      outgoing := outgoing + [[]];
      dirty := true;
    }

    method AddEdge(source: nat, target: nat, contact: Contact)
      requires Valid() && source < nodeCount && target < nodeCount
      modifies this`edges, this`outgoing, this`dirty
      ensures Valid() && dirty && edges == old(edges) + [ContactEdge(source, target, contact)]
    {
      edges := edges + [ContactEdge(source, target, contact)];
      var i := |edges| - 1;
      assert edges[..i] == old(edges);
      outgoing := outgoing[source := outgoing[source] + [i]];
      dirty := true;
    }

    /** Does not mark the stored order as out of date. */
    method SetLeftRail(node: nat)
      modifies this`leftRail
      ensures leftRail == Some(node)
    {
      leftRail := Some(node);
    }

    method SetOutputNode(node: nat)
      modifies this`outputNode
      ensures outputNode == Some(node)
    {
      outputNode := Some(node);
    }

    method TopologicalOrder() returns (topo: seq<nat>)
      requires Valid() && Sortable()
      modifies this`topoOrder, this`dirty
      ensures Valid() && !dirty && topo == topoOrder == old(OrderInUse())
      ensures old(dirty) ==> KahnOrder(edges, nodeCount, SeedsOf(edges, nodeCount, leftRail), topo)
    {
      if dirty { RebuildTopo(); }
      topo := topoOrder;
    }

    /** Kahn's algorithm with a stack. */
    method RebuildTopo()
      requires Valid() && Orderable(edges, nodeCount, leftRail)
      modifies this`topoOrder, this`dirty
      ensures Valid() && !dirty && topoOrder == PassOrder(edges, nodeCount, leftRail)
      ensures KahnOrder(edges, nodeCount, SeedsOf(edges, nodeCount, leftRail), topoOrder)
    {
      hide KahnOrder; hide PassStep; hide Orderable; hide SeedsOf; hide PassRun; hide StartState; hide PassOrder;
      OrderablePassEnds(edges, nodeCount, leftRail);
      ghost var start := StartState(edges, nodeCount, leftRail);
      ghost var last: nat :| PassRun(edges, start, last).stack == [];
      ghost var k := 0;
      var inDegree, queue := StartPass();
      topoOrder := [];
      NoSteps(edges, start);
      while queue != []
        invariant fresh(inDegree) && inDegree.Length == nodeCount && k <= last && Valid()
        invariant PassRun(edges, start, k) == PassState(queue, inDegree[..], topoOrder)
        decreases last - k
      {
        if k == last { assert false; }
        PoppedIsNode(edges, nodeCount, leftRail, k);
        queue := VisitNext(inDegree, queue);
        OneStepMore(edges, start, k);
        k := k + 1;
      }
      PassOrderIs(edges, nodeCount, leftRail, k);
      dirty := false;
    }

    /** Takes the node on top of the stack into the order and uses its edges. */
    method VisitNext(inDegree: array<nat>, queue0: seq<nat>) returns (queue: seq<nat>)
      requires Valid() && inDegree.Length == nodeCount && queue0 != [] && forall v :: v in queue0 ==> v < nodeCount
      modifies this`topoOrder, inDegree
      ensures Valid() && EdgesWithin(edges, old(|inDegree[..]|))
      ensures PassState(queue, inDegree[..], topoOrder) ==
              PassStep(edges, PassState(queue0, old(inDegree[..]), old(topoOrder)))
    {
      hide UseEdges;
      var node := queue0[|queue0| - 1];
      assert node in queue0;
      topoOrder := topoOrder + [node];
      queue := Visit(node, inDegree, queue0[..|queue0| - 1]);
    }

    method StartPass() returns (inDegree: array<nat>, queue: seq<nat>)
      requires Valid()
      ensures fresh(inDegree) && inDegree.Length == nodeCount
      ensures StartState(edges, nodeCount, leftRail) == PassState(queue, inDegree[..], [])
    {
      hide Remaining;
      inDegree := CountEntries();
      assert inDegree[..] == InDegrees(edges, nodeCount);
      if leftRail.Some? {
        queue := [leftRail.value];
      } else {
        queue := NodesWithoutEntry(inDegree);
      }
    }

    method CountEntries() returns (inDegree: array<nat>)
      requires EdgesWithin(edges, nodeCount)
      ensures fresh(inDegree) && inDegree.Length == nodeCount
      ensures forall v: nat :: v < nodeCount ==> inDegree[v] == Remaining(edges, v, {})
    {
      inDegree := new nat[nodeCount](_ => 0);
      for i := 0 to |edges|
        invariant forall v: nat :: v < nodeCount ==> inDegree[v] == Remaining(edges[..i], v, {})
      {
        assert edges[..i + 1][..i] == edges[..i];
        assert edges[i] in edges;
        inDegree[edges[i].target] := inDegree[edges[i].target] + 1;
      }
      assert edges[..|edges|] == edges;
    }

    method NodesWithoutEntry(inDegree: array<nat>) returns (queue: seq<nat>)
      requires inDegree.Length == nodeCount && forall v: nat :: v < nodeCount ==> inDegree[v] == Remaining(edges, v, {})
      ensures queue == Entries(edges, nodeCount)
    {
      queue := [];
      for v := 0 to nodeCount
        invariant queue == Entries(edges, v)
      {
        if inDegree[v] == 0 { queue := queue + [v]; }
      }
    }

    /** Use up the edges of one node; push every target whose in-degree is zero then. */
    method Visit(node: nat, inDegree: array<nat>, queue0: seq<nat>) returns (queue: seq<nat>)
      requires Valid() && node < nodeCount && inDegree.Length == nodeCount
      modifies inDegree
      ensures OfGraph(edges, OutEdges(edges, node), old(inDegree[..]))
      ensures (queue, inDegree[..]) == UseEdges(edges, OutEdges(edges, node), queue0, old(inDegree[..]))
    {
      queue := queue0;
      ghost var degrees := inDegree[..];
      OutOfGraph(edges, node, degrees);
      var out := outgoing[node];
      for k := 0 to |out|
        invariant (queue, inDegree[..]) == UseEdges(edges, out[..k], queue0, degrees)
      {
        assert out[..k + 1][..k] == out[..k];
        var target := edges[out[k]].target;
        inDegree[target] := if inDegree[target] > 0 then inDegree[target] - 1 else 0;
        if inDegree[target] == 0 { queue := queue + [target]; }
      }
      assert out[..|out|] == out;
    }

    /** Whether power flows from the left rail to the output node: one pass over the nodes in
        the order in use, be it of this rail or an earlier one. */
    method EvaluatePowerFlow(snapshot: map<string, bool>) returns (power: bool)
      requires Valid() && Sortable() && leftRail.Some? && outputNode.Some?
      modifies this`topoOrder, this`dirty
      ensures Valid() && !dirty && topoOrder == old(OrderInUse())
      ensures old(dirty) ==> KahnOrder(edges, nodeCount, {leftRail.value}, topoOrder)
      ensures power == PoweredAlong(edges, snapshot, topoOrder, leftRail.value, outputNode.value)
    {
      hide KahnOrder; hide PoweredAlong; hide Closed; hide PassOrder; hide Orderable;
      var rail := leftRail.value;
      var topo := TopologicalOrder();
      assert SeedsOf(edges, nodeCount, leftRail) == {rail};
      var nodePower: map<nat, bool> := map[rail := true];
      forall v: nat
        ensures Has(nodePower, v) <==> PoweredAlong(edges, snapshot, topo[..0], rail, v)
      {
        assert topo[..0] == [];
        OnlyRail(edges, snapshot, rail, v);
      }
      for k := 0 to |topo|
        invariant Valid() && !dirty && topoOrder == topo
        invariant PowerSoFar(edges, snapshot, topo[..k], rail, nodePower)
      {
        var node := topo[k];
        assert node in topoOrder;
        if node in nodePower && nodePower[node] {
          ghost var before := nodePower;
          nodePower := SpreadPower(node, snapshot, nodePower);
          PowerSpread(edges, topo, k, snapshot, rail, before, nodePower);
        } else {
          PowerSpread(edges, topo, k, snapshot, rail, nodePower, nodePower);
        }
      }
      assert topo[..|topo|] == topo;
      power := outputNode.value in nodePower && nodePower[outputNode.value];
    }

    /** A powered node powers the targets of its closed contacts. */
    method SpreadPower(node: nat, snapshot: map<string, bool>, power0: map<nat, bool>) returns (power: map<nat, bool>)
      requires Valid() && node < nodeCount
      ensures forall v: nat :: Has(power, v) <==> Has(power0, v) || LinkedFrom(edges, snapshot, node, v)
    {
      hide Closed; hide LinkedFrom; hide LinkedBy;
      power := power0;
      var out := outgoing[node];
      NoLink(edges, snapshot, out);
      for j := 0 to |out|
        invariant forall v: nat :: Has(power, v) <==> Has(power0, v) || LinkedBy(edges, snapshot, out[..j], v)
      {
        var edge := edges[out[j]];
        var contactPower := match edge.contact case No(v) => GetBool(snapshot, v) case Nc(v) => !GetBool(snapshot, v);
        ClosedIs(edge.contact, snapshot);
        OneLinkMore(edges, snapshot, out, j);
        ghost var before := power;
        var existing := edge.target in power && power[edge.target];
        power := power[edge.target := existing || contactPower];
        assert forall v: nat :: Has(power, v) <==> Has(before, v) || (v == edge.target && contactPower);
      }
      assert out[..|out|] == out;
      AllLinks(edges, snapshot, node);
    }
  }

  /** An edge of the list leads to `v` over a closed contact. */
  predicate LinkedBy(edges: seq<ContactEdge>, store: map<string, bool>, out: seq<nat>, v: nat) {
    exists i :: i in out && i < |edges| && edges[i].target == v && Closed(edges[i].contact, store)
  }

  lemma NoLink(edges: seq<ContactEdge>, store: map<string, bool>, out: seq<nat>)
    ensures forall v: nat :: !LinkedBy(edges, store, out[..0], v)
  {
  }

  lemma OneLinkMore(edges: seq<ContactEdge>, store: map<string, bool>, out: seq<nat>, j: nat)
    requires j < |out| && out[j] < |edges|
    ensures forall v: nat :: LinkedBy(edges, store, out[..j + 1], v) <==>
              LinkedBy(edges, store, out[..j], v) || (v == edges[out[j]].target && Closed(edges[out[j]].contact, store))
  {
    hide Closed;
    assert out[..j + 1] == out[..j] + [out[j]];
    forall v: nat
      ensures LinkedBy(edges, store, out[..j + 1], v) <==>
              LinkedBy(edges, store, out[..j], v) || (v == edges[out[j]].target && Closed(edges[out[j]].contact, store))
    {
      if LinkedBy(edges, store, out[..j], v) {
        var i :| i in out[..j] && i < |edges| && edges[i].target == v && Closed(edges[i].contact, store);
        assert i in out[..j + 1];
      }
      assert out[j] in out[..j + 1];
    }
  }

  lemma AllLinks(edges: seq<ContactEdge>, store: map<string, bool>, node: nat)
    ensures forall v: nat :: LinkedBy(edges, store, OutEdges(edges, node), v) <==> LinkedFrom(edges, store, node, v)
  {
    hide Closed; hide OutEdges;
    forall v: nat
      ensures LinkedBy(edges, store, OutEdges(edges, node), v) <==> LinkedFrom(edges, store, node, v)
    {
      if LinkedFrom(edges, store, node, v) {
        var i: nat :| 0 <= i < |edges| && edges[i].source == node && edges[i].target == v &&
          Closed(edges[i].contact, store);
        assert i in OutEdges(edges, node);
      }
    }
  }

  predicate Has(power: map<nat, bool>, v: nat) { v in power && power[v] }

  ghost predicate PowerSoFar(edges: seq<ContactEdge>, store: map<string, bool>, order: seq<nat>, rail: nat,
                             power: map<nat, bool>) {
    forall v: nat :: Has(power, v) <==> PoweredAlong(edges, store, order, rail, v)
  }

  lemma ClosedIs(c: Contact, store: map<string, bool>)
    ensures Closed(c, store) == match c case No(v) => GetBool(store, v) case Nc(v) => !GetBool(store, v)
  {
  }

  lemma {:induction false} NoOutEdges(edges: seq<ContactEdge>, n: nat, v: nat)
    requires EdgesWithin(edges, n) && v >= n
    ensures OutEdges(edges, v) == []
  {
    if edges != [] {
      var front := edges[..|edges| - 1];
      assert forall e :: e in front ==> e in edges;
      assert edges[|edges| - 1] in edges;
      NoOutEdges(front, n, v);
    }
  }

  /** Whatever stands on the stack is a node. */
  lemma PoppedIsNode(edges: seq<ContactEdge>, n: nat, rail: Option<nat>, k: nat)
    requires EdgesWithin(edges, n) && (rail.Some? ==> rail.value < n)
    ensures forall v :: v in PassRun(edges, StartState(edges, n, rail), k).stack ==> v < n
  {
    if k > 0 {
      PoppedIsNode(edges, n, rail, k - 1);
      var st := PassRun(edges, StartState(edges, n, rail), k - 1);
      if st.stack != [] {
        var m := |st.stack| - 1;
        OutOfGraph(edges, st.stack[m], st.degrees);
        assert forall v :: v in st.stack[..m] ==> v in st.stack;
        PushedAreNodes(edges, OutEdges(edges, st.stack[m]), st.stack[..m], st.degrees, n);
      }
    }
  }

  lemma {:induction false} PushedAreNodes(edges: seq<ContactEdge>, out: seq<nat>, stack: seq<nat>, degrees: seq<nat>,
                                          n: nat)
    requires OfGraph(edges, out, degrees) && |degrees| == n && forall v :: v in stack ==> v < n
    ensures forall v :: v in UseEdges(edges, out, stack, degrees).0 ==> v < n
  {
    if out != [] { PushedAreNodes(edges, out[..|out| - 1], stack, degrees, n); }
  }

  lemma NoSteps(edges: seq<ContactEdge>, st: PassState)
    requires EdgesWithin(edges, |st.degrees|)
    ensures PassRun(edges, st, 0) == st
  {
  }

  lemma OneStepMore(edges: seq<ContactEdge>, st: PassState, k: nat)
    requires EdgesWithin(edges, |st.degrees|)
    ensures PassRun(edges, st, k + 1) == PassStep(edges, PassRun(edges, st, k))
  {
    hide PassStep;
  }

  lemma PowerSpread(edges: seq<ContactEdge>, topo: seq<nat>, k: nat, store: map<string, bool>, rail: nat,
                    before: map<nat, bool>, after: map<nat, bool>)
    requires k < |topo| && PowerSoFar(edges, store, topo[..k], rail, before)
    requires forall v: nat ::
               Has(after, v) <==> Has(before, v) || (Has(before, topo[k]) && LinkedFrom(edges, store, topo[k], v))
    ensures PowerSoFar(edges, store, topo[..k + 1], rail, after)
  {
    hide PoweredAlong; hide LinkedFrom;
    forall v: nat
      ensures Has(after, v) <==> PoweredAlong(edges, store, topo[..k + 1], rail, v)
    {
      OneNodeMore(edges, topo, k, store, rail, v);
    }
  }
}
