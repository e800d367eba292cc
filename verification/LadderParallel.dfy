/** Parallel branches between one rail and one output: power is the OR of the branches. */
module LadderParallel {
  import opened HalValues
  import opened LadderGraph
  import opened LadderNetwork
  import opened LadderPass
  import C = LadderCycle

  const LEFT: nat := 0
  const OUTPUT: nat := 1

  function Inner(branch: seq<Contact>): nat { if branch == [] then 0 else |branch| - 1 }

  /** The first node id free behind `branches`. */
  function Base(branches: seq<seq<Contact>>): (r: nat)
    ensures r >= 2
  {
    if branches == [] then 2 else Base(branches[..|branches| - 1]) + Inner(branches[|branches| - 1])
  }

  /** The edge of contact `j`: from the node before it to the next one, or to the output. */
  function EdgeAt(base: nat, branch: seq<Contact>, j: nat): ContactEdge
    requires j < |branch| && base >= 2
  {
    ContactEdge(if j == 0 then LEFT else base + j - 1, if j == |branch| - 1 then OUTPUT else base + j, branch[j])
  }

  function BranchEdges(base: nat, branch: seq<Contact>, k: nat): (r: seq<ContactEdge>)
    requires k <= |branch| && base >= 2
    ensures |r| == k && forall j :: 0 <= j < k ==> r[j] == EdgeAt(base, branch, j)
  {
    if k == 0 then [] else BranchEdges(base, branch, k - 1) + [EdgeAt(base, branch, k - 1)]
  }

  function ParallelEdges(branches: seq<seq<Contact>>): seq<ContactEdge> {
    if branches == [] then []
    else
      var front, last := branches[..|branches| - 1], branches[|branches| - 1];
      ParallelEdges(front) + BranchEdges(Base(front), last, |last|)
  }

  method BuildParallelNetwork(branches: seq<seq<Contact>>) returns (network: ContactNetwork)
    ensures fresh(network) && network.Valid() && network.dirty
    ensures network.nodeCount == Base(branches) && network.edges == ParallelEdges(branches)
    ensures network.leftRail == Some(LEFT) && network.outputNode == Some(OUTPUT)
  {
    network := new ContactNetwork();
    var left := network.AddNode();
    network.SetLeftRail(left);
    var output := network.AddNode();
    network.SetOutputNode(output);
    for b := 0 to |branches|
      invariant fresh(network) && network.Valid() && network.dirty
      invariant network.leftRail == Some(LEFT) && network.outputNode == Some(OUTPUT)
      invariant network.nodeCount == Base(branches[..b]) && network.edges == ParallelEdges(branches[..b])
    {
      assert branches[..b + 1][..b] == branches[..b];
      AddBranch(network, branches[b]);
    }
    assert branches[..|branches|] == branches;
  }

  method AddBranch(network: ContactNetwork, branch: seq<Contact>)
    requires network.Valid() && network.dirty && network.nodeCount >= 2
    modifies network
    ensures network.Valid() && network.dirty
    ensures network.leftRail == old(network.leftRail) && network.outputNode == old(network.outputNode)
    ensures network.nodeCount == old(network.nodeCount) + Inner(branch)
    ensures network.edges == old(network.edges) + BranchEdges(old(network.nodeCount), branch, |branch|)
  {
    ghost var base := network.nodeCount;
    var prev := LEFT;
    for i := 0 to |branch|
      invariant network.Valid() && network.dirty
      invariant network.leftRail == old(network.leftRail) && network.outputNode == old(network.outputNode)
      invariant network.nodeCount == base + (if i == |branch| then Inner(branch) else i)
      invariant i < |branch| ==> prev == if i == 0 then LEFT else base + i - 1
      invariant network.edges == old(network.edges) + BranchEdges(base, branch, i)
    {
      var next := OUTPUT;
      if i != |branch| - 1 {
        next := network.AddNode();
      }
      network.AddEdge(prev, next, branch[i]);
      prev := next;
    }
  }

  // ----- edges and their branches -----

  lemma {:induction false} BaseGrows(branches: seq<seq<Contact>>, b: nat, c: nat)
    requires b < c <= |branches|
    ensures Base(branches[..b]) + Inner(branches[b]) <= Base(branches[..c])
    decreases c
  {
    assert branches[..c][..c - 1] == branches[..c - 1];
    if b < c - 1 { BaseGrows(branches, b, c - 1); }
  }

  /** Contact `j` of branch `b`. */
  function EdgeOf(branches: seq<seq<Contact>>, b: nat, j: nat): ContactEdge
    requires b < |branches| && j < |branches[b]|
  {
    EdgeAt(Base(branches[..b]), branches[b], j)
  }

  lemma {:induction false} EdgeOwner(branches: seq<seq<Contact>>, e: nat) returns (b: nat, j: nat)
    requires e < |ParallelEdges(branches)|
    ensures b < |branches| && j < |branches[b]| && ParallelEdges(branches)[e] == EdgeOf(branches, b, j)
  {
    hide EdgeAt;
    var n := |branches| - 1;
    var front := branches[..n];
    if e < |ParallelEdges(front)| {
      b, j := EdgeOwner(front, e);
      assert front[..b] == branches[..b];
    } else {
      b, j := n, e - |ParallelEdges(front)|;
    }
  }

  lemma {:induction false} EdgeThere(branches: seq<seq<Contact>>, b: nat, j: nat) returns (e: nat)
    requires b < |branches| && j < |branches[b]|
    ensures e < |ParallelEdges(branches)| && ParallelEdges(branches)[e] == EdgeOf(branches, b, j)
    decreases |branches|
  {
    hide EdgeAt;
    var n := |branches| - 1;
    var front := branches[..n];
    if b < n {
      e := EdgeThere(front, b, j);
      assert front[..b] == branches[..b];
    } else {
      e := |ParallelEdges(front)| + j;
    }
  }

  /** The node behind contact `j` lies behind no other contact but a last one. */
  lemma OneEntry(branches: seq<seq<Contact>>, b: nat, j: nat, c: nat, k: nat)
    requires b < |branches| && c < |branches| && j + 1 < |branches[b]| && k < |branches[c]|
    requires EdgeOf(branches, b, j).target == EdgeOf(branches, c, k).target
    ensures b == c && j == k
  {
    if b < c { BaseGrows(branches, b, c); }
    if c < b { BaseGrows(branches, c, b); }
  }

  predicate ClosedUpTo(branch: seq<Contact>, store: map<string, bool>, k: nat)
    requires k <= |branch|
  {
    forall i :: 0 <= i < k ==> Closed(branch[i], store)
  }

  lemma ClosedBefore(branch: seq<Contact>, store: map<string, bool>, j: nat)
    requires j < |branch|
    ensures ClosedUpTo(branch, store, j + 1) ==> ClosedUpTo(branch, store, j)
  {
  }

  /** A powered node other than the rail lies behind contacts of one branch, all closed. */
  lemma {:induction false} PathStaysInBranch(branches: seq<seq<Contact>>, store: map<string, bool>, p: seq<nat>, v: nat)
    returns (b: nat, j: nat)
    requires IsPath(ParallelEdges(branches), p, LEFT, v) && AllClosed(ParallelEdges(branches), store, p) && v != LEFT
    ensures b < |branches| && j < |branches[b]| && EdgeOf(branches, b, j).target == v &&
            ClosedUpTo(branches[b], store, j + 1)
    decreases |p|
  {
    hide Closed; hide ParallelEdges;
    var e, front := p[|p| - 1], p[..|p| - 1];
    b, j := EdgeOwner(branches, e);
    if j > 0 {
      var u := EdgeOf(branches, b, j).source;
      assert AllClosed(ParallelEdges(branches), store, front);
      var c, k := PathStaysInBranch(branches, store, front, u);
      OneEntry(branches, b, j - 1, c, k);
    }
  }

  lemma {:induction false} BranchReaches(branches: seq<seq<Contact>>, store: map<string, bool>, b: nat, j: nat)
    requires b < |branches| && j < |branches[b]|
    ensures Reachable(ParallelEdges(branches), LEFT, EdgeOf(branches, b, j).source)
    ensures ClosedUpTo(branches[b], store, j + 1) ==>
              Powered(ParallelEdges(branches), store, LEFT, EdgeOf(branches, b, j).target)
    decreases j
  {
    hide Closed; hide ParallelEdges;
    var edges, here := ParallelEdges(branches), EdgeOf(branches, b, j);
    if j == 0 {
      ReachSelf(edges, LEFT);
      assert IsPath(edges, [], LEFT, LEFT) && AllClosed(edges, store, []);
    } else {
      BranchReaches(branches, store, b, j - 1);
      ClosedBefore(branches[b], store, j);
      var d := EdgeThere(branches, b, j - 1);
      ReachStep(edges, LEFT, d);
    }
    if ClosedUpTo(branches[b], store, j + 1) {
      var e := EdgeThere(branches, b, j);
      assert Closed(branches[b][j], store);
      PoweredStep(edges, store, LEFT, e);
    }
  }

  predicate SomeBranchClosed(branches: seq<seq<Contact>>, store: map<string, bool>) {
    exists b :: 0 <= b < |branches| && branches[b] != [] && ClosedUpTo(branches[b], store, |branches[b]|)
  }

  lemma ParallelPowered(branches: seq<seq<Contact>>, store: map<string, bool>)
    ensures Powered(ParallelEdges(branches), store, LEFT, OUTPUT) <==> SomeBranchClosed(branches, store)
  {
    hide IsPath; hide AllClosed; hide ParallelEdges; hide Closed; hide Base;
    var edges := ParallelEdges(branches);
    if Powered(edges, store, LEFT, OUTPUT) {
      var p: seq<nat> :| IsPath(edges, p, LEFT, OUTPUT) && AllClosed(edges, store, p);
      var b, j := PathStaysInBranch(branches, store, p, OUTPUT);
      assert j == |branches[b]| - 1;
    }
    if b: nat :| 0 <= b < |branches| && branches[b] != [] && ClosedUpTo(branches[b], store, |branches[b]|) {
      BranchReaches(branches, store, b, |branches[b]| - 1);
    }
  }

  /** The built graph has no cycle and is entered only from its rail. */
  lemma ParallelGraph(branches: seq<seq<Contact>>)
    ensures EdgesWithin(ParallelEdges(branches), Base(branches))
    ensures Layered(ParallelEdges(branches), LEFT) && EnteredFromWithin(ParallelEdges(branches), LEFT)
    ensures Orderable(ParallelEdges(branches), Base(branches), Some(LEFT))
  {
    hide ParallelEdges; hide Reachable; hide Base;
    var edges := ParallelEdges(branches);
    var rank := (v: nat) => if v == LEFT then 0 else if v == OUTPUT then Base(branches) + 1 else v;
    forall i | 0 <= i < |edges|
      ensures edges[i].source < Base(branches) && edges[i].target < Base(branches)
      ensures rank(edges[i].source) < rank(edges[i].target) && edges[i].target != LEFT
      ensures Reachable(edges, LEFT, edges[i].source)
    {
      var b, j := EdgeOwner(branches, i);
      BaseGrows(branches, b, |branches|);
      assert branches[..|branches|] == branches;
      BranchReaches(branches, map[], b, j);
    }
    assert RisingFrom(edges, LEFT, rank);
  }

  lemma BaseAtLeastTwo(branches: seq<seq<Contact>>)
    ensures Base(branches) >= 2
  {
  }

  ghost function ParallelView(id: string, branches: seq<seq<Contact>>, coils: seq<C.Coil>): C.RungView {
    ParallelGraph(branches);
    C.RungView(id, ParallelEdges(branches), LEFT, OUTPUT,
               PassOrder(ParallelEdges(branches), Base(branches), Some(LEFT)), coils)
  }

  /** Power flows exactly when some branch has contacts and all of them are closed. A branch
      without contacts is no wire. */
  lemma ParallelFlow(id: string, branches: seq<seq<Contact>>, coils: seq<C.Coil>, store: map<string, bool>)
    ensures C.Flow(ParallelView(id, branches, coils), store) <==> SomeBranchClosed(branches, store)
  {
    hide PoweredAlong; hide Powered; hide KahnOrder; hide ParallelEdges; hide SomeBranchClosed; hide Orderable;
    hide Layered; hide EnteredFromWithin; hide VisitsAll; hide Base; hide PassOrder;
    var edges, n := ParallelEdges(branches), Base(branches);
    ParallelGraph(branches);
    BaseAtLeastTwo(branches);
    OrderablePassEnds(edges, n, Some(LEFT));
    var topo := PassOrder(edges, n, Some(LEFT));
    assert SeedsOf(edges, n, Some(LEFT)) == {LEFT};
    KahnVisitsAll(edges, n, LEFT, topo);
    VisitedPower(edges, n, store, LEFT, topo, OUTPUT);
    ParallelPowered(branches, store);
  }

  /** Building and evaluating. */
  method EvaluateParallel(branches: seq<seq<Contact>>, snapshot: map<string, bool>) returns (power: bool)
    ensures power == SomeBranchClosed(branches, snapshot)
  {
    hide PoweredAlong; hide ParallelEdges; hide SomeBranchClosed; hide Orderable; hide Base; hide PassOrder;
    var network := BuildParallelNetwork(branches);
    ParallelGraph(branches);
    power := network.EvaluatePowerFlow(snapshot);
    ParallelFlow("", branches, [], snapshot);
  }
}
