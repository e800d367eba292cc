/** The Kahn pass of a contact network as steps on a stack, the open in-degrees and the order
    so far: what it visits when it ends, and exactly when it does. */
module LadderPass {
  import opened HalValues
  import opened LadderGraph

  /** Edges into `v` that are not in `used`. */
  function Remaining(edges: seq<ContactEdge>, v: nat, used: set<nat>): nat {
    if edges == [] then 0
    else
      Remaining(edges[..|edges| - 1], v, used) +
      (if edges[|edges| - 1].target == v && |edges| - 1 !in used then 1 else 0)
  }

  lemma {:induction false} RemainingZero(edges: seq<ContactEdge>, v: nat, used: set<nat>)
    ensures Remaining(edges, v, used) == 0 <==> forall i :: 0 <= i < |edges| && edges[i].target == v ==> i in used
  {
    if edges != [] {
      RemainingZero(edges[..|edges| - 1], v, used);
      assert forall i :: 0 <= i < |edges| - 1 ==> edges[..|edges| - 1][i] == edges[i];
    }
  }

  lemma {:induction false} RemainingUse(edges: seq<ContactEdge>, v: nat, used: set<nat>, j: nat)
    requires j !in used
    ensures Remaining(edges, v, used + {j}) ==
            Remaining(edges, v, used) - (if j < |edges| && edges[j].target == v then 1 else 0)
    ensures j < |edges| && edges[j].target == v ==> Remaining(edges, v, used) > 0
  {
    if edges != [] {
      RemainingUse(edges[..|edges| - 1], v, used, j);
    }
  }

  /** The edges leaving `v`, by index. */
  function OutEdges(edges: seq<ContactEdge>, v: nat): (r: seq<nat>)
    ensures forall k :: 0 <= k < |r| ==> r[k] < |edges| && edges[r[k]].source == v
    ensures forall i :: i in r <==> 0 <= i < |edges| && edges[i].source == v
    ensures Distinct(r)
  {
    if edges == [] then []
    else
      var front := OutEdges(edges[..|edges| - 1], v);
      if edges[|edges| - 1].source == v then front + [|edges| - 1] else front
  }

  // ----- the pass -----

  datatype PassState = PassState(stack: seq<nat>, degrees: seq<nat>, order: seq<nat>)

  predicate OfGraph(edges: seq<ContactEdge>, out: seq<nat>, degrees: seq<nat>) {
    forall k :: 0 <= k < |out| ==> out[k] < |edges| && edges[out[k]].target < |degrees|
  }

  lemma OutOfGraph(edges: seq<ContactEdge>, v: nat, degrees: seq<nat>)
    requires EdgesWithin(edges, |degrees|)
    ensures OfGraph(edges, OutEdges(edges, v), degrees)
  {
    forall i | 0 <= i < |edges|
      ensures edges[i].target < |degrees|
    {
      assert edges[i] in edges;
    }
  }

  /** Uses the edges one after another: the target's in-degree falls, though not below zero,
      and a target at zero is pushed, even if it was there before. */
  function UseEdges(edges: seq<ContactEdge>, out: seq<nat>, stack: seq<nat>,
                    degrees: seq<nat>): (r: (seq<nat>, seq<nat>))
    requires OfGraph(edges, out, degrees)
    ensures |r.1| == |degrees|
  {
    if out == [] then (stack, degrees)
    else
      var i := out[|out| - 1];
      var before := UseEdges(edges, out[..|out| - 1], stack, degrees);
      var t := edges[i].target;
      var left := if before.1[t] > 0 then before.1[t] - 1 else 0;
      (if left == 0 then before.0 + [t] else before.0, before.1[t := left])
  }

  /** Pops a node, appends it to the order and uses its edges. */
  function PassStep(edges: seq<ContactEdge>, st: PassState): (r: PassState)
    requires EdgesWithin(edges, |st.degrees|)
    ensures |r.degrees| == |st.degrees|
  {
    if st.stack == [] then st
    else
      var n := |st.stack| - 1;
      OutOfGraph(edges, st.stack[n], st.degrees);
      var used := UseEdges(edges, OutEdges(edges, st.stack[n]), st.stack[..n], st.degrees);
      PassState(used.0, used.1, st.order + [st.stack[n]])
  }

  function PassRun(edges: seq<ContactEdge>, st: PassState, k: nat): (r: PassState)
    requires EdgesWithin(edges, |st.degrees|)
    ensures |r.degrees| == |st.degrees|
  {
    if k == 0 then st else PassStep(edges, PassRun(edges, st, k - 1))
  }

  /** The nodes below `n` that nothing enters. */
  function Entries(edges: seq<ContactEdge>, n: nat): (r: seq<nat>)
    ensures Distinct(r) && forall v: nat :: v in r <==> v < n && Remaining(edges, v, {}) == 0
  {
    if n == 0 then []
    else if Remaining(edges, n - 1, {}) == 0 then Entries(edges, n - 1) + [n - 1]
    else Entries(edges, n - 1)
  }

  function InDegrees(edges: seq<ContactEdge>, n: nat): (r: seq<nat>)
    ensures |r| == n && forall v: nat :: v < n ==> r[v] == Remaining(edges, v, {})
  {
    seq(n, v requires 0 <= v < n => Remaining(edges, v, {}))
  }

  function StartState(edges: seq<ContactEdge>, n: nat, rail: Option<nat>): (r: PassState)
    ensures |r.degrees| == n
  {
    PassState(if rail.Some? then [rail.value] else Entries(edges, n), InDegrees(edges, n), [])
  }

  /** Where a pass starts: at the left rail, or else at every node nothing enters. */
  function SeedsOf(edges: seq<ContactEdge>, n: nat, rail: Option<nat>): set<nat> {
    if rail.Some? then {rail.value} else set v: nat | v < n && !Entered(edges, v)
  }

  ghost predicate PassEnds(edges: seq<ContactEdge>, n: nat, rail: Option<nat>)
    requires EdgesWithin(edges, n)
  {
    exists k: nat :: PassRun(edges, StartState(edges, n, rail), k).stack == []
  }

  /** The order of a pass that ends. */
  ghost function PassOrder(edges: seq<ContactEdge>, n: nat, rail: Option<nat>): seq<nat>
    requires EdgesWithin(edges, n)
  {
    if PassEnds(edges, n, rail) then
      var k: nat :| PassRun(edges, StartState(edges, n, rail), k).stack == [];
      PassRun(edges, StartState(edges, n, rail), k).order
    else []
  }

  lemma {:induction false} EndedStays(edges: seq<ContactEdge>, st: PassState, j: nat, k: nat)
    requires EdgesWithin(edges, |st.degrees|) && j <= k && PassRun(edges, st, j).stack == []
    ensures PassRun(edges, st, k) == PassRun(edges, st, j)
    decreases k
  {
    if j < k { EndedStays(edges, st, j, k - 1); }
  }

  lemma PassOrderIs(edges: seq<ContactEdge>, n: nat, rail: Option<nat>, k: nat)
    requires EdgesWithin(edges, n) && PassRun(edges, StartState(edges, n, rail), k).stack == []
    ensures PassOrder(edges, n, rail) == PassRun(edges, StartState(edges, n, rail), k).order
  {
    hide PassStep; hide StartState; hide PassRun;
    var st := StartState(edges, n, rail);
    var j: nat :| PassRun(edges, st, j).stack == [] && PassOrder(edges, n, rail) == PassRun(edges, st, j).order;
    if j <= k { EndedStays(edges, st, j, k); } else { EndedStays(edges, st, k, j); }
  }

  // ----- a Kahn order there always is -----

  predicate Sofar(edges: seq<ContactEdge>, n: nat, seeds: set<nat>, topo: seq<nat>) {
    && Distinct(topo)
    && (forall v :: v in topo ==> v < n)
    && (forall v :: v in seeds ==> v in topo)
    && (forall b :: 0 <= b < |topo| && topo[b] !in seeds ==> Ready(edges, topo[..b], topo[b]))
  }

  lemma {:induction false} DistinctBound(s: seq<nat>, n: nat)
    requires Distinct(s) && forall v :: v in s ==> v < n
    ensures |s| <= n
  {
    if s == [] { return; }
    assert s[0] in s;
    if n - 1 in s {
      var j :| 0 <= j < |s| && s[j] == n - 1;
      var rest := s[..j] + s[j + 1..];
      forall a | 0 <= a < |rest|
        ensures rest[a] < n - 1
      {
        var at := if a < j then a else a + 1;
        assert rest[a] == s[at] && s[at] != s[j] && s[at] in s;
      }
      DistinctBound(rest, n - 1);
    } else {
      DistinctBound(s, n - 1);
    }
  }

  lemma ReadyMore(edges: seq<ContactEdge>, s: seq<nat>, t: seq<nat>, v: nat)
    requires Ready(edges, s, v) && forall u :: u in s ==> u in t
    ensures Ready(edges, t, v)
  {
  }

  lemma {:induction false} SomeOrder(edges: seq<ContactEdge>, n: nat, seeds: set<nat>,
                                     topo0: seq<nat>) returns (topo: seq<nat>)
    requires Sofar(edges, n, seeds, topo0)
    ensures KahnOrder(edges, n, seeds, topo)
    decreases n - |topo0|
  {
    hide Ready; hide Distinct;
    forall v, b | 0 <= b < |topo0| && v == topo0[b] && v !in seeds
      ensures Ready(edges, topo0, v)
    {
      ReadyMore(edges, topo0[..b], topo0, v);
    }
    if v: nat :| v < n && v !in topo0 && Ready(edges, topo0, v) {
      var more := topo0 + [v];
      OneMoreDistinct(topo0, v);
      forall b | 0 <= b < |more| && more[b] !in seeds
        ensures Ready(edges, more[..b], more[b])
      {
        assert more[..b] == topo0[..b];
        if b == |topo0| { assert topo0[..b] == topo0; }
      }
      DistinctBound(more, n);
      topo := SomeOrder(edges, n, seeds, more);
    } else {
      topo := topo0;
    }
  }

  lemma OneMoreDistinct(s: seq<nat>, v: nat)
    requires Distinct(s) && v !in s
    ensures Distinct(s + [v])
  {
  }

  lemma OrderExists(edges: seq<ContactEdge>, n: nat, rail: Option<nat>) returns (topo: seq<nat>)
    requires rail.Some? ==> rail.value < n
    ensures KahnOrder(edges, n, SeedsOf(edges, n, rail), topo)
  {
    var first := StartState(edges, n, rail).stack;
    if rail.None? { SeedsAreEntries(edges, n); }
    topo := SomeOrder(edges, n, SeedsOf(edges, n, rail), first);
  }

  lemma SeedsAreEntries(edges: seq<ContactEdge>, n: nat)
    ensures forall v: nat :: v in Entries(edges, n) <==> v < n && !Entered(edges, v)
  {
    forall v: nat | v < n
      ensures Remaining(edges, v, {}) == 0 <==> !Entered(edges, v)
    {
      RemainingZero(edges, v, {});
    }
  }

  // ----- a pass that no seed re-enters -----

  /** No seed has all its entries among `visited`, so none is pushed a second time. */
  predicate SeedsHeld(edges: seq<ContactEdge>, seeds: set<nat>, visited: seq<nat>) {
    forall s :: s in seeds ==> !Ready(edges, visited, s)
  }

  function UsedEdges(edges: seq<ContactEdge>, order: seq<nat>): set<nat> {
    set i: nat | i < |edges| && edges[i].source in order
  }

  /** Part of a pass: in-degrees count the edges not yet used; `listed` has every seed and
      every node without unused entries, each once, and all of it is in `visited`. */
  ghost predicate Pass(edges: seq<ContactEdge>, n: nat, seeds: set<nat>, visited: seq<nat>, used: set<nat>,
                       degrees: seq<nat>, listed: seq<nat>) {
    && |degrees| == n
    && (forall v: nat :: v < n ==> degrees[v] == Remaining(edges, v, used))
    && Distinct(listed)
    && (forall v :: v in listed ==> v < n && v in visited)
    && (forall i :: i in used ==> i < |edges| && edges[i].source in visited)
    && (forall v: nat :: v < n ==>
        (v in listed <==> v in seeds || (Entered(edges, v) && Remaining(edges, v, used) == 0)))
  }

  lemma UseEdge(edges: seq<ContactEdge>, n: nat, seeds: set<nat>, visited: seq<nat>, used: set<nat>, degrees: seq<nat>,
                listed: seq<nat>, i: nat)
    requires EdgesWithin(edges, n) && KahnOrder(edges, n, seeds, visited) && SeedsHeld(edges, seeds, visited)
    requires Pass(edges, n, seeds, visited, used, degrees, listed)
    requires i < |edges| && i !in used && edges[i].source in visited
    ensures var t := edges[i].target;
            && t < n && degrees[t] > 0
            && Pass(edges, n, seeds, visited, used + {i}, degrees[t := degrees[t] - 1],
                    if degrees[t] == 1 then listed + [t] else listed)
  {
    hide Remaining; hide Distinct;
    var t := edges[i].target;
    assert edges[i] in edges;
    RemainingUse(edges, t, used, i);
    RemainingZero(edges, t, used);
    RemainingZero(edges, t, used + {i});
    if degrees[t] == 1 {
      assert Ready(edges, visited, t);
      assert t !in seeds && t in visited;
      OneMoreDistinct(listed, t);
    }
    forall v: nat | v < n
      ensures degrees[t := degrees[t] - 1][v] == Remaining(edges, v, used + {i})
    {
      RemainingUse(edges, v, used, i);
    }
  }

  function Items(s: seq<nat>): set<nat> { set x | x in s }

  lemma {:induction false} EdgesKeepPass(edges: seq<ContactEdge>, n: nat, seeds: set<nat>, visited: seq<nat>,
                                         used: set<nat>,
                                         degrees: seq<nat>, order: seq<nat>, stack: seq<nat>, out: seq<nat>)
    requires EdgesWithin(edges, n) && KahnOrder(edges, n, seeds, visited) && SeedsHeld(edges, seeds, visited)
    requires Pass(edges, n, seeds, visited, used, degrees, order + stack)
    requires Distinct(out) && OfGraph(edges, out, degrees)
    requires forall i :: i in out ==> i !in used && edges[i].source in visited
    ensures var r := UseEdges(edges, out, stack, degrees);
            Pass(edges, n, seeds, visited, used + Items(out), r.1, order + r.0)
    decreases |out|
  {
    hide Pass; hide KahnOrder; hide SeedsHeld;
    if out == [] {
      assert used + Items(out) == used;
    } else {
      var front, i := out[..|out| - 1], out[|out| - 1];
      EdgesKeepPass(edges, n, seeds, visited, used, degrees, order, stack, front);
      var before := UseEdges(edges, front, stack, degrees);
      assert i in out && i !in front;
      UseEdge(edges, n, seeds, visited, used + Items(front), before.1, order + before.0, i);
      assert used + Items(front) + {i} == used + Items(out);
      assert order + before.0 + [edges[i].target] == order + (before.0 + [edges[i].target]);
    }
  }

  /** A state of a pass on its way. */
  ghost predicate OnTheWay(edges: seq<ContactEdge>, n: nat, seeds: set<nat>, visited: seq<nat>, st: PassState) {
    && Pass(edges, n, seeds, visited, UsedEdges(edges, st.order), st.degrees, st.order + st.stack)
    && (forall b :: 0 <= b < |st.order| && st.order[b] !in seeds ==> Ready(edges, st.order[..b], st.order[b]))
  }

  lemma PopReady(edges: seq<ContactEdge>, n: nat, seeds: set<nat>, visited: seq<nat>, st: PassState)
    requires OnTheWay(edges, n, seeds, visited, st) && st.stack != []
    ensures var node, rest := st.stack[|st.stack| - 1], st.stack[..|st.stack| - 1];
            && node in visited && node !in st.order
            && (node !in seeds ==> Ready(edges, st.order, node))
            && Pass(edges, n, seeds, visited, UsedEdges(edges, st.order), st.degrees, st.order + [node] + rest)
  {
    hide Remaining; hide Entered;
    var node, rest := st.stack[|st.stack| - 1], st.stack[..|st.stack| - 1];
    var listed, after := st.order + st.stack, st.order + [node] + rest;
    assert listed[|listed| - 1] == node && node in listed;
    assert node !in st.order by {
      assert forall a :: 0 <= a < |st.order| ==> listed[a] == st.order[a];
    }
    assert st.stack == rest + [node];
    assert forall v :: v in after <==> v in listed;
    assert forall a :: 0 <= a < |st.order| ==> after[a] == listed[a];
    assert forall a :: |st.order| < a < |after| ==> after[a] == listed[a - 1];
    assert after[|st.order|] == listed[|listed| - 1];
    RemainingZero(edges, node, UsedEdges(edges, st.order));
  }

  lemma StepKeeps(edges: seq<ContactEdge>, n: nat, seeds: set<nat>, visited: seq<nat>, st: PassState)
    requires EdgesWithin(edges, n) && KahnOrder(edges, n, seeds, visited) && SeedsHeld(edges, seeds, visited)
    requires OnTheWay(edges, n, seeds, visited, st) && |st.degrees| == n
    ensures OnTheWay(edges, n, seeds, visited, PassStep(edges, st))
    ensures st.stack != [] ==> |PassStep(edges, st).order| == |st.order| + 1
  {
    if st.stack != [] {
      hide KahnOrder; hide SeedsHeld; hide Pass; hide Ready;
      PopReady(edges, n, seeds, visited, st);
      var node, rest := st.stack[|st.stack| - 1], st.stack[..|st.stack| - 1];
      var out, more := OutEdges(edges, node), st.order + [node];
      assert UsedEdges(edges, st.order) + Items(out) == UsedEdges(edges, more);
      OutOfGraph(edges, node, st.degrees);
      EdgesKeepPass(edges, n, seeds, visited, UsedEdges(edges, st.order), st.degrees, more, rest, out);
      forall b | 0 <= b < |more| && more[b] !in seeds
        ensures Ready(edges, more[..b], more[b])
      {
        assert more[..b] == st.order[..b];
        if b == |st.order| { assert st.order[..b] == st.order; }
      }
    }
  }

  lemma StartsOnTheWay(edges: seq<ContactEdge>, n: nat, rail: Option<nat>, visited: seq<nat>)
    requires rail.Some? ==> rail.value < n
    requires KahnOrder(edges, n, SeedsOf(edges, n, rail), visited) && SeedsHeld(edges, SeedsOf(edges, n, rail), visited)
    ensures OnTheWay(edges, n, SeedsOf(edges, n, rail), visited, StartState(edges, n, rail))
  {
    var st, seeds := StartState(edges, n, rail), SeedsOf(edges, n, rail);
    assert UsedEdges(edges, []) == {} && st.order + st.stack == st.stack;
    if rail.None? { SeedsAreEntries(edges, n); }
    forall v: nat | v < n
      ensures v in st.stack <==> v in seeds || (Entered(edges, v) && Remaining(edges, v, {}) == 0)
    {
      RemainingZero(edges, v, {});
    }
  }

  lemma {:induction false} RunKeeps(edges: seq<ContactEdge>, n: nat, rail: Option<nat>, visited: seq<nat>, k: nat)
    requires EdgesWithin(edges, n) && (rail.Some? ==> rail.value < n)
    requires KahnOrder(edges, n, SeedsOf(edges, n, rail), visited) && SeedsHeld(edges, SeedsOf(edges, n, rail), visited)
    ensures var st := PassRun(edges, StartState(edges, n, rail), k);
            OnTheWay(edges, n, SeedsOf(edges, n, rail), visited, st) && (st.stack == [] || |st.order| == k)
  {
    hide KahnOrder; hide SeedsHeld; hide OnTheWay; hide PassStep; hide StartState; hide SeedsOf;
    if k == 0 {
      StartsOnTheWay(edges, n, rail, visited);
      hide PassRun;
      StartOrder(edges, n, rail);
    } else {
      RunKeeps(edges, n, rail, visited, k - 1);
      var st := PassRun(edges, StartState(edges, n, rail), k - 1);
      StepKeeps(edges, n, SeedsOf(edges, n, rail), visited, st);
      if st.stack == [] { StepAtEnd(edges, st); }
    }
  }

  lemma StartOrder(edges: seq<ContactEdge>, n: nat, rail: Option<nat>)
    requires EdgesWithin(edges, n)
    ensures StartState(edges, n, rail).order == []
    ensures PassRun(edges, StartState(edges, n, rail), 0) == StartState(edges, n, rail)
  {
  }

  lemma StepAtEnd(edges: seq<ContactEdge>, st: PassState)
    requires EdgesWithin(edges, |st.degrees|) && st.stack == []
    ensures PassStep(edges, st) == st
  {
  }

  lemma OrderBound(edges: seq<ContactEdge>, n: nat, seeds: set<nat>, visited: seq<nat>, st: PassState)
    requires OnTheWay(edges, n, seeds, visited, st)
    ensures |st.order| <= n
  {
    DistinctPart(st.order, st.stack);
    assert forall v :: v in st.order ==> v in st.order + st.stack;
    DistinctBound(st.order, n);
  }

  /** A pass whose seeds are held ends, with a Kahn order. */
  lemma HeldPassEnds(edges: seq<ContactEdge>, n: nat, rail: Option<nat>, visited: seq<nat>)
    requires EdgesWithin(edges, n) && (rail.Some? ==> rail.value < n)
    requires KahnOrder(edges, n, SeedsOf(edges, n, rail), visited) && SeedsHeld(edges, SeedsOf(edges, n, rail), visited)
    ensures PassEnds(edges, n, rail) && KahnOrder(edges, n, SeedsOf(edges, n, rail), PassOrder(edges, n, rail))
  {
    hide SeedsHeld; hide PassRun; hide StartState; hide SeedsOf; hide KahnOrder; hide PassOrder; hide OnTheWay;
    RunKeeps(edges, n, rail, visited, n + 1);
    var st := PassRun(edges, StartState(edges, n, rail), n + 1);
    OrderBound(edges, n, SeedsOf(edges, n, rail), visited, st);
    PassOrderIs(edges, n, rail, n + 1);
    EndIsKahn(edges, n, SeedsOf(edges, n, rail), visited, st);
  }

  lemma EndIsKahn(edges: seq<ContactEdge>, n: nat, seeds: set<nat>, visited: seq<nat>, st: PassState)
    requires OnTheWay(edges, n, seeds, visited, st) && st.stack == []
    ensures KahnOrder(edges, n, seeds, st.order)
  {
    hide Remaining; hide Distinct;
    assert st.order + st.stack == st.order;
    forall v: nat | v < n
      ensures v in st.order <==> v in seeds || Ready(edges, st.order, v)
    {
      RemainingZero(edges, v, UsedEdges(edges, st.order));
    }
  }

  lemma DistinctPart(a: seq<nat>, b: seq<nat>)
    requires Distinct(a + b)
    ensures Distinct(a)
  {
    assert forall i :: 0 <= i < |a| ==> (a + b)[i] == a[i];
  }

  // ----- a pass that comes back to its rail -----

  /** The place at which the order has `v` last; -1 if it has not. */
  function LastAt(order: seq<nat>, v: nat): int {
    if order == [] then -1
    else if order[|order| - 1] == v then |order| - 1
    else LastAt(order[..|order| - 1], v)
  }

  lemma {:induction false} LastAtIs(order: seq<nat>, v: nat)
    ensures -1 <= LastAt(order, v) < |order| && (LastAt(order, v) >= 0 <==> v in order)
  {
    if order != [] { LastAtIs(order[..|order| - 1], v); }
  }

  lemma LastAtMore(order: seq<nat>, node: nat, v: nat)
    ensures LastAt(order + [node], v) == if v == node then |order| else LastAt(order, v)
  {
    assert (order + [node])[..|order|] == order;
  }

  /** What using edges does at least: nothing leaves the stack, in-degrees fall with the edges,
      and a target left at zero, or a node brought to it, is on the stack. */
  lemma {:induction false} EdgesPush(edges: seq<ContactEdge>, out: seq<nat>, stack: seq<nat>, degrees: seq<nat>)
    requires OfGraph(edges, out, degrees)
    ensures var r := UseEdges(edges, out, stack, degrees);
            && (forall v :: v in stack ==> v in r.0)
            && (forall v :: 0 <= v < |degrees| ==> r.1[v] <= degrees[v])
            && (forall v :: 0 <= v < |degrees| && r.1[v] == 0 && degrees[v] > 0 ==> v in r.0)
            && (forall k :: 0 <= k < |out| && r.1[edges[out[k]].target] == 0 ==> edges[out[k]].target in r.0)
  {
    if out != [] {
      EdgesPush(edges, out[..|out| - 1], stack, degrees);
    }
  }

  predicate Bounded(edges: seq<ContactEdge>, used: set<nat>, degrees: seq<nat>) {
    forall v: nat :: v < |degrees| ==> degrees[v] <= Remaining(edges, v, used)
  }

  lemma {:induction false} EdgesBound(edges: seq<ContactEdge>, out: seq<nat>, stack: seq<nat>, degrees: seq<nat>,
                                      used: set<nat>)
    requires OfGraph(edges, out, degrees) && Distinct(out) && Bounded(edges, used, degrees)
    requires (forall i :: i in out ==> i !in used) || (forall i :: i in out ==> i in used)
    ensures Bounded(edges, used + Items(out), UseEdges(edges, out, stack, degrees).1)
    decreases |out|
  {
    hide Remaining;
    if out == [] {
      assert used + Items(out) == used;
    } else {
      var front, i := out[..|out| - 1], out[|out| - 1];
      assert i in out && i !in front && forall j :: j in front ==> j in out;
      EdgesBound(edges, front, stack, degrees, used);
      if i in used {
        assert used + Items(front) == used + Items(out);
      } else {
        assert used + Items(front) + {i} == used + Items(out);
        forall v: nat | v < |degrees|
          ensures Remaining(edges, v, used + Items(out)) ==
                  Remaining(edges, v, used + Items(front)) - (if edges[i].target == v then 1 else 0)
        {
          RemainingUse(edges, v, used + Items(front), i);
        }
      }
    }
  }

  /** In-degrees are no more than the unused edges, and once a node is at zero it stands on
      the stack or was visited after every node with an edge into it. */
  ghost predicate Turning(edges: seq<ContactEdge>, n: nat, rail: nat, st: PassState) {
    && |st.degrees| == n
    && Bounded(edges, UsedEdges(edges, st.order), st.degrees)
    && (rail in st.stack || rail in st.order)
    && (forall i ::
          0 <= i < |edges| && edges[i].source in st.order && edges[i].target < n && st.degrees[edges[i].target] == 0 ==>
            edges[i].target in st.stack || LastAt(st.order, edges[i].target) > LastAt(st.order, edges[i].source))
  }

  lemma StepTurns(edges: seq<ContactEdge>, n: nat, rail: nat, st: PassState)
    requires EdgesWithin(edges, n) && Turning(edges, n, rail, st)
    ensures Turning(edges, n, rail, PassStep(edges, st))
  {
    if st.stack != [] {
      hide Bounded; hide LastAt; hide UseEdges;
      var m := |st.stack| - 1;
      var node, rest := st.stack[m], st.stack[..m];
      var out, more := OutEdges(edges, node), st.order + [node];
      assert UsedEdges(edges, st.order) + Items(out) == UsedEdges(edges, more);
      assert st.stack == rest + [node];
      OutOfGraph(edges, node, st.degrees);
      EdgesBound(edges, out, rest, st.degrees, UsedEdges(edges, st.order));
      EdgesPush(edges, out, rest, st.degrees);
      var next := PassStep(edges, st);
      forall i | 0 <= i < |edges| && edges[i].source in more && edges[i].target < n &&
        next.degrees[edges[i].target] == 0
        ensures edges[i].target in next.stack || LastAt(more, edges[i].target) > LastAt(more, edges[i].source)
      {
        LastAtMore(st.order, node, edges[i].target);
        LastAtMore(st.order, node, edges[i].source);
        LastAtIs(st.order, edges[i].source);
        LastAtIs(st.order, edges[i].target);
      }
    }
  }

  lemma {:induction false} RunTurns(edges: seq<ContactEdge>, n: nat, rail: nat, k: nat)
    requires EdgesWithin(edges, n)
    ensures Turning(edges, n, rail, PassRun(edges, StartState(edges, n, Some(rail)), k))
  {
    if k == 0 {
      assert UsedEdges(edges, []) == {};
    } else {
      hide Turning; hide PassStep; hide StartState;
      RunTurns(edges, n, rail, k - 1);
      StepTurns(edges, n, rail, PassRun(edges, StartState(edges, n, Some(rail)), k - 1));
    }
  }

  /** With nothing on the stack, every node a Kahn pass visits has been visited after the rail. */
  lemma {:induction false} AllAfterRail(edges: seq<ContactEdge>, n: nat, rail: nat, topo: seq<nat>, st: PassState,
                                        k: nat)
    requires EdgesWithin(edges, n) && Turning(edges, n, rail, st) && st.stack == []
    requires KahnOrder(edges, n, {rail}, topo) && k < |topo|
    ensures topo[k] in st.order && LastAt(st.order, topo[k]) >= LastAt(st.order, rail)
    decreases k
  {
    var v := topo[k];
    if v != rail {
      assert v in topo && Ready(edges, topo[..k], v);
      forall i | 0 <= i < |edges| && edges[i].target == v
        ensures edges[i].source in st.order && LastAt(st.order, edges[i].source) >= LastAt(st.order, rail)
      {
        var j :| 0 <= j < k && topo[j] == edges[i].source;
        AllAfterRail(edges, n, rail, topo, st, j);
      }
      AllUsed(edges, n, rail, st, v);
    }
  }

  lemma AllUsed(edges: seq<ContactEdge>, n: nat, rail: nat, st: PassState, v: nat)
    requires Turning(edges, n, rail, st) && st.stack == [] && v < n && Ready(edges, st.order, v)
    ensures v in st.order
    ensures forall i :: 0 <= i < |edges| && edges[i].target == v ==>
            LastAt(st.order, v) > LastAt(st.order, edges[i].source)
  {
    RemainingZero(edges, v, UsedEdges(edges, st.order));
    var i :| 0 <= i < |edges| && edges[i].target == v;
    LastAtIs(st.order, edges[i].source);
    LastAtIs(st.order, v);
  }

  /** A rail all of whose entries are visited comes back again and again. */
  lemma ReturningPassNeverEnds(edges: seq<ContactEdge>, n: nat, rail: nat, topo: seq<nat>, k: nat)
    requires EdgesWithin(edges, n) && rail < n && KahnOrder(edges, n, {rail}, topo) && Ready(edges, topo, rail)
    ensures PassRun(edges, StartState(edges, n, Some(rail)), k).stack != []
  {
    hide Turning; hide PassRun; hide StartState;
    var st := PassRun(edges, StartState(edges, n, Some(rail)), k);
    RunTurns(edges, n, rail, k);
    if st.stack == [] {
      forall i | 0 <= i < |edges| && edges[i].target == rail
        ensures edges[i].source in st.order && LastAt(st.order, edges[i].source) >= LastAt(st.order, rail)
      {
        var j :| 0 <= j < |topo| && topo[j] == edges[i].source;
        AllAfterRail(edges, n, rail, topo, st, j);
      }
      AllUsed(edges, n, rail, st, rail);
      assert false;
    }
  }

  /** The pass from a rail ends if and only if nothing enters the rail, or some edge into it
      starts at a node that the pass does not visit. Which nodes it visits any one Kahn order
      tells; there always is one. */
  lemma PassEndsExactly(edges: seq<ContactEdge>, n: nat, rail: nat, topo: seq<nat>)
    requires EdgesWithin(edges, n) && rail < n && KahnOrder(edges, n, {rail}, topo)
    ensures PassEnds(edges, n, Some(rail)) <==> !Ready(edges, topo, rail)
    ensures PassEnds(edges, n, Some(rail)) ==> KahnOrder(edges, n, {rail}, PassOrder(edges, n, Some(rail)))
  {
    if Ready(edges, topo, rail) {
      forall k: nat
        ensures PassRun(edges, StartState(edges, n, Some(rail)), k).stack != []
      {
        ReturningPassNeverEnds(edges, n, rail, topo, k);
      }
    } else {
      assert SeedsOf(edges, n, Some(rail)) == {rail};
      HeldPassEnds(edges, n, Some(rail), topo);
    }
  }

  /** Without a rail the pass starts at the nodes nothing enters, and always ends. */
  lemma RaillessPassEnds(edges: seq<ContactEdge>, n: nat)
    requires EdgesWithin(edges, n)
    ensures PassEnds(edges, n, None) && KahnOrder(edges, n, SeedsOf(edges, n, None), PassOrder(edges, n, None))
  {
    var topo := OrderExists(edges, n, None);
    HeldPassEnds(edges, n, None, topo);
  }

  /** Two nodes joined both ways keep the pass going round for ever; one more edge into the
      rail, from a node never visited, ends it. */
  lemma RoundAndRound(a: Contact, b: Contact, c: Contact)
    ensures !PassEnds([ContactEdge(0, 1, a), ContactEdge(1, 0, b)], 2, Some(0))
    ensures PassEnds([ContactEdge(0, 1, a), ContactEdge(1, 0, b), ContactEdge(2, 0, c)], 3, Some(0))
  {
    hide PassEnds;
    var two := [ContactEdge(0, 1, a), ContactEdge(1, 0, b)];
    var three := two + [ContactEdge(2, 0, c)];
    assert three == [ContactEdge(0, 1, a), ContactEdge(1, 0, b), ContactEdge(2, 0, c)];
    var visits: seq<nat> := [0, 1];
    assert visits[..1] == [0];
    assert two[0].target == 1 && two[1].target == 0 && three[0].target == 1 && three[1].target == 0 &&
           three[2].target == 0;
    assert Entered(two, 0) && Entered(two, 1) && Entered(three, 0) && Entered(three, 1) && !Entered(three, 2);
    assert KahnOrder(two, 2, {0}, visits) && Ready(two, visits, 0);
    assert KahnOrder(three, 3, {0}, visits) && !Ready(three, visits, 0);
    PassEndsExactly(two, 2, 0, visits);
    PassEndsExactly(three, 3, 0, visits);
  }
}
