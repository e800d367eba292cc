/** Contact networks as graphs: paths, closed contacts, and what a Kahn pass from the
    left rail visits. */
module LadderGraph {
  datatype Contact = No(v: string) | Nc(v: string)

  datatype ContactEdge = ContactEdge(source: nat, target: nat, contact: Contact)

  function GetBool(store: map<string, bool>, v: string): bool {
    if v in store then store[v] else false
  }

  predicate Closed(c: Contact, store: map<string, bool>) {
    match c
    case No(v) => GetBool(store, v)
    case Nc(v) => !GetBool(store, v)
  }

  predicate EdgesWithin(edges: seq<ContactEdge>, n: nat) {
    forall e :: e in edges ==> e.source < n && e.target < n
  }

  // ----- paths -----

  /** `p` lists the indices of the edges that lead from `a` to `b`. */
  predicate IsPath(edges: seq<ContactEdge>, p: seq<nat>, a: nat, b: nat) {
    if p == [] then a == b
    else
      var i := p[|p| - 1];
      i < |edges| && edges[i].target == b && IsPath(edges, p[..|p| - 1], a, edges[i].source)
  }

  ghost predicate Reachable(edges: seq<ContactEdge>, a: nat, b: nat) {
    exists p :: IsPath(edges, p, a, b)
  }

  lemma ReachStep(edges: seq<ContactEdge>, a: nat, i: nat)
    requires i < |edges| && Reachable(edges, a, edges[i].source)
    ensures Reachable(edges, a, edges[i].target)
  {
    var p :| IsPath(edges, p, a, edges[i].source);
    assert (p + [i])[..|p|] == p;
    assert IsPath(edges, p + [i], a, edges[i].target);
  }

  lemma ReachSelf(edges: seq<ContactEdge>, a: nat)
    ensures Reachable(edges, a, a)
  {
    assert IsPath(edges, [], a, a);
  }

  predicate AllClosed(edges: seq<ContactEdge>, store: map<string, bool>, p: seq<nat>) {
    forall k :: 0 <= k < |p| ==> p[k] < |edges| && Closed(edges[p[k]].contact, store)
  }

  /** Some path of closed contacts joins the rail to `v`. */
  ghost predicate Powered(edges: seq<ContactEdge>, store: map<string, bool>, rail: nat, v: nat) {
    exists p :: IsPath(edges, p, rail, v) && AllClosed(edges, store, p)
  }

  lemma PoweredStep(edges: seq<ContactEdge>, store: map<string, bool>, rail: nat, i: nat)
    requires i < |edges| && Powered(edges, store, rail, edges[i].source) && Closed(edges[i].contact, store)
    ensures Powered(edges, store, rail, edges[i].target)
  {
    hide Closed;
    var p :| IsPath(edges, p, rail, edges[i].source) && AllClosed(edges, store, p);
    assert (p + [i])[..|p|] == p;
    assert IsPath(edges, p + [i], rail, edges[i].target);
    assert AllClosed(edges, store, p + [i]);
  }

  /** The edges of the path leave nodes of `order`, each further along than the one before. */
  predicate Along(edges: seq<ContactEdge>, order: seq<nat>, p: seq<nat>)
    decreases |p|
  {
    p == [] ||
    (p[|p| - 1] < |edges| &&
     exists k :: 0 <= k < |order| && order[k] == edges[p[|p| - 1]].source && Along(edges, order[..k], p[..|p| - 1]))
  }

  /** Some path of closed contacts that runs along `order` joins the rail to `v`: the power a
      single pass over the nodes in that order brings there. */
  ghost predicate PoweredAlong(edges: seq<ContactEdge>, store: map<string, bool>, order: seq<nat>, rail: nat, v: nat) {
    exists p :: IsPath(edges, p, rail, v) && AllClosed(edges, store, p) && Along(edges, order, p)
  }

  // ----- Kahn orders -----

  predicate Distinct(s: seq<nat>) {
    forall a, b :: 0 <= a < b < |s| ==> s[a] != s[b]
  }

  predicate Entered(edges: seq<ContactEdge>, v: nat) {
    exists i :: 0 <= i < |edges| && edges[i].target == v
  }

  /** Node `v` has edges into it, and all of them start in `s`. */
  predicate Ready(edges: seq<ContactEdge>, s: seq<nat>, v: nat) {
    Entered(edges, v) && forall i :: 0 <= i < |edges| && edges[i].target == v ==> edges[i].source in s
  }

  /** The order of a Kahn pass from `seeds`: it holds the seeds and every node all of whose
      entries it holds, each once, and no node but a seed before one of its entries. */
  predicate KahnOrder(edges: seq<ContactEdge>, n: nat, seeds: set<nat>, topo: seq<nat>) {
    && Distinct(topo)
    && (forall v :: v in topo ==> v < n)
    && (forall v: nat :: v < n ==> (v in topo <==> v in seeds || Ready(edges, topo, v)))
    && (forall b :: 0 <= b < |topo| && topo[b] !in seeds ==> Ready(edges, topo[..b], topo[b]))
  }

  /** The pass stays within what the rail reaches. */
  lemma {:induction false} VisitedIsReachable(edges: seq<ContactEdge>, n: nat, rail: nat, topo: seq<nat>, k: nat)
    requires KahnOrder(edges, n, {rail}, topo) && k < |topo|
    ensures Reachable(edges, rail, topo[k])
    decreases k
  {
    if topo[k] == rail {
      ReachSelf(edges, rail);
    } else {
      assert Ready(edges, topo[..k], topo[k]);
      var i :| 0 <= i < |edges| && edges[i].target == topo[k];
      var j :| 0 <= j < k && topo[j] == edges[i].source;
      VisitedIsReachable(edges, n, rail, topo, j);
      ReachStep(edges, rail, i);
    }
  }

  /** All Kahn orders of one graph visit the same nodes. */
  lemma {:induction false} SameVisits(edges: seq<ContactEdge>, n: nat, seeds: set<nat>, s: seq<nat>, t: seq<nat>,
                                      k: nat)
    requires KahnOrder(edges, n, seeds, s) && KahnOrder(edges, n, seeds, t) && k < |s|
    ensures s[k] in t
    decreases k
  {
    assert s[k] in s;
    if s[k] !in seeds {
      assert Ready(edges, s[..k], s[k]);
      forall i | 0 <= i < |edges| && edges[i].target == s[k]
        ensures edges[i].source in t
      {
        var j :| 0 <= j < k && s[j] == edges[i].source;
        SameVisits(edges, n, seeds, s, t, j);
      }
      assert Ready(edges, t, s[k]);
    }
  }

  // ----- when the pass visits everything the rail reaches -----

  /** Along edges that the rail reaches, ranks rise: what the rail reaches has no cycle but
      through the rail itself. */
  ghost predicate Layered(edges: seq<ContactEdge>, rail: nat) {
    exists rank: nat -> nat :: RisingFrom(edges, rail, rank)
  }

  ghost predicate RisingFrom(edges: seq<ContactEdge>, rail: nat, rank: nat -> nat) {
    forall i :: 0 <= i < |edges| && edges[i].target != rail && Reachable(edges, rail, edges[i].source) ==>
                  rank(edges[i].source) < rank(edges[i].target)
  }

  /** Nothing outside leads into what the rail reaches, the rail itself excepted. */
  ghost predicate EnteredFromWithin(edges: seq<ContactEdge>, rail: nat) {
    forall i :: 0 <= i < |edges| && edges[i].target != rail && Reachable(edges, rail, edges[i].target) ==>
                  Reachable(edges, rail, edges[i].source)
  }

  ghost predicate VisitsAll(edges: seq<ContactEdge>, rail: nat, topo: seq<nat>) {
    forall v: nat :: Reachable(edges, rail, v) ==> v in topo
  }

  /** The pass visits every node the rail reaches exactly when that part of the graph has
      no cycle besides the rail and is entered only from within. */
  lemma KahnVisitsAll(edges: seq<ContactEdge>, n: nat, rail: nat, topo: seq<nat>)
    requires EdgesWithin(edges, n) && rail < n && KahnOrder(edges, n, {rail}, topo)
    ensures VisitsAll(edges, rail, topo) <==> Layered(edges, rail) && EnteredFromWithin(edges, rail)
  {
    if VisitsAll(edges, rail, topo) {
      VisitsGiveRanks(edges, n, rail, topo);
      VisitsAreEnteredFromWithin(edges, n, rail, topo);
    }
    if Layered(edges, rail) && EnteredFromWithin(edges, rail) {
      var rank: nat -> nat :| RisingFrom(edges, rail, rank);
      forall v: nat | Reachable(edges, rail, v)
        ensures v in topo
      {
        RankedIsVisited(edges, n, rail, topo, rank, v);
      }
    }
  }

  lemma {:induction false} ReachableWithin(edges: seq<ContactEdge>, n: nat, rail: nat, v: nat)
    requires EdgesWithin(edges, n) && rail < n && Reachable(edges, rail, v)
    ensures v < n
    ensures v != rail ==> Entered(edges, v)
  {
    var p :| IsPath(edges, p, rail, v);
    if p != [] { assert edges[p[|p| - 1]] in edges; }
  }

  lemma {:induction false} RankedIsVisited(edges: seq<ContactEdge>, n: nat, rail: nat, topo: seq<nat>,
                                           rank: nat -> nat, v: nat)
    requires EdgesWithin(edges, n) && rail < n && KahnOrder(edges, n, {rail}, topo)
    requires RisingFrom(edges, rail, rank) && EnteredFromWithin(edges, rail) && Reachable(edges, rail, v)
    ensures v in topo
    decreases rank(v)
  {
    hide Reachable;
    ReachableWithin(edges, n, rail, v);
    if v != rail {
      forall i | 0 <= i < |edges| && edges[i].target == v
        ensures edges[i].source in topo
      {
        RankedIsVisited(edges, n, rail, topo, rank, edges[i].source);
      }
      assert Ready(edges, topo, v);
    }
  }

  function Position(topo: seq<nat>, v: nat): nat {
    if topo == [] || topo[0] == v then 0 else 1 + Position(topo[1..], v)
  }

  lemma {:induction false} PositionOf(topo: seq<nat>, k: nat)
    requires k < |topo| && Distinct(topo)
    ensures Position(topo, topo[k]) == k
  {
    if k > 0 {
      PositionOf(topo[1..], k - 1);
    }
  }

  lemma VisitsGiveRanks(edges: seq<ContactEdge>, n: nat, rail: nat, topo: seq<nat>)
    requires EdgesWithin(edges, n) && rail < n && KahnOrder(edges, n, {rail}, topo) && VisitsAll(edges, rail, topo)
    ensures Layered(edges, rail)
  {
    hide Reachable; hide Position;
    var rank := (v: nat) => Position(topo, v);
    forall i | 0 <= i < |edges| && edges[i].target != rail && Reachable(edges, rail, edges[i].source)
      ensures rank(edges[i].source) < rank(edges[i].target)
    {
      ReachStep(edges, rail, i);
      assert edges[i].target in topo;
      var b :| 0 <= b < |topo| && topo[b] == edges[i].target;
      assert Ready(edges, topo[..b], topo[b]);
      var a :| 0 <= a < b && topo[a] == edges[i].source;
      PositionOf(topo, a);
      PositionOf(topo, b);
    }
    assert RisingFrom(edges, rail, rank);
  }

  lemma VisitsAreEnteredFromWithin(edges: seq<ContactEdge>, n: nat, rail: nat, topo: seq<nat>)
    requires EdgesWithin(edges, n) && rail < n
    requires KahnOrder(edges, n, {rail}, topo) && VisitsAll(edges, rail, topo)
    ensures EnteredFromWithin(edges, rail)
  {
    hide Reachable;
    forall i | 0 <= i < |edges| && edges[i].target != rail && Reachable(edges, rail, edges[i].target)
      ensures Reachable(edges, rail, edges[i].source)
    {
      ReachableWithin(edges, n, rail, edges[i].target);
      assert edges[i].target in topo;
      assert Ready(edges, topo, edges[i].target);
      var k :| 0 <= k < |topo| && topo[k] == edges[i].source;
      VisitedIsReachable(edges, n, rail, topo, k);
    }
  }

  // ----- power along an order -----

  lemma AlongMore(edges: seq<ContactEdge>, order: seq<nat>, k: nat, p: seq<nat>)
    requires k < |order| && Along(edges, order[..k], p)
    ensures Along(edges, order[..k + 1], p)
  {
    if p != [] {
      var j :| 0 <= j < k && order[..k][j] == edges[p[|p| - 1]].source && Along(edges, order[..k][..j], p[..|p| - 1]);
      assert order[..k + 1][j] == order[..k][j] && order[..k + 1][..j] == order[..k][..j];
    }
  }

  lemma {:induction false} AlongMost(edges: seq<ContactEdge>, order: seq<nat>, k: nat, p: seq<nat>)
    requires k <= |order| && Along(edges, order[..k], p)
    ensures Along(edges, order, p)
    decreases |order| - k
  {
    if k == |order| {
      assert order[..k] == order;
    } else {
      AlongMore(edges, order, k, p);
      AlongMost(edges, order, k + 1, p);
    }
  }

  ghost predicate LinkedFrom(edges: seq<ContactEdge>, store: map<string, bool>, u: nat, v: nat) {
    exists i :: 0 <= i < |edges| && edges[i].source == u && edges[i].target == v && Closed(edges[i].contact, store)
  }

  /** One node more in the order passes its own power on to the targets of its closed contacts. */
  lemma OneNodeMore(edges: seq<ContactEdge>, order: seq<nat>, k: nat, store: map<string, bool>, rail: nat, v: nat)
    requires k < |order|
    ensures PoweredAlong(edges, store, order[..k + 1], rail, v) <==>
            || PoweredAlong(edges, store, order[..k], rail, v)
            || (PoweredAlong(edges, store, order[..k], rail, order[k]) && LinkedFrom(edges, store, order[k], v))
  {
    if PoweredAlong(edges, store, order[..k + 1], rail, v) {
      OnlyLastEdge(edges, order, k, store, rail, v);
    }
    if PoweredAlong(edges, store, order[..k], rail, v) {
      var p :| IsPath(edges, p, rail, v) && AllClosed(edges, store, p) && Along(edges, order[..k], p);
      AlongMore(edges, order, k, p);
    }
    if PoweredAlong(edges, store, order[..k], rail, order[k]) && LinkedFrom(edges, store, order[k], v) {
      LastEdge(edges, order, k, store, rail, v);
    }
  }

  lemma LastEdge(edges: seq<ContactEdge>, order: seq<nat>, k: nat, store: map<string, bool>, rail: nat, v: nat)
    requires k < |order|
    requires PoweredAlong(edges, store, order[..k], rail, order[k]) && LinkedFrom(edges, store, order[k], v)
    ensures PoweredAlong(edges, store, order[..k + 1], rail, v)
  {
    hide Closed;
    var p :| IsPath(edges, p, rail, order[k]) && AllClosed(edges, store, p) && Along(edges, order[..k], p);
    var i: nat :| 0 <= i < |edges| && edges[i].source == order[k] && edges[i].target == v &&
      Closed(edges[i].contact, store);
    var q := p + [i];
    assert q[..|p|] == p && q[|q| - 1] == i;
    assert IsPath(edges, q, rail, v) && AllClosed(edges, store, q);
    assert order[..k + 1][k] == order[k] && order[..k + 1][..k] == order[..k];
    assert Along(edges, order[..k + 1], q);
  }

  lemma OnlyLastEdge(edges: seq<ContactEdge>, order: seq<nat>, k: nat, store: map<string, bool>, rail: nat, v: nat)
    requires k < |order| && PoweredAlong(edges, store, order[..k + 1], rail, v)
    ensures || PoweredAlong(edges, store, order[..k], rail, v)
            || (PoweredAlong(edges, store, order[..k], rail, order[k]) && LinkedFrom(edges, store, order[k], v))
  {
    hide Closed;
    var p :| IsPath(edges, p, rail, v) && AllClosed(edges, store, p) && Along(edges, order[..k + 1], p);
    if p == [] {
      assert Along(edges, order[..k], p);
    } else {
      var i, front := p[|p| - 1], p[..|p| - 1];
      var j :| 0 <= j < k + 1 && order[..k + 1][j] == edges[i].source && Along(edges, order[..k + 1][..j], front);
      assert order[..k + 1][..j] == order[..j];
      assert AllClosed(edges, store, front);
      if j == k {
        assert LinkedFrom(edges, store, order[k], v);
      } else {
        assert order[..k][j] == order[j] && order[..k][..j] == order[..j];
        assert Along(edges, order[..k], p);
      }
    }
  }

  lemma OnlyRail(edges: seq<ContactEdge>, store: map<string, bool>, rail: nat, v: nat)
    ensures PoweredAlong(edges, store, [], rail, v) <==> v == rail
  {
    if v == rail { assert IsPath(edges, [], rail, v) && AllClosed(edges, store, []) && Along(edges, [], []); }
  }

  /** Power along any order needs a path of closed contacts. */
  lemma PowerNeedsPath(edges: seq<ContactEdge>, rail: nat, output: nat, store: map<string, bool>, order: seq<nat>)
    requires PoweredAlong(edges, store, order, rail, output)
    ensures Powered(edges, store, rail, output)
  {
    var p :| IsPath(edges, p, rail, output) && AllClosed(edges, store, p) && Along(edges, order, p);
    assert Powered(edges, store, rail, output);
  }

  // ----- paths that meet no node twice -----

  predicate Simple(edges: seq<ContactEdge>, p: seq<nat>, a: nat) {
    && (forall k :: 0 <= k < |p| ==> p[k] < |edges| && edges[p[k]].target != a)
    && (forall j, k :: 0 <= j < k < |p| ==> edges[p[j]].target != edges[p[k]].target)
  }

  /** The node of the path behind its first `k` edges. */
  function NodeAt(edges: seq<ContactEdge>, p: seq<nat>, a: nat, k: nat): nat
    requires k <= |p| && forall j :: 0 <= j < |p| ==> p[j] < |edges|
  {
    if k == 0 then a else edges[p[k - 1]].target
  }

  lemma {:induction false} PathParts(edges: seq<ContactEdge>, p: seq<nat>, a: nat, b: nat, k: nat)
    requires IsPath(edges, p, a, b) && k <= |p|
    ensures forall j :: 0 <= j < |p| ==> p[j] < |edges|
    ensures NodeAt(edges, p, a, |p|) == b && (k < |p| ==> edges[p[k]].source == NodeAt(edges, p, a, k))
    ensures IsPath(edges, p[..k], a, NodeAt(edges, p, a, k)) && IsPath(edges, p[k..], NodeAt(edges, p, a, k), b)
    decreases |p|
  {
    if k == |p| {
      assert p[..k] == p && p[k..] == [];
      if p != [] { PathParts(edges, p[..|p| - 1], a, edges[p[|p| - 1]].source, k - 1); }
    } else {
      var front := p[..|p| - 1];
      PathParts(edges, front, a, edges[p[|p| - 1]].source, k);
      assert front[..k] == p[..k] && p[k..][..|p| - k - 1] == front[k..];
      assert NodeAt(edges, front, a, k) == NodeAt(edges, p, a, k);
    }
  }

  lemma {:induction false} PathsJoin(edges: seq<ContactEdge>, p: seq<nat>, q: seq<nat>, a: nat, b: nat, c: nat)
    requires IsPath(edges, p, a, b) && IsPath(edges, q, b, c)
    ensures IsPath(edges, p + q, a, c)
    decreases |q|
  {
    if q == [] {
      assert p + q == p;
    } else {
      PathsJoin(edges, p, q[..|q| - 1], a, b, edges[q[|q| - 1]].source);
      assert (p + q)[..|p + q| - 1] == p + q[..|q| - 1];
    }
  }

  /** Leaving out its loops makes a closed path simple. */
  lemma {:induction false} WithoutLoops(edges: seq<ContactEdge>, store: map<string, bool>, p: seq<nat>, a: nat, b: nat)
    returns (q: seq<nat>)
    requires IsPath(edges, p, a, b) && AllClosed(edges, store, p)
    ensures IsPath(edges, q, a, b) && AllClosed(edges, store, q) && Simple(edges, q, a)
    decreases |p|
  {
    hide Closed; hide IsPath; hide Simple;
    PathParts(edges, p, a, b, 0);
    if j, k :| 0 <= j < k <= |p| && NodeAt(edges, p, a, j) == NodeAt(edges, p, a, k) {
      PathParts(edges, p, a, b, j);
      PathParts(edges, p, a, b, k);
      PathsJoin(edges, p[..j], p[k..], a, NodeAt(edges, p, a, k), b);
      q := WithoutLoops(edges, store, p[..j] + p[k..], a, b);
    } else {
      q := p;
      NoNodeTwice(edges, p, a);
    }
  }

  lemma NoNodeTwice(edges: seq<ContactEdge>, p: seq<nat>, a: nat)
    requires forall j :: 0 <= j < |p| ==> p[j] < |edges|
    requires forall j, k :: 0 <= j < k <= |p| ==> NodeAt(edges, p, a, j) != NodeAt(edges, p, a, k)
    ensures Simple(edges, p, a)
  {
    forall k | 0 <= k < |p|
      ensures edges[p[k]].target != a
    {
      assert NodeAt(edges, p, a, 0) != NodeAt(edges, p, a, k + 1);
    }
    forall j, k | 0 <= j < k < |p|
      ensures edges[p[j]].target != edges[p[k]].target
    {
      assert NodeAt(edges, p, a, j + 1) != NodeAt(edges, p, a, k + 1);
    }
  }

  // ----- when power along an order is the existence of a path -----

  /** Every path from the rail to `v` that meets no node twice runs along the order. */
  ghost predicate PathsRunAlong(edges: seq<ContactEdge>, order: seq<nat>, rail: nat, v: nat) {
    forall p :: IsPath(edges, p, rail, v) && Simple(edges, p, rail) ==> Along(edges, order, p)
  }

  ghost predicate PowerIsPath(edges: seq<ContactEdge>, order: seq<nat>, rail: nat, v: nat) {
    forall store :: PoweredAlong(edges, store, order, rail, v) == Powered(edges, store, rail, v)
  }

  lemma SimplePathsSuffice(edges: seq<ContactEdge>, order: seq<nat>, rail: nat, v: nat)
    requires PathsRunAlong(edges, order, rail, v)
    ensures PowerIsPath(edges, order, rail, v)
  {
    hide IsPath; hide Simple; hide Along; hide AllClosed;
    forall store
      ensures PoweredAlong(edges, store, order, rail, v) == Powered(edges, store, rail, v)
    {
      if Powered(edges, store, rail, v) {
        var p :| IsPath(edges, p, rail, v) && AllClosed(edges, store, p);
        var q := WithoutLoops(edges, store, p, rail, v);
        assert PoweredAlong(edges, store, order, rail, v);
      }
    }
  }

  /** No variable labels two edges. */
  predicate OwnContacts(edges: seq<ContactEdge>) {
    forall i, j :: 0 <= i < j < |edges| ==> edges[i].contact.v != edges[j].contact.v
  }

  /** Inputs that close the contacts of `p` and no others. */
  function ClosingOnly(edges: seq<ContactEdge>, p: seq<nat>): map<string, bool> {
    if edges == [] then map[]
    else
      var n := |edges| - 1;
      ClosingOnly(edges[..n], p)[edges[n].contact.v := edges[n].contact.No? == (n in p)]
  }

  lemma {:induction false} ClosesOnly(edges: seq<ContactEdge>, p: seq<nat>, i: nat)
    requires OwnContacts(edges) && i < |edges|
    ensures Closed(edges[i].contact, ClosingOnly(edges, p)) <==> i in p
  {
    var n := |edges| - 1;
    if i < n { ClosesOnly(edges[..n], p, i); }
  }

  /** Over the edges of a simple path there is no other path to one of its nodes. */
  lemma {:induction false} OnlyWay(edges: seq<ContactEdge>, p: seq<nat>, a: nat, b: nat, k: nat, t: seq<nat>)
    requires IsPath(edges, p, a, b) && Simple(edges, p, a) && k <= |p|
    requires IsPath(edges, t, a, NodeAt(edges, p, a, k)) && forall j :: 0 <= j < |t| ==> t[j] in p
    ensures t == p[..k]
    decreases |t|
  {
    if t != [] {
      var m :| 0 <= m < |p| && p[m] == t[|t| - 1];
      assert m + 1 == k;
      PathParts(edges, p, a, b, m);
      OnlyWay(edges, p, a, b, m, t[..|t| - 1]);
      assert p[..k] == p[..m] + [p[m]];
    }
  }

  lemma SimplePathsNeeded(edges: seq<ContactEdge>, order: seq<nat>, rail: nat, v: nat)
    requires OwnContacts(edges) && PowerIsPath(edges, order, rail, v)
    ensures PathsRunAlong(edges, order, rail, v)
  {
    hide Closed; hide OwnContacts; hide ClosingOnly; hide Along;
    forall p | IsPath(edges, p, rail, v) && Simple(edges, p, rail)
      ensures Along(edges, order, p)
    {
      var store := ClosingOnly(edges, p);
      forall i: nat | i < |edges|
        ensures Closed(edges[i].contact, store) <==> i in p
      {
        ClosesOnly(edges, p, i);
      }
      assert AllClosed(edges, store, p);
      assert Powered(edges, store, rail, v);
      assert PoweredAlong(edges, store, order, rail, v);
      var t: seq<nat> :| IsPath(edges, t, rail, v) && AllClosed(edges, store, t) && Along(edges, order, t);
      PathParts(edges, p, rail, v, |p|);
      OnlyWay(edges, p, rail, v, |p|, t);
      assert p[..|p|] == p;
    }
  }

  /** A pass over the nodes in any order finds, for all inputs, exactly the paths of closed
      contacts, if every simple path runs along the order; where no two edges share a
      variable, only if. */
  lemma PowerIsPathExactly(edges: seq<ContactEdge>, order: seq<nat>, rail: nat, v: nat)
    ensures PathsRunAlong(edges, order, rail, v) ==> PowerIsPath(edges, order, rail, v)
    ensures OwnContacts(edges) ==> (PowerIsPath(edges, order, rail, v) <==> PathsRunAlong(edges, order, rail, v))
  {
    if PathsRunAlong(edges, order, rail, v) { SimplePathsSuffice(edges, order, rail, v); }
    if OwnContacts(edges) && PowerIsPath(edges, order, rail, v) { SimplePathsNeeded(edges, order, rail, v); }
  }

  // ----- the order of a Kahn pass -----

  /** The order begins with its rail. */
  lemma StartsAtRail(edges: seq<ContactEdge>, n: nat, rail: nat, topo: seq<nat>)
    requires rail < n && KahnOrder(edges, n, {rail}, topo)
    ensures topo != [] && topo[0] == rail
  {
    assert rail in topo;
    assert !Ready(edges, topo[..0], topo[0]);
  }

  /** An order belongs to one rail only: with another rail it is out of date. */
  lemma OrderTellsRail(edges: seq<ContactEdge>, n: nat, rail: nat, other: nat, topo: seq<nat>)
    requires rail < n && other < n && KahnOrder(edges, n, {rail}, topo)
    ensures KahnOrder(edges, n, {other}, topo) <==> other == rail
  {
    StartsAtRail(edges, n, rail, topo);
    if KahnOrder(edges, n, {other}, topo) { StartsAtRail(edges, n, other, topo); }
  }

  lemma EntryBefore(edges: seq<ContactEdge>, n: nat, seeds: set<nat>, topo: seq<nat>, b: nat, i: nat) returns (a: nat)
    requires KahnOrder(edges, n, seeds, topo) && b < |topo|
    requires i < |edges| && edges[i].target == topo[b] && topo[b] !in seeds
    ensures a < b && topo[a] == edges[i].source
  {
    assert Ready(edges, topo[..b], topo[b]);
    assert edges[i].source in topo[..b];
    a :| 0 <= a < b && topo[a] == edges[i].source;
  }

  /** A path to a visited node that does not come back to the rail runs along the order. */
  lemma {:induction false} VisitedAlong(edges: seq<ContactEdge>, n: nat, rail: nat, topo: seq<nat>, a: nat,
                                        q: seq<nat>, b: nat)
    requires KahnOrder(edges, n, {rail}, topo) && b < |topo| && IsPath(edges, q, a, topo[b])
    requires forall k :: 0 <= k < |q| ==> q[k] < |edges| && edges[q[k]].target != rail
    ensures Along(edges, topo[..b], q)
    decreases |q|
  {
    if q != [] {
      hide KahnOrder;
      var i, front := q[|q| - 1], q[..|q| - 1];
      var c := EntryBefore(edges, n, {rail}, topo, b, i);
      VisitedAlong(edges, n, rail, topo, a, front, c);
      assert topo[..b][c] == edges[i].source && topo[..b][..c] == topo[..c];
    }
  }

  /** Every node that ends the way to `v` is visited: the source of the last edge of every
      path from `rail` to `v` that meets no node twice. */
  ghost predicate FedFromVisited(edges: seq<ContactEdge>, topo: seq<nat>, rail: nat, v: nat) {
    forall p :: IsPath(edges, p, rail, v) && Simple(edges, p, rail) && p != [] ==> edges[p[|p| - 1]].source in topo
  }

  /** No path from `rail` to `v` that meets no node twice leaves node `former`. */
  ghost predicate Avoids(edges: seq<ContactEdge>, former: nat, rail: nat, v: nat) {
    forall p, k :: IsPath(edges, p, rail, v) && Simple(edges, p, rail) && 0 <= k < |p| ==> edges[p[k]].source != former
  }

  lemma KahnSuffices(edges: seq<ContactEdge>, n: nat, former: nat, rail: nat, topo: seq<nat>, v: nat)
    requires KahnOrder(edges, n, {former}, topo) && FedFromVisited(edges, topo, rail, v)
    requires rail == former || Avoids(edges, former, rail, v)
    ensures PathsRunAlong(edges, topo, rail, v)
  {
    hide KahnOrder;
    forall p | IsPath(edges, p, rail, v) && Simple(edges, p, rail)
      ensures Along(edges, topo, p)
    {
      if p != [] {
        var i, front := p[|p| - 1], p[..|p| - 1];
        assert edges[i].source in topo;
        var b :| 0 <= b < |topo| && topo[b] == edges[i].source;
        forall k | 0 <= k < |front|
          ensures front[k] < |edges| && edges[front[k]].target != former
        {
          assert front[k] == p[k] && edges[p[k]].target != rail;
          PathParts(edges, p, rail, v, k + 1);
        }
        VisitedAlong(edges, n, former, topo, rail, front, b);
      }
    }
  }

  lemma {:induction false} AlongAt(edges: seq<ContactEdge>, order: seq<nat>, p: seq<nat>, k: nat) returns (j: nat)
    requires Along(edges, order, p) && k < |p|
    ensures p[k] < |edges| && j < |order| && order[j] == edges[p[k]].source && Along(edges, order[..j], p[..k])
    decreases |p|
  {
    j :| 0 <= j < |order| && order[j] == edges[p[|p| - 1]].source && Along(edges, order[..j], p[..|p| - 1]);
    if k < |p| - 1 {
      var front := p[..|p| - 1];
      var m := AlongAt(edges, order[..j], front, k);
      assert order[..j][..m] == order[..m] && front[..k] == p[..k];
      j := m;
    }
  }

  lemma KahnNeeds(edges: seq<ContactEdge>, n: nat, former: nat, rail: nat, topo: seq<nat>, v: nat)
    requires former < n && KahnOrder(edges, n, {former}, topo) && PathsRunAlong(edges, topo, rail, v)
    ensures FedFromVisited(edges, topo, rail, v) && (rail == former || Avoids(edges, former, rail, v))
  {
    StartsAtRail(edges, n, former, topo);
    if rail != former {
      forall p, k | IsPath(edges, p, rail, v) && Simple(edges, p, rail) && 0 <= k < |p|
        ensures edges[p[k]].source != former
      {
        PathParts(edges, p, rail, v, k);
        if edges[p[k]].source == former {
          var j := AlongAt(edges, topo, p, k);
          assert false;
        }
      }
    }
  }

  /** Evaluated along the order of its own rail, power is the existence of a path of closed
      contacts for all inputs, if every node that ends the way to the output is visited;
      where no two edges share a variable, only if. */
  lemma PowerFlowIsPathExistence(edges: seq<ContactEdge>, n: nat, rail: nat, output: nat, topo: seq<nat>)
    requires rail < n && KahnOrder(edges, n, {rail}, topo)
    ensures FedFromVisited(edges, topo, rail, output) ==> PowerIsPath(edges, topo, rail, output)
    ensures OwnContacts(edges) ==> (PowerIsPath(edges, topo, rail, output) <==>
                                    FedFromVisited(edges, topo, rail, output))
  {
    hide KahnOrder; hide FedFromVisited; hide PowerIsPath; hide OwnContacts; hide PathsRunAlong;
    if FedFromVisited(edges, topo, rail, output) { KahnSuffices(edges, n, rail, rail, topo, output); }
    if PathsRunAlong(edges, topo, rail, output) { KahnNeeds(edges, n, rail, rail, topo, output); }
    PowerIsPathExactly(edges, topo, rail, output);
  }

  /** Evaluated along the order of an earlier rail, power is the existence of a path for all
      inputs, if besides no such path leaves the earlier rail; where no two edges share a
      variable, only if. */
  lemma StalePowerExactly(edges: seq<ContactEdge>, n: nat, former: nat, rail: nat, output: nat, topo: seq<nat>)
    requires former < n && former != rail && KahnOrder(edges, n, {former}, topo)
    ensures FedFromVisited(edges, topo, rail, output) && Avoids(edges, former, rail, output) ==>
              PowerIsPath(edges, topo, rail, output)
    ensures OwnContacts(edges) ==>
              (PowerIsPath(edges, topo, rail, output) <==>
               FedFromVisited(edges, topo, rail, output) && Avoids(edges, former, rail, output))
  {
    hide KahnOrder; hide FedFromVisited; hide PowerIsPath; hide OwnContacts; hide PathsRunAlong; hide Avoids;
    if FedFromVisited(edges, topo, rail, output) && Avoids(edges, former, rail, output) {
      KahnSuffices(edges, n, former, rail, topo, output);
    }
    if PathsRunAlong(edges, topo, rail, output) { KahnNeeds(edges, n, former, rail, topo, output); }
    PowerIsPathExactly(edges, topo, rail, output);
  }

  /** A pass that visits all that the rail reaches finds every path. */
  lemma VisitedPower(edges: seq<ContactEdge>, n: nat, store: map<string, bool>, rail: nat, topo: seq<nat>, v: nat)
    requires rail < n && KahnOrder(edges, n, {rail}, topo) && VisitsAll(edges, rail, topo)
    ensures PoweredAlong(edges, store, topo, rail, v) <==> Powered(edges, store, rail, v)
  {
    hide KahnOrder; hide PoweredAlong; hide Powered;
    forall p | IsPath(edges, p, rail, v) && Simple(edges, p, rail) && p != []
      ensures edges[p[|p| - 1]].source in topo
    {
      assert IsPath(edges, p[..|p| - 1], rail, edges[p[|p| - 1]].source);
    }
    PowerFlowIsPathExistence(edges, n, rail, v, topo);
  }

  /** An entry from outside hides a node from the pass: a closed path leads over node 1 to
      node 3, yet node 2, which the rail does not reach, keeps node 1 unvisited. */
  lemma OutsideEntryLosesPower(store: map<string, bool>, topo: seq<nat>)
    requires var edges := [ContactEdge(0, 1, No("a")), ContactEdge(2, 1, No("a")), ContactEdge(1, 3, No("a"))];
             KahnOrder(edges, 4, {0}, topo) && GetBool(store, "a")
    ensures var edges := [ContactEdge(0, 1, No("a")), ContactEdge(2, 1, No("a")), ContactEdge(1, 3, No("a"))];
            Powered(edges, store, 0, 3) && !PoweredAlong(edges, store, topo, 0, 3)
  {
    var edges := [ContactEdge(0, 1, No("a")), ContactEdge(2, 1, No("a")), ContactEdge(1, 3, No("a"))];
    assert IsPath(edges, [0, 2], 0, 3) && AllClosed(edges, store, [0, 2]) by {
      assert [0, 2][..1] == [0] && [0][..0] == [];
      assert IsPath(edges, [], 0, 0) && IsPath(edges, [0], 0, 1);
    }
    assert !Entered(edges, 2);
    assert 2 !in topo;
    assert edges[1].target == 1;
    assert !Ready(edges, topo, 1);
    assert 1 !in topo;
    forall p: seq<nat> | IsPath(edges, p, 0, 3)
      ensures !Along(edges, topo, p)
    {
      assert edges[p[|p| - 1]].source == 1;
    }
  }

  /** A new rail loses its power to an old order: evaluated for rail 0, then with rail 2. */
  lemma StaleOrderLosesPower(store: map<string, bool>, topo: seq<nat>)
    requires var edges := [ContactEdge(0, 1, No("a")), ContactEdge(2, 3, No("b"))];
             KahnOrder(edges, 4, {0}, topo) && GetBool(store, "b")
    ensures var edges := [ContactEdge(0, 1, No("a")), ContactEdge(2, 3, No("b"))];
            Powered(edges, store, 2, 3) && !PoweredAlong(edges, store, topo, 2, 3)
  {
    var edges := [ContactEdge(0, 1, No("a")), ContactEdge(2, 3, No("b"))];
    assert IsPath(edges, [1], 2, 3) && AllClosed(edges, store, [1]) by {
      assert [1][..0] == [];
      assert IsPath(edges, [], 2, 2);
    }
    assert !Entered(edges, 2);
    assert 2 !in topo;
    forall p: seq<nat> | IsPath(edges, p, 2, 3)
      ensures !Along(edges, topo, p)
    {
      assert edges[p[|p| - 1]].source == 2;
    }
  }
}
