/** Rungs, coils and the variable store: one scan cycle of a ladder program, rung by
    rung, and what latching coils keep from cycle to cycle. */
module LadderCycle {
  import opened HalValues
  import opened LadderGraph
  import opened LadderNetwork
  import opened LadderPass

  datatype CoilKind = Out | Set | Reset | Negated

  datatype Coil = Coil(v: string, kind: CoilKind)

  datatype ContactState = ContactState(id: string, normallyOpen: bool, isClosed: bool)

  datatype CoilState = CoilState(id: string, kind: CoilKind, energized: bool)

  datatype RungState = RungState(id: string, contacts: seq<ContactState>, coils: seq<CoilState>)

  datatype CycleResult = CycleResult(rungs: seq<RungState>, poweredCoils: seq<string>)

  /** SET and RESET hold the variable's value while they are not powered. */
  predicate Energized(kind: CoilKind, power: bool, held: bool) {
    match kind
    case Out => power
    case Negated => !power
    case Set => power || held
    case Reset => !power && held
  }

  function CoilStates(coils: seq<Coil>, power: bool, store: map<string, bool>): (r: seq<CoilState>)
    ensures |r| == |coils|
    ensures forall i :: 0 <= i < |coils| ==>
              r[i] == CoilState(coils[i].v, coils[i].kind, Energized(coils[i].kind, power, GetBool(store, coils[i].v)))
  {
    if coils == [] then []
    else
      var c := coils[|coils| - 1];
      CoilStates(coils[..|coils| - 1], power, store) +
        [CoilState(c.v, c.kind, Energized(c.kind, power, GetBool(store, c.v)))]
  }

  function ContactStates(contacts: seq<Contact>, store: map<string, bool>): (r: seq<ContactState>)
    ensures |r| == |contacts|
    ensures forall i :: 0 <= i < |contacts| ==>
              r[i] == ContactState(contacts[i].v, contacts[i].No?, Closed(contacts[i], store))
  {
    if contacts == [] then []
    else
      var c := contacts[|contacts| - 1];
      ContactStates(contacts[..|contacts| - 1], store) + [ContactState(c.v, c.No?, Closed(c, store))]
  }

  function ContactsOf(edges: seq<ContactEdge>): (r: seq<Contact>)
    ensures |r| == |edges| && forall i :: 0 <= i < |edges| ==> r[i] == edges[i].contact
  {
    if edges == [] then [] else ContactsOf(edges[..|edges| - 1]) + [edges[|edges| - 1].contact]
  }

  function ApplyCoils(store: map<string, bool>, states: seq<CoilState>): map<string, bool> {
    if states == [] then store
    else ApplyCoils(store, states[..|states| - 1])[states[|states| - 1].id := states[|states| - 1].energized]
  }

  function ApplyRungs(store: map<string, bool>, rungs: seq<RungState>): map<string, bool> {
    if rungs == [] then store
    else ApplyCoils(ApplyRungs(store, rungs[..|rungs| - 1]), rungs[|rungs| - 1].coils)
  }

  // ----- the meaning of a cycle -----

  /** A rung as a value: its graph, its rails, the order its evaluation uses and its coils. */
  datatype RungView = RungView(id: string, edges: seq<ContactEdge>, rail: nat, output: nat, order: seq<nat>,
                               coils: seq<Coil>)

  /** Power reaches the rung's output along its order. */
  ghost predicate Flow(r: RungView, store: map<string, bool>) {
    PoweredAlong(r.edges, store, r.order, r.rail, r.output)
  }

  ghost function CoilsAfter(r: RungView, store: map<string, bool>): seq<CoilState> {
    CoilStates(r.coils, Flow(r, store), store)
  }

  /** The store after the rungs, each seeing what the rungs above it wrote. */
  ghost function StoreAfter(rs: seq<RungView>, store: map<string, bool>): map<string, bool> {
    if rs == [] then store
    else
      var before := StoreAfter(rs[..|rs| - 1], store);
      ApplyCoils(before, CoilsAfter(rs[|rs| - 1], before))
  }

  ghost function StateOf(r: RungView, store: map<string, bool>): RungState {
    RungState(r.id, ContactStates(ContactsOf(r.edges), store), CoilsAfter(r, store))
  }

  ghost function StatesOf(rs: seq<RungView>, store: map<string, bool>): seq<RungState> {
    if rs == [] then []
    else StatesOf(rs[..|rs| - 1], store) + [StateOf(rs[|rs| - 1], StoreAfter(rs[..|rs| - 1], store))]
  }

  function PoweredIn(states: seq<CoilState>): seq<string> {
    if states == [] then []
    else
      var s := states[|states| - 1];
      PoweredIn(states[..|states| - 1]) + (if s.energized then [s.id] else [])
  }

  function PoweredCoils(rungs: seq<RungState>): seq<string> {
    if rungs == [] then [] else PoweredCoils(rungs[..|rungs| - 1]) + PoweredIn(rungs[|rungs| - 1].coils)
  }

  // ----- the store -----

  class VarStore {
    var values: map<string, bool>

    constructor ()
      ensures values == map[]
    {
      values := map[];
    }

    function Get(v: string): bool
      reads this
    {
      GetBool(values, v)
    }

    method SetBool(v: string, value: bool)
      modifies this
      ensures values == old(values)[v := value]
    {
      values := values[v := value];
    }

    method SetCoils(states: seq<CoilState>)
      modifies this
      ensures values == ApplyCoils(old(values), states)
    {
      for i := 0 to |states|
        invariant values == ApplyCoils(old(values), states[..i])
      {
        assert states[..i + 1][..i] == states[..i];
        SetBool(states[i].id, states[i].energized);
      }
      assert states[..|states|] == states;
    }

    /** Replay the result of a cycle. */
    method Apply(result: CycleResult)
      modifies this
      ensures values == ApplyRungs(old(values), result.rungs)
    {
      var rungs := result.rungs;
      for i := 0 to |rungs|
        invariant values == ApplyRungs(old(values), rungs[..i])
      {
        assert rungs[..i + 1][..i] == rungs[..i];
        SetCoils(rungs[i].coils);
      }
      assert rungs[..|rungs|] == rungs;
    }
  }

  // ----- evaluation -----

  datatype RungDef = RungDef(id: string, network: ContactNetwork, coils: seq<Coil>)

  function NodeOf(o: Option<nat>): nat { if o.Some? then o.value else 0 }

  ghost function View(r: RungDef): RungView
    reads r.network
  {
    RungView(r.id, r.network.edges, NodeOf(r.network.leftRail), NodeOf(r.network.outputNode), r.network.OrderInUse(),
             r.coils)
  }

  ghost predicate Usable(n: ContactNetwork)
    reads n
  {
    n.Valid() && n.Sortable() && n.leftRail.Some? && n.outputNode.Some?
  }

  ghost function Views(rungs: seq<RungDef>): (r: seq<RungView>)
    reads set x | x in rungs :: x.network
    ensures |r| == |rungs| && forall i :: 0 <= i < |rungs| ==> r[i] == View(rungs[i])
  {
    if rungs == [] then [] else Views(rungs[..|rungs| - 1]) + [View(rungs[|rungs| - 1])]
  }

  method EnergizeCoil(c: Coil, power: bool, vars: VarStore) returns (state: CoilState)
    ensures state == CoilState(c.v, c.kind, Energized(c.kind, power, GetBool(vars.values, c.v)))
  {
    var energized;
    match c.kind {
      case Out => energized := power;
      case Negated => energized := !power;
      case Set => if power { energized := true; } else { energized := vars.Get(c.v); }
      case Reset => if power { energized := false; } else { energized := vars.Get(c.v); }
    }
    state := CoilState(c.v, c.kind, energized);
  }

  /** The coil states of one rung, and the names of the energized ones. */
  method EnergizeCoils(coils: seq<Coil>, power: bool, vars: VarStore)
    returns (states: seq<CoilState>, powered: seq<string>)
    ensures states == CoilStates(coils, power, vars.values) && powered == PoweredIn(states)
  {
    hide Energized; hide GetBool; hide CoilStates; hide PoweredIn;
    states, powered := [], [];
    NoCoils(power, vars.values);
    assert coils[..0] == [];
    for i := 0 to |coils|
      invariant states == CoilStates(coils[..i], power, vars.values) && powered == PoweredIn(states)
    {
      OneCoilMore(coils, i, power, vars.values, states);
      var state := EnergizeCoil(coils[i], power, vars);
      if state.energized { powered := powered + [coils[i].v]; }
      states := states + [state];
    }
    assert coils[..|coils|] == coils;
  }

  lemma NoCoils(power: bool, store: map<string, bool>)
    ensures CoilStates([], power, store) == [] && PoweredIn([]) == []
  {
  }

  lemma OneCoilMore(coils: seq<Coil>, i: nat, power: bool, store: map<string, bool>, states: seq<CoilState>)
    requires i < |coils|
    ensures var c := coils[i];
            var state := CoilState(c.v, c.kind, Energized(c.kind, power, GetBool(store, c.v)));
            && CoilStates(coils[..i + 1], power, store) == CoilStates(coils[..i], power, store) + [state]
            && PoweredIn(states + [state]) == PoweredIn(states) + (if state.energized then [state.id] else [])
  {
    hide Energized; hide GetBool;
    assert coils[..i + 1][..i] == coils[..i];
    var c := coils[i];
    var state := CoilState(c.v, c.kind, Energized(c.kind, power, GetBool(store, c.v)));
    assert (states + [state])[..|states|] == states;
  }

  method ReportContacts(contacts: seq<Contact>, snapshot: map<string, bool>) returns (states: seq<ContactState>)
    ensures states == ContactStates(contacts, snapshot)
  {
    states := [];
    for i := 0 to |contacts|
      invariant states == ContactStates(contacts[..i], snapshot)
    {
      assert contacts[..i + 1][..i] == contacts[..i];
      var closed := match contacts[i] case No(v) => GetBool(snapshot, v) case Nc(v) => !GetBool(snapshot, v);
      states := states + [ContactState(contacts[i].v, contacts[i].No?, closed)];
    }
    assert contacts[..|contacts|] == contacts;
  }

  /** One rung of a cycle: power from the store as it stands, then the coils written back. */
  method EvaluateOne(rung: RungDef, vars: VarStore) returns (state: RungState, powered: seq<string>)
    requires Usable(rung.network)
    modifies vars, rung.network
    ensures Usable(rung.network) && View(rung) == old(View(rung))
    ensures state == StateOf(View(rung), old(vars.values))
    ensures vars.values == ApplyCoils(old(vars.values), state.coils)
    ensures powered == PoweredIn(state.coils)
  {
    hide CoilStates; hide ContactStates; hide KahnOrder; hide PoweredAlong; hide ApplyCoils; hide PoweredIn;
    hide Closed; hide Orderable; hide PassOrder;
    var n := rung.network;
    var power := n.EvaluatePowerFlow(vars.values);
    var contacts := ReportContacts(ContactsOf(n.edges), vars.values);
    var coils;
    coils, powered := EnergizeCoils(rung.coils, power, vars);
    vars.SetCoils(coils);
    state := RungState(rung.id, contacts, coils);
  }

  /** One scan cycle over the rungs, top to bottom. */
  method EvaluateCycle(rungs: seq<RungDef>, vars: VarStore) returns (result: CycleResult)
    requires forall r :: r in rungs ==> Usable(r.network)
    modifies vars, set r | r in rungs :: r.network
    ensures forall r :: r in rungs ==> Usable(r.network) && View(r) == old(View(r))
    ensures vars.values == StoreAfter(Views(rungs), old(vars.values))
    ensures result.rungs == StatesOf(Views(rungs), old(vars.values))
    ensures result.poweredCoils == PoweredCoils(result.rungs)
  {
    hide StateOf; hide CoilsAfter; hide ApplyCoils; hide PoweredIn; hide Usable; hide Views;
    hide StatesOf; hide StoreAfter; hide PoweredCoils;
    NoRungs(vars.values);
    ghost var views := Views(rungs);
    assert views[..0] == [];
    var states: seq<RungState>, powered: seq<string> := [], [];
    for i := 0 to |rungs|
      invariant forall r :: r in rungs ==> Usable(r.network)
      invariant forall r :: r in rungs ==> View(r) == old(View(r))
      invariant vars.values == StoreAfter(views[..i], old(vars.values))
      invariant states == StatesOf(views[..i], old(vars.values))
      invariant powered == PoweredCoils(states)
    {
      var rung := rungs[i];
      assert rung in rungs;
      OneRungMore(views, i, old(vars.values), states);
      var state, names := EvaluateOne(rung, vars);
      states, powered := states + [state], powered + names;
    }
    assert views[..|rungs|] == views;
    assert Views(rungs) == views;
    result := CycleResult(states, powered);
  }

  lemma NoRungs(store: map<string, bool>)
    ensures StoreAfter([], store) == store && StatesOf([], store) == [] && PoweredCoils([]) == []
  {
  }

  lemma OneRungMore(views: seq<RungView>, i: nat, store: map<string, bool>, states: seq<RungState>)
    requires i < |views|
    ensures var before := StoreAfter(views[..i], store);
            var state := StateOf(views[i], before);
            && StoreAfter(views[..i + 1], store) == ApplyCoils(before, state.coils)
            && StatesOf(views[..i + 1], store) == StatesOf(views[..i], store) + [state]
            && PoweredCoils(states + [state]) == PoweredCoils(states) + PoweredIn(state.coils)
  {
    hide ApplyCoils; hide PoweredIn; hide CoilsAfter;
    assert views[..i + 1][..i] == views[..i];
    var state := StateOf(views[i], StoreAfter(views[..i], store));
    assert (states + [state])[..|states|] == states;
  }

  // ----- series rungs -----

  function SerialEdges(contacts: seq<Contact>): (r: seq<ContactEdge>)
    ensures |r| == |contacts|
    ensures forall i :: 0 <= i < |contacts| ==> r[i] == ContactEdge(i, i + 1, contacts[i])
  {
    if contacts == [] then []
    else
      var n := |contacts| - 1;
      SerialEdges(contacts[..n]) + [ContactEdge(n, n + 1, contacts[n])]
  }

  ghost function SerialView(id: string, contacts: seq<Contact>, coils: seq<Coil>): RungView {
    SerialWithin(contacts);
    RungView(id, SerialEdges(contacts), 0, |contacts|, PassOrder(SerialEdges(contacts), |contacts| + 1, Some(0)), coils)
  }

  predicate AllContactsClosed(contacts: seq<Contact>, store: map<string, bool>) {
    forall i :: 0 <= i < |contacts| ==> Closed(contacts[i], store)
  }

  method BuildSerialNetwork(contacts: seq<Contact>) returns (network: ContactNetwork)
    ensures fresh(network) && Usable(network) && network.dirty
    ensures network.nodeCount == |contacts| + 1 && network.edges == SerialEdges(contacts)
    ensures network.leftRail == Some(0) && network.outputNode == Some(|contacts|)
  {
    network := new ContactNetwork();
    var left := network.AddNode();
    network.SetLeftRail(left);
    var prev := left;
    for i := 0 to |contacts|
      invariant fresh(network) && network.Valid() && network.dirty && network.leftRail == Some(0)
      invariant prev == i && network.nodeCount == i + 1 && network.edges == SerialEdges(contacts[..i])
    {
      assert contacts[..i + 1][..i] == contacts[..i];
      var next := network.AddNode();
      network.AddEdge(prev, next, contacts[i]);
      prev := next;
    }
    assert contacts[..|contacts|] == contacts;
    network.SetOutputNode(prev);
    SerialOrderable(contacts);
  }

  lemma SerialWithin(contacts: seq<Contact>)
    ensures EdgesWithin(SerialEdges(contacts), |contacts| + 1)
  {
  }

  /** Nothing enters the rail of a series network. */
  lemma SerialOrderable(contacts: seq<Contact>)
    ensures Orderable(SerialEdges(contacts), |contacts| + 1, Some(0))
  {
    assert !Entered(SerialEdges(contacts), 0);
  }

  lemma {:induction false} SerialReach(contacts: seq<Contact>, k: nat)
    requires k <= |contacts|
    ensures Reachable(SerialEdges(contacts), 0, k)
  {
    if k == 0 {
      ReachSelf(SerialEdges(contacts), 0);
    } else {
      SerialReach(contacts, k - 1);
      ReachStep(SerialEdges(contacts), 0, k - 1);
    }
  }

  lemma OneMoreClosed(contacts: seq<Contact>, store: map<string, bool>, k: nat)
    requires k < |contacts|
    ensures AllContactsClosed(contacts[..k + 1], store) <==>
            AllContactsClosed(contacts[..k], store) && Closed(contacts[k], store)
  {
    hide Closed;
    var more := contacts[..k + 1];
    assert more == contacts[..k] + [contacts[k]];
    assert more[k] == contacts[k] && forall i :: 0 <= i < k ==> more[i] == contacts[..k][i];
  }

  lemma {:induction false} SerialPowered(contacts: seq<Contact>, store: map<string, bool>, k: nat)
    requires k <= |contacts|
    ensures Powered(SerialEdges(contacts), store, 0, k) <==> AllContactsClosed(contacts[..k], store)
  {
    hide Closed; hide SerialEdges; hide AllContactsClosed;
    var edges := SerialEdges(contacts);
    if k == 0 {
      assert IsPath(edges, [], 0, 0) && AllClosed(edges, store, []);
      NoneOpen(contacts, store);
    } else {
      SerialPowered(contacts, store, k - 1);
      OneMoreClosed(contacts, store, k - 1);
      if p: seq<nat> :| IsPath(edges, p, 0, k) && AllClosed(edges, store, p) {
        var i := p[|p| - 1];
        assert i == k - 1;
        assert AllClosed(edges, store, p[..|p| - 1]);
      }
      if AllContactsClosed(contacts[..k], store) {
        var p: seq<nat> :| IsPath(edges, p, 0, k - 1) && AllClosed(edges, store, p);
        assert (p + [k - 1])[..|p|] == p;
        assert IsPath(edges, p + [k - 1], 0, k) && AllClosed(edges, store, p + [k - 1]);
      }
    }
  }

  lemma NoneOpen(contacts: seq<Contact>, store: map<string, bool>)
    ensures AllContactsClosed(contacts[..0], store)
  {
  }

  /** In a series rung power flows exactly when every contact is closed. */
  lemma SerialFlow(id: string, contacts: seq<Contact>, coils: seq<Coil>, store: map<string, bool>)
    ensures Flow(SerialView(id, contacts, coils), store) <==> AllContactsClosed(contacts, store)
  {
    hide Reachable; hide PoweredAlong; hide Powered; hide Closed; hide KahnOrder; hide AllContactsClosed;
    hide VisitsAll; hide SerialEdges; hide Orderable; hide PassOrder;
    var edges, n := SerialEdges(contacts), |contacts| + 1;
    SerialWithin(contacts);
    SerialOrderable(contacts);
    OrderablePassEnds(edges, n, Some(0));
    assert SeedsOf(edges, n, Some(0)) == {0};
    var topo := PassOrder(edges, n, Some(0));
    assert RisingFrom(edges, 0, (v: nat) => v);
    forall i | 0 <= i < |edges|
      ensures Reachable(edges, 0, edges[i].source)
    {
      SerialReach(contacts, i);
    }
    KahnVisitsAll(edges, n, 0, topo);
    VisitedPower(edges, n, store, 0, topo, |contacts|);
    SerialPowered(contacts, store, |contacts|);
    assert contacts[..|contacts|] == contacts;
  }

  /** One rung on its own: a series network built for its contacts, evaluated over a
      snapshot, with its coils reading the store. */
  method EvaluateRung(id: string, contacts: seq<Contact>, coils: seq<Coil>, snapshot: map<string, bool>, vars: VarStore)
    returns (state: RungState)
    ensures state == RungState(id, ContactStates(contacts, snapshot),
                               CoilStates(coils, AllContactsClosed(contacts, snapshot), vars.values))
  {
    hide CoilStates; hide ContactStates; hide KahnOrder; hide PoweredAlong; hide Closed; hide Orderable;
    hide SerialEdges;
    hide PoweredIn; hide PassOrder;
    var network := BuildSerialNetwork(contacts);
    var power := network.EvaluatePowerFlow(snapshot);
    SerialFlow(id, contacts, coils, snapshot);
    var contactStates := ReportContacts(contacts, snapshot);
    var coilStates, _ := EnergizeCoils(coils, power, vars);
    state := RungState(id, contactStates, coilStates);
  }
}
