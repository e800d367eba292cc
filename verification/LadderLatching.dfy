/** What scan cycles keep: replaying a result, one rung alone, and latched variables. */
module LadderLatching {
  import opened HalValues
  import opened LadderGraph
  import opened LadderPass
  import opened LadderCycle

  /** Replaying a cycle's result on the store before it gives the store after it. */
  lemma {:induction false} ReplayReproduces(rs: seq<RungView>, store: map<string, bool>)
    ensures ApplyRungs(store, StatesOf(rs, store)) == StoreAfter(rs, store)
  {
    hide CoilsAfter; hide ApplyCoils;
    if rs != [] {
      var front := rs[..|rs| - 1];
      ReplayReproduces(front, store);
      var states := StatesOf(rs, store);
      assert states[..|states| - 1] == StatesOf(front, store);
    }
  }

  /** A cycle replayed by `Apply` on a store with the old values. */
  method ReplayCycle(rungs: seq<RungDef>, vars: VarStore, copy: VarStore)
    requires forall r :: r in rungs ==> Usable(r.network)
    requires vars != copy && vars.values == copy.values
    modifies vars, copy, set r | r in rungs :: r.network
    ensures vars.values == copy.values
  {
    hide StatesOf; hide StoreAfter; hide ApplyRungs; hide Usable; hide PoweredCoils;
    ghost var before := vars.values;
    var result := EvaluateCycle(rungs, vars);
    copy.Apply(result);
    ReplayReproduces(Views(rungs), before);
  }

  /** A rung evaluated alone over the store's snapshot is the rung of a one-rung cycle. */
  lemma RungAloneIsOneRungCycle(id: string, contacts: seq<Contact>, coils: seq<Coil>, store: map<string, bool>)
    ensures StatesOf([SerialView(id, contacts, coils)], store) ==
            [RungState(id, ContactStates(contacts, store),
                       CoilStates(coils, AllContactsClosed(contacts, store), store))]
  {
    hide ContactStates; hide CoilStates; hide AllContactsClosed; hide Flow; hide PassOrder;
    var r := SerialView(id, contacts, coils);
    assert [r][..0] == [];
    assert ContactsOf(SerialEdges(contacts)) == contacts;
    SerialFlow(id, contacts, coils, store);
  }

  // ----- latching -----

  /** Only SET and RESET coils write `v`. */
  predicate OnlyLatched(rs: seq<RungView>, v: string) {
    forall r :: r in rs ==> LatchedIn(r.coils, v)
  }

  predicate LatchedIn(coils: seq<Coil>, v: string) {
    forall c :: c in coils && c.v == v ==> c.kind.Set? || c.kind.Reset?
  }

  /** The last coil on `v`: whether it sets. */
  function LastCoil(coils: seq<Coil>, v: string): Option<bool> {
    if coils == [] then None
    else if coils[|coils| - 1].v == v then Some(coils[|coils| - 1].kind.Set?)
    else LastCoil(coils[..|coils| - 1], v)
  }

  /** The last powered coil on `v` in rung order: whether it sets. */
  ghost function LastPowered(rs: seq<RungView>, store: map<string, bool>, v: string): Option<bool> {
    if rs == [] then None
    else
      var r, front := rs[|rs| - 1], rs[..|rs| - 1];
      if Flow(r, StoreAfter(front, store)) && LastCoil(r.coils, v).Some? then LastCoil(r.coils, v)
      else LastPowered(front, store, v)
  }

  lemma {:induction false} LatchedCoils(coils: seq<Coil>, power: bool, read: map<string, bool>, store: map<string,
                                        bool>, v: string)
    requires LatchedIn(coils, v) && GetBool(read, v) == GetBool(store, v)
    ensures GetBool(ApplyCoils(store, CoilStates(coils, power, read)), v) ==
            if power && LastCoil(coils, v).Some? then LastCoil(coils, v).value else GetBool(store, v)
  {
    hide GetBool;
    if coils != [] {
      var front, c, n := coils[..|coils| - 1], coils[|coils| - 1], |coils| - 1;
      assert forall x :: x in front ==> x in coils;
      LatchedCoils(front, power, read, store, v);
      var states := CoilStates(coils, power, read);
      assert states[..n] == CoilStates(front, power, read);
      hide CoilStates; hide Energized;
      ApplyLast(store, states);
      assert c in coils;
      var before := ApplyCoils(store, states[..n]);
      SetGet(before, c.v, states[n].energized, v);
      LatchedState(c, power, read);
    }
  }

  lemma ApplyLast(store: map<string, bool>, states: seq<CoilState>)
    requires states != []
    ensures var n := |states| - 1;
            ApplyCoils(store, states) == ApplyCoils(store, states[..n])[states[n].id := states[n].energized]
  {
  }

  lemma SetGet(store: map<string, bool>, x: string, b: bool, v: string)
    ensures GetBool(store[x := b], v) == if x == v then b else GetBool(store, v)
  {
  }

  lemma LatchedState(c: Coil, power: bool, read: map<string, bool>)
    ensures c.kind.Set? || c.kind.Reset? ==>
              Energized(c.kind, power, GetBool(read, c.v)) == if power then c.kind.Set? else GetBool(read, c.v)
  {
  }

  /** After a cycle a latched variable is what its last powered coil makes it, or what it was. */
  lemma {:induction false} CycleLatches(rs: seq<RungView>, store: map<string, bool>, v: string)
    requires OnlyLatched(rs, v)
    ensures GetBool(StoreAfter(rs, store), v) ==
            match LastPowered(rs, store, v) case Some(b) => b case None => GetBool(store, v)
  {
    hide GetBool; hide Flow; hide CoilStates; hide ApplyCoils; hide LatchedIn;
    if rs != [] {
      var front, r := rs[..|rs| - 1], rs[|rs| - 1];
      assert r in rs;
      assert forall x :: x in front ==> x in rs;
      CycleLatches(front, store, v);
      var before := StoreAfter(front, store);
      LatchedCoils(r.coils, Flow(r, before), before, before, v);
    }
  }

  // ----- the last coil on a variable -----

  /** A contact passes power when its variable is true, a normally closed one when it is not;
      a variable that was never written is false. */
  lemma ContactsRead(v: string, store: map<string, bool>)
    ensures Closed(No(v), store) <==> v in store && store[v]
    ensures Closed(Nc(v), store) <==> !(v in store && store[v])
  {
  }

  /** What the last coil of a rung on its variable leaves there: an OUT coil the power, a
      negated one the opposite, SET and RESET their value when powered. */
  lemma {:induction false} LastCoilDecides(coils: seq<Coil>, i: nat, power: bool, read: map<string, bool>,
                                           store: map<string, bool>)
    requires i < |coils| && forall k :: i < k < |coils| ==> coils[k].v != coils[i].v
    ensures var c := coils[i];
            GetBool(ApplyCoils(store, CoilStates(coils, power, read)), c.v) ==
            match c.kind
            case Out => power
            case Negated => !power
            case Set => power || GetBool(read, c.v)
            case Reset => !power && GetBool(read, c.v)
    decreases |coils|
  {
    hide GetBool; hide Energized; hide ApplyCoils;
    var n := |coils| - 1;
    var front, states := coils[..n], CoilStates(coils, power, read);
    assert states[..n] == CoilStates(front, power, read);
    hide CoilStates;
    ApplyLast(store, states);
    SetGet(ApplyCoils(store, states[..n]), coils[n].v, states[n].energized, coils[i].v);
    if i < n { LastCoilDecides(front, i, power, read, store); } else { KindsOfCoils(power, GetBool(read, coils[i].v)); }
  }

  lemma KindsOfCoils(power: bool, held: bool)
    ensures Energized(Out, power, held) == power && Energized(Negated, power, held) == !power
    ensures Energized(Set, power, held) == (power || held) && Energized(Reset, power, held) == (!power && held)
  {
  }

  /** In a cycle the last rung with a coil on a variable decides it, by its power and the
      variable's value when it is evaluated. */
  lemma {:induction false} LastRungDecides(rs: seq<RungView>, k: nat, i: nat, store: map<string, bool>)
    requires k < |rs| && i < |rs[k].coils|
    requires forall j :: i < j < |rs[k].coils| ==> rs[k].coils[j].v != rs[k].coils[i].v
    requires forall m, j :: k < m < |rs| && 0 <= j < |rs[m].coils| ==> rs[m].coils[j].v != rs[k].coils[i].v
    ensures var c, before := rs[k].coils[i], StoreAfter(rs[..k], store);
            var power := Flow(rs[k], before);
            GetBool(StoreAfter(rs, store), c.v) ==
            match c.kind
            case Out => power
            case Negated => !power
            case Set => power || GetBool(before, c.v)
            case Reset => !power && GetBool(before, c.v)
    decreases |rs|
  {
    hide GetBool; hide Flow; hide CoilStates; hide ApplyCoils;
    var n := |rs| - 1;
    var before := StoreAfter(rs[..n], store);
    if k == n {
      LastCoilDecides(rs[k].coils, i, Flow(rs[k], before), before, before);
    } else {
      var front := rs[..n];
      assert front[..k] == rs[..k] && front[k] == rs[k];
      forall m, j | k < m < |front| && 0 <= j < |front[m].coils|
        ensures front[m].coils[j].v != front[k].coils[i].v
      {
        assert front[m] == rs[m];
      }
      LastRungDecides(front, k, i, store);
      OtherCoils(rs[n].coils, Flow(rs[n], before), before, before, rs[k].coils[i].v);
    }
  }

  lemma {:induction false} OtherCoils(coils: seq<Coil>, power: bool, read: map<string, bool>, store: map<string, bool>,
                                      v: string)
    requires forall j :: 0 <= j < |coils| ==> coils[j].v != v
    ensures GetBool(ApplyCoils(store, CoilStates(coils, power, read)), v) == GetBool(store, v)
  {
    hide GetBool;
    if coils != [] {
      var n := |coils| - 1;
      var states := CoilStates(coils, power, read);
      OtherCoils(coils[..n], power, read, store, v);
      assert states[..n] == CoilStates(coils[..n], power, read);
      hide CoilStates;
      ApplyLast(store, states);
      SetGet(ApplyCoils(store, states[..n]), coils[n].v, states[n].energized, v);
    }
  }

  /** Cycle after cycle, with inputs written between them. */
  ghost function AfterCycles(rs: seq<RungView>, store: map<string, bool>, inputs: seq<map<string, bool>>): map<string,
    bool> {
    if inputs == [] then store
    else StoreAfter(rs, AfterCycles(rs, store, inputs[..|inputs| - 1]) + inputs[|inputs| - 1])
  }

  ghost function LastPoweredEver(rs: seq<RungView>, store: map<string, bool>, inputs: seq<map<string, bool>>,
                                 v: string): Option<bool> {
    if inputs == [] then None
    else
      var front := inputs[..|inputs| - 1];
      var last := LastPowered(rs, AfterCycles(rs, store, front) + inputs[|inputs| - 1], v);
      if last.Some? then last else LastPoweredEver(rs, store, front, v)
  }

  /** Over any number of cycles and any inputs: a latched variable remembers its last
      powered coil, and its first value while there was none. */
  lemma {:induction false} LatchRemembers(rs: seq<RungView>, store: map<string, bool>, inputs: seq<map<string, bool>>,
                                          v: string)
    requires OnlyLatched(rs, v)
    requires forall i :: 0 <= i < |inputs| ==> v !in inputs[i]
    ensures GetBool(AfterCycles(rs, store, inputs), v) ==
            match LastPoweredEver(rs, store, inputs, v) case Some(b) => b case None => GetBool(store, v)
  {
    hide OnlyLatched; hide StoreAfter; hide LastPowered;
    if inputs != [] {
      var front := inputs[..|inputs| - 1];
      LatchRemembers(rs, store, front, v);
      CycleLatches(rs, AfterCycles(rs, store, front) + inputs[|inputs| - 1], v);
    }
  }
}
