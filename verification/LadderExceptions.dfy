/** Where the two meanings of a ladder part: SET and RESET coils, and contacts in parallel
    whose variable was not loaded before. */
module LadderExceptions {
  import opened HalValues
  import opened IlLang
  import opened IlLayout
  import opened IlLockstep
  import opened IlOperands
  import opened LadderAgreement
  import G = LadderGraph
  import C = LadderCycle
  import L = LadderLatching
  import E = LadderIl
  import M = Machine

  // ----- what no scan writes -----

  lemma OnlyStoreStores(s: IlStmt, r: nat, at: nat, t: nat, x: string)
    requires s != Store(x)
    ensures forall i :: 0 <= i < |StmtCode(s, r, at, t)| ==> !M.StoresTo(StmtCode(s, r, at, t)[i], x)
  {
  }

  lemma {:induction false} BodyStores(ss: seq<IlStmt>, names: seq<string>, labels: map<string, nat>, halt: nat,
                                      x: string)
    requires Store(x) !in ss
    ensures forall i :: 0 <= i < |BodyCode(ss, names, labels, halt)| ==>
            !M.StoresTo(BodyCode(ss, names, labels, halt)[i], x)
  {
    hide StmtCode; hide RegFor; hide TargetIn; hide M.StoresTo;
    if ss != [] {
      var front, s := ss[..|ss| - 1], ss[|ss| - 1];
      BodyStores(front, names, labels, halt, x);
      OnlyStoreStores(s, RegFor(names, s), Offset(front), TargetIn(labels, halt, s), x);
    }
  }

  /** Only an OUT coil becomes a store. */
  predicate DrivenBy(e: E.LdElement, x: string) { e == E.Coil(E.OutCoil, x) }

  lemma {:induction false} NetStores(net: seq<E.LdElement>, x: string)
    ensures Store(x) in E.NetStmts(net) <==> exists i :: 0 <= i < |net| && DrivenBy(net[i], x)
  {
    if net != [] {
      var front := net[..|net| - 1];
      NetStores(front, x);
      assert forall i :: 0 <= i < |front| ==> front[i] == net[i];
    }
  }

  lemma {:induction false} LadderStores(nets: seq<seq<E.LdElement>>, x: string)
    ensures Store(x) in E.IlOf(nets) <==>
            exists k, i :: 0 <= k < |nets| && 0 <= i < |nets[k]| && DrivenBy(nets[k][i], x)
  {
    hide DrivenBy; hide E.NetStmts;
    if nets != [] {
      var n := |nets| - 1;
      LadderStores(nets[..n], x);
      NetStores(nets[n], x);
      if k, i :| 0 <= k < |nets| && 0 <= i < |nets[k]| && DrivenBy(nets[k][i], x) {
        if k < n { assert DrivenBy(nets[..n][k][i], x); }
      }
      if k, i :| 0 <= k < n && 0 <= i < |nets[..n][k]| && DrivenBy(nets[..n][k][i], x) {
        assert DrivenBy(nets[k][i], x);
      }
    }
  }

  predicate Undriven(nets: seq<seq<E.LdElement>>, x: string) {
    forall k, i :: 0 <= k < |nets| && 0 <= i < |nets[k]| ==> !DrivenBy(nets[k][i], x)
  }

  /** A variable without an OUT coil, driven by SET and RESET coils only, is never written: over
      any run of the compiled ladder its signal stays what it was. */
  lemma LatchCoilsNeverWrite(nets: seq<seq<E.LdElement>>, x: string, vm: M.Vm, n: nat)
    requires Undriven(nets, x)
    ensures M.KeepsSignal(M.Run(ProgramCode(E.IlOf(nets)), M.Next(vm), n), vm.signals, x)
  {
    hide M.Step; hide M.Run; hide BodyCode; hide E.IlOf; hide VarsOf; hide LabelsOf; hide Offset;
    var ss := E.IlOf(nets);
    LadderStores(nets, x);
    BodyStores(ss, VarsOf(ss), LabelsOf(ss), Offset(ss), x);
    M.RunKeepsSignal(ProgramCode(ss), vm, x, n);
  }

  // ----- SET and RESET coils -----

  lemma {:induction false} NetworkOf(rs: seq<LadderRung>, k: nat)
    requires k < |rs|
    ensures |Networks(rs)| == |rs| && Networks(rs)[k] == Elements(rs[k])
    decreases |rs|
  {
    hide Elements;
    if k < |rs| - 1 {
      NetworkOf(rs[..|rs| - 1], k);
    } else if k > 0 {
      NetworkOf(rs[..|rs| - 1], 0);
    }
  }

  lemma {:induction false} NetworkCount(rs: seq<LadderRung>)
    ensures |Networks(rs)| == |rs|
  {
    hide Elements;
    if rs != [] { NetworkOf(rs, 0); }
  }

  /** Views with only SET and RESET coils on `x` come from a ladder without OUT coils on it. */
  lemma LatchedHasNoOut(rs: seq<LadderRung>, x: string)
    requires L.OnlyLatched(ViewsOf(rs), x)
    ensures Undriven(Networks(rs), x)
  {
    hide ViewOf; hide CoilsOf;
    var nets := Networks(rs);
    NetworkCount(rs);
    forall k, i | 0 <= k < |nets| && 0 <= i < |nets[k]|
      ensures !DrivenBy(nets[k][i], x)
    {
      NetworkOf(rs, k);
      var r, view := rs[k], ViewsOf(rs)[k];
      ViewCoils(r);
      assert view in ViewsOf(rs);
      NoOutInRung(r, x, i);
    }
  }

  lemma NoOutInRung(r: LadderRung, x: string, i: nat)
    requires L.LatchedIn(CoilsOf(r.coils), x) && i < |Elements(r)|
    ensures Elements(r)[i] != E.Coil(E.OutCoil, x)
  {
    hide CoilsOf; hide Elements;
    var net := Elements(r);
    if i < |r.contacts| {
      assert net[i] == ContactElement(r.contacts[i]);
    } else if i < Inputs(r) {
      assert net[|r.contacts| + (i - |r.contacts|)] == ParallelElement(r.parallels[i - |r.contacts|]);
    } else {
      var c := CoilsOf(r.coils)[i - Inputs(r)];
      assert net[Inputs(r) + (i - Inputs(r))] == CoilElement(r.coils[i - Inputs(r)]);
      assert c in CoilsOf(r.coils);
    }
  }

  predicate SameOn(x: string, store: map<string, bool>, signals: map<string, HalValue>) {
    M.ReadSignal(signals, x) == Bool(G.GetBool(store, x))
  }

  /** What the last powered coil asks for is there already. */
  predicate NothingToDo(last: Option<bool>, held: bool) { last.None? || last.value == held }

  /** A scan treats a variable with SET and RESET coils only as the evaluator does if and only
      if none of them is powered, or the last powered one asks for the value that is there. */
  lemma LatchExactly(rs: seq<LadderRung>, x: string, store: map<string, bool>, vm: M.Vm, n: nat)
    requires L.OnlyLatched(ViewsOf(rs), x) && SameOn(x, store, vm.signals)
    requires M.Run(Program(rs), M.Next(vm), n).Halted?
    ensures SameOn(x, C.StoreAfter(ViewsOf(rs), store), M.Run(Program(rs), M.Next(vm), n).vm.signals) <==>
            NothingToDo(L.LastPowered(ViewsOf(rs), store, x), G.GetBool(store, x))
  {
    hide M.Run; hide ProgramCode; hide E.IlOf; hide C.StoreAfter; hide L.OnlyLatched; hide L.LastPowered; hide ViewsOf;
    hide Networks; hide G.GetBool;
    LatchedHasNoOut(rs, x);
    LatchCoilsNeverWrite(Networks(rs), x, vm, n);
    L.CycleLatches(ViewsOf(rs), store, x);
  }

  lemma {:induction false} ScansKeepLatched(rs: seq<LadderRung>, x: string, vm: M.Vm, inputs: seq<map<string, bool>>,
                                            end: M.Vm)
    requires L.OnlyLatched(ViewsOf(rs), x) && FedScans(Program(rs), vm, inputs, end)
    requires forall i :: 0 <= i < |inputs| ==> x !in inputs[i]
    ensures M.ReadSignal(end.signals, x) == M.ReadSignal(vm.signals, x)
    decreases |inputs|
  {
    hide M.Run; hide ProgramCode; hide E.IlOf; hide L.OnlyLatched; hide ViewsOf; hide Networks;
    if inputs != [] {
      var front, input := inputs[..|inputs| - 1], inputs[|inputs| - 1];
      var mid: M.Vm :| FedScans(Program(rs), vm, front, mid) && ScansOnce(Program(rs), Feed(mid, input), end);
      ScansKeepLatched(rs, x, vm, front, mid);
      var n: nat :| M.Run(Program(rs), M.Next(Feed(mid, input)), n).Halted? &&
                    end == M.ResetIp(M.Run(Program(rs), M.Next(Feed(mid, input)), n).vm);
      LatchedHasNoOut(rs, x);
      LatchCoilsNeverWrite(Networks(rs), x, Feed(mid, input), n);
      FeedKeeps(mid, input, x);
    }
  }

  lemma FeedKeeps(vm: M.Vm, input: map<string, bool>, x: string)
    requires x !in input
    ensures M.ReadSignal(Feed(vm, input).signals, x) == M.ReadSignal(vm.signals, x)
  {
  }

  /** The same over any number of scans with any inputs to other variables: right if and only
      if the last coil powered in any of them, if there was one, asks for the first value. */
  lemma LatchedEverExactly(rs: seq<LadderRung>, x: string, store: map<string, bool>, vm: M.Vm,
                           inputs: seq<map<string, bool>>, end: M.Vm)
    requires L.OnlyLatched(ViewsOf(rs), x) && SameOn(x, store, vm.signals)
    requires FedScans(Program(rs), vm, inputs, end) && forall i :: 0 <= i < |inputs| ==> x !in inputs[i]
    ensures SameOn(x, L.AfterCycles(ViewsOf(rs), store, inputs), end.signals) <==>
            NothingToDo(L.LastPoweredEver(ViewsOf(rs), store, inputs, x), G.GetBool(store, x))
  {
    hide L.OnlyLatched; hide L.AfterCycles; hide L.LastPoweredEver; hide ViewsOf; hide FedScans; hide Program;
    hide G.GetBool; hide M.ReadSignal;
    ScansKeepLatched(rs, x, vm, inputs, end);
    L.LatchRemembers(ViewsOf(rs), store, inputs, x);
  }

  lemma {:induction false} OneByOne(net: seq<E.LdElement>)
    requires forall i :: 0 <= i < |net| ==> !net[i].EdgeContact?
    ensures |E.NetStmts(net)| == |net|
    ensures forall i :: 0 <= i < |net| ==> E.NetStmts(net)[i] == E.ElementStmts(net[i], E.IsFirst(net, i))[0]
  {
    hide E.ElementStmts; hide E.IsFirst;
    if net != [] {
      var n := |net| - 1;
      OneByOne(net[..n]);
      ElementIsOne(net[n], E.IsFirst(net, n));
      forall i | 0 <= i < n
        ensures E.IsFirst(net[..n], i) == E.IsFirst(net, i)
      {
        FirstAlike(net, n, i);
      }
    }
  }

  lemma ElementIsOne(e: E.LdElement, first: bool)
    requires !e.EdgeContact?
    ensures |E.ElementStmts(e, first)| == 1
  {
  }

  lemma FirstAlike(net: seq<E.LdElement>, n: nat, i: nat)
    requires i <= n <= |net|
    ensures E.IsFirst(net[..n], i) == E.IsFirst(net, i)
  {
    assert forall j :: 0 <= j < i ==> net[..n][j] == net[j];
  }

  lemma NoEdges(r: LadderRung)
    ensures forall i :: 0 <= i < |Elements(r)| ==> !Elements(r)[i].EdgeContact?
  {
    hide Elements;
    var net := Elements(r);
    forall i | 0 <= i < |net|
      ensures !net[i].EdgeContact?
    {
      WhichElement(r, i);
    }
  }

  lemma WhichElement(r: LadderRung, i: nat)
    requires i < |Elements(r)|
    ensures Elements(r)[i] ==
            if i < |r.contacts| then ContactElement(r.contacts[i])
            else if i < Inputs(r) then ParallelElement(r.parallels[i - |r.contacts|])
            else CoilElement(r.coils[i - Inputs(r)])
  {
    hide Elements;
    if |r.contacts| <= i < Inputs(r) {
      assert Elements(r)[|r.contacts| + (i - |r.contacts|)] == ParallelElement(r.parallels[i - |r.contacts|]);
    } else if i >= Inputs(r) {
      assert Elements(r)[Inputs(r) + (i - Inputs(r))] == CoilElement(r.coils[i - Inputs(r)]);
    }
  }

  lemma RungStmt(r: LadderRung, i: nat)
    requires i < |Elements(r)|
    ensures |E.NetStmts(Elements(r))| == |Elements(r)|
    ensures E.NetStmts(Elements(r))[i] == E.ElementStmts(Elements(r)[i], E.IsFirst(Elements(r), i))[0]
    ensures LadderStmt(E.NetStmts(Elements(r))[i])
  {
    hide Elements; hide E.NetStmts; hide E.IsFirst;
    NoEdges(r);
    OneByOne(Elements(r));
  }

  lemma {:induction false} AllLadder(rs: seq<LadderRung>)
    ensures forall s :: s in E.IlOf(Networks(rs)) ==> LadderStmt(s)
  {
    hide Elements; hide E.NetStmts; hide LadderStmt; hide E.ElementStmts;
    if rs != [] {
      var r := rs[|rs| - 1];
      AllLadder(rs[..|rs| - 1]);
      NextNetwork(rs);
      NoEdges(r);
      OneByOne(Elements(r));
      forall i | 0 <= i < |Elements(r)|
        ensures LadderStmt(E.NetStmts(Elements(r))[i])
      {
        RungStmt(r, i);
      }
    }
  }

  lemma LadderIsPlain(rs: seq<LadderRung>)
    requires |VarsOf(E.IlOf(Networks(rs)))| <= MAX_IL_VARS
    ensures PlainUpTo(E.IlOf(Networks(rs)), |E.IlOf(Networks(rs))|)
  {
    hide VarsOf; hide E.IlOf; hide Networks;
    var ss := E.IlOf(Networks(rs));
    AllLadder(rs);
    forall i | 0 <= i < |ss|
      ensures Plain(ss[i])
    {
      assert ss[i] in ss;
    }
  }

  /** The shortest ladder that goes wrong: with `a` true and `x` absent, a SET coil on `x`
      behind contact `a` leaves the signal false where the evaluator sets the variable. */
  lemma SetCoilFails(store: map<string, bool>, vm: M.Vm)
    requires G.GetBool(store, "a") && "x" !in store
    requires vm.ip == 0 && M.ReadSignal(vm.signals, "a") == Bool(true) && "x" !in vm.signals
    ensures var rs := [LadderRung([G.No("a")], [], [RungCoil(E.SetCoil, "x")])];
            var out := M.Run(Program(rs), M.Next(vm), 5);
            && E.IlOf(Networks(rs)) == [Load("a"), Set("x")]
            && ViewsOf(rs) == [C.SerialView("", [G.No("a")], [C.Coil("x", C.Set)])]
            && out.Halted? && M.ReadSignal(out.vm.signals, "x") == Bool(false)
            && G.GetBool(C.StoreAfter(ViewsOf(rs), store), "x")
  {
    hide M.Run; hide ProgramCode; hide C.StoreAfter; hide C.SerialView; hide G.GetBool; hide E.IlOf;
    hide Networks; hide ViewsOf; hide L.OnlyLatched; hide L.LastPowered; hide VarsOf; hide PlainUpTo;
    var r := LadderRung([G.No("a")], [], [RungCoil(E.SetCoil, "x")]);
    var rs := [r];
    SetRungText(r);
    SetRungView(r);
    SetRungSize();
    LadderIsPlain(rs);
    PlainHalts(E.IlOf(Networks(rs)), vm);
    assert SameOn("x", store, vm.signals) by { AbsentAlike(store, vm.signals, "x"); }
    SetRungPowered(r, store);
    LatchExactly(rs, "x", store, vm, 5);
    LatchedHasNoOut(rs, "x");
    LatchCoilsNeverWrite(Networks(rs), "x", vm, 5);
    L.CycleLatches(ViewsOf(rs), store, "x");
    AbsentAlike(store, vm.signals, "x");
  }

  lemma AbsentAlike(store: map<string, bool>, signals: map<string, HalValue>, x: string)
    requires x !in store && x !in signals
    ensures M.ReadSignal(signals, x) == Bool(G.GetBool(store, x)) == Bool(false)
  {
  }

  lemma SetRungText(r: LadderRung)
    requires r == LadderRung([G.No("a")], [], [RungCoil(E.SetCoil, "x")])
    ensures E.IlOf(Networks([r])) == [Load("a"), Set("x")]
  {
    var net := Elements(r);
    assert net == [E.Contact(true, "a"), E.Coil(E.SetCoil, "x")];
    assert E.StartsRung(net[0]) && E.IsFirst(net, 0) && !E.IsFirst(net, 1);
    RungStmt(r, 0);
    RungStmt(r, 1);
    assert E.NetStmts(net) == [Load("a"), Set("x")];
    hide E.NetStmts; hide Elements;
    assert [r][..0] == [] && Networks([]) == [];
    NextNetwork([r]);
  }

  lemma SetRungView(r: LadderRung)
    requires r == LadderRung([G.No("a")], [], [RungCoil(E.SetCoil, "x")])
    ensures ViewsOf([r]) == [C.SerialView("", [G.No("a")], [C.Coil("x", C.Set)])]
  {
    hide C.SerialView;
    assert CoilsOf(r.coils) == [C.Coil("x", C.Set)];
  }

  lemma SetRungSize()
    ensures var ss := [Load("a"), Set("x")];
            |VarsOf(ss)| <= MAX_IL_VARS && Offset(ss) == 4
  {
    var ss := [Load("a"), Set("x")];
    assert ss[..1] == [Load("a")] && ss[..1][..0] == [];
  }

  lemma SetRungPowered(r: LadderRung, store: map<string, bool>)
    requires r == LadderRung([G.No("a")], [], [RungCoil(E.SetCoil, "x")]) && G.GetBool(store, "a")
    ensures L.OnlyLatched(ViewsOf([r]), "x") && L.LastPowered(ViewsOf([r]), store, "x") == Some(true)
  {
    hide C.Flow; hide C.SerialView; hide ViewsOf;
    var view, views := ViewOf(r), ViewsOf([r]);
    ViewCoils(r);
    assert CoilsOf(r.coils) == [C.Coil("x", C.Set)];
    assert views == [view] && views[..0] == [];
    PowerIsFlow(r, store);
    assert C.StoreAfter([], store) == store;
    assert G.Closed(r.contacts[0], store) && C.AllContactsClosed(r.contacts, store);
    assert C.Flow(view, store);
  }

  // ----- parallel contacts whose variable was not loaded -----

  /** Some statement of the rung writes the variable's register. */
  predicate Fetches(r: LadderRung, v: string) {
    || (exists i :: 0 <= i < |r.contacts| && r.contacts[i].v == v)
    || (exists i :: 0 <= i < |r.coils| && !r.coils[i].kind.OutCoil? && r.coils[i].v == v)
  }

  lemma RungFetches(r: LadderRung, v: string)
    requires !Fetches(r, v)
    ensures Unwritten(E.NetStmts(Elements(r)), |E.NetStmts(Elements(r))|, v)
  {
    hide Elements; hide E.NetStmts; hide E.IsFirst; hide LadderStmt;
    var net, ss := Elements(r), E.NetStmts(Elements(r));
    NoEdges(r);
    OneByOne(net);
    forall i | 0 <= i < |ss|
      ensures Loads(ss[i]) || Latches(ss[i]) ==> ss[i].v != v
    {
      WhichElement(r, i);
    }
  }

  lemma {:induction false} RungsFetch(rs: seq<LadderRung>, v: string)
    requires forall r :: r in rs ==> !Fetches(r, v)
    ensures Unwritten(E.IlOf(Networks(rs)), |E.IlOf(Networks(rs))|, v)
  {
    hide Elements; hide E.NetStmts; hide Fetches;
    if rs != [] {
      var front, r := rs[..|rs| - 1], rs[|rs| - 1];
      assert r in rs && forall q :: q in front ==> q in rs;
      RungsFetch(front, v);
      NextNetwork(rs);
      RungFetches(r, v);
    }
  }

  lemma {:induction false} NetworksAppend(a: seq<LadderRung>, b: seq<LadderRung>)
    ensures E.IlOf(Networks(a + b)) == E.IlOf(Networks(a)) + E.IlOf(Networks(b))
  {
    hide Elements; hide E.NetStmts; hide E.IlOf; hide Networks;
    if b == [] {
      NoNetworks();
      assert a + b == a;
    } else {
      NetworksAppend(a, b[..|b| - 1]);
      assert (a + b)[..|a + b| - 1] == a + b[..|b| - 1];
      NextNetwork(a + b);
      NextNetwork(b);
    }
  }

  lemma NoNetworks()
    ensures E.IlOf(Networks([])) == []
  {
  }

  lemma {:induction false} UnwrittenIsNotCurrent(ss: seq<IlStmt>, k: nat, v: string)
    requires k <= |ss| && Unwritten(ss, k, v)
    ensures !Current(ss, k, v)
  {
    if k > 0 { UnwrittenIsNotCurrent(ss, k - 1, v); }
  }

  function LastAt(coils: seq<RungCoil>, c: RungCoil): (i: nat)
    requires c in coils
    ensures i < |coils| && coils[i] == c && forall k :: i < k < |coils| ==> coils[k] != c
  {
    if coils[|coils| - 1] == c then |coils| - 1 else LastAt(coils[..|coils| - 1], c)
  }

  /** A rung's statements behind its series contacts. */
  lemma OwnStmts(r: LadderRung, j: nat, i: nat)
    requires r.contacts != [] && j < |r.parallels| && i < |r.coils| && r.coils[i].kind.OutCoil?
    requires forall k :: i < k < |r.coils| ==> r.coils[k] != r.coils[i]
    ensures var own, c := E.NetStmts(Elements(r)), r.parallels[j];
            && |own| == Inputs(r) + |r.coils|
            && own[|r.contacts| + j] == (if c.No? then Or(c.v) else OrNot(c.v))
            && own[Inputs(r) + i] == Store(r.coils[i].v)
            && (forall k :: |r.contacts| <= k < |own| ==> KeepsNumber(own[k]))
            && (forall k :: Inputs(r) + i < k < |own| ==> own[k] != Store(r.coils[i].v))
  {
    hide Elements; hide E.NetStmts; hide E.IsFirst;
    var net, own := Elements(r), E.NetStmts(Elements(r));
    NoEdges(r);
    OneByOne(net);
    forall k | 0 <= k < |own|
      ensures k >= |r.contacts| ==> KeepsNumber(own[k])
      ensures k > Inputs(r) + i ==> own[k] != Store(r.coils[i].v)
    {
      WhichElement(r, k);
    }
    WhichElement(r, |r.contacts| + j);
    WhichElement(r, Inputs(r) + i);
  }

  lemma AroundRung(front: seq<LadderRung>, r: LadderRung, back: seq<LadderRung>)
    ensures E.IlOf(Networks(front + [r] + back)) ==
            E.IlOf(Networks(front)) + E.NetStmts(Elements(r)) + E.IlOf(Networks(back))
  {
    hide Elements; hide E.NetStmts; hide E.IlOf; hide Networks;
    NetworksAppend(front + [r], back);
    NetworksAppend(front, [r]);
    NextNetwork([r]);
    assert [r][..0] == [];
    NoNetworks();
  }

  /** A contact in parallel whose variable nothing before it fetches: from the first scan of a
      new machine on, whatever rungs come before, every OUT coil of the rung that no later rung
      drives ends up with a number, which is no value the evaluator gives. Such a ladder does
      not fit. */
  lemma UnloadedParallelStoresNumber(front: seq<LadderRung>, r: LadderRung, back: seq<LadderRung>, j: nat, x: string,
                                     vm: M.Vm)
    requires var rs := front + [r] + back;
             |VarsOf(E.IlOf(Networks(rs)))| <= MAX_IL_VARS && vm.ip == 0
    requires forall i :: 0 <= i < MAX_IL_VARS ==> vm.regs[i].Int?
    requires r.contacts != [] && j < |r.parallels|
    requires forall q :: q in front ==> !Fetches(q, r.parallels[j].v)
    requires forall i :: 0 <= i < |r.contacts| ==> r.contacts[i].v != r.parallels[j].v
    requires RungCoil(E.OutCoil, x) in r.coils
    requires Store(x) !in E.IlOf(Networks(back))
    ensures var rs := front + [r] + back;
            && !Fits(rs)
            && (exists n: nat :: M.Run(Program(rs), M.Next(vm), n).Halted? &&
                                 M.ReadSignal(M.Run(Program(rs), M.Next(vm), n).vm.signals, x).Int?)
  {
    hide Elements; hide E.NetStmts; hide E.IlOf; hide Networks; hide VarsOf; hide M.Run; hide ProgramCode; hide Current;
    hide M.ReadSignal; hide Offset; hide Fetches; hide PlainUpTo; hide KeepsNumber; hide Unwritten; hide Compiles;
    var rs := front + [r] + back;
    var ss, at, v, i := E.IlOf(Networks(rs)), |E.IlOf(Networks(front))|, r.parallels[j].v,
      LastAt(r.coils, RungCoil(E.OutCoil, x));
    AroundRung(front, r, back);
    OwnStmts(r, j, i);
    LadderIsPlain(rs);
    RungsFetch(front, v);
    UnwrittenBefore(front, r, back, j);
    var own, p, q := E.NetStmts(Elements(r)), at + |r.contacts| + j, at + Inputs(r) + i;
    assert ss[p] == own[p - at] && ss[q] == own[q - at];
    forall k | p < k < |ss|
      ensures k < q ==> KeepsNumber(ss[k])
      ensures k > q ==> ss[k] != ss[q]
    {
      if k < at + |own| { assert ss[k] == own[k - at]; } else { assert ss[k] in E.IlOf(Networks(back)); }
    }
    UnwrittenIsNotCurrent(ss, p, v);
    NotCompiled(ss, p);
    UnloadedOrStoresNumber(ss, vm, p, q);
    assert M.Run(Program(rs), M.Next(vm), Offset(ss) + 1).Halted?;
  }

  lemma UnwrittenBefore(front: seq<LadderRung>, r: LadderRung, back: seq<LadderRung>, j: nat)
    requires r.contacts != [] && j < |r.parallels|
    requires var ss := E.IlOf(Networks(front)); Unwritten(ss, |ss|, r.parallels[j].v)
    requires forall i :: 0 <= i < |r.contacts| ==> r.contacts[i].v != r.parallels[j].v
    ensures var ss, at := E.IlOf(Networks(front + [r] + back)), |E.IlOf(Networks(front))|;
            at + |r.contacts| + j <= |ss| && Unwritten(ss, at + |r.contacts| + j, r.parallels[j].v)
  {
    hide Elements; hide E.NetStmts; hide E.IlOf; hide Networks; hide E.IsFirst; hide LadderStmt;
    var ss, at, v := E.IlOf(Networks(front + [r] + back)), |E.IlOf(Networks(front))|, r.parallels[j].v;
    var own := E.NetStmts(Elements(r));
    AroundRung(front, r, back);
    NoEdges(r);
    OneByOne(Elements(r));
    forall k | 0 <= k < |r.contacts| + j && (Loads(own[k]) || Latches(own[k]))
      ensures own[k].v != v
    {
      WhichElement(r, k);
    }
    forall k | 0 <= k < at + |r.contacts| + j && (Loads(ss[k]) || Latches(ss[k]))
      ensures ss[k].v != v
    {
      if k >= at { assert ss[k] == own[k - at]; }
    }
  }
}
