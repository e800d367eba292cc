/** The two meanings of a ladder program: printed as IL, compiled and run on the register
    machine, it does to the signals what the rung evaluator does to its store. */
module LadderAgreement {
  import opened HalValues
  import opened IlLang
  import opened IlLayout
  import opened IlLockstep
  import G = LadderGraph
  import LadderNetwork
  import LadderPass
  import C = LadderCycle
  import L = LadderLatching
  import P = LadderParallel
  import E = LadderIl
  import R = TextRoundTrip
  import IlCodegen
  import M = Machine

  datatype RungCoil = RungCoil(kind: E.CoilKind, v: string)

  /** A rung with contacts in series, then contacts in parallel to all of them, then OUT, SET
      and RESET coils. */
  datatype LadderRung = LadderRung(contacts: seq<G.Contact>, parallels: seq<G.Contact>, coils: seq<RungCoil>)

  /** The variables with a SET or RESET coil. */
  function Latched(rs: seq<LadderRung>): set<string> {
    set r, c | r in rs && c in r.coils && !c.kind.OutCoil? :: c.v
  }

  /** There is a series contact, no contact reads a variable of `off`, and every SET and RESET
      coil is on one. */
  predicate RungApart(r: LadderRung, off: set<string>) {
    && r.contacts != []
    && (forall i :: 0 <= i < |r.contacts| ==> r.contacts[i].v !in off)
    && (forall i :: 0 <= i < |r.parallels| ==> r.parallels[i].v !in off)
    && (forall i :: 0 <= i < |r.coils| ==> r.coils[i].kind.OutCoil? || r.coils[i].v in off)
  }

  predicate Apart(rs: seq<LadderRung>, off: set<string>) { forall r :: r in rs ==> RungApart(r, off) }

  function Inputs(r: LadderRung): nat { |r.contacts| + |r.parallels| }

  // ----- the rung as ladder text elements and as an evaluator rung -----

  function ContactElement(c: G.Contact): E.LdElement { E.Contact(c.No?, c.v) }

  function ParallelElement(c: G.Contact): E.LdElement { E.ParallelContact(c.No?, c.v) }

  function CoilElement(c: RungCoil): E.LdElement { E.Coil(c.kind, c.v) }

  function Elements(r: LadderRung): (net: seq<E.LdElement>)
    ensures |net| == Inputs(r) + |r.coils|
    ensures forall i :: 0 <= i < |r.contacts| ==> net[i] == ContactElement(r.contacts[i])
    ensures forall i :: 0 <= i < |r.parallels| ==> net[|r.contacts| + i] == ParallelElement(r.parallels[i])
    ensures forall i :: 0 <= i < |r.coils| ==> net[Inputs(r) + i] == CoilElement(r.coils[i])
  {
    seq(|r.contacts|, i requires 0 <= i < |r.contacts| => ContactElement(r.contacts[i])) +
    seq(|r.parallels|, i requires 0 <= i < |r.parallels| => ParallelElement(r.parallels[i])) +
    seq(|r.coils|, i requires 0 <= i < |r.coils| => CoilElement(r.coils[i]))
  }

  function Networks(rs: seq<LadderRung>): seq<seq<E.LdElement>> {
    if rs == [] then [] else Networks(rs[..|rs| - 1]) + [Elements(rs[|rs| - 1])]
  }

  function KindOf(k: E.CoilKind): C.CoilKind {
    match k
    case OutCoil => C.Out case SetCoil => C.Set case ResetCoil => C.Reset
  }

  function CoilsOf(coils: seq<RungCoil>): (r: seq<C.Coil>)
    ensures |r| == |coils| && forall i :: 0 <= i < |coils| ==> r[i] == C.Coil(coils[i].v, KindOf(coils[i].kind))
  {
    if coils == [] then []
    else CoilsOf(coils[..|coils| - 1]) + [C.Coil(coils[|coils| - 1].v, KindOf(coils[|coils| - 1].kind))]
  }

  /** The series contacts are one branch, every parallel contact another. */
  function Branches(r: LadderRung): (b: seq<seq<G.Contact>>)
    ensures |b| == |r.parallels| + 1 && b[0] == r.contacts
    ensures forall i :: 0 <= i < |r.parallels| ==> b[i + 1] == [r.parallels[i]]
  {
    [r.contacts] + seq(|r.parallels|, i requires 0 <= i < |r.parallels| => [r.parallels[i]])
  }

  ghost function ViewOf(r: LadderRung): C.RungView {
    if r.parallels == [] then C.SerialView("", r.contacts, CoilsOf(r.coils))
    else P.ParallelView("", Branches(r), CoilsOf(r.coils))
  }

  ghost function ViewsOf(rs: seq<LadderRung>): (r: seq<C.RungView>)
    ensures |r| == |rs| && forall i :: 0 <= i < |rs| ==> r[i] == ViewOf(rs[i])
  {
    if rs == [] then [] else ViewsOf(rs[..|rs| - 1]) + [ViewOf(rs[|rs| - 1])]
  }

  method BuildRung(r: LadderRung) returns (rung: C.RungDef)
    ensures fresh(rung.network) && C.Usable(rung.network) && C.View(rung) == ViewOf(r)
  {
    hide C.SerialEdges; hide CoilsOf; hide LadderPass.PassOrder; hide LadderNetwork.Orderable; hide P.ParallelEdges;
    hide P.Base; hide Branches;
    var network;
    if r.parallels == [] {
      network := C.BuildSerialNetwork(r.contacts);
      C.SerialWithin(r.contacts);
    } else {
      network := P.BuildParallelNetwork(Branches(r));
      P.ParallelGraph(Branches(r));
    }
    rung := C.RungDef("", network, CoilsOf(r.coils));
  }

  /** The evaluator's rungs for a program: a series network built for each. */
  method BuildRungs(rs: seq<LadderRung>) returns (rungs: seq<C.RungDef>)
    ensures forall r :: r in rungs ==> fresh(r.network) && C.Usable(r.network)
    ensures C.Views(rungs) == ViewsOf(rs)
  {
    hide C.Usable; hide ViewOf; hide C.View;
    rungs := [];
    for i := 0 to |rs|
      invariant |rungs| == i
      invariant forall j :: 0 <= j < i ==> fresh(rungs[j].network) && C.Usable(rungs[j].network)
      invariant forall j :: 0 <= j < i ==> C.View(rungs[j]) == ViewOf(rs[j])
    {
      var rung := BuildRung(rs[i]);
      rungs := rungs + [rung];
    }
  }

  // ----- statements one after another -----

  predicate LadderStmt(s: IlStmt) { Loads(s) || s.Or? || s.OrNot? || s.Store? || Latches(s) }

  function Effect(s: IlStmt, cr: HalValue, signals: map<string, HalValue>): (HalValue, map<string, HalValue>) {
    (match Meant(s, cr, signals) case Some(x) => x case None => cr, Stored(s, cr, signals))
  }

  function Effects(ss: seq<IlStmt>, cr: HalValue, signals: map<string, HalValue>): (HalValue, map<string, HalValue>) {
    if ss == [] then (cr, signals)
    else
      var before := Effects(ss[..|ss| - 1], cr, signals);
      Effect(ss[|ss| - 1], before.0, before.1)
  }

  lemma {:induction false} EffectsAppend(a: seq<IlStmt>, b: seq<IlStmt>, cr: HalValue, signals: map<string, HalValue>)
    ensures var mid := Effects(a, cr, signals);
            Effects(a + b, cr, signals) == Effects(b, mid.0, mid.1)
  {
    hide Effect;
    if b == [] {
      assert a + b == a;
    } else {
      EffectsAppend(a, b[..|b| - 1], cr, signals);
      assert (a + b)[..|a + b| - 1] == a + b[..|b| - 1];
    }
  }

  lemma {:induction false} IlRunSplit(ss: seq<IlStmt>, c: IlOut, j: nat, k: nat)
    ensures IlRun(ss, c, j + k) == IlRun(ss, IlRun(ss, c, j), k)
    decreases j
  {
    hide IlStep;
    if j > 0 && c.Running? { IlRunSplit(ss, IlStep(ss, c.st), j - 1, k); }
  }

  /** Straight-line code runs through and ends with the effects of its statements. */
  lemma {:induction false} StraightIl(ss: seq<IlStmt>, cr: HalValue, signals: map<string, HalValue>, k: nat)
    requires k <= |ss| && forall s :: s in ss ==> LadderStmt(s)
    ensures var end := Effects(ss[..k], cr, signals);
            IlRun(ss, Running(IlState(0, cr, signals)), k) == Running(IlState(k, end.0, end.1))
  {
    hide Effect;
    if k == 0 {
      assert ss[..0] == [];
    } else {
      StraightIl(ss, cr, signals, k - 1);
      IlRunSplit(ss, Running(IlState(0, cr, signals)), k - 1, 1);
      assert ss[..k][..k - 1] == ss[..k - 1];
      assert LadderStmt(ss[k - 1]);
      var before := Effects(ss[..k - 1], cr, signals);
      OneStep(ss, IlState(k - 1, before.0, before.1));
    }
  }

  lemma OneStep(ss: seq<IlStmt>, st: IlState)
    requires st.pc < |ss| && LadderStmt(ss[st.pc])
    ensures var end := Effect(ss[st.pc], st.cr, st.signals);
            IlRun(ss, Running(st), 1) == Running(IlState(st.pc + 1, end.0, end.1))
  {
    hide Bitwise; hide BitNot;
    assert IlRun(ss, IlStep(ss, st), 0) == IlStep(ss, st);
  }

  // ----- one rung -----

  /** The store and the signals hold the same Booleans, `off` left aside. */
  ghost predicate Agree(off: set<string>, store: map<string, bool>, signals: map<string, HalValue>) {
    forall x :: x !in off ==> M.ReadSignal(signals, x) == Bool(G.GetBool(store, x))
  }

  lemma ContactEffect(off: set<string>, c: G.Contact, first: bool, store: map<string, bool>, cr: HalValue,
                      signals: map<string, HalValue>)
    requires Agree(off, store, signals) && c.v !in off && (first || cr.Bool?)
    ensures E.ElementStmts(ContactElement(c), first) == [E.ElementStmts(ContactElement(c), first)[0]]
    ensures Effects(E.ElementStmts(ContactElement(c), first), cr, signals) ==
            (Bool((first || cr.b) && G.Closed(c, store)), signals)
    ensures LadderStmt(E.ElementStmts(ContactElement(c), first)[0])
  {
    var ss := E.ElementStmts(ContactElement(c), first);
    assert ss[..0] == [];
    assert Effects(ss[..0], cr, signals) == (cr, signals);
    assert M.ReadSignal(signals, c.v) == Bool(G.GetBool(store, c.v));
    assert Effects(ss, cr, signals) == Effect(ss[0], cr, signals);
  }

  lemma {:induction false} ContactsEffect(off: set<string>, r: LadderRung, k: nat, store: map<string, bool>,
                                          cr: HalValue, signals: map<string, HalValue>)
    requires Agree(off, store, signals) && RungApart(r, off) && 0 < k <= |r.contacts|
    ensures Effects(E.NetStmts(Elements(r)[..k]), cr, signals) ==
            (Bool(C.AllContactsClosed(r.contacts[..k], store)), signals)
    ensures forall s :: s in E.NetStmts(Elements(r)[..k]) ==> LadderStmt(s)
    decreases k
  {
    hide E.ElementStmts; hide Elements; hide G.Closed; hide Agree; hide LadderStmt; hide C.AllContactsClosed;
    hide Effect;
    hide ContactElement; hide E.NetStmts; hide Effects;
    var net := Elements(r);
    var front, c := net[..k - 1], r.contacts[k - 1];
    NetGrows(net, k - 1);
    FirstInRung(r, k - 1);
    C.OneMoreClosed(r.contacts, store, k - 1);
    if k == 1 {
      C.NoneOpen(r.contacts, store);
      NoElements(net);
      ContactEffect(off, c, true, store, cr, signals);
      assert E.NetStmts(net[..1]) == E.ElementStmts(net[0], true);
    } else {
      ContactsEffect(off, r, k - 1, store, cr, signals);
      var mid := Effects(E.NetStmts(front), cr, signals);
      ContactEffect(off, c, false, store, mid.0, signals);
      EffectsAppend(E.NetStmts(front), E.ElementStmts(net[k - 1], false), cr, signals);
    }
  }

  lemma NoElements(net: seq<E.LdElement>)
    ensures E.NetStmts(net[..0]) == []
  {
  }

  lemma NetGrows(net: seq<E.LdElement>, i: nat)
    requires i < |net|
    ensures E.NetStmts(net[..i + 1]) == E.NetStmts(net[..i]) + E.ElementStmts(net[i], E.IsFirst(net, i))
  {
    hide E.ElementStmts;
    assert net[..i + 1][..i] == net[..i];
    assert E.IsFirst(net[..i + 1], i) == E.IsFirst(net, i);
  }

  lemma FirstInRung(r: LadderRung, i: nat)
    requires r.contacts != [] && i <= |Elements(r)|
    ensures E.IsFirst(Elements(r), i) <==> i == 0
  {
    if i > 0 { assert E.StartsRung(Elements(r)[0]); }
  }

  // ----- parallel contacts -----

  predicate AnyClosed(ps: seq<G.Contact>, store: map<string, bool>) {
    exists i :: 0 <= i < |ps| && G.Closed(ps[i], store)
  }

  lemma OneMoreAny(ps: seq<G.Contact>, store: map<string, bool>, k: nat)
    requires k < |ps|
    ensures AnyClosed(ps[..k + 1], store) <==> AnyClosed(ps[..k], store) || G.Closed(ps[k], store)
  {
    hide G.Closed;
    var more := ps[..k + 1];
    assert more[k] == ps[k] && forall i :: 0 <= i < k ==> more[i] == ps[..k][i];
  }

  /** Power reaches the coils over all the series contacts, or over any parallel one. */
  predicate Power(r: LadderRung, store: map<string, bool>) {
    C.AllContactsClosed(r.contacts, store) || AnyClosed(r.parallels, store)
  }

  lemma PowerIsFlow(r: LadderRung, store: map<string, bool>)
    requires r.contacts != []
    ensures C.Flow(ViewOf(r), store) <==> Power(r, store)
  {
    hide G.Closed; hide C.Flow; hide CoilsOf;
    if r.parallels == [] {
      C.SerialFlow("", r.contacts, CoilsOf(r.coils), store);
    } else {
      var branches := Branches(r);
      P.ParallelFlow("", branches, CoilsOf(r.coils), store);
      hide P.ParallelView; hide Branches;
      if i :| 0 <= i < |r.parallels| && G.Closed(r.parallels[i], store) {
        assert branches[i + 1] == [r.parallels[i]] && P.ClosedUpTo(branches[i + 1], store, |branches[i + 1]|);
        assert P.SomeBranchClosed(branches, store);
      }
      if C.AllContactsClosed(r.contacts, store) {
        assert P.ClosedUpTo(branches[0], store, |branches[0]|);
        assert P.SomeBranchClosed(branches, store);
      }
      if b: nat :| 0 <= b < |branches| && branches[b] != [] && P.ClosedUpTo(branches[b], store, |branches[b]|) {
        if b > 0 {
          assert branches[b] == [r.parallels[b - 1]];
          assert G.Closed(branches[b][0], store);
          assert AnyClosed(r.parallels, store);
        } else {
          assert C.AllContactsClosed(r.contacts, store);
        }
      }
    }
  }

  lemma ParallelEffect(off: set<string>, c: G.Contact, store: map<string, bool>, cr: HalValue,
                       signals: map<string, HalValue>)
    requires Agree(off, store, signals) && c.v !in off && cr.Bool?
    ensures E.ElementStmts(ParallelElement(c), false) == [E.ElementStmts(ParallelElement(c), false)[0]]
    ensures Effects(E.ElementStmts(ParallelElement(c), false), cr, signals) ==
            (Bool(cr.b || G.Closed(c, store)), signals)
    ensures LadderStmt(E.ElementStmts(ParallelElement(c), false)[0])
  {
    var ss := E.ElementStmts(ParallelElement(c), false);
    assert ss[..0] == [];
    assert Effects(ss[..0], cr, signals) == (cr, signals);
    assert M.ReadSignal(signals, c.v) == Bool(G.GetBool(store, c.v));
    assert Effects(ss, cr, signals) == Effect(ss[0], cr, signals);
  }

  lemma {:induction false} ParallelsEffect(off: set<string>, r: LadderRung, k: nat, store: map<string, bool>,
                                           cr: HalValue, signals: map<string, HalValue>)
    requires Agree(off, store, signals) && RungApart(r, off) && k <= |r.parallels|
    ensures Effects(E.NetStmts(Elements(r)[..|r.contacts| + k]), cr, signals) ==
            (Bool(C.AllContactsClosed(r.contacts, store) || AnyClosed(r.parallels[..k], store)), signals)
    ensures forall s :: s in E.NetStmts(Elements(r)[..|r.contacts| + k]) ==> LadderStmt(s)
    decreases k
  {
    hide E.ElementStmts; hide Elements; hide G.Closed; hide Agree; hide LadderStmt; hide C.AllContactsClosed;
    hide Effect;
    hide ParallelElement; hide E.NetStmts; hide Effects;
    if k == 0 {
      assert r.contacts[..|r.contacts|] == r.contacts;
      ContactsEffect(off, r, |r.contacts|, store, cr, signals);
    } else {
      var net, n := Elements(r), |r.contacts| + k - 1;
      var c := r.parallels[k - 1];
      ParallelsEffect(off, r, k - 1, store, cr, signals);
      OneMoreAny(r.parallels, store, k - 1);
      NetGrows(net, n);
      FirstInRung(r, n);
      assert net[|r.contacts| + (k - 1)] == ParallelElement(c);
      var mid := Effects(E.NetStmts(net[..n]), cr, signals);
      ParallelEffect(off, c, store, mid.0, signals);
      EffectsAppend(E.NetStmts(net[..n]), E.ElementStmts(net[n], false), cr, signals);
    }
  }

  lemma {:induction false} CoilsEffect(off: set<string>, r: LadderRung, k: nat, power: bool, store: map<string, bool>,
                                       cr: HalValue, signals: map<string, HalValue>)
    requires RungApart(r, off) && k <= |r.coils|
    requires Effects(E.NetStmts(Elements(r)[..Inputs(r)]), cr, signals) == (Bool(power), signals) &&
             Agree(off, store, signals)
    requires forall s :: s in E.NetStmts(Elements(r)[..Inputs(r)]) ==> LadderStmt(s)
    ensures var end := Effects(E.NetStmts(Elements(r)[..Inputs(r) + k]), cr, signals);
            && end.0 == Bool(power)
            && Agree(off, C.ApplyCoils(store, C.CoilStates(CoilsOf(r.coils[..k]), power, store)), end.1)
    ensures forall s :: s in E.NetStmts(Elements(r)[..Inputs(r) + k]) ==> LadderStmt(s)
    decreases k
  {
    hide Elements; hide Agree; hide C.ApplyCoils; hide C.CoilStates; hide CoilsOf; hide E.NetStmts; hide Effects;
    hide Inputs; hide E.ElementStmts; hide KindOf; hide C.Energized; hide G.GetBool; hide LadderStmt;
    if k == 0 {
      assert r.coils[..0] == [];
      NoCoils(store, power);
    } else {
      CoilsEffect(off, r, k - 1, power, store, cr, signals);
      var net, n, c := Elements(r), Inputs(r) + k - 1, r.coils[k - 1];
      NetGrows(net, n);
      assert net[Inputs(r) + (k - 1)] == CoilElement(c);
      var before := Effects(E.NetStmts(net[..n]), cr, signals);
      CoilEffect(c, E.IsFirst(net, n), before.0, before.1);
      EffectsAppend(E.NetStmts(net[..n]), E.ElementStmts(net[n], E.IsFirst(net, n)), cr, signals);
      OneMoreCoil(r.coils, k - 1, power, store);
      var held := C.ApplyCoils(store, C.CoilStates(CoilsOf(r.coils[..k - 1]), power, store));
      AgreeCoil(off, held, before.1, c, power, G.GetBool(store, c.v));
    }
  }

  lemma NoCoils(store: map<string, bool>, power: bool)
    ensures C.ApplyCoils(store, C.CoilStates(CoilsOf([]), power, store)) == store
  {
  }

  /** An OUT coil stores CR; SET and RESET coils change neither CR nor a signal. */
  function CoilSignals(c: RungCoil, cr: HalValue, signals: map<string, HalValue>): map<string, HalValue> {
    if c.kind.OutCoil? then signals[c.v := cr] else signals
  }

  lemma CoilEffect(c: RungCoil, first: bool, cr: HalValue, signals: map<string, HalValue>)
    ensures Effects(E.ElementStmts(CoilElement(c), first), cr, signals) == (cr, CoilSignals(c, cr, signals))
    ensures forall s :: s in E.ElementStmts(CoilElement(c), first) ==> LadderStmt(s)
  {
    var ss := E.ElementStmts(CoilElement(c), first);
    assert ss[..0] == [] && Effects(ss[..0], cr, signals) == (cr, signals);
    assert Effects(ss, cr, signals) == Effect(ss[0], cr, signals);
  }

  lemma OneMoreCoil(coils: seq<RungCoil>, i: nat, power: bool, store: map<string, bool>)
    requires i < |coils|
    ensures var c := coils[i];
            C.ApplyCoils(store, C.CoilStates(CoilsOf(coils[..i + 1]), power, store)) ==
            C.ApplyCoils(store, C.CoilStates(CoilsOf(coils[..i]), power, store))
              [c.v := C.Energized(KindOf(c.kind), power, G.GetBool(store, c.v))]
  {
    hide C.Energized; hide G.GetBool; hide C.ApplyCoils; hide C.CoilStates; hide CoilsOf; hide KindOf;
    var cs := CoilsOf(coils[..i + 1]);
    assert coils[..i + 1][i] == coils[i];
    assert cs[..i + 1] == cs && cs[..i] == CoilsOf(coils[..i]);
    C.OneCoilMore(cs, i, power, store, []);
    var states := C.CoilStates(cs, power, store);
    assert states[..i] == C.CoilStates(cs[..i], power, store);
    L.ApplyLast(store, states);
  }

  lemma AgreeCoil(off: set<string>, store: map<string, bool>, signals: map<string, HalValue>, c: RungCoil, power: bool,
                  held: bool)
    requires Agree(off, store, signals) && (c.kind.OutCoil? || c.v in off)
    ensures Agree(off, store[c.v := C.Energized(KindOf(c.kind), power, held)], CoilSignals(c, Bool(power), signals))
  {
    var set1, set2 := store[c.v := C.Energized(KindOf(c.kind), power, held)], CoilSignals(c, Bool(power), signals);
    forall x | x !in off
      ensures M.ReadSignal(set2, x) == Bool(G.GetBool(set1, x))
    {
      assert M.ReadSignal(signals, x) == Bool(G.GetBool(store, x));
    }
  }

  /** One rung: its statements change the signals as the evaluator changes the store. */
  lemma RungAgrees(off: set<string>, r: LadderRung, store: map<string, bool>, cr: HalValue,
                   signals: map<string, HalValue>)
    requires RungApart(r, off) && Agree(off, store, signals)
    ensures Agree(off, C.ApplyCoils(store, C.CoilsAfter(ViewOf(r), store)),
                  Effects(E.NetStmts(Elements(r)), cr, signals).1)
    ensures forall s :: s in E.NetStmts(Elements(r)) ==> LadderStmt(s)
  {
    hide Agree; hide C.ApplyCoils; hide C.CoilStates; hide CoilsOf; hide E.NetStmts; hide Effects;
    hide C.AllContactsClosed;
    hide Elements; hide C.Flow; hide ViewOf; hide AnyClosed;
    var power := Power(r, store);
    assert r.parallels[..|r.parallels|] == r.parallels;
    ParallelsEffect(off, r, |r.parallels|, store, cr, signals);
    CoilsEffect(off, r, |r.coils|, power, store, cr, signals);
    assert r.coils[..|r.coils|] == r.coils;
    assert Elements(r)[..Inputs(r) + |r.coils|] == Elements(r);
    PowerIsFlow(r, store);
    ViewCoils(r);
  }

  lemma ViewCoils(r: LadderRung)
    ensures ViewOf(r).coils == CoilsOf(r.coils)
  {
    hide CoilsOf;
  }

  lemma {:induction false} RungsAgree(off: set<string>, rs: seq<LadderRung>, store: map<string, bool>, cr: HalValue,
                                      signals: map<string, HalValue>)
    requires Apart(rs, off) && Agree(off, store, signals)
    ensures Agree(off, C.StoreAfter(ViewsOf(rs), store), Effects(E.IlOf(Networks(rs)), cr, signals).1)
    ensures forall s :: s in E.IlOf(Networks(rs)) ==> LadderStmt(s)
  {
    hide Agree; hide C.ApplyCoils; hide E.NetStmts; hide C.CoilsAfter; hide Effect; hide Elements; hide ViewOf;
    if rs != [] {
      var front, r := rs[..|rs| - 1], rs[|rs| - 1];
      assert r in rs && forall q :: q in front ==> q in rs;
      RungsAgree(off, front, store, cr, signals);
      NextNetwork(rs);
      var mid := Effects(E.IlOf(Networks(front)), cr, signals);
      RungAgrees(off, r, C.StoreAfter(ViewsOf(front), store), mid.0, mid.1);
      EffectsAppend(E.IlOf(Networks(front)), E.NetStmts(Elements(r)), cr, signals);
      assert ViewsOf(rs)[..|ViewsOf(rs)| - 1] == ViewsOf(front);
    }
  }

  lemma NextNetwork(rs: seq<LadderRung>)
    requires rs != []
    ensures E.IlOf(Networks(rs)) == E.IlOf(Networks(rs[..|rs| - 1])) + E.NetStmts(Elements(rs[|rs| - 1]))
  {
    hide E.NetStmts; hide Elements;
    var nets := Networks(rs);
    assert nets[..|nets| - 1] == Networks(rs[..|rs| - 1]);
  }

  // ----- scans of the compiled program -----

  /** The IL of the ladder uses at most ten variables, and every parallel contact's variable
      stands as a series contact before, with no coil on it in between. */
  predicate Fits(rs: seq<LadderRung>) { Compiles(E.IlOf(Networks(rs))) }

  function Program(rs: seq<LadderRung>): seq<M.Instruction> { ProgramCode(E.IlOf(Networks(rs))) }

  predicate AtStart(vm: M.Vm) { vm.ip == 0 && vm.callStack == [] }

  /** One scan halts, with the signals as one cycle leaves the store. */
  lemma ScanAgrees(off: set<string>, rs: seq<LadderRung>, store: map<string, bool>, vm: M.Vm) returns (n: nat)
    requires Apart(rs, off) && Fits(rs) && AtStart(vm) && Agree(off, store, vm.signals)
    ensures var out := M.Run(Program(rs), M.Next(vm), n);
            out.Halted? && AtStart(M.ResetIp(out.vm)) && Agree(off, C.StoreAfter(ViewsOf(rs), store), out.vm.signals)
  {
    hide Agree; hide ProgramCode; hide M.Step; hide Effects; hide E.IlOf; hide Networks; hide C.StoreAfter;
    hide ViewsOf;
    hide IlStep; hide VarsOf; hide Offset; hide LadderStmt;
    var ss, prog := E.IlOf(Networks(rs)), Program(rs);
    var cr := vm.regs[CR_REG];
    RungsAgree(off, rs, store, cr, vm.signals);
    ScanStarts(ss, vm);
    var first := M.Step(prog, vm).vm;
    var start := IlState(0, cr, vm.signals);
    StraightIl(ss, cr, vm.signals, |ss|);
    assert ss[..|ss|] == ss;
    IlRunSplit(ss, Running(start), |ss|, 1);
    var end := Effects(ss, cr, vm.signals);
    AtEnd(ss, IlState(|ss|, end.0, end.1));
    Lockstep(ss, start, first, |ss| + 1);
    n := 1 + Cost(ss, Running(start), |ss| + 1);
    M.RunSplit(prog, M.Next(vm), 1, n - 1);
    M.RunOne(prog, vm);
  }

  lemma AtEnd(ss: seq<IlStmt>, st: IlState)
    requires st.pc == |ss|
    ensures IlRun(ss, Running(st), 1) == Done(st)
  {
  }

  /** Without parallel contacts only the number of variables counts. */
  lemma {:induction false} SeriesFits(rs: seq<LadderRung>)
    requires forall r :: r in rs ==> r.parallels == []
    ensures Fits(rs) <==> |VarsOf(E.IlOf(Networks(rs)))| <= MAX_IL_VARS
  {
    hide VarsOf; hide Current; hide E.IlOf; hide Networks;
    var ss := E.IlOf(Networks(rs));
    NoCombining(rs);
    forall i | 0 <= i < |ss|
      ensures SoundAt(ss, i)
    {
      assert ss[i] in ss;
    }
  }

  lemma {:induction false} NoCombining(rs: seq<LadderRung>)
    requires forall r :: r in rs ==> r.parallels == []
    ensures forall s :: s in E.IlOf(Networks(rs)) ==> Loads(s) || s.Store? || Latches(s)
  {
    hide Elements; hide E.NetStmts;
    if rs != [] {
      var front, r := rs[..|rs| - 1], rs[|rs| - 1];
      assert r in rs && forall x :: x in front ==> x in rs;
      NoCombining(front);
      NextNetwork(rs);
      var net := Elements(r);
      forall i | 0 <= i < |net|
        ensures net[i].Contact? || net[i].Coil?
      {
        if i >= |r.contacts| { assert net[Inputs(r) + (i - Inputs(r))] == CoilElement(r.coils[i - Inputs(r)]); }
      }
      PlainElements(net);
    }
  }

  lemma {:induction false} PlainElements(net: seq<E.LdElement>)
    requires forall i :: 0 <= i < |net| ==> net[i].Contact? || net[i].Coil?
    ensures forall s :: s in E.NetStmts(net) ==> Loads(s) || s.Store? || Latches(s)
  {
    hide E.IsFirst;
    if net != [] { PlainElements(net[..|net| - 1]); }
  }

  /** Inputs written to the signals between two scans. */
  function Feed(vm: M.Vm, input: map<string, bool>): M.Vm {
    vm.(signals := vm.signals + (map x | x in input :: Bool(input[x])))
  }

  /** Scans in a row, each fed its inputs, run to its halt and restarted. */
  ghost predicate FedScans(prog: seq<M.Instruction>, vm: M.Vm, inputs: seq<map<string, bool>>, end: M.Vm) {
    if inputs == [] then end == vm
    else
      var front, input := inputs[..|inputs| - 1], inputs[|inputs| - 1];
      exists mid: M.Vm :: FedScans(prog, vm, front, mid) && ScansOnce(prog, Feed(mid, input), end)
  }

  ghost predicate ScansOnce(prog: seq<M.Instruction>, vm: M.Vm, end: M.Vm) {
    exists n: nat :: M.Run(prog, M.Next(vm), n).Halted? && end == M.ResetIp(M.Run(prog, M.Next(vm), n).vm)
  }

  lemma FeedAgrees(off: set<string>, store: map<string, bool>, vm: M.Vm, input: map<string, bool>)
    requires Agree(off, store, vm.signals)
    ensures Agree(off, store + input, Feed(vm, input).signals)
  {
    var fed := Feed(vm, input).signals;
    forall x | x !in off
      ensures M.ReadSignal(fed, x) == Bool(G.GetBool(store + input, x))
    {
      assert M.ReadSignal(vm.signals, x) == Bool(G.GetBool(store, x));
    }
  }

  /** Any number of scans, any inputs between them: the scans all halt, and however the
      machine got to their end, every variable without SET and RESET coils has the value the
      evaluator gives it. Without such coils that is every variable. */
  lemma LadderMeaningsAgree(rs: seq<LadderRung>, store: map<string, bool>, vm: M.Vm, inputs: seq<map<string, bool>>)
    requires Apart(rs, Latched(rs)) && Fits(rs) && AtStart(vm) && Agree(Latched(rs), store, vm.signals)
    ensures exists end: M.Vm :: FedScans(Program(rs), vm, inputs, end)
    ensures forall end: M.Vm :: FedScans(Program(rs), vm, inputs, end) ==>
              AtStart(end) && Agree(Latched(rs), L.AfterCycles(ViewsOf(rs), store, inputs), end.signals)
  {
    hide *;
    ScansAgree(Latched(rs), rs, store, vm, inputs);
  }

  lemma {:induction false} ScansAgree(off: set<string>, rs: seq<LadderRung>, store: map<string, bool>, vm: M.Vm,
                                      inputs: seq<map<string, bool>>)
    requires Apart(rs, off) && Fits(rs) && AtStart(vm) && Agree(off, store, vm.signals)
    ensures exists end: M.Vm :: FedScans(Program(rs), vm, inputs, end)
    ensures forall end: M.Vm :: FedScans(Program(rs), vm, inputs, end) ==>
              AtStart(end) && Agree(off, L.AfterCycles(ViewsOf(rs), store, inputs), end.signals)
    decreases |inputs|
  {
    hide Agree; hide Program; hide Apart; hide Fits; hide C.StoreAfter; hide ViewsOf; hide M.Run; hide AtStart;
    hide ScansOnce;
    var prog := Program(rs);
    if inputs == [] {
      assert FedScans(prog, vm, inputs, vm);
    } else {
      var front, input := inputs[..|inputs| - 1], inputs[|inputs| - 1];
      ScansAgree(off, rs, store, vm, front);
      var before := L.AfterCycles(ViewsOf(rs), store, front);
      forall mid: M.Vm | FedScans(prog, vm, front, mid)
        ensures exists end: M.Vm :: ScansOnce(prog, Feed(mid, input), end)
        ensures forall end: M.Vm :: ScansOnce(prog, Feed(mid, input), end) ==>
                  AtStart(end) && Agree(off, C.StoreAfter(ViewsOf(rs), before + input), end.signals)
      {
        FeedAgrees(off, before, mid, input);
        OneScan(off, rs, before + input, mid, input);
      }
      var mid: M.Vm :| FedScans(prog, vm, front, mid);
      var end: M.Vm :| ScansOnce(prog, Feed(mid, input), end);
      assert FedScans(prog, vm, inputs, end);
    }
  }

  lemma OneScan(off: set<string>, rs: seq<LadderRung>, store: map<string, bool>, vm: M.Vm, input: map<string, bool>)
    requires Apart(rs, off) && Fits(rs) && AtStart(vm) && Agree(off, store, Feed(vm, input).signals)
    ensures exists end: M.Vm :: ScansOnce(Program(rs), Feed(vm, input), end)
    ensures forall end: M.Vm :: ScansOnce(Program(rs), Feed(vm, input), end) ==>
              AtStart(end) && Agree(off, C.StoreAfter(ViewsOf(rs), store), end.signals)
  {
    hide Agree; hide Program; hide Apart; hide Fits; hide C.StoreAfter; hide ViewsOf; hide M.Run;
    var prog, fed := Program(rs), Feed(vm, input);
    var n := ScanAgrees(off, rs, store, fed);
    assert ScansOnce(prog, fed, M.ResetIp(M.Run(prog, M.Next(fed), n).vm));
    forall end: M.Vm | ScansOnce(prog, fed, end)
      ensures AtStart(end) && Agree(off, C.StoreAfter(ViewsOf(rs), store), end.signals)
    {
      var k: nat :| M.Run(prog, M.Next(fed), k).Halted? && end == M.ResetIp(M.Run(prog, M.Next(fed), k).vm);
      M.RunDeterministic(prog, M.Next(fed), k, n);
    }
  }

  // ----- the whole pipeline -----

  /** Ladder to IL text, text to statements, statements to code. `None` is the panic on an
      eleventh variable. */
  method CompileLadder(nets: seq<seq<E.LdElement>>) returns (code: Option<seq<M.Instruction>>)
    ensures R.GoodNames(nets) ==> (code.None? <==> |VarsOf(E.IlOf(nets))| > MAX_IL_VARS)
    ensures R.GoodNames(nets) && code.Some? ==> code.value == ProgramCode(E.IlOf(nets))
  {
    hide VarsOf; hide ProgramCode; hide E.IlOf; hide R.GoodNames;
    var stmts := R.ReadLadder(nets);
    var codegen := new IlCodegen.Codegen();
    code := codegen.Compile(stmts);
  }
}
