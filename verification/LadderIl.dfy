/** Ladder elements, their grouping into networks, and the IL text printed for them. */
module LadderIl {
  import opened HalValues
  import opened IlLang
  import opened IlText

  datatype CoilKind = OutCoil | SetCoil | ResetCoil

  datatype LdElement =
    | Contact(normallyOpen: bool, v: string)
    | ParallelContact(normallyOpen: bool, v: string)
    | EdgeContact(rising: bool, v: string)
    | Coil(kind: CoilKind, v: string)

  datatype LdToken =
    | Network | No(v: string) | Nc(v: string) | P(v: string) | N(v: string)
    | OutTok(v: string) | SetTok(v: string) | ResetTok(v: string) | Parallel(spec: string)

  // ----- grouping -----

  /** A parallel branch is two words, the kind and the variable; anything else is dropped.
      An edge contact behind a bar is an ordinary edge contact. */
  function BranchElement(parts: seq<string>): seq<LdElement> {
    if |parts| != 2 then []
    else if parts[0] == "NO" then [ParallelContact(true, parts[1])]
    else if parts[0] == "NC" then [ParallelContact(false, parts[1])]
    else if parts[0] == "P" then [EdgeContact(true, parts[1])]
    else if parts[0] == "N" then [EdgeContact(false, parts[1])]
    else []
  }

  function ElementsOf(t: LdToken): seq<LdElement> {
    match t
    case Network => []
    case No(v) => [Contact(true, v)]
    case Nc(v) => [Contact(false, v)]
    case OutTok(v) => [Coil(OutCoil, v)]
    case SetTok(v) => [Coil(SetCoil, v)]
    case ResetTok(v) => [Coil(ResetCoil, v)]
    case P(v) => [EdgeContact(true, v)]
    case N(v) => [EdgeContact(false, v)]
    case Parallel(spec) => BranchElement(Words(spec))
  }

  function AllElements(ts: seq<LdToken>): seq<LdElement> {
    if ts == [] then [] else AllElements(ts[..|ts| - 1]) + ElementsOf(ts[|ts| - 1])
  }

  function Closed(done: seq<seq<LdElement>>, current: seq<LdElement>): seq<seq<LdElement>> {
    if current == [] then done else done + [current]
  }

  /** The finished networks and the one being filled. */
  function Grouped(ts: seq<LdToken>): (seq<seq<LdElement>>, seq<LdElement>) {
    if ts == [] then ([], [])
    else
      var (done, current) := Grouped(ts[..|ts| - 1]);
      if ts[|ts| - 1].Network? then (Closed(done, current), []) else (done, current + ElementsOf(ts[|ts| - 1]))
  }

  function NetworksOf(ts: seq<LdToken>): seq<seq<LdElement>> { Closed(Grouped(ts).0, Grouped(ts).1) }

  method ParseNetworks(ts: seq<LdToken>) returns (networks: seq<seq<LdElement>>)
    ensures networks == NetworksOf(ts)
  {
    hide BranchElement;
    networks := [];
    var current := [];
    for i := 0 to |ts|
      invariant (networks, current) == Grouped(ts[..i])
    {
      assert ts[..i + 1][..i] == ts[..i];
      match ts[i] {
        case Network =>
          if current != [] { networks, current := networks + [current], []; }
        case No(v) => current := current + [Contact(true, v)];
        case Nc(v) => current := current + [Contact(false, v)];
        case OutTok(v) => current := current + [Coil(OutCoil, v)];
        case SetTok(v) => current := current + [Coil(SetCoil, v)];
        case ResetTok(v) => current := current + [Coil(ResetCoil, v)];
        case P(v) => current := current + [EdgeContact(true, v)];
        case N(v) => current := current + [EdgeContact(false, v)];
        case Parallel(spec) => current := current + BranchElement(Words(spec));
      }
    }
    assert ts[..|ts|] == ts;
    if current != [] { networks := networks + [current]; }
  }

  function Flatten<T>(xss: seq<seq<T>>): seq<T> {
    if xss == [] then [] else Flatten(xss[..|xss| - 1]) + xss[|xss| - 1]
  }

  /** Every element is kept, in order, and no network is empty. */
  lemma {:induction false} NetworksKeepElements(ts: seq<LdToken>)
    ensures Flatten(NetworksOf(ts)) == AllElements(ts)
    ensures [] !in NetworksOf(ts)
  {
    GroupedKeeps(ts);
    var (done, current) := Grouped(ts);
    if current != [] { assert (done + [current])[..|done|] == done; }
  }

  lemma {:induction false} GroupedKeeps(ts: seq<LdToken>)
    ensures Flatten(Grouped(ts).0) + Grouped(ts).1 == AllElements(ts)
    ensures [] !in Grouped(ts).0
  {
    hide ElementsOf;
    if ts != [] {
      GroupedKeeps(ts[..|ts| - 1]);
      var (done, current) := Grouped(ts[..|ts| - 1]);
      var last := ts[|ts| - 1];
      if last.Network? {
        NetworkHasNoElement(last);
        if current != [] { assert (done + [current])[..|done|] == done; }
      } else {
        assert Flatten(done) + (current + ElementsOf(last)) == Flatten(done) + current + ElementsOf(last);
      }
    }
  }

  lemma NetworkHasNoElement(t: LdToken)
    requires t.Network?
    ensures ElementsOf(t) == []
  {
  }

  /** NETWORK separates: what follows is grouped as if it stood alone. */
  lemma {:induction false} NetworkSeparates(a: seq<LdToken>, b: seq<LdToken>)
    ensures NetworksOf(a + [Network] + b) == NetworksOf(a) + NetworksOf(b)
  {
    GroupedAppend(a + [Network], b);
    assert (a + [Network])[..|a|] == a;
  }

  lemma {:induction false} GroupedAppend(a: seq<LdToken>, b: seq<LdToken>)
    requires Grouped(a).1 == []
    ensures Grouped(a + b) == (Grouped(a).0 + Grouped(b).0, Grouped(b).1)
  {
    hide Grouped; hide Closed;
    if b == [] {
      NoneGrouped();
      assert a + b == a;
      assert Grouped(a).0 + Grouped(b).0 == Grouped(a).0;
    } else {
      GroupedAppend(a, b[..|b| - 1]);
      assert (a + b)[..|a + b| - 1] == a + b[..|b| - 1];
      GroupedOne(b);
      GroupedOne(a + b);
      ClosedAppend(Grouped(a).0, Grouped(b[..|b| - 1]).0, Grouped(b[..|b| - 1]).1);
    }
  }

  lemma NoneGrouped()
    ensures Grouped([]) == ([], [])
  {
  }

  lemma GroupedOne(ts: seq<LdToken>)
    requires ts != []
    ensures var g, last := Grouped(ts[..|ts| - 1]), ts[|ts| - 1];
            Grouped(ts) == if last.Network? then (Closed(g.0, g.1), []) else (g.0, g.1 + ElementsOf(last))
  {
    hide ElementsOf; hide Closed;
  }

  lemma ClosedAppend(a: seq<seq<LdElement>>, done: seq<seq<LdElement>>, current: seq<LdElement>)
    ensures a + Closed(done, current) == Closed(a + done, current)
  {
  }

  /** Without a NETWORK line everything is one network. */
  lemma {:induction false} OneNetwork(ts: seq<LdToken>)
    requires Network !in ts
    ensures NetworksOf(ts) == if AllElements(ts) == [] then [] else [AllElements(ts)]
  {
    UngroupedIsCurrent(ts);
  }

  lemma {:induction false} UngroupedIsCurrent(ts: seq<LdToken>)
    requires Network !in ts
    ensures Grouped(ts) == ([], AllElements(ts))
  {
    hide ElementsOf;
    if ts != [] {
      UngroupedIsCurrent(ts[..|ts| - 1]);
      assert ts[|ts| - 1] in ts;
    }
  }

  // ----- the statements a network stands for -----

  predicate StartsRung(e: LdElement) { e.Contact? || e.EdgeContact? }

  /** No contact that loads the accumulator comes before element `i`. */
  predicate IsFirst(net: seq<LdElement>, i: nat)
    requires i <= |net|
  {
    forall j :: 0 <= j < i ==> !StartsRung(net[j])
  }

  function ElementStmts(e: LdElement, first: bool): seq<IlStmt> {
    match e
    case Contact(no, v) =>
      [if first then (if no then Load(v) else LoadNot(v)) else (if no then And(v) else AndNot(v))]
    case ParallelContact(no, v) => [if no then Or(v) else OrNot(v)]
    case EdgeContact(rising, v) => [if first then Load(v) else And(v), if rising then RTrig(v) else FTrig(v)]
    case Coil(kind, v) =>
      [match kind case OutCoil => Store(v) case SetCoil => Set(v) case ResetCoil => Reset(v)]
  }

  function NetStmts(net: seq<LdElement>): seq<IlStmt> {
    if net == [] then []
    else NetStmts(net[..|net| - 1]) + ElementStmts(net[|net| - 1], IsFirst(net, |net| - 1))
  }

  function IlOf(nets: seq<seq<LdElement>>): seq<IlStmt> {
    if nets == [] then [] else IlOf(nets[..|nets| - 1]) + NetStmts(nets[|nets| - 1])
  }

  // ----- printing -----

  /** The statements ladder printing uses. */
  function PrintedAs(s: IlStmt): Option<Mnemonic> {
    match s
    case Load(_) => Some(LD) case LoadNot(_) => Some(LDN) case Store(_) => Some(ST)
    case And(_) => Some(AND) case AndNot(_) => Some(ANDN) case Or(_) => Some(OR) case OrNot(_) => Some(ORN)
    case Set(_) => Some(S) case Reset(_) => Some(R) case RTrig(_) => Some(R_TRIG) case FTrig(_) => Some(F_TRIG)
    case _ => None
  }

  predicate Printed(s: IlStmt) { PrintedAs(s).Some? }

  function Spelling(s: IlStmt): string
    requires Printed(s)
  {
    match s
    case Load(_) => "LD" case LoadNot(_) => "LDN" case Store(_) => "ST"
    case And(_) => "AND" case AndNot(_) => "ANDN" case Or(_) => "OR" case OrNot(_) => "ORN"
    case Set(_) => "S" case Reset(_) => "R" case RTrig(_) => "R_TRIG" case FTrig(_) => "F_TRIG"
  }

  function Operand(s: IlStmt): string
    requires Printed(s)
  {
    s.v
  }

  function LineOf(s: IlStmt): string
    requires Printed(s)
  {
    Spelling(s) + " " + Operand(s)
  }

  function LinesOf(ss: seq<IlStmt>): (ls: seq<string>)
    requires forall s :: s in ss ==> Printed(s)
    ensures |ls| == |ss| && forall i :: 0 <= i < |ss| ==> ls[i] == LineOf(ss[i])
  {
    if ss == [] then [] else LinesOf(ss[..|ss| - 1]) + [LineOf(ss[|ss| - 1])]
  }

  /** Lines joined by newlines, none at the end. */
  function Join(ls: seq<string>): string {
    if ls == [] then "" else if |ls| == 1 then ls[0] else ls[0] + "\n" + Join(ls[1..])
  }

  lemma {:induction false} NetPrinted(net: seq<LdElement>)
    ensures forall s :: s in NetStmts(net) ==> Printed(s)
  {
    if net != [] {
      NetPrinted(net[..|net| - 1]);
    }
  }

  lemma {:induction false} AllPrinted(nets: seq<seq<LdElement>>)
    ensures forall s :: s in IlOf(nets) ==> Printed(s)
  {
    if nets != [] {
      AllPrinted(nets[..|nets| - 1]);
      NetPrinted(nets[|nets| - 1]);
    }
  }

  lemma {:induction false} LinesOfAppend(a: seq<IlStmt>, b: seq<IlStmt>)
    requires forall s :: s in a + b ==> Printed(s)
    requires (forall s :: s in a ==> Printed(s)) && (forall s :: s in b ==> Printed(s))
    ensures LinesOf(a + b) == LinesOf(a) + LinesOf(b)
  {
    hide LineOf; hide Printed; hide LinesOf;
    forall i | 0 <= i < |a + b|
      ensures LinesOf(a + b)[i] == (LinesOf(a) + LinesOf(b))[i]
    {
    }
  }

  /** The printer: one line per statement, the first contact of each network loading. */
  method GenerateIl(nets: seq<seq<LdElement>>) returns (text: string)
    ensures forall s :: s in IlOf(nets) ==> Printed(s)
    ensures text == Join(LinesOf(IlOf(nets)))
  {
    hide ElementStmts; hide NetStmts; hide Printed; hide LineOf; hide Join;
    AllPrinted(nets);
    var lines: seq<string> := [];
    for i := 0 to |nets|
      invariant forall s :: s in IlOf(nets[..i]) ==> Printed(s)
      invariant lines == LinesOf(IlOf(nets[..i]))
    {
      assert nets[..i + 1][..i] == nets[..i];
      NetPrinted(nets[i]);
      var net := PrintNetwork(nets[i]);
      LinesOfAppend(IlOf(nets[..i]), NetStmts(nets[i]));
      lines := lines + net;
    }
    assert nets[..|nets|] == nets;
    text := Join(lines);
  }

  method PrintNetwork(net: seq<LdElement>) returns (lines: seq<string>)
    ensures forall s :: s in NetStmts(net) ==> Printed(s)
    ensures lines == LinesOf(NetStmts(net))
  {
    hide ElementStmts; hide Printed; hide LineOf;
    NetPrinted(net);
    lines := [];
    var firstContact := true;
    for i := 0 to |net|
      invariant firstContact == IsFirst(net, i)
      invariant forall s :: s in NetStmts(net[..i]) ==> Printed(s)
      invariant lines == LinesOf(NetStmts(net[..i]))
    {
      assert net[..i + 1][..i] == net[..i];
      assert IsFirst(net[..i + 1], i) == IsFirst(net, i);
      NetPrinted(net[..i + 1]);
      ElementPrinted(net[i], firstContact);
      LinesOfAppend(NetStmts(net[..i]), ElementStmts(net[i], firstContact));
      var more;
      more, firstContact := PrintElement(net[i], firstContact);
      lines := lines + more;
    }
    assert net[..|net|] == net;
  }

  lemma ElementPrinted(e: LdElement, first: bool)
    ensures forall s :: s in ElementStmts(e, first) ==> Printed(s)
  {
  }

  lemma LoadTexts(v: string)
    ensures LineOf(Load(v)) == "LD " + v && LineOf(LoadNot(v)) == "LDN " + v
    ensures LineOf(And(v)) == "AND " + v && LineOf(AndNot(v)) == "ANDN " + v
  {
    assert "LD" + " " == "LD " && "LDN" + " " == "LDN " && "AND" + " " == "AND " && "ANDN" + " " == "ANDN ";
  }

  lemma CoilTexts(v: string)
    ensures LineOf(Store(v)) == "ST " + v && LineOf(Set(v)) == "S " + v && LineOf(Reset(v)) == "R " + v
  {
    assert "ST" + " " == "ST " && "S" + " " == "S " && "R" + " " == "R ";
  }

  lemma OtherTexts(v: string)
    ensures LineOf(Or(v)) == "OR " + v && LineOf(OrNot(v)) == "ORN " + v
    ensures LineOf(RTrig(v)) == "R_TRIG " + v && LineOf(FTrig(v)) == "F_TRIG " + v
  {
    assert "OR" + " " == "OR " && "ORN" + " " == "ORN " && "R_TRIG" + " " == "R_TRIG " && "F_TRIG" + " " == "F_TRIG ";
  }

  lemma FewLines(a: IlStmt, b: IlStmt)
    requires Printed(a) && Printed(b)
    ensures LinesOf([a]) == [LineOf(a)]
    ensures LinesOf([a, b]) == [LineOf(a), LineOf(b)]
  {
  }

  method PrintElement(e: LdElement, firstContact: bool) returns (lines: seq<string>, first: bool)
    ensures forall s :: s in ElementStmts(e, firstContact) ==> Printed(s)
    ensures lines == LinesOf(ElementStmts(e, firstContact))
    ensures first == (firstContact && !StartsRung(e))
  {
    LoadTexts(e.v);
    CoilTexts(e.v);
    OtherTexts(e.v);
    ElementPrinted(e, firstContact);
    hide LineOf; hide LinesOf;
    ghost var stmts := ElementStmts(e, firstContact);
    FewLines(stmts[0], stmts[|stmts| - 1]);
    first := firstContact;
    match e
    case Contact(no, v) =>
      if first {
        lines := [if no then "LD " + v else "LDN " + v];
        first := false;
      } else {
        lines := [if no then "AND " + v else "ANDN " + v];
      }
    case ParallelContact(no, v) => lines := [if no then "OR " + v else "ORN " + v];
    case EdgeContact(rising, v) =>
      if first {
        lines := ["LD " + v];
        first := false;
      } else {
        lines := ["AND " + v];
      }
      lines := lines + [if rising then "R_TRIG " + v else "F_TRIG " + v];
    case Coil(kind, v) =>
      lines := [if kind.OutCoil? then "ST " + v else if kind.SetCoil? then "S " + v else "R " + v];
  }
}
