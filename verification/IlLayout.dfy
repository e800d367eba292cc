/** The code the IL compiler lays out for a statement list, as a function. */
module IlLayout {
  import opened HalValues
  import opened IlLang
  import M = Machine

  const MAX_IL_VARS: nat := 10
  const TEMP_REG: nat := 12
  const CR_REG: nat := 14
  const TRUE_REG: nat := 15

  /** The variable a statement keeps in a register. A store goes straight to its signal. */
  function VarOf(s: IlStmt): Option<string> {
    match s
    case Store(_) => None
    case Jump(_) => None case JumpIf(_) => None case JumpIfNot(_) => None case Call(_) => None
    case Return => None case Not => None case Label(_) => None
    case _ => Some(s.v)
  }

  /** Variables in the order in which they are first used. */
  function VarsOf(ss: seq<IlStmt>): seq<string> {
    if ss == [] then []
    else
      var front := VarsOf(ss[..|ss| - 1]);
      var v := VarOf(ss[|ss| - 1]);
      if v.Some? && v.value !in front then front + [v.value] else front
  }

  lemma {:induction false} VarsHold(ss: seq<IlStmt>, i: nat)
    requires i < |ss| && VarOf(ss[i]).Some?
    ensures VarOf(ss[i]).value in VarsOf(ss)
    decreases |ss|
  {
    if i < |ss| - 1 { VarsHold(ss[..|ss| - 1], i); }
  }

  function IndexOf(names: seq<string>, x: string): nat {
    if names == [] || names[0] == x then 0 else 1 + IndexOf(names[1..], x)
  }

  lemma {:induction false} IndexOfIn(names: seq<string>, x: string)
    requires x in names
    ensures IndexOf(names, x) < |names| && names[IndexOf(names, x)] == x
  {
    if names[0] != x { IndexOfIn(names[1..], x); }
  }

  lemma {:induction false} IndexOfAppend(names: seq<string>, y: string, x: string)
    ensures x in names ==> IndexOf(names + [y], x) == IndexOf(names, x)
    ensures y !in names ==> IndexOf(names + [y], y) == |names|
  {
    if names != [] {
      IndexOfAppend(names[1..], y, x);
      assert (names + [y])[1..] == names[1..] + [y];
    }
  }

  function FunctionBlock(op: M.Opcode, r: nat): M.Instruction { M.Instruction(op, [M.Register(r)]) }

  function CmpOpcode(k: CompareKind): M.Opcode {
    match k
    case CEq => M.Eq case CNe => M.Neq case CGt => M.Gt case CGe => M.Gte case CLt => M.Lt case CLe => M.Lte
  }

  /** Code of one statement at address `at`: its variable in register `r`, its jump, if
      it has one, to `t`. */
  function StmtCode(s: IlStmt, r: nat, at: nat, t: nat): seq<M.Instruction> {
    match s
    case Label(_) => []
    case Load(v) => [M.LoadSig(r, v), M.LoadReg(CR_REG, r)]
    case LoadNot(v) => [M.LoadSig(r, v), M.LoadReg(CR_REG, r), M.NotReg(CR_REG, CR_REG)]
    case Store(v) => [M.StoreSig(v, CR_REG)]
    case And(v) => [M.LoadSig(r, v), M.Arith3(M.And, CR_REG, r, CR_REG)]
    case AndNot(v) =>
      [M.LoadSig(r, v), M.LoadReg(TEMP_REG, r), M.NotReg(TEMP_REG, TEMP_REG), M.Arith3(M.And, CR_REG, TEMP_REG, CR_REG)]
    case Or(_) => [M.Arith3(M.Or, CR_REG, r, CR_REG)]
    case OrNot(_) => [M.LoadReg(TEMP_REG, r), M.NotReg(TEMP_REG, TEMP_REG), M.Arith3(M.Or, CR_REG, TEMP_REG, CR_REG)]
    case Xor(_) => [M.Arith3(M.Xor, CR_REG, r, CR_REG)]
    case Add(_) => [M.Arith3(M.Add, CR_REG, r, CR_REG)]
    case Sub(_) => [M.Arith3(M.Sub, CR_REG, r, CR_REG)]
    case Mul(_) => [M.Arith3(M.Mul, CR_REG, r, CR_REG)]
    case Div(_) => [M.Arith3(M.Div, CR_REG, r, CR_REG)]
    case Mod(_) => [M.Arith3(M.Mod, CR_REG, r, CR_REG)]
    case Cmp(k, _) =>
      [M.Cmp2(CmpOpcode(k), CR_REG, r), M.JumpIfTo(at + 4), M.LoadImm(CR_REG, Bool(false)), M.JumpTo(at + 6),
       M.LoadImm(CR_REG, Bool(true))]
    case Jump(_) => [M.JumpTo(t)]
    case JumpIf(_) => [M.Cmp2(M.Eq, CR_REG, TRUE_REG), M.JumpIfTo(t)]
    case JumpIfNot(_) => [M.Cmp2(M.Neq, CR_REG, TRUE_REG), M.JumpIfTo(t)]
    case Call(_) => [M.CallTo(t)]
    case Return => [M.RetNone()]
    case Set(_) => [M.LoadImm(r, Bool(true))]
    case Reset(_) => [M.LoadImm(r, Bool(false))]
    case Not => [M.NotReg(CR_REG, CR_REG)]
    case Ton(_) => [FunctionBlock(M.TimerRun, r)]
    case Tof(_) => [FunctionBlock(M.TimerRun, r)]
    case Tp(_) => [FunctionBlock(M.TimerRun, r)]
    case Ctu(_) => [FunctionBlock(M.CounterRun, r)]
    case Ctd(_) => [FunctionBlock(M.CounterRun, r)]
    case RTrig(_) => [FunctionBlock(M.EdgeRun, r)]
    case FTrig(_) => [FunctionBlock(M.EdgeRun, r)]
    case Sr(_) => [FunctionBlock(M.SrRun, r)]
    case Rs(_) => [FunctionBlock(M.SrRun, r)]
  }

  function Size(s: IlStmt): nat { |StmtCode(s, 0, 0, 0)| }

  lemma SizeIs(s: IlStmt, r: nat, at: nat, t: nat)
    ensures |StmtCode(s, r, at, t)| == Size(s)
  {
  }

  /** Address of the statement behind `ss`: one instruction comes first. */
  function Offset(ss: seq<IlStmt>): nat {
    if ss == [] then 1 else Offset(ss[..|ss| - 1]) + Size(ss[|ss| - 1])
  }

  /** The register of a statement's variable in a program with variables `names`. */
  function RegFor(names: seq<string>, s: IlStmt): nat {
    if VarOf(s).Some? then IndexOf(names, VarOf(s).value) else 0
  }

  function LabelOf(s: IlStmt): Option<string> {
    match s
    case Jump(l) => Some(l) case JumpIf(l) => Some(l) case JumpIfNot(l) => Some(l) case Call(l) => Some(l)
    case _ => None
  }

  /** Labels and their addresses; of two equal labels the later one counts. */
  function LabelsOf(ss: seq<IlStmt>): map<string, nat> {
    if ss == [] then map[]
    else
      var front := LabelsOf(ss[..|ss| - 1]);
      var s := ss[|ss| - 1];
      if s.Label? then front[s.name := Offset(ss[..|ss| - 1])] else front
  }

  /** Undefined labels lead to the final halt. */
  function TargetIn(labels: map<string, nat>, halt: nat, s: IlStmt): nat {
    match LabelOf(s)
    case Some(l) => if l in labels then labels[l] else halt
    case None => 0
  }

  /** The statements' code with every jump sent to `Resolve` of its statement. */
  function BodyCode(ss: seq<IlStmt>, names: seq<string>, labels: map<string, nat>, halt: nat): seq<M.Instruction> {
    if ss == [] then []
    else
      var s := ss[|ss| - 1];
      BodyCode(ss[..|ss| - 1], names, labels, halt) +
      StmtCode(s, RegFor(names, s), Offset(ss[..|ss| - 1]), TargetIn(labels, halt, s))
  }

  lemma {:induction false} BodySize(ss: seq<IlStmt>, names: seq<string>, labels: map<string, nat>, halt: nat)
    ensures 1 + |BodyCode(ss, names, labels, halt)| == Offset(ss)
  {
    if ss != [] {
      BodySize(ss[..|ss| - 1], names, labels, halt);
      var s := ss[|ss| - 1];
      SizeIs(s, RegFor(names, s), Offset(ss[..|ss| - 1]), TargetIn(labels, halt, s));
    }
  }

  function ProgramCode(ss: seq<IlStmt>): seq<M.Instruction> {
    [M.LoadImm(TRUE_REG, Bool(true))] + BodyCode(ss, VarsOf(ss), LabelsOf(ss), Offset(ss)) + [M.HaltInstr()]
  }
}
