/** The code the ST compiler lays out, as a function: every jump carries its final
    target from the start. The compiler itself emits placeholders and patches them
    later; `StCodegen` proves that both give the same instructions. */
module StLayout {
  import opened HalValues
  import opened StAst
  import opened Machine

  datatype CodegenError =
    | UndefinedVariable(name: string)
    | TooManyVariables
    | TypeMismatch(expected: VarType, got: VarType)

  /** How a compilation ends: `Crashed` is a panic of the compiler. */
  datatype Status = Fine | Failed(error: CodegenError) | Crashed {
    predicate IsFailure() { !Fine? }
    function PropagateFailure(): Status { this }
  }

  datatype Env = Env(regs: map<string, nat>, types: map<string, VarType>)

  const MAX_VAR_REGS: nat := 13

  function EnvOf(vars: seq<VarDecl>): (env: Env)
    ensures env.regs.Keys == env.types.Keys
  {
    if vars == [] then Env(map[], map[])
    else
      var n := |vars| - 1;
      var env := EnvOf(vars[..n]);
      Env(env.regs[vars[n].name := n], env.types[vars[n].name := vars[n].varType])
  }

  predicate GoodEnv(env: Env) {
    && env.regs.Keys == env.types.Keys
    && (forall x :: x in env.regs ==> env.regs[x] < MAX_VAR_REGS)
    && (forall x, y :: x in env.regs && y in env.regs && x != y ==> env.regs[x] != env.regs[y])
  }

  /** Every accepted declaration list gives distinct variables distinct registers. */
  lemma {:induction false} EnvOfGood(vars: seq<VarDecl>)
    requires |vars| <= MAX_VAR_REGS
    ensures GoodEnv(EnvOf(vars))
    ensures forall x :: x in EnvOf(vars).regs ==> EnvOf(vars).regs[x] < |vars|
  {
    if vars != [] {
      EnvOfGood(vars[..|vars| - 1]);
    }
  }

  function RegOf(env: Env, x: string): nat { if x in env.regs then env.regs[x] else 0 }

  /** The scratch registers in the order they are handed out. */
  function Scratch(d: nat): nat { if d == 0 then 14 else if d == 1 then 15 else 13 }

  const POOL_SIZE: nat := 3

  function ZeroOfType(t: VarType): HalValue {
    match t
    case TBool => Bool(false)
    case TSInt => Int(I8, 0)
    case TUSInt => Int(U8, 0) case TByte => Int(U8, 0)
    case TInt => Int(I16, 0)
    case TUInt => Int(U16, 0) case TWord => Int(U16, 0)
    case TDInt => S32(0) case TTime => S32(0)
    case TLInt => Int(I64, 0)
    case TReal => Float(F32, 0.0)
    case TLReal => Float(F64, 0.0)
    case TString => Str("")
    case TArray => Blob([])
    case _ => IntU32(0)
  }

  function TypeOfVar(env: Env, x: string): VarType { if x in env.types then env.types[x] else TInt }

  function ArithOpcode(op: BinOp): Opcode {
    match op
    case BAdd => Add case BSub => Sub case BMul => Mul case BDiv => Div case _ => Opcode.Mod
  }

  function CmpOpcode(op: BinOp): Opcode {
    match op
    case BEq => Eq case BNeq => Neq case BGt => Gt case BLt => Lt case BGte => Gte case _ => Lte
  }

  function LogicOpcode(op: BinOp): Opcode {
    match op
    case BAnd => And case BOr => Or case _ => Xor
  }

  predicate IsFlipFlop(t: VarType) { t.TSr? || t.TRs? }
  predicate IsEdgeBlock(t: VarType) { t.TRTrig? || t.TFTrig? }
  predicate IsTimerBlock(t: VarType) { t.TTon? || t.TTof? || t.TTp? }
  predicate IsCounterBlock(t: VarType) { t.TCtu? || t.TCtd? || t.TCtud? }

  function ReadTwo(op: Opcode, idx: nat, a: nat, b: nat): Instruction {
    Instruction(op, [Immediate(IntU32(idx)), Register(a), Register(b)])
  }

  // ----- expressions -----

  /** Code leaving the value of `e` in `dest`, with `d` scratch registers in use,
      starting at address `at`. */
  function ExprCode(env: Env, e: Expr, dest: nat, d: nat, at: nat): seq<Instruction>
    decreases e, 1
  {
    match e
    case IntLiteral(i) => [LoadImm(dest, S32(Wrap(I32, i)))]
    case RealLiteral(x) => [LoadImm(dest, Float(F32, x))]
    case BoolLiteral(b) => [LoadImm(dest, Bool(b))]
    case Variable(x) =>
      if RegOf(env, x) == dest then []
      else [LoadImm(dest, ZeroOfType(TypeOfVar(env, x))), Arith3(Add, RegOf(env, x), dest, dest)]
    case Binary(l, op, r) =>
      if IsArith(op) then
        var lc := ExprCode(env, l, dest, d, at);
        var rc := ExprCode(env, r, Scratch(d), d + 1, at + |lc|);
        lc + rc + [Arith3(ArithOpcode(op), dest, Scratch(d), dest)]
      else if IsCmp(op) then
        var cc := CompareCode(env, e, d, at);
        cc + [LoadImm(dest, Bool(false)), JumpIfTo(at + |cc| + 3), LoadImm(dest, Bool(true))]
      else
        var lc := ExprCode(env, l, dest, d + 1, at);
        var rc := ExprCode(env, r, Scratch(d), d + 1, at + |lc|);
        lc + rc + [Arith3(LogicOpcode(op), dest, Scratch(d), dest)]
    case Unary(UNeg, i) =>
      ExprCode(env, i, dest, d, at) +
      [LoadImm(Scratch(d), S32(0)), Arith3(Sub, Scratch(d), dest, dest)]
    case Unary(UNot, i) =>
      ExprCode(env, i, dest, d, at) + [Arith3(Opcode.Not, dest, dest, dest)]
    case FieldAccess(x, f) =>
      var t := TypeOfVar(env, x);
      var reg := RegOf(env, x);
      if x in env.types && IsFlipFlop(t) then
        [if f == "Q2" then ReadTwo(ReadSr, reg, Scratch(d), dest) else ReadTwo(ReadSr, reg, dest, Scratch(d))]
      else if x in env.types && IsEdgeBlock(t) then
        [Instruction(ReadEdge, [Immediate(IntU32(reg)), Register(dest)])]
      else [ReadTwo(ReadTimer, reg, dest, Scratch(d))]
    case ArrayAccess(_, _) => []
  }

  /** Right operand first, then left, then the comparison. */
  function CompareCode(env: Env, e: Expr, d: nat, at: nat): seq<Instruction>
    requires e.Binary?
    decreases e, 0
  {
    var rc := ExprCode(env, e.right, Scratch(d), d + 1, at);
    var lc := ExprCode(env, e.left, Scratch(d + 1), d + 2, at + |rc|);
    rc + lc + [Cmp2(CmpOpcode(e.op), Scratch(d + 1), Scratch(d))]
  }

  lemma BinaryCode(env: Env, l: Expr, op: BinOp, r: Expr, dest: nat, d: nat, at: nat)
    requires IsArith(op)
    ensures var lc := ExprCode(env, l, dest, d, at);
            var rc := ExprCode(env, r, Scratch(d), d + 1, at + |lc|);
            ExprCode(env, Binary(l, op, r), dest, d, at) == lc + rc + [Arith3(ArithOpcode(op), dest, Scratch(d), dest)]
  {
  }

  lemma LogicCode(env: Env, l: Expr, op: BinOp, r: Expr, dest: nat, d: nat, at: nat)
    requires !IsArith(op) && !IsCmp(op)
    ensures var lc := ExprCode(env, l, dest, d + 1, at);
            var rc := ExprCode(env, r, Scratch(d), d + 1, at + |lc|);
            ExprCode(env, Binary(l, op, r), dest, d, at) == lc + rc + [Arith3(LogicOpcode(op), dest, Scratch(d), dest)]
  {
  }

  lemma CompareValueCode(env: Env, e: Expr, dest: nat, d: nat, at: nat)
    requires e.Binary? && IsCmp(e.op)
    ensures var cc := CompareCode(env, e, d, at);
            ExprCode(env, e, dest, d, at) ==
            cc + [LoadImm(dest, Bool(false))] + [JumpIfTo(at + |cc| + 3)] + [LoadImm(dest, Bool(true))]
  {
    var cc := CompareCode(env, e, d, at);
    assert ExprCode(env, e, dest, d, at) ==
           cc + [LoadImm(dest, Bool(false)), JumpIfTo(at + |cc| + 3), LoadImm(dest, Bool(true))];
  }

  function Then(a: Status, b: Status): Status { if a.Fine? then b else a }

  function Alloc(d: nat): Status { if d < POOL_SIZE then Fine else Crashed }

  function Declared(env: Env, x: string): Status {
    if x in env.regs then Fine else Failed(UndefinedVariable(x))
  }

  function ExprStatus(env: Env, e: Expr, d: nat): Status
    decreases e, 1
  {
    match e
    case Variable(x) => Declared(env, x)
    case Binary(l, op, r) =>
      if IsArith(op) then Then(ExprStatus(env, l, d), Then(Alloc(d), ExprStatus(env, r, d + 1)))
      else if IsCmp(op) then CompareStatus(env, e, d)
      else Then(Alloc(d), Then(ExprStatus(env, l, d + 1), ExprStatus(env, r, d + 1)))
    case Unary(UNeg, i) => Then(ExprStatus(env, i, d), Alloc(d))
    case Unary(UNot, i) => ExprStatus(env, i, d)
    case FieldAccess(x, _) =>
      Then(Declared(env, x), if x in env.types && IsEdgeBlock(TypeOfVar(env, x)) then Fine else Alloc(d))
    case _ => Fine
  }

  function CompareStatus(env: Env, e: Expr, d: nat): Status
    requires e.Binary?
    decreases e, 0
  {
    Then(Alloc(d), Then(ExprStatus(env, e.right, d + 1), Then(Alloc(d + 1), ExprStatus(env, e.left, d + 2))))
  }

  // ----- types -----

  predicate IsIntegerType(t: VarType) {
    t.TInt? || t.TDInt? || t.TSInt? || t.TUSInt? || t.TUInt? || t.TULInt? || t.TLInt? || t.TByte? ||
    t.TWord? || t.TDWord? || t.TTime? || t.TDate? || t.TTod? || t.TDt?
  }

  predicate TypesCompatible(a: VarType, b: VarType) {
    || a == b
    || (a.TInt? && IsIntegerType(b)) || (b.TInt? && IsIntegerType(a))
    || (a.TReal? && b.TLReal?) || (a.TLReal? && b.TReal?)
  }

  datatype Typed = Type(t: VarType) | Ill(error: CodegenError)

  function TypeOfExpr(env: Env, e: Expr): Typed {
    match e
    case IntLiteral(_) => Type(TInt)
    case RealLiteral(_) => Type(TReal)
    case BoolLiteral(_) => Type(TBool)
    case Variable(x) => if x in env.types then Type(env.types[x]) else Ill(UndefinedVariable(x))
    case ArrayAccess(x, _) =>
      if x in env.types then Type(if env.types[x].TArray? then TInt else env.types[x]) else Ill(UndefinedVariable(x))
    case FieldAccess(x, _) =>
      if x !in env.types then Ill(UndefinedVariable(x))
      else
        var t := env.types[x];
        Type(if IsTimerBlock(t) || IsCounterBlock(t) || IsFlipFlop(t) || IsEdgeBlock(t) then TBool else t)
    case Binary(l, op, r) =>
      var lt := TypeOfExpr(env, l);
      if lt.Ill? then lt else
      var rt := TypeOfExpr(env, r);
      if rt.Ill? then rt
      else if op.BAnd? || op.BOr? then
        if lt.t != TBool then Ill(TypeMismatch(TBool, lt.t))
        else if rt.t != TBool then Ill(TypeMismatch(TBool, rt.t))
        else Type(TBool)
      else if IsCmp(op) then Type(TBool)
      else if op.BXor? then if TypesCompatible(lt.t, rt.t) then lt else Ill(TypeMismatch(rt.t, lt.t))
      else if TypesCompatible(lt.t, rt.t) then lt else Ill(TypeMismatch(lt.t, rt.t))
    case Unary(UNeg, i) =>
      var t := TypeOfExpr(env, i);
      if t.Ill? || t.t.TInt? || t.t.TReal? || t.t.TDInt? || t.t.TLReal? then t else Ill(TypeMismatch(TInt, t.t))
    case Unary(UNot, i) =>
      var t := TypeOfExpr(env, i);
      if t.Ill? || IsIntegerType(t.t) || t.t.TBool? then t else Ill(TypeMismatch(TInt, t.t))
  }

  function AssignStatus(env: Env, x: string, e: Expr): Status {
    if x !in env.types then Failed(UndefinedVariable(x))
    else
      var expected := env.types[x];
      match e
      case IntLiteral(_) => if IsIntegerType(expected) then Fine else Failed(TypeMismatch(expected, TInt))
      case RealLiteral(_) =>
        if expected.TReal? || expected.TLReal? then Fine else Failed(TypeMismatch(expected, TReal))
      case _ =>
        var got := TypeOfExpr(env, e);
        if got.Ill? then Failed(got.error)
        else if TypesCompatible(got.t, expected) then Fine
        else Failed(TypeMismatch(expected, got.t))
  }

  function ConditionStatus(env: Env, e: Expr): Status {
    var t := TypeOfExpr(env, e);
    if t.Ill? then Failed(t.error) else if t.t.TBool? then Fine else Failed(TypeMismatch(TBool, t.t))
  }

  // ----- conditions: two lists of jumps, `toElse` and `toEnd` after the source's names -----

  function CondCode(env: Env, e: Expr, at: nat, toElse: nat, toEnd: nat): seq<Instruction> {
    match e
    case Binary(l, op, r) =>
      if IsCmp(op) then CompareCode(env, e, 0, at) + [JumpIfTo(toElse)]
      else if op.BAnd? then
        var lc := CondCode(env, l, at, toElse, toEnd);
        lc + CondCode(env, r, at + |lc|, toElse, toEnd)
      else if op.BOr? then
        var n := |CondCode(env, l, at, 0, 0)|;
        CondCode(env, l, at, at + n + 1, toEnd) + [JumpTo(toEnd)] + CondCode(env, r, at + n + 1, toElse, toEnd)
      else ValueCondCode(env, e, at, toElse)
    case Unary(UNot, i) => CondCode(env, i, at, toEnd, toElse)
    case _ => ValueCondCode(env, e, at, toElse)
  }

  function ValueCondCode(env: Env, e: Expr, at: nat, toElse: nat): seq<Instruction> {
    ExprCode(env, e, Scratch(0), 1, at) +
    [LoadImm(Scratch(1), Bool(true)), Cmp2(Eq, Scratch(0), Scratch(1)), JumpIfTo(toElse)]
  }

  function CondStatus(env: Env, e: Expr): Status {
    match e
    case Binary(l, op, r) =>
      if IsCmp(op) then CompareStatus(env, e, 0)
      else if op.BAnd? || op.BOr? then Then(CondStatus(env, l), CondStatus(env, r))
      else ExprStatus(env, e, 1)
    case Unary(UNot, i) => CondStatus(env, i)
    case _ => ExprStatus(env, e, 1)
  }

  /** Addresses of the jumps left open, in the order they are collected. */
  function ElseSites(env: Env, e: Expr, at: nat): seq<nat>
    decreases e, 0
  {
    match e
    case Binary(l, op, r) =>
      var n := |CondCode(env, l, at, 0, 0)|;
      if IsCmp(op) then [at + |CompareCode(env, e, 0, at)|]
      else if op.BAnd? then ElseSites(env, l, at) + ElseSites(env, r, at + n)
      else if op.BOr? then ElseSites(env, r, at + n + 1)
      else [at + |ValueCondCode(env, e, at, 0)| - 1]
    case Unary(UNot, i) => EndSites(env, i, at)
    case _ => [at + |ValueCondCode(env, e, at, 0)| - 1]
  }

  function EndSites(env: Env, e: Expr, at: nat): seq<nat>
    decreases e, 0
  {
    match e
    case Binary(l, op, r) =>
      var n := |CondCode(env, l, at, 0, 0)|;
      if op.BAnd? then EndSites(env, l, at) + EndSites(env, r, at + n)
      else if op.BOr? then EndSites(env, l, at) + [at + n] + EndSites(env, r, at + n + 1)
      else []
    case Unary(UNot, i) => ElseSites(env, i, at)
    case _ => []
  }

  // ----- statements -----

  function StepCode(env: Env, step: Option<Expr>, at: nat): seq<Instruction> {
    match step
    case Some(e) => ExprCode(env, e, Scratch(0), 1, at)
    case None => [LoadImm(Scratch(0), S32(1))]
  }

  /** The comparison chain of one CASE arm: jump to `toBody` on any match. */
  function ValuesCode(reg: nat, values: seq<int>, toBody: nat): seq<Instruction> {
    if values == [] then []
    else ValuesCode(reg, values[..|values| - 1], toBody) +
         [LoadImm(Scratch(0), S32(Wrap(I32, values[|values| - 1]))), Cmp2(Eq, reg, Scratch(0)), JumpIfTo(toBody)]
  }

  function StmtCode(env: Env, s: Stmt, at: nat, exit: nat): seq<Instruction>
    decreases s
  {
    match s
    case Assign(x, e) =>
      ExprCode(env, e, RegOf(env, x), 0, at) + [StoreSig(x, RegOf(env, x))]
    case If(c, t, e) =>
      var n := |CondCode(env, c, at, 0, 0)|;
      var tc := SeqCode(env, t, at + n + 1, exit);
      var elseAt := at + n + 1 + |tc| + 1;
      var ec := SeqCode(env, e, elseAt, exit);
      CondCode(env, c, at, at + n + 1, at + n + 1) + [JumpTo(elseAt)] + tc + [JumpTo(elseAt + |ec|)] + ec
    case While(c, b) =>
      var n := |CondCode(env, c, at, 0, 0)|;
      var bn := |SeqCode(env, b, at + n + 1, 0)|;
      var out := at + n + 1 + bn + 1;
      CondCode(env, c, at, at + n + 1, 0) + [JumpTo(out)] + SeqCode(env, b, at + n + 1, out) + [JumpTo(at)]
    case For(x, start, end, step, b) =>
      var sc := ExprCode(env, start, RegOf(env, x), 0, at);
      var loop := at + |sc|;
      var ec := ExprCode(env, end, Scratch(0), 1, loop);
      var bodyAt := loop + |ec| + 2;
      var bn := |SeqCode(env, b, bodyAt, 0)|;
      var pc := StepCode(env, step, bodyAt + bn);
      var out := bodyAt + bn + |pc| + 2;
      sc + ec + [Cmp2(Gt, RegOf(env, x), Scratch(0)), JumpIfTo(out)] + SeqCode(env, b, bodyAt, out) +
      pc + [Arith3(Add, RegOf(env, x), Scratch(0), RegOf(env, x)), JumpTo(loop)]
    case Repeat(b, c) =>
      var bn := |SeqCode(env, b, at, 0)|;
      var n := |CondCode(env, c, at + bn, 0, 0)|;
      var out := at + bn + n + 1;
      SeqCode(env, b, at, out) + CondCode(env, c, at + bn, out, 0) + [JumpTo(at)]
    case Return => [HaltInstr()]
    case Exit => [JumpTo(exit)]
    case Case(x, arms, e) =>
      var an := |ArmsCode(env, RegOf(env, x), arms, at, 0, 0)|;
      var ec := SeqCode(env, e, at + an, exit);
      ArmsCode(env, RegOf(env, x), arms, at, exit, at + an + |ec|) + ec
    case FunCall(f, args) => CallCode(env, f, args, at)
    case ArrayAssign(_, _, _) => []
  }

  function SeqCode(env: Env, ss: seq<Stmt>, at: nat, exit: nat): seq<Instruction>
    decreases ss
  {
    if ss == [] then []
    else
      var front := SeqCode(env, ss[..|ss| - 1], at, exit);
      front + StmtCode(env, ss[|ss| - 1], at + |front|, exit)
  }

  function ArmsCode(env: Env, reg: nat, arms: seq<CaseArm>, at: nat, exit: nat, done: nat): seq<Instruction>
    decreases arms
  {
    if arms == [] then []
    else
      var front := ArmsCode(env, reg, arms[..|arms| - 1], at, exit, done);
      front + ArmCode(env, reg, arms[|arms| - 1], at + |front|, exit, done)
  }

  function ArmCode(env: Env, reg: nat, arm: CaseArm, at: nat, exit: nat, done: nat): seq<Instruction>
    decreases arm
  {
    var bodyAt := at + |ValuesCode(reg, arm.values, 0)| + 1;
    var bc := SeqCode(env, arm.body, bodyAt, exit);
    ValuesCode(reg, arm.values, bodyAt) + [JumpTo(bodyAt + |bc| + 1)] + bc + [JumpTo(done)]
  }

  // ----- the layout of each statement, piece by piece -----

  lemma IfLayout(env: Env, s: Stmt, at: nat, x: nat)
    requires s.If?
    ensures var n := |CondCode(env, s.cond, at, 0, 0)|;
            var tc := SeqCode(env, s.thenBody, at + n + 1, x);
            var elseAt := at + n + 1 + |tc| + 1;
            var ec := SeqCode(env, s.elseBody, elseAt, x);
            StmtCode(env, s, at, x) ==
            CondCode(env, s.cond, at, at + n + 1, at + n + 1) + [JumpTo(elseAt)] + tc + [JumpTo(elseAt + |ec|)] + ec
  {
  }

  lemma WhileLayout(env: Env, s: Stmt, at: nat, x: nat)
    requires s.While?
    ensures var n := |CondCode(env, s.cond, at, 0, 0)|;
            var out := at + n + 1 + |SeqCode(env, s.body, at + n + 1, 0)| + 1;
            StmtCode(env, s, at, x) ==
            CondCode(env, s.cond, at, at + n + 1, 0) + [JumpTo(out)] + SeqCode(env, s.body, at + n + 1, out) +
              [JumpTo(at)]
  {
  }

  lemma RepeatLayout(env: Env, s: Stmt, at: nat, x: nat)
    requires s.Repeat?
    ensures var bn := |SeqCode(env, s.body, at, 0)|;
            var out := at + bn + |CondCode(env, s.cond, at + bn, 0, 0)| + 1;
            StmtCode(env, s, at, x) ==
            SeqCode(env, s.body, at, out) + CondCode(env, s.cond, at + bn, out, 0) + [JumpTo(at)]
  {
  }

  lemma ForLayout(env: Env, s: Stmt, at: nat, x: nat)
    requires s.For?
    ensures var reg := RegOf(env, s.variable);
            var sc := ExprCode(env, s.start, reg, 0, at);
            var loop := at + |sc|;
            var ec := ExprCode(env, s.end, Scratch(0), 1, loop);
            var bodyAt := loop + |ec| + 2;
            var bn := |SeqCode(env, s.body, bodyAt, 0)|;
            var pc := StepCode(env, s.step, bodyAt + bn);
            var out := bodyAt + bn + |pc| + 2;
            StmtCode(env, s, at, x) ==
            sc + (ec + [Cmp2(Gt, reg, Scratch(0))]) + [JumpIfTo(out)] + SeqCode(env, s.body, bodyAt, out) +
            (pc + [Arith3(Add, reg, Scratch(0), reg), JumpTo(loop)])
  {
    hide ExprCode; hide SeqCode;
    var reg := RegOf(env, s.variable);
    var sc := ExprCode(env, s.start, reg, 0, at);
    var loop := at + |sc|;
    var ec := ExprCode(env, s.end, Scratch(0), 1, loop);
    var bodyAt := loop + |ec| + 2;
    var bn := |SeqCode(env, s.body, bodyAt, 0)|;
    var pc := StepCode(env, s.step, bodyAt + bn);
    var out := bodyAt + bn + |pc| + 2;
    var bc := SeqCode(env, s.body, bodyAt, out);
    assert StmtCode(env, s, at, x) ==
           sc + ec + [Cmp2(Gt, reg, Scratch(0)), JumpIfTo(out)] + bc + pc +
             [Arith3(Add, reg, Scratch(0), reg), JumpTo(loop)];
  }

  /** Argument `i` of a block call, moved to or computed in a scratch register. */
  function ArgCode(env: Env, e: Expr, d: nat, at: nat): seq<Instruction> {
    if e.Variable? then [LoadReg(Scratch(d), RegOf(env, e.name))] else ExprCode(env, e, Scratch(d), d + 1, at)
  }

  function LiteralU32(e: Expr): nat {
    if e.IntLiteral? then Unsigned(U32, e.i) else 0
  }

  function TimerKindCode(t: VarType): nat { if t.TTon? then 0 else if t.TTof? then 1 else 2 }
  function CounterKindCode(t: VarType): nat { if t.TCtu? then 0 else if t.TCtd? then 1 else 2 }

  function Imm(n: nat): Operand { Immediate(IntU32(n)) }

  function CallCode(env: Env, f: string, args: seq<Expr>, at: nat): seq<Instruction> {
    var t := TypeOfVar(env, f);
    var reg := RegOf(env, f);
    if f in env.types && IsTimerBlock(t) && |args| >= 2 then
      ArgCode(env, args[0], 0, at) +
      [Instruction(TimerRun, [Imm(reg), Register(Scratch(0)), Imm(LiteralU32(args[1])), Imm(TimerKindCode(t))])]
    else if f in env.types && IsCounterBlock(t) && |args| >= 2 then
      var up := ArgCode(env, args[0], 0, at);
      var down := if |args| >= 3 then ArgCode(env, args[2], 1, at + |up|) else [LoadImm(Scratch(1), Bool(false))];
      up + down +
      [Instruction(CounterRun, [Imm(reg), Register(Scratch(0)), Register(Scratch(1)),
                                Imm(LiteralU32(args[1])), Imm(CounterKindCode(t))])]
    else if f in env.types && IsFlipFlop(t) && |args| >= 2 then
      var sc := ArgCode(env, args[0], 0, at);
      sc + ArgCode(env, args[1], 1, at + |sc|) +
      [Instruction(SrRun, [Imm(reg), Register(Scratch(0)), Register(Scratch(1)), Imm(if t.TSr? then 0 else 1)])]
    else if f in env.types && IsEdgeBlock(t) && |args| >= 1 then
      ArgCode(env, args[0], 0, at) +
      [Instruction(EdgeRun, [Imm(reg), Register(Scratch(0)), Imm(if t.TRTrig? then 0 else 1)])]
    else ArgsCode(env, args, at) + [CallTo(0)]
  }

  /** Arguments of an ordinary call go to r0..r3; further ones are dropped. */
  function ArgsCode(env: Env, args: seq<Expr>, at: nat): seq<Instruction> {
    if args == [] then []
    else
      var n := |args| - 1;
      var front := ArgsCode(env, args[..n], at);
      if n < 4 then front + ExprCode(env, args[n], n, 0, at + |front|) else front
  }

  function ArgStatus(env: Env, e: Expr, d: nat): Status {
    Then(Alloc(d), if e.Variable? then Declared(env, e.name) else ExprStatus(env, e, d + 1))
  }

  function ArgsStatus(env: Env, args: seq<Expr>): Status {
    if args == [] then Fine
    else
      var n := |args| - 1;
      Then(ArgsStatus(env, args[..n]), if n < 4 then ExprStatus(env, args[n], 0) else Fine)
  }

  function CallStatus(env: Env, f: string, args: seq<Expr>): Status {
    var t := TypeOfVar(env, f);
    if f in env.types && IsTimerBlock(t) && |args| >= 2 then ArgStatus(env, args[0], 0)
    else if f in env.types && IsCounterBlock(t) && |args| >= 2 then
      Then(ArgStatus(env, args[0], 0), if |args| >= 3 then ArgStatus(env, args[2], 1) else Fine)
    else if f in env.types && IsFlipFlop(t) && |args| >= 2 then
      Then(ArgStatus(env, args[0], 0), ArgStatus(env, args[1], 1))
    else if f in env.types && IsEdgeBlock(t) && |args| >= 1 then ArgStatus(env, args[0], 0)
    else ArgsStatus(env, args)
  }

  function ForVariableStatus(env: Env, x: string): Status {
    if x !in env.types then Failed(UndefinedVariable(x))
    else if env.types[x].TInt? || env.types[x].TDInt? then Fine
    else Failed(TypeMismatch(TInt, env.types[x]))
  }

  function StepStatus(env: Env, step: Option<Expr>): Status {
    if step.Some? then ExprStatus(env, step.value, 1) else Fine
  }

  function StmtStatus(env: Env, s: Stmt, inLoop: bool): Status
    decreases s
  {
    match s
    case Assign(x, e) => Then(AssignStatus(env, x, e), ExprStatus(env, e, 0))
    case If(c, t, e) =>
      Then(ConditionStatus(env, c),
        Then(CondStatus(env, c), Then(SeqStatus(env, t, inLoop), SeqStatus(env, e, inLoop))))
    case While(c, b) =>
      Then(ConditionStatus(env, c), Then(CondStatus(env, c), SeqStatus(env, b, true)))
    case For(x, start, end, step, b) =>
      Then(ForVariableStatus(env, x),
        Then(ExprStatus(env, start, 0),
          Then(ExprStatus(env, end, 1), Then(SeqStatus(env, b, true), StepStatus(env, step)))))
    case Repeat(b, c) =>
      Then(ConditionStatus(env, c), Then(SeqStatus(env, b, true), CondStatus(env, c)))
    case Return => Fine
    case Exit => if inLoop then Fine else Crashed
    case Case(x, arms, e) =>
      Then(Declared(env, x), Then(ArmsStatus(env, arms, inLoop), SeqStatus(env, e, inLoop)))
    case FunCall(f, args) => CallStatus(env, f, args)
    case ArrayAssign(_, _, _) => Crashed
  }

  function SeqStatus(env: Env, ss: seq<Stmt>, inLoop: bool): Status
    decreases ss
  {
    if ss == [] then Fine
    else Then(SeqStatus(env, ss[..|ss| - 1], inLoop), StmtStatus(env, ss[|ss| - 1], inLoop))
  }

  function ArmsStatus(env: Env, arms: seq<CaseArm>, inLoop: bool): Status
    decreases arms
  {
    if arms == [] then Fine
    else Then(ArmsStatus(env, arms[..|arms| - 1], inLoop), SeqStatus(env, arms[|arms| - 1].body, inLoop))
  }

  // ----- programs -----

  function MainCode(env: Env, p: Program): seq<Instruction> {
    SeqCode(env, p.body, 0, 0) + [HaltInstr()]
  }

  /** Function bodies share the program's registers. */
  function FunctionsCode(env: Env, fs: seq<FunctionDef>, at: nat): seq<Instruction> {
    if fs == [] then []
    else
      var n := |fs| - 1;
      var front := FunctionsCode(env, fs[..n], at);
      front + SeqCode(env, fs[n].body, at + |front|, 0) + [RetNone()]
  }

  function FunctionsStatus(env: Env, fs: seq<FunctionDef>): Status {
    if fs == [] then Fine
    else Then(FunctionsStatus(env, fs[..|fs| - 1]), SeqStatus(env, fs[|fs| - 1].body, false))
  }

  function ProgramCode(env: Env, p: Program): seq<Instruction> {
    MainCode(env, p) + FunctionsCode(env, p.functions, |MainCode(env, p)|)
  }

  function ProgramStatus(env: Env, p: Program): Status {
    Then(SeqStatus(env, p.body, false), FunctionsStatus(env, p.functions))
  }

  predicate PlainProgram(p: Program) {
    PlainSeq(p.body) && forall i :: 0 <= i < |p.functions| ==> PlainSeq(p.functions[i].body)
  }
}
