/** Every program the ST compiler accepts stays inside its own code and registers. */
module StSafety {
  import opened HalValues
  import opened StAst
  import opened Machine
  import opened StLayout
  import opened StPatch

  /** Registers exist and jumps go no further than `limit`. */
  predicate SafeInstr(inst: Instruction, limit: nat) {
    && (forall k :: 0 <= k < |inst.operands| ==> inst.operands[k].Register? ==> inst.operands[k].reg < REGISTER_COUNT)
    && (IsJumping(inst.opcode) ==> JumpTarget(inst.operands).Some? && JumpTarget(inst.operands).value <= limit)
    && !inst.opcode.Ret?
  }

  predicate SafeCode(code: seq<Instruction>, limit: nat) {
    forall i :: 0 <= i < |code| ==> SafeInstr(code[i], limit)
  }

  lemma {:induction false} ExprSafe(env: Env, e: Expr, dest: nat, d: nat, at: nat)
    requires GoodEnv(env) && dest < REGISTER_COUNT
    ensures SafeCode(ExprCode(env, e, dest, d, at), at + |ExprCode(env, e, dest, d, at)|)
    decreases e, 1
  {
    hide ExprCode; hide SafeCode; hide GoodEnv;
    if e.Binary? {
      if IsArith(e.op) {
        ArithSafe(env, e, dest, d, at);
      } else if IsCmp(e.op) {
        CompareSafe(env, e, d, at);
        CompareValueSafe(env, e, dest, d, at);
      } else {
        LogicSafe(env, e, dest, d, at);
      }
    } else if e.Unary? {
      ExprSafe(env, e.inner, dest, d, at);
      UnarySafe(env, e, dest, d, at);
    } else {
      LeafSafe(env, e, dest, d, at);
    }
  }

  lemma LeafSafe(env: Env, e: Expr, dest: nat, d: nat, at: nat)
    requires GoodEnv(env) && dest < REGISTER_COUNT && !e.Binary? && !e.Unary?
    ensures SafeCode(ExprCode(env, e, dest, d, at), at + |ExprCode(env, e, dest, d, at)|)
  {
  }

  lemma UnarySafe(env: Env, e: Expr, dest: nat, d: nat, at: nat)
    requires dest < REGISTER_COUNT && e.Unary?
    requires var c := ExprCode(env, e.inner, dest, d, at); SafeCode(c, at + |c|)
    ensures SafeCode(ExprCode(env, e, dest, d, at), at + |ExprCode(env, e, dest, d, at)|)
  {
    var c := ExprCode(env, e.inner, dest, d, at);
    assert ExprCode(env, e, dest, d, at) ==
           c + if e.uop.UNeg? then [LoadImm(Scratch(d), S32(0)), Arith3(Sub, Scratch(d), dest, dest)]
               else [Arith3(Opcode.Not, dest, dest, dest)];
    hide ExprCode;
  }

  lemma CompareValueSafe(env: Env, e: Expr, dest: nat, d: nat, at: nat)
    requires dest < REGISTER_COUNT && e.Binary? && IsCmp(e.op)
    requires SafeCode(CompareCode(env, e, d, at), at + |CompareCode(env, e, d, at)|)
    ensures SafeCode(ExprCode(env, e, dest, d, at), at + |ExprCode(env, e, dest, d, at)|)
  {
    hide ExprCode; hide CompareCode;
    CompareValueCode(env, e, dest, d, at);
  }

  lemma ArithSafe(env: Env, e: Expr, dest: nat, d: nat, at: nat)
    requires GoodEnv(env) && dest < REGISTER_COUNT && e.Binary? && IsArith(e.op)
    ensures SafeCode(ExprCode(env, e, dest, d, at), at + |ExprCode(env, e, dest, d, at)|)
    decreases e, 0
  {
    hide ExprCode;
    ExprSafe(env, e.left, dest, d, at);
    ExprSafe(env, e.right, Scratch(d), d + 1, at + |ExprCode(env, e.left, dest, d, at)|);
    BinaryCode(env, e.left, e.op, e.right, dest, d, at);
  }

  lemma LogicSafe(env: Env, e: Expr, dest: nat, d: nat, at: nat)
    requires GoodEnv(env) && dest < REGISTER_COUNT && e.Binary? && !IsArith(e.op) && !IsCmp(e.op)
    ensures SafeCode(ExprCode(env, e, dest, d, at), at + |ExprCode(env, e, dest, d, at)|)
    decreases e, 0
  {
    hide ExprCode;
    ExprSafe(env, e.left, dest, d + 1, at);
    ExprSafe(env, e.right, Scratch(d), d + 1, at + |ExprCode(env, e.left, dest, d + 1, at)|);
    LogicCode(env, e.left, e.op, e.right, dest, d, at);
  }

  lemma {:induction false} CompareSafe(env: Env, e: Expr, d: nat, at: nat)
    requires GoodEnv(env) && e.Binary?
    ensures SafeCode(CompareCode(env, e, d, at), at + |CompareCode(env, e, d, at)|)
    decreases e, 0
  {
    hide ExprCode;
    ExprSafe(env, e.right, Scratch(d), d + 1, at);
    var rc := ExprCode(env, e.right, Scratch(d), d + 1, at);
    ExprSafe(env, e.left, Scratch(d + 1), d + 2, at + |rc|);
    var lc := ExprCode(env, e.left, Scratch(d + 1), d + 2, at + |rc|);
    assert CompareCode(env, e, d, at) == rc + lc + [Cmp2(CmpOpcode(e.op), Scratch(d + 1), Scratch(d))];
  }

  lemma {:induction false} CondSafe(env: Env, c: Expr, at: nat, t: nat, e: nat, limit: nat)
    requires GoodEnv(env) && t <= limit && e <= limit && at + |CondCode(env, c, at, 0, 0)| <= limit
    ensures SafeCode(CondCode(env, c, at, t, e), limit)
    decreases c
  {
    hide ExprCode; hide CompareCode; hide GoodEnv; hide SafeCode; hide CondCode; hide ValueCondCode;
    CondLength(env, c, at, t, e);
    CondCodeOf(env, c, at, t, e);
    CondCodeOf(env, c, at, 0, 0);
    if c.Binary? && IsCmp(c.op) {
      CompareSafe(env, c, 0, at);
      MoreSafe(CompareCode(env, c, 0, at), at + |CompareCode(env, c, 0, at)|, [JumpIfTo(t)], limit);
    } else if c.Binary? && (c.op.BAnd? || c.op.BOr?) {
      var n := |CondCode(env, c.left, at, 0, 0)|;
      if c.op.BAnd? {
        CondLength(env, c.left, at, t, e);
        CondLength(env, c.right, at + n, t, e);
        CondLength(env, c.left, at, 0, 0);
        CondSafe(env, c.left, at, t, e, limit);
        CondSafe(env, c.right, at + n, t, e, limit);
        MoreSafe(CondCode(env, c.left, at, t, e), limit, CondCode(env, c.right, at + n, t, e), limit);
      } else {
        CondLength(env, c.left, at, at + n + 1, e);
        CondLength(env, c.left, at, at + n + 1, 0);
        CondLength(env, c.right, at + n + 1, t, e);
        CondSafe(env, c.left, at, at + n + 1, e, limit);
        CondSafe(env, c.right, at + n + 1, t, e, limit);
        MoreSafe(CondCode(env, c.left, at, at + n + 1, e), limit, [JumpTo(e)], limit);
        MoreSafe(CondCode(env, c.left, at, at + n + 1, e) + [JumpTo(e)], limit,
                 CondCode(env, c.right, at + n + 1, t, e), limit);
      }
    } else if c.Unary? && c.uop.UNot? {
      CondLength(env, c.inner, at, e, t);
      CondLength(env, c.inner, at, 0, 0);
      CondSafe(env, c.inner, at, e, t, limit);
    } else {
      ExprSafe(env, c, Scratch(0), 1, at);
      ValueCondSafe(env, c, at, t, limit);
    }
  }

  lemma CondCodeOf(env: Env, c: Expr, at: nat, t: nat, e: nat)
    ensures CondCode(env, c, at, t, e) ==
            if c.Binary? && IsCmp(c.op) then CompareCode(env, c, 0, at) + [JumpIfTo(t)]
            else if c.Binary? && c.op.BAnd? then
              CondCode(env, c.left, at, t, e) + CondCode(env, c.right, at + |CondCode(env, c.left, at, t, e)|, t, e)
            else if c.Binary? && c.op.BOr? then
              var n := |CondCode(env, c.left, at, 0, 0)|;
              CondCode(env, c.left, at, at + n + 1, e) + [JumpTo(e)] + CondCode(env, c.right, at + n + 1, t, e)
            else if c.Unary? && c.uop.UNot? then CondCode(env, c.inner, at, e, t)
            else ValueCondCode(env, c, at, t)
  {
    hide ExprCode; hide CompareCode; hide ValueCondCode;
  }

  lemma MoreSafe(a: seq<Instruction>, inner: nat, b: seq<Instruction>, limit: nat)
    requires SafeCode(a, inner) && inner <= limit
    requires SafeCode(b, limit) || (|b| == 1 && (b[0].opcode.Jump? || b[0].opcode.JumpIf?) && SafeInstr(b[0], limit))
    ensures SafeCode(a + b, limit)
  {
    hide JumpTarget; hide IsJumping;
  }

  lemma ValueCondSafe(env: Env, c: Expr, at: nat, t: nat, limit: nat)
    requires var code := ExprCode(env, c, Scratch(0), 1, at); SafeCode(code, at + |code|)
    requires t <= limit && at + |ValueCondCode(env, c, at, t)| <= limit
    ensures SafeCode(ValueCondCode(env, c, at, t), limit)
  {
    hide ExprCode;
  }

  lemma {:induction false} ValuesSafe(reg: nat, values: seq<int>, t: nat)
    requires reg < REGISTER_COUNT
    ensures SafeCode(ValuesCode(reg, values, t), t)
  {
    if values != [] { ValuesSafe(reg, values[..|values| - 1], t); }
  }

  lemma {:induction false} StmtSafe(env: Env, s: Stmt, at: nat, x: nat, limit: nat)
    requires GoodEnv(env) && x <= limit && at + |StmtCode(env, s, at, 0)| <= limit
    ensures SafeCode(StmtCode(env, s, at, x), limit)
    decreases s
  {
    hide ExprCode; hide CondCode; hide SeqCode; hide ArmsCode; hide SafeCode; hide CallCode; hide StepCode;
    StmtLength(env, s, at, x);
    match s
    case Assign(v, e) => AssignSafe(env, s, at, limit);
    case If(_, _, _) => IfSafe(env, s, at, x, limit);
    case While(_, _) => WhileSafe(env, s, at, x, limit);
    case For(_, _, _, _, _) => ForSafe(env, s, at, x, limit);
    case Repeat(_, _) => RepeatSafe(env, s, at, x, limit);
    case Case(_, _, _) => CaseSafe(env, s, at, x, limit);
    case FunCall(f, args) => CallSafe(env, f, args, at, limit);
    case Return => OneSafe(HaltInstr(), limit);
    case Exit => OneSafe(JumpTo(x), limit);
    case ArrayAssign(_, _, _) => NoneSafe(limit);
  }

  lemma OneSafe(inst: Instruction, limit: nat)
    requires SafeInstr(inst, limit)
    ensures SafeCode([inst], limit)
  {
  }

  lemma NoneSafe(limit: nat)
    ensures SafeCode([], limit)
  {
  }

  lemma AssignSafe(env: Env, s: Stmt, at: nat, limit: nat)
    requires s.Assign? && GoodEnv(env) && at + |StmtCode(env, s, at, 0)| <= limit
    ensures SafeCode(StmtCode(env, s, at, 0), limit)
  {
    hide ExprCode;
    ExprSafe(env, s.value, RegOf(env, s.target), 0, at);
  }

  lemma IfSafe(env: Env, s: Stmt, at: nat, x: nat, limit: nat)
    requires s.If? && GoodEnv(env) && x <= limit && at + |StmtCode(env, s, at, x)| <= limit
    ensures SafeCode(StmtCode(env, s, at, x), limit)
    decreases s, 0
  {
    hide ExprCode; hide CondCode; hide SeqCode; hide StmtCode;
    IfLayout(env, s, at, x);
    var thenAt := at + |CondCode(env, s.cond, at, 0, 0)| + 1;
    CondLength(env, s.cond, at, thenAt, thenAt);
    var tc := SeqCode(env, s.thenBody, thenAt, x);
    var elseAt := thenAt + |tc| + 1;
    SeqLength(env, s.thenBody, thenAt, x);
    SeqLength(env, s.elseBody, elseAt, x);
    CondSafe(env, s.cond, at, thenAt, thenAt, limit);
    SeqSafe(env, s.thenBody, thenAt, x, limit);
    SeqSafe(env, s.elseBody, elseAt, x, limit);
  }

  lemma WhileSafe(env: Env, s: Stmt, at: nat, x: nat, limit: nat)
    requires s.While? && GoodEnv(env) && at + |StmtCode(env, s, at, x)| <= limit
    ensures SafeCode(StmtCode(env, s, at, x), limit)
    decreases s, 0
  {
    hide ExprCode; hide CondCode; hide SeqCode; hide StmtCode;
    WhileLayout(env, s, at, x);
    var bodyAt := at + |CondCode(env, s.cond, at, 0, 0)| + 1;
    CondLength(env, s.cond, at, bodyAt, 0);
    var out := bodyAt + |SeqCode(env, s.body, bodyAt, 0)| + 1;
    SeqLength(env, s.body, bodyAt, out);
    CondSafe(env, s.cond, at, bodyAt, 0, limit);
    SeqSafe(env, s.body, bodyAt, out, limit);
  }

  lemma RepeatSafe(env: Env, s: Stmt, at: nat, x: nat, limit: nat)
    requires s.Repeat? && GoodEnv(env) && at + |StmtCode(env, s, at, x)| <= limit
    ensures SafeCode(StmtCode(env, s, at, x), limit)
    decreases s, 0
  {
    hide ExprCode; hide CondCode; hide SeqCode; hide StmtCode;
    RepeatLayout(env, s, at, x);
    var condAt := at + |SeqCode(env, s.body, at, 0)|;
    var out := condAt + |CondCode(env, s.cond, condAt, 0, 0)| + 1;
    SeqLength(env, s.body, at, out);
    CondLength(env, s.cond, condAt, out, 0);
    CondSafe(env, s.cond, condAt, out, 0, limit);
    SeqSafe(env, s.body, at, out, limit);
  }

  lemma ForSafe(env: Env, s: Stmt, at: nat, x: nat, limit: nat)
    requires s.For? && GoodEnv(env) && at + |StmtCode(env, s, at, x)| <= limit
    ensures SafeCode(StmtCode(env, s, at, x), limit)
    decreases s, 0
  {
    hide ExprCode; hide SeqCode; hide StmtCode;
    ForLayout(env, s, at, x);
    var reg := RegOf(env, s.variable);
    var sc := ExprCode(env, s.start, reg, 0, at);
    var loop := at + |sc|;
    var ec := ExprCode(env, s.end, Scratch(0), 1, loop);
    var bodyAt := loop + |ec| + 2;
    var stepAt := bodyAt + |SeqCode(env, s.body, bodyAt, 0)|;
    var pc := StepCode(env, s.step, stepAt);
    var out := stepAt + |pc| + 2;
    SeqLength(env, s.body, bodyAt, out);
    ExprSafe(env, s.start, reg, 0, at);
    ExprSafe(env, s.end, Scratch(0), 1, loop);
    if s.step.Some? { ExprSafe(env, s.step.value, Scratch(0), 1, stepAt); }
    SeqSafe(env, s.body, bodyAt, out, limit);
  }

  lemma CaseSafe(env: Env, s: Stmt, at: nat, x: nat, limit: nat)
    requires s.Case? && GoodEnv(env) && x <= limit && at + |StmtCode(env, s, at, x)| <= limit
    ensures SafeCode(StmtCode(env, s, at, x), limit)
    decreases s, 0
  {
    hide SeqCode; hide ArmsCode;
    var reg := RegOf(env, s.variable);
    var an := |ArmsCode(env, reg, s.arms, at, 0, 0)|;
    var done := at + an + |SeqCode(env, s.elseBody, at + an, x)|;
    ArmsLength(env, reg, s.arms, at, x, done);
    SeqLength(env, s.elseBody, at + an, x);
    ArmsSafe(env, reg, s.arms, at, x, done, limit);
    SeqSafe(env, s.elseBody, at + an, x, limit);
  }

  lemma {:induction false} SeqSafe(env: Env, ss: seq<Stmt>, at: nat, x: nat, limit: nat)
    requires GoodEnv(env) && x <= limit && at + |SeqCode(env, ss, at, 0)| <= limit
    ensures SafeCode(SeqCode(env, ss, at, x), limit)
    decreases ss
  {
    hide StmtCode;
    if ss != [] {
      var front, last := ss[..|ss| - 1], ss[|ss| - 1];
      SeqLength(env, front, at, x);
      var here := at + |SeqCode(env, front, at, 0)|;
      SeqSafe(env, front, at, x, limit);
      StmtSafe(env, last, here, x, limit);
    }
  }

  lemma {:induction false} ArmsSafe(env: Env, reg: nat, arms: seq<CaseArm>, at: nat, x: nat, done: nat, limit: nat)
    requires GoodEnv(env) && reg < REGISTER_COUNT && x <= limit && done <= limit
    requires at + |ArmsCode(env, reg, arms, at, 0, 0)| <= limit
    ensures SafeCode(ArmsCode(env, reg, arms, at, x, done), limit)
    decreases arms
  {
    hide SeqCode; hide ValuesCode;
    if arms != [] {
      var front, arm := arms[..|arms| - 1], arms[|arms| - 1];
      ArmsLength(env, reg, front, at, x, done);
      var here := at + |ArmsCode(env, reg, front, at, 0, 0)|;
      var bodyAt := ArmBodyAt(reg, arm, here);
      ValuesBecome(reg, arm.values, here, bodyAt, 0);
      SeqLength(env, arm.body, bodyAt, x);
      ArmsSafe(env, reg, front, at, x, done, limit);
      ValuesSafe(reg, arm.values, bodyAt);
      SeqSafe(env, arm.body, bodyAt, x, limit);
    }
  }

  lemma ArgSafe(env: Env, e: Expr, d: nat, at: nat)
    requires GoodEnv(env)
    ensures SafeCode(ArgCode(env, e, d, at), at + |ArgCode(env, e, d, at)|)
  {
    if !e.Variable? { ExprSafe(env, e, Scratch(d), d + 1, at); }
  }

  lemma {:induction false} ArgsSafe(env: Env, args: seq<Expr>, at: nat)
    requires GoodEnv(env)
    ensures SafeCode(ArgsCode(env, args, at), at + |ArgsCode(env, args, at)|)
  {
    hide ExprCode;
    if args != [] {
      var n := |args| - 1;
      ArgsSafe(env, args[..n], at);
      if n < 4 { ExprSafe(env, args[n], n, 0, at + |ArgsCode(env, args[..n], at)|); }
    }
  }

  lemma CallSafe(env: Env, f: string, args: seq<Expr>, at: nat, limit: nat)
    requires GoodEnv(env) && at + |CallCode(env, f, args, at)| <= limit
    ensures SafeCode(CallCode(env, f, args, at), limit)
  {
    hide CallCode; hide SafeCode; hide GoodEnv;
    var t := TypeOfVar(env, f);
    if f in env.types && IsTimerBlock(t) && |args| >= 2 {
      TimerCallSafe(env, f, args, at, limit);
    } else if f in env.types && IsCounterBlock(t) && |args| >= 2 {
      CounterCallSafe(env, f, args, at, limit);
    } else if f in env.types && IsFlipFlop(t) && |args| >= 2 {
      FlipFlopCallSafe(env, f, args, at, limit);
    } else if f in env.types && IsEdgeBlock(t) && |args| >= 1 {
      EdgeCallSafe(env, f, args, at, limit);
    } else {
      PlainCallCode(env, f, args, at);
      PlainCallSafe(env, f, args, at, limit);
    }
  }

  lemma PlainCallCode(env: Env, f: string, args: seq<Expr>, at: nat)
    requires var t := TypeOfVar(env, f);
             f in env.types ==> !((IsTimerBlock(t) || IsCounterBlock(t) || IsFlipFlop(t)) && |args| >= 2) &&
                                !(IsEdgeBlock(t) && |args| >= 1)
    ensures CallCode(env, f, args, at) == ArgsCode(env, args, at) + [CallTo(0)]
  {
    hide ArgsCode; hide ArgCode;
  }

  lemma TimerCallSafe(env: Env, f: string, args: seq<Expr>, at: nat, limit: nat)
    requires GoodEnv(env) && at + |CallCode(env, f, args, at)| <= limit
    requires f in env.types && IsTimerBlock(TypeOfVar(env, f)) && |args| >= 2
    ensures SafeCode(CallCode(env, f, args, at), limit)
  {
    hide ArgCode; hide ArgsCode;
    ArgSafe(env, args[0], 0, at);
  }

  lemma CounterCallSafe(env: Env, f: string, args: seq<Expr>, at: nat, limit: nat)
    requires GoodEnv(env) && at + |CallCode(env, f, args, at)| <= limit
    requires f in env.types && IsCounterBlock(TypeOfVar(env, f)) && |args| >= 2
    ensures SafeCode(CallCode(env, f, args, at), limit)
  {
    hide ArgCode; hide ArgsCode;
    ArgSafe(env, args[0], 0, at);
    if |args| > 2 { ArgSafe(env, args[2], 1, at + |ArgCode(env, args[0], 0, at)|); }
  }

  lemma FlipFlopCallSafe(env: Env, f: string, args: seq<Expr>, at: nat, limit: nat)
    requires GoodEnv(env) && at + |CallCode(env, f, args, at)| <= limit
    requires f in env.types && IsFlipFlop(TypeOfVar(env, f)) && |args| >= 2
    ensures SafeCode(CallCode(env, f, args, at), limit)
  {
    hide ArgCode; hide ArgsCode;
    ArgSafe(env, args[0], 0, at);
    ArgSafe(env, args[1], 1, at + |ArgCode(env, args[0], 0, at)|);
  }

  lemma EdgeCallSafe(env: Env, f: string, args: seq<Expr>, at: nat, limit: nat)
    requires GoodEnv(env) && at + |CallCode(env, f, args, at)| <= limit
    requires f in env.types && IsEdgeBlock(TypeOfVar(env, f)) && |args| >= 1
    ensures SafeCode(CallCode(env, f, args, at), limit)
  {
    hide ArgCode; hide ArgsCode;
    ArgSafe(env, args[0], 0, at);
  }

  lemma PlainCallSafe(env: Env, f: string, args: seq<Expr>, at: nat, limit: nat)
    requires GoodEnv(env) && at + |CallCode(env, f, args, at)| <= limit
    requires CallCode(env, f, args, at) == ArgsCode(env, args, at) + [CallTo(0)]
    ensures SafeCode(CallCode(env, f, args, at), limit)
  {
    hide ArgsCode;
    ArgsSafe(env, args, at);
  }

  // ----- whole programs -----

  /** Like `SafeInstr`, for code that may also return. */
  predicate ValidInstr(inst: Instruction, size: nat) {
    && (forall k :: 0 <= k < |inst.operands| ==> inst.operands[k].Register? ==> inst.operands[k].reg < REGISTER_COUNT)
    && (IsJumping(inst.opcode) ==> JumpTarget(inst.operands).Some? && JumpTarget(inst.operands).value < size)
  }

  predicate ValidCode(code: seq<Instruction>, size: nat) {
    forall i :: 0 <= i < |code| ==> ValidInstr(code[i], size)
  }

  lemma ValidConcat(a: seq<Instruction>, b: seq<Instruction>, m: nat, n: nat, size: nat)
    requires ValidCode(a, m) && ValidCode(b, n) && m <= size && n <= size
    ensures ValidCode(a + b, size)
  {
  }

  lemma SafeIsValid(code: seq<Instruction>, limit: nat, last: Instruction)
    requires SafeCode(code, limit) && ValidInstr(last, limit + 1)
    ensures ValidCode(code + [last], limit + 1)
  {
  }

  lemma NothingValid(size: nat)
    ensures ValidCode([], size)
  {
  }

  lemma {:induction false} FunctionsValid(env: Env, fs: seq<FunctionDef>, at: nat)
    requires GoodEnv(env)
    ensures ValidCode(FunctionsCode(env, fs, at), at + |FunctionsCode(env, fs, at)|)
  {
    hide SeqCode; hide ValidCode; hide SafeCode;
    if fs == [] {
      NothingValid(at);
    } else {
      var n := |fs| - 1;
      var front := FunctionsCode(env, fs[..n], at);
      var body := SeqCode(env, fs[n].body, at + |front|, 0);
      FunctionsValid(env, fs[..n], at);
      SeqSafe(env, fs[n].body, at + |front|, 0, at + |front| + |body|);
      SafeIsValid(body, at + |front| + |body|, RetNone());
      ValidConcat(front, body + [RetNone()], at + |front|, at + |front| + |body| + 1, at + |front| + |body| + 1);
      assert front + (body + [RetNone()]) == FunctionsCode(env, fs, at);
    }
  }

  /** In the code of every program, each jump and call target is the address of an
      instruction and each register operand is below 16. */
  lemma ProgramValid(p: Program)
    requires |p.variables| <= MAX_VAR_REGS
    ensures ValidCode(ProgramCode(EnvOf(p.variables), p), |ProgramCode(EnvOf(p.variables), p)|)
  {
    hide SeqCode; hide ValidCode; hide SafeCode;
    var env := EnvOf(p.variables);
    var body := SeqCode(env, p.body, 0, 0);
    EnvOfGood(p.variables);
    SeqSafe(env, p.body, 0, 0, |body|);
    SafeIsValid(body, |body|, HaltInstr());
    FunctionsValid(env, p.functions, |MainCode(env, p)|);
    ValidConcat(MainCode(env, p), FunctionsCode(env, p.functions, |MainCode(env, p)|),
                |body| + 1, |ProgramCode(env, p)|, |ProgramCode(env, p)|);
  }

  /** What one instruction with existing registers can do to the instruction pointer. */
  predicate StaysPut(out: StepOut, vm: Vm) {
    match out
    case Next(v) => v.ip == vm.ip
    case Halted(_) => false
    case Panic(reason) => reason == ArithmeticPanic
  }

  predicate GoodRegisters(ops: seq<Operand>) {
    forall k :: 0 <= k < |ops| ==> ops[k].Register? ==> ops[k].reg < REGISTER_COUNT
  }

  lemma BlocksStayPut(ops: seq<Operand>, vm: Vm)
    requires GoodRegisters(ops)
    ensures StaysPut(ExecTimerRun(ops, vm), vm) && StaysPut(ExecReadTimer(ops, vm), vm)
    ensures StaysPut(ExecCounterRun(ops, vm), vm) && StaysPut(ExecReadCounter(ops, vm), vm)
    ensures StaysPut(ExecSrRun(ops, vm), vm) && StaysPut(ExecReadSr(ops, vm), vm)
    ensures StaysPut(ExecEdgeRun(ops, vm), vm) && StaysPut(ExecReadEdge(ops, vm), vm)
  {
  }

  lemma MovesStayPut(ops: seq<Operand>, vm: Vm)
    requires GoodRegisters(ops)
    ensures StaysPut(ExecLoad(ops, vm), vm) && StaysPut(ExecStore(ops, vm), vm)
  {
  }

  lemma ArithStaysPut(ops: seq<Operand>, vm: Vm, a: ArithOp, b: BitOp)
    requires GoodRegisters(ops)
    ensures StaysPut(ExecArith(a, ops, vm), vm) && StaysPut(ExecBits(b, ops, vm), vm)
  {
    hide Arith; hide Bitwise;
  }

  lemma UnaryStaysPut(ops: seq<Operand>, vm: Vm, op: Opcode, c: CmpOp)
    requires GoodRegisters(ops)
    ensures StaysPut(ExecUnary(op, ops, vm), vm) && StaysPut(ExecCompare(c, ops, vm), vm)
  {
    hide Compare; hide Negate; hide BitNot;
  }

  lemma DataStaysPut(ops: seq<Operand>, vm: Vm, op: Opcode, a: ArithOp, b: BitOp, c: CmpOp)
    requires GoodRegisters(ops)
    ensures StaysPut(ExecLoad(ops, vm), vm) && StaysPut(ExecStore(ops, vm), vm)
    ensures StaysPut(ExecArith(a, ops, vm), vm) && StaysPut(ExecBits(b, ops, vm), vm)
    ensures StaysPut(ExecUnary(op, ops, vm), vm) && StaysPut(ExecCompare(c, ops, vm), vm)
  {
    hide *;
    MovesStayPut(ops, vm);
    ArithStaysPut(ops, vm, a, b);
    UnaryStaysPut(ops, vm, op, c);
  }

  /** Every instruction that does not transfer control leaves the pointer alone and
      panics only in arithmetic. */
  lemma ExecuteStaysPut(inst: Instruction, vm: Vm)
    requires GoodRegisters(inst.operands)
    requires !IsJumping(inst.opcode) && !inst.opcode.Ret? && !inst.opcode.Halt?
    ensures StaysPut(Execute(inst, vm), vm)
  {
    hide ExecTimerRun; hide ExecReadTimer; hide ExecCounterRun; hide ExecReadCounter;
    hide ExecSrRun; hide ExecReadSr; hide ExecEdgeRun; hide ExecReadEdge;
    hide ExecLoad; hide ExecStore; hide ExecArith; hide ExecBits; hide ExecUnary; hide ExecCompare;
    BlocksStayPut(inst.operands, vm);
    var a := if ArithOf(inst.opcode).Some? then ArithOf(inst.opcode).value else AddOp;
    var b := if BitOf(inst.opcode).Some? then BitOf(inst.opcode).value else AndOp;
    var c := if CmpOf(inst.opcode).Some? then CmpOf(inst.opcode).value else EqOp;
    DataStaysPut(inst.operands, vm, inst.opcode, a, b, c);
  }

  predicate CallFree(code: seq<Instruction>) {
    forall i :: 0 <= i < |code| ==> !code[i].opcode.Call?
  }

  /** Running a call-free program never leaves its main body and never names a register
      that does not exist: the only panic left is arithmetic. */
  lemma {:induction false} RunStaysInside(p: Program, vm: Vm, n: nat)
    requires |p.variables| <= MAX_VAR_REGS
    requires CallFree(MainCode(EnvOf(p.variables), p)) && vm.ip < |MainCode(EnvOf(p.variables), p)|
    ensures var r := Run(ProgramCode(EnvOf(p.variables), p), Next(vm), n);
            match r
            case Next(v) => v.ip < |MainCode(EnvOf(p.variables), p)|
            case Halted(_) => true
            case Panic(reason) => reason == ArithmeticPanic
    decreases n
  {
    hide SeqCode; hide Execute;
    if n > 0 {
      var env := EnvOf(p.variables);
      var main, prog := MainCode(env, p), ProgramCode(env, p);
      EnvOfGood(p.variables);
      SeqSafe(env, p.body, 0, 0, |main| - 1);
      assert prog[vm.ip] == main[vm.ip];
      if !IsJumping(main[vm.ip].opcode) && !main[vm.ip].opcode.Halt? {
        ExecuteStaysPut(main[vm.ip], vm);
      }
      JumpLands(main[vm.ip], vm);
      var next := Step(prog, vm);
      if next.Next? {
        RunStaysInside(p, next.vm, n - 1);
      }
    }
  }

  lemma JumpLands(inst: Instruction, vm: Vm)
    ensures (inst.opcode.Jump? || inst.opcode.JumpIf?) && JumpTarget(inst.operands).Some? ==>
              Execute(inst, vm).Next? &&
              (Execute(inst, vm).vm.ip == JumpTarget(inst.operands).value ||
               (inst.opcode.JumpIf? && Execute(inst, vm).vm.ip == vm.ip + 1))
    ensures inst.opcode.Halt? ==> Execute(inst, vm).Halted?
  {
  }
}
