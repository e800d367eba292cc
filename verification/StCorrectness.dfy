/** Correctness of the ST compiler's code for DINT programs. */
module StCorrectness {
  import opened HalValues
  import opened StAst
  import opened Machine
  import opened StLayout
  import opened StPatch
  import opened StSemantics

  predicate IsDintVar(env: Env, x: string) {
    x in env.regs && x in env.types && env.types[x].TDInt?
  }

  predicate DintExpr(env: Env, e: Expr) {
    match e
    case IntLiteral(_) => true
    case Variable(x) => IsDintVar(env, x)
    case Binary(l, op, r) => IsArith(op) && DintExpr(env, l) && DintExpr(env, r)
    case Unary(UNeg, i) => DintExpr(env, i)
    case _ => false
  }

  function Max(a: nat, b: nat): nat { if a < b then b else a }

  /** Scratch registers needed: the depth of right nesting. */
  function Need(e: Expr): nat {
    match e
    case Binary(l, _, r) => Max(Need(l), Need(r) + 1)
    case Unary(_, i) => Max(Need(i), 1)
    case _ => 0
  }

  /** The registers hold the store. */
  ghost predicate Holds(env: Env, vars: Store, regs: seq<HalValue>) {
    forall x :: IsDintVar(env, x) ==>
      x in vars && IsDint(vars[x]) && env.regs[x] < |regs| && regs[env.regs[x]] == vars[x]
  }

  predicate IsFree(r: nat, d: nat) {
    (r == 14 && d <= 0) || (r == 15 && d <= 1) || (r == 13 && d <= 2)
  }

  /** A destination: a variable's own register, or a scratch register in use. */
  datatype Dest = ToVar(x: string) | ToScratch(k: nat)

  predicate GoodDest(env: Env, t: Dest, d: nat) {
    match t
    case ToVar(x) => IsDintVar(env, x)
    case ToScratch(k) => k < d
  }

  function DestReg(env: Env, t: Dest): nat {
    match t
    case ToVar(x) => RegOf(env, x)
    case ToScratch(k) => Scratch(k)
  }

  function EvalTo(e: Expr, t: Dest, vars: Store): Option<HalValue> {
    if t.ToVar? then EvalInto(e, t.x, vars) else Eval(e, vars)
  }

  /** The store as seen once the destination holds `v`. */
  function StoreAfter(t: Dest, v: HalValue, vars: Store): Store {
    if t.ToVar? then vars[t.x := v] else vars
  }

  lemma {:induction false} EvalIsDint(env: Env, e: Expr, vars: Store)
    requires DintExpr(env, e)
    requires forall x :: IsDintVar(env, x) ==> x in vars && IsDint(vars[x])
    ensures Eval(e, vars).Some? ==> IsDint(Eval(e, vars).value)
  {
    match e
    case Binary(l, op, r) =>
      EvalIsDint(env, l, vars);
      EvalIsDint(env, r, vars);
      var a, b := Eval(l, vars), Eval(r, vars);
      if a.Some? && b.Some? { ArithKeepsDint(OpOf(op), a.value, b.value); }
    case Unary(_, i) =>
      EvalIsDint(env, i, vars);
      if Eval(i, vars).Some? { AddZeroCopies(Eval(i, vars).value); }
    case _ =>
  }

  type Regs = s: seq<HalValue> | |s| == REGISTER_COUNT witness seq(REGISTER_COUNT, _ => S32(0))

  /** `vm` after `n` instructions that changed only registers. */
  function Moved(vm: Vm, regs: Regs, n: nat): Vm {
    vm.(regs := regs, ip := vm.ip + n)
  }

  /** Only `dest` and free scratch registers differ. */
  predicate Preserves(before: Regs, after: Regs, dest: nat, d: nat) {
    forall r :: 0 <= r < REGISTER_COUNT && r != dest && !IsFree(r, d) ==> after[r] == before[r]
  }

  lemma HoldsAfter(env: Env, vars: Store, before: Regs, after: Regs, t: Dest, d: nat, v: HalValue)
    requires GoodEnv(env) && Holds(env, vars, before) && GoodDest(env, t, d) && IsDint(v)
    requires Preserves(before, after, DestReg(env, t), d) && after[DestReg(env, t)] == v
    ensures Holds(env, StoreAfter(t, v, vars), after)
  {
    forall x | IsDintVar(env, x)
      ensures after[env.regs[x]] == StoreAfter(t, v, vars)[x]
    {
      if t != ToVar(x) {
        assert env.regs[x] < MAX_VAR_REGS;
        assert DestReg(env, t) != env.regs[x];
      }
    }
  }

  /** Running `n` instructions from `vm` ends with `v` in the destination, or panics. */
  ghost predicate Yields(prog: seq<Instruction>, vm: Vm, n: nat, dest: nat, d: nat, v: Option<HalValue>, regs: Regs) {
    match v
    case Some(w) =>
      && IsDint(w)
      && Run(prog, Next(vm), n) == Next(Moved(vm, regs, n))
      && dest < REGISTER_COUNT && regs[dest] == w
      && Preserves(vm.regs, regs, dest, d)
    case None => Run(prog, Next(vm), n) == Panic(ArithmeticPanic)
  }

  lemma YieldsStep(prog: seq<Instruction>, vm: Vm, n: nat, mid: Vm, dest: nat, d: nat, v: Option<HalValue>, regs: Regs)
    requires Run(prog, Next(vm), n) == Next(mid) && mid == Moved(vm, mid.regs, n)
    requires v.Some? ==> Step(prog, mid) == Next(Moved(mid, regs, 1)) && IsDint(v.value)
    requires v.Some? ==> dest < REGISTER_COUNT && regs[dest] == v.value && Preserves(vm.regs, regs, dest, d)
    requires v.None? ==> Step(prog, mid) == Panic(ArithmeticPanic)
    ensures Yields(prog, vm, n + 1, dest, d, v, regs)
  {
    hide Step;
    RunSplit(prog, Next(vm), n, 1);
    RunOne(prog, mid);
  }

  lemma YieldsNothing(prog: seq<Instruction>, vm: Vm, m: nat, n: nat, dest: nat, d: nat, regs: Regs)
    requires m <= n && Run(prog, Next(vm), m) == Panic(ArithmeticPanic)
    ensures Yields(prog, vm, n, dest, d, None, regs)
  {
    hide Step;
    RunSplit(prog, Next(vm), m, n - m);
    RunStuck(prog, Panic(ArithmeticPanic), n - m);
  }

  /** Running the code of an expression leaves its value in the destination, changes
      no other variable register and no scratch register in use, and panics exactly
      when the arithmetic does. Every instruction is executed once. */
  lemma {:induction false} ExprRuns(
    prog: seq<Instruction>, env: Env, e: Expr, t: Dest, d: nat, vm: Vm, vars: Store) returns (regs: Regs)
    requires GoodEnv(env) && DintExpr(env, e) && d + Need(e) <= POOL_SIZE
    requires GoodDest(env, t, d) && Holds(env, vars, vm.regs)
    requires CodeAt(prog, vm.ip, ExprCode(env, e, DestReg(env, t), d, vm.ip))
    ensures Yields(prog, vm, |ExprCode(env, e, DestReg(env, t), d, vm.ip)|, DestReg(env, t), d,
                   EvalTo(e, t, vars), regs)
    decreases e
  {
    hide Step; hide Run; hide Arith; hide Negate;
    var dest := DestReg(env, t);
    match e
    case IntLiteral(i) =>
      StepLoadImm(prog, vm, dest, S32(Wrap(I32, i)));
      RunNone(prog, vm);
      regs := vm.regs[dest := S32(Wrap(I32, i))];
      YieldsStep(prog, vm, 0, vm, dest, d, EvalTo(e, t, vars), regs);
    case Variable(x) =>
      regs := CopyRuns(prog, env, x, t, d, vm, vars);
    case Binary(l, op, r) =>
      regs := BinaryRuns(prog, env, l, op, r, t, d, vm, vars);
    case Unary(uop, i) =>
      regs := NegRuns(prog, env, i, t, d, vm, vars);
  }

  lemma NegValue(i: Expr, t: Dest, vars: Store)
    ensures var a := EvalTo(i, t, vars);
            EvalTo(Unary(UNeg, i), t, vars) == if a.Some? then Some(Negate(a.value)) else None
  {
    hide Negate;
  }

  lemma NegCode(env: Env, i: Expr, dest: nat, d: nat, at: nat)
    ensures ExprCode(env, Unary(UNeg, i), dest, d, at) ==
            ExprCode(env, i, dest, d, at) + [LoadImm(Scratch(d), S32(0)), Arith3(Sub, Scratch(d), dest, dest)]
  {
  }

  lemma NegRuns(prog: seq<Instruction>, env: Env, i: Expr, t: Dest, d: nat, vm: Vm, vars: Store) returns (regs: Regs)
    requires GoodEnv(env) && DintExpr(env, i) && d + Max(Need(i), 1) <= POOL_SIZE
    requires GoodDest(env, t, d) && Holds(env, vars, vm.regs)
    requires CodeAt(prog, vm.ip, ExprCode(env, Unary(UNeg, i), DestReg(env, t), d, vm.ip))
    ensures Yields(prog, vm, |ExprCode(env, Unary(UNeg, i), DestReg(env, t), d, vm.ip)|, DestReg(env, t), d,
                   EvalTo(Unary(UNeg, i), t, vars), regs)
    decreases Unary(UNeg, i), 0
  {
    hide Step; hide Run; hide Arith; hide Negate; hide ExprCode; hide Eval; hide EvalInto; hide GoodEnv; hide DintExpr;
    hide Holds; hide EvalTo; hide Yields; hide Preserves;
    var dest := DestReg(env, t);
    var ic := ExprCode(env, i, dest, d, vm.ip);
    var s := Scratch(d);
    NegCode(env, i, dest, d, vm.ip);
    NegValue(i, t, vars);
    CodeAtSplit(prog, vm.ip, ic, [LoadImm(s, S32(0)), Arith3(Sub, s, dest, dest)]);
    var r1 := ExprRuns(prog, env, i, t, d, vm, vars);
    regs := FinishNeg(prog, env, t, d, vm, |ic|, r1, EvalTo(i, t, vars));
  }

  lemma BinaryValue(l: Expr, op: BinOp, r: Expr, t: Dest, vars: Store)
    ensures var a := EvalTo(l, t, vars);
            var b := if a.Some? then Eval(r, StoreAfter(t, a.value, vars)) else None;
            EvalTo(Binary(l, op, r), t, vars) == if a.Some? && b.Some? then Arith(OpOf(op), a.value, b.value) else None
  {
  }

  lemma BinaryRuns(
    prog: seq<Instruction>, env: Env, l: Expr, op: BinOp, r: Expr, t: Dest, d: nat, vm: Vm, vars: Store)
    returns (regs: Regs)
    requires GoodEnv(env) && IsArith(op) && DintExpr(env, l) && DintExpr(env, r)
    requires d + Max(Need(l), Need(r) + 1) <= POOL_SIZE
    requires GoodDest(env, t, d) && Holds(env, vars, vm.regs)
    requires CodeAt(prog, vm.ip, ExprCode(env, Binary(l, op, r), DestReg(env, t), d, vm.ip))
    ensures Yields(prog, vm, |ExprCode(env, Binary(l, op, r), DestReg(env, t), d, vm.ip)|, DestReg(env, t), d,
                   EvalTo(Binary(l, op, r), t, vars), regs)
    decreases Binary(l, op, r), 0
  {
    hide Step; hide Run; hide Arith; hide ExprCode; hide Eval; hide EvalInto; hide GoodEnv; hide DintExpr; hide Holds;
    BinaryCode(env, l, op, r, DestReg(env, t), d, vm.ip);
    BinaryValue(l, op, r, t, vars);
    var dest := DestReg(env, t);
    var lc := ExprCode(env, l, dest, d, vm.ip);
    var rc := ExprCode(env, r, Scratch(d), d + 1, vm.ip + |lc|);
    var oc := [Arith3(ArithOpcode(op), dest, Scratch(d), dest)];
    var a := EvalTo(l, t, vars);
    var vars1 := if a.Some? then StoreAfter(t, a.value, vars) else vars;
    var b := Eval(r, vars1);
    CodeAtSplit(prog, vm.ip, lc + rc, oc);
    CodeAtSplit(prog, vm.ip, lc, rc);
    var r1 := ExprRuns(prog, env, l, t, d, vm, vars);
    if a.None? {
      YieldsNothing(prog, vm, |lc|, |lc| + |rc| + 1, dest, d, r1);
      regs := r1;
    } else {
      var v1 := Moved(vm, r1, |lc|);
      HoldsAfter(env, vars, vm.regs, r1, t, d, a.value);
      var r2 := ExprRuns(prog, env, r, ToScratch(d), d + 1, v1, vars1);
      regs := FinishBinary(prog, env, op, t, d, vm, |lc|, r1, a.value, |rc|, r2, b);
    }
  }

  lemma VariableCode(env: Env, x: string, dest: nat, d: nat, at: nat)
    requires IsDintVar(env, x)
    ensures ExprCode(env, Variable(x), dest, d, at) ==
            if env.regs[x] == dest then [] else [LoadImm(dest, S32(0)), Arith3(Add, env.regs[x], dest, dest)]
  {
  }

  lemma CopyMoves(prog: seq<Instruction>, vm: Vm, src: nat, dest: nat, v: HalValue)
    requires src < REGISTER_COUNT && dest < REGISTER_COUNT && src != dest && IsDint(v) && vm.regs[src] == v
    requires CodeAt(prog, vm.ip, [LoadImm(dest, S32(0)), Arith3(Add, src, dest, dest)])
    ensures Run(prog, Next(vm), 2) == Next(Moved(vm, vm.regs[dest := v], 2))
  {
    hide Step; hide Arith; hide Run;
    CodeAtSplit(prog, vm.ip, [LoadImm(dest, S32(0))], [Arith3(Add, src, dest, dest)]);
    StepLoadImm(prog, vm, dest, S32(0));
    RunOne(prog, vm);
    var v1 := Moved(vm, vm.regs[dest := S32(0)], 1);
    StepArith(prog, v1, Add, src, dest, dest);
    AddZeroCopies(v);
    RunMore(prog, Next(vm), 1, v1);
    assert v1.regs[dest := v] == vm.regs[dest := v];
  }

  lemma CopyRuns(prog: seq<Instruction>, env: Env, x: string, t: Dest, d: nat, vm: Vm, vars: Store) returns (regs: Regs)
    requires GoodEnv(env) && IsDintVar(env, x)
    requires GoodDest(env, t, d) && d <= POOL_SIZE && Holds(env, vars, vm.regs)
    requires CodeAt(prog, vm.ip, ExprCode(env, Variable(x), DestReg(env, t), d, vm.ip))
    ensures Yields(prog, vm, |ExprCode(env, Variable(x), DestReg(env, t), d, vm.ip)|, DestReg(env, t), d,
                   Some(vars[x]), regs)
  {
    hide Step; hide Run; hide ExprCode; hide CodeAt;
    var dest := DestReg(env, t);
    var src := env.regs[x];
    VariableCode(env, x, dest, d, vm.ip);
    assert vm.regs[src] == vars[x] && IsDint(vars[x]);
    hide Holds;
    if src == dest {
      regs := vm.regs;
      RunNone(prog, vm);
    } else {
      regs := vm.regs[dest := vars[x]];
      CopyMoves(prog, vm, src, dest, vars[x]);
    }
  }

  /** Both operands are in place: one arithmetic instruction combines them. */
  lemma FinishBinary(
    prog: seq<Instruction>, env: Env, op: BinOp, t: Dest, d: nat, vm: Vm,
    ln: nat, r1: Regs, a: HalValue, rn: nat, r2: Regs, b: Option<HalValue>) returns (regs: Regs)
    requires GoodEnv(env) && IsArith(op) && GoodDest(env, t, d) && d < POOL_SIZE
    requires Yields(prog, vm, ln, DestReg(env, t), d, Some(a), r1)
    requires Yields(prog, Moved(vm, r1, ln), rn, Scratch(d), d + 1, b, r2)
    requires CodeAt(prog, vm.ip + ln + rn, [Arith3(ArithOpcode(op), DestReg(env, t), Scratch(d), DestReg(env, t))])
    ensures Yields(prog, vm, ln + rn + 1, DestReg(env, t), d,
                   if b.Some? then Arith(OpOf(op), a, b.value) else None, regs)
  {
    hide Step; hide Run; hide Arith;
    var dest := DestReg(env, t);
    var v1 := Moved(vm, r1, ln);
    RunSplit(prog, Next(vm), ln, rn);
    regs := r2;
    if b.None? {
      YieldsNothing(prog, vm, ln + rn, ln + rn + 1, dest, d, regs);
    } else {
      var v2 := Moved(v1, r2, rn);
      assert dest != Scratch(d) && !IsFree(dest, d + 1);
      StepArith(prog, v2, ArithOpcode(op), dest, Scratch(d), dest);
      ArithKeepsDint(OpOf(op), a, b.value);
      var v := Arith(OpOf(op), a, b.value);
      if v.Some? { regs := r2[dest := v.value]; }
      YieldsStep(prog, vm, ln + rn, v2, dest, d, v, regs);
    }
  }

  /** Negation subtracts from a zero loaded into a fresh scratch register. */
  lemma FinishNeg(prog: seq<Instruction>, env: Env, t: Dest, d: nat, vm: Vm, n: nat, r1: Regs, a: Option<HalValue>)
    returns (regs: Regs)
    requires GoodEnv(env) && GoodDest(env, t, d) && d < POOL_SIZE
    requires Yields(prog, vm, n, DestReg(env, t), d, a, r1)
    requires CodeAt(prog, vm.ip + n,
                    [LoadImm(Scratch(d), S32(0)), Arith3(Sub, Scratch(d), DestReg(env, t), DestReg(env, t))])
    ensures Yields(prog, vm, n + 2, DestReg(env, t), d, if a.Some? then Some(Negate(a.value)) else None, regs)
  {
    hide Step; hide Run; hide Arith; hide Negate;
    var dest := DestReg(env, t);
    var s := Scratch(d);
    regs := r1;
    if a.None? {
      YieldsNothing(prog, vm, n, n + 2, dest, d, regs);
    } else {
      CodeAtSplit(prog, vm.ip + n, [LoadImm(s, S32(0))], [Arith3(Sub, s, dest, dest)]);
      var v1 := Moved(vm, r1, n);
      StepLoadImm(prog, v1, s, S32(0));
      RunSplit(prog, Next(vm), n, 1);
      RunOne(prog, v1);
      var v2 := Moved(vm, r1[s := S32(0)], n + 1);
      StepArith(prog, v2, Sub, s, dest, dest);
      AddZeroCopies(a.value);
      regs := v2.regs[dest := Negate(a.value)];
      YieldsStep(prog, vm, n + 1, v2, dest, d, Some(Negate(a.value)), regs);
    }
  }

  // ----- statements -----

  predicate DintComparison(env: Env, c: Expr) {
    && IsComparison(c) && DintExpr(env, c.left) && DintExpr(env, c.right)
    && Need(c.right) + 1 <= POOL_SIZE && Need(c.left) + 2 <= POOL_SIZE
  }

  /** Comparisons, joined and negated. */
  predicate DintCond(env: Env, c: Expr) {
    DintComparison(env, c) ||
    match c
    case Binary(l, op, r) => (op.BAnd? || op.BOr?) && DintCond(env, l) && DintCond(env, r)
    case Unary(uop, i) => uop.UNot? && DintCond(env, i)
    case _ => false
  }

  /** Statements over DINT variables whose expressions fit the scratch pool. */
  predicate DintStmt(env: Env, s: Stmt)
    decreases s
  {
    match s
    case Assign(x, e) => IsDintVar(env, x) && DintExpr(env, e) && Need(e) <= POOL_SIZE
    case If(c, t, e) => DintCond(env, c) && DintSeq(env, t) && DintSeq(env, e)
    case While(c, b) => DintCond(env, c) && DintSeq(env, b)
    case For(x, start, end, step, b) =>
      && IsDintVar(env, x) && DintExpr(env, start) && Need(start) <= POOL_SIZE
      && DintExpr(env, end) && Need(end) + 1 <= POOL_SIZE
      && (step.Some? ==> DintExpr(env, step.value) && Need(step.value) + 1 <= POOL_SIZE)
      && DintSeq(env, b)
    case Repeat(b, c) => DintSeq(env, b) && DintCond(env, c)
    case Case(x, arms, e) => IsDintVar(env, x) && DintArms(env, arms) && DintSeq(env, e)
    case Return => true
    case Exit => true
    case _ => false
  }

  predicate DintSeq(env: Env, ss: seq<Stmt>)
    decreases ss
  {
    ss == [] || (DintSeq(env, ss[..|ss| - 1]) && DintStmt(env, ss[|ss| - 1]))
  }

  predicate DintArms(env: Env, arms: seq<CaseArm>)
    decreases arms
  {
    arms == [] || (DintArms(env, arms[..|arms| - 1]) && DintSeq(env, arms[|arms| - 1].body))
  }

  // ----- every DINT program that compiles fits the scratch pool -----

  predicate DintOperands(env: Env, c: Expr) { IsComparison(c) && DintExpr(env, c.left) && DintExpr(env, c.right) }

  predicate TypedCond(env: Env, c: Expr) {
    DintOperands(env, c) ||
    match c
    case Binary(l, op, r) => (op.BAnd? || op.BOr?) && TypedCond(env, l) && TypedCond(env, r)
    case Unary(uop, i) => uop.UNot? && TypedCond(env, i)
    case _ => false
  }

  /** Statements over DINT variables, their expressions however deep. */
  predicate TypedStmt(env: Env, s: Stmt)
    decreases s
  {
    match s
    case Assign(x, e) => IsDintVar(env, x) && DintExpr(env, e)
    case If(c, t, e) => TypedCond(env, c) && TypedSeq(env, t) && TypedSeq(env, e)
    case While(c, b) => TypedCond(env, c) && TypedSeq(env, b)
    case For(x, start, end, step, b) =>
      && IsDintVar(env, x) && DintExpr(env, start) && DintExpr(env, end)
      && (step.Some? ==> DintExpr(env, step.value))
      && TypedSeq(env, b)
    case Repeat(b, c) => TypedSeq(env, b) && TypedCond(env, c)
    case Case(x, arms, e) => IsDintVar(env, x) && TypedArms(env, arms) && TypedSeq(env, e)
    case Return => true
    case Exit => true
    case _ => false
  }

  predicate TypedSeq(env: Env, ss: seq<Stmt>)
    decreases ss
  {
    ss == [] || (TypedSeq(env, ss[..|ss| - 1]) && TypedStmt(env, ss[|ss| - 1]))
  }

  predicate TypedArms(env: Env, arms: seq<CaseArm>)
    decreases arms
  {
    arms == [] || (TypedArms(env, arms[..|arms| - 1]) && TypedSeq(env, arms[|arms| - 1].body))
  }

  /** A DINT expression compiles if and only if the scratch registers suffice. */
  lemma {:induction false} CompilesIfFits(env: Env, e: Expr, d: nat)
    requires DintExpr(env, e) && d <= POOL_SIZE
    ensures ExprStatus(env, e, d).Fine? <==> d + Need(e) <= POOL_SIZE
  {
    match e
    case Binary(l, op, r) =>
      CompilesIfFits(env, l, d);
      if d < POOL_SIZE { CompilesIfFits(env, r, d + 1); }
    case Unary(_, i) => CompilesIfFits(env, i, d);
    case _ =>
  }

  lemma {:induction false} CompiledCondFits(env: Env, c: Expr)
    requires TypedCond(env, c) && CondStatus(env, c).Fine?
    ensures DintCond(env, c)
  {
    hide ExprStatus; hide DintExpr; hide Need;
    if DintOperands(env, c) {
      CompilesIfFits(env, c.right, 1);
      if ExprStatus(env, c.left, 2).Fine? { CompilesIfFits(env, c.left, 2); }
    } else {
      match c
      case Binary(l, _, r) => CompiledCondFits(env, l); CompiledCondFits(env, r);
      case Unary(_, i) => CompiledCondFits(env, i);
    }
  }

  lemma {:induction false} CompiledStmtFits(env: Env, s: Stmt, inLoop: bool)
    requires TypedStmt(env, s) && StmtStatus(env, s, inLoop).Fine?
    ensures DintStmt(env, s)
    decreases s
  {
    hide ExprStatus; hide DintExpr; hide Need; hide CondStatus; hide TypedCond; hide DintCond; hide ConditionStatus;
    hide AssignStatus; hide ForVariableStatus;
    match s
    case Assign(x, e) => CompilesIfFits(env, e, 0);
    case If(c, t, e) =>
      CompiledCondFits(env, c);
      CompiledSeqFits(env, t, inLoop);
      CompiledSeqFits(env, e, inLoop);
    case While(c, b) =>
      CompiledCondFits(env, c);
      CompiledSeqFits(env, b, true);
    case For(x, start, end, step, b) =>
      CompilesIfFits(env, start, 0);
      CompilesIfFits(env, end, 1);
      if step.Some? { CompilesIfFits(env, step.value, 1); }
      CompiledSeqFits(env, b, true);
    case Repeat(b, c) =>
      CompiledSeqFits(env, b, true);
      CompiledCondFits(env, c);
    case Case(x, arms, e) =>
      CompiledArmsFit(env, arms, inLoop);
      CompiledSeqFits(env, e, inLoop);
    case _ =>
  }

  /** A DINT statement list that compiles is in the domain of the simulation theorem. */
  lemma {:induction false} CompiledSeqFits(env: Env, ss: seq<Stmt>, inLoop: bool)
    requires TypedSeq(env, ss) && SeqStatus(env, ss, inLoop).Fine?
    ensures DintSeq(env, ss)
    decreases ss
  {
    if ss != [] {
      CompiledSeqFits(env, ss[..|ss| - 1], inLoop);
      CompiledStmtFits(env, ss[|ss| - 1], inLoop);
    }
  }

  lemma {:induction false} CompiledArmsFit(env: Env, arms: seq<CaseArm>, inLoop: bool)
    requires TypedArms(env, arms) && ArmsStatus(env, arms, inLoop).Fine?
    ensures DintArms(env, arms)
    decreases arms
  {
    if arms != [] {
      CompiledArmsFit(env, arms[..|arms| - 1], inLoop);
      CompiledSeqFits(env, arms[|arms| - 1].body, inLoop);
    }
  }

  /** The machine agrees with a source state. */
  ghost predicate Matches(env: Env, st: StState, vm: Vm) {
    Holds(env, st.vars, vm.regs) && vm.signals == st.signals
  }

  /** After `n` steps the machine is where the outcome of the source says: at the end of
      the statement, at the loop exit, halted, panicked, or still running when the source is.
      Once a condition or an assignment has strayed nothing is said. */
  ghost predicate Simulates(prog: seq<Instruction>, env: Env, vm: Vm, n: nat, out: Outcome, end: nat, exit: nat,
                            fuel: nat) {
    var r := Run(prog, Next(vm), n);
    match out
    case Normal(st) => r.Next? && r.vm.ip == end && Matches(env, st, r.vm)
    case Exiting(st) => r.Next? && r.vm.ip == exit && Matches(env, st, r.vm)
    case Returned(st) => r.Halted? && Matches(env, st, r.vm)
    case Trapped => r == Panic(ArithmeticPanic)
    case OutOfFuel => r.Next? && n >= fuel
    case Strayed => true
  }

  /** `m` steps lead from `vm` to `mid`. */
  ghost predicate Reaches(prog: seq<Instruction>, vm: Vm, m: nat, mid: Vm) {
    Run(prog, Next(vm), m) == Next(mid)
  }

  lemma ReachesThen(prog: seq<Instruction>, vm: Vm, m: nat, mid: Vm, n: nat, end: Vm)
    requires Reaches(prog, vm, m, mid) && Reaches(prog, mid, n, end)
    ensures Reaches(prog, vm, m + n, end)
  {
    hide Step;
    RunSplit(prog, Next(vm), m, n);
  }

  lemma ReachesStep(prog: seq<Instruction>, vm: Vm, m: nat, mid: Vm, end: Vm)
    requires Reaches(prog, vm, m, mid) && Step(prog, mid) == Next(end)
    ensures Reaches(prog, vm, m + 1, end)
  {
    hide Step;
    RunSplit(prog, Next(vm), m, 1);
    RunOne(prog, mid);
  }

  lemma SimulatesAfter(prog: seq<Instruction>, env: Env, vm: Vm, m: nat, mid: Vm, n: nat,
                       out: Outcome, end: nat, exit: nat, fuel: nat)
    requires GoodEnv(env) && Reaches(prog, vm, m, mid) && Simulates(prog, env, mid, n, out, end, exit, fuel)
    ensures Simulates(prog, env, vm, m + n, out, end, exit, fuel)
  {
    hide Step;
    RunSplit(prog, Next(vm), m, n);
  }

  lemma SimulatesHere(prog: seq<Instruction>, env: Env, vm: Vm, m: nat, mid: Vm, st: StState, end: nat, exit: nat,
                      fuel: nat)
    requires GoodEnv(env) && Reaches(prog, vm, m, mid) && Matches(env, st, mid)
    ensures mid.ip == end ==> Simulates(prog, env, vm, m, Normal(st), end, exit, fuel)
    ensures mid.ip == exit ==> Simulates(prog, env, vm, m, Exiting(st), end, exit, fuel)
    ensures m >= fuel ==> Simulates(prog, env, vm, m, OutOfFuel, end, exit, fuel)
  {
  }

  lemma SimulatesTrap(prog: seq<Instruction>, env: Env, vm: Vm, m: nat, end: nat, exit: nat, fuel: nat)
    requires GoodEnv(env) && Run(prog, Next(vm), m) == Panic(ArithmeticPanic)
    ensures Simulates(prog, env, vm, m, Trapped, end, exit, fuel)
  {
  }

  /** An expression evaluated into a scratch register disturbs no variable. */
  lemma ScratchRuns(prog: seq<Instruction>, env: Env, e: Expr, k: nat, vm: Vm, vars: Store) returns (regs: Regs)
    requires GoodEnv(env) && DintExpr(env, e) && k < POOL_SIZE && k + 1 + Need(e) <= POOL_SIZE &&
             Holds(env, vars, vm.regs)
    requires CodeAt(prog, vm.ip, ExprCode(env, e, Scratch(k), k + 1, vm.ip))
    ensures var n := |ExprCode(env, e, Scratch(k), k + 1, vm.ip)|;
            match Eval(e, vars)
            case Some(v) =>
              && Reaches(prog, vm, n, Moved(vm, regs, n)) && Holds(env, vars, regs)
              && regs[Scratch(k)] == v && IsDint(v)
              && (forall j :: 0 <= j < k ==> regs[Scratch(j)] == vm.regs[Scratch(j)])
            case None => Run(prog, Next(vm), n) == Panic(ArithmeticPanic)
  {
    hide Run; hide ExprCode; hide Eval;
    regs := ExprRuns(prog, env, e, ToScratch(k), k + 1, vm, vars);
    if Eval(e, vars).Some? {
      HoldsAfter(env, vars, vm.regs, regs, ToScratch(k), k + 1, Eval(e, vars).value);
    }
  }

  /** A comparison ends at its jump's target when it holds and behind the jump otherwise. */
  lemma ComparisonRuns(prog: seq<Instruction>, env: Env, c: Expr, vm: Vm, vars: Store, t: nat, e: nat) returns (mid: Vm)
    requires GoodEnv(env) && DintComparison(env, c) && Holds(env, vars, vm.regs)
    requires CodeAt(prog, vm.ip, CondCode(env, c, vm.ip, t, e))
    ensures var n := |CondCode(env, c, vm.ip, t, e)|;
            match EvalCond(c, vars)
            case Some(b) =>
              && n > 0 && Reaches(prog, vm, n, mid) && mid.ip == (if b then t else vm.ip + n)
              && Holds(env, vars, mid.regs) && mid.signals == vm.signals
            case None => Run(prog, Next(vm), n) == Panic(ArithmeticPanic)
  {
    hide Run; hide ExprCode; hide Eval; hide Step; hide Compare;
    mid := vm;
    var cc := CompareCode(env, c, 0, vm.ip);
    assert CondCode(env, c, vm.ip, t, e) == cc + [JumpIfTo(t)];
    CodeAtSplit(prog, vm.ip, cc, [JumpIfTo(t)]);
    var v3 := OperandsCompared(prog, env, c, 0, vm, vars);
    if EvalCond(c, vars).None? {
      PanicStays(prog, vm, |cc|, 1);
    } else {
      StepJumpIf(prog, v3, t);
      mid := v3.(ip := if v3.flag then t else v3.ip + 1);
      ReachesStep(prog, vm, |cc|, v3, mid);
    }
  }

  /** The code of a comparison, with `d` scratch registers in use, leaves its value in the flag. */
  lemma OperandsCompared(prog: seq<Instruction>, env: Env, c: Expr, d: nat, vm: Vm, vars: Store) returns (end: Vm)
    requires GoodEnv(env) && IsComparison(c) && DintExpr(env, c.left) && DintExpr(env, c.right)
    requires d + Need(c.right) + 1 <= POOL_SIZE && d + Need(c.left) + 2 <= POOL_SIZE && Holds(env, vars, vm.regs)
    requires CodeAt(prog, vm.ip, CompareCode(env, c, d, vm.ip))
    ensures var n := |CompareCode(env, c, d, vm.ip)|;
            match EvalCond(c, vars)
            case Some(b) =>
              && Reaches(prog, vm, n, end) && end.ip == vm.ip + n && end.flag == b
              && Holds(env, vars, end.regs) && end.signals == vm.signals && end.callStack == vm.callStack
            case None => Run(prog, Next(vm), n) == Panic(ArithmeticPanic)
  {
    hide Run; hide ExprCode; hide Eval; hide Step; hide Compare; hide Holds; hide GoodEnv; hide DintExpr; hide CodeAt;
    end := vm;
    var rc := ExprCode(env, c.right, Scratch(d), d + 1, vm.ip);
    var lc := ExprCode(env, c.left, Scratch(d + 1), d + 2, vm.ip + |rc|);
    var tc := [Cmp2(CmpOpcode(c.op), Scratch(d + 1), Scratch(d))];
    assert CompareCode(env, c, d, vm.ip) == rc + lc + tc;
    CodeAtSplit(prog, vm.ip, rc + lc, tc);
    CodeAtSplit(prog, vm.ip, rc, lc);
    var r1 := ScratchRuns(prog, env, c.right, d, vm, vars);
    if Eval(c.right, vars).None? {
      PanicStays(prog, vm, |rc|, |lc| + 1);
      return;
    }
    var v1 := Moved(vm, r1, |rc|);
    var r2 := ScratchRuns(prog, env, c.left, d + 1, v1, vars);
    if Eval(c.left, vars).None? {
      PanicAfter(prog, vm, |rc|, v1, |lc|);
      PanicStays(prog, vm, |rc| + |lc|, 1);
      return;
    }
    var v2 := Moved(v1, r2, |lc|);
    ReachesThen(prog, vm, |rc|, v1, |lc|, v2);
    StepCompare(prog, v2, CmpOpcode(c.op), Scratch(d + 1), Scratch(d));
    assert r2[Scratch(d)] == r1[Scratch(d)];
    end := v2.(flag := Compare(CmpOpOf(c.op), r2[Scratch(d + 1)], r2[Scratch(d)]), ip := v2.ip + 1);
    ReachesStep(prog, vm, |rc| + |lc|, v2, end);
  }

  /** Where a condition's code is after some steps. */
  ghost predicate GoesOn(prog: seq<Instruction>, env: Env, vm: Vm, n: nat, mid: Vm, vars: Store, w: Option<Way>,
                         t: nat, e: nat, end: nat) {
    match w
    case None => Run(prog, Next(vm), n) == Panic(ArithmeticPanic)
    case Some(way) =>
      && n > 0 && Reaches(prog, vm, n, mid) && Holds(env, vars, mid.regs) && mid.signals == vm.signals
      && mid.ip == match way case ToElse => t case ToEnd => e case Through => end
  }

  lemma GoesOnAfter(prog: seq<Instruction>, env: Env, vm: Vm, m: nat, mid: Vm, n: nat, last: Vm, vars: Store,
                    w: Option<Way>,
                    t: nat, e: nat, end: nat)
    requires Reaches(prog, vm, m, mid) && mid.signals == vm.signals &&
             GoesOn(prog, env, mid, n, last, vars, w, t, e, end)
    ensures GoesOn(prog, env, vm, m + n, last, vars, w, t, e, end)
  {
    hide Step; hide Run; hide Holds;
    if w.None? { PanicAfter(prog, vm, m, mid, n); } else { ReachesThen(prog, vm, m, mid, n, last); }
  }

  /** The code of a condition goes the way that its comparisons lead: AND, OR and NOT only
      decide which jumps go where. */
  lemma {:induction false} CondRuns(prog: seq<Instruction>, env: Env, c: Expr, vm: Vm, vars: Store, t: nat, e: nat)
    returns (n: nat, mid: Vm)
    requires GoodEnv(env) && DintCond(env, c) && Holds(env, vars, vm.regs)
    requires CodeAt(prog, vm.ip, CondCode(env, c, vm.ip, t, e))
    ensures GoesOn(prog, env, vm, n, mid, vars, CondWay(c, vars), t, e, vm.ip + |CondCode(env, c, vm.ip, t, e)|)
    decreases c
  {
    hide Run; hide Step; hide ExprCode; hide Holds; hide GoodEnv; hide DintComparison; hide CodeAt;
    if DintComparison(env, c) {
      mid := ComparisonRuns(prog, env, c, vm, vars, t, e);
      n := |CondCode(env, c, vm.ip, t, e)|;
      ComparisonWay(env, c, vars);
    } else if c.Unary? {
      n, mid := CondRuns(prog, env, c.inner, vm, vars, e, t);
    } else if c.op.BAnd? {
      n, mid := AndRuns(prog, env, c, vm, vars, t, e);
    } else {
      n, mid := OrRuns(prog, env, c, vm, vars, t, e);
    }
  }

  lemma ComparisonWay(env: Env, c: Expr, vars: Store)
    requires DintComparison(env, c)
    ensures CondWay(c, vars) ==
            match EvalCond(c, vars) case Some(b) => Some(if b then ToElse else Through) case None => None
  {
  }

  lemma AndRuns(prog: seq<Instruction>, env: Env, c: Expr, vm: Vm, vars: Store, t: nat, e: nat)
    returns (n: nat, mid: Vm)
    requires c.Binary? && c.op.BAnd? && DintCond(env, c.left) && DintCond(env, c.right)
    requires GoodEnv(env) && Holds(env, vars, vm.regs) && CodeAt(prog, vm.ip, CondCode(env, c, vm.ip, t, e))
    ensures GoesOn(prog, env, vm, n, mid, vars, CondWay(c, vars), t, e, vm.ip + |CondCode(env, c, vm.ip, t, e)|)
    decreases c, 0
  {
    hide Run; hide Step; hide Holds; hide GoodEnv; hide CodeAt; hide DintCond;
    var lc := CondCode(env, c.left, vm.ip, t, e);
    var rc := CondCode(env, c.right, vm.ip + |lc|, t, e);
    assert CondCode(env, c, vm.ip, t, e) == lc + rc;
    hide CondCode;
    CodeAtSplit(prog, vm.ip, lc, rc);
    n, mid := CondRuns(prog, env, c.left, vm, vars, t, e);
    if CondWay(c.left, vars) == Some(Through) {
      var k, m := CondRuns(prog, env, c.right, mid, vars, t, e);
      GoesOnAfter(prog, env, vm, n, mid, k, m, vars, CondWay(c.right, vars), t, e, vm.ip + |lc| + |rc|);
      n, mid := n + k, m;
    }
  }

  lemma OrRuns(prog: seq<Instruction>, env: Env, c: Expr, vm: Vm, vars: Store, t: nat, e: nat)
    returns (n: nat, mid: Vm)
    requires c.Binary? && c.op.BOr? && DintCond(env, c.left) && DintCond(env, c.right)
    requires GoodEnv(env) && Holds(env, vars, vm.regs) && CodeAt(prog, vm.ip, CondCode(env, c, vm.ip, t, e))
    ensures GoesOn(prog, env, vm, n, mid, vars, CondWay(c, vars), t, e, vm.ip + |CondCode(env, c, vm.ip, t, e)|)
    decreases c, 0
  {
    hide Run; hide Step; hide Holds; hide GoodEnv; hide CodeAt; hide DintCond;
    var k := |CondCode(env, c.left, vm.ip, 0, 0)|;
    var rightAt := vm.ip + k + 1;
    var lc := CondCode(env, c.left, vm.ip, rightAt, e);
    var rc := CondCode(env, c.right, rightAt, t, e);
    assert CondCode(env, c, vm.ip, t, e) == lc + [JumpTo(e)] + rc;
    hide CondCode;
    CondLength(env, c.left, vm.ip, rightAt, e);
    CodeAtSplit(prog, vm.ip, lc + [JumpTo(e)], rc);
    CodeAtSplit(prog, vm.ip, lc, [JumpTo(e)]);
    n, mid := CondRuns(prog, env, c.left, vm, vars, rightAt, e);
    var w := CondWay(c.left, vars);
    if w == Some(ToElse) {
      var j, m := CondRuns(prog, env, c.right, mid, vars, t, e);
      GoesOnAfter(prog, env, vm, n, mid, j, m, vars, CondWay(c.right, vars), t, e, rightAt + |rc|);
      n, mid := n + j, m;
    } else if w == Some(Through) {
      StepJump(prog, mid, e);
      ReachesStep(prog, vm, n, mid, mid.(ip := e));
      n, mid := n + 1, mid.(ip := e);
    }
  }

  // ----- comparisons as values, and copies -----

  /** A comparison computed into a register leaves its negation there: the load of TRUE is
      skipped when it holds. */
  lemma ComparisonValueIsNegated(prog: seq<Instruction>, env: Env, c: Expr, dest: nat, d: nat, vm: Vm, vars: Store)
    returns (n: nat, end: Vm)
    requires GoodEnv(env) && IsComparison(c) && DintExpr(env, c.left) && DintExpr(env, c.right) && dest < REGISTER_COUNT
    requires d + Need(c.right) + 1 <= POOL_SIZE && d + Need(c.left) + 2 <= POOL_SIZE && Holds(env, vars, vm.regs)
    requires CodeAt(prog, vm.ip, ExprCode(env, c, dest, d, vm.ip))
    ensures match EvalCond(c, vars)
            case Some(b) =>
              && Reaches(prog, vm, n, end) && end.ip == vm.ip + |ExprCode(env, c, dest, d, vm.ip)|
              && end.regs[dest] == Bool(!b) && end.signals == vm.signals
            case None => Run(prog, Next(vm), n) == Panic(ArithmeticPanic)
  {
    hide Run; hide Step; hide EvalCond;
    var cc := CompareCode(env, c, d, vm.ip);
    var a, j, b := LoadImm(dest, Bool(false)), JumpIfTo(vm.ip + |cc| + 3), LoadImm(dest, Bool(true));
    CompareValueCode(env, c, dest, d, vm.ip);
    hide ExprCode; hide CompareCode;
    CodeAtSplit(prog, vm.ip, cc + [a] + [j], [b]);
    CodeAtSplit(prog, vm.ip, cc + [a], [j]);
    CodeAtSplit(prog, vm.ip, cc, [a]);
    end := OperandsCompared(prog, env, c, d, vm, vars);
    n := |cc|;
    if EvalCond(c, vars).Some? {
      StepLoadImm(prog, end, dest, Bool(false));
      var v1: Vm := end.(regs := end.regs[dest := Bool(false)], ip := end.ip + 1);
      ReachesStep(prog, vm, n, end, v1);
      StepJumpIf(prog, v1, vm.ip + |cc| + 3);
      var v2: Vm := v1.(ip := if v1.flag then vm.ip + |cc| + 3 else v1.ip + 1);
      ReachesStep(prog, vm, n + 1, v1, v2);
      n, end := n + 2, v2;
      if !v2.flag {
        StepLoadImm(prog, v2, dest, Bool(true));
        end := v2.(regs := v2.regs[dest := Bool(true)], ip := v2.ip + 1);
        ReachesStep(prog, vm, n, v2, end);
        n := n + 1;
      }
    }
  }

  /** The value `v` is a number of the type of the zero `z`. */
  predicate SameNumberType(v: HalValue, z: HalValue) {
    (v.Int? && z.Int? && v.ity == z.ity) || (v.Float? && z.Float? && v.fty == z.fty)
  }

  /** Copying a variable adds its value to the zero of its declared type. The copy has the
      value if and only if the register holds a number of that type, or the DINT zero that
      every other sum gives. A BOOL is never copied. */
  lemma CopyExactly(prog: seq<Instruction>, env: Env, x: string, dest: nat, d: nat, vm: Vm)
    requires GoodEnv(env) && x in env.regs && dest < REGISTER_COUNT && dest != RegOf(env, x)
    requires vm.regs[RegOf(env, x)].Int? ==> InRange(vm.regs[RegOf(env, x)].ity, vm.regs[RegOf(env, x)].n)
    requires CodeAt(prog, vm.ip, ExprCode(env, Variable(x), dest, d, vm.ip))
    ensures var v, out := vm.regs[RegOf(env, x)], Run(prog, Next(vm), 2);
            && out.Next? && out.vm.ip == vm.ip + 2
            && (out.vm.regs[dest] == v <==> SameNumberType(v, ZeroOfType(TypeOfVar(env, x))) || v == S32(0))
            && (TypeOfVar(env, x).TBool? && v.Bool? ==> out.vm.regs[dest] == S32(0))
  {
    hide Run; hide Step; hide Wrap;
    var src, z := RegOf(env, x), ZeroOfType(TypeOfVar(env, x));
    CodeAtSplit(prog, vm.ip, [LoadImm(dest, z)], [Arith3(Add, src, dest, dest)]);
    StepLoadImm(prog, vm, dest, z);
    RunOne(prog, vm);
    var v1: Vm := vm.(regs := vm.regs[dest := z], ip := vm.ip + 1);
    hide ZeroOfType;
    ZeroIsZero(TypeOfVar(env, x));
    StepArith(prog, v1, Add, src, dest, dest);
    RunOne(prog, v1);
    RunSplit(prog, Next(vm), 1, 1);
  }

  lemma ZeroIsZero(t: VarType)
    ensures var z := ZeroOfType(t);
            && (z.Int? ==> z.n == 0) && (z.Float? ==> z.r == 0.0) && (t.TBool? ==> z.Bool?)
  {
  }

  lemma PanicStays(prog: seq<Instruction>, vm: Vm, m: nat, n: nat)
    requires Run(prog, Next(vm), m) == Panic(ArithmeticPanic)
    ensures Run(prog, Next(vm), m + n) == Panic(ArithmeticPanic)
  {
    hide Step;
    RunSplit(prog, Next(vm), m, n);
    RunStuck(prog, Panic(ArithmeticPanic), n);
  }

  lemma PanicAfter(prog: seq<Instruction>, vm: Vm, m: nat, mid: Vm, n: nat)
    requires Reaches(prog, vm, m, mid) && Run(prog, Next(mid), n) == Panic(ArithmeticPanic)
    ensures Run(prog, Next(vm), m + n) == Panic(ArithmeticPanic)
  {
    hide Step;
    RunSplit(prog, Next(vm), m, n);
  }
}
