/** Boolean values in Structured Text: the code of expressions over literals, block outputs and
    the assigned variable itself, run on the machine, as values and as conditions. */
module StLogic {
  import opened HalValues
  import opened StAst
  import opened Machine
  import opened StLayout
  import opened StCorrectness
  import FB = FunctionBlocks

  // ----- the blocks' states; one that was never run is new -----

  /** The kind and the preset of a timer are given anew by every call; the kind is left aside. */
  function AsTon(t: FB.TimerState): FB.TimerState { t.(kind := FB.Ton) }

  function AsSr(s: FB.SrState): FB.SrState { s.(kind := FB.Sr) }

  function TimerAt(vm: Vm, i: nat): FB.TimerState {
    if i < |vm.timers| then AsTon(vm.timers[i]) else FB.NewTimer(FB.Ton)
  }

  function SrAt(vm: Vm, i: nat): FB.SrState { if i < |vm.srs| then AsSr(vm.srs[i]) else FB.NewSr(FB.Sr) }

  function EdgeAt(vm: Vm, i: nat): FB.EdgeState { if i < |vm.edges| then vm.edges[i] else FB.NewEdge() }

  function CounterAt(vm: Vm, i: nat): FB.CounterState {
    if i < |vm.counters| then vm.counters[i] else FB.NewCounter()
  }

  ghost predicate SameStates(a: Vm, b: Vm) {
    && (forall i: nat :: TimerAt(a, i) == TimerAt(b, i))
    && (forall i: nat :: SrAt(a, i) == SrAt(b, i))
    && (forall i: nat :: EdgeAt(a, i) == EdgeAt(b, i))
    && (forall i: nat :: CounterAt(a, i) == CounterAt(b, i))
  }

  predicate SameRest(a: Vm, b: Vm) {
    a.signals == b.signals && a.callStack == b.callStack && a.cycleTime == b.cycleTime
  }

  // ----- what an expression says -----

  predicate HasOutput(t: VarType) {
    t.TTon? || t.TTof? || t.TTp? || t.TSr? || t.TRs? || t.TRTrig? || t.TFTrig?
  }

  /** Literals and block outputs under AND, OR, XOR and NOT; leftmost also the variable `own`. */
  predicate Logical(env: Env, e: Expr, own: Option<string>) {
    match e
    case BoolLiteral(_) => true
    case Variable(x) => own == Some(x) && x in env.regs
    case FieldAccess(x, _) => x in env.regs && x in env.types && HasOutput(env.types[x])
    case Binary(l, op, r) => (op.BAnd? || op.BOr? || op.BXor?) && Logical(env, l, own) && Logical(env, r, None)
    case Unary(u, i) => u.UNot? && Logical(env, i, own)
    case _ => false
  }

  /** Q2 names the second output of a flip-flop; every other field is the output. */
  predicate Output(env: Env, x: string, field: string, vm: Vm) {
    match TypeOfVar(env, x)
    case TTon => TimerAt(vm, RegOf(env, x)).q
    case TTof => TimerAt(vm, RegOf(env, x)).q
    case TTp => TimerAt(vm, RegOf(env, x)).q
    case TSr => if field == "Q2" then SrAt(vm, RegOf(env, x)).q2 else SrAt(vm, RegOf(env, x)).q1
    case TRs => if field == "Q2" then SrAt(vm, RegOf(env, x)).q2 else SrAt(vm, RegOf(env, x)).q1
    case _ => EdgeAt(vm, RegOf(env, x)).q
  }

  predicate Truth(env: Env, e: Expr, vm: Vm) {
    match e
    case BoolLiteral(b) => b
    case Variable(x) => RegOf(env, x) < REGISTER_COUNT && vm.regs[RegOf(env, x)] == Bool(true)
    case FieldAccess(x, f) => Output(env, x, f, vm)
    case Binary(l, BAnd, r) => Truth(env, l, vm) && Truth(env, r, vm)
    case Binary(l, BOr, r) => Truth(env, l, vm) || Truth(env, r, vm)
    case Binary(l, _, r) => Truth(env, l, vm) != Truth(env, r, vm)
    case Unary(_, i) => !Truth(env, i, vm)
    case _ => false
  }

  lemma {:induction false} TruthKept(env: Env, e: Expr, a: Vm, b: Vm)
    requires Logical(env, e, None) && SameStates(a, b)
    ensures Truth(env, e, a) == Truth(env, e, b)
  {
    match e
    case Binary(l, _, r) => TruthKept(env, l, a, b); TruthKept(env, r, a, b);
    case Unary(_, i) => TruthKept(env, i, a, b);
    case _ =>
  }

  // ----- reading one output -----

  lemma StepReadTimer(prog: seq<Instruction>, vm: Vm, i: nat, dest: nat, s: nat)
    requires CodeAt(prog, vm.ip, [ReadTwo(ReadTimer, i, dest, s)]) && dest < REGISTER_COUNT && s < REGISTER_COUNT
    requires dest != s
    ensures var out := Step(prog, vm);
            && out.Next? && out.vm.ip == vm.ip + 1 && SameRest(vm, out.vm) && SameStates(vm, out.vm)
            && out.vm.regs[dest] == Bool(TimerAt(vm, i).q)
            && (forall r :: 0 <= r < REGISTER_COUNT && r != dest && r != s ==> out.vm.regs[r] == vm.regs[r])
  {
    assert prog[vm.ip] == prog[vm.ip..vm.ip + 1][0];
    var ops := prog[vm.ip].operands;
    assert ops[0..] == ops && U32Operand(ops, 0) == Some(i);
    assert Step(prog, vm) == AdvanceIp(ExecReadTimer(ops, vm));
  }

  lemma StepReadSr(prog: seq<Instruction>, vm: Vm, i: nat, p: nat, q: nat)
    requires CodeAt(prog, vm.ip, [ReadTwo(ReadSr, i, p, q)]) && p < REGISTER_COUNT && q < REGISTER_COUNT && p != q
    ensures var out := Step(prog, vm);
            && out.Next? && out.vm.ip == vm.ip + 1 && SameRest(vm, out.vm) && SameStates(vm, out.vm)
            && out.vm.regs[p] == Bool(SrAt(vm, i).q1) && out.vm.regs[q] == Bool(SrAt(vm, i).q2)
            && (forall r :: 0 <= r < REGISTER_COUNT && r != p && r != q ==> out.vm.regs[r] == vm.regs[r])
  {
    assert prog[vm.ip] == prog[vm.ip..vm.ip + 1][0];
    var ops := prog[vm.ip].operands;
    assert ops[0..] == ops && U32Operand(ops, 0) == Some(i);
    assert Step(prog, vm) == AdvanceIp(ExecReadSr(ops, vm));
  }

  lemma StepReadEdge(prog: seq<Instruction>, vm: Vm, i: nat, dest: nat)
    requires dest < REGISTER_COUNT
    requires CodeAt(prog, vm.ip, [Instruction(ReadEdge, [Immediate(IntU32(i)), Register(dest)])])
    ensures var out := Step(prog, vm);
            && out.Next? && out.vm.ip == vm.ip + 1 && SameRest(vm, out.vm) && SameStates(vm, out.vm)
            && out.vm.regs[dest] == Bool(EdgeAt(vm, i).q)
            && (forall r :: 0 <= r < REGISTER_COUNT && r != dest ==> out.vm.regs[r] == vm.regs[r])
  {
    assert prog[vm.ip] == prog[vm.ip..vm.ip + 1][0];
    var ops := prog[vm.ip].operands;
    assert ops[0..] == ops && U32Operand(ops, 0) == Some(i);
    assert Step(prog, vm) == AdvanceIp(ExecReadEdge(ops, vm));
  }

  // ----- expressions -----

  /** `v` is in register `dest` after exactly `n` instructions; nothing else has changed but the
      flag, free scratch registers, and tables grown by new blocks. */
  ghost predicate Leaves(prog: seq<Instruction>, vm: Vm, n: nat, dest: nat, d: nat, v: bool, out: Vm) {
    && Run(prog, Next(vm), n) == Next(out) && out.ip == vm.ip + n
    && dest < REGISTER_COUNT && out.regs[dest] == Bool(v) && Preserves(vm.regs, out.regs, dest, d)
    && SameRest(vm, out) && SameStates(vm, out)
  }

  /** The destination is the variable's register, or a scratch register in use. */
  predicate Fits(env: Env, own: Option<string>, dest: nat, d: nat, vm: Vm) {
    && dest < REGISTER_COUNT && !IsFree(dest, d) && d <= POOL_SIZE
    && (own.Some? ==> dest == RegOf(env, own.value) && vm.regs[dest].Bool?)
  }

  /** Boolean expressions leave the truth value in their destination. */
  lemma {:induction false} LogicalRuns(prog: seq<Instruction>, env: Env, e: Expr, own: Option<string>, dest: nat,
                                       d: nat, vm: Vm) returns (out: Vm)
    requires GoodEnv(env) && Logical(env, e, own) && ExprStatus(env, e, d).Fine? && Fits(env, own, dest, d, vm)
    requires CodeAt(prog, vm.ip, ExprCode(env, e, dest, d, vm.ip))
    ensures Leaves(prog, vm, |ExprCode(env, e, dest, d, vm.ip)|, dest, d, Truth(env, e, vm), out)
    decreases e, 1
  {
    hide Step; hide Run; hide SameStates; hide CodeAt;
    match e
    case BoolLiteral(b) =>
      StepLoadImm(prog, vm, dest, Bool(b));
      RunOne(prog, vm);
      out := vm.(regs := vm.regs[dest := Bool(b)], ip := vm.ip + 1);
      assert SameStates(vm, out) by { TablesAlike(vm, out); }
    case Variable(x) =>
      RunNone(prog, vm);
      out := vm;
      assert SameStates(vm, out) by { TablesAlike(vm, out); }
    case FieldAccess(x, f) => out := FieldRuns(prog, env, x, f, dest, d, vm);
    case Binary(l, op, r) => out := JoinRuns(prog, env, l, op, r, own, dest, d, vm);
    case Unary(_, i) => out := NotRuns(prog, env, i, own, dest, d, vm);
  }

  lemma TablesAlike(a: Vm, b: Vm)
    requires a.timers == b.timers && a.srs == b.srs && a.edges == b.edges && a.counters == b.counters
    ensures SameStates(a, b)
  {
  }

  lemma SameTrans(a: Vm, b: Vm, c: Vm)
    requires SameStates(a, b) && SameStates(b, c)
    ensures SameStates(a, c)
  {
    hide TimerAt; hide SrAt; hide EdgeAt; hide CounterAt;
  }

  lemma FieldCode(env: Env, x: string, f: string, dest: nat, d: nat, at: nat)
    requires Logical(env, FieldAccess(x, f), None) && ExprStatus(env, FieldAccess(x, f), d).Fine?
    ensures var t, reg, code := TypeOfVar(env, x), RegOf(env, x), ExprCode(env, FieldAccess(x, f), dest, d, at);
            && (t.TSr? || t.TRs? ==>
                  && d < POOL_SIZE
                  && code == [if f == "Q2" then ReadTwo(ReadSr, reg, Scratch(d), dest)
                              else ReadTwo(ReadSr, reg, dest, Scratch(d))])
            && (t.TRTrig? || t.TFTrig? ==> code == [Instruction(ReadEdge, [Immediate(IntU32(reg)), Register(dest)])])
            && (t.TTon? || t.TTof? || t.TTp? ==> d < POOL_SIZE && code == [ReadTwo(ReadTimer, reg, dest, Scratch(d))])
  {
  }

  lemma OtherThanScratch(dest: nat, d: nat)
    requires d < POOL_SIZE && !IsFree(dest, d)
    ensures dest != Scratch(d) && Scratch(d) < REGISTER_COUNT && IsFree(Scratch(d), d) && !IsFree(dest, d + 1)
    ensures !IsFree(Scratch(d), d + 1)
  {
  }

  lemma FieldRuns(prog: seq<Instruction>, env: Env, x: string, f: string, dest: nat, d: nat, vm: Vm) returns (out: Vm)
    requires GoodEnv(env) && Logical(env, FieldAccess(x, f), None) && ExprStatus(env, FieldAccess(x, f), d).Fine?
    requires Fits(env, None, dest, d, vm) && CodeAt(prog, vm.ip, ExprCode(env, FieldAccess(x, f), dest, d, vm.ip))
    ensures Leaves(prog, vm, |ExprCode(env, FieldAccess(x, f), dest, d, vm.ip)|, dest, d,
                   Truth(env, FieldAccess(x, f), vm), out)
  {
    hide Step; hide Run; hide SameStates; hide CodeAt; hide TimerAt; hide SrAt; hide EdgeAt; hide CounterAt;
    hide ExprCode; hide ExprStatus; hide IsFree; hide Scratch; hide SameRest;
    FieldCode(env, x, f, dest, d, vm.ip);
    var t, reg := TypeOfVar(env, x), RegOf(env, x);
    if d < POOL_SIZE { OtherThanScratch(dest, d); }
    if t.TSr? || t.TRs? {
      if f == "Q2" {
        StepReadSr(prog, vm, reg, Scratch(d), dest);
      } else {
        StepReadSr(prog, vm, reg, dest, Scratch(d));
      }
    } else if t.TRTrig? || t.TFTrig? {
      StepReadEdge(prog, vm, reg, dest);
    } else {
      StepReadTimer(prog, vm, reg, dest, Scratch(d));
    }
    RunOne(prog, vm);
    out := Step(prog, vm).vm;
  }

  lemma LogicCodeIs(env: Env, l: Expr, op: BinOp, r: Expr, dest: nat, d: nat, at: nat)
    requires op.BAnd? || op.BOr? || op.BXor?
    ensures var lc := ExprCode(env, l, dest, d + 1, at);
            var rc := ExprCode(env, r, Scratch(d), d + 1, at + |lc|);
            ExprCode(env, Binary(l, op, r), dest, d, at) ==
            lc + rc + [Arith3(if op.BAnd? then And else if op.BOr? then Or else Xor, dest, Scratch(d), dest)]
    ensures ExprStatus(env, Binary(l, op, r), d) ==
            Then(Alloc(d), Then(ExprStatus(env, l, d + 1), ExprStatus(env, r, d + 1)))
  {
    LogicCode(env, l, op, r, dest, d, at);
  }

  lemma JoinRuns(prog: seq<Instruction>, env: Env, l: Expr, op: BinOp, r: Expr, own: Option<string>, dest: nat, d: nat,
                 vm: Vm) returns (out: Vm)
    requires var e := Binary(l, op, r);
             && GoodEnv(env) && Logical(env, e, own) && ExprStatus(env, e, d).Fine? && Fits(env, own, dest, d, vm)
             && CodeAt(prog, vm.ip, ExprCode(env, e, dest, d, vm.ip))
    ensures Leaves(prog, vm, |ExprCode(env, Binary(l, op, r), dest, d, vm.ip)|, dest, d,
                   Truth(env, Binary(l, op, r), vm), out)
    decreases Binary(l, op, r), 0
  {
    hide Step; hide Run; hide SameStates; hide CodeAt; hide ExprCode; hide ExprStatus; hide Bitwise; hide GoodEnv;
    hide IsFree; hide Scratch; hide SameRest; hide Preserves; hide BitOf; hide Truth; hide Logical;
    LogicalParts(env, l, op, r, own, vm);
    LogicCodeIs(env, l, op, r, dest, d, vm.ip);
    var lc := ExprCode(env, l, dest, d + 1, vm.ip);
    var rc := ExprCode(env, r, Scratch(d), d + 1, vm.ip + |lc|);
    var opcode := if op.BAnd? then And else if op.BOr? then Or else Xor;
    CodeAtSplit(prog, vm.ip, lc + rc, [Arith3(opcode, dest, Scratch(d), dest)]);
    CodeAtSplit(prog, vm.ip, lc, rc);
    OtherThanScratch(dest, d);
    var v1 := LogicalRuns(prog, env, l, own, dest, d + 1, vm);
    var v2 := LogicalRuns(prog, env, r, None, Scratch(d), d + 1, v1);
    TruthKept(env, r, v1, vm) by { SameSym(vm, v1); }
    RunSplit(prog, Next(vm), |lc|, |rc|);
    var v := Truth(env, Binary(l, op, r), vm);
    KeptBySecond(v1.regs, v2.regs, dest, d);
    JoinsBooleans(opcode, Truth(env, l, vm), Truth(env, r, vm));
    StepBits(prog, v2, opcode, dest, Scratch(d), dest);
    RunMore(prog, Next(vm), |lc| + |rc|, v2);
    out := Step(prog, v2).vm;
    JoinedPreserves(vm.regs, v1.regs, v2.regs, dest, d, Bool(v));
    RestKept(vm, v1, v2, out);
    SameTrans(vm, v1, v2);
    TablesAlike(v2, out);
    SameTrans(vm, v2, out);
  }

  lemma LogicalParts(env: Env, l: Expr, op: BinOp, r: Expr, own: Option<string>, vm: Vm)
    requires Logical(env, Binary(l, op, r), own)
    ensures (op.BAnd? || op.BOr? || op.BXor?) && Logical(env, l, own) && Logical(env, r, None)
    ensures var a, b := Truth(env, l, vm), Truth(env, r, vm);
            Truth(env, Binary(l, op, r), vm) == if op.BAnd? then a && b else if op.BOr? then a || b else a != b
  {
  }

  lemma KeptBySecond(a: Regs, b: Regs, dest: nat, d: nat)
    requires d < POOL_SIZE && dest < REGISTER_COUNT && !IsFree(dest, d) && Preserves(a, b, Scratch(d), d + 1)
    ensures b[dest] == a[dest]
  {
  }

  lemma JoinedPreserves(a: Regs, b: Regs, c: Regs, dest: nat, d: nat, v: HalValue)
    requires d < POOL_SIZE && dest < REGISTER_COUNT
    requires Preserves(a, b, dest, d + 1) && Preserves(b, c, Scratch(d), d + 1)
    ensures Preserves(a, c[dest := v], dest, d)
  {
  }

  lemma RestKept(a: Vm, b: Vm, c: Vm, e: Vm)
    requires SameRest(a, b) && SameRest(b, c)
    requires e.signals == c.signals && e.callStack == c.callStack && e.cycleTime == c.cycleTime
    ensures SameRest(a, e)
  {
  }

  lemma SameSym(a: Vm, b: Vm)
    requires SameStates(a, b)
    ensures SameStates(b, a)
  {
  }

  lemma JoinsBooleans(op: Opcode, a: bool, b: bool)
    requires op.And? || op.Or? || op.Xor?
    ensures BitOf(op).Some?
    ensures Bitwise(BitOf(op).value, Bool(a), Bool(b)) ==
            Bool(if op.And? then a && b else if op.Or? then a || b else a != b)
  {
  }

  lemma StepNotInPlace(prog: seq<Instruction>, vm: Vm, r: nat, b: bool)
    requires CodeAt(prog, vm.ip, [Arith3(Opcode.Not, r, r, r)]) && r < REGISTER_COUNT && vm.regs[r] == Bool(b)
    ensures Step(prog, vm) == Next(vm.(regs := vm.regs[r := Bool(!b)], ip := vm.ip + 1))
  {
    assert prog[vm.ip] == prog[vm.ip..vm.ip + 1][0];
  }

  lemma NotRuns(prog: seq<Instruction>, env: Env, i: Expr, own: Option<string>, dest: nat, d: nat, vm: Vm)
    returns (out: Vm)
    requires var e := Unary(UNot, i);
             && GoodEnv(env) && Logical(env, e, own) && ExprStatus(env, e, d).Fine? && Fits(env, own, dest, d, vm)
             && CodeAt(prog, vm.ip, ExprCode(env, e, dest, d, vm.ip))
    ensures Leaves(prog, vm, |ExprCode(env, Unary(UNot, i), dest, d, vm.ip)|, dest, d,
                   Truth(env, Unary(UNot, i), vm), out)
    decreases Unary(UNot, i), 0
  {
    hide Step; hide Run; hide SameStates; hide CodeAt;
    var ic := ExprCode(env, i, dest, d, vm.ip);
    assert ExprCode(env, Unary(UNot, i), dest, d, vm.ip) == ic + [Arith3(Opcode.Not, dest, dest, dest)];
    assert ExprStatus(env, i, d).Fine?;
    hide ExprCode; hide ExprStatus;
    CodeAtSplit(prog, vm.ip, ic, [Arith3(Opcode.Not, dest, dest, dest)]);
    var v1 := LogicalRuns(prog, env, i, own, dest, d, vm);
    StepNotInPlace(prog, v1, dest, Truth(env, i, vm));
    RunMore(prog, Next(vm), |ic|, v1);
    out := Step(prog, v1).vm;
    TablesAlike(v1, out);
    SameTrans(vm, v1, out);
  }

  // ----- assignments -----

  /** `x := e` for a BOOL x: exactly the statement's code later the value is in x's register
      and signal, and every other variable and every block output is as before. */
  lemma LogicalAssignment(prog: seq<Instruction>, env: Env, x: string, e: Expr, inLoop: bool, exit: nat, vm: Vm)
    returns (out: Vm)
    requires GoodEnv(env) && x in env.regs && Logical(env, e, Some(x)) && vm.regs[RegOf(env, x)].Bool?
    requires StmtStatus(env, Assign(x, e), inLoop).Fine?
    requires CodeAt(prog, vm.ip, StmtCode(env, Assign(x, e), vm.ip, exit))
    ensures var n, v := |StmtCode(env, Assign(x, e), vm.ip, exit)|, Bool(Truth(env, e, vm));
            && Run(prog, Next(vm), n) == Next(out) && out.ip == vm.ip + n
            && out.regs[RegOf(env, x)] == v && out.signals == vm.signals[x := v] && SameStates(vm, out)
            && (forall y :: y in env.regs && y != x ==> out.regs[RegOf(env, y)] == vm.regs[RegOf(env, y)])
  {
    hide Step; hide Run; hide SameStates; hide CodeAt; hide ExprCode; hide ExprStatus; hide Logical; hide Truth;
    var reg := RegOf(env, x);
    var c := ExprCode(env, e, reg, 0, vm.ip);
    CodeAtSplit(prog, vm.ip, c, [StoreSig(x, reg)]);
    var v1 := LogicalRuns(prog, env, e, Some(x), reg, 0, vm);
    StepStore(prog, v1, x, reg);
    RunMore(prog, Next(vm), |c|, v1);
    out := Step(prog, v1).vm;
    TablesAlike(v1, out);
    SameTrans(vm, v1, out);
  }

  // ----- conditions -----

  /** A condition that is one such value jumps if and only if it is true. */
  lemma LogicalCondition(prog: seq<Instruction>, env: Env, e: Expr, toElse: nat, vm: Vm) returns (out: Vm)
    requires GoodEnv(env) && Logical(env, e, None) && ExprStatus(env, e, 1).Fine?
    requires CodeAt(prog, vm.ip, ValueCondCode(env, e, vm.ip, toElse))
    ensures var n := |ValueCondCode(env, e, vm.ip, toElse)|;
            && Run(prog, Next(vm), n) == Next(out)
            && out.ip == (if Truth(env, e, vm) then toElse else vm.ip + n)
            && SameRest(vm, out) && SameStates(vm, out)
            && (forall y :: y in env.regs ==> out.regs[RegOf(env, y)] == vm.regs[RegOf(env, y)])
  {
    hide Step; hide Run; hide SameStates; hide CodeAt; hide ExprCode; hide ExprStatus; hide Logical; hide Truth;
    hide Compare;
    var c := ExprCode(env, e, Scratch(0), 1, vm.ip);
    var one, two, three := LoadImm(Scratch(1), Bool(true)), Cmp2(Eq, Scratch(0), Scratch(1)), JumpIfTo(toElse);
    assert ValueCondCode(env, e, vm.ip, toElse) == c + ([one] + ([two] + [three]));
    CodeAtSplit(prog, vm.ip, c, [one] + ([two] + [three]));
    var v1 := LogicalRuns(prog, env, e, None, Scratch(0), 1, vm);
    CodeAtSplit(prog, v1.ip, [one], [two] + [three]);
    CodeAtSplit(prog, v1.ip + 1, [two], [three]);
    out := TestRuns(prog, toElse, v1, Truth(env, e, vm));
    RunSplit(prog, Next(vm), |c|, 3);
    TablesAlike(v1, out);
    SameTrans(vm, v1, out);
  }

  /** Comparing scratch register 0 with TRUE and jumping. */
  lemma TestRuns(prog: seq<Instruction>, toElse: nat, vm: Vm, v: bool) returns (out: Vm)
    requires CodeAt(prog, vm.ip, [LoadImm(Scratch(1), Bool(true))])
    requires CodeAt(prog, vm.ip + 1, [Cmp2(Eq, Scratch(0), Scratch(1))]) && CodeAt(prog, vm.ip + 2, [JumpIfTo(toElse)])
    requires v == (vm.regs[Scratch(0)] == Bool(true))
    ensures Run(prog, Next(vm), 3) == Next(out)
    ensures out == vm.(regs := vm.regs[Scratch(1) := Bool(true)], flag := v, ip := if v then toElse else vm.ip + 3)
  {
    hide Step; hide Run; hide CodeAt;
    StepLoadImm(prog, vm, Scratch(1), Bool(true));
    RunOne(prog, vm);
    var v1 := Step(prog, vm).vm;
    StepCompare(prog, v1, Eq, Scratch(0), Scratch(1));
    RunMore(prog, Next(vm), 1, v1);
    var v2 := Step(prog, v1).vm;
    StepJumpIf(prog, v2, toElse);
    RunMore(prog, Next(vm), 2, v2);
    out := Step(prog, v2).vm;
  }

  /** Literals, block outputs and XOR are such conditions; AND, OR and NOT are joined by jumps. */
  lemma ValuesAsConditions(env: Env, e: Expr, at: nat, toElse: nat, toEnd: nat)
    requires e.BoolLiteral? || e.FieldAccess? || e.Variable? || (e.Binary? && e.op.BXor?)
    ensures CondCode(env, e, at, toElse, toEnd) == ValueCondCode(env, e, at, toElse)
    ensures CondStatus(env, e) == ExprStatus(env, e, 1)
  {
    hide ExprCode;
  }

  /** A BOOL variable as a condition never jumps, whatever its value: its copy is the number
      zero. So IF takes its ELSE branch, which is right if and only if the variable is false. */
  lemma VariableNeverJumps(prog: seq<Instruction>, env: Env, x: string, toElse: nat, toEnd: nat, vm: Vm)
    returns (out: Vm)
    requires GoodEnv(env) && x in env.regs && TypeOfVar(env, x).TBool? && vm.regs[RegOf(env, x)].Bool?
    requires CodeAt(prog, vm.ip, CondCode(env, Variable(x), vm.ip, toElse, toEnd))
    ensures var n := |CondCode(env, Variable(x), vm.ip, toElse, toEnd)|;
            && Run(prog, Next(vm), n) == Next(out) && out.ip == vm.ip + n
            && SameRest(vm, out)
            && (forall y :: y in env.regs ==> out.regs[RegOf(env, y)] == vm.regs[RegOf(env, y)])
  {
    hide Step; hide Run; hide CodeAt; hide Arith;
    var reg := RegOf(env, x);
    var a, b, one, two, three := LoadImm(Scratch(0), Bool(false)), Arith3(Add, reg, Scratch(0), Scratch(0)),
      LoadImm(Scratch(1), Bool(true)), Cmp2(Eq, Scratch(0), Scratch(1)), JumpIfTo(toElse);
    assert CondCode(env, Variable(x), vm.ip, toElse, toEnd) == [a] + ([b] + ([one] + ([two] + [three])));
    CodeAtSplit(prog, vm.ip, [a], [b] + ([one] + ([two] + [three])));
    CodeAtSplit(prog, vm.ip + 1, [b], [one] + ([two] + [three]));
    CodeAtSplit(prog, vm.ip + 2, [one], [two] + [three]);
    CodeAtSplit(prog, vm.ip + 3, [two], [three]);
    StepLoadImm(prog, vm, Scratch(0), Bool(false));
    RunOne(prog, vm);
    var v1 := Step(prog, vm).vm;
    assert Arith(AddOp, vm.regs[reg], Bool(false)) == Some(S32(0)) by { SumOfBooleans(vm.regs[reg]); }
    StepArith(prog, v1, Add, reg, Scratch(0), Scratch(0));
    RunMore(prog, Next(vm), 1, v1);
    var v2 := Step(prog, v1).vm;
    out := TestRuns(prog, toElse, v2, false);
    RunSplit(prog, Next(vm), 2, 3);
  }

  lemma SumOfBooleans(v: HalValue)
    requires v.Bool?
    ensures Arith(AddOp, v, Bool(false)) == Some(S32(0))
  {
  }
}
