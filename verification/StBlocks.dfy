/** Function-block calls of Structured Text on the machine: what a compiled call does to its
    block, and so what the block's output says after any history of scans. */
module StBlocks {
  import opened HalValues
  import opened StAst
  import opened Machine
  import opened StLayout
  import opened StCorrectness
  import opened StLogic
  import FB = FunctionBlocks

  /** An input: a variable, or a Boolean value. A variable that holds no Boolean counts as false. */
  predicate Input(env: Env, e: Expr) { (e.Variable? && e.name in env.regs) || Logical(env, e, None) }

  lemma InputRuns(prog: seq<Instruction>, env: Env, e: Expr, d: nat, vm: Vm) returns (out: Vm)
    requires GoodEnv(env) && Input(env, e) && ArgStatus(env, e, d).Fine?
    requires CodeAt(prog, vm.ip, ArgCode(env, e, d, vm.ip))
    ensures var n := |ArgCode(env, e, d, vm.ip)|;
            && Run(prog, Next(vm), n) == Next(out) && out.ip == vm.ip + n && d < POOL_SIZE
            && (out.regs[Scratch(d)] == Bool(true) <==> Truth(env, e, vm))
            && Preserves(vm.regs, out.regs, Scratch(d), d + 1) && SameRest(vm, out) && SameStates(vm, out)
  {
    hide Step; hide Run; hide SameStates; hide CodeAt; hide ExprCode; hide ExprStatus;
    if e.Variable? {
      StepLoadReg(prog, vm, Scratch(d), RegOf(env, e.name));
      RunOne(prog, vm);
      out := Step(prog, vm).vm;
      TablesAlike(vm, out);
    } else {
      out := LogicalRuns(prog, env, e, None, Scratch(d), d + 1, vm);
    }
  }

  /** Every variable's register keeps its value. */
  predicate SameVariables(env: Env, a: Vm, b: Vm) {
    forall y :: y in env.regs ==> RegOf(env, y) < REGISTER_COUNT && b.regs[RegOf(env, y)] == a.regs[RegOf(env, y)]
  }

  lemma VariablesPreserved(env: Env, a: Vm, b: Vm, d: nat)
    requires GoodEnv(env) && d < POOL_SIZE && Preserves(a.regs, b.regs, Scratch(d), d + 1)
    ensures SameVariables(env, a, b)
  {
  }

  // ----- the block instructions -----

  lemma BlockStep(prog: seq<Instruction>, vm: Vm)
    requires vm.ip < |prog|
    ensures var inst := prog[vm.ip];
            && (inst.opcode.TimerRun? ==> Step(prog, vm) == AdvanceIp(ExecTimerRun(inst.operands, vm)))
            && (inst.opcode.CounterRun? ==> Step(prog, vm) == AdvanceIp(ExecCounterRun(inst.operands, vm)))
            && (inst.opcode.SrRun? ==> Step(prog, vm) == AdvanceIp(ExecSrRun(inst.operands, vm)))
            && (inst.opcode.EdgeRun? ==> Step(prog, vm) == AdvanceIp(ExecEdgeRun(inst.operands, vm)))
  {
    hide ExecTimerRun; hide ExecCounterRun; hide ExecSrRun; hide ExecEdgeRun; hide AdvanceIp;
  }

  lemma OperandIs(ops: seq<Operand>, i: nat, n: nat)
    requires i < |ops| && ops[i] == Imm(n)
    ensures U32Operand(ops, i) == Some(n)
  {
    assert ops[i..][0] == ops[i];
  }

  lemma StepTimer(prog: seq<Instruction>, vm: Vm, i: nat, s: nat, pt: nat, k: nat)
    requires CodeAt(prog, vm.ip, [Instruction(TimerRun, [Imm(i), Register(s), Imm(pt), Imm(k)])]) && s < REGISTER_COUNT
    ensures var out, kind := Step(prog, vm), if k == 1 then FB.Tof else if k == 2 then FB.Tp else FB.Ton;
            && out.Next? && out.vm.ip == vm.ip + 1 && out.vm.regs == vm.regs && SameRest(vm, out.vm)
            && TimerAt(out.vm, i) ==
               AsTon(FB.TimerTick(TimerAt(vm, i), kind, vm.regs[s] == Bool(true), pt, vm.cycleTime))
            && (forall j: nat :: j != i ==> TimerAt(out.vm, j) == TimerAt(vm, j))
            && out.vm.srs == vm.srs && out.vm.edges == vm.edges && out.vm.counters == vm.counters
  {
    hide Step;
    assert prog[vm.ip] == prog[vm.ip..vm.ip + 1][0];
    var ops := prog[vm.ip].operands;
    OperandIs(ops, 0, i);
    OperandIs(ops, 3, k);
    assert PresetOperand(ops[2]) == Some(pt);
    hide FB.TimerTick; hide U32Operand; hide PresetOperand;
    BlockStep(prog, vm);
    KindIsGiven(vm, i, if k == 1 then FB.Tof else if k == 2 then FB.Tp else FB.Ton, vm.regs[s] == Bool(true), pt);
  }

  /** A tick does not depend on the kind that the timer had before. */
  lemma KindIsGiven(vm: Vm, i: nat, kind: FB.TimerKind, input: bool, pt: nat)
    ensures var t := if i < |vm.timers| then vm.timers[i] else FB.NewTimer(kind);
            FB.TimerTick(t, kind, input, pt, vm.cycleTime) ==
            FB.TimerTick(TimerAt(vm, i), kind, input, pt, vm.cycleTime)
  {
  }

  lemma StepCounter(prog: seq<Instruction>, vm: Vm, i: nat, cu: nat, cd: nat, pv: nat, k: nat)
    requires CodeAt(prog, vm.ip, [Instruction(CounterRun, [Imm(i), Register(cu), Register(cd), Imm(pv), Imm(k)])])
    requires cu < REGISTER_COUNT && cd < REGISTER_COUNT
    ensures var out, kind := Step(prog, vm), if k == 0 then FB.Ctu else if k == 1 then FB.Ctd else FB.Ctud;
            && out.Next? && out.vm.ip == vm.ip + 1 && out.vm.regs == vm.regs && SameRest(vm, out.vm)
            && CounterAt(out.vm, i) ==
               FB.CounterTick(CounterAt(vm, i), kind, vm.regs[cu] == Bool(true), vm.regs[cd] == Bool(true), pv)
            && (forall j: nat :: j != i ==> CounterAt(out.vm, j) == CounterAt(vm, j))
            && out.vm.srs == vm.srs && out.vm.edges == vm.edges && out.vm.timers == vm.timers
  {
    hide Step;
    assert prog[vm.ip] == prog[vm.ip..vm.ip + 1][0];
    var ops := prog[vm.ip].operands;
    OperandIs(ops, 0, i);
    OperandIs(ops, 3, pv);
    OperandIs(ops, 4, k);
    hide FB.CounterTick; hide U32Operand;
    assert BoolOperand(vm, ops[1]) == Some(vm.regs[cu] == Bool(true));
    assert BoolOperand(vm, ops[2]) == Some(vm.regs[cd] == Bool(true));
    hide BoolOperand;
    BlockStep(prog, vm);
  }

  lemma StepFlipFlop(prog: seq<Instruction>, vm: Vm, i: nat, s: nat, r: nat, k: nat)
    requires CodeAt(prog, vm.ip, [Instruction(SrRun, [Imm(i), Register(s), Register(r), Imm(k)])])
    requires s < REGISTER_COUNT && r < REGISTER_COUNT
    ensures var out, kind := Step(prog, vm), if k == 1 then FB.Rs else FB.Sr;
            && out.Next? && out.vm.ip == vm.ip + 1 && out.vm.regs == vm.regs && SameRest(vm, out.vm)
            && SrAt(out.vm, i) ==
               AsSr(FB.SrTick(SrAt(vm, i), kind, vm.regs[s] == Bool(true), vm.regs[r] == Bool(true)))
            && (forall j: nat :: j != i ==> SrAt(out.vm, j) == SrAt(vm, j))
            && out.vm.timers == vm.timers && out.vm.edges == vm.edges && out.vm.counters == vm.counters
  {
    hide Step;
    assert prog[vm.ip] == prog[vm.ip..vm.ip + 1][0];
    var ops := prog[vm.ip].operands;
    OperandIs(ops, 0, i);
    OperandIs(ops, 3, k);
    hide U32Operand; hide FB.SrTick;
    var s1, r1, kind := vm.regs[s] == Bool(true), vm.regs[r] == Bool(true), if k == 1 then FB.Rs else FB.Sr;
    assert BoolOperand(vm, ops[1]) == Some(s1) && BoolOperand(vm, ops[2]) == Some(r1);
    hide BoolOperand;
    BlockStep(prog, vm);
    hide SrAt;
    FlipFlopTable(vm, i, kind, s1, r1);
  }

  lemma FlipFlopTable(vm: Vm, i: nat, kind: FB.SrKind, s1: bool, r: bool)
    ensures var srs := Grow(vm.srs, i, FB.NewSr(kind));
            var out: Vm := vm.(srs := srs[i := FB.SrTick(srs[i], kind, s1, r)]);
            && SrAt(out, i) == AsSr(FB.SrTick(SrAt(vm, i), kind, s1, r))
            && (forall j: nat :: j != i ==> SrAt(out, j) == SrAt(vm, j))
  {
    hide FB.SrTick;
    SrKindIsGiven(vm, i, kind, s1, r);
  }

  lemma SrKindIsGiven(vm: Vm, i: nat, kind: FB.SrKind, s1: bool, r: bool)
    ensures var s := if i < |vm.srs| then vm.srs[i] else FB.NewSr(kind);
            FB.SrTick(s, kind, s1, r) == FB.SrTick(SrAt(vm, i), kind, s1, r)
  {
  }

  lemma StepEdge(prog: seq<Instruction>, vm: Vm, i: nat, c: nat, k: nat)
    requires CodeAt(prog, vm.ip, [Instruction(EdgeRun, [Imm(i), Register(c), Imm(k)])]) && c < REGISTER_COUNT && k < 256
    ensures var out := Step(prog, vm);
            && out.Next? && out.vm.ip == vm.ip + 1 && out.vm.regs == vm.regs && SameRest(vm, out.vm)
            && EdgeAt(out.vm, i) == FB.EdgeTick(EdgeAt(vm, i), k, vm.regs[c] == Bool(true))
            && (forall j: nat :: j != i ==> EdgeAt(out.vm, j) == EdgeAt(vm, j))
            && out.vm.timers == vm.timers && out.vm.srs == vm.srs && out.vm.counters == vm.counters
  {
    hide Step;
    assert prog[vm.ip] == prog[vm.ip..vm.ip + 1][0];
    var ops := prog[vm.ip].operands;
    OperandIs(ops, 0, i);
    OperandIs(ops, 2, k);
    hide FB.EdgeTick; hide U32Operand;
    BlockStep(prog, vm);
  }

  // ----- calls -----

  /** A call ran to its end: variables and signals are kept. */
  ghost predicate Called(prog: seq<Instruction>, env: Env, vm: Vm, n: nat, out: Vm) {
    Run(prog, Next(vm), n) == Next(out) && out.ip == vm.ip + n && SameVariables(env, vm, out) && SameRest(vm, out)
  }

  function TimerKindOf(t: VarType): FB.TimerKind {
    match t case TTof => FB.Tof case TTp => FB.Tp case _ => FB.Ton
  }

  /** `x(IN, PT)` on a timer: one tick of the timer of that type, with the input's truth, PT
      on 32 bits (0 unless it is a literal) and the machine's cycle time. */
  lemma TimerCallRuns(prog: seq<Instruction>, env: Env, x: string, args: seq<Expr>, vm: Vm) returns (out: Vm)
    requires GoodEnv(env) && x in env.regs && (env.types[x].TTon? || env.types[x].TTof? || env.types[x].TTp?)
    requires |args| >= 2 && Input(env, args[0]) && CallStatus(env, x, args).Fine?
    requires CodeAt(prog, vm.ip, CallCode(env, x, args, vm.ip))
    ensures var i, pt := RegOf(env, x), if args[1].IntLiteral? then args[1].i % 0x1_0000_0000 else 0;
            && Called(prog, env, vm, |CallCode(env, x, args, vm.ip)|, out)
            && TimerAt(out, i) == AsTon(FB.TimerTick(TimerAt(vm, i), TimerKindOf(env.types[x]),
                                                     Truth(env, args[0], vm), pt, vm.cycleTime))
            && (forall j: nat :: j != i ==> TimerAt(out, j) == TimerAt(vm, j))
  {
    hide Step; hide Run; hide CodeAt; hide ArgCode; hide ArgStatus; hide FB.TimerTick; hide Truth; hide Logical;
    hide TimerAt; hide SrAt; hide EdgeAt; hide CounterAt; hide Preserves;
    var i, c := RegOf(env, x), ArgCode(env, args[0], 0, vm.ip);
    var op := Instruction(TimerRun, [Imm(i), Register(Scratch(0)), Imm(LiteralU32(args[1])),
                                     Imm(TimerKindCode(env.types[x]))]);
    assert CallCode(env, x, args, vm.ip) == c + [op];
    CodeAtSplit(prog, vm.ip, c, [op]);
    var v1 := InputRuns(prog, env, args[0], 0, vm);
    StepTimer(prog, v1, i, Scratch(0), LiteralU32(args[1]), TimerKindCode(env.types[x]));
    RunMore(prog, Next(vm), |c|, v1);
    out := Step(prog, v1).vm;
    VariablesPreserved(env, vm, v1, 0);
  }

  /** After any scans in which such calls were a timer's only ones, a call leaves the timer as
      the block's own run over those scans and this one. */
  lemma TimerFollowsItsScans(prog: seq<Instruction>, env: Env, x: string, args: seq<Expr>, vm: Vm, pt: nat,
                             scans: seq<FB.Scan>) returns (out: Vm)
    requires GoodEnv(env) && x in env.regs && (env.types[x].TTon? || env.types[x].TTof? || env.types[x].TTp?)
    requires |args| >= 2 && Input(env, args[0]) && args[1] == IntLiteral(pt) && pt <= FB.U32_MAX
    requires CallStatus(env, x, args).Fine? && CodeAt(prog, vm.ip, CallCode(env, x, args, vm.ip))
    requires TimerAt(vm, RegOf(env, x)) == AsTon(FB.TimerRun(TimerKindOf(env.types[x]), pt, scans))
    ensures var all := scans + [FB.Scan(Truth(env, args[0], vm), vm.cycleTime)];
            && Called(prog, env, vm, |CallCode(env, x, args, vm.ip)|, out)
            && TimerAt(out, RegOf(env, x)) == AsTon(FB.TimerRun(TimerKindOf(env.types[x]), pt, all))
            && (env.types[x].TTon? ==>
                  (Truth(env, FieldAccess(x, "Q"), out) <==> FB.LastInput(all) && FB.HeldFor(all) >= pt))
            && (env.types[x].TTp? ==>
                  (Truth(env, FieldAccess(x, "Q"), out) <==> FB.LastInput(all) && FB.HeldFor(all) < pt))
  {
    hide CallCode; hide CallStatus; hide Input; hide TimerAt; hide FB.HeldFor; hide FB.TimerTick; hide Called;
    hide FB.TimerRun; hide Logical;
    out := TimerCallRuns(prog, env, x, args, vm);
    assert args[1].i % 0x1_0000_0000 == pt;
    ScanMore(TimerKindOf(env.types[x]), pt, scans, FB.Scan(Truth(env, args[0], vm), vm.cycleTime));
    TimerSays(pt, scans + [FB.Scan(Truth(env, args[0], vm), vm.cycleTime)]);
  }

  lemma ScanMore(kind: FB.TimerKind, pt: nat, scans: seq<FB.Scan>, last: FB.Scan)
    ensures AsTon(FB.TimerTick(AsTon(FB.TimerRun(kind, pt, scans)), kind, last.input, pt, last.cycle)) ==
            AsTon(FB.TimerRun(kind, pt, scans + [last]))
  {
    hide FB.TimerTick;
    assert (scans + [last])[..|scans|] == scans;
    AnyKindBefore(FB.TimerRun(kind, pt, scans), kind, last.input, pt, last.cycle);
  }

  lemma TimerSays(pt: nat, all: seq<FB.Scan>)
    requires pt <= FB.U32_MAX
    ensures FB.TimerRun(FB.Ton, pt, all).q <==> FB.LastInput(all) && FB.HeldFor(all) >= pt
    ensures FB.TimerRun(FB.Tp, pt, all).q <==> FB.LastInput(all) && FB.HeldFor(all) < pt
  {
    FB.TonMeasuresHeldTime(pt, all);
    FB.TpPulse(pt, all);
  }

  lemma AnyKindBefore(t: FB.TimerState, kind: FB.TimerKind, input: bool, pt: nat, cycle: nat)
    ensures FB.TimerTick(AsTon(t), kind, input, pt, cycle) == FB.TimerTick(t, kind, input, pt, cycle)
  {
  }

  /** The second input of a call, in scratch register 1; the first stays in register 0. */
  lemma SecondInput(prog: seq<Instruction>, env: Env, e: Expr, vm: Vm) returns (out: Vm)
    requires GoodEnv(env) && Input(env, e) && ArgStatus(env, e, 1).Fine?
    requires CodeAt(prog, vm.ip, ArgCode(env, e, 1, vm.ip))
    ensures var n := |ArgCode(env, e, 1, vm.ip)|;
            && Called(prog, env, vm, n, out) && SameStates(vm, out)
            && (out.regs[Scratch(1)] == Bool(true) <==> Truth(env, e, vm))
            && out.regs[Scratch(0)] == vm.regs[Scratch(0)]
  {
    hide Step; hide Run; hide SameStates; hide CodeAt; hide ArgCode; hide ArgStatus; hide Truth; hide Input;
    out := InputRuns(prog, env, e, 1, vm);
    VariablesPreserved(env, vm, out, 1);
  }

  lemma DownRuns(prog: seq<Instruction>, env: Env, args: seq<Expr>, vm: Vm) returns (out: Vm)
    requires GoodEnv(env) && (|args| >= 3 ==> Input(env, args[2]) && ArgStatus(env, args[2], 1).Fine?)
    requires CodeAt(prog, vm.ip, DownCode(env, args, vm.ip))
    ensures var n := |DownCode(env, args, vm.ip)|;
            && Called(prog, env, vm, n, out) && SameStates(vm, out)
            && (out.regs[Scratch(1)] == Bool(true) <==> |args| >= 3 && Truth(env, args[2], vm))
            && out.regs[Scratch(0)] == vm.regs[Scratch(0)]
  {
    hide Step; hide Run; hide SameStates; hide CodeAt; hide ArgCode; hide ArgStatus; hide Truth; hide Input;
    if |args| >= 3 {
      out := SecondInput(prog, env, args[2], vm);
    } else {
      StepLoadImm(prog, vm, Scratch(1), Bool(false));
      RunOne(prog, vm);
      out := Step(prog, vm).vm;
      TablesAlike(vm, out);
    }
  }

  function CounterKindOf(t: VarType): FB.CounterKind {
    match t case TCtd => FB.Ctd case TCtud => FB.Ctud case _ => FB.Ctu
  }

  function DownCode(env: Env, args: seq<Expr>, at: nat): seq<Instruction> {
    if |args| >= 3 then ArgCode(env, args[2], 1, at) else [LoadImm(Scratch(1), Bool(false))]
  }

  lemma CounterCode(env: Env, x: string, args: seq<Expr>, at: nat)
    requires x in env.regs && x in env.types && |args| >= 2 && CallStatus(env, x, args).Fine?
    requires env.types[x].TCtu? || env.types[x].TCtd? || env.types[x].TCtud?
    ensures var up := ArgCode(env, args[0], 0, at);
            CallCode(env, x, args, at) ==
            up + DownCode(env, args, at + |up|) +
            [Instruction(CounterRun, [Imm(RegOf(env, x)), Register(Scratch(0)), Register(Scratch(1)),
                                      Imm(LiteralU32(args[1])), Imm(CounterKindCode(env.types[x]))])]
    ensures ArgStatus(env, args[0], 0).Fine? && (|args| >= 3 ==> ArgStatus(env, args[2], 1).Fine?)
    ensures CounterKindCode(env.types[x]) == (if env.types[x].TCtu? then 0 else if env.types[x].TCtd? then 1 else 2)
    ensures LiteralU32(args[1]) == if args[1].IntLiteral? then args[1].i % 0x1_0000_0000 else 0
  {
    hide ArgCode; hide ArgStatus;
  }

  /** `x(CU, PV)` or `x(CU, PV, CD)` on a counter: one tick of the counter of that type; CD is
      false when it is not given. */
  lemma CounterCallRuns(prog: seq<Instruction>, env: Env, x: string, args: seq<Expr>, vm: Vm) returns (out: Vm)
    requires GoodEnv(env) && x in env.regs && (env.types[x].TCtu? || env.types[x].TCtd? || env.types[x].TCtud?)
    requires |args| >= 2 && Input(env, args[0]) && (|args| >= 3 ==> Input(env, args[2]))
    requires CallStatus(env, x, args).Fine? && CodeAt(prog, vm.ip, CallCode(env, x, args, vm.ip))
    ensures var i, pv := RegOf(env, x), if args[1].IntLiteral? then args[1].i % 0x1_0000_0000 else 0;
            && Called(prog, env, vm, |CallCode(env, x, args, vm.ip)|, out)
            && CounterAt(out, i) ==
               FB.CounterTick(CounterAt(vm, i), CounterKindOf(env.types[x]), Truth(env, args[0], vm),
                              |args| >= 3 && Truth(env, args[2], vm), pv)
            && (forall j: nat :: j != i ==> CounterAt(out, j) == CounterAt(vm, j))
  {
    hide Step; hide Run; hide CodeAt; hide ArgCode; hide ArgStatus; hide FB.CounterTick; hide Truth; hide Logical;
    hide TimerAt; hide SrAt; hide EdgeAt; hide Input; hide Preserves; hide CallCode; hide CallStatus; hide DownCode;
    hide CounterAt; hide LiteralU32; hide SameRest; hide SameVariables;
    CounterCode(env, x, args, vm.ip);
    var i, up := RegOf(env, x), ArgCode(env, args[0], 0, vm.ip);
    var down := DownCode(env, args, vm.ip + |up|);
    var op := Instruction(CounterRun, [Imm(i), Register(Scratch(0)), Register(Scratch(1)), Imm(LiteralU32(args[1])),
                                       Imm(CounterKindCode(env.types[x]))]);
    CodeAtSplit(prog, vm.ip, up + down, [op]);
    CodeAtSplit(prog, vm.ip, up, down);
    var mid := CounterInputs(prog, env, args, vm);
    StepCounter(prog, mid, i, Scratch(0), Scratch(1), LiteralU32(args[1]), CounterKindCode(env.types[x]));
    out := Step(prog, mid).vm;
    CalledThen(prog, env, vm, |up| + |down|, mid, out);
  }

  lemma CalledThen(prog: seq<Instruction>, env: Env, vm: Vm, n: nat, mid: Vm, out: Vm)
    requires Called(prog, env, vm, n, mid) && Step(prog, mid) == Next(out)
    requires out.ip == mid.ip + 1 && out.regs == mid.regs && SameRest(mid, out)
    ensures Called(prog, env, vm, n + 1, out)
  {
    hide Step; hide Run;
    RunMore(prog, Next(vm), n, mid);
  }

  /** Both inputs in their scratch registers. */
  lemma CounterInputs(prog: seq<Instruction>, env: Env, args: seq<Expr>, vm: Vm) returns (out: Vm)
    requires GoodEnv(env) && |args| >= 2 && Input(env, args[0]) && (|args| >= 3 ==> Input(env, args[2]))
    requires ArgStatus(env, args[0], 0).Fine? && (|args| >= 3 ==> ArgStatus(env, args[2], 1).Fine?)
    requires var up := ArgCode(env, args[0], 0, vm.ip);
             CodeAt(prog, vm.ip, up) && CodeAt(prog, vm.ip + |up|, DownCode(env, args, vm.ip + |up|))
    ensures var up := ArgCode(env, args[0], 0, vm.ip);
            && Called(prog, env, vm, |up| + |DownCode(env, args, vm.ip + |up|)|, out) && SameStates(vm, out)
            && (out.regs[Scratch(0)] == Bool(true) <==> Truth(env, args[0], vm))
            && (out.regs[Scratch(1)] == Bool(true) <==> |args| >= 3 && Truth(env, args[2], vm))
  {
    hide Step; hide Run; hide CodeAt; hide ArgCode; hide ArgStatus; hide Truth; hide Logical; hide SameStates;
    hide Input; hide Preserves; hide DownCode; hide SameRest; hide SameVariables; hide GoodEnv;
    var up := ArgCode(env, args[0], 0, vm.ip);
    var mid := InputRuns(prog, env, args[0], 0, vm);
    VariablesPreserved(env, vm, mid, 0);
    out := DownRuns(prog, env, args, mid);
    if |args| >= 3 { InputKept(env, args[2], vm, mid); }
    RunSplit(prog, Next(vm), |up|, |DownCode(env, args, vm.ip + |up|)|);
    SameTrans(vm, mid, out);
    KeptTwice(env, vm, mid, out);
  }

  lemma KeptTwice(env: Env, a: Vm, b: Vm, c: Vm)
    requires SameVariables(env, a, b) && SameVariables(env, b, c) && SameRest(a, b) && SameRest(b, c)
    ensures SameVariables(env, a, c) && SameRest(a, c)
  {
  }

  lemma InputKept(env: Env, e: Expr, a: Vm, b: Vm)
    requires Input(env, e) && SameStates(a, b) && SameVariables(env, a, b)
    ensures Truth(env, e, a) == Truth(env, e, b)
  {
    hide SameStates;
    if Logical(env, e, None) { TruthKept(env, e, a, b); }
  }

  lemma FlipFlopCode(env: Env, x: string, args: seq<Expr>, at: nat)
    requires x in env.regs && x in env.types && |args| >= 2 && CallStatus(env, x, args).Fine?
    requires env.types[x].TSr? || env.types[x].TRs?
    ensures var c0 := ArgCode(env, args[0], 0, at);
            CallCode(env, x, args, at) ==
            c0 + ArgCode(env, args[1], 1, at + |c0|) +
            [Instruction(SrRun, [Imm(RegOf(env, x)), Register(Scratch(0)), Register(Scratch(1)),
                                 Imm(if env.types[x].TSr? then 0 else 1)])]
    ensures ArgStatus(env, args[0], 0).Fine? && ArgStatus(env, args[1], 1).Fine?
  {
    hide ArgCode; hide ArgStatus;
  }

  /** Both inputs of a flip-flop in their scratch registers. */
  lemma BothInputs(prog: seq<Instruction>, env: Env, args: seq<Expr>, vm: Vm) returns (out: Vm)
    requires GoodEnv(env) && |args| >= 2 && Input(env, args[0]) && Input(env, args[1])
    requires ArgStatus(env, args[0], 0).Fine? && ArgStatus(env, args[1], 1).Fine?
    requires var c0 := ArgCode(env, args[0], 0, vm.ip);
             CodeAt(prog, vm.ip, c0) && CodeAt(prog, vm.ip + |c0|, ArgCode(env, args[1], 1, vm.ip + |c0|))
    ensures var c0 := ArgCode(env, args[0], 0, vm.ip);
            && Called(prog, env, vm, |c0| + |ArgCode(env, args[1], 1, vm.ip + |c0|)|, out) && SameStates(vm, out)
            && (out.regs[Scratch(0)] == Bool(true) <==> Truth(env, args[0], vm))
            && (out.regs[Scratch(1)] == Bool(true) <==> Truth(env, args[1], vm))
  {
    hide Step; hide Run; hide CodeAt; hide ArgCode; hide ArgStatus; hide Truth; hide Logical; hide SameStates;
    hide Input; hide Preserves; hide SameRest; hide SameVariables; hide GoodEnv;
    var c0 := ArgCode(env, args[0], 0, vm.ip);
    var mid := InputRuns(prog, env, args[0], 0, vm);
    VariablesPreserved(env, vm, mid, 0);
    out := SecondInput(prog, env, args[1], mid);
    InputKept(env, args[1], vm, mid);
    RunSplit(prog, Next(vm), |c0|, |ArgCode(env, args[1], 1, vm.ip + |c0|)|);
    SameTrans(vm, mid, out);
    KeptTwice(env, vm, mid, out);
  }

  /** `x(S1, R)` on SR and `x(S, R1)` on RS: one tick of that flip-flop. */
  lemma FlipFlopCallRuns(prog: seq<Instruction>, env: Env, x: string, args: seq<Expr>, vm: Vm) returns (out: Vm)
    requires GoodEnv(env) && x in env.regs && (env.types[x].TSr? || env.types[x].TRs?)
    requires |args| >= 2 && Input(env, args[0]) && Input(env, args[1])
    requires CallStatus(env, x, args).Fine? && CodeAt(prog, vm.ip, CallCode(env, x, args, vm.ip))
    ensures var i := RegOf(env, x);
            && Called(prog, env, vm, |CallCode(env, x, args, vm.ip)|, out)
            && SrAt(out, i) == AsSr(FB.SrTick(SrAt(vm, i), if env.types[x].TSr? then FB.Sr else FB.Rs,
                                              Truth(env, args[0], vm), Truth(env, args[1], vm)))
            && (forall j: nat :: j != i ==> SrAt(out, j) == SrAt(vm, j))
  {
    hide Step; hide Run; hide CodeAt; hide ArgCode; hide ArgStatus; hide FB.SrTick; hide Truth; hide Logical;
    hide TimerAt; hide SrAt; hide EdgeAt; hide CounterAt; hide Input; hide Preserves; hide CallCode; hide CallStatus;
    hide SameRest; hide SameVariables; hide AsSr;
    FlipFlopCode(env, x, args, vm.ip);
    var i, c0 := RegOf(env, x), ArgCode(env, args[0], 0, vm.ip);
    var c1 := ArgCode(env, args[1], 1, vm.ip + |c0|);
    var op := Instruction(SrRun, [Imm(i), Register(Scratch(0)), Register(Scratch(1)),
                                  Imm(if env.types[x].TSr? then 0 else 1)]);
    CodeAtSplit(prog, vm.ip, c0 + c1, [op]);
    CodeAtSplit(prog, vm.ip, c0, c1);
    var mid := BothInputs(prog, env, args, vm);
    StepFlipFlop(prog, mid, i, Scratch(0), Scratch(1), if env.types[x].TSr? then 0 else 1);
    out := Step(prog, mid).vm;
    CalledThen(prog, env, vm, |c0| + |c1|, mid, out);
  }

  /** `x(CLK)` on an edge detector: R_TRIG is the rising one, kind 0, F_TRIG the falling. */
  lemma EdgeCallRuns(prog: seq<Instruction>, env: Env, x: string, args: seq<Expr>, vm: Vm) returns (out: Vm)
    requires GoodEnv(env) && x in env.regs && (env.types[x].TRTrig? || env.types[x].TFTrig?)
    requires |args| >= 1 && Input(env, args[0])
    requires CallStatus(env, x, args).Fine? && CodeAt(prog, vm.ip, CallCode(env, x, args, vm.ip))
    ensures var i, clk, before := RegOf(env, x), Truth(env, args[0], vm), EdgeAt(vm, RegOf(env, x)).lastClk;
            && Called(prog, env, vm, |CallCode(env, x, args, vm.ip)|, out)
            && EdgeAt(out, i).lastClk == clk
            && EdgeAt(out, i).q == (if env.types[x].TRTrig? then clk && !before else !clk && before)
            && (forall j: nat :: j != i ==> EdgeAt(out, j) == EdgeAt(vm, j))
  {
    hide Step; hide Run; hide CodeAt; hide ArgCode; hide ArgStatus; hide Truth; hide Logical;
    hide TimerAt; hide SrAt; hide EdgeAt; hide CounterAt; hide Preserves;
    var i, c := RegOf(env, x), ArgCode(env, args[0], 0, vm.ip);
    var op := Instruction(EdgeRun, [Imm(i), Register(Scratch(0)), Imm(if env.types[x].TRTrig? then 0 else 1)]);
    assert CallCode(env, x, args, vm.ip) == c + [op];
    CodeAtSplit(prog, vm.ip, c, [op]);
    var v1 := InputRuns(prog, env, args[0], 0, vm);
    StepEdge(prog, v1, i, Scratch(0), if env.types[x].TRTrig? then 0 else 1);
    RunMore(prog, Next(vm), |c|, v1);
    out := Step(prog, v1).vm;
    VariablesPreserved(env, vm, v1, 0);
  }

  /** A field of a counter is read from the timer of that number, which no call of the
      counter touches: the code asks the wrong table. */
  lemma CounterFieldReadsTimer(prog: seq<Instruction>, env: Env, x: string, f: string, dest: nat, d: nat, vm: Vm)
    requires GoodEnv(env) && x in env.regs && (env.types[x].TCtu? || env.types[x].TCtd? || env.types[x].TCtud?)
    requires d < POOL_SIZE && dest < REGISTER_COUNT && dest != Scratch(d)
    requires CodeAt(prog, vm.ip, ExprCode(env, FieldAccess(x, f), dest, d, vm.ip))
    ensures var out := Run(prog, Next(vm), 1);
            out.Next? && out.vm.regs[dest] == Bool(TimerAt(vm, RegOf(env, x)).q)
  {
    hide Step; hide Run; hide SameStates;
    StepReadTimer(prog, vm, RegOf(env, x), dest, Scratch(d));
    RunOne(prog, vm);
  }

  /** Reading a counter gives its output and its count, a counter that never ran those of a new one. */
  lemma CounterReads(prog: seq<Instruction>, vm: Vm, i: nat, a: nat, b: nat)
    requires CodeAt(prog, vm.ip, [ReadTwo(ReadCounter, i, a, b)]) && a < REGISTER_COUNT && b < REGISTER_COUNT && a != b
    ensures var out := Step(prog, vm);
            && out.Next? && out.vm.ip == vm.ip + 1 && SameRest(vm, out.vm) && SameStates(vm, out.vm)
            && out.vm.regs[a] == Bool(CounterAt(vm, i).q) && out.vm.regs[b] == IntU32(CounterAt(vm, i).cv)
            && (forall r :: 0 <= r < REGISTER_COUNT && r != a && r != b ==> out.vm.regs[r] == vm.regs[r])
  {
    assert prog[vm.ip] == prog[vm.ip..vm.ip + 1][0];
    var ops := prog[vm.ip].operands;
    assert ops[0..] == ops && U32Operand(ops, 0) == Some(i);
    assert Step(prog, vm) == AdvanceIp(ExecReadCounter(ops, vm));
  }
}
