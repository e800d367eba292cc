/** The register machine: instructions, machine state and the meaning of one
    step, as a function on states. */
module Machine {
  import opened HalValues
  import FB = FunctionBlocks

  datatype Opcode =
    | Nop | Load | Store
    | Add | Sub | Mul | Div | Mod | Neg
    | Eq | Neq | Gt | Lt | Gte | Lte
    | And | Or | Xor | Not
    | Jump | JumpIf | Call | Ret
    | TimerRun | ReadTimer | CounterRun | ReadCounter | SrRun | ReadSr | EdgeRun | ReadEdge
    | Halt

  datatype Operand = Register(reg: nat) | Immediate(value: HalValue) | SignalName(name: string)

  datatype Instruction = Instruction(opcode: Opcode, operands: seq<Operand>)

  const REGISTER_COUNT: nat := 16

  datatype VmState = VmState(
    regs: seq<HalValue>,
    flag: bool,
    ip: nat,
    signals: map<string, HalValue>,
    callStack: seq<nat>,
    timers: seq<FB.TimerState>,
    counters: seq<FB.CounterState>,
    srs: seq<FB.SrState>,
    edges: seq<FB.EdgeState>,
    cycleTime: nat)
  {
    predicate Valid() { |regs| == REGISTER_COUNT }
  }

  type Vm = v: VmState | v.Valid() witness FreshVm()

  function FreshVm(): VmState {
    VmState(seq(REGISTER_COUNT, _ => S32(0)), false, 0, map[], [], [], [], [], [], 0)
  }

  /** Ready for the next scan: everything is kept except the instruction pointer. */
  function ResetIp(vm: Vm): Vm { vm.(ip := 0) }

  // ----- instruction constructors -----

  function LoadImm(reg: nat, v: HalValue): Instruction { Instruction(Load, [Register(reg), Immediate(v)]) }
  function LoadReg(dest: nat, src: nat): Instruction { Instruction(Load, [Register(dest), Register(src)]) }
  function LoadSig(dest: nat, name: string): Instruction { Instruction(Load, [Register(dest), SignalName(name)]) }
  function StoreSig(name: string, src: nat): Instruction { Instruction(Store, [SignalName(name), Register(src)]) }
  function Arith3(op: Opcode, a: nat, b: nat, out: nat): Instruction {
    Instruction(op, [Register(a), Register(b), Register(out)])
  }
  function Cmp2(op: Opcode, a: nat, b: nat): Instruction { Instruction(op, [Register(a), Register(b)]) }
  function NotReg(src: nat, dest: nat): Instruction { Instruction(Not, [Register(src), Register(dest)]) }
  function JumpTo(t: nat): Instruction { Instruction(Jump, [Immediate(IntU32(t))]) }
  function JumpIfTo(t: nat): Instruction { Instruction(JumpIf, [Immediate(IntU32(t))]) }
  function CallTo(t: nat): Instruction { Instruction(Call, [Immediate(IntU32(t))]) }
  function RetNone(): Instruction { Instruction(Ret, []) }
  function HaltInstr(): Instruction { Instruction(Halt, []) }

  // ----- one instruction -----

  /** Why the executor would panic. */
  datatype PanicReason = IpOutOfBounds | RegisterOutOfBounds | ArithmeticPanic

  datatype StepOut = Next(vm: Vm) | Halted(vm: Vm) | Panic(reason: PanicReason)

  function ReadOperand(vm: Vm, op: Operand): Option<HalValue> {
    match op
    case Register(r) => if r < REGISTER_COUNT then Some(vm.regs[r]) else None
    case _ => Some(S32(0))
  }

  function DestRegister(op: Operand): nat {
    if op.Register? then op.reg else 0
  }

  function WriteReg(vm: Vm, r: nat, v: HalValue): StepOut {
    if r < REGISTER_COUNT then Next(vm.(regs := vm.regs[r := v])) else Panic(RegisterOutOfBounds)
  }

  function ReadSignal(signals: map<string, HalValue>, name: string): HalValue {
    if name in signals then signals[name] else Bool(false)
  }

  function ArithOf(op: Opcode): Option<ArithOp> {
    match op
    case Add => Some(AddOp) case Sub => Some(SubOp) case Mul => Some(MulOp)
    case Div => Some(DivOp) case Mod => Some(ModOp)
    case _ => None
  }

  function BitOf(op: Opcode): Option<BitOp> {
    match op
    case And => Some(AndOp) case Or => Some(OrOp) case Xor => Some(XorOp)
    case _ => None
  }

  function CmpOf(op: Opcode): Option<CmpOp> {
    match op
    case Eq => Some(EqOp) case Neq => Some(NeqOp) case Gt => Some(GtOp)
    case Lt => Some(LtOp) case Gte => Some(GteOp) case Lte => Some(LteOp)
    case _ => None
  }

  function ExecLoad(ops: seq<Operand>, vm: Vm): StepOut {
    if |ops| < 2 || !ops[0].Register? then Next(vm)
    else
      match ops[1]
      case Immediate(v) => WriteReg(vm, ops[0].reg, v)
      case SignalName(s) => WriteReg(vm, ops[0].reg, ReadSignal(vm.signals, s))
      case Register(r) =>
        if r < REGISTER_COUNT then WriteReg(vm, ops[0].reg, vm.regs[r]) else Panic(RegisterOutOfBounds)
  }

  function ExecStore(ops: seq<Operand>, vm: Vm): StepOut {
    if |ops| < 2 || !ops[0].SignalName? then Next(vm)
    else
      match ReadOperand(vm, ops[1])
      case Some(v) => Next(vm.(signals := vm.signals[ops[0].name := v]))
      case None => Panic(RegisterOutOfBounds)
  }

  function ExecArith(op: ArithOp, ops: seq<Operand>, vm: Vm): StepOut {
    if |ops| < 3 then Next(vm)
    else
      var a, b := ReadOperand(vm, ops[0]), ReadOperand(vm, ops[1]);
      if a.None? || b.None? then Panic(RegisterOutOfBounds)
      else
        match Arith(op, a.value, b.value)
        case Some(v) => WriteReg(vm, DestRegister(ops[2]), v)
        case None => Panic(ArithmeticPanic)
  }

  function ExecBits(op: BitOp, ops: seq<Operand>, vm: Vm): StepOut {
    if |ops| < 3 then Next(vm)
    else
      var a, b := ReadOperand(vm, ops[0]), ReadOperand(vm, ops[1]);
      if a.None? || b.None? then Panic(RegisterOutOfBounds)
      else WriteReg(vm, DestRegister(ops[2]), Bitwise(op, a.value, b.value))
  }

  function ExecUnary(op: Opcode, ops: seq<Operand>, vm: Vm): StepOut {
    if |ops| < 2 then Next(vm)
    else
      match ReadOperand(vm, ops[0])
      case None => Panic(RegisterOutOfBounds)
      case Some(v) => WriteReg(vm, DestRegister(ops[1]), if op.Neg? then Negate(v) else BitNot(v))
  }

  function ExecCompare(op: CmpOp, ops: seq<Operand>, vm: Vm): StepOut {
    if |ops| < 2 then Next(vm)
    else
      var a, b := ReadOperand(vm, ops[0]), ReadOperand(vm, ops[1]);
      if a.None? || b.None? then Panic(RegisterOutOfBounds)
      else Next(vm.(flag := Compare(op, a.value, b.value)))
  }

  function JumpTarget(ops: seq<Operand>): Option<nat> {
    if |ops| > 0 && ops[0].Immediate? && ops[0].value.Int? && ops[0].value.ity == U32 && ops[0].value.n >= 0
    then Some(ops[0].value.n) else None
  }

  function ExecJump(ops: seq<Operand>, vm: Vm): StepOut {
    match JumpTarget(ops)
    case Some(t) => Next(vm.(ip := t))
    case None => Next(vm)
  }

  function ExecJumpIf(ops: seq<Operand>, vm: Vm): StepOut {
    if vm.flag && JumpTarget(ops).Some? then Next(vm.(ip := JumpTarget(ops).value))
    else Next(vm.(ip := vm.ip + 1))
  }

  function CallTarget(ops: seq<Operand>): nat {
    if JumpTarget(ops).Some? then JumpTarget(ops).value
    else if |ops| > 0 && ops[0].Immediate? && ops[0].value.Int? && ops[0].value.ity == I32
    then Unsigned(I32, ops[0].value.n) else 0
  }

  function ExecCall(ops: seq<Operand>, vm: Vm): StepOut {
    Next(vm.(callStack := vm.callStack + [vm.ip + 1], ip := CallTarget(ops)))
  }

  /** A return with an empty call stack ends the scan. */
  function ExecRet(ops: seq<Operand>, vm: Vm): StepOut {
    if vm.callStack == [] then Halted(vm)
    else
      var back := vm.callStack[|vm.callStack| - 1];
      var popped: Vm := vm.(callStack := vm.callStack[..|vm.callStack| - 1]);
      var copied :=
        if |ops| > 0 && ops[0].Register? then
          if ops[0].reg < REGISTER_COUNT then WriteReg(popped, 0, popped.regs[ops[0].reg])
            else Panic(RegisterOutOfBounds)
        else Next(popped);
      if copied.Next? then Next(copied.vm.(ip := back)) else copied
  }

  function U32Operand(ops: seq<Operand>, i: nat): Option<nat> {
    if i < |ops| then JumpTarget(ops[i..]) else None
  }

  /** A Boolean input register; anything but a Boolean reads as false. */
  function BoolOperand(vm: Vm, op: Operand): Option<bool> {
    if op.Register? then
      if op.reg < REGISTER_COUNT then Some(vm.regs[op.reg].Bool? && vm.regs[op.reg].b) else None
    else Some(false)
  }

  /** Tables grow on demand to hold index `idx`. */
  function Grow<T>(s: seq<T>, idx: nat, unused: T): (r: seq<T>)
    ensures idx < |r|
  {
    if idx < |s| then s else s + seq(idx + 1 - |s|, _ => unused)
  }

  function KindOfTimer(k: Option<nat>): FB.TimerKind {
    if k == Some(1) then FB.Tof else if k == Some(2) then FB.Tp else FB.Ton
  }

  /** PT is a 32-bit immediate; a negative one is sign-extended to 64 bits. */
  function PresetOperand(op: Operand): Option<nat> {
    if op.Immediate? && op.value.Int? then
      if op.value.ity == U32 && op.value.n >= 0 then Some(op.value.n)
      else if op.value.ity == I32 then Some(Unsigned(U64, op.value.n))
      else None
    else None
  }

  function ExecTimerRun(ops: seq<Operand>, vm0: Vm): StepOut {
    if |ops| < 3 || U32Operand(ops, 0).None? then Next(vm0)
    else
      var idx := U32Operand(ops, 0).value;
      var kind := KindOfTimer(U32Operand(ops, 3));
      var vm: Vm := vm0.(timers := Grow(vm0.timers, idx, FB.NewTimer(kind)));
      if !ops[1].Register? || PresetOperand(ops[2]).None? then Next(vm)
      else if ops[1].reg >= REGISTER_COUNT then Panic(RegisterOutOfBounds)
      else
        Next(vm.(timers := vm.timers[idx := FB.TimerTick(vm.timers[idx], kind, vm.regs[ops[1].reg] == Bool(true),
                                                         PresetOperand(ops[2]).value, vm.cycleTime)]))
  }

  function WriteTwo(vm: Vm, q: Operand, v: HalValue, w: Operand, u: HalValue): StepOut {
    if !q.Register? || !w.Register? then Next(vm)
    else
      var first := WriteReg(vm, q.reg, v);
      if first.Next? then WriteReg(first.vm, w.reg, u) else first
  }

  function ExecReadTimer(ops: seq<Operand>, vm0: Vm): StepOut {
    if |ops| < 3 || U32Operand(ops, 0).None? then Next(vm0)
    else
      var idx := U32Operand(ops, 0).value;
      var vm: Vm := vm0.(timers := Grow(vm0.timers, idx, FB.NewTimer(FB.Ton)));
      var t := vm.timers[idx];
      WriteTwo(vm, ops[1], Bool(t.q), ops[2], IntU32(t.elapsed % (FB.U32_MAX + 1)))
  }

  function ExecCounterRun(ops: seq<Operand>, vm0: Vm): StepOut {
    if |ops| < 5 || U32Operand(ops, 0).None? then Next(vm0)
    else
      var idx := U32Operand(ops, 0).value;
      var vm: Vm := vm0.(counters := Grow(vm0.counters, idx, FB.NewCounter()));
      if !ops[1].Register? || !ops[2].Register? || U32Operand(ops, 3).None? then Next(vm)
      else
        var cu, cd := BoolOperand(vm, ops[1]), BoolOperand(vm, ops[2]);
        if cu.None? || cd.None? then Panic(RegisterOutOfBounds)
        else
          var k := U32Operand(ops, 4);
          var kind := if k.None? || k == Some(0) then FB.Ctu else if k == Some(1) then FB.Ctd else FB.Ctud;
          Next(vm.(counters := vm.counters[idx := FB.CounterTick(vm.counters[idx], kind, cu.value, cd.value,
                                                                 U32Operand(ops, 3).value)]))
  }

  function ExecReadCounter(ops: seq<Operand>, vm0: Vm): StepOut {
    if |ops| < 3 || U32Operand(ops, 0).None? then Next(vm0)
    else
      var idx := U32Operand(ops, 0).value;
      var vm: Vm := vm0.(counters := Grow(vm0.counters, idx, FB.NewCounter()));
      var c := vm.counters[idx];
      WriteTwo(vm, ops[1], Bool(c.q), ops[2], IntU32(c.cv))
  }

  function ExecSrRun(ops: seq<Operand>, vm0: Vm): StepOut {
    if |ops| < 4 || U32Operand(ops, 0).None? then Next(vm0)
    else
      var idx := U32Operand(ops, 0).value;
      var s1, r := BoolOperand(vm0, ops[1]), BoolOperand(vm0, ops[2]);
      if s1.None? || r.None? then Panic(RegisterOutOfBounds)
      else
        var kind := if U32Operand(ops, 3) == Some(1) then FB.Rs else FB.Sr;
        var vm: Vm := vm0.(srs := Grow(vm0.srs, idx, FB.NewSr(kind)));
        Next(vm.(srs := vm.srs[idx := FB.SrTick(vm.srs[idx], kind, s1.value, r.value)]))
  }

  function ExecReadSr(ops: seq<Operand>, vm0: Vm): StepOut {
    if |ops| < 3 || U32Operand(ops, 0).None? then Next(vm0)
    else
      var idx := U32Operand(ops, 0).value;
      var vm: Vm := vm0.(srs := Grow(vm0.srs, idx, FB.NewSr(FB.Sr)));
      WriteTwo(vm, ops[1], Bool(vm.srs[idx].q1), ops[2], Bool(vm.srs[idx].q2))
  }

  function ExecEdgeRun(ops: seq<Operand>, vm0: Vm): StepOut {
    if |ops| < 3 || U32Operand(ops, 0).None? then Next(vm0)
    else
      var idx := U32Operand(ops, 0).value;
      match BoolOperand(vm0, ops[1])
      case None => Panic(RegisterOutOfBounds)
      case Some(clk) =>
        var kind := if U32Operand(ops, 2).Some? then U32Operand(ops, 2).value % 256 else 0;
        var vm: Vm := vm0.(edges := Grow(vm0.edges, idx, FB.NewEdge()));
        Next(vm.(edges := vm.edges[idx := FB.EdgeTick(vm.edges[idx], kind, clk)]))
  }

  function ExecReadEdge(ops: seq<Operand>, vm0: Vm): StepOut {
    if |ops| < 2 || U32Operand(ops, 0).None? then Next(vm0)
    else
      var idx := U32Operand(ops, 0).value;
      var vm: Vm := vm0.(edges := Grow(vm0.edges, idx, FB.NewEdge()));
      if !ops[1].Register? then Next(vm) else WriteReg(vm, ops[1].reg, Bool(vm.edges[idx].q))
  }

  predicate IsJumping(op: Opcode) { op.Jump? || op.JumpIf? || op.Call? }

  function Execute(inst: Instruction, vm: Vm): StepOut {
    var ops := inst.operands;
    match inst.opcode
    case Nop => Next(vm)
    case Load => ExecLoad(ops, vm)
    case Store => ExecStore(ops, vm)
    case Jump => ExecJump(ops, vm)
    case JumpIf => ExecJumpIf(ops, vm)
    case Call => ExecCall(ops, vm)
    case Ret => ExecRet(ops, vm)
    case TimerRun => ExecTimerRun(ops, vm)
    case ReadTimer => ExecReadTimer(ops, vm)
    case CounterRun => ExecCounterRun(ops, vm)
    case ReadCounter => ExecReadCounter(ops, vm)
    case SrRun => ExecSrRun(ops, vm)
    case ReadSr => ExecReadSr(ops, vm)
    case EdgeRun => ExecEdgeRun(ops, vm)
    case ReadEdge => ExecReadEdge(ops, vm)
    case Halt => Halted(vm)
    case Neg => ExecUnary(Neg, ops, vm)
    case Not => ExecUnary(Not, ops, vm)
    case _ =>
      if ArithOf(inst.opcode).Some? then ExecArith(ArithOf(inst.opcode).value, ops, vm)
      else if BitOf(inst.opcode).Some? then ExecBits(BitOf(inst.opcode).value, ops, vm)
      else if CmpOf(inst.opcode).Some? then ExecCompare(CmpOf(inst.opcode).value, ops, vm)
      else Next(vm)
  }

  function AdvanceIp(out: StepOut): StepOut {
    match out
    case Next(vm) => Next(vm.(ip := vm.ip + 1))
    case Halted(vm) => Halted(vm.(ip := vm.ip + 1))
    case Panic(_) => out
  }

  /** One step: the instruction under the pointer, which then advances unless the
      instruction was a jump. A return is not a jump: it lands one past the
      address that was pushed. */
  function Step(prog: seq<Instruction>, vm: Vm): StepOut {
    if vm.ip >= |prog| then Panic(IpOutOfBounds)
    else if IsJumping(prog[vm.ip].opcode) then Execute(prog[vm.ip], vm)
    else AdvanceIp(Execute(prog[vm.ip], vm))
  }

  // ----- runs -----

  /** `n` steps; a halted or panicked machine stays as it is. */
  function Run(prog: seq<Instruction>, c: StepOut, n: nat): StepOut
    decreases n
  {
    if n == 0 || !c.Next? then c else Run(prog, Step(prog, c.vm), n - 1)
  }

  lemma {:induction false} RunSplit(prog: seq<Instruction>, c: StepOut, m: nat, n: nat)
    ensures Run(prog, c, m + n) == Run(prog, Run(prog, c, m), n)
    decreases m
  {
    if m > 0 && c.Next? {
      RunSplit(prog, Step(prog, c.vm), m - 1, n);
    }
  }

  lemma {:induction false} RunStuck(prog: seq<Instruction>, c: StepOut, n: nat)
    requires !c.Next?
    ensures Run(prog, c, n) == c
  {
  }

  lemma RunNone(prog: seq<Instruction>, vm: Vm)
    ensures Run(prog, Next(vm), 0) == Next(vm)
  {
  }

  lemma RunOne(prog: seq<Instruction>, vm: Vm)
    ensures Run(prog, Next(vm), 1) == Step(prog, vm)
  {
    hide Step;
    assert Run(prog, Next(vm), 1) == Run(prog, Step(prog, vm), 0);
  }

  lemma RunMore(prog: seq<Instruction>, c: StepOut, k: nat, vm: Vm)
    requires Run(prog, c, k) == Next(vm)
    ensures Run(prog, c, k + 1) == Step(prog, vm)
  {
    hide Step; hide Run;
    RunSplit(prog, c, k, 1);
    RunOne(prog, vm);
  }

  /** A run has at most one outcome. */
  lemma RunDeterministic(prog: seq<Instruction>, c: StepOut, m: nat, n: nat)
    requires !Run(prog, c, m).Next? && !Run(prog, c, n).Next?
    ensures Run(prog, c, m) == Run(prog, c, n)
  {
    if m <= n {
      RunSplit(prog, c, m, n - m);
      RunStuck(prog, Run(prog, c, m), n - m);
    } else {
      RunSplit(prog, c, n, m - n);
      RunStuck(prog, Run(prog, c, n), m - n);
    }
  }

  /** `k` scans in a row, each run to its halt and restarted at instruction 0, lead from `vm` to `end`. */
  ghost predicate ScansTo(prog: seq<Instruction>, vm: Vm, k: nat, end: Vm)
    decreases k
  {
    if k == 0 then end == vm
    else exists mid: Vm, n: nat ::
      ScansTo(prog, vm, k - 1, mid) && Run(prog, Next(mid), n).Halted? && end == ResetIp(Run(prog, Next(mid), n).vm)
  }

  /** `code` sits in `prog` at address `at`. */
  predicate CodeAt(prog: seq<Instruction>, at: nat, code: seq<Instruction>) {
    at + |code| <= |prog| && prog[at..at + |code|] == code
  }

  lemma CodeAtSplit(prog: seq<Instruction>, at: nat, a: seq<Instruction>, b: seq<Instruction>)
    requires CodeAt(prog, at, a + b)
    ensures CodeAt(prog, at, a) && CodeAt(prog, at + |a|, b)
  {
    assert prog[at..at + |a|] == (a + b)[..|a|] == a;
    assert prog[at + |a|..at + |a| + |b|] == (a + b)[|a|..] == b;
  }

  // ----- what the emitted instructions do -----

  lemma StepLoadImm(prog: seq<Instruction>, vm: Vm, r: nat, v: HalValue)
    requires CodeAt(prog, vm.ip, [LoadImm(r, v)]) && r < REGISTER_COUNT
    ensures Step(prog, vm) == Next(vm.(regs := vm.regs[r := v], ip := vm.ip + 1))
  {
    assert prog[vm.ip] == prog[vm.ip..vm.ip + 1][0];
  }

  lemma StepArith(prog: seq<Instruction>, vm: Vm, op: Opcode, a: nat, b: nat, out: nat)
    requires ArithOf(op).Some?
    requires CodeAt(prog, vm.ip, [Arith3(op, a, b, out)])
    requires a < REGISTER_COUNT && b < REGISTER_COUNT && out < REGISTER_COUNT
    ensures Step(prog, vm) ==
            match Arith(ArithOf(op).value, vm.regs[a], vm.regs[b])
            case Some(v) => Next(vm.(regs := vm.regs[out := v], ip := vm.ip + 1))
            case None => Panic(ArithmeticPanic)
  {
    assert prog[vm.ip] == prog[vm.ip..vm.ip + 1][0];
  }

  lemma StepCompare(prog: seq<Instruction>, vm: Vm, op: Opcode, a: nat, b: nat)
    requires CmpOf(op).Some?
    requires CodeAt(prog, vm.ip, [Cmp2(op, a, b)])
    requires a < REGISTER_COUNT && b < REGISTER_COUNT
    ensures Step(prog, vm) ==
            Next(vm.(flag := Compare(CmpOf(op).value, vm.regs[a], vm.regs[b]), ip := vm.ip + 1))
  {
    assert prog[vm.ip] == prog[vm.ip..vm.ip + 1][0];
  }

  lemma StepJump(prog: seq<Instruction>, vm: Vm, t: nat)
    requires CodeAt(prog, vm.ip, [JumpTo(t)])
    ensures Step(prog, vm) == Next(vm.(ip := t))
  {
    assert prog[vm.ip] == prog[vm.ip..vm.ip + 1][0];
  }

  lemma StepJumpIf(prog: seq<Instruction>, vm: Vm, t: nat)
    requires CodeAt(prog, vm.ip, [JumpIfTo(t)])
    ensures Step(prog, vm) == Next(vm.(ip := if vm.flag then t else vm.ip + 1))
  {
    assert prog[vm.ip] == prog[vm.ip..vm.ip + 1][0];
  }

  lemma StepStore(prog: seq<Instruction>, vm: Vm, name: string, r: nat)
    requires CodeAt(prog, vm.ip, [StoreSig(name, r)]) && r < REGISTER_COUNT
    ensures Step(prog, vm) == Next(vm.(signals := vm.signals[name := vm.regs[r]], ip := vm.ip + 1))
  {
    assert prog[vm.ip] == prog[vm.ip..vm.ip + 1][0];
  }

  lemma StepLoadReg(prog: seq<Instruction>, vm: Vm, dest: nat, src: nat)
    requires CodeAt(prog, vm.ip, [LoadReg(dest, src)]) && dest < REGISTER_COUNT && src < REGISTER_COUNT
    ensures Step(prog, vm) == Next(vm.(regs := vm.regs[dest := vm.regs[src]], ip := vm.ip + 1))
  {
    assert prog[vm.ip] == prog[vm.ip..vm.ip + 1][0];
  }

  lemma StepLoadSig(prog: seq<Instruction>, vm: Vm, dest: nat, name: string)
    requires CodeAt(prog, vm.ip, [LoadSig(dest, name)]) && dest < REGISTER_COUNT
    ensures Step(prog, vm) == Next(vm.(regs := vm.regs[dest := ReadSignal(vm.signals, name)], ip := vm.ip + 1))
  {
    assert prog[vm.ip] == prog[vm.ip..vm.ip + 1][0];
  }

  lemma StepNot(prog: seq<Instruction>, vm: Vm, src: nat, dest: nat)
    requires CodeAt(prog, vm.ip, [NotReg(src, dest)]) && dest < REGISTER_COUNT && src < REGISTER_COUNT
    ensures Step(prog, vm) == Next(vm.(regs := vm.regs[dest := BitNot(vm.regs[src])], ip := vm.ip + 1))
  {
    assert prog[vm.ip] == prog[vm.ip..vm.ip + 1][0];
  }

  lemma StepBits(prog: seq<Instruction>, vm: Vm, op: Opcode, a: nat, b: nat, out: nat)
    requires BitOf(op).Some?
    requires CodeAt(prog, vm.ip, [Arith3(op, a, b, out)])
    requires a < REGISTER_COUNT && b < REGISTER_COUNT && out < REGISTER_COUNT
    ensures Step(prog, vm) ==
            Next(vm.(regs := vm.regs[out := Bitwise(BitOf(op).value, vm.regs[a], vm.regs[b])], ip := vm.ip + 1))
  {
    assert prog[vm.ip] == prog[vm.ip..vm.ip + 1][0];
  }

  /** A return outside any call ends the run. */
  lemma StepRetTop(prog: seq<Instruction>, vm: Vm)
    requires CodeAt(prog, vm.ip, [RetNone()]) && vm.callStack == []
    ensures Step(prog, vm) == Halted(vm.(ip := vm.ip + 1))
  {
    assert prog[vm.ip] == prog[vm.ip..vm.ip + 1][0];
  }

  lemma StepHalt(prog: seq<Instruction>, vm: Vm)
    requires CodeAt(prog, vm.ip, [HaltInstr()])
    ensures Step(prog, vm) == Halted(vm.(ip := vm.ip + 1))
  {
    assert prog[vm.ip] == prog[vm.ip..vm.ip + 1][0];
  }

  // ----- calls and returns -----

  lemma StepCall(prog: seq<Instruction>, vm: Vm, t: nat)
    requires CodeAt(prog, vm.ip, [CallTo(t)])
    ensures Step(prog, vm) == Next(vm.(callStack := vm.callStack + [vm.ip + 1], ip := t))
  {
    assert prog[vm.ip] == prog[vm.ip..vm.ip + 1][0];
  }

  /** A return goes to one past the address on top of the call stack. */
  lemma StepRet(prog: seq<Instruction>, vm: Vm, stack: seq<nat>, back: nat)
    requires CodeAt(prog, vm.ip, [RetNone()]) && vm.callStack == stack + [back]
    ensures Step(prog, vm) == Next(vm.(callStack := stack, ip := back + 1))
  {
    assert prog[vm.ip] == prog[vm.ip..vm.ip + 1][0];
    assert vm.callStack[..|vm.callStack| - 1] == stack;
  }

  predicate SameStack(out: StepOut, vm: Vm) { out.Next? ==> out.vm.callStack == vm.callStack }

  lemma PlainHandlersKeepStack(inst: Instruction, vm: Vm)
    ensures SameStack(ExecLoad(inst.operands, vm), vm) && SameStack(ExecStore(inst.operands, vm), vm)
    ensures SameStack(ExecJump(inst.operands, vm), vm) && SameStack(ExecJumpIf(inst.operands, vm), vm)
    ensures SameStack(ExecUnary(inst.opcode, inst.operands, vm), vm)
    ensures ArithOf(inst.opcode).Some? ==> SameStack(ExecArith(ArithOf(inst.opcode).value, inst.operands, vm), vm)
    ensures BitOf(inst.opcode).Some? ==> SameStack(ExecBits(BitOf(inst.opcode).value, inst.operands, vm), vm)
    ensures CmpOf(inst.opcode).Some? ==> SameStack(ExecCompare(CmpOf(inst.opcode).value, inst.operands, vm), vm)
  {
    hide Arith; hide Bitwise; hide Compare; hide BitNot; hide Negate; hide ReadOperand;
  }

  lemma BlockRunsKeepStack(ops: seq<Operand>, vm: Vm)
    ensures SameStack(ExecTimerRun(ops, vm), vm) && SameStack(ExecCounterRun(ops, vm), vm)
    ensures SameStack(ExecSrRun(ops, vm), vm) && SameStack(ExecEdgeRun(ops, vm), vm)
  {
    hide FB.TimerTick; hide FB.CounterTick; hide FB.SrTick; hide FB.EdgeTick; hide Grow; hide BoolOperand;
    hide U32Operand;
    hide PresetOperand; hide KindOfTimer;
  }

  lemma BlockReadsKeepStack(ops: seq<Operand>, vm: Vm)
    ensures SameStack(ExecReadTimer(ops, vm), vm) && SameStack(ExecReadCounter(ops, vm), vm)
    ensures SameStack(ExecReadSr(ops, vm), vm) && SameStack(ExecReadEdge(ops, vm), vm)
  {
    hide Grow; hide U32Operand;
  }

  lemma ExecuteKeepsStack(inst: Instruction, vm: Vm)
    requires !inst.opcode.Call? && !inst.opcode.Ret?
    ensures SameStack(Execute(inst, vm), vm)
  {
    hide ExecLoad; hide ExecStore; hide ExecJump; hide ExecJumpIf; hide ExecUnary; hide ExecArith; hide ExecBits;
    hide ExecCompare; hide ExecTimerRun; hide ExecCounterRun; hide ExecSrRun; hide ExecEdgeRun; hide ExecReadTimer;
    hide ExecReadCounter; hide ExecReadSr; hide ExecReadEdge; hide ExecCall; hide ExecRet;
    PlainHandlersKeepStack(inst, vm);
    BlockRunsKeepStack(inst.operands, vm);
    BlockReadsKeepStack(inst.operands, vm);
  }

  lemma OthersKeepStack(prog: seq<Instruction>, vm: Vm)
    requires vm.ip < |prog| && !prog[vm.ip].opcode.Call? && !prog[vm.ip].opcode.Ret?
    ensures SameStack(Step(prog, vm), vm)
  {
    hide Execute;
    ExecuteKeepsStack(prog[vm.ip], vm);
  }

  /** `n` steps that meet no call and no return. */
  predicate CallFree(prog: seq<Instruction>, c: StepOut, n: nat)
    decreases n
  {
    n == 0 ||
    (c.Next? && c.vm.ip < |prog| && !prog[c.vm.ip].opcode.Call? && !prog[c.vm.ip].opcode.Ret? &&
     CallFree(prog, Step(prog, c.vm), n - 1))
  }

  lemma {:induction false} BodyKeepsStack(prog: seq<Instruction>, vm: Vm, n: nat)
    requires CallFree(prog, Next(vm), n) && Run(prog, Next(vm), n).Next?
    ensures Run(prog, Next(vm), n).vm.callStack == vm.callStack
    decreases n
  {
    hide Step;
    if n > 0 {
      var next := Step(prog, vm);
      assert next.Next?;
      OthersKeepStack(prog, vm);
      BodyKeepsStack(prog, next.vm, n - 1);
    }
  }

  /** From a call to its return, over any body that leaves the call stack as the call made
      it: the run goes on two behind the call, so the instruction behind it is skipped. */
  lemma CallReturns(prog: seq<Instruction>, vm: Vm, t: nat, n: nat)
    requires CodeAt(prog, vm.ip, [CallTo(t)])
    requires var out := Run(prog, Step(prog, vm), n);
             out.Next? && out.vm.callStack == vm.callStack + [vm.ip + 1] && CodeAt(prog, out.vm.ip, [RetNone()])
    ensures Run(prog, Next(vm), n + 2) ==
            Next(Run(prog, Step(prog, vm), n).vm.(callStack := vm.callStack, ip := vm.ip + 2))
  {
    hide Step; hide Run;
    var end := Run(prog, Step(prog, vm), n).vm;
    RunOne(prog, vm);
    RunSplit(prog, Next(vm), 1, n);
    StepRet(prog, end, vm.callStack, vm.ip + 1);
    RunMore(prog, Next(vm), n + 1, end);
  }

  /** Every call of a routine without calls or returns of its own skips the instruction
      behind it; the only exception is a routine that never comes to its return. */
  lemma CallSkipsNext(prog: seq<Instruction>, vm: Vm, t: nat, n: nat)
    requires CodeAt(prog, vm.ip, [CallTo(t)]) && CallFree(prog, Step(prog, vm), n)
    requires var out := Run(prog, Step(prog, vm), n); out.Next? && CodeAt(prog, out.vm.ip, [RetNone()])
    ensures Run(prog, Next(vm), n + 2) ==
            Next(Run(prog, Step(prog, vm), n).vm.(callStack := vm.callStack, ip := vm.ip + 2))
  {
    hide Step; hide Run; hide CallFree;
    StepCall(prog, vm, t);
    BodyKeepsStack(prog, Step(prog, vm).vm, n);
    CallReturns(prog, vm, t, n);
  }

  /** The shortest routine, a return alone. */
  lemma CallAndReturn(prog: seq<Instruction>, vm: Vm, t: nat)
    requires CodeAt(prog, vm.ip, [CallTo(t)]) && CodeAt(prog, t, [RetNone()])
    ensures Run(prog, Next(vm), 2) == Next(vm.(ip := vm.ip + 2))
  {
    hide Step; hide Run;
    StepCall(prog, vm, t);
    RunNone(prog, Step(prog, vm).vm);
    CallSkipsNext(prog, vm, t, 0);
  }

  // ----- what writes a signal -----

  predicate SameSignals(out: StepOut, vm: Vm) { !out.Panic? ==> out.vm.signals == vm.signals }

  lemma PlainHandlersKeepSignals(inst: Instruction, vm: Vm)
    ensures SameSignals(ExecLoad(inst.operands, vm), vm)
    ensures SameSignals(ExecJump(inst.operands, vm), vm) && SameSignals(ExecJumpIf(inst.operands, vm), vm)
    ensures SameSignals(ExecCall(inst.operands, vm), vm)
    ensures SameSignals(ExecUnary(inst.opcode, inst.operands, vm), vm)
    ensures ArithOf(inst.opcode).Some? ==> SameSignals(ExecArith(ArithOf(inst.opcode).value, inst.operands, vm), vm)
    ensures BitOf(inst.opcode).Some? ==> SameSignals(ExecBits(BitOf(inst.opcode).value, inst.operands, vm), vm)
    ensures CmpOf(inst.opcode).Some? ==> SameSignals(ExecCompare(CmpOf(inst.opcode).value, inst.operands, vm), vm)
  {
    hide Arith; hide Bitwise; hide Compare; hide BitNot; hide Negate; hide ReadOperand; hide CallTarget;
  }

  lemma ReturnKeepsSignals(ops: seq<Operand>, vm: Vm)
    ensures SameSignals(ExecRet(ops, vm), vm)
  {
  }

  lemma BlockRunsKeepSignals(ops: seq<Operand>, vm: Vm)
    ensures SameSignals(ExecTimerRun(ops, vm), vm) && SameSignals(ExecCounterRun(ops, vm), vm)
    ensures SameSignals(ExecSrRun(ops, vm), vm) && SameSignals(ExecEdgeRun(ops, vm), vm)
  {
    hide FB.TimerTick; hide FB.CounterTick; hide FB.SrTick; hide FB.EdgeTick; hide Grow; hide BoolOperand;
    hide U32Operand;
    hide PresetOperand; hide KindOfTimer;
  }

  lemma BlockReadsKeepSignals(ops: seq<Operand>, vm: Vm)
    ensures SameSignals(ExecReadTimer(ops, vm), vm) && SameSignals(ExecReadCounter(ops, vm), vm)
    ensures SameSignals(ExecReadSr(ops, vm), vm) && SameSignals(ExecReadEdge(ops, vm), vm)
  {
    hide Grow; hide U32Operand;
  }

  lemma ExecuteKeepsSignals(inst: Instruction, vm: Vm)
    requires !inst.opcode.Store?
    ensures SameSignals(Execute(inst, vm), vm)
  {
    hide ExecLoad; hide ExecStore; hide ExecJump; hide ExecJumpIf; hide ExecUnary; hide ExecArith; hide ExecBits;
    hide ExecCompare; hide ExecTimerRun; hide ExecCounterRun; hide ExecSrRun; hide ExecEdgeRun; hide ExecReadTimer;
    hide ExecReadCounter; hide ExecReadSr; hide ExecReadEdge; hide ExecCall; hide ExecRet;
    PlainHandlersKeepSignals(inst, vm);
    ReturnKeepsSignals(inst.operands, vm);
    BlockRunsKeepSignals(inst.operands, vm);
    BlockReadsKeepSignals(inst.operands, vm);
  }

  predicate StoresTo(inst: Instruction, x: string) {
    inst.opcode.Store? && |inst.operands| > 0 && inst.operands[0] == SignalName(x)
  }

  predicate KeepsSignal(out: StepOut, before: map<string, HalValue>, x: string) {
    !out.Panic? ==> (x in out.vm.signals <==> x in before) && (x in before ==> out.vm.signals[x] == before[x])
  }

  lemma StepKeepsSignal(prog: seq<Instruction>, vm: Vm, x: string)
    requires vm.ip < |prog| ==> !StoresTo(prog[vm.ip], x)
    ensures KeepsSignal(Step(prog, vm), vm.signals, x)
  {
    hide Execute;
    if vm.ip < |prog| {
      var inst := prog[vm.ip];
      if inst.opcode.Store? { StoreKeepsOthers(inst, vm, x); } else { ExecuteKeepsSignals(inst, vm); }
    }
  }

  lemma StoreKeepsOthers(inst: Instruction, vm: Vm, x: string)
    requires inst.opcode.Store? && !StoresTo(inst, x)
    ensures KeepsSignal(Execute(inst, vm), vm.signals, x)
  {
  }

  /** A signal that no instruction stores to keeps its value over every run. */
  lemma {:induction false} RunKeepsSignal(prog: seq<Instruction>, vm: Vm, x: string, n: nat)
    requires forall i :: 0 <= i < |prog| ==> !StoresTo(prog[i], x)
    ensures KeepsSignal(Run(prog, Next(vm), n), vm.signals, x)
    decreases n
  {
    hide Step; hide StoresTo;
    if n > 0 {
      StepKeepsSignal(prog, vm, x);
      var next := Step(prog, vm);
      if next.Next? {
        RunKeepsSignal(prog, next.vm, x, n - 1);
      } else {
        RunStuck(prog, next, n - 1);
      }
    }
  }
}
