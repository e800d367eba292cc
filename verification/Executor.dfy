/** The executor as it runs: a machine object updated in place, one handler per
    instruction, and the debugger's state around it. */
module ExecutorModel {
  import opened HalValues
  import FB = FunctionBlocks
  import M = Machine

  datatype StepResult = Continue | Stopped | Breaked | Panicked(reason: M.PanicReason)

  class Vm {
    const registers: array<HalValue>
    var flagsZero: bool
    var ip: nat
    var signals: map<string, HalValue>
    var callStack: seq<nat>
    var timers: seq<FB.TimerState>
    var counters: seq<FB.CounterState>
    var srs: seq<FB.SrState>
    var edges: seq<FB.EdgeState>
    var cycleTime: nat

    ghost predicate Valid()
      reads this
    {
      registers.Length == M.REGISTER_COUNT
    }

    /** The abstract state. */
    ghost function State(): M.Vm
      reads this, registers
      requires Valid()
    {
      M.VmState(registers[..], flagsZero, ip, signals, callStack, timers, counters, srs, edges, cycleTime)
    }

    constructor ()
      ensures Valid() && State() == M.FreshVm() && fresh(registers)
    {
      registers := new HalValue[M.REGISTER_COUNT](_ => S32(0));
      flagsZero, ip, signals, callStack := false, 0, map[], [];
      timers, counters, srs, edges, cycleTime := [], [], [], [], 0;
      new;
      assert registers[..] == seq(M.REGISTER_COUNT, _ => S32(0));
    }

    method WriteRegister(idx: nat, val: HalValue) returns (r: StepResult)
      requires Valid()
      modifies registers
      ensures Is(r, M.WriteReg(old(State()), idx, val))
    {
      if idx >= M.REGISTER_COUNT { return Panicked(M.RegisterOutOfBounds); }
      registers[idx] := val;
      r := Continue;
    }

    /** Scan restart: only the instruction pointer changes. */
    method ResetIp()
      requires Valid()
      modifies this`ip
      ensures State() == M.ResetIp(old(State()))
    {
      ip := 0;
    }

    /** Full reset: function blocks and the cycle time survive it. */
    method Reset()
      requires Valid()
      modifies this`flagsZero, this`ip, this`signals, this`callStack, registers
      ensures State() == M.FreshVm().(timers := old(timers), counters := old(counters), srs := old(srs),
                                      edges := old(edges), cycleTime := old(cycleTime))
    {
      var i := 0;
      while i < M.REGISTER_COUNT
        invariant 0 <= i <= M.REGISTER_COUNT
        invariant forall j :: 0 <= j < i ==> registers[j] == S32(0)
      {
        registers[i] := S32(0);
        i := i + 1;
      }
      flagsZero, ip, signals, callStack := false, 0, map[], [];
      assert registers[..] == seq(M.REGISTER_COUNT, _ => S32(0));
    }

    /** The machine is where the abstract step says, and the caller is told so. */
    ghost predicate Is(r: StepResult, out: M.StepOut)
      reads this, registers
      requires Valid()
    {
      match out
      case Next(v) => r == Continue && State() == v
      case Halted(v) => r == Stopped && State() == v
      case Panic(reason) => r == Panicked(reason)
    }

    // ----- instruction handlers -----

    method ExecLoad(ops: seq<M.Operand>) returns (r: StepResult)
      requires Valid()
      modifies registers
      ensures Is(r, M.ExecLoad(ops, old(State())))
    {
      if |ops| < 2 || !ops[0].Register? { return Continue; }
      match ops[1]
      case Immediate(v) => r := WriteRegister(ops[0].reg, v);
      case Register(src) =>
        if src >= M.REGISTER_COUNT { return Panicked(M.RegisterOutOfBounds); }
        r := WriteRegister(ops[0].reg, registers[src]);
      case SignalName(name) =>
        r := WriteRegister(ops[0].reg, if name in signals then signals[name] else Bool(false));
    }

    /** `None` is a register index out of bounds; a missing register reads as zero. */
    method ReadReg(op: M.Operand) returns (v: Option<HalValue>)
      requires Valid()
      ensures v == M.ReadOperand(State(), op)
    {
      if !op.Register? { return Some(S32(0)); }
      if op.reg >= M.REGISTER_COUNT { return None; }
      return Some(registers[op.reg]);
    }

    method ExecStore(ops: seq<M.Operand>) returns (r: StepResult)
      requires Valid()
      modifies this`signals
      ensures Is(r, M.ExecStore(ops, old(State())))
    {
      if |ops| < 2 || !ops[0].SignalName? { return Continue; }
      var v := ReadReg(ops[1]);
      if v.None? { return Panicked(M.RegisterOutOfBounds); }
      signals := signals[ops[0].name := v.value];
      r := Continue;
    }

    method ExecArith(op: ArithOp, ops: seq<M.Operand>) returns (r: StepResult)
      requires Valid()
      modifies registers
      ensures Is(r, M.ExecArith(op, ops, old(State())))
    {
      hide Arith;
      if |ops| < 3 { return Continue; }
      var a := ReadReg(ops[0]);
      var b := ReadReg(ops[1]);
      if a.None? || b.None? { return Panicked(M.RegisterOutOfBounds); }
      var v := Arith(op, a.value, b.value);
      if v.None? { return Panicked(M.ArithmeticPanic); }
      r := WriteRegister(M.DestRegister(ops[2]), v.value);
    }

    method ExecBits(op: BitOp, ops: seq<M.Operand>) returns (r: StepResult)
      requires Valid()
      modifies registers
      ensures Is(r, M.ExecBits(op, ops, old(State())))
    {
      hide Bitwise;
      if |ops| < 3 { return Continue; }
      var a := ReadReg(ops[0]);
      var b := ReadReg(ops[1]);
      if a.None? || b.None? { return Panicked(M.RegisterOutOfBounds); }
      r := WriteRegister(M.DestRegister(ops[2]), Bitwise(op, a.value, b.value));
    }

    method ExecUnary(op: M.Opcode, ops: seq<M.Operand>) returns (r: StepResult)
      requires Valid()
      modifies registers
      ensures Is(r, M.ExecUnary(op, ops, old(State())))
    {
      hide Negate; hide BitNot;
      if |ops| < 2 { return Continue; }
      var a := ReadReg(ops[0]);
      if a.None? { return Panicked(M.RegisterOutOfBounds); }
      r := WriteRegister(M.DestRegister(ops[1]), if op.Neg? then Negate(a.value) else BitNot(a.value));
    }

    method ExecCompare(op: CmpOp, ops: seq<M.Operand>) returns (r: StepResult)
      requires Valid()
      modifies this`flagsZero
      ensures Is(r, M.ExecCompare(op, ops, old(State())))
    {
      hide Compare;
      if |ops| < 2 { return Continue; }
      var a := ReadReg(ops[0]);
      var b := ReadReg(ops[1]);
      if a.None? || b.None? { return Panicked(M.RegisterOutOfBounds); }
      flagsZero := Compare(op, a.value, b.value);
      r := Continue;
    }

    method ExecJump(ops: seq<M.Operand>) returns (r: StepResult)
      requires Valid()
      modifies this`ip
      ensures Is(r, M.ExecJump(ops, old(State())))
    {
      var t := M.JumpTarget(ops);
      if t.Some? { ip := t.value; }
      r := Continue;
    }

    method ExecJumpIf(ops: seq<M.Operand>) returns (r: StepResult)
      requires Valid()
      modifies this`ip
      ensures Is(r, M.ExecJumpIf(ops, old(State())))
    {
      var t := M.JumpTarget(ops);
      if flagsZero && t.Some? {
        ip := t.value;
        return Continue;
      }
      ip := ip + 1;
      r := Continue;
    }

    method ExecCall(ops: seq<M.Operand>) returns (r: StepResult)
      requires Valid()
      modifies this`ip, this`callStack
      ensures Is(r, M.ExecCall(ops, old(State())))
    {
      callStack := callStack + [ip + 1];
      ip := M.CallTarget(ops);
      r := Continue;
    }

    method ExecRet(ops: seq<M.Operand>) returns (r: StepResult)
      requires Valid()
      modifies this`ip, this`callStack, registers
      ensures Is(r, M.ExecRet(ops, old(State())))
    {
      if callStack == [] { return Stopped; }
      var back := callStack[|callStack| - 1];
      callStack := callStack[..|callStack| - 1];
      if |ops| > 0 && ops[0].Register? {
        if ops[0].reg >= M.REGISTER_COUNT { return Panicked(M.RegisterOutOfBounds); }
        r := WriteRegister(0, registers[ops[0].reg]);
      }
      ip := back;
      r := Continue;
    }

    // ----- function blocks -----

    method ExecTimerRun(ops: seq<M.Operand>) returns (r: StepResult)
      requires Valid()
      modifies this`timers
      ensures Is(r, M.ExecTimerRun(ops, old(State())))
    {
      if |ops| < 3 || M.U32Operand(ops, 0).None? { return Continue; }
      var idx := M.U32Operand(ops, 0).value;
      var kind := M.KindOfTimer(M.U32Operand(ops, 3));
      while |timers| <= idx
        invariant M.Grow(timers, idx, FB.NewTimer(kind)) == M.Grow(old(timers), idx, FB.NewTimer(kind))
        invariant Valid()
      {
        timers := timers + [FB.NewTimer(kind)];
      }
      if !ops[1].Register? || M.PresetOperand(ops[2]).None? { return Continue; }
      if ops[1].reg >= M.REGISTER_COUNT { return Panicked(M.RegisterOutOfBounds); }
      var t := TickTimer(timers[idx], kind, registers[ops[1].reg] == Bool(true), M.PresetOperand(ops[2]).value,
                         cycleTime);
      timers := timers[idx := t];
      r := Continue;
    }

    /** The nested decisions of the three timer kinds, field by field. */
    static method TickTimer(t0: FB.TimerState, kind: FB.TimerKind, input: bool, pt: nat,
                            cycle: nat) returns (t: FB.TimerState)
      ensures t == FB.TimerTick(t0, kind, input, pt, cycle)
    {
      var prev, elapsed, q := t0.inVal, t0.elapsed, t0.q;
      match kind {
        case Ton =>
          if !input {
            q, elapsed := false, 0;
          } else if elapsed >= pt {
            q := true;
          } else {
            elapsed := FB.SatAdd(elapsed, cycle);
            if elapsed >= pt { q, elapsed := true, pt; }
          }
        case Tof =>
          if input {
            q, elapsed := true, 0;
          } else if q {
            elapsed := FB.SatAdd(elapsed, cycle);
            if elapsed >= pt { q, elapsed := false, pt; }
          }
        case Tp =>
          if input && !prev { q, elapsed := true, 0; }
          if q {
            elapsed := FB.SatAdd(elapsed, cycle);
            if elapsed >= pt { q, elapsed := false, pt; }
            if !input { q := false; }
          }
      }
      t := FB.TimerState(kind, input, elapsed, q, pt);
    }

    /** Two results into two registers; both must be named. */
    method WriteBoth(q: M.Operand, v: HalValue, w: M.Operand, u: HalValue) returns (r: StepResult)
      requires Valid()
      modifies registers
      ensures Is(r, M.WriteTwo(old(State()), q, v, w, u))
    {
      if !q.Register? || !w.Register? { return Continue; }
      r := WriteRegister(q.reg, v);
      if r == Continue { r := WriteRegister(w.reg, u); }
    }

    method ExecReadTimer(ops: seq<M.Operand>) returns (r: StepResult)
      requires Valid()
      modifies this`timers, registers
      ensures Is(r, M.ExecReadTimer(ops, old(State())))
    {
      if |ops| < 3 || M.U32Operand(ops, 0).None? { return Continue; }
      var idx := M.U32Operand(ops, 0).value;
      while |timers| <= idx
        invariant M.Grow(timers, idx, FB.NewTimer(FB.Ton)) == M.Grow(old(timers), idx, FB.NewTimer(FB.Ton))
        invariant Valid() && registers[..] == old(registers[..])
      {
        timers := timers + [FB.NewTimer(FB.Ton)];
      }
      r := WriteBoth(ops[1], Bool(timers[idx].q), ops[2], IntU32(timers[idx].elapsed % (FB.U32_MAX + 1)));
    }

    static method TickCounter(c0: FB.CounterState, kind: FB.CounterKind, cu: bool, cd: bool,
                              pv: nat) returns (c: FB.CounterState)
      ensures c == FB.CounterTick(c0, kind, cu, cd, pv)
    {
      var cv, q, qu, qd := c0.cv, c0.q, c0.qu, c0.qd;
      match kind {
        case Ctu =>
          if cu && !c0.cu { cv := FB.CountUp(cv, pv); }
          q := cv >= pv;
        case Ctd =>
          if cd && !c0.cd { cv := FB.CountDown(cv); }
          q := cv == 0;
        case Ctud =>
          if cu && !c0.cu { cv := FB.CountUp(cv, pv); }
          if cd && !c0.cd { cv := FB.CountDown(cv); }
          qu, qd := cv >= pv, cv == 0;
          q := qu;
      }
      c := FB.CounterState(kind, cu, cd, cv, pv, q, qu, qd);
    }

    /** Anything but a Boolean reads as false. */
    method ReadBool(op: M.Operand) returns (b: Option<bool>)
      requires Valid()
      ensures b == M.BoolOperand(State(), op)
    {
      if !op.Register? { return Some(false); }
      if op.reg >= M.REGISTER_COUNT { return None; }
      var v := registers[op.reg];
      return Some(v.Bool? && v.b);
    }

    method ExecCounterRun(ops: seq<M.Operand>) returns (r: StepResult)
      requires Valid()
      modifies this`counters
      ensures Is(r, M.ExecCounterRun(ops, old(State())))
    {
      if |ops| < 5 || M.U32Operand(ops, 0).None? { return Continue; }
      var idx := M.U32Operand(ops, 0).value;
      while |counters| <= idx
        invariant M.Grow(counters, idx, FB.NewCounter()) == M.Grow(old(counters), idx, FB.NewCounter())
        invariant Valid()
      {
        counters := counters + [FB.NewCounter()];
      }
      if !ops[1].Register? || !ops[2].Register? || M.U32Operand(ops, 3).None? { return Continue; }
      var cu := ReadBool(ops[1]);
      var cd := ReadBool(ops[2]);
      if cu.None? || cd.None? { return Panicked(M.RegisterOutOfBounds); }
      var k := M.U32Operand(ops, 4);
      var kind := if k.None? || k == Some(0) then FB.Ctu else if k == Some(1) then FB.Ctd else FB.Ctud;
      var c := TickCounter(counters[idx], kind, cu.value, cd.value, M.U32Operand(ops, 3).value);
      counters := counters[idx := c];
      r := Continue;
    }

    method ExecReadCounter(ops: seq<M.Operand>) returns (r: StepResult)
      requires Valid()
      modifies this`counters, registers
      ensures Is(r, M.ExecReadCounter(ops, old(State())))
    {
      if |ops| < 3 || M.U32Operand(ops, 0).None? { return Continue; }
      var idx := M.U32Operand(ops, 0).value;
      while |counters| <= idx
        invariant M.Grow(counters, idx, FB.NewCounter()) == M.Grow(old(counters), idx, FB.NewCounter())
        invariant Valid() && registers[..] == old(registers[..])
      {
        counters := counters + [FB.NewCounter()];
      }
      r := WriteBoth(ops[1], Bool(counters[idx].q), ops[2], IntU32(counters[idx].cv));
    }

    method ExecSrRun(ops: seq<M.Operand>) returns (r: StepResult)
      requires Valid()
      modifies this`srs
      ensures Is(r, M.ExecSrRun(ops, old(State())))
    {
      if |ops| < 4 || M.U32Operand(ops, 0).None? { return Continue; }
      var idx := M.U32Operand(ops, 0).value;
      var s1 := ReadBool(ops[1]);
      var rs := ReadBool(ops[2]);
      if s1.None? || rs.None? { return Panicked(M.RegisterOutOfBounds); }
      var kind := if M.U32Operand(ops, 3) == Some(1) then FB.Rs else FB.Sr;
      while |srs| <= idx
        invariant M.Grow(srs, idx, FB.NewSr(kind)) == M.Grow(old(srs), idx, FB.NewSr(kind))
        invariant Valid()
      {
        srs := srs + [FB.NewSr(kind)];
      }
      var q1, q2 := srs[idx].q1, srs[idx].q2;
      if kind.Sr? {
        if s1.value { q1, q2 := true, false; } else if rs.value { q1, q2 := false, true; }
      } else {
        if rs.value { q1, q2 := false, true; } else if s1.value { q1, q2 := true, false; }
      }
      srs := srs[idx := FB.SrState(kind, s1.value, rs.value, q1, q2)];
      r := Continue;
    }

    method ExecReadSr(ops: seq<M.Operand>) returns (r: StepResult)
      requires Valid()
      modifies this`srs, registers
      ensures Is(r, M.ExecReadSr(ops, old(State())))
    {
      if |ops| < 3 || M.U32Operand(ops, 0).None? { return Continue; }
      var idx := M.U32Operand(ops, 0).value;
      while |srs| <= idx
        invariant M.Grow(srs, idx, FB.NewSr(FB.Sr)) == M.Grow(old(srs), idx, FB.NewSr(FB.Sr))
        invariant Valid() && registers[..] == old(registers[..])
      {
        srs := srs + [FB.NewSr(FB.Sr)];
      }
      r := WriteBoth(ops[1], Bool(srs[idx].q1), ops[2], Bool(srs[idx].q2));
    }

    method ExecEdgeRun(ops: seq<M.Operand>) returns (r: StepResult)
      requires Valid()
      modifies this`edges
      ensures Is(r, M.ExecEdgeRun(ops, old(State())))
    {
      if |ops| < 3 || M.U32Operand(ops, 0).None? { return Continue; }
      var idx := M.U32Operand(ops, 0).value;
      var clk := ReadBool(ops[1]);
      if clk.None? { return Panicked(M.RegisterOutOfBounds); }
      var kind := if M.U32Operand(ops, 2).Some? then M.U32Operand(ops, 2).value % 256 else 0;
      while |edges| <= idx
        invariant M.Grow(edges, idx, FB.NewEdge()) == M.Grow(old(edges), idx, FB.NewEdge())
        invariant Valid()
      {
        edges := edges + [FB.NewEdge()];
      }
      var last := edges[idx].lastClk;
      var q := if kind == 0 then clk.value && !last else if kind == 1 then !clk.value && last else false;
      edges := edges[idx := FB.EdgeState(kind, clk.value, q)];
      r := Continue;
    }

    method ExecReadEdge(ops: seq<M.Operand>) returns (r: StepResult)
      requires Valid()
      modifies this`edges, registers
      ensures Is(r, M.ExecReadEdge(ops, old(State())))
    {
      if |ops| < 2 || M.U32Operand(ops, 0).None? { return Continue; }
      var idx := M.U32Operand(ops, 0).value;
      while |edges| <= idx
        invariant M.Grow(edges, idx, FB.NewEdge()) == M.Grow(old(edges), idx, FB.NewEdge())
        invariant Valid() && registers[..] == old(registers[..])
      {
        edges := edges + [FB.NewEdge()];
      }
      if !ops[1].Register? { return Continue; }
      r := WriteRegister(ops[1].reg, Bool(edges[idx].q));
    }

    /** One instruction, without the advance of the pointer. */
    method Execute(inst: M.Instruction) returns (r: StepResult)
      requires Valid()
      modifies this, registers
      ensures Is(r, M.Execute(inst, old(State())))
      ensures cycleTime == old(cycleTime)
    {
      hide M.ExecLoad; hide M.ExecStore; hide M.ExecArith; hide M.ExecBits; hide M.ExecUnary; hide M.ExecCompare;
      hide M.ExecRet; hide M.ExecCall; hide M.ExecJump; hide M.ExecJumpIf;
      hide M.ExecTimerRun; hide M.ExecReadTimer; hide M.ExecCounterRun; hide M.ExecReadCounter;
      hide M.ExecSrRun; hide M.ExecReadSr; hide M.ExecEdgeRun; hide M.ExecReadEdge;
      var ops := inst.operands;
      match inst.opcode
      case Nop => r := Continue;
      case Load => r := ExecLoad(ops);
      case Store => r := ExecStore(ops);
      case Jump => r := ExecJump(ops);
      case JumpIf => r := ExecJumpIf(ops);
      case Call => r := ExecCall(ops);
      case Ret => r := ExecRet(ops);
      case TimerRun => r := ExecTimerRun(ops);
      case ReadTimer => r := ExecReadTimer(ops);
      case CounterRun => r := ExecCounterRun(ops);
      case ReadCounter => r := ExecReadCounter(ops);
      case SrRun => r := ExecSrRun(ops);
      case ReadSr => r := ExecReadSr(ops);
      case EdgeRun => r := ExecEdgeRun(ops);
      case ReadEdge => r := ExecReadEdge(ops);
      case Halt => r := Stopped;
      case Neg => r := ExecUnary(M.Neg, ops);
      case Not => r := ExecUnary(M.Not, ops);
      case Add => r := ExecArith(AddOp, ops);
      case Sub => r := ExecArith(SubOp, ops);
      case Mul => r := ExecArith(MulOp, ops);
      case Div => r := ExecArith(DivOp, ops);
      case Mod => r := ExecArith(ModOp, ops);
      case And => r := ExecBits(AndOp, ops);
      case Or => r := ExecBits(OrOp, ops);
      case Xor => r := ExecBits(XorOp, ops);
      case Eq => r := ExecCompare(EqOp, ops);
      case Neq => r := ExecCompare(NeqOp, ops);
      case Gt => r := ExecCompare(GtOp, ops);
      case Lt => r := ExecCompare(LtOp, ops);
      case Gte => r := ExecCompare(GteOp, ops);
      case Lte => r := ExecCompare(LteOp, ops);
    }
  }

  // ----- the executor and its debugger -----

  datatype TraceEntry = TraceEntry(ip: nat, opcode: M.Opcode, r0: HalValue)

  /** The debugger's view: the machine together with the debugging state. */
  datatype Session = Session(vm: M.Vm, debug: bool, breakpoints: set<nat>, trace: seq<TraceEntry>)

  class Executor {
    const vm: Vm
    const program: seq<M.Instruction>
    var debugMode: bool
    var breakpoints: set<nat>
    var trace: seq<TraceEntry>

    ghost predicate Valid()
      reads this, vm
    {
      vm.Valid()
    }

    ghost function View(): Session
      reads this, vm, vm.registers
      requires Valid()
    {
      Session(vm.State(), debugMode, breakpoints, trace)
    }

    constructor (program: seq<M.Instruction>)
      ensures Valid() && this.program == program && View() == Session(M.FreshVm(), false, {}, [])
      ensures fresh(vm) && fresh(vm.registers)
    {
      vm := new Vm();
      this.program := program;
      debugMode, breakpoints, trace := false, {}, [];
    }

    /** One step. A breakpoint under the pointer stops it before anything happens. */
    method Step() returns (r: StepResult)
      requires Valid()
      modifies this`trace, vm, vm.registers
      ensures Agrees(r, StepSession(program, old(View())))
    {
      hide M.Execute;
      var ip := vm.ip;
      if ip >= |program| { return Panicked(M.IpOutOfBounds); }
      if debugMode && ip in breakpoints { return Breaked; }
      var inst := program[ip];
      r := vm.Execute(inst);
      if r.Panicked? { return; }
      if debugMode {
        trace := trace + [TraceEntry(ip, inst.opcode, vm.registers[0])];
      }
      if !M.IsJumping(inst.opcode) {
        vm.ip := vm.ip + 1;
      }
    }

    ghost predicate Agrees(r: StepResult, out: (StepResult, Session))
      reads this, vm, vm.registers
      requires Valid()
    {
      r == out.0 && (!r.Panicked? ==> View() == out.1)
    }

    /** Past a breakpoint: one step with debugging off, then on again. */
    method Resume() returns (r: StepResult)
      requires Valid()
      modifies this`trace, this`debugMode, vm, vm.registers
      ensures Agrees(r, ResumeSession(program, old(View())))
    {
      debugMode := false;
      r := Step();
      debugMode := true;
    }

    /** Steps until a halt, a breakpoint or a panic; `limit` bounds a run that stops. */
    method RunToHalt(ghost limit: nat) returns (r: StepResult, steps: nat)
      requires Valid()
      requires StopsWithin(program, View(), limit)
      modifies this`trace, vm, vm.registers
      ensures !r.Continue? && steps > 0
      ensures Agrees(r, RunSession(program, old(View()), steps))
      ensures RunSession(program, old(View()), steps - 1).0 == Continue
    {
      hide StepSession;
      steps := 0;
      r := Continue;
      ghost var left := limit;
      while true
        invariant Valid() && StopsWithin(program, View(), left)
        invariant RunSession(program, old(View()), steps) == (Continue, View())
        decreases left
      {
        ghost var before := View();
        r := Step();
        steps := steps + 1;
        if r != Continue { return; }
        left := left - 1;
      }
    }

    method EnableDebug()
      requires Valid()
      modifies this`debugMode
      ensures View() == old(View()).(debug := true)
    {
      debugMode := true;
    }

    method DisableDebug()
      requires Valid()
      modifies this`debugMode
      ensures View() == old(View()).(debug := false)
    {
      debugMode := false;
    }

    method AddBreakpoint(ip: nat) returns (added: bool)
      requires Valid()
      modifies this`breakpoints
      ensures View() == old(View()).(breakpoints := old(breakpoints) + {ip})
      ensures added == (ip !in old(breakpoints))
    {
      added := ip !in breakpoints;
      breakpoints := breakpoints + {ip};
    }

    method RemoveBreakpoint(ip: nat) returns (removed: bool)
      requires Valid()
      modifies this`breakpoints
      ensures View() == old(View()).(breakpoints := old(breakpoints) - {ip})
      ensures removed == (ip in old(breakpoints))
    {
      removed := ip in breakpoints;
      breakpoints := breakpoints - {ip};
    }

    method ClearBreakpoints()
      requires Valid()
      modifies this`breakpoints
      ensures View() == old(View()).(breakpoints := {})
    {
      breakpoints := {};
    }

    /** The same, for a list of debugger commands; stops at a panic. */
    method Perform(cmds: seq<Command>) returns (ok: bool)
      requires Valid()
      modifies this, vm, vm.registers
      ensures ok == Play(program, old(View()), cmds).Some?
      ensures ok ==> View() == Play(program, old(View()), cmds).value.0
    {
      hide StepSession;
      var i := 0;
      while i < |cmds|
        invariant 0 <= i <= |cmds| && Valid()
        invariant Play(program, old(View()), cmds[..i]).Some?
        invariant View() == Play(program, old(View()), cmds[..i]).value.0
      {
        assert cmds[..i + 1][..i] == cmds[..i];
        PlayPrefix(program, old(View()), cmds, i + 1);
        match cmds[i] {
          case DoStep => var r := Step(); if r.Panicked? { return false; }
          case DoResume => var r := Resume(); if r.Panicked? { return false; }
          case Enable => EnableDebug();
          case Disable => DisableDebug();
          case AddBp(ip) => var _ := AddBreakpoint(ip);
          case RemoveBp(ip) => var _ := RemoveBreakpoint(ip);
          case ClearBps => ClearBreakpoints();
        }
        i := i + 1;
      }
      assert cmds[..i] == cmds;
      ok := true;
    }
  }

  function StepSession(prog: seq<M.Instruction>, s: Session): (StepResult, Session) {
    if s.vm.ip >= |prog| then (Panicked(M.IpOutOfBounds), s)
    else if s.debug && s.vm.ip in s.breakpoints then (Breaked, s)
    else
      match M.Step(prog, s.vm)
      case Panic(reason) => (Panicked(reason), s)
      case Next(v) => (Continue, Logged(prog, s, v))
      case Halted(v) => (Stopped, Logged(prog, s, v))
  }

  function Logged(prog: seq<M.Instruction>, s: Session, after: M.Vm): Session
    requires s.vm.ip < |prog|
  {
    s.(vm := after,
       trace := if s.debug then s.trace + [TraceEntry(s.vm.ip, prog[s.vm.ip].opcode, after.regs[0])] else s.trace)
  }

  function ResumeSession(prog: seq<M.Instruction>, s: Session): (StepResult, Session) {
    var (r, t) := StepSession(prog, s.(debug := false));
    (r, t.(debug := true))
  }

  /** `n` steps in a row, stopping early at anything but `Continue`. */
  function RunSession(prog: seq<M.Instruction>, s: Session, n: nat): (StepResult, Session)
    decreases n
  {
    if n == 0 then (Continue, s)
    else
      var (r, t) := RunSession(prog, s, n - 1);
      if r == Continue then StepSession(prog, t) else (r, t)
  }

  predicate StopsWithin(prog: seq<M.Instruction>, s: Session, n: nat)
    decreases n
  {
    n > 0 && var (r, t) := StepSession(prog, s); r != Continue || StopsWithin(prog, t, n - 1)
  }

  // ----- breakpoints -----

  /** Inside the program a step breaks if and only if debugging is on and a breakpoint is under
      the pointer, and then nothing has changed. Otherwise it does what the machine does. */
  lemma BreaksExactly(prog: seq<M.Instruction>, s: Session)
    requires s.vm.ip < |prog|
    ensures var (r, t) := StepSession(prog, s);
            && (r == Breaked <==> s.debug && s.vm.ip in s.breakpoints)
            && (r == Breaked ==> t == s)
            && (r == Continue ==> M.Step(prog, s.vm) == M.Next(t.vm))
            && (r == Stopped ==> M.Step(prog, s.vm) == M.Halted(t.vm))
            && (r.Panicked? ==> M.Step(prog, s.vm) == M.Panic(r.reason))
            && t.debug == s.debug && t.breakpoints == s.breakpoints
  {
    hide M.Step;
  }

  /** `resume` never breaks: it takes the step over the breakpoint. */
  lemma ResumeNeverBreaks(prog: seq<M.Instruction>, s: Session)
    ensures var (r, t) := ResumeSession(prog, s);
            && r != Breaked && t.debug && t.breakpoints == s.breakpoints
            && (s.vm.ip < |prog| && r == Continue ==> M.Step(prog, s.vm) == M.Next(t.vm))
  {
    hide M.Step;
  }

  /** Step `k` of a plain run goes on, past no breakpoint that counts. */
  predicate GoesOn(prog: seq<M.Instruction>, s: Session, k: nat) {
    && Plain(prog, s.vm, k).Some?
    && !(s.debug && Plain(prog, s.vm, k).value.ip in s.breakpoints)
    && M.Step(prog, Plain(prog, s.vm, k).value).Next?
  }

  /** A session runs on for `n` steps if and only if every one of them does in a plain run. */
  lemma {:induction false} RunsOn(prog: seq<M.Instruction>, s: Session, n: nat)
    ensures RunSession(prog, s, n).0 == Continue <==> forall k :: 0 <= k < n ==> GoesOn(prog, s, k)
    ensures RunSession(prog, s, n).0 == Continue ==>
              var t := RunSession(prog, s, n).1;
              Plain(prog, s.vm, n) == Some(t.vm) && t.debug == s.debug && t.breakpoints == s.breakpoints
    decreases n
  {
    hide M.Step; hide StepSession; hide GoesOn;
    if n > 0 {
      RunsOn(prog, s, n - 1);
      var (r, t) := RunSession(prog, s, n - 1);
      if r == Continue {
        OneMoreStep(prog, s, n - 1, t);
      }
    }
  }

  lemma OneMoreStep(prog: seq<M.Instruction>, s: Session, k: nat, t: Session)
    requires Plain(prog, s.vm, k) == Some(t.vm) && t.debug == s.debug && t.breakpoints == s.breakpoints
    ensures var (r, u) := StepSession(prog, t);
            && (r == Continue <==> GoesOn(prog, s, k))
            && (r == Continue ==> Plain(prog, s.vm, k + 1) == Some(u.vm) && u.debug == s.debug &&
                                  u.breakpoints == s.breakpoints)
  {
    hide M.Execute;
  }

  /** How a run of `n` steps ends, by the plain run alone: all before the last go on, and the
      last one breaks, halts or panics. It breaks if and only if the plain run is then at a
      breakpoint, inside the program, with debugging on. */
  lemma RunEnds(prog: seq<M.Instruction>, s: Session, n: nat)
    requires n > 0
    ensures var r, before := RunSession(prog, s, n).0, Plain(prog, s.vm, n - 1);
            var on := forall k :: 0 <= k < n - 1 ==> GoesOn(prog, s, k);
            && (RunSession(prog, s, n - 1).0 == Continue && r == Breaked <==>
                on && before.Some? && before.value.ip < |prog| && s.debug && before.value.ip in s.breakpoints)
            && (RunSession(prog, s, n - 1).0 == Continue && r == Stopped <==>
                on && before.Some? && !(s.debug && before.value.ip in s.breakpoints) &&
                M.Step(prog, before.value).Halted?)
  {
    hide M.Execute; hide GoesOn;
    RunsOn(prog, s, n - 1);
  }

  // ----- transparency -----

  datatype Command = DoStep | DoResume | Enable | Disable | AddBp(ip: nat) | RemoveBp(ip: nat) | ClearBps

  /** One command: the new session, and for a step that executed an instruction whether
      it was taken by `step` with debugging on. `None` after a panic. */
  function Obey(prog: seq<M.Instruction>, s: Session, cmd: Command): Option<(Session, seq<bool>)> {
    match cmd
    case DoStep =>
      var (r, t) := StepSession(prog, s);
      if r.Panicked? then None else Some((t, if r.Breaked? then [] else [s.debug]))
    case DoResume =>
      var (r, t) := ResumeSession(prog, s);
      if r.Panicked? then None else Some((t, [false]))
    case Enable => Some((s.(debug := true), []))
    case Disable => Some((s.(debug := false), []))
    case AddBp(ip) => Some((s.(breakpoints := s.breakpoints + {ip}), []))
    case RemoveBp(ip) => Some((s.(breakpoints := s.breakpoints - {ip}), []))
    case ClearBps => Some((s.(breakpoints := {}), []))
  }

  function Play(prog: seq<M.Instruction>, s: Session, cmds: seq<Command>): Option<(Session, seq<bool>)> {
    if cmds == [] then Some((s, []))
    else
      var before := Play(prog, s, cmds[..|cmds| - 1]);
      if before.None? then None
      else
        var last := Obey(prog, before.value.0, cmds[|cmds| - 1]);
        if last.None? then None else Some((last.value.0, before.value.1 + last.value.1))
  }

  lemma {:induction false} PlayPrefix(prog: seq<M.Instruction>, s: Session, cmds: seq<Command>, i: nat)
    requires i <= |cmds|
    ensures Play(prog, s, cmds[..i]).None? ==> Play(prog, s, cmds).None?
    decreases |cmds|
  {
    if i == |cmds| {
      assert cmds[..i] == cmds;
    } else {
      PlayPrefix(prog, s, cmds[..|cmds| - 1], i);
      assert cmds[..|cmds| - 1][..i] == cmds[..i];
    }
  }

  /** `k` steps of an executor without a debugger, which steps on even after a halt. */
  function Plain(prog: seq<M.Instruction>, vm: M.Vm, k: nat): Option<M.Vm>
    decreases k
  {
    if k == 0 then Some(vm)
    else
      var before := Plain(prog, vm, k - 1);
      if before.None? then None
      else
        var out := M.Step(prog, before.value);
        if out.Panic? then None else Some(out.vm)
  }

  /** What each of those steps executed. */
  function History(prog: seq<M.Instruction>, vm: M.Vm, k: nat): (h: seq<TraceEntry>)
    requires Plain(prog, vm, k).Some?
    ensures |h| == k
    decreases k
  {
    if k == 0 then []
    else
      var before := Plain(prog, vm, k - 1).value;
      History(prog, vm, k - 1) +
      [TraceEntry(before.ip, prog[before.ip].opcode, Plain(prog, vm, k).value.regs[0])]
  }

  function Select(h: seq<TraceEntry>, marks: seq<bool>): seq<TraceEntry>
    requires |h| == |marks|
  {
    if h == [] then []
    else
      var n := |h| - 1;
      Select(h[..n], marks[..n]) + if marks[n] then [h[n]] else []
  }

  /** However stepping, resuming, switching debugging on and off and editing breakpoints
      are interleaved, the machine is where a plain executor is after as many steps as
      were executed, and the trace lists exactly, in order, the instructions that `step`
      executed with debugging on. */
  lemma {:induction false} DebuggerTransparent(prog: seq<M.Instruction>, s: Session, cmds: seq<Command>)
    requires Play(prog, s, cmds).Some?
    ensures var (t, marks) := Play(prog, s, cmds).value;
            && Plain(prog, s.vm, |marks|) == Some(t.vm)
            && t.trace == s.trace + Select(History(prog, s.vm, |marks|), marks)
  {
    hide M.Step; hide Obey; hide Plain; hide History; hide Select;
    if cmds == [] {
      NothingPlayed(prog, s);
    } else {
      var front, last := cmds[..|cmds| - 1], cmds[|cmds| - 1];
      DebuggerTransparent(prog, s, front);
      var (t0, marks0) := Play(prog, s, front).value;
      OneCommandMore(prog, s, t0, marks0, last);
    }
  }

  lemma NothingPlayed(prog: seq<M.Instruction>, s: Session)
    ensures Plain(prog, s.vm, 0) == Some(s.vm) && s.trace == s.trace + Select(History(prog, s.vm, 0), [])
  {
  }

  /** A command executes nothing, or one instruction as a plain executor would, and logs it
      when `step` took it with debugging on. */
  lemma ObeyIs(prog: seq<M.Instruction>, t0: Session, cmd: Command)
    requires Obey(prog, t0, cmd).Some?
    ensures var (t, done) := Obey(prog, t0, cmd).value;
            || (done == [] && t.vm == t0.vm && t.trace == t0.trace)
            || (&& |done| == 1 && t0.vm.ip < |prog| && !M.Step(prog, t0.vm).Panic? && t.vm == M.Step(prog, t0.vm).vm
                && t.trace == t0.trace +
                  (if done[0] then [TraceEntry(t0.vm.ip, prog[t0.vm.ip].opcode, t.vm.regs[0])] else []))
  {
    hide M.Step;
  }

  lemma OneCommandMore(prog: seq<M.Instruction>, s: Session, t0: Session, marks0: seq<bool>, cmd: Command)
    requires Obey(prog, t0, cmd).Some?
    requires Plain(prog, s.vm, |marks0|) == Some(t0.vm)
    requires t0.trace == s.trace + Select(History(prog, s.vm, |marks0|), marks0)
    ensures var (t, done) := Obey(prog, t0, cmd).value;
            var marks := marks0 + done;
            && Plain(prog, s.vm, |marks|) == Some(t.vm)
            && t.trace == s.trace + Select(History(prog, s.vm, |marks|), marks)
  {
    hide *;
    ObeyIs(prog, t0, cmd);
    var (t, done) := Obey(prog, t0, cmd).value;
    var marks := marks0 + done;
    if done == [] {
      assert marks == marks0;
    } else {
      assert marks[..|marks0|] == marks0;
      PlainMore(prog, s.vm, |marks0|, t0.vm, t.vm);
      var h := History(prog, s.vm, |marks|);
      assert h[..|marks0|] == History(prog, s.vm, |marks0|);
      SelectLast(h, marks);
      assert s.trace + Select(History(prog, s.vm, |marks0|), marks0) + (if done[0] then [h[|marks0|]] else []) ==
             s.trace + (Select(History(prog, s.vm, |marks0|), marks0) + if done[0] then [h[|marks0|]] else []);
    }
  }

  lemma PlainMore(prog: seq<M.Instruction>, start: M.Vm, k: nat, vm: M.Vm, after: M.Vm)
    requires Plain(prog, start, k) == Some(vm) && vm.ip < |prog|
    requires !M.Step(prog, vm).Panic? && after == M.Step(prog, vm).vm
    ensures Plain(prog, start, k + 1) == Some(after)
    ensures History(prog, start, k + 1) == History(prog, start, k) +
            [TraceEntry(vm.ip, prog[vm.ip].opcode, after.regs[0])]
  {
    hide M.Step;
  }

  lemma SelectLast(h: seq<TraceEntry>, marks: seq<bool>)
    requires |h| == |marks| && h != []
    ensures var n := |h| - 1; Select(h, marks) == Select(h[..n], marks[..n]) + if marks[n] then [h[n]] else []
  {
  }
}
