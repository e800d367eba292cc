/** Instruction List as an abstract accumulator machine, and the lockstep between it
    and the compiled code on the register machine. */
module IlLockstep {
  import opened HalValues
  import opened IlLang
  import opened IlLayout
  import M = Machine

  datatype IlState = IlState(pc: nat, cr: HalValue, signals: map<string, HalValue>)

  datatype IlOut = Running(st: IlState) | Done(st: IlState) | Fault(st: IlState)

  // ----- which statements compile to what they say -----

  /** Statements that put the variable's signal into its register. */
  predicate Loads(s: IlStmt) { s.Load? || s.LoadNot? || s.And? || s.AndNot? }

  /** Statements that combine CR with the variable's register, which they do not load. */
  predicate Combines(s: IlStmt) { s.Or? || s.OrNot? || s.Xor? || ArithFor(s).Some? }

  /** Statements whose result rests on a register they do not load. */
  predicate Trusts(s: IlStmt) { Combines(s) || s.Cmp? }

  function ArithFor(s: IlStmt): Option<ArithOp> {
    match s
    case Add(_) => Some(AddOp) case Sub(_) => Some(SubOp) case Mul(_) => Some(MulOp)
    case Div(_) => Some(DivOp) case Mod(_) => Some(ModOp)
    case _ => None
  }

  function Relation(k: CompareKind): CmpOp {
    match k
    case CEq => EqOp case CNe => NeqOp case CGt => GtOp case CGe => GteOp case CLt => LtOp case CLe => LteOp
  }

  /** Statements that write a constant to the variable's register. */
  predicate Latches(s: IlStmt) { s.Set? || s.Reset? }

  predicate Straight(s: IlStmt) { Loads(s) || Combines(s) || Latches(s) || s.Store? || s.Not? || s.Label? }

  /** On the way to statement `i` from the label before it, or else from the start, the
      variable was loaded, and neither stored to nor set nor reset since. */
  predicate Current(ss: seq<IlStmt>, i: nat, v: string)
    requires i <= |ss|
  {
    i > 0 &&
    var s := ss[i - 1];
    if s.Label? then false
    else if Loads(s) && s.v == v then true
    else if (s.Store? || Latches(s)) && s.v == v then false
    else Current(ss, i - 1, v)
  }

  /** The statements whose compiled code does what they say. One that trusts a register needs
      its variable current, and a comparison must stand directly before JMPC: when it fails
      its code skips the next instruction, which is the test that JMPC can do without. SET and
      RESET are taken as compiled: they change neither CR nor a signal. */
  predicate SoundAt(ss: seq<IlStmt>, i: nat)
    requires i < |ss|
  {
    var s := ss[i];
    || Loads(s) || s.Store? || s.Not? || s.Jump? || s.JumpIf? || s.JumpIfNot? || s.Label? || s.Return? || Latches(s)
    || (Combines(s) && Current(ss, i, s.v))
    || (s.Cmp? && Current(ss, i, s.v) && i + 1 < |ss| && ss[i + 1].JumpIf?)
  }

  // ----- the interpreter -----

  /** What a statement does to the accumulator, `x` being its variable's value. `None` is the
      panic of a division. */
  function Accumulate(s: IlStmt, cr: HalValue, x: HalValue): Option<HalValue> {
    match s
    case Load(_) => Some(x)
    case LoadNot(_) => Some(BitNot(x))
    case And(_) => Some(Bitwise(AndOp, cr, x))
    case AndNot(_) => Some(Bitwise(AndOp, cr, BitNot(x)))
    case Or(_) => Some(Bitwise(OrOp, cr, x))
    case OrNot(_) => Some(Bitwise(OrOp, cr, BitNot(x)))
    case Xor(_) => Some(Bitwise(XorOp, cr, x))
    case Not => Some(BitNot(cr))
    case Cmp(k, _) => Some(Bool(Compare(Relation(k), cr, x)))
    case _ => if ArithFor(s).Some? then Arith(ArithFor(s).value, cr, x) else Some(cr)
  }

  function Operand(s: IlStmt, signals: map<string, HalValue>): HalValue {
    if VarOf(s).Some? then M.ReadSignal(signals, VarOf(s).value) else Bool(false)
  }

  /** What a statement says: its variable is the signal. */
  function Meant(s: IlStmt, cr: HalValue, signals: map<string, HalValue>): Option<HalValue> {
    Accumulate(s, cr, Operand(s, signals))
  }

  function Stored(s: IlStmt, cr: HalValue, signals: map<string, HalValue>): map<string, HalValue> {
    if s.Store? then signals[s.v := cr] else signals
  }

  /** Where a jump goes on: at the last statement bearing the label, past the end without one. */
  function LabelPos(ss: seq<IlStmt>, l: string): (pos: Option<nat>)
    ensures pos.Some? ==> pos.value < |ss| && ss[pos.value] == Label(l)
  {
    if ss == [] then None
    else if ss[|ss| - 1] == Label(l) then Some(|ss| - 1)
    else LabelPos(ss[..|ss| - 1], l)
  }

  function Goto(ss: seq<IlStmt>, st: IlState, l: string): IlState {
    st.(pc := match LabelPos(ss, l) case Some(i) => i case None => |ss|)
  }

  function IlStep(ss: seq<IlStmt>, st: IlState): IlOut {
    if st.pc >= |ss| then Done(st)
    else
      var s := ss[st.pc];
      match s
      case Jump(l) => Running(Goto(ss, st, l))
      case JumpIf(l) => Running(if st.cr == Bool(true) then Goto(ss, st, l) else st.(pc := st.pc + 1))
      case JumpIfNot(l) => Running(if st.cr != Bool(true) then Goto(ss, st, l) else st.(pc := st.pc + 1))
      case Return => Done(st)
      case _ =>
        match Meant(s, st.cr, st.signals)
        case Some(cr) => Running(IlState(st.pc + 1, cr, Stored(s, st.cr, st.signals)))
        case None => Fault(st)
  }

  /** `k` statements; a finished program stays finished. */
  function IlRun(ss: seq<IlStmt>, c: IlOut, k: nat): IlOut
    decreases k
  {
    if k == 0 || !c.Running? then c else IlRun(ss, IlStep(ss, c.st), k - 1)
  }

  /** The machine stands behind the first instruction of a JMPC: the comparison before it failed. */
  predicate Skips(ss: seq<IlStmt>, st: IlState) {
    0 < st.pc < |ss| && ss[st.pc - 1].Cmp? && ss[st.pc].JumpIf? && st.cr == Bool(false)
  }

  function StepCost(ss: seq<IlStmt>, st: IlState): nat {
    if st.pc >= |ss| then 1
    else if ss[st.pc].Cmp? then if Meant(ss[st.pc], st.cr, st.signals) == Some(Bool(true)) then 3 else 4
    else if Skips(ss, st) then 1
    else Size(ss[st.pc])
  }

  /** Machine steps that `k` statements take. */
  function Cost(ss: seq<IlStmt>, c: IlOut, k: nat): nat
    decreases k
  {
    if k == 0 || !c.Running? then 0 else StepCost(ss, c.st) + Cost(ss, IlStep(ss, c.st), k - 1)
  }

  /** The registers of the variables that are current hold their signals. */
  ghost predicate Filled(ss: seq<IlStmt>, pc: nat, regs: seq<HalValue>, signals: map<string, HalValue>)
    requires pc <= |ss| && |regs| == M.REGISTER_COUNT && |VarsOf(ss)| <= MAX_IL_VARS
  {
    pc < |ss| && !ss[pc].Label? ==>
      forall i :: 0 <= i < |VarsOf(ss)| && Current(ss, pc, VarsOf(ss)[i]) ==>
        regs[i] == M.ReadSignal(signals, VarsOf(ss)[i])
  }

  ghost predicate Related(ss: seq<IlStmt>, st: IlState, vm: M.Vm)
    requires |VarsOf(ss)| <= MAX_IL_VARS
  {
    && st.pc <= |ss|
    && vm.ip == Offset(ss[..st.pc]) + (if Skips(ss, st) then 1 else 0)
    && (Skips(ss, st) ==> !vm.flag)
    && vm.regs[CR_REG] == st.cr
    && vm.regs[TRUE_REG] == Bool(true)
    && vm.signals == st.signals
    && vm.callStack == []
    && Filled(ss, st.pc, vm.regs, vm.signals)
  }

  /** Outcomes match: the machine is at the next statement, or halted with the same values,
      or has panicked over the same division. */
  ghost predicate SameOut(ss: seq<IlStmt>, out: IlOut, mo: M.StepOut)
    requires |VarsOf(ss)| <= MAX_IL_VARS
  {
    match out
    case Running(st) => mo.Next? && Related(ss, st, mo.vm)
    case Done(st) =>
      mo.Halted? && mo.vm.signals == st.signals && mo.vm.regs[CR_REG] == st.cr &&
      mo.vm.regs[TRUE_REG] == Bool(true) && mo.vm.callStack == []
    case Fault(_) => mo == M.Panic(M.ArithmeticPanic)
  }

  predicate Compiles(ss: seq<IlStmt>) {
    && |VarsOf(ss)| <= MAX_IL_VARS
    && forall i :: 0 <= i < |ss| ==> SoundAt(ss, i)
  }

  // ----- where the code of a statement sits -----

  lemma {:induction false} BodyAt(ss: seq<IlStmt>, names: seq<string>, labels: map<string, nat>, halt: nat, i: nat)
    requires i < |ss|
    ensures var code := StmtCode(ss[i], RegFor(names, ss[i]), Offset(ss[..i]), TargetIn(labels, halt, ss[i]));
            && Offset(ss[..i]) >= 1
            && M.CodeAt(BodyCode(ss, names, labels, halt), Offset(ss[..i]) - 1, code)
    decreases |ss|
  {
    hide StmtCode; hide RegFor; hide TargetIn; hide Offset;
    var front, s := ss[..|ss| - 1], ss[|ss| - 1];
    BodySize(front, names, labels, halt);
    if i < |ss| - 1 {
      BodyAt(front, names, labels, halt, i);
      assert front[..i] == ss[..i];
    }
  }

  lemma StmtAt(ss: seq<IlStmt>, i: nat)
    requires i < |ss|
    ensures M.CodeAt(ProgramCode(ss), Offset(ss[..i]),
                     StmtCode(ss[i], RegFor(VarsOf(ss), ss[i]), Offset(ss[..i]),
                              TargetIn(LabelsOf(ss), Offset(ss), ss[i])))
  {
    hide StmtCode; hide RegFor; hide TargetIn; hide Offset; hide BodyCode; hide VarsOf; hide LabelsOf; hide M.CodeAt;
    BodyAt(ss, VarsOf(ss), LabelsOf(ss), Offset(ss), i);
    OneFurther(M.LoadImm(TRUE_REG, Bool(true)), BodyCode(ss, VarsOf(ss), LabelsOf(ss), Offset(ss)), M.HaltInstr(),
               Offset(ss[..i]) - 1, StmtCode(ss[i], RegFor(VarsOf(ss), ss[i]), Offset(ss[..i]),
                                             TargetIn(LabelsOf(ss), Offset(ss), ss[i])));
  }

  lemma OneFurther(first: M.Instruction, body: seq<M.Instruction>, last: M.Instruction, at: nat,
                   code: seq<M.Instruction>)
    requires M.CodeAt(body, at, code)
    ensures M.CodeAt([first] + body + [last], at + 1, code)
  {
    assert ([first] + body + [last])[at + 1..at + 1 + |code|] == body[at..at + |code|];
  }

  lemma HaltAt(ss: seq<IlStmt>)
    ensures M.CodeAt(ProgramCode(ss), Offset(ss), [M.HaltInstr()])
  {
    hide BodyCode; hide Offset;
    BodySize(ss, VarsOf(ss), LabelsOf(ss), Offset(ss));
  }

  lemma {:induction false} LabelAddress(ss: seq<IlStmt>, l: string)
    ensures l in LabelsOf(ss) <==> LabelPos(ss, l).Some?
    ensures l in LabelsOf(ss) ==> LabelsOf(ss)[l] == Offset(ss[..LabelPos(ss, l).value])
  {
    if ss != [] {
      LabelAddress(ss[..|ss| - 1], l);
      if LabelPos(ss, l).Some? && LabelPos(ss, l).value < |ss| - 1 {
        assert ss[..|ss| - 1][..LabelPos(ss, l).value] == ss[..LabelPos(ss, l).value];
      }
    }
  }

  lemma JumpLands(ss: seq<IlStmt>, st: IlState, l: string, s: IlStmt)
    requires LabelOf(s) == Some(l)
    ensures Goto(ss, st, l).pc <= |ss|
    ensures Offset(ss[..Goto(ss, st, l).pc]) == TargetIn(LabelsOf(ss), Offset(ss), s)
  {
    LabelAddress(ss, l);
    assert ss[..|ss|] == ss;
  }

  lemma NextOffset(ss: seq<IlStmt>, i: nat)
    requires i < |ss|
    ensures Offset(ss[..i + 1]) == Offset(ss[..i]) + Size(ss[i])
  {
    assert ss[..i + 1][..i] == ss[..i];
  }

  lemma RegisterOf(ss: seq<IlStmt>, i: nat)
    requires i < |ss| && |VarsOf(ss)| <= MAX_IL_VARS
    ensures RegFor(VarsOf(ss), ss[i]) < MAX_IL_VARS
  {
    if VarOf(ss[i]).Some? {
      VarsHold(ss, i);
      IndexOfIn(VarsOf(ss), VarOf(ss[i]).value);
    }
  }

  // ----- one statement -----

  lemma RunTwo(prog: seq<M.Instruction>, vm: M.Vm)
    requires M.Step(prog, vm).Next?
    ensures M.Run(prog, M.Next(vm), 2) == M.Step(prog, M.Step(prog, vm).vm)
  {
    hide M.Step;
    assert M.Run(prog, M.Next(vm), 2) == M.Run(prog, M.Step(prog, vm), 1);
  }

  lemma LoadsRun(prog: seq<M.Instruction>, v: string, r: nat, vm: M.Vm)
    requires r < MAX_IL_VARS && M.CodeAt(prog, vm.ip, [M.LoadSig(r, v), M.LoadReg(CR_REG, r)])
    ensures var x := M.ReadSignal(vm.signals, v);
            M.Run(prog, M.Next(vm), 2) == M.Next(vm.(regs := vm.regs[r := x][CR_REG := x], ip := vm.ip + 2))
  {
    hide M.Step; hide M.Run;
    M.CodeAtSplit(prog, vm.ip, [M.LoadSig(r, v)], [M.LoadReg(CR_REG, r)]);
    M.StepLoadSig(prog, vm, r, v);
    M.StepLoadReg(prog, M.Step(prog, vm).vm, CR_REG, r);
    RunTwo(prog, vm);
  }

  lemma LoadNotRuns(prog: seq<M.Instruction>, v: string, r: nat, vm: M.Vm)
    requires r < MAX_IL_VARS
    requires M.CodeAt(prog, vm.ip, [M.LoadSig(r, v), M.LoadReg(CR_REG, r), M.NotReg(CR_REG, CR_REG)])
    ensures var x := M.ReadSignal(vm.signals, v);
            M.Run(prog, M.Next(vm), 3) ==
            M.Next(vm.(regs := vm.regs[r := x][CR_REG := BitNot(x)], ip := vm.ip + 3))
  {
    hide M.Step; hide M.Run; hide BitNot; hide M.ReadSignal;
    var loads := [M.LoadSig(r, v), M.LoadReg(CR_REG, r)];
    assert loads + [M.NotReg(CR_REG, CR_REG)] == [M.LoadSig(r, v), M.LoadReg(CR_REG, r), M.NotReg(CR_REG, CR_REG)];
    M.CodeAtSplit(prog, vm.ip, loads, [M.NotReg(CR_REG, CR_REG)]);
    LoadsRun(prog, v, r, vm);
    var x := M.ReadSignal(vm.signals, v);
    var mid: M.Vm := vm.(regs := vm.regs[r := x][CR_REG := x], ip := vm.ip + 2);
    M.StepNot(prog, mid, CR_REG, CR_REG);
    M.RunOne(prog, mid);
    M.RunSplit(prog, M.Next(vm), 2, 1);
    assert mid.regs[CR_REG := BitNot(x)] == vm.regs[r := x][CR_REG := BitNot(x)];
  }

  lemma AndRuns(prog: seq<M.Instruction>, v: string, r: nat, vm: M.Vm)
    requires r < MAX_IL_VARS
    requires M.CodeAt(prog, vm.ip, [M.LoadSig(r, v), M.Arith3(M.And, CR_REG, r, CR_REG)])
    ensures var x := M.ReadSignal(vm.signals, v);
            M.Run(prog, M.Next(vm), 2) ==
            M.Next(vm.(regs := vm.regs[r := x][CR_REG := Bitwise(AndOp, vm.regs[CR_REG], x)], ip := vm.ip + 2))
  {
    hide M.Step; hide M.Run; hide Bitwise; hide M.ReadSignal;
    M.CodeAtSplit(prog, vm.ip, [M.LoadSig(r, v)], [M.Arith3(M.And, CR_REG, r, CR_REG)]);
    M.StepLoadSig(prog, vm, r, v);
    M.StepBits(prog, M.Step(prog, vm).vm, M.And, CR_REG, r, CR_REG);
    RunTwo(prog, vm);
  }

  lemma AndNotRuns(prog: seq<M.Instruction>, v: string, r: nat, vm: M.Vm)
    requires r < MAX_IL_VARS
    requires M.CodeAt(prog, vm.ip, [M.LoadSig(r, v), M.LoadReg(TEMP_REG, r), M.NotReg(TEMP_REG, TEMP_REG),
                                    M.Arith3(M.And, CR_REG, TEMP_REG, CR_REG)])
    ensures var x := M.ReadSignal(vm.signals, v);
            M.Run(prog, M.Next(vm), 4) ==
            M.Next(vm.(regs := vm.regs[r := x][TEMP_REG := BitNot(x)]
                                      [CR_REG := Bitwise(AndOp, vm.regs[CR_REG], BitNot(x))],
                       ip := vm.ip + 4))
  {
    hide M.Step; hide M.Run; hide Bitwise; hide M.ReadSignal; hide BitNot;
    var a, b, c, d := M.LoadSig(r, v), M.LoadReg(TEMP_REG, r), M.NotReg(TEMP_REG, TEMP_REG),
                      M.Arith3(M.And, CR_REG, TEMP_REG, CR_REG);
    assert [a, b, c, d] == [a, b] + [c, d];
    M.CodeAtSplit(prog, vm.ip, [a, b], [c, d]);
    M.CodeAtSplit(prog, vm.ip, [a], [b]);
    M.CodeAtSplit(prog, vm.ip + 2, [c], [d]);
    M.StepLoadSig(prog, vm, r, v);
    M.StepLoadReg(prog, M.Step(prog, vm).vm, TEMP_REG, r);
    RunTwo(prog, vm);
    var x := M.ReadSignal(vm.signals, v);
    var mid: M.Vm := vm.(regs := vm.regs[r := x][TEMP_REG := x], ip := vm.ip + 2);
    M.StepNot(prog, mid, TEMP_REG, TEMP_REG);
    M.StepBits(prog, M.Step(prog, mid).vm, M.And, CR_REG, TEMP_REG, CR_REG);
    RunTwo(prog, mid);
    M.RunSplit(prog, M.Next(vm), 2, 2);
    assert mid.regs[TEMP_REG := BitNot(x)] == vm.regs[r := x][TEMP_REG := BitNot(x)];
  }

  /** Combining with a bit operator, straight from the variable's register. */
  lemma BitsRun(prog: seq<M.Instruction>, s: IlStmt, r: nat, vm: M.Vm)
    requires s.Or? || s.Xor?
    requires r < MAX_IL_VARS && M.CodeAt(prog, vm.ip, StmtCode(s, r, vm.ip, 0))
    ensures M.Run(prog, M.Next(vm), 1) ==
            M.Next(vm.(regs := vm.regs[CR_REG := Bitwise(if s.Or? then OrOp else XorOp, vm.regs[CR_REG], vm.regs[r])],
                       ip := vm.ip + 1))
  {
    hide M.Step; hide M.Run; hide Bitwise;
    M.StepBits(prog, vm, if s.Or? then M.Or else M.Xor, CR_REG, r, CR_REG);
    M.RunOne(prog, vm);
  }

  lemma OrNotRuns(prog: seq<M.Instruction>, v: string, r: nat, vm: M.Vm)
    requires r < MAX_IL_VARS && M.CodeAt(prog, vm.ip, StmtCode(OrNot(v), r, vm.ip, 0))
    ensures var x := vm.regs[r];
            M.Run(prog, M.Next(vm), 3) ==
            M.Next(vm.(regs := vm.regs[TEMP_REG := BitNot(x)][CR_REG := Bitwise(OrOp, vm.regs[CR_REG], BitNot(x))],
                       ip := vm.ip + 3))
  {
    hide M.Step; hide M.Run; hide Bitwise; hide BitNot;
    var a, b, c := M.LoadReg(TEMP_REG, r), M.NotReg(TEMP_REG, TEMP_REG), M.Arith3(M.Or, CR_REG, TEMP_REG, CR_REG);
    assert [a, b, c] == [a, b] + [c];
    M.CodeAtSplit(prog, vm.ip, [a, b], [c]);
    M.CodeAtSplit(prog, vm.ip, [a], [b]);
    M.StepLoadReg(prog, vm, TEMP_REG, r);
    M.StepNot(prog, M.Step(prog, vm).vm, TEMP_REG, TEMP_REG);
    RunTwo(prog, vm);
    var x := vm.regs[r];
    var mid: M.Vm := vm.(regs := vm.regs[TEMP_REG := BitNot(x)], ip := vm.ip + 2);
    assert vm.regs[TEMP_REG := x][TEMP_REG := BitNot(x)] == mid.regs;
    M.StepBits(prog, mid, M.Or, CR_REG, TEMP_REG, CR_REG);
    M.RunOne(prog, mid);
    M.RunSplit(prog, M.Next(vm), 2, 1);
  }

  function ArithOpcode(op: ArithOp): M.Opcode {
    match op
    case AddOp => M.Add case SubOp => M.Sub case MulOp => M.Mul case DivOp => M.Div case ModOp => M.Mod
  }

  lemma ArithCode(s: IlStmt, r: nat, at: nat, t: nat)
    requires ArithFor(s).Some?
    ensures StmtCode(s, r, at, t) == [M.Arith3(ArithOpcode(ArithFor(s).value), CR_REG, r, CR_REG)] && Size(s) == 1
    ensures M.ArithOf(ArithOpcode(ArithFor(s).value)) == ArithFor(s)
  {
  }

  lemma ArithRuns(prog: seq<M.Instruction>, s: IlStmt, r: nat, t: nat, vm: M.Vm)
    requires ArithFor(s).Some? && r < MAX_IL_VARS && M.CodeAt(prog, vm.ip, StmtCode(s, r, vm.ip, t))
    ensures M.Run(prog, M.Next(vm), Size(s)) ==
            match Arith(ArithFor(s).value, vm.regs[CR_REG], vm.regs[r])
            case Some(x) => M.Next(vm.(regs := vm.regs[CR_REG := x], ip := vm.ip + 1))
            case None => M.Panic(M.ArithmeticPanic)
  {
    hide M.Step; hide M.Run; hide Arith; hide StmtCode; hide Size; hide ArithOpcode; hide ArithFor; hide M.ArithOf;
    ArithCode(s, r, vm.ip, t);
    M.StepArith(prog, vm, ArithOpcode(ArithFor(s).value), CR_REG, r, CR_REG);
    M.RunOne(prog, vm);
  }

  /** The value that the code takes for the variable. */
  function Taken(s: IlStmt, r: nat, vm: M.Vm): HalValue
    requires r < MAX_IL_VARS
  {
    if Combines(s) then vm.regs[r] else Operand(s, vm.signals)
  }

  /** The variable's register behind the statement. */
  function Kept(s: IlStmt, r: nat, vm: M.Vm): HalValue
    requires r < MAX_IL_VARS
  {
    if Loads(s) then Operand(s, vm.signals) else if Latches(s) then Bool(s.Set?) else vm.regs[r]
  }

  /** What the machine does over a straight statement, with the register where the statement
      should take the signal. */
  predicate DoneAs(s: IlStmt, r: nat, vm: M.Vm, out: M.StepOut)
    requires r < MAX_IL_VARS
  {
    match Accumulate(s, vm.regs[CR_REG], Taken(s, r, vm))
    case None => out == M.Panic(M.ArithmeticPanic)
    case Some(cr) =>
      && out.Next? && out.vm.ip == vm.ip + Size(s) && out.vm.callStack == vm.callStack
      && out.vm.regs[CR_REG] == cr && out.vm.regs[TRUE_REG] == vm.regs[TRUE_REG]
      && out.vm.signals == Stored(s, vm.regs[CR_REG], vm.signals)
      && (forall i :: 0 <= i < MAX_IL_VARS ==> out.vm.regs[i] == if i == r then Kept(s, r, vm) else vm.regs[i])
  }

  lemma {:induction false} LoadingRuns(prog: seq<M.Instruction>, s: IlStmt, r: nat, t: nat, vm: M.Vm)
    requires Loads(s) && r < MAX_IL_VARS && M.CodeAt(prog, vm.ip, StmtCode(s, r, vm.ip, t))
    ensures DoneAs(s, r, vm, M.Run(prog, M.Next(vm), Size(s)))
  {
    hide M.Step; hide M.Run; hide Bitwise; hide BitNot; hide M.ReadSignal;
    if s.Load? {
      LoadsRun(prog, s.v, r, vm);
    } else if s.LoadNot? {
      LoadNotRuns(prog, s.v, r, vm);
    } else if s.And? {
      AndRuns(prog, s.v, r, vm);
    } else {
      AndNotRuns(prog, s.v, r, vm);
    }
  }

  lemma CombiningRuns(prog: seq<M.Instruction>, s: IlStmt, r: nat, t: nat, vm: M.Vm)
    requires Combines(s) && r < MAX_IL_VARS && M.CodeAt(prog, vm.ip, StmtCode(s, r, vm.ip, t))
    ensures DoneAs(s, r, vm, M.Run(prog, M.Next(vm), Size(s)))
  {
    hide M.Step; hide M.Run; hide Bitwise; hide BitNot; hide M.ReadSignal; hide Arith;
    if ArithFor(s).Some? {
      ArithRuns(prog, s, r, t, vm);
    } else if s.OrNot? {
      OrNotRuns(prog, s.v, r, vm);
    } else {
      BitsRun(prog, s, r, vm);
    }
  }

  lemma StraightRuns(prog: seq<M.Instruction>, s: IlStmt, r: nat, t: nat, vm: M.Vm)
    requires Straight(s) && r < MAX_IL_VARS && M.CodeAt(prog, vm.ip, StmtCode(s, r, vm.ip, t))
    ensures DoneAs(s, r, vm, M.Run(prog, M.Next(vm), Size(s)))
  {
    hide M.Step; hide M.Run; hide BitNot; hide M.ReadSignal;
    if Loads(s) {
      LoadingRuns(prog, s, r, t, vm);
    } else if Combines(s) {
      CombiningRuns(prog, s, r, t, vm);
    } else if Latches(s) {
      M.StepLoadImm(prog, vm, r, Bool(s.Set?));
      M.RunOne(prog, vm);
    } else if s.Label? {
      M.RunNone(prog, vm);
    } else if s.Not? {
      M.StepNot(prog, vm, CR_REG, CR_REG);
      M.RunOne(prog, vm);
    } else {
      M.StepStore(prog, vm, s.v, CR_REG);
      M.RunOne(prog, vm);
    }
  }

  lemma JumpRuns(prog: seq<M.Instruction>, s: IlStmt, r: nat, t: nat, vm: M.Vm)
    requires s.Jump? || s.JumpIf? || s.JumpIfNot?
    requires M.CodeAt(prog, vm.ip, StmtCode(s, r, vm.ip, t)) && vm.regs[TRUE_REG] == Bool(true)
    ensures var out := M.Run(prog, M.Next(vm), Size(s));
            var taken := s.Jump? || (s.JumpIf? && vm.regs[CR_REG] == Bool(true)) ||
              (s.JumpIfNot? && vm.regs[CR_REG] != Bool(true));
            out.Next? && out.vm == vm.(ip := if taken then t else vm.ip + 2, flag := if s.Jump? then vm.flag else taken)
  {
    hide M.Step; hide M.Run;
    if s.Jump? {
      M.StepJump(prog, vm, t);
      M.RunOne(prog, vm);
    } else {
      var op := if s.JumpIf? then M.Eq else M.Neq;
      M.CodeAtSplit(prog, vm.ip, [M.Cmp2(op, CR_REG, TRUE_REG)], [M.JumpIfTo(t)]);
      M.StepCompare(prog, vm, op, CR_REG, TRUE_REG);
      M.StepJumpIf(prog, M.Step(prog, vm).vm, t);
      RunTwo(prog, vm);
    }
  }

  lemma CompareCode(k: CompareKind, v: string, r: nat, at: nat, t: nat)
    ensures StmtCode(Cmp(k, v), r, at, t) ==
            [M.Cmp2(CmpOpcode(k), CR_REG, r), M.JumpIfTo(at + 4), M.LoadImm(CR_REG, Bool(false)), M.JumpTo(at + 6),
             M.LoadImm(CR_REG, Bool(true))]
    ensures Size(Cmp(k, v)) == 5 && M.CmpOf(CmpOpcode(k)) == Some(Relation(k))
  {
  }

  /** A comparison compares CR with the register, leaves the Boolean in CR, and goes on at the
      next statement if it holds; when it does not, the next instruction is skipped. */
  lemma CompareContinues(prog: seq<M.Instruction>, k: CompareKind, v: string, r: nat, t: nat, vm: M.Vm)
    requires r < MAX_IL_VARS && M.CodeAt(prog, vm.ip, StmtCode(Cmp(k, v), r, vm.ip, t))
    ensures var holds := Compare(Relation(k), vm.regs[CR_REG], vm.regs[r]);
            M.Run(prog, M.Next(vm), if holds then 3 else 4) ==
            M.Next(vm.(regs := vm.regs[CR_REG := Bool(holds)], flag := holds,
                       ip := vm.ip + Size(Cmp(k, v)) + if holds then 0 else 1))
  {
    hide M.Step; hide M.Run; hide Compare; hide StmtCode; hide Size; hide M.CodeAt; hide CmpOpcode; hide M.CmpOf;
    hide Relation;
    CompareCode(k, v, r, vm.ip, t);
    var a, b, c, d, e := M.Cmp2(CmpOpcode(k), CR_REG, r), M.JumpIfTo(vm.ip + 4), M.LoadImm(CR_REG, Bool(false)),
                         M.JumpTo(vm.ip + 6), M.LoadImm(CR_REG, Bool(true));
    assert [a, b, c, d, e] == [a, b] + [c, d] + [e];
    M.CodeAtSplit(prog, vm.ip, [a, b] + [c, d], [e]);
    M.CodeAtSplit(prog, vm.ip, [a, b], [c, d]);
    M.CodeAtSplit(prog, vm.ip, [a], [b]);
    M.CodeAtSplit(prog, vm.ip + 2, [c], [d]);
    M.StepCompare(prog, vm, CmpOpcode(k), CR_REG, r);
    M.StepJumpIf(prog, M.Step(prog, vm).vm, vm.ip + 4);
    RunTwo(prog, vm);
    var mid := M.Run(prog, M.Next(vm), 2).vm;
    if mid.flag {
      M.StepLoadImm(prog, mid, CR_REG, Bool(true));
      M.RunOne(prog, mid);
      M.RunSplit(prog, M.Next(vm), 2, 1);
    } else {
      M.StepLoadImm(prog, mid, CR_REG, Bool(false));
      M.StepJump(prog, M.Step(prog, mid).vm, vm.ip + 6);
      RunTwo(prog, mid);
      M.RunSplit(prog, M.Next(vm), 2, 2);
    }
  }

  /** What is current stays in its register over a straight statement. */
  lemma FilledOver(ss: seq<IlStmt>, pc: nat, vm: M.Vm, out: M.StepOut)
    requires pc < |ss| && |VarsOf(ss)| <= MAX_IL_VARS && Straight(ss[pc]) && Filled(ss, pc, vm.regs, vm.signals)
    requires RegFor(VarsOf(ss), ss[pc]) < MAX_IL_VARS
    requires DoneAs(ss[pc], RegFor(VarsOf(ss), ss[pc]), vm, out) && out.Next?
    ensures Filled(ss, pc + 1, out.vm.regs, out.vm.signals)
  {
    hide VarsOf; hide Accumulate; hide Size; hide Taken;
    var s, names := ss[pc], VarsOf(ss);
    if pc + 1 < |ss| && !s.Label? {
      forall i | 0 <= i < |names| && Current(ss, pc + 1, names[i])
        ensures out.vm.regs[i] == M.ReadSignal(out.vm.signals, names[i])
      {
        VarsDiffer(ss);
        if Loads(s) || Latches(s) {
          VarsHold(ss, pc);
          IndexOfIn(names, s.v);
        }
      }
    }
  }

  lemma {:induction false} VarsDiffer(ss: seq<IlStmt>)
    ensures forall i, j :: 0 <= i < j < |VarsOf(ss)| ==> VarsOf(ss)[i] != VarsOf(ss)[j]
  {
    if ss != [] { VarsDiffer(ss[..|ss| - 1]); }
  }

  lemma CurrentIsRead(ss: seq<IlStmt>, pc: nat, vm: M.Vm)
    requires pc < |ss| && |VarsOf(ss)| <= MAX_IL_VARS && Filled(ss, pc, vm.regs, vm.signals)
    requires Trusts(ss[pc]) && Current(ss, pc, ss[pc].v)
    ensures RegFor(VarsOf(ss), ss[pc]) < MAX_IL_VARS
    ensures vm.regs[RegFor(VarsOf(ss), ss[pc])] == Operand(ss[pc], vm.signals)
  {
    hide VarsOf; hide Current;
    VarsHold(ss, pc);
    IndexOfIn(VarsOf(ss), ss[pc].v);
  }

  /** A jump lands on a label or at the end, where nothing counts as loaded. */
  lemma FilledAtTarget(ss: seq<IlStmt>, st: IlState, l: string, vm: M.Vm)
    requires |VarsOf(ss)| <= MAX_IL_VARS
    ensures Goto(ss, st, l).pc <= |ss| && Filled(ss, Goto(ss, st, l).pc, vm.regs, vm.signals)
  {
    hide VarsOf; hide Current;
  }

  lemma FilledPast(ss: seq<IlStmt>, pc: nat, vm: M.Vm, after: M.Vm)
    requires pc < |ss| && |VarsOf(ss)| <= MAX_IL_VARS && Filled(ss, pc, vm.regs, vm.signals)
    requires ss[pc].JumpIf? || ss[pc].JumpIfNot? || ss[pc].Cmp?
    requires after.signals == vm.signals && forall i :: 0 <= i < MAX_IL_VARS ==> after.regs[i] == vm.regs[i]
    ensures Filled(ss, pc + 1, after.regs, after.signals)
  {
    hide VarsOf;
  }

  /** One statement of the interpreter is matched by that statement's machine steps. */
  lemma StepMatches(ss: seq<IlStmt>, st: IlState, vm: M.Vm)
    requires Compiles(ss) && Related(ss, st, vm)
    ensures SameOut(ss, IlStep(ss, st), M.Run(ProgramCode(ss), M.Next(vm), StepCost(ss, st)))
  {
    hide M.Step; hide M.Run; hide ProgramCode; hide StmtCode; hide Size; hide Offset; hide VarsOf; hide LabelsOf;
    hide RegFor; hide TargetIn; hide Filled; hide Current; hide Goto; hide Meant;
    var prog := ProgramCode(ss);
    if st.pc == |ss| {
      assert ss[..st.pc] == ss;
      HaltAt(ss);
      M.StepHalt(prog, vm);
      M.RunOne(prog, vm);
    } else {
      var s := ss[st.pc];
      var r, t := RegFor(VarsOf(ss), s), TargetIn(LabelsOf(ss), Offset(ss), s);
      assert SoundAt(ss, st.pc);
      StmtAt(ss, st.pc);
      RegisterOf(ss, st.pc);
      if s.Return? {
        SmallSizes();
        ReturnCode(r, vm.ip, t);
        M.StepRetTop(prog, vm);
        M.RunOne(prog, vm);
      } else if Skips(ss, st) {
        SkippedJumpMatches(ss, st, vm);
      } else if LabelOf(s).Some? {
        JumpMatches(ss, st, vm);
      } else if s.Cmp? {
        CompareMatches(ss, st, vm);
      } else {
        StraightMatches(ss, st, vm);
      }
    }
  }

  lemma JumpMatches(ss: seq<IlStmt>, st: IlState, vm: M.Vm)
    requires Compiles(ss) && Related(ss, st, vm) && st.pc < |ss| && !Skips(ss, st)
    requires ss[st.pc].Jump? || ss[st.pc].JumpIf? || ss[st.pc].JumpIfNot?
    ensures SameOut(ss, IlStep(ss, st), M.Run(ProgramCode(ss), M.Next(vm), Size(ss[st.pc])))
  {
    hide M.Step; hide M.Run; hide ProgramCode; hide StmtCode; hide Size; hide Offset; hide VarsOf; hide LabelsOf;
    hide RegFor; hide TargetIn; hide Filled; hide Current; hide Goto; hide Meant; hide SoundAt;
    var s, prog := ss[st.pc], ProgramCode(ss);
    var r, t := RegFor(VarsOf(ss), s), TargetIn(LabelsOf(ss), Offset(ss), s);
    var l := LabelOf(s).value;
    StmtAt(ss, st.pc);
    NextOffset(ss, st.pc);
    SmallSizes();
    GotoKeeps(ss, st, l);
    JumpLands(ss, st, l, s);
    JumpRuns(prog, s, r, t, vm);
    FilledAtTarget(ss, st, l, vm);
    if !s.Jump? { FilledPast(ss, st.pc, vm, vm); }
  }

  lemma GotoKeeps(ss: seq<IlStmt>, st: IlState, l: string)
    ensures Goto(ss, st, l).cr == st.cr && Goto(ss, st, l).signals == st.signals
    ensures !Skips(ss, Goto(ss, st, l))
  {
  }

  lemma StraightMatches(ss: seq<IlStmt>, st: IlState, vm: M.Vm)
    requires Compiles(ss) && Related(ss, st, vm) && st.pc < |ss| && Straight(ss[st.pc])
    ensures SameOut(ss, IlStep(ss, st), M.Run(ProgramCode(ss), M.Next(vm), Size(ss[st.pc])))
  {
    hide M.Step; hide M.Run; hide ProgramCode; hide StmtCode; hide Size; hide Offset; hide VarsOf; hide LabelsOf;
    hide RegFor; hide TargetIn; hide Filled; hide Current; hide Accumulate; hide Stored; hide Operand;
    var s, prog := ss[st.pc], ProgramCode(ss);
    var r, t := RegFor(VarsOf(ss), s), TargetIn(LabelsOf(ss), Offset(ss), s);
    assert SoundAt(ss, st.pc);
    StmtAt(ss, st.pc);
    NextOffset(ss, st.pc);
    RegisterOf(ss, st.pc);
    if Combines(s) { CurrentIsRead(ss, st.pc, vm); }
    StraightRuns(prog, s, r, t, vm);
    var out := M.Run(prog, M.Next(vm), Size(s));
    if Meant(s, st.cr, st.signals).Some? { FilledOver(ss, st.pc, vm, out); }
  }

  lemma CompareMatches(ss: seq<IlStmt>, st: IlState, vm: M.Vm)
    requires Compiles(ss) && Related(ss, st, vm) && st.pc < |ss| && ss[st.pc].Cmp?
    ensures SameOut(ss, IlStep(ss, st), M.Run(ProgramCode(ss), M.Next(vm), StepCost(ss, st)))
  {
    hide M.Step; hide M.Run; hide ProgramCode; hide StmtCode; hide Size; hide Offset; hide VarsOf; hide LabelsOf;
    hide RegFor; hide TargetIn; hide Filled; hide Current; hide Compare; hide Operand;
    var s, prog := ss[st.pc], ProgramCode(ss);
    var r, t := RegFor(VarsOf(ss), s), TargetIn(LabelsOf(ss), Offset(ss), s);
    assert SoundAt(ss, st.pc);
    StmtAt(ss, st.pc);
    NextOffset(ss, st.pc);
    CurrentIsRead(ss, st.pc, vm);
    CompareContinues(prog, s.kind, s.v, r, t, vm);
    FilledPast(ss, st.pc, vm, M.Run(prog, M.Next(vm), StepCost(ss, st)).vm);
  }

  /** Behind a failed comparison the rest of JMPC does not jump, as JMPC says. */
  lemma SkippedJumpMatches(ss: seq<IlStmt>, st: IlState, vm: M.Vm)
    requires |VarsOf(ss)| <= MAX_IL_VARS && Related(ss, st, vm) && Skips(ss, st)
    ensures SameOut(ss, IlStep(ss, st), M.Run(ProgramCode(ss), M.Next(vm), 1))
  {
    hide M.Step; hide M.Run; hide ProgramCode; hide Size; hide Offset; hide VarsOf; hide LabelsOf;
    hide RegFor; hide TargetIn; hide Filled; hide Current; hide Goto;
    var s, prog := ss[st.pc], ProgramCode(ss);
    var r, t, at := RegFor(VarsOf(ss), s), TargetIn(LabelsOf(ss), Offset(ss), s), Offset(ss[..st.pc]);
    StmtAt(ss, st.pc);
    NextOffset(ss, st.pc);
    SmallSizes();
    M.CodeAtSplit(prog, at, [M.Cmp2(M.Eq, CR_REG, TRUE_REG)], [M.JumpIfTo(t)]);
    M.StepJumpIf(prog, vm, t);
    M.RunOne(prog, vm);
    FilledPast(ss, st.pc, vm, vm);
  }

  lemma SmallSizes()
    ensures Size(Return) == 1
    ensures forall l :: Size(Jump(l)) == 1 && Size(JumpIf(l)) == 2 && Size(JumpIfNot(l)) == 2
  {
  }

  lemma ReturnCode(r: nat, at: nat, t: nat)
    ensures StmtCode(Return, r, at, t) == [M.RetNone()]
  {
  }

  // ----- whole runs -----

  /** Lockstep: every run of the interpreter, however long, is matched by the machine. */
  lemma {:induction false} Lockstep(ss: seq<IlStmt>, st: IlState, vm: M.Vm, k: nat)
    requires Compiles(ss) && Related(ss, st, vm)
    ensures SameOut(ss, IlRun(ss, Running(st), k), M.Run(ProgramCode(ss), M.Next(vm), Cost(ss, Running(st), k)))
    decreases k
  {
    hide M.Step; hide M.Run; hide ProgramCode; hide StepCost; hide Offset; hide VarsOf; hide IlStep; hide Compiles;
    hide Skips;
    var prog := ProgramCode(ss);
    if k == 0 {
      M.RunNone(prog, vm);
    } else {
      var n := StepCost(ss, st);
      StepMatches(ss, st, vm);
      var out, mid := IlStep(ss, st), M.Run(prog, M.Next(vm), n);
      M.RunSplit(prog, M.Next(vm), n, Cost(ss, out, k - 1));
      match out {
        case Running(next) =>
          Lockstep(ss, next, mid.vm, k - 1);
        case Done(_) =>
          M.RunStuck(prog, mid, 0);
        case Fault(_) =>
          M.RunStuck(prog, mid, 0);
      }
    }
  }

  /** Only labels are free, and between two other statements at most all statements are labels. */
  lemma {:induction false} CostGrows(ss: seq<IlStmt>, st: IlState, k: nat)
    requires Compiles(ss) && st.pc <= |ss| && IlRun(ss, Running(st), k).Running?
    ensures IlRun(ss, Running(st), k).st.pc <= |ss|
    ensures k + st.pc <= Cost(ss, Running(st), k) * (|ss| + 1) + IlRun(ss, Running(st), k).st.pc
    decreases k
  {
    hide StmtCode; hide VarsOf; hide StepCost;
    if k > 0 {
      var out := IlStep(ss, st);
      if !out.Running? {
        assert false;
      } else {
        StepInside(ss, st);
        CostGrows(ss, out.st, k - 1);
        hide IlStep; hide IlRun; hide Cost;
        CostStep(ss, st, k);
        StepsAdd(StepCost(ss, st), Cost(ss, out, k - 1), |ss| + 1, ss[st.pc].Label?);
      }
    }
  }

  lemma CostStep(ss: seq<IlStmt>, st: IlState, k: nat)
    requires k > 0
    ensures Cost(ss, Running(st), k) == StepCost(ss, st) + Cost(ss, IlStep(ss, st), k - 1)
    ensures IlRun(ss, Running(st), k) == IlRun(ss, IlStep(ss, st), k - 1)
  {
    hide StepCost; hide IlStep;
  }

  lemma StepsAdd(c: nat, rest: nat, m: nat, free: bool)
    requires free ==> c == 0
    requires !free ==> c >= 1
    ensures free ==> (c + rest) * m == rest * m
    ensures !free ==> (c + rest) * m >= m + rest * m
  {
    assert (c + rest) * m == c * m + rest * m;
    if !free { assert c * m >= m; }
  }

  lemma StepInside(ss: seq<IlStmt>, st: IlState)
    requires Compiles(ss) && st.pc < |ss| && IlStep(ss, st).Running?
    ensures IlStep(ss, st).st.pc <= |ss|
    ensures ss[st.pc].Label? ==> StepCost(ss, st) == 0 && IlStep(ss, st).st.pc == st.pc + 1
    ensures !ss[st.pc].Label? ==> StepCost(ss, st) >= 1
  {
    hide Meant; hide Size; hide Current;
    assert SoundAt(ss, st.pc);
    OnlyLabelsAreFree(ss, st.pc);
  }

  lemma OnlyLabelsAreFree(ss: seq<IlStmt>, i: nat)
    requires i < |ss| && SoundAt(ss, i)
    ensures ss[i].Label? ==> Size(ss[i]) == 0
    ensures !ss[i].Label? ==> Size(ss[i]) >= 1
  {
    hide Current;
  }

  /** The interpreter finishes if and only if the machine halts, it faults if and only if the
      machine panics, and the machine has no other panic than that over a division. */
  lemma {:induction false} HaltsTogether(ss: seq<IlStmt>, st: IlState, vm: M.Vm)
    requires Compiles(ss) && Related(ss, st, vm)
    ensures (exists k: nat :: IlRun(ss, Running(st), k).Done?) <==>
            (exists n: nat :: M.Run(ProgramCode(ss), M.Next(vm), n).Halted?)
    ensures (exists k: nat :: IlRun(ss, Running(st), k).Fault?) <==>
            (exists n: nat :: M.Run(ProgramCode(ss), M.Next(vm), n).Panic?)
    ensures forall n: nat :: M.Run(ProgramCode(ss), M.Next(vm), n).Panic? ==>
              M.Run(ProgramCode(ss), M.Next(vm), n) == M.Panic(M.ArithmeticPanic)
  {
    hide M.Step; hide M.Run; hide ProgramCode; hide StepCost; hide IlStep; hide Compiles; hide IlRun; hide Cost;
    hide Related; hide VarsOf;
    var prog := ProgramCode(ss);
    CompilesSmall(ss);
    if k: nat :| IlRun(ss, Running(st), k).Done? {
      Lockstep(ss, st, vm, k);
    }
    if k: nat :| IlRun(ss, Running(st), k).Fault? {
      Lockstep(ss, st, vm, k);
    }
    forall n: nat | !M.Run(prog, M.Next(vm), n).Next?
      ensures exists k: nat :: !IlRun(ss, Running(st), k).Running? &&
                               SameOut(ss, IlRun(ss, Running(st), k), M.Run(prog, M.Next(vm), n))
    {
      var k := EndsWith(ss, st, vm, n);
      assert !IlRun(ss, Running(st), k).Running?;
    }
  }

  lemma CompilesSmall(ss: seq<IlStmt>)
    requires Compiles(ss)
    ensures |VarsOf(ss)| <= MAX_IL_VARS
  {
  }

  /** When the machine has come to its end, so has the interpreter some statements on. */
  lemma EndsWith(ss: seq<IlStmt>, st: IlState, vm: M.Vm, n: nat) returns (k: nat)
    requires Compiles(ss) && Related(ss, st, vm) && !M.Run(ProgramCode(ss), M.Next(vm), n).Next?
    ensures !IlRun(ss, Running(st), k).Running? && |VarsOf(ss)| <= MAX_IL_VARS
    ensures SameOut(ss, IlRun(ss, Running(st), k), M.Run(ProgramCode(ss), M.Next(vm), n))
  {
    hide M.Step; hide M.Run; hide ProgramCode; hide StepCost; hide IlStep; hide IlRun; hide Cost; hide Related;
    hide VarsOf; hide SoundAt;
    var prog := ProgramCode(ss);
    RelatedPc(ss, st, vm);
    k := (n + 1) * (|ss| + 1) + |ss|;
    Lockstep(ss, st, vm, k);
    var c := Cost(ss, Running(st), k);
    if IlRun(ss, Running(st), k).Running? {
      CostBeyond(ss, st, k, n);
      M.RunSplit(prog, M.Next(vm), n, c - n);
      M.RunStuck(prog, M.Run(prog, M.Next(vm), n), c - n);
      assert false;
    } else {
      M.RunDeterministic(prog, M.Next(vm), n, c);
    }
  }

  lemma RelatedPc(ss: seq<IlStmt>, st: IlState, vm: M.Vm)
    requires |VarsOf(ss)| <= MAX_IL_VARS && Related(ss, st, vm)
    ensures st.pc <= |ss|
  {
  }

  lemma CostBeyond(ss: seq<IlStmt>, st: IlState, k: nat, n: nat)
    requires Compiles(ss) && st.pc <= |ss| && IlRun(ss, Running(st), k).Running?
    requires k == (n + 1) * (|ss| + 1) + |ss|
    ensures Cost(ss, Running(st), k) > n
  {
    hide Cost; hide IlRun; hide Compiles;
    CostGrows(ss, st, k);
    Products(Cost(ss, Running(st), k), |ss| + 1, n);
  }

  lemma Products(c: nat, m: nat, n: nat)
    requires m > 0 && (n + 1) * m <= c * m
    ensures c > n
  {
    assert (n + 1) * m == n * m + m;
    assert c <= n ==> c * m <= n * m;
  }

  /** A scan starts by loading TRUE; then machine and interpreter are related at the first statement. */
  lemma ScanStarts(ss: seq<IlStmt>, vm: M.Vm)
    requires |VarsOf(ss)| <= MAX_IL_VARS && vm.ip == 0 && vm.callStack == []
    ensures var out := M.Step(ProgramCode(ss), vm);
            out.Next? && Related(ss, IlState(0, vm.regs[CR_REG], vm.signals), out.vm)
  {
    var prog := ProgramCode(ss);
    assert M.CodeAt(prog, 0, [M.LoadImm(TRUE_REG, Bool(true))]) by {
      assert prog[0..1] == [M.LoadImm(TRUE_REG, Bool(true))];
    }
    M.StepLoadImm(prog, vm, TRUE_REG, Bool(true));
    assert ss[..0] == [];
  }
}
