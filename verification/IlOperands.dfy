/** IL statements register by register: what compiled statements do whose variable is not
    current, and exactly when that is what they say. */
module IlOperands {
  import opened HalValues
  import opened IlLang
  import opened IlLayout
  import opened IlLockstep
  import M = Machine

  // ----- when a combining statement is right, register by register -----

  /** OR adds the register where it should add the signal: right if and only if the register
      holds a Boolean that, unless CR is true already, is the signal's. */
  lemma OrExactly(prog: seq<M.Instruction>, v: string, r: nat, vm: M.Vm)
    requires r < MAX_IL_VARS && M.CodeAt(prog, vm.ip, StmtCode(Or(v), r, vm.ip, 0))
    requires vm.regs[CR_REG].Bool? && M.ReadSignal(vm.signals, v).Bool?
    ensures var out, x := M.Step(prog, vm), M.ReadSignal(vm.signals, v);
            && out.Next?
            && (out.vm.regs[CR_REG] == Bool(vm.regs[CR_REG].b || x.b) <==>
                vm.regs[r].Bool? && (vm.regs[CR_REG].b || vm.regs[r] == x))
  {
    M.StepBits(prog, vm, M.Or, CR_REG, r, CR_REG);
  }

  /** ORN alike; an unused register, no Boolean, turns CR into the number zero. */
  lemma OrNotExactly(prog: seq<M.Instruction>, v: string, r: nat, vm: M.Vm)
    requires r < MAX_IL_VARS && M.CodeAt(prog, vm.ip, StmtCode(OrNot(v), r, vm.ip, 0))
    requires vm.regs[CR_REG].Bool? && M.ReadSignal(vm.signals, v).Bool?
    ensures var out, x := M.Run(prog, M.Next(vm), 3), M.ReadSignal(vm.signals, v);
            && out.Next?
            && (out.vm.regs[CR_REG] == Bool(vm.regs[CR_REG].b || !x.b) <==>
                vm.regs[r].Bool? && (vm.regs[CR_REG].b || vm.regs[r] == x))
  {
    hide M.Step; hide M.Run;
    OrNotRuns(prog, v, r, vm);
  }

  lemma XorExactly(prog: seq<M.Instruction>, v: string, r: nat, vm: M.Vm)
    requires r < MAX_IL_VARS && M.CodeAt(prog, vm.ip, StmtCode(Xor(v), r, vm.ip, 0))
    requires vm.regs[CR_REG].Bool? && M.ReadSignal(vm.signals, v).Bool?
    ensures var out, x := M.Step(prog, vm), M.ReadSignal(vm.signals, v);
            && out.Next?
            && (out.vm.regs[CR_REG] == Bool(vm.regs[CR_REG].b != x.b) <==> vm.regs[r] == x)
  {
    M.StepBits(prog, vm, M.Xor, CR_REG, r, CR_REG);
  }

  /** A comparison is right if and only if CR compares with the register as with the signal. */
  lemma CompareExactly(prog: seq<M.Instruction>, k: CompareKind, v: string, r: nat, t: nat, vm: M.Vm)
    requires r < MAX_IL_VARS && M.CodeAt(prog, vm.ip, StmtCode(Cmp(k, v), r, vm.ip, t))
    ensures var holds := Compare(Relation(k), vm.regs[CR_REG], vm.regs[r]);
            var out := M.Run(prog, M.Next(vm), if holds then 3 else 4);
            && out.Next?
            && (Some(out.vm.regs[CR_REG]) == Meant(Cmp(k, v), vm.regs[CR_REG], vm.signals) <==>
                holds == Compare(Relation(k), vm.regs[CR_REG], M.ReadSignal(vm.signals, v)))
  {
    hide M.Step; hide M.Run; hide Compare; hide Relation; hide StmtCode; hide M.ReadSignal;
    CompareContinues(prog, k, v, r, t, vm);
  }

  ghost predicate ComparesAlike(k: CompareKind, t: IntType, y: HalValue, x: HalValue) {
    forall n | InRange(t, n) :: Compare(Relation(k), Int(t, n), y) == Compare(Relation(k), Int(t, n), x)
  }

  /** Each of the six comparisons with a number is right for every CR of its type if and only
      if the register holds the signal's value; for EQ and NE whatever the register holds. */
  lemma CompareNeedsSignal(k: CompareKind, y: HalValue, x: HalValue)
    requires Number(x) && (k.CEq? || k.CNe? || (Number(y) && y.ity == x.ity))
    ensures ComparesAlike(k, x.ity, y, x) <==> y == x
  {
    if y != x {
      var c := if k.CEq? || k.CNe? then x.n else if k.CGt? || k.CLe? then Greater(x.n, y.n) else Lesser(x.n, y.n);
      assert InRange(x.ity, c) && Compare(Relation(k), Int(x.ity, c), y) != Compare(Relation(k), Int(x.ity, c), x);
    }
  }

  function Greater(a: int, b: int): int { if a < b then b else a }

  function Lesser(a: int, b: int): int { if a < b then a else b }

  /** A comparison as the last statement: the program halts if and only if the comparison
      holds; otherwise the halt is what is skipped and the pointer leaves the program. */
  lemma LastCompare(ss: seq<IlStmt>, vm: M.Vm)
    requires ss != [] && ss[|ss| - 1].Cmp? && |VarsOf(ss)| <= MAX_IL_VARS && vm.ip == Offset(ss[..|ss| - 1])
    ensures RegFor(VarsOf(ss), ss[|ss| - 1]) < MAX_IL_VARS
    ensures var holds := Compare(Relation(ss[|ss| - 1].kind), vm.regs[CR_REG],
                                 vm.regs[RegFor(VarsOf(ss), ss[|ss| - 1])]);
            var end := M.Run(ProgramCode(ss), M.Next(vm), 5);
            && (holds ==> end.Halted? && end.vm.regs[CR_REG] == Bool(true))
            && (!holds ==> end == M.Panic(M.IpOutOfBounds))
  {
    hide M.Step; hide M.Run; hide ProgramCode; hide StmtCode; hide Offset; hide VarsOf; hide LabelsOf; hide TargetIn;
    hide RegFor; hide Compare; hide Relation;
    var s, prog := ss[|ss| - 1], ProgramCode(ss);
    StmtAt(ss, |ss| - 1);
    RegisterOf(ss, |ss| - 1);
    var r, t := RegFor(VarsOf(ss), s), TargetIn(LabelsOf(ss), Offset(ss), s);
    CompareContinues(prog, s.kind, s.v, r, t, vm);
    NextOffset(ss, |ss| - 1);
    assert ss[..|ss|] == ss;
    ProgramEnds(ss);
    var holds := Compare(Relation(s.kind), vm.regs[CR_REG], vm.regs[r]);
    var mid := M.Run(prog, M.Next(vm), if holds then 3 else 4);
    if holds {
      M.StepHalt(prog, mid.vm);
      M.RunMore(prog, M.Next(vm), 3, mid.vm);
      M.RunSplit(prog, M.Next(vm), 4, 1);
      M.RunStuck(prog, M.Run(prog, M.Next(vm), 4), 1);
    } else {
      BehindProgram(prog, mid.vm);
      M.RunMore(prog, M.Next(vm), 4, mid.vm);
    }
  }

  lemma BehindProgram(prog: seq<M.Instruction>, vm: M.Vm)
    requires vm.ip >= |prog|
    ensures M.Step(prog, vm) == M.Panic(M.IpOutOfBounds)
  {
    hide M.Execute;
  }

  lemma ProgramEnds(ss: seq<IlStmt>)
    ensures |ProgramCode(ss)| == Offset(ss) + 1
    ensures M.CodeAt(ProgramCode(ss), Offset(ss), [M.HaltInstr()])
  {
    hide BodyCode; hide Offset;
    BodySize(ss, VarsOf(ss), LabelsOf(ss), Offset(ss));
    HaltAt(ss);
  }

  /** JMPCN directly behind a comparison never jumps: both ways through the comparison the
      machine comes out behind the two statements. So they do what they say if and only if the
      comparison holds, unless the label stands right there. */
  lemma CompareThenJumpIfNot(ss: seq<IlStmt>, st: IlState, vm: M.Vm)
    requires |VarsOf(ss)| <= MAX_IL_VARS && Related(ss, st, vm)
    requires st.pc + 1 < |ss| && ss[st.pc].Cmp? && Current(ss, st.pc, ss[st.pc].v) && ss[st.pc + 1].JumpIfNot?
    ensures var holds := Meant(ss[st.pc], st.cr, st.signals) == Some(Bool(true));
            var il, out := IlRun(ss, Running(st), 2), M.Run(ProgramCode(ss), M.Next(vm), 5);
            && il.Running? && out.Next? && out.vm.regs[CR_REG] == il.st.cr == Bool(holds)
            && out.vm.ip == Offset(ss[..st.pc + 2])
            && il.st.pc == (if holds then st.pc + 2 else Goto(ss, st, ss[st.pc + 1].target).pc)
            && (Offset(ss[..Goto(ss, st, ss[st.pc + 1].target).pc]) != Offset(ss[..st.pc + 2]) ==>
                  (out.vm.ip == Offset(ss[..il.st.pc]) <==> holds))
  {
    hide M.Run; hide ProgramCode; hide Offset; hide VarsOf; hide RegFor; hide Filled; hide Current; hide Goto;
    hide Compare; hide Relation; hide Operand; hide IlRun; hide M.Step;
    CurrentIsRead(ss, st.pc, vm);
    BothWaysBehind(ss, st.pc, vm);
    InterpreterJumps(ss, st);
  }

  lemma BothWaysBehind(ss: seq<IlStmt>, pc: nat, vm: M.Vm)
    requires pc + 1 < |ss| && ss[pc].Cmp? && ss[pc + 1].JumpIfNot? && RegFor(VarsOf(ss), ss[pc]) < MAX_IL_VARS
    requires vm.ip == Offset(ss[..pc]) && vm.regs[TRUE_REG] == Bool(true)
    ensures var out := M.Run(ProgramCode(ss), M.Next(vm), 5);
            && out.Next? && out.vm.ip == Offset(ss[..pc + 2])
            && out.vm.regs[CR_REG] ==
               Bool(Compare(Relation(ss[pc].kind), vm.regs[CR_REG], vm.regs[RegFor(VarsOf(ss), ss[pc])]))
  {
    hide M.Step; hide M.Run; hide ProgramCode; hide StmtCode; hide Offset; hide VarsOf; hide LabelsOf; hide TargetIn;
    hide RegFor; hide Compare; hide Relation;
    var s, next, prog := ss[pc], ss[pc + 1], ProgramCode(ss);
    StmtAt(ss, pc);
    NextOffset(ss, pc);
    CompareContinues(prog, s.kind, s.v, RegFor(VarsOf(ss), s), TargetIn(LabelsOf(ss), Offset(ss), s), vm);
    CompareCode(s.kind, s.v, 0, 0, 0);
    StmtAt(ss, pc + 1);
    NextOffset(ss, pc + 1);
    SmallSizes();
    var r, t := RegFor(VarsOf(ss), next), TargetIn(LabelsOf(ss), Offset(ss), next);
    var holds := Compare(Relation(s.kind), vm.regs[CR_REG], vm.regs[RegFor(VarsOf(ss), s)]);
    var mid := M.Run(prog, M.Next(vm), if holds then 3 else 4).vm;
    JumpIfNotCode(next.target, r, Offset(ss[..pc + 1]), t);
    if holds {
      JumpRuns(prog, next, r, t, mid);
      M.RunSplit(prog, M.Next(vm), 3, 2);
    } else {
      M.CodeAtSplit(prog, Offset(ss[..pc + 1]), [M.Cmp2(M.Neq, CR_REG, TRUE_REG)], [M.JumpIfTo(t)]);
      M.StepJumpIf(prog, mid, t);
      M.RunMore(prog, M.Next(vm), 4, mid);
    }
  }

  lemma InterpreterJumps(ss: seq<IlStmt>, st: IlState)
    requires st.pc + 1 < |ss| && ss[st.pc].Cmp? && ss[st.pc + 1].JumpIfNot?
    ensures var holds, il := Meant(ss[st.pc], st.cr, st.signals) == Some(Bool(true)), IlRun(ss, Running(st), 2);
            && il.Running? && il.st.cr == Bool(holds)
            && il.st.pc == (if holds then st.pc + 2 else Goto(ss, st, ss[st.pc + 1].target).pc)
  {
    hide Compare; hide Relation; hide Operand; hide Goto; hide IlRun;
    TwoSteps(ss, st);
    GotoFrom(ss, st, IlStep(ss, st).st, ss[st.pc + 1].target);
    GotoKeeps(ss, IlStep(ss, st).st, ss[st.pc + 1].target);
  }

  /** ST directly behind a comparison is what a failing one skips: the signal becomes the
      comparison's value if and only if it holds, or the signal was false before. */
  lemma CompareThenStore(ss: seq<IlStmt>, st: IlState, vm: M.Vm)
    requires |VarsOf(ss)| <= MAX_IL_VARS && Related(ss, st, vm)
    requires st.pc + 1 < |ss| && ss[st.pc].Cmp? && Current(ss, st.pc, ss[st.pc].v) && ss[st.pc + 1].Store?
    ensures var holds, y := Meant(ss[st.pc], st.cr, st.signals) == Some(Bool(true)), ss[st.pc + 1].v;
            var il, out := IlRun(ss, Running(st), 2), M.Run(ProgramCode(ss), M.Next(vm), 4);
            && il == Running(IlState(st.pc + 2, Bool(holds), st.signals[y := Bool(holds)]))
            && out.Next? && out.vm.ip == Offset(ss[..st.pc + 2]) && out.vm.regs[CR_REG] == Bool(holds)
            && out.vm.signals == (if holds then vm.signals[y := Bool(true)] else vm.signals)
            && (M.ReadSignal(out.vm.signals, y) == M.ReadSignal(il.st.signals, y) <==>
                holds || M.ReadSignal(vm.signals, y) == Bool(false))
  {
    hide M.Step; hide M.Run; hide ProgramCode; hide StmtCode; hide Offset; hide VarsOf; hide LabelsOf; hide TargetIn;
    hide RegFor; hide Filled; hide Current; hide Compare; hide Relation; hide Operand; hide IlRun;
    var s, next, prog := ss[st.pc], ss[st.pc + 1], ProgramCode(ss);
    StmtAt(ss, st.pc);
    NextOffset(ss, st.pc);
    CurrentIsRead(ss, st.pc, vm);
    CompareContinues(prog, s.kind, s.v, RegFor(VarsOf(ss), s), TargetIn(LabelsOf(ss), Offset(ss), s), vm);
    StmtAt(ss, st.pc + 1);
    NextOffset(ss, st.pc + 1);
    StoreCode(next.v, RegFor(VarsOf(ss), next), Offset(ss[..st.pc + 1]), TargetIn(LabelsOf(ss), Offset(ss), next));
    if Compare(Relation(s.kind), vm.regs[CR_REG], vm.regs[RegFor(VarsOf(ss), s)]) {
      var mid := M.Run(prog, M.Next(vm), 3).vm;
      M.StepStore(prog, mid, next.v, CR_REG);
      M.RunMore(prog, M.Next(vm), 3, mid);
    }
    TwoSteps(ss, st);
  }

  lemma StoreCode(v: string, r: nat, at: nat, t: nat)
    ensures StmtCode(Store(v), r, at, t) == [M.StoreSig(v, CR_REG)] && Size(Store(v)) == 1
  {
  }

  lemma JumpIfNotCode(l: string, r: nat, at: nat, t: nat)
    ensures StmtCode(JumpIfNot(l), r, at, t) == [M.Cmp2(M.Neq, CR_REG, TRUE_REG)] + [M.JumpIfTo(t)]
  {
  }

  lemma TwoSteps(ss: seq<IlStmt>, st: IlState)
    requires IlStep(ss, st).Running?
    ensures IlRun(ss, Running(st), 2) == IlStep(ss, IlStep(ss, st).st)
  {
    hide IlStep;
    assert IlRun(ss, Running(st), 2) == IlRun(ss, IlStep(ss, st), 1);
  }

  lemma GotoFrom(ss: seq<IlStmt>, a: IlState, b: IlState, l: string)
    ensures Goto(ss, a, l).pc == Goto(ss, b, l).pc
  {
  }

  /** ADD and SUB of numbers of one type are right if and only if the register holds the
      signal's value. */
  lemma SumExactly(prog: seq<M.Instruction>, s: IlStmt, r: nat, vm: M.Vm)
    requires s.Add? || s.Sub?
    requires r < MAX_IL_VARS && M.CodeAt(prog, vm.ip, StmtCode(s, r, vm.ip, 0))
    requires var x := M.ReadSignal(vm.signals, s.v);
             && Number(vm.regs[CR_REG]) && Number(x) && Number(vm.regs[r])
             && vm.regs[CR_REG].ity == x.ity == vm.regs[r].ity
    ensures var out, x := M.Step(prog, vm), M.ReadSignal(vm.signals, s.v);
            && out.Next?
            && (Some(out.vm.regs[CR_REG]) == Arith(ArithFor(s).value, vm.regs[CR_REG], x) <==> vm.regs[r] == x)
  {
    hide M.Step; hide Wrap; hide RangeSize; hide M.ReadSignal;
    var cr, x, y := vm.regs[CR_REG], M.ReadSignal(vm.signals, s.v), vm.regs[r];
    M.StepArith(prog, vm, ArithOpcode(ArithFor(s).value), CR_REG, r, CR_REG);
    IntegerSums(x.ity, cr.n, x.n);
    IntegerSums(x.ity, cr.n, y.n);
    WrapSame(x.ity, cr.n + x.n, cr.n + y.n);
    WrapSame(x.ity, cr.n - x.n, cr.n - y.n);
    SmallDifference(x.ity, x.n, y.n);
  }

  /** MUL is right if and only if CR takes the difference to a multiple of the type's range. */
  lemma ProductExactly(prog: seq<M.Instruction>, v: string, r: nat, vm: M.Vm)
    requires r < MAX_IL_VARS && M.CodeAt(prog, vm.ip, StmtCode(Mul(v), r, vm.ip, 0))
    requires var x := M.ReadSignal(vm.signals, v);
             && Number(vm.regs[CR_REG]) && Number(x) && Number(vm.regs[r])
             && vm.regs[CR_REG].ity == x.ity == vm.regs[r].ity
    ensures var out, x := M.Step(prog, vm), M.ReadSignal(vm.signals, v);
            && out.Next?
            && (Some(out.vm.regs[CR_REG]) == Arith(MulOp, vm.regs[CR_REG], x) <==>
                (vm.regs[CR_REG].n * (vm.regs[r].n - x.n)) % RangeSize(x.ity) == 0)
  {
    hide M.Step; hide Wrap; hide RangeSize; hide M.ReadSignal;
    var cr, x, y := vm.regs[CR_REG], M.ReadSignal(vm.signals, v), vm.regs[r];
    M.StepArith(prog, vm, M.Mul, CR_REG, r, CR_REG);
    WrapSame(x.ity, cr.n * y.n, cr.n * x.n);
    assert cr.n * y.n - cr.n * x.n == cr.n * (y.n - x.n);
  }

  ghost predicate SameForAll(op: ArithOp, y: HalValue, x: HalValue) {
    forall n | InRange(I32, n) :: Arith(op, S32(n), y) == Arith(op, S32(n), x)
  }

  /** DIV of DINTs is right for every CR if and only if the register holds the signal's value. */
  lemma QuotientExactly(y: HalValue, x: HalValue)
    requires IsDint(x) && IsDint(y)
    ensures SameForAll(DivOp, y, x) <==> y == x
  {
    hide TruncDiv; hide Wrap;
    if y != x {
      var c := if y.n == 0 || (x.n != 0 && Magnitude(x.n) <= Magnitude(y.n)) then x.n else y.n;
      var other := if c == x.n then y.n else x.n;
      OwnQuotient(c);
      if other != 0 { SmallQuotient(c, other); }
      assert Arith(DivOp, S32(c), y) != Arith(DivOp, S32(c), x);
    }
  }

  /** MOD of DINTs is right for every CR if and only if the register holds the signal's
      value, or its negative but for 1 and -1, or both are 0 or 1. */
  lemma RemainderExactly(y: HalValue, x: HalValue)
    requires IsDint(x) && IsDint(y)
    ensures SameForAll(ModOp, y, x) <==>
            y == x || (y.n == -x.n && Magnitude(x.n) != 1) || (0 <= y.n <= 1 && 0 <= x.n <= 1)
  {
    hide Wrap; hide TruncRem;
    var small, large := if Magnitude(x.n) <= Magnitude(y.n) then x.n else y.n,
      if Magnitude(x.n) <= Magnitude(y.n) then y.n else x.n;
    if y == x || (y.n == -x.n && Magnitude(x.n) != 1) || (0 <= y.n <= 1 && 0 <= x.n <= 1) {
      forall n | InRange(I32, n)
        ensures Arith(ModOp, S32(n), y) == Arith(ModOp, S32(n), x)
      {
        if x.n != 0 && y.n == -x.n { OppositeRemainder(n, x.n); }
        UnitRemainder(n);
      }
    } else if Magnitude(large) == 1 {
      UnitRemainder(IntMin(I32));
      assert Arith(ModOp, S32(IntMin(I32)), y) != Arith(ModOp, S32(IntMin(I32)), x);
    } else {
      var c := if Magnitude(small) <= 1 then 1 else small;
      UnitRemainder(1);
      SmallRemainder(c, large);
      if small != 0 { SmallRemainder(c, small); }
      assert Arith(ModOp, S32(c), y) != Arith(ModOp, S32(c), x);
    }
  }

  lemma OppositeRemainder(a: int, b: int)
    requires b != 0
    ensures TruncRem(a, -b) == TruncRem(a, b)
  {
    assert TruncDiv(a, -b) == -TruncDiv(a, b);
  }

  lemma UnitRemainder(n: int)
    ensures TruncRem(n, 1) == 0
  {
  }

  lemma SmallRemainder(c: int, d: int)
    requires d != 0 && c != 0 && Magnitude(c) <= Magnitude(d)
    ensures TruncRem(c, d) == if Magnitude(c) == Magnitude(d) then 0 else c
  {
    if Magnitude(c) == Magnitude(d) {
      if c == d { OwnQuotient(c); } else { SmallQuotient(c, d); }
    } else {
      SmallQuotient(c, d);
    }
  }

  // ----- straight-line code from the start -----

  predicate Plain(s: IlStmt) { Straight(s) && ArithFor(s).None? }

  /** The machine behind the first `k` statements: without jumps it has taken a step for every
      instruction. */
  function After(ss: seq<IlStmt>, vm: M.Vm, k: nat): M.StepOut
    requires k <= |ss|
  {
    M.Run(ProgramCode(ss), M.Next(vm), Offset(ss[..k]))
  }

  predicate PlainUpTo(ss: seq<IlStmt>, k: nat)
    requires k <= |ss|
  {
    |VarsOf(ss)| <= MAX_IL_VARS && forall i :: 0 <= i < k ==> Plain(ss[i])
  }

  lemma {:induction false} PrefixRuns(ss: seq<IlStmt>, vm: M.Vm, k: nat)
    requires k <= |ss| && vm.ip == 0 && PlainUpTo(ss, k)
    ensures After(ss, vm, k).Next? && After(ss, vm, k).vm.ip == Offset(ss[..k])
    ensures After(ss, vm, k).vm.callStack == vm.callStack
    ensures k == 0 ==> After(ss, vm, k).vm.signals == vm.signals &&
                       After(ss, vm, k).vm.regs == vm.regs[TRUE_REG := Bool(true)]
    ensures k > 0 ==> After(ss, vm, k - 1).Next? && RegFor(VarsOf(ss), ss[k - 1]) < MAX_IL_VARS &&
                      DoneAs(ss[k - 1], RegFor(VarsOf(ss), ss[k - 1]), After(ss, vm, k - 1).vm, After(ss, vm, k))
  {
    hide M.Step; hide M.Run; hide ProgramCode; hide StmtCode; hide Offset; hide VarsOf; hide LabelsOf; hide TargetIn;
    hide RegFor; hide Size; hide Accumulate; hide Taken; hide Kept; hide Stored;
    var prog := ProgramCode(ss);
    if k == 0 {
      NoneBefore(ss);
      FirstStep(ss, vm);
      M.RunOne(prog, vm);
    } else {
      PrefixRuns(ss, vm, k - 1);
      var s, mid := ss[k - 1], After(ss, vm, k - 1).vm;
      StmtAt(ss, k - 1);
      RegisterOf(ss, k - 1);
      NextOffset(ss, k - 1);
      StraightRuns(prog, s, RegFor(VarsOf(ss), s), TargetIn(LabelsOf(ss), Offset(ss), s), mid);
      M.RunSplit(prog, M.Next(vm), Offset(ss[..k - 1]), Size(s));
      PlainGoesOn(s, RegFor(VarsOf(ss), s), mid, After(ss, vm, k));
    }
  }

  lemma PlainGoesOn(s: IlStmt, r: nat, vm: M.Vm, out: M.StepOut)
    requires r < MAX_IL_VARS && Plain(s) && DoneAs(s, r, vm, out)
    ensures out.Next? && out.vm.ip == vm.ip + Size(s) && out.vm.callStack == vm.callStack
  {
    hide Size; hide Taken; hide Kept; hide Stored;
  }

  lemma NoneBefore(ss: seq<IlStmt>)
    ensures Offset(ss[..0]) == 1
  {
    assert ss[..0] == [];
  }

  lemma FirstStep(ss: seq<IlStmt>, vm: M.Vm)
    requires vm.ip == 0
    ensures M.Step(ProgramCode(ss), vm) == M.Next(vm.(regs := vm.regs[TRUE_REG := Bool(true)], ip := 1))
  {
    hide M.Step; hide BodyCode;
    var prog := ProgramCode(ss);
    assert prog[0..1] == [M.LoadImm(TRUE_REG, Bool(true))];
    M.StepLoadImm(prog, vm, TRUE_REG, Bool(true));
  }

  /** At the end it halts. */
  lemma PlainHalts(ss: seq<IlStmt>, vm: M.Vm)
    requires vm.ip == 0 && PlainUpTo(ss, |ss|)
    ensures var out := M.Run(ProgramCode(ss), M.Next(vm), Offset(ss) + 1);
            out.Halted? && After(ss, vm, |ss|).Next? && out.vm.signals == After(ss, vm, |ss|).vm.signals
  {
    hide M.Step; hide M.Run; hide ProgramCode; hide VarsOf; hide DoneAs; hide RegFor; hide Offset;
    PrefixRuns(ss, vm, |ss|);
    assert ss[..|ss|] == ss;
    var end := After(ss, vm, |ss|).vm;
    ProgramEnds(ss);
    M.StepHalt(ProgramCode(ss), end);
    M.RunMore(ProgramCode(ss), M.Next(vm), Offset(ss), end);
  }

  /** Nothing up to `k` writes the register of `v`. */
  predicate Unwritten(ss: seq<IlStmt>, k: nat, v: string)
    requires k <= |ss|
  {
    forall i :: 0 <= i < k && (Loads(ss[i]) || Latches(ss[i])) ==> ss[i].v != v
  }

  lemma {:induction false} KeepsUnwritten(ss: seq<IlStmt>, vm: M.Vm, k: nat, i: nat)
    requires k <= |ss| && vm.ip == 0 && PlainUpTo(ss, k)
    requires i < |VarsOf(ss)| && Unwritten(ss, k, VarsOf(ss)[i])
    ensures After(ss, vm, k).Next? && After(ss, vm, k).vm.regs[i] == vm.regs[i]
  {
    hide VarsOf; hide Accumulate; hide Taken; hide Stored; hide After; hide Size; hide Plain;
    PrefixRuns(ss, vm, k);
    if k > 0 {
      KeepsUnwritten(ss, vm, k - 1, i);
      var s := ss[k - 1];
      if VarOf(s).Some? {
        VarsHold(ss, k - 1);
        IndexOfIn(VarsOf(ss), VarOf(s).value);
      }
    }
  }

  /** What follows a contact in parallel: more of them, and coils. */
  predicate KeepsNumber(s: IlStmt) { s.Or? || s.OrNot? || s.Store? || Latches(s) }

  /** OR and ORN with a register that nothing has written yet, and that holds a number as on a
      new machine, make CR a number, and a number it stays over further ones and over coils. */
  lemma {:induction false} UnloadedOrIsNumber(ss: seq<IlStmt>, vm: M.Vm, p: nat, k: nat)
    requires p < k <= |ss| && vm.ip == 0 && PlainUpTo(ss, k)
    requires (ss[p].Or? || ss[p].OrNot?) && Unwritten(ss, p, ss[p].v)
    requires forall i :: 0 <= i < MAX_IL_VARS ==> vm.regs[i].Int?
    requires forall i :: p < i < k ==> KeepsNumber(ss[i])
    ensures After(ss, vm, k).Next? && After(ss, vm, k).vm.regs[CR_REG].Int?
    decreases k
  {
    hide VarsOf; hide Stored; hide After; hide Size; hide Plain; hide Kept; hide Bitwise; hide BitNot;
    PrefixRuns(ss, vm, k);
    var s := ss[k - 1];
    BitsOfNumbers();
    if k - 1 == p {
      VarsHold(ss, p);
      IndexOfIn(VarsOf(ss), s.v);
      KeepsUnwritten(ss, vm, p, RegFor(VarsOf(ss), s));
    } else {
      UnloadedOrIsNumber(ss, vm, p, k - 1);
    }
  }

  lemma BitsOfNumbers()
    ensures forall a: HalValue, b: HalValue :: a.Int? || b.Int? ==> Bitwise(OrOp, a, b).Int?
    ensures forall a: HalValue :: a.Int? ==> BitNot(a).Int?
  {
    hide Wrap; hide BitwiseNat;
  }

  /** A signal keeps its value over statements that do not store to it. */
  lemma {:induction false} KeepsUnstored(ss: seq<IlStmt>, vm: M.Vm, j: nat, k: nat, x: string)
    requires j <= k <= |ss| && vm.ip == 0 && PlainUpTo(ss, k)
    requires forall i :: j <= i < k ==> ss[i] != Store(x)
    ensures After(ss, vm, j).Next? && After(ss, vm, k).Next?
    ensures M.ReadSignal(After(ss, vm, k).vm.signals, x) == M.ReadSignal(After(ss, vm, j).vm.signals, x)
    decreases k
  {
    hide VarsOf; hide Accumulate; hide Taken; hide After; hide Size; hide Plain; hide Kept; hide RegFor;
    PrefixRuns(ss, vm, k);
    if j < k {
      KeepsUnstored(ss, vm, j, k - 1, x);
    }
  }

  lemma PlainPrefix(ss: seq<IlStmt>, k: nat)
    requires k <= |ss| && PlainUpTo(ss, |ss|)
    ensures PlainUpTo(ss, k)
  {
    hide VarsOf; hide Plain;
  }

  lemma CoilStored(s: IlStmt, r: nat, vm: M.Vm, out: M.StepOut)
    requires s.Store? && r < MAX_IL_VARS && DoneAs(s, r, vm, out)
    ensures out.Next? && M.ReadSignal(out.vm.signals, s.v) == vm.regs[CR_REG]
  {
    hide Size; hide Taken; hide Kept;
  }

  /** So a coil behind it stores a number where a Boolean is meant, and unless a later
      statement stores to the same variable, that is what the scan ends with. */
  lemma UnloadedOrStoresNumber(ss: seq<IlStmt>, vm: M.Vm, p: nat, j: nat)
    requires p < j < |ss| && vm.ip == 0 && PlainUpTo(ss, |ss|)
    requires (ss[p].Or? || ss[p].OrNot?) && Unwritten(ss, p, ss[p].v)
    requires forall i :: 0 <= i < MAX_IL_VARS ==> vm.regs[i].Int?
    requires ss[j].Store? && (forall i :: p < i < j ==> KeepsNumber(ss[i]))
    requires forall i :: j < i < |ss| ==> ss[i] != ss[j]
    ensures var out := M.Run(ProgramCode(ss), M.Next(vm), Offset(ss) + 1);
            out.Halted? && M.ReadSignal(out.vm.signals, ss[j].v).Int?
  {
    hide *;
    PlainPrefix(ss, j + 1);
    PlainPrefix(ss, j);
    UnloadedOrIsNumber(ss, vm, p, j);
    PrefixRuns(ss, vm, j + 1);
    CoilStored(ss[j], RegFor(VarsOf(ss), ss[j]), After(ss, vm, j).vm, After(ss, vm, j + 1));
    KeepsUnstored(ss, vm, j + 1, |ss|, ss[j].v);
    PlainHalts(ss, vm);
  }

  // ----- the shortest programs that go wrong -----

  /** LD a, OR b on a new machine leaves the number zero in CR, where a or b asks for a
      Boolean, whatever the signals hold; with b loaded before it is right. */
  lemma UnloadedOrFails(vm: M.Vm)
    requires vm.ip == 0 && vm.regs[1] == S32(0) && M.ReadSignal(vm.signals, "a").Bool?
    ensures var ss := [Load("a"), Or("b")];
            && !Compiles(ss) && Compiles([Load("b"), Load("a"), Or("b")])
            && M.Run(ProgramCode(ss), M.Next(vm), 4).Next?
            && M.Run(ProgramCode(ss), M.Next(vm), 4).vm.regs[CR_REG] == S32(0)
  {
    hide Compiles; hide M.Run; hide ProgramCode; hide M.ReadSignal; hide DoneAs; hide PlainUpTo; hide RegFor;
    hide VarsOf; hide SoundAt; hide Offset; hide Current;
    var ss := [Load("a"), Or("b")];
    TwoStatements(Or("b"));
    ThreeStatements();
    NotCompiled(ss, 1);
    PrefixRuns(ss, vm, 0);
    PrefixRuns(ss, vm, 1);
    PrefixRuns(ss, vm, 2);
    var start, mid := After(ss, vm, 0).vm, After(ss, vm, 1).vm;
    LoadDone("a", 0, start, After(ss, vm, 1));
    OrDone("b", 1, mid, After(ss, vm, 2));
    assert ss[..2] == ss;
  }

  lemma LoadDone(v: string, r: nat, vm: M.Vm, out: M.StepOut)
    requires r < MAX_IL_VARS && DoneAs(Load(v), r, vm, out)
    ensures out.Next? && out.vm.regs[CR_REG] == M.ReadSignal(vm.signals, v) && out.vm.signals == vm.signals
    ensures forall i :: 0 <= i < MAX_IL_VARS && i != r ==> out.vm.regs[i] == vm.regs[i]
  {
    hide Size;
  }

  lemma OrDone(v: string, r: nat, vm: M.Vm, out: M.StepOut)
    requires r < MAX_IL_VARS && DoneAs(Or(v), r, vm, out)
    ensures out.Next? && out.vm.regs[CR_REG] == Bitwise(OrOp, vm.regs[CR_REG], vm.regs[r])
  {
    hide Size;
  }

  lemma NotCompiled(ss: seq<IlStmt>, i: nat)
    requires i < |ss| && !SoundAt(ss, i)
    ensures !Compiles(ss)
  {
    hide SoundAt;
  }

  /** LD a, EQ b on a new machine with both signals at 5: the comparison is false and, being
      the last statement, runs out of the program. */
  lemma UnloadedCompareFails(vm: M.Vm)
    requires vm.ip == 0 && vm.regs[1] == S32(0)
    requires M.ReadSignal(vm.signals, "a") == M.ReadSignal(vm.signals, "b") == S32(5)
    ensures var ss := [Load("a"), Cmp(CEq, "b")];
            && IlRun(ss, Running(IlState(0, vm.regs[CR_REG], vm.signals)), 2) ==
               Running(IlState(2, Bool(true), vm.signals))
            && M.Run(ProgramCode(ss), M.Next(vm), 8) == M.Panic(M.IpOutOfBounds)
  {
    hide M.Run; hide ProgramCode; hide M.ReadSignal; hide IlRun; hide PlainUpTo; hide DoneAs; hide RegFor; hide VarsOf;
    hide Offset;
    var ss := [Load("a"), Cmp(CEq, "b")];
    var start := IlState(0, vm.regs[CR_REG], vm.signals);
    TwoStatements(Cmp(CEq, "b"));
    LoadsFive(ss, start);
    PrefixRuns(ss, vm, 0);
    PrefixRuns(ss, vm, 1);
    var mid := After(ss, vm, 1).vm;
    LoadDone("a", 0, After(ss, vm, 0).vm, After(ss, vm, 1));
    LastCompare(ss, mid);
    M.RunSplit(ProgramCode(ss), M.Next(vm), 3, 5);
  }

  lemma LoadsFive(ss: seq<IlStmt>, st: IlState)
    requires ss == [Load("a"), Cmp(CEq, "b")] && st.pc == 0
    requires M.ReadSignal(st.signals, "a") == M.ReadSignal(st.signals, "b") == S32(5)
    ensures IlRun(ss, Running(st), 2) == Running(IlState(2, Bool(true), st.signals))
  {
    hide M.ReadSignal; hide IlRun;
    assert IlStep(ss, st) == Running(IlState(1, S32(5), st.signals));
    TwoSteps(ss, st);
  }

  lemma TwoStatements(s: IlStmt)
    requires s == Or("b") || s == Cmp(CEq, "b")
    ensures var ss := [Load("a"), s];
            && VarsOf(ss) == ["a", "b"] && RegFor(VarsOf(ss), ss[0]) == 0 && RegFor(VarsOf(ss), s) == 1
            && Offset(ss[..0]) == 1 && Offset(ss[..1]) == 3 && (s.Or? ==> Offset(ss) == 4)
            && PlainUpTo(ss, 0) && PlainUpTo(ss, 1) && (s.Or? ==> PlainUpTo(ss, 2) && !SoundAt(ss, 1))
  {
    var ss := [Load("a"), s];
    assert ss[..1] == [Load("a")] && ss[..1][..0] == [] && ss[..0] == [];
    assert VarsOf([Load("a")]) == ["a"] && VarsOf(ss) == ["a", "b"];
    assert ["a", "b"][1..] == ["b"] && IndexOf(["b"], "b") == 0;
    assert Current(ss, 1, "b") == Current(ss, 0, "b");
  }

  lemma ThreeStatements()
    ensures Compiles([Load("b"), Load("a"), Or("b")])
  {
    var good := [Load("b"), Load("a"), Or("b")];
    assert good[..2] == [Load("b"), Load("a")] && good[..2][..1] == [Load("b")] && [Load("b")][..0] == [];
    assert VarsOf([Load("b")]) == ["b"] && VarsOf(good[..2]) == ["b", "a"] && VarsOf(good) == ["b", "a"];
    assert Current(good, 1, "b") && Current(good, 2, "b");
  }
}
