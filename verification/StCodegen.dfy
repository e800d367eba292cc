/** The ST code generator as it runs: it appends to one instruction vector, hands
    scratch registers out of a pool of three, emits jumps with a placeholder target
    and patches them once the target is known. */
module StCodegen {
  import opened HalValues
  import opened StAst
  import opened Machine
  import opened StLayout
  import opened StPatch

  /** A block patched in place, with code before and after it. */
  lemma PatchedBlock(before: seq<Instruction>, block: seq<Instruction>, block': seq<Instruction>,
                     after: seq<Instruction>, sites: seq<nat>, target: nat)
    requires Becomes(block, |before|, sites, target, block')
    ensures Patch(before + block + after, 0, sites, target) == before + block' + after
  {
    MiddleBecomes(before, block, block', sites, after, 0, target);
  }

  lemma PatchedJump(before: seq<Instruction>, t0: nat, t: nat, after: seq<Instruction>)
    ensures Patch(before + [JumpTo(t0)] + after, 0, [|before|], t) == before + [JumpTo(t)] + after
    ensures Patch(before + [JumpIfTo(t0)] + after, 0, [|before|], t) == before + [JumpIfTo(t)] + after
  {
  }

  lemma PatchedTest(before: seq<Instruction>, tc: seq<Instruction>, t: nat, bc: seq<Instruction>,
                    tail: seq<Instruction>)
    ensures Patch(before + (tc + [JumpIfTo(0)] + (bc + tail)), 0, [|before| + |tc|], t) ==
            before + (tc + [JumpIfTo(t)] + bc + tail)
  {
    hide Patch;
    PatchedJump(before + tc, 0, t, bc + tail);
    Regroup(before, tc, [JumpIfTo(0)], bc + tail, [], []);
    Regroup(before + tc, [JumpIfTo(t)], bc, tail, [], []);
    Regroup(before, tc, [JumpIfTo(t)], bc, tail, []);
  }

  lemma Regroup(a: seq<Instruction>, b: seq<Instruction>, c: seq<Instruction>, d: seq<Instruction>,
                e: seq<Instruction>, f: seq<Instruction>)
    ensures a + b + c + d + e + f == a + (b + c + d + e + f)
    ensures a + b + c + d + e == a + (b + c + d + e)
    ensures a + b + c + d == a + b + (c + d) == a + (b + c + d)
    ensures a + b + [] == a + b
    ensures a + b + c == a + (b + c)
  {
  }

  /** A condition that is neither a comparison nor joined or negated. */
  predicate ByValue(e: Expr) {
    !(e.Binary? && (IsCmp(e.op) || e.op.BAnd? || e.op.BOr?)) && !(e.Unary? && e.uop.UNot?)
  }

  lemma ValueCondIs(env: Env, e: Expr, at: nat)
    requires ByValue(e)
    ensures CondCode(env, e, at, 0, 0) == ValueCondCode(env, e, at, 0)
    ensures CondStatus(env, e) == ExprStatus(env, e, 1)
    ensures ElseSites(env, e, at) == [at + |ValueCondCode(env, e, at, 0)| - 1] && EndSites(env, e, at) == []
  {
    hide ExprCode; hide ExprStatus; hide ValueCondCode;
  }

  lemma AndLayout(env: Env, e: Expr, at: nat)
    requires e.Binary? && e.op.BAnd?
    ensures var lc := CondCode(env, e.left, at, 0, 0);
            && CondCode(env, e, at, 0, 0) == lc + CondCode(env, e.right, at + |lc|, 0, 0)
            && CondStatus(env, e) == Then(CondStatus(env, e.left), CondStatus(env, e.right))
            && ElseSites(env, e, at) == ElseSites(env, e.left, at) + ElseSites(env, e.right, at + |lc|)
            && EndSites(env, e, at) == EndSites(env, e.left, at) + EndSites(env, e.right, at + |lc|)
  {
  }

  lemma CondSwaps(env: Env, e: Expr, at: nat)
    ensures CondCode(env, Unary(UNot, e), at, 0, 0) == CondCode(env, e, at, 0, 0)
  {
  }

  lemma BinaryStatus(env: Env, e: Expr, d: nat)
    requires e.Binary? && !IsCmp(e.op)
    ensures ExprStatus(env, e, d) ==
            if IsArith(e.op) then Then(ExprStatus(env, e.left, d), Then(Alloc(d), ExprStatus(env, e.right, d + 1)))
            else Then(Alloc(d), Then(ExprStatus(env, e.left, d + 1), ExprStatus(env, e.right, d + 1)))
  {
  }

  lemma CompareValueStatus(env: Env, e: Expr, d: nat)
    requires e.Binary? && IsCmp(e.op)
    ensures ExprStatus(env, e, d) == CompareStatus(env, e, d)
  {
    hide CompareStatus;
  }

  lemma JoinSites(a: seq<nat>, b: seq<nat>, c: seq<nat>)
    ensures a + b + c == a + (b + c)
  {
  }

  lemma ForNeedsDeclared(env: Env, x: string)
    requires ForVariableStatus(env, x).Fine?
    ensures x in env.types
  {
  }

  /** The open exits of the innermost loop, extended. */
  function AddExits(loops: seq<seq<nat>>, sites: seq<nat>): seq<seq<nat>> {
    if loops == [] then []
    else loops[|loops| - 1 := loops[|loops| - 1] + sites]
  }

  lemma AddExitsLaws(loops: seq<seq<nat>>, a: seq<nat>, b: seq<nat>)
    ensures AddExits(loops, []) == loops
    ensures AddExits(AddExits(loops, a), b) == AddExits(loops, a + b)
    ensures AddExits(loops + [[]], a) == loops + [a]
    ensures AddExits(loops, a) == [] <==> loops == []
  {
    if loops != [] {
      var last := loops[|loops| - 1];
      assert last + [] == last;
      assert (last + a) + b == last + (a + b);
    }
    assert [] + a == a;
  }

  lemma {:induction false} PlainPrefixes(ss: seq<Stmt>, i: nat)
    requires PlainSeq(ss) && i <= |ss|
    ensures PlainSeq(ss[..i]) && (i < |ss| ==> PlainStmt(ss[i]))
    decreases |ss|
  {
    if i == |ss| {
      assert ss[..i] == ss;
    } else {
      PlainPrefixes(ss[..|ss| - 1], i);
      assert ss[..|ss| - 1][..i] == ss[..i];
    }
  }

  /** A failing prefix decides the status of the whole. */
  lemma {:induction false} StatusPrefix(env: Env, ss: seq<Stmt>, i: nat, inLoop: bool)
    requires i <= |ss|
    ensures !SeqStatus(env, ss[..i], inLoop).Fine? ==> SeqStatus(env, ss, inLoop) == SeqStatus(env, ss[..i], inLoop)
    decreases |ss|
  {
    if i == |ss| {
      assert ss[..i] == ss;
    } else {
      StatusPrefix(env, ss[..|ss| - 1], i, inLoop);
      assert ss[..|ss| - 1][..i] == ss[..i];
    }
  }

  lemma {:induction false} PlainArmPrefixes(arms: seq<CaseArm>, i: nat)
    requires PlainArms(arms) && i <= |arms|
    ensures PlainArms(arms[..i]) && (i < |arms| ==> PlainSeq(arms[i].body))
    decreases |arms|
  {
    if i == |arms| {
      assert arms[..i] == arms;
    } else {
      PlainArmPrefixes(arms[..|arms| - 1], i);
      assert arms[..|arms| - 1][..i] == arms[..i];
    }
  }

  lemma {:induction false} ArmsStatusPrefix(env: Env, arms: seq<CaseArm>, i: nat, inLoop: bool)
    requires i <= |arms|
    ensures !ArmsStatus(env, arms[..i], inLoop).Fine? ==>
              ArmsStatus(env, arms, inLoop) == ArmsStatus(env, arms[..i], inLoop)
    decreases |arms|
  {
    if i == |arms| {
      assert arms[..i] == arms;
    } else {
      ArmsStatusPrefix(env, arms[..|arms| - 1], i, inLoop);
      assert arms[..|arms| - 1][..i] == arms[..i];
    }
  }

  lemma {:induction false} ArgsStatusPrefix(env: Env, args: seq<Expr>, i: nat)
    requires i <= |args|
    ensures !ArgsStatus(env, args[..i]).Fine? ==> ArgsStatus(env, args) == ArgsStatus(env, args[..i])
    decreases |args|
  {
    if i == |args| {
      assert args[..i] == args;
    } else {
      ArgsStatusPrefix(env, args[..|args| - 1], i);
      assert args[..|args| - 1][..i] == args[..i];
    }
  }

  lemma NoStmts(env: Env, at: nat, inLoop: bool)
    ensures SeqCode(env, [], at, 0) == [] && SeqExitSites(env, [], at) == [] && SeqStatus(env, [], inLoop).Fine?
  {
  }

  lemma StmtsGrow(env: Env, ss: seq<Stmt>, i: nat, at: nat, inLoop: bool)
    requires i < |ss|
    ensures var front := SeqCode(env, ss[..i], at, 0);
            && SeqCode(env, ss[..i + 1], at, 0) == front + StmtCode(env, ss[i], at + |front|, 0)
            && SeqExitSites(env, ss[..i + 1], at) ==
               SeqExitSites(env, ss[..i], at) + ExitSites(env, ss[i], at + |front|)
    ensures SeqStatus(env, ss[..i + 1], inLoop) == Then(SeqStatus(env, ss[..i], inLoop), StmtStatus(env, ss[i], inLoop))
  {
    hide StmtCode; hide ExitSites; hide StmtStatus;
    assert ss[..i + 1][..i] == ss[..i];
  }

  lemma NoArms(env: Env, reg: nat, at: nat, inLoop: bool)
    ensures ArmsCode(env, reg, [], at, 0, 0) == [] && ArmsExitSites(env, reg, [], at) == []
    ensures DoneSites(env, reg, [], at) == []
    ensures ArmsStatus(env, [], inLoop).Fine?
  {
  }

  lemma ArmsGrow(env: Env, reg: nat, arms: seq<CaseArm>, i: nat, at: nat, inLoop: bool)
    requires i < |arms|
    ensures var front := ArmsCode(env, reg, arms[..i], at, 0, 0);
            var here := at + |front|;
            var bodyAt := ArmBodyAt(reg, arms[i], here);
            && ArmsCode(env, reg, arms[..i + 1], at, 0, 0) == front + ArmCode(env, reg, arms[i], here, 0, 0)
            && ArmsExitSites(env, reg, arms[..i + 1], at) ==
               ArmsExitSites(env, reg, arms[..i], at) + SeqExitSites(env, arms[i].body, bodyAt)
            && DoneSites(env, reg, arms[..i + 1], at) ==
               DoneSites(env, reg, arms[..i], at) + [bodyAt + |SeqCode(env, arms[i].body, bodyAt, 0)|]
    ensures ArmsStatus(env, arms[..i + 1], inLoop) ==
            Then(ArmsStatus(env, arms[..i], inLoop), SeqStatus(env, arms[i].body, inLoop))
  {
    hide ArmCode; hide SeqExitSites; hide SeqStatus;
    assert arms[..i + 1][..i] == arms[..i];
  }

  lemma NoFunctions(env: Env, at: nat)
    ensures FunctionsCode(env, [], at) == [] && FunctionsStatus(env, []).Fine?
  {
  }

  lemma FunctionsGrow(env: Env, fs: seq<FunctionDef>, i: nat, at: nat)
    requires i < |fs|
    ensures var front := FunctionsCode(env, fs[..i], at);
            FunctionsCode(env, fs[..i + 1], at) == front + SeqCode(env, fs[i].body, at + |front|, 0) + [RetNone()]
    ensures FunctionsStatus(env, fs[..i + 1]) == Then(FunctionsStatus(env, fs[..i]), SeqStatus(env, fs[i].body, false))
  {
    hide SeqCode; hide SeqStatus;
    assert fs[..i + 1][..i] == fs[..i];
  }

  lemma {:induction false} FunctionsStatusPrefix(env: Env, fs: seq<FunctionDef>, i: nat)
    requires i <= |fs|
    ensures !FunctionsStatus(env, fs[..i]).Fine? ==> FunctionsStatus(env, fs) == FunctionsStatus(env, fs[..i])
    decreases |fs|
  {
    if i == |fs| {
      assert fs[..i] == fs;
    } else {
      FunctionsStatusPrefix(env, fs[..|fs| - 1], i);
      assert fs[..|fs| - 1][..i] == fs[..i];
    }
  }

  class Codegen {
    const env: Env
    const scratchAvail: array<bool>
    var instructions: seq<Instruction>
    var loopExits: seq<seq<nat>>

    /** Between statements and sub-expressions the registers in use are a prefix of the pool. */
    ghost predicate Valid()
      reads scratchAvail
    {
      env.regs.Keys == env.types.Keys &&
      scratchAvail.Length == POOL_SIZE && (scratchAvail[0] ==> scratchAvail[1]) && (scratchAvail[1] ==> scratchAvail[2])
    }

    /** How many scratch registers are in use. */
    ghost function Depth(): (d: nat)
      reads scratchAvail
      requires Valid()
      ensures d <= POOL_SIZE
    {
      if scratchAvail[0] then 0 else if scratchAvail[1] then 1 else if scratchAvail[2] then 2 else 3
    }

    constructor (env: Env)
      requires env.regs.Keys == env.types.Keys
      ensures Valid() && Depth() == 0 && this.env == env && instructions == [] && loopExits == []
      ensures fresh(scratchAvail)
    {
      this.env := env;
      scratchAvail := new bool[3](_ => true);
      instructions := [];
      loopExits := [];
    }

    method Emit(inst: Instruction) returns (idx: nat)
      modifies this`instructions
      ensures instructions == old(instructions) + [inst] && idx == |old(instructions)|
    {
      idx := |instructions|;
      instructions := instructions + [inst];
    }

    method PatchJump(idx: nat, target: nat)
      modifies this`instructions
      ensures instructions == Patch(old(instructions), 0, [idx], target)
    {
      if idx < |instructions| {
        instructions := instructions[idx := Retarget(instructions[idx], target)];
      }
    }

    method PatchJumps(sites: seq<nat>, target: nat)
      modifies this`instructions
      ensures instructions == Patch(old(instructions), 0, sites, target)
    {
      var i := 0;
      while i < |sites|
        invariant 0 <= i <= |sites|
        invariant instructions == Patch(old(instructions), 0, sites[..i], target)
      {
        PatchJump(sites[i], target);
        assert sites[..i + 1] == sites[..i] + [sites[i]];
        i := i + 1;
      }
      assert sites[..i] == sites;
    }

    method AllocScratch() returns (st: Status, reg: nat)
      requires Valid()
      modifies scratchAvail
      ensures st == Alloc(old(Depth()))
      ensures st.Fine? ==> Valid() && Depth() == old(Depth()) + 1 && reg == Scratch(old(Depth()))
    {
      var i := 0;
      reg := 0;
      while i < 3
        invariant 0 <= i <= 3
        invariant forall j :: 0 <= j < i ==> !scratchAvail[j]
        invariant scratchAvail[..] == old(scratchAvail[..])
      {
        if scratchAvail[i] {
          scratchAvail[i] := false;
          return Fine, Scratch(i);
        }
        i := i + 1;
      }
      st := Crashed;
    }

    method FreeScratch(reg: nat)
      requires scratchAvail.Length == POOL_SIZE
      modifies scratchAvail
      ensures forall i :: 0 <= i < POOL_SIZE ==> scratchAvail[i] == (old(scratchAvail[i]) || reg == Scratch(i))
      ensures old(Valid() && Depth() > 0 && reg == Scratch(Depth() - 1)) ==> Valid() && Depth() == old(Depth()) - 1
    {
      if reg == Scratch(0) { scratchAvail[0] := true; }
      if reg == Scratch(1) { scratchAvail[1] := true; }
      if reg == Scratch(2) { scratchAvail[2] := true; }
    }

    /** The last use of a scratch register. */
    method EmitAndFree(inst: Instruction, s: nat)
      requires Valid() && Depth() > 0 && s == Scratch(Depth() - 1)
      modifies this`instructions, scratchAvail
      ensures Valid() && Depth() == old(Depth()) - 1 && instructions == old(instructions) + [inst]
    {
      var _ := Emit(inst);
      FreeScratch(s);
    }

    method VarReg(x: string) returns (st: Status, reg: nat)
      ensures st == Declared(env, x)
      ensures st.Fine? ==> reg == RegOf(env, x)
    {
      if x in env.regs { return Fine, env.regs[x]; }
      return Failed(UndefinedVariable(x)), 0;
    }

    method CompileExpr(e: Expr, dest: nat) returns (st: Status)
      requires Valid() && PlainExpr(e)
      modifies this`instructions, scratchAvail
      ensures st == ExprStatus(env, e, old(Depth()))
      ensures st.Fine? ==> Valid() && Depth() == old(Depth())
      ensures st.Fine? ==> instructions == old(instructions) + ExprCode(env, e, dest, old(Depth()), |old(instructions)|)
      decreases e, 2
    {
      match e {
        case IntLiteral(i) => var _ := Emit(LoadImm(dest, S32(Wrap(I32, i))));
        case RealLiteral(x) => var _ := Emit(LoadImm(dest, Float(F32, x)));
        case BoolLiteral(b) => var _ := Emit(LoadImm(dest, Bool(b)));
        case Variable(x) =>
          var src :- VarReg(x);
          if src != dest {
            var _ := Emit(LoadImm(dest, ZeroOfType(TypeOfVar(env, x))));
            var _ := Emit(Arith3(Add, src, dest, dest));
          }
        case Binary(_, op, _) =>
          if IsArith(op) {
            st := CompileArith(e, dest);
            if !st.Fine? { return; }
          } else if IsCmp(op) {
            st := CompileComparisonValue(e, dest);
            if !st.Fine? { return; }
          } else {
            st := CompileLogic(e, dest);
            if !st.Fine? { return; }
          }
        case Unary(_, _) => :- CompileUnary(e, dest);
        case FieldAccess(_, _) => :- CompileField(e, dest);
      }
      st := Fine;
    }

    method CompileArith(e: Expr, dest: nat) returns (st: Status)
      requires Valid() && PlainExpr(e) && e.Binary? && IsArith(e.op)
      modifies this`instructions, scratchAvail
      ensures st == ExprStatus(env, e, old(Depth()))
      ensures st.Fine? ==> Valid() && Depth() == old(Depth())
      ensures st.Fine? ==> instructions == old(instructions) + ExprCode(env, e, dest, old(Depth()), |old(instructions)|)
      decreases e, 0
    {
      ghost var before, d := instructions, Depth();
      ghost var lc := ExprCode(env, e.left, dest, d, |before|);
      ghost var rc := ExprCode(env, e.right, Scratch(d), d + 1, |before| + |lc|);
      BinaryCode(env, e.left, e.op, e.right, dest, d, |before|);
      BinaryStatus(env, e, d);
      hide ExprCode; hide ExprStatus; hide Valid; hide Depth; hide Alloc; hide Scratch; hide PlainExpr;
      :- CompileExpr(e.left, dest);
      var s :- AllocScratch();
      :- CompileExpr(e.right, s);
      Regroup(before, lc, rc, [Arith3(ArithOpcode(e.op), dest, s, dest)], [], []);
      EmitAndFree(Arith3(ArithOpcode(e.op), dest, s, dest), s);
      st := Fine;
    }

    method CompileComparisonValue(e: Expr, dest: nat) returns (st: Status)
      requires Valid() && PlainExpr(e) && e.Binary? && IsCmp(e.op)
      modifies this`instructions, scratchAvail
      ensures st == ExprStatus(env, e, old(Depth()))
      ensures st.Fine? ==> Valid() && Depth() == old(Depth())
      ensures st.Fine? ==> instructions == old(instructions) + ExprCode(env, e, dest, old(Depth()), |old(instructions)|)
      decreases e, 1
    {
      CompareValueCode(env, e, dest, Depth(), |instructions|);
      CompareValueStatus(env, e, Depth());
      hide ExprCode; hide ExprStatus; hide CompareCode; hide CompareStatus; hide Valid; hide Depth;
      :- CompileComparison(e);
      FlagAsValue(dest);
      st := Fine;
    }

    /** FALSE, then TRUE unless the flag jumps over it. */
    method FlagAsValue(dest: nat)
      modifies this`instructions
      ensures instructions == old(instructions) + [LoadImm(dest, Bool(false))] + [JumpIfTo(|old(instructions)| + 3)] +
                              [LoadImm(dest, Bool(true))]
    {
      hide Patch;
      var _ := Emit(LoadImm(dest, Bool(false)));
      ghost var head := instructions;
      var jmp := Emit(JumpIfTo(0));
      var _ := Emit(LoadImm(dest, Bool(true)));
      PatchJump(jmp, |instructions|);
      PatchedJump(head, 0, |head| + 2, [LoadImm(dest, Bool(true))]);
    }

    method CompileLogic(e: Expr, dest: nat) returns (st: Status)
      requires Valid() && PlainExpr(e) && e.Binary? && !IsArith(e.op) && !IsCmp(e.op)
      modifies this`instructions, scratchAvail
      ensures st == ExprStatus(env, e, old(Depth()))
      ensures st.Fine? ==> Valid() && Depth() == old(Depth())
      ensures st.Fine? ==> instructions == old(instructions) + ExprCode(env, e, dest, old(Depth()), |old(instructions)|)
      decreases e, 0
    {
      ghost var before, d := instructions, Depth();
      ghost var lc := ExprCode(env, e.left, dest, d + 1, |before|);
      ghost var rc := ExprCode(env, e.right, Scratch(d), d + 1, |before| + |lc|);
      LogicCode(env, e.left, e.op, e.right, dest, d, |before|);
      BinaryStatus(env, e, d);
      hide ExprCode; hide ExprStatus; hide Valid; hide Depth; hide Alloc; hide Scratch; hide PlainExpr;
      var s :- AllocScratch();
      :- CompileExpr(e.left, dest);
      assert instructions == before + lc;
      :- CompileExpr(e.right, s);
      Regroup(before, lc, rc, [Arith3(LogicOpcode(e.op), dest, s, dest)], [], []);
      EmitAndFree(Arith3(LogicOpcode(e.op), dest, s, dest), s);
      st := Fine;
    }

    method CompileUnary(e: Expr, dest: nat) returns (st: Status)
      requires Valid() && PlainExpr(e) && e.Unary?
      modifies this`instructions, scratchAvail
      ensures st == ExprStatus(env, e, old(Depth()))
      ensures st.Fine? ==> Valid() && Depth() == old(Depth())
      ensures st.Fine? ==> instructions == old(instructions) + ExprCode(env, e, dest, old(Depth()), |old(instructions)|)
      decreases e, 0
    {
      st := CompileExpr(e.inner, dest);
      if !st.Fine? { return; }
      if e.uop.UNeg? {
        var zero :- AllocScratch();
        var _ := Emit(LoadImm(zero, S32(0)));
        var _ := Emit(Arith3(Sub, zero, dest, dest));
        FreeScratch(zero);
      } else {
        var _ := Emit(Arith3(Opcode.Not, dest, dest, dest));
      }
      st := Fine;
    }

    method CompileField(e: Expr, dest: nat) returns (st: Status)
      requires Valid() && PlainExpr(e) && e.FieldAccess?
      modifies this`instructions, scratchAvail
      ensures st == ExprStatus(env, e, old(Depth()))
      ensures st.Fine? ==> Valid() && Depth() == old(Depth())
      ensures st.Fine? ==> instructions == old(instructions) + ExprCode(env, e, dest, old(Depth()), |old(instructions)|)
      decreases e, 0
    {
      var reg :- VarReg(e.name);
      var t := TypeOfVar(env, e.name);
      if e.name in env.types && IsFlipFlop(t) {
        var s :- AllocScratch();
        var _ := Emit(if e.field == "Q2" then ReadTwo(ReadSr, reg, s, dest) else ReadTwo(ReadSr, reg, dest, s));
        FreeScratch(s);
      } else if e.name in env.types && IsEdgeBlock(t) {
        var _ := Emit(Instruction(ReadEdge, [Immediate(IntU32(reg)), Register(dest)]));
      } else {
        var s :- AllocScratch();
        var _ := Emit(ReadTwo(ReadTimer, reg, dest, s));
        FreeScratch(s);
      }
      st := Fine;
    }

    method CompileComparison(e: Expr) returns (st: Status)
      requires Valid() && e.Binary? && PlainExpr(e)
      modifies this`instructions, scratchAvail
      ensures st == CompareStatus(env, e, old(Depth()))
      ensures st.Fine? ==> Valid() && Depth() == old(Depth())
      ensures st.Fine? ==> instructions == old(instructions) + CompareCode(env, e, old(Depth()), |old(instructions)|)
      decreases e, 0
    {
      hide ExprCode; hide ExprStatus;
      var rs :- AllocScratch();
      :- CompileExpr(e.right, rs);
      var ls :- AllocScratch();
      :- CompileExpr(e.left, ls);
      var _ := Emit(Cmp2(CmpOpcode(e.op), ls, rs));
      FreeScratch(ls);
      FreeScratch(rs);
      st := Fine;
    }

    // ----- conditions -----

    /** Appends the jumps it leaves open to the two lists. */
    method CompileBoolCond(e: Expr, elseIn: seq<nat>, endIn: seq<nat>)
      returns (st: Status, elseJumps: seq<nat>, endJumps: seq<nat>)
      requires Valid() && Depth() == 0 && PlainExpr(e)
      modifies this`instructions, scratchAvail
      ensures st == CondStatus(env, e)
      ensures st.Fine? ==> Valid() && Depth() == 0
      ensures st.Fine? ==> instructions == old(instructions) + CondCode(env, e, |old(instructions)|, 0, 0)
      ensures st.Fine? ==> elseJumps == elseIn + ElseSites(env, e, |old(instructions)|)
      ensures st.Fine? ==> endJumps == endIn + EndSites(env, e, |old(instructions)|)
      decreases e, 1
    {
      hide Valid; hide Depth;
      hide CondCode; hide CondStatus; hide ElseSites; hide EndSites; hide PlainExpr;
      if e.Binary? && IsCmp(e.op) {
        st, elseJumps, endJumps := CompileComparisonCond(e, elseIn, endIn);
      } else if e.Binary? && e.op.BAnd? {
        st, elseJumps, endJumps := CompileAnd(e, elseIn, endIn);
      } else if e.Binary? && e.op.BOr? {
        st, elseJumps, endJumps := CompileOr(e, elseIn, endIn);
      } else if e.Unary? && e.uop.UNot? {
        st, elseJumps, endJumps := CompileNot(e, elseIn, endIn);
      } else {
        st, elseJumps, endJumps := CompileValueCond(e, elseIn, endIn);
      }
    }

    method CompileComparisonCond(e: Expr, elseIn: seq<nat>, endIn: seq<nat>)
      returns (st: Status, elseJumps: seq<nat>, endJumps: seq<nat>)
      requires Valid() && Depth() == 0 && PlainExpr(e) && e.Binary? && IsCmp(e.op)
      modifies this`instructions, scratchAvail
      ensures st == CondStatus(env, e)
      ensures st.Fine? ==> Valid() && Depth() == 0
      ensures st.Fine? ==> instructions == old(instructions) + CondCode(env, e, |old(instructions)|, 0, 0)
      ensures st.Fine? ==> elseJumps == elseIn + ElseSites(env, e, |old(instructions)|)
      ensures st.Fine? ==> endJumps == endIn + EndSites(env, e, |old(instructions)|)
      decreases e, 0
    {
      hide CompareCode; hide CompareStatus;
      elseJumps, endJumps := elseIn, endIn;
      st := CompileComparison(e);
      if !st.Fine? { return; }
      var j := Emit(JumpIfTo(0));
      elseJumps := elseJumps + [j];
    }

    method CompileAnd(e: Expr, elseIn: seq<nat>, endIn: seq<nat>)
      returns (st: Status, elseJumps: seq<nat>, endJumps: seq<nat>)
      requires Valid() && Depth() == 0 && PlainExpr(e) && e.Binary? && e.op.BAnd?
      modifies this`instructions, scratchAvail
      ensures st == CondStatus(env, e)
      ensures st.Fine? ==> Valid() && Depth() == 0
      ensures st.Fine? ==> instructions == old(instructions) + CondCode(env, e, |old(instructions)|, 0, 0)
      ensures st.Fine? ==> elseJumps == elseIn + ElseSites(env, e, |old(instructions)|)
      ensures st.Fine? ==> endJumps == endIn + EndSites(env, e, |old(instructions)|)
      decreases e, 0
    {
      AndLayout(env, e, |instructions|);
      hide Valid; hide Depth;
      hide CondCode; hide CondStatus; hide ElseSites; hide EndSites;
      elseJumps, endJumps := elseIn, endIn;
      ghost var at := |instructions|;
      ghost var lc := CondCode(env, e.left, at, 0, 0);
      Regroup(instructions, lc, CondCode(env, e.right, at + |lc|, 0, 0), [], [], []);
      JoinSites(elseIn, ElseSites(env, e.left, at), ElseSites(env, e.right, at + |lc|));
      JoinSites(endIn, EndSites(env, e.left, at), EndSites(env, e.right, at + |lc|));
      elseJumps, endJumps :- CompileBoolCond(e.left, elseJumps, endJumps);
      elseJumps, endJumps :- CompileBoolCond(e.right, elseJumps, endJumps);
      st := Fine;
    }

    method CompileNot(e: Expr, elseIn: seq<nat>, endIn: seq<nat>)
      returns (st: Status, elseJumps: seq<nat>, endJumps: seq<nat>)
      requires Valid() && Depth() == 0 && PlainExpr(e) && e.Unary? && e.uop.UNot?
      modifies this`instructions, scratchAvail
      ensures st == CondStatus(env, e)
      ensures st.Fine? ==> Valid() && Depth() == 0
      ensures st.Fine? ==> instructions == old(instructions) + CondCode(env, e, |old(instructions)|, 0, 0)
      ensures st.Fine? ==> elseJumps == elseIn + ElseSites(env, e, |old(instructions)|)
      ensures st.Fine? ==> endJumps == endIn + EndSites(env, e, |old(instructions)|)
      decreases e, 0
    {
      elseJumps, endJumps := elseIn, endIn;
      CondSwaps(env, e.inner, |instructions|);
      var innerElse, innerEnd :- CompileBoolCond(e.inner, [], []);
      elseJumps := elseJumps + innerEnd;
      endJumps := endJumps + innerElse;
      st := Fine;
    }

    /** Any other Boolean expression is computed and compared with TRUE. */
    method CompileValueCond(e: Expr, elseIn: seq<nat>, endIn: seq<nat>)
      returns (st: Status, elseJumps: seq<nat>, endJumps: seq<nat>)
      requires Valid() && Depth() == 0 && PlainExpr(e) && ByValue(e)
      modifies this`instructions, scratchAvail
      ensures st == CondStatus(env, e)
      ensures st.Fine? ==> Valid() && Depth() == 0
      ensures st.Fine? ==> instructions == old(instructions) + CondCode(env, e, |old(instructions)|, 0, 0)
      ensures st.Fine? ==> elseJumps == elseIn + ElseSites(env, e, |old(instructions)|)
      ensures st.Fine? ==> endJumps == endIn + EndSites(env, e, |old(instructions)|)
      decreases e, 0
    {
      hide ExprCode; hide ExprStatus; hide CondCode; hide CondStatus; hide ElseSites; hide EndSites;
      elseJumps, endJumps := elseIn, endIn;
      ValueCondIs(env, e, |instructions|);
      var s :- AllocScratch();
      :- CompileExpr(e, s);
      var t :- AllocScratch();
      var _ := Emit(LoadImm(t, Bool(true)));
      var _ := Emit(Cmp2(Eq, s, t));
      FreeScratch(s);
      FreeScratch(t);
      var j := Emit(JumpIfTo(0));
      elseJumps := elseJumps + [j];
      st := Fine;
    }

    method CompileOr(e: Expr, elseIn: seq<nat>, endIn: seq<nat>)
      returns (st: Status, elseJumps: seq<nat>, endJumps: seq<nat>)
      requires Valid() && Depth() == 0 && PlainExpr(e) && e.Binary? && e.op.BOr?
      modifies this`instructions, scratchAvail
      ensures st == CondStatus(env, e)
      ensures st.Fine? ==> Valid() && Depth() == 0
      ensures st.Fine? ==> instructions == old(instructions) + CondCode(env, e, |old(instructions)|, 0, 0)
      ensures st.Fine? ==> elseJumps == elseIn + ElseSites(env, e, |old(instructions)|)
      ensures st.Fine? ==> endJumps == endIn + EndSites(env, e, |old(instructions)|)
      decreases e, 0
    {
      hide Valid; hide Depth;
      hide ExprCode; hide ExprStatus; hide Becomes; hide Patch;
      hide CondCode; hide ElseSites; hide EndSites; hide CondStatus;
      OrLayout(env, e, |instructions|);
      ghost var at := |instructions|;
      elseJumps, endJumps := elseIn, endIn;
      var rightElse;
      rightElse, endJumps :- CompileBoolCond(e.left, [], endJumps);
      var orThen := Emit(JumpTo(0));
      endJumps := endJumps + [orThen];
      var rightStart := |instructions|;
      PatchJumps(rightElse, rightStart);
      assert instructions == old(instructions) + CondCode(env, e.left, at, rightStart, 0) + [JumpTo(0)] by {
        CondBecomes(env, e.left, at, 0, 0, rightStart);
        PatchedBlock(old(instructions), CondCode(env, e.left, at, 0, 0), CondCode(env, e.left, at, rightStart, 0),
                     [JumpTo(0)], ElseSites(env, e.left, at), rightStart);
        assert rightElse == ElseSites(env, e.left, at);
      }
      CondLength(env, e.left, at, rightStart, 0);
      elseJumps, endJumps :- CompileBoolCond(e.right, elseJumps, endJumps);
      st := Fine;
    }

    method CompileCondition(e: Expr) returns (st: Status, elseJumps: seq<nat>, endJumps: seq<nat>)
      requires Valid() && Depth() == 0 && PlainExpr(e)
      modifies this`instructions, scratchAvail
      ensures st == CondStatus(env, e)
      ensures st.Fine? ==> Valid() && Depth() == 0
      ensures st.Fine? ==> instructions == old(instructions) + CondCode(env, e, |old(instructions)|, 0, 0)
      ensures st.Fine? ==> elseJumps == ElseSites(env, e, |old(instructions)|)
      ensures st.Fine? ==> endJumps == EndSites(env, e, |old(instructions)|)
    {
      hide CondCode; hide ElseSites; hide EndSites;
      elseJumps, endJumps :- CompileBoolCond(e, [], []);
      st := Fine;
    }

    // ----- loops -----

    method PushLoop()
      modifies this`loopExits
      ensures loopExits == old(loopExits) + [[]]
    {
      loopExits := loopExits + [[]];
    }

    /** The jump of an EXIT, left open until its loop ends. */
    method RecordExit() returns (st: Status)
      modifies this`instructions, this`loopExits
      ensures st == if old(loopExits) == [] then Crashed else Fine
      ensures instructions == old(instructions) + [JumpTo(0)]
      ensures st.Fine? ==> loopExits == AddExits(old(loopExits), [|old(instructions)|])
    {
      var jmp := Emit(JumpTo(0));
      if loopExits == [] { return Crashed; }
      loopExits := loopExits[|loopExits| - 1 := loopExits[|loopExits| - 1] + [jmp]];
      st := Fine;
    }

    method PopLoop()
      modifies this`instructions, this`loopExits
      ensures old(loopExits) == [] ==> instructions == old(instructions) && loopExits == []
      ensures var k := |old(loopExits)| - 1;
              k >= 0 ==> loopExits == old(loopExits)[..k] &&
                         instructions == Patch(old(instructions), 0, old(loopExits)[k], |old(instructions)|)
    {
      if loopExits != [] {
        var exits := loopExits[|loopExits| - 1];
        loopExits := loopExits[..|loopExits| - 1];
        PatchJumps(exits, |instructions|);
      }
    }

    /** The end of a loop: the EXITs of its body, still open, are sent behind it. */
    method CloseLoop(ghost body: seq<Stmt>, ghost bodyAt: nat, ghost before: seq<Instruction>,
                     ghost head: seq<Instruction>, ghost tail: seq<Instruction>, ghost loops: seq<seq<nat>>)
      requires bodyAt == |before| + |head|
      requires instructions == before + (head + SeqCode(env, body, bodyAt, 0) + tail)
      requires loopExits == AddExits(loops + [[]], SeqExitSites(env, body, bodyAt))
      modifies this`instructions, this`loopExits
      ensures instructions == before + (head + SeqCode(env, body, bodyAt, |old(instructions)|) + tail)
      ensures loopExits == loops
    {
      hide SeqCode; hide SeqExitSites; hide Becomes; hide Patch;
      ghost var bc, out := SeqCode(env, body, bodyAt, 0), |instructions|;
      AddExitsLaws(loops, SeqExitSites(env, body, bodyAt), []);
      hide AddExits;
      PopLoop();
      SeqBecomes(env, body, bodyAt, 0, out);
      Regroup(before, head, bc, tail, [], []);
      PatchedBlock(before + head, bc, SeqCode(env, body, bodyAt, out), tail, SeqExitSites(env, body, bodyAt), out);
      Regroup(before, head, SeqCode(env, body, bodyAt, out), tail, [], []);
    }

    // ----- statements -----

    method CompileStmt(s: Stmt) returns (st: Status)
      requires Valid() && Depth() == 0 && PlainStmt(s)
      modifies this`instructions, this`loopExits, scratchAvail
      ensures st == StmtStatus(env, s, old(loopExits) != [])
      ensures st.Fine? ==> Compiled(StmtCode(env, s, |old(instructions)|, 0), ExitSites(env, s, |old(instructions)|),
                                    old(instructions), old(loopExits))
      decreases s, 3
    {
      AddExitsLaws(loopExits, [], []);
      hide SeqCode; hide SeqStatus; hide CallCode; hide CallStatus;
      match s {
        case Assign(_, _) => :- CompileAssign(s);
        case If(_, _, _) => :- CompileIf(s);
        case While(_, _) => :- CompileWhile(s);
        case For(_, _, _, _, _) => :- CompileFor(s);
        case Repeat(_, _) => :- CompileRepeat(s);
        case Return => var _ := Emit(HaltInstr());
        case Exit => :- RecordExit();
        case Case(_, _, _) => :- CompileCase(s);
        case FunCall(f, args) => :- CompileCall(f, args);
      }
      st := Fine;
    }

    /** `code` has been appended, and its open EXIT jumps recorded with the innermost loop. */
    ghost predicate Compiled(code: seq<Instruction>, exits: seq<nat>,
                             instructions0: seq<Instruction>, loops0: seq<seq<nat>>)
      reads this, scratchAvail
    {
      && Valid() && Depth() == 0
      && instructions == instructions0 + code
      && loopExits == AddExits(loops0, exits)
    }

    method CompileStmts(ss: seq<Stmt>) returns (st: Status)
      requires Valid() && Depth() == 0 && PlainSeq(ss)
      modifies this`instructions, this`loopExits, scratchAvail
      ensures st == SeqStatus(env, ss, old(loopExits) != [])
      ensures st.Fine? ==> Compiled(SeqCode(env, ss, |old(instructions)|, 0),
                                    SeqExitSites(env, ss, |old(instructions)|),
                                    old(instructions), old(loopExits))
      decreases ss
    {
      hide Valid; hide Depth;
      hide StmtCode; hide StmtStatus; hide ExitSites; hide AddExits; hide SeqCode; hide SeqStatus; hide SeqExitSites;
      hide PlainSeq; hide PlainStmt;
      var i := 0;
      ghost var at := |instructions|;
      AddExitsLaws(loopExits, [], []);
      NoStmts(env, at, loopExits != []);
      assert ss[..0] == [];
      while i < |ss|
        invariant 0 <= i <= |ss|
        invariant SeqStatus(env, ss[..i], old(loopExits) != []).Fine?
        invariant Compiled(SeqCode(env, ss[..i], at, 0), SeqExitSites(env, ss[..i], at), old(instructions),
                           old(loopExits))
      {
        PlainPrefixes(ss, i);
        StatusPrefix(env, ss, i + 1, old(loopExits) != []);
        StmtsGrow(env, ss, i, at, old(loopExits) != []);
        AddExitsLaws(old(loopExits), SeqExitSites(env, ss[..i], at), ExitSites(env, ss[i], |instructions|));
        st := CompileStmt(ss[i]);
        if !st.Fine? { return; }
        i := i + 1;
      }
      assert ss[..i] == ss;
      st := Fine;
    }

    method CompileAssign(s: Stmt) returns (st: Status)
      requires Valid() && Depth() == 0 && s.Assign? && PlainStmt(s)
      modifies this`instructions, scratchAvail
      ensures st == StmtStatus(env, s, false)
      ensures st.Fine? ==> Valid() && Depth() == 0
      ensures st.Fine? ==> instructions == old(instructions) + StmtCode(env, s, |old(instructions)|, 0)
    {
      hide ExprCode; hide ExprStatus;
      :- AssignStatus(env, s.target, s.value);
      var dest :- VarReg(s.target);
      :- CompileExpr(s.value, dest);
      var _ := Emit(StoreSig(s.target, dest));
      st := Fine;
    }

    /** A condition followed by the jump taken when it fails, which stays open. The jumps
        taken when it holds go to the address after it; those of a compound condition's
        second list only if `alsoEnds`. */
    method CompileGuard(c: Expr, alsoEnds: bool) returns (st: Status, toElse: nat, onTrue: nat)
      requires Valid() && Depth() == 0 && PlainExpr(c)
      modifies this`instructions, scratchAvail
      ensures st == CondStatus(env, c)
      ensures st.Fine? ==> Valid() && Depth() == 0
      ensures var at := |old(instructions)|;
              st.Fine? ==>
                && onTrue == at + |CondCode(env, c, at, 0, 0)| + 1
                && toElse == onTrue - 1
                && instructions == old(instructions) +
                                   CondCode(env, c, at, onTrue, if alsoEnds then onTrue else 0) + [JumpTo(0)]
                && |CondCode(env, c, at, onTrue, if alsoEnds then onTrue else 0)| == |CondCode(env, c, at, 0, 0)|
    {
      hide Valid; hide Depth;
      hide ExprCode; hide CondCode; hide Becomes; hide CondStatus; hide Patch;
      ghost var before, at := instructions, |instructions|;
      toElse, onTrue := 0, 0;
      var elseJumps, endJumps :- CompileCondition(c);
      toElse := Emit(JumpTo(0));
      onTrue := |instructions|;
      PatchJumps(elseJumps, onTrue);
      CondBecomes(env, c, at, 0, 0, onTrue);
      PatchedBlock(before, CondCode(env, c, at, 0, 0), CondCode(env, c, at, onTrue, 0), [JumpTo(0)], elseJumps, onTrue);
      CondLength(env, c, at, onTrue, 0);
      CondLength(env, c, at, onTrue, onTrue);
      if alsoEnds {
        PatchJumps(endJumps, onTrue);
        CondBecomes(env, c, at, onTrue, 0, onTrue);
        PatchedBlock(before, CondCode(env, c, at, onTrue, 0), CondCode(env, c, at, onTrue, onTrue), [JumpTo(0)],
                     endJumps, onTrue);
      }
      st := Fine;
    }

    /** The condition and the THEN branch, with the jump over the ELSE branch still open. */
    method CompileThen(s: Stmt) returns (st: Status, toEnd: nat)
      requires Valid() && Depth() == 0 && s.If? && PlainExpr(s.cond) && PlainSeq(s.thenBody)
      modifies this`instructions, this`loopExits, scratchAvail
      ensures st == Then(CondStatus(env, s.cond), SeqStatus(env, s.thenBody, old(loopExits) != []))
      ensures var at := |old(instructions)|;
              var thenLabel := at + |CondCode(env, s.cond, at, 0, 0)| + 1;
              var cc := CondCode(env, s.cond, at, thenLabel, thenLabel);
              var tc := SeqCode(env, s.thenBody, thenLabel, 0);
              st.Fine? ==>
                && toEnd == thenLabel + |tc| && |instructions| == toEnd + 1
                && Compiled(cc + [JumpTo(toEnd + 1)] + tc + [JumpTo(0)], SeqExitSites(env, s.thenBody, thenLabel),
                            old(instructions), old(loopExits))
      decreases s, 0
    {
      hide Valid; hide Depth;
      hide ExprCode; hide CondCode; hide SeqCode; hide Becomes; hide SeqStatus; hide CondStatus; hide Patch;
      hide AddExits;
      ghost var before, at := instructions, |instructions|;
      toEnd := 0;
      AddExitsLaws(loopExits, [], []);
      var toElse, thenLabel :- CompileGuard(s.cond, true);
      ghost var cc := CondCode(env, s.cond, at, thenLabel, thenLabel);
      :- CompileStmts(s.thenBody);
      ghost var tc := SeqCode(env, s.thenBody, thenLabel, 0);
      toEnd := Emit(JumpTo(0));
      var elseLabel := |instructions|;
      PatchJump(toElse, elseLabel);
      PatchedJump(before + cc, 0, elseLabel, tc + [JumpTo(0)]);
      Regroup(before + cc, [JumpTo(0)], tc, [JumpTo(0)], [], []);
      Regroup(before, cc, [JumpTo(elseLabel)], tc, [JumpTo(0)], []);
      CondLength(env, s.cond, at, thenLabel, thenLabel);
      st := Fine;
    }

    /** The ELSE branch behind the open jump over it, which then is closed. */
    method CompileElse(s: Stmt, toEnd: nat, ghost before: seq<Instruction>, ghost head: seq<Instruction>)
      returns (st: Status)
      requires Valid() && Depth() == 0 && s.If? && PlainSeq(s.elseBody)
      requires instructions == before + (head + [JumpTo(0)]) && toEnd == |before| + |head|
      modifies this`instructions, this`loopExits, scratchAvail
      ensures st == SeqStatus(env, s.elseBody, old(loopExits) != [])
      ensures var ec := SeqCode(env, s.elseBody, toEnd + 1, 0);
              st.Fine? ==> Compiled(head + [JumpTo(toEnd + 1 + |ec|)] + ec, SeqExitSites(env, s.elseBody, toEnd + 1),
                                    before, old(loopExits))
      decreases s, 0
    {
      hide Valid; hide Depth;
      hide SeqCode; hide SeqStatus; hide Patch; hide AddExits; hide SeqExitSites;
      :- CompileStmts(s.elseBody);
      ghost var ec := SeqCode(env, s.elseBody, toEnd + 1, 0);
      var endLabel := |instructions|;
      Regroup(before, head, [JumpTo(0)], ec, [], []);
      PatchJump(toEnd, endLabel);
      PatchedJump(before + head, 0, endLabel, ec);
      Regroup(before, head, [JumpTo(endLabel)], ec, [], []);
      st := Fine;
    }

    method CompileIf(s: Stmt) returns (st: Status)
      requires Valid() && Depth() == 0 && s.If? && PlainStmt(s)
      modifies this`instructions, this`loopExits, scratchAvail
      ensures st == StmtStatus(env, s, old(loopExits) != [])
      ensures st.Fine? ==> Compiled(StmtCode(env, s, |old(instructions)|, 0), ExitSites(env, s, |old(instructions)|),
                                    old(instructions), old(loopExits))
      decreases s, 1
    {
      hide Valid; hide Depth;
      hide StmtCode; hide ExprCode; hide CondCode; hide SeqCode; hide SeqStatus; hide CondStatus; hide AddExits;
      hide TypeOfExpr; hide SeqExitSites;
      ghost var before, at := instructions, |instructions|;
      :- ConditionStatus(env, s.cond);
      var toEnd :- CompileThen(s);
      ghost var thenLabel := at + |CondCode(env, s.cond, at, 0, 0)| + 1;
      ghost var tc := SeqCode(env, s.thenBody, thenLabel, 0);
      ghost var head := CondCode(env, s.cond, at, thenLabel, thenLabel) + [JumpTo(toEnd + 1)] + tc;
      CondLength(env, s.cond, at, thenLabel, thenLabel);
      AddExitsLaws(old(loopExits), SeqExitSites(env, s.thenBody, thenLabel), []);
      :- CompileElse(s, toEnd, before, head);
      IfLayout(env, s, at, 0);
      AddExitsLaws(old(loopExits), SeqExitSites(env, s.thenBody, thenLabel), SeqExitSites(env, s.elseBody, toEnd + 1));
      st := Fine;
    }

    /** The condition and the body of a WHILE, with the body's exits still open. */
    method CompileWhileLoop(s: Stmt) returns (st: Status)
      requires Valid() && Depth() == 0 && s.While? && PlainStmt(s) && loopExits != []
      modifies this`instructions, this`loopExits, scratchAvail
      ensures st == Then(CondStatus(env, s.cond), SeqStatus(env, s.body, true))
      ensures var at := |old(instructions)|;
              var bodyAt := at + |CondCode(env, s.cond, at, 0, 0)| + 1;
              var cc, bc := CondCode(env, s.cond, at, bodyAt, 0), SeqCode(env, s.body, bodyAt, 0);
              st.Fine? ==> Compiled(cc + [JumpTo(bodyAt + |bc| + 1)] + bc + [JumpTo(at)],
                                    SeqExitSites(env, s.body, bodyAt),
                                    old(instructions), old(loopExits))
      decreases s, 0
    {
      hide Valid; hide Depth;
      hide ExprCode; hide CondCode; hide SeqCode; hide SeqStatus; hide CondStatus; hide Patch; hide AddExits;
      hide SeqExitSites;
      ghost var before, at := instructions, |instructions|;
      var loopStart := |instructions|;
      AddExitsLaws(loopExits, [], []);
      var exitJump, bodyLabel :- CompileGuard(s.cond, false);
      ghost var cc := CondCode(env, s.cond, at, bodyLabel, 0);
      CondLength(env, s.cond, at, bodyLabel, 0);
      :- CompileStmts(s.body);
      ghost var bc := SeqCode(env, s.body, bodyLabel, 0);
      var _ := Emit(JumpTo(loopStart));
      var exitLabel := |instructions|;
      PatchJump(exitJump, exitLabel);
      PatchedJump(before + cc, 0, exitLabel, bc + [JumpTo(loopStart)]);
      Regroup(before + cc, [JumpTo(0)], bc, [JumpTo(loopStart)], [], []);
      Regroup(before, cc, [JumpTo(exitLabel)], bc, [JumpTo(loopStart)], []);
      st := Fine;
    }

    method CompileWhile(s: Stmt) returns (st: Status)
      requires Valid() && Depth() == 0 && s.While? && PlainStmt(s)
      modifies this`instructions, this`loopExits, scratchAvail
      ensures st == StmtStatus(env, s, old(loopExits) != [])
      ensures st.Fine? ==> Compiled(StmtCode(env, s, |old(instructions)|, 0), ExitSites(env, s, |old(instructions)|),
                                    old(instructions), old(loopExits))
      decreases s, 1
    {
      hide Valid; hide Depth;
      hide StmtCode; hide ExprCode; hide CondCode; hide SeqCode; hide Becomes; hide SeqStatus; hide CondStatus;
      hide Patch;
      hide TypeOfExpr; hide SeqExitSites;
      ghost var before, at := instructions, |instructions|;
      :- ConditionStatus(env, s.cond);
      PushLoop();
      :- CompileWhileLoop(s);
      ghost var bodyAt := at + |CondCode(env, s.cond, at, 0, 0)| + 1;
      ghost var cc, bc := CondCode(env, s.cond, at, bodyAt, 0), SeqCode(env, s.body, bodyAt, 0);
      CondLength(env, s.cond, at, bodyAt, 0);
      ghost var out := bodyAt + |bc| + 1;
      AddExitsLaws(old(loopExits), [], []);
      CloseLoop(s.body, bodyAt, before, cc + [JumpTo(out)], [JumpTo(at)], old(loopExits));
      WhileLayout(env, s, at, 0);
      st := Fine;
    }

    /** The test before each iteration: the limit, evaluated anew, against the variable. */
    method CompileForTest(s: Stmt, reg: nat) returns (st: Status)
      requires Valid() && Depth() == 0 && s.For? && PlainExpr(s.end)
      modifies this`instructions, scratchAvail
      ensures st == ExprStatus(env, s.end, 1)
      ensures st.Fine? ==> Valid() && Depth() == 0
      ensures st.Fine? ==> instructions == old(instructions) +
                           (ExprCode(env, s.end, Scratch(0), 1, |old(instructions)|) + [Cmp2(Gt, reg, Scratch(0))])
    {
      var endScratch :- AllocScratch();
      :- CompileExpr(s.end, endScratch);
      var _ := Emit(Cmp2(Gt, reg, endScratch));
      FreeScratch(endScratch);
      st := Fine;
    }

    /** The step after each iteration, and the jump back. */
    method CompileForStep(s: Stmt, reg: nat, loopStart: nat) returns (st: Status)
      requires Valid() && Depth() == 0 && s.For? && (s.step.Some? ==> PlainExpr(s.step.value))
      modifies this`instructions, scratchAvail
      ensures st == StepStatus(env, s.step)
      ensures st.Fine? ==> Valid() && Depth() == 0
      ensures st.Fine? ==> instructions == old(instructions) + (StepCode(env, s.step, |old(instructions)|) +
                           [Arith3(Add, reg, Scratch(0), reg), JumpTo(loopStart)])
    {
      var stepScratch :- AllocScratch();
      if s.step.Some? {
        st := CompileExpr(s.step.value, stepScratch);
        if !st.Fine? { return; }
      } else {
        var _ := Emit(LoadImm(stepScratch, S32(1)));
      }
      var _ := Emit(Arith3(Add, reg, stepScratch, reg));
      FreeScratch(stepScratch);
      var _ := Emit(JumpTo(loopStart));
      st := Fine;
    }

    /** One FOR loop from its test to its jump back, with the exit jump still open. */
    method CompileForLoop(s: Stmt, reg: nat) returns (st: Status, exitJump: nat)
      requires Valid() && Depth() == 0 && s.For? && PlainStmt(s) && loopExits != []
      modifies this`instructions, this`loopExits, scratchAvail
      ensures st == Then(ExprStatus(env, s.end, 1), Then(SeqStatus(env, s.body, true), StepStatus(env, s.step)))
      ensures var loop := |old(instructions)|;
              var tc := ExprCode(env, s.end, Scratch(0), 1, loop) + [Cmp2(Gt, reg, Scratch(0))];
              var bodyAt := loop + |tc| + 1;
              var bc := SeqCode(env, s.body, bodyAt, 0);
              var tail := StepCode(env, s.step, bodyAt + |bc|) + [Arith3(Add, reg, Scratch(0), reg), JumpTo(loop)];
              st.Fine? ==>
                && exitJump == bodyAt - 1
                && Compiled(tc + [JumpIfTo(0)] + (bc + tail), SeqExitSites(env, s.body, bodyAt),
                            old(instructions), old(loopExits))
      decreases s, 0
    {
      hide Valid; hide Depth;
      hide StmtCode; hide ExprCode; hide ExprStatus; hide SeqCode; hide SeqStatus; hide StepCode; hide StepStatus;
      exitJump := 0;
      var loopStart := |instructions|;
      :- CompileForTest(s, reg);
      ghost var tc := ExprCode(env, s.end, Scratch(0), 1, loopStart) + [Cmp2(Gt, reg, Scratch(0))];
      exitJump := Emit(JumpIfTo(0));
      var bodyAt := |instructions|;
      :- CompileStmts(s.body);
      ghost var bc := SeqCode(env, s.body, bodyAt, 0);
      :- CompileForStep(s, reg, loopStart);
      ghost var tail := StepCode(env, s.step, bodyAt + |bc|) + [Arith3(Add, reg, Scratch(0), reg), JumpTo(loopStart)];
      Regroup(old(instructions), tc, [JumpIfTo(0)], bc, tail, []);
      Regroup(tc, [JumpIfTo(0)], bc, tail, [], []);
      st := Fine;
    }

    /** The whole loop of a FOR: opened, compiled, its exits patched. */
    method CompileForAround(s: Stmt, reg: nat) returns (st: Status)
      requires Valid() && Depth() == 0 && s.For? && PlainStmt(s)
      modifies this`instructions, this`loopExits, scratchAvail
      ensures st == Then(ExprStatus(env, s.end, 1), Then(SeqStatus(env, s.body, true), StepStatus(env, s.step)))
      ensures var loop := |old(instructions)|;
              var tc := ExprCode(env, s.end, Scratch(0), 1, loop) + [Cmp2(Gt, reg, Scratch(0))];
              var bodyAt := loop + |tc| + 1;
              var bn := |SeqCode(env, s.body, bodyAt, 0)|;
              var tail := StepCode(env, s.step, bodyAt + bn) + [Arith3(Add, reg, Scratch(0), reg), JumpTo(loop)];
              var out := bodyAt + bn + |tail|;
              st.Fine? ==> Compiled(tc + [JumpIfTo(out)] + SeqCode(env, s.body, bodyAt, out) + tail, [],
                                    old(instructions), old(loopExits))
      decreases s, 1
    {
      hide Valid; hide Depth;
      hide StmtCode; hide ExprCode; hide ExprStatus; hide SeqCode; hide Becomes; hide SeqStatus; hide Patch;
      hide StepCode; hide StepStatus;
      ghost var before, loop := instructions, |instructions|;
      PushLoop();
      var exitJump :- CompileForLoop(s, reg);
      ghost var tc := ExprCode(env, s.end, Scratch(0), 1, loop) + [Cmp2(Gt, reg, Scratch(0))];
      ghost var bodyAt := loop + |tc| + 1;
      ghost var bc := SeqCode(env, s.body, bodyAt, 0);
      ghost var tail := StepCode(env, s.step, bodyAt + |bc|) + [Arith3(Add, reg, Scratch(0), reg), JumpTo(loop)];
      var exitLabel := |instructions|;
      PatchJump(exitJump, exitLabel);
      PatchedTest(before, tc, exitLabel, bc, tail);
      AddExitsLaws(old(loopExits), [], []);
      hide AddExits;
      CloseLoop(s.body, bodyAt, before, tc + [JumpIfTo(exitLabel)], tail, old(loopExits));
      st := Fine;
    }

    method CompileFor(s: Stmt) returns (st: Status)
      requires Valid() && Depth() == 0 && s.For? && PlainStmt(s)
      modifies this`instructions, this`loopExits, scratchAvail
      ensures st == StmtStatus(env, s, old(loopExits) != [])
      ensures st.Fine? ==> Compiled(StmtCode(env, s, |old(instructions)|, 0), ExitSites(env, s, |old(instructions)|),
                                    old(instructions), old(loopExits))
      decreases s, 2
    {
      hide StmtCode; hide ExprCode; hide ExprStatus; hide SeqCode; hide SeqStatus; hide StepCode; hide StepStatus;
      hide ForVariableStatus; hide AddExits;
      ghost var before := instructions;
      :- ForVariableStatus(env, s.variable);
      assert s.variable in env.types by { ForNeedsDeclared(env, s.variable); }
      var reg :- VarReg(s.variable);
      :- CompileExpr(s.start, reg);
      ghost var sc := ExprCode(env, s.start, reg, 0, |before|);
      ghost var loop := |instructions|;
      :- CompileForAround(s, reg);
      ForLayout(env, s, |before|, 0);
      ghost var tc := ExprCode(env, s.end, Scratch(0), 1, loop) + [Cmp2(Gt, reg, Scratch(0))];
      ghost var bodyAt := loop + |tc| + 1;
      ghost var tail := StepCode(env, s.step, bodyAt + |SeqCode(env, s.body, bodyAt, 0)|) +
                        [Arith3(Add, reg, Scratch(0), reg), JumpTo(loop)];
      ghost var out := |instructions|;
      SeqLength(env, s.body, bodyAt, out);
      Regroup(sc, tc, [JumpIfTo(out)], SeqCode(env, s.body, bodyAt, out), tail, []);
      Regroup(before, sc, tc + [JumpIfTo(out)] + SeqCode(env, s.body, bodyAt, out) + tail, [], [], []);
      st := Fine;
    }

    /** The body and the condition of a REPEAT, with the body's exits still open. */
    method CompileRepeatLoop(s: Stmt) returns (st: Status)
      requires Valid() && Depth() == 0 && s.Repeat? && PlainStmt(s) && loopExits != []
      modifies this`instructions, this`loopExits, scratchAvail
      ensures st == Then(SeqStatus(env, s.body, true), CondStatus(env, s.cond))
      ensures var at := |old(instructions)|;
              var bc := SeqCode(env, s.body, at, 0);
              var out := at + |bc| + |CondCode(env, s.cond, at + |bc|, 0, 0)| + 1;
              st.Fine? ==> Compiled(bc + CondCode(env, s.cond, at + |bc|, out, 0) + [JumpTo(at)],
                                    SeqExitSites(env, s.body, at), old(instructions), old(loopExits))
      decreases s, 0
    {
      hide Valid; hide Depth;
      hide ExprCode; hide CondCode; hide SeqCode; hide Becomes; hide SeqStatus; hide CondStatus; hide Patch;
      hide AddExits;
      ghost var before := instructions;
      var loopStart := |instructions|;
      :- CompileStmts(s.body);
      ghost var bc := SeqCode(env, s.body, loopStart, 0);
      ghost var condAt := |instructions|;
      var elseJumps, _ :- CompileCondition(s.cond);
      var toLoop := Emit(JumpTo(0));
      var exitLabel := |instructions|;
      PatchJumps(elseJumps, exitLabel);
      ghost var cc := CondCode(env, s.cond, condAt, exitLabel, 0);
      assert instructions == before + bc + cc + [JumpTo(0)] by {
        CondBecomes(env, s.cond, condAt, 0, 0, exitLabel);
        PatchedBlock(before + bc, CondCode(env, s.cond, condAt, 0, 0), cc, [JumpTo(0)], elseJumps, exitLabel);
      }
      CondLength(env, s.cond, condAt, exitLabel, 0);
      PatchJump(toLoop, loopStart);
      PatchedJump(before + bc + cc, 0, loopStart, []);
      Regroup(before + bc + cc, [JumpTo(loopStart)], [], [], [], []);
      Regroup(before + bc + cc, [JumpTo(0)], [], [], [], []);
      Regroup(before, bc, cc, [JumpTo(loopStart)], [], []);
      st := Fine;
    }

    method CompileRepeat(s: Stmt) returns (st: Status)
      requires Valid() && Depth() == 0 && s.Repeat? && PlainStmt(s)
      modifies this`instructions, this`loopExits, scratchAvail
      ensures st == StmtStatus(env, s, old(loopExits) != [])
      ensures st.Fine? ==> Compiled(StmtCode(env, s, |old(instructions)|, 0), ExitSites(env, s, |old(instructions)|),
                                    old(instructions), old(loopExits))
      decreases s, 1
    {
      hide Valid; hide Depth;
      hide StmtCode; hide ExprCode; hide CondCode; hide SeqCode; hide Becomes; hide SeqStatus; hide CondStatus;
      hide Patch;
      hide TypeOfExpr;
      ghost var before := instructions;
      :- ConditionStatus(env, s.cond);
      PushLoop();
      var loopStart := |instructions|;
      :- CompileRepeatLoop(s);
      ghost var bc := SeqCode(env, s.body, loopStart, 0);
      ghost var out := loopStart + |bc| + |CondCode(env, s.cond, loopStart + |bc|, 0, 0)| + 1;
      CondLength(env, s.cond, loopStart + |bc|, out, 0);
      var exitLabel := |instructions|;
      assert exitLabel == out;
      ghost var cc := CondCode(env, s.cond, loopStart + |bc|, exitLabel, 0);
      AddExitsLaws(old(loopExits), [], []);
      ghost var tail := cc + [JumpTo(loopStart)];
      Regroup(bc, cc, [JumpTo(loopStart)], [], [], []);
      assert [] + bc + tail == bc + tail;
      CloseLoop(s.body, loopStart, before, [], tail, old(loopExits));
      ghost var closed := SeqCode(env, s.body, loopStart, exitLabel);
      assert [] + closed + tail == closed + tail;
      RepeatLayout(env, s, |before|, 0);
      Regroup(closed, cc, [JumpTo(loopStart)], [], [], []);
      st := Fine;
    }

    /** The comparison chain of one arm, with its jumps open. */
    method CompileValues(reg: nat, values: seq<int>) returns (st: Status, toBody: seq<nat>)
      requires Valid() && Depth() == 0
      modifies this`instructions, scratchAvail
      ensures st == Fine && Valid() && Depth() == 0
      ensures instructions == old(instructions) + ValuesCode(reg, values, 0)
      ensures toBody == ValueSites(reg, values, |old(instructions)|)
    {
      toBody := [];
      var i := 0;
      while i < |values|
        invariant 0 <= i <= |values|
        invariant Valid() && Depth() == 0
        invariant instructions == old(instructions) + ValuesCode(reg, values[..i], 0)
        invariant toBody == ValueSites(reg, values[..i], |old(instructions)|)
      {
        assert values[..i + 1][..i] == values[..i];
        var s :- AllocScratch();
        var _ := Emit(LoadImm(s, S32(Wrap(I32, values[i]))));
        var _ := Emit(Cmp2(Eq, reg, s));
        FreeScratch(s);
        var j := Emit(JumpIfTo(0));
        toBody := toBody + [j];
        i := i + 1;
      }
      assert values[..i] == values;
      st := Fine;
    }

    /** One arm; the jump that ends it stays open. */
    method CompileArm(reg: nat, arm: CaseArm) returns (st: Status, toEnd: nat)
      requires Valid() && Depth() == 0 && PlainSeq(arm.body)
      modifies this`instructions, this`loopExits, scratchAvail
      ensures st == SeqStatus(env, arm.body, old(loopExits) != [])
      ensures var at := |old(instructions)|;
              var bodyAt := ArmBodyAt(reg, arm, at);
              st.Fine? ==>
                && Compiled(ArmCode(env, reg, arm, at, 0, 0), SeqExitSites(env, arm.body, bodyAt),
                            old(instructions), old(loopExits))
                && toEnd == bodyAt + |SeqCode(env, arm.body, bodyAt, 0)|
      decreases arm, 0
    {
      hide Valid; hide Depth;
      hide SeqCode; hide SeqStatus; hide Patch; hide Becomes; hide ValuesCode; hide ValueSites; hide AddExits;
      hide SeqExitSites;
      ghost var before, at := instructions, |instructions|;
      toEnd := 0;
      var toBody :- CompileValues(reg, arm.values);
      var skip := Emit(JumpTo(0));
      var bodyAt := |instructions|;
      PatchJumps(toBody, bodyAt);
      ghost var vc := ValuesCode(reg, arm.values, bodyAt);
      ValuesBecome(reg, arm.values, at, 0, bodyAt);
      ValuesBecome(reg, arm.values, at, bodyAt, 0);
      PatchedBlock(before, ValuesCode(reg, arm.values, 0), vc, [JumpTo(0)], toBody, bodyAt);
      :- CompileStmts(arm.body);
      ghost var bc := SeqCode(env, arm.body, bodyAt, 0);
      toEnd := Emit(JumpTo(0));
      var next := |instructions|;
      PatchJump(skip, next);
      PatchedJump(before + vc, 0, next, bc + [JumpTo(0)]);
      Regroup(before + vc, [JumpTo(0)], bc, [JumpTo(0)], [], []);
      Regroup(before, vc, [JumpTo(next)], bc, [JumpTo(0)], []);
      Regroup(before + vc, [JumpTo(next)], bc, [JumpTo(0)], [], []);
      st := Fine;
    }

    method CompileArms(reg: nat, arms: seq<CaseArm>) returns (st: Status, exitJumps: seq<nat>)
      requires Valid() && Depth() == 0 && PlainArms(arms)
      modifies this`instructions, this`loopExits, scratchAvail
      ensures st == ArmsStatus(env, arms, old(loopExits) != [])
      ensures var at := |old(instructions)|;
              st.Fine? ==>
                && Compiled(ArmsCode(env, reg, arms, at, 0, 0), ArmsExitSites(env, reg, arms, at),
                            old(instructions), old(loopExits))
                && exitJumps == DoneSites(env, reg, arms, at)
      decreases arms
    {
      hide Valid; hide Depth;
      hide ArmCode; hide SeqStatus; hide SeqExitSites; hide SeqCode; hide AddExits; hide ValuesCode;
      hide ArmsCode; hide ArmsStatus; hide ArmsExitSites; hide DoneSites; hide PlainArms; hide PlainSeq;
      exitJumps := [];
      var i := 0;
      ghost var at := |instructions|;
      NoArms(env, reg, at, loopExits != []);
      assert arms[..0] == [];
      AddExitsLaws(loopExits, [], []);
      PlainArmPrefixes(arms, 0);
      while i < |arms|
        invariant 0 <= i <= |arms|
        invariant ArmsStatus(env, arms[..i], old(loopExits) != []).Fine?
        invariant Compiled(ArmsCode(env, reg, arms[..i], at, 0, 0), ArmsExitSites(env, reg, arms[..i], at),
                           old(instructions), old(loopExits))
        invariant exitJumps == DoneSites(env, reg, arms[..i], at)
      {
        PlainArmPrefixes(arms, i);
        ArmsStatusPrefix(env, arms, i + 1, old(loopExits) != []);
        ArmsGrow(env, reg, arms, i, at, old(loopExits) != []);
        AddExitsLaws(old(loopExits), ArmsExitSites(env, reg, arms[..i], at),
                     SeqExitSites(env, arms[i].body, ArmBodyAt(reg, arms[i], |instructions|)));
        var toEnd;
        st, toEnd := CompileArm(reg, arms[i]);
        if !st.Fine? { return; }
        exitJumps := exitJumps + [toEnd];
        i := i + 1;
      }
      assert arms[..i] == arms;
      st := Fine;
    }

    method CompileCase(s: Stmt) returns (st: Status)
      requires Valid() && Depth() == 0 && s.Case? && PlainStmt(s)
      modifies this`instructions, this`loopExits, scratchAvail
      ensures st == StmtStatus(env, s, old(loopExits) != [])
      ensures st.Fine? ==> Compiled(StmtCode(env, s, |old(instructions)|, 0), ExitSites(env, s, |old(instructions)|),
                                    old(instructions), old(loopExits))
      decreases s, 0
    {
      hide Valid; hide Depth;
      hide SeqCode; hide SeqStatus; hide ArmsCode; hide ArmsStatus; hide Patch; hide Becomes; hide AddExits;
      ghost var before, at := instructions, |instructions|;
      AddExitsLaws(loopExits, [], []);
      var reg :- VarReg(s.variable);
      var exitJumps :- CompileArms(reg, s.arms);
      ghost var elseAt := |instructions|;
      AddExitsLaws(old(loopExits), ArmsExitSites(env, reg, s.arms, at), SeqExitSites(env, s.elseBody, elseAt));
      :- CompileStmts(s.elseBody);
      ghost var ec := SeqCode(env, s.elseBody, elseAt, 0);
      var exitLabel := |instructions|;
      PatchJumps(exitJumps, exitLabel);
      ArmsDone(env, reg, s.arms, at, 0, 0, exitLabel);
      PatchedBlock(before, ArmsCode(env, reg, s.arms, at, 0, 0), ArmsCode(env, reg, s.arms, at, 0, exitLabel), ec,
                   exitJumps, exitLabel);
      Regroup(before, ArmsCode(env, reg, s.arms, at, 0, exitLabel), ec, [], [], []);
      st := Fine;
    }

    // ----- calls -----

    /** An argument in the next scratch register, which stays in use. */
    method CompileArg(e: Expr) returns (st: Status, reg: nat)
      requires Valid() && PlainExpr(e)
      modifies this`instructions, scratchAvail
      ensures st == ArgStatus(env, e, old(Depth()))
      ensures st.Fine? ==> Valid() && Depth() == old(Depth()) + 1 && reg == Scratch(old(Depth()))
      ensures st.Fine? ==> instructions == old(instructions) + ArgCode(env, e, old(Depth()), |old(instructions)|)
    {
      reg :- AllocScratch();
      if e.Variable? {
        var src :- VarReg(e.name);
        var _ := Emit(LoadReg(reg, src));
      } else {
        st := CompileExpr(e, reg);
        if !st.Fine? { return; }
      }
      st := Fine;
    }

    method CompileCall(f: string, args: seq<Expr>) returns (st: Status)
      requires Valid() && Depth() == 0
      requires forall i :: 0 <= i < |args| ==> PlainExpr(args[i])
      modifies this`instructions, scratchAvail
      ensures st == CallStatus(env, f, args)
      ensures st.Fine? ==> Valid() && Depth() == 0
      ensures st.Fine? ==> instructions == old(instructions) + CallCode(env, f, args, |old(instructions)|)
    {
      hide ArgCode; hide ArgStatus; hide ArgsCode; hide ArgsStatus;
      var t := TypeOfVar(env, f);
      if f in env.types && IsTimerBlock(t) && |args| >= 2 {
        var in0 :- CompileArg(args[0]);
        var _ := Emit(Instruction(TimerRun, [Imm(env.regs[f]), Register(in0), Imm(LiteralU32(args[1])),
                                             Imm(TimerKindCode(t))]));
        FreeScratch(in0);
      } else if f in env.types && IsCounterBlock(t) && |args| >= 2 {
        var cu :- CompileArg(args[0]);
        var cd;
        if |args| >= 3 {
          cd :- CompileArg(args[2]);
        } else {
          cd :- AllocScratch();
          var _ := Emit(LoadImm(cd, Bool(false)));
        }
        var _ := Emit(Instruction(CounterRun, [Imm(env.regs[f]), Register(cu), Register(cd),
                                               Imm(LiteralU32(args[1])), Imm(CounterKindCode(t))]));
        FreeScratch(cd);
        FreeScratch(cu);
      } else if f in env.types && IsFlipFlop(t) && |args| >= 2 {
        var s1 :- CompileArg(args[0]);
        var r :- CompileArg(args[1]);
        var _ := Emit(Instruction(SrRun, [Imm(env.regs[f]), Register(s1), Register(r), Imm(if t.TSr? then 0 else 1)]));
        FreeScratch(r);
        FreeScratch(s1);
      } else if f in env.types && IsEdgeBlock(t) && |args| >= 1 {
        var clk :- CompileArg(args[0]);
        var _ := Emit(Instruction(EdgeRun, [Imm(env.regs[f]), Register(clk), Imm(if t.TRTrig? then 0 else 1)]));
        FreeScratch(clk);
      } else {
        st := CompileArgs(args);
        if !st.Fine? { return; }
        var _ := Emit(CallTo(0));
      }
      st := Fine;
    }

    method CompileArgs(args: seq<Expr>) returns (st: Status)
      requires Valid() && Depth() == 0
      requires forall i :: 0 <= i < |args| ==> PlainExpr(args[i])
      modifies this`instructions, scratchAvail
      ensures st == ArgsStatus(env, args)
      ensures st.Fine? ==> Valid() && Depth() == 0
      ensures st.Fine? ==> instructions == old(instructions) + ArgsCode(env, args, |old(instructions)|)
    {
      hide ExprCode; hide ExprStatus;
      var i := 0;
      while i < |args|
        invariant 0 <= i <= |args|
        invariant Valid() && Depth() == 0
        invariant ArgsStatus(env, args[..i]).Fine?
        invariant instructions == old(instructions) + ArgsCode(env, args[..i], |old(instructions)|)
      {
        assert args[..i + 1][..i] == args[..i];
        ArgsStatusPrefix(env, args, i + 1);
        if i < 4 {
          st := CompileExpr(args[i], i);
          if !st.Fine? { return; }
        }
        i := i + 1;
      }
      assert args[..i] == args;
      st := Fine;
    }

    // ----- whole programs -----

    /** The main body, a halt, and each function body followed by its return. */
    /** The body of a function, closed by a return. */
    method CompileFunction(f: FunctionDef) returns (st: Status)
      requires Valid() && Depth() == 0 && PlainSeq(f.body) && loopExits == []
      modifies this`instructions, this`loopExits, scratchAvail
      ensures st == SeqStatus(env, f.body, false)
      ensures st.Fine? ==> Valid() && Depth() == 0 && loopExits == []
      ensures st.Fine? ==>
                instructions == old(instructions) + SeqCode(env, f.body, |old(instructions)|, 0) + [RetNone()]
    {
      hide Valid; hide Depth;
      hide SeqCode; hide SeqStatus; hide AddExits;
      AddExitsLaws([], SeqExitSites(env, f.body, |instructions|), []);
      st := CompileStmts(f.body);
      if !st.Fine? { return; }
      var _ := Emit(RetNone());
    }

    method CompileProgram(p: Program) returns (st: Status)
      requires Valid() && Depth() == 0 && PlainProgram(p) && loopExits == [] && instructions == []
      modifies this`instructions, this`loopExits, scratchAvail
      ensures st == ProgramStatus(env, p)
      ensures st.Fine? ==> instructions == ProgramCode(env, p) && loopExits == []
    {
      hide Valid; hide Depth;
      hide SeqCode; hide SeqStatus; hide AddExits; hide FunctionsCode; hide FunctionsStatus;
      AddExitsLaws([], SeqExitSites(env, p.body, 0), []);
      :- CompileStmts(p.body);
      var _ := Emit(HaltInstr());
      NoFunctions(env, |MainCode(env, p)|);
      assert p.functions[..0] == [];
      var i := 0;
      while i < |p.functions|
        invariant 0 <= i <= |p.functions|
        invariant Valid() && Depth() == 0 && loopExits == []
        invariant SeqStatus(env, p.body, false).Fine? && FunctionsStatus(env, p.functions[..i]).Fine?
        invariant instructions == MainCode(env, p) + FunctionsCode(env, p.functions[..i], |MainCode(env, p)|)
      {
        FunctionsGrow(env, p.functions, i, |MainCode(env, p)|);
        FunctionsStatusPrefix(env, p.functions, i + 1);
        st := CompileFunction(p.functions[i]);
        if !st.Fine? { return; }
        i := i + 1;
      }
      assert p.functions[..i] == p.functions;
      st := Fine;
    }
  }

  /** Compiling a program gives the code laid out for it, or the first error. */
  method CompileAst(p: Program) returns (st: Status, code: seq<Instruction>)
    requires PlainProgram(p)
    ensures st == if |p.variables| > MAX_VAR_REGS then Failed(TooManyVariables)
            else ProgramStatus(EnvOf(p.variables), p)
    ensures st.Fine? ==> code == ProgramCode(EnvOf(p.variables), p)
  {
    code := [];
    if |p.variables| > MAX_VAR_REGS { return Failed(TooManyVariables), code; }
    var cg := new Codegen(EnvOf(p.variables));
    :- cg.CompileProgram(p);
    return Fine, cg.instructions;
  }
}
