/** The code of a DINT statement simulates its big-step evaluation. */
module StSimulation {
  import opened HalValues
  import opened StAst
  import opened Machine
  import opened StLayout
  import opened StPatch
  import opened StSemantics
  import opened StCorrectness

  lemma StmtEnd(prog: seq<Instruction>, env: Env, vm: Vm, m: nat, mid: Vm, next: Vm, st: StState, end: nat, exit: nat,
                fuel: nat)
    requires GoodEnv(env) && Reaches(prog, vm, m, mid) && Step(prog, mid) == Next(next)
    requires next.ip == end && Matches(env, st, next)
    ensures Simulates(prog, env, vm, m + 1, Normal(st), end, exit, fuel)
  {
    hide Step;
    ReachesStep(prog, vm, m, mid, next);
  }

  lemma SimulatesReturn(prog: seq<Instruction>, env: Env, vm: Vm, st: StState, end: nat, exit: nat, fuel: nat)
    requires GoodEnv(env) && Matches(env, st, vm) && Step(prog, vm) == Halted(vm.(ip := vm.ip + 1))
    ensures Simulates(prog, env, vm, 1, Returned(st), end, exit, fuel)
  {
    hide Step;
    RunOne(prog, vm);
  }

  /** Assigning: the expression into the variable's register, then the signal. */
  lemma AssignRuns(prog: seq<Instruction>, env: Env, x: string, e: Expr, vm: Vm, vars: Store) returns (regs: Regs)
    requires GoodEnv(env) && Holds(env, vars, vm.regs)
    requires IsDintVar(env, x) && DintExpr(env, e) && Need(e) <= POOL_SIZE
    requires CodeAt(prog, vm.ip, ExprCode(env, e, RegOf(env, x), 0, vm.ip))
    ensures var n := |ExprCode(env, e, RegOf(env, x), 0, vm.ip)|;
            match EvalInto(e, x, vars)
            case Some(v) => Reaches(prog, vm, n, Moved(vm, regs, n)) && Holds(env, vars[x := v], regs)
            case None => Run(prog, Next(vm), n) == Panic(ArithmeticPanic)
  {
    hide Run; hide Step; hide ExprCode; hide Eval; hide EvalInto;
    regs := ExprRuns(prog, env, e, ToVar(x), 0, vm, vars);
    if EvalInto(e, x, vars).Some? {
      HoldsAfter(env, vars, vm.regs, regs, ToVar(x), 0, EvalInto(e, x, vars).value);
    }
  }

  lemma AssignStmtRuns(prog: seq<Instruction>, env: Env, s: Stmt, vm: Vm, st: StState, exit: nat,
                       fuel: nat) returns (n: nat)
    requires s.Assign? && GoodEnv(env) && DintStmt(env, s) && Matches(env, st, vm)
    requires CodeAt(prog, vm.ip, StmtCode(env, s, vm.ip, exit))
    ensures Simulates(prog, env, vm, n, Exec(s, st, fuel), vm.ip + |StmtCode(env, s, vm.ip, exit)|, exit, fuel)
  {
    hide Run; hide Step; hide ExprCode; hide Simulates; hide Eval; hide EvalInto; hide DintExpr;
    var x, e := s.target, s.value;
    var c := ExprCode(env, e, RegOf(env, x), 0, vm.ip);
    assert StmtCode(env, s, vm.ip, exit) == c + [StoreSig(x, RegOf(env, x))];
    CodeAtSplit(prog, vm.ip, c, [StoreSig(x, RegOf(env, x))]);
    var regs := AssignRuns(prog, env, x, e, vm, st.vars);
    var v := Eval(e, st.vars);
    n := |c| + 1;
    if EvalInto(e, x, st.vars) != v {
      SimulatesStrayed(prog, env, vm, n, vm.ip + n, exit, fuel);
    } else if v.None? {
      PanicStays(prog, vm, |c|, 1);
      SimulatesTrap(prog, env, vm, n, vm.ip + n, exit, fuel);
    } else {
      var mid := Moved(vm, regs, |c|);
      StepStore(prog, mid, x, RegOf(env, x));
      StmtEnd(prog, env, vm, |c|, mid, mid.(signals := mid.signals[x := mid.regs[RegOf(env, x)]], ip := mid.ip + 1),
              StState(st.vars[x := v.value], st.signals[x := v.value]), vm.ip + n, exit, fuel);
    }
  }

  lemma {:induction false} StmtRuns(prog: seq<Instruction>, env: Env, s: Stmt, vm: Vm, st: StState, exit: nat,
                                    fuel: nat)
    returns (n: nat)
    requires GoodEnv(env) && DintStmt(env, s) && Matches(env, st, vm)
    requires CodeAt(prog, vm.ip, StmtCode(env, s, vm.ip, exit))
    ensures Simulates(prog, env, vm, n, Exec(s, st, fuel), vm.ip + |StmtCode(env, s, vm.ip, exit)|, exit, fuel)
    decreases fuel, s, 2
  {
    hide Run; hide Step; hide SeqCode; hide ExprCode; hide CondCode; hide ArmsCode; hide Simulates;
    match s
    case Assign(_, _) => n := AssignStmtRuns(prog, env, s, vm, st, exit, fuel);
    case If(_, _, _) => n := IfRuns(prog, env, s, vm, st, exit, fuel);
    case While(_, _) => n := WhileRuns(prog, env, s, vm, st, exit, fuel);
    case For(_, _, _, _, _) => n := ForRuns(prog, env, s, vm, st, exit, fuel);
    case Repeat(_, _) => n := RepeatRuns(prog, env, s, vm, st, exit, fuel);
    case Case(_, _, _) => n := CaseRuns(prog, env, s, vm, st, exit, fuel);
    case Return =>
      n := 1;
      StepHalt(prog, vm);
      SimulatesReturn(prog, env, vm, st, vm.ip + 1, exit, fuel);
    case Exit =>
      n := 1;
      StepJump(prog, vm, exit);
      RunNone(prog, vm);
      ReachesStep(prog, vm, 0, vm, vm.(ip := exit));
      SimulatesHere(prog, env, vm, 1, vm.(ip := exit), st, vm.ip + 1, exit, fuel);
  }

  lemma {:induction false} SeqRuns(prog: seq<Instruction>, env: Env, ss: seq<Stmt>, vm: Vm, st: StState, exit: nat,
                                   fuel: nat)
    returns (n: nat)
    requires GoodEnv(env) && DintSeq(env, ss) && Matches(env, st, vm)
    requires CodeAt(prog, vm.ip, SeqCode(env, ss, vm.ip, exit))
    ensures Simulates(prog, env, vm, n, ExecSeq(ss, st, fuel), vm.ip + |SeqCode(env, ss, vm.ip, exit)|, exit, fuel)
    decreases fuel, ss, 1
  {
    hide Step; hide StmtCode; hide Exec;
    if ss == [] {
      n := 0;
    } else {
      var front, last := ss[..|ss| - 1], ss[|ss| - 1];
      var fc := SeqCode(env, front, vm.ip, exit);
      var lc := StmtCode(env, last, vm.ip + |fc|, exit);
      CodeAtSplit(prog, vm.ip, fc, lc);
      n := SeqRuns(prog, env, front, vm, st, exit, fuel);
      var r := ExecSeq(front, st, fuel);
      if r.Normal? {
        var mid := Run(prog, Next(vm), n).vm;
        var m := StmtRuns(prog, env, last, mid, r.st, exit, fuel);
        SimulatesAfter(prog, env, vm, n, mid, m, Exec(last, r.st, fuel), vm.ip + |fc| + |lc|, exit, fuel);
        n := n + m;
      }
    }
  }

  /** A body that runs to its end and then jumps. */
  lemma ThenJump(prog: seq<Instruction>, env: Env, vm: Vm, n: nat, out: Outcome, at: nat, target: nat, exit: nat,
                 fuel: nat)
    returns (m: nat)
    requires GoodEnv(env) && Simulates(prog, env, vm, n, out, at, exit, fuel) && CodeAt(prog, at, [JumpTo(target)])
    ensures Simulates(prog, env, vm, m, out, target, exit, fuel)
    ensures out.Normal? ==> m > 0
  {
    hide Step;
    m := n;
    if out.Normal? {
      m := n + 1;
      var mid := Run(prog, Next(vm), n).vm;
      StepJump(prog, mid, target);
      StmtEnd(prog, env, vm, n, mid, mid.(ip := target), out.st, target, exit, fuel);
    }
  }

  lemma IfMeaning(env: Env, s: Stmt, st: StState, fuel: nat)
    requires s.If? && DintStmt(env, s)
    ensures DintCond(env, s.cond) && DintSeq(env, s.thenBody) && DintSeq(env, s.elseBody)
    ensures Exec(s, st, fuel) ==
            match IfVerdict(s.cond, st.vars)
            case Faults => Trapped
            case Strays => Strayed
            case Says(b) => if b then ExecSeq(s.thenBody, st, fuel) else ExecSeq(s.elseBody, st, fuel)
  {
    hide IfVerdict; hide ExecSeq; hide DintSeq; hide DintCond;
  }

  lemma SimulatesStrayed(prog: seq<Instruction>, env: Env, vm: Vm, n: nat, end: nat, exit: nat, fuel: nat)
    requires GoodEnv(env)
    ensures Simulates(prog, env, vm, n, Strayed, end, exit, fuel)
  {
  }

  /** In IF a verdict says whether the code comes to the THEN branch or goes through. */
  lemma IfGoes(prog: seq<Instruction>, env: Env, c: Expr, vm: Vm, n: nat, mid: Vm, vars: Store, thenAt: nat, end: nat)
    requires GoesOn(prog, env, vm, n, mid, vars, CondWay(c, vars), thenAt, thenAt, end)
    ensures IfVerdict(c, vars).Faults? ==> Run(prog, Next(vm), n) == Panic(ArithmeticPanic)
    ensures IfVerdict(c, vars).Says? ==>
              && n > 0 && Reaches(prog, vm, n, mid) && Holds(env, vars, mid.regs) && mid.signals == vm.signals
              && mid.ip == if IfVerdict(c, vars).b then thenAt else end
  {
    hide Run; hide Holds; hide EvalCond; hide CondWay;
  }

  lemma LoopGoes(prog: seq<Instruction>, env: Env, c: Expr, vm: Vm, n: nat, mid: Vm, vars: Store, t: nat, e: nat,
                 end: nat)
    requires GoesOn(prog, env, vm, n, mid, vars, CondWay(c, vars), t, e, end)
    ensures LoopVerdict(c, vars).Faults? ==> Run(prog, Next(vm), n) == Panic(ArithmeticPanic)
    ensures LoopVerdict(c, vars).Says? ==>
              && n > 0 && Reaches(prog, vm, n, mid) && Holds(env, vars, mid.regs) && mid.signals == vm.signals
              && mid.ip == if LoopVerdict(c, vars).b then t else end
  {
    hide Run; hide Holds; hide EvalCond; hide CondWay;
  }

  lemma IfRuns(prog: seq<Instruction>, env: Env, s: Stmt, vm: Vm, st: StState, exit: nat, fuel: nat) returns (n: nat)
    requires s.If? && GoodEnv(env) && DintStmt(env, s) && Matches(env, st, vm)
    requires CodeAt(prog, vm.ip, StmtCode(env, s, vm.ip, exit))
    ensures Simulates(prog, env, vm, n, Exec(s, st, fuel), vm.ip + |StmtCode(env, s, vm.ip, exit)|, exit, fuel)
    decreases fuel, s, 1
  {
    hide Run; hide Step; hide SeqCode; hide StmtCode; hide ExprCode; hide CondCode; hide Simulates; hide IfVerdict;
    hide ExecSeq;
    hide Exec; hide DintStmt; hide CodeAt; hide GoodEnv; hide CondWay; hide GoesOn; hide DintCond;
    IfMeaning(env, s, st, fuel);
    var at := vm.ip;
    IfLayout(env, s, at, exit);
    var k := |CondCode(env, s.cond, at, 0, 0)|;
    var thenAt := at + k + 1;
    var cc := CondCode(env, s.cond, at, thenAt, thenAt);
    CondLength(env, s.cond, at, thenAt, thenAt);
    var tc := SeqCode(env, s.thenBody, thenAt, exit);
    var elseAt := thenAt + |tc| + 1;
    var ec := SeqCode(env, s.elseBody, elseAt, exit);
    var end := elseAt + |ec|;
    CodeAtSplit(prog, at, cc + [JumpTo(elseAt)] + tc + [JumpTo(end)], ec);
    CodeAtSplit(prog, at, cc + [JumpTo(elseAt)] + tc, [JumpTo(end)]);
    CodeAtSplit(prog, at, cc + [JumpTo(elseAt)], tc);
    CodeAtSplit(prog, at, cc, [JumpTo(elseAt)]);
    var j, mid := CondRuns(prog, env, s.cond, vm, st.vars, thenAt, thenAt);
    IfGoes(prog, env, s.cond, vm, j, mid, st.vars, thenAt, at + k);
    var b := IfVerdict(s.cond, st.vars);
    n := j;
    if b.Faults? {
      SimulatesTrap(prog, env, vm, n, end, exit, fuel);
    } else if b.Strays? {
      SimulatesStrayed(prog, env, vm, n, end, exit, fuel);
    } else if b.b {
      var m := SeqRuns(prog, env, s.thenBody, mid, st, exit, fuel);
      m := ThenJump(prog, env, mid, m, ExecSeq(s.thenBody, st, fuel), thenAt + |tc|, end, exit, fuel);
      SimulatesAfter(prog, env, vm, j, mid, m, ExecSeq(s.thenBody, st, fuel), end, exit, fuel);
      n := j + m;
    } else {
      StepJump(prog, mid, elseAt);
      var mid2: Vm := mid.(ip := elseAt);
      ReachesStep(prog, vm, j, mid, mid2);
      var m := SeqRuns(prog, env, s.elseBody, mid2, st, exit, fuel);
      SimulatesAfter(prog, env, vm, j + 1, mid2, m, ExecSeq(s.elseBody, st, fuel), end, exit, fuel);
      n := j + 1 + m;
    }
  }

  /** Leaving a loop by EXIT ends the loop normally. */
  lemma LeaveLoop(prog: seq<Instruction>, env: Env, vm: Vm, n: nat, out: Outcome, at: nat, end: nat, exit: nat,
                  fuel: nat)
    requires GoodEnv(env) && Simulates(prog, env, vm, n, out, at, end, fuel) && !out.Normal?
    ensures Simulates(prog, env, vm, n, if out.Exiting? then Normal(out.st) else out, end, exit, fuel)
  {
  }

  lemma MoreFuel(prog: seq<Instruction>, env: Env, vm: Vm, m: nat, mid: Vm, n: nat, out: Outcome, end: nat, exit: nat,
                 fuel: nat)
    requires GoodEnv(env) && m > 0 && fuel > 0
    requires Reaches(prog, vm, m, mid) && Simulates(prog, env, mid, n, out, end, exit, fuel - 1)
    ensures Simulates(prog, env, vm, m + n, out, end, exit, fuel)
  {
    hide Step;
    RunSplit(prog, Next(vm), m, n);
  }

  lemma WhileRuns(prog: seq<Instruction>, env: Env, s: Stmt, vm: Vm, st: StState, exit: nat, fuel: nat) returns (n: nat)
    requires s.While? && GoodEnv(env) && DintStmt(env, s) && Matches(env, st, vm)
    requires CodeAt(prog, vm.ip, StmtCode(env, s, vm.ip, exit))
    ensures Simulates(prog, env, vm, n, Exec(s, st, fuel), vm.ip + |StmtCode(env, s, vm.ip, exit)|, exit, fuel)
    decreases fuel, s, 1
  {
    hide Step; hide Run; hide SeqCode; hide StmtCode; hide ExprCode; hide CondCode; hide Simulates; hide LoopVerdict;
    hide ExecSeq; hide CondWay;
    hide GoesOn; hide DintCond;
    var at := vm.ip;
    WhileLayout(env, s, at, exit);
    var k := |CondCode(env, s.cond, at, 0, 0)|;
    var bodyAt := at + k + 1;
    var out := bodyAt + |SeqCode(env, s.body, bodyAt, 0)| + 1;
    var cc := CondCode(env, s.cond, at, bodyAt, 0);
    CondLength(env, s.cond, at, bodyAt, 0);
    var bc := SeqCode(env, s.body, bodyAt, out);
    SeqLength(env, s.body, bodyAt, out);
    CodeAtSplit(prog, at, cc + [JumpTo(out)] + bc, [JumpTo(at)]);
    CodeAtSplit(prog, at, cc + [JumpTo(out)], bc);
    CodeAtSplit(prog, at, cc, [JumpTo(out)]);
    var j, mid := CondRuns(prog, env, s.cond, vm, st.vars, bodyAt, 0);
    LoopGoes(prog, env, s.cond, vm, j, mid, st.vars, bodyAt, 0, at + k);
    var b := LoopVerdict(s.cond, st.vars);
    n := j;
    if b.Faults? {
      SimulatesTrap(prog, env, vm, n, out, exit, fuel);
    } else if b.Strays? {
      SimulatesStrayed(prog, env, vm, n, out, exit, fuel);
    } else if !b.b {
      StepJump(prog, mid, out);
      n := j + 1;
      StmtEnd(prog, env, vm, j, mid, mid.(ip := out), st, out, exit, fuel);
    } else {
      var m := SeqRuns(prog, env, s.body, mid, st, out, fuel);
      var r := ExecSeq(s.body, st, fuel);
      m := ThenJump(prog, env, mid, m, r, out - 1, at, out, fuel);
      SimulatesAfter(prog, env, vm, j, mid, m, r, at, out, fuel);
      n := j + m;
      if !r.Normal? {
        LeaveLoop(prog, env, vm, n, r, at, out, exit, fuel);
      } else {
        var again := Again(prog, env, vm, n, r.st, at, out, fuel);
        if fuel == 0 {
          SimulatesHere(prog, env, vm, n, again, r.st, out, exit, fuel);
        } else {
          var p := StmtRuns(prog, env, s, again, r.st, exit, fuel - 1);
          MoreFuel(prog, env, vm, n, again, p, Exec(s, r.st, fuel - 1), out, exit, fuel);
          n := n + p;
        }
      }
    }
  }

  /** The machine at the end of a normal outcome. */
  lemma Again(prog: seq<Instruction>, env: Env, vm: Vm, n: nat, st: StState, at: nat, exit: nat,
              fuel: nat) returns (mid: Vm)
    requires GoodEnv(env) && Simulates(prog, env, vm, n, Normal(st), at, exit, fuel)
    ensures Reaches(prog, vm, n, mid) && mid.ip == at && Matches(env, st, mid)
  {
    mid := Run(prog, Next(vm), n).vm;
  }

  lemma RepeatRuns(prog: seq<Instruction>, env: Env, s: Stmt, vm: Vm, st: StState, exit: nat,
                   fuel: nat) returns (n: nat)
    requires s.Repeat? && GoodEnv(env) && DintStmt(env, s) && Matches(env, st, vm)
    requires CodeAt(prog, vm.ip, StmtCode(env, s, vm.ip, exit))
    ensures Simulates(prog, env, vm, n, Exec(s, st, fuel), vm.ip + |StmtCode(env, s, vm.ip, exit)|, exit, fuel)
    decreases fuel, s, 1
  {
    hide Step; hide Run; hide SeqCode; hide StmtCode; hide ExprCode; hide CondCode; hide Simulates; hide LoopVerdict;
    hide ExecSeq; hide CondWay;
    hide GoesOn; hide DintCond;
    var at := vm.ip;
    RepeatLayout(env, s, at, exit);
    var condAt := at + |SeqCode(env, s.body, at, 0)|;
    var k := |CondCode(env, s.cond, condAt, 0, 0)|;
    var out := condAt + k + 1;
    var bc := SeqCode(env, s.body, at, out);
    SeqLength(env, s.body, at, out);
    var cc := CondCode(env, s.cond, condAt, out, 0);
    CondLength(env, s.cond, condAt, out, 0);
    CodeAtSplit(prog, at, bc + cc, [JumpTo(at)]);
    CodeAtSplit(prog, at, bc, cc);
    n := SeqRuns(prog, env, s.body, vm, st, out, fuel);
    var r := ExecSeq(s.body, st, fuel);
    if !r.Normal? {
      LeaveLoop(prog, env, vm, n, r, condAt, out, exit, fuel);
    } else {
      var mid := Again(prog, env, vm, n, r.st, condAt, out, fuel);
      var j, v := CondRuns(prog, env, s.cond, mid, r.st.vars, out, 0);
      LoopGoes(prog, env, s.cond, mid, j, v, r.st.vars, out, 0, condAt + k);
      var b := LoopVerdict(s.cond, r.st.vars);
      if b.Faults? {
        PanicAfter(prog, vm, n, mid, j);
        n := n + j;
        SimulatesTrap(prog, env, vm, n, out, exit, fuel);
      } else if b.Strays? {
        SimulatesStrayed(prog, env, vm, n, out, exit, fuel);
      } else {
        ReachesThen(prog, vm, n, mid, j, v);
        n := n + j;
        if b.b {
          SimulatesHere(prog, env, vm, n, v, r.st, out, exit, fuel);
        } else {
          StepJump(prog, v, at);
          var again: Vm := v.(ip := at);
          ReachesStep(prog, vm, n, v, again);
          n := n + 1;
          if fuel == 0 {
            SimulatesHere(prog, env, vm, n, again, r.st, out, exit, fuel);
          } else {
            var p := StmtRuns(prog, env, s, again, r.st, exit, fuel - 1);
            MoreFuel(prog, env, vm, n, again, p, Exec(s, r.st, fuel - 1), out, exit, fuel);
            n := n + p;
          }
        }
      }
    }
  }

  // ----- FOR -----

  /** The code of a FOR loop from its test on, at address `loop`. */
  ghost predicate ForLoopAt(prog: seq<Instruction>, env: Env, s: Stmt, loop: nat, bodyAt: nat, stepAt: nat, out: nat)
    requires s.For?
  {
    var reg := RegOf(env, s.variable);
    && CodeAt(prog, loop, ExprCode(env, s.end, Scratch(0), 1, loop))
    && bodyAt == loop + |ExprCode(env, s.end, Scratch(0), 1, loop)| + 2
    && CodeAt(prog, bodyAt - 2, [Cmp2(Gt, reg, Scratch(0))])
    && CodeAt(prog, bodyAt - 1, [JumpIfTo(out)])
    && CodeAt(prog, bodyAt, SeqCode(env, s.body, bodyAt, out))
    && stepAt == bodyAt + |SeqCode(env, s.body, bodyAt, out)|
    && CodeAt(prog, stepAt, StepCode(env, s.step, stepAt))
    && CodeAt(prog, stepAt + |StepCode(env, s.step, stepAt)|, [Arith3(Add, reg, Scratch(0), reg)])
    && CodeAt(prog, stepAt + |StepCode(env, s.step, stepAt)| + 1, [JumpTo(loop)])
  }

  /** Taking the code of a FOR statement apart. */
  lemma ForLaidOut(prog: seq<Instruction>, env: Env, s: Stmt, at: nat, exit: nat) returns (bodyAt: nat, stepAt: nat)
    requires s.For? && CodeAt(prog, at, StmtCode(env, s, at, exit))
    ensures var sc := ExprCode(env, s.start, RegOf(env, s.variable), 0, at);
            && CodeAt(prog, at, sc)
            && ForLoopAt(prog, env, s, at + |sc|, bodyAt, stepAt, at + |StmtCode(env, s, at, exit)|)
  {
    hide SeqCode; hide StmtCode; hide ExprCode; hide StepCode; hide CodeAt; hide RegOf; hide Scratch;
    ForLayout(env, s, at, exit);
    var reg := RegOf(env, s.variable);
    var sc := ExprCode(env, s.start, reg, 0, at);
    var loop := at + |sc|;
    var ec := ExprCode(env, s.end, Scratch(0), 1, loop);
    bodyAt := loop + |ec| + 2;
    stepAt := bodyAt + |SeqCode(env, s.body, bodyAt, 0)|;
    var pc := StepCode(env, s.step, stepAt);
    var out := stepAt + |pc| + 2;
    var bc := SeqCode(env, s.body, bodyAt, out);
    SeqLength(env, s.body, bodyAt, out);
    var cmp, add := [Cmp2(Gt, reg, Scratch(0))], [Arith3(Add, reg, Scratch(0), reg)];
    assert [Arith3(Add, reg, Scratch(0), reg), JumpTo(loop)] == add + [JumpTo(loop)];
    CodeAtSplit(prog, at, sc + (ec + cmp) + [JumpIfTo(out)] + bc, pc + (add + [JumpTo(loop)]));
    CodeAtSplit(prog, stepAt, pc, add + [JumpTo(loop)]);
    CodeAtSplit(prog, stepAt + |pc|, add, [JumpTo(loop)]);
    CodeAtSplit(prog, at, sc + (ec + cmp) + [JumpIfTo(out)], bc);
    CodeAtSplit(prog, at, sc + (ec + cmp), [JumpIfTo(out)]);
    CodeAtSplit(prog, at, sc, ec + cmp);
    CodeAtSplit(prog, loop, ec, cmp);
  }

  lemma ForRuns(prog: seq<Instruction>, env: Env, s: Stmt, vm: Vm, st: StState, exit: nat, fuel: nat) returns (n: nat)
    requires s.For? && GoodEnv(env) && DintStmt(env, s) && Matches(env, st, vm)
    requires CodeAt(prog, vm.ip, StmtCode(env, s, vm.ip, exit))
    ensures Simulates(prog, env, vm, n, Exec(s, st, fuel), vm.ip + |StmtCode(env, s, vm.ip, exit)|, exit, fuel)
    decreases fuel, s, 1
  {
    hide Step; hide Run; hide SeqCode; hide StmtCode; hide ExprCode; hide StepCode; hide Simulates; hide Eval;
    hide ExecFor; hide EvalInto;
    hide ForLoopAt;
    var bodyAt, stepAt := ForLaidOut(prog, env, s, vm.ip, exit);
    var out := vm.ip + |StmtCode(env, s, vm.ip, exit)|;
    var k := |ExprCode(env, s.start, RegOf(env, s.variable), 0, vm.ip)|;
    var regs := AssignRuns(prog, env, s.variable, s.start, vm, st.vars);
    var v := Eval(s.start, st.vars);
    if EvalInto(s.start, s.variable, st.vars) != v {
      n := k;
      SimulatesStrayed(prog, env, vm, n, out, exit, fuel);
    } else if v.None? {
      n := k;
      SimulatesTrap(prog, env, vm, n, out, exit, fuel);
    } else {
      var mid := Moved(vm, regs, k);
      var st1 := Update(st, s.variable, v.value);
      n := ForLoopRuns(prog, env, s, mid, st1, bodyAt, stepAt, out, exit, fuel);
      SimulatesAfter(prog, env, vm, k, mid, n, ExecFor(s, st1, fuel), out, exit, fuel);
      n := k + n;
    }
  }

  /** The test of a FOR loop: the limit, then the comparison. */
  lemma ForTestRuns(prog: seq<Instruction>, env: Env, s: Stmt, vm: Vm, vars: Store, bodyAt: nat, stepAt: nat, out: nat)
    returns (mid: Vm)
    requires s.For? && GoodEnv(env) && DintStmt(env, s) && Holds(env, vars, vm.regs)
    requires ForLoopAt(prog, env, s, vm.ip, bodyAt, stepAt, out)
    ensures match Eval(s.end, vars)
            case Some(limit) =>
              && s.variable in vars
              && Reaches(prog, vm, bodyAt - vm.ip, mid)
              && mid.ip == (if Compare(GtOp, vars[s.variable], limit) then out else bodyAt)
              && Holds(env, vars, mid.regs) && mid.signals == vm.signals
            case None => Run(prog, Next(vm), bodyAt - vm.ip) == Panic(ArithmeticPanic)
  {
    hide Step; hide Run; hide SeqCode; hide ExprCode; hide StepCode; hide Eval; hide Compare;
    mid := vm;
    var reg := RegOf(env, s.variable);
    var k := |ExprCode(env, s.end, Scratch(0), 1, vm.ip)|;
    var regs := ScratchRuns(prog, env, s.end, 0, vm, vars);
    if Eval(s.end, vars).None? {
      PanicStays(prog, vm, k, 2);
      return;
    }
    var v1 := Moved(vm, regs, k);
    StepCompare(prog, v1, Gt, reg, Scratch(0));
    var b := Compare(GtOp, vars[s.variable], Eval(s.end, vars).value);
    var v2: Vm := v1.(flag := b, ip := v1.ip + 1);
    ReachesStep(prog, vm, k, v1, v2);
    StepJumpIf(prog, v2, out);
    mid := v2.(ip := if b then out else v2.ip + 1);
    ReachesStep(prog, vm, k + 1, v2, mid);
  }

  /** The step of a FOR loop and the jump back to the test. */
  lemma ForStepRuns(prog: seq<Instruction>, env: Env, s: Stmt, vm: Vm, vars: Store, loop: nat, bodyAt: nat,
                    stepAt: nat, out: nat)
    returns (mid: Vm)
    requires s.For? && GoodEnv(env) && DintStmt(env, s) && Holds(env, vars, vm.regs) && vm.ip == stepAt
    requires ForLoopAt(prog, env, s, loop, bodyAt, stepAt, out)
    ensures var n := |StepCode(env, s.step, stepAt)| + 2;
            var d := StepValue(s.step, vars);
            && s.variable in vars
            && var v := if d.Some? then Arith(AddOp, vars[s.variable], d.value) else None;
            match v
            case Some(w) =>
              && Reaches(prog, vm, n, mid) && mid.ip == loop
              && Holds(env, vars[s.variable := w], mid.regs) && mid.signals == vm.signals
            case None => Run(prog, Next(vm), n) == Panic(ArithmeticPanic)
  {
    hide Step; hide Run; hide SeqCode; hide ExprCode; hide Eval; hide Arith;
    mid := vm;
    var reg := RegOf(env, s.variable);
    var k := |StepCode(env, s.step, stepAt)|;
    var d := StepValue(s.step, vars);
    var regs := StepRuns(prog, env, s.step, vm, vars);
    if d.None? {
      PanicStays(prog, vm, k, 2);
      return;
    }
    var v1 := Moved(vm, regs, k);
    StepArith(prog, v1, Add, reg, Scratch(0), reg);
    ArithKeepsDint(AddOp, vars[s.variable], d.value);
    var w := Arith(AddOp, vars[s.variable], d.value);
    var v2 := Moved(v1, regs[reg := w.value], 1);
    ReachesStep(prog, vm, k, v1, v2);
    StepJump(prog, v2, loop);
    mid := v2.(ip := loop);
    ReachesStep(prog, vm, k + 1, v2, mid);
    HoldsAfter(env, vars, regs, mid.regs, ToVar(s.variable), 0, w.value);
  }

  lemma StepRuns(prog: seq<Instruction>, env: Env, step: Option<Expr>, vm: Vm, vars: Store) returns (regs: Regs)
    requires GoodEnv(env) && Holds(env, vars, vm.regs)
    requires step.Some? ==> DintExpr(env, step.value) && Need(step.value) + 1 <= POOL_SIZE
    requires CodeAt(prog, vm.ip, StepCode(env, step, vm.ip))
    ensures var n := |StepCode(env, step, vm.ip)|;
            match StepValue(step, vars)
            case Some(v) => Reaches(prog, vm, n, Moved(vm, regs, n)) && Holds(env, vars, regs) &&
              regs[Scratch(0)] == v && IsDint(v)
            case None => Run(prog, Next(vm), n) == Panic(ArithmeticPanic)
  {
    hide Step; hide Run; hide ExprCode; hide Eval;
    if step.Some? {
      regs := ScratchRuns(prog, env, step.value, 0, vm, vars);
    } else {
      StepLoadImm(prog, vm, Scratch(0), S32(1));
      regs := vm.regs[Scratch(0) := S32(1)];
      RunNone(prog, vm);
      ReachesStep(prog, vm, 0, vm, Moved(vm, regs, 1));
      HoldsAfter(env, vars, vm.regs, regs, ToScratch(0), 1, S32(1));
    }
  }

  lemma ForLoopRuns(prog: seq<Instruction>, env: Env, s: Stmt, vm: Vm, st: StState,
                    bodyAt: nat, stepAt: nat, out: nat, exit: nat, fuel: nat) returns (n: nat)
    requires s.For? && GoodEnv(env) && DintStmt(env, s) && Matches(env, st, vm)
    requires ForLoopAt(prog, env, s, vm.ip, bodyAt, stepAt, out)
    ensures Simulates(prog, env, vm, n, ExecFor(s, st, fuel), out, exit, fuel)
    decreases fuel, s, 0
  {
    hide Step; hide Run; hide SeqCode; hide ExprCode; hide StepCode; hide Simulates; hide Eval; hide Compare;
    hide Arith;
    hide ExecSeq; hide StepValue;
    var loop := vm.ip;
    var mid := ForTestRuns(prog, env, s, vm, st.vars, bodyAt, stepAt, out);
    n := bodyAt - loop;
    var limit := Eval(s.end, st.vars);
    if limit.None? {
      SimulatesTrap(prog, env, vm, n, out, exit, fuel);
    } else if Compare(GtOp, st.vars[s.variable], limit.value) {
      SimulatesHere(prog, env, vm, n, mid, st, out, exit, fuel);
    } else {
      var m := SeqRuns(prog, env, s.body, mid, st, out, fuel);
      var r := ExecSeq(s.body, st, fuel);
      SimulatesAfter(prog, env, vm, n, mid, m, r, stepAt, out, fuel);
      n := n + m;
      if !r.Normal? {
        LeaveLoop(prog, env, vm, n, r, stepAt, out, exit, fuel);
      } else {
        var v1 := Again(prog, env, vm, n, r.st, stepAt, out, fuel);
        var v2 := ForStepRuns(prog, env, s, v1, r.st.vars, loop, bodyAt, stepAt, out);
        var k := |StepCode(env, s.step, stepAt)| + 2;
        var d := StepValue(s.step, r.st.vars);
        var w := if d.Some? then Arith(AddOp, r.st.vars[s.variable], d.value) else None;
        if w.None? {
          PanicAfter(prog, vm, n, v1, k);
          n := n + k;
          SimulatesTrap(prog, env, vm, n, out, exit, fuel);
        } else {
          ReachesThen(prog, vm, n, v1, k, v2);
          n := n + k;
          var st2 := Update(r.st, s.variable, w.value);
          if fuel == 0 {
            SimulatesHere(prog, env, vm, n, v2, st2, out, exit, fuel);
          } else {
            var p := ForLoopRuns(prog, env, s, v2, st2, bodyAt, stepAt, out, exit, fuel - 1);
            MoreFuel(prog, env, vm, n, v2, p, ExecFor(s, st2, fuel - 1), out, exit, fuel);
            n := n + p;
          }
        }
      }
    }
  }

  // ----- CASE -----

  /** A comparison chain: to the body on any matching value, past the chain otherwise. */
  lemma HoldsVar(env: Env, x: string, vars: Store, regs: seq<HalValue>)
    requires GoodEnv(env) && IsDintVar(env, x) && |regs| == REGISTER_COUNT && Holds(env, vars, regs)
    ensures x in vars && RegOf(env, x) < REGISTER_COUNT && regs[RegOf(env, x)] == vars[x]
  {
  }

  /** One CASE value is loaded, compared with the variable and jumped on. */
  lemma OneValueRuns(prog: seq<Instruction>, env: Env, x: string, c: HalValue, toBody: nat, vm: Vm, n: nat, at: Vm,
                     vars: Store)
    returns (end: Vm)
    requires GoodEnv(env) && IsDintVar(env, x) && IsDint(c) && Holds(env, vars, at.regs) && Reaches(prog, vm, n, at)
    requires CodeAt(prog, at.ip, [LoadImm(Scratch(0), c)]) &&
             CodeAt(prog, at.ip + 1, [Cmp2(Eq, RegOf(env, x), Scratch(0))])
    requires CodeAt(prog, at.ip + 2, [JumpIfTo(toBody)])
    ensures x in vars && Reaches(prog, vm, n + 3, end) && Holds(env, vars, end.regs) && end.signals == at.signals
    ensures end.ip == if vars[x] == c then toBody else at.ip + 3
  {
    hide Step; hide Run; hide Holds; hide CodeAt; hide RegOf; hide GoodEnv; hide Reaches;
    HoldsVar(env, x, vars, at.regs);
    var reg := RegOf(env, x);
    StepLoadImm(prog, at, Scratch(0), c);
    var v1 := Moved(at, at.regs[Scratch(0) := c], 1);
    ReachesStep(prog, vm, n, at, v1);
    HoldsAfter(env, vars, at.regs, v1.regs, ToScratch(0), 1, c);
    HoldsVar(env, x, vars, v1.regs);
    StepCompare(prog, v1, Eq, reg, Scratch(0));
    var v2: Vm := v1.(flag := vars[x] == c, ip := v1.ip + 1);
    ReachesStep(prog, vm, n + 1, v1, v2);
    StepJumpIf(prog, v2, toBody);
    end := v2.(ip := if v2.flag then toBody else v2.ip + 1);
    ReachesStep(prog, vm, n + 2, v2, end);
  }

  lemma {:induction false} ValuesRun(prog: seq<Instruction>, env: Env, x: string, values: seq<int>, toBody: nat,
                                     vm: Vm, vars: Store)
    returns (n: nat, mid: Vm)
    requires GoodEnv(env) && IsDintVar(env, x) && Holds(env, vars, vm.regs)
    requires CodeAt(prog, vm.ip, ValuesCode(RegOf(env, x), values, toBody))
    ensures Reaches(prog, vm, n, mid) && Holds(env, vars, mid.regs) && mid.signals == vm.signals
    ensures mid.ip ==
            if MatchesAny(vars[x], values) then toBody else vm.ip + |ValuesCode(RegOf(env, x), values, toBody)|
    decreases values
  {
    hide Step; hide Run; hide Holds; hide CodeAt; hide Wrap; hide RegOf; hide Scratch; hide GoodEnv;
    HoldsVar(env, x, vars, vm.regs);
    if values == [] {
      n, mid := 0, vm;
      RunNone(prog, vm);
    } else {
      var front, last := values[..|values| - 1], values[|values| - 1];
      var reg := RegOf(env, x);
      var fc := ValuesCode(reg, front, toBody);
      var c := S32(Wrap(I32, last));
      assert ValuesCode(reg, values, toBody) == fc + [LoadImm(Scratch(0), c)] + [Cmp2(Eq, reg, Scratch(0))] +
             [JumpIfTo(toBody)];
      CodeAtSplit(prog, vm.ip, fc + [LoadImm(Scratch(0), c)] + [Cmp2(Eq, reg, Scratch(0))], [JumpIfTo(toBody)]);
      CodeAtSplit(prog, vm.ip, fc + [LoadImm(Scratch(0), c)], [Cmp2(Eq, reg, Scratch(0))]);
      CodeAtSplit(prog, vm.ip, fc, [LoadImm(Scratch(0), c)]);
      n, mid := ValuesRun(prog, env, x, front, toBody, vm, vars);
      MatchesLast(vars[x], values);
      if !MatchesAny(vars[x], front) {
        mid := OneValueRuns(prog, env, x, c, toBody, vm, n, mid, vars);
        n := n + 3;
      }
    }
  }

  lemma MatchesLast(v: HalValue, values: seq<int>)
    requires values != []
    ensures MatchesAny(v, values) <==>
            MatchesAny(v, values[..|values| - 1]) || v == S32(Wrap(I32, values[|values| - 1]))
  {
    var front := values[..|values| - 1];
    if MatchesAny(v, front) {
      var i :| 0 <= i < |front| && v == S32(Wrap(I32, front[i]));
      assert v == S32(Wrap(I32, values[i]));
    }
    if MatchesAny(v, values) && v != S32(Wrap(I32, values[|values| - 1])) {
      var i :| 0 <= i < |values| && v == S32(Wrap(I32, values[i]));
      assert v == S32(Wrap(I32, front[i]));
    }
  }

  /** `at` is the body of `arm`, followed by the jump that ends it. */
  ghost predicate ArmBodyIn(prog: seq<Instruction>, env: Env, arm: CaseArm, at: nat, exit: nat, done: nat) {
    && CodeAt(prog, at, SeqCode(env, arm.body, at, exit))
    && CodeAt(prog, at + |SeqCode(env, arm.body, at, exit)|, [JumpTo(done)])
  }

  /** One arm leads to its body when a value matches, and past itself otherwise. */
  lemma ArmRun(prog: seq<Instruction>, env: Env, x: string, arm: CaseArm, exit: nat, done: nat, vm: Vm, vars: Store)
    returns (n: nat, mid: Vm)
    requires GoodEnv(env) && IsDintVar(env, x) && Holds(env, vars, vm.regs)
    requires CodeAt(prog, vm.ip, ArmCode(env, RegOf(env, x), arm, vm.ip, exit, done))
    ensures Reaches(prog, vm, n, mid) && Holds(env, vars, mid.regs) && mid.signals == vm.signals
    ensures if MatchesAny(vars[x], arm.values) then ArmBodyIn(prog, env, arm, mid.ip, exit, done)
            else mid.ip == vm.ip + |ArmCode(env, RegOf(env, x), arm, vm.ip, exit, done)|
  {
    hide Step; hide Run; hide SeqCode; hide ValuesCode; hide MatchesAny;
    var reg := RegOf(env, x);
    var bodyAt := ArmBodyAt(reg, arm, vm.ip);
    var vc := ValuesCode(reg, arm.values, bodyAt);
    ValuesBecome(reg, arm.values, vm.ip, bodyAt, 0);
    var bc := SeqCode(env, arm.body, bodyAt, exit);
    var next := bodyAt + |bc| + 1;
    CodeAtSplit(prog, vm.ip, vc + [JumpTo(next)] + bc, [JumpTo(done)]);
    CodeAtSplit(prog, vm.ip, vc + [JumpTo(next)], bc);
    CodeAtSplit(prog, vm.ip, vc, [JumpTo(next)]);
    n, mid := ValuesRun(prog, env, x, arm.values, bodyAt, vm, vars);
    if !MatchesAny(vars[x], arm.values) {
      StepJump(prog, mid, next);
      ReachesStep(prog, vm, n, mid, mid.(ip := next));
      n, mid := n + 1, mid.(ip := next);
    }
  }

  /** The arms lead to the body of the first matching one, or past them all. */
  lemma {:induction false} ArmsRun(prog: seq<Instruction>, env: Env, x: string, arms: seq<CaseArm>, exit: nat,
                                   done: nat, vm: Vm, vars: Store)
    returns (n: nat, mid: Vm)
    requires GoodEnv(env) && IsDintVar(env, x) && Holds(env, vars, vm.regs)
    requires CodeAt(prog, vm.ip, ArmsCode(env, RegOf(env, x), arms, vm.ip, exit, done))
    ensures Reaches(prog, vm, n, mid) && Holds(env, vars, mid.regs) && mid.signals == vm.signals
    ensures var i := FirstMatch(vars[x], arms);
            if i == |arms| then mid.ip == vm.ip + |ArmsCode(env, RegOf(env, x), arms, vm.ip, exit, done)|
            else ArmBodyIn(prog, env, arms[i], mid.ip, exit, done)
    decreases arms
  {
    hide Step; hide Run; hide ArmCode; hide MatchesAny; hide ArmBodyIn;
    if arms == [] {
      n, mid := 0, vm;
      RunNone(prog, vm);
    } else {
      var front, arm := arms[..|arms| - 1], arms[|arms| - 1];
      var reg := RegOf(env, x);
      var fc := ArmsCode(env, reg, front, vm.ip, exit, done);
      CodeAtSplit(prog, vm.ip, fc, ArmCode(env, reg, arm, vm.ip + |fc|, exit, done));
      n, mid := ArmsRun(prog, env, x, front, exit, done, vm, vars);
      if FirstMatch(vars[x], front) == |front| {
        var m, v1 := ArmRun(prog, env, x, arm, exit, done, mid, vars);
        ReachesThen(prog, vm, n, mid, m, v1);
        n, mid := n + m, v1;
      }
    }
  }

  lemma {:induction false} DintArm(env: Env, arms: seq<CaseArm>, i: nat)
    requires DintArms(env, arms) && i < |arms|
    ensures DintSeq(env, arms[i].body)
    decreases |arms|
  {
    if i < |arms| - 1 {
      DintArm(env, arms[..|arms| - 1], i);
    }
  }

  lemma CaseRuns(prog: seq<Instruction>, env: Env, s: Stmt, vm: Vm, st: StState, exit: nat, fuel: nat) returns (n: nat)
    requires s.Case? && GoodEnv(env) && DintStmt(env, s) && Matches(env, st, vm)
    requires CodeAt(prog, vm.ip, StmtCode(env, s, vm.ip, exit))
    ensures Simulates(prog, env, vm, n, Exec(s, st, fuel), vm.ip + |StmtCode(env, s, vm.ip, exit)|, exit, fuel)
    decreases fuel, s, 1
  {
    hide Step; hide Run; hide SeqCode; hide ArmsCode; hide Simulates; hide ExecSeq;
    var at, reg := vm.ip, RegOf(env, s.variable);
    var an := |ArmsCode(env, reg, s.arms, at, 0, 0)|;
    var ec := SeqCode(env, s.elseBody, at + an, exit);
    var done := at + an + |ec|;
    var ac := ArmsCode(env, reg, s.arms, at, exit, done);
    ArmsLength(env, reg, s.arms, at, exit, done);
    assert StmtCode(env, s, at, exit) == ac + ec;
    CodeAtSplit(prog, at, ac, ec);
    var k, mid := ArmsRun(prog, env, s.variable, s.arms, exit, done, vm, st.vars);
    var i := FirstMatch(st.vars[s.variable], s.arms);
    if i < |s.arms| {
      DintArm(env, s.arms, i);
      var body := s.arms[i].body;
      var m := SeqRuns(prog, env, body, mid, st, exit, fuel);
      m := ThenJump(prog, env, mid, m, ExecSeq(body, st, fuel), mid.ip + |SeqCode(env, body, mid.ip, exit)|, done,
                    exit, fuel);
      SimulatesAfter(prog, env, vm, k, mid, m, ExecSeq(body, st, fuel), done, exit, fuel);
      n := k + m;
    } else {
      var m := SeqRuns(prog, env, s.elseBody, mid, st, exit, fuel);
      SimulatesAfter(prog, env, vm, k, mid, m, ExecSeq(s.elseBody, st, fuel), done, exit, fuel);
      n := k + m;
    }
  }

  // ----- whole programs -----

  /** Outside every loop no EXIT is left over in a program that compiles. */
  lemma {:induction false} NoStrayExit(env: Env, s: Stmt, st: StState, fuel: nat)
    requires StmtStatus(env, s, false).Fine?
    ensures !Exec(s, st, fuel).Exiting?
    decreases fuel, s, 2
  {
    match s
    case If(c, t, e) => NoStrayExits(env, t, st, fuel); NoStrayExits(env, e, st, fuel);
    case While(c, b) =>
      var r := ExecSeq(b, st, fuel);
      if r.Normal? && fuel > 0 { NoStrayExit(env, s, r.st, fuel - 1); }
    case For(x, start, _, _, _) =>
      var v := Eval(start, st.vars);
      if v.Some? { ForNeverExits(s, Update(st, x, v.value), fuel); }
    case Repeat(b, c) =>
      var r := ExecSeq(b, st, fuel);
      if r.Normal? && fuel > 0 { NoStrayExit(env, s, r.st, fuel - 1); }
    case Case(x, arms, e) =>
      if x in st.vars {
        var i := FirstMatch(st.vars[x], arms);
        if i < |arms| {
          ArmStatus(env, arms, i);
          NoStrayExits(env, arms[i].body, st, fuel);
        } else {
          NoStrayExits(env, e, st, fuel);
        }
      }
    case _ =>
  }

  lemma {:induction false} ForNeverExits(s: Stmt, st: StState, fuel: nat)
    requires s.For?
    ensures !ExecFor(s, st, fuel).Exiting?
    decreases fuel
  {
    hide ExecSeq; hide Eval; hide Compare; hide Arith; hide StepValue;
    var r := ExecSeq(s.body, st, fuel);
    if r.Normal? && fuel > 0 && s.variable in r.st.vars {
      var d := StepValue(s.step, r.st.vars);
      if d.Some? {
        var v := Arith(AddOp, r.st.vars[s.variable], d.value);
        if v.Some? { ForNeverExits(s, Update(r.st, s.variable, v.value), fuel - 1); }
      }
    }
  }

  lemma {:induction false} ArmStatus(env: Env, arms: seq<CaseArm>, i: nat)
    requires ArmsStatus(env, arms, false).Fine? && i < |arms|
    ensures SeqStatus(env, arms[i].body, false).Fine?
    decreases |arms|
  {
    if i < |arms| - 1 { ArmStatus(env, arms[..|arms| - 1], i); }
  }

  lemma {:induction false} NoStrayExits(env: Env, ss: seq<Stmt>, st: StState, fuel: nat)
    requires SeqStatus(env, ss, false).Fine?
    ensures !ExecSeq(ss, st, fuel).Exiting?
    decreases fuel, ss, 1
  {
    if ss != [] {
      NoStrayExits(env, ss[..|ss| - 1], st, fuel);
      var r := ExecSeq(ss[..|ss| - 1], st, fuel);
      if r.Normal? { NoStrayExit(env, ss[|ss| - 1], r.st, fuel); }
    }
  }

  predicate Finishes(out: Outcome) { out.Normal? || out.Returned? }

  /** A DINT program that compiles. */
  predicate DintProgram(p: Program) {
    && |p.variables| <= MAX_VAR_REGS
    && ProgramStatus(EnvOf(p.variables), p).Fine?
    && TypedSeq(EnvOf(p.variables), p.body)
  }

  /** One scan of the compiled program: the machine halts with the registers and signals
      of the final source state, panics when the arithmetic does, and is still running
      after as many steps as loop iterations when the source has not finished. */
  lemma ScanSimulates(p: Program, vm: Vm, st: StState, fuel: nat) returns (n: nat)
    requires DintProgram(p) && vm.ip == 0 && Matches(EnvOf(p.variables), st, vm)
    ensures var env := EnvOf(p.variables);
            var out := ExecSeq(p.body, st, fuel);
            var r := Run(ProgramCode(env, p), Next(vm), n);
            match out
            case Normal(end) => r.Halted? && Matches(env, end, r.vm)
            case Returned(end) => r.Halted? && Matches(env, end, r.vm)
            case Trapped => r == Panic(ArithmeticPanic)
            case OutOfFuel => r.Next? && n >= fuel
            case Strayed => true
            case Exiting(_) => false
  {
    hide Step; hide SeqCode; hide ExecSeq;
    var env := EnvOf(p.variables);
    var prog := ProgramCode(env, p);
    var bc := SeqCode(env, p.body, 0, 0);
    assert prog[..|prog|] == bc + [HaltInstr()] + FunctionsCode(env, p.functions, |MainCode(env, p)|);
    CodeAtSplit(prog, 0, bc + [HaltInstr()], FunctionsCode(env, p.functions, |MainCode(env, p)|));
    CodeAtSplit(prog, 0, bc, [HaltInstr()]);
    EnvOfGood(p.variables);
    CompiledSeqFits(env, p.body, false);
    NoStrayExits(env, p.body, st, fuel);
    n := SeqRuns(prog, env, p.body, vm, st, 0, fuel);
    if ExecSeq(p.body, st, fuel).Normal? {
      var mid := Run(prog, Next(vm), n).vm;
      StepHalt(prog, mid);
      RunSplit(prog, Next(vm), n, 1);
      RunOne(prog, mid);
      n := n + 1;
    }
  }

  /** The program comes to no condition and no assignment that its code gets wrong. */
  ghost predicate NeverStrays(p: Program, st: StState) {
    forall fuel: nat :: !ExecSeq(p.body, st, fuel).Strayed?
  }

  /** The compiled program halts exactly when the source program finishes. */
  lemma HaltsExactlyWhenSourceFinishes(p: Program, vm: Vm, st: StState)
    requires DintProgram(p) && vm.ip == 0 && Matches(EnvOf(p.variables), st, vm) && NeverStrays(p, st)
    ensures (exists n: nat :: Run(ProgramCode(EnvOf(p.variables), p), Next(vm), n).Halted?) <==>
            (exists fuel: nat :: Finishes(ExecSeq(p.body, st, fuel)))
  {
    hide Step; hide ExecSeq;
    var prog := ProgramCode(EnvOf(p.variables), p);
    if n: nat :| Run(prog, Next(vm), n).Halted? {
      var _ := FinishedRun(p, vm, st, n);
      assert Finishes(ExecSeq(p.body, st, n + 1));
    }
    if fuel: nat :| Finishes(ExecSeq(p.body, st, fuel)) {
      var m := ScanSimulates(p, vm, st, fuel);
      assert Run(prog, Next(vm), m).Halted?;
    }
  }

  /** Whenever the machine has halted, the source finishes within that many iterations
      and the machine holds its final state. */
  lemma FinishedRun(p: Program, vm: Vm, st: StState, n: nat) returns (end: StState)
    requires DintProgram(p) && vm.ip == 0 && Matches(EnvOf(p.variables), st, vm) && NeverStrays(p, st)
    requires Run(ProgramCode(EnvOf(p.variables), p), Next(vm), n).Halted?
    ensures ExecSeq(p.body, st, n + 1) == Normal(end) || ExecSeq(p.body, st, n + 1) == Returned(end)
    ensures Matches(EnvOf(p.variables), end, Run(ProgramCode(EnvOf(p.variables), p), Next(vm), n).vm)
  {
    hide Step; hide ExecSeq; hide Run;
    var prog := ProgramCode(EnvOf(p.variables), p);
    var m := ScanSimulates(p, vm, st, n + 1);
    var out := ExecSeq(p.body, st, n + 1);
    if out.OutOfFuel? {
      RunSplit(prog, Next(vm), n, m - n);
      RunStuck(prog, Run(prog, Next(vm), n), m - n);
      assert false;
    }
    RunDeterministic(prog, Next(vm), m, n);
    end := out.st;
  }

  // ----- programs whose conditions are single comparisons -----

  /** Conditions are single comparisons, and no variable is read after being overwritten. */
  predicate SimpleStmt(s: Stmt) {
    match s
    case Assign(x, e) => NoClobber(e, x)
    case If(c, t, e) => IsComparison(c) && SimpleSeq(t) && SimpleSeq(e)
    case While(c, b) => IsComparison(c) && SimpleSeq(b)
    case For(x, start, _, _, b) => NoClobber(start, x) && SimpleSeq(b)
    case Repeat(b, c) => IsComparison(c) && SimpleSeq(b)
    case Case(_, arms, e) => SimpleArms(arms) && SimpleSeq(e)
    case _ => true
  }

  predicate SimpleSeq(ss: seq<Stmt>) {
    ss == [] || (SimpleSeq(ss[..|ss| - 1]) && SimpleStmt(ss[|ss| - 1]))
  }

  predicate SimpleArms(arms: seq<CaseArm>) {
    arms == [] || (SimpleArms(arms[..|arms| - 1]) && SimpleSeq(arms[|arms| - 1].body))
  }

  lemma {:induction false} SimpleArm(arms: seq<CaseArm>, i: nat)
    requires SimpleArms(arms) && i < |arms|
    ensures SimpleSeq(arms[i].body)
    decreases |arms|
  {
    if i < |arms| - 1 { SimpleArm(arms[..|arms| - 1], i); }
  }

  lemma {:induction false} SimpleStays(s: Stmt, st: StState, fuel: nat)
    requires SimpleStmt(s)
    ensures !Exec(s, st, fuel).Strayed?
    decreases fuel, s, 2
  {
    hide IfVerdict; hide LoopVerdict; hide EvalCond; hide Eval; hide EvalInto; hide NoClobber;
    match s
    case Assign(x, e) => NoClobberIsEval(e, x, st.vars);
    case If(c, t, e) =>
      ComparisonNeverStrays(c, st.vars);
      SimpleSeqStays(t, st, fuel);
      SimpleSeqStays(e, st, fuel);
    case While(c, b) =>
      ComparisonNeverStrays(c, st.vars);
      SimpleSeqStays(b, st, fuel);
      var r := ExecSeq(b, st, fuel);
      if r.Normal? && fuel > 0 { SimpleStays(s, r.st, fuel - 1); }
    case For(x, start, _, _, _) =>
      NoClobberIsEval(start, x, st.vars);
      var v := Eval(start, st.vars);
      if v.Some? { SimpleForStays(s, Update(st, x, v.value), fuel); }
    case Repeat(b, c) =>
      SimpleSeqStays(b, st, fuel);
      var r := ExecSeq(b, st, fuel);
      if r.Normal? {
        ComparisonNeverStrays(c, r.st.vars);
        if fuel > 0 { SimpleStays(s, r.st, fuel - 1); }
      }
    case Case(x, arms, e) =>
      if x in st.vars {
        var i := FirstMatch(st.vars[x], arms);
        if i < |arms| {
          SimpleArm(arms, i);
          SimpleSeqStays(arms[i].body, st, fuel);
        } else {
          SimpleSeqStays(e, st, fuel);
        }
      }
    case _ =>
  }

  lemma {:induction false} SimpleForStays(s: Stmt, st: StState, fuel: nat)
    requires s.For? && SimpleSeq(s.body)
    ensures !ExecFor(s, st, fuel).Strayed?
    decreases fuel, s, 1
  {
    hide Eval; hide Compare; hide Arith; hide StepValue;
    SimpleSeqStays(s.body, st, fuel);
    var r := ExecSeq(s.body, st, fuel);
    if r.Normal? && fuel > 0 && s.variable in r.st.vars {
      var d := StepValue(s.step, r.st.vars);
      if d.Some? {
        var v := Arith(AddOp, r.st.vars[s.variable], d.value);
        if v.Some? { SimpleForStays(s, Update(r.st, s.variable, v.value), fuel - 1); }
      }
    }
  }

  lemma {:induction false} SimpleSeqStays(ss: seq<Stmt>, st: StState, fuel: nat)
    requires SimpleSeq(ss)
    ensures !ExecSeq(ss, st, fuel).Strayed?
    decreases fuel, ss, 1
  {
    if ss != [] {
      SimpleSeqStays(ss[..|ss| - 1], st, fuel);
      var r := ExecSeq(ss[..|ss| - 1], st, fuel);
      if r.Normal? { SimpleStays(ss[|ss| - 1], r.st, fuel); }
    }
  }

  /** Where every condition is a single comparison and no assignment reads what it has
      overwritten, no run ever strays. */
  lemma SimpleProgramsNeverStray(p: Program, st: StState)
    requires SimpleSeq(p.body)
    ensures NeverStrays(p, st)
  {
    hide ExecSeq;
    forall fuel: nat
      ensures !ExecSeq(p.body, st, fuel).Strayed?
    {
      SimpleSeqStays(p.body, st, fuel);
    }
  }

  /** The source state after `k` scans, if each of them finishes. */
  function Scans(p: Program, st: StState, k: nat, fuel: nat): Option<StState>
    decreases k
  {
    if k == 0 then Some(st)
    else
      var before := Scans(p, st, k - 1, fuel);
      if before.None? then None
      else
        var out := ExecSeq(p.body, before.value, fuel);
        if Finishes(out) then Some(out.st) else None
  }

  /** After any number of scans the machine still agrees with the source. */
  lemma {:induction false} ManyScans(p: Program, vm: Vm, st: StState, k: nat, fuel: nat) returns (end: Vm)
    requires DintProgram(p) && vm.ip == 0 && Matches(EnvOf(p.variables), st, vm)
    requires Scans(p, st, k, fuel).Some?
    ensures ScansTo(ProgramCode(EnvOf(p.variables), p), vm, k, end)
    ensures end.ip == 0 && Matches(EnvOf(p.variables), Scans(p, st, k, fuel).value, end)
    decreases k
  {
    hide Step; hide Run; hide ExecSeq;
    if k == 0 {
      end := vm;
    } else {
      var mid := ManyScans(p, vm, st, k - 1, fuel);
      var n := ScanSimulates(p, mid, Scans(p, st, k - 1, fuel).value, fuel);
      end := ResetIp(Run(ProgramCode(EnvOf(p.variables), p), Next(mid), n).vm);
    }
  }

  /** A fresh machine agrees with the store in which every variable is zero. */
  lemma FreshMatches(p: Program, vars: Store)
    requires |p.variables| <= MAX_VAR_REGS
    requires forall x :: IsDintVar(EnvOf(p.variables), x) ==> x in vars && vars[x] == S32(0)
    ensures Matches(EnvOf(p.variables), StState(vars, map[]), FreshVm())
  {
    EnvOfGood(p.variables);
  }
}
