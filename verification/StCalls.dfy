/** Calls of ST functions. Every call keeps its placeholder target, instruction 0: it does not
    enter the function but starts the program over, one level deeper. */
module StCalls {
  import opened HalValues
  import opened StAst
  import opened Machine
  import opened StLayout

  /** A call that is no block call: its name is undeclared or declared as something else, or it
      has too few arguments. */
  predicate Ordinary(env: Env, f: string, args: seq<Expr>) {
    f in env.types ==>
      && (env.types[f] in {TTon, TTof, TTp, TCtu, TCtd, TCtud, TSr, TRs} ==> |args| < 2)
      && (env.types[f] in {TRTrig, TFTrig} ==> args == [])
  }

  lemma OrdinaryCode(env: Env, f: string, args: seq<Expr>, at: nat)
    requires Ordinary(env, f, args)
    ensures CallCode(env, f, args, at) == ArgsCode(env, args, at) + [CallTo(0)]
  {
    hide ArgCode; hide ArgsCode;
  }

  /** From the call itself the machine goes to instruction 0, with the address behind the call on
      top of the call stack and everything else unchanged. */
  lemma CallStartsOver(prog: seq<Instruction>, env: Env, f: string, args: seq<Expr>, at: nat, vm: Vm)
    requires Ordinary(env, f, args) && CodeAt(prog, at, CallCode(env, f, args, at))
    requires vm.ip == at + |ArgsCode(env, args, at)|
    ensures Step(prog, vm) == Next(vm.(ip := 0, callStack := vm.callStack + [vm.ip + 1]))
  {
    hide Step; hide ArgsCode; hide CallCode;
    OrdinaryCode(env, f, args, at);
    CodeAtSplit(prog, at, ArgsCode(env, args, at), [CallTo(0)]);
    StepCall(prog, vm, 0);
  }

  lemma {:induction false} FirstStatement(env: Env, ss: seq<Stmt>, at: nat, exit: nat)
    requires ss != []
    ensures StmtCode(env, ss[0], at, exit) <= SeqCode(env, ss, at, exit)
    decreases |ss|
  {
    hide StmtCode;
    if |ss| == 1 {
      assert ss[..0] == [];
    } else {
      FirstStatement(env, ss[..|ss| - 1], at, exit);
    }
  }

  lemma StartsWithCall(env: Env, p: Program, f: string)
    requires p.body != [] && p.body[0] == FunCall(f, []) && Ordinary(env, f, [])
    ensures CodeAt(ProgramCode(env, p), 0, [CallTo(0)])
  {
    FirstStatement(env, p.body, 0, 0);
    OrdinaryCode(env, f, [], 0);
    assert StmtCode(env, p.body[0], 0, 0) == [CallTo(0)];
    hide SeqCode; hide FunctionsCode; hide StmtCode;
    assert [CallTo(0)] <= ProgramCode(env, p);
  }

  /** A program that begins with a function call never ends and never gets further: whatever the
      function is, only the call stack grows, by one with every step. */
  lemma {:induction false} CallingFirstNeverEnds(env: Env, p: Program, f: string, vm: Vm, n: nat)
    requires p.body != [] && p.body[0] == FunCall(f, []) && Ordinary(env, f, []) && vm.ip == 0
    ensures Run(ProgramCode(env, p), Next(vm), n) == Next(vm.(callStack := vm.callStack + seq(n, _ => 1)))
    decreases n
  {
    hide Step; hide ProgramCode;
    var prog := ProgramCode(env, p);
    if n == 0 {
      assert vm.callStack + seq(0, _ => 1) == vm.callStack;
    } else {
      var mid: Vm := vm.(callStack := vm.callStack + seq(n - 1, _ => 1));
      CallingFirstNeverEnds(env, p, f, vm, n - 1);
      StartsWithCall(env, p, f);
      StepCall(prog, mid, 0);
      RunSplit(prog, Next(vm), n - 1, 1);
      RunOne(prog, mid);
      assert mid.callStack + [1] == vm.callStack + seq(n, _ => 1);
    }
  }
}
