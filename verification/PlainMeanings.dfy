/** What the statements of ST and IL say, in plain arithmetic and logic: the meanings against
    which the compilers are proved, apart from the value domain they are written with. */
module PlainMeanings {
  import opened HalValues
  import opened MachineArith
  import opened StAst
  import opened StSemantics
  import IlLang
  import IlLayout
  import IL = IlLockstep
  import M = Machine

  // ----- ST expressions -----

  /** DINT arithmetic: sums, differences and products wrap; division truncates, and gives zero
      for a zero divisor. */
  ghost predicate PlainArith(op: BinOp, x: int, y: int, v: Option<HalValue>) {
    && (v.None? <==> (op.BDiv? || op.BMod?) && x == -0x8000_0000 && y == -1)
    && (v.Some? ==>
          && v.value.Int? && v.value.ity == I32
          && var n := v.value.n;
          && (op.BAdd? ==> n == Wrap(I32, x + y)) && (op.BSub? ==> n == Wrap(I32, x - y))
          && (op.BMul? ==> n == Wrap(I32, x * y)) && ((op.BDiv? || op.BMod?) && y == 0 ==> n == 0)
          && (op.BDiv? && y != 0 ==> exists s :: Divides(x, y, n, s))
          && (op.BMod? && y != 0 ==> exists q :: Divides(x, y, q, n)))
  }

  lemma DintArithmetic(op: BinOp, x: int, y: int)
    requires IsArith(op) && InRange(I32, x) && InRange(I32, y)
    ensures PlainArith(op, x, y, Arith(OpOf(op), S32(x), S32(y)))
  {
    hide Wrap; hide TruncDiv; hide TruncRem; hide Divides; hide Times;
    if y != 0 && !(x == -0x8000_0000 && y == -1) {
      TruncatedDivision(x, y);
      QuotientInRange(x, y);
      RemainderInRange(x, y);
    }
  }

  lemma ArithmeticSays(l: Expr, op: BinOp, r: Expr, vars: Store, x: int, y: int)
    requires IsArith(op) && Eval(l, vars) == Some(S32(x)) && Eval(r, vars) == Some(S32(y))
    requires InRange(I32, x) && InRange(I32, y)
    ensures PlainArith(op, x, y, Eval(Binary(l, op, r), vars))
  {
    DintArithmetic(op, x, y);
    hide Arith; hide PlainArith;
  }

  /** Comparisons of DINTs are those of numbers. */
  lemma ComparisonSays(l: Expr, op: BinOp, r: Expr, vars: Store, x: int, y: int)
    requires IsCmp(op) && Eval(l, vars) == Some(S32(x)) && Eval(r, vars) == Some(S32(y))
    ensures EvalCond(Binary(l, op, r), vars) ==
            Some(match op case BEq => x == y case BNeq => x != y case BGt => x > y case BLt => x < y
                          case BGte => x >= y case _ => x <= y)
  {
    hide Eval;
  }

  /** A literal is the DINT that it wraps to, and minus is the difference from zero. */
  lemma LiteralSays(n: int, e: Expr, vars: Store, x: int)
    requires Eval(e, vars) == Some(S32(x)) && InRange(I32, x)
    ensures Eval(IntLiteral(n), vars) == Some(S32(Wrap(I32, n)))
    ensures Eval(Unary(UNeg, e), vars) == Some(S32(Wrap(I32, -x)))
  {
    hide Wrap;
  }

  // ----- ST loops -----

  function Plus(x: string, n: int): Expr { Binary(Variable(x), BAdd, IntLiteral(n)) }

  function Increment(x: string): Stmt { Assign(x, Plus(x, 1)) }

  function With(st: StState, x: string, v: int): StState {
    StState(st.vars[x := S32(v)], st.signals[x := S32(v)])
  }

  lemma IncrementSays(x: string, st: StState, v: int, fuel: nat)
    requires x in st.vars && st.vars[x] == S32(v) && -0x8000_0000 <= v < 0x7FFF_FFFF
    ensures ExecSeq([Increment(x)], st, fuel) == Normal(With(st, x, v + 1))
  {
    var e := Plus(x, 1);
    assert Eval(IntLiteral(1), st.vars) == Some(S32(1)) && Eval(Variable(x), st.vars) == Some(S32(v));
    assert NoClobber(e, x);
    NoClobberIsEval(e, x, st.vars);
    SumSays(x, st.vars, v);
    assert Exec(Increment(x), st, fuel) == Normal(With(st, x, v + 1));
    hide Exec; hide Eval; hide EvalInto;
    var ss := [Increment(x)];
    assert ss[..0] == [] && ExecSeq([], st, fuel) == Normal(st);
  }

  lemma SumSays(x: string, vars: Store, v: int)
    requires x in vars && vars[x] == S32(v) && -0x8000_0000 <= v < 0x7FFF_FFFF
    ensures Eval(Plus(x, 1), vars) == Some(S32(v + 1))
  {
    assert Eval(IntLiteral(1), vars) == Some(S32(1)) && Eval(Variable(x), vars) == Some(S32(v));
    ArithmeticSays(Variable(x), BAdd, IntLiteral(1), vars, v, 1);
  }

  lemma Below(x: string, op: BinOp, n: int, vars: Store, v: int)
    requires IsCmp(op) && x in vars && vars[x] == S32(v) && InRange(I32, n)
    ensures LoopVerdict(Binary(Variable(x), op, IntLiteral(n)), vars) ==
            Says(match op case BEq => v == n case BNeq => v != n case BGt => v > n case BLt => v < n
                          case BGte => v >= n case _ => v <= n)
  {
    var c := Binary(Variable(x), op, IntLiteral(n));
    assert Eval(IntLiteral(n), vars) == Some(S32(n)) && Eval(Variable(x), vars) == Some(S32(v));
    ComparisonSays(Variable(x), op, IntLiteral(n), vars, v, n);
    hide EvalCond; hide LoopVerdict; hide Eval;
    ComparisonNeverStrays(c, vars);
  }

  /** `WHILE x < n DO x := x + 1; END_WHILE` ends with the larger of x and n in x. */
  lemma {:induction false} WhileCountsUp(x: string, n: int, st: StState, v: int, fuel: nat)
    requires x in st.vars && st.vars[x] == S32(v) && InRange(I32, v) && InRange(I32, n) && fuel >= n - v
    ensures Exec(While(Binary(Variable(x), BLt, IntLiteral(n)), [Increment(x)]), st, fuel) ==
            Normal(if v < n then With(st, x, n) else st)
    decreases fuel
  {
    hide LoopVerdict; hide ExecSeq;
    Below(x, BLt, n, st.vars, v);
    if v < n {
      IncrementSays(x, st, v, fuel);
      var next := With(st, x, v + 1);
      WhileCountsUp(x, n, next, v + 1, fuel - 1);
      assert With(next, x, n) == With(st, x, n) by { Overwritten(st, x, v + 1, n); }
    }
  }

  lemma Overwritten(st: StState, x: string, u: int, w: int)
    ensures With(With(st, x, u), x, w) == With(st, x, w)
  {
  }

  /** `REPEAT x := x + 1; UNTIL x >= n END_REPEAT` takes its body at least once. */
  lemma {:induction false} RepeatCountsUp(x: string, n: int, st: StState, v: int, fuel: nat)
    requires x in st.vars && st.vars[x] == S32(v) && -0x8000_0000 <= v < 0x7FFF_FFFF && InRange(I32, n)
    requires fuel >= n - v
    ensures Exec(Repeat([Increment(x)], Binary(Variable(x), BGte, IntLiteral(n))), st, fuel) ==
            Normal(With(st, x, if v + 1 < n then n else v + 1))
    decreases fuel
  {
    hide LoopVerdict; hide ExecSeq;
    IncrementSays(x, st, v, fuel);
    var next := With(st, x, v + 1);
    Below(x, BGte, n, next.vars, v + 1);
    if v + 1 < n {
      RepeatCountsUp(x, n, next, v + 1, fuel - 1);
      Overwritten(st, x, v + 1, if v + 2 < n then n else v + 2);
    }
  }

  /** The states through which a FOR loop from `a` to `b` takes its body: x is a, a + 1, ..., b
      when the body begins, and the first number beyond b, but at least a, at the end. */
  function Swept(body: seq<Stmt>, x: string, st: StState, a: int, b: int, fuel: nat): Option<StState>
    decreases b - a
  {
    var here := Update(st, x, S32(a));
    if a > b then Some(here)
    else
      var r := ExecSeq(body, here, fuel);
      if r.Normal? && x in r.st.vars && r.st.vars[x] == S32(a) && fuel > 0 then Swept(body, x, r.st, a + 1, b, fuel - 1)
      else None
  }

  lemma ForTurn(s: Stmt, here: StState, a: int, b: int, fuel: nat)
    requires s.For? && s.end == IntLiteral(b) && s.step == None && InRange(I32, a) && InRange(I32, b) && a <= b
    requires s.variable in here.vars && here.vars[s.variable] == S32(a) && fuel > 0 && a < 0x7FFF_FFFF
    requires var r := ExecSeq(s.body, here, fuel);
             r.Normal? && s.variable in r.st.vars && r.st.vars[s.variable] == S32(a)
    ensures ExecFor(s, here, fuel) ==
            ExecFor(s, Update(ExecSeq(s.body, here, fuel).st, s.variable, S32(a + 1)), fuel - 1)
  {
    hide ExecSeq; hide Wrap;
    var r := ExecSeq(s.body, here, fuel);
    assert Eval(s.end, here.vars) == Some(S32(b));
    IntegerSums(I32, a, 1);
    assert StepValue(s.step, r.st.vars) == Some(S32(1));
    hide Arith; hide Eval; hide StepValue; hide Update;
    assert Compare(GtOp, S32(a), S32(b)) == (a > b);
    hide Compare;
  }

  lemma ForEnds(s: Stmt, here: StState, a: int, b: int, fuel: nat)
    requires s.For? && s.end == IntLiteral(b) && InRange(I32, b) && a > b
    requires s.variable in here.vars && here.vars[s.variable] == S32(a)
    ensures ExecFor(s, here, fuel) == Normal(here)
  {
    hide ExecSeq;
    assert Eval(s.end, here.vars) == Some(S32(b));
  }

  /** `FOR x := a TO b DO body END_FOR` takes the body once for every number from a to b, in
      order, if the body always ends and leaves x alone. */
  lemma {:induction false} ForCounts(s: Stmt, st: StState, a: int, b: int, fuel: nat)
    requires s.For? && s.end == IntLiteral(b) && s.step == None && InRange(I32, a) && InRange(I32, b) && b < 0x7FFF_FFFF
    requires Swept(s.body, s.variable, st, a, b, fuel).Some?
    ensures ExecFor(s, Update(st, s.variable, S32(a)), fuel) == Normal(Swept(s.body, s.variable, st, a, b, fuel).value)
    decreases fuel
  {
    hide ExecSeq; hide ExecFor;
    var here := Update(st, s.variable, S32(a));
    if a <= b {
      ForTurn(s, here, a, b, fuel);
      ForCounts(s, ExecSeq(s.body, here, fuel).st, a + 1, b, fuel - 1);
    } else {
      ForEnds(s, here, a, b, fuel);
    }
  }

  /** IF takes the part behind THEN for a comparison that holds, and the other one otherwise. */
  lemma IfSays(x: string, op: BinOp, n: int, t: seq<Stmt>, e: seq<Stmt>, st: StState, v: int, fuel: nat)
    requires IsCmp(op) && x in st.vars && st.vars[x] == S32(v) && InRange(I32, n)
    ensures var holds := match op case BEq => v == n case BNeq => v != n case BGt => v > n case BLt => v < n
                                  case BGte => v >= n case _ => v <= n;
            Exec(If(Binary(Variable(x), op, IntLiteral(n)), t, e), st, fuel) ==
            if holds then ExecSeq(t, st, fuel) else ExecSeq(e, st, fuel)
  {
    hide ExecSeq; hide LoopVerdict; hide IfVerdict; hide EvalCond;
    Below(x, op, n, st.vars, v);
    ComparisonNeverStrays(Binary(Variable(x), op, IntLiteral(n)), st.vars);
  }

  /** EXIT leaves the innermost loop, RETURN leaves the program from any depth. */
  lemma LeavingLoops(c: Expr, u: seq<Stmt>, w: seq<Stmt>, st: StState, mid: StState, fuel: nat)
    requires LoopVerdict(c, st.vars) == Says(true) && ExecSeq(u, st, fuel) == Normal(mid)
    ensures Exec(While(c, u + [Exit] + w), st, fuel) == Normal(mid)
    ensures Exec(Repeat(u + [Exit] + w, c), st, fuel) == Normal(mid)
    ensures Exec(While(c, u + [Return] + w), st, fuel) == Returned(mid)
    ensures Exec(Repeat(u + [Return] + w, c), st, fuel) == Returned(mid)
  {
    assert Exec(Exit, mid, fuel) == Exiting(mid) && Exec(Return, mid, fuel) == Returned(mid);
    hide LoopVerdict;
    OneMore(u, Exit, st, mid, fuel);
    OneMore(u, Return, st, mid, fuel);
    RestSkipped(u + [Exit], w, st, fuel);
    RestSkipped(u + [Return], w, st, fuel);
    hide ExecSeq;
  }

  lemma OneMore(u: seq<Stmt>, s: Stmt, st: StState, mid: StState, fuel: nat)
    requires ExecSeq(u, st, fuel) == Normal(mid)
    ensures ExecSeq(u + [s], st, fuel) == Exec(s, mid, fuel)
  {
    hide Exec;
    assert (u + [s])[..|u|] == u;
  }

  /** Nothing behind a statement that does not end normally is executed. */
  lemma {:induction false} RestSkipped(u: seq<Stmt>, w: seq<Stmt>, st: StState, fuel: nat)
    requires !ExecSeq(u, st, fuel).Normal?
    ensures ExecSeq(u + w, st, fuel) == ExecSeq(u, st, fuel)
  {
    hide Exec;
    if w == [] {
      assert u + w == u;
    } else {
      RestSkipped(u, w[..|w| - 1], st, fuel);
      assert (u + w)[..|u + w| - 1] == u + w[..|w| - 1];
    }
  }

  /** CASE takes the first arm that lists the value, the ELSE part without one. */
  lemma CaseSays(x: string, v: int, u: seq<Stmt>, w: seq<Stmt>, other: seq<Stmt>, st: StState, fuel: nat)
    requires x in st.vars && st.vars[x] == S32(v)
    ensures Exec(Case(x, [CaseArm([1], u), CaseArm([2, 1], w)], other), st, fuel) ==
            if v == 1 then ExecSeq(u, st, fuel) else if v == 2 then ExecSeq(w, st, fuel) else ExecSeq(other, st, fuel)
  {
    hide ExecSeq;
    var arms := [CaseArm([1], u), CaseArm([2, 1], w)];
    assert MatchesAny(S32(v), arms[0].values) <==> v == 1 by { ListsOne(v); }
    assert MatchesAny(S32(v), arms[1].values) <==> v == 2 || v == 1 by { ListsTwo(v); }
    hide MatchesAny;
    var i := FirstMatch(st.vars[x], arms);
  }

  lemma ListsOne(v: int)
    ensures MatchesAny(S32(v), [1]) <==> v == 1
  {
    assert [1][0] == 1 && Wrap(I32, 1) == 1;
  }

  lemma ListsTwo(v: int)
    ensures MatchesAny(S32(v), [2, 1]) <==> v == 2 || v == 1
  {
    assert [2, 1][0] == 2 && [2, 1][1] == 1 && Wrap(I32, 1) == 1 && Wrap(I32, 2) == 2;
  }

  // ----- IL statements -----

  /** Booleans: x is CR before, y the variable's signal. */
  lemma BooleansSay(v: string, signals: map<string, HalValue>, x: bool, y: bool)
    requires M.ReadSignal(signals, v) == Bool(y)
    ensures IL.Meant(IlLang.Load(v), Bool(x), signals) == Some(Bool(y))
    ensures IL.Meant(IlLang.LoadNot(v), Bool(x), signals) == Some(Bool(!y))
    ensures IL.Meant(IlLang.And(v), Bool(x), signals) == Some(Bool(x && y))
    ensures IL.Meant(IlLang.AndNot(v), Bool(x), signals) == Some(Bool(x && !y))
    ensures IL.Meant(IlLang.Or(v), Bool(x), signals) == Some(Bool(x || y))
    ensures IL.Meant(IlLang.OrNot(v), Bool(x), signals) == Some(Bool(x || !y))
    ensures IL.Meant(IlLang.Xor(v), Bool(x), signals) == Some(Bool(x != y))
    ensures IL.Meant(IlLang.Not, Bool(x), signals) == Some(Bool(!x))
  {
    hide M.ReadSignal;
  }

  /** DINTs: x is CR before, y the variable's signal. */
  lemma ComparisonsSay(v: string, signals: map<string, HalValue>, x: int, y: int)
    requires M.ReadSignal(signals, v) == S32(y)
    ensures IL.Meant(IlLang.Cmp(IlLang.CEq, v), S32(x), signals) == Some(Bool(x == y))
    ensures IL.Meant(IlLang.Cmp(IlLang.CNe, v), S32(x), signals) == Some(Bool(x != y))
    ensures IL.Meant(IlLang.Cmp(IlLang.CGt, v), S32(x), signals) == Some(Bool(x > y))
    ensures IL.Meant(IlLang.Cmp(IlLang.CGe, v), S32(x), signals) == Some(Bool(x >= y))
    ensures IL.Meant(IlLang.Cmp(IlLang.CLt, v), S32(x), signals) == Some(Bool(x < y))
    ensures IL.Meant(IlLang.Cmp(IlLang.CLe, v), S32(x), signals) == Some(Bool(x <= y))
  {
    hide M.ReadSignal;
  }

  lemma NumbersSay(v: string, signals: map<string, HalValue>, x: int, y: int)
    requires M.ReadSignal(signals, v) == S32(y) && InRange(I32, x) && InRange(I32, y)
    ensures IL.Meant(IlLang.Add(v), S32(x), signals) == Some(S32(Wrap(I32, x + y)))
    ensures IL.Meant(IlLang.Sub(v), S32(x), signals) == Some(S32(Wrap(I32, x - y)))
    ensures IL.Meant(IlLang.Mul(v), S32(x), signals) == Some(S32(Wrap(I32, x * y)))
    ensures y == 0 ==> IL.Meant(IlLang.Div(v), S32(x), signals) == IL.Meant(IlLang.Mod(v), S32(x), signals) ==
                       Some(S32(0))
    ensures y != 0 && !(x == -0x8000_0000 && y == -1) ==>
              exists q, r :: Divides(x, y, q, r) && IL.Meant(IlLang.Div(v), S32(x), signals) == Some(S32(q)) &&
                             IL.Meant(IlLang.Mod(v), S32(x), signals) == Some(S32(r))
  {
    hide M.ReadSignal; hide Wrap; hide TruncDiv; hide TruncRem; hide Divides; hide Times;
    if y != 0 && !(x == -0x8000_0000 && y == -1) {
      TruncatedDivision(x, y);
      QuotientInRange(x, y);
      RemainderInRange(x, y);
    }
  }

  /** Ten variables have registers of their own; what a program only stores needs none. */
  lemma TenVariables(ss: seq<IlLang.IlStmt>)
    ensures |IlLayout.VarsOf(ss)| <= IlLayout.MAX_IL_VARS <==> |IlLayout.VarsOf(ss)| <= 10
    ensures forall v :: v in IlLayout.VarsOf(ss) ==> exists i :: 0 <= i < |ss| && !ss[i].Store? && NamedBy(ss[i], v)
  {
    forall v | v in IlLayout.VarsOf(ss)
      ensures exists i :: 0 <= i < |ss| && !ss[i].Store? && NamedBy(ss[i], v)
    {
      NamedSomewhere(ss, v);
    }
  }

  predicate NamedBy(s: IlLang.IlStmt, v: string) { IlLayout.VarOf(s) == Some(v) }

  lemma {:induction false} NamedSomewhere(ss: seq<IlLang.IlStmt>, v: string)
    requires v in IlLayout.VarsOf(ss)
    ensures exists i :: 0 <= i < |ss| && !ss[i].Store? && NamedBy(ss[i], v)
  {
    var n := |ss| - 1;
    if NamedBy(ss[n], v) {
      assert !ss[n].Store?;
    } else {
      NamedSomewhere(ss[..n], v);
      var i :| 0 <= i < n && !ss[..n][i].Store? && NamedBy(ss[..n][i], v);
      assert ss[i] == ss[..n][i];
    }
  }

  /** Stores, jumps and the return: a store publishes CR, JMPC jumps on TRUE and JMPCN on
      anything else, to the last statement with the label or past the end. */
  lemma ControlSays(ss: seq<IlLang.IlStmt>, st: IL.IlState)
    requires st.pc < |ss|
    ensures var s, next := ss[st.pc], IL.IlStep(ss, st);
            && (s.Store? ==> next == IL.Running(IL.IlState(st.pc + 1, st.cr, st.signals[s.v := st.cr])))
            && (s.Jump? ==> next.Running? && Lands(ss, s.target, next.st.pc))
            && (s.JumpIf? && st.cr == Bool(true) ==> next.Running? && Lands(ss, s.target, next.st.pc))
            && (s.JumpIf? && st.cr != Bool(true) ==> next == IL.Running(st.(pc := st.pc + 1)))
            && (s.JumpIfNot? && st.cr != Bool(true) ==> next.Running? && Lands(ss, s.target, next.st.pc))
            && (s.JumpIfNot? && st.cr == Bool(true) ==> next == IL.Running(st.(pc := st.pc + 1)))
            && (s.Return? ==> next == IL.Done(st))
            && (s.Label? ==> next == IL.Running(st.(pc := st.pc + 1)))
  {
    hide IL.LabelPos;
    var s := ss[st.pc];
    if s.Jump? || s.JumpIf? || s.JumpIfNot? { LastLabel(ss, s.target); }
  }

  /** The last label of that name, or the end. */
  predicate Lands(ss: seq<IlLang.IlStmt>, l: string, pos: nat) {
    && (pos < |ss| ==> ss[pos] == IlLang.Label(l))
    && pos <= |ss|
    && forall i :: 0 <= i < |ss| && (i > pos || pos == |ss|) ==> ss[i] != IlLang.Label(l)
  }

  lemma {:induction false} LastLabel(ss: seq<IlLang.IlStmt>, l: string)
    ensures Lands(ss, l, match IL.LabelPos(ss, l) case Some(i) => i case None => |ss|)
  {
    if ss != [] && ss[|ss| - 1] != IlLang.Label(l) {
      var front := ss[..|ss| - 1];
      LastLabel(front, l);
      assert forall i :: 0 <= i < |front| ==> front[i] == ss[i];
    }
  }
}
