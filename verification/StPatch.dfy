/** Backpatching on instruction sequences: filling in the jumps at a list of
    addresses turns the code laid out with one target into the code laid out
    with another. */
module StPatch {
  import opened HalValues
  import opened StAst
  import opened Machine
  import opened StLayout

  function Retarget(inst: Instruction, target: nat): Instruction {
    inst.(operands := [Immediate(IntU32(target))])
  }

  /** `code`, which starts at address `base`, with every jump listed in `sites` sent to `target`. */
  function Patch(code: seq<Instruction>, base: nat, sites: seq<nat>, target: nat): seq<Instruction> {
    seq(|code|, i requires 0 <= i < |code| => if base + i in sites then Retarget(code[i], target) else code[i])
  }

  predicate Within(sites: seq<nat>, lo: nat, hi: nat) {
    forall k :: k in sites ==> lo <= k < hi
  }

  /** Patching the jumps of `before` at `sites`, all of which lie in it, gives `after`. */
  predicate Becomes(before: seq<Instruction>, at: nat, sites: seq<nat>, target: nat, after: seq<Instruction>) {
    && Within(sites, at, at + |before|)
    && Patch(before, at, sites, target) == after
  }

  lemma BecomesItself(code: seq<Instruction>, at: nat, target: nat)
    ensures Becomes(code, at, [], target, code)
  {
  }

  lemma JumpBecomes(at: nat, t0: nat, t: nat)
    ensures Becomes([JumpTo(t0)], at, [at], t, [JumpTo(t)])
    ensures Becomes([JumpIfTo(t0)], at, [at], t, [JumpIfTo(t)])
  {
  }

  lemma ConcatBecomes(a: seq<Instruction>, a': seq<Instruction>, sa: seq<nat>,
                      b: seq<Instruction>, b': seq<Instruction>, sb: seq<nat>, at: nat, target: nat)
    requires Becomes(a, at, sa, target, a') && Becomes(b, at + |a|, sb, target, b')
    ensures Becomes(a + b, at, sa + sb, target, a' + b')
  {
  }

  /** Untouched code before and after. */
  lemma MiddleBecomes(a: seq<Instruction>, b: seq<Instruction>, b': seq<Instruction>, sites: seq<nat>,
                      c: seq<Instruction>, at: nat, target: nat)
    requires Becomes(b, at + |a|, sites, target, b')
    ensures Becomes(a + b + c, at, sites, target, a + b' + c)
  {
    BecomesItself(a, at, target);
    ConcatBecomes(a, a, [], b, b', sites, at, target);
    BecomesItself(c, at + |a| + |b|, target);
    ConcatBecomes(a + b, a + b', sites, c, c, [], at, target);
    assert [] + sites + [] == sites;
  }

  // ----- conditions -----

  lemma {:induction false} CondLength(env: Env, e: Expr, at: nat, t0: nat, e0: nat)
    ensures |CondCode(env, e, at, t0, e0)| == |CondCode(env, e, at, 0, 0)|
    decreases e
  {
    hide ExprCode;
    match e
    case Binary(l, op, r) =>
      if op.BAnd? {
        CondLength(env, l, at, t0, e0);
        CondLength(env, r, at + |CondCode(env, l, at, 0, 0)|, t0, e0);
      } else if op.BOr? {
        var n := |CondCode(env, l, at, 0, 0)|;
        CondLength(env, l, at, at + n + 1, e0);
        CondLength(env, l, at, at + n + 1, 0);
        CondLength(env, r, at + n + 1, t0, e0);
      }
    case Unary(UNot, i) => CondLength(env, i, at, e0, t0);
    case _ =>
  }

  /** Filling in either list of open jumps gives the condition laid out for the new target. */
  lemma {:induction false} CondBecomes(env: Env, e: Expr, at: nat, t0: nat, e0: nat, t: nat)
    ensures Becomes(CondCode(env, e, at, t0, e0), at, ElseSites(env, e, at), t, CondCode(env, e, at, t, e0))
    ensures Becomes(CondCode(env, e, at, t0, e0), at, EndSites(env, e, at), t, CondCode(env, e, at, t0, t))
    decreases e
  {
    hide ExprCode; hide Becomes;
    match e
    case Binary(l, op, r) =>
      var n := |CondCode(env, l, at, 0, 0)|;
      if op.BAnd? {
        CondBecomes(env, l, at, t0, e0, t);
        CondLength(env, l, at, t0, e0);
        CondLength(env, l, at, t, e0);
        CondLength(env, l, at, t0, t);
        CondBecomes(env, r, at + n, t0, e0, t);
        var a, b := CondCode(env, l, at, t0, e0), CondCode(env, r, at + n, t0, e0);
        ConcatBecomes(a, CondCode(env, l, at, t, e0), ElseSites(env, l, at),
                      b, CondCode(env, r, at + n, t, e0), ElseSites(env, r, at + n), at, t);
        ConcatBecomes(a, CondCode(env, l, at, t0, t), EndSites(env, l, at),
                      b, CondCode(env, r, at + n, t0, t), EndSites(env, r, at + n), at, t);
      } else if op.BOr? {
        OrBecomes(env, l, r, at, t0, e0, t);
      } else if IsCmp(op) {
        LastJumpBecomes(CompareCode(env, e, 0, at), at, t0, t);
      } else {
        ValueCondBecomes(env, e, at, t0, t);
      }
    case Unary(UNot, i) => CondBecomes(env, i, at, e0, t0, t);
    case _ => ValueCondBecomes(env, e, at, t0, t);
  }

  lemma OrCode(env: Env, l: Expr, r: Expr, at: nat, t: nat, e: nat)
    ensures var n := |CondCode(env, l, at, 0, 0)|;
            CondCode(env, Binary(l, BOr, r), at, t, e) ==
            CondCode(env, l, at, at + n + 1, e) + [JumpTo(e)] + CondCode(env, r, at + n + 1, t, e)
  {
    hide ExprCode;
  }

  lemma OrBecomes(env: Env, l: Expr, r: Expr, at: nat, t0: nat, e0: nat, t: nat)
    ensures var e := Binary(l, BOr, r);
            && Becomes(CondCode(env, e, at, t0, e0), at, ElseSites(env, e, at), t, CondCode(env, e, at, t, e0))
            && Becomes(CondCode(env, e, at, t0, e0), at, EndSites(env, e, at), t, CondCode(env, e, at, t0, t))
    decreases Binary(l, BOr, r), 1
  {
    hide Becomes; hide CondCode; hide ElseSites; hide EndSites; hide CondStatus;
    OrLayout(env, Binary(l, BOr, r), at);
    OrCode(env, l, r, at, t0, e0);
    OrCode(env, l, r, at, t, e0);
    OrCode(env, l, r, at, t0, t);
    OrElseBecomes(env, l, r, at, t0, e0, t);
    OrEndBecomes(env, l, r, at, t0, e0, t);
  }

  lemma OrElseBecomes(env: Env, l: Expr, r: Expr, at: nat, t0: nat, e0: nat, t: nat)
    ensures var n := |CondCode(env, l, at, 0, 0)|;
            var a := CondCode(env, l, at, at + n + 1, e0) + [JumpTo(e0)];
            Becomes(a + CondCode(env, r, at + n + 1, t0, e0), at, ElseSites(env, r, at + n + 1), t,
                    a + CondCode(env, r, at + n + 1, t, e0))
    decreases Binary(l, BOr, r), 0
  {
    hide Becomes; hide CondCode; hide ElseSites; hide EndSites;
    var n := |CondCode(env, l, at, 0, 0)|;
    CondLength(env, l, at, at + n + 1, e0);
    CondBecomes(env, r, at + n + 1, t0, e0, t);
    var a := CondCode(env, l, at, at + n + 1, e0) + [JumpTo(e0)];
    BecomesItself(a, at, t);
    ConcatBecomes(a, a, [], CondCode(env, r, at + n + 1, t0, e0), CondCode(env, r, at + n + 1, t, e0),
                  ElseSites(env, r, at + n + 1), at, t);
    assert [] + ElseSites(env, r, at + n + 1) == ElseSites(env, r, at + n + 1);
  }

  lemma OrEndBecomes(env: Env, l: Expr, r: Expr, at: nat, t0: nat, e0: nat, t: nat)
    ensures var n := |CondCode(env, l, at, 0, 0)|;
            Becomes(CondCode(env, l, at, at + n + 1, e0) + [JumpTo(e0)] + CondCode(env, r, at + n + 1, t0, e0), at,
                    EndSites(env, l, at) + [at + n] + EndSites(env, r, at + n + 1), t,
                    CondCode(env, l, at, at + n + 1, t) + [JumpTo(t)] + CondCode(env, r, at + n + 1, t0, t))
    decreases Binary(l, BOr, r), 0
  {
    hide Becomes; hide CondCode; hide ElseSites; hide EndSites;
    var n := |CondCode(env, l, at, 0, 0)|;
    CondLength(env, l, at, at + n + 1, e0);
    CondBecomes(env, l, at, at + n + 1, e0, t);
    CondBecomes(env, r, at + n + 1, t0, e0, t);
    var a, a' := CondCode(env, l, at, at + n + 1, e0), CondCode(env, l, at, at + n + 1, t);
    JumpBecomes(at + n, e0, t);
    ConcatBecomes(a, a', EndSites(env, l, at), [JumpTo(e0)], [JumpTo(t)], [at + n], at, t);
    ConcatBecomes(a + [JumpTo(e0)], a' + [JumpTo(t)], EndSites(env, l, at) + [at + n],
                  CondCode(env, r, at + n + 1, t0, e0), CondCode(env, r, at + n + 1, t0, t),
                    EndSites(env, r, at + n + 1), at, t);
  }

  lemma OrLayout(env: Env, e: Expr, at: nat)
    requires e.Binary? && e.op.BOr?
    ensures var n := |CondCode(env, e.left, at, 0, 0)|;
            && CondStatus(env, e) == Then(CondStatus(env, e.left), CondStatus(env, e.right))
            && CondCode(env, e, at, 0, 0) ==
               CondCode(env, e.left, at, at + n + 1, 0) + [JumpTo(0)] + CondCode(env, e.right, at + n + 1, 0, 0)
            && ElseSites(env, e, at) == ElseSites(env, e.right, at + n + 1)
            && EndSites(env, e, at) == EndSites(env, e.left, at) + [at + n] + EndSites(env, e.right, at + n + 1)
  {
    hide ExprCode; hide ExprStatus;
  }

  lemma LastJumpBecomes(code: seq<Instruction>, at: nat, t0: nat, t: nat)
    ensures Becomes(code + [JumpIfTo(t0)], at, [at + |code|], t, code + [JumpIfTo(t)])
    ensures Becomes(code + [JumpIfTo(t0)], at, [], t, code + [JumpIfTo(t0)])
  {
  }

  lemma ValueCondBecomes(env: Env, e: Expr, at: nat, t0: nat, t: nat)
    ensures var last := at + |ValueCondCode(env, e, at, 0)| - 1;
            Becomes(ValueCondCode(env, e, at, t0), at, [last], t, ValueCondCode(env, e, at, t))
    ensures Becomes(ValueCondCode(env, e, at, t0), at, [], t, ValueCondCode(env, e, at, t0))
  {
    hide ExprCode;
    var code := ExprCode(env, e, Scratch(0), 1, at) +
      [LoadImm(Scratch(1), Bool(true)), Cmp2(Eq, Scratch(0), Scratch(1))];
    assert ValueCondCode(env, e, at, t0) == code + [JumpIfTo(t0)];
    assert ValueCondCode(env, e, at, t) == code + [JumpIfTo(t)];
    LastJumpBecomes(code, at, t0, t);
  }

  // ----- CASE comparison chains -----

  function ValueSites(reg: nat, values: seq<int>, at: nat): seq<nat> {
    if values == [] then []
    else
      var front := values[..|values| - 1];
      ValueSites(reg, front, at) + [at + |ValuesCode(reg, front, 0)| + 2]
  }

  lemma {:induction false} ValuesBecome(reg: nat, values: seq<int>, at: nat, t0: nat, t: nat)
    ensures |ValuesCode(reg, values, t0)| == |ValuesCode(reg, values, 0)|
    ensures Becomes(ValuesCode(reg, values, t0), at, ValueSites(reg, values, at), t, ValuesCode(reg, values, t))
  {
    if values != [] {
      var n := |values| - 1;
      ValuesBecome(reg, values[..n], at, t0, t);
      var code := [LoadImm(Scratch(0), S32(Wrap(I32, values[n]))), Cmp2(Eq, reg, Scratch(0))];
      var here := at + |ValuesCode(reg, values[..n], 0)|;
      LastJumpBecomes(code, here, t0, t);
      ConcatBecomes(ValuesCode(reg, values[..n], t0), ValuesCode(reg, values[..n], t), ValueSites(reg, values[..n], at),
                    code + [JumpIfTo(t0)], code + [JumpIfTo(t)], [here + 2], at, t);
      assert ValuesCode(reg, values, t0) == ValuesCode(reg, values[..n], t0) + (code + [JumpIfTo(t0)]);
      assert ValuesCode(reg, values, t) == ValuesCode(reg, values[..n], t) + (code + [JumpIfTo(t)]);
    }
  }

  // ----- statements: the jumps of EXIT, and the jumps that end CASE arms -----

  /** Addresses of the EXIT jumps of a statement that leave its enclosing loop. */
  function ExitSites(env: Env, s: Stmt, at: nat): seq<nat>
    decreases s
  {
    match s
    case Exit => [at]
    case If(c, t, e) =>
      var thenAt := at + |CondCode(env, c, at, 0, 0)| + 1;
      SeqExitSites(env, t, thenAt) + SeqExitSites(env, e, thenAt + |SeqCode(env, t, thenAt, 0)| + 1)
    case Case(x, arms, e) =>
      ArmsExitSites(env, RegOf(env, x), arms, at) +
      SeqExitSites(env, e, at + |ArmsCode(env, RegOf(env, x), arms, at, 0, 0)|)
    case _ => []
  }

  function SeqExitSites(env: Env, ss: seq<Stmt>, at: nat): seq<nat>
    decreases ss
  {
    if ss == [] then []
    else
      var front := ss[..|ss| - 1];
      SeqExitSites(env, front, at) + ExitSites(env, ss[|ss| - 1], at + |SeqCode(env, front, at, 0)|)
  }

  function ArmBodyAt(reg: nat, arm: CaseArm, at: nat): nat { at + |ValuesCode(reg, arm.values, 0)| + 1 }

  function ArmsExitSites(env: Env, reg: nat, arms: seq<CaseArm>, at: nat): seq<nat>
    decreases arms
  {
    if arms == [] then []
    else
      var front, last := arms[..|arms| - 1], arms[|arms| - 1];
      ArmsExitSites(env, reg, front, at) +
      SeqExitSites(env, last.body, ArmBodyAt(reg, last, at + |ArmsCode(env, reg, front, at, 0, 0)|))
  }

  /** Addresses of the jumps that end the arms. */
  function DoneSites(env: Env, reg: nat, arms: seq<CaseArm>, at: nat): seq<nat> {
    if arms == [] then []
    else
      var front, last := arms[..|arms| - 1], arms[|arms| - 1];
      var bodyAt := ArmBodyAt(reg, last, at + |ArmsCode(env, reg, front, at, 0, 0)|);
      DoneSites(env, reg, front, at) + [bodyAt + |SeqCode(env, last.body, bodyAt, 0)|]
  }

  lemma {:induction false} StmtLength(env: Env, s: Stmt, at: nat, x: nat)
    ensures |StmtCode(env, s, at, x)| == |StmtCode(env, s, at, 0)|
    decreases s, 1
  {
    hide StmtCode;
    if s.If? {
      IfLength(env, s, at, x);
    } else if s.Case? {
      CaseLength(env, s, at, x);
    } else {
      OtherLength(env, s, at, x);
    }
  }

  lemma OtherLength(env: Env, s: Stmt, at: nat, x: nat)
    requires !s.If? && !s.Case?
    ensures |StmtCode(env, s, at, x)| == |StmtCode(env, s, at, 0)|
  {
    hide ExprCode; hide CondCode; hide SeqCode; hide ArmsCode;
  }

  lemma {:induction false} IfLength(env: Env, s: Stmt, at: nat, x: nat)
    requires s.If?
    ensures |StmtCode(env, s, at, x)| == |StmtCode(env, s, at, 0)|
    decreases s, 0
  {
    hide ExprCode; hide CondCode; hide SeqCode; hide ArmsCode;
    var thenAt := at + |CondCode(env, s.cond, at, 0, 0)| + 1;
    SeqLength(env, s.thenBody, thenAt, x);
    var elseAt := thenAt + |SeqCode(env, s.thenBody, thenAt, 0)| + 1;
    SeqLength(env, s.elseBody, elseAt, x);
    CondLength(env, s.cond, at, thenAt, thenAt);
  }

  lemma {:induction false} CaseLength(env: Env, s: Stmt, at: nat, x: nat)
    requires s.Case?
    ensures |StmtCode(env, s, at, x)| == |StmtCode(env, s, at, 0)|
    decreases s, 0
  {
    hide ExprCode; hide CondCode; hide SeqCode; hide ArmsCode;
    var reg := RegOf(env, s.variable);
    var an := |ArmsCode(env, reg, s.arms, at, 0, 0)|;
    SeqLength(env, s.elseBody, at + an, x);
    ArmsLength(env, reg, s.arms, at, x, at + an + |SeqCode(env, s.elseBody, at + an, 0)|);
    ArmsLength(env, reg, s.arms, at, 0, at + an + |SeqCode(env, s.elseBody, at + an, 0)|);
  }

  lemma {:induction false} SeqLength(env: Env, ss: seq<Stmt>, at: nat, x: nat)
    ensures |SeqCode(env, ss, at, x)| == |SeqCode(env, ss, at, 0)|
    decreases ss
  {
    hide StmtCode;
    if ss != [] {
      SeqLength(env, ss[..|ss| - 1], at, x);
      StmtLength(env, ss[|ss| - 1], at + |SeqCode(env, ss[..|ss| - 1], at, 0)|, x);
    }
  }

  lemma {:induction false} ArmsLength(env: Env, reg: nat, arms: seq<CaseArm>, at: nat, x: nat, done: nat)
    ensures |ArmsCode(env, reg, arms, at, x, done)| == |ArmsCode(env, reg, arms, at, 0, 0)|
    decreases arms
  {
    hide SeqCode;
    if arms != [] {
      var arm := arms[|arms| - 1];
      ArmsLength(env, reg, arms[..|arms| - 1], at, x, done);
      var here := at + |ArmsCode(env, reg, arms[..|arms| - 1], at, 0, 0)|;
      SeqLength(env, arm.body, ArmBodyAt(reg, arm, here), x);
      ValuesBecome(reg, arm.values, here, ArmBodyAt(reg, arm, here), 0);
    }
  }

  /** Patching the EXIT jumps of a statement gives the statement laid out for that exit. */
  lemma {:induction false} StmtBecomes(env: Env, s: Stmt, at: nat, x0: nat, x: nat)
    ensures Becomes(StmtCode(env, s, at, x0), at, ExitSites(env, s, at), x, StmtCode(env, s, at, x))
    decreases s
  {
    hide ExprCode; hide CondCode; hide Becomes; hide SeqCode; hide ArmsCode;
    match s
    case Exit => JumpBecomes(at, x0, x);
    case If(c, t, e) =>
      var thenAt := at + |CondCode(env, c, at, 0, 0)| + 1;
      CondLength(env, c, at, thenAt, thenAt);
      SeqLength(env, t, thenAt, x0);
      SeqLength(env, t, thenAt, x);
      var tc, tc' := SeqCode(env, t, thenAt, x0), SeqCode(env, t, thenAt, x);
      var elseAt := thenAt + |tc| + 1;
      SeqLength(env, e, elseAt, x0);
      SeqLength(env, e, elseAt, x);
      SeqBecomes(env, t, thenAt, x0, x);
      SeqBecomes(env, e, elseAt, x0, x);
      var ec, ec' := SeqCode(env, e, elseAt, x0), SeqCode(env, e, elseAt, x);
      var head := CondCode(env, c, at, thenAt, thenAt) + [JumpTo(elseAt)];
      var mid := [JumpTo(elseAt + |ec|)];
      MiddleBecomes(head, tc, tc', SeqExitSites(env, t, thenAt), mid, at, x);
      ConcatBecomes(head + tc + mid, head + tc' + mid, SeqExitSites(env, t, thenAt),
                    ec, ec', SeqExitSites(env, e, elseAt), at, x);
    case Case(v, arms, e) =>
      var reg := RegOf(env, v);
      var an := |ArmsCode(env, reg, arms, at, 0, 0)|;
      SeqLength(env, e, at + an, x0);
      SeqLength(env, e, at + an, x);
      var done := at + an + |SeqCode(env, e, at + an, 0)|;
      ArmsLength(env, reg, arms, at, x0, done);
      ArmsBecome(env, reg, arms, at, x0, x, done);
      SeqBecomes(env, e, at + an, x0, x);
      ConcatBecomes(ArmsCode(env, reg, arms, at, x0, done), ArmsCode(env, reg, arms, at, x, done),
                    ArmsExitSites(env, reg, arms, at),
                    SeqCode(env, e, at + an, x0), SeqCode(env, e, at + an, x), SeqExitSites(env, e, at + an), at, x);
    case _ => BecomesItself(StmtCode(env, s, at, x0), at, x);
  }

  lemma {:induction false} SeqBecomes(env: Env, ss: seq<Stmt>, at: nat, x0: nat, x: nat)
    ensures Becomes(SeqCode(env, ss, at, x0), at, SeqExitSites(env, ss, at), x, SeqCode(env, ss, at, x))
    decreases ss
  {
    hide StmtCode; hide Becomes;
    if ss == [] {
      BecomesItself([], at, x);
    } else {
      var front, last := ss[..|ss| - 1], ss[|ss| - 1];
      SeqLength(env, front, at, x0);
      SeqLength(env, front, at, x);
      var here := at + |SeqCode(env, front, at, 0)|;
      SeqBecomes(env, front, at, x0, x);
      StmtBecomes(env, last, here, x0, x);
      ConcatBecomes(SeqCode(env, front, at, x0), SeqCode(env, front, at, x), SeqExitSites(env, front, at),
                    StmtCode(env, last, here, x0), StmtCode(env, last, here, x), ExitSites(env, last, here), at, x);
    }
  }

  lemma {:induction false} ArmsBecome(env: Env, reg: nat, arms: seq<CaseArm>, at: nat, x0: nat, x: nat, done: nat)
    ensures Becomes(ArmsCode(env, reg, arms, at, x0, done), at, ArmsExitSites(env, reg, arms, at), x,
                    ArmsCode(env, reg, arms, at, x, done))
    decreases arms
  {
    hide SeqCode; hide Becomes; hide ValuesCode;
    if arms == [] {
      BecomesItself([], at, x);
    } else {
      var front, arm := arms[..|arms| - 1], arms[|arms| - 1];
      ArmsLength(env, reg, front, at, x0, done);
      ArmsLength(env, reg, front, at, x, done);
      var here := at + |ArmsCode(env, reg, front, at, 0, 0)|;
      ArmsBecome(env, reg, front, at, x0, x, done);
      ArmBecomes(env, reg, arm, here, x0, x, done);
      ConcatBecomes(ArmsCode(env, reg, front, at, x0, done), ArmsCode(env, reg, front, at, x, done),
                    ArmsExitSites(env, reg, front, at),
                    ArmCode(env, reg, arm, here, x0, done), ArmCode(env, reg, arm, here, x, done),
                    SeqExitSites(env, arm.body, ArmBodyAt(reg, arm, here)), at, x);
    }
  }

  lemma {:induction false} ArmBecomes(env: Env, reg: nat, arm: CaseArm, at: nat, x0: nat, x: nat, done: nat)
    ensures Becomes(ArmCode(env, reg, arm, at, x0, done), at, SeqExitSites(env, arm.body, ArmBodyAt(reg, arm, at)), x,
                    ArmCode(env, reg, arm, at, x, done))
    decreases arm
  {
    hide SeqCode; hide Becomes;
    var bodyAt := ArmBodyAt(reg, arm, at);
    ValuesBecome(reg, arm.values, at, bodyAt, 0);
    SeqLength(env, arm.body, bodyAt, x0);
    SeqLength(env, arm.body, bodyAt, x);
    SeqBecomes(env, arm.body, bodyAt, x0, x);
    var head := ValuesCode(reg, arm.values, bodyAt) + [JumpTo(bodyAt + |SeqCode(env, arm.body, bodyAt, 0)| + 1)];
    MiddleBecomes(head, SeqCode(env, arm.body, bodyAt, x0), SeqCode(env, arm.body, bodyAt, x),
                  SeqExitSites(env, arm.body, bodyAt), [JumpTo(done)], at, x);
  }

  /** Patching the jumps that end the arms gives the arms laid out for that end. */
  lemma {:induction false} ArmsDone(env: Env, reg: nat, arms: seq<CaseArm>, at: nat, x: nat, d0: nat, d: nat)
    ensures Becomes(ArmsCode(env, reg, arms, at, x, d0), at, DoneSites(env, reg, arms, at), d,
                    ArmsCode(env, reg, arms, at, x, d))
    decreases arms
  {
    hide SeqCode; hide Becomes; hide ValuesCode;
    if arms == [] {
      BecomesItself([], at, d);
    } else {
      var front, arm := arms[..|arms| - 1], arms[|arms| - 1];
      ArmsLength(env, reg, front, at, x, d0);
      ArmsLength(env, reg, front, at, x, d);
      var here := at + |ArmsCode(env, reg, front, at, 0, 0)|;
      ArmsDone(env, reg, front, at, x, d0, d);
      var bodyAt := ArmBodyAt(reg, arm, here);
      ValuesBecome(reg, arm.values, here, bodyAt, 0);
      SeqLength(env, arm.body, bodyAt, x);
      var code := ValuesCode(reg, arm.values, bodyAt) + [JumpTo(bodyAt + |SeqCode(env, arm.body, bodyAt, x)| + 1)] +
                  SeqCode(env, arm.body, bodyAt, x);
      assert ArmCode(env, reg, arm, here, x, d0) == code + [JumpTo(d0)];
      assert ArmCode(env, reg, arm, here, x, d) == code + [JumpTo(d)];
      BecomesItself(code, here, d);
      JumpBecomes(here + |code|, d0, d);
      ConcatBecomes(code, code, [], [JumpTo(d0)], [JumpTo(d)], [here + |code|], here, d);
      assert [] + [here + |code|] == [here + |code|];
      ConcatBecomes(ArmsCode(env, reg, front, at, x, d0), ArmsCode(env, reg, front, at, x, d),
                    DoneSites(env, reg, front, at),
                    code + [JumpTo(d0)], code + [JumpTo(d)], [here + |code|], at, d);
    }
  }
}
