/** What DINT programs mean: expressions, and a big-step evaluator for statements.
    Arithmetic is the value domain's own. */
module StSemantics {
  import opened HalValues
  import opened StAst

  function OpOf(op: BinOp): ArithOp {
    match op
    case BAdd => AddOp case BSub => SubOp case BMul => MulOp case BDiv => DivOp case _ => ModOp
  }

  function CmpOpOf(op: BinOp): CmpOp {
    match op
    case BEq => EqOp case BNeq => NeqOp case BGt => GtOp case BLt => LtOp case BGte => GteOp case _ => LteOp
  }

  type Store = map<string, HalValue>

  /** The value of an arithmetic expression; `None` when the arithmetic panics. */
  function Eval(e: Expr, vars: Store): Option<HalValue> {
    match e
    case IntLiteral(i) => Some(S32(Wrap(I32, i)))
    case Variable(x) => if x in vars then Some(vars[x]) else None
    case Binary(l, op, r) =>
      var a, b := Eval(l, vars), Eval(r, vars);
      if a.Some? && b.Some? then Arith(OpOf(op), a.value, b.value) else None
    case Unary(UNeg, i) =>
      var a := Eval(i, vars);
      if a.Some? then Some(Negate(a.value)) else None
    case _ => None
  }

  /** The value computed when every intermediate result of the left spine is
      written to variable `x` before the right operand is read. */
  function EvalInto(e: Expr, x: string, vars: Store): Option<HalValue> {
    match e
    case Binary(l, op, r) =>
      var a := EvalInto(l, x, vars);
      if a.None? then None
      else
        var b := Eval(r, vars[x := a.value]);
        if b.None? then None else Arith(OpOf(op), a.value, b.value)
    case Unary(UNeg, i) =>
      var a := EvalInto(i, x, vars);
      if a.Some? then Some(Negate(a.value)) else None
    case _ => Eval(e, vars)
  }

  function Reads(e: Expr): set<string> {
    match e
    case Variable(x) => {x}
    case Binary(l, _, r) => Reads(l) + Reads(r)
    case Unary(_, i) => Reads(i)
    case _ => {}
  }

  /** `x` is not read after it has been overwritten: no right operand mentions it,
      unless the left operand is the bare variable `x` itself. */
  predicate NoClobber(e: Expr, x: string) {
    match e
    case Binary(l, _, r) => NoClobber(l, x) && (x !in Reads(r) || l == Variable(x))
    case Unary(_, i) => NoClobber(i, x)
    case _ => true
  }

  lemma {:induction false} EvalIgnoresUnread(e: Expr, vars: Store, x: string, v: HalValue)
    requires x !in Reads(e)
    ensures Eval(e, vars[x := v]) == Eval(e, vars)
  {
    match e
    case Binary(l, _, r) => EvalIgnoresUnread(l, vars, x, v); EvalIgnoresUnread(r, vars, x, v);
    case Unary(_, i) => EvalIgnoresUnread(i, vars, x, v);
    case _ =>
  }

  /** Without a clobbered read, writing intermediate results into the target changes nothing. */
  lemma {:induction false} NoClobberIsEval(e: Expr, x: string, vars: Store)
    requires NoClobber(e, x)
    ensures EvalInto(e, x, vars) == Eval(e, vars)
  {
    match e
    case Binary(l, _, r) =>
      NoClobberIsEval(l, x, vars);
      var a := EvalInto(l, x, vars);
      if a.Some? {
        if l == Variable(x) {
          assert vars[x := a.value] == vars;
        } else {
          EvalIgnoresUnread(r, vars, x, a.value);
        }
      }
    case Unary(_, i) => NoClobberIsEval(i, x, vars);
    case _ =>
  }

  lemma Joined(l: Expr, op: BinOp, r: Expr, x: string, vars: Store, a: HalValue)
    requires NoClobber(l, x) && Eval(l, vars) == Some(a)
    ensures var e, b, c := Binary(l, op, r), Eval(r, vars), Eval(r, vars[x := a]);
            && EvalInto(e, x, vars) == (if c.Some? then Arith(OpOf(op), a, c.value) else None)
            && Eval(e, vars) == (if b.Some? then Arith(OpOf(op), a, b.value) else None)
  {
    hide Arith;
    NoClobberIsEval(l, x, vars);
  }

  /** One clobbered read, exactly. In `x := l op r` the right operand is read with `x` already
      at the left one's value a: c where it should be b. A sum or difference is right if and
      only if both are the same, a product if and only if a takes their difference to a
      multiple of the type's range. */
  lemma ClobberedExactly(l: Expr, op: BinOp, r: Expr, x: string, vars: Store, a: int, b: int, c: int)
    requires NoClobber(l, x) && Eval(l, vars) == Some(S32(a))
    requires Eval(r, vars) == Some(S32(b)) && Eval(r, vars[x := S32(a)]) == Some(S32(c))
    requires InRange(I32, a) && InRange(I32, b) && InRange(I32, c)
    ensures var same := EvalInto(Binary(l, op, r), x, vars) == Eval(Binary(l, op, r), vars);
            && (op.BAdd? || op.BSub? ==> (same <==> c == b))
            && (op.BMul? ==> (same <==> (a * (c - b)) % RangeSize(I32) == 0))
  {
    hide Wrap; hide RangeSize; hide Arith; hide Eval; hide EvalInto; hide NoClobber;
    Joined(l, op, r, x, vars, S32(a));
    IntegerSums(I32, a, b);
    IntegerSums(I32, a, c);
    IntegerProduct(I32, a, b);
    IntegerProduct(I32, a, c);
    WrapSame(I32, a + c, a + b);
    WrapSame(I32, a - c, a - b);
    WrapSame(I32, a * c, a * b);
    assert a * c - a * b == a * (c - b);
    SmallDifference(I32, c, b);
  }

  /** So `x := l + x` and `x := l - x` are right if and only if l already has the value of x,
      and `x := l * x` if and only if l takes the difference to a multiple of the range. */
  lemma OwnOperandExactly(l: Expr, op: BinOp, x: string, vars: Store, a: int)
    requires NoClobber(l, x) && Eval(l, vars) == Some(S32(a)) && InRange(I32, a)
    requires x in vars && IsDint(vars[x])
    ensures var same := EvalInto(Binary(l, op, Variable(x)), x, vars) == Eval(Binary(l, op, Variable(x)), vars);
            && (op.BAdd? || op.BSub? ==> (same <==> Eval(l, vars) == Some(vars[x])))
            && (op.BMul? ==> (same <==> (a * (a - vars[x].n)) % RangeSize(I32) == 0))
  {
    hide EvalInto; hide NoClobber; hide RangeSize;
    assert Eval(Variable(x), vars) == Some(vars[x]) && Eval(Variable(x), vars[x := S32(a)]) == Some(S32(a));
    hide Eval;
    ClobberedExactly(l, op, Variable(x), x, vars, a, vars[x].n, a);
  }

  /** `x := l / x` is right if and only if l is zero, or its quotient by x is 1 as it is by
      itself. */
  lemma OwnDivisorExactly(l: Expr, x: string, vars: Store, a: int)
    requires NoClobber(l, x) && Eval(l, vars) == Some(S32(a)) && InRange(I32, a)
    requires x in vars && IsDint(vars[x])
    ensures EvalInto(Binary(l, BDiv, Variable(x)), x, vars) == Eval(Binary(l, BDiv, Variable(x)), vars) <==>
            var v := vars[x].n;
            a == 0 || (v != 0 && (a < 0) == (v < 0) && Magnitude(v) <= Magnitude(a) < 2 * Magnitude(v))
  {
    var v := vars[x].n;
    assert Eval(Variable(x), vars) == Some(S32(v)) && Eval(Variable(x), vars[x := S32(a)]) == Some(S32(a));
    hide EvalInto; hide Eval; hide NoClobber; hide Arith;
    Joined(l, BDiv, Variable(x), x, vars, S32(a));
    QuotientValue(a, v);
    QuotientValue(a, a);
  }

  /** Quotients that are 0 or 1. */
  lemma QuotientValue(a: int, b: int)
    requires InRange(I32, a) && InRange(I32, b)
    ensures var q := Arith(DivOp, S32(a), S32(b));
            && (a == 0 || b == 0 ==> q == Some(S32(0)))
            && (a != 0 && b != 0 ==>
                  (q == Some(S32(1)) <==>
                   (a < 0) == (b < 0) && Magnitude(b) <= Magnitude(a) < 2 * Magnitude(b)))
  {
    hide TruncDiv; hide Wrap; hide Times;
    if b != 0 {
      UnitQuotient(a, b);
      ZeroQuotient(b);
      if !(a == IntMin(I32) && b == -1) { QuotientInRange(a, b); }
    }
  }

  /** `x := l MOD x` is right if and only if x is zero or divides l without overflow. */
  lemma OwnModulusExactly(l: Expr, x: string, vars: Store, a: int)
    requires NoClobber(l, x) && Eval(l, vars) == Some(S32(a)) && InRange(I32, a)
    requires x in vars && IsDint(vars[x])
    ensures EvalInto(Binary(l, BMod, Variable(x)), x, vars) == Eval(Binary(l, BMod, Variable(x)), vars) <==>
            var v := vars[x].n;
            v == 0 || (TruncRem(a, v) == 0 && !(a == IntMin(I32) && v == -1))
  {
    var v := vars[x].n;
    assert Eval(Variable(x), vars) == Some(S32(v)) && Eval(Variable(x), vars[x := S32(a)]) == Some(S32(a));
    hide EvalInto; hide Eval; hide NoClobber; hide TruncRem; hide Arith;
    Joined(l, BMod, Variable(x), x, vars, S32(a));
    ModuloIsZero(a, v);
    ModuloIsZero(a, a);
    if a != 0 { OwnRemainder(a); }
  }

  lemma ModuloIsZero(a: int, b: int)
    requires InRange(I32, a) && InRange(I32, b)
    ensures Arith(ModOp, S32(a), S32(b)) == Some(S32(0)) <==>
            b == 0 || (TruncRem(a, b) == 0 && !(a == IntMin(I32) && b == -1))
  {
    hide TruncRem; hide Wrap; hide Times;
    if b != 0 { TruncRemIs(a, b); }
  }

  lemma OwnRemainder(a: int)
    requires a != 0
    ensures TruncRem(a, a) == 0
  {
    hide TruncDiv;
    OwnQuotient(a);
  }

  /** The shortest case: `x := 1 + x` computes 2 whatever x was. */
  lemma ClobberedRead()
    ensures EvalInto(Binary(IntLiteral(1), BAdd, Variable("x")), "x", map["x" := S32(5)]) == Some(S32(2))
    ensures Eval(Binary(IntLiteral(1), BAdd, Variable("x")), map["x" := S32(5)]) == Some(S32(6))
  {
    hide Arith; hide Wrap;
    IntegerSums(I32, 1, 1);
    IntegerSums(I32, 1, 5);
    var five, one: Store := map["x" := S32(5)], map["x" := S32(1)];
    assert five["x" := S32(1)] == one && Eval(Variable("x"), one) == Some(S32(1));
    assert EvalInto(IntLiteral(1), "x", five) == Some(S32(1)) && Eval(Variable("x"), five) == Some(S32(5));
  }

  // ----- conditions -----

  /** What a condition says: comparisons joined by AND and OR and negated by NOT. `None` when
      the arithmetic of an operand panics. */
  function EvalCond(c: Expr, vars: Store): Option<bool> {
    match c
    case Binary(l, op, r) =>
      if op.BAnd? || op.BOr? then
        var a, b := EvalCond(l, vars), EvalCond(r, vars);
        if a.None? || b.None? then None
        else Some(if op.BAnd? then a.value && b.value else a.value || b.value)
      else
        var a, b := Eval(l, vars), Eval(r, vars);
        if a.Some? && b.Some? then Some(Compare(CmpOpOf(op), a.value, b.value)) else None
    case Unary(UNot, i) =>
      var a := EvalCond(i, vars);
      if a.Some? then Some(!a.value) else None
    case _ => None
  }

  /** Where the code of a condition goes on: at one of the two targets for which its jumps
      are collected, or past its end. */
  datatype Way = ToElse | ToEnd | Through

  /** A comparison that holds jumps to the first target. AND joins the jumps of its operands.
      OR sends the first jumps of its left operand on to the right one, and everything else
      to the second target. NOT swaps the targets. */
  function CondWay(c: Expr, vars: Store): Option<Way> {
    match c
    case Binary(l, op, r) =>
      if op.BAnd? then
        var w := CondWay(l, vars);
        if w == Some(Through) then CondWay(r, vars) else w
      else if op.BOr? then
        var w := CondWay(l, vars);
        if w == Some(ToElse) then CondWay(r, vars) else if w.Some? then Some(ToEnd) else None
      else
        var a, b := Eval(l, vars), Eval(r, vars);
        if a.Some? && b.Some? then Some(if Compare(CmpOpOf(op), a.value, b.value) then ToElse else Through) else None
    case Unary(UNot, i) =>
      var w := CondWay(i, vars);
      if w.Some? then Some(Swapped(w.value)) else None
    case _ => None
  }

  function Swapped(w: Way): Way {
    match w
    case ToElse => ToEnd
    case ToEnd => ToElse
    case Through => Through
  }

  /** A condition's code does what the condition says, panics, or goes another way. */
  datatype Verdict = Says(b: bool) | Faults | Strays

  /** In IF both targets are the THEN branch. */
  function IfVerdict(c: Expr, vars: Store): Verdict {
    match CondWay(c, vars)
    case None => Faults
    case Some(w) => if EvalCond(c, vars) == Some(!w.Through?) then Says(!w.Through?) else Strays
  }

  /** In WHILE and REPEAT the second target stays instruction 0: going there is never right. */
  function LoopVerdict(c: Expr, vars: Store): Verdict {
    match CondWay(c, vars)
    case None => Faults
    case Some(w) => if !w.ToEnd? && EvalCond(c, vars) == Some(w.ToElse?) then Says(w.ToElse?) else Strays
  }

  predicate IsComparison(c: Expr) { c.Binary? && IsCmp(c.op) }

  lemma ComparisonNeverStrays(c: Expr, vars: Store)
    requires IsComparison(c)
    ensures !IfVerdict(c, vars).Strays? && !LoopVerdict(c, vars).Strays?
    ensures IfVerdict(c, vars) == LoopVerdict(c, vars) ==
            match EvalCond(c, vars) case Some(b) => Says(b) case None => Faults
  {
  }

  predicate BranchTaken(c: Expr, vars: Store) { CondWay(c, vars).Some? && !CondWay(c, vars).value.Through? }

  /** What IF reads: AND as OR, OR behind a comparison as implication, NOT as nothing. */
  lemma WhatIfReads(l: Expr, r: Expr, vars: Store)
    requires CondWay(l, vars).Some? && CondWay(r, vars).Some?
    ensures BranchTaken(Binary(l, BAnd, r), vars) <==> BranchTaken(l, vars) || BranchTaken(r, vars)
    ensures IsComparison(l) ==> (BranchTaken(Binary(l, BOr, r), vars) <==>
                                 (BranchTaken(l, vars) ==> BranchTaken(r, vars)))
    ensures BranchTaken(Unary(UNot, l), vars) <==> BranchTaken(l, vars)
  {
  }

  lemma IfStrays(c: Expr, vars: Store)
    requires CondWay(c, vars).Some? && EvalCond(c, vars).Some?
    ensures IfVerdict(c, vars).Strays? <==> BranchTaken(c, vars) != EvalCond(c, vars).value
  {
    hide CondWay; hide EvalCond;
  }

  predicate HasWay(c: Expr, vars: Store) { CondWay(c, vars).Some? && EvalCond(c, vars).Some? }

  lemma AndWay(l: Expr, r: Expr, vars: Store)
    requires HasWay(l, vars) && HasWay(r, vars)
    ensures CondWay(Binary(l, BAnd, r), vars) ==
            if CondWay(l, vars) == Some(Through) then CondWay(r, vars) else CondWay(l, vars)
    ensures EvalCond(Binary(l, BAnd, r), vars) == Some(EvalCond(l, vars).value && EvalCond(r, vars).value)
  {
    hide Eval; hide Compare;
  }

  lemma OrWay(l: Expr, r: Expr, vars: Store)
    requires HasWay(l, vars) && HasWay(r, vars)
    ensures CondWay(Binary(l, BOr, r), vars) ==
            if CondWay(l, vars) == Some(ToElse) then CondWay(r, vars) else Some(ToEnd)
    ensures EvalCond(Binary(l, BOr, r), vars) == Some(EvalCond(l, vars).value || EvalCond(r, vars).value)
  {
    hide Eval; hide Compare;
  }

  lemma NotWay(l: Expr, vars: Store)
    requires HasWay(l, vars)
    ensures CondWay(Unary(UNot, l), vars) == Some(Swapped(CondWay(l, vars).value))
    ensures EvalCond(Unary(UNot, l), vars) == Some(!EvalCond(l, vars).value)
  {
    hide Eval; hide Compare;
  }

  lemma WaysJoined(l: Expr, r: Expr, vars: Store)
    requires HasWay(l, vars) && HasWay(r, vars)
    ensures var v, w, a, b :=
              CondWay(l, vars).value, CondWay(r, vars).value, EvalCond(l, vars).value, EvalCond(r, vars).value;
            && CondWay(Binary(l, BAnd, r), vars) == Some(if v.Through? then w else v)
            && CondWay(Binary(l, BOr, r), vars) == Some(if v.ToElse? then w else ToEnd)
            && CondWay(Unary(UNot, l), vars) == Some(Swapped(v))
            && EvalCond(Binary(l, BAnd, r), vars) == Some(a && b) && EvalCond(Binary(l, BOr, r), vars) == Some(a || b)
            && EvalCond(Unary(UNot, l), vars) == Some(!a)
  {
    hide CondWay; hide EvalCond;
    AndWay(l, r, vars);
    OrWay(l, r, vars);
    NotWay(l, vars);
  }

  /** The code of `c` has a way to go on, and `c` the value `a`. */
  predicate Leads(c: Expr, vars: Store, a: bool) { CondWay(c, vars).Some? && EvalCond(c, vars) == Some(a) }

  lemma IfAnd(l: Expr, r: Expr, vars: Store, a: bool, b: bool)
    requires Leads(l, vars, a) && Leads(r, vars, b)
    ensures !IfVerdict(Binary(l, BAnd, r), vars).Strays? <==>
            (BranchTaken(l, vars) || BranchTaken(r, vars)) == (a && b)
  {
    hide CondWay; hide EvalCond; hide IfVerdict;
    AndWay(l, r, vars);
    IfStrays(Binary(l, BAnd, r), vars);
  }

  lemma IfOr(l: Expr, r: Expr, vars: Store, a: bool, b: bool)
    requires Leads(l, vars, a) && Leads(r, vars, b)
    ensures !IfVerdict(Binary(l, BOr, r), vars).Strays? <==>
            (CondWay(l, vars) == Some(ToElse) ==> BranchTaken(r, vars)) == (a || b)
  {
    hide CondWay; hide EvalCond; hide IfVerdict;
    OrWay(l, r, vars);
    IfStrays(Binary(l, BOr, r), vars);
  }

  lemma IfNot(l: Expr, vars: Store, a: bool)
    requires Leads(l, vars, a)
    ensures !IfVerdict(Unary(UNot, l), vars).Strays? <==> IfVerdict(l, vars).Strays?
  {
    hide CondWay; hide EvalCond; hide IfVerdict;
    NotWay(l, vars);
    IfStrays(Unary(UNot, l), vars);
    IfStrays(l, vars);
  }

  /** When IF does what a joined condition says, whatever its operands do alone: AND when
      some operand takes the THEN branch exactly if both hold, OR when the right one takes it,
      or is not come to, exactly if one of them holds, and NOT exactly when its operand goes
      wrong. */
  lemma IfExactly(l: Expr, r: Expr, vars: Store, a: bool, b: bool)
    requires Leads(l, vars, a) && Leads(r, vars, b)
    ensures !IfVerdict(Binary(l, BAnd, r), vars).Strays? <==>
            (BranchTaken(l, vars) || BranchTaken(r, vars)) == (a && b)
    ensures !IfVerdict(Binary(l, BOr, r), vars).Strays? <==>
            (CondWay(l, vars) == Some(ToElse) ==> BranchTaken(r, vars)) == (a || b)
    ensures !IfVerdict(Unary(UNot, l), vars).Strays? <==> IfVerdict(l, vars).Strays?
  {
    hide *;
    IfAnd(l, r, vars, a, b);
    IfOr(l, r, vars, a, b);
    IfNot(l, vars, a);
  }

  /** In a loop going to the second target is wrong besides. */
  lemma LoopExactly(l: Expr, r: Expr, vars: Store, a: bool, b: bool)
    requires Leads(l, vars, a) && Leads(r, vars, b)
    ensures var v, w := CondWay(l, vars).value, CondWay(r, vars).value;
            && (!LoopVerdict(Binary(l, BAnd, r), vars).Strays? <==>
                !v.ToEnd? && (v.Through? ==> !w.ToEnd?) && (v.ToElse? || w.ToElse?) == (a && b))
            && (!LoopVerdict(Binary(l, BOr, r), vars).Strays? <==>
                v.ToElse? && !w.ToEnd? && w.ToElse? == (a || b))
            && (!LoopVerdict(Unary(UNot, l), vars).Strays? <==> !v.ToElse? && v.ToEnd? == !a)
  {
    hide CondWay; hide EvalCond;
    WaysJoined(l, r, vars);
  }

  /** Joined operands that do what they say in a loop, such as two comparisons: in IF, AND is
      right when both have the same value and OR when the right one holds; in a loop, AND the
      same and OR when both hold. Negated, such an operand is never right. */
  lemma NestedConnectives(l: Expr, r: Expr, vars: Store, a: bool, b: bool)
    requires LoopVerdict(l, vars) == Says(a) && LoopVerdict(r, vars) == Says(b)
    ensures LoopVerdict(Binary(l, BAnd, r), vars) == Says(a && b) <==> a == b
    ensures LoopVerdict(Binary(l, BOr, r), vars) == Says(a || b) <==> a && b
    ensures IfVerdict(Binary(l, BAnd, r), vars) == Says(a && b) <==> a == b
    ensures IfVerdict(Binary(l, BOr, r), vars) == Says(a || b) <==> b
    ensures IfVerdict(Unary(UNot, l), vars) == LoopVerdict(Unary(UNot, l), vars) == Strays
  {
    hide CondWay; hide EvalCond;
    WaysJoined(l, r, vars);
  }

  /** The same for two comparisons. */
  lemma ConnectivesExactly(l: Expr, r: Expr, vars: Store)
    requires IsComparison(l) && IsComparison(r) && EvalCond(l, vars).Some? && EvalCond(r, vars).Some?
    ensures var a, b := EvalCond(l, vars).value, EvalCond(r, vars).value;
            && (IfVerdict(Binary(l, BAnd, r), vars) == Says(a && b) <==> a == b)
            && (IfVerdict(Binary(l, BOr, r), vars) == Says(a || b) <==> b)
            && (LoopVerdict(Binary(l, BAnd, r), vars) == Says(a && b) <==> a == b)
            && (LoopVerdict(Binary(l, BOr, r), vars) == Says(a || b) <==> a && b)
            && IfVerdict(Unary(UNot, l), vars) == LoopVerdict(Unary(UNot, l), vars) == Strays
  {
    hide EvalCond; hide IfVerdict; hide LoopVerdict;
    ComparisonNeverStrays(l, vars);
    ComparisonNeverStrays(r, vars);
    NestedConnectives(l, r, vars, EvalCond(l, vars).value, EvalCond(r, vars).value);
  }

  // ----- chains of comparisons -----

  /** `c0 op c1 op c2 ...`, grouped to the left as the parser does. */
  function Chain(cs: seq<Expr>, op: BinOp): Expr
    requires cs != []
  {
    if |cs| == 1 then cs[0] else Binary(Chain(cs[..|cs| - 1], op), op, cs[|cs| - 1])
  }

  /** Comparisons whose operands have values. */
  predicate Comparisons(cs: seq<Expr>, vars: Store) {
    cs != [] && forall i :: 0 <= i < |cs| ==> IsComparison(cs[i]) && EvalCond(cs[i], vars).Some?
  }

  predicate True(c: Expr, vars: Store) { EvalCond(c, vars) == Some(true) }

  predicate AllTrue(cs: seq<Expr>, vars: Store) { forall i :: 0 <= i < |cs| ==> True(cs[i], vars) }

  predicate SomeTrue(cs: seq<Expr>, vars: Store) { exists i :: 0 <= i < |cs| && True(cs[i], vars) }

  lemma OneMore(cs: seq<Expr>, vars: Store)
    requires cs != []
    ensures var front, last := cs[..|cs| - 1], cs[|cs| - 1];
            && (AllTrue(cs, vars) <==> AllTrue(front, vars) && True(last, vars))
            && (SomeTrue(cs, vars) <==> SomeTrue(front, vars) || True(last, vars))
  {
    hide True;
    var front := cs[..|cs| - 1];
    assert forall i :: 0 <= i < |front| ==> front[i] == cs[i];
    assert forall i :: 0 <= i < |cs| ==> i == |front| || cs[i] == front[i];
  }

  lemma ComparisonWay(c: Expr, vars: Store)
    requires IsComparison(c) && EvalCond(c, vars).Some?
    ensures CondWay(c, vars) == Some(if True(c, vars) then ToElse else Through)
    ensures EvalCond(c, vars) == Some(True(c, vars))
  {
    hide Eval; hide Compare;
  }

  /** A chain of ORs goes the way of its last comparison if all before it hold, and to the
      second target otherwise. A chain of ANDs jumps as soon as one of them holds. */
  lemma {:induction false} ChainWay(cs: seq<Expr>, op: BinOp, vars: Store)
    requires Comparisons(cs, vars) && (op.BAnd? || op.BOr?)
    ensures var front, last := cs[..|cs| - 1], cs[|cs| - 1];
            CondWay(Chain(cs, op), vars) ==
            Some(if op.BAnd? then if SomeTrue(cs, vars) then ToElse else Through
                 else if !AllTrue(front, vars) then ToEnd
                 else if True(last, vars) then ToElse
                 else Through)
    ensures EvalCond(Chain(cs, op), vars) == Some(if op.BAnd? then AllTrue(cs, vars) else SomeTrue(cs, vars))
  {
    hide True; hide EvalCond; hide CondWay; hide IsComparison; hide AllTrue; hide SomeTrue;
    var front, last := cs[..|cs| - 1], cs[|cs| - 1];
    OneMore(cs, vars);
    ComparisonWay(last, vars);
    NoneTrue(vars);
    if |cs| > 1 {
      assert forall i :: 0 <= i < |front| ==> front[i] == cs[i];
      ChainWay(front, op, vars);
      OneMore(front, vars);
      WaysJoined(Chain(front, op), last, vars);
    } else {
      assert front == [];
    }
  }

  lemma NoneTrue(vars: Store)
    ensures AllTrue([], vars) && !SomeTrue([], vars)
  {
  }

  /** When IF and a loop do what a chain of at least two comparisons says. AND: all hold, or
      none does. OR in IF: one holds, and not all of them but the last. OR in a loop: all hold. */
  lemma ChainExactly(cs: seq<Expr>, op: BinOp, vars: Store)
    requires Comparisons(cs, vars) && |cs| > 1 && (op.BAnd? || op.BOr?)
    ensures var c, last := Chain(cs, op), cs[|cs| - 1];
            && (op.BAnd? ==> (!IfVerdict(c, vars).Strays? <==> AllTrue(cs, vars) == SomeTrue(cs, vars)))
            && (op.BAnd? ==> (!LoopVerdict(c, vars).Strays? <==> AllTrue(cs, vars) == SomeTrue(cs, vars)))
            && (op.BOr? ==> (!IfVerdict(c, vars).Strays? <==>
                             SomeTrue(cs, vars) && (AllTrue(cs[..|cs| - 1], vars) ==> True(last, vars))))
            && (op.BOr? ==> (!LoopVerdict(c, vars).Strays? <==> AllTrue(cs, vars)))
  {
    hide True; hide EvalCond; hide CondWay; hide IsComparison; hide AllTrue; hide SomeTrue; hide Chain;
    ChainWay(cs, op, vars);
    OneMore(cs, vars);
    NotEmpty(cs[..|cs| - 1], vars);
    NotEmpty(cs, vars);
  }

  lemma NotEmpty(cs: seq<Expr>, vars: Store)
    requires cs != []
    ensures AllTrue(cs, vars) ==> SomeTrue(cs, vars)
  {
    hide True;
    if AllTrue(cs, vars) { assert True(cs[0], vars); }
  }

  datatype StState = StState(vars: Store, signals: map<string, HalValue>)

  /** `OutOfFuel` says only that the evaluation needs more loop iterations than were allowed,
      `Strayed` that it came to a condition whose code goes another way, or to an expression
      whose code, writing into the variable, computes something else. */
  datatype Outcome =
    | Normal(st: StState)
    | Exiting(st: StState)
    | Returned(st: StState)
    | Trapped
    | OutOfFuel
    | Strayed

  function StepValue(step: Option<Expr>, vars: Store): Option<HalValue> {
    if step.Some? then Eval(step.value, vars) else Some(S32(1))
  }

  function Update(st: StState, x: string, v: HalValue): StState {
    st.(vars := st.vars[x := v])
  }

  /** Big-step evaluation; `fuel` bounds the iterations of each loop. An assignment
      also publishes the value as a signal; a FOR loop's own updates do not. */
  function Exec(s: Stmt, st: StState, fuel: nat): Outcome
    decreases fuel, s, 1
  {
    match s
    case Assign(x, e) =>
      var v := Eval(e, st.vars);
      if EvalInto(e, x, st.vars) != v then Strayed
      else if v.None? then Trapped
      else Normal(StState(st.vars[x := v.value], st.signals[x := v.value]))
    case If(c, t, e) =>
      (match IfVerdict(c, st.vars)
       case Faults => Trapped
       case Strays => Strayed
       case Says(b) => if b then ExecSeq(t, st, fuel) else ExecSeq(e, st, fuel))
    case While(c, b) =>
      var v := LoopVerdict(c, st.vars);
      if v.Faults? then Trapped
      else if v.Strays? then Strayed
      else if !v.b then Normal(st)
      else
        var r := ExecSeq(b, st, fuel);
        if r.Exiting? then Normal(r.st)
        else if !r.Normal? then r
        else if fuel == 0 then OutOfFuel
        else Exec(s, r.st, fuel - 1)
    case For(x, start, _, _, _) =>
      var v := Eval(start, st.vars);
      if EvalInto(start, x, st.vars) != v then Strayed
      else if v.None? then Trapped
      else ExecFor(s, Update(st, x, v.value), fuel)
    case Repeat(b, c) =>
      var r := ExecSeq(b, st, fuel);
      if r.Exiting? then Normal(r.st)
      else if !r.Normal? then r
      else
        var v := LoopVerdict(c, r.st.vars);
        if v.Faults? then Trapped
        else if v.Strays? then Strayed
        else if v.b then r
        else if fuel == 0 then OutOfFuel
        else Exec(s, r.st, fuel - 1)
    case Case(x, arms, e) =>
      if x !in st.vars then Trapped
      else
        var i := FirstMatch(st.vars[x], arms);
        if i < |arms| then ExecSeq(arms[i].body, st, fuel) else ExecSeq(e, st, fuel)
    case Return => Returned(st)
    case Exit => Exiting(st)
    case _ => Trapped
  }

  /** The iterations of a FOR loop: the limit is evaluated anew before each one,
      the step after each one. */
  function ExecFor(s: Stmt, st: StState, fuel: nat): Outcome
    requires s.For?
    decreases fuel, s, 0
  {
    var limit := Eval(s.end, st.vars);
    if limit.None? || s.variable !in st.vars then Trapped
    else if Compare(GtOp, st.vars[s.variable], limit.value) then Normal(st)
    else
      var r := ExecSeq(s.body, st, fuel);
      if r.Exiting? then Normal(r.st)
      else if !r.Normal? then r
      else
        var d := StepValue(s.step, r.st.vars);
        if d.None? || s.variable !in r.st.vars then Trapped
        else
          var v := Arith(AddOp, r.st.vars[s.variable], d.value);
          if v.None? then Trapped
          else if fuel == 0 then OutOfFuel
          else ExecFor(s, Update(r.st, s.variable, v.value), fuel - 1)
  }

  function ExecSeq(ss: seq<Stmt>, st: StState, fuel: nat): Outcome
    decreases fuel, ss, 1
  {
    if ss == [] then Normal(st)
    else
      var r := ExecSeq(ss[..|ss| - 1], st, fuel);
      if r.Normal? then Exec(ss[|ss| - 1], r.st, fuel) else r
  }

  predicate MatchesAny(v: HalValue, values: seq<int>) {
    exists i :: 0 <= i < |values| && v == S32(Wrap(I32, values[i]))
  }

  /** The first arm with a matching value; `|arms|` when there is none. */
  function FirstMatch(v: HalValue, arms: seq<CaseArm>): (i: nat)
    ensures i <= |arms|
    ensures i < |arms| ==> MatchesAny(v, arms[i].values)
    ensures forall j :: 0 <= j < i ==> !MatchesAny(v, arms[j].values)
  {
    if arms == [] then 0
    else
      var i := FirstMatch(v, arms[..|arms| - 1]);
      if i < |arms| - 1 || MatchesAny(v, arms[i].values) then i else i + 1
  }
}
