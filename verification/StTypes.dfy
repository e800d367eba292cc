/** What the ST compiler's type check accepts, in closed form, and what a copy between variables
    keeps of each type. */
module StTypes {
  import opened HalValues
  import opened StAst
  import opened StLayout
  import opened StCorrectness
  import M = Machine

  predicate Integral(t: VarType) {
    t in {TInt, TDInt, TSInt, TUSInt, TUInt, TULInt, TLInt, TByte, TWord, TDWord, TTime, TDate, TTod, TDt}
  }

  lemma IntegralTypes(t: VarType)
    ensures IsIntegerType(t) <==> Integral(t)
    ensures Integral(TInt) && !Integral(TReal) && !Integral(TLReal) && !Integral(TBool)
  {
  }

  // ----- assignments -----

  /** Any integer literal goes to any integer variable, any real literal to REAL and LREAL. */
  lemma LiteralsAssign(env: Env, x: string, n: int, r: real)
    requires x in env.types
    ensures AssignStatus(env, x, IntLiteral(n)).Fine? <==> Integral(env.types[x])
    ensures AssignStatus(env, x, RealLiteral(r)).Fine? <==> env.types[x] in {TReal, TLReal}
    ensures AssignStatus(env, x, BoolLiteral(true)).Fine? <==> env.types[x] == TBool
  {
  }

  /** `x := y`: the same type, INT with any integer type, or REAL with LREAL; otherwise the
      error names both types. */
  lemma VariablesAssign(env: Env, x: string, y: string)
    requires x in env.types && y in env.types
    ensures var a, b, out := env.types[x], env.types[y], AssignStatus(env, x, Variable(y));
            && (out.Fine? <==> a == b || (a == TInt && Integral(b)) || (b == TInt && Integral(a)) ||
                               {a, b} == {TReal, TLReal})
            && (!out.Fine? ==> out == Failed(TypeMismatch(a, b)))
  {
  }

  /** Assignability is no order: through INT any integer goes to any other, though two different
      integer types are never assigned directly. Nothing but INT opens such a way. */
  lemma OnlyIntBridges(a: VarType, b: VarType, c: VarType)
    ensures TypesCompatible(a, b) && TypesCompatible(b, c) && !TypesCompatible(a, c) <==>
            b == TInt && Integral(a) && Integral(c) && a != c && a != TInt && c != TInt
  {
    hide IsIntegerType; hide Integral;
    IntegralTypes(a);
    IntegralTypes(b);
    IntegralTypes(c);
  }

  // ----- expressions -----

  /** Arithmetic, XOR, signs and NOT over variables and literals. */
  predicate Numeric(e: Expr) {
    match e
    case Binary(l, op, r) => (IsArith(op) || op.BXor?) && Numeric(l) && Numeric(r)
    case Unary(_, i) => Numeric(i)
    case IntLiteral(_) => true
    case RealLiteral(_) => true
    case BoolLiteral(_) => true
    case Variable(_) => true
    case _ => false
  }

  function First(e: Expr): Expr {
    match e case Binary(l, _, _) => First(l) case Unary(_, i) => First(i) case _ => e
  }

  function LeafType(env: Env, e: Expr): VarType {
    match e
    case IntLiteral(_) => TInt
    case RealLiteral(_) => TReal
    case BoolLiteral(_) => TBool
    case Variable(x) => if x in env.types then env.types[x] else TInt
    case _ => TInt
  }

  /** An accepted expression has the type of its first operand, whatever comes behind it. */
  lemma {:induction false} TypeIsFirst(env: Env, e: Expr)
    requires Numeric(e) && TypeOfExpr(env, e).Type?
    ensures TypeOfExpr(env, e) == Type(LeafType(env, First(e)))
  {
    hide TypesCompatible; hide IsIntegerType;
    match e
    case Binary(l, _, _) => TypeIsFirst(env, l);
    case Unary(_, i) => TypeIsFirst(env, i);
    case _ =>
  }

  /** Every operator joins compatible first operands; a minus stands only before INT, DINT, REAL
      and LREAL, a NOT only before integers and BOOL. */
  predicate WellJoined(env: Env, e: Expr) {
    match e
    case Binary(l, _, r) =>
      && WellJoined(env, l) && WellJoined(env, r)
      && var a, b := LeafType(env, First(l)), LeafType(env, First(r));
         a == b || (a == TInt && Integral(b)) || (b == TInt && Integral(a)) || {a, b} == {TReal, TLReal}
    case Unary(UNeg, i) => WellJoined(env, i) && LeafType(env, First(i)) in {TInt, TDInt, TReal, TLReal}
    case Unary(UNot, i) => WellJoined(env, i) && (Integral(LeafType(env, First(i))) || LeafType(env, First(i)) == TBool)
    case Variable(x) => x in env.types
    case _ => true
  }

  lemma CompatibleTypes(a: VarType, b: VarType)
    ensures TypesCompatible(a, b) <==>
            a == b || (a == TInt && Integral(b)) || (b == TInt && Integral(a)) || {a, b} == {TReal, TLReal}
  {
    hide IsIntegerType; hide Integral;
    IntegralTypes(a);
    IntegralTypes(b);
  }

  /** Which expressions are accepted, exactly. */
  lemma {:induction false} AcceptedExactly(env: Env, e: Expr)
    requires Numeric(e)
    ensures TypeOfExpr(env, e).Type? <==> WellJoined(env, e)
  {
    hide TypesCompatible; hide IsIntegerType; hide Integral;
    match e
    case Binary(l, op, r) =>
      AcceptedExactly(env, l);
      AcceptedExactly(env, r);
      if TypeOfExpr(env, l).Type? && TypeOfExpr(env, r).Type? {
        TypeIsFirst(env, l);
        TypeIsFirst(env, r);
        CompatibleTypes(LeafType(env, First(l)), LeafType(env, First(r)));
      }
    case Unary(_, i) =>
      AcceptedExactly(env, i);
      if TypeOfExpr(env, i).Type? {
        TypeIsFirst(env, i);
        IntegralTypes(LeafType(env, First(i)));
      }
    case _ =>
  }

  /** A comparison is BOOL whatever its operands are; AND and OR take only BOOL. */
  lemma LogicTypes(env: Env, l: Expr, r: Expr, op: BinOp)
    requires TypeOfExpr(env, l).Type? && TypeOfExpr(env, r).Type?
    ensures op in {BEq, BNeq, BGt, BLt, BGte, BLte} ==> TypeOfExpr(env, Binary(l, op, r)) == Type(TBool)
    ensures op in {BAnd, BOr} ==>
              (TypeOfExpr(env, Binary(l, op, r)).Type? <==> TypeOfExpr(env, l) == TypeOfExpr(env, r) == Type(TBool))
    ensures ConditionStatus(env, l).Fine? <==> TypeOfExpr(env, l) == Type(TBool)
  {
  }

  /** Only INT and DINT count in a FOR loop; CASE takes any declared variable. */
  lemma LoopVariables(env: Env, x: string)
    requires env.regs.Keys == env.types.Keys
    ensures ForVariableStatus(env, x).Fine? <==> x in env.types && env.types[x] in {TInt, TDInt}
    ensures Declared(env, x).Fine? <==> x in env.types
    ensures x !in env.types ==> ForVariableStatus(env, x) == Declared(env, x) == Failed(UndefinedVariable(x))
  {
    assert x in env.regs <==> x in env.regs.Keys;
  }

  // ----- copies -----

  /** The declared types whose variables a copy keeps, by the number held at run time. Types
      without a representation of their own are kept as 32-bit words. */
  lemma CopyKeepsType(t: VarType, v: HalValue)
    ensures SameNumberType(v, ZeroOfType(t)) <==>
            (v.Int? && v.ity == I8 && t == TSInt) || (v.Int? && v.ity == U8 && t in {TUSInt, TByte}) ||
            (v.Int? && v.ity == I16 && t == TInt) || (v.Int? && v.ity == U16 && t in {TUInt, TWord}) ||
            (v.Int? && v.ity == I32 && t in {TDInt, TTime}) || (v.Int? && v.ity == I64 && t == TLInt) ||
            (v.Int? && v.ity == U32 && t !in {TSInt, TUSInt, TByte, TInt, TUInt, TWord, TDInt, TTime, TLInt} &&
             t !in {TReal, TLReal, TBool, TString, TArray}) ||
            (v.Float? && v.fty == F32 && t == TReal) || (v.Float? && v.fty == F64 && t == TLReal)
  {
  }

  // ----- registers -----

  /** Of the sixteen registers thirteen hold variables and three intermediate values. */
  lemma RegistersDivided(r: nat)
    ensures r < M.REGISTER_COUNT <==> r < 16
    ensures r < MAX_VAR_REGS <==> r < 13
    ensures (exists d: nat :: d < POOL_SIZE && Scratch(d) == r) <==> 13 <= r < 16
  {
    assert Scratch(0) == 14 && Scratch(1) == 15 && Scratch(2) == 13;
  }
}
