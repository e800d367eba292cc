/** Abstract syntax of Structured Text. */
module StAst {
  import opened HalValues

  datatype VarType =
    | TInt | TReal | TBool | TDInt | TLReal | TByte | TWord | TDWord | TSInt | TUSInt | TUInt | TULInt | TLInt
    | TTime | TDate | TTod | TDt | TString | TArray
    | TTon | TTof | TTp | TCtu | TCtd | TCtud | TSr | TRs | TRTrig | TFTrig

  datatype BinOp =
    | BAdd | BSub | BMul | BDiv | BEq | BNeq | BGt | BLt | BGte | BLte | BAnd | BOr | BMod | BXor

  datatype UnaryOp = UNeg | UNot

  datatype Expr =
    | IntLiteral(i: int)
    | RealLiteral(x: real)
    | BoolLiteral(b: bool)
    | Variable(name: string)
    | Binary(left: Expr, op: BinOp, right: Expr)
    | Unary(uop: UnaryOp, inner: Expr)
    | ArrayAccess(name: string, index: Expr)
    | FieldAccess(name: string, field: string)

  datatype CaseArm = CaseArm(values: seq<int>, body: seq<Stmt>)

  datatype Stmt =
    | Assign(target: string, value: Expr)
    | If(cond: Expr, thenBody: seq<Stmt>, elseBody: seq<Stmt>)
    | While(cond: Expr, body: seq<Stmt>)
    | For(variable: string, start: Expr, end: Expr, step: Option<Expr>, body: seq<Stmt>)
    | Case(variable: string, arms: seq<CaseArm>, elseBody: seq<Stmt>)
    | Repeat(body: seq<Stmt>, cond: Expr)
    | Return
    | Exit
    | FunCall(name: string, args: seq<Expr>)
    | ArrayAssign(target: string, index: Expr, value: Expr)

  datatype VarDecl = VarDecl(name: string, varType: VarType)

  datatype FunctionDef = FunctionDef(
    name: string, returnType: VarType, variables: seq<VarDecl>, inputs: seq<VarDecl>,
    outputs: seq<VarDecl>, inouts: seq<VarDecl>, body: seq<Stmt>)

  datatype Program = Program(name: string, variables: seq<VarDecl>, body: seq<Stmt>, functions: seq<FunctionDef>)

  predicate IsArith(op: BinOp) { op.BAdd? || op.BSub? || op.BMul? || op.BDiv? || op.BMod? }

  predicate IsCmp(op: BinOp) { op.BEq? || op.BNeq? || op.BGt? || op.BLt? || op.BGte? || op.BLte? }

  // ----- arrays lie outside the compiler model -----

  predicate PlainExpr(e: Expr) {
    match e
    case Binary(l, _, r) => PlainExpr(l) && PlainExpr(r)
    case Unary(_, i) => PlainExpr(i)
    case ArrayAccess(_, _) => false
    case _ => true
  }

  predicate PlainStmt(s: Stmt) {
    match s
    case Assign(_, v) => PlainExpr(v)
    case If(c, t, e) => PlainExpr(c) && PlainSeq(t) && PlainSeq(e)
    case While(c, b) => PlainExpr(c) && PlainSeq(b)
    case For(_, st, en, step, b) =>
      PlainExpr(st) && PlainExpr(en) && (step.Some? ==> PlainExpr(step.value)) && PlainSeq(b)
    case Case(_, arms, e) => PlainArms(arms) && PlainSeq(e)
    case Repeat(b, c) => PlainSeq(b) && PlainExpr(c)
    case Return => true
    case Exit => true
    case FunCall(_, args) => forall i :: 0 <= i < |args| ==> PlainExpr(args[i])
    case ArrayAssign(_, _, _) => false
  }

  predicate PlainSeq(ss: seq<Stmt>) {
    ss == [] || (PlainSeq(ss[..|ss| - 1]) && PlainStmt(ss[|ss| - 1]))
  }

  predicate PlainArms(arms: seq<CaseArm>) {
    arms == [] || (PlainArms(arms[..|arms| - 1]) && PlainSeq(arms[|arms| - 1].body))
  }
}
