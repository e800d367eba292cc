/** What the Structured Text parser accepts, as functions on a token list and a position:
    precedence climbing for expressions, recursive descent for statements. */
module StGrammar {
  import opened HalValues
  import opened StAst

  datatype Keyword =
    | KwProgram | KwEndProgram | KwVar | KwEndVar | KwIf | KwThen | KwElse | KwEndIf
    | KwWhile | KwDo | KwEndWhile | KwFor | KwTo | KwBy | KwEndFor | KwCase | KwOf | KwEndCase
    | KwRepeat | KwUntil | KwEndRepeat | KwReturn | KwExit | KwFunction | KwEndFunction
    | KwFunctionBlock | KwEndFunctionBlock
    | KwVarInput | KwVarOutput | KwVarInOut | KwAnd | KwOr | KwNot | KwMod | KwXor

  datatype Symbol =
    | SAssign | SPlus | SMinus | SStar | SSlash | SEqual | SNotEqual | SGreater | SLess | SGreaterEq | SLessEq
    | SSemicolon | SColon | SLParen | SRParen | SComma | SLBracket | SRBracket | SDotDot | SDot

  datatype Token =
    | Kw(k: Keyword) | Sym(s: Symbol) | TypeName(t: VarType)
    | Identifier(name: string) | IntegerLiteral(n: int) | RealLit(x: real)

  datatype ParseError =
    | UnexpectedToken(t: Token) | UnexpectedEof | ExpectedToken(t: Token) | RedefinedVariable(name: string)

  /** A value and the position behind it, or the first error. */
  datatype Parsed<+T> = Good(value: T, next: nat) | Bad(error: ParseError)
  {
    predicate IsFailure() { Bad? }
    function PropagateFailure<U>(): Parsed<U>
      requires Bad?
    {
      Bad(error)
    }
    function Extract(): (T, nat)
      requires Good?
    {
      (value, next)
    }
  }

  /** What a successful parse from `p` consumes: at least one token, at most all. */
  predicate Strictly<T>(ts: seq<Token>, p: nat, r: Parsed<T>) { r.Good? ==> p < r.next <= |ts| }

  predicate Weakly<T>(ts: seq<Token>, p: nat, r: Parsed<T>) {
    r.Good? ==> p <= r.next && (p <= |ts| ==> r.next <= |ts|)
  }

  predicate Starts(ts: seq<Token>, p: nat, t: Token) { p < |ts| && ts[p] == t }

  function Expect(ts: seq<Token>, p: nat, t: Token): (r: Parsed<()>)
    ensures Strictly(ts, p, r)
  {
    if p >= |ts| then Bad(UnexpectedEof) else if ts[p] == t then Good((), p + 1) else Bad(UnexpectedToken(ts[p]))
  }

  function ExpectIdent(ts: seq<Token>, p: nat): (r: Parsed<string>)
    ensures Strictly(ts, p, r)
  {
    if p >= |ts| then Bad(UnexpectedEof)
    else if ts[p].Identifier? then Good(ts[p].name, p + 1)
    else Bad(UnexpectedToken(ts[p]))
  }

  // ----- expressions -----

  function Precedence(op: BinOp): nat {
    match op
    case BOr => 1 case BXor => 1
    case BAnd => 2
    case BEq => 3 case BNeq => 3 case BGt => 3 case BLt => 3 case BGte => 3 case BLte => 3
    case BAdd => 4 case BSub => 4
    case BMul => 5 case BDiv => 5 case BMod => 5
  }

  function BinopOf(t: Token): Option<BinOp> {
    match t
    case Sym(SPlus) => Some(BAdd) case Sym(SMinus) => Some(BSub)
    case Sym(SStar) => Some(BMul) case Sym(SSlash) => Some(BDiv)
    case Sym(SEqual) => Some(BEq) case Sym(SNotEqual) => Some(BNeq)
    case Sym(SGreater) => Some(BGt) case Sym(SLess) => Some(BLt)
    case Sym(SGreaterEq) => Some(BGte) case Sym(SLessEq) => Some(BLte)
    case Kw(KwAnd) => Some(BAnd) case Kw(KwOr) => Some(BOr)
    case Kw(KwMod) => Some(BMod) case Kw(KwXor) => Some(BXor)
    case _ => None
  }

  /** An expression whose operators bind at least as tightly as `least`. */
  function ExprAt(ts: seq<Token>, p: nat, least: nat): (r: Parsed<Expr>)
    ensures Strictly(ts, p, r)
    decreases |ts| - p, 4
  {
    var (left, next) :- UnaryAt(ts, p);
    OperatorsAt(ts, next, left, least)
  }

  /** Operators behind `left`, as long as they bind tightly enough. */
  function OperatorsAt(ts: seq<Token>, p: nat, left: Expr, least: nat): (r: Parsed<Expr>)
    ensures Weakly(ts, p, r)
    decreases |ts| - p, 0
  {
    if p >= |ts| || BinopOf(ts[p]).None? || Precedence(BinopOf(ts[p]).value) < least then Good(left, p)
    else
      var op := BinopOf(ts[p]).value;
      var (right, next) :- ExprAt(ts, p + 1, Precedence(op) + 1);
      OperatorsAt(ts, next, Binary(left, op, right), least)
  }

  function UnaryAt(ts: seq<Token>, p: nat): (r: Parsed<Expr>)
    ensures Strictly(ts, p, r)
    decreases |ts| - p, 3
  {
    if Starts(ts, p, Sym(SMinus)) then
      var (e, next) :- UnaryAt(ts, p + 1);
      Good(Unary(UNeg, e), next)
    else if Starts(ts, p, Kw(KwNot)) then
      var (e, next) :- UnaryAt(ts, p + 1);
      Good(Unary(UNot, e), next)
    else PrimaryAt(ts, p)
  }

  function PrimaryAt(ts: seq<Token>, p: nat): (r: Parsed<Expr>)
    ensures Strictly(ts, p, r)
    decreases |ts| - p, 2
  {
    if p >= |ts| then Bad(UnexpectedEof)
    else
      match ts[p]
      case IntegerLiteral(n) => Good(IntLiteral(n), p + 1)
      case RealLit(x) => Good(RealLiteral(x), p + 1)
      case Identifier(name) => NameAt(ts, p, name)
      case Sym(s) =>
        if s == SLParen then
          var (e, inner) :- ExprAt(ts, p + 1, 0);
          var (_, next) :- Expect(ts, inner, Sym(SRParen));
          Good(e, next)
        else Bad(UnexpectedToken(ts[p]))
      case Kw(_) => Bad(UnexpectedToken(ts[p]))
      case TypeName(_) => Bad(UnexpectedToken(ts[p]))
  }

  /** An identifier: a Boolean, an array element, a field or a variable. */
  function NameAt(ts: seq<Token>, p: nat, name: string): (r: Parsed<Expr>)
    requires p < |ts|
    ensures Strictly(ts, p, r)
    decreases |ts| - p, 1
  {
    if name == "TRUE" then Good(BoolLiteral(true), p + 1)
    else if name == "FALSE" then Good(BoolLiteral(false), p + 1)
    else if Starts(ts, p + 1, Sym(SLBracket)) then
      var (index, inner) :- ExprAt(ts, p + 2, 0);
      var (_, next) :- Expect(ts, inner, Sym(SRBracket));
      Good(ArrayAccess(name, index), next)
    else if Starts(ts, p + 1, Sym(SDot)) then
      var (field, next) :- ExpectIdent(ts, p + 2);
      Good(FieldAccess(name, field), next)
    else Good(Variable(name), p + 1)
  }

  // ----- statements -----

  /** What ends a statement list. */
  datatype Stop = StopAt(k: Keyword) | StopAtElseOr(k: Keyword) | StopAtArm

  predicate Stopped(ts: seq<Token>, p: nat, stop: Stop) {
    match stop
    case StopAt(k) => Starts(ts, p, Kw(k))
    case StopAtElseOr(k) => Starts(ts, p, Kw(KwElse)) || Starts(ts, p, Kw(k))
    case StopAtArm => Starts(ts, p, Kw(KwElse)) || Starts(ts, p, Kw(KwEndCase)) || (p < |ts| && ts[p].IntegerLiteral?)
  }

  /** Statements up to the stop, behind those in `front`. */
  function StatementsAt(ts: seq<Token>, p: nat, stop: Stop, front: seq<Stmt>): (r: Parsed<seq<Stmt>>)
    ensures Weakly(ts, p, r)
    decreases |ts| - p, 4
  {
    if Stopped(ts, p, stop) then Good(front, p)
    else
      var (s, next) :- StatementAt(ts, p);
      StatementsAt(ts, next, stop, front + [s])
  }

  function StatementAt(ts: seq<Token>, p: nat): (r: Parsed<Stmt>)
    ensures Strictly(ts, p, r)
    decreases |ts| - p, 3
  {
    if Starts(ts, p, Kw(KwIf)) then IfAt(ts, p)
    else if Starts(ts, p, Kw(KwWhile)) then WhileAt(ts, p)
    else if Starts(ts, p, Kw(KwFor)) then ForAt(ts, p)
    else if Starts(ts, p, Kw(KwCase)) then CaseAt(ts, p)
    else if Starts(ts, p, Kw(KwRepeat)) then RepeatAt(ts, p)
    else if Starts(ts, p, Kw(KwReturn)) then WordAt(ts, p, KwReturn, Return)
    else if Starts(ts, p, Kw(KwExit)) then WordAt(ts, p, KwExit, Exit)
    else IdentAt(ts, p)
  }

  function WordAt(ts: seq<Token>, p: nat, k: Keyword, s: Stmt): (r: Parsed<Stmt>)
    ensures Strictly(ts, p, r)
  {
    var (_, t1) :- Expect(ts, p, Kw(k));
    var (_, next) :- Expect(ts, t1, Sym(SSemicolon));
    Good(s, next)
  }

  /** Statements that begin with a name. */
  function IdentAt(ts: seq<Token>, p: nat): (r: Parsed<Stmt>)
    ensures Strictly(ts, p, r)
  {
    var (name, t1) :- ExpectIdent(ts, p);
    if Starts(ts, t1, Sym(SLBracket)) then
      var (index, t2) :- ExprAt(ts, t1 + 1, 0);
      var (_, t3) :- Expect(ts, t2, Sym(SRBracket));
      var (_, t4) :- Expect(ts, t3, Sym(SAssign));
      var (value, t5) :- ExprAt(ts, t4, 0);
      var (_, next) :- Expect(ts, t5, Sym(SSemicolon));
      Good(ArrayAssign(name, index, value), next)
    else if Starts(ts, t1, Sym(SAssign)) then
      var (value, t2) :- ExprAt(ts, t1 + 1, 0);
      var (_, next) :- Expect(ts, t2, Sym(SSemicolon));
      Good(Assign(name, value), next)
    else if Starts(ts, t1, Sym(SLParen)) then
      var (args, t2) :- ArgsAt(ts, t1 + 1);
      var (_, t3) :- Expect(ts, t2, Sym(SRParen));
      var (_, next) :- Expect(ts, t3, Sym(SSemicolon));
      Good(FunCall(name, args), next)
    else Bad(UnexpectedToken(Identifier("")))
  }

  function ArgsAt(ts: seq<Token>, p: nat): (r: Parsed<seq<Expr>>)
    ensures Weakly(ts, p, r)
  {
    if Starts(ts, p, Sym(SRParen)) then Good([], p)
    else
      var (first, next) :- ExprAt(ts, p, 0);
      MoreArgsAt(ts, next, [first])
  }

  function MoreArgsAt(ts: seq<Token>, p: nat, front: seq<Expr>): (r: Parsed<seq<Expr>>)
    ensures Weakly(ts, p, r)
    decreases |ts| - p
  {
    if !Starts(ts, p, Sym(SComma)) then Good(front, p)
    else
      var (e, next) :- ExprAt(ts, p + 1, 0);
      MoreArgsAt(ts, next, front + [e])
  }

  function IfAt(ts: seq<Token>, p: nat): (r: Parsed<Stmt>)
    ensures Strictly(ts, p, r)
    decreases |ts| - p, 2
  {
    var (_, t1) :- Expect(ts, p, Kw(KwIf));
    var (cond, t2) :- ExprAt(ts, t1, 0);
    var (_, t3) :- Expect(ts, t2, Kw(KwThen));
    var (thenBody, t4) :- StatementsAt(ts, t3, StopAtElseOr(KwEndIf), []);
    var (elseBody, t5) :- ElseAt(ts, t4, KwEndIf);
    var (_, t6) :- Expect(ts, t5, Kw(KwEndIf));
    var (_, next) :- Expect(ts, t6, Sym(SSemicolon));
    Good(If(cond, thenBody, elseBody), next)
  }

  /** An optional ELSE part. */
  function ElseAt(ts: seq<Token>, p: nat, close: Keyword): (r: Parsed<seq<Stmt>>)
    ensures Weakly(ts, p, r)
    decreases |ts| - p, 5
  {
    if Starts(ts, p, Kw(KwElse)) then StatementsAt(ts, p + 1, StopAt(close), []) else Good([], p)
  }

  function WhileAt(ts: seq<Token>, p: nat): (r: Parsed<Stmt>)
    ensures Strictly(ts, p, r)
    decreases |ts| - p, 2
  {
    var (_, t1) :- Expect(ts, p, Kw(KwWhile));
    var (cond, t2) :- ExprAt(ts, t1, 0);
    var (_, t3) :- Expect(ts, t2, Kw(KwDo));
    var (body, t4) :- StatementsAt(ts, t3, StopAt(KwEndWhile), []);
    var (_, t5) :- Expect(ts, t4, Kw(KwEndWhile));
    var (_, next) :- Expect(ts, t5, Sym(SSemicolon));
    Good(While(cond, body), next)
  }

  function StepAt(ts: seq<Token>, p: nat): (r: Parsed<Option<Expr>>)
    ensures Weakly(ts, p, r)
  {
    if Starts(ts, p, Kw(KwBy)) then
      var (e, next) :- ExprAt(ts, p + 1, 0);
      Good(Some(e), next)
    else Good(None, p)
  }

  function ForAt(ts: seq<Token>, p: nat): (r: Parsed<Stmt>)
    ensures Strictly(ts, p, r)
    decreases |ts| - p, 2
  {
    var (_, t1) :- Expect(ts, p, Kw(KwFor));
    var (v, t2) :- ExpectIdent(ts, t1);
    var (_, t3) :- Expect(ts, t2, Sym(SAssign));
    var (start, t4) :- ExprAt(ts, t3, 0);
    var (_, t5) :- Expect(ts, t4, Kw(KwTo));
    var (end, t6) :- ExprAt(ts, t5, 0);
    var (step, t7) :- StepAt(ts, t6);
    var (_, t8) :- Expect(ts, t7, Kw(KwDo));
    var (body, t9) :- StatementsAt(ts, t8, StopAt(KwEndFor), []);
    var (_, t10) :- Expect(ts, t9, Kw(KwEndFor));
    var (_, next) :- Expect(ts, t10, Sym(SSemicolon));
    Good(For(v, start, end, step, body), next)
  }

  function RepeatAt(ts: seq<Token>, p: nat): (r: Parsed<Stmt>)
    ensures Strictly(ts, p, r)
    decreases |ts| - p, 2
  {
    var (_, t1) :- Expect(ts, p, Kw(KwRepeat));
    var (body, t2) :- StatementsAt(ts, t1, StopAt(KwUntil), []);
    var (_, t3) :- Expect(ts, t2, Kw(KwUntil));
    var (cond, t4) :- ExprAt(ts, t3, 0);
    var (_, t5) :- Expect(ts, t4, Kw(KwEndRepeat));
    var (_, next) :- Expect(ts, t5, Sym(SSemicolon));
    Good(Repeat(body, cond), next)
  }

  /** The values of a CASE arm, up to and with its colon. */
  function ValuesAt(ts: seq<Token>, p: nat, front: seq<int>): (r: Parsed<seq<int>>)
    ensures Strictly(ts, p, r)
    decreases |ts| - p
  {
    if p >= |ts| then Bad(UnexpectedEof)
    else if !ts[p].IntegerLiteral? then Bad(UnexpectedToken(ts[p]))
    else if Starts(ts, p + 1, Sym(SColon)) then Good(front + [ts[p].n], p + 2)
    else if Starts(ts, p + 1, Sym(SComma)) then ValuesAt(ts, p + 2, front + [ts[p].n])
    else Bad(ExpectedToken(Sym(SColon)))
  }

  function ArmsAt(ts: seq<Token>, p: nat, front: seq<CaseArm>): (r: Parsed<seq<CaseArm>>)
    ensures Weakly(ts, p, r)
    decreases |ts| - p, 5
  {
    if Starts(ts, p, Kw(KwEndCase)) || Starts(ts, p, Kw(KwElse)) then Good(front, p)
    else
      var (values, t1) :- ValuesAt(ts, p, []);
      var (body, t2) :- StatementsAt(ts, t1, StopAtArm, []);
      ArmsAt(ts, t2, front + [CaseArm(values, body)])
  }

  function CaseAt(ts: seq<Token>, p: nat): (r: Parsed<Stmt>)
    ensures Strictly(ts, p, r)
    decreases |ts| - p, 2
  {
    var (_, t1) :- Expect(ts, p, Kw(KwCase));
    var (v, t2) :- ExpectIdent(ts, t1);
    var (_, t3) :- Expect(ts, t2, Kw(KwOf));
    var (arms, t4) :- ArmsAt(ts, t3, []);
    var (elseBody, t5) :- ElseAt(ts, t4, KwEndCase);
    var (_, t6) :- Expect(ts, t5, Kw(KwEndCase));
    var (_, next) :- Expect(ts, t6, Sym(SSemicolon));
    Good(Case(v, arms, elseBody), next)
  }

  // ----- declarations and programs -----

  /** A type name. The source's table has no entry for TOF, so TOF is refused. */
  function TypeAt(ts: seq<Token>, p: nat): (r: Parsed<VarType>)
    ensures Strictly(ts, p, r)
    decreases |ts| - p
  {
    if p >= |ts| then Bad(UnexpectedEof)
    else if !ts[p].TypeName? || ts[p].t.TTof? then Bad(UnexpectedToken(ts[p]))
    else if ts[p].t.TString? then StringLengthAt(ts, p + 1)
    else if ts[p].t.TArray? then
      var (_, t1) :- Expect(ts, p + 1, Sym(SLBracket));
      var (_, t2) :- ExprAt(ts, t1, 0);
      var (_, t3) :- Expect(ts, t2, Sym(SDotDot));
      var (_, t4) :- ExprAt(ts, t3, 0);
      var (_, t5) :- Expect(ts, t4, Sym(SRBracket));
      var (_, t6) :- Expect(ts, t5, Kw(KwOf));
      var (_, next) :- TypeAt(ts, t6);
      Good(TArray, next)
    else Good(ts[p].t, p + 1)
  }

  /** The optional length of a string type; it is read and dropped. */
  function StringLengthAt(ts: seq<Token>, p: nat): (r: Parsed<VarType>)
    ensures Weakly(ts, p, r)
  {
    if !Starts(ts, p, Sym(SLParen)) then Good(TString, p)
    else if p + 1 >= |ts| || !ts[p + 1].IntegerLiteral? then Bad(UnexpectedEof)
    else
      var (_, next) :- Expect(ts, p + 2, Sym(SRParen));
      Good(TString, next)
  }

  predicate Declares(vars: seq<VarDecl>, name: string) {
    exists i :: 0 <= i < |vars| && vars[i].name == name
  }

  function DeclAt(ts: seq<Token>, p: nat): (r: Parsed<VarDecl>)
    ensures Strictly(ts, p, r)
  {
    var (name, t1) :- ExpectIdent(ts, p);
    var (_, t2) :- Expect(ts, t1, Sym(SColon));
    var (t, t3) :- TypeAt(ts, t2);
    var (_, next) :- Expect(ts, t3, Sym(SSemicolon));
    Good(VarDecl(name, t), next)
  }

  /** Declarations up to END_VAR; a second one of the same name is an error. */
  function DeclsAt(ts: seq<Token>, p: nat, front: seq<VarDecl>): (r: Parsed<seq<VarDecl>>)
    ensures Weakly(ts, p, r)
    decreases |ts| - p
  {
    if Starts(ts, p, Kw(KwEndVar)) then Good(front, p)
    else
      var (d, next) :- DeclAt(ts, p);
      if Declares(front, d.name) then Bad(RedefinedVariable(d.name)) else DeclsAt(ts, next, front + [d])
  }

  function VarBlockAt(ts: seq<Token>, p: nat): (r: Parsed<seq<VarDecl>>)
    ensures Strictly(ts, p, r)
  {
    var (_, t1) :- Expect(ts, p, Kw(KwVar));
    var (vars, t2) :- DeclsAt(ts, t1, []);
    var (_, t3) :- Expect(ts, t2, Kw(KwEndVar));
    Good(vars, if Starts(ts, t3, Sym(SSemicolon)) then t3 + 1 else t3)
  }

  function ParamBlockAt(ts: seq<Token>, p: nat, start: Keyword): (r: Parsed<seq<VarDecl>>)
    ensures Strictly(ts, p, r)
  {
    var (_, t1) :- Expect(ts, p, Kw(start));
    var (vars, t2) :- DeclsAt(ts, t1, []);
    var (_, t3) :- Expect(ts, t2, Kw(KwEndVar));
    var (_, next) :- Expect(ts, t3, Sym(SSemicolon));
    Good(vars, next)
  }

  datatype Blocks = Blocks(inputs: seq<VarDecl>, outputs: seq<VarDecl>, inouts: seq<VarDecl>, variables: seq<VarDecl>)

  /** The declaration blocks of a function; of two of one kind the later counts. */
  function BlocksAt(ts: seq<Token>, p: nat, b: Blocks): (r: Parsed<Blocks>)
    ensures Weakly(ts, p, r)
    decreases |ts| - p
  {
    if Starts(ts, p, Kw(KwVarInput)) then
      var (vars, next) :- ParamBlockAt(ts, p, KwVarInput);
      BlocksAt(ts, next, b.(inputs := vars))
    else if Starts(ts, p, Kw(KwVarOutput)) then
      var (vars, next) :- ParamBlockAt(ts, p, KwVarOutput);
      BlocksAt(ts, next, b.(outputs := vars))
    else if Starts(ts, p, Kw(KwVarInOut)) then
      var (vars, next) :- ParamBlockAt(ts, p, KwVarInOut);
      BlocksAt(ts, next, b.(inouts := vars))
    else if Starts(ts, p, Kw(KwVar)) then
      var (vars, next) :- VarBlockAt(ts, p);
      BlocksAt(ts, next, b.(variables := vars))
    else Good(b, p)
  }

  function FunctionAt(ts: seq<Token>, p: nat): (r: Parsed<FunctionDef>)
    ensures Strictly(ts, p, r)
  {
    var (_, t1) :- Expect(ts, p, Kw(KwFunction));
    var (name, t2) :- ExpectIdent(ts, t1);
    var (_, t3) :- Expect(ts, t2, Sym(SColon));
    var (t, t4) :- TypeAt(ts, t3);
    var (_, t5) :- Expect(ts, t4, Sym(SSemicolon));
    var (b, t6) :- BlocksAt(ts, t5, Blocks([], [], [], []));
    var (body, t7) :- StatementsAt(ts, t6, StopAt(KwEndFunction), []);
    var (_, t8) :- Expect(ts, t7, Kw(KwEndFunction));
    var (_, next) :- Expect(ts, t8, Sym(SSemicolon));
    Good(FunctionDef(name, t, b.variables, b.inputs, b.outputs, b.inouts, body), next)
  }

  datatype Items = Items(body: seq<Stmt>, functions: seq<FunctionDef>)

  /** Statements and functions, in any order, up to END_PROGRAM. */
  function ItemsAt(ts: seq<Token>, p: nat, front: Items): (r: Parsed<Items>)
    ensures Weakly(ts, p, r)
    decreases |ts| - p
  {
    if p >= |ts| then Bad(UnexpectedEof)
    else if ts[p] == Kw(KwFunction) then
      var (f, next) :- FunctionAt(ts, p);
      ItemsAt(ts, next, front.(functions := front.functions + [f]))
    else if ts[p] == Kw(KwEndProgram) then Good(front, p)
    else
      var (s, next) :- StatementAt(ts, p);
      ItemsAt(ts, next, front.(body := front.body + [s]))
  }

  function ProgramAt(ts: seq<Token>, p: nat): (r: Parsed<Program>)
    ensures Strictly(ts, p, r)
  {
    var (_, t1) :- Expect(ts, p, Kw(KwProgram));
    var (name, t2) :- ExpectIdent(ts, t1);
    var (vars, t3) :- if Starts(ts, t2, Kw(KwVar)) then VarBlockAt(ts, t2) else Good([], t2);
    var (items, t4) :- ItemsAt(ts, t3, Items([], []));
    var (_, next) :- Expect(ts, t4, Kw(KwEndProgram));
    Good(Program(name, vars, items.body, items.functions), next)
  }
}
