/** The Structured Text parser as it runs: a position moved along the tokens by loops
    and mutually recursive methods, each finding what the grammar functions say. */
module StParser {
  import opened HalValues
  import opened StAst
  import opened StGrammar

  datatype Result<+T> = Ok(value: T) | Err(error: ParseError)
  {
    predicate IsFailure() { Err? }
    function PropagateFailure<U>(): Result<U>
      requires Err?
    {
      Err(error)
    }
    function Extract(): T
      requires Ok?
    {
      value
    }
  }

  /** The outcome of a method that ended at `pos` is the one the grammar gives. */
  predicate Found<T(==)>(spec: Parsed<T>, r: Result<T>, pos: nat) {
    match spec
    case Good(v, next) => r == Ok(v) && pos == next
    case Bad(e) => r == Err(e)
  }

  class Parser {
    const tokens: seq<Token>
    var pos: nat

    constructor (tokens: seq<Token>)
      ensures this.tokens == tokens && pos == 0
    {
      this.tokens := tokens;
      pos := 0;
    }

    function PeekToken(): Option<Token>
      reads this
    {
      if pos < |tokens| then Some(tokens[pos]) else None
    }

    /** Moves on even at the end of the input. */
    method Advance() returns (t: Option<Token>)
      modifies this`pos
      ensures pos == old(pos) + 1
      ensures t == if old(pos) < |tokens| then Some(tokens[old(pos)]) else None
    {
      t := PeekToken();
      pos := pos + 1;
    }

    method Expect(expected: Token) returns (r: Result<()>)
      modifies this`pos
      ensures Found(StGrammar.Expect(tokens, old(pos), expected), r, pos)
    {
      var t := Advance();
      match t
      case Some(found) => if found == expected { return Ok(()); } else { return Err(UnexpectedToken(found)); }
      case None => return Err(UnexpectedEof);
    }

    method ExpectIdent() returns (r: Result<string>)
      modifies this`pos
      ensures Found(StGrammar.ExpectIdent(tokens, old(pos)), r, pos)
    {
      var t := Advance();
      match t
      case Some(found) => if found.Identifier? { return Ok(found.name); } else { return Err(UnexpectedToken(found)); }
      case None => return Err(UnexpectedEof);
    }

    // ----- expressions -----

    method ParseExpression() returns (r: Result<Expr>)
      modifies this`pos
      ensures Found(ExprAt(tokens, old(pos), 0), r, pos)
      decreases |tokens| - pos, 5
    {
      r := ParseExprPrec(0);
    }

    method ParseExprPrec(minPrec: nat) returns (r: Result<Expr>)
      modifies this`pos
      ensures Found(ExprAt(tokens, old(pos), minPrec), r, pos)
      decreases |tokens| - pos, 4
    {
      hide BinopOf; hide Precedence; hide UnaryAt; hide NameAt; hide PrimaryAt;
      var left :- ParseUnary();
      ghost var spec := OperatorsAt(tokens, pos, left, minPrec);
      while true
        invariant old(pos) < pos <= |tokens|
        invariant OperatorsAt(tokens, pos, left, minPrec) == spec
        decreases |tokens| - pos
      {
        var tok := PeekToken();
        if tok.None? { break; }
        var op := BinopOf(tok.value);
        if op.None? { break; }
        if Precedence(op.value) >= minPrec {
          var _ := Advance();
          var nextPrec := Precedence(op.value) + 1;
          var right :- ParseExprPrec(nextPrec);
          left := Binary(left, op.value, right);
        } else {
          break;
        }
      }
      r := Ok(left);
    }

    method ParseUnary() returns (r: Result<Expr>)
      modifies this`pos
      ensures Found(UnaryAt(tokens, old(pos)), r, pos)
      decreases |tokens| - pos, 3
    {
      hide PrimaryAt;
      var tok := PeekToken();
      if tok == Some(Sym(SMinus)) {
        var _ := Advance();
        var e :- ParseUnary();
        r := Ok(Unary(UNeg, e));
      } else if tok == Some(Kw(KwNot)) {
        var _ := Advance();
        var e :- ParseUnary();
        r := Ok(Unary(UNot, e));
      } else {
        r := ParsePrimary();
      }
    }

    method ParsePrimary() returns (r: Result<Expr>)
      modifies this`pos
      ensures Found(PrimaryAt(tokens, old(pos)), r, pos)
      decreases |tokens| - pos, 2
    {
      hide ExprAt;
      var ti := Advance();
      if ti.None? { return Err(UnexpectedEof); }
      match ti.value
      case IntegerLiteral(n) => r := Ok(IntLiteral(n));
      case RealLit(x) => r := Ok(RealLiteral(x));
      case Identifier(name) => r := ParseName(name);
      case Sym(s) =>
        if s == SLParen {
          var e :- ParseExpression();
          var _ :- Expect(Sym(SRParen));
          r := Ok(e);
        } else {
          r := Err(UnexpectedToken(ti.value));
        }
      case Kw(_) => r := Err(UnexpectedToken(ti.value));
      case TypeName(_) => r := Err(UnexpectedToken(ti.value));
    }

    /** Behind an identifier. */
    method ParseName(name: string) returns (r: Result<Expr>)
      requires 0 < pos <= |tokens|
      modifies this`pos
      ensures Found(NameAt(tokens, old(pos) - 1, name), r, pos)
      decreases |tokens| - pos, 6
    {
      hide ExprAt;
      if name == "TRUE" { return Ok(BoolLiteral(true)); }
      if name == "FALSE" { return Ok(BoolLiteral(false)); }
      if PeekToken() == Some(Sym(SLBracket)) {
        var _ := Advance();
        var index :- ParseExpression();
        var _ :- Expect(Sym(SRBracket));
        r := Ok(ArrayAccess(name, index));
      } else if PeekToken() == Some(Sym(SDot)) {
        var _ := Advance();
        var field :- ExpectIdent();
        r := Ok(FieldAccess(name, field));
      } else {
        r := Ok(Variable(name));
      }
    }

    // ----- statements -----

    predicate StopHere(stop: Stop)
      reads this
    {
      Stopped(tokens, pos, stop)
    }

    method ParseStatementsUntil(stop: Stop) returns (r: Result<seq<Stmt>>)
      modifies this`pos
      ensures Found(StatementsAt(tokens, old(pos), stop, []), r, pos)
      decreases |tokens| - pos, 4
    {
      hide StatementAt; hide Stopped;
      var stmts := [];
      while !StopHere(stop)
        invariant old(pos) <= pos && (pos > old(pos) ==> pos <= |tokens|)
        invariant StatementsAt(tokens, pos, stop, stmts) == StatementsAt(tokens, old(pos), stop, [])
        decreases |tokens| - pos
      {
        var s :- ParseStatement();
        stmts := stmts + [s];
      }
      r := Ok(stmts);
    }

    method ParseStatement() returns (r: Result<Stmt>)
      modifies this`pos
      ensures Found(StatementAt(tokens, old(pos)), r, pos)
      decreases |tokens| - pos, 3
    {
      hide IfAt; hide WhileAt; hide ForAt; hide CaseAt; hide RepeatAt; hide WordAt; hide IdentAt;
      var tok := PeekToken();
      if tok == Some(Kw(KwIf)) { r := ParseIf(); }
      else if tok == Some(Kw(KwWhile)) { r := ParseWhile(); }
      else if tok == Some(Kw(KwFor)) { r := ParseFor(); }
      else if tok == Some(Kw(KwCase)) { r := ParseCase(); }
      else if tok == Some(Kw(KwRepeat)) { r := ParseRepeat(); }
      else if tok == Some(Kw(KwReturn)) { r := ParseWord(KwReturn, Return); }
      else if tok == Some(Kw(KwExit)) { r := ParseWord(KwExit, Exit); }
      else { r := ParseIdentStmt(); }
    }

    /** RETURN and EXIT. */
    method ParseWord(k: Keyword, s: Stmt) returns (r: Result<Stmt>)
      modifies this`pos
      ensures Found(WordAt(tokens, old(pos), k, s), r, pos)
    {
      var _ :- Expect(Kw(k));
      var _ :- Expect(Sym(SSemicolon));
      r := Ok(s);
    }

    method ParseIdentStmt() returns (r: Result<Stmt>)
      modifies this`pos
      ensures Found(IdentAt(tokens, old(pos)), r, pos)
    {
      hide ExprAt; hide ArgsAt;
      var name :- ExpectIdent();
      var tok := PeekToken();
      if tok == Some(Sym(SLBracket)) {
        var _ := Advance();
        var index :- ParseExpression();
        var _ :- Expect(Sym(SRBracket));
        var _ :- Expect(Sym(SAssign));
        var value :- ParseExpression();
        var _ :- Expect(Sym(SSemicolon));
        return Ok(ArrayAssign(name, index, value));
      }
      if tok == Some(Sym(SAssign)) {
        var _ := Advance();
        var value :- ParseExpression();
        var _ :- Expect(Sym(SSemicolon));
        r := Ok(Assign(name, value));
      } else if tok == Some(Sym(SLParen)) {
        var _ := Advance();
        var args :- ParseArgs();
        var _ :- Expect(Sym(SRParen));
        var _ :- Expect(Sym(SSemicolon));
        r := Ok(FunCall(name, args));
      } else {
        r := Err(UnexpectedToken(Identifier("")));
      }
    }

    method ParseArgs() returns (r: Result<seq<Expr>>)
      modifies this`pos
      ensures Found(ArgsAt(tokens, old(pos)), r, pos)
    {
      hide ExprAt;
      var args := [];
      if PeekToken() != Some(Sym(SRParen)) {
        var first :- ParseExpression();
        args := args + [first];
        assert args == [first];
        ghost var spec := MoreArgsAt(tokens, pos, args);
        while PeekToken() == Some(Sym(SComma))
          invariant old(pos) < pos <= |tokens|
          invariant MoreArgsAt(tokens, pos, args) == spec
          decreases |tokens| - pos
        {
          var _ := Advance();
          var e :- ParseExpression();
          args := args + [e];
        }
      }
      r := Ok(args);
    }

    method ParseElse(close: Keyword) returns (r: Result<seq<Stmt>>)
      modifies this`pos
      ensures Found(ElseAt(tokens, old(pos), close), r, pos)
      decreases |tokens| - pos, 5
    {
      hide StatementsAt;
      if PeekToken() == Some(Kw(KwElse)) {
        var _ := Advance();
        r := ParseStatementsUntil(StopAt(close));
      } else {
        r := Ok([]);
      }
    }

    method ParseIf() returns (r: Result<Stmt>)
      modifies this`pos
      ensures Found(IfAt(tokens, old(pos)), r, pos)
      decreases |tokens| - pos, 2
    {
      hide ExprAt; hide StatementsAt; hide ElseAt;
      var _ :- Expect(Kw(KwIf));
      var cond :- ParseExpression();
      var _ :- Expect(Kw(KwThen));
      var thenBody :- ParseStatementsUntil(StopAtElseOr(KwEndIf));
      var elseBody :- ParseElse(KwEndIf);
      var _ :- Expect(Kw(KwEndIf));
      var _ :- Expect(Sym(SSemicolon));
      r := Ok(If(cond, thenBody, elseBody));
    }

    method ParseWhile() returns (r: Result<Stmt>)
      modifies this`pos
      ensures Found(WhileAt(tokens, old(pos)), r, pos)
      decreases |tokens| - pos, 2
    {
      hide ExprAt; hide StatementsAt;
      var _ :- Expect(Kw(KwWhile));
      var cond :- ParseExpression();
      var _ :- Expect(Kw(KwDo));
      var body :- ParseStatementsUntil(StopAt(KwEndWhile));
      var _ :- Expect(Kw(KwEndWhile));
      var _ :- Expect(Sym(SSemicolon));
      r := Ok(While(cond, body));
    }

    method ParseStep() returns (r: Result<Option<Expr>>)
      modifies this`pos
      ensures Found(StepAt(tokens, old(pos)), r, pos)
    {
      hide ExprAt;
      if PeekToken() == Some(Kw(KwBy)) {
        var _ := Advance();
        var e :- ParseExpression();
        r := Ok(Some(e));
      } else {
        r := Ok(None);
      }
    }

    method ParseFor() returns (r: Result<Stmt>)
      modifies this`pos
      ensures Found(ForAt(tokens, old(pos)), r, pos)
      decreases |tokens| - pos, 2
    {
      hide ExprAt; hide StatementsAt; hide StepAt;
      var _ :- Expect(Kw(KwFor));
      var v :- ExpectIdent();
      var _ :- Expect(Sym(SAssign));
      var start :- ParseExpression();
      var _ :- Expect(Kw(KwTo));
      var end :- ParseExpression();
      var step :- ParseStep();
      var _ :- Expect(Kw(KwDo));
      var body :- ParseStatementsUntil(StopAt(KwEndFor));
      var _ :- Expect(Kw(KwEndFor));
      var _ :- Expect(Sym(SSemicolon));
      r := Ok(For(v, start, end, step, body));
    }

    method ParseRepeat() returns (r: Result<Stmt>)
      modifies this`pos
      ensures Found(RepeatAt(tokens, old(pos)), r, pos)
      decreases |tokens| - pos, 2
    {
      hide ExprAt; hide StatementsAt;
      var _ :- Expect(Kw(KwRepeat));
      var body :- ParseStatementsUntil(StopAt(KwUntil));
      var _ :- Expect(Kw(KwUntil));
      var cond :- ParseExpression();
      var _ :- Expect(Kw(KwEndRepeat));
      var _ :- Expect(Sym(SSemicolon));
      r := Ok(Repeat(body, cond));
    }

    method ParseCaseValues() returns (r: Result<seq<int>>)
      modifies this`pos
      ensures Found(ValuesAt(tokens, old(pos), []), r, pos)
    {
      var values := [];
      while true
        invariant old(pos) <= pos && (pos > old(pos) ==> pos <= |tokens|)
        invariant ValuesAt(tokens, pos, values) == ValuesAt(tokens, old(pos), [])
        decreases |tokens| - pos
      {
        var t := Advance();
        if t.None? { return Err(UnexpectedEof); }
        if !t.value.IntegerLiteral? { return Err(UnexpectedToken(t.value)); }
        values := values + [t.value.n];
        var next := PeekToken();
        if next == Some(Sym(SColon)) {
          var _ := Advance();
          return Ok(values);
        } else if next == Some(Sym(SComma)) {
          var _ := Advance();
        } else {
          return Err(ExpectedToken(Sym(SColon)));
        }
      }
    }

    method ParseArms() returns (r: Result<seq<CaseArm>>)
      modifies this`pos
      ensures Found(ArmsAt(tokens, old(pos), []), r, pos)
      decreases |tokens| - pos, 5
    {
      hide ValuesAt; hide StatementsAt;
      var arms := [];
      while !(PeekToken() == Some(Kw(KwEndCase)) || PeekToken() == Some(Kw(KwElse)))
        invariant old(pos) <= pos && (pos > old(pos) ==> pos <= |tokens|)
        invariant ArmsAt(tokens, pos, arms) == ArmsAt(tokens, old(pos), [])
        decreases |tokens| - pos
      {
        var values :- ParseCaseValues();
        var body :- ParseStatementsUntil(StopAtArm);
        arms := arms + [CaseArm(values, body)];
      }
      r := Ok(arms);
    }

    method ParseCase() returns (r: Result<Stmt>)
      modifies this`pos
      ensures Found(CaseAt(tokens, old(pos)), r, pos)
      decreases |tokens| - pos, 2
    {
      hide ArmsAt; hide ElseAt;
      var _ :- Expect(Kw(KwCase));
      var v :- ExpectIdent();
      var _ :- Expect(Kw(KwOf));
      var arms :- ParseArms();
      var elseBody :- ParseElse(KwEndCase);
      var _ :- Expect(Kw(KwEndCase));
      var _ :- Expect(Sym(SSemicolon));
      r := Ok(Case(v, arms, elseBody));
    }

    // ----- declarations and programs -----

    method ParseVarType() returns (r: Result<VarType>)
      modifies this`pos
      ensures Found(TypeAt(tokens, old(pos)), r, pos)
      decreases |tokens| - pos
    {
      hide ExprAt; hide StringLengthAt;
      var ti := Advance();
      if ti.None? { return Err(UnexpectedEof); }
      if !ti.value.TypeName? || ti.value.t.TTof? { return Err(UnexpectedToken(ti.value)); }
      if ti.value.t.TString? {
        r := ParseStringLength();
      } else if ti.value.t.TArray? {
        var _ :- Expect(Sym(SLBracket));
        var _ :- ParseExpression();
        var _ :- Expect(Sym(SDotDot));
        var _ :- ParseExpression();
        var _ :- Expect(Sym(SRBracket));
        var _ :- Expect(Kw(KwOf));
        var _ :- ParseVarType();
        r := Ok(TArray);
      } else {
        r := Ok(ti.value.t);
      }
    }

    method ParseStringLength() returns (r: Result<VarType>)
      modifies this`pos
      ensures Found(StringLengthAt(tokens, old(pos)), r, pos)
    {
      if PeekToken() == Some(Sym(SLParen)) {
        var _ := Advance();
        var ti := Advance();
        if ti.None? || !ti.value.IntegerLiteral? { return Err(UnexpectedEof); }
        var _ :- Expect(Sym(SRParen));
      }
      r := Ok(TString);
    }

    method ParseDecl() returns (r: Result<VarDecl>)
      modifies this`pos
      ensures Found(DeclAt(tokens, old(pos)), r, pos)
    {
      hide TypeAt;
      var name :- ExpectIdent();
      var _ :- Expect(Sym(SColon));
      var t :- ParseVarType();
      var _ :- Expect(Sym(SSemicolon));
      r := Ok(VarDecl(name, t));
    }

    method ParseDecls() returns (r: Result<seq<VarDecl>>)
      modifies this`pos
      ensures Found(DeclsAt(tokens, old(pos), []), r, pos)
    {
      hide DeclAt;
      var vars := [];
      while PeekToken() != Some(Kw(KwEndVar))
        invariant old(pos) <= pos && (pos > old(pos) ==> pos <= |tokens|)
        invariant DeclsAt(tokens, pos, vars) == DeclsAt(tokens, old(pos), [])
        decreases |tokens| - pos
      {
        var d :- ParseDecl();
        if Declares(vars, d.name) { return Err(RedefinedVariable(d.name)); }
        vars := vars + [d];
      }
      r := Ok(vars);
    }

    method ParseVarBlock() returns (r: Result<seq<VarDecl>>)
      modifies this`pos
      ensures Found(VarBlockAt(tokens, old(pos)), r, pos)
    {
      hide DeclsAt;
      var _ :- Expect(Kw(KwVar));
      var vars :- ParseDecls();
      var _ :- Expect(Kw(KwEndVar));
      if PeekToken() == Some(Sym(SSemicolon)) { var _ := Advance(); }
      r := Ok(vars);
    }

    method ParseParamBlock(start: Keyword) returns (r: Result<seq<VarDecl>>)
      modifies this`pos
      ensures Found(ParamBlockAt(tokens, old(pos), start), r, pos)
    {
      hide DeclsAt;
      var _ :- Expect(Kw(start));
      var vars :- ParseDecls();
      var _ :- Expect(Kw(KwEndVar));
      var _ :- Expect(Sym(SSemicolon));
      r := Ok(vars);
    }

    method ParseBlocks() returns (r: Result<Blocks>)
      modifies this`pos
      ensures Found(BlocksAt(tokens, old(pos), Blocks([], [], [], [])), r, pos)
    {
      hide ParamBlockAt; hide VarBlockAt;
      var b := Blocks([], [], [], []);
      while true
        invariant old(pos) <= pos && (pos > old(pos) ==> pos <= |tokens|)
        invariant BlocksAt(tokens, pos, b) == BlocksAt(tokens, old(pos), Blocks([], [], [], []))
        decreases |tokens| - pos
      {
        var tok := PeekToken();
        if tok == Some(Kw(KwVarInput)) {
          var vars :- ParseParamBlock(KwVarInput);
          b := b.(inputs := vars);
        } else if tok == Some(Kw(KwVarOutput)) {
          var vars :- ParseParamBlock(KwVarOutput);
          b := b.(outputs := vars);
        } else if tok == Some(Kw(KwVarInOut)) {
          var vars :- ParseParamBlock(KwVarInOut);
          b := b.(inouts := vars);
        } else if tok == Some(Kw(KwVar)) {
          var vars :- ParseVarBlock();
          b := b.(variables := vars);
        } else {
          break;
        }
      }
      r := Ok(b);
    }

    method ParseFunctionDef() returns (r: Result<FunctionDef>)
      modifies this`pos
      ensures Found(FunctionAt(tokens, old(pos)), r, pos)
    {
      hide TypeAt; hide BlocksAt; hide StatementsAt;
      var _ :- Expect(Kw(KwFunction));
      var name :- ExpectIdent();
      var _ :- Expect(Sym(SColon));
      var t :- ParseVarType();
      var _ :- Expect(Sym(SSemicolon));
      var b :- ParseBlocks();
      var body :- ParseStatementsUntil(StopAt(KwEndFunction));
      var _ :- Expect(Kw(KwEndFunction));
      var _ :- Expect(Sym(SSemicolon));
      r := Ok(FunctionDef(name, t, b.variables, b.inputs, b.outputs, b.inouts, body));
    }

    method ParseItems() returns (r: Result<Items>)
      modifies this`pos
      ensures Found(ItemsAt(tokens, old(pos), Items([], [])), r, pos)
    {
      hide FunctionAt; hide StatementAt;
      var items := Items([], []);
      while true
        invariant old(pos) <= pos && (pos > old(pos) ==> pos <= |tokens|)
        invariant ItemsAt(tokens, pos, items) == ItemsAt(tokens, old(pos), Items([], []))
        decreases |tokens| - pos
      {
        var tok := PeekToken();
        if tok.None? { return Err(UnexpectedEof); }
        if tok.value == Kw(KwFunction) {
          var f :- ParseFunctionDef();
          items := items.(functions := items.functions + [f]);
        } else if tok.value == Kw(KwEndProgram) {
          break;
        } else {
          var s :- ParseStatement();
          items := items.(body := items.body + [s]);
        }
      }
      r := Ok(items);
    }

    method ParseProgram() returns (r: Result<Program>)
      modifies this`pos
      ensures Found(ProgramAt(tokens, old(pos)), r, pos)
    {
      hide VarBlockAt; hide ItemsAt;
      var _ :- Expect(Kw(KwProgram));
      var name :- ExpectIdent();
      var vars := [];
      if PeekToken() == Some(Kw(KwVar)) {
        vars :- ParseVarBlock();
      }
      var items :- ParseItems();
      var _ :- Expect(Kw(KwEndProgram));
      r := Ok(Program(name, vars, items.body, items.functions));
    }
  }

  /** Every token list is parsed to a program or to an error. */
  method ParseTokens(tokens: seq<Token>) returns (r: Result<Program>)
    ensures match ProgramAt(tokens, 0) case Good(v, _) => r == Ok(v) case Bad(e) => r == Err(e)
  {
    hide ProgramAt;
    var p := new Parser(tokens);
    r := p.ParseProgram();
  }
}
