/** The words of Structured Text: each statement, written out keyword by keyword, is read as the
    statement that it spells. */
module StWording {
  import opened HalValues
  import opened StAst
  import opened StGrammar
  import opened StPrint
  import opened StRoundTrip

  /** `ts` is read as the one statement `s`. */
  predicate Reads(ts: seq<Token>, s: Stmt) { StatementAt(ts, 0) == Good(s, |ts|) }

  lemma PrintedReads(s: Stmt, ts: seq<Token>)
    requires Writable(s) && ts == PrintStmt(s)
    ensures Reads(ts, s)
  {
    hide StatementAt; hide PrintStmt; hide Writable;
    assert At(ts, 0, ts);
    StmtReads(ts, 0, s);
  }

  lemma SimpleStatements(v: string, i: Expr, e: Expr)
    requires Printable(i) && Printable(e)
    ensures Reads([Identifier(v), Sym(SAssign)] + Print(e, 0) + [Sym(SSemicolon)], Assign(v, e))
    ensures Reads([Identifier(v), Sym(SLBracket)] + Print(i, 0) + [Sym(SRBracket), Sym(SAssign)] + Print(e, 0) +
                  [Sym(SSemicolon)], ArrayAssign(v, i, e))
    ensures Reads([Kw(KwReturn), Sym(SSemicolon)], Return) && Reads([Kw(KwExit), Sym(SSemicolon)], Exit)
  {
    hide Reads; hide Print; hide Printable;
    PrintedReads(Assign(v, e), [Identifier(v), Sym(SAssign)] + Print(e, 0) + [Sym(SSemicolon)]);
    PrintedReads(ArrayAssign(v, i, e),
                 [Identifier(v), Sym(SLBracket)] + Print(i, 0) + [Sym(SRBracket), Sym(SAssign)] + Print(e, 0) +
                 [Sym(SSemicolon)]);
    PrintedReads(Return, [Kw(KwReturn), Sym(SSemicolon)]);
    PrintedReads(Exit, [Kw(KwExit), Sym(SSemicolon)]);
  }

  lemma BareCallSpelled(f: string)
    ensures Reads([Identifier(f), Sym(SLParen), Sym(SRParen), Sym(SSemicolon)], FunCall(f, []))
  {
    hide Reads; hide Print;
    PrintedReads(FunCall(f, []), [Identifier(f), Sym(SLParen), Sym(SRParen), Sym(SSemicolon)]);
  }

  lemma CallSpelled(f: string, a: Expr, b: Expr)
    requires Printable(a) && Printable(b)
    ensures Reads([Identifier(f), Sym(SLParen)] + Print(a, 0) + [Sym(SComma)] + Print(b, 0) +
                  [Sym(SRParen), Sym(SSemicolon)], FunCall(f, [a, b]))
  {
    CallPrinted(f, [a, b]);
    hide *;
    TwoArgs(a, b);
    PrintedReads(FunCall(f, [a, b]), [Identifier(f), Sym(SLParen)] + Print(a, 0) + [Sym(SComma)] + Print(b, 0) +
                                     [Sym(SRParen), Sym(SSemicolon)]);
  }

  lemma CallPrinted(f: string, args: seq<Expr>)
    ensures PrintStmt(FunCall(f, args)) == [Identifier(f), Sym(SLParen)] + PrintArgs(args) +
                                           [Sym(SRParen), Sym(SSemicolon)]
    ensures (forall i :: 0 <= i < |args| ==> Printable(args[i])) ==> Writable(FunCall(f, args))
  {
    hide PrintArgs; hide Printable;
  }

  lemma TwoArgs(a: Expr, b: Expr)
    ensures PrintArgs([a, b]) == Print(a, 0) + [Sym(SComma)] + Print(b, 0)
  {
    hide Print;
    assert [a, b][1..] == [b] && [b][1..] == [];
    assert PrintMoreArgs([b]) == [Sym(SComma)] + (Print(b, 0) + []);
  }

  /** The part behind THEN is the one for a true condition. */
  lemma IfSpelled(c: Expr, t: seq<Stmt>, e: seq<Stmt>)
    requires Printable(c) && AllWritable(t) && AllWritable(e)
    ensures e != [] ==> Reads([Kw(KwIf)] + Print(c, 0) + [Kw(KwThen)] + PrintSeq(t) + [Kw(KwElse)] + PrintSeq(e) +
                              [Kw(KwEndIf), Sym(SSemicolon)], If(c, t, e))
    ensures Reads([Kw(KwIf)] + Print(c, 0) + [Kw(KwThen)] + PrintSeq(t) + [Kw(KwEndIf), Sym(SSemicolon)], If(c, t, []))
  {
    hide Reads; hide Print; hide PrintSeq; hide Printable; hide AllWritable;
    if e != [] {
      PrintedIf2(c, t, e);
      PrintedReads(If(c, t, e), [Kw(KwIf)] + Print(c, 0) + [Kw(KwThen)] + PrintSeq(t) + [Kw(KwElse)] + PrintSeq(e) +
                                [Kw(KwEndIf), Sym(SSemicolon)]);
    }
    NoneWritable();
    PrintedReads(If(c, t, []), [Kw(KwIf)] + Print(c, 0) + [Kw(KwThen)] + PrintSeq(t) + [Kw(KwEndIf), Sym(SSemicolon)]);
  }

  lemma NoneWritable()
    ensures AllWritable([])
  {
  }

  lemma PrintedIf2(c: Expr, t: seq<Stmt>, e: seq<Stmt>)
    requires e != []
    ensures PrintStmt(If(c, t, e)) == [Kw(KwIf)] + Print(c, 0) + [Kw(KwThen)] + PrintSeq(t) + [Kw(KwElse)] +
                                      PrintSeq(e) + [Kw(KwEndIf), Sym(SSemicolon)]
  {
    hide Print; hide PrintSeq;
    assert PrintElse(e) == [Kw(KwElse)] + PrintSeq(e);
  }

  lemma LoopsSpelled(c: Expr, b: seq<Stmt>)
    requires Printable(c) && AllWritable(b)
    ensures Reads([Kw(KwWhile)] + Print(c, 0) + [Kw(KwDo)] + PrintSeq(b) + [Kw(KwEndWhile), Sym(SSemicolon)],
                  While(c, b))
    ensures Reads([Kw(KwRepeat)] + PrintSeq(b) + [Kw(KwUntil)] + Print(c, 0) + [Kw(KwEndRepeat), Sym(SSemicolon)],
                  Repeat(b, c))
  {
    hide Reads; hide Print; hide PrintSeq; hide Printable; hide AllWritable;
    PrintedReads(While(c, b),
                 [Kw(KwWhile)] + Print(c, 0) + [Kw(KwDo)] + PrintSeq(b) + [Kw(KwEndWhile), Sym(SSemicolon)]);
    PrintedReads(Repeat(b, c),
                 [Kw(KwRepeat)] + PrintSeq(b) + [Kw(KwUntil)] + Print(c, 0) + [Kw(KwEndRepeat), Sym(SSemicolon)]);
  }

  /** The first expression is the start, the second the limit. */
  lemma ForSpelled(v: string, start: Expr, end: Expr, b: seq<Stmt>)
    requires Printable(start) && Printable(end) && AllWritable(b)
    ensures Reads([Kw(KwFor), Identifier(v), Sym(SAssign)] + Print(start, 0) + [Kw(KwTo)] + Print(end, 0) + [Kw(KwDo)] +
                  PrintSeq(b) + [Kw(KwEndFor), Sym(SSemicolon)], For(v, start, end, None, b))
  {
    hide Reads; hide Print; hide PrintSeq; hide Printable; hide AllWritable;
    var s := For(v, start, end, None, b);
    ForText(v, Print(start, 0), Print(end, 0), [], PrintSeq(b));
    assert PrintStmt(s) == [Kw(KwFor)] + ([Identifier(v)] + ([Sym(SAssign)] + (Print(start, 0) + ([Kw(KwTo)] +
                           (Print(end, 0) + ([] + ([Kw(KwDo)] + (PrintSeq(b) + SemicolonAfter(KwEndFor)))))))));
    hide PrintStmt;
    PrintedReads(s, [Kw(KwFor), Identifier(v), Sym(SAssign)] + Print(start, 0) + [Kw(KwTo)] + Print(end, 0) +
                    [] + [Kw(KwDo)] + PrintSeq(b) + [Kw(KwEndFor), Sym(SSemicolon)]);
    var front := [Kw(KwFor), Identifier(v), Sym(SAssign)] + Print(start, 0) + [Kw(KwTo)] + Print(end, 0);
    assert front + [] == front;
  }

  lemma ForText(v: string, start: seq<Token>, end: seq<Token>, step: seq<Token>, body: seq<Token>)
    ensures [Kw(KwFor)] + ([Identifier(v)] + ([Sym(SAssign)] + (start + ([Kw(KwTo)] + (end + (step + ([Kw(KwDo)] +
              (body + SemicolonAfter(KwEndFor))))))))) ==
            [Kw(KwFor), Identifier(v), Sym(SAssign)] + start + [Kw(KwTo)] + end + step + [Kw(KwDo)] + body +
              [Kw(KwEndFor), Sym(SSemicolon)]
  {
  }

  /** The expression behind BY is the step. */
  lemma ForBySpelled(v: string, start: Expr, end: Expr, step: Expr, b: seq<Stmt>)
    requires Printable(start) && Printable(end) && Printable(step) && AllWritable(b)
    ensures Reads([Kw(KwFor), Identifier(v), Sym(SAssign)] + Print(start, 0) + [Kw(KwTo)] + Print(end, 0) +
                  ([Kw(KwBy)] + Print(step, 0)) + [Kw(KwDo)] + PrintSeq(b) + [Kw(KwEndFor), Sym(SSemicolon)],
                  For(v, start, end, Some(step), b))
  {
    hide Reads; hide Print; hide PrintSeq; hide Printable; hide AllWritable;
    var s, part := For(v, start, end, Some(step), b), [Kw(KwBy)] + Print(step, 0);
    ForText(v, Print(start, 0), Print(end, 0), part, PrintSeq(b));
    assert PrintStmt(s) == [Kw(KwFor)] + ([Identifier(v)] + ([Sym(SAssign)] + (Print(start, 0) + ([Kw(KwTo)] +
                           (Print(end, 0) + (part + ([Kw(KwDo)] + (PrintSeq(b) + SemicolonAfter(KwEndFor)))))))));
    hide PrintStmt;
    PrintedReads(s, [Kw(KwFor), Identifier(v), Sym(SAssign)] + Print(start, 0) + [Kw(KwTo)] + Print(end, 0) +
                    part + [Kw(KwDo)] + PrintSeq(b) + [Kw(KwEndFor), Sym(SSemicolon)]);
  }

  /** Two arms, the first with two values, and an ELSE part. */
  lemma CaseSpelled(v: string, i: nat, j: nat, k: nat, s: seq<Stmt>, t: seq<Stmt>, e: seq<Stmt>)
    requires AllWritable(s) && AllWritable(t) && AllWritable(e) && e != []
    ensures Reads([Kw(KwCase), Identifier(v), Kw(KwOf)] +
                  [IntegerLiteral(i), Sym(SComma), IntegerLiteral(j), Sym(SColon)] + PrintSeq(s) +
                  [IntegerLiteral(k), Sym(SColon)] + PrintSeq(t) + [Kw(KwElse)] + PrintSeq(e) +
                  [Kw(KwEndCase), Sym(SSemicolon)], Case(v, [CaseArm([i, j], s), CaseArm([k], t)], e))
  {
    hide Reads; hide PrintSeq; hide AllWritable;
    var arms := [CaseArm([i, j], s), CaseArm([k], t)];
    TwoArms(i, j, k, s, t);
    hide PrintArms; hide ArmsWritable;
    assert PrintElse(e) == [Kw(KwElse)] + PrintSeq(e);
    CaseText(v, [IntegerLiteral(i), Sym(SComma), IntegerLiteral(j), Sym(SColon)], PrintSeq(s),
             [IntegerLiteral(k), Sym(SColon)], PrintSeq(t), PrintSeq(e));
    hide PrintElse;
    PrintedReads(Case(v, arms, e),
                 [Kw(KwCase), Identifier(v), Kw(KwOf)] +
                 [IntegerLiteral(i), Sym(SComma), IntegerLiteral(j), Sym(SColon)] + PrintSeq(s) +
                 [IntegerLiteral(k), Sym(SColon)] + PrintSeq(t) + [Kw(KwElse)] + PrintSeq(e) +
                 [Kw(KwEndCase), Sym(SSemicolon)]);
  }

  lemma CaseText(v: string, a: seq<Token>, s: seq<Token>, b: seq<Token>, t: seq<Token>, e: seq<Token>)
    ensures [Kw(KwCase)] + ([Identifier(v)] + ([Kw(KwOf)] + ((a + s + b + t) + (([Kw(KwElse)] + e) +
              SemicolonAfter(KwEndCase))))) ==
            [Kw(KwCase), Identifier(v), Kw(KwOf)] + a + s + b + t + [Kw(KwElse)] + e + [Kw(KwEndCase), Sym(SSemicolon)]
  {
  }

  lemma TwoArms(i: nat, j: nat, k: nat, s: seq<Stmt>, t: seq<Stmt>)
    requires AllWritable(s) && AllWritable(t)
    ensures var arms := [CaseArm([i, j], s), CaseArm([k], t)];
            && ArmsWritable(arms)
            && PrintArms(arms) == [IntegerLiteral(i), Sym(SComma), IntegerLiteral(j), Sym(SColon)] + PrintSeq(s) +
                                  [IntegerLiteral(k), Sym(SColon)] + PrintSeq(t)
  {
    hide PrintSeq; hide AllWritable;
    var arms := [CaseArm([i, j], s), CaseArm([k], t)];
    assert arms[1..] == [CaseArm([k], t)] && arms[1..][1..] == [];
    assert [i, j][1..] == [j];
    assert PrintValues([k]) == [IntegerLiteral(k), Sym(SColon)];
    assert PrintValues([i, j]) == [IntegerLiteral(i), Sym(SComma), IntegerLiteral(j), Sym(SColon)];
    assert PrintArms(arms[1..]) == PrintValues([k]) + PrintSeq(t);
    assert ArmsWritable(arms[1..]);
  }
}
