/** Printed statements read back as themselves, wherever they stand. */
module StRoundTrip {
  import opened HalValues
  import opened StAst
  import opened StGrammar
  import opened StPrint

  // ----- printing -----

  function SemicolonAfter(k: Keyword): seq<Token> { [Kw(k), Sym(SSemicolon)] }

  function PrintStmt(s: Stmt): seq<Token>
    decreases s
  {
    match s
    case Assign(v, e) => [Identifier(v)] + ([Sym(SAssign)] + (Print(e, 0) + [Sym(SSemicolon)]))
    case ArrayAssign(v, i, e) =>
      [Identifier(v)] + ([Sym(SLBracket)] + (Print(i, 0) + ([Sym(SRBracket)] + ([Sym(SAssign)] +
      (Print(e, 0) + [Sym(SSemicolon)])))))
    case FunCall(f, args) =>
      [Identifier(f)] + ([Sym(SLParen)] + (PrintArgs(args) + [Sym(SRParen), Sym(SSemicolon)]))
    case If(c, t, e) =>
      [Kw(KwIf)] + (Print(c, 0) + ([Kw(KwThen)] + (PrintSeq(t) + (PrintElse(e) + SemicolonAfter(KwEndIf)))))
    case While(c, b) => [Kw(KwWhile)] + (Print(c, 0) + ([Kw(KwDo)] + (PrintSeq(b) + SemicolonAfter(KwEndWhile))))
    case For(v, start, end, step, b) =>
      [Kw(KwFor)] + ([Identifier(v)] + ([Sym(SAssign)] + (Print(start, 0) + ([Kw(KwTo)] + (Print(end, 0) +
      (PrintStep(step) + ([Kw(KwDo)] + (PrintSeq(b) + SemicolonAfter(KwEndFor)))))))))
    case Case(v, arms, e) =>
      [Kw(KwCase)] + ([Identifier(v)] + ([Kw(KwOf)] + (PrintArms(arms) + (PrintElse(e) + SemicolonAfter(KwEndCase)))))
    case Repeat(b, c) => [Kw(KwRepeat)] + (PrintSeq(b) + ([Kw(KwUntil)] + (Print(c, 0) + SemicolonAfter(KwEndRepeat))))
    case Return => SemicolonAfter(KwReturn)
    case Exit => SemicolonAfter(KwExit)
  }

  function PrintSeq(ss: seq<Stmt>): seq<Token>
    decreases ss, 0
  {
    if ss == [] then [] else PrintStmt(ss[0]) + PrintSeq(ss[1..])
  }

  /** No ELSE for an empty part. */
  function PrintElse(ss: seq<Stmt>): seq<Token>
    decreases ss, 1
  {
    if ss == [] then [] else [Kw(KwElse)] + PrintSeq(ss)
  }

  function PrintStep(step: Option<Expr>): seq<Token> {
    match step case None => [] case Some(e) => [Kw(KwBy)] + Print(e, 0)
  }

  function PrintMoreArgs(args: seq<Expr>): seq<Token> {
    if args == [] then [] else [Sym(SComma)] + (Print(args[0], 0) + PrintMoreArgs(args[1..]))
  }

  function PrintArgs(args: seq<Expr>): seq<Token> {
    if args == [] then [] else Print(args[0], 0) + PrintMoreArgs(args[1..])
  }

  function PrintValues(vs: seq<int>): seq<Token>
    requires vs != []
  {
    if |vs| == 1 then [IntegerLiteral(vs[0])] + [Sym(SColon)]
    else [IntegerLiteral(vs[0])] + ([Sym(SComma)] + PrintValues(vs[1..]))
  }

  function PrintArms(arms: seq<CaseArm>): seq<Token>
    decreases arms
  {
    if arms == [] then []
    else
      (if arms[0].values == [] then [] else PrintValues(arms[0].values)) +
      (PrintSeq(arms[0].body) + PrintArms(arms[1..]))
  }

  // ----- what source text can denote -----

  predicate Writable(s: Stmt)
    decreases s
  {
    match s
    case Assign(_, e) => Printable(e)
    case ArrayAssign(_, i, e) => Printable(i) && Printable(e)
    case FunCall(_, args) => forall i :: 0 <= i < |args| ==> Printable(args[i])
    case If(c, t, e) => Printable(c) && AllWritable(t) && AllWritable(e)
    case While(c, b) => Printable(c) && AllWritable(b)
    case For(_, start, end, step, b) =>
      Printable(start) && Printable(end) && (step.Some? ==> Printable(step.value)) && AllWritable(b)
    case Case(_, arms, e) => ArmsWritable(arms) && AllWritable(e)
    case Repeat(b, c) => AllWritable(b) && Printable(c)
    case Return => true
    case Exit => true
  }

  predicate AllWritable(ss: seq<Stmt>)
    decreases ss
  {
    ss == [] || (Writable(ss[0]) && AllWritable(ss[1..]))
  }

  /** Every arm has values, and a value is not negative. */
  predicate ArmsWritable(arms: seq<CaseArm>)
    decreases arms
  {
    || arms == []
    || (&& arms[0].values != [] && (forall i :: 0 <= i < |arms[0].values| ==> arms[0].values[i] >= 0)
        && AllWritable(arms[0].body) && ArmsWritable(arms[1..]))
  }

  // ----- pieces -----

  /** A token that cannot go on any expression. */
  predicate Closer(t: Token) { BinopOf(t).None? && t != Sym(SLBracket) && t != Sym(SDot) }

  lemma Closers()
    ensures Closer(Kw(KwThen)) && Closer(Kw(KwDo)) && Closer(Kw(KwTo)) && Closer(Kw(KwBy)) && Closer(Kw(KwEndRepeat))
    ensures Closer(Sym(SSemicolon)) && Closer(Sym(SRBracket)) && Closer(Sym(SComma)) && Closer(Sym(SRParen))
  {
  }

  lemma TokenThen(ts: seq<Token>, p: nat, t: Token, rest: seq<Token>)
    requires At(ts, p, [t] + rest)
    ensures p < |ts| && ts[p] == t && At(ts, p + 1, rest)
  {
    hide At;
    AtSplit(ts, p, [t], rest);
    AtFirst(ts, p, [t]);
  }

  lemma ExprThen(ts: seq<Token>, p: nat, e: Expr, rest: seq<Token>)
    requires Printable(e) && At(ts, p, Print(e, 0) + rest) && rest != [] && Closer(rest[0])
    ensures ExprAt(ts, p, 0) == Good(e, p + |Print(e, 0)|)
    ensures At(ts, p + |Print(e, 0)|, rest)
  {
    hide At; hide ExprAt; hide Print; hide BinopOf;
    AtSplit(ts, p, Print(e, 0), rest);
    AtFirst(ts, p + |Print(e, 0)|, rest);
    ExpressionRoundTrip(ts, p, e);
  }

  lemma {:induction false} MoreArgsRead(ts: seq<Token>, p: nat, args: seq<Expr>, rest: seq<Token>, front: seq<Expr>)
    requires At(ts, p, PrintMoreArgs(args) + rest) && rest != [] && rest[0] == Sym(SRParen)
    requires forall i :: 0 <= i < |args| ==> Printable(args[i])
    ensures MoreArgsAt(ts, p, front) == Good(front + args, p + |PrintMoreArgs(args)|)
    ensures At(ts, p + |PrintMoreArgs(args)|, rest)
    decreases args
  {
    hide At; hide ExprAt; hide Print; hide Printable;
    if args == [] {
      assert [] + rest == rest;
      AtFirst(ts, p, rest);
      assert front + [] == front;
    } else {
      var e, more := args[0], PrintMoreArgs(args[1..]);
      assert PrintMoreArgs(args) + rest == [Sym(SComma)] + (Print(e, 0) + (more + rest));
      TokenThen(ts, p, Sym(SComma), Print(e, 0) + (more + rest));
      CloserNext(args[1..], rest);
      ExprThen(ts, p + 1, e, more + rest);
      MoreArgsRead(ts, p + 1 + |Print(e, 0)|, args[1..], rest, front + [e]);
      assert front + [e] + args[1..] == front + args;
    }
  }

  lemma CloserNext(args: seq<Expr>, rest: seq<Token>)
    requires rest != [] && rest[0] == Sym(SRParen)
    ensures PrintMoreArgs(args) + rest != [] && Closer((PrintMoreArgs(args) + rest)[0])
  {
    hide Print;
  }

  /** No expression begins with a closing parenthesis. */
  lemma NoExprAtParen(ts: seq<Token>, p: nat)
    requires Starts(ts, p, Sym(SRParen))
    ensures ExprAt(ts, p, 0).Bad?
  {
    assert PrimaryAt(ts, p).Bad?;
    assert UnaryAt(ts, p).Bad?;
  }

  lemma ArgsRead(ts: seq<Token>, p: nat, args: seq<Expr>, rest: seq<Token>)
    requires At(ts, p, PrintArgs(args) + rest) && rest != [] && rest[0] == Sym(SRParen)
    requires forall i :: 0 <= i < |args| ==> Printable(args[i])
    ensures ArgsAt(ts, p) == Good(args, p + |PrintArgs(args)|)
    ensures At(ts, p + |PrintArgs(args)|, rest)
  {
    hide At; hide ExprAt; hide Print; hide Printable; hide MoreArgsAt; hide PrintMoreArgs;
    if args == [] {
      assert [] + rest == rest;
      AtFirst(ts, p, rest);
    } else {
      var e, more := args[0], PrintMoreArgs(args[1..]);
      assert PrintArgs(args) + rest == Print(e, 0) + (more + rest);
      CloserNext(args[1..], rest);
      ExprThen(ts, p, e, more + rest);
      if Starts(ts, p, Sym(SRParen)) { NoExprAtParen(ts, p); assert false; }
      MoreArgsRead(ts, p + |Print(e, 0)|, args[1..], rest, [e]);
      assert [e] + args[1..] == args;
    }
  }

  lemma {:induction false} ValuesRead(ts: seq<Token>, p: nat, vs: seq<int>, rest: seq<Token>, front: seq<int>)
    requires vs != [] && At(ts, p, PrintValues(vs) + rest)
    ensures ValuesAt(ts, p, front) == Good(front + vs, p + |PrintValues(vs)|)
    ensures At(ts, p + |PrintValues(vs)|, rest)
    decreases vs
  {
    hide At;
    var v := IntegerLiteral(vs[0]);
    if |vs| == 1 {
      assert PrintValues(vs) + rest == [v] + ([Sym(SColon)] + rest);
      TokenThen(ts, p, v, [Sym(SColon)] + rest);
      TokenThen(ts, p + 1, Sym(SColon), rest);
      assert front + [vs[0]] == front + vs;
    } else {
      var more := PrintValues(vs[1..]);
      assert PrintValues(vs) + rest == [v] + ([Sym(SComma)] + (more + rest));
      TokenThen(ts, p, v, [Sym(SComma)] + (more + rest));
      TokenThen(ts, p + 1, Sym(SComma), more + rest);
      ValuesRead(ts, p + 2, vs[1..], rest, front + [vs[0]]);
      assert front + [vs[0]] + vs[1..] == front + vs;
    }
  }

  lemma StepRead(ts: seq<Token>, p: nat, step: Option<Expr>, rest: seq<Token>)
    requires At(ts, p, PrintStep(step) + rest) && rest != [] && rest[0] == Kw(KwDo) &&
             (step.Some? ==> Printable(step.value))
    ensures StepAt(ts, p) == Good(step, p + |PrintStep(step)|) && At(ts, p + |PrintStep(step)|, rest)
  {
    hide At; hide ExprAt; hide Print; hide Printable;
    match step {
      case None =>
        assert [] + rest == rest;
        AtFirst(ts, p, rest);
      case Some(e) =>
        assert PrintStep(step) + rest == [Kw(KwBy)] + (Print(e, 0) + rest);
        TokenThen(ts, p, Kw(KwBy), Print(e, 0) + rest);
        ExprThen(ts, p + 1, e, rest);
    }
  }

  lemma CloseOpens(k: Keyword)
    ensures |SemicolonAfter(k)| == 2 && SemicolonAfter(k)[0] == Kw(k)
  {
  }

  lemma CloseReads(ts: seq<Token>, p: nat, k: Keyword)
    requires At(ts, p, SemicolonAfter(k))
    ensures p + 1 < |ts| && ts[p] == Kw(k) && ts[p + 1] == Sym(SSemicolon)
  {
    assert SemicolonAfter(k) == [Kw(k)] + [Sym(SSemicolon)];
    TokenThen(ts, p, Kw(k), [Sym(SSemicolon)]);
    AtFirst(ts, p + 1, [Sym(SSemicolon)]);
  }

  // ----- what is printed, construct by construct -----

  lemma PrintedIf(c: Expr, t: seq<Stmt>, e: seq<Stmt>)
    requires Writable(If(c, t, e))
    ensures PrintStmt(If(c, t, e)) ==
            [Kw(KwIf)] + (Print(c, 0) + ([Kw(KwThen)] + (PrintSeq(t) + (PrintElse(e) + SemicolonAfter(KwEndIf)))))
    ensures Printable(c) && AllWritable(t) && AllWritable(e)
  {
    hide Print; hide Printable; hide PrintSeq; hide PrintElse; hide SemicolonAfter; hide AllWritable;
  }

  lemma PrintedWhile(c: Expr, b: seq<Stmt>)
    requires Writable(While(c, b))
    ensures PrintStmt(While(c, b)) ==
            [Kw(KwWhile)] + (Print(c, 0) + ([Kw(KwDo)] + (PrintSeq(b) + SemicolonAfter(KwEndWhile))))
    ensures Printable(c) && AllWritable(b)
  {
    hide Print; hide Printable; hide PrintSeq; hide SemicolonAfter; hide AllWritable;
  }

  lemma PrintedRepeat(b: seq<Stmt>, c: Expr)
    requires Writable(Repeat(b, c))
    ensures PrintStmt(Repeat(b, c)) ==
            [Kw(KwRepeat)] + (PrintSeq(b) + ([Kw(KwUntil)] + (Print(c, 0) + SemicolonAfter(KwEndRepeat))))
    ensures Printable(c) && AllWritable(b)
  {
    hide Print; hide Printable; hide PrintSeq; hide SemicolonAfter; hide AllWritable;
  }

  lemma PrintedFor(v: string, start: Expr, end: Expr, step: Option<Expr>, b: seq<Stmt>)
    requires Writable(For(v, start, end, step, b))
    ensures PrintStmt(For(v, start, end, step, b)) ==
            [Kw(KwFor)] + ([Identifier(v)] + ([Sym(SAssign)] + (Print(start, 0) + ([Kw(KwTo)] + (Print(end, 0) +
            (PrintStep(step) + ([Kw(KwDo)] + (PrintSeq(b) + SemicolonAfter(KwEndFor)))))))))
    ensures Printable(start) && Printable(end) && (step.Some? ==> Printable(step.value)) && AllWritable(b)
  {
    hide Print; hide Printable; hide PrintSeq; hide SemicolonAfter; hide AllWritable; hide PrintStep;
  }

  lemma PrintedCase(v: string, arms: seq<CaseArm>, e: seq<Stmt>)
    requires Writable(Case(v, arms, e))
    ensures PrintStmt(Case(v, arms, e)) ==
            [Kw(KwCase)] + ([Identifier(v)] + ([Kw(KwOf)] + (PrintArms(arms) +
            (PrintElse(e) + SemicolonAfter(KwEndCase)))))
    ensures ArmsWritable(arms) && AllWritable(e)
  {
    hide PrintArms; hide PrintElse; hide SemicolonAfter; hide AllWritable; hide ArmsWritable;
  }

  // ----- statements -----

  predicate OpensStatement(t: Token) {
    t.Identifier? || t == Kw(KwIf) || t == Kw(KwWhile) || t == Kw(KwFor) || t == Kw(KwCase) || t == Kw(KwRepeat) ||
    t == Kw(KwReturn) || t == Kw(KwExit)
  }

  lemma FirstToken(s: Stmt)
    ensures PrintStmt(s) != [] && OpensStatement(PrintStmt(s)[0])
  {
    hide Print; hide PrintSeq; hide PrintArms; hide PrintElse; hide PrintArgs; hide PrintStep;
  }

  predicate EndsLists(stop: Stop) {
    match stop
    case StopAt(k) => !OpensStatement(Kw(k))
    case StopAtElseOr(k) => !OpensStatement(Kw(k))
    case StopAtArm => true
  }

  lemma {:induction false} SeqReads(ts: seq<Token>, p: nat, ss: seq<Stmt>, rest: seq<Token>, stop: Stop,
                                    front: seq<Stmt>)
    requires AllWritable(ss) && At(ts, p, PrintSeq(ss) + rest) && EndsLists(stop)
    requires Stopped(ts, p + |PrintSeq(ss)|, stop)
    ensures StatementsAt(ts, p, stop, front) == Good(front + ss, p + |PrintSeq(ss)|)
    ensures At(ts, p + |PrintSeq(ss)|, rest)
    decreases ss, 1
  {
    hide At; hide PrintStmt; hide Writable; hide StatementAt;
    if ss == [] {
      assert [] + rest == rest;
      assert front + [] == front;
    } else {
      var s, more := ss[0], PrintSeq(ss[1..]);
      assert PrintSeq(ss) + rest == PrintStmt(s) + (more + rest);
      AtSplit(ts, p, PrintStmt(s), more + rest);
      FirstToken(s);
      AtFirst(ts, p, PrintStmt(s));
      StmtReads(ts, p, s);
      SeqReads(ts, p + |PrintStmt(s)|, ss[1..], rest, stop, front + [s]);
      assert front + [s] + ss[1..] == front + ss;
    }
  }

  lemma NoOpening(k: Keyword)
    requires k == KwEndIf || k == KwEndCase
    ensures !OpensStatement(Kw(k))
  {
  }

  lemma {:induction false} ElseReads(ts: seq<Token>, p: nat, ss: seq<Stmt>, close: Keyword)
    requires AllWritable(ss) && At(ts, p, PrintElse(ss) + SemicolonAfter(close))
    requires close == KwEndIf || close == KwEndCase
    ensures ElseAt(ts, p, close) == Good(ss, p + |PrintElse(ss)|)
    ensures At(ts, p + |PrintElse(ss)|, SemicolonAfter(close))
    decreases ss, 2
  {
    hide At; hide StatementsAt; hide PrintSeq; hide AllWritable; hide SemicolonAfter; hide OpensStatement;
    NoOpening(close);
    var rest := SemicolonAfter(close);
    if ss == [] {
      assert [] + rest == rest;
      CloseReads(ts, p, close);
    } else {
      assert PrintElse(ss) + rest == [Kw(KwElse)] + (PrintSeq(ss) + rest);
      TokenThen(ts, p, Kw(KwElse), PrintSeq(ss) + rest);
      AtSplit(ts, p + 1, PrintSeq(ss), rest);
      CloseReads(ts, p + 1 + |PrintSeq(ss)|, close);
      SeqReads(ts, p + 1, ss, rest, StopAt(close), []);
      assert [] + ss == ss;
    }
  }

  lemma ArmFound(ts: seq<Token>, p: nat, arm: CaseArm, q: nat, m: nat, front: seq<CaseArm>)
    requires p < |ts| && ts[p].IntegerLiteral?
    requires ValuesAt(ts, p, []) == Good(arm.values, q) && StatementsAt(ts, q, StopAtArm, []) == Good(arm.body, m)
    ensures ArmsAt(ts, p, front) == ArmsAt(ts, m, front + [arm])
  {
    hide ValuesAt; hide StatementsAt;
  }

  lemma PrintedArm(arms: seq<CaseArm>)
    requires arms != [] && ArmsWritable(arms)
    ensures PrintArms(arms) == PrintValues(arms[0].values) + (PrintSeq(arms[0].body) + PrintArms(arms[1..]))
    ensures arms[0].values != [] && AllWritable(arms[0].body) && ArmsWritable(arms[1..])
  {
    hide PrintSeq; hide PrintValues; hide AllWritable;
  }

  lemma NoArms(ts: seq<Token>, p: nat, front: seq<CaseArm>)
    requires p < |ts| && (ts[p] == Kw(KwElse) || ts[p] == Kw(KwEndCase))
    ensures ArmsAt(ts, p, front) == Good(front, p)
  {
  }

  lemma NothingPrinted()
    ensures PrintArms([]) == []
  {
  }

  lemma {:induction false} ArmsRead(ts: seq<Token>, p: nat, arms: seq<CaseArm>, rest: seq<Token>, front: seq<CaseArm>)
    requires ArmsWritable(arms) && At(ts, p, PrintArms(arms) + rest)
    requires rest != [] && (rest[0] == Kw(KwElse) || rest[0] == Kw(KwEndCase))
    ensures ArmsAt(ts, p, front) == Good(front + arms, p + |PrintArms(arms)|)
    ensures At(ts, p + |PrintArms(arms)|, rest)
    decreases arms, 1
  {
    hide At; hide StatementsAt; hide PrintSeq; hide AllWritable; hide ValuesAt; hide PrintValues;
    hide ArmsAt; hide ArmsWritable; hide PrintArms;
    if arms == [] {
      assert [] + rest == rest;
      NothingPrinted();
      AtFirst(ts, p, rest);
      NoArms(ts, p, front);
      assert front + [] == front;
    } else {
      PrintedArm(arms);
      var arm, more := arms[0], PrintArms(arms[1..]);
      var values, body := PrintValues(arm.values), PrintSeq(arm.body);
      assert PrintArms(arms) + rest == values + (body + (more + rest));
      FirstValue(arm.values);
      AtSplit(ts, p, values, body + (more + rest));
      AtFirst(ts, p, values);
      ValuesRead(ts, p, arm.values, body + (more + rest), []);
      assert [] + arm.values == arm.values;
      var q := p + |values|;
      AtSplit(ts, q, body, more + rest);
      NextArm(arms[1..], rest);
      AtFirst(ts, q + |body|, more + rest);
      SeqReads(ts, q, arm.body, more + rest, StopAtArm, []);
      assert [] + arm.body == arm.body;
      ArmFound(ts, p, arm, q, q + |body|, front);
      ArmsRead(ts, q + |body|, arms[1..], rest, front + [arm]);
      assert front + [arm] + arms[1..] == front + arms;
    }
  }

  lemma FirstValue(vs: seq<int>)
    requires vs != []
    ensures PrintValues(vs) != [] && PrintValues(vs)[0] == IntegerLiteral(vs[0])
  {
  }

  lemma NextArm(arms: seq<CaseArm>, rest: seq<Token>)
    requires ArmsWritable(arms) && rest != [] && (rest[0] == Kw(KwElse) || rest[0] == Kw(KwEndCase))
    ensures var next := PrintArms(arms) + rest;
            next != [] && (next[0].IntegerLiteral? || next[0] == Kw(KwElse) || next[0] == Kw(KwEndCase))
  {
    hide PrintSeq; hide AllWritable; hide PrintValues;
    if arms != [] { FirstValue(arms[0].values); }
  }

  lemma ElseOpens(ss: seq<Stmt>, close: Keyword)
    ensures var next := PrintElse(ss) + SemicolonAfter(close);
            next != [] && (next[0] == Kw(KwElse) || next[0] == Kw(close))
  {
    hide PrintSeq;
  }

  lemma AssignReads(ts: seq<Token>, p: nat, v: string, e: Expr)
    requires Printable(e) && At(ts, p, PrintStmt(Assign(v, e)))
    ensures StatementAt(ts, p) == Good(Assign(v, e), p + |PrintStmt(Assign(v, e))|)
  {
    hide At; hide ExprAt; hide Print; hide Printable;
    var code := Print(e, 0) + [Sym(SSemicolon)];
    TokenThen(ts, p, Identifier(v), [Sym(SAssign)] + code);
    TokenThen(ts, p + 1, Sym(SAssign), code);
    ExprThen(ts, p + 2, e, [Sym(SSemicolon)]);
    AtFirst(ts, p + 2 + |Print(e, 0)|, [Sym(SSemicolon)]);
  }

  lemma ArrayAssignReads(ts: seq<Token>, p: nat, v: string, i: Expr, e: Expr)
    requires Printable(i) && Printable(e) && At(ts, p, PrintStmt(ArrayAssign(v, i, e)))
    ensures StatementAt(ts, p) == Good(ArrayAssign(v, i, e), p + |PrintStmt(ArrayAssign(v, i, e))|)
  {
    hide At; hide ExprAt; hide Print; hide Printable;
    var tail := Print(e, 0) + [Sym(SSemicolon)];
    var mid := [Sym(SRBracket)] + ([Sym(SAssign)] + tail);
    TokenThen(ts, p, Identifier(v), [Sym(SLBracket)] + (Print(i, 0) + mid));
    TokenThen(ts, p + 1, Sym(SLBracket), Print(i, 0) + mid);
    ExprThen(ts, p + 2, i, mid);
    var q := p + 2 + |Print(i, 0)|;
    TokenThen(ts, q, Sym(SRBracket), [Sym(SAssign)] + tail);
    TokenThen(ts, q + 1, Sym(SAssign), tail);
    ExprThen(ts, q + 2, e, [Sym(SSemicolon)]);
    AtFirst(ts, q + 2 + |Print(e, 0)|, [Sym(SSemicolon)]);
    ElementReads(ts, p, v, i, q, e, q + 2 + |Print(e, 0)|);
  }

  lemma ElementReads(ts: seq<Token>, p: nat, v: string, i: Expr, q: nat, e: Expr, r: nat)
    requires p + 1 < q && q + 1 < r < |ts| && ts[p] == Identifier(v) && ts[p + 1] == Sym(SLBracket)
    requires ExprAt(ts, p + 2, 0) == Good(i, q) && ts[q] == Sym(SRBracket) && ts[q + 1] == Sym(SAssign)
    requires ExprAt(ts, q + 2, 0) == Good(e, r) && ts[r] == Sym(SSemicolon)
    ensures StatementAt(ts, p) == Good(ArrayAssign(v, i, e), r + 1)
  {
    hide ExprAt;
    assert IdentAt(ts, p) == Good(ArrayAssign(v, i, e), r + 1);
  }

  lemma CallReads(ts: seq<Token>, p: nat, f: string, args: seq<Expr>)
    requires Writable(FunCall(f, args)) && At(ts, p, PrintStmt(FunCall(f, args)))
    ensures StatementAt(ts, p) == Good(FunCall(f, args), p + |PrintStmt(FunCall(f, args))|)
  {
    hide At; hide ArgsAt; hide PrintArgs; hide Printable;
    var close := [Sym(SRParen), Sym(SSemicolon)];
    TokenThen(ts, p, Identifier(f), [Sym(SLParen)] + (PrintArgs(args) + close));
    TokenThen(ts, p + 1, Sym(SLParen), PrintArgs(args) + close);
    ArgsRead(ts, p + 2, args, close);
    var q := p + 2 + |PrintArgs(args)|;
    assert close == [Sym(SRParen)] + [Sym(SSemicolon)];
    TokenThen(ts, q, Sym(SRParen), [Sym(SSemicolon)]);
    AtFirst(ts, q + 1, [Sym(SSemicolon)]);
  }

  lemma IfFound(ts: seq<Token>, p: nat, c: Expr, q: nat, t: seq<Stmt>, m: nat, e: seq<Stmt>, n: nat)
    requires p < q < m + 1 <= n + 1 && n + 1 < |ts|
    requires ts[p] == Kw(KwIf) && ts[q] == Kw(KwThen) && ts[n] == Kw(KwEndIf) && ts[n + 1] == Sym(SSemicolon)
    requires ExprAt(ts, p + 1, 0) == Good(c, q)
    requires StatementsAt(ts, q + 1, StopAtElseOr(KwEndIf), []) == Good(t, m) && ElseAt(ts, m, KwEndIf) == Good(e, n)
    ensures StatementAt(ts, p) == Good(If(c, t, e), n + 2)
  {
    hide ExprAt; hide StatementsAt; hide ElseAt;
    assert IfAt(ts, p) == Good(If(c, t, e), n + 2);
  }

  lemma ListEnds(ts: seq<Token>, p: nat, k: Keyword)
    requires k == KwEndIf || k == KwEndWhile || k == KwEndFor || k == KwUntil
    requires p < |ts|
    ensures EndsLists(StopAt(k)) && EndsLists(StopAtElseOr(k))
    ensures ts[p] == Kw(k) ==> Stopped(ts, p, StopAt(k))
    ensures ts[p] == Kw(k) || ts[p] == Kw(KwElse) ==> Stopped(ts, p, StopAtElseOr(k))
  {
  }

  lemma {:induction false} IfReads(ts: seq<Token>, p: nat, c: Expr, t: seq<Stmt>, e: seq<Stmt>)
    requires Writable(If(c, t, e)) && At(ts, p, PrintStmt(If(c, t, e)))
    ensures StatementAt(ts, p) == Good(If(c, t, e), p + |PrintStmt(If(c, t, e))|)
    decreases If(c, t, e), 0
  {
    hide *;
    Closers();
    CloseOpens(KwEndIf);
    PrintedIf(c, t, e);
    var tail := PrintElse(e) + SemicolonAfter(KwEndIf);
    TokenThen(ts, p, Kw(KwIf), Print(c, 0) + ([Kw(KwThen)] + (PrintSeq(t) + tail)));
    ExprThen(ts, p + 1, c, [Kw(KwThen)] + (PrintSeq(t) + tail));
    var q := p + 1 + |Print(c, 0)|;
    TokenThen(ts, q, Kw(KwThen), PrintSeq(t) + tail);
    AtSplit(ts, q + 1, PrintSeq(t), tail);
    var m := q + 1 + |PrintSeq(t)|;
    ElseOpens(e, KwEndIf);
    AtFirst(ts, m, tail);
    ListEnds(ts, m, KwEndIf);
    SeqReads(ts, q + 1, t, tail, StopAtElseOr(KwEndIf), []);
    assert [] + t == t;
    ElseReads(ts, m, e, KwEndIf);
    CloseReads(ts, m + |PrintElse(e)|, KwEndIf);
    IfFound(ts, p, c, q, t, m, e, m + |PrintElse(e)|);
  }

  lemma WhileFound(ts: seq<Token>, p: nat, c: Expr, q: nat, b: seq<Stmt>, n: nat)
    requires p < q < n && n + 1 < |ts|
    requires ts[p] == Kw(KwWhile) && ts[q] == Kw(KwDo) && ts[n] == Kw(KwEndWhile) && ts[n + 1] == Sym(SSemicolon)
    requires ExprAt(ts, p + 1, 0) == Good(c, q) && StatementsAt(ts, q + 1, StopAt(KwEndWhile), []) == Good(b, n)
    ensures StatementAt(ts, p) == Good(While(c, b), n + 2)
  {
    hide ExprAt; hide StatementsAt;
    assert WhileAt(ts, p) == Good(While(c, b), n + 2);
  }

  lemma {:induction false} WhileReads(ts: seq<Token>, p: nat, c: Expr, b: seq<Stmt>)
    requires Writable(While(c, b)) && At(ts, p, PrintStmt(While(c, b)))
    ensures StatementAt(ts, p) == Good(While(c, b), p + |PrintStmt(While(c, b))|)
    decreases While(c, b), 0
  {
    hide *;
    Closers();
    CloseOpens(KwEndWhile);
    PrintedWhile(c, b);
    var tail := SemicolonAfter(KwEndWhile);
    TokenThen(ts, p, Kw(KwWhile), Print(c, 0) + ([Kw(KwDo)] + (PrintSeq(b) + tail)));
    ExprThen(ts, p + 1, c, [Kw(KwDo)] + (PrintSeq(b) + tail));
    var q := p + 1 + |Print(c, 0)|;
    TokenThen(ts, q, Kw(KwDo), PrintSeq(b) + tail);
    AtSplit(ts, q + 1, PrintSeq(b), tail);
    var n := q + 1 + |PrintSeq(b)|;
    CloseReads(ts, n, KwEndWhile);
    ListEnds(ts, n, KwEndWhile);
    SeqReads(ts, q + 1, b, tail, StopAt(KwEndWhile), []);
    assert [] + b == b;
    WhileFound(ts, p, c, q, b, n);
  }

  lemma RepeatFound(ts: seq<Token>, p: nat, b: seq<Stmt>, q: nat, c: Expr, n: nat)
    requires p < q < n && n + 1 < |ts|
    requires ts[p] == Kw(KwRepeat) && ts[q] == Kw(KwUntil) && ts[n] == Kw(KwEndRepeat) && ts[n + 1] == Sym(SSemicolon)
    requires StatementsAt(ts, p + 1, StopAt(KwUntil), []) == Good(b, q) && ExprAt(ts, q + 1, 0) == Good(c, n)
    ensures StatementAt(ts, p) == Good(Repeat(b, c), n + 2)
  {
    hide ExprAt; hide StatementsAt;
    assert RepeatAt(ts, p) == Good(Repeat(b, c), n + 2);
  }

  lemma {:induction false} RepeatReads(ts: seq<Token>, p: nat, b: seq<Stmt>, c: Expr)
    requires Writable(Repeat(b, c)) && At(ts, p, PrintStmt(Repeat(b, c)))
    ensures StatementAt(ts, p) == Good(Repeat(b, c), p + |PrintStmt(Repeat(b, c))|)
    decreases Repeat(b, c), 0
  {
    hide *;
    Closers();
    CloseOpens(KwEndRepeat);
    PrintedRepeat(b, c);
    var close := SemicolonAfter(KwEndRepeat);
    var tail := [Kw(KwUntil)] + (Print(c, 0) + close);
    TokenThen(ts, p, Kw(KwRepeat), PrintSeq(b) + tail);
    AtSplit(ts, p + 1, PrintSeq(b), tail);
    var q := p + 1 + |PrintSeq(b)|;
    TokenThen(ts, q, Kw(KwUntil), Print(c, 0) + close);
    ListEnds(ts, q, KwUntil);
    SeqReads(ts, p + 1, b, tail, StopAt(KwUntil), []);
    assert [] + b == b;
    ExprThen(ts, q + 1, c, close);
    CloseReads(ts, q + 1 + |Print(c, 0)|, KwEndRepeat);
    RepeatFound(ts, p, b, q, c, q + 1 + |Print(c, 0)|);
  }

  lemma ForFound(ts: seq<Token>, p: nat, v: string, start: Expr, q: nat, end: Expr, m: nat, step: Option<Expr>, d: nat,
                 b: seq<Stmt>, n: nat)
    requires p + 2 < q < m <= d < n && n + 1 < |ts|
    requires ts[p] == Kw(KwFor) && ts[p + 1] == Identifier(v) && ts[p + 2] == Sym(SAssign) && ts[q] == Kw(KwTo)
    requires ts[d] == Kw(KwDo) && ts[n] == Kw(KwEndFor) && ts[n + 1] == Sym(SSemicolon)
    requires ExprAt(ts, p + 3, 0) == Good(start, q) && ExprAt(ts, q + 1, 0) == Good(end, m) &&
             StepAt(ts, m) == Good(step, d)
    requires StatementsAt(ts, d + 1, StopAt(KwEndFor), []) == Good(b, n)
    ensures StatementAt(ts, p) == Good(For(v, start, end, step, b), n + 2)
  {
    hide ExprAt; hide StatementsAt; hide StepAt;
    assert ForAt(ts, p) == Good(For(v, start, end, step, b), n + 2);
  }

  lemma {:induction false} ForReads(ts: seq<Token>, p: nat, v: string, start: Expr, end: Expr, step: Option<Expr>,
                                    b: seq<Stmt>)
    requires Writable(For(v, start, end, step, b)) && At(ts, p, PrintStmt(For(v, start, end, step, b)))
    ensures StatementAt(ts, p) == Good(For(v, start, end, step, b), p + |PrintStmt(For(v, start, end, step, b))|)
    decreases For(v, start, end, step, b), 0
  {
    hide *;
    Closers();
    PrintedFor(v, start, end, step, b);
    var close := SemicolonAfter(KwEndFor);
    var body := [Kw(KwDo)] + (PrintSeq(b) + close);
    StepOpens(step, body);
    var tail := PrintStep(step) + body;
    var limit := [Kw(KwTo)] + (Print(end, 0) + tail);
    TokenThen(ts, p, Kw(KwFor), [Identifier(v)] + ([Sym(SAssign)] + (Print(start, 0) + limit)));
    TokenThen(ts, p + 1, Identifier(v), [Sym(SAssign)] + (Print(start, 0) + limit));
    TokenThen(ts, p + 2, Sym(SAssign), Print(start, 0) + limit);
    ExprThen(ts, p + 3, start, limit);
    var q := p + 3 + |Print(start, 0)|;
    TokenThen(ts, q, Kw(KwTo), Print(end, 0) + tail);
    ExprThen(ts, q + 1, end, tail);
    var m := q + 1 + |Print(end, 0)|;
    StepRead(ts, m, step, body);
    var d := m + |PrintStep(step)|;
    ForBodyReads(ts, d, b);
    assert |PrintStmt(For(v, start, end, step, b))| == d + 1 + |PrintSeq(b)| + |close| - p;
    CloseOpens(KwEndFor);
    ForFound(ts, p, v, start, q, end, m, step, d, b, d + 1 + |PrintSeq(b)|);
  }

  lemma {:induction false} ForBodyReads(ts: seq<Token>, d: nat, b: seq<Stmt>)
    requires AllWritable(b) && At(ts, d, [Kw(KwDo)] + (PrintSeq(b) + SemicolonAfter(KwEndFor)))
    ensures var n := d + 1 + |PrintSeq(b)|;
            && n + 1 < |ts| && ts[d] == Kw(KwDo) && ts[n] == Kw(KwEndFor) && ts[n + 1] == Sym(SSemicolon)
            && StatementsAt(ts, d + 1, StopAt(KwEndFor), []) == Good(b, n)
    decreases b, 2
  {
    hide *;
    var close, n := SemicolonAfter(KwEndFor), d + 1 + |PrintSeq(b)|;
    TokenThen(ts, d, Kw(KwDo), PrintSeq(b) + close);
    AtSplit(ts, d + 1, PrintSeq(b), close);
    CloseReads(ts, n, KwEndFor);
    ListEnds(ts, n, KwEndFor);
    SeqReads(ts, d + 1, b, close, StopAt(KwEndFor), []);
    assert [] + b == b;
  }

  lemma StepOpens(step: Option<Expr>, body: seq<Token>)
    requires body != [] && body[0] == Kw(KwDo)
    ensures PrintStep(step) + body != [] && Closer((PrintStep(step) + body)[0])
  {
    hide Print;
  }

  lemma CaseFound(ts: seq<Token>, p: nat, v: string, arms: seq<CaseArm>, m: nat, e: seq<Stmt>, n: nat)
    requires p + 2 < m <= n && n + 1 < |ts|
    requires ts[p] == Kw(KwCase) && ts[p + 1] == Identifier(v) && ts[p + 2] == Kw(KwOf)
    requires ts[n] == Kw(KwEndCase) && ts[n + 1] == Sym(SSemicolon)
    requires ArmsAt(ts, p + 3, []) == Good(arms, m) && ElseAt(ts, m, KwEndCase) == Good(e, n)
    ensures StatementAt(ts, p) == Good(Case(v, arms, e), n + 2)
  {
    hide ArmsAt; hide ElseAt;
    assert CaseAt(ts, p) == Good(Case(v, arms, e), n + 2);
  }

  lemma {:induction false} CaseReads(ts: seq<Token>, p: nat, v: string, arms: seq<CaseArm>, e: seq<Stmt>)
    requires Writable(Case(v, arms, e)) && At(ts, p, PrintStmt(Case(v, arms, e)))
    ensures StatementAt(ts, p) == Good(Case(v, arms, e), p + |PrintStmt(Case(v, arms, e))|)
    decreases Case(v, arms, e), 0
  {
    hide *;
    CloseOpens(KwEndCase);
    PrintedCase(v, arms, e);
    var tail := PrintElse(e) + SemicolonAfter(KwEndCase);
    TokenThen(ts, p, Kw(KwCase), [Identifier(v)] + ([Kw(KwOf)] + (PrintArms(arms) + tail)));
    TokenThen(ts, p + 1, Identifier(v), [Kw(KwOf)] + (PrintArms(arms) + tail));
    TokenThen(ts, p + 2, Kw(KwOf), PrintArms(arms) + tail);
    ElseOpens(e, KwEndCase);
    ArmsRead(ts, p + 3, arms, tail, []);
    assert [] + arms == arms;
    var m := p + 3 + |PrintArms(arms)|;
    ElseReads(ts, m, e, KwEndCase);
    CloseReads(ts, m + |PrintElse(e)|, KwEndCase);
    CaseFound(ts, p, v, arms, m, e, m + |PrintElse(e)|);
  }

  /** Round trip: a statement printed anywhere in a token list is read back as itself and
      exactly its tokens are consumed, whatever follows. */
  lemma {:induction false} StmtReads(ts: seq<Token>, p: nat, s: Stmt)
    requires Writable(s) && At(ts, p, PrintStmt(s))
    ensures StatementAt(ts, p) == Good(s, p + |PrintStmt(s)|)
    decreases s, 1
  {
    match s {
      case Assign(v, e) => hide *; AssignReads(ts, p, v, e);
      case ArrayAssign(v, i, e) => hide *; ArrayAssignReads(ts, p, v, i, e);
      case FunCall(f, args) => hide *; CallReads(ts, p, f, args);
      case If(c, t, e) => hide *; IfReads(ts, p, c, t, e);
      case While(c, b) => hide *; WhileReads(ts, p, c, b);
      case For(v, start, end, step, b) => hide *; ForReads(ts, p, v, start, end, step, b);
      case Case(v, arms, e) => hide *; CaseReads(ts, p, v, arms, e);
      case Repeat(b, c) => hide *; RepeatReads(ts, p, b, c);
      case Return => CloseReads(ts, p, KwReturn);
      case Exit => CloseReads(ts, p, KwExit);
    }
  }
}
