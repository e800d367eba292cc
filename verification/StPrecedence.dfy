/** How operators bind, apart from the parser's own table: which operator a token stands
    for, which of two binds tighter, and that a row of operands is read accordingly. */
module StPrecedence {
  import opened HalValues
  import opened StAst
  import opened StGrammar
  import opened StPrint

  /** The spelling of the operators. */
  predicate Spells(t: Token, op: BinOp) {
    || (t == Sym(SStar) && op == BMul) || (t == Sym(SSlash) && op == BDiv) || (t == Kw(KwMod) && op == BMod)
    || (t == Sym(SPlus) && op == BAdd) || (t == Sym(SMinus) && op == BSub)
    || (t == Sym(SEqual) && op == BEq) || (t == Sym(SNotEqual) && op == BNeq)
    || (t == Sym(SGreater) && op == BGt) || (t == Sym(SLess) && op == BLt)
    || (t == Sym(SGreaterEq) && op == BGte) || (t == Sym(SLessEq) && op == BLte)
    || (t == Kw(KwAnd) && op == BAnd) || (t == Kw(KwOr) && op == BOr) || (t == Kw(KwXor) && op == BXor)
  }

  /** Multiplication, division and MOD bind tightest, then sums, then comparisons, then AND,
      and OR and XOR the least. */
  predicate Tighter(a: BinOp, b: BinOp) {
    || (a in {BMul, BDiv, BMod} && b !in {BMul, BDiv, BMod})
    || (a in {BAdd, BSub} && b !in {BMul, BDiv, BMod, BAdd, BSub})
    || (a in {BEq, BNeq, BGt, BLt, BGte, BLte} && b in {BAnd, BOr, BXor})
    || (a == BAnd && b in {BOr, BXor})
  }

  /** No token but these is an operator. */
  lemma OperatorsAreSpelled(t: Token, op: BinOp)
    ensures BinopOf(t) == Some(op) <==> Spells(t, op)
    ensures OpToken(op) == t <==> Spells(t, op)
  {
  }

  lemma TableIsTighter(a: BinOp, b: BinOp)
    ensures Precedence(a) > Precedence(b) <==> Tighter(a, b)
  {
  }

  // ----- rows of operands -----

  /** A name or a literal, with any signs and NOTs before it. */
  predicate Operand(e: Expr) {
    match e
    case IntLiteral(n) => n >= 0
    case RealLiteral(x) => x >= 0.0
    case BoolLiteral(_) => true
    case Variable(name) => name != "TRUE" && name != "FALSE"
    case Unary(_, inner) => Operand(inner)
    case _ => false
  }

  function OperandTokens(e: Expr): seq<Token>
    requires Operand(e)
  {
    match e
    case IntLiteral(n) => [IntegerLiteral(n)]
    case RealLiteral(x) => [RealLit(x)]
    case BoolLiteral(b) => [Identifier(if b then "TRUE" else "FALSE")]
    case Variable(name) => [Identifier(name)]
    case Unary(UNeg, inner) => [Sym(SMinus)] + OperandTokens(inner)
    case Unary(UNot, inner) => [Kw(KwNot)] + OperandTokens(inner)
  }

  /** A tree over operands in which every operator has to its right only tighter ones, and to
      its left none less tight. */
  predicate Grouped(e: Expr) {
    match e
    case Binary(l, op, r) =>
      && Grouped(l) && (l.Binary? ==> !Tighter(op, l.op))
      && Grouped(r) && (r.Binary? ==> Tighter(r.op, op))
    case _ => Operand(e)
  }

  /** The row of operands and operators that a tree stands for, without a parenthesis. */
  ghost predicate RowOf(e: Expr, row: seq<Token>)
    decreases e
  {
    match e
    case Binary(l, op, r) =>
      exists a, t, b :: RowOf(l, a) && Spells(t, op) && RowOf(r, b) && row == a + [t] + b
    case _ => Operand(e) && row == OperandTokens(e)
  }

  lemma {:induction false} OperandPrints(e: Expr, lvl: nat)
    requires Operand(e)
    ensures Printable(e) && Print(e, lvl) == OperandTokens(e)
  {
    if e.Unary? { OperandPrints(e.inner, TIGHTEST); }
  }

  /** A grouped tree needs no parentheses. */
  lemma {:induction false} GroupedPrints(e: Expr, row: seq<Token>, lvl: nat)
    requires Grouped(e) && RowOf(e, row) && (e.Binary? ==> lvl <= Precedence(e.op))
    ensures Printable(e) && Print(e, lvl) == row
    decreases e
  {
    hide Precedence; hide OpToken; hide Tighter; hide Spells;
    match e
    case Binary(l, op, r) =>
      var a, t, b :| RowOf(l, a) && Spells(t, op) && RowOf(r, b) && row == a + [t] + b;
      OperatorsAreSpelled(t, op);
      if l.Binary? { TableIsTighter(op, l.op); }
      if r.Binary? { TableIsTighter(r.op, op); }
      GroupedPrints(l, a, Precedence(op));
      GroupedPrints(r, b, Precedence(op) + 1);
    case _ => OperandPrints(e, lvl);
  }

  /** A row of operands and operators, of any length, anywhere in the input before a token that
      cannot go on, is read as the tree grouped by how tightly the operators bind. */
  lemma RowsAreGrouped(ts: seq<Token>, p: nat, e: Expr, row: seq<Token>)
    requires Grouped(e) && RowOf(e, row) && At(ts, p, row)
    requires p + |row| < |ts| ==> ts[p + |row|] in {Sym(SSemicolon), Sym(SRParen), Sym(SComma), Kw(KwThen), Kw(KwDo)}
    ensures ExprAt(ts, p, 0) == Good(e, p + |row|)
  {
    hide ExprAt; hide At; hide Print; hide Grouped; hide RowOf;
    GroupedPrints(e, row, 0);
    ExpressionRoundTrip(ts, p, e);
  }

  /** In parentheses a row is one operand, whatever stands around it. */
  lemma ParenthesesGroup(ts: seq<Token>, p: nat, e: Expr, row: seq<Token>)
    requires Grouped(e) && RowOf(e, row) && At(ts, p, [Sym(SLParen)] + row + [Sym(SRParen)])
    ensures UnaryAt(ts, p) == Good(e, p + |row| + 2)
  {
    hide ExprAt; hide At; hide Print; hide Grouped; hide RowOf; hide UnaryAt;
    AtSplit(ts, p, [Sym(SLParen)] + row, [Sym(SRParen)]);
    AtSplit(ts, p, [Sym(SLParen)], row);
    AtFirst(ts, p, [Sym(SLParen)]);
    AtFirst(ts, p + 1 + |row|, [Sym(SRParen)]);
    RowsAreGrouped(ts, p + 1, e, row);
    ParenReads(ts, p, e, p + 1 + |row|);
  }

  /** Two trees grouped from one row are the same tree. */
  lemma GroupingIsUnique(e: Expr, f: Expr, row: seq<Token>)
    requires Grouped(e) && Grouped(f) && RowOf(e, row) && RowOf(f, row)
    ensures e == f
  {
    hide Grouped; hide RowOf;
    assert At(row, 0, row);
    RowsAreGrouped(row, 0, e, row);
    RowsAreGrouped(row, 0, f, row);
  }

  /** One more operator and operand at the end of a row: the operand goes to the right as deep
      as the operator is tighter than those above it. */
  function Append(e: Expr, op: BinOp, x: Expr): Expr {
    if e.Binary? && Tighter(op, e.op) then Binary(e.left, e.op, Append(e.right, op, x)) else Binary(e, op, x)
  }

  lemma OperandAlone(x: Expr)
    requires Operand(x)
    ensures !x.Binary? && Grouped(x) && RowOf(x, OperandTokens(x))
  {
  }

  lemma AppendHere(e: Expr, row: seq<Token>, t: Token, op: BinOp, x: Expr)
    requires Grouped(e) && RowOf(e, row) && Spells(t, op) && Operand(x) && (e.Binary? ==> !Tighter(op, e.op))
    ensures Grouped(Binary(e, op, x)) && RowOf(Binary(e, op, x), row + [t] + OperandTokens(x))
  {
    hide Tighter; hide Spells; hide OperandTokens; hide Operand;
    OperandAlone(x);
  }

  lemma DeeperRow(l: Expr, u: Token, op: BinOp, r: Expr, a: seq<Token>, b: seq<Token>)
    requires RowOf(l, a) && Spells(u, op) && RowOf(r, b)
    ensures RowOf(Binary(l, op, r), a + [u] + b)
  {
    hide Spells; hide Operand; hide OperandTokens;
  }

  lemma {:induction false} AppendGroups(e: Expr, row: seq<Token>, t: Token, op: BinOp, x: Expr)
    requires Grouped(e) && RowOf(e, row) && Spells(t, op) && Operand(x)
    ensures Grouped(Append(e, op, x)) && RowOf(Append(e, op, x), row + [t] + OperandTokens(x))
    decreases e
  {
    hide Tighter; hide Spells; hide OperandTokens; hide Operand;
    if e.Binary? && Tighter(op, e.op) {
      var a, u, b :| RowOf(e.left, a) && Spells(u, e.op) && RowOf(e.right, b) && row == a + [u] + b;
      AppendGroups(e.right, b, t, op, x);
      hide RowOf;
      assert row + [t] + OperandTokens(x) == a + [u] + (b + [t] + OperandTokens(x));
      DeeperRow(e.left, u, e.op, Append(e.right, op, x), a, b + [t] + OperandTokens(x));
    } else {
      AppendHere(e, row, t, op, x);
    }
  }

  function Group(first: Expr, ops: seq<BinOp>, args: seq<Expr>): Expr
    requires |ops| == |args|
  {
    if ops == [] then first
    else Append(Group(first, ops[..|ops| - 1], args[..|args| - 1]), ops[|ops| - 1], args[|args| - 1])
  }

  function Row(first: Expr, marks: seq<Token>, args: seq<Expr>): seq<Token>
    requires |marks| == |args| && Operand(first) && forall i :: 0 <= i < |args| ==> Operand(args[i])
  {
    if marks == [] then OperandTokens(first)
    else Row(first, marks[..|marks| - 1], args[..|args| - 1]) + [marks[|marks| - 1]] + OperandTokens(args[|args| - 1])
  }

  lemma {:induction false} RowGroups(first: Expr, marks: seq<Token>, ops: seq<BinOp>, args: seq<Expr>)
    requires |marks| == |ops| == |args| && Operand(first) && forall i :: 0 <= i < |args| ==> Operand(args[i])
    requires forall i :: 0 <= i < |ops| ==> Spells(marks[i], ops[i])
    ensures Grouped(Group(first, ops, args)) && RowOf(Group(first, ops, args), Row(first, marks, args))
  {
    hide Spells; hide OperandTokens; hide Append;
    if ops == [] {
      assert Grouped(first);
    } else {
      var n := |ops| - 1;
      RowGroups(first, marks[..n], ops[..n], args[..n]);
      AppendGroups(Group(first, ops[..n], args[..n]), Row(first, marks[..n], args[..n]), marks[n], ops[n], args[n]);
    }
  }

  /** Every row of operands is read, whole, as its grouped tree. */
  lemma EveryRowIsRead(first: Expr, marks: seq<Token>, ops: seq<BinOp>, args: seq<Expr>)
    requires |marks| == |ops| == |args| && Operand(first) && forall i :: 0 <= i < |args| ==> Operand(args[i])
    requires forall i :: 0 <= i < |ops| ==> Spells(marks[i], ops[i])
    ensures var ts, e := Row(first, marks, args), Group(first, ops, args);
            Grouped(e) && ExprAt(ts, 0, 0) == Good(e, |ts|)
  {
    hide Spells; hide OperandTokens; hide Group; hide Row; hide ExprAt; hide Grouped; hide RowOf;
    var ts, e := Row(first, marks, args), Group(first, ops, args);
    RowGroups(first, marks, ops, args);
    assert At(ts, 0, ts);
    RowsAreGrouped(ts, 0, e, ts);
  }

  /** Three operands: the second operator takes the middle one if and only if it is tighter. */
  lemma ThreeOperands(p: Expr, t1: Token, o1: BinOp, q: Expr, t2: Token, o2: BinOp, r: Expr)
    requires Operand(p) && Operand(q) && Operand(r) && Spells(t1, o1) && Spells(t2, o2)
    ensures var ts := OperandTokens(p) + [t1] + OperandTokens(q) + [t2] + OperandTokens(r);
            && (ExprAt(ts, 0, 0) == Good(Binary(p, o1, Binary(q, o2, r)), |ts|) <==> Tighter(o2, o1))
            && (ExprAt(ts, 0, 0) == Good(Binary(Binary(p, o1, q), o2, r), |ts|) <==> !Tighter(o2, o1))
  {
    hide ExprAt; hide OperandTokens; hide Tighter; hide Spells; hide Grouped; hide RowOf; hide Operand;
    TreesOfThree(p, o1, q, o2, r);
    var a, b, c := OperandTokens(p), OperandTokens(q), OperandTokens(r);
    var ts := a + [t1] + b + [t2] + c;
    var left, right := Binary(Binary(p, o1, q), o2, r), Binary(p, o1, Binary(q, o2, r));
    BinaryRow(p, t1, o1, q, a, b);
    BinaryRow(q, t2, o2, r, b, c);
    BinaryRow(Binary(p, o1, q), t2, o2, r, a + [t1] + b, c);
    BinaryRow(p, t1, o1, Binary(q, o2, r), a, b + [t2] + c);
    assert a + [t1] + (b + [t2] + c) == ts;
    assert At(ts, 0, ts);
    RowsAreGrouped(ts, 0, if Tighter(o2, o1) then right else left, ts);
    assert left != right by { assert p < left.left; }
  }

  lemma TreesOfThree(p: Expr, o1: BinOp, q: Expr, o2: BinOp, r: Expr)
    requires Operand(p) && Operand(q) && Operand(r)
    ensures Grouped(Binary(Binary(p, o1, q), o2, r)) <==> !Tighter(o2, o1)
    ensures Grouped(Binary(p, o1, Binary(q, o2, r))) <==> Tighter(o2, o1)
  {
    hide Tighter;
    assert Grouped(p) && Grouped(q) && Grouped(r);
    assert Grouped(Binary(p, o1, q)) && Grouped(Binary(q, o2, r));
  }

  lemma BinaryRow(l: Expr, t: Token, op: BinOp, r: Expr, a: seq<Token>, b: seq<Token>)
    requires Spells(t, op)
    requires (Operand(l) && a == OperandTokens(l)) || RowOf(l, a)
    requires (Operand(r) && b == OperandTokens(r)) || RowOf(r, b)
    ensures RowOf(Binary(l, op, r), a + [t] + b)
  {
    assert RowOf(l, a) && RowOf(r, b);
  }
}
