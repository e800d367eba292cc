/** Printing expressions and statements with as few parentheses as the precedence table
    allows, and reading them back. */
module StPrint {
  import opened HalValues
  import opened StAst
  import opened StGrammar

  // ----- expressions -----

  function OpToken(op: BinOp): (t: Token)
    ensures BinopOf(t) == Some(op)
  {
    match op
    case BAdd => Sym(SPlus) case BSub => Sym(SMinus) case BMul => Sym(SStar) case BDiv => Sym(SSlash)
    case BEq => Sym(SEqual) case BNeq => Sym(SNotEqual) case BGt => Sym(SGreater) case BLt => Sym(SLess)
    case BGte => Sym(SGreaterEq) case BLte => Sym(SLessEq)
    case BAnd => Kw(KwAnd) case BOr => Kw(KwOr) case BMod => Kw(KwMod) case BXor => Kw(KwXor)
  }

  const TIGHTEST: nat := 6

  /** The tokens of `e` where only operators of precedence `lvl` and above may stand bare. */
  function Print(e: Expr, lvl: nat): seq<Token>
    decreases e
  {
    match e
    case IntLiteral(n) => [IntegerLiteral(n)]
    case RealLiteral(x) => [RealLit(x)]
    case BoolLiteral(b) => [Identifier(if b then "TRUE" else "FALSE")]
    case Variable(name) => [Identifier(name)]
    case FieldAccess(name, field) => [Identifier(name), Sym(SDot), Identifier(field)]
    case ArrayAccess(name, index) => [Identifier(name), Sym(SLBracket)] + Print(index, 0) + [Sym(SRBracket)]
    case Unary(u, inner) => [if u.UNeg? then Sym(SMinus) else Kw(KwNot)] + Print(inner, TIGHTEST)
    case Binary(l, op, r) =>
      var body := Print(l, Precedence(op)) + [OpToken(op)] + Print(r, Precedence(op) + 1);
      if Precedence(op) < lvl then [Sym(SLParen)] + body + [Sym(SRParen)] else body
  }

  predicate PlainName(name: string) { name != "TRUE" && name != "FALSE" }

  /** What source text can denote: no negative literals, no variable named like a Boolean. */
  predicate Printable(e: Expr) {
    match e
    case IntLiteral(n) => n >= 0
    case RealLiteral(x) => x >= 0.0
    case BoolLiteral(_) => true
    case Variable(name) => PlainName(name)
    case FieldAccess(name, _) => PlainName(name)
    case ArrayAccess(name, index) => PlainName(name) && Printable(index)
    case Unary(_, inner) => Printable(inner)
    case Binary(l, _, r) => Printable(l) && Printable(r)
  }

  /** The printed form ends in a variable, which a bracket or a dot would extend. */
  predicate EndsOpen(e: Expr, lvl: nat)
    decreases e
  {
    match e
    case Variable(_) => true
    case Unary(_, inner) => EndsOpen(inner, TIGHTEST)
    case Binary(_, op, r) => Precedence(op) >= lvl && EndsOpen(r, Precedence(op) + 1)
    case _ => false
  }

  predicate At(ts: seq<Token>, p: nat, code: seq<Token>) {
    p + |code| <= |ts| && ts[p..p + |code|] == code
  }

  lemma AtSplit(ts: seq<Token>, p: nat, a: seq<Token>, b: seq<Token>)
    requires At(ts, p, a + b)
    ensures At(ts, p, a) && At(ts, p + |a|, b)
  {
    assert ts[p..p + |a|] == (a + b)[..|a|] == a;
    assert ts[p + |a|..p + |a| + |b|] == (a + b)[|a|..] == b;
  }

  lemma AtFirst(ts: seq<Token>, p: nat, code: seq<Token>)
    requires At(ts, p, code) && code != []
    ensures p < |ts| && ts[p] == code[0]
  {
    assert ts[p..p + |code|][0] == ts[p];
  }

  /** The token at `q` does not go on with a bare name. */
  predicate NotNamed(ts: seq<Token>, q: nat) {
    !Starts(ts, q, Sym(SLBracket)) && !Starts(ts, q, Sym(SDot))
  }

  /** If the token at `q` is an operator, it binds no tighter than `lvl`. */
  predicate BindsAtMost(ts: seq<Token>, q: nat, lvl: int) {
    q < |ts| && BinopOf(ts[q]).Some? ==> Precedence(BinopOf(ts[q]).value) <= lvl
  }

  lemma OpTokenPlain(op: BinOp)
    ensures OpToken(op) != Sym(SLBracket) && OpToken(op) != Sym(SDot)
    ensures 1 <= Precedence(op) <= 5
  {
  }

  lemma OperatorsStop(ts: seq<Token>, q: nat, e: Expr, least: nat)
    requires BindsAtMost(ts, q, least - 1)
    ensures OperatorsAt(ts, q, e, least) == Good(e, q)
  {
  }

  lemma OperatorsGo(ts: seq<Token>, q: nat, left: Expr, op: BinOp, right: Expr, next: nat, least: nat)
    requires q < |ts| && ts[q] == OpToken(op) && Precedence(op) >= least
    requires ExprAt(ts, q + 1, Precedence(op) + 1) == Good(right, next)
    ensures OperatorsAt(ts, q, left, least) == OperatorsAt(ts, next, Binary(left, op, right), least)
  {
  }

  /** A printed expression, read at a level no tighter than it was printed at, is read
      back whole before any operator behind it. */
  lemma {:induction false} ExprReads(ts: seq<Token>, p: nat, e: Expr, lvl: nat, least: nat)
    requires Printable(e) && least <= lvl <= TIGHTEST && At(ts, p, Print(e, lvl))
    requires var q := p + |Print(e, lvl)|; BindsAtMost(ts, q, lvl) && (EndsOpen(e, lvl) ==> NotNamed(ts, q))
    ensures ExprAt(ts, p, least) == OperatorsAt(ts, p + |Print(e, lvl)|, e, least)
    decreases e, lvl, 1
  {
    hide At; hide BinopOf; hide Precedence; hide OpToken; hide OperatorsAt; hide UnaryAt; hide NotNamed;
    if e.Binary? && Precedence(e.op) >= lvl {
      BinaryReads(ts, p, e.left, e.op, e.right, lvl, least);
    } else {
      UnaryReads(ts, p, e, lvl);
    }
  }

  lemma {:induction false} BinaryReads(ts: seq<Token>, p: nat, l: Expr, op: BinOp, r: Expr, lvl: nat, least: nat)
    requires var e := Binary(l, op, r);
             && Printable(e) && least <= lvl <= Precedence(op) && At(ts, p, Print(e, lvl))
             && var q := p + |Print(e, lvl)|; BindsAtMost(ts, q, lvl) && (EndsOpen(e, lvl) ==> NotNamed(ts, q))
    ensures ExprAt(ts, p, least) == OperatorsAt(ts, p + |Print(Binary(l, op, r), lvl)|, Binary(l, op, r), least)
    decreases Binary(l, op, r), lvl, 0
  {
    hide At; hide BinopOf; hide Precedence; hide OpToken; hide OperatorsAt; hide UnaryAt; hide ExprAt;
    var e, prec := Binary(l, op, r), Precedence(op);
    var a, c := Print(l, prec), Print(r, prec + 1);
    OpTokenPlain(op);
    PrintedBare(l, op, r, lvl);
    hide Print; hide Printable; hide EndsOpen;
    AtSplit(ts, p, a + [OpToken(op)], c);
    AtSplit(ts, p, a, [OpToken(op)]);
    var m := p + |a|;
    AtFirst(ts, m, [OpToken(op)]);
    ExprReads(ts, p, l, prec, least);
    ExprReads(ts, m + 1, r, prec + 1, prec + 1);
    var q := m + 1 + |c|;
    OperatorsStop(ts, q, r, prec + 1);
    OperatorsGo(ts, m, l, op, r, q, least);
  }

  lemma PrintedBare(l: Expr, op: BinOp, r: Expr, lvl: nat)
    requires lvl <= Precedence(op) && Printable(Binary(l, op, r))
    ensures Print(Binary(l, op, r), lvl) == Print(l, Precedence(op)) + [OpToken(op)] + Print(r, Precedence(op) + 1)
    ensures EndsOpen(Binary(l, op, r), lvl) == EndsOpen(r, Precedence(op) + 1)
    ensures Printable(l) && Printable(r)
  {
    hide Precedence; hide OpToken;
  }

  /** What is printed without a bare operator is one operand. */
  lemma IndexedReads(ts: seq<Token>, p: nat, name: string, index: Expr, q: nat)
    requires PlainName(name) && p < q < |ts| && ts[p] == Identifier(name) && ts[p + 1] == Sym(SLBracket)
    requires ExprAt(ts, p + 2, 0) == Good(index, q) && ts[q] == Sym(SRBracket)
    ensures UnaryAt(ts, p) == Good(ArrayAccess(name, index), q + 1)
  {
    hide ExprAt;
    NameReads(ts, p, name);
    assert NameAt(ts, p, name) == Good(ArrayAccess(name, index), q + 1);
  }

  lemma ParenReads(ts: seq<Token>, p: nat, e: Expr, q: nat)
    requires p < q < |ts| && ts[p] == Sym(SLParen) && ExprAt(ts, p + 1, 0) == Good(e, q) && ts[q] == Sym(SRParen)
    ensures UnaryAt(ts, p) == Good(e, q + 1)
  {
    hide ExprAt;
  }

  lemma {:induction false} UnaryReads(ts: seq<Token>, p: nat, e: Expr, lvl: nat)
    requires Printable(e) && lvl <= TIGHTEST && At(ts, p, Print(e, lvl)) && (e.Binary? ==> Precedence(e.op) < lvl)
    requires var q := p + |Print(e, lvl)|; EndsOpen(e, lvl) ==> NotNamed(ts, q)
    ensures UnaryAt(ts, p) == Good(e, p + |Print(e, lvl)|)
    decreases e, lvl, 0
  {
    hide At; hide BinopOf; hide Precedence; hide OpToken; hide OperatorsAt; hide ExprAt;
    AtFirst(ts, p, Print(e, lvl));
    match e {
      case IntLiteral(_) =>
      case RealLiteral(_) =>
      case BoolLiteral(b) =>
        assert "FALSE" != "TRUE";
        NameReads(ts, p, if b then "TRUE" else "FALSE");
        assert NameAt(ts, p, if b then "TRUE" else "FALSE") == Good(e, p + 1);
      case Variable(name) =>
        NameReads(ts, p, name);
        assert NameAt(ts, p, name) == Good(e, p + 1);
      case FieldAccess(name, field) => FieldReads(ts, p, name, field);
      case ArrayAccess(name, index) =>
        ArrayParts(ts, p, name, index);
        ExprReads(ts, p + 2, index, 0, 0);
        OperatorsStop(ts, p + 2 + |Print(index, 0)|, index, 0);
        IndexedReads(ts, p, name, index, p + 2 + |Print(index, 0)|);
      case Unary(u, inner) =>
        AtSplit(ts, p, [if u.UNeg? then Sym(SMinus) else Kw(KwNot)], Print(inner, TIGHTEST));
        NeverBare(inner);
        UnaryReads(ts, p + 1, inner, TIGHTEST);
      case Binary(l, op, r) =>
        ParenParts(ts, p, l, op, r, lvl);
        ExprReads(ts, p + 1, e, 0, 0);
        OperatorsStop(ts, p + 1 + |Print(e, 0)|, e, 0);
        ParenReads(ts, p, e, p + 1 + |Print(e, 0)|);
    }
  }

  lemma NameReads(ts: seq<Token>, p: nat, name: string)
    requires p < |ts| && ts[p] == Identifier(name)
    ensures UnaryAt(ts, p) == NameAt(ts, p, name)
  {
    hide NameAt;
    assert PrimaryAt(ts, p) == NameAt(ts, p, name);
  }

  lemma NeverBare(e: Expr)
    ensures e.Binary? ==> Precedence(e.op) < TIGHTEST
  {
  }

  lemma FieldReads(ts: seq<Token>, p: nat, name: string, field: string)
    requires PlainName(name) && At(ts, p, [Identifier(name), Sym(SDot), Identifier(field)])
    ensures UnaryAt(ts, p) == Good(FieldAccess(name, field), p + 3)
  {
    var code := [Identifier(name), Sym(SDot), Identifier(field)];
    assert ts[p..p + 3][0] == ts[p] && ts[p..p + 3][1] == ts[p + 1] && ts[p..p + 3][2] == ts[p + 2];
    NameReads(ts, p, name);
    assert ExpectIdent(ts, p + 2) == Good(field, p + 3);
    assert NameAt(ts, p, name) == Good(FieldAccess(name, field), p + 3);
  }

  lemma ClosersBindNothing()
    ensures BinopOf(Sym(SRBracket)).None? && BinopOf(Sym(SRParen)).None?
  {
  }

  lemma ArrayParts(ts: seq<Token>, p: nat, name: string, index: Expr)
    requires At(ts, p, Print(ArrayAccess(name, index), 0))
    ensures var q := p + 2 + |Print(index, 0)|;
            && q < |ts| && ts[p] == Identifier(name) && ts[p + 1] == Sym(SLBracket) && ts[q] == Sym(SRBracket)
            && At(ts, p + 2, Print(index, 0)) && NotNamed(ts, q) && BindsAtMost(ts, q, -1)
  {
    hide At; hide BinopOf; hide Precedence;
    var open, inner := [Identifier(name), Sym(SLBracket)], Print(index, 0);
    assert Print(ArrayAccess(name, index), 0) == open + inner + [Sym(SRBracket)];
    hide Print;
    ClosersBindNothing();
    AtSplit(ts, p, open + inner, [Sym(SRBracket)]);
    AtSplit(ts, p, open, inner);
    assert open == [Identifier(name)] + [Sym(SLBracket)];
    AtSplit(ts, p, [Identifier(name)], [Sym(SLBracket)]);
    AtFirst(ts, p, [Identifier(name)]);
    AtFirst(ts, p + 1, [Sym(SLBracket)]);
    AtFirst(ts, p + 2 + |inner|, [Sym(SRBracket)]);
  }

  lemma ParenParts(ts: seq<Token>, p: nat, l: Expr, op: BinOp, r: Expr, lvl: nat)
    requires Precedence(op) < lvl && At(ts, p, Print(Binary(l, op, r), lvl))
    ensures var body := Print(Binary(l, op, r), 0);
            var q := p + 1 + |body|;
            && |Print(Binary(l, op, r), lvl)| == |body| + 2
            && q < |ts| && ts[p] == Sym(SLParen) && ts[q] == Sym(SRParen)
            && At(ts, p + 1, body) && NotNamed(ts, q) && BindsAtMost(ts, q, -1)
  {
    hide At; hide Precedence; hide OpToken;
    var body := Print(Binary(l, op, r), 0);
    assert Print(Binary(l, op, r), lvl) == [Sym(SLParen)] + body + [Sym(SRParen)];
    AtSplit(ts, p, [Sym(SLParen)] + body, [Sym(SRParen)]);
    AtSplit(ts, p, [Sym(SLParen)], body);
    AtFirst(ts, p, [Sym(SLParen)]);
    AtFirst(ts, p + 1 + |body|, [Sym(SRParen)]);
  }

  /** The token at `q` cannot go on an expression printed at the lowest level. */
  predicate CannotExtend(ts: seq<Token>, q: nat, e: Expr) {
    && (q < |ts| ==> BinopOf(ts[q]).None?)
    && (EndsOpen(e, 0) ==> NotNamed(ts, q))
  }

  /** Round trip: printed anywhere in a token list before a token that cannot extend it,
      an expression is read back as itself, and exactly its tokens are consumed. */
  lemma ExpressionRoundTrip(ts: seq<Token>, p: nat, e: Expr)
    requires Printable(e) && At(ts, p, Print(e, 0)) && CannotExtend(ts, p + |Print(e, 0)|, e)
    ensures ExprAt(ts, p, 0) == Good(e, p + |Print(e, 0)|)
  {
    ExprReads(ts, p, e, 0, 0);
    OperatorsStop(ts, p + |Print(e, 0)|, e, 0);
  }

  /** Operators of one precedence in a row group to the left. */
  function Chain(first: Expr, ops: seq<BinOp>, args: seq<Expr>): Expr
    requires |ops| == |args|
  {
    if ops == [] then first
    else Binary(Chain(first, ops[..|ops| - 1], args[..|args| - 1]), ops[|ops| - 1], args[|args| - 1])
  }

  function ChainTokens(first: Expr, ops: seq<BinOp>, args: seq<Expr>, lvl: nat): seq<Token>
    requires |ops| == |args|
  {
    if ops == [] then Print(first, lvl)
    else
      ChainTokens(first, ops[..|ops| - 1], args[..|args| - 1], lvl) + [OpToken(ops[|ops| - 1])] +
      Print(args[|args| - 1], lvl + 1)
  }

  lemma {:induction false} ChainPrints(first: Expr, ops: seq<BinOp>, args: seq<Expr>, lvl: nat)
    requires |ops| == |args| && forall op :: op in ops ==> Precedence(op) == lvl
    ensures Print(Chain(first, ops, args), lvl) == ChainTokens(first, ops, args, lvl)
  {
    hide Precedence; hide OpToken;
    if ops != [] {
      assert ops[|ops| - 1] in ops;
      ChainPrints(first, ops[..|ops| - 1], args[..|args| - 1], lvl);
    }
  }

  /** A row of operands joined by operators of one precedence, at the end of the input,
      is read as the chain that groups to the left. */
  lemma ChainsGroupLeft(first: Expr, ops: seq<BinOp>, args: seq<Expr>, lvl: nat)
    requires |ops| == |args| && lvl <= TIGHTEST && forall op :: op in ops ==> Precedence(op) == lvl
    requires Printable(first) && forall i :: 0 <= i < |args| ==> Printable(args[i])
    ensures var ts := ChainTokens(first, ops, args, lvl);
            ExprAt(ts, 0, 0) == Good(Chain(first, ops, args), |ts|)
  {
    hide Precedence; hide OpToken; hide Print; hide Printable; hide ExprAt; hide ChainTokens;
    ChainPrints(first, ops, args, lvl);
    ChainPrintable(first, ops, args);
    var ts, e := ChainTokens(first, ops, args, lvl), Chain(first, ops, args);
    assert At(ts, 0, ts);
    ExprReads(ts, 0, e, lvl, 0);
    OperatorsStop(ts, |ts|, e, 0);
  }

  lemma {:induction false} ChainPrintable(first: Expr, ops: seq<BinOp>, args: seq<Expr>)
    requires |ops| == |args| && Printable(first) && forall i :: 0 <= i < |args| ==> Printable(args[i])
    ensures Printable(Chain(first, ops, args))
  {
    if ops != [] { ChainPrintable(first, ops[..|ops| - 1], args[..|args| - 1]); }
  }
}
