/** IL source text: the line lexer and the statement parser, each as the loop it is
    and as the function that loop computes. */
module IlText {
  import opened HalValues
  import opened IlLang

  datatype Mnemonic =
    | LD | LDN | ST | AND | ANDN | OR | ORN | XOR | ADD | SUB | MUL | DIV | MOD
    | GT | GE | EQ | NE | LE | LT | JMP | JMPC | JMPCN | CAL | RET | S | R | NOT
    | TON | TOF | TP | CTU | CTD | R_TRIG | F_TRIG | SR | RS

  datatype Token = Op(m: Mnemonic) | Ident(text: string) | LabelDef(text: string)

  // ----- characters, lines and words -----

  predicate IsSpace(c: char) {
    var n := c as int;
    || 0x09 <= n <= 0x0D || n == 0x20 || n == 0x85 || n == 0xA0 || n == 0x1680
    || 0x2000 <= n <= 0x200A || n == 0x2028 || n == 0x2029 || n == 0x202F || n == 0x205F || n == 0x3000
  }

  predicate SpaceFree(s: string) {
    forall i :: 0 <= i < |s| ==> !IsSpace(s[i])
  }

  function UpperChar(c: char): char {
    if 'a' <= c <= 'z' then (c as int - 32) as char else c
  }

  function Upper(s: string): string { seq(|s|, i requires 0 <= i < |s| => UpperChar(s[i])) }

  /** Length of the longest prefix without a character in `stop`. */
  function Span(s: string, stop: char -> bool): (n: nat)
    ensures n <= |s| && (n < |s| ==> stop(s[n]))
    ensures forall i :: 0 <= i < n ==> !stop(s[i])
  {
    if s == "" || stop(s[0]) then 0 else 1 + Span(s[1..], stop)
  }

  function IsNewline(c: char): bool { c == '\n' }

  function DropCr(s: string): string {
    if s != "" && s[|s| - 1] == '\r' then s[..|s| - 1] else s
  }

  /** Lines end at a newline, with an optional carriage return before it. */
  function Lines(s: string): seq<string> {
    if s == "" then []
    else
      var n := Span(s, IsNewline);
      if n == |s| then [s] else [DropCr(s[..n])] + Lines(s[n + 1..])
  }

  function TrimStart(s: string): string { s[Span(s, c => !IsSpace(c))..] }

  function TrimEnd(s: string): string {
    if s != "" && IsSpace(s[|s| - 1]) then TrimEnd(s[..|s| - 1]) else s
  }

  function Trim(s: string): string { TrimEnd(TrimStart(s)) }

  /** The maximal runs of characters that are not white space. */
  function Words(s: string): (ws: seq<string>)
    ensures forall w :: w in ws ==> w != "" && SpaceFree(w)
    decreases |s|
  {
    if s == "" then []
    else if IsSpace(s[0]) then Words(s[1..])
    else
      var n := Span(s, IsSpace);
      [s[..n]] + Words(s[n..])
  }

  function TotalLength(ws: seq<string>): nat {
    if ws == [] then 0 else |ws[0]| + TotalLength(ws[1..])
  }

  predicate Opens(s: string) { |s| >= 2 && s[0] == '(' && s[1] == '*' }

  predicate Closes(s: string) { |s| >= 2 && s[0] == '*' && s[1] == ')' }

  /** `s` without its comments; `inside` when it starts within one. Comments do not nest. */
  function Uncommented(s: string, inside: bool): (r: string)
    decreases |s|
  {
    if s == "" then ""
    else if Opens(s) then Uncommented(s[2..], true)
    else if inside && Closes(s) then Uncommented(s[2..], false)
    else (if inside then "" else [s[0]]) + Uncommented(s[1..], inside)
  }

  lemma UncommentedFrom(line: string, i: nat, inside: bool)
    requires i < |line|
    ensures i + 1 < |line| && line[i] == '(' && line[i + 1] == '*' ==>
              Uncommented(line[i..], inside) == Uncommented(line[i + 2..], true)
    ensures i + 1 < |line| && line[i] == '*' && line[i + 1] == ')' && inside ==>
              Uncommented(line[i..], inside) == Uncommented(line[i + 2..], false)
    ensures !Opens(line[i..]) && !(inside && Closes(line[i..])) ==>
              Uncommented(line[i..], inside) == (if inside then "" else [line[i]]) + Uncommented(line[i + 1..], inside)
  {
    var rest := line[i..];
    assert rest[1..] == line[i + 1..];
    if i + 1 < |line| { assert rest[2..] == line[i + 2..]; }
  }

  lemma NothingUncommented(inside: bool)
    ensures Uncommented("", inside) == ""
  {
  }

  method RemoveInlineComments(line: string) returns (result: string)
    ensures result == Uncommented(line, false)
  {
    hide Uncommented;
    result := "";
    var inComment := false;
    var i := 0;
    while i < |line|
      invariant 0 <= i <= |line|
      invariant result + Uncommented(line[i..], inComment) == Uncommented(line, false)
    {
      UncommentedFrom(line, i, inComment);
      if i + 1 < |line| && line[i] == '(' && line[i + 1] == '*' {
        inComment := true;
        i := i + 2;
      } else if inComment && i + 1 < |line| && line[i] == '*' && line[i + 1] == ')' {
        inComment := false;
        i := i + 2;
      } else {
        if !inComment { result := result + [line[i]]; }
        i := i + 1;
      }
    }
    assert line[i..] == "";
    NothingUncommented(inComment);
  }

  // ----- tokens -----

  function ParseMnemonic(s: string): Option<Mnemonic> {
    if s == "LD" then Some(LD) else if s == "LDN" then Some(LDN) else if s == "ST" then Some(ST)
    else if s == "AND" then Some(AND) else if s == "ANDN" then Some(ANDN)
    else if s == "OR" then Some(OR) else if s == "ORN" then Some(ORN) else if s == "XOR" then Some(XOR)
    else if s == "ADD" then Some(ADD) else if s == "SUB" then Some(SUB) else if s == "MUL" then Some(MUL)
    else if s == "DIV" then Some(DIV) else if s == "MOD" then Some(MOD)
    else if s == "GT" then Some(GT) else if s == "GE" then Some(GE) else if s == "EQ" then Some(EQ)
    else if s == "NE" then Some(NE) else if s == "LE" then Some(LE) else if s == "LT" then Some(LT)
    else if s == "JMP" then Some(JMP) else if s == "JMPC" then Some(JMPC) else if s == "JMPCN" then Some(JMPCN)
    else if s == "CAL" then Some(CAL) else if s == "RET" then Some(RET)
    else if s == "S" then Some(S) else if s == "R" then Some(R) else if s == "NOT" then Some(NOT)
    else if s == "TON" then Some(TON) else if s == "TOF" then Some(TOF) else if s == "TP" then Some(TP)
    else if s == "CTU" then Some(CTU) else if s == "CTD" then Some(CTD)
    else if s == "R_TRIG" then Some(R_TRIG) else if s == "F_TRIG" then Some(F_TRIG)
    else if s == "SR" then Some(SR) else if s == "RS" then Some(RS)
    else None
  }

  predicate IsLabel(part: string) { part != "" && part[|part| - 1] == ':' }

  function PartToken(part: string): Token {
    match ParseMnemonic(Upper(part))
    case Some(m) => Op(m)
    case None => Ident(part)
  }

  function PartTokens(parts: seq<string>): seq<Token> {
    if parts == [] then [] else [PartToken(parts[0])] + PartTokens(parts[1..])
  }

  /** A label gives a token of its own, with everything behind it; a mnemonic takes the
      second word as its operand and drops the rest; any other line is ignored. */
  function WordTokens(parts: seq<string>): seq<Token> {
    if parts == [] then []
    else
      (if IsLabel(parts[0]) then [LabelDef(parts[0][..|parts[0]| - 1])] + PartTokens(parts[1..]) else []) +
      (match ParseMnemonic(Upper(parts[0]))
       case None => []
       case Some(m) => [Op(m)] + (if |parts| >= 2 then [Ident(parts[1])] else []))
  }

  function LineTokens(line: string): seq<Token> {
    var trimmed := Trim(line);
    if trimmed == "" || Opens(trimmed) then [] else WordTokens(Words(Uncommented(trimmed, false)))
  }

  function TokensOf(lines: seq<string>): seq<Token> {
    if lines == [] then [] else LineTokens(lines[0]) + TokensOf(lines[1..])
  }

  /** The token stream of a source text. */
  method Tokenize(source: string) returns (tokens: seq<Token>)
    ensures tokens == TokensOf(Lines(source))
  {
    hide LineTokens; hide Lines;
    tokens := [];
    var lines := Lines(source);
    for i := 0 to |lines|
      invariant tokens + TokensOf(lines[i..]) == TokensOf(lines)
    {
      assert lines[i..][0] == lines[i] && lines[i..][1..] == lines[i + 1..];
      var line := TokenizeLine(lines[i]);
      tokens := tokens + line;
    }
    assert lines[|lines|..] == [];
  }

  method TokenizeLine(line: string) returns (tokens: seq<Token>)
    ensures tokens == LineTokens(line)
  {
    hide ParseMnemonic; hide Words; hide Uncommented; hide Trim; hide Upper; hide PartTokens;
    tokens := [];
    var trimmed := Trim(line);
    if trimmed == "" || Opens(trimmed) { return; }
    var code := RemoveInlineComments(trimmed);
    var parts := Words(code);
    if parts == [] { return; }
    if IsLabel(parts[0]) {
      tokens := tokens + [LabelDef(parts[0][..|parts[0]| - 1])];
      var rest := PushParts(parts[1..]);
      tokens := tokens + rest;
    }
    var mnemonic := ParseMnemonic(Upper(parts[0]));
    if mnemonic.None? { return; }
    tokens := tokens + [Op(mnemonic.value)];
    if |parts| >= 2 {
      tokens := tokens + [Ident(parts[1])];
    }
  }

  method PushParts(parts: seq<string>) returns (tokens: seq<Token>)
    ensures tokens == PartTokens(parts)
  {
    tokens := [];
    for j := 0 to |parts|
      invariant tokens + PartTokens(parts[j..]) == PartTokens(parts)
    {
      assert parts[j..][0] == parts[j] && parts[j..][1..] == parts[j + 1..];
      tokens := tokens + [PartToken(parts[j])];
    }
    assert parts[|parts|..] == [];
  }

  // ----- statements -----

  predicate TakesOperand(m: Mnemonic) { m != RET && m != NOT }

  /** The statement of a mnemonic, with its operand if it takes one. */
  function StatementOf(m: Mnemonic, v: string): IlStmt {
    match m
    case LD => Load(v) case LDN => LoadNot(v) case ST => Store(v)
    case AND => And(v) case ANDN => AndNot(v) case OR => Or(v) case ORN => OrNot(v)
    case XOR => Xor(v) case ADD => Add(v) case SUB => Sub(v) case MUL => Mul(v)
    case DIV => Div(v) case MOD => Mod(v)
    case GT => Cmp(CGt, v) case GE => Cmp(CGe, v) case EQ => Cmp(CEq, v)
    case NE => Cmp(CNe, v) case LE => Cmp(CLe, v) case LT => Cmp(CLt, v)
    case JMP => Jump(v) case JMPC => JumpIf(v) case JMPCN => JumpIfNot(v)
    case CAL => Call(v)
    case RET => Return
    case S => Set(v) case R => Reset(v)
    case NOT => Not
    case TON => Ton(v) case TOF => Tof(v) case TP => Tp(v)
    case CTU => Ctu(v) case CTD => Ctd(v)
    case R_TRIG => RTrig(v) case F_TRIG => FTrig(v) case SR => Sr(v) case RS => Rs(v)
  }

  const MISSING: string := "?"

  function ParseTokens(ts: seq<Token>): seq<IlStmt> {
    if ts == [] then []
    else
      match ts[0]
      case LabelDef(l) => [Label(l)] + ParseTokens(ts[1..])
      case Ident(_) => ParseTokens(ts[1..])
      case Op(m) =>
        if !TakesOperand(m) then [StatementOf(m, MISSING)] + ParseTokens(ts[1..])
        else if |ts| >= 2 && ts[1].Ident? then [StatementOf(m, ts[1].text)] + ParseTokens(ts[2..])
        else [StatementOf(m, MISSING)] + ParseTokens(ts[1..])
  }

  /** A missing operand reads as "?". */
  method ExpectIdent(tokens: seq<Token>, i: nat) returns (name: string, next: nat)
    ensures if i < |tokens| && tokens[i].Ident? then name == tokens[i].text && next == i + 1
            else name == MISSING && next == i
  {
    if i < |tokens| && tokens[i].Ident? {
      return tokens[i].text, i + 1;
    }
    return MISSING, i;
  }

  /** The statement at `i`, if any, and where to go on. */
  method ParseOne(tokens: seq<Token>, i: nat) returns (stmt: seq<IlStmt>, next: nat)
    requires i < |tokens|
    ensures i < next <= |tokens|
    ensures stmt + ParseTokens(tokens[next..]) == ParseTokens(tokens[i..])
  {
    ParseStep(tokens, i);
    hide StatementOf; hide ParseTokens; hide TakesOperand;
    stmt, next := [], i + 1;
    match tokens[i]
    case LabelDef(l) => stmt := [Label(l)];
    case Ident(_) =>
    case Op(m) =>
      var v := MISSING;
      if TakesOperand(m) {
        v, next := ExpectIdent(tokens, next);
      }
      stmt := [StatementOf(m, v)];
  }

  method Parse(tokens: seq<Token>) returns (stmts: seq<IlStmt>)
    ensures stmts == ParseTokens(tokens)
  {
    hide ParseTokens;
    stmts := [];
    var i := 0;
    assert tokens[0..] == tokens;
    while i < |tokens|
      invariant 0 <= i <= |tokens|
      invariant stmts + ParseTokens(tokens[i..]) == ParseTokens(tokens)
    {
      ghost var before := i;
      var stmt;
      stmt, i := ParseOne(tokens, i);
      assert stmts + (stmt + ParseTokens(tokens[i..])) == stmts + stmt + ParseTokens(tokens[i..]);
      stmts := stmts + stmt;
    }
    NothingLeft();
    assert tokens[i..] == [];
  }

  lemma NothingLeft()
    ensures ParseTokens([]) == []
  {
  }

  lemma ParseStep(ts: seq<Token>, i: nat)
    requires i < |ts|
    ensures ParseTokens(ts[i..]) ==
            match ts[i]
            case LabelDef(l) => [Label(l)] + ParseTokens(ts[i + 1..])
            case Ident(_) => ParseTokens(ts[i + 1..])
            case Op(m) =>
              if TakesOperand(m) && i + 1 < |ts| && ts[i + 1].Ident? then
                [StatementOf(m, ts[i + 1].text)] + ParseTokens(ts[i + 2..])
              else [StatementOf(m, MISSING)] + ParseTokens(ts[i + 1..])
  {
    hide StatementOf;
    var rest := ts[i..];
    assert rest[1..] == ts[i + 1..];
    if i + 1 < |ts| { assert rest[2..] == ts[i + 2..]; }
  }

  /** Source text to statements. */
  function Statements(source: string): seq<IlStmt> { ParseTokens(TokensOf(Lines(source))) }
}
