/** The words of Instruction List: every statement written on a line of its own reads back as
    itself, and so does every list of them. */
module IlWords {
  import opened HalValues
  import opened IlLang
  import opened IlText
  import LadderIl
  import opened TextRoundTrip

  /** How a statement is spelt; a label is its name. */
  function Word(s: IlStmt): string {
    match s
    case Load(_) => "LD" case LoadNot(_) => "LDN" case Store(_) => "ST"
    case And(_) => "AND" case AndNot(_) => "ANDN" case Or(_) => "OR" case OrNot(_) => "ORN" case Xor(_) => "XOR"
    case Add(_) => "ADD" case Sub(_) => "SUB" case Mul(_) => "MUL" case Div(_) => "DIV" case Mod(_) => "MOD"
    case Cmp(CGt, _) => "GT" case Cmp(CGe, _) => "GE" case Cmp(CEq, _) => "EQ"
    case Cmp(CNe, _) => "NE" case Cmp(CLe, _) => "LE" case Cmp(CLt, _) => "LT"
    case Jump(_) => "JMP" case JumpIf(_) => "JMPC" case JumpIfNot(_) => "JMPCN"
    case Call(_) => "CAL" case Return => "RET" case Set(_) => "S" case Reset(_) => "R" case Not => "NOT"
    case Ton(_) => "TON" case Tof(_) => "TOF" case Tp(_) => "TP" case Ctu(_) => "CTU" case Ctd(_) => "CTD"
    case RTrig(_) => "R_TRIG" case FTrig(_) => "F_TRIG" case Sr(_) => "SR" case Rs(_) => "RS"
    case Label(name) => name
  }

  /** The variable, the target or the label's own name. */
  function NameOf(s: IlStmt): string {
    match s
    case Jump(t) => t case JumpIf(t) => t case JumpIfNot(t) => t case Call(t) => t
    case Return => "" case Not => "" case Label(name) => name
    case _ => s.v
  }

  function Written(s: IlStmt): string {
    if s.Label? then s.name + ":" else if s.Return? || s.Not? then Word(s) else Word(s) + " " + NameOf(s)
  }

  predicate Writable(s: IlStmt) { s.Return? || s.Not? || GoodName(NameOf(s)) }

  // ----- the table of mnemonics -----

  lemma ArithmeticWords()
    ensures ParseMnemonic("XOR") == Some(XOR) && ParseMnemonic("ADD") == Some(ADD) && ParseMnemonic("SUB") == Some(SUB)
    ensures ParseMnemonic("MUL") == Some(MUL) && ParseMnemonic("DIV") == Some(DIV) && ParseMnemonic("MOD") == Some(MOD)
  {
  }

  lemma ComparisonWords()
    ensures ParseMnemonic("GT") == Some(GT) && ParseMnemonic("GE") == Some(GE) && ParseMnemonic("EQ") == Some(EQ)
    ensures ParseMnemonic("NE") == Some(NE) && ParseMnemonic("LE") == Some(LE) && ParseMnemonic("LT") == Some(LT)
  {
  }

  lemma JumpWords()
    ensures ParseMnemonic("JMP") == Some(JMP) && ParseMnemonic("JMPC") == Some(JMPC)
    ensures ParseMnemonic("JMPCN") == Some(JMPCN)
  {
  }

  lemma ControlWords()
    ensures ParseMnemonic("CAL") == Some(CAL) && ParseMnemonic("RET") == Some(RET) && ParseMnemonic("NOT") == Some(NOT)
  {
  }

  lemma TimerWords()
    ensures ParseMnemonic("TON") == Some(TON) && ParseMnemonic("TOF") == Some(TOF) && ParseMnemonic("TP") == Some(TP)
  {
  }

  lemma CounterWords()
    ensures ParseMnemonic("CTU") == Some(CTU) && ParseMnemonic("CTD") == Some(CTD)
  {
  }

  lemma FlipFlopWords()
    ensures ParseMnemonic("SR") == Some(SR) && ParseMnemonic("RS") == Some(RS)
  {
  }

  function MnemonicOf(s: IlStmt): Mnemonic
    requires !s.Label?
  {
    match s
    case Load(_) => LD case LoadNot(_) => LDN case Store(_) => ST
    case And(_) => AND case AndNot(_) => ANDN case Or(_) => OR case OrNot(_) => ORN case Xor(_) => XOR
    case Add(_) => ADD case Sub(_) => SUB case Mul(_) => MUL case Div(_) => DIV case Mod(_) => MOD
    case Cmp(CGt, _) => GT case Cmp(CGe, _) => GE case Cmp(CEq, _) => EQ
    case Cmp(CNe, _) => NE case Cmp(CLe, _) => LE case Cmp(CLt, _) => LT
    case Jump(_) => JMP case JumpIf(_) => JMPC case JumpIfNot(_) => JMPCN
    case Call(_) => CAL case Return => RET case Set(_) => S case Reset(_) => R case Not => NOT
    case Ton(_) => TON case Tof(_) => TOF case Tp(_) => TP case Ctu(_) => CTU case Ctd(_) => CTD
    case RTrig(_) => R_TRIG case FTrig(_) => F_TRIG case Sr(_) => SR case Rs(_) => RS
  }

  lemma WordIsMnemonic(s: IlStmt)
    requires !s.Label?
    ensures ParseMnemonic(Word(s)) == Some(MnemonicOf(s))
  {
    hide ParseMnemonic;
    MnemonicTable();
    ArithmeticWords();
    ComparisonWords();
    JumpWords();
    ControlWords();
    TimerWords();
    CounterWords();
    FlipFlopWords();
  }

  lemma StatementBack(s: IlStmt)
    requires !s.Label?
    ensures TakesOperand(MnemonicOf(s)) ==> StatementOf(MnemonicOf(s), NameOf(s)) == s
    ensures !TakesOperand(MnemonicOf(s)) ==> StatementOf(MnemonicOf(s), MISSING) == s
    ensures TakesOperand(MnemonicOf(s)) <==> !s.Return? && !s.Not?
  {
  }

  /** Capitals and underscores only. */
  predicate Capital(w: string) { w != "" && forall i :: 0 <= i < |w| ==> 'A' <= w[i] <= 'Z' || w[i] == '_' }

  lemma WordIsCapital(s: IlStmt)
    requires !s.Label?
    ensures Capital(Word(s))
  {
  }

  lemma CapitalIsPlain(w: string)
    requires Capital(w)
    ensures Upper(w) == w && SpaceFree(w) && !IsLabel(w) && '(' !in w && '\n' !in w && w[|w| - 1] != '\r'
  {
  }

  /** No mnemonic ends in a colon. */
  lemma ColonIsNoMnemonic(w: string)
    requires w != "" && w[|w| - 1] == ':'
    ensures ParseMnemonic(w).None?
  {
  }

  // ----- comments -----

  /** Without stars in it a comment ends at its closing mark, unless a parenthesis before that
      mark makes it an opening one. */
  lemma {:induction false} InsideComment(c: string, rest: string)
    requires '*' !in c
    ensures Uncommented(c + "*)" + rest, true) ==
            if c != "" && c[|c| - 1] == '(' then Uncommented(")" + rest, true) else Uncommented(rest, false)
  {
    var s := c + "*)" + rest;
    if c == "" {
      assert s[2..] == rest;
    } else if |c| == 1 && c[0] == '(' {
      assert s[2..] == ")" + rest;
    } else {
      assert s[0] == c[0] && (|c| > 1 ==> s[1] == c[1]) && s[1..] == c[1..] + "*)" + rest;
      assert !Opens(s) && !Closes(s);
      InsideComment(c[1..], rest);
    }
  }

  lemma FirstFree(a: string)
    requires a != "" && CommentFree(a)
    ensures !Opens(a)
  {
    assert a[0..] == a;
  }

  lemma BeforeComment(a: string, rest: string)
    requires a != "" && CommentFree(a) && rest != "" && rest[0] != '*'
    ensures CommentFree(a[1..]) && Uncommented(a + rest, false) == [a[0]] + Uncommented(a[1..] + rest, false)
  {
    hide CommentFree;
    FirstFree(a);
    var s := a + rest;
    assert s[0] == a[0] && (|a| > 1 ==> s[1] == a[1]) && s[1..] == a[1..] + rest;
    assert !Opens(s);
    TailCommentFree(a);
  }

  lemma TailCommentFree(a: string)
    requires a != "" && CommentFree(a)
    ensures CommentFree(a[1..])
  {
    forall i | 0 <= i < |a[1..]|
      ensures !Opens(a[1..][i..])
    {
      assert a[1..][i..] == a[i + 1..];
    }
  }

  lemma {:induction false} TextBefore(a: string, rest: string)
    requires CommentFree(a) && rest != "" && rest[0] != '*'
    ensures Uncommented(a + rest, false) == a + Uncommented(rest, false)
  {
    hide Uncommented; hide CommentFree;
    if a == "" {
      assert a + rest == rest;
    } else {
      BeforeComment(a, rest);
      TextBefore(a[1..], rest);
      assert [a[0]] + (a[1..] + Uncommented(rest, false)) == a + Uncommented(rest, false);
    }
  }

  lemma CommentAlone(c: string, b: string)
    requires '*' !in c && (c != "" ==> c[|c| - 1] != '(')
    ensures Uncommented("(*" + (c + "*)" + b), false) == Uncommented(b, false)
  {
    var s := "(*" + (c + "*)" + b);
    InsideComment(c, b);
    assert s[2..] == c + "*)" + b;
  }

  /** A comment, with its marks, leaves nothing behind, wherever it stands. */
  lemma CommentsVanish(a: string, c: string, b: string)
    requires CommentFree(a) && '*' !in c && (c != "" ==> c[|c| - 1] != '(')
    ensures Uncommented(a + "(*" + c + "*)" + b, false) == a + Uncommented(b, false)
  {
    hide *;
    TextBefore(a, "(*" + (c + "*)" + b));
    CommentAlone(c, b);
    assert a + "(*" + c + "*)" + b == a + ("(*" + (c + "*)" + b));
  }

  // ----- one line -----

  function TokensFor(s: IlStmt): seq<Token> {
    if s.Label? then [LabelDef(s.name)]
    else if s.Return? || s.Not? then [Op(MnemonicOf(s))]
    else [Op(MnemonicOf(s)), Ident(NameOf(s))]
  }

  lemma OperandLine(w: string, v: string, m: Mnemonic)
    requires Capital(w) && ParseMnemonic(w) == Some(m) && GoodName(v)
    ensures LineTokens(w + " " + v) == [Op(m), Ident(v)]
  {
    hide ParseMnemonic; hide Words; hide Uncommented; hide Trim; hide Upper; hide Capital; hide GoodName;
    hide PartTokens;
    CapitalIsPlain(w);
    CapitalHasLetters(w);
    GoodLine(w, v);
  }

  lemma CapitalHasLetters(w: string)
    requires Capital(w)
    ensures w != ""
  {
  }

  lemma BareLine(w: string, m: Mnemonic)
    requires Capital(w) && ParseMnemonic(w) == Some(m)
    ensures LineTokens(w) == [Op(m)]
  {
    CapitalIsPlain(w);
    CapitalHasLetters(w);
    hide Capital; hide ParseMnemonic; hide Words; hide Uncommented; hide Trim; hide Upper; hide PartTokens;
    hide WordTokens; hide IsLabel;
    NoCommentIn(w);
    TrimTight(w);
    UncommentedPlain(w);
    OneWord(w);
    BareTokens([w], m);
  }

  lemma BareTokens(parts: seq<string>, m: Mnemonic)
    requires |parts| == 1 && !IsLabel(parts[0]) && ParseMnemonic(Upper(parts[0])) == Some(m)
    ensures WordTokens(parts) == [Op(m)]
  {
    hide ParseMnemonic; hide Upper; hide PartTokens; hide IsLabel;
  }

  lemma NoCommentIn(w: string)
    requires '(' !in w
    ensures !Opens(w) && forall i :: 0 <= i < |w| ==> !Opens(w[i..])
  {
    forall i | 0 <= i < |w|
      ensures !Opens(w[i..])
    {
      assert w[i..][0] == w[i] && w[i] in w;
    }
  }

  lemma LabelLine(name: string)
    requires GoodName(name)
    ensures LineTokens(name + ":") == [LabelDef(name)]
  {
    var w := name + ":";
    LabelIsWord(name);
    ColonIsNoMnemonic(Upper(w));
    hide ParseMnemonic; hide Words; hide Uncommented; hide Trim; hide Upper; hide PartTokens;
    TrimTight(w);
    UncommentedPlain(w);
    OneWord(w);
    assert w[..|w| - 1] == name;
    NoParts();
    LabelTokens([w], name);
  }

  lemma LabelTokens(parts: seq<string>, name: string)
    requires |parts| == 1 && IsLabel(parts[0]) && parts[0][..|parts[0]| - 1] == name
    requires ParseMnemonic(Upper(parts[0])).None? && PartTokens([]) == []
    ensures WordTokens(parts) == [LabelDef(name)]
  {
    hide ParseMnemonic; hide Upper; hide PartTokens;
    assert parts[1..] == [];
  }

  lemma NoParts()
    ensures PartTokens([]) == []
  {
  }

  lemma LabelIsWord(name: string)
    requires GoodName(name)
    ensures var w := name + ":";
            && w != "" && SpaceFree(w) && IsLabel(w) && !Opens(w) && Upper(w)[|w| - 1] == ':'
            && forall i :: 0 <= i < |w| ==> !Opens(w[i..])
  {
    var w := name + ":";
    forall i | 0 <= i < |w|
      ensures !Opens(w[i..])
    {
      if i < |name| { assert w[i..] == name[i..] + ":" && !Opens(name[i..]); }
    }
    assert w[0..] == w;
  }

  // ----- other lines -----

  /** Tabs separate words as spaces do; no printable ASCII character does. */
  lemma WhiteSpace(a: string, b: string, c: char)
    requires a != "" && b != "" && SpaceFree(a) && SpaceFree(b)
    ensures c in {' ', '\t', '\r'} ==> Words(a + [c] + b) == [a, b]
    ensures '!' <= c <= '~' ==> Words(a + [c] + b) == [a + [c] + b]
  {
    if c in {' ', '\t', '\r'} {
      var s := a + [c] + b;
      SpanAt(s, IsSpace, |a|);
      assert s[..|a|] == a && s[|a|..] == [c] + b && ([c] + b)[1..] == b;
      OneWord(b);
    } else if '!' <= c <= '~' {
      OneWord(a + [c] + b);
    }
  }

  /** The words of a line, in capitals or not. */
  predicate SpeltAs(u: string, w: string) {
    && |u| == |w|
    && forall i :: 0 <= i < |w| ==> u[i] == w[i] || ('A' <= w[i] <= 'Z' && u[i] as int == w[i] as int + 32)
  }

  lemma CaseDoesNotMatter(u: string, w: string)
    requires Capital(w) && SpeltAs(u, w)
    ensures ParseMnemonic(Upper(u)) == ParseMnemonic(w)
  {
    hide ParseMnemonic;
    forall i | 0 <= i < |w|
      ensures UpperChar(u[i]) == w[i]
    {
    }
    assert Upper(u) == w;
  }

  /** What a line's words stand for: a label takes everything behind it as further tokens; the
      operand is the second word, whatever it is, and a third is dropped; a line that begins with
      neither a label nor a mnemonic says nothing. */
  lemma WordsOfLine(name: string, w: string, m: Mnemonic, v: string, more: seq<string>)
    requires ParseMnemonic(Upper(w)) == Some(m) && !IsLabel(w)
    ensures WordTokens([w, v] + more) == [Op(m), Ident(v)]
    ensures ParseMnemonic(Upper(v)).None? ==> WordTokens([name + ":", w, v]) == [LabelDef(name), Op(m), Ident(v)]
    ensures !IsLabel(v) && ParseMnemonic(Upper(v)).None? ==> WordTokens([v, w] + more) == []
  {
    hide ParseMnemonic; hide Upper;
    var parts := [name + ":", w, v];
    assert parts[1..] == [w, v] && [w, v][1..] == [v] && [v][1..] == [];
    assert PartTokens([v]) == [PartToken(v)] + PartTokens([]);
    assert PartTokens(parts[1..]) == [PartToken(w)] + PartTokens([v]);
    LabelIsNoMnemonic(name);
    assert parts[0][..|name|] == name;
  }

  lemma LabelIsNoMnemonic(name: string)
    ensures ParseMnemonic(Upper(name + ":")).None?
  {
    hide ParseMnemonic;
    ColonIsNoMnemonic(Upper(name + ":"));
  }

  /** A mnemonic without its operand gets the name "?", and a stray name is skipped. */
  lemma MissingOperand(m: Mnemonic, v: string, rest: seq<Token>)
    requires TakesOperand(m) && (rest == [] || !rest[0].Ident?)
    ensures ParseTokens([Op(m)] + rest) == [StatementOf(m, "?")] + ParseTokens(rest)
    ensures ParseTokens([Ident(v)] + rest) == ParseTokens(rest)
  {
    hide StatementOf;
    var ts := [Op(m)] + rest;
    assert ts[1..] == rest && ([Ident(v)] + rest)[1..] == rest;
  }

  // ----- reading what is written -----

  /** Every statement but one with a name that spaces or comments would break is read back. */
  lemma WrittenReads(s: IlStmt)
    requires Writable(s)
    ensures LineTokens(Written(s)) == TokensFor(s)
  {
    hide LineTokens; hide Word; hide MnemonicOf; hide ParseMnemonic; hide GoodName;
    if s.Label? {
      LabelLine(s.name);
    } else {
      WordIsMnemonic(s);
      WordIsCapital(s);
      if s.Return? || s.Not? {
        BareLine(Word(s), MnemonicOf(s));
      } else {
        OperandLine(Word(s), NameOf(s), MnemonicOf(s));
      }
    }
  }

  lemma WrittenIsText(s: IlStmt)
    requires Writable(s)
    ensures TextLine(Written(s))
  {
    hide Word;
    assert IsSpace('\n') && IsSpace('\r');
    if !s.Label? {
      WordIsCapital(s);
      CapitalIsPlain(Word(s));
      var l := Written(s);
      assert '\n' !in Word(s) && '\n' !in " ";
    }
  }

  // ----- whole texts -----

  function WrittenLines(ss: seq<IlStmt>): (ls: seq<string>)
    ensures |ls| == |ss| && forall i :: 0 <= i < |ss| ==> ls[i] == Written(ss[i])
  {
    if ss == [] then [] else WrittenLines(ss[..|ss| - 1]) + [Written(ss[|ss| - 1])]
  }

  lemma {:induction false} TokensBack(ss: seq<IlStmt>, ls: seq<string>)
    requires |ls| == |ss| && forall i :: 0 <= i < |ss| ==> Writable(ss[i]) && ls[i] == Written(ss[i])
    ensures ParseTokens(TokensOf(ls)) == ss
  {
    hide LineTokens; hide Written; hide MnemonicOf; hide ParseMnemonic; hide StatementOf; hide Writable;
    if ss != [] {
      var s, rest := ss[0], TokensOf(ls[1..]);
      WrittenReads(s);
      TokensBack(ss[1..], ls[1..]);
      assert TokensOf(ls) == TokensFor(s) + rest;
      OneStatement(s, rest);
    }
  }

  lemma OneStatement(s: IlStmt, rest: seq<Token>)
    ensures ParseTokens(TokensFor(s) + rest) == [s] + ParseTokens(rest)
  {
    hide MnemonicOf; hide StatementOf;
    var ts := TokensFor(s) + rest;
    assert ts[|TokensFor(s)|..] == rest && ts[0] == TokensFor(s)[0];
    if !s.Label? { StatementBack(s); }
    hide TakesOperand;
    if |TokensFor(s)| == 2 { assert ts[1] == TokensFor(s)[1]; }
  }

  /** Any list of statements, one to a line, is read back as itself. */
  lemma TextReadsBack(ss: seq<IlStmt>)
    requires forall i :: 0 <= i < |ss| ==> Writable(ss[i])
    ensures ParseTokens(TokensOf(Lines(LadderIl.Join(WrittenLines(ss))))) == ss
  {
    hide Writable; hide Written; hide TextLine;
    var ls := WrittenLines(ss);
    forall l | l in ls
      ensures TextLine(l)
    {
      var i :| 0 <= i < |ls| && ls[i] == l;
      WrittenIsText(ss[i]);
    }
    LinesOfJoin(ls);
    TokensBack(ss, ls);
  }
}
