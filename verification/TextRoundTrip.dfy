/** The text printed for ladder networks reads back as the intended statements. */
module TextRoundTrip {
  import opened HalValues
  import opened IlLang
  import opened IlText
  import opened LadderIl

  predicate CommentFree(v: string) {
    forall i :: 0 <= i < |v| ==> !Opens(v[i..])
  }

  /** The variable names that survive printing and reading. */
  predicate GoodName(v: string) { v != "" && SpaceFree(v) && CommentFree(v) }

  // ----- one line -----

  lemma MnemonicTable()
    ensures ParseMnemonic("LD") == Some(LD) && ParseMnemonic("LDN") == Some(LDN) && ParseMnemonic("ST") == Some(ST)
    ensures ParseMnemonic("AND") == Some(AND) && ParseMnemonic("ANDN") == Some(ANDN)
    ensures ParseMnemonic("OR") == Some(OR) && ParseMnemonic("ORN") == Some(ORN)
    ensures ParseMnemonic("S") == Some(S) && ParseMnemonic("R") == Some(R)
    ensures ParseMnemonic("R_TRIG") == Some(R_TRIG) && ParseMnemonic("F_TRIG") == Some(F_TRIG)
  {
  }

  lemma MnemonicWord(u: string)
    ensures ParseMnemonic(u) == Some(LD) ==> u == "LD"
    ensures ParseMnemonic(u) == Some(LDN) ==> u == "LDN"
    ensures ParseMnemonic(u) == Some(ST) ==> u == "ST"
    ensures ParseMnemonic(u) == Some(AND) ==> u == "AND"
    ensures ParseMnemonic(u) == Some(ANDN) ==> u == "ANDN"
    ensures ParseMnemonic(u) == Some(OR) ==> u == "OR"
    ensures ParseMnemonic(u) == Some(ORN) ==> u == "ORN"
    ensures ParseMnemonic(u) == Some(S) ==> u == "S"
    ensures ParseMnemonic(u) == Some(R) ==> u == "R"
    ensures ParseMnemonic(u) == Some(R_TRIG) ==> u == "R_TRIG"
    ensures ParseMnemonic(u) == Some(F_TRIG) ==> u == "F_TRIG"
  {
  }

  lemma SpellingIsMnemonic(s: IlStmt)
    requires Printed(s)
    ensures ParseMnemonic(Upper(Spelling(s))) == PrintedAs(s) && TakesOperand(PrintedAs(s).value)
    ensures StatementOf(PrintedAs(s).value, Operand(s)) == s
    ensures Spelling(s) != "" && SpaceFree(Spelling(s)) && !IsLabel(Spelling(s)) && '(' !in Spelling(s)
  {
    hide ParseMnemonic; hide Upper; hide StatementOf; hide Operand;
    MnemonicTable();
    UpperSpelling(s);
    StatementAgain(s);
  }

  lemma UpperSpelling(s: IlStmt)
    requires Printed(s)
    ensures Upper(Spelling(s)) == Spelling(s)
  {
  }

  lemma StatementAgain(s: IlStmt)
    requires Printed(s)
    ensures StatementOf(PrintedAs(s).value, Operand(s)) == s
  {
  }

  /** Only a word as long as the spelling reads as the mnemonic. */
  lemma MnemonicLength(s: IlStmt, w: string)
    requires Printed(s) && ParseMnemonic(Upper(w)) == PrintedAs(s)
    ensures |w| == |Spelling(s)|
  {
    hide ParseMnemonic;
    MnemonicWord(Upper(w));
    assert |Upper(w)| == |w|;
  }

  lemma {:induction false} TrimTight(s: string)
    requires s != "" && !IsSpace(s[0]) && !IsSpace(s[|s| - 1])
    ensures Trim(s) == s
  {
    assert s[0..] == s;
  }

  lemma {:induction false} UncommentedPlain(s: string)
    requires CommentFree(s)
    ensures Uncommented(s, false) == s
  {
    if s != "" {
      assert s[0..] == s;
      forall i | 0 <= i < |s[1..]|
        ensures !Opens(s[1..][i..])
      {
        assert s[1..][i..] == s[i + 1..];
      }
      UncommentedPlain(s[1..]);
    }
  }

  /** A comment takes at least its opening with it. */
  lemma {:induction false} UncommentedShrinks(s: string, inside: bool)
    ensures |Uncommented(s, inside)| <= |s|
    ensures !inside && !CommentFree(s) ==> |Uncommented(s, inside)| <= |s| - 2
    decreases |s|
  {
    if s == "" {
    } else if Opens(s) {
      UncommentedShrinks(s[2..], true);
    } else if inside && Closes(s) {
      UncommentedShrinks(s[2..], false);
    } else {
      UncommentedShrinks(s[1..], inside);
      if !inside && !CommentFree(s) {
        var i :| 0 <= i < |s| && Opens(s[i..]);
        assert s[0..] == s;
        assert s[1..][i - 1..] == s[i..];
      }
    }
  }

  lemma SpanAt(s: string, stop: char -> bool, n: nat)
    requires n <= |s| && (n < |s| ==> stop(s[n]))
    requires forall i :: 0 <= i < n ==> !stop(s[i])
    ensures Span(s, stop) == n
  {
  }

  lemma OneWord(w: string)
    requires w != "" && SpaceFree(w)
    ensures Words(w) == [w]
  {
    SpanAt(w, IsSpace, |w|);
    assert w[..|w|] == w && w[|w|..] == "";
  }

  lemma TwoWords(a: string, b: string)
    requires a != "" && b != "" && SpaceFree(a) && SpaceFree(b)
    ensures Words(a + " " + b) == [a, b]
  {
    var s := a + " " + b;
    SpanAt(s, IsSpace, |a|);
    assert s[..|a|] == a && s[|a|..] == " " + b;
    assert (" " + b)[1..] == b;
    OneWord(b);
  }

  lemma {:induction false} WordsFit(s: string)
    ensures TotalLength(Words(s)) <= |s|
    decreases |s|
  {
    if s == "" {
    } else if IsSpace(s[0]) {
      WordsFit(s[1..]);
    } else {
      WordsFit(s[Span(s, IsSpace)..]);
    }
  }

  lemma GoodLine(a: string, v: string)
    requires a != "" && SpaceFree(a) && '(' !in a && GoodName(v)
    ensures Trim(a + " " + v) == a + " " + v && !Opens(a + " " + v)
    ensures Words(Uncommented(a + " " + v, false)) == [a, v]
  {
    hide Words; hide Uncommented; hide Trim; hide Opens; hide SpaceFree; hide CommentFree;
    var s := a + " " + v;
    TightLine(a, v);
    NothingOpens(a, v);
    UncommentedPlain(s);
    TwoWords(a, v);
  }

  lemma TightLine(a: string, v: string)
    requires a != "" && v != "" && SpaceFree(a) && SpaceFree(v)
    ensures Trim(a + " " + v) == a + " " + v
  {
    hide Trim;
    var s := a + " " + v;
    assert s[0] == a[0] && s[|s| - 1] == v[|v| - 1];
    TrimTight(s);
  }

  lemma NothingOpens(a: string, v: string)
    requires a != "" && '(' !in a && CommentFree(v)
    ensures var s := a + " " + v; !Opens(s) && forall i :: 0 <= i < |s| ==> !Opens(s[i..])
  {
    var s := a + " " + v;
    forall i | 0 <= i < |s|
      ensures !Opens(s[i..])
    {
      if i < |a| {
        assert s[i..][0] == a[i];
      } else if i == |a| {
        assert s[i..][0] == ' ';
      } else {
        assert s[i..] == v[i - |a| - 1..];
      }
    }
    assert s[0..] == s;
  }

  /** A printed line reads back as its mnemonic and its name exactly when the name is good. */
  lemma LineReadsBack(s: IlStmt)
    requires Printed(s)
    ensures LineTokens(LineOf(s)) == [Op(PrintedAs(s).value), Ident(Operand(s))] <==> GoodName(Operand(s))
  {
    hide ParseMnemonic; hide Words; hide Uncommented; hide Trim; hide Upper; hide Spelling; hide PrintedAs;
    hide PartTokens;
    SpellingIsMnemonic(s);
    var a, v := Spelling(s), Operand(s);
    if GoodName(v) {
      GoodLine(a, v);
    } else if LineTokens(LineOf(s)) == [Op(PrintedAs(s).value), Ident(v)] {
      NotReadBack(s);
    }
  }

  lemma NotReadBack(s: IlStmt)
    requires Printed(s) && LineTokens(LineOf(s)) == [Op(PrintedAs(s).value), Ident(Operand(s))]
    ensures GoodName(Operand(s))
  {
    hide ParseMnemonic; hide Words; hide Uncommented; hide Trim; hide Upper; hide Spelling; hide PrintedAs;
    hide PartTokens;
    SpellingIsMnemonic(s);
    var a, v := Spelling(s), Operand(s);
    var parts := Words(Uncommented(Trim(LineOf(s)), false));
    SecondWord(parts, PrintedAs(s).value, v);
    TrimTight(a + " " + v);
    assert parts[0] in parts;
    MnemonicLength(s, parts[0]);
    WordsFit(Uncommented(a + " " + v, false));
    UncommentedShrinks(a + " " + v, false);
    TwoFirst(parts);
    var l := a + " " + v;
    assert CommentFree(l);
    forall i | 0 <= i < |v|
      ensures !Opens(v[i..])
    {
      assert l[|a| + 1 + i..] == v[i..];
    }
  }

  lemma LabelFirst(parts: seq<string>)
    requires parts != [] && IsLabel(parts[0])
    ensures WordTokens(parts) != [] && WordTokens(parts)[0].LabelDef?
  {
    hide ParseMnemonic;
  }

  lemma SecondWord(parts: seq<string>, m: Mnemonic, v: string)
    requires WordTokens(parts) == [Op(m), Ident(v)]
    ensures |parts| >= 2 && parts[1] == v && ParseMnemonic(Upper(parts[0])) == Some(m)
    ensures parts[0] in parts && parts[1] in parts
  {
    hide ParseMnemonic; hide Upper; hide PartTokens;
    if IsLabel(parts[0]) {
      LabelFirst(parts);
      assert false;
    } else {
      assert WordTokens(parts)[0] == Op(m);
      assert |WordTokens(parts)| == 2 && WordTokens(parts)[1] == Ident(v);
    }
  }

  lemma TwoFirst(parts: seq<string>)
    requires |parts| >= 2
    ensures |parts[0]| + |parts[1]| <= TotalLength(parts)
  {
    assert TotalLength(parts) == |parts[0]| + TotalLength(parts[1..]);
  }

  // ----- all lines -----

  predicate TextLine(l: string) {
    l != "" && '\n' !in l && l[|l| - 1] != '\r'
  }

  lemma {:induction false} LinesOfJoin(ls: seq<string>)
    requires forall l :: l in ls ==> TextLine(l)
    ensures Lines(Join(ls)) == ls
  {
    hide Lines; hide Span;
    if |ls| == 0 {
      LinesOfNothing();
    } else {
      assert TextLine(ls[0]);
      if |ls| == 1 {
        LinesStep(ls[0], "");
      } else {
        LinesOfJoin(ls[1..]);
        LinesStep(ls[0], Join(ls[1..]));
        assert Join(ls) == ls[0] + "\n" + Join(ls[1..]);
      }
    }
  }

  lemma LinesOfNothing()
    ensures Lines("") == []
  {
  }

  lemma LinesStep(l: string, rest: string)
    requires TextLine(l)
    ensures Lines(l) == [l]
    ensures Lines(l + "\n" + rest) == [l] + Lines(rest)
  {
    SpanAt(l, IsNewline, |l|);
    var s := l + "\n" + rest;
    assert forall i :: 0 <= i < |l| ==> s[i] == l[i] && l[i] in l;
    SpanAt(s, IsNewline, |l|);
    assert s[..|l|] == l && s[|l| + 1..] == rest;
  }

  lemma LineIsText(s: IlStmt)
    requires Printed(s) && GoodName(Operand(s))
    ensures TextLine(LineOf(s))
  {
    hide Spelling; hide PrintedAs; hide ParseMnemonic;
    SpellingIsMnemonic(s);
    var l := LineOf(s);
    assert l[|l| - 1] == Operand(s)[|Operand(s)| - 1];
    assert IsSpace('\n') && IsSpace('\r');
    assert '\n' !in Spelling(s) && '\n' !in Operand(s) && '\n' !in " ";
  }

  lemma {:induction false} TokensReadBack(ss: seq<IlStmt>, ls: seq<string>)
    requires |ls| == |ss|
    requires forall i :: 0 <= i < |ss| ==> Printed(ss[i]) && GoodName(Operand(ss[i])) && ls[i] == LineOf(ss[i])
    ensures ParseTokens(TokensOf(ls)) == ss
  {
    hide LineTokens; hide LineOf; hide Spelling; hide PrintedAs; hide ParseMnemonic; hide GoodName; hide StatementOf;
    hide Operand;
    if ss != [] {
      var s := ss[0];
      LineReadsBack(s);
      SpellingIsMnemonic(s);
      TokensReadBack(ss[1..], ls[1..]);
      var line, rest := [Op(PrintedAs(s).value), Ident(Operand(s))], TokensOf(ls[1..]);
      assert TokensOf(ls) == line + rest;
      assert (line + rest)[2..] == rest;
    }
  }

  /** Printing statements and reading the text gives the statements back, in order. */
  lemma PrintedTextReadsBack(ss: seq<IlStmt>)
    requires forall s :: s in ss ==> Printed(s) && GoodName(Operand(s))
    ensures Statements(Join(LinesOf(ss))) == ss
  {
    hide GoodName; hide Printed; hide LineOf; hide TextLine;
    var ls := LinesOf(ss);
    forall l | l in ls
      ensures TextLine(l)
    {
      var i :| 0 <= i < |ls| && ls[i] == l;
      LineIsText(ss[i]);
    }
    LinesOfJoin(ls);
    TokensReadBack(ss, ls);
  }

  predicate GoodNet(net: seq<LdElement>) { forall e :: e in net ==> GoodName(e.v) }

  predicate GoodNames(nets: seq<seq<LdElement>>) {
    forall net :: net in nets ==> GoodNet(net)
  }

  lemma {:induction false} NetNames(net: seq<LdElement>)
    requires GoodNet(net)
    ensures forall s :: s in NetStmts(net) ==> Printed(s) && GoodName(Operand(s))
  {
    hide GoodName;
    if net != [] {
      NetNames(net[..|net| - 1]);
      assert net[|net| - 1] in net;
    }
  }

  lemma {:induction false} IlNames(nets: seq<seq<LdElement>>)
    requires GoodNames(nets)
    ensures forall s :: s in IlOf(nets) ==> Printed(s) && GoodName(Operand(s))
  {
    hide GoodName; hide NetStmts; hide Printed;
    if nets != [] {
      IlNames(nets[..|nets| - 1]);
      assert nets[|nets| - 1] in nets;
      NetNames(nets[|nets| - 1]);
    }
  }

  /** Every list of networks: the text printed for it reads back as exactly the
      statements intended for its elements, one for each line. */
  lemma LadderTextReadsBack(nets: seq<seq<LdElement>>)
    requires GoodNames(nets)
    ensures forall s :: s in IlOf(nets) ==> Printed(s)
    ensures Statements(Join(LinesOf(IlOf(nets)))) == IlOf(nets)
  {
    hide GoodName; hide GoodNames; hide Printed; hide IlOf;
    IlNames(nets);
    PrintedTextReadsBack(IlOf(nets));
  }

  /** The pipeline from ladder elements to statements through the text. */
  method ReadLadder(nets: seq<seq<LdElement>>) returns (stmts: seq<IlStmt>)
    ensures GoodNames(nets) ==> stmts == IlOf(nets)
  {
    hide Statements;
    var text := GenerateIl(nets);
    var tokens := Tokenize(text);
    stmts := Parse(tokens);
    if GoodNames(nets) {
      LadderTextReadsBack(nets);
      StatementsAre(text);
    }
  }

  lemma StatementsAre(text: string)
    ensures Statements(text) == ParseTokens(TokensOf(Lines(text)))
  {
  }
}
