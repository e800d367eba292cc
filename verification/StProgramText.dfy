/** Whole printed programs: which of them the parser reads back. */
module StProgramText {
  import opened StAst
  import opened StGrammar
  import opened StPrint
  import opened StRoundTrip

  function PrintDecl(d: VarDecl): seq<Token> {
    [Identifier(d.name)] + ([Sym(SColon)] + ([TypeName(d.varType)] + [Sym(SSemicolon)]))
  }

  function PrintDecls(ds: seq<VarDecl>): seq<Token> {
    if ds == [] then [] else PrintDecl(ds[0]) + PrintDecls(ds[1..])
  }

  function PrintVars(ds: seq<VarDecl>): seq<Token> {
    if ds == [] then [] else [Kw(KwVar)] + (PrintDecls(ds) + [Kw(KwEndVar)])
  }

  /** A parameter block, left out when it is empty. */
  function PrintParams(start: Keyword, ds: seq<VarDecl>): seq<Token> {
    if ds == [] then [] else [Kw(start)] + (PrintDecls(ds) + ([Kw(KwEndVar)] + [Sym(SSemicolon)]))
  }

  function PrintBlocks(f: FunctionDef): seq<Token> {
    PrintParams(KwVarInput, f.inputs) +
    (PrintParams(KwVarOutput, f.outputs) + (PrintParams(KwVarInOut, f.inouts) + PrintVars(f.variables)))
  }

  function PrintFunction(f: FunctionDef): seq<Token> {
    [Kw(KwFunction)] + ([Identifier(f.name)] + ([Sym(SColon)] + ([TypeName(f.returnType)] + ([Sym(SSemicolon)] +
    (PrintBlocks(f) + (PrintSeq(f.body) + SemicolonAfter(KwEndFunction)))))))
  }

  function PrintFunctions(fs: seq<FunctionDef>): seq<Token> {
    if fs == [] then [] else PrintFunction(fs[0]) + PrintFunctions(fs[1..])
  }

  /** The functions stand behind the body. */
  function PrintProgram(p: Program): seq<Token> {
    [Kw(KwProgram)] + ([Identifier(p.name)] + (PrintVars(p.variables) +
    (PrintSeq(p.body) + (PrintFunctions(p.functions) + [Kw(KwEndProgram)]))))
  }

  predicate PlainDecls(ds: seq<VarDecl>) { NamesDiffer(ds) && NoArrays(ds) }

  /** Distinct names in each block, no array types, writable statements. */
  predicate PlainFunction(f: FunctionDef) {
    PlainDecls(f.inputs) && PlainDecls(f.outputs) && PlainDecls(f.inouts) && PlainDecls(f.variables) &&
    !f.returnType.TArray? && AllWritable(f.body)
  }

  predicate PlainFunctions(fs: seq<FunctionDef>) {
    fs == [] || (PlainFunction(fs[0]) && PlainFunctions(fs[1..]))
  }

  predicate WritableProgram(p: Program) {
    PlainDecls(p.variables) && AllWritable(p.body) && PlainFunctions(p.functions)
  }

  predicate FunctionNoTof(f: FunctionDef) {
    !f.returnType.TTof? && NoTof(f.inputs) && NoTof(f.outputs) && NoTof(f.inouts) && NoTof(f.variables)
  }

  predicate FunctionsNoTof(fs: seq<FunctionDef>) {
    fs == [] || (FunctionNoTof(fs[0]) && FunctionsNoTof(fs[1..]))
  }

  predicate ProgramNoTof(p: Program) { NoTof(p.variables) && FunctionsNoTof(p.functions) }

  predicate NamesDiffer(ds: seq<VarDecl>) {
    forall i, j :: 0 <= i < j < |ds| ==> ds[i].name != ds[j].name
  }

  predicate NoArrays(ds: seq<VarDecl>) { forall i :: 0 <= i < |ds| ==> !ds[i].varType.TArray? }

  predicate NoTof(ds: seq<VarDecl>) { forall i :: 0 <= i < |ds| ==> !ds[i].varType.TTof? }

  lemma DeclReads(ts: seq<Token>, p: nat, d: VarDecl, rest: seq<Token>)
    requires At(ts, p, PrintDecl(d) + rest) && !d.varType.TArray?
    ensures DeclAt(ts, p) == if d.varType.TTof? then Bad(UnexpectedToken(TypeName(TTof))) else Good(d, p + 4)
    ensures At(ts, p + 4, rest)
  {
    hide At;
    var t, e := TypeName(d.varType), Sym(SSemicolon);
    assert PrintDecl(d) + rest == [Identifier(d.name)] + ([Sym(SColon)] + ([t] + ([e] + rest)));
    TokenThen(ts, p, Identifier(d.name), [Sym(SColon)] + ([t] + ([e] + rest)));
    TokenThen(ts, p + 1, Sym(SColon), [t] + ([e] + rest));
    TokenThen(ts, p + 2, t, [e] + rest);
    TokenThen(ts, p + 3, e, rest);
    assert TypeAt(ts, p + 2) == if d.varType.TTof? then Bad(UnexpectedToken(t)) else Good(d.varType, p + 3);
  }

  lemma {:induction false} DeclsRead(ts: seq<Token>, p: nat, ds: seq<VarDecl>, rest: seq<Token>, front: seq<VarDecl>)
    requires At(ts, p, PrintDecls(ds) + rest) && rest != [] && rest[0] == Kw(KwEndVar)
    requires NamesDiffer(front + ds) && NoArrays(ds)
    ensures NoTof(ds) ==> DeclsAt(ts, p, front) == Good(front + ds, p + |PrintDecls(ds)|)
    ensures NoTof(ds) ==> At(ts, p + |PrintDecls(ds)|, rest)
    ensures !NoTof(ds) ==> DeclsAt(ts, p, front).Bad?
    decreases ds
  {
    hide At; hide DeclAt; hide TypeAt;
    if ds == [] {
      assert [] + rest == rest;
      AtFirst(ts, p, rest);
      assert front + [] == front;
    } else {
      var d, more := ds[0], PrintDecls(ds[1..]);
      assert PrintDecls(ds) + rest == PrintDecl(d) + (more + rest);
      DeclReads(ts, p, d, more + rest);
      assert PrintDecl(d)[0] == Identifier(d.name);
      AtSplit(ts, p, PrintDecl(d), more + rest);
      AtFirst(ts, p, PrintDecl(d));
      assert (front + ds)[|front|] == d;
      assert !Declares(front, d.name) by {
        assert forall i :: 0 <= i < |front| ==> (front + ds)[i] == front[i];
      }
      if !d.varType.TTof? {
        assert front + [d] + ds[1..] == front + ds;
        DeclsRead(ts, p + 4, ds[1..], rest, front + [d]);
        assert NoTof(ds) <==> NoTof(ds[1..]);
      }
    }
  }

  /** Statements of the body, one after another, into the items. */
  lemma {:induction false} BodyReads(ts: seq<Token>, p: nat, ss: seq<Stmt>, rest: seq<Token>, front: Items)
    requires AllWritable(ss) && At(ts, p, PrintSeq(ss) + rest)
    ensures ItemsAt(ts, p, front) == ItemsAt(ts, p + |PrintSeq(ss)|, front.(body := front.body + ss))
    ensures At(ts, p + |PrintSeq(ss)|, rest)
    decreases ss
  {
    hide At; hide PrintStmt; hide Writable; hide StatementAt; hide FunctionAt;
    if ss == [] {
      assert [] + rest == rest;
      assert front.body + [] == front.body;
    } else {
      var s, more := ss[0], PrintSeq(ss[1..]);
      assert PrintSeq(ss) + rest == PrintStmt(s) + (more + rest);
      AtSplit(ts, p, PrintStmt(s), more + rest);
      FirstToken(s);
      AtFirst(ts, p, PrintStmt(s));
      StmtReads(ts, p, s);
      BodyReads(ts, p + |PrintStmt(s)|, ss[1..], rest, front.(body := front.body + [s]));
      assert front.body + [s] + ss[1..] == front.body + ss;
    }
  }

  /** A parameter block of a function, or none. */
  lemma ParamsRead(ts: seq<Token>, p: nat, start: Keyword, ds: seq<VarDecl>, rest: seq<Token>)
    requires ds != [] && PlainDecls(ds) && At(ts, p, PrintParams(start, ds) + rest)
    ensures Starts(ts, p, Kw(start))
    ensures NoTof(ds) ==> ParamBlockAt(ts, p, start) == Good(ds, p + |PrintParams(start, ds)|)
    ensures NoTof(ds) ==> At(ts, p + |PrintParams(start, ds)|, rest)
    ensures !NoTof(ds) ==> ParamBlockAt(ts, p, start).Bad?
  {
    hide At; hide DeclsAt; hide PrintDecls; hide NoTof; hide NamesDiffer; hide NoArrays;
    var close := [Kw(KwEndVar)] + ([Sym(SSemicolon)] + rest);
    assert PrintParams(start, ds) + rest == [Kw(start)] + (PrintDecls(ds) + close);
    TokenThen(ts, p, Kw(start), PrintDecls(ds) + close);
    assert [] + ds == ds;
    DeclsRead(ts, p + 1, ds, close, []);
    if NoTof(ds) {
      var q := p + 1 + |PrintDecls(ds)|;
      TokenThen(ts, q, Kw(KwEndVar), [Sym(SSemicolon)] + rest);
      TokenThen(ts, q + 1, Sym(SSemicolon), rest);
    }
  }

  /** What may follow the blocks: neither another block nor a semicolon. */
  predicate EndsBlocks(t: Token) {
    t != Kw(KwVarInput) && t != Kw(KwVarOutput) && t != Kw(KwVarInOut) && t != Kw(KwVar) && t != Sym(SSemicolon)
  }

  datatype Step = Step(start: Keyword, ds: seq<VarDecl>)

  function SetBlock(b: Blocks, s: Step): Blocks {
    if s.ds == [] then b
    else if s.start == KwVarInput then b.(inputs := s.ds)
    else if s.start == KwVarOutput then b.(outputs := s.ds)
    else b.(inouts := s.ds)
  }

  lemma ParamsStep(ts: seq<Token>, p: nat, s: Step, rest: seq<Token>, b: Blocks)
    requires s.start == KwVarInput || s.start == KwVarOutput || s.start == KwVarInOut
    requires PlainDecls(s.ds) && At(ts, p, PrintParams(s.start, s.ds) + rest)
    ensures var q := p + |PrintParams(s.start, s.ds)|;
            if NoTof(s.ds) then BlocksAt(ts, p, b) == BlocksAt(ts, q, SetBlock(b, s)) && At(ts, q, rest)
            else BlocksAt(ts, p, b).Bad?
  {
    hide At; hide ParamBlockAt; hide PlainDecls; hide NoTof; hide PrintParams;
    if s.ds == [] {
      NothingToRead(s.start);
      assert [] + rest == rest;
    } else {
      ParamsRead(ts, p, s.start, s.ds, rest);
    }
  }

  lemma NothingToRead(start: Keyword)
    ensures PrintParams(start, []) == [] && NoTof([]) && PrintVars([]) == []
  {
  }

  /** The last block and the end of the blocks. */
  lemma VarsStep(ts: seq<Token>, p: nat, ds: seq<VarDecl>, rest: seq<Token>, b: Blocks)
    requires PlainDecls(ds) && At(ts, p, PrintVars(ds) + rest) && rest != [] && EndsBlocks(rest[0])
    ensures var q := p + |PrintVars(ds)|;
            if NoTof(ds) then BlocksAt(ts, p, b) == Good(if ds == [] then b else b.(variables := ds), q) &&
              At(ts, q, rest)
            else BlocksAt(ts, p, b).Bad?
  {
    hide At; hide VarBlockAt; hide NamesDiffer; hide NoArrays; hide NoTof; hide PrintVars;
    if ds == [] {
      NothingToRead(KwVarInput);
      assert [] + rest == rest;
      AtFirst(ts, p, rest);
    } else {
      VarsRead(ts, p, ds, rest);
      if NoTof(ds) { AtFirst(ts, p + |PrintVars(ds)|, rest); }
    }
  }

  lemma BlocksRead(ts: seq<Token>, p: nat, f: FunctionDef, rest: seq<Token>)
    requires PlainFunction(f) && At(ts, p, PrintBlocks(f) + rest) && rest != [] && EndsBlocks(rest[0])
    ensures var q := p + |PrintBlocks(f)|;
            var all := NoTof(f.inputs) && NoTof(f.outputs) && NoTof(f.inouts) && NoTof(f.variables);
            if all then
              BlocksAt(ts, p, Blocks([], [], [], [])) == Good(Blocks(f.inputs, f.outputs, f.inouts, f.variables), q) &&
                At(ts, q, rest)
            else BlocksAt(ts, p, Blocks([], [], [], [])).Bad?
  {
    hide At; hide BlocksAt; hide PrintParams; hide PrintVars; hide PlainDecls; hide NoTof; hide EndsBlocks;
    hide AllWritable;
    var a, b, c, d := PrintParams(KwVarInput, f.inputs), PrintParams(KwVarOutput, f.outputs),
                      PrintParams(KwVarInOut, f.inouts), PrintVars(f.variables);
    assert PrintBlocks(f) + rest == a + (b + (c + (d + rest)));
    var b0 := Blocks([], [], [], []);
    ParamsStep(ts, p, Step(KwVarInput, f.inputs), b + (c + (d + rest)), b0);
    if NoTof(f.inputs) {
      var b1 := SetBlock(b0, Step(KwVarInput, f.inputs));
      ParamsStep(ts, p + |a|, Step(KwVarOutput, f.outputs), c + (d + rest), b1);
      if NoTof(f.outputs) {
        var b2 := SetBlock(b1, Step(KwVarOutput, f.outputs));
        ParamsStep(ts, p + |a| + |b|, Step(KwVarInOut, f.inouts), d + rest, b2);
        if NoTof(f.inouts) {
          VarsStep(ts, p + |a| + |b| + |c|, f.variables, rest, SetBlock(b2, Step(KwVarInOut, f.inouts)));
        }
      }
    }
  }

  lemma FunctionBodyOpens(body: seq<Stmt>)
    ensures var rest := PrintSeq(body) + SemicolonAfter(KwEndFunction);
            rest != [] && EndsBlocks(rest[0])
  {
    hide PrintStmt;
    if body != [] { FirstToken(body[0]); }
  }

  lemma TypeReads(ts: seq<Token>, p: nat, t: VarType)
    requires p < |ts| && ts[p] == TypeName(t) && !t.TArray? && !Starts(ts, p + 1, Sym(SLParen))
    ensures TypeAt(ts, p) == if t.TTof? then Bad(UnexpectedToken(TypeName(t))) else Good(t, p + 1)
  {
  }

  lemma FunctionFound(ts: seq<Token>, p: nat, f: FunctionDef, b: nat, m: nat)
    requires p + 4 < b + 1 <= m + 1 && m + 1 < |ts|
    requires ts[p] == Kw(KwFunction) && ts[p + 1] == Identifier(f.name) && ts[p + 2] == Sym(SColon)
    requires TypeAt(ts, p + 3) == Good(f.returnType, p + 4) && ts[p + 4] == Sym(SSemicolon)
    requires BlocksAt(ts, p + 5, Blocks([], [], [], [])) == Good(Blocks(f.inputs, f.outputs, f.inouts, f.variables), b)
    requires StatementsAt(ts, b, StopAt(KwEndFunction), []) == Good(f.body, m)
    requires ts[m] == Kw(KwEndFunction) && ts[m + 1] == Sym(SSemicolon)
    ensures FunctionAt(ts, p) == Good(f, m + 2)
  {
    hide TypeAt; hide BlocksAt; hide StatementsAt;
  }

  lemma FunctionRefused(ts: seq<Token>, p: nat, name: string)
    requires p + 4 < |ts|
    requires ts[p] == Kw(KwFunction) && ts[p + 1] == Identifier(name) && ts[p + 2] == Sym(SColon)
    requires TypeAt(ts, p + 3).Bad? || (TypeAt(ts, p + 3).Good? && TypeAt(ts, p + 3).next == p + 4 &&
                                        ts[p + 4] == Sym(SSemicolon) &&
                                          BlocksAt(ts, p + 5, Blocks([], [], [], [])).Bad?)
    ensures FunctionAt(ts, p).Bad?
  {
    hide TypeAt; hide BlocksAt; hide StatementsAt;
  }

  lemma EndFunctionStops(ts: seq<Token>, p: nat)
    requires p < |ts| && ts[p] == Kw(KwEndFunction)
    ensures Stopped(ts, p, StopAt(KwEndFunction)) && EndsLists(StopAt(KwEndFunction))
  {
  }

  lemma PlainFunctionParts(f: FunctionDef)
    requires PlainFunction(f)
    ensures !f.returnType.TArray? && AllWritable(f.body)
    ensures FunctionNoTof(f) <==>
            !f.returnType.TTof? && NoTof(f.inputs) && NoTof(f.outputs) && NoTof(f.inouts) && NoTof(f.variables)
    ensures PrintFunction(f) ==
            [Kw(KwFunction)] + ([Identifier(f.name)] + ([Sym(SColon)] + ([TypeName(f.returnType)] + ([Sym(SSemicolon)] +
            (PrintBlocks(f) + (PrintSeq(f.body) + SemicolonAfter(KwEndFunction)))))))
  {
    hide AllWritable; hide PlainDecls; hide NoTof; hide PrintBlocks; hide PrintSeq; hide SemicolonAfter;
  }

  lemma FunctionReads(ts: seq<Token>, p: nat, f: FunctionDef, more: seq<Token>)
    requires PlainFunction(f) && At(ts, p, PrintFunction(f) + more)
    ensures Starts(ts, p, Kw(KwFunction))
    ensures FunctionNoTof(f) ==> FunctionAt(ts, p) == Good(f, p + |PrintFunction(f)|)
    ensures FunctionNoTof(f) ==> At(ts, p + |PrintFunction(f)|, more)
    ensures !FunctionNoTof(f) ==> FunctionAt(ts, p).Bad?
  {
    hide At; hide PlainFunction; hide PrintFunction; hide PrintBlocks; hide PrintSeq; hide SemicolonAfter;
    hide FunctionNoTof;
    hide TypeAt; hide BlocksAt; hide StatementsAt; hide FunctionAt; hide NoTof; hide AllWritable; hide EndsBlocks;
    hide Stopped;
    hide EndsLists;
    PlainFunctionParts(f);
    AtSplit(ts, p, PrintFunction(f), more);
    var close := SemicolonAfter(KwEndFunction);
    CloseOpens(KwEndFunction);
    var tail := PrintSeq(f.body) + close;
    var code := PrintBlocks(f) + tail;
    var t, semi := TypeName(f.returnType), Sym(SSemicolon);
    TokenThen(ts, p, Kw(KwFunction), [Identifier(f.name)] + ([Sym(SColon)] + ([t] + ([semi] + code))));
    TokenThen(ts, p + 1, Identifier(f.name), [Sym(SColon)] + ([t] + ([semi] + code)));
    TokenThen(ts, p + 2, Sym(SColon), [t] + ([semi] + code));
    TokenThen(ts, p + 3, t, [semi] + code);
    TokenThen(ts, p + 4, semi, code);
    TypeReads(ts, p + 3, f.returnType);
    FunctionBodyOpens(f.body);
    BlocksRead(ts, p + 5, f, tail);
    if FunctionNoTof(f) {
      var b := p + 5 + |PrintBlocks(f)|;
      AtSplit(ts, b, PrintSeq(f.body), close);
      var m := b + |PrintSeq(f.body)|;
      CloseReads(ts, m, KwEndFunction);
      EndFunctionStops(ts, m);
      SeqReads(ts, b, f.body, close, StopAt(KwEndFunction), []);
      assert [] + f.body == f.body;
      FunctionFound(ts, p, f, b, m);
    } else {
      FunctionRefused(ts, p, f.name);
    }
  }

  lemma {:induction false} FunctionsRead(ts: seq<Token>, p: nat, fs: seq<FunctionDef>, front: Items)
    requires PlainFunctions(fs) && At(ts, p, PrintFunctions(fs) + [Kw(KwEndProgram)])
    ensures var q := p + |PrintFunctions(fs)|;
            if FunctionsNoTof(fs) then
              ItemsAt(ts, p, front) == Good(front.(functions := front.functions + fs), q) &&
                At(ts, q, [Kw(KwEndProgram)])
            else ItemsAt(ts, p, front).Bad?
    decreases fs
  {
    hide At; hide PlainFunction; hide PrintFunction; hide FunctionNoTof; hide FunctionAt; hide StatementAt;
    var rest := [Kw(KwEndProgram)];
    if fs == [] {
      assert [] + rest == rest;
      AtFirst(ts, p, rest);
      assert front.functions + [] == front.functions;
    } else {
      var f, more := fs[0], PrintFunctions(fs[1..]);
      assert PrintFunctions(fs) + rest == PrintFunction(f) + (more + rest);
      FunctionReads(ts, p, f, more + rest);
      if FunctionNoTof(f) {
        FunctionsRead(ts, p + |PrintFunction(f)|, fs[1..], front.(functions := front.functions + [f]));
        assert front.functions + [f] + fs[1..] == front.functions + fs;
      }
    }
  }

  lemma VarsRead(ts: seq<Token>, p: nat, ds: seq<VarDecl>, rest: seq<Token>)
    requires ds != [] && At(ts, p, PrintVars(ds) + rest) && NamesDiffer(ds) && NoArrays(ds)
    requires rest != [] && rest[0] != Sym(SSemicolon)
    ensures Starts(ts, p, Kw(KwVar))
    ensures NoTof(ds) ==> VarBlockAt(ts, p) == Good(ds, p + |PrintVars(ds)|) && At(ts, p + |PrintVars(ds)|, rest)
    ensures !NoTof(ds) ==> VarBlockAt(ts, p).Bad?
  {
    hide At; hide DeclsAt; hide PrintDecls; hide NoTof; hide NamesDiffer; hide NoArrays;
    var close := [Kw(KwEndVar)] + rest;
    assert PrintVars(ds) + rest == [Kw(KwVar)] + (PrintDecls(ds) + close);
    TokenThen(ts, p, Kw(KwVar), PrintDecls(ds) + close);
    assert [] + ds == ds;
    DeclsRead(ts, p + 1, ds, close, []);
    if NoTof(ds) {
      var q := p + 1 + |PrintDecls(ds)|;
      TokenThen(ts, q, Kw(KwEndVar), rest);
      AtFirst(ts, q + 1, rest);
    }
  }

  lemma BodyOpens(body: seq<Stmt>, fs: seq<FunctionDef>)
    ensures var rest := PrintSeq(body) + (PrintFunctions(fs) + [Kw(KwEndProgram)]);
            rest != [] && rest[0] != Sym(SSemicolon) && rest[0] != Kw(KwVar)
  {
    hide PrintStmt; hide PrintBlocks;
    if body != [] { FirstToken(body[0]); }
  }

  lemma ProgramParts(p: Program)
    requires WritableProgram(p)
    ensures PlainDecls(p.variables) && AllWritable(p.body) && PlainFunctions(p.functions)
    ensures ProgramNoTof(p) <==> NoTof(p.variables) && FunctionsNoTof(p.functions)
  {
    hide PlainDecls; hide AllWritable; hide PlainFunctions; hide NoTof; hide FunctionsNoTof;
  }

  /** A printed program with distinct names in each declaration block is read back exactly
      when it uses no TOF timer: its type name is the one the parser does not know. */
  lemma ProgramRoundTrip(p: Program)
    requires WritableProgram(p)
    ensures ProgramAt(PrintProgram(p), 0) == Good(p, |PrintProgram(p)|) <==> ProgramNoTof(p)
  {
    hide At; hide VarBlockAt; hide ItemsAt; hide PrintVars; hide PrintSeq; hide PrintFunctions; hide NoTof;
    hide NamesDiffer;
    hide NoArrays; hide AllWritable; hide FunctionsNoTof; hide PlainFunctions; hide WritableProgram; hide ProgramNoTof;
    ProgramParts(p);
    var ts := PrintProgram(p);
    var last := PrintFunctions(p.functions) + [Kw(KwEndProgram)];
    var rest := PrintSeq(p.body) + last;
    WholeAt(ts);
    TokenThen(ts, 0, Kw(KwProgram), [Identifier(p.name)] + (PrintVars(p.variables) + rest));
    TokenThen(ts, 1, Identifier(p.name), PrintVars(p.variables) + rest);
    BodyOpens(p.body, p.functions);
    if p.variables == [] {
      NothingToRead(KwVarInput);
      assert [] + rest == rest;
      AtFirst(ts, 2, rest);
    } else {
      VarsRead(ts, 2, p.variables, rest);
    }
    if NoTof(p.variables) {
      var q := 2 + |PrintVars(p.variables)|;
      BodyReads(ts, q, p.body, last, Items([], []));
      assert [] + p.body == p.body;
      var m := q + |PrintSeq(p.body)|;
      FunctionsRead(ts, m, p.functions, Items(p.body, []));
      assert [] + p.functions == p.functions;
      if FunctionsNoTof(p.functions) {
        AtFirst(ts, m + |PrintFunctions(p.functions)|, [Kw(KwEndProgram)]);
      }
    }
  }

  lemma WholeAt(ts: seq<Token>)
    ensures At(ts, 0, ts)
  {
  }
}
