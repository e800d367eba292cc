/** The words of ladder text: which element each one stands for, and which statements an element
    adds to its network. */
module LadderWords {
  import opened HalValues
  import opened IlLang
  import opened IlText
  import opened LadderIl
  import opened TextRoundTrip

  lemma {:induction false} NetAppends(front: seq<LdElement>, e: LdElement)
    ensures NetStmts(front + [e]) ==
            NetStmts(front) + ElementStmts(e, IsFirst(front, |front|))
  {
    var net := front + [e];
    assert net[..|front|] == front;
    assert IsFirst(net, |front|) <==> IsFirst(front, |front|);
  }

  /** What each element adds to the statements of its network: a contact loads when none stands
      before it and is joined by AND otherwise, one behind a bar is joined by OR. */
  lemma ElementsSpelled(front: seq<LdElement>, v: string)
    ensures var loads := forall e :: e in front ==> e.ParallelContact? || e.Coil?;
            var stmts := e => NetStmts(front + [e]);
            var before := NetStmts(front);
            && stmts(Contact(true, v)) == before + [if loads then Load(v) else And(v)]
            && stmts(Contact(false, v)) == before + [if loads then LoadNot(v) else AndNot(v)]
            && stmts(ParallelContact(true, v)) == before + [Or(v)]
            && stmts(ParallelContact(false, v)) == before + [OrNot(v)]
            && stmts(EdgeContact(true, v)) == before + [if loads then Load(v) else And(v), RTrig(v)]
            && stmts(EdgeContact(false, v)) == before + [if loads then Load(v) else And(v), FTrig(v)]
            && stmts(Coil(OutCoil, v)) == before + [Store(v)]
            && stmts(Coil(SetCoil, v)) == before + [Set(v)]
            && stmts(Coil(ResetCoil, v)) == before + [Reset(v)]
  {
    NothingLoaded(front);
    NetAppends(front, Contact(true, v));
    NetAppends(front, Contact(false, v));
    NetAppends(front, ParallelContact(true, v));
    NetAppends(front, ParallelContact(false, v));
    NetAppends(front, EdgeContact(true, v));
    NetAppends(front, EdgeContact(false, v));
    NetAppends(front, Coil(OutCoil, v));
    NetAppends(front, Coil(SetCoil, v));
    NetAppends(front, Coil(ResetCoil, v));
    hide NetStmts; hide IsFirst;
  }

  lemma NothingLoaded(front: seq<LdElement>)
    ensures IsFirst(front, |front|) <==> forall e :: e in front ==> e.ParallelContact? || e.Coil?
  {
    if !IsFirst(front, |front|) {
      var j :| 0 <= j < |front| && StartsRung(front[j]);
      assert front[j] in front;
    }
  }

  /** The words of a ladder line, and the kinds behind a bar. */
  lemma LadderSpelled(v: string)
    requires v != "" && SpaceFree(v)
    ensures ElementsOf(No(v)) == [Contact(true, v)]
    ensures ElementsOf(Nc(v)) == [Contact(false, v)]
    ensures ElementsOf(P(v)) == ElementsOf(Parallel("P " + v)) ==
            [EdgeContact(true, v)]
    ensures ElementsOf(N(v)) == ElementsOf(Parallel("N " + v)) ==
            [EdgeContact(false, v)]
    ensures ElementsOf(Parallel("NO " + v)) == [ParallelContact(true, v)]
    ensures ElementsOf(Parallel("NC " + v)) == [ParallelContact(false, v)]
    ensures ElementsOf(OutTok(v)) == [Coil(OutCoil, v)]
    ensures ElementsOf(SetTok(v)) == [Coil(SetCoil, v)]
    ensures ElementsOf(ResetTok(v)) == [Coil(ResetCoil, v)]
  {
    Branch("NO ", "NO", v);
    Branch("NC ", "NC", v);
    Branch("P ", "P", v);
    Branch("N ", "N", v);
    hide Words; hide BranchElement;
  }

  lemma Branch(kind: string, word: string, v: string)
    requires kind == word + " " && word in {"NO", "NC", "P", "N"} && v != "" && SpaceFree(v)
    ensures ElementsOf(Parallel(kind + v)) ==
            if word == "NO" then [ParallelContact(true, v)] else if word == "NC" then [ParallelContact(false, v)]
            else [EdgeContact(word == "P", v)]
  {
    assert SpaceFree(word) && word != "";
    hide Words;
    TwoWords(word, v);
    assert kind + v == word + " " + v;
  }
}
