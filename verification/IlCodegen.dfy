/** The IL code generator as it runs: registers handed out on first use, jumps emitted
    with target 0 and patched from the label table at the end. */
module IlCodegen {
  import opened HalValues
  import opened IlLang
  import opened IlLayout
  import M = Machine

  /** The code before patching: every jump to 0. */
  function RawBody(ss: seq<IlStmt>, names: seq<string>): seq<M.Instruction> {
    if ss == [] then []
    else
      var s := ss[|ss| - 1];
      RawBody(ss[..|ss| - 1], names) + StmtCode(s, RegFor(names, s), Offset(ss[..|ss| - 1]), 0)
  }

  lemma {:induction false} RawSize(ss: seq<IlStmt>, names: seq<string>)
    ensures 1 + |RawBody(ss, names)| == Offset(ss)
  {
    if ss != [] {
      RawSize(ss[..|ss| - 1], names);
      var s := ss[|ss| - 1];
      SizeIs(s, RegFor(names, s), Offset(ss[..|ss| - 1]), 0);
    }
  }

  /** Where a statement's jump sits in its code. */
  function JumpOffset(s: IlStmt): nat { if s.JumpIf? || s.JumpIfNot? then 1 else 0 }

  datatype Ref = Ref(idx: nat, name: string)

  function RefsOf(ss: seq<IlStmt>): seq<Ref> {
    if ss == [] then []
    else
      var s := ss[|ss| - 1];
      var front := RefsOf(ss[..|ss| - 1]);
      if LabelOf(s).Some? then front + [Ref(Offset(ss[..|ss| - 1]) + JumpOffset(s), LabelOf(s).value)] else front
  }

  function Lookup(labels: map<string, nat>, halt: nat, name: string): nat {
    if name in labels then labels[name] else halt
  }

  /** Patching keeps the opcode and replaces the target; other instructions stay. */
  function Repair(inst: M.Instruction, t: nat): M.Instruction {
    if inst.operands == [] then inst
    else if inst.opcode.Jump? then M.JumpTo(t)
    else if inst.opcode.JumpIf? then M.JumpIfTo(t)
    else if inst.opcode.Call? then M.CallTo(t)
    else inst
  }

  function RepairAll(code: seq<M.Instruction>, refs: seq<Ref>, labels: map<string, nat>,
                     halt: nat): (r: seq<M.Instruction>)
    ensures |r| == |code|
  {
    if refs == [] then code
    else
      var before := RepairAll(code, refs[..|refs| - 1], labels, halt);
      var ref := refs[|refs| - 1];
      if ref.idx < |before| then before[ref.idx := Repair(before[ref.idx], Lookup(labels, halt, ref.name))] else before
  }

  lemma {:induction false} RefsBelow(ss: seq<IlStmt>)
    ensures forall k :: 0 <= k < |RefsOf(ss)| ==> 1 <= RefsOf(ss)[k].idx < Offset(ss)
  {
    if ss != [] {
      RefsBelow(ss[..|ss| - 1]);
      OffsetPositive(ss[..|ss| - 1]);
    }
  }

  lemma {:induction false} OffsetPositive(ss: seq<IlStmt>)
    ensures Offset(ss) >= 1
  {
    if ss != [] { OffsetPositive(ss[..|ss| - 1]); }
  }

  /** References into the first part leave what follows alone. */
  lemma {:induction false} RepairPrefix(a: seq<M.Instruction>, b: seq<M.Instruction>, refs: seq<Ref>,
                                        labels: map<string, nat>, halt: nat)
    requires forall k :: 0 <= k < |refs| ==> refs[k].idx < |a|
    ensures RepairAll(a + b, refs, labels, halt) == RepairAll(a, refs, labels, halt) + b
  {
    if refs != [] {
      RepairPrefix(a, b, refs[..|refs| - 1], labels, halt);
    }
  }

  /** Patching one more statement's code, once everything before it is patched. */
  lemma RepairStep(raw: seq<M.Instruction>, done: seq<M.Instruction>, ss: seq<IlStmt>, r: nat,
                   labels: map<string, nat>, halt: nat)
    requires ss != [] && |raw| == |done| == Offset(ss[..|ss| - 1])
    requires RepairAll(raw, RefsOf(ss[..|ss| - 1]), labels, halt) == done
    ensures var s := ss[|ss| - 1];
            RepairAll(raw + StmtCode(s, r, |raw|, 0), RefsOf(ss), labels, halt) ==
            done + StmtCode(s, r, |raw|, TargetIn(labels, halt, s))
  {
    hide StmtCode; hide Repair; hide Offset; hide TargetIn; hide RepairAll; hide RefsOf;
    var front, s := ss[..|ss| - 1], ss[|ss| - 1];
    RefsBelow(front);
    RepairPrefix(raw, StmtCode(s, r, |raw|, 0), RefsOf(front), labels, halt);
    RepairOne(done, s, r, labels, halt);
    RepairLast(raw + StmtCode(s, r, |raw|, 0), ss, labels, halt);
  }

  lemma RepairLast(code: seq<M.Instruction>, ss: seq<IlStmt>, labels: map<string, nat>, halt: nat)
    requires ss != []
    ensures var front, s := ss[..|ss| - 1], ss[|ss| - 1];
            var before := RepairAll(code, RefsOf(front), labels, halt);
            RepairAll(code, RefsOf(ss), labels, halt) ==
            match LabelOf(s)
            case None => before
            case Some(l) =>
              var i := Offset(front) + JumpOffset(s);
              if i < |before| then before[i := Repair(before[i], Lookup(labels, halt, l))] else before
  {
    hide Repair; hide Offset; hide Lookup;
    var front, s := ss[..|ss| - 1], ss[|ss| - 1];
    if LabelOf(s).Some? {
      assert RefsOf(ss)[..|RefsOf(ss)| - 1] == RefsOf(front);
    }
  }

  /** Patching the raw code from the label table gives the code laid out for those labels. */
  lemma {:induction false} RepairedBody(ss: seq<IlStmt>, names: seq<string>, labels: map<string, nat>, halt: nat)
    ensures var first := [M.LoadImm(TRUE_REG, Bool(true))];
            RepairAll(first + RawBody(ss, names), RefsOf(ss), labels, halt) == first + BodyCode(ss, names, labels, halt)
  {
    hide StmtCode; hide RepairAll; hide RefsOf; hide TargetIn; hide Offset; hide RegFor;
    var first := [M.LoadImm(TRUE_REG, Bool(true))];
    if ss == [] {
      NothingToRepair(first, labels, halt);
      assert first + RawBody(ss, names) == first == first + BodyCode(ss, names, labels, halt);
    } else {
      var front, s := ss[..|ss| - 1], ss[|ss| - 1];
      var r, at, t := RegFor(names, s), Offset(front), TargetIn(labels, halt, s);
      RepairedBody(front, names, labels, halt);
      RawSize(front, names);
      BodySize(front, names, labels, halt);
      RepairStep(first + RawBody(front, names), first + BodyCode(front, names, labels, halt), ss, r, labels, halt);
      assert first + RawBody(ss, names) == first + RawBody(front, names) + StmtCode(s, r, at, 0);
      assert first + BodyCode(ss, names, labels, halt) ==
             first + BodyCode(front, names, labels, halt) + StmtCode(s, r, at, t);
    }
  }

  lemma NothingToRepair(code: seq<M.Instruction>, labels: map<string, nat>, halt: nat)
    ensures RepairAll(code, RefsOf([]), labels, halt) == code
  {
  }

  lemma RepairOne(before: seq<M.Instruction>, s: IlStmt, r: nat, labels: map<string, nat>, halt: nat)
    ensures var at := |before|;
            var raw, code := StmtCode(s, r, at, 0), StmtCode(s, r, at, TargetIn(labels, halt, s));
            if LabelOf(s).Some? then
              var i := at + JumpOffset(s);
              i < at + |raw| &&
              (before + raw)[i := Repair((before + raw)[i], Lookup(labels, halt, LabelOf(s).value))] == before + code
            else raw == code
  {
    var at := |before|;
    var raw, code := StmtCode(s, r, at, 0), StmtCode(s, r, at, TargetIn(labels, halt, s));
    if LabelOf(s).Some? {
      var j := JumpOffset(s);
      assert (before + raw)[at + j] == raw[j];
      assert raw[j := code[j]] == code;
      assert (before + raw)[at + j := code[j]] == before + raw[j := code[j]];
    }
  }

  // ----- register allocation -----

  lemma {:induction false} VarsPrefix(ss: seq<IlStmt>, i: nat)
    requires i <= |ss|
    ensures VarsOf(ss[..i]) <= VarsOf(ss)
    decreases |ss|
  {
    if i == |ss| {
      assert ss[..i] == ss;
    } else {
      VarsPrefix(ss[..|ss| - 1], i);
      assert ss[..|ss| - 1][..i] == ss[..i];
    }
  }

  lemma {:induction false} IndexOfPrefix(names: seq<string>, more: seq<string>, x: string)
    requires names <= more && x in names
    ensures IndexOf(more, x) == IndexOf(names, x)
  {
    if names[0] != x {
      IndexOfPrefix(names[1..], more[1..], x);
    }
  }

  /** Registers given to a prefix stay the same in the whole program. */
  lemma {:induction false} RawBodyStable(ss: seq<IlStmt>, names: seq<string>, more: seq<string>)
    requires names <= more
    requires forall i :: 0 <= i < |ss| && VarOf(ss[i]).Some? ==> VarOf(ss[i]).value in names
    ensures RawBody(ss, names) == RawBody(ss, more)
  {
    if ss != [] {
      var s := ss[|ss| - 1];
      RawBodyStable(ss[..|ss| - 1], names, more);
      if VarOf(s).Some? { IndexOfPrefix(names, more, VarOf(s).value); }
    }
  }

  lemma NoStatements()
    ensures VarsOf([]) == [] && LabelsOf([]) == map[] && RefsOf([]) == [] && RawBody([], []) == [] && Offset([]) == 1
  {
  }

  lemma RawBodyGrows(ss: seq<IlStmt>, i: nat)
    requires i < |ss|
    ensures var names := VarsOf(ss[..i + 1]);
            RawBody(ss[..i + 1], names) ==
            RawBody(ss[..i], VarsOf(ss[..i])) + StmtCode(ss[i], RegFor(names, ss[i]), Offset(ss[..i]), 0)
  {
    hide StmtCode; hide IndexOf; hide Offset;
    var names := VarsOf(ss[..i + 1]);
    assert ss[..i + 1][..i] == ss[..i];
    AllVarsHeld(ss[..i]);
    VarsPrefix(ss[..i + 1], i);
    RawBodyStable(ss[..i], VarsOf(ss[..i]), names);
  }

  class Codegen {
    var instructions: seq<M.Instruction>
    var varMap: map<string, nat>
    var nextReg: nat
    var labels: map<string, nat>
    var labelRefs: seq<Ref>

    /** The registers handed out so far are those of `names`. */
    ghost predicate Allocated(names: seq<string>)
      reads this
    {
      && nextReg == |names| <= MAX_IL_VARS
      && varMap.Keys == (set x | x in names)
      && forall x :: x in varMap ==> varMap[x] == IndexOf(names, x)
    }

    constructor ()
      ensures instructions == [] && Allocated([]) && labels == map[] && labelRefs == []
    {
      instructions, varMap, nextReg, labels, labelRefs := [], map[], 0, map[], [];
    }

    /** `None` is the panic on an eleventh variable. */
    method GetVarReg(x: string, ghost names: seq<string>) returns (r: Option<nat>)
      requires Allocated(names)
      modifies this`varMap, this`nextReg
      ensures r.None? <==> x !in names && |names| == MAX_IL_VARS
      ensures var after := if x in names then names else names + [x];
              r.Some? ==> Allocated(after) && r.value == IndexOf(after, x)
    {
      if x in varMap { return Some(varMap[x]); }
      if nextReg > MAX_IL_VARS - 1 { return None; }
      r := Some(nextReg);
      varMap := varMap[x := nextReg];
      nextReg := nextReg + 1;
      forall y | y in varMap
        ensures varMap[y] == IndexOf(names + [x], y)
      {
        IndexOfAppend(names, x, y);
      }
    }

    method Emit(inst: M.Instruction)
      modifies this`instructions
      ensures instructions == old(instructions) + [inst]
    {
      instructions := instructions + [inst];
    }

    /** Statements compiled to one instruction on their register. */
    method EmitSingle(s: IlStmt, r: nat)
      requires LabelOf(s).None? && Size(s) == 1
      modifies this`instructions
      ensures instructions == old(instructions) + StmtCode(s, r, |old(instructions)|, 0)
    {
      if s.Or? || s.Xor? || s.Add? || s.Sub? || s.Mul? || s.Div? || s.Mod? {
        EmitCombine(s, r);
      } else if s.Store? || s.Return? || s.Set? || s.Reset? || s.Not? {
        Emit(match s
             case Store(v) => M.StoreSig(v, CR_REG)
             case Return => M.RetNone()
             case Set(_) => M.LoadImm(r, Bool(true))
             case Reset(_) => M.LoadImm(r, Bool(false))
             case _ => M.NotReg(CR_REG, CR_REG));
      } else {
        EmitBlock(s, r);
      }
    }

    method EmitCombine(s: IlStmt, r: nat)
      requires s.Or? || s.Xor? || s.Add? || s.Sub? || s.Mul? || s.Div? || s.Mod?
      modifies this`instructions
      ensures instructions == old(instructions) + StmtCode(s, r, |old(instructions)|, 0)
    {
      var op := match s
                case Or(_) => M.Or case Xor(_) => M.Xor case Add(_) => M.Add case Sub(_) => M.Sub
                case Mul(_) => M.Mul case Div(_) => M.Div case _ => M.Mod;
      Emit(M.Arith3(op, CR_REG, r, CR_REG));
    }

    method EmitBlock(s: IlStmt, r: nat)
      requires s.Ton? || s.Tof? || s.Tp? || s.Ctu? || s.Ctd? || s.RTrig? || s.FTrig? || s.Sr? || s.Rs?
      modifies this`instructions
      ensures instructions == old(instructions) + StmtCode(s, r, |old(instructions)|, 0)
    {
      var op := if s.Ton? || s.Tof? || s.Tp? then M.TimerRun
                else if s.Ctu? || s.Ctd? then M.CounterRun
                else if s.RTrig? || s.FTrig? then M.EdgeRun
                else M.SrRun;
      Emit(FunctionBlock(op, r));
    }

    /** A comparison and the jumps that turn its flag into a Boolean. */
    method EmitCompare(k: CompareKind, v: string, r: nat)
      modifies this`instructions
      ensures instructions == old(instructions) + StmtCode(Cmp(k, v), r, |old(instructions)|, 0)
    {
      Emit(M.Cmp2(CmpOpcode(k), CR_REG, r));
      var onTrue, done := |instructions| + 3, |instructions| + 5;
      Emit(M.JumpIfTo(onTrue));
      Emit(M.LoadImm(CR_REG, Bool(false)));
      Emit(M.JumpTo(done));
      Emit(M.LoadImm(CR_REG, Bool(true)));
    }

    /** The code of a statement that names no label, register already known. */
    method EmitPlain(s: IlStmt, r: nat)
      requires LabelOf(s).None?
      modifies this`instructions
      ensures instructions == old(instructions) + StmtCode(s, r, |old(instructions)|, 0)
    {
      if s.Label? {
      } else if s.Load? || s.LoadNot? {
        Emit(M.LoadSig(r, s.v));
        Emit(M.LoadReg(CR_REG, r));
        if s.LoadNot? { Emit(M.NotReg(CR_REG, CR_REG)); }
      } else if s.And? {
        Emit(M.LoadSig(r, s.v));
        Emit(M.Arith3(M.And, CR_REG, r, CR_REG));
      } else if s.AndNot? {
        Emit(M.LoadSig(r, s.v));
        Emit(M.LoadReg(TEMP_REG, r));
        Emit(M.NotReg(TEMP_REG, TEMP_REG));
        Emit(M.Arith3(M.And, CR_REG, TEMP_REG, CR_REG));
      } else if s.OrNot? {
        Emit(M.LoadReg(TEMP_REG, r));
        Emit(M.NotReg(TEMP_REG, TEMP_REG));
        Emit(M.Arith3(M.Or, CR_REG, TEMP_REG, CR_REG));
      } else if s.Cmp? {
        EmitCompare(s.kind, s.v, r);
      } else {
        EmitSingle(s, r);
      }
    }

    /** The code of a statement with a label: the jump goes to 0 and is noted down. */
    method EmitJump(s: IlStmt, l: string)
      requires LabelOf(s) == Some(l)
      modifies this`instructions, this`labelRefs
      ensures instructions == old(instructions) + StmtCode(s, 0, |old(instructions)|, 0)
      ensures labelRefs == old(labelRefs) + [Ref(|old(instructions)| + JumpOffset(s), l)]
    {
      if s.JumpIf? || s.JumpIfNot? {
        Emit(M.Cmp2(if s.JumpIf? then M.Eq else M.Neq, CR_REG, TRUE_REG));
      }
      var idx := |instructions|;
      Emit(if s.Jump? then M.JumpTo(0) else if s.Call? then M.CallTo(0) else M.JumpIfTo(0));
      labelRefs := labelRefs + [Ref(idx, l)];
    }

    /** One statement: its label, its register, its code. `None` is the panic. */
    method CompileStmt(ss: seq<IlStmt>, i: nat) returns (ok: bool)
      requires i < |ss|
      requires Allocated(VarsOf(ss[..i])) && labels == LabelsOf(ss[..i]) && labelRefs == RefsOf(ss[..i])
      requires |instructions| == Offset(ss[..i])
      modifies this
      ensures ok <==> |VarsOf(ss[..i + 1])| <= MAX_IL_VARS
      ensures ok ==>
                && Allocated(VarsOf(ss[..i + 1])) && labels == LabelsOf(ss[..i + 1]) && labelRefs == RefsOf(ss[..i + 1])
                && instructions == old(instructions) +
                  StmtCode(ss[i], RegFor(VarsOf(ss[..i + 1]), ss[i]), |old(instructions)|, 0)
    {
      hide StmtCode; hide IndexOf; hide Offset;
      var s := ss[i];
      ghost var names := VarsOf(ss[..i]);
      assert ss[..i + 1][..i] == ss[..i];
      if s.Label? {
        labels := labels[s.name := |instructions|];
      }
      if LabelOf(s).Some? {
        EmitJump(s, LabelOf(s).value);
      } else {
        var r := 0;
        if VarOf(s).Some? {
          var reg := GetVarReg(VarOf(s).value, names);
          if reg.None? { return false; }
          r := reg.value;
        }
        EmitPlain(s, r);
      }
      ok := true;
    }

    /** The compiled program, or `None` when it has more than ten variables. */
    method Compile(ss: seq<IlStmt>) returns (code: Option<seq<M.Instruction>>)
      requires instructions == [] && Allocated([]) && labels == map[] && labelRefs == []
      modifies this
      ensures code.None? <==> |VarsOf(ss)| > MAX_IL_VARS
      ensures code.Some? ==> code.value == ProgramCode(ss)
    {
      hide StmtCode; hide IndexOf; hide VarsOf; hide LabelsOf; hide RefsOf; hide RawBody; hide BodyCode; hide Offset;
      hide RepairAll;
      Emit(M.LoadImm(TRUE_REG, Bool(true)));
      NoStatements();
      assert ss[..0] == [];
      var i := 0;
      while i < |ss|
        invariant 0 <= i <= |ss|
        invariant Allocated(VarsOf(ss[..i]))
        invariant instructions == [M.LoadImm(TRUE_REG, Bool(true))] + RawBody(ss[..i], VarsOf(ss[..i]))
        invariant labels == LabelsOf(ss[..i]) && labelRefs == RefsOf(ss[..i])
      {
        RawSize(ss[..i], VarsOf(ss[..i]));
        VarsPrefix(ss, i + 1);
        ghost var before := instructions;
        var ok := CompileStmt(ss, i);
        if !ok { return None; }
        RawBodyGrows(ss, i);
        i := i + 1;
      }
      assert ss[..i] == ss;
      RawSize(ss, VarsOf(ss));
      ghost var emitted := instructions;
      var halt := |instructions|;
      Emit(M.HaltInstr());
      var result := PatchRefs(halt);
      RefsBelow(ss);
      RepairPrefix(emitted, [M.HaltInstr()], RefsOf(ss), labels, halt);
      RepairedBody(ss, VarsOf(ss), labels, halt);
      code := Some(result);
    }

    method PatchRefs(halt: nat) returns (result: seq<M.Instruction>)
      ensures result == RepairAll(instructions, labelRefs, labels, halt)
    {
      result := instructions;
      var k := 0;
      while k < |labelRefs|
        invariant 0 <= k <= |labelRefs|
        invariant result == RepairAll(instructions, labelRefs[..k], labels, halt)
      {
        assert labelRefs[..k + 1][..k] == labelRefs[..k];
        var ref := labelRefs[k];
        if ref.idx < |result| {
          var target := if ref.name in labels then labels[ref.name] else halt;
          result := result[ref.idx := Repair(result[ref.idx], target)];
        }
        k := k + 1;
      }
      assert labelRefs[..k] == labelRefs;
    }
  }

  lemma {:induction false} AllVarsHeld(ss: seq<IlStmt>)
    ensures forall i :: 0 <= i < |ss| && VarOf(ss[i]).Some? ==> VarOf(ss[i]).value in VarsOf(ss)
  {
    forall i | 0 <= i < |ss| && VarOf(ss[i]).Some?
      ensures VarOf(ss[i]).value in VarsOf(ss)
    {
      VarsHold(ss, i);
    }
  }
}
