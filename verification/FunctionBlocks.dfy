/** Timers, counters, flip-flops and edge detectors: one tick per scan, and what
    a whole run of scans adds up to. */
module FunctionBlocks {

  datatype TimerKind = Ton | Tof | Tp

  datatype TimerState = TimerState(kind: TimerKind, inVal: bool, elapsed: nat, q: bool, preset: nat)

  const U64_MAX: nat := 0xFFFF_FFFF_FFFF_FFFF

  function SatAdd(a: nat, b: nat): nat {
    if a + b > U64_MAX then U64_MAX else a + b
  }

  function NewTimer(kind: TimerKind): TimerState {
    TimerState(kind, false, 0, false, 0)
  }

  function Advance(t: TimerState, cycle: nat): TimerState {
    t.(elapsed := SatAdd(t.elapsed, cycle))
  }

  /** One scan of a timer block. */
  function TimerTick(t0: TimerState, kind: TimerKind, input: bool, pt: nat, cycle: nat): TimerState {
    var t := t0.(preset := pt, kind := kind);
    var after :=
      match kind
      case Ton =>
        if !input then t.(q := false, elapsed := 0)
        else if t.elapsed >= pt then t.(q := true)
        else
          var u := Advance(t, cycle);
          if u.elapsed >= pt then u.(q := true, elapsed := pt) else u
      case Tof =>
        if input then t.(q := true, elapsed := 0)
        else if t.q then
          var u := Advance(t, cycle);
          if u.elapsed >= pt then u.(q := false, elapsed := pt) else u
        else t
      case Tp =>
        var s := if input && !t.inVal then t.(q := true, elapsed := 0) else t;
        if s.q then
          var u := Advance(s, cycle);
          var w := if u.elapsed >= pt then u.(q := false, elapsed := pt) else u;
          if !input then w.(q := false) else w
        else s;
    after.(inVal := input)
  }

  /** One scan as seen by a timer: its input and the cycle time. */
  datatype Scan = Scan(input: bool, cycle: nat)

  function TimerRun(kind: TimerKind, pt: nat, scans: seq<Scan>): TimerState {
    if scans == [] then NewTimer(kind)
    else
      var last := scans[|scans| - 1];
      TimerTick(TimerRun(kind, pt, scans[..|scans| - 1]), kind, last.input, pt, last.cycle)
  }

  /** Time accumulated since the input last rose: 0 while it is false. */
  function HeldFor(scans: seq<Scan>): nat {
    if scans == [] || !scans[|scans| - 1].input then 0
    else HeldFor(scans[..|scans| - 1]) + scans[|scans| - 1].cycle
  }

  predicate LastInput(scans: seq<Scan>) {
    scans != [] && scans[|scans| - 1].input
  }

  function Inverted(scans: seq<Scan>): seq<Scan> {
    seq(|scans|, i requires 0 <= i < |scans| => Scan(!scans[i].input, scans[i].cycle))
  }

  function Min(a: nat, b: nat): nat { if a < b then a else b }

  /** TON: the elapsed time is the time the input has been held, capped at PT,
      and the output is on exactly when that time has reached PT. */
  lemma {:induction false} TonMeasuresHeldTime(pt: nat, scans: seq<Scan>)
    requires pt <= U64_MAX
    ensures TimerRun(Ton, pt, scans).elapsed == Min(HeldFor(scans), pt)
    ensures TimerRun(Ton, pt, scans).q <==> LastInput(scans) && HeldFor(scans) >= pt
  {
    if scans != [] {
      TonMeasuresHeldTime(pt, scans[..|scans| - 1]);
    }
  }

  /** TOF is the negation of TON on the inverted input, from the first scan on
      which the input was true. */
  lemma {:induction false} TofMirrorsTon(pt: nat, scans: seq<Scan>)
    requires pt <= U64_MAX
    requires exists i :: 0 <= i < |scans| && scans[i].input
    ensures TimerRun(Tof, pt, scans).q == !TimerRun(Ton, pt, Inverted(scans)).q
    ensures TimerRun(Tof, pt, scans).elapsed == TimerRun(Ton, pt, Inverted(scans)).elapsed
  {
    var front := scans[..|scans| - 1];
    assert Inverted(scans)[..|scans| - 1] == Inverted(front);
    if !scans[|scans| - 1].input {
      var i :| 0 <= i < |scans| && scans[i].input;
      assert front[i].input;
      TofMirrorsTon(pt, front);
      TonMeasuresHeldTime(pt, Inverted(front));
    }
  }

  /** Before its input has ever been true a TOF stays off with no elapsed time, where the
      mirrored TON is already counting: the mirror holds once that has run out. */
  lemma {:induction false} TofBeforeFirstInput(pt: nat, scans: seq<Scan>)
    requires pt <= U64_MAX && forall i :: 0 <= i < |scans| ==> !scans[i].input
    ensures !TimerRun(Tof, pt, scans).q && TimerRun(Tof, pt, scans).elapsed == 0
    ensures TimerRun(Tof, pt, scans).q == !TimerRun(Ton, pt, Inverted(scans)).q <==>
            scans != [] && HeldFor(Inverted(scans)) >= pt
  {
    TonMeasuresHeldTime(pt, Inverted(scans));
    if scans != [] {
      TofBeforeFirstInput(pt, scans[..|scans| - 1]);
    }
  }

  /** TP: the pulse is on exactly while the input has been held since its rising
      edge and the time accumulated since then is still below PT. */
  lemma {:induction false} TpPulse(pt: nat, scans: seq<Scan>)
    requires pt <= U64_MAX
    ensures TimerRun(Tp, pt, scans).inVal == LastInput(scans)
    ensures TimerRun(Tp, pt, scans).q <==> LastInput(scans) && HeldFor(scans) < pt
    ensures TimerRun(Tp, pt, scans).q ==> TimerRun(Tp, pt, scans).elapsed == HeldFor(scans)
  {
    if scans != [] {
      TpPulse(pt, scans[..|scans| - 1]);
    }
  }

  // ----- counters -----

  datatype CounterKind = Ctu | Ctd | Ctud

  datatype CounterState = CounterState(
    kind: CounterKind, cu: bool, cd: bool, cv: nat, pv: nat, q: bool, qu: bool, qd: bool)

  const U32_MAX: nat := 0xFFFF_FFFF

  function NewCounter(): CounterState {
    CounterState(Ctu, false, false, 0, 0, false, false, false)
  }

  /** `(cv + 1).min(pv)` on 32 bits: the sum wraps at the top of the range. */
  function CountUp(cv: nat, pv: nat): nat {
    Min((cv + 1) % (U32_MAX + 1), pv)
  }

  function CountDown(cv: nat): nat { if cv == 0 then 0 else cv - 1 }

  function CounterTick(c0: CounterState, kind: CounterKind, cu: bool, cd: bool, pv: nat): CounterState {
    var up := cu && !c0.cu;
    var down := cd && !c0.cd;
    var c := c0.(pv := pv, kind := kind, cu := cu, cd := cd);
    match kind
    case Ctu =>
      var cv := if up then CountUp(c.cv, pv) else c.cv;
      c.(cv := cv, q := cv >= pv)
    case Ctd =>
      var cv := if down then CountDown(c.cv) else c.cv;
      c.(cv := cv, q := cv == 0)
    case Ctud =>
      var cv1 := if up then CountUp(c.cv, pv) else c.cv;
      var cv := if down then CountDown(cv1) else cv1;
      c.(cv := cv, qu := cv >= pv, qd := cv == 0, q := cv >= pv)
  }

  datatype CountScan = CountScan(cu: bool, cd: bool)

  function CounterRun(kind: CounterKind, pv: nat, scans: seq<CountScan>): CounterState {
    if scans == [] then NewCounter()
    else
      var last := scans[|scans| - 1];
      CounterTick(CounterRun(kind, pv, scans[..|scans| - 1]), kind, last.cu, last.cd, pv)
  }

  /** Rising edges of a sampled input that was false before the first sample. */
  function RisingEdges(samples: seq<bool>): nat {
    if samples == [] then 0
    else RisingEdges(samples[..|samples| - 1]) +
         if samples[|samples| - 1] && !(|samples| > 1 && samples[|samples| - 2]) then 1 else 0
  }

  function UpInputs(scans: seq<CountScan>): seq<bool> {
    seq(|scans|, i requires 0 <= i < |scans| => scans[i].cu)
  }

  lemma {:induction false} CounterRemembersInputs(kind: CounterKind, pv: nat, scans: seq<CountScan>)
    ensures var c := CounterRun(kind, pv, scans);
            c.cu == (scans != [] && scans[|scans| - 1].cu) && c.cd == (scans != [] && scans[|scans| - 1].cd)
  {
    if scans != [] { CounterRemembersInputs(kind, pv, scans[..|scans| - 1]); }
  }

  /** CTU counts rising edges up to PV and switches on exactly when they reach it. */
  lemma {:induction false} CtuCountsEdges(pv: nat, scans: seq<CountScan>)
    requires pv < U32_MAX
    ensures CounterRun(Ctu, pv, scans).cv == Min(RisingEdges(UpInputs(scans)), pv)
    ensures scans != [] ==> (CounterRun(Ctu, pv, scans).q <==> RisingEdges(UpInputs(scans)) >= pv)
  {
    if scans != [] {
      var front := scans[..|scans| - 1];
      CtuCountsEdges(pv, front);
      CounterRemembersInputs(Ctu, pv, front);
      assert UpInputs(scans)[..|scans| - 1] == UpInputs(front);
    }
  }

  lemma FullRangeStep(c: CounterState, cu: bool)
    requires c.cv <= U32_MAX
    ensures CounterTick(c, Ctu, cu, false, U32_MAX).cv == if cu && !c.cu then (c.cv + 1) % (U32_MAX + 1) else c.cv
    ensures CounterTick(c, Ctu, cu, true, U32_MAX).cv == CounterTick(c, Ctu, cu, false, U32_MAX).cv
  {
  }

  lemma CountOnWraps(n: nat)
    ensures (n % (U32_MAX + 1) + 1) % (U32_MAX + 1) == (n + 1) % (U32_MAX + 1)
  {
  }

  /** At the largest preset the increment wraps: the count is the number of edges modulo 2^32. */
  lemma {:induction false} CtuAtFullRange(scans: seq<CountScan>)
    ensures CounterRun(Ctu, U32_MAX, scans).cv == RisingEdges(UpInputs(scans)) % (U32_MAX + 1)
  {
    hide CounterTick;
    if scans != [] {
      var front, last := scans[..|scans| - 1], scans[|scans| - 1];
      CtuAtFullRange(front);
      CounterRemembersInputs(Ctu, U32_MAX, front);
      assert UpInputs(scans)[..|scans| - 1] == UpInputs(front);
      FullRangeStep(CounterRun(Ctu, U32_MAX, front), last.cu);
      CountOnWraps(RisingEdges(UpInputs(front)));
    }
  }

  /** At the largest preset the 32-bit increment of a full counter wraps to zero:
      one more edge restarts the count instead of holding it at PV. */
  lemma FullRangeCounterWraps(c: CounterState)
    requires c.cv == U32_MAX && !c.cu
    ensures CounterTick(c, Ctu, true, false, U32_MAX).cv == 0
    ensures forall pv: nat :: pv < U32_MAX ==> CounterTick(c.(cv := pv), Ctu, true, false, pv).cv == pv
  {
  }

  /** CTUD stays within [0, PV] and its two outputs say where in it. */
  lemma {:induction false} CtudStaysInRange(pv: nat, scans: seq<CountScan>)
    ensures var c := CounterRun(Ctud, pv, scans);
            0 <= c.cv <= pv && (scans != [] ==> (c.qu <==> c.cv == pv) && (c.qd <==> c.cv == 0))
  {
    if scans != [] { CtudStaysInRange(pv, scans[..|scans| - 1]); }
  }

  function DownInputs(scans: seq<CountScan>): seq<bool> {
    seq(|scans|, i requires 0 <= i < |scans| => scans[i].cd)
  }

  /** A counter run from a given state. */
  function CounterFrom(c: CounterState, kind: CounterKind, pv: nat, scans: seq<CountScan>): CounterState {
    if scans == [] then c
    else
      var last := scans[|scans| - 1];
      CounterTick(CounterFrom(c, kind, pv, scans[..|scans| - 1]), kind, last.cu, last.cd, pv)
  }

  lemma {:induction false} CounterFromRemembers(c: CounterState, kind: CounterKind, pv: nat, scans: seq<CountScan>)
    requires !c.cu && !c.cd
    ensures var e := CounterFrom(c, kind, pv, scans);
            e.cu == (scans != [] && scans[|scans| - 1].cu) && e.cd == (scans != [] && scans[|scans| - 1].cd)
  {
    if scans != [] { CounterFromRemembers(c, kind, pv, scans[..|scans| - 1]); }
  }

  /** CTD counts rising edges of CD down to zero from the value it holds, which is zero on a
      new counter: no input loads it. */
  lemma {:induction false} CtdCountsDown(c: CounterState, pv: nat, scans: seq<CountScan>)
    requires !c.cu && !c.cd
    ensures var e := CounterFrom(c, Ctd, pv, scans);
            && e.cv == c.cv - Min(c.cv, RisingEdges(DownInputs(scans)))
            && (scans != [] ==> (e.q <==> RisingEdges(DownInputs(scans)) >= c.cv))
  {
    if scans != [] {
      var front := scans[..|scans| - 1];
      CtdCountsDown(c, pv, front);
      CounterFromRemembers(c, Ctd, pv, front);
      assert DownInputs(scans)[..|scans| - 1] == DownInputs(front);
    }
  }

  lemma CtudTick(c: CounterState, cu: bool, cd: bool, pv: nat)
    requires c.cv <= pv < U32_MAX
    ensures !cd ==> CounterTick(c, Ctud, cu, cd, pv).cv == if cu && !c.cu then Min(c.cv + 1, pv) else c.cv
    ensures !cu ==> CounterTick(c, Ctud, cu, cd, pv).cv == if cd && !c.cd then CountDown(c.cv) else c.cv
  {
  }

  predicate RisesAt(samples: seq<bool>, i: nat)
    requires i < |samples|
  {
    samples[i] && (i == 0 || !samples[i - 1])
  }

  /** A walk in [0, PV]: up on every rising edge of CU, then down on every rising edge of CD. */
  function ClampedWalk(start: nat, pv: nat, scans: seq<CountScan>): nat {
    if scans == [] then start
    else
      var n := |scans| - 1;
      var before := ClampedWalk(start, pv, scans[..n]);
      var raised := if RisesAt(UpInputs(scans), n) then Min(before + 1, pv) else before;
      if RisesAt(DownInputs(scans), n) && raised > 0 then raised - 1 else raised
  }

  lemma WalkTick(c: CounterState, pv: nat, scans: seq<CountScan>)
    requires scans != [] && c.cv <= pv < U32_MAX
    requires var n := |scans| - 1;
             c.cu == (n > 0 && scans[n - 1].cu) && c.cd == (n > 0 && scans[n - 1].cd)
    ensures var n := |scans| - 1;
            var raised := if RisesAt(UpInputs(scans), n) then Min(c.cv + 1, pv) else c.cv;
            var e := CounterTick(c, Ctud, scans[n].cu, scans[n].cd, pv);
            && e.cv == (if RisesAt(DownInputs(scans), n) && raised > 0 then raised - 1 else raised) <= pv
            && (e.qu <==> e.cv == pv) && (e.qd <==> e.cv == 0)
  {
  }

  /** CTUD after any run, whatever its two inputs do. */
  lemma {:induction false} CtudWalks(c: CounterState, pv: nat, scans: seq<CountScan>)
    requires !c.cu && !c.cd && c.cv <= pv < U32_MAX
    ensures var e := CounterFrom(c, Ctud, pv, scans);
            && e.cv == ClampedWalk(c.cv, pv, scans) <= pv
            && (scans != [] ==> (e.qu <==> e.cv == pv) && (e.qd <==> e.cv == 0))
  {
    if scans != [] {
      var n := |scans| - 1;
      CtudWalks(c, pv, scans[..n]);
      CounterFromRemembers(c, Ctud, pv, scans[..n]);
      hide CounterTick; hide RisesAt;
      WalkTick(CounterFrom(c, Ctud, pv, scans[..n]), pv, scans);
    }
  }

  /** CTUD counts up like CTU while CD is quiet. */
  lemma {:induction false} CtudCountsUp(c: CounterState, pv: nat, scans: seq<CountScan>)
    requires !c.cu && !c.cd && c.cv <= pv < U32_MAX
    requires forall i :: 0 <= i < |scans| ==> !scans[i].cd
    ensures CounterFrom(c, Ctud, pv, scans).cv == Min(c.cv + RisingEdges(UpInputs(scans)), pv)
  {
    hide CounterTick;
    if scans != [] {
      var front, last := scans[..|scans| - 1], scans[|scans| - 1];
      CtudCountsUp(c, pv, front);
      CounterFromRemembers(c, Ctud, pv, front);
      assert UpInputs(scans)[..|scans| - 1] == UpInputs(front);
      CtudTick(CounterFrom(c, Ctud, pv, front), last.cu, last.cd, pv);
    }
  }

  /** CTUD counts down like CTD while CU is quiet. */
  lemma {:induction false} CtudCountsDown(c: CounterState, pv: nat, scans: seq<CountScan>)
    requires !c.cu && !c.cd && c.cv <= pv < U32_MAX
    requires forall i :: 0 <= i < |scans| ==> !scans[i].cu
    ensures CounterFrom(c, Ctud, pv, scans).cv == c.cv - Min(c.cv, RisingEdges(DownInputs(scans)))
  {
    hide CounterTick;
    if scans != [] {
      var front, last := scans[..|scans| - 1], scans[|scans| - 1];
      CtudCountsDown(c, pv, front);
      CounterFromRemembers(c, Ctud, pv, front);
      assert DownInputs(scans)[..|scans| - 1] == DownInputs(front);
      CtudTick(CounterFrom(c, Ctud, pv, front), last.cu, last.cd, pv);
    }
  }

  // ----- SR / RS flip-flops -----

  datatype SrKind = Sr | Rs

  datatype SrState = SrState(kind: SrKind, s1: bool, r: bool, q1: bool, q2: bool)

  function NewSr(kind: SrKind): SrState { SrState(kind, false, false, false, false) }

  function SrTick(s0: SrState, kind: SrKind, s1: bool, r: bool): SrState {
    var s := s0.(kind := kind, s1 := s1, r := r);
    match kind
    case Sr => if s1 then s.(q1 := true, q2 := false) else if r then s.(q1 := false, q2 := true) else s
    case Rs => if r then s.(q1 := false, q2 := true) else if s1 then s.(q1 := true, q2 := false) else s
  }

  datatype SrScan = SrScan(s1: bool, r: bool)

  function SrRun(kind: SrKind, scans: seq<SrScan>): SrState {
    if scans == [] then NewSr(kind)
    else SrTick(SrRun(kind, scans[..|scans| - 1]), kind, scans[|scans| - 1].s1, scans[|scans| - 1].r)
  }

  predicate Active(s: SrScan) { s.s1 || s.r }

  /** What the dominant input asks for on an active scan. */
  predicate Wanted(kind: SrKind, s: SrScan) {
    if kind.Sr? then s.s1 else !s.r
  }

  /** Q1 is what the latest active scan asked for, Q2 its negation from then on;
      before any active scan both are off. */
  lemma {:induction false} FlipFlopRemembersLatest(kind: SrKind, scans: seq<SrScan>, latest: nat)
    requires latest < |scans| && Active(scans[latest])
    requires forall i :: latest < i < |scans| ==> !Active(scans[i])
    ensures SrRun(kind, scans).q1 == Wanted(kind, scans[latest])
    ensures SrRun(kind, scans).q2 == !SrRun(kind, scans).q1
  {
    if latest < |scans| - 1 {
      assert !Active(scans[|scans| - 1]);
      FlipFlopRemembersLatest(kind, scans[..|scans| - 1], latest);
    }
  }

  lemma {:induction false} FlipFlopExclusive(kind: SrKind, scans: seq<SrScan>)
    ensures !(SrRun(kind, scans).q1 && SrRun(kind, scans).q2)
    ensures (forall i :: 0 <= i < |scans| ==> !Active(scans[i])) ==> !SrRun(kind, scans).q1 && !SrRun(kind, scans).q2
  {
    if scans != [] {
      FlipFlopExclusive(kind, scans[..|scans| - 1]);
      if forall i :: 0 <= i < |scans| ==> !Active(scans[i]) {
        assert !Active(scans[|scans| - 1]);
      }
    }
  }

  // ----- edge detectors -----

  datatype EdgeState = EdgeState(kind: nat, lastClk: bool, q: bool)

  function NewEdge(): EdgeState { EdgeState(0, false, false) }

  function EdgeTick(e: EdgeState, kind: nat, clk: bool): EdgeState {
    EdgeState(kind, clk,
              if kind == 0 then clk && !e.lastClk else if kind == 1 then !clk && e.lastClk else false)
  }

  function EdgeRun(kind: nat, clks: seq<bool>): EdgeState {
    if clks == [] then NewEdge() else EdgeTick(EdgeRun(kind, clks[..|clks| - 1]), kind, clks[|clks| - 1])
  }

  /** Number of scans on which the detector's output was on. */
  function Pulses(kind: nat, clks: seq<bool>): nat {
    if clks == [] then 0
    else Pulses(kind, clks[..|clks| - 1]) + if EdgeRun(kind, clks).q then 1 else 0
  }

  /** R_TRIG pulses once per rising edge and never on two scans in a row. */
  lemma {:induction false} RTrigPulses(clks: seq<bool>)
    ensures Pulses(0, clks) == RisingEdges(clks)
    ensures EdgeRun(0, clks).lastClk == (clks != [] && clks[|clks| - 1])
    ensures |clks| > 1 ==> !(EdgeRun(0, clks).q && EdgeRun(0, clks[..|clks| - 1]).q)
  {
    if clks != [] {
      RTrigPulses(clks[..|clks| - 1]);
    }
  }

  function Complement(clks: seq<bool>): seq<bool> {
    seq(|clks|, i requires 0 <= i < |clks| => !clks[i])
  }

  lemma {:induction false} EdgeLastClk(kind: nat, clks: seq<bool>)
    ensures EdgeRun(kind, clks).lastClk == (clks != [] && clks[|clks| - 1])
  {
  }

  /** F_TRIG is R_TRIG on the complemented clock, except on the first scan, where
      R_TRIG would see a false clock's complement as a rising edge. */
  lemma FTrigMirrorsRTrig(clks: seq<bool>)
    ensures EdgeRun(1, clks).q == (EdgeRun(0, Complement(clks)).q && |clks| > 1)
  {
    if clks != [] {
      var front := clks[..|clks| - 1];
      assert Complement(clks)[..|clks| - 1] == Complement(front);
      EdgeLastClk(1, front);
      EdgeLastClk(0, Complement(front));
    }
  }
}
