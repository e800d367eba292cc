/** The emitted motion program on the register machine, iteration by iteration. */
module MotionLoop {
  import opened HalValues
  import opened Motion
  import opened MotionRun
  import M = Machine

  /** Axes have position registers and signals of their own. */
  predicate Separate(axes: seq<Axis>) {
    && (forall i :: 0 <= i < |axes| ==> axes[i].reg == POS_X || axes[i].reg == POS_Y || axes[i].reg == POS_Z)
    && (forall i, j :: 0 <= i < j < |axes| ==> axes[i].reg != axes[j].reg && axes[i].sig != axes[j].sig)
  }

  predicate Positions(vm: M.Vm, axes: seq<Axis>, pos: seq<real>) {
    && |pos| == |axes|
    && Separate(axes)
    && forall i :: 0 <= i < |axes| ==> vm.regs[axes[i].reg] == F(pos[i])
  }

  predicate Published(vm: M.Vm, axes: seq<Axis>, pos: seq<real>) {
    && |pos| == |axes|
    && forall i :: 0 <= i < |axes| ==> axes[i].sig in vm.signals && vm.signals[axes[i].sig] == F(pos[i])
  }

  /** Every axis moved by its share of `travel`. */
  function Moved(pos: seq<real>, axes: seq<Axis>, travel: real): (r: seq<real>)
    requires |pos| == |axes|
    ensures |r| == |axes| && forall i :: 0 <= i < |axes| ==> r[i] == pos[i] + Times(travel, axes[i].ratio)
  {
    if pos == [] then []
    else
      var n := |pos| - 1;
      Moved(pos[..n], axes[..n], travel) + [pos[n] + Times(travel, axes[n].ratio)]
  }

  predicate NoAxis(axes: seq<Axis>, r: nat) { forall i :: 0 <= i < |axes| ==> axes[i].reg != r }

  predicate Untouched(before: M.Vm, after: M.Vm, axes: seq<Axis>) {
    forall r | 0 <= r < M.REGISTER_COUNT && r != RATIO && r != AXIS_STEP && NoAxis(axes, r) ::
      after.regs[r] == before.regs[r]
  }

  // ----- one axis, all axes -----

  lemma RealArith(op: M.Opcode, x: real, y: real)
    ensures Arith(MulOp, F(x), F(y)) == Some(F(Times(x, y))) && Times(x, y) == x * y
    ensures Arith(AddOp, F(x), F(y)) == Some(F(x + y))
    ensures Arith(SubOp, F(x), F(y)) == Some(F(x - y))
    ensures Compare(GtOp, F(x), F(y)) == (x > y)
    ensures M.ArithOf(M.Mul) == Some(MulOp) && M.ArithOf(M.Add) == Some(AddOp) && M.ArithOf(M.Sub) == Some(SubOp)
    ensures M.CmpOf(M.Gt) == Some(GtOp)
  {
  }

  lemma AxisRuns(prog: seq<M.Instruction>, a: Axis, vm: M.Vm, t: real, x: real)
    requires M.CodeAt(prog, vm.ip, AxisCode(a)) && POS_X <= a.reg <= POS_Z
    requires vm.regs[TSTEP] == F(t) && vm.regs[a.reg] == F(x)
    ensures M.Run(prog, M.Next(vm), 4) ==
            M.Next(vm.(regs := vm.regs[RATIO := F(a.ratio)][AXIS_STEP := F(Times(t, a.ratio))]
                                      [a.reg := F(x + Times(t, a.ratio))],
                       signals := vm.signals[a.sig := F(x + Times(t, a.ratio))], ip := vm.ip + 4))
  {
    hide M.Step; hide M.Run; hide Arith; hide Compare; hide M.CodeAt; hide M.ArithOf; hide Times;
    var i1, i2, i3, i4 := M.LoadImm(RATIO, F(a.ratio)), M.Arith3(M.Mul, TSTEP, RATIO, AXIS_STEP),
                          M.Arith3(M.Add, a.reg, AXIS_STEP, a.reg), M.StoreSig(a.sig, a.reg);
    assert AxisCode(a) == [i1] + ([i2] + ([i3] + [i4]));
    M.CodeAtSplit(prog, vm.ip, [i1], [i2] + ([i3] + [i4]));
    M.CodeAtSplit(prog, vm.ip + 1, [i2], [i3] + [i4]);
    M.CodeAtSplit(prog, vm.ip + 2, [i3], [i4]);
    M.StepLoadImm(prog, vm, RATIO, F(a.ratio));
    M.RunOne(prog, vm);
    var v1 := M.Step(prog, vm).vm;
    RealArith(M.Mul, t, a.ratio);
    M.StepArith(prog, v1, M.Mul, TSTEP, RATIO, AXIS_STEP);
    M.RunMore(prog, M.Next(vm), 1, v1);
    var v2 := M.Step(prog, v1).vm;
    assert v2.regs[a.reg] == F(x) && v2.regs[AXIS_STEP] == F(Times(t, a.ratio));
    RealArith(M.Add, x, Times(t, a.ratio));
    M.StepArith(prog, v2, M.Add, a.reg, AXIS_STEP, a.reg);
    M.RunMore(prog, M.Next(vm), 2, v2);
    var v3 := M.Step(prog, v2).vm;
    M.StepStore(prog, v3, a.sig, a.reg);
    M.RunMore(prog, M.Next(vm), 3, v3);
  }

  lemma {:induction false} AxesRun(prog: seq<M.Instruction>, axes: seq<Axis>, vm: M.Vm, t: real, pos: seq<real>)
    requires M.CodeAt(prog, vm.ip, AxesCode(axes)) && Positions(vm, axes, pos) && vm.regs[TSTEP] == F(t)
    ensures var out := M.Run(prog, M.Next(vm), 4 * |axes|);
            && out.Next? && out.vm.ip == vm.ip + 4 * |axes|
            && Positions(out.vm, axes, Moved(pos, axes, t)) && Published(out.vm, axes, Moved(pos, axes, t))
            && Untouched(vm, out.vm, axes)
    decreases |axes|
  {
    hide M.Run; hide AxisCode; hide M.CodeAt; hide Moved; hide Untouched; hide Published; hide Positions; hide Times;
    if axes == [] {
      M.RunNone(prog, vm);
      assert |pos| == |axes| by { SameSize(vm, axes, pos); }
      NoAxes(vm, axes, pos, t);
    } else {
      var n := |axes| - 1;
      var front, a := axes[..n], axes[n];
      M.CodeAtSplit(prog, vm.ip, AxesCode(front), AxisCode(a));
      FrontPositions(vm, axes, pos);
      AxesRun(prog, front, vm, t, pos[..n]);
      var mid := M.Run(prog, M.Next(vm), 4 * n).vm;
      LastUntouched(vm, mid, axes, pos);
      AxisRuns(prog, a, mid, t, pos[n]);
      M.RunSplit(prog, M.Next(vm), 4 * n, 4);
      assert 4 * n + 4 == 4 * |axes|;
      assert M.Run(prog, M.Next(vm), 4 * |axes|) == M.Run(prog, M.Next(mid), 4);
      var out := M.Run(prog, M.Next(vm), 4 * |axes|).vm;
      assert vm.ip + 4 * n == mid.ip && out.ip == mid.ip + 4;
      OneAxisMore(vm, mid, out, axes, pos, t);
    }
  }

  lemma SameSize(vm: M.Vm, axes: seq<Axis>, pos: seq<real>)
    requires Positions(vm, axes, pos)
    ensures |pos| == |axes|
  {
  }

  lemma NoAxes(vm: M.Vm, axes: seq<Axis>, pos: seq<real>, t: real)
    requires axes == [] && pos == []
    ensures Positions(vm, axes, Moved(pos, axes, t)) && Published(vm, axes, Moved(pos, axes, t)) &&
            Untouched(vm, vm, axes)
  {
  }

  lemma FrontPositions(vm: M.Vm, axes: seq<Axis>, pos: seq<real>)
    requires axes != [] && Positions(vm, axes, pos)
    ensures |pos| == |axes| && Positions(vm, axes[..|axes| - 1], pos[..|axes| - 1])
    ensures POS_X <= axes[|axes| - 1].reg <= POS_Z
  {
  }

  lemma LastUntouched(vm: M.Vm, mid: M.Vm, axes: seq<Axis>, pos: seq<real>)
    requires axes != [] && Positions(vm, axes, pos) && Untouched(vm, mid, axes[..|axes| - 1])
    ensures mid.regs[axes[|axes| - 1].reg] == F(pos[|axes| - 1]) && mid.regs[TSTEP] == vm.regs[TSTEP]
  {
  }

  lemma OneAxisMore(vm: M.Vm, mid: M.Vm, out: M.Vm, axes: seq<Axis>, pos: seq<real>, t: real)
    requires axes != [] && |pos| == |axes| && Positions(vm, axes, pos)
    requires var n := |axes| - 1;
             var front, a, here := axes[..n], axes[n], Moved(pos[..n], axes[..n], t);
             var x := F(pos[n] + Times(t, a.ratio));
             && Positions(mid, front, here) && Published(mid, front, here) && Untouched(vm, mid, front)
             && out == mid.(regs := mid.regs[RATIO := F(a.ratio)][AXIS_STEP := F(Times(t, a.ratio))][a.reg := x],
                            signals := mid.signals[a.sig := x], ip := mid.ip + 4)
    ensures Positions(out, axes, Moved(pos, axes, t)) && Published(out, axes, Moved(pos, axes, t)) &&
            Untouched(vm, out, axes)
  {
    hide Moved;
    var n := |axes| - 1;
    assert forall i :: 0 <= i < n ==> axes[i].reg != axes[n].reg && axes[i].sig != axes[n].sig;
    assert forall i :: 0 <= i < n ==> axes[..n][i] == axes[i];
    assert forall i :: 0 <= i < n ==> Moved(pos, axes, t)[i] == Moved(pos[..n], axes[..n], t)[i];
  }

  // ----- one iteration -----

  /** At the top of a loop: constants, speed, counter and positions are in place. */
  predicate LoopState(vm: M.Vm, axes: seq<Axis>, dt: real, dv: real, vel: real, counter: real, pos: seq<real>) {
    && vm.regs[DT] == F(dt) && vm.regs[ZERO] == F(0.0) && vm.regs[ONE] == F(1.0)
    && vm.regs[VSTEP] == F(dv) && vm.regs[VEL] == F(vel) && vm.regs[COUNTER] == F(counter)
    && Positions(vm, axes, pos)
  }

  function LoopSize(axes: seq<Axis>, phase: Phase): nat { 4 * |axes| + (if phase.Cruise? then 4 else 5) }

  lemma IterationRuns(prog: seq<M.Instruction>, axes: seq<Axis>, phase: Phase, start: nat, vm: M.Vm, dt: real, dv: real,
                      vel: real, counter: real, pos: seq<real>)
    requires M.CodeAt(prog, start, LoopCode(axes, phase, start)) && vm.ip == start
    requires LoopState(vm, axes, dt, dv, vel, counter, pos)
    ensures var out := M.Run(prog, M.Next(vm), LoopSize(axes, phase));
            var next := Moved(pos, axes, vel * dt);
            && out.Next? && out.vm.ip == (if counter - 1.0 > 0.0 then start else start + LoopSize(axes, phase))
            && LoopState(out.vm, axes, dt, dv, NextSpeed(phase, vel, dv), counter - 1.0, next)
            && Published(out.vm, axes, next)
  {
    hide M.Step; hide M.Run; hide AxesCode; hide M.CodeAt; hide Moved; hide Arith; hide M.ArithOf; hide Separate;
    hide Compare;
    var head, mid, speed, tail := [M.Arith3(M.Mul, VEL, DT, TSTEP)], AxesCode(axes), SpeedCode(phase),
      [M.Arith3(M.Sub, COUNTER, ONE, COUNTER), M.Cmp2(M.Gt, COUNTER, ZERO), M.JumpIfTo(start)];
    M.CodeAtSplit(prog, start, head + mid + speed, tail);
    M.CodeAtSplit(prog, start, head + mid, speed);
    M.CodeAtSplit(prog, start, head, mid);
    RealArith(M.Mul, vel, dt);
    M.StepArith(prog, vm, M.Mul, VEL, DT, TSTEP);
    M.RunOne(prog, vm);
    var v1 := M.Step(prog, vm).vm;
    assert Positions(v1, axes, pos) by { RegsSeparate(axes); }
    AxesRun(prog, axes, v1, vel * dt, pos);
    var v2 := M.Run(prog, M.Next(v1), 4 * |axes|).vm;
    M.RunSplit(prog, M.Next(vm), 1, 4 * |axes|);
    assert LoopState(v2, axes, dt, dv, vel, counter, Moved(pos, axes, vel * dt)) by { RegsSeparate(axes); }
    SpeedRuns(prog, axes, phase, v2, dt, dv, vel, counter, Moved(pos, axes, vel * dt));
    var v3 := M.Run(prog, M.Next(v2), |speed|).vm;
    M.RunSplit(prog, M.Next(vm), 1 + 4 * |axes|, |speed|);
    TailRuns(prog, axes, start, v3, dt, dv, NextSpeed(phase, vel, dv), counter, Moved(pos, axes, vel * dt));
    M.RunSplit(prog, M.Next(vm), 1 + 4 * |axes| + |speed|, 3);
  }

  lemma RegsSeparate(axes: seq<Axis>)
    ensures Separate(axes) ==> forall i :: 0 <= i < |axes| ==> POS_X <= axes[i].reg <= POS_Z
  {
  }

  lemma SpeedRuns(prog: seq<M.Instruction>, axes: seq<Axis>, phase: Phase, vm: M.Vm, dt: real, dv: real, vel: real,
                  counter: real, pos: seq<real>)
    requires M.CodeAt(prog, vm.ip, SpeedCode(phase)) && LoopState(vm, axes, dt, dv, vel, counter, pos)
    ensures var out := M.Run(prog, M.Next(vm), |SpeedCode(phase)|);
            && out.Next? && out.vm.ip == vm.ip + |SpeedCode(phase)| && out.vm.signals == vm.signals
            && LoopState(out.vm, axes, dt, dv, NextSpeed(phase, vel, dv), counter, pos)
  {
    hide M.Step; hide M.Run; hide M.CodeAt; hide Arith; hide M.ArithOf; hide Separate; hide Compare;
    RegsSeparate(axes);
    RealArith(M.Add, vel, dv);
    match phase {
      case Cruise => M.RunNone(prog, vm);
      case Accelerate =>
        M.StepArith(prog, vm, M.Add, VEL, VSTEP, VEL);
        M.RunOne(prog, vm);
      case Decelerate =>
        M.StepArith(prog, vm, M.Sub, VEL, VSTEP, VEL);
        M.RunOne(prog, vm);
    }
  }

  lemma TailRuns(prog: seq<M.Instruction>, axes: seq<Axis>, start: nat, vm: M.Vm, dt: real, dv: real, vel: real,
                 counter: real, pos: seq<real>)
    requires M.CodeAt(prog, vm.ip, [M.Arith3(M.Sub, COUNTER, ONE, COUNTER), M.Cmp2(M.Gt, COUNTER, ZERO),
                                    M.JumpIfTo(start)])
    requires LoopState(vm, axes, dt, dv, vel, counter, pos)
    ensures var out := M.Run(prog, M.Next(vm), 3);
            && out.Next? && out.vm.ip == (if counter - 1.0 > 0.0 then start else vm.ip + 3) &&
              out.vm.signals == vm.signals
            && LoopState(out.vm, axes, dt, dv, vel, counter - 1.0, pos)
  {
    hide M.Step; hide M.Run; hide M.CodeAt; hide Arith; hide M.ArithOf; hide Separate; hide Compare; hide M.CmpOf;
    RegsSeparate(axes);
    var a, b, c := M.Arith3(M.Sub, COUNTER, ONE, COUNTER), M.Cmp2(M.Gt, COUNTER, ZERO), M.JumpIfTo(start);
    assert [a, b, c] == [a] + ([b] + [c]);
    M.CodeAtSplit(prog, vm.ip, [a], [b] + [c]);
    M.CodeAtSplit(prog, vm.ip + 1, [b], [c]);
    RealArith(M.Sub, counter, 1.0);
    M.StepArith(prog, vm, M.Sub, COUNTER, ONE, COUNTER);
    M.RunOne(prog, vm);
    var v1 := M.Step(prog, vm).vm;
    RealArith(M.Gt, counter - 1.0, 0.0);
    M.StepCompare(prog, v1, M.Gt, COUNTER, ZERO);
    M.RunMore(prog, M.Next(vm), 1, v1);
    var v2 := M.Step(prog, v1).vm;
    M.StepJumpIf(prog, v2, start);
    M.RunMore(prog, M.Next(vm), 2, v2);
  }

  // ----- a whole phase -----

  lemma {:induction false} LoopRuns(prog: seq<M.Instruction>, axes: seq<Axis>, phase: Phase, start: nat, vm: M.Vm,
                                    dt: real,
                                    dv: real, v: real, cycles: nat, pos: seq<real>, k: nat)
    requires M.CodeAt(prog, start, LoopCode(axes, phase, start)) && vm.ip == start
    requires LoopState(vm, axes, dt, dv, StartSpeed(phase, v), cycles as real, pos) && k <= cycles
    ensures var out := M.Run(prog, M.Next(vm), k * LoopSize(axes, phase));
            var here := Moved(pos, axes, Travel(phase, v, dv, dt, k));
            && out.Next? && out.vm.ip == (if k < cycles || k == 0 then start else start + LoopSize(axes, phase))
            && LoopState(out.vm, axes, dt, dv, Speed(phase, v, dv, k), (cycles - k) as real, here)
            && (k > 0 ==> Published(out.vm, axes, here))
    decreases k
  {
    hide M.CodeAt; hide LoopCode; hide M.Run; hide LoopSize; hide Published; hide Moved;
    if k == 0 {
      M.RunNone(prog, vm);
      MovedNothing(pos, axes);
    } else {
      LoopRuns(prog, axes, phase, start, vm, dt, dv, v, cycles, pos, k - 1);
      var size := LoopSize(axes, phase);
      var mid := M.Run(prog, M.Next(vm), (k - 1) * size).vm;
      var speed, travel := Speed(phase, v, dv, k - 1), Travel(phase, v, dv, dt, k - 1);
      IterationRuns(prog, axes, phase, start, mid, dt, dv, speed, (cycles - (k - 1)) as real, Moved(pos, axes, travel));
      MovedTwice(pos, axes, travel, speed * dt);
      assert Travel(phase, v, dv, dt, k) == travel + speed * dt;
      StepsAdd(k, size);
      M.RunSplit(prog, M.Next(vm), (k - 1) * size, size);
      assert (cycles - (k - 1)) as real - 1.0 == (cycles - k) as real;
    }
  }

  lemma StepsAdd(k: nat, size: nat)
    requires k > 0
    ensures k * size == (k - 1) * size + size && (k - 1) * size >= 0
  {
  }

  lemma MovedNothing(pos: seq<real>, axes: seq<Axis>)
    requires |pos| == |axes|
    ensures Moved(pos, axes, 0.0) == pos
  {
    hide Moved;
  }

  lemma MovedTwice(pos: seq<real>, axes: seq<Axis>, s: real, t: real)
    requires |pos| == |axes|
    ensures Moved(Moved(pos, axes, s), axes, t) == Moved(pos, axes, s + t)
  {
    hide Moved;
    forall i | 0 <= i < |axes|
      ensures Moved(Moved(pos, axes, s), axes, t)[i] == Moved(pos, axes, s + t)[i]
    {
      assert Times(s + t, axes[i].ratio) == (s + t) * axes[i].ratio == s * axes[i].ratio + t * axes[i].ratio;
      assert Times(s, axes[i].ratio) + Times(t, axes[i].ratio) == s * axes[i].ratio + t * axes[i].ratio;
    }
  }

  predicate Constant(vm: M.Vm, dt: real) {
    vm.regs[DT] == F(dt) && vm.regs[ZERO] == F(0.0) && vm.regs[ONE] == F(1.0)
  }

  function PhaseSteps(axes: seq<Axis>, phase: Phase, cycles: nat): nat {
    if cycles == 0 then 0 else 3 + cycles * LoopSize(axes, phase)
  }

  /** A phase takes exactly its number of iterations and moves every axis by its share. */
  lemma PhaseRuns(prog: seq<M.Instruction>, axes: seq<Axis>, phase: Phase, vm: M.Vm, dt: real, dv: real, v: real,
                  cycles: nat, pos: seq<real>)
    requires cycles > 0 && M.CodeAt(prog, vm.ip, PhaseCode(axes, phase, v, dv, cycles, vm.ip))
    requires Constant(vm, dt) && Positions(vm, axes, pos)
    ensures var out := M.Run(prog, M.Next(vm), PhaseSteps(axes, phase, cycles));
            var end := Moved(pos, axes, Travel(phase, v, dv, dt, cycles));
            && out.Next? && out.vm.ip == vm.ip + |PhaseCode(axes, phase, v, dv, cycles, vm.ip)|
            && Constant(out.vm, dt) && Positions(out.vm, axes, end) && Published(out.vm, axes, end)
  {
    hide M.Step; hide M.Run; hide M.CodeAt; hide Moved; hide Travel; hide LoopCode; hide Separate; hide Published;
    RegsSeparate(axes);
    PhaseLoads(prog, axes, phase, vm, dv, v, cycles);
    var v3 := M.Run(prog, M.Next(vm), 3).vm;
    LoopRuns(prog, axes, phase, vm.ip + 3, v3, dt, dv, v, cycles, pos, cycles);
    M.RunSplit(prog, M.Next(vm), 3, cycles * LoopSize(axes, phase));
    LoopLength(axes, phase, vm.ip + 3);
  }

  lemma LoopLength(axes: seq<Axis>, phase: Phase, start: nat)
    ensures |LoopCode(axes, phase, start)| == LoopSize(axes, phase)
  {
  }

  lemma PhaseLoads(prog: seq<M.Instruction>, axes: seq<Axis>, phase: Phase, vm: M.Vm, dv: real, v: real, cycles: nat)
    requires cycles > 0 && M.CodeAt(prog, vm.ip, PhaseCode(axes, phase, v, dv, cycles, vm.ip))
    ensures M.Run(prog, M.Next(vm), 3) ==
            M.Next(vm.(regs := vm.regs[VSTEP := F(dv)][VEL := F(StartSpeed(phase, v))][COUNTER := F(cycles as real)],
                       ip := vm.ip + 3))
    ensures M.CodeAt(prog, vm.ip + 3, LoopCode(axes, phase, vm.ip + 3))
  {
    hide M.Step; hide M.Run; hide M.CodeAt; hide LoopCode; hide StartSpeed;
    var a, b, c := M.LoadImm(VSTEP, F(dv)), M.LoadImm(VEL, F(StartSpeed(phase, v))),
      M.LoadImm(COUNTER, F(cycles as real));
    M.CodeAtSplit(prog, vm.ip, [a, b, c], LoopCode(axes, phase, vm.ip + 3));
    assert [a, b, c] == [a] + ([b] + [c]);
    M.CodeAtSplit(prog, vm.ip, [a], [b] + [c]);
    M.CodeAtSplit(prog, vm.ip + 1, [b], [c]);
    M.StepLoadImm(prog, vm, VSTEP, F(dv));
    M.RunOne(prog, vm);
    var v1 := M.Step(prog, vm).vm;
    M.StepLoadImm(prog, v1, VEL, F(StartSpeed(phase, v)));
    M.RunMore(prog, M.Next(vm), 1, v1);
    var v2 := M.Step(prog, v1).vm;
    M.StepLoadImm(prog, v2, COUNTER, F(cycles as real));
    M.RunMore(prog, M.Next(vm), 2, v2);
  }

  // ----- the whole program -----

  function StartPositions(p: Profile, axes: seq<Axis>): (r: seq<real>)
    ensures |r| == |axes| && forall i :: 0 <= i < |axes| ==> r[i] == StartOf(p, axes[i])
  {
    if axes == [] then [] else StartPositions(p, axes[..|axes| - 1]) + [StartOf(p, axes[|axes| - 1])]
  }

  lemma {:induction false} StartsRun(prog: seq<M.Instruction>, p: Profile, axes: seq<Axis>, vm: M.Vm)
    requires M.CodeAt(prog, vm.ip, StartCode(p, axes)) && Separate(axes) && Constant(vm, p.dt)
    ensures var out := M.Run(prog, M.Next(vm), |axes|);
            && out.Next? && out.vm.ip == vm.ip + |axes|
            && Constant(out.vm, p.dt) && Positions(out.vm, axes, StartPositions(p, axes))
    decreases |axes|
  {
    hide M.Step; hide M.Run; hide M.CodeAt; hide StartOf;
    if axes == [] {
      M.RunNone(prog, vm);
    } else {
      var n := |axes| - 1;
      var front, a := axes[..n], axes[n];
      M.CodeAtSplit(prog, vm.ip, StartCode(p, front), [M.LoadImm(a.reg, F(StartOf(p, a)))]);
      StartsRun(prog, p, front, vm);
      var mid := M.Run(prog, M.Next(vm), n).vm;
      M.StepLoadImm(prog, mid, a.reg, F(StartOf(p, a)));
      M.RunMore(prog, M.Next(vm), n, mid);
    }
  }

  lemma ConstantsRun(prog: seq<M.Instruction>, p: Profile, vm: M.Vm)
    requires M.CodeAt(prog, vm.ip, Constants(p))
    ensures var out := M.Run(prog, M.Next(vm), 3);
            out.Next? && out.vm.ip == vm.ip + 3 && Constant(out.vm, p.dt)
  {
    hide M.Step; hide M.Run; hide M.CodeAt;
    var a, b, c := M.LoadImm(DT, F(p.dt)), M.LoadImm(ZERO, F(0.0)), M.LoadImm(ONE, F(1.0));
    assert Constants(p) == [a] + ([b] + [c]);
    M.CodeAtSplit(prog, vm.ip, [a], [b] + [c]);
    M.CodeAtSplit(prog, vm.ip + 1, [b], [c]);
    M.StepLoadImm(prog, vm, DT, F(p.dt));
    M.RunOne(prog, vm);
    var v1 := M.Step(prog, vm).vm;
    M.StepLoadImm(prog, v1, ZERO, F(0.0));
    M.RunMore(prog, M.Next(vm), 1, v1);
    var v2 := M.Step(prog, v1).vm;
    M.StepLoadImm(prog, v2, ONE, F(1.0));
    M.RunMore(prog, M.Next(vm), 2, v2);
  }

  lemma AxesSeparate(p: Profile)
    requires p.Moves()
    ensures Separate(Axes(p))
  {
  }

  /** All steps of a move: constants and starts, then the three loops. */
  function MoveSteps(p: Profile): nat
    requires p.Valid() && p.Moves()
  {
    var axes, n, m := Axes(p), RampCycles(p), CruiseCycles(p);
    3 + |axes| + PhaseSteps(axes, Accelerate, n) + PhaseSteps(axes, Cruise, m) + PhaseSteps(axes, Decelerate, n)
  }

  /** The code of the three phases behind `init`. */
  lemma Layout(p: Profile)
    requires p.Valid() && p.Moves()
    ensures var axes, v, dv, n, m, prog := Axes(p), p.Target(), p.Dv(), RampCycles(p), CruiseCycles(p),
            TrapezoidCode(p);
            var at := 3 + |axes|;
            var a := PhaseCode(axes, Accelerate, v, dv, n, at);
            var b := PhaseCode(axes, Cruise, v, dv, m, at + |a|);
            var c := PhaseCode(axes, Decelerate, v, dv, n, at + |a| + |b|);
            && M.CodeAt(prog, 0, Constants(p)) && M.CodeAt(prog, 3, StartCode(p, axes))
            && M.CodeAt(prog, at, a) && M.CodeAt(prog, at + |a|, b) && M.CodeAt(prog, at + |a| + |b|, c)
            && |prog| == at + |a| + |b| + |c|
  {
    hide PhaseCode; hide Axes; hide M.CodeAt; hide StartCode; hide RampCycles; hide CruiseCycles;
    var axes, v, dv, n, m, prog := Axes(p), p.Target(), p.Dv(), RampCycles(p), CruiseCycles(p), TrapezoidCode(p);
    var init := Constants(p) + StartCode(p, axes);
    var a := PhaseCode(axes, Accelerate, v, dv, n, |init|);
    var b := PhaseCode(axes, Cruise, v, dv, m, |init + a|);
    var c := PhaseCode(axes, Decelerate, v, dv, n, |init + a + b|);
    assert prog == init + a + b + c;
    WholeCode(prog);
    M.CodeAtSplit(prog, 0, init + a + b, c);
    M.CodeAtSplit(prog, 0, init + a, b);
    M.CodeAtSplit(prog, 0, init, a);
    M.CodeAtSplit(prog, 0, Constants(p), StartCode(p, axes));
  }

  lemma WholeCode(prog: seq<M.Instruction>)
    ensures M.CodeAt(prog, 0, prog)
  {
  }

  /** The whole move, from any machine at instruction 0: after exactly its steps the machine
      stands behind the last instruction, and every moving axis has published its start plus
      its ratio times the total travel. */
  lemma MoveRuns(p: Profile, vm: M.Vm)
    requires p.Valid() && p.Moves() && p.CruiseDistance() > 0.0 && CountsFit(p) && vm.ip == 0
    ensures var prog, axes := TrapezoidCode(p), Axes(p);
            var out := M.Run(prog, M.Next(vm), MoveSteps(p));
            && out.Next? && out.vm.ip == |prog|
            && Published(out.vm, axes, Moved(StartPositions(p, axes), axes, TotalTravel(p)))
  {
    hide *;
    Layout(p);
    AxesSeparate(p);
    RampBounds(p);
    CruiseBounds(p);
    StepsAre(p);
    var axes, v, dv, n, m, prog := Axes(p), p.Target(), p.Dv(), RampCycles(p), CruiseCycles(p), TrapezoidCode(p);
    var start := StartPositions(p, axes);
    ConstantsRun(prog, p, vm);
    var v0 := M.Run(prog, M.Next(vm), 3).vm;
    StartsRun(prog, p, axes, v0);
    var v1 := M.Run(prog, M.Next(v0), |axes|).vm;
    var t1 := Travel(Accelerate, v, dv, p.dt, n);
    PhaseRuns(prog, axes, Accelerate, v1, p.dt, dv, v, n, start);
    var s1, s2, s3 := PhaseSteps(axes, Accelerate, n), PhaseSteps(axes, Cruise, m), PhaseSteps(axes, Decelerate, n);
    var v2 := M.Run(prog, M.Next(v1), s1).vm;
    var t2 := Travel(Cruise, v, dv, p.dt, m);
    PhaseRuns(prog, axes, Cruise, v2, p.dt, dv, v, m, Moved(start, axes, t1));
    MovedTwice(start, axes, t1, t2);
    var v3 := M.Run(prog, M.Next(v2), s2).vm;
    var t3 := Travel(Decelerate, v, dv, p.dt, n);
    PhaseRuns(prog, axes, Decelerate, v3, p.dt, dv, v, n, Moved(start, axes, t1 + t2));
    MovedTwice(start, axes, t1 + t2, t3);
    M.RunSplit(prog, M.Next(vm), 3, |axes|);
    M.RunSplit(prog, M.Next(vm), 3 + |axes|, s1);
    M.RunSplit(prog, M.Next(vm), 3 + |axes| + s1, s2);
    M.RunSplit(prog, M.Next(vm), 3 + |axes| + s1 + s2, s3);
  }

  lemma StepsAre(p: Profile)
    requires p.Valid() && p.Moves()
    ensures var axes, n, m := Axes(p), RampCycles(p), CruiseCycles(p);
            MoveSteps(p) == 3 + |axes| + PhaseSteps(axes, Accelerate, n) + PhaseSteps(axes, Cruise, m) +
                            PhaseSteps(axes, Decelerate, n)
    ensures var v, dv, n, m := p.Target(), p.Dv(), RampCycles(p), CruiseCycles(p);
            TotalTravel(p) == Travel(Accelerate, v, dv, p.dt, n) + Travel(Cruise, v, dv, p.dt, m) +
                              Travel(Decelerate, v, dv, p.dt, n)
  {
    hide Axes; hide RampCycles; hide CruiseCycles; hide Travel; hide PhaseSteps;
  }

  /** The standalone program has no halt: the step after a finished move trips the
      executor's check of the instruction pointer. */
  lemma NothingAfterTheMove(p: Profile, vm: M.Vm)
    requires p.Valid() && p.Moves() && p.CruiseDistance() > 0.0 && CountsFit(p) && vm.ip == 0
    ensures M.Run(TrapezoidCode(p), M.Next(vm), MoveSteps(p) + 1) == M.Panic(M.IpOutOfBounds)
  {
    hide *;
    MoveRuns(p, vm);
    var end := M.Run(TrapezoidCode(p), M.Next(vm), MoveSteps(p)).vm;
    M.RunMore(TrapezoidCode(p), M.Next(vm), MoveSteps(p), end);
    StepPast(TrapezoidCode(p), end);
  }

  lemma StepPast(prog: seq<M.Instruction>, vm: M.Vm)
    requires vm.ip >= |prog|
    ensures M.Step(prog, vm) == M.Panic(M.IpOutOfBounds)
  {
  }
}
