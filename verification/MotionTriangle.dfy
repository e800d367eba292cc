/** A move too short to cruise, on the register machine. Its one loop chooses between speeding up
    and slowing down by the register that the axis steps have overwritten, and by the wrong side of
    it: the speed falls below zero from the first cycle on. */
module MotionTriangle {
  import opened HalValues
  import opened Motion
  import opened MotionRun
  import opened MotionLoop
  import opened MotionAxes
  import M = Machine

  // ----- which way the switch goes -----

  lemma Squares(x: real, y: real)
    requires x > y > 0.0
    ensures x * x > y * y
  {
    assert x * x > y * x && y * x > y * y;
  }

  lemma NoLonger(x: real, u: real, w: real, l: real)
    requires l > 0.0 && l * l == x * x + u * u + w * w
    ensures x <= l
  {
    assert u * u >= 0.0 && w * w >= 0.0;
    if x > l { Squares(x, l); }
  }

  /** No axis covers more than the whole distance. */
  lemma RatiosAreShares(p: Profile, i: nat)
    requires p.Valid() && p.Moves() && i < |Axes(p)|
    ensures Axes(p)[i].ratio <= 1.0
  {
    NoLonger(p.dx, p.dy, p.dz, p.distance);
    NoLonger(p.dy, p.dx, p.dz, p.distance);
    NoLonger(p.dz, p.dx, p.dy, p.distance);
    SmallShare(p.dx, p.distance);
    SmallShare(p.dy, p.distance);
    SmallShare(p.dz, p.distance);
    RatioOf(p, i);
    hide Axes;
  }

  lemma RatioOf(p: Profile, i: nat)
    requires p.Moves() && i < |Axes(p)|
    ensures Axes(p)[i].ratio in {p.dx / p.distance, p.dy / p.distance, p.dz / p.distance}
  {
    hide Abs;
  }

  lemma SmallShare(d: real, l: real)
    requires l > 0.0 && d <= l
    ensures d / l <= 1.0
  {
  }

  /** Behind the axis steps the ratio register holds the last axis's ratio. */
  lemma RatioLeft(prog: seq<M.Instruction>, axes: seq<Axis>, vm: M.Vm, t: real, pos: seq<real>)
    requires axes != [] && M.CodeAt(prog, vm.ip, AxesCode(axes)) && Positions(vm, axes, pos) && vm.regs[TSTEP] == F(t)
    ensures var out := M.Run(prog, M.Next(vm), 4 * |axes|);
            out.Next? && out.vm.regs[RATIO] == F(axes[|axes| - 1].ratio)
  {
    hide M.Run; hide AxisCode; hide M.CodeAt; hide MotionLoop.Moved; hide Untouched; hide Published; hide Positions;
    hide Times;
    var n := |axes| - 1;
    var front, a := axes[..n], axes[n];
    M.CodeAtSplit(prog, vm.ip, AxesCode(front), AxisCode(a));
    FrontPositions(vm, axes, pos);
    AxesRun(prog, front, vm, t, pos[..n]);
    var mid := M.Run(prog, M.Next(vm), 4 * n).vm;
    LastUntouched(vm, mid, axes, pos);
    AxisRuns(prog, a, mid, t, pos[n]);
    M.RunSplit(prog, M.Next(vm), 4 * n, 4);
  }

  // ----- one cycle -----

  /** Steps of a cycle: one more on the way on which the speed goes up. */
  function CycleSteps(axes: seq<Axis>, counter: real): nat
    requires axes != []
  {
    4 * |axes| + (if counter > axes[|axes| - 1].ratio then 7 else 8)
  }

  function AfterSwitch(vel: real, dv: real, counter: real, ratio: real): real {
    if counter > ratio then vel - dv else vel + dv
  }

  function SwitchCode(at: nat): seq<M.Instruction> {
    [M.Cmp2(M.Gt, COUNTER, RATIO), M.JumpIfTo(at + 4), M.Arith3(M.Add, VEL, VSTEP, VEL), M.JumpTo(at + 5),
     M.Arith3(M.Sub, VEL, VSTEP, VEL)]
  }

  lemma SwitchRuns(prog: seq<M.Instruction>, axes: seq<Axis>, vm: M.Vm, dt: real, dv: real, vel: real, counter: real,
                   pos: seq<real>, ratio: real)
    requires M.CodeAt(prog, vm.ip, SwitchCode(vm.ip))
    requires LoopState(vm, axes, dt, dv, vel, counter, pos) && vm.regs[RATIO] == F(ratio)
    ensures var out := M.Run(prog, M.Next(vm), if counter > ratio then 3 else 4);
            && out.Next? && out.vm.ip == vm.ip + 5 && out.vm.signals == vm.signals
            && LoopState(out.vm, axes, dt, dv, AfterSwitch(vel, dv, counter, ratio), counter, pos)
  {
    hide M.Step; hide M.Run; hide M.CodeAt; hide Arith; hide M.ArithOf; hide Separate; hide Compare; hide M.CmpOf;
    RegsSeparate(axes);
    var down := vm.ip + 4;
    var a, b, c, d, e := M.Cmp2(M.Gt, COUNTER, RATIO), M.JumpIfTo(down), M.Arith3(M.Add, VEL, VSTEP, VEL),
                         M.JumpTo(down + 1), M.Arith3(M.Sub, VEL, VSTEP, VEL);
    assert SwitchCode(vm.ip) == [a] + ([b] + ([c] + ([d] + [e])));
    M.CodeAtSplit(prog, vm.ip, [a], [b] + ([c] + ([d] + [e])));
    M.CodeAtSplit(prog, vm.ip + 1, [b], [c] + ([d] + [e]));
    M.CodeAtSplit(prog, vm.ip + 2, [c], [d] + [e]);
    M.CodeAtSplit(prog, vm.ip + 3, [d], [e]);
    RealArith(M.Gt, counter, ratio);
    M.StepCompare(prog, vm, M.Gt, COUNTER, RATIO);
    M.RunOne(prog, vm);
    var v1 := M.Step(prog, vm).vm;
    M.StepJumpIf(prog, v1, down);
    M.RunMore(prog, M.Next(vm), 1, v1);
    var v2 := M.Step(prog, v1).vm;
    RealArith(M.Sub, vel, dv);
    RealArith(M.Add, vel, dv);
    if counter > ratio {
      M.StepArith(prog, v2, M.Sub, VEL, VSTEP, VEL);
      M.RunMore(prog, M.Next(vm), 2, v2);
    } else {
      M.StepArith(prog, v2, M.Add, VEL, VSTEP, VEL);
      M.RunMore(prog, M.Next(vm), 2, v2);
      var v3 := M.Step(prog, v2).vm;
      M.StepJump(prog, v3, down + 1);
      M.RunMore(prog, M.Next(vm), 3, v3);
    }
  }

  /** The position updates of a cycle. */
  lemma AxesMove(prog: seq<M.Instruction>, axes: seq<Axis>, vm: M.Vm, dt: real, dv: real, vel: real, counter: real,
                 pos: seq<real>) returns (out: M.Vm)
    requires axes != [] && M.CodeAt(prog, vm.ip, [M.Arith3(M.Mul, VEL, DT, TSTEP)] + AxesCode(axes))
    requires LoopState(vm, axes, dt, dv, vel, counter, pos)
    ensures M.Run(prog, M.Next(vm), 1 + 4 * |axes|) == M.Next(out) && out.ip == vm.ip + 1 + 4 * |axes|
    ensures var next := MotionLoop.Moved(pos, axes, vel * dt);
            LoopState(out, axes, dt, dv, vel, counter, next) && Published(out, axes, next)
    ensures out.regs[RATIO] == F(axes[|axes| - 1].ratio)
  {
    hide M.Step; hide M.Run; hide AxesCode; hide M.CodeAt; hide MotionLoop.Moved; hide Arith; hide M.ArithOf;
    hide Separate; hide Compare;
    M.CodeAtSplit(prog, vm.ip, [M.Arith3(M.Mul, VEL, DT, TSTEP)], AxesCode(axes));
    RealArith(M.Mul, vel, dt);
    M.StepArith(prog, vm, M.Mul, VEL, DT, TSTEP);
    M.RunOne(prog, vm);
    var v1 := M.Step(prog, vm).vm;
    assert Positions(v1, axes, pos) by { RegsSeparate(axes); }
    AxesRun(prog, axes, v1, vel * dt, pos);
    RatioLeft(prog, axes, v1, vel * dt, pos);
    out := M.Run(prog, M.Next(v1), 4 * |axes|).vm;
    M.RunSplit(prog, M.Next(vm), 1, 4 * |axes|);
    RegsSeparate(axes);
  }

  /** Position updates and switch. */
  lemma MoveAndSwitch(prog: seq<M.Instruction>, axes: seq<Axis>, vm: M.Vm, dt: real, dv: real, vel: real, counter: real,
                      pos: seq<real>, ratio: real) returns (out: M.Vm)
    requires axes != [] && ratio == axes[|axes| - 1].ratio
    requires M.CodeAt(prog, vm.ip, [M.Arith3(M.Mul, VEL, DT, TSTEP)] + AxesCode(axes))
    requires M.CodeAt(prog, vm.ip + 1 + 4 * |axes|, SwitchCode(vm.ip + 1 + 4 * |axes|))
    requires LoopState(vm, axes, dt, dv, vel, counter, pos)
    ensures M.Run(prog, M.Next(vm), 1 + 4 * |axes| + (if counter > ratio then 3 else 4)) == M.Next(out)
    ensures out.ip == vm.ip + 6 + 4 * |axes|
    ensures var next := MotionLoop.Moved(pos, axes, vel * dt);
            && LoopState(out, axes, dt, dv, AfterSwitch(vel, dv, counter, ratio), counter, next)
            && Published(out, axes, next)
  {
    hide M.Run; hide AxesCode; hide M.CodeAt; hide MotionLoop.Moved; hide AfterSwitch; hide Published;
    var next, k := MotionLoop.Moved(pos, axes, vel * dt), if counter > ratio then 3 else 4;
    var v2 := AxesMove(prog, axes, vm, dt, dv, vel, counter, pos);
    hide LoopState;
    SwitchRuns(prog, axes, v2, dt, dv, vel, counter, next, ratio);
    out := M.Run(prog, M.Next(v2), k).vm;
    M.RunSplit(prog, M.Next(vm), 1 + 4 * |axes|, k);
    StillPublished(v2, out, axes, next);
  }

  lemma CycleRuns(prog: seq<M.Instruction>, axes: seq<Axis>, start: nat, vm: M.Vm, dt: real, dv: real, vel: real,
                  counter: real, pos: seq<real>) returns (out: M.Vm)
    requires axes != [] && M.CodeAt(prog, start, TriangleLoop(axes, start)) && vm.ip == start
    requires LoopState(vm, axes, dt, dv, vel, counter, pos)
    ensures M.Run(prog, M.Next(vm), CycleSteps(axes, counter)) == M.Next(out)
    ensures out.ip == if counter - 1.0 > 0.0 then start else start + |TriangleLoop(axes, start)|
    ensures var next, ratio := MotionLoop.Moved(pos, axes, vel * dt), axes[|axes| - 1].ratio;
            && LoopState(out, axes, dt, dv, AfterSwitch(vel, dv, counter, ratio), counter - 1.0, next)
            && Published(out, axes, next)
  {
    hide M.Run; hide AxesCode; hide M.CodeAt; hide MotionLoop.Moved; hide AfterSwitch; hide Published;
    LoopParts(prog, axes, start);
    hide TriangleLoop; hide SwitchCode;
    var next, ratio := MotionLoop.Moved(pos, axes, vel * dt), axes[|axes| - 1].ratio;
    var v3 := MoveAndSwitch(prog, axes, vm, dt, dv, vel, counter, pos, ratio);
    TailRuns(prog, axes, start, v3, dt, dv, AfterSwitch(vel, dv, counter, ratio), counter, next);
    hide LoopState;
    out := M.Run(prog, M.Next(v3), 3).vm;
    M.RunSplit(prog, M.Next(vm), CycleSteps(axes, counter) - 3, 3);
    StillPublished(v3, out, axes, next);
  }

  lemma StillPublished(a: M.Vm, b: M.Vm, axes: seq<Axis>, pos: seq<real>)
    requires Published(a, axes, pos) && a.signals == b.signals
    ensures Published(b, axes, pos)
  {
  }

  lemma LoopParts(prog: seq<M.Instruction>, axes: seq<Axis>, start: nat)
    requires M.CodeAt(prog, start, TriangleLoop(axes, start))
    ensures var at := start + 1 + 4 * |axes|;
            && M.CodeAt(prog, start, [M.Arith3(M.Mul, VEL, DT, TSTEP)] + AxesCode(axes))
            && M.CodeAt(prog, at, SwitchCode(at))
            && M.CodeAt(prog, at + 5, [M.Arith3(M.Sub, COUNTER, ONE, COUNTER), M.Cmp2(M.Gt, COUNTER, ZERO),
                                       M.JumpIfTo(start)])
            && |TriangleLoop(axes, start)| == 9 + 4 * |axes|
  {
    hide M.CodeAt; hide AxesCode;
    var at := start + 1 + 4 * |axes|;
    var head := [M.Arith3(M.Mul, VEL, DT, TSTEP)] + AxesCode(axes);
    var tail := [M.Arith3(M.Sub, COUNTER, ONE, COUNTER), M.Cmp2(M.Gt, COUNTER, ZERO), M.JumpIfTo(start)];
    assert TriangleLoop(axes, start) == head + SwitchCode(at) + tail;
    M.CodeAtSplit(prog, start, head + SwitchCode(at), tail);
    M.CodeAtSplit(prog, start, head, SwitchCode(at));
  }

  // ----- all cycles -----

  /** The machine after k cycles that all slowed down. */
  predicate Down(vm: M.Vm, axes: seq<Axis>, dt: real, dv: real, total: nat, pos: seq<real>, k: nat) {
    && |pos| == |axes|
    && LoopState(vm, axes, dt, dv, Speed(Decelerate, 0.0, dv, k), (total - k) as real,
                 MotionLoop.Moved(pos, axes, Travel(Decelerate, 0.0, dv, dt, k)))
  }

  lemma OneMoreDown(dv: real, dt: real, k: nat)
    ensures Speed(Decelerate, 0.0, dv, k + 1) == Speed(Decelerate, 0.0, dv, k) - dv
    ensures Travel(Decelerate, 0.0, dv, dt, k + 1) ==
            Travel(Decelerate, 0.0, dv, dt, k) + Speed(Decelerate, 0.0, dv, k) * dt
  {
  }

  lemma CountedDown(total: nat, k: nat)
    ensures (total - k) as real - 1.0 == (total - (k + 1)) as real
    ensures k + 1 < total ==> (total - k) as real >= 2.0
    ensures k + 1 == total ==> (total - k) as real == 1.0
  {
  }

  lemma DownAtStart(vm: M.Vm, axes: seq<Axis>, dt: real, dv: real, total: nat, pos: seq<real>)
    requires LoopState(vm, axes, dt, dv, 0.0, total as real, pos)
    ensures Down(vm, axes, dt, dv, total, pos, 0)
  {
    hide MotionLoop.Moved;
    MovedNothing(pos, axes);
  }

  /** A cycle before the last one: its counter is above any ratio. */
  lemma CycleDown(prog: seq<M.Instruction>, axes: seq<Axis>, start: nat, vm: M.Vm, dt: real, dv: real, total: nat,
                  pos: seq<real>, k: nat) returns (out: M.Vm)
    requires axes != [] && axes[|axes| - 1].ratio <= 1.0 && k + 1 < total
    requires M.CodeAt(prog, start, TriangleLoop(axes, start)) && vm.ip == start
    requires Down(vm, axes, dt, dv, total, pos, k)
    ensures M.Run(prog, M.Next(vm), 4 * |axes| + 7) == M.Next(out) && out.ip == start
    ensures Down(out, axes, dt, dv, total, pos, k + 1)
  {
    hide M.CodeAt; hide TriangleLoop; hide M.Run; hide Published; hide MotionLoop.Moved; hide LoopState; hide Times;
    hide Speed; hide Travel;
    var speed, travel := Speed(Decelerate, 0.0, dv, k), Travel(Decelerate, 0.0, dv, dt, k);
    var counter := (total - k) as real;
    OneMoreDown(dv, dt, k);
    CountedDown(total, k);
    assert AfterSwitch(speed, dv, counter, axes[|axes| - 1].ratio) == speed - dv;
    out := CycleRuns(prog, axes, start, vm, dt, dv, speed, counter, MotionLoop.Moved(pos, axes, travel));
    MovedTwice(pos, axes, travel, speed * dt);
    assert Travel(Decelerate, 0.0, dv, dt, k + 1) == travel + speed * dt;
  }

  /** Every cycle but the last one slows down, from standstill. */
  lemma {:induction false} CyclesRun(prog: seq<M.Instruction>, axes: seq<Axis>, start: nat, vm: M.Vm, dt: real,
                                     dv: real, total: nat, pos: seq<real>, k: nat) returns (out: M.Vm)
    requires axes != [] && axes[|axes| - 1].ratio <= 1.0 && k < total
    requires M.CodeAt(prog, start, TriangleLoop(axes, start)) && vm.ip == start
    requires Down(vm, axes, dt, dv, total, pos, 0)
    ensures M.Run(prog, M.Next(vm), k * (4 * |axes| + 7)) == M.Next(out) && out.ip == start
    ensures Down(out, axes, dt, dv, total, pos, k)
    decreases k
  {
    hide M.CodeAt; hide TriangleLoop; hide M.Run; hide Down;
    if k == 0 {
      M.RunNone(prog, vm);
      out := vm;
    } else {
      var size := 4 * |axes| + 7;
      var mid := CyclesRun(prog, axes, start, vm, dt, dv, total, pos, k - 1);
      out := CycleDown(prog, axes, start, mid, dt, dv, total, pos, k - 1);
      StepsAdd(k, size);
      M.RunSplit(prog, M.Next(vm), (k - 1) * size, size);
    }
  }

  function LoopSteps(axes: seq<Axis>, total: nat): nat
    requires axes != [] && total > 0
  {
    (total - 1) * (4 * |axes| + 7) + CycleSteps(axes, 1.0)
  }

  lemma LastCycle(prog: seq<M.Instruction>, axes: seq<Axis>, start: nat, vm: M.Vm, dt: real, dv: real, total: nat,
                  pos: seq<real>) returns (out: M.Vm)
    requires axes != [] && total > 0
    requires M.CodeAt(prog, start, TriangleLoop(axes, start)) && vm.ip == start
    requires Down(vm, axes, dt, dv, total, pos, total - 1)
    ensures M.Run(prog, M.Next(vm), CycleSteps(axes, 1.0)) == M.Next(out)
    ensures out.ip == start + |TriangleLoop(axes, start)| && |pos| == |axes|
    ensures Published(out, axes, MotionLoop.Moved(pos, axes, Travel(Decelerate, 0.0, dv, dt, total)))
  {
    hide M.CodeAt; hide TriangleLoop; hide M.Run; hide Published; hide MotionLoop.Moved; hide LoopState;
    hide CycleSteps; hide Times; hide Speed; hide Travel;
    var k := total - 1;
    var speed, travel := Speed(Decelerate, 0.0, dv, k), Travel(Decelerate, 0.0, dv, dt, k);
    OneMoreDown(dv, dt, k);
    CountedDown(total, k);
    out := CycleRuns(prog, axes, start, vm, dt, dv, speed, 1.0, MotionLoop.Moved(pos, axes, travel));
    MovedTwice(pos, axes, travel, speed * dt);
    assert Travel(Decelerate, 0.0, dv, dt, k + 1) == travel + speed * dt;
  }

  lemma WholeLoopRuns(prog: seq<M.Instruction>, axes: seq<Axis>, start: nat, vm: M.Vm, dt: real, dv: real,
                      total: nat, pos: seq<real>) returns (out: M.Vm)
    requires axes != [] && axes[|axes| - 1].ratio <= 1.0 && total > 0
    requires M.CodeAt(prog, start, TriangleLoop(axes, start)) && vm.ip == start
    requires LoopState(vm, axes, dt, dv, 0.0, total as real, pos)
    ensures M.Run(prog, M.Next(vm), LoopSteps(axes, total)) == M.Next(out)
    ensures out.ip == start + |TriangleLoop(axes, start)| && |pos| == |axes|
    ensures Published(out, axes, MotionLoop.Moved(pos, axes, Travel(Decelerate, 0.0, dv, dt, total)))
  {
    hide M.CodeAt; hide TriangleLoop; hide M.Run; hide Down; hide LoopState; hide Published; hide CycleSteps;
    DownAtStart(vm, axes, dt, dv, total, pos);
    var mid := CyclesRun(prog, axes, start, vm, dt, dv, total, pos, total - 1);
    out := LastCycle(prog, axes, start, mid, dt, dv, total, pos);
    StepsAdd(total, 4 * |axes| + 7);
    M.RunSplit(prog, M.Next(vm), (total - 1) * (4 * |axes| + 7), CycleSteps(axes, 1.0));
  }

  // ----- the whole program -----

  lemma {:induction false} StartsLeave(prog: seq<M.Instruction>, p: Profile, axes: seq<Axis>, vm: M.Vm)
    requires M.CodeAt(prog, vm.ip, StartCode(p, axes)) && Separate(axes)
    ensures var out := M.Run(prog, M.Next(vm), |axes|);
            out.Next? && out.vm.ip == vm.ip + |axes| && out.vm.regs[VEL] == vm.regs[VEL] &&
            out.vm.regs[VSTEP] == vm.regs[VSTEP]
    decreases |axes|
  {
    hide M.Step; hide M.Run; hide M.CodeAt; hide StartOf;
    if axes == [] {
      M.RunNone(prog, vm);
    } else {
      var n := |axes| - 1;
      var front, a := axes[..n], axes[n];
      M.CodeAtSplit(prog, vm.ip, StartCode(p, front), [M.LoadImm(a.reg, F(StartOf(p, a)))]);
      StartsLeave(prog, p, front, vm);
      var mid := M.Run(prog, M.Next(vm), n).vm;
      M.StepLoadImm(prog, mid, a.reg, F(StartOf(p, a)));
      M.RunMore(prog, M.Next(vm), n, mid);
    }
  }

  lemma TwoLoads(prog: seq<M.Instruction>, vm: M.Vm, r: nat, x: real, q: nat, y: real)
    requires M.CodeAt(prog, vm.ip, [M.LoadImm(r, F(x)), M.LoadImm(q, F(y))])
    requires r < M.REGISTER_COUNT && q < M.REGISTER_COUNT
    ensures M.Run(prog, M.Next(vm), 2) == M.Next(vm.(regs := vm.regs[r := F(x)][q := F(y)], ip := vm.ip + 2))
  {
    hide M.Step; hide M.Run; hide M.CodeAt;
    assert [M.LoadImm(r, F(x)), M.LoadImm(q, F(y))] == [M.LoadImm(r, F(x))] + [M.LoadImm(q, F(y))];
    M.CodeAtSplit(prog, vm.ip, [M.LoadImm(r, F(x))], [M.LoadImm(q, F(y))]);
    M.StepLoadImm(prog, vm, r, F(x));
    M.RunOne(prog, vm);
    var v1 := M.Step(prog, vm).vm;
    M.StepLoadImm(prog, v1, q, F(y));
    M.RunMore(prog, M.Next(vm), 1, v1);
  }

  function TriangleSteps(p: Profile, peak: real): nat
    requires p.Valid() && p.Moves()
  {
    HalfIsPositive(p, peak);
    7 + |Axes(p)| + LoopSteps(Axes(p), 2 * HalfCycles(p, peak))
  }

  lemma TriangleLayout(p: Profile, peak: real)
    requires p.Valid() && p.Moves()
    ensures var axes, half, prog := Axes(p), HalfCycles(p, peak), TriangleCode(p, peak);
            var at := 7 + |axes|;
            && half > 0
            && M.CodeAt(prog, 0, Constants(p))
            && M.CodeAt(prog, 3, [M.LoadImm(VEL, F(0.0)), M.LoadImm(VSTEP, F(peak / half as real))])
            && M.CodeAt(prog, 5, StartCode(p, axes))
            && M.CodeAt(prog, 5 + |axes|, [M.LoadImm(COUNTER, F(Wrap(U32, 2 * half) as real)),
                                           M.LoadImm(RATIO, F(half as real))])
            && M.CodeAt(prog, at, TriangleLoop(axes, at)) && |prog| == at + |TriangleLoop(axes, at)|
  {
    hide M.CodeAt; hide Axes; hide StartCode; hide TriangleLoop; hide HalfCycles; hide Wrap;
    HalfIsPositive(p, peak);
    var axes, half, prog := Axes(p), HalfCycles(p, peak), TriangleCode(p, peak);
    var a, b := Constants(p), [M.LoadImm(VEL, F(0.0)), M.LoadImm(VSTEP, F(peak / half as real))];
    var c := StartCode(p, axes);
    var d := [M.LoadImm(COUNTER, F(Wrap(U32, 2 * half) as real)), M.LoadImm(RATIO, F(half as real))];
    assert |a| == 3;
    WholeCode(prog);
    M.CodeAtSplit(prog, 0, a + b + c + d, TriangleLoop(axes, |a + b + c + d|));
    M.CodeAtSplit(prog, 0, a + b + c, d);
    M.CodeAtSplit(prog, 0, a + b, c);
    M.CodeAtSplit(prog, 0, a, b);
  }

  /** Constants, speed and speed step. */
  lemma SpeedSet(prog: seq<M.Instruction>, p: Profile, dv: real, vm: M.Vm) returns (out: M.Vm)
    requires vm.ip == 0 && M.CodeAt(prog, 0, Constants(p))
    requires M.CodeAt(prog, 3, [M.LoadImm(VEL, F(0.0)), M.LoadImm(VSTEP, F(dv))])
    ensures M.Run(prog, M.Next(vm), 5) == M.Next(out) && out.ip == 5
    ensures Constant(out, p.dt) && out.regs[VEL] == F(0.0) && out.regs[VSTEP] == F(dv)
  {
    RegistersThere();
    hide *;
    ConstantsRun(prog, p, vm);
    var v0 := M.Run(prog, M.Next(vm), 3).vm;
    TwoLoads(prog, v0, VEL, 0.0, VSTEP, dv);
    out := M.Run(prog, M.Next(v0), 2).vm;
    ConstantKept(v0, out, p.dt, dv);
    M.RunSplit(prog, M.Next(vm), 3, 2);
  }

  /** Positions, counter and the half count. */
  lemma StartsSet(prog: seq<M.Instruction>, p: Profile, axes: seq<Axis>, dv: real, total: real, half: real, vm: M.Vm)
    returns (out: M.Vm)
    requires Separate(axes) && M.CodeAt(prog, vm.ip, StartCode(p, axes))
    requires M.CodeAt(prog, vm.ip + |axes|, [M.LoadImm(COUNTER, F(total)), M.LoadImm(RATIO, F(half))])
    requires Constant(vm, p.dt) && vm.regs[VEL] == F(0.0) && vm.regs[VSTEP] == F(dv)
    ensures M.Run(prog, M.Next(vm), |axes| + 2) == M.Next(out) && out.ip == vm.ip + |axes| + 2
    ensures LoopState(out, axes, p.dt, dv, 0.0, total, StartPositions(p, axes))
  {
    RegistersThere();
    hide *;
    StartsRun(prog, p, axes, vm);
    StartsLeave(prog, p, axes, vm);
    var v2 := M.Run(prog, M.Next(vm), |axes|).vm;
    TwoLoads(prog, v2, COUNTER, total, RATIO, half);
    out := M.Run(prog, M.Next(v2), 2).vm;
    Ready(v2, out, axes, p.dt, dv, total, half, StartPositions(p, axes));
    M.RunSplit(prog, M.Next(vm), |axes|, 2);
  }

  /** Everything is in place at the top of the loop. */
  lemma Prepared(p: Profile, peak: real, vm: M.Vm) returns (out: M.Vm)
    requires p.Valid() && p.Moves() && HalfCycles(p, peak) < 0x8000_0000 && vm.ip == 0
    ensures var axes, half := Axes(p), HalfCycles(p, peak);
            && half > 0 && M.Run(TriangleCode(p, peak), M.Next(vm), 7 + |axes|) == M.Next(out) && out.ip == 7 + |axes|
            && LoopState(out, axes, p.dt, peak / half as real, 0.0, (2 * half) as real, StartPositions(p, axes))
  {
    hide *;
    TriangleLayout(p, peak);
    AxesSeparate(p);
    var prog, axes, half := TriangleCode(p, peak), Axes(p), HalfCycles(p, peak);
    TotalFits(half);
    var v1 := SpeedSet(prog, p, peak / half as real, vm);
    out := StartsSet(prog, p, axes, peak / half as real, (2 * half) as real, half as real, v1);
    M.RunSplit(prog, M.Next(vm), 5, |axes| + 2);
  }

  lemma RegistersThere()
    ensures VEL < M.REGISTER_COUNT && VSTEP < M.REGISTER_COUNT && COUNTER < M.REGISTER_COUNT && RATIO < M.REGISTER_COUNT
  {
  }

  /** The whole move, from any machine at instruction 0: it ends behind its last instruction, and
      has moved every axis by its ratio times the travel of a ramp that goes down from zero. */
  lemma TriangleRuns(p: Profile, peak: real, vm: M.Vm)
    requires p.Valid() && p.Moves() && HalfCycles(p, peak) < 0x8000_0000 && vm.ip == 0
    ensures var prog, axes, half := TriangleCode(p, peak), Axes(p), HalfCycles(p, peak);
            var out := M.Run(prog, M.Next(vm), TriangleSteps(p, peak));
            && half > 0 && out.Next? && out.vm.ip == |prog|
            && Published(out.vm, axes, MotionLoop.Moved(StartPositions(p, axes), axes,
                                                        Travel(Decelerate, 0.0, peak / half as real, p.dt, 2 * half)))
  {
    hide *;
    TriangleLayout(p, peak);
    StepsOfTriangle(p, peak);
    var prog, axes, half := TriangleCode(p, peak), Axes(p), HalfCycles(p, peak);
    var v := Prepared(p, peak, vm);
    RatiosAreShares(p, |axes| - 1);
    var out := WholeLoopRuns(prog, axes, 7 + |axes|, v, p.dt, peak / half as real, 2 * half, StartPositions(p, axes));
    M.RunSplit(prog, M.Next(vm), 7 + |axes|, LoopSteps(axes, 2 * half));
  }

  lemma StepsOfTriangle(p: Profile, peak: real)
    requires p.Valid() && p.Moves()
    ensures HalfCycles(p, peak) > 0 && Axes(p) != []
    ensures TriangleSteps(p, peak) == 7 + |Axes(p)| + LoopSteps(Axes(p), 2 * HalfCycles(p, peak))
  {
    HalfIsPositive(p, peak);
    hide Axes; hide LoopSteps; hide HalfCycles;
  }

  lemma TotalFits(half: nat)
    requires half < 0x8000_0000
    ensures Wrap(U32, 2 * half) == 2 * half
  {
  }

  lemma ConstantKept(v0: M.Vm, v1: M.Vm, dt: real, dv: real)
    requires Constant(v0, dt) && v1 == v0.(regs := v0.regs[VEL := F(0.0)][VSTEP := F(dv)], ip := v0.ip + 2)
    ensures Constant(v1, dt) && v1.regs[VEL] == F(0.0) && v1.regs[VSTEP] == F(dv)
  {
  }

  lemma Ready(v2: M.Vm, v3: M.Vm, axes: seq<Axis>, dt: real, dv: real, total: real, half: real, pos: seq<real>)
    requires Constant(v2, dt) && v2.regs[VEL] == F(0.0) && v2.regs[VSTEP] == F(dv) && Positions(v2, axes, pos)
    requires v3 == v2.(regs := v2.regs[COUNTER := F(total)][RATIO := F(half)], ip := v2.ip + 2)
    ensures LoopState(v3, axes, dt, dv, 0.0, total, pos)
  {
    RegsSeparate(axes);
  }

  // ----- where it ends -----

  /** Slowing down from standstill over n updates. */
  lemma {:induction false} DownFromZero(dv: real, dt: real, n: nat)
    ensures 2.0 * Travel(Decelerate, 0.0, dv, dt, n) == -((n * (n - 1)) as real) * (dv * dt)
  {
    if n > 0 {
      DownFromZero(dv, dt, n - 1);
      SpeedIs(Decelerate, 0.0, dv, n - 1);
      var m, s := (n - 1) as real, dv * dt;
      assert Speed(Decelerate, 0.0, dv, n - 1) * dt == -m * s;
      assert (n * (n - 1)) as real == ((n - 1) * (n - 2)) as real + 2.0 * m;
    }
  }

  /** How far the move goes back: the distance of all its cycles but half a cycle each way. */
  function Back(p: Profile, peak: real): real
    requires p.Valid()
  {
    (2.0 * (HalfCycles(p, peak) as real) - 1.0) * (peak * p.dt)
  }

  lemma TravelIsBack(p: Profile, peak: real)
    requires p.Valid()
    ensures HalfCycles(p, peak) > 0
    ensures var half := HalfCycles(p, peak);
            Travel(Decelerate, 0.0, peak / half as real, p.dt, 2 * half) == -Back(p, peak)
  {
    HalfIsPositive(p, peak);
    var half := HalfCycles(p, peak);
    hide HalfCycles; hide Travel;
    DownFromZero(peak / half as real, p.dt, 2 * half);
    BackOf(half, peak, peak / half as real, p.dt);
  }

  lemma BackOf(half: nat, peak: real, dv: real, dt: real)
    requires half > 0 && dv == peak / half as real
    ensures ((2 * half * (2 * half - 1)) as real) * (dv * dt) == 2.0 * ((2.0 * (half as real) - 1.0) * (peak * dt))
  {
    var h := half as real;
    assert dv * h == peak;
    assert (2 * half * (2 * half - 1)) as real == 2.0 * h * (2.0 * h - 1.0);
    Regroup(h, dv, dt, 2.0 * h - 1.0, peak);
  }

  lemma Regroup(h: real, dv: real, dt: real, m: real, peak: real)
    requires dv * h == peak
    ensures 2.0 * h * m * (dv * dt) == 2.0 * (m * (peak * dt))
  {
    assert h * (dv * dt) == peak * dt;
    assert 2.0 * h * m * (dv * dt) == 2.0 * m * (h * (dv * dt));
  }

  lemma HalfReaches(p: Profile, peak: real)
    requires p.Valid() && peak >= 0.0 && HalfCycles(p, peak) < 0x8000_0000
    ensures var h := HalfCycles(p, peak) as real;
            && peak / p.acceleration / p.dt <= h && h >= 1.0
            && (peak > 0.0 ==> h < peak / p.acceleration / p.dt + 1.0)
  {
    var q := peak / p.acceleration / p.dt;
    CeilBounds(q);
    if peak > 0.0 {
      DivMul(peak, p.acceleration);
      DivMul(peak / p.acceleration, p.dt);
    }
  }

  /** It goes back by twice the length of the move, up to one cycle at the peak speed. */
  lemma BackBounds(p: Profile, peak: real)
    requires p.Valid() && p.Moves() && peak >= 0.0 && peak * peak == p.distance * p.acceleration
    requires HalfCycles(p, peak) < 0x8000_0000
    ensures p.distance <= Back(p, peak)
    ensures 2.0 * p.distance - peak * p.dt <= Back(p, peak) < 2.0 * p.distance + peak * p.dt
  {
    HalfReaches(p, peak);
    var h, q := HalfCycles(p, peak) as real, peak / p.acceleration / p.dt;
    assert Back(p, peak) == (2.0 * h - 1.0) * (peak * p.dt);
    PeakIsPositive(p, peak);
    QuotientTimes(p, peak, q);
    hide *;
    CyclesCover(h, q, peak * p.dt, p.distance);
  }

  lemma CyclesCover(h: real, q: real, step: real, distance: real)
    requires q <= h < q + 1.0 && h >= 1.0 && step > 0.0 && q * step == distance
    ensures distance <= (2.0 * h - 1.0) * step
    ensures 2.0 * distance - step <= (2.0 * h - 1.0) * step < 2.0 * distance + step
  {
    var d := h - q;
    PartOfStep(d, step);
    Expanded(q, d, step);
    MulMonotone(1.0, q + d, step);
    Between(distance, d * step, step, (2.0 * (q + d) - 1.0) * step);
    assert q + d == h;
  }

  lemma PartOfStep(d: real, step: real)
    requires 0.0 <= d < 1.0 && step > 0.0
    ensures 0.0 <= d * step < step
  {
    assert step - d * step == (1.0 - d) * step;
  }

  lemma Expanded(q: real, d: real, step: real)
    ensures (q + d) * step == q * step + d * step
    ensures (2.0 * (q + d) - 1.0) * step == 2.0 * (q * step) + 2.0 * (d * step) - step
  {
  }

  lemma Between(distance: real, e: real, step: real, m: real)
    requires 0.0 <= e < step && m == 2.0 * distance + 2.0 * e - step && distance + e >= step
    ensures distance <= m && 2.0 * distance - step <= m < 2.0 * distance + step
  {
  }

  lemma PeakIsPositive(p: Profile, peak: real)
    requires p.Valid() && p.Moves() && peak >= 0.0 && peak * peak == p.distance * p.acceleration
    ensures peak > 0.0 && peak * p.dt > 0.0
  {
    assert p.distance * p.acceleration > 0.0;
    assert peak * peak > 0.0;
    if peak == 0.0 { assert false; }
  }

  lemma QuotientTimes(p: Profile, peak: real, q: real)
    requires p.Valid() && peak * peak == p.distance * p.acceleration && q == peak / p.acceleration / p.dt
    ensures q * (peak * p.dt) == p.distance
  {
    DivMul(peak, p.acceleration);
    DivMul(peak / p.acceleration, p.dt);
    var t := peak / p.acceleration;
    assert q * p.dt == t && t * p.acceleration == peak;
    assert q * (peak * p.dt) == t * peak by { assert q * (peak * p.dt) == q * p.dt * peak; }
    assert t * peak * p.acceleration == peak * peak by {
      assert t * peak * p.acceleration == t * p.acceleration * peak;
    }
    Cancel(t * peak, p.distance, p.acceleration);
  }

  /** The published end is at least the whole displacement behind the start. */
  predicate EndsBehind(vm: M.Vm, sig: string, start: real, d: real) {
    && sig in vm.signals && vm.signals[sig].Float?
    && var e := vm.signals[sig].r;
       (d > 0.0 ==> e <= start - d) && (d < 0.0 ==> e >= start - d) && (d == 0.0 ==> e == start)
  }

  lemma BehindBy(back: real, distance: real, ratio: real, d: real, start: real, e: real)
    requires distance > 0.0 && back >= distance && ratio * distance == d && e == start + Times(-back, ratio)
    ensures (d > 0.0 ==> e <= start - d) && (d < 0.0 ==> e >= start - d) && (d == 0.0 ==> e == start)
  {
    SignOf(ratio, distance);
    assert Times(-back, ratio) == -(back * ratio);
    if d > 0.0 { MulMonotone(distance, back, ratio); }
    if d < 0.0 {
      MulMonotone(distance, back, -ratio);
      assert back * -ratio == -(back * ratio) && distance * -ratio == -(distance * ratio);
    }
  }

  /** Every move too short to cruise ends on the wrong side: each axis that moves has published an
      end that is as far behind its start as it should be before it, or farther. */
  lemma TriangleGoesBackwards(p: Profile, peak: real, vm: M.Vm)
    requires p.Valid() && p.Moves() && peak >= 0.0 && peak * peak == p.distance * p.acceleration
    requires HalfCycles(p, peak) < 0x8000_0000 && vm.ip == 0
    ensures var out := M.Run(TriangleCode(p, peak), M.Next(vm), TriangleSteps(p, peak));
            && out.Next? && EndsBehind(out.vm, "axis.0.pos", p.startX, p.dx)
            && (p.dy > 0.000000001 || p.dy < -0.000000001 ==> EndsBehind(out.vm, "axis.1.pos", p.startY, p.dy))
            && (p.dz > 0.000000001 || p.dz < -0.000000001 ==> EndsBehind(out.vm, "axis.2.pos", p.startZ, p.dz))
  {
    hide M.Run; hide TriangleCode; hide TriangleSteps; hide Travel; hide Back; hide EndsBehind; hide Published;
    hide MotionLoop.Moved; hide HalfCycles; hide Axes; hide StartPositions; hide Abs;
    TriangleRuns(p, peak, vm);
    TravelIsBack(p, peak);
    BackBounds(p, peak);
    AllBehind(p, M.Run(TriangleCode(p, peak), M.Next(vm), TriangleSteps(p, peak)).vm, Back(p, peak));
  }

  lemma AllBehind(p: Profile, vm: M.Vm, back: real)
    requires p.Moves() && back >= p.distance
    requires var axes := Axes(p); Published(vm, axes, MotionLoop.Moved(StartPositions(p, axes), axes, -back))
    ensures EndsBehind(vm, "axis.0.pos", p.startX, p.dx)
    ensures p.dy > 0.000000001 || p.dy < -0.000000001 ==> EndsBehind(vm, "axis.1.pos", p.startY, p.dy)
    ensures p.dz > 0.000000001 || p.dz < -0.000000001 ==> EndsBehind(vm, "axis.2.pos", p.startZ, p.dz)
  {
    hide Axes; hide Published; hide EndsBehind; hide StartPositions; hide MotionLoop.Moved; hide Covers; hide Uses;
    AxesExactly(p);
    OneAxisBehind(p, vm, POS_X, "axis.0.pos", p.dx, p.startX, back);
    if p.dy > 0.000000001 || p.dy < -0.000000001 {
      OneAxisBehind(p, vm, POS_Y, "axis.1.pos", p.dy, p.startY, back);
    }
    if p.dz > 0.000000001 || p.dz < -0.000000001 {
      OneAxisBehind(p, vm, POS_Z, "axis.2.pos", p.dz, p.startZ, back);
    }
  }

  lemma OneAxisBehind(p: Profile, vm: M.Vm, reg: nat, sig: string, d: real, start: real, back: real)
    requires p.Moves() && Covers(p, reg, sig, d) && p.distance >= 0.000000001 && back >= p.distance
    requires var axes := Axes(p); Published(vm, axes, MotionLoop.Moved(StartPositions(p, axes), axes, -back))
    requires reg == POS_X || reg == POS_Y || reg == POS_Z
    requires start == if reg == POS_X then p.startX else if reg == POS_Y then p.startY else p.startZ
    ensures EndsBehind(vm, sig, start, d)
  {
    hide Axes; hide Times; hide Published; hide StartPositions; hide MotionLoop.Moved; hide StartOf;
    var axes := Axes(p);
    var i :| 0 <= i < |axes| && axes[i].reg == reg && axes[i].sig == sig && axes[i].ratio * p.distance == d;
    PositionIs(p, vm, axes, i, -back);
    StartIs(p, axes[i]);
    BehindBy(back, p.distance, axes[i].ratio, d, start, start + Times(-back, axes[i].ratio));
  }
}
