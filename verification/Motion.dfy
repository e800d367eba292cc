/** Trapezoidal motion: the loops emitted for acceleration, cruise and deceleration, run on
    the register machine over real numbers. */
module Motion {
  import opened HalValues
  import M = Machine

  const COUNTER: nat := 0
  const POS_X: nat := 1
  const POS_Y: nat := 2
  const POS_Z: nat := 3
  const ZERO: nat := 4
  const ONE: nat := 5
  const VEL: nat := 6
  const VSTEP: nat := 7
  const TSTEP: nat := 8
  const RATIO: nat := 9
  const AXIS_STEP: nat := 10
  const DT: nat := 11

  const TINY: real := 0.000000001

  function F(x: real): HalValue { Float(F64, x) }

  function Abs(x: real): real { if x < 0.0 then -x else x }

  /** A move: `distance` is the length of the displacement. */
  datatype Profile = Profile(dx: real, dy: real, dz: real, distance: real, feedrate: real, acceleration: real, dt: real,
                             startX: real, startY: real, startZ: real)
  {
    predicate Valid() {
      && distance >= 0.0 && distance * distance == dx * dx + dy * dy + dz * dz
      && acceleration > 0.0 && dt > 0.0
    }

    predicate Moves() { distance >= TINY }

    /** Millimetres per second; 100 a minute when none is given. */
    function Target(): (v: real)
      ensures v > 0.0
    {
      (if feedrate > 0.0 then feedrate else 100.0) / 60.0
    }

    /** What is left between the two ramps. */
    function CruiseDistance(): real
      requires acceleration > 0.0
    {
      var t := Target() / acceleration;
      distance - 2.0 * (0.5 * acceleration * t * t)
    }

    function Dv(): real { acceleration * dt }
  }

  /** Rust's conversion of a float to u32 saturates. */
  function ToU32(x: real): nat {
    if x < 0.0 then 0 else if x.Floor > IntMax(U32) then IntMax(U32) else x.Floor
  }

  function Ceil(x: real): int { -((-x).Floor) }

  function RampCycles(p: Profile): nat
    requires p.Valid()
  {
    ToU32(Ceil(p.Target() / p.acceleration / p.dt) as real)
  }

  function CruiseCycles(p: Profile): nat
    requires p.Valid()
  {
    ToU32(Ceil(p.CruiseDistance() / p.Target() / p.dt) as real)
  }

  // ----- emitted code -----

  datatype Axis = Axis(ratio: real, reg: nat, sig: string)

  /** X always, Y and Z when they move. */
  function Axes(p: Profile): seq<Axis>
    requires p.Moves()
  {
    [Axis(p.dx / p.distance, POS_X, "axis.0.pos")] +
    (if Abs(p.dy) > TINY then [Axis(p.dy / p.distance, POS_Y, "axis.1.pos")] else []) +
    (if Abs(p.dz) > TINY then [Axis(p.dz / p.distance, POS_Z, "axis.2.pos")] else [])
  }

  function AxisCode(a: Axis): seq<M.Instruction> {
    [M.LoadImm(RATIO, F(a.ratio)), M.Arith3(M.Mul, TSTEP, RATIO, AXIS_STEP), M.Arith3(M.Add, a.reg, AXIS_STEP, a.reg),
     M.StoreSig(a.sig, a.reg)]
  }

  function AxesCode(axes: seq<Axis>): (r: seq<M.Instruction>)
    ensures |r| == 4 * |axes|
  {
    if axes == [] then [] else AxesCode(axes[..|axes| - 1]) + AxisCode(axes[|axes| - 1])
  }

  datatype Phase = Accelerate | Cruise | Decelerate

  function SpeedCode(phase: Phase): seq<M.Instruction> {
    match phase
    case Accelerate => [M.Arith3(M.Add, VEL, VSTEP, VEL)]
    case Cruise => []
    case Decelerate => [M.Arith3(M.Sub, VEL, VSTEP, VEL)]
  }

  function LoopCode(axes: seq<Axis>, phase: Phase, start: nat): seq<M.Instruction> {
    [M.Arith3(M.Mul, VEL, DT, TSTEP)] + AxesCode(axes) + SpeedCode(phase) +
    [M.Arith3(M.Sub, COUNTER, ONE, COUNTER), M.Cmp2(M.Gt, COUNTER, ZERO), M.JumpIfTo(start)]
  }

  function StartSpeed(phase: Phase, v: real): real { if phase.Accelerate? then 0.0 else v }

  /** One phase at address `at`; nothing for a phase without cycles. */
  function PhaseCode(axes: seq<Axis>, phase: Phase, v: real, dv: real, cycles: nat, at: nat): seq<M.Instruction> {
    if cycles == 0 then []
    else
      [M.LoadImm(VSTEP, F(dv)), M.LoadImm(VEL, F(StartSpeed(phase, v))), M.LoadImm(COUNTER, F(cycles as real))] +
      LoopCode(axes, phase, at + 3)
  }

  function StartOf(p: Profile, a: Axis): real {
    if a.reg == POS_X then p.startX else if a.reg == POS_Y then p.startY else p.startZ
  }

  function StartCode(p: Profile, axes: seq<Axis>): (r: seq<M.Instruction>)
    ensures |r| == |axes|
  {
    if axes == [] then []
    else StartCode(p, axes[..|axes| - 1]) + [M.LoadImm(axes[|axes| - 1].reg, F(StartOf(p, axes[|axes| - 1])))]
  }

  function Constants(p: Profile): seq<M.Instruction> {
    [M.LoadImm(DT, F(p.dt)), M.LoadImm(ZERO, F(0.0)), M.LoadImm(ONE, F(1.0))]
  }

  /** The program of a move with a cruise phase. */
  function TrapezoidCode(p: Profile): seq<M.Instruction>
    requires p.Valid() && p.Moves()
  {
    var axes, v, dv, n, m := Axes(p), p.Target(), p.Dv(), RampCycles(p), CruiseCycles(p);
    var init := Constants(p) + StartCode(p, axes);
    var c1 := init + PhaseCode(axes, Accelerate, v, dv, n, |init|);
    var c2 := c1 + PhaseCode(axes, Cruise, v, dv, m, |c1|);
    c2 + PhaseCode(axes, Decelerate, v, dv, n, |c2|)
  }

  /** Cycles of half a triangular move, with speed `peak` at its top. */
  function HalfCycles(p: Profile, peak: real): nat
    requires p.Valid()
  {
    var c := Ceil(peak / p.acceleration / p.dt) as real;
    ToU32(if c < 1.0 then 1.0 else c)
  }

  /** The loop of a triangular move: one loop for both ramps, its speed going up or down by a
      comparison of the counter with the register that was loaded with the half count. */
  function TriangleLoop(axes: seq<Axis>, start: nat): seq<M.Instruction> {
    var down := start + 4 * |axes| + 5;
    [M.Arith3(M.Mul, VEL, DT, TSTEP)] + AxesCode(axes) +
    [M.Cmp2(M.Gt, COUNTER, RATIO), M.JumpIfTo(down), M.Arith3(M.Add, VEL, VSTEP, VEL), M.JumpTo(down + 1),
     M.Arith3(M.Sub, VEL, VSTEP, VEL)] +
    [M.Arith3(M.Sub, COUNTER, ONE, COUNTER), M.Cmp2(M.Gt, COUNTER, ZERO), M.JumpIfTo(start)]
  }

  function TriangleStart(p: Profile, peak: real, half: nat): seq<M.Instruction>
    requires p.Moves() && half > 0
  {
    Constants(p) + [M.LoadImm(VEL, F(0.0)), M.LoadImm(VSTEP, F(peak / half as real))] + StartCode(p, Axes(p)) +
    [M.LoadImm(COUNTER, F(Wrap(U32, 2 * half) as real)), M.LoadImm(RATIO, F(half as real))]
  }

  /** The program of a move too short to cruise. */
  function TriangleCode(p: Profile, peak: real): seq<M.Instruction>
    requires p.Valid() && p.Moves()
  {
    HalfIsPositive(p, peak);
    var init := TriangleStart(p, peak, HalfCycles(p, peak));
    init + TriangleLoop(Axes(p), |init|)
  }

  lemma HalfIsPositive(p: Profile, peak: real)
    requires p.Valid()
    ensures 1 <= HalfCycles(p, peak) <= IntMax(U32)
  {
  }

  // ----- the emitters -----

  method EmitAxisStep(instructions0: seq<M.Instruction>, ratio: real, posReg: nat,
                      sig: string) returns (instructions: seq<M.Instruction>)
    ensures instructions == instructions0 + AxisCode(Axis(ratio, posReg, sig))
  {
    instructions := instructions0;
    instructions := instructions + [M.LoadImm(RATIO, F(ratio))];
    instructions := instructions + [M.Arith3(M.Mul, TSTEP, RATIO, AXIS_STEP)];
    instructions := instructions + [M.Arith3(M.Add, posReg, AXIS_STEP, posReg)];
    instructions := instructions + [M.StoreSig(sig, posReg)];
  }

  method EmitAxes(instructions0: seq<M.Instruction>, p: Profile) returns (instructions: seq<M.Instruction>)
    requires p.Moves()
    ensures instructions == instructions0 + AxesCode(Axes(p))
  {
    hide AxisCode;
    AxesCodeOf(p);
    instructions := EmitAxisStep(instructions0, p.dx / p.distance, POS_X, "axis.0.pos");
    if Abs(p.dy) > TINY {
      instructions := EmitAxisStep(instructions, p.dy / p.distance, POS_Y, "axis.1.pos");
    }
    if Abs(p.dz) > TINY {
      instructions := EmitAxisStep(instructions, p.dz / p.distance, POS_Z, "axis.2.pos");
    }
  }

  lemma AxesCodeOf(p: Profile)
    requires p.Moves()
    ensures AxesCode(Axes(p)) ==
            AxisCode(Axis(p.dx / p.distance, POS_X, "axis.0.pos")) +
            (if Abs(p.dy) > TINY then AxisCode(Axis(p.dy / p.distance, POS_Y, "axis.1.pos")) else []) +
            (if Abs(p.dz) > TINY then AxisCode(Axis(p.dz / p.distance, POS_Z, "axis.2.pos")) else [])
  {
    hide AxesCode; hide AxisCode; hide Abs;
    ThreeAxes(Axis(p.dx / p.distance, POS_X, "axis.0.pos"), Axis(p.dy / p.distance, POS_Y, "axis.1.pos"),
              Axis(p.dz / p.distance, POS_Z, "axis.2.pos"), Abs(p.dy) > TINY, Abs(p.dz) > TINY);
  }

  lemma ThreeAxes(x: Axis, y: Axis, z: Axis, my: bool, mz: bool)
    ensures AxesCode([x] + (if my then [y] else []) + (if mz then [z] else [])) ==
            AxisCode(x) + (if my then AxisCode(y) else []) + (if mz then AxisCode(z) else [])
  {
    hide *;
    AxesCodePush([], x);
    AxesCodePush([x], y);
    AxesCodePush([x], z);
    AxesCodePush([x] + [y], z);
    var cx, cy, cz := AxisCode(x), AxisCode(y), AxisCode(z);
    if my && mz {
      assert [x] + [y] + [z] == [x] + (if my then [y] else []) + (if mz then [z] else []);
      assert cx + cy + cz == [] + cx + cy + cz;
    } else if my {
      assert [x] + [y] == [x] + (if my then [y] else []) + (if mz then [z] else []);
      assert cx + cy == cx + (if my then cy else []) + (if mz then cz else []);
    } else if mz {
      assert [x] + [z] == [x] + (if my then [y] else []) + (if mz then [z] else []);
      assert cx + cz == cx + (if my then cy else []) + (if mz then cz else []);
    } else {
      assert [x] == [x] + (if my then [y] else []) + (if mz then [z] else []);
      assert cx == cx + (if my then cy else []) + (if mz then cz else []);
    }
  }

  lemma AxesCodePush(axes: seq<Axis>, a: Axis)
    ensures AxesCode(axes + [a]) == AxesCode(axes) + AxisCode(a)
    ensures AxesCode([]) == [] && [] + [a] == [a]
  {
    hide AxisCode;
    assert (axes + [a])[..|axes|] == axes;
  }

  method EmitProfilePhase(instructions0: seq<M.Instruction>, p: Profile, cycles: nat, v: real, isAccel: bool,
                          isDecel: bool)
    returns (instructions: seq<M.Instruction>)
    requires p.Moves() && !(isAccel && isDecel)
    ensures var phase := if isAccel then Accelerate else if isDecel then Decelerate else Cruise;
            instructions == instructions0 + PhaseCode(Axes(p), phase, v, p.Dv(), cycles, |instructions0|)
  {
    hide AxesCode; hide Axes;
    instructions := instructions0;
    if cycles == 0 { return; }
    ghost var phase := if isAccel then Accelerate else if isDecel then Decelerate else Cruise;
    var dv, vStart := p.acceleration * p.dt, if isAccel then 0.0 else v;
    assert dv == p.Dv() && vStart == StartSpeed(phase, v);
    instructions := instructions + [M.LoadImm(VSTEP, F(dv))];
    instructions := instructions + [M.LoadImm(VEL, F(vStart))];
    instructions := instructions + [M.LoadImm(COUNTER, F(cycles as real))];
    ghost var before := instructions;
    assert before == instructions0 + [M.LoadImm(VSTEP, F(dv)), M.LoadImm(VEL, F(vStart)),
                                      M.LoadImm(COUNTER, F(cycles as real))];
    var loopStart := |instructions|;
    instructions := instructions + [M.Arith3(M.Mul, VEL, DT, TSTEP)];
    instructions := EmitAxes(instructions, p);
    if isAccel {
      instructions := instructions + [M.Arith3(M.Add, VEL, VSTEP, VEL)];
    } else if isDecel {
      instructions := instructions + [M.Arith3(M.Sub, VEL, VSTEP, VEL)];
    }
    instructions := instructions + [M.Arith3(M.Sub, COUNTER, ONE, COUNTER)];
    instructions := instructions + [M.Cmp2(M.Gt, COUNTER, ZERO)];
    instructions := instructions + [M.JumpIfTo(loopStart)];
    assert instructions == before + LoopCode(Axes(p), phase, loopStart);
  }

  function NopInstr(): M.Instruction { M.Instruction(M.Nop, []) }

  function OtherStarts(p: Profile): seq<M.Instruction> {
    (if Abs(p.dy) > TINY then [M.LoadImm(POS_Y, F(p.startY))] else []) +
    (if Abs(p.dz) > TINY then [M.LoadImm(POS_Z, F(p.startZ))] else [])
  }

  /** The choice between speeding up and slowing down, its jumps patched behind it, and the end of
      the loop. */
  method EmitSwitch(before: seq<M.Instruction>, loopStart: nat) returns (instructions: seq<M.Instruction>)
    ensures var down := |before| + 4;
            instructions == before +
            [M.Cmp2(M.Gt, COUNTER, RATIO), M.JumpIfTo(down), M.Arith3(M.Add, VEL, VSTEP, VEL), M.JumpTo(down + 1),
             M.Arith3(M.Sub, VEL, VSTEP, VEL)] +
            [M.Arith3(M.Sub, COUNTER, ONE, COUNTER), M.Cmp2(M.Gt, COUNTER, ZERO), M.JumpIfTo(loopStart)]
  {
    instructions := before + [M.Cmp2(M.Gt, COUNTER, RATIO)];
    var jifIdx := |instructions|;
    instructions := instructions + [NopInstr()];
    instructions := instructions + [M.Arith3(M.Add, VEL, VSTEP, VEL)];
    var jumpIdx := |instructions|;
    instructions := instructions + [NopInstr()];
    var decelStart := |instructions|;
    instructions := instructions + [M.Arith3(M.Sub, VEL, VSTEP, VEL)];
    instructions := instructions[jifIdx := M.JumpIfTo(decelStart)];
    instructions := instructions[jumpIdx := M.JumpTo(decelStart + 1)];
    assert instructions == before + [M.Cmp2(M.Gt, COUNTER, RATIO), M.JumpIfTo(decelStart),
                                     M.Arith3(M.Add, VEL, VSTEP, VEL), M.JumpTo(decelStart + 1),
                                     M.Arith3(M.Sub, VEL, VSTEP, VEL)];
    instructions := instructions + [M.Arith3(M.Sub, COUNTER, ONE, COUNTER)];
    instructions := instructions + [M.Cmp2(M.Gt, COUNTER, ZERO)];
    instructions := instructions + [M.JumpIfTo(loopStart)];
  }

  method EmitOtherStarts(instructions0: seq<M.Instruction>, p: Profile) returns (instructions: seq<M.Instruction>)
    ensures instructions == instructions0 + OtherStarts(p)
  {
    hide Abs;
    instructions := instructions0;
    if Abs(p.dy) > TINY { instructions := instructions + [M.LoadImm(POS_Y, F(p.startY))]; }
    if Abs(p.dz) > TINY { instructions := instructions + [M.LoadImm(POS_Z, F(p.startZ))]; }
  }

  method EmitTriangularMotion(instructions0: seq<M.Instruction>, p: Profile, cyclesHalf: nat)
    returns (instructions: seq<M.Instruction>)
    requires p.Moves()
    ensures var init := instructions0 + OtherStarts(p) +
                        [M.LoadImm(COUNTER, F(Wrap(U32, 2 * cyclesHalf) as real)),
                         M.LoadImm(RATIO, F(cyclesHalf as real))];
            instructions == init + TriangleLoop(Axes(p), |init|)
  {
    hide AxesCode; hide Axes; hide Wrap; hide Abs; hide OtherStarts;
    instructions := EmitOtherStarts(instructions0, p);
    var total := Wrap(U32, cyclesHalf * 2);
    instructions := instructions + [M.LoadImm(COUNTER, F(total as real))];
    instructions := instructions + [M.LoadImm(RATIO, F(cyclesHalf as real))];
    ghost var init := instructions;
    var loopStart := |instructions|;
    instructions := instructions + [M.Arith3(M.Mul, VEL, DT, TSTEP)];
    instructions := EmitAxes(instructions, p);
    instructions := EmitSwitch(instructions, loopStart);
    assert instructions == init + TriangleLoop(Axes(p), loopStart);
  }

  method Triangle(instructions0: seq<M.Instruction>, p: Profile, peak: real) returns (instructions: seq<M.Instruction>)
    requires p.Valid() && p.Moves() && instructions0 == Constants(p)
    ensures instructions == TriangleCode(p, peak)
  {
    hide StartCode; hide TriangleLoop; hide Wrap; hide Constants; hide Axes; hide HalfCycles; hide Abs;
    HalfIsPositive(p, peak);
    StartCodeOf(p);
    var cyclesHalf := HalfCycles(p, peak);
    var dvAdj := peak / cyclesHalf as real;
    instructions := instructions0 + [M.LoadImm(VEL, F(0.0))];
    instructions := instructions + [M.LoadImm(VSTEP, F(dvAdj))];
    instructions := instructions + [M.LoadImm(POS_X, F(p.startX))];
    ghost var before := instructions;
    instructions := EmitTriangularMotion(instructions, p, cyclesHalf);
    assert before + OtherStarts(p) ==
           instructions0 + [M.LoadImm(VEL, F(0.0)), M.LoadImm(VSTEP, F(dvAdj))] + StartCode(p, Axes(p));
  }

  /** The standalone program of a move; `peak` is the root of distance times acceleration. */
  method GenerateProgram(p: Profile, peak: real) returns (instructions: seq<M.Instruction>)
    requires p.Valid() && peak >= 0.0 && peak * peak == p.distance * p.acceleration
    ensures instructions == if !p.Moves() then Constants(p) else if p.CruiseDistance() > 0.0 then TrapezoidCode(p)
                            else TriangleCode(p, peak)
  {
    hide PhaseCode; hide Axes; hide StartCode; hide TriangleLoop; hide Wrap;
    instructions := [M.LoadImm(DT, F(p.dt))];
    instructions := instructions + [M.LoadImm(ZERO, F(0.0))];
    instructions := instructions + [M.LoadImm(ONE, F(1.0))];
    assert instructions == Constants(p);
    if p.distance < TINY { return; }
    StartCodeOf(p);
    if p.CruiseDistance() <= 0.0 {
      instructions := Triangle(instructions, p, peak);
      return;
    }
    var cyclesAccel, cyclesCruise := RampCycles(p), CruiseCycles(p);
    var cyclesDecel := cyclesAccel;
    instructions := instructions + [M.LoadImm(POS_X, F(p.startX))];
    if Abs(p.dy) > TINY { instructions := instructions + [M.LoadImm(POS_Y, F(p.startY))]; }
    if Abs(p.dz) > TINY { instructions := instructions + [M.LoadImm(POS_Z, F(p.startZ))]; }
    assert instructions == Constants(p) + StartCode(p, Axes(p));
    instructions := EmitProfilePhase(instructions, p, cyclesAccel, p.Target(), true, false);
    instructions := EmitProfilePhase(instructions, p, cyclesCruise, p.Target(), false, false);
    instructions := EmitProfilePhase(instructions, p, cyclesDecel, p.Target(), false, true);
  }

  lemma StartCodeOf(p: Profile)
    requires p.Moves()
    ensures StartCode(p, Axes(p)) ==
            [M.LoadImm(POS_X, F(p.startX))] +
            (if Abs(p.dy) > TINY then [M.LoadImm(POS_Y, F(p.startY))] else []) +
            (if Abs(p.dz) > TINY then [M.LoadImm(POS_Z, F(p.startZ))] else [])
  {
    hide StartCode; hide Abs;
    ThreeStarts(p, Axis(p.dx / p.distance, POS_X, "axis.0.pos"), Axis(p.dy / p.distance, POS_Y, "axis.1.pos"),
                Axis(p.dz / p.distance, POS_Z, "axis.2.pos"), Abs(p.dy) > TINY, Abs(p.dz) > TINY);
  }

  lemma StartsOf(p: Profile, x: Axis, y: Axis, z: Axis)
    requires x.reg == POS_X && y.reg == POS_Y && z.reg == POS_Z
    ensures StartOf(p, x) == p.startX && StartOf(p, y) == p.startY && StartOf(p, z) == p.startZ
  {
  }

  lemma ThreeStarts(p: Profile, x: Axis, y: Axis, z: Axis, my: bool, mz: bool)
    requires x.reg == POS_X && y.reg == POS_Y && z.reg == POS_Z
    ensures StartCode(p, [x] + (if my then [y] else []) + (if mz then [z] else [])) ==
            [M.LoadImm(POS_X, F(p.startX))] + (if my then [M.LoadImm(POS_Y, F(p.startY))] else []) +
            (if mz then [M.LoadImm(POS_Z, F(p.startZ))] else [])
  {
    hide *;
    StartsOf(p, x, y, z);
    StartCodePush(p, [], x);
    StartCodePush(p, [x], y);
    StartCodePush(p, [x], z);
    StartCodePush(p, [x] + [y], z);
    var cx, cy, cz := [M.LoadImm(POS_X, F(p.startX))], [M.LoadImm(POS_Y, F(p.startY))], [M.LoadImm(POS_Z, F(p.startZ))];
    if my && mz {
      assert [x] + [y] + [z] == [x] + (if my then [y] else []) + (if mz then [z] else []);
    } else if my {
      assert [x] + [y] == [x] + (if my then [y] else []) + (if mz then [z] else []);
      assert cx + cy == cx + (if my then cy else []) + (if mz then cz else []);
    } else if mz {
      assert [x] + [z] == [x] + (if my then [y] else []) + (if mz then [z] else []);
      assert cx + cz == cx + (if my then cy else []) + (if mz then cz else []);
    } else {
      assert [x] == [x] + (if my then [y] else []) + (if mz then [z] else []);
      assert cx == cx + (if my then cy else []) + (if mz then cz else []);
    }
  }

  lemma StartCodePush(p: Profile, axes: seq<Axis>, a: Axis)
    ensures StartCode(p, axes + [a]) == StartCode(p, axes) + [M.LoadImm(a.reg, F(StartOf(p, a)))]
    ensures StartCode(p, []) == [] && [] + [a] == [a]
  {
    assert (axes + [a])[..|axes|] == axes;
  }
}
