/** Where a move ends: which axes it moves, and how far each of them gets. */
module MotionAxes {
  import opened HalValues
  import opened Motion
  import opened MotionRun
  import opened MotionLoop
  import M = Machine

  /** Some axis of the move keeps its position in `reg`, publishes it as `sig`, and covers `d`
      over the whole distance. */
  ghost predicate Covers(p: Profile, reg: nat, sig: string, d: real)
    requires p.Moves()
  {
    exists i :: 0 <= i < |Axes(p)| && Axes(p)[i].reg == reg && Axes(p)[i].sig == sig &&
                Axes(p)[i].ratio * p.distance == d
  }

  ghost predicate Uses(p: Profile, reg: nat)
    requires p.Moves()
  {
    exists i :: 0 <= i < |Axes(p)| && Axes(p)[i].reg == reg
  }

  /** X always moves; Y and Z move exactly when their displacement, either way, is beyond a
      millionth of a micrometre. */
  lemma AxesExactly(p: Profile)
    requires p.Moves()
    ensures p.distance >= 0.000000001
    ensures Covers(p, POS_X, "axis.0.pos", p.dx)
    ensures Covers(p, POS_Y, "axis.1.pos", p.dy) <==> p.dy > 0.000000001 || p.dy < -0.000000001
    ensures Covers(p, POS_Z, "axis.2.pos", p.dz) <==> p.dz > 0.000000001 || p.dz < -0.000000001
    ensures Uses(p, POS_Y) ==> Covers(p, POS_Y, "axis.1.pos", p.dy)
    ensures Uses(p, POS_Z) ==> Covers(p, POS_Z, "axis.2.pos", p.dz)
    ensures forall r :: Uses(p, r) ==> r == POS_X || r == POS_Y || r == POS_Z
  {
    var axes := Axes(p);
    Share(p.dx, p.distance);
    Share(p.dy, p.distance);
    Share(p.dz, p.distance);
    assert axes[0] == Axis(p.dx / p.distance, POS_X, "axis.0.pos");
    if p.dy > TINY || p.dy < -TINY { assert axes[1] == Axis(p.dy / p.distance, POS_Y, "axis.1.pos"); }
    if p.dz > TINY || p.dz < -TINY {
      assert axes[|axes| - 1] == Axis(p.dz / p.distance, POS_Z, "axis.2.pos");
    }
  }

  lemma Share(d: real, distance: real)
    requires distance > 0.0
    ensures d / distance * distance == d
  {
  }

  /** The speed of a move: the feed rate a minute, or 100 a minute without one. */
  lemma FeedIsPerMinute(p: Profile)
    ensures 60.0 * p.Target() == if p.feedrate > 0.0 then p.feedrate else 100.0
  {
  }

  /** From `start` the position `e` has passed start + d in the direction of d by less than
      d's share of two cruise steps. */
  predicate Arrives(p: Profile, start: real, d: real, e: real)
    requires p.distance > 0.0
  {
    var over := d / p.distance * (2.0 * p.Target() * p.dt);
    && (d > 0.0 ==> start + d <= e < start + d + over)
    && (d < 0.0 ==> start + d + over < e <= start + d)
    && (d == 0.0 ==> e == start)
  }

  lemma SharedTravel(p: Profile, d: real, ratio: real, total: real, start: real)
    requires p.distance > 0.0 && ratio * p.distance == d
    requires p.distance <= total < p.distance + 2.0 * Step(p)
    ensures Arrives(p, start, d, start + Times(total, ratio))
  {
    var extra := total - p.distance;
    Share(d, p.distance);
    SameQuotient(ratio, d / p.distance, p.distance);
    assert Times(total, ratio) == total * ratio == p.distance * ratio + extra * ratio;
    assert 2.0 * Step(p) == 2.0 * p.Target() * p.dt;
    var two := 2.0 * p.Target() * p.dt;
    SignOf(ratio, p.distance);
    if d > 0.0 {
      StrictMul(extra, two, ratio);
      MulMonotone(0.0, extra, ratio);
    } else if d < 0.0 {
      StrictMul(extra, two, -ratio);
      MulMonotone(0.0, extra, -ratio);
    }
  }

  lemma SameQuotient(x: real, y: real, z: real)
    requires z > 0.0 && x * z == y * z
    ensures x == y
  {
    Cancel(x, y, z);
  }

  lemma SignOf(x: real, z: real)
    requires z > 0.0
    ensures x * z > 0.0 ==> x > 0.0
    ensures x * z < 0.0 ==> x < 0.0
    ensures x * z == 0.0 ==> x == 0.0
  {
  }

  predicate PublishedAt(p: Profile, vm: M.Vm, sig: string, start: real, d: real)
    requires p.distance > 0.0
  {
    sig in vm.signals && vm.signals[sig].Float? && Arrives(p, start, d, vm.signals[sig].r)
  }

  /** After the whole move every axis it moves has published where it got, and that is its
      start plus its displacement, up to the bound. */
  lemma AxesArrive(p: Profile, vm: M.Vm)
    requires p.Valid() && p.Moves() && p.CruiseDistance() > 0.0 && CountsFit(p) && vm.ip == 0
    ensures var out := M.Run(TrapezoidCode(p), M.Next(vm), MoveSteps(p));
            && out.Next? && p.distance > 0.0
            && PublishedAt(p, out.vm, "axis.0.pos", p.startX, p.dx)
            && (p.dy > 0.000000001 || p.dy < -0.000000001 ==> PublishedAt(p, out.vm, "axis.1.pos", p.startY, p.dy))
            && (p.dz > 0.000000001 || p.dz < -0.000000001 ==> PublishedAt(p, out.vm, "axis.2.pos", p.startZ, p.dz))
  {
    hide M.Run; hide TrapezoidCode; hide MoveSteps; hide TotalTravel; hide CountsFit; hide Axes; hide PublishedAt;
    hide Arrives;
    MoveRuns(p, vm);
    TravelBound(p);
    AxesExactly(p);
    var out := M.Run(TrapezoidCode(p), M.Next(vm), MoveSteps(p)).vm;
    OneAxisArrives(p, out, POS_X, "axis.0.pos", p.dx, p.startX);
    if p.dy > 0.000000001 || p.dy < -0.000000001 {
      OneAxisArrives(p, out, POS_Y, "axis.1.pos", p.dy, p.startY);
    }
    if p.dz > 0.000000001 || p.dz < -0.000000001 {
      OneAxisArrives(p, out, POS_Z, "axis.2.pos", p.dz, p.startZ);
    }
  }

  lemma OneAxisArrives(p: Profile, vm: M.Vm, reg: nat, sig: string, d: real, start: real)
    requires p.Valid() && p.Moves() && Covers(p, reg, sig, d)
    requires var axes := Axes(p); Published(vm, axes, MotionLoop.Moved(StartPositions(p, axes), axes, TotalTravel(p)))
    requires p.distance <= TotalTravel(p) < p.distance + 2.0 * Step(p)
    requires reg == POS_X || reg == POS_Y || reg == POS_Z
    requires start == if reg == POS_X then p.startX else if reg == POS_Y then p.startY else p.startZ
    ensures PublishedAt(p, vm, sig, start, d)
  {
    hide TotalTravel; hide Axes; hide Arrives; hide Times; hide Published; hide StartPositions; hide Step;
    hide MotionLoop.Moved; hide StartOf;
    var axes := Axes(p);
    var i :| 0 <= i < |axes| && axes[i].reg == reg && axes[i].sig == sig && axes[i].ratio * p.distance == d;
    SharedTravel(p, d, axes[i].ratio, TotalTravel(p), start);
    PositionIs(p, vm, axes, i, TotalTravel(p));
    StartIs(p, axes[i]);
  }

  lemma StartIs(p: Profile, a: Axis)
    ensures a.reg == POS_X ==> StartOf(p, a) == p.startX
    ensures a.reg == POS_Y ==> StartOf(p, a) == p.startY
    ensures a.reg == POS_Z ==> StartOf(p, a) == p.startZ
  {
  }

  lemma PositionIs(p: Profile, vm: M.Vm, axes: seq<Axis>, i: nat, total: real)
    requires i < |axes| && Published(vm, axes, MotionLoop.Moved(StartPositions(p, axes), axes, total))
    ensures axes[i].sig in vm.signals
    ensures vm.signals[axes[i].sig] == F(StartOf(p, axes[i]) + Times(total, axes[i].ratio))
  {
    hide StartOf; hide Times; hide MotionLoop.Moved; hide StartPositions;
  }

  // ----- axes that stand still -----

  predicate NeverStores(code: seq<M.Instruction>, sig: string) {
    forall i :: 0 <= i < |code| ==> !M.StoresTo(code[i], sig)
  }

  lemma {:induction false} AxesCodeStores(axes: seq<Axis>, sig: string)
    requires forall i :: 0 <= i < |axes| ==> axes[i].sig != sig
    ensures NeverStores(AxesCode(axes), sig)
  {
    if axes != [] { AxesCodeStores(axes[..|axes| - 1], sig); }
  }

  lemma PhaseStores(axes: seq<Axis>, phase: Phase, v: real, dv: real, cycles: nat, at: nat, sig: string)
    requires NeverStores(AxesCode(axes), sig)
    ensures NeverStores(PhaseCode(axes, phase, v, dv, cycles, at), sig)
  {
    hide AxesCode;
  }

  lemma {:induction false} StartsStore(p: Profile, axes: seq<Axis>, sig: string)
    ensures NeverStores(StartCode(p, axes), sig)
  {
    hide StartOf;
    if axes != [] { StartsStore(p, axes[..|axes| - 1], sig); }
  }

  /** Y and Z keep their signals over any run of a move that does not move them. */
  lemma StillAxesKeep(p: Profile, vm: M.Vm, n: nat)
    requires p.Valid() && p.Moves()
    ensures var out := M.Run(TrapezoidCode(p), M.Next(vm), n);
            && (-0.000000001 <= p.dy <= 0.000000001 ==> M.KeepsSignal(out, vm.signals, "axis.1.pos"))
            && (-0.000000001 <= p.dz <= 0.000000001 ==> M.KeepsSignal(out, vm.signals, "axis.2.pos"))
  {
    hide M.Run; hide M.KeepsSignal; hide TrapezoidCode;
    if -0.000000001 <= p.dy <= 0.000000001 { NotStored(p, vm, n, "axis.1.pos"); }
    if -0.000000001 <= p.dz <= 0.000000001 { NotStored(p, vm, n, "axis.2.pos"); }
  }

  lemma NotStored(p: Profile, vm: M.Vm, n: nat, sig: string)
    requires p.Valid() && p.Moves()
    requires (sig == "axis.1.pos" && -TINY <= p.dy <= TINY) || (sig == "axis.2.pos" && -TINY <= p.dz <= TINY)
    ensures M.KeepsSignal(M.Run(TrapezoidCode(p), M.Next(vm), n), vm.signals, sig)
  {
    OtherSignals(p, sig);
    hide M.Run; hide M.KeepsSignal; hide PhaseCode; hide StartCode; hide RampCycles; hide CruiseCycles; hide AxesCode;
    hide Axes; hide M.StoresTo;
    var axes, v, dv, c, m := Axes(p), p.Target(), p.Dv(), RampCycles(p), CruiseCycles(p);
    var init := Constants(p) + StartCode(p, axes);
    var c1 := init + PhaseCode(axes, Accelerate, v, dv, c, |init|);
    var c2 := c1 + PhaseCode(axes, Cruise, v, dv, m, |c1|);
    AxesCodeStores(axes, sig);
    StartsStore(p, axes, sig);
    ConstantsStore(p, sig);
    PhaseStores(axes, Accelerate, v, dv, c, |init|, sig);
    PhaseStores(axes, Cruise, v, dv, m, |c1|, sig);
    PhaseStores(axes, Decelerate, v, dv, c, |c2|, sig);
    assert NeverStores(init, sig) && NeverStores(c1, sig) && NeverStores(c2, sig);
    assert NeverStores(TrapezoidCode(p), sig);
    M.RunKeepsSignal(TrapezoidCode(p), vm, sig, n);
  }

  lemma ConstantsStore(p: Profile, sig: string)
    ensures NeverStores(Constants(p), sig)
  {
  }

  lemma OtherSignals(p: Profile, sig: string)
    requires p.Moves()
    requires (sig == "axis.1.pos" && -TINY <= p.dy <= TINY) || (sig == "axis.2.pos" && -TINY <= p.dz <= TINY)
    ensures forall i :: 0 <= i < |Axes(p)| ==> Axes(p)[i].sig != sig
  {
    assert "axis.0.pos"[5] == '0' && "axis.1.pos"[5] == '1' && "axis.2.pos"[5] == '2';
  }

  // ----- ramps -----

  /** The speed of the ramps changes at the acceleration, and a ramp is the shortest number of
      steps that reaches the speed of the move. */
  lemma RampsAccelerate(p: Profile, k: nat)
    requires p.Valid() && CountsFit(p)
    ensures Speed(Accelerate, p.Target(), p.Dv(), k) == (k as real) * (p.acceleration * p.dt)
    ensures Speed(Decelerate, p.Target(), p.Dv(), k) == p.Target() - (k as real) * (p.acceleration * p.dt)
    ensures var n := RampCycles(p) as real;
            (n - 1.0) * (p.acceleration * p.dt) < p.Target() <= n * (p.acceleration * p.dt)
  {
    SpeedIs(Accelerate, p.Target(), p.Dv(), k);
    SpeedIs(Decelerate, p.Target(), p.Dv(), k);
    hide CountsFit; hide RampCycles;
    RampBounds(p);
    var n, dv := RampCycles(p) as real, p.acceleration * p.dt;
    assert (n - 1.0) * dv == n * dv - dv;
  }
}
