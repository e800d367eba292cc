/** Running the emitted motion loops: exact iteration counts, the travel they add up to,
    and how far it can overshoot. */
module MotionRun {
  import opened HalValues
  import opened Motion

  // ----- speeds and travel -----

  function NextSpeed(phase: Phase, vel: real, dv: real): real {
    match phase case Accelerate => vel + dv case Cruise => vel case Decelerate => vel - dv
  }

  /** Speed of the update after `k` updates. */
  function Speed(phase: Phase, v: real, dv: real, k: nat): real {
    if k == 0 then StartSpeed(phase, v) else NextSpeed(phase, Speed(phase, v, dv, k - 1), dv)
  }

  /** Distance covered by the first `k` updates of a phase. */
  function Travel(phase: Phase, v: real, dv: real, dt: real, k: nat): real {
    if k == 0 then 0.0 else Travel(phase, v, dv, dt, k - 1) + Speed(phase, v, dv, k - 1) * dt
  }

  lemma {:induction false} SpeedIs(phase: Phase, v: real, dv: real, k: nat)
    ensures Speed(phase, v, dv, k) ==
            match phase case Accelerate => (k as real) * dv case Cruise => v case Decelerate => v - (k as real) * dv
  {
    if k > 0 {
      SpeedIs(phase, v, dv, k - 1);
      assert (k as real) * dv == ((k - 1) as real) * dv + dv;
    }
  }

  /** The ramps of a move mirror each other: together they cover exactly n·v·dt. */
  lemma {:induction false} RampsCombine(v: real, dv: real, dt: real, n: nat)
    ensures Travel(Accelerate, v, dv, dt, n) + Travel(Decelerate, v, dv, dt, n) == (n as real) * v * dt
  {
    if n > 0 {
      RampsCombine(v, dv, dt, n - 1);
      SpeedIs(Accelerate, v, dv, n - 1);
      SpeedIs(Decelerate, v, dv, n - 1);
      var s := ((n - 1) as real) * dv;
      assert s * dt + (v - s) * dt == v * dt;
      assert (n as real) * v * dt == ((n - 1) as real) * v * dt + v * dt;
    }
  }

  lemma {:induction false} CruiseTravels(v: real, dv: real, dt: real, m: nat)
    ensures Travel(Cruise, v, dv, dt, m) == (m as real) * v * dt
  {
    if m > 0 {
      CruiseTravels(v, dv, dt, m - 1);
      SpeedIs(Cruise, v, dv, m - 1);
      assert (m as real) * v * dt == ((m - 1) as real) * v * dt + v * dt;
    }
  }

  /** Distance of the whole move. */
  function TotalTravel(p: Profile): real
    requires p.Valid()
  {
    var v, dv := p.Target(), p.Dv();
    Travel(Accelerate, v, dv, p.dt, RampCycles(p)) + Travel(Cruise, v, dv, p.dt, CruiseCycles(p)) +
    Travel(Decelerate, v, dv, p.dt, RampCycles(p))
  }

  /** Neither cycle count is cut off at 32 bits. */
  predicate CountsFit(p: Profile)
    requires p.Valid()
  {
    && Ceil(p.Target() / p.acceleration / p.dt) <= IntMax(U32)
    && Ceil(p.CruiseDistance() / p.Target() / p.dt) <= IntMax(U32)
  }

  lemma CeilBounds(x: real)
    ensures (Ceil(x) as real) - 1.0 < x <= Ceil(x) as real
  {
  }

  lemma CyclesAre(x: real)
    requires x > 0.0 && Ceil(x) <= IntMax(U32)
    ensures ToU32(Ceil(x) as real) == Ceil(x) && Ceil(x) >= 1
  {
    CeilBounds(x);
  }

  lemma DivMul(x: real, y: real)
    requires y > 0.0
    ensures (x / y) * y == x
    ensures x > 0.0 ==> x / y > 0.0
  {
  }

  /** If c is the quotient d / step rounded up, c steps cover d and overshoot by less than one. */
  lemma RoundedUp(d: real, step: real, q: real, c: int)
    requires step > 0.0 && q * step == d && (c as real) - 1.0 < q <= c as real
    ensures d <= (c as real) * step < d + step
  {
    var x := (c as real) - q;
    assert (c as real) * step == q * step + x * step;
    MulMonotone(0.0, x, step);
    StrictMul(x, 1.0, step);
  }

  lemma RampBounds(p: Profile)
    requires p.Valid() && CountsFit(p)
    ensures var v, n := p.Target(), RampCycles(p);
            n >= 1 && v <= (n as real) * p.Dv() < v + p.Dv()
  {
    var v := p.Target();
    var q := v / p.acceleration / p.dt;
    DivMul(v, p.acceleration);
    DivMul(v / p.acceleration, p.dt);
    CeilBounds(q);
    CyclesAre(q);
    assert q * p.Dv() == v by {
      assert q * (p.acceleration * p.dt) == (q * p.dt) * p.acceleration;
    }
    assert p.Dv() > 0.0;
    RoundedUp(v, p.Dv(), q, Ceil(q));
  }

  lemma CruiseBounds(p: Profile)
    requires p.Valid() && CountsFit(p) && p.CruiseDistance() > 0.0
    ensures var v, m, d := p.Target(), CruiseCycles(p), p.CruiseDistance();
            m >= 1 && d <= (m as real) * (v * p.dt) < d + v * p.dt
  {
    var v, d := p.Target(), p.CruiseDistance();
    var q := d / v / p.dt;
    DivMul(d, v);
    DivMul(d / v, p.dt);
    CeilBounds(q);
    CyclesAre(q);
    assert q * (v * p.dt) == d by {
      assert q * (v * p.dt) == (q * p.dt) * v;
    }
    assert v * p.dt > 0.0;
    RoundedUp(d, v * p.dt, q, Ceil(q));
  }

  /** Every position update uses a speed between standstill and the target speed. */
  lemma SpeedsBounded(p: Profile, phase: Phase, k: nat)
    requires p.Valid() && CountsFit(p) && (phase.Cruise? || k < RampCycles(p))
    ensures 0.0 <= Speed(phase, p.Target(), p.Dv(), k) <= p.Target()
  {
    hide *;
    var v, dv := p.Target(), p.Dv();
    SpeedIs(phase, v, dv, k);
    if !phase.Cruise? {
      RampBounds(p);
      DvPositive(p);
      RampSpeed(k, RampCycles(p), v, dv);
    }
  }

  lemma DvPositive(p: Profile)
    requires p.Valid()
    ensures p.Dv() > 0.0
  {
  }

  lemma RampSpeed(k: nat, n: nat, v: real, dv: real)
    requires k < n && dv > 0.0 && (n as real) * dv < v + dv
    ensures 0.0 <= (k as real) * dv < v
  {
    KMonotone(k, n - 1, dv);
    KMonotone(0, k, dv);
    assert ((n - 1) as real) * dv == (n as real) * dv - dv;
  }

  lemma KMonotone(k: nat, n: nat, dv: real)
    requires k <= n && dv > 0.0
    ensures (k as real) * dv <= (n as real) * dv
  {
    assert ((n - k) as real) * dv >= 0.0;
    assert (n as real) * dv == (k as real) * dv + ((n - k) as real) * dv;
  }

  /** What one cycle at the target speed covers. */
  function Step(p: Profile): real { p.Target() * p.dt }

  function RampPart(p: Profile): real
    requires p.Valid()
  {
    (RampCycles(p) as real) * Step(p)
  }

  function CruisePart(p: Profile): real
    requires p.Valid()
  {
    (CruiseCycles(p) as real) * Step(p)
  }

  /** Distance that ideal ramps take. */
  function IdealRamps(p: Profile): real
    requires p.Valid()
  {
    p.Target() * p.Target() / p.acceleration
  }

  /** The total travel in closed form; it is never short of the distance and overshoots it
      by less than two cruise steps. */
  lemma TravelBound(p: Profile)
    requires p.Valid() && CountsFit(p) && p.CruiseDistance() > 0.0
    ensures TotalTravel(p) == ((RampCycles(p) + CruiseCycles(p)) as real) * Step(p)
    ensures p.distance <= TotalTravel(p) < p.distance + 2.0 * Step(p)
  {
    hide *;
    TotalIs(p);
    RampPartBounds(p);
    CruisePartBounds(p);
    CruiseIs(p);
  }

  lemma RampPartBounds(p: Profile)
    requires p.Valid() && CountsFit(p)
    ensures IdealRamps(p) <= RampPart(p) < IdealRamps(p) + Step(p)
  {
    hide RampCycles; hide CountsFit; hide CruiseCycles;
    RampBounds(p);
    RampDistance(p.Target(), p.acceleration, p.dt, RampCycles(p));
  }

  lemma CruisePartBounds(p: Profile)
    requires p.Valid() && CountsFit(p) && p.CruiseDistance() > 0.0
    ensures p.CruiseDistance() <= CruisePart(p) < p.CruiseDistance() + Step(p)
  {
    hide RampCycles; hide CountsFit; hide CruiseCycles;
    CruiseBounds(p);
  }

  lemma TotalIs(p: Profile)
    requires p.Valid()
    ensures TotalTravel(p) == RampPart(p) + CruisePart(p)
    ensures TotalTravel(p) == ((RampCycles(p) + CruiseCycles(p)) as real) * Step(p)
  {
    hide RampCycles; hide CruiseCycles; hide Travel;
    var v, dv, n, m := p.Target(), p.Dv(), RampCycles(p), CruiseCycles(p);
    RampsCombine(v, dv, p.dt, n);
    CruiseTravels(v, dv, p.dt, m);
    Distribute(n, m, v, p.dt);
  }

  lemma Distribute(n: nat, m: nat, v: real, dt: real)
    ensures (n as real) * v * dt == (n as real) * (v * dt) && (m as real) * v * dt == (m as real) * (v * dt)
    ensures ((n + m) as real) * (v * dt) == (n as real) * (v * dt) + (m as real) * (v * dt)
  {
  }

  /** Rounded-up ramp cycles at full speed cover v²/a, within one step. */
  lemma RampDistance(v: real, a: real, dt: real, n: nat)
    requires v > 0.0 && a > 0.0 && dt > 0.0 && v <= (n as real) * (a * dt) < v + a * dt
    ensures v * v / a <= (n as real) * (v * dt) < v * v / a + v * dt
  {
    var x := (n as real) * (v * dt);
    assert x * a == (n as real) * (a * dt) * v;
    assert v * v <= x * a by { MulMonotone(v, (n as real) * (a * dt), v); }
    assert x * a < v * v + a * dt * v by {
      StrictMul((n as real) * (a * dt), v + a * dt, v);
      assert (v + a * dt) * v == v * v + a * dt * v;
    }
    DivMul(v * v, a);
    var s := v * v / a;
    assert s * a == v * v;
    assert s * a <= x * a;
    if x < s { StrictMul(x, s, a); assert false; }
    assert (s + v * dt) * a == v * v + a * dt * v;
    if x >= s + v * dt { MulMonotone(s + v * dt, x, a); assert false; }
  }

  lemma MulMonotone(x: real, y: real, z: real)
    requires x <= y && z > 0.0
    ensures x * z <= y * z
  {
    assert y * z - x * z == (y - x) * z;
  }

  lemma StrictMul(x: real, y: real, z: real)
    requires x < y && z > 0.0
    ensures x * z < y * z
  {
    assert y * z - x * z == (y - x) * z;
  }

  lemma CruiseIs(p: Profile)
    requires p.Valid()
    ensures p.CruiseDistance() == p.distance - IdealRamps(p)
  {
    var v, a := p.Target(), p.acceleration;
    var t := v / a;
    DivMul(v, a);
    assert a * t * t == t * v;
    assert (t * v) * a == v * v;
    DivMul(v * v, a);
    Cancel(t * v, v * v / a, a);
  }

  lemma Cancel(x: real, y: real, z: real)
    requires z > 0.0 && x * z == y * z
    ensures x == y
  {
    if x < y { StrictMul(x, y, z); assert false; }
    if y < x { StrictMul(y, x, z); assert false; }
  }
}
