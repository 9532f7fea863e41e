/**
 The driver loop, `simulate`.

 The loop runs its counter over `range(1, num_steps)`, so it performs
 num_steps - 1 update cycles when num_steps is at least 1, and none otherwise; a
 request for one step returns the starting system untouched.
 */
module Simulator {
  import opened Bodies
  import opened Kinematics

  /** The state after `k` update cycles from `system`. */
  function Cycles(system: System, dt: real, k: nat, acc: Accel): (r: System)
    ensures |r| == |system|
    ensures Masses(r) == Masses(system)
    decreases k
  {
    if k == 0 then system else Update(Cycles(system, dt, k - 1, acc), dt, acc)
  }

  /** The number of iterations of `for i in range(1, num_steps)`. */
  function StepCount(numSteps: int): (n: nat)
    ensures numSteps <= 1 ==> n == 0
    ensures numSteps >= 1 ==> n + 1 == numSteps
  {
    if numSteps <= 1 then 0 else numSteps - 1
  }

  /** `simulate`: the loop of the source, applying `update` once per iteration. The
      result is the state after num_steps - 1 cycles; a count of at most one leaves
      the system as it was, and the bodies keep their number and their masses. */
  method Simulate(system: System, dt: real, numSteps: int, acc: Accel) returns (r: System)
    ensures r == Cycles(system, dt, StepCount(numSteps), acc)
    ensures numSteps <= 1 ==> r == system
    ensures |r| == |system| && Masses(r) == Masses(system)
  {
    r := system;
    var i := 1;
    while i < numSteps
      invariant 1 <= i && (numSteps >= 1 ==> i <= numSteps)
      invariant numSteps <= 1 ==> i == 1
      invariant r == Cycles(system, dt, i - 1, acc)
      decreases numSteps - i
    {
      r := Update(r, dt, acc);
      i := i + 1;
    }
  }

  /** Running one cycle first and then k more is the same as running k + 1. */
  lemma {:induction false} CyclesShift(system: System, dt: real, k: nat, acc: Accel)
    ensures Cycles(Update(system, dt, acc), dt, k, acc) == Cycles(system, dt, k + 1, acc)
    decreases k
  {
    if k > 0 {
      CyclesShift(system, dt, k - 1, acc);
    }
  }

  /** Cycles compose: j cycles followed by k cycles are j + k cycles. */
  lemma {:induction false} CyclesCompose(system: System, dt: real, j: nat, k: nat, acc: Accel)
    ensures Cycles(Cycles(system, dt, j, acc), dt, k, acc) == Cycles(system, dt, j + k, acc)
    decreases k
  {
    if k > 0 {
      CyclesCompose(system, dt, j, k - 1, acc);
    }
  }

  /** One more requested step is one more update, applied either after the shorter
      run or before it, whenever at least one step was requested. */
  lemma SimulateStep(system: System, dt: real, numSteps: int, acc: Accel)
    requires numSteps >= 1
    ensures Cycles(system, dt, StepCount(numSteps + 1), acc) ==
              Update(Cycles(system, dt, StepCount(numSteps), acc), dt, acc)
    ensures Cycles(system, dt, StepCount(numSteps + 1), acc) ==
              Cycles(Update(system, dt, acc), dt, StepCount(numSteps), acc)
  {
    CyclesShift(system, dt, StepCount(numSteps), acc);
  }

  /** With a zero time step any number of cycles leaves the system unchanged. */
  lemma {:induction false} CyclesZeroStep(system: System, k: nat, acc: Accel)
    ensures Cycles(system, 0.0, k, acc) == system
    decreases k
  {
    if k > 0 {
      CyclesZeroStep(system, k - 1, acc);
      ZeroStepIsIdentity(system, acc);
    }
  }

  /** The time covered by k steps of length dt, accumulated one step at a time. */
  function Elapsed(dt: real, k: nat): (t: real)
    ensures dt >= 0.0 ==> t >= 0.0
    decreases k
  {
    if k == 0 then 0.0 else Elapsed(dt, k - 1) + dt
  }

  /** The accumulated time is k * dt. */
  lemma {:induction false} ElapsedIsProduct(dt: real, k: nat)
    ensures Elapsed(dt, k) == (k as real) * dt
    decreases k
  {
    if k > 0 {
      ElapsedIsProduct(dt, k - 1);
      StepsTimesLength(k - 1, dt, Elapsed(dt, k - 1));
    }
  }

  /** (k + 1) * dt == k * dt + dt. */
  lemma StepsTimesLength(k: nat, dt: real, t: real)
    ensures t == (k as real) * dt ==> t + dt == ((k + 1) as real) * dt
  {
  }

  /** t * v + dt * v == (t + dt) * v, for one coordinate. */
  lemma DriftCoordinate(p: real, v: real, t: real, dt: real)
    ensures (p + t * v) + dt * v == p + (t + dt) * v
  {
  }

  /** Drifting for t and then for dt is drifting for t + dt. */
  lemma DriftVector(p: Vec2, v: Vec2, t: real, dt: real)
    ensures Add(Add(p, Scale(t, v)), Scale(dt, v)) == Add(p, Scale(t + dt, v))
  {
    var lhs := Add(Add(p, Scale(t, v)), Scale(dt, v));
    var rhs := Add(p, Scale(t + dt, v));
    assert lhs.0 == (p.0 + t * v.0) + dt * v.0 && lhs.1 == (p.1 + t * v.1) + dt * v.1;
    assert rhs.0 == p.0 + (t + dt) * v.0 && rhs.1 == p.1 + (t + dt) * v.1;
    DriftCoordinate(p.0, v.0, t, dt);
    DriftCoordinate(p.1, v.1, t, dt);
  }

  /** Without acceleration, k cycles move every body in a straight line: its
      velocity never changes and its position advances by the elapsed time
      (k * dt, by ElapsedIsProduct) times that velocity. */
  lemma {:induction false} FreeCycles(system: System, dt: real, k: nat, acc: Accel)
    requires forall b, s :: acc(b, s) == Zero
    ensures forall i :: 0 <= i < |system| ==>
              Cycles(system, dt, k, acc)[i] ==
                Body(system[i].mass, Add(system[i].pos, Scale(Elapsed(dt, k), system[i].vel)),
                     system[i].vel)
    decreases k
  {
    if k == 0 {
      forall i | 0 <= i < |system|
        ensures Cycles(system, dt, 0, acc)[i] ==
                  Body(system[i].mass, Add(system[i].pos, Scale(0.0, system[i].vel)),
                       system[i].vel)
      {
      }
    } else {
      FreeCycles(system, dt, k - 1, acc);
      var prev := Cycles(system, dt, k - 1, acc);
      FreeUpdate(prev, dt, acc);
      forall i | 0 <= i < |system|
        ensures Cycles(system, dt, k, acc)[i] ==
                  Body(system[i].mass, Add(system[i].pos, Scale(Elapsed(dt, k), system[i].vel)),
                       system[i].vel)
      {
        DriftVector(system[i].pos, system[i].vel, Elapsed(dt, k - 1), dt);
      }
    }
  }
}
