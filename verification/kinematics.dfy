/**
 One update cycle: `update_velocity` followed by `update`.

 The acceleration of a body is a parameter `acc(body, snapshot)`: the source's own
 `calculate_acceleration` does not run (it hands the whole system to the pairwise
 force rule), so every property here holds for any acceleration rule.

 Velocities are updated first, all of them against the one pre-step system; then
 every position is advanced with its body's NEW velocity (semi-implicit Euler).
 */
module Kinematics {
  import opened Bodies

  /** An acceleration rule: the acceleration of a body within a system snapshot. */
  type Accel = (Body, System) -> Vec2

  /** The velocity step of one body, against the given snapshot. */
  function Kick(b: Body, snapshot: System, dt: real, acc: Accel): Body {
    Body(b.mass, b.pos, Add(b.vel, Scale(dt, acc(b, snapshot))))
  }

  /** The loop of `update_velocity`: the bodies still to visit are `pending`, and
      every acceleration is taken against the fixed `snapshot`, never against the
      list being built. */
  function KickEach(pending: System, snapshot: System, dt: real, acc: Accel): (r: System)
    ensures |r| == |pending|
    ensures forall i :: 0 <= i < |pending| ==>
              r[i].mass == pending[i].mass && r[i].pos == pending[i].pos &&
              r[i].vel == Add(pending[i].vel, Scale(dt, acc(pending[i], snapshot)))
    decreases |pending|
  {
    if |pending| == 0 then []
    else [Kick(pending[0], snapshot, dt, acc)] + KickEach(pending[1..], snapshot, dt, acc)
  }

  /** `update_velocity`: entry i keeps its mass and position, and its velocity gains
      dt times its acceleration in the ORIGINAL system. */
  function UpdateVelocity(system: System, dt: real, acc: Accel): (r: System)
    ensures |r| == |system|
    ensures forall i :: 0 <= i < |system| ==>
              r[i].mass == system[i].mass && r[i].pos == system[i].pos &&
              r[i].vel == Add(system[i].vel, Scale(dt, acc(system[i], system)))
  {
    KickEach(system, system, dt, acc)
  }

  /** The position step of one body, with the velocity it already carries. */
  function Drift(b: Body, dt: real): Body {
    Body(b.mass, Add(b.pos, Scale(dt, b.vel)), b.vel)
  }

  /** The loop of `update`, over the bodies still to visit. */
  function DriftEach(pending: System, dt: real): (r: System)
    ensures |r| == |pending|
    ensures forall i :: 0 <= i < |pending| ==>
              r[i].mass == pending[i].mass && r[i].vel == pending[i].vel &&
              r[i].pos == Add(pending[i].pos, Scale(dt, pending[i].vel))
    decreases |pending|
  {
    if |pending| == 0 then []
    else [Drift(pending[0], dt)] + DriftEach(pending[1..], dt)
  }

  /** `update`: one full cycle. Entry i keeps its mass, takes the velocity that
      `update_velocity` gives it, and moves by dt times that NEW velocity. */
  function Update(system: System, dt: real, acc: Accel): (r: System)
    ensures |r| == |system|
    ensures Masses(r) == Masses(system)
    ensures forall i :: 0 <= i < |system| ==>
              r[i].mass == system[i].mass &&
              r[i].vel == UpdateVelocity(system, dt, acc)[i].vel &&
              r[i].pos == Add(system[i].pos, Scale(dt, r[i].vel))
  {
    DriftEach(UpdateVelocity(system, dt, acc), dt)
  }

  /** p + dt * (v + dt * a) == (p + dt * v) + dt^2 * a, for one coordinate. */
  lemma ExpandCoordinate(p: real, v: real, a: real, dt: real)
    ensures p + dt * (v + dt * a) == (p + dt * v) + (dt * dt) * a
  {
  }

  /** The same identity for plane vectors. */
  lemma StepExpansion(p: Vec2, v: Vec2, a: Vec2, dt: real)
    ensures Add(p, Scale(dt, Add(v, Scale(dt, a)))) == Add(Add(p, Scale(dt, v)), Scale(dt * dt, a))
  {
    var lhs := Add(p, Scale(dt, Add(v, Scale(dt, a))));
    var rhs := Add(Add(p, Scale(dt, v)), Scale(dt * dt, a));
    assert lhs.0 == p.0 + dt * (v.0 + dt * a.0) && lhs.1 == p.1 + dt * (v.1 + dt * a.1);
    assert rhs.0 == (p.0 + dt * v.0) + (dt * dt) * a.0 && rhs.1 == (p.1 + dt * v.1) + (dt * dt) * a.1;
    ExpandCoordinate(p.0, v.0, a.0, dt);
    ExpandCoordinate(p.1, v.1, a.1, dt);
  }

  /** Semi-implicit Euler in closed form: the new position is the old one plus
      dt * v + dt^2 * a, where v is the old velocity and a the acceleration in the
      pre-step system; plain explicit Euler would have no dt^2 term. */
  lemma UpdateClosedForm(system: System, dt: real, acc: Accel, i: nat)
    requires i < |system|
    ensures Update(system, dt, acc)[i].vel ==
              Add(system[i].vel, Scale(dt, acc(system[i], system)))
    ensures Update(system, dt, acc)[i].pos ==
              Add(Add(system[i].pos, Scale(dt, system[i].vel)),
                  Scale(dt * dt, acc(system[i], system)))
  {
    StepExpansion(system[i].pos, system[i].vel, acc(system[i], system), dt);
  }

  /** A zero time step changes nothing, velocity pass included. */
  lemma ZeroStepIsIdentity(system: System, acc: Accel)
    ensures UpdateVelocity(system, 0.0, acc) == system
    ensures Update(system, 0.0, acc) == system
  {
  }

  /** With no acceleration a cycle moves every body in a straight line at its own
      constant velocity. */
  lemma FreeUpdate(system: System, dt: real, acc: Accel)
    requires forall b, s :: acc(b, s) == Zero
    ensures |Update(system, dt, acc)| == |system|
    ensures forall i :: 0 <= i < |system| ==>
              Update(system, dt, acc)[i] ==
                Body(system[i].mass, Add(system[i].pos, Scale(dt, system[i].vel)), system[i].vel)
  {
  }
}
