/**
 The state a gravity stepper works on: point masses in the plane.

 A body is a value (mass, position, velocity); a system is an ordered sequence of
 bodies. Every quantity is an exact real number: the stepper's arithmetic is only
 addition, multiplication, division and comparison, so no rounding is modelled.
 */
module Bodies {

  /** A plane vector (x, y): used for positions, velocities, forces and accelerations. */
  type Vec2 = (real, real)

  /** A point mass. The source stores it as the tuple (mass, position, velocity). */
  datatype Body = Body(mass: real, pos: Vec2, vel: Vec2)

  /** A system is an ordered collection of bodies; order only fixes iteration. */
  type System = seq<Body>

  const Zero: Vec2 := (0.0, 0.0)

  function Add(a: Vec2, b: Vec2): Vec2 {
    (a.0 + b.0, a.1 + b.1)
  }

  function Scale(k: real, v: Vec2): Vec2 {
    (k * v.0, k * v.1)
  }

  /** The masses of a system, in order. */
  function Masses(s: System): (ms: seq<real>)
    ensures |ms| == |s|
    ensures forall i :: 0 <= i < |s| ==> ms[i] == s[i].mass
  {
    seq(|s|, i requires 0 <= i < |s| => s[i].mass)
  }
}
