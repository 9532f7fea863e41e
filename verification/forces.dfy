/**
 The pairwise force rule of `calculate_force`.

 Each axis is treated on its own: the x component is G * m1 * m2 divided by the
 square of the x separation, and is zero when the two bodies share an x coordinate;
 likewise for y. The components carry no sign, so the rule has no attractive
 direction and the force on A from B equals the force on B from A.
 */
module Forces {
  import opened Bodies

  /** The gravitational constant of the stepper, 6.6743e-11. */
  const G: real := 0.000000000066743

  /** A square is positive away from zero. */
  lemma SquareSign(d: real)
    ensures d != 0.0 ==> d * d > 0.0
  {
  }

  /** One axis of the rule, for separation `d` along that axis: zero when the
      squared separation is zero, otherwise the inverse-square law. */
  function AxisForce(m1: real, m2: real, d: real): (f: real)
    ensures d == 0.0 ==> f == 0.0
    ensures d != 0.0 ==> f * (d * d) == G * m1 * m2
  {
    if d * d != 0.0 then
      G * m1 * m2 / (d * d)
    else
      SquareSign(d);
      0.0
  }

  /** The force exerted on `b1` by `b2`, as the pair (force_x, force_y). */
  function CalculateForce(b1: Body, b2: Body): (f: Vec2)
    ensures b1.pos.0 == b2.pos.0 ==> f.0 == 0.0
    ensures b1.pos.1 == b2.pos.1 ==> f.1 == 0.0
    ensures b1.pos.0 != b2.pos.0 ==>
              f.0 * ((b1.pos.0 - b2.pos.0) * (b1.pos.0 - b2.pos.0)) == G * b1.mass * b2.mass
    ensures b1.pos.1 != b2.pos.1 ==>
              f.1 * ((b1.pos.1 - b2.pos.1) * (b1.pos.1 - b2.pos.1)) == G * b1.mass * b2.mass
  {
    (AxisForce(b1.mass, b2.mass, b1.pos.0 - b2.pos.0),
     AxisForce(b1.mass, b2.mass, b1.pos.1 - b2.pos.1))
  }

  /** With positive masses an axis component is never negative, and it is strictly
      positive exactly when the separation along that axis is nonzero. */
  lemma AxisForceSign(m1: real, m2: real, d: real)
    requires m1 > 0.0 && m2 > 0.0
    ensures AxisForce(m1, m2, d) >= 0.0
    ensures AxisForce(m1, m2, d) > 0.0 <==> d != 0.0
  {
    SquareSign(d);
  }

  /** The x component depends only on the masses and the x coordinates, and the
      y component only on the masses and the y coordinates. */
  lemma ForceAxesIndependent(a: Body, b: Body, a': Body, b': Body)
    requires a.mass == a'.mass && b.mass == b'.mass
    ensures a.pos.0 == a'.pos.0 && b.pos.0 == b'.pos.0 ==>
              CalculateForce(a, b).0 == CalculateForce(a', b').0
    ensures a.pos.1 == a'.pos.1 && b.pos.1 == b'.pos.1 ==>
              CalculateForce(a, b).1 == CalculateForce(a', b').1
  {
  }

  /** With positive masses every component is non-negative, and it is strictly
      positive exactly when the bodies differ on that axis. */
  lemma ForceSign(a: Body, b: Body)
    requires a.mass > 0.0 && b.mass > 0.0
    ensures CalculateForce(a, b).0 >= 0.0 && CalculateForce(a, b).1 >= 0.0
    ensures CalculateForce(a, b).0 > 0.0 <==> a.pos.0 != b.pos.0
    ensures CalculateForce(a, b).1 > 0.0 <==> a.pos.1 != b.pos.1
  {
    AxisForceSign(a.mass, b.mass, a.pos.0 - b.pos.0);
    AxisForceSign(a.mass, b.mass, a.pos.1 - b.pos.1);
  }

  /** The rule is symmetric in its two bodies. */
  lemma ForceSymmetric(a: Body, b: Body)
    ensures CalculateForce(a, b) == CalculateForce(b, a)
  {
  }

  /** Newton's third law fails: with positive masses and distinct x coordinates the
      x forces on the two bodies are equal and positive, so they do not cancel. */
  lemma ForceNotAntisymmetric(a: Body, b: Body)
    requires a.mass > 0.0 && b.mass > 0.0
    requires a.pos.0 != b.pos.0
    ensures CalculateForce(a, b).0 + CalculateForce(b, a).0 > 0.0
  {
    ForceSymmetric(a, b);
    ForceSign(a, b);
  }

  /** Two bodies sharing an x coordinate but not a y coordinate feel no x force and
      a positive y force, however far apart they are. */
  lemma SharedAxisDropsComponent(a: Body, b: Body)
    requires a.mass > 0.0 && b.mass > 0.0
    requires a.pos.0 == b.pos.0 && a.pos.1 != b.pos.1
    ensures CalculateForce(a, b).0 == 0.0 && CalculateForce(a, b).1 > 0.0
  {
    ForceSign(a, b);
  }
}
