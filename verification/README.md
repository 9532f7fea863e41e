# Two-dimensional n-body gravity stepper, in Dafny

This project models `solution.py`, a small gravity stepper for point masses in the plane.
A body is a value (mass, position, velocity), and a system is an ordered sequence of bodies.
The model follows the stepper's pipeline:

- **`calculate_force`**: a pairwise force rule. Each axis is handled on its own. The x
  component is G·m1·m2 divided by the squared x separation, and it is zero when the two
  bodies share an x coordinate. The y component works the same way.
- **`calculate_net_force_on`**: sums that rule over the entries that differ from the body.
- **`update_velocity`, then `update`**: one cycle of semi-implicit Euler. Every velocity is
  updated first, against the pre-step system. Then every position moves by dt times its
  body's new velocity.
- **`simulate`**: repeats the update cycle. Its loop runs over `range(1, num_steps)`.

All quantities are exact reals (`real`). The source only adds, multiplies, divides and
compares, so no rounding is modelled.

Modules, one per stage:

| file | module | models |
|---|---|---|
| `bodies.dfy` | `Bodies` | bodies, systems, plane-vector addition and scaling |
| `forces.dfy` | `Forces` | `calculate_force` |
| `net_force.dfy` | `NetForce` | `calculate_net_force_on` |
| `kinematics.dfy` | `Kinematics` | `update_velocity`, `update` |
| `simulator.dfy` | `Simulator` | `simulate` |

Behaviour the model follows because the code does it, even where a Newtonian
description would say otherwise:

- **The force rule has no direction.** Both components are non-negative for positive
  masses. The rule is symmetric: the force on A from B equals the force on B from A. So
  the forces of a pair do not cancel (Newton's third law fails). Three colinear unit
  masses do not balance either: the middle body is pushed by (2G, 0).
- **The net force compares bodies by value.** It skips every entry *equal* to the body,
  including a distinct body that happens to have the same mass, position and velocity.
- **A body with no differing entry gets no result at all.** When every entry of the
  system equals the body, the result variable is never assigned. Python then raises an
  unbound-local error instead of returning a zero vector. The model returns
  `NetForceResult.Unbound` in exactly that case.
- **`simulate` runs one cycle fewer than it is asked for.** It performs num_steps − 1
  cycles, and none when num_steps ≤ 1.

The source's `calculate_acceleration` cannot run: it passes the whole system where
`calculate_force` expects one body. So the velocity step takes the acceleration rule as a
parameter `acc(body, snapshot)`. Every property of `Kinematics` and `Simulator` holds for
any such rule.

## Model

| member | source | states |
|---|---|---|
| `Forces.AxisForce` | solution.py:28-35 | One axis of the force. It is zero when the separation on that axis is zero; otherwise force × separation² = G·m1·m2, the inverse-square law. |
| `Forces.CalculateForce` | solution.py:25-37 | The force on body1 from body2, per axis. A component is zero when the two bodies share that coordinate; otherwise it times the squared coordinate difference equals G·m1·m2. |
| `Forces.AxisForceSign` | solution.py:28-35 | With positive masses an axis component is never negative. It is strictly positive exactly when the separation on that axis is nonzero. |
| `Forces.ForceAxesIndependent` | solution.py:28-35 | The x component depends only on the masses and the x coordinates; the y component only on the masses and the y coordinates. |
| `Forces.ForceSign` | solution.py:25-37 | With positive masses both components are non-negative. Each is positive exactly when the bodies differ on that axis. |
| `Forces.ForceSymmetric` | solution.py:25-37 | The rule is symmetric: the force on a from b equals the force on b from a. |
| `Forces.ForceNotAntisymmetric` | solution.py:25-37 | Take positive masses and distinct x coordinates. The x forces the two bodies feel from each other add up to a positive value, so they never cancel. |
| `Forces.SharedAxisDropsComponent` | solution.py:28-35 | Take two positive masses on a common vertical line at different heights. They feel no x force and a positive y force, however far apart they are. |
| `NetForce.SumOthers` | solution.py:43-49 | The reference sum over the entries that differ from the body, in system order. When no entry differs, it is zero. |
| `NetForce.SumOthersLoop` | solution.py:42-51 | The single accumulation loop, for any pairwise rule. The result is unbound exactly when no entry differs from the body; otherwise it is the reference sum. |
| `NetForce.CalculateNetForceOn` | solution.py:40-51 | `calculate_net_force_on` fails (unbound) exactly when every entry equals the body. Otherwise it returns the sum of `calculate_force` over the entries that differ. |
| `NetForce.SumOthersAppend` | solution.py:43-47 | The sum over a concatenation is the sum of the two parts' sums. |
| `NetForce.SumOthersSingle` | solution.py:43-49 | A one-entry system contributes that entry's force, or zero when the entry equals the body. |
| `NetForce.SumOthersSkipsCopies` | solution.py:44-49 | Inserting a copy of the body anywhere in the system leaves the net force unchanged. |
| `NetForce.SumOthersPermutation` | solution.py:43-47 | The net force does not depend on the order of the system: permutations give equal sums. |
| `NetForce.SumOthersPair` | solution.py:40-51 | In a system of two distinct entries, each one feels exactly the other's pairwise force. |
| `NetForce.TwoBodyNetForcesEqual` | solution.py:40-51 | In a two-body system both bodies feel the same net force, namely `calculate_force(a, b)`, instead of opposite ones. |
| `NetForce.ColinearMiddleNotBalanced` | solution.py:40-51 | Three unit masses at x = 0, 1, 2: the net force on the middle one is (2G, 0), not zero. |
| `Kinematics.KickEach` | solution.py:74-82 | The velocity loop keeps length, and each entry's mass and position. Each velocity gains dt times that body's acceleration in the fixed snapshot, never in the partly built list. |
| `Kinematics.UpdateVelocity` | solution.py:72-82 | Same length. Entry i keeps its mass and position, and its velocity becomes old velocity + dt·acc(body i, original system). |
| `Kinematics.DriftEach` | solution.py:89-97 | The position loop keeps length, masses and velocities. Each position moves by dt times the velocity the body carries. |
| `Kinematics.Update` | solution.py:87-97 | One cycle. Entry i keeps its mass, takes the velocity `update_velocity` gives it, and moves by dt times that new velocity. Masses are preserved as a sequence. |
| `Kinematics.UpdateClosedForm` | solution.py:87-97 | In terms of the pre-step state, the new position is pos + dt·vel + dt²·acc and the new velocity is vel + dt·acc. This dt² term is what makes the scheme semi-implicit. |
| `Kinematics.ZeroStepIsIdentity` | solution.py:72-97 | With dt = 0 both `update_velocity` and `update` return the system unchanged. |
| `Kinematics.FreeUpdate` | solution.py:87-97 | With zero acceleration, a cycle keeps every velocity and moves every body by dt times its velocity. |
| `Simulator.Cycles` | solution.py:102-103 | k repeated update cycles keep the number of bodies and their masses. |
| `Simulator.StepCount` | solution.py:102 | `range(1, num_steps)` runs num_steps − 1 times when num_steps ≥ 1, and zero times otherwise. |
| `Simulator.Simulate` | solution.py:99-104 | `simulate` returns the state after StepCount(num_steps) cycles. With num_steps ≤ 1 it returns the input unchanged. It keeps the number of bodies and their masses. |
| `Simulator.CyclesShift` | solution.py:102-103 | One cycle followed by k more equals k + 1 cycles. |
| `Simulator.CyclesCompose` | solution.py:102-103 | j cycles followed by k cycles equal j + k cycles. |
| `Simulator.SimulateStep` | solution.py:99-104 | For num_steps ≥ 1, asking for one more step adds one update cycle. The result equals an update applied after the shorter run, and equally the shorter run started from the updated system. |
| `Simulator.CyclesZeroStep` | solution.py:99-104 | With dt = 0, any number of cycles leaves the system unchanged, so `simulate` is then the identity. |
| `Simulator.ElapsedIsProduct` | solution.py:102-103 | The time accumulated by k steps of length dt is k·dt. |
| `Simulator.FreeCycles` | solution.py:99-104 | With zero acceleration, after k cycles every body keeps its velocity and sits at pos + (k·dt)·vel: uniform straight-line motion. |

## Left out

- `calculate_acceleration` (solution.py:59-65) is not modelled. It passes the whole system list to `calculate_force`, which then indexes the list as if it were a body, so it does not compute an acceleration. The velocity step takes the acceleration rule as a parameter instead.
- `calculate_distance` (solution.py:13-22) is not modelled. It needs a square root, and nothing in the stepper calls it.
- Floating-point rounding, overflow, and the inf or NaN values that a zero mass would produce are not modelled; all arithmetic is exact over the reals. Masses are not required to be positive. Only the sign lemmas assume positive masses.
- The module-level example data and the `print` call (solution.py:6-11 and 66-70) are not modelled. That call would fail when the module is imported, because it goes through `calculate_acceleration`.
- `simulate_with_visualization` (solution.py:106-108) and the `__main__` block (solution.py:110-111) are not modelled: both bodies are `pass`.
- The order of Python's operands is not modelled: `dt * a + v` in the velocity step and `v * dt` in the position step. Over the reals, the model's `v + dt·a` and `dt·v` are equal to them.
- Two things are not modelled separately: `update_velocity` calling the acceleration twice per body (once per axis), and `simulate` copying the input list. The acceleration is a pure function of its inputs, so both calls agree; the model's systems are values, so the copy changes nothing.
- Python's distinction between the integer `0` and the float `0.0` in the force's zero branches is not modelled.
- NetForce.CalculateNetForceOn: the case where no entry differs from the body is reported as `Unbound` rather than raised as an exception, and a program that would go on to use the missing value is not modelled.
