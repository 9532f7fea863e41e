/**
 Net-force aggregation, `calculate_net_force_on`.

 The net force on a body is the component-wise sum of the pairwise forces from every
 entry of the system that differs from the body BY VALUE. An entry equal to the body
 (the body itself, or a distinct body with the same mass, position and velocity)
 contributes nothing. When no entry differs, the source never binds its result
 variable and fails with an unbound-local error; the model returns `Unbound`.
 */
module NetForce {
  import opened Bodies
  import opened Forces

  /** The outcome of `calculate_net_force_on`: a force, or the unbound-local failure. */
  datatype NetForceResult = Force(force: Vec2) | Unbound

  /** True when some entry of `system` differs in value from `body`. */
  predicate HasOther(body: Body, system: System) {
    exists b :: b in system && b != body
  }

  /** Extending a system by one entry adds an other exactly when that entry differs
      from the body. */
  lemma HasOtherSnoc(body: Body, init: System, last: Body)
    ensures HasOther(body, init + [last]) <==> HasOther(body, init) || last != body
  {
    if HasOther(body, init) {
      var b :| b in init && b != body;
      assert b in init + [last];
    }
    if last != body {
      assert last in init + [last];
    }
  }

  /** A pairwise force rule: the force on the first body exerted by the second. */
  type Law = (Body, Body) -> Vec2

  /** The reference sum: the forces `law` assigns to `body` from the entries that
      differ from it, accumulated in system order. */
  function SumOthers(law: Law, body: Body, system: System): (f: Vec2)
    ensures !HasOther(body, system) ==> f == Zero
    decreases |system|
  {
    if |system| == 0 then Zero
    else
      var last := system[|system| - 1];
      var init := system[..|system| - 1];
      var rest := SumOthers(law, body, init);
      assert system == init + [last];
      HasOtherSnoc(body, init, last);
      if last != body then Add(rest, law(body, last)) else rest
  }

  /** The net force of `calculate_net_force_on`: the sum under its own pairwise rule. */
  function OthersForce(body: Body, system: System): Vec2 {
    SumOthers(CalculateForce, body, system)
  }

  /** The loop of `calculate_net_force_on`, for any pairwise rule: one pass
      accumulating both components, with `bound` recording whether the result
      variable has been assigned yet. */
  method SumOthersLoop(law: Law, body: Body, system: System) returns (r: NetForceResult)
    ensures r.Unbound? <==> !HasOther(body, system)
    ensures r.Force? ==> r.force == SumOthers(law, body, system)
  {
    var fx, fy := 0.0, 0.0;
    var force := Zero;
    var bound := false;
    for i := 0 to |system|
      invariant (fx, fy) == SumOthers(law, body, system[..i])
      invariant bound <==> HasOther(body, system[..i])
      invariant bound ==> force == (fx, fy)
    {
      var b := system[i];
      assert system[..i + 1] == system[..i] + [b];
      HasOtherSnoc(body, system[..i], b);
      if b != body {
        var c := law(body, b);
        fx := fx + c.0;
        fy := fy + c.1;
        force := (fx, fy);
        bound := true;
      }
    }
    assert system[..|system|] == system;
    if bound {
      r := Force(force);
    } else {
      r := Unbound;
    }
  }

  /** `calculate_net_force_on`: the loop above with `calculate_force` as the rule. It
      fails exactly when every entry equals the body, and otherwise returns the sum of
      the pairwise forces from the entries that differ. */
  method CalculateNetForceOn(body: Body, system: System) returns (r: NetForceResult)
    ensures r.Unbound? <==> forall b :: b in system ==> b == body
    ensures r.Force? ==> r.force == OthersForce(body, system)
  {
    r := SumOthersLoop(CalculateForce, body, system);
  }

  /** The sum over a concatenation is the sum of the two parts' sums. */
  lemma {:induction false} SumOthersAppend(law: Law, body: Body, a: System, b: System)
    ensures SumOthers(law, body, a + b) == Add(SumOthers(law, body, a), SumOthers(law, body, b))
    decreases |b|
  {
    if |b| == 0 {
      assert a + b == a;
    } else {
      var last := b[|b| - 1];
      var init := b[..|b| - 1];
      assert (a + b)[..|a + b| - 1] == a + init;
      assert (a + b)[|a + b| - 1] == last;
      SumOthersAppend(law, body, a, init);
    }
  }

  /** A one-entry system yields that entry's force, or zero if it equals the body. */
  lemma SumOthersSingle(law: Law, body: Body, other: Body)
    ensures SumOthers(law, body, [other]) == (if other != body then law(body, other) else Zero)
  {
    assert [other][..0] == [];
  }

  /** Entries equal in value to the body contribute nothing, wherever they stand. */
  lemma SumOthersSkipsCopies(law: Law, body: Body, a: System, b: System)
    ensures SumOthers(law, body, a + [body] + b) == SumOthers(law, body, a + b)
  {
    SumOthersAppend(law, body, a + [body], b);
    SumOthersAppend(law, body, a, [body]);
    SumOthersAppend(law, body, a, b);
    SumOthersSingle(law, body, body);
  }

  /** Taking one entry out of the middle of a system and adding its own
      contribution back leaves the sum unchanged. */
  lemma SumOthersExtract(law: Law, body: Body, before: System, x: Body, after: System)
    ensures SumOthers(law, body, before + [x] + after) ==
              Add(SumOthers(law, body, before + after), SumOthers(law, body, [x]))
  {
    SumOthersAppend(law, body, before + [x], after);
    SumOthersAppend(law, body, before, [x]);
    SumOthersAppend(law, body, before, after);
  }

  /** Removing the same element from two permutations of each other leaves two
      permutations of each other. */
  lemma PermutationWithoutLast(s: System, t: System, k: nat)
    requires multiset(s) == multiset(t)
    requires |s| > 0 && k < |t| && t[k] == s[|s| - 1]
    ensures multiset(s[..|s| - 1]) == multiset(t[..k] + t[k + 1..])
  {
    var last := s[|s| - 1];
    var init, before, after := s[..|s| - 1], t[..k], t[k + 1..];
    assert s == init + [last];
    assert t == before + [last] + after;
    assert multiset(s) == multiset(init) + multiset{last};
    assert multiset(t) == multiset(before) + multiset{last} + multiset(after);
    assert multiset(before + after) == multiset(before) + multiset(after);
    assert multiset(init) == multiset(s) - multiset{last};
    assert multiset(before + after) == multiset(t) - multiset{last};
  }

  /** The sum does not depend on the order of the system. */
  lemma {:induction false} SumOthersPermutation(law: Law, body: Body, s: System, t: System)
    requires multiset(s) == multiset(t)
    ensures SumOthers(law, body, s) == SumOthers(law, body, t)
    decreases |s|
  {
    if |s| == 0 {
      assert |t| == |multiset(t)| == 0;
    } else {
      var last := s[|s| - 1];
      var init := s[..|s| - 1];
      assert last in multiset(t);
      var k :| 0 <= k < |t| && t[k] == last;
      var before, after := t[..k], t[k + 1..];
      PermutationWithoutLast(s, t, k);
      SumOthersPermutation(law, body, init, before + after);
      assert s == init + [last];
      SumOthersAppend(law, body, init, [last]);
      assert t == before + [last] + after;
      SumOthersExtract(law, body, before, last, after);
    }
  }

  /** In a system of two distinct entries each one feels exactly the other's force. */
  lemma SumOthersPair(law: Law, a: Body, b: Body)
    requires a != b
    ensures SumOthers(law, a, [a, b]) == law(a, b)
    ensures SumOthers(law, b, [a, b]) == law(b, a)
  {
    SumOthersAppend(law, a, [a], [b]);
    SumOthersAppend(law, b, [a], [b]);
    SumOthersSingle(law, a, a);
    SumOthersSingle(law, a, b);
    SumOthersSingle(law, b, a);
    SumOthersSingle(law, b, b);
  }

  /** In a two-body system each body feels the same net force, so the pair's total
      force never cancels as Newton's third law would demand. */
  lemma TwoBodyNetForcesEqual(a: Body, b: Body)
    requires a != b
    ensures OthersForce(a, [a, b]) == OthersForce(b, [a, b]) == CalculateForce(a, b)
  {
    SumOthersPair(CalculateForce, a, b);
    ForceSymmetric(a, b);
  }

  /** Three unit masses at x = 0, 1, 2 on the x axis: the middle one is pushed by
      2G along x, not balanced, because the rule carries no direction. */
  lemma ColinearMiddleNotBalanced()
    ensures OthersForce(Body(1.0, (1.0, 0.0), Zero),
                        [Body(1.0, (0.0, 0.0), Zero), Body(1.0, (1.0, 0.0), Zero),
                         Body(1.0, (2.0, 0.0), Zero)]) == (2.0 * G, 0.0)
  {
    var left, mid, right := Body(1.0, (0.0, 0.0), Zero), Body(1.0, (1.0, 0.0), Zero),
                            Body(1.0, (2.0, 0.0), Zero);
    assert [left, mid, right] == [left] + [mid] + [right];
    SumOthersSkipsCopies(CalculateForce, mid, [left], [right]);
    assert [left] + [right] == [left, right];
    SumOthersAppend(CalculateForce, mid, [left], [right]);
    SumOthersSingle(CalculateForce, mid, left);
    SumOthersSingle(CalculateForce, mid, right);
    assert CalculateForce(mid, left) == (G, 0.0) by {
      assert AxisForce(1.0, 1.0, 1.0) == G;
    }
    assert CalculateForce(mid, right) == (G, 0.0) by {
      assert AxisForce(1.0, 1.0, -1.0) == G;
    }
  }
}
