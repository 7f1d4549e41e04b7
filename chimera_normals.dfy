/**
 * CalculateNodalAreaAndNodalMass of the Chimera process, as functions: the centre of a
 * boundary, the condition normals oriented against it, and the nodal NORMAL and NODAL_MASS
 * that the conditions hand out to their nodes in equal shares.
 */
module ChimeraNormals {
  import opened Wrappers
  import opened Vectors
  import N = NormalCalculationUtils

  predicate IdsInside(ids: seq<nat>, count: nat) {
    forall j :: 0 <= j < |ids| ==> ids[j] < count
  }

  /** The sum of the positions of the nodes `ids`, accumulated in order. */
  function PositionSum(positions: seq<Vec3>, ids: seq<nat>): Vec3
    requires IdsInside(ids, |positions|)
  {
    if |ids| == 0 then Zero
    else Add(PositionSum(positions, ids[..|ids| - 1]), positions[ids[|ids| - 1]])
  }

  lemma MeanScalesBack(count: real, a: real)
    requires count > 0.0
    ensures count * ((1.0 / count) * a) == a
  {
  }

  /**
   * The centre of a boundary: its summed node positions divided by its node count. A boundary
   * without nodes divides 0 by 0, a NaN that no comparison accepts; the model answers None.
   */
  function Centre(positions: seq<Vec3>, ids: seq<nat>): (c: Option<Vec3>)
    requires IdsInside(ids, |positions|)
    ensures c.Some? <==> |ids| > 0
    ensures c.Some? ==> Scale(|ids| as real, c.value) == PositionSum(positions, ids)
  {
    if |ids| == 0 then None
    else
      var n := |ids| as real;
      var s := PositionSum(positions, ids);
      MeanScalesBack(n, s.x);
      MeanScalesBack(n, s.y);
      MeanScalesBack(n, s.z);
      Some(Scale(1.0 / n, s))
  }

  /**
   * The vector from the first node of a condition to the centre; in 2D its z component is 0.
   * None when the centre is not a number.
   */
  function ToCentre(centre: Option<Vec3>, p0: Vec3, dim: nat): (r: Option<Vec3>)
    ensures r.Some? <==> centre.Some?
  {
    match centre
    case None => None
    case Some(c) => Some(Vec3(c.x - p0.x, c.y - p0.y, if dim == 2 then 0.0 else c.z - p0.z))
  }

  /**
   * The area normal `an` negated when it points towards the centre (a positive dot product
   * with r), then multiplied by `sign`. With sign 1 the result points away from the centre,
   * with sign -1 towards it; for both signs it keeps the length of `an`.
   */
  function Oriented(an: Vec3, r: Option<Vec3>, sign: int): (n: Vec3)
    ensures sign == 1 && r.Some? ==> Dot(n, r.value) <= 0.0
    ensures sign == -1 && r.Some? ==> Dot(n, r.value) >= 0.0
    ensures sign == 1 || sign == -1 ==> Dot(n, n) == Dot(an, an)
    ensures r.None? ==> n == Scale(sign as real, an)
  {
    var flipped := if r.Some? && Dot(an, r.value) > 0.0 then Neg(an) else an;
    OrientationFacts(an, r, sign, flipped);
    Scale(sign as real, flipped)
  }

  lemma SignedProduct(s: real, d: real)
    requires d <= 0.0
    ensures s == 1.0 ==> s * d <= 0.0
    ensures s == -1.0 ==> s * d >= 0.0
  {
  }

  lemma {:induction false} DotScaleBoth(s: real, f: Vec3)
    requires s == 1.0 || s == -1.0
    ensures Dot(Scale(s, f), Scale(s, f)) == Dot(f, f)
  {
    assert (s * f.x) * (s * f.x) == (s * s) * (f.x * f.x);
    assert (s * f.y) * (s * f.y) == (s * s) * (f.y * f.y);
    assert (s * f.z) * (s * f.z) == (s * s) * (f.z * f.z);
  }

  /** The facts behind Oriented's contract, for the flipped normal f. */
  lemma {:induction false} OrientationFacts(an: Vec3, r: Option<Vec3>, sign: int, f: Vec3)
    requires f == if r.Some? && Dot(an, r.value) > 0.0 then Neg(an) else an
    ensures sign == 1 && r.Some? ==> Dot(Scale(sign as real, f), r.value) <= 0.0
    ensures sign == -1 && r.Some? ==> Dot(Scale(sign as real, f), r.value) >= 0.0
    ensures sign == 1 || sign == -1 ==> Dot(Scale(sign as real, f), Scale(sign as real, f)) == Dot(an, an)
    ensures r.None? ==> f == an
  {
    if r.Some? {
      DotNeg(an, r.value);
      assert Dot(f, r.value) <= 0.0;
      DotScaleLeft(sign as real, f, r.value);
      SignedProduct(sign as real, Dot(f, r.value));
    }
    if sign == 1 || sign == -1 {
      DotScaleBoth(sign as real, f);
      assert Dot(Neg(an), Neg(an)) == Dot(an, an);
    }
  }

  /** Orienting an oriented normal again (sign 1) changes nothing. */
  lemma OrientedIsIdempotent(an: Vec3, r: Option<Vec3>)
    ensures Oriented(Oriented(an, r, 1), r, 1) == Oriented(an, r, 1)
  {
    var n := Oriented(an, r, 1);
    assert Scale(1.0, n) == n;
    if r.Some? && Dot(an, r.value) > 0.0 {
      assert n == Neg(an);
    }
  }

  /**
   * The normal of a two-node condition oriented against the centre does not depend on the order
   * of its nodes, unless the centre lies on the line of the edge.
   */
  lemma {:induction false} OrientedEdgeIgnoresNodeOrder(p0: Vec3, p1: Vec3, centre: Vec3, sign: int)
    requires p0.z == 0.0 && p1.z == 0.0
    requires Dot(N.Normal2D(p0, p1), Sub(Vec3(centre.x, centre.y, 0.0), p0)) != 0.0
    ensures Oriented(N.Normal2D(p1, p0), ToCentre(Some(centre), p1, 2), sign) ==
            Oriented(N.Normal2D(p0, p1), ToCentre(Some(centre), p0, 2), sign)
  {
    var an := N.Normal2D(p0, p1);
    var r0 := ToCentre(Some(centre), p0, 2).value;
    var r1 := ToCentre(Some(centre), p1, 2).value;
    N.Normal2DOfReversedEdge(p0, p1);
    N.Normal2DIsPerpendicular(p0, p1);
    assert r0 == Sub(Vec3(centre.x, centre.y, 0.0), p0);
    assert Dot(an, r1) == Dot(an, r0) - Dot(an, Sub(p1, p0));
    DotNeg(an, r1);
    assert Neg(Neg(an)) == an;
  }

  predicate NodesInside(c: N.Condition, count: nat) {
    forall j :: 0 <= j < |c.geometry| ==> c.geometry[j] < count
  }

  /**
   * A condition after the normal loop of CalculateNodalAreaAndNodalMass: in 2D a two-node
   * condition and in 3D a three-node condition gets its area normal oriented against the
   * centre; every other condition keeps the NORMAL it holds.
   */
  function ConditionNormal(c: N.Condition, positions: seq<Vec3>, centre: Option<Vec3>, dim: nat, sign: int): (r: N.Condition)
    requires NodesInside(c, |positions|)
    ensures r.geometry == c.geometry
    ensures !(dim == 2 && |c.geometry| == 2) && !(dim == 3 && |c.geometry| == 3) ==> r == c
    ensures dim == 2 && |c.geometry| == 2 ==>
      r.normal == Oriented(N.Normal2D(positions[c.geometry[0]], positions[c.geometry[1]]), ToCentre(centre, positions[c.geometry[0]], dim), sign)
    ensures dim == 3 && |c.geometry| == 3 ==>
      r.normal == Oriented(N.Normal3D(positions[c.geometry[0]], positions[c.geometry[1]], positions[c.geometry[2]]), ToCentre(centre, positions[c.geometry[0]], dim), sign)
  {
    var g := c.geometry;
    if dim == 2 && |g| == 2 then
      c.(normal := Oriented(N.Normal2D(positions[g[0]], positions[g[1]]), ToCentre(centre, positions[g[0]], dim), sign))
    else if dim == 3 && |g| == 3 then
      c.(normal := Oriented(N.Normal3D(positions[g[0]], positions[g[1]], positions[g[2]]), ToCentre(centre, positions[g[0]], dim), sign))
    else c
  }

  /** The normal loop over all conditions. */
  function ConditionNormals(cs: seq<N.Condition>, positions: seq<Vec3>, centre: Option<Vec3>, dim: nat, sign: int): (r: seq<N.Condition>)
    requires N.ConditionsInside(cs, |positions|)
    ensures |r| == |cs| && N.ConditionsInside(r, |positions|)
    ensures forall k :: 0 <= k < |cs| ==> r[k] == ConditionNormal(cs[k], positions, centre, dim, sign)
  {
    seq(|cs|, k requires 0 <= k < |cs| => ConditionNormal(cs[k], positions, centre, dim, sign))
  }

  // ---------------------------------------------------------------- NODAL_MASS

  /** The masses with `coeff * x` added once for every entry of g, entry by entry. */
  function AddMass(masses: seq<real>, g: seq<nat>, coeff: real, x: real): (r: seq<real>)
    requires IdsInside(g, |masses|)
    ensures |r| == |masses|
  {
    if |g| == 0 then masses
    else
      var r := AddMass(masses, g[..|g| - 1], coeff, x);
      var n := g[|g| - 1];
      r[n := r[n] + coeff * x]
  }

  /** The mass half of the distribution loop, condition after condition: 1/size of the norm of each condition normal. */
  function DistributeMass(masses: seq<real>, cs: seq<N.Condition>, norm: Vec3 -> real): (r: seq<real>)
    requires N.ConditionsInside(cs, |masses|)
    ensures |r| == |masses|
  {
    if |cs| == 0 then masses
    else
      var c := cs[|cs| - 1];
      AddMass(DistributeMass(masses, cs[..|cs| - 1], norm), c.geometry, N.Coefficient(c.geometry), norm(c.normal))
  }

  /** What one condition adds to the NODAL_MASS of node n: its occurrences over its size times the norm of its normal. */
  function ConditionMass(c: N.Condition, n: nat, norm: Vec3 -> real): real {
    N.Share(N.Coefficient(c.geometry), N.Occurrences(c.geometry, n)) * norm(c.normal)
  }

  /** What the conditions add to the NODAL_MASS of node n: occurrences/size times the norm of each condition normal. */
  function TotalMass(cs: seq<N.Condition>, n: nat, norm: Vec3 -> real): real {
    if |cs| == 0 then 0.0
    else
      var c := cs[|cs| - 1];
      TotalMass(cs[..|cs| - 1], n, norm) + ConditionMass(c, n, norm)
  }

  lemma {:induction false} DistributeMassStep(masses: seq<real>, cs: seq<N.Condition>, norm: Vec3 -> real)
    requires N.ConditionsInside(cs, |masses|) && |cs| > 0
    ensures N.ConditionsInside(cs[..|cs| - 1], |masses|)
    ensures var c := cs[|cs| - 1];
      DistributeMass(masses, cs, norm) == AddMass(DistributeMass(masses, cs[..|cs| - 1], norm), c.geometry, N.Coefficient(c.geometry), norm(c.normal))
  {
    assert forall k :: 0 <= k < |cs| - 1 ==> cs[..|cs| - 1][k] == cs[k];
  }

  lemma {:induction false} TotalMassStep(cs: seq<N.Condition>, n: nat, norm: Vec3 -> real)
    requires |cs| > 0
    ensures var c := cs[|cs| - 1];
      TotalMass(cs, n, norm) == TotalMass(cs[..|cs| - 1], n, norm) + ConditionMass(c, n, norm)
  {
  }

  lemma Regrouped(a: real, d: real, m: real, t: real, share: real, total: real)
    requires a == d + share && d == m + t && total == t + share
    ensures a == m + total
  {
  }

  lemma SharesOfMassAddUp(base: real, a: real, b: real, x: real)
    ensures base + a * x + b * x == base + (a + b) * x
  {
  }

  /** AddMass adds `coeff * x` to a node as many times as it occurs in g. */
  lemma {:induction false} AddMassAdds(masses: seq<real>, g: seq<nat>, coeff: real, x: real, n: nat)
    requires IdsInside(g, |masses|) && n < |masses|
    ensures AddMass(masses, g, coeff, x)[n] == masses[n] + N.Share(coeff, N.Occurrences(g, n)) * x
  {
    if |g| == 0 {
      assert N.Share(coeff, 0) == 0.0;
    } else {
      var init := g[..|g| - 1];
      var last := g[|g| - 1];
      AddMassAdds(masses, init, coeff, x, n);
      var r := AddMass(masses, init, coeff, x);
      assert AddMass(masses, g, coeff, x) == r[last := r[last] + coeff * x];
      if last == n {
        assert N.Occurrences(g, n) == N.Occurrences(init, n) + 1;
        N.ShareStep(coeff, N.Occurrences(init, n));
        SharesOfMassAddUp(masses[n], N.Share(coeff, N.Occurrences(init, n)), coeff, x);
      } else {
        assert N.Occurrences(g, n) == N.Occurrences(init, n);
      }
    }
  }

  /** One condition's turn adds its share of the norm of its normal to node n. */
  lemma {:induction false} AddConditionMass(prev: seq<real>, c: N.Condition, norm: Vec3 -> real, n: nat)
    requires IdsInside(c.geometry, |prev|) && n < |prev|
    ensures AddMass(prev, c.geometry, N.Coefficient(c.geometry), norm(c.normal))[n] == prev[n] + ConditionMass(c, n, norm)
  {
    AddMassAdds(prev, c.geometry, N.Coefficient(c.geometry), norm(c.normal), n);
  }

  /** The last condition's turn in the distribution adds its share to node n. */
  lemma {:induction false} DistributeMassLast(masses: seq<real>, cs: seq<N.Condition>, norm: Vec3 -> real, n: nat)
    requires N.ConditionsInside(cs, |masses|) && n < |masses| && |cs| > 0
    ensures DistributeMass(masses, cs, norm)[n] == DistributeMass(masses, cs[..|cs| - 1], norm)[n] + ConditionMass(cs[|cs| - 1], n, norm)
  {
    DistributeMassStep(masses, cs, norm);
    AddConditionMass(DistributeMass(masses, cs[..|cs| - 1], norm), cs[|cs| - 1], norm, n);
  }

  /** After the distribution each node holds its old mass plus its equal shares of every condition's area. */
  lemma {:induction false} DistributeMassAdds(masses: seq<real>, cs: seq<N.Condition>, norm: Vec3 -> real, n: nat)
    requires N.ConditionsInside(cs, |masses|) && n < |masses|
    ensures DistributeMass(masses, cs, norm)[n] == masses[n] + TotalMass(cs, n, norm)
  {
    if |cs| > 0 {
      var init := cs[..|cs| - 1];
      var c := cs[|cs| - 1];
      DistributeMassLast(masses, cs, norm, n);
      DistributeMassAdds(masses, init, norm, n);
      TotalMassStep(cs, n, norm);
      Regrouped(DistributeMass(masses, cs, norm)[n], DistributeMass(masses, init, norm)[n], masses[n], TotalMass(init, n, norm),
        ConditionMass(c, n, norm), TotalMass(cs, n, norm));
    }
  }

  /** A node that belongs to no condition gains no mass. */
  lemma {:induction false} UntouchedNodeGainsNoMass(cs: seq<N.Condition>, n: nat, norm: Vec3 -> real)
    requires !N.Touched(N.GeometriesOf(cs), n)
    ensures TotalMass(cs, n, norm) == 0.0
  {
    if |cs| > 0 {
      var init := cs[..|cs| - 1];
      var c := cs[|cs| - 1];
      assert N.GeometriesOf(init) == N.GeometriesOf(cs)[..|cs| - 1];
      assert N.GeometriesOf(cs)[|cs| - 1] == c.geometry;
      UntouchedNodeGainsNoMass(init, n, norm);
      N.OccurrencesZero(c.geometry, n);
    }
  }

  /** With a non-negative norm the distribution never takes mass away. */
  lemma {:induction false} TotalMassIsNonnegative(cs: seq<N.Condition>, n: nat, norm: Vec3 -> real)
    requires forall v :: norm(v) >= 0.0
    ensures TotalMass(cs, n, norm) >= 0.0
  {
    if |cs| > 0 {
      var c := cs[|cs| - 1];
      TotalMassIsNonnegative(cs[..|cs| - 1], n, norm);
      assert N.Coefficient(c.geometry) >= 0.0;
      assert N.Share(N.Coefficient(c.geometry), N.Occurrences(c.geometry, n)) >= 0.0;
      assert norm(c.normal) >= 0.0;
    }
  }
}
