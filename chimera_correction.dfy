/**
 * The conservative correction of the Chimera coupling as functions over the slave DoFs of one
 * velocity store, taken in the store's iteration order: n[k] is the nodal-normal component of
 * slave k, m[k] the NODAL_MASS of its node and v[k] its current value. Each slave receives
 * c[k] = -n[k]·Σ_j n[j]·v[j] / (m[k]·RtMinvR), which, when RtMinvR is Σ n[k]²/m[k] over the
 * same slaves, removes the flux Σ n[k]·v[k] through the boundary.
 */
module ChimeraCorrection {

  /** Σ n[i]·v[i], accumulated from the front. */
  function Flux(n: seq<real>, v: seq<real>): real
    requires |n| == |v|
  {
    if |n| == 0 then 0.0 else Flux(n[..|n| - 1], v[..|v| - 1]) + n[|n| - 1] * v[|v| - 1]
  }

  /** Σ n[i]²/m[i]: the accumulation of Rt·M⁻¹·R over the boundary nodes' velocity components. */
  function RtMinvR(n: seq<real>, m: seq<real>): real
    requires |n| == |m| && forall i :: 0 <= i < |m| ==> m[i] != 0.0
  {
    if |n| == 0 then 0.0 else RtMinvR(n[..|n| - 1], m[..|m| - 1]) + (n[|n| - 1] * n[|n| - 1]) / m[|m| - 1]
  }

  /**
   * The constant of a slave with nodal-normal component nk and divisor d = m[k]·R after the
   * inner loop has visited the first j slaves: each visit subtracts (nk·n[j])/d·v[j], from 0.
   */
  function Correction(n: seq<real>, v: seq<real>, nk: real, d: real, j: nat): real
    requires |n| == |v| && j <= |n| && d != 0.0
  {
    if j == 0 then 0.0
    else Correction(n, v, nk, d, j - 1) - ((nk * n[j - 1]) / d) * v[j - 1]
  }

  /** One visit of the inner loop, factored: with the visited flux p and the new term t = n[j]·v[j]. */
  lemma CorrectionStep(c: real, nk: real, nj: real, d: real, vj: real, p: real)
    requires d != 0.0 && c == -(nk / d) * p
    ensures c - ((nk * nj) / d) * vj == -(nk / d) * (p + nj * vj)
  {
    var a := nk / d;
    assert (nk * nj) / d == a * nj;
    assert -a * p - (a * nj) * vj == -a * (p + nj * vj);
  }

  lemma {:induction false} CorrectionFactorsExtends(n: seq<real>, v: seq<real>, nk: real, d: real, j: nat)
    requires |n| == |v| && 0 < j <= |n| && d != 0.0
    requires Correction(n, v, nk, d, j - 1) == -(nk / d) * Flux(n[..j - 1], v[..j - 1])
    ensures Correction(n, v, nk, d, j) == -(nk / d) * Flux(n[..j], v[..j])
  {
    assert n[..j][..j - 1] == n[..j - 1] && v[..j][..j - 1] == v[..j - 1];
    FluxLast(n[..j], v[..j]);
    var c, nj, vj, p := Correction(n, v, nk, d, j - 1), n[j - 1], v[j - 1], Flux(n[..j - 1], v[..j - 1]);
    var total, f := Correction(n, v, nk, d, j), Flux(n[..j], v[..j]);
    assert f == p + nj * vj;
    assert total == c - ((nk * nj) / d) * vj;
    CorrectionStep(c, nk, nj, d, vj, p);
  }

  /** The inner loop's sum factors: the constant is -nk/d times the flux of the visited slaves. */
  lemma {:induction false} CorrectionFactors(n: seq<real>, v: seq<real>, nk: real, d: real, j: nat)
    requires |n| == |v| && j <= |n| && d != 0.0
    ensures Correction(n, v, nk, d, j) == -(nk / d) * Flux(n[..j], v[..j])
  {
    if j == 0 {
      assert n[..0] == [] && v[..0] == [];
    } else {
      CorrectionFactors(n, v, nk, d, j - 1);
      CorrectionFactorsExtends(n, v, nk, d, j);
    }
  }

  lemma NonzeroProduct(a: real, b: real)
    requires a != 0.0 && b != 0.0
    ensures a * b != 0.0
  {
  }

  /**
   * The constant of slave k once the inner loop has visited every slave: -flux/R times
   * n[k]/m[k], the same multiple for every slave.
   */
  function Constant(n: seq<real>, m: seq<real>, v: seq<real>, r: real, k: nat): (c: real)
    requires |n| == |m| == |v| && k < |n| && m[k] != 0.0 && r != 0.0
    ensures c == (-Flux(n, v) / r) * (n[k] / m[k])
  {
    var f := Flux(n, v);
    var nk := n[k];
    var mk := m[k];
    NonzeroProduct(mk, r);
    CorrectionFactors(n, v, nk, mk * r, |n|);
    assert n[..|n|] == n && v[..|v|] == v;
    var c := Correction(n, v, nk, mk * r, |n|);
    Rearranged(c, nk, mk, r, f);
    c
  }

  /** The inner loop's total for slave k, with its normal, mass and divisor read separately, is that slave's constant. */
  lemma ConstantOfLoop(n: seq<real>, m: seq<real>, v: seq<real>, r: real, k: nat, nk: real, mk: real, d: real, c: real)
    requires |n| == |m| == |v| && k < |n| && nk == n[k] && mk == m[k] && mk != 0.0 && r != 0.0
    requires d == mk * r && c == Correction(n, v, nk, d, |n|)
    ensures c == Constant(n, m, v, r, k)
  {
    assert m[k] * r == d;
    assert Constant(n, m, v, r, k) == Correction(n, v, n[k], m[k] * r, |n|);
  }

  /** The constants of all slaves, in the store's order. */
  function Corrections(n: seq<real>, m: seq<real>, v: seq<real>, r: real): (c: seq<real>)
    requires |n| == |m| == |v| && r != 0.0 && forall i :: 0 <= i < |m| ==> m[i] != 0.0
    ensures |c| == |n|
    ensures forall k :: 0 <= k < |n| ==> c[k] == (-Flux(n, v) / r) * (n[k] / m[k])
  {
    seq(|n|, k requires 0 <= k < |n| => Constant(n, m, v, r, k))
  }

  /** The values with the constants added. */
  function Corrected(v: seq<real>, c: seq<real>): (w: seq<real>)
    requires |v| == |c|
    ensures |w| == |v| && forall k :: 0 <= k < |v| ==> w[k] == v[k] + c[k]
  {
    seq(|v|, k requires 0 <= k < |v| => v[k] + c[k])
  }

  /** The flux is additive in the values. */
  lemma {:induction false} FluxAdds(n: seq<real>, v: seq<real>, c: seq<real>)
    requires |n| == |v| == |c|
    ensures Flux(n, Corrected(v, c)) == Flux(n, v) + Flux(n, c)
  {
    if |n| > 0 {
      var j := |n| - 1;
      assert Corrected(v, c)[..j] == Corrected(v[..j], c[..j]);
      FluxAdds(n[..j], v[..j], c[..j]);
      assert n[j] * (v[j] + c[j]) == n[j] * v[j] + n[j] * c[j];
    }
  }

  lemma ScaledTerm(nj: real, mj: real, b: real)
    requires mj != 0.0
    ensures nj * (b * (nj / mj)) == b * ((nj * nj) / mj)
  {
  }

  lemma Distributes(b: real, p: real, t: real)
    ensures b * p + b * t == b * (p + t)
  {
  }

  lemma {:induction false} FluxLast(n: seq<real>, v: seq<real>)
    requires |n| == |v| && |n| > 0
    ensures Flux(n, v) == Flux(n[..|n| - 1], v[..|v| - 1]) + n[|n| - 1] * v[|v| - 1]
  {
  }

  lemma {:induction false} RtMinvRLast(n: seq<real>, m: seq<real>)
    requires |n| == |m| && |n| > 0 && forall i :: 0 <= i < |m| ==> m[i] != 0.0
    ensures RtMinvR(n, m) == RtMinvR(n[..|n| - 1], m[..|m| - 1]) + (n[|n| - 1] * n[|n| - 1]) / m[|m| - 1]
  {
  }

  /** Values proportional to n[k]/m[k]: c[k] = b·n[k]/m[k] for every slave k. */
  predicate ScaledBy(n: seq<real>, m: seq<real>, c: seq<real>, b: real)
    requires |n| == |m| == |c| && forall i :: 0 <= i < |m| ==> m[i] != 0.0
  {
    forall k :: 0 <= k < |c| ==> c[k] == b * (n[k] / m[k])
  }

  lemma {:induction false} ScaledByPrefix(n: seq<real>, m: seq<real>, c: seq<real>, b: real)
    requires |n| == |m| == |c| && |n| > 0 && forall i :: 0 <= i < |m| ==> m[i] != 0.0
    requires ScaledBy(n, m, c, b)
    ensures ScaledBy(n[..|n| - 1], m[..|m| - 1], c[..|c| - 1], b)
    ensures c[|c| - 1] == b * (n[|n| - 1] / m[|m| - 1])
  {
  }

  /** One more slave keeps the flux b times Σ n²/m. */
  lemma ScaledStep(flux: real, fluxInit: real, nj: real, cj: real, mj: real, b: real, r: real, rInit: real)
    requires mj != 0.0 && cj == b * (nj / mj)
    requires flux == fluxInit + nj * cj && fluxInit == b * rInit && r == rInit + (nj * nj) / mj
    ensures flux == b * r
  {
    ScaledTerm(nj, mj, b);
    Distributes(b, rInit, (nj * nj) / mj);
  }

  /** The last slave extends the proportionality of the flux from the first |n| - 1 slaves to all. */
  lemma {:induction false} FluxOfScaledExtends(n: seq<real>, m: seq<real>, c: seq<real>, b: real)
    requires |n| == |m| == |c| && |n| > 0 && forall i :: 0 <= i < |m| ==> m[i] != 0.0
    requires c[|c| - 1] == b * (n[|n| - 1] / m[|m| - 1])
    requires Flux(n[..|n| - 1], c[..|c| - 1]) == b * RtMinvR(n[..|n| - 1], m[..|m| - 1])
    ensures Flux(n, c) == b * RtMinvR(n, m)
  {
    var j := |n| - 1;
    RtMinvRLast(n, m);
    FluxLast(n, c);
    var nj, cj, mj := n[j], c[j], m[j];
    var f, f0 := Flux(n, c), Flux(n[..j], c[..j]);
    var r, r0 := RtMinvR(n, m), RtMinvR(n[..j], m[..j]);
    ScaledStep(f, f0, nj, cj, mj, b, r, r0);
  }

  /** Values proportional to n[k]/m[k] carry a flux proportional to Σ n[k]²/m[k]. */
  lemma {:induction false} FluxOfScaled(n: seq<real>, m: seq<real>, c: seq<real>, b: real)
    requires |n| == |m| == |c| && forall i :: 0 <= i < |m| ==> m[i] != 0.0
    requires ScaledBy(n, m, c, b)
    ensures Flux(n, c) == b * RtMinvR(n, m)
  {
    if |n| > 0 {
      ScaledByPrefix(n, m, c, b);
      FluxOfScaled(n[..|n| - 1], m[..|m| - 1], c[..|c| - 1], b);
      FluxOfScaledExtends(n, m, c, b);
    } else {
      assert b * 0.0 == 0.0;
    }
  }

  lemma Rearranged(ck: real, nk: real, mk: real, r: real, f: real)
    requires mk != 0.0 && r != 0.0 && ck == -(nk / (mk * r)) * f
    ensures ck == (-f / r) * (nk / mk)
  {
  }

  lemma Cancelled(total: real, f: real, g: real, b: real, r: real)
    requires r != 0.0 && b == -f / r && total == f + g && g == b * r
    ensures total == 0.0
  {
  }

  /**
   * Zero flux: when R is Σ n[k]²/m[k] over the same slaves and not zero, the corrected values
   * carry no flux, Σ n[k]·(v[k] + c[k]) = 0.
   */
  lemma {:induction false} ZeroFlux(n: seq<real>, m: seq<real>, v: seq<real>, r: real)
    requires |n| == |m| == |v| && forall i :: 0 <= i < |m| ==> m[i] != 0.0
    requires r == RtMinvR(n, m) && r != 0.0
    ensures Flux(n, Corrected(v, Corrections(n, m, v, r))) == 0.0
  {
    var c := Corrections(n, m, v, r);
    var f := Flux(n, v);
    var b := -f / r;
    FluxOfScaled(n, m, c, b);
    var g := Flux(n, c);
    assert g == b * r;
    FluxAdds(n, v, c);
    var total := Flux(n, Corrected(v, c));
    assert total == f + g;
    Cancelled(total, f, g, b, r);
  }

}
