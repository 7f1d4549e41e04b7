/**
 * The conservative variant of the Chimera coupling, as functions over the node list and the
 * velocity store: the nodal normals and Rt·M⁻¹·R gathered over a boundary, the correction
 * constants computed for the store's slaves (in the store's iteration order) and filed under
 * their equation ids, and the slave values shifted by those constants. The arithmetic of the
 * constants themselves is in ChimeraCorrection.
 */
module ChimeraConservative {
  import opened Vectors
  import opened MpcConstraints
  import opened ChimeraCoupling
  import C = ChimeraCorrection

  /** A map read with the source's `operator[]`: an absent key reads as 0. */
  function Lookup<K>(m: map<K, real>, k: K): (r: real)
    ensures k !in m ==> r == 0.0
    ensures k in m ==> r == m[k]
  {
    if k in m then m[k] else 0.0
  }

  /** The velocity component i (0 = X, 1 = Y, 2 = Z) of the source's dofComponentVector. */
  function VelocityComponent(i: nat): (c: Component)
    requires i < 3
    ensures c != Pressure
  {
    if i == 0 then VelocityX else if i == 1 then VelocityY else VelocityZ
  }

  /** Whether c is one of the first `dim` velocity components. */
  predicate IsVelocityComponent(c: Component, dim: nat) {
    match c
    case VelocityX => dim >= 1
    case VelocityY => dim >= 2
    case VelocityZ => dim >= 3
    case Pressure => false
  }

  /** The position of a velocity component in the NORMAL vector. */
  function NormalIndex(c: Component): (i: nat)
    requires c != Pressure
    ensures i < 3 && VelocityComponent(i) == c
  {
    match c
    case VelocityX => 0
    case VelocityY => 1
    case VelocityZ => 2
  }

  // ---------------------------------------------------------------- nodal normals and Rt·M⁻¹·R

  /** The first i components of node b's NORMAL n attached to its velocity DoFs, X first. */
  function ComponentsAttached(normals: map<DofKey, real>, b: nat, n: Vec3, i: nat): map<DofKey, real>
    requires i <= 3
  {
    if i == 0 then normals
    else ComponentsAttached(normals, b, n, i - 1)[DofKey(b, VelocityComponent(i - 1)) := At(n, i - 1)]
  }

  /** The normal loop of the conservative coupling over the velocity store: each boundary node's NORMAL, component by component. */
  function NormalsAttached(normals: map<DofKey, real>, nodes: seq<Node>, ids: seq<nat>, dim: nat): map<DofKey, real>
    requires IdsInside(ids, |nodes|) && dim <= 3
  {
    if |ids| == 0 then normals
    else
      var b := ids[|ids| - 1];
      ComponentsAttached(NormalsAttached(normals, nodes, ids[..|ids| - 1], dim), b, nodes[b].normal, dim)
  }

  /** The pressure store's side of the normal loop: each boundary node's PRESSURE DoF gets the component 0. */
  function PressureAttached(normals: map<DofKey, real>, ids: seq<nat>): map<DofKey, real> {
    if |ids| == 0 then normals
    else PressureAttached(normals, ids[..|ids| - 1])[DofKey(ids[|ids| - 1], Pressure) := 0.0]
  }

  lemma {:induction false} ComponentsAttachedAt(normals: map<DofKey, real>, b: nat, n: Vec3, i: nat, k: DofKey)
    requires i <= 3
    ensures var r := ComponentsAttached(normals, b, n, i);
      if k.node == b && IsVelocityComponent(k.component, i)
      then k in r && r[k] == At(n, NormalIndex(k.component))
      else (k in r <==> k in normals) && Lookup(r, k) == Lookup(normals, k)
  {
    if i > 0 {
      ComponentsAttachedAt(normals, b, n, i - 1, k);
    }
  }

  /**
   * After the normal loop, each velocity DoF (among the first dim) of a boundary node carries
   * that component of the node's NORMAL, whatever it carried before and however often the
   * node is listed; every other entry is unchanged.
   */
  lemma {:induction false} NormalsAttachedAt(normals: map<DofKey, real>, nodes: seq<Node>, ids: seq<nat>, dim: nat, k: DofKey)
    requires IdsInside(ids, |nodes|) && dim <= 3
    ensures var r := NormalsAttached(normals, nodes, ids, dim);
      if k.node in ids && IsVelocityComponent(k.component, dim)
      then k in r && r[k] == At(nodes[k.node].normal, NormalIndex(k.component))
      else (k in r <==> k in normals) && Lookup(r, k) == Lookup(normals, k)
  {
    if |ids| > 0 {
      var init := ids[..|ids| - 1];
      var b := ids[|ids| - 1];
      assert IdsInside(init, |nodes|);
      NormalsAttachedAt(normals, nodes, init, dim, k);
      ComponentsAttachedAt(NormalsAttached(normals, nodes, init, dim), b, nodes[b].normal, dim, k);
      assert k.node in ids <==> k.node in init || k.node == b;
    }
  }

  /** After the pressure side of the normal loop, exactly the boundary nodes' PRESSURE DoFs carry 0. */
  lemma {:induction false} PressureAttachedAt(normals: map<DofKey, real>, ids: seq<nat>, k: DofKey)
    ensures var r := PressureAttached(normals, ids);
      if k.node in ids && k.component == Pressure
      then k in r && r[k] == 0.0
      else (k in r <==> k in normals) && Lookup(r, k) == Lookup(normals, k)
  {
    if |ids| > 0 {
      var init := ids[..|ids| - 1];
      PressureAttachedAt(normals, init, k);
      assert k.node in ids <==> k.node in init || k.node == ids[|ids| - 1];
    }
  }

  predicate MassesNonzero(nodes: seq<Node>, ids: seq<nat>)
    requires IdsInside(ids, |nodes|)
  {
    forall j :: 0 <= j < |ids| ==> nodes[ids[j]].nodalMass != 0.0
  }

  /** The index of the first boundary node whose NODAL_MASS is 0, or the number of boundary nodes. */
  function FirstZeroMass(nodes: seq<Node>, ids: seq<nat>): (k: nat)
    requires IdsInside(ids, |nodes|)
    ensures k <= |ids| && MassesNonzero(nodes, ids[..k])
    ensures k < |ids| ==> nodes[ids[k]].nodalMass == 0.0
    ensures k == |ids| <==> MassesNonzero(nodes, ids)
  {
    if |ids| == 0 then 0
    else
      var init := ids[..|ids| - 1];
      assert IdsInside(init, |nodes|);
      var k := FirstZeroMass(nodes, init);
      assert ids[..k] == init[..k];
      if k < |init| then k
      else if nodes[ids[|ids| - 1]].nodalMass == 0.0 then |init|
      else
        assert ids[..|ids|] == ids;
        |ids|
  }

  /** One NORMAL component squared over a NODAL_MASS. */
  function SquareOver(a: real, mass: real): real
    requires mass != 0.0
  {
    (a * a) / mass
  }

  /** Σ n[i]²/M over the first i NORMAL components of one node with NODAL_MASS M. */
  function NodeRtMinvR(n: Vec3, mass: real, i: nat): real
    requires i <= 3 && mass != 0.0
  {
    if i == 0 then 0.0 else NodeRtMinvR(n, mass, i - 1) + SquareOver(At(n, i - 1), mass)
  }

  /** Rt·M⁻¹·R of a boundary: Σ over its nodes and their first dim NORMAL components of n²/NODAL_MASS. */
  function BoundaryRtMinvR(nodes: seq<Node>, ids: seq<nat>, dim: nat): real
    requires IdsInside(ids, |nodes|) && MassesNonzero(nodes, ids) && dim <= 3
  {
    if |ids| == 0 then 0.0
    else
      var b := ids[|ids| - 1];
      assert IdsInside(ids[..|ids| - 1], |nodes|);
      BoundaryRtMinvR(nodes, ids[..|ids| - 1], dim) + NodeRtMinvR(nodes[b].normal, nodes[b].nodalMass, dim)
  }

  /** The normal loop stops at the node it reaches first with a zero NODAL_MASS. */
  lemma {:induction false} FirstZeroAt(nodes: seq<Node>, ids: seq<nat>, idx: nat)
    requires IdsInside(ids, |nodes|) && idx < |ids| && nodes[ids[idx]].nodalMass == 0.0
    requires forall j :: 0 <= j < idx ==> nodes[ids[j]].nodalMass != 0.0
    ensures FirstZeroMass(nodes, ids) == idx
    decreases |ids|
  {
    var init := ids[..|ids| - 1];
    assert forall j :: 0 <= j < |init| ==> init[j] == ids[j];
    if idx < |init| {
      FirstZeroAt(nodes, init, idx);
    } else {
      assert MassesNonzero(nodes, init);
    }
  }

  /** One more boundary node with a nonzero NODAL_MASS extends the normal loop's three results by that node. */
  lemma AttachStep(nodes: seq<Node>, ids: seq<nat>, idx: nat, dim: nat, velocity: map<DofKey, real>, pressure: map<DofKey, real>)
    requires IdsInside(ids, |nodes|) && idx < |ids| && dim <= 3
    requires MassesNonzero(nodes, ids[..idx]) && nodes[ids[idx]].nodalMass != 0.0
    ensures IdsInside(ids[..idx + 1], |nodes|) && MassesNonzero(nodes, ids[..idx + 1])
    ensures NormalsAttached(velocity, nodes, ids[..idx + 1], dim) ==
      ComponentsAttached(NormalsAttached(velocity, nodes, ids[..idx], dim), ids[idx], nodes[ids[idx]].normal, dim)
    ensures PressureAttached(pressure, ids[..idx + 1]) == PressureAttached(pressure, ids[..idx])[DofKey(ids[idx], Pressure) := 0.0]
    ensures BoundaryRtMinvR(nodes, ids[..idx + 1], dim) ==
      BoundaryRtMinvR(nodes, ids[..idx], dim) + NodeRtMinvR(nodes[ids[idx]].normal, nodes[ids[idx]].nodalMass, dim)
  {
    assert ids[..idx + 1][..idx] == ids[..idx];
    assert forall j :: 0 <= j < idx ==> ids[..idx][j] == ids[j];
  }

  lemma {:induction false} NodeRtMinvRIsNonnegative(n: Vec3, mass: real, i: nat)
    requires i <= 3 && mass > 0.0
    ensures NodeRtMinvR(n, mass, i) >= 0.0
  {
    if i > 0 {
      NodeRtMinvRIsNonnegative(n, mass, i - 1);
      var a := At(n, i - 1);
      assert a * a >= 0.0;
    }
  }

  /** With positive masses (the areas CalculateNodalAreaAndNodalMass hands out), Rt·M⁻¹·R is not negative. */
  lemma {:induction false} BoundaryRtMinvRIsNonnegative(nodes: seq<Node>, ids: seq<nat>, dim: nat)
    requires IdsInside(ids, |nodes|) && dim <= 3
    requires forall j :: 0 <= j < |ids| ==> nodes[ids[j]].nodalMass > 0.0
    ensures BoundaryRtMinvR(nodes, ids, dim) >= 0.0
  {
    if |ids| > 0 {
      var b := ids[|ids| - 1];
      assert IdsInside(ids[..|ids| - 1], |nodes|);
      BoundaryRtMinvRIsNonnegative(nodes, ids[..|ids| - 1], dim);
      NodeRtMinvRIsNonnegative(nodes[b].normal, nodes[b].nodalMass, dim);
    }
  }

  // ---------------------------------------------------------------- correction constants

  /** The store's slaves in its iteration order: every constrained DoF exactly once. */
  ghost predicate Enumerates(slaves: seq<DofKey>, cs: Constraints) {
    (forall i, j :: 0 <= i < j < |slaves| ==> slaves[i] != slaves[j]) &&
    (forall k :: k in cs <==> k in slaves)
  }

  /** Distinct slaves have distinct equation ids. */
  predicate DistinctIds(slaves: seq<DofKey>, equationId: DofKey -> nat) {
    forall i, j :: 0 <= i < |slaves| && 0 <= j < |slaves| && equationId(slaves[i]) == equationId(slaves[j]) ==> i == j
  }

  /** The nodal-normal component of each slave, 0 when none is attached. */
  function SlaveNormals(normals: map<DofKey, real>, slaves: seq<DofKey>): (n: seq<real>)
    ensures |n| == |slaves| && forall k :: 0 <= k < |slaves| ==> n[k] == Lookup(normals, slaves[k])
  {
    seq(|slaves|, k requires 0 <= k < |slaves| => Lookup(normals, slaves[k]))
  }

  /** The NODAL_MASS of each slave's node (0 for a node outside the model part, which the correction refuses). */
  function SlaveMasses(nodes: seq<Node>, slaves: seq<DofKey>): (m: seq<real>)
    ensures |m| == |slaves|
    ensures forall k :: 0 <= k < |slaves| && slaves[k].node < |nodes| ==> m[k] == nodes[slaves[k].node].nodalMass
  {
    seq(|slaves|, k requires 0 <= k < |slaves| => if slaves[k].node < |nodes| then nodes[slaves[k].node].nodalMass else 0.0)
  }

  /** The buffer-0 value of each slave DoF. */
  function SlaveValues(nodes: seq<Node>, slaves: seq<DofKey>): (v: seq<real>)
    ensures |v| == |slaves|
    ensures forall k :: 0 <= k < |slaves| && slaves[k].node < |nodes| ==> v[k] == Get(nodes[slaves[k].node].current, slaves[k].component)
  {
    seq(|slaves|, k requires 0 <= k < |slaves| => if slaves[k].node < |nodes| then Get(nodes[slaves[k].node].current, slaves[k].component) else 0.0)
  }

  /**
   * Whether the correction is defined: every slave's node is in the model part and the
   * divisor NODAL_MASS·RtMinvR of every slave is not zero.
   */
  predicate Correctable(nodes: seq<Node>, slaves: seq<DofKey>, rt: real) {
    forall k :: 0 <= k < |slaves| ==> slaves[k].node < |nodes| && nodes[slaves[k].node].nodalMass != 0.0 && rt != 0.0
  }

  /** The constants of the slaves, or none without slaves. */
  function SlaveConstants(nodes: seq<Node>, normals: map<DofKey, real>, slaves: seq<DofKey>, rt: real): (c: seq<real>)
    requires Correctable(nodes, slaves, rt)
    ensures |c| == |slaves|
  {
    if |slaves| == 0 then []
    else
      var m := SlaveMasses(nodes, slaves);
      assert forall k :: 0 <= k < |m| ==> m[k] == nodes[slaves[k].node].nodalMass;
      assert slaves[0].node < |nodes|;
      C.Corrections(SlaveNormals(normals, slaves), m, SlaveValues(nodes, slaves), rt)
  }

  /** The constants filed under the slaves' equation ids, slave after slave. */
  function Assigned(constants: map<nat, real>, slaves: seq<DofKey>, equationId: DofKey -> nat, c: seq<real>): map<nat, real>
    requires |c| == |slaves|
  {
    if |slaves| == 0 then constants
    else Assigned(constants, slaves[..|slaves| - 1], equationId, c[..|c| - 1])[equationId(slaves[|slaves| - 1]) := c[|c| - 1]]
  }

  /** With distinct equation ids each slave's constant is found under its id; every other id keeps its entry. */
  lemma {:induction false} AssignedAt(constants: map<nat, real>, slaves: seq<DofKey>, equationId: DofKey -> nat, c: seq<real>, id: nat)
    requires |c| == |slaves| && DistinctIds(slaves, equationId)
    ensures var r := Assigned(constants, slaves, equationId, c);
      (forall k :: 0 <= k < |slaves| && equationId(slaves[k]) == id ==> id in r && r[id] == c[k]) &&
      ((forall k :: 0 <= k < |slaves| ==> equationId(slaves[k]) != id) ==> (id in r <==> id in constants) && Lookup(r, id) == Lookup(constants, id))
  {
    if |slaves| > 0 {
      var init, last := slaves[..|slaves| - 1], |slaves| - 1;
      assert forall k :: 0 <= k < last ==> init[k] == slaves[k];
      assert DistinctIds(init, equationId);
      AssignedAt(constants, init, equationId, c[..last], id);
    }
  }

  /** A buffer with x added to component c. */
  function AddedTo(v: Values, c: Component, x: real): (r: Values)
    ensures forall d :: Get(r, d) == Get(v, d) + (if d == c then x else 0.0)
  {
    match c
    case VelocityX => v.(vx := v.vx + x)
    case VelocityY => v.(vy := v.vy + x)
    case VelocityZ => v.(vz := v.vz + x)
    case Pressure => v.(p := v.p + x)
  }

  predicate SlavesInside(slaves: seq<DofKey>, count: nat) {
    forall k :: 0 <= k < |slaves| ==> slaves[k].node < count
  }

  /** ApplyConservativeCorrections: slave after slave, buffers 0 and 1 of the slave DoF gain the constant filed under its equation id. */
  function Shifted(nodes: seq<Node>, slaves: seq<DofKey>, equationId: DofKey -> nat, constants: map<nat, real>): (r: seq<Node>)
    requires SlavesInside(slaves, |nodes|)
    ensures |r| == |nodes|
    ensures forall n :: 0 <= n < |r| ==> r[n].position == nodes[n].position
  {
    if |slaves| == 0 then nodes
    else
      var r := Shifted(nodes, slaves[..|slaves| - 1], equationId, constants);
      var k := slaves[|slaves| - 1];
      var x := Lookup(constants, equationId(k));
      r[k.node := r[k.node].(current := AddedTo(r[k.node].current, k.component, x),
                             previous := AddedTo(r[k.node].previous, k.component, x))]
  }

  /**
   * After the shift, a DoF listed once among the slaves has gained its constant in both
   * buffers, every other DoF keeps its values, and nothing but the buffers changes.
   */
  lemma {:induction false} ShiftedAt(nodes: seq<Node>, slaves: seq<DofKey>, equationId: DofKey -> nat, constants: map<nat, real>, d: DofKey)
    requires SlavesInside(slaves, |nodes|) && d.node < |nodes|
    requires forall i, j :: 0 <= i < j < |slaves| ==> slaves[i] != slaves[j]
    ensures var r := Shifted(nodes, slaves, equationId, constants);
      var x := if d in slaves then Lookup(constants, equationId(d)) else 0.0;
      Get(r[d.node].current, d.component) == Get(nodes[d.node].current, d.component) + x &&
      Get(r[d.node].previous, d.component) == Get(nodes[d.node].previous, d.component) + x &&
      r[d.node].(current := nodes[d.node].current, previous := nodes[d.node].previous) == nodes[d.node]
  {
    if |slaves| > 0 {
      var init := slaves[..|slaves| - 1];
      var k := slaves[|slaves| - 1];
      assert SlavesInside(init, |nodes|);
      ShiftedAt(nodes, init, equationId, constants, d);
      assert d in slaves <==> d in init || d == k;
      assert k !in init;
    }
  }

  /** The slave values after the shift are the values corrected by the constants filed for them. */
  lemma ShiftedValues(nodes: seq<Node>, slaves: seq<DofKey>, equationId: DofKey -> nat, constants: map<nat, real>, c: seq<real>)
    requires SlavesInside(slaves, |nodes|) && |c| == |slaves|
    requires forall i, j :: 0 <= i < j < |slaves| ==> slaves[i] != slaves[j]
    requires forall k :: 0 <= k < |slaves| ==> Lookup(constants, equationId(slaves[k])) == c[k]
    ensures SlaveValues(Shifted(nodes, slaves, equationId, constants), slaves) == C.Corrected(SlaveValues(nodes, slaves), c)
  {
    var r := Shifted(nodes, slaves, equationId, constants);
    forall k | 0 <= k < |slaves|
      ensures SlaveValues(r, slaves)[k] == C.Corrected(SlaveValues(nodes, slaves), c)[k]
    {
      ShiftedAt(nodes, slaves, equationId, constants, slaves[k]);
    }
  }

  /**
   * Zero flux: when the store's RtMinvR is Σ n²/M over its own slaves and not zero, and the
   * slaves have distinct equation ids, then after the constants are computed, filed and added
   * the slave values carry no flux through the boundary: Σ n[k]·v[k] = 0.
   */
  lemma {:induction false} CorrectedFluxIsZero(nodes: seq<Node>, normals: map<DofKey, real>, slaves: seq<DofKey>,
                                              equationId: DofKey -> nat, constants: map<nat, real>, rt: real)
    requires Correctable(nodes, slaves, rt) && DistinctIds(slaves, equationId)
    requires forall i, j :: 0 <= i < j < |slaves| ==> slaves[i] != slaves[j]
    requires |slaves| > 0 ==> rt == C.RtMinvR(SlaveNormals(normals, slaves), SlaveMasses(nodes, slaves))
    ensures var filed := Assigned(constants, slaves, equationId, SlaveConstants(nodes, normals, slaves, rt));
      SlavesInside(slaves, |nodes|) &&
      C.Flux(SlaveNormals(normals, slaves), SlaveValues(Shifted(nodes, slaves, equationId, filed), slaves)) == 0.0
  {
    var c := SlaveConstants(nodes, normals, slaves, rt);
    var filed := Assigned(constants, slaves, equationId, c);
    var n, m, v := SlaveNormals(normals, slaves), SlaveMasses(nodes, slaves), SlaveValues(nodes, slaves);
    assert SlavesInside(slaves, |nodes|);
    forall k | 0 <= k < |slaves|
      ensures Lookup(filed, equationId(slaves[k])) == c[k]
    {
      AssignedAt(constants, slaves, equationId, c, equationId(slaves[k]));
    }
    ShiftedValues(nodes, slaves, equationId, filed, c);
    if |slaves| > 0 {
      C.ZeroFlux(n, m, v, rt);
    }
  }

  // ---------------------------------------------------------------- Rt·M⁻¹·R over the slaves

  /** One velocity DoF's term of Rt·M⁻¹·R: its NORMAL component squared over its node's NODAL_MASS (0 where undefined). */
  function DofRtMinvR(nodes: seq<Node>, k: DofKey): real {
    if k.node < |nodes| && k.component != Pressure && nodes[k.node].nodalMass != 0.0 then
      SquareOver(At(nodes[k.node].normal, NormalIndex(k.component)), nodes[k.node].nodalMass)
    else 0.0
  }

  /** The terms of a list of DoFs, summed in list order. */
  function DofSum(nodes: seq<Node>, keys: seq<DofKey>): real {
    if |keys| == 0 then 0.0 else DofSum(nodes, keys[..|keys| - 1]) + DofRtMinvR(nodes, keys[|keys| - 1])
  }

  /** The first i velocity DoFs of node b, X first: the order of the component loop. */
  function NodeKeys(b: nat, i: nat): (keys: seq<DofKey>)
    requires i <= 3
    ensures |keys| == i
  {
    if i == 0 then [] else NodeKeys(b, i - 1) + [DofKey(b, VelocityComponent(i - 1))]
  }

  /** Node b's first i velocity DoFs are exactly its velocity components below i. */
  lemma {:induction false} NodeKeysMembers(b: nat, i: nat)
    requires i <= 3
    ensures forall k :: k in NodeKeys(b, i) <==> k.node == b && IsVelocityComponent(k.component, i)
  {
    if i > 0 {
      NodeKeysMembers(b, i - 1);
    }
  }

  /** The velocity DoFs of the boundary nodes in the order the normal loop visits them. */
  function BoundaryKeys(ids: seq<nat>, dim: nat): seq<DofKey>
    requires dim <= 3
  {
    if |ids| == 0 then [] else BoundaryKeys(ids[..|ids| - 1], dim) + NodeKeys(ids[|ids| - 1], dim)
  }

  /** The boundary's keys are exactly the first dim velocity DoFs of its nodes. */
  lemma {:induction false} BoundaryKeysMembers(ids: seq<nat>, dim: nat)
    requires dim <= 3
    ensures forall k :: k in BoundaryKeys(ids, dim) <==> k.node in ids && IsVelocityComponent(k.component, dim)
  {
    if |ids| > 0 {
      var init := ids[..|ids| - 1];
      BoundaryKeysMembers(init, dim);
      NodeKeysMembers(ids[|ids| - 1], dim);
      assert forall b :: b in ids <==> b in init || b == ids[|ids| - 1];
    }
  }

  predicate DistinctKeys(keys: seq<DofKey>) {
    forall i, j :: 0 <= i < j < |keys| ==> keys[i] != keys[j]
  }

  /** The sum over a concatenation is the sum of the sums. */
  lemma {:induction false} DofSumConcat(nodes: seq<Node>, a: seq<DofKey>, b: seq<DofKey>)
    ensures DofSum(nodes, a + b) == DofSum(nodes, a) + DofSum(nodes, b)
  {
    if |b| > 0 {
      assert (a + b)[..|a + b| - 1] == a + b[..|b| - 1];
      DofSumConcat(nodes, a, b[..|b| - 1]);
    } else {
      assert a + b == a;
    }
  }

  /** Removing the entry at index j takes its term out of the sum. */
  lemma {:induction false} DofSumRemove(nodes: seq<Node>, t: seq<DofKey>, j: nat)
    requires j < |t|
    ensures DofSum(nodes, t) == DofSum(nodes, t[..j] + t[j + 1..]) + DofRtMinvR(nodes, t[j])
  {
    assert t == t[..j] + [t[j]] + t[j + 1..];
    DofSumConcat(nodes, t[..j] + [t[j]], t[j + 1..]);
    DofSumConcat(nodes, t[..j], [t[j]]);
    assert ([] + [t[j]])[..0] == [];
    DofSumConcat(nodes, t[..j], t[j + 1..]);
  }

  /** Removing the entry at index j of a duplicate-free list removes exactly that DoF and keeps the list duplicate-free. */
  lemma {:induction false} RemoveAtMembers(t: seq<DofKey>, j: nat)
    requires DistinctKeys(t) && j < |t|
    ensures DistinctKeys(t[..j] + t[j + 1..])
    ensures forall k :: k in t[..j] + t[j + 1..] <==> k in t && k != t[j]
  {
    var t' := t[..j] + t[j + 1..];
    assert forall l :: 0 <= l < |t'| ==> t'[l] == t[if l < j then l else l + 1];
    forall k | k in t && k != t[j]
      ensures k in t'
    {
      var l :| 0 <= l < |t| && t[l] == k;
      assert t'[if l < j then l else l - 1] == k;
    }
  }

  lemma {:induction false} FirstIsMember(t: seq<DofKey>)
    ensures |t| > 0 ==> t[0] in t
  {
  }

  /** Two duplicate-free lists of the same DoFs have the same sum, whatever their orders. */
  lemma {:induction false} DofSumReorder(nodes: seq<Node>, s: seq<DofKey>, t: seq<DofKey>)
    requires DistinctKeys(s) && DistinctKeys(t)
    requires forall k :: k in s <==> k in t
    ensures DofSum(nodes, s) == DofSum(nodes, t)
    decreases |s|
  {
    if |s| == 0 {
      FirstIsMember(t);
    } else {
      var x := s[|s| - 1];
      assert x in t;
      var j :| 0 <= j < |t| && t[j] == x;
      RemoveAtMembers(t, j);
      RemoveAtMembers(s, |s| - 1);
      var s', t' := s[..|s| - 1], t[..j] + t[j + 1..];
      assert s[..|s| - 1] + s[|s|..] == s';
      forall k
        ensures k in s' <==> k in t'
      {
        assert k in s' <==> k in s && k != x;
        assert k in t' <==> k in t && k != x;
      }
      DofSumReorder(nodes, s[..|s| - 1], t[..j] + t[j + 1..]);
      DofSumRemove(nodes, t, j);
    }
  }

  /** The DoF term of node b's velocity component i is that NORMAL component squared over the NODAL_MASS. */
  lemma {:induction false} DofRtMinvROfComponent(nodes: seq<Node>, b: nat, i: nat)
    requires b < |nodes| && nodes[b].nodalMass != 0.0 && i < 3
    ensures DofRtMinvR(nodes, DofKey(b, VelocityComponent(i))) == SquareOver(At(nodes[b].normal, i), nodes[b].nodalMass)
  {
    assert NormalIndex(VelocityComponent(i)) == i;
  }

  lemma {:induction false} NodeRtMinvRAsSum(nodes: seq<Node>, b: nat, i: nat)
    requires b < |nodes| && nodes[b].nodalMass != 0.0 && i <= 3
    ensures NodeRtMinvR(nodes[b].normal, nodes[b].nodalMass, i) == DofSum(nodes, NodeKeys(b, i))
  {
    if i > 0 {
      NodeRtMinvRAsSum(nodes, b, i - 1);
      var keys := NodeKeys(b, i);
      assert keys[..i - 1] == NodeKeys(b, i - 1);
      assert keys[i - 1] == DofKey(b, VelocityComponent(i - 1));
      DofRtMinvROfComponent(nodes, b, i - 1);
      assert DofSum(nodes, keys) == DofSum(nodes, NodeKeys(b, i - 1)) + DofRtMinvR(nodes, keys[i - 1]);
    }
  }

  /** Rt·M⁻¹·R of a boundary is the sum of the terms of its velocity DoFs in loop order. */
  lemma {:induction false} BoundaryRtMinvRAsSum(nodes: seq<Node>, ids: seq<nat>, dim: nat)
    requires IdsInside(ids, |nodes|) && MassesNonzero(nodes, ids) && dim <= 3
    ensures BoundaryRtMinvR(nodes, ids, dim) == DofSum(nodes, BoundaryKeys(ids, dim))
  {
    if |ids| > 0 {
      var init := ids[..|ids| - 1];
      assert IdsInside(init, |nodes|) && MassesNonzero(nodes, init);
      BoundaryRtMinvRAsSum(nodes, init, dim);
      NodeRtMinvRAsSum(nodes, ids[|ids| - 1], dim);
      DofSumConcat(nodes, BoundaryKeys(init, dim), NodeKeys(ids[|ids| - 1], dim));
    }
  }

  lemma {:induction false} NodeKeysDistinct(b: nat, i: nat)
    requires i <= 3
    ensures DistinctKeys(NodeKeys(b, i))
    ensures forall k :: k in NodeKeys(b, i) ==> k.node == b
  {
    NodeKeysMembers(b, i);
    if i > 0 {
      NodeKeysDistinct(b, i - 1);
      NodeKeysMembers(b, i - 1);
      var c := VelocityComponent(i - 1);
      assert !IsVelocityComponent(c, i - 1);
    }
  }

  /** Each DoF of a boundary listed once in the node order appears once in the key order. */
  lemma {:induction false} BoundaryKeysDistinct(ids: seq<nat>, dim: nat)
    requires Distinct(ids) && dim <= 3
    ensures DistinctKeys(BoundaryKeys(ids, dim))
  {
    if |ids| > 0 {
      var init := ids[..|ids| - 1];
      var b := ids[|ids| - 1];
      assert Distinct(init);
      BoundaryKeysDistinct(init, dim);
      assert b !in init;
      var a, n := BoundaryKeys(init, dim), NodeKeys(b, dim);
      BoundaryKeysMembers(init, dim);
      NodeKeysDistinct(b, dim);
      forall i, j | 0 <= i < j < |a + n|
        ensures (a + n)[i] != (a + n)[j]
      {
        if j >= |a| && i < |a| {
          assert a[i] in a && a[i].node != b;
        }
      }
    }
  }

  /** Σ n²/m over the slaves is their DoF sum when each slave's n²/m is its DoF term. */
  lemma {:induction false} RtMinvRTermwise(nodes: seq<Node>, slaves: seq<DofKey>, n: seq<real>, m: seq<real>)
    requires |n| == |m| == |slaves| && forall k :: 0 <= k < |m| ==> m[k] != 0.0
    requires forall k :: 0 <= k < |slaves| ==> SquareOver(n[k], m[k]) == DofRtMinvR(nodes, slaves[k])
    ensures C.RtMinvR(n, m) == DofSum(nodes, slaves)
  {
    if |slaves| > 0 {
      var last := |slaves| - 1;
      RtMinvRTermwise(nodes, slaves[..last], n[..last], m[..last]);
    }
  }

  /**
   * With the boundary's normals attached, the slaves' Rt·M⁻¹·R accumulated over the slave list
   * is the sum of their terms, when every slave is a velocity DoF of a boundary node.
   */
  lemma {:induction false} SlaveRtMinvRAsSum(nodes: seq<Node>, ids: seq<nat>, dim: nat, normals: map<DofKey, real>, slaves: seq<DofKey>)
    requires IdsInside(ids, |nodes|) && MassesNonzero(nodes, ids) && dim <= 3
    requires forall k :: k in slaves ==> k.node in ids && IsVelocityComponent(k.component, dim)
    ensures forall k :: 0 <= k < |slaves| ==> SlaveMasses(nodes, slaves)[k] != 0.0
    ensures C.RtMinvR(SlaveNormals(NormalsAttached(normals, nodes, ids, dim), slaves), SlaveMasses(nodes, slaves)) == DofSum(nodes, slaves)
  {
    var n, m := SlaveNormals(NormalsAttached(normals, nodes, ids, dim), slaves), SlaveMasses(nodes, slaves);
    forall k | 0 <= k < |slaves|
      ensures m[k] != 0.0 && SquareOver(n[k], m[k]) == DofRtMinvR(nodes, slaves[k])
    {
      var d := slaves[k];
      assert d in slaves;
      var j :| 0 <= j < |ids| && ids[j] == d.node;
      NormalsAttachedAt(normals, nodes, ids, dim, d);
    }
    RtMinvRTermwise(nodes, slaves, n, m);
  }

  /**
   * The Rt·M⁻¹·R the normal loop gathers over a boundary (node after node, component after
   * component) equals the one over the velocity store's slaves in the store's order, when the
   * boundary lists each node once and the slaves are exactly the boundary's velocity DoFs.
   */
  lemma {:induction false} BoundaryRtMinvRIsSlaveRtMinvR(nodes: seq<Node>, ids: seq<nat>, dim: nat, normals: map<DofKey, real>,
                                                         slaves: seq<DofKey>)
    requires IdsInside(ids, |nodes|) && MassesNonzero(nodes, ids) && dim <= 3 && Distinct(ids)
    requires DistinctKeys(slaves)
    requires forall k :: k in slaves <==> k.node in ids && IsVelocityComponent(k.component, dim)
    ensures forall k :: 0 <= k < |slaves| ==> SlaveMasses(nodes, slaves)[k] != 0.0
    ensures BoundaryRtMinvR(nodes, ids, dim) ==
      C.RtMinvR(SlaveNormals(NormalsAttached(normals, nodes, ids, dim), slaves), SlaveMasses(nodes, slaves))
  {
    SlaveRtMinvRAsSum(nodes, ids, dim, normals, slaves);
    BoundaryRtMinvRAsSum(nodes, ids, dim);
    BoundaryKeysDistinct(ids, dim);
    BoundaryKeysMembers(ids, dim);
    DofSumReorder(nodes, slaves, BoundaryKeys(ids, dim));
  }
}
