/**
 * The ALE structural mesh-moving strategy: the mesh is reset to its reference positions,
 * an inner linear solve yields the mesh displacement, the mesh velocity follows from a
 * first- or second-order backward difference, and the mesh is moved to X0 + displacement.
 */
module StructuralMeshMovingStrategy {
  import opened Vectors

  /** A mesh node: current position X, reference position X0 and its nodal solution-step buffers. */
  datatype MeshNode = MeshNode(
    position: Vec3,
    reference: Vec3,
    meshDisplacement: seq<Vec3>,  // MESH_DISPLACEMENT, buffer 0 = current step
    meshVelocity: Vec3)           // MESH_VELOCITY, buffer 0

  /** An element of the model part: Id, geometry (node ids) and properties id. */
  datatype Element = Element(id: nat, geometry: seq<nat>, properties: nat)

  /** A StructuralMeshMovingElement built over the same Id, geometry and properties. */
  datatype MeshElement = MeshElement(id: nat, geometry: seq<nat>, properties: nat)

  // ---------------------------------------------------------------- mesh velocity

  /** The time step actually used: a non-positive DELTA_TIME is negated. */
  function EffectiveDeltaTime(dt: real): (e: real)
    ensures dt != 0.0 ==> e > 0.0
    ensures e == dt || e == -dt
  {
    if dt <= 0.0 then dt * -1.0 else dt
  }

  /** Steps of MESH_DISPLACEMENT the velocity formula of `order` reads. */
  function HistoryLength(order: int): (n: nat)
    ensures n >= 2
  {
    if order == 1 then 2 else 3
  }

  /**
   * The mesh velocity: (d0 - d1)/Δt for order 1, (1.5 d0 - 2 d1 + 0.5 d2)/Δt for any other order,
   * with Δt the effective time step.
   */
  function MeshVelocity(order: int, d: seq<Vec3>, dt: real): Vec3
    requires dt != 0.0 && |d| >= HistoryLength(order)
  {
    var coeff := 1.0 / EffectiveDeltaTime(dt);
    if order == 1 then Scale(coeff, Sub(d[0], d[1]))
    else Add(Add(Scale(1.5 * coeff, d[0]), Scale(-2.0 * coeff, d[1])), Scale(0.5 * coeff, d[2]))
  }

  /** Δt and -Δt give the same mesh velocity. */
  lemma {:induction false} MeshVelocityIgnoresSign(order: int, d: seq<Vec3>, dt: real)
    requires dt != 0.0 && |d| >= HistoryLength(order)
    ensures MeshVelocity(order, d, -dt) == MeshVelocity(order, d, dt)
  {
    assert EffectiveDeltaTime(-dt) == EffectiveDeltaTime(dt);
  }

  /** Order 1 on a history advancing by `s` per step yields s/Δt. */
  lemma {:induction false} FirstOrderIsExact(d: seq<Vec3>, s: Vec3, dt: real)
    requires dt != 0.0 && |d| >= 2
    requires d[1] == Sub(d[0], s)
    ensures MeshVelocity(1, d, dt) == Scale(1.0 / EffectiveDeltaTime(dt), s)
  {
  }

  /** One component of the second-order formula on a history advancing by `s` per step. */
  lemma {:induction false} SecondOrderComponent(c: real, d0: real, d1: real, d2: real, s: real)
    requires d1 == d0 - s && d2 == d0 - 2.0 * s
    ensures (1.5 * c) * d0 + (-2.0 * c) * d1 + (0.5 * c) * d2 == c * s
  {
    calc {
      (1.5 * c) * d0 + (-2.0 * c) * d1 + (0.5 * c) * d2;
      c * (1.5 * d0 - 2.0 * d1 + 0.5 * d2);
      c * s;
    }
  }

  /**
   * The second-order formula is exact on a history advancing by `s` per step (a motion at
   * constant velocity): it yields s/Δt, as order 1 does.
   */
  lemma {:induction false} SecondOrderIsExact(order: int, d: seq<Vec3>, s: Vec3, dt: real)
    requires order != 1 && dt != 0.0 && |d| >= 3
    requires d[1] == Sub(d[0], s) && d[2] == Sub(d[0], Scale(2.0, s))
    ensures MeshVelocity(order, d, dt) == Scale(1.0 / EffectiveDeltaTime(dt), s)
  {
    var c := 1.0 / EffectiveDeltaTime(dt);
    SecondOrderComponent(c, d[0].x, d[1].x, d[2].x, s.x);
    SecondOrderComponent(c, d[0].y, d[1].y, d[2].y, s.y);
    SecondOrderComponent(c, d[0].z, d[1].z, d[2].z, s.z);
  }

  /** The first-order velocity times Δt gives back the displacement increment. */
  lemma {:induction false} FirstOrderInverts(d: seq<Vec3>, dt: real)
    requires dt != 0.0 && |d| >= 2
    ensures Add(d[1], Scale(EffectiveDeltaTime(dt), MeshVelocity(1, d, dt))) == d[0]
  {
    var e := EffectiveDeltaTime(dt);
    assert e * (1.0 / e) == 1.0;
  }

  // ---------------------------------------------------------------- node updates

  /** Every node holds the MESH_DISPLACEMENT steps the velocity formula reads. */
  predicate HasHistory(nodes: seq<MeshNode>, order: int) {
    forall i :: 0 <= i < |nodes| ==> |nodes[i].meshDisplacement| >= HistoryLength(order)
  }

  /** The copy of the model part's elements the mesh part is built with. */
  function MeshElementsOf(elements: seq<Element>): (r: seq<MeshElement>)
    ensures |r| == |elements|
    ensures forall i :: 0 <= i < |r| ==>
      r[i].id == elements[i].id && r[i].geometry == elements[i].geometry && r[i].properties == elements[i].properties
  {
    seq(|elements|, i requires 0 <= i < |elements| => MeshElement(elements[i].id, elements[i].geometry, elements[i].properties))
  }

  /** The model part: its nodes (shared with the mesh part), its elements and DELTA_TIME. */
  class ModelPart {
    var nodes: seq<MeshNode>
    var elements: seq<Element>
    var deltaTime: real

    constructor (nodes: seq<MeshNode>, elements: seq<Element>, deltaTime: real)
      ensures this.nodes == nodes && this.elements == elements && this.deltaTime == deltaTime
    {
      this.nodes := nodes;
      this.elements := elements;
      this.deltaTime := deltaTime;
    }
  }

  class Strategy {
    const modelPart: ModelPart
    /** The mesh part's elements; its nodes are the model part's nodes. */
    var meshElements: seq<MeshElement>
    const velocityOrder: int
    const reformDofAtEveryStep: bool
    /** The compute_reactions flag handed to the inner linear strategy. */
    const innerComputeReactions: bool
    /** How many times the inner strategy has been cleared. */
    var innerClears: nat

    /**
     * The constructor: builds the mesh part, stores the order and the reform flag, and creates
     * the inner strategy. Its local `compute_reactions` shadows the argument, so the inner
     * strategy never computes reactions.
     */
    constructor (mp: ModelPart, velocityOrder: int := 2, reformDofAtEveryStep: bool := false, computeReactions: bool := false)
      ensures modelPart == mp && meshElements == MeshElementsOf(mp.elements)
      ensures this.velocityOrder == velocityOrder && this.reformDofAtEveryStep == reformDofAtEveryStep
      ensures innerComputeReactions == false && innerClears == 0
    {
      modelPart := mp;
      var elems := GenerateMeshPart(mp.elements);
      meshElements := elems;
      this.velocityOrder := velocityOrder;
      this.reformDofAtEveryStep := reformDofAtEveryStep;
      var computeReactions := false;
      innerComputeReactions := computeReactions;
      innerClears := 0;
    }

    /** GenerateMeshPart: one mesh element per model-part element, same Id, geometry and properties. */
    static method GenerateMeshPart(elements: seq<Element>) returns (meshElems: seq<MeshElement>)
      ensures meshElems == MeshElementsOf(elements)
    {
      meshElems := [];
      for i := 0 to |elements|
        invariant meshElems == MeshElementsOf(elements[..i])
      {
        assert elements[..i + 1] == elements[..i] + [elements[i]];
        meshElems := meshElems + [MeshElement(elements[i].id, elements[i].geometry, elements[i].properties)];
      }
      assert elements[..|elements|] == elements;
    }

    /** The first loop of Solve: every mesh node is put back at its reference position. */
    method ResetToReference()
      modifies modelPart
      ensures modelPart.elements == old(modelPart.elements) && modelPart.deltaTime == old(modelPart.deltaTime)
      ensures |modelPart.nodes| == |old(modelPart.nodes)|
      ensures forall i :: 0 <= i < |modelPart.nodes| ==>
        modelPart.nodes[i] == old(modelPart.nodes)[i].(position := old(modelPart.nodes)[i].reference)
    {
      ghost var before := modelPart.nodes;
      var i := 0;
      while i < |modelPart.nodes|
        modifies modelPart
        invariant 0 <= i <= |modelPart.nodes| == |before|
        invariant modelPart.elements == old(modelPart.elements) && modelPart.deltaTime == old(modelPart.deltaTime)
        invariant forall k :: 0 <= k < i ==> modelPart.nodes[k] == before[k].(position := before[k].reference)
        invariant forall k :: i <= k < |modelPart.nodes| ==> modelPart.nodes[k] == before[k]
      {
        var n := modelPart.nodes[i];
        modelPart.nodes := modelPart.nodes[i := n.(position := n.reference)];
        i := i + 1;
      }
    }

    /** The inner linear solve, whose effect is given: it leaves `solution[i]` as node i's MESH_DISPLACEMENT. */
    method InnerSolve(solution: seq<Vec3>)
      requires |solution| == |modelPart.nodes|
      requires forall i :: 0 <= i < |modelPart.nodes| ==> |modelPart.nodes[i].meshDisplacement| > 0
      modifies modelPart
      ensures modelPart.elements == old(modelPart.elements) && modelPart.deltaTime == old(modelPart.deltaTime)
      ensures |modelPart.nodes| == |old(modelPart.nodes)|
      ensures forall i :: 0 <= i < |modelPart.nodes| ==>
        modelPart.nodes[i] == old(modelPart.nodes)[i].(meshDisplacement := old(modelPart.nodes)[i].meshDisplacement[0 := solution[i]])
    {
      ghost var before := modelPart.nodes;
      var i := 0;
      while i < |modelPart.nodes|
        modifies modelPart
        invariant 0 <= i <= |modelPart.nodes| == |before|
        invariant modelPart.elements == old(modelPart.elements) && modelPart.deltaTime == old(modelPart.deltaTime)
        invariant forall k :: 0 <= k < i ==>
          modelPart.nodes[k] == before[k].(meshDisplacement := before[k].meshDisplacement[0 := solution[k]])
        invariant forall k :: i <= k < |modelPart.nodes| ==> modelPart.nodes[k] == before[k]
      {
        var n := modelPart.nodes[i];
        modelPart.nodes := modelPart.nodes[i := n.(meshDisplacement := n.meshDisplacement[0 := solution[i]])];
        i := i + 1;
      }
    }

    /** CalculateMeshVelocities: MESH_VELOCITY from the MESH_DISPLACEMENT history of each node. */
    method CalculateMeshVelocities()
      requires modelPart.deltaTime != 0.0 && HasHistory(modelPart.nodes, velocityOrder)
      modifies modelPart
      ensures modelPart.elements == old(modelPart.elements) && modelPart.deltaTime == old(modelPart.deltaTime)
      ensures |modelPart.nodes| == |old(modelPart.nodes)|
      ensures forall i :: 0 <= i < |modelPart.nodes| ==>
        modelPart.nodes[i] == old(modelPart.nodes)[i].(meshVelocity :=
          MeshVelocity(velocityOrder, old(modelPart.nodes)[i].meshDisplacement, modelPart.deltaTime))
    {
      var dt := modelPart.deltaTime;
      if dt <= 0.0 {
        dt := dt * -1.0;
      }
      assert dt == EffectiveDeltaTime(modelPart.deltaTime);
      var coeff := 1.0 / dt;
      ghost var before := modelPart.nodes;
      var i := 0;
      while i < |modelPart.nodes|
        modifies modelPart
        invariant 0 <= i <= |modelPart.nodes| == |before|
        invariant modelPart.elements == old(modelPart.elements) && modelPart.deltaTime == old(modelPart.deltaTime)
        invariant forall k :: 0 <= k < i ==>
          modelPart.nodes[k] == before[k].(meshVelocity := MeshVelocity(velocityOrder, before[k].meshDisplacement, modelPart.deltaTime))
        invariant forall k :: i <= k < |modelPart.nodes| ==> modelPart.nodes[k] == before[k]
      {
        var n := modelPart.nodes[i];
        var d := n.meshDisplacement;
        var v;
        if velocityOrder == 1 {
          v := Scale(coeff, Sub(d[0], d[1]));
        } else {
          v := Add(Add(Scale(1.5 * coeff, d[0]), Scale(-2.0 * coeff, d[1])), Scale(0.5 * coeff, d[2]));
        }
        modelPart.nodes := modelPart.nodes[i := n.(meshVelocity := v)];
        i := i + 1;
      }
    }

    /** MoveMesh: X = X0 + MESH_DISPLACEMENT on every node; X0 is not touched. */
    method MoveMesh()
      requires forall i :: 0 <= i < |modelPart.nodes| ==> |modelPart.nodes[i].meshDisplacement| > 0
      modifies modelPart
      ensures modelPart.elements == old(modelPart.elements) && modelPart.deltaTime == old(modelPart.deltaTime)
      ensures |modelPart.nodes| == |old(modelPart.nodes)|
      ensures forall i :: 0 <= i < |modelPart.nodes| ==>
        modelPart.nodes[i] == old(modelPart.nodes)[i].(position :=
          Add(old(modelPart.nodes)[i].reference, old(modelPart.nodes)[i].meshDisplacement[0]))
    {
      ghost var before := modelPart.nodes;
      var i := 0;
      while i < |modelPart.nodes|
        modifies modelPart
        invariant 0 <= i <= |modelPart.nodes| == |before|
        invariant modelPart.elements == old(modelPart.elements) && modelPart.deltaTime == old(modelPart.deltaTime)
        invariant forall k :: 0 <= k < i ==>
          modelPart.nodes[k] == before[k].(position := Add(before[k].reference, before[k].meshDisplacement[0]))
        invariant forall k :: i <= k < |modelPart.nodes| ==> modelPart.nodes[k] == before[k]
      {
        var n := modelPart.nodes[i];
        var x := Vec3(n.reference.x + n.meshDisplacement[0].x, n.reference.y + n.meshDisplacement[0].y,
                      n.reference.z + n.meshDisplacement[0].z);
        modelPart.nodes := modelPart.nodes[i := n.(position := x)];
        i := i + 1;
      }
    }

    /** UpdateReferenceMesh: X0 = X on every node. */
    method UpdateReferenceMesh()
      modifies modelPart
      ensures modelPart.elements == old(modelPart.elements) && modelPart.deltaTime == old(modelPart.deltaTime)
      ensures |modelPart.nodes| == |old(modelPart.nodes)|
      ensures forall i :: 0 <= i < |modelPart.nodes| ==>
        modelPart.nodes[i] == old(modelPart.nodes)[i].(reference := old(modelPart.nodes)[i].position)
    {
      ghost var before := modelPart.nodes;
      var i := 0;
      while i < |modelPart.nodes|
        modifies modelPart
        invariant 0 <= i <= |modelPart.nodes| == |before|
        invariant modelPart.elements == old(modelPart.elements) && modelPart.deltaTime == old(modelPart.deltaTime)
        invariant forall k :: 0 <= k < i ==> modelPart.nodes[k] == before[k].(reference := before[k].position)
        invariant forall k :: i <= k < |modelPart.nodes| ==> modelPart.nodes[k] == before[k]
      {
        var n := modelPart.nodes[i];
        modelPart.nodes := modelPart.nodes[i := n.(reference := n.position)];
        i := i + 1;
      }
    }

    /**
     * Solve: reset to the reference mesh, solve for the mesh displacement (`solution`), compute
     * the mesh velocities and move the mesh; clear the inner strategy when the DoFs are reformed
     * at every step. Always returns 0.0.
     */
    method Solve(solution: seq<Vec3>) returns (r: real)
      requires modelPart.deltaTime != 0.0 && HasHistory(modelPart.nodes, velocityOrder)
      requires |solution| == |modelPart.nodes|
      modifies this, modelPart
      ensures r == 0.0
      ensures innerClears == old(innerClears) + (if reformDofAtEveryStep then 1 else 0)
      ensures modelPart.elements == old(modelPart.elements) && modelPart.deltaTime == old(modelPart.deltaTime)
      ensures |modelPart.nodes| == |old(modelPart.nodes)|
      ensures forall i :: 0 <= i < |modelPart.nodes| ==>
        modelPart.nodes[i] == SolvedNode(old(modelPart.nodes)[i], solution[i], velocityOrder, modelPart.deltaTime)
    {
      ResetToReference();
      InnerSolve(solution);
      CalculateMeshVelocities();
      MoveMesh();
      if reformDofAtEveryStep {
        innerClears := innerClears + 1;
      }
      r := 0.0;
    }
  }

  /** A node after Solve, given the inner solve's displacement `u`. */
  function SolvedNode(n: MeshNode, u: Vec3, order: int, dt: real): MeshNode
    requires dt != 0.0 && |n.meshDisplacement| >= HistoryLength(order)
  {
    var d := n.meshDisplacement[0 := u];
    n.(position := Add(n.reference, u), meshDisplacement := d, meshVelocity := MeshVelocity(order, d, dt))
  }

  /** After Solve the node sits at X0 + u, X0 is unchanged, and u enters the velocity as the newest step. */
  lemma {:induction false} SolvedNodeMovesByDisplacement(n: MeshNode, u: Vec3, order: int, dt: real)
    requires dt != 0.0 && |n.meshDisplacement| >= HistoryLength(order)
    ensures Sub(SolvedNode(n, u, order, dt).position, n.reference) == u
    ensures SolvedNode(n, u, order, dt).reference == n.reference
    ensures order == 1 ==> Add(n.meshDisplacement[1], Scale(EffectiveDeltaTime(dt), SolvedNode(n, u, order, dt).meshVelocity)) == u
  {
    var d := n.meshDisplacement[0 := u];
    if order == 1 {
      FirstOrderInverts(d, dt);
    }
  }
}
