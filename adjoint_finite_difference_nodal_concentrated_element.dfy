/**
 * The adjoint of the nodal concentrated element: its sensitivity matrices with respect to a
 * scalar or a vector design variable, the adjoint variables its extension exposes, and its check.
 */
module AdjointFiniteDifferenceNodalConcentratedElement {
  import opened Wrappers
  import opened Vectors

  type Matrix = seq<seq<real>>

  /** A matrix with `rows` rows of `cols` entries each. */
  predicate Shaped(m: Matrix, rows: nat, cols: nat) {
    |m| == rows && forall i :: 0 <= i < rows ==> |m[i]| == cols
  }

  function ZeroMatrix(rows: nat, cols: nat): (m: Matrix)
    ensures Shaped(m, rows, cols)
    ensures forall i, j :: 0 <= i < rows && 0 <= j < cols ==> m[i][j] == 0.0
  {
    seq(rows, i => seq(cols, j => 0.0))
  }

  datatype ScalarVariable = ScalarSensitivity | OtherScalar(name: string)

  datatype VectorVariable = ShapeSensitivity | NodalDisplacementStiffness | OtherVector(name: string)

  /** The unit stiffness in direction `dir`: the zero vector with component `dir` set to 1. */
  function Unit(dir: nat): (u: Vec3)
    requires dir < 3
    ensures At(u, dir) == 1.0
    ensures forall d :: 0 <= d < 3 && d != dir ==> At(u, d) == 0.0
  {
    With(Zero, dir, 1.0)
  }

  // ---------------------------------------------------------------- the extension's adjoint variables

  /** A nodal solution-step value addressed by node index, variable name and buffer step. */
  datatype NodalValueRef = NodalValueRef(node: nat, variable: string, step: nat)

  const AdjointVector2X: string := "ADJOINT_VECTOR_2_X"
  const AdjointVector3X: string := "ADJOINT_VECTOR_3_X"
  const AuxAdjointVector1X: string := "AUX_ADJOINT_VECTOR_1_X"

  /** The shared shape of the getters: the vector is resized to one entry, which is then bound to `entry`. */
  method SingleEntry<T>(v: seq<T>, entry: T) returns (r: seq<T>)
    ensures r == [entry]
  {
    r := v;
    if |r| != 1 {
      r := [entry];
    }
    r := r[0 := entry];
  }

  /** A node of the element: what Check looks for and the displacement the scalar sensitivity reads. */
  datatype NodeData = NodeData(
    hasAdjointDisplacement: bool,
    hasVolumeAcceleration: bool,
    hasAdjointDofs: bool,
    displacementX: real)

  predicate NodeChecks(n: NodeData) {
    n.hasAdjointDisplacement && n.hasVolumeAcceleration && n.hasAdjointDofs
  }

  class AdjointElement {
    /** Whether the element holds a primal element (the pointer is not null). */
    const hasPrimal: bool
    /** The nodes of the geometry. */
    const nodes: seq<NodeData>
    /** Whether the adjoint element's own data holds NODAL_DISPLACEMENT_STIFFNESS. */
    const hasStiffness: bool
    /** The primal element's NODAL_DISPLACEMENT_STIFFNESS. */
    var primalStiffness: Vec3

    constructor (hasPrimal: bool, nodes: seq<NodeData>, hasStiffness: bool, primalStiffness: Vec3)
      ensures this.hasPrimal == hasPrimal && this.nodes == nodes && this.hasStiffness == hasStiffness
      ensures this.primalStiffness == primalStiffness
    {
      this.hasPrimal := hasPrimal;
      this.nodes := nodes;
      this.hasStiffness := hasStiffness;
      this.primalStiffness := primalStiffness;
    }

    /** GetFirstDerivativesVector: ADJOINT_VECTOR_2_X of the node. */
    method GetFirstDerivativesVector(nodeId: nat, v: seq<NodalValueRef>, step: nat) returns (r: seq<NodalValueRef>)
      requires nodeId < |nodes|
      ensures r == [NodalValueRef(nodeId, AdjointVector2X, step)]
    {
      r := SingleEntry(v, NodalValueRef(nodeId, AdjointVector2X, step));
    }

    /** GetSecondDerivativesVector: ADJOINT_VECTOR_3_X of the node. */
    method GetSecondDerivativesVector(nodeId: nat, v: seq<NodalValueRef>, step: nat) returns (r: seq<NodalValueRef>)
      requires nodeId < |nodes|
      ensures r == [NodalValueRef(nodeId, AdjointVector3X, step)]
    {
      r := SingleEntry(v, NodalValueRef(nodeId, AdjointVector3X, step));
    }

    /** GetAuxiliaryVector: AUX_ADJOINT_VECTOR_1_X of the node. */
    method GetAuxiliaryVector(nodeId: nat, v: seq<NodalValueRef>, step: nat) returns (r: seq<NodalValueRef>)
      requires nodeId < |nodes|
      ensures r == [NodalValueRef(nodeId, AuxAdjointVector1X, step)]
    {
      r := SingleEntry(v, NodalValueRef(nodeId, AuxAdjointVector1X, step));
    }

    /** The three variable getters: ADJOINT_VECTOR_2, ADJOINT_VECTOR_3 and AUX_ADJOINT_VECTOR_1. */
    method GetFirstDerivativesVariables(v: seq<string>) returns (r: seq<string>)
      ensures r == ["ADJOINT_VECTOR_2"]
    {
      r := SingleEntry(v, "ADJOINT_VECTOR_2");
    }

    method GetSecondDerivativesVariables(v: seq<string>) returns (r: seq<string>)
      ensures r == ["ADJOINT_VECTOR_3"]
    {
      r := SingleEntry(v, "ADJOINT_VECTOR_3");
    }

    method GetAuxiliaryVariables(v: seq<string>) returns (r: seq<string>)
      ensures r == ["AUX_ADJOINT_VECTOR_1"]
    {
      r := SingleEntry(v, "AUX_ADJOINT_VECTOR_1");
    }

    // ---------------------------------------------------------------- sensitivity matrices

    /** The scalar overload: SCALAR_SENSITIVITY gives the 1x1 matrix -DISPLACEMENT_X of node 0; any other variable raises. */
    method CalculateScalarSensitivityMatrix(variable: ScalarVariable) returns (r: Result<Matrix>)
      requires |nodes| > 0
      ensures r.Ok? <==> variable == ScalarSensitivity
      ensures r.Ok? ==> r.value == [[-nodes[0].displacementX]] && Shaped(r.value, 1, 1)
    {
      if variable == ScalarSensitivity {
        var x := nodes[0].displacementX;
        return Ok([[-x]]);
      }
      return Err("invalid variable");
    }

    /**
     * The vector overload. SHAPE_SENSITIVITY gives a (dim·nodes)×(nodes·dim) zero matrix; a held
     * NODAL_DISPLACEMENT_STIFFNESS gives a dim×(nodes·dim) matrix whose row i is the primal
     * right-hand side `rhs` computed with unit stiffness in direction i, and puts the primal
     * stiffness back afterwards; a pseudo-load of the wrong size raises, leaving the perturbed
     * stiffness in place; any other variable gives a 0×(nodes·dim) matrix.
     */
    method CalculateVectorSensitivityMatrix(variable: VectorVariable, dimension: nat, rhs: Vec3 -> seq<real>)
      returns (r: Result<Matrix>)
      requires variable == NodalDisplacementStiffness && hasStiffness ==> dimension <= 3
      modifies this
      ensures var localSize := |nodes| * dimension;
        match variable
        case ShapeSensitivity =>
          r == Ok(ZeroMatrix(dimension * |nodes|, localSize)) && primalStiffness == old(primalStiffness)
        case NodalDisplacementStiffness =>
          if hasStiffness then
            (r.Ok? <==> forall i :: 0 <= i < dimension ==> |rhs(Unit(i))| == localSize) &&
            (r.Ok? ==> Shaped(r.value, dimension, localSize) &&
                       (forall i :: 0 <= i < dimension ==> r.value[i] == rhs(Unit(i))) &&
                       primalStiffness == old(primalStiffness)) &&
            (r.Err? ==> exists i :: 0 <= i < dimension && |rhs(Unit(i))| != localSize &&
                          primalStiffness == Unit(i) &&
                          forall k :: 0 <= k < i ==> |rhs(Unit(k))| == localSize)
          else
            r == Ok(ZeroMatrix(0, localSize)) && primalStiffness == old(primalStiffness)
        case OtherVector(_) =>
          r == Ok(ZeroMatrix(0, localSize)) && primalStiffness == old(primalStiffness)
    {
      var localSize := |nodes| * dimension;
      if variable == ShapeSensitivity {
        return Ok(ZeroMatrix(dimension * |nodes|, localSize));
      } else if hasStiffness && variable == NodalDisplacementStiffness {
        var saved := primalStiffness;
        primalStiffness := Zero;
        var rows: Matrix := [];
        for dir := 0 to dimension
          invariant |rows| == dir
          invariant forall i :: 0 <= i < dir ==> rows[i] == rhs(Unit(i)) && |rhs(Unit(i))| == localSize
        {
          primalStiffness := Unit(dir);
          var load := rhs(primalStiffness);
          if |load| != localSize {
            return Err("pseudo-load size");
          }
          rows := rows + [load];
        }
        primalStiffness := saved;
        return Ok(rows);
      }
      return Ok(ZeroMatrix(0, localSize));
    }

    /** Check: a missing primal element raises, then each node must hold the adjoint variables and DoFs. */
    method Check() returns (r: Result<int>)
      ensures r.Ok? <==> hasPrimal && forall i :: 0 <= i < |nodes| ==> NodeChecks(nodes[i])
      ensures r.Ok? ==> r.value == 0
    {
      if !hasPrimal {
        return Err("primal element is null");
      }
      for i := 0 to |nodes|
        invariant forall k :: 0 <= k < i ==> NodeChecks(nodes[k])
      {
        if !nodes[i].hasAdjointDisplacement || !nodes[i].hasVolumeAcceleration || !nodes[i].hasAdjointDofs {
          return Err("missing nodal data");
        }
      }
      return Ok(0);
    }
  }
}
