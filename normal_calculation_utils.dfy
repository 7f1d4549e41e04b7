/**
 * The kernel's normal utilities: resetting nodal normals, area normals of 2D edges and 3D
 * triangles, their equal-share distribution onto the nodes, the swap of the first two nodes of
 * each condition, and the normalisation of area normals to unit normals.
 */
module NormalCalculationUtils {
  import opened Wrappers
  import opened Vectors

  /** std::numeric_limits<double>::epsilon(), 2^-52. */
  const Epsilon: real := 1.0 / 4503599627370496.0

  /** A node: its coordinates, its NORMAL solution-step value and its INTERFACE flag. */
  datatype Node = Node(position: Vec3, normal: Vec3, isInterface: bool)

  /** A condition: its geometry as node indices and its own NORMAL value. */
  datatype Condition = Condition(geometry: seq<nat>, normal: Vec3)

  /** Whether every geometry refers to nodes among the first `count`. */
  predicate GeometriesInside(geometries: seq<seq<nat>>, count: nat) {
    forall k, j :: 0 <= k < |geometries| && 0 <= j < |geometries[k]| ==> geometries[k][j] < count
  }

  /** Whether every condition's geometry refers to nodes among the first `count`. */
  predicate ConditionsInside(conditions: seq<Condition>, count: nat) {
    forall k, j :: 0 <= k < |conditions| && 0 <= j < |conditions[k].geometry| ==> conditions[k].geometry[j] < count
  }

  function GeometriesOf(conditions: seq<Condition>): (g: seq<seq<nat>>)
    ensures |g| == |conditions| && forall k :: 0 <= k < |g| ==> g[k] == conditions[k].geometry
  {
    seq(|conditions|, k requires 0 <= k < |conditions| => conditions[k].geometry)
  }

  /** Whether node n belongs to one of the geometries. */
  predicate Touched(geometries: seq<seq<nat>>, n: nat) {
    exists k :: 0 <= k < |geometries| && n in geometries[k]
  }

  /** One more geometry touches the nodes it holds in addition to those touched before. */
  lemma TouchedStep(geometries: seq<seq<nat>>, k: nat, n: nat)
    requires k < |geometries|
    ensures Touched(geometries[..k + 1], n) <==> Touched(geometries[..k], n) || n in geometries[k]
  {
    var pre := geometries[..k];
    var ext := geometries[..k + 1];
    assert forall i :: 0 <= i < k ==> ext[i] == pre[i];
    assert ext[k] == geometries[k];
    if Touched(ext, n) && !(n in geometries[k]) {
      var i :| 0 <= i < |ext| && n in ext[i];
      assert n in pre[i];
    }
  }

  // ---------------------------------------------------------------- area normals

  /** CalculateNormal2D: the edge p0→p1 turned clockwise by a right angle. */
  function Normal2D(p0: Vec3, p1: Vec3): Vec3 {
    Vec3(p1.y - p0.y, -(p1.x - p0.x), 0.0)
  }

  /** CalculateNormal3D: half the cross product of the two edges leaving p0. */
  function Normal3D(p0: Vec3, p1: Vec3, p2: Vec3): Vec3 {
    Scale(0.5, Cross(Sub(p1, p0), Sub(p2, p0)))
  }

  /** The 2D normal is perpendicular to its edge, lies in the plane, and is as long as the edge. */
  lemma {:induction false} Normal2DIsPerpendicular(p0: Vec3, p1: Vec3)
    ensures Dot(Normal2D(p0, p1), Sub(p1, p0)) == 0.0
    ensures Normal2D(p0, p1).z == 0.0
    ensures Dot(Normal2D(p0, p1), Normal2D(p0, p1)) == (p1.x - p0.x) * (p1.x - p0.x) + (p1.y - p0.y) * (p1.y - p0.y)
  {
  }

  /** The 3D normal is perpendicular to both edges of the triangle. */
  lemma {:induction false} Normal3DIsPerpendicular(p0: Vec3, p1: Vec3, p2: Vec3)
    ensures Dot(Normal3D(p0, p1, p2), Sub(p1, p0)) == 0.0
    ensures Dot(Normal3D(p0, p1, p2), Sub(p2, p0)) == 0.0
  {
    var c := Cross(Sub(p1, p0), Sub(p2, p0));
    CrossIsPerpendicular(Sub(p1, p0), Sub(p2, p0));
    DotScaleLeft(0.5, c, Sub(p1, p0));
    DotScaleLeft(0.5, c, Sub(p2, p0));
  }

  /** Exchanging the end points of an edge negates its 2D normal. */
  lemma {:induction false} Normal2DOfReversedEdge(p0: Vec3, p1: Vec3)
    ensures Normal2D(p1, p0) == Neg(Normal2D(p0, p1))
  {
  }

  /**
   * The NORMAL a condition holds after the first loop of CalculateOnSimplex: recomputed for
   * two-node conditions in 2D and three-node conditions in 3D, kept as stored otherwise.
   */
  function SimplexNormal(c: Condition, nodes: seq<Node>, dimension: nat): (v: Vec3)
    requires forall j :: 0 <= j < |c.geometry| ==> c.geometry[j] < |nodes|
    ensures !(dimension == 2 && |c.geometry| == 2) && !(dimension == 3 && |c.geometry| == 3) ==> v == c.normal
  {
    var g := c.geometry;
    if dimension == 2 && |g| == 2 then Normal2D(nodes[g[0]].position, nodes[g[1]].position)
    else if dimension == 3 && |g| == 3 then Normal3D(nodes[g[0]].position, nodes[g[1]].position, nodes[g[2]].position)
    else c.normal
  }

  // ---------------------------------------------------------------- distribution onto the nodes

  /** The normals with `coeff * v` added once for every entry of `g`, entry by entry. */
  function AddShare(normals: seq<Vec3>, g: seq<nat>, coeff: real, v: Vec3): (r: seq<Vec3>)
    requires forall j :: 0 <= j < |g| ==> g[j] < |normals|
    ensures |r| == |normals|
  {
    if |g| == 0 then normals
    else
      var r := AddShare(normals, g[..|g| - 1], coeff, v);
      var n := g[|g| - 1];
      r[n := Add(r[n], Scale(coeff, v))]
  }

  /** The share of a node in a condition: 1/size of the condition normal per occurrence. */
  function Coefficient(g: seq<nat>): real {
    if |g| == 0 then 0.0 else 1.0 / (|g| as real)
  }

  /** The second loop of CalculateOnSimplex, condition after condition. */
  function Distribute(normals: seq<Vec3>, conditions: seq<Condition>): (r: seq<Vec3>)
    requires ConditionsInside(conditions, |normals|)
    ensures |r| == |normals|
  {
    if |conditions| == 0 then normals
    else
      var init := conditions[..|conditions| - 1];
      var c := conditions[|conditions| - 1];
      AddShare(Distribute(normals, init), c.geometry, Coefficient(c.geometry), c.normal)
  }

  /** `count` equal shares of `coeff`. */
  function Share(coeff: real, count: nat): real {
    coeff * (count as real)
  }

  /** One more occurrence adds one more share. */
  lemma ShareStep(coeff: real, count: nat)
    ensures Share(coeff, count + 1) == Share(coeff, count) + coeff
  {
  }

  /** The number of occurrences of n in g. */
  function Occurrences(g: seq<nat>, n: nat): nat {
    if |g| == 0 then 0 else Occurrences(g[..|g| - 1], n) + (if g[|g| - 1] == n then 1 else 0)
  }

  /** Occurrences counts the entries equal to n: zero exactly when n is not in g. */
  lemma {:induction false} OccurrencesZero(g: seq<nat>, n: nat)
    ensures Occurrences(g, n) == 0 <==> n !in g
  {
    if |g| > 0 {
      OccurrencesZero(g[..|g| - 1], n);
      assert g == g[..|g| - 1] + [g[|g| - 1]];
    }
  }

  /** Two shares of the same vector add up. */
  lemma {:induction false} SharesAddUp(base: Vec3, a: real, b: real, v: Vec3)
    ensures Add(Add(base, Scale(a, v)), Scale(b, v)) == Add(base, Scale(a + b, v))
  {
    assert (a + b) * v.x == a * v.x + b * v.x;
    assert (a + b) * v.y == a * v.y + b * v.y;
    assert (a + b) * v.z == a * v.z + b * v.z;
  }

  /** What the conditions add to node n: occurrences/size times each condition normal. */
  function TotalShare(conditions: seq<Condition>, n: nat): Vec3 {
    if |conditions| == 0 then Zero
    else
      var c := conditions[|conditions| - 1];
      Add(TotalShare(conditions[..|conditions| - 1], n), Scale(Share(Coefficient(c.geometry), Occurrences(c.geometry, n)), c.normal))
  }

  /** AddShare adds `coeff * v` to a node as many times as it occurs in g. */
  lemma {:induction false} AddShareAdds(normals: seq<Vec3>, g: seq<nat>, coeff: real, v: Vec3, n: nat)
    requires forall j :: 0 <= j < |g| ==> g[j] < |normals|
    requires n < |normals|
    ensures AddShare(normals, g, coeff, v)[n] == Add(normals[n], Scale(Share(coeff, Occurrences(g, n)), v))
  {
    if |g| == 0 {
      assert Share(coeff, 0) == 0.0;
      assert Scale(0.0, v) == Zero;
    } else {
      var init := g[..|g| - 1];
      var last := g[|g| - 1];
      AddShareAdds(normals, init, coeff, v, n);
      var r := AddShare(normals, init, coeff, v);
      assert AddShare(normals, g, coeff, v) == r[last := Add(r[last], Scale(coeff, v))];
      if last == n {
        assert Occurrences(g, n) == Occurrences(init, n) + 1;
        SharesAddUp(normals[n], Share(coeff, Occurrences(init, n)), coeff, v);
        ShareStep(coeff, Occurrences(init, n));
      } else {
        assert Occurrences(g, n) == Occurrences(init, n);
      }
    }
  }

  /** After the distribution each node holds its old normal plus its equal shares of every condition normal. */
  lemma {:induction false} DistributeAddsShares(normals: seq<Vec3>, conditions: seq<Condition>, n: nat)
    requires ConditionsInside(conditions, |normals|)
    requires n < |normals|
    ensures Distribute(normals, conditions)[n] == Add(normals[n], TotalShare(conditions, n))
  {
    if |conditions| == 0 {
      assert Add(normals[n], Zero) == normals[n];
    } else {
      var init := conditions[..|conditions| - 1];
      var c := conditions[|conditions| - 1];
      assert ConditionsInside(init, |normals|) by {
        assert forall k :: 0 <= k < |init| ==> init[k] == conditions[k];
      }
      var d := Distribute(normals, init);
      var share := Scale(Share(Coefficient(c.geometry), Occurrences(c.geometry, n)), c.normal);
      DistributeAddsShares(normals, init, n);
      AddShareAdds(d, c.geometry, Coefficient(c.geometry), c.normal, n);
      calc {
        Distribute(normals, conditions)[n];
        AddShare(d, c.geometry, Coefficient(c.geometry), c.normal)[n];
        Add(d[n], share);
        Add(Add(normals[n], TotalShare(init, n)), share);
        { AddAssociative(normals[n], TotalShare(init, n), share); }
        Add(normals[n], Add(TotalShare(init, n), share));
        Add(normals[n], TotalShare(conditions, n));
      }
    }
  }

  /** A node that belongs to no condition receives nothing. */
  lemma {:induction false} UntouchedNodeGetsNothing(conditions: seq<Condition>, n: nat)
    requires !Touched(GeometriesOf(conditions), n)
    ensures TotalShare(conditions, n) == Zero
  {
    if |conditions| > 0 {
      var init := conditions[..|conditions| - 1];
      var c := conditions[|conditions| - 1];
      assert GeometriesOf(init) == GeometriesOf(conditions)[..|conditions| - 1];
      assert GeometriesOf(conditions)[|conditions| - 1] == c.geometry;
      UntouchedNodeGetsNothing(init, n);
      assert n !in c.geometry;
      OccurrencesZero(c.geometry, n);
      assert Scale(0.0, c.normal) == Zero;
    }
  }

  // ---------------------------------------------------------------- swap

  /** The geometry with its first two nodes exchanged. */
  function SwapFirstTwo(g: seq<nat>): (r: seq<nat>)
    requires |g| >= 2
    ensures |r| == |g| && r[0] == g[1] && r[1] == g[0]
    ensures forall j :: 2 <= j < |g| ==> r[j] == g[j]
  {
    g[0 := g[1]][1 := g[0]]
  }

  /** Swapping twice restores the geometry. */
  lemma {:induction false} SwapTwiceRestores(g: seq<nat>)
    requires |g| >= 2
    ensures SwapFirstTwo(SwapFirstTwo(g)) == g
  {
  }

  /** A swapped two-node condition gets the opposite 2D normal when its normal is recomputed. */
  lemma {:induction false} SwappedEdgeHasOppositeNormal(c: Condition, nodes: seq<Node>)
    requires |c.geometry| == 2 && c.geometry[0] < |nodes| && c.geometry[1] < |nodes|
    ensures SimplexNormal(c.(geometry := SwapFirstTwo(c.geometry)), nodes, 2) == Neg(SimplexNormal(c, nodes, 2))
  {
    Normal2DOfReversedEdge(nodes[c.geometry[0]].position, nodes[c.geometry[1]].position);
  }

  // ---------------------------------------------------------------- unit normals

  /** r_normal /= norm. */
  function Divide(v: Vec3, d: real): Vec3
    requires d != 0.0
  {
    Vec3(v.x / d, v.y / d, v.z / d)
  }

  /** (a/d)² == a² · (1/d²) for d != 0. */
  lemma {:induction false} SquareOfQuotient(a: real, d: real)
    requires d != 0.0
    ensures (a / d) * (a / d) == a * a * (1.0 / (d * d))
  {
    var q := a / d;
    assert q * d == a;
    assert q * q * (d * d) == a * a;
    assert (d * d) * (1.0 / (d * d)) == 1.0;
  }

  /** Dividing by the Euclidean length gives a vector of unit length. */
  lemma {:induction false} DivideByLengthIsUnit(v: Vec3, length: real)
    requires length > 0.0 && length * length == Dot(v, v)
    ensures Dot(Divide(v, length), Divide(v, length)) == 1.0
  {
    var u := Divide(v, length);
    var w := 1.0 / (length * length);
    SquareOfQuotient(v.x, length);
    SquareOfQuotient(v.y, length);
    SquareOfQuotient(v.z, length);
    assert Dot(u, u) == v.x * v.x * w + v.y * v.y * w + v.z * v.z * w;
    assert Dot(u, u) == Dot(v, v) * w;
  }

  /** The node after normalisation: divided by the norm when it exceeds epsilon, unchanged otherwise. */
  function Normalized(node: Node, norm: Vec3 -> real): (r: Node)
    ensures r.position == node.position && r.isInterface == node.isInterface
    ensures norm(node.normal) <= Epsilon ==> r == node
  {
    var nn := norm(node.normal);
    if nn > Epsilon then node.(normal := Divide(node.normal, nn)) else node
  }

  /** A node ComputeUnitNormalsFromAreaNormals rejects: a zero-norm INTERFACE node. */
  predicate Rejected(node: Node, norm: Vec3 -> real) {
    norm(node.normal) <= Epsilon && node.isInterface
  }

  // ---------------------------------------------------------------- the utilities on a model part

  class ModelPart {
    var nodes: seq<Node>
    var conditions: seq<Condition>
    var elements: seq<seq<nat>>
    /** DOMAIN_SIZE of the process info, when it holds one. */
    const domainSize: Option<nat>

    predicate Valid()
      reads this
    {
      ConditionsInside(conditions, |nodes|) && GeometriesInside(elements, |nodes|)
    }

    constructor (nodes: seq<Node>, conditions: seq<Condition>, elements: seq<seq<nat>>, domainSize: Option<nat>)
      ensures this.nodes == nodes && this.conditions == conditions && this.elements == elements
      ensures this.domainSize == domainSize
    {
      this.nodes := nodes;
      this.conditions := conditions;
      this.elements := elements;
      this.domainSize := domainSize;
    }

    /** The serial reset loop: NORMAL := 0 on every node of every geometry, and on no other node. */
    method ZeroNormalsOn(geometries: seq<seq<nat>>)
      requires GeometriesInside(geometries, |nodes|)
      modifies this
      ensures conditions == old(conditions) && elements == old(elements) && |nodes| == |old(nodes)|
      ensures forall n :: 0 <= n < |nodes| ==>
        nodes[n] == (if Touched(geometries, n) then old(nodes)[n].(normal := Zero) else old(nodes)[n])
    {
      ghost var before := nodes;
      for k := 0 to |geometries|
        invariant conditions == old(conditions) && elements == old(elements) && |nodes| == |before|
        invariant forall n :: 0 <= n < |nodes| ==>
          nodes[n] == (if Touched(geometries[..k], n) then before[n].(normal := Zero) else before[n])
      {
        var g := geometries[k];
        for j := 0 to |g|
          invariant conditions == old(conditions) && elements == old(elements) && |nodes| == |before|
          invariant forall n :: 0 <= n < |nodes| ==>
            nodes[n] == (if Touched(geometries[..k], n) || n in g[..j] then before[n].(normal := Zero) else before[n])
        {
          assert g[..j + 1] == g[..j] + [g[j]];
          nodes := nodes[g[j] := nodes[g[j]].(normal := Zero)];
        }
        assert g[..|g|] == g;
        forall n | 0 <= n < |nodes|
          ensures Touched(geometries[..k + 1], n) <==> Touched(geometries[..k], n) || n in g
        {
          TouchedStep(geometries, k, n);
        }
      }
      assert geometries[..|geometries|] == geometries;
    }

    /** InitializeNormals<Condition>, serial branch: the normals of the condition nodes are zeroed. */
    method InitializeConditionNormals()
      requires Valid()
      modifies this
      ensures Valid() && conditions == old(conditions) && elements == old(elements) && |nodes| == |old(nodes)|
      ensures forall n :: 0 <= n < |nodes| ==>
        nodes[n] == (if Touched(GeometriesOf(conditions), n) then old(nodes)[n].(normal := Zero) else old(nodes)[n])
    {
      ZeroNormalsOn(GeometriesOf(conditions));
    }

    /** InitializeNormals<Element>, serial branch: the normals of the element nodes are zeroed. */
    method InitializeElementNormals()
      requires Valid()
      modifies this
      ensures Valid() && conditions == old(conditions) && elements == old(elements) && |nodes| == |old(nodes)|
      ensures forall n :: 0 <= n < |nodes| ==>
        nodes[n] == (if Touched(elements, n) then old(nodes)[n].(normal := Zero) else old(nodes)[n])
    {
      ZeroNormalsOn(elements);
    }

    /** CalculateNormals<Condition> only initialises: afterwards every condition node has a zero normal. */
    method CalculateConditionNormals()
      requires Valid()
      modifies this
      ensures Valid() && conditions == old(conditions) && elements == old(elements) && |nodes| == |old(nodes)|
      ensures forall n :: 0 <= n < |nodes| && Touched(GeometriesOf(conditions), n) ==> nodes[n] == old(nodes)[n].(normal := Zero)
      ensures forall n :: 0 <= n < |nodes| && !Touched(GeometriesOf(conditions), n) ==> nodes[n] == old(nodes)[n]
    {
      InitializeConditionNormals();
    }

    /** CalculateNormals<Element> only initialises: afterwards every element node has a zero normal. */
    method CalculateElementNormals()
      requires Valid()
      modifies this
      ensures Valid() && conditions == old(conditions) && elements == old(elements) && |nodes| == |old(nodes)|
      ensures forall n :: 0 <= n < |nodes| && Touched(elements, n) ==> nodes[n] == old(nodes)[n].(normal := Zero)
      ensures forall n :: 0 <= n < |nodes| && !Touched(elements, n) ==> nodes[n] == old(nodes)[n]
    {
      InitializeElementNormals();
    }

    /** One condition's turn of the second loop: each of its nodes receives normal/size per occurrence. */
    method AddConditionShare(k: nat)
      requires Valid() && k < |conditions|
      modifies this
      ensures Valid() && conditions == old(conditions) && elements == old(elements) && |nodes| == |old(nodes)|
      ensures var g := conditions[k].geometry;
        forall n :: 0 <= n < |nodes| ==>
          nodes[n] == old(nodes)[n].(normal := AddShare(NormalsOf(old(nodes)), g, Coefficient(g), conditions[k].normal)[n])
    {
      var g := conditions[k].geometry;
      var v := conditions[k].normal;
      var coeff := if |g| == 0 then 0.0 else 1.0 / (|g| as real);
      assert forall j :: 0 <= j < |g| ==> g[j] < |nodes|;
      ghost var start := NormalsOf(nodes);
      ghost var before := nodes;
      for j := 0 to |g|
        invariant Valid() && conditions == old(conditions) && elements == old(elements) && |nodes| == |before|
        invariant forall n :: 0 <= n < |nodes| ==> nodes[n] == before[n].(normal := AddShare(start, g[..j], coeff, v)[n])
      {
        assert g[..j + 1][..j] == g[..j];
        var n := g[j];
        nodes := nodes[n := nodes[n].(normal := Add(nodes[n].normal, Scale(coeff, v)))];
      }
      assert g[..|g|] == g;
    }

    /** The second loop of CalculateOnSimplex: every condition adds normal/size to each of its nodes. */
    method DistributeConditionNormals()
      requires Valid()
      modifies this
      ensures Valid() && conditions == old(conditions) && elements == old(elements) && |nodes| == |old(nodes)|
      ensures forall n :: 0 <= n < |nodes| ==>
        nodes[n] == old(nodes)[n].(normal := Distribute(NormalsOf(old(nodes)), conditions)[n])
    {
      ghost var before := nodes;
      for k := 0 to |conditions|
        invariant Valid() && conditions == old(conditions) && elements == old(elements) && |nodes| == |before|
        invariant forall n :: 0 <= n < |nodes| ==>
          nodes[n] == before[n].(normal := Distribute(NormalsOf(before), conditions[..k])[n])
      {
        ghost var pre := conditions[..k];
        assert conditions[..k + 1][..k] == pre && conditions[..k + 1][k] == conditions[k];
        ghost var mid := nodes;
        assert NormalsOf(mid) == Distribute(NormalsOf(before), pre);
        AddConditionShare(k);
      }
      assert conditions[..|conditions|] == conditions;
    }

    /**
     * CalculateOnSimplex over the conditions: the NORMAL of every condition is recomputed when its
     * point count fits the dimension, then every condition adds normal/size to each of its nodes.
     */
    method CalculateOnSimplexConditions(dimension: nat)
      requires Valid()
      modifies this
      ensures Valid() && elements == old(elements) && |nodes| == |old(nodes)| && |conditions| == |old(conditions)|
      ensures forall k :: 0 <= k < |conditions| ==>
        conditions[k] == old(conditions)[k].(normal := SimplexNormal(old(conditions)[k], old(nodes), dimension))
      ensures forall n :: 0 <= n < |nodes| ==>
        nodes[n] == old(nodes)[n].(normal := Add(old(nodes)[n].normal, TotalShare(conditions, n)))
    {
      ghost var before := conditions;
      for k := 0 to |conditions|
        invariant elements == old(elements) && nodes == old(nodes) && |conditions| == |before|
        invariant GeometriesOf(conditions) == GeometriesOf(before)
        invariant forall i :: 0 <= i < k ==> conditions[i] == before[i].(normal := SimplexNormal(before[i], nodes, dimension))
        invariant forall i :: k <= i < |conditions| ==> conditions[i] == before[i]
      {
        var c := conditions[k];
        assert GeometriesOf(before)[k] == c.geometry;
        var g := c.geometry;
        if dimension == 2 && |g| == 2 {
          var an := Vec3(nodes[g[1]].position.y - nodes[g[0]].position.y, -(nodes[g[1]].position.x - nodes[g[0]].position.x), 0.0);
          conditions := conditions[k := c.(normal := an)];
        } else if dimension == 3 && |g| == 3 {
          var v1 := Sub(nodes[g[1]].position, nodes[g[0]].position);
          var v2 := Sub(nodes[g[2]].position, nodes[g[0]].position);
          var an := Scale(0.5, Cross(v1, v2));
          conditions := conditions[k := c.(normal := an)];
        }
        assert GeometriesOf(conditions) == GeometriesOf(before);
      }
      ghost var mid := nodes;
      DistributeConditionNormals();
      forall n | 0 <= n < |nodes|
        ensures nodes[n] == mid[n].(normal := Add(mid[n].normal, TotalShare(conditions, n)))
      {
        DistributeAddsShares(NormalsOf(mid), conditions, n);
      }
    }

    /**
     * CalculateOnSimplex on the model part: the condition normals are reset first; DOMAIN_SIZE
     * with a zero `dimension` raises; DOMAIN_SIZE is used when present and `dimension` otherwise.
     * The result carries the dimension used.
     */
    method CalculateOnSimplex(dimension: nat) returns (r: Result<nat>)
      requires Valid()
      modifies this
      ensures Valid() && elements == old(elements) && |nodes| == |old(nodes)| && |conditions| == |old(conditions)|
      ensures r.Err? <==> domainSize.Some? && dimension == 0
      ensures r.Ok? ==> r.value == (if domainSize.Some? then domainSize.value else dimension)
      ensures r.Err? ==> conditions == old(conditions) && forall n :: 0 <= n < |nodes| ==>
        nodes[n] == (if Touched(GeometriesOf(conditions), n) then old(nodes)[n].(normal := Zero) else old(nodes)[n])
      ensures r.Ok? ==> forall k :: 0 <= k < |conditions| ==>
        conditions[k] == old(conditions)[k].(normal := SimplexNormal(old(conditions)[k], old(nodes), r.value))
      ensures r.Ok? ==> forall n :: 0 <= n < |nodes| ==>
        nodes[n].normal == Add(if Touched(GeometriesOf(conditions), n) then Zero else old(nodes)[n].normal, TotalShare(conditions, n))
    {
      InitializeConditionNormals();
      if domainSize.Some? && dimension == 0 {
        return Err("dimension not defined");
      }
      var used := if domainSize.Some? then domainSize.value else dimension;
      ghost var zeroed := nodes;
      ghost var oldConditions := conditions;
      CalculateOnSimplexConditions(used);
      forall k | 0 <= k < |conditions|
        ensures conditions[k] == old(conditions)[k].(normal := SimplexNormal(old(conditions)[k], old(nodes), used))
      {
        SimplexNormalSamePositions(oldConditions[k], zeroed, old(nodes), used);
      }
      assert GeometriesOf(conditions) == GeometriesOf(oldConditions) by {
        assert forall k :: 0 <= k < |conditions| ==> conditions[k].geometry == oldConditions[k].geometry;
      }
      return Ok(used);
    }

    /** SwapNormals: the first two nodes of every condition exchange places. */
    method SwapNormals()
      requires forall k :: 0 <= k < |conditions| ==> |conditions[k].geometry| >= 2
      modifies this
      ensures nodes == old(nodes) && elements == old(elements) && |conditions| == |old(conditions)|
      ensures forall k :: 0 <= k < |conditions| ==>
        conditions[k] == old(conditions)[k].(geometry := SwapFirstTwo(old(conditions)[k].geometry))
    {
      ghost var before := conditions;
      for k := 0 to |conditions|
        invariant nodes == old(nodes) && elements == old(elements) && |conditions| == |before|
        invariant forall i :: 0 <= i < k ==> conditions[i] == before[i].(geometry := SwapFirstTwo(before[i].geometry))
        invariant forall i :: k <= i < |conditions| ==> conditions[i] == before[i]
      {
        var g := conditions[k].geometry;
        var aux := g[0];
        g := g[0 := g[1]];
        g := g[1 := aux];
        conditions := conditions[k := conditions[k].(geometry := g)];
      }
    }

    /**
     * ComputeUnitNormalsFromAreaNormals: nodes whose normal is longer than epsilon are divided by
     * its norm; a zero-norm INTERFACE node raises, with the nodes before it already normalised.
     */
    method ComputeUnitNormalsFromAreaNormals(norm: Vec3 -> real) returns (r: Outcome)
      modifies this
      ensures conditions == old(conditions) && elements == old(elements) && |nodes| == |old(nodes)|
      ensures r.Completed? <==> forall n :: 0 <= n < |nodes| ==> !Rejected(old(nodes)[n], norm)
      ensures r.Completed? ==> forall n :: 0 <= n < |nodes| ==> nodes[n] == Normalized(old(nodes)[n], norm)
      ensures r.Raised? ==>
        exists f :: (0 <= f < |nodes| && Rejected(old(nodes)[f], norm) &&
          (forall n :: 0 <= n < f ==> !Rejected(old(nodes)[n], norm) && nodes[n] == Normalized(old(nodes)[n], norm)) &&
          (forall n :: f <= n < |nodes| ==> nodes[n] == old(nodes)[n]))
    {
      ghost var before := nodes;
      for i := 0 to |nodes|
        invariant conditions == old(conditions) && elements == old(elements) && |nodes| == |before|
        invariant forall n :: 0 <= n < i ==> !Rejected(before[n], norm) && nodes[n] == Normalized(before[n], norm)
        invariant forall n :: i <= n < |nodes| ==> nodes[n] == before[n]
      {
        var normal := nodes[i].normal;
        var nn := norm(normal);
        if nn > Epsilon {
          nodes := nodes[i := nodes[i].(normal := Vec3(normal.x / nn, normal.y / nn, normal.z / nn))];
        } else if nodes[i].isInterface {
          return Raised("zero norm normal");
        }
      }
      return Completed;
    }

    /** CalculateUnitNormals<Condition>: CalculateNormals<Condition>, then the normalisation. */
    method CalculateConditionUnitNormals(norm: Vec3 -> real) returns (r: Outcome)
      requires Valid()
      modifies this
      ensures conditions == old(conditions) && elements == old(elements) && |nodes| == |old(nodes)|
      ensures r.Completed? <==> forall n :: 0 <= n < |nodes| ==>
        !Rejected(if Touched(GeometriesOf(conditions), n) then old(nodes)[n].(normal := Zero) else old(nodes)[n], norm)
      ensures r.Completed? ==> forall n :: 0 <= n < |nodes| ==>
        nodes[n] == Normalized(if Touched(GeometriesOf(conditions), n) then old(nodes)[n].(normal := Zero) else old(nodes)[n], norm)
    {
      CalculateConditionNormals();
      r := ComputeUnitNormalsFromAreaNormals(norm);
    }

    /** CalculateUnitNormals<Element>: CalculateNormals<Element>, then the normalisation. */
    method CalculateElementUnitNormals(norm: Vec3 -> real) returns (r: Outcome)
      requires Valid()
      modifies this
      ensures conditions == old(conditions) && elements == old(elements) && |nodes| == |old(nodes)|
      ensures r.Completed? <==> forall n :: 0 <= n < |nodes| ==>
        !Rejected(if Touched(elements, n) then old(nodes)[n].(normal := Zero) else old(nodes)[n], norm)
      ensures r.Completed? ==> forall n :: 0 <= n < |nodes| ==>
        nodes[n] == Normalized(if Touched(elements, n) then old(nodes)[n].(normal := Zero) else old(nodes)[n], norm)
    {
      CalculateElementNormals();
      r := ComputeUnitNormalsFromAreaNormals(norm);
    }
  }

  /** The NORMAL values of the nodes. */
  function NormalsOf(nodes: seq<Node>): (r: seq<Vec3>)
    ensures |r| == |nodes| && forall n :: 0 <= n < |nodes| ==> r[n] == nodes[n].normal
  {
    seq(|nodes|, n requires 0 <= n < |nodes| => nodes[n].normal)
  }

  /** The recomputed condition normal only reads positions, which the reset of the normals keeps. */
  lemma {:induction false} SimplexNormalSamePositions(c: Condition, a: seq<Node>, b: seq<Node>, dimension: nat)
    requires |a| == |b| && forall n :: 0 <= n < |a| ==> a[n].position == b[n].position
    requires forall j :: 0 <= j < |c.geometry| ==> c.geometry[j] < |a|
    ensures SimplexNormal(c, a, dimension) == SimplexNormal(c, b, dimension)
  {
  }
}
