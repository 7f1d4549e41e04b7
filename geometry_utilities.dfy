/**
 * The shape-optimisation geometry utilities: area normals of the surface conditions (2D edges,
 * 3D triangles and quadrilaterals) distributed onto their nodes, unit surface normals, the
 * projection of a nodal vector onto them, and the extraction of the surface nodes of a volume
 * mesh by counting the element faces that share a node set.
 */
module GeometryUtilities {
  import opened Wrappers
  import opened Vectors
  import N = NormalCalculationUtils

  /** A vector that may hold IEEE not-a-number components, as 0/0 leaves behind. */
  datatype Field = Finite(v: Vec3) | NotANumber

  /**
   * A node: its coordinates, its NORMAL (the area normal), its NORMALIZED_SURFACE_NORMAL and
   * the nodal variable that is projected onto it.
   */
  datatype Node = Node(position: Vec3, normal: Vec3, unitNormal: Field, variable: Field)

  function AreaNormalsOf(nodes: seq<Node>): (r: seq<Vec3>)
    ensures |r| == |nodes| && forall n :: 0 <= n < |nodes| ==> r[n] == nodes[n].normal
  {
    seq(|nodes|, n requires 0 <= n < |nodes| => nodes[n].normal)
  }

  // ---------------------------------------------------------------- area normals

  /** CalculateNormal3DQuad: half the cross product of the diagonals p0→p2 and p1→p3. */
  function QuadNormal(p0: Vec3, p1: Vec3, p2: Vec3, p3: Vec3): Vec3 {
    Scale(0.5, Cross(Sub(p2, p0), Sub(p3, p1)))
  }

  /** The quadrilateral's normal is the sum of the normals of its triangles (p0, p1, p2) and (p0, p2, p3). */
  lemma {:induction false} QuadNormalIsSumOfTriangles(p0: Vec3, p1: Vec3, p2: Vec3, p3: Vec3)
    ensures QuadNormal(p0, p1, p2, p3) == Add(N.Normal3D(p0, p1, p2), N.Normal3D(p0, p2, p3))
  {
    var a := Sub(p1, p0);
    var b := Sub(p2, p0);
    var c := Sub(p3, p0);
    assert Sub(p3, p1) == Sub(c, a);
    assert Cross(b, Sub(c, a)) == Add(Cross(a, b), Cross(b, c));
  }

  /** The quadrilateral's normal is perpendicular to both of its diagonals. */
  lemma {:induction false} QuadNormalIsPerpendicular(p0: Vec3, p1: Vec3, p2: Vec3, p3: Vec3)
    ensures Dot(QuadNormal(p0, p1, p2, p3), Sub(p2, p0)) == 0.0
    ensures Dot(QuadNormal(p0, p1, p2, p3), Sub(p3, p1)) == 0.0
  {
    var c := Cross(Sub(p2, p0), Sub(p3, p1));
    CrossIsPerpendicular(Sub(p2, p0), Sub(p3, p1));
    DotScaleLeft(0.5, c, Sub(p2, p0));
    DotScaleLeft(0.5, c, Sub(p3, p1));
  }

  /** Whether CalculateAreaNormals accepts the condition: in 3D only triangles and quadrilaterals. */
  predicate Supported(c: N.Condition, dimension: nat) {
    dimension != 3 || |c.geometry| == 3 || |c.geometry| == 4
  }

  /**
   * The NORMAL a condition holds after the computing loop of CalculateAreaNormals: recomputed
   * for two-node conditions in 2D and for triangles and quadrilaterals in 3D, kept otherwise;
   * any other condition in 3D raises.
   */
  function AreaNormal(c: N.Condition, nodes: seq<Node>, dimension: nat): (r: Result<Vec3>)
    requires forall j :: 0 <= j < |c.geometry| ==> c.geometry[j] < |nodes|
    ensures r.Err? <==> !Supported(c, dimension)
    ensures dimension != 3 && !(dimension == 2 && |c.geometry| == 2) ==> r == Ok(c.normal)
  {
    var g := c.geometry;
    if dimension == 2 then
      if |g| == 2 then Ok(N.Normal2D(nodes[g[0]].position, nodes[g[1]].position)) else Ok(c.normal)
    else if dimension == 3 then
      if |g| == 3 then Ok(N.Normal3D(nodes[g[0]].position, nodes[g[1]].position, nodes[g[2]].position))
      else if |g| == 4 then Ok(QuadNormal(nodes[g[0]].position, nodes[g[1]].position, nodes[g[2]].position, nodes[g[3]].position))
      else Err("surface normal not implemented")
    else Ok(c.normal)
  }

  /** On edges in 2D and triangles in 3D the area normal is the one the kernel's normal utilities compute. */
  lemma {:induction false} AreaNormalAgreesOnSimplices(c: N.Condition, nodes: seq<Node>, simplexNodes: seq<N.Node>, dimension: nat)
    requires (dimension == 2 && |c.geometry| == 2) || (dimension == 3 && |c.geometry| == 3)
    requires |simplexNodes| == |nodes| && forall n :: 0 <= n < |nodes| ==> simplexNodes[n].position == nodes[n].position
    requires forall j :: 0 <= j < |c.geometry| ==> c.geometry[j] < |nodes|
    ensures AreaNormal(c, nodes, dimension) == Ok(N.SimplexNormal(c, simplexNodes, dimension))
  {
  }

  /** The computed normal only reads positions, so resetting the nodal normals does not change it. */
  lemma {:induction false} AreaNormalSamePositions(c: N.Condition, a: seq<Node>, b: seq<Node>, dimension: nat)
    requires |a| == |b| && forall n :: 0 <= n < |a| ==> a[n].position == b[n].position
    requires forall j :: 0 <= j < |c.geometry| ==> c.geometry[j] < |a|
    ensures AreaNormal(c, a, dimension) == AreaNormal(c, b, dimension)
  {
  }

  // ---------------------------------------------------------------- unit normals and projection

  /** area_normal / norm_2(area_normal); a zero norm divides zero by zero. */
  function UnitNormal(area: Vec3, norm: Vec3 -> real): (r: Field)
    ensures r.NotANumber? <==> norm(area) == 0.0
  {
    if norm(area) == 0.0 then NotANumber else Finite(N.Divide(area, norm(area)))
  }

  /** With the Euclidean norm, a non-zero area normal gives a normal of unit length. */
  lemma {:induction false} UnitNormalHasUnitLength(area: Vec3, norm: Vec3 -> real)
    requires norm(area) > 0.0 && norm(area) * norm(area) == Dot(area, area)
    ensures UnitNormal(area, norm).Finite?
    ensures Dot(UnitNormal(area, norm).v, UnitNormal(area, norm).v) == 1.0
  {
    N.DivideByLengthIsUnit(area, norm(area));
  }

  /** dFdX_n = (dFdX · n) n. */
  function Project(v: Vec3, n: Vec3): Vec3 {
    Scale(Dot(v, n), n)
  }

  /** The projection on a node: not-a-number in either operand gives not-a-number. */
  function ProjectField(v: Field, n: Field): (r: Field)
    ensures r.Finite? <==> v.Finite? && n.Finite?
  {
    if v.Finite? && n.Finite? then Finite(Project(v.v, n.v)) else NotANumber
  }

  /** The projection is parallel to the normal. */
  lemma {:induction false} ProjectionIsParallel(v: Vec3, n: Vec3)
    ensures Cross(Project(v, n), n) == Zero
  {
    var s := Dot(v, n);
    assert s * n.y * n.z - s * n.z * n.y == 0.0;
    assert s * n.z * n.x - s * n.x * n.z == 0.0;
    assert s * n.x * n.y - s * n.y * n.x == 0.0;
  }

  /** Onto a unit normal, projecting twice is projecting once. */
  lemma {:induction false} ProjectionIsIdempotent(v: Vec3, n: Vec3)
    requires Dot(n, n) == 1.0
    ensures Project(Project(v, n), n) == Project(v, n)
  {
    DotScaleLeft(Dot(v, n), n, n);
  }

  /** Onto a unit normal, what the projection removes is perpendicular to the normal. */
  lemma {:induction false} ProjectionRemainderIsPerpendicular(v: Vec3, n: Vec3)
    requires Dot(n, n) == 1.0
    ensures Dot(Sub(v, Project(v, n)), n) == 0.0
  {
    var s := Dot(v, n);
    DotScaleLeft(s, n, n);
    assert Dot(Sub(v, Project(v, n)), n) == Dot(v, n) - Dot(Project(v, n), n);
  }

  /** On a node whose unit normal is not-a-number or of unit length, projecting twice is projecting once. */
  lemma {:induction false} ProjectFieldIsIdempotent(v: Field, n: Field)
    requires n.Finite? ==> Dot(n.v, n.v) == 1.0
    ensures ProjectField(ProjectField(v, n), n) == ProjectField(v, n)
  {
    if v.Finite? && n.Finite? {
      ProjectionIsIdempotent(v.v, n.v);
    }
  }

  // ---------------------------------------------------------------- surface extraction

  predicate Sorted(s: seq<nat>) {
    forall i, j :: 0 <= i < j < |s| ==> s[i] <= s[j]
  }

  /** x inserted into a sorted sequence. */
  function Insert(x: nat, s: seq<nat>): (r: seq<nat>)
    requires Sorted(s)
    ensures |r| == |s| + 1
    ensures forall y :: y in r <==> y == x || y in s
    ensures Sorted(r)
  {
    if |s| == 0 then [x]
    else if x <= s[0] then [x] + s
    else
      var t := Insert(x, s[1..]);
      assert forall j :: 0 <= j < |t| ==> s[0] <= t[j] by {
        forall j | 0 <= j < |t|
          ensures s[0] <= t[j]
        {
          assert t[j] in t;
        }
      }
      [s[0]] + t
  }

  /** Insert adds x to the elements. */
  lemma {:induction false} InsertAddsOne(x: nat, s: seq<nat>)
    requires Sorted(s)
    ensures multiset(Insert(x, s)) == multiset(s) + multiset{x}
  {
    if |s| > 0 && x > s[0] {
      InsertAddsOne(x, s[1..]);
      assert s == [s[0]] + s[1..];
    }
  }

  /** std::sort of a face's node ids: the sorted permutation, which is the face's key. */
  function SortKey(ids: seq<nat>): (r: seq<nat>)
    ensures Sorted(r)
  {
    if |ids| == 0 then [] else Insert(ids[0], SortKey(ids[1..]))
  }

  /** The key holds the face's ids, each as often as the face does. */
  lemma {:induction false} SortKeyIsPermutation(ids: seq<nat>)
    ensures multiset(SortKey(ids)) == multiset(ids)
  {
    if |ids| > 0 {
      SortKeyIsPermutation(ids[1..]);
      InsertAddsOne(ids[0], SortKey(ids[1..]));
      assert ids == [ids[0]] + ids[1..];
    }
  }

  /** The first entry of a sorted sequence is its least. */
  lemma {:induction false} SortedHeadIsLeast(a: seq<nat>, y: nat)
    requires Sorted(a) && y in a
    ensures a[0] <= y
  {
    var i :| 0 <= i < |a| && a[i] == y;
    if i > 0 {
      assert a[0] <= a[i];
    }
  }

  /** A sorted sequence is determined by its elements. */
  lemma {:induction false} SortedPermutationsAreEqual(a: seq<nat>, b: seq<nat>)
    requires Sorted(a) && Sorted(b) && multiset(a) == multiset(b)
    ensures a == b
  {
    assert |a| == |multiset(a)| == |multiset(b)| == |b|;
    if |a| > 0 {
      assert a[0] in multiset(b) && b[0] in multiset(a);
      SortedHeadIsLeast(a, b[0]);
      SortedHeadIsLeast(b, a[0]);
      assert a == [a[0]] + a[1..];
      assert b == [b[0]] + b[1..];
      assert a[0] == b[0];
      assert multiset(a[1..]) == multiset(a) - multiset{a[0]};
      assert multiset(b[1..]) == multiset(b) - multiset{b[0]};
      assert multiset(a[1..]) == multiset(b[1..]);
      SortedPermutationsAreEqual(a[1..], b[1..]);
    }
  }

  /** Faces with the same nodes, in whatever order, have the same key and so are counted together. */
  lemma {:induction false} SameNodesSameKey(f1: seq<nat>, f2: seq<nat>)
    requires multiset(f1) == multiset(f2)
    ensures SortKey(f1) == SortKey(f2)
  {
    SortKeyIsPermutation(f1);
    SortKeyIsPermutation(f2);
    SortedPermutationsAreEqual(SortKey(f1), SortKey(f2));
  }

  /** The keys of one element's faces, face by face. */
  function FaceKeys(faces: seq<seq<nat>>): (r: seq<seq<nat>>)
    ensures |r| == |faces| && forall i :: 0 <= i < |faces| ==> r[i] == SortKey(faces[i])
  {
    seq(|faces|, i requires 0 <= i < |faces| => SortKey(faces[i]))
  }

  /** The keys of all faces, element after element. */
  function Keys(elements: seq<seq<seq<nat>>>): seq<seq<nat>> {
    if |elements| == 0 then [] else Keys(elements[..|elements| - 1]) + FaceKeys(elements[|elements| - 1])
  }

  /** How many of the faces have key k. */
  function Count(keys: seq<seq<nat>>, k: seq<nat>): nat {
    if |keys| == 0 then 0 else Count(keys[..|keys| - 1], k) + (if keys[|keys| - 1] == k then 1 else 0)
  }

  /** A key is counted exactly when it is one of the faces. */
  lemma {:induction false} CountPositive(keys: seq<seq<nat>>, k: seq<nat>)
    ensures Count(keys, k) > 0 <==> k in keys
  {
    if |keys| > 0 {
      CountPositive(keys[..|keys| - 1], k);
      assert keys == keys[..|keys| - 1] + [keys[|keys| - 1]];
    }
  }

  /** The keys of a longer prefix of the elements. */
  lemma {:induction false} KeysExtend(elements: seq<seq<seq<nat>>>, e: nat)
    requires e < |elements|
    ensures Keys(elements[..e + 1]) == Keys(elements[..e]) + FaceKeys(elements[e])
  {
    assert elements[..e + 1][..e] == elements[..e];
  }

  /** The keys of a longer prefix of the faces. */
  lemma {:induction false} FaceKeysExtend(faces: seq<seq<nat>>, f: nat)
    requires f < |faces|
    ensures FaceKeys(faces[..f + 1]) == FaceKeys(faces[..f]) + [SortKey(faces[f])]
  {
  }

  /** The map holds exactly the keys seen, each with the number of times it was seen. */
  ghost predicate Tallies(counts: map<seq<nat>, nat>, seen: seq<seq<nat>>) {
    (forall k :: k in counts <==> k in seen) &&
    (forall k :: k in counts ==> counts[k] == Count(seen, k))
  }

  /** n_faces_map[ids] += 1 keeps the tally: a missing key starts from zero. */
  lemma {:induction false} TalliesExtend(counts: map<seq<nat>, nat>, seen: seq<seq<nat>>, key: seq<nat>)
    requires Tallies(counts, seen)
    ensures Tallies(counts[key := (if key in counts then counts[key] else 0) + 1], seen + [key])
  {
    var next := seen + [key];
    assert next[..|next| - 1] == seen;
    if key !in counts {
      CountPositive(seen, key);
    }
  }

  /** Node x is on the surface: it belongs to a face that no other face shares. */
  predicate OnSurface(keys: seq<seq<nat>>, x: nat) {
    exists k :: k in keys && Count(keys, k) == 1 && x in k
  }

  /** KeyComparor: keys of different length differ; otherwise they are compared entry by entry. */
  method KeysEqual(lhs: seq<nat>, rhs: seq<nat>) returns (r: bool)
    ensures |lhs| != |rhs| ==> !r
    ensures r <==> lhs == rhs
  {
    if |lhs| != |rhs| {
      return false;
    }
    for i := 0 to |lhs|
      invariant lhs[..i] == rhs[..i]
    {
      if lhs[i] != rhs[i] {
        return false;
      }
      assert lhs[..i + 1] == lhs[..i] + [lhs[i]];
      assert rhs[..i + 1] == rhs[..i] + [rhs[i]];
    }
    assert lhs == lhs[..|lhs|] && rhs == rhs[..|rhs|];
    return true;
  }

  /** The inner counting loop of ExtractSurfaceNodes: one element's faces are added to the tally. */
  method CountElementFaces(counts: map<seq<nat>, nat>, faces: seq<seq<nat>>, ghost seen: seq<seq<nat>>)
    returns (r: map<seq<nat>, nat>)
    requires Tallies(counts, seen)
    ensures Tallies(r, seen + FaceKeys(faces))
  {
    r := counts;
    assert seen + FaceKeys(faces[..0]) == seen;
    for f := 0 to |faces|
      invariant Tallies(r, seen + FaceKeys(faces[..f]))
    {
      var ids := SortKey(faces[f]);
      ghost var before := seen + FaceKeys(faces[..f]);
      FaceKeysExtend(faces, f);
      assert seen + FaceKeys(faces[..f + 1]) == before + [ids];
      TalliesExtend(r, before, ids);
      var n := if ids in r then r[ids] else 0;
      r := r[ids := n + 1];
    }
    assert faces[..|faces|] == faces;
  }

  /** The counting loop of ExtractSurfaceNodes: the number of faces per key, over all elements. */
  method CountFaces(elements: seq<seq<seq<nat>>>) returns (counts: map<seq<nat>, nat>)
    ensures Tallies(counts, Keys(elements))
  {
    counts := map[];
    for e := 0 to |elements|
      invariant Tallies(counts, Keys(elements[..e]))
    {
      KeysExtend(elements, e);
      counts := CountElementFaces(counts, elements[e], Keys(elements[..e]));
    }
    assert elements[..|elements|] == elements;
  }

  /** The keys of the map counted exactly once, gathered so far. */
  ghost predicate Gathered(surface: seq<nat>, counts: map<seq<nat>, nat>, done: set<seq<nat>>) {
    forall x :: x in surface <==> exists k :: (k in done && k in counts && counts[k] == 1 && x in k)
  }

  /** One more key of the map: its nodes are appended when it was counted once. */
  lemma {:induction false} GatheredExtend(surface: seq<nat>, counts: map<seq<nat>, nat>, done: set<seq<nat>>, k: seq<nat>)
    requires Gathered(surface, counts, done) && k in counts
    ensures Gathered(if counts[k] == 1 then surface + k else surface, counts, done + {k})
  {
  }

  /**
   * The gathering loop of ExtractSurfaceNodes: over the map in no particular order, the ids of
   * every key counted once; an id may be gathered several times.
   */
  method SingleFaceNodes(counts: map<seq<nat>, nat>) returns (surface: seq<nat>)
    ensures Gathered(surface, counts, counts.Keys)
  {
    surface := [];
    var pending := counts.Keys;
    while pending != {}
      invariant pending <= counts.Keys
      invariant Gathered(surface, counts, counts.Keys - pending)
      decreases pending
    {
      var k :| k in pending;
      GatheredExtend(surface, counts, counts.Keys - pending, k);
      if counts[k] == 1 {
        ghost var start := surface;
        for i := 0 to |k|
          invariant surface == start + k[..i]
        {
          surface := surface + [k[i]];
        }
        assert k[..|k|] == k;
      }
      assert counts.Keys - (pending - {k}) == (counts.Keys - pending) + {k};
      pending := pending - {k};
    }
  }

  /** Gathering over the whole tally gives exactly the surface nodes. */
  lemma {:induction false} GatheredIsSurface(surface: seq<nat>, counts: map<seq<nat>, nat>, keys: seq<seq<nat>>, x: nat)
    requires Tallies(counts, keys) && Gathered(surface, counts, counts.Keys)
    ensures x in surface <==> OnSurface(keys, x)
  {
    if OnSurface(keys, x) {
      var k :| k in keys && Count(keys, k) == 1 && x in k;
      assert k in counts;
    }
  }

  // ---------------------------------------------------------------- the utilities on a model part

  class ModelPart {
    var nodes: seq<Node>
    var conditions: seq<N.Condition>
    /** The faces of each element's geometry, each as the ids of its nodes. */
    const elements: seq<seq<seq<nat>>>
    /** The sub-model parts by name, each as the ids of its nodes. */
    var subModelParts: map<string, set<nat>>
    /** DOMAIN_SIZE of the process info. */
    const domainSize: nat

    predicate Valid()
      reads this
    {
      N.ConditionsInside(conditions, |nodes|)
    }

    constructor (nodes: seq<Node>, conditions: seq<N.Condition>, elements: seq<seq<seq<nat>>>,
                 subModelParts: map<string, set<nat>>, domainSize: nat)
      ensures this.nodes == nodes && this.conditions == conditions && this.elements == elements
      ensures this.subModelParts == subModelParts && this.domainSize == domainSize
    {
      this.nodes := nodes;
      this.conditions := conditions;
      this.elements := elements;
      this.subModelParts := subModelParts;
      this.domainSize := domainSize;
    }
  }

  class Utilities {
    const modelPart: ModelPart

    constructor (mp: ModelPart)
      ensures modelPart == mp
    {
      modelPart := mp;
    }

    /** The resetting loop of CalculateAreaNormals: NORMAL := 0 on every node of every condition. */
    method ResetConditionNodeNormals()
      requires modelPart.Valid()
      modifies modelPart
      ensures modelPart.Valid() && modelPart.conditions == old(modelPart.conditions)
      ensures modelPart.subModelParts == old(modelPart.subModelParts) && |modelPart.nodes| == |old(modelPart.nodes)|
      ensures forall n :: 0 <= n < |modelPart.nodes| ==>
        modelPart.nodes[n] == (if N.Touched(N.GeometriesOf(modelPart.conditions), n)
                               then old(modelPart.nodes)[n].(normal := Zero) else old(modelPart.nodes)[n])
    {
      ghost var before := modelPart.nodes;
      ghost var geometries := N.GeometriesOf(modelPart.conditions);
      for k := 0 to |modelPart.conditions|
        modifies modelPart
        invariant modelPart.conditions == old(modelPart.conditions) && modelPart.subModelParts == old(modelPart.subModelParts)
        invariant |modelPart.nodes| == |before| && modelPart.Valid()
        invariant forall n :: 0 <= n < |modelPart.nodes| ==>
          modelPart.nodes[n] == (if N.Touched(geometries[..k], n) then before[n].(normal := Zero) else before[n])
      {
        var g := modelPart.conditions[k].geometry;
        assert geometries[k] == g;
        for j := 0 to |g|
          modifies modelPart
          invariant modelPart.conditions == old(modelPart.conditions) && modelPart.subModelParts == old(modelPart.subModelParts)
          invariant |modelPart.nodes| == |before| && modelPart.Valid()
          invariant forall n :: 0 <= n < |modelPart.nodes| ==>
            modelPart.nodes[n] == (if N.Touched(geometries[..k], n) || n in g[..j] then before[n].(normal := Zero) else before[n])
        {
          assert g[..j + 1] == g[..j] + [g[j]];
          modelPart.nodes := modelPart.nodes[g[j] := modelPart.nodes[g[j]].(normal := Zero)];
        }
        assert g[..|g|] == g;
        forall n | 0 <= n < |modelPart.nodes|
          ensures N.Touched(geometries[..k + 1], n) <==> N.Touched(geometries[..k], n) || n in g
        {
          var pre := geometries[..k];
          var ext := geometries[..k + 1];
          assert forall i :: 0 <= i < k ==> ext[i] == pre[i];
          assert ext[k] == g;
          if N.Touched(ext, n) && !(n in g) {
            var i :| 0 <= i < |ext| && n in ext[i];
            assert n in pre[i];
          }
        }
      }
      assert geometries[..|geometries|] == geometries;
    }

    /**
     * The computing loop of CalculateAreaNormals: each condition's NORMAL is recomputed as
     * AreaNormal says; in 3D a condition that is neither a triangle nor a quadrilateral raises,
     * with the conditions before it already recomputed.
     */
    method ComputeConditionNormals(dimension: nat) returns (r: Outcome)
      requires modelPart.Valid()
      modifies modelPart
      ensures modelPart.Valid() && modelPart.nodes == old(modelPart.nodes)
      ensures modelPart.subModelParts == old(modelPart.subModelParts) && |modelPart.conditions| == |old(modelPart.conditions)|
      ensures r.Completed? <==> forall k :: 0 <= k < |modelPart.conditions| ==> Supported(old(modelPart.conditions)[k], dimension)
      ensures r.Completed? ==> forall k :: 0 <= k < |modelPart.conditions| ==>
        modelPart.conditions[k] == old(modelPart.conditions)[k].(normal :=
          AreaNormal(old(modelPart.conditions)[k], modelPart.nodes, dimension).value)
      ensures r.Raised? ==> exists f :: (0 <= f < |modelPart.conditions| &&
        !Supported(old(modelPart.conditions)[f], dimension) &&
        (forall k :: 0 <= k < f ==> (Supported(old(modelPart.conditions)[k], dimension) &&
          modelPart.conditions[k] == old(modelPart.conditions)[k].(normal :=
            AreaNormal(old(modelPart.conditions)[k], modelPart.nodes, dimension).value))) &&
        (forall k :: f <= k < |modelPart.conditions| ==> modelPart.conditions[k] == old(modelPart.conditions)[k]))
    {
      ghost var before := modelPart.conditions;
      for k := 0 to |modelPart.conditions|
        modifies modelPart
        invariant modelPart.nodes == old(modelPart.nodes) && modelPart.subModelParts == old(modelPart.subModelParts)
        invariant |modelPart.conditions| == |before| && N.GeometriesOf(modelPart.conditions) == N.GeometriesOf(before)
        invariant forall i :: 0 <= i < k ==> (Supported(before[i], dimension) &&
          modelPart.conditions[i] == before[i].(normal := AreaNormal(before[i], modelPart.nodes, dimension).value))
        invariant forall i :: k <= i < |modelPart.conditions| ==> modelPart.conditions[i] == before[i]
      {
        var c := modelPart.conditions[k];
        assert N.GeometriesOf(before)[k] == c.geometry;
        var g := c.geometry;
        var nodes := modelPart.nodes;
        if dimension == 2 {
          if |g| == 2 {
            var an := Vec3(nodes[g[1]].position.y - nodes[g[0]].position.y, -(nodes[g[1]].position.x - nodes[g[0]].position.x), 0.0);
            modelPart.conditions := modelPart.conditions[k := c.(normal := an)];
          }
        } else if dimension == 3 {
          if |g| == 3 {
            var v1 := Sub(nodes[g[1]].position, nodes[g[0]].position);
            var v2 := Sub(nodes[g[2]].position, nodes[g[0]].position);
            var an := Scale(0.5, Cross(v1, v2));
            modelPart.conditions := modelPart.conditions[k := c.(normal := an)];
          } else if |g| == 4 {
            var v1 := Sub(nodes[g[2]].position, nodes[g[0]].position);
            var v2 := Sub(nodes[g[3]].position, nodes[g[1]].position);
            var an := Scale(0.5, Cross(v1, v2));
            modelPart.conditions := modelPart.conditions[k := c.(normal := an)];
          } else {
            return Raised("surface normal not implemented");
          }
        }
        assert N.GeometriesOf(modelPart.conditions) == N.GeometriesOf(before);
      }
      return Completed;
    }

    /** The adding loop of CalculateAreaNormals: every condition adds normal/size to each of its nodes. */
    method AddConditionNormals()
      requires modelPart.Valid()
      modifies modelPart
      ensures modelPart.Valid() && modelPart.conditions == old(modelPart.conditions)
      ensures modelPart.subModelParts == old(modelPart.subModelParts) && |modelPart.nodes| == |old(modelPart.nodes)|
      ensures forall n :: 0 <= n < |modelPart.nodes| ==>
        modelPart.nodes[n] == old(modelPart.nodes)[n].(normal := Add(old(modelPart.nodes)[n].normal, N.TotalShare(modelPart.conditions, n)))
    {
      ghost var before := modelPart.nodes;
      var conditions := modelPart.conditions;
      for k := 0 to |conditions|
        modifies modelPart
        invariant modelPart.conditions == conditions && modelPart.subModelParts == old(modelPart.subModelParts)
        invariant |modelPart.nodes| == |before| && modelPart.Valid()
        invariant forall n :: 0 <= n < |modelPart.nodes| ==>
          modelPart.nodes[n] == before[n].(normal := N.Distribute(AreaNormalsOf(before), conditions[..k])[n])
      {
        var g := conditions[k].geometry;
        var v := conditions[k].normal;
        var coeff := if |g| == 0 then 0.0 else 1.0 / (|g| as real);
        ghost var pre := conditions[..k];
        ghost var ext := conditions[..k + 1];
        assert ext[..k] == pre && ext[k] == conditions[k];
        ghost var start := N.Distribute(AreaNormalsOf(before), pre);
        for j := 0 to |g|
          modifies modelPart
          invariant modelPart.conditions == conditions && modelPart.subModelParts == old(modelPart.subModelParts)
          invariant |modelPart.nodes| == |before| && modelPart.Valid()
          invariant forall n :: 0 <= n < |modelPart.nodes| ==>
            modelPart.nodes[n] == before[n].(normal := N.AddShare(start, g[..j], coeff, v)[n])
        {
          assert g[..j + 1][..j] == g[..j];
          var n := g[j];
          modelPart.nodes := modelPart.nodes[n := modelPart.nodes[n].(normal := Add(modelPart.nodes[n].normal, Scale(coeff, v)))];
        }
        assert g[..|g|] == g;
      }
      assert conditions[..|conditions|] == conditions;
      forall n | 0 <= n < |modelPart.nodes|
        ensures modelPart.nodes[n] == before[n].(normal := Add(before[n].normal, N.TotalShare(conditions, n)))
      {
        N.DistributeAddsShares(AreaNormalsOf(before), conditions, n);
      }
    }

    /**
     * CalculateAreaNormals: the condition nodes' normals are reset, the condition normals are
     * computed, and each condition adds normal/size to each of its nodes; in 3D a condition
     * that is neither a triangle nor a quadrilateral raises after the reset.
     */
    method CalculateAreaNormals(dimension: nat) returns (r: Outcome)
      requires modelPart.Valid()
      modifies modelPart
      ensures modelPart.Valid() && modelPart.subModelParts == old(modelPart.subModelParts)
      ensures |modelPart.nodes| == |old(modelPart.nodes)| && |modelPart.conditions| == |old(modelPart.conditions)|
      ensures r.Completed? <==> forall k :: 0 <= k < |modelPart.conditions| ==> Supported(old(modelPart.conditions)[k], dimension)
      ensures r.Completed? ==> forall k :: 0 <= k < |modelPart.conditions| ==>
        modelPart.conditions[k] == old(modelPart.conditions)[k].(normal :=
          AreaNormal(old(modelPart.conditions)[k], old(modelPart.nodes), dimension).value)
      ensures r.Completed? ==> forall n :: 0 <= n < |modelPart.nodes| ==>
        modelPart.nodes[n] == old(modelPart.nodes)[n].(normal := Add(
          if N.Touched(N.GeometriesOf(modelPart.conditions), n) then Zero else old(modelPart.nodes)[n].normal,
          N.TotalShare(modelPart.conditions, n)))
      ensures r.Raised? ==> forall n :: 0 <= n < |modelPart.nodes| ==>
        modelPart.nodes[n] == (if N.Touched(N.GeometriesOf(modelPart.conditions), n)
                               then old(modelPart.nodes)[n].(normal := Zero) else old(modelPart.nodes)[n])
    {
      ghost var original := modelPart.conditions;
      ResetConditionNodeNormals();
      ghost var zeroed := modelPart.nodes;
      r := ComputeConditionNormals(dimension);
      assert N.GeometriesOf(modelPart.conditions) == N.GeometriesOf(original) by {
        assert forall k :: 0 <= k < |original| ==> modelPart.conditions[k].geometry == original[k].geometry;
      }
      if r.Raised? {
        return;
      }
      forall k | 0 <= k < |modelPart.conditions|
        ensures AreaNormal(original[k], zeroed, dimension) == AreaNormal(original[k], old(modelPart.nodes), dimension)
      {
        AreaNormalSamePositions(original[k], zeroed, old(modelPart.nodes), dimension);
      }
      AddConditionNormals();
    }

    /** CalculateUnitNormals: NORMALIZED_SURFACE_NORMAL := NORMAL / norm_2(NORMAL) on every node. */
    method CalculateUnitNormals(norm: Vec3 -> real)
      modifies modelPart
      ensures modelPart.conditions == old(modelPart.conditions) && modelPart.subModelParts == old(modelPart.subModelParts)
      ensures |modelPart.nodes| == |old(modelPart.nodes)|
      ensures forall n :: 0 <= n < |modelPart.nodes| ==>
        modelPart.nodes[n] == old(modelPart.nodes)[n].(unitNormal := UnitNormal(old(modelPart.nodes)[n].normal, norm))
    {
      ghost var before := modelPart.nodes;
      for i := 0 to |modelPart.nodes|
        modifies modelPart
        invariant modelPart.conditions == old(modelPart.conditions) && modelPart.subModelParts == old(modelPart.subModelParts)
        invariant |modelPart.nodes| == |before|
        invariant forall n :: 0 <= n < i ==> modelPart.nodes[n] == before[n].(unitNormal := UnitNormal(before[n].normal, norm))
        invariant forall n :: i <= n < |modelPart.nodes| ==> modelPart.nodes[n] == before[n]
      {
        var area := modelPart.nodes[i].normal;
        var length := norm(area);
        var unit := if length == 0.0 then NotANumber else Finite(Vec3(area.x / length, area.y / length, area.z / length));
        modelPart.nodes := modelPart.nodes[i := modelPart.nodes[i].(unitNormal := unit)];
      }
    }

    /**
     * ComputeUnitSurfaceNormals: a two-node first condition in a 3D domain raises before anything
     * changes; otherwise the area normals, then the unit normals.
     */
    method ComputeUnitSurfaceNormals(norm: Vec3 -> real) returns (r: Outcome)
      requires modelPart.Valid()
      requires modelPart.domainSize == 3 ==> |modelPart.conditions| > 0
      modifies modelPart
      ensures modelPart.Valid() && modelPart.subModelParts == old(modelPart.subModelParts)
      ensures |modelPart.nodes| == |old(modelPart.nodes)| && |modelPart.conditions| == |old(modelPart.conditions)|
      ensures modelPart.domainSize == 3 && |old(modelPart.conditions)[0].geometry| == 2 ==>
        r.Raised? && modelPart.nodes == old(modelPart.nodes) && modelPart.conditions == old(modelPart.conditions)
      ensures r.Completed? <==> forall k :: 0 <= k < |modelPart.conditions| ==>
        Supported(old(modelPart.conditions)[k], modelPart.domainSize)
      ensures r.Completed? ==> forall k :: 0 <= k < |modelPart.conditions| ==>
        modelPart.conditions[k] == old(modelPart.conditions)[k].(normal :=
          AreaNormal(old(modelPart.conditions)[k], old(modelPart.nodes), modelPart.domainSize).value)
      ensures r.Completed? ==> forall n :: 0 <= n < |modelPart.nodes| ==>
        var area := Add(if N.Touched(N.GeometriesOf(modelPart.conditions), n) then Zero else old(modelPart.nodes)[n].normal,
                        N.TotalShare(modelPart.conditions, n));
        modelPart.nodes[n] == old(modelPart.nodes)[n].(normal := area, unitNormal := UnitNormal(area, norm))
    {
      if modelPart.domainSize == 3 && |modelPart.conditions[0].geometry| == 2 {
        return Raised("2-noded conditions in 3D");
      }
      r := CalculateAreaNormals(modelPart.domainSize);
      if r.Raised? {
        return;
      }
      CalculateUnitNormals(norm);
    }

    /** ProjectNodalVariableOnUnitSurfaceNormals: the variable of every node becomes (v · n) n. */
    method ProjectNodalVariableOnUnitSurfaceNormals()
      modifies modelPart
      ensures modelPart.conditions == old(modelPart.conditions) && modelPart.subModelParts == old(modelPart.subModelParts)
      ensures |modelPart.nodes| == |old(modelPart.nodes)|
      ensures forall n :: 0 <= n < |modelPart.nodes| ==>
        modelPart.nodes[n] == old(modelPart.nodes)[n].(variable := ProjectField(old(modelPart.nodes)[n].variable, old(modelPart.nodes)[n].unitNormal))
    {
      ghost var before := modelPart.nodes;
      for i := 0 to |modelPart.nodes|
        modifies modelPart
        invariant modelPart.conditions == old(modelPart.conditions) && modelPart.subModelParts == old(modelPart.subModelParts)
        invariant |modelPart.nodes| == |before|
        invariant forall n :: 0 <= n < i ==>
          modelPart.nodes[n] == before[n].(variable := ProjectField(before[n].variable, before[n].unitNormal))
        invariant forall n :: i <= n < |modelPart.nodes| ==> modelPart.nodes[n] == before[n]
      {
        var v := modelPart.nodes[i].variable;
        var normal := modelPart.nodes[i].unitNormal;
        var projected := NotANumber;
        if v.Finite? && normal.Finite? {
          var s := Dot(v.v, normal.v);
          projected := Finite(Scale(s, normal.v));
        }
        modelPart.nodes := modelPart.nodes[i := modelPart.nodes[i].(variable := projected)];
      }
    }

    /**
     * ExtractSurfaceNodes: nothing happens when the sub-model part exists; otherwise it is created
     * and given the nodes of every face that exactly one element has, each once.
     */
    method ExtractSurfaceNodes(name: string)
      modifies modelPart
      ensures modelPart.nodes == old(modelPart.nodes) && modelPart.conditions == old(modelPart.conditions)
      ensures name in old(modelPart.subModelParts) ==> modelPart.subModelParts == old(modelPart.subModelParts)
      ensures name !in old(modelPart.subModelParts) ==>
        modelPart.subModelParts.Keys == old(modelPart.subModelParts).Keys + {name} &&
        (forall other :: other in old(modelPart.subModelParts) ==> modelPart.subModelParts[other] == old(modelPart.subModelParts)[other]) &&
        (forall x :: x in modelPart.subModelParts[name] <==> OnSurface(Keys(modelPart.elements), x))
    {
      if name in modelPart.subModelParts {
        return;
      }
      modelPart.subModelParts := modelPart.subModelParts[name := {}];
      var counts := CountFaces(modelPart.elements);
      var surface := SingleFaceNodes(counts);
      modelPart.subModelParts := modelPart.subModelParts[name := modelPart.subModelParts[name] + set x | x in surface];
      forall x {
        GatheredIsSurface(surface, counts, Keys(modelPart.elements), x);
      }
    }
  }
}
