/**
 * ApplyChimeraProcessFractionalStep: the process that couples overlapping meshes of a
 * fractional-step flow solver. It owns four constraint stores (patch and background, velocity
 * and pressure). At every solution step it pairs each background with every patch of a higher
 * level, cuts a hole into the background, and constrains the boundary nodes of the patch and
 * of the hole to the values interpolated from the other mesh.
 */
module ChimeraProcess {
  import opened Wrappers
  import opened Vectors
  import opened MpcConstraints
  import opened ChimeraCoupling
  import opened ChimeraConservative
  import C = ChimeraCorrection
  import CN = ChimeraNormals
  import N = NormalCalculationUtils
  import L = ChimeraLevels

  /** An element of the main model part: its ACTIVE, VISITED and SPLIT_ELEMENT flags. */
  datatype Element = Element(active: bool, visited: bool, split: bool)

  /** The main model part: its nodes (indexed by id), its elements and the MPC_DATA_CONTAINER of its process info. */
  class MainModelPart {
    var nodes: seq<Node>
    var elements: seq<Element>
    var container: Option<seq<MpcData>>

    constructor (nodes: seq<Node>, elements: seq<Element>)
      ensures this.nodes == nodes && this.elements == elements && container == None
    {
      this.nodes := nodes;
      this.elements := elements;
      container := None;
    }
  }

  /** A boundary model part: the ids of its nodes and its conditions, whose NORMAL the process writes. */
  class BoundaryPart {
    const ids: seq<nat>
    var conditions: seq<N.Condition>

    constructor (ids: seq<nat>, conditions: seq<N.Condition>)
      ensures this.ids == ids && this.conditions == conditions
    {
      this.ids := ids;
      this.conditions := conditions;
    }
  }

  /** The smallest overlap distance the process accepts. */
  const Epsilon: real := 0.000000000001

  /** The scope without components: a store a pass does not write to. */
  function Idle(dim: nat): (s: Scope)
    ensures s.dim == dim && !Nonempty(s)
  {
    Scope(dim, false, false)
  }

  /** The node list with VISITED cleared on the given nodes, node after node. */
  function ClearedVisits(nodes: seq<Node>, ids: seq<nat>): (r: seq<Node>)
    requires IdsInside(ids, |nodes|)
    ensures |r| == |nodes|
    ensures forall n :: 0 <= n < |nodes| ==> r[n] == if n in ids then nodes[n].(visited := false) else nodes[n]
  {
    if |ids| == 0 then nodes
    else
      var r := ClearedVisits(nodes, ids[..|ids| - 1]);
      assert forall n :: n in ids <==> n in ids[..|ids| - 1] || n == ids[|ids| - 1];
      r[ids[|ids| - 1] := r[ids[|ids| - 1]].(visited := false)]
  }

  /** A second update of the same position overrides the first. */
  lemma UpdatedTwice<T>(s: seq<T>, i: nat, a: T, c: T)
    requires i < |s|
    ensures s[i := a][i := c] == s[i := c]
  {
  }

  /** A node at the end of its turn: buffer 1 takes buffer 0's components in s when `copy`, and VISITED is set when `mark`. */
  function Finished(node: Node, s: Scope, copy: bool, mark: bool): Node {
    node.(previous := if copy then Copied(node.previous, node.current, s) else node.previous, visited := node.visited || mark)
  }

  /** The positions of the nodes. */
  function PositionsOf(nodes: seq<Node>): (p: seq<Vec3>)
    ensures |p| == |nodes| && forall n :: 0 <= n < |nodes| ==> p[n] == nodes[n].position
  {
    seq(|nodes|, n requires 0 <= n < |nodes| => nodes[n].position)
  }

  /** The NORMAL of each node. */
  function NormalsOf(nodes: seq<Node>): (r: seq<Vec3>)
    ensures |r| == |nodes| && forall n :: 0 <= n < |nodes| ==> r[n] == nodes[n].normal
  {
    seq(|nodes|, n requires 0 <= n < |nodes| => nodes[n].normal)
  }

  /** The NODAL_MASS of each node. */
  function MassesOf(nodes: seq<Node>): (r: seq<real>)
    ensures |r| == |nodes| && forall n :: 0 <= n < |nodes| ==> r[n] == nodes[n].nodalMass
  {
    seq(|nodes|, n requires 0 <= n < |nodes| => nodes[n].nodalMass)
  }

  /**
   * The distribution onto nodes whose NORMAL was reset leaves each condition node with exactly
   * its shares of the condition normals, adds the shares of their lengths to its NODAL_MASS,
   * and leaves every other node as it was.
   */
  lemma DistributedOntoReset(before: seq<Node>, zeroed: seq<Node>, after: seq<Node>, cs: seq<N.Condition>, norm: Vec3 -> real)
    requires N.ConditionsInside(cs, |before|) && |zeroed| == |before| && |after| == |before|
    requires forall n :: 0 <= n < |before| ==>
      zeroed[n] == if N.Touched(N.GeometriesOf(cs), n) then before[n].(normal := Zero) else before[n]
    requires forall n :: 0 <= n < |before| ==>
      after[n] == zeroed[n].(normal := N.Distribute(NormalsOf(zeroed), cs)[n], nodalMass := CN.DistributeMass(MassesOf(zeroed), cs, norm)[n])
    ensures forall n :: 0 <= n < |before| ==>
      after[n] == before[n].(normal := if N.Touched(N.GeometriesOf(cs), n) then N.TotalShare(cs, n) else before[n].normal,
                             nodalMass := before[n].nodalMass + CN.TotalMass(cs, n, norm))
    ensures forall n :: 0 <= n < |before| && !N.Touched(N.GeometriesOf(cs), n) ==> after[n] == before[n]
  {
    forall n | 0 <= n < |before|
      ensures after[n] == before[n].(normal := if N.Touched(N.GeometriesOf(cs), n) then N.TotalShare(cs, n) else before[n].normal,
                                     nodalMass := before[n].nodalMass + CN.TotalMass(cs, n, norm))
      ensures !N.Touched(N.GeometriesOf(cs), n) ==> after[n] == before[n]
    {
      DistributedNode(before, zeroed, after, cs, norm, n);
    }
  }

  /**
   * One node of DistributedOntoReset: a node whose normal was reset when a condition touches it
   * ends with exactly its shares of the condition normals, and gains the shares of the lengths
   * in NODAL_MASS; an untouched node is unchanged.
   */
  lemma DistributedNode(before: seq<Node>, zeroed: seq<Node>, after: seq<Node>, cs: seq<N.Condition>, norm: Vec3 -> real, n: nat)
    requires N.ConditionsInside(cs, |before|) && |zeroed| == |before| && |after| == |before| && n < |before|
    requires zeroed[n] == if N.Touched(N.GeometriesOf(cs), n) then before[n].(normal := Zero) else before[n]
    requires after[n] == zeroed[n].(normal := N.Distribute(NormalsOf(zeroed), cs)[n], nodalMass := CN.DistributeMass(MassesOf(zeroed), cs, norm)[n])
    ensures after[n] == before[n].(normal := if N.Touched(N.GeometriesOf(cs), n) then N.TotalShare(cs, n) else before[n].normal,
                                   nodalMass := before[n].nodalMass + CN.TotalMass(cs, n, norm))
    ensures !N.Touched(N.GeometriesOf(cs), n) ==> after[n] == before[n]
  {
    var touched, share, mass := N.Touched(N.GeometriesOf(cs), n), N.TotalShare(cs, n), CN.TotalMass(cs, n, norm);
    assert after[n].normal == Add(zeroed[n].normal, share) by {
      N.DistributeAddsShares(NormalsOf(zeroed), cs, n);
    }
    assert after[n].nodalMass == zeroed[n].nodalMass + mass by {
      CN.DistributeMassAdds(MassesOf(zeroed), cs, norm, n);
    }
    assert !touched ==> share == Zero && mass == 0.0 by {
      if !touched {
        N.UntouchedNodeGetsNothing(cs, n);
        CN.UntouchedNodeGainsNoMass(cs, n, norm);
      }
    }
    ResetNodeGains(before[n], zeroed[n], after[n], touched, share, mass);
  }

  /**
   * One node of DistributedOntoReset, on values: a node whose normal was reset when `touched`
   * and which then gains `share` and `mass` ends with exactly `share` as its normal when
   * touched, and is unchanged when it is not touched and gains nothing.
   */
  lemma ResetNodeGains(b: Node, z: Node, a: Node, touched: bool, share: Vec3, mass: real)
    requires z == if touched then b.(normal := Zero) else b
    requires a == z.(normal := Add(z.normal, share), nodalMass := z.nodalMass + mass)
    requires !touched ==> share == Zero && mass == 0.0
    ensures a == b.(normal := if touched then share else b.normal, nodalMass := b.nodalMass + mass)
    ensures !touched ==> a == b
  {
    if touched {
      assert Add(Zero, share) == share;
    } else {
      assert Add(b.normal, Zero) == b.normal;
    }
  }

  /** Nodes that changed as WithAreas describes, node by node, are WithAreas of the nodes before. */
  lemma AreasAdded(before: seq<Node>, after: seq<Node>, cs: seq<N.Condition>, norm: Vec3 -> real)
    requires N.ConditionsInside(cs, |before|) && |after| == |before|
    requires forall n :: 0 <= n < |before| ==>
      after[n] == before[n].(normal := if N.Touched(N.GeometriesOf(cs), n) then N.TotalShare(cs, n) else before[n].normal,
                             nodalMass := before[n].nodalMass + CN.TotalMass(cs, n, norm))
    ensures after == WithAreas(before, cs, norm)
  {
  }

  /** Two node lists of the same length whose nodes sit at the same coordinates. */
  ghost predicate SamePositions(a: seq<Node>, b: seq<Node>) {
    |a| == |b| && forall n :: 0 <= n < |a| ==> a[n].position == b[n].position
  }

  /**
   * The nodes after CalculateNodalAreaAndNodalMass with the oriented conditions cs: a condition
   * node holds exactly its shares of their normals, every node's NODAL_MASS has grown by its
   * shares of their lengths, and nothing else changes.
   */
  ghost function WithAreas(nodes: seq<Node>, cs: seq<N.Condition>, norm: Vec3 -> real): (r: seq<Node>)
    requires N.ConditionsInside(cs, |nodes|)
    ensures |r| == |nodes|
  {
    seq(|nodes|, n requires 0 <= n < |nodes| =>
      nodes[n].(normal := if N.Touched(N.GeometriesOf(cs), n) then N.TotalShare(cs, n) else nodes[n].normal,
                nodalMass := nodes[n].nodalMass + CN.TotalMass(cs, n, norm)))
  }

  /**
   * What the signed-distance calculation, the hole cutting and the two bin locators give for one
   * pairing: the elements of the hole, the node ids and conditions of the modified patch boundary
   * and of the hole boundary, the background's locator and the patch's locator.
   */
  datatype Cut = Cut(holeElements: seq<nat>, patchIds: seq<nat>, patchConditions: seq<N.Condition>,
                     holeIds: seq<nat>, holeConditions: seq<N.Condition>,
                     locateBackground: Vec3 -> Location, locatePatch: Vec3 -> Location)

  /** A cut whose ids, conditions, hole elements and locators all lie in the main model part, and whose locators find no boundary node in its own host. */
  ghost predicate CutInside(cut: Cut, nodes: seq<Node>, elementCount: nat) {
    IdsInside(cut.patchIds, |nodes|) && IdsInside(cut.holeIds, |nodes|) &&
    N.ConditionsInside(cut.patchConditions, |nodes|) && N.ConditionsInside(cut.holeConditions, |nodes|) &&
    (forall k :: 0 <= k < |cut.holeElements| ==> cut.holeElements[k] < elementCount) &&
    Locator(cut.locateBackground, |nodes|) && Locator(cut.locatePatch, |nodes|) &&
    OwnHostFree(cut.locateBackground, nodes, cut.patchIds) && OwnHostFree(cut.locatePatch, nodes, cut.holeIds)
  }

  /** A cut is a statement about coordinates only: it stays inside while the nodes keep their coordinates. */
  lemma CutInsideKept(cut: Cut, nodes: seq<Node>, nodes': seq<Node>, elementCount: nat)
    requires SamePositions(nodes, nodes') && CutInside(cut, nodes, elementCount)
    ensures CutInside(cut, nodes', elementCount)
  {
    forall j | 0 <= j < |cut.patchIds|
      ensures nodes'[cut.patchIds[j]].position == nodes[cut.patchIds[j]].position
    {
    }
    forall j | 0 <= j < |cut.holeIds|
      ensures nodes'[cut.holeIds[j]].position == nodes[cut.holeIds[j]].position
    {
    }
  }

  /** The nodes with both boundaries of a cut prepared: first the patch boundary (sign 1), then the hole boundary (sign -1). */
  ghost function Prepared(nodes: seq<Node>, patchIds: seq<nat>, patchConditions: seq<N.Condition>, holeIds: seq<nat>,
                          holeConditions: seq<N.Condition>, dim: nat, norm: Vec3 -> real): (r: seq<Node>)
    requires IdsInside(patchIds, |nodes|) && IdsInside(holeIds, |nodes|)
    requires N.ConditionsInside(patchConditions, |nodes|) && N.ConditionsInside(holeConditions, |nodes|)
    ensures |r| == |nodes|
  {
    var positions := PositionsOf(nodes);
    var patch := CN.ConditionNormals(patchConditions, positions, CN.Centre(positions, patchIds), dim, 1);
    var hole := CN.ConditionNormals(holeConditions, positions, CN.Centre(positions, holeIds), dim, -1);
    WithAreas(WithAreas(nodes, patch, norm), hole, norm)
  }

  /** What a store holds besides its settings: its edges, nodal normals, RtMinvR and constants. */
  datatype StoreState = StoreState(constraints: Constraints, nodalNormals: map<DofKey, real>, rtMinvR: real, equationConstants: map<nat, real>)

  ghost function StateOf(store: MpcData): StoreState
    reads store`constraints, store`nodalNormals, store`rtMinvR, store`equationConstants
  {
    StoreState(store.constraints, store.nodalNormals, store.rtMinvR, store.equationConstants)
  }

  /** What the conservative correction leaves: whether it raised, the nodes, both stores' normals, RtMinvR and the constants. */
  datatype Corrections = Corrections(raised: bool, nodes: seq<Node>, normals: map<DofKey, real>, pressureNormals: map<DofKey, real>,
                                     rt: real, constants: map<nat, real>)

  /** What coupling one boundary leaves: whether it raised, the nodes and the velocity and pressure stores. */
  datatype Coupled = Coupled(raised: bool, nodes: seq<Node>, velocity: StoreState, pressure: StoreState)

  /** What coupling both boundaries of a cut leaves: whether it raised, the nodes and the four stores. */
  datatype CutCoupling = CutCoupling(raised: bool, nodes: seq<Node>, patchVelocity: StoreState, patchPressure: StoreState,
                                     backgroundVelocity: StoreState, backgroundPressure: StoreState)

  /** A store after MpcData's Clear: no edges, no nodal normals and no constants; RtMinvR stays. */
  function Emptied(s: StoreState): (r: StoreState)
    ensures r.constraints == map[] && r.nodalNormals == map[] && r.equationConstants == map[]
    ensures r.rtMinvR == s.rtMinvR
  {
    s.(constraints := map[], nodalNormals := map[], equationConstants := map[])
  }

  /** The elements with VISITED set on those listed in `holes`. */
  ghost function VisitedHoles(elements: seq<Element>, holes: seq<nat>): (r: seq<Element>)
    ensures |r| == |elements|
  {
    seq(|elements|, e requires 0 <= e < |elements| => elements[e].(visited := elements[e].visited || e in holes))
  }

  /** Marking one list of holes and then another marks both. */
  lemma VisitedHolesTwice(elements: seq<Element>, a: seq<nat>, b: seq<nat>)
    ensures VisitedHoles(VisitedHoles(elements, a), b) == VisitedHoles(elements, a + b)
  {
    assert forall e :: e in a + b <==> e in a || e in b;
  }

  /** The hole elements of the given pairings, in order. */
  ghost function Holes(cut: L.Pairing -> Cut, ps: seq<L.Pairing>): seq<nat> {
    if |ps| == 0 then [] else Holes(cut, ps[..|ps| - 1]) + cut(ps[|ps| - 1]).holeElements
  }

  /** The elements after the first loop of DoChimeraLoop: every element that is not VISITED is ACTIVE. */
  ghost function Activated(elements: seq<Element>): (r: seq<Element>)
    ensures |r| == |elements|
  {
    seq(|elements|, e requires 0 <= e < |elements| => elements[e].(active := elements[e].active || !elements[e].visited))
  }

  /** The nodes with VISITED cleared on every one of them. */
  ghost function Unvisited(nodes: seq<Node>): (r: seq<Node>)
    ensures SamePositions(nodes, r)
  {
    seq(|nodes|, n requires 0 <= n < |nodes| => nodes[n].(visited := false))
  }

  /** The elements with SPLIT_ELEMENT false on every one of them. */
  ghost function Unsplit(elements: seq<Element>): (r: seq<Element>)
    ensures |r| == |elements|
  {
    seq(|elements|, e requires 0 <= e < |elements| => elements[e].(split := false))
  }

  /** The elements with VISITED and SPLIT_ELEMENT false on every one of them. */
  ghost function Released(elements: seq<Element>): (r: seq<Element>)
    ensures |r| == |elements|
  {
    seq(|elements|, e requires 0 <= e < |elements| => elements[e].(visited := false, split := false))
  }

  /**
   * What the Chimera loop works on: whether a step raised, the nodes and elements of the main
   * model part, the four stores (patch velocity, patch pressure, background velocity, background
   * pressure) and their settings in the same order.
   */
  datatype ChimeraState = ChimeraState(raised: bool, nodes: seq<Node>, elements: seq<Element>,
                                       patchVelocity: StoreState, patchPressure: StoreState,
                                       backgroundVelocity: StoreState, backgroundPressure: StoreState, settings: seq<Settings>)

  /** The settings with the weak flag `w`: each one takes it, and nothing else of them changes. */
  function Weakened(settings: seq<Settings>, w: bool): (r: seq<Settings>)
    ensures |r| == |settings|
    ensures forall i :: 0 <= i < |r| ==> r[i].isWeak == w && r[i].(isWeak := settings[i].isWeak) == settings[i]
  {
    seq(|settings|, i requires 0 <= i < |settings| => settings[i].(isWeak := w))
  }

  /**
   * The pairings `ps` formulated in order from the state `s` by `step`: each one in turn, until
   * one raises; from then on nothing changes.
   */
  ghost function Swept(step: (L.Pairing, ChimeraState) -> ChimeraState, ps: seq<L.Pairing>, s: ChimeraState): ChimeraState
    decreases |ps|
  {
    if |ps| == 0 then s
    else
      var t := Swept(step, ps[..|ps| - 1], s);
      if t.raised then t else step(ps[|ps| - 1], t)
  }

  /** Sweeping two lists of pairings one after the other is sweeping their concatenation. */
  lemma {:induction false} SweptConcat(step: (L.Pairing, ChimeraState) -> ChimeraState, a: seq<L.Pairing>, b: seq<L.Pairing>, s: ChimeraState)
    ensures Swept(step, a + b, s) == Swept(step, b, Swept(step, a, s))
    decreases |b|
  {
    if |b| == 0 {
      assert a + b == a;
    } else {
      SweptConcat(step, a, b[..|b| - 1], s);
      assert (a + b)[..|a + b| - 1] == a + b[..|b| - 1];
    }
  }

  /** Once a step has raised, the rest of the sweep changes nothing. */
  lemma {:induction false} SweptRaised(step: (L.Pairing, ChimeraState) -> ChimeraState, ps: seq<L.Pairing>, s: ChimeraState)
    requires s.raised
    ensures Swept(step, ps, s) == s
    decreases |ps|
  {
    if |ps| > 0 {
      SweptRaised(step, ps[..|ps| - 1], s);
    }
  }

  /** A sweep that has raised after a prefix of the pairings ends there: the whole list leaves the same state. */
  lemma RaisedSpan(step: (L.Pairing, ChimeraState) -> ChimeraState, done: seq<L.Pairing>, all: seq<L.Pairing>, s: ChimeraState)
    requires done <= all && Swept(step, done, s).raised
    ensures Swept(step, all, s) == Swept(step, done, s)
  {
    assert all == done + all[|done|..];
    SweptConcat(step, done, all[|done|..], s);
    SweptRaised(step, all[|done|..], Swept(step, done, s));
  }

  /** A new store of the given type, named, active and marked as a velocity or a pressure store. */
  method NewStore(kind: string, name: string, which: string) returns (store: MpcData)
    ensures fresh(store)
    ensures store.settings == Settings(name, true, false, which, kind)
    ensures store.constraints == map[] && store.nodalNormals == map[] && store.equationConstants == map[] && store.rtMinvR == 0.0
  {
    store := new MpcData(kind);
    store.SetName(name);
    store.SetActive(true);
    store.SetVelocityOrPressure(which);
  }

  class Process {
    const main: MainModelPart
    const patchVelocity: MpcData
    const patchPressure: MpcData
    const backgroundVelocity: MpcData
    const backgroundPressure: MpcData
    /** The space dimension TDim. */
    const dim: nat
    /** The number of model parts on each Chimera level. */
    const levels: seq<nat>
    const isWeak: bool
    const pressureCoupling: string
    const pressureCouplingNode: real
    var kind: string
    var overlap: real

    /** The four stores are distinct objects and the dimension is 2 or 3. */
    predicate Valid() {
      patchVelocity != patchPressure && patchVelocity != backgroundVelocity && patchVelocity != backgroundPressure &&
      patchPressure != backgroundVelocity && patchPressure != backgroundPressure &&
      backgroundVelocity != backgroundPressure &&
      (dim == 2 || dim == 3) && pressureCouplingNode >= 0.0
    }

    predicate IsStore(store: MpcData) {
      store == patchVelocity || store == patchPressure || store == backgroundVelocity || store == backgroundPressure
    }

    /**
     * The constructor: four new active stores of the given type, named and marked velocity or
     * pressure, appended to the model part's container (created when absent) in the order
     * patch velocity, patch pressure, background velocity, background pressure.
     */
    constructor (main: MainModelPart, dim: nat, kind: string, overlap: real, levels: seq<nat>,
                 isWeak: bool, pressureCoupling: string, pressureCouplingNode: real)
      requires dim == 2 || dim == 3
      requires pressureCouplingNode >= 0.0
      modifies main
      ensures Valid()
      ensures this.main == main && this.dim == dim && this.kind == kind && this.overlap == overlap
      ensures this.levels == levels && this.isWeak == isWeak
      ensures this.pressureCoupling == pressureCoupling && this.pressureCouplingNode == pressureCouplingNode
      ensures fresh(patchVelocity) && fresh(patchPressure) && fresh(backgroundVelocity) && fresh(backgroundPressure)
      ensures patchVelocity.settings == Settings("MPC_Patch_Velocity", true, false, "Velocity", kind)
      ensures patchPressure.settings == Settings("MPC_Patch_Pressure", true, false, "Pressure", kind)
      ensures backgroundVelocity.settings == Settings("MPC_Background_Velocity", true, false, "Velocity", kind)
      ensures backgroundPressure.settings == Settings("MPC_Background_Pressure", true, false, "Pressure", kind)
      ensures patchVelocity.constraints == map[] && patchPressure.constraints == map[]
      ensures backgroundVelocity.constraints == map[] && backgroundPressure.constraints == map[]
      ensures main.nodes == old(main.nodes) && main.elements == old(main.elements)
      ensures main.container ==
        Some((if old(main.container).Some? then old(main.container).value else []) +
             [patchVelocity, patchPressure, backgroundVelocity, backgroundPressure])
    {
      this.main := main;
      this.dim := dim;
      this.kind := kind;
      this.overlap := overlap;
      this.levels := levels;
      this.isWeak := isWeak;
      this.pressureCoupling := pressureCoupling;
      this.pressureCouplingNode := pressureCouplingNode;
      if main.container.None? {
        main.container := Some([]);
      }
      var pv := NewStore(kind, "MPC_Patch_Velocity", "Velocity");
      var pp := NewStore(kind, "MPC_Patch_Pressure", "Pressure");
      var bv := NewStore(kind, "MPC_Background_Velocity", "Velocity");
      var bp := NewStore(kind, "MPC_Background_Pressure", "Pressure");
      this.patchVelocity := pv;
      this.patchPressure := pp;
      this.backgroundVelocity := bv;
      this.backgroundPressure := bp;
      new;
      main.container := Some(main.container.value + [pv, pp, bv, bp]);
    }

    /** Clear: the four stores forget their edges, normals and constants. */
    method Clear()
      requires Valid()
      modifies patchVelocity`constraints, patchVelocity`nodalNormals, patchVelocity`equationConstants
      modifies patchPressure`constraints, patchPressure`nodalNormals, patchPressure`equationConstants
      modifies backgroundVelocity`constraints, backgroundVelocity`nodalNormals, backgroundVelocity`equationConstants
      modifies backgroundPressure`constraints, backgroundPressure`nodalNormals, backgroundPressure`equationConstants
      ensures StateOf(patchVelocity) == Emptied(old(StateOf(patchVelocity)))
      ensures StateOf(patchPressure) == Emptied(old(StateOf(patchPressure)))
      ensures StateOf(backgroundVelocity) == Emptied(old(StateOf(backgroundVelocity)))
      ensures StateOf(backgroundPressure) == Emptied(old(StateOf(backgroundPressure)))
      ensures StoreSettings() == old(StoreSettings())
    {
      patchVelocity.Clear();
      patchPressure.Clear();
      backgroundVelocity.Clear();
      backgroundPressure.Clear();
    }

    /** SetActive: all four stores become active or inactive. */
    method SetActive(active: bool)
      requires Valid()
      modifies patchVelocity, patchPressure, backgroundVelocity, backgroundPressure
      ensures patchVelocity.settings == old(patchVelocity.settings).(active := active)
      ensures patchPressure.settings == old(patchPressure.settings).(active := active)
      ensures backgroundVelocity.settings == old(backgroundVelocity.settings).(active := active)
      ensures backgroundPressure.settings == old(backgroundPressure.settings).(active := active)
      ensures patchVelocity.constraints == old(patchVelocity.constraints) && patchPressure.constraints == old(patchPressure.constraints)
      ensures backgroundVelocity.constraints == old(backgroundVelocity.constraints) && backgroundPressure.constraints == old(backgroundPressure.constraints)
    {
      patchPressure.SetActive(active);
      patchVelocity.SetActive(active);
      backgroundPressure.SetActive(active);
      backgroundVelocity.SetActive(active);
    }

    /** SetType: only "nearest_element" and "conservative" are accepted; then the process and all four stores take the type. */
    method SetType(kind: string) returns (r: Outcome)
      requires Valid()
      modifies this, patchVelocity, patchPressure, backgroundVelocity, backgroundPressure
      ensures r.Completed? <==> kind == "nearest_element" || kind == "conservative"
      ensures r.Completed? ==> this.kind == kind && patchVelocity.settings.kind == kind && patchPressure.settings.kind == kind
      ensures r.Completed? ==> backgroundVelocity.settings.kind == kind && backgroundPressure.settings.kind == kind
      ensures r.Raised? ==> this.kind == old(this.kind)
      ensures r.Raised? ==> unchanged(patchVelocity) && unchanged(patchPressure) && unchanged(backgroundVelocity) && unchanged(backgroundPressure)
      ensures overlap == old(overlap)
    {
      if kind != "nearest_element" && kind != "conservative" {
        return Raised("unknown type");
      }
      this.kind := kind;
      patchVelocity.SetType(kind);
      patchPressure.SetType(kind);
      backgroundVelocity.SetType(kind);
      backgroundPressure.SetType(kind);
      r := Completed;
    }

    method SetOverlapDistance(distance: real)
      modifies this
      ensures overlap == distance && kind == old(kind)
    {
      overlap := distance;
    }

    /** SetRtMinvR: the store's RtMinvR is overwritten. */
    method SetRtMinvR(store: MpcData, value: real)
      modifies store`rtMinvR
      ensures store.rtMinvR == value
    {
      store.rtMinvR := value;
    }

    // ------------------------------------------------------------ edge helpers

    /** AddMasterSlaveRelationWithNode(Id)sAndVariable(Components): the slave node is marked SLAVE, then the edge is added. */
    method AddMasterSlaveRelation(store: MpcData, master: DofKey, slave: DofKey, weight: real, constant: real)
      requires slave.node < |main.nodes|
      modifies main`nodes, store`constraints
      ensures main.nodes == old(main.nodes)[slave.node := old(main.nodes)[slave.node].(slave := true)]
      ensures store.constraints == Insert(old(store.constraints), slave, master, Edge(weight, constant))
    {
      main.nodes := main.nodes[slave.node := main.nodes[slave.node].(slave := true)];
      store.AddConstraint(slave, master, weight, constant);
    }

    /** RemoveMasterSlaveRelationWithNodesAndVariable(Components): the slave node is marked SLAVE, then its edges go. */
    method RemoveRelationOfNode(store: MpcData, slave: DofKey)
      requires slave.node < |main.nodes|
      modifies main`nodes, store`constraints
      ensures main.nodes == old(main.nodes)[slave.node := old(main.nodes)[slave.node].(slave := true)]
      ensures store.constraints == Remove(old(store.constraints), slave)
    {
      main.nodes := main.nodes[slave.node := main.nodes[slave.node].(slave := true)];
      store.RemoveConstraint(slave);
    }

    /** RemoveMasterSlaveRelationWithNodeIdsAndVariable(Components): unlike the node-based form, SLAVE is cleared. */
    method RemoveRelationOfNodeId(store: MpcData, slave: DofKey)
      requires slave.node < |main.nodes|
      modifies main`nodes, store`constraints
      ensures main.nodes == old(main.nodes)[slave.node := old(main.nodes)[slave.node].(slave := false)]
      ensures store.constraints == Remove(old(store.constraints), slave)
    {
      main.nodes := main.nodes[slave.node := main.nodes[slave.node].(slave := false)];
      store.RemoveConstraint(slave);
    }

    /** AddNodalNormalSlaveRelationWithDofs: the slave DoF's nodal-normal component is (over)written. */
    method AddNodalNormal(store: MpcData, slave: DofKey, component: real)
      modifies store`nodalNormals
      ensures store.nodalNormals == old(store.nodalNormals)[slave := component]
    {
      store.AddNodalNormalToSlaveDof(slave, component);
    }

    /** The removals of one boundary node: X, Y, Z in 3D, then pressure, as far as the scope covers them. */
    method RemoveScope(store: MpcData, b: nat, s: Scope)
      requires b < |main.nodes|
      modifies main`nodes, store`constraints
      ensures main.nodes == old(main.nodes)[b := old(main.nodes)[b].(slave := old(main.nodes)[b].slave || Nonempty(s))]
      ensures store.constraints == RemoveEdges(old(store.constraints), b, s)
    {
      if s.velocity {
        RemoveRelationOfNode(store, DofKey(b, VelocityX));
        RemoveRelationOfNode(store, DofKey(b, VelocityY));
      }
      if s.velocity && s.dim == 3 {
        RemoveRelationOfNode(store, DofKey(b, VelocityZ));
      }
      if s.pressure {
        RemoveRelationOfNode(store, DofKey(b, Pressure));
      }
    }

    /** The edges one host node h with weight w gives boundary node b: X, Y, Z in 3D, then pressure, as far as the scope covers them. */
    method AddHostEdge(store: MpcData, b: nat, s: Scope, h: nat, w: real)
      requires b < |main.nodes|
      modifies main`nodes, store`constraints
      ensures main.nodes == old(main.nodes)[b := old(main.nodes)[b].(slave := old(main.nodes)[b].slave || Nonempty(s))]
      ensures store.constraints == HostEdge(old(store.constraints), b, s, h, w)
    {
      ghost var flagged := main.nodes[b := main.nodes[b].(slave := true)];
      ghost var cs := store.constraints;
      var e := Edge(w, 0.0);
      if s.velocity {
        AddMasterSlaveRelation(store, DofKey(h, VelocityX), DofKey(b, VelocityX), w, 0.0);
        AddMasterSlaveRelation(store, DofKey(h, VelocityY), DofKey(b, VelocityY), w, 0.0);
        assert main.nodes == flagged;
      }
      ghost var r1 := store.constraints;
      assert r1 == if s.velocity then Insert(Insert(cs, DofKey(b, VelocityX), DofKey(h, VelocityX), e), DofKey(b, VelocityY), DofKey(h, VelocityY), e) else cs;
      if s.velocity && s.dim == 3 {
        AddMasterSlaveRelation(store, DofKey(h, VelocityZ), DofKey(b, VelocityZ), w, 0.0);
        assert main.nodes == flagged;
      }
      ghost var r2 := store.constraints;
      assert r2 == if s.velocity && s.dim == 3 then Insert(r1, DofKey(b, VelocityZ), DofKey(h, VelocityZ), e) else r1;
      if s.pressure {
        AddMasterSlaveRelation(store, DofKey(h, Pressure), DofKey(b, Pressure), w, 0.0);
        assert main.nodes == flagged;
      }
      assert store.constraints == if s.pressure then Insert(r2, DofKey(b, Pressure), DofKey(h, Pressure), e) else r2;
    }

    // ------------------------------------------------------------ one boundary node

    /**
     * One boundary node's turn in a pass over one store, with the host element `loc` the
     * locator found for it: earlier edges of the scope go when the variant asks for it,
     * buffer 0 of the components in scope is reset and accumulated host by host while the host
     * edges are added, buffer 1 follows, and VISITED is set when the variant marks nodes.
     */
    method CoupleNode(b: nat, loc: Location, s: Scope, v: Variant, store: MpcData)
      requires b < |main.nodes| && Locates(loc, |main.nodes|)
      requires loc.Found? ==> b !in loc.hosts
      modifies main`nodes, store`constraints
      ensures var node := old(main.nodes)[b];
        main.nodes == old(main.nodes)[b := CoupledNode(node, old(main.nodes), loc, s, v)]
      ensures var remove := v.removeIfVisited && old(main.nodes)[b].visited && loc.Found?;
        store.constraints == NodeEdges(old(store.constraints), b, s, loc, remove)
    {
      ghost var nodes0 := main.nodes;
      ghost var node0 := main.nodes[b];
      var remove := v.removeIfVisited && main.nodes[b].visited && loc.Found?;
      ghost var cs0 := store.constraints;
      PrepareNode(b, s, remove, store);
      NodeEdgesParts(cs0, b, s, loc, remove, store.constraints);
      ghost var prepared := node0.(current := Reset(node0.current, s), slave := node0.slave || (remove && Nonempty(s)));
      assert main.nodes == nodes0[b := prepared];
      var hosts, weights := if loc.Found? then loc.hosts else [], if loc.Found? then loc.weights else [];
      AccumulateHosts(b, s, hosts, weights, store, nodes0, node0.current);
      ghost var current := Partial(node0.current, s, nodes0, hosts, weights);
      assert current == Interpolated(node0.current, s, nodes0, loc);
      ghost var mid := prepared.(current := current, slave := prepared.slave || (|hosts| > 0 && Nonempty(s)));
      UpdatedTwice(nodes0, b, prepared, mid);
      assert main.nodes == nodes0[b := mid];
      var copy := v.copyAlways || loc.Found?;
      FinishNode(b, s, copy, v.markVisited);
      ghost var finished := Finished(mid, s, copy, v.markVisited);
      UpdatedTwice(nodes0, b, mid, finished);
      assert main.nodes == nodes0[b := finished];
      CoupledNodeParts(node0, nodes0, loc, s, v, mid);
    }

    /** The start of a node's turn: its edges in scope go when `remove`, and buffer 0 of the components in scope is reset to 0. */
    method PrepareNode(b: nat, s: Scope, remove: bool, store: MpcData)
      requires b < |main.nodes|
      modifies main`nodes, store`constraints
      ensures var node := old(main.nodes)[b];
        main.nodes == old(main.nodes)[b := node.(current := Reset(node.current, s), slave := node.slave || (remove && Nonempty(s)))]
      ensures store.constraints == if remove then RemoveEdges(old(store.constraints), b, s) else old(store.constraints)
    {
      if remove {
        RemoveScope(store, b, s);
      }
      main.nodes := main.nodes[b := main.nodes[b].(current := Reset(main.nodes[b].current, s))];
    }

    /** The end of a node's turn: buffer 1 takes buffer 0's components in scope when `copy`, and VISITED is set when `mark`. */
    method FinishNode(b: nat, s: Scope, copy: bool, mark: bool)
      requires b < |main.nodes|
      modifies main`nodes
      ensures main.nodes == old(main.nodes)[b := Finished(old(main.nodes)[b], s, copy, mark)]
    {
      if copy {
        main.nodes := main.nodes[b := main.nodes[b].(previous := Copied(main.nodes[b].previous, main.nodes[b].current, s))];
      }
      if mark {
        main.nodes := main.nodes[b := main.nodes[b].(visited := true)];
      }
    }

    /**
     * One boundary node's turn in a pass over two stores, the first taking the components of
     * s1 and the second those of s2: the turn over s1, then the turn over s2, which sees the
     * same VISITED flag and the same host values.
     */
    method CoupleNodeInTwoStores(b: nat, loc: Location, s1: Scope, s2: Scope, v: Variant, first: MpcData, second: MpcData)
      requires b < |main.nodes| && Locates(loc, |main.nodes|)
      requires loc.Found? ==> b !in loc.hosts
      requires s1.dim == s2.dim && Disjoint(s1, s2) && first != second
      modifies main`nodes, first`constraints, second`constraints
      ensures var node := old(main.nodes)[b];
        main.nodes == old(main.nodes)[b := CoupledNode(node, old(main.nodes), loc, Union(s1, s2), v)]
      ensures var remove := v.removeIfVisited && old(main.nodes)[b].visited && loc.Found?;
        first.constraints == NodeEdges(old(first.constraints), b, s1, loc, remove) &&
        second.constraints == NodeEdges(old(second.constraints), b, s2, loc, remove)
    {
      ghost var nodes0 := main.nodes;
      CoupleNode(b, loc, s1, v.(markVisited := false), first);
      ghost var nodes1 := main.nodes;
      CoupleNode(b, loc, s2, v, second);
      if loc.Found? {
        forall i | 0 <= i < |loc.hosts|
          ensures nodes1[loc.hosts[i]].current == nodes0[loc.hosts[i]].current
        {
          assert loc.hosts[i] != b;
        }
      }
      CoupledNodeReadsHosts(nodes1[b], nodes1, nodes0, loc, s2, v);
      CoupledNodeUnion(nodes0[b], nodes0, loc, s1, s2, v);
    }

    /** One host h with shape-function value w: its share goes to buffer 0 of b and its edges to the store. */
    method AccumulateHost(b: nat, s: Scope, h: nat, w: real, store: MpcData)
      requires b < |main.nodes| && h < |main.nodes|
      modifies main`nodes, store`constraints
      ensures var node := old(main.nodes)[b];
        main.nodes == old(main.nodes)[b := node.(current := Accumulated(node.current, s, old(main.nodes)[h].current, w),
                                                 slave := node.slave || Nonempty(s))]
      ensures store.constraints == HostEdge(old(store.constraints), b, s, h, w)
    {
      main.nodes := main.nodes[b := main.nodes[b].(current := Accumulated(main.nodes[b].current, s, main.nodes[h].current, w))];
      AddHostEdge(store, b, s, h, w);
    }

    /**
     * The host loop of one boundary node: buffer 0 of the components in scope, reset beforehand,
     * gathers each host's value times its shape-function value while each host's edges go to
     * the store. Ghost nodes0 and v0 are the nodes and buffer 0 before the reset.
     */
    method AccumulateHosts(b: nat, s: Scope, hosts: seq<nat>, weights: seq<real>, store: MpcData,
                           ghost nodes0: seq<Node>, ghost v0: Values)
      requires b < |main.nodes| == |nodes0|
      requires HostsInside(hosts, weights, |nodes0|) && b !in hosts
      requires main.nodes == nodes0[b := main.nodes[b]]
      requires main.nodes[b].current == Reset(v0, s)
      modifies main`nodes, store`constraints
      ensures var node := old(main.nodes)[b];
        main.nodes == old(main.nodes)[b := node.(current := Partial(v0, s, nodes0, hosts, weights),
                                                 slave := node.slave || (|hosts| > 0 && Nonempty(s)))]
      ensures store.constraints == HostEdges(old(store.constraints), b, s, hosts, weights)
    {
      ghost var nodes1 := main.nodes;
      ghost var node0 := main.nodes[b];
      PartialOfNoHosts(v0, s, nodes0);
      for i := 0 to |hosts|
        invariant main.nodes == nodes1[b := node0.(current := Partial(v0, s, nodes0, hosts[..i], weights[..i]),
                                                   slave := node0.slave || (i > 0 && Nonempty(s)))]
        invariant store.constraints == HostEdges(old(store.constraints), b, s, hosts[..i], weights[..i])
      {
        var h := hosts[i];
        var w := weights[i];
        assert hosts[..i + 1][..i] == hosts[..i] && weights[..i + 1][..i] == weights[..i];
        assert main.nodes[h] == nodes0[h];
        PartialStep(v0, s, nodes0, hosts[..i + 1], weights[..i + 1]);
        HostEdgesStep(old(store.constraints), b, s, hosts, weights, i);
        AccumulateHost(b, s, h, w, store);
      }
      assert hosts[..|hosts|] == hosts && weights[..|weights|] == weights;
    }

    /** VISITED cleared on the boundary nodes, one after the other. */
    method ClearVisits(ids: seq<nat>)
      requires IdsInside(ids, |main.nodes|)
      modifies main`nodes
      ensures main.nodes == ClearedVisits(old(main.nodes), ids)
    {
      for i := 0 to |ids|
        invariant main.nodes == ClearedVisits(old(main.nodes), ids[..i])
      {
        assert ids[..i + 1][..i] == ids[..i];
        main.nodes := main.nodes[ids[i] := main.nodes[ids[i]].(visited := false)];
      }
      assert ids[..|ids|] == ids;
    }

    /**
     * A pass over the boundary writing to one store: each boundary node in order takes its turn
     * for the components of s, located at its coordinates.
     */
    method PassOverStore(ids: seq<nat>, locate: Vec3 -> Location, s: Scope, v: Variant, store: MpcData)
      requires IdsInside(ids, |main.nodes|) && Locator(locate, |main.nodes|) && OwnHostFree(locate, main.nodes, ids)
      modifies main`nodes, store`constraints
      ensures Coupling(main.nodes, store.constraints, map[]) ==
        Pass(Coupling(old(main.nodes), old(store.constraints), map[]), ids, locate, s, Idle(s.dim), v)
    {
      ghost var st0 := Coupling(main.nodes, store.constraints, map[]);
      assert Union(s, Idle(s.dim)) == s;
      for i := 0 to |ids|
        invariant Coupling(main.nodes, store.constraints, map[]) == Pass(st0, ids[..i], locate, s, Idle(s.dim), v)
      {
        var b := ids[i];
        PassStep(st0, ids, locate, s, Idle(s.dim), v, i);
        assert main.nodes[b].position == st0.nodes[b].position;
        var loc := locate(main.nodes[b].position);
        ghost var remove := v.removeIfVisited && main.nodes[b].visited && loc.Found?;
        CoupleNode(b, loc, s, v, store);
        NodeEdgesOfEmptyScope(map[], b, Idle(s.dim), loc, remove);
      }
      assert ids[..|ids|] == ids;
    }

    /**
     * A pass over the boundary writing the components of s1 to the first store and those of s2
     * to the second.
     */
    method PassOverTwoStores(ids: seq<nat>, locate: Vec3 -> Location, s1: Scope, s2: Scope, v: Variant, first: MpcData, second: MpcData)
      requires IdsInside(ids, |main.nodes|) && Locator(locate, |main.nodes|) && OwnHostFree(locate, main.nodes, ids)
      requires s1.dim == s2.dim && Disjoint(s1, s2) && first != second
      modifies main`nodes, first`constraints, second`constraints
      ensures Coupling(main.nodes, first.constraints, second.constraints) ==
        Pass(Coupling(old(main.nodes), old(first.constraints), old(second.constraints)), ids, locate, s1, s2, v)
    {
      ghost var st0 := Coupling(main.nodes, first.constraints, second.constraints);
      for i := 0 to |ids|
        invariant Coupling(main.nodes, first.constraints, second.constraints) == Pass(st0, ids[..i], locate, s1, s2, v)
      {
        var b := ids[i];
        PassStep(st0, ids, locate, s1, s2, v, i);
        assert main.nodes[b].position == st0.nodes[b].position;
        var loc := locate(main.nodes[b].position);
        CoupleNodeInTwoStores(b, loc, s1, s2, v, first, second);
      }
      assert ids[..|ids|] == ids;
    }

    /**
     * The "one" pressure coupling: the node chosen by pressure_coupling_node (the first boundary
     * node for 0, else the boundary node with that id, whose absence raises) takes a turn for the
     * components of s; with `checkVisited` it is skipped when VISITED and is VISITED afterwards.
     */
    method CoupleOneNode(ids: seq<nat>, locate: Vec3 -> Location, s: Scope, checkVisited: bool, store: MpcData) returns (r: Outcome)
      requires Valid() && (pressureCouplingNode == 0.0 ==> |ids| > 0)
      requires IdsInside(ids, |main.nodes|) && Locator(locate, |main.nodes|) && OwnHostFree(locate, main.nodes, ids)
      modifies main`nodes, store`constraints
      ensures var sel := SelectedNode(ids, pressureCouplingNode);
        (r.Raised? <==> sel.Err?) &&
        (sel.Err? ==> main.nodes == old(main.nodes) && store.constraints == old(store.constraints)) &&
        (sel.Ok? ==> Coupling(main.nodes, store.constraints, map[]) ==
                     OneStep(Coupling(old(main.nodes), old(store.constraints), map[]), sel.value,
                             locate(old(main.nodes)[sel.value].position), s, Idle(s.dim), checkVisited))
    {
      var sel := SelectedNode(ids, pressureCouplingNode);
      if sel.Err? {
        return Raised(sel.message);
      }
      var b := sel.value;
      ghost var j :| 0 <= j < |ids| && ids[j] == b;
      var loc := locate(main.nodes[b].position);
      if checkVisited && main.nodes[b].visited {
        main.nodes := main.nodes[b := main.nodes[b].(visited := true)];
      } else {
        assert Union(s, Idle(s.dim)) == s;
        CoupleNode(b, loc, s, Variant(false, true, checkVisited), store);
        NodeEdgesOfEmptyScope(map[], b, Idle(s.dim), loc, false);
      }
      r := Completed;
    }

    /**
     * ApplyMpcConstraint: an interpolating pass over one store for the velocity, and for the
     * pressure when the pressure coupling is "all". With the "one" coupling the chosen node is
     * then coupled for the pressure unless VISITED; the pass has just marked every boundary
     * node VISITED, so only a failing node lookup shows.
     */
    method ApplyMpcConstraint(boundary: BoundaryPart, locate: Vec3 -> Location, store: MpcData, coupling: string) returns (r: Outcome)
      requires Valid()
      requires IdsInside(boundary.ids, |main.nodes|) && Locator(locate, |main.nodes|) && OwnHostFree(locate, main.nodes, boundary.ids)
      requires coupling == "one" && pressureCouplingNode == 0.0 ==> |boundary.ids| > 0
      modifies main`nodes, store`constraints
      ensures Coupling(main.nodes, store.constraints, map[]) ==
        Pass(Coupling(old(main.nodes), old(store.constraints), map[]), boundary.ids, locate,
             Scope(dim, true, coupling == "all"), Idle(dim), Interpolating)
      ensures r.Raised? <==> coupling == "one" && SelectedNode(boundary.ids, pressureCouplingNode).Err?
    {
      var ids := boundary.ids;
      ghost var st0 := Coupling(main.nodes, store.constraints, map[]);
      PassOverStore(ids, locate, Scope(dim, true, coupling == "all"), Interpolating, store);
      r := Completed;
      if coupling == "one" {
        PassVisitsBoundary(st0, ids, locate, Scope(dim, true, coupling == "all"), Idle(dim), Interpolating);
        r := CoupleOneNode(ids, locate, Scope(dim, false, true), true, store);
      }
    }

    /**
     * ApplyMpcConstraintForFractionalStep: an interpolating pass writing the velocity to the
     * velocity store and, when the pressure coupling is "all", the pressure to the pressure
     * store; the "one" coupling goes to the pressure store and, as in ApplyMpcConstraint, only
     * a failing node lookup shows.
     */
    method ApplyMpcConstraintForFractionalStep(boundary: BoundaryPart, locate: Vec3 -> Location, velocity: MpcData, pressure: MpcData,
                                               coupling: string) returns (r: Outcome)
      requires Valid() && velocity != pressure
      requires IdsInside(boundary.ids, |main.nodes|) && Locator(locate, |main.nodes|) && OwnHostFree(locate, main.nodes, boundary.ids)
      requires coupling == "one" && pressureCouplingNode == 0.0 ==> |boundary.ids| > 0
      modifies main`nodes, velocity`constraints, pressure`constraints
      ensures Coupling(main.nodes, velocity.constraints, pressure.constraints) ==
        Pass(Coupling(old(main.nodes), old(velocity.constraints), old(pressure.constraints)), boundary.ids, locate,
             Scope(dim, true, false), Scope(dim, false, coupling == "all"), Interpolating)
      ensures r.Raised? <==> coupling == "one" && SelectedNode(boundary.ids, pressureCouplingNode).Err?
    {
      var ids := boundary.ids;
      ghost var st0 := Coupling(main.nodes, velocity.constraints, pressure.constraints);
      PassOverTwoStores(ids, locate, Scope(dim, true, false), Scope(dim, false, coupling == "all"), Interpolating, velocity, pressure);
      r := Completed;
      if coupling == "one" {
        PassVisitsBoundary(st0, ids, locate, Scope(dim, true, false), Scope(dim, false, coupling == "all"), Interpolating);
        r := CoupleOneNode(ids, locate, Scope(dim, false, true), true, pressure);
      }
    }

    /**
     * ApplyMpcConstraintFractionalVelocity: VISITED is cleared on the boundary, then a pass
     * writes the velocity to the store, copying buffer 0 to buffer 1 whether or not a host was
     * found, without removing earlier edges or marking nodes.
     */
    method ApplyMpcConstraintFractionalVelocity(boundary: BoundaryPart, locate: Vec3 -> Location, store: MpcData)
      requires IdsInside(boundary.ids, |main.nodes|) && Locator(locate, |main.nodes|) && OwnHostFree(locate, main.nodes, boundary.ids)
      modifies main`nodes, store`constraints
      ensures Coupling(main.nodes, store.constraints, map[]) ==
        Pass(Coupling(ClearedVisits(old(main.nodes), boundary.ids), old(store.constraints), map[]), boundary.ids, locate,
             Scope(dim, true, false), Idle(dim), Fractional)
    {
      ClearVisits(boundary.ids);
      PassOverStore(boundary.ids, locate, Scope(dim, true, false), Fractional, store);
    }

    /**
     * ApplyMpcConstraintFractionalPressure: VISITED is cleared on the boundary, a pass writes the
     * pressure to the store when the coupling is "all" (and changes nothing otherwise), and with
     * the "one" coupling the chosen node is coupled for the pressure without the VISITED check.
     */
    method ApplyMpcConstraintFractionalPressure(boundary: BoundaryPart, locate: Vec3 -> Location, store: MpcData, coupling: string)
      returns (r: Outcome)
      requires Valid()
      requires IdsInside(boundary.ids, |main.nodes|) && Locator(locate, |main.nodes|) && OwnHostFree(locate, main.nodes, boundary.ids)
      requires coupling == "one" && pressureCouplingNode == 0.0 ==> |boundary.ids| > 0
      modifies main`nodes, store`constraints
      ensures var passed := Pass(Coupling(ClearedVisits(old(main.nodes), boundary.ids), old(store.constraints), map[]), boundary.ids,
                                 locate, Scope(dim, false, coupling == "all"), Idle(dim), Fractional);
        var now := Coupling(main.nodes, store.constraints, map[]);
        (coupling != "one" ==> r == Completed && now == passed) &&
        (coupling == "one" ==>
           var sel := SelectedNode(boundary.ids, pressureCouplingNode);
           (r.Raised? <==> sel.Err?) &&
           (sel.Err? ==> now == passed) &&
           (sel.Ok? ==> now == OneStep(passed, sel.value, locate(old(main.nodes)[sel.value].position), Scope(dim, false, true), Idle(dim), false)))
    {
      ClearVisits(boundary.ids);
      PassOverStore(boundary.ids, locate, Scope(dim, false, coupling == "all"), Fractional, store);
      r := Completed;
      if coupling == "one" {
        r := CoupleOneNode(boundary.ids, locate, Scope(dim, false, true), false, store);
      }
    }

    // ------------------------------------------------------------ nodal normals and masses

    /**
     * CalculateNodalAreaAndNodalMass: the NORMAL of every condition node is reset, each
     * condition of the right size for the dimension gets its area normal oriented against the
     * boundary's centre (and multiplied by `sign`), and every condition hands 1/size of its
     * normal and of the normal's length `norm` to each of its nodes. Afterwards a condition node
     * holds exactly the shares of the conditions it belongs to, its NODAL_MASS has grown by the
     * shares of their lengths, and every other node is as it was.
     */
    method CalculateNodalAreaAndNodalMass(boundary: BoundaryPart, sign: int, norm: Vec3 -> real)
      requires Valid() && IdsInside(boundary.ids, |main.nodes|) && N.ConditionsInside(boundary.conditions, |main.nodes|)
      modifies main`nodes, boundary`conditions
      ensures boundary.conditions ==
        CN.ConditionNormals(old(boundary.conditions), PositionsOf(old(main.nodes)), CN.Centre(PositionsOf(old(main.nodes)), boundary.ids), dim, sign)
      ensures main.nodes == WithAreas(old(main.nodes), boundary.conditions, norm)
      ensures forall n :: 0 <= n < |main.nodes| && !N.Touched(N.GeometriesOf(boundary.conditions), n) ==> main.nodes[n] == old(main.nodes)[n]
    {
      var geometries := N.GeometriesOf(boundary.conditions);
      ZeroNormalsOn(geometries);
      ghost var zeroed := main.nodes;
      assert PositionsOf(zeroed) == PositionsOf(old(main.nodes));
      var centre := BoundaryCentre(boundary.ids);
      OrientConditionNormals(boundary, centre, sign);
      assert N.GeometriesOf(boundary.conditions) == geometries;
      DistributeToNodes(boundary, norm);
      DistributedOntoReset(old(main.nodes), zeroed, main.nodes, boundary.conditions, norm);
      AreasAdded(old(main.nodes), main.nodes, boundary.conditions, norm);
    }

    /** The reset loop of CalculateNodalAreaAndNodalMass: NORMAL := 0 on every node of every geometry, and on no other node. */
    method ZeroNormalsOn(geometries: seq<seq<nat>>)
      requires N.GeometriesInside(geometries, |main.nodes|)
      modifies main`nodes
      ensures |main.nodes| == |old(main.nodes)|
      ensures forall n :: 0 <= n < |main.nodes| ==>
        main.nodes[n] == if N.Touched(geometries, n) then old(main.nodes)[n].(normal := Zero) else old(main.nodes)[n]
    {
      ghost var before := main.nodes;
      for k := 0 to |geometries|
        invariant |main.nodes| == |before|
        invariant forall n :: 0 <= n < |main.nodes| ==>
          main.nodes[n] == if N.Touched(geometries[..k], n) then before[n].(normal := Zero) else before[n]
      {
        var g := geometries[k];
        for j := 0 to |g|
          invariant |main.nodes| == |before|
          invariant forall n :: 0 <= n < |main.nodes| ==>
            main.nodes[n] == if N.Touched(geometries[..k], n) || n in g[..j] then before[n].(normal := Zero) else before[n]
        {
          assert g[..j + 1] == g[..j] + [g[j]];
          main.nodes := main.nodes[g[j] := main.nodes[g[j]].(normal := Zero)];
        }
        assert g[..|g|] == g;
        forall n | 0 <= n < |main.nodes|
          ensures N.Touched(geometries[..k + 1], n) <==> N.Touched(geometries[..k], n) || n in g
        {
          N.TouchedStep(geometries, k, n);
        }
      }
      assert geometries[..|geometries|] == geometries;
    }

    /** The centre loop: the boundary's node positions summed in order, divided by their number. */
    method BoundaryCentre(ids: seq<nat>) returns (centre: Option<Vec3>)
      requires IdsInside(ids, |main.nodes|)
      ensures centre == CN.Centre(PositionsOf(main.nodes), ids)
    {
      ghost var positions := PositionsOf(main.nodes);
      var sum := Zero;
      for k := 0 to |ids|
        invariant CN.IdsInside(ids[..k], |positions|)
        invariant sum == CN.PositionSum(positions, ids[..k])
      {
        assert ids[..k + 1][..k] == ids[..k];
        sum := Add(sum, main.nodes[ids[k]].position);
      }
      assert ids[..|ids|] == ids;
      if |ids| == 0 {
        centre := None;
      } else {
        centre := Some(Scale(1.0 / (|ids| as real), sum));
      }
    }

    /** The normal loop: CalculateNormal2D or CalculateNormal3D on every condition whose size fits the dimension. */
    method OrientConditionNormals(boundary: BoundaryPart, centre: Option<Vec3>, sign: int)
      requires Valid() && N.ConditionsInside(boundary.conditions, |main.nodes|)
      modifies boundary`conditions
      ensures boundary.conditions == CN.ConditionNormals(old(boundary.conditions), PositionsOf(main.nodes), centre, dim, sign)
    {
      ghost var before := boundary.conditions;
      for k := 0 to |boundary.conditions|
        invariant |boundary.conditions| == |before|
        invariant forall j :: 0 <= j < k ==> boundary.conditions[j] == CN.ConditionNormal(before[j], PositionsOf(main.nodes), centre, dim, sign)
        invariant forall j :: k <= j < |before| ==> boundary.conditions[j] == before[j]
      {
        assert CN.NodesInside(before[k], |main.nodes|);
        if dim == 2 && |boundary.conditions[k].geometry| == 2 {
          CalculateNormal2D(boundary, k, centre, sign);
        } else if dim == 3 && |boundary.conditions[k].geometry| == 3 {
          CalculateNormal3D(boundary, k, centre, sign);
        }
      }
    }

    /**
     * CalculateNormal2D: the edge normal of condition k, negated when it points towards the
     * centre and multiplied by `sign`, becomes the condition's NORMAL.
     */
    method CalculateNormal2D(boundary: BoundaryPart, k: nat, centre: Option<Vec3>, sign: int)
      requires k < |boundary.conditions| && |boundary.conditions[k].geometry| == 2
      requires CN.NodesInside(boundary.conditions[k], |main.nodes|)
      modifies boundary`conditions
      ensures boundary.conditions ==
        old(boundary.conditions)[k := CN.ConditionNormal(old(boundary.conditions)[k], PositionsOf(main.nodes), centre, 2, sign)]
    {
      var g := boundary.conditions[k].geometry;
      var p0, p1 := main.nodes[g[0]].position, main.nodes[g[1]].position;
      var an := Vec3(p1.y - p0.y, -(p1.x - p0.x), 0.0);
      var normal := an;
      if centre.Some? {
        var r := Vec3(centre.value.x - p0.x, centre.value.y - p0.y, 0.0);
        if Dot(an, r) > 0.0 {
          normal := Scale(-1.0, normal);
        }
      }
      normal := Scale(sign as real, normal);
      boundary.conditions := boundary.conditions[k := boundary.conditions[k].(normal := normal)];
    }

    /**
     * CalculateNormal3D: half the cross product of the two edges leaving the first node of
     * condition k, negated when it points towards the centre and multiplied by `sign`, becomes
     * the condition's NORMAL.
     */
    method CalculateNormal3D(boundary: BoundaryPart, k: nat, centre: Option<Vec3>, sign: int)
      requires k < |boundary.conditions| && |boundary.conditions[k].geometry| == 3
      requires CN.NodesInside(boundary.conditions[k], |main.nodes|)
      modifies boundary`conditions
      ensures boundary.conditions ==
        old(boundary.conditions)[k := CN.ConditionNormal(old(boundary.conditions)[k], PositionsOf(main.nodes), centre, 3, sign)]
    {
      var g := boundary.conditions[k].geometry;
      var p0, p1, p2 := main.nodes[g[0]].position, main.nodes[g[1]].position, main.nodes[g[2]].position;
      var v1 := Vec3(p1.x - p0.x, p1.y - p0.y, p1.z - p0.z);
      var v2 := Vec3(p2.x - p0.x, p2.y - p0.y, p2.z - p0.z);
      var an := Scale(0.5, Cross(v1, v2));
      var normal := an;
      if centre.Some? {
        var r := Vec3(centre.value.x - p0.x, centre.value.y - p0.y, centre.value.z - p0.z);
        if Dot(an, r) > 0.0 {
          normal := Scale(-1.0, normal);
        }
      }
      normal := Scale(sign as real, normal);
      boundary.conditions := boundary.conditions[k := boundary.conditions[k].(normal := normal)];
    }

    /** The distribution loop, condition after condition. */
    method DistributeToNodes(boundary: BoundaryPart, norm: Vec3 -> real)
      requires N.ConditionsInside(boundary.conditions, |main.nodes|)
      modifies main`nodes
      ensures |main.nodes| == |old(main.nodes)|
      ensures forall n :: 0 <= n < |main.nodes| ==>
        main.nodes[n] == old(main.nodes)[n].(normal := N.Distribute(NormalsOf(old(main.nodes)), boundary.conditions)[n],
                                             nodalMass := CN.DistributeMass(MassesOf(old(main.nodes)), boundary.conditions, norm)[n])
    {
      ghost var before := main.nodes;
      var cs := boundary.conditions;
      for k := 0 to |cs|
        invariant |main.nodes| == |before|
        invariant forall n :: 0 <= n < |main.nodes| ==>
          main.nodes[n] == before[n].(normal := N.Distribute(NormalsOf(before), cs[..k])[n],
                                     nodalMass := CN.DistributeMass(MassesOf(before), cs[..k], norm)[n])
      {
        assert cs[..k + 1][..k] == cs[..k] && cs[..k + 1][k] == cs[k];
        assert NormalsOf(main.nodes) == N.Distribute(NormalsOf(before), cs[..k]);
        assert MassesOf(main.nodes) == CN.DistributeMass(MassesOf(before), cs[..k], norm);
        AddConditionShares(cs[k], norm);
      }
      assert cs[..|cs|] == cs;
    }

    /** One condition's turn of the distribution loop: each of its nodes gains NORMAL/size and |NORMAL|/size per occurrence. */
    method AddConditionShares(c: N.Condition, norm: Vec3 -> real)
      requires CN.NodesInside(c, |main.nodes|)
      modifies main`nodes
      ensures |main.nodes| == |old(main.nodes)|
      ensures forall n :: 0 <= n < |main.nodes| ==>
        main.nodes[n] == old(main.nodes)[n].(normal := N.AddShare(NormalsOf(old(main.nodes)), c.geometry, N.Coefficient(c.geometry), c.normal)[n],
                                             nodalMass := CN.AddMass(MassesOf(old(main.nodes)), c.geometry, N.Coefficient(c.geometry), norm(c.normal))[n])
    {
      var g := c.geometry;
      var coeff := if |g| == 0 then 0.0 else 1.0 / (|g| as real);
      var mass := norm(c.normal);
      ghost var before := main.nodes;
      for j := 0 to |g|
        invariant |main.nodes| == |before|
        invariant forall n :: 0 <= n < |main.nodes| ==>
          main.nodes[n] == before[n].(normal := N.AddShare(NormalsOf(before), g[..j], coeff, c.normal)[n],
                                     nodalMass := CN.AddMass(MassesOf(before), g[..j], coeff, mass)[n])
      {
        assert g[..j + 1][..j] == g[..j];
        var n := g[j];
        main.nodes := main.nodes[n := main.nodes[n].(normal := Add(main.nodes[n].normal, Scale(coeff, c.normal)),
                                                     nodalMass := main.nodes[n].nodalMass + coeff * mass)];
      }
      assert g[..|g|] == g;
    }

    // ------------------------------------------------------------ conservative coupling

    /**
     * The normal loop of ApplyMpcConstraintConservative: node after node, the components of
     * NORMAL go to the node's velocity DoFs in the velocity store and 0 to its PRESSURE DoF in
     * the pressure store, while Rt·M⁻¹·R gathers n²/NODAL_MASS. The division by a NODAL_MASS
     * of 0 stops the loop before that node.
     */
    /** The component loop of one boundary node: its first dim NORMAL components go to the velocity DoFs; returns its share of RtMinvR. */
    method AttachNodeNormal(velocity: MpcData, b: nat, normal: Vec3, mass: real) returns (gain: real)
      requires dim <= 3 && mass != 0.0
      modifies velocity`nodalNormals
      ensures velocity.nodalNormals == ComponentsAttached(old(velocity.nodalNormals), b, normal, dim)
      ensures gain == NodeRtMinvR(normal, mass, dim)
    {
      gain := 0.0;
      for i := 0 to dim
        invariant velocity.nodalNormals == ComponentsAttached(old(velocity.nodalNormals), b, normal, i)
        invariant gain == NodeRtMinvR(normal, mass, i)
      {
        var n := At(normal, i);
        AddNodalNormal(velocity, DofKey(b, VelocityComponent(i)), n);
        gain := gain + (n * n) / mass;
      }
    }

    method AttachNormals(ids: seq<nat>, velocity: MpcData, pressure: MpcData) returns (r: Outcome, rt: real)
      requires Valid() && velocity != pressure && IdsInside(ids, |main.nodes|)
      modifies velocity`nodalNormals, pressure`nodalNormals
      ensures var k := FirstZeroMass(main.nodes, ids);
        (r.Raised? <==> k < |ids|) &&
        velocity.nodalNormals == NormalsAttached(old(velocity.nodalNormals), main.nodes, ids[..k], dim) &&
        pressure.nodalNormals == PressureAttached(old(pressure.nodalNormals), ids[..k])
      ensures r.Completed? ==> MassesNonzero(main.nodes, ids) && rt == BoundaryRtMinvR(main.nodes, ids, dim)
    {
      rt := 0.0;
      for idx := 0 to |ids|
        invariant IdsInside(ids[..idx], |main.nodes|) && MassesNonzero(main.nodes, ids[..idx])
        invariant velocity.nodalNormals == NormalsAttached(old(velocity.nodalNormals), main.nodes, ids[..idx], dim)
        invariant pressure.nodalNormals == PressureAttached(old(pressure.nodalNormals), ids[..idx])
        invariant rt == BoundaryRtMinvR(main.nodes, ids[..idx], dim)
      {
        var b := ids[idx];
        var mass := main.nodes[b].nodalMass;
        if mass == 0.0 {
          FirstZeroAt(main.nodes, ids, idx) by {
            assert forall j :: 0 <= j < idx ==> ids[..idx][j] == ids[j];
          }
          return Raised("division by a zero NODAL_MASS"), rt;
        }
        AttachStep(main.nodes, ids, idx, dim, old(velocity.nodalNormals), old(pressure.nodalNormals));
        var gain := AttachNodeNormal(velocity, b, main.nodes[b].normal, mass);
        rt := rt + gain;
        AddNodalNormal(pressure, DofKey(b, Pressure), 0.0);
      }
      assert ids[..|ids|] == ids;
      r := Completed;
    }

    /**
     * ApplyMpcConstraintConservative: the interpolating pass of ApplyMpcConstraintForFractionalStep,
     * then the conservative correction of the velocity store: the normals are attached, RtMinvR is
     * set, the constants are calculated over the store's slaves in the order `order` gives, and
     * added to the slave DoFs. The first step that raises stops it.
     */
    method ApplyMpcConstraintConservative(boundary: BoundaryPart, locate: Vec3 -> Location, velocity: MpcData, pressure: MpcData,
                                          coupling: string, order: Constraints -> seq<DofKey>, equationId: DofKey -> nat)
      returns (r: Outcome)
      requires Valid() && velocity != pressure
      requires IdsInside(boundary.ids, |main.nodes|) && Locator(locate, |main.nodes|) && OwnHostFree(locate, main.nodes, boundary.ids)
      requires coupling == "one" && pressureCouplingNode == 0.0 ==> |boundary.ids| > 0
      requires forall cs :: Enumerates(order(cs), cs)
      modifies main`nodes, velocity`constraints, velocity`nodalNormals, velocity`rtMinvR, velocity`equationConstants
      modifies pressure`constraints, pressure`nodalNormals
      ensures var passed := Pass(Coupling(old(main.nodes), old(velocity.constraints), old(pressure.constraints)), boundary.ids, locate,
                                 Scope(dim, true, false), Scope(dim, false, coupling == "all"), Interpolating);
        velocity.constraints == passed.first && pressure.constraints == passed.second &&
        if coupling == "one" && SelectedNode(boundary.ids, pressureCouplingNode).Err? then
          r.Raised? && main.nodes == passed.nodes &&
          velocity.nodalNormals == old(velocity.nodalNormals) && pressure.nodalNormals == old(pressure.nodalNormals) &&
          velocity.rtMinvR == old(velocity.rtMinvR) && velocity.equationConstants == old(velocity.equationConstants)
        else
          Correction(passed.nodes, boundary.ids, order(passed.first), equationId, old(velocity.nodalNormals), old(pressure.nodalNormals),
                     old(velocity.rtMinvR), old(velocity.equationConstants)) ==
          Corrections(r.Raised?, main.nodes, velocity.nodalNormals, pressure.nodalNormals, velocity.rtMinvR, velocity.equationConstants)
      ensures r.Completed? && ZeroFluxSetting(boundary.ids, velocity.constraints, order, equationId) ==>
        C.Flux(SlaveNormals(velocity.nodalNormals, order(velocity.constraints)), SlaveValues(main.nodes, order(velocity.constraints))) == 0.0
    {
      r := ApplyMpcConstraintForFractionalStep(boundary, locate, velocity, pressure, coupling);
      if r.Raised? {
        return;
      }
      ghost var nodes0, normals0, pressure0, rt0, constants0 :=
        main.nodes, velocity.nodalNormals, pressure.nodalNormals, velocity.rtMinvR, velocity.equationConstants;
      r := ConservativeCorrection(boundary.ids, velocity, pressure, order, equationId);
      if ZeroFluxSetting(boundary.ids, velocity.constraints, order, equationId) {
        CorrectionHasZeroFlux(nodes0, boundary.ids, order(velocity.constraints), equationId, normals0, pressure0, rt0, constants0);
      }
    }

    /**
     * What the conservative correction of a boundary leaves, from the nodes, normals, RtMinvR and
     * constants before it: the normals of the boundary nodes before the first one with a zero
     * NODAL_MASS are attached, and such a node raises; with none, RtMinvR becomes the boundary's
     * Rt·M⁻¹·R, a slave outside the model part or a zero divisor raises, and otherwise the
     * constants are filed and added to the slave DoFs. Whatever raises leaves the nodes and the
     * constants as they were.
     */
    ghost function Correction(nodes: seq<Node>, ids: seq<nat>, slaves: seq<DofKey>, equationId: DofKey -> nat,
                              normals: map<DofKey, real>, pressureNormals: map<DofKey, real>, rt: real, constants: map<nat, real>): (c: Corrections)
      requires Valid() && IdsInside(ids, |nodes|)
      ensures SamePositions(nodes, c.nodes)
      ensures c.raised ==> c.nodes == nodes && c.constants == constants
    {
      var k := FirstZeroMass(nodes, ids);
      var normals' := NormalsAttached(normals, nodes, ids[..k], dim);
      var pressureNormals' := PressureAttached(pressureNormals, ids[..k]);
      if k < |ids| then Corrections(true, nodes, normals', pressureNormals', rt, constants)
      else
        var boundaryRt := BoundaryRtMinvR(nodes, ids, dim);
        if !Correctable(nodes, slaves, boundaryRt) then Corrections(true, nodes, normals', pressureNormals', boundaryRt, constants)
        else
          var constants' := Assigned(constants, slaves, equationId, SlaveConstants(nodes, normals', slaves, boundaryRt));
          Corrections(false, Shifted(nodes, slaves, equationId, constants'), normals', pressureNormals', boundaryRt, constants')
    }

    /**
     * The setting of the zero-flux promise: the boundary lists each node once, the store's
     * constraints are exactly the first dim velocity DoFs of the boundary nodes, and the
     * store's order gives them distinct equation ids.
     */
    ghost predicate ZeroFluxSetting(ids: seq<nat>, cs: Constraints, order: Constraints -> seq<DofKey>, equationId: DofKey -> nat) {
      Distinct(ids) && DistinctIds(order(cs), equationId) &&
      forall k :: k in cs <==> k.node in ids && IsVelocityComponent(k.component, dim)
    }

    /**
     * Zero flux through the boundary: when the boundary lists each node once and the velocity
     * store's slaves are exactly the first dim velocity DoFs of the boundary nodes, each once and
     * with distinct equation ids, a correction that does not raise leaves Σ n_k·v_k = 0 over the
     * slaves, with the normals it attached and the values it shifted.
     */
    lemma {:induction false} CorrectionHasZeroFlux(nodes: seq<Node>, ids: seq<nat>, slaves: seq<DofKey>, equationId: DofKey -> nat,
                                                   normals: map<DofKey, real>, pressureNormals: map<DofKey, real>, rt: real,
                                                   constants: map<nat, real>)
      requires Valid() && IdsInside(ids, |nodes|) && Distinct(ids)
      requires DistinctKeys(slaves) && DistinctIds(slaves, equationId)
      requires forall k :: k in slaves <==> k.node in ids && IsVelocityComponent(k.component, dim)
      ensures var c := Correction(nodes, ids, slaves, equationId, normals, pressureNormals, rt, constants);
        !c.raised ==> SlavesInside(slaves, |c.nodes|) && C.Flux(SlaveNormals(c.normals, slaves), SlaveValues(c.nodes, slaves)) == 0.0
    {
      var k := FirstZeroMass(nodes, ids);
      if k == |ids| {
        assert ids[..k] == ids;
        var attached := NormalsAttached(normals, nodes, ids, dim);
        var boundaryRt := BoundaryRtMinvR(nodes, ids, dim);
        if Correctable(nodes, slaves, boundaryRt) {
          BoundaryRtMinvRIsSlaveRtMinvR(nodes, ids, dim, normals, slaves);
          CorrectedFluxIsZero(nodes, attached, slaves, equationId, constants, boundaryRt);
        }
      }
    }

    /** Lines 811-834 of the conservative coupling: normals, RtMinvR, constants and their addition to the slave DoFs. */
    method ConservativeCorrection(ids: seq<nat>, velocity: MpcData, pressure: MpcData, order: Constraints -> seq<DofKey>,
                                  equationId: DofKey -> nat) returns (r: Outcome)
      requires Valid() && velocity != pressure && IdsInside(ids, |main.nodes|)
      requires forall cs :: Enumerates(order(cs), cs)
      modifies main`nodes, velocity`nodalNormals, velocity`rtMinvR, velocity`equationConstants, pressure`nodalNormals
      ensures Correction(old(main.nodes), ids, order(velocity.constraints), equationId, old(velocity.nodalNormals), old(pressure.nodalNormals),
                         old(velocity.rtMinvR), old(velocity.equationConstants)) ==
              Corrections(r.Raised?, main.nodes, velocity.nodalNormals, pressure.nodalNormals, velocity.rtMinvR, velocity.equationConstants)
    {
      var rt;
      r, rt := AttachNormals(ids, velocity, pressure);
      if r.Raised? {
        return;
      }
      SetRtMinvR(velocity, rt);
      var slaves := order(velocity.constraints);
      r := CalculateConservativeCorrections(velocity, slaves, equationId);
      if r.Raised? {
        return;
      }
      ApplyConservativeCorrections(velocity, slaves, equationId);
    }

    /**
     * CalculateConservativeCorrections: for each slave of the store, in its iteration order, the
     * constant -Σ_j n·n_j/(M·RtMinvR)·v_j over all slaves j is summed up, then filed under the
     * slave's equation id. A slave outside the model part or a zero divisor stops it before
     * anything is filed.
     */
    method CalculateConservativeCorrections(store: MpcData, slaves: seq<DofKey>, equationId: DofKey -> nat) returns (r: Outcome)
      requires Enumerates(slaves, store.constraints)
      modifies store`equationConstants
      ensures r.Completed? <==> Correctable(main.nodes, slaves, store.rtMinvR)
      ensures r.Raised? ==> store.equationConstants == old(store.equationConstants)
      ensures r.Completed? ==>
        store.equationConstants ==
          Assigned(old(store.equationConstants), slaves, equationId, SlaveConstants(main.nodes, store.nodalNormals, slaves, store.rtMinvR))
    {
      var rt := store.rtMinvR;
      ghost var n, m, v := SlaveNormals(store.nodalNormals, slaves), SlaveMasses(main.nodes, slaves), SlaveValues(main.nodes, slaves);
      var constants: seq<real> := [];
      for k := 0 to |slaves|
        invariant |n| == |m| == |v| == |slaves| && |constants| == k
        invariant store.equationConstants == old(store.equationConstants)
        invariant forall i :: 0 <= i < k ==>
          slaves[i].node < |main.nodes| && m[i] != 0.0 && rt != 0.0 && constants[i] == C.Constant(n, m, v, rt, i)
      {
        var slave := slaves[k];
        if slave.node >= |main.nodes| {
          return Raised("slave node not in the model part");
        }
        var mass := main.nodes[slave.node].nodalMass;
        var normal := Lookup(store.nodalNormals, slave);
        if mass == 0.0 || rt == 0.0 {
          return Raised("division by zero");
        }
        var d := mass * rt;
        C.NonzeroProduct(mass, rt);
        var inner, c := SlaveCorrection(store, slaves, normal, d);
        if inner.Raised? {
          return inner;
        }
        C.ConstantOfLoop(n, m, v, rt, k, normal, mass, d, c);
        constants := constants + [c];
      }
      assert constants == SlaveConstants(main.nodes, store.nodalNormals, slaves, rt);
      FileConstants(store, slaves, equationId, constants);
      r := Completed;
    }

    /**
     * The inner loop of CalculateConservativeCorrections for a slave with nodal-normal
     * component `normal` and divisor d = NODAL_MASS·RtMinvR: -Σ_j normal·n_j/d·v_j over all
     * slaves j in order. A slave outside the model part stops it.
     */
    method SlaveCorrection(store: MpcData, slaves: seq<DofKey>, normal: real, d: real) returns (r: Outcome, c: real)
      requires d != 0.0
      ensures r.Completed? <==> SlavesInside(slaves, |main.nodes|)
      ensures r.Completed? ==> c == C.Correction(SlaveNormals(store.nodalNormals, slaves), SlaveValues(main.nodes, slaves), normal, d, |slaves|)
    {
      ghost var n, v := SlaveNormals(store.nodalNormals, slaves), SlaveValues(main.nodes, slaves);
      c := 0.0;
      for j := 0 to |slaves|
        invariant SlavesInside(slaves[..j], |main.nodes|)
        invariant c == C.Correction(n, v, normal, d, j)
      {
        var other := slaves[j];
        if other.node >= |main.nodes| {
          return Raised("slave node not in the model part"), c;
        }
        var value := Get(main.nodes[other.node].current, other.component);
        c := c - ((normal * Lookup(store.nodalNormals, other)) / d) * value;
      }
      assert slaves[..|slaves|] == slaves;
      r := Completed;
    }

    /** The second loop of CalculateConservativeCorrections: each slave's constant is filed under its equation id, in order. */
    method FileConstants(store: MpcData, slaves: seq<DofKey>, equationId: DofKey -> nat, constants: seq<real>)
      requires |constants| == |slaves|
      modifies store`equationConstants
      ensures store.equationConstants == Assigned(old(store.equationConstants), slaves, equationId, constants)
    {
      for k := 0 to |slaves|
        invariant store.equationConstants == Assigned(old(store.equationConstants), slaves[..k], equationId, constants[..k])
      {
        assert slaves[..k + 1][..k] == slaves[..k] && constants[..k + 1][..k] == constants[..k];
        store.equationConstants := store.equationConstants[equationId(slaves[k]) := constants[k]];
      }
      assert slaves[..|slaves|] == slaves && constants[..|constants|] == constants;
    }

    /** ApplyConservativeCorrections: each slave DoF, in the store's order, gains the constant filed under its equation id in buffers 0 and 1. */
    method ApplyConservativeCorrections(store: MpcData, slaves: seq<DofKey>, equationId: DofKey -> nat)
      requires Enumerates(slaves, store.constraints) && SlavesInside(slaves, |main.nodes|)
      modifies main`nodes
      ensures main.nodes == Shifted(old(main.nodes), slaves, equationId, store.equationConstants)
    {
      for k := 0 to |slaves|
        invariant SlavesInside(slaves[..k], |main.nodes|)
        invariant main.nodes == Shifted(old(main.nodes), slaves[..k], equationId, store.equationConstants)
      {
        assert slaves[..k + 1][..k] == slaves[..k];
        var d := slaves[k];
        var x := Lookup(store.equationConstants, equationId(d));
        main.nodes := main.nodes[d.node := main.nodes[d.node].(current := AddedTo(main.nodes[d.node].current, d.component, x),
                                                               previous := AddedTo(main.nodes[d.node].previous, d.component, x))];
      }
      assert slaves[..|slaves|] == slaves;
    }

    // ------------------------------------------------------------ the Chimera loop

    /** The settings of the four stores, in the same order. */
    ghost function StoreSettings(): seq<Settings>
      reads patchVelocity`settings, patchPressure`settings, backgroundVelocity`settings, backgroundPressure`settings
    {
      [patchVelocity.settings, patchPressure.settings, backgroundVelocity.settings, backgroundPressure.settings]
    }

    /** The process's state now, with the given outcome. */
    ghost function State(raised: bool): ChimeraState
      reads main`nodes, main`elements
      reads patchVelocity`constraints, patchVelocity`nodalNormals, patchVelocity`rtMinvR, patchVelocity`equationConstants
      reads patchPressure`constraints, patchPressure`nodalNormals, patchPressure`rtMinvR, patchPressure`equationConstants
      reads backgroundVelocity`constraints, backgroundVelocity`nodalNormals, backgroundVelocity`rtMinvR, backgroundVelocity`equationConstants
      reads backgroundPressure`constraints, backgroundPressure`nodalNormals, backgroundPressure`rtMinvR, backgroundPressure`equationConstants
      reads patchVelocity`settings, patchPressure`settings, backgroundVelocity`settings, backgroundPressure`settings
    {
      ChimeraState(raised, main.nodes, main.elements, StateOf(patchVelocity), StateOf(patchPressure),
                   StateOf(backgroundVelocity), StateOf(backgroundPressure), StoreSettings())
    }

    /** The "one" pressure coupling on the first boundary node needs both boundaries of the cut to have one. */
    predicate OneCouplingNodes(cut: Cut) {
      pressureCoupling == "one" && pressureCouplingNode == 0.0 ==> |cut.patchIds| > 0 && |cut.holeIds| > 0
    }

    /** The cut of every pairing the loop formulates lies inside the main model part. */
    ghost predicate CutsInside(cut: L.Pairing -> Cut, nodes: seq<Node>, elementCount: nat) {
      forall p :: L.Formulated(levels, p) ==> CutInside(cut(p), nodes, elementCount) && OneCouplingNodes(cut(p))
    }

    lemma CutsInsideKept(cut: L.Pairing -> Cut, nodes: seq<Node>, nodes': seq<Node>, elementCount: nat)
      requires SamePositions(nodes, nodes') && CutsInside(cut, nodes, elementCount)
      ensures CutsInside(cut, nodes', elementCount)
    {
      forall p | L.Formulated(levels, p)
        ensures CutInside(cut(p), nodes', elementCount)
      {
        CutInsideKept(cut(p), nodes, nodes', elementCount);
      }
    }

    /**
     * What coupling one boundary leaves, by the process's type, from the nodes and the velocity
     * and pressure stores before it: "nearest_element" is the interpolating pass of
     * ApplyMpcConstraintForFractionalStep, "conservative" that pass followed by the conservative
     * correction, and any other type does nothing.
     */
    ghost function BoundaryCoupled(kind: string, ids: seq<nat>, locate: Vec3 -> Location, order: Constraints -> seq<DofKey>, equationId: DofKey -> nat,
                                   nodes: seq<Node>, v: StoreState, p: StoreState): (c: Coupled)
      requires Valid() && IdsInside(ids, |nodes|) && Locator(locate, |nodes|)
      requires pressureCoupling == "one" && pressureCouplingNode == 0.0 ==> |ids| > 0
      ensures SamePositions(nodes, c.nodes)
      ensures c.pressure.rtMinvR == p.rtMinvR && c.pressure.equationConstants == p.equationConstants
    {
      var passed := Pass(Coupling(nodes, v.constraints, p.constraints), ids, locate, Scope(dim, true, false),
                         Scope(dim, false, pressureCoupling == "all"), Interpolating);
      var raised := pressureCoupling == "one" && SelectedNode(ids, pressureCouplingNode).Err?;
      var v1, p1 := v.(constraints := passed.first), p.(constraints := passed.second);
      if kind == "nearest_element" || (kind == "conservative" && raised) then
        Coupled(raised, passed.nodes, v1, p1)
      else if kind == "conservative" then
        var c := Correction(passed.nodes, ids, order(passed.first), equationId, v.nodalNormals, p.nodalNormals, v.rtMinvR, v.equationConstants);
        Coupled(c.raised, c.nodes, v1.(nodalNormals := c.normals, rtMinvR := c.rt, equationConstants := c.constants),
                p1.(nodalNormals := c.pressureNormals))
      else
        Coupled(false, nodes, v, p)
    }

    /**
     * What the coupling of FormulateChimera leaves, from the nodes and the four stores before it:
     * the patch boundary coupled to the background with the patch stores, then, unless that
     * raised, the hole boundary coupled to the patch with the background stores.
     */
    ghost function CutCoupled(kind: string, patchIds: seq<nat>, holeIds: seq<nat>, locateBackground: Vec3 -> Location, locatePatch: Vec3 -> Location,
                              order: Constraints -> seq<DofKey>, equationId: DofKey -> nat,
                              nodes: seq<Node>, pv: StoreState, pp: StoreState, bv: StoreState, bp: StoreState): (c: CutCoupling)
      requires Valid() && IdsInside(patchIds, |nodes|) && IdsInside(holeIds, |nodes|)
      requires Locator(locateBackground, |nodes|) && Locator(locatePatch, |nodes|)
      requires pressureCoupling == "one" && pressureCouplingNode == 0.0 ==> |patchIds| > 0 && |holeIds| > 0
      ensures SamePositions(nodes, c.nodes)
    {
      var a := BoundaryCoupled(kind, patchIds, locateBackground, order, equationId, nodes, pv, pp);
      if a.raised then CutCoupling(true, a.nodes, a.velocity, a.pressure, bv, bp)
      else
        var b := BoundaryCoupled(kind, holeIds, locatePatch, order, equationId, a.nodes, bv, bp);
        CutCoupling(b.raised, b.nodes, a.velocity, a.pressure, b.velocity, b.pressure)
    }

    /** A cut whose boundaries, conditions and locators fit a model part of `count` nodes. */
    ghost predicate Fits(cut: Cut, count: nat) {
      IdsInside(cut.patchIds, count) && IdsInside(cut.holeIds, count) &&
      N.ConditionsInside(cut.patchConditions, count) && N.ConditionsInside(cut.holeConditions, count) &&
      Locator(cut.locateBackground, count) && Locator(cut.locatePatch, count) && OneCouplingNodes(cut)
    }

    /**
     * FormulateChimera above Epsilon: the hole elements become VISITED, both boundaries get their
     * nodal areas and masses, the stores take the weak flag, and the two boundaries are coupled.
     */
    ghost function CutFormulation(kind: string, cut: Cut, norm: Vec3 -> real, order: Constraints -> seq<DofKey>, equationId: DofKey -> nat,
                                  s: ChimeraState): (r: ChimeraState)
      requires Valid() && Fits(cut, |s.nodes|)
    {
      var c := CutCoupled(kind, cut.patchIds, cut.holeIds, cut.locateBackground, cut.locatePatch, order, equationId,
                          Prepared(s.nodes, cut.patchIds, cut.patchConditions, cut.holeIds, cut.holeConditions, dim, norm),
                          s.patchVelocity, s.patchPressure, s.backgroundVelocity, s.backgroundPressure);
      ChimeraState(c.raised, c.nodes, VisitedHoles(s.elements, cut.holeElements), c.patchVelocity, c.patchPressure,
                   c.backgroundVelocity, c.backgroundPressure, Weakened(s.settings, isWeak))
    }

    /**
     * FormulateChimera for one cut: an overlap distance below Epsilon raises and changes nothing,
     * one equal to Epsilon changes nothing, and one above it is CutFormulation.
     */
    ghost function Formulation(kind: string, overlap: real, cut: Cut, norm: Vec3 -> real, order: Constraints -> seq<DofKey>, equationId: DofKey -> nat,
                               s: ChimeraState): (r: ChimeraState)
      requires Valid() && Fits(cut, |s.nodes|)
    {
      if overlap < Epsilon then s.(raised := true)
      else if overlap == Epsilon then s.(raised := false)
      else CutFormulation(kind, cut, norm, order, equationId, s)
    }

    /**
     * FormulateChimera as one step of the loop: the pairing's cut formulated from the state. A
     * pairing whose cut does not fit the nodes is outside this model and leaves the state as it
     * is (the loop only meets cuts that fit).
     */
    ghost function Step(kind: string, overlap: real, cut: L.Pairing -> Cut, norm: Vec3 -> real, order: Constraints -> seq<DofKey>,
                        equationId: DofKey -> nat): (L.Pairing, ChimeraState) -> ChimeraState
    {
      (p: L.Pairing, t: ChimeraState) =>
        if Valid() && Fits(cut(p), |t.nodes|) then Formulation(kind, overlap, cut(p), norm, order, equationId, t) else t
    }

    /**
     * One step of the patch-level loop: sweeping one more patch level is sweeping its row after
     * the levels before it.
     */
    lemma PatchLevelsStep(step: (L.Pairing, ChimeraState) -> ChimeraState, bi: nat, bj: nat, pi: nat, s: ChimeraState)
      requires bi < pi < |levels|
      ensures Swept(step, L.PatchLevels(levels, bi, bj, pi + 1), s) ==
              Swept(step, L.PatchRow(bi, bj, pi, levels[pi]), Swept(step, L.PatchLevels(levels, bi, bj, pi), s))
    {
      L.PatchLevelsNext(levels, bi, bj, pi);
      SweptConcat(step, L.PatchLevels(levels, bi, bj, pi), L.PatchRow(bi, bj, pi, levels[pi]), s);
    }

    /** Once the sweep has raised after a patch level, the remaining levels change nothing. */
    lemma PatchLevelsRaised(step: (L.Pairing, ChimeraState) -> ChimeraState, bi: nat, bj: nat, pi: nat, s: ChimeraState)
      requires bi < pi < |levels| && Swept(step, L.PatchLevels(levels, bi, bj, pi + 1), s).raised
      ensures Swept(step, L.PatchLevels(levels, bi, bj, |levels|), s) == Swept(step, L.PatchLevels(levels, bi, bj, pi + 1), s)
    {
      L.PatchLevelsPrefix(levels, bi, bj, pi + 1, |levels|);
      RaisedSpan(step, L.PatchLevels(levels, bi, bj, pi + 1), L.PatchLevels(levels, bi, bj, |levels|), s);
    }

    /**
     * One step of the background-entry loop: sweeping one more background entry is sweeping its
     * patch levels after the entries before it.
     */
    lemma BackgroundRowStep(step: (L.Pairing, ChimeraState) -> ChimeraState, bi: nat, bj: nat, s: ChimeraState)
      requires bi < |levels| && bj < levels[bi]
      ensures Swept(step, L.BackgroundRow(levels, bi, bj + 1), s) ==
              Swept(step, L.PatchLevels(levels, bi, bj, |levels|), Swept(step, L.BackgroundRow(levels, bi, bj), s))
    {
      L.BackgroundRowNext(levels, bi, bj);
      SweptConcat(step, L.BackgroundRow(levels, bi, bj), L.PatchLevels(levels, bi, bj, |levels|), s);
    }

    /** Once the sweep has raised after a background entry, the remaining entries change nothing. */
    lemma BackgroundRowRaised(step: (L.Pairing, ChimeraState) -> ChimeraState, bi: nat, bj: nat, s: ChimeraState)
      requires bi < |levels| && bj < levels[bi] && Swept(step, L.BackgroundRow(levels, bi, bj + 1), s).raised
      ensures Swept(step, L.BackgroundRow(levels, bi, levels[bi]), s) == Swept(step, L.BackgroundRow(levels, bi, bj + 1), s)
    {
      L.BackgroundRowPrefix(levels, bi, bj + 1, levels[bi]);
      RaisedSpan(step, L.BackgroundRow(levels, bi, bj + 1), L.BackgroundRow(levels, bi, levels[bi]), s);
    }

    /**
     * One step of the level loop: sweeping one more background level is sweeping its row after
     * the levels before it.
     */
    lemma PairingsStep(step: (L.Pairing, ChimeraState) -> ChimeraState, bi: nat, s: ChimeraState)
      requires bi < |levels|
      ensures Swept(step, L.Pairings(levels, bi + 1), s) ==
              Swept(step, L.BackgroundRow(levels, bi, levels[bi]), Swept(step, L.Pairings(levels, bi), s))
    {
      L.PairingsNext(levels, bi);
      SweptConcat(step, L.Pairings(levels, bi), L.BackgroundRow(levels, bi, levels[bi]), s);
    }

    /** Once the sweep has raised after a background level, the remaining levels change nothing. */
    lemma PairingsRaised(step: (L.Pairing, ChimeraState) -> ChimeraState, bi: nat, s: ChimeraState)
      requires bi < |levels| && Swept(step, L.Pairings(levels, bi + 1), s).raised
      ensures Swept(step, L.Pairings(levels, |levels|), s) == Swept(step, L.Pairings(levels, bi + 1), s)
    {
      L.PairingsPrefix(levels, bi + 1, |levels|);
      RaisedSpan(step, L.Pairings(levels, bi + 1), L.Pairings(levels, |levels|), s);
    }

    /** One boundary coupled by the process's type: the branch of FormulateChimera that calls one coupling method per boundary. */
    method CoupleBoundary(boundary: BoundaryPart, locate: Vec3 -> Location, velocity: MpcData, pressure: MpcData,
                          order: Constraints -> seq<DofKey>, equationId: DofKey -> nat) returns (r: Outcome)
      requires Valid() && velocity != pressure
      requires IdsInside(boundary.ids, |main.nodes|) && Locator(locate, |main.nodes|) && OwnHostFree(locate, main.nodes, boundary.ids)
      requires pressureCoupling == "one" && pressureCouplingNode == 0.0 ==> |boundary.ids| > 0
      requires forall cs :: Enumerates(order(cs), cs)
      modifies main`nodes, velocity`constraints, velocity`nodalNormals, velocity`rtMinvR, velocity`equationConstants
      modifies pressure`constraints, pressure`nodalNormals
      ensures SamePositions(old(main.nodes), main.nodes)
      ensures BoundaryCoupled(kind, boundary.ids, locate, order, equationId, old(main.nodes), old(StateOf(velocity)), old(StateOf(pressure))) ==
              Coupled(r.Raised?, main.nodes, StateOf(velocity), StateOf(pressure))
    {
      if kind == "nearest_element" {
        r := ApplyMpcConstraintForFractionalStep(boundary, locate, velocity, pressure, pressureCoupling);
      } else if kind == "conservative" {
        r := ApplyMpcConstraintConservative(boundary, locate, velocity, pressure, pressureCoupling, order, equationId);
      } else {
        r := Completed;
      }
    }

    /** VISITED is set on every element of the hole. */
    method MarkHole(holes: seq<nat>)
      requires forall k :: 0 <= k < |holes| ==> holes[k] < |main.elements|
      modifies main`elements
      ensures main.elements == VisitedHoles(old(main.elements), holes)
    {
      for k := 0 to |holes|
        invariant main.elements == VisitedHoles(old(main.elements), holes[..k])
      {
        assert holes[..k + 1] == holes[..k] + [holes[k]];
        main.elements := main.elements[holes[k] := main.elements[holes[k]].(visited := true)];
      }
      assert holes[..|holes|] == holes;
    }

    /**
     * FormulateChimera for one pairing, with the cut the distance calculation and the hole
     * cutting give for it. An overlap distance below Epsilon raises before anything changes, and
     * one equal to Epsilon changes nothing. Above it the hole elements become VISITED, the patch
     * boundary (sign 1) and then the hole boundary (sign -1) get their nodal areas and masses,
     * the four stores take the weak flag, and the patch boundary is coupled to the background
     * with the patch stores, then the hole boundary to the patch with the background stores;
     * a coupling that raises stops it.
     */
    method FormulateChimera(cut: Cut, norm: Vec3 -> real, order: Constraints -> seq<DofKey>, equationId: DofKey -> nat)
      returns (r: Outcome)
      requires Valid() && CutInside(cut, main.nodes, |main.elements|) && OneCouplingNodes(cut)
      requires forall cs :: Enumerates(order(cs), cs)
      modifies main`nodes, main`elements, patchVelocity, patchPressure, backgroundVelocity, backgroundPressure
      ensures SamePositions(old(main.nodes), main.nodes)
      ensures |main.elements| == old(|main.elements|)
      ensures Formulation(kind, overlap, cut, norm, order, equationId, old(State(false))) == State(r.Raised?)
    {
      if overlap < Epsilon {
        r := Raised("Overlap distance should be a positive number");
      } else if overlap == Epsilon {
        r := Completed;
      } else {
        r := FormulateCut(cut, norm, order, equationId);
      }
    }

    /**
     * The steps of FormulateChimera for an overlap distance above Epsilon: the cut is prepared
     * and its two boundaries are coupled.
     */
    method FormulateCut(cut: Cut, norm: Vec3 -> real, order: Constraints -> seq<DofKey>, equationId: DofKey -> nat)
      returns (r: Outcome)
      requires Valid() && CutInside(cut, main.nodes, |main.elements|) && OneCouplingNodes(cut)
      requires forall cs :: Enumerates(order(cs), cs)
      modifies main`nodes, main`elements, patchVelocity, patchPressure, backgroundVelocity, backgroundPressure
      ensures SamePositions(old(main.nodes), main.nodes)
      ensures CutFormulation(kind, cut, norm, order, equationId, old(State(false))) == State(r.Raised?)
    {
      var patch, hole := PrepareCut(cut, norm);
      WeakenStores();
      r := CoupleBoundaries(cut, patch, hole, order, equationId);
    }

    /**
     * The steps of FormulateChimera before the coupling that change the main model part: the hole
     * elements become VISITED, and the patch boundary (sign 1) and then the hole boundary (sign -1)
     * get their nodal areas and masses.
     */
    method PrepareCut(cut: Cut, norm: Vec3 -> real) returns (patch: BoundaryPart, hole: BoundaryPart)
      requires Valid() && CutInside(cut, main.nodes, |main.elements|)
      modifies main`nodes, main`elements
      ensures patch.ids == cut.patchIds && hole.ids == cut.holeIds
      ensures CutInside(cut, main.nodes, |main.elements|)
      ensures main.elements == VisitedHoles(old(main.elements), cut.holeElements)
      ensures main.nodes == Prepared(old(main.nodes), cut.patchIds, cut.patchConditions, cut.holeIds, cut.holeConditions, dim, norm)
      ensures SamePositions(old(main.nodes), main.nodes)
      ensures StateOf(patchVelocity) == old(StateOf(patchVelocity)) && StateOf(patchPressure) == old(StateOf(patchPressure))
      ensures StateOf(backgroundVelocity) == old(StateOf(backgroundVelocity)) && StateOf(backgroundPressure) == old(StateOf(backgroundPressure))
    {
      patch := new BoundaryPart(cut.patchIds, cut.patchConditions);
      hole := new BoundaryPart(cut.holeIds, cut.holeConditions);
      MarkHole(cut.holeElements);
      CalculateNodalAreaAndNodalMass(patch, 1, norm);
      assert PositionsOf(main.nodes) == PositionsOf(old(main.nodes));
      CalculateNodalAreaAndNodalMass(hole, -1, norm);
      CutInsideKept(cut, old(main.nodes), main.nodes, |main.elements|);
    }

    /** The four stores take the process's weak flag; nothing else of them changes. */
    method WeakenStores()
      requires Valid()
      modifies patchVelocity`settings, patchPressure`settings, backgroundVelocity`settings, backgroundPressure`settings
      ensures StoreSettings() == Weakened(old(StoreSettings()), isWeak)
      ensures StateOf(patchVelocity) == old(StateOf(patchVelocity)) && StateOf(patchPressure) == old(StateOf(patchPressure))
      ensures StateOf(backgroundVelocity) == old(StateOf(backgroundVelocity)) && StateOf(backgroundPressure) == old(StateOf(backgroundPressure))
    {
      patchVelocity.SetIsWeak(isWeak);
      patchPressure.SetIsWeak(isWeak);
      backgroundVelocity.SetIsWeak(isWeak);
      backgroundPressure.SetIsWeak(isWeak);
    }

    /**
     * The coupling of FormulateChimera: the patch boundary is coupled to the background with the
     * patch stores, then, unless that raises, the hole boundary to the patch with the background
     * stores.
     */
    method CoupleBoundaries(cut: Cut, patch: BoundaryPart, hole: BoundaryPart, order: Constraints -> seq<DofKey>, equationId: DofKey -> nat)
      returns (r: Outcome)
      requires Valid() && CutInside(cut, main.nodes, |main.elements|) && OneCouplingNodes(cut)
      requires patch.ids == cut.patchIds && hole.ids == cut.holeIds
      requires forall cs :: Enumerates(order(cs), cs)
      modifies main`nodes
      modifies patchVelocity`constraints, patchVelocity`nodalNormals, patchVelocity`rtMinvR, patchVelocity`equationConstants
      modifies patchPressure`constraints, patchPressure`nodalNormals
      modifies backgroundVelocity`constraints, backgroundVelocity`nodalNormals, backgroundVelocity`rtMinvR, backgroundVelocity`equationConstants
      modifies backgroundPressure`constraints, backgroundPressure`nodalNormals
      ensures main.elements == old(main.elements) && StoreSettings() == old(StoreSettings())
      ensures SamePositions(old(main.nodes), main.nodes)
      ensures CutCoupled(kind, cut.patchIds, cut.holeIds, cut.locateBackground, cut.locatePatch, order, equationId, old(main.nodes),
                         old(StateOf(patchVelocity)), old(StateOf(patchPressure)), old(StateOf(backgroundVelocity)), old(StateOf(backgroundPressure))) ==
              CutCoupling(r.Raised?, main.nodes, StateOf(patchVelocity), StateOf(patchPressure), StateOf(backgroundVelocity), StateOf(backgroundPressure))
    {
      var patchOutcome := CoupleBoundary(patch, cut.locateBackground, patchVelocity, patchPressure, order, equationId);
      if patchOutcome.Raised? {
        r := patchOutcome;
        return;
      }
      forall j | 0 <= j < |hole.ids|
        ensures main.nodes[hole.ids[j]].position == old(main.nodes)[hole.ids[j]].position
      {
      }
      r := CoupleBoundary(hole, cut.locatePatch, backgroundVelocity, backgroundPressure, order, equationId);
    }

    /** The first loop of DoChimeraLoop: every element that is not VISITED becomes ACTIVE. */
    method ActivateUnvisited()
      modifies main`elements
      ensures main.elements == Activated(old(main.elements))
    {
      ghost var before := main.elements;
      for e := 0 to |main.elements|
        invariant |main.elements| == |before|
        invariant forall k :: 0 <= k < |before| ==> main.elements[k] == if k < e then Activated(before)[k] else before[k]
      {
        if !main.elements[e].visited {
          main.elements := main.elements[e := main.elements[e].(active := true)];
        }
      }
    }

    /** The second loop of DoChimeraLoop: VISITED is cleared on every node. */
    method ResetNodeVisits()
      modifies main`nodes
      ensures main.nodes == Unvisited(old(main.nodes))
    {
      ghost var before := main.nodes;
      for n := 0 to |main.nodes|
        invariant |main.nodes| == |before|
        invariant forall k :: 0 <= k < |before| ==> main.nodes[k] == if k < n then Unvisited(before)[k] else before[k]
      {
        main.nodes := main.nodes[n := main.nodes[n].(visited := false)];
      }
    }

    /** The innermost loop of DoChimeraLoop: every entry of patch level `pi` against entry `bj` of background level `bi`. */
    method PatchRowLoop(cut: L.Pairing -> Cut, norm: Vec3 -> real, order: Constraints -> seq<DofKey>, equationId: DofKey -> nat,
                        bi: nat, bj: nat, pi: nat) returns (r: Outcome)
      requires Valid() && bi < pi < |levels| && bj < levels[bi]
      requires CutsInside(cut, main.nodes, |main.elements|)
      requires forall cs :: Enumerates(order(cs), cs)
      modifies main`nodes, main`elements, patchVelocity, patchPressure, backgroundVelocity, backgroundPressure
      ensures SamePositions(old(main.nodes), main.nodes) && |main.elements| == old(|main.elements|)
      ensures Swept(Step(kind, overlap, cut, norm, order, equationId), L.PatchRow(bi, bj, pi, levels[pi]), old(State(false))) == State(r.Raised?)
    {
      ghost var start, count, s0 := main.nodes, |main.elements|, State(false);
      r := Completed;
      for pj := 0 to levels[pi]
        invariant r.Completed? && SamePositions(start, main.nodes) && |main.elements| == count
        invariant Swept(Step(kind, overlap, cut, norm, order, equationId), L.PatchRow(bi, bj, pi, pj), s0) == State(false)
      {
        var p := L.Pairing(bi, bj, pi, pj, L.Side(bi));
        assert L.Formulated(levels, p);
        CutsInsideKept(cut, start, main.nodes, count);
        assert L.PatchRow(bi, bj, pi, pj + 1)[..pj] == L.PatchRow(bi, bj, pi, pj);
        r := FormulateChimera(cut(p), norm, order, equationId);
        if r.Raised? {
          L.PatchRowPrefix(bi, bj, pi, pj + 1, levels[pi]);
          RaisedSpan(Step(kind, overlap, cut, norm, order, equationId), L.PatchRow(bi, bj, pi, pj + 1), L.PatchRow(bi, bj, pi, levels[pi]), s0);
          return;
        }
      }
    }

    /** The patch-level loop of DoChimeraLoop: every level above `bi` against entry `bj` of background level `bi`. */
    method PatchLevelsLoop(cut: L.Pairing -> Cut, norm: Vec3 -> real, order: Constraints -> seq<DofKey>, equationId: DofKey -> nat,
                           bi: nat, bj: nat) returns (r: Outcome)
      requires Valid() && bi < |levels| && bj < levels[bi]
      requires CutsInside(cut, main.nodes, |main.elements|)
      requires forall cs :: Enumerates(order(cs), cs)
      modifies main`nodes, main`elements, patchVelocity, patchPressure, backgroundVelocity, backgroundPressure
      ensures SamePositions(old(main.nodes), main.nodes) && |main.elements| == old(|main.elements|)
      ensures Swept(Step(kind, overlap, cut, norm, order, equationId), L.PatchLevels(levels, bi, bj, |levels|), old(State(false))) == State(r.Raised?)
    {
      ghost var start, count, s0 := main.nodes, |main.elements|, State(false);
      r := Completed;
      for pi := bi + 1 to |levels|
        invariant r.Completed? && SamePositions(start, main.nodes) && |main.elements| == count
        invariant Swept(Step(kind, overlap, cut, norm, order, equationId), L.PatchLevels(levels, bi, bj, pi), s0) == State(false)
      {
        CutsInsideKept(cut, start, main.nodes, count);
        r := PatchRowLoop(cut, norm, order, equationId, bi, bj, pi);
        PatchLevelsStep(Step(kind, overlap, cut, norm, order, equationId), bi, bj, pi, s0);
        if r.Raised? {
          PatchLevelsRaised(Step(kind, overlap, cut, norm, order, equationId), bi, bj, pi, s0);
          return;
        }
      }
    }

    /** The background-entry loop of DoChimeraLoop: every entry of background level `bi` against every level above it. */
    method BackgroundRowLoop(cut: L.Pairing -> Cut, norm: Vec3 -> real, order: Constraints -> seq<DofKey>, equationId: DofKey -> nat,
                             bi: nat) returns (r: Outcome)
      requires Valid() && bi < |levels|
      requires CutsInside(cut, main.nodes, |main.elements|)
      requires forall cs :: Enumerates(order(cs), cs)
      modifies main`nodes, main`elements, patchVelocity, patchPressure, backgroundVelocity, backgroundPressure
      ensures SamePositions(old(main.nodes), main.nodes) && |main.elements| == old(|main.elements|)
      ensures Swept(Step(kind, overlap, cut, norm, order, equationId), L.BackgroundRow(levels, bi, levels[bi]), old(State(false))) == State(r.Raised?)
    {
      ghost var start, count, s0 := main.nodes, |main.elements|, State(false);
      r := Completed;
      for bj := 0 to levels[bi]
        invariant r.Completed? && SamePositions(start, main.nodes) && |main.elements| == count
        invariant Swept(Step(kind, overlap, cut, norm, order, equationId), L.BackgroundRow(levels, bi, bj), s0) == State(false)
      {
        CutsInsideKept(cut, start, main.nodes, count);
        r := PatchLevelsLoop(cut, norm, order, equationId, bi, bj);
        BackgroundRowStep(Step(kind, overlap, cut, norm, order, equationId), bi, bj, s0);
        if r.Raised? {
          BackgroundRowRaised(Step(kind, overlap, cut, norm, order, equationId), bi, bj, s0);
          return;
        }
      }
    }

    /** The level loop of DoChimeraLoop: the background levels in order, each with every entry against every higher level. */
    method LevelLoop(cut: L.Pairing -> Cut, norm: Vec3 -> real, order: Constraints -> seq<DofKey>, equationId: DofKey -> nat)
      returns (r: Outcome)
      requires Valid()
      requires CutsInside(cut, main.nodes, |main.elements|)
      requires forall cs :: Enumerates(order(cs), cs)
      modifies main`nodes, main`elements, patchVelocity, patchPressure, backgroundVelocity, backgroundPressure
      ensures SamePositions(old(main.nodes), main.nodes) && |main.elements| == old(|main.elements|)
      ensures Swept(Step(kind, overlap, cut, norm, order, equationId), L.Pairings(levels, |levels|), old(State(false))) == State(r.Raised?)
    {
      ghost var start, count, s0 := main.nodes, |main.elements|, State(false);
      r := Completed;
      for bi := 0 to |levels|
        invariant r.Completed? && SamePositions(start, main.nodes) && |main.elements| == count
        invariant Swept(Step(kind, overlap, cut, norm, order, equationId), L.Pairings(levels, bi), s0) == State(false)
      {
        CutsInsideKept(cut, start, main.nodes, count);
        r := BackgroundRowLoop(cut, norm, order, equationId, bi);
        PairingsStep(Step(kind, overlap, cut, norm, order, equationId), bi, s0);
        if r.Raised? {
          PairingsRaised(Step(kind, overlap, cut, norm, order, equationId), bi, s0);
          return;
        }
      }
    }

    /**
     * What one FormulateChimera keeps and marks: the node positions do not move, and the hole
     * elements become VISITED (and the stores take the weak flag) exactly when the overlap
     * distance is above Epsilon.
     */
    lemma FormulationKeeps(kind: string, overlap: real, cut: Cut, norm: Vec3 -> real, order: Constraints -> seq<DofKey>, equationId: DofKey -> nat, s: ChimeraState)
      requires Valid() && Fits(cut, |s.nodes|)
      ensures SamePositions(s.nodes, Formulation(kind, overlap, cut, norm, order, equationId, s).nodes)
      ensures Formulation(kind, overlap, cut, norm, order, equationId, s).elements == if Epsilon < overlap then VisitedHoles(s.elements, cut.holeElements) else s.elements
      ensures Formulation(kind, overlap, cut, norm, order, equationId, s).settings == if Epsilon < overlap then Weakened(s.settings, isWeak) else s.settings
    {
    }

    /** No sweep moves a node. */
    lemma {:induction false} SweptKeeps(kind: string, overlap: real, cut: L.Pairing -> Cut, norm: Vec3 -> real, order: Constraints -> seq<DofKey>, equationId: DofKey -> nat, ps: seq<L.Pairing>, s: ChimeraState)
      requires Valid()
      ensures SamePositions(s.nodes, Swept(Step(kind, overlap, cut, norm, order, equationId), ps, s).nodes)
      decreases |ps|
    {
      if |ps| > 0 {
        SweptKeeps(kind, overlap, cut, norm, order, equationId, ps[..|ps| - 1], s);
        var t := Swept(Step(kind, overlap, cut, norm, order, equationId), ps[..|ps| - 1], s);
        if !t.raised && Fits(cut(ps[|ps| - 1]), |t.nodes|) {
          FormulationKeeps(kind, overlap, cut(ps[|ps| - 1]), norm, order, equationId, t);
        }
      }
    }

    /**
     * An overlap distance below Epsilon: the first pairing raises "Overlap distance should be a
     * positive number" and nothing else changes.
     */
    lemma {:induction false} SweptBelowEpsilon(kind: string, overlap: real, cut: L.Pairing -> Cut, norm: Vec3 -> real, order: Constraints -> seq<DofKey>, equationId: DofKey -> nat, ps: seq<L.Pairing>, s: ChimeraState)
      requires Valid() && overlap < Epsilon && !s.raised
      requires forall k :: 0 <= k < |ps| ==> Fits(cut(ps[k]), |s.nodes|)
      ensures Swept(Step(kind, overlap, cut, norm, order, equationId), ps, s) == if |ps| == 0 then s else s.(raised := true)
      decreases |ps|
    {
      if |ps| > 0 {
        SweptBelowEpsilon(kind, overlap, cut, norm, order, equationId, ps[..|ps| - 1], s);
      }
    }

    /** An overlap distance equal to Epsilon: no pairing changes anything. */
    lemma {:induction false} SweptAtEpsilon(kind: string, overlap: real, cut: L.Pairing -> Cut, norm: Vec3 -> real, order: Constraints -> seq<DofKey>, equationId: DofKey -> nat, ps: seq<L.Pairing>, s: ChimeraState)
      requires Valid() && overlap == Epsilon
      ensures Swept(Step(kind, overlap, cut, norm, order, equationId), ps, s) == s
      decreases |ps|
    {
      if |ps| > 0 {
        SweptAtEpsilon(kind, overlap, cut, norm, order, equationId, ps[..|ps| - 1], s);
      }
    }

    /**
     * An overlap distance above Epsilon: a sweep that does not raise leaves exactly the elements
     * of the holes of its pairings VISITED, on top of those that were before.
     */
    lemma {:induction false} SweptHoles(kind: string, overlap: real, cut: L.Pairing -> Cut, norm: Vec3 -> real, order: Constraints -> seq<DofKey>, equationId: DofKey -> nat, ps: seq<L.Pairing>, s: ChimeraState)
      requires Valid() && Epsilon < overlap
      requires forall k :: 0 <= k < |ps| ==> Fits(cut(ps[k]), |s.nodes|)
      ensures !Swept(Step(kind, overlap, cut, norm, order, equationId), ps, s).raised ==> Swept(Step(kind, overlap, cut, norm, order, equationId), ps, s).elements == VisitedHoles(s.elements, Holes(cut, ps))
      decreases |ps|
    {
      if |ps| == 0 {
        assert VisitedHoles(s.elements, []) == s.elements;
      } else {
        var last := ps[|ps| - 1];
        var t := Swept(Step(kind, overlap, cut, norm, order, equationId), ps[..|ps| - 1], s);
        SweptHoles(kind, overlap, cut, norm, order, equationId, ps[..|ps| - 1], s);
        SweptKeeps(kind, overlap, cut, norm, order, equationId, ps[..|ps| - 1], s);
        if !t.raised {
          assert Fits(cut(last), |t.nodes|);
          FormulationKeeps(kind, overlap, cut(last), norm, order, equationId, t);
          VisitedHolesTwice(s.elements, Holes(cut, ps[..|ps| - 1]), cut(last).holeElements);
        }
      }
    }

    /** The loop that DoChimeraLoop's sweep is over meets only pairings whose cuts fit. */
    lemma PairingsFit(cut: L.Pairing -> Cut, nodes: seq<Node>, elementCount: nat)
      requires CutsInside(cut, nodes, elementCount)
      ensures forall k :: 0 <= k < |L.Pairings(levels, |levels|)| ==> Fits(cut(L.Pairings(levels, |levels|)[k]), |nodes|)
    {
      forall k | 0 <= k < |L.Pairings(levels, |levels|)|
        ensures Fits(cut(L.Pairings(levels, |levels|)[k]), |nodes|)
      {
        L.AllPairings(levels, L.Pairings(levels, |levels|)[k]);
      }
    }

    /**
     * The whole loop with an overlap distance below Epsilon: when there is a pairing at all, the
     * first one raises and nothing else changes.
     */
    lemma LoopBelowEpsilon(kind: string, overlap: real, cut: L.Pairing -> Cut, norm: Vec3 -> real, order: Constraints -> seq<DofKey>, equationId: DofKey -> nat, elementCount: nat, s: ChimeraState)
      requires Valid() && overlap < Epsilon && !s.raised && CutsInside(cut, s.nodes, elementCount)
      ensures Swept(Step(kind, overlap, cut, norm, order, equationId), L.Pairings(levels, |levels|), s) ==
              if |L.Pairings(levels, |levels|)| == 0 then s else s.(raised := true)
    {
      PairingsFit(cut, s.nodes, elementCount);
      SweptBelowEpsilon(kind, overlap, cut, norm, order, equationId, L.Pairings(levels, |levels|), s);
    }

    /**
     * The whole loop with an overlap distance above Epsilon: when it does not raise, the
     * elements VISITED afterwards are those VISITED before and the holes of every pairing.
     */
    lemma LoopHoles(kind: string, overlap: real, cut: L.Pairing -> Cut, norm: Vec3 -> real, order: Constraints -> seq<DofKey>, equationId: DofKey -> nat, elementCount: nat, s: ChimeraState)
      requires Valid() && Epsilon < overlap && CutsInside(cut, s.nodes, elementCount)
      ensures !Swept(Step(kind, overlap, cut, norm, order, equationId), L.Pairings(levels, |levels|), s).raised ==>
              Swept(Step(kind, overlap, cut, norm, order, equationId), L.Pairings(levels, |levels|), s).elements == VisitedHoles(s.elements, Holes(cut, L.Pairings(levels, |levels|)))
    {
      PairingsFit(cut, s.nodes, elementCount);
      SweptHoles(kind, overlap, cut, norm, order, equationId, L.Pairings(levels, |levels|), s);
    }

    /** The first part of ExecuteInitializeSolutionStep: SPLIT_ELEMENT false on every element. */
    method ClearSplits()
      modifies main`elements
      ensures main.elements == Unsplit(old(main.elements))
    {
      ghost var before := main.elements;
      for e := 0 to |main.elements|
        invariant |main.elements| == |before|
        invariant forall k :: 0 <= k < |before| ==> main.elements[k] == if k < e then Unsplit(before)[k] else before[k]
      {
        main.elements := main.elements[e := main.elements[e].(split := false)];
      }
    }

    /** The loop of ExecuteFinalizeSolutionStep: VISITED and SPLIT_ELEMENT false on every element. */
    method ReleaseElements()
      modifies main`elements
      ensures main.elements == Released(old(main.elements))
    {
      ghost var before := main.elements;
      for e := 0 to |main.elements|
        invariant |main.elements| == |before|
        invariant forall k :: 0 <= k < |before| ==> main.elements[k] == if k < e then Released(before)[k] else before[k]
      {
        main.elements := main.elements[e := main.elements[e].(visited := false, split := false)];
      }
    }

    /**
     * DoChimeraLoop: the elements that are not VISITED become ACTIVE, VISITED is cleared on the
     * nodes, and then every pairing of a background level with a higher patch level is
     * formulated in the loop's order, until one raises.
     */
    method DoChimeraLoop(cut: L.Pairing -> Cut, norm: Vec3 -> real, order: Constraints -> seq<DofKey>, equationId: DofKey -> nat)
      returns (r: Outcome)
      requires Valid() && CutsInside(cut, main.nodes, |main.elements|)
      requires forall cs :: Enumerates(order(cs), cs)
      modifies main`nodes, main`elements, patchVelocity, patchPressure, backgroundVelocity, backgroundPressure
      ensures SamePositions(old(main.nodes), main.nodes) && |main.elements| == old(|main.elements|)
      ensures Swept(Step(kind, overlap, cut, norm, order, equationId), L.Pairings(levels, |levels|),
                    old(State(false)).(nodes := Unvisited(old(main.nodes)), elements := Activated(old(main.elements)))) == State(r.Raised?)
    {
      ActivateUnvisited();
      ResetNodeVisits();
      CutsInsideKept(cut, old(main.nodes), main.nodes, |main.elements|);
      r := LevelLoop(cut, norm, order, equationId);
    }

    /**
     * ExecuteInitializeSolutionStep: SPLIT_ELEMENT false on every element, then DoChimeraLoop;
     * what DoChimeraLoop raises is raised.
     */
    method ExecuteInitializeSolutionStep(cut: L.Pairing -> Cut, norm: Vec3 -> real, order: Constraints -> seq<DofKey>, equationId: DofKey -> nat)
      returns (r: Outcome)
      requires Valid() && CutsInside(cut, main.nodes, |main.elements|)
      requires forall cs :: Enumerates(order(cs), cs)
      modifies main`nodes, main`elements, patchVelocity, patchPressure, backgroundVelocity, backgroundPressure
      ensures SamePositions(old(main.nodes), main.nodes) && |main.elements| == old(|main.elements|)
      ensures Swept(Step(kind, overlap, cut, norm, order, equationId), L.Pairings(levels, |levels|),
                    old(State(false)).(nodes := Unvisited(old(main.nodes)), elements := Activated(Unsplit(old(main.elements))))) == State(r.Raised?)
    {
      ClearSplits();
      r := DoChimeraLoop(cut, norm, order, equationId);
    }

    /**
     * ExecuteFinalizeSolutionStep: the four stores are cleared, and VISITED and SPLIT_ELEMENT are
     * false on every element; the nodes and the store settings stay as they are.
     */
    method ExecuteFinalizeSolutionStep()
      requires Valid()
      modifies main`elements
      modifies patchVelocity`constraints, patchVelocity`nodalNormals, patchVelocity`equationConstants
      modifies patchPressure`constraints, patchPressure`nodalNormals, patchPressure`equationConstants
      modifies backgroundVelocity`constraints, backgroundVelocity`nodalNormals, backgroundVelocity`equationConstants
      modifies backgroundPressure`constraints, backgroundPressure`nodalNormals, backgroundPressure`equationConstants
      ensures StateOf(patchVelocity) == Emptied(old(StateOf(patchVelocity)))
      ensures StateOf(patchPressure) == Emptied(old(StateOf(patchPressure)))
      ensures StateOf(backgroundVelocity) == Emptied(old(StateOf(backgroundVelocity)))
      ensures StateOf(backgroundPressure) == Emptied(old(StateOf(backgroundPressure)))
      ensures StoreSettings() == old(StoreSettings())
      ensures main.elements == Released(old(main.elements))
    {
      Clear();
      ReleaseElements();
    }
  }
}
