/**
 * What the boundary loops of the Chimera process compute, as functions: the interpolation of a
 * boundary node from the host element the point locator finds, the master-slave edges
 * registered for it, the pass over a boundary model part and the "one" pressure coupling.
 */
module ChimeraCoupling {
  import opened Wrappers
  import opened Vectors
  import opened MpcConstraints
  import N = NormalCalculationUtils

  /** The solution-step values of the coupled variables at one buffer position. */
  datatype Values = Values(vx: real, vy: real, vz: real, p: real)

  function Get(v: Values, c: Component): real {
    match c
    case VelocityX => v.vx
    case VelocityY => v.vy
    case VelocityZ => v.vz
    case Pressure => v.p
  }

  /**
   * A node of the main model part (its id is its position in the node list): coordinates,
   * buffers 0 and 1, the VISITED and SLAVE flags, NORMAL and NODAL_MASS. VISITED reads as
   * false until it is first set.
   */
  datatype Node = Node(
    position: Vec3,
    current: Values,
    previous: Values,
    visited: bool,
    slave: bool,
    normal: Vec3,
    nodalMass: real)

  /** The point locator's answer: not found, or the host element's node ids and shape-function values. */
  datatype Location = NotFound | Found(hosts: seq<nat>, weights: seq<real>)

  predicate Locates(loc: Location, count: nat) {
    loc.Found? ==> |loc.hosts| == |loc.weights| && forall i :: 0 <= i < |loc.hosts| ==> loc.hosts[i] < count
  }

  /** A locator whose every answer names nodes of a model part with `count` nodes. */
  ghost predicate Locator(locate: Vec3 -> Location, count: nat) {
    forall p :: Locates(locate(p), count)
  }

  /** The components one pass constrains in one store: the velocity components of a `dim`-dimensional problem, the pressure, or both. */
  datatype Scope = Scope(dim: nat, velocity: bool, pressure: bool)

  predicate Covers(s: Scope, c: Component) {
    match c
    case VelocityX => s.velocity
    case VelocityY => s.velocity
    case VelocityZ => s.velocity && s.dim == 3
    case Pressure => s.pressure
  }

  predicate Nonempty(s: Scope) {
    s.velocity || s.pressure
  }

  /** The components of either scope. */
  function Union(a: Scope, b: Scope): (r: Scope)
    requires a.dim == b.dim
    ensures forall c :: Covers(r, c) <==> Covers(a, c) || Covers(b, c)
    ensures Nonempty(r) <==> Nonempty(a) || Nonempty(b)
  {
    Scope(a.dim, a.velocity || b.velocity, a.pressure || b.pressure)
  }

  /** Whether slave k is one of node b's DoFs in scope s. */
  predicate InScope(k: DofKey, b: nat, s: Scope) {
    k.node == b && Covers(s, k.component)
  }

  predicate Distinct(xs: seq<nat>) {
    forall i, j :: 0 <= i < j < |xs| ==> xs[i] != xs[j]
  }

  // ---------------------------------------------------------------- interpolation

  predicate HostsInside(hosts: seq<nat>, weights: seq<real>, count: nat) {
    |hosts| == |weights| && forall i :: 0 <= i < |hosts| ==> hosts[i] < count
  }

  /** Σ N[i]·(component c of host i's buffer 0), accumulated host by host from 0. */
  function Interpolation(nodes: seq<Node>, hosts: seq<nat>, weights: seq<real>, c: Component): real
    requires HostsInside(hosts, weights, |nodes|)
  {
    if |hosts| == 0 then 0.0
    else
      Interpolation(nodes, hosts[..|hosts| - 1], weights[..|weights| - 1], c) +
      Get(nodes[hosts[|hosts| - 1]].current, c) * weights[|weights| - 1]
  }

  /** The sum of the shape-function values. */
  function Sum(weights: seq<real>): real {
    if |weights| == 0 then 0.0 else Sum(weights[..|weights| - 1]) + weights[|weights| - 1]
  }

  /** Interpolating a field that is constant on the host nodes gives that constant times Σ N[i]; with Σ N[i] = 1 the constant itself. */
  lemma {:induction false} InterpolationOfConstant(nodes: seq<Node>, hosts: seq<nat>, weights: seq<real>, c: Component, a: real)
    requires HostsInside(hosts, weights, |nodes|)
    requires forall i :: 0 <= i < |hosts| ==> Get(nodes[hosts[i]].current, c) == a
    ensures Interpolation(nodes, hosts, weights, c) == a * Sum(weights)
    ensures Sum(weights) == 1.0 ==> Interpolation(nodes, hosts, weights, c) == a
  {
    if |hosts| > 0 {
      var k := |hosts| - 1;
      InterpolationOfConstant(nodes, hosts[..k], weights[..k], c, a);
      assert Get(nodes[hosts[k]].current, c) == a;
      assert a * Sum(weights) == a * Sum(weights[..k]) + a * weights[k];
    }
  }

  /** The interpolation reads only the host nodes' buffer 0. */
  lemma {:induction false} InterpolationReadsHosts(a: seq<Node>, b: seq<Node>, hosts: seq<nat>, weights: seq<real>, c: Component)
    requires HostsInside(hosts, weights, |a|) && |b| == |a|
    requires forall i :: 0 <= i < |hosts| ==> a[hosts[i]].current == b[hosts[i]].current
    ensures Interpolation(a, hosts, weights, c) == Interpolation(b, hosts, weights, c)
  {
    if |hosts| > 0 {
      InterpolationReadsHosts(a, b, hosts[..|hosts| - 1], weights[..|weights| - 1], c);
    }
  }

  /** Buffer values with the components of s replaced by the interpolation over the given hosts. */
  function Partial(v: Values, s: Scope, nodes: seq<Node>, hosts: seq<nat>, weights: seq<real>): (r: Values)
    requires HostsInside(hosts, weights, |nodes|)
    ensures forall c :: Covers(s, c) ==> Get(r, c) == Interpolation(nodes, hosts, weights, c)
    ensures forall c :: !Covers(s, c) ==> Get(r, c) == Get(v, c)
  {
    Values(
      if Covers(s, VelocityX) then Interpolation(nodes, hosts, weights, VelocityX) else v.vx,
      if Covers(s, VelocityY) then Interpolation(nodes, hosts, weights, VelocityY) else v.vy,
      if Covers(s, VelocityZ) then Interpolation(nodes, hosts, weights, VelocityZ) else v.vz,
      if Covers(s, Pressure) then Interpolation(nodes, hosts, weights, Pressure) else v.p)
  }

  /** Buffer values whose components in s are reset to 0. */
  function Reset(v: Values, s: Scope): (r: Values)
    ensures forall c :: Get(r, c) == if Covers(s, c) then 0.0 else Get(v, c)
  {
    Values(
      if Covers(s, VelocityX) then 0.0 else v.vx,
      if Covers(s, VelocityY) then 0.0 else v.vy,
      if Covers(s, VelocityZ) then 0.0 else v.vz,
      if Covers(s, Pressure) then 0.0 else v.p)
  }

  /** Buffer values with the host values hv times the shape-function value w added to the components of s. */
  function Accumulated(v: Values, s: Scope, hv: Values, w: real): (r: Values)
    ensures forall c :: Get(r, c) == if Covers(s, c) then Get(v, c) + Get(hv, c) * w else Get(v, c)
  {
    Values(
      if Covers(s, VelocityX) then v.vx + hv.vx * w else v.vx,
      if Covers(s, VelocityY) then v.vy + hv.vy * w else v.vy,
      if Covers(s, VelocityZ) then v.vz + hv.vz * w else v.vz,
      if Covers(s, Pressure) then v.p + hv.p * w else v.p)
  }

  /** Values that agree on every component are equal. */
  lemma ValuesExtensionality(a: Values, b: Values)
    requires forall c :: Get(a, c) == Get(b, c)
    ensures a == b
  {
    assert Get(a, VelocityX) == Get(b, VelocityX) && Get(a, VelocityY) == Get(b, VelocityY);
    assert Get(a, VelocityZ) == Get(b, VelocityZ) && Get(a, Pressure) == Get(b, Pressure);
  }

  /** Before the first host, the interpolation of the components in scope is the reset value 0. */
  lemma PartialOfNoHosts(v: Values, s: Scope, nodes: seq<Node>)
    ensures Partial(v, s, nodes, [], []) == Reset(v, s)
  {
    ValuesExtensionality(Partial(v, s, nodes, [], []), Reset(v, s));
  }

  /** Each further host adds its value times its shape-function value: the accumulation loop of the source. */
  lemma PartialStep(v: Values, s: Scope, nodes: seq<Node>, hosts: seq<nat>, weights: seq<real>)
    requires HostsInside(hosts, weights, |nodes|) && |hosts| > 0
    ensures HostsInside(hosts[..|hosts| - 1], weights[..|weights| - 1], |nodes|)
    ensures Partial(v, s, nodes, hosts, weights) ==
      Accumulated(Partial(v, s, nodes, hosts[..|hosts| - 1], weights[..|weights| - 1]), s, nodes[hosts[|hosts| - 1]].current, weights[|weights| - 1])
  {
    var a := Partial(v, s, nodes, hosts, weights);
    var b := Accumulated(Partial(v, s, nodes, hosts[..|hosts| - 1], weights[..|weights| - 1]), s, nodes[hosts[|hosts| - 1]].current, weights[|weights| - 1]);
    ValuesExtensionality(a, b);
  }

  /** Buffer 0 of a boundary node after the pass: the components of s are set to 0 and, when a host is found, interpolated. */
  function Interpolated(v: Values, s: Scope, nodes: seq<Node>, loc: Location): (r: Values)
    requires Locates(loc, |nodes|)
    ensures forall c :: Covers(s, c) ==> Get(r, c) == if loc.Found? then Interpolation(nodes, loc.hosts, loc.weights, c) else 0.0
    ensures forall c :: !Covers(s, c) ==> Get(r, c) == Get(v, c)
  {
    if loc.Found? then Partial(v, s, nodes, loc.hosts, loc.weights) else Partial(v, s, nodes, [], [])
  }

  /** Buffer 1 with the components of s copied from buffer 0. */
  function Copied(previous: Values, current: Values, s: Scope): (r: Values)
    ensures forall c :: Covers(s, c) ==> Get(r, c) == Get(current, c)
    ensures forall c :: !Covers(s, c) ==> Get(r, c) == Get(previous, c)
  {
    Values(
      if Covers(s, VelocityX) then current.vx else previous.vx,
      if Covers(s, VelocityY) then current.vy else previous.vy,
      if Covers(s, VelocityZ) then current.vz else previous.vz,
      if Covers(s, Pressure) then current.p else previous.p)
  }

  // ---------------------------------------------------------------- edges

  /** Node b's slaves in scope s, key by key. */
  lemma ScopeKeys(b: nat, s: Scope)
    ensures forall k :: InScope(k, b, s) <==>
      (s.velocity && (k == DofKey(b, VelocityX) || k == DofKey(b, VelocityY))) ||
      (s.velocity && s.dim == 3 && k == DofKey(b, VelocityZ)) ||
      (s.pressure && k == DofKey(b, Pressure))
  {
    forall k
      ensures InScope(k, b, s) <==>
        (s.velocity && (k == DofKey(b, VelocityX) || k == DofKey(b, VelocityY))) ||
        (s.velocity && s.dim == 3 && k == DofKey(b, VelocityZ)) ||
        (s.pressure && k == DofKey(b, Pressure))
    {
      assert k == DofKey(k.node, k.component);
    }
  }

  /** The edges one host node gives node b, in the order the source adds them: X, Y, Z in 3D, then pressure. */
  function HostEdge(cs: Constraints, b: nat, s: Scope, h: nat, w: real): Constraints
  {
    var e := Edge(w, 0.0);
    var r1 := if s.velocity then Insert(Insert(cs, DofKey(b, VelocityX), DofKey(h, VelocityX), e), DofKey(b, VelocityY), DofKey(h, VelocityY), e) else cs;
    var r2 := if s.velocity && s.dim == 3 then Insert(r1, DofKey(b, VelocityZ), DofKey(h, VelocityZ), e) else r1;
    if s.pressure then Insert(r2, DofKey(b, Pressure), DofKey(h, Pressure), e) else r2
  }

  /** Host h's edges make each of node b's slaves in scope a slave, with an edge of weight w from h's same component, and touch nothing else. */
  lemma HostEdgeEffect(cs: Constraints, b: nat, s: Scope, h: nat, w: real)
    ensures var r := HostEdge(cs, b, s, h, w);
      forall k :: k in r <==> k in cs || InScope(k, b, s)
    ensures var r := HostEdge(cs, b, s, h, w);
      forall k :: Masters(r, k) == if InScope(k, b, s) then Masters(cs, k)[DofKey(h, k.component) := Edge(w, 0.0)] else Masters(cs, k)
  {
    var e := Edge(w, 0.0);
    var r0 := Insert(cs, DofKey(b, VelocityX), DofKey(h, VelocityX), e);
    var r1 := if s.velocity then Insert(r0, DofKey(b, VelocityY), DofKey(h, VelocityY), e) else cs;
    var r2 := if s.velocity && s.dim == 3 then Insert(r1, DofKey(b, VelocityZ), DofKey(h, VelocityZ), e) else r1;
    var r := HostEdge(cs, b, s, h, w);
    forall k
      ensures k in r <==> k in cs || InScope(k, b, s)
      ensures Masters(r, k) == if InScope(k, b, s) then Masters(cs, k)[DofKey(h, k.component) := Edge(w, 0.0)] else Masters(cs, k)
    {
      ScopeKeys(b, s);
      InsertAt(cs, DofKey(b, VelocityX), DofKey(h, VelocityX), e, k);
      InsertAt(r0, DofKey(b, VelocityY), DofKey(h, VelocityY), e, k);
      InsertAt(r1, DofKey(b, VelocityZ), DofKey(h, VelocityZ), e, k);
      InsertAt(r2, DofKey(b, Pressure), DofKey(h, Pressure), e, k);
    }
  }

  /** The edges of all host nodes, host by host. */
  function HostEdges(cs: Constraints, b: nat, s: Scope, hosts: seq<nat>, weights: seq<real>): Constraints
    requires |hosts| == |weights|
  {
    if |hosts| == 0 then cs
    else HostEdge(HostEdges(cs, b, s, hosts[..|hosts| - 1], weights[..|weights| - 1]), b, s, hosts[|hosts| - 1], weights[|weights| - 1])
  }

  /** The host loop after i + 1 hosts: host i's edges on top of those of the first i hosts. */
  lemma HostEdgesStep(cs: Constraints, b: nat, s: Scope, hosts: seq<nat>, weights: seq<real>, i: nat)
    requires |hosts| == |weights| && i < |hosts|
    ensures HostEdges(cs, b, s, hosts[..i + 1], weights[..i + 1]) == HostEdge(HostEdges(cs, b, s, hosts[..i], weights[..i]), b, s, hosts[i], weights[i])
  {
    assert hosts[..i + 1][..i] == hosts[..i] && weights[..i + 1][..i] == weights[..i];
  }

  /** The removal of node b's slaves in scope s, in the order X, Y, Z in 3D, then pressure. */
  function RemoveEdges(cs: Constraints, b: nat, s: Scope): Constraints
  {
    var r1 := if s.velocity then Remove(Remove(cs, DofKey(b, VelocityX)), DofKey(b, VelocityY)) else cs;
    var r2 := if s.velocity && s.dim == 3 then Remove(r1, DofKey(b, VelocityZ)) else r1;
    if s.pressure then Remove(r2, DofKey(b, Pressure)) else r2
  }

  /** The removal leaves node b's slaves in scope without masters and touches nothing else. */
  lemma RemoveEdgesEffect(cs: Constraints, b: nat, s: Scope)
    ensures var r := RemoveEdges(cs, b, s);
      forall k :: k in r <==> k in cs && !InScope(k, b, s)
    ensures var r := RemoveEdges(cs, b, s);
      forall k :: Masters(r, k) == if InScope(k, b, s) then map[] else Masters(cs, k)
  {
    ScopeKeys(b, s);
    var r0 := Remove(cs, DofKey(b, VelocityX));
    RemoveEffect(cs, DofKey(b, VelocityX));
    RemoveEffect(r0, DofKey(b, VelocityY));
    var r1 := if s.velocity then Remove(r0, DofKey(b, VelocityY)) else cs;
    RemoveEffect(r1, DofKey(b, VelocityZ));
    var r2 := if s.velocity && s.dim == 3 then Remove(r1, DofKey(b, VelocityZ)) else r1;
    RemoveEffect(r2, DofKey(b, Pressure));
  }

  /** One boundary node's effect on one store: its old edges go first when `remove`, then every host adds its edges. */
  function NodeEdges(cs: Constraints, b: nat, s: Scope, loc: Location, remove: bool): Constraints
    requires loc.Found? ==> |loc.hosts| == |loc.weights|
  {
    var r := if remove then RemoveEdges(cs, b, s) else cs;
    if loc.Found? then HostEdges(r, b, s, loc.hosts, loc.weights) else r
  }

  /** A scope without components adds no edges. */
  lemma {:induction false} HostEdgesOfEmptyScope(cs: Constraints, b: nat, s: Scope, hosts: seq<nat>, weights: seq<real>)
    requires |hosts| == |weights| && !Nonempty(s)
    ensures HostEdges(cs, b, s, hosts, weights) == cs
  {
    if |hosts| > 0 {
      HostEdgesOfEmptyScope(cs, b, s, hosts[..|hosts| - 1], weights[..|weights| - 1]);
    }
  }

  /** One node's edges as the host loop builds them: the host edges on top of what the removal left. */
  lemma NodeEdgesParts(cs: Constraints, b: nat, s: Scope, loc: Location, remove: bool, r: Constraints)
    requires loc.Found? ==> |loc.hosts| == |loc.weights|
    requires r == if remove then RemoveEdges(cs, b, s) else cs
    ensures var hosts, weights := if loc.Found? then loc.hosts else [], if loc.Found? then loc.weights else [];
      NodeEdges(cs, b, s, loc, remove) == HostEdges(r, b, s, hosts, weights)
  {
  }

  /** A scope without components neither removes nor adds edges. */
  lemma NodeEdgesOfEmptyScope(cs: Constraints, b: nat, s: Scope, loc: Location, remove: bool)
    requires (loc.Found? ==> |loc.hosts| == |loc.weights|) && !Nonempty(s)
    ensures NodeEdges(cs, b, s, loc, remove) == cs
  {
    if loc.Found? {
      HostEdgesOfEmptyScope(cs, b, s, loc.hosts, loc.weights);
    }
  }

  /** The host edges touch only node b's slaves in scope s. */
  lemma {:induction false} HostEdgesFrame(cs: Constraints, b: nat, s: Scope, hosts: seq<nat>, weights: seq<real>, k: DofKey)
    requires |hosts| == |weights| && !InScope(k, b, s)
    ensures k in HostEdges(cs, b, s, hosts, weights) <==> k in cs
    ensures Masters(HostEdges(cs, b, s, hosts, weights), k) == Masters(cs, k)
  {
    if |hosts| > 0 {
      HostEdgesFrame(cs, b, s, hosts[..|hosts| - 1], weights[..|weights| - 1], k);
      HostEdgeEffect(HostEdges(cs, b, s, hosts[..|hosts| - 1], weights[..|weights| - 1]), b, s, hosts[|hosts| - 1], weights[|weights| - 1]);
    }
  }

  /** The last host's edge to a slave of node b in scope overwrites or adds that one master. */
  lemma HostEdgesLast(cs: Constraints, b: nat, s: Scope, hosts: seq<nat>, weights: seq<real>, k: DofKey)
    requires |hosts| == |weights| && InScope(k, b, s) && |hosts| > 0
    ensures var j := |hosts| - 1;
      Masters(HostEdges(cs, b, s, hosts, weights), k) ==
        Masters(HostEdges(cs, b, s, hosts[..j], weights[..j]), k)[DofKey(hosts[j], k.component) := Edge(weights[j], 0.0)]
  {
    var j := |hosts| - 1;
    HostEdgeEffect(HostEdges(cs, b, s, hosts[..j], weights[..j]), b, s, hosts[j], weights[j]);
  }

  /** The DoFs of component c of the given host nodes. */
  function HostKeys(hosts: seq<nat>, c: Component): (r: set<DofKey>)
    ensures forall m :: m in r ==> m.component == c
  {
    if |hosts| == 0 then {} else HostKeys(hosts[..|hosts| - 1], c) + {DofKey(hosts[|hosts| - 1], c)}
  }

  /** A DoF is among the host keys exactly when it is component c of one of the hosts. */
  lemma {:induction false} HostKeysMembers(hosts: seq<nat>, c: Component)
    ensures forall m :: m in HostKeys(hosts, c) <==> exists i :: 0 <= i < |hosts| && m == DofKey(hosts[i], c)
  {
    if |hosts| > 0 {
      var j := |hosts| - 1;
      var init := hosts[..j];
      HostKeysMembers(init, c);
      forall m
        ensures m in HostKeys(hosts, c) <==> exists i :: 0 <= i < |hosts| && m == DofKey(hosts[i], c)
      {
        if m in HostKeys(init, c) {
          var i :| 0 <= i < |init| && m == DofKey(init[i], c);
          assert m == DofKey(hosts[i], c);
        }
        if exists i :: 0 <= i < |hosts| && m == DofKey(hosts[i], c) {
          var i :| 0 <= i < |hosts| && m == DofKey(hosts[i], c);
          if i < j {
            assert m == DofKey(init[i], c);
          }
        }
      }
    }
  }

  /** Each of node b's slaves in scope gains an edge from every host's same component. */
  lemma {:induction false} HostEdgesKeys(cs: Constraints, b: nat, s: Scope, hosts: seq<nat>, weights: seq<real>, k: DofKey)
    requires |hosts| == |weights| && InScope(k, b, s)
    ensures |hosts| > 0 ==> k in HostEdges(cs, b, s, hosts, weights)
    ensures Masters(HostEdges(cs, b, s, hosts, weights), k).Keys == Masters(cs, k).Keys + HostKeys(hosts, k.component)
  {
    if |hosts| > 0 {
      var j := |hosts| - 1;
      var r0 := HostEdges(cs, b, s, hosts[..j], weights[..j]);
      HostEdgesKeys(cs, b, s, hosts[..j], weights[..j], k);
      HostEdgeEffect(r0, b, s, hosts[j], weights[j]);
      assert Masters(HostEdges(cs, b, s, hosts, weights), k) == Masters(r0, k)[DofKey(hosts[j], k.component) := Edge(weights[j], 0.0)];
    }
  }

  /** The masters of one slave after the hosts' edges of component c: each host in turn sets its edge. */
  function HostMasters(m: map<DofKey, Edge>, hosts: seq<nat>, weights: seq<real>, c: Component): map<DofKey, Edge>
    requires |hosts| == |weights|
  {
    if |hosts| == 0 then m
    else HostMasters(m, hosts[..|hosts| - 1], weights[..|weights| - 1], c)[DofKey(hosts[|hosts| - 1], c) := Edge(weights[|weights| - 1], 0.0)]
  }

  /** The host edges give each slave of node b in scope the masters HostMasters describes. */
  lemma {:induction false} HostEdgesAsMasters(cs: Constraints, b: nat, s: Scope, hosts: seq<nat>, weights: seq<real>, k: DofKey)
    requires |hosts| == |weights| && InScope(k, b, s)
    ensures Masters(HostEdges(cs, b, s, hosts, weights), k) == HostMasters(Masters(cs, k), hosts, weights, k.component)
  {
    if |hosts| > 0 {
      var j := |hosts| - 1;
      HostEdgesAsMasters(cs, b, s, hosts[..j], weights[..j], k);
      HostEdgesLast(cs, b, s, hosts, weights, k);
    }
  }

  /** When host i does not recur after position i, its edge has weight N[i]. */
  lemma {:induction false} HostMastersWeight(m: map<DofKey, Edge>, hosts: seq<nat>, weights: seq<real>, c: Component, i: nat)
    requires |hosts| == |weights| && i < |hosts|
    requires forall l :: i < l < |hosts| ==> hosts[l] != hosts[i]
    ensures DofKey(hosts[i], c) in HostMasters(m, hosts, weights, c)
    ensures HostMasters(m, hosts, weights, c)[DofKey(hosts[i], c)] == Edge(weights[i], 0.0)
  {
    var j := |hosts| - 1;
    if i < j {
      assert hosts[..j][i] == hosts[i] && weights[..j][i] == weights[i];
      HostMastersWeight(m, hosts[..j], weights[..j], c, i);
    }
  }

  /** One boundary node's edges in one store leave every other slave as it was. */
  lemma NodeEdgesFrame(cs: Constraints, b: nat, s: Scope, loc: Location, remove: bool, k: DofKey)
    requires loc.Found? ==> |loc.hosts| == |loc.weights|
    requires !InScope(k, b, s)
    ensures Masters(NodeEdges(cs, b, s, loc, remove), k) == Masters(cs, k)
  {
    var r := if remove then RemoveEdges(cs, b, s) else cs;
    if loc.Found? {
      HostEdgesFrame(r, b, s, loc.hosts, loc.weights, k);
    }
  }

  /**
   * When a host is found, each of node b's slaves in scope has as masters the hosts' same
   * components, together with the earlier masters unless those were removed first.
   */
  lemma NodeEdgesKeys(cs: Constraints, b: nat, s: Scope, loc: Location, remove: bool, k: DofKey)
    requires loc.Found? && |loc.hosts| == |loc.weights| && InScope(k, b, s)
    ensures Masters(NodeEdges(cs, b, s, loc, remove), k).Keys ==
      (if remove then {} else Masters(cs, k).Keys) + HostKeys(loc.hosts, k.component)
  {
    var r := if remove then RemoveEdges(cs, b, s) else cs;
    HostEdgesKeys(r, b, s, loc.hosts, loc.weights, k);
  }

  /** With distinct hosts, the edge from host i to a slave of node b in scope has weight N[i]. */
  lemma NodeEdgesWeight(cs: Constraints, b: nat, s: Scope, loc: Location, remove: bool, k: DofKey, i: nat)
    requires loc.Found? && |loc.hosts| == |loc.weights| && InScope(k, b, s) && Distinct(loc.hosts) && i < |loc.hosts|
    ensures DofKey(loc.hosts[i], k.component) in Masters(NodeEdges(cs, b, s, loc, remove), k)
    ensures Masters(NodeEdges(cs, b, s, loc, remove), k)[DofKey(loc.hosts[i], k.component)] == Edge(loc.weights[i], 0.0)
  {
    var r := if remove then RemoveEdges(cs, b, s) else cs;
    HostEdgesAsMasters(r, b, s, loc.hosts, loc.weights, k);
    HostMastersWeight(Masters(r, k), loc.hosts, loc.weights, k.component, i);
  }

  // ---------------------------------------------------------------- the pass over a boundary

  /** How a pass treats a node: whether a found node that is already VISITED loses its edges first, whether buffer 1 is copied even when no host is found, and whether the node becomes VISITED. */
  datatype Variant = Variant(removeIfVisited: bool, copyAlways: bool, markVisited: bool)

  /** ApplyMpcConstraint and ApplyMpcConstraintForFractionalStep. */
  const Interpolating := Variant(true, false, true)

  /** ApplyMpcConstraintFractionalVelocity and ApplyMpcConstraintFractionalPressure. */
  const Fractional := Variant(false, true, false)

  /** The node state and the two stores a pass writes to (the first only, for a single-store pass). */
  datatype Coupling = Coupling(nodes: seq<Node>, first: Constraints, second: Constraints)

  /**
   * A boundary node after its turn in a pass: buffer 0 of the components in scope is the
   * interpolation of the host values (0 when no host is found), buffer 1 follows it when the
   * variant copies, SLAVE is set as soon as an edge is removed or added, and nothing else moves.
   */
  function CoupledNode(node: Node, nodes: seq<Node>, loc: Location, s: Scope, v: Variant): (r: Node)
    requires Locates(loc, |nodes|)
    ensures forall c :: Covers(s, c) ==> Get(r.current, c) == if loc.Found? then Interpolation(nodes, loc.hosts, loc.weights, c) else 0.0
    ensures forall c :: !Covers(s, c) ==> Get(r.current, c) == Get(node.current, c)
    ensures v.copyAlways || loc.Found? ==> forall c :: Get(r.previous, c) == if Covers(s, c) then Get(r.current, c) else Get(node.previous, c)
    ensures !v.copyAlways && loc.NotFound? ==> r.previous == node.previous
    ensures r.visited == (node.visited || v.markVisited)
    ensures r.position == node.position && r.normal == node.normal && r.nodalMass == node.nodalMass
  {
    var remove := v.removeIfVisited && node.visited && loc.Found?;
    var current := Interpolated(node.current, s, nodes, loc);
    node.(current := current,
          previous := if v.copyAlways || loc.Found? then Copied(node.previous, current, s) else node.previous,
          visited := node.visited || v.markVisited,
          slave := node.slave || (loc.Found? && Nonempty(s) && (remove || |loc.hosts| > 0)))
  }

  /** One boundary node's turn: the node, and the first and second store for the scopes s1 and s2. */
  function Step(st: Coupling, b: nat, loc: Location, s1: Scope, s2: Scope, v: Variant): (r: Coupling)
    requires b < |st.nodes| && Locates(loc, |st.nodes|) && s1.dim == s2.dim
    ensures |r.nodes| == |st.nodes|
  {
    var node := st.nodes[b];
    var remove := v.removeIfVisited && node.visited && loc.Found?;
    Coupling(
      st.nodes[b := CoupledNode(node, st.nodes, loc, Union(s1, s2), v)],
      NodeEdges(st.first, b, s1, loc, remove),
      NodeEdges(st.second, b, s2, loc, remove))
  }

  predicate IdsInside(ids: seq<nat>, count: nat) {
    forall j :: 0 <= j < |ids| ==> ids[j] < count
  }

  /** The loop over the boundary nodes, in order; each node is located at its (unchanging) coordinates. */
  function Pass(st: Coupling, ids: seq<nat>, locate: Vec3 -> Location, s1: Scope, s2: Scope, v: Variant): (r: Coupling)
    requires IdsInside(ids, |st.nodes|) && Locator(locate, |st.nodes|) && s1.dim == s2.dim
    ensures |r.nodes| == |st.nodes|
    ensures forall n :: 0 <= n < |st.nodes| ==> r.nodes[n].position == st.nodes[n].position
  {
    if |ids| == 0 then st
    else
      var prev := Pass(st, ids[..|ids| - 1], locate, s1, s2, v);
      var b := ids[|ids| - 1];
      Step(prev, b, locate(prev.nodes[b].position), s1, s2, v)
  }

  /** The pass over the first i + 1 boundary nodes is node i's turn after the pass over the first i. */
  lemma PassStep(st: Coupling, ids: seq<nat>, locate: Vec3 -> Location, s1: Scope, s2: Scope, v: Variant, i: nat)
    requires IdsInside(ids, |st.nodes|) && Locator(locate, |st.nodes|) && s1.dim == s2.dim && i < |ids|
    ensures IdsInside(ids[..i], |st.nodes|) && IdsInside(ids[..i + 1], |st.nodes|)
    ensures var prev := Pass(st, ids[..i], locate, s1, s2, v);
      Pass(st, ids[..i + 1], locate, s1, s2, v) == Step(prev, ids[i], locate(st.nodes[ids[i]].position), s1, s2, v)
  {
    assert ids[..i + 1][..i] == ids[..i];
  }

  /** Splitting the boundary: a pass over a + b is the pass over b after the pass over a. */
  lemma {:induction false} PassConcat(st: Coupling, a: seq<nat>, b: seq<nat>, locate: Vec3 -> Location, s1: Scope, s2: Scope, v: Variant)
    requires IdsInside(a + b, |st.nodes|) && Locator(locate, |st.nodes|) && s1.dim == s2.dim
    ensures IdsInside(a, |st.nodes|) && IdsInside(b, |st.nodes|)
    ensures Pass(st, a + b, locate, s1, s2, v) == Pass(Pass(st, a, locate, s1, s2, v), b, locate, s1, s2, v)
  {
    assert IdsInside(a, |st.nodes|) && IdsInside(b, |st.nodes|) by {
      assert forall j :: 0 <= j < |a| ==> (a + b)[j] == a[j];
      assert forall j :: 0 <= j < |b| ==> (a + b)[|a| + j] == b[j];
    }
    if |b| == 0 {
      assert a + b == a;
    } else {
      var init, last := b[..|b| - 1], b[|b| - 1];
      assert (a + b)[..|a + b| - 1] == a + init && (a + b)[|a + b| - 1] == last;
      PassConcat(st, a, init, locate, s1, s2, v);
    }
  }

  /** A pass leaves the nodes off the boundary, and their slaves in both stores, as they were. */
  lemma {:induction false} PassFrame(st: Coupling, ids: seq<nat>, locate: Vec3 -> Location, s1: Scope, s2: Scope, v: Variant, n: nat)
    requires IdsInside(ids, |st.nodes|) && Locator(locate, |st.nodes|) && s1.dim == s2.dim
    requires n < |st.nodes| && n !in ids
    ensures Pass(st, ids, locate, s1, s2, v).nodes[n] == st.nodes[n]
    ensures forall c :: Masters(Pass(st, ids, locate, s1, s2, v).first, DofKey(n, c)) == Masters(st.first, DofKey(n, c))
    ensures forall c :: Masters(Pass(st, ids, locate, s1, s2, v).second, DofKey(n, c)) == Masters(st.second, DofKey(n, c))
  {
    if |ids| > 0 {
      var init := ids[..|ids| - 1];
      var prev := Pass(st, init, locate, s1, s2, v);
      var b := ids[|ids| - 1];
      var loc := locate(prev.nodes[b].position);
      var remove := v.removeIfVisited && prev.nodes[b].visited && loc.Found?;
      assert n !in init;
      PassFrame(st, init, locate, s1, s2, v, n);
      forall c
        ensures Masters(Pass(st, ids, locate, s1, s2, v).first, DofKey(n, c)) == Masters(st.first, DofKey(n, c))
        ensures Masters(Pass(st, ids, locate, s1, s2, v).second, DofKey(n, c)) == Masters(st.second, DofKey(n, c))
      {
        NodeEdgesFrame(prev.first, b, s1, loc, remove, DofKey(n, c));
        NodeEdgesFrame(prev.second, b, s2, loc, remove, DofKey(n, c));
      }
    }
  }

  /** After an interpolating pass every boundary node is VISITED. */
  lemma {:induction false} PassVisitsBoundary(st: Coupling, ids: seq<nat>, locate: Vec3 -> Location, s1: Scope, s2: Scope, v: Variant)
    requires IdsInside(ids, |st.nodes|) && Locator(locate, |st.nodes|) && s1.dim == s2.dim
    requires v.markVisited
    ensures forall j :: 0 <= j < |ids| ==> Pass(st, ids, locate, s1, s2, v).nodes[ids[j]].visited
  {
    if |ids| > 0 {
      var init := ids[..|ids| - 1];
      var prev := Pass(st, init, locate, s1, s2, v);
      var b := ids[|ids| - 1];
      PassVisitsBoundary(st, init, locate, s1, s2, v);
      forall j | 0 <= j < |ids|
        ensures Pass(st, ids, locate, s1, s2, v).nodes[ids[j]].visited
      {
        if j < |init| {
          assert ids[j] == init[j];
        }
      }
    }
  }

  /** No boundary node is a node of the host element found for it. */
  ghost predicate OwnHostFree(locate: Vec3 -> Location, nodes: seq<Node>, ids: seq<nat>)
    requires IdsInside(ids, |nodes|)
  {
    forall j :: 0 <= j < |ids| ==> var loc := locate(nodes[ids[j]].position); loc.Found? ==> ids[j] !in loc.hosts
  }

  /** Whether node b's host element, if found, has no node on the boundary (the locator searches the other mesh). */
  predicate HostsOffBoundary(loc: Location, ids: seq<nat>) {
    loc.Found? ==> forall i :: 0 <= i < |loc.hosts| ==> loc.hosts[i] !in ids
  }

  /** A pass around one of its nodes: the pass over the nodes before it, that node's turn, then the pass over the rest. */
  lemma PassAroundNode(st: Coupling, ids: seq<nat>, locate: Vec3 -> Location, s1: Scope, s2: Scope, v: Variant, j: nat)
    requires IdsInside(ids, |st.nodes|) && Locator(locate, |st.nodes|) && s1.dim == s2.dim && j < |ids|
    ensures IdsInside(ids[..j], |st.nodes|) && IdsInside(ids[j + 1..], |st.nodes|)
    ensures var mid := Pass(st, ids[..j], locate, s1, s2, v);
      Pass(st, ids, locate, s1, s2, v) ==
        Pass(Step(mid, ids[j], locate(mid.nodes[ids[j]].position), s1, s2, v), ids[j + 1..], locate, s1, s2, v)
  {
    var b := ids[j];
    var before := ids[..j];
    var after := ids[j + 1..];
    assert ids == before + [b] + after;
    assert IdsInside(before + [b] + after, |st.nodes|);
    PassConcat(st, before + [b], after, locate, s1, s2, v);
    PassConcat(st, before, [b], locate, s1, s2, v);
    assert [b][..0] == [];
  }

  /** A node's turn reads the other nodes only through its hosts' buffer 0. */
  lemma CoupledNodeReadsHosts(node: Node, a: seq<Node>, b: seq<Node>, loc: Location, s: Scope, v: Variant)
    requires Locates(loc, |a|) && |b| == |a|
    requires loc.Found? ==> forall i :: 0 <= i < |loc.hosts| ==> a[loc.hosts[i]].current == b[loc.hosts[i]].current
    ensures CoupledNode(node, a, loc, s, v) == CoupledNode(node, b, loc, s, v)
  {
    if loc.Found? {
      forall c {
        InterpolationReadsHosts(a, b, loc.hosts, loc.weights, c);
      }
    }
  }

  /** A node's turn in two parts: buffer 0 and SLAVE first, then buffer 1 and VISITED. */
  lemma CoupledNodeParts(node: Node, nodes: seq<Node>, loc: Location, s: Scope, v: Variant, mid: Node)
    requires Locates(loc, |nodes|)
    requires mid == node.(current := Interpolated(node.current, s, nodes, loc),
                          slave := node.slave || (v.removeIfVisited && node.visited && loc.Found? && Nonempty(s)) ||
                                   (loc.Found? && |loc.hosts| > 0 && Nonempty(s)))
    ensures CoupledNode(node, nodes, loc, s, v) ==
      mid.(previous := if v.copyAlways || loc.Found? then Copied(mid.previous, mid.current, s) else mid.previous,
           visited := mid.visited || v.markVisited)
  {
  }

  /** Two scopes share no component. */
  predicate Disjoint(a: Scope, b: Scope) {
    !(a.velocity && b.velocity) && !(a.pressure && b.pressure)
  }

  /**
   * A turn over two disjoint scopes is the turn over the first (leaving VISITED alone)
   * followed by the turn over the second: each component is written by one of them only.
   */
  lemma CoupledNodeUnion(node: Node, nodes: seq<Node>, loc: Location, s1: Scope, s2: Scope, v: Variant)
    requires Locates(loc, |nodes|) && s1.dim == s2.dim && Disjoint(s1, s2)
    ensures CoupledNode(CoupledNode(node, nodes, loc, s1, v.(markVisited := false)), nodes, loc, s2, v) ==
      CoupledNode(node, nodes, loc, Union(s1, s2), v)
  {
    var u := Union(s1, s2);
    var once := CoupledNode(node, nodes, loc, s1, v.(markVisited := false));
    var twice := CoupledNode(once, nodes, loc, s2, v);
    var whole := CoupledNode(node, nodes, loc, u, v);
    ValuesExtensionality(twice.current, whole.current);
    ValuesExtensionality(twice.previous, whole.previous);
  }

  /**
   * The interpolation property of a pass: a node that appears once on the boundary and whose
   * hosts lie off the boundary ends up exactly as its own turn made it from the state before
   * the pass, its buffer 0 being Σ N[i]·host value.
   */
  lemma PassCouplesNode(st: Coupling, ids: seq<nat>, locate: Vec3 -> Location, s1: Scope, s2: Scope, v: Variant, j: nat)
    requires IdsInside(ids, |st.nodes|) && Locator(locate, |st.nodes|) && s1.dim == s2.dim
    requires j < |ids| && ids[j] !in ids[..j] && ids[j] !in ids[j + 1..]
    requires HostsOffBoundary(locate(st.nodes[ids[j]].position), ids)
    ensures var node := st.nodes[ids[j]];
      Pass(st, ids, locate, s1, s2, v).nodes[ids[j]] == CoupledNode(node, st.nodes, locate(node.position), Union(s1, s2), v)
  {
    var b := ids[j];
    PassAroundNode(st, ids, locate, s1, s2, v, j);
    var mid := Pass(st, ids[..j], locate, s1, s2, v);
    PassFrame(st, ids[..j], locate, s1, s2, v, b);
    var loc := locate(st.nodes[b].position);
    if loc.Found? {
      forall i | 0 <= i < |loc.hosts|
        ensures mid.nodes[loc.hosts[i]].current == st.nodes[loc.hosts[i]].current
      {
        assert loc.hosts[i] !in ids[..j];
        PassFrame(st, ids[..j], locate, s1, s2, v, loc.hosts[i]);
      }
    }
    CoupledNodeReadsHosts(st.nodes[b], mid.nodes, st.nodes, loc, Union(s1, s2), v);
    var turn := Step(mid, b, loc, s1, s2, v);
    PassFrame(turn, ids[j + 1..], locate, s1, s2, v, b);
  }

  /**
   * The edges of a pass: a node that appears once on the boundary has, in each store, the
   * masters its own turn gives it from the state before the pass.
   */
  lemma PassCouplesNodeEdges(st: Coupling, ids: seq<nat>, locate: Vec3 -> Location, s1: Scope, s2: Scope, v: Variant, j: nat, c: Component)
    requires IdsInside(ids, |st.nodes|) && Locator(locate, |st.nodes|) && s1.dim == s2.dim
    requires j < |ids| && ids[j] !in ids[..j] && ids[j] !in ids[j + 1..]
    ensures var b := ids[j];
      var node := st.nodes[b];
      var loc := locate(node.position);
      var remove := v.removeIfVisited && node.visited && loc.Found?;
      var r := Pass(st, ids, locate, s1, s2, v);
      Masters(r.first, DofKey(b, c)) == Masters(NodeEdges(st.first, b, s1, loc, remove), DofKey(b, c)) &&
      Masters(r.second, DofKey(b, c)) == Masters(NodeEdges(st.second, b, s2, loc, remove), DofKey(b, c))
  {
    var b := ids[j];
    PassAroundNode(st, ids, locate, s1, s2, v, j);
    var mid := Pass(st, ids[..j], locate, s1, s2, v);
    PassFrame(st, ids[..j], locate, s1, s2, v, b);
    var loc := locate(st.nodes[b].position);
    var remove := v.removeIfVisited && st.nodes[b].visited && loc.Found?;
    NodeEdgesSameMasters(mid.first, st.first, b, s1, loc, remove, DofKey(b, c));
    NodeEdgesSameMasters(mid.second, st.second, b, s2, loc, remove, DofKey(b, c));
    var turn := Step(mid, b, loc, s1, s2, v);
    PassFrame(turn, ids[j + 1..], locate, s1, s2, v, b);
  }

  /** A node's edges after its turn depend only on its own slaves' masters before it. */
  lemma {:induction false} NodeEdgesSameMasters(a: Constraints, b0: Constraints, b: nat, s: Scope, loc: Location, remove: bool, k: DofKey)
    requires loc.Found? ==> |loc.hosts| == |loc.weights|
    requires Masters(a, k) == Masters(b0, k)
    ensures Masters(NodeEdges(a, b, s, loc, remove), k) == Masters(NodeEdges(b0, b, s, loc, remove), k)
  {
    var ra := if remove then RemoveEdges(a, b, s) else a;
    var rb := if remove then RemoveEdges(b0, b, s) else b0;
    assert Masters(ra, k) == Masters(rb, k);
    if loc.Found? {
      HostEdgesSameMasters(ra, rb, b, s, loc.hosts, loc.weights, k);
    }
  }

  lemma {:induction false} HostEdgesSameMasters(a: Constraints, b0: Constraints, b: nat, s: Scope, hosts: seq<nat>, weights: seq<real>, k: DofKey)
    requires |hosts| == |weights|
    requires Masters(a, k) == Masters(b0, k)
    ensures Masters(HostEdges(a, b, s, hosts, weights), k) == Masters(HostEdges(b0, b, s, hosts, weights), k)
  {
    if |hosts| > 0 {
      HostEdgesSameMasters(a, b0, b, s, hosts[..|hosts| - 1], weights[..|weights| - 1], k);
      HostEdgeEffect(HostEdges(a, b, s, hosts[..|hosts| - 1], weights[..|weights| - 1]), b, s, hosts[|hosts| - 1], weights[|weights| - 1]);
      HostEdgeEffect(HostEdges(b0, b, s, hosts[..|hosts| - 1], weights[..|weights| - 1]), b, s, hosts[|hosts| - 1], weights[|weights| - 1]);
    }
  }

  // ---------------------------------------------------------------- pressure coupling "one"

  /**
   * The node the "one" pressure coupling selects: the first boundary node when the parameter
   * is 0, otherwise the node whose id is the parameter truncated, which must be on the
   * boundary (looking it up raises otherwise).
   */
  function SelectedNode(ids: seq<nat>, value: real): (r: Result<nat>)
    requires value >= 0.0 && (value == 0.0 ==> |ids| > 0)
    ensures value == 0.0 ==> r == Ok(ids[0])
    ensures value != 0.0 ==> (r.Ok? <==> value.Floor in ids) && (r.Ok? ==> r.value == value.Floor)
    ensures r.Ok? ==> r.value in ids
  {
    if value == 0.0 then Ok(ids[0])
    else if value.Floor in ids then Ok(value.Floor as nat)
    else Err("node index not found")
  }

  /**
   * The "one" pressure coupling of node b: skipped when `checkVisited` and the node is VISITED;
   * otherwise its pressure is interpolated (0 when no host is found), copied to buffer 1, and
   * the hosts' pressure edges are added without removing earlier ones; with `checkVisited` the
   * node then becomes VISITED.
   */
  function OneStep(st: Coupling, b: nat, loc: Location, s1: Scope, s2: Scope, checkVisited: bool): (r: Coupling)
    requires b < |st.nodes| && Locates(loc, |st.nodes|) && s1.dim == s2.dim
    ensures |r.nodes| == |st.nodes|
    ensures checkVisited && st.nodes[b].visited ==> r == st
  {
    var node := st.nodes[b];
    if checkVisited && node.visited then st
    else
      Coupling(
        st.nodes[b := CoupledNode(node, st.nodes, loc, Union(s1, s2), Variant(false, true, checkVisited))],
        NodeEdges(st.first, b, s1, loc, false),
        NodeEdges(st.second, b, s2, loc, false))
  }

  /**
   * After an interpolating pass, the "one" coupling of a boundary node with the VISITED check
   * changes nothing: the pass has just marked every boundary node VISITED.
   */
  lemma {:induction false} OneCouplingAfterPassIsIdle(st: Coupling, ids: seq<nat>, locate: Vec3 -> Location, s1: Scope, s2: Scope,
                                                       b: nat, loc: Location, t1: Scope, t2: Scope)
    requires IdsInside(ids, |st.nodes|) && Locator(locate, |st.nodes|) && s1.dim == s2.dim
    requires b in ids && Locates(loc, |st.nodes|) && t1.dim == t2.dim
    ensures var r := Pass(st, ids, locate, s1, s2, Interpolating);
      OneStep(r, b, loc, t1, t2, true) == r
  {
    PassVisitsBoundary(st, ids, locate, s1, s2, Interpolating);
    var j :| 0 <= j < |ids| && ids[j] == b;
  }
}
