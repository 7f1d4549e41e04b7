/**
 * ResidualBasedBDFDisplacementScheme: a BDF time integrator whose unknown is the
 * displacement; velocity and acceleration follow from the displacement history
 * through the BDF recurrence with coefficients `bdf[0..order]`.
 *
 * Solution-step buffers are sequences indexed by step: index 0 is the current step,
 * index k the step k steps back.
 */
module BdfDisplacementScheme {
  import opened Wrappers
  import opened Vectors

  datatype Quantity = Displacement | Velocity | Acceleration | OtherVariable(key: nat)

  /** A scalar DoF variable such as DISPLACEMENT_X: a quantity and an axis. */
  datatype DofVariable = DofVariable(quantity: Quantity, axis: nat)

  datatype Dof = Dof(variable: DofVariable, isFixed: bool)

  datatype Node = Node(dofs: seq<Dof>, displacement: seq<Vec3>, velocity: seq<Vec3>, acceleration: seq<Vec3>)

  function Disp(c: nat): DofVariable { DofVariable(Displacement, c) }
  function Vel(c: nat): DofVariable { DofVariable(Velocity, c) }
  function Acc(c: nat): DofVariable { DofVariable(Acceleration, c) }

  /** Position of the first DoF of variable `v` in the node's DoF list, or -1 (GetDofPosition / HasDofFor). */
  function FindDof(dofs: seq<Dof>, v: DofVariable): (r: int)
    ensures -1 <= r < |dofs|
    ensures r >= 0 ==> dofs[r].variable == v
  {
    if |dofs| == 0 then -1
    else if dofs[0].variable == v then 0
    else
      var t := FindDof(dofs[1..], v);
      if t == -1 then -1 else t + 1
  }

  predicate HasDof(dofs: seq<Dof>, v: DofVariable) { FindDof(dofs, v) >= 0 }

  /** The search finds every variable the node has. */
  lemma {:induction false} FindDofComplete(dofs: seq<Dof>, v: DofVariable, k: nat)
    requires k < |dofs| && dofs[k].variable == v
    ensures HasDof(dofs, v)
  {
    if dofs[0].variable != v {
      assert dofs[1..][k - 1].variable == v;
      FindDofComplete(dofs[1..], v, k - 1);
    }
  }

  /** The search looks at the variables only. */
  lemma {:induction false} FindDofReadsVariables(a: seq<Dof>, b: seq<Dof>, v: DofVariable)
    requires |a| == |b| && forall k :: 0 <= k < |a| ==> a[k].variable == b[k].variable
    ensures FindDof(a, v) == FindDof(b, v)
  {
    if |a| > 0 && a[0].variable != v { FindDofReadsVariables(a[1..], b[1..], v); }
  }

  /** Appending a DoF of another variable does not change the search. */
  lemma {:induction false} FindDofAppend(a: seq<Dof>, d: Dof, v: DofVariable)
    requires d.variable != v
    ensures FindDof(a + [d], v) == FindDof(a, v)
  {
    if |a| > 0 && a[0].variable != v {
      assert (a + [d])[1..] == a[1..] + [d];
      FindDofAppend(a[1..], d, v);
    }
  }

  /** A DoF of a variable the node lacks is found where it is appended. */
  lemma {:induction false} FindDofAppendNew(a: seq<Dof>, d: Dof)
    requires FindDof(a, d.variable) == -1
    ensures FindDof(a + [d], d.variable) == |a|
  {
    if |a| > 0 {
      assert (a + [d])[1..] == a[1..] + [d];
      FindDofAppendNew(a[1..], d);
    }
  }

  /** A node holds at most one DoF per variable. */
  predicate UniqueDofs(dofs: seq<Dof>) {
    forall i, j :: 0 <= i < j < |dofs| ==> dofs[i].variable != dofs[j].variable
  }

  /**
   * Node::GetDof(variable, position).IsFixed(): the position is a hint; when the DoF stored
   * there is not of `v`, the DoF of `v` is searched for. Node::GetDof itself is not part of
   * this model: a missing DoF, where it would throw, reads as not fixed here, and the
   * scheme's operations require the DoFs they read to be present.
   */
  function IsFixed(dofs: seq<Dof>, v: DofVariable, hint: int): bool
  {
    if 0 <= hint < |dofs| && dofs[hint].variable == v then dofs[hint].isFixed
    else
      var k := FindDof(dofs, v);
      k >= 0 && dofs[k].isFixed
  }

  /** With one DoF per variable the position hint never changes which flag is read. */
  lemma {:induction false} HintIsIrrelevant(dofs: seq<Dof>, v: DofVariable, h1: int, h2: int)
    requires UniqueDofs(dofs) && HasDof(dofs, v)
    ensures IsFixed(dofs, v, h1) == IsFixed(dofs, v, -1) == IsFixed(dofs, v, h2)
  {
    var k := FindDof(dofs, v);
    assert 0 <= h1 < |dofs| && dofs[h1].variable == v ==> dofs[h1] == dofs[k];
    assert 0 <= h2 < |dofs| && dofs[h2].variable == v ==> dofs[h2] == dofs[k];
  }

  /** Node::Fix: fixes the DoF of `v`, adding it when the node lacks it. */
  function Fix(dofs: seq<Dof>, v: DofVariable): (r: seq<Dof>)
    ensures |r| >= |dofs| && IsFixed(r, v, -1)
    ensures forall k :: 0 <= k < |dofs| ==> r[k].variable == dofs[k].variable
    ensures forall k :: 0 <= k < |dofs| && r[k] != dofs[k] ==> k == FindDof(dofs, v)
    ensures forall k :: |dofs| <= k < |r| ==> r[k].variable == v
  {
    var k := FindDof(dofs, v);
    if k >= 0 then
      var r := dofs[k := Dof(v, true)];
      FindDofReadsVariables(r, dofs, v);
      r
    else
      FindDofAppendNew(dofs, Dof(v, true));
      dofs + [Dof(v, true)]
  }

  /** Fixing one variable leaves every other variable's flag as it was, whatever hint reads it. */
  lemma {:induction false} FixKeepsOtherFlags(dofs: seq<Dof>, v: DofVariable, w: DofVariable, hint: int)
    requires v != w
    ensures IsFixed(Fix(dofs, v), w, hint) == IsFixed(dofs, w, hint)
  {
    var k := FindDof(dofs, v);
    if k >= 0 {
      FindDofReadsVariables(Fix(dofs, v), dofs, w);
    } else {
      FindDofAppend(dofs, Dof(v, true), w);
    }
  }

  /** DoF positions cached from the first node, -1 for a variable it lacks. */
  datatype Layout = Layout(disp: seq<int>, vel: seq<int>, acc: seq<int>)

  predicate IsLayout(l: Layout) { |l.disp| == 3 && |l.vel| == 3 && |l.acc| == 3 }

  function LayoutOf(nodes: seq<Node>): (l: Layout)
    ensures IsLayout(l)
    ensures forall c :: 0 <= c < 3 ==>
      (l.disp[c] > -1 <==> |nodes| > 0 && HasDof(nodes[0].dofs, Disp(c))) &&
      (l.vel[c] > -1 <==> |nodes| > 0 && HasDof(nodes[0].dofs, Vel(c))) &&
      (l.acc[c] > -1 <==> |nodes| > 0 && HasDof(nodes[0].dofs, Acc(c)))
  {
    if |nodes| == 0 then Layout([-1, -1, -1], [-1, -1, -1], [-1, -1, -1])
    else
      var d := nodes[0].dofs;
      Layout([FindDof(d, Disp(0)), FindDof(d, Disp(1)), FindDof(d, Disp(2))],
             [FindDof(d, Vel(0)), FindDof(d, Vel(1)), FindDof(d, Vel(2))],
             [FindDof(d, Acc(0)), FindDof(d, Acc(1)), FindDof(d, Acc(2))])
  }

  /** The position hint used for the acceleration test of axis `c`: for Z the source passes accelpos_x + 2. */
  function AccelerationHint(l: Layout, c: nat): int
    requires IsLayout(l) && c < 3
  {
    if c == 2 then l.acc[0] + 2 else l.acc[c]
  }

  // ---------------------------------------------------------------- InitializeSolutionStep

  predicate AccelerationFixedAt(node: Node, l: Layout, c: nat, hint: int)
    requires IsLayout(l) && c < 3
  {
    l.acc[c] > -1 && IsFixed(node.dofs, Acc(c), hint)
  }

  predicate VelocityFixed(node: Node, l: Layout, c: nat)
    requires IsLayout(l) && c < 3
  {
    l.vel[c] > -1 && IsFixed(node.dofs, Vel(c), l.vel[c])
  }

  predicate DisplacementFixed(node: Node, c: nat) { IsFixed(node.dofs, Disp(c), -1) }

  /** The flags the InitializeSolutionStep node body reads agree on two nodes. */
  predicate SameReadFlags(a: Node, b: Node, l: Layout)
    requires IsLayout(l)
  {
    forall d :: 0 <= d < 3 ==>
      AccelerationFixedAt(a, l, d, l.acc[d]) == AccelerationFixedAt(b, l, d, l.acc[d]) &&
      VelocityFixed(a, l, d) == VelocityFixed(b, l, d)
  }

  /** One axis of the InitializeSolutionStep node loop: a fixed acceleration, else a fixed velocity, fixes the displacement. */
  function FixAxis(node: Node, l: Layout, c: nat): (r: Node)
    requires IsLayout(l) && c < 3
    ensures r.displacement == node.displacement && r.velocity == node.velocity && r.acceleration == node.acceleration
    ensures |r.dofs| >= |node.dofs|
    ensures DisplacementFixed(r, c) ==
      (DisplacementFixed(node, c) || AccelerationFixedAt(node, l, c, l.acc[c]) || VelocityFixed(node, l, c))
    ensures forall d :: 0 <= d < 3 && d != c ==> DisplacementFixed(r, d) == DisplacementFixed(node, d)
    ensures SameReadFlags(r, node, l)
    ensures forall k :: 0 <= k < |node.dofs| && node.dofs[k].isFixed ==> r.dofs[k].isFixed
  {
    if AccelerationFixedAt(node, l, c, l.acc[c]) || VelocityFixed(node, l, c) then
      var r := node.(dofs := Fix(node.dofs, Disp(c)));
      forall d | 0 <= d < 3
        ensures AccelerationFixedAt(r, l, d, l.acc[d]) == AccelerationFixedAt(node, l, d, l.acc[d])
        ensures VelocityFixed(r, l, d) == VelocityFixed(node, l, d)
        ensures d != c ==> DisplacementFixed(r, d) == DisplacementFixed(node, d)
      {
        FixKeepsOtherFlags(node.dofs, Disp(c), Acc(d), l.acc[d]);
        FixKeepsOtherFlags(node.dofs, Disp(c), Vel(d), l.vel[d]);
        if d != c {
          FixKeepsOtherFlags(node.dofs, Disp(c), Disp(d), -1);
        }
      }
      r
    else node
  }

  /** The node body of InitializeSolutionStep restricted to its first `n` axes, in order X, Y, Z. */
  function FixAxes(node: Node, l: Layout, n: nat): (r: Node)
    requires IsLayout(l) && n <= 3
    ensures r.displacement == node.displacement && r.velocity == node.velocity && r.acceleration == node.acceleration
  {
    if n == 0 then node else FixAxis(FixAxes(node, l, n - 1), l, n - 1)
  }

  /** The whole node body of InitializeSolutionStep. */
  function FixNode(node: Node, l: Layout): (r: Node)
    requires IsLayout(l)
  {
    FixAxes(node, l, 3)
  }

  /** The first `n` axes leave the acceleration and velocity flags the loop reads as they were. */
  lemma {:induction false} FixAxesKeepsReadFlags(node: Node, l: Layout, n: nat)
    requires IsLayout(l) && n <= 3
    ensures SameReadFlags(FixAxes(node, l, n), node, l)
  {
    if n > 0 {
      FixAxesKeepsReadFlags(node, l, n - 1);
    }
  }

  /** The first `n` axes remove no DoF and unset no flag. */
  lemma {:induction false} FixAxesIsMonotone(node: Node, l: Layout, n: nat)
    requires IsLayout(l) && n <= 3
    ensures |FixAxes(node, l, n).dofs| >= |node.dofs|
    ensures forall k :: 0 <= k < |node.dofs| && node.dofs[k].isFixed ==> FixAxes(node, l, n).dofs[k].isFixed
  {
    if n > 0 {
      FixAxesIsMonotone(node, l, n - 1);
    }
  }

  /**
   * After the first `n` axes a displacement flag of one of them is set exactly when it was set
   * before or the axis' acceleration or velocity is fixed; the flags of later axes are untouched.
   */
  lemma {:induction false} FixAxesFixesDisplacements(node: Node, l: Layout, n: nat, c: nat)
    requires IsLayout(l) && n <= 3 && c < 3
    ensures DisplacementFixed(FixAxes(node, l, n), c) ==
      (DisplacementFixed(node, c) || (c < n && (AccelerationFixedAt(node, l, c, l.acc[c]) || VelocityFixed(node, l, c))))
  {
    if n > 0 {
      var prev := FixAxes(node, l, n - 1);
      FixAxesFixesDisplacements(node, l, n - 1, c);
      if c == n - 1 {
        FixAxesKeepsReadFlags(node, l, n - 1);
      }
    }
  }

  /**
   * After InitializeSolutionStep a displacement DoF is fixed exactly when it was fixed
   * before, or its acceleration DoF is fixed, or its velocity DoF is fixed. No DoF is unfixed.
   */
  lemma {:induction false} FixNodeFixesDisplacements(node: Node, l: Layout, c: nat)
    requires IsLayout(l) && c < 3
    ensures DisplacementFixed(FixNode(node, l), c) ==
      (DisplacementFixed(node, c) || AccelerationFixedAt(node, l, c, l.acc[c]) || VelocityFixed(node, l, c))
    ensures |FixNode(node, l).dofs| >= |node.dofs|
    ensures forall k :: 0 <= k < |node.dofs| && node.dofs[k].isFixed ==> FixNode(node, l).dofs[k].isFixed
  {
    FixAxesFixesDisplacements(node, l, 3, c);
    FixAxesIsMonotone(node, l, 3);
  }

  // ---------------------------------------------------------------- BDF recurrence

  /** Σ_{k=1..n} bdf[k] · h[k][c]: the history part of the BDF recurrence. */
  function PastSum(bdf: seq<real>, h: seq<Vec3>, n: nat, c: nat): real
    requires n < |bdf| && n < |h| && c < 3
  {
    if n == 0 then 0.0 else PastSum(bdf, h, n - 1, c) + bdf[n] * At(h[n], c)
  }

  /** bdf[0] · h[0] + Σ_{k=1..order} bdf[k] · h[k]: the derivative the BDF formula gives for history `h`. */
  function Recurrence(bdf: seq<real>, h: seq<Vec3>, order: nat): Vec3
    requires order < |bdf| && order < |h|
  {
    Vec3(bdf[0] * h[0].x + PastSum(bdf, h, order, 0),
         bdf[0] * h[0].y + PastSum(bdf, h, order, 1),
         bdf[0] * h[0].z + PastSum(bdf, h, order, 2))
  }

  lemma {:induction false} RecurrenceAt(bdf: seq<real>, h: seq<Vec3>, order: nat, c: nat)
    requires order < |bdf| && order < |h| && c < 3
    ensures At(Recurrence(bdf, h, order), c) == bdf[0] * At(h[0], c) + PastSum(bdf, h, order, c)
  {
    if c == 0 {
      assert At(h[0], c) == h[0].x;
    } else if c == 1 {
      assert At(h[0], c) == h[0].y;
    } else {
      assert At(h[0], c) == h[0].z;
    }
  }

  /** Two buffers that agree on every step except possibly the current one. */
  predicate SameHistory(h: seq<Vec3>, g: seq<Vec3>) {
    |h| == |g| && forall k :: 1 <= k < |h| ==> h[k] == g[k]
  }

  /** The history sum ignores the current step. */
  lemma {:induction false} PastSumIgnoresCurrent(bdf: seq<real>, h: seq<Vec3>, g: seq<Vec3>, n: nat, c: nat)
    requires n < |bdf| && n < |h| && c < 3 && SameHistory(h, g)
    ensures PastSum(bdf, h, n, c) == PastSum(bdf, g, n, c)
  {
    if n > 0 { PastSumIgnoresCurrent(bdf, h, g, n - 1, c); }
  }

  /** Solving b0 · x + p == y for x by (y - p) / b0. */
  lemma {:induction false} InverseSolves(b0: real, p: real, y: real)
    requires b0 != 0.0
    ensures b0 * ((y - p) / b0) + p == y
  {
  }

  // ---------------------------------------------------------------- Predict

  /** Histories long enough for the recurrence and for the step-1 values of the free predictor. */
  predicate Buffered(node: Node, order: nat) {
    |node.displacement| > order && |node.velocity| > order && |node.acceleration| > order &&
    |node.displacement| >= 2 && |node.velocity| >= 2 && |node.acceleration| >= 2
  }

  datatype Branch = AccelerationFixedBranch | VelocityFixedBranch | FreeDisplacementBranch | KeptBranch

  /** Which of the three Predict branches the axis takes, in the source's priority order; it reads only the DoF flags. */
  function PredictBranch(dofs: seq<Dof>, l: Layout, c: nat): Branch
    requires IsLayout(l) && c < 3
  {
    if l.acc[c] > -1 && IsFixed(dofs, Acc(c), AccelerationHint(l, c)) then AccelerationFixedBranch
    else if l.vel[c] > -1 && IsFixed(dofs, Vel(c), l.vel[c]) then VelocityFixedBranch
    else if l.disp[c] > -1 && !IsFixed(dofs, Disp(c), l.disp[c]) then FreeDisplacementBranch
    else KeptBranch
  }

  /** Buffer 0 of `h` with component `c` replaced. */
  function SetCurrent(h: seq<Vec3>, c: nat, r: real): (g: seq<Vec3>)
    requires |h| > 0 && c < 3
    ensures SameHistory(g, h) && At(g[0], c) == r
    ensures forall d :: 0 <= d < 3 && d != c ==> At(g[0], d) == At(h[0], d)
  {
    h[0 := With(h[0], c, r)]
  }

  /** Two buffers with the same past and the same current vector are equal. */
  lemma {:induction false} BufferEquality(h: seq<Vec3>, g: seq<Vec3>)
    requires SameHistory(h, g) && |h| > 0
    requires forall c :: 0 <= c < 3 ==> At(h[0], c) == At(g[0], c)
    ensures h == g
  {
    Extensionality(h[0], g[0]);
  }

  /**
   * The recurrence solved for the current step: the value x with
   * bdf[0] · x + Σ_{k=1..order} bdf[k] · h[k][c] == y.
   */
  function SolvedCurrent(bdf: seq<real>, h: seq<Vec3>, order: nat, c: nat, y: real): real
    requires order < |bdf| && order < |h| && c < 3 && bdf[0] != 0.0
  {
    (y - PastSum(bdf, h, order, c)) / bdf[0]
  }

  /**
   * Inversion round trip: a history whose current value is the one solved for `y` (from a
   * history with the same past) makes the recurrence give back `y`.
   */
  lemma {:induction false} RecurrenceInverts(bdf: seq<real>, h: seq<Vec3>, g: seq<Vec3>, order: nat, c: nat, y: real)
    requires order < |bdf| && order < |h| && c < 3 && bdf[0] != 0.0 && SameHistory(h, g)
    requires At(h[0], c) == SolvedCurrent(bdf, g, order, c, y)
    ensures At(Recurrence(bdf, h, order), c) == y
  {
    RecurrenceAt(bdf, h, order, c);
    PastSumIgnoresCurrent(bdf, h, g, order, c);
    InverseSolves(bdf[0], PastSum(bdf, h, order, c), y);
  }

  /** The free-displacement predictor: the second-order Taylor step u1 + dt v1 + dt²/2 a1. */
  function TaylorStep(u1: real, v1: real, a1: real, dt: real): real {
    u1 + dt * v1 + 0.5 * (dt * dt) * a1
  }

  /** The axis-`c` velocity the Predict node body leaves in buffer 0 before the derivative updates. */
  function PredictedVelocity(node: Node, l: Layout, c: nat, bdf: seq<real>, order: nat): real
    requires IsLayout(l) && c < 3 && Buffered(node, order) && |bdf| == order + 1 && bdf[0] != 0.0
  {
    if PredictBranch(node.dofs, l, c) == AccelerationFixedBranch
    then SolvedCurrent(bdf, node.velocity, order, c, At(node.acceleration[0], c))
    else At(node.velocity[0], c)
  }

  /**
   * The axis-`c` displacement the Predict node body leaves in buffer 0: with a fixed
   * acceleration or velocity, the value for which the recurrence gives the (predicted) current
   * velocity; for a free displacement u1 + dt v1 + dt²/2 a1; otherwise the current value.
   */
  function PredictedDisplacement(node: Node, l: Layout, c: nat, bdf: seq<real>, order: nat, dt: real): real
    requires IsLayout(l) && c < 3 && Buffered(node, order) && |bdf| == order + 1 && bdf[0] != 0.0
  {
    match PredictBranch(node.dofs, l, c)
    case AccelerationFixedBranch => SolvedCurrent(bdf, node.displacement, order, c, PredictedVelocity(node, l, c, bdf, order))
    case VelocityFixedBranch => SolvedCurrent(bdf, node.displacement, order, c, At(node.velocity[0], c))
    case FreeDisplacementBranch => TaylorStep(At(node.displacement[1], c), At(node.velocity[1], c), At(node.acceleration[1], c), dt)
    case KeptBranch => At(node.displacement[0], c)
  }

  /** One axis of the Predict node loop: buffer 0 gets the predicted axis-`c` values. */
  function PredictAxis(node: Node, l: Layout, c: nat, bdf: seq<real>, order: nat, dt: real): (r: Node)
    requires IsLayout(l) && c < 3 && Buffered(node, order)
    requires |bdf| == order + 1 && bdf[0] != 0.0
    ensures r.dofs == node.dofs && r.acceleration == node.acceleration
    ensures SameHistory(r.displacement, node.displacement) && SameHistory(r.velocity, node.velocity)
    ensures At(r.displacement[0], c) == PredictedDisplacement(node, l, c, bdf, order, dt)
    ensures At(r.velocity[0], c) == PredictedVelocity(node, l, c, bdf, order)
    ensures forall d :: 0 <= d < 3 && d != c ==>
      At(r.displacement[0], d) == At(node.displacement[0], d) && At(r.velocity[0], d) == At(node.velocity[0], d)
  {
    var u := PredictedDisplacement(node, l, c, bdf, order, dt);
    match PredictBranch(node.dofs, l, c)
    case AccelerationFixedBranch =>
      node.(displacement := SetCurrent(node.displacement, c, u),
            velocity := SetCurrent(node.velocity, c, PredictedVelocity(node, l, c, bdf, order)))
    case VelocityFixedBranch => node.(displacement := SetCurrent(node.displacement, c, u))
    case FreeDisplacementBranch => node.(displacement := SetCurrent(node.displacement, c, u))
    case KeptBranch => node
  }

  /** The three axis steps together: buffer 0 holds the predicted values of every axis. */
  function PredictAxes(node: Node, l: Layout, bdf: seq<real>, order: nat, dt: real): (r: Node)
    requires IsLayout(l) && Buffered(node, order)
    requires |bdf| == order + 1 && bdf[0] != 0.0
    ensures r.dofs == node.dofs && r.acceleration == node.acceleration
    ensures SameHistory(r.displacement, node.displacement) && SameHistory(r.velocity, node.velocity)
  {
    var u := Vec3(PredictedDisplacement(node, l, 0, bdf, order, dt),
                  PredictedDisplacement(node, l, 1, bdf, order, dt),
                  PredictedDisplacement(node, l, 2, bdf, order, dt));
    var v := Vec3(PredictedVelocity(node, l, 0, bdf, order),
                  PredictedVelocity(node, l, 1, bdf, order),
                  PredictedVelocity(node, l, 2, bdf, order));
    node.(displacement := node.displacement[0 := u], velocity := node.velocity[0 := v])
  }

  /** The axis-`c` components of PredictAxes are the predicted values. */
  lemma {:induction false} PredictAxesAt(node: Node, l: Layout, c: nat, bdf: seq<real>, order: nat, dt: real)
    requires IsLayout(l) && Buffered(node, order) && c < 3
    requires |bdf| == order + 1 && bdf[0] != 0.0
    ensures At(PredictAxes(node, l, bdf, order, dt).displacement[0], c) == PredictedDisplacement(node, l, c, bdf, order, dt)
    ensures At(PredictAxes(node, l, bdf, order, dt).velocity[0], c) == PredictedVelocity(node, l, c, bdf, order)
  {
  }

  /** UpdateFirstDerivative: the current velocity recomputed from the displacement history by the recurrence. */
  function VelocityUpdate(node: Node, bdf: seq<real>, order: nat): (r: Node)
    requires Buffered(node, order) && |bdf| == order + 1
    ensures r.dofs == node.dofs && r.displacement == node.displacement && r.acceleration == node.acceleration
    ensures SameHistory(r.velocity, node.velocity)
  {
    node.(velocity := node.velocity[0 := Recurrence(bdf, node.displacement, order)])
  }

  /** UpdateSecondDerivative: the current acceleration recomputed from the velocity history by the recurrence. */
  function AccelerationUpdate(node: Node, bdf: seq<real>, order: nat): (r: Node)
    requires Buffered(node, order) && |bdf| == order + 1
    ensures r.dofs == node.dofs && r.displacement == node.displacement && r.velocity == node.velocity
    ensures |r.acceleration| == |node.acceleration|
  {
    node.(acceleration := node.acceleration[0 := Recurrence(bdf, node.velocity, order)])
  }

  /** Step `s` of the Predict node body: the axis steps X, Y, Z, then the two derivative updates. */
  function PredictStep(node: Node, l: Layout, s: nat, bdf: seq<real>, order: nat, dt: real): (r: Node)
    requires IsLayout(l) && s < 5 && Buffered(node, order)
    requires |bdf| == order + 1 && bdf[0] != 0.0
    ensures r.dofs == node.dofs && Buffered(r, order)
  {
    if s < 3 then PredictAxis(node, l, s, bdf, order, dt)
    else if s == 3 then VelocityUpdate(node, bdf, order)
    else AccelerationUpdate(node, bdf, order)
  }

  /** The first `n` steps of the Predict node body. */
  function PredictSteps(node: Node, l: Layout, n: nat, bdf: seq<real>, order: nat, dt: real): (r: Node)
    requires IsLayout(l) && n <= 5 && Buffered(node, order)
    requires |bdf| == order + 1 && bdf[0] != 0.0
    ensures r.dofs == node.dofs && Buffered(r, order)
  {
    if n == 0 then node else PredictStep(PredictSteps(node, l, n - 1, bdf, order, dt), l, n - 1, bdf, order, dt)
  }

  /** The node body of Predict: its five steps. */
  function PredictNode(node: Node, l: Layout, bdf: seq<real>, order: nat, dt: real): (r: Node)
    requires IsLayout(l) && Buffered(node, order)
    requires |bdf| == order + 1 && bdf[0] != 0.0
    ensures r.dofs == node.dofs && Buffered(r, order)
  {
    PredictSteps(node, l, 5, bdf, order, dt)
  }

  /** The solved current value depends on the past of the history only. */
  lemma {:induction false} SolvedCurrentIgnoresCurrent(bdf: seq<real>, h: seq<Vec3>, g: seq<Vec3>, order: nat, c: nat, y: real)
    requires order < |bdf| && order < |h| && c < 3 && bdf[0] != 0.0 && SameHistory(h, g)
    ensures SolvedCurrent(bdf, h, order, c, y) == SolvedCurrent(bdf, g, order, c, y)
  {
    PastSumIgnoresCurrent(bdf, h, g, order, c);
  }

  /** Axis `c`'s prediction reads only axis `c` of buffer 0 (and the history and flags). */
  lemma {:induction false} AxisReadsItsOwnValues(a: Node, b: Node, l: Layout, c: nat, bdf: seq<real>, order: nat, dt: real)
    requires IsLayout(l) && Buffered(a, order) && c < 3
    requires |bdf| == order + 1 && bdf[0] != 0.0
    requires b.dofs == a.dofs && b.acceleration == a.acceleration
    requires SameHistory(b.displacement, a.displacement) && SameHistory(b.velocity, a.velocity)
    requires At(b.displacement[0], c) == At(a.displacement[0], c) && At(b.velocity[0], c) == At(a.velocity[0], c)
    ensures Buffered(b, order)
    ensures PredictedVelocity(b, l, c, bdf, order) == PredictedVelocity(a, l, c, bdf, order)
    ensures PredictedDisplacement(b, l, c, bdf, order, dt) == PredictedDisplacement(a, l, c, bdf, order, dt)
  {
    var v := PredictedVelocity(a, l, c, bdf, order);
    SolvedCurrentIgnoresCurrent(bdf, b.velocity, a.velocity, order, c, At(a.acceleration[0], c));
    assert PredictedVelocity(b, l, c, bdf, order) == v;
    SolvedCurrentIgnoresCurrent(bdf, b.displacement, a.displacement, order, c, v);
    SolvedCurrentIgnoresCurrent(bdf, b.displacement, a.displacement, order, c, At(a.velocity[0], c));
  }

  /** Running the axis steps one after the other, X then Y then Z, gives PredictAxes. */
  lemma {:induction false} AxisStepsInSequence(node: Node, l: Layout, bdf: seq<real>, order: nat, dt: real)
    requires IsLayout(l) && Buffered(node, order)
    requires |bdf| == order + 1 && bdf[0] != 0.0
    ensures PredictSteps(node, l, 3, bdf, order, dt) == PredictAxes(node, l, bdf, order, dt)
  {
    var p0 := PredictAxis(node, l, 0, bdf, order, dt);
    assert PredictSteps(node, l, 1, bdf, order, dt) == p0;
    AxisReadsItsOwnValues(node, p0, l, 1, bdf, order, dt);
    AxisReadsItsOwnValues(node, p0, l, 2, bdf, order, dt);
    var p1 := PredictAxis(p0, l, 1, bdf, order, dt);
    assert PredictSteps(node, l, 2, bdf, order, dt) == p1;
    AxisReadsItsOwnValues(p0, p1, l, 2, bdf, order, dt);
    var p2 := PredictAxis(p1, l, 2, bdf, order, dt);
    assert PredictSteps(node, l, 3, bdf, order, dt) == p2;
    var q := PredictAxes(node, l, bdf, order, dt);
    forall c | 0 <= c < 3
      ensures At(p2.displacement[0], c) == At(q.displacement[0], c) && At(p2.velocity[0], c) == At(q.velocity[0], c)
    {
      PredictAxesAt(node, l, c, bdf, order, dt);
    }
    BufferEquality(p2.displacement, q.displacement);
    BufferEquality(p2.velocity, q.velocity);
  }

  /** The node body of Predict is PredictAxes followed by the two derivative updates. */
  lemma {:induction false} PredictNodeInStages(node: Node, l: Layout, bdf: seq<real>, order: nat, dt: real)
    requires IsLayout(l) && Buffered(node, order)
    requires |bdf| == order + 1 && bdf[0] != 0.0
    ensures PredictNode(node, l, bdf, order, dt) ==
      AccelerationUpdate(VelocityUpdate(PredictAxes(node, l, bdf, order, dt), bdf, order), bdf, order)
  {
    AxisStepsInSequence(node, l, bdf, order, dt);
    var p := PredictSteps(node, l, 3, bdf, order, dt);
    assert PredictSteps(node, l, 4, bdf, order, dt) == VelocityUpdate(p, bdf, order);
  }

  /**
   * On a velocity- or acceleration-fixed axis the velocity UpdateFirstDerivative computes from
   * the predicted displacements is the predicted velocity: the inversion and the recurrence agree.
   */
  lemma {:induction false} PredictedVelocityRoundTrip(node: Node, l: Layout, c: nat, bdf: seq<real>, order: nat, dt: real)
    requires IsLayout(l) && Buffered(node, order) && c < 3
    requires |bdf| == order + 1 && bdf[0] != 0.0
    requires PredictBranch(node.dofs, l, c) in {AccelerationFixedBranch, VelocityFixedBranch}
    ensures At(PredictNode(node, l, bdf, order, dt).velocity[0], c) == PredictedVelocity(node, l, c, bdf, order)
  {
    var p := PredictAxes(node, l, bdf, order, dt);
    PredictNodeInStages(node, l, bdf, order, dt);
    PredictAxesAt(node, l, c, bdf, order, dt);
    RecurrenceInverts(bdf, p.displacement, node.displacement, order, c, PredictedVelocity(node, l, c, bdf, order));
  }

  /** Velocity-fixed round trip: the velocity after Predict is the prescribed one. */
  lemma {:induction false} PredictKeepsFixedVelocity(node: Node, l: Layout, c: nat, bdf: seq<real>, order: nat, dt: real)
    requires IsLayout(l) && Buffered(node, order) && c < 3
    requires |bdf| == order + 1 && bdf[0] != 0.0
    requires PredictBranch(node.dofs, l, c) == VelocityFixedBranch
    ensures At(PredictNode(node, l, bdf, order, dt).velocity[0], c) == At(node.velocity[0], c)
  {
    PredictedVelocityRoundTrip(node, l, c, bdf, order, dt);
  }

  /** Acceleration-fixed round trip: the acceleration after Predict is the prescribed one. */
  lemma {:induction false} PredictKeepsFixedAcceleration(node: Node, l: Layout, c: nat, bdf: seq<real>, order: nat, dt: real)
    requires IsLayout(l) && Buffered(node, order) && c < 3
    requires |bdf| == order + 1 && bdf[0] != 0.0
    requires PredictBranch(node.dofs, l, c) == AccelerationFixedBranch
    ensures At(PredictNode(node, l, bdf, order, dt).acceleration[0], c) == At(node.acceleration[0], c)
  {
    var r := PredictNode(node, l, bdf, order, dt);
    PredictNodeInStages(node, l, bdf, order, dt);
    PredictedVelocityRoundTrip(node, l, c, bdf, order, dt);
    assert r.acceleration[0] == Recurrence(bdf, r.velocity, order);
    RecurrenceInverts(bdf, r.velocity, node.velocity, order, c, At(node.acceleration[0], c));
  }

  /** After Predict, buffer 0 holds the predicted displacement of every axis. */
  lemma {:induction false} PredictNodeDisplacement(node: Node, l: Layout, c: nat, bdf: seq<real>, order: nat, dt: real)
    requires IsLayout(l) && Buffered(node, order) && c < 3
    requires |bdf| == order + 1 && bdf[0] != 0.0
    ensures At(PredictNode(node, l, bdf, order, dt).displacement[0], c) == PredictedDisplacement(node, l, c, bdf, order, dt)
  {
    PredictNodeInStages(node, l, bdf, order, dt);
    PredictAxesAt(node, l, c, bdf, order, dt);
  }

  /** A free displacement is predicted by the second-order Taylor step u1 + dt v1 + dt²/2 a1. */
  lemma {:induction false} PredictFreeDisplacement(node: Node, l: Layout, c: nat, bdf: seq<real>, order: nat, dt: real)
    requires IsLayout(l) && Buffered(node, order) && c < 3
    requires |bdf| == order + 1 && bdf[0] != 0.0
    requires PredictBranch(node.dofs, l, c) == FreeDisplacementBranch
    ensures At(PredictNode(node, l, bdf, order, dt).displacement[0], c) ==
      TaylorStep(At(node.displacement[1], c), At(node.velocity[1], c), At(node.acceleration[1], c), dt)
  {
    PredictNodeDisplacement(node, l, c, bdf, order, dt);
  }

  /** A displacement that is fixed, or that the first node does not carry, keeps its value. */
  lemma {:induction false} PredictKeptDisplacement(node: Node, l: Layout, c: nat, bdf: seq<real>, order: nat, dt: real)
    requires IsLayout(l) && Buffered(node, order) && c < 3
    requires |bdf| == order + 1 && bdf[0] != 0.0
    requires PredictBranch(node.dofs, l, c) == KeptBranch
    ensures At(PredictNode(node, l, bdf, order, dt).displacement[0], c) == At(node.displacement[0], c)
  {
    PredictNodeDisplacement(node, l, c, bdf, order, dt);
  }

  /** The Z acceleration test, read at accelpos_x + 2, reads the ACCELERATION_Z flag itself. */
  lemma {:induction false} ZAccelerationHint(node: Node, l: Layout)
    requires IsLayout(l) && l.acc[2] > -1 && UniqueDofs(node.dofs) && HasDof(node.dofs, Acc(2))
    ensures AccelerationFixedAt(node, l, 2, AccelerationHint(l, 2)) == AccelerationFixedAt(node, l, 2, l.acc[2])
  {
    HintIsIrrelevant(node.dofs, Acc(2), AccelerationHint(l, 2), l.acc[2]);
  }

  // ---------------------------------------------------------------- Check

  /**
   * What Check asks of one node: DISPLACEMENT, VELOCITY and ACCELERATION among its solution-step
   * variables (`variables`, the node's nodal data) and the three displacement DoFs.
   */
  predicate NodeChecks(node: Node, variables: set<Quantity>) {
    Displacement in variables && Velocity in variables && Acceleration in variables &&
    forall c :: 0 <= c < 3 ==> HasDof(node.dofs, Disp(c))
  }

  /**
   * Check: a non-zero error code of the base scheme is returned unchanged; otherwise every
   * node must hold the three variables in its nodal data and carry the three displacement
   * DoFs, and the result is 0. `variables[i]` is the nodal data of node i.
   */
  function Check(baseError: int, nodes: seq<Node>, variables: seq<set<Quantity>>): (r: Result<int>)
    requires |variables| == |nodes|
    ensures baseError != 0 ==> r == Ok(baseError)
    ensures baseError == 0 && r.Ok? ==> r.value == 0
    ensures baseError == 0 ==>
      (r.Ok? <==> forall i :: 0 <= i < |nodes| ==> NodeChecks(nodes[i], variables[i]))
  {
    if baseError != 0 then Ok(baseError)
    else if forall i :: 0 <= i < |nodes| ==> NodeChecks(nodes[i], variables[i]) then Ok(0)
    else Err("missing nodal variable or displacement degree of freedom")
  }

  // ---------------------------------------------------------------- the scheme object

  /** The part of a model part the scheme uses: its nodes and DELTA_TIME. */
  class ModelPart {
    var nodes: seq<Node>
    var deltaTime: real
  }

  /** Every node's buffers hold enough steps for the recurrence and the free predictor. */
  predicate AllBuffered(nodes: seq<Node>, order: nat) {
    forall i :: 0 <= i < |nodes| ==> Buffered(nodes[i], order)
  }

  class Scheme {
    const order: nat
    /** The BDF coefficients bdf[0..order], recomputed by the base class every step. */
    var bdf: seq<real>

    predicate Valid() reads this { |bdf| == order + 1 }

    /** The order constructor; the source's default order is 2. The base class starts with zero coefficients. */
    constructor (integrationOrder: nat := 2)
      ensures order == integrationOrder && bdf == seq(integrationOrder + 1, _ => 0.0) && Valid()
    {
      order := integrationOrder;
      bdf := seq(integrationOrder + 1, _ => 0.0);
    }

    /** The Parameters constructor: "integration_order" when present, 2 otherwise. */
    constructor FromParameters(integrationOrder: Option<nat>)
      ensures order == (if integrationOrder.Some? then integrationOrder.value else 2)
      ensures bdf == seq(order + 1, _ => 0.0) && Valid()
    {
      order := if integrationOrder.Some? then integrationOrder.value else 2;
      bdf := seq(if integrationOrder.Some? then integrationOrder.value + 1 else 3, _ => 0.0);
    }

    /**
     * InitializeSolutionStep: the base class provides this step's coefficients; then every
     * node fixes its displacements from fixed accelerations and velocities.
     */
    method InitializeSolutionStep(mp: ModelPart, coefficients: seq<real>)
      requires |coefficients| == order + 1
      modifies this, mp
      ensures Valid() && bdf == coefficients && mp.deltaTime == old(mp.deltaTime)
      ensures |mp.nodes| == |old(mp.nodes)|
      ensures forall i :: 0 <= i < |mp.nodes| ==> mp.nodes[i] == FixNode(old(mp.nodes)[i], LayoutOf(old(mp.nodes)))
    {
      bdf := coefficients;
      var l := LayoutOf(mp.nodes);
      ghost var before := mp.nodes;
      var i := 0;
      while i < |mp.nodes|
        modifies mp
        invariant 0 <= i <= |mp.nodes| == |before| && mp.deltaTime == old(mp.deltaTime)
        invariant forall k :: 0 <= k < i ==> mp.nodes[k] == FixNode(before[k], l)
        invariant forall k :: i <= k < |mp.nodes| ==> mp.nodes[k] == before[k]
      {
        mp.nodes := mp.nodes[i := FixNode(mp.nodes[i], l)];
        i := i + 1;
      }
    }

    /** UpdateFirstDerivative: velocity := bdf[0] u0 + Σ bdf[k] u_k, accumulated over k. */
    method UpdateFirstDerivative(node: Node) returns (r: Node)
      requires Valid() && Buffered(node, order)
      ensures r == VelocityUpdate(node, bdf, order)
    {
      var v := AccumulateRecurrence(node.displacement);
      r := node.(velocity := node.velocity[0 := v]);
    }

    /** UpdateSecondDerivative: acceleration := bdf[0] v0 + Σ bdf[k] v_k, accumulated over k. */
    method UpdateSecondDerivative(node: Node) returns (r: Node)
      requires Valid() && Buffered(node, order)
      ensures r == AccelerationUpdate(node, bdf, order)
    {
      var a := AccumulateRecurrence(node.velocity);
      r := node.(acceleration := node.acceleration[0 := a]);
    }

    /** The accumulation loop shared by both derivative updates: bdf[0] h0, then += bdf[k] h_k for k = 1..order. */
    method AccumulateRecurrence(h: seq<Vec3>) returns (v: Vec3)
      requires Valid() && order < |h|
      ensures v == Recurrence(bdf, h, order)
    {
      v := Scale(bdf[0], h[0]);
      for k := 1 to order + 1
        invariant v.x == bdf[0] * h[0].x + PastSum(bdf, h, k - 1, 0)
        invariant v.y == bdf[0] * h[0].y + PastSum(bdf, h, k - 1, 1)
        invariant v.z == bdf[0] * h[0].z + PastSum(bdf, h, k - 1, 2)
      {
        v := Add(v, Scale(bdf[k], h[k]));
      }
    }

    /**
     * The source's inversion loop: starting from `y`, subtract bdf[k] · h[k][c] for k = 1..order,
     * then divide by bdf[0].
     */
    method InvertRecurrence(h: seq<Vec3>, c: nat, y: real) returns (x: real)
      requires Valid() && bdf[0] != 0.0 && order < |h| && c < 3
      ensures x == SolvedCurrent(bdf, h, order, c, y)
    {
      x := y;
      for k := 1 to order + 1
        invariant x == y - PastSum(bdf, h, k - 1, c)
      {
        x := x - bdf[k] * At(h[k], c);
      }
      x := x / bdf[0];
    }

    /** One axis of the Predict node body, branch by branch as the source tests them. */
    method PredictAxisStep(node: Node, l: Layout, c: nat, dt: real) returns (r: Node)
      requires Valid() && bdf[0] != 0.0 && IsLayout(l) && c < 3 && Buffered(node, order)
      ensures r == PredictAxis(node, l, c, bdf, order, dt)
    {
      var branch := PredictBranch(node.dofs, l, c);
      if branch == AccelerationFixedBranch {
        var v := InvertRecurrence(node.velocity, c, At(node.acceleration[0], c));
        var u := InvertRecurrence(node.displacement, c, v);
        r := node.(displacement := SetCurrent(node.displacement, c, u), velocity := SetCurrent(node.velocity, c, v));
      } else if branch == VelocityFixedBranch {
        var u := InvertRecurrence(node.displacement, c, At(node.velocity[0], c));
        r := node.(displacement := SetCurrent(node.displacement, c, u));
      } else if branch == FreeDisplacementBranch {
        var u := At(node.displacement[1], c) + dt * At(node.velocity[1], c) + 0.5 * (dt * dt) * At(node.acceleration[1], c);
        assert u == TaylorStep(At(node.displacement[1], c), At(node.velocity[1], c), At(node.acceleration[1], c), dt);
        r := node.(displacement := SetCurrent(node.displacement, c, u));
      } else {
        r := node;
      }
    }

    /** The node body of Predict: the three axis predictions, then both derivative updates. */
    method PredictOneNode(node: Node, l: Layout, dt: real) returns (r: Node)
      requires Valid() && bdf[0] != 0.0 && IsLayout(l) && Buffered(node, order)
      ensures r == PredictNode(node, l, bdf, order, dt)
    {
      r := PredictAxisStep(node, l, 0, dt);
      assert r == PredictSteps(node, l, 1, bdf, order, dt);
      r := PredictAxisStep(r, l, 1, dt);
      assert r == PredictSteps(node, l, 2, bdf, order, dt);
      r := PredictAxisStep(r, l, 2, dt);
      assert r == PredictSteps(node, l, 3, bdf, order, dt);
      r := UpdateFirstDerivative(r);
      assert r == PredictSteps(node, l, 4, bdf, order, dt);
      r := UpdateSecondDerivative(r);
    }

    /** Predict: every node runs the axis predictions and the derivative updates, with the first node's layout. */
    method Predict(mp: ModelPart)
      requires Valid() && bdf[0] != 0.0
      requires AllBuffered(mp.nodes, order)
      modifies mp
      ensures mp.deltaTime == old(mp.deltaTime) && |mp.nodes| == |old(mp.nodes)|
      ensures forall i :: 0 <= i < |mp.nodes| ==>
        mp.nodes[i] == PredictNode(old(mp.nodes)[i], LayoutOf(old(mp.nodes)), bdf, order, mp.deltaTime)
    {
      PredictNodes(mp, LayoutOf(mp.nodes), mp.deltaTime);
    }

    /** The node loop of Predict. */
    method PredictNodes(mp: ModelPart, l: Layout, dt: real)
      requires Valid() && bdf[0] != 0.0 && IsLayout(l)
      requires AllBuffered(mp.nodes, order)
      modifies mp
      ensures mp.deltaTime == old(mp.deltaTime) && |mp.nodes| == |old(mp.nodes)|
      ensures forall i :: 0 <= i < |mp.nodes| ==> mp.nodes[i] == PredictNode(old(mp.nodes)[i], l, bdf, order, dt)
    {
      ghost var before := mp.nodes;
      var i := 0;
      while i < |mp.nodes|
        invariant 0 <= i <= |mp.nodes| == |before| && mp.deltaTime == old(mp.deltaTime)
        invariant forall k :: 0 <= k < i ==> mp.nodes[k] == PredictNode(before[k], l, bdf, order, dt)
        invariant forall k :: i <= k < |mp.nodes| ==> mp.nodes[k] == before[k]
      {
        var node := PredictOneNode(mp.nodes[i], l, dt);
        mp.nodes := mp.nodes[i := node];
        i := i + 1;
      }
    }
  }
}
