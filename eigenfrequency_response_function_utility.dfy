/**
 * The eigenfrequency response function of structural optimisation: which eigenfrequencies
 * are traced, how they are weighted, and the weighted sum of the traced frequencies.
 */
module EigenfrequencyResponseFunctionUtility {
  import opened Wrappers

  /** "traced_eigenfrequency" is either an array of ids or a single id. */
  datatype Traced = TracedArray(ids: seq<int>) | TracedScalar(id: int)

  /** The response settings the utility reads. */
  datatype Settings = Settings(
    gradientMode: string,
    stepSize: real,
    traced: Traced,
    weightingMethod: Option<string>,
    weightingFactors: Option<seq<real>>)

  /** Globals::Pi. */
  const Pi: real := 3.141592653589793

  /** Tolerance of the weight-sum test. */
  const WeightSumTolerance: real := 0.000000000001

  function Abs(x: real): real { if x < 0.0 then -x else x }

  function Sum(w: seq<real>): real {
    if |w| == 0 then 0.0 else Sum(w[..|w| - 1]) + w[|w| - 1]
  }

  /** The traced ids: the array as given, or a one-element list. */
  function TracedIds(t: Traced): (ids: seq<int>)
    ensures t.TracedScalar? ==> ids == [t.id]
    ensures t.TracedArray? ==> ids == t.ids
  {
    match t
    case TracedArray(ids) => ids
    case TracedScalar(id) => [id]
  }

  /** The linear weights: the factors, divided by their sum when it is not within 1e-12 of one. */
  function LinearWeights(factors: seq<real>): (w: seq<real>)
    requires Abs(Sum(factors) - 1.0) > WeightSumTolerance ==> Sum(factors) != 0.0
    ensures |w| == |factors|
  {
    var s := Sum(factors);
    if Abs(s - 1.0) > WeightSumTolerance then seq(|factors|, i requires 0 <= i < |factors| => factors[i] / s)
    else factors
  }

  /** Dividing every weight by s divides the sum by s. */
  lemma {:induction false} SumOfScaled(w: seq<real>, s: real)
    requires s != 0.0
    ensures Sum(seq(|w|, i requires 0 <= i < |w| => w[i] / s)) == Sum(w) / s
  {
    var v := seq(|w|, i requires 0 <= i < |w| => w[i] / s);
    if |w| > 0 {
      var init := w[..|w| - 1];
      SumOfScaled(init, s);
      assert v[..|v| - 1] == seq(|init|, i requires 0 <= i < |init| => init[i] / s);
      assert Sum(v) == Sum(init) / s + w[|w| - 1] / s;
    }
  }

  /** The linear weights sum to one up to the tolerance: exactly one when they were rescaled. */
  lemma {:induction false} LinearWeightsAreNormalized(factors: seq<real>)
    requires Abs(Sum(factors) - 1.0) > WeightSumTolerance ==> Sum(factors) != 0.0
    ensures Abs(Sum(LinearWeights(factors)) - 1.0) <= WeightSumTolerance
    ensures Abs(Sum(factors) - 1.0) > WeightSumTolerance ==> Sum(LinearWeights(factors)) == 1.0
  {
    var s := Sum(factors);
    if Abs(s - 1.0) > WeightSumTolerance {
      SumOfScaled(factors, s);
      assert s / s == 1.0;
    }
  }

  /** Whether every traced eigenvalue was computed: the largest traced id is within the count. */
  predicate AllComputed(ids: seq<int>, computed: int) {
    forall i :: 0 <= i < |ids| ==> ids[i] <= computed
  }

  /** std::max_element over a non-empty list. */
  function MaxId(ids: seq<int>): (m: int)
    requires |ids| > 0
    ensures m in ids && forall i :: 0 <= i < |ids| ==> ids[i] <= m
  {
    if |ids| == 1 then ids[0]
    else var m := MaxId(ids[..|ids| - 1]);
      assert forall i :: 0 <= i < |ids| - 1 ==> ids[..|ids| - 1][i] == ids[i];
      if ids[|ids| - 1] > m then ids[|ids| - 1] else m
  }

  /** GetEigenvalue: ids count from 1 in EIGENVALUE_VECTOR. */
  function GetEigenvalue(eigenvalues: seq<real>, id: int): (lambda: real)
    requires 1 <= id <= |eigenvalues|
    ensures lambda == eigenvalues[id - 1]
  {
    eigenvalues[id - 1]
  }

  /** Σ w_i · sqrt(λ_{id_i}) / (2π) over the first k traced ids, with sqrt an abstract function. */
  function WeightedFrequencies(ids: seq<int>, weights: seq<real>, eigenvalues: seq<real>, sqrt: real -> real, k: nat): real
    requires k <= |ids| && k <= |weights|
    requires forall i :: 0 <= i < |ids| ==> 1 <= ids[i] <= |eigenvalues|
  {
    if k == 0 then 0.0
    else (WeightedFrequencies(ids, weights, eigenvalues, sqrt, k - 1) +
          weights[k - 1] * sqrt(GetEigenvalue(eigenvalues, ids[k - 1])) / (2.0 * Pi))
  }

  /**
   * When every traced eigenvalue is the same λ, the response is the sum of the weights times
   * sqrt(λ)/(2π): with normalised weights, that one frequency.
   */
  lemma {:induction false} WeightedFrequenciesOfEqualEigenvalues(ids: seq<int>, weights: seq<real>, eigenvalues: seq<real>,
                                                                  sqrt: real -> real, k: nat, lambda: real)
    requires k <= |ids| && k <= |weights|
    requires forall i :: 0 <= i < |ids| ==> 1 <= ids[i] <= |eigenvalues|
    requires forall i :: 0 <= i < |ids| ==> eigenvalues[ids[i] - 1] == lambda
    ensures WeightedFrequencies(ids, weights, eigenvalues, sqrt, k) == Sum(weights[..k]) * sqrt(lambda) / (2.0 * Pi)
  {
    if k > 0 {
      WeightedFrequenciesOfEqualEigenvalues(ids, weights, eigenvalues, sqrt, k - 1, lambda);
      assert weights[..k][..k - 1] == weights[..k - 1];
    }
  }

  /** The response object: the finite-difference step and the traced ids with their weights. */
  class Utility {
    var delta: real
    var tracedIds: seq<int>
    var weights: seq<real>

    /** Every traced id has a weight. */
    predicate Valid() reads this { |tracedIds| <= |weights| }

    constructor ()
    {
    }

    /** AreSeveralEigenfrequenciesTraced. */
    function SeveralTraced(): (r: bool)
      reads this
      ensures r <==> |tracedIds| > 1
    {
      |tracedIds| > 1
    }

    /** CheckSettingsForGradientAnalysis: only "semi_analytic" is accepted; it stores the step size. */
    method CheckSettingsForGradientAnalysis(settings: Settings) returns (r: Result<()>)
      modifies this
      ensures r.Ok? <==> settings.gradientMode == "semi_analytic"
      ensures r.Ok? ==> delta == settings.stepSize
      ensures tracedIds == old(tracedIds) && weights == old(weights)
    {
      if settings.gradientMode == "semi_analytic" {
        delta := settings.stepSize;
        r := Ok(());
      } else {
        r := Err("unknown gradient_mode");
      }
    }

    /** DetermineTracedEigenfrequencies: the ids are copied one by one from the array, or the single id. */
    method DetermineTracedEigenfrequencies(settings: Settings)
      modifies this
      ensures tracedIds == TracedIds(settings.traced)
      ensures delta == old(delta) && weights == old(weights)
    {
      match settings.traced {
        case TracedArray(ids) =>
          tracedIds := seq(|ids|, _ => 0);
          for i := 0 to |tracedIds|
            invariant |tracedIds| == |ids|
            invariant forall j :: 0 <= j < i ==> tracedIds[j] == ids[j]
            invariant delta == old(delta) && weights == old(weights)
          {
            tracedIds := tracedIds[i := ids[i]];
          }
        case TracedScalar(id) =>
          tracedIds := [id];
      }
    }

    /**
     * CalculateLinearWeights: the factors must be present and as many as the ids; they are read
     * and summed, then divided by the sum when it differs from one by more than 1e-12.
     */
    method CalculateLinearWeights(settings: Settings) returns (r: Result<()>)
      requires settings.weightingFactors.Some? && |settings.weightingFactors.value| == |tracedIds| ==>
        (Abs(Sum(settings.weightingFactors.value) - 1.0) > WeightSumTolerance ==> Sum(settings.weightingFactors.value) != 0.0)
      modifies this
      ensures delta == old(delta) && tracedIds == old(tracedIds)
      ensures r.Ok? <==> settings.weightingFactors.Some? && |settings.weightingFactors.value| == |tracedIds|
      ensures r.Ok? ==> weights == LinearWeights(settings.weightingFactors.value)
    {
      if settings.weightingFactors.None? {
        return Err("no weighting factors");
      }
      var factors := settings.weightingFactors.value;
      if |factors| != |tracedIds| {
        return Err("weighting factor count");
      }
      var w, sum := ReadWeights(factors);
      if Abs(sum - 1.0) > WeightSumTolerance {
        w := Rescale(w, sum);
      }
      weights := w;
      r := Ok(());
    }

    /** The reading loop of CalculateLinearWeights: the factors are copied and summed. */
    static method ReadWeights(factors: seq<real>) returns (w: seq<real>, sum: real)
      ensures w == factors && sum == Sum(factors)
    {
      w := seq(|factors|, _ => 0.0);
      sum := 0.0;
      for i := 0 to |w|
        invariant |w| == |factors|
        invariant forall j :: 0 <= j < i ==> w[j] == factors[j]
        invariant sum == Sum(factors[..i])
      {
        w := w[i := factors[i]];
        assert factors[..i + 1][..i] == factors[..i];
        sum := sum + w[i];
      }
      assert factors[..|factors|] == factors;
    }

    /** The scaling loop of CalculateLinearWeights: every weight is divided by the sum. */
    static method Rescale(w: seq<real>, sum: real) returns (v: seq<real>)
      requires sum != 0.0
      ensures v == seq(|w|, i requires 0 <= i < |w| => w[i] / sum)
    {
      v := w;
      for i := 0 to |v|
        invariant |v| == |w|
        invariant forall j :: 0 <= j < i ==> v[j] == w[j] / sum
        invariant forall j :: i <= j < |v| ==> v[j] == w[j]
      {
        v := v[i := v[i] / sum];
      }
    }

    /** UseDefaultWeight: a single weight 1.0. */
    method UseDefaultWeight()
      modifies this
      ensures weights == [1.0]
      ensures delta == old(delta) && tracedIds == old(tracedIds)
    {
      weights := [1.0];
    }

    /**
     * The constructor body: the gradient settings, the traced ids, then the linear weights
     * when several ids are traced (the only method is "linear_scaling") or the default weight.
     */
    method Configure(settings: Settings) returns (r: Result<()>)
      requires settings.gradientMode == "semi_analytic" && |TracedIds(settings.traced)| > 1 &&
               settings.weightingMethod == Some("linear_scaling") && settings.weightingFactors.Some? &&
               |settings.weightingFactors.value| == |TracedIds(settings.traced)| ==>
        (Abs(Sum(settings.weightingFactors.value) - 1.0) > WeightSumTolerance ==> Sum(settings.weightingFactors.value) != 0.0)
      modifies this
      ensures var ids := TracedIds(settings.traced);
        r.Ok? <==> settings.gradientMode == "semi_analytic" &&
                   (|ids| > 1 ==> settings.weightingMethod == Some("linear_scaling") &&
                                  settings.weightingFactors.Some? && |settings.weightingFactors.value| == |ids|)
      ensures r.Ok? ==> delta == settings.stepSize && tracedIds == TracedIds(settings.traced) && Valid()
      ensures r.Ok? ==> weights == if |tracedIds| > 1 then LinearWeights(settings.weightingFactors.value) else [1.0]
    {
      r := CheckSettingsForGradientAnalysis(settings);
      if r.Err? {
        return;
      }
      DetermineTracedEigenfrequencies(settings);
      if SeveralTraced() {
        if settings.weightingMethod.None? {
          return Err("no weighting method");
        }
        if settings.weightingMethod.value == "linear_scaling" {
          r := CalculateLinearWeights(settings);
        } else {
          r := Err("unknown weighting method");
        }
      } else {
        UseDefaultWeight();
      }
    }

    /** CheckIfAllNecessaryEigenvaluesAreComputed: the largest traced id must not exceed the computed count. */
    method CheckIfAllNecessaryEigenvaluesAreComputed(eigenvalues: seq<real>) returns (r: Result<()>)
      requires |tracedIds| > 0
      ensures r.Ok? <==> AllComputed(tracedIds, |eigenvalues|)
    {
      var maxRequired := MaxId(tracedIds);
      if maxRequired > |eigenvalues| {
        r := Err("eigenfrequency not computed");
      } else {
        r := Ok(());
      }
    }

    /** CalculateValue: after the check, Σ w_i · sqrt(λ_{id_i}) / (2π) accumulated in order. */
    method CalculateValue(eigenvalues: seq<real>, sqrt: real -> real) returns (r: Result<real>)
      requires Valid() && |tracedIds| > 0
      requires forall i :: 0 <= i < |tracedIds| ==> 1 <= tracedIds[i]
      ensures r.Ok? <==> AllComputed(tracedIds, |eigenvalues|)
      ensures r.Ok? ==> r.value == WeightedFrequencies(tracedIds, weights, eigenvalues, sqrt, |tracedIds|)
    {
      var check := CheckIfAllNecessaryEigenvaluesAreComputed(eigenvalues);
      if check.Err? {
        return Err(check.message);
      }
      var value := 0.0;
      for i := 0 to |tracedIds|
        invariant value == WeightedFrequencies(tracedIds, weights, eigenvalues, sqrt, i)
      {
        value := value + weights[i] * sqrt(GetEigenvalue(eigenvalues, tracedIds[i])) / (2.0 * Pi);
      }
      r := Ok(value);
    }
  }

  /** A node's EIGENVECTOR_MATRIX: one row per eigenvalue, one column per nodal DoF. */
  type Matrix = seq<seq<real>>

  /** Where the entries of node n start in an element vector with ndofs DoFs per node. */
  function RowStart(ndofs: nat, n: nat): nat
    decreases n
  {
    if n == 0 then 0 else RowStart(ndofs, n - 1) + ndofs
  }

  /** The position of DoF d of node n in an element vector with ndofs DoFs per node. */
  function Slot(ndofs: nat, n: nat, d: nat): nat { RowStart(ndofs, n) + d }

  /** RowStart is the product ndofs · n used by the source's index expression. */
  lemma {:induction false} RowStartIsProduct(ndofs: nat, n: nat)
    ensures RowStart(ndofs, n) == ndofs * n
    decreases n
  {
    if n > 0 {
      RowStartIsProduct(ndofs, n - 1);
      assert ndofs * n == ndofs * (n - 1) + ndofs;
    }
  }

  /** Row m of width ndofs ends where any later row n > m starts. */
  lemma {:induction false} NextRowStart(ndofs: nat, m: nat, n: nat)
    requires m < n
    ensures RowStart(ndofs, m) + ndofs <= RowStart(ndofs, n)
    decreases n
  {
    if m + 1 < n {
      NextRowStart(ndofs, m, n - 1);
    }
  }

  /**
   * The number of DoFs per node: the integer quotient size / nodes, counted by repeated
   * subtraction so that the index arithmetic of the gather stays linear.
   */
  function DofsPerNode(size: nat, nodes: nat): nat
    requires nodes > 0
    decreases size
  {
    if size < nodes then 0 else 1 + DofsPerNode(size - nodes, nodes)
  }

  /** DofsPerNode is the source's unsigned integer division: the largest q with q · nodes <= size. */
  lemma {:induction false} DofsPerNodeIsQuotient(size: nat, nodes: nat)
    requires nodes > 0
    ensures DofsPerNode(size, nodes) * nodes <= size < (DofsPerNode(size, nodes) + 1) * nodes
    decreases size
  {
    if size >= nodes {
      var q := DofsPerNode(size - nodes, nodes);
      DofsPerNodeIsQuotient(size - nodes, nodes);
      assert (q + 1) * nodes == q * nodes + nodes;
      assert (q + 2) * nodes == (q + 1) * nodes + nodes;
    }
  }

  /** With DofsPerNode(size, nodes) DoFs per node, all nodes' rows fit in a vector of the given size. */
  lemma RowsFit(size: nat, numNodes: nat)
    requires numNodes > 0
    ensures RowStart(DofsPerNode(size, numNodes), numNodes) <= size
  {
    DofsPerNodeIsQuotient(size, numNodes);
    RowStartIsProduct(DofsPerNode(size, numNodes), numNodes);
  }

  /** Slots of distinct (node, DoF) pairs are distinct and lie below the end of the last row. */
  lemma {:induction false} SlotsAreDistinct(ndofs: nat, numNodes: nat, n: nat, d: nat, m: nat, e: nat)
    requires n < numNodes && m < numNodes && d < ndofs && e < ndofs
    ensures Slot(ndofs, n, d) < RowStart(ndofs, numNodes)
    ensures Slot(ndofs, n, d) == Slot(ndofs, m, e) ==> n == m && d == e
  {
    NextRowStart(ndofs, n, numNodes);
    if n < m {
      NextRowStart(ndofs, n, m);
    } else if m < n {
      NextRowStart(ndofs, m, n);
    }
  }

  /** The inner DoF loop of DetermineEigenvectorOfElement: entries base .. base+count-1 take the row's first count values. */
  method CopyRow(v: seq<real>, row: seq<real>, base: nat, count: nat) returns (w: seq<real>)
    requires base + count <= |v| && count <= |row|
    ensures |w| == |v|
    ensures forall e :: 0 <= e < count ==> w[base + e] == row[e]
    ensures forall k :: 0 <= k < |v| && (k < base || base + count <= k) ==> w[k] == v[k]
  {
    w := v;
    for d := 0 to count
      invariant |w| == |v|
      invariant forall e :: 0 <= e < d ==> w[base + e] == row[e]
      invariant forall k :: 0 <= k < |v| && (k < base || base + d <= k) ==> w[k] == v[k]
    {
      w := w[base + d := row[d]];
    }
  }

  /**
   * DetermineEigenvectorOfElement: entry dof + ndofs·node is the node matrix entry (id-1, dof),
   * with ndofs = size / number of nodes. The vector is resized without keeping its content, so
   * only the gathered entries are determined.
   */
  method DetermineEigenvectorOfElement(nodeMatrices: seq<Matrix>, id: int, size: nat, previous: seq<real>)
    returns (v: seq<real>)
    requires |nodeMatrices| > 0 && |previous| == size
    requires 1 <= id && forall n :: 0 <= n < |nodeMatrices| ==> id <= |nodeMatrices[n]|
    requires forall n :: 0 <= n < |nodeMatrices| ==> DofsPerNode(size, |nodeMatrices|) <= |nodeMatrices[n][id - 1]|
    ensures |v| == size
    ensures forall n, d :: 0 <= n < |nodeMatrices| && 0 <= d < DofsPerNode(size, |nodeMatrices|) ==>
      Slot(DofsPerNode(size, |nodeMatrices|), n, d) < size &&
      v[Slot(DofsPerNode(size, |nodeMatrices|), n, d)] == nodeMatrices[n][id - 1][d]
  {
    var numNodes := |nodeMatrices|;
    var ndofs := DofsPerNode(size, numNodes);
    RowsFit(size, numNodes);
    assert forall m :: 0 <= m < numNodes ==> 1 <= id <= |nodeMatrices[m]| && ndofs <= |nodeMatrices[m][id - 1]|;
    v := previous;
    var base := 0;
    for n := 0 to numNodes
      invariant |v| == size && base == RowStart(ndofs, n) && base <= size
      invariant forall m, e :: 0 <= m < n && 0 <= e < ndofs ==>
        Slot(ndofs, m, e) < base && v[Slot(ndofs, m, e)] == nodeMatrices[m][id - 1][e]
    {
      NextRowStart(ndofs, n, numNodes);
      ghost var before := v;
      v := CopyRow(v, nodeMatrices[n][id - 1], base, ndofs);
      forall m, e | 0 <= m < n && 0 <= e < ndofs
        ensures v[Slot(ndofs, m, e)] == nodeMatrices[m][id - 1][e]
      {
        assert v[Slot(ndofs, m, e)] == before[Slot(ndofs, m, e)];
      }
      base := base + ndofs;
    }
  }
}
