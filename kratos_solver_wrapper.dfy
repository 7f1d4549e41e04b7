/**
 * The XMC solver wrapper around a Kratos analysis: the keyword arguments of its constructor,
 * the split of the scalar outputs into batches, the serialization dispatch on the refinement
 * strategy and the levels run by the stochastic adaptive refinement.
 */
module KratosSolverWrapper {
  import opened Wrappers

  /** The keyword arguments the constructor reads (absent keys are None). */
  datatype Arguments = Arguments(
    adaptiveRefinementJumpToFinestLevel: Option<bool>,
    asynchronous: Option<bool>,
    taskAllAtOnce: Option<bool>,
    numberQoI: Option<int>,
    numberCombinedQoi: Option<int>,
    outputBatchSize: Option<int>,
    outputDimension: Option<seq<int>>,
    refinementStrategy: Option<string>,
    solverWrapperIndex: seq<int>)  // set by the base class

  /** The attributes the constructor sets. */
  datatype Wrapper = Wrapper(
    jumpToFinestLevel: bool,
    asynchronous: bool,
    differentTasks: bool,
    numberQoI: int,
    numberCombinedQoi: int,
    outputBatchSize: int,
    outputDimension: seq<int>,
    refinementStrategy: Option<string>,
    solverWrapperIndex: seq<int>)

  function Get<T>(o: Option<T>, default: T): T {
    if o.Some? then o.value else default
  }

  /** _numberOfScalarOutputs. */
  function NumberOfScalarOutputs(w: Wrapper): int {
    w.numberQoI + w.numberCombinedQoi
  }

  // ---------------------------------------------------------------- output batches

  /** int(math.ceil(n / b)) for b != 0, over exact rationals. */
  function BatchCount(n: int, b: int): (m: int)
    requires b != 0
    ensures b > 0 ==> (m - 1) * b < n <= m * b
  {
    if b > 0 then
      var q := (-n) / b;
      assert -n == b * q + (-n) % b;
      -q
    else n / b
  }

  function Min(a: int, b: int): int { if a <= b then a else b }

  /** [min(b, n - i*b) for i in range(ceil(n/b))]; a zero batch size divides by zero. */
  function OutputDimensions(n: int, b: int): (r: Result<seq<int>>)
    ensures r.Err? <==> b == 0
  {
    if b == 0 then Err("division by zero")
    else
      var m := BatchCount(n, b);
      Ok(seq(if m < 0 then 0 else m, i => Min(b, n - i * b)))
  }

  function Sum(s: seq<int>): int {
    if |s| == 0 then 0 else Sum(s[..|s| - 1]) + s[|s| - 1]
  }

  /** Every batch but the last is full, the last is not empty and none is larger than b. */
  lemma {:induction false} OutputDimensionsShape(n: int, b: int)
    requires n >= 0 && b > 0
    ensures var d := OutputDimensions(n, b).value;
      |d| == BatchCount(n, b) &&
      (forall i :: 0 <= i < |d| ==> 0 < d[i] <= b) &&
      (forall i :: 0 <= i < |d| - 1 ==> d[i] == b)
  {
    var d := OutputDimensions(n, b).value;
    var m := BatchCount(n, b);
    assert m >= 0;
    forall i | 0 <= i < |d|
      ensures 0 < d[i] <= b && (i < |d| - 1 ==> d[i] == b)
    {
      assert d[i] == Min(b, n - i * b);
      assert i * b <= (m - 1) * b;
      if i < |d| - 1 {
        assert (i + 1) * b <= (m - 1) * b;
      }
    }
  }

  /** The first k full batches hold k·b outputs. */
  lemma {:induction false} FullBatchesSum(d: seq<int>, b: int, k: nat)
    requires k <= |d| && forall i :: 0 <= i < k ==> d[i] == b
    ensures Sum(d[..k]) == k * b
  {
    if k > 0 {
      FullBatchesSum(d, b, k - 1);
      assert d[..k][..k - 1] == d[..k - 1];
    }
  }

  /** The batches hold exactly the n scalar outputs. */
  lemma {:induction false} OutputDimensionsSum(n: int, b: int)
    requires n >= 0 && b > 0
    ensures Sum(OutputDimensions(n, b).value) == n
  {
    var d := OutputDimensions(n, b).value;
    OutputDimensionsShape(n, b);
    var m := |d|;
    if m > 0 {
      FullBatchesSum(d, b, m - 1);
      assert d[..m][..m - 1] == d[..m - 1];
      assert d[..m] == d;
      assert d[m - 1] == Min(b, n - (m - 1) * b);
      assert n - (m - 1) * b <= b by {
        assert n <= m * b;
      }
    } else {
      assert BatchCount(n, b) == 0;
    }
  }

  // ---------------------------------------------------------------- constructor and serialize

  /** The refinement strategies serialize accepts; all three serialize the same way. */
  predicate KnownStrategy(s: Option<string>) {
    s == Some("stochastic_adaptive_refinement") || s == Some("deterministic_adaptive_refinement") ||
    s == Some("reading_from_file")
  }

  /** serialize: the dispatch on the refinement strategy; any other strategy raises. */
  function Serialize(w: Wrapper): (r: Result<Wrapper>)
    ensures r.Ok? <==> KnownStrategy(w.refinementStrategy)
    ensures r.Ok? ==> r.value == w
  {
    if w.refinementStrategy == Some("stochastic_adaptive_refinement") then Ok(w)
    else if w.refinementStrategy == Some("deterministic_adaptive_refinement") then Ok(w)
    else if w.refinementStrategy == Some("reading_from_file") then Ok(w)
    else Err("unknown refinement strategy")
  }

  /** The attributes read from the keyword arguments, before the outputDimension default. */
  function Attributes(args: Arguments, dims: seq<int>): Wrapper {
    Wrapper(
      Get(args.adaptiveRefinementJumpToFinestLevel, false),
      Get(args.asynchronous, false),
      !Get(args.taskAllAtOnce, false),
      Get(args.numberQoI, 1),
      Get(args.numberCombinedQoi, 0),
      Get(args.outputBatchSize, 1),
      dims,
      args.refinementStrategy,
      if args.solverWrapperIndex == [] then [0] else args.solverWrapperIndex)
  }

  /**
   * __init__: keyword defaults, outputDimension from outputBatchSize when not given, the
   * Monte Carlo index workaround, and serialize in the synchronous framework for index >= 0.
   */
  function Construct(args: Arguments): (r: Result<Wrapper>)
  {
    var w := Attributes(args, []);
    var dims :=
      if args.outputDimension.Some? then Ok(args.outputDimension.value)
      else OutputDimensions(NumberOfScalarOutputs(w), w.outputBatchSize);
    if dims.Err? then Err(dims.message)
    else
      var w := w.(outputDimension := dims.value);
      if w.solverWrapperIndex[0] >= 0 && !w.asynchronous then Serialize(w) else Ok(w)
  }

  /** What the constructor keeps and computes, and when it raises. */
  lemma {:induction false} ConstructResult(args: Arguments)
    ensures var r := Construct(args);
      var n := Get(args.numberQoI, 1) + Get(args.numberCombinedQoi, 0);
      var b := Get(args.outputBatchSize, 1);
      var index := if args.solverWrapperIndex == [] then [0] else args.solverWrapperIndex;
      (r.Err? <==> (args.outputDimension.None? && b == 0) ||
                   (index[0] >= 0 && !Get(args.asynchronous, false) && !KnownStrategy(args.refinementStrategy))) &&
      (r.Ok? ==> r.value.solverWrapperIndex == index && |index| > 0 &&
                 (args.outputDimension.Some? ==> r.value.outputDimension == args.outputDimension.value) &&
                 (args.outputDimension.None? ==> r.value.outputDimension == OutputDimensions(n, b).value) &&
                 r.value.differentTasks == !Get(args.taskAllAtOnce, false))
  {
  }

  // ---------------------------------------------------------------- level selection

  /** Whether local index k runs: every level, or only the coarsest and the current with jump-to-finest. */
  predicate RunsLevel(k: int, currentIndex: int, jumpToFinest: bool) {
    0 <= k <= currentIndex && (!jumpToFinest || k == 0 || k == currentIndex)
  }

  /**
   * The levels run by executeInstanceStochasticAdaptiveRefinement with different tasks: index 0
   * alone for current index 0, otherwise the loop over 0..current_index with its skip test.
   */
  method StochasticRefinementLevels(currentIndex: int, jumpToFinest: bool) returns (run: seq<int>)
    ensures forall k :: k in run <==> RunsLevel(k, currentIndex, jumpToFinest) || (currentIndex == 0 && k == 0)
    ensures forall i, j :: 0 <= i < j < |run| ==> run[i] < run[j]
    ensures currentIndex > 0 && jumpToFinest ==> run == [0, currentIndex]
    ensures currentIndex >= 0 && !jumpToFinest ==> run == seq(currentIndex + 1, k => k)
  {
    if currentIndex == 0 {
      return [0];
    }
    run := [];
    var k := 0;
    while k <= currentIndex
      invariant 0 <= k && (currentIndex >= 0 ==> k <= currentIndex + 1)
      invariant forall j :: j in run <==> 0 <= j < k && RunsLevel(j, currentIndex, jumpToFinest)
      invariant forall i, j :: 0 <= i < j < |run| ==> run[i] < run[j]
      invariant forall i :: 0 <= i < |run| ==> run[i] < k
      invariant jumpToFinest ==> run == (if k == 0 then [] else if k <= currentIndex then [0] else [0, currentIndex])
      invariant !jumpToFinest ==> run == seq(k, j => j)
    {
      if !jumpToFinest || (jumpToFinest && (k == 0 || k == currentIndex)) {
        run := run + [k];
      }
      k := k + 1;
    }
  }
}
