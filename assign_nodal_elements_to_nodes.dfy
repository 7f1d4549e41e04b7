/**
 * The process that assigns nodal concentrated elements to the nodes of a model part: the
 * defaulting of its parameters, the properties it creates, the renumbering of the elements and
 * the two-state ACTIVE flag that follows the activation interval.
 */
module AssignNodalElementsToNodes {
  import opened Wrappers
  import opened Vectors

  /** The upper end of the default interval, 1e30, which stands for "never ends". */
  const IntervalEnd: real := 1000000000000000000000000000000.0

  datatype Interval = Interval(start: real, end: real)

  /** A three-component JSON array whose entries may be null. */
  datatype Triple = Triple(x: Option<real>, y: Option<real>, z: Option<real>)

  const NullTriple: Triple := Triple(None, None, None)

  /**
   * The parameters as given: an absent key is None; `nodalMass` is Some(None) when the key is
   * present with a null value.
   */
  datatype Parameters = Parameters(
    modelPartName: Option<string>,
    rayleighDamping: Option<bool>,
    assignActiveFlagNode: Option<bool>,
    computeCompressionTension: Option<string>,
    interval: Option<Interval>,
    nodalMass: Option<Option<real>>,
    nodalInertia: Option<Triple>,
    nodalStiffness: Option<Triple>,
    nodalRotationalStiffness: Option<Triple>,
    nodalDampingRatio: Option<Triple>,
    nodalRotationalDampingRatio: Option<Triple>)

  /** The parameters after the constructor: every key is present (a null mass is None). */
  datatype Settings = Settings(
    modelPartName: string,
    rayleighDamping: bool,
    assignActiveFlagNode: bool,
    computeCompressionTension: string,
    interval: Interval,
    nodalMass: Option<real>,
    nodalInertia: Triple,
    nodalStiffness: Triple,
    nodalRotationalStiffness: Triple,
    nodalDampingRatio: Triple,
    nodalRotationalDampingRatio: Triple)

  function Get<T>(o: Option<T>, default: T): (v: T) {
    if o.Some? then o.value else default
  }

  /**
   * The constructor's defaulting. Four of the validated keys are copied into the list that is
   * validated, take their defaults there when missing, and are written back; the six nodal keys
   * become null when missing and otherwise keep their values. compute_compression_tension is
   * never copied into the validated list, so the default "compression_and_tension" is written
   * back over whatever the parameters held.
   */
  function WithDefaults(p: Parameters): (s: Settings)
    ensures p.modelPartName.Some? ==> s.modelPartName == p.modelPartName.value
    ensures p.modelPartName.None? ==> s.modelPartName == ""
    ensures p.rayleighDamping.Some? ==> s.rayleighDamping == p.rayleighDamping.value
    ensures p.rayleighDamping.None? ==> !s.rayleighDamping
    ensures p.assignActiveFlagNode.Some? ==> s.assignActiveFlagNode == p.assignActiveFlagNode.value
    ensures p.assignActiveFlagNode.None? ==> s.assignActiveFlagNode
    ensures s.computeCompressionTension == "compression_and_tension"
    ensures p.interval.Some? ==> s.interval == p.interval.value
    ensures p.interval.None? ==> s.interval == Interval(0.0, IntervalEnd)
    ensures p.nodalMass.Some? ==> s.nodalMass == p.nodalMass.value
    ensures p.nodalMass.None? ==> s.nodalMass.None?
    ensures p.nodalInertia.None? ==> s.nodalInertia == NullTriple
    ensures p.nodalStiffness.None? ==> s.nodalStiffness == NullTriple
    ensures p.nodalRotationalStiffness.None? ==> s.nodalRotationalStiffness == NullTriple
    ensures p.nodalDampingRatio.None? ==> s.nodalDampingRatio == NullTriple
    ensures p.nodalRotationalDampingRatio.None? ==> s.nodalRotationalDampingRatio == NullTriple
  {
    Settings(
      Get(p.modelPartName, ""),
      Get(p.rayleighDamping, false),
      Get(p.assignActiveFlagNode, true),
      "compression_and_tension",
      Get(p.interval, Interval(0.0, IntervalEnd)),
      Get(p.nodalMass, None),
      Get(p.nodalInertia, NullTriple),
      Get(p.nodalStiffness, NullTriple),
      Get(p.nodalRotationalStiffness, NullTriple),
      Get(p.nodalDampingRatio, NullTriple),
      Get(p.nodalRotationalDampingRatio, NullTriple))
  }

  /** The parameters that hold every key with the values of s. */
  function Complete(s: Settings): Parameters {
    Parameters(Some(s.modelPartName), Some(s.rayleighDamping), Some(s.assignActiveFlagNode),
               Some(s.computeCompressionTension), Some(s.interval), Some(s.nodalMass),
               Some(s.nodalInertia), Some(s.nodalStiffness), Some(s.nodalRotationalStiffness),
               Some(s.nodalDampingRatio), Some(s.nodalRotationalDampingRatio))
  }

  /**
   * Applying the defaults to complete parameters keeps every key but compute_compression_tension,
   * which becomes "compression_and_tension"; so the defaulting is idempotent.
   */
  lemma {:induction false} WithDefaultsKeepsCompleteParameters(s: Settings)
    ensures WithDefaults(Complete(s)) == s.(computeCompressionTension := "compression_and_tension")
    ensures WithDefaults(Complete(WithDefaults(Complete(s)))) == WithDefaults(Complete(s))
  {
  }

  /** Whatever compute_compression_tension the parameters give, the reference element computes both. */
  lemma {:induction false} CompressionTensionIsAlwaysBoth(p: Parameters)
    ensures CompressionTensionOf(WithDefaults(p).computeCompressionTension) == CompressionAndTension
  {
  }

  // ---------------------------------------------------------------- properties

  /** The properties the process creates; a property that was never set is None. */
  datatype Properties = Properties(
    id: int,
    nodalMass: Option<real>,
    nodalInertia: Option<Vec3>,
    nodalStiffness: Option<Vec3>,
    nodalRotationalStiffness: Option<Vec3>,
    nodalDampingRatio: Option<Vec3>,
    nodalRotationalDampingRatio: Option<Vec3>)

  predicate AnyGiven(t: Triple) {
    t.x.Some? || t.y.Some? || t.z.Some?
  }

  /** A vector property is set only when some component is given; null components become 0.0. */
  function VectorProperty(t: Triple): (r: Option<Vec3>)
    ensures r.Some? <==> AnyGiven(t)
    ensures r.Some? ==> r.value.x == Get(t.x, 0.0) && r.value.y == Get(t.y, 0.0) && r.value.z == Get(t.z, 0.0)
  {
    if AnyGiven(t) then Some(Vec3(Get(t.x, 0.0), Get(t.y, 0.0), Get(t.z, 0.0))) else None
  }

  /** The new properties with id `id`, holding the non-null nodal values of the settings. */
  function NewProperties(id: int, s: Settings): (p: Properties)
    ensures p.id == id && p.nodalMass == s.nodalMass
    ensures p.nodalInertia.Some? <==> AnyGiven(s.nodalInertia)
    ensures p.nodalStiffness.Some? <==> AnyGiven(s.nodalStiffness)
    ensures p.nodalRotationalStiffness.Some? <==> AnyGiven(s.nodalRotationalStiffness)
    ensures p.nodalDampingRatio.Some? <==> AnyGiven(s.nodalDampingRatio)
    ensures p.nodalRotationalDampingRatio.Some? <==> AnyGiven(s.nodalRotationalDampingRatio)
  {
    Properties(id, s.nodalMass, VectorProperty(s.nodalInertia), VectorProperty(s.nodalStiffness),
               VectorProperty(s.nodalRotationalStiffness), VectorProperty(s.nodalDampingRatio),
               VectorProperty(s.nodalRotationalDampingRatio))
  }

  // ---------------------------------------------------------------- the reference element

  datatype CompressionTension = Compression | Tension | CompressionAndTension

  /** "compression" and "tension" select their mode; any other string both. */
  function CompressionTensionOf(s: string): (m: CompressionTension)
    ensures m == Compression <==> s == "compression"
    ensures m == Tension <==> s == "tension"
    ensures m == CompressionAndTension <==> s != "compression" && s != "tension"
  {
    if s == "compression" then Compression else if s == "tension" then Tension else CompressionAndTension
  }

  /** The configuration of the reference nodal concentrated element. */
  datatype ReferenceElement = ReferenceElement(rayleighDamping: bool, assignActiveFlagNode: bool, mode: CompressionTension)

  // ---------------------------------------------------------------- elements and the ACTIVE toggle

  /**
   * An element: its id, its ACTIVE flag, its INITIAL_DISPLACEMENT / INITIAL_ROTATION values
   * (None when the element does not hold them), and the current DISPLACEMENT and ROTATION of the
   * first node of its geometry.
   */
  datatype Element = Element(
    id: int,
    active: bool,
    initialDisplacement: Option<Vec3>,
    initialRotation: Option<Vec3>,
    displacement: Vec3,
    rotation: Vec3)

  /** The interval check: a start after 0 or an end before 1e30 is a non-default interval. */
  predicate NonDefaultInterval(i: Interval) {
    i.start > 0.0 || i.end < IntervalEnd
  }

  /** An element that held initial values now holds the current displacement and rotation. */
  function RecordInitialValues(e: Element): (r: Element)
    ensures r.id == e.id && r.active == e.active && r.displacement == e.displacement && r.rotation == e.rotation
    ensures r.initialDisplacement.Some? <==> e.initialDisplacement.Some?
    ensures r.initialRotation.Some? <==> e.initialRotation.Some?
    ensures r.initialDisplacement.Some? ==> r.initialDisplacement.value == e.displacement
    ensures r.initialRotation.Some? ==> r.initialRotation.value == e.rotation
  {
    e.(initialDisplacement := if e.initialDisplacement.Some? then Some(e.displacement) else None,
       initialRotation := if e.initialRotation.Some? then Some(e.rotation) else None)
  }

  /** The process flag together with the elements of its model part. */
  datatype Activation = Activation(active: bool, elements: seq<Element>)

  /** One ExecuteInitializeSolutionStep on the process flag and the elements. */
  function Step(interval: Interval, s: Activation): (r: Activation)
    ensures r.active == NonDefaultInterval(interval)
    ensures |r.elements| == |s.elements|
    ensures forall i :: 0 <= i < |r.elements| ==> r.elements[i].id == s.elements[i].id
    ensures r != s ==> forall i :: 0 <= i < |r.elements| ==> r.elements[i].active == r.active
  {
    if NonDefaultInterval(interval) then
      if !s.active then
        Activation(true, seq(|s.elements|, i requires 0 <= i < |s.elements| => RecordInitialValues(s.elements[i]).(active := true)))
      else s
    else if s.active then
      Activation(false, seq(|s.elements|, i requires 0 <= i < |s.elements| => s.elements[i].(active := false)))
    else s
  }

  /** Repeating the step changes nothing: once the flag follows the interval, the toggle is idle. */
  lemma {:induction false} StepIsIdempotent(interval: Interval, s: Activation)
    ensures Step(interval, Step(interval, s)) == Step(interval, s)
  {
  }

  /** After the step that follows ExecuteInitialize every element's flag equals the process flag. */
  lemma {:induction false} StepAfterInitializeAgrees(interval: Interval, elements: seq<Element>)
    requires forall i :: 0 <= i < |elements| ==> !elements[i].active
    ensures var r := Step(interval, Activation(false, elements));
      forall i :: 0 <= i < |r.elements| ==> r.elements[i].active == r.active
  {
  }

  // ---------------------------------------------------------------- the process

  /**
   * The model part the process runs on. It stands for both the root model part (whose property
   * and element counts the source reads) and the part named by model_part_name (which receives
   * the properties and whose elements are renumbered): the two coincide when the name is empty.
   */
  class ModelPart {
    var properties: seq<Properties>
    var elements: seq<Element>

    constructor (properties: seq<Properties>, elements: seq<Element>)
      ensures this.properties == properties && this.elements == elements
    {
      this.properties := properties;
      this.elements := elements;
    }
  }

  class Process {
    const modelPart: ModelPart
    const settings: Settings
    var active: bool

    /** What the constructor's defaulting guarantees of every process: both modes are computed. */
    predicate Valid() {
      settings.computeCompressionTension == "compression_and_tension"
    }

    /** The constructor completes the parameters; the process flag starts unset. */
    constructor (mp: ModelPart, parameters: Parameters)
      ensures modelPart == mp && settings == WithDefaults(parameters) && !active && Valid()
    {
      modelPart := mp;
      settings := WithDefaults(parameters);
      active := false;
    }

    /** VariableUtils().SetFlag(ACTIVE, value, elements). */
    method SetElementsActive(value: bool)
      modifies modelPart
      ensures modelPart.properties == old(modelPart.properties)
      ensures |modelPart.elements| == |old(modelPart.elements)|
      ensures forall i :: 0 <= i < |modelPart.elements| ==>
        modelPart.elements[i] == old(modelPart.elements)[i].(active := value)
    {
      ghost var before := modelPart.elements;
      var i := 0;
      while i < |modelPart.elements|
        modifies modelPart
        invariant 0 <= i <= |modelPart.elements| == |before|
        invariant modelPart.properties == old(modelPart.properties)
        invariant forall k :: 0 <= k < i ==> modelPart.elements[k] == before[k].(active := value)
        invariant forall k :: i <= k < |modelPart.elements| ==> modelPart.elements[k] == before[k]
      {
        modelPart.elements := modelPart.elements[i := modelPart.elements[i].(active := value)];
        i := i + 1;
      }
    }

    /** The renumbering loop: element i gets id i + 1, in iteration order. */
    method RenumberElements()
      modifies modelPart
      ensures modelPart.properties == old(modelPart.properties)
      ensures |modelPart.elements| == |old(modelPart.elements)|
      ensures forall i :: 0 <= i < |modelPart.elements| ==>
        modelPart.elements[i] == old(modelPart.elements)[i].(id := i + 1)
    {
      ghost var before := modelPart.elements;
      var i := 0;
      while i < |modelPart.elements|
        modifies modelPart
        invariant 0 <= i <= |modelPart.elements| == |before|
        invariant modelPart.properties == old(modelPart.properties)
        invariant forall k :: 0 <= k < i ==> modelPart.elements[k] == before[k].(id := k + 1)
        invariant forall k :: i <= k < |modelPart.elements| ==> modelPart.elements[k] == before[k]
      {
        modelPart.elements := modelPart.elements[i := modelPart.elements[i].(id := i + 1)];
        i := i + 1;
      }
    }

    /**
     * ExecuteInitialize: new properties with the next id, the elements renumbered 1..n, the
     * reference element configured from the settings (so always for compression and tension), no element added (the created elements are
     * never put into the buffer that is added), and the elements and the process not ACTIVE.
     */
    method ExecuteInitialize() returns (reference: ReferenceElement)
      requires Valid()
      modifies this, modelPart
      ensures modelPart.properties == old(modelPart.properties) + [NewProperties(|old(modelPart.properties)| + 1, settings)]
      ensures |modelPart.elements| == |old(modelPart.elements)|
      ensures forall i :: 0 <= i < |modelPart.elements| ==>
        modelPart.elements[i] == old(modelPart.elements)[i].(id := i + 1, active := false)
      ensures reference == ReferenceElement(settings.rayleighDamping, settings.assignActiveFlagNode,
                                            CompressionTensionOf(settings.computeCompressionTension))
      ensures reference.mode == CompressionAndTension
      ensures !active
    {
      var numberProperties := |modelPart.properties|;
      var props := NewProperties(numberProperties + 1, settings);
      modelPart.properties := modelPart.properties + [props];
      RenumberElements();
      var mode := CompressionTensionOf(settings.computeCompressionTension);
      reference := ReferenceElement(settings.rayleighDamping, settings.assignActiveFlagNode, mode);
      // InitializeElements: Element::Initialize is not part of this model; then inactive by default.
      SetElementsActive(false);
      active := false;
    }

    /** The loop that records the initial displacement and rotation of every element. */
    method RecordAllInitialValues()
      modifies modelPart
      ensures modelPart.properties == old(modelPart.properties)
      ensures |modelPart.elements| == |old(modelPart.elements)|
      ensures forall i :: 0 <= i < |modelPart.elements| ==>
        modelPart.elements[i] == RecordInitialValues(old(modelPart.elements)[i])
    {
      ghost var before := modelPart.elements;
      var i := 0;
      while i < |modelPart.elements|
        modifies modelPart
        invariant 0 <= i <= |modelPart.elements| == |before|
        invariant modelPart.properties == old(modelPart.properties)
        invariant forall k :: 0 <= k < i ==> modelPart.elements[k] == RecordInitialValues(before[k])
        invariant forall k :: i <= k < |modelPart.elements| ==> modelPart.elements[k] == before[k]
      {
        var e := modelPart.elements[i];
        if e.initialDisplacement.Some? {
          e := e.(initialDisplacement := Some(e.displacement));
        }
        if e.initialRotation.Some? {
          e := e.(initialRotation := Some(e.rotation));
        }
        modelPart.elements := modelPart.elements[i := e];
        i := i + 1;
      }
    }

    /** ExecuteInitializeSolutionStep: the ACTIVE toggle driven by the interval. */
    method ExecuteInitializeSolutionStep()
      modifies this, modelPart
      ensures modelPart.properties == old(modelPart.properties)
      ensures Activation(active, modelPart.elements) == Step(settings.interval, Activation(old(active), old(modelPart.elements)))
    {
      ghost var before := modelPart.elements;
      if settings.interval.start > 0.0 || settings.interval.end < IntervalEnd {
        if !active {
          RecordAllInitialValues();
          SetElementsActive(true);
          active := true;
        }
      } else {
        if active {
          SetElementsActive(false);
          active := false;
        }
      }
    }

    /**
     * Execute: ExecuteInitialize followed by ExecuteInitializeSolutionStep; afterwards the
     * elements are numbered 1..n and every element's flag equals the process flag, which is set
     * exactly when the interval is not the default one.
     */
    method Execute()
      requires Valid()
      modifies this, modelPart
      ensures |modelPart.elements| == |old(modelPart.elements)|
      ensures active == NonDefaultInterval(settings.interval)
      ensures forall i :: 0 <= i < |modelPart.elements| ==>
        modelPart.elements[i].id == i + 1 && modelPart.elements[i].active == active
    {
      var reference := ExecuteInitialize();
      ghost var initialized := modelPart.elements;
      StepAfterInitializeAgrees(settings.interval, initialized);
      ExecuteInitializeSolutionStep();
    }
  }
}
