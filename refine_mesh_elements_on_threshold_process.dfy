/**
 * The Delaunay-meshing process that marks for refinement the nodes of the elements whose
 * threshold value exceeds the reference threshold.
 */
module RefineMeshElementsOnThresholdProcess {

  /** The flags of a node that the process reads (BOUNDARY) and sets (TO_REFINE). */
  datatype Node = Node(boundary: bool, toRefine: bool)

  /**
   * An element: the first integration-point value of the threshold variable (the element kernel
   * is not part of this model, so it is given), the domain size (area or volume) of its geometry,
   * and its geometry as indices into the node list.
   */
  datatype Element = Element(pointValue: real, domainSize: real, geometry: seq<nat>)

  /** The refining options of the meshing parameters and the reference threshold. */
  datatype RefineOptions = RefineOptions(addNodes: bool, insertNodes: bool, elementsOnThreshold: bool, threshold: real)

  /** The specific value times the domain size. */
  function ElementValue(e: Element): real {
    e.pointValue * e.domainSize
  }

  /** Whether the element is strictly above the threshold. */
  predicate OverThreshold(e: Element, critical: real) {
    ElementValue(e) > critical
  }

  /** Whether node n belongs to an element of `elements` that is over the threshold. */
  predicate MarkedBy(elements: seq<Element>, critical: real, n: nat) {
    exists k :: 0 <= k < |elements| && OverThreshold(elements[k], critical) && n in elements[k].geometry
  }

  /** The flags after the element loop: a non-boundary node of an element over the threshold gets TO_REFINE. */
  function Refined(node: Node, elements: seq<Element>, critical: real, n: nat): (r: Node)
    ensures r.boundary == node.boundary
    ensures node.toRefine ==> r.toRefine
    ensures node.boundary ==> r == node
    ensures r.toRefine <==> node.toRefine || (!node.boundary && MarkedBy(elements, critical, n))
  {
    node.(toRefine := node.toRefine || (!node.boundary && MarkedBy(elements, critical, n)))
  }

  /** The number of elements strictly above the threshold. */
  function CountOver(elements: seq<Element>, critical: real): nat {
    if |elements| == 0 then 0
    else CountOver(elements[..|elements| - 1], critical) + (if OverThreshold(elements[|elements| - 1], critical) then 1 else 0)
  }

  /** The running maximum of the element values, starting from 0. */
  function MaxValue(elements: seq<Element>): real {
    if |elements| == 0 then 0.0
    else
      var m := MaxValue(elements[..|elements| - 1]);
      var v := ElementValue(elements[|elements| - 1]);
      if v > m then v else m
  }

  /** The count never exceeds the number of elements, and it is zero iff no element is over the threshold. */
  lemma {:induction false} CountOverBounds(elements: seq<Element>, critical: real)
    ensures CountOver(elements, critical) <= |elements|
    ensures CountOver(elements, critical) == 0 <==> forall k :: 0 <= k < |elements| ==> !OverThreshold(elements[k], critical)
  {
    if |elements| > 0 {
      var init := elements[..|elements| - 1];
      CountOverBounds(init, critical);
      assert forall k :: 0 <= k < |init| ==> init[k] == elements[k];
    }
  }

  /** The maximum is max(0, all values): an upper bound that is 0 or one of the values. */
  lemma {:induction false} MaxValueIsMaximum(elements: seq<Element>)
    ensures MaxValue(elements) >= 0.0
    ensures forall k :: 0 <= k < |elements| ==> ElementValue(elements[k]) <= MaxValue(elements)
    ensures MaxValue(elements) == 0.0 || exists k :: 0 <= k < |elements| && MaxValue(elements) == ElementValue(elements[k])
  {
    if |elements| > 0 {
      var init := elements[..|elements| - 1];
      MaxValueIsMaximum(init);
      assert forall k :: 0 <= k < |init| ==> init[k] == elements[k];
      if MaxValue(elements) != 0.0 && MaxValue(elements) != ElementValue(elements[|elements| - 1]) {
        var k :| 0 <= k < |init| && MaxValue(init) == ElementValue(init[k]);
        assert MaxValue(elements) == ElementValue(elements[k]);
      }
    }
  }

  /** Whether every element's geometry refers to nodes of the model part. */
  predicate GeometriesInside(elements: seq<Element>, nodeCount: nat) {
    forall k, j :: 0 <= k < |elements| && 0 <= j < |elements[k].geometry| ==> elements[k].geometry[j] < nodeCount
  }

  class ModelPart {
    var nodes: seq<Node>
    var elements: seq<Element>

    constructor (nodes: seq<Node>, elements: seq<Element>)
      ensures this.nodes == nodes && this.elements == elements
    {
      this.nodes := nodes;
      this.elements := elements;
    }
  }

  class Process {
    const modelPart: ModelPart
    const options: RefineOptions

    constructor (mp: ModelPart, options: RefineOptions)
      ensures modelPart == mp && this.options == options
    {
      modelPart := mp;
      this.options := options;
    }

    /** The inner loop: TO_REFINE on every non-boundary node of one element's geometry. */
    method MarkElementNodes(geometry: seq<nat>)
      requires forall j :: 0 <= j < |geometry| ==> geometry[j] < |modelPart.nodes|
      modifies modelPart
      ensures modelPart.elements == old(modelPart.elements) && |modelPart.nodes| == |old(modelPart.nodes)|
      ensures forall n :: 0 <= n < |modelPart.nodes| ==>
        modelPart.nodes[n] == old(modelPart.nodes)[n].(toRefine :=
          old(modelPart.nodes)[n].toRefine || (!old(modelPart.nodes)[n].boundary && n in geometry))
    {
      ghost var before := modelPart.nodes;
      for j := 0 to |geometry|
        modifies modelPart
        invariant modelPart.elements == old(modelPart.elements) && |modelPart.nodes| == |before|
        invariant forall n :: 0 <= n < |modelPart.nodes| ==>
          modelPart.nodes[n] == before[n].(toRefine := before[n].toRefine || (!before[n].boundary && n in geometry[..j]))
      {
        var n := geometry[j];
        assert geometry[..j + 1] == geometry[..j] + [n];
        if !modelPart.nodes[n].boundary {
          modelPart.nodes := modelPart.nodes[n := modelPart.nodes[n].(toRefine := true)];
        }
      }
      assert geometry[..|geometry|] == geometry;
    }

    /**
     * SetNodesToRefine: one pass over the elements that sets TO_REFINE on the non-boundary nodes
     * of every element strictly above the threshold; `counter` counts those elements and
     * `maxValue` is the largest element value, or 0.
     */
    method SetNodesToRefine() returns (counter: int, maxValue: real)
      requires GeometriesInside(modelPart.elements, |modelPart.nodes|)
      modifies modelPart
      ensures modelPart.elements == old(modelPart.elements) && |modelPart.nodes| == |old(modelPart.nodes)|
      ensures forall n :: 0 <= n < |modelPart.nodes| ==>
        modelPart.nodes[n] == Refined(old(modelPart.nodes)[n], modelPart.elements, options.threshold, n)
      ensures counter == CountOver(modelPart.elements, options.threshold)
      ensures maxValue == MaxValue(modelPart.elements)
    {
      var elements := modelPart.elements;
      var critical := options.threshold;
      ghost var before := modelPart.nodes;
      maxValue := 0.0;
      counter := 0;
      for i := 0 to |elements|
        modifies modelPart
        invariant modelPart.elements == elements && |modelPart.nodes| == |before|
        invariant forall n :: 0 <= n < |modelPart.nodes| ==> modelPart.nodes[n] == Refined(before[n], elements[..i], critical, n)
        invariant counter == CountOver(elements[..i], critical)
        invariant maxValue == MaxValue(elements[..i])
      {
        assert elements[..i + 1][..i] == elements[..i];
        var value := elements[i].pointValue * elements[i].domainSize;
        if value > maxValue {
          maxValue := value;
        }
        if value > critical {
          MarkElementNodes(elements[i].geometry);
          counter := counter + 1;
          forall n | 0 <= n < |modelPart.nodes|
            ensures modelPart.nodes[n] == Refined(before[n], elements[..i + 1], critical, n)
          {
            MarkedByExtend(elements, i, critical, n);
          }
        } else {
          forall n | 0 <= n < |modelPart.nodes|
            ensures modelPart.nodes[n] == Refined(before[n], elements[..i + 1], critical, n)
          {
            MarkedByExtend(elements, i, critical, n);
          }
        }
      }
      assert elements[..|elements|] == elements;
    }

    /**
     * Execute: the nodes are marked only when nodes are added or inserted and refinement on
     * threshold is requested; otherwise nothing changes.
     */
    method Execute()
      requires GeometriesInside(modelPart.elements, |modelPart.nodes|)
      modifies modelPart
      ensures modelPart.elements == old(modelPart.elements) && |modelPart.nodes| == |old(modelPart.nodes)|
      ensures (options.addNodes || options.insertNodes) && options.elementsOnThreshold ==>
        forall n :: 0 <= n < |modelPart.nodes| ==>
          modelPart.nodes[n] == Refined(old(modelPart.nodes)[n], modelPart.elements, options.threshold, n)
      ensures !((options.addNodes || options.insertNodes) && options.elementsOnThreshold) ==>
        modelPart.nodes == old(modelPart.nodes)
    {
      if (options.addNodes || options.insertNodes) && options.elementsOnThreshold {
        var counter, maxValue := SetNodesToRefine();
      }
    }
  }

  /** Extending the element prefix by element i adds its geometry to the marked nodes when it is over the threshold. */
  lemma {:induction false} MarkedByExtend(elements: seq<Element>, i: nat, critical: real, n: nat)
    requires i < |elements|
    ensures MarkedBy(elements[..i + 1], critical, n) <==>
      MarkedBy(elements[..i], critical, n) || (OverThreshold(elements[i], critical) && n in elements[i].geometry)
  {
    var pre := elements[..i];
    var ext := elements[..i + 1];
    assert forall k :: 0 <= k < i ==> ext[k] == pre[k];
    assert ext[i] == elements[i];
    if MarkedBy(ext, critical, n) {
      var k :| 0 <= k < |ext| && OverThreshold(ext[k], critical) && n in ext[k].geometry;
      if k < i {
        assert OverThreshold(pre[k], critical) && n in pre[k].geometry;
      }
    }
    if MarkedBy(pre, critical, n) {
      var k :| 0 <= k < |pre| && OverThreshold(pre[k], critical) && n in pre[k].geometry;
      assert OverThreshold(ext[k], critical) && n in ext[k].geometry;
    }
    if OverThreshold(elements[i], critical) && n in elements[i].geometry {
      assert OverThreshold(ext[i], critical) && n in ext[i].geometry;
    }
  }

  /** Elements at or below the threshold mark nothing: with none over it, the flags are unchanged. */
  lemma {:induction false} NothingOverThresholdChangesNothing(node: Node, elements: seq<Element>, critical: real, n: nat)
    requires forall k :: 0 <= k < |elements| ==> !OverThreshold(elements[k], critical)
    ensures Refined(node, elements, critical, n) == node
  {
  }
}
