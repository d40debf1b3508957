/**
  The read-only queries `get_figma_selection` runs over an extracted node tree:
  `countNodes` and `collectAnnotations`, with a pre-order flattening as their reference.
 */
module NodeQueries {
  import opened Options
  import opened NodeModel
  import opened Sequences

  /** `countNodes`: the node itself plus every node below it. */
  function CountNodes(n: NodeData): (c: nat)
    ensures c >= 1
    ensures n.children == [] ==> c == 1
    decreases n
  {
    1 + CountAll(n.children)
  }

  /** The `count += countNodes(child)` loop over a list of children. */
  function CountAll(ns: seq<NodeData>): (c: nat)
    ensures ns == [] ==> c == 0
    ensures ns != [] ==> c >= |ns|
    decreases ns
  {
    if |ns| == 0 then 0 else CountNodes(ns[0]) + CountAll(ns[1..])
  }

  /** Every node of the tree in pre-order: the node, then each child's subtree in order. */
  function Flatten(n: NodeData): (r: seq<NodeData>)
    ensures |r| >= 1 && r[0] == n
    decreases n
  {
    [n] + FlattenAll(n.children)
  }

  function FlattenAll(ns: seq<NodeData>): seq<NodeData>
    decreases ns
  {
    if |ns| == 0 then [] else Flatten(ns[0]) + FlattenAll(ns[1..])
  }

  /** The count is exactly the number of nodes the pre-order walk visits. */
  lemma {:induction false} FlattenMatchesCount(n: NodeData)
    ensures |Flatten(n)| == CountNodes(n)
    decreases n
  {
    FlattenAllMatchesCount(n.children);
  }

  lemma {:induction false} FlattenAllMatchesCount(ns: seq<NodeData>)
    ensures |FlattenAll(ns)| == CountAll(ns)
    decreases ns
  {
    if |ns| > 0 {
      FlattenMatchesCount(ns[0]);
      FlattenAllMatchesCount(ns[1..]);
    }
  }

  /** `if (n.annotation)`: the annotation is present and non-empty. */
  predicate Annotated(n: NodeData) {
    n.annotation.Some? && n.annotation.value != ""
  }

  /** `AnnotationSummary` */
  datatype AnnotationSummary = AnnotationSummary(nodeId: string, nodeName: string, nodeType: string, annotation: string)

  function SummaryOf(n: NodeData): AnnotationSummary
    requires Annotated(n)
  {
    AnnotationSummary(n.id, n.name, n.kind, n.annotation.value)
  }

  /** The summaries of the annotated nodes of `nodes`, in the order of `nodes`. */
  function AnnotationsOf(nodes: seq<NodeData>): (r: seq<AnnotationSummary>)
    ensures |r| <= |nodes|
    ensures forall s :: s in r ==>
      exists m :: m in nodes && Annotated(m) && s == SummaryOf(m)
    ensures forall m :: m in nodes && Annotated(m) ==> SummaryOf(m) in r
    ensures (forall m :: m in nodes ==> !Annotated(m)) ==> r == []
    ensures (forall m :: m in nodes ==> Annotated(m)) ==> |r| == |nodes|
  {
    if |nodes| == 0 then []
    else
      assert forall m :: m in nodes <==> m == nodes[0] || m in nodes[1..];
      (if Annotated(nodes[0]) then [SummaryOf(nodes[0])] else []) + AnnotationsOf(nodes[1..])
  }

  lemma {:induction false} AnnotationsOfAppend(a: seq<NodeData>, b: seq<NodeData>)
    ensures AnnotationsOf(a + b) == AnnotationsOf(a) + AnnotationsOf(b)
    decreases |a|
  {
    if |a| > 0 {
      var head := if Annotated(a[0]) then [SummaryOf(a[0])] else [];
      assert AnnotationsOf(a + b) == head + AnnotationsOf(a[1..] + b) by {
        assert (a + b)[0] == a[0];
        assert (a + b)[1..] == a[1..] + b;
      }
      AnnotationsOfAppend(a[1..], b);
      AppendAssoc(head, AnnotationsOf(a[1..]), AnnotationsOf(b));
    } else {
      assert a + b == b;
      AppendEmpty(AnnotationsOf(b));
    }
  }

  /** The inner `traverse`: push the node's summary, then visit the children in order. */
  function Visit(n: NodeData, acc: seq<AnnotationSummary>): seq<AnnotationSummary>
    decreases n
  {
    VisitAll(n.children, if Annotated(n) then acc + [SummaryOf(n)] else acc)
  }

  function VisitAll(ns: seq<NodeData>, acc: seq<AnnotationSummary>): seq<AnnotationSummary>
    decreases ns
  {
    if |ns| == 0 then acc else VisitAll(ns[1..], Visit(ns[0], acc))
  }

  /** `collectAnnotations`: the summaries of the annotated nodes, in pre-order. */
  function CollectAnnotations(n: NodeData): (r: seq<AnnotationSummary>)
    ensures r == AnnotationsOf(Flatten(n))
  {
    VisitIsPreOrder(n, []);
    AppendEmpty(AnnotationsOf(Flatten(n)));
    Visit(n, [])
  }

  lemma {:induction false} VisitIsPreOrder(n: NodeData, acc: seq<AnnotationSummary>)
    ensures Visit(n, acc) == acc + AnnotationsOf(Flatten(n))
    decreases n
  {
    var own := AnnotationsOf([n]);
    var below := AnnotationsOf(FlattenAll(n.children));
    assert own == (if Annotated(n) then [SummaryOf(n)] else []) by {
      assert [n][1..] == [];
    }
    assert Visit(n, acc) == VisitAll(n.children, acc + own) by {
      if !Annotated(n) {
        AppendEmpty(acc);
      }
    }
    VisitAllIsPreOrder(n.children, acc + own);
    AppendAssoc(acc, own, below);
    AnnotationsOfAppend([n], FlattenAll(n.children));
  }

  lemma {:induction false} VisitAllIsPreOrder(ns: seq<NodeData>, acc: seq<AnnotationSummary>)
    ensures VisitAll(ns, acc) == acc + AnnotationsOf(FlattenAll(ns))
    decreases ns
  {
    if |ns| > 0 {
      var first := AnnotationsOf(Flatten(ns[0]));
      var rest := AnnotationsOf(FlattenAll(ns[1..]));
      VisitIsPreOrder(ns[0], acc);
      VisitAllIsPreOrder(ns[1..], Visit(ns[0], acc));
      AppendAssoc(acc, first, rest);
      AnnotationsOfAppend(Flatten(ns[0]), FlattenAll(ns[1..]));
    } else {
      AppendEmpty(acc);
    }
  }

  /**
    Each summary `collectAnnotations` yields is copied from an annotated node of the
    tree; there are never more summaries than `countNodes` counts, and an annotated
    root comes first.
   */
  lemma {:induction false} CollectAnnotationsSpec(n: NodeData)
    ensures |CollectAnnotations(n)| <= CountNodes(n)
    ensures Annotated(n) ==> |CollectAnnotations(n)| >= 1 && CollectAnnotations(n)[0] == SummaryOf(n)
    ensures forall s :: s in CollectAnnotations(n) ==>
      exists m :: m in Flatten(n) && Annotated(m) &&
        s.nodeId == m.id && s.nodeName == m.name && s.nodeType == m.kind && s.annotation == m.annotation.value
  {
    FlattenMatchesCount(n);
    AnnotationsOfAppend([n], FlattenAll(n.children));
  }
}
