/**
  The plugin's extractor: turning a host scene node into `NodeData`, converting colours,
  the icon heuristic, and planning which assets `exportAssets` yields for a tree.

  The host node is an abstract input record (`SceneNode`); the host's `exportAsync`
  is the `Exporter` parameter, whose `None` stands for a rejected export (the source
  catches it, logs it and skips that asset). Every call is asked separately (`ExportCall`),
  so the exports of one node fail or succeed independently.
 */
module Extractor {
  import opened Options
  import opened Strings
  import opened NodeModel
  import opened FileNames
  import NodeQueries
  import opened Sequences

  /** `cornerRadius` on the host node: absent, a number, or `figma.mixed`. */
  datatype RadiusField = NoRadius | NumberRadius(radius: real) | MixedRadius

  /** A host paint: only the fields the extractor branches on. */
  datatype Paint = Paint(kind: string, visible: Option<bool>)

  /** The host `SceneNode`, as far as the extractor reads it. `fills` is `None` when the
      node has no fills array (absent or `figma.mixed`); `isContainer` is `'children' in node`
      (`children` is empty otherwise). `pluginAnnotation` is `getPluginData('ai-annotation')`,
      `""` when unset. */
  datatype SceneNode = SceneNode(
    id: string,
    name: string,
    kind: string,
    visible: bool,
    width: real,
    height: real,
    pluginAnnotation: string,
    fills: Option<seq<Paint>>,
    cornerRadius: RadiusField,
    corners: Corners,
    isContainer: bool,
    children: seq<SceneNode>)

  // ---------------------------------------------------------------------------
  // Colours
  // ---------------------------------------------------------------------------

  /** The host `RGB | RGBA`: `a` is `None` for a plain RGB value. */
  datatype HostColor = HostColor(r: real, g: real, b: real, a: Option<real>)

  /** `FigmaColor` as `convertColor` fills it: alpha is always set. */
  datatype Color = Color(r: real, g: real, b: real, a: real)

  /** `convertColor`: channels copied, alpha copied or opaque by default. */
  function ConvertColor(c: HostColor): (r: Color)
    ensures r.r == c.r && r.g == c.g && r.b == c.b
    ensures c.a.Some? ==> r.a == c.a.value
    ensures c.a.None? ==> r.a == 1.0
  {
    Color(c.r, c.g, c.b, if c.a.Some? then c.a.value else 1.0)
  }

  /** A converted colour handed back as an RGBA value converts to itself, and an RGBA
      input is converted without loss. */
  lemma ConvertColorRoundTrip(c: HostColor)
    ensures var k := ConvertColor(c); ConvertColor(HostColor(k.r, k.g, k.b, Some(k.a))) == k
    ensures c.a.Some? ==> var k := ConvertColor(c); HostColor(k.r, k.g, k.b, Some(k.a)) == c
  {
  }

  // ---------------------------------------------------------------------------
  // extractNodeData
  // ---------------------------------------------------------------------------

  /** The visible members of `cs`, in order (`.filter((child) => child.visible)`). */
  function VisibleOf(cs: seq<SceneNode>): (r: seq<SceneNode>)
    ensures |r| <= |cs|
    ensures forall c :: c in r <==> c in cs && c.visible
    ensures (forall c :: c in cs ==> c.visible) ==> r == cs
  {
    if |cs| == 0 then []
    else
      assert forall c :: c in cs <==> c == cs[0] || c in cs[1..];
      (if cs[0].visible then [cs[0]] else []) + VisibleOf(cs[1..])
  }

  /** The filter keeps order: filtering a concatenation concatenates the filtered parts. */
  lemma {:induction false} VisibleOfAppend(a: seq<SceneNode>, b: seq<SceneNode>)
    ensures VisibleOf(a + b) == VisibleOf(a) + VisibleOf(b)
    decreases |a|
  {
    if |a| > 0 {
      var head := if a[0].visible then [a[0]] else [];
      assert VisibleOf(a + b) == head + VisibleOf(a[1..] + b) by {
        assert (a + b)[0] == a[0];
        assert (a + b)[1..] == a[1..] + b;
      }
      VisibleOfAppend(a[1..], b);
      AppendAssoc(head, VisibleOf(a[1..]), VisibleOf(b));
    } else {
      assert a + b == b;
      AppendEmpty(VisibleOf(b));
    }
  }

  /** `extractNodeData`, restricted to identity, size, annotation, corner radius and children. */
  function ExtractNodeData(n: SceneNode): (r: NodeData)
    ensures r.id == n.id && r.name == n.name && r.kind == n.kind && r.visible == n.visible
    ensures r.width == n.width && r.height == n.height
    ensures r.annotation.Some? <==> n.pluginAnnotation != ""
    ensures r.annotation.Some? ==> r.annotation.value == n.pluginAnnotation
    ensures r.cornerRadius == Some(Mixed) <==> n.cornerRadius.MixedRadius?
    ensures r.corners.Some? <==> n.cornerRadius.MixedRadius?
    ensures r.corners.Some? ==> r.corners.value == n.corners
    ensures n.isContainer ==> r.children == ExtractChildren(n.children)
    ensures !n.isContainer ==> r.children == []
    ensures n.cornerRadius.NumberRadius? ==> r.cornerRadius == Some(Uniform(n.cornerRadius.radius))
    ensures n.cornerRadius.NoRadius? ==> r.cornerRadius.None?
    ensures forall c :: c in r.children ==> c.visible
    decreases n, 1
  {
    NodeData(
      n.id, n.name, n.kind, n.visible, n.width, n.height,
      if n.pluginAnnotation != "" then Some(n.pluginAnnotation) else None,
      match n.cornerRadius
      case NoRadius => None
      case NumberRadius(x) => Some(Uniform(x))
      case MixedRadius => Some(Mixed),
      if n.cornerRadius.MixedRadius? then Some(n.corners) else None,
      if n.isContainer then ExtractChildren(n.children) else [])
  }

  /** `.filter((child) => child.visible).map(extractNodeData)` */
  function ExtractChildren(cs: seq<SceneNode>): (r: seq<NodeData>)
    ensures |r| == |VisibleOf(cs)|
    ensures forall c :: c in r ==> c.visible
    decreases cs, 0
  {
    if |cs| == 0 then []
    else (if cs[0].visible then [ExtractNodeData(cs[0])] else []) + ExtractChildren(cs[1..])
  }

  /** The extracted children are exactly the visible children, extracted, in their order. */
  lemma {:induction false} ExtractChildrenKeepsVisibleInOrder(cs: seq<SceneNode>)
    ensures forall i :: 0 <= i < |ExtractChildren(cs)| ==>
      ExtractChildren(cs)[i] == ExtractNodeData(VisibleOf(cs)[i])
  {
    if |cs| > 0 {
      ExtractChildrenKeepsVisibleInOrder(cs[1..]);
    }
  }

  /** The number of host nodes in a scene subtree, hidden ones included. */
  function SceneCount(n: SceneNode): nat
    decreases n, 1
  {
    1 + if n.isContainer then SceneCountAll(n.children) else 0
  }

  function SceneCountAll(cs: seq<SceneNode>): nat
    decreases cs, 0
  {
    if |cs| == 0 then 0 else SceneCount(cs[0]) + SceneCountAll(cs[1..])
  }

  /** Extraction drops hidden subtrees, so the extracted tree never counts more nodes
      than the scene it came from. */
  lemma {:induction false} ExtractNeverGrows(n: SceneNode)
    ensures NodeQueries.CountNodes(ExtractNodeData(n)) <= SceneCount(n)
    decreases n, 1
  {
    if n.isContainer {
      ExtractChildrenNeverGrow(n.children);
    }
  }

  lemma {:induction false} ExtractChildrenNeverGrow(cs: seq<SceneNode>)
    ensures NodeQueries.CountAll(ExtractChildren(cs)) <= SceneCountAll(cs)
    decreases cs, 0
  {
    if |cs| > 0 {
      ExtractChildrenNeverGrow(cs[1..]);
      var xs := ExtractChildren(cs);
      if cs[0].visible {
        ExtractNeverGrows(cs[0]);
        assert xs[0] == ExtractNodeData(cs[0]) && xs[1..] == ExtractChildren(cs[1..]);
      } else {
        assert xs == ExtractChildren(cs[1..]);
      }
    }
  }

  /** Every node below the root of an extracted tree is visible. */
  lemma {:induction false} ExtractedDescendantsVisible(n: SceneNode)
    ensures forall m :: m in NodeQueries.Flatten(ExtractNodeData(n))[1..] ==> m.visible
    decreases n, 1
  {
    assert NodeQueries.Flatten(ExtractNodeData(n))[1..] == NodeQueries.FlattenAll(ExtractNodeData(n).children);
    if n.isContainer {
      ExtractedChildrenVisible(n.children);
    }
  }

  lemma {:induction false} ExtractedChildrenVisible(cs: seq<SceneNode>)
    ensures forall m :: m in NodeQueries.FlattenAll(ExtractChildren(cs)) ==> m.visible
    decreases cs, 0
  {
    if |cs| > 0 {
      ExtractedChildrenVisible(cs[1..]);
      var xs := ExtractChildren(cs);
      if cs[0].visible {
        var x := ExtractNodeData(cs[0]);
        ExtractedDescendantsVisible(cs[0]);
        assert xs[0] == x && xs[1..] == ExtractChildren(cs[1..]);
        assert NodeQueries.Flatten(x) == [x] + NodeQueries.Flatten(x)[1..];
      } else {
        assert xs == ExtractChildren(cs[1..]);
      }
    }
  }

  // ---------------------------------------------------------------------------
  // isLikelyIcon
  // ---------------------------------------------------------------------------

  const MaxIconSize: real := 64.0

  /** The alternatives of `/icon|ico|arrow|chevron|check|close|menu|plus|minus|search/i`. */
  const IconKeywords: seq<string> :=
    ["icon", "ico", "arrow", "chevron", "check", "close", "menu", "plus", "minus", "search"]

  /** The name hint: some keyword occurs in the name, ignoring case. */
  predicate HasIconHint(name: string) {
    exists k | 0 <= k < |IconKeywords| :: Contains(Lower(name), IconKeywords[k])
  }

  /** `isLikelyIcon`: anything within 64 by 64 is an icon; a larger node is one only by its name. */
  function IsLikelyIcon(width: real, height: real, name: string): (b: bool)
    ensures width <= MaxIconSize && height <= MaxIconSize ==> b
    ensures (width > MaxIconSize || height > MaxIconSize) ==> (b <==> HasIconHint(name))
    ensures Contains(Lower(name), "icon") ==> b
  {
    assert IconKeywords[0] == "icon";
    (width <= MaxIconSize && height <= MaxIconSize) || HasIconHint(name)
  }

  /** The regular-expression test as a scan: at each position try each alternative. */
  method ScanIconHint(name: string) returns (found: bool)
    ensures found <==> HasIconHint(name)
  {
    var s := Lower(name);
    found := false;
    var p := 0;
    while p <= |s| && !found
      invariant 0 <= p <= |s| + 1
      invariant found ==> HasIconHint(name)
      invariant !found ==> forall q, k :: 0 <= q < p && 0 <= k < |IconKeywords| ==> !OccursAt(s, IconKeywords[k], q)
      decreases |s| + 1 - p, if found then 0 else 1
    {
      var k := 0;
      while k < |IconKeywords| && !found
        invariant 0 <= k <= |IconKeywords|
        invariant found ==> HasIconHint(name)
        invariant !found ==> forall j :: 0 <= j < k ==> !OccursAt(s, IconKeywords[j], p)
        decreases |IconKeywords| - k, if found then 0 else 1
      {
        var kw := IconKeywords[k];
        if p + |kw| <= |s| && s[p..p + |kw|] == kw {
          assert OccursAt(s, kw, p);
          found := true;
        } else {
          k := k + 1;
        }
      }
      if !found {
        p := p + 1;
      }
    }
    if !found {
      forall k | 0 <= k < |IconKeywords|
        ensures !Contains(s, IconKeywords[k])
      {
        assert forall q :: 0 <= q <= |s| - |IconKeywords[k]| ==> !OccursAt(s, IconKeywords[k], q);
      }
    }
  }

  /** The heuristic ignores case, and "ico" makes the "icon" alternative redundant. */
  lemma IconHintProperties(name: string)
    ensures HasIconHint(Upper(name)) == HasIconHint(name)
    ensures HasIconHint(name) <==> exists k | 1 <= k < |IconKeywords| :: Contains(Lower(name), IconKeywords[k])
  {
    LowerOfUpper(name);
    var s := Lower(name);
    if Contains(s, "icon") {
      var i :| 0 <= i <= |s| - 4 && OccursAt(s, "icon", i);
      assert s[i..i + 3] == s[i..i + 4][..3];
      assert OccursAt(s, IconKeywords[1], i);
    }
  }

  // ---------------------------------------------------------------------------
  // exportAssets
  // ---------------------------------------------------------------------------

  /** Which `exportAsync` call of a node is meant: the one made for the fill at `index` of
      the node's fills, the SVG of a vector node, or the PNG of an `export/` node. Each call
      sits in its own `try`, so each succeeds or fails on its own. */
  datatype ExportCall = FillCall(index: nat) | VectorCall | MarkerCall

  /** One `exportAsync` call: PNG at scale 2, or SVG. */
  datatype ExportRequest = ExportRequest(nodeId: string, format: AssetFormat, call: ExportCall)

  /** The host export: the encoded data (base64 for PNG, text for SVG), or `None` when it rejects. */
  type Exporter = ExportRequest -> Option<string>

  /** `fill.type === 'IMAGE' && fill.visible !== false` */
  predicate IsImageFill(p: Paint) {
    p.kind == "IMAGE" && p.visible != Some(false)
  }

  /** How many of the fills are visible image fills, that is how many exports step 1 tries. */
  function ImageFillCount(fills: seq<Paint>): (c: nat)
    ensures c <= |fills|
  {
    if |fills| == 0 then 0
    else ImageFillCount(fills[..|fills| - 1]) + (if IsImageFill(fills[|fills| - 1]) then 1 else 0)
  }

  /** The outcome of the export step 1 makes for the fill at `index`. */
  function FillExport(n: SceneNode, index: nat, ex: Exporter): Option<string> {
    ex(ExportRequest(n.id, Png, FillCall(index)))
  }

  /** One PNG `'image'` asset named `nodeName`, if the export `call` succeeds. */
  function PngAsset(n: SceneNode, nodeName: string, call: ExportCall, ex: Exporter): seq<AssetExport> {
    match ex(ExportRequest(n.id, Png, call))
    case Some(data) => [AssetExport(Image, n.id, nodeName, Png, data, None, Usage(n.width, n.height))]
    case None => []
  }

  /** The loop of step 1: for each visible image fill, in order, the PNG of its own export. */
  function FillExports(n: SceneNode, fills: seq<Paint>, ex: Exporter): seq<AssetExport>
    decreases |fills|
  {
    if |fills| == 0 then []
    else
      var k := |fills| - 1;
      FillExports(n, fills[..k], ex)
      + (if IsImageFill(fills[k]) then PngAsset(n, Sanitize(n.name), FillCall(k), ex) else [])
  }

  /** Every visible image fill's export succeeds. */
  predicate AllFillExportsSucceed(n: SceneNode, fills: seq<Paint>, ex: Exporter) {
    forall i :: 0 <= i < |fills| && IsImageFill(fills[i]) ==> FillExport(n, i, ex).Some?
  }

  /** Every visible image fill's export rejects. */
  predicate AllFillExportsReject(n: SceneNode, fills: seq<Paint>, ex: Exporter) {
    forall i :: 0 <= i < |fills| && IsImageFill(fills[i]) ==> FillExport(n, i, ex).None?
  }

  /** Step 1 yields at most one PNG per visible image fill. */
  lemma {:induction false} FillExportsBound(n: SceneNode, fills: seq<Paint>, ex: Exporter)
    ensures |FillExports(n, fills, ex)| <= ImageFillCount(fills)
    decreases |fills|
  {
    if |fills| > 0 {
      FillExportsBound(n, fills[..|fills| - 1], ex);
    }
  }

  /** When every export of step 1 succeeds, each visible image fill yields its PNG. */
  lemma {:induction false} FillExportsAllSucceed(n: SceneNode, fills: seq<Paint>, ex: Exporter)
    ensures AllFillExportsSucceed(n, fills, ex) ==> |FillExports(n, fills, ex)| == ImageFillCount(fills)
    decreases |fills|
  {
    if |fills| > 0 && AllFillExportsSucceed(n, fills, ex) {
      var init := fills[..|fills| - 1];
      assert AllFillExportsSucceed(n, init, ex) by {
        assert forall i :: 0 <= i < |init| ==> init[i] == fills[i];
      }
      FillExportsAllSucceed(n, init, ex);
    }
  }

  /** When every export of step 1 rejects, step 1 yields nothing. */
  lemma {:induction false} FillExportsAllReject(n: SceneNode, fills: seq<Paint>, ex: Exporter)
    ensures AllFillExportsReject(n, fills, ex) ==> FillExports(n, fills, ex) == []
    decreases |fills|
  {
    if |fills| > 0 && AllFillExportsReject(n, fills, ex) {
      var init := fills[..|fills| - 1];
      assert AllFillExportsReject(n, init, ex) by {
        assert forall i :: 0 <= i < |init| ==> init[i] == fills[i];
      }
      FillExportsAllReject(n, init, ex);
    }
  }

  /** Every asset of step 1 is a PNG image named after the node, holding the data of the
      export made for one of its visible image fills. */
  lemma {:induction false} FillExportsFrom(n: SceneNode, fills: seq<Paint>, ex: Exporter)
    ensures forall a :: a in FillExports(n, fills, ex) ==>
      && a.kind == Image && a.format == Png && a.nodeId == n.id && a.nodeName == Sanitize(n.name)
      && exists i :: 0 <= i < |fills| && IsImageFill(fills[i]) && FillExport(n, i, ex) == Some(a.data)
    decreases |fills|
  {
    if |fills| > 0 {
      var k := |fills| - 1;
      var init := fills[..k];
      FillExportsFrom(n, init, ex);
      assert forall i :: 0 <= i < k ==> init[i] == fills[i];
    }
  }

  /** Step 1: one PNG per visible image fill whose own export succeeds. */
  function FillAssets(n: SceneNode, fills: seq<Paint>, ex: Exporter): (r: seq<AssetExport>)
    ensures |r| <= ImageFillCount(fills)
    ensures AllFillExportsSucceed(n, fills, ex) ==> |r| == ImageFillCount(fills)
    ensures AllFillExportsReject(n, fills, ex) ==> r == []
    ensures forall a :: a in r ==>
      && a.kind == Image && a.format == Png && a.nodeId == n.id && a.nodeName == Sanitize(n.name)
      && exists i :: 0 <= i < |fills| && IsImageFill(fills[i]) && FillExport(n, i, ex) == Some(a.data)
  {
    FillExportsBound(n, fills, ex);
    FillExportsAllSucceed(n, fills, ex);
    FillExportsAllReject(n, fills, ex);
    FillExportsFrom(n, fills, ex);
    FillExports(n, fills, ex)
  }

  predicate IsVectorKind(kind: string) {
    kind == "VECTOR" || kind == "BOOLEAN_OPERATION"
  }

  /** Step 2: one SVG for a vector node, an inline `'icon'` when it looks like one, else a `'vector'`. */
  function VectorAssets(n: SceneNode, ex: Exporter): (r: seq<AssetExport>)
    ensures |r| <= 1
    ensures |r| == 1 <==> IsVectorKind(n.kind) && ex(ExportRequest(n.id, Svg, VectorCall)).Some?
    ensures forall a :: a in r ==>
      && a.format == Svg && a.nodeId == n.id && a.nodeName == Sanitize(n.name)
      && (a.kind == Icon <==> IsLikelyIcon(n.width, n.height, n.name))
      && a.kind != Image
      && a.inline == Some(IsLikelyIcon(n.width, n.height, n.name))
  {
    if !IsVectorKind(n.kind) then []
    else
      var icon := IsLikelyIcon(n.width, n.height, n.name);
      match ex(ExportRequest(n.id, Svg, VectorCall))
      case Some(data) =>
        [AssetExport(if icon then Icon else Vector, n.id, Sanitize(n.name), Svg, data, Some(icon), Usage(n.width, n.height))]
      case None => []
  }

  const ExportPrefix: string := "export/"

  /** Step 3: one PNG for a node whose name starts with `export/`, named after the rest. */
  function MarkedAssets(n: SceneNode, ex: Exporter): (r: seq<AssetExport>)
    ensures |r| <= 1
    ensures |r| == 1 <==> StartsWith(n.name, ExportPrefix) && ex(ExportRequest(n.id, Png, MarkerCall)).Some?
    ensures forall a :: a in r ==>
      && a.kind == Image && a.format == Png && a.nodeId == n.id
      && a.nodeName == Sanitize(n.name[|ExportPrefix|..])
  {
    // `name.replace('export/', '')` removes the first occurrence, which is the prefix.
    if StartsWith(n.name, ExportPrefix) then PngAsset(n, Sanitize(n.name[|ExportPrefix|..]), MarkerCall, ex) else []
  }

  /** Everything one node contributes, in the order of the three steps. */
  function NodeAssets(n: SceneNode, ex: Exporter): (r: seq<AssetExport>)
    ensures forall a :: a in r ==> a.nodeId == n.id
  {
    (match n.fills
     case Some(fs) => FillAssets(n, fs, ex)
     case None => [])
    + VectorAssets(n, ex) + MarkedAssets(n, ex)
  }

  /** The inner `traverse`: push the node's assets, then visit every child, hidden ones too. */
  function Traverse(n: SceneNode, ex: Exporter, acc: seq<AssetExport>): seq<AssetExport>
    decreases n, 1
  {
    if n.isContainer then TraverseAll(n.children, ex, acc + NodeAssets(n, ex))
    else acc + NodeAssets(n, ex)
  }

  function TraverseAll(cs: seq<SceneNode>, ex: Exporter, acc: seq<AssetExport>): seq<AssetExport>
    decreases cs, 0
  {
    if |cs| == 0 then acc else TraverseAll(cs[1..], ex, Traverse(cs[0], ex, acc))
  }

  /** `exportAssets`: the assets of every node of the tree, hidden ones included, in pre-order. */
  function ExportAssets(n: SceneNode, ex: Exporter): (r: seq<AssetExport>)
    ensures r == AssetsOf(SceneFlatten(n), ex)
  {
    TraverseIsPreOrder(n, ex, []);
    Traverse(n, ex, [])
  }

  /** Every host node of the tree in pre-order, hidden ones included. */
  function SceneFlatten(n: SceneNode): (r: seq<SceneNode>)
    ensures |r| >= 1 && r[0] == n
    decreases n, 1
  {
    [n] + if n.isContainer then SceneFlattenAll(n.children) else []
  }

  function SceneFlattenAll(cs: seq<SceneNode>): seq<SceneNode>
    decreases cs, 0
  {
    if |cs| == 0 then [] else SceneFlatten(cs[0]) + SceneFlattenAll(cs[1..])
  }

  /** The assets of a list of nodes, concatenated in list order. */
  function AssetsOf(nodes: seq<SceneNode>, ex: Exporter): (r: seq<AssetExport>)
    ensures forall a :: a in r ==> exists m :: m in nodes && a in NodeAssets(m, ex)
  {
    if |nodes| == 0 then [] else NodeAssets(nodes[0], ex) + AssetsOf(nodes[1..], ex)
  }

  lemma {:induction false} AssetsOfAppend(a: seq<SceneNode>, b: seq<SceneNode>, ex: Exporter)
    ensures AssetsOf(a + b, ex) == AssetsOf(a, ex) + AssetsOf(b, ex)
    decreases |a|
  {
    if |a| > 0 {
      assert AssetsOf(a + b, ex) == NodeAssets(a[0], ex) + AssetsOf(a[1..] + b, ex) by {
        assert (a + b)[0] == a[0];
        assert (a + b)[1..] == a[1..] + b;
      }
      AssetsOfAppend(a[1..], b, ex);
      AppendAssoc(NodeAssets(a[0], ex), AssetsOf(a[1..], ex), AssetsOf(b, ex));
    } else {
      assert a + b == b;
      AppendEmpty(AssetsOf(b, ex));
    }
  }

  /** The assets of a node followed by a list are that node's, then the list's. */
  lemma AssetsOfCons(n: SceneNode, rest: seq<SceneNode>, ex: Exporter)
    ensures AssetsOf([n] + rest, ex) == NodeAssets(n, ex) + AssetsOf(rest, ex)
  {
    assert ([n] + rest)[0] == n;
    assert ([n] + rest)[1..] == rest;
  }

  lemma {:induction false} TraverseIsPreOrder(n: SceneNode, ex: Exporter, acc: seq<AssetExport>)
    ensures Traverse(n, ex, acc) == acc + AssetsOf(SceneFlatten(n), ex)
    decreases n, 1
  {
    if n.isContainer {
      TraverseAllIsPreOrder(n.children, ex, acc + NodeAssets(n, ex));
    }
    TraverseStep(n, ex, acc);
  }

  /** One step of the traversal, given what visiting the children appends. */
  lemma TraverseStep(n: SceneNode, ex: Exporter, acc: seq<AssetExport>)
    requires n.isContainer ==>
      TraverseAll(n.children, ex, acc + NodeAssets(n, ex)) == acc + NodeAssets(n, ex) + AssetsOf(SceneFlattenAll(n.children), ex)
    ensures Traverse(n, ex, acc) == acc + AssetsOf(SceneFlatten(n), ex)
  {
    var own := NodeAssets(n, ex);
    var rest := if n.isContainer then SceneFlattenAll(n.children) else [];
    var tail := AssetsOf(rest, ex);
    assert Traverse(n, ex, acc) == (acc + own) + tail by {
      if !n.isContainer {
        assert tail == [];
      }
    }
    assert AssetsOf(SceneFlatten(n), ex) == own + tail by {
      assert SceneFlatten(n) == [n] + rest;
      AssetsOfCons(n, rest, ex);
    }
    AppendAssoc(acc, own, tail);
  }

  lemma {:induction false} TraverseAllIsPreOrder(cs: seq<SceneNode>, ex: Exporter, acc: seq<AssetExport>)
    ensures TraverseAll(cs, ex, acc) == acc + AssetsOf(SceneFlattenAll(cs), ex)
    decreases cs, 0
  {
    if |cs| > 0 {
      TraverseIsPreOrder(cs[0], ex, acc);
      TraverseAllIsPreOrder(cs[1..], ex, Traverse(cs[0], ex, acc));
      AssetsOfAppend(SceneFlatten(cs[0]), SceneFlattenAll(cs[1..]), ex);
    }
  }

  /** A node's own assets come before its descendants', and every asset belongs to a
      node of the tree. */
  lemma {:induction false} ExportAssetsSpec(n: SceneNode, ex: Exporter)
    ensures ExportAssets(n, ex)[..|NodeAssets(n, ex)|] == NodeAssets(n, ex)
    ensures forall a :: a in ExportAssets(n, ex) ==> exists m :: m in SceneFlatten(n) && a.nodeId == m.id
  {
    var rest := if n.isContainer then SceneFlattenAll(n.children) else [];
    assert SceneFlatten(n) == [n] + rest;
    AssetsOfAppend([n], rest, ex);
    forall a | a in ExportAssets(n, ex)
      ensures exists m :: m in SceneFlatten(n) && a.nodeId == m.id
    {
      var m :| m in SceneFlatten(n) && a in NodeAssets(m, ex);
    }
  }
}
