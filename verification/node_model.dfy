/**
  The data shapes shared by the plugin and the server: extracted node data, exported
  assets, the selection message and the workspace configuration.

  Only the fields some modelled operation reads or writes are kept. A configuration
  string that is `""` stands for a field that is absent as well: every reader combines
  them with `||`, which treats the two alike.
 */
module NodeModel {
  import opened Options

  /** `cornerRadius?: number | 'mixed'` */
  datatype CornerRadius = Uniform(radius: real) | Mixed

  /** The four per-corner radii, present only when the radius is mixed. */
  datatype Corners = Corners(topLeft: real, topRight: real, bottomRight: real, bottomLeft: real)

  /** `FigmaNodeData`: one extracted node and its extracted children. */
  datatype NodeData = NodeData(
    id: string,
    name: string,
    kind: string,
    visible: bool,
    width: real,
    height: real,
    annotation: Option<string>,
    cornerRadius: Option<CornerRadius>,
    corners: Option<Corners>,
    children: seq<NodeData>)

  datatype AssetType = Image | Icon | Vector

  datatype AssetFormat = Png | Jpg | Svg | Webp

  datatype Usage = Usage(width: real, height: real)

  /** `AssetExport`: `data` is base64 for bitmaps and SVG text for `Svg`. */
  datatype AssetExport = AssetExport(
    kind: AssetType,
    nodeId: string,
    nodeName: string,
    format: AssetFormat,
    data: string,
    inline: Option<bool>,
    usage: Usage)

  /** `FigmaSelectionMessage` without its constant `type` tag. */
  datatype SelectionMessage = SelectionMessage(data: NodeData, assets: seq<AssetExport>, timestamp: string)

  /** `WorkspaceConfig.docs` */
  datatype DocsConfig = DocsConfig(
    requirementsDir: string,
    designsDir: string,
    interactionsDir: string,
    apiDir: string)

  datatype Styling = Styling(kind: string, unit: string)

  datatype OutputDirs = OutputDirs(componentDir: string, screenDir: string, assetDir: string)

  /** `WorkspaceConfig` as stored in `.aiwork/config.json`. */
  datatype WorkspaceConfig = WorkspaceConfig(
    projectName: string,
    framework: string,
    styling: Styling,
    output: OutputDirs,
    stateManagement: string,
    docs: DocsConfig)
}
