/**
  The design tools the assistant calls: `get_figma_selection`, `get_code_rules`,
  `save_asset` and `get_server_status`, plus the framework resolution shared by
  `get_code_rules` and `get_component_mapping`.

  Files are read through the abstract file system; the parsed `config.json` is the
  `config` parameter (`None` when it is missing or unparsable); the socket's client
  count is the `connectionCount` parameter.
 */
module FigmaTools {
  import opened Options
  import opened Strings
  import opened FileSystem
  import opened NodeModel
  import opened WorkspacePaths
  import NodeQueries
  import DataStore

  const DefaultFramework: string := "react-native"

  /** `args.framework`, else a truthy `config.framework`, else `'react-native'`;
      an absent argument is `""`. */
  function ResolveFramework(arg: string, config: Option<WorkspaceConfig>): (r: string)
    ensures r != ""
    ensures arg != "" ==> r == arg
    ensures arg == "" && config.Some? && config.value.framework != "" ==> r == config.value.framework
    ensures arg == "" && (config.None? || config.value.framework == "") ==> r == DefaultFramework
  {
    var framework := if arg == "" && config.Some? then config.value.framework else arg;
    if framework == "" then DefaultFramework else framework
  }

  // ---------------------------------------------------------------------------
  // get_figma_selection
  // ---------------------------------------------------------------------------

  datatype SelectionView =
    | NoSelection(pluginConnected: bool)
    | Selection(
        data: NodeData,
        assets: seq<AssetExport>,
        timestamp: string,
        nodeCount: nat,
        assetCount: nat,
        annotations: seq<NodeQueries.AnnotationSummary>)

  /** `get_figma_selection`: the stored selection with its node count, asset count and
      annotation list, or a failure that reports whether the plugin is connected. */
  function GetFigmaSelection(f: DataStore.StoreFile, connectionCount: nat): (r: SelectionView)
    ensures r.NoSelection? <==> !DataStore.HasSelection(f)
    ensures r.NoSelection? ==> (r.pluginConnected <==> connectionCount > 0)
    ensures r.Selection? ==>
      && r.data == DataStore.GetSelection(f).value.data
      && r.assets == DataStore.GetSelection(f).value.assets
      && r.timestamp == DataStore.GetSelection(f).value.timestamp
      && r.nodeCount == |NodeQueries.Flatten(r.data)|
      && r.assetCount == |r.assets|
      && r.annotations == NodeQueries.AnnotationsOf(NodeQueries.Flatten(r.data))
  {
    match DataStore.GetSelection(f)
    case None => NoSelection(connectionCount > 0)
    case Some(sel) =>
      NodeQueries.FlattenMatchesCount(sel.data);
      Selection(
        sel.data, sel.assets, sel.timestamp,
        NodeQueries.CountNodes(sel.data), |sel.assets|, NodeQueries.CollectAnnotations(sel.data))
  }

  // ---------------------------------------------------------------------------
  // get_code_rules
  // ---------------------------------------------------------------------------

  const CodeRulesFile: string := "code-rules.md"

  /** The separator put between the base rules and the project rules: a horizontal rule
      and a heading, then a note that names the project rules file. */
  function ProjectRulesHeader(projectPath: Path): (h: string)
    ensures StartsWith(h, "\n\n---\n\n")
    ensures Contains(h, Render(projectPath))
    ensures EndsWith(h, "\n\n")
  {
    var before := "\n\n---\n\n# 项目级规则\n\n> 以下规则来自项目配置（";
    var h := before + Render(projectPath) + "），优先级最高\n\n";
    assert OccursAt(h, Render(projectPath), |before|);
    h
  }

  datatype CodeRules =
    | NoRulesFound
    | Rules(rules: string, framework: string, baseLayer: Option<Path>, projectLayer: Option<Path>)

  /** `get_code_rules`: the built-in rules followed, when the project has its own, by a
      header and the project rules. It fails exactly when both texts are empty. */
  function GetCodeRules(fs: Entry, defaultsDir: Path, root: Path, frameworkArg: string, config: Option<WorkspaceConfig>): (r: CodeRules)
    ensures var base := TextOrEmpty(fs, Join(defaultsDir, CodeRulesFile));
            var project := TextOrEmpty(fs, Join(WorkspacePath(root), FigmaRulesFile));
            && (r.NoRulesFound? <==> base == "" && project == "")
            && (r.Rules? && project == "" ==> r.rules == base)
            && (r.Rules? && project != "" ==>
                  && StartsWith(r.rules, base) && EndsWith(r.rules, project)
                  && r.rules == base + ProjectRulesHeader(Join(WorkspacePath(root), FigmaRulesFile)) + project)
    ensures r.Rules? ==> r.framework == ResolveFramework(frameworkArg, config)
    ensures r.Rules? ==> (r.baseLayer.Some? <==> ReadText(fs, Join(defaultsDir, CodeRulesFile)).Some?)
    ensures r.Rules? ==> (r.projectLayer.Some? <==> ReadText(fs, Join(WorkspacePath(root), FigmaRulesFile)).Some?)
  {
    var framework := ResolveFramework(frameworkArg, config);
    var basePath := Join(defaultsDir, CodeRulesFile);
    var projectPath := Join(WorkspacePath(root), FigmaRulesFile);
    var baseRules := TextOrEmpty(fs, basePath);
    var projectRules := TextOrEmpty(fs, projectPath);
    if baseRules == "" && projectRules == "" then NoRulesFound
    else
      var merged := if projectRules != "" then baseRules + ProjectRulesHeader(projectPath) + projectRules else baseRules;
      assert projectRules != "" ==> merged[..|baseRules|] == baseRules;
      assert projectRules != "" ==> merged[|merged| - |projectRules|..] == projectRules;
      Rules(
        merged, framework,
        if ReadText(fs, basePath).Some? then Some(basePath) else None,
        if ReadText(fs, projectPath).Some? then Some(projectPath) else None)
  }

  // ---------------------------------------------------------------------------
  // save_asset
  // ---------------------------------------------------------------------------

  /** The index of the first asset exported from `nodeId`, searching from `from`. */
  function FindAssetFrom(assets: seq<AssetExport>, nodeId: string, from: nat): (r: Option<nat>)
    requires from <= |assets|
    ensures r.Some? ==> from <= r.value < |assets| && assets[r.value].nodeId == nodeId
    ensures r.Some? ==> forall j :: from <= j < r.value ==> assets[j].nodeId != nodeId
    ensures r.None? ==> forall j :: from <= j < |assets| ==> assets[j].nodeId != nodeId
    decreases |assets| - from
  {
    if from == |assets| then None
    else if assets[from].nodeId == nodeId then Some(from)
    else FindAssetFrom(assets, nodeId, from + 1)
  }

  /** `selection.assets.find((a) => a.nodeId === args.nodeId)` as an index. */
  function FindAsset(assets: seq<AssetExport>, nodeId: string): (r: Option<nat>)
    ensures r.Some? ==> r.value < |assets| && assets[r.value].nodeId == nodeId
    ensures r.Some? ==> forall j :: 0 <= j < r.value ==> assets[j].nodeId != nodeId
    ensures r.None? ==> forall a :: a in assets ==> a.nodeId != nodeId
  {
    FindAssetFrom(assets, nodeId, 0)
  }

  /** What `save_asset` writes: SVG as text, other formats as the bytes their base64 data decodes to. */
  datatype AssetWrite = WriteText(path: Path, text: string) | WriteBase64Bytes(path: Path, base64: string)

  datatype SaveAssetResult =
    | NoSelectionAvailable
    | AssetNotFound(nodeId: string)
    | SaveFailed
    | AssetSaved(filePath: Path, assetType: AssetType, format: AssetFormat, write: AssetWrite)

  /** `save_asset` for an already resolved output path; `writeOk` is whether the
      directory creation and the write succeed. */
  function SaveAsset(f: DataStore.StoreFile, nodeId: string, outputPath: Path, writeOk: bool): (r: SaveAssetResult)
    ensures r.NoSelectionAvailable? <==> !DataStore.HasSelection(f)
    ensures r.AssetNotFound? <==>
      DataStore.HasSelection(f) && forall a :: a in DataStore.GetSelection(f).value.assets ==> a.nodeId != nodeId
    ensures r.AssetSaved? ==>
      var assets := DataStore.GetSelection(f).value.assets;
      exists i :: 0 <= i < |assets| && assets[i].nodeId == nodeId
        && (forall j :: 0 <= j < i ==> assets[j].nodeId != nodeId)
        && r.assetType == assets[i].kind && r.format == assets[i].format && r.filePath == outputPath
        && (assets[i].format == Svg ==> r.write == WriteText(outputPath, assets[i].data))
        && (assets[i].format != Svg ==> r.write == WriteBase64Bytes(outputPath, assets[i].data))
    ensures r.SaveFailed? ==> !writeOk
    ensures !writeOk ==> !r.AssetSaved?
  {
    match DataStore.GetSelection(f)
    case None => NoSelectionAvailable
    case Some(sel) =>
      match FindAsset(sel.assets, nodeId)
      case None => AssetNotFound(nodeId)
      case Some(i) =>
        var asset := sel.assets[i];
        if !writeOk then SaveFailed
        else
          var write := if asset.format == Svg then WriteText(outputPath, asset.data) else WriteBase64Bytes(outputPath, asset.data);
          AssetSaved(outputPath, asset.kind, asset.format, write)
  }

  // ---------------------------------------------------------------------------
  // get_server_status
  // ---------------------------------------------------------------------------

  /** The part of the config `get_server_status` reports. */
  datatype ConfigSummary = ConfigSummary(projectName: string, framework: string, stateManagement: string)

  datatype ServerStatus = ServerStatus(
    pluginConnected: bool,
    connectionCount: nat,
    hasSelection: bool,
    historyCount: nat,
    lastUpdate: Option<string>,
    initialized: bool,
    workspacePath: Path,
    config: Option<ConfigSummary>)

  /** `get_server_status`: connection state, the store's statistics, and the workspace
      path with a summary of its config when that could be read. */
  function GetServerStatus(f: DataStore.StoreFile, connectionCount: nat, root: Path, config: Option<WorkspaceConfig>): (r: ServerStatus)
    ensures r.pluginConnected <==> connectionCount > 0
    ensures r.connectionCount == connectionCount
    ensures r.hasSelection <==> DataStore.HasSelection(f)
    ensures r.historyCount == |DataStore.GetHistory(f)|
    ensures r.lastUpdate.Some? <==> DataStore.HasSelection(f) && DataStore.GetSelection(f).value.timestamp != ""
    ensures r.lastUpdate.Some? ==> r.lastUpdate.value == DataStore.GetSelection(f).value.timestamp
    ensures r.initialized <==> config.Some?
    ensures r.workspacePath == WorkspacePath(root)
    ensures r.config.Some? <==> config.Some?
    ensures r.config.Some? ==>
      && r.config.value.projectName == config.value.projectName
      && r.config.value.framework == config.value.framework
      && r.config.value.stateManagement == config.value.stateManagement
  {
    var stats := DataStore.GetStats(f);
    var summary := match config
      case None => None
      case Some(c) => Some(ConfigSummary(c.projectName, c.framework, c.stateManagement));
    ServerStatus(
      connectionCount > 0, connectionCount, stats.hasSelection, stats.historyCount, stats.lastUpdate,
      config.Some?, WorkspacePath(root), summary)
  }

  /** The status agrees with `get_figma_selection` on the same store and socket: a
      selection is reported exactly when `get_figma_selection` returns one, and both
      report the plugin connected alike. */
  lemma StatusAgreesWithSelection(f: DataStore.StoreFile, connectionCount: nat, root: Path, config: Option<WorkspaceConfig>)
    ensures var status := GetServerStatus(f, connectionCount, root, config);
      var view := GetFigmaSelection(f, connectionCount);
      && (status.hasSelection <==> view.Selection?)
      && (view.NoSelection? ==> view.pluginConnected == status.pluginConnected)
      && (view.Selection? && status.lastUpdate.Some? ==> status.lastUpdate.value == view.timestamp)
  {
  }
}
