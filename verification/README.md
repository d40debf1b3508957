# figma-to-code, modelled in Dafny

A model of the logic at the core of the figma-to-code tool chain. The Figma plugin
extracts a node tree and its exportable assets from the current selection and sends
them over a WebSocket. The MCP server stores the selection, a newest-first history of
at most 20 entries, in a file that the socket process and the tool process share. It
answers the assistant's tools from that store and from the project's `.aiwork/`
workspace: code rules, documents, workspace initialisation and listing.

Modules, one per concern:

| file | module | models |
|---|---|---|
| `options.dfy` | `Options` | `Option<T>` with `GetOr` |
| `sequences.dfy` | `Sequences` | associativity and unit laws of concatenation, used by the order proofs |
| `strings.dfy` | `Strings` | `startsWith`, `endsWith`, `includes`, ASCII `toLowerCase` / `toUpperCase` |
| `file_system.dfy` | `FileSystem` | an immutable directory tree standing in for `fs` and `path.join` |
| `node_model.dfy` | `NodeModel` | the shared records: node tree, asset export, selection message, workspace config |
| `node_queries.dfy` | `NodeQueries` | `countNodes`, `collectAnnotations` |
| `file_names.dfy` | `FileNames` | `sanitizeFileName` |
| `extractor.dfy` | `Extractor` | `extractNodeData`, `convertColor`, `isLikelyIcon`, `exportAssets` |
| `data_store.dfy` | `DataStore` | the selection store |
| `workspace_paths.dfy` | `WorkspacePaths` | the `.aiwork` layout |
| `doc_kinds.dfy` | `DocKinds` | the four document kinds and their directories |
| `figma_tools.dfy` | `FigmaTools` | `get_figma_selection`, `get_code_rules`, `save_asset`, `get_server_status` |
| `design_tools.dfy` | `DesignTools` | the four document readers, `save_document`, `get_tech_design_rules` |
| `workspace_tools.dfy` | `WorkspaceTools` | `init_workspace`, `list_workspace_files` |
| `websocket_server.dfy` | `WebSocketServer` | message dispatch and the connected-client set |

Conventions:
- A path is the sequence of names from the file-system root, already resolved.
- The parsed `config.json` is a parameter: `None` when the file is missing or unparsable.
- An absent string argument or config field is `""`, because every consumer tests it with `||` or truthiness.
- A write that may fail takes a `writeOk` flag. The selection store distinguishes a failure before the file is opened from one after it (`DataStore.WriteOutcome`). `init_workspace` takes the index of the step that throws.
- The host's `exportAsync` is a parameter function that returns the encoded data, or `None` when it rejects. Each call is named by the node, the format and which call it is: the fill at a given index, the vector SVG, or the `export/` marker PNG. So one call can fail while another on the same node succeeds, as it can in the source, where each call has its own `try`.

## Model

| member | source | states |
|---|---|---|
| NodeQueries.CountNodes | mcp-server/src/figma-tools.ts:334-342 | every tree counts at least one node, and a leaf counts exactly one |
| NodeQueries.FlattenMatchesCount | mcp-server/src/figma-tools.ts:334-342 | the count is exactly the number of nodes a pre-order walk visits (the node plus the sum over its children) |
| NodeQueries.FlattenAllMatchesCount | mcp-server/src/figma-tools.ts:337-340 | the children loop adds up to the number of nodes in all child subtrees |
| NodeQueries.AnnotationsOf | mcp-server/src/figma-tools.ts:355-362 | at most one summary per node, each from an annotated node with its fields copied; every annotated node's summary is present; none when no node is annotated, and one per node when all are |
| NodeQueries.AnnotationsOfAppend | mcp-server/src/figma-tools.ts:351-371 | collecting over a concatenation is the concatenation of the collections |
| NodeQueries.VisitIsPreOrder | mcp-server/src/figma-tools.ts:354-367 | the accumulating walk appends the summaries of the subtree's annotated nodes in pre-order |
| NodeQueries.VisitAllIsPreOrder | mcp-server/src/figma-tools.ts:363-366 | walking the children in order appends their subtrees' summaries in order |
| NodeQueries.CollectAnnotations | mcp-server/src/figma-tools.ts:351-371 | the result is the reference list: the summaries of the tree's annotated nodes in pre-order |
| NodeQueries.CollectAnnotationsSpec | mcp-server/src/figma-tools.ts:351-371 | an annotated root comes first; length at most the node count; every summary's fields are copied from an annotated node of the tree |
| FileNames.ReplaceRunsShape | plugin/src/extractor.ts:305 | run replacement yields only `[a-z0-9-]`, never `--`, is empty only for empty input, and ends in a dash exactly when the input ends outside the class |
| FileNames.AppendShape | plugin/src/extractor.ts:305 | appending a class character, or a dash after a non-dash, keeps the alphabet and the absence of `--` |
| FileNames.ReplaceRunsSlugChars | plugin/src/extractor.ts:305 | run replacement keeps every letter and digit, in order |
| FileNames.TrimLeading | plugin/src/extractor.ts:306 | stripping leading dashes keeps a suffix that does not start with `-` and removes only dashes |
| FileNames.TrimTrailing | plugin/src/extractor.ts:306 | stripping trailing dashes keeps a prefix that does not end with `-` and removes only dashes |
| FileNames.SliceShape | plugin/src/extractor.ts:305-306 | any slice of a string in the alphabet without `--` keeps both properties |
| FileNames.TrimLeadingShape | plugin/src/extractor.ts:306 | stripping leading dashes preserves the alphabet and the absence of `--` |
| FileNames.TrimLeadingSlugChars | plugin/src/extractor.ts:306 | stripping leading dashes removes no letter or digit |
| FileNames.TrimTrailingShape | plugin/src/extractor.ts:306 | stripping trailing dashes preserves the alphabet and the absence of `--` |
| FileNames.TrimTrailingSlugChars | plugin/src/extractor.ts:306 | stripping trailing dashes removes no letter or digit |
| FileNames.TrimShape | plugin/src/extractor.ts:305-306 | trimming both ends of a run-replaced string gives a canonical name with the same letters and digits |
| FileNames.Sanitize | plugin/src/extractor.ts:302-307 | every sanitised name uses only `a-z`, `0-9`, `-`, never starts or ends with `-`, has no `--`, and keeps the lower-cased input's letters and digits in order |
| FileNames.ReplaceRunsFixes | plugin/src/extractor.ts:305 | run replacement leaves a string in the alphabet without `--` unchanged |
| FileNames.CanonicalIsFixed | plugin/src/extractor.ts:302-307 | a canonical name is returned unchanged |
| FileNames.SanitizeIdempotent | plugin/src/extractor.ts:302-307 | sanitising twice equals sanitising once |
| FileNames.SlugOnlyUnchanged | plugin/src/extractor.ts:302-307 | a name made only of `[a-z0-9]` is returned unchanged |
| FileNames.ReplaceRunsAppend | plugin/src/extractor.ts:305 | after a letter or digit, run replacement of the rest is independent of what came before |
| FileNames.ReplaceRunsOfSeparators | plugin/src/extractor.ts:305 | a non-empty run of characters outside `[a-z0-9]` becomes exactly one `-` |
| FileNames.SeparatorsThenSlug | plugin/src/extractor.ts:305 | a separator run before a letter or digit becomes one dash followed by the replacement of the rest, which starts with that letter or digit |
| FileNames.ReplaceRunsAtSeparatorRun | plugin/src/extractor.ts:305 | a separator run between two letters or digits becomes one dash between the replacements of the two sides |
| FileNames.TrimLeadingAppend | plugin/src/extractor.ts:306 | all leading dashes of `u + v` come from `u` when `u` ends in a non-dash |
| FileNames.TrimTrailingAppend | plugin/src/extractor.ts:306 | all trailing dashes of `u + v` come from `v` when `v` starts with a non-dash |
| FileNames.TrimAroundDash | plugin/src/extractor.ts:306 | stripping the ends of a string with one inner dash between dash-free ends keeps that dash and strips each side on its own |
| FileNames.SanitizeSplitsAtSeparatorRun | plugin/src/extractor.ts:302-307 | every maximal run of characters outside `[a-z0-9]` between two letters or digits of the lower-cased name becomes exactly one `-`: the result is the sanitised part before it, a dash, and the sanitised part after it |
| Extractor.ConvertColor | plugin/src/extractor.ts:196-203 | r, g, b are copied; alpha is the source alpha, or 1 when absent |
| Extractor.ConvertColorRoundTrip | plugin/src/extractor.ts:196-203 | converting a converted colour again gives the same colour, and an RGBA input is reproduced exactly |
| Extractor.VisibleOf | plugin/src/extractor.ts:141-142 | a child is kept exactly when it is a visible child of the input, never more of them than the input has, and a list of visible children is kept whole |
| Extractor.VisibleOfAppend | plugin/src/extractor.ts:141-142 | the filter keeps order: filtering two consecutive stretches of children gives the first stretch's visible children followed by the second's |
| Extractor.ExtractNodeData | plugin/src/extractor.ts:9-147 | identity and size copied; the annotation is the plugin data, present exactly when it is non-empty; `'mixed'` and the four corner radii, copied, exactly when the radius is not a number; a numeric radius copied; a container's children are `ExtractChildren` of its children, and a non-container has none |
| Extractor.ExtractChildren | plugin/src/extractor.ts:140-144 | one extracted child per visible child, all visible |
| Extractor.ExtractChildrenKeepsVisibleInOrder | plugin/src/extractor.ts:140-144 | the i-th extracted child is the extraction of the i-th visible child |
| Extractor.ExtractNeverGrows | plugin/src/extractor.ts:140-144 | the extracted tree never has more nodes than the host subtree |
| Extractor.ExtractChildrenNeverGrow | plugin/src/extractor.ts:140-144 | the extracted children never have more nodes than the host children |
| Extractor.ExtractedDescendantsVisible | plugin/src/extractor.ts:140-144 | every node below the root of an extracted tree is visible |
| Extractor.ExtractedChildrenVisible | plugin/src/extractor.ts:140-144 | every node in the extracted children's subtrees is visible |
| Extractor.ScanIconHint | plugin/src/extractor.ts:294-299 | the scan finds a hint exactly when some keyword occurs in the name, ignoring case |
| Extractor.IsLikelyIcon | plugin/src/extractor.ts:294-299 | a node within 64 by 64 is always an icon; a larger one is an icon exactly when its name has a hint; a name containing "icon" in any case always makes it one |
| Extractor.IconHintProperties | plugin/src/extractor.ts:296-298 | the name hint is case-insensitive, and matching "ico" already covers "icon" |
| Extractor.NodeAssets | plugin/src/extractor.ts:214-279 | every asset one node yields carries that node's id |
| Extractor.FillAssets | plugin/src/extractor.ts:214-238 | each visible image fill gets its own export attempt: at most one png image asset per visible image fill, exactly one each when every attempt succeeds, none when every attempt rejects; each asset is named by the sanitised node name and carries the data of one image fill's own export |
| Extractor.FillExportsBound | plugin/src/extractor.ts:215-237 | the loop over image fills yields at most one asset per visible image fill |
| Extractor.FillExportsAllSucceed | plugin/src/extractor.ts:215-237 | when every fill's own export succeeds, the loop yields exactly one asset per visible image fill |
| Extractor.FillExportsAllReject | plugin/src/extractor.ts:219-237 | when every fill's own export rejects, the loop yields nothing: each failure is caught and skipped |
| Extractor.FillExportsFrom | plugin/src/extractor.ts:219-233 | every asset of the loop is a png image with the node's id and sanitised name, holding the data of the export made for one of its visible image fills |
| Extractor.VectorAssets | plugin/src/extractor.ts:241-258 | one svg asset exactly for a VECTOR or BOOLEAN_OPERATION node whose own svg export succeeds; an inline icon exactly when it looks like an icon, otherwise a vector |
| Extractor.MarkedAssets | plugin/src/extractor.ts:261-279 | one png asset exactly for a name starting with `export/` whose own marker export succeeds, independently of the fill exports, named by sanitising the rest |
| Extractor.SceneFlatten | plugin/src/extractor.ts:282-289 | the pre-order walk starts at the node itself |
| Extractor.AssetsOf | plugin/src/extractor.ts:209-291 | every asset comes from one of the listed nodes |
| Extractor.AssetsOfAppend | plugin/src/extractor.ts:282-289 | the assets of a concatenation are the concatenated assets |
| Extractor.AssetsOfCons | plugin/src/extractor.ts:212-289 | a node's own assets come before those of the nodes after it |
| Extractor.TraverseStep | plugin/src/extractor.ts:212-289 | if the children append their subtrees' assets, the node appends its own assets and then theirs |
| Extractor.TraverseIsPreOrder | plugin/src/extractor.ts:212-289 | the accumulating traversal appends the assets of every node of the subtree in pre-order, hidden nodes included |
| Extractor.TraverseAllIsPreOrder | plugin/src/extractor.ts:282-289 | visiting the children in order appends their subtrees' assets in order |
| Extractor.ExportAssets | plugin/src/extractor.ts:209-291 | the result is the pre-order concatenation of every node's assets, hidden nodes included |
| Extractor.ExportAssetsSpec | plugin/src/extractor.ts:209-291 | a node's own assets come before its descendants'; every asset belongs to a node of the tree |
| DataStore.ReadData | mcp-server/src/data-store.ts:33-43 | a missing or unparsable file reads as the empty state, never as an error |
| DataStore.WriteData | mcp-server/src/data-store.ts:45-52 | a successful write is read back; a failure before the truncating open leaves the file as it was; a failure after it leaves a file that reads as the empty store |
| DataStore.SetSelection | mcp-server/src/data-store.ts:56-76 | after a successful write the new record is current and heads the history, followed by the first min(old length, 19) old entries in order, history length at most 20; a failure before the open changes nothing; a failure after it loses the selection and the whole history |
| DataStore.GetSelection | mcp-server/src/data-store.ts:79-81 | the stored current record; none when the file is missing or corrupt |
| DataStore.GetHistory | mcp-server/src/data-store.ts:84-86 | the stored history; empty when the file is missing or corrupt |
| DataStore.Clear | mcp-server/src/data-store.ts:89-92 | afterwards there is no current selection and the history is empty, unless the write fails before the open, which changes nothing |
| DataStore.HasSelection | mcp-server/src/data-store.ts:94-96 | true exactly when `getSelection` returns a record, which needs a parsed file |
| DataStore.GetStats | mcp-server/src/data-store.ts:99-106 | `hasSelection` exactly when there is a current record; `historyCount` is the history length; `lastUpdate` is the current timestamp, or null when absent or empty |
| DataStore.RunKeepsWellFormed | mcp-server/src/data-store.ts:25-92 | under any sequence of selections and clears, with any failed writes, the history stays within 20 and its head is the current selection |
| DataStore.ReverseSnoc | mcp-server/src/data-store.ts:68 | the newest-first order of records with one more appended puts that record first |
| DataStore.WindowStep | mcp-server/src/data-store.ts:68-71 | the new record followed by 19 of the old window of 20 is the window of 20 of the longer newest-first list |
| DataStore.HistoryStep | mcp-server/src/data-store.ts:56-76 | one more successful selection turns the window of the newest 20 into the window over one more record |
| DataStore.HistoryIsNewestFirst | mcp-server/src/data-store.ts:56-76 | after n successful selections from empty, the history is the newest min(n, 20) records, newest first, and the newest is current |
| DocKinds.DocDir | mcp-server/src/design-tools.ts:293-296 | each kind resolves to its non-empty config override, else to its default directory name |
| DocKinds.DocDirPath | mcp-server/src/design-tools.ts:64-66 | a kind's documents live directly under `.aiwork` in the project root, in that kind's resolved directory |
| DocKinds.ParseDocKind | mcp-server/src/design-tools.ts:292-299 | a type string names a kind exactly when it is that kind's name |
| DesignTools.NormalizeName | mcp-server/src/design-tools.ts:68 | the file name always ends in `.md`; a name already ending in `.md` is kept; otherwise `.md` is appended |
| DesignTools.NormalizeNameIdempotent | mcp-server/src/design-tools.ts:311 | normalising twice equals normalising once |
| DesignTools.StripMarkdown | mcp-server/src/design-tools.ts:321 | the `.md` suffix is removed exactly when present |
| DesignTools.SavedNameRoundTrip | mcp-server/src/design-tools.ts:311-321 | the reported name plus `.md` is the file written; normalising the reported name finds that file again exactly when the reported name does not itself end in `.md` |
| DesignTools.DoubleExtensionNameDrifts | mcp-server/src/design-tools.ts:311-321 | a document saved as `a.md.md` is reported as `a.md`, which the readers resolve to another file |
| DesignTools.MarkdownNames | mcp-server/src/design-tools.ts:27-28 | a name is listed exactly when some directory entry has it and it ends in `.md` |
| DesignTools.MarkdownNamesAppend | mcp-server/src/design-tools.ts:27-28 | the filter keeps listing order: the names of two consecutive stretches of a listing are the first stretch's names followed by the second's |
| DesignTools.ListMarkdownFiles | mcp-server/src/design-tools.ts:23-41 | empty when the directory is missing or cannot be listed; otherwise exactly the `.md` entry names of the listing, each of which exists (order: `MarkdownNamesAppend`) |
| DesignTools.ChildFindsMember | mcp-server/src/design-tools.ts:30 | a listed entry is found again by joining its name to the directory |
| DesignTools.GetDocument | mcp-server/src/design-tools.ts:62-94 | not found exactly when the normalised file is absent, and then reports that name and the directory's markdown names; the content is returned exactly when the read succeeds |
| DesignTools.ValidTypesAreTypeNames | mcp-server/src/design-tools.ts:292-304 | the reported valid types are the four kind names in declaration order |
| DesignTools.SaveDocument | mcp-server/src/design-tools.ts:282-330 | an invalid type is rejected exactly when it is not one of the four kinds, listing those four; otherwise the content goes to the normalised name in that kind's directory, and the reported name plus `.md` is that file name |
| DesignTools.DirMapLookup | mcp-server/src/design-tools.ts:292-299 | an own key exactly for the four kinds; an inherited member exactly for the names `Object.prototype` supplies |
| DesignTools.SaveDocumentAsWritten | mcp-server/src/design-tools.ts:292-309 | the handler throws exactly for inherited keys, and agrees with the corrected tool on every other type |
| DesignTools.InheritedKeyIsNotRejected | mcp-server/src/design-tools.ts:299-308 | `type: "constructor"` is not a document type, yet it escapes the rejection and the handler throws |
| DesignTools.GetTechDesignRules | mcp-server/src/design-tools.ts:345-384 | the project text when non-empty, else the default text when non-empty, else not found; the reported path holds exactly the returned rules |
| FigmaTools.ResolveFramework | mcp-server/src/figma-tools.ts:103-108 | a non-empty argument wins, then a non-empty config framework, then `react-native` |
| FigmaTools.GetFigmaSelection | mcp-server/src/figma-tools.ts:46-70 | no selection exactly when the store has none, and then whether the plugin is connected; otherwise the stored tree, assets and timestamp, with the pre-order node count, the number of assets and the annotation list |
| FigmaTools.ProjectRulesHeader | mcp-server/src/figma-tools.ts:142 | the separator opens with a horizontal rule, names the project rules file's path, and ends with a blank line |
| FigmaTools.GetCodeRules | mcp-server/src/figma-tools.ts:95-154 | fails exactly when base and project texts are both empty; the base text alone when the project text is empty; otherwise base, header and project, so it starts with base and ends with project; layers reported exactly for the files read |
| FigmaTools.FindAssetFrom | mcp-server/src/figma-tools.ts:247-249 | the first index at or after the start whose asset has the node id, or none when no later asset has it |
| FigmaTools.FindAsset | mcp-server/src/figma-tools.ts:247-249 | the first asset with the node id, or none when no asset has it |
| FigmaTools.SaveAsset | mcp-server/src/figma-tools.ts:240-285 | fails exactly without a selection, or when no asset has the node id; otherwise uses the first match and writes svg as text and other formats as base64-decoded bytes |
| FigmaTools.GetServerStatus | mcp-server/src/figma-tools.ts:301-326 | connected exactly when a client is counted, with that count; the store's selection flag, history length and last-update timestamp; the workspace path; initialised, with the project name, framework and state management, exactly when the config could be read |
| FigmaTools.StatusAgreesWithSelection | mcp-server/src/figma-tools.ts:46-70 | the status reports a selection exactly when `get_figma_selection` returns one, agrees with it on the connection, and its last update is that selection's timestamp |
| WorkspaceTools.MarkdownFiles | mcp-server/src/workspace-tools.ts:47-60 | a file is listed exactly for a regular-file entry ending in `.md`, tagged with the given kind |
| WorkspaceTools.ListFilesInDir | mcp-server/src/workspace-tools.ts:41-64 | empty when the directory is missing or cannot be listed; otherwise its markdown files |
| WorkspaceTools.DocFiles | mcp-server/src/workspace-tools.ts:312-316 | a document file is listed exactly when its kind passes the filter and its directory lists it |
| WorkspaceTools.FixedFile | mcp-server/src/workspace-tools.ts:270-303 | a config or rules entry is present exactly when its file exists |
| WorkspaceTools.FixedFilesMembers | mcp-server/src/workspace-tools.ts:269-303 | each of the config, figma-rules and tech-rules entries is listed exactly when its file exists |
| WorkspaceTools.TallyCounts | mcp-server/src/workspace-tools.ts:324-327 | `byType` has a key exactly for the types that occur, and each value is that type's count |
| WorkspaceTools.CountsSumToTotal | mcp-server/src/workspace-tools.ts:318-328 | the per-type counts over the seven types add up to the number of files |
| WorkspaceTools.ListWorkspaceFiles | mcp-server/src/workspace-tools.ts:254-330 | fails exactly when the workspace directory is missing; `total` is the file count; `byType` holds the count of every type that occurs |
| WorkspaceTools.ListingHasFixedFiles | mcp-server/src/workspace-tools.ts:269-303 | the config and rules files are listed exactly when they exist, whatever the filter |
| WorkspaceTools.ListedDocumentsAreSelected | mcp-server/src/workspace-tools.ts:305-316 | every listed document passes the filter, ends in `.md` and sits in its kind's directory |
| WorkspaceTools.SelectedDocumentsAreListed | mcp-server/src/workspace-tools.ts:305-316 | every markdown file in a selected kind's directory is listed |
| WorkspaceTools.ProjectNameAsWritten | mcp-server/src/workspace-tools.ts:135 | the default name is the second-to-last segment of the resolved root, or `project` |
| WorkspaceTools.ProjectName | mcp-server/src/workspace-tools.ts:135 | the default name is the project directory's own name, or `project` at the file-system root |
| WorkspaceTools.ProjectNameIsParentsName | mcp-server/src/workspace-tools.ts:135 | for `/home/dev/shop-app` the code names the project `dev` where `shop-app` is meant |
| WorkspaceTools.ProjectNameAsWrittenIsParents | mcp-server/src/workspace-tools.ts:135 | the written name is always the parent directory's name |
| WorkspaceTools.DefaultConfig | mcp-server/src/workspace-tools.ts:134-153 | the project name and framework are the arguments, else the corrected name (`ProjectName`, see ## Findings) and `react-native`; styling `stylesheet` in `dp`, the three output directories, state management `zustand`, and the doc directories with their default names |
| WorkspaceTools.InitDirs | mcp-server/src/workspace-tools.ts:119-125 | the workspace directory, then one directory per kind with its default name |
| WorkspaceTools.MakeMissing | mcp-server/src/workspace-tools.ts:127-131 | a directory is created exactly when it is one of those listed and missing |
| WorkspaceTools.CopyIfAbsent | mcp-server/src/workspace-tools.ts:157-167 | a copy happens exactly when the default exists and the target does not |
| WorkspaceTools.InitPlan | mcp-server/src/workspace-tools.ts:118-167 | writes the config; creates exactly the missing directories; each rules file is copied exactly when its default exists and the target does not, so an existing rules file is never overwritten |
| WorkspaceTools.CreatedFiles | mcp-server/src/workspace-tools.ts:173-177 | the config path first; each rules file is reported exactly when it existed or its default did |
| WorkspaceTools.InitWorkspace | mcp-server/src/workspace-tools.ts:99-186 | refuses, with no actions, exactly when the config exists and `force` is not set; fails exactly when a step of the plan throws, reporting the steps already performed; otherwise reports the fixed directories, the plan and the created files; the config uses the corrected name (`ProjectName`, see ## Findings) |
| WorkspaceTools.FailedInitLeavesPrefix | mcp-server/src/workspace-tools.ts:118-184 | a failure while creating directories leaves only directories; a failure while copying leaves every missing directory created and the config written |
| WebSocketServer.DataId | mcp-server/src/websocket-server.ts:80 | the ack's node id is the data's own `id`, and `undefined` for data that is not an object or has no `id` |
| WebSocketServer.IsValidMessage | mcp-server/src/websocket-server.ts:94-101 | only an object with a `type` key can be valid, and then exactly when `type` is a string; `null`, scalars and arrays are rejected |
| WebSocketServer.HandleMessage | mcp-server/src/websocket-server.ts:67-101 | stores exactly a valid `figma-selection`; acknowledges it with `data.id` exactly when its data is present and not null; answers exactly a valid `ping` with pong; an invalid message does nothing |
| WebSocketServer.HandleFrame | mcp-server/src/websocket-server.ts:46-53 | an unparsable frame does nothing; a parsed one is dispatched |
| WebSocketServer.OnlySelectionsAreStored | mcp-server/src/websocket-server.ts:46-101 | only a valid message is stored or answered, and a stored message is only ever answered with an ack |
| WebSocketServer.Step | mcp-server/src/websocket-server.ts:14-117 | start keeps the clients and is a no-op when running; a connection is counted only while running; close and error remove that client only; stop of a running server clears all |
| WebSocketServer.StartIsIdempotent | mcp-server/src/websocket-server.ts:15-18 | starting a running server changes nothing |
| WebSocketServer.StopDisconnectsAll | mcp-server/src/websocket-server.ts:103-117 | after stopping a running server no client is counted |
| WebSocketServer.ConnectionCount | mcp-server/src/websocket-server.ts:115-117 | the count is zero exactly when no client is connected |
| WebSocketServer.SubsetCard | mcp-server/src/websocket-server.ts:115-117 | helper of `CountBoundedByConnects`: a subset of the client set never has more elements |
| WebSocketServer.CountBoundedByConnects | mcp-server/src/websocket-server.ts:35-117 | from a fresh start, the connection count never exceeds the number of connections made |
| WebSocketServer.CountedClientsAreLive | mcp-server/src/websocket-server.ts:35-63 | a counted client connected at some point and has neither closed nor errored since |

## Left out

- File-system I/O is a value: `existsSync`, `readFileSync`, `readdirSync`, `statSync`, `mkdirSync`, `writeFileSync` and `copyFileSync` act on an immutable tree. A tool's effects are returned as a plan (`InitPlan`, `AssetWrite`) or a flag, not performed.
- `resolve()` and the current directory: paths are already resolved. Names containing `/`, `..` or `.` are single path segments in the model.
- Modification times (`lastModified`) and `new Date()` timestamps: the clock reading is a parameter (`receivedAt`) or dropped.
- `statSync` that throws on a broken link: it would stop `listFilesInDir` part-way. Every listed entry in the model can be inspected.
- `JSON.parse` / `JSON.stringify` of the config, the store and socket frames: the config and store are parameters, and a frame is unparsable or a `Json` value.
- The store file's contents having a wrong shape (valid JSON without the expected fields) is not modelled. It is either parsed data or unparsable.
- Base64 encoding and decoding (`btoa`, `Buffer.from`) and `TextDecoder`: the exporter returns the encoded string, and `save_asset` reports which decoding its write uses.
- The Figma host API (`SceneNode`, `exportAsync`, `figma.mixed`, `getPluginData`) is an input record plus an exporter function. The rest of `extractNodeData` (fills, strokes, effects, layout, text styling, `convertPaint`, `convertEffect`) is not modelled. Only identity, size, annotation, corner radius and children are.
- Extractor.FillAssets: when some fill exports succeed and others reject, the number of assets is bounded by the number of visible image fills but not counted exactly. The contract pins it only for all-succeed and all-reject.
- Extractor.ExtractNodeData: the numeric fields other than width and height are not part of the record, because they are copied without branching.
- `get_component_mapping` (mcp-server/src/figma-tools.ts:159-222): only its framework resolution is modelled (shared with `get_code_rules`, as `ResolveFramework`). The mapping file lookup is a thin file read.
- `get_workspace_config` (mcp-server/src/workspace-tools.ts:189-235) and `readWorkspaceConfig` wrap `JSON.parse` over one file.
- `save_asset`'s directory creation and `resolve(outputPath)`: the output path is taken as resolved. `writeOk` covers both the directory creation and the write.
- `save_document`'s `ensureDir` throwing: only a failed write is modelled (`writeOk`).
- WebSocketServer: the welcome message, `broadcastMessage`, logging and the reply timestamps are not modelled. The ack's constant `originalType` field is implied by `Ack`.
- WebSocketServer.CountedClientsAreLive: does not state that a later stop disconnects the client. A stop of a server that was marked stopped after `EADDRINUSE` keeps the client set, as the source does.
- Unicode case mapping: `toLowerCase` and the `/i` regular expression are modelled on ASCII letters only.
- WorkspaceTools.InitWorkspace: the steps performed before a failure are reported, not applied to the file-system tree. So "the next call without `force` refuses" follows from `FailedInitLeavesPrefix` (the config write is among the steps) but is not proved against a modified tree.
- The WebSocket listening port (3001) is a constant of the host set-up and is not modelled.
- Concurrency: the socket and tool processes read and write the store file without locking. The model applies operations one at a time.
- The MCP wiring (`mcp-server/src/index.ts`), the plugin's `code.ts` and UI, the build files and the type-only files are not part of this model.

## Findings

| source | as written | input that shows it | evidently intended | confidence | as-written member | corrected member |
|---|---|---|---|---|---|---|
| mcp-server/src/workspace-tools.ts:135 | the default project name is the last segment of `dirname(resolve(projectRoot))`, the parent directory's name | a project at `/home/dev/shop-app` is named `dev` | the project directory's own name, `shop-app` | medium, not executed | WorkspaceTools.ProjectNameAsWritten (counterexample in WorkspaceTools.ProjectNameIsParentsName) | WorkspaceTools.ProjectName, used by WorkspaceTools.DefaultConfig |
| mcp-server/src/design-tools.ts:292-306 | `dirMap[args.type]` also finds members inherited from `Object.prototype`, which are truthy values (methods, or `Object.prototype` itself for `__proto__`), so such a type is not rejected and `join` throws on it | `save_document` with `type: "constructor"` | reject every type but the four kinds, returning `validTypes` | high, not executed | DesignTools.SaveDocumentAsWritten (counterexample in DesignTools.InheritedKeyIsNotRejected) | DesignTools.SaveDocument |
