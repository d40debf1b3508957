/** The four kinds of workspace document and the sub-directory each lives in. */
module DocKinds {
  import opened NodeModel
  import opened Options
  import opened FileSystem
  import opened WorkspacePaths

  datatype DocKind = Requirement | Design | Interaction | Api

  /** The kinds in the order the tools list them. */
  const AllDocKinds: seq<DocKind> := [Requirement, Design, Interaction, Api]

  /** The `type` argument naming each kind. */
  function TypeName(k: DocKind): string {
    match k
    case Requirement => "requirement"
    case Design => "design"
    case Interaction => "interaction"
    case Api => "api"
  }

  /** The sub-directory `init_workspace` creates for each kind. */
  function DefaultDir(k: DocKind): string {
    match k
    case Requirement => "requirements"
    case Design => "designs"
    case Interaction => "interactions"
    case Api => "api"
  }

  /** The `docs` override for a kind, `""` when unset. */
  function OverrideDir(docs: DocsConfig, k: DocKind): string {
    match k
    case Requirement => docs.requirementsDir
    case Design => docs.designsDir
    case Interaction => docs.interactionsDir
    case Api => docs.apiDir
  }

  /** `config?.docs?.<kind>Dir || '<default>'`: a non-empty override wins, otherwise the default. */
  function DocDir(config: Option<WorkspaceConfig>, k: DocKind): (r: string)
    ensures r != ""
    ensures config.Some? && OverrideDir(config.value.docs, k) != "" ==> r == OverrideDir(config.value.docs, k)
    ensures config.None? || OverrideDir(config.value.docs, k) == "" ==> r == DefaultDir(k)
  {
    if config.Some? && OverrideDir(config.value.docs, k) != "" then OverrideDir(config.value.docs, k) else DefaultDir(k)
  }

  /** The kind a `type` argument names, if any. */
  function ParseDocKind(s: string): (r: Option<DocKind>)
    ensures r.Some? ==> TypeName(r.value) == s
    ensures r.None? ==> forall k :: TypeName(k) != s
  {
    if s == "requirement" then Some(Requirement)
    else if s == "design" then Some(Design)
    else if s == "interaction" then Some(Interaction)
    else if s == "api" then Some(Api)
    else None
  }

  /** `join(workspacePath, <the kind's directory>)`: where documents of kind `k` live. */
  function DocDirPath(root: Path, config: Option<WorkspaceConfig>, k: DocKind): (p: Path)
    ensures p == root + [WorkspaceDir, DocDir(config, k)]
  {
    Join(WorkspacePath(root), DocDir(config, k))
  }
}
