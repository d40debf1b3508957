/** The workspace layout constants and the paths built from a resolved project root. */
module WorkspacePaths {
  import opened FileSystem

  const WorkspaceDir: string := ".aiwork"
  const ConfigFile: string := "config.json"
  const FigmaRulesFile: string := "figma-rules.md"
  const TechRulesFile: string := "tech-design-rules.md"

  /** `getWorkspacePath(projectRoot)` for an already resolved root. */
  function WorkspacePath(root: Path): Path {
    Join(root, WorkspaceDir)
  }

  /** `getConfigPath(projectRoot)` */
  function ConfigPath(root: Path): Path {
    Join(WorkspacePath(root), ConfigFile)
  }
}
