/**
  The workspace tools: `init_workspace` and `list_workspace_files`.

  `init_workspace` is modelled as the plan of file-system actions it performs on the
  file system as it finds it; `list_workspace_files` as the listing it returns. The
  parsed workspace config is the `config` parameter; whether the writes succeed is the
  `writeOk` parameter.
 */
module WorkspaceTools {
  import opened Options
  import opened Strings
  import opened FileSystem
  import opened NodeModel
  import opened WorkspacePaths
  import opened DocKinds

  // ---------------------------------------------------------------------------
  // list_workspace_files
  // ---------------------------------------------------------------------------

  /** `WorkspaceFile['type']` */
  datatype FileKind = ConfigKind | FigmaRulesKind | TechRulesKind | DocFile(doc: DocKind)

  function KindName(k: FileKind): string {
    match k
    case ConfigKind => "config"
    case FigmaRulesKind => "figma-rules"
    case TechRulesKind => "tech-rules"
    case DocFile(d) => TypeName(d)
  }

  datatype WorkspaceFile = WorkspaceFile(kind: FileKind, path: Path, name: string)

  /** A directory entry `listFilesInDir` reports: a file whose name ends in `.md`. */
  predicate IsMarkdownFile(e: Entry) {
    e.File? && EndsWith(e.name, ".md")
  }

  /** The markdown files among `entries`, in listing order, tagged with kind `k`. */
  function MarkdownFiles(dir: Path, entries: seq<Entry>, k: DocKind): (r: seq<WorkspaceFile>)
    ensures |r| <= |entries|
    ensures forall wf :: wf in r ==> wf.kind == DocFile(k)
    ensures forall wf :: wf in r <==>
      exists e :: e in entries && IsMarkdownFile(e) && wf == WorkspaceFile(DocFile(k), Join(dir, e.name), e.name)
    decreases |entries|
  {
    if |entries| == 0 then []
    else
      var rest := MarkdownFiles(dir, entries[1..], k);
      assert forall e :: e in entries <==> e == entries[0] || e in entries[1..];
      var e := entries[0];
      if IsMarkdownFile(e) then [WorkspaceFile(DocFile(k), Join(dir, e.name), e.name)] + rest else rest
  }

  /** `listFilesInDir(dir, type)`: the markdown files directly in `dir`; none when the
      directory is missing or cannot be listed. */
  function ListFilesInDir(fs: Entry, dir: Path, k: DocKind): (r: seq<WorkspaceFile>)
    ensures ReadDir(fs, dir).None? ==> r == []
    ensures ReadDir(fs, dir).Some? ==> r == MarkdownFiles(dir, ReadDir(fs, dir).value, k)
  {
    match ReadDir(fs, dir)
    case None => []
    case Some(entries) => MarkdownFiles(dir, entries, k)
  }

  /** `args.type && args.type !== type` skips a kind; an absent filter is `""`. */
  predicate Selected(filter: string, k: DocKind) {
    filter == "" || filter == TypeName(k)
  }

  /** The document files of the selected kinds, kind by kind in the order given. */
  function DocFiles(fs: Entry, root: Path, config: Option<WorkspaceConfig>, filter: string, kinds: seq<DocKind>): (r: seq<WorkspaceFile>)
    ensures forall wf :: wf in r ==> wf.kind.DocFile?
    ensures forall wf :: wf in r <==>
      exists i :: 0 <= i < |kinds| && Selected(filter, kinds[i])
        && wf in ListFilesInDir(fs, DocDirPath(root, config, kinds[i]), kinds[i])
    decreases |kinds|
  {
    if |kinds| == 0 then []
    else
      var here := if Selected(filter, kinds[0]) then ListFilesInDir(fs, DocDirPath(root, config, kinds[0]), kinds[0]) else [];
      var rest := DocFiles(fs, root, config, filter, kinds[1..]);
      assert forall i :: 0 <= i < |kinds| - 1 ==> kinds[1..][i] == kinds[i + 1];
      here + rest
  }

  /** The entry for one of the fixed workspace files, present when the file exists. */
  function FixedFile(fs: Entry, kind: FileKind, p: Path, name: string): (r: seq<WorkspaceFile>)
    ensures r == [] || r == [WorkspaceFile(kind, p, name)]
    ensures r != [] <==> Exists(fs, p)
  {
    if Exists(fs, p) then [WorkspaceFile(kind, p, name)] else []
  }

  /** The number of listed files of type `t`. */
  function CountOf(files: seq<WorkspaceFile>, t: string): (n: nat)
    ensures n <= |files|
    decreases |files|
  {
    if |files| == 0 then 0
    else CountOf(files[..|files| - 1], t) + (if KindName(files[|files| - 1].kind) == t then 1 else 0)
  }

  /** `files.reduce((acc, f) => { acc[f.type] = (acc[f.type] || 0) + 1; ... }, {})` */
  function Tally(files: seq<WorkspaceFile>): map<string, nat>
    decreases |files|
  {
    if |files| == 0 then map[]
    else
      var acc := Tally(files[..|files| - 1]);
      var t := KindName(files[|files| - 1].kind);
      acc[t := (if t in acc then acc[t] else 0) + 1]
  }

  /** The tally has a key exactly for the types that occur, and each value is that type's count. */
  lemma {:induction false} TallyCounts(files: seq<WorkspaceFile>)
    ensures forall t :: t in Tally(files) <==> CountOf(files, t) > 0
    ensures forall t :: t in Tally(files) ==> Tally(files)[t] == CountOf(files, t)
    decreases |files|
  {
    if |files| > 0 {
      TallyCounts(files[..|files| - 1]);
    }
  }

  /** Every listed file has one of the seven types, so their counts add up to the total. */
  lemma {:induction false} CountsSumToTotal(files: seq<WorkspaceFile>)
    ensures CountOf(files, "config") + CountOf(files, "figma-rules") + CountOf(files, "tech-rules")
      + CountOf(files, "requirement") + CountOf(files, "design") + CountOf(files, "interaction")
      + CountOf(files, "api") == |files|
    decreases |files|
  {
    if |files| > 0 {
      CountsSumToTotal(files[..|files| - 1]);
    }
  }

  datatype Summary = Summary(total: nat, byType: map<string, nat>)

  datatype Listing =
    | WorkspaceNotInitialized
    | Listing(workspacePath: Path, files: seq<WorkspaceFile>, summary: Summary)

  /** The config and rules files that exist, in that order. */
  function FixedFiles(fs: Entry, root: Path): (r: seq<WorkspaceFile>)
    ensures forall wf :: wf in r ==> !wf.kind.DocFile?
  {
    var ws := WorkspacePath(root);
    FixedFile(fs, ConfigKind, ConfigPath(root), ConfigFile)
    + FixedFile(fs, FigmaRulesKind, Join(ws, FigmaRulesFile), FigmaRulesFile)
    + FixedFile(fs, TechRulesKind, Join(ws, TechRulesFile), TechRulesFile)
  }

  /** Each fixed file is among them exactly when it exists. */
  lemma FixedFilesMembers(fs: Entry, root: Path)
    ensures var files := FixedFiles(fs, root);
      && (WorkspaceFile(ConfigKind, ConfigPath(root), ConfigFile) in files <==> Exists(fs, ConfigPath(root)))
      && (var p := Join(WorkspacePath(root), FigmaRulesFile);
          WorkspaceFile(FigmaRulesKind, p, FigmaRulesFile) in files <==> Exists(fs, p))
      && (var p := Join(WorkspacePath(root), TechRulesFile);
          WorkspaceFile(TechRulesKind, p, TechRulesFile) in files <==> Exists(fs, p))
  {
    var ws := WorkspacePath(root);
    var a := FixedFile(fs, ConfigKind, ConfigPath(root), ConfigFile);
    var b := FixedFile(fs, FigmaRulesKind, Join(ws, FigmaRulesFile), FigmaRulesFile);
    var c := FixedFile(fs, TechRulesKind, Join(ws, TechRulesFile), TechRulesFile);
    assert FixedFiles(fs, root) == a + b + c;
    assert forall wf :: wf in a ==> wf.kind == ConfigKind;
    assert forall wf :: wf in b ==> wf.kind == FigmaRulesKind;
    assert forall wf :: wf in c ==> wf.kind == TechRulesKind;
  }

  /** `list_workspace_files`: the config and rules files that exist, then the markdown
      files of every document directory the type filter selects, with a per-type count. */
  function ListWorkspaceFiles(fs: Entry, root: Path, config: Option<WorkspaceConfig>, filter: string): (r: Listing)
    ensures r.WorkspaceNotInitialized? <==> !Exists(fs, WorkspacePath(root))
    ensures r.Listing? ==> r.summary.total == |r.files|
    ensures r.Listing? ==> forall t :: t in r.summary.byType <==> CountOf(r.files, t) > 0
    ensures r.Listing? ==> forall t :: t in r.summary.byType ==> r.summary.byType[t] == CountOf(r.files, t)
  {
    var ws := WorkspacePath(root);
    if !Exists(fs, ws) then WorkspaceNotInitialized
    else
      var files := FixedFiles(fs, root) + DocFiles(fs, root, config, filter, AllDocKinds);
      TallyCounts(files);
      Listing(ws, files, Summary(|files|, Tally(files)))
  }

  /** The config and rules files are listed exactly when they exist, whatever the filter. */
  lemma ListingHasFixedFiles(fs: Entry, root: Path, config: Option<WorkspaceConfig>, filter: string)
    requires Exists(fs, WorkspacePath(root))
    ensures var files := ListWorkspaceFiles(fs, root, config, filter).files;
      && (WorkspaceFile(ConfigKind, ConfigPath(root), ConfigFile) in files <==> Exists(fs, ConfigPath(root)))
      && (var p := Join(WorkspacePath(root), FigmaRulesFile);
          WorkspaceFile(FigmaRulesKind, p, FigmaRulesFile) in files <==> Exists(fs, p))
      && (var p := Join(WorkspacePath(root), TechRulesFile);
          WorkspaceFile(TechRulesKind, p, TechRulesFile) in files <==> Exists(fs, p))
  {
    var files := ListWorkspaceFiles(fs, root, config, filter).files;
    var docs := DocFiles(fs, root, config, filter, AllDocKinds);
    assert files == FixedFiles(fs, root) + docs;
    FixedFilesMembers(fs, root);
  }

  /** Every listed document is a markdown file of a selected kind, in that kind's directory. */
  lemma ListedDocumentsAreSelected(fs: Entry, root: Path, config: Option<WorkspaceConfig>, filter: string)
    requires Exists(fs, WorkspacePath(root))
    ensures forall wf :: wf in ListWorkspaceFiles(fs, root, config, filter).files && wf.kind.DocFile? ==>
      && Selected(filter, wf.kind.doc)
      && EndsWith(wf.name, ".md")
      && wf.path == Join(DocDirPath(root, config, wf.kind.doc), wf.name)
  {
    var docs := DocFiles(fs, root, config, filter, AllDocKinds);
    assert ListWorkspaceFiles(fs, root, config, filter).files == FixedFiles(fs, root) + docs;
    forall wf | wf in ListWorkspaceFiles(fs, root, config, filter).files && wf.kind.DocFile?
      ensures Selected(filter, wf.kind.doc) && EndsWith(wf.name, ".md")
      ensures wf.path == Join(DocDirPath(root, config, wf.kind.doc), wf.name)
    {
      assert wf in docs;
      DocFileOrigin(fs, root, config, filter, wf);
    }
  }

  /** Where one document file of `DocFiles` comes from. */
  lemma DocFileOrigin(fs: Entry, root: Path, config: Option<WorkspaceConfig>, filter: string, wf: WorkspaceFile)
    requires wf in DocFiles(fs, root, config, filter, AllDocKinds)
    ensures wf.kind.DocFile? && Selected(filter, wf.kind.doc) && EndsWith(wf.name, ".md")
    ensures wf.path == Join(DocDirPath(root, config, wf.kind.doc), wf.name)
  {
    var i :| 0 <= i < |AllDocKinds| && Selected(filter, AllDocKinds[i])
      && wf in ListFilesInDir(fs, DocDirPath(root, config, AllDocKinds[i]), AllDocKinds[i]);
    var k := AllDocKinds[i];
    var dir := DocDirPath(root, config, k);
    assert wf in MarkdownFiles(dir, ReadDir(fs, dir).value, k);
    var e :| e in ReadDir(fs, dir).value && IsMarkdownFile(e) && wf == WorkspaceFile(DocFile(k), Join(dir, e.name), e.name);
  }

  /** Every markdown file in the directory of a selected kind is listed. */
  lemma SelectedDocumentsAreListed(fs: Entry, root: Path, config: Option<WorkspaceConfig>, filter: string, k: DocKind)
    requires Exists(fs, WorkspacePath(root)) && Selected(filter, k)
    ensures ReadDir(fs, DocDirPath(root, config, k)).Some? ==>
      forall e :: e in ReadDir(fs, DocDirPath(root, config, k)).value && IsMarkdownFile(e) ==>
        WorkspaceFile(DocFile(k), Join(DocDirPath(root, config, k), e.name), e.name)
          in ListWorkspaceFiles(fs, root, config, filter).files
  {
    var docs := DocFiles(fs, root, config, filter, AllDocKinds);
    assert ListWorkspaceFiles(fs, root, config, filter).files == FixedFiles(fs, root) + docs;
    var i := match k case Requirement => 0 case Design => 1 case Interaction => 2 case Api => 3;
    assert AllDocKinds[i] == k;
  }

  // ---------------------------------------------------------------------------
  // init_workspace
  // ---------------------------------------------------------------------------

  /** The project name as written: the last segment of `dirname(resolve(projectRoot))`,
      which is the name of the directory that CONTAINS the project, or `'project'` when
      that segment is empty. */
  function ProjectNameAsWritten(root: Path): (r: string)
    ensures r != ""
    ensures |root| >= 2 && root[|root| - 2] != "" ==> r == root[|root| - 2]
  {
    if |root| >= 2 && root[|root| - 2] != "" then root[|root| - 2] else "project"
  }

  /** The project name: the last segment of the resolved root, the project directory's
      own name, or `'project'` at the file-system root. */
  function ProjectName(root: Path): (r: string)
    ensures r != ""
    ensures |root| >= 1 && root[|root| - 1] != "" ==> r == root[|root| - 1]
    ensures |root| == 0 ==> r == "project"
  {
    if |root| >= 1 && root[|root| - 1] != "" then root[|root| - 1] else "project"
  }

  /** For a project at `/home/dev/shop-app` the written code names the project `dev`. */
  lemma ProjectNameIsParentsName()
    ensures ProjectNameAsWritten(["home", "dev", "shop-app"]) == "dev"
    ensures ProjectName(["home", "dev", "shop-app"]) == "shop-app"
  {
  }

  /** The written name is the corrected name of the parent directory. */
  lemma ProjectNameAsWrittenIsParents(root: Path)
    requires |root| >= 1
    ensures ProjectNameAsWritten(root) == ProjectName(root[..|root| - 1])
  {
  }

  const DefaultStyling: Styling := Styling("stylesheet", "dp")
  const DefaultOutput: OutputDirs := OutputDirs("./src/components", "./src/screens", "./src/assets")
  const DefaultStateManagement: string := "zustand"

  /** The config `init_workspace` writes; empty arguments are absent ones. */
  function DefaultConfig(root: Path, framework: string, projectName: string): (c: WorkspaceConfig)
    ensures c.projectName != "" && c.framework != ""
    ensures projectName != "" ==> c.projectName == projectName
    ensures projectName == "" ==> c.projectName == ProjectName(root)
    ensures framework != "" ==> c.framework == framework
    ensures framework == "" ==> c.framework == "react-native"
    ensures c.stateManagement == "zustand"
    ensures c.styling.kind == "stylesheet" && c.styling.unit == "dp"
    ensures c.output.componentDir == "./src/components"
    ensures c.output.screenDir == "./src/screens"
    ensures c.output.assetDir == "./src/assets"
    ensures forall k :: OverrideDir(c.docs, k) == DefaultDir(k)
  {
    WorkspaceConfig(
      if projectName != "" then projectName else ProjectName(root),
      if framework != "" then framework else "react-native",
      DefaultStyling, DefaultOutput, DefaultStateManagement,
      DocsConfig(DefaultDir(Requirement), DefaultDir(Design), DefaultDir(Interaction), DefaultDir(Api)))
  }

  /** The directories `init_workspace` ensures, always with the default names. */
  function InitDirs(root: Path): (ds: seq<Path>)
    ensures |ds| == 1 + |AllDocKinds|
    ensures ds[0] == WorkspacePath(root)
    ensures forall i :: 0 <= i < |AllDocKinds| ==> ds[i + 1] == Join(WorkspacePath(root), DefaultDir(AllDocKinds[i]))
  {
    var ws := WorkspacePath(root);
    [ws] + seq(|AllDocKinds|, i requires 0 <= i < |AllDocKinds| => Join(ws, DefaultDir(AllDocKinds[i])))
  }

  /** The built-in rules file copied to `figma-rules.md`. */
  const CodeRulesDefault: string := "code-rules.md"

  /** One file-system effect of `init_workspace`. */
  datatype Action = MakeDir(dir: Path) | WriteConfig(path: Path, config: WorkspaceConfig) | CopyFile(from: Path, to: Path)

  datatype InitResult =
    | AlreadyInitialized(configPath: Path)
    | Initialized(actions: seq<Action>, createdFiles: seq<Path>, directories: seq<Path>)
    | InitFailed(performed: seq<Action>)

  /** The missing directories among `ds`, in order. */
  function MakeMissing(fs: Entry, ds: seq<Path>): (r: seq<Action>)
    ensures forall a :: a in r ==> a.MakeDir?
    ensures forall a :: a in r <==> exists d :: d in ds && !Exists(fs, d) && a == MakeDir(d)
    decreases |ds|
  {
    if |ds| == 0 then []
    else
      assert forall d :: d in ds <==> d == ds[0] || d in ds[1..];
      (if Exists(fs, ds[0]) then [] else [MakeDir(ds[0])]) + MakeMissing(fs, ds[1..])
  }

  /** Copy a built-in rules file into the workspace when it exists and the target does not. */
  function CopyIfAbsent(fs: Entry, from: Path, to: Path): (r: seq<Action>)
    ensures r == [] || r == [CopyFile(from, to)]
    ensures r != [] <==> Exists(fs, from) && !Exists(fs, to)
  {
    if Exists(fs, from) && !Exists(fs, to) then [CopyFile(from, to)] else []
  }

  /** The effects of a successful `init_workspace`, in order. */
  function InitPlan(fs: Entry, root: Path, defaultsDir: Path, config: WorkspaceConfig): (acts: seq<Action>)
    ensures WriteConfig(ConfigPath(root), config) in acts
    ensures forall d :: MakeDir(d) in acts <==> d in InitDirs(root) && !Exists(fs, d)
    ensures forall from, to :: CopyFile(from, to) in acts ==> Exists(fs, from) && !Exists(fs, to)
    ensures var figma := Join(WorkspacePath(root), FigmaRulesFile);
      CopyFile(Join(defaultsDir, CodeRulesDefault), figma) in acts <==>
        Exists(fs, Join(defaultsDir, CodeRulesDefault)) && !Exists(fs, figma)
    ensures var tech := Join(WorkspacePath(root), TechRulesFile);
      CopyFile(Join(defaultsDir, TechRulesFile), tech) in acts <==>
        Exists(fs, Join(defaultsDir, TechRulesFile)) && !Exists(fs, tech)
  {
    var ws := WorkspacePath(root);
    var makes := MakeMissing(fs, InitDirs(root));
    var copies := CopyIfAbsent(fs, Join(defaultsDir, CodeRulesDefault), Join(ws, FigmaRulesFile))
      + CopyIfAbsent(fs, Join(defaultsDir, TechRulesFile), Join(ws, TechRulesFile));
    assert forall a :: a in copies ==> a.CopyFile?;
    assert Join(ws, FigmaRulesFile)[|ws|] != Join(ws, TechRulesFile)[|ws|];
    makes + [WriteConfig(ConfigPath(root), config)] + copies
  }

  /** `createdFiles`: the config path, then each rules file that exists once the copies are done. */
  function CreatedFiles(fs: Entry, root: Path, defaultsDir: Path): (created: seq<Path>)
    ensures |created| >= 1 && created[0] == ConfigPath(root)
    ensures var figma := Join(WorkspacePath(root), FigmaRulesFile);
      figma in created <==> Exists(fs, figma) || Exists(fs, Join(defaultsDir, CodeRulesDefault))
    ensures var tech := Join(WorkspacePath(root), TechRulesFile);
      tech in created <==> Exists(fs, tech) || Exists(fs, Join(defaultsDir, TechRulesFile))
  {
    var ws := WorkspacePath(root);
    var figma := Join(ws, FigmaRulesFile);
    var tech := Join(ws, TechRulesFile);
    assert ConfigPath(root)[|ws|] != figma[|ws|] && ConfigPath(root)[|ws|] != tech[|ws|];
    assert figma[|ws|] != tech[|ws|];
    var figmaThere := Exists(fs, figma) || Exists(fs, Join(defaultsDir, CodeRulesDefault));
    var techThere := Exists(fs, tech) || Exists(fs, Join(defaultsDir, TechRulesFile));
    [ConfigPath(root)] + (if figmaThere then [figma] else []) + (if techThere then [tech] else [])
  }

  /** `init_workspace`: refuses an existing config unless forced; otherwise creates the
      missing directories, writes the config, and copies each built-in rules file that
      the workspace does not already have. `failAt` is the index of the step of the plan
      that throws, if one does; the steps before it have already taken effect, since the
      one `try` around them undoes nothing. */
  function InitWorkspace(fs: Entry, root: Path, defaultsDir: Path, framework: string, projectName: string, force: bool, failAt: Option<nat>): (r: InitResult)
    ensures r.AlreadyInitialized? <==> Exists(fs, ConfigPath(root)) && !force
    ensures r.AlreadyInitialized? ==> r.configPath == ConfigPath(root)
    ensures var plan := InitPlan(fs, root, defaultsDir, DefaultConfig(root, framework, projectName));
      r.InitFailed? <==> !(Exists(fs, ConfigPath(root)) && !force) && failAt.Some? && failAt.value < |plan|
    ensures r.InitFailed? ==>
      r.performed == InitPlan(fs, root, defaultsDir, DefaultConfig(root, framework, projectName))[..failAt.value]
    ensures r.Initialized? ==> r.directories == InitDirs(root)
    ensures r.Initialized? ==> r.actions == InitPlan(fs, root, defaultsDir, DefaultConfig(root, framework, projectName))
    ensures r.Initialized? ==> r.createdFiles == CreatedFiles(fs, root, defaultsDir)
  {
    var configPath := ConfigPath(root);
    var plan := InitPlan(fs, root, defaultsDir, DefaultConfig(root, framework, projectName));
    if Exists(fs, configPath) && !force then AlreadyInitialized(configPath)
    else if failAt.Some? && failAt.value < |plan| then InitFailed(plan[..failAt.value])
    else Initialized(plan, CreatedFiles(fs, root, defaultsDir), InitDirs(root))
  }

  /** What a failed `init_workspace` leaves behind: a failure among the directory
      creations leaves only directories; a failure in a copy leaves every missing
      directory created and the config written, so the next call without `force`
      refuses. */
  lemma {:induction false} FailedInitLeavesPrefix(fs: Entry, root: Path, defaultsDir: Path, framework: string, projectName: string, force: bool, failAt: nat)
    requires !(Exists(fs, ConfigPath(root)) && !force)
    ensures var r := InitWorkspace(fs, root, defaultsDir, framework, projectName, force, Some(failAt));
      var made := MakeMissing(fs, InitDirs(root));
      && (r.InitFailed? && failAt <= |made| ==> forall a :: a in r.performed ==> a.MakeDir?)
      && (r.InitFailed? && failAt > |made| ==>
            && WriteConfig(ConfigPath(root), DefaultConfig(root, framework, projectName)) in r.performed
            && forall d :: d in InitDirs(root) && !Exists(fs, d) ==> MakeDir(d) in r.performed)
  {
    var config := DefaultConfig(root, framework, projectName);
    var made := MakeMissing(fs, InitDirs(root));
    var plan := InitPlan(fs, root, defaultsDir, config);
    InitPlanStartsWithDirs(fs, root, defaultsDir, config);
    if failAt < |plan| {
      PlanPrefix(made, WriteConfig(ConfigPath(root), config), plan[|made| + 1..], failAt);
      forall d | d in InitDirs(root) && !Exists(fs, d)
        ensures MakeDir(d) in made
      {
      }
    }
  }

  /** The plan is the directory creations, then the config write, then the copies. */
  lemma InitPlanStartsWithDirs(fs: Entry, root: Path, defaultsDir: Path, config: WorkspaceConfig)
    ensures var made := MakeMissing(fs, InitDirs(root));
      var plan := InitPlan(fs, root, defaultsDir, config);
      |plan| > |made| && plan == made + [WriteConfig(ConfigPath(root), config)] + plan[|made| + 1..]
  {
  }

  /** A prefix of `made + [mid] + rest` either stays within `made` or holds `mid` and all of `made`. */
  lemma PlanPrefix<T>(made: seq<T>, mid: T, rest: seq<T>, k: nat)
    requires k <= |made| + 1 + |rest|
    ensures k <= |made| ==> (made + [mid] + rest)[..k] == made[..k]
    ensures k > |made| ==> mid in (made + [mid] + rest)[..k]
    ensures k > |made| ==> forall x :: x in made ==> x in (made + [mid] + rest)[..k]
  {
    var all := made + [mid] + rest;
    if k > |made| {
      assert all[|made|] == mid;
      forall x | x in made
        ensures x in all[..k]
      {
        var i :| 0 <= i < |made| && made[i] == x;
        assert all[..k][i] == x;
      }
    }
  }
}
