/**
  The document tools: `get_requirement`, `get_tech_design`, `get_interaction_spec`
  and `get_api_spec` (one handler shape, parameterised here by the document kind),
  `save_document` and `get_tech_design_rules`.

  The parsed workspace config is the `config` parameter; whether a write succeeds is
  the `writeOk` parameter.
 */
module DesignTools {
  import opened Options
  import opened Strings
  import opened FileSystem
  import opened NodeModel
  import opened WorkspacePaths
  import opened DocKinds
  import opened Sequences

  const MarkdownExt: string := ".md"

  /** `name.endsWith('.md') ? name : name + '.md'` */
  function NormalizeName(name: string): (r: string)
    ensures EndsWith(r, MarkdownExt)
    ensures EndsWith(name, MarkdownExt) ==> r == name
    ensures !EndsWith(name, MarkdownExt) ==> StartsWith(r, name) && |r| == |name| + |MarkdownExt|
  {
    if EndsWith(name, MarkdownExt) then name else name + MarkdownExt
  }

  /** Normalising an already normalised name changes nothing. */
  lemma NormalizeNameIdempotent(name: string)
    ensures NormalizeName(NormalizeName(name)) == NormalizeName(name)
  {
  }

  /** `basename(fileName, '.md')` for a single-segment name: the suffix is dropped, and
      a name that is exactly `.md` becomes empty. */
  function StripMarkdown(fileName: string): (r: string)
    ensures EndsWith(fileName, MarkdownExt) ==> r + MarkdownExt == fileName
    ensures !EndsWith(fileName, MarkdownExt) ==> r == fileName
  {
    if EndsWith(fileName, MarkdownExt) then fileName[..|fileName| - |MarkdownExt|] else fileName
  }

  /** The name `save_document` reports, with `.md` put back, is the file name it wrote;
      and normalising the reported name again finds that file exactly when the reported
      name does not itself end in `.md` (a name such as `a.md.md` is reported as `a.md`). */
  lemma SavedNameRoundTrip(name: string)
    ensures StripMarkdown(NormalizeName(name)) + MarkdownExt == NormalizeName(name)
    ensures !EndsWith(name, MarkdownExt) ==> StripMarkdown(NormalizeName(name)) == name
    ensures NormalizeName(StripMarkdown(NormalizeName(name))) == NormalizeName(name)
      <==> !EndsWith(StripMarkdown(NormalizeName(name)), MarkdownExt)
  {
    var n := NormalizeName(name);
    var s := StripMarkdown(n);
    assert s + MarkdownExt == n;
    if !EndsWith(name, MarkdownExt) {
      assert n == name + MarkdownExt;
      assert s == n[..|name|];
      assert n[..|name|] == name;
    }
    if EndsWith(s, MarkdownExt) {
      assert NormalizeName(s) == s;
      assert |s| < |n|;
    } else {
      assert NormalizeName(s) == s + MarkdownExt;
    }
  }

  /** A document saved as `a.md.md` is reported under the name `a.md`, which the readers
      resolve to a different file. */
  lemma DoubleExtensionNameDrifts()
    ensures StripMarkdown(NormalizeName("a.md.md")) == "a.md"
    ensures NormalizeName("a.md") != NormalizeName("a.md.md")
  {
    assert EndsWith("a.md.md", MarkdownExt);
    assert "a.md.md"[..4] == "a.md";
    assert EndsWith("a.md", MarkdownExt);
  }

  /** The names among `entries` that end in `.md`, in listing order; files and
      sub-directories alike, as `readdirSync` returns both. */
  function MarkdownNames(entries: seq<Entry>): (r: seq<string>)
    ensures |r| <= |entries|
    ensures forall n :: n in r <==> exists e :: e in entries && e.name == n && EndsWith(n, MarkdownExt)
    decreases |entries|
  {
    if |entries| == 0 then []
    else
      var rest := MarkdownNames(entries[1..]);
      assert forall e :: e in entries <==> e == entries[0] || e in entries[1..];
      if EndsWith(entries[0].name, MarkdownExt) then [entries[0].name] + rest else rest
  }

  /** Filtering keeps listing order: the names of two consecutive stretches of a listing
      are the names of the first stretch followed by those of the second. */
  lemma {:induction false} MarkdownNamesAppend(a: seq<Entry>, b: seq<Entry>)
    ensures MarkdownNames(a + b) == MarkdownNames(a) + MarkdownNames(b)
    decreases |a|
  {
    if |a| > 0 {
      var head := if EndsWith(a[0].name, MarkdownExt) then [a[0].name] else [];
      assert MarkdownNames(a + b) == head + MarkdownNames(a[1..] + b) by {
        assert (a + b)[0] == a[0];
        assert (a + b)[1..] == a[1..] + b;
      }
      MarkdownNamesAppend(a[1..], b);
      AppendAssoc(head, MarkdownNames(a[1..]), MarkdownNames(b));
    } else {
      assert a + b == b;
      AppendEmpty(MarkdownNames(b));
    }
  }

  /** `listMarkdownFiles(dir).map((f) => f.name)`: empty when the directory is missing or
      cannot be listed. */
  function ListMarkdownFiles(fs: Entry, dir: Path): (r: seq<string>)
    ensures ReadDir(fs, dir).None? ==> r == []
    ensures ReadDir(fs, dir).Some? ==> r == MarkdownNames(ReadDir(fs, dir).value)
    ensures forall n :: n in r ==> EndsWith(n, MarkdownExt) && Exists(fs, Join(dir, n))
  {
    match ReadDir(fs, dir)
    case None => []
    case Some(entries) =>
      var r := MarkdownNames(entries);
      forall n | n in r
        ensures Exists(fs, Join(dir, n))
      {
        var e :| e in entries && e.name == n && EndsWith(n, MarkdownExt);
        ChildFindsMember(entries, e);
      }
      r
  }

  /** An entry that is listed in a directory is found by its name. */
  lemma {:induction false} ChildFindsMember(entries: seq<Entry>, e: Entry)
    requires e in entries
    ensures Child(entries, e.name).Some?
    decreases |entries|
  {
    if entries[0].name != e.name {
      assert e in entries[1..];
      ChildFindsMember(entries[1..], e);
    }
  }

  // ---------------------------------------------------------------------------
  // get_requirement / get_tech_design / get_interaction_spec / get_api_spec
  // ---------------------------------------------------------------------------

  datatype DocResult =
    | DocNotFound(fileName: string, availableFiles: seq<string>)
    | DocFound(name: string, content: string, filePath: Path)
    | DocReadFailed

  /** The four document readers: the normalised file name in the kind's directory, its
      text when present, and otherwise the markdown names that are there. */
  function GetDocument(fs: Entry, root: Path, config: Option<WorkspaceConfig>, k: DocKind, name: string): (r: DocResult)
    ensures var p := Join(DocDirPath(root, config, k), NormalizeName(name));
            && (r.DocNotFound? <==> !Exists(fs, p))
            && (r.DocFound? <==> ReadText(fs, p).Some?)
            && (r.DocFound? ==> r.content == ReadText(fs, p).value && r.filePath == p && r.name == name)
            && (r.DocReadFailed? <==> Exists(fs, p) && ReadText(fs, p).None?)
    ensures r.DocNotFound? ==>
      && r.fileName == NormalizeName(name)
      && r.availableFiles == ListMarkdownFiles(fs, DocDirPath(root, config, k))
  {
    var dir := DocDirPath(root, config, k);
    var fileName := NormalizeName(name);
    var filePath := Join(dir, fileName);
    if !Exists(fs, filePath) then DocNotFound(fileName, ListMarkdownFiles(fs, dir))
    else
      match ReadText(fs, filePath)
      case Some(content) => DocFound(name, content, filePath)
      case None => DocReadFailed
  }

  // ---------------------------------------------------------------------------
  // save_document
  // ---------------------------------------------------------------------------

  /** `Object.keys(dirMap)` */
  const ValidTypes: seq<string> := ["requirement", "design", "interaction", "api"]

  lemma ValidTypesAreTypeNames()
    ensures |ValidTypes| == |AllDocKinds|
    ensures forall i :: 0 <= i < |ValidTypes| ==> ValidTypes[i] == TypeName(AllDocKinds[i])
  {
  }

  datatype SaveDocResult =
    | InvalidType(validTypes: seq<string>)
    | DocSaved(filePath: Path, docType: string, name: string, content: string)
    | DocSaveFailed
    | HandlerThrew

  /** `save_document` with the type lookup restricted to the map's own keys: an unknown
      type is rejected with the list of valid types; otherwise the content is written to
      the normalised name in that kind's directory. */
  function SaveDocument(root: Path, config: Option<WorkspaceConfig>, docType: string, name: string, content: string, writeOk: bool): (r: SaveDocResult)
    ensures r.InvalidType? <==> docType !in ValidTypes
    ensures r.InvalidType? ==> r.validTypes == ValidTypes
    ensures !r.HandlerThrew?
    ensures r.DocSaveFailed? <==> docType in ValidTypes && !writeOk
    ensures r.DocSaved? ==>
      var k := ParseDocKind(docType).value;
      && TypeName(k) == docType
      && r.filePath == Join(DocDirPath(root, config, k), NormalizeName(name))
      && r.docType == docType && r.content == content
      && r.name + MarkdownExt == NormalizeName(name)
  {
    match ParseDocKind(docType)
    case None => InvalidType(ValidTypes)
    case Some(k) =>
      var fileName := NormalizeName(name);
      SavedNameRoundTrip(name);
      if writeOk then DocSaved(Join(DocDirPath(root, config, k), fileName), docType, StripMarkdown(fileName), content)
      else DocSaveFailed
  }

  /** The keys every plain object inherits from `Object.prototype`; indexing `dirMap` with
      one yields a truthy value (a method, or `Object.prototype` itself for `__proto__`). */
  const InheritedKeys: set<string> := {
    "constructor", "__proto__", "hasOwnProperty", "isPrototypeOf", "propertyIsEnumerable",
    "toLocaleString", "toString", "valueOf",
    "__defineGetter__", "__defineSetter__", "__lookupGetter__", "__lookupSetter__"
  }

  /** What `dirMap[args.type]` yields. */
  datatype DirLookup = OwnDir(dir: string) | InheritedMember | Undefined

  function DirMapLookup(config: Option<WorkspaceConfig>, docType: string): (r: DirLookup)
    ensures r.OwnDir? <==> docType in ValidTypes
    ensures r.InheritedMember? <==> docType in InheritedKeys
  {
    match ParseDocKind(docType)
    case Some(k) => OwnDir(DocDir(config, k))
    case None => if docType in InheritedKeys then InheritedMember else Undefined
  }

  /** `save_document` as written: only `undefined` is rejected, so an inherited key passes
      the `!subDir` check and `join` then throws on the function it got. */
  function SaveDocumentAsWritten(root: Path, config: Option<WorkspaceConfig>, docType: string, name: string, content: string, writeOk: bool): (r: SaveDocResult)
    ensures r.HandlerThrew? <==> docType in InheritedKeys
    ensures docType !in InheritedKeys ==> r == SaveDocument(root, config, docType, name, content, writeOk)
  {
    match DirMapLookup(config, docType)
    case Undefined => InvalidType(ValidTypes)
    case InheritedMember => HandlerThrew
    case OwnDir(_) => SaveDocument(root, config, docType, name, content, writeOk)
  }

  /** `type: "constructor"` is not a document type, yet as written it is not rejected:
      the handler throws instead of returning the list of valid types. */
  lemma InheritedKeyIsNotRejected(root: Path, config: Option<WorkspaceConfig>, name: string, content: string, writeOk: bool)
    ensures "constructor" !in ValidTypes
    ensures SaveDocumentAsWritten(root, config, "constructor", name, content, writeOk) == HandlerThrew
    ensures SaveDocument(root, config, "constructor", name, content, writeOk) == InvalidType(ValidTypes)
  {
  }

  // ---------------------------------------------------------------------------
  // get_tech_design_rules
  // ---------------------------------------------------------------------------

  datatype TechRules = TechRulesNotFound | TechRulesFound(rules: string, rulesPath: Path)

  /** `get_tech_design_rules`: the project's rules when that file has text, otherwise the
      built-in ones; it fails exactly when neither has text. */
  function GetTechDesignRules(fs: Entry, root: Path, defaultsDir: Path): (r: TechRules)
    ensures var project := Join(WorkspacePath(root), TechRulesFile);
            var default := Join(defaultsDir, TechRulesFile);
            && (r.TechRulesNotFound? <==> TextOrEmpty(fs, project) == "" && TextOrEmpty(fs, default) == "")
            && (TextOrEmpty(fs, project) != "" ==> r == TechRulesFound(TextOrEmpty(fs, project), project))
            && (TextOrEmpty(fs, project) == "" && TextOrEmpty(fs, default) != "" ==>
                  r == TechRulesFound(TextOrEmpty(fs, default), default))
    ensures r.TechRulesFound? ==> r.rules != "" && ReadText(fs, r.rulesPath) == Some(r.rules)
  {
    var projectPath := Join(WorkspacePath(root), TechRulesFile);
    var defaultPath := Join(defaultsDir, TechRulesFile);
    var projectRules := TextOrEmpty(fs, projectPath);
    if projectRules != "" then TechRulesFound(projectRules, projectPath)
    else
      var defaultRules := TextOrEmpty(fs, defaultPath);
      if defaultRules != "" then TechRulesFound(defaultRules, defaultPath)
      else TechRulesNotFound
  }
}
