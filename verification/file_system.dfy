/**
  An abstract, immutable file system: the model's stand-in for Node's `fs` and `path`.

  The root is a directory entry; a path is the sequence of names leading from the root
  (`path.join(dir, name)` appends one name). A file whose `content` is `None` exists but
  cannot be read (`readFileSync` throws); a directory that is not `listable` exists but
  `readdirSync` throws on it. Directory listings keep the order `readdirSync` returns.
 */
module FileSystem {
  import opened Options

  type Path = seq<string>

  datatype Entry =
    | File(name: string, content: Option<string>)
    | Dir(name: string, listable: bool, entries: seq<Entry>)

  /** `path.join(dir, name)` for a single name. */
  function Join(dir: Path, name: string): (p: Path)
    ensures |p| == |dir| + 1 && p[..|dir|] == dir && p[|dir|] == name
  {
    dir + [name]
  }

  /** The first entry of `entries` called `name`. */
  function Child(entries: seq<Entry>, name: string): (r: Option<Entry>)
    ensures r.Some? ==> r.value in entries && r.value.name == name
    ensures r.None? ==> forall e :: e in entries ==> e.name != name
  {
    if |entries| == 0 then None
    else if entries[0].name == name then Some(entries[0])
    else Child(entries[1..], name)
  }

  /** The entry a path names, walking down from `root`. */
  function Lookup(root: Entry, p: Path): Option<Entry>
    decreases |p|
  {
    if |p| == 0 then Some(root)
    else
      match Lookup(root, p[..|p| - 1])
      case Some(Dir(_, _, entries)) => Child(entries, p[|p| - 1])
      case _ => None
  }

  /** `existsSync(p)` */
  predicate Exists(root: Entry, p: Path) {
    Lookup(root, p).Some?
  }

  /** `readFileSync(p, 'utf-8')`: `None` when it would throw (missing, a directory, or unreadable). */
  function ReadText(root: Entry, p: Path): (r: Option<string>)
    ensures r.Some? ==> Exists(root, p)
  {
    match Lookup(root, p)
    case Some(File(_, Some(text))) => Some(text)
    case _ => None
  }

  /** The text of a file, or `""` when it is missing or cannot be read: an `existsSync`
      check followed by a read inside an empty `catch`. */
  function TextOrEmpty(root: Entry, p: Path): (r: string)
    ensures ReadText(root, p).Some? ==> r == ReadText(root, p).value
    ensures ReadText(root, p).None? ==> r == ""
  {
    ReadText(root, p).GetOr("")
  }

  /** `readdirSync(p)` as the listed entries: `None` when it would throw. */
  function ReadDir(root: Entry, p: Path): (r: Option<seq<Entry>>)
    ensures r.Some? ==> Exists(root, p)
  {
    match Lookup(root, p)
    case Some(Dir(_, true, entries)) => Some(entries)
    case _ => None
  }

  /** The textual form of an absolute path, as `path.join` prints it. */
  function Render(p: Path): string
    decreases |p|
  {
    if |p| == 0 then "/"
    else if |p| == 1 then "/" + p[0]
    else Render(p[..|p| - 1]) + "/" + p[|p| - 1]
  }
}
