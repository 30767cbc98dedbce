/**
 * The `_` namespace of the file explorer and the `FileStat` wrapper:
 * how Node's file-system errors are translated for the editor, how a
 * directory is read and a path is stat-ed, and how a stat result is
 * classified into an editor file type.
 *
 * The file system itself is a value: for each path, what `fs.readdir`
 * reports and what `fs.statSync` returns. Unicode normalisation of the
 * listed names (applied only on macOS) is the identity here.
 */
module NodeFs {
  import opened Wrappers

  type Path = string

  /** `vscode.FileType` */
  datatype FileType = Unknown | File | Directory | SymbolicLink

  /**
   * The three predicates of an `fs.Stats` that `FileStat.type` consults.
   * `_.stat` calls `statSync`, which follows links, so on that path
   * `isSymbolicLink` is always false; the classification is stated for any stats.
   */
  datatype Stats = Stats(isFile: bool, isDirectory: bool, isSymbolicLink: bool)

  /** A freshly constructed `fs.Stats`, which `_.stat` returns when `statSync` throws. */
  const EmptyStats := Stats(false, false, false)

  /** The order in which `FileStat.type` tries the predicates. */
  function Priority(t: FileType): nat {
    match t
    case File => 0
    case Directory => 1
    case SymbolicLink => 2
    case Unknown => 3
  }

  /** Whether the stat result supports classifying as `t`; `Unknown` is always admissible. */
  predicate Describes(s: Stats, t: FileType) {
    match t
    case File => s.isFile
    case Directory => s.isDirectory
    case SymbolicLink => s.isSymbolicLink
    case Unknown => true
  }

  /** `FileStat.type`: the admissible type that comes first in priority order. */
  function StatType(s: Stats): (r: FileType)
    ensures Describes(s, r)
    ensures forall t :: Priority(t) < Priority(r) ==> !Describes(s, t)
  {
    if s.isFile then File
    else if s.isDirectory then Directory
    else if s.isSymbolicLink then SymbolicLink
    else Unknown
  }

  /** The classification is the only type that is admissible with nothing admissible before it. */
  lemma StatTypeUnique(s: Stats, t: FileType)
    requires Describes(s, t)
    requires forall u :: Priority(u) < Priority(t) ==> !Describes(s, u)
    ensures StatType(s) == t
  {
  }

  /** A stat result with no predicate set (what a failed `statSync` leaves) is `Unknown`. */
  lemma EmptyStatsIsUnknown()
    ensures StatType(EmptyStats) == Unknown
  {
  }

  /** The kinds of `vscode.FileSystemError` that `massageError` produces. */
  datatype FileSystemErrorKind = FileNotFound | FileIsADirectory | FileExists | NoPermissions

  datatype Error =
    | NodeError(code: Option<string>, message: string)   // an `Error & { code?: string }` raised by Node
    | FileSystemError(kind: FileSystemErrorKind)         // a `vscode.FileSystemError`

  /** The `code` property of an error; an editor file-system error carries its kind's name. */
  function Code(e: Error): Option<string> {
    match e
    case NodeError(c, _) => c
    case FileSystemError(k) =>
      Some(match k
           case FileNotFound => "FileNotFound"
           case FileIsADirectory => "FileIsADirectory"
           case FileExists => "FileExists"
           case NoPermissions => "NoPermissions")
  }

  /** The error codes `massageError` translates, as the source spells them. */
  const TranslatedAsWritten: map<string, FileSystemErrorKind> :=
    map["ENOENT" := FileNotFound, "EISDIR" := FileIsADirectory, "EEXIST" := FileExists,
        "EPERM" := NoPermissions, "EACCESS" := NoPermissions, "EBUSY" := NoPermissions]

  /** The same table with Node's real code for "permission denied", `EACCES`. */
  const Translated: map<string, FileSystemErrorKind> :=
    map["ENOENT" := FileNotFound, "EISDIR" := FileIsADirectory, "EEXIST" := FileExists,
        "EPERM" := NoPermissions, "EACCES" := NoPermissions, "EBUSY" := NoPermissions]

  /** `massageError` as written: a chain of code tests, the last of which spells `EACCESS`. */
  function MassageErrorAsWritten(e: Error): (r: Error)
    ensures Code(e).Some? && Code(e).value in TranslatedAsWritten ==>
              r == FileSystemError(TranslatedAsWritten[Code(e).value])
    ensures !(Code(e).Some? && Code(e).value in TranslatedAsWritten) ==> r == e
  {
    if Code(e) == Some("ENOENT") then FileSystemError(FileNotFound)
    else if Code(e) == Some("EISDIR") then FileSystemError(FileIsADirectory)
    else if Code(e) == Some("EEXIST") then FileSystemError(FileExists)
    else if Code(e) == Some("EPERM") || Code(e) == Some("EACCESS") || Code(e) == Some("EBUSY") then
      FileSystemError(NoPermissions)
    else e
  }

  /** Node reports a permission failure as `EACCES`, which the chain as written passes through untranslated. */
  lemma AsWrittenMissesEacces(message: string)
    ensures MassageErrorAsWritten(NodeError(Some("EACCES"), message)) == NodeError(Some("EACCES"), message)
    ensures MassageError(NodeError(Some("EACCES"), message)) == FileSystemError(NoPermissions)
  {
  }

  /** `massageError` with the permission code spelled as Node spells it. */
  function MassageError(e: Error): (r: Error)
    ensures Code(e).Some? && Code(e).value in Translated ==> r == FileSystemError(Translated[Code(e).value])
    ensures !(Code(e).Some? && Code(e).value in Translated) ==> r == e
  {
    if Code(e) == Some("ENOENT") then FileSystemError(FileNotFound)
    else if Code(e) == Some("EISDIR") then FileSystemError(FileIsADirectory)
    else if Code(e) == Some("EEXIST") then FileSystemError(FileExists)
    else if Code(e) == Some("EPERM") || Code(e) == Some("EACCES") || Code(e) == Some("EBUSY") then
      FileSystemError(NoPermissions)
    else e
  }

  /** Translating twice is translating once: an editor error's code is never a Node code. */
  lemma MassageErrorIdempotent(e: Error)
    ensures MassageError(MassageError(e)) == MassageError(e)
    ensures MassageErrorAsWritten(MassageErrorAsWritten(e)) == MassageErrorAsWritten(e)
  {
  }

  /** What Node's `fs` module would report: the outcome of `fs.readdir` and the result of `fs.statSync` per path. */
  datatype FileSystem = FileSystem(readdir: map<Path, Result<seq<string>, Error>>, stat: map<Path, Stats>)

  /** Node's error for a path the file system knows nothing about. */
  const NoSuchEntry := NodeError(Some("ENOENT"), "no such file or directory")

  /**
   * `_.readdir`: `handleResult` resolves with the listed names, or rejects with
   * the error `massageError` makes of Node's error (the translation as written).
   */
  function Readdir(fs: FileSystem, p: Path): (r: Result<seq<string>, Error>)
    ensures p !in fs.readdir ==> r == Failure(FileSystemError(FileNotFound))
    ensures p in fs.readdir && fs.readdir[p].Success? ==> r == fs.readdir[p]
    ensures p in fs.readdir && fs.readdir[p].Failure? ==>
              r == Failure(MassageErrorAsWritten(fs.readdir[p].error))
    ensures r.Failure? ==> MassageErrorAsWritten(r.error) == r.error
  {
    var outcome := if p in fs.readdir then fs.readdir[p] else Failure(NoSuchEntry);
    match outcome
    case Success(names) => Success(names)
    case Failure(e) =>
      MassageErrorIdempotent(e);
      Failure(MassageErrorAsWritten(e))
  }

  /** `_.stat`: the stat result, or an empty one when `statSync` throws; it never rejects. */
  function Stat(fs: FileSystem, p: Path): (r: Stats)
    ensures p in fs.stat ==> r == fs.stat[p]
    ensures p !in fs.stat ==> StatType(r) == Unknown
  {
    if p in fs.stat then fs.stat[p] else EmptyStats
  }

  /** `path.join(dir, name)` for a single-segment name; no normalisation of `.`/`..` segments. */
  function Join(dir: Path, name: string): Path {
    dir + "/" + name
  }
}
