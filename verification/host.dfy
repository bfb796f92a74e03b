/** What the discovery code takes from its surroundings, as plain values:
    the directory tree it globs, the modules `import_module` can load, the
    members `inspect.getmembers` lists, the module-level names `getattr`
    resolves and the source lines `open(module.__file__)` yields. */
module Host {
  import opened Wrappers
  import opened Strings

  /** A directory or file as the segments of its absolute path. */
  type Path = seq<string>

  function Parent(p: Path): Path
  {
    if p == [] then [] else p[..|p| - 1]
  }

  /** The file system as globbing sees it: every directory, in the order a
      recursive walk lists them, and the names of the files directly
      inside each directory, in listing order. */
  datatype FileSystem = FileSystem(dirs: seq<Path>, files: map<Path, seq<string>>)

  /** A walk lists each directory once, and files only sit in directories. */
  predicate Valid(fs: FileSystem)
  {
    && (forall i, j :: 0 <= i < j < |fs.dirs| ==> fs.dirs[i] != fs.dirs[j])
    && (forall d :: d in fs.files ==> d in fs.dirs)
  }

  function Listing(fs: FileSystem, d: Path): seq<string>
  {
    if d in fs.files then fs.files[d] else []
  }

  /** `Path.exists()`: a directory, or a file inside a directory. */
  predicate Exists(fs: FileSystem, p: Path)
  {
    p in fs.dirs || (p != [] && p[|p| - 1] in Listing(fs, Parent(p)))
  }

  /** A runtime object, as far as discovery looks at it: whether
      `inspect.isclass` or `inspect.isfunction` holds of it, its
      `__name__`, the name of its type and its identity. */
  datatype Kind = ClassKind | FunctionKind | OtherKind
  datatype PyObject = PyObject(kind: Kind, name: string, typeName: string, id: nat)

  /** A loaded module: its dotted `__name__` and its identity. */
  datatype Module = Module(name: string, id: nat)

  /** The interpreter state discovery reads. A name missing from `imports`
      fails to import; a pair missing from `attributes` makes `getattr`
      raise; a module missing from `sources` has no readable file. */
  datatype Runtime = Runtime(
    imports: map<string, Module>,
    members: map<Module, seq<PyObject>>,
    attributes: map<(Module, string), PyObject>,
    sources: map<Module, seq<string>>)

  function MembersOf(rt: Runtime, m: Module): seq<PyObject>
  {
    if m in rt.members then rt.members[m] else []
  }

  /** A `signature` filter: `Any` (or `Callable` for functions), which lets
      everything through, or a type test left abstract (`subclass_of`,
      `instance_of`). */
  datatype Signature = Unrestricted | Restricted(test: PyObject -> bool)

  predicate Accepts(sig: Signature, obj: PyObject)
  {
    match sig
    case Unrestricted => true
    case Restricted(test) => test(obj)
  }

  /** The exceptions the discovery code raises: `ValueError` for a bad
      argument or directory, `ImportError` for a failed import, and what
      `getattr` and `open` raise during an attribute scan. */
  datatype Error =
    | InvalidDirectoryType
    | DirectoryDoesNotExist
    | NotAPackage
    | InvalidSource
    | ImportFailed(moduleName: string)
    | AttributeMissing(moduleName: string, attributeName: string)
    | SourceUnreadable(moduleName: string)
}
