/** Module names and modules: `discover_module_names`, `discover_modules`
    and `_get_modules_from_source` of barentsz/_discover.py. */
module ModuleDiscovery {
  import opened Wrappers
  import opened Strings
  import opened Host
  import opened Packages

  /** A file `discover_paths(path, '*.py')` lists: a name ending in `.py`
      that does not start with a dot (`*` skips hidden files). */
  predicate IsPyFile(f: string)
  {
    |f| >= 3 && f[|f| - 3..] == ".py" && f[0] != '.'
  }

  /** The stems of the `.py` files of a directory listing, in listing
      order: each one names a `.py` file of the listing. */
  function PyStems(listing: seq<string>): seq<string>
  {
    if listing == [] then []
    else
      var rest := PyStems(listing[1..]);
      if IsPyFile(listing[0]) then [Stem(listing[0])] + rest else rest
  }

  /** Each stem names a `.py` file of the listing. */
  lemma {:induction false} PyStemsNameFiles(listing: seq<string>, s: string)
    requires s in PyStems(listing)
    ensures s + ".py" in listing
    decreases |listing|
  {
    var f := listing[0];
    if IsPyFile(f) && s == Stem(f) {
      PyFileStem(f);
    } else {
      PyStemsNameFiles(listing[1..], s);
    }
  }

  /** The stem of a listed `.py` file, with `.py` put back, is the file. */
  lemma PyFileStem(f: string)
    requires IsPyFile(f)
    ensures Stem(f) + ".py" == f
  {
    var x := f[..|f| - 3];
    assert f == x + ".py";
    PyStem(x);
  }

  /** The stems line 77-78 keeps: not `__init__`, and not private unless
      privates are included. */
  predicate Eligible(stem: string, includePrivates: bool)
  {
    stem != "__init__" && (includePrivates || !StartsWith(stem, "_"))
  }

  /** The names the comprehension of lines 75-78 builds for one package. */
  function PackageModules(package: string, stems: seq<string>, includePrivates: bool): seq<string>
  {
    if stems == [] then []
    else
      var rest := PackageModules(package, stems[1..], includePrivates);
      (if Eligible(stems[0], includePrivates) then [package + "." + stems[0]] else []) + rest
  }

  /** One package contributes its name, a dot and each eligible stem. */
  lemma {:induction false} PackageModulesMembership(package: string, stems: seq<string>,
                                                    includePrivates: bool, n: string)
    ensures n in PackageModules(package, stems, includePrivates) <==>
              exists s :: s in stems && Eligible(s, includePrivates) && n == package + "." + s
    decreases |stems|
  {
    if stems != [] {
      PackageModulesMembership(package, stems[1..], includePrivates, n);
      if exists s :: s in stems && Eligible(s, includePrivates) && n == package + "." + s {
        var s :| s in stems && Eligible(s, includePrivates) && n == package + "." + s;
        if s != stems[0] {
          assert s in stems[1..];
        }
      }
    }
  }

  /** The module names of one entry of the package map. */
  function ModulesIn(fs: FileSystem, entry: (Path, string), includePrivates: bool): seq<string>
  {
    PackageModules(entry.1, PyStems(Listing(fs, entry.0)), includePrivates)
  }

  /** The module names of the first entries of the package map, package
      by package. */
  function ModuleNames(fs: FileSystem, entries: seq<(Path, string)>, includePrivates: bool): seq<string>
  {
    if entries == [] then []
    else ModuleNames(fs, entries[..|entries| - 1], includePrivates)
           + ModulesIn(fs, entries[|entries| - 1], includePrivates)
  }

  /** What `discover_module_names` returns. */
  function ModuleNamesOf(fs: FileSystem, arg: DirArg, includePrivates: bool): Result<seq<string>, Error>
  {
    match DiscoverPackagesPerPath(fs, arg)
    case Err(e) => Err(e)
    case Ok(entries) => Ok(ModuleNames(fs, entries, includePrivates))
  }

  /** `discover_module_names`: extend the result package by package. */
  method DiscoverModuleNames(fs: FileSystem, arg: DirArg, includePrivates: bool)
      returns (r: Result<seq<string>, Error>)
    ensures r == ModuleNamesOf(fs, arg, includePrivates)
  {
    var packages := DiscoverPackagesPerPath(fs, arg);
    if packages.Err? {
      return Err(packages.error);
    }
    var result := CollectModuleNames(fs, packages.value, includePrivates);
    return Ok(result);
  }

  /** The loop of lines 74-78 over the entries of the package map. */
  method CollectModuleNames(fs: FileSystem, entries: seq<(Path, string)>, includePrivates: bool)
      returns (result: seq<string>)
    ensures result == ModuleNames(fs, entries, includePrivates)
  {
    result := [];
    for i := 0 to |entries|
      invariant result == ModuleNames(fs, entries[..i], includePrivates)
    {
      assert entries[..i + 1][..i] == entries[..i];
      result := result + ModulesIn(fs, entries[i], includePrivates);
    }
    assert entries[..|entries|] == entries;
  }

  /** A module name is listed exactly when one of the packages contributes
      it. */
  lemma {:induction false} ModuleNamesMembership(fs: FileSystem, entries: seq<(Path, string)>,
                                                 includePrivates: bool, n: string)
    ensures n in ModuleNames(fs, entries, includePrivates) <==>
              exists i :: 0 <= i < |entries| && n in ModulesIn(fs, entries[i], includePrivates)
    decreases |entries|
  {
    if entries != [] {
      var init := entries[..|entries| - 1];
      var last := |entries| - 1;
      ModuleNamesMembership(fs, init, includePrivates, n);
      if n in ModuleNames(fs, init, includePrivates) {
        var i :| 0 <= i < |init| && n in ModulesIn(fs, init[i], includePrivates);
        assert entries[i] == init[i];
      }
      if exists i :: 0 <= i < |entries| && n in ModulesIn(fs, entries[i], includePrivates) {
        var i :| 0 <= i < |entries| && n in ModulesIn(fs, entries[i], includePrivates);
        if i < last {
          assert init[i] == entries[i];
        }
      }
    }
  }

  /** Every discovered module name is `<package>.<stem>` for a `.py` file
      `<stem>.py` directly inside a package of the package map; the stem is
      never `__init__`, and is private only when privates are included. */
  lemma DiscoveredModuleName(fs: FileSystem, arg: DirArg, includePrivates: bool, n: string)
    requires ModuleNamesOf(fs, arg, includePrivates).Ok?
    requires n in ModuleNamesOf(fs, arg, includePrivates).value
    ensures exists d, package, s ::
              && (d, package) in DiscoverPackagesPerPath(fs, arg).value
              && s + ".py" in Listing(fs, d)
              && s != "__init__" && (includePrivates || !StartsWith(s, "_"))
              && n == package + "." + s
  {
    var entries := DiscoverPackagesPerPath(fs, arg).value;
    assert ModuleNamesOf(fs, arg, includePrivates).value == ModuleNames(fs, entries, includePrivates);
    EntryModuleName(fs, entries, includePrivates, n);
  }

  lemma EntryModuleName(fs: FileSystem, entries: seq<(Path, string)>, includePrivates: bool, n: string)
    requires n in ModuleNames(fs, entries, includePrivates)
    ensures exists d, package, s ::
              && (d, package) in entries
              && s + ".py" in Listing(fs, d)
              && s != "__init__" && (includePrivates || !StartsWith(s, "_"))
              && n == package + "." + s
  {
    ModuleNamesMembership(fs, entries, includePrivates, n);
    var i :| 0 <= i < |entries| && n in ModulesIn(fs, entries[i], includePrivates);
    var e := entries[i];
    PackageModulesMembership(e.1, PyStems(Listing(fs, e.0)), includePrivates, n);
    var s :| s in PyStems(Listing(fs, e.0)) && Eligible(s, includePrivates) && n == e.1 + "." + s;
    PyStemsNameFiles(Listing(fs, e.0), s);
    assert (e.0, e.1) in entries;
    assert s != "__init__" && (includePrivates || !StartsWith(s, "_"));
  }

  /** Conversely, every eligible `.py` file directly inside a package of
      the package map is discovered under `<package>.<stem>`. */
  lemma ModuleNameDiscovered(fs: FileSystem, arg: DirArg, includePrivates: bool,
                             d: Path, package: string, f: string)
    requires ModuleNamesOf(fs, arg, includePrivates).Ok?
    requires (d, package) in DiscoverPackagesPerPath(fs, arg).value
    requires f in Listing(fs, d) && IsPyFile(f) && Eligible(Stem(f), includePrivates)
    ensures package + "." + Stem(f) in ModuleNamesOf(fs, arg, includePrivates).value
  {
    var entries := DiscoverPackagesPerPath(fs, arg).value;
    var i :| 0 <= i < |entries| && entries[i] == (d, package);
    PyStemsListFiles(Listing(fs, d), f);
    PackageModulesMembership(package, PyStems(Listing(fs, d)), includePrivates, package + "." + Stem(f));
    ModuleNamesMembership(fs, entries, includePrivates, package + "." + Stem(f));
  }

  /** Every `.py` file of the listing has its stem listed. */
  lemma {:induction false} PyStemsListFiles(listing: seq<string>, f: string)
    requires f in listing && IsPyFile(f)
    ensures Stem(f) in PyStems(listing)
    decreases |listing|
  {
    if listing[0] != f {
      assert f in listing[1..];
      PyStemsListFiles(listing[1..], f);
    }
  }

  /** The modules that import, in name order (an independent statement of
      what the lenient loop collects). */
  function Imported(rt: Runtime, names: seq<string>): (r: seq<Module>)
    ensures |r| <= |names|
  {
    if names == [] then []
    else
      (if names[0] in rt.imports then [rt.imports[names[0]]] else []) + Imported(rt, names[1..])
  }

  /** The reference list holds the module of every name that imports, and
      nothing else. */
  lemma {:induction false} ImportedMembership(rt: Runtime, names: seq<string>, m: Module)
    ensures m in Imported(rt, names) <==> exists n :: n in names && n in rt.imports && rt.imports[n] == m
    decreases |names|
  {
    if names != [] {
      ImportedMembership(rt, names[1..], m);
      if exists n :: n in names && n in rt.imports && rt.imports[n] == m {
        var n :| n in names && n in rt.imports && rt.imports[n] == m;
        if n != names[0] {
          assert n in names[1..];
        }
      }
    }
  }

  /** The import loop of lines 100-108 over the first names: a failed
      import is skipped, or ends the loop with an `ImportError` when
      `raise_on_fail` is set. */
  function ImportAll(rt: Runtime, names: seq<string>, raiseOnFail: bool): Result<seq<Module>, Error>
  {
    if names == [] then Ok([])
    else
      match ImportAll(rt, names[..|names| - 1], raiseOnFail)
      case Err(e) => Err(e)
      case Ok(ms) =>
        var n := names[|names| - 1];
        if n in rt.imports then Ok(ms + [rt.imports[n]])
        else if raiseOnFail then Err(ImportFailed(n))
        else Ok(ms)
  }

  /** What `discover_modules` returns. */
  function ModulesOf(fs: FileSystem, rt: Runtime, arg: DirArg, includePrivates: bool, raiseOnFail: bool)
    : Result<seq<Module>, Error>
  {
    match ModuleNamesOf(fs, arg, includePrivates)
    case Err(e) => Err(e)
    case Ok(names) => ImportAll(rt, names, raiseOnFail)
  }

  /** `discover_modules`: import the discovered names one by one. */
  method DiscoverModules(fs: FileSystem, rt: Runtime, arg: DirArg, includePrivates: bool, raiseOnFail: bool)
      returns (r: Result<seq<Module>, Error>)
    ensures r == ModulesOf(fs, rt, arg, includePrivates, raiseOnFail)
  {
    var modules := DiscoverModuleNames(fs, arg, includePrivates);
    if modules.Err? {
      return Err(modules.error);
    }
    r := ImportEach(rt, modules.value, raiseOnFail);
  }

  /** The loop of lines 100-108: append each module that imports; on a
      failure, go on or raise. */
  method ImportEach(rt: Runtime, names: seq<string>, raiseOnFail: bool) returns (r: Result<seq<Module>, Error>)
    ensures r == ImportAll(rt, names, raiseOnFail)
  {
    var result: seq<Module> := [];
    for i := 0 to |names|
      invariant ImportAll(rt, names[..i], raiseOnFail) == Ok(result)
    {
      assert names[..i + 1][..i] == names[..i];
      if names[i] in rt.imports {
        result := result + [rt.imports[names[i]]];
      } else if raiseOnFail {
        ImportErrorSticks(rt, names, i + 1, raiseOnFail);
        return Err(ImportFailed(names[i]));
      }
    }
    assert names[..|names|] == names;
    return Ok(result);
  }

  /** Once the loop has raised, the remaining names change nothing. */
  lemma {:induction false} ImportErrorSticks(rt: Runtime, names: seq<string>, k: nat, raiseOnFail: bool)
    requires k <= |names| && ImportAll(rt, names[..k], raiseOnFail).Err?
    ensures ImportAll(rt, names, raiseOnFail) == ImportAll(rt, names[..k], raiseOnFail)
    decreases |names| - k
  {
    if k < |names| {
      var init := names[..|names| - 1];
      assert init[..k] == names[..k];
      ImportErrorSticks(rt, init, k, raiseOnFail);
    } else {
      assert names[..k] == names;
    }
  }

  /** Importing one more name extends the reference list by its module,
      if it has one. */
  lemma {:induction false} ImportedSnoc(rt: Runtime, names: seq<string>, n: string)
    ensures Imported(rt, names + [n]) == Imported(rt, names) + (if n in rt.imports then [rt.imports[n]] else [])
    decreases |names|
  {
    if names != [] {
      var head := if names[0] in rt.imports then [rt.imports[names[0]]] else [];
      var tail := if n in rt.imports then [rt.imports[n]] else [];
      assert (names + [n])[1..] == names[1..] + [n];
      ImportedSnoc(rt, names[1..], n);
      assert head + (Imported(rt, names[1..]) + tail) == (head + Imported(rt, names[1..])) + tail;
    }
  }

  /** Without `raise_on_fail` the loop never raises and returns exactly the
      modules that import, in name order. */
  lemma {:induction false} LenientImport(rt: Runtime, names: seq<string>)
    ensures ImportAll(rt, names, false) == Ok(Imported(rt, names))
    decreases |names|
  {
    if names != [] {
      var init := names[..|names| - 1];
      var n := names[|names| - 1];
      LenientImport(rt, init);
      ImportedSnoc(rt, init, n);
      assert init + [n] == names;
      if n !in rt.imports {
        assert Imported(rt, init) + [] == Imported(rt, init);
      }
    }
  }

  /** With `raise_on_fail` the loop raises exactly when some name does not
      import, naming the first such name; otherwise every name has its
      module, in name order. */
  lemma StrictImport(rt: Runtime, names: seq<string>)
    ensures ImportAll(rt, names, true).Err? <==> exists i :: 0 <= i < |names| && names[i] !in rt.imports
    ensures ImportAll(rt, names, true).Err? ==>
              exists i :: 0 <= i < |names| && names[i] !in rt.imports
                          && ImportAll(rt, names, true).error == ImportFailed(names[i])
                          && forall j :: 0 <= j < i ==> names[j] in rt.imports
    ensures ImportAll(rt, names, true).Ok? ==>
              ImportAll(rt, names, true).value == Imported(rt, names)
              && |ImportAll(rt, names, true).value| == |names|
  {
    if forall j :: 0 <= j < |names| ==> names[j] in rt.imports {
      StrictMatchesLenient(rt, names);
      LenientImport(rt, names);
      ImportedAll(rt, names);
    } else {
      var i := FirstMissing(rt, names);
      StrictFirstFailure(rt, names, i);
    }
  }

  /** When every name imports, raising or not makes no difference. */
  lemma {:induction false} StrictMatchesLenient(rt: Runtime, names: seq<string>)
    requires forall j :: 0 <= j < |names| ==> names[j] in rt.imports
    ensures ImportAll(rt, names, true) == ImportAll(rt, names, false)
    decreases |names|
  {
    if names != [] {
      var init := names[..|names| - 1];
      assert forall j :: 0 <= j < |init| ==> init[j] == names[j];
      StrictMatchesLenient(rt, init);
    }
  }

  /** When every name imports, every name contributes its module. */
  lemma {:induction false} ImportedAll(rt: Runtime, names: seq<string>)
    requires forall j :: 0 <= j < |names| ==> names[j] in rt.imports
    ensures |Imported(rt, names)| == |names|
    decreases |names|
  {
    if names != [] {
      assert forall j :: 0 <= j < |names| - 1 ==> names[1..][j] == names[j + 1];
      ImportedAll(rt, names[1..]);
    }
  }

  /** The first name that does not import, if there is one. */
  lemma {:induction false} FirstMissing(rt: Runtime, names: seq<string>) returns (i: nat)
    requires exists k :: 0 <= k < |names| && names[k] !in rt.imports
    ensures i < |names| && names[i] !in rt.imports
    ensures forall j :: 0 <= j < i ==> names[j] in rt.imports
    decreases |names|
  {
    if names[0] !in rt.imports {
      i := 0;
    } else {
      var k :| 0 <= k < |names| && names[k] !in rt.imports;
      assert names[1..][k - 1] == names[k];
      var i' := FirstMissing(rt, names[1..]);
      i := i' + 1;
      forall j | 0 <= j < i ensures names[j] in rt.imports {
        if j > 0 {
          assert names[j] == names[1..][j - 1];
        }
      }
    }
  }

  /** With `raise_on_fail`, the first name that does not import is the one
      the loop raises for. */
  lemma StrictFirstFailure(rt: Runtime, names: seq<string>, i: nat)
    requires i < |names| && names[i] !in rt.imports
    requires forall j :: 0 <= j < i ==> names[j] in rt.imports
    ensures ImportAll(rt, names, true) == Err(ImportFailed(names[i]))
  {
    var init := names[..i];
    assert forall j :: 0 <= j < |init| ==> init[j] == names[j];
    StrictMatchesLenient(rt, init);
    LenientImport(rt, init);
    assert names[..i + 1][..i] == init;
    assert ImportAll(rt, names[..i + 1], true) == Err(ImportFailed(names[i]));
    ImportErrorSticks(rt, names, i + 1, true);
  }

  /** What `_get_modules_from_source` is given. */
  datatype Source =
    | PathSource(path: Path)
    | StrSource(text: string)
    | ModuleSource(single: Module)
    | ModulesSource(modules: seq<Module>)
    | OtherSource

  /** `_get_modules_from_source`: a path (or its text) is searched for
      modules, with `in_private_modules` standing in for
      `include_privates`; a module stands for itself; modules are taken as
      they are; anything else is a `ValueError`. */
  function ModulesFromSource(fs: FileSystem, rt: Runtime, source: Source,
                             inPrivateModules: bool, raiseOnFail: bool): Result<seq<Module>, Error>
  {
    match source
    case PathSource(p) => ModulesOf(fs, rt, PathArg(p), inPrivateModules, raiseOnFail)
    case StrSource(text) => ModulesOf(fs, rt, PathArg(ParsePath(text)), inPrivateModules, raiseOnFail)
    case ModuleSource(m) => Ok([m])
    case ModulesSource(ms) => Ok(ms)
    case OtherSource => Err(InvalidSource)
  }

  /** The paths of a tree never fail with the source error. */
  lemma PathSourceIsNotInvalid(fs: FileSystem, rt: Runtime, arg: DirArg, inPrivateModules: bool,
                               raiseOnFail: bool)
    ensures ModulesOf(fs, rt, arg, inPrivateModules, raiseOnFail) != Err(InvalidSource)
  {
    if ModuleNamesOf(fs, arg, inPrivateModules).Ok? {
      var names := ModuleNamesOf(fs, arg, inPrivateModules).value;
      if raiseOnFail {
        StrictImport(rt, names);
      } else {
        LenientImport(rt, names);
      }
    }
  }

  /** A path and its text give the same modules; the module list found
      there gives itself back, and each of those modules as a single
      source gives just that module. */
  lemma SourceFormsAgree(fs: FileSystem, rt: Runtime, p: Path, inPrivateModules: bool, raiseOnFail: bool)
    requires WellFormed(p)
    ensures var a := ModulesFromSource(fs, rt, PathSource(p), inPrivateModules, raiseOnFail);
            && ModulesFromSource(fs, rt, StrSource(Render(p)), inPrivateModules, raiseOnFail) == a
            && (a.Ok? ==> ModulesFromSource(fs, rt, ModulesSource(a.value), inPrivateModules, raiseOnFail) == a)
            && (a.Ok? ==> forall m :: m in a.value ==>
                  ModulesFromSource(fs, rt, ModuleSource(m), inPrivateModules, raiseOnFail) == Ok([m]))
  {
    StringFormSamePath(p);
  }
}
