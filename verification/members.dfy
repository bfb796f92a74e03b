/** Members of the discovered modules: `_discover_elements` and the
    signature filters of `discover_classes` and `discover_functions`
    (barentsz/_discover.py:111-132, 156-167). */
module Members {
  import opened Wrappers
  import opened Strings
  import opened Host
  import opened ModuleDiscovery

  /** The `filter_` passed to `inspect.getmembers`: `inspect.isclass` or
      `inspect.isfunction`. */
  predicate OfKind(kind: Kind, obj: PyObject)
  {
    obj.kind == kind
  }

  /** Whether the members of a module are looked at: the module is public,
      or private modules are searched as well (line 165). */
  predicate SearchedModule(m: Module, inPrivateModules: bool)
  {
    inPrivateModules || !StartsWith(m.name, "_")
  }

  /** Whether a member is kept: it has the kind asked for and a public
      `__name__`, unless privates are included (lines 164, 166). */
  predicate KeptMember(kind: Kind, includePrivates: bool, obj: PyObject)
  {
    OfKind(kind, obj) && (includePrivates || !StartsWith(obj.name, "_"))
  }

  /** The members one module contributes to the comprehension. */
  function ModuleElements(rt: Runtime, m: Module, kind: Kind, includePrivates: bool,
                          inPrivateModules: bool): seq<PyObject>
  {
    if SearchedModule(m, inPrivateModules)
    then KeepMembers(MembersOf(rt, m), kind, includePrivates)
    else []
  }

  /** `[elem for _, elem in members if <elem is kept>]`. */
  function KeepMembers(objs: seq<PyObject>, kind: Kind, includePrivates: bool): seq<PyObject>
  {
    if objs == [] then []
    else (if KeptMember(kind, includePrivates, objs[0]) then [objs[0]] else [])
         + KeepMembers(objs[1..], kind, includePrivates)
  }

  /** The members kept are exactly those with the kind asked for and a
      public name, unless privates are included. */
  lemma {:induction false} KeepMembersMembership(objs: seq<PyObject>, kind: Kind, includePrivates: bool,
                                                 o: PyObject)
    ensures o in KeepMembers(objs, kind, includePrivates) <==> o in objs && KeptMember(kind, includePrivates, o)
    decreases |objs|
  {
    if objs != [] {
      KeepMembersMembership(objs[1..], kind, includePrivates, o);
      assert objs == [objs[0]] + objs[1..];
    }
  }

  /** The comprehension of lines 163-166 over a list of modules, module by
      module and member by member. */
  function Elements(rt: Runtime, modules: seq<Module>, kind: Kind, includePrivates: bool,
                    inPrivateModules: bool): seq<PyObject>
  {
    if modules == [] then []
    else ModuleElements(rt, modules[0], kind, includePrivates, inPrivateModules)
         + Elements(rt, modules[1..], kind, includePrivates, inPrivateModules)
  }

  /** A member is an element exactly when it belongs to a searched module,
      has the kind asked for, and is public unless privates are included. */
  lemma ModuleElementsMembership(rt: Runtime, m: Module, kind: Kind, includePrivates: bool,
                                 inPrivateModules: bool, o: PyObject)
    ensures o in ModuleElements(rt, m, kind, includePrivates, inPrivateModules) <==>
              && SearchedModule(m, inPrivateModules)
              && o in MembersOf(rt, m)
              && o.kind == kind
              && (includePrivates || !StartsWith(o.name, "_"))
  {
    KeepMembersMembership(MembersOf(rt, m), kind, includePrivates, o);
  }

  /** The elements of a list of modules are those of its modules. */
  lemma {:induction false} ElementsMembership(rt: Runtime, modules: seq<Module>, kind: Kind,
                                              includePrivates: bool, inPrivateModules: bool, o: PyObject)
    ensures o in Elements(rt, modules, kind, includePrivates, inPrivateModules) <==>
              exists i :: 0 <= i < |modules| &&
                o in ModuleElements(rt, modules[i], kind, includePrivates, inPrivateModules)
    decreases |modules|
  {
    if modules != [] {
      ElementsMembership(rt, modules[1..], kind, includePrivates, inPrivateModules, o);
      if exists i :: 0 <= i < |modules| &&
           o in ModuleElements(rt, modules[i], kind, includePrivates, inPrivateModules) {
        var i :| 0 <= i < |modules| &&
                 o in ModuleElements(rt, modules[i], kind, includePrivates, inPrivateModules);
        if i > 0 {
          assert modules[1..][i - 1] == modules[i];
        }
      }
      if o in Elements(rt, modules[1..], kind, includePrivates, inPrivateModules) {
        var i :| 0 <= i < |modules[1..]| &&
                 o in ModuleElements(rt, modules[1..][i], kind, includePrivates, inPrivateModules);
        assert modules[i + 1] == modules[1..][i];
      }
    }
  }

  /** `_discover_elements`: the members of the modules the source names. */
  function DiscoverElements(fs: FileSystem, rt: Runtime, source: Source, kind: Kind, includePrivates: bool,
                            inPrivateModules: bool, raiseOnFail: bool): Result<seq<PyObject>, Error>
  {
    match ModulesFromSource(fs, rt, source, inPrivateModules, raiseOnFail)
    case Err(e) => Err(e)
    case Ok(modules) => Ok(Elements(rt, modules, kind, includePrivates, inPrivateModules))
  }

  /** The signature test of `discover_classes` and `discover_functions`:
      `Any` (or `Callable`) keeps everything, any other signature keeps
      what `subclass_of` (or `instance_of`) accepts. */
  function Select(objs: seq<PyObject>, signature: Signature): seq<PyObject>
  {
    if objs == [] then []
    else (if Accepts(signature, objs[0]) then [objs[0]] else []) + Select(objs[1..], signature)
  }

  /** The selection keeps exactly the objects the signature accepts. */
  lemma {:induction false} SelectMembership(objs: seq<PyObject>, signature: Signature, o: PyObject)
    ensures o in Select(objs, signature) <==> o in objs && Accepts(signature, o)
    decreases |objs|
  {
    if objs != [] {
      SelectMembership(objs[1..], signature, o);
      assert objs == [objs[0]] + objs[1..];
    }
  }

  /** `Any` and `Callable` select every element, in the same order. */
  lemma {:induction false} UnrestrictedSelectsAll(objs: seq<PyObject>)
    ensures Select(objs, Unrestricted) == objs
    decreases |objs|
  {
    if objs != [] {
      UnrestrictedSelectsAll(objs[1..]);
      assert [objs[0]] + objs[1..] == objs;
    }
  }

  /** `discover_classes` and `discover_functions`: the elements of one kind
      that pass the signature test, in element order. */
  function DiscoverOfKind(fs: FileSystem, rt: Runtime, source: Source, kind: Kind, signature: Signature,
                          includePrivates: bool, inPrivateModules: bool, raiseOnFail: bool)
    : Result<seq<PyObject>, Error>
  {
    match DiscoverElements(fs, rt, source, kind, includePrivates, inPrivateModules, raiseOnFail)
    case Err(e) => Err(e)
    case Ok(elements) => Ok(Select(elements, signature))
  }

  function DiscoverClasses(fs: FileSystem, rt: Runtime, source: Source, signature: Signature,
                           includePrivates: bool, inPrivateModules: bool, raiseOnFail: bool)
    : Result<seq<PyObject>, Error>
  {
    DiscoverOfKind(fs, rt, source, ClassKind, signature, includePrivates, inPrivateModules, raiseOnFail)
  }

  function DiscoverFunctions(fs: FileSystem, rt: Runtime, source: Source, signature: Signature,
                             includePrivates: bool, inPrivateModules: bool, raiseOnFail: bool)
    : Result<seq<PyObject>, Error>
  {
    DiscoverOfKind(fs, rt, source, FunctionKind, signature, includePrivates, inPrivateModules, raiseOnFail)
  }

  /** What makes an object discoverable among `modules`: it is a member of
      one of them that is searched, has the kind asked for, is public
      unless privates are included and passes the signature test. */
  predicate Discoverable(rt: Runtime, modules: seq<Module>, kind: Kind, signature: Signature,
                         includePrivates: bool, inPrivateModules: bool, o: PyObject)
  {
    && (exists i :: 0 <= i < |modules| && SearchedModule(modules[i], inPrivateModules)
                                       && o in MembersOf(rt, modules[i]))
    && o.kind == kind
    && (includePrivates || !StartsWith(o.name, "_"))
    && Accepts(signature, o)
  }

  /** The selected elements of a list of modules are exactly its
      discoverable objects. */
  lemma SelectedElements(rt: Runtime, modules: seq<Module>, kind: Kind, signature: Signature,
                         includePrivates: bool, inPrivateModules: bool, o: PyObject)
    ensures o in Select(Elements(rt, modules, kind, includePrivates, inPrivateModules), signature)
            <==> Discoverable(rt, modules, kind, signature, includePrivates, inPrivateModules, o)
  {
    var elements := Elements(rt, modules, kind, includePrivates, inPrivateModules);
    SelectMembership(elements, signature, o);
    ElementsMembership(rt, modules, kind, includePrivates, inPrivateModules, o);
    if o in elements {
      var i :| 0 <= i < |modules| && o in ModuleElements(rt, modules[i], kind, includePrivates, inPrivateModules);
      ModuleElementsMembership(rt, modules[i], kind, includePrivates, inPrivateModules, o);
    }
    if exists i :: 0 <= i < |modules| && SearchedModule(modules[i], inPrivateModules)
                                      && o in MembersOf(rt, modules[i]) {
      var i :| 0 <= i < |modules| && SearchedModule(modules[i], inPrivateModules)
                                  && o in MembersOf(rt, modules[i]);
      ModuleElementsMembership(rt, modules[i], kind, includePrivates, inPrivateModules, o);
    }
  }

  /** An object is discovered exactly when it is discoverable among the
      source's modules. */
  lemma DiscoveredOfKind(modules: seq<Module>, fs: FileSystem, rt: Runtime, source: Source,
                         kind: Kind, signature: Signature, includePrivates: bool,
                         inPrivateModules: bool, raiseOnFail: bool, o: PyObject)
    requires ModulesFromSource(fs, rt, source, inPrivateModules, raiseOnFail) == Ok(modules)
    ensures var r := DiscoverOfKind(fs, rt, source, kind, signature, includePrivates, inPrivateModules, raiseOnFail);
            r.Ok? && (o in r.value <==>
                      Discoverable(rt, modules, kind, signature, includePrivates, inPrivateModules, o))
  {
    var elements := Elements(rt, modules, kind, includePrivates, inPrivateModules);
    assert DiscoverElements(fs, rt, source, kind, includePrivates, inPrivateModules, raiseOnFail) == Ok(elements);
    SelectedElements(rt, modules, kind, signature, includePrivates, inPrivateModules, o);
  }

  /** The class search fails exactly when the source cannot be resolved,
      and then with the same error. */
  lemma ClassSearchFails(fs: FileSystem, rt: Runtime, source: Source, signature: Signature,
                         includePrivates: bool, inPrivateModules: bool, raiseOnFail: bool)
    ensures var s := ModulesFromSource(fs, rt, source, inPrivateModules, raiseOnFail);
            var r := DiscoverClasses(fs, rt, source, signature, includePrivates, inPrivateModules, raiseOnFail);
            (r.Err? <==> s.Err?) && (s.Err? ==> r.error == s.error)
  {
  }

  /** Every discovered class is a public (or, with `include_privates`, any)
      class member of a searched module that passes `subclass_of`, and every
      such member is discovered. */
  lemma DiscoveredClass(modules: seq<Module>, fs: FileSystem, rt: Runtime, source: Source,
                        signature: Signature, includePrivates: bool, inPrivateModules: bool,
                        raiseOnFail: bool, c: PyObject)
    requires ModulesFromSource(fs, rt, source, inPrivateModules, raiseOnFail) == Ok(modules)
    ensures var r := DiscoverClasses(fs, rt, source, signature, includePrivates, inPrivateModules, raiseOnFail);
            r.Ok? && (c in r.value <==>
              && (exists i :: 0 <= i < |modules| && SearchedModule(modules[i], inPrivateModules)
                                                 && c in MembersOf(rt, modules[i]))
              && c.kind == ClassKind
              && (includePrivates || !StartsWith(c.name, "_"))
              && Accepts(signature, c))
  {
    DiscoveredOfKind(modules, fs, rt, source, ClassKind, signature, includePrivates, inPrivateModules,
                     raiseOnFail, c);
  }

  /** The same for functions and `instance_of`. */
  lemma DiscoveredFunction(modules: seq<Module>, fs: FileSystem, rt: Runtime, source: Source,
                           signature: Signature, includePrivates: bool, inPrivateModules: bool,
                           raiseOnFail: bool, f: PyObject)
    requires ModulesFromSource(fs, rt, source, inPrivateModules, raiseOnFail) == Ok(modules)
    ensures var r := DiscoverFunctions(fs, rt, source, signature, includePrivates, inPrivateModules, raiseOnFail);
            r.Ok? && (f in r.value <==>
              && (exists i :: 0 <= i < |modules| && SearchedModule(modules[i], inPrivateModules)
                                                 && f in MembersOf(rt, modules[i]))
              && f.kind == FunctionKind
              && (includePrivates || !StartsWith(f.name, "_"))
              && Accepts(signature, f))
  {
    DiscoveredOfKind(modules, fs, rt, source, FunctionKind, signature, includePrivates, inPrivateModules,
                     raiseOnFail, f);
  }

  /** With `Any` (or `Callable`) as signature, the search returns every
      element `_discover_elements` finds, in the same order. */
  lemma UnrestrictedKeepsElements(fs: FileSystem, rt: Runtime, source: Source, kind: Kind,
                                  includePrivates: bool, inPrivateModules: bool, raiseOnFail: bool)
    ensures DiscoverOfKind(fs, rt, source, kind, Unrestricted, includePrivates, inPrivateModules, raiseOnFail)
         == DiscoverElements(fs, rt, source, kind, includePrivates, inPrivateModules, raiseOnFail)
  {
    var d := DiscoverElements(fs, rt, source, kind, includePrivates, inPrivateModules, raiseOnFail);
    if d.Ok? {
      UnrestrictedSelectsAll(d.value);
    }
  }

  /** A private module contributes nothing unless private modules are
      searched, whatever its members. */
  lemma PrivateModuleSkipped(rt: Runtime, m: Module, kind: Kind, includePrivates: bool)
    requires StartsWith(m.name, "_")
    ensures ModuleElements(rt, m, kind, includePrivates, false) == []
  {
  }
}
