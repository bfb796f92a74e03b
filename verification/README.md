# barentsz discovery core in Dafny

barentsz finds the packages, modules, classes, functions and module-level
attributes below a directory of Python source. This project models its
discovery core, `barentsz/_discover.py`, and its `Attribute` value object,
`barentsz/_attribute.py`. It then proves what these functions promise to
their callers.

The model is split into these modules:

- `Host` (host.dfy): what the core only observes.
  - The file system is a list of directories in walk order, plus a map from each directory to its listing.
  - The Python runtime is a table of importable module names, the members of each module, `getattr` results, and the lines of each module's file.
  - The signature test stands in for `subclass_of` / `instance_of`.
  - `Error` lists the exceptions the core raises.
- `Attributes` (attributes.dfy): `Attribute` as a datatype, with `is_private`, `is_public`, `is_constant` and `__eq__`.
- `AttributeMatcher` (matcher.dfy): `_match_attribute`, written as the regular expression's own matching order. The head is the name, the optional hint and the `=`. The tail is the lazy value and the optional comment.
- `AttributeLayout` (layout.dfy): the inverse direction. A declaration laid out from its groups with any blank gaps is read back as those groups. The three declarations of the test suite are proved from this.
- `Packages` (packages.dfy): `_path`, `Path.stem`, `_is_package`, `_to_package_name` (a method with its loop), `_discover_packages_per_path` and `discover_packages`.
- `ModuleDiscovery` (modules.dfy): `discover_module_names` and `discover_modules`, both as methods with their loops, and `_get_modules_from_source`.
- `Members` (members.dfy): the `_discover_elements` comprehension, `discover_classes` and `discover_functions`.
- `AttributeScan` (scan.dfy): `_create_attribute` and `discover_attributes`. The nested loop is a method per loop level, proved against a function.

Each method is proved equal to a specification function. The lemmas state
what each function means: which entries are in a result and why, in which
order, and when and with which error a call fails.

## Model

| member | source | states |
|---|---|---|
| Attributes.IsPrivate | barentsz/_attribute.py:47-53 | private exactly when the name starts with `_` |
| Attributes.IsPublic | barentsz/_attribute.py:55-61 | public exactly when the name is empty or does not start with `_` |
| Attributes.IsConstant | barentsz/_attribute.py:63-69 | constant exactly when the name has an upper-case ASCII letter and no lower-case one (`str.isupper`); a constant's name holds a capital |
| Attributes.Equals | barentsz/_attribute.py:71-82 | equal exactly when the other object is an attribute with the same name, value, type, module and line number |
| Attributes.IgnoredFieldsDoNotMatter | barentsz/_attribute.py:71-82 | changing doc, comment, hint, assigned value or line never changes the outcome of `__eq__` |
| Attributes.EqualsIsEquivalence | barentsz/_attribute.py:71-82 | `__eq__` on attributes is reflexive, symmetric and transitive |
| AttributeMatcher.StripFinalNewline | barentsz/_discover.py:274 | `$` matches at the end or before one final newline: a line ending in a newline loses exactly that newline, any other line is kept whole, and the result is a prefix of the line |
| AttributeMatcher.MatchedName | barentsz/_discover.py:265-268 | a matched line contains `=` and its name group is an identifier (`[a-zA-Z_]+[a-zA-Z_0-9]*`) |
| AttributeMatcher.MatchedNameStartsLine | barentsz/_discover.py:266-268 | the name is the start of the line once leading blanks are removed, and the next character cannot continue it |
| AttributeMatcher.MatchedHint | barentsz/_discover.py:269 | a matched hint is a non-empty run of word characters |
| AttributeMatcher.MatchedValue | barentsz/_discover.py:270-272 | a matched value is non-empty, has no newline, and ends in a non-blank unless it is one character (lazy `.+?`) |
| AttributeMatcher.MatchedComment | barentsz/_discover.py:272-274 | a matched comment has no newline and no blank at either end |
| AttributeLayout.RoundTrip | barentsz/_discover.py:253-282 | a declaration written out from name, hint, value and comment with blank gaps is matched back to exactly those groups, with or without a final newline |
| AttributeLayout.SingleLine | barentsz/_discover.py:265-276 | a one-line text matches exactly when the head up to `=` matches and something follows the `=` |
| AttributeLayout.PlainDeclaration | tests/test_discover_attributes.py:12-18 | `'  some_attr   =     2  '` gives `('some_attr', None, '2', None)` |
| AttributeLayout.HintedDeclaration | tests/test_discover_attributes.py:13-19 | `'  some_attr  :  int  =   2  '` gives `('some_attr', 'int', '2', None)` |
| AttributeLayout.CommentedDeclaration | tests/test_discover_attributes.py:14-20 | the commented declaration gives `('some_attr', 'int', '2', 'bla bla bla!')` |
| Strings.JoinAppend | barentsz/_discover.py:335 | `'.'.join` of two non-empty lists, one after the other, is the join of the first, one `.`, then the join of the second |
| Strings.SplitJoin | barentsz/_discover.py:212-215 | splitting a joined list of separator-free parts gives the parts back |
| Packages.PathOf | barentsz/_discover.py:201-219 | `_path` fails with the type error exactly for a non-path, non-string argument; a path is kept as it is |
| Packages.StringFormSamePath | barentsz/_discover.py:212-215 | a path and its string form give the same path |
| Packages.StemShape | barentsz/_discover.py:333 | a stem is a prefix of the name; it is the part before the name's last `.` exactly when that dot has characters on both sides, and the whole name otherwise |
| Packages.PyStem | barentsz/_discover.py:75-77 | the stem of `x.py` is `x` |
| Packages.PackageName | barentsz/_discover.py:328-335 | a directory that is not a package has the empty name |
| Packages.ToPackageName | barentsz/_discover.py:328-335 | the loop returns the dotted join of the stems collected on the way up |
| Packages.PackageChain | barentsz/_discover.py:328-335 | the parts are the stems of the longest run of package directories ending at the directory, outermost first; the directory above the run is not a package; the last part is the directory's own stem |
| Packages.FoundPackagesMembership | barentsz/_discover.py:189-190 | the parents of the `__init__.py` files found are the visible package directories at or below the root |
| Packages.KeepPrefixedMembership | barentsz/_discover.py:195-196 | the filter as written keeps exactly the packages whose name starts with the base name |
| Packages.KeepConnectedMembership | barentsz/_discover.py:193 | the corrected filter keeps exactly the packages joined to the base package by a line of packages |
| Packages.PackagesPerPathEntries | barentsz/_discover.py:189-198 | an entry is a found package directory under its own name, and that name starts with the base package's name; each such directory has its entry |
| Packages.ConnectedEntries | barentsz/_discover.py:193 | an entry of the corrected map is a found package directory under its own name, joined to the root by packages, and each such directory has its entry |
| Packages.ConnectedName | barentsz/_discover.py:193-196 | every package joined to the base package has the base name, or a name that starts with the base name and a `.` |
| Packages.CorrectedWithinAsWritten | barentsz/_discover.py:193-196 | the corrected map keeps only entries that the filter as written also keeps |
| Packages.PrefixFilterKeepsStranger | barentsz/_discover.py:193-196 | a package named `application` below a plain directory under package `app` passes the filter as written but not the corrected one |
| Packages.StrangerPackagesListed | barentsz/_discover.py:44-54 | for that tree, `discover_packages` on `/r/app` succeeds and lists `application` |
| Packages.PackagesValidation | barentsz/_discover.py:181-187 | errors come in order: bad type, then a missing directory, then not a package; every other call succeeds |
| Packages.DiscoverPackages | barentsz/_discover.py:44-54 | `discover_packages` fails exactly when the package map does |
| Packages.DiscoveredPackagesNamed | barentsz/_discover.py:44-54 | the base package itself is listed and every listed name starts with its name |
| ModuleDiscovery.DiscoverModuleNames | barentsz/_discover.py:57-79 | the method returns the package map's error or the module names of its entries |
| ModuleDiscovery.CollectModuleNames | barentsz/_discover.py:72-79 | the loop extends the result by each entry's module names, in entry order |
| ModuleDiscovery.PackageModulesMembership | barentsz/_discover.py:75-78 | one package contributes `package.stem` exactly for its eligible `.py` stems |
| ModuleDiscovery.ModuleNamesMembership | barentsz/_discover.py:74-78 | a name is in the result exactly when some entry of the map contributes it |
| ModuleDiscovery.DiscoveredModuleName | barentsz/_discover.py:72-79 | every name is `package.stem` for a `stem.py` inside a mapped package; the stem is not `__init__`, and it is private only when privates are included |
| ModuleDiscovery.ModuleNameDiscovered | barentsz/_discover.py:72-79 | every eligible `.py` file inside a mapped package is listed as `package.stem` |
| ModuleDiscovery.PyStemsNameFiles | barentsz/_discover.py:75-76 | every collected stem comes from a `stem.py` in the listing |
| ModuleDiscovery.PyStemsListFiles | barentsz/_discover.py:75-76 | every `.py` file of the listing has its stem collected |
| ModuleDiscovery.DiscoverModules | barentsz/_discover.py:82-108 | the method returns the name error or the result of importing the names |
| ModuleDiscovery.ImportEach | barentsz/_discover.py:100-108 | the loop's result equals the import specification, including the early raise |
| ModuleDiscovery.ImportedMembership | barentsz/_discover.py:101-104 | a module is in the reference list exactly when some name imports as it |
| ModuleDiscovery.LenientImport | barentsz/_discover.py:100-108 | without `raise_on_fail` the import never fails and keeps exactly the modules that import, in name order |
| ModuleDiscovery.StrictImport | barentsz/_discover.py:100-108 | with `raise_on_fail` the import fails exactly when some name does not import, naming the first such name; otherwise every name has its module, in order |
| ModuleDiscovery.StrictFirstFailure | barentsz/_discover.py:105-107 | the first name that does not import is the one the error names |
| ModuleDiscovery.StrictMatchesLenient | barentsz/_discover.py:101-107 | when every name imports, `raise_on_fail` makes no difference |
| ModuleDiscovery.ImportErrorSticks | barentsz/_discover.py:106-107 | once the loop has raised, the remaining names change nothing |
| ModuleDiscovery.PathSourceIsNotInvalid | barentsz/_discover.py:238-242 | a path or string source never produces the invalid-source error |
| ModuleDiscovery.SourceFormsAgree | barentsz/_discover.py:238-246 | a path and its string give the same modules, the module list found there gives itself back, and each of those modules as a single source gives just that module |
| Members.KeepMembersMembership | barentsz/_discover.py:163-166 | a member is kept exactly when it has the kind and is public or privates are included |
| Members.ModuleElementsMembership | barentsz/_discover.py:163-166 | a module contributes exactly its members of the kind with an allowed name, and only if the module is searched |
| Members.ElementsMembership | barentsz/_discover.py:163-164 | an object is an element exactly when some module of the list contributes it |
| Members.SelectMembership | barentsz/_discover.py:119-120 | the signature filter keeps exactly the elements that the signature accepts |
| Members.UnrestrictedSelectsAll | barentsz/_discover.py:119-120 | with `Any` / `Callable` as the signature the filter keeps every element, in order |
| Members.SelectedElements | barentsz/_discover.py:117-120 | filtered elements are exactly the discoverable objects of the modules |
| Members.DiscoveredOfKind | barentsz/_discover.py:156-167 | once the source gives modules, discovery succeeds and yields exactly the discoverable objects |
| Members.ClassSearchFails | barentsz/_discover.py:117-118 | class discovery fails exactly when the source fails, with the same error |
| Members.DiscoveredClass | barentsz/_discover.py:111-120 | a class is found exactly when a searched module has it, its name is allowed and the signature accepts it |
| Members.DiscoveredFunction | barentsz/_discover.py:123-132 | a function is found exactly when a searched module has it, its name is allowed and the signature accepts it |
| Members.UnrestrictedKeepsElements | barentsz/_discover.py:119-120 | with the default signature the result is the element list itself |
| Members.PrivateModuleSkipped | barentsz/_discover.py:165 | a module whose name starts with `_` contributes nothing unless private modules are searched |
| AttributeScan.CreateAttribute | barentsz/_discover.py:285-320 | fails with the lookup error exactly when the module lacks the name; otherwise carries the looked-up value, its type, no doc, the module, the four groups, the line and its number |
| AttributeScan.DiscoverAttributes | barentsz/_discover.py:135-153 | the method returns exactly the attribute specification |
| AttributeScan.ScanEach | barentsz/_discover.py:143-152 | the outer loop over modules equals the module scan |
| AttributeScan.ScanModule | barentsz/_discover.py:146-152 | the inner loop over one module's lines equals the line scan |
| AttributeScan.ScanLine | barentsz/_discover.py:147-152 | one line raises exactly when it matches a name the module lacks, with that name's lookup error; otherwise it yields at most one attribute, declared on this line with the module's value and passing the filter, and yields nothing only when the line does not match or its attribute is filtered out |
| AttributeScan.ScanLinesSound | barentsz/_discover.py:146-152 | every attribute found was declared on its line number of the module, matches that line, and passes the filter |
| AttributeScan.ScanLinesComplete | barentsz/_discover.py:146-152 | every matching line whose attribute passes the filter yields that attribute |
| AttributeScan.ScanLinesOrdered | barentsz/_discover.py:146-152 | attributes come in strictly increasing line order |
| AttributeScan.ScanLinesFails | barentsz/_discover.py:147-149 | the scan of a module fails exactly when a matching line names a missing attribute, and then with the lookup error |
| AttributeScan.ScanModulesSound | barentsz/_discover.py:143-152 | every attribute comes from one of the modules and was declared there |
| AttributeScan.ScanModulesComplete | barentsz/_discover.py:143-152 | every attribute that a module's lines declare and that passes the filter is in the result |
| AttributeScan.ScanModulesFails | barentsz/_discover.py:143-149 | the scan fails exactly when a module cannot be read or one of its lines fails, and only with those errors |
| AttributeScan.ScanModulesConcat | barentsz/_discover.py:142-153 | scanning two module lists one after the other gives the first list's attributes, then the second's |
| AttributeScan.InvalidSourceOnlyForOthers | barentsz/_discover.py:141 | attribute discovery fails with the source error exactly for a source that is not a path, string, module or modules |
| AttributeScan.DiscoveredAttribute | barentsz/_discover.py:135-153 | every discovered attribute was declared on its line in one of the source's modules, is accepted by the signature, and is public unless privates are included |
| AttributeScan.AttributeDiscovered | barentsz/_discover.py:135-153 | every declaration in a source module that the signature accepts, and that is public or admitted, is discovered |

## Left out

- `discover_paths` and `glob`: the walk is the file system's directory list. `**` does not enter hidden directories, and a package is a directory whose listing holds `__init__.py`. Symbolic links, absolute-path conversion and the insertion into `sys.path` (barentsz/_discover.py:36-41) are not modelled.
- Glob patterns: `discover_paths` (barentsz/_discover.py:39-41) joins the glob pattern to the unescaped directory text, so `*`, `?` and `[` in a directory name act as wildcards there, in `_is_package` (barentsz/_discover.py:323-325) and in the `**/__init__.py` and `*.py` searches. The model reads every directory and file name literally.
- Relative paths and the working directory: paths are absolute lists of segments, and a string is read as an absolute path. `Path(text)` drops empty and `.` segments, and `..` is kept as a segment.
- The walk in `_to_package_name` stops at the file-system root. Python's `Path.parent` of the root is the root itself, so the source would loop there if the root directory held an `__init__.py`.
- `import_module`, `inspect.getmembers`, `getattr`, `typish.subclass_of` and `typish.instance_of` are not modelled. The runtime table supplies their answers, and the signature is a test on objects.
- Exceptions raised by `import_module` that are not import failures are not told apart from import failures.
- Opening a module file is a lookup in the runtime's source table. A module without an entry fails with a read error.
- `\w` in the hint is ASCII letters, digits and `_`. Python's `\w` also accepts other Unicode letters and digits.
- Attribute documentation: `_create_attribute` always passes `doc=None` (barentsz/_discover.py:313), and so does the model.
- Ordering: every list result follows the order of the directory walk, the listing and the module's members. `inspect.getmembers` (barentsz/_discover.py:164) returns a module's members sorted by name; the model takes each member list of the runtime table as given and does not require it to be sorted, so the order of classes and functions within a module is the table's.
- `AttributeScan.ScanEach`, `AttributeScan.ScanModule`, `AttributeScan.ScanLine`: the nested loop of `discover_attributes` is split into one method per loop level. The matcher is passed in as a parameter, and `DiscoverAttributes` passes `_match_attribute`.
- Members.ElementsMembership: states which objects the comprehension yields, but not their order.
- AttributeScan.CreateAttribute: a name the module lacks is an error, as `getattr` raises. Skipping such a line, as a caller might wish, is not modelled.
- A class given as a `source` to `discover_functions` or `discover_attributes` is not a path, string, module or modules. The model rejects it like any other source.
- Attributes.IsConstant: only the ASCII letters `A`-`Z` and `a`-`z` are cased. Python's `str.isupper` also counts other Unicode cased letters, so a name such as `É` is a constant in Python but not in the model, and `Aé` is a constant in the model but not in Python.
- Attributes.Equals: value, type and module are compared as model values, and an object's value carries its identity. Python compares them with `==`, so two attributes holding equal but distinct lists `[1]` are equal in Python and unequal in the model.
- Attributes.EqualsIsEquivalence: holds because of that value comparison. In Python, an attribute whose value is a float NaN is not equal to itself, so `__eq__` is not reflexive there.
- Listings hold file names only. A subdirectory named `x.py` or `__init__.py` would match the source's globs, and the model does not capture that.
- `discover` and `here` (barentsz/_here.py) and the package's `__init__.py` are not part of this model.

## Findings

| source | as written | input that shows it | evidently intended | confidence | as-written member | corrected member |
|---|---|---|---|---|---|---|
| barentsz/_discover.py:193-196 | keeps every found package whose dotted name starts with the base package's name as a plain string | base `/r/app` is package `app`, `/r/app/plain` has no `__init__.py`, `/r/app/plain/application` is package `application`: it is kept | per line 193, keep only packages joined to the base package by a straight line of packages | high, not executed | Packages.PrefixFilterKeepsStranger | Packages.ConnectedName |

Package, module, class, function and attribute discovery in this model
use the map as the code computes it (`Packages.PackagesPerPath`), so they
inherit the stray entry: `Packages.StrangerPackagesListed` shows
`discover_packages` listing it. The corrected map is
`Packages.ConnectedPackagesPerPath`, whose entries `Packages.ConnectedEntries`
describes. `Packages.CorrectedWithinAsWritten` shows that it keeps a subset
of the entries the code as written keeps.
