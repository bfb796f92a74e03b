/** Packages over the directory tree: `_path`, `_is_package`,
    `_to_package_name` and `_discover_packages_per_path` of
    barentsz/_discover.py. */
module Packages {
  import opened Wrappers
  import opened Strings
  import opened Host

  /** What `_path` is given: a `Path`, a `str`, or an object of any other
      type. */
  datatype DirArg = PathArg(path: Path) | StrArg(text: string) | OtherArg

  /** A segment `Path(text)` keeps: not empty, not `.`, free of `/`. */
  predicate IsSegment(x: string)
  {
    x != "" && x != "." && '/' !in x
  }

  predicate WellFormed(p: Path)
  {
    forall i :: 0 <= i < |p| ==> IsSegment(p[i])
  }

  /** The pieces between slashes that name a directory: empty pieces
      (doubled or trailing slashes) and `.` pieces are dropped. */
  function Segments(pieces: seq<string>): (p: Path)
    requires forall i :: 0 <= i < |pieces| ==> '/' !in pieces[i]
    ensures WellFormed(p)
    ensures forall i :: 0 <= i < |p| ==> p[i] in pieces
  {
    if pieces == [] then []
    else
      var rest := Segments(pieces[1..]);
      if pieces[0] == "" || pieces[0] == "." then rest else [pieces[0]] + rest
  }

  /** `Path(text)` for an absolute path text. */
  function ParsePath(text: string): (p: Path)
    ensures WellFormed(p)
  {
    Segments(Split(text, '/'))
  }

  /** `str(path)`: the absolute path text. */
  function Render(p: Path): string
  {
    "/" + Join(p, '/')
  }

  /** `_path`: a `Path` is kept, a `str` is parsed, anything else is a
      `ValueError`. */
  function PathOf(arg: DirArg): (r: Result<Path, Error>)
    ensures r.Err? <==> arg.OtherArg?
    ensures r.Err? ==> r.error == InvalidDirectoryType
    ensures arg.PathArg? ==> r == Ok(arg.path)
  {
    match arg
    case PathArg(p) => Ok(p)
    case StrArg(text) => Ok(ParsePath(text))
    case OtherArg => Err(InvalidDirectoryType)
  }

  /** Segments that are already well formed are all kept. */
  lemma {:induction false} SegmentsKeep(p: Path)
    requires WellFormed(p)
    ensures Segments(p) == p
    decreases |p|
  {
    if p != [] {
      assert WellFormed(p[1..]) by {
        forall i | 0 <= i < |p[1..]| ensures IsSegment(p[1..][i]) {
          assert p[1..][i] == p[i + 1];
        }
      }
      SegmentsKeep(p[1..]);
    }
  }

  /** A path and its string form name the same directory, so `_path`
      gives the same result for both. */
  lemma StringFormSamePath(p: Path)
    requires WellFormed(p)
    ensures ParsePath(Render(p)) == p
    ensures PathOf(StrArg(Render(p))) == PathOf(PathArg(p))
  {
    var s := Render(p);
    assert s[0] == '/' && s[1..] == Join(p, '/');
    if p == [] {
      assert Split(s, '/') == ["", ""];
      assert Segments(["", ""]) == Segments([""]) == [];
    } else {
      assert forall i :: 0 <= i < |p| ==> '/' !in p[i];
      SplitJoin(p, '/');
      assert Split(s, '/') == [""] + p;
      assert ([""] + p)[1..] == p;
      SegmentsKeep(p);
    }
  }

  /** `Path.name`: the last segment, empty for the root. */
  function Name(d: Path): string
  {
    if d == [] then "" else d[|d| - 1]
  }

  /** The position of the last `.` in `s`, or -1 (`str.rfind('.')`). */
  function LastDot(s: string): (r: int)
    ensures -1 <= r < |s|
    ensures r >= 0 ==> s[r] == '.'
    ensures forall j :: r < j < |s| ==> s[j] != '.'
  {
    if s == [] then -1
    else if s[|s| - 1] == '.' then |s| - 1
    else LastDot(s[..|s| - 1])
  }

  /** `Path.stem` of a name: the name without its last suffix, where a
      suffix is a `.` that is neither the first nor the last character,
      and what follows it. */
  function Stem(name: string): string
  {
    var i := LastDot(name);
    if 0 < i < |name| - 1 then name[..i] else name
  }

  /** A stem is the whole name, or the part before a `.` that has
      characters on both sides and is the last `.` of the name; when the
      name has such a `.`, the stem is the part before it. */
  lemma StemShape(name: string)
    ensures var r := Stem(name);
            && |r| <= |name| && r == name[..|r|]
            && (r != name ==> 0 < |r| < |name| - 1 && name[|r|] == '.' && '.' !in name[|r| + 1..])
    ensures forall i :: 0 < i < |name| - 1 && name[i] == '.' && '.' !in name[i + 1..] ==> Stem(name) == name[..i]
  {
    StemCut(name);
    forall i | 0 < i < |name| - 1 && name[i] == '.' && '.' !in name[i + 1..]
      ensures Stem(name) == name[..i]
    {
      LastDotAt(name, i);
    }
  }

  /** A stem that differs from the name stops at its last `.`. */
  lemma StemCut(name: string)
    ensures var r := Stem(name);
            && |r| <= |name| && r == name[..|r|]
            && (r != name ==> 0 < |r| < |name| - 1 && name[|r|] == '.' && '.' !in name[|r| + 1..])
  {
    var r := Stem(name);
    if r != name {
      var i := LastDot(name);
      var tail := name[i + 1..];
      forall t | 0 <= t < |tail| ensures tail[t] != '.' {
        assert tail[t] == name[i + 1 + t];
      }
    }
  }

  /** A `.` with no `.` after it is the last `.`. */
  lemma LastDotAt(s: string, i: nat)
    requires i < |s| && s[i] == '.' && '.' !in s[i + 1..]
    ensures LastDot(s) == i
  {
  }

  /** The stem of a `.py` file name is the name without `.py`. */
  lemma PyStem(x: string)
    requires x != []
    ensures Stem(x + ".py") == x
  {
    var name := x + ".py";
    assert name[|x|] == '.' && name[|x| + 1] == 'p' && name[|x| + 2] == 'y';
    assert LastDot(name) == |x|;
    assert name[..|x|] == x;
  }

  /** `_is_package`: the directory holds an `__init__.py`. */
  predicate IsPackage(fs: FileSystem, d: Path)
  {
    "__init__.py" in Listing(fs, d)
  }

  /** The stems `_to_package_name` collects, outermost first: one per
      package directory on the way up from `d`, stopping at the first
      directory that is not a package. The walk stops at the root too. */
  function PackageParts(fs: FileSystem, d: Path): seq<string>
    decreases |d|
  {
    if d != [] && IsPackage(fs, d) then PackageParts(fs, Parent(d)) + [Stem(Name(d))] else []
  }

  /** The dotted package name of a directory (the value of
      `_to_package_name`). */
  function PackageName(fs: FileSystem, d: Path): (r: string)
    ensures !IsPackage(fs, d) ==> r == ""
  {
    Join(PackageParts(fs, d), '.')
  }

  /** `_to_package_name`: walk upward while the directory is a package,
      putting each stem in front of those already collected. */
  method ToPackageName(fs: FileSystem, d: Path) returns (name: string)
    ensures name == PackageName(fs, d)
  {
    var parts: seq<string> := [];
    var current := d;
    while current != [] && IsPackage(fs, current)
      invariant |current| <= |d|
      invariant PackageParts(fs, d) == PackageParts(fs, current) + parts
      decreases |current|
    {
      var up := PackageParts(fs, Parent(current));
      var stem := Stem(Name(current));
      assert PackageParts(fs, current) == up + [stem];
      assert (up + [stem]) + parts == up + ([stem] + parts);
      parts := [stem] + parts;
      current := Parent(current);
    }
    assert PackageParts(fs, current) == [];
    assert [] + parts == parts;
    name := Join(parts, '.');
  }

  /** The stems from position `k` of `d` down to its end. */
  function StemsFrom(d: Path, k: nat): seq<string>
    requires k <= |d|
    decreases |d| - k
  {
    if k == |d| then [] else [Stem(d[k])] + StemsFrom(d, k + 1)
  }

  /** The parts are the stems of the longest run of package directories
      that ends at `d`, outermost first; the directory above that run is
      not a package (or the run reaches the root). The last part is the
      stem of `d` itself. */
  lemma PackageChain(fs: FileSystem, d: Path)
    ensures var n := |PackageParts(fs, d)|;
            && n <= |d|
            && PackageParts(fs, d) == StemsFrom(d, |d| - n)
            && (forall k :: |d| - n < k <= |d| ==> IsPackage(fs, d[..k]))
            && (n == |d| || !IsPackage(fs, d[..|d| - n]))
    ensures IsPackage(fs, d) && d != [] ==>
              PackageParts(fs, d) != [] && PackageParts(fs, d)[|PackageParts(fs, d)| - 1] == Stem(Name(d))
  {
    ChainStems(fs, d);
    ChainPackages(fs, d);
    ChainMaximal(fs, d);
    if IsPackage(fs, d) && d != [] {
      assert PackageParts(fs, d) == PackageParts(fs, Parent(d)) + [Stem(Name(d))];
    }
  }

  lemma {:induction false} ChainStems(fs: FileSystem, d: Path)
    ensures var n := |PackageParts(fs, d)|;
            n <= |d| && PackageParts(fs, d) == StemsFrom(d, |d| - n)
    decreases |d|
  {
    if d != [] && IsPackage(fs, d) {
      var up := Parent(d);
      ChainStems(fs, up);
      var m := |PackageParts(fs, up)|;
      assert PackageParts(fs, d) == PackageParts(fs, up) + [Stem(Name(d))];
      StemsFromParent(d, |d| - (m + 1));
    }
  }

  lemma {:induction false} ChainPackages(fs: FileSystem, d: Path)
    ensures var n := |PackageParts(fs, d)|;
            n <= |d| && forall k :: |d| - n < k <= |d| ==> IsPackage(fs, d[..k])
    decreases |d|
  {
    if d != [] && IsPackage(fs, d) {
      var up := Parent(d);
      ChainPackages(fs, up);
      var m := |PackageParts(fs, up)|;
      assert |PackageParts(fs, d)| == m + 1;
      forall k | |d| - (m + 1) < k <= |d|
        ensures IsPackage(fs, d[..k])
      {
        if k < |d| {
          assert d[..k] == up[..k];
        } else {
          assert d[..k] == d;
        }
      }
    }
  }

  lemma {:induction false} ChainMaximal(fs: FileSystem, d: Path)
    ensures var n := |PackageParts(fs, d)|;
            n <= |d| && (n == |d| || !IsPackage(fs, d[..|d| - n]))
    decreases |d|
  {
    if d != [] && IsPackage(fs, d) {
      var up := Parent(d);
      ChainMaximal(fs, up);
      var m := |PackageParts(fs, up)|;
      assert |PackageParts(fs, d)| == m + 1;
      if m < |up| {
        assert d[..|d| - (m + 1)] == up[..|up| - m];
      }
    } else {
      assert d[..|d|] == d;
    }
  }

  /** A directory `d` is below `root` when `root` is a prefix of it. */
  predicate Below(root: Path, d: Path)
  {
    |root| <= |d| && d[..|root|] == root
  }

  /** `**` does not descend into hidden directories below the root. */
  predicate Visible(root: Path, d: Path)
    requires Below(root, d)
  {
    forall k :: |root| <= k < |d| ==> !StartsWith(d[k], ".")
  }

  /** What `discover_paths` finds for `__init__.py` files at any depth,
      taken as their parents: a visible directory at or below the root
      that is a package. */
  predicate Found(fs: FileSystem, root: Path, d: Path)
  {
    Below(root, d) && Visible(root, d) && IsPackage(fs, d)
  }

  /** The package directories below `root`, in walk order
      (`[p.parent for p in paths_to_inits]`). */
  function FoundPackages(fs: FileSystem, root: Path, dirs: seq<Path>): seq<Path>
  {
    if dirs == [] then []
    else (if Found(fs, root, dirs[0]) then [dirs[0]] else []) + FoundPackages(fs, root, dirs[1..])
  }

  lemma {:induction false} FoundPackagesMembership(fs: FileSystem, root: Path, dirs: seq<Path>, d: Path)
    ensures d in FoundPackages(fs, root, dirs) <==> d in dirs && Found(fs, root, d)
    decreases |dirs|
  {
    if dirs != [] {
      FoundPackagesMembership(fs, root, dirs[1..], d);
      if d in dirs && d != dirs[0] {
        assert d in dirs[1..];
      }
    }
  }

  /** The package directory and its name, as in `packages_per_path`. */
  function Entry(fs: FileSystem, d: Path): (Path, string)
  {
    (d, PackageName(fs, d))
  }

  /** The dictionary filter of lines 195-196 as written: keep a package
      whose name starts with the base package's name. */
  function KeepPrefixed(fs: FileSystem, dirs: seq<Path>, base: string): seq<(Path, string)>
  {
    if dirs == [] then []
    else
      var e := Entry(fs, dirs[0]);
      (if StartsWith(e.1, base) then [e] else []) + KeepPrefixed(fs, dirs[1..], base)
  }

  lemma {:induction false} KeepPrefixedMembership(fs: FileSystem, dirs: seq<Path>, base: string,
                                                  d: Path, n: string)
    ensures (d, n) in KeepPrefixed(fs, dirs, base) <==>
              d in dirs && n == PackageName(fs, d) && StartsWith(n, base)
    decreases |dirs|
  {
    if dirs != [] {
      KeepPrefixedMembership(fs, dirs[1..], base, d, n);
      if d in dirs && d != dirs[0] {
        assert d in dirs[1..];
      }
    }
  }

  /** `_discover_packages_per_path` after validation, as written: the base
      package's name as a plain string prefix decides. This is the map the
      discovery functions use. */
  function PackagesPerPath(fs: FileSystem, root: Path): seq<(Path, string)>
  {
    KeepPrefixed(fs, FoundPackages(fs, root, fs.dirs), PackageName(fs, root))
  }

  /** Each entry of the package map is a found package directory under its
      own name, which starts with the base package's name, and every such
      directory has one. */
  lemma PackagesPerPathEntries(fs: FileSystem, root: Path, d: Path, n: string)
    ensures (d, n) in PackagesPerPath(fs, root) <==>
              && d in fs.dirs && Found(fs, root, d) && n == PackageName(fs, d)
              && StartsWith(n, PackageName(fs, root))
  {
    KeepPrefixedMembership(fs, FoundPackages(fs, root, fs.dirs), PackageName(fs, root), d, n);
    FoundPackagesMembership(fs, root, fs.dirs, d);
  }

  /** "A straight line of packages from the base package": every directory
      from the root down to `d` is a package. */
  predicate Connected(fs: FileSystem, root: Path, d: Path)
  {
    Below(root, d) && forall k :: |root| <= k <= |d| ==> IsPackage(fs, d[..k])
  }

  function KeepConnected(fs: FileSystem, root: Path, dirs: seq<Path>): seq<(Path, string)>
  {
    if dirs == [] then []
    else
      var e := Entry(fs, dirs[0]);
      (if Connected(fs, root, dirs[0]) then [e] else []) + KeepConnected(fs, root, dirs[1..])
  }

  lemma {:induction false} KeepConnectedMembership(fs: FileSystem, root: Path, dirs: seq<Path>,
                                                   d: Path, n: string)
    ensures (d, n) in KeepConnected(fs, root, dirs) <==>
              d in dirs && n == PackageName(fs, d) && Connected(fs, root, d)
    decreases |dirs|
  {
    if dirs != [] {
      KeepConnectedMembership(fs, root, dirs[1..], d, n);
      if d in dirs && d != dirs[0] {
        assert d in dirs[1..];
      }
    }
  }

  /** The map as line 193 intends it: only the packages that hang from the
      base package by a straight line of packages. */
  function ConnectedPackagesPerPath(fs: FileSystem, root: Path): seq<(Path, string)>
  {
    KeepConnected(fs, root, FoundPackages(fs, root, fs.dirs))
  }

  /** Each entry of the intended map is a found package directory under its
      own name, hanging from the root, and every such directory has one. */
  lemma ConnectedEntries(fs: FileSystem, root: Path, d: Path, n: string)
    ensures (d, n) in ConnectedPackagesPerPath(fs, root) <==>
              d in fs.dirs && Found(fs, root, d) && Connected(fs, root, d) && n == PackageName(fs, d)
  {
    KeepConnectedMembership(fs, root, FoundPackages(fs, root, fs.dirs), d, n);
    FoundPackagesMembership(fs, root, fs.dirs, d);
  }

  /** Along a straight line of packages, the name of a directory is the
      root's name followed by the stems below the root. */
  lemma {:induction false} ConnectedParts(fs: FileSystem, root: Path, d: Path)
    requires root != [] && Connected(fs, root, d)
    ensures PackageParts(fs, d) == PackageParts(fs, root) + StemsFrom(d, |root|)
    decreases |d|
  {
    if |d| == |root| {
      assert d == d[..|root|];
    } else {
      var up := Parent(d);
      ConnectedParent(fs, root, d);
      ConnectedParts(fs, root, up);
      assert d[..|d|] == d;
      assert PackageParts(fs, d) == PackageParts(fs, up) + [Stem(Name(d))];
      StemsFromParent(d, |root|);
    }
  }

  /** The parent of a directory hanging from the root, other than the root
      itself, hangs from the root too. */
  lemma ConnectedParent(fs: FileSystem, root: Path, d: Path)
    requires Connected(fs, root, d) && |d| > |root|
    ensures Connected(fs, root, Parent(d))
  {
    var up := Parent(d);
    forall k | |root| <= k <= |up| ensures IsPackage(fs, up[..k]) {
      assert up[..k] == d[..k];
    }
    assert up[..|root|] == d[..|root|];
  }

  lemma {:induction false} StemsFromParent(d: Path, k: nat)
    requires k < |d|
    ensures StemsFrom(d, k) == StemsFrom(Parent(d), k) + [Stem(d[|d| - 1])]
    decreases |d| - k
  {
    var up := Parent(d);
    if k + 1 < |d| {
      StemsFromParent(d, k + 1);
      assert up[k] == d[k];
    }
  }

  /** Every package hanging from the base package has the base package's
      name as its name or as a dotted prefix of it. */
  lemma ConnectedName(fs: FileSystem, root: Path, d: Path)
    requires Connected(fs, root, d)
    ensures var base := PackageName(fs, root);
            var n := PackageName(fs, d);
            root != [] ==> n == base || StartsWith(n, base + ".")
    ensures StartsWith(PackageName(fs, d), PackageName(fs, root))
  {
    if root == [] {
      assert PackageName(fs, root) == "";
      assert StartsWith(PackageName(fs, d), "");
    } else if |d| == |root| {
      assert d == d[..|root|];
    } else {
      ConnectedParts(fs, root, d);
      var a := PackageParts(fs, root);
      var b := StemsFrom(d, |root|);
      assert IsPackage(fs, d[..|root|]) && d[..|root|] == root;
      assert a != [] && b != [];
      JoinAppend(a, b, '.');
      var base := Join(a, '.');
      var n := Join(a + b, '.');
      assert n == base + "." + Join(b, '.');
      assert n[..|base + "."|] == base + ".";
      assert n[..|base|] == base;
    }
  }

  /** The corrected map keeps a subset of what the filter as written
      keeps. */
  lemma CorrectedWithinAsWritten(fs: FileSystem, root: Path, d: Path, n: string)
    requires (d, n) in ConnectedPackagesPerPath(fs, root)
    ensures (d, n) in PackagesPerPath(fs, root)
  {
    var found := FoundPackages(fs, root, fs.dirs);
    KeepConnectedMembership(fs, root, found, d, n);
    KeepPrefixedMembership(fs, found, PackageName(fs, root), d, n);
    ConnectedName(fs, root, d);
  }

  /** The filter as written keeps a package that does not hang from the
      base package: `/r/app` is the package `app`; `/r/app/plain` is a
      plain directory; `/r/app/plain/application` is a package of its own
      named `application`, which starts with `app`. */
  lemma PrefixFilterKeepsStranger()
    ensures var fs := StrangerTree();
            var root := ["r", "app"];
            var stranger := ["r", "app", "plain", "application"];
            && (stranger, "application") in PackagesPerPath(fs, root)
            && (stranger, "application") !in ConnectedPackagesPerPath(fs, root)
  {
    var fs := StrangerTree();
    var root := ["r", "app"];
    var stranger := ["r", "app", "plain", "application"];
    StrangerNames();
    StrangerFound();
    StrangerDisconnected();
    assert StartsWith("application", "app");
    FoundPackagesMembership(fs, root, fs.dirs, stranger);
    var found := FoundPackages(fs, root, fs.dirs);
    KeepPrefixedMembership(fs, found, "app", stranger, "application");
    KeepConnectedMembership(fs, root, found, stranger, "application");
  }

  /** What `discover_packages` lists for that tree: the stray package
      `application` next to `app`. */
  lemma StrangerPackagesListed()
    ensures DiscoverPackages(StrangerTree(), PathArg(["r", "app"])).Ok?
    ensures "application" in DiscoverPackages(StrangerTree(), PathArg(["r", "app"])).value
  {
    var fs := StrangerTree();
    var root := ["r", "app"];
    var stranger := ["r", "app", "plain", "application"];
    assert root in fs.dirs && IsPackage(fs, root);
    PrefixFilterKeepsStranger();
    var entries := PackagesPerPath(fs, root);
    assert DiscoverPackages(fs, PathArg(root)) == Ok(Names(entries));
    var i :| 0 <= i < |entries| && entries[i] == (stranger, "application");
    assert Names(entries)[i] == "application";
  }

  lemma StrangerNames()
    ensures PackageName(StrangerTree(), ["r", "app"]) == "app"
    ensures PackageName(StrangerTree(), ["r", "app", "plain", "application"]) == "application"
  {
    var fs := StrangerTree();
    assert !IsPackage(fs, ["r"]);
    assert PackageParts(fs, ["r", "app"]) == ["app"];
    assert !IsPackage(fs, ["r", "app", "plain"]);
    assert PackageParts(fs, ["r", "app", "plain", "application"]) == ["application"];
  }

  lemma StrangerFound()
    ensures Found(StrangerTree(), ["r", "app"], ["r", "app", "plain", "application"])
  {
    var stranger := ["r", "app", "plain", "application"];
    assert stranger[..2] == ["r", "app"];
    forall k | 2 <= k < 4 ensures !StartsWith(stranger[k], ".") {
      assert stranger[k][0] != '.';
    }
  }

  lemma StrangerDisconnected()
    ensures !Connected(StrangerTree(), ["r", "app"], ["r", "app", "plain", "application"])
  {
    var stranger := ["r", "app", "plain", "application"];
    assert stranger[..3] == ["r", "app", "plain"];
    assert !IsPackage(StrangerTree(), stranger[..3]);
  }

  function StrangerTree(): FileSystem
  {
    FileSystem(
      [["r"], ["r", "app"], ["r", "app", "plain"], ["r", "app", "plain", "application"]],
      map[["r", "app"] := ["__init__.py"], ["r", "app", "plain", "application"] := ["__init__.py"]])
  }

  /** `_discover_packages_per_path`: the directory argument is converted,
      then must exist, then must be a package; the map is built over the
      packages found below it. */
  function DiscoverPackagesPerPath(fs: FileSystem, arg: DirArg): (r: Result<seq<(Path, string)>, Error>)
  {
    match PathOf(arg)
    case Err(e) => Err(e)
    case Ok(root) =>
      if !Exists(fs, root) then Err(DirectoryDoesNotExist)
      else if !IsPackage(fs, root) then Err(NotAPackage)
      else Ok(PackagesPerPath(fs, root))
  }

  /** The validation order: a bad argument type first, then a missing
      directory (even one that is not a package either), then a directory
      that is not a package; every other call succeeds. */
  lemma PackagesValidation(fs: FileSystem, arg: DirArg)
    ensures arg.OtherArg? ==> DiscoverPackagesPerPath(fs, arg) == Err(InvalidDirectoryType)
    ensures !arg.OtherArg? ==>
              var root := PathOf(arg).value;
              && (!Exists(fs, root) <==> DiscoverPackagesPerPath(fs, arg) == Err(DirectoryDoesNotExist))
              && (Exists(fs, root) && !IsPackage(fs, root) <==> DiscoverPackagesPerPath(fs, arg) == Err(NotAPackage))
              && (Exists(fs, root) && IsPackage(fs, root) <==> DiscoverPackagesPerPath(fs, arg).Ok?)
  {
  }

  /** The values of the package map, in its order. */
  function Names(entries: seq<(Path, string)>): (r: seq<string>)
    ensures |r| == |entries|
    ensures forall i :: 0 <= i < |r| ==> r[i] == entries[i].1
  {
    seq(|entries|, i requires 0 <= i < |entries| => entries[i].1)
  }

  /** `discover_packages`: the names of the package map. */
  function DiscoverPackages(fs: FileSystem, arg: DirArg): (r: Result<seq<string>, Error>)
    ensures r.Err? <==> DiscoverPackagesPerPath(fs, arg).Err?
  {
    match DiscoverPackagesPerPath(fs, arg)
    case Err(e) => Err(e)
    case Ok(entries) => Ok(Names(entries))
  }

  /** A successful `discover_packages` lists the base package itself, and
      every name it lists starts with the base package's name. */
  lemma DiscoveredPackagesNamed(fs: FileSystem, arg: DirArg)
    requires Valid(fs) && DiscoverPackages(fs, arg).Ok?
    ensures var root := PathOf(arg).value;
            var names := DiscoverPackages(fs, arg).value;
            && PackageName(fs, root) in names
            && forall n :: n in names ==> StartsWith(n, PackageName(fs, root))
  {
    var root := PathOf(arg).value;
    var base := PackageName(fs, root);
    var entries := PackagesPerPath(fs, root);
    var names := Names(entries);
    assert root in fs.files;
    assert root[..|root|] == root;
    assert Found(fs, root, root);
    assert base[..|base|] == base;
    PackagesPerPathEntries(fs, root, root, base);
    assert (root, base) in entries;
    var i :| 0 <= i < |entries| && entries[i] == (root, base);
    assert names[i] == base;
    forall n | n in names ensures StartsWith(n, base) {
      var j :| 0 <= j < |names| && names[j] == n;
      assert entries[j] in entries;
      PackagesPerPathEntries(fs, root, entries[j].0, entries[j].1);
    }
  }
}
