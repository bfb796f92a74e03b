/** `discover_attributes` and `_create_attribute`
    (barentsz/_discover.py:135-153, 285-320): every line of every module
    that looks like an attribute declaration becomes an `Attribute`, whose
    value is looked up on the module by name; the attributes that pass the
    signature test and the privacy rule are returned, module by module and
    line by line. */
module AttributeScan {
  import opened Wrappers
  import opened Strings
  import opened Host
  import opened Attributes
  import opened AttributeMatcher
  import opened Packages
  import opened ModuleDiscovery

  /** `_create_attribute`: `getattr(module, name)` supplies the value (and
      raises when the module has no such attribute); `doc` is always
      `None`. */
  function CreateAttribute(rt: Runtime, m: Module, found: Match, line: string, lineNumber: int)
    : (r: Result<Attribute, Error>)
    ensures r.Err? <==> (m, found.name) !in rt.attributes
    ensures r.Err? ==> r.error == AttributeMissing(m.name, found.name)
    ensures r.Ok? ==>
              && r.value.value == rt.attributes[(m, found.name)]
              && r.value.valueType == r.value.value.typeName
              && r.value.doc == None
              && r.value.sourceModule == Some(m)
              && Match(r.value.name, r.value.hint, r.value.assignedValue, r.value.comment) == found
              && r.value.line == line
              && r.value.lineNumber == lineNumber
  {
    if (m, found.name) in rt.attributes then
      var value := rt.attributes[(m, found.name)];
      Ok(Attribute(found.name, value.typeName, value, None, found.comment, found.hint, Some(m),
                   found.value, line, lineNumber))
    else
      Err(AttributeMissing(m.name, found.name))
  }

  /** The line matcher the scan applies to every line: `discover_attributes`
      passes `_match_attribute` (`MatchAttribute`). The loops and their
      properties below hold whatever the matcher returns, so they take it
      as a parameter. */
  type LineMatcher = string -> Option<Match>

  /** The filter of lines 150-151. */
  predicate Kept(signature: Signature, includePrivates: bool, a: Attribute)
  {
    Accepts(signature, a.value) && (IsPublic(a) || includePrivates)
  }

  /** What one line adds to the result: nothing when it does not match,
      the attribute when it matches and passes the filter; the lookup
      error when its name is not an attribute of the module. */
  function LineAttributes(match_: LineMatcher, rt: Runtime, m: Module, signature: Signature, includePrivates: bool,
                          line: string, lineNumber: int): Result<seq<Attribute>, Error>
  {
    match match_(line)
    case None => Ok([])
    case Some(found) =>
      match CreateAttribute(rt, m, found, line, lineNumber)
      case Err(e) => Err(e)
      case Ok(a) => if Kept(signature, includePrivates, a) then Ok([a]) else Ok([])
  }

  /** The inner loop of lines 146-152 over the first `n` lines, numbered
      from 1. */
  function ScanLines(match_: LineMatcher, rt: Runtime, m: Module, lines: seq<string>, signature: Signature,
                     includePrivates: bool, n: nat): Result<seq<Attribute>, Error>
    requires n <= |lines|
  {
    if n == 0 then Ok([])
    else
      match ScanLines(match_, rt, m, lines, signature, includePrivates, n - 1)
      case Err(e) => Err(e)
      case Ok(found) =>
        match LineAttributes(match_, rt, m, signature, includePrivates, lines[n - 1], n)
        case Err(e) => Err(e)
        case Ok(more) => Ok(found + more)
  }

  /** The outer loop of lines 143-152 over a list of modules: a module
      without a readable source ends the scan with an error. */
  function ScanModules(match_: LineMatcher, rt: Runtime, modules: seq<Module>, signature: Signature, includePrivates: bool)
    : Result<seq<Attribute>, Error>
  {
    if modules == [] then Ok([])
    else
      match ScanModules(match_, rt, modules[..|modules| - 1], signature, includePrivates)
      case Err(e) => Err(e)
      case Ok(found) =>
        var m := modules[|modules| - 1];
        if m !in rt.sources then Err(SourceUnreadable(m.name))
        else
          match ScanLines(match_, rt, m, rt.sources[m], signature, includePrivates, |rt.sources[m]|)
          case Err(e) => Err(e)
          case Ok(more) => Ok(found + more)
  }

  /** What `discover_attributes` returns. */
  function AttributesOf(fs: FileSystem, rt: Runtime, source: Source, signature: Signature,
                        includePrivates: bool, inPrivateModules: bool, raiseOnFail: bool)
    : Result<seq<Attribute>, Error>
  {
    match ModulesFromSource(fs, rt, source, inPrivateModules, raiseOnFail)
    case Err(e) => Err(e)
    case Ok(modules) => ScanModules(MatchAttribute, rt, modules, signature, includePrivates)
  }

  /** `discover_attributes`. */
  method DiscoverAttributes(fs: FileSystem, rt: Runtime, source: Source, signature: Signature,
                            includePrivates: bool, inPrivateModules: bool, raiseOnFail: bool)
      returns (r: Result<seq<Attribute>, Error>)
    ensures r == AttributesOf(fs, rt, source, signature, includePrivates, inPrivateModules, raiseOnFail)
  {
    var modules := ModulesFromSource(fs, rt, source, inPrivateModules, raiseOnFail);
    if modules.Err? {
      return Err(modules.error);
    }
    r := ScanEach(MatchAttribute, rt, modules.value, signature, includePrivates);
  }

  /** The outer loop of lines 142-153: the attributes of each module in
      turn. */
  method ScanEach(match_: LineMatcher, rt: Runtime, modules: seq<Module>, signature: Signature, includePrivates: bool)
      returns (r: Result<seq<Attribute>, Error>)
    ensures r == ScanModules(match_, rt, modules, signature, includePrivates)
  {
    var attributes: seq<Attribute> := [];
    for i := 0 to |modules|
      invariant ScanModules(match_, rt, modules[..i], signature, includePrivates) == Ok(attributes)
    {
      var m := modules[i];
      ModuleStep(match_, rt, modules, i, signature, includePrivates);
      if m !in rt.sources {
        ScanErrorSticks(match_, rt, modules, i + 1, signature, includePrivates);
        return Err(SourceUnreadable(m.name));
      }
      var found := ScanModule(match_, rt, m, rt.sources[m], signature, includePrivates);
      if found.Err? {
        ScanErrorSticks(match_, rt, modules, i + 1, signature, includePrivates);
        return Err(found.error);
      }
      attributes := attributes + found.value;
    }
    assert modules[..|modules|] == modules;
    return Ok(attributes);
  }

  /** The inner loop of lines 146-152 over the lines of one module. */
  method ScanModule(match_: LineMatcher, rt: Runtime, m: Module, lines: seq<string>, signature: Signature, includePrivates: bool)
      returns (r: Result<seq<Attribute>, Error>)
    ensures r == ScanLines(match_, rt, m, lines, signature, includePrivates, |lines|)
  {
    var attributes: seq<Attribute> := [];
    for j := 0 to |lines|
      invariant ScanLines(match_, rt, m, lines, signature, includePrivates, j) == Ok(attributes)
    {
      LineStep(match_, rt, m, lines, signature, includePrivates, j);
      var more := ScanLine(match_, rt, m, signature, includePrivates, lines[j], j + 1);
      if more.Err? {
        LineErrorSticks(match_, rt, m, lines, signature, includePrivates, j + 1, |lines|);
        return Err(more.error);
      }
      attributes := attributes + more.value;
    }
    return Ok(attributes);
  }

  /** The body of the inner loop: match the line, build its attribute
      and keep it if it passes the filter. It raises exactly when the line
      matches a name the module lacks; otherwise it yields at most one
      attribute, the one declared on this line, and yields nothing only
      when the line does not match or its attribute is filtered out. */
  method ScanLine(match_: LineMatcher, rt: Runtime, m: Module, signature: Signature, includePrivates: bool, line: string, lineNumber: int)
      returns (r: Result<seq<Attribute>, Error>)
    ensures r == LineAttributes(match_, rt, m, signature, includePrivates, line, lineNumber)
    ensures r.Err? <==> LineFails(match_, rt, m, line)
    ensures r.Err? ==> r.error == AttributeMissing(m.name, match_(line).value.name)
    ensures r.Ok? ==> |r.value| <= 1
    ensures r.Ok? && r.value != [] ==>
              var a := r.value[0];
              && match_(line) == Some(Match(a.name, a.hint, a.assignedValue, a.comment))
              && a.line == line && a.lineNumber == lineNumber && a.sourceModule == Some(m)
              && (m, a.name) in rt.attributes && a.value == rt.attributes[(m, a.name)]
              && Kept(signature, includePrivates, a)
    ensures r.Ok? && r.value == [] ==>
              || match_(line).None?
              || !Kept(signature, includePrivates, CreateAttribute(rt, m, match_(line).value, line, lineNumber).value)
  {
    var matched := match_(line);
    if matched.None? {
      return Ok([]);
    }
    var attribute := CreateAttribute(rt, m, matched.value, line, lineNumber);
    if attribute.Err? {
      return Err(attribute.error);
    }
    if Kept(signature, includePrivates, attribute.value) {
      return Ok([attribute.value]);
    }
    return Ok([]);
  }

  /** The inner loop's step: the scan of one more line. */
  lemma LineStep(match_: LineMatcher, rt: Runtime, m: Module, lines: seq<string>, signature: Signature, includePrivates: bool, j: nat)
    requires j < |lines| && ScanLines(match_, rt, m, lines, signature, includePrivates, j).Ok?
    ensures var found := ScanLines(match_, rt, m, lines, signature, includePrivates, j).value;
            ScanLines(match_, rt, m, lines, signature, includePrivates, j + 1) ==
              match LineAttributes(match_, rt, m, signature, includePrivates, lines[j], j + 1)
              case Err(e) => Err(e)
              case Ok(more) => Ok(found + more)
  {
  }

  /** The outer loop's step: the scan of one more module. */
  lemma ModuleStep(match_: LineMatcher, rt: Runtime, modules: seq<Module>, i: nat, signature: Signature, includePrivates: bool)
    requires i < |modules| && ScanModules(match_, rt, modules[..i], signature, includePrivates).Ok?
    ensures var m := modules[i];
            var found := ScanModules(match_, rt, modules[..i], signature, includePrivates).value;
            ScanModules(match_, rt, modules[..i + 1], signature, includePrivates) ==
              if m !in rt.sources then Err(SourceUnreadable(m.name))
              else
                match ScanLines(match_, rt, m, rt.sources[m], signature, includePrivates, |rt.sources[m]|)
                case Err(e) => Err(e)
                case Ok(more) => Ok(found + more)
  {
    assert modules[..i + 1][..i] == modules[..i];
  }

  /** Once a line has raised, the later lines change nothing. */
  lemma {:induction false} LineErrorSticks(match_: LineMatcher, rt: Runtime, m: Module, lines: seq<string>, signature: Signature,
                                           includePrivates: bool, k: nat, n: nat)
    requires k <= n <= |lines| && ScanLines(match_, rt, m, lines, signature, includePrivates, k).Err?
    ensures ScanLines(match_, rt, m, lines, signature, includePrivates, n)
         == ScanLines(match_, rt, m, lines, signature, includePrivates, k)
    decreases n - k
  {
    if k < n {
      LineErrorSticks(match_, rt, m, lines, signature, includePrivates, k, n - 1);
    }
  }

  /** Once a module has raised, the later modules change nothing. */
  lemma {:induction false} ScanErrorSticks(match_: LineMatcher, rt: Runtime, modules: seq<Module>, k: nat, signature: Signature,
                                           includePrivates: bool)
    requires k <= |modules| && ScanModules(match_, rt, modules[..k], signature, includePrivates).Err?
    ensures ScanModules(match_, rt, modules, signature, includePrivates)
         == ScanModules(match_, rt, modules[..k], signature, includePrivates)
    decreases |modules| - k
  {
    if k < |modules| {
      var init := modules[..|modules| - 1];
      assert init[..k] == modules[..k];
      ScanErrorSticks(match_, rt, init, k, signature, includePrivates);
    } else {
      assert modules[..k] == modules;
    }
  }

  /** What an attribute found in the lines of module `m` records: the
      line it was declared on (numbered from 1), what the matcher read
      there, and the value `getattr` gave for its name. */
  predicate DeclaredOn(match_: LineMatcher, rt: Runtime, m: Module, lines: seq<string>, a: Attribute)
  {
    && a.sourceModule == Some(m)
    && 1 <= a.lineNumber <= |lines|
    && a.line == lines[a.lineNumber - 1]
    && match_(a.line) == Some(Match(a.name, a.hint, a.assignedValue, a.comment))
    && (m, a.name) in rt.attributes
    && a.value == rt.attributes[(m, a.name)]
    && a.valueType == a.value.typeName
    && a.doc == None
  }

  /** A line makes the scan raise: it matches, and its name is not an
      attribute of the module, whatever the filter would have said. */
  predicate LineFails(match_: LineMatcher, rt: Runtime, m: Module, line: string)
  {
    match_(line).Some? && (m, match_(line).value.name) !in rt.attributes
  }

  /** Every attribute the lines yield was declared on one of them, passes
      the signature test and is public unless privates are included. */
  lemma {:induction false} ScanLinesSound(match_: LineMatcher, rt: Runtime, m: Module, lines: seq<string>, signature: Signature,
                                          includePrivates: bool, n: nat, a: Attribute)
    requires n <= |lines| && ScanLines(match_, rt, m, lines, signature, includePrivates, n).Ok?
    requires a in ScanLines(match_, rt, m, lines, signature, includePrivates, n).value
    ensures DeclaredOn(match_, rt, m, lines, a) && a.lineNumber <= n
    ensures Kept(signature, includePrivates, a)
    decreases n
  {
    var found := ScanLines(match_, rt, m, lines, signature, includePrivates, n - 1).value;
    var more := LineAttributes(match_, rt, m, signature, includePrivates, lines[n - 1], n).value;
    if a in found {
      ScanLinesSound(match_, rt, m, lines, signature, includePrivates, n - 1, a);
    } else {
      assert a in more;
    }
  }

  /** Every line that matches yields its attribute when the attribute
      passes the filter; a scan that succeeds has resolved every matched
      name. */
  lemma {:induction false} ScanLinesComplete(match_: LineMatcher, rt: Runtime, m: Module, lines: seq<string>, signature: Signature,
                                             includePrivates: bool, n: nat, k: nat)
    requires k < n <= |lines| && ScanLines(match_, rt, m, lines, signature, includePrivates, n).Ok?
    requires match_(lines[k]).Some?
    ensures var found := match_(lines[k]).value;
            && (m, found.name) in rt.attributes
            && var a := CreateAttribute(rt, m, found, lines[k], k + 1).value;
               Kept(signature, includePrivates, a) ==> a in ScanLines(match_, rt, m, lines, signature, includePrivates, n).value
    decreases n
  {
    if k < n - 1 {
      ScanLinesComplete(match_, rt, m, lines, signature, includePrivates, n - 1, k);
    }
  }

  /** The attributes of one module come in line order. */
  lemma {:induction false} ScanLinesOrdered(match_: LineMatcher, rt: Runtime, m: Module, lines: seq<string>, signature: Signature,
                                            includePrivates: bool, n: nat)
    requires n <= |lines| && ScanLines(match_, rt, m, lines, signature, includePrivates, n).Ok?
    ensures var r := ScanLines(match_, rt, m, lines, signature, includePrivates, n).value;
            forall p, q :: 0 <= p < q < |r| ==> r[p].lineNumber < r[q].lineNumber
    decreases n
  {
    if n > 0 {
      var found := ScanLines(match_, rt, m, lines, signature, includePrivates, n - 1).value;
      var more := LineAttributes(match_, rt, m, signature, includePrivates, lines[n - 1], n).value;
      var r := found + more;
      ScanLinesOrdered(match_, rt, m, lines, signature, includePrivates, n - 1);
      forall p, q | 0 <= p < q < |r|
        ensures r[p].lineNumber < r[q].lineNumber
      {
        if q >= |found| {
          assert r[q] in more;
          assert r[p] in found;
          ScanLinesSound(match_, rt, m, lines, signature, includePrivates, n - 1, r[p]);
        }
      }
    }
  }

  /** The lines raise exactly when one of them matches with a name the
      module does not have. */
  lemma {:induction false} ScanLinesFails(match_: LineMatcher, rt: Runtime, m: Module, lines: seq<string>, signature: Signature,
                                          includePrivates: bool, n: nat)
    requires n <= |lines|
    ensures ScanLines(match_, rt, m, lines, signature, includePrivates, n).Err? <==>
              exists k :: 0 <= k < n && LineFails(match_, rt, m, lines[k])
    ensures ScanLines(match_, rt, m, lines, signature, includePrivates, n).Err? ==>
              ScanLines(match_, rt, m, lines, signature, includePrivates, n).error.AttributeMissing?
    decreases n
  {
    if n > 0 {
      ScanLinesFails(match_, rt, m, lines, signature, includePrivates, n - 1);
      if exists k :: 0 <= k < n && LineFails(match_, rt, m, lines[k]) {
        var k :| 0 <= k < n && LineFails(match_, rt, m, lines[k]);
        if k == n - 1 {
          assert LineAttributes(match_, rt, m, signature, includePrivates, lines[n - 1], n).Err?;
        }
      }
    }
  }

  /** Every attribute the scan returns was declared in one of the modules,
      passes the signature test and is public unless privates are
      included. */
  lemma {:induction false} ScanModulesSound(match_: LineMatcher, rt: Runtime, modules: seq<Module>, signature: Signature,
                                            includePrivates: bool, a: Attribute)
    requires ScanModules(match_, rt, modules, signature, includePrivates).Ok?
    requires a in ScanModules(match_, rt, modules, signature, includePrivates).value
    ensures a.sourceModule.Some? && a.sourceModule.value in modules && a.sourceModule.value in rt.sources
    ensures DeclaredOn(match_, rt, a.sourceModule.value, rt.sources[a.sourceModule.value], a)
    ensures Kept(signature, includePrivates, a)
    decreases |modules|
  {
    var init := modules[..|modules| - 1];
    var m := modules[|modules| - 1];
    var lines := rt.sources[m];
    if a in ScanModules(match_, rt, init, signature, includePrivates).value {
      ScanModulesSound(match_, rt, init, signature, includePrivates, a);
    } else {
      ScanLinesSound(match_, rt, m, lines, signature, includePrivates, |lines|, a);
    }
  }

  /** Every matching line of every module, private modules included,
      yields its attribute when the attribute passes the filter. */
  lemma {:induction false} ScanModulesComplete(match_: LineMatcher, rt: Runtime, modules: seq<Module>, signature: Signature,
                                               includePrivates: bool, i: nat, k: nat)
    requires ScanModules(match_, rt, modules, signature, includePrivates).Ok?
    requires i < |modules|
    ensures modules[i] in rt.sources
    ensures var m := modules[i];
            var lines := rt.sources[m];
            k < |lines| && match_(lines[k]).Some? ==>
              var found := match_(lines[k]).value;
              && (m, found.name) in rt.attributes
              && var a := CreateAttribute(rt, m, found, lines[k], k + 1).value;
                 Kept(signature, includePrivates, a) ==> a in ScanModules(match_, rt, modules, signature, includePrivates).value
    decreases |modules|
  {
    var init := modules[..|modules| - 1];
    if i < |modules| - 1 {
      assert init[i] == modules[i];
      ScanModulesComplete(match_, rt, init, signature, includePrivates, i, k);
    } else {
      var m := modules[i];
      var lines := rt.sources[m];
      if k < |lines| && match_(lines[k]).Some? {
        ScanLinesComplete(match_, rt, m, lines, signature, includePrivates, |lines|, k);
      }
    }
  }

  /** A module makes the scan raise: its source cannot be read, or one of
      its lines fails. */
  predicate ModuleFails(match_: LineMatcher, rt: Runtime, m: Module)
  {
    m !in rt.sources || exists k :: 0 <= k < |rt.sources[m]| && LineFails(match_, rt, m, rt.sources[m][k])
  }

  /** The scan raises exactly when one of the modules fails, and only with
      a lookup or read error. */
  lemma {:induction false} ScanModulesFails(match_: LineMatcher, rt: Runtime, modules: seq<Module>, signature: Signature,
                                            includePrivates: bool)
    ensures ScanModules(match_, rt, modules, signature, includePrivates).Err? <==>
              exists i :: 0 <= i < |modules| && ModuleFails(match_, rt, modules[i])
    ensures var r := ScanModules(match_, rt, modules, signature, includePrivates);
            r.Err? ==> r.error.AttributeMissing? || r.error.SourceUnreadable?
    decreases |modules|
  {
    if modules != [] {
      var init := modules[..|modules| - 1];
      var m := modules[|modules| - 1];
      ScanModulesFails(match_, rt, init, signature, includePrivates);
      if m in rt.sources {
        ScanLinesFails(match_, rt, m, rt.sources[m], signature, includePrivates, |rt.sources[m]|);
      }
      if exists i :: 0 <= i < |modules| && ModuleFails(match_, rt, modules[i]) {
        var i :| 0 <= i < |modules| && ModuleFails(match_, rt, modules[i]);
        if i < |modules| - 1 {
          assert init[i] == modules[i];
        }
      }
      if exists i :: 0 <= i < |init| && ModuleFails(match_, rt, init[i]) {
        var i :| 0 <= i < |init| && ModuleFails(match_, rt, init[i]);
        assert modules[i] == init[i];
      }
    }
  }

  /** Scanning two lists of modules one after the other gives the
      attributes of the first list, then those of the second. */
  lemma {:induction false} ScanModulesConcat(match_: LineMatcher, rt: Runtime, a: seq<Module>, b: seq<Module>, signature: Signature,
                                             includePrivates: bool)
    requires ScanModules(match_, rt, a, signature, includePrivates).Ok?
    requires ScanModules(match_, rt, b, signature, includePrivates).Ok?
    ensures ScanModules(match_, rt, a + b, signature, includePrivates)
         == Ok(ScanModules(match_, rt, a, signature, includePrivates).value
               + ScanModules(match_, rt, b, signature, includePrivates).value)
    decreases |b|
  {
    var x := ScanModules(match_, rt, a, signature, includePrivates).value;
    if b == [] {
      assert a + b == a;
      assert x + [] == x;
    } else {
      var b' := b[..|b| - 1];
      var m := b[|b| - 1];
      var y' := ScanModules(match_, rt, b', signature, includePrivates).value;
      var more := ScanLines(match_, rt, m, rt.sources[m], signature, includePrivates, |rt.sources[m]|).value;
      assert (a + b)[..|a + b| - 1] == a + b';
      assert (a + b)[|a + b| - 1] == m;
      ScanModulesConcat(match_, rt, a, b', signature, includePrivates);
      assert (x + y') + more == x + (y' + more);
    }
  }

  /** `discover_attributes` fails with the source error exactly when the
      source is none of a path, a string, a module or modules. */
  lemma InvalidSourceOnlyForOthers(fs: FileSystem, rt: Runtime, source: Source, signature: Signature,
                                   includePrivates: bool, inPrivateModules: bool, raiseOnFail: bool)
    ensures (AttributesOf(fs, rt, source, signature, includePrivates, inPrivateModules, raiseOnFail)
             == Err(InvalidSource)) <==> source.OtherSource?
  {
    var s := ModulesFromSource(fs, rt, source, inPrivateModules, raiseOnFail);
    if source.PathSource? {
      PathSourceIsNotInvalid(fs, rt, PathArg(source.path), inPrivateModules, raiseOnFail);
    } else if source.StrSource? {
      PathSourceIsNotInvalid(fs, rt, PathArg(ParsePath(source.text)), inPrivateModules, raiseOnFail);
    }
    if s.Ok? {
      ScanModulesFails(MatchAttribute, rt, s.value, signature, includePrivates);
    }
  }

  /** Every attribute `discover_attributes` returns was declared on a line
      of one of the source's modules, carries the value `getattr` gave for
      its name, passes the signature test and is public unless privates
      are included. */
  lemma DiscoveredAttribute(modules: seq<Module>, fs: FileSystem, rt: Runtime, source: Source,
                            signature: Signature, includePrivates: bool, inPrivateModules: bool,
                            raiseOnFail: bool, a: Attribute)
    requires ModulesFromSource(fs, rt, source, inPrivateModules, raiseOnFail) == Ok(modules)
    requires AttributesOf(fs, rt, source, signature, includePrivates, inPrivateModules, raiseOnFail).Ok?
    requires a in AttributesOf(fs, rt, source, signature, includePrivates, inPrivateModules, raiseOnFail).value
    ensures a.sourceModule.Some? && a.sourceModule.value in modules && a.sourceModule.value in rt.sources
    ensures DeclaredOn(MatchAttribute, rt, a.sourceModule.value, rt.sources[a.sourceModule.value], a)
    ensures Accepts(signature, a.value) && (IsPublic(a) || includePrivates)
  {
    ScanModulesSound(MatchAttribute, rt, modules, signature, includePrivates, a);
  }

  /** Conversely, every line of every one of the source's modules (private
      modules too: the module filter of `_discover_elements` is not applied
      here) that declares an attribute passing the filter is returned. */
  lemma AttributeDiscovered(modules: seq<Module>, fs: FileSystem, rt: Runtime, source: Source,
                            signature: Signature, includePrivates: bool, inPrivateModules: bool,
                            raiseOnFail: bool, i: nat, k: nat)
    requires ModulesFromSource(fs, rt, source, inPrivateModules, raiseOnFail) == Ok(modules)
    requires AttributesOf(fs, rt, source, signature, includePrivates, inPrivateModules, raiseOnFail).Ok?
    requires i < |modules|
    requires modules[i] in rt.sources && k < |rt.sources[modules[i]]|
    requires MatchAttribute(rt.sources[modules[i]][k]).Some?
    ensures var m := modules[i];
            var line := rt.sources[m][k];
            var found := MatchAttribute(line).value;
            && (m, found.name) in rt.attributes
            && var a := CreateAttribute(rt, m, found, line, k + 1).value;
               Accepts(signature, a.value) && (IsPublic(a) || includePrivates) ==>
                 a in AttributesOf(fs, rt, source, signature, includePrivates, inPrivateModules, raiseOnFail).value
  {
    ScanModulesComplete(MatchAttribute, rt, modules, signature, includePrivates, i, k);
  }
}
