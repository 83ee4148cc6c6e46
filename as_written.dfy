/**
  Construction as lib/plugger.js:47 writes it. The call passes three
  arguments to `loadModules(dirPath, depth, opts, callback)`, so the result
  callback lands in `opts` and `callback` is `undefined`. A function has no
  `filter` property, so the scan still uses the default filter and the
  source's depth and emits the same results as `SourceResults`; but the first
  result it emits, an error or a module, calls `undefined` and throws a
  TypeError out of the constructor. No module ever reaches `_isValidModule`.

  The rest of the model uses the evidently intended call, with the callback
  as the fourth argument: `Plugger.Plugger` constructor.
 */
module AsWritten {
  import opened JsValues
  import opened Utils
  import opened Plugger
  import PrioritySort

  /** How `new Plugger(...)` ends with the call as written. */
  datatype Construction = Constructed(plugins: seq<Module>) | ThrowsTypeError(source: nat)

  /** The constructor's loop from source `i` on, with the call as written:
      a source whose scan emits nothing leaves the registry alone, the first
      source whose scan emits anything throws. */
  function ConstructFrom(sources: seq<ModuleSource>, i: nat): (c: Construction)
    requires i <= |sources|
    decreases |sources| - i
    ensures c.Constructed? <==> forall j | i <= j < |sources| :: SourceResults(sources[j]) == []
    ensures c.Constructed? ==> c.plugins == []
    ensures c.ThrowsTypeError? ==>
      i <= c.source < |sources| && SourceResults(sources[c.source]) != [] &&
      forall j | i <= j < c.source :: SourceResults(sources[j]) == []
  {
    if i == |sources| then Constructed([])
    else if SourceResults(sources[i]) != [] then ThrowsTypeError(i)
    else ConstructFrom(sources, i + 1)
  }

  /** `new Plugger(modules, ...)` as written. */
  function ConstructAsWritten(sources: seq<ModuleSource>): Construction
  {
    ConstructFrom(sources, 0)
  }

  /** Sources whose scans emit nothing contribute nothing to the intended
      registry either. */
  lemma {:induction false} SilentSourcesDiscoverNothing(sources: seq<ModuleSource>, o: Options)
    requires forall j | 0 <= j < |sources| :: SourceResults(sources[j]) == []
    ensures Discovered(sources, o) == []
  {
    if sources != [] {
      var n := |sources| - 1;
      assert forall j | 0 <= j < n :: sources[..n][j] == sources[j];
      SilentSourcesDiscoverNothing(sources[..n], o);
    }
  }

  /** Whenever the intended constructor would register any plugin, the
      constructor as written throws instead; when it does not throw, it
      registers nothing. */
  lemma AsWrittenLosesEveryPlugin(sources: seq<ModuleSource>, o: Options)
    ensures Discovered(sources, o) != [] ==> ConstructAsWritten(sources).ThrowsTypeError?
    ensures ConstructAsWritten(sources).Constructed? ==> ConstructAsWritten(sources).plugins == []
  {
    if ConstructAsWritten(sources).Constructed? {
      SilentSourcesDiscoverNothing(sources, o);
    }
  }

  /** A directory holding the single file `plugin1.js` reports its module,
      whatever the depth. */
  lemma OneFileSourceReports(path: Path, p: Module, depth: Value)
    ensures SourceResults(ModuleSource(path, Listing([File("plugin1.js", p)]), depth)) == [Ok(p, path + ["plugin1.js"])]
  {
    var root := Listing([File("plugin1.js", p)]);
    var d := NormalizeDepth(SourceDepth(ModuleSource(path, root, depth)));
    assert DefaultFilter("plugin1.js") by {
      assert "plugin1.js"[|"plugin1.js"| - |".js"|..] == ".js";
    }
    assert EffectiveFilter(ScanOptions(None)) == DefaultFilter;
    assert Visit(root, 0, path, d - 1, DefaultFilter) == [Ok(p, path + ["plugin1.js"])];
    assert WalkEntries(root, 0, path, d - 1, DefaultFilter) == [];
    assert WalkEntries(root, 1, path, d - 1, DefaultFilter) == [Ok(p, path + ["plugin1.js"])];
    assert Walk(root, path, d, DefaultFilter) == [Ok(p, path + ["plugin1.js"])];
  }

  /** The scenario of test/test.js:10-23: one source, no depth, default
      options, a directory holding `plugin1.js` with a valid plugin. As
      written the constructor throws; the intended constructor registers
      exactly that plugin. */
  lemma LoadsPluginDirectoryScenario(p: Module)
    requires IsValidModule(p, DefaultOptions)
    ensures var sources := [ModuleSource(["test", "plugins"], Listing([File("plugin1.js", p)]), Undefined)];
      ConstructAsWritten(sources) == ThrowsTypeError(0) &&
      PrioritySort.SortByPriority(Discovered(sources, DefaultOptions)) == [p]
  {
    var source := ModuleSource(["test", "plugins"], Listing([File("plugin1.js", p)]), Undefined);
    OneFileSourceReports(["test", "plugins"], p, Undefined);
    SingleSourceDiscovers(source, p, DefaultOptions);
    SortSingleton(p);
  }

  lemma SingleSourceDiscovers(source: ModuleSource, p: Module, o: Options)
    requires IsValidModule(p, o) && |SourceResults(source)| == 1 && SourceResults(source)[0].Ok?
    requires SourceResults(source)[0].exports == p
    ensures Discovered([source], o) == [p]
  {
    var results := SourceResults(source);
    assert results[..0] == [];
    assert AcceptResults(results, o) == AcceptResults(results[..0], o) + [p];
    assert [source][..0] == [];
    assert Discovered([source], o) == Discovered([], o) + AcceptResults(results, o);
  }

  lemma SortSingleton(p: Module)
    ensures PrioritySort.SortByPriority([p]) == [p]
  {
    assert [p][..0] == [];
    assert PrioritySort.SortBy([p], "priority") == PrioritySort.Insert(p, PrioritySort.SortBy([], "priority"), "priority");
  }

  /** The test's plugin: an init function, the name `plugin1` that
      `getPlugin('plugin1')` looks for, and priority 0. */
  lemma Plugin1IsValid()
    ensures var plugin1 := map["init" := Fn(1), "name" := Str("plugin1"), "priority" := Num(0)];
      IsValidModule(plugin1, DefaultOptions) && Get(plugin1, DefaultOptions.name) == Str("plugin1")
  {
  }
}
