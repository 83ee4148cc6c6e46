/**
  The plugin registry of lib/plugger.js: argument defaulting, the structural
  check every plugin must pass, construction (scan every source, keep the
  modules that pass, sort by priority), lookup by name and initialisation.

  The hook engine (`Hooker`) is external: the engine instance and its bound
  `hook` method are opaque values handed to every plugin's init method.
 */
module Plugger {
  import opened JsValues
  import opened Utils
  import opened PrioritySort
  import ScanProperties

  /** `_options`: the property names under which a plugin keeps its init
      method, its priority and its name. */
  datatype Options = Options(init: string, priority: string, name: string)

  /** `DEF_OPTIONS` */
  const DefaultOptions: Options := Options("init", "priority", "name")

  /** The constructor's second argument. A field of an options object that is
      not set is None; reading `module[undefined]` then looks up the property
      named "undefined". A function there has no `init` or `priority` property
      but has a `name`: its own function name. */
  datatype OptionsArg =
    | NoOptions   // undefined, null or another falsy value
    | OptionsObject(init: Option<string>, priority: Option<string>, name: Option<string>)
    | OptionsFunction(fn: nat, fnName: string)

  function PropertyKey(field: Option<string>): string
  {
    if field.Some? then field.value else "undefined"
  }

  /** `options || DEF_OPTIONS` */
  function OptionsOf(arg: OptionsArg): Options
  {
    match arg
    case NoOptions => DefaultOptions
    case OptionsObject(init, priority, name) => Options(PropertyKey(init), PropertyKey(priority), PropertyKey(name))
    case OptionsFunction(_, fnName) => Options("undefined", "undefined", fnName)
  }

  /** lib/plugger.js:25-30: the effective options and completion callback of
      `Plugger(modules, options, callback)` called with `argc` arguments. */
  function ShuffleArguments(argc: nat, options: OptionsArg, callback: Value): (r: (Options, Value))
    ensures argc == 2 && options.OptionsFunction? ==> r.0 == DefaultOptions && r.1 == Fn(options.fn)
    ensures !(argc == 2 && options.OptionsFunction?) ==> r.1 == callback
    ensures options.NoOptions? ==> r.0 == DefaultOptions
    ensures options.OptionsObject? && options.init.Some? && options.priority.Some? && options.name.Some? ==>
      r.0 == Options(options.init.value, options.priority.value, options.name.value)
  {
    if argc == 2 && options.OptionsFunction? then (DefaultOptions, Fn(options.fn))
    else (OptionsOf(options), callback)
  }

  /** `typeof v === 'function'` */
  predicate IsFunction(v: Value) { v.Fn? }

  /** `typeof v === 'string'` and `v.length` is not 0 */
  predicate IsNonEmptyString(v: Value) { v.Str? && |v.s| > 0 }

  /** `typeof v === 'number'` and not `v < 0` */
  predicate IsNonNegativeNumber(v: Value) { v.Num? && v.n >= 0 }

  /** `_isValidModule`: three checks, each returning false as soon as it fails. */
  function IsValidModule(m: Module, o: Options): (r: bool)
    ensures !IsFunction(Get(m, o.init)) ==> !r
    ensures !IsNonEmptyString(Get(m, o.name)) ==> !r
    ensures !IsNonNegativeNumber(Get(m, o.priority)) ==> !r
    ensures IsFunction(Get(m, o.init)) && IsNonEmptyString(Get(m, o.name)) && IsNonNegativeNumber(Get(m, o.priority)) ==> r
  {
    if !Get(m, o.init).Fn? then false
    else if !Get(m, o.name).Str? || Get(m, o.name).s == "" then false
    else if !Get(m, o.priority).Num? || Get(m, o.priority).n < 0 then false
    else true
  }

  /** lib/plugger.js:23: `Plugger(modules, cb)` without `new` re-enters as
      `new Plugger(modules, options, callback)`, always with three arguments.
      The function then stays as the options: the completion callback is
      `undefined`, init and priority are looked up under the property
      "undefined", and every module without that property is rejected. */
  lemma CalledWithoutNewKeepsFunctionAsOptions(fn: nat, fnName: string, m: Module)
    ensures ShuffleArguments(3, OptionsFunction(fn, fnName), Undefined) == (Options("undefined", "undefined", fnName), Undefined)
    ensures "undefined" !in m ==> !IsValidModule(m, ShuffleArguments(3, OptionsFunction(fn, fnName), Undefined).0)
  {
  }

  /** One entry of the constructor's `modules` argument: the directory `path`
      (with the tree found there) and the optional `depth` property. */
  datatype ModuleSource = ModuleSource(path: Path, root: Node, depth: Value)

  /** `module.depth || 1` */
  function SourceDepth(source: ModuleSource): Value
  {
    Or(source.depth, Num(1))
  }

  /** The results `loadModules` reports for one source, called with the
      depth above and no options. */
  function SourceResults(source: ModuleSource): seq<ScanResult>
  {
    Scan(source.root, source.path, SourceDepth(source), ScanOptions(None))
  }

  /** The result callback's effect: `if (!err && module)`, then push the
      module when `_isValidModule` holds. */
  function AcceptResults(results: seq<ScanResult>, o: Options): seq<Module>
  {
    if results == [] then []
    else
      var r := results[|results| - 1];
      AcceptResults(results[..|results| - 1], o) + (if r.Ok? && IsValidModule(r.exports, o) then [r.exports] else [])
  }

  /** The modules accepted from all sources, in discovery order. */
  function Discovered(sources: seq<ModuleSource>, o: Options): seq<Module>
  {
    if sources == [] then []
    else Discovered(sources[..|sources| - 1], o) + AcceptResults(SourceResults(sources[|sources| - 1]), o)
  }

  /** What `getPlugin` returns: a plugin, or `false`. */
  datatype Lookup = Found(plugin: Module) | NotFound

  /** One call `plugin[options.init].apply(plugin, args)`: the index of the
      plugin it is applied to, the init function, and the arguments. */
  datatype Call = Call(receiver: nat, fn: nat, args: seq<Value>)

  /** The result callback of lib/plugger.js:47-53 applied to the results of
      one source, in order: appends every valid module to `found`. */
  method AcceptAll(found: seq<Module>, results: seq<ScanResult>, o: Options) returns (out: seq<Module>)
    ensures out == found + AcceptResults(results, o)
  {
    out := found;
    var j := 0;
    while j < |results|
      invariant 0 <= j <= |results|
      invariant out == found + AcceptResults(results[..j], o)
    {
      var r := results[j];
      if r.Ok? && IsValidModule(r.exports, o) {
        out := out + [r.exports];
      }
      AcceptResultsStep(results, j, o);
      j := j + 1;
    }
    assert results[..j] == results;
  }

  /** The constructor's loop of lib/plugger.js:45-54: scans every source in
      order and accepts what each scan reports. */
  method DiscoverAll(modules: seq<ModuleSource>, o: Options) returns (found: seq<Module>)
    ensures found == Discovered(modules, o)
  {
    found := [];
    var i := 0;
    while i < |modules|
      invariant 0 <= i <= |modules|
      invariant found == Discovered(modules[..i], o)
    {
      var source := modules[i];
      var results := LoadModules(source.root, source.path, Or(source.depth, Num(1)), ScanOptions(None));
      found := AcceptAll(found, results, o);
      DiscoveredStep(modules, i, o);
      i := i + 1;
    }
    assert modules[..i] == modules;
  }

  class Plugger {
    const options: Options     // _options
    const callback: Value      // handed to the hook engine for its completion
    const hooker: Value        // _hooker, the hook engine instance
    const hook: Value          // hook, the engine's hook method bound to it
    var plugins: seq<Module>   // _plugins

    /** Every registered plugin passes `_isValidModule`. */
    ghost predicate Valid()
      reads this
    {
      forall i | 0 <= i < |plugins| :: IsValidModule(plugins[i], options)
    }

    /** `new Plugger(modules, options, callback)` with `argc` arguments; the
        engine instance and its bound `hook` are given by their identities. */
    constructor (modules: seq<ModuleSource>, optionsArg: OptionsArg, callbackArg: Value, argc: nat, hookerId: nat, hookId: nat)
      ensures (options, callback) == ShuffleArguments(argc, optionsArg, callbackArg)
      ensures hooker == Obj(hookerId) && hook == Fn(hookId)
      ensures plugins == SortByPriority(Discovered(modules, options))
      ensures Valid()
    {
      var (o, cb) := ShuffleArguments(argc, optionsArg, callbackArg);
      options := o;
      callback := cb;
      hooker := Obj(hookerId);
      hook := Fn(hookId);

      var found := DiscoverAll(modules, o);
      RegistryIsValid(modules, o);
      plugins := SortByPriority(found);
    }

    /** `getPlugin(name)`: the first plugin, in registry order, whose name
        property is strictly equal to `name`; `false` when there is none. */
    method GetPlugin(name: Value) returns (found: Lookup)
      ensures found.Found? ==>
        exists i | 0 <= i < |plugins| :: plugins[i] == found.plugin && Get(plugins[i], options.name) == name &&
          forall j | 0 <= j < i :: Get(plugins[j], options.name) != name
      ensures found.NotFound? <==> forall i | 0 <= i < |plugins| :: Get(plugins[i], options.name) != name
      ensures Valid() && !IsNonEmptyString(name) ==> found.NotFound?
    {
      var i := 0;
      while i < |plugins|
        invariant 0 <= i <= |plugins|
        invariant forall j | 0 <= j < i :: Get(plugins[j], options.name) != name
      {
        if Get(plugins[i], options.name) == name {
          return Found(plugins[i]);
        }
        i := i + 1;
      }
      found := NotFound;
    }

    /** `init(...args)`: calls every plugin's init method once, in registry
        order, on the plugin itself, with `hook` and the engine in front of
        the caller's arguments. */
    method Init(args: seq<Value>) returns (calls: seq<Call>)
      requires Valid()
      ensures |calls| == |plugins|
      ensures forall i | 0 <= i < |plugins| ::
        calls[i] == Call(i, Get(plugins[i], options.init).id, [hook, hooker] + args)
    {
      var callArgs := [hook, hooker] + args;
      calls := [];
      var i := 0;
      while i < |plugins|
        invariant 0 <= i <= |plugins|
        invariant |calls| == i
        invariant forall j | 0 <= j < i :: calls[j] == Call(j, Get(plugins[j], options.init).id, callArgs)
      {
        var init := Get(plugins[i], options.init);
        calls := calls + [Call(i, init.id, callArgs)];
        i := i + 1;
      }
    }
  }

  // ---------------------------------------------------------------------------
  // What construction promises

  lemma AcceptResultsStep(results: seq<ScanResult>, j: nat, o: Options)
    requires j < |results|
    ensures AcceptResults(results[..j + 1], o) == AcceptResults(results[..j], o) +
      (if results[j].Ok? && IsValidModule(results[j].exports, o) then [results[j].exports] else [])
  {
    assert results[..j + 1][..j] == results[..j];
  }

  lemma DiscoveredStep(sources: seq<ModuleSource>, i: nat, o: Options)
    requires i < |sources|
    ensures Discovered(sources[..i + 1], o) == Discovered(sources[..i], o) + AcceptResults(SourceResults(sources[i]), o)
  {
    assert sources[..i + 1][..i] == sources[..i];
  }

  /** Some result of `results` reports `m` without error. */
  ghost predicate Reports(results: seq<ScanResult>, m: Module)
  {
    exists p :: Ok(m, p) in results
  }

  lemma {:induction false} AcceptedMembers(results: seq<ScanResult>, o: Options, m: Module)
    ensures m in AcceptResults(results, o) <==> IsValidModule(m, o) && Reports(results, m)
  {
    if results != [] {
      var init := results[..|results| - 1];
      var r := results[|results| - 1];
      AcceptedMembers(init, o, m);
      assert results == init + [r];
      if Reports(results, m) {
        var p :| Ok(m, p) in results;
        if Ok(m, p) !in init {
          assert r == Ok(m, p);
        }
      }
      if Reports(init, m) {
        var p :| Ok(m, p) in init;
        assert Ok(m, p) in results;
      }
    }
  }

  /** A module is discovered exactly when it passes `_isValidModule` and the
      scan of some source reported it without error. */
  lemma {:induction false} DiscoveredMembers(sources: seq<ModuleSource>, o: Options, m: Module)
    ensures m in Discovered(sources, o) <==>
      IsValidModule(m, o) && exists i | 0 <= i < |sources| :: Reports(SourceResults(sources[i]), m)
  {
    if sources != [] {
      var n := |sources| - 1;
      var init := sources[..n];
      DiscoveredMembers(init, o, m);
      AcceptedMembers(SourceResults(sources[n]), o, m);
      assert forall i | 0 <= i < n :: init[i] == sources[i];
      if exists i | 0 <= i < |sources| :: Reports(SourceResults(sources[i]), m) {
        var i :| 0 <= i < |sources| && Reports(SourceResults(sources[i]), m);
        if i < n {
          assert Reports(SourceResults(init[i]), m);
        }
      }
    }
  }

  /** lib/plugger.js:45-54: every plugin in the registry passes
      `_isValidModule`, and the registry lists exactly the discovered modules,
      each as often. */
  lemma RegistryIsValid(sources: seq<ModuleSource>, o: Options)
    ensures multiset(SortByPriority(Discovered(sources, o))) == multiset(Discovered(sources, o))
    ensures forall m | m in SortByPriority(Discovered(sources, o)) :: IsValidModule(m, o)
  {
    var found := Discovered(sources, o);
    SortPermutes(found, "priority");
    forall m | m in SortByPriority(found) ensures IsValidModule(m, o) {
      assert m in multiset(SortByPriority(found));
      DiscoveredMembers(sources, o, m);
    }
  }

  /** The tree of `source` holds `m` in a file whose name passes the default
      filter, no deeper than the source's depth reaches. */
  ghost predicate HoldsReachable(source: ModuleSource, m: Module)
  {
    exists rel :: 0 < |rel| && ScanProperties.FileAt(source.root, rel, m) && DefaultFilter(rel[|rel| - 1]) &&
      ScanProperties.DepthReaches(NormalizeDepth(SourceDepth(source)), rel)
  }

  /** The scan of one source reports `m` exactly when its tree holds `m`
      within reach. */
  lemma SourceReportsIff(source: ModuleSource, m: Module)
    ensures Reports(SourceResults(source), m) <==> HoldsReachable(source, m)
  {
    var d := NormalizeDepth(SourceDepth(source));
    ScanProperties.WalkUnder(source.root, source.path, d, DefaultFilter);
    if Reports(SourceResults(source), m) {
      var p :| Ok(m, p) in SourceResults(source);
      var rel := p[|source.path|..];
      assert p == source.path + rel;
      ScanProperties.WalkEmitsFileIff(source.root, source.path, d, DefaultFilter, m, rel);
    }
    if HoldsReachable(source, m) {
      var rel :| 0 < |rel| && ScanProperties.FileAt(source.root, rel, m) && DefaultFilter(rel[|rel| - 1]) &&
        ScanProperties.DepthReaches(d, rel);
      ScanProperties.WalkEmitsFileIff(source.root, source.path, d, DefaultFilter, m, rel);
    }
  }

  /** A module is in the registry exactly when it passes `_isValidModule` and
      the tree of some source holds it within reach. */
  lemma RegistryMembers(sources: seq<ModuleSource>, o: Options, m: Module)
    ensures m in SortByPriority(Discovered(sources, o)) <==>
      IsValidModule(m, o) && exists i | 0 <= i < |sources| :: HoldsReachable(sources[i], m)
  {
    var found := Discovered(sources, o);
    SortPermutes(found, "priority");
    assert m in SortByPriority(found) <==> m in multiset(SortByPriority(found));
    DiscoveredMembers(sources, o, m);
    forall i | 0 <= i < |sources|
      ensures Reports(SourceResults(sources[i]), m) <==> HoldsReachable(sources[i], m)
    {
      SourceReportsIff(sources[i], m);
    }
  }

  /** lib/plugger.js:57-59: with the default options every registered plugin
      has a numeric `priority`, so the registry is non-decreasing by it, and
      plugins of equal priority keep their discovery order. */
  lemma RegistryIsOrdered(sources: seq<ModuleSource>, k: Option<int>)
    ensures NonDecreasing(SortByPriority(Discovered(sources, DefaultOptions)), "priority")
    ensures WithKey(SortByPriority(Discovered(sources, DefaultOptions)), "priority", k)
         == WithKey(Discovered(sources, DefaultOptions), "priority", k)
  {
    var found := Discovered(sources, DefaultOptions);
    forall i | 0 <= i < |found| ensures Key(found[i], "priority").Some? {
      DiscoveredMembers(sources, DefaultOptions, found[i]);
    }
    SortOrders(found, "priority");
    SortIsStable(found, "priority", k);
  }

  /** The comparator reads `priority` whatever `options.priority` names: with
      the priority kept under another property, the plugins stay in
      discovery order. */
  lemma CustomPriorityFieldIsNotSorted()
    ensures var o := Options("init", "order", "name");
      var late := map["init" := Fn(1), "name" := Str("late"), "order" := Num(5)];
      var early := map["init" := Fn(2), "name" := Str("early"), "order" := Num(1)];
      IsValidModule(late, o) && IsValidModule(early, o) &&
      SortByPriority([late, early]) == [late, early]
  {
    var late := map["init" := Fn(1), "name" := Str("late"), "order" := Num(5)];
    var early := map["init" := Fn(2), "name" := Str("early"), "order" := Num(1)];
    SortWithoutKeysKeepsOrder([late, early], "priority");
  }

  /** `module.depth || 1` followed by `typeof depth === 'number' ? depth : 1`:
      a source scans with its depth when that is a non-zero number, else with 1. */
  lemma SourceDepthIsOneUnlessNonZeroNumber(source: ModuleSource)
    ensures NormalizeDepth(SourceDepth(source)) ==
      if source.depth.Num? && source.depth.n != 0 then source.depth.n else 1
  {
  }
}
