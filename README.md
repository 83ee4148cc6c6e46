# plugger, modelled in Dafny

plugger is a plugin loader for Node.js. Its constructor takes a list of
module sources, each a directory path with an optional depth. It scans every
source for files whose names end in `.js` or `.coffee` and loads each one as a
module. It keeps the modules that pass a structural check: an `init`
function, a non-empty string `name`, and a non-negative number `priority`.
It then sorts the kept modules by priority. Afterwards `init(...)` calls every
plugin's init method with the hook engine's bound `hook`, the engine itself,
and the caller's arguments. `getPlugin(name)` returns the first plugin whose
name matches, or `false`.

The model has five modules:

- `JsValues` (`values.dfy`): JavaScript values as the loader sees them. A
  module is a map from property names to values, and a missing property reads
  as `undefined`. It also defines truthiness and `||`.
- `Utils` (`utils.dfy`): `loadModules` and `defaultFilter` from
  `lib/utils.js`.
  - The file system is an abstract tree. Each directory is unreadable or a
    listing of entries, and each entry is a file, a subdirectory, or
    something else.
  - The callback invocations become the sequence of results the scan emits.
  - `Walk` is the specification function. The method `LoadModules` keeps the
    source's loop and recursion and is proved equal to it.
- `ScanProperties` (`scan_properties.dfy`): what a scan emits, proved about
  `Walk`:
  - exactly which files;
  - exactly which errors;
  - in which order;
  - how deep it goes;
  - what the defaults are.
- `PrioritySort` (`priority_sort.dfy`): the registry sort.
  - It is `Array.prototype.sort` with the comparator `a.priority - b.priority`.
  - It is modelled as a stable insertion sort.
  - A comparison with a non-numeric operand is treated as NaN in the model,
    which the sort reads as a tie.
  - The sort is stable from ECMAScript 2019 on. Older engines did not keep
    ties in order for longer arrays.
- `Plugger` (`plugger.dfy`): `lib/plugger.js`.
  - The argument shuffle and `_isValidModule`.
  - The class `Plugger`, whose fields are the options, the completion
    callback, the hook engine and its bound hook, and the `plugins` registry.
  - Its constructor, `getPlugin` and `init`.
  - Lemmas relating the registry to the directory trees.
- `AsWritten` (`as_written.dfy`): construction exactly as
  `lib/plugger.js:47` writes it. See Findings.

The hook engine (`hooker`) is outside the model. The engine instance and its
bound `hook` appear only as opaque values, given by identity. `init` returns
the calls it makes as `Call` records: the receiver plugin, the init function
and the argument list.

What the code does and does not do, as modelled:

- The code has none of the following:
  - a per-plugin hook scope;
  - a contract map of extra required fields;
  - a global instance filter;
  - silent or verbose mode;
  - `forEach` or `seal`;
  - provenance records paired with plugins.
- `init` passes the unscoped `hook` and the engine itself.
- `priority` is required, not optional.
- The sort always reads the property `priority`, whatever the options name.
  The comparator is hard-coded (`CustomPriorityFieldIsNotSorted`).
- Scan and load errors are not all recoverable. A failing `stat` or
  `require` throws out of the scan and the constructor.
- The three-argument call at `lib/plugger.js:47` makes every non-empty scan
  throw (see Findings). The class constructor models the evidently intended
  four-argument call.

## Model

| member | source | states |
|---|---|---|
| `Utils.LoadModules` | lib/utils.js:20-58 | The loop over the listing and the recursion into subdirectories emit exactly the results of the scan specification `Scan`. |
| `ScanProperties.NonNumericDepthIsOne` | lib/utils.js:21-23 | A depth that is not a number scans as depth 1. |
| `ScanProperties.MissingFilterIsDefault` | lib/utils.js:25-28 | Options without a filter function scan with `defaultFilter`. |
| `ScanProperties.DefaultFilterIsSuffixMatch` | lib/utils.js:76-78 | `defaultFilter` accepts a name if and only if it is some stem, possibly empty, followed by `.js` or `.coffee`. |
| `ScanProperties.DefaultFilterExamples` | lib/utils.js:76-78 | Accepts `plugin1.js`, `a.coffee`, `.js` and `.coffee`. Rejects `js`, `a.json` and `a.js.map`. |
| `ScanProperties.WalkUnder` | lib/utils.js:46-47 | Every emitted path lies under the scanned directory. Below a non-empty listing, every path is strictly longer than it. |
| `ScanProperties.RootErrorIff` | lib/utils.js:35-44 | The scanned directory's own error is emitted if and only if that directory is unreadable or empty. In that case it is the only result. |
| `ScanProperties.WalkEmitsFileIff` | lib/utils.js:46-57 | A module is emitted at `dir + rel` if and only if the tree holds that module in a file at `rel`, the file's name passes the filter, and the depth reaches the file (depth > number of directories crossed). |
| `ScanProperties.WalkEmitsErrorIff` | lib/utils.js:31-57 | An error is emitted for `dir + rel` if and only if the directory at `rel` is unreadable or empty and the scan enters it: always for the root, and for a directory k levels down only when depth > k. |
| `ScanProperties.ShallowScanStaysInRoot` | lib/utils.js:54-56 | With depth at most 1, no subdirectory is entered. Every result is the root's error or a file directly inside the root. |
| `ScanProperties.WalkIsListingOrder` | lib/utils.js:46-57 | Results follow the listing order entry by entry. A subdirectory's whole scan sits in its entry's place (depth first). |
| `PrioritySort.SortPermutes` | lib/plugger.js:57-59 | The sorted registry has the same elements as the input, each as often. |
| `PrioritySort.SortOrders` | lib/plugger.js:57-59 | When every element has a numeric priority, the result does not decrease by priority. |
| `PrioritySort.SortIsStable` | lib/plugger.js:57-59 | For every key, including the NaN key, the elements with that key keep their input order. |
| `PrioritySort.SortWithoutKeysKeepsOrder` | lib/plugger.js:57-59 | When no element has a numeric priority, every comparison is a tie and the order is unchanged. |
| `PrioritySort.StableOrderIsUnique` | lib/plugger.js:57-59 | Two non-decreasing sequences that agree on the order of the elements of every key are equal. |
| `PrioritySort.StableSortIsSortBy` | lib/plugger.js:57-59 | Over numeric priorities, any stable non-decreasing rearrangement is the model's sort. A stable sort with this comparator has exactly one result. |
| `Plugger.ShuffleArguments` | lib/plugger.js:25-30 | Two arguments with a function second: the function becomes the callback and the options are the defaults. Otherwise the callback is unchanged, falsy options give the defaults, and a full options object gives its own property names. |
| `Plugger.CalledWithoutNewKeepsFunctionAsOptions` | lib/plugger.js:23-30 | Called without `new`, the constructor re-enters with three arguments, so a function second argument stays as the options. The callback is then undefined, init and priority are read from the property "undefined", and every module without that property is rejected. |
| `Plugger.IsValidModule` | lib/plugger.js:93-109 | False when the init property is not a function, when the name is not a non-empty string, or when the priority is not a non-negative number. True when all three hold. |
| `Plugger.AcceptAll` | lib/plugger.js:47-53 | Running the result callback over one source's results appends exactly that source's accepted modules, in order. |
| `Plugger.DiscoverAll` | lib/plugger.js:45-54 | The loop over the sources collects exactly the discovered modules: source by source, each in scan order. |
| `Plugger.Plugger.constructor` | lib/plugger.js:22-60 | Sets the shuffled options and callback and the engine and its hook. The registry is the priority sort of the modules accepted from all sources in scan order, and every registered plugin is valid. |
| `Plugger.Plugger.GetPlugin` | lib/plugger.js:78-89 | Returns the first plugin in registry order whose name property is strictly equal to the argument. Returns not-found if and only if no plugin's name matches. For a valid registry, a non-string or empty argument is never found. |
| `Plugger.Plugger.Init` | lib/plugger.js:63-75 | Makes exactly one call per plugin, in registry order. Each call applies the plugin's own init function to that plugin with `[hook, engine] + args`. |
| `Plugger.AcceptedMembers` | lib/plugger.js:47-53 | A module is accepted from a source's results if and only if it is valid and some non-error result carries it. |
| `Plugger.DiscoveredMembers` | lib/plugger.js:45-54 | A module is discovered if and only if it is valid and some source's scan reported it without error. |
| `Plugger.RegistryIsValid` | lib/plugger.js:45-59 | The registry is a permutation of the discovered modules, and each of its plugins passes `_isValidModule`. |
| `Plugger.SourceReportsIff` | lib/plugger.js:47 | A source's scan, with the default filter and the source's depth, or 1 when that is falsy, reports a module if and only if its tree holds that module, under a name the default filter accepts, within the depth. |
| `Plugger.RegistryMembers` | lib/plugger.js:45-59 | A module is in the registry if and only if it is valid and some source's tree holds it in a file that passes the default filter, within that source's depth. |
| `Plugger.RegistryIsOrdered` | lib/plugger.js:57-59 | With the default options, the registry does not decrease by priority, and plugins with equal priority keep their discovery order. |
| `Plugger.CustomPriorityFieldIsNotSorted` | lib/plugger.js:57-59 | With the priority stored under another property name, two valid plugins stay in discovery order even when their priorities are reversed. |
| `Plugger.SourceDepthIsOneUnlessNonZeroNumber` | lib/plugger.js:47 | A source scans with its depth when that depth is a non-zero number, and with 1 otherwise. |
| `AsWritten.ConstructFrom` | lib/plugger.js:45-54 | Construction as written completes if and only if every remaining source's scan emits nothing, and then it registers nothing. Otherwise it throws at the first source whose scan emits anything. |
| `AsWritten.AsWrittenLosesEveryPlugin` | lib/plugger.js:47 | Whenever the intended constructor would register any plugin, construction as written throws. When construction as written completes, its registry is empty. |
| `AsWritten.LoadsPluginDirectoryScenario` | test/test.js:10-23 | For one source holding a valid `plugin1.js` and no depth: construction as written throws at that source, while the intended registry is exactly that plugin. |

## Left out

- File-system access, path resolution and `require`: the directory tree and the module each file yields are inputs. `path.resolve` is not modelled, so paths are taken as given.
- Exceptions from `fs.statSync` and `require`: these throw out of the scan and the constructor, and the model does not represent them.
- The hook engine: creating it, its completion callback (lib/plugger.js:33-37) and the bound `invoke`. It is an external library.
- The `console.log` diagnostic at lib/utils.js:38, and `dump` and `moduleExists` in lib/utils.js: diagnostics and a helper the core does not call.
- Floating-point numbers: priorities and depths are integers. A NaN priority, which `_isValidModule` admits, is not represented.
- PrioritySort.SortBy: the comparator treats a string, boolean or null priority as NaN, a tie. JavaScript would instead coerce these to numbers. With the default options every registered plugin has a numeric priority, so this matters only for custom option names.
- PrioritySort.SortBy: for custom option names, the registry can mix numeric and NaN priorities. The engine's order for that mix depends on its algorithm, and the model fixes one stable insertion order.
- Option fields that are not strings, and properties inherited through the prototype chain: modules are their own properties, and option fields are property names or unset.
- Plugger.Plugger.Init: requires the registry invariant `Valid()`, which the constructor establishes and nothing changes afterwards. Plugins that throw from init, or that change the registry while init runs, are not modelled.

## Findings

| source | as written | input that shows it | evidently intended | confidence | as-written member | corrected member |
|---|---|---|---|---|---|---|
| lib/plugger.js:47 | The call to `utils.loadModules` passes the result callback as the third argument, `opts`, of the four-parameter `loadModules(dirPath, depth, opts, callback)`. `callback` is `undefined`, so the first error or module the scan reports throws TypeError out of the constructor. | The constructor of test/test.js:10, on a source directory that holds `plugin1.js`: the scan reports the module, calls `undefined`, and throws, so `new Plugger(...)` fails before `getPlugin('plugin1')` is reached. | Pass the callback as the fourth argument, with no options, so that every reported module reaches `_isValidModule`. | high; derived from the argument positions, not executed | `AsWritten.ConstructFrom`, `AsWritten.AsWrittenLosesEveryPlugin`, `AsWritten.LoadsPluginDirectoryScenario` | `Plugger.Plugger.constructor`, `Plugger.RegistryMembers`, `AsWritten.LoadsPluginDirectoryScenario` (its intended half) |
