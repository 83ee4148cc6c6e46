/**
  The depth-bounded directory scanner of lib/utils.js (`loadModules`) and its
  default file-name filter.

  The file system is an abstract tree: a directory is either unreadable or
  lists a sequence of entries, and each entry is a regular file (its name and
  the module that loading it yields), a named subdirectory, or something that
  is neither. A path is the sequence of its segments, so joining a directory
  path with an entry name appends one segment. What the source reports through
  its callback becomes the sequence of results the scan emits, in order.
 */
module Utils {
  import opened JsValues

  type Path = seq<string>

  datatype Entry =
    | File(name: string, exports: Module)
    | Dir(name: string, node: Node)
    | Special(name: string)   // a stat that is neither a file nor a directory

  datatype Node = Unreadable | Listing(entries: seq<Entry>)

  /** One callback invocation: `callback(err)` or `callback(null, module, path)`. */
  datatype ScanResult = Err(path: Path) | Ok(exports: Module, path: Path)

  /** The `opts` argument; `filter` is set when `opts.filter` is a function.
      A missing `opts` behaves as `ScanOptions(None)`, since `opts || {}`. */
  datatype ScanOptions = ScanOptions(filter: Option<string -> bool>)

  predicate EndsWith(s: string, suffix: string)
  {
    |suffix| <= |s| && s[|s| - |suffix|..] == suffix
  }

  /** `defaultFilter`: the name ends in `.js` or `.coffee`. */
  predicate DefaultFilter(filename: string)
  {
    EndsWith(filename, ".js") || EndsWith(filename, ".coffee")
  }

  /** `typeof depth === 'number' ? depth : 1` */
  function NormalizeDepth(depth: Value): int
  {
    if depth.Num? then depth.n else 1
  }

  /** `typeof opts.filter === 'function' ? opts.filter : defaultFilter` */
  function EffectiveFilter(opts: ScanOptions): string -> bool
  {
    if opts.filter.Some? then opts.filter.value else DefaultFilter
  }

  /** The results of one `loadModules` call on a directory, given the numeric
      depth it received; the depth is decremented before anything is listed. */
  function Walk(dir: Node, dirPath: Path, depth: int, filter: string -> bool): seq<ScanResult>
    decreases dir, 1
  {
    match dir
    case Unreadable => [Err(dirPath)]
    case Listing(entries) =>
      if |entries| == 0 then [Err(dirPath)]
      else WalkEntries(dir, |entries|, dirPath, depth - 1, filter)
  }

  /** The results of the first `k` entries of a listing, in listing order;
      `remaining` is the already decremented depth. */
  function WalkEntries(dir: Node, k: nat, dirPath: Path, remaining: int, filter: string -> bool): seq<ScanResult>
    requires dir.Listing? && k <= |dir.entries|
    decreases dir, 0, k
  {
    if k == 0 then []
    else WalkEntries(dir, k - 1, dirPath, remaining, filter) + Visit(dir, k - 1, dirPath, remaining, filter)
  }

  /** The results of entry `i` of a listing: a file passing the filter is
      emitted with its joined path, a subdirectory is scanned while the
      decremented depth is still positive, anything else is skipped. */
  function Visit(dir: Node, i: nat, dirPath: Path, remaining: int, filter: string -> bool): seq<ScanResult>
    requires dir.Listing? && i < |dir.entries|
    decreases dir, 0, i
  {
    match dir.entries[i]
    case File(name, exports) => if filter(name) then [Ok(exports, dirPath + [name])] else []
    case Dir(name, sub) => if remaining > 0 then Walk(sub, dirPath + [name], remaining, filter) else []
    case Special(_) => []
  }

  /** `loadModules(dirPath, depth, opts, callback)`, as the results it emits. */
  function Scan(dir: Node, dirPath: Path, depth: Value, opts: ScanOptions): seq<ScanResult>
  {
    Walk(dir, dirPath, NormalizeDepth(depth), EffectiveFilter(opts))
  }

  /** `loadModules`: normalises its arguments, lists the directory and walks
      its entries in order, recursing into subdirectories. */
  method LoadModules(dir: Node, dirPath: Path, depth: Value, opts: ScanOptions) returns (results: seq<ScanResult>)
    ensures results == Scan(dir, dirPath, depth, opts)
    decreases dir
  {
    var remaining := NormalizeDepth(depth);
    var filter := EffectiveFilter(opts);
    var shared := ScanOptions(Some(filter));   // `opts.filter = ...` is seen by the recursive calls
    remaining := remaining - 1;

    if dir.Unreadable? || |dir.entries| == 0 {
      return [Err(dirPath)];
    }

    var files := dir.entries;
    results := [];
    var i := 0;
    while i < |files|
      invariant 0 <= i <= |files|
      invariant results == WalkEntries(dir, i, dirPath, remaining, filter)
    {
      match files[i] {
        case File(name, exports) =>
          if filter(name) {
            results := results + [Ok(exports, dirPath + [name])];
          }
        case Dir(name, sub) =>
          if remaining > 0 {
            var nested := LoadModules(sub, dirPath + [name], Num(remaining), shared);
            results := results + nested;
          }
        case Special(_) =>
      }
      i := i + 1;
    }
  }
}
