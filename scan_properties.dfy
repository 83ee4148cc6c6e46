/**
  What the scanner of lib/utils.js promises, stated against the tree it walks:
  where its results live, which files it emits, how deep it goes, and in
  which order.
 */
module ScanProperties {
  import opened JsValues
  import opened Utils

  /** The tree holds a regular file whose loaded module is `m` at the path
      `rel` below `dir` (directory names, then the file name). */
  ghost predicate FileAt(dir: Node, rel: Path, m: Module)
    decreases dir
  {
    dir.Listing? && exists i :: 0 <= i < |dir.entries| && EntryHolds(dir.entries[i], rel, m)
  }

  /** Entry `e` is the first step of `rel` towards a file holding `m`. */
  ghost predicate EntryHolds(e: Entry, rel: Path, m: Module)
    decreases e
  {
    0 < |rel| && e.name == rel[0] &&
    if |rel| == 1 then e.File? && e.exports == m
    else e.Dir? && FileAt(e.node, rel[1..], m)
  }

  /** A scan given `depth` reaches a file at `rel`: the files of the root are
      always listed, a file k directories down only when depth > k. */
  predicate DepthReaches(depth: int, rel: Path)
  {
    |rel| <= 1 || depth > |rel| - 1
  }

  /** Left-to-right concatenation of a sequence of sequences. */
  function Concat<T>(parts: seq<seq<T>>): seq<T>
  {
    if parts == [] then [] else parts[0] + Concat(parts[1..])
  }

  lemma {:induction false} ConcatSnoc<T>(parts: seq<seq<T>>, last: seq<T>)
    ensures Concat(parts + [last]) == Concat(parts) + last
  {
    if parts != [] {
      assert (parts + [last])[1..] == parts[1..] + [last];
      ConcatSnoc(parts[1..], last);
    }
  }

  // ---------------------------------------------------------------------------
  // Argument defaults (lib/utils.js:21-28)

  /** A depth that is not a number is treated as 1. */
  lemma NonNumericDepthIsOne(dir: Node, dirPath: Path, depth: Value, opts: ScanOptions)
    requires !depth.Num?
    ensures Scan(dir, dirPath, depth, opts) == Scan(dir, dirPath, Num(1), opts)
  {
  }

  /** Without a filter function in `opts` the scan filters with `defaultFilter`. */
  lemma MissingFilterIsDefault(dir: Node, dirPath: Path, depth: Value)
    ensures Scan(dir, dirPath, depth, ScanOptions(None))
         == Walk(dir, dirPath, NormalizeDepth(depth), DefaultFilter)
  {
  }

  // ---------------------------------------------------------------------------
  // The default filter (lib/utils.js:76-78)

  /** `/.*\.(js|coffee)$/` matches exactly the names made of some stem
      (possibly empty) followed by `.js` or `.coffee`. */
  lemma {:induction false} DefaultFilterIsSuffixMatch(name: string)
    ensures DefaultFilter(name) <==> exists stem :: name == stem + ".js" || name == stem + ".coffee"
  {
    if EndsWith(name, ".js") {
      var stem := name[..|name| - 3];
      assert name == stem + ".js";
    } else if EndsWith(name, ".coffee") {
      var stem := name[..|name| - 7];
      assert name == stem + ".coffee";
    }
    if exists stem :: name == stem + ".js" || name == stem + ".coffee" {
      var stem :| name == stem + ".js" || name == stem + ".coffee";
      if name == stem + ".js" {
        assert name[|name| - 3..] == ".js";
      } else {
        assert name[|name| - 7..] == ".coffee";
      }
    }
  }

  lemma DefaultFilterExamples()
    ensures DefaultFilter("plugin1.js") && DefaultFilter("a.coffee")
    ensures DefaultFilter(".js") && DefaultFilter(".coffee")
    ensures !DefaultFilter("js") && !DefaultFilter("a.json") && !DefaultFilter("a.js.map")
  {
  }

  // ---------------------------------------------------------------------------
  // Where results live

  /** Every result of a scan of `dirPath` carries a path inside `dirPath`;
      below a non-empty listing every path is strictly longer. */
  lemma {:induction false} WalkUnder(dir: Node, dirPath: Path, depth: int, filter: string -> bool)
    ensures forall r | r in Walk(dir, dirPath, depth, filter) :: |dirPath| <= |r.path| && r.path[..|dirPath|] == dirPath
    ensures dir.Listing? && dir.entries != [] ==>
      forall r | r in Walk(dir, dirPath, depth, filter) :: |dirPath| < |r.path|
    decreases dir, 1
  {
    if dir.Listing? && dir.entries != [] {
      EntriesUnder(dir, |dir.entries|, dirPath, depth - 1, filter);
    }
  }

  lemma {:induction false} EntriesUnder(dir: Node, k: nat, dirPath: Path, remaining: int, filter: string -> bool)
    requires dir.Listing? && k <= |dir.entries|
    ensures forall r | r in WalkEntries(dir, k, dirPath, remaining, filter) ::
      |dirPath| < |r.path| && r.path[..|dirPath|] == dirPath
    decreases dir, 0, k
  {
    if k > 0 {
      EntriesUnder(dir, k - 1, dirPath, remaining, filter);
      match dir.entries[k - 1]
      case Dir(name, sub) =>
        if remaining > 0 {
          WalkUnder(sub, dirPath + [name], remaining, filter);
          assert (dirPath + [name])[..|dirPath|] == dirPath;
          forall r | r in Visit(dir, k - 1, dirPath, remaining, filter)
            ensures |dirPath| < |r.path| && r.path[..|dirPath|] == dirPath
          {
            assert r.path[..|dirPath|] == r.path[..|dirPath| + 1][..|dirPath|];
          }
        }
      case File(_, _) =>
      case Special(_) =>
    }
  }

  /** lib/utils.js:41-44: a scan reports its own directory as failed exactly
      when that directory is unreadable or lists no entries, and then that
      error is all it emits. */
  lemma {:induction false} RootErrorIff(dir: Node, dirPath: Path, depth: int, filter: string -> bool)
    ensures Err(dirPath) in Walk(dir, dirPath, depth, filter) <==> dir.Unreadable? || dir.entries == []
    ensures dir.Unreadable? || dir.entries == [] ==> Walk(dir, dirPath, depth, filter) == [Err(dirPath)]
  {
    WalkUnder(dir, dirPath, depth, filter);
  }

  // ---------------------------------------------------------------------------
  // Which files are emitted (lib/utils.js:50-56)

  /** A scan emits `Ok(m, dirPath + rel)` exactly when the tree holds a file
      with module `m` at `rel`, its name passes the filter, and the depth
      reaches it. */
  lemma {:induction false} WalkEmitsFileIff(dir: Node, dirPath: Path, depth: int, filter: string -> bool, m: Module, rel: Path)
    ensures Ok(m, dirPath + rel) in Walk(dir, dirPath, depth, filter) <==>
      0 < |rel| && FileAt(dir, rel, m) && filter(rel[|rel| - 1]) && DepthReaches(depth, rel)
    decreases dir, 1
  {
    match dir
    case Unreadable =>
    case Listing(entries) =>
      if |entries| > 0 {
        EntriesEmitFileIff(dir, |entries|, dirPath, depth - 1, filter, m, rel);
      }
  }

  lemma {:induction false} EntriesEmitFileIff(dir: Node, k: nat, dirPath: Path, remaining: int, filter: string -> bool, m: Module, rel: Path)
    requires dir.Listing? && k <= |dir.entries|
    ensures Ok(m, dirPath + rel) in WalkEntries(dir, k, dirPath, remaining, filter) <==>
      (exists i :: 0 <= i < k && EntryHolds(dir.entries[i], rel, m)) &&
      0 < |rel| && filter(rel[|rel| - 1]) && DepthReaches(remaining + 1, rel)
    decreases dir, 0, k
  {
    if k > 0 {
      EntriesEmitFileIff(dir, k - 1, dirPath, remaining, filter, m, rel);
      VisitEmitsFileIff(dir, k - 1, dirPath, remaining, filter, m, rel);
      if exists i :: 0 <= i < k && EntryHolds(dir.entries[i], rel, m) {
        var i :| 0 <= i < k && EntryHolds(dir.entries[i], rel, m);
        if i < k - 1 {
          assert exists j :: 0 <= j < k - 1 && EntryHolds(dir.entries[j], rel, m);
        }
      }
    }
  }

  lemma {:induction false} VisitEmitsFileIff(dir: Node, i: nat, dirPath: Path, remaining: int, filter: string -> bool, m: Module, rel: Path)
    requires dir.Listing? && i < |dir.entries|
    ensures Ok(m, dirPath + rel) in Visit(dir, i, dirPath, remaining, filter) <==>
      EntryHolds(dir.entries[i], rel, m) && 0 < |rel| && filter(rel[|rel| - 1]) && DepthReaches(remaining + 1, rel)
    decreases dir, 0, i
  {
    match dir.entries[i]
    case File(name, exports) =>
      if Ok(m, dirPath + rel) in Visit(dir, i, dirPath, remaining, filter) {
        assert dirPath + rel == dirPath + [name];
        assert rel == (dirPath + rel)[|dirPath|..] == [name];
      }
      if 0 < |rel| && |rel| == 1 && rel[0] == name {
        assert rel == [name];
      }
    case Dir(name, sub) =>
      if remaining > 0 {
        var below := dirPath + [name];
        WalkUnder(sub, below, remaining, filter);
        if 1 < |rel| && rel[0] == name {
          assert dirPath + rel == below + rel[1..];
          assert rel[1..][|rel[1..]| - 1] == rel[|rel| - 1];
          WalkEmitsFileIff(sub, below, remaining, filter, m, rel[1..]);
        }
      }
    case Special(_) =>
  }

  /** The directory at `rel` below `dir` is unreadable or empty. */
  ghost predicate FailedDirAt(dir: Node, rel: Path)
    decreases dir
  {
    if rel == [] then dir.Unreadable? || dir.entries == []
    else dir.Listing? && exists i :: 0 <= i < |dir.entries| && DirStep(dir.entries[i], rel)
  }

  /** Entry `e` is the subdirectory named `rel[0]` that leads to a failed directory. */
  ghost predicate DirStep(e: Entry, rel: Path)
    decreases e
  {
    0 < |rel| && e.Dir? && e.name == rel[0] && FailedDirAt(e.node, rel[1..])
  }

  /** A scan emits `Err(dirPath + rel)` exactly when the directory at `rel` is
      unreadable or empty and the scan enters it: the root always, a
      directory k levels down only when depth > k. */
  lemma {:induction false} WalkEmitsErrorIff(dir: Node, dirPath: Path, depth: int, filter: string -> bool, rel: Path)
    ensures Err(dirPath + rel) in Walk(dir, dirPath, depth, filter) <==>
      FailedDirAt(dir, rel) && (rel == [] || depth > |rel|)
    decreases dir, 1
  {
    assert rel == [] ==> dirPath + rel == dirPath;
    RootErrorIff(dir, dirPath, depth, filter);
    match dir
    case Unreadable =>
    case Listing(entries) =>
      if |entries| > 0 {
        EntriesEmitErrorIff(dir, |entries|, dirPath, depth - 1, filter, rel);
      }
  }

  lemma {:induction false} EntriesEmitErrorIff(dir: Node, k: nat, dirPath: Path, remaining: int, filter: string -> bool, rel: Path)
    requires dir.Listing? && k <= |dir.entries|
    ensures Err(dirPath + rel) in WalkEntries(dir, k, dirPath, remaining, filter) <==>
      (exists i :: 0 <= i < k && DirStep(dir.entries[i], rel)) && remaining + 1 > |rel|
    decreases dir, 0, k
  {
    if k > 0 {
      EntriesEmitErrorIff(dir, k - 1, dirPath, remaining, filter, rel);
      VisitEmitsErrorIff(dir, k - 1, dirPath, remaining, filter, rel);
      if exists i :: 0 <= i < k && DirStep(dir.entries[i], rel) {
        var i :| 0 <= i < k && DirStep(dir.entries[i], rel);
        if i < k - 1 {
          assert exists j :: 0 <= j < k - 1 && DirStep(dir.entries[j], rel);
        }
      }
    }
  }

  lemma {:induction false} VisitEmitsErrorIff(dir: Node, i: nat, dirPath: Path, remaining: int, filter: string -> bool, rel: Path)
    requires dir.Listing? && i < |dir.entries|
    ensures Err(dirPath + rel) in Visit(dir, i, dirPath, remaining, filter) <==>
      DirStep(dir.entries[i], rel) && remaining + 1 > |rel|
    decreases dir, 0, i
  {
    match dir.entries[i]
    case File(name, exports) =>
    case Dir(name, sub) =>
      if remaining > 0 {
        var below := dirPath + [name];
        WalkUnder(sub, below, remaining, filter);
        if 0 < |rel| && rel[0] == name {
          assert dirPath + rel == below + rel[1..];
          WalkEmitsErrorIff(sub, below, remaining, filter, rel[1..]);
        } else {
          forall r | r in Walk(sub, below, remaining, filter) ensures r.path != dirPath + rel {
            assert r.path[..|below|][|dirPath|] == name;
          }
        }
      }
    case Special(_) =>
  }

  // ---------------------------------------------------------------------------
  // How deep a scan goes (lib/utils.js:31, lib/utils.js:54-56)

  /** With depth at most 1 the decremented depth is not positive, so no
      subdirectory is entered: a scan emits only files directly inside the
      root, or the single error for the root itself. */
  lemma {:induction false} ShallowScanStaysInRoot(dir: Node, dirPath: Path, depth: int, filter: string -> bool)
    requires depth <= 1
    ensures forall r | r in Walk(dir, dirPath, depth, filter) ::
      r == Err(dirPath) || (r.Ok? && |r.path| == |dirPath| + 1 && r.path[..|dirPath|] == dirPath)
  {
    if dir.Listing? && dir.entries != [] {
      ShallowEntries(dir, |dir.entries|, dirPath, depth - 1, filter);
    }
  }

  lemma {:induction false} ShallowEntries(dir: Node, k: nat, dirPath: Path, remaining: int, filter: string -> bool)
    requires dir.Listing? && k <= |dir.entries| && remaining <= 0
    ensures forall r | r in WalkEntries(dir, k, dirPath, remaining, filter) ::
      r.Ok? && |r.path| == |dirPath| + 1 && r.path[..|dirPath|] == dirPath
    decreases k
  {
    if k > 0 {
      ShallowEntries(dir, k - 1, dirPath, remaining, filter);
      assert (dirPath + [dir.entries[k - 1].name])[..|dirPath|] == dirPath;
    }
  }

  // ---------------------------------------------------------------------------
  // In which order (lib/utils.js:46-57)

  /** Results come entry by entry in listing order; a subdirectory's whole
      walk sits in its entry's place (depth first). */
  lemma {:induction false} WalkIsListingOrder(dir: Node, dirPath: Path, depth: int, filter: string -> bool)
    requires dir.Listing? && dir.entries != []
    ensures Walk(dir, dirPath, depth, filter)
         == Concat(seq(|dir.entries|, i requires 0 <= i < |dir.entries| => Visit(dir, i, dirPath, depth - 1, filter)))
  {
    EntriesInOrder(dir, |dir.entries|, dirPath, depth - 1, filter);
  }

  lemma {:induction false} EntriesInOrder(dir: Node, k: nat, dirPath: Path, remaining: int, filter: string -> bool)
    requires dir.Listing? && k <= |dir.entries|
    ensures WalkEntries(dir, k, dirPath, remaining, filter)
         == Concat(seq(k, i requires 0 <= i < k => Visit(dir, i, dirPath, remaining, filter)))
    decreases k
  {
    if k > 0 {
      EntriesInOrder(dir, k - 1, dirPath, remaining, filter);
      var parts := seq(k, i requires 0 <= i < k => Visit(dir, i, dirPath, remaining, filter));
      var front := seq(k - 1, i requires 0 <= i < k - 1 => Visit(dir, i, dirPath, remaining, filter));
      assert parts == front + [Visit(dir, k - 1, dirPath, remaining, filter)];
      ConcatSnoc(front, Visit(dir, k - 1, dirPath, remaining, filter));
    }
  }
}
