/**
  `this._plugins.sort(function (a, b) { return a.priority - b.priority; })`
  (lib/plugger.js:57-59).

  The sort itself is the library's `Array.prototype.sort`, which is stable
  from ECMAScript 2019 on (older engines, V8 among them, did not keep ties
  in order for longer arrays); the comparator subtracts the two `priority`
  properties. The model treats a property that is not a number as making the
  difference NaN, which the library reads as 0, a tie.
  The model is a stable insertion sort under that comparator, with the field
  name a parameter so that its hard-coded `"priority"` stays visible.
 */
module PrioritySort {
  import opened JsValues

  /** The operand `x.priority` contributes: a number, or None for NaN. */
  function Key(m: Module, field: string): Option<int>
  {
    if Get(m, field).Num? then Some(Get(m, field).n) else None
  }

  /** The comparator is positive: `a` belongs after `b`. */
  predicate After(a: Module, b: Module, field: string)
  {
    Key(a, field).Some? && Key(b, field).Some? && Key(a, field).value > Key(b, field).value
  }

  /** Inserts `x` after every element that the comparator does not put after it. */
  function Insert(x: Module, sorted: seq<Module>, field: string): seq<Module>
  {
    if sorted == [] then [x]
    else if After(sorted[|sorted| - 1], x, field) then Insert(x, sorted[..|sorted| - 1], field) + [sorted[|sorted| - 1]]
    else sorted + [x]
  }

  function SortBy(s: seq<Module>, field: string): seq<Module>
  {
    if s == [] then [] else Insert(s[|s| - 1], SortBy(s[..|s| - 1], field), field)
  }

  /** `_plugins.sort(...)` as written: the key is always `"priority"`. */
  function SortByPriority(plugins: seq<Module>): seq<Module>
  {
    SortBy(plugins, "priority")
  }

  ghost predicate AllKeyed(s: seq<Module>, field: string)
  {
    forall i | 0 <= i < |s| :: Key(s[i], field).Some?
  }

  ghost predicate NoneKeyed(s: seq<Module>, field: string)
  {
    forall i | 0 <= i < |s| :: Key(s[i], field).None?
  }

  /** Every element has a numeric key and the keys never decrease. */
  ghost predicate NonDecreasing(s: seq<Module>, field: string)
  {
    AllKeyed(s, field) &&
    forall i, j | 0 <= i < j < |s| :: Key(s[i], field).value <= Key(s[j], field).value
  }

  /** The elements of `s` whose key is `k`, in their order in `s`. */
  function WithKey(s: seq<Module>, field: string, k: Option<int>): seq<Module>
  {
    if s == [] then []
    else WithKey(s[..|s| - 1], field, k) + (if Key(s[|s| - 1], field) == k then [s[|s| - 1]] else [])
  }

  // ---------------------------------------------------------------------------
  // Permutation

  lemma {:induction false} InsertPermutes(x: Module, t: seq<Module>, field: string)
    ensures multiset(Insert(x, t, field)) == multiset(t) + multiset{x}
  {
    if t != [] && After(t[|t| - 1], x, field) {
      var init := t[..|t| - 1];
      InsertPermutes(x, init, field);
      assert t == init + [t[|t| - 1]];
    }
  }

  /** The registry after sorting holds exactly the plugins it held before, each as often. */
  lemma {:induction false} SortPermutes(s: seq<Module>, field: string)
    ensures multiset(SortBy(s, field)) == multiset(s)
  {
    if s != [] {
      var init := s[..|s| - 1];
      SortPermutes(init, field);
      InsertPermutes(s[|s| - 1], SortBy(init, field), field);
      assert s == init + [s[|s| - 1]];
    }
  }

  // ---------------------------------------------------------------------------
  // Order

  /** Appending an element whose key bounds every key before it keeps the order. */
  lemma AppendLargest(u: seq<Module>, y: Module, field: string)
    requires NonDecreasing(u, field) && Key(y, field).Some?
    requires forall j | 0 <= j < |u| :: Key(u[j], field).value <= Key(y, field).value
    ensures NonDecreasing(u + [y], field)
  {
    var v := u + [y];
    forall i | 0 <= i < |v| ensures Key(v[i], field).Some? {
      if i < |u| { assert v[i] == u[i]; }
    }
    forall i, j | 0 <= i < j < |v| ensures Key(v[i], field).value <= Key(v[j], field).value {
      assert v[i] == u[i];
      if j < |u| { assert v[j] == u[j]; }
    }
  }

  lemma {:induction false} InsertKeepsOrder(x: Module, t: seq<Module>, field: string)
    requires NonDecreasing(t, field) && Key(x, field).Some?
    ensures NonDecreasing(Insert(x, t, field), field)
  {
    if t == [] {
      AppendLargest([], x, field);
      assert [] + [x] == [x];
    } else {
      var last := t[|t| - 1];
      var init := t[..|t| - 1];
      assert NonDecreasing(init, field) by {
        forall i | 0 <= i < |init| ensures init[i] == t[i] { }
      }
      assert forall j | 0 <= j < |init| :: Key(init[j], field).value <= Key(last, field).value by {
        forall j | 0 <= j < |init| ensures Key(init[j], field).value <= Key(last, field).value {
          assert init[j] == t[j];
        }
      }
      if After(last, x, field) {
        InsertKeepsOrder(x, init, field);
        InsertPermutes(x, init, field);
        var u := Insert(x, init, field);
        forall j | 0 <= j < |u| ensures Key(u[j], field).value <= Key(last, field).value {
          assert u[j] in multiset(u);
          if u[j] != x {
            assert u[j] in multiset(init);
            var p :| 0 <= p < |init| && init[p] == u[j];
          }
        }
        AppendLargest(u, last, field);
      } else {
        forall j | 0 <= j < |t| ensures Key(t[j], field).value <= Key(x, field).value {
          if j < |t| - 1 { assert t[j] == init[j]; }
        }
        AppendLargest(t, x, field);
      }
    }
  }

  /** With a numeric `priority` on every plugin the sorted registry is
      non-decreasing by priority. */
  lemma {:induction false} SortOrders(s: seq<Module>, field: string)
    requires AllKeyed(s, field)
    ensures NonDecreasing(SortBy(s, field), field)
  {
    if s != [] {
      var init := s[..|s| - 1];
      assert AllKeyed(init, field) by {
        forall i | 0 <= i < |init| ensures Key(init[i], field).Some? { assert init[i] == s[i]; }
      }
      SortOrders(init, field);
      InsertKeepsOrder(s[|s| - 1], SortBy(init, field), field);
    }
  }

  // ---------------------------------------------------------------------------
  // Stability

  lemma {:induction false} WithKeyAppend(a: seq<Module>, b: seq<Module>, field: string, k: Option<int>)
    ensures WithKey(a + b, field, k) == WithKey(a, field, k) + WithKey(b, field, k)
    decreases |b|
  {
    if b != [] {
      var init := b[..|b| - 1];
      var last := b[|b| - 1];
      assert a + b != [];
      assert (a + b)[..|a + b| - 1] == a + init;
      assert (a + b)[|a + b| - 1] == last;
      WithKeyAppend(a, init, field, k);
      assert WithKey(a + b, field, k) == WithKey(a + init, field, k) + (if Key(last, field) == k then [last] else []);
      assert WithKey(b, field, k) == WithKey(init, field, k) + (if Key(last, field) == k then [last] else []);
    } else {
      assert a + b == a;
    }
  }

  lemma {:induction false} InsertWithKey(x: Module, t: seq<Module>, field: string, k: Option<int>)
    ensures WithKey(Insert(x, t, field), field, k)
         == WithKey(t, field, k) + (if Key(x, field) == k then [x] else [])
  {
    if t != [] && After(t[|t| - 1], x, field) {
      var last := t[|t| - 1];
      var init := t[..|t| - 1];
      InsertWithKey(x, init, field, k);
      WithKeyAppend(Insert(x, init, field), [last], field, k);
      assert [last][..0] == [];
    } else if t == [] {
      assert [x][..0] == [];
    } else {
      WithKeyAppend(t, [x], field, k);
      assert [x][..0] == [];
    }
  }

  /** Sorting keeps plugins of equal priority in discovery order: for every
      key, the plugins holding it appear in the same order before and after. */
  lemma {:induction false} SortIsStable(s: seq<Module>, field: string, k: Option<int>)
    ensures WithKey(SortBy(s, field), field, k) == WithKey(s, field, k)
  {
    if s != [] {
      var init := s[..|s| - 1];
      SortIsStable(init, field, k);
      InsertWithKey(s[|s| - 1], SortBy(init, field), field, k);
    }
  }

  /** When no plugin has a numeric `priority` every comparison is a tie and
      the order of discovery is kept as it is. */
  lemma {:induction false} SortWithoutKeysKeepsOrder(s: seq<Module>, field: string)
    requires NoneKeyed(s, field)
    ensures SortBy(s, field) == s
  {
    if s != [] {
      var init := s[..|s| - 1];
      assert NoneKeyed(init, field) by {
        forall i | 0 <= i < |init| ensures Key(init[i], field).None? { assert init[i] == s[i]; }
      }
      SortWithoutKeysKeepsOrder(init, field);
      assert s == init + [s[|s| - 1]];
    }
  }

  // ---------------------------------------------------------------------------
  // Any stable sort gives the same registry

  lemma {:induction false} WithKeyMembers(s: seq<Module>, field: string, k: Option<int>, y: Module)
    requires y in WithKey(s, field, k)
    ensures y in s && Key(y, field) == k
  {
    var init := s[..|s| - 1];
    if y in WithKey(init, field, k) {
      WithKeyMembers(init, field, k, y);
      assert y in s by { var p :| 0 <= p < |init| && init[p] == y; assert s[p] == y; }
    }
  }

  lemma LargestKeyIsLast(s: seq<Module>, field: string, y: Module)
    requires NonDecreasing(s, field) && s != [] && y in s
    ensures Key(y, field).value <= Key(s[|s| - 1], field).value
  {
    var p :| 0 <= p < |s| && s[p] == y;
    if p < |s| - 1 {
      assert Key(s[p], field).value <= Key(s[|s| - 1], field).value;
    }
  }

  lemma LastIsListedUnderItsKey(s: seq<Module>, field: string)
    ensures s != [] ==> s[|s| - 1] in WithKey(s, field, Key(s[|s| - 1], field))
  {
  }

  /** Two non-decreasing sequences that list the elements of every key in the
      same order are equal. */
  lemma {:induction false} StableOrderIsUnique(a: seq<Module>, b: seq<Module>, field: string)
    requires NonDecreasing(a, field) && NonDecreasing(b, field)
    requires forall k :: WithKey(a, field, k) == WithKey(b, field, k)
    ensures a == b
    decreases |a|
  {
    if a == [] || b == [] {
      LastIsListedUnderItsKey(a, field);
      LastIsListedUnderItsKey(b, field);
      // the last element of a non-empty one has no counterpart under its key
      if a != [] || b != [] {
        assert false;
      }
    } else {
      var la, lb := a[|a| - 1], b[|b| - 1];
      var a', b' := a[..|a| - 1], b[..|b| - 1];
      var ka, kb := Key(la, field), Key(lb, field);
      assert la in WithKey(b, field, ka) by { assert la in WithKey(a, field, ka); }
      WithKeyMembers(b, field, ka, la);
      LargestKeyIsLast(b, field, la);
      assert lb in WithKey(a, field, kb) by { assert lb in WithKey(b, field, kb); }
      WithKeyMembers(a, field, kb, lb);
      LargestKeyIsLast(a, field, lb);
      assert ka == kb;
      assert la == WithKey(a, field, ka)[|WithKey(a, field, ka)| - 1];
      assert lb == WithKey(b, field, ka)[|WithKey(b, field, ka)| - 1];
      forall k ensures WithKey(a', field, k) == WithKey(b', field, k) {
        assert WithKey(a, field, k) == WithKey(b, field, k);
        if k == ka {
          assert WithKey(a, field, k) == WithKey(a', field, k) + [la];
          assert WithKey(b, field, k) == WithKey(b', field, k) + [lb];
          var wa, wb := WithKey(a', field, k), WithKey(b', field, k);
          assert wa + [la] == wb + [lb];
          assert wa == (wa + [la])[..|wa|];
          assert wb == (wb + [lb])[..|wb|];
        } else {
          assert WithKey(a, field, k) == WithKey(a', field, k) + [];
          assert WithKey(b, field, k) == WithKey(b', field, k) + [];
          assert WithKey(a', field, k) + [] == WithKey(a', field, k);
          assert WithKey(b', field, k) + [] == WithKey(b', field, k);
        }
      }
      assert NonDecreasing(a', field) by {
        forall i | 0 <= i < |a'| ensures a'[i] == a[i] { }
      }
      assert NonDecreasing(b', field) by {
        forall i | 0 <= i < |b'| ensures b'[i] == b[i] { }
      }
      StableOrderIsUnique(a', b', field);
      assert a == a' + [la] && b == b' + [lb];
    }
  }

  /** With numeric priorities on every plugin, any stable sort under the
      comparator, the library's included, returns exactly `SortBy(s)`. */
  lemma StableSortIsSortBy(s: seq<Module>, r: seq<Module>, field: string)
    requires AllKeyed(s, field)
    requires NonDecreasing(r, field)
    requires forall k :: WithKey(r, field, k) == WithKey(s, field, k)
    ensures r == SortBy(s, field)
  {
    SortOrders(s, field);
    forall k ensures WithKey(r, field, k) == WithKey(SortBy(s, field), field, k) {
      SortIsStable(s, field, k);
    }
    StableOrderIsUnique(r, SortBy(s, field), field);
  }
}
