/**
 * App records shared by both launchers, the ordering Python's `sorted` uses on
 * their sort keys, list-comprehension filtering, and the installed-app scan that
 * keeps the first bundle of each case-insensitive name.
 */
module AppModel {
  import opened Text
  import History

  /**
   * A suggestion row. A running app carries its bundle identifier ('' when the
   * system reports none); an installed app carries its bundle path. The OS handle
   * used to focus a running app is not modelled.
   */
  datatype App =
    | RunningApp(name: string, bundleId: string)
    | InstalledApp(name: string, path: string)

  /** The records `get_running_apps` produces. */
  type Running = a: App | a.RunningApp? witness RunningApp("", "")

  /** The records `get_installed_apps` produces. */
  type Installed = a: App | a.InstalledApp? witness InstalledApp("", "")

  /** The record's `bundle_id` as a history key; an installed app's `None` behaves as ''. */
  function BundleId(a: App): string {
    if a.RunningApp? then a.bundleId else ""
  }

  /** `name.lower()`. */
  function NameLower(a: App): string {
    Lower(a.name)
  }

  /** The lower-cased names of a list of apps (`{app['name'].lower() for app in apps}`). */
  function LowerNames(s: seq<App>): set<string> {
    set a | a in s :: NameLower(a)
  }

  // ---------------------------------------------------------------------------
  // List comprehensions with a condition.

  /** `[a for a in s if p(a)]`. */
  function Filter(s: seq<App>, p: App -> bool): (r: seq<App>)
    ensures |r| <= |s|
    ensures forall k :: 0 <= k < |r| ==> p(r[k])
    ensures forall a :: multiset(r)[a] == if p(a) then multiset(s)[a] else 0
    decreases |s|
  {
    if s == [] then []
    else
      assert s == [s[0]] + s[1..];
      if p(s[0]) then [s[0]] + Filter(s[1..], p) else Filter(s[1..], p)
  }

  /**
   * Filtering keeps order: the kept elements of a concatenation are the kept
   * elements of each part, in the same order.
   */
  lemma {:induction false} FilterConcat(s1: seq<App>, s2: seq<App>, p: App -> bool)
    ensures Filter(s1 + s2, p) == Filter(s1, p) + Filter(s2, p)
    decreases |s1|
  {
    if s1 == [] {
      assert s1 + s2 == s2;
    } else {
      var h := if p(s1[0]) then [s1[0]] else [];
      ConcatTail(s1, s2);
      FilterConcat(s1[1..], s2, p);
      calc {
        Filter(s1 + s2, p);
        h + Filter(s1[1..] + s2, p);
        h + (Filter(s1[1..], p) + Filter(s2, p));
        (h + Filter(s1[1..], p)) + Filter(s2, p);
      }
    }
  }

  /** The head and tail of a concatenation whose first part is not empty. */
  lemma ConcatTail(s1: seq<App>, s2: seq<App>)
    requires s1 != []
    ensures (s1 + s2)[0] == s1[0] && (s1 + s2)[1..] == s1[1..] + s2
  {
  }


  // ---------------------------------------------------------------------------
  // Sort keys and Python's `sorted`.

  /**
   * A sort key: `(recency, name.lower())` for running apps, the lower-cased name
   * alone (rank 0) for installed ones.
   */
  datatype SortKey = SortKey(rank: int, name: string)

  /** Python's ordering on `(int, str)` tuples. */
  predicate KeyLe(a: SortKey, b: SortKey) {
    a.rank < b.rank || (a.rank == b.rank && StrLe(a.name, b.name))
  }

  lemma KeyLeTotal(a: SortKey, b: SortKey)
    ensures KeyLe(a, b) || KeyLe(b, a)
  {
    StrLeTotal(a.name, b.name);
  }

  lemma KeyLeTrans(a: SortKey, b: SortKey, c: SortKey)
    requires KeyLe(a, b) && KeyLe(b, c)
    ensures KeyLe(a, c)
  {
    if a.rank == b.rank == c.rank {
      StrLeTrans(a.name, b.name, c.name);
    }
  }

  /** Every earlier element's key is at most every later element's key. */
  predicate SortedBy(s: seq<App>, key: App -> SortKey) {
    forall i, j :: 0 <= i < j < |s| ==> KeyLe(key(s[i]), key(s[j]))
  }

  /** Inserts `x` before the first element whose key is not below it (so equal keys keep their order). */
  function Insert(x: App, s: seq<App>, key: App -> SortKey): (r: seq<App>)
    requires SortedBy(s, key)
    ensures SortedBy(r, key)
    ensures multiset(r) == multiset(s) + multiset{x}
    decreases |s|
  {
    if s == [] then [x]
    else if KeyLe(key(x), key(s[0])) then
      InsertFrontSorted(x, s, key);
      [x] + s
    else
      KeyLeTotal(key(x), key(s[0]));
      var rest := Insert(x, s[1..], key);
      assert s == [s[0]] + s[1..];
      AllAbove(s[0], s[1..], x, rest, key);
      [s[0]] + rest
  }

  lemma InsertFrontSorted(x: App, s: seq<App>, key: App -> SortKey)
    requires SortedBy(s, key) && s != [] && KeyLe(key(x), key(s[0]))
    ensures SortedBy([x] + s, key)
  {
    var r := [x] + s;
    forall i, j | 0 <= i < j < |r| ensures KeyLe(key(r[i]), key(r[j])) {
      if i == 0 && j > 1 {
        KeyLeTrans(key(x), key(s[0]), key(s[j - 1]));
      } else if i > 0 {
        assert r[i] == s[i - 1] && r[j] == s[j - 1];
      }
    }
  }

  /** `[y] + rest` is sorted when `rest` is sorted and made of `x` and elements above `y`. */
  lemma AllAbove(y: App, tail: seq<App>, x: App, rest: seq<App>, key: App -> SortKey)
    requires SortedBy([y] + tail, key) && KeyLe(key(y), key(x))
    requires SortedBy(rest, key) && multiset(rest) == multiset(tail) + multiset{x}
    ensures SortedBy([y] + rest, key)
  {
    var r := [y] + rest;
    forall i, j | 0 <= i < j < |r| ensures KeyLe(key(r[i]), key(r[j])) {
      if i == 0 {
        var z := rest[j - 1];
        assert r[j] == z;
        assert z in multiset(rest);
        if z != x {
          assert z in multiset(tail);
          var k :| 0 <= k < |tail| && tail[k] == z;
          var t := [y] + tail;
          assert t[0] == y && t[k + 1] == z;
          assert KeyLe(key(t[0]), key(t[k + 1]));
        }
        assert r[0] == y;
      } else {
        assert r[i] == rest[i - 1] && r[j] == rest[j - 1];
      }
    }
  }

  /** Python's stable `sorted(s, key=key)`, as an insertion sort. */
  function SortByKey(s: seq<App>, key: App -> SortKey): (r: seq<App>)
    ensures SortedBy(r, key)
    ensures multiset(r) == multiset(s)
    ensures |r| == |s|
    decreases |s|
  {
    if s == [] then []
    else
      assert s == [s[0]] + s[1..];
      var r := Insert(s[0], SortByKey(s[1..], key), key);
      assert |r| == |multiset(r)|;
      r
  }

  /** The test "has sort key `k`". */
  function HasKey(key: App -> SortKey, k: SortKey): App -> bool {
    a => key(a) == k
  }

  /**
   * Inserting `x` puts it ahead of every element with the same key and leaves
   * their order alone.
   */
  lemma {:induction false} InsertStable(x: App, s: seq<App>, key: App -> SortKey, k: SortKey)
    requires SortedBy(s, key)
    ensures Filter(Insert(x, s, key), HasKey(key, k)) ==
      (if key(x) == k then [x] else []) + Filter(s, HasKey(key, k))
    decreases |s|
  {
    var p := HasKey(key, k);
    var hx := if key(x) == k then [x] else [];
    if s == [] {
      FilterCons(x, s, p);
      assert [x] + s == [x];
    } else if KeyLe(key(x), key(s[0])) {
      FilterCons(x, s, p);
    } else {
      var y, tail := s[0], s[1..];
      var hy := if key(y) == k then [y] else [];
      SortedTail(s, key);
      var rest := Insert(x, tail, key);
      InsertStable(x, tail, key, k);
      FilterCons(y, rest, p);
      FilterHead(s, p);
      if key(x) == k {
        StrLeRefl(k.name);
        assert hy == [];
      }
      SwapHeads(hx, hy, Filter(tail, p));
      assert Insert(x, s, key) == [y] + rest;
    }
  }

  /** A sorted list stays sorted without its first element. */
  lemma SortedTail(s: seq<App>, key: App -> SortKey)
    requires s != [] && SortedBy(s, key)
    ensures SortedBy(s[1..], key)
  {
    forall i, j | 0 <= i < j < |s| - 1 ensures KeyLe(key(s[1..][i]), key(s[1..][j])) {
      assert s[1..][i] == s[i + 1] && s[1..][j] == s[j + 1];
    }
  }

  /** Two pieces of which one is empty can be put in either order. */
  lemma SwapHeads(hx: seq<App>, hy: seq<App>, f: seq<App>)
    requires hx == [] || hy == []
    ensures hy + (hx + f) == hx + (hy + f)
  {
    if hx == [] {
      assert hx + f == f && hx + (hy + f) == hy + f;
    } else {
      assert hy + (hx + f) == hx + f && hy + f == f;
    }
  }

  /** `Filter` on a non-empty list, one step unfolded. */
  lemma FilterHead(s: seq<App>, p: App -> bool)
    requires s != []
    ensures Filter(s, p) == (if p(s[0]) then [s[0]] else []) + Filter(s[1..], p)
  {
  }

  /** The first element is kept or dropped on its own. */
  lemma FilterCons(x: App, s: seq<App>, p: App -> bool)
    ensures Filter([x] + s, p) == (if p(x) then [x] else []) + Filter(s, p)
  {
    assert ([x] + s)[0] == x && ([x] + s)[1..] == s;
  }

  /**
   * `sorted` is stable: the elements sharing any one key come out in the order
   * they went in.
   */
  lemma {:induction false} SortByKeyStable(s: seq<App>, key: App -> SortKey, k: SortKey)
    ensures Filter(SortByKey(s, key), HasKey(key, k)) == Filter(s, HasKey(key, k))
    decreases |s|
  {
    if s != [] {
      SortByKeyStable(s[1..], key, k);
      InsertStable(s[0], SortByKey(s[1..], key), key, k);
    }
  }

  /** Dropping elements keeps a sorted list sorted. */
  lemma {:induction false} FilterSorted(s: seq<App>, p: App -> bool, key: App -> SortKey)
    requires SortedBy(s, key)
    ensures SortedBy(Filter(s, p), key)
    decreases |s|
  {
    if s != [] {
      FilterSorted(s[1..], p, key);
      var rest := Filter(s[1..], p);
      if p(s[0]) {
        var r := [s[0]] + rest;
        forall i, j | 0 <= i < j < |r| ensures KeyLe(key(r[i]), key(r[j])) {
          if i == 0 {
            assert rest[j - 1] in multiset(rest);
            assert rest[j - 1] in multiset(s[1..]);
            var k :| 0 <= k < |s[1..]| && s[1..][k] == rest[j - 1];
            assert s[k + 1] == r[j];
          }
        }
      }
    }
  }

  /** The lower-cased names of all apps in the list are distinct. */
  predicate DistinctNames(s: seq<App>) {
    forall i, j :: 0 <= i < j < |s| ==> NameLower(s[i]) != NameLower(s[j])
  }

  /** Reordering keeps the set of names. */
  lemma PermutationNames(a: seq<App>, b: seq<App>)
    requires multiset(a) == multiset(b)
    ensures LowerNames(a) == LowerNames(b)
  {
    forall n | n in LowerNames(a) ensures n in LowerNames(b) {
      var x :| x in a && NameLower(x) == n;
      assert x in multiset(a);
    }
    forall n | n in LowerNames(b) ensures n in LowerNames(a) {
      var x :| x in b && NameLower(x) == n;
      assert x in multiset(b);
    }
  }

  /** Dropping the head keeps the names distinct and new. */
  lemma DistinctTail(x: App, s: seq<App>)
    requires s != [] && DistinctNames(s) && NameLower(x) !in LowerNames(s)
    ensures DistinctNames(s[1..]) && NameLower(x) !in LowerNames(s[1..])
    ensures NameLower(s[0]) !in LowerNames(s[1..])
  {
    forall i, j | 0 <= i < j < |s[1..]| ensures NameLower(s[1..][i]) != NameLower(s[1..][j]) {
      assert s[1..][i] == s[i + 1] && s[1..][j] == s[j + 1];
    }
    forall y | y in s[1..] ensures NameLower(y) != NameLower(x) && NameLower(y) != NameLower(s[0]) {
      var k :| 0 <= k < |s[1..]| && s[1..][k] == y;
      assert s[k + 1] == y && s[k + 1] in s;
    }
  }

  /** `[y] + rest` has distinct names when `rest` does and holds only `x` and `tail`'s apps, all named apart from `y`. */
  lemma ConsDistinct(y: App, tail: seq<App>, x: App, rest: seq<App>)
    requires DistinctNames(rest) && multiset(rest) == multiset(tail) + multiset{x}
    requires NameLower(y) != NameLower(x) && NameLower(y) !in LowerNames(tail)
    ensures DistinctNames([y] + rest)
  {
    var r := [y] + rest;
    forall i, j | 0 <= i < j < |r| ensures NameLower(r[i]) != NameLower(r[j]) {
      if i == 0 {
        var z := rest[j - 1];
        assert r[j] == z && r[0] == y;
        assert z in multiset(rest);
        if z != x {
          assert z in multiset(tail);
          assert z in tail;
        }
      } else {
        assert r[i] == rest[i - 1] && r[j] == rest[j - 1];
      }
    }
  }

  /** Inserting an app with a new name keeps the names distinct. */
  lemma {:induction false} InsertDistinct(x: App, s: seq<App>, key: App -> SortKey)
    requires SortedBy(s, key) && DistinctNames(s) && NameLower(x) !in LowerNames(s)
    ensures DistinctNames(Insert(x, s, key))
    decreases |s|
  {
    if s != [] && !KeyLe(key(x), key(s[0])) {
      var rest := Insert(x, s[1..], key);
      assert Insert(x, s, key) == [s[0]] + rest;
      assert s[0] in s;
      DistinctTail(x, s);
      InsertDistinct(x, s[1..], key);
      ConsDistinct(s[0], s[1..], x, rest);
    } else if s != [] {
      var r := [x] + s;
      forall i, j | 0 <= i < j < |r| ensures NameLower(r[i]) != NameLower(r[j]) {
        if i == 0 {
          assert r[j] == s[j - 1] && s[j - 1] in s;
        } else {
          assert r[i] == s[i - 1] && r[j] == s[j - 1];
        }
      }
    }
  }

  /** Sorting keeps the names distinct. */
  lemma {:induction false} SortDistinct(s: seq<App>, key: App -> SortKey)
    requires DistinctNames(s)
    ensures DistinctNames(SortByKey(s, key))
    decreases |s|
  {
    if s != [] {
      assert DistinctNames(s[1..]) by {
        forall i, j | 0 <= i < j < |s[1..]| ensures NameLower(s[1..][i]) != NameLower(s[1..][j]) {
          assert s[1..][i] == s[i + 1] && s[1..][j] == s[j + 1];
        }
      }
      SortDistinct(s[1..], key);
      var sorted := SortByKey(s[1..], key);
      PermutationNames(sorted, s[1..]);
      forall y | y in s[1..] ensures NameLower(y) != NameLower(s[0]) {
        var k :| 0 <= k < |s[1..]| && s[1..][k] == y;
        assert s[k + 1] == y;
      }
      InsertDistinct(s[0], sorted, key);
    }
  }

  /**
   * The case-insensitive name filter: everything when the lower-cased filter is
   * empty, otherwise the apps whose lower-cased name contains it.
   */
  function FilterByName(s: seq<App>, filterLower: string): (r: seq<App>)
    ensures forall a :: multiset(r)[a] == (if Contains(NameLower(a), filterLower) then multiset(s)[a] else 0)
  {
    if filterLower == "" then
      assert forall a :: Contains(NameLower(a), "") by {
        forall a ensures Contains(NameLower(a), "") { ContainsEmpty(NameLower(a)); }
      }
      s
    else Filter(s, NameMatches(filterLower))
  }

  /** The test "the lower-cased name contains the filter". */
  function NameMatches(filterLower: string): App -> bool {
    a => Contains(NameLower(a), filterLower)
  }

  /** The name filter keeps order: the filter of a concatenation is the concatenation of the filters. */
  lemma FilterByNameConcat(s1: seq<App>, s2: seq<App>, filterLower: string)
    ensures FilterByName(s1 + s2, filterLower) == FilterByName(s1, filterLower) + FilterByName(s2, filterLower)
  {
    if filterLower != "" {
      FilterConcat(s1, s2, NameMatches(filterLower));
    }
  }

  /** Membership in the filtered list, both ways. */
  lemma FilterByNameMember(s: seq<App>, filterLower: string, a: App)
    ensures a in FilterByName(s, filterLower) <==> a in s && Contains(NameLower(a), filterLower)
  {
    var r := FilterByName(s, filterLower);
    assert a in r <==> a in multiset(r);
    assert a in s <==> a in multiset(s);
  }

  /** The key of a running app: `(get_app_recency(bundle_id), name.lower())`. */
  function HistoryRecencyKey(items: seq<string>): App -> SortKey {
    a => SortKey(History.Recency(items, BundleId(a)), NameLower(a))
  }

  /** The sort key of an installed app: its lower-cased name. */
  function NameKey(a: App): (k: SortKey)
    ensures k.name == NameLower(a)
  {
    SortKey(0, NameLower(a))
  }

  // ---------------------------------------------------------------------------
  // The installed-app scan: first bundle of each case-insensitive name wins.

  /** The position of the first app in `s` whose lower-cased name is `n`. */
  function FirstPos(s: seq<App>, n: string): (i: nat)
    requires n in LowerNames(s)
    ensures i < |s| && NameLower(s[i]) == n
    ensures forall j :: 0 <= j < i ==> NameLower(s[j]) != n
    decreases |s|
  {
    if NameLower(s[0]) == n then 0
    else
      assert n in LowerNames(s[1..]) by {
        var a :| a in s && NameLower(a) == n;
        assert a != s[0];
        assert a in s[1..];
      }
      1 + FirstPos(s[1..], n)
  }

  /** The apps of `s`, keeping only the first of each lower-cased name, in scan order. */
  function DedupByLowerName(s: seq<App>): seq<App>
    decreases |s|
  {
    if s == [] then []
    else
      var init := s[..|s| - 1];
      var last := s[|s| - 1];
      if NameLower(last) in LowerNames(init) then DedupByLowerName(init)
      else DedupByLowerName(init) + [last]
  }

  /** One more scanned app: it is kept exactly when its lower-cased name is new. */
  lemma DedupSnoc(init: seq<App>, last: App)
    ensures LowerNames(init + [last]) == LowerNames(init) + {NameLower(last)}
    ensures DedupByLowerName(init + [last]) ==
      if NameLower(last) in LowerNames(init) then DedupByLowerName(init) else DedupByLowerName(init) + [last]
  {
    LowerNamesSnoc(init, last);
    assert (init + [last])[..|init|] == init;
  }

  lemma LowerNamesSnoc(init: seq<App>, last: App)
    ensures LowerNames(init + [last]) == LowerNames(init) + {NameLower(last)}
  {
    var s := init + [last];
    forall n | n in LowerNames(s) ensures n in LowerNames(init) + {NameLower(last)} {
      var a :| a in s && NameLower(a) == n;
      if a != last {
        assert a in init;
      }
    }
    assert last in s;
    forall n | n in LowerNames(init) ensures n in LowerNames(s) {
      var a :| a in init && NameLower(a) == n;
      assert a in s;
    }
  }

  /** A first position in a prefix is the first position in the whole list. */
  lemma FirstPosPrefix(init: seq<App>, last: App, n: string)
    requires n in LowerNames(init)
    ensures n in LowerNames(init + [last])
    ensures FirstPos(init + [last], n) == FirstPos(init, n)
  {
    LowerNamesSnoc(init, last);
    var s := init + [last];
    var i := FirstPos(init, n);
    assert s[i] == init[i];
    assert forall j :: 0 <= j < i ==> s[j] == init[j];
    FirstPosAt(s, n, i);
  }

  /** A position holding `n` with no `n` before it is the first position. */
  lemma FirstPosAt(s: seq<App>, n: string, i: nat)
    requires i < |s| && NameLower(s[i]) == n
    requires forall j :: 0 <= j < i ==> NameLower(s[j]) != n
    ensures n in LowerNames(s) && FirstPos(s, n) == i
  {
    assert s[i] in s;
  }

  /** The last element, when its name is new, is the first of its name. */
  lemma FirstPosNew(init: seq<App>, last: App)
    requires NameLower(last) !in LowerNames(init)
    ensures NameLower(last) in LowerNames(init + [last])
    ensures FirstPos(init + [last], NameLower(last)) == |init|
  {
    var s := init + [last];
    forall j | 0 <= j < |init| ensures NameLower(s[j]) != NameLower(last) {
      assert s[j] == init[j] && init[j] in init;
    }
    FirstPosAt(s, NameLower(last), |init|);
  }

  /** The scan keeps exactly the names it was given. */
  lemma {:induction false} DedupNames(s: seq<App>)
    ensures LowerNames(DedupByLowerName(s)) == LowerNames(s)
    decreases |s|
  {
    if s != [] {
      var init := s[..|s| - 1];
      var last := s[|s| - 1];
      assert s == init + [last];
      DedupNames(init);
      LowerNamesSnoc(init, last);
      if NameLower(last) !in LowerNames(init) {
        LowerNamesSnoc(DedupByLowerName(init), last);
      }
    }
  }

  /** Every kept app is the first app of its lower-cased name in scan order. */
  lemma {:induction false} DedupKeepsFirst(s: seq<App>)
    ensures forall k :: 0 <= k < |DedupByLowerName(s)| ==>
      var a := DedupByLowerName(s)[k];
      NameLower(a) in LowerNames(s) && a == s[FirstPos(s, NameLower(a))]
    decreases |s|
  {
    if s != [] {
      var init := s[..|s| - 1];
      var last := s[|s| - 1];
      assert s == init + [last];
      DedupKeepsFirst(init);
      var d := DedupByLowerName(init);
      var r := DedupByLowerName(s);
      forall k | 0 <= k < |r|
        ensures NameLower(r[k]) in LowerNames(s) && r[k] == s[FirstPos(s, NameLower(r[k]))]
      {
        if k < |d| {
          assert r[k] == d[k];
          FirstPosPrefix(init, last, NameLower(d[k]));
          assert s[FirstPos(init, NameLower(d[k]))] == init[FirstPos(init, NameLower(d[k]))];
        } else {
          assert r[k] == last;
          FirstPosNew(init, last);
        }
      }
    }
  }

  /** `a`'s name first occurs in `s` before `b`'s does. */
  predicate FirstBefore(s: seq<App>, a: App, b: App) {
    NameLower(a) in LowerNames(s) && NameLower(b) in LowerNames(s) &&
    FirstPos(s, NameLower(a)) < FirstPos(s, NameLower(b))
  }

  /** The kept apps are in scan order of their first occurrence; in particular no name repeats. */
  lemma {:induction false} DedupInScanOrder(s: seq<App>)
    ensures forall i, j :: 0 <= i < j < |DedupByLowerName(s)| ==>
      FirstBefore(s, DedupByLowerName(s)[i], DedupByLowerName(s)[j])
    decreases |s|
  {
    if s != [] {
      var init := s[..|s| - 1];
      var last := s[|s| - 1];
      assert s == init + [last];
      DedupInScanOrder(init);
      var d := DedupByLowerName(init);
      var r := DedupByLowerName(s);
      forall i, j | 0 <= i < j < |r| ensures FirstBefore(s, r[i], r[j]) {
        if j < |d| {
          assert r[i] == d[i] && r[j] == d[j];
          FirstBeforeSnoc(init, last, d[i], d[j]);
        } else {
          DedupNamesIn(init, i);
          assert r[i] == d[i] && r[j] == last;
          FirstPosPrefix(init, last, NameLower(d[i]));
          FirstPosNew(init, last);
        }
      }
    }
  }

  /** Kept apps carry names of the scanned list. */
  lemma DedupNamesIn(s: seq<App>, i: nat)
    requires i < |DedupByLowerName(s)|
    ensures NameLower(DedupByLowerName(s)[i]) in LowerNames(s)
  {
    DedupNames(s);
    assert DedupByLowerName(s)[i] in DedupByLowerName(s);
  }

  lemma FirstBeforeSnoc(init: seq<App>, last: App, a: App, b: App)
    requires FirstBefore(init, a, b)
    ensures FirstBefore(init + [last], a, b)
  {
    FirstPosPrefix(init, last, NameLower(a));
    FirstPosPrefix(init, last, NameLower(b));
  }

  /** Distinct kept apps have distinct lower-cased names. */
  lemma DedupNoDupNames(s: seq<App>)
    ensures DistinctNames(DedupByLowerName(s))
  {
    DedupInScanOrder(s);
  }

  /**
   * The installed-app scan loop (`get_installed_apps` before any sorting):
   * walks the bundles found in the application folders, in scan order, and
   * keeps an app only when its lower-cased name has not been seen.
   */
  method ScanInstalled(scanned: seq<Installed>) returns (apps: seq<Installed>)
    ensures apps == DedupByLowerName(scanned)
  {
    apps := [];
    var seen: set<string> := {};
    var i := 0;
    while i < |scanned|
      invariant 0 <= i <= |scanned|
      invariant apps == DedupByLowerName(scanned[..i])
      invariant seen == LowerNames(scanned[..i])
    {
      var app := scanned[i];
      var nameLower := Lower(app.name);
      assert scanned[..i + 1] == scanned[..i] + [app];
      DedupSnoc(scanned[..i], app);
      if nameLower !in seen {
        seen := seen + {nameLower};
        apps := apps + [app];
      }
      i := i + 1;
    }
    assert scanned[..i] == scanned;
  }
}
