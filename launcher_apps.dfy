/**
 * Suggestion lists of the launcher (`mylauncher/apps.py`): the alphabetical
 * installed-app list, the running apps ranked by the app history, and the
 * combined list shown in `@` mode.
 */
module LauncherApps {
  import opened Text
  import opened AppModel
  import History

  // ---------------------------------------------------------------------------
  // The installed-app list.

  /**
   * `get_installed_apps` on a fresh scan: the first bundle of each lower-cased
   * name, in scan order, then sorted by lower-cased name.
   */
  method InstalledApps(scanned: seq<Installed>) returns (apps: seq<Installed>)
    ensures SortedBy(apps, NameKey)
    ensures DistinctNames(apps)
    ensures LowerNames(apps) == LowerNames(scanned)
    ensures forall a :: a in apps ==>
      NameLower(a) in LowerNames(scanned) && a == scanned[FirstPos(scanned, NameLower(a))]
  {
    var unique := ScanInstalled(scanned);
    var sorted := SortByKey(unique, NameKey);
    forall a | a in sorted ensures a in unique && a.InstalledApp? {
      assert a in multiset(sorted);
    }
    apps := sorted;
    DedupNoDupNames(scanned);
    SortDistinct(unique, NameKey);
    DedupNames(scanned);
    PermutationNames(sorted, unique);
    DedupKeepsFirst(scanned);
    forall a | a in apps
      ensures NameLower(a) in LowerNames(scanned) && a == scanned[FirstPos(scanned, NameLower(a))]
    {
      var k :| 0 <= k < |unique| && unique[k] == a;
    }
  }

  // ---------------------------------------------------------------------------
  // Running apps ranked by the history.

  /**
   * `{bid: i for i, bid in enumerate(items)}`: each identifier maps to a position
   * where it occurs, and a later occurrence overwrites an earlier one.
   */
  function EnumerateMap(items: seq<string>): (m: map<string, nat>)
    ensures forall x :: x in m <==> x in items
    ensures forall x :: x in m ==> m[x] < |items| && items[m[x]] == x
    decreases |items|
  {
    if items == [] then map[]
    else
      var init := items[..|items| - 1];
      assert items == init + [items[|items| - 1]];
      EnumerateMap(init)[items[|items| - 1] := |items| - 1]
  }

  /** The map holds the LAST position of each identifier. */
  lemma {:induction false} EnumerateMapLast(items: seq<string>, x: string)
    requires x in items
    ensures x !in items[EnumerateMap(items)[x] + 1..]
    decreases |items|
  {
    var init := items[..|items| - 1];
    var last := items[|items| - 1];
    assert items == init + [last];
    if last != x {
      assert x in init;
      EnumerateMapLast(init, x);
      var i := EnumerateMap(init)[x];
      assert items[i + 1..] == init[i + 1..] + [last];
    }
  }

  /** `recency_map.get(bundle_id, 999)`. */
  function RecencyMapGet(items: seq<string>, id: string): (r: nat)
    ensures id !in items ==> r == 999
    ensures id in items ==> r < |items| && items[r] == id
  {
    var m := EnumerateMap(items);
    if id in m then m[id] else 999
  }

  /**
   * On a duplicate-free history with a non-empty identifier the map lookup agrees
   * with `get_recency`; the two differ only on repeated entries (which `add` never
   * creates) or on `''` (which `add` never stores).
   */
  lemma RecencyMapAgrees(items: seq<string>, id: string)
    requires History.NoDup(items) && id != ""
    ensures RecencyMapGet(items, id) == History.Recency(items, id)
  {
    if id in items {
      var r := RecencyMapGet(items, id);
      var q := History.Recency(items, id);
      assert items[q] == id && items[r] == id;
    }
  }

  /** A loaded history file may repeat an identifier: the map then takes the last position. */
  lemma RecencyMapDiffersOnRepeats()
    ensures RecencyMapGet(["a", "b", "a"], "a") == 2
    ensures History.Recency(["a", "b", "a"], "a") == 0
  {
    var items := ["a", "b", "a"];
    EnumerateMapLast(items, "a");
    assert items[3..] == [];
    assert items[..0] == [];
  }

  /** The key of a running suggestion: `(recency_map.get(bundle_id, 999), name.lower())`. */
  function MapRecencyKey(items: seq<string>): App -> SortKey {
    a => SortKey(RecencyMapGet(items, BundleId(a)), NameLower(a))
  }

  /**
   * `get_running_app_suggestions(filter_text)`: the running apps whose name
   * contains the filter (case-insensitively), ordered by their last position in
   * the history (999 when absent), then by lower-cased name.
   */
  function RunningSuggestions(running: seq<Running>, history: seq<string>, filterText: string): (r: seq<App>)
    ensures SortedBy(r, MapRecencyKey(history))
    ensures forall a ::
      multiset(r)[a] == (if Contains(NameLower(a), Lower(filterText)) then multiset(running)[a] else 0)
    ensures forall k :: 0 <= k < |r| ==> r[k].RunningApp?
    ensures forall k :: Filter(r, HasKey(MapRecencyKey(history), k)) ==
              Filter(FilterByName(running, Lower(filterText)), HasKey(MapRecencyKey(history), k))
  {
    var filtered := FilterByName(running, Lower(filterText));
    var r := SortByKey(filtered, MapRecencyKey(history));
    forall k | 0 <= k < |r| ensures r[k].RunningApp? {
      assert r[k] in multiset(r);
    }
    forall k ensures Filter(r, HasKey(MapRecencyKey(history), k)) == Filter(filtered, HasKey(MapRecencyKey(history), k)) {
      SortByKeyStable(filtered, MapRecencyKey(history), k);
    }
    r
  }

  /** With an empty filter nothing is removed: the result is a reordering of the running apps. */
  lemma RunningSuggestionsUnfiltered(running: seq<Running>, history: seq<string>)
    ensures multiset(RunningSuggestions(running, history, "")) == multiset(running)
  {
    var r := RunningSuggestions(running, history, "");
    forall a ensures multiset(r)[a] == multiset(running)[a] {
      ContainsEmpty(NameLower(a));
    }
  }

  // ---------------------------------------------------------------------------
  // All apps: running ones first, then installed ones.

  /** The installed apps that are not running and, when a filter is given, match it. */
  function InstalledNotRunning(running: seq<Running>, installed: seq<Installed>, filterLower: string): (r: seq<App>)
    ensures forall a :: multiset(r)[a] ==
              (if NameLower(a) !in LowerNames(running) && Contains(NameLower(a), filterLower) then multiset(installed)[a] else 0)
    ensures forall a :: a in r <==>
      a in installed && NameLower(a) !in LowerNames(running) && Contains(NameLower(a), filterLower)
  {
    var runningNames := LowerNames(running);
    var r := if filterLower != "" then
      Filter(installed, a => NameLower(a) !in runningNames && Contains(NameLower(a), filterLower))
    else
      Filter(installed, a => NameLower(a) !in runningNames);
    forall a ensures multiset(r)[a] ==
      (if NameLower(a) !in runningNames && Contains(NameLower(a), filterLower) then multiset(installed)[a] else 0)
    {
      ContainsEmpty(NameLower(a));
    }
    forall a ensures a in r <==> a in installed && NameLower(a) !in runningNames && Contains(NameLower(a), filterLower) {
      ContainsEmpty(NameLower(a));
      assert a in r <==> a in multiset(r);
      assert a in installed <==> a in multiset(installed);
    }
    r
  }

  /** The running apps that match the filter, ranked by `get_recency` and name. */
  function RunningRanked(running: seq<Running>, history: seq<string>, filterLower: string): (r: seq<App>)
    ensures SortedBy(r, HistoryRecencyKey(history))
    ensures forall a ::
      multiset(r)[a] == (if Contains(NameLower(a), filterLower) then multiset(running)[a] else 0)
  {
    SortByKey(FilterByName(running, filterLower), HistoryRecencyKey(history))
  }

  /**
   * `get_all_app_suggestions(filter_text)`: the running apps come first, ranked by
   * history; every app after them is installed and not named like a running app;
   * every row matches the filter.
   */
  function AllSuggestions(running: seq<Running>, installed: seq<Installed>, history: seq<string>, filterText: string): (r: seq<App>)
    ensures var n := |RunningRanked(running, history, Lower(filterText))|;
      n <= |r| &&
      (forall k :: 0 <= k < n ==> r[k].RunningApp?) &&
      (forall k :: n <= k < |r| ==> r[k].InstalledApp? && NameLower(r[k]) !in LowerNames(running)) &&
      (forall k :: 0 <= k < |r| ==> Contains(NameLower(r[k]), Lower(filterText))) &&
      SortedBy(r[..n], HistoryRecencyKey(history))
  {
    var fl := Lower(filterText);
    var head := RunningRanked(running, history, fl);
    var tail := InstalledNotRunning(running, installed, fl);
    ConcatShape(running, installed, fl, head, tail);
    head + tail
  }

  /** Row by row facts about a running part followed by an installed part. */
  lemma ConcatShape(running: seq<Running>, installed: seq<Installed>, fl: string, head: seq<App>, tail: seq<App>)
    requires forall a :: multiset(head)[a] == (if Contains(NameLower(a), fl) then multiset(running)[a] else 0)
    requires forall a :: a in tail <==>
      a in installed && NameLower(a) !in LowerNames(running) && Contains(NameLower(a), fl)
    ensures var r := head + tail;
      (forall k :: 0 <= k < |head| ==> r[k].RunningApp?) &&
      (forall k :: |head| <= k < |r| ==> r[k].InstalledApp? && NameLower(r[k]) !in LowerNames(running)) &&
      (forall k :: 0 <= k < |r| ==> Contains(NameLower(r[k]), fl)) &&
      r[..|head|] == head
  {
    var r := head + tail;
    assert r[..|head|] == head;
    forall k | 0 <= k < |r| ensures Contains(NameLower(r[k]), fl) && (k < |head| ==> r[k].RunningApp?) {
      if k < |head| {
        assert r[k] == head[k] && head[k] in multiset(head);
      } else {
        assert r[k] == tail[k - |head|] && tail[k - |head|] in tail;
      }
    }
    forall k | |head| <= k < |r| ensures r[k].InstalledApp? && NameLower(r[k]) !in LowerNames(running) {
      assert r[k] == tail[k - |head|] && tail[k - |head|] in tail;
    }
  }

  /** The installed part of the `@` list is alphabetical, because `get_installed_apps` is. */
  lemma AllSuggestionsInstalledSorted(running: seq<Running>, installed: seq<Installed>, history: seq<string>, filterText: string)
    requires SortedBy(installed, NameKey)
    ensures var r := AllSuggestions(running, installed, history, filterText);
      SortedBy(r[|RunningRanked(running, history, Lower(filterText))|..], NameKey)
  {
    AllSuggestionsSplit(running, installed, history, filterText);
    var fl := Lower(filterText);
    var runningNames := LowerNames(running);
    if fl != "" {
      FilterSorted(installed, a => NameLower(a) !in runningNames && Contains(NameLower(a), fl), NameKey);
    } else {
      FilterSorted(installed, a => NameLower(a) !in runningNames, NameKey);
    }
  }

  /**
   * The `@` list loses and duplicates nothing: each app occurs as often as it
   * matches the filter and runs, plus as often as it is installed, matches and is
   * not named like a running app.
   */
  lemma AllSuggestionsCounts(running: seq<Running>, installed: seq<Installed>, history: seq<string>, filterText: string, a: App)
    ensures var fl := Lower(filterText);
      multiset(AllSuggestions(running, installed, history, filterText))[a] ==
        (if Contains(NameLower(a), fl) then multiset(running)[a] else 0) +
        (if NameLower(a) !in LowerNames(running) && Contains(NameLower(a), fl) then multiset(installed)[a] else 0)
  {
    AllSuggestionsSplit(running, installed, history, filterText);
  }

  /** Which apps the `@` list shows: the matching running apps and the matching installed apps not named like a running one. */
  lemma AllSuggestionsContents(running: seq<Running>, installed: seq<Installed>, history: seq<string>, filterText: string, a: App)
    ensures a in AllSuggestions(running, installed, history, filterText) <==>
      Contains(NameLower(a), Lower(filterText)) &&
      (a in running || (a in installed && NameLower(a) !in LowerNames(running)))
  {
    var fl := Lower(filterText);
    var head := RunningRanked(running, history, fl);
    AllSuggestionsSplit(running, installed, history, filterText);
    assert a in head <==> a in multiset(head);
    assert a in running <==> a in multiset(running);
  }

  /** The list is the ranked running part followed by the installed part. */
  lemma AllSuggestionsSplit(running: seq<Running>, installed: seq<Installed>, history: seq<string>, filterText: string)
    ensures AllSuggestions(running, installed, history, filterText) ==
      RunningRanked(running, history, Lower(filterText)) + InstalledNotRunning(running, installed, Lower(filterText))
  {
  }
}
