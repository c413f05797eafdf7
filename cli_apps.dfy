/**
 * Suggestion lists of the command runner (`mycli/apps.py`): the installed-app
 * scan (no sorting) and the merged, filtered and ranked list of all apps.
 */
module CliApps {
  import opened Text
  import opened AppModel

  /**
   * `get_installed_apps`: the first bundle of each lower-cased name, in scan
   * order of first occurrence.
   */
  method InstalledApps(scanned: seq<Installed>) returns (apps: seq<Installed>)
    ensures DistinctNames(apps)
    ensures LowerNames(apps) == LowerNames(scanned)
    ensures forall k :: 0 <= k < |apps| ==>
      NameLower(apps[k]) in LowerNames(scanned) && apps[k] == scanned[FirstPos(scanned, NameLower(apps[k]))]
    ensures forall i, j :: 0 <= i < j < |apps| ==> FirstBefore(scanned, apps[i], apps[j])
  {
    apps := ScanInstalled(scanned);
    DedupNoDupNames(scanned);
    DedupNames(scanned);
    DedupKeepsFirst(scanned);
    DedupInScanOrder(scanned);
  }

  /** Running apps, then the installed apps not named like a running one, narrowed by the filter. */
  function Merged(running: seq<Running>, installed: seq<Installed>, filterText: string): (r: seq<App>)
    ensures forall a :: multiset(r)[a] ==
              (if Contains(NameLower(a), Lower(filterText)) then multiset(running)[a] else 0) +
              (if Contains(NameLower(a), Lower(filterText)) && NameLower(a) !in LowerNames(running) then multiset(installed)[a] else 0)
    ensures forall a :: a in r <==>
      Contains(NameLower(a), Lower(filterText)) &&
      (a in running || (a in installed && NameLower(a) !in LowerNames(running)))
  {
    var runningNames := LowerNames(running);
    var installedFiltered := Filter(installed, a => NameLower(a) !in runningNames);
    var all := running + installedFiltered;
    var r := FilterByName(all, Lower(filterText));
    assert multiset(all) == multiset(running) + multiset(installedFiltered);
    forall a ensures multiset(r)[a] ==
      (if Contains(NameLower(a), Lower(filterText)) then multiset(running)[a] else 0) +
      (if Contains(NameLower(a), Lower(filterText)) && NameLower(a) !in runningNames then multiset(installed)[a] else 0)
    {
      assert multiset(all)[a] == multiset(running)[a] + multiset(installedFiltered)[a];
    }
    forall a ensures a in r <==>
      Contains(NameLower(a), Lower(filterText)) && (a in running || (a in installed && NameLower(a) !in runningNames))
    {
      assert a in r <==> multiset(r)[a] > 0;
      assert a in running <==> multiset(running)[a] > 0;
      assert a in installed <==> multiset(installed)[a] > 0;
    }
    r
  }

  /** The merged list starts with the matching running apps, in the order they were reported. */
  lemma MergedRunningFirst(running: seq<Running>, installed: seq<Installed>, filterText: string)
    ensures var head := FilterByName(running, Lower(filterText));
      var r := Merged(running, installed, filterText);
      |head| <= |r| && r[..|head|] == head
  {
    var runningNames := LowerNames(running);
    var installedFiltered := Filter(installed, a => NameLower(a) !in runningNames);
    var head := FilterByName(running, Lower(filterText));
    FilterByNameConcat(running, installedFiltered, Lower(filterText));
    var r := head + FilterByName(installedFiltered, Lower(filterText));
    assert r[..|head|] == head;
  }

  /**
   * `get_app_suggestions(filter_text)`: the merged list split into its running
   * apps, ranked by `(get_app_recency(bundle_id), name.lower())`, followed by the
   * others in lower-cased name order. The split and the two sorts lose and
   * duplicate nothing.
   */
  function AppSuggestions(running: seq<Running>, installed: seq<Installed>, history: seq<string>, filterText: string): (r: seq<App>)
    ensures multiset(r) == multiset(Merged(running, installed, filterText))
    ensures |r| == |Merged(running, installed, filterText)|
    ensures var n := |Filter(Merged(running, installed, filterText), IsRunning)|;
      n <= |r| &&
      (forall k :: 0 <= k < n ==> r[k].RunningApp?) &&
      (forall k :: n <= k < |r| ==> r[k].InstalledApp?) &&
      SortedBy(r[..n], HistoryRecencyKey(history)) &&
      SortedBy(r[n..], NameKey)
  {
    var all := Merged(running, installed, filterText);
    var runningApps := SortByKey(Filter(all, IsRunning), HistoryRecencyKey(history));
    var otherApps := SortByKey(Filter(all, IsNotRunning), NameKey);
    PartitionShape(all, runningApps, otherApps);
    runningApps + otherApps
  }

  /**
   * Both sorts in `get_app_suggestions` are stable: within each part, the apps
   * sharing a sort key keep their order in the merged list.
   */
  lemma AppSuggestionsStable(running: seq<Running>, installed: seq<Installed>, history: seq<string>, filterText: string, k: SortKey)
    ensures var all := Merged(running, installed, filterText);
      var r := AppSuggestions(running, installed, history, filterText);
      var n := |Filter(all, IsRunning)|;
      Filter(r[..n], HasKey(HistoryRecencyKey(history), k)) == Filter(Filter(all, IsRunning), HasKey(HistoryRecencyKey(history), k)) &&
      Filter(r[n..], HasKey(NameKey, k)) == Filter(Filter(all, IsNotRunning), HasKey(NameKey, k))
  {
    var all := Merged(running, installed, filterText);
    var runningApps := SortByKey(Filter(all, IsRunning), HistoryRecencyKey(history));
    var otherApps := SortByKey(Filter(all, IsNotRunning), NameKey);
    var r := runningApps + otherApps;
    assert AppSuggestions(running, installed, history, filterText) == r;
    assert r[..|runningApps|] == runningApps && r[|runningApps|..] == otherApps;
    SortByKeyStable(Filter(all, IsRunning), HistoryRecencyKey(history), k);
    SortByKeyStable(Filter(all, IsNotRunning), NameKey, k);
  }

  /** `a['is_running']`. */
  predicate IsRunning(a: App) {
    a.RunningApp?
  }

  /** `not a['is_running']`. */
  predicate IsNotRunning(a: App) {
    !a.RunningApp?
  }

  /** Putting the sorted running part before the sorted other part is a reordering of the whole. */
  lemma PartitionShape(all: seq<App>, runningApps: seq<App>, otherApps: seq<App>)
    requires multiset(runningApps) == multiset(Filter(all, IsRunning))
    requires multiset(otherApps) == multiset(Filter(all, IsNotRunning))
    ensures multiset(runningApps + otherApps) == multiset(all)
    ensures |runningApps| == |Filter(all, IsRunning)|
    ensures forall k :: 0 <= k < |runningApps| ==> runningApps[k].RunningApp?
    ensures forall k :: 0 <= k < |otherApps| ==> otherApps[k].InstalledApp?
  {
    var p := Filter(all, IsRunning);
    var q := Filter(all, IsNotRunning);
    assert multiset(p) + multiset(q) == multiset(all);
    assert |runningApps| == |multiset(runningApps)| == |multiset(p)| == |p|;
    forall k | 0 <= k < |runningApps| ensures runningApps[k].RunningApp? {
      assert runningApps[k] in multiset(p);
    }
    forall k | 0 <= k < |otherApps| ensures otherApps[k].InstalledApp? {
      assert otherApps[k] in multiset(q);
    }
  }
}
