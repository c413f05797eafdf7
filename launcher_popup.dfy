/**
 * The launcher's search popup (`mylauncher/popup.py`): the selection index and
 * its bounds, the list refresh with its clamp and row labels, the `>` command
 * mode and `@` all-apps mode, Enter, and word deletion. Widgets, scrolling and
 * focus handling are not modelled; a row is represented by its label.
 */
module LauncherPopup {
  import opened Text
  import opened Optional
  import opened AppModel
  import LauncherApps
  import LineEditing

  /** The label suffix of an app that is installed but not running. */
  const NotRunningSuffix: string := "  (not running)"

  /** The label of the only row shown in command mode when a command is typed. */
  const RunPrefix: string := "\U{23CE} Run: "

  /** The label of that row while the command is still empty. */
  const RunPlaceholder: string := "\U{23CE} Run command..."

  function Max(a: int, b: int): int {
    if a >= b then a else b
  }

  /**
   * The row label of an app: the name, with `  (not running)` appended for an
   * installed app, truncated to `maxLen`.
   */
  function DisplayName(app: App, maxLen: int): (r: string)
    ensures var full := if app.RunningApp? then app.name else app.name + NotRunningSuffix;
      (|full| <= maxLen ==> r == full) &&
      (|full| > maxLen >= 3 ==> |r| == maxLen && r[..maxLen - 3] == full[..maxLen - 3] && EndsWith(r, "..."))
  {
    var name := if app.RunningApp? then app.name else app.name + NotRunningSuffix;
    Truncate(name, maxLen)
  }

  /** An installed app's label says it is not running whenever it fits. */
  lemma InstalledLabelMarked(app: App, maxLen: int)
    requires app.InstalledApp? && |app.name| + |NotRunningSuffix| <= maxLen
    ensures EndsWith(DisplayName(app, maxLen), NotRunningSuffix)
  {
    var r := DisplayName(app, maxLen);
    assert r == app.name + NotRunningSuffix;
    assert r[|r| - |NotRunningSuffix|..] == NotRunningSuffix;
  }

  /** The command-mode row for a search text starting with `>`. */
  function RunIndicator(text: string, maxLen: int): (r: string)
    requires StartsWith(text, ">")
    ensures Strip(text[1..]) == "" ==> r == Truncate(RunPlaceholder, maxLen)
    ensures Strip(text[1..]) != "" ==> r == Truncate(RunPrefix + Strip(text[1..]), maxLen)
    ensures Strip(text[1..]) != "" && |RunPrefix + Strip(text[1..])| <= maxLen ==> r == RunPrefix + Strip(text[1..])
    ensures maxLen >= 3 ==> |r| <= maxLen
  {
    var cmd := Strip(text[1..]);
    var display := if cmd != "" then RunPrefix + cmd else RunPlaceholder;
    Truncate(display, maxLen)
  }

  /**
   * The command `run_command` takes from the search text: the stripped text,
   * without one leading `>` and stripped again.
   */
  function CommandOf(text: string): (r: string)
    ensures Strip(r) == r
    ensures |r| <= |text|
    ensures !StartsWith(Strip(text), ">") ==> r == Strip(text)
    ensures StartsWith(Strip(text), ">") ==> r == Strip(Strip(text)[1..])
  {
    var cmd := Strip(text);
    StripIdempotent(text);
    if StartsWith(cmd, ">") then
      StripIdempotent(cmd[1..]);
      Strip(cmd[1..])
    else cmd
  }

  /** `>` followed by any text runs that text stripped; only one `>` is removed. */
  lemma CommandOfPrefixed(cmd: string)
    ensures CommandOf(">" + cmd) == Strip(cmd)
  {
    StripAfterMark('>', cmd);
    assert ">" + cmd == ['>'] + cmd;
  }

  /** A text holding two `>` keeps the second one. */
  lemma CommandOfDoublePrefix()
    ensures CommandOf(">>ls") == ">ls"
  {
    var cmd := ">ls";
    assert cmd[0] == '>' && cmd[|cmd| - 1] == 's';
    StripOfStripped(cmd);
    CommandOfPrefixed(cmd);
    assert ">" + cmd == ">>ls";
  }

  /**
   * `get_suggestions`: command mode and the time before the apps are loaded show
   * nothing; `@` lists all apps for the rest of the text; any other text ranks
   * the running apps.
   */
  function Suggestions(text: string, appsLoaded: bool, running: seq<Running>, installed: seq<Installed>, history: seq<string>): (r: seq<App>)
    ensures StartsWith(text, ">") || !appsLoaded ==> r == []
    ensures !StartsWith(text, ">") && appsLoaded && StartsWith(text, "@") ==>
      r == LauncherApps.AllSuggestions(running, installed, history, text[1..])
    ensures !StartsWith(text, ">") && appsLoaded && !StartsWith(text, "@") ==>
      r == LauncherApps.RunningSuggestions(running, history, text)
  {
    if StartsWith(text, ">") then []
    else if !appsLoaded then []
    else if StartsWith(text, "@") then LauncherApps.AllSuggestions(running, installed, history, text[1..])
    else LauncherApps.RunningSuggestions(running, history, text)
  }

  /** Outside `@` mode only running apps are suggested, and every suggestion matches the search text. */
  lemma SuggestionsMatch(text: string, appsLoaded: bool, running: seq<Running>, installed: seq<Installed>, history: seq<string>)
    ensures var r := Suggestions(text, appsLoaded, running, installed, history);
      (!StartsWith(text, "@") ==> forall k :: 0 <= k < |r| ==> r[k].RunningApp?) &&
      (StartsWith(text, "@") ==> forall k :: 0 <= k < |r| ==> Contains(NameLower(r[k]), Lower(text[1..]))) &&
      (!StartsWith(text, "@") ==> forall k :: 0 <= k < |r| ==> Contains(NameLower(r[k]), Lower(text)))
  {
    var r := Suggestions(text, appsLoaded, running, installed, history);
    if !StartsWith(text, ">") && appsLoaded && !StartsWith(text, "@") {
      forall k | 0 <= k < |r| ensures Contains(NameLower(r[k]), Lower(text)) {
        assert r[k] in multiset(r);
      }
    }
  }

  /** The popup's state: the search field, the list of rows, the selection and the outcome. */
  class Popup {
    const maxDisplayLen: int
    var text: string
    var cursor: nat
    var selectedIdx: int
    var items: seq<App>
    var labels: seq<string>
    var appsLoaded: bool
    var resultApp: Option<App>
    var resultCmd: Option<string>
    var closed: bool

    /** The cursor is inside the text, the index is not negative, and the rows are the items or the command row. */
    ghost predicate Valid()
      reads this
    {
      cursor <= |text| && 0 <= selectedIdx &&
      (|labels| == |items| || (items == [] && |labels| == 1))
    }

    /**
     * The rows show the items: the run indicator alone when command mode has no
     * items, otherwise one label per item.
     */
    ghost predicate LabelsShowItems()
      reads this
    {
      (items == [] && StartsWith(text, ">") ==> labels == [RunIndicator(text, maxDisplayLen)]) &&
      (!(items == [] && StartsWith(text, ">")) ==>
        |labels| == |items| && forall k :: 0 <= k < |items| ==> labels[k] == DisplayName(items[k], maxDisplayLen))
    }

    /** The selection is on a row, or on row 0 when there are none. */
    ghost predicate Bounded()
      reads this
    {
      selectedIdx <= Max(0, |labels| - 1)
    }

    /** The popup opens with an empty search, no rows and index 1 (so Enter after one step switches back). */
    constructor (maxDisplayLen: int)
      ensures Valid()
      ensures this.maxDisplayLen == maxDisplayLen
      ensures text == "" && cursor == 0 && selectedIdx == 1 && items == [] && labels == []
      ensures !appsLoaded && resultApp == None && resultCmd == None && !closed
    {
      this.maxDisplayLen := maxDisplayLen;
      text := "";
      cursor := 0;
      selectedIdx := 1;
      items := [];
      labels := [];
      appsLoaded := false;
      resultApp := None;
      resultCmd := None;
      closed := false;
    }

    /** `select(idx)`: an index on an item chooses it and closes the popup; any other does nothing. */
    method Select(idx: int)
      modifies this`resultApp, this`closed
      ensures 0 <= idx < |items| ==> resultApp == Some(items[idx]) && closed
      ensures !(0 <= idx < |items|) ==> resultApp == old(resultApp) && closed == old(closed)
    {
      if 0 <= idx < |items| {
        resultApp := Some(items[idx]);
        closed := true;
      }
    }

    /** `run_command`: a non-empty command from the text is kept and closes the popup. */
    method RunCommand()
      modifies this`resultCmd, this`closed
      ensures CommandOf(text) != "" ==> resultCmd == Some(CommandOf(text)) && closed
      ensures CommandOf(text) == "" ==> resultCmd == old(resultCmd) && closed == old(closed)
    {
      var cmd := Strip(text);
      if StartsWith(cmd, ">") {
        cmd := Strip(cmd[1..]);
      }
      if cmd != "" {
        resultCmd := Some(cmd);
        closed := true;
      }
    }

    /**
     * `update_list(new_items)`: the rows become the new items; an index past the
     * end moves to the last row (0 when empty); in command mode with no items the
     * only row is the run indicator; otherwise each item gets its display label.
     */
    method UpdateList(newItems: seq<App>)
      requires Valid()
      modifies this`items, this`selectedIdx, this`labels
      ensures Valid() && Bounded()
      ensures items == newItems
      ensures old(selectedIdx) >= |newItems| ==> selectedIdx == Max(0, |newItems| - 1)
      ensures old(selectedIdx) < |newItems| ==> selectedIdx == old(selectedIdx)
      ensures LabelsShowItems()
    {
      items := newItems;
      if selectedIdx >= |items| {
        selectedIdx := Max(0, |items| - 1);
      }
      if newItems == [] && StartsWith(text, ">") {
        labels := [RunIndicator(text, maxDisplayLen)];
        return;
      }
      var rows: seq<string> := [];
      var i := 0;
      while i < |newItems|
        invariant 0 <= i <= |newItems|
        invariant |rows| == i
        invariant forall k :: 0 <= k < i ==> rows[k] == DisplayName(newItems[k], maxDisplayLen)
      {
        rows := rows + [DisplayName(newItems[i], maxDisplayLen)];
        i := i + 1;
      }
      labels := rows;
    }

    /** `on_search`: the selection returns to the top and the list is recomputed for the text. */
    method OnSearch(running: seq<Running>, installed: seq<Installed>, history: seq<string>)
      requires Valid()
      modifies this`items, this`selectedIdx, this`labels
      ensures Valid() && Bounded()
      ensures selectedIdx == 0
      ensures items == Suggestions(text, appsLoaded, running, installed, history)
      ensures LabelsShowItems()
    {
      selectedIdx := 0;
      UpdateList(Suggestions(text, appsLoaded, running, installed, history));
    }

    /** `on_enter`: choose the selected item if there is one, else run the text as a command. */
    method OnEnter()
      requires Valid()
      modifies this`resultApp, this`resultCmd, this`closed
      ensures 0 <= selectedIdx < |items| ==>
        resultApp == Some(items[selectedIdx]) && closed && resultCmd == old(resultCmd)
      ensures !(0 <= selectedIdx < |items|) && CommandOf(text) != "" ==>
        resultCmd == Some(CommandOf(text)) && closed && resultApp == old(resultApp)
      ensures !(0 <= selectedIdx < |items|) && CommandOf(text) == "" ==>
        resultCmd == old(resultCmd) && closed == old(closed) && resultApp == old(resultApp)
    {
      if |items| > 0 && selectedIdx < |items| {
        Select(selectedIdx);
      } else {
        RunCommand();
      }
    }

    /** `on_up`: one row up, never above the first. */
    method OnUp()
      requires Valid()
      modifies this`selectedIdx
      ensures Valid()
      ensures old(selectedIdx) > 0 ==> selectedIdx == old(selectedIdx) - 1
      ensures old(selectedIdx) == 0 ==> selectedIdx == 0
      ensures old(Bounded()) ==> Bounded()
    {
      if selectedIdx > 0 {
        selectedIdx := selectedIdx - 1;
      }
    }

    /** `on_down`: one row down, never below the last row. */
    method OnDown()
      requires Valid()
      modifies this`selectedIdx
      ensures Valid()
      ensures old(selectedIdx) < |labels| - 1 ==> selectedIdx == old(selectedIdx) + 1
      ensures old(selectedIdx) >= |labels| - 1 ==> selectedIdx == old(selectedIdx)
      ensures old(Bounded()) ==> Bounded()
    {
      if selectedIdx < |labels| - 1 {
        selectedIdx := selectedIdx + 1;
      }
    }

    /** `on_clear`: the search text is emptied. */
    method OnClear()
      requires Valid()
      modifies this`text, this`cursor
      ensures Valid()
      ensures text == "" && cursor == 0
    {
      text := "";
      cursor := 0;
    }

    /** `on_delete_word`: the word before the cursor and the spaces after it go. */
    method OnDeleteWord()
      requires Valid()
      modifies this`text, this`cursor
      ensures Valid()
      ensures LineEditing.IsWordStart(old(text), old(cursor), cursor)
      ensures text == LineEditing.DeleteRange(old(text), cursor, old(cursor))
    {
      var newText, newCursor := LineEditing.DeleteWord(text, cursor);
      text, cursor := newText, newCursor;
    }

    /** `load_apps_async`: apps become available, and an untouched search shows the running apps. */
    method LoadApps(running: seq<Running>, history: seq<string>)
      requires Valid()
      modifies this`appsLoaded, this`items, this`selectedIdx, this`labels
      ensures Valid()
      ensures appsLoaded
      ensures old(text) == "" ==>
        items == LauncherApps.RunningSuggestions(running, history, "") && Bounded() && LabelsShowItems()
      ensures old(text) == "" ==>
        (old(selectedIdx) >= |items| ==> selectedIdx == Max(0, |items| - 1)) &&
        (old(selectedIdx) < |items| ==> selectedIdx == old(selectedIdx))
      ensures old(text) == "" ==> |items| == |running|
      ensures old(text) != "" ==> items == old(items) && labels == old(labels) && selectedIdx == old(selectedIdx)
    {
      appsLoaded := true;
      if text == "" {
        var suggestions := LauncherApps.RunningSuggestions(running, history, "");
        LauncherApps.RunningSuggestionsUnfiltered(running, history);
        assert |suggestions| == |multiset(suggestions)| == |multiset(running)| == |running|;
        UpdateList(suggestions);
      }
    }
  }
}
