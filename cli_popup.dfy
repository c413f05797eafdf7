/**
 * The command-line launcher's search popup (`mycli/popup.py`): the display
 * truncation, the row labels and colours, the selection index and its bounds,
 * Enter, running the text as a command, and word deletion. Widgets, scrolling
 * and focus handling are not modelled; a row is represented by its label and its
 * colour.
 */
module CliPopup {
  import opened Text
  import opened Optional
  import opened AppModel
  import CliApps
  import LineEditing

  /** `truncate_text`'s default length. */
  const DisplayLen: int := 60

  /** The label suffix of a running app. */
  const RunningSuffix: string := "  (running)"

  /** `truncate_text(text, max_len)`: a text over `max_len` keeps its first `max_len - 3` characters and gains `...`. */
  function TruncateText(text: string, maxLen: int): (r: string)
    ensures |text| <= maxLen ==> r == text
    ensures |text| > maxLen >= 3 ==> |r| == maxLen && EndsWith(r, "...") && r[..maxLen - 3] == text[..maxLen - 3]
  {
    if |text| > maxLen then Take(text, maxLen - 3) + "..." else text
  }

  /** The popup's truncation agrees with the notifier's and the launcher's for every length. */
  lemma TruncateTextIsTruncate(text: string, maxLen: int)
    ensures TruncateText(text, maxLen) == Truncate(text, maxLen)
  {
  }

  /** The three row colours; their values are not part of this model. */
  datatype Colour = SelectedColour | RunningColour | InstalledColour

  /** The colour of row `i`: the selection colour on the selected row, else by whether the app runs. */
  function RowColour(i: int, selectedIdx: int, app: App): (c: Colour)
    ensures c == SelectedColour <==> i == selectedIdx
    ensures c == RunningColour <==> i != selectedIdx && app.RunningApp?
    ensures c == InstalledColour <==> i != selectedIdx && app.InstalledApp?
  {
    if i == selectedIdx then SelectedColour
    else if app.RunningApp? then RunningColour
    else InstalledColour
  }

  /** The label of a row: the name, with `  (running)` for a running app, truncated to 60. */
  function Label(app: App): (r: string)
    ensures var full := if app.RunningApp? then app.name + RunningSuffix else app.name;
      (|full| <= DisplayLen ==> r == full) &&
      (|full| > DisplayLen ==> |r| == DisplayLen && EndsWith(r, "...") && r[..DisplayLen - 3] == full[..DisplayLen - 3])
  {
    var displayName := if app.RunningApp? then app.name + RunningSuffix else app.name;
    TruncateText(displayName, DisplayLen)
  }

  /** The colours of all rows for a selection index. */
  predicate Highlighted(colours: seq<Colour>, items: seq<App>, selectedIdx: int) {
    |colours| == |items| && forall k :: 0 <= k < |items| ==> colours[k] == RowColour(k, selectedIdx, items[k])
  }

  /** With the index on a row, exactly that row has the selection colour; otherwise none has. */
  lemma HighlightedOnce(colours: seq<Colour>, items: seq<App>, selectedIdx: int)
    requires Highlighted(colours, items, selectedIdx)
    ensures 0 <= selectedIdx < |items| ==> colours[selectedIdx] == SelectedColour
    ensures forall k :: 0 <= k < |colours| && k != selectedIdx ==> colours[k] != SelectedColour
  {
  }

  /** The popup's state: the search field, the rows, the selection and the outcome. */
  class Popup {
    var text: string
    var cursor: nat
    var selectedIdx: int
    var items: seq<App>
    var labels: seq<string>
    var colours: seq<Colour>
    var selectedApp: Option<App>
    var commandToRun: Option<string>
    var quit: bool

    /**
     * The cursor is inside the text, the index is not negative, and every row
     * carries its item's label and the colour for the selection.
     */
    ghost predicate Valid()
      reads this
    {
      cursor <= |text| && 0 <= selectedIdx && |labels| == |items| &&
      (forall k :: 0 <= k < |items| ==> labels[k] == Label(items[k])) &&
      Highlighted(colours, items, selectedIdx)
    }

    /** The selection is on a row, or on row 0 when there are none. */
    ghost predicate Bounded()
      reads this
    {
      selectedIdx <= if |items| == 0 then 0 else |items| - 1
    }

    /** The popup opens with an empty search, no rows and index 0. */
    constructor ()
      ensures Valid() && Bounded()
      ensures text == "" && cursor == 0 && selectedIdx == 0 && items == []
      ensures selectedApp == None && commandToRun == None && !quit
    {
      text := "";
      cursor := 0;
      selectedIdx := 0;
      items := [];
      labels := [];
      colours := [];
      selectedApp := None;
      commandToRun := None;
      quit := false;
    }

    /** `select_item(index)`: an index on an item chooses it and ends the popup; any other does nothing. */
    method SelectItem(index: int)
      modifies this`selectedApp, this`quit
      ensures 0 <= index < |items| ==> selectedApp == Some(items[index]) && quit
      ensures !(0 <= index < |items|) ==> selectedApp == old(selectedApp) && quit == old(quit)
    {
      if 0 <= index < |items| {
        selectedApp := Some(items[index]);
        quit := true;
      }
    }

    /** `run_as_command`: the stripped text, when not empty, is the command (no `>` handling here). */
    method RunAsCommand()
      modifies this`commandToRun, this`quit
      ensures Strip(text) != "" ==> commandToRun == Some(Strip(text)) && quit
      ensures Strip(text) == "" ==> commandToRun == old(commandToRun) && quit == old(quit)
    {
      var cmd := Strip(text);
      if cmd != "" {
        commandToRun := Some(cmd);
        quit := true;
      }
    }

    /**
     * `update_items_list(items)`: the rows become the new items, each labelled and
     * coloured for the current selection. The index is not clamped.
     */
    method UpdateItemsList(newItems: seq<App>)
      requires cursor <= |text| && 0 <= selectedIdx
      modifies this`items, this`labels, this`colours
      ensures Valid()
      ensures items == newItems
      ensures forall k :: 0 <= k < |newItems| ==> labels[k] == Label(newItems[k])
    {
      items := newItems;
      var rowLabels: seq<string> := [];
      var rowColours: seq<Colour> := [];
      var i := 0;
      while i < |newItems|
        invariant 0 <= i <= |newItems|
        invariant |rowLabels| == i && |rowColours| == i
        invariant forall k :: 0 <= k < i ==> rowLabels[k] == Label(newItems[k])
        invariant forall k :: 0 <= k < i ==> rowColours[k] == RowColour(k, selectedIdx, newItems[k])
      {
        rowColours := rowColours + [RowColour(i, selectedIdx, newItems[i])];
        rowLabels := rowLabels + [Label(newItems[i])];
        i := i + 1;
      }
      labels := rowLabels;
      colours := rowColours;
    }

    /** `update_selection_highlight`: every row is recoloured for the current selection. */
    method UpdateSelectionHighlight()
      requires |colours| == |items|
      modifies this`colours
      ensures Highlighted(colours, items, selectedIdx)
    {
      var rowColours := colours;
      var i := 0;
      while i < |items|
        invariant 0 <= i <= |items| && |rowColours| == |items|
        invariant forall k :: 0 <= k < i ==> rowColours[k] == RowColour(k, selectedIdx, items[k])
      {
        rowColours := rowColours[i := RowColour(i, selectedIdx, items[i])];
        i := i + 1;
      }
      colours := rowColours;
    }

    /** `on_search_changed`: the suggestions for the text, with the selection back on the first row. */
    method OnSearchChanged(running: seq<Running>, installed: seq<Installed>, history: seq<string>)
      requires Valid()
      modifies this`items, this`labels, this`colours, this`selectedIdx
      ensures Valid() && Bounded()
      ensures selectedIdx == 0
      ensures items == CliApps.AppSuggestions(running, installed, history, text)
      ensures |labels| == |items| && forall k :: 0 <= k < |items| ==> labels[k] == Label(items[k])
    {
      var newItems := CliApps.AppSuggestions(running, installed, history, text);
      selectedIdx := 0;
      UpdateItemsList(newItems);
    }

    /** `load_initial_items`: the unfiltered suggestions; the selection is left where it is. */
    method LoadInitialItems(running: seq<Running>, installed: seq<Installed>, history: seq<string>)
      requires Valid()
      modifies this`items, this`labels, this`colours
      ensures Valid()
      ensures items == CliApps.AppSuggestions(running, installed, history, "")
      ensures |labels| == |items| && forall k :: 0 <= k < |items| ==> labels[k] == Label(items[k])
      ensures selectedIdx == 0 ==> Bounded()
    {
      UpdateItemsList(CliApps.AppSuggestions(running, installed, history, ""));
    }

    /** `on_enter`: choose the selected item if there is one, else run the text as a command. */
    method OnEnter()
      requires Valid()
      modifies this`selectedApp, this`commandToRun, this`quit
      ensures selectedIdx < |items| ==>
        selectedApp == Some(items[selectedIdx]) && quit && commandToRun == old(commandToRun)
      ensures selectedIdx >= |items| && Strip(text) != "" ==>
        commandToRun == Some(Strip(text)) && quit && selectedApp == old(selectedApp)
      ensures selectedIdx >= |items| && Strip(text) == "" ==>
        commandToRun == old(commandToRun) && quit == old(quit) && selectedApp == old(selectedApp)
    {
      if |items| > 0 && selectedIdx < |items| {
        SelectItem(selectedIdx);
      } else {
        RunAsCommand();
      }
    }

    /** `on_arrow_up`: one row up, never above the first; the rows are recoloured after a move. */
    method OnArrowUp()
      requires Valid()
      modifies this`selectedIdx, this`colours
      ensures Valid()
      ensures old(selectedIdx) > 0 ==> selectedIdx == old(selectedIdx) - 1
      ensures old(selectedIdx) == 0 ==> selectedIdx == 0
      ensures old(Bounded()) ==> Bounded()
    {
      if selectedIdx > 0 {
        selectedIdx := selectedIdx - 1;
        UpdateSelectionHighlight();
      }
    }

    /** `on_arrow_down`: one row down, never past the last; the rows are recoloured after a move. */
    method OnArrowDown()
      requires Valid()
      modifies this`selectedIdx, this`colours
      ensures Valid()
      ensures old(selectedIdx) < |items| - 1 ==> selectedIdx == old(selectedIdx) + 1
      ensures old(selectedIdx) >= |items| - 1 ==> selectedIdx == old(selectedIdx)
      ensures old(Bounded()) ==> Bounded()
    {
      if selectedIdx < |items| - 1 {
        selectedIdx := selectedIdx + 1;
        UpdateSelectionHighlight();
      }
    }

    /** `on_clear_all`: the search text is emptied. */
    method OnClearAll()
      requires Valid()
      modifies this`text, this`cursor
      ensures Valid()
      ensures text == "" && cursor == 0
    {
      text := "";
      cursor := 0;
    }

    /** `on_delete_word`: the word before the cursor and the spaces after it go. */
    method OnDeleteWord()
      requires Valid()
      modifies this`text, this`cursor
      ensures Valid()
      ensures LineEditing.IsWordStart(old(text), old(cursor), cursor)
      ensures text == LineEditing.DeleteRange(old(text), cursor, old(cursor))
    {
      var newText, newCursor := LineEditing.DeleteWord(text, cursor);
      text, cursor := newText, newCursor;
    }
  }
}
