# mylauncher / mycli core model

This project models the logic at the heart of two small macOS launchers.
`mylauncher` is a menu-bar app: a global hotkey opens a search popup for apps and
shell commands. `mycli` is its command-line sibling. Both keep a most-recently-used
history and rank app suggestions. The model takes the operating-system inputs as
plain values: the scanned `.app` bundles, the running apps, the keyboard layout,
the configuration text, the cursor position and the key events. The modules are:

- `Text` (`text.dfy`): the Python string built-ins the code relies on.
  - `strip` with Python's whitespace set, and ASCII `lower`.
  - Substring `in`, `split`/`join` on one character, and prefix slices with negative bounds.
  - Code-point string order.
  - The `_truncate` / `truncate_text` display truncation.
- `History` (`history.dfy`): the bounded move-to-front lists.
  - `CommandHistory` (`mycli/history.py`).
  - `AppHistory`, identical in `mylauncher/apps.py` and `mycli/apps.py`.
  - Both are classes over a `seq<string>`, specified by `MoveToFront`, `Recency` and `Loaded`.
- `AppModel` (`app_model.dfy`): the shared app-list machinery.
  - App records, filtering, and a stable insertion sort standing for Python's `sorted`/`list.sort` on `(rank, lower-cased name)` keys.
  - The first-occurrence-wins deduplication of installed apps, and the method that performs it with a loop and a `seen_names` set.
- `LauncherApps` (`launcher_apps.dfy`): `get_installed_apps`, `get_running_app_suggestions` and `get_all_app_suggestions` of `mylauncher/apps.py`.
- `CliApps` (`cli_apps.dfy`): `get_installed_apps` and `get_app_suggestions` of `mycli/apps.py`.
- `UserConfig` (`user_config.dfy`): `get` and the line-by-line rewriter `set` of `mylauncher/user_config.py`. The file text is an input and the new text an output.
- `Hotkey` (`hotkey.dfy`): `_parse_modifiers` over 64-bit Quartz flag words, the key-name resolution, the event-tap callback's match, and the running guard of `HotkeyManager`.
- `LineEditing` (`line_editing.dfy`): the delete-word scan shared by both search fields.
- `LauncherPopup` / `CliPopup` (`launcher_popup.dfy`, `cli_popup.dfy`): the popup state as classes.
  - Search text, cursor, rows, row labels (and colours for `mycli`), the selection index, and the chosen app or command.
  - The event handlers as methods.
- `Notifier` (`notifier.dfy`): the notification text of `mycli/notifier.py`.

Missing values (`None` bundle identifiers) are the empty string, which the history
treats exactly as Python treats `None`: `not bundle_id` holds for both.

## Model

| member | source | states |
|---|---|---|
| Text.Strip | mycli/history.py:38 | `str.strip()`: never longer than its input, empty exactly for a whitespace-only string, otherwise starts and ends with a non-space |
| Text.StripIdempotent | mylauncher/popup.py:153-155 | stripping twice is stripping once |
| Text.StripChars | mycli/notifier.py:38-39 | stripping adds no character |
| Text.StripIsSlice | mylauncher/user_config.py:91 | what `strip` keeps is one contiguous slice of the input, with only whitespace cut off before and after it |
| Text.StripDropLastSpace | mylauncher/popup.py:153 | trailing whitespace does not change the stripped text |
| Text.StripAfterMark | mylauncher/popup.py:153-155 | stripping a text that starts with a non-space mark keeps the mark first, and the rest strips to what the text after the mark strips to |
| Text.Lower | mylauncher/apps.py:154 | ASCII `str.lower()`: same length, each character lower-cased |
| Text.LowerIdempotent | mylauncher/apps.py:187-190 | lower-casing twice is lower-casing once |
| Text.ContainsAt | mylauncher/apps.py:190 | the substring test holds exactly when the needle starts at some position of the haystack |
| Text.ContainsEmpty | mylauncher/apps.py:227-231 | the empty filter is contained in every name, so an empty filter removes nothing |
| Text.Truncate | mycli/notifier.py:14-18 | a text within the bound is unchanged; a longer one has exactly the bound's length, ends in `...` and keeps the first bound-3 characters |
| Text.TruncateIdempotent | mycli/notifier.py:14-18 | truncating a truncated text changes nothing |
| Text.JoinSplit | mylauncher/user_config.py:74-114 | joining the split lines gives back the text |
| Text.SplitJoin | mylauncher/user_config.py:74-114 | splitting joined separator-free lines gives back the lines |
| Text.SplitConcat | mylauncher/hotkey.py:49 | splitting `a + sep + b` is splitting `a` then `b` |
| Text.StrLeTotal | mylauncher/apps.py:171 | the code-point string order used as sort key is total |
| Text.StrLeTrans | mylauncher/apps.py:171 | that order is transitive |
| Text.StrLeAntisym | mylauncher/apps.py:171 | that order is antisymmetric |
| History.IndexOf | mylauncher/apps.py:60 | `list.index`: the first position holding the entry |
| History.RemoveFirstMultiset | mycli/history.py:42-43 | `remove` takes away one occurrence of the entry and nothing else |
| History.MoveToFront | mycli/history.py:42-49 | after `add`, the entry is first, followed by the other entries in their old order, cut to the capacity |
| History.Recency | mylauncher/apps.py:55-62 | the first position of a non-empty present id, else 999 |
| History.Loaded | mycli/history.py:18-25 | a missing file keeps the list, a failing read empties it, a parsed list is cut to the capacity |
| History.RemoveFirstNoDup | mycli/history.py:42-43 | removing from a duplicate-free list keeps it duplicate-free and without the entry |
| History.MoveToFrontNoDup | mycli/history.py:42-49 | `add` keeps the list duplicate-free |
| History.MoveToFrontOnce | mycli/history.py:42-46 | after `add(c)`, `c` occurs exactly once |
| History.MoveToFrontIdempotent | mycli/history.py:42-49 | `add(c); add(c)` equals one `add(c)` for a non-negative capacity |
| History.RecencyAfterMove | mylauncher/apps.py:39-62 | after `add(x)` the recency of `x` is 0 |
| History.CommandHistory.constructor | mycli/history.py:13-25 | the list is what `_load` yields from an empty start, within capacity |
| History.CommandHistory.Load | mycli/history.py:18-25 | the list becomes `Loaded(old list, stored)` and stays within capacity |
| History.CommandHistory.Add | mycli/history.py:36-50 | a blank command changes nothing; any other moves to the front; capacity kept |
| History.CommandHistory.GetRecent | mycli/history.py:52-54 | the first `min(limit, len)` items (Python's slice for a negative limit) |
| History.CommandHistory.GetAll | mycli/history.py:56-58 | all items, newest first |
| History.AppHistory.constructor | mylauncher/apps.py:16-28 | the list is what `_load` yields from an empty start, within capacity |
| History.AppHistory.Load | mylauncher/apps.py:21-28 | as for the command history |
| History.AppHistory.Add | mylauncher/apps.py:39-53 | only the empty id is ignored; any other moves to the front; capacity kept |
| History.AppHistory.GetRecency | mylauncher/apps.py:55-62 | the recency of the id |
| History.AppHistory.GetAll | mylauncher/apps.py:64-66 | all items, newest first |
| AppModel.Filter | mycli/apps.py:190-193 | a comprehension keeps exactly the elements that pass, each as often as before |
| AppModel.FilterConcat | mycli/apps.py:190-193 | a comprehension keeps order: filtering a concatenation is concatenating the filtered parts |
| AppModel.KeyLeTotal | mylauncher/apps.py:195-198 | the `(rank, name)` key order is total |
| AppModel.KeyLeTrans | mylauncher/apps.py:195-198 | the `(rank, name)` key order is transitive |
| AppModel.Insert | mylauncher/apps.py:195-198 | inserting into a sorted list keeps it sorted and adds exactly the element |
| AppModel.SortByKey | mylauncher/apps.py:195-198 | `sorted`: sorted by the key and a permutation of the input |
| AppModel.InsertStable | mylauncher/apps.py:195-198 | an inserted element goes ahead of all elements with its key, whose order is kept |
| AppModel.SortByKeyStable | mylauncher/apps.py:195-198 | `sorted` is stable: the elements sharing any one key keep their input order |
| AppModel.FilterSorted | mylauncher/apps.py:217-231 | filtering a sorted list keeps it sorted |
| AppModel.PermutationNames | mylauncher/apps.py:171 | reordering keeps the set of names |
| AppModel.InsertDistinct | mylauncher/apps.py:171 | inserting an app with a new name keeps the names distinct |
| AppModel.SortDistinct | mylauncher/apps.py:171 | sorting keeps the names distinct |
| AppModel.FilterByName | mylauncher/apps.py:187-190 | exactly the apps whose lower-cased name contains the filter, each as often as before |
| AppModel.FilterByNameMember | mylauncher/apps.py:187-190 | membership after filtering: present before and name contains the filter |
| AppModel.FilterByNameConcat | mylauncher/apps.py:187-190 | the name filter keeps order: filtering a concatenation is concatenating the filtered parts |
| AppModel.FirstPos | mylauncher/apps.py:157-159 | the first scanned position of a lower-cased name |
| AppModel.DedupSnoc | mylauncher/apps.py:152-168 | one more scanned bundle is kept exactly when its lower-cased name was not seen |
| AppModel.DedupNames | mylauncher/apps.py:157-159 | deduplication keeps every name |
| AppModel.DedupKeepsFirst | mylauncher/apps.py:156-159 | each kept bundle is the first scanned one with its name |
| AppModel.DedupInScanOrder | mycli/apps.py:135-156 | kept bundles are in the order of their names' first occurrence |
| AppModel.DedupNoDupNames | mycli/apps.py:143-146 | no two kept bundles share a lower-cased name |
| AppModel.ScanInstalled | mylauncher/apps.py:137-168 | the scan loop with `seen_names` yields exactly the first-occurrence deduplication |
| LauncherApps.InstalledApps | mylauncher/apps.py:122-173 | sorted by lower-cased name, names distinct, every scanned name present, each kept bundle the first with its name |
| LauncherApps.EnumerateMap | mylauncher/apps.py:193 | the `enumerate` dict maps exactly the history ids to a position holding them |
| LauncherApps.EnumerateMapLast | mylauncher/apps.py:193 | that position is the last occurrence |
| LauncherApps.RecencyMapGet | mylauncher/apps.py:197 | `recency_map.get(id, 999)` |
| LauncherApps.RecencyMapAgrees | mylauncher/apps.py:193 | on a duplicate-free history the dict rank equals `get_recency` |
| LauncherApps.RecencyMapDiffersOnRepeats | mylauncher/apps.py:193 | with a repeated id the two ranks differ (last vs first index) |
| LauncherApps.RunningSuggestions | mylauncher/apps.py:176-198 | running apps only, exactly those whose name contains the filter, each as often as before, sorted by (dict rank, lower-cased name), and stable: apps with equal keys keep their filtered order |
| LauncherApps.RunningSuggestionsUnfiltered | mylauncher/apps.py:187-190 | an empty filter keeps all running apps |
| LauncherApps.InstalledNotRunning | mylauncher/apps.py:214-231 | exactly the installed apps matching the filter whose name no running app has, each as often as it is installed |
| LauncherApps.RunningRanked | mylauncher/apps.py:222-236 | the filtered running apps sorted by (`get_recency`, lower-cased name) |
| LauncherApps.AllSuggestions | mylauncher/apps.py:201-238 | running apps first and sorted, then installed apps not sharing a running name; everything matches the filter |
| LauncherApps.AllSuggestionsInstalledSorted | mylauncher/apps.py:226-238 | the installed part stays in alphabetical order |
| LauncherApps.AllSuggestionsCounts | mylauncher/apps.py:214-238 | each app occurs as often as it matches and runs plus as often as it is installed, matches and has no running namesake |
| LauncherApps.AllSuggestionsContents | mylauncher/apps.py:214-238 | an app is suggested exactly when it matches and is running, or is installed without a running namesake |
| LauncherApps.AllSuggestionsSplit | mylauncher/apps.py:238 | the result is the ranked running part followed by the installed part |
| CliApps.InstalledApps | mycli/apps.py:119-156 | names distinct, every name kept, first occurrence wins, scan order kept (no sort) |
| CliApps.Merged | mycli/apps.py:176-193 | the merged, filtered list holds each matching running app as often as it runs plus each matching installed app without a running namesake as often as it is installed |
| CliApps.MergedRunningFirst | mycli/apps.py:184-193 | the merged list starts with the matching running apps in their reported order |
| CliApps.AppSuggestions | mycli/apps.py:159-205 | a permutation of the merged list: running apps first, sorted by (recency, name), then the rest sorted by name |
| CliApps.AppSuggestionsStable | mycli/apps.py:196-203 | both sorts are stable: within each part, apps with equal keys keep their order in the merged list |
| CliApps.PartitionShape | mycli/apps.py:196-205 | the two sorted parts together are a permutation of the list, running apps then others |
| UserConfig.Get | mylauncher/user_config.py:59-62 | a present key's value; the default when the section or key is missing; an error for a non-table section |
| UserConfig.GetDefault | mylauncher/user_config.py:62 | a missing section or key gives the default |
| UserConfig.NatToStringValue | mylauncher/user_config.py:82 | `str(n)` reads back as `n` |
| UserConfig.IntToString | mylauncher/user_config.py:82 | `str(i)`: an optional `-` and digits that read back as the value, with no leading zero |
| UserConfig.FormatValue | mylauncher/user_config.py:77-84 | bool before int as `true`/`false`, strings and other values quoted, numbers via `str` (digits that read back as the value, no leading zero) |
| UserConfig.KeyLineMatchesIff | mylauncher/user_config.py:99 | the key test is the key followed by a space or `=`, so `keyx` never matches `key` |
| UserConfig.LastHeaderBefore | mylauncher/user_config.py:93-96 | the last header line before a position |
| UserConfig.InSectionAtIff | mylauncher/user_config.py:87-96 | `in_section` at a line is whether the last header before it is `[section]` |
| UserConfig.FirstCandidate | mylauncher/user_config.py:90-111 | the first line in the section that matches the key and holds `=` |
| UserConfig.KeyPart | mylauncher/user_config.py:102 | the text before the first `=` holds no `=` |
| UserConfig.RawComment | mylauncher/user_config.py:104-106 | a comment exists exactly when the text after the first `=` holds `#` |
| UserConfig.CommentOf | mylauncher/user_config.py:106-107 | the kept comment is the raw comment stripped |
| UserConfig.Render | mylauncher/user_config.py:107-109 | the line starts with the key part followed by `=` |
| UserConfig.RenderKey | mylauncher/user_config.py:102-109 | reading a rendered line back gives the key part and ` value` after `=` |
| UserConfig.RenderComment | mylauncher/user_config.py:104-109 | reading a rendered line back gives the comment (behind one space) when the value holds no `#` |
| UserConfig.RewriteLine | mylauncher/user_config.py:101-109 | the rewritten line keeps an `=` |
| UserConfig.RewriteKeepsKey | mylauncher/user_config.py:101-109 | the rewritten line has the same key part and the new value after `= ` |
| UserConfig.RewriteKeepsComment | mylauncher/user_config.py:104-107 | the rewritten line keeps the comment |
| UserConfig.RewriteNoNewline | mylauncher/user_config.py:107-109 | a rewritten line holds no line break if the line and value held none |
| UserConfig.Rewritten | mylauncher/user_config.py:113-119 | nothing is written exactly when no candidate line exists |
| UserConfig.Set | mylauncher/user_config.py:65-123 | the loop with `in_section` writes exactly `Rewritten` and returns whether it wrote |
| UserConfig.RewrittenAt | mylauncher/user_config.py:101-114 | the written text is the lines with the candidate replaced, rejoined |
| UserConfig.HeaderStep | mylauncher/user_config.py:94-96 | a header line sets `in_section` to whether it is `[section]` and is never rewritten |
| UserConfig.OtherStep | mylauncher/user_config.py:99-101 | any other line keeps `in_section` and is a candidate exactly when in section, key-matching and holding `=` |
| UserConfig.RewrittenLines | mylauncher/user_config.py:74-114 | same line count, the candidate rewritten, every other line unchanged |
| Hotkey.ModifierMask | mylauncher/hotkey.py:51-61 | each modifier bit is set exactly when its name is present, no other bit is set, and 0 means no recognised name |
| Hotkey.ParseModifiers | mylauncher/hotkey.py:47-61 | the `flag \|=` sequence yields the mask of the trimmed, lower-cased names |
| Hotkey.TokensConcat | mylauncher/hotkey.py:49 | the names of `a+b` are those of `a` and of `b` |
| Hotkey.ModifierOrderIrrelevant | mylauncher/hotkey.py:49-61 | `a+b` and `b+a` give the same mask |
| Hotkey.ModifierDuplicatesIrrelevant | mylauncher/hotkey.py:49-61 | `a+a` gives the mask of `a` |
| Hotkey.TokensSingle | mylauncher/hotkey.py:49 | a part without `+` gives one name |
| Hotkey.MaskIgnoresUnknown | mylauncher/hotkey.py:52-59 | an unknown name adds no bit |
| Hotkey.UnknownModifierIgnored | mylauncher/hotkey.py:49-61 | appending an unknown part leaves the mask unchanged |
| Hotkey.CharToVk | mylauncher/hotkey.py:173 | the inverted map holds every layout character, each mapped to one of its codes |
| Hotkey.CharToVkLast | mylauncher/hotkey.py:173 | a character maps to the code of its last layout entry |
| Hotkey.ResolveKey | mylauncher/hotkey.py:164-180 | a special key's table code, else a layout code for the character, else 2 when the layout lacks it |
| Hotkey.SpecialKeyIgnoresLayout | mylauncher/hotkey.py:167-168 | a special key never depends on the layout |
| Hotkey.ResolveLastEntry | mylauncher/hotkey.py:172-176 | a layout character resolves to its last entry's code |
| Hotkey.RequiredModifierHeld | mylauncher/hotkey.py:211 | a match needs every required modifier bit held |
| Hotkey.ExtraModifiersAllowed | mylauncher/hotkey.py:211 | extra held modifiers never prevent a match |
| Hotkey.HotkeyManager.constructor | mylauncher/hotkey.py:153-180 | the mask and key code are the parsed ones and nothing runs |
| Hotkey.HotkeyManager.Start | mylauncher/hotkey.py:182-189 | afterwards it runs; a second start changes nothing |
| Hotkey.HotkeyManager.Stop | mylauncher/hotkey.py:191-193 | afterwards it does not run |
| Hotkey.HotkeyManager.Callback | mylauncher/hotkey.py:203-219 | fires exactly for a key-down with the hotkey's code and the required modifiers; a fired event is consumed, every other passes unchanged |
| LineEditing.WordStartUnique | mylauncher/popup.py:264-268 | the word-start description fixes one position |
| LineEditing.WordStart | mylauncher/popup.py:264-268 | the two loops stop at the start of the word before the spaces before the cursor |
| LineEditing.DeleteRange | mylauncher/popup.py:269 | `entry.delete(pos, cursor)` keeps the text before `pos` and from `cursor` on |
| LineEditing.DeleteWord | mycli/popup.py:230-240 | the new cursor is the word start and the text loses exactly `[pos, cursor)` |
| LauncherPopup.DisplayName | mylauncher/popup.py:193-198 | the name, with `  (not running)` for installed apps, truncated to the display length |
| LauncherPopup.InstalledLabelMarked | mylauncher/popup.py:195-196 | an installed app's label ends with the marker when it fits |
| LauncherPopup.RunIndicator | mylauncher/popup.py:171-176 | the placeholder for an empty command, otherwise `⏎ Run: ` and the stripped command truncated to the display length (whole when it fits, cut with `...` otherwise) |
| LauncherPopup.CommandOf | mylauncher/popup.py:153-155 | the command is stripped and never longer than the text; it is the stripped text, or, when that starts with `>`, what follows the `>` stripped again |
| LauncherPopup.CommandOfPrefixed | mylauncher/popup.py:154-155 | `>` before any text runs that text stripped |
| LauncherPopup.CommandOfDoublePrefix | mylauncher/popup.py:154-155 | only one `>` is removed: `>>ls` runs `>ls` |
| LauncherPopup.Suggestions | mylauncher/popup.py:224-233 | `>` or apps not loaded give nothing; `@` gives all apps for the rest; otherwise running apps |
| LauncherPopup.SuggestionsMatch | mylauncher/popup.py:224-233 | outside `@` mode only running apps appear; every suggestion matches the text |
| LauncherPopup.Popup.constructor | mylauncher/popup.py:72-78 | empty search, no rows, index 1, apps not loaded, no result |
| LauncherPopup.Popup.Select | mylauncher/popup.py:147-150 | an index on a row chooses it and closes; any other does nothing |
| LauncherPopup.Popup.RunCommand | mylauncher/popup.py:152-158 | a non-empty command is the result and closes; otherwise nothing |
| LauncherPopup.Popup.UpdateList | mylauncher/popup.py:160-214 | an index past the end is clamped to `max(0, len-1)`; rows are the run indicator in command mode or one label per item |
| LauncherPopup.Popup.OnSearch | mylauncher/popup.py:235-237 | the index is 0, the items are the suggestions for the text and the rows are their labels, or the run indicator alone in command mode with no items |
| LauncherPopup.Popup.OnEnter | mylauncher/popup.py:239-243 | the selected row when the index is on one, else the command |
| LauncherPopup.Popup.OnUp | mylauncher/popup.py:245-249 | decrements only above 0; keeps the index in bounds |
| LauncherPopup.Popup.OnDown | mylauncher/popup.py:251-255 | increments only below the last row; keeps the index in bounds |
| LauncherPopup.Popup.OnClear | mylauncher/popup.py:257-259 | the search text is emptied |
| LauncherPopup.Popup.OnDeleteWord | mylauncher/popup.py:261-270 | the word before the cursor is deleted and the cursor moves to its start |
| LauncherPopup.Popup.LoadApps | mylauncher/popup.py:319-331 | apps are loaded; an empty search shows all running apps, one label per app, and keeps the index (1 at start, for quick switching) unless it is past the end, where it is clamped to `max(0, len-1)`; a typed search is left alone |
| CliPopup.TruncateText | mycli/popup.py:27-31 | within 60 unchanged; longer gives exactly `max_len` characters ending in `...` |
| CliPopup.TruncateTextIsTruncate | mycli/popup.py:27-31 | the popup's truncation equals the notifier's for every length |
| CliPopup.RowColour | mycli/popup.py:163-168 | the selection colour exactly on the selected row, else the running or installed colour |
| CliPopup.Label | mycli/popup.py:170-177 | the name, with `  (running)` for running apps, truncated to 60 |
| CliPopup.HighlightedOnce | mycli/popup.py:129-138 | exactly the selected row has the selection colour |
| CliPopup.Popup.constructor | mycli/popup.py:62-67 | empty search, no rows, index 0, no result |
| CliPopup.Popup.SelectItem | mycli/popup.py:142-145 | an index on a row chooses it and quits; any other does nothing |
| CliPopup.Popup.RunAsCommand | mycli/popup.py:147-152 | the stripped text, when non-empty, is the command; no `>` handling |
| CliPopup.Popup.UpdateItemsList | mycli/popup.py:154-188 | rows are the items, each labelled and coloured for the selection |
| CliPopup.Popup.UpdateSelectionHighlight | mycli/popup.py:129-138 | every row is recoloured for the selection |
| CliPopup.Popup.OnSearchChanged | mycli/popup.py:192-196 | the index is 0, the items are the suggestions for the text and each row carries its item's label |
| CliPopup.Popup.LoadInitialItems | mycli/popup.py:292-294 | the items are the unfiltered suggestions and each row carries its item's label |
| CliPopup.Popup.OnEnter | mycli/popup.py:198-203 | the selected row when the index is on one, else the text as a command |
| CliPopup.Popup.OnArrowUp | mycli/popup.py:208-212 | decrements only above 0 and recolours; keeps the index in bounds |
| CliPopup.Popup.OnArrowDown | mycli/popup.py:214-218 | increments only below the last row and recolours; keeps the index in bounds |
| CliPopup.Popup.OnClearAll | mycli/popup.py:226-228 | the search text is emptied |
| CliPopup.Popup.OnDeleteWord | mycli/popup.py:230-240 | the word before the cursor is deleted and the cursor moves to its start |
| Notifier.Message | mycli/notifier.py:37-39 | `$ ` and the command cut to 50, plus a line with the stripped detail cut to 200 exactly when the detail is not blank; at most 253 characters |
| Notifier.NotifySuccess | mycli/notifier.py:34-40 | title "Command Succeeded" and the message for the output |
| Notifier.NotifyFailure | mycli/notifier.py:43-49 | title "Command Failed" and the message for the error |
| Notifier.TitlesDiffer | mycli/notifier.py:34-49 | success and failure differ only in the title |
| Notifier.TruncateNoNewline | mycli/notifier.py:14-18 | truncation adds no line break |
| Notifier.MessageLines | mycli/notifier.py:37-39 | read line by line, the message gives back the shown command and, exactly for a non-blank detail, the shown detail |

## Left out

- File I/O: the JSON history files, `_save`, and the TOML file reads and writes. The model takes the outcome of a read as a value (`History.Stored`, the configuration text) and returns the text to write.
- `tomllib` parsing: `UserConfig.Get` works on an already parsed table map.
- AppKit, Quartz and Carbon calls: `get_running_apps`, `focus_app`, `launch_app`, `_build_vk_to_char_map`, event-tap creation, run loops and threads. The running apps, the scanned bundles and the keyboard layout are parameters.
- The directory scan (`glob`, `exists`) and the module-level installed-app cache.
- `mycli/executor.py`, both `app.py` files, and the popup worker process: process spawning, menus and orchestration.
- Tk and CustomTkinter widgets: button creation, scrolling, focus restoration, mouse-wheel handling, the launcher's row palette and its `update_highlight` recolouring. A launcher row is its label only; a `mycli` row is its label and an abstract colour.
- The Tk variable trace: callers invoke `OnSearch` / `OnSearchChanged` after a text edit.
- Other entry bindings (kill line, kill forward, and the like) beyond clear-all and delete-word.
- `_run_async` and `DesktopNotifier.send`.
- Text.Lower: only ASCII letters are lower-cased; Python's Unicode case mapping is not modelled.
- UserConfig.FormatValue: `str()` of a float is taken as given text, since floating point is not modelled.
- Hotkey.HotkeyManager.Callback: running the `on_hotkey` callback on the main thread is reported as the `fired` result, not performed.
- The Quartz flag word of a live event is an arbitrary 64-bit input; only the four modifier masks, at their real single-bit values, are named.
- App records keep the name and the bundle identifier or path only; the OS application handle `focus_app` uses is dropped, so two instances of one app with equal name and bundle identifier are equal values here.
- History.Loaded: a history file is assumed well formed, its `commands` or `apps` entry a list of strings; a JSON string there (whose slice is again a string) or a list holding other values is not modelled.
- The two copies of `AppHistory` are one class (`History.AppHistory`), because `mylauncher/apps.py:13-66` and `mycli/apps.py:13-66` are identical.
