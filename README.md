# ObvOS desktop: terminal and window manager

This project models the two interactive cores of the ObvOS portfolio desktop
(`script.js`) and proves properties of them.

- **The terminal window.** It has an input line with a caret, a command
  history browsed with the arrow keys, and Tab completion that cycles through
  candidates. Submitted commands are interpreted, and their results are
  printed as output lines.
- **The window manager.** A fixed set of windows is shown, focused, raised,
  minimized, maximized and dragged. The taskbar tray holds one icon per open
  window, and each icon toggles its window.

The modules follow the script's parts:

| module | what it holds |
|---|---|
| `Wrappers` | `Option` |
| `Text` | The JavaScript string built-ins the script uses: `toLowerCase`, `trim`, `indexOf`, `lastIndexOf`, `split(' ')`, `join(' ')`, `startsWith` filtering, `new Set` de-duplication, and removing a trailing `.txt`. |
| `Catalog` | The command table, the alias table, the readable file, `appIds`, `appAliases` and `resolveAppId`. |
| `Completion` | `computeCompletions` and `applyCompletion`. |
| `Shell` | `processCommand` as a function from a trimmed command line to an `Outcome`. It prints nothing, prints one result line (maybe after opening a window), clears the screen, or closes the terminal. |
| `Windows` | The window-manager state as a `Desk` value. Every handler is a function on it, and the lemmas state what the handlers promise. `Inv` is the invariant every handler keeps. |
| `WindowManager` | Class `WindowManager`. It keeps the windows in an `array<Win>` updated in place, plus the tray and the z-index counter. Every handler is proved to leave exactly the `Desk` its `Windows` function describes, and to keep `Inv`. |
| `Terminal` | The terminal as a `Session` value, and `KeyStep` for one keydown. Class `Terminal` runs the same handler on fields and is proved to end in `KeyStep`'s state. |

When a command asks for a window to open or close, `Terminal.KeyDown` returns
a `Request`, and the module-level method `Terminal.Perform` applies it to the
`WindowManager`. In the script, `processCommand` calls `openWindow` or
`closeWindow` directly between printing the prompt and printing the reply.
The model separates the two steps because the terminal's state and the
window manager's state are disjoint, so their order makes no difference.

Pixel values are `real`, because JavaScript `/` is real division. An inline
style length is `Auto` (the empty string) or `Px(v)`. That way, maximizing
and then restoring gives back an unset style exactly.

## Model

| member | source | states |
|---|---|---|
| Text.Lower | script.js:537 | The lower-cased string has the same length. Each upper-case ASCII letter becomes its lower-case letter (code point plus 32), every other character stays in place, and no upper-case letter is left. |
| Text.LowerIdempotent | script.js:523 | Lower-casing twice gives the same string as lower-casing once. |
| Text.Trim | script.js:507 | The result is the infix of the line between its leading and trailing white space. Everything cut off is white space, and the result neither starts nor ends with white space. |
| Text.IndexOf | script.js:380 | The result is the first position of the character, or -1 exactly when the character is absent. |
| Text.LastIndexOf | script.js:375 | The result is a position holding the character with no occurrence after it, or -1 when there is none. |
| Text.Split | script.js:536 | Splitting on the separator always gives at least one piece, and no piece contains the separator. |
| Text.SplitJoin | script.js:536 | Splitting a join of separator-free pieces gives back exactly those pieces. |
| Text.Dedupe | script.js:362-366 | `new Set` keeps the same elements, without duplicates and no more of them. Their order is fixed by `Text.DedupeFirstOrder`. |
| Text.DedupeFirstOrder | script.js:362-366 | The de-duplicated list keeps the elements in the order of their first occurrence, as a `Set` iterates in insertion order. Together with `Text.Dedupe` this determines the result completely. |
| Text.DedupeOfDistinct | script.js:389 | De-duplicating a sequence that already has no duplicates changes nothing. |
| Text.OrderedUnion | script.js:389 | The union of two lists through a `Set` has no duplicates and holds exactly the names of both. Every name of the first list comes before any name that only the second list has. |
| Text.OrderedUnionOrder | script.js:389 | The union lists its names in the order of their first occurrence in the concatenation. |
| Text.FilterPrefix | script.js:396 | The filtered list holds exactly the pool's names that start with the token, and no duplicates when the pool has none. Its order is the pool's, by `Text.FilterPrefixAppend`. |
| Text.FilterPrefixAppend | script.js:396 | Filtering a concatenation is filtering each part and concatenating the results, so the filter keeps the pool's order. |
| Text.StripTxtSuffix | script.js:562 | The result is a prefix of the input. It differs from the input exactly when the input ends in `.txt` in any letter case, and then it is four characters shorter. |
| Text.Position | script.js:88 | A lookup by id gives the first matching position, or -1 exactly when the id is absent. |
| Text.PositionOfDistinct | script.js:88 | In a list of unique ids, looking up an element's id gives that element's position. |
| Catalog.Flatten | script.js:364 | A name appears in the flattened table exactly when some alias-table row answers to it. The rows' order is kept, by `Catalog.FlattenAppend`, and within a row the id comes before its aliases, by `Catalog.FlattenHead`. |
| Catalog.FlattenAppend | script.js:364 | Flattening two tables one after the other is flattening each and concatenating, so the rows' names stay in row order. With `Catalog.FlattenRow` this fixes the whole flattened sequence. |
| Catalog.FlattenRow | script.js:364 | One row flattens to its id, then its aliases in their listed order. |
| Catalog.FlattenHead | script.js:364 | A non-empty table's flattening starts with its first row's id, then that row's aliases in their listed order. |
| Catalog.AppAliases | script.js:362-366 | `appAliases` has no duplicates and holds exactly the ids and aliases of the table. |
| Catalog.FirstMatch | script.js:525-528 | The loop stops at the first row that answers to the name, or gives -1 exactly when no row does. |
| Catalog.ResolveAppId | script.js:521-530 | The empty name gives nothing. A lower-cased name that is an element id is returned as it is. Otherwise the result is the id of the first alias-table row answering to the lower-cased name, in table order, and nothing when no row answers. |
| Catalog.ResolveIgnoresCase | script.js:523 | `resolveAppId` gives the same answer for a name and for its lower-cased form. |
| Catalog.ResolveTermAlias | script.js:525-527 | `Term` resolves through its alias to `obvterm` when the page has no element `term`. |
| Catalog.ResolveBioAlias | script.js:525-527 | An alias of a later row, `bio`, resolves to that row's id, `about-me`. |
| Catalog.ResolveDocumentId | script.js:524 | A document id wins over the alias table: `Shell` resolves to the element `shell` when there is one. |
| Catalog.AppIdsOf | script.js:357-359 | `appIds` holds exactly the non-empty `data-opens` values of the icons, and is no longer than the icon list. Its order is the icons' order, by `Catalog.AppIdsOfAppend`. |
| Catalog.AppIdsOfAppend | script.js:357-359 | Collecting the ids of two icon lists one after the other is concatenating their ids, so the icons' document order is kept. |
| Completion.OpenPool | script.js:389 | The pool for `open` has no duplicates and holds exactly the app ids and the alias-table names. The app ids come first, and the order is first occurrence (`Text.OrderedUnionOrder`). |
| Completion.ComputeCompletions | script.js:373-398 | The token runs from just after the last space before the caret up to the caret, clamped to the text, and contains no space. The list is the chosen pool filtered by the token, in the pool's order, so it holds exactly the pool's names that start with the token. |
| Completion.PoolByFirstWord | script.js:380-394 | Commands are offered exactly when the text before the caret has no space, so the `caretIndex <= firstSpace` test never decides anything. Otherwise the first word picks the app pool (`open`), the file (`cat`), or nothing. |
| Completion.CompleteOp | script.js:384-397 | Completing `op` as the first word offers exactly `open`, replacing positions 0 to 2. |
| Completion.ApplyCompletion | script.js:400-404 | Within bounds, the text before `start` and from `end` on is unchanged, and the replacement sits between them. |
| Completion.ApplyOwnSpan | script.js:400-404 | Splicing a span's own text over it leaves the text unchanged. |
| Completion.ApplyTwice | script.js:400-404 | Splicing `b` over the span that `a` has just filled is the same as splicing `b` over the original span. |
| Shell.ListingOf | script.js:552-559 | `ls` lists one directory per app id, in page order, followed by `Reading.txt`. |
| Shell.Process | script.js:533-622 | An empty command does nothing, and only an empty one. A result is styled as an error exactly when it reports a failure. A window is opened only together with an `Opening` reply for the same id, and every `Opening` reply opens one. Each command's outcome, for any arguments and any spacing, is given by `Shell.ProcessOutcomes`. |
| Shell.Execute | script.js:538-619 | The `switch` never does nothing. It clears the screen exactly for the clear command, closes the terminal exactly for `exit`, and opens a window only for `open`. A result is styled as an error exactly when it reports a failure. |
| Shell.OpenOutcome | script.js:561-572 | `open` always prints one line. It opens exactly the window `resolveAppId` finds for the arguments, when it finds one, with an `Opening` reply for that window. Otherwise it reports the first argument, or the empty string, as an error. |
| Shell.CatOutcome | script.js:580-590 | `cat` prints the reading list, styled as ok, exactly when its argument lower-cases to `reading.txt`. Otherwise it reports the argument, or `undefined` when there is none, as an error. It never opens a window. |
| Shell.ProcessIgnoresCommandCase | script.js:536-537 | Command words are case-insensitive: lines whose first words agree up to letter case and whose arguments agree do the same. An unknown word is echoed back exactly as typed. |
| Shell.OpenDispatch | script.js:561-572 | `open` opens exactly the window that `resolveAppId` finds for the arguments, rejoined with spaces, with `.txt` stripped and trimmed. Otherwise it reports the first argument, or the empty string, as not found. |
| Shell.OnlyOpenOpens | script.js:561-572 | Only a line whose first word is `open`, in any letter case, opens a window. |
| Shell.OnlyExitExits | script.js:612-614 | A line closes the terminal exactly when its first word is `exit`, in any letter case. |
| Shell.CommandNames | script.js:538-614 | Exactly the word `open` selects `open`, and exactly `exit` selects `exit`. |
| Shell.ClearNames | script.js:607-610 | Exactly the words `clear` and `cls` select the screen clear. |
| Shell.ProcessOutcomes | script.js:538-621 | Keyed on the lower-cased first word: `clear` and `cls` clear the screen, `exit` closes the terminal, and every other command prints exactly one result line. `help`, `whoami`, `status`, `socials` and `contact` print their fixed text, `ls` lists the app ids then the readable file, `date` prints the clock, an unknown word reports the whole line as not found, styled as an error, `open` is `Shell.OpenOutcome` of all the words after the first, and `cat` is `Shell.CatOutcome` of the first of them, the rest ignored. |
| Shell.TwoWords | script.js:536 | A line of two space-free words separated by one space splits into those two words. |
| Shell.OneWord | script.js:536 | A space-free line splits into itself. |
| Shell.CatWithoutFile | script.js:587 | `cat` with no argument reports the file `undefined`, styled as an error. |
| Shell.CatFile | script.js:580-590 | `cat f` prints the reading list exactly when `f` lower-cases to `reading.txt`, and otherwise reports `f` as missing, styled as an error. |
| Shell.ReadableFileName | script.js:556 | The file name that `ls` and completion show lower-cases to the name `cat` accepts. |
| Windows.FirstFocused | script.js:289 | The result is the first focused window, or -1 exactly when no window is focused. |
| Windows.LastVisible | script.js:154-156 | The result is the last window in document order with `display: flex`, or -1 exactly when no window is shown. |
| Windows.InitialDeskInv | script.js:70-77 | The page as loaded satisfies the invariant: unique ids, no z-index above the counter, at most the focused window at the counter, distinct raised z-indices, and every tray icon backed by a window. |
| Windows.RefocusTray | script.js:83-89 | Re-highlighting the tray keeps its icons and their order. |
| Windows.FocusPreservesInv | script.js:80-90 | `focusWindow` keeps the invariant. |
| Windows.FocusRaises | script.js:80-90 | Focusing raises the window above every earlier z-index and makes it the only focused window. Exactly the tray icons for its id end up highlighted. |
| Windows.FocusedIsTopmost | script.js:85-86 | A focused window is strictly above every other window, and no other window is focused. |
| Windows.Place | script.js:108-114 | A first placement is never negative, and it stays inside the desktop when the window fits with the inset. A centred, cascaded position that already fits is kept unchanged. |
| Windows.ShowInv | script.js:96-121 | Placing and showing a window keeps the invariant. |
| Windows.AddTrayIconInv | script.js:124-140 | Adding the tray icon keeps the invariant. |
| Windows.OpenPreservesInv | script.js:92-141 | `openWindow` keeps the invariant. |
| Windows.OpenFacts | script.js:92-141 | Opening shows, positions and focuses the window. No other window is focused, and no other window's display or geometry changes. A tray icon is appended exactly when the window had none. A window placed before keeps its geometry. A first placement is `Place` on each axis with an offset of 30 pixels per tray icon already present, so it lies within the desktop when the window fits. |
| Windows.OpenTwiceOneTrayIcon | script.js:124-140 | Opening an already open window adds no second tray icon. |
| Windows.UnknownIdChangesNothing | script.js:92-94 | Opening an id that no window has changes nothing, and so do closing and maximizing it, by the same guard at the start of `closeWindow` (lines 143-145) and `maximizeWindow` (lines 160-162). |
| Windows.WithoutIcon | script.js:149-152 | Removing tray icon `t` drops exactly that icon and keeps the others in order. |
| Windows.HideAndDropIconInv | script.js:147-152 | Hiding the window and dropping its icon keep the invariant. |
| Windows.FocusLastShownInv | script.js:154-157 | Focusing the last shown window keeps the invariant. |
| Windows.ClosePreservesInv | script.js:143-158 | `closeWindow` keeps the invariant. |
| Windows.DropIconRemoves | script.js:149-152 | After the drop, no tray icon for the id remains. |
| Windows.DropIconKeeps | script.js:149-152 | After the drop, every other id keeps its tray icon. |
| Windows.FocusLastShownFrame | script.js:154-157 | The refocus step changes no window's display and no tray icon's id. |
| Windows.CloseHides | script.js:143-158 | Closing hides exactly that window, keeps every other window's display, removes its tray icon, and keeps every other icon. |
| Windows.FocusLastShownFacts | script.js:154-157 | The last shown window in document order becomes the only focused window. |
| Windows.CloseFocusesLastShown | script.js:154-157 | After a close that leaves a window shown, the last shown window in document order is the only focused window. |
| Windows.CloseWithNoneShown | script.js:155 | When no window stays shown, closing changes no focus highlight, not even the closed window's. |
| Windows.MinimizePreservesInv | script.js:220 | The minimize button and Escape keep the invariant. |
| Windows.MinimizeHides | script.js:220 | The minimize button hides exactly that window. Its highlight, z-index and tray icon stay, and every other window is unchanged. |
| Windows.EscapeHidesFocused | script.js:286-291 | Escape hides the focused window and changes nothing else. With no focused window, it changes nothing. |
| Windows.ClickTrayPreservesInv | script.js:130-137 | A tray-icon click keeps the invariant. |
| Windows.ClickTrayToggles | script.js:130-137 | Clicking a tray icon hides its window when it is shown and focused. Otherwise the click shows the window and makes it the only focused window. The tray keeps its icons' ids and their order; only its highlight may move. |
| Windows.ClickTrayTwice | script.js:130-137 | Two clicks leave the window focused, and shown exactly when it was shown and focused before. |
| Windows.MaximizePreservesInv | script.js:160-186 | `maximizeWindow` keeps the invariant. |
| Windows.MaximizeFillsDesktop | script.js:173-184 | Maximizing a window that has the button fills the desktop from the top left corner. Display, focus and z-index are unchanged. |
| Windows.MaximizeTwiceRestores | script.js:165-184 | Maximizing and then restoring gives back the window exactly, whatever the desktop size was at each step. Only the saved geometry differs. |
| Windows.Clamp | script.js:647-650 | The far edge stays on the desktop, and the near edge stays on it when the window fits. A position that fits is kept unchanged. |
| Windows.DragPreservesInv | script.js:631-658 | Beginning, moving and ending a drag keep the invariant. |
| Windows.DragNeverStartsMaximized | script.js:633-637 | A drag starts exactly when the viewport is wider than 768 pixels, the window is not maximized, and the press is not on a button. |
| Windows.MoveDragStaysOnDesktop | script.js:642-653 | A drag move keeps the window's far edges on the desktop, and its near edges too when it fits. The grabbed point follows the pointer wherever that position fits. The size is unchanged. |
| Windows.MoveAfterEndDrag | script.js:643 | After mouse-up, pointer moves leave the window where it is. |
| WindowManager.WindowManager.constructor | script.js:70-77 | The page as loaded is the initial `Desk`, and it satisfies the invariant. |
| WindowManager.WindowManager.FocusWindow | script.js:80-90 | The new state is `Focus` of the old one, and the invariant holds. |
| WindowManager.WindowManager.UnfocusWindows | script.js:82 | Every window loses its highlight, and nothing else changes. |
| WindowManager.WindowManager.UnfocusTray | script.js:83 | Every tray icon loses its highlight, and nothing else changes. |
| WindowManager.WindowManager.LastVisibleWindow | script.js:154 | The scan returns `LastVisible` of the windows. |
| WindowManager.WindowManager.FocusedWindow | script.js:289 | The scan returns `FirstFocused` of the windows. |
| WindowManager.WindowManager.OpenWindow | script.js:92-141 | The new state is `Open` of the old one, and the invariant holds. |
| WindowManager.WindowManager.ShowWindow | script.js:96-121 | The new state is `Show` of the old one. |
| WindowManager.WindowManager.AddTrayIconOf | script.js:124-140 | The new state is `AddTrayIcon` of the old one. |
| WindowManager.WindowManager.CloseWindow | script.js:143-158 | The new state is `Close` of the old one, and the invariant holds. |
| WindowManager.WindowManager.HideAndDropIconOf | script.js:147-152 | The new state is `HideAndDropIcon` of the old one. |
| WindowManager.WindowManager.FocusLastShownWindow | script.js:154-157 | The new state is `FocusLastShown` of the old one. |
| WindowManager.WindowManager.MaximizeWindow | script.js:160-186 | The new state is `Maximize` of the old one, and the invariant holds. |
| WindowManager.WindowManager.MinimizeWindow | script.js:220 | The new state is `Minimize` of the old one, and the invariant holds. |
| WindowManager.WindowManager.EscapeKey | script.js:286-291 | The new state is `Escape` of the old one, and the invariant holds. |
| WindowManager.WindowManager.ClickTrayIcon | script.js:130-137 | The new state is `ClickTray` of the old one, and the invariant holds. |
| WindowManager.WindowManager.TitleMouseDown | script.js:631-641 | The new state is `BeginDrag` of the old one, and the invariant holds. |
| WindowManager.WindowManager.MouseMove | script.js:642-653 | The new state is `MoveDrag` of the old one, and the invariant holds. |
| WindowManager.WindowManager.MouseUp | script.js:654-658 | The new state is `EndDrag` of the old one, and the invariant holds. |
| Terminal.InitialSessionInv | script.js:303-304 | The terminal as loaded satisfies the session invariant: caret within the text, history position in range, only non-empty history entries, and a consistent completion cycle. |
| Terminal.UpsWalkBack | script.js:437-449 | Pressing ArrowUp `n` times from a fresh prompt shows the `n`-th newest command, or the oldest one once `n` exceeds the history, with the caret at the end. |
| Terminal.DownPastNewest | script.js:450-462 | ArrowDown from the newest entry shows an empty line and parks the position at the history length. Further ArrowDowns change nothing. |
| Terminal.DownWhenNotBrowsing | script.js:453 | ArrowDown before any ArrowUp changes nothing. |
| Terminal.UpThenDown | script.js:437-462 | ArrowUp shows the newest command, and a following ArrowDown shows an empty line. |
| Terminal.DownSteps | script.js:450-461 | ArrowDown while browsing below the newest entry moves the position to the next, newer entry and shows it, with the caret at its end; history and output are unchanged. |
| Terminal.DownsWalkForward | script.js:450-462 | Pressing ArrowDown `k` times while browsing moves the position forward by `k`, capped at the history length, showing that entry or the empty line at the cap, with the caret at the end. |
| Terminal.UpsThenDowns | script.js:437-462 | `n` ArrowUps from a fresh prompt followed by `n` ArrowDowns end on the empty line, with the position at the history length. |
| Terminal.NextCompletion | script.js:470-478 | When the input is not the last completion's text or there are no candidates, the cycle is computed afresh at the caret, starting at index 0 with the input as snapshot. Otherwise it keeps its candidates, span and snapshot and steps its index by `CycleIndex`. A non-empty cycle's index is in range. |
| Terminal.CycleIndex | script.js:476-477 | Forward, the step goes to the next index, and from the last index back to the first. Backward, it goes to the previous index, and from the first index to the last. The result is always below the number of candidates. |
| Terminal.ForwardBack | script.js:476-477 | One step forward and one step back give the same index. |
| Terminal.TabEntersCycle | script.js:470-497 | A Tab press that finds candidates leaves a live cycle: the text is the snapshot, and the span holds the candidate shown. |
| Terminal.TabCycles | script.js:474-495 | Within a cycle, Tab (or Shift+Tab) replaces the shown candidate with the next (or previous) one. The candidates and the span start are kept, and the cycle stays live. |
| Terminal.TabForwardThenBack | script.js:465-499 | Tab and then Shift+Tab inside a cycle restore the text and the index. |
| Terminal.NextCompletionSpan | script.js:470-478 | The span of a live cycle lies within the text it is spliced into. |
| Terminal.SpliceResult | script.js:480-495 | Splicing puts the candidate over the span and sets the span's end after it, with the new text as snapshot. The caret lands just after the candidate, one further for `open` and `cat` while the text before the caret has no space, and never past the end of the text. Within bounds, the candidate sits at the span start and the caret is not before its end. History and output are unchanged. |
| Terminal.TabStepInv | script.js:465-499 | Tab keeps the session invariant. |
| Terminal.TabCompletesOpen | script.js:465-499 | Tab at the end of `op` gives `open` with the caret at position 4, and no space is inserted. |
| Terminal.PageOf | script.js:357-366 | The page's app ids are exactly the non-empty `data-opens` values. The `open` pool holds exactly those ids and the alias-table names, once each, with the app ids first. The document ids are kept. |
| Terminal.EnterHelp | script.js:505-517 | Enter on `help` echoes it, records it, prints the help text, clears the input, and asks nothing of the window manager. |
| Terminal.EnterClear | script.js:607-610 | `clear` empties the screen, its own prompt line included, but is still recorded in the history. |
| Terminal.EnterBlank | script.js:507-513 | A blank line is echoed as an empty prompt and leaves the history and the browsing position unchanged. |
| Terminal.Dispatch | script.js:407-518 | Only Enter adds to the history, and it adds exactly the non-empty trimmed line, always, resetting the browsing position to -1. Only Enter makes a window request. Only Enter and Ctrl+L change the output. |
| Terminal.EnterStep | script.js:504-517 | Enter echoes the trimmed line after the prompt and then what processing it prints. It empties the input with the caret at 0 and ends the completion cycle. A non-empty line is appended to the history and ends browsing, a blank one changes neither. The request is the command's. |
| Terminal.CtrlShortcuts | script.js:409-434 | In either letter case: Ctrl+L empties the screen, Ctrl+U empties the input and ends the completion cycle, and Ctrl+A and Ctrl+E put the caret at the start and at the end. Nothing else changes and no window is asked for. |
| Terminal.EraseThenEnter | script.js:415-517 | Ctrl+U then Enter submits a blank line: an empty prompt is echoed, and nothing is recorded or asked. |
| Terminal.ArrowKeys | script.js:437-462 | With an empty history, ArrowUp and ArrowDown change nothing, and neither does ArrowDown before browsing. When they act, they show a line with the caret at its end and end the completion cycle. History and output are unchanged, and no window is asked for. |
| Terminal.UpRecalls | script.js:437-445 | ArrowUp on a non-empty history lands on one of its entries and shows it. |
| Terminal.KeyStepInv | script.js:407-518 | Every keydown keeps the session invariant. |
| Terminal.DispatchInv | script.js:407-518 | Every branch of the handler keeps the session invariant. |
| Terminal.SubmitStepInv | script.js:505-517 | Enter keeps the session invariant: only non-empty commands enter the history. |
| Terminal.UpStepInv | script.js:437-449 | ArrowUp keeps the session invariant. |
| Terminal.DownStepInv | script.js:450-462 | ArrowDown keeps the session invariant. |
| Terminal.InputStepInv | script.js:309-311 | An edit made by the browser keeps the session invariant. |
| Terminal.OtherKeyResets | script.js:501-502 | A key that the handler does not handle ends the completion cycle and changes nothing else. |
| Terminal.ShiftIsOtherKey | script.js:501-502 | A lone Shift keydown is such a key. |
| Terminal.Terminal.constructor | script.js:303-304 | The terminal starts with an empty line, no history, no completion cycle and the banner. |
| Terminal.Terminal.PrintPromptAndCmd | script.js:331-336 | One prompt line holding the command is appended, and nothing else changes. |
| Terminal.Terminal.PrintLine | script.js:337-341 | One result line is appended, and nothing else changes. |
| Terminal.Terminal.ResetCompletion | script.js:371 | The completion cycle is cleared, and nothing else changes. |
| Terminal.Terminal.ProcessCommand | script.js:533-622 | The output becomes `Respond` of `Process`'s outcome. The returned request is the window the outcome opens or closes. |
| Terminal.Terminal.KeyDown | script.js:407-518 | The new state and the returned request are those of `KeyStep`. |
| Terminal.Terminal.HistoryUp | script.js:437-449 | The new state is `UpStep` of the old one. |
| Terminal.Terminal.HistoryDown | script.js:450-462 | The new state is `DownStep` of the old one. |
| Terminal.Terminal.AdvanceCompletion | script.js:467-478 | The new completion cycle is `NextCompletion` of the old state. |
| Terminal.Terminal.SpliceCompletion | script.js:480-497 | The new state is `Splice` of the old one. |
| Terminal.Terminal.Submit | script.js:505-517 | The new state and the request are those of `SubmitStep`. |
| Terminal.Terminal.RecordCommand | script.js:507-512 | The new state is `Record` of the old one: the echo, plus the history entry when the command is non-empty. |
| Terminal.Terminal.Input | script.js:309-311 | The new state is `InputStep` of the old one: the new text, with the caret clamped to it. |
| Terminal.Perform | script.js:565 | The window manager's new state is `ApplyRequest` of the old one, and the invariant holds. |

## Left out

- The live clock (`updateClock`) is an input: `date` prints the clock text passed in. The boot banner's date is also an input.
- The HTML of every response is replaced by a `Response` value that keeps only the parts that depend on the input. This covers `printLine`'s markup, the `<br>` after each line, and the scrolling.
- The rendering is not modelled: `renderInput`, the caret's pixel position, icons (`svgIcon`, `guessKindFromIcon`, image fallbacks), the boot screen and the start menu.
- Event listener wiring, `preventDefault`, `stopPropagation` and touch detection are not modelled. Each handler is a method, and the caller picks which handler an event reaches.
- Desktop-icon selection, single and double clicks, Enter on a selected icon, project cards and links opening new tabs are not modelled. They only call `openWindow`, which is modelled.
- Escape also closes the start menu. The start menu is not part of this model.
- The window re-clamp on `resize` is not modelled.
- Measured sizes (`offsetWidth`, `offsetHeight`), the desktop's size, the pointer position and the viewport width are inputs.
- `Text.Lower` lower-cases ASCII letters only. It has no Unicode case mapping.
- Text typed or pasted into the input is an environment step, `Terminal.Terminal.Input`, with the caret clamped to the text.
- An icon without `data-opens` is modelled as `None`, and `appIds` drops it.
- `open` of a document id that is not a window is not modelled faithfully. In the script, `resolveAppId` returns any element id, and `openWindow` of such an element runs partway and then throws while reading the missing title bar for the tray icon (script.js:124-128). By then it has placed and shown the element, taken the focus off every window and tray icon, and raised the z-index counter (script.js:96-122, 80-87). The exception aborts the Enter handler after the prompt echo and the history entry (script.js:508-513): no `Opening` line is printed and the input is not cleared. The completion has already been reset before the Enter branch (script.js:502), as in the model. The model instead leaves the window manager unchanged for such an id (`Windows.UnknownIdChangesNothing`), but on the terminal side still prints `Opening <id>...` and clears the input.
- Drags are modelled one window at a time. The document-level listeners of two windows dragged at once are not modelled.
- The script computes `appIds` and `appAliases` once at load, and rebuilds the `open` pool from them whenever a Tab press computes a fresh cycle after the first word `open` (script.js:387-390). That pool always has the same value, so `Terminal.PageOf` computes it once.
- Catalog.AppAliases: the contract states the names and that there are no duplicates, but not their order on the literal table. The order is first occurrence in the flattened table (`Text.DedupeFirstOrder` with `Catalog.FlattenAppend`), and stating it on the literal table costs too much proof effort.
- Caret positions and spans count Unicode scalar values, since Dafny strings are sequences of them; the script's `selectionStart`, `slice` and `length` count UTF-16 code units. The two agree on text within the Basic Multilingual Plane; after a character outside it, the model's caret and span numbers are one smaller per such character. No behaviour is lost, since the caret never sits inside a surrogate pair and the only separator is the ASCII space.
- A Shift+Tab typed as a separate Shift keydown followed by Tab starts a fresh cycle, because Shift alone resets completion (see `Terminal.ShiftIsOtherKey`).
- The alias table is not proved free of names that two rows share. `resolveAppId` picks the first row, and the model does the same.
- `Terminal.Terminal.ProcessCommand`: in the script, the window opens before the reply is printed. The model returns the request and leaves it to `Terminal.Perform`, because the two states are disjoint.
