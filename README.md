# MultiTabProgram tab bookkeeping in Dafny

`mainprogram.py` defines `RunProgram`, a PyQt5 main window that hosts any
number of tabs. Each tab has a unique, never-reused integer id handed out by
the counter `totaltabs`, and three structures follow the open tabs:

- the strip of the `QTabWidget`: its labels in visual order, and its current index;
- the list `tabnumbers`, which maps each visual position to the id of the tab shown there;
- the module-level dictionary `alltabdata`, keyed by `"Tab <id>"`.

This project models that bookkeeping and proves how the operations keep the
three structures in step. The operations are:

- `addnewtab` and `makenewtab`: create a tab;
- `whatTab`: look up the current id;
- `renametab`: relabel the current tab;
- `closecurrenttab`: close the current tab;
- `closeEvent`: the shutdown sweep, which aborts running processors;
- `savedataincurtab`: its return value;
- `postwarning_option`: its button-code mapping.

Files:

- `pyruntime.dfy` (module `PyRuntime`) covers the Python behaviour the code relies on:
  - exceptions as a `Result` value;
  - `str` of a natural number, with its parse round trip;
  - list indexing and `list.pop`, where negative indices count from the end;
  - the insertion-ordered `dict`, with `d[k] = v` and `d.pop(k)`.
- `qtwidgets.dfy` (module `QtWidgets`) covers the Qt behaviour it relies on:
  - the Yes/No reply of a question box;
  - the `QMessageBox.Ok` and `QMessageBox.Cancel` codes;
  - the strip of a `QTabWidget` as a value. `addTab` into an empty strip selects the new tab. `setCurrentIndex` and `setTabText` ignore indices outside the strip. `removeTab` of the current tab selects the tab that slides into its place, or the new last tab.
- `mainprogram.dfy` (module `MainProgram`) holds the window.
  - Each operation that changes the window is a pure transition function on the value `Tabs`: `AfterCreate`, `AfterRename`, `AfterClose`.
  - The class `RunProgram` holds the same fields and updates them in place. Each of its methods is proved to produce exactly the state its transition function gives.
  - `Tabs.Wellformed` holds in every state.
  - `Tabs.Valid` is the in-step invariant.

Tab creation is not atomic in the code. `addnewtab` advances the counter and
`tabnumbers` first. Any later step of `makenewtab` that raises is caught, and
a message box is posted, without rolling back the earlier steps. The message,
"Failed to build new tab" (mainprogram.py:257), reports the whole creation as
failed, even when the tab already sits on the strip; the model follows the
code, not the message. The step that raises is a parameter (`CreateFault`).
The model proves that:

- a creation that completes keeps the three structures in step;
- a creation that fails before the strip leaves `tabnumbers` one entry longer than the strip, and `whatTab` then names the orphan id for the next tab;
- when the failure came before the entry was inserted (line 164), closing that next tab removes it from the strip but raises KeyError on the dictionary, so its entry stays behind;
- when the failure came after the insert, while styling (lines 167-169), the close posts no error. It pops the orphan's entry and the orphan id instead, and the closed tab's own id and entry stay.

Dialog replies are parameters of the operations that show a dialog.

## Model

| member | source | states |
|---|---|---|
| PyRuntime.Str | mainprogram.py:271 | `str(n)` is a non-empty string of decimal digits with no leading zero |
| PyRuntime.ParseStr | mainprogram.py:271 | reading back `str(n)` gives n |
| PyRuntime.StrInjective | mainprogram.py:271 | distinct ids print differently |
| PyRuntime.PyIndex | mainprogram.py:276 | `s[i]` succeeds exactly when `-len(s) <= i < len(s)`, reading position i or len(s)+i; otherwise IndexError |
| PyRuntime.PyPop | mainprogram.py:321 | `s.pop(i)` succeeds exactly when `s[i]` does, removes exactly that position, and the remainder plus the popped element is the old multiset |
| PyRuntime.Dict.Set | mainprogram.py:164-175 | `d[k] = v` maps k to v; a new key goes last in the order, an existing key keeps its place; the dict stays well formed |
| PyRuntime.Dict.Pop | mainprogram.py:320 | `d.pop(k)` succeeds exactly when k is present (KeyError(k) otherwise), removes exactly k from the entries and exactly its position from the order |
| PyRuntime.WithoutAt | mainprogram.py:320 | among distinct keys, removing a key removes exactly its position |
| PyRuntime.DictWithout | mainprogram.py:320 | popping a present key from a well-formed dict leaves a well-formed dict |
| QtWidgets.TabWidget.AddTab | mainprogram.py:172 | the label goes last; an empty strip selects the new tab, otherwise the current tab stays; the strip stays well formed |
| QtWidgets.TabWidget.SetCurrentIndex | mainprogram.py:173 | an index on the strip becomes current, any other index changes nothing |
| QtWidgets.TabWidget.SetTabText | mainprogram.py:174 | only the label at the index changes, and only when the index is on the strip |
| QtWidgets.TabWidget.RemoveTab | mainprogram.py:317 | removes exactly the label at an index on the strip; removing the current tab selects min(i, n-2), or -1 when the strip empties; the strip stays well formed |
| MainProgram.TabKeyInjective | mainprogram.py:271 | distinct ids have distinct keys `TabKey(id)`, the `"Tab "+str(id)` of lines 271, 311 and 320 |
| MainProgram.KeysDistinct | mainprogram.py:269-271 | strictly increasing ids give pairwise distinct keys (`Keys` lists the keys of a list of ids) |
| MainProgram.Sweep | mainprogram.py:400-410 | the sweep only ever aborts keys it visited whose tab is a running processor; one turn of the loop (lines 401-410) is the helper `SweepStep` |
| MainProgram.SweepStopsAtRaise | mainprogram.py:400-409 | once a key raises, no later key is visited |
| MainProgram.SweepRaisesIff | mainprogram.py:407-409 | the sweep raises KeyError exactly when some processor tab lacks its "isprocessing" entry |
| MainProgram.SweepAbortsEachRunningOnce | mainprogram.py:400-410 | a sweep that completes aborts each running processor tab exactly once, and no other tab |
| MainProgram.CloseEventOutcome | mainprogram.py:390-414 | No ignores the event and nothing else does; the event is accepted only when the preferences flag reads False |
| MainProgram.ShutdownAsWrittenRaises | mainprogram.py:394-397 | as written, Yes raises AttributeError on `preferencesopened` before any abort, even with a processor running |
| MainProgram.ShutdownAbortsEachRunningOnce | mainprogram.py:390-412 | with the flag False and every processor tab carrying "isprocessing", Yes accepts the event after aborting each running processor exactly once |
| MainProgram.SaveDataInCurTab | mainprogram.py:328-354 | as written: False exactly on a cancelled dialog, None exactly when the dialog raised, True whenever a directory was chosen; an error box exactly when the dialog or the save step raised |
| MainProgram.SaveDataIntended | mainprogram.py:339-351 | a save returns True exactly when a directory was chosen and the save step succeeded |
| MainProgram.SaveWithNoTabReportsSuccess | mainprogram.py:328-354 | in a window with no tab open, `whatTab` raises IndexError, and saving into a chosen directory posts "Filed to save files" yet returns True, where the intended version returns False |
| MainProgram.SaveReturnIgnoresFailure | mainprogram.py:346-354 | as written, the return value does not depend on whether the save step failed; it differs from the intended one exactly on a failed save, e.g. a chosen directory with no tab open returns True after posting the error |
| MainProgram.PostWarningOption | mainprogram.py:375-387 | "okay" exactly for `QMessageBox.Ok`, "cancel" exactly for `QMessageBox.Cancel`, "unknown" otherwise |
| MainProgram.Tabs.WhatTab | mainprogram.py:275-276 | on an in-step state, succeeds exactly when a tab is open, giving the id at the current position, whose entry exists and records that id; IndexError otherwise |
| MainProgram.AfterCreate | mainprogram.py:158-257 | the counter and `tabnumbers` always advance; whatever completed before the failing step stays done; a completed creation appends the label `NewTabLabel(id)`, "New Tab #"+str(id) of line 174, makes it current and records the id in the entry; an error box exactly when a step raised |
| MainProgram.CreateKeepsWellformed | mainprogram.py:158-175 | a creation, whether or not it completes, keeps `tabnumbers` increasing and within the counter, the strip's current index in range and the dictionary's order matching its keys |
| MainProgram.FreshKey | mainprogram.py:266-271 | no id above the counter has an entry yet |
| MainProgram.CreateKeepsValid | mainprogram.py:158-175 | a completed creation keeps the strip, `tabnumbers` and the keys in step, adding the key last; one that fails before the strip leaves `tabnumbers` one longer than the strip |
| MainProgram.AfterRename | mainprogram.py:279-287 | on ok, only the label at the current index changes; on cancel nothing changes; ids, keys and selection are untouched |
| MainProgram.AfterClose | mainprogram.py:301-325 | No changes nothing; a failed lookup changes nothing and posts the error; a missing key removes the tab from the strip only and posts the error; otherwise, with no error, the tab at the current index leaves the strip, the key of the id `whatTab` gave is popped from the dictionary (entries and order), and the id at the current index is popped from `tabnumbers`, in any state, in step or not |
| MainProgram.CloseKeepsWellformed | mainprogram.py:301-325 | a close, whatever the reply and wherever it raises, keeps `tabnumbers` increasing and within the counter, the strip's current index in range and the dictionary's order matching its keys |
| MainProgram.CloseRemovesCurrent | mainprogram.py:301-321 | on an in-step state with a tab open, Yes removes exactly the current position from the strip, `tabnumbers` and the key order, and exactly the current id's entry; the state stays in step and the closed id is gone |
| MainProgram.RunKeepsWellformed | mainprogram.py:266-269 | no sequence of actions lowers the counter, and every sequence keeps the ids increasing and within the counter |
| MainProgram.IdsNeverReused | mainprogram.py:266-269 | after any actions, the next creation hands out an id above every id handed out before and not among the live ids |
| MainProgram.CloseOnlyRemoves | mainprogram.py:301-325 | a close, whatever the reply and wherever it raises, leaves only ids and keys that were already there |
| MainProgram.StepKeepsOut | mainprogram.py:158-325 | no action lowers the counter, and no action brings back an absent id at or below the counter, or its key |
| MainProgram.ClosedKeyStaysOut | mainprogram.py:266-269 | the key of an id already handed out and absent from the dictionary stays absent after any actions, failed creations included |
| MainProgram.ClosedIdStaysOut | mainprogram.py:266-269 | an id already handed out and absent from `tabnumbers` stays absent after any actions, failed creations included |
| MainProgram.ClosedTabStaysClosed | mainprogram.py:301-321 | once the current tab of an in-step window is closed, its id and its key never come back, whatever follows |
| MainProgram.StepKeepsValid | mainprogram.py:158-321 | a rename, a close or a completed creation keeps the in-step invariant |
| MainProgram.RunKeepsValid | mainprogram.py:158-321 | every sequence of renames, selections, closes and completed creations keeps the in-step invariant |
| MainProgram.Startup | mainprogram.py:55-65 | the window starts with one tab, id 1, current, labelled "New Tab #1", in step |
| MainProgram.FailedCreationDesynchronises | mainprogram.py:161-321 | after a creation fails before its entry, the next tab is resolved to the orphan id, and closing it removes it from the strip, raises, and leaves its entry behind |
| MainProgram.StyledFailureClosesWrongEntry | mainprogram.py:161-321 | after a creation fails while styling (its entry already inserted), the next tab resolves to the orphan id; closing it posts no error, removes the new tab from the strip, and pops the orphan's entry and id, while the closed tab's id stays in `tabnumbers` and its entry stays in the dictionary |
| MainProgram.StyledFailureThenCreate | mainprogram.py:161-175 | the state after a styling failure and a good creation: both ids in `tabnumbers`, both keys present, the new tab current at the orphan's position |
| MainProgram.FirstFailedCreation | mainprogram.py:55-175 | from startup, a failed creation and then a good one: "New Tab #3" is resolved to id 2 |
| MainProgram.RunProgram.constructor | mainprogram.py:55-65 | the window is the one makenewtab builds on the empty state, and the counter is 1 |
| MainProgram.RunProgram.AddNewTab | mainprogram.py:266-272 | hands out an id one above the counter and not among the live ids, appends it to `tabnumbers`, returns the strip's next position and the id's key |
| MainProgram.RunProgram.MakeNewTab | mainprogram.py:158-257 | the new state and the error box are exactly those of AfterCreate; the id is one above the counter and not among the live ids |
| MainProgram.RunProgram.RenameTab | mainprogram.py:279-287 | the new state is exactly that of AfterRename |
| MainProgram.RunProgram.CloseCurrentTab | mainprogram.py:301-325 | the new state and the error box are exactly those of AfterClose |
| MainProgram.RunProgram.CloseEvent | mainprogram.py:390-414 | the loop gives exactly the outcome of the sweep over `alltabdata` in insertion order, with the preferences flag False |

## Left out

- The widgets themselves: layouts, palettes, menus, fonts, and the bodies of `initUI`, `buildmenu` and `setnewtabcolor`. Only the strip's labels and current index are modelled.
- The widget-valued entries of each tab record ("tab", "tablayout", "tabwidgets") are not modelled. Neither are the figures and processor objects. A record keeps "tabtype", "tabnum", "testvariable" and "isprocessing".
- Dialogs: `QMessageBox.question`, `QInputDialog.getText` and `QFileDialog.getExistingDirectory`. Their replies are parameters.
- `posterror` and `postwarning`: the message box becomes the error text the operation posts. `trace_error` logging is not modelled.
- The Windows `windll` call, the platform path separator and the override cursor: these have no effect on the bookkeeping.
- The `__init__` handler for failures in `initUI` and `buildmenu`: those routines are not modelled. `makenewtab` catches its own exceptions.
- MainProgram.AfterCreate: models three points at which creation can raise. These are building the entry, styling before `addTab`, and building the widgets after the id is recorded. A failure inside lines 172-175 is not modelled separately.
- MainProgram.RunProgram.CloseEvent: models closeEvent with `preferencesopened` taken as False. As written the attribute is never assigned and the call raises AttributeError (see Findings, `ShutdownAsWrittenRaises`). `settingsthread.close()` is not modelled.
- Closing figures with `plt.close` is treated as a step that does nothing. `plt` is never imported in `mainprogram.py`, so these calls would raise NameError as written. No tab of the ProfileEditor or SignalProcessor types can be created from this file.
- `processor.abort()` is modelled only as the key recorded in the list of aborted tabs.
- MainProgram.RunProgram.SelectTab (a user clicking another tab) and `Step`/`Run` (sequences of user actions) come from the Qt event loop, not from code in the file. They are there so that the invariants can be stated over every reachable state.
- The `except` branch of `renametab` (lines 285-287) is not modelled. Nothing modelled in its `try` block can raise: reading the current index and `setTabText` with any index do not raise. A failure of the dialog itself is outside the model.
- `alltabdata` is a module-level global, declared at lines 111-112. Here it is a field of `RunProgram` (and of `Tabs`). There is only one window, so this loses nothing, but code outside the class that touches the global is not modelled.
- Python integers are unbounded, so the id counter has no overflow to model.

## Findings

| source | as written | input that shows it | evidently intended | confidence | as-written member | corrected member |
|---|---|---|---|---|---|---|
| mainprogram.py:339-354 | `return True` in the `finally` block replaces the `return False` of the `except` block, so a failed save reports success | a directory is chosen while no tab is open: `whatTab` raises IndexError, "Filed to save files" is posted, and True is returned | return False after a failed save | not executed; high | MainProgram.SaveReturnIgnoresFailure | MainProgram.SaveDataIntended |
| mainprogram.py:394-397 | `self.preferencesopened` is read, but nothing in the file assigns it | answering Yes to the close question, with any tabs | close the preferences window only when one is open, then run the sweep | not executed; high | MainProgram.ShutdownAsWrittenRaises | MainProgram.RunProgram.CloseEvent |
