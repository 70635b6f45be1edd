# Freeplane undo engine and icon registry, modelled in Dafny

This project models two pieces of the Freeplane mind-map editor.

- **The undo engine** (`UndoHandler`). It keeps a history list of actors (reversible changes) and a cursor. Entries before the cursor are applied; entries after it have been undone.
  - Submitting an actor first drops everything after the cursor.
  - A new actor is folded into the last entry when it arrives within 100 ms of the previous one, or while the current action frame is open. Otherwise it is appended, and the list keeps only the newest 100 entries.
  - Deactivation mutes recording until a submission comes outside both windows.
  - Transactions save the current list on a stack. Commit packs the transaction's applied entries into one compound and submits it to the saved list. Rollback undoes them and restores the saved list.
- **The icon registry** (`IconStore`). It keeps:
  - groups of mind icons in first-insertion order;
  - a table of mind icons by name;
  - a table of UI icons by file name.

  It offers lookups with a defined "not found" answer and a throwing one.

Files:

- `wrappers.dfy`: `Option` (Java's `null`) and `Result` (a thrown exception).
- `undo_spec.dfy` (module `UndoSpec`): the engine's state as a value (`Engine`), with one function per operation. `Engine.log` records every `undo()` and `act()` call the engine makes on an actor.
- `undo_properties.dfy` (module `UndoProperties`): lemmas about sequences of operations. They cover repeated undo and redo, round trips, spaced and bursty submissions, and transactions.
- `undo_handler.dfy` (module `UndoEngine`): the class `UndoHandler`. Its fields are updated in place, and each method is proved to move `State()` exactly as the matching `UndoSpec` function does.
- `icon_store.dfy` (module `IconRegistry`):
  - pure helpers for the tables, with lemmas about them;
  - the class `IconStore`, with maps updated in place and lookups as functions of the current tables.

Outside inputs become parameters:

- the wall clock (`System.currentTimeMillis`) is `currentTime`;
- `EventQueue.isDispatchThread()` is `onDispatchThread`;
- the `invokeLater` task that closes the action frame is the operation `EndOfTurn`, which the caller runs when the event-queue turn ends.

## Model

| member | source | states |
|---|---|---|
| UndoSpec.Initial | freeplane/src/org/freeplane/core/undo/UndoHandler.java:57-67 | a new engine has an empty list, nothing to undo or redo, no open transaction, and both flags cleared |
| UndoSpec.Merge | freeplane/src/org/freeplane/core/undo/UndoHandler.java:98-108 | folding wraps a plain last entry in a compound first; the result is a compound whose members are the old members followed by the new actor |
| UndoSpec.Evict | freeplane/src/org/freeplane/core/undo/UndoHandler.java:113-117 | the list keeps min(length, 100) entries, and they are its newest ones (a suffix) |
| UndoSpec.StartActionFrame | freeplane/src/org/freeplane/core/undo/UndoHandler.java:208-217 | afterwards the frame is open iff it was already open or the call came on the dispatch thread; nothing else changes |
| UndoSpec.ResetRedo | freeplane/src/org/freeplane/core/undo/UndoHandler.java:185-190 | the list is cut at the cursor, so nothing is left to redo; cursor and every other field are unchanged |
| UndoSpec.FoldIntoLast | freeplane/src/org/freeplane/core/undo/UndoHandler.java:96-110 | merge branch: same length, earlier entries unchanged, the last entry becomes Merge(last, actor) |
| UndoSpec.AppendBounded | freeplane/src/org/freeplane/core/undo/UndoHandler.java:111-118 | append branch: the actor is the newest entry; below 100 entries the list just grows, at 100 the oldest entry goes |
| UndoSpec.Record | freeplane/src/org/freeplane/core/undo/UndoHandler.java:96-120 | past the muting check, it folds when there is an applied entry and (the frame is open or less than 100 ms passed), and appends otherwise; it stamps the time and opens the frame only on the dispatch thread |
| UndoSpec.AddActor | freeplane/src/org/freeplane/core/undo/UndoHandler.java:80-121 | redo side dropped first. While muted (deactivated, and the frame is open or at most 100 ms passed) the list is cleared, nothing is recorded and the time stamp stays. Otherwise: unmuted, stamped, the merge rule keeps the cursor, the append rule puts the cursor at the end. The log and the transaction stack are never touched, and the result stays bounded |
| UndoSpec.Deactivate | freeplane/src/org/freeplane/core/undo/UndoHandler.java:69-72 | sets deactivated and opens the frame on the dispatch thread; nothing else changes |
| UndoSpec.EndOfTurn | freeplane/src/org/freeplane/core/undo/UndoHandler.java:211-215 | the deferred task closes the frame and changes nothing else |
| UndoSpec.Undo | freeplane/src/org/freeplane/core/undo/UndoHandler.java:231-242 | a no-op when there is nothing to undo; otherwise the cursor steps back by one, exactly that entry gets one undo() call, and redo becomes possible; list, stack and flags are unchanged |
| UndoSpec.Redo | freeplane/src/org/freeplane/core/undo/UndoHandler.java:176-183 | a no-op when there is nothing to redo; otherwise the entry at the cursor gets one act() call, the cursor steps over it, and undo becomes possible |
| UndoSpec.StartTransaction | freeplane/src/org/freeplane/core/undo/UndoHandler.java:219-225 | pushes (list, cursor) onto the stack and opens an empty list; nothing else changes |
| UndoSpec.UndoCallsOrder | freeplane/src/org/freeplane/core/undo/UndoHandler.java:195-198 | walking the cursor back over a slice undoes each entry once, the newest first |
| UndoSpec.ActCallsOrder | freeplane/src/org/freeplane/core/undo/UndoHandler.java:176-183 | walking forward over a slice acts each entry once, in list order |
| UndoSpec.Rollback | freeplane/src/org/freeplane/core/undo/UndoHandler.java:192-206 | every applied entry is undone, newest first, and the saved list and cursor come back. On an empty stack (where removeLast throws) the undos still happen and the cursor is left at 0 |
| UndoSpec.Commit | freeplane/src/org/freeplane/core/undo/UndoHandler.java:131-139 | no actor calls are made. On an empty stack the redo side is dropped and the frame and time stamp reset before the throw. Otherwise the stack is popped, nothing is left to redo, and (more than 100 ms after the epoch, since the time stamp was cleared) the parent list becomes its applied entries plus one compound of the transaction's applied entries, trimmed to 100, with the cursor at the end |
| UndoSpec.LastDescribed | freeplane/src/org/freeplane/core/undo/UndoHandler.java:141-150 | no description iff nothing can be undone; otherwise the LAST entry of the list is asked, not the entry before the cursor |
| UndoProperties.UndoTimesCursor | freeplane/src/org/freeplane/core/undo/UndoHandler.java:231-242 | n undos move the cursor back by min(n, cursor); after cursor or more undos nothing is left to undo |
| UndoProperties.UndoTimesLog | freeplane/src/org/freeplane/core/undo/UndoHandler.java:231-242 | n undos call undo() on exactly the entries the cursor passes, newest first |
| UndoProperties.UndoTimesWalksBack | freeplane/src/org/freeplane/core/undo/UndoHandler.java:231-242 | combines the cursor and log facts of repeated undo |
| UndoProperties.RedoTimesWalksForward | freeplane/src/org/freeplane/core/undo/UndoHandler.java:176-183 | n redos over undone entries move the cursor forward by n and act those entries in order |
| UndoProperties.UndoRedoRoundTrip | freeplane/src/org/freeplane/core/undo/UndoHandler.java:176-242 | n undos then n redos restore list and cursor; the actors see n undos newest first, then n acts oldest first |
| UndoProperties.RollbackIsRepeatedUndo | freeplane/src/org/freeplane/core/undo/UndoHandler.java:192-242 | rollback makes the same actor calls as undoing `cursor` times |
| UndoProperties.EvictSuffix | freeplane/src/org/freeplane/core/undo/UndoHandler.java:113-117 | trimming a still-long-enough suffix keeps the same newest entries |
| UndoProperties.EvictAppend | freeplane/src/org/freeplane/core/undo/UndoHandler.java:113-117 | trimming once or after every append gives the same list |
| UndoProperties.SpacedStep | freeplane/src/org/freeplane/core/undo/UndoHandler.java:80-121 | one submission at least 100 ms after the last, in its own turn, appends the actor and leaves the frame closed |
| UndoProperties.SeparateSubmissionsAppend | freeplane/src/org/freeplane/core/undo/UndoHandler.java:80-121 | submissions spaced beyond the window, each in its own turn, append one entry each to the applied entries, trimmed to the newest 100, with the cursor at the end |
| UndoProperties.EvictTwice | freeplane/src/org/freeplane/core/undo/UndoHandler.java:113-117 | appending the first actor and trimming, then the rest and trimming, is one trim |
| UndoProperties.SpacedSubmissionsFromFreshEngine | freeplane/src/org/freeplane/core/undo/UndoHandler.java:57-121 | on a fresh engine, up to 100 spaced submissions are the list; more keep the newest 100; undo is possible and redo is not |
| UndoProperties.FoldedLeading | freeplane/src/org/freeplane/core/undo/UndoHandler.java:98-108 | a burst that starts with a plain actor folds into one compound of all its actors, in order |
| UndoProperties.BurstFoldsIntoOneEntry | freeplane/src/org/freeplane/core/undo/UndoHandler.java:80-121 | a burst submitted at one instant to an engine with nothing applied becomes a single entry, with the cursor after it |
| UndoProperties.RunKeepsSaved | freeplane/src/org/freeplane/core/undo/UndoHandler.java:69-242 | no submission, undo, redo, deactivation or end of turn touches the transaction stack |
| UndoProperties.TransactionRollbackRestores | freeplane/src/org/freeplane/core/undo/UndoHandler.java:192-225 | startTransaction, any steps, then rollback: list, cursor and stack are back, and everything applied inside was undone, newest first |
| UndoProperties.TransactionCommitAppends | freeplane/src/org/freeplane/core/undo/UndoHandler.java:131-139 | startTransaction, any steps without a nested transaction, then commit (more than 100 ms after the epoch): the parent gains one new compound of the applied entries after its applied entries, trimmed to 100; it is never folded into the parent's last entry |
| UndoProperties.NestedCommitsAppendOneEntry | freeplane/src/org/freeplane/core/undo/UndoHandler.java:131-139 | a transaction nested in another: the inner commit adds one compound to the outer list, and the outer commit adds one compound of that whole list to the original applied entries, trimmed to 100, cursor at the end, stack restored |
| UndoEngine.UndoHandler.constructor | freeplane/src/org/freeplane/core/undo/UndoHandler.java:57-67 | the new object is valid and in UndoSpec.Initial |
| UndoEngine.UndoHandler.StartActionFrame | freeplane/src/org/freeplane/core/undo/UndoHandler.java:208-217 | in-place update equal to UndoSpec.StartActionFrame |
| UndoEngine.UndoHandler.EndOfTurn | freeplane/src/org/freeplane/core/undo/UndoHandler.java:211-215 | in-place update equal to UndoSpec.EndOfTurn |
| UndoEngine.UndoHandler.Deactivate | freeplane/src/org/freeplane/core/undo/UndoHandler.java:69-72 | in-place update equal to UndoSpec.Deactivate |
| UndoEngine.UndoHandler.ResetRedo | freeplane/src/org/freeplane/core/undo/UndoHandler.java:185-190 | the loop removing one entry after the cursor at a time reaches UndoSpec.ResetRedo |
| UndoEngine.UndoHandler.AddActor | freeplane/src/org/freeplane/core/undo/UndoHandler.java:80-121 | in-place update equal to UndoSpec.AddActor |
| UndoEngine.UndoHandler.Record | freeplane/src/org/freeplane/core/undo/UndoHandler.java:96-120 | in-place update equal to UndoSpec.Record |
| UndoEngine.UndoHandler.FoldIntoLastEntry | freeplane/src/org/freeplane/core/undo/UndoHandler.java:98-109 | the list becomes FoldIntoLast of the old list; cursor and every other field are unchanged |
| UndoEngine.UndoHandler.AppendEvicting | freeplane/src/org/freeplane/core/undo/UndoHandler.java:112-117 | insert at the cursor, then the removeFirst loop reaches AppendBounded of the old list, with the cursor at the end |
| UndoEngine.UndoHandler.CanUndo | freeplane/src/org/freeplane/core/undo/UndoHandler.java:127-129 | true iff some entry lies before the cursor |
| UndoEngine.UndoHandler.CanRedo | freeplane/src/org/freeplane/core/undo/UndoHandler.java:123-125 | true iff some entry lies after the cursor |
| UndoEngine.UndoHandler.GetLastDescription | freeplane/src/org/freeplane/core/undo/UndoHandler.java:141-150 | equal to UndoSpec.LastDescribed of the current state |
| UndoEngine.UndoHandler.IsUndoActionRunning | freeplane/src/org/freeplane/core/undo/UndoHandler.java:168-170 | returns the flag, which is false between calls |
| UndoEngine.UndoHandler.Invoke | freeplane/src/org/freeplane/core/undo/UndoHandler.java:179-181 | an actor is called only while the running flag is set: the call is appended to the log, the flag stays set, and nothing else changes |
| UndoEngine.UndoHandler.Undo | freeplane/src/org/freeplane/core/undo/UndoHandler.java:231-242 | in-place update equal to UndoSpec.Undo; the actor's undo() goes through Invoke, so the flag is set while it runs, and it is cleared again after |
| UndoEngine.UndoHandler.Redo | freeplane/src/org/freeplane/core/undo/UndoHandler.java:176-183 | in-place update equal to UndoSpec.Redo; the actor's act() goes through Invoke, so the flag is set while it runs |
| UndoEngine.UndoHandler.StartTransaction | freeplane/src/org/freeplane/core/undo/UndoHandler.java:219-225 | in-place update equal to UndoSpec.StartTransaction |
| UndoEngine.UndoHandler.Commit | freeplane/src/org/freeplane/core/undo/UndoHandler.java:131-139 | in-place update equal to UndoSpec.Commit; `thrown` iff the transaction stack was empty |
| UndoEngine.UndoHandler.Rollback | freeplane/src/org/freeplane/core/undo/UndoHandler.java:192-206 | the undo loop reaches UndoSpec.Rollback, with the running flag set through every undo() call (a loop invariant) and cleared after; `thrown` iff the transaction stack was empty |
| IconRegistry.LastNamed | freeplane/src/main/java/org/freeplane/features/icon/IconStore.java:54-56 | the icon found carries the name asked for and is one of the group's icons; there is none iff no icon has that name |
| IconRegistry.LastNamedAt | freeplane/src/main/java/org/freeplane/features/icon/IconStore.java:54-56 | the icon at position j is the one the puts leave behind when no later icon shares its name |
| IconRegistry.Register | freeplane/src/main/java/org/freeplane/features/icon/IconStore.java:54-56 | the table's names after the puts are the old names plus the icons' names, and every icon still sits under its own name |
| IconRegistry.RegisterLookup | freeplane/src/main/java/org/freeplane/features/icon/IconStore.java:54-56 | looking a name up after the puts gives the last icon put under it, else the old entry (later put wins, other names untouched) |
| IconRegistry.AllIconsMembers | freeplane/src/main/java/org/freeplane/features/icon/IconStore.java:73-79 | an icon is listed iff one of the listed groups holds it |
| IconRegistry.ReplacedIconsUnlisted | freeplane/src/main/java/org/freeplane/features/icon/IconStore.java:52-79 | after a group is replaced, an icon held by neither the new group nor another group is no longer listed |
| IconRegistry.DistinctCardinality | freeplane/src/main/java/org/freeplane/features/icon/IconStore.java:66-68 | a group order without repeats has as many names as positions |
| IconRegistry.AddGroupConsistent | freeplane/src/main/java/org/freeplane/features/icon/IconStore.java:52-57 | addGroup keeps the tables consistent: order without repeats, each group and icon under its own name, every group icon registered |
| IconRegistry.IconStore.constructor | freeplane/src/main/java/org/freeplane/features/icon/IconStore.java:41-45 | three empty tables |
| IconRegistry.IconStore.AddGroup | freeplane/src/main/java/org/freeplane/features/icon/IconStore.java:52-57 | a new name joins the end of the order and an existing one keeps its place. The group is stored under its name and the loop of puts reaches Register. Each icon is found by getMindIcon under its name unless a later icon of the group shares it. Icons of a replaced group stay registered |
| IconRegistry.IconStore.AddUIIcon | freeplane/src/main/java/org/freeplane/features/icon/IconStore.java:59-61 | stored under its file name, groups and mind icons unchanged; getUIIcon of that file name returns it unless a mind icon of that name shadows it |
| IconRegistry.IconStore.GetGroups | freeplane/src/main/java/org/freeplane/features/icon/IconStore.java:66-68 | one group per stored name, in first-insertion order, and every stored group appears |
| IconRegistry.IconStore.GetMindIcons | freeplane/src/main/java/org/freeplane/features/icon/IconStore.java:73-79 | the loop builds the concatenation of the groups' icons in group order, which holds exactly the icons of the stored groups |
| IconRegistry.IconStore.GetUserIcons | freeplane/src/main/java/org/freeplane/features/icon/IconStore.java:84-86 | fails (the NullPointerException) iff there is no group "user"; otherwise gives that group's icons, all of which getMindIcons lists |
| IconRegistry.IconStore.GetMindIcon | freeplane/src/main/java/org/freeplane/features/icon/IconStore.java:92-100 | never fails, and the icon returned always carries the name asked for; a null or unknown name gives IconNotFound of that name |
| IconRegistry.IconStore.GetUIIcon | freeplane/src/main/java/org/freeplane/features/icon/IconStore.java:109-121 | succeeds iff the name is a mind-icon name or a UI-icon file name; mind icons win over UI icons; otherwise NotRegistered with that name |

## Left out

- The wall clock, `EventQueue.isDispatchThread()` and `EventQueue.invokeLater` are replaced by the `currentTime` and `onDispatchThread` parameters and the `EndOfTurn` operation. Threading and the timing of the event queue are not modelled.
- Time arithmetic is on unbounded integers; the source's `long` overflow is not modelled (it needs clock values near 2^63).
- Actors are abstract values (`Leaf` or `Compound`). Their effect on the document, their descriptions and the `CompoundActor` class are not part of this model. GetLastDescription returns the entry whose description is asked for, not the string. A compound's own `act()`/`undo()` order is not shown in the source, so the log records one call per entry.
- Actors never throw. The `finally` blocks that clear the running flag when an actor throws are not modelled.
- Aliasing is not modelled. Undo entries are values, so a `CompoundActor` mutated in place by a later fold is the same as replacing the entry with a new compound. GetGroups and GetUserIcons return snapshot sequences, whereas the source returns the live `values()` view of the group map and the group's own icon collection; later changes seen through those views are not captured.
- Commit and Rollback on an empty transaction stack end with `thrown` and the state the source leaves before its `NoSuchElementException`. The exception itself is not propagated.
- The `RedoAction`/`UndoAction` listeners and `getRedoAction`/`getUndoAction` only wrap `redo()` and `undo()`, so they are not modelled separately.
- Icon internals (image, path, translations) are not modelled. `IconGroup` is reduced to a name and a list of icons. `MindIcon` being a subclass of `UIIcon` is the `Icon` result type of GetUIIcon.
- The other files of the repository (frame controllers, filters, script proxies, writers) are not part of this model.
