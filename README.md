# clearup-file, modelled in Dafny

clearup-file is a desktop tool built on Electron. It looks for large files under a directory the user picks. It shows them in a filterable, sortable list, each with a cleaning advice. Then it deletes them, moves them to the trash, or moves them to another directory. Two processes share the work:

- **The main process** (`main.js`) runs the scan. A FIFO queue of directories is drained by at most eight concurrent `processDir` calls. The scan counts files, keeps an allow-list of the matched paths, sends the matches to the window in throttled batches, and sends progress and `done` messages. It also answers the `file:delete`, `file:trash` and `file:move` requests. Each request may only touch paths on the current scan's allow-list, and it is checked path by path.
- **The renderer** (`app/src/App.jsx`, `app/src/utils.js`) merges the match batches into the result list and labels each path with a cleaning level. It derives the visible list (`filtered`), keeps the selection, and drops the rows an operation removed.

The project has seven modules:

| file | module | models |
|---|---|---|
| `wrappers.dfy` | `Wrappers` | `Option` and `Result` |
| `strings.dfy` | `Strings` | the JavaScript string methods the code relies on: `startsWith`, `endsWith`, `includes`, `toLowerCase`, `trim`, `split` |
| `paths.dfy` | `Paths` | Node's `path.join`, `basename`, `dirname` and the root of `path.parse`, plus `isRootPath` |
| `scan_engine.dfy` | `ScanEngine` | `startScan` and the `scan:*` handlers. The closure's variables are the fields of the class `ScanSession`. Each method is one step the event loop can take. |
| `operation_gate.dfy` | `OperationGate` | `safeRename` and the three file handlers, over a file system given as a map from path to node |
| `file_category.dfy` | `FileCategory` | `CLEANING_LEVELS`, `analyzeFileCategory`, `FILE_TYPES`, `getFileType`, the label and colour tables, and `formatBytes` |
| `result_list.dfy` | `ResultList` | `onMatchBatch`, the `filtered` memo, the selection operations, and the list after a delete or a move |

The scan engine has no loop that Dafny could unroll into one computation. Node runs the `processDir` calls on one thread, and they interleave only where they wait: on `opendir`, on the next directory entry, and on `stat`. So `ScanSession` keeps each running call as the point where it waits (`Task`). Each method is one of the steps that can follow. `Valid()` is the invariant every step preserves:

- `running` equals the number of tasks, which is at most eight;
- the pending files are exactly the tasks waiting on `stat`;
- every match is at or above the threshold, is counted, and is on the allow-list, and nothing else is on it;
- every match has been sent or is still buffered, in discovery order;
- `done` is sent at most once, and then last.

`VisitAll` and `DrainDir` run the whole `for await` loop of one directory and state what the session gains from it.

The file handlers do their per-path loop as methods (`RunGate`). Each is proved equal to a recursive fold (`GateAll`), and the properties are proved about the fold.

## Model

| member | source | states |
|---|---|---|
| Paths.IsRootPath | main.js:37-40 | a path is its own `path.parse` root exactly when it is `/` or empty |
| Paths.JoinEntry | main.js:124 | an entry joined to a non-empty directory has that entry as its basename, differs from the directory, and is never a root |
| Paths.Basename | main.js:341 | the basename is the whole text after the last separator: it holds no separator, ends the path, and is preceded by a separator, or is the whole path when there is none |
| Strings.SplitJoin | app/src/utils.js:33 | joining the parts `split` yields with the separator gives back the string |
| Strings.SplitFields | main.js:95-97 | a string is one of the parts of a split exactly when it is a whole separator-delimited field of the input |
| Strings.TrimEmptyIff | app/src/App.jsx:113 | `trim()` gives the empty string exactly when every character is white space |
| ScanEngine.BytesThreshold | main.js:32-35 | the result is always positive; it is the given value when that is a number above zero, and 1 GiB otherwise |
| ScanEngine.CheckRoot | main.js:194-209 | the start goes ahead exactly when the root is a non-empty string that `stat` finds to be a directory; a missing root is refused first, then an unreadable one, then a non-directory |
| ScanEngine.ShouldIgnoreDirIff | main.js:94-107 | a directory is skipped exactly when `node_modules` or `.git` is a whole path segment, or it lies under one of the platform's system directories |
| ScanEngine.Percent | main.js:153-154 | progress is between 0 and 1, is 0 before any file, and is processed over processed plus pending |
| ScanEngine.ClosedLog | main.js:178-186 | closing hands over every buffered match before `done`, and `done` is the only `done` and the last message |
| ScanEngine.ScanSession.constructor | main.js:67-82 | a new session is valid: it runs unpaused, with its root as the single running task and every counter, list and log empty |
| ScanEngine.ScanSession.EmitBuffer | main.js:84-92 | the whole buffer is sent as one batch when it is non-empty and forced or 100 ms have passed; otherwise nothing changes; every match stays sent or buffered, in order |
| ScanEngine.ScanSession.StartQueued | main.js:170-177 | directories leave the queue from the front and become running tasks, in order, until eight run, the queue is empty, or the session is stopped or paused |
| ScanEngine.ScanSession.Close | main.js:178-186 | the session stops, the buffer is flushed, and `done` carries the final counts and the cancelled flag; the session has ended |
| ScanEngine.ScanSession.Pump | main.js:169-187 | starts queued directories oldest first; when nothing runs and nothing is queued it closes the session; counters, matches and the allow-list are unchanged |
| ScanEngine.ScanSession.Enqueue | main.js:164-167 | the directory joins the back of the queue, and the queue is pumped |
| ScanEngine.ScanSession.FinishTask | main.js:173-176 | a finished task leaves; the pump then starts queued directories, and the last task leaving an empty queue ends the scan |
| ScanEngine.ScanSession.OpenDir | main.js:110-115 | a directory that cannot be opened ends its task at once, and `done` follows when it was the last task and nothing is queued; an opened one yields its listing to iterate and sends nothing |
| ScanEngine.ScanSession.ProcessEntry | main.js:116-123 | the loop ends when the entries run out, when the session is stopped (then `cancelled` is set), or when it is paused (dropping the entries not yet read); otherwise the next entry is visited; a loop that ends in the last task with nothing queued is followed by `done`, and any other end sends nothing |
| ScanEngine.ScanSession.Visit | main.js:124-131 | symbolic links and other kinds are skipped; a subdirectory that is not ignored is enqueued; a regular file becomes pending while `stat` runs |
| ScanEngine.ScanSession.StatFailed | main.js:133-139 | a file `stat` cannot read counts as processed and is no longer pending |
| ScanEngine.ScanSession.RecordMatch | main.js:140-149 | a match joins the allow-list, the count, the log and the buffer, and the buffer goes out if 100 ms have passed |
| ScanEngine.ScanSession.StatMatched | main.js:140-159 | a file at or above the threshold is recorded as a match, counted as processed, and reported in a progress message |
| ScanEngine.ScanSession.StatBelow | main.js:151-159 | a file below the threshold is counted and reported, and is not recorded |
| ScanEngine.ScanSession.ReportProcessed | main.js:151-159 | the file moves from pending to processed, and a progress message with the new counts is sent |
| ScanEngine.ScanSession.CountProcessed | main.js:136-137 | the file moves from pending to processed |
| ScanEngine.ScanSession.NextEntry | main.js:116-160 | on a running session, one entry adds its match (if any), its file count and its subdirectory (if any) to the session, and the task moves past it; the messages sent are the due match batch and a progress message when `stat` reads a regular file, and nothing otherwise |
| ScanEngine.ScanSession.VisitAll | main.js:116-161 | over a whole listing, the session gains exactly the listing's matches in order, its file count, and its subdirectories at the back of the queue; messages are only appended, one progress message for each regular file `stat` reads |
| ScanEngine.ScanSession.DrainDir | main.js:109-162 | `processDir` on an opened directory gains what `VisitAll` states (its matches, their paths on the allow-list, its file count, its subdirectories, one progress message per file `stat` reads, with messages only appended), and then the task ends; when it was the only task, nothing was queued and the directory has no subdirectory to scan, `done` follows, and otherwise the session keeps running |
| ScanEngine.ScanSession.Stop | main.js:212-215 | the session is no longer running, and the invariant holds |
| ScanEngine.ScanSession.Pause | main.js:217-220 | the session is paused, and the invariant holds |
| ScanEngine.ScanSession.Resume | main.js:222-224 | the session is no longer paused, and the invariant holds |
| ScanEngine.ScanSession.DeferredPump | main.js:225-229 | the callback scheduled by resume pumps only a session that still runs, and otherwise changes nothing; on a running session it starts queued directories oldest first until eight run or the queue is empty (unless paused again), sends `done` when nothing runs and nothing is queued, and otherwise sends nothing |
| OperationGate.StatNode | main.js:321-329 | `stat` never answers with a link, and it answers with the node itself for a path that is not a link |
| OperationGate.SafeRename | main.js:51-65 | the step-by-step rename gives exactly the error and file system of `RenameOutcome` |
| OperationGate.RenameMoves | main.js:51-65 | a rename that succeeds, directly or by copy, leaves the file under the destination and not under the source; no other path changes except the destination's directory |
| OperationGate.RenameFailsCleanly | main.js:62-63 | a rename error other than `EXDEV` is raised and changes nothing |
| OperationGate.CopyKeptOnUnlinkFailure | main.js:56-60 | when the copy succeeds but the unlink fails, the error is raised and the file exists under both names |
| OperationGate.GateStep | main.js:331-348 | one turn of a handler loop gives exactly `GateOne`'s result and file system |
| OperationGate.RunGate | main.js:240-261 | a handler's loop gives exactly the fold `GateAll` over the paths |
| OperationGate.Delete | main.js:234-262 | without a non-empty path list the request fails with `No paths` and changes nothing; otherwise it gives the fold's results |
| OperationGate.Trash | main.js:264-288 | without a non-empty path list the request fails with `No paths` and changes nothing; otherwise it gives the fold's results |
| OperationGate.CheckDestination | main.js:318-329 | a destination passes exactly when it is a non-empty string that `stat` finds to be a directory; the three refusals come in the code's order |
| OperationGate.Move | main.js:312-351 | `No paths` comes first, then the destination errors, and each changes nothing; otherwise the fold's results with the checked destination |
| OperationGate.GateAllShape | main.js:240-261 | there is one result per requested path, in request order |
| OperationGate.GateAllChecks | main.js:241-253 | a path off the allow-list is refused as not allowed; only delete forbids root paths; a success implies the path was allowed (and, for delete, not a root); a moved file goes to the destination under its own basename |
| OperationGate.RemovesExactlySucceeded | main.js:249-259 | delete and trash remove exactly the paths reported done, each of which was a regular file, and nothing else changes |
| OperationGate.DeleteTwice | main.js:241-256 | deleting the same allowed file twice in one request reports the second attempt as not a file, since the allow-list keeps the path |
| FileCategory.LevelPriorities | app/src/utils.js:66-71 | the four levels' priorities are 1 to 4, strictly increasing |
| FileCategory.AnalyzeFileCategory | app/src/utils.js:73-129 | the advice is always one of the four levels |
| FileCategory.AnalyzeIsFirstMatch | app/src/utils.js:75-128 | for a non-empty path, the advice is the level of the first rule in the table that the lower-cased path satisfies |
| FileCategory.FirstMatchUnknownIff | app/src/utils.js:128 | the advice is `unknown` exactly when no rule applies |
| FileCategory.AnalyzeIgnoresCase | app/src/utils.js:75 | a path and its lower-cased form get the same advice |
| FileCategory.DangerIff | app/src/utils.js:79-88 | a path is `danger` exactly when it is under a system root, or in the system library and not under caches or logs |
| FileCategory.SafeIff | app/src/utils.js:90-108 | a path is `safe` exactly when no system rule applies and it is developer output, a user cache or log, in the trash, or an installer or archive in downloads |
| FileCategory.ExtensionIsLastPart | app/src/utils.js:33 | the extension is the lower-cased text after the last dot, or the whole name when there is no dot |
| FileCategory.FindTypeOf | app/src/utils.js:23-31 | an extension listed under a type is found as that type |
| FileCategory.FileTypeIff | app/src/utils.js:32-38 | `getFileType` answers a type exactly when that type lists the extension, and `other` exactly when no list does |
| FileCategory.TypeNamesDistinct | app/src/utils.js:23-31 | different types have different names |
| FileCategory.LabelsAndColors | app/src/utils.js:40-64 | every type has a label and an entry in the colour table; different types have different labels; an unknown type string labels itself and gets the colour of `other` |
| FileCategory.FormatBytes | app/src/utils.js:1-10 | the unit is the largest power of 1024 not above the size, capped at TB; value times unit size is the size; bytes are shown without decimals and larger units with two |
| ResultList.UnseenIff | app/src/App.jsx:38-41 | the records kept from a batch are exactly those whose path was not seen before, and each carries the advice of its own path |
| ResultList.UnseenSplits | app/src/App.jsx:41 | the kept records come in the batch's order: a batch split in two keeps the first part's records, then the second part's |
| ResultList.UnseenOne | app/src/App.jsx:41 | a single record is kept, with its advice, exactly when its path was not seen before |
| ResultList.UnseenCount | app/src/App.jsx:41 | a record with a new path is kept as often as the batch holds it |
| ResultList.MergeBatchKeepsPrefix | app/src/App.jsx:36-43 | merging a batch keeps the old list in front and appends every record of the batch with a new path, and nothing else |
| ResultList.BatchDuplicatesKept | app/src/App.jsx:39-42 | merging adds each record with a new path as often as the batch repeats it |
| ResultList.MinBytesScale | app/src/App.jsx:89 | a threshold in GB is 1024 times the same value in any other unit; the threshold grows with the value and is positive exactly when the value is |
| ResultList.QueryOf | app/src/App.jsx:88-115 | the search text is switched off exactly when the control holds only white space; the extensions are lower-case and non-empty |
| ResultList.FilterByIff | app/src/App.jsx:96-116 | `filter` keeps each passing item as often as the input holds it, and no other item |
| ResultList.FilterByAppend | app/src/App.jsx:96-116 | `filter` keeps the input's order: filtering a list split in two filters each part |
| ResultList.FilterStagesIff | app/src/App.jsx:96-116 | the filter stages keep an item exactly when it passes every test that is switched on, as often as the input holds it |
| ResultList.FilteredSpec | app/src/App.jsx:88-125 | `filtered` holds each item that passes every switched-on filter, as often as the list does, and nothing else |
| ResultList.FilteredOrdered | app/src/App.jsx:117-123 | `filtered` is ordered by the comparator |
| ResultList.NeutralFiltersKeepBySize | app/src/App.jsx:88-116 | with every control neutral, `filtered` keeps exactly the items at or above the size threshold |
| ResultList.PathCompare | app/src/App.jsx:120 | the path comparison is -1, 0 or 1, and is 0 exactly for equal paths |
| ResultList.CompareFlips | app/src/App.jsx:117-123 | swapping the two items negates the comparison |
| ResultList.SortOrdered | app/src/App.jsx:117-123 | the sort yields the comparator's order |
| ResultList.SortBy | app/src/App.jsx:117-123 | the sort is a permutation of its input |
| ResultList.UnknownKeyKeepsOrder | app/src/App.jsx:118-122 | with an unknown sort key, every comparison is equal and the list keeps its order |
| ResultList.ToggleSelect | app/src/App.jsx:274-279 | toggling flips the path's membership and leaves every other path alone |
| ResultList.ToggleSelectAllSpec | app/src/App.jsx:281-290 | when every shown row is checked, the shown paths are removed from the selection; otherwise they are all added; rows not shown keep their state |
| ResultList.ToggleSelectAllTwice | app/src/App.jsx:281-290 | select-all followed by select-all restores a selection that held none of the shown rows |
| ResultList.InvertSpec | app/src/App.jsx:215-220 | inverting selects exactly the shown paths that were not selected, and drops selected paths that are not shown |
| ResultList.AfterOperationSpec | app/src/App.jsx:339-345 | after a delete, or a move (app/src/App.jsx:360-366 runs the same code), the list and the selection lose exactly the paths reported done, and every other row stays with all its copies |
| ResultList.AfterOperationKeepsOrder | app/src/App.jsx:341 | the rows that stay keep their order: the list split in two leaves what each part alone would leave |
| ResultList.ResultsSplit | app/src/App.jsx:346-348 | every result is either done or failed, and the status says "completed" exactly when every path was done |
| ResultList.DeleteThenList | app/src/App.jsx:330-345 | after a delete, a row leaves the list exactly when its file has left the file system |

## Left out

- **Concurrency.** There is no real event loop. The tasks' interleaving is whatever order of step methods a caller picks. A `ghost` out-parameter `taken` names the directories a step took from the queue.
- **Other sessions.** The model holds one session. `startScan` clearing the previous session's `running` flag (main.js:68-70) is not modelled, nor are stale tasks of an old session reading the new `currentScan`.
- **Inputs instead of effects:**
  - the clock (`Date.now`) is a `now` parameter, and the scan id is a parameter;
  - the file system the scan reads is a listing map;
  - `win.webContents.send` appends to the event log `events`;
  - the `stat` answer of each entry is carried in the listing.
- **ScanEngine.ScanSession.DrainDir, ScanEngine.ScanSession.VisitAll, ScanEngine.ScanSession.NextEntry:** use one `now` across the awaits they span, for all the batches they may send.
- **File operations:**
  - The file system is a map from path to node. Trashing a file removes it from the map.
  - The outcome of each foreign call (`unlink`, `trashItem`, `rename`, `mkdir`, the stream copy) is given by an `Env` of functions.
  - A copy that fails part-way leaves nothing at the destination in the model.
  - `mkdir` with `recursive` creates only the destination's own directory.
  - `stat` follows at most 40 links.
- **Text and paths:**
  - `toLowerCase` is ASCII-only.
  - The white space `trim` removes is the common ASCII set plus no-break space and the byte-order mark.
  - `path.join` inserts one separator. It does not normalise `.` and `..`, does not collapse repeated separators (`path.join('/a//', 'b')` is `/a/b`), and does not turn an empty result into `.`.
  - `path.parse` roots are POSIX roots.
- Paths.Basename: takes one separator character. Node's `path.basename` also drops trailing separators, and on win32 it accepts `/` as well as `\`. Neither case arises for allow-listed paths, which `path.join` builds.
- **ResultList.PathCompare:** compares character codes in place of `localeCompare`.
- **Numbers:**
  - Sizes and times are integers.
  - `Percent` and `FileCategory.FormatBytes` work on exact reals, and `FormatBytes` gives the value, decimals and unit instead of the `toFixed` string.
  - `formatDate` (app/src/utils.js:12-21) is clock-dependent formatting and is not part of this model.
- ScanEngine.BytesThreshold: takes an integer value. `bytesThreshold` also passes on any positive number, fractional values and `Infinity` included.
- ResultList.MinBytes: takes an integer threshold value.
- **The label and colour tables** are maps of their own keys only. Inherited object keys such as `constructor` are not modelled.
- **Renderer code not modelled:**
  - `onMatch` (app/src/App.jsx:32-35): the main process never sends single matches.
  - The confirmation dialogs, the keyboard shortcuts that call the same operations, and the early returns on an empty selection.
- **Other main-process code:** `file:reveal`, `file:open`, `dialog:openDir` and the window set-up hand their work to Electron. preload.js and vite.config.js are not part of this model.

## Behaviour worth knowing

- A delete does not remove the path from the allow-list. Deleting the same file again in one request is refused as "Not a file" (`OperationGate.DeleteTwice`).
- Pausing ends a directory's loop and drops its unread entries. Resuming does not bring them back.
- `file:trash` has no root-path check; only `file:delete` has one.
- A stop that leaves directories queued never sends `done`, because the pump stops starting tasks and the queue never empties.
- A threshold that is not a positive number becomes 1 GiB.
- `isRootPath("")` is true, because the root of the empty path is empty.
