# ClipTimer task engine in Dafny

ClipTimer is a menu-bar time tracker. The user pastes a list of tasks, one per
line and optionally followed by a time such as `Design: 1:30:45`, starts and
pauses them one at a time, and copies a summary back out. This project models
the engine behind that: `TaskStore` and the `H:MM:SS` formatter of `Task.swift`.

- **Text** (`text.dfy`): Foundation's trimming set, ICU's `\s` and line
  terminators, `split(separator: "\n")` (empty pieces dropped, and a CR LF pair left
  whole, because Swift reads it as one `Character`),
  `joined(separator: "\n")`, and decimal rendering with `%02d` padding.
- **TaskModel** (`task.dfy`): the `Task` record `(id, name, elapsed,
  isCompleted)`, `hms`, its blinking menu-bar variant, and a task's current
  elapsed time.
- **LineParser** (`line_parser.dfy`): `parseTaskLine`,
  `parseItemSymbolAndText`, `createTask` and `compactMap` over the pasted lines.
  The time regular expression `^(.*?):\s*(\d{1,2})(?::(\d{2}))?(?::(\d{2}))?\s*$`
  is written out by hand. The lazy name group becomes a search for the first
  colon whose remainder matches. The lemmas prove both that this reading is
  sound and that it finds every match.
- **SymbolPolicy** (`symbol_policy.dfy`): the list-wide item symbol that
  `detectAndSetItemSymbol` picks.
- **TaskList** (`task_list.dfy`): the completed-last reordering, and the list
  that `delete`, `finish`, `replaceTasks` and `updateOrAddTasks` each produce.
  Each is a specification function with lemmas. The two loops of the source
  are methods proved against those functions.
- **Timing** (`timing.dfy`): `pauseCurrentActiveTask` as a function on
  (tasks, active id, start time), and `totalElapsed`.
- **Summary** (`summary.dfy`): `taskLines`, `summaryText` and the text that
  `copySummaryToClipboard` builds.
- **Store** (`store.dfy`): the `TaskStore` class. Its fields are updated in
  place by `toggle`, `pauseActiveTask`, `restartLastPausedTask`, `delete`,
  `finish`, `cutAllTasks`, `replaceTasks` and `addTasks`. Every command goes
  through `mutateTasks`. The class invariant `Valid()` says:
  - the start time is set exactly when a task runs;
  - completed tasks come last;
  - an empty list has no item symbol;
  - every id was issued.

How the environment is modelled:
- Time is whole seconds from an injected clock `now`.
- `UUID()` is a counter `nextId`.
- The pasteboard is a returned string.
- Localized labels are their English text.

Behaviours of the code that the model keeps and the lemmas make visible:
- `createTask` runs the symbol split a second time, so a line may lose two
  leading symbols. `"- - x"` names its task `x` (`ParseDoubleSymbol`).
- `replaceTasks` gives every parsed line the id of the first listed task of
  the same name. Two pasted lines with one existing name therefore share an
  id (`MergedSharesIds`).
- `pauseCurrentActiveTask` does nothing when the running id is no longer
  listed. `delete` and `cutAllTasks` leave the running id in place.
- `restartLastPausedTask` checks only that the remembered task is listed, not
  whether it is completed.
- `summaryText` ends with a `Working time` line and the pasteboard text with
  a `Total` line.
- Hours are not capped. From 100 hours on, the summary line no longer parses
  back, because the hour group takes at most two digits
  (`HmsBeyondHundredHoursNoMatch`).

## Model

| member | source | states |
|---|---|---|
| Text.TrimEmptyIffBlank | ClipTimer/TaskStore.swift:250-251 | the trim of a line is empty exactly when every character is in `whitespacesAndNewlines` |
| Text.TrimIdempotent | ClipTimer/TaskStore.swift:308-309 | trimming an already trimmed line changes nothing |
| Text.Show | ClipTimer/Task.swift:22-25 | the interpolated `Int` is a digit string of value `n`, with no leading zero and one or two digits below 100 |
| Text.Pad2 | ClipTimer/Task.swift:25 | `%02d` gives exactly two digits of value `n` |
| Text.Trim | ClipTimer/TaskStore.swift:250 | the result is no longer than the input, and when it is non-empty it neither starts nor ends with a `whitespacesAndNewlines` character |
| Text.SplitLines | ClipTimer/TaskStore.swift:178 | every piece is non-empty and holds no break: no `\n` other than one right after a `\r` |
| Text.CrLfKeepsOneLine | ClipTimer/TaskStore.swift:178 | a non-empty text in which every `\n` follows a `\r` comes back as one piece, because `split` never separates a CR LF pair |
| Text.SplitOneLine | ClipTimer/TaskStore.swift:178 | a non-empty text without `\n` comes back as one piece |
| Text.SplitJoin | ClipTimer/TaskStore.swift:178 | splitting at newlines gives back lines that were joined with newlines, when they are non-empty, newline-free and do not end in `\r` |
| Text.SplitAfterJoin | ClipTimer/TaskStore.swift:127-128 | a joined block, a newline and more text split into the block's lines followed by the rest's lines |
| TaskModel.Hms | ClipTimer/Task.swift:20-26 | the text ends in `:MM:SS`: at least seven characters, colons six and three places from the end, and a digit last |
| TaskModel.HmsBlink | ClipTimerTests/TaskTests.swift:24-32 | with the colon shown it is `hms`; otherwise it has the same length and a space where the minutes–seconds colon stands |
| TaskModel.HmsOfIntervalTruncates | ClipTimer/Task.swift:21 | every interval from `t` up to but excluding `t + 1` seconds shows as `hms` of `t`: `Int(self)` drops the fraction |
| TaskModel.HmsFields | ClipTimer/Task.swift:20-26 | `hms(t)` is hours, `:`, two minute digits, `:`, two second digits; minutes and seconds are below 60, hours have no leading zero, and the three fields give back `t` |
| TaskModel.HmsHourWidth | ClipTimer/Task.swift:22-25 | the string is at most 8 characters below 100 hours and at least 9 from 100 hours on (hours are not capped) |
| TaskModel.HmsBlinkSeparator | ClipTimerTests/TaskTests.swift:24-32 | `hms(showSecondsColon:)` is `hms` with the colon shown, and otherwise differs only in the minutes–seconds separator, which is a space |
| TaskModel.HmsZeroExample | ClipTimerTests/TaskTests.swift:17 | 0 shows as `0:00:00` |
| TaskModel.HmsSecondsExample | ClipTimerTests/TaskTests.swift:18 | 59 shows as `0:00:59` |
| TaskModel.HmsMinuteExample | ClipTimerTests/TaskTests.swift:19 | 60 shows as `0:01:00` |
| TaskModel.HmsHourExample | ClipTimerTests/TaskTests.swift:20 | 3661 shows as `1:01:01` |
| TaskModel.HmsFieldOrderExample | ClipTimerTests/TaskTests.swift:21 | 7323 shows as `2:02:03` |
| TaskModel.HmsDayExample | ClipTimerTests/TaskTests.swift:36-37 | 86400 shows as `24:00:00` |
| TaskModel.HmsIntervalExample | ClipTimerTests/TaskTests.swift:40 | 59.9 is truncated to `0:00:59` |
| TaskModel.HmsBlinkExample | ClipTimerTests/TaskTests.swift:28-31 | 3661 shows as `1:01:01` with the colon and `1:01 01` without it |
| TaskModel.CurrentElapsed | ClipTimer/TaskStore.swift:97-100 | a task shows its stored seconds, plus exactly `now - start` when it is the running task and a start time is set |
| LineParser.SymbolShape | ClipTimer/TaskStore.swift:31 | every supported symbol is a non-space, non-colon, non-`~` character followed by a space or a tab |
| LineParser.OnlySymbol | ClipTimer/TaskStore.swift:31 | a text starts with at most one supported symbol, so the order of the list does not decide which one is found |
| LineParser.FirstSymbolFrom | ClipTimer/TaskStore.swift:313-318 | the symbol found is one the text starts with, and no symbol earlier in the list matches |
| LineParser.ParseItemSymbolAndText | ClipTimer/TaskStore.swift:308-322 | no symbol exactly when the trimmed line is empty or starts with none of the supported symbols; otherwise the symbol is the supported one it starts with (the first listed, and the only one), and the text is the rest of the trimmed line, trimmed again; with no symbol the text is the trimmed line; the text is always trimmed |
| LineParser.ParseTaskLine | ClipTimer/TaskStore.swift:249-255 | no task exactly when the line is blank after trimming; otherwise a task with the drawn id and a trimmed name |
| LineParser.ParseContent | ClipTimer/TaskStore.swift:257-298 | the task has the drawn id and a trimmed name |
| LineParser.StripCompletionMarker | ClipTimer/TaskStore.swift:292-297 | completed exactly when the text starts and ends with `~~`; then the name is the text between the markers, and otherwise the whole text |
| LineParser.CreateTask | ClipTimer/TaskStore.swift:302-305 | the created task's name is trimmed |
| LineParser.MatchTail | ClipTimer/TaskStore.swift:40 | a match has a lead of `\s` characters, a first group of one or two digits and a trail of `\s` characters |
| LineParser.MatchTailWellFormed | ClipTimer/TaskStore.swift:40 | a match fills the groups as the pattern allows: spaces, one or two digits, optional `:dd` groups filled from the left, spaces |
| LineParser.MatchTailSound | ClipTimer/TaskStore.swift:40 | a match covers exactly the text after the colon |
| LineParser.MatchTailComplete | ClipTimer/TaskStore.swift:40 | every well-formed filling of the groups is found again in its own rendering, so the match is unique |
| LineParser.LongHoursRejected | ClipTimer/TaskStore.swift:40 | a run of three or more digits after any run of `\s` characters is not a match, whatever follows it |
| LineParser.FindTimeMatch | ClipTimer/TaskStore.swift:258-261 | a match reports a colon of the content, with no line terminator before it, whose remainder matches with the reported groups |
| LineParser.FirstColonFound | ClipTimer/TaskStore.swift:259-261 | the lazy `(.*?):` stops at a colon with no line terminator before it, whose remainder matches with the reported groups |
| LineParser.FirstColonIsFirst | ClipTimer/TaskStore.swift:259-261 | no earlier colon reachable without crossing a line terminator has a matching remainder |
| LineParser.FindTimeMatchAt | ClipTimer/TaskStore.swift:259-261 | conversely, the first matching colon is the one found |
| LineParser.CompactMapOfKept | ClipTimer/TaskStore.swift:184 | `compactMap` keeps one result per accepted line, in order, the k-th drawing id `firstId + k` |
| LineParser.ParseLinesOfNonBlank | ClipTimer/TaskStore.swift:212 | the parsed tasks are the parses of the non-blank lines, in order, with ids `firstId`, `firstId + 1`, … |
| LineParser.GroupSeconds | ClipTimer/TaskStore.swift:268-287 | the last group present is the seconds: below 60 it is the remainder of the total modulo 60; a first group alone is the seconds |
| LineParser.FormatTaskLine | ClipTimer/TaskStore.swift:117-123 | a summary line starts with the item symbol and ends with `hms` of the time, with the name and ": " between them |
| LineParser.ParseLineWithTime | ClipTimer/TaskStore.swift:259-288 | a symbol, a plain (optionally `~~`-marked) name, a colon and a time suffix parse to that name, flag and the suffix's `H*3600+M*60+S`, `M*60+S` or `S` |
| LineParser.ParseLineWithoutTime | ClipTimer/TaskStore.swift:291-298 | a symbol and a plain (optionally marked) name with no time parse to that name and flag with 0 seconds |
| LineParser.HmsIsMatch | ClipTimer/Task.swift:20-26 | below 100 hours, the text after a summary line's colon is a match whose groups give back the seconds |
| LineParser.FormatParseRoundTrip | ClipTimer/TaskStore.swift:268-287 | below 100 hours, parsing a summary line gives back the name, the seconds and the completion flag, for any supported symbol or none |
| LineParser.HmsBeyondHundredHoursNoMatch | ClipTimer/TaskStore.swift:40 | from 100 hours on, the text after a summary line's colon is not a match |
| LineParser.ParseHoursExample | ClipTimerTests/TaskStoreFormattingTests.swift:288-292 | `name: 1:30:45` gives 5445 seconds |
| LineParser.ParseMinutesExample | ClipTimerTests/TaskStoreFormattingTests.swift:294-298 | `name: 5:30` gives 330 seconds |
| LineParser.ParseCompletedExample | ClipTimer/TaskStore.swift:263-266 | `~~name~~: 0:30` gives a completed task of 30 seconds named without the markers |
| LineParser.ParseSymbolExample | ClipTimerTests/TaskStoreTests.swift:133-142 | `- Fix bug-123` gives `Fix bug-123`: the leading symbol goes and the later `-` stays |
| LineParser.ParseDoubleSymbol | ClipTimer/TaskStore.swift:302-305 | a second symbol right after the first is removed too, because `createTask` splits the symbol again |
| SymbolPolicy.DetectedSymbol | ClipTimer/TaskStore.swift:342 | the symbol a batch sets is "" or one of the supported symbols |
| SymbolPolicy.FirstDetected | ClipTimer/TaskStore.swift:342 | `compactMap(detect).first ?? ""`: "" when nothing is detected, otherwise the first detection in line order |
| SymbolPolicy.FirstDetectedIn | ClipTimer/TaskStore.swift:342 | with detections drawn from a list without "", the result is "" exactly when nothing is detected and otherwise one of the list |
| SymbolPolicy.DetectedSymbolSpec | ClipTimer/TaskStore.swift:335-343 | the detected symbol is "" exactly when no line carries one, and otherwise the supported symbol of the first line that does |
| TaskList.Select | ClipTimer/TaskStore.swift:72-78 | the selected tasks are exactly the listed tasks the predicate keeps, and there are no more of them than listed |
| TaskList.SelectSplit | ClipTimer/TaskStore.swift:72-78 | what a predicate keeps and what its negation keeps together make up the list, with multiplicity |
| TaskList.CompletedLast | ClipTimer/TaskStore.swift:69-80 | the reordered list holds exactly the tasks of the list |
| TaskList.CompletedLastPermutation | ClipTimer/TaskStore.swift:69-80 | the reordering is a permutation of the list |
| TaskList.CompletedLastOrdered | ClipTimer/TaskStore.swift:69-80 | after the reordering every completed task comes after every incomplete one |
| TaskList.CompletedLastKeepsGroups | ClipTimer/TaskStore.swift:69-80 | the incomplete tasks, and separately the completed ones, keep their relative order |
| TaskList.CompletedLastOfOrdered | ClipTimer/TaskStore.swift:69-80 | an already ordered list is left unchanged |
| TaskList.CompletedLastIdempotent | ClipTimer/TaskStore.swift:59-63 | reordering twice is reordering once |
| TaskList.MoveCompletedTasksToEnd | ClipTimer/TaskStore.swift:69-80 | the loop of appends to two lists yields the incomplete tasks then the completed ones, in order |
| TaskList.SelectKeepsOrder | ClipTimer/TaskStore.swift:370-374 | removing tasks from an ordered list keeps it ordered |
| TaskList.FirstIndexFrom | ClipTimer/TaskStore.swift:105 | `firstIndex(where:)`: the index found satisfies the predicate and no earlier one does; none found means none does |
| TaskList.IndexOfNameIs | ClipTimer/TaskStore.swift:220 | the first position with a name is the one found |
| TaskList.IndexOfNameAbsent | ClipTimer/TaskStore.swift:220 | a name no task has is not found |
| TaskList.WithoutId | ClipTimer/TaskStore.swift:370-374 | a task is in the result exactly when it is listed and carries another id |
| TaskList.DeleteSpec | ClipTimer/TaskStore.swift:370-374 | exactly the tasks with the id go; the rest stay with their multiplicity, and the list stays ordered |
| TaskList.DeleteAbsent | ClipTimer/TaskStore.swift:370-374 | deleting an id no task has changes nothing |
| TaskList.Finished | ClipTimer/TaskStore.swift:148-159 | the list keeps its length, and each task in it is a listed one or a completed task with the id |
| TaskList.FinishSpec | ClipTimer/TaskStore.swift:148-159 | after the reordering, the first task with the id is last and completed, and the others keep their order; a missing id changes nothing |
| TaskList.RemoveKeepsOrder | ClipTimer/TaskStore.swift:154 | taking one task out of an ordered list keeps it ordered |
| TaskList.CompletedLastOfCompletedTail | ClipTimer/TaskStore.swift:155-156 | a completed task appended at the end stays at the end |
| TaskList.Merged | ClipTimer/TaskStore.swift:187-199 | the merged list has one task per parsed line |
| TaskList.MergedSpec | ClipTimer/TaskStore.swift:186-197 | the merged tasks have the parsed names, elapsed times and flags, in order; each takes the id of the first listed task of its name, or keeps its fresh id |
| TaskList.ReuseIds | ClipTimer/TaskStore.swift:187-197 | the loop builds exactly the merged list |
| TaskList.MergedSharesIds | ClipTimer/TaskStore.swift:189-192 | two pasted lines named like one listed task both take its id |
| TaskList.LastNamed | ClipTimer/TaskStore.swift:219-220 | the last parsed task with a name is one of them, and there is none exactly when no parsed task has the name |
| TaskList.Upsert | ClipTimer/TaskStore.swift:219-236 | the list grows by at most one task, and a task added at the end is the parsed task itself |
| TaskList.UpsertAll | ClipTimer/TaskStore.swift:218-238 | the list grows by at most one task per parsed task |
| TaskList.UpsertAllSpec | ClipTimer/TaskStore.swift:218-238 | listed tasks keep position, id and name, and none is removed; the first task of a name takes the elapsed time and flag of the last parsed task of that name; later namesakes are untouched; past the old end comes exactly one task per parsed name the list lacked, in order of first occurrence, each `AppendedFor` its name |
| TaskList.UpsertAllKeeps | ClipTimer/TaskStore.swift:218-238 | listed tasks keep position, id and name; appended tasks carry parsed ids and names the list did not have |
| TaskList.NewNamesSpec | ClipTimer/TaskStore.swift:218-238 | the new names are parsed names the list lacks; every parsed name the list lacks is among them; they are in strictly increasing order of first occurrence, so none repeats |
| TaskList.UpsertAllTail | ClipTimer/TaskStore.swift:218-238 | the list grows by the number of new names, and past the old end the k-th task carries the k-th new name and is the task `AppendedFor` it: the first parsed task of the name with the elapsed time and flag of the last one |
| TaskList.UpsertAllAppends | ClipTimer/TaskStore.swift:218-238 | what the loop appends: one task per parsed name the list lacked and nothing else, in order of first occurrence, each the first parsed task of its name carrying the last one's elapsed time and flag |
| TaskList.UpsertAllUpdates | ClipTimer/TaskStore.swift:220-232 | the first task of each name takes the values of the last parsed task of that name; the others are unchanged |
| Timing.Pause | ClipTimer/TaskStore.swift:103-114 | every task keeps its id, name and flag, and no stored time shrinks; either nothing changes or nothing runs afterwards |
| Timing.TotalElapsed | ClipTimer/TaskStore.swift:93-95 | the total is at least the stored seconds, and equals them when nothing runs |
| Timing.PauseKeepsShownTimes | ClipTimer/TaskStore.swift:103-114 | when the running id is carried by at most one task, pausing changes no task's shown time (the running seconds move into the stored time); a pause that acts leaves nothing running |
| Timing.PauseIdempotent | ClipTimer/TaskStore.swift:103-106 | pausing twice is pausing once |
| Timing.PauseKeepsTotal | ClipTimer/TaskStore.swift:103-114 | when the running id is carried by at most one task, pausing keeps the working time |
| Timing.TotalElapsedByParts | ClipTimer/TaskStore.swift:93-95 | the total is the stored seconds plus the running interval once for every task with the running id |
| Timing.TotalOfSameShown | ClipTimer/TaskStore.swift:93-95 | lists whose tasks show the same times have the same total |
| Timing.TotalAppend | ClipTimer/TaskStore.swift:93-95 | the total of a concatenation is the sum of the totals |
| Timing.TotalOfSplit | ClipTimer/TaskStore.swift:93-95 | the totals of what a predicate keeps and what its negation keeps add up to the whole |
| Timing.TotalOfCompletedLast | ClipTimer/TaskStore.swift:59-63 | the reordering in `mutateTasks` does not change the working time |
| Summary.TaskLines | ClipTimer/TaskStore.swift:117-123 | one summary line per task |
| Summary.TaskLinesAreLines | ClipTimer/TaskStore.swift:117-123 | each summary line is non-empty, newline-free and ends in a digit of its time, when the symbol and names are newline-free |
| Summary.SummaryText | ClipTimer/TaskStore.swift:125-129 | the text is `No tasks yet` exactly when the list is empty |
| Summary.SummaryLines | ClipTimer/TaskStore.swift:125-129 | split into lines, the summary is the task lines in list order, then the `Working time` line |
| Summary.LinesThenLabel | ClipTimer/TaskStore.swift:127-128 | lines, a blank line and a labelled line split back into the lines and the labelled line |
| Summary.ClipboardSummary | ClipTimer/TaskStore.swift:380-385 | the pasteboard text is `No tasks yet` exactly when the list is empty |
| Summary.TaskSummaryNonEmpty | ClipTimer/TaskStore.swift:381-383 | the joined task lines are empty only for an empty list, since every line holds at least ": " and a time |
| Summary.ClipboardSummarySpec | ClipTimer/TaskStore.swift:380-385 | for any names, the pasteboard text is `No tasks yet` when the list is empty and otherwise the task lines followed by the `Total` line |
| Summary.TaskLinesParseBack | ClipTimer/TaskStore.swift:117-123 | every summary line parses back to its task's name, shown time and flag (plain names, supported symbol, under 100 hours) |
| Store.ParsedIds | ClipTimer/TaskStore.swift:184 | the tasks of a batch draw fresh ids in `[nextId, nextId + count)` |
| Store.TaskStore.constructor | ClipTimer/TaskStore.swift:14-20 | a new store is empty, idle and valid |
| Store.TaskStore.DetectAndSetItemSymbol | ClipTimer/TaskStore.swift:335-343 | a replace always takes the lines' symbol; an add only when the list has none |
| Store.TaskStore.ResetItemSymbolIfNoTasks | ClipTimer/TaskStore.swift:346-350 | an empty list loses its item symbol; nothing else changes |
| Store.TaskStore.MutateTasks | ClipTimer/TaskStore.swift:59-66 | the new list is the mutated list with completed tasks last; the symbol is cleared when it is empty; the invariant holds again |
| Store.TaskStore.PauseCurrentActiveTask | ClipTimer/TaskStore.swift:103-114 | the clock state becomes `Pause` of the old one |
| Store.TaskStore.Toggle | ClipTimer/TaskStore.swift:132-146 | a completed task changes nothing; the running task is paused and remembered; any other task starts now after the running one is paused |
| Store.TaskStore.PauseActiveTask | ClipTimer/TaskStore.swift:396-401 | with a task running, it is remembered and paused; otherwise nothing changes |
| Store.TaskStore.RestartLastPausedTask | ClipTimer/TaskStore.swift:403-418 | nothing happens unless the remembered task is listed; then the running task is paused, the remembered one starts now and is forgotten |
| Store.TaskStore.Delete | ClipTimer/TaskStore.swift:370-374 | the list becomes the old list without the tasks carrying the id; the clock state is untouched |
| Store.TaskStore.Finish | ClipTimer/TaskStore.swift:148-159 | the task is paused if it runs, then moved to the end and marked completed |
| Store.TaskStore.CutAllTasks | ClipTimer/TaskStore.swift:240-246 | with tasks listed, the pasteboard text is returned and the list and symbol are cleared; with none, nothing happens; the running id is kept |
| Store.TaskStore.ReplaceTasks | ClipTimer/TaskStore.swift:177-201 | the list becomes the merged parsed lines, reordered; the symbol comes from the lines; one fresh id is drawn per parsed task |
| Store.TaskStore.UpdateOrAddTasks | ClipTimer/TaskStore.swift:218-238 | the loop yields `UpsertAll` of the list; the running task is paused exactly when a parsed task updates it and no task is remembered as paused |
| Store.TaskStore.RunningTaskIsListed | ClipTimer/TaskStore.swift:220-228 | a task the batch updates that carries an issued id is one of the listed tasks |
| Store.TaskStore.AddTasks | ClipTimer/TaskStore.swift:205-215 | the list becomes `UpsertAll` of the parsed lines, reordered; the symbol is set only when there was none; the running task is paused when the batch overwrites it and no task is remembered |

## Left out

- SwiftUI and AppKit views, windows and menu wiring: they are UI only.
- Pasteboard access (`replaceTasksFromClipboard`, `addTasksFromClipboard`, the write in `copySummaryToClipboard`): the text is a parameter or a returned string.
- Persistence to `UserDefaults` (`saveTasksLocally`, `loadTasksLocally` and the helpers around them): this is foreign I/O. Loading re-applies the completed-last reordering, which `CompletedLastIdempotent` covers.
- Undo registration: a foreign service. `mutateTasks` is modelled without it.
- The repeating timers and the blink toggle: they are runloop callbacks that change no data. The blink only selects the separator, which `HmsBlink` models.
- `clearLastPausedTask` and `pauseActiveTaskAndSave`: the first is a single assignment. The second is `PauseActiveTask` followed by a save.
- `Date()` and `TimeInterval` arithmetic: times are whole seconds from an injected clock that does not run back past the start time. `HmsOfInterval` shows the truncation of a fractional interval.
- `UUID()`: a counter `nextId` that issues increasing ids.
- Unicode: characters are code points, with no grapheme clustering, except that `split` leaves a CR LF pair whole. `\d` is ASCII digits only (ICU also accepts other decimal digits).
- `NSLocalizedString`: the labels are their English text.
- The `Task` type that TaskStore.swift builds has `isCompleted`, `currentElapsed(activeTaskID:startTime:)` and `hms(showSecondsColon:)`. The ClipTimer/Task.swift cited here is an older version that has only `hms`. The newer Task.swift is not part of this model. The record, `CurrentElapsed` and `HmsBlink` follow how TaskStore.swift and ClipTimerTests/TaskTests.swift use them.
- LineParser.FormatParseRoundTrip: holds only for plain names (trimmed, one line, no colon, no leading symbol, not wrapped in `~~`) and below 100 hours. From 100 hours on, the model shows only that the time no longer matches (`HmsBeyondHundredHoursNoMatch`), not what the line then parses to.
- Timing.PauseKeepsShownTimes: needs the running id to be carried by at most one task. Ids need not be unique after `replaceTasks` (`MergedSharesIds`).
- Timing.PauseKeepsTotal: needs the running id to be carried by at most one task, for the same reason.
- Store.TaskStore.Toggle: requires the toggled task's id to be an issued one, since an id is only ever one the store handed out.
