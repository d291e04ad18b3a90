# Expo pavilion bot, course-portal notifiers and video backup — a Dafny model

This project models the decision logic of a collection of Slack bots:

- **Expo 2025 pavilion engine** (`src/expo/`).
  - `DataManager` keeps the live reservation status of every pavilion. A full snapshot resets it. A delta batch updates it slot by slot and reports only real status transitions.
  - `WatchedPavilionManager` keeps the set of pavilion codes that users asked to follow, mirrored to a file.
  - The slash-command handlers and the notifier in `main.py` turn both into Slack replies and attachments.
- **Stand-alone reservation monitor** (`src/expo.py`). It reads the 07:00 slot of two target days, compares it with the previous run's state, and reports the days whose known state changed.
- **ITC-LMS and UTOL notifiers** (`src/LMS.py`, `src/UTOL.py`, and the older `LMS.py`).
  - They filter scraped tasks by kind.
  - They post a task digest.
  - They post only the updates not seen on the previous run, coloured by kind of content.
- **Video backup bot** (`src/video-backup.py`). It gates Slack message events, picks the video to upload, refuses titles already backed up, and logs one spreadsheet row per attempt.

Modules:

| file | module | models |
|---|---|---|
| `wrappers.dfy` | `Wrappers` | `Option`, and `dict.get` on maps |
| `text.dfy` | `Text` | the Python `str` operations used: `str(int)`, `join`, `split`, `strip`, `split()[0]`, `upper`, `endswith` |
| `ordering.dfy` | `Ordering` | Python's order on `str`, and the stable sort by key |
| `expo_store.dfy` | `ExpoStore` | `src/expo/data_manager.py` |
| `expo_watch.dfy` | `ExpoWatch` | `src/expo/watched_pavilions.py` |
| `expo_bot.dfy` | `ExpoBot` | `src/expo/main.py` |
| `expo_monitor.dfy` | `ExpoMonitor` | `src/expo.py` |
| `portal.dfy` | `Portal` | `src/UTOL.py`, `src/LMS.py` and `LMS.py` |
| `video_backup.dfy` | `VideoBackup` | `src/video-backup.py` |

How the source's forms are modelled:

- Objects that are updated in place are classes. `DataManager` and `WatchedPavilionManager` have `modifies` clauses.
- The routines that build lists in loops are methods with loop invariants. Each is proved equal to a specification function.
  - These routines are `getSpecificList`, `sendTasks`, `sendUpdates`, `extract_states`, the change loop of `main`, `apply_updates` and `load_initial_data`.
  - The properties the source promises are then proved about those functions.
- Search loops with an early return are recursive functions. These are `find_latest_video` and `check_if_video_exists`.
- The following are parameters, because they are I/O or outside the model:
  - the network (HTTP fetches, Slack, Google Sheets, YouTube);
  - the file system;
  - the clock (`today`, `now`).
  - For each one, the model takes its outcome as a parameter: how a save of the watch file ended, what a file held, the upload `id`.

## Model

| member | source | states |
|---|---|---|
| ExpoStore.DataManager.constructor | src/expo/data_manager.py:10-14 | A new store holds no pavilions, and its two views agree. |
| ExpoStore.DataManager.LoadInitialData | src/expo/data_manager.py:16-47 | An empty snapshot leaves both views unchanged. Otherwise the store is replaced by `Snapshot(items)`; it is not merged. The status view stays equal to each pavilion's `schedules`. |
| ExpoStore.Snapshot | src/expo/data_manager.py:25-47 | The store a non-empty snapshot builds. No pavilion is stored under the empty code, since `if not code: continue` skips it. Its keys and entries are pinned by `SnapshotKeys` and `SnapshotLastWins`. |
| ExpoStore.SnapshotKeys | src/expo/data_manager.py:28-31 | After a reset, the stored codes are exactly the non-empty `"c"` values of the snapshot. Codes absent from it are gone. |
| ExpoStore.SnapshotLastWins | src/expo/data_manager.py:33-44 | A stored pavilion comes from the last item with its code. Its name defaults to `"Unknown Pavilion"`, its url to `""`, and its schedules are `SchedulesOf` of its entries. |
| ExpoStore.SchedulesOfKeys | src/expo/data_manager.py:37 | A slot is in an item's schedule iff some entry has both `"t"` = that slot and an `"s"`. Incomplete entries are dropped. |
| ExpoStore.SchedulesOfLastWins | src/expo/data_manager.py:37 | A slot's status comes from the last complete entry for it. |
| ExpoStore.ApplyUpdate | src/expo/data_manager.py:65-85 | An update for an unknown code changes nothing. A complete update whose status differs from the live one is written and recorded as `(previous, new)`. |
| ExpoStore.ApplyDelta | src/expo/data_manager.py:63-94 | A delta batch, applied code after code and update after update. It is the reference definition; what it keeps and reports is stated by `ApplyDeltaEvolves`, `ApplyDeltaReportsExactly` and `SoleUpdateReported`. |
| ExpoStore.DataManager.WriteStatus | src/expo/data_manager.py:79-80 | One write of a slot's status. Both views see it, and names, urls and codes are unchanged. |
| ExpoStore.DataManager.ApplyOneUpdate | src/expo/data_manager.py:69-85 | One update of a stored code: the new state and the change map are exactly `ApplyUpdate` of the old ones. |
| ExpoStore.DataManager.ApplyPavilionUpdates | src/expo/data_manager.py:65-85 | The updates of one stored code are applied in order. The result is `ApplyCodeUpdates`. |
| ExpoStore.DataManager.ApplyUpdates | src/expo/data_manager.py:50-94 | A delta batch updates the live statuses and returns the detected changes, both exactly as `ApplyDelta` specifies. Names, urls, codes and the agreement of the two views are kept. |
| ExpoStore.ApplyDeltaReportsExactly | src/expo/data_manager.py:63-94 | No code is added or dropped. A reported `(old, new)` has `old != new`, and `new` is the stored status. A slot without a report keeps its status or its absence. The value of `old` is pinned by `SoleUpdateReported`. |
| ExpoStore.SoleUpdateReported | src/expo/data_manager.py:69-85 | When a batch holds one complete update `(s, v)` of a stored code, among any updates of other codes and slots, the slot ends at `v`. It is reported iff its status before the batch differs from `v`, and the report is `(status before the batch, v)`. |
| ExpoStore.ApplyDeltaEvolves | src/expo/data_manager.py:63-94 | Applying any delta only adds or replaces records, and keeps every recorded transition live. |
| ExpoStore.UnknownCodeIgnored | src/expo/data_manager.py:65 | Updates for a code not in the store change nothing and report nothing. |
| ExpoStore.ReassertingDeltaIsSilent | src/expo/data_manager.py:74-77 | A delta that repeats the live statuses writes nothing and reports nothing. This is the duplicate-notification guard. |
| ExpoStore.SingleUpdateDelta | src/expo/data_manager.py:63-73 | A delta made of one update is that update. |
| ExpoStore.LastTransitionWins | src/expo/data_manager.py:85 | If one batch moves a slot twice, the slot ends at the second status. Its only record is the second transition, with `old` = the first status. |
| ExpoStore.SuccessiveTransitions | src/expo/data_manager.py:74-85 | If two batches each move a slot, each batch reports its own transition, and the second reports `old` = the first batch's status. |
| ExpoStore.DemoSnapshot | src/expo/data_manager.py:117-131 | The module's demo snapshot yields the two pavilions with their names, urls and one slot each. |
| ExpoStore.DemoScenario | src/expo/data_manager.py:134-151 | The demo's three deltas report `(2, 1)`, then nothing, then `(1, 2)`. |
| ExpoStore.DataManager.GetPavilionName | src/expo/data_manager.py:96-98 | The stored name, or the code itself for an unknown code. |
| ExpoStore.DataManager.GetPavilionUrl | src/expo/data_manager.py:100-102 | The stored url, or `""` for an unknown code. |
| ExpoStore.DataManager.GetSpecificPavilionStatus | src/expo/data_manager.py:108-110 | The live statuses of a stored code (the same as the status view), or `{}` for an unknown code. |
| ExpoStore.DataManager.GetAllPavilionsInfo | src/expo/data_manager.py:104-106 | Exactly one `(code, name)` per stored code, with no repeats, and each name taken from the store. |
| ExpoWatch.LoadedCodes | src/expo/watched_pavilions.py:20-50 | A list, taken to hold only strings, yields the set of its elements. A missing, unreadable or undecodable file, or one that is not a list, yields the empty set. |
| ExpoWatch.ReloadRestoresSaved | src/expo/watched_pavilions.py:20-61 | Loading any listing of a saved set gives that set back. |
| ExpoWatch.WatchedPavilionManager.constructor | src/expo/watched_pavilions.py:15-18 | The manager starts from `LoadedCodes(file)`. The persisted copy is that set only when the file held a list. |
| ExpoWatch.WatchedPavilionManager.SaveWatchedPavilions | src/expo/watched_pavilions.py:52-61 | The in-memory set is never touched. A successful write persists the current set. An `IOError` from `open` leaves the file as it was. One raised while writing leaves a truncated file, which holds no readable list. |
| ExpoWatch.WatchedPavilionManager.AddPavilion | src/expo/watched_pavilions.py:63-72 | Returns true iff the code was absent. The set becomes the old set plus the code. Only an actual addition is saved, with the file then as the save's outcome leaves it. |
| ExpoWatch.WatchedPavilionManager.RemovePavilion | src/expo/watched_pavilions.py:74-83 | Returns true iff the code was present. The set becomes the old set minus the code. Only an actual removal is saved, with the file then as the save's outcome leaves it. |
| ExpoWatch.WatchedPavilionManager.GetWatchedList | src/expo/watched_pavilions.py:85-87 | Exactly the watched codes, each once, in no particular order. |
| ExpoWatch.AddThenRemove | src/expo/watched_pavilions.py:63-83 | Adding a fresh code and removing it again restores the set. |
| ExpoWatch.ExampleSession | src/expo/watched_pavilions.py:93-118 | The demo session: adding `HOH0` again gives false, and so does removing an unknown code. The final list is the start set without `H1HF`, plus `HOH0`, `TEST1` and `TEST2`. |
| ExpoBot.StatusText | src/expo/main.py:35-51 | Never empty. A status outside 0..2 is shown as `Unknown Status (n) ❓`. |
| ExpoBot.StatusTextInjective | src/expo/main.py:35-51 | Distinct statuses have distinct labels, known and unknown alike. |
| ExpoBot.StatusColor | src/expo/main.py:41-58 | The colour is the grey `#B0BEC5` exactly for statuses other than 0, 1 and 2. |
| ExpoBot.KnownStatusColorsDistinct | src/expo/main.py:41-46 | The three known statuses have three different colours. |
| ExpoBot.TicketLink | src/expo/main.py:61-87 | The link is the ticket base URL followed by `?` and the query. The query's fields are pinned by `TicketLinkWithIds`, `TicketLinkWithoutIds` and `TicketQueryRoundTrip`. |
| ExpoBot.TicketLinkWithIds | src/expo/main.py:61-87 | With IDs, the link is the base URL, `?`, and `id`, `event_id`, `screen_id=108`, `lottery=5`, `entrance_date` in this order, joined with `&`. The IDs are joined with `,`. |
| ExpoBot.TicketLinkWithoutIds | src/expo/main.py:73-87 | With no IDs, the `id=` parameter is omitted entirely. |
| ExpoBot.TicketQueryRoundTrip | src/expo/main.py:61-87 | Splitting the link's query on `&` gives back exactly the non-empty `key=value` fields. |
| ExpoBot.QueryFieldsKeepAbsent | src/expo/main.py:86 | A character absent from all keys and values is absent from every query field. |
| ExpoBot.ParseTicketIds | src/expo/main.py:476-498 | Blank text clears the IDs. Other text is rejected iff every comma-separated part of it is blank. Otherwise the stored IDs are non-empty, stripped, and are exactly the non-blank stripped parts. |
| ExpoBot.CleanIdsStripped | src/expo/main.py:488 | Every kept ID is non-empty and has no surrounding whitespace. |
| ExpoBot.CleanIdsMembers | src/expo/main.py:488 | The kept IDs are exactly the non-blank stripped parts. |
| ExpoBot.CleanIdsNone | src/expo/main.py:488-495 | No ID is kept iff every part is blank, which is when the handler rejects the text. |
| ExpoBot.TicketIdsRoundTrip | src/expo/main.py:476-498 | Parsing the comma-join of comma-free, stripped IDs sets exactly those IDs. |
| ExpoBot.OnlyCommasRejected | src/expo/main.py:488-495 | Text made only of commas and spaces is rejected, and nothing is stored. |
| ExpoBot.CommandCode | src/expo/main.py:361-370 | No code iff the text is blank. Otherwise the code is the upper-cased run of non-blank characters that starts the text after its leading whitespace, up to the next whitespace or the end. |
| ExpoBot.KnownPavilionRule | src/expo/main.py:371-380 | A code is accepted iff it is stored and its name is non-empty and differs from the code. |
| ExpoBot.FormatSlot | src/expo/main.py:207 | `slot[:2] + ":" + slot[2:]` adds exactly one character. |
| ExpoBot.FormatSlotInjective | src/expo/main.py:207 | Different slots are shown differently. |
| ExpoBot.FormatFourDigitSlot | src/expo/main.py:569 | `HHMM` is shown as `HH:MM`. |
| ExpoBot.TruncatedPieces | src/expo/main.py:327-333 | The capped display loop builds exactly `Truncated`. |
| ExpoBot.TruncatedShape | src/expo/main.py:327-333 | At most `limit` items are rendered, in order. When more remain, one note follows with the count of the rest. |
| ExpoBot.BulletLines | src/expo/main.py:333 | The list text consists of exactly one line per entry. |
| ExpoBot.ListAllExpo | src/expo/main.py:303-354 | An empty store gets the apology. Otherwise every stored pavilion appears once, sorted by name, with at most 50 shown. |
| ExpoBot.SearchExpo | src/expo/main.py:636-700 | A blank query is refused. Otherwise the reply is "no match", or the count plus at most 20 results. |
| ExpoBot.WatchExpo | src/expo/main.py:358-394 | Usage for blank text and "not found" for an unknown code. Otherwise the reply depends on whether the code was already watched, and the set grows only in the `Watching` case. |
| ExpoBot.UnwatchExpo | src/expo/main.py:398-424 | No check against the store: the reply and the new set are exactly those of `remove_pavilion`. |
| ExpoBot.ListWatchedExpo | src/expo/main.py:428-465 | The reply is "nothing watched" iff the set is empty. Otherwise every watched code is listed once, with its stored name. |
| ExpoBot.SortedSchedule | src/expo/main.py:551 | The slots of a schedule, each once, in ascending order. |
| ExpoBot.ShowStatusExpo | src/expo/main.py:508-632 | Usage, "not found", or "no schedule". Otherwise: the booking link; the original page only when it is set and differs from the link; and every stored slot once, with its status, in time order, of which at most 15 are shown. |
| ExpoBot.ChangeAttachment | src/expo/main.py:195-222 | The attachment of one changed slot: coloured and titled by the new status, with the slot as `HH:MM`, the status text and the booking link as fields. `NotifySlots` and `NotifyWatchedChanges` state which attachments are sent. |
| ExpoBot.NotifySlots | src/expo/main.py:189-228 | One attachment per changed slot of a code, each slot once. |
| ExpoBot.NotifyWatchedChanges | src/expo/main.py:135-229 | Exactly one attachment per (watched code, changed slot), none repeated. Each announces the slot's new status and the code's booking link. |
| ExpoBot.ReportedChangesAreDue | src/expo/main.py:148-192 | After `apply_updates`, a slot is announced iff its code is watched and the batch reported a transition for it. |
| ExpoMonitor.ExtractStates | src/expo.py:53-64 | When a key on the path is missing, the day's value is `None`. A non-object on the path raises `TypeError`, and the result is `None`. Otherwise the keys are exactly the target days, each with its `time_state`. |
| ExpoMonitor.DayChanges | src/expo.py:102-107 | A day is reported iff both readings are known and differ. The report is `(before, after)`. |
| ExpoMonitor.DetectChanges | src/expo.py:100-107 | The comparison loop builds exactly `DayChanges`. |
| ExpoMonitor.PreviousStates | src/expo.py:66-72 | No file gives `{}`. A file that is not a JSON object makes the run fail. |
| ExpoMonitor.RunMonitor | src/expo.py:94-118 | A failed run leaves the state file unchanged. A completed run notifies iff some day changed, and saves the current states. A run whose notification raises fails, so it saves nothing and its changes are reported again next time; when no day changed, nothing is posted and the run completes. |
| ExpoMonitor.FirstRunReportsNothing | src/expo.py:66-72 | With no state file, nothing is reported. |
| ExpoMonitor.NoneHandlingDiffers | src/expo.py:105 | An unknown reading never counts as a change here, while `apply_updates` reports `(None, new)` for a new slot. |
| ExpoMonitor.SavedStateIsQuiet | src/expo.py:114 | Re-running on the saved state with an unchanged schedule reports nothing. |
| Portal.GetSpecificList | src/UTOL.py:106-111 | The loop returns exactly `Filter(tasks, contents == kind)`. `src/LMS.py:93-98` and `LMS.py:70-75` have the same loop. |
| Portal.FilterPositions | src/UTOL.py:106-111 | The filter keeps exactly the accepted elements, in their original order, each once. It returns their positions: increasing, and covering every accepted position. |
| Portal.FilterMembers | LMS.py:70-75 | An element is in the result iff it is in the input and accepted. |
| Portal.SendTasks | src/UTOL.py:124-139 | The headline gives the number of tasks. There is one green attachment per task, in order, with the title, link, course and deadline of that task. It is posted to the site's task channel: `#utol-tasks`, or `#itclms-tasks` as in `src/LMS.py:111-123` and `LMS.py:88-100`. |
| Portal.TasksHeadlineInjective | src/UTOL.py:125 | The headline tells the number of tasks exactly. |
| Portal.ClassifyContent | src/UTOL.py:180-191 | The successive overriding `if`s give exactly the bucket colour: danger, warning, good, or `#f5f5f5`. `src/LMS.py:161-172` has the same rules. |
| Portal.ContentColor | src/UTOL.py:180-191 | Each colour is chosen exactly for its kind of content: `danger` for assignments and tests, `warning` for notices, messages, surveys and boards, `good` for materials, and `#f5f5f5` for anything else. |
| Portal.SendUpdates | src/UTOL.py:169-206 | One attachment per update not in the stored list, in order. A post is made iff there is at least one. A failed load counts as an empty history. The stored list becomes the current list. The channel is `#utol-updates`, or `#itclms-updates` as in `src/LMS.py:150-187`. |
| Portal.NewUpdates | src/UTOL.py:177-179 | The updates not found, as whole records, in the stored list, in their order. `NewUpdatesExactly` states this membership. |
| Portal.NewUpdatesExactly | src/UTOL.py:178 | An update is reported iff it is current and not equal, as a whole record, to any stored one. |
| Portal.EverythingNewWithoutHistory | src/LMS.py:151-156 | After a failed load, every update is reported. |
| Portal.RerunIsSilent | src/UTOL.py:203-206 | The next run over the same updates reports nothing. |
| Portal.ReplacedHistoryForgets | src/LMS.py:184-187 | The history is replaced, not merged. An update that is absent from the last run is reported again when it reappears. |
| VideoBackup.EndsWithAnyExists | src/video-backup.py:126-128 | The suffix loop accepts a URL iff it ends with one of the listed suffixes. |
| VideoBackup.FindLatestVideo | src/video-backup.py:124-130 | A found video has a video suffix and is the url and name of one of the attached files. `NoVideoIffNoVideoFile` and `FoundVideoIsFirst` pin which one. |
| VideoBackup.NoVideoIffNoVideoFile | src/video-backup.py:124-130 | No video iff no file's private URL ends in `.mov`, `.MOV`, `.mp4` or `.MP4`. |
| VideoBackup.FoundVideoIsFirst | src/video-backup.py:124-129 | The chosen video is the first matching file in message order. Its url and name come from that same file. |
| VideoBackup.MixedCaseIsNotVideo | src/video-backup.py:125 | The match is case-sensitive: `.Mp4` is not a video. |
| VideoBackup.FirstOfTwoVideos | src/video-backup.py:126-129 | Of two videos, the first is taken. |
| VideoBackup.ExtensionOf | src/video-backup.py:138 | The extension contains no dot. |
| VideoBackup.ExtensionAfterLastDot | src/video-backup.py:138 | The extension is the text after the last dot, whatever comes before it. |
| VideoBackup.VideoFilenameKeepsSuffix | src/video-backup.py:138-147 | A video is saved as `video` followed by the suffix it matched. |
| VideoBackup.CheckIfVideoExists | src/video-backup.py:163-169 | A title is found only when the records hold a successful row for it. `VideoExistsIff` gives the converse. |
| VideoBackup.VideoExistsIff | src/video-backup.py:163-169 | True iff some record has this title and status `succeeded`. |
| VideoBackup.LoggedRowEffect | src/video-backup.py:163-169 | A logged failure never blocks a later upload of the title, and a logged success always does. |
| VideoBackup.ResultRow | src/video-backup.py:91-115 | The status is `succeeded` iff the response carries a non-empty `id`. The YouTube URL is empty exactly on failure. |
| VideoBackup.Accepted | src/video-backup.py:54-71 | The gate: not a deletion or an edit, a message event, not posted by the bot user, and in the configured channel. `HandleMessageEvent` ignores an event exactly when it fails. |
| VideoBackup.HandleMessageEvent | src/video-backup.py:49-121 | The event is ignored iff the gate rejects it: a deletion or an edit, not a plain message, the bot's own message, or another channel. Otherwise the reply is "not found", "already uploaded", or an upload of the first video with the row of `ResultRow`. The reply after an upload is the success text with the watch URL, or the failure text with the upload response. |
| VideoBackup.SecondDeliveryIsRefused | src/video-backup.py:79-115 | After a logged success, the same video is refused. |
| Text.IntToStringInjective | src/expo/main.py:51 | `str(n)` determines `n`. |
| Text.NatToStringRoundTrip | src/UTOL.py:125 | Reading back the decimal digits of `str(n)` gives `n`. |
| Text.SplitJoin | src/expo/main.py:488 | Splitting a join of separator-free parts gives the parts back. |
| Text.JoinSplit | src/video-backup.py:138 | Joining a split with its separator gives the string back. |
| Text.StripProperties | src/expo/main.py:476 | A stripped string has no whitespace at either end. Stripping is idempotent, and gives the empty string iff the string is all whitespace. |
| Text.UpperIdempotent | src/expo/main.py:370 | Upper-casing twice is upper-casing once. |
| Ordering.LexLeTotal | src/expo/main.py:316 | Python's string order is total. |
| Ordering.LexLeTransitive | src/expo/main.py:316 | Python's string order is transitive. |
| Ordering.LexLeAntisymmetric | src/expo/main.py:316 | Python's string order is antisymmetric. |
| Ordering.SortByCorrect | src/expo/main.py:316 | Sorting by key gives a permutation of the list, ordered by key. |

## Left out

- Network I/O is not modelled: HTTP fetches, posting to Slack, the Google Sheets and YouTube APIs, and OAuth. The results they return are parameters.
- Page scraping is not modelled: Selenium, BeautifulSoup, and `getTaskList`/`getUpdates`.
- Scheduling, threads, and the unsynchronised sharing of the store between the two monitor threads are not modelled. Every operation is modelled as atomic.
- File contents are not modelled byte by byte. The watch file, the monitor's state file and the pickled update lists are abstract values.
  - The persisted copy of the watch set is a ghost field.
  - A failed save of the monitor state or of the update list (an exception while writing) is not modelled.
- Dict iteration order is not modelled. Codes and slots are picked from maps in no particular order, so the order of list entries and of notifications is unspecified. Python would use insertion order.
- ExpoWatch.LoadedCodes: a watch file is taken to hold a list of strings only. A list holding an unhashable element makes `set(data)` raise, and the source then starts from the empty set; `CodeList` cannot express such a list.
- Python's `True == 1` equality between statuses is not modelled: statuses are integers.
- `Text.Upper` maps ASCII letters only. Python's `str.upper` also maps other scripts.
- `DataManager.search_pavilions_by_name`, `WatchedPavilionManager.set_user_ticket_ids` and `get_user_ticket_ids` are called by `main.py` but defined nowhere in the repository.
  - The search results and the user's ticket IDs are parameters of `ExpoBot.SearchExpo`, `ExpoBot.ShowStatusExpo` and `ExpoBot.NotifyWatchedChanges`. They are unverified.
  - The store written by `/set_ticket_ids` is not modelled: only `ExpoBot.ParseTicketIds` is.
- `src/expo/main.py` lines 186-188 are dedented, so that file does not parse as written. The model follows the evident intent: the booking link is built once per watched code, before the per-slot loop.
- The formatted message texts are not modelled: Slack blocks, the help text, the `app_mention` and message handlers, `notify_slack`'s message, and the error messages. The replies are kept as datatypes carrying the data they show.
- ExpoBot.ShowStatusExpo: the card is built as the handler intends. As written, `src/expo/main.py` line 631 reads `command["event"]["ts"]`. A slash-command payload has no `"event"` key, so the handler raises `KeyError` there and sends nothing. The other handlers have this argument commented out.
- JSON `null` in the feed is not modelled: the model takes the feed to hold no nulls, and treats a key as either present with a value or missing.
  - `item.get("n", "Unknown Pavilion")` returns `None` for `"n": null`, where the model stores the default name.
  - An entry `{"t": ..., "s": null}` is kept by the dict comprehension with a `None` status, where the model drops it.
  - `"s": null` on an item makes the comprehension raise `TypeError`, where the model reads an empty list.
- ExpoBot.NotifyWatchedChanges: the attachment fields are those of the intended notification, but the timestamp and the fallback text are not modelled.
- VideoBackup.HandleMessageEvent: exceptions are not modelled. Examples are a file without `url_private`, an unset `BOT_USER`, or a failed download. Such an exception is reported through the `except` branch, which also uses `channel_id`; that variable is unbound when the exception happens before it is set.
- VideoBackup.HandleMessageEvent: the failure reply's `{upload_response}` text is a parameter. The sheet's `Title` and `Status` columns are taken to be the row's name and status cells.
- The other bots in the repository are not part of this model: `src/MF.py`, `src/api.py` and `src/expo/data_fetcher.py`.
