# People counter: track association and line crossing

A model of the core of a camera-based people counter. Each video frame yields
foreground contours. The counter keeps a store of tracks (id to last centre),
associates every large-enough contour with the first previous track within 50
pixels on both axes, or gives it a fresh id, and counts an entry or an exit
whenever a matched track's centre moves strictly across a vertical line. Every
counted event is appended to a log of `{Enter Check, Time Stamp}` records.
Around this sit two small pieces of bookkeeping from the display
applications: a merge pass that folds nearby tracked positions into groups
before drawing, and a rule that brings an application's own log up to date
with the counts the counter reports.

Files and modules:

- `options.dfy` (`Options`): the `Option` type.
- `tracks.dfy` (`Tracks`): the track store as an insertion-ordered dictionary
  (`seq<Track>` with distinct ids). It provides `Lookup`, `Put` (an existing key
  keeps its place; a new key goes at the end) and the strict first-match
  proximity scan `FirstMatch`.
- `data_record.dfy` (`DataRecords`): the `DataRecord` class with counters
  `enter`, `exit` and the append-only list `data`. The class is defined
  identically in `src/camera-related/counter.py:4-38` and
  `src/camera-related/single_tracker_file_test.py:11-45` and is modelled once.
- `tracking.dfy` (`Tracking`): the frame step as functions. `Step` handles one
  detection, `Frame` the loop over a frame, `Advance` one whole frame (the
  store is replaced) and `Run` a sequence of frames. `Step` is built from
  three pieces: `MatchIdOf` is the first-match association scan
  (`camera.py:31-35`), `CrossingOf` the lookup of the matched id in the
  previous store followed by the line test (`camera.py:44-46`), and `Counted`
  the counting of an entry or exit (`camera.py:46-51`). The lemmas about them
  follow.
- `people_counter.dfy` (`PeopleCounters`): the `PeopleCounter` class.
  `ProcessFrame` updates its fields in place and is proved equal to
  `Tracking.Advance`. The loop body for one detection is `ProcessDetection`;
  it calls `Associate`, whose first-match loop is `MatchedId`, then
  `CrossingTest` and `CountCrossing`.
- `grouping.dfy` (`Grouping`): the display merge pass `GroupObjects`, whose
  inner scan with its `break` is `MergeInto`, proved equal to the fold
  `Grouped`.
- `log_sync.dfy` (`LogSync`): the per-frame log synchronisation of the
  full-screen application.
- `scenarios.dfy` (`Scenarios`): concrete runs, and a client of the class.

There is no cooldown and no "crossed" flag in `camera.py`. Every qualifying
transition of a matched track counts, so a track that oscillates across the
line counts every crossing. `Scenarios.OscillationScenario` proves this for
the run 120, 80, 120, 80. The model follows the code here and does not add a
debounce.

Integer conventions: Python's `//` by 2 floors, and so does Dafny's `/` by a
positive divisor, so centres and midpoints use `/ 2` directly. Contour areas
are `real` because `contourArea` is fractional; the filter is
`area > 1000.0`.

## Model

| member | source | states |
|---|---|---|
| `Tracks.FirstMatch` | src/camera-related/camera.py:31-35 | the result is the first index, in store order, whose entry is strictly within 50 of the centre on both axes; None exactly when no entry is |
| `Tracks.Lookup` | src/camera-related/camera.py:44-45 | a key is found iff it is among the store's keys, and what is found is an entry of the store with that key |
| `Tracks.Put` | src/camera-related/camera.py:41 | writing an existing key keeps the length; a new key is appended at the end, after all existing entries (`PutInPlace` gives the existing-key case in full) |
| `Tracks.PutInPlace` | src/camera-related/camera.py:41 | writing an existing key replaces that entry where it stands, so the dictionary's iteration order is unchanged |
| `Tracks.PutIds` | src/camera-related/camera.py:41 | the keys after a write are the old keys plus the written key |
| `Tracks.PutLookup` | src/camera-related/camera.py:41 | after a write the key reads back the new value and every other key reads back its old value |
| `Tracks.PutDistinct` | src/camera-related/camera.py:41 | a write keeps keys distinct |
| `Tracks.LookupDistinct` | src/camera-related/camera.py:44-45 | with distinct keys, reading the key of any entry gives that entry |
| `Tracks.FreshIdAbsent` | src/camera-related/camera.py:37-39 | when every key is below `next_id`, `next_id` is not a key |
| `DataRecords.Entries` | src/camera-related/counter.py:28-33 | one record per event, in order, with Enter Check equal to the event's direction |
| `DataRecords.EntersAppend` | src/camera-related/counter.py:33 | appending a record raises the count of entry records by one iff its Enter Check is true |
| `DataRecords.EntersOfEntries` | src/camera-related/counter.py:17-24 | the records of a run of events hold exactly as many entry records as there were entry events |
| `DataRecords.Appended` | src/camera-related/counter.py:17-33 | logging one more record and raising the matching counter keeps "records since load = enter + exit, of which enter are entries" |
| `DataRecords.DataRecord.constructor` | src/camera-related/counter.py:5-15 | counters start at 0 whatever is loaded; the list is the loaded one, or empty when the file is missing or undecodable |
| `DataRecords.DataRecord.LogFormatting` | src/camera-related/counter.py:27-33 | appends exactly one record with the given Enter Check and time stamp; counters and earlier records unchanged |
| `DataRecords.DataRecord.IncreaseEnter` | src/camera-related/counter.py:17-20 | enter + 1, exit unchanged, one True record appended; keeps "records since load = enter + exit, of which enter are entries" |
| `DataRecords.DataRecord.IncreaseExit` | src/camera-related/counter.py:22-25 | exit + 1, enter unchanged, one False record appended; keeps the same invariant |
| `Tracking.LineX` | src/camera-related/camera.py:18 | for a non-negative position the column is floor(width * position), and at most width when the position is at most 1 |
| `Tracking.LineXNegative` | src/camera-related/camera.py:18 | for a negative position the column is width * position rounded toward zero |
| `Tracking.Passes` | src/camera-related/camera.py:22 | defines the area filter: a contour is processed iff its area is strictly above 1000 |
| `Tracking.CenterX` | src/camera-related/camera.py:24 | the centre column `x + w // 2` lies inside the bounding box whenever its width is non-negative |
| `Tracking.CenterY` | src/camera-related/camera.py:25 | the centre row `y + h // 2` lies inside the bounding box whenever its height is non-negative |
| `Tracking.Step` | src/camera-related/camera.py:22-51 | defines one contour's effect: filter, association against the previous store, id allocation, store write and crossing count; its properties are the lemmas below |
| `Tracking.Frame` | src/camera-related/camera.py:21-51 | defines the loop over a frame's contours in order, all compared against the same previous store |
| `Tracking.Advance` | src/camera-related/camera.py:19-53 | defines a whole frame: the new store starts empty and replaces the previous one |
| `Tracking.Run` | src/camera-related/camera.py:15-54 | defines a sequence of frames, each advancing the state left by the one before |
| `Tracking.Classify` | src/camera-related/camera.py:46-51 | entry iff previous x > line and current x < line; exit iff previous x < line and current x > line |
| `Tracking.SmallDetectionSkipped` | src/camera-related/camera.py:22 | a contour with area at most 1000 changes no track, counter, id or event |
| `Tracking.SpawnNeverCounts` | src/camera-related/camera.py:37-44 | an unmatched detection takes `next_id`, which is not in the previous store; `next_id` rises by exactly 1; no counter or event changes |
| `Tracking.MatchedCrossing` | src/camera-related/camera.py:31-51 | a detection matching previous track k keeps k's id and leaves `next_id` alone; entry iff k was right of the line and the centre is left of it; exit in the mirror case; never both; nothing on the line |
| `Tracking.StepInvariant` | src/camera-related/camera.py:21-51 | one detection keeps the store invariant (distinct keys, all below `next_id`), advances `next_id` by at most one, and moves each counter exactly with the events it appends |
| `Tracking.StepIds` | src/camera-related/camera.py:37-41 | one detection adds to the store's keys exactly its matched previous id or the id it spawns |
| `Tracking.CountedTally` | src/camera-related/camera.py:46-51 | counting a crossing only appends events, and each counter rises by exactly the entry or exit events appended |
| `Tracking.FrameInvariant` | src/camera-related/camera.py:19-53 | a whole frame keeps the store invariant, spawns at most one id per detection, and its counter increases equal its entry and exit events |
| `Tracking.FrameStoreIds` | src/camera-related/camera.py:19-53 | after the frame the store's keys are exactly the previous ids some detection matched plus the ids spawned this frame; unmatched tracks are dropped |
| `Tracking.RunInvariant` | src/camera-related/camera.py:15-54 | over any run of frames the store invariant holds, `next_id` never decreases, both counters never decrease and always equal the events counted |
| `Tracking.RunIds` | src/camera-related/camera.py:15-54 | over any run of frames every key of the final store was a key at the start or an id handed out during the run |
| `Tracking.DroppedIdNeverReturns` | src/camera-related/camera.py:37-53 | ids are never reused: an id already handed out and no longer stored never reappears in any later store |
| `Tracking.MatchedIdsPrev` | src/camera-related/camera.py:31-34 | a detection can only take over the id of a track of the previous store |
| `PeopleCounters.PeopleCounter.constructor` | src/camera-related/camera.py:6-13 | counters and `next_id` start at 0 with an empty store; the line position defaults to 1/2; a fresh record is created |
| `PeopleCounters.PeopleCounter.ProcessFrame` | src/camera-related/camera.py:15-54 | store, counters and `next_id` become those of `Advance` from the old state; the log gains one record per counted event, in order; counters never decrease; the returned pair is the counters |
| `PeopleCounters.PeopleCounter.ProcessDetection` | src/camera-related/camera.py:22-51 | the loop body for one detection yields exactly `Step` of the previous store, and the log stays in step with the counters |
| `PeopleCounters.PeopleCounter.Associate` | src/camera-related/camera.py:30-39 | the id is the first close previous track's id, with `next_id` unchanged; with no close track it is `next_id`, which then rises by one |
| `PeopleCounters.PeopleCounter.LogEvent` | src/camera-related/camera.py:47-51 | one counted event raises the matching counter and the record's counter together and logs exactly that event's record |
| `PeopleCounters.PeopleCounter.CountCrossing` | src/camera-related/camera.py:46-51 | an entry raises the enter count and logs a True record, an exit the exit count and a False record, no crossing changes nothing |
| `PeopleCounters.PeopleCounter.GetCounts` | src/camera-related/camera.py:56-57 | returns the current pair of counters |
| `PeopleCounters.MatchedId` | src/camera-related/camera.py:31-35 | the scan returns the id of the first close previous track, and finds one iff some previous track is close |
| `PeopleCounters.CrossingTest` | src/camera-related/camera.py:44-51 | with the previous store's keys distinct: an id absent from it never crosses; for the stored entry with that id, entry iff its x is right of the line and the new centre left of it, exit iff the mirror holds |
| `Grouping.Midpoint` | src/camera-related/camera_gui_test.py:96 | the merged coordinate lies between the two inputs |
| `Grouping.MergeOne` | src/camera-related/camera_gui_test.py:93-100 | defines one object's effect on the groups; its shape is stated by `MergeOneShape` and `MergeOneIds` |
| `Grouping.Grouped` | src/camera-related/camera_gui_test.py:92-100 | defines the fold of `MergeOne` over the tracked objects in store order; its properties are `GroupedBounds`, `GroupedDistinct`, `GroupedFirst` and `NewGroupAppended` |
| `Grouping.GroupObjects` | src/camera-related/camera_gui_test.py:89-100 | the merge loop over the tracked objects produces exactly the fold `Grouped` of them |
| `Grouping.MergeInto` | src/camera-related/camera_gui_test.py:93-100 | the inner scan with `break` updates exactly the groups `MergeOne` gives for one object |
| `Grouping.MergeAt` | src/camera-related/camera_gui_test.py:94-98 | a scan that stops at a close group j, having found no earlier close group, merges into group j |
| `Grouping.MergeOneShape` | src/camera-related/camera_gui_test.py:92-100 | an object merges into the first close group only, which keeps its id and moves to the midpoint while all other groups stay; otherwise it is written under its own id |
| `Grouping.MergeOneIds` | src/camera-related/camera_gui_test.py:94-100 | a merge keeps the group keys; a new group adds only the object's id; at most one entry is added |
| `Grouping.GroupedBounds` | src/camera-related/camera_gui_test.py:92-100 | there are never more groups than tracked objects, and group keys are tracked ids |
| `Grouping.GroupedDistinct` | src/camera-related/camera_gui_test.py:92-100 | distinct tracked ids give distinct group keys |
| `Grouping.NewGroupAppended` | src/camera-related/camera_gui_test.py:99-100 | an object close to no group starts a new group at the end |
| `Grouping.GroupedFirst` | src/camera-related/camera_gui_test.py:89-100 | no objects give no groups; the first object always starts the first group and its id stays first |
| `LogSync.SyncRecord` | src/camera-related/single_tracker_file_test.py:98-101 | an entry is logged iff the reported enter exceeds the record's, an exit likewise, independently; each counter moves by at most one; "record ≤ reported" is preserved |
| `LogSync.UpdateFrame` | src/camera-related/single_tracker_file_test.py:93-101 | the counter keeps its line position and its record object, the application's record keeps its loaded part; the counter's store, counts, `next_id` and internal log become those of `Advance`; the record then logs an entry iff the new enter count exceeds its own, an exit likewise, in that order; it never overtakes the counter and moves by at most one per direction |
| `Scenarios.EnterScenario` | src/camera-related/camera.py:44-48 | a track at x=120 and then at x=80, with the line at 100, gives one entry |
| `Scenarios.ExitScenario` | src/camera-related/camera.py:49-51 | 80 then 120 gives one exit |
| `Scenarios.SmallAreaScenario` | src/camera-related/camera.py:22 | an area-500 contour creates no track |
| `Scenarios.OnLineScenario` | src/camera-related/camera.py:46-51 | moving onto the line counts nothing |
| `Scenarios.SharedMatchScenario` | src/camera-related/camera.py:32-47 | two detections matching the same previous track both count, and the later position overwrites the earlier |
| `Scenarios.SpawnScenario` | src/camera-related/camera.py:37-53 | an unmatched detection is appended under the next id, and an unmatched previous track is dropped |
| `Scenarios.OscillationScenario` | src/camera-related/camera.py:44-51 | 120, 80, 120, 80 counts three events: there is no debounce |

`Scenarios.CounterClient` drives the class through the entry scenario.
`LogSync.LagExample` and `LogSync.BothInOneFrameExample` show the log lagging
behind a jump of two, and both syncs firing in one frame. `LogSync.TwoFrames`
calls `UpdateFrame` twice in a row, as the application does on every frame.

## Left out

- OpenCV: background subtraction, `findContours`, `contourArea`, `boundingRect` and all drawing are foreign library calls. Detections are given as a sequence of `(area, x, y, w, h)` values in contour order.
- The float `line_position`: `int(width * line_position)` is modelled with an exact rational `Ratio(num, den)` truncated toward zero. Float rounding of the product is not modelled.
- JSON persistence: loading `data.json` becomes the constructor's `loaded` argument, and `update_json` (rewriting the file after every event) is not modelled. Both `DataRecord` objects of the full-screen application write the same file, and that interplay is file I/O.
- Wall-clock time: `datetime.now().isoformat()` becomes a `now` string parameter. One time stamp serves every event of a frame, so distinct times within a frame are not modelled.
- The module-level demo loops (`camera.py:59-79`, `counter.py:40-45`), the Tkinter widgets, image conversion and `root.after` scheduling are UI and I/O.
- The capture thread of `camera_gui_test.py:35-36, 63-81` and the display reading `tracked_objects` concurrently with `process_frame` are concurrency. `GroupObjects` takes a store snapshot as input.
- `single_tracker_file_test.py:55` builds its counter as `counter.PeopleCounter`, which `counter.py` does not define. `LogSync.UpdateFrame` uses the `PeopleCounter` of `camera.py`, and `SyncRecord` accepts any reported pair.
- A failed write of the log file. `increase_enter` and `increase_exit` rewrite `data.json` (`counter.py:20,25`) from inside the frame loop (`camera.py:48,51`). If that write raises, `process_frame` is left part way: the counter, `next_id` and the record's list have already moved, the store replacement at `camera.py:53` is skipped, and the applications swallow the error (`camera_gui_test.py:80-81`, `single_tracker_file_test.py:116-117`). The model has no file I/O, so every frame runs to completion; this partial update and the error printout are not modelled.
