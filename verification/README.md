# Verified model of gitlab-elt

gitlab-elt copies GitLab issues into three layers: Bronze (raw events as fetched), Silver (issues,
issue events, comments, assignee history) and Gold (SQL views over Silver). This project models the
parts that carry state over a long run and proves what they keep:

- `Assignees.dfy`, `NoteParser.dfy`: the assignee history, updated in place by changes parsed from
  system notes.
- `AssigneeReplay.dfy`, `AssigneeStreams.dfy`: what becomes of that history when notes are fetched or
  transformed again.
- `Labels.dfy`, `Silver.dfy`, `TransformerService.dfy`, `Bronze.dfy`: the transformer. `Silver` states
  the effect of one Bronze event as a function on table values; `TransformerService.Service` is the
  imperative service over mutable tables, proved to follow it; `Bronze` is about batches.
- `NoteTexts.dfy`, `SilverContents.dfy`, `SyncHistory.dfy`: what the parser, the transformer and the sync do, said
  without their functions: in literal characters, in terms of the stream, and in terms of the actions so far.
- `Replay.dfy`, `Locality.dfy`, `EventTimelines.dfy`, `IncrementalEvents.dfy`, `TableInvariants.dfy`: what
  holds of Silver after any stream of events.
- `Fetches.dfy`: the streams the extractor writes, and that they meet the premises of the theorems about streams.
- `StateTimeline.dfy`, `ReworkCounts.dfy`, `StateCache.dfy`, `LifecycleRollup.dfy`, `AssigneeHours.dfy`,
  `AssigneeStates.dfy`, `AssigneeTime.dfy`: the Gold views over one issue.
- `Timelines.dfy`, `Scenarios.dfy`, `ReworkExamples.dfy`, `AssigneeExamples.dfy`: every coherent timeline arises
  from a stream, and concrete streams after which the figures of the views are not what one expects.
- `SyncProtocol.dfy`, `Workers.dfy`, `Discovery.dfy`: the incremental cursor protocol as interleaved
  atomic actions, and the extractor and discovery programs that perform them while others act.
- `Options.dfy`, `Folds.dfy`, `Instants.dfy`: shared vocabulary.

`dafny verify dfyconfig.toml` checks everything.

## How the system is represented

- Timestamps are integer milliseconds on one clock, shared by GitLab, the worker and the database.
- An issue is named by its unique (project, iid) pair instead of its serial id. Rows of a table stand in
  id order, and `raw_events` rows in (fetched_at, id) order, so a position stands for an id.
- JSON payloads and JSONB columns are the values they encode. A payload that does not parse is `Malformed`.
- Label normalisation is an uninterpreted function; label mappings, the projects table and raw_issues do
  not change while the transformer runs.
- An event fails to transform when its payload is malformed or when the foreign key to `projects` refuses
  its issue. Around a batch, reading the window or marking its rows may fail. A failed issue lookup means
  that there is no row, and the writes whose failure the code only logs succeed.
- Among non-noise events of one issue with the same timestamp, the "newest" is the one inserted last. SQL
  leaves that choice open; it does not arise when timestamps differ.
- A GitLab change sets the issue's `updated_at` to the current time, and GitLab has the events that changes
  brought (`LogIsCreated`). A listing returns the issues updated at or after the cursor it is given, and none
  updated before the whole second of it, which is what the request carries (`internal/gitlab/client.go:120-135`).
- The label events and the notes of an issue are fetched by two calls, between which GitLab and the other
  workers may act; each call is a snapshot.
- Issues of known projects have different positive GitLab ids in raw_issues, so that the partial unique index on
  `gitlab_issue_id` (`db/migrations/000005_create_issues_table.up.sql:27`) refuses no stub. `IndexNeverRefusesIff`
  says that this is exactly what it takes; it only restricts `Silver.FailsIff` and `EnsureIssue`, which do not
  speak of the index.
- A fetch in `Fetches` is one whose inserts all succeed, the fetches of one issue follow one another, and the two
  lists of an issue only grow at their end. `FailedInsertInventsReturn` shows what a failed insert can do. The
  theorems about streams do not need these assumptions.
- "In time order" said of assignee notes is the order in which they are requested
  (`internal/gitlab/client.go:180-183`).
- "Chronological" means that the first copies of the label events of an issue arrive in the order of their
  timestamps, which is the order the API lists them in (`internal/domain/interfaces.go:90`).

## Where the code and its documentation differ

- `docs/ASSIGNEE_CYCLE_TIME_GUIDE.md:85` calls `total_hours_as_assignee` the total hours as assignee. The view
  drops the time between the start of a period and its first event, and it ends a period that is still open at
  the first DONE event. For a history whose periods follow one another, and with no event in the future,
  `HoursNeverExceedAssignment` says exactly when nothing is dropped; `TimeBeforeFirstEventIsLost` and
  `DoneEndsOpenPeriod` are examples.
- Every note of an updated issue is fetched and applied again. `RefetchedHistory` says what that does to
  notes in time order: the stored periods still cover exactly the instants of assignment, but the history is that
  of a single pass, and its periods are in order, only under the conditions given there.
  `ReplayClosesBeforeItOpens` leaves a period that ends before it starts; `ReplayedPairIsRecordedTwice` one that
  is stored twice. `HoursAfterRefetches` says what that does to the hours: each further fetch adds the assigned
  time once more, or takes the time of absence away. In `RefetchLosesHours` half of the time is gone.
- `internal/transformer/service.go:104-108` lets rows that could not be marked be transformed once more.
  `ReappliedRowsAreAbsorbedIff` says exactly when Silver does not notice.
- `max_cycle_count_recorded` and `qa_to_dev_return_count` count the same returns from QA. With noise they can
  differ in both directions; `MaxCyclesIsReturnsIff` says exactly when they agree. An event that arrives after a
  later one, because its first insert failed, can also count as a return that never happened
  (`FailedInsertInventsReturn`).
- Usernames may contain dots and dashes (`internal/domain/models.go:116` shows one), but the note patterns stop at
  the first character outside `\w`. `ParserRecoversIff` says exactly which notes survive; `DottedNameIsCut` is an
  example.
- `db/query/raw_events.sql:8` says that the bulk insert ignores duplicates. `raw_events` has no unique key, so
  copies are stored; the model keeps them and proves what they do.
- When several events share an instant, the per-state hours of an assignee can depend on the order in which the
  window happens to see them (`TieOrderDecidesState`); the total does not. `OrderFreeIff` says exactly which hours
  depend on it, and `TiesLeaveBacklog` which ties the transformer can store.
- Nothing in the scheduler keeps two extractions of one project apart. `OverlapBreaksTheCursors` shows that a
  cursor can then go back and that the two cursors can differ. `CursorMovesBackIff` says exactly when the one
  happens, `CursorsPartIff` and `CursorsAlwaysAgreeIff` exactly when the other does; cursor safety holds regardless.

## Model

| member | source | states |
|---|---|---|
| Assignees.AssigneeHistory.HandleAssigned | internal/transformer/assignees.go:115-150 | the in-place update is the assignment step on the whole history, and the result is true exactly when the history changed |
| Assignees.AssigneeHistory.RemoveFromCurrent | internal/transformer/assignees.go:156-165 | every occurrence of the user leaves Current and nobody else does |
| Assignees.AssigneeHistory.HandleUnassigned | internal/transformer/assignees.go:153-179 | the in-place update removes the user and closes the first open period; the result is true exactly when the history changed |
| Assignees.AssigneeHistory.ApplyAssigneeChange | internal/transformer/assignees.go:103-112 | dispatch on the action; an unknown action changes nothing and reports false |
| Assignees.ReachableIsConsistent | internal/transformer/assignees.go:115-179 | over every run: no duplicates in Current, a user is current exactly when some period is open, at most one open period each, durations exactly on closed periods |
| Assignees.ChangeIsAbsorbedIff | internal/transformer/assignees.go:118-149 | on a consistent history a change is a no-op exactly when the user already is, or is not, in Current |
| Assignees.ClosedEntriesAreFinal | internal/transformer/assignees.go:168-176 | no later change touches a closed period, and no period is dropped, renamed or restarted |
| Assignees.CurrentFollowsPeriods | internal/transformer/assignees.go:118-165 | over every run, Current lists the users in the order in which their open periods began |
| Assignees.PeriodsDenoteAssignments | internal/transformer/assignees.go:103-179 | for notes in time order, a user's last change up to t is an assignment exactly when one of the stored periods covers t; a user's periods never overlap |
| Assignees.StoredDurationsAreTight | internal/transformer/assignees.go:171-172 | for notes in time order durations are never negative and n closed periods lose less than n seconds to truncation |
| AssigneeReplay.RefetchIsAbsorbedIff | internal/sync/extractor.go:291-309 | a growing list of changes, applied once per fetch, leaves the history of its last fetch exactly when nobody is both assigned and unassigned in what was fetched more than once |
| AssigneeReplay.ReplayIsAbsorbedIff | internal/transformer/assignees.go:115-179 | a full replay changes nothing exactly when nobody is both assigned and unassigned |
| AssigneeReplay.RepeatIsAbsorbedIff | internal/transformer/assignees.go:115-179 | on a consistent history, changes applied twice in a row leave, whatever follows them, what one application leaves exactly when they assign and unassign nobody alike |
| AssigneeReplay.RefetchKeepsMeaning | internal/transformer/assignees.go:103-179 | however often the list is fetched, the stored periods cover exactly the instants of assignment, and the same users are current |
| AssigneeReplay.RefetchStaysWellFormedIff | internal/transformer/assignees.go:133-176 | no period ends before it starts and none overlaps the next of its user exactly when, in each list fetched again, no change ends its user's last state before that state was reached |
| AssigneeReplay.ReplayClosesBeforeItOpens | internal/transformer/assignees.go:168-176 | a user who was reassigned gets, by the next fetch, a period that ends before it starts, with the whole seconds of that as its duration |
| AssigneeReplay.ReplayedPairIsRecordedTwice | internal/transformer/assignees.go:133-149 | an assign/unassign pair fetched again is stored twice, and the two periods overlap unless they are empty |
| AssigneeStreams.StoredHistoryIsRun | internal/transformer/service.go:355-411 | the history in Silver after any stream is the run of the changes in the notes of the issue |
| AssigneeStreams.RefetchedHistory | internal/transformer/service.go:355-411 | for every stream in which the changes of an issue are a list fetched again and again: what the stored periods cover, when the history is that of one pass, and when its periods are in order |
| AssigneeStreams.ReappliedRowsAreAbsorbedIff | internal/transformer/service.go:104-108 | transforming the rows of a batch once more leaves, after whatever follows, the same Silver exactly when they assign and unassign nobody alike on one issue |
| AssigneeStreams.StoredHistoriesAreConsistent | internal/transformer/service.go:355-411 | every stream leaves consistent histories, so that the statement about rows transformed once more applies to all reachable tables |
| NoteParser.ParseAssigneeChangeFromSystemNote | internal/transformer/assignees.go:72-99 | all matches of the first pattern as assignments, then all of the second as unassignments |
| NoteParser.ParseOfRender | internal/transformer/assignees.go:31-36 | for every rendered list of changes, the parse is the assigned names cut at the first non-word character, then the unassigned ones, each in order |
| NoteParser.ParserRecoversIff | internal/transformer/assignees.go:72-99 | the changes come back exactly when every name is plain, which NoteTexts.PlainIsSimple says in literal characters |
| NoteParser.DottedNameIsCut | internal/transformer/assignees.go:33-35 | a dotted username is parsed as somebody else |
| NoteTexts.WordCharacters | internal/transformer/assignees.go:33-35 | the characters a name may hold are the letters of both cases, the digits and the underscore, each written out |
| NoteTexts.LoweredCharacters | internal/transformer/assignees.go:73 | a capital letter is seen as the small letter at its place of the alphabet, and no other character changes |
| NoteTexts.PlainIsSimple | internal/transformer/assignees.go:31-36 | the names that come back from a note are the non-empty ones of small letters, digits and underscores |
| NoteTexts.OneNameIsRead | internal/transformer/assignees.go:72-99 | for every such name u, "assigned to @u" is read as its assignment and "unassigned @u" as its unassignment |
| NoteTexts.TwoNamesAreRead | internal/transformer/assignees.go:72-99 | a note that assigns one such name and unassigns another is read as both changes, the assignment first in whichever order they are written |
| NoteTexts.ParseIgnoresCase | internal/transformer/assignees.go:73 | notes that differ only in small and capital letters are read alike |
| NoteTexts.PatternTexts | internal/transformer/assignees.go:31-36 | the texts in front of the names are "assigned to @" and "unassigned @" |
| NoteTexts.CapturesAreLeftmost | internal/transformer/assignees.go:77-96 | in any text the captures are those of the pattern: leftmost first, without overlap, each followed by no word character, and none left out |
| NoteTexts.ParseOfText | internal/transformer/assignees.go:72-99 | the parse of any text is the captures of both patterns in the lower-cased text, assignments first |
| Silver.LabelMeaning | internal/transformer/service.go:541-572 | which label events become transitions, to which state, which become metadata, under which key, and that removals have no effect |
| SilverContents.EventMeaning | internal/transformer/service.go:164-352 | for every action, label and note, by the mapping tables alone: which state the event says, which metadata key, which comment and which assignee changes |
| Silver.LastEventIsNewest | db/query/issue_events.sql:33-38 | the query finds a newest non-noise event of the issue exactly when there is one |
| Silver.StepShape | internal/transformer/service.go:164-352 | a failed or ignored event changes nothing; any other touches its own issue row and inserts at most one row, which a duplicate suppresses together with the state update |
| Silver.FailsIff | internal/transformer/service.go:415-461 | an event fails exactly when it is malformed or needs an issue of a project that Silver does not have, and then changes nothing |
| Silver.StepKeepsKeysValid | db/migrations/000006_create_issue_events_table.up.sql:7-8 | every step keeps the foreign keys of issues, events and comments |
| SilverContents.RowsAreTransitions | internal/transformer/service.go:256-269 | after any stream, issue_events holds one row for the first transition of each id, in the order of the stream, with the id, issue, state, labels, author and time of that event |
| SilverContents.CommentsAreUserNotes | internal/transformer/service.go:304-352 | after any stream, the comments are the first user notes of each id, in the order of the stream, with their id, issue, author, body and time |
| SilverContents.IssuesAreTouched | internal/transformer/service.go:415-461 | after any stream, the issues are those of known projects with an event that has an effect, each with the title and id of raw_issues or the placeholders |
| SilverContents.StepFilesLabel | internal/transformer/service.go:464-505 | an event lists its label under the key the mapping gives, and whatever else is listed under any key of any issue stays as it is |
| SilverContents.LabelsAreFiled | internal/transformer/service.go:180-204 | after any stream, a label is listed under a key exactly when an event of the issue added it and the mapping gives that key |
| SilverContents.CacheIsLastKnown | internal/transformer/service.go:286-298 | after any stream, in time order or not, the cached state is that of the row inserted last whose state is known |
| TableInvariants.ReachableTablesAreValid | db/query/issue_events.sql:3-9 | after any stream: event ids unique per project, note ids unique, metadata labels listed once, the cached state never UNKNOWN |
| TableInvariants.IndexNeverRefusesIff | db/migrations/000005_create_issues_table.up.sql:25-27 | after no stream does the unique index refuse a stub exactly when no two issues of known projects share a positive GitLab id |
| TransformerService.Service.EnsureIssue | internal/transformer/service.go:415-461 | an existing row is kept; otherwise a stub with the raw issue's title and id or placeholders, refused without a project row |
| TransformerService.Service.UpdateIssueMetadata | internal/transformer/service.go:464-505 | the label is appended to its key's list unless it is there, and nothing else changes |
| TransformerService.Service.TransformLabelEvent | internal/transformer/service.go:164-301 | the mutable tables end as the Silver step says, and the outcome is its outcome |
| TransformerService.Service.ProcessAssigneeChanges | internal/transformer/service.go:355-411 | all changes of a note applied in order; skipping the write when nothing was modified loses nothing |
| TransformerService.Service.TransformNote | internal/transformer/service.go:304-352 | user notes become comments once, assignee notes update the history, other system notes are skipped |
| TransformerService.Service.TransformEvent | internal/transformer/service.go:151-161 | dispatch by event type against the Silver step |
| TransformerService.Service.TransformRows | internal/transformer/service.go:88-101 | the loop folds the whole window and collects exactly the rows that do not fail |
| TransformerService.FoldSkipsFailing | internal/transformer/service.go:89-98 | folding a window is folding its good rows |
| TransformerService.Service.TransformBatch | internal/transformer/service.go:64-117 | one batch folds the good rows of the window into Silver, counts them, and marks them and nothing else unless marking fails |
| TransformerService.Service.TransformAll | internal/transformer/service.go:120-148 | terminates; whatever fails around the batches, a prefix of the rows that batches can reach is applied in table order and the counted part of it is marked; without error it is all of them, and no row of the next window can be transformed |
| Bronze.ReachedIff | db/query/raw_events.sql:13-19 | a row is transformed exactly when it does not fail and fewer than a batch of failing rows precede it |
| Bronze.BatchAdvances | internal/transformer/service.go:132-143 | each batch applies the next rows of the single-pass order, although failed rows stay in front of the window |
| Bronze.DrainedIsOnePass | internal/transformer/service.go:119-148 | with fewer failing rows than the batch size, an error-free run equals one pass over the pending rows and leaves exactly the failing rows |
| Bronze.DrainedWithoutFailures | internal/transformer/service.go:119-148 | when nothing fails, the result is the fold of all pending rows for every batch size of at least one, and nothing stays pending |
| Replay.CopyIsAbsorbed | internal/transformer/service.go:270-278 | a label event or user note with the id of an earlier one changes nothing, now or later, whatever else it says by then |
| Replay.OnlyFirstCopiesMatter | db/query/issue_events.sql:8-9 | a stream with any number of copies and edited versions leaves the tables that the first event of each id leaves |
| Replay.RefetchedListCountsOnce | internal/sync/extractor.go:268-312 | for one list alone: however often it is fetched while it grows, its first copies are the list fetched last, in its own order |
| Fetches.LabelEventsOfFirstCopies | db/query/issue_events.sql:8-9 | in any stream, the first copies among the label events of an issue are the label events of that issue among the first copies |
| Fetches.RefetchedLabelEventsCountOnce | internal/sync/extractor.go:268-312 | in any stream whose label events of an issue are a list fetched again and again, their first copies are the list fetched last, in its own order |
| Locality.StepIsLocal | internal/transformer/service.go:227-290 | what an event does to its issue is a function of what Silver holds about that issue |
| Locality.IssuesAreIndependent | internal/transformer/service.go:151-161 | an issue's row, events and comments depend only on the subsequence of its own events |
| IncrementalEvents.StreamsAreCoherent | internal/transformer/service.go:233-298 | over every stream with chronological first copies, each issue's rows are in time order, each was judged against the non-noise rows before it, and the cache is the last known state |
| Fetches.WrittenChanges | internal/sync/extractor.go:201-312 | in what fetches of any issues write, label events first, the assignee changes of each issue are those of its notes, fetched again and again |
| Fetches.WrittenIsChronological | internal/sync/extractor.go:201-312 | the first copies in what fetches of any issues write are chronological when GitLab lists label events in time order |
| Fetches.WrittenTimelines | internal/sync/extractor.go:201-312 | after whatever such fetches write, the timeline and the cache of every issue are coherent |
| Fetches.WrittenHistory | internal/sync/extractor.go:201-312 | after whatever such fetches write, the stored history covers exactly the assignments in the notes, and is that of one pass, or in order, exactly under the conditions on the notes fetched again |
| EventTimelines.KeptRowsAreSpaced | internal/transformer/edge_cases.go:19-36 | neighbouring non-noise rows repeat a state, leave BACKLOG, or lie at least fifteen minutes apart |
| EventTimelines.NoiseIsClose | internal/transformer/edge_cases.go:13-36 | a noise row lies less than fifteen minutes after the newest earlier non-noise row, which has another state and is not BACKLOG |
| EventTimelines.CyclesCountReturns | internal/transformer/edge_cases.go:58-71 | the stored count of a non-noise row is the number of QA_REVIEW to IN_PROGRESS steps among the non-noise rows up to it |
| Timelines.CoherentTimelinesArise | internal/transformer/service.go:233-278 | rows in time order, each judged against the non-noise rows before it, are left by a stream of label events in time order |
| StateTimeline.InTimeOrderPermutes | db/migrations/000016_fix_noise_wip_operational_state.up.sql:30-33 | the ordered rows are the stored rows |
| StateTimeline.InTimeOrderIsStable | db/migrations/000016_fix_noise_wip_operational_state.up.sql:30-33 | rows stored in time order keep their places |
| StateTimeline.CollapseAlternates | db/migrations/000016_fix_noise_wip_operational_state.up.sql:38-43 | after the collapse no two neighbours have the same state |
| StateTimeline.CollapseShape | db/migrations/000016_fix_noise_wip_operational_state.up.sql:38-43 | kept rows are stored rows, the first row is kept, the last state stays the last state |
| StateTimeline.CollapseKeepsStateInForce | db/migrations/000016_fix_noise_wip_operational_state.up.sql:11-83 | at every instant the same state is in force before and after the collapse |
| StateTimeline.CollapseIsIdempotent | db/migrations/000016_fix_noise_wip_operational_state.up.sql:38-43 | collapsing twice changes nothing |
| StateTimeline.ReopenedIsDoneLeft | db/migrations/000016_fix_noise_wip_operational_state.up.sql:146-154 | reopenings are DONE entries minus one if the issue is DONE last |
| StateTimeline.ReturnsAreEntries | db/migrations/000016_fix_noise_wip_operational_state.up.sql:143-150 | returns from QA never exceed the IN_PROGRESS entries nor the QA_REVIEW entries that were left |
| StateTimeline.EntriesCount | db/migrations/000016_fix_noise_wip_operational_state.up.sql:143-146 | the entries of a state are as many as the transitions into it |
| StateTimeline.ReopenedCounts | db/migrations/000016_fix_noise_wip_operational_state.up.sql:151-154 | reopenings are as many as the transitions from DONE to another state |
| StateTimeline.ReturnsCount | db/migrations/000016_fix_noise_wip_operational_state.up.sql:147-150 | returns are as many as the transitions from QA_REVIEW to IN_PROGRESS |
| StateTimeline.CollapseKeepsReturns | db/migrations/000016_fix_noise_wip_operational_state.up.sql:147-150 | the collapse does not change the number of returns |
| ReworkCounts.MaxCyclesAre | db/migrations/000016_fix_noise_wip_operational_state.up.sql:155 | the largest stored count over the collapsed rows is the number of returns among the non-noise rows, plus one when the last return is itself noise |
| ReworkCounts.MaxCyclesIsMaximum | db/migrations/000016_fix_noise_wip_operational_state.up.sql:155 | the largest stored count is one of the counts and none is larger |
| ReworkCounts.MaxCyclesIsReturnsIff | db/migrations/000016_fix_noise_wip_operational_state.up.sql:147-155 | the largest stored count equals the count the view computes exactly when noise hides as many returns as it leaves hanging |
| ReworkCounts.MaxCyclesIsReturns | db/migrations/000016_fix_noise_wip_operational_state.up.sql:147-155 | without noise the two counts are equal |
| ReworkExamples.NoiseHidesReturns | db/migrations/000016_fix_noise_wip_operational_state.up.sql:147-155 | a stream after which the view counts two returns and the stored counts one |
| ReworkExamples.NoiseHidesReturnsFromView | db/migrations/000016_fix_noise_wip_operational_state.up.sql:147-155 | a stream after which the stored counts have one return and the view none |
| ReworkExamples.FailedInsertInventsReturn | internal/sync/extractor.go:99-121 | a stream with an event that is inserted only after a later one, after which the stored counts have a return and the view none |
| StateCache.CacheAgreesIff | db/migrations/000016_fix_noise_wip_operational_state.up.sql:116-133 | for every chronological stream the cached state equals the derived one exactly when the last event is not UNKNOWN |
| LifecycleRollup.HorizonOfFinished | db/migrations/000016_fix_noise_wip_operational_state.up.sql:184-187 | the horizon of a finished issue is the entry time of its last transition, otherwise the current time |
| LifecycleRollup.ClippingIsLossless | db/migrations/000016_fix_noise_wip_operational_state.up.sql:179-196 | LEAST and GREATEST shorten no interval and hide no negative one |
| LifecycleRollup.IntervalsTile | db/migrations/000016_fix_noise_wip_operational_state.up.sql:173-275 | clipped intervals of all states add up to the span from the first transition to the horizon |
| LifecycleRollup.TimeMeasuresStates | db/migrations/000016_fix_noise_wip_operational_state.up.sql:173-275 | for every set of states and every horizon, the clipped time is the number of instants from the first transition to the horizon at which one of the states is in force |
| LifecycleRollup.RoundedIsNearest | db/migrations/000016_fix_noise_wip_operational_state.up.sql:199 | the two-decimal figure is a nearest hundredth of an hour, ties away from zero |
| LifecycleRollup.CycleTimeSplits | db/migrations/000016_fix_noise_wip_operational_state.up.sql:173-275 | cycle time is in-progress plus QA time, fits into the span together with blocked time, and the rounded columns differ by at most 0.01 |
| LifecycleRollup.TransitionsOfStoredRows | db/migrations/000016_fix_noise_wip_operational_state.up.sql:11-83 | whatever rows an issue has, its transitions are in time order, alternate, and start at its earliest row |
| LifecycleRollup.RollupOfStoredRows | db/migrations/000016_fix_noise_wip_operational_state.up.sql:135-275 | over the stored rows of an issue the times add up to the span from the earliest row to the horizon, cycle time splits, and the counts belong together |
| LifecycleRollup.StoredTimeMeasuresStates | db/migrations/000016_fix_noise_wip_operational_state.up.sql:11-275 | the same over the stored rows of an issue: the time of a set of states is the time from the earliest row to the horizon during which the last row so far has one of them |
| AssigneeHours.FirstDoneAfterIsEarliest | db/migrations/000017_assignee_cycle_time.up.sql:17-22 | an open period ends at the earliest DONE event strictly after its start, if there is one |
| AssigneeHours.WindowOrderExists | db/migrations/000017_assignee_cycle_time.up.sql:44-53 | for all periods and events the joined rows have an order the window may see: non-descending timestamps, the row without an event last |
| AssigneeHours.RowLastsInItsPeriod | db/migrations/000017_assignee_cycle_time.up.sql:44-66 | although the window runs over all periods of a user, each row lasts, non-negatively, until the next row of its own period or the end of it |
| AssigneeHours.HoursMeasureStates | db/migrations/000017_assignee_cycle_time.up.sql:33-70 | the hours of a set of states are the instants inside the periods at which the latest event of the period is in one of the states, unless a tie divides the set |
| AssigneeStates.CountsAreStatesInForce | db/migrations/000017_assignee_cycle_time.up.sql:33-53 | inside a period, what counts for a set of states are the instants at which one of them is in force among the non-noise rows from the start of the period on |
| AssigneeStates.HoursAreTimeInStates | db/migrations/000017_assignee_cycle_time.up.sql:33-70 | the hours of a set of states are the time the periods spend in them, in that sense, unless a tie divides the set |
| AssigneeStates.NoiseIsInvisible | db/migrations/000017_assignee_cycle_time.up.sql:52 | at every instant of every period, what counts is the same with the noise rows and without them |
| AssigneeStates.HoursIgnoreNoise | db/migrations/000017_assignee_cycle_time.up.sql:49-70 | the hours of a set of states over all rows equal those over the rows without noise |
| AssigneeHours.HoursAreSharesOfPeriods | db/migrations/000017_assignee_cycle_time.up.sql:33-70 | for disjoint periods and every order of ties, the hours add up to period end minus first event inside, or the whole period when it holds none |
| AssigneeHours.HoursSplitByState | db/migrations/000017_assignee_cycle_time.up.sql:77-82 | hours split by state, are never negative and never exceed the total |
| AssigneeHours.OrderFreeIff | db/migrations/000017_assignee_cycle_time.up.sql:44-47 | the hours of a set of states are the same for every order of ties exactly when no two events of one period and instant are divided by the set |
| AssigneeHours.SplitIsOrderFreeIff | db/migrations/000017_assignee_cycle_time.up.sql:44-47 | all hours are independent of the order exactly when events of one period and instant have one state |
| AssigneeExamples.TiesLeaveBacklog | internal/transformer/edge_cases.go:19-36 | of two non-noise rows of one instant and different states, the earlier is BACKLOG; this rests on the newest event being, among equal timestamps, the one inserted last, which db/query/issue_events.sql:33-38 leaves open |
| AssigneeExamples.TieOrderDecidesState | db/migrations/000017_assignee_cycle_time.up.sql:44-47 | one stream of label events and an assignee note, after which the order of a tie gives IN_PROGRESS an hour or nothing |
| AssigneeTime.AssignedMillisIsAssignedTime | internal/transformer/assignees.go:103-179 | for notes in time order the stored periods of a user last as many milliseconds as there are instants of assignment up to now |
| AssigneeTime.HoursNeverExceedAssignment | db/migrations/000017_assignee_cycle_time.up.sql:7-88 | hours never exceed assigned time, and equal it exactly when every period that holds an event starts with one and no open period has a DONE event between its start and now |
| AssigneeTime.HoursOfStream | db/migrations/000017_assignee_cycle_time.up.sql:7-88 | the same over what is in Silver after any stream in which the changes of the issue are fetched again and again, when each part fetched again is repeatable, against the instants of assignment in the notes |
| AssigneeTime.HoursWithoutEvents | db/migrations/000017_assignee_cycle_time.up.sql:33-70 | for any periods, in order or not, the hours of an issue without events are the signed lengths of the periods |
| AssigneeTime.HoursAfterRefetches | db/migrations/000017_assignee_cycle_time.up.sql:7-88 | after n further fetches of notes in time order, without events: the assigned time n + 1 times for a user who is not assigned any more, and the assigned time less n times the absence since the first unassignment for one who is |
| AssigneeTime.HoursSurviveRefetchesIff | db/migrations/000017_assignee_cycle_time.up.sql:7-88 | those hours are the assigned time exactly when there was no further fetch, or no such time to add or take away |
| AssigneeExamples.DoneEndsOpenPeriod | db/migrations/000017_assignee_cycle_time.up.sql:15-24 | one stream of label events and an assignee note, after which half of the assigned time is missing, because the issue is done |
| AssigneeExamples.TimeBeforeFirstEventIsLost | db/migrations/000017_assignee_cycle_time.up.sql:49-53 | one stream of label events and an assignee note, after which the time before the first event is missing |
| AssigneeExamples.RefetchLosesHours | db/migrations/000017_assignee_cycle_time.up.sql:7-88 | three assignee notes fetched twice, after which ten of twenty assigned minutes are reported |
| SyncProtocol.ApplyKeepsInv | internal/sync/extractor.go:82-136 | every atomic action keeps that missing events are recent for all commits, and covered by every run that is under way |
| SyncProtocol.CursorSafety | internal/sync/extractor.go:82-136 | over all interleavings, overlapping runs included, an event is in Bronze, or its issue will be listed again, or a failure hit it in a run that still advanced the cursor |
| SyncHistory.RunsStartAtTheirCursor | internal/sync/extractor.go:71-74 | over every interleaving, a run extracts from the cursor that was stored when it read its project row |
| SyncHistory.SyncIsIncremental | internal/sync/extractor.go:71-84 | without overlap, a run under way extracts from the cursor that is stored now |
| SyncHistory.ReachableRunsAreRecent | internal/sync/extractor.go:201-237 | whatever a run still has to fetch or insert, or has given up, belongs to issues of its project updated less than a second before its cursor or later |
| SyncHistory.OnlyRecentIsInserted | internal/sync/extractor.go:97-121 | so does every event that is inserted, and GitLab has it |
| SyncHistory.BronzeIsInserted | internal/sync/extractor.go:97-121 | an event is in Bronze exactly when some run inserted it out of what it had fetched |
| SyncHistory.LostHasFailed | internal/sync/extractor.go:99-121 | an event counts as lost only when a fetch of its issue or its insert failed in a run that went on to commit |
| SyncProtocol.CursorsNeverDecrease | db/query/projects.sql:4-43 | without overlap no action moves a cursor back, and both rows stay equal |
| SyncProtocol.CursorsMoveInLockstep | internal/discovery/service.go:165-194 | without overlap both cursors are equal whenever both rows exist, however discoveries are interleaved |
| SyncProtocol.CursorMovesBackIff | db/query/projects.sql:27-40 | with overlap an action moves the Bronze cursor back exactly when a run commits after one that started later, and the Silver cursor exactly when it commits a start before that cursor |
| SyncProtocol.CursorsPartIff | db/query/projects.sql:4-17 | from equal cursors, an action makes them differ exactly when a discovery writes to the Silver row a cursor it read before the row was moved back |
| SyncProtocol.CursorsAlwaysAgreeIff | db/query/projects.sql:4-43 | over any run, overlapping or not, the cursors agree at every moment exactly when no discovery does that |
| SyncProtocol.OverlapBreaksTheCursors | internal/scheduler/scheduler.go:42-73 | a concrete interleaving of two runs of one project in which the cursor goes back and the two cursors differ |
| Workers.Shared.Do | internal/sync/extractor.go:62-152 | one atomic action on the shared world, recorded |
| Workers.Shared.Interfere | internal/scheduler/scheduler.go:68-75 | the rest of the system acts and leaves the run or discovery alone |
| Workers.FetchIssueRawEvents | internal/sync/extractor.go:268-312 | label events and then notes, with others acting in between: everything the issue had before the first call, or nothing when a call fails |
| Workers.FetchIssueNotes | internal/sync/extractor.go:292-309 | the second call completes the issue or drops its label events too |
| Workers.FetchIssues | internal/sync/extractor.go:212-236 | a failed fetch skips its issue only; the events of every other listed issue are collected once |
| Workers.FetchProjectRawEvents | internal/sync/extractor.go:201-237 | a failed listing ends the run; otherwise everything that was due is collected, and only events of issues of the project updated since the cursor |
| Workers.InsertEvents | internal/sync/extractor.go:99-121 | a failed insert skips its event only; every other collected event is in Bronze afterwards |
| Workers.CommitOrFail | internal/sync/extractor.go:124-136 | success means that one row of each table was updated; with a row missing neither cursor moves |
| Workers.ExtractProject | internal/sync/extractor.go:62-152 | under any interference the run ends; success means that both cursors stand at its start time and everything that was due when it began is in Bronze |
| Discovery.AddProjects | internal/discovery/service.go:129-134 | the seen set and the result follow the projects read so far |
| Discovery.FetchAllGroupProjects | internal/discovery/service.go:120-137 | the first project of every id over all groups, or the error of the first group that fails |
| Discovery.FlattenIsAll | internal/discovery/service.go:120-137 | when every group can be listed, the projects are those of all groups, each in its place, and no others |
| Discovery.FlattenFailsIff | internal/discovery/service.go:124-128 | listing fails exactly when some group cannot be listed |
| Discovery.NoIdTwice | internal/discovery/service.go:120-137 | no project id is returned twice |
| Discovery.NoIdIsLost | internal/discovery/service.go:120-137 | exactly the ids that were listed are returned |
| Discovery.FirstByIdKeepsFirst | internal/discovery/service.go:129-134 | each id is represented by its first occurrence |
| Discovery.FirstByIdKeepsOrder | internal/discovery/service.go:129-134 | the projects returned stand in the order in which they were listed |
| Discovery.PersistProject | internal/discovery/service.go:153-197 | under any interference between its three statements, success leaves both rows in place and nothing of GitLab or Bronze is lost |

## Left out

- Database errors inside the transformation of one event, other than the missing project row, and the error paths that the code only logs.
- `unknown_labels_log`: written and never read by the pipeline, and counted again for every retry and copy.
- Re-fetched assignee notes in `Replay.OnlyFirstCopiesMatter`, which keeps every copy of them: their effect is stated for the history of each issue by `RefetchedHistory` and `WrittenHistory`.
- The hours after further fetches of an issue that also has events: `HoursAfterRefetches` is about issues without events, and `HoursOfStream` about repeatable notes.
- Fetches.WrittenTimelines: failed inserts and overlapping fetches of one issue are not covered, because they can break the order of arrival.
- `detectFalseMovement`: its result is only logged.
- The surrogate ids, `gitlab_created_at`, `updated_at` and the raw event's own GitLab id column.
- 32-bit wrap-around of `cycle_count` and of GitLab ids, and sub-millisecond time.
- Non-ASCII text in notes, and Unicode label normalisation.
- `ExtractAll` and `Run` as loops over projects, and the upsert of raw_issues during extraction.
- Pagination effects inside one listing: a listing is a snapshot.
- The HTTP client, rate limiting, JSON coding, metrics, tracing, configuration, scheduling times, dead-letter queue and sync_state.
- The `first_*` columns, lead times, flow efficiency, project-level averages and percentiles, and the materialised view.
- Workers.Shared.Interfere: foreign actions that name the same run or discovery number are excluded, because run numbers stand for separate calls.
