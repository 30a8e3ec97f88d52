# Verified models of a bug, issue and CI result search service

The service mirrors bugs, issues and CI job results to disk, keeps indexes of them and searches them. This
project models the small machines underneath and proves what they keep. Each Dafny file is one module.

* **Comment files** (`Text`, `Calendar`, `CommentSection`, `CommentRoundTrip`, `DiskLines`, `DiskItems`,
  `BugzillaDisk`, `BugzillaRoundTrip`, `BugzillaTimes`, `BugzillaRewrite`, `JiraDisk`, `JiraRoundTrip`,
  `JiraRewrite`): the printers, and the readers whose scanner changes its split rule with a mutable phase. Round
  trips are stated as if-and-only-if.
* **Build download** (`BuildProtocol`, `BuildInvariants`, `BuildRuns`, `BuildProgress`, `BuildSuccess`,
  `BuildOutcome`, `BuildLogs`, `BuildTimeouts`): the goroutines, unbuffered channels, wait groups and contexts of
  `ReadBuild` as one step system, for any number of objects. One step is one channel operation, close, or call; a
  call that fails is a step of its own.
* **Checkpointed batch inserter** (`BatchInserter`, `BatchCheckpoints`, `BatchCatchUp`, `BatchDrops`): every
  database call may fail at any time.
* **Bug watcher and comment store** (`PollingWatcher`, `PollingRuns`, `CommentStore`, `CommentHistory`).
* **Grep output and batching** (`GrepOutput`, `GrepGroups`, `GrepStops`, `GrepBatching`).
* **Fast forms of simple searches**: the time range scan (`StampOrder`, `JobRange`, `JobRangeScan`), the
  remembered job list (`JobList`, `JobListRuns`), aligned series (`SeriesAlignment`) and the path index
  (`PathIndex`, `PathSearch`). `Filters`, `Sorting` and `Wrappers` are shared.

Code that changes things step by step is a method or a class with fields, proved equal to a specification
function; the results are lemmas about that function. Files, the database, the bug server, the bucket, clocks and
the grep command are parameters. A string stands for the bytes or code points the code handles.

## Where the code does less than it seems to

* Write, read, write is not the identity for a status of several words: the reader cuts it at its first blank,
  and without a resolution the printed line changes. The environment is printed without the blank that its
  reader asks for, and is never read back; `BugzillaRewrite.OnlyEnvironmentLost` says when nothing else changes.
* The newest time of a bug's comments is found by comparing `Time` and keeping `CreationTime`, so where the two
  differ it need not be the latest of either. `BugzillaTimes.LatestExactly` says exactly when it is the latest
  creation time at every step, and `BugzillaTimes.NewestIsChosen` what it is in any case.
* The target versions of an issue are printed and never read back; `JiraRewrite.OnlyVersionsLost` says when nothing
  else changes.
* The listing of a resumed metrics scrape begins at the resume key itself, and a first scrape has no resume key.
  Either way a completion makes no progress, and a batch that fills before the next one is dropped without a
  commit. `BatchDrops.DropsExactly` says exactly when.
* The watcher ignores its include function: `newPeriodicWatcher` takes one and stores it nowhere, so a watch sends
  every bug its polls return, and a bug that lists leave out still reaches the informer and moves the mark.
  `PollingRuns.FilterHoldsExactly` says exactly when a watch sends included bugs only.
* The watcher compares whole seconds. A bug changed in the mark's own second, after the poll that set it, is not
  sent until some bug changes in a later second, so the bound of `PollingRuns.NothingIsSkipped` is strict;
  `PollingRuns.SentExactly` says exactly what was sent.
* The first receive loop of `ReadBuild` does not watch the context: after a timeout the caller can wait for ever,
  or call `Finished` although suites were lost. `BuildTimeouts.ReturnsExactly` says exactly when the caller is sure
  to return, and `BuildTimeouts.HandedExactly` when an object is sure to be handed over before `Finished`.
* `readJobRange` always searches a whole day: each case of its switch falls through to the last one. Jobs
  completed at exactly midnight UTC are never passed on. Names that are not well-formed are passed on when their
  bytes fall in the range.
* The name buffer of `runSingleCommand` begins as 1024 NULs rather than empty, so the budget is already checked
  before the first group.
* Deleting a bug from a comment store without a persistent store dereferences nil.
* A path that begins with the base directory's name is stored under a shorter path and cannot be looked up.

## Model

| member | source | states |
|---|---|---|
| `BuildInvariants.StepKeeps` | prow/process.go:64-197 | every step of every goroutine, in any interleaving and with the context ended or not, keeps one invariant over channels, closers, wait groups, workers and the caller |
| `BuildInvariants.StageKeeps` | testgrid/util/gcs/read.go:310-332 | the wait-and-close goroutine and the final select of `Suites` and of `LogAccumulator.Artifacts` keep it |
| `BuildInvariants.WorkerKeeps` | testgrid/util/gcs/read.go:289-307 | a suite worker or a log worker keeps it, also when it loses to a cancelled context |
| `BuildRuns.RunKeeps` | prow/process.go:56-197 | the invariant holds after every run from the start |
| `BuildRuns.ChannelsUsedSafely` | prow/process.go:101-149 | in every run, with errors or a timeout, whoever is about to send finds the channel open, and whoever is about to close one finds it open |
| `BuildRuns.FinishedSeesEverything` | prow/process.go:188-197 | while the context has not ended, `Finished` runs only after the one successful `AddMetadata`, after every object was listed, every junit object was handed to `AddSuites`, and every log worker is gone |
| `BuildRuns.NilComesAfterMetadata` | prow/process.go:152-178 | while the context has not ended, the waiter offers its nil only after both metadata values were received |
| `BuildRuns.CalledAtMostOnce` | prow/process.go:179-196 | `AddMetadata` and `Finished` run at most once, the second only after the first succeeded, also under a timeout |
| `BuildLogs.LogsReadExactly` | prow/process.go:503-520 | when `Finished` is about to run and the context has not ended, a build log was downloaded if and only if the metadata said that the build has finished and did not succeed |
| `BuildLogs.HandedWasRead` | testgrid/util/gcs/read.go:289-307 | in every run, with or without a timeout, only junit files that were read are handed to `AddSuites` |
| `BuildProgress.WhereRunsStop` | prow/process.go:160-193 | a run can stop exactly where every goroutine is gone and the caller has returned or waits in its first receive loop |
| `BuildProgress.NeverStuckWhileLive` | prow/process.go:399-406 | while the context has not ended some goroutine can move, although log workers wait for metadata that only the caller brings |
| `BuildProgress.StepDecreases` | prow/process.go:56-197 | every step lowers one measure |
| `BuildProgress.RunsAreFinite` | prow/process.go:56-197 | no run has more than 10 n + 40 steps for n listed objects |
| `BuildProgress.UntimedRunsReturn` | prow/process.go:160-197 | a run without a timeout that cannot go on has returned and left no goroutine behind |
| `BuildSuccess.UnfailedRunsSucceed` | prow/process.go:160-197 | a run with no timeout and no failing call that cannot go on has returned nil and left no goroutine behind |
| `BuildSuccess.SuccessInReach` | prow/process.go:56-197 | every run with no timeout and no failing call can be continued by such steps until the caller returns nil |
| `BuildOutcome.OutcomeExactly` | prow/process.go:152-197 | a run without a timeout that cannot go on has returned nil if and only if no call failed, and otherwise tells whether it was `AddMetadata` that did; no failure of a fetcher, the lister or a worker is lost |
| `BuildTimeouts.TimeoutCanHangCaller` | prow/process.go:162-178 | for every listing, a run whose context ends at once can leave the caller in the first receive loop for ever, because that loop does not watch the context |
| `BuildTimeouts.ReturnsExactly` | prow/process.go:162-193 | after any run, the caller returns wherever the run may stop if and only if it has left the first receive loop |
| `BuildTimeouts.TimeoutCanFinishEarly` | prow/process.go:183-193 | for every listing and each junit object in it, a run in which `Finished` may run although the object was never handed over |
| `BuildTimeouts.HandedExactly` | prow/process.go:183-196 | after any run, every continuation that calls `Finished` has handed a given object to `AddSuites` if and only if that was done or begun already, or `Finished` cannot be called any more |
| `BuildTimeouts.FinishInReachExactly` | prow/process.go:162-197 | after any run, some continuation calls `Finished` if and only if the missing metadata values can still come and the waiter has not left without being heard |
| `Text.LineSafe` | bugzilla/commentsdisk.go:182-184 | the result is on one line without blank ends, and is the argument exactly when that already was |
| `Text.LineSafeIs` | bugzilla/commentsdisk.go:182-184 | it is the argument with blanks for line breaks, between two stretches of white space |
| `Text.SpacesAre` | bugzilla/commentsdisk.go:182-184 | white space is the 25 code points of the Unicode property |
| `DiskLines.ArrayLineSafe` | bugzilla/commentsdisk.go:185-191 | the loop yields the line-safe items joined by the delimiter |
| `CommentSection.Scanner.Scan` | bugzilla/commentsdisk.go:281-304 | the split rule of the current phase: a line, or everything up to the delimiter or the end |
| `CommentSection.ReadSection` | bugzilla/commentsdisk.go:401-442 | the loop over the mutable phase computes the parse of the section, errors included |
| `CommentSection.WriteSection` | bugzilla/commentsdisk.go:227-241 | the loop prints every comment in turn |
| `CommentRoundTrip.SectionReadBack` | bugzilla/commentsdisk.go:401-442 | comments with readable headers are read back in order with escaped texts, for any text |
| `CommentRoundTrip.SectionRoundTrip` | bugzilla/commentsdisk.go:227-241 | for both file formats: reading back a printed section gives the comments if and only if every header is readable |
| `CommentRoundTrip.LastTextUnterminated` | bugzilla/commentsdisk.go:281-304 | a section that ends without its last delimiter is read as the same comments |
| `CommentRoundTrip.HeaderAlone` | bugzilla/commentsdisk.go:409-437 | a comment header with nothing after it is dropped |
| `CommentRoundTrip.LineEnds` | bugzilla/commentsdisk.go:281-286 | a line ends at its line break or with the file, and loses one carriage return |
| `CommentRoundTrip.StampsAre` | jira/commentsdisk.go:249-249 | the timestamp patterns of both header expressions, character by character |
| `CommentRoundTrip.HeaderExactly` | bugzilla/commentsdisk.go:257-262 | exactly which lines match the comment header expression, and with which parts |
| `DiskLines.TitleExactly` | bugzilla/commentsdisk.go:257-262 | exactly which lines match the title expression, and with which parts |
| `DiskLines.NoSeparatorRead` | bugzilla/commentsdisk.go:394-403 | a header without a separator line is an error, whatever its lines |
| `CommentRoundTrip.BadHeader` | bugzilla/commentsdisk.go:409-425 | which header lines of comments stop the reader, and with which error |
| `Calendar.StampRoundTrip` | bugzilla/types.go:178-181 | an RFC 3339 timestamp (section 5.6) of a time in years 0 to 9999 is read back as that time to the second |
| `Calendar.NumberCivil` | bugzilla/types.go:178-181 | dates and day numbers of the calendar are each other's inverse |
| `Calendar.DayNumberIs` | bugzilla/types.go:178-181 | the day number of a date is given by a closed formula without months or leap years |
| `Calendar.UnixDay` | bugzilla/types.go:178-181 | in which 1970-01-01 is day 719528 |
| `Calendar.StampMeans` | bugzilla/types.go:178-181 | the timestamp of a date and a clock time, digit by digit, and the seconds that it stands for |
| `Calendar.StampReprinted` | bugzilla/commentsdisk.go:423-430 | a timestamp that is read is what its time would be printed as, so nothing out of range is read |
| `BugzillaDisk.SetFieldsFromBugComments` | bugzilla/types.go:163-176 | the loop finds the oldest and newest times as specified |
| `BugzillaDisk.Write` | bugzilla/commentsdisk.go:193-241 | the printer produces header and section |
| `BugzillaDisk.ReadBugComments` | bugzilla/commentsdisk.go:267-446 | the reader with its phases computes the parse of the file, errors included |
| `BugzillaRoundTrip.HeaderReads` | bugzilla/commentsdisk.go:325-393 | what each of the header lines is read back as, for any field values |
| `BugzillaRoundTrip.FileRoundTrip` | bugzilla/commentsdisk.go:193-255 | a written bug file is read back as every comment with its id, trimmed author, time to the second and escaped text, if and only if ids are non-negative, authors non-blank and on one line, and times non-zero |
| `BugzillaRoundTrip.NegativeTitleUnread` | bugzilla/commentsdisk.go:259-259 | a bug with a negative id is written to a file that cannot be read |
| `BugzillaTimes.CreatedIsOldest` | bugzilla/types.go:163-176 | the creation time of a file read back is the earliest of its comments' |
| `BugzillaTimes.NewestIsChosen` | bugzilla/types.go:171-173 | the newest time is `t` if and only if `t` is the start and no comment's `Time` is after it, or `t` is the `CreationTime` of a comment that passed the guard and no later `Time` is after it |
| `BugzillaTimes.NewestCanBeOlder` | bugzilla/types.go:171-173 | the loop compares `Time` and keeps `CreationTime`, so that a comment made earlier with a later `Time` comes out as the newest |
| `BugzillaTimes.LatestExactly` | bugzilla/types.go:171-173 | after each comment the loop holds the latest `CreationTime` so far if and only if no comment's two times stand on different sides of the latest `CreationTime` before it |
| `BugzillaTimes.VersionIsNewest` | bugzilla/types.go:163-176 | the resource version of a file read back is the latest of its comments' times, where both times agree |
| `BugzillaRewrite.StatusRewritten` | bugzilla/commentsdisk.go:331-339 | the status line is printed again as it was exactly when the status is one word, or a resolution follows and single blanks surround the cut |
| `DiskLines.ListReprinted` | bugzilla/commentsdisk.go:355-393 | a list printed and read with the same delimiter is printed again as it was exactly when no piece has blank ends |
| `DiskLines.VersionReprinted` | bugzilla/commentsdisk.go:377-382 | the version list, printed with `, ` and read at `,`, is printed again as it was exactly when each comma is followed by one blank |
| `DiskItems.ListKeptByItems` | bugzilla/commentsdisk.go:355-360 | in terms of the items: a list comes back as printed exactly when, in the line-safe form of each item, no further blank stands around a comma that has a blank after it |
| `DiskItems.VersionKeptByItems` | bugzilla/commentsdisk.go:377-382 | the version list comes back as printed exactly when, besides that, each comma in an item has a blank after it |
| `BugzillaRewrite.LinesRewritten` | bugzilla/commentsdisk.go:325-393 | line by line, exactly when each header field is printed a second time as it was, whatever becomes of the others |
| `BugzillaRewrite.FieldsRewritten` | bugzilla/commentsdisk.go:325-393 | all header fields are printed a second time as they were if and only if status and lists survive the cuts and the environment is blank |
| `BugzillaRewrite.FileRewritten` | bugzilla/commentsdisk.go:193-255 | write, read, write gives the same bytes if and only if the listed fields survive the cuts, the environment line is blank, and no time loses its only seconds |
| `BugzillaRewrite.OnlyEnvironmentLost` | bugzilla/commentsdisk.go:193-255 | for any environment, write, read, write gives the same bytes but for the text of the environment line, which becomes empty, if and only if the listed fields survive the cuts and no time loses its only seconds |
| `BugzillaRewrite.DropCRsIs` | bugzilla/commentsdisk.go:219-219 | the environment is printed without its carriage returns and with all else, in order |
| `BugzillaRewrite.UsualFieldsKept` | bugzilla/commentsdisk.go:182-224 | one-word statuses and list items without commas survive |
| `BugzillaRewrite.TwoWordStatusChanges` | bugzilla/commentsdisk.go:331-339 | a two-word status without a resolution is printed differently the second time |
| `JiraDisk.NameText` | pkg/jira/helpers.go:32-62 | a nil name prints as nothing, any other as the line-safe name |
| `JiraDisk.Write` | jira/commentsdisk.go:181-229 | the Jira printer produces header and section |
| `JiraDisk.ReadBugComments` | jira/commentsdisk.go:256-423 | the Jira reader with its phases computes the parse of the file, errors included |
| `JiraRoundTrip.FieldsFold` | jira/commentsdisk.go:322-372 | the eight printed header lines are read back as the line-safe fields |
| `JiraRoundTrip.LabelsReadBack` | jira/commentsdisk.go:356-360 | labels without commas come back one by one |
| `JiraRoundTrip.TitleReads` | jira/commentsdisk.go:308-320 | the title line is read back as id and summary |
| `JiraRoundTrip.FileRoundTrip` | jira/commentsdisk.go:181-229 | a written issue file is read back as the line-safe fields and every comment, an empty author included, if and only if title and comment headers are well-formed |
| `JiraRewrite.LinesRewritten` | jira/commentsdisk.go:188-204 | line by line: all header fields are printed a second time as they were, the labels if and only if they survive the cuts, and the target versions if and only if they were printed as nothing |
| `JiraRewrite.FileRewritten` | jira/commentsdisk.go:181-229 | write, read, write of an issue gives the same bytes if and only if the labels survive the cuts and nothing was printed for the target versions |
| `JiraRewrite.OnlyVersionsLost` | jira/commentsdisk.go:181-229 | for any target versions, write, read, write gives the same bytes but for their text, if and only if the labels survive the cuts |
| `BatchInserter.MetricBatchInserter.constructor` | metricdb/batch.go:32-38 | a new inserter has no transaction and nothing to record |
| `BatchInserter.MetricBatchInserter.Flush` | metricdb/batch.go:40-57 | commits rows and scrape position together when a key is to be recorded, and otherwise leaves the transaction open; failures included |
| `BatchInserter.MetricBatchInserter.TxForInsert` | metricdb/batch.go:59-79 | reuses the transaction below the limit, flushes at it, and begins a new one |
| `BatchInserter.MetricBatchInserter.Insert` | metricdb/batch.go:81-173 | one row goes to the transaction and is counted, unless a call fails; when only the call for its identifier fails, the row stays uncounted |
| `BatchInserter.MetricBatchInserter.CompletedKey` | metricdb/batch.go:175-184 | a new key with a key before it is to be recorded |
| `BatchInserter.IndexFromGCS` | metricdb/db.go:264-414 | the order of inserts, completions and the last flush, which comes whatever ended the scan |
| `BatchCheckpoints.CheckpointSafe` | metricdb/batch.go:186-219 | whatever the database does and wherever the run is cut: no transaction is dropped, and what is committed is the state of one moment of the run: exactly the rows inserted up to then, with a scrape row that names the last key completed by then |
| `BatchCheckpoints.FewUncommitted` | metricdb/batch.go:59-79 | at most a batch is pending wherever the scan stops, and without a failed call committed and pending rows together are exactly the inserted ones |
| `BatchCheckpoints.BatchFits` | metricdb/batch.go:59-79 | the bound on pending rows needs no condition on the keys: it holds for any events and any failures |
| `BatchCatchUp.LastFlushCatchesUp` | metricdb/batch.go:40-79 | if no commit fails, and whatever other call stops the scan, a last flush that works leaves nothing uncommitted but inserts after the last key that made progress |
| `BatchCheckpoints.FlushBetweenKeys` | metricdb/batch.go:40-57 | a flush between keys leaves no transaction open, nothing uncommitted, and records the last key |
| `BatchCheckpoints.KeysPaced` | metricdb/db.go:266-407 | keys that make progress with at most a batch of inserts each meet the condition of the results above |
| `BatchDrops.DropsExactly` | metricdb/batch.go:175-184 | with at most a batch of inserts for each key, no transaction is ever dropped if and only if every key but the last differs from a non-empty one before it |
| `BatchDrops.FirstScanLosesRow` | metricdb/db.go:220-264 | a first scan, which resumes from no key, can record a second key after having lost the row of the first |
| `PollingWatcher.NewBugList` | bugzilla/types.go:183-208 | the loop keeps the bugs that the include function accepts, or all without one, and the latest change among them |
| `PollingWatcher.IncludedIs` | bugzilla/types.go:186-189 | a list holds exactly the bugs that its include function accepts |
| `PollingWatcher.IncludedInOrder` | bugzilla/types.go:186-205 | each as often as it was returned and in that order |
| `PollingWatcher.PeriodicWatcher.constructor` | bugzilla/informer.go:124-157 | a watch starts at the next whole second, and drops the include function it is given |
| `PollingWatcher.PeriodicWatcher.Poll` | bugzilla/informer.go:173-216 | one poll sends the sorted changes since the mark and moves it, or does nothing when the latest change is not after it; no bug is filtered |
| `PollingWatcher.PeriodicWatcher.Fail` | bugzilla/informer.go:177-182 | a failed query reports an error and ends the watch |
| `PollingRuns.PollSends` | bugzilla/informer.go:193-215 | a poll sends exactly the bugs it returned that changed since the mark, and only if one of them changed in a later second; as added exactly when it was created since the mark |
| `PollingRuns.PollMoves` | bugzilla/informer.go:189-216 | the mark never goes back, and moves exactly when a returned bug changed in a later second, then to the second of the latest change returned |
| `PollingRuns.PollSendsOnce` | bugzilla/informer.go:199-215 | a poll that moves the mark sends one event for each bug it returned that changed since then, as often as it was returned, and nothing else |
| `PollingRuns.BatchInOrder` | bugzilla/informer.go:205-214 | a batch holds the changes since the mark in the order of the sorted list |
| `PollingRuns.BatchAscends` | bugzilla/informer.go:199-215 | each batch is sent in the order of the changes |
| `PollingRuns.NothingIsSkipped` | bugzilla/informer.go:173-216 | in every run, each bug whose latest change lies between the first mark and the current one has been sent in that state |
| `PollingRuns.CaughtUpAfterPoll` | bugzilla/informer.go:173-216 | after a poll that moves the mark, every bug changed since the first mark has been sent in its current state |
| `PollingRuns.RunsExtend` | bugzilla/informer.go:173-216 | over any run the mark only grows and nothing sent is taken back |
| `PollingRuns.SameSecondWaits` | bugzilla/informer.go:193-196 | a bug changed in the mark's own second after it was set is returned by the next poll but not sent |
| `PollingRuns.SentExactly` | bugzilla/informer.go:189-215 | in every run, a state of a bug was sent if and only if some poll returned it, changed since the mark, together with a bug changed in a later second than the mark |
| `PollingRuns.FilterHoldsExactly` | bugzilla/informer.go:124-136 | in every run, a watch given an include function sends only bugs that it accepts if and only if the polls that move the mark return no others, except for bugs changed before the mark |
| `PollingRuns.RejectedBugIsSent` | bugzilla/informer.go:187-187 | a bug that the include function rejects is sent and moves the mark, although a list with that function leaves it out |
| `Sorting.SortBy` | bugzilla/informer.go:201-204 | a library sort: an ordered permutation |
| `CommentStore.CommentStore.Get` | bugzilla/comments.go:70-76 | hands out the stored object exactly when the key is stored |
| `CommentStore.CommentStore.BugAdd` | bugzilla/comments.go:239-267 | replaces the info of a stored bug or adds it without comments, and queues it; no object handed out changes |
| `CommentStore.CommentStore.BugUpdate` | bugzilla/comments.go:269-293 | replaces the info of a stored bug and reports a change only when there is one |
| `CommentStore.CommentStore.BugDelete` | bugzilla/comments.go:295-333 | removes the key, and queues it when the persistent store closes the bug; without a persistent store this panics |
| `CommentStore.CommentStore.FilterComments` | bugzilla/comments.go:179-208 | rewrites the fetched map in place, in any order, to what may be seen |
| `CommentStore.CommentStore.MergeBugs` | bugzilla/comments.go:210-237 | replaces the comments of exactly the stored bugs that were not refreshed later, in any order |
| `CommentStore.BugComments.DeepCopyObject` | bugzilla/types.go:216-224 | a new object with the same value |
| `CommentHistory.StoredWhenAdded` | bugzilla/comments.go:239-333 | after any events a bug is stored exactly when it was added, or loaded, and not deleted since; updates and fetches never revive it |
| `CommentHistory.InfoIsLatest` | bugzilla/comments.go:239-293 | a stored bug has the info of the last informer event about it |
| `CommentHistory.CommentsAreLatest` | bugzilla/comments.go:210-237 | a stored bug has the comments of its last accepted fetch, as fetched with access to private ones and filtered without, its refresh time and its dates; or those it was loaded with; or none |
| `CommentHistory.FetchedDates` | bugzilla/types.go:152-176 | after a fetch the creation time is that of the earliest comment and the resource version that of the latest |
| `CommentHistory.RefreshGrows` | bugzilla/comments.go:217-234 | while a bug stays stored its refresh time never goes back |
| `CommentHistory.FilterHidesPrivate` | bugzilla/comments.go:179-208 | what filtering leaves is public, is everything exactly when nothing was private, and is one placeholder when everything was |
| `CommentHistory.FilterKeepsPublic` | bugzilla/comments.go:184-206 | filtering keeps exactly the public comments, each as often as it was there and in their order |
| `CommentHistory.NoPrivateStored` | bugzilla/comments.go:174-175 | without access to private comments none is ever stored |
| `GrepOutput.Send` | cmd/search/grep.go:180-203 | the first lines of the open group and the number of hidden ones, or nothing |
| `GrepOutput.RunSingleCommand` | cmd/search/grep.go:157-310 | the loop with its reused buffers calls back for the groups up to where reading stops, and says how |
| `GrepOutput.GroupsInSteps` | cmd/search/grep.go:244-285 | ended groups and open group together are one group for each longest run of lines of one file |
| `GrepGroups.CallsArePrefix` | cmd/search/grep.go:251-258 | the calls are for the first of all groups, each with the file, its first lines, as many as allowed, and the number of the rest; for all of them exactly when no line is malformed and no line that ends a group comes over budget |
| `GrepStops.StopsExactly` | cmd/search/grep.go:205-310 | reading stops at the first line that is malformed, or that ends a group when more bytes than the budget were printed up to it; how many bytes count as read, how many groups are called back for, and that the group before a malformed line is not |
| `GrepStops.MatchExactly` | cmd/search/grep.go:221-240 | a line of a file is a name and a text around the first NUL |
| `GrepStops.OtherExactly` | cmd/search/grep.go:221-240 | a separator is two dashes, and any other line without a name before its first NUL is malformed |
| `GrepGroups.PrintedGroupsRead` | cmd/search/grep.go:221-310 | reading undoes printing groups |
| `GrepGroups.PrintedGroupsCalled` | cmd/search/grep.go:157-310 | with a budget that fits, printed groups are called back once each |
| `GrepBatching.SplitStringSliceByLength` | cmd/search/grep.go:104-112 | the loop cuts at the first path that no longer fits |
| `GrepBatching.FirstBatchIs` | cmd/search/grep.go:104-112 | the first batch is the longest run of first paths that fits |
| `GrepBatching.CostIsLength` | cmd/search/grep.go:104-112 | what paths count for is the length of them all, each with one more character |
| `GrepBatching.ExecuteGrepSingle` | cmd/search/grep.go:114-155 | the batching loop runs the commands, with the bytes of one gone for the next, until one stops or a path is too long |
| `GrepBatching.BatchesCover` | cmd/search/grep.go:131-136 | the batches and what is left make up the paths in order, every batch fits, and nothing is left exactly when every path fits alone |
| `GrepBatching.FewestCommands` | cmd/search/grep.go:131-136 | no split of the paths in order into commands that fit uses fewer |
| `GrepBatching.SearchRunsBatches` | cmd/search/grep.go:131-153 | a search that is not stopped runs every batch and calls back for every group; a stopped one for the first of them |
| `GrepBatching.SearchBudget` | cmd/search/grep.go:131-153 | each command is read with the bytes that those before it have left, all but the last to the end, and the last decides how the search ends |
| `GrepBatching.StoppedCalls` | cmd/search/grep.go:131-153 | a stopped search has called back for all groups of the commands before the last, and for those that reading the last one reached |
| `StampOrder.StampsOrdered` | prow/indexgcs.go:274-281 | byte order of RFC 3339 timestamps of one form is time order (section 5.1) |
| `StampOrder.LessIs` | prow/indexgcs.go:274-281 | byte order: the first place where two strings differ decides |
| `StampOrder.DaysOrdered` | prow/indexgcs.go:219-222 | day prefixes are ordered as days |
| `JobRange.ScanJobRangeIndex` | prow/indexgcs.go:258-286 | the loop skips, passes and stops as specified |
| `JobRange.ReadJobRange` | prow/indexgcs.go:196-256 | the loop over days terminates and computes the specified scan; the two narrower prefixes are never searched |
| `JobRangeScan.ScanIsFilter` | prow/indexgcs.go:277-279 | stopping a listing at the first name past the range loses nothing |
| `JobRangeScan.RangeIsFilter` | prow/indexgcs.go:196-256 | for any bucket the scan passes on exactly the names whose timestamp part is in the range as a string, begins with a date, and comes after that date's midnight, each once and in order |
| `JobRangeScan.PassedNames` | prow/indexgcs.go:258-286 | the same spelled out for one name, with the places of its timestamp |
| `JobRangeScan.PassedExactly` | prow/indexgcs.go:196-256 | of the well-formed names, exactly those after `from`, not after `to`, and not at midnight UTC, in key order |
| `JobList.MergeJobs` | prow/informer.go:180-207 | the nested loops compute the merge and both counts, in a new array |
| `JobList.Overwrite` | prow/informer.go:263-263 | appending to the emptied slice reuses its array when it is long enough |
| `JobList.ListWatcher.MostRecentJobs` | prow/informer.go:209-228 | the remembered list, or the initial lister's answer, whose array is then kept |
| `JobList.ListWatcher.List` | prow/informer.go:230-265 | the result is the merge of what was offered with the previous result, is remembered, and no list returned before changes |
| `JobListRuns.MergedIsFirstCopies` | prow/informer.go:188-205 | a merge is exactly the first unexpired copies in the order offered |
| `JobListRuns.MergedKeysDiffer` | prow/informer.go:196-202 | no key twice |
| `JobListRuns.MergedShows` | prow/informer.go:188-205 | in terms of the fields: only current jobs, no build twice, and of each build with a current job the first such job |
| `JobListRuns.CountsAre` | prow/informer.go:188-206 | how many jobs have passed their time, and how many others lack a name or a build |
| `JobListRuns.NothingUncounted` | prow/informer.go:188-206 | kept, duplicate, expired and nameless add up to what was offered |
| `JobListRuns.LeavesOnlyWhenExpired` | prow/informer.go:239-253 | a shown key is not shown again exactly when its remembered copy has expired and no lister offers an unexpired one |
| `JobListRuns.ListersComeFirst` | prow/informer.go:239-251 | a lister's copy replaces the remembered one |
| `JobListRuns.StaysUntilExpired` | prow/informer.go:230-265 | over any sequence of listings with time moving forward, a job that no lister offers any more stays shown, in the same copy, until it expires |
| `SeriesAlignment.Extend` | metricdb/httpgraph/apigraph.go:218-221 | appending zeros in place or in a new array keeps the old slots |
| `SeriesAlignment.AddRow` | metricdb/httpgraph/apigraph.go:201-226 | one row of the loop writes its slot and leaves every other series as it was |
| `SeriesAlignment.AlignRows` | metricdb/httpgraph/apigraph.go:188-246 | the loops leave each series with one slot for each timestamp and an array of its own |
| `SeriesAlignment.PadSeries` | metricdb/httpgraph/apigraph.go:239-246 | padding, in any order, fills the missing slots with 0 |
| `SeriesAlignment.TimestampsIncrease` | metricdb/httpgraph/apigraph.go:211-216 | of ordered rows the timestamps are strictly increasing |
| `SeriesAlignment.TimestampsAreRows` | metricdb/httpgraph/apigraph.go:211-216 | the timestamps are exactly those of the rows |
| `SeriesAlignment.LabelIsFirstVersion` | metricdb/httpgraph/apigraph.go:211-216 | label `i` is the version of the first row at timestamp `i` |
| `SeriesAlignment.SlotIsLastValue` | metricdb/httpgraph/apigraph.go:201-226 | slot `i` of a series is the value of its last row at timestamp `i`, or 0 |
| `PathIndex.Index.Load` | cmd/search/pathindex.go:109-178 | the entries are the unexpired files of a known type, newest first; counts and removed files as specified |
| `PathIndex.Index.LastModified` | cmd/search/pathindex.go:97-104 | looks up through the position map |
| `PathIndex.Index.SearchPaths` | cmd/search/pathindex.go:199-250 | the loop with its early exit computes the filter of all entries, and the jobs it let through |
| `PathSearch.LookupAgreesExactly` | cmd/search/pathindex.go:97-104 | looking up agrees with a linear search for every path if and only if no stored path begins with the base, for distinct paths with a time |
| `PathSearch.LookupIsLast` | cmd/search/pathindex.go:97-104 | looking up a path gives the age of the last entry stored under it, or the zero time |
| `PathSearch.SearchFindsFiles` | cmd/search/pathindex.go:199-250 | after a load a search returns exactly the young enough files of a type and job asked for |
| `PathSearch.TypeSearchFindsFiles` | cmd/search/pathindex.go:199-250 | the same for the types of search by name, in terms of the names of files |
| `PathSearch.FoundInOrder` | cmd/search/pathindex.go:219-250 | one path for each entry wanted, newest first |
| `PathSearch.RemovedAre` | cmd/search/pathindex.go:134-137 | a load deletes exactly the files older than the maximum age, of any type |
| `PathSearch.IndexedAre` | cmd/search/pathindex.go:138-164 | it indexes exactly the other files whose names begin in one of two ways |
| `PathSearch.SizeIsTotal` | cmd/search/pathindex.go:148-149 | the size of the index is the total of its files' sizes |
| `PathSearch.JobsReported` | cmd/search/pathindex.go:226-241 | a filtered search reports exactly the jobs it let through, whatever the type of their files |
| `PathSearch.JobOfPath` | cmd/search/pathindex.go:228-243 | the job is the third part from the end; a shorter path has none and passes every filter |
| `PathIndex.RestTooOld` | cmd/search/pathindex.go:223-227 | past the first entry that is too old there is nothing to find |

## Left out

- HTTP handlers, HTML, PNG charts, gzip writers, metrics and logging: user interface and plumbing.
- GCS, Bugzilla, Jira, BigQuery, SQLite and ripgrep themselves: their answers are parameters.
- Regular expressions: those of the readers are written as explicit scanners.
- The scanner's limit of 4 MB for one token, file renames, file modification times and bytes that are not UTF-8.
- Times outside the years 0 to 9999, for which RFC 3339 has no form.
- Jira comment files: the key taken from the path and the timestamps derived after reading.
- `pathForBug`, the walks over stored files and the disk worker's queue: true but easy.
- The disk worker against `CloseBug`: both write one temporary file without a common lock, so no order is decided.
- `LogAccumulator` fields other than the metadata channel and what decides on the log: what is downloaded and written does not change the protocol.
- `jira/comments.go`: `issueUpdate` stores the old object's info, so the claim on the latest info is for Bugzilla.
- Identifiers that the database assigns in `indexFromGCS`, and its caches; the counters it logs.
- BatchInserter.IndexFromGCS: the parsing and skipping of keys is left out; a run is any sequence of inserts, completions and failures.
- BatchInserter.MetricBatchInserter.Insert: one method stands for the four insert statements, whose prepared forms and the values of returned ids are left out. The rows of a store log the statements that succeeded, and two of the four do nothing on a conflict.
- CommentStore.CommentStore.BugDelete: what the persistent store writes for a closed bug is left out.
- PollingWatcher.PeriodicWatcher.Poll: the waiting between polls and the capacity of the event channel are left out; a poll is one step.
- GrepOutput.RunSingleCommand: starting the command, draining its output, resolving the path below the prefix, and a callback that fails are left out.
- JobRange.ReadJobRange: an error of the bucket or of the callback, which ends the scan early, is left out; the index name needs no path cleaning.
- JobList.ListWatcher.List: calls are one after another; the lock protects only the remembered slice.
- SeriesAlignment.AlignRows: values are exact numbers, and the smallest and largest value are left out.
- PathIndex.Index.SearchPaths: joining the base and a path does not clean the result.
- `sortableWriter`, `walk`, histograms, selectors and `ListBuilds`: easy, or not what they seem past a size limit.
