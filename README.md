# block_mysites: the cross-site backup transfer queue

block_mysites is a Moodle block. It lets a user on one Moodle site ask a
partner site for a backup of a course the user is enrolled in there. The
partner queues the request. Its scheduled task backs the course up and
uploads the file to the requesting site. It then calls the requester's
`finish_upload` web service, which moves the file into the user's backup
area and records the import. The block shows each course with a status
from -1 (REQUEST_FAILED) to 9 (BACKUP_AVAILABLE), a progress bar and one
action button.

This project models that core in Dafny:

- `status.dfy` (module `Status`): the status codes and action names, and an
  `Option`/`Reply` pair for answers that may be null or an exception.
- `config.dfy` (module `Config`): an already-parsed partner-site list and
  `plugin_configured`.
- `queue.dfy` (module `Queue`): the sending site's queue table and backup
  files, as values. It has one function per library routine. The run of
  the worker is a fold over the selected records. The lemmas state where a
  record can move and that the in-progress claim is written first. They
  also cover insert, cancel and reset.
- `jobqueue.dfy` (module `JobQueue`): the same table as a class,
  `TransferQueue`. Its methods update `rows` and `files` in place and are
  each proved to leave the state the `Queue` function gives.
- `ledger.dfy` (module `Ledger`): the receiving site's import ledger and
  users' backup areas (`finish_upload`, `clear_import`), as the class
  `ImportLedger` and as specification functions.
- `lists.dfy` (module `Lists`): the per-user list cache
  (`clear_user_cache`, `clear_stale_caches`) and `get_lists`. That covers
  the site loop and the reconciliation of the import ledger with the lists.
- `external.php`'s web services, in `external.dfy` (module `External`):
  - `request_action`: the gate, the dispatch and exceptions mapped to -1;
  - the `finish_upload` wrapper;
  - `get_lists_for_username`: the status overlay and the `.` filter;
  - `send_request_action`: routing of `clear` and remote actions.
- `progress.dfy` (module `Progress`): the four status tables of the
  renderer and the decisions of `render_course_status_div`.
- `paging.dfy` (module `Paging`): page count, page ranges and the
  opening and closing of row containers in `render_course_pages` and
  `render_backup_pages`.
- `postlimit.dfy` (module `PostLimit`): the case-insensitive pattern
  `post content-length of <digits> bytes exceeds` that classifies an
  oversized upload.
- `task.dfy` (module `Task`): `execute` of the scheduled task.
- `findings.dfy` (module `Findings`): the two worker paths that, as
  written, raise a PHP Error and stop the run.

External collaborators are parameters:

- the backup engine (`BackupRun`);
- curl and the partner's upload answer (`UploadReply`);
- the partner's RPC answers (`RpcReply`);
- the user, course and capability lookups (`Host`);
- the file areas (draft files, backup area, stored files);
- the site fetch of `get_lists` (`string -> FetchResult`);
- the clock (`now`).

Exceptions the code catches are boolean inputs that say at which point the
call raised (`storeThrows`, `lookupThrows`, `mergeThrows`, `selectThrows`,
`CallThrows`).

## Model

| member | source | states |
|---|---|---|
| Progress.TablesCoverEveryStatus | classes/output/renderer.php:46-102 | Each of the four tables has exactly the keys -1..9. |
| Progress.HappyPathRises | classes/output/renderer.php:46-58 | Along 0, 1, 2, 4, 5, 6, 9 the percent strictly rises, from 0 to 100. |
| Progress.ErrorIsReset | classes/output/renderer.php:60-102 | The error flag holds exactly for -1, 3, 7 and 8. Those are exactly the statuses whose action is reset. |
| Progress.RunningStatuses | classes/output/renderer.php:60-87 | The running flag holds exactly for 1, 2, 4, 5 and 6. No status is both running and in error. The only running status with a button is 1, and that button is cancel. |
| Progress.ActionTable | classes/output/renderer.php:60-72 | The actions are 0 backup, 1 cancel and 9 restore, and nothing for 2, 4, 5 and 6. |
| Progress.StatusCellFor | classes/output/renderer.php:515-571 | The cell is marked running exactly when the status is a running one. |
| Progress.StatusCellBar | classes/output/renderer.php:535-563 | A bar appears exactly for statuses 1 to 9 and shows that status's percent. It is danger exactly for 3, 7 and 8, success exactly for 9, and plain exactly while running. The action button is missing exactly for 2, 4, 5 and 6. The file name is attached only for 9. |
| Progress.StatusCellUnknown | classes/output/renderer.php:518-521 | A code outside -1..9 renders no bar, no button and no running mark. |
| Paging.PageCount | classes/output/renderer.php:297 | The page count is the ceiling of n/6. |
| Paging.PageOfEntry | classes/output/renderer.php:303-304 | Entry j lies on page j/6+1, and that page exists. |
| Paging.SeveralPages | classes/output/renderer.php:387 | There is more than one page exactly when there are more than six entries. The same test guards the page bar at line 470. |
| Paging.CardDepth | classes/output/renderer.php:306-376 | An entry at an even index opens a row and leaves it open unless it is the last entry. An entry at an odd index closes the row its predecessor opened. |
| Paging.RangeDepth | classes/output/renderer.php:306-376 | From an even start index, a row is left open exactly after an even, non-final last entry. |
| Paging.CardMarksCards | classes/output/renderer.php:303-376 | The markup for one entry holds that entry's card and no other. |
| Paging.RangeCards | classes/output/renderer.php:303-304 | The cards emitted for a range are exactly the entries in it. |
| Paging.RenderPageRows | classes/output/renderer.php:303-378 | One page shows exactly the entries from (p-1)*6, at most six of them and stopping at the end of the list. Its row opens and closes balance. |
| Paging.PageShape | classes/output/renderer.php:303-378 | The cards of a page are exactly its entries, and its rows balance. |
| Paging.EntriesOnPages | classes/output/renderer.php:299-304 | When pages are rendered one per page count, every entry of the list is on the page its index falls in. |
| Paging.RenderPages | classes/output/renderer.php:293-389 | There is one page per page count, and every page except the selected one is hidden. Every entry appears on the page its index falls in. The page bar appears exactly when there are more than six entries. |
| PostLimit.MatchesAtIsPattern | classes/lib.php:898 | Reading the longest digit run loses no match of the pattern at a position. |
| PostLimit.SearchFinds | classes/lib.php:898 | Trying positions left to right succeeds exactly when the attempt succeeds at some position in range. |
| PostLimit.MentionsMatches | classes/lib.php:898 | The matcher answers true exactly when the body contains the pattern, ignoring case. |
| Queue.SetStatus | classes/lib.php:1101-1108 | Only the status of that record changes, and a missing record changes nothing. |
| Queue.Update | classes/lib.php:608 | Only that record is replaced, and the key set is kept. The same update is made at lines 810 and 939. |
| Queue.DeleteRow | classes/lib.php:614 | Exactly that record goes, and the files stay. The same delete is made at lines 557 and 1022. |
| Queue.UploadVerdict | classes/lib.php:881-937 | The upload answer gives TRANSFER_COMPLETED exactly for a non-empty item id. It gives FILETOOBIG exactly for a non-JSON body that matches the post-size pattern, or for errortype fileoversized. Every other answer gives TRANSFER_FAILED. |
| Queue.Finish | classes/lib.php:964-1031 | Finalising never adds a record or a file. The record goes exactly when the return site is configured and the partner answered 9. The files change only on that answer, and then only the record's own file goes. |
| Queue.Upload | classes/lib.php:829-954 | The upload never raises an Error. It raises an Exception exactly when the file lookup throws with the return site configured, and then nothing is written. It adds no record and no file. |
| Queue.Backup | classes/lib.php:712-821 | The backup never raises an Error. It raises an Exception exactly when the engine throws after the site and course checks pass, and then nothing is written. It keeps the set of records, and the only file it can add is the one the engine produced. |
| Queue.JobStep | classes/lib.php:673-701 | Processing one record never adds a record and never changes another. |
| Queue.FinishMoves | classes/lib.php:964-1031 | After finalising, the record is gone only if the partner answered 9. Otherwise it is unchanged, or TRANSFER_FAILED when the return site is missing. |
| Queue.UploadMoves | classes/lib.php:829-954 | A pending transfer ends pending, completed, failed, too big or removed, with its file hash kept. It is removed only on a partner answer of 9. |
| Queue.BackupMoves | classes/lib.php:676-821 | A pending backup ends failed, pending transfer or too big, also when the engine raises. |
| Queue.JobStepMoves | classes/lib.php:673-701 | Each selected record moves as allowed. It disappears only after a partner answer of 9. |
| Queue.TickFrame | classes/lib.php:660-701 | A run of the worker adds no records and leaves every unselected record as it was. |
| Queue.Tick | classes/lib.php:660-701 | A run of the worker over the selected records adds no record. |
| Queue.TickMoves | classes/lib.php:660-701 | Over a whole run, every selected record moves only as allowed, keeps its owner and timestamps, and disappears only after a partner answer of 9. |
| Queue.TickKeepsResting | classes/lib.php:660-701 | If no record is in 2 or 5 before a run, none is after it. |
| Queue.JobStepRemovesFile | classes/lib.php:1020-1022 | One job step removes a backup file only if the record points to it and the partner answered 9. |
| Queue.TickRemovesFilesOfFinished | classes/lib.php:1020-1022 | A backup file disappears only if a selected record pointing to it got a partner answer of 9. |
| Queue.SetStatusLog | classes/lib.php:1101-1108 | A status write is logged as the record's new status. |
| Queue.UpdateLog | classes/lib.php:810 | A record update is logged as the record's new status. |
| Queue.FinishLog | classes/lib.php:964-1031 | Finalising writes only its own record and logs where it ends. |
| Queue.UploadLog | classes/lib.php:837-858 | Once the checks pass, the first write of the upload is TRANSFER_INPROGRESS. |
| Queue.BackupLog | classes/lib.php:785-793 | Once the checks and settings pass, the first write of the backup is BACKUP_INPROGRESS, written before the plan runs. |
| Queue.ClaimBeforeWork | classes/lib.php:673-858 | A step writes only its own record. Its first write before the engine or the upload is the in-progress claim. Its last write records where the record ends. |
| Queue.BackupThenUploadSize | classes/lib.php:803-856 | A file the backup accepted for transfer is never refused by the upload's own size check under the same limit. |
| Queue.Insert | classes/lib.php:485-540 | The answer is BACKUP_PENDING exactly when the user, the course, the capability and the return site exist and no record has the key. Otherwise it is -1 with the tables unchanged. An accepted request writes exactly one new record under the key: the user's id, BACKUP_PENDING, no file, no item id, and both times set to now. Other records are kept. When the insert answers false without raising, the answer is still BACKUP_PENDING and nothing is written. |
| Queue.Cancel | classes/lib.php:551-570 | The record is removed only if it is BACKUP_PENDING. The answer is REQUEST_NONE when no record is left, or else the remaining record's status. |
| Queue.Reset | classes/lib.php:581-622 | A reset touches no other record and no file. |
| Queue.ResetOutcomes | classes/lib.php:586-621 | Reset answers -1 exactly for 1, 2, 4, 5 and 6, and then the table is unchanged. It answers 4 exactly for 7 and 8, with the record set to TRANSFER_PENDING. It answers REQUEST_NONE exactly when there was no record or it was a failed backup, and then no record is left. It answers nothing for 0, 9 or any other code. Only 3, 7 and 8 change the table. |
| Queue.InsertThenCancel | classes/lib.php:485-570 | Cancelling an accepted request restores the table. |
| Queue.InsertTwice | classes/lib.php:527-536 | A repeated request is refused and the table is unchanged. |
| Queue.ResetThenInsert | classes/lib.php:485-616 | A reset of a failed backup lets the same request be made again. |
| JobQueue.TransferQueue.constructor | classes/lib.php:485-540 | The queue starts with no records and no files. |
| JobQueue.TransferQueue.SetJobStatus | classes/lib.php:1101-1108 | The new state is the one SetStatus gives. |
| JobQueue.TransferQueue.UpdateRecord | classes/lib.php:810 | The new state is the one Update gives. |
| JobQueue.TransferQueue.DeleteRecord | classes/lib.php:1022 | The new state is the one DeleteRow gives. |
| JobQueue.TransferQueue.InsertBackupRequest | classes/lib.php:485-540 | The answer and the new state are those of Insert. A queue with no record in progress keeps none. |
| JobQueue.TransferQueue.CancelBackupRequest | classes/lib.php:551-570 | The answer and the new state are those of Cancel. A queue with no record in progress keeps none. |
| JobQueue.TransferQueue.ResetBackupRequest | classes/lib.php:581-622 | The answer and the new state are those of Reset, for a record in any status. A queue with no record in progress keeps none. |
| JobQueue.TransferQueue.SendFinishUpload | classes/lib.php:964-1031 | The new state is the one Finish gives. |
| JobQueue.TransferQueue.UploadCourseBackup | classes/lib.php:829-954 | The new state and the way it ends are those of Upload. |
| JobQueue.TransferQueue.BackupCourse | classes/lib.php:712-821 | The new state and the way it ends are those of Backup. |
| JobQueue.TransferQueue.ProcessQueue | classes/lib.php:655-703 | The new state is the fold over the selection in timemodified order. Every selected record moves as allowed, and unselected records are unchanged. A queue with no record in progress keeps none. |
| JobQueue.TransferQueue.StatusByCourse | classes/external.php:129-141 | The map has exactly the courses of the user's records, and each value is the highest status among them. |
| Ledger.NewImports | classes/lib.php:1074-1091 | Every new record is for the user, partner, course and time of the upload. There is one for each non-directory draft file and none for anything else, so there are no more records than draft entries. |
| Ledger.DraftNames | classes/lib.php:1093-1094 | The names moved are exactly those of the non-directory draft files. |
| Ledger.FinishUploadSpec | classes/lib.php:1045-1098 | The reply is -1, 9 or an exception. Existing import records are kept, and no backup area loses a file. |
| Ledger.FinishUploadDelivers | classes/lib.php:1045-1098 | On success, every draft file has an import record and is in the user's backup area, and earlier records are kept. |
| Ledger.FinishUploadOutcomes | classes/lib.php:1045-1098 | The answer is 9 exactly when the user and its context exist, the draft is not empty and the move does not raise. It is -1 exactly for an unknown user, a missing context or an empty draft, and then nothing is written. A failed move keeps the records already written and changes no area. |
| Ledger.ClearImportClears | classes/lib.php:641-644 | No record of that user, partner and course is left, and every other record is kept. |
| Ledger.ImportLedger.constructor | classes/lib.php:1045-1098 | The ledger starts empty, with the given areas. |
| Ledger.ImportLedger.InsertImports | classes/lib.php:1074-1091 | The loop appends exactly NewImports, and the areas are unchanged. |
| Ledger.ImportLedger.FinishUpload | classes/lib.php:1045-1098 | The new state and the reply are those of FinishUploadSpec. |
| Ledger.ImportLedger.ClearImport | classes/lib.php:634-647 | The ledger becomes WithoutImports, and the answer is REQUEST_NONE. |
| Ledger.ImportLedger.DeleteImport | classes/lib.php:270-287 | Exactly that record is deleted, if it exists. |
| Lists.WithoutStale | classes/lib.php:202-209 | An entry is kept exactly when it was created at or after the cutoff, and kept entries are unchanged. |
| Lists.ListCache.constructor | classes/lib.php:179-215 | The cache starts empty. |
| Lists.ListCache.ClearUserCache | classes/lib.php:179-194 | Only the user's entry goes. |
| Lists.ListCache.ClearStale | classes/lib.php:198-215 | Entries older than minutesOld minutes go. |
| Lists.ReconcileOne | classes/lib.php:262-294 | The id range of the ledger is kept. |
| Lists.Reconcile | classes/lib.php:256-298 | The id range of the ledger is kept. |
| Lists.ReconcileShape | classes/lib.php:256-298 | Courses change only from status 0 to their overlay, and sites and courses are kept. Records are only deleted, and records past the loop are untouched. |
| Lists.ReconcileDeletesOnlyStale | classes/lib.php:264-289 | A record is deleted only if it is the user's and its course is unlisted or its file is gone. |
| Lists.ReconcileDropsUnlisted | classes/lib.php:264-270 | Every record of the user whose course is unlisted is deleted. |
| Lists.ReconcileCourseUntouched | classes/lib.php:276-294 | A course keeps what the partner reported while no record of the user for it with its file in the backup area has been reached. |
| Lists.ReconcileDropsMissingFile | classes/lib.php:281-288 | A record of the user whose course is listed at status 0 and whose file has left the backup area is deleted. The exception is an earlier record of the user for the same course whose file is there, which shows the course as available first. |
| Lists.ReconcileShowsAvailable | classes/lib.php:281-294 | A listed record whose file is still there is kept, and its course, if at status 0, shows BACKUP_AVAILABLE. |
| Lists.ReconcileKeepsReported | classes/lib.php:276-278 | A course the partner reports with a nonzero status keeps it, and so do its records. |
| Lists.Collected | classes/lib.php:242-252 | Fresh lists have one tab, course list and backup list per configured site. |
| Lists.GetListsSpec | classes/lib.php:222-318 | The ledger keeps its id range. The cache gains an entry for the user only when fresh lists were built, and otherwise keeps its users. |
| Lists.GetListsOutcomes | classes/lib.php:222-318 | The outcomes are not configured, from cache, fetch failed or fresh, in exactly their cases. Only fresh writes anything. Fresh lists cover every site and are cached under the user with the time. A record leaves the ledger only if it is this user's and its course is not in the fetched lists or its file is gone from the user's backup area. |
| Lists.FetchAll | classes/lib.php:242-252 | The site loop fails exactly when some site's fetch throws, and otherwise collects every site. |
| Lists.ReconcileImports | classes/lib.php:256-298 | The lists and the ledger become those of Reconcile, and the areas are unchanged. |
| Lists.GetLists | classes/lib.php:222-318 | The cache, the ledger and the answer are those of GetListsSpec. |
| External.RequestActionOutcomes | classes/external.php:205-237 | An unconfigured or non-taking site, an unknown action or a database exception each gives -1 with the queue unchanged. When the record asked about is absent or holds a status from 1 to 8, the answer is one of -1..9. A queue with no record in progress keeps none. |
| External.RequestActionSpec | classes/external.php:205-237 | A request changes no file and no record but the one under its own key. The only record it can add is that one. |
| External.RequestAction | classes/external.php:205-237 | The new queue and the answer are those of RequestActionSpec, on any queue. The gate and the switch go to insert, cancel or reset, and any other action gives -1. A queue with no record in progress keeps none. |
| External.WrapperCode | classes/external.php:281-289 | An exception becomes -1, and a code passes through. |
| External.FinishUploadAnswers | classes/external.php:278-292 | The wrapper answers only -1 or 9. It answers 9 exactly when the user and context exist, the draft is not empty and the move does not raise. |
| External.FinishUpload | classes/external.php:278-292 | The ledger and the answer are FinishUploadSpec through the wrapper. |
| External.ShownStatusUnique | classes/external.php:131-141 | The status shown for a course is well defined. |
| External.BackupEntries | classes/external.php:146-160 | Exactly the files not named `.` are listed, so there are no more entries than files. |
| External.GetListsForUsername | classes/external.php:108-164 | An empty or unknown username gives empty lists. Otherwise there is one course per enrolment, with its fields and shown status (0 or the highest queue status). Its capability flag is the one the user's own roles grant, without the administrator bypass. The backups are the files except `.`. |
| External.ListedCapAdmitsRequest | classes/external.php:140 | A course listed with the capability flag set, from a configured partner, is accepted when backed up if no request for it is queued. The roles-only check implies the check with the administrator bypass. |
| External.RemoteStatus | classes/lib.php:447-473 | -1 exactly for an empty, unparsable or value-less answer or a VALUE of -1, and otherwise the VALUE. |
| External.SendRequestAction | classes/external.php:464-506 | An unconfigured or non-sending target gives -1 with nothing changed. A missing block or a throwing call gives an error with nothing changed. `clear` clears the imports and renders status 0. Other actions render the partner's status. Both of the last two drop the user's cache. |
| Task.Execute | classes/task/block_mysites_task.php:53-69 | Unconfigured, nothing changes. Otherwise the queue is worked, unless the selection raises. The cache is always purged of entries older than 5 minutes. Queue validity is kept. |
| Findings.BackupAsWritten | classes/lib.php:795-811 | The no-destination path writes BACKUP_FAILED and then raises an Error. |
| Findings.FinishAsWritten | classes/lib.php:1020-1022 | A confirmed transfer whose file is gone raises an Error with nothing removed. |
| Findings.UploadAsWrittenAgrees | classes/lib.php:829-954 | Without an Error, the upload as written equals Queue.Upload. |
| Findings.JobStepAsWrittenAgrees | classes/lib.php:673-701 | Without an Error, a step as written equals Queue.JobStep. |
| Findings.TickAsWrittenAgrees | classes/lib.php:660-701 | A run as written that is not stopped equals Queue.Tick. |
| Findings.NoDestinationStopsTick | classes/lib.php:811 | As written, after a no-destination backup the next pending backup is not made in that run. The corrected run makes it. |
| Findings.NoDestinationSkipsPurge | classes/task/block_mysites_task.php:62-66 | That Error also skips the tick's cache purge. |
| Findings.MissingFileStopsTick | classes/lib.php:1021 | As written, a confirmed transfer with its file gone stays at 6, so the next run selects it again, and the run stops. The corrected run removes it and goes on. |

## Left out

- Wire formats are out: the XML walk in `get_lists_for_site`, `SimpleXMLElement`, `json_decode` and the REST client. Their results enter as `FetchResult`, `UploadReply` and `RpcReply`.
- `parse_sites_config` and the singleton of `get_pluginconfig` are out. The model takes an already-parsed `Config` as a parameter.
- HTML markup, `get_string` texts, URLs and the browser code are out. The model keeps only the decisions and the paging arithmetic.
- `backup_controller::destroy` on every path is not modelled, because the engine is a black box.
- The sites are visited in an unspecified order in `Lists.FetchAll`. `FetchFailed` does not carry which site failed, because with maps the first site to throw is not determined.
- The lists are maps by course id and file name. The `array_values` renumbering before caching is left out, and so is the list order.
- `Lists.GetLists` does not model serialising the cache entry. Each entry is kept as a value.
- Database exceptions are modelled only where a flag names them: before any write for `request_action`, at the select for `execute`, at the file lookup for the upload, and at the move for `finish_upload`. Other failures of single writes are out.
- The `context_course` lookup in `insert_backup_request` is merged into the course's existence in `Host.courses`.
- Concurrency between overlapping ticks and requests is out, since the model is sequential. Only the ordering of the in-progress claim is stated (`Queue.ClaimBeforeWork`).
- `Task.Execute` runs the queue and then the purge. These touch disjoint state, so the order is not an ensures.
- External.RequestAction: comparing the XML VALUE as string or int is not modelled. A null answer of reset stays `None`, and the web service's validation of it is out.
- Queue.Reset: its own ensures states only the frame, because the outcome for every status is stated once, in `Queue.ResetOutcomes`.
- `insert_record` answering false without raising is a reproduced behaviour, not a bug. The `storeRefuses` flag gives BACKUP_PENDING with no record written (`classes/lib.php:529-531`).
- Ledger.FinishUpload: the draft area is a parameter, and the file API is not modelled. Whether the merge empties the draft area is not stated.
- `timemodified` is never updated by the code, so the model keeps it fixed.
- Lists.Reconcile visits the user's import records in id order. `get_records` at `classes/lib.php:258` names no sort, and the database's usual order by primary key is assumed. When two records name the same course, this order decides which file is shown and which record escapes the file check.
- The capability check of `insert_backup_request` (`classes/lib.php:509`) counts site administrators. The flag in the course list (`classes/external.php:140`) does not. The model keeps the two as `Host.backupCap` and `Host.assignedCap`. The roles-only set is taken to lie inside the other (`Queue.CapsAgree`), and neither is derived from roles.

## Findings

| source | as written | input that shows it | evidently intended | confidence | as-written member | corrected member |
|---|---|---|---|---|---|---|
| classes/lib.php:811 | After a backup with no destination file, the log line calls `$sf->get_filename()`, but `$sf` is unassigned on that path. That raises a PHP Error, which no `catch (Exception)` in `process_queue` or `execute` stops. | Two BACKUP_PENDING records, where the first one's plan produces no destination. The second backup is not made in that run (the next run makes it), and the cache purge of that tick is skipped. | The record ends BACKUP_FAILED and the run goes on with the next record. | not executed | Findings.NoDestinationStopsTick | Queue.TickMoves |
| classes/lib.php:1021 | After the partner answers 9, the code calls `->delete()` on `get_file_by_hash(...)`. That is false when the file is already gone, so a PHP Error escapes before the record is deleted. | A TRANSFER_COMPLETED record whose file is gone, with the partner answering 9, followed by a pending backup. The record stays at 6, and the backup is not made in that run. The next run selects the record again. | Remove the record whatever the state of the file, and go on. | not executed | Findings.MissingFileStopsTick | Queue.FinishMoves |
