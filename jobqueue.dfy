/** The queue table of the sending site as an object whose methods update it
    in place, one method per routine of classes/lib.php. Each method is
    proved to leave the state its counterpart in module Queue describes. */
module JobQueue {
  import opened Status
  import opened Config
  import opened Queue
  import PostLimit

  class TransferQueue {
    /** block_mysites_queue, by alternate key. */
    var rows: map<JobKey, Job>
    /** The backup files in the users' backup areas, size by path-name hash. */
    var files: map<string, nat>
    /** Every write to the table, in order. */
    ghost var log: seq<Event>

    ghost function State(): Tables
      reads this
    {
      Tables(rows, files, log)
    }

    /** No record rests in an in-progress status. */
    ghost predicate Valid()
      reads this
    {
      AllResting(rows)
    }

    constructor ()
      ensures State() == Tables(map[], map[], []) && Valid()
    {
      rows := map[];
      files := map[];
      log := [];
    }

    method SetJobStatus(k: JobKey, s: int)
      modifies this
      ensures State() == SetStatus(old(State()), k, s)
    {
      if k in rows {
        rows := rows[k := rows[k].(status := s)];
        log := log + [Wrote(k, s)];
      }
    }

    method UpdateRecord(k: JobKey, job: Job)
      modifies this
      ensures State() == Update(old(State()), k, job)
    {
      if k in rows {
        rows := rows[k := job];
        log := log + [Wrote(k, job.status)];
      }
    }

    method DeleteRecord(k: JobKey)
      modifies this
      ensures State() == DeleteRow(old(State()), k)
    {
      rows := rows - {k};
      log := log + [Removed(k)];
    }

    /** insert_backup_request (classes/lib.php:485-540). */
    method InsertBackupRequest(host: Host, cfg: Config, k: JobKey, now: int, storeRefuses: bool) returns (code: int)
      modifies this
      ensures (State(), code) == Insert(old(State()), host, cfg, k, now, storeRefuses)
      ensures old(Valid()) ==> Valid()
    {
      if k.username !in host.users {
        return RequestFailed;
      }
      if k.courseId !in host.courses {
        return RequestFailed;
      }
      var userId := host.users[k.username];
      if (userId, k.courseId) !in host.backupCap {
        return RequestFailed;
      }
      if k.siteId !in cfg.sites {
        return RequestFailed;
      }
      var record := Job(userId, BackupPending, "", 0, now, now);
      if k in rows {
        // the unique key refuses the duplicate and the exception is caught
        return RequestFailed;
      }
      if !storeRefuses {
        rows := rows[k := record];
        log := log + [Wrote(k, BackupPending)];
      }
      return BackupPending;
    }

    /** cancel_backup_request (classes/lib.php:551-570). */
    method CancelBackupRequest(k: JobKey) returns (code: int)
      modifies this
      ensures (State(), code) == Cancel(old(State()), k)
      ensures old(Valid()) ==> Valid()
    {
      if k in rows && rows[k].status == BackupPending {
        DeleteRecord(k);
      }
      if k !in rows {
        return RequestNone;
      }
      return rows[k].status;
    }

    /** reset_backup_request (classes/lib.php:581-622). */
    method ResetBackupRequest(k: JobKey) returns (code: Option<int>)
      modifies this
      ensures (State(), code) == Reset(old(State()), k)
      ensures old(Valid()) ==> Valid()
    {
      if k !in rows {
        return Some(RequestNone);
      }
      var record := rows[k];
      var s := record.status;
      if s == BackupPending || s == BackupInProgress || s == TransferPending || s == TransferInProgress || s == TransferCompleted {
        return Some(RequestFailed);
      }
      if s == TransferFailed || s == TransferFileTooBig {
        record := record.(status := TransferPending);
        UpdateRecord(k, record);
        return Some(record.status);
      }
      if s == BackupFailed {
        DeleteRecord(k);
        return Some(RequestNone);
      }
      return None;
    }

    /** send_finish_upload (classes/lib.php:964-1031). */
    method SendFinishUpload(cfg: Config, k: JobKey, rec: Job, reply: RpcReply)
      modifies this
      ensures State() == Finish(old(State()), cfg, k, rec, reply)
    {
      if k.siteId !in cfg.sites {
        SetJobStatus(k, TransferFailed);
        return;
      }
      if reply.Value? && reply.n == BackupAvailable {
        files := files - {rec.pathnamehash};
        DeleteRecord(k);
      }
    }

    /** upload_course_backup (classes/lib.php:829-954). */
    method UploadCourseBackup(cfg: Config, k: JobKey, rec: Job, lookupThrows: bool, reply: UploadReply, finish: RpcReply)
      returns (flow: Flow)
      modifies this
      ensures (State(), flow) == Upload(old(State()), cfg, k, rec, lookupThrows, reply, finish)
    {
      if k.siteId !in cfg.sites {
        SetJobStatus(k, TransferFailed);
        return Returned;
      }
      if lookupThrows {
        return Threw;
      }
      if rec.pathnamehash !in files {
        SetJobStatus(k, TransferFailed);
        return Returned;
      }
      if TooBig(cfg.sites[k.siteId].maxUpload, files[rec.pathnamehash]) {
        SetJobStatus(k, TransferFileTooBig);
        return Returned;
      }
      flow := Returned;
      SetJobStatus(k, TransferInProgress);
      ghost var claimed := State();
      assert claimed == SetStatus(old(State()), k, TransferInProgress);
      ghost var verdict := UploadVerdict(reply);
      assert verdict != TransferCompleted ==>
        Upload(old(State()), cfg, k, rec, lookupThrows, reply, finish) == (SetStatus(claimed, k, verdict), Returned);
      match reply {
        case CurlFailed =>
          SetJobStatus(k, TransferFailed);
        case NotJson(body) =>
          if PostLimit.Mentions(body) {
            SetJobStatus(k, TransferFileTooBig);
          } else {
            SetJobStatus(k, TransferFailed);
          }
        case TopError =>
          SetJobStatus(k, TransferFailed);
        case ItemError(errortype) =>
          if errortype == "fileoversized" {
            SetJobStatus(k, TransferFileTooBig);
          } else {
            SetJobStatus(k, TransferFailed);
          }
        case Uploaded(itemid) =>
          if itemid == 0 {
            SetJobStatus(k, TransferFailed);
          } else {
            var queuerec := rec.(returnItemId := itemid, status := TransferCompleted);
            UpdateRecord(k, queuerec);
            SendFinishUpload(cfg, k, queuerec, finish);
          }
        case HandlingThrows =>
          SetJobStatus(k, TransferFailed);
      }
    }

    /** backup_course (classes/lib.php:712-821). */
    method BackupCourse(cfg: Config, courses: set<int>, k: JobKey, rec: Job, run: BackupRun) returns (flow: Flow)
      modifies this
      ensures (State(), flow) == Backup(old(State()), cfg, courses, k, rec, run)
    {
      if k.siteId !in cfg.sites {
        SetJobStatus(k, BackupFailed);
        return Returned;
      }
      if k.courseId !in courses {
        SetJobStatus(k, BackupFailed);
        return Returned;
      }
      if run.EngineThrows? {
        return Threw;
      }
      if run.SettingRefused? {
        SetJobStatus(k, BackupFailed);
        return Returned;
      }
      SetJobStatus(k, BackupInProgress);
      var queuerec := rec;
      if run.PlanThrows? {
        SetJobStatus(k, BackupFailed);
      } else if run.NoDestination? {
        queuerec := queuerec.(status := BackupFailed);
        UpdateRecord(k, queuerec);
      } else {
        files := files[run.pathnamehash := run.size];
        queuerec := queuerec.(pathnamehash := run.pathnamehash);
        if TooBig(cfg.sites[k.siteId].maxUpload, run.size) {
          queuerec := queuerec.(status := TransferFileTooBig);
        } else {
          queuerec := queuerec.(status := TransferPending);
        }
        UpdateRecord(k, queuerec);
      }
      return Returned;
    }

    /** process_queue (classes/lib.php:655-703): every selected record, in
        the order selected, is handed to the routine for the status it had
        when selected. */
    method ProcessQueue(cfg: Config, courses: set<int>, order: seq<JobKey>, world: JobKey -> JobWorld)
      requires IsSelection(rows, order)
      modifies this
      ensures State() == Tick(old(State()), cfg, courses, old(rows), order, world)
      ensures forall k :: k in order ==> Moved(old(rows)[k], RowAt(rows, k))
      ensures forall k :: k !in order ==> RowAt(rows, k) == RowAt(old(rows), k)
      ensures old(Valid()) ==> Valid()
    {
      var records := rows;
      var i := 0;
      while i < |order|
        invariant 0 <= i <= |order|
        invariant State() == Tick(old(State()), cfg, courses, records, order[..i], world)
      {
        var k := order[i];
        var rec := records[k];
        var w := world(k);
        if rec.status == BackupPending {
          var flow := BackupCourse(cfg, courses, k, rec, w.run);
          if flow == Threw {
            SetJobStatus(k, BackupFailed);
          }
        } else if rec.status == TransferPending {
          // an exception out of the upload leaves the status as it is
          var _ := UploadCourseBackup(cfg, k, rec, w.lookupThrows, w.upload, w.finish);
        } else if rec.status == TransferCompleted {
          SendFinishUpload(cfg, k, rec, w.finish);
        }
        assert order[..i + 1][..i] == order[..i];
        i := i + 1;
      }
      assert order[..|order|] == order;
      TickFrame(old(State()), cfg, courses, records, order, world);
      TickMoves(old(State()), cfg, courses, records, order, world);
      if old(Valid()) {
        TickKeepsResting(old(State()), cfg, courses, order, world);
      }
    }

    /** The status shown for each of a user's courses: the queue records of
        the user read keyed by course id in (course id, status) order, so
        that for a course requested by several partners the highest status
        is the one kept (external.php:129-141). */
    method StatusByCourse(userId: int) returns (statuses: map<int, int>)
      ensures forall c :: c in statuses <==> exists k :: k in rows && k.courseId == c && rows[k].userId == userId
      ensures forall k :: k in rows && rows[k].userId == userId ==> rows[k].status <= statuses[k.courseId]
      ensures forall c :: c in statuses ==>
        exists k :: k in rows && k.courseId == c && rows[k].userId == userId && rows[k].status == statuses[c]
    {
      statuses := map[];
      var pending := rows.Keys;
      while pending != {}
        invariant pending <= rows.Keys
        invariant forall c :: c in statuses <==>
          exists k :: k in rows && k !in pending && k.courseId == c && rows[k].userId == userId
        invariant forall k :: k in rows && k !in pending && rows[k].userId == userId ==> rows[k].status <= statuses[k.courseId]
        invariant forall c :: c in statuses ==>
          exists k :: k in rows && k !in pending && k.courseId == c && rows[k].userId == userId && rows[k].status == statuses[c]
        decreases |pending|
      {
        var k :| k in pending;
        if rows[k].userId == userId && (k.courseId !in statuses || statuses[k.courseId] <= rows[k].status) {
          statuses := statuses[k.courseId := rows[k].status];
        }
        pending := pending - {k};
      }
    }
  }
}
