/** The sending side of a transfer, as values: the queue table, the backup
    files it points to, and what one run of the scheduled worker and each
    request from a partner site does to them (classes/lib.php:485-1109).
    The class in jobqueue.dfy performs these steps in place and is proved
    to agree with the functions here. */
module Queue {
  import opened Status
  import opened Config
  import PostLimit

  /** The alternate key of a queue record: (siteid, username, courseid). */
  datatype JobKey = JobKey(siteId: string, username: string, courseId: int)

  /** The other columns of block_mysites_queue. An empty pathnamehash and a
      returnItemId of 0 stand for the columns the insert leaves null. */
  datatype Job = Job(
    userId: int,
    status: int,
    pathnamehash: string,
    returnItemId: int,
    timeCreated: int,
    timeModified: int)

  /** One write to the queue table, in the order the writes happen: what a
      browser polling the status sees. */
  datatype Event = Wrote(key: JobKey, status: int) | Removed(key: JobKey)

  /** The queue table, the files in the users' backup areas (size by
      path-name hash), and the history of writes to the table. */
  datatype Tables = Tables(rows: map<JobKey, Job>, files: map<string, nat>, log: seq<Event>)

  /** What this site knows about its users and courses: user id by username,
      the existing course ids, and which (user id, course id) pairs hold
      moodle/backup:backupcourse. The capability is asked two ways:
      backupCap counts a site administrator as holding it everywhere (the
      default of has_capability), assignedCap only counts what the user's
      own roles grant. */
  datatype Host = Host(users: map<string, int>, courses: set<int>, backupCap: set<(int, int)>,
                       assignedCap: set<(int, int)>)

  /** A capability the user's roles grant also holds when administrators
      are counted. */
  predicate CapsAgree(host: Host) {
    host.assignedCap <= host.backupCap
  }

  /** How the backup engine behaves for one job: the controller or one of
      its settings raises before the job is claimed, the security check or
      the plan raises after it, the plan produces no destination file, or it
      produces a file of the given size. */
  datatype BackupRun =
    | EngineThrows
    | SettingRefused
    | PlanThrows
    | NoDestination
    | Produced(size: nat, pathnamehash: string)

  /** The partner's answer to the file upload, as classified by the upload
      code: transport failure, a body that is not a non-empty JSON array, a
      top-level error object, an error in the first entry, an entry with an
      item id (0 standing for a missing or empty one), or an exception while
      handling the answer. */
  datatype UploadReply =
    | CurlFailed
    | NotJson(body: string)
    | TopError
    | ItemError(errortype: string)
    | Uploaded(itemid: int)
    | HandlingThrows

  /** The partner's answer to block_mysites_finishupload. */
  datatype RpcReply = EmptyResponse | Unparsable | ErrorCode | NoValue | Value(n: int) | CallThrows

  /** Everything outside this site that one job's processing depends on;
      lookupThrows stands for the file store raising when the upload looks
      up the backup file, before the upload's own try block. */
  datatype JobWorld = JobWorld(run: BackupRun, lookupThrows: bool, upload: UploadReply, finish: RpcReply)

  /** How a library routine ends: normally, by raising an Exception (caught
      by the caller), or by raising a PHP Error, which no catch (Exception)
      on the way up stops. */
  datatype Flow = Returned | Threw | Fatal

  function RowAt(rows: map<JobKey, Job>, k: JobKey): Option<Job> {
    if k in rows then Some(rows[k]) else None
  }

  /** set_job_status: set_field on one record; nothing happens when the
      record is gone. */
  function SetStatus(t: Tables, k: JobKey, s: int): (r: Tables)
    ensures r.files == t.files && r.rows.Keys == t.rows.Keys
    ensures forall k' :: k' in t.rows && k' != k ==> r.rows[k'] == t.rows[k']
    ensures k in t.rows ==> r.rows[k] == t.rows[k].(status := s)
  {
    if k in t.rows then t.(rows := t.rows[k := t.rows[k].(status := s)], log := t.log + [Wrote(k, s)]) else t
  }

  /** update_record: every column of the record is overwritten by job. */
  function Update(t: Tables, k: JobKey, job: Job): (r: Tables)
    ensures r.files == t.files && r.rows.Keys == t.rows.Keys
    ensures forall k' :: k' in t.rows && k' != k ==> r.rows[k'] == t.rows[k']
    ensures k in t.rows ==> r.rows[k] == job
  {
    if k in t.rows then t.(rows := t.rows[k := job], log := t.log + [Wrote(k, job.status)]) else t
  }

  function DeleteRow(t: Tables, k: JobKey): (r: Tables)
    ensures r.files == t.files && r.rows == t.rows - {k}
  {
    t.(rows := t.rows - {k}, log := t.log + [Removed(k)])
  }

  /** The size check of both the backup and the upload: a limit of 0 means
      no limit. */
  predicate TooBig(maxUpload: nat, size: nat) {
    maxUpload > 0 && size > maxUpload
  }

  /** The status an answer from the partner's upload endpoint leads to;
      TRANSFER_COMPLETED only for an entry carrying a usable item id, and
      FILETOOBIG for the two ways the partner says the file is too large. */
  function UploadVerdict(reply: UploadReply): (s: int)
    ensures s == TransferCompleted || s == TransferFailed || s == TransferFileTooBig
    ensures s == TransferCompleted <==> reply.Uploaded? && reply.itemid != 0
    ensures s == TransferFileTooBig <==>
      (reply.NotJson? && PostLimit.Matches(reply.body)) || (reply.ItemError? && reply.errortype == "fileoversized")
  {
    PostLimit.MentionsMatches(if reply.NotJson? then reply.body else "");
    match reply
    case CurlFailed => TransferFailed
    case NotJson(body) => if PostLimit.Mentions(body) then TransferFileTooBig else TransferFailed
    case TopError => TransferFailed
    case ItemError(errortype) => if errortype == "fileoversized" then TransferFileTooBig else TransferFailed
    case Uploaded(itemid) => if itemid == 0 then TransferFailed else TransferCompleted
    case HandlingThrows => TransferFailed
  }

  /** send_finish_upload: only the partner's answer BACKUP_AVAILABLE removes
      the record and its backup file; every other answer leaves the record
      to be retried on the next run. */
  function Finish(t: Tables, cfg: Config, k: JobKey, rec: Job, reply: RpcReply): (r: Tables)
    ensures r.rows.Keys <= t.rows.Keys && r.files.Keys <= t.files.Keys
    ensures k in t.rows ==> (k !in r.rows <==> k.siteId in cfg.sites && reply == Value(BackupAvailable))
    ensures r.files != t.files ==> reply == Value(BackupAvailable) && r.files == t.files - {rec.pathnamehash}
  {
    if k.siteId !in cfg.sites then SetStatus(t, k, TransferFailed)
    else if reply == Value(BackupAvailable) then DeleteRow(t.(files := t.files - {rec.pathnamehash}), k)
    else t
  }

  /** upload_course_backup: checks, claim with TRANSFER_INPROGRESS, then the
      verdict on the partner's answer; a usable item id is stored with
      TRANSFER_COMPLETED and the transfer is finished at once. */
  function Upload(t: Tables, cfg: Config, k: JobKey, rec: Job, lookupThrows: bool, reply: UploadReply,
                  finish: RpcReply): (r: (Tables, Flow))
    ensures r.1 != Fatal
    ensures r.1 == Threw <==> k.siteId in cfg.sites && lookupThrows
    ensures r.1 == Threw ==> r.0 == t
    ensures r.0.rows.Keys <= t.rows.Keys && r.0.files.Keys <= t.files.Keys
  {
    if k.siteId !in cfg.sites then (SetStatus(t, k, TransferFailed), Returned)
    else if lookupThrows then (t, Threw)
    else if rec.pathnamehash !in t.files then (SetStatus(t, k, TransferFailed), Returned)
    else if TooBig(cfg.sites[k.siteId].maxUpload, t.files[rec.pathnamehash]) then (SetStatus(t, k, TransferFileTooBig), Returned)
    else
      var claimed := SetStatus(t, k, TransferInProgress);
      var verdict := UploadVerdict(reply);
      if verdict == TransferCompleted then
        var done := rec.(returnItemId := reply.itemid, status := TransferCompleted);
        (Finish(Update(claimed, k, done), cfg, k, done, finish), Returned)
      else
        (SetStatus(claimed, k, verdict), Returned)
  }

  /** backup_course: checks, then the engine; the job is claimed with
      BACKUP_INPROGRESS once the controller is set up, and a produced file
      is recorded with the status the size check gives it. */
  function Backup(t: Tables, cfg: Config, courses: set<int>, k: JobKey, rec: Job, run: BackupRun): (r: (Tables, Flow))
    ensures r.1 != Fatal
    ensures r.1 == Threw <==> k.siteId in cfg.sites && k.courseId in courses && run == EngineThrows
    ensures r.1 == Threw ==> r.0 == t
    ensures r.0.rows.Keys == t.rows.Keys
    ensures r.0.files.Keys <= t.files.Keys + (if run.Produced? then {run.pathnamehash} else {})
  {
    if k.siteId !in cfg.sites then (SetStatus(t, k, BackupFailed), Returned)
    else if k.courseId !in courses then (SetStatus(t, k, BackupFailed), Returned)
    else match run
      case EngineThrows => (t, Threw)
      case SettingRefused => (SetStatus(t, k, BackupFailed), Returned)
      case PlanThrows => (SetStatus(SetStatus(t, k, BackupInProgress), k, BackupFailed), Returned)
      case NoDestination => (Update(SetStatus(t, k, BackupInProgress), k, rec.(status := BackupFailed)), Returned)
      case Produced(size, hash) =>
        var claimed := SetStatus(t, k, BackupInProgress);
        var status := if TooBig(cfg.sites[k.siteId].maxUpload, size) then TransferFileTooBig else TransferPending;
        (Update(claimed.(files := claimed.files[hash := size]), k, rec.(pathnamehash := hash, status := status)), Returned)
  }

  /** One record of process_queue, dispatched on the status it had when
      the records were selected. An exception out of backup_course marks
      the job BACKUP_FAILED; one out of upload_course_backup leaves the
      status alone. A step touches no other record. */
  function JobStep(t: Tables, cfg: Config, courses: set<int>, k: JobKey, rec: Job, w: JobWorld): (r: Tables)
    ensures r.rows.Keys <= t.rows.Keys
    ensures forall k' :: k' in t.rows && k' != k ==> k' in r.rows && r.rows[k'] == t.rows[k']
  {
    if rec.status == BackupPending then
      var (t1, flow) := Backup(t, cfg, courses, k, rec, w.run);
      if flow == Threw then SetStatus(t1, k, BackupFailed) else t1
    else if rec.status == TransferPending then Upload(t, cfg, k, rec, w.lookupThrows, w.upload, w.finish).0
    else if rec.status == TransferCompleted then Finish(t, cfg, k, rec, w.finish)
    else t
  }

  /** The statuses process_queue selects. */
  predicate Waiting(s: int) {
    s == BackupPending || s == TransferPending || s == TransferCompleted
  }

  /** order is what get_records_select returns: each waiting record once,
      by ascending timemodified. */
  ghost predicate IsSelection(rows: map<JobKey, Job>, order: seq<JobKey>) {
    && (forall i, j :: 0 <= i < j < |order| ==> order[i] != order[j])
    && (forall k :: k in order <==> k in rows && Waiting(rows[k].status))
    && (forall i, j :: 0 <= i < j < |order| && order[i] in rows && order[j] in rows ==>
          rows[order[i]].timeModified <= rows[order[j]].timeModified)
  }

  /** The foreach of process_queue over the first n selected records, each
      processed from the record as selected. */
  function Tick(t: Tables, cfg: Config, courses: set<int>, records: map<JobKey, Job>,
                order: seq<JobKey>, world: JobKey -> JobWorld): (r: Tables)
    requires forall k :: k in order ==> k in records
    ensures r.rows.Keys <= t.rows.Keys
    decreases |order|
  {
    if order == [] then t
    else
      var last := order[|order| - 1];
      JobStep(Tick(t, cfg, courses, records, order[..|order| - 1], world), cfg, courses, last, records[last], world(last))
  }

  /** Where one run of the worker may take a selected record: a pending
      backup ends failed, ready for transfer or too big; a pending transfer
      stays, or ends completed, failed, too big or removed; a completed
      transfer stays or fails, or is removed. Owner and timestamps never
      change. */
  predicate Moved(before: Job, after: Option<Job>) {
    match after
    case None => before.status == TransferPending || before.status == TransferCompleted
    case Some(a) =>
      && a.userId == before.userId
      && a.timeCreated == before.timeCreated
      && a.timeModified == before.timeModified
      && (before.status == BackupPending ==>
            a.status in {BackupFailed, TransferPending, TransferFileTooBig} && a.returnItemId == before.returnItemId)
      && (before.status == TransferPending ==>
            a.status in {TransferPending, TransferCompleted, TransferFailed, TransferFileTooBig}
            && a.pathnamehash == before.pathnamehash)
      && (before.status == TransferCompleted ==>
            a.status in {TransferCompleted, TransferFailed} && a == before.(status := a.status))
  }

  lemma FinishMoves(t: Tables, cfg: Config, k: JobKey, rec: Job, reply: RpcReply)
    requires k in t.rows
    ensures var r := Finish(t, cfg, k, rec, reply);
      || (k !in r.rows && reply == Value(BackupAvailable))
      || (k in r.rows && r.rows[k] == t.rows[k])
      || (k in r.rows && r.rows[k] == t.rows[k].(status := TransferFailed))
  {
  }

  lemma UploadMoves(t: Tables, cfg: Config, k: JobKey, lookupThrows: bool, reply: UploadReply, finish: RpcReply)
    requires k in t.rows && t.rows[k].status == TransferPending
    ensures var (r, _) := Upload(t, cfg, k, t.rows[k], lookupThrows, reply, finish);
      && Moved(t.rows[k], RowAt(r.rows, k))
      && (k !in r.rows ==> finish == Value(BackupAvailable))
  {
    var rec := t.rows[k];
    if k.siteId in cfg.sites && !lookupThrows && rec.pathnamehash in t.files
       && !TooBig(cfg.sites[k.siteId].maxUpload, t.files[rec.pathnamehash]) {
      var claimed := SetStatus(t, k, TransferInProgress);
      if UploadVerdict(reply) == TransferCompleted {
        var done := rec.(returnItemId := reply.itemid, status := TransferCompleted);
        FinishMoves(Update(claimed, k, done), cfg, k, done, finish);
      }
    }
  }

  lemma BackupMoves(t: Tables, cfg: Config, courses: set<int>, k: JobKey, run: BackupRun)
    requires k in t.rows && t.rows[k].status == BackupPending
    ensures var (t1, flow) := Backup(t, cfg, courses, k, t.rows[k], run);
      var r := if flow == Threw then SetStatus(t1, k, BackupFailed) else t1;
      Moved(t.rows[k], RowAt(r.rows, k))
  {
  }

  lemma JobStepMoves(t: Tables, cfg: Config, courses: set<int>, k: JobKey, w: JobWorld)
    requires k in t.rows && Waiting(t.rows[k].status)
    ensures var r := JobStep(t, cfg, courses, k, t.rows[k], w);
      && Moved(t.rows[k], RowAt(r.rows, k))
      && (k !in r.rows ==> w.finish == Value(BackupAvailable))
  {
    var rec := t.rows[k];
    if rec.status == BackupPending {
      BackupMoves(t, cfg, courses, k, w.run);
    } else if rec.status == TransferPending {
      UploadMoves(t, cfg, k, w.lookupThrows, w.upload, w.finish);
    } else {
      FinishMoves(t, cfg, k, rec, w.finish);
    }
  }

  /** Records outside the selection are left as they are. */
  lemma {:induction false} TickFrame(t: Tables, cfg: Config, courses: set<int>, records: map<JobKey, Job>,
                                     order: seq<JobKey>, world: JobKey -> JobWorld)
    requires forall k :: k in order ==> k in records
    ensures var r := Tick(t, cfg, courses, records, order, world);
      && r.rows.Keys <= t.rows.Keys
      && forall k :: k !in order ==> RowAt(r.rows, k) == RowAt(t.rows, k)
    decreases |order|
  {
    if order != [] {
      TickFrame(t, cfg, courses, records, order[..|order| - 1], world);
    }
  }

  /** Over a whole run, every selected record moves as Moved allows, and
      disappears only after its partner confirmed BACKUP_AVAILABLE. */
  lemma {:induction false} TickMoves(t: Tables, cfg: Config, courses: set<int>, records: map<JobKey, Job>,
                                     order: seq<JobKey>, world: JobKey -> JobWorld)
    requires forall i, j :: 0 <= i < j < |order| ==> order[i] != order[j]
    requires forall k :: k in order ==> k in records && k in t.rows && t.rows[k] == records[k] && Waiting(records[k].status)
    ensures var r := Tick(t, cfg, courses, records, order, world);
      forall k :: k in order ==>
        && Moved(records[k], RowAt(r.rows, k))
        && (k !in r.rows ==> world(k).finish == Value(BackupAvailable))
    decreases |order|
  {
    if order != [] {
      var init := order[..|order| - 1];
      var last := order[|order| - 1];
      assert order == init + [last];
      assert forall i, j :: 0 <= i < j < |init| ==> init[i] != init[j];
      assert last !in init;
      TickMoves(t, cfg, courses, records, init, world);
      TickFrame(t, cfg, courses, records, init, world);
      var mid := Tick(t, cfg, courses, records, init, world);
      assert RowAt(mid.rows, last) == RowAt(t.rows, last);
      JobStepMoves(mid, cfg, courses, last, world(last));
      var r := JobStep(mid, cfg, courses, last, records[last], world(last));
      assert r == Tick(t, cfg, courses, records, order, world);
      forall k | k in order
        ensures Moved(records[k], RowAt(r.rows, k)) && (k !in r.rows ==> world(k).finish == Value(BackupAvailable))
      {
        if k != last {
          assert k in init;
          assert RowAt(r.rows, k) == RowAt(mid.rows, k);
        }
      }
    }
  }

  /** The statuses a record rests in between operations: the in-progress
      statuses 2 and 5 are only ever seen while a step runs. */
  predicate Resting(s: int) {
    s == BackupPending || s == BackupFailed || s == TransferPending
    || s == TransferCompleted || s == TransferFailed || s == TransferFileTooBig
  }

  predicate AllResting(rows: map<JobKey, Job>) {
    forall k :: k in rows ==> Resting(rows[k].status)
  }

  /** A run of the worker leaves every record in a resting status. */
  lemma TickKeepsResting(t: Tables, cfg: Config, courses: set<int>, order: seq<JobKey>, world: JobKey -> JobWorld)
    requires IsSelection(t.rows, order) && AllResting(t.rows)
    ensures AllResting(Tick(t, cfg, courses, t.rows, order, world).rows)
  {
    var r := Tick(t, cfg, courses, t.rows, order, world);
    TickFrame(t, cfg, courses, t.rows, order, world);
    TickMoves(t, cfg, courses, t.rows, order, world);
    forall k | k in r.rows
      ensures Resting(r.rows[k].status)
    {
      if k in order {
        assert Moved(t.rows[k], RowAt(r.rows, k));
      } else {
        assert RowAt(r.rows, k) == RowAt(t.rows, k);
      }
    }
  }

  /** A step removes a backup file only when it finishes the record that
      points to it and the partner confirmed BACKUP_AVAILABLE. */
  lemma JobStepRemovesFile(t: Tables, cfg: Config, courses: set<int>, k: JobKey, rec: Job, w: JobWorld, h: string)
    requires h in t.files
    ensures h !in JobStep(t, cfg, courses, k, rec, w).files ==> rec.pathnamehash == h && w.finish == Value(BackupAvailable)
  {
    if rec.status == BackupPending {
      var (t1, flow) := Backup(t, cfg, courses, k, rec, w.run);
      assert h in t1.files;
    } else if rec.status == TransferPending {
      var (t1, _) := Upload(t, cfg, k, rec, w.lookupThrows, w.upload, w.finish);
      if k.siteId in cfg.sites && !w.lookupThrows && rec.pathnamehash in t.files
         && !TooBig(cfg.sites[k.siteId].maxUpload, t.files[rec.pathnamehash])
         && UploadVerdict(w.upload) == TransferCompleted {
        var done := rec.(returnItemId := w.upload.itemid, status := TransferCompleted);
        var stored := Update(SetStatus(t, k, TransferInProgress), k, done);
        assert stored.files == t.files;
        assert t1 == Finish(stored, cfg, k, done, w.finish);
      } else {
        assert h in t1.files;
      }
    }
  }

  /** Backup files disappear only together with a record whose partner
      confirmed the transfer, and only the file that record points to. */
  lemma {:induction false} TickRemovesFilesOfFinished(t: Tables, cfg: Config, courses: set<int>, records: map<JobKey, Job>,
                                                      order: seq<JobKey>, world: JobKey -> JobWorld, h: string)
    requires forall k :: k in order ==> k in records
    requires h in t.files
    ensures var r := Tick(t, cfg, courses, records, order, world);
      h !in r.files ==> exists k :: k in order && records[k].pathnamehash == h && world(k).finish == Value(BackupAvailable)
    decreases |order|
  {
    if order != [] {
      var init := order[..|order| - 1];
      var last := order[|order| - 1];
      TickRemovesFilesOfFinished(t, cfg, courses, records, init, world, h);
      var mid := Tick(t, cfg, courses, records, init, world);
      if h in mid.files {
        JobStepRemovesFile(mid, cfg, courses, last, records[last], world(last), h);
      } else {
        var k :| k in init && records[k].pathnamehash == h && world(k).finish == Value(BackupAvailable);
        assert k in order;
      }
    }
  }

  /** r extends the history of t by writes to k only, and when there are
      any, the last one records where k ends. */
  predicate StepLog(t: Tables, r: Tables, k: JobKey) {
    && |r.log| >= |t.log| && r.log[..|t.log|] == t.log
    && (forall i :: |t.log| <= i < |r.log| ==> r.log[i].key == k)
    && (|r.log| > |t.log| ==> r.log[|r.log| - 1] == if k in r.rows then Wrote(k, r.rows[k].status) else Removed(k))
  }

  lemma StepLogChain(t: Tables, m: Tables, r: Tables, k: JobKey)
    requires StepLog(t, m, k) && StepLog(m, r, k)
    requires |r.log| == |m.log| ==> RowAt(r.rows, k) == RowAt(m.rows, k)
    ensures StepLog(t, r, k)
  {
    assert r.log[..|t.log|] == r.log[..|m.log|][..|t.log|];
  }

  lemma SetStatusLog(t: Tables, k: JobKey, s: int)
    ensures StepLog(t, SetStatus(t, k, s), k)
  {
  }

  lemma UpdateLog(t: Tables, k: JobKey, job: Job)
    ensures StepLog(t, Update(t, k, job), k)
  {
  }

  lemma FinishLog(t: Tables, cfg: Config, k: JobKey, rec: Job, reply: RpcReply)
    ensures StepLog(t, Finish(t, cfg, k, rec, reply), k)
  {
  }

  lemma UploadLog(t: Tables, cfg: Config, k: JobKey, rec: Job, lookupThrows: bool, reply: UploadReply, finish: RpcReply)
    requires k in t.rows
    ensures var (r, _) := Upload(t, cfg, k, rec, lookupThrows, reply, finish);
      && StepLog(t, r, k)
      && (k.siteId in cfg.sites && !lookupThrows && rec.pathnamehash in t.files
          && !TooBig(cfg.sites[k.siteId].maxUpload, t.files[rec.pathnamehash]) ==>
            |r.log| > |t.log| && r.log[|t.log|] == Wrote(k, TransferInProgress))
  {
    var (r, _) := Upload(t, cfg, k, rec, lookupThrows, reply, finish);
    if k.siteId in cfg.sites && !lookupThrows && rec.pathnamehash in t.files
       && !TooBig(cfg.sites[k.siteId].maxUpload, t.files[rec.pathnamehash]) {
      var claimed := SetStatus(t, k, TransferInProgress);
      SetStatusLog(t, k, TransferInProgress);
      if UploadVerdict(reply) == TransferCompleted {
        var done := rec.(returnItemId := reply.itemid, status := TransferCompleted);
        var stored := Update(claimed, k, done);
        assert r == Finish(stored, cfg, k, done, finish);
        UpdateLog(claimed, k, done);
        StepLogChain(t, claimed, stored, k);
        FinishLog(stored, cfg, k, done, finish);
        StepLogChain(t, stored, r, k);
        assert r.log[..|claimed.log|] == claimed.log by {
          assert r.log[..|claimed.log|] == r.log[..|stored.log|][..|claimed.log|];
        }
        assert r.log[|t.log|] == claimed.log[|t.log|];
      } else {
        assert r == SetStatus(claimed, k, UploadVerdict(reply));
        SetStatusLog(claimed, k, UploadVerdict(reply));
        StepLogChain(t, claimed, r, k);
        assert r.log[|t.log|] == claimed.log[|t.log|];
      }
    } else if k.siteId !in cfg.sites || !lookupThrows {
      SetStatusLog(t, k, if k.siteId in cfg.sites && rec.pathnamehash in t.files then TransferFileTooBig else TransferFailed);
    }
  }

  lemma BackupLog(t: Tables, cfg: Config, courses: set<int>, k: JobKey, rec: Job, run: BackupRun)
    requires k in t.rows
    ensures var (t1, flow) := Backup(t, cfg, courses, k, rec, run);
      var r := if flow == Threw then SetStatus(t1, k, BackupFailed) else t1;
      && StepLog(t, r, k)
      && (k.siteId in cfg.sites && k.courseId in courses && (run.PlanThrows? || run.NoDestination? || run.Produced?) ==>
            |r.log| > |t.log| && r.log[|t.log|] == Wrote(k, BackupInProgress))
  {
    if k.siteId in cfg.sites && k.courseId in courses && (run.PlanThrows? || run.NoDestination? || run.Produced?) {
      var claimed := SetStatus(t, k, BackupInProgress);
      SetStatusLog(t, k, BackupInProgress);
      var (r, _) := Backup(t, cfg, courses, k, rec, run);
      match run
      case PlanThrows =>
        SetStatusLog(claimed, k, BackupFailed);
        StepLogChain(t, claimed, r, k);
      case NoDestination =>
        UpdateLog(claimed, k, rec.(status := BackupFailed));
        StepLogChain(t, claimed, r, k);
      case Produced(size, hash) =>
        var status := if TooBig(cfg.sites[k.siteId].maxUpload, size) then TransferFileTooBig else TransferPending;
        var withFile := claimed.(files := claimed.files[hash := size]);
        UpdateLog(withFile, k, rec.(pathnamehash := hash, status := status));
        StepLogChain(t, withFile, r, k);
      assert r.log[|t.log|] == claimed.log[|t.log|];
    } else {
      SetStatusLog(t, k, BackupFailed);
    }
  }

  /** The first write of a step that reaches the backup engine, or the
      partner's upload endpoint, is the in-progress claim; all of a step's
      writes concern its own record, and the last one records where the
      record ends. */
  lemma ClaimBeforeWork(t: Tables, cfg: Config, courses: set<int>, k: JobKey, w: JobWorld)
    requires k in t.rows
    ensures var rec := t.rows[k];
      var r := JobStep(t, cfg, courses, k, rec, w);
      && StepLog(t, r, k)
      && (rec.status == BackupPending && k.siteId in cfg.sites && k.courseId in courses
          && (w.run.PlanThrows? || w.run.NoDestination? || w.run.Produced?) ==>
            |r.log| > |t.log| && r.log[|t.log|] == Wrote(k, BackupInProgress))
      && (rec.status == TransferPending && k.siteId in cfg.sites && !w.lookupThrows && rec.pathnamehash in t.files
          && !TooBig(cfg.sites[k.siteId].maxUpload, t.files[rec.pathnamehash]) ==>
            |r.log| > |t.log| && r.log[|t.log|] == Wrote(k, TransferInProgress))
  {
    var rec := t.rows[k];
    if rec.status == BackupPending {
      BackupLog(t, cfg, courses, k, rec, w.run);
    } else if rec.status == TransferPending {
      UploadLog(t, cfg, k, rec, w.lookupThrows, w.upload, w.finish);
    } else if rec.status == TransferCompleted {
      FinishLog(t, cfg, k, rec, w.finish);
    }
  }

  /** A file the backup accepted for transfer passes the upload's own size
      check while the partner's limit is unchanged. */
  lemma BackupThenUploadSize(t: Tables, cfg: Config, courses: set<int>, k: JobKey, size: nat, hash: string,
                             reply: UploadReply, finish: RpcReply)
    requires k in t.rows && t.rows[k].status == BackupPending
    requires k.siteId in cfg.sites && k.courseId in courses
    ensures var (t1, _) := Backup(t, cfg, courses, k, t.rows[k], Produced(size, hash));
      t1.rows[k].status == TransferPending ==>
        var (r, _) := Upload(t1, cfg, k, t1.rows[k], false, reply, finish);
        RowAt(r.rows, k) != Some(t1.rows[k].(status := TransferFileTooBig)) || UploadVerdict(reply) == TransferFileTooBig
  {
  }

  /** insert_backup_request. storeRefuses stands for insert_record answering
      false without raising: the code still answers BACKUP_PENDING. A second
      request for the same key raises on the unique key and is refused. */
  function Insert(t: Tables, host: Host, cfg: Config, k: JobKey, now: int, storeRefuses: bool): (r: (Tables, int))
    ensures r.1 == RequestFailed || r.1 == BackupPending
    ensures r.1 == RequestFailed ==> r.0 == t
    ensures r.1 == BackupPending <==>
      && k.username in host.users && k.courseId in host.courses
      && (host.users[k.username], k.courseId) in host.backupCap
      && k.siteId in cfg.sites && k !in t.rows
    ensures r.0.files == t.files && r.0.rows.Keys <= t.rows.Keys + {k}
    ensures forall k' :: k' in t.rows ==> k' in r.0.rows && r.0.rows[k'] == t.rows[k']
    ensures storeRefuses ==> r.0 == t
    ensures r.1 == BackupPending && !storeRefuses ==>
      && r.0.rows == t.rows[k := Job(host.users[k.username], BackupPending, "", 0, now, now)]
      && r.0.log == t.log + [Wrote(k, BackupPending)]
  {
    if k.username !in host.users then (t, RequestFailed)
    else if k.courseId !in host.courses then (t, RequestFailed)
    else if (host.users[k.username], k.courseId) !in host.backupCap then (t, RequestFailed)
    else if k.siteId !in cfg.sites then (t, RequestFailed)
    else if k in t.rows then (t, RequestFailed)
    else if storeRefuses then (t, BackupPending)
    else
      var job := Job(host.users[k.username], BackupPending, "", 0, now, now);
      (t.(rows := t.rows[k := job], log := t.log + [Wrote(k, BackupPending)]), BackupPending)
  }

  /** cancel_backup_request: removes the record only while it is still
      BACKUP_PENDING, then reports REQUEST_NONE if no record is left, or the
      status of the record the worker has already claimed. */
  function Cancel(t: Tables, k: JobKey): (r: (Tables, int))
    ensures r.0.files == t.files
    ensures r.0.rows == if k in t.rows && t.rows[k].status == BackupPending then t.rows - {k} else t.rows
    ensures r.1 == RequestNone <==> k !in r.0.rows || r.0.rows[k].status == RequestNone
    ensures k in r.0.rows ==> r.1 == t.rows[k].status
  {
    var t1 := if k in t.rows && t.rows[k].status == BackupPending then DeleteRow(t, k) else t;
    (t1, if k in t1.rows then t1.rows[k].status else RequestNone)
  }

  /** reset_backup_request. The switch has no default branch, so a status
      outside its cases answers nothing (None). */
  function Reset(t: Tables, k: JobKey): (r: (Tables, Option<int>))
    ensures r.0.files == t.files && r.0.rows.Keys <= t.rows.Keys
    ensures forall k' :: k' in t.rows && k' != k ==> k' in r.0.rows && r.0.rows[k'] == t.rows[k']
  {
    if k !in t.rows then (t, Some(RequestNone))
    else
      var s := t.rows[k].status;
      if s in {BackupPending, BackupInProgress, TransferPending, TransferInProgress, TransferCompleted} then (t, Some(RequestFailed))
      else if s == TransferFailed || s == TransferFileTooBig then
        (Update(t, k, t.rows[k].(status := TransferPending)), Some(TransferPending))
      else if s == BackupFailed then (DeleteRow(t, k), Some(RequestNone))
      else (t, None)
  }

  /** What reset answers for each status: it refuses work waiting or
      under way (1, 2, 4, 5, 6), sends a failed transfer (7, 8) back to
      TRANSFER_PENDING with its file and item id kept, removes a failed
      backup (3) so that it can be requested again, answers REQUEST_NONE
      when there is no record, and answers nothing for a status its switch
      does not list (0, 9 or any other code). Only a failed transfer or a
      failed backup changes the table. */
  lemma ResetOutcomes(t: Tables, k: JobKey)
    ensures var (t1, answer) := Reset(t, k);
      && (answer.None? <==> k in t.rows && !(BackupPending <= t.rows[k].status <= TransferFileTooBig))
      && (answer == Some(RequestFailed) <==>
            k in t.rows && t.rows[k].status in {BackupPending, BackupInProgress, TransferPending,
                                                TransferInProgress, TransferCompleted})
      && (answer == Some(TransferPending) <==>
            k in t.rows && (t.rows[k].status == TransferFailed || t.rows[k].status == TransferFileTooBig))
      && (answer == Some(TransferPending) ==> k in t1.rows && t1.rows[k] == t.rows[k].(status := TransferPending))
      && (answer == Some(RequestNone) <==> k !in t1.rows)
      && (answer == Some(RequestNone) <==> k !in t.rows || t.rows[k].status == BackupFailed)
      && (answer.Some? ==> answer.value in {RequestFailed, RequestNone, TransferPending})
      && (!(k in t.rows && t.rows[k].status in {BackupFailed, TransferFailed, TransferFileTooBig}) ==> t1 == t)
  {
  }

  /** A request the worker has not yet picked up can be withdrawn: the
      table returns to what it was before the request. */
  lemma InsertThenCancel(t: Tables, host: Host, cfg: Config, k: JobKey, now: int)
    requires Insert(t, host, cfg, k, now, false).1 == BackupPending
    ensures var (t1, _) := Insert(t, host, cfg, k, now, false);
      var (t2, answer) := Cancel(t1, k);
      answer == RequestNone && t2.rows == t.rows && t2.files == t.files
  {
    var (t1, _) := Insert(t, host, cfg, k, now, false);
    assert t1.rows - {k} == t.rows;
  }

  /** A second request for the same course from the same partner and user
      is refused and leaves a single record. */
  lemma InsertTwice(t: Tables, host: Host, cfg: Config, k: JobKey, now: int, later: int)
    requires Insert(t, host, cfg, k, now, false).1 == BackupPending
    ensures var (t1, _) := Insert(t, host, cfg, k, now, false);
      Insert(t1, host, cfg, k, later, false) == (t1, RequestFailed)
  {
  }

  /** A failed backup, once reset, can be requested again. */
  lemma ResetThenInsert(t: Tables, host: Host, cfg: Config, k: JobKey, now: int)
    requires k in t.rows && t.rows[k].status == BackupFailed
    requires k.username in host.users && k.courseId in host.courses
    requires (host.users[k.username], k.courseId) in host.backupCap && k.siteId in cfg.sites
    ensures var (t1, answer) := Reset(t, k);
      answer == Some(RequestNone) && Insert(t1, host, cfg, k, now, false).1 == BackupPending
  {
  }
}
