/** The worker as classes/lib.php is written, where two paths raise a PHP
    Error rather than an Exception. An Error passes every catch (Exception)
    of process_queue and of the scheduled task, so the run stops at that
    record: the records after it in the selection are not worked and the
    stale-cache purge of that tick does not happen.

    - classes/lib.php:811 logs $sf->get_filename() after a backup that
      produced no destination file, where $sf was never assigned.
    - classes/lib.php:1021 calls ->delete() on what get_file_by_hash
      answers, which is false when the backup file is already gone.

    The rest of the model (module Queue) is the corrected behaviour, where
    both paths end the step normally. */
module Findings {
  import opened Status
  import opened Config
  import opened Queue
  import Lists

  /** backup_course as written: the no-destination path writes
      BACKUP_FAILED and then raises an Error. */
  function BackupAsWritten(t: Tables, cfg: Config, courses: set<int>, k: JobKey, rec: Job, run: BackupRun)
    : (r: (Tables, Flow))
    ensures r.0 == Backup(t, cfg, courses, k, rec, run).0
    ensures r.1 == Fatal <==> k.siteId in cfg.sites && k.courseId in courses && run.NoDestination?
  {
    var (t1, flow) := Backup(t, cfg, courses, k, rec, run);
    if k.siteId in cfg.sites && k.courseId in courses && run.NoDestination? then (t1, Fatal) else (t1, flow)
  }

  /** send_finish_upload as written: a confirmed transfer whose backup file
      is already gone raises an Error before the record is removed. */
  function FinishAsWritten(t: Tables, cfg: Config, k: JobKey, rec: Job, reply: RpcReply): (r: (Tables, Flow))
    ensures r.1 == Fatal <==>
      k.siteId in cfg.sites && reply == Value(BackupAvailable) && rec.pathnamehash !in t.files
    ensures r.1 == Fatal ==> r.0 == t
    ensures r.1 != Fatal ==> r.0 == Finish(t, cfg, k, rec, reply)
  {
    if k.siteId in cfg.sites && reply == Value(BackupAvailable) && rec.pathnamehash !in t.files then (t, Fatal)
    else (Finish(t, cfg, k, rec, reply), Returned)
  }

  /** upload_course_backup as written, finishing through FinishAsWritten. */
  function UploadAsWritten(t: Tables, cfg: Config, k: JobKey, rec: Job, lookupThrows: bool, reply: UploadReply,
                           finish: RpcReply): (Tables, Flow)
  {
    if k.siteId !in cfg.sites || lookupThrows || rec.pathnamehash !in t.files
       || TooBig(cfg.sites[k.siteId].maxUpload, t.files[rec.pathnamehash])
       || UploadVerdict(reply) != TransferCompleted
    then Upload(t, cfg, k, rec, lookupThrows, reply, finish)
    else
      var claimed := SetStatus(t, k, TransferInProgress);
      var done := rec.(returnItemId := reply.itemid, status := TransferCompleted);
      FinishAsWritten(Update(claimed, k, done), cfg, k, done, finish)
  }

  /** One record of process_queue as written; true when an Error escaped. */
  function JobStepAsWritten(t: Tables, cfg: Config, courses: set<int>, k: JobKey, rec: Job, w: JobWorld): (Tables, bool) {
    if rec.status == BackupPending then
      var (t1, flow) := BackupAsWritten(t, cfg, courses, k, rec, w.run);
      if flow == Threw then (SetStatus(t1, k, BackupFailed), false) else (t1, flow == Fatal)
    else if rec.status == TransferPending then
      var (t1, flow) := UploadAsWritten(t, cfg, k, rec, w.lookupThrows, w.upload, w.finish);
      (t1, flow == Fatal)
    else if rec.status == TransferCompleted then
      var (t1, flow) := FinishAsWritten(t, cfg, k, rec, w.finish);
      (t1, flow == Fatal)
    else (t, false)
  }

  /** The foreach of process_queue as written: an Error ends the run. */
  function TickAsWritten(t: Tables, cfg: Config, courses: set<int>, records: map<JobKey, Job>,
                         order: seq<JobKey>, world: JobKey -> JobWorld): (Tables, bool)
    requires forall k :: k in order ==> k in records
    decreases |order|
  {
    if order == [] then (t, false)
    else
      var last := order[|order| - 1];
      var (t1, stopped) := TickAsWritten(t, cfg, courses, records, order[..|order| - 1], world);
      if stopped then (t1, true) else JobStepAsWritten(t1, cfg, courses, last, records[last], world(last))
  }

  /** The scheduled task's tick as written: the purge is skipped when an
      Error left process_queue. */
  function ExecuteAsWritten(t: Tables, entries: map<int, Lists.CacheEntry>, cfg: Option<Config>, courses: set<int>,
                            order: seq<JobKey>, world: JobKey -> JobWorld, now: int)
    : (Tables, map<int, Lists.CacheEntry>)
    requires forall k :: k in order ==> k in t.rows
  {
    if !Configured(cfg) then (t, entries)
    else
      var (t1, stopped) := TickAsWritten(t, cfg.value, courses, t.rows, order, world);
      (t1, if stopped then entries else Lists.WithoutStale(entries, now - 5 * Lists.MinuteSeconds))
  }

  lemma UploadAsWrittenAgrees(t: Tables, cfg: Config, k: JobKey, rec: Job, lookupThrows: bool, reply: UploadReply,
                              finish: RpcReply)
    ensures var (t1, flow) := UploadAsWritten(t, cfg, k, rec, lookupThrows, reply, finish);
      flow != Fatal ==> (t1, flow) == Upload(t, cfg, k, rec, lookupThrows, reply, finish)
  {
  }

  /** Where no Error is raised, the code as written does what the model
      does. */
  lemma JobStepAsWrittenAgrees(t: Tables, cfg: Config, courses: set<int>, k: JobKey, rec: Job, w: JobWorld)
    ensures var (t1, stopped) := JobStepAsWritten(t, cfg, courses, k, rec, w);
      !stopped ==> t1 == JobStep(t, cfg, courses, k, rec, w)
  {
    UploadAsWrittenAgrees(t, cfg, k, rec, w.lookupThrows, w.upload, w.finish);
  }

  lemma {:induction false} TickAsWrittenAgrees(t: Tables, cfg: Config, courses: set<int>, records: map<JobKey, Job>,
                                               order: seq<JobKey>, world: JobKey -> JobWorld)
    requires forall k :: k in order ==> k in records
    ensures var (t1, stopped) := TickAsWritten(t, cfg, courses, records, order, world);
      !stopped ==> t1 == Tick(t, cfg, courses, records, order, world)
    decreases |order|
  {
    if order != [] {
      var init := order[..|order| - 1];
      var last := order[|order| - 1];
      TickAsWrittenAgrees(t, cfg, courses, records, init, world);
      var (t1, stopped) := TickAsWritten(t, cfg, courses, records, init, world);
      JobStepAsWrittenAgrees(t1, cfg, courses, last, records[last], world(last));
    }
  }

  // A concrete run: one partner, two pending backups of user 7, the first
  // of which produces no file.

  const Partner: Site := Site("a", "A", "0123456789abcdef0123456789abcdef", "https://a.example", 0, true, true)
  const OnePartner: Config := Config("hub", map["a" := Partner])
  const First: JobKey := JobKey("a", "u", 1)
  const Second: JobKey := JobKey("a", "u", 2)

  function TwoJobs(firstStatus: int, firstHash: string): Tables {
    Tables(map[First := Job(7, firstStatus, firstHash, 3, 10, 10), Second := Job(7, BackupPending, "", 0, 20, 20)],
           map[], [])
  }

  function Outcomes(first: JobWorld): JobKey -> JobWorld {
    k => if k == First then first else JobWorld(Produced(5, "h"), false, CurlFailed, EmptyResponse)
  }

  lemma OutcomeOfFirst(first: JobWorld)
    ensures Outcomes(first)(First) == first
    ensures Outcomes(first)(Second) == JobWorld(Produced(5, "h"), false, CurlFailed, EmptyResponse)
  {
    assert First != Second;
  }

  /** Working the second job, from a table where it is still untouched,
      makes its backup. */
  lemma SecondMadeFrom(mid: Tables, first: JobWorld)
    requires Second in mid.rows && mid.rows[Second] == TwoJobs(BackupPending, "").rows[Second]
    ensures var w := Outcomes(first)(Second);
      && Second in JobStep(mid, OnePartner, {1, 2}, Second, mid.rows[Second], w).rows
      && JobStep(mid, OnePartner, {1, 2}, Second, mid.rows[Second], w).rows[Second].status == TransferPending
  {
    OutcomeOfFirst(first);
    assert "a" in OnePartner.sites && OnePartner.sites["a"].maxUpload == 0;
  }

  /** lib.php:811: after a backup that produced no file, the second pending
      backup is not made in that run; the corrected worker makes it. */
  lemma NoDestinationStopsTick()
    ensures var t := TwoJobs(BackupPending, "");
      var world := Outcomes(JobWorld(NoDestination, false, CurlFailed, EmptyResponse));
      var (t1, stopped) := TickAsWritten(t, OnePartner, {1, 2}, t.rows, [First, Second], world);
      var fixed := Tick(t, OnePartner, {1, 2}, t.rows, [First, Second], world);
      && stopped
      && First in t1.rows && t1.rows[First].status == BackupFailed
      && Second in t1.rows && t1.rows[Second].status == BackupPending
      && First in fixed.rows && fixed.rows[First].status == BackupFailed
      && Second in fixed.rows && fixed.rows[Second].status == TransferPending
  {
    var t := TwoJobs(BackupPending, "");
    var first := JobWorld(NoDestination, false, CurlFailed, EmptyResponse);
    var world := Outcomes(first);
    OutcomeOfFirst(first);
    assert "a" in OnePartner.sites;
    assert [First, Second][..1] == [First];
    assert [First][..0] == [];
    var rec := t.rows[First];
    var step := Backup(t, OnePartner, {1, 2}, First, rec, NoDestination).0;
    assert step.rows == t.rows[First := rec.(status := BackupFailed)];
    assert TickAsWritten(t, OnePartner, {1, 2}, t.rows, [First], world) == (step, true);
    assert Tick(t, OnePartner, {1, 2}, t.rows, [First], world) == step;
    SecondMadeFrom(step, first);
  }

  /** The purge of the tick is skipped along with the rest of the run. */
  lemma NoDestinationSkipsPurge(entries: map<int, Lists.CacheEntry>, now: int)
    ensures var t := TwoJobs(BackupPending, "");
      var world := Outcomes(JobWorld(NoDestination, false, CurlFailed, EmptyResponse));
      ExecuteAsWritten(t, entries, Some(OnePartner), {1, 2}, [First, Second], world, now).1 == entries
  {
    NoDestinationStopsTick();
  }

  /** lib.php:1021: a transfer the partner confirmed whose backup file is
      already gone stays TRANSFER_COMPLETED, so that the next run selects it
      again, and the pending backup after it is not made in that run; the
      corrected worker removes the record and makes the backup. */
  lemma MissingFileStopsTick()
    ensures var t := TwoJobs(TransferCompleted, "gone");
      var world := Outcomes(JobWorld(EngineThrows, false, CurlFailed, Value(BackupAvailable)));
      var (t1, stopped) := TickAsWritten(t, OnePartner, {1, 2}, t.rows, [First, Second], world);
      var fixed := Tick(t, OnePartner, {1, 2}, t.rows, [First, Second], world);
      && stopped
      && First in t1.rows && t1.rows[First].status == TransferCompleted
      && Second in t1.rows && t1.rows[Second].status == BackupPending
      && First !in fixed.rows && Second in fixed.rows && fixed.rows[Second].status == TransferPending
  {
    var t := TwoJobs(TransferCompleted, "gone");
    var first := JobWorld(EngineThrows, false, CurlFailed, Value(BackupAvailable));
    var world := Outcomes(first);
    OutcomeOfFirst(first);
    assert "a" in OnePartner.sites;
    assert [First, Second][..1] == [First];
    assert [First][..0] == [];
    var rec := t.rows[First];
    assert "gone" !in t.files;
    assert TickAsWritten(t, OnePartner, {1, 2}, t.rows, [First], world) == (t, true);
    var step := DeleteRow(t.(files := t.files - {"gone"}), First);
    assert Tick(t, OnePartner, {1, 2}, t.rows, [First], world) == step;
    assert step.rows[Second] == t.rows[Second];
    SecondMadeFrom(step, first);
  }
}
