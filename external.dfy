/** The web-service entry points (classes/external.php): the partner-facing
    request_action, finish_upload and get_lists_for_username, and the
    browser-facing send_request_action. Each is a gate, a dispatch and a
    mapping of failures to a status code around the library routines. */
module External {
  import opened Status
  import opened Config
  import opened Queue
  import JobQueue
  import Ledger
  import Lists
  import Progress

  /** request_action as a function of the queue tables: the calling site
      must be configured and allowed to send requests; the action picks the
      routine; storeThrows stands for an exception out of the database
      before anything is written, which is turned into REQUEST_FAILED.
      None is the null a reset of a status outside its switch answers. */
  function RequestActionSpec(t: Tables, host: Host, cfg: Option<Config>, action: string, siteId: string,
                             username: string, courseId: int, now: int, storeRefuses: bool, storeThrows: bool)
    : (r: (Tables, Option<int>))
    ensures r.0.files == t.files
    ensures r.0.rows.Keys <= t.rows.Keys + {JobKey(siteId, username, courseId)}
    ensures forall k :: k in t.rows && k != JobKey(siteId, username, courseId) ==> k in r.0.rows && r.0.rows[k] == t.rows[k]
  {
    var site := LookupSite(cfg, siteId);
    if site.None? || !site.value.canTakeReq then (t, Some(RequestFailed))
    else if action !in {ActionBackup, ActionCancel, ActionReset} then (t, Some(RequestFailed))
    else if storeThrows then (t, Some(RequestFailed))
    else
      var k := JobKey(siteId, username, courseId);
      if action == ActionBackup then
        var (t1, code) := Insert(t, host, cfg.value, k, now, storeRefuses);
        (t1, Some(code))
      else if action == ActionCancel then
        var (t1, code) := Cancel(t, k);
        (t1, Some(code))
      else Reset(t, k)
  }

  /** The gate and the switch: a site that is not configured or may not
      make requests, an unknown action and a failing database all answer
      REQUEST_FAILED with the queue untouched. Every answer is one of the
      eleven codes as long as the record asked about holds a status the
      switches list, and a queue with no record in an in-progress status
      keeps none. */
  lemma RequestActionOutcomes(t: Tables, host: Host, cfg: Option<Config>, action: string, siteId: string,
                              username: string, courseId: int, now: int, storeRefuses: bool, storeThrows: bool)
    ensures var (t1, answer) := RequestActionSpec(t, host, cfg, action, siteId, username, courseId, now,
                                                  storeRefuses, storeThrows);
      var k := JobKey(siteId, username, courseId);
      && ((LookupSite(cfg, siteId).None? || !LookupSite(cfg, siteId).value.canTakeReq) ==>
            t1 == t && answer == Some(RequestFailed))
      && (action !in {ActionBackup, ActionCancel, ActionReset} ==> t1 == t && answer == Some(RequestFailed))
      && (storeThrows ==> t1 == t && answer == Some(RequestFailed))
      && ((k in t.rows ==> BackupPending <= t.rows[k].status <= TransferFileTooBig) ==>
            answer.Some? && IsStatus(answer.value))
      && (AllResting(t.rows) ==> AllResting(t1.rows))
  {
    var k := JobKey(siteId, username, courseId);
    var site := LookupSite(cfg, siteId);
    if site.Some? && site.value.canTakeReq && action in {ActionBackup, ActionCancel, ActionReset} && !storeThrows {
      if action == ActionReset {
        ResetOutcomes(t, k);
      }
    }
  }

  /** request_action (classes/external.php:206-237) on the queue object. */
  method RequestAction(queue: JobQueue.TransferQueue, host: Host, cfg: Option<Config>, action: string, siteId: string,
                       username: string, courseId: int, now: int, storeRefuses: bool, storeThrows: bool)
    returns (response: Option<int>)
    modifies queue
    ensures (queue.State(), response)
      == RequestActionSpec(old(queue.State()), host, cfg, action, siteId, username, courseId, now, storeRefuses, storeThrows)
    ensures old(queue.Valid()) ==> queue.Valid()
  {
    var site := LookupSite(cfg, siteId);
    if site.None? || !site.value.canTakeReq {
      return Some(RequestFailed);
    }
    var k := JobKey(siteId, username, courseId);
    if action == ActionBackup {
      if storeThrows {
        return Some(RequestFailed);
      }
      var code := queue.InsertBackupRequest(host, cfg.value, k, now, storeRefuses);
      response := Some(code);
    } else if action == ActionCancel {
      if storeThrows {
        return Some(RequestFailed);
      }
      var code := queue.CancelBackupRequest(k);
      response := Some(code);
    } else if action == ActionReset {
      if storeThrows {
        return Some(RequestFailed);
      }
      response := queue.ResetBackupRequest(k);
    } else {
      response := Some(RequestFailed);
    }
  }

  /** The code the finish_upload wrapper answers for the library's reply:
      an exception becomes REQUEST_FAILED. */
  function WrapperCode(reply: Reply): (code: int)
    ensures reply.Raised? ==> code == RequestFailed
    ensures reply.Code? ==> code == reply.code
  {
    match reply
    case Code(c) => c
    case Raised => RequestFailed
  }

  /** The receiving side answers the sender with BACKUP_AVAILABLE exactly
      when the user exists, has a context, the draft area lists something
      and moving the files did not raise, and with REQUEST_FAILED
      otherwise; nothing escapes as an exception. */
  lemma FinishUploadAnswers(s: Ledger.LedgerState, users: map<string, int>, contexts: set<int>, siteId: string,
                            username: string, courseId: int, draft: seq<Ledger.DraftFile>, now: int, mergeThrows: bool)
    ensures var (_, reply) := Ledger.FinishUploadSpec(s, users, contexts, siteId, username, courseId, draft, now, mergeThrows);
      var code := WrapperCode(reply);
      && (code == RequestFailed || code == BackupAvailable)
      && (code == BackupAvailable <==> username in users && users[username] in contexts && draft != [] && !mergeThrows)
  {
    Ledger.FinishUploadOutcomes(s, users, contexts, siteId, username, courseId, draft, now, mergeThrows);
  }

  /** finish_upload (classes/external.php:279-292). */
  method FinishUpload(ledger: Ledger.ImportLedger, users: map<string, int>, contexts: set<int>, siteId: string,
                      username: string, courseId: int, draft: seq<Ledger.DraftFile>, now: int, mergeThrows: bool)
    returns (code: int)
    modifies ledger
    ensures var (s1, reply) := Ledger.FinishUploadSpec(old(ledger.State()), users, contexts, siteId, username,
                                                       courseId, draft, now, mergeThrows);
      ledger.State() == s1 && code == WrapperCode(reply)
  {
    var reply := ledger.FinishUpload(users, contexts, siteId, username, courseId, draft, now, mergeThrows);
    code := WrapperCode(reply);
  }

  /** One course the user is enrolled in, as the enrolment API lists it. */
  datatype Enrolment = Enrolment(id: int, idnumber: string, shortname: string)

  /** One file in the user's backup area, as the file API lists it. */
  datatype StoredFile = StoredFile(filename: string, filesize: nat, timeCreated: int, pathnamehash: string,
                                   contenthash: string)

  /** The status shown for a course: 0 when the user has no queue record for
      it, otherwise the highest status among the user's records for it. */
  ghost predicate ShownStatus(rows: map<JobKey, Job>, userId: int, courseId: int, s: int) {
    if forall k :: k in rows && k.courseId == courseId ==> rows[k].userId != userId then s == RequestNone
    else
      && (exists k :: k in rows && k.courseId == courseId && rows[k].userId == userId && rows[k].status == s)
      && (forall k :: k in rows && k.courseId == courseId && rows[k].userId == userId ==> rows[k].status <= s)
  }

  /** The shown status is well defined. */
  lemma ShownStatusUnique(rows: map<JobKey, Job>, userId: int, courseId: int, s1: int, s2: int)
    requires ShownStatus(rows, userId, courseId, s1) && ShownStatus(rows, userId, courseId, s2)
    ensures s1 == s2
  {
    if !forall k :: k in rows && k.courseId == courseId ==> rows[k].userId != userId {
      var k1 :| k1 in rows && k1.courseId == courseId && rows[k1].userId == userId && rows[k1].status == s1;
      var k2 :| k2 in rows && k2.courseId == courseId && rows[k2].userId == userId && rows[k2].status == s2;
      assert rows[k1].status <= s2 && rows[k2].status <= s1;
    }
  }

  /** The backup files listed: every file but the ones named ".", in the
      order given. */
  function BackupEntries(files: seq<StoredFile>): (r: seq<StoredFile>)
    ensures |r| <= |files|
    ensures forall f :: f in r <==> f in files && f.filename != "."
    decreases |files|
  {
    if files == [] then []
    else
      var init := files[..|files| - 1];
      var last := files[|files| - 1];
      assert files == init + [last];
      BackupEntries(init) + (if last.filename == "." then [] else [last])
  }

  /** get_lists_for_username (classes/external.php:108-164) on this site, for
      the partner that asks: enrolled and files are what the enrolment and
      file APIs list for the user, in their order. */
  method GetListsForUsername(queue: JobQueue.TransferQueue, host: Host, username: string,
                             enrolled: seq<Enrolment>, files: seq<StoredFile>)
    returns (courses: seq<Lists.Course>, backups: seq<StoredFile>)
    ensures EmptyString(username) || username !in host.users ==> courses == [] && backups == []
    ensures !EmptyString(username) && username in host.users ==>
      var userId := host.users[username];
      && |courses| == |enrolled|
      && (forall i :: 0 <= i < |enrolled| ==>
            && courses[i].id == enrolled[i].id && courses[i].crn == enrolled[i].idnumber
            && courses[i].shortname == enrolled[i].shortname
            && courses[i].backupCap == ((userId, enrolled[i].id) in host.assignedCap)
            && courses[i].available.None?
            && ShownStatus(queue.rows, userId, enrolled[i].id, courses[i].status))
      && backups == BackupEntries(files)
  {
    courses := [];
    backups := [];
    if EmptyString(username) || username !in host.users {
      return;
    }
    var userId := host.users[username];
    var statuses := queue.StatusByCourse(userId);
    for i := 0 to |enrolled|
      invariant |courses| == i
      invariant forall j :: 0 <= j < i ==>
        && courses[j].id == enrolled[j].id && courses[j].crn == enrolled[j].idnumber
        && courses[j].shortname == enrolled[j].shortname
        && courses[j].backupCap == ((userId, enrolled[j].id) in host.assignedCap)
        && courses[j].available.None?
        && ShownStatus(queue.rows, userId, enrolled[j].id, courses[j].status)
    {
      var c := enrolled[i];
      var status := if c.id in statuses then statuses[c.id] else RequestNone;
      courses := courses + [Lists.Course(c.id, c.idnumber, c.shortname, (userId, c.id) in host.assignedCap, status, None)];
    }
    for i := 0 to |files|
      invariant backups == BackupEntries(files[..i])
    {
      assert files[..i + 1][..i] == files[..i];
      if files[i].filename != "." {
        backups := backups + [files[i]];
      }
    }
    assert files[..|files|] == files;
  }

  /** A course listed with backupcap set, from a site configured for the
      partner, is accepted when the partner requests its backup and no
      request for it is queued. The converse does not hold: a site
      administrator without a role in the course is listed without
      backupcap, yet the request is accepted. */
  lemma ListedCapAdmitsRequest(t: Tables, host: Host, cfg: Config, k: JobKey, now: int)
    requires CapsAgree(host)
    requires k.username in host.users && k.courseId in host.courses && k.siteId in cfg.sites && k !in t.rows
    ensures (host.users[k.username], k.courseId) in host.assignedCap ==> Insert(t, host, cfg, k, now, false).1 == BackupPending
  {
  }

  /** What send_request_action hands back to the browser. */
  datatype SendAnswer =
    | Refused                                // the bare REQUEST_FAILED
    | ErrorNotice                            // an error notification
    | StatusDiv(cell: Progress.StatusCell)   // the re-rendered status cell

  /** The target site is configured and this site may send it requests. */
  predicate Sendable(cfg: Option<Config>, siteId: string) {
    LookupSite(cfg, siteId).Some? && LookupSite(cfg, siteId).value.canSendReq
  }

  /** lib::send_request_action's reading of the partner's answer; CallThrows
      is not classified here because it escapes to the caller. */
  function RemoteStatus(reply: RpcReply): (s: int)
    requires !reply.CallThrows?
    ensures s == RequestFailed <==> !reply.Value? || reply.n == RequestFailed
    ensures reply.Value? ==> s == reply.n
  {
    match reply
    case Value(n) => n
    case _ => RequestFailed
  }

  /** send_request_action (classes/external.php:466-506, with
      classes/lib.php:431-475): the target site must be configured and
      accept requests from here, the block instance must exist; "clear"
      removes the user's import records for the course, any other action is
      sent to the partner; the user's cached lists are then dropped and the
      status cell for the answer is rendered. An exception out of the call
      to the partner becomes an error notice and leaves the cache alone. */
  method SendRequestAction(cache: Lists.ListCache, ledger: Ledger.ImportLedger, cfg: Option<Config>,
                           blockExists: bool, action: string, userId: int, siteId: string, courseId: int,
                           isSiteAdmin: bool, rpc: RpcReply)
    returns (answer: SendAnswer)
    modifies cache, ledger
    ensures !Sendable(cfg, siteId) ==>
      answer == Refused && cache.entries == old(cache.entries) && ledger.rows == old(ledger.rows)
    ensures Sendable(cfg, siteId) && (!blockExists || (action != "clear" && rpc.CallThrows?)) ==>
      answer == ErrorNotice && cache.entries == old(cache.entries) && ledger.rows == old(ledger.rows)
    ensures Sendable(cfg, siteId) && blockExists && action == "clear" ==>
      && answer == StatusDiv(Progress.StatusCellFor(RequestNone, isSiteAdmin, ""))
      && cache.entries == old(cache.entries) - {userId}
      && ledger.rows == Ledger.WithoutImports(old(ledger.rows), userId, siteId, courseId)
    ensures Sendable(cfg, siteId) && blockExists && action != "clear" && !rpc.CallThrows? ==>
      && answer == StatusDiv(Progress.StatusCellFor(RemoteStatus(rpc), isSiteAdmin, ""))
      && cache.entries == old(cache.entries) - {userId}
      && ledger.rows == old(ledger.rows)
    ensures ledger.areas == old(ledger.areas)
  {
    if !Sendable(cfg, siteId) {
      return Refused;
    }
    if !blockExists {
      return ErrorNotice;
    }
    var status;
    if action == "clear" {
      status := ledger.ClearImport(userId, siteId, courseId);
    } else {
      if rpc.CallThrows? {
        return ErrorNotice;
      }
      status := RemoteStatus(rpc);
    }
    cache.ClearUserCache(userId);
    return StatusDiv(Progress.StatusCellFor(status, isSiteAdmin, ""));
  }
}
