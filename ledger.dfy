/** The receiving side of a transfer: the import ledger (block_mysites_import)
    that records which backup files arrived from which partner course, and
    the users' backup areas the files are moved into
    (classes/lib.php:634-647, 1045-1098). */
module Ledger {
  import opened Status

  /** One import record: the backup of course siteCourseId on partner siteId
      arrived for user userId as the file filename. */
  datatype ImportRec = ImportRec(userId: int, siteId: string, siteCourseId: int, filename: string, timeCreated: int)

  /** One entry of the web service user's draft area. */
  datatype DraftFile = DraftFile(filename: string, isDirectory: bool)

  /** The import records finish_upload writes for a draft area: one per file
      that is not a directory, in the order listed, each for the user,
      partner, course and time of the upload. */
  function NewImports(draft: seq<DraftFile>, userId: int, siteId: string, courseId: int, now: int): (r: seq<ImportRec>)
    ensures |r| <= |draft|
    ensures forall rec :: rec in r ==>
      rec.userId == userId && rec.siteId == siteId && rec.siteCourseId == courseId && rec.timeCreated == now
    ensures forall f :: ImportRec(userId, siteId, courseId, f, now) in r <==> DraftFile(f, false) in draft
    decreases |draft|
  {
    if draft == [] then []
    else
      var init := draft[..|draft| - 1];
      var last := draft[|draft| - 1];
      assert draft == init + [last];
      NewImports(init, userId, siteId, courseId, now)
      + (if last.isDirectory then [] else [ImportRec(userId, siteId, courseId, last.filename, now)])
  }

  /** The names of the files (not directories) in a draft area. */
  function DraftNames(draft: seq<DraftFile>): (names: set<string>)
    ensures forall f :: f in names <==> DraftFile(f, false) in draft
  {
    set d | d in draft && !d.isDirectory :: d.filename
  }

  /** The matching clause of clear_import's delete. */
  predicate ImportOf(rec: ImportRec, userId: int, siteId: string, courseId: int) {
    rec.userId == userId && rec.siteId == siteId && rec.siteCourseId == courseId
  }

  /** The import table, indexed by record id (None once a record has been
      deleted; ids are never reused), and the backup areas, as values. */
  datatype LedgerState = LedgerState(rows: seq<Option<ImportRec>>, areas: map<int, set<string>>)

  function AreaOf(areas: map<int, set<string>>, userId: int): set<string> {
    if userId in areas then areas[userId] else {}
  }

  /** Records as stored under fresh ids. */
  function Stored(recs: seq<ImportRec>): (r: seq<Option<ImportRec>>)
    ensures |r| == |recs| && forall i :: 0 <= i < |recs| ==> r[i] == Some(recs[i])
  {
    seq(|recs|, i requires 0 <= i < |recs| => Some(recs[i]))
  }

  lemma StoredSnoc(before: seq<ImportRec>, rec: ImportRec)
    ensures Stored(before + [rec]) == Stored(before) + [Some(rec)]
  {
  }

  /** lib::finish_upload followed by the wrapper's view of its outcome: an
      unknown user, a user without a context or an empty draft area is
      refused with nothing written; otherwise every file gets an import
      record, and only when moving the files into the user's backup area
      does not raise is BACKUP_AVAILABLE answered. */
  function FinishUploadSpec(s: LedgerState, users: map<string, int>, contexts: set<int>, siteId: string,
                            username: string, courseId: int, draft: seq<DraftFile>, now: int, mergeThrows: bool)
    : (r: (LedgerState, Reply))
    ensures r.1 in {Code(RequestFailed), Code(BackupAvailable), Raised}
    ensures |s.rows| <= |r.0.rows| && r.0.rows[..|s.rows|] == s.rows
    ensures forall u :: u in s.areas ==> u in r.0.areas && s.areas[u] <= r.0.areas[u]
  {
    if username !in users || users[username] !in contexts || draft == [] then (s, Code(RequestFailed))
    else
      var userId := users[username];
      var rows := s.rows + Stored(NewImports(draft, userId, siteId, courseId, now));
      if mergeThrows then (LedgerState(rows, s.areas), Raised)
      else (LedgerState(rows, s.areas[userId := AreaOf(s.areas, userId) + DraftNames(draft)]), Code(BackupAvailable))
  }

  lemma NewImportsSnoc(draft: seq<DraftFile>, i: nat, userId: int, siteId: string, courseId: int, now: int)
    requires i < |draft|
    ensures NewImports(draft[..i + 1], userId, siteId, courseId, now)
      == NewImports(draft[..i], userId, siteId, courseId, now)
         + (if draft[i].isDirectory then [] else [ImportRec(userId, siteId, courseId, draft[i].filename, now)])
  {
    assert draft[..i + 1][..i] == draft[..i];
  }

  /** One more file of the draft area adds its record, if it is not a
      directory, after the records stored so far. */
  lemma StoredStep(prefix: seq<Option<ImportRec>>, draft: seq<DraftFile>, i: nat, userId: int, siteId: string,
                   courseId: int, now: int)
    requires i < |draft|
    ensures prefix + Stored(NewImports(draft[..i + 1], userId, siteId, courseId, now))
      == prefix + Stored(NewImports(draft[..i], userId, siteId, courseId, now))
         + (if draft[i].isDirectory then [] else [Some(ImportRec(userId, siteId, courseId, draft[i].filename, now))])
  {
    var before := NewImports(draft[..i], userId, siteId, courseId, now);
    NewImportsSnoc(draft, i, userId, siteId, courseId, now);
    if !draft[i].isDirectory {
      StoredSnoc(before, ImportRec(userId, siteId, courseId, draft[i].filename, now));
    }
  }

  /** A successful hand-over leaves, for every file of the draft area, an
      import record for this user, partner and course, and the file in the
      user's backup area; existing records are untouched. */
  lemma FinishUploadDelivers(s: LedgerState, users: map<string, int>, contexts: set<int>, siteId: string,
                             username: string, courseId: int, draft: seq<DraftFile>, now: int)
    requires FinishUploadSpec(s, users, contexts, siteId, username, courseId, draft, now, false).1 == Code(BackupAvailable)
    ensures var (s1, _) := FinishUploadSpec(s, users, contexts, siteId, username, courseId, draft, now, false);
      var userId := users[username];
      && (forall f :: DraftFile(f, false) in draft ==>
            f in AreaOf(s1.areas, userId) && Some(ImportRec(userId, siteId, courseId, f, now)) in s1.rows)
      && s1.rows[..|s.rows|] == s.rows
  {
    var userId := users[username];
    var added := NewImports(draft, userId, siteId, courseId, now);
    var (s1, _) := FinishUploadSpec(s, users, contexts, siteId, username, courseId, draft, now, false);
    forall f | DraftFile(f, false) in draft
      ensures Some(ImportRec(userId, siteId, courseId, f, now)) in s1.rows
    {
      var rec := ImportRec(userId, siteId, courseId, f, now);
      assert rec in added;
      var j :| 0 <= j < |added| && added[j] == rec;
      assert s1.rows[|s.rows| + j] == Some(rec);
    }
  }

  /** The outcomes of the receiving side: BACKUP_AVAILABLE exactly when the
      user and its context exist, the draft area lists something and the
      move does not raise; a refusal writes nothing, and a failed move
      keeps the import records already written. */
  lemma FinishUploadOutcomes(s: LedgerState, users: map<string, int>, contexts: set<int>, siteId: string,
                             username: string, courseId: int, draft: seq<DraftFile>, now: int, mergeThrows: bool)
    ensures var (s1, reply) := FinishUploadSpec(s, users, contexts, siteId, username, courseId, draft, now, mergeThrows);
      && (reply == Code(BackupAvailable) <==> username in users && users[username] in contexts && draft != [] && !mergeThrows)
      && (reply == Code(RequestFailed) <==> username !in users || users[username] !in contexts || draft == [])
      && (reply == Code(RequestFailed) ==> s1 == s)
      && (reply == Raised ==> s1.areas == s.areas && s1.rows[..|s.rows|] == s.rows)
  {
  }

  /** The ledger with every record of (userId, siteId, courseId) removed. */
  function WithoutImports(rows: seq<Option<ImportRec>>, userId: int, siteId: string, courseId: int): (r: seq<Option<ImportRec>>)
    ensures |r| == |rows|
    ensures forall i :: 0 <= i < |rows| ==>
      r[i] == if rows[i].Some? && ImportOf(rows[i].value, userId, siteId, courseId) then None else rows[i]
  {
    seq(|rows|, i requires 0 <= i < |rows| =>
      if rows[i].Some? && ImportOf(rows[i].value, userId, siteId, courseId) then None else rows[i])
  }

  /** After clear_import no record of that user, partner and course is
      left, and every other record is kept. */
  lemma ClearImportClears(rows: seq<Option<ImportRec>>, userId: int, siteId: string, courseId: int)
    ensures var r := WithoutImports(rows, userId, siteId, courseId);
      && (forall rec :: Some(rec) in r ==> !ImportOf(rec, userId, siteId, courseId))
      && (forall rec :: Some(rec) in rows && !ImportOf(rec, userId, siteId, courseId) ==> Some(rec) in r)
  {
    var r := WithoutImports(rows, userId, siteId, courseId);
    forall rec | Some(rec) in rows && !ImportOf(rec, userId, siteId, courseId)
      ensures Some(rec) in r
    {
      var i :| 0 <= i < |rows| && rows[i] == Some(rec);
      assert r[i] == Some(rec);
    }
  }

  /** The import table and the backup areas of the receiving site. */
  class ImportLedger {
    var rows: seq<Option<ImportRec>>
    /** File names in each user's backup area, by user id. */
    var areas: map<int, set<string>>

    ghost function State(): LedgerState
      reads this
    {
      LedgerState(rows, areas)
    }

    constructor (areas0: map<int, set<string>>)
      ensures State() == LedgerState([], areas0)
    {
      rows := [];
      areas := areas0;
    }

    /** The foreach of finish_upload: one import record per file of the
        draft area that is not a directory. */
    method InsertImports(draft: seq<DraftFile>, userId: int, siteId: string, courseId: int, now: int)
      modifies this
      ensures rows == old(rows) + Stored(NewImports(draft, userId, siteId, courseId, now))
      ensures areas == old(areas)
    {
      var i := 0;
      while i < |draft|
        invariant 0 <= i <= |draft|
        invariant rows == old(rows) + Stored(NewImports(draft[..i], userId, siteId, courseId, now))
        invariant areas == old(areas)
      {
        var file := draft[i];
        StoredStep(old(rows), draft, i, userId, siteId, courseId, now);
        if !file.isDirectory {
          rows := rows + [Some(ImportRec(userId, siteId, courseId, file.filename, now))];
        }
        assert rows == old(rows) + Stored(NewImports(draft[..i + 1], userId, siteId, courseId, now));
        i := i + 1;
      }
      assert draft[..i] == draft;
    }

    /** lib::finish_upload (classes/lib.php:1045-1098): Raised stands for an
        exception out of the move into the backup area. */
    method FinishUpload(users: map<string, int>, contexts: set<int>, siteId: string, username: string,
                        courseId: int, draft: seq<DraftFile>, now: int, mergeThrows: bool) returns (reply: Reply)
      modifies this
      ensures (State(), reply) == FinishUploadSpec(old(State()), users, contexts, siteId, username, courseId, draft, now, mergeThrows)
    {
      if username !in users {
        return Code(RequestFailed);
      }
      var userId := users[username];
      if userId !in contexts {
        return Code(RequestFailed);
      }
      if draft == [] {
        return Code(RequestFailed);
      }
      InsertImports(draft, userId, siteId, courseId, now);
      if mergeThrows {
        return Raised;
      }
      areas := areas[userId := AreaOf(areas, userId) + DraftNames(draft)];
      return Code(BackupAvailable);
    }

    /** lib::clear_import (classes/lib.php:634-647). */
    method ClearImport(userId: int, siteId: string, courseId: int) returns (code: int)
      modifies this
      ensures rows == WithoutImports(old(rows), userId, siteId, courseId)
      ensures areas == old(areas)
      ensures code == RequestNone
    {
      rows := WithoutImports(rows, userId, siteId, courseId);
      return RequestNone;
    }

    /** Removing one import record by id, as the reconciliation in get_lists
        does; an id with no record changes nothing. */
    method DeleteImport(id: nat)
      modifies this
      ensures rows == (if id < |old(rows)| then old(rows)[id := None] else old(rows))
      ensures areas == old(areas)
    {
      if id < |rows| {
        rows := rows[id := None];
      }
    }
  }
}
