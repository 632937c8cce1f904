/** The course and backup lists a user sees for the partner sites, the
    per-user cache they are kept in (block_mysites), and the reconciliation
    of those lists with the import ledger (classes/lib.php:183-318). */
module Lists {
  import opened Status
  import opened Config
  import Ledger

  /** What the receiving side overlays on a course whose backup arrived. */
  datatype Available = Available(filename: string, timeCreated: int)

  /** One course of a partner site, as that site lists it for the user. */
  datatype Course = Course(id: int, crn: string, shortname: string, backupCap: bool, status: int,
                           available: Option<Available>)

  /** One backup file in the user's backup area on a partner site. */
  datatype BackupItem = BackupItem(filename: string, filesize: nat, pathnamehash: string, timeCreated: int)

  /** Courses of each partner site, by site id and then by course id. */
  type CourseLists = map<string, map<int, Course>>

  /** The outcome of get_lists_for_site for one partner. */
  datatype FetchResult = Fetched(courses: map<int, Course>, backups: map<string, BackupItem>) | FetchThrows

  /** What get_lists hands back when it succeeds, and what the cache keeps. */
  datatype View = View(tabLabels: map<string, string>, courseLists: CourseLists,
                       backupLists: map<string, map<string, BackupItem>>)

  datatype Listing = NotConfigured | FromCache(view: View) | FetchFailed | Fresh(view: View)

  datatype CacheEntry = CacheEntry(view: View, timeCreated: int)

  /** The seconds in a minute (MINSECS). */
  const MinuteSeconds: int := 60

  /** The cache with every entry created before cutoff removed. */
  function WithoutStale(entries: map<int, CacheEntry>, cutoff: int): (r: map<int, CacheEntry>)
    ensures forall u :: u in r <==> u in entries && entries[u].timeCreated >= cutoff
    ensures forall u :: u in r ==> r[u] == entries[u]
  {
    map u | u in entries && entries[u].timeCreated >= cutoff :: entries[u]
  }

  /** block_mysites: one cached View per user id. */
  class ListCache {
    var entries: map<int, CacheEntry>

    constructor ()
      ensures entries == map[]
    {
      entries := map[];
    }

    /** clear_user_cache (classes/lib.php:183-194). */
    method ClearUserCache(userId: int)
      modifies this
      ensures entries == old(entries) - {userId}
    {
      entries := entries - {userId};
    }

    /** clear_stale_caches (classes/lib.php:202-215): entries created more
        than minutesOld minutes before now are dropped. */
    method ClearStale(now: int, minutesOld: int)
      modifies this
      ensures entries == WithoutStale(old(entries), now - minutesOld * MinuteSeconds)
    {
      entries := WithoutStale(entries, now - minutesOld * MinuteSeconds);
    }
  }

  /** The record at id i belongs to the user. */
  predicate UserRec(rows: seq<Option<Ledger.ImportRec>>, i: int, userId: int) {
    0 <= i < |rows| && rows[i].Some? && rows[i].value.userId == userId
  }

  /** The course the record was imported from is in the lists. */
  predicate Listed(lists: CourseLists, rec: Ledger.ImportRec) {
    rec.siteId in lists && rec.siteCourseId in lists[rec.siteId]
  }

  function CourseOf(lists: CourseLists, rec: Ledger.ImportRec): Course
    requires Listed(lists, rec)
  {
    lists[rec.siteId][rec.siteCourseId]
  }

  /** The course entry shown as BACKUP_AVAILABLE with the imported file. */
  function Overlay(c: Course, rec: Ledger.ImportRec): Course {
    c.(status := BackupAvailable, available := Some(Available(rec.filename, rec.timeCreated)))
  }

  /** The body of the foreach over the user's import records, for id i: a
      record whose course is not listed is deleted; a listed course with a
      status of its own is left alone; a record whose file has left the
      user's backup area is deleted; otherwise the course is shown as
      available with the imported file. */
  function ReconcileOne(lists: CourseLists, rows: seq<Option<Ledger.ImportRec>>, area: set<string>,
                        userId: int, i: nat): (res: (CourseLists, seq<Option<Ledger.ImportRec>>))
    requires i < |rows|
    ensures |res.1| == |rows|
  {
    if !UserRec(rows, i, userId) then (lists, rows)
    else
      var rec := rows[i].value;
      if !Listed(lists, rec) then (lists, rows[i := None])
      else if CourseOf(lists, rec).status != RequestNone then (lists, rows)
      else if rec.filename !in area then (lists, rows[i := None])
      else (lists[rec.siteId := lists[rec.siteId][rec.siteCourseId := Overlay(CourseOf(lists, rec), rec)]], rows)
  }

  /** The foreach over the import records with ids below n, in id order. */
  function Reconcile(lists: CourseLists, rows: seq<Option<Ledger.ImportRec>>, area: set<string>,
                     userId: int, n: nat): (res: (CourseLists, seq<Option<Ledger.ImportRec>>))
    requires n <= |rows|
    ensures |res.1| == |rows|
    decreases n
  {
    if n == 0 then (lists, rows)
    else
      var (l, r) := Reconcile(lists, rows, area, userId, n - 1);
      ReconcileOne(l, r, area, userId, n - 1)
  }

  /** The lists keep their sites and their courses, and a course entry
      changes only from status 0 to its overlay. */
  predicate OnlyOverlays(l0: CourseLists, l: CourseLists) {
    && l.Keys == l0.Keys
    && (forall s :: s in l0 ==> l[s].Keys == l0[s].Keys)
    && (forall s, c :: s in l0 && c in l0[s] ==>
          l[s][c] == l0[s][c] || (l0[s][c].status == RequestNone && l[s][c].status == BackupAvailable))
  }

  /** Records are only ever deleted, and records past n are untouched. */
  predicate OnlyDeletes(rows0: seq<Option<Ledger.ImportRec>>, r: seq<Option<Ledger.ImportRec>>, n: nat) {
    && |r| == |rows0|
    && (forall i :: 0 <= i < |r| ==> r[i] == rows0[i] || r[i] == None)
    && (forall i :: n <= i < |r| ==> r[i] == rows0[i])
  }

  lemma {:induction false} ReconcileShape(lists: CourseLists, rows: seq<Option<Ledger.ImportRec>>, area: set<string>,
                                          userId: int, n: nat)
    requires n <= |rows|
    ensures var (l, r) := Reconcile(lists, rows, area, userId, n);
      OnlyOverlays(lists, l) && OnlyDeletes(rows, r, n)
    decreases n
  {
    if n > 0 {
      ReconcileShape(lists, rows, area, userId, n - 1);
    }
  }

  /** A record is deleted only if it is the user's and its course is no
      longer listed or its file has left the backup area; the records of
      other users are never touched. */
  lemma {:induction false} ReconcileDeletesOnlyStale(lists: CourseLists, rows: seq<Option<Ledger.ImportRec>>,
                                                     area: set<string>, userId: int, n: nat)
    requires n <= |rows|
    ensures var (l, r) := Reconcile(lists, rows, area, userId, n);
      forall i :: 0 <= i < |rows| && r[i] != rows[i] ==>
        UserRec(rows, i, userId) && (!Listed(lists, rows[i].value) || rows[i].value.filename !in area)
    decreases n
  {
    if n > 0 {
      ReconcileDeletesOnlyStale(lists, rows, area, userId, n - 1);
      ReconcileShape(lists, rows, area, userId, n - 1);
    }
  }

  /** Every record of the user whose course is no longer listed is
      deleted. */
  lemma {:induction false} ReconcileDropsUnlisted(lists: CourseLists, rows: seq<Option<Ledger.ImportRec>>,
                                                  area: set<string>, userId: int, n: nat)
    requires n <= |rows|
    ensures var (l, r) := Reconcile(lists, rows, area, userId, n);
      forall i :: 0 <= i < n && UserRec(rows, i, userId) && !Listed(lists, rows[i].value) ==> r[i] == None
    decreases n
  {
    if n > 0 {
      ReconcileDropsUnlisted(lists, rows, area, userId, n - 1);
      ReconcileShape(lists, rows, area, userId, n - 1);
    }
  }

  /** No record of the user before id i, for the partner course of rec,
      has its file in the backup area: none of them can have shown that
      course as available. */
  predicate NoEarlierCopy(rows: seq<Option<Ledger.ImportRec>>, area: set<string>, userId: int, i: nat,
                          rec: Ledger.ImportRec)
    requires i <= |rows|
  {
    forall j ::
      (0 <= j < i && UserRec(rows, j, userId) && rows[j].value.siteId == rec.siteId
       && rows[j].value.siteCourseId == rec.siteCourseId) ==> rows[j].value.filename !in area
  }

  /** A course entry keeps what the partner reported while no record of
      the user for it with its file in the backup area has been reached. */
  lemma {:induction false} ReconcileCourseUntouched(lists: CourseLists, rows: seq<Option<Ledger.ImportRec>>,
                                                    area: set<string>, userId: int, n: nat, rec: Ledger.ImportRec)
    requires n <= |rows| && Listed(lists, rec) && NoEarlierCopy(rows, area, userId, n, rec)
    ensures var (l, r) := Reconcile(lists, rows, area, userId, n);
      Listed(l, rec) && CourseOf(l, rec) == CourseOf(lists, rec)
    decreases n
  {
    if n > 0 {
      assert NoEarlierCopy(rows, area, userId, n - 1, rec);
      ReconcileCourseUntouched(lists, rows, area, userId, n - 1, rec);
      ReconcileShape(lists, rows, area, userId, n - 1);
    }
  }

  /** A record of the user whose course is listed with no status of its own
      but whose file has left the backup area is deleted, so that the
      backup can be requested again, unless an earlier record of the user
      for the same course has already shown it as available. */
  lemma {:induction false} ReconcileDropsMissingFile(lists: CourseLists, rows: seq<Option<Ledger.ImportRec>>,
                                                     area: set<string>, userId: int, n: nat, i: nat)
    requires i < n <= |rows|
    requires UserRec(rows, i, userId) && Listed(lists, rows[i].value)
    requires CourseOf(lists, rows[i].value).status == RequestNone && rows[i].value.filename !in area
    requires NoEarlierCopy(rows, area, userId, i, rows[i].value)
    ensures Reconcile(lists, rows, area, userId, n).1[i] == None
    decreases n
  {
    if n == i + 1 {
      ReconcileCourseUntouched(lists, rows, area, userId, i, rows[i].value);
      ReconcileShape(lists, rows, area, userId, i);
    } else {
      ReconcileDropsMissingFile(lists, rows, area, userId, n - 1, i);
    }
  }

  /** A record of the user whose course is listed and whose file is still in
      the backup area is kept, and its course, if the partner reported no
      status for it, is shown as BACKUP_AVAILABLE. */
  lemma {:induction false} ReconcileShowsAvailable(lists: CourseLists, rows: seq<Option<Ledger.ImportRec>>,
                                                   area: set<string>, userId: int, n: nat)
    requires n <= |rows|
    ensures var (l, r) := Reconcile(lists, rows, area, userId, n);
      forall i :: 0 <= i < n && UserRec(rows, i, userId) && Listed(lists, rows[i].value)
                  && rows[i].value.filename in area ==>
        && r[i] == rows[i]
        && (CourseOf(lists, rows[i].value).status == RequestNone ==>
              Listed(l, rows[i].value) && CourseOf(l, rows[i].value).status == BackupAvailable)
    decreases n
  {
    if n > 0 {
      ReconcileShowsAvailable(lists, rows, area, userId, n - 1);
      ReconcileShape(lists, rows, area, userId, n - 1);
      ReconcileShape(lists, rows, area, userId, n);
    }
  }

  /** A course the partner reports with a status of its own keeps it, and
      so does every record of the user for it. */
  lemma {:induction false} ReconcileKeepsReported(lists: CourseLists, rows: seq<Option<Ledger.ImportRec>>,
                                                  area: set<string>, userId: int, n: nat)
    requires n <= |rows|
    ensures var (l, r) := Reconcile(lists, rows, area, userId, n);
      && (forall s, c :: s in lists && c in lists[s] && lists[s][c].status != RequestNone ==>
            s in l && c in l[s] && l[s][c] == lists[s][c])
      && (forall i ::
            (0 <= i < |rows| && UserRec(rows, i, userId) && Listed(lists, rows[i].value)
             && CourseOf(lists, rows[i].value).status != RequestNone) ==> r[i] == rows[i])
    decreases n
  {
    ReconcileShape(lists, rows, area, userId, n);
    if n > 0 {
      ReconcileKeepsReported(lists, rows, area, userId, n - 1);
      ReconcileShape(lists, rows, area, userId, n - 1);
    }
  }

  function CoursesOf(f: FetchResult): map<int, Course> {
    if f.Fetched? then f.courses else map[]
  }

  function BackupsOf(f: FetchResult): map<string, BackupItem> {
    if f.Fetched? then f.backups else map[]
  }

  /** The tab labels, course lists and backup lists of the sites in ids. */
  function LabelsOn(sites: map<string, Site>, ids: set<string>): map<string, string>
    requires ids <= sites.Keys
  {
    map id | id in ids :: sites[id].tabLabel
  }

  function CoursesOn(fetch: string -> FetchResult, ids: set<string>): CourseLists {
    map id | id in ids :: CoursesOf(fetch(id))
  }

  function BackupsOn(fetch: string -> FetchResult, ids: set<string>): map<string, map<string, BackupItem>> {
    map id | id in ids :: BackupsOf(fetch(id))
  }

  /** The lists of every configured site, every fetch having succeeded. */
  function Collected(sites: map<string, Site>, fetch: string -> FetchResult): (v: View)
    ensures v.tabLabels.Keys == sites.Keys && v.courseLists.Keys == sites.Keys && v.backupLists.Keys == sites.Keys
  {
    View(LabelsOn(sites, sites.Keys), CoursesOn(fetch, sites.Keys), BackupsOn(fetch, sites.Keys))
  }

  /** The configured sites whose fetch throws. */
  function Throwing(sites: map<string, Site>, fetch: string -> FetchResult): set<string> {
    set id | id in sites && fetch(id).FetchThrows?
  }

  predicate AnyFetchThrows(sites: map<string, Site>, fetch: string -> FetchResult) {
    Throwing(sites, fetch) != {}
  }

  /** get_lists as a function of the cache, the import ledger and the
      partners' answers (fetch stands for get_lists_for_site with the
      user's name). */
  function GetListsSpec(entries: map<int, CacheEntry>, rows: seq<Option<Ledger.ImportRec>>, area: set<string>,
                        cfg: Option<Config>, userId: int, refresh: bool, fetch: string -> FetchResult, now: int)
    : (r: (map<int, CacheEntry>, seq<Option<Ledger.ImportRec>>, Listing))
    ensures |r.1| == |rows|
    ensures r.0.Keys == if r.2.Fresh? then entries.Keys + {userId} else entries.Keys
  {
    if !Configured(cfg) then (entries, rows, NotConfigured)
    else if userId in entries && !refresh then (entries, rows, FromCache(entries[userId].view))
    else if AnyFetchThrows(cfg.value.sites, fetch) then (entries, rows, FetchFailed)
    else
      var v := Collected(cfg.value.sites, fetch);
      var (lists, rows1) := Reconcile(v.courseLists, rows, area, userId, |rows|);
      var view := v.(courseLists := lists);
      (entries[userId := CacheEntry(view, now)], rows1, Fresh(view))
  }

  /** The outcomes of get_lists: nothing is written unless fresh lists were
      built; fresh lists have one tab, one course list and one backup list
      per configured site, are cached under the user with the current
      time, and the ledger keeps every record except stale ones of this
      user. */
  lemma GetListsOutcomes(entries: map<int, CacheEntry>, rows: seq<Option<Ledger.ImportRec>>, area: set<string>,
                         cfg: Option<Config>, userId: int, refresh: bool, fetch: string -> FetchResult, now: int)
    ensures var (e1, r1, listing) := GetListsSpec(entries, rows, area, cfg, userId, refresh, fetch, now);
      && (listing == NotConfigured <==> !Configured(cfg))
      && (listing.FromCache? <==> Configured(cfg) && userId in entries && !refresh)
      && (listing == FetchFailed <==>
            Configured(cfg) && (userId !in entries || refresh) && AnyFetchThrows(cfg.value.sites, fetch))
      && (!listing.Fresh? ==> e1 == entries && r1 == rows)
      && (listing.Fresh? ==>
            && listing.view.courseLists.Keys == cfg.value.sites.Keys
            && listing.view.tabLabels.Keys == cfg.value.sites.Keys
            && e1 == entries[userId := CacheEntry(listing.view, now)]
            && |r1| == |rows|
            && (forall i :: 0 <= i < |rows| && r1[i] != rows[i] ==>
                  && r1[i] == None && UserRec(rows, i, userId)
                  && (!Listed(Collected(cfg.value.sites, fetch).courseLists, rows[i].value)
                      || rows[i].value.filename !in area)))
  {
    if Configured(cfg) && (userId !in entries || refresh) && !AnyFetchThrows(cfg.value.sites, fetch) {
      var v := Collected(cfg.value.sites, fetch);
      ReconcileShape(v.courseLists, rows, area, userId, |rows|);
      ReconcileDeletesOnlyStale(v.courseLists, rows, area, userId, |rows|);
    }
  }

  /** Fetching one more site extends the lists by that site's entries. */
  lemma CollectOneMore(sites: map<string, Site>, fetch: string -> FetchResult, ids: set<string>, id: string)
    requires ids <= sites.Keys && id in sites
    ensures LabelsOn(sites, ids + {id}) == LabelsOn(sites, ids)[id := sites[id].tabLabel]
    ensures CoursesOn(fetch, ids + {id}) == CoursesOn(fetch, ids)[id := CoursesOf(fetch(id))]
    ensures BackupsOn(fetch, ids + {id}) == BackupsOn(fetch, ids)[id := BackupsOf(fetch(id))]
  {
  }

  /** The site loop of get_lists: every configured site is asked for its
      lists, and the first one that throws ends the call. */
  method FetchAll(sites: map<string, Site>, fetch: string -> FetchResult) returns (v: Option<View>)
    ensures v.None? <==> AnyFetchThrows(sites, fetch)
    ensures v.Some? ==> v.value == Collected(sites, fetch)
  {
    var labels: map<string, string> := map[];
    var courses: CourseLists := map[];
    var backups: map<string, map<string, BackupItem>> := map[];
    var pending := sites.Keys;
    while pending != {}
      invariant pending <= sites.Keys
      invariant Throwing(sites, fetch) <= pending
      invariant labels == LabelsOn(sites, sites.Keys - pending)
      invariant courses == CoursesOn(fetch, sites.Keys - pending)
      invariant backups == BackupsOn(fetch, sites.Keys - pending)
      decreases |pending|
    {
      var id :| id in pending;
      var f := fetch(id);
      if f.FetchThrows? {
        assert id in Throwing(sites, fetch);
        return None;
      }
      CollectOneMore(sites, fetch, sites.Keys - pending, id);
      labels := labels[id := sites[id].tabLabel];
      courses := courses[id := f.courses];
      backups := backups[id := f.backups];
      assert sites.Keys - (pending - {id}) == sites.Keys - pending + {id};
      pending := pending - {id};
    }
    assert sites.Keys - pending == sites.Keys;
    v := Some(View(labels, courses, backups));
  }

  /** The foreach over the user's import records (classes/lib.php:256-298),
      in id order: stale records are deleted from the ledger and the
      courses of the others are overlaid in the lists returned. */
  method ReconcileImports(ledger: Ledger.ImportLedger, lists0: CourseLists, area: set<string>, userId: int)
    returns (lists: CourseLists)
    modifies ledger
    ensures (lists, ledger.rows) == Reconcile(lists0, old(ledger.rows), area, userId, |old(ledger.rows)|)
    ensures ledger.areas == old(ledger.areas)
  {
    lists := lists0;
    ghost var rows0 := ledger.rows;
    var i := 0;
    while i < |ledger.rows|
      invariant 0 <= i <= |ledger.rows| == |rows0|
      invariant (lists, ledger.rows) == Reconcile(lists0, rows0, area, userId, i)
      invariant ledger.areas == old(ledger.areas)
    {
      if UserRec(ledger.rows, i, userId) {
        var rec := ledger.rows[i].value;
        if !Listed(lists, rec) {
          ledger.DeleteImport(i);
        } else if lists[rec.siteId][rec.siteCourseId].status != RequestNone {
        } else if rec.filename !in area {
          ledger.DeleteImport(i);
        } else {
          var course := lists[rec.siteId][rec.siteCourseId];
          lists := lists[rec.siteId := lists[rec.siteId][rec.siteCourseId := Overlay(course, rec)]];
        }
      }
      i := i + 1;
    }
  }

  /** get_lists (classes/lib.php:225-318) for the user with id userId. */
  method GetLists(cache: ListCache, ledger: Ledger.ImportLedger, cfg: Option<Config>, userId: int, refresh: bool,
                  fetch: string -> FetchResult, now: int) returns (listing: Listing)
    modifies cache, ledger
    ensures (cache.entries, ledger.rows, listing)
      == GetListsSpec(old(cache.entries), old(ledger.rows), Ledger.AreaOf(ledger.areas, userId), cfg, userId,
                      refresh, fetch, now)
    ensures ledger.areas == old(ledger.areas)
  {
    if !Configured(cfg) {
      return NotConfigured;
    }
    if userId in cache.entries && !refresh {
      return FromCache(cache.entries[userId].view);
    }
    var fetched := FetchAll(cfg.value.sites, fetch);
    if fetched.None? {
      return FetchFailed;
    }
    var view := fetched.value;
    var lists := ReconcileImports(ledger, view.courseLists, Ledger.AreaOf(ledger.areas, userId), userId);
    view := view.(courseLists := lists);
    cache.entries := cache.entries[userId := CacheEntry(view, now)];
    return Fresh(view);
  }
}
