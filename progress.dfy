/** The status-to-display tables the browser polls against, and the decisions
    render_course_status_div takes from them (classes/output/renderer.php). */
module Progress {
  import opened Status

  /** $progresspcts */
  const ProgressPcts: map<int, int> := map[
    RequestNone := 0,
    RequestFailed := 0,
    BackupPending := 17,
    BackupInProgress := 34,
    BackupFailed := 34,
    TransferPending := 50,
    TransferInProgress := 67,
    TransferFailed := 67,
    TransferFileTooBig := 67,
    TransferCompleted := 84,
    BackupAvailable := 100]

  /** $progressactions */
  const ProgressActions: map<int, string> := map[
    RequestNone := ActionBackup,
    RequestFailed := ActionReset,
    BackupPending := ActionCancel,
    BackupInProgress := "",
    BackupFailed := ActionReset,
    TransferPending := "",
    TransferInProgress := "",
    TransferFailed := ActionReset,
    TransferFileTooBig := ActionReset,
    TransferCompleted := "",
    BackupAvailable := ActionRestore]

  /** $progressrunind */
  const ProgressRunning: map<int, bool> := map[
    RequestNone := false,
    RequestFailed := false,
    BackupPending := true,
    BackupInProgress := true,
    BackupFailed := false,
    TransferPending := true,
    TransferInProgress := true,
    TransferFailed := false,
    TransferFileTooBig := false,
    TransferCompleted := true,
    BackupAvailable := false]

  /** $progresserror */
  const ProgressError: map<int, bool> := map[
    RequestNone := false,
    RequestFailed := true,
    BackupPending := false,
    BackupInProgress := false,
    BackupFailed := true,
    TransferPending := false,
    TransferInProgress := false,
    TransferFailed := true,
    TransferFileTooBig := true,
    TransferCompleted := false,
    BackupAvailable := false]

  // A status missing from a table reads as PHP's null: 0, "", false.
  function PercentOf(s: int): int { if s in ProgressPcts then ProgressPcts[s] else 0 }
  function ActionOf(s: int): string { if s in ProgressActions then ProgressActions[s] else "" }
  predicate RunningOf(s: int) { s in ProgressRunning && ProgressRunning[s] }
  predicate ErrorOf(s: int) { s in ProgressError && ProgressError[s] }

  /** The order in which a successful request passes through the statuses. */
  const HappyPath: seq<int> :=
    [RequestNone, BackupPending, BackupInProgress, TransferPending,
     TransferInProgress, TransferCompleted, BackupAvailable]

  lemma TablesCoverEveryStatus()
    ensures forall s :: s in ProgressPcts <==> IsStatus(s)
    ensures forall s :: s in ProgressActions <==> IsStatus(s)
    ensures forall s :: s in ProgressRunning <==> IsStatus(s)
    ensures forall s :: s in ProgressError <==> IsStatus(s)
  {
  }

  lemma HappyPathRises()
    ensures forall i, j :: 0 <= i < j < |HappyPath| ==> PercentOf(HappyPath[i]) < PercentOf(HappyPath[j])
    ensures PercentOf(RequestNone) == 0 && PercentOf(BackupAvailable) == 100
  {
  }

  /** The error flag marks exactly -1, 3, 7 and 8, and those are exactly the
      statuses whose offered action is reset. */
  lemma ErrorIsReset(s: int)
    requires IsStatus(s)
    ensures ErrorOf(s) <==> s in {RequestFailed, BackupFailed, TransferFailed, TransferFileTooBig}
    ensures ErrorOf(s) <==> ActionOf(s) == ActionReset
  {
  }

  /** The running flag marks exactly 1, 2, 4, 5 and 6; no status is both
      running and in error; and the only running status with a button is
      BACKUP_PENDING, whose button cancels. */
  lemma RunningStatuses(s: int)
    requires IsStatus(s)
    ensures RunningOf(s) <==> s in {BackupPending, BackupInProgress, TransferPending, TransferInProgress, TransferCompleted}
    ensures !(RunningOf(s) && ErrorOf(s))
    ensures RunningOf(s) && ActionOf(s) != "" ==> s == BackupPending && ActionOf(s) == ActionCancel
  {
  }

  lemma ActionTable()
    ensures ActionOf(RequestNone) == ActionBackup
    ensures ActionOf(BackupPending) == ActionCancel
    ensures ActionOf(BackupAvailable) == ActionRestore
    ensures forall s :: s in {BackupInProgress, TransferPending, TransferInProgress, TransferCompleted} ==> ActionOf(s) == ""
  {
  }

  datatype BarClass = Danger | Success | Plain
  datatype Bar = Bar(percent: int, cls: BarClass)

  /** The decisions of one status cell, without its markup. */
  datatype StatusCell = StatusCell(
    running: bool,
    bar: Option<Bar>,
    clearButton: bool,
    action: Option<string>,
    filenameAttr: Option<string>)

  /** render_course_status_div, decisions only: the running class, the
      progress bar (shown only above 0%; danger on error, success when not
      running, plain otherwise), the administrator's clear button on an
      available backup, and the action button (with the file name when the
      backup is available). */
  function StatusCellFor(status: int, isSiteAdmin: bool, filename: string): (c: StatusCell)
    ensures c.running == RunningOf(status)
  {
    var percent := PercentOf(status);
    var action := ActionOf(status);
    StatusCell(
      RunningOf(status),
      if percent > 0 then
        Some(Bar(percent, if ErrorOf(status) then Danger else if !RunningOf(status) then Success else Plain))
      else None,
      status == BackupAvailable && isSiteAdmin,
      if EmptyString(action) then None else Some(action),
      if !EmptyString(action) && status == BackupAvailable then Some(filename) else None)
  }

  /** Over the eleven codes the progress bar appears for 1 to 9 only; it is
      red for the failures 3, 7 and 8, green for the finished 9, and plain
      while work is under way. REQUEST_FAILED shows no bar, only its reset
      button. */
  lemma StatusCellBar(s: int, isSiteAdmin: bool, filename: string)
    requires IsStatus(s)
    ensures var c := StatusCellFor(s, isSiteAdmin, filename);
      && (c.bar.Some? <==> 1 <= s <= 9)
      && (c.bar.Some? ==> c.bar.value.percent == PercentOf(s))
      && (c.bar.Some? && c.bar.value.cls == Danger <==> s in {BackupFailed, TransferFailed, TransferFileTooBig})
      && (c.bar.Some? && c.bar.value.cls == Success <==> s == BackupAvailable)
      && (c.bar.Some? && c.bar.value.cls == Plain <==> RunningOf(s))
      && (c.action.Some? <==> s !in {BackupInProgress, TransferPending, TransferInProgress, TransferCompleted})
      && (c.filenameAttr.Some? <==> s == BackupAvailable)
  {
  }

  /** A status outside the tables (a partner reporting an unknown code) shows
      nothing: no bar, no button, not running. */
  lemma StatusCellUnknown(s: int, isSiteAdmin: bool, filename: string)
    requires !IsStatus(s)
    ensures StatusCellFor(s, isSiteAdmin, filename) == StatusCell(false, None, false, None, None)
  {
  }
}
