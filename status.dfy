/** Status codes and action names shared by the transfer queue, the webhook
    handlers and the status display (classes/lib.php:46-62). */
module Status {

  datatype Option<+T> = None | Some(value: T)

  /** What a library call hands back to its caller: a status code, or an
      exception that escaped it. */
  datatype Reply = Code(code: int) | Raised

  // The integers are part of the wire protocol between sites.
  const RequestFailed: int := -1
  const RequestNone: int := 0
  const BackupPending: int := 1
  const BackupInProgress: int := 2
  const BackupFailed: int := 3
  const TransferPending: int := 4
  const TransferInProgress: int := 5
  const TransferCompleted: int := 6
  const TransferFailed: int := 7
  const TransferFileTooBig: int := 8
  const BackupAvailable: int := 9

  const ActionBackup: string := "backup"
  const ActionCancel: string := "cancel"
  const ActionReset: string := "reset"
  const ActionRestore: string := "restore"

  /** The eleven codes, -1 to 9. */
  predicate IsStatus(s: int) {
    RequestFailed <= s <= BackupAvailable
  }

  /** PHP's empty() applied to a string: the empty string and "0". */
  predicate EmptyString(s: string) {
    s == "" || s == "0"
  }
}
