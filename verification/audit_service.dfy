/** The audit service: a best-effort append to the audit trail and the human-readable
    description of each action. The service offers no way to change or remove an entry. */
module AuditService {
  import opened Common
  import opened Records
  import opened Db

  /** What a handler hands to `createAuditLog`. */
  datatype AuditLogData = AuditLogData(
    userId: Id, action: AuditAction, entityType: string, entityId: Option<Id>,
    details: Option<Details>, ipAddress: Option<string>, userAgent: Option<string>)

  /** `e` is the row written for `data` at instant `now`. */
  predicate Describes(e: AuditEntry, data: AuditLogData, now: Millis)
  {
    && e.userId == data.userId && e.action == data.action && e.entityType == data.entityType
    && e.entityId == data.entityId && e.details == data.details
    && e.ipAddress == data.ipAddress && e.userAgent == data.userAgent && e.timestamp == now
  }

  /** The trail after one best-effort append: one matching row more when the write
      succeeded, the trail as it was when it failed; earlier rows are never touched. */
  predicate Appended(before: seq<AuditEntry>, after: seq<AuditEntry>, data: AuditLogData, now: Millis, ok: bool)
  {
    if ok then |after| == |before| + 1 && after[..|before|] == before && Describes(after[|before|], data, now)
    else after == before
  }

  /** `createAuditLog`: appends the row when the database accepts the write (`writeOk`);
      a failed write is swallowed, so the caller's own changes stand either way. */
  method CreateAuditLog(db: Store, data: AuditLogData, now: Millis, writeOk: bool)
    requires db.Valid()
    modifies db
    ensures db.Valid()
    ensures Appended(old(db.logs), db.logs, data, now, writeOk)
    ensures db.nextId >= old(db.nextId)
    ensures unchanged(db`users, db`items, db`consents, db`passwords, db`notes, db`files)
  {
    if writeOk {
      var e := AuditEntry(db.nextId, data.userId, data.action, data.entityType, data.entityId,
                          data.details, data.ipAddress, data.userAgent, now);
      db.logs := db.logs + [e];
      db.nextId := db.nextId + 1;
    }
  }

  /** The `descriptions` record of `getActionDescription`. */
  function DescriptionTable(a: AuditAction): string
  {
    match a
    case DataView => "Viewed personal data"
    case DataCreate => "Created personal data"
    case DataUpdate => "Updated personal data"
    case DataDelete => "Deleted personal data"
    case DataExport => "Exported personal data"
    case ConsentGrant => "Granted consent"
    case ConsentWithdraw => "Withdrew consent"
    case Login => "Logged in"
    case Logout => "Logged out"
    case ProfileUpdate => "Updated profile"
    case FileUpload => "Uploaded file"
    case FileView => "Viewed file"
    case FileDownload => "Downloaded file"
    case FileDelete => "Deleted file"
    case PasswordCreate => "Created password entry"
    case PasswordView => "Viewed password entry"
    case PasswordUpdate => "Updated password entry"
    case PasswordDelete => "Deleted password entry"
    case NoteCreate => "Created secure note"
    case NoteView => "Viewed secure note"
    case NoteUpdate => "Updated secure note"
    case NoteDelete => "Deleted secure note"
  }

  /** `getActionDescription`: the table entry, or the action's own name when the entry is
      empty. Every entry is non-empty, so the fallback never fires. */
  function ActionDescription(a: AuditAction): (d: string)
    ensures d != "" && d == DescriptionTable(a)
  {
    var d := DescriptionTable(a);
    if d != "" then d else ActionName(a)
  }

  /** Different actions are described differently. */
  lemma DescriptionsDistinct(a: AuditAction, b: AuditAction)
    requires a != b
    ensures ActionDescription(a) != ActionDescription(b)
  {
  }
}
