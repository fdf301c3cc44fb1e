/** The records of the backend's database, as the route handlers read and write them, and
    the enumerations their columns range over. */
module Records {
  import opened Common

  datatype DataCategory = Identity | Contact | Financial | Usage | Activity | Sensitive

  /** Position of a category in the enumeration: the order an `orderBy: { category: 'asc' }`
      sorts by. */
  function CategoryRank(c: DataCategory): (r: int)
    ensures 0 <= r < 6
  {
    match c
    case Identity => 0
    case Contact => 1
    case Financial => 2
    case Usage => 3
    case Activity => 4
    case Sensitive => 5
  }

  function CategoryName(c: DataCategory): string
  {
    match c
    case Identity => "IDENTITY"
    case Contact => "CONTACT"
    case Financial => "FINANCIAL"
    case Usage => "USAGE"
    case Activity => "ACTIVITY"
    case Sensitive => "SENSITIVE"
  }

  /** `Object.values(DataCategory).includes(s)`, with the value it names. */
  function ParseCategory(s: string): (r: Option<DataCategory>)
    ensures r.Some? ==> CategoryName(r.value) == s
    ensures r.None? ==> forall c :: CategoryName(c) != s
  {
    if s == "IDENTITY" then Some(Identity)
    else if s == "CONTACT" then Some(Contact)
    else if s == "FINANCIAL" then Some(Financial)
    else if s == "USAGE" then Some(Usage)
    else if s == "ACTIVITY" then Some(Activity)
    else if s == "SENSITIVE" then Some(Sensitive)
    else None
  }

  datatype ConsentStatus = Granted | Withdrawn | Expired | Pending

  function StatusName(s: ConsentStatus): string
  {
    match s
    case Granted => "GRANTED"
    case Withdrawn => "WITHDRAWN"
    case Expired => "EXPIRED"
    case Pending => "PENDING"
  }

  /** `Object.values(ConsentStatus).includes(s)`, with the value it names. */
  function ParseStatus(s: string): (r: Option<ConsentStatus>)
    ensures r.Some? ==> StatusName(r.value) == s
    ensures r.None? ==> forall c :: StatusName(c) != s
  {
    if s == "GRANTED" then Some(Granted)
    else if s == "WITHDRAWN" then Some(Withdrawn)
    else if s == "EXPIRED" then Some(Expired)
    else if s == "PENDING" then Some(Pending)
    else None
  }

  datatype FileCategory = Document | FinancialRecord | Medical | Legal | Personal | Other

  function FileCategoryName(c: FileCategory): string
  {
    match c
    case Document => "DOCUMENT"
    case FinancialRecord => "FINANCIAL"
    case Medical => "MEDICAL"
    case Legal => "LEGAL"
    case Personal => "PERSONAL"
    case Other => "OTHER"
  }

  /** The file category a string names, if any. */
  function ParseFileCategory(s: string): (r: Option<FileCategory>)
    ensures r.Some? ==> FileCategoryName(r.value) == s
    ensures r.None? ==> forall c :: FileCategoryName(c) != s
  {
    if s == "DOCUMENT" then Some(Document)
    else if s == "FINANCIAL" then Some(FinancialRecord)
    else if s == "MEDICAL" then Some(Medical)
    else if s == "LEGAL" then Some(Legal)
    else if s == "PERSONAL" then Some(Personal)
    else if s == "OTHER" then Some(Other)
    else None
  }

  datatype AuditAction =
    | DataView | DataCreate | DataUpdate | DataDelete | DataExport
    | ConsentGrant | ConsentWithdraw
    | Login | Logout | ProfileUpdate
    | FileUpload | FileView | FileDownload | FileDelete
    | PasswordCreate | PasswordView | PasswordUpdate | PasswordDelete
    | NoteCreate | NoteView | NoteUpdate | NoteDelete

  function ActionName(a: AuditAction): string
  {
    match a
    case DataView => "DATA_VIEW"
    case DataCreate => "DATA_CREATE"
    case DataUpdate => "DATA_UPDATE"
    case DataDelete => "DATA_DELETE"
    case DataExport => "DATA_EXPORT"
    case ConsentGrant => "CONSENT_GRANT"
    case ConsentWithdraw => "CONSENT_WITHDRAW"
    case Login => "LOGIN"
    case Logout => "LOGOUT"
    case ProfileUpdate => "PROFILE_UPDATE"
    case FileUpload => "FILE_UPLOAD"
    case FileView => "FILE_VIEW"
    case FileDownload => "FILE_DOWNLOAD"
    case FileDelete => "FILE_DELETE"
    case PasswordCreate => "PASSWORD_CREATE"
    case PasswordView => "PASSWORD_VIEW"
    case PasswordUpdate => "PASSWORD_UPDATE"
    case PasswordDelete => "PASSWORD_DELETE"
    case NoteCreate => "NOTE_CREATE"
    case NoteView => "NOTE_VIEW"
    case NoteUpdate => "NOTE_UPDATE"
    case NoteDelete => "NOTE_DELETE"
  }

  /** Every action of the enumeration, in declaration order: `Object.values(AuditAction)`. */
  const AllActions: seq<AuditAction> := [
    DataView, DataCreate, DataUpdate, DataDelete, DataExport,
    ConsentGrant, ConsentWithdraw,
    Login, Logout, ProfileUpdate,
    FileUpload, FileView, FileDownload, FileDelete,
    PasswordCreate, PasswordView, PasswordUpdate, PasswordDelete,
    NoteCreate, NoteView, NoteUpdate, NoteDelete
  ]

  /** `Object.values(AuditAction).includes(s)`, with the action it names. */
  function ParseAction(s: string): (r: Option<AuditAction>)
    ensures r.Some? ==> ActionName(r.value) == s
    ensures r.None? ==> forall i :: 0 <= i < |AllActions| ==> ActionName(AllActions[i]) != s
  {
    FindAction(s, 0)
  }

  function FindAction(s: string, from: nat): (r: Option<AuditAction>)
    requires from <= |AllActions|
    ensures r.Some? ==> ActionName(r.value) == s
    ensures r.None? ==> forall i :: from <= i < |AllActions| ==> ActionName(AllActions[i]) != s
    decreases |AllActions| - from
  {
    if from == |AllActions| then None
    else if ActionName(AllActions[from]) == s then Some(AllActions[from])
    else FindAction(s, from + 1)
  }

  /** A user account. */
  datatype User = User(id: Id, email: string, passwordHash: string, name: string, createdAt: Millis)

  /** One item of personal data held about a user. */
  datatype PersonalData = PersonalData(
    id: Id, userId: Id, category: DataCategory, fieldName: string, fieldValue: string,
    purpose: string, source: string, dataController: string, collectedAt: Millis,
    retentionDays: int, isActive: bool, createdAt: Millis)

  /** A consent given by a user, optionally tied to one item of personal data. */
  datatype Consent = Consent(
    id: Id, userId: Id, personalDataId: Option<Id>, purpose: string, status: ConsentStatus,
    grantedAt: Option<Millis>, withdrawnAt: Option<Millis>, expiresAt: Option<Millis>,
    createdAt: Millis)

  /** One row of the audit trail. */
  datatype AuditEntry = AuditEntry(
    id: Id, userId: Id, action: AuditAction, entityType: string, entityId: Option<Id>,
    details: Option<Details>, ipAddress: Option<string>, userAgent: Option<string>,
    timestamp: Millis)

  /** A stored credential; `encryptedPassword` holds the encoded secret. */
  datatype PasswordEntry = PasswordEntry(
    id: Id, userId: Id, websiteName: string, websiteUrl: Option<string>, username: string,
    encryptedPassword: string, notes: Option<string>, category: Option<string>,
    lastUsed: Option<Millis>, isActive: bool, createdAt: Millis)

  /** A stored note; `encryptedContent` holds the encoded text. */
  datatype SecureNote = SecureNote(
    id: Id, userId: Id, title: string, encryptedContent: string, category: Option<string>,
    isPinned: bool, isActive: bool, createdAt: Millis, updatedAt: Millis)

  /** The metadata of an uploaded file. */
  datatype SecureFile = SecureFile(
    id: Id, userId: Id, fileName: string, originalName: string, mimeType: string,
    fileSize: nat, purpose: string, category: FileCategory, filePath: Option<string>,
    isActive: bool, createdAt: Millis)
}
