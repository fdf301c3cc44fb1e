/** The secure-files vault: the metadata of uploaded files, each kept under a stated
    purpose and a category. Uploads pass the upload filter first (an allowed MIME type,
    at most 10 MiB); every file is soft-deleted. */
module FileRoutes {
  import opened Common
  import opened Records
  import opened Collections
  import opened Db
  import opened AuditService
  import ErrorMiddleware

  /** The upload size cap: 10 MiB. */
  const MaxFileSize: nat := 10 * 1024 * 1024

  /** The MIME types the upload filter lets through. */
  const AllowedTypes: seq<string> := [
    "application/pdf",
    "image/jpeg",
    "image/png",
    "image/gif",
    "application/msword",
    "application/vnd.openxmlformats-officedocument.wordprocessingml.document",
    "application/vnd.ms-excel",
    "application/vnd.openxmlformats-officedocument.spreadsheetml.sheet",
    "text/plain",
    "application/json"
  ]

  /** A file as the upload middleware received it: the client's name for it, its MIME
      type, its size, and the name and path it was stored under. */
  datatype Incoming = Incoming(originalName: string, mimeType: string, size: nat, storedName: string, path: string)

  /** The error the filter raises for a type outside the list. */
  const InvalidFileType: ErrorMiddleware.Failure := ErrorMiddleware.Thrown("Error", "Invalid file type")

  /** The error the middleware raises for a file over the size cap. */
  const FileTooLarge: ErrorMiddleware.Failure := ErrorMiddleware.Thrown("MulterError", "File too large")

  /** `(category as FileCategory) || 'OTHER'`: OTHER for a missing or empty category, the
      category named otherwise; a name outside the enumeration gives none, and the
      database then refuses the row. */
  function ChosenCategory(category: Option<string>): (r: Option<FileCategory>)
    ensures !Present(category) ==> r == Some(Other)
    ensures Present(category) ==> (r.Some? <==> exists c :: FileCategoryName(c) == category.value)
    ensures Present(category) && r.Some? ==> FileCategoryName(r.value) == category.value
  {
    if Present(category) then ParseFileCategory(category.value) else Some(Other)
  }

  function UploadLog(owner: Id, f: SecureFile, client: Client): AuditLogData
  {
    AuditLogData(owner, FileUpload, "SecureFile", Some(f.id),
                 Some(map["fileName" := Str(f.originalName), "category" := Str(FileCategoryName(f.category))]),
                 client.ip, client.userAgent)
  }

  /** The row stored for an accepted upload. */
  function UploadedRow(id: Id, owner: Id, file: Incoming, purpose: string, category: FileCategory, now: Millis): SecureFile
  {
    SecureFile(id, owner, file.storedName, file.originalName, file.mimeType, file.size, purpose, category,
               Some(file.path), true, now)
  }

  /** `POST /files/upload`. The upload filter refuses a file of a type outside the list
      and one over the size cap; the error goes to the error handler. Without a file the
      reply is 400, and without a purpose 400 too. A category that names no file category
      makes the database refuse the row: 500. Otherwise one active row describes the
      stored file, one FILE_UPLOAD entry records its name and category, and the reply is
      the row. Only an accepted file of an allowed type within the cap, with a purpose,
      is ever recorded. */
  method Upload(db: Store, owner: Id, file: Option<Incoming>, purpose: Option<string>, category: Option<string>,
                now: Millis, client: Client, auditOk: bool)
    returns (r: Reply<SecureFile>)
    requires db.Valid()
    modifies db
    ensures db.Valid()
    ensures unchanged(db`users, db`items, db`consents, db`passwords, db`notes)
    ensures file.Some? && file.value.mimeType !in AllowedTypes ==> r == ErrorMiddleware.Handle(InvalidFileType)
    ensures file.Some? && file.value.mimeType in AllowedTypes && file.value.size > MaxFileSize ==>
      r == ErrorMiddleware.Handle(FileTooLarge)
    ensures file.None? ==> r == Fail(400, "No file uploaded")
    ensures file.Some? && file.value.mimeType in AllowedTypes && file.value.size <= MaxFileSize ==>
      && (!Present(purpose) ==> r == Fail(400, "Purpose is required for DPDPA compliance"))
      && (Present(purpose) && ChosenCategory(category).None? ==> r == Fail(500, "Failed to upload file"))
    ensures (file.Some? && file.value.mimeType in AllowedTypes && file.value.size <= MaxFileSize
             && Present(purpose) && ChosenCategory(category).Some?) ==> r.Ok?
    ensures r.Fail? ==> db.files == old(db.files) && db.logs == old(db.logs)
    ensures r.Ok? ==>
      && file.Some? && file.value.mimeType in AllowedTypes && file.value.size <= MaxFileSize
      && Present(purpose) && ChosenCategory(category).Some?
      && r == Ok(201, UploadedRow(old(db.nextId), owner, file.value, purpose.value, ChosenCategory(category).value, now))
      && db.files == old(db.files) + [r.body]
      && Appended(old(db.logs), db.logs, UploadLog(owner, r.body, client), now, auditOk)
  {
    if file.None? {
      return Fail(400, "No file uploaded");
    }
    var f := file.value;
    if f.mimeType !in AllowedTypes {
      return ErrorMiddleware.Handle(InvalidFileType);
    }
    if f.size > MaxFileSize {
      return ErrorMiddleware.Handle(FileTooLarge);
    }
    if !Present(purpose) {
      return Fail(400, "Purpose is required for DPDPA compliance");
    }
    var c := ChosenCategory(category);
    if c.None? {
      return Fail(500, "Failed to upload file");
    }
    var row := UploadedRow(db.nextId, owner, f, purpose.value, c.value, now);
    AddFile(db, row);
    CreateAuditLog(db, UploadLog(owner, row, client), now, auditOk);
    r := Ok(201, row);
  }

  /** The rejections of the upload filter reach the client only as the error handler's
      generic 500: its message is not shown. */
  lemma FilterRejectionsAreGeneric()
    ensures ErrorMiddleware.Handle<SecureFile>(InvalidFileType) == Fail(500, "Internal server error")
    ensures ErrorMiddleware.Handle<SecureFile>(FileTooLarge) == Fail(500, "Internal server error")
  {
    ErrorMiddleware.ThrownStatus<SecureFile>("Error", "Invalid file type");
    ErrorMiddleware.ThrownStatus<SecureFile>("MulterError", "File too large");
  }

  function Active(files: seq<SecureFile>, owner: Id): (r: seq<SecureFile>)
    ensures forall i :: 0 <= i < |r| ==> r[i] in files && r[i].userId == owner && r[i].isActive
    ensures forall i :: 0 <= i < |files| && files[i].userId == owner && files[i].isActive ==> files[i] in r
  {
    Filter(files, (f: SecureFile) => f.userId == owner && f.isActive)
  }

  /** The sum of the sizes of `files`. */
  function TotalSize(files: seq<SecureFile>): nat
  {
    if files == [] then 0 else TotalSize(files[..|files| - 1]) + files[|files| - 1].fileSize
  }

  /** Files within the size cap add up to at most the cap times their number. */
  lemma {:induction false} TotalSizeBounded(files: seq<SecureFile>)
    requires forall i :: 0 <= i < |files| ==> files[i].fileSize <= MaxFileSize
    ensures TotalSize(files) <= |files| * MaxFileSize
  {
    if files != [] {
      TotalSizeBounded(files[..|files| - 1]);
    }
  }

  /** Each file's category name, as the tally keys it. */
  function CategoryNames(files: seq<SecureFile>): (r: seq<string>)
    ensures |r| == |files| && forall i :: 0 <= i < |files| ==> r[i] == FileCategoryName(files[i].category)
  {
    seq(|files|, i requires 0 <= i < |files| => FileCategoryName(files[i].category))
  }

  /** The reply of `GET /files/stats/summary`. */
  datatype FileStats = FileStats(totalFiles: nat, totalSize: nat, byCategory: map<string, nat>)

  /** `files.reduce((sum, f) => sum + f.fileSize, 0)`. */
  method SumSizes(files: seq<SecureFile>) returns (sum: nat)
    ensures sum == TotalSize(files)
  {
    sum := 0;
    for i := 0 to |files|
      invariant sum == TotalSize(files[..i])
    {
      assert files[..i + 1][..i] == files[..i];
      sum := sum + files[i].fileSize;
    }
    assert files[..|files|] == files;
  }

  /** `GET /files/stats/summary`: the number of the caller's active files, their total
      size, and a tally by category whose counts add up to the number of files. */
  method Stats(files: seq<SecureFile>, owner: Id) returns (r: FileStats)
    ensures r.totalFiles == |Active(files, owner)|
    ensures r.totalSize == TotalSize(Active(files, owner))
    ensures r.byCategory == GroupCount(CategoryNames(Active(files, owner)))
    ensures forall k :: k in r.byCategory ==> r.byCategory[k] > 0
    ensures SumOver(r.byCategory, Distinct(CategoryNames(Active(files, owner)))) == r.totalFiles
  {
    var active := Active(files, owner);
    var totalSize := SumSizes(active);
    var byCategory := Tally(CategoryNames(active));
    GroupCountTotal(CategoryNames(active));
    r := FileStats(|active|, totalSize, byCategory);
  }

  predicate Listed(f: SecureFile, owner: Id, category: FileCategory, filtered: bool)
  {
    f.userId == owner && f.isActive && (filtered ==> f.category == category)
  }

  function NewestFirst(f: SecureFile): (int, int) { (-f.createdAt, 0) }

  /** The files `GET /files` selects: the caller's active files, of one category when
      `filtered`, newest first. */
  function Selection(files: seq<SecureFile>, owner: Id, category: FileCategory, filtered: bool): (r: seq<SecureFile>)
    ensures forall i :: 0 <= i < |r| ==> r[i] in files && Listed(r[i], owner, category, filtered)
    ensures forall i :: 0 <= i < |files| && Listed(files[i], owner, category, filtered) ==> files[i] in r
    ensures forall i, j :: 0 <= i < j < |r| ==> r[i].createdAt >= r[j].createdAt
    ensures forall x :: multiset(r)[x] == if Listed(x, owner, category, filtered) then multiset(files)[x] else 0
  {
    var s := Filter(files, (f: SecureFile) => Listed(f, owner, category, filtered));
    SortedFilterMultiset(files, (f: SecureFile) => Listed(f, owner, category, filtered), NewestFirst);
    SortedFilterMembers(files, (f: SecureFile) => Listed(f, owner, category, filtered), NewestFirst);
    SortByKey(s, NewestFirst)
  }

  /** `GET /files`: without a category (or with an empty one) every active file of the
      caller's; with a category name, only the files of that category; a name outside the
      enumeration makes the query fail with 500. */
  function List(files: seq<SecureFile>, owner: Id, category: Option<string>): (r: Reply<seq<SecureFile>>)
    ensures Present(category) && ParseFileCategory(category.value).None? ==> r == Fail(500, "Failed to get files")
    ensures !Present(category) ==> r == Ok(200, Selection(files, owner, Other, false))
    ensures Present(category) && ParseFileCategory(category.value).Some? ==>
      && r == Ok(200, Selection(files, owner, ParseFileCategory(category.value).value, true))
      && forall i :: 0 <= i < |r.body| ==> FileCategoryName(r.body[i].category) == category.value
  {
    if !Present(category) then Ok(200, Selection(files, owner, Other, false))
    else
      match ParseFileCategory(category.value)
      case None => Fail(500, "Failed to get files")
      case Some(c) => Ok(200, Selection(files, owner, c, true))
  }

  /** `findFirst({ where: { id, userId, isActive: true } })`. */
  function FindActive(files: seq<SecureFile>, owner: Id, id: Id): (r: Option<nat>)
    ensures r.Some? ==> r.value < |files| && files[r.value].id == id && files[r.value].userId == owner && files[r.value].isActive
    ensures r.Some? ==> forall i :: 0 <= i < r.value ==> !(files[i].id == id && files[i].userId == owner && files[i].isActive)
    ensures r.None? ==> forall i :: 0 <= i < |files| ==> !(files[i].id == id && files[i].userId == owner && files[i].isActive)
  {
    FindFirst(files, (f: SecureFile) => f.id == id && f.userId == owner && f.isActive)
  }

  /** `findFirst({ where: { id, userId } })`: deleted files included. */
  function FindOwned(files: seq<SecureFile>, owner: Id, id: Id): (r: Option<nat>)
    ensures r.Some? ==> r.value < |files| && files[r.value].id == id && files[r.value].userId == owner
    ensures r.Some? ==> forall i :: 0 <= i < r.value ==> !(files[i].id == id && files[i].userId == owner)
    ensures r.None? ==> forall i :: 0 <= i < |files| ==> !(files[i].id == id && files[i].userId == owner)
  {
    FindFirst(files, (f: SecureFile) => f.id == id && f.userId == owner)
  }

  /** The audit entry of a view, a download or a delete of file `f`, naming the client's
      name for it. */
  function FileLog(owner: Id, action: AuditAction, f: SecureFile, client: Client): AuditLogData
  {
    AuditLogData(owner, action, "SecureFile", Some(f.id), Some(map["fileName" := Str(f.originalName)]),
                 client.ip, client.userAgent)
  }

  /** `GET /files/:id`: 404 unless the caller holds the active file; otherwise one
      FILE_VIEW entry and the row. The files are not touched. */
  method Get(db: Store, owner: Id, id: Id, now: Millis, client: Client, auditOk: bool)
    returns (r: Reply<SecureFile>)
    requires db.Valid()
    modifies db
    ensures db.Valid()
    ensures unchanged(db`users, db`items, db`consents, db`passwords, db`notes, db`files)
    ensures var k := FindActive(old(db.files), owner, id);
      && (k.None? ==> r == Fail(404, "File not found") && db.logs == old(db.logs))
      && (k.Some? ==>
            && Appended(old(db.logs), db.logs, FileLog(owner, FileView, old(db.files)[k.value], client), now, auditOk)
            && r == Ok(200, old(db.files)[k.value]))
  {
    var k := FindActive(db.files, owner, id);
    if k.None? {
      return Fail(404, "File not found");
    }
    CreateAuditLog(db, FileLog(owner, FileView, db.files[k.value], client), now, auditOk);
    r := Ok(200, db.files[k.value]);
  }

  /** What a download sends: the stored file, offered under the client's name for it. */
  datatype Download = Download(path: string, fileName: string)

  /** `GET /files/:id/download`: 404 unless the caller holds the active file and it has a
      non-empty path, 404 again when nothing is at that path (`onDisk` is what the file
      system says); otherwise one FILE_DOWNLOAD entry and the file. */
  method DownloadFile(db: Store, owner: Id, id: Id, onDisk: bool, now: Millis, client: Client, auditOk: bool)
    returns (r: Reply<Download>)
    requires db.Valid()
    modifies db
    ensures db.Valid()
    ensures unchanged(db`users, db`items, db`consents, db`passwords, db`notes, db`files)
    ensures var k := FindActive(old(db.files), owner, id);
      && (k.None? || !Present(old(db.files)[k.value].filePath) ==>
            r == Fail(404, "File not found") && db.logs == old(db.logs))
      && (k.Some? && Present(old(db.files)[k.value].filePath) && !onDisk ==>
            r == Fail(404, "File not found on disk") && db.logs == old(db.logs))
      && (k.Some? && Present(old(db.files)[k.value].filePath) && onDisk ==>
            var f := old(db.files)[k.value];
            && Appended(old(db.logs), db.logs, FileLog(owner, FileDownload, f, client), now, auditOk)
            && r == Ok(200, Download(f.filePath.value, f.originalName)))
  {
    var k := FindActive(db.files, owner, id);
    if k.None? || !Present(db.files[k.value].filePath) {
      return Fail(404, "File not found");
    }
    if !onDisk {
      return Fail(404, "File not found on disk");
    }
    var f := db.files[k.value];
    CreateAuditLog(db, FileLog(owner, FileDownload, f, client), now, auditOk);
    r := Ok(200, Download(f.filePath.value, f.originalName));
  }

  /** `DELETE /files/:id`: 404 unless the caller owns the file (a deleted one included);
      otherwise the row is deactivated and kept in the table. Then the stored file is
      unlinked when the row has a path and something is at it (`onDisk`). An unlink that
      throws (`!unlinkOk`) ends in the handler's 500 with the row already inactive and
      nothing logged. Otherwise one FILE_DELETE entry is logged. `removed` says whether
      the stored file was taken off the disk. */
  method Delete(db: Store, owner: Id, id: Id, onDisk: bool, unlinkOk: bool, now: Millis, client: Client, auditOk: bool)
    returns (r: Reply<string>, removed: bool)
    requires db.Valid()
    modifies db
    ensures db.Valid()
    ensures unchanged(db`users, db`items, db`consents, db`passwords, db`notes)
    ensures var k := FindOwned(old(db.files), owner, id);
      && (k.None? ==>
            && r == Fail(404, "File not found") && !removed
            && db.files == old(db.files) && db.logs == old(db.logs))
      && (k.Some? ==>
            var f := old(db.files)[k.value];
            var attempted := Present(f.filePath) && onDisk;
            && db.files == old(db.files)[k.value := f.(isActive := false)]
            && removed == (attempted && unlinkOk)
            && (attempted && !unlinkOk ==>
                  r == Fail(500, "Failed to delete file") && db.logs == old(db.logs))
            && (!attempted || unlinkOk ==>
                  && Appended(old(db.logs), db.logs, FileLog(owner, FileDelete, f, client), now, auditOk)
                  && r == Ok(200, "File deleted successfully")))
  {
    var k := FindOwned(db.files, owner, id);
    if k.None? {
      return Fail(404, "File not found"), false;
    }
    var f := db.files[k.value];
    SetFile(db, k.value, f.(isActive := false));
    removed := false;
    if Present(f.filePath) && onDisk {
      if !unlinkOk {
        return Fail(500, "Failed to delete file"), false;
      }
      removed := true;
    }
    CreateAuditLog(db, FileLog(owner, FileDelete, f, client), now, auditOk);
    r := Ok(200, "File deleted successfully");
  }

  /** Deleting twice leaves the table as deleting once does. */
  lemma DeleteIdempotent(files: seq<SecureFile>, owner: Id, id: Id)
    requires FindOwned(files, owner, id).Some?
    ensures var k := FindOwned(files, owner, id).value;
      var once := files[k := files[k].(isActive := false)];
      && FindOwned(once, owner, id) == Some(k)
      && once[k := once[k].(isActive := false)] == once
  {
    var k := FindOwned(files, owner, id).value;
    var once := files[k := files[k].(isActive := false)];
    assert once[k].id == id && once[k].userId == owner;
  }
}
