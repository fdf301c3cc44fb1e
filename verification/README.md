# DPDPA personal-data vault backend, modelled in Dafny

The backend keeps, for each account:

- personal-data items, each with a purpose, a retention period and an active flag;
- the consents given for those items;
- an append-only audit trail;
- a vault of stored passwords, secure notes and uploaded files.

Express route handlers change this store, and those routes are modelled here. They cover:

- the consent state machine (withdraw, grant, withdraw-all);
- the right to erasure (delete one item, delete everything) and export;
- the audit query with filters, pagination, stats and export;
- registration and login bookkeeping;
- the vault CRUD routes;
- the error middleware.

The store is the class `Db.Store`. It holds one sequence per table, and one counter hands out row ids. Its invariant `Valid()` says three things:

- ids are unique and below the counter;
- a consent's item belongs to the same user;
- an inactive item has no GRANTED consent referring to it.

Each route that writes is a module-level method taking the store. It has `modifies db`, and its `ensures` give the whole new state of every table it touches. Read-only routes are functions over the tables.

Some inputs become parameters:

- the authenticated user id;
- the clock (`now`, in milliseconds);
- the client's address and user agent;
- whether the audit write succeeded (`auditOk`);
- bcrypt's hash and compare functions;
- the e-mail validator's verdict.

Modules, one per source file, plus shared pieces:

- `Common`, `Records`, `Db`: values, entity records, the store and its invariant.
- `Collections`, `Text`, `IsoDate`: filtering, counting, ordering, string helpers and `Date.prototype.toISOString`.
- `Utf8`, `Base64`, `Codec`: the reversible text encoding the vault stores secrets with. It is UTF-8, then standard base64 as in section 4 of RFC 4648.
- `AuditService`, `AuditRoutes`, `ConsentRoutes`, `DataRoutes`, `AuthRoutes`: the routes mounted under `/api`.
- `PasswordRoutes`, `NoteRoutes`, `FileRoutes`: the vault routers.
- `ErrorMiddleware`: the error handler.
- `Scenarios`: request sequences whose outcome the contracts decide together.

## Model

| member | source | states |
|---|---|---|
| AuditService.CreateAuditLog | be/src/services/audit.service.ts:13-33 | When the write succeeds, exactly one entry is appended with the given user, action, entity, details, address and agent. When it fails, the log is unchanged and nothing propagates. Earlier entries and every other table stay as they were. |
| AuditService.ActionDescription | be/src/services/audit.service.ts:35-62 | Every action has a non-empty description taken from the fixed table. |
| AuditService.DescriptionsDistinct | be/src/services/audit.service.ts:35-62 | Two different actions never share a description. |
| Records.ParseAction | be/src/routes/audit.routes.ts:30-32 | A query string names an action exactly when some action has that name, and the name read back is the string. |
| Records.ParseStatus | be/src/routes/consent.routes.ts:17-23 | A status filter parses exactly when some status has that name, and the status read back has that name. |
| Records.ParseCategory | be/src/routes/data.routes.ts:22-24 | A category filter parses exactly when some category has that name, and the category read back has that name. |
| Records.ParseFileCategory | be/src/routes/files.routes.ts:149-153 | A file category parses exactly when some file category has that name, and the category read back has that name. |
| AuditRoutes.LimitOf | be/src/routes/audit.routes.ts:14-23 | The page size is the requested limit capped at 100, 20 by default, and always between 1 and 100. |
| AuditRoutes.CeilDiv | be/src/routes/audit.routes.ts:58-66 | totalPages is the ceiling of total / limit: enough pages for every entry, and no page to spare. |
| AuditRoutes.Selection | be/src/routes/audit.routes.ts:26-56 | The selection holds exactly the caller's entries that pass the action filter and both inclusive date bounds, newest first. Each such entry occurs as often as in the log, and nothing else occurs. |
| AuditRoutes.Query | be/src/routes/audit.routes.ts:11-71 | Page p holds positions (p-1)·limit up to p·limit of the selection, so at most limit entries. total is the selection's size. totalPages is its ceiling division by limit. |
| AuditRoutes.PagesUpToPrefix | be/src/routes/audit.routes.ts:48-54 | The first n pages, concatenated, are the prefix of length min(n·limit, size). |
| AuditRoutes.AllPagesCoverSelection | be/src/routes/audit.routes.ts:48-66 | Pages 1 to totalPages, read in order, yield the whole selection exactly once. |
| AuditRoutes.Stats | be/src/routes/audit.routes.ts:74-110 | totalCount counts all of the caller's entries. The byAction counts are the per-action counts and sum to totalCount. recentCount counts entries at or after now − 7 days and is at most totalCount. |
| AuditRoutes.AllActionsComplete | be/src/routes/audit.routes.ts:157-159 | The list of actions holds every action once. |
| AuditRoutes.ActionNames | be/src/routes/audit.routes.ts:157-159 | The actions route lists every action's name. |
| AuditRoutes.AuditCsvRow | be/src/routes/audit.routes.ts:125-135 | Under each of the seven export columns the row holds the entry's field of that name: id, action name, entityType, entityId, ipAddress, userAgent and the ISO timestamp. |
| AuditRoutes.Export | be/src/routes/audit.routes.ts:113-154 | The JSON form is chosen exactly when the format is not "csv". It carries all of the caller's entries, newest first, with totalLogs equal to their number, userId the caller and exportedAt the ISO string of now. The CSV form has the fixed header and, row by row, the CSV row of each of those entries. |
| IsoDate.ToIsoString | be/src/routes/auth.routes.ts:266 | A timestamp renders as a string of at least 24 characters. |
| IsoDate.ToIsoStringEndsInZ | be/src/routes/auth.routes.ts:266 | The rendered string ends in the Z of UTC. |
| ConsentRoutes.ListConsents | be/src/routes/consent.routes.ts:12-45 | Only the caller's consents are listed, newest first. A valid status filter narrows them to that status; an invalid or absent one returns all of them. Each listed consent occurs as often as in the table. |
| ConsentRoutes.ListConsentsReply | be/src/routes/consent.routes.ts:25-40 | Each listed consent is returned in order with the summary of its linked item: the item's id, fieldName, category and isActive, or none when no item is linked. |
| ConsentRoutes.ConsentStats | be/src/routes/consent.routes.ts:48-74 | Each of the four statuses is counted from zero, and the four counts sum to the caller's number of consents. |
| ConsentRoutes.GetConsent | be/src/routes/consent.routes.ts:77-101 | A consent the caller does not own gives 404 "Consent not found". Otherwise it is returned with the item it links to, or with none when no item has its personalDataId. |
| ConsentRoutes.Withdraw | be/src/routes/consent.routes.ts:104-161 | A missing or foreign consent gives 404 and an already withdrawn one gives 400; neither changes anything. Any other status becomes WITHDRAWN at now, with grantedAt kept and one CONSENT_WITHDRAW entry appended. No other record changes. |
| ConsentRoutes.AsGranted | be/src/routes/consent.routes.ts:194-201 | A granted consent has status GRANTED, grantedAt = now and no withdrawnAt. It keeps its id, user, item, purpose, expiresAt and createdAt. |
| ConsentRoutes.Grant | be/src/routes/consent.routes.ts:164-229 | Gives 404 for a missing or foreign consent. Gives 400 for an already granted one, and 400 when its linked item is inactive; none of these change anything. Otherwise the consent becomes GRANTED and one CONSENT_GRANT entry is appended. |
| ConsentRoutes.GrantKeepsErasure | be/src/routes/consent.routes.ts:188-201 | Granting a consent that passed the linked-item check keeps the invariant that no inactive item has a granted consent. |
| ConsentRoutes.WithdrawAll | be/src/routes/consent.routes.ts:232-265 | Every GRANTED consent of the caller becomes WITHDRAWN at now and every other consent is unchanged. The reply and the single CONSENT_WITHDRAW entry carry the number changed. |
| ConsentRoutes.WithdrawAllLeavesNoneGranted | be/src/routes/consent.routes.ts:236-245 | Afterwards the caller holds no granted consent. |
| Db.AsWithdrawn | be/src/routes/consent.routes.ts:127-132 | A withdrawn consent has status WITHDRAWN and withdrawnAt = now, and keeps grantedAt, purpose, expiry and links. |
| Db.WithdrawWhere | be/src/routes/data.routes.ts:222-225 | An `updateMany` to WITHDRAWN changes exactly the matching consents and no others. |
| Db.WithdrawConsents | be/src/routes/consent.routes.ts:236-245 | The consent table becomes the bulk withdrawal, and the count returned is the number of matching consents. |
| Db.DeactivateWhere | be/src/routes/data.routes.ts:256-259 | An `updateMany` to inactive changes exactly the matching items. |
| Db.DeactivateItems | be/src/routes/data.routes.ts:256-259 | The item table becomes the bulk deactivation; nothing else changes. |
| Db.WithdrawWhereKeepsInvariants | be/src/routes/data.routes.ts:262-265 | Withdrawing consents in bulk keeps every store invariant. |
| Db.FindItem | be/src/routes/data.routes.ts:204-209 | The lookup finds an item with that id owned by the caller, or reports that none exists. It does not filter on isActive. |
| Db.FindConsent | be/src/routes/consent.routes.ts:109-121 | The lookup finds a consent with that id owned by the caller, or reports that none exists. |
| DataRoutes.ListItems | be/src/routes/data.routes.ts:12-47 | The listed items are exactly the caller's active items that pass the category filter (applied only when the category is valid) and the case-insensitive search in fieldName, fieldValue or purpose, each as often as in the table. They are ordered by category, then newest first. |
| DataRoutes.RankInjective | be/src/routes/data.routes.ts:42-45 | The category order tells every category apart. |
| DataRoutes.GrantedFor | be/src/routes/data.routes.ts:36-40 | An item carries the id, status and purpose of exactly its GRANTED consents, one per consent. |
| DataRoutes.List | be/src/routes/data.routes.ts:12-63 | The reply is the listing, the tables are unchanged, and one DATA_VIEW entry counts the results. |
| DataRoutes.Stats | be/src/routes/data.routes.ts:66-107 | totalData counts the caller's active items, and the byCategory counts sum to it. activeConsents counts the caller's granted consents. recentActivity counts the caller's entries of the last 7 days and is at most the caller's log size. |
| DataRoutes.GetItem | be/src/routes/data.routes.ts:110-134 | Gives 404 exactly when the caller owns no item with that id. An erased item is still returned, with every consent linked to it. |
| DataRoutes.ExportData | be/src/routes/data.routes.ts:142-159 | The export has one record per owned item, inactive items included, each with the status, purpose and grantedAt of every consent linked to it. |
| DataRoutes.DataCsvRow | be/src/routes/data.routes.ts:163-176 | Under each of the ten export columns the row holds the item's field of that name, with collectedAt as an ISO string. |
| DataRoutes.ExportAll | be/src/routes/data.routes.ts:137-196 | Export changes no item or consent and appends one DATA_EXPORT entry counting the items. The JSON form carries the export data, itemCount equal to its length, userId the caller and exportedAt the ISO string of now. The CSV form has the fixed header and, row by row, the CSV row of each owned item. |
| DataRoutes.EraseOneKeepsInvariants | be/src/routes/data.routes.ts:216-225 | Deactivating one item and withdrawing its consents keeps the store invariants. |
| DataRoutes.Delete | be/src/routes/data.routes.ts:199-243 | Gives 404 and no change when the caller owns no such item. Otherwise that item alone becomes inactive, every consent referring to it is WITHDRAWN at now, and one DATA_DELETE entry is appended. |
| DataRoutes.EraseAllKeepsInvariants | be/src/routes/data.routes.ts:256-265 | Deactivating all of the caller's items and withdrawing all of their consents keeps the store invariants. |
| DataRoutes.DeleteAll | be/src/routes/data.routes.ts:246-285 | deletedCount is the number of the caller's active items before the call. Afterwards none of the caller's items is active and all of the caller's consents are WITHDRAWN; other users' rows are unchanged. One DATA_DELETE entry carries the count. |
| AuthRoutes.Defaults | be/src/routes/auth.routes.ts:206-225 | There are exactly two defaults: IDENTITY "Full Name" = name and CONTACT "Email Address" = email. |
| AuthRoutes.DefaultConsent | be/src/routes/auth.routes.ts:235-244 | A default consent is GRANTED for its item's purpose and expires 365 days of milliseconds after now. |
| AuthRoutes.CreateDefaultPersonalData | be/src/routes/auth.routes.ts:200-246 | The loop adds, for each default, one item and one GRANTED consent linked to it, and nothing else. |
| AuthRoutes.AddLinkedPairKeepsInvariants | be/src/routes/auth.routes.ts:227-245 | Adding an active item with its own consent keeps the store invariants. |
| AuthRoutes.Register | be/src/routes/auth.routes.ts:24-84 | Invalid input (email, password length ≥ 6, trimmed name length ≥ 2) gives 400 and creates nothing. An existing email gives 400 "Email already registered" and creates nothing. Valid input with a new email always succeeds: it adds the user with the hashed password and trimmed name, the two default items and consents, and one LOGIN entry with method "registration". |
| AuthRoutes.LoginUser | be/src/routes/auth.routes.ts:87-143 | Invalid input gives 400 and changes nothing. An unknown email and a wrong password give the same 401 "Invalid credentials" and change nothing. On success the login activity is recorded and one LOGIN entry with method "password" is appended. |
| AuthRoutes.FindActivity | be/src/routes/auth.routes.ts:255-262 | The lookup finds the caller's first ACTIVITY item of that name, with no isActive filter. |
| AuthRoutes.ClientAddress | be/src/routes/auth.routes.ts:284 | The address recorded is the request's ip, else the forwarded-for header, else "Unknown". |
| AuthRoutes.UpdateLoginActivity | be/src/routes/auth.routes.ts:249-299 | The items become the Last Login upsert followed by the IP Address update; only the counter may move. |
| AuthRoutes.UpsertLastLogin | be/src/routes/auth.routes.ts:255-281 | An existing "Last Login" item is overwritten; otherwise exactly one is created. |
| AuthRoutes.UpdateIpAddress | be/src/routes/auth.routes.ts:284-298 | An existing "IP Address" item is updated; none is created. |
| AuthRoutes.LastLoginCounts | be/src/routes/auth.routes.ts:255-281 | The upsert leaves one Last Login item if there was none, and as many as before otherwise. It leaves IP Address items and unrelated items alone. |
| AuthRoutes.IpAddressCounts | be/src/routes/auth.routes.ts:284-298 | The IP update keeps both counts and changes nothing but the IP Address item. |
| AuthRoutes.LoginActivityEffect | be/src/routes/auth.routes.ts:249-299 | A login leaves exactly one Last Login item when there was none, and otherwise keeps the count and stamps the first one. It never creates an IP Address item and stores the address in an existing one. Every other item is unchanged. |
| AuthRoutes.ActivityCountFound | be/src/routes/auth.routes.ts:255-262 | The count of matching items is zero exactly when the lookup finds none. |
| AuthRoutes.CurrentUser | be/src/routes/auth.routes.ts:146-176 | Gives 404 "User not found" exactly when the account is missing. Otherwise it counts every item and consent of the caller. |
| AuthRoutes.LogoutUser | be/src/routes/auth.routes.ts:179-197 | Logout only appends one LOGOUT entry and replies with success. |
| Utf8.DecodeEncode | be/src/routes/passwords.routes.ts:15-21 | Reading back the UTF-8 bytes of a string gives the string back. |
| Base64.DecodeEncode | be/src/routes/passwords.routes.ts:15-21 | Decoding standard padded base64 gives back the bytes that were encoded. |
| Base64.EncodeInjective | be/src/routes/passwords.routes.ts:15-17 | Different byte strings never share an encoding. |
| Codec.DecodeEncode | be/src/routes/notes.routes.ts:15-21 | decodeContent(encodeContent(c)) == c, and likewise for passwords. |
| Codec.EncodeInjective | be/src/routes/notes.routes.ts:15-17 | Two different secrets are never stored alike. |
| PasswordRoutes.MaskIsNoEncoding | be/src/routes/passwords.routes.ts:56-59 | The mask "********" is never the stored encoding of a password. |
| PasswordRoutes.Masked | be/src/routes/passwords.routes.ts:56-59 | A masked entry differs from the stored one only in encryptedPassword, which is the mask. |
| PasswordRoutes.Create | be/src/routes/passwords.routes.ts:24-65 | Without a website name, user name and password it gives 400 and stores nothing. Otherwise it stores the encoded password with the optional fields as given, appends one PASSWORD_CREATE entry and replies 201 with the entry masked. |
| PasswordRoutes.Selection | be/src/routes/passwords.routes.ts:67-80 | The selection is exactly the caller's active entries in the category, when one is given, newest first. |
| PasswordRoutes.List | be/src/routes/passwords.routes.ts:67-91 | The list is the selection in order, each entry masked. |
| PasswordRoutes.Categories | be/src/routes/passwords.routes.ts:94-110 | The list holds the distinct non-empty categories of the caller's active entries: each once, and all of them. |
| PasswordRoutes.StatsLabels | be/src/routes/passwords.routes.ts:132-135 | A missing or empty category is tallied as "Uncategorized". |
| PasswordRoutes.Stats | be/src/routes/passwords.routes.ts:113-142 | totalPasswords counts the caller's active entries. The byCategory counts are the per-label counts and sum to it. recentlyUsed counts entries used within a day and is at most the total. |
| PasswordRoutes.FindActive | be/src/routes/passwords.routes.ts:149-159 | The lookup finds the first active entry with that id owned by the caller, or none exists. |
| PasswordRoutes.FindOwned | be/src/routes/passwords.routes.ts:250-259 | The lookup finds the first entry with that id owned by the caller, active or not. |
| PasswordRoutes.Get | be/src/routes/passwords.routes.ts:145-194 | Gives 404 with no change unless the caller holds the active entry. Otherwise it sets lastUsed = now and appends one PASSWORD_VIEW entry whose decrypted flag is set for any non-empty decrypt. It reveals the decoded password only when decrypt is "true", and masks it otherwise. |
| PasswordRoutes.Updated | be/src/routes/passwords.routes.ts:214-225 | Website name, user name and password change only when truthy, and the password is stored encoded. URL, notes and category change whenever provided. Every other field is kept. |
| PasswordRoutes.Update | be/src/routes/passwords.routes.ts:197-245 | Gives 404 with no change unless the caller holds the active entry. Otherwise it writes the partial update, appends one PASSWORD_UPDATE entry and replies masked. |
| PasswordRoutes.Delete | be/src/routes/passwords.routes.ts:248-283 | Gives 404 unless the caller owns the entry. An entry already deleted is accepted. The entry becomes inactive and one PASSWORD_DELETE entry is appended. |
| PasswordRoutes.DeletedNotListed | be/src/routes/passwords.routes.ts:71-76 | A deleted entry is in no listing, whatever the category. |
| NoteRoutes.ShownKeepsColumns | be/src/routes/notes.routes.ts:53-57 | A note's view keeps every column except the encoding, and shows the content that was encoded. |
| NoteRoutes.Create | be/src/routes/notes.routes.ts:24-62 | Without a title and content it gives 400 and stores nothing. Otherwise it stores the encoded content with isPinned defaulting to false, appends one NOTE_CREATE entry and replies 201 with the decoded content. |
| NoteRoutes.Selection | be/src/routes/notes.routes.ts:65-80 | The selection is exactly the caller's active notes in the category when one is given, pinned only when pinned is "true". Pinned notes come first, most recently updated first within each group. |
| NoteRoutes.Preview | be/src/routes/notes.routes.ts:83-89 | The preview is the prefix of the content of length min(100, \|content\|). |
| NoteRoutes.Listing | be/src/routes/notes.routes.ts:83-89 | A listed note shows its decoded content together with its preview. |
| NoteRoutes.List | be/src/routes/notes.routes.ts:65-96 | The list is the selection in order, each note listed with its preview. |
| NoteRoutes.Categories | be/src/routes/notes.routes.ts:99-115 | The list holds the distinct non-empty categories of the caller's active notes: each once, and all of them. |
| NoteRoutes.StatsLabels | be/src/routes/notes.routes.ts:133-136 | A missing or empty category is tallied as "Uncategorized". |
| NoteRoutes.Stats | be/src/routes/notes.routes.ts:118-143 | pinnedNotes ≤ totalNotes. The byCategory counts are the per-label counts and sum to totalNotes. |
| NoteRoutes.FindActive | be/src/routes/notes.routes.ts:148-158 | The lookup finds the first active note with that id owned by the caller, or none exists. |
| NoteRoutes.FindOwned | be/src/routes/notes.routes.ts:267-276 | The lookup finds the first note with that id owned by the caller, active or not. |
| NoteRoutes.Get | be/src/routes/notes.routes.ts:146-180 | Gives 404 with no change unless the caller holds the active note. Otherwise it appends one NOTE_VIEW entry and replies with the note decoded. |
| NoteRoutes.Updated | be/src/routes/notes.routes.ts:200-209 | Title and content change only when truthy, and the content is stored encoded. Category and isPinned change whenever provided, so false unpins. The update stamp moves to now. |
| NoteRoutes.Update | be/src/routes/notes.routes.ts:183-230 | Gives 404 with no change unless the caller holds the active note. A null isPinned is refused with 500 and no change. Otherwise it writes the partial update, appends one NOTE_UPDATE entry and replies with the note decoded. |
| NoteRoutes.Toggled | be/src/routes/notes.routes.ts:248-251 | The pin is flipped, the stamp moves to now and nothing else changes. |
| NoteRoutes.ToggleTwice | be/src/routes/notes.routes.ts:248-251 | Toggling twice restores the note, apart from its update stamp. |
| NoteRoutes.TogglePin | be/src/routes/notes.routes.ts:233-262 | Gives 404 with no change unless the caller holds the active note. Otherwise it flips the pin and writes no audit entry. |
| NoteRoutes.Delete | be/src/routes/notes.routes.ts:265-300 | Gives 404 unless the caller owns the note. A note already deleted is accepted. The note becomes inactive and one NOTE_DELETE entry is appended. |
| NoteRoutes.DeletedNotFound | be/src/routes/notes.routes.ts:148-155 | Once deleted, a note is no longer found for view, update or pin. |
| FileRoutes.ChosenCategory | be/src/routes/files.routes.ts:85 | A missing or empty category becomes OTHER. A given one is accepted exactly when some file category has that name, and is kept. |
| FileRoutes.Upload | be/src/routes/files.routes.ts:69-115 | A missing file gives 400. A MIME type outside the ten allowed and a size over 10·1024·1024 go to the error handler. A missing purpose gives 400. A bad category gives 500. None of these stores a row or an entry. Otherwise one row and one FILE_UPLOAD entry are added. |
| FileRoutes.FilterRejectionsAreGeneric | be/src/routes/files.routes.ts:38-59 | Both filter rejections reach the client as 500 "Internal server error". |
| FileRoutes.TotalSizeBounded | be/src/routes/files.routes.ts:38 | Files within the cap sum to at most the cap times their number. |
| FileRoutes.SumSizes | be/src/routes/files.routes.ts:129 | The loop computes the sum of the file sizes. |
| FileRoutes.Stats | be/src/routes/files.routes.ts:118-142 | totalSize is the sum of the sizes of the caller's active files. The byCategory counts sum to totalFiles. |
| FileRoutes.Selection | be/src/routes/files.routes.ts:145-156 | The selection is exactly the caller's active files, of the category when one is given, newest first. |
| FileRoutes.List | be/src/routes/files.routes.ts:145-163 | An invalid category gives 500 "Failed to get files". Otherwise the reply is the selection. |
| FileRoutes.FindActive | be/src/routes/files.routes.ts:168-178 | The lookup finds the first active file with that id owned by the caller, or none exists. |
| FileRoutes.FindOwned | be/src/routes/files.routes.ts:239-248 | The lookup finds the first file with that id owned by the caller, active or not. |
| FileRoutes.Get | be/src/routes/files.routes.ts:166-196 | Gives 404 with no change unless the caller holds the active file. Otherwise it appends one FILE_VIEW entry and replies with the file. |
| FileRoutes.DownloadFile | be/src/routes/files.routes.ts:199-234 | Gives 404 "File not found" unless the caller holds the active file, and 404 "File not found on disk" when it is missing from disk. Otherwise it appends one FILE_DOWNLOAD entry and sends the stored path under the original name. |
| FileRoutes.Delete | be/src/routes/files.routes.ts:237-277 | Gives 404 unless the caller owns the file. Otherwise the file becomes inactive. The stored file is removed from disk exactly when the row has a path, something is at it, and the unlink succeeds. An unlink that fails gives 500 "Failed to delete file": the row stays inactive and nothing is logged. In every other case one FILE_DELETE entry is appended. |
| FileRoutes.DeleteIdempotent | be/src/routes/files.routes.ts:252-255 | Deleting twice leaves the table as deleting once does. |
| IsoDate.ToIsoStringFormat | be/src/routes/auth.routes.ts:266 | For years 0000 to 9999 the string is YYYY-MM-DDTHH:mm:ss.sssZ: 24 characters, the separators in place, digits elsewhere, month 1–12, day 1–31, hours below 24, minutes and seconds below 60. Read back as a UTC instant it gives the timestamp again. |
| IsoDate.CivilRoundTrip | be/src/routes/auth.routes.ts:266 | The civil date of a day number, read back, gives that day number. |
| IsoDate.YearOfEra | be/src/routes/auth.routes.ts:266 | A day of a 400-year era splits into a year of the era (0–399) and a day of that year (0–365) that add back to it. |
| Collections.SortedFilterMultiset | be/src/routes/audit.routes.ts:47-52 | Sorting the rows that pass a `where` keeps each passing row as often as it occurs, and drops every other row. |
| Collections.SortedFilterMembers | be/src/routes/audit.routes.ts:47-52 | Sorting the rows that pass a `where` keeps exactly the passing rows of the table. |
| Collections.Tally | be/src/routes/passwords.routes.ts:132-135 | The `forEach` tally maps each label to the number of times it occurs, and holds no other key. |
| Text.Trim | be/src/routes/auth.routes.ts:15 | The trimmed name is a slice of the input with only white space before and after it, and it neither starts nor ends with white space. |
| Text.ContainsInsensitive | be/src/routes/data.routes.ts:28-30 | The search matches exactly when the search string matches some stretch of the field with ASCII case ignored. |
| Text.ContainsInsensitiveIgnoresCase | be/src/routes/data.routes.ts:28-30 | Case-folding the field or the search string first changes no answer, and the empty search matches every field. |
| Codec.Encode | be/src/routes/passwords.routes.ts:15-17 | A stored value is padded base64: its length is a multiple of 4 and every character is in the alphabet or "=". |
| Codec.Decode | be/src/routes/passwords.routes.ts:19-21 | A value that some text was stored as reads back as that text. |
| ConsentRoutes.Brief | be/src/routes/consent.routes.ts:25-40 | The summary of a consent's item holds the id, fieldName, category and isActive of an item it links to, and is absent only when no item is linked. |
| ConsentRoutes.WithItem | be/src/routes/consent.routes.ts:82-90 | A consent is returned unchanged, with the item it links to or with none when no item is linked. |
| ConsentRoutes.LinkedActive | be/src/routes/consent.routes.ts:188-192 | The grant check passes when every item linked to the consent is active. When item ids are unique, passing it means every linked item is active. |
| DataRoutes.ListReply | be/src/routes/data.routes.ts:33-45 | The reply lists the listing's items in order, each with the briefs of its GRANTED consents. |
| DataRoutes.LinkedConsents | be/src/routes/data.routes.ts:115-123 | An item's consents are exactly those linked to it, each as often as in the table. |
| DataRoutes.Summaries | be/src/routes/data.routes.ts:142-159 | An exported item carries the status, purpose and grantedAt of exactly the consents linked to it. |
| DataRoutes.DataFieldsByName | be/src/routes/data.routes.ts:163-174 | Each export column name looks up the item field of that name. |
| AuditRoutes.AuditFieldsByName | be/src/routes/audit.routes.ts:125-133 | Each export column name looks up the entry field of that name. |
| AuthRoutes.CreateAccount | be/src/routes/auth.routes.ts:44-66 | A new email gets one user row with the next id, the hashed password and the name. Its two default items and consents follow, and the invariants and the vault tables are kept. |
| AuthRoutes.LastLoginItem | be/src/routes/auth.routes.ts:270-280 | A new Last Login item is an active ACTIVITY item of the caller holding the ISO string of now, collected now and kept 30 days. |
| AuthRoutes.WithLastLogin | be/src/routes/auth.routes.ts:255-281 | Only the caller's first Last Login item changes, and only its value, which becomes the ISO string of now. When the caller has none, the new Last Login item is appended. |
| AuthRoutes.WithIpAddress | be/src/routes/auth.routes.ts:284-298 | Only the caller's first IP Address item changes, and only its value, which becomes the address. When the caller has none, nothing changes. |
| ErrorMiddleware.Handle | be/src/middleware/error.middleware.ts:12-50 | An AppError yields its own status and message. A known database error yields 400 "Database operation failed". A JWT error yields 401 "Invalid token", and an expired token yields 401 "Token expired". Anything else yields 500 "Internal server error". |
| ErrorMiddleware.ThrownStatus | be/src/middleware/error.middleware.ts:27-49 | For a thrown error, 400 means a database error, 401 a token error and 500 anything else. |
| ErrorMiddleware.MessageHidden | be/src/middleware/error.middleware.ts:27-49 | A thrown error's own message never reaches the client: the reply depends only on its name. |
| Scenarios.WithdrawTwice | be/src/routes/consent.routes.ts:123-136 | Withdrawing twice gives success, then 400 "Consent already withdrawn". |
| Scenarios.RevealAfterCreate | be/src/routes/passwords.routes.ts:24-65 | A stored password, asked for with decrypt=true, comes back as given. |
| Scenarios.PinTwice | be/src/routes/notes.routes.ts:248-251 | Pinning twice restores the pin, and the content is unchanged. |

## Left out

- The vault routers (passwords, notes, files) create their own database client and are not mounted in `be/src/index.ts`. They are modelled on the shared store as if they were mounted. `FileRoutes.Upload` assumes the `/api` error handler receives the upload middleware's rejections.
- Two parts of `be/src/index.ts` are left out: the Express wiring and the child-process and proxy plumbing.
- JWT signing and verification (`auth.middleware.ts`) are left out. The authenticated user id is a parameter.
- bcrypt hashing and comparison are function parameters. The e-mail validator and `normalizeEmail` are left out: they become a boolean verdict and an already normalised address.
- The upload rate limiter, multer's disk storage and the random stored names are left out. `fs.existsSync` is the `onDisk` parameter of `FileRoutes.DownloadFile` and `FileRoutes.Delete`. Whether `fs.unlinkSync` throws in `FileRoutes.Delete` is its `unlinkOk` parameter. The `fs.unlinkSync` of a rejected upload is left out, so a file left on disk is not modelled. `res.download` streaming is left out.
- CSV quoting and escaping (json2csv) are left out. Only the column projection and order are modelled.
- Several things are not modelled:
  - transactions, crash atomicity, `Promise.all` concurrency and isolation;
  - the catch-all 500 replies for database failures other than the ones named in the model;
  - the seed script `be/prisma/seed.ts`.
- Date-string parsing and `parseInt`/NaN are left out. The audit query takes integer timestamps and requires page ≥ 1 and limit ≥ 1.
- Prisma's `@updatedAt` columns are left out for users, consents, passwords, personal-data items and files. Item and file writes (logins, erasure, soft deletes) do not move such a stamp, and the full-row replies of the data and file routes do not carry it. For notes, updatedAt is assumed to be `@updatedAt` (the schema is not part of this model), so every note write moves it to now.
- Several text details are simplified:
  - case-insensitive search folds only ASCII letters;
  - lengths and `substring` count Unicode scalar values, not UTF-16 code units;
  - lone surrogates are not modelled;
  - invalid UTF-8 decodes to one U+FFFD per bad byte rather than per maximal subpart.
- AuthRoutes.Register: the 400 reply carries "Validation failed" and not the validator's `{ errors: [...] }` array.
- AuthRoutes.LoginUser: the 400 reply for invalid input (be/src/routes/auth.routes.ts:90-91) carries "Validation failed" and not the validator's `{ errors: [...] }` array.
- NoteRoutes.Update: body fields of the wrong JSON type are not modelled, apart from a null `isPinned`.
- AuthRoutes.CurrentUser: the user's `updatedAt` column is not returned.
- PasswordRoutes.Stats: `byCategory` is modelled as a map from each label to its count. The source tallies into a plain object literal, which differs for category names that `Object.prototype` already holds. For `"__proto__"` the count is dropped. For names such as `"constructor"` or `"toString"` the inherited function is turned into a string and `1` is appended. For those categories the proved per-label counts and their sum describe the map, not the object the source replies with.
- NoteRoutes.Stats: the same object-literal tally divergence applies to note categories named after `Object.prototype` members.
- DataRoutes.ListItems: Prisma sorts an enum by its declaration order in the schema, and the schema is not part of this model. The order assumed is IDENTITY, CONTACT, FINANCIAL, USAGE, ACTIVITY, SENSITIVE, the order of the client's `DataCategory` type (fe/src/lib/api.ts:38).
- IsoDate.ToIsoStringFormat: the layout and the read-back are proved for years 0000 to 9999 only. Outside that range `toISOString` writes a signed six-digit year, and `ToIsoString` models that without a format proof.
- All of `fe/` (the React client) is left out.
