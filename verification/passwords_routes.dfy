/** The password vault: entries whose password is stored base64-encoded (the routes' own
    reversible stand-in for encryption), shown masked unless the caller asks for the
    decoded password of one entry. Every entry is soft-deleted. */
module PasswordRoutes {
  import opened Common
  import opened Records
  import opened Collections
  import opened Db
  import opened AuditService
  import Base64
  import Codec

  /** What every reply shows in place of the stored password. */
  const Mask: string := "********"

  /** The mask is never what a password is stored as, so a masked reply cannot be
      mistaken for a stored value. */
  lemma MaskIsNoEncoding(password: string)
    ensures Codec.Encode(password) != Mask
  {
    assert !Base64.IsAlphabet(Mask[0]) && Mask[0] != '=';
  }

  /** `{ ...entry, encryptedPassword: '********' }`: the entry with only its stored
      password replaced by the mask. */
  function Masked(e: PasswordEntry): (m: PasswordEntry)
    ensures m.encryptedPassword == Mask
    ensures m.(encryptedPassword := e.encryptedPassword) == e
  {
    e.(encryptedPassword := Mask)
  }

  /** The reply for one entry: masked, or with the decoded password in a `password` key
      (the JSON then leaves `encryptedPassword` out). */
  datatype Shown = MaskedEntry(entry: PasswordEntry) | Revealed(entry: PasswordEntry, password: string)

  function CreateLog(owner: Id, e: PasswordEntry, client: Client): AuditLogData
  {
    AuditLogData(owner, PasswordCreate, "PasswordEntry", Some(e.id), Some(map["websiteName" := Str(e.websiteName)]),
                 client.ip, client.userAgent)
  }

  /** The three fields the create route insists on. */
  predicate CreateAccepted(websiteName: Input<string>, username: Input<string>, password: Input<string>)
  {
    Truthy(websiteName) && Truthy(username) && Truthy(password)
  }

  /** `POST /passwords`: refused with 400 unless the website name, user name and password
      are all given and non-empty. Otherwise one active entry is stored with the encoded
      password (optional fields empty become null), one PASSWORD_CREATE entry is logged,
      and the reply shows the entry masked. The stored value decodes to the password. */
  method Create(db: Store, owner: Id, websiteName: Input<string>, websiteUrl: Input<string>, username: Input<string>,
                password: Input<string>, notes: Input<string>, category: Input<string>,
                now: Millis, client: Client, auditOk: bool)
    returns (r: Reply<PasswordEntry>)
    requires db.Valid()
    modifies db
    ensures db.Valid()
    ensures unchanged(db`users, db`items, db`consents, db`notes, db`files)
    ensures !CreateAccepted(websiteName, username, password) ==>
      && r == Fail(400, "Website name, username, and password are required")
      && db.passwords == old(db.passwords) && db.logs == old(db.logs)
    ensures CreateAccepted(websiteName, username, password) ==>
      var e := PasswordEntry(old(db.nextId), owner, websiteName.value, OrNull(websiteUrl), username.value,
                             Codec.Encode(password.value), OrNull(notes), OrNull(category), None, true, now);
      && db.passwords == old(db.passwords) + [e]
      && Codec.Decode(e.encryptedPassword) == password.value
      && r == Ok(201, Masked(e))
      && Appended(old(db.logs), db.logs, CreateLog(owner, e, client), now, auditOk)
  {
    if !CreateAccepted(websiteName, username, password) {
      return Fail(400, "Website name, username, and password are required");
    }
    var e := PasswordEntry(db.nextId, owner, websiteName.value, OrNull(websiteUrl), username.value,
                           Codec.Encode(password.value), OrNull(notes), OrNull(category), None, true, now);
    Codec.DecodeEncode(password.value);
    AddPassword(db, e);
    CreateAuditLog(db, CreateLog(owner, e, client), now, auditOk);
    r := Ok(201, Masked(e));
  }

  /** The `category` query narrows the list only when it is present and non-empty. */
  predicate InCategory(e: PasswordEntry, category: Option<string>)
  {
    Present(category) ==> e.category == Some(category.value)
  }

  predicate Listed(e: PasswordEntry, owner: Id, category: Option<string>)
  {
    e.userId == owner && e.isActive && InCategory(e, category)
  }

  function NewestFirst(e: PasswordEntry): (int, int) { (-e.createdAt, 0) }

  /** The entries `GET /passwords` selects: the caller's active entries, in the named
      category if one is given, newest first. */
  function Selection(passwords: seq<PasswordEntry>, owner: Id, category: Option<string>): (r: seq<PasswordEntry>)
    ensures forall i :: 0 <= i < |r| ==> r[i] in passwords && Listed(r[i], owner, category)
    ensures forall i :: 0 <= i < |passwords| && Listed(passwords[i], owner, category) ==> passwords[i] in r
    ensures forall i, j :: 0 <= i < j < |r| ==> r[i].createdAt >= r[j].createdAt
    ensures forall x :: multiset(r)[x] == if Listed(x, owner, category) then multiset(passwords)[x] else 0
  {
    var s := Filter(passwords, (e: PasswordEntry) => Listed(e, owner, category));
    SortedFilterMultiset(passwords, (e: PasswordEntry) => Listed(e, owner, category), NewestFirst);
    SortedFilterMembers(passwords, (e: PasswordEntry) => Listed(e, owner, category), NewestFirst);
    SortByKey(s, NewestFirst)
  }

  /** `GET /passwords`: the selection, each entry masked; no stored password leaves. */
  function List(passwords: seq<PasswordEntry>, owner: Id, category: Option<string>): (r: seq<PasswordEntry>)
    ensures |r| == |Selection(passwords, owner, category)|
    ensures forall i :: 0 <= i < |r| ==> r[i].encryptedPassword == Mask
    ensures forall i :: 0 <= i < |r| ==>
      r[i].(encryptedPassword := Selection(passwords, owner, category)[i].encryptedPassword) == Selection(passwords, owner, category)[i]
  {
    var s := Selection(passwords, owner, category);
    seq(|s|, i requires 0 <= i < |s| => Masked(s[i]))
  }

  /** An active entry of the caller's with a non-empty category. */
  predicate Categorised(e: PasswordEntry, owner: Id)
  {
    e.userId == owner && e.isActive && e.category.Some? && e.category.value != ""
  }

  /** The category of an active entry of the caller's; other entries have none. */
  function OwnCategory(e: PasswordEntry, owner: Id): Option<string>
  {
    if e.userId == owner && e.isActive then e.category else None
  }

  /** `GET /passwords/categories/list`: each non-empty category of the caller's active
      entries once, in order of first appearance. */
  function Categories(passwords: seq<PasswordEntry>, owner: Id): (r: seq<string>)
    ensures NoDups(r)
    ensures forall i :: 0 <= i < |r| ==> exists j :: 0 <= j < |passwords| && Categorised(passwords[j], owner) && passwords[j].category == Some(r[i])
    ensures forall j :: 0 <= j < |passwords| && Categorised(passwords[j], owner) ==> passwords[j].category.value in r
  {
    var labels := Labels(passwords, (e: PasswordEntry) => OwnCategory(e, owner));
    var r := Distinct(labels);
    forall i | 0 <= i < |r|
      ensures r[i] in labels
    {
    }
    r
  }

  /** The reply of `GET /passwords/stats/summary`. */
  datatype PasswordStats = PasswordStats(totalPasswords: nat, byCategory: map<string, nat>, recentlyUsed: nat)

  /** `p.category || 'Uncategorized'` for each entry. */
  function StatsLabels(s: seq<PasswordEntry>): (r: seq<string>)
    ensures |r| == |s| && forall i :: 0 <= i < |s| ==> r[i] == OrElse(s[i].category, "Uncategorized")
  {
    seq(|s|, i requires 0 <= i < |s| => OrElse(s[i].category, "Uncategorized"))
  }

  function Active(passwords: seq<PasswordEntry>, owner: Id): (r: seq<PasswordEntry>)
    ensures forall i :: 0 <= i < |r| ==> r[i] in passwords && r[i].userId == owner && r[i].isActive
    ensures forall i :: 0 <= i < |passwords| && passwords[i].userId == owner && passwords[i].isActive ==> passwords[i] in r
  {
    Filter(passwords, (e: PasswordEntry) => e.userId == owner && e.isActive)
  }

  /** Used within the last day: a `lastUsed` later than one day before now. */
  predicate RecentlyUsed(e: PasswordEntry, now: Millis)
  {
    e.lastUsed.Some? && e.lastUsed.value > now - DayMs
  }

  /** `GET /passwords/stats/summary`: counts the caller's active entries, tallies them by
      category (an entry without one counting as "Uncategorized"), and counts those used
      within the last day. The tally's counts add up to the total, and no more entries are
      recent than there are entries. */
  method Stats(passwords: seq<PasswordEntry>, owner: Id, now: Millis) returns (r: PasswordStats)
    ensures r.totalPasswords == |Active(passwords, owner)|
    ensures r.byCategory == GroupCount(StatsLabels(Active(passwords, owner)))
    ensures forall k :: k in r.byCategory ==> r.byCategory[k] > 0
    ensures SumOver(r.byCategory, Distinct(StatsLabels(Active(passwords, owner)))) == r.totalPasswords
    ensures r.recentlyUsed == |Filter(Active(passwords, owner), (e: PasswordEntry) => RecentlyUsed(e, now))|
    ensures r.recentlyUsed <= r.totalPasswords
  {
    var active := Active(passwords, owner);
    var byCategory := Tally(StatsLabels(active));
    GroupCountTotal(StatsLabels(active));
    r := PasswordStats(|active|, byCategory, |Filter(active, (e: PasswordEntry) => RecentlyUsed(e, now))|);
  }

  /** `findFirst({ where: { id, userId, isActive: true } })`. */
  function FindActive(passwords: seq<PasswordEntry>, owner: Id, id: Id): (r: Option<nat>)
    ensures r.Some? ==> r.value < |passwords| && passwords[r.value].id == id && passwords[r.value].userId == owner && passwords[r.value].isActive
    ensures r.Some? ==> forall i :: 0 <= i < r.value ==> !(passwords[i].id == id && passwords[i].userId == owner && passwords[i].isActive)
    ensures r.None? ==> forall i :: 0 <= i < |passwords| ==> !(passwords[i].id == id && passwords[i].userId == owner && passwords[i].isActive)
  {
    FindFirst(passwords, (e: PasswordEntry) => e.id == id && e.userId == owner && e.isActive)
  }

  /** `findFirst({ where: { id, userId } })`: erased entries included. */
  function FindOwned(passwords: seq<PasswordEntry>, owner: Id, id: Id): (r: Option<nat>)
    ensures r.Some? ==> r.value < |passwords| && passwords[r.value].id == id && passwords[r.value].userId == owner
    ensures r.Some? ==> forall i :: 0 <= i < r.value ==> !(passwords[i].id == id && passwords[i].userId == owner)
    ensures r.None? ==> forall i :: 0 <= i < |passwords| ==> !(passwords[i].id == id && passwords[i].userId == owner)
  {
    FindFirst(passwords, (e: PasswordEntry) => e.id == id && e.userId == owner)
  }

  function ViewLog(owner: Id, e: PasswordEntry, decrypt: Option<string>, client: Client): AuditLogData
  {
    AuditLogData(owner, PasswordView, "PasswordEntry", Some(e.id),
                 Some(map["websiteName" := Str(e.websiteName), "decrypted" := Flag(Present(decrypt))]),
                 client.ip, client.userAgent)
  }

  /** `GET /passwords/:id`: 404 unless the caller holds the active entry. Otherwise one
      PASSWORD_VIEW entry is logged (recording whether decryption was asked for), the
      entry's `lastUsed` becomes now, and the reply shows the entry as it was read: with
      its decoded password when `decrypt` is exactly "true", masked otherwise. */
  method Get(db: Store, owner: Id, id: Id, decrypt: Option<string>, now: Millis, client: Client, auditOk: bool)
    returns (r: Reply<Shown>)
    requires db.Valid()
    modifies db
    ensures db.Valid()
    ensures unchanged(db`users, db`items, db`consents, db`notes, db`files)
    ensures var k := FindActive(old(db.passwords), owner, id);
      && (k.None? ==> r == Fail(404, "Password entry not found") && db.passwords == old(db.passwords) && db.logs == old(db.logs))
      && (k.Some? ==>
            var e := old(db.passwords)[k.value];
            && db.passwords == old(db.passwords)[k.value := e.(lastUsed := Some(now))]
            && Appended(old(db.logs), db.logs, ViewLog(owner, e, decrypt, client), now, auditOk)
            && r == Ok(200, if decrypt == Some("true") then Revealed(e, Codec.Decode(e.encryptedPassword)) else MaskedEntry(Masked(e))))
  {
    var k := FindActive(db.passwords, owner, id);
    if k.None? {
      return Fail(404, "Password entry not found");
    }
    var e := db.passwords[k.value];
    CreateAuditLog(db, ViewLog(owner, e, decrypt, client), now, auditOk);
    SetPassword(db, k.value, e.(lastUsed := Some(now)));
    if decrypt == Some("true") {
      r := Ok(200, Revealed(e, Codec.Decode(e.encryptedPassword)));
    } else {
      r := Ok(200, MaskedEntry(Masked(e)));
    }
  }

  /** The entry after `PUT /passwords/:id`'s partial update: the website name, user name
      and password change only when given non-empty; the URL, notes and category change
      whenever the body names them, `null` included. Nothing else changes, a new password
      decodes back to itself, and a body that names nothing leaves the entry as it was. */
  function Updated(e: PasswordEntry, websiteName: Input<string>, websiteUrl: Input<string>, username: Input<string>,
                   password: Input<string>, notes: Input<string>, category: Input<string>): (u: PasswordEntry)
    ensures u.id == e.id && u.userId == e.userId && u.isActive == e.isActive
    ensures u.lastUsed == e.lastUsed && u.createdAt == e.createdAt
    ensures u.websiteName == (if Truthy(websiteName) then websiteName.value else e.websiteName)
    ensures u.username == (if Truthy(username) then username.value else e.username)
    ensures Truthy(password) ==> Codec.Decode(u.encryptedPassword) == password.value
    ensures !Truthy(password) ==> u.encryptedPassword == e.encryptedPassword
    ensures websiteUrl.Undefined? ==> u.websiteUrl == e.websiteUrl
    ensures notes.Undefined? ==> u.notes == e.notes
    ensures category.Undefined? ==> u.category == e.category
    ensures !websiteUrl.Undefined? ==> u.websiteUrl == (if websiteUrl.Given? then Some(websiteUrl.value) else None)
    ensures !notes.Undefined? ==> u.notes == (if notes.Given? then Some(notes.value) else None)
    ensures !category.Undefined? ==> u.category == (if category.Given? then Some(category.value) else None)
    ensures (!Truthy(websiteName) && !Truthy(username) && !Truthy(password)
      && websiteUrl.Undefined? && notes.Undefined? && category.Undefined?) ==> u == e
  {
    var encrypted :=
      if Truthy(password) then
        Codec.DecodeEncode(password.value);
        Codec.Encode(password.value)
      else e.encryptedPassword;
    e.(websiteName := if Truthy(websiteName) then websiteName.value else e.websiteName,
       websiteUrl := Assign(e.websiteUrl, websiteUrl),
       username := if Truthy(username) then username.value else e.username,
       encryptedPassword := encrypted,
       notes := Assign(e.notes, notes),
       category := Assign(e.category, category))
  }

  function UpdateLog(owner: Id, e: PasswordEntry, client: Client): AuditLogData
  {
    AuditLogData(owner, PasswordUpdate, "PasswordEntry", Some(e.id), Some(map["websiteName" := Str(e.websiteName)]),
                 client.ip, client.userAgent)
  }

  /** `PUT /passwords/:id`: 404 unless the caller holds the active entry; otherwise the
      partial update, one PASSWORD_UPDATE entry naming the updated website, and the
      updated entry masked. */
  method Update(db: Store, owner: Id, id: Id, websiteName: Input<string>, websiteUrl: Input<string>,
                username: Input<string>, password: Input<string>, notes: Input<string>, category: Input<string>,
                now: Millis, client: Client, auditOk: bool)
    returns (r: Reply<PasswordEntry>)
    requires db.Valid()
    modifies db
    ensures db.Valid()
    ensures unchanged(db`users, db`items, db`consents, db`notes, db`files)
    ensures var k := FindActive(old(db.passwords), owner, id);
      && (k.None? ==> r == Fail(404, "Password entry not found") && db.passwords == old(db.passwords) && db.logs == old(db.logs))
      && (k.Some? ==>
            var u := Updated(old(db.passwords)[k.value], websiteName, websiteUrl, username, password, notes, category);
            && db.passwords == old(db.passwords)[k.value := u]
            && Appended(old(db.logs), db.logs, UpdateLog(owner, u, client), now, auditOk)
            && r == Ok(200, Masked(u)))
  {
    var k := FindActive(db.passwords, owner, id);
    if k.None? {
      return Fail(404, "Password entry not found");
    }
    var u := Updated(db.passwords[k.value], websiteName, websiteUrl, username, password, notes, category);
    SetPassword(db, k.value, u);
    CreateAuditLog(db, UpdateLog(owner, u, client), now, auditOk);
    r := Ok(200, Masked(u));
  }

  function DeleteLog(owner: Id, e: PasswordEntry, client: Client): AuditLogData
  {
    AuditLogData(owner, PasswordDelete, "PasswordEntry", Some(e.id), Some(map["websiteName" := Str(e.websiteName)]),
                 client.ip, client.userAgent)
  }

  /** `DELETE /passwords/:id`: 404 unless the caller owns the entry (an already deleted
      one included); otherwise the entry is deactivated, kept in the table, and one
      PASSWORD_DELETE entry is logged. */
  method Delete(db: Store, owner: Id, id: Id, now: Millis, client: Client, auditOk: bool) returns (r: Reply<string>)
    requires db.Valid()
    modifies db
    ensures db.Valid()
    ensures unchanged(db`users, db`items, db`consents, db`notes, db`files)
    ensures var k := FindOwned(old(db.passwords), owner, id);
      && (k.None? ==> r == Fail(404, "Password entry not found") && db.passwords == old(db.passwords) && db.logs == old(db.logs))
      && (k.Some? ==>
            && db.passwords == old(db.passwords)[k.value := old(db.passwords)[k.value].(isActive := false)]
            && Appended(old(db.logs), db.logs, DeleteLog(owner, old(db.passwords)[k.value], client), now, auditOk)
            && r == Ok(200, "Password entry deleted successfully"))
  {
    var k := FindOwned(db.passwords, owner, id);
    if k.None? {
      return Fail(404, "Password entry not found");
    }
    var e := db.passwords[k.value];
    SetPassword(db, k.value, e.(isActive := false));
    CreateAuditLog(db, DeleteLog(owner, e, client), now, auditOk);
    r := Ok(200, "Password entry deleted successfully");
  }

  /** A deleted entry is gone from every listing, whatever the category asked for. */
  lemma DeletedNotListed(passwords: seq<PasswordEntry>, k: nat, owner: Id, category: Option<string>)
    requires k < |passwords|
    ensures passwords[k].(isActive := false) !in Selection(passwords[k := passwords[k].(isActive := false)], owner, category)
  {
  }
}
