/** The authentication routes: registration (with the two default items and their
    consents), login (with the login-activity bookkeeping), the current user, logout.
    Token signing is not part of this model; password hashing and checking are parameters. */
module AuthRoutes {
  import opened Common
  import opened Records
  import opened Collections
  import opened Text
  import opened IsoDate
  import opened Db
  import opened AuditService

  /** The user as replies show it: without the password hash. */
  datatype PublicUser = PublicUser(id: Id, email: string, name: string, createdAt: Millis)

  function Public(u: User): PublicUser { PublicUser(u.id, u.email, u.name, u.createdAt) }

  const DefaultRetentionDays: int := 365

  /** One entry of `defaultData`. */
  datatype DefaultSpec = DefaultSpec(category: DataCategory, fieldName: string, fieldValue: string, purpose: string)

  /** The items every new account starts with: its name and its email address. */
  function Defaults(name: string, email: string): (r: seq<DefaultSpec>)
    ensures |r| == 2
    ensures r[0].category == Identity && r[0].fieldName == "Full Name" && r[0].fieldValue == name
    ensures r[1].category == Contact && r[1].fieldName == "Email Address" && r[1].fieldValue == email
  {
    [DefaultSpec(Identity, "Full Name", name, "Account identification and personalization"),
     DefaultSpec(Contact, "Email Address", email, "Account login and communication")]
  }

  function DefaultItem(spec: DefaultSpec, owner: Id, id: Id, now: Millis): PersonalData
  {
    PersonalData(id, owner, spec.category, spec.fieldName, spec.fieldValue, spec.purpose,
                 "User Registration", "DataVault Inc.", now, DefaultRetentionDays, true, now)
  }

  /** The consent created with a default item: granted now, for the item's purpose,
      expiring after the item's retention period. */
  function DefaultConsent(spec: DefaultSpec, owner: Id, itemId: Id, id: Id, now: Millis): (c: Consent)
    ensures c.status == Granted && c.personalDataId == Some(itemId) && c.purpose == spec.purpose
    ensures c.expiresAt == Some(now + DefaultRetentionDays * DayMs) && TimestampsAgree(c)
  {
    Consent(id, owner, Some(itemId), spec.purpose, Granted, Some(now), None,
            Some(now + DefaultRetentionDays * DayMs), now)
  }

  /** `after` is `before` with the default items of a new account appended, and
      `cAfter` is `cBefore` with one consent per default item, tied to it. */
  ghost predicate DefaultsAdded(before: seq<PersonalData>, after: seq<PersonalData>, cBefore: seq<Consent>, cAfter: seq<Consent>,
                                owner: Id, name: string, email: string, now: Millis)
  {
    && |after| == |before| + 2 && after[..|before|] == before
    && |cAfter| == |cBefore| + 2 && cAfter[..|cBefore|] == cBefore
    && forall k :: 0 <= k < 2 ==>
      && after[|before| + k] == DefaultItem(Defaults(name, email)[k], owner, after[|before| + k].id, now)
      && cAfter[|cBefore| + k] == DefaultConsent(Defaults(name, email)[k], owner, after[|before| + k].id, cAfter[|cBefore| + k].id, now)
  }

  /** Appending a user whose id is the counter and whose email is new keeps the user
      table's invariant. */
  lemma AddUserKeepsTable(users: seq<User>, u: User, n: nat)
    requires UserTableOk(users, n) && u.id == n
    requires forall i :: 0 <= i < |users| ==> users[i].email != u.email
    ensures UserTableOk(users + [u], n + 1)
  {
  }

  /** The registration validator: a valid email, a password of at least six characters,
      and a name of at least two characters once trimmed. */
  predicate RegistrationValid(emailValid: bool, password: string, name: string)
  {
    emailValid && |password| >= 6 && |Trim(name)| >= 2
  }

  function LoginData(owner: Id, method_: string, client: Client): AuditLogData
  {
    AuditLogData(owner, Login, "User", Some(owner), Some(map["method" := Str(method_)]), IpOrNone(client), client.userAgent)
  }

  /** `POST /auth/register`. Invalid input is refused with 400; so is an email that is
      already registered, and nothing is created. Otherwise the user is created with the
      trimmed name and the hashed password, followed by exactly two items (IDENTITY "Full
      Name" and CONTACT "Email Address"), each with one GRANTED consent for its purpose
      expiring 365 days on, and one LOGIN entry with method "registration". */
  method Register(db: Store, email: string, password: string, name: string, emailValid: bool,
                  hash: string -> string, now: Millis, client: Client, auditOk: bool)
    returns (r: Reply<PublicUser>)
    requires db.Valid()
    modifies db
    ensures db.Valid()
    ensures unchanged(db`passwords, db`notes, db`files)
    ensures old(CodeStatuses(db.consents)) ==> CodeStatuses(db.consents)
    ensures !RegistrationValid(emailValid, password, name) ==>
      r == Fail(400, "Validation failed") && db.users == old(db.users) && db.items == old(db.items)
      && db.consents == old(db.consents) && db.logs == old(db.logs)
    ensures RegistrationValid(emailValid, password, name) && (exists i :: 0 <= i < |old(db.users)| && old(db.users)[i].email == email) ==>
      r == Fail(400, "Email already registered") && db.users == old(db.users) && db.items == old(db.items)
      && db.consents == old(db.consents) && db.logs == old(db.logs)
    ensures r.Ok? ==>
      && RegistrationValid(emailValid, password, name)
      && (forall i :: 0 <= i < |old(db.users)| ==> old(db.users)[i].email != email)
      && r.status == 201
      && var u := User(r.body.id, email, hash(password), Trim(name), now);
      && r.body == Public(u) && r.body.id == old(db.nextId)
      && db.users == old(db.users) + [u]
      && DefaultsAdded(old(db.items), db.items, old(db.consents), db.consents, u.id, Trim(name), email, now)
      && Appended(old(db.logs), db.logs, LoginData(u.id, "registration", client), now, auditOk)
    ensures RegistrationValid(emailValid, password, name) && (forall i :: 0 <= i < |old(db.users)| ==> old(db.users)[i].email != email) ==>
      r.Ok?
  {
    if !RegistrationValid(emailValid, password, name) {
      return Fail(400, "Validation failed");
    }
    var existing := FindFirst(db.users, (u: User) => u.email == email);
    if existing.Some? {
      return Fail(400, "Email already registered");
    }
    var u := CreateAccount(db, email, hash(password), Trim(name), now);
    CreateAuditLog(db, LoginData(u.id, "registration", client), now, auditOk);
    r := Ok(201, Public(u));
  }

  /** The creating half of registration, once the input is accepted and the email is
      known to be new: the user row, then its default items and consents. */
  method CreateAccount(db: Store, email: string, passwordHash: string, name: string, now: Millis)
    returns (u: User)
    requires db.Valid()
    requires forall i :: 0 <= i < |db.users| ==> db.users[i].email != email
    modifies db
    ensures db.Valid()
    ensures unchanged(db`logs, db`passwords, db`notes, db`files)
    ensures old(CodeStatuses(db.consents)) ==> CodeStatuses(db.consents)
    ensures u == User(old(db.nextId), email, passwordHash, name, now)
    ensures db.users == old(db.users) + [u]
    ensures DefaultsAdded(old(db.items), db.items, old(db.consents), db.consents, u.id, name, email, now)
  {
    u := User(db.nextId, email, passwordHash, name, now);
    AddUserKeepsTable(db.users, u, db.nextId);
    db.users := db.users + [u];
    db.nextId := db.nextId + 1;
    CreateDefaultPersonalData(db, u.id, email, name, now);
  }

  /** `createDefaultPersonalData`: for each default entry in turn, one item and then one
      consent tied to it. */
  method CreateDefaultPersonalData(db: Store, owner: Id, email: string, name: string, now: Millis)
    requires db.Valid()
    modifies db
    ensures db.Valid()
    ensures unchanged(db`users, db`logs, db`passwords, db`notes, db`files)
    ensures old(CodeStatuses(db.consents)) ==> CodeStatuses(db.consents)
    ensures DefaultsAdded(old(db.items), db.items, old(db.consents), db.consents, owner, name, email, now)
  {
    var defaults := Defaults(name, email);
    var items, consents, next := db.items, db.consents, db.nextId;
    ghost var items0, consents0 := items, consents;
    for i := 0 to |defaults|
      invariant unchanged(db)
      invariant next >= db.nextId
      invariant ItemTableOk(items, next) && ConsentTableOk(consents, next)
      invariant SameOwnerLinks(items, consents) && ErasedNotGranted(items, consents)
      invariant CodeStatuses(consents0) ==> CodeStatuses(consents)
      invariant DefaultsSoFar(items0, items, consents0, consents, defaults, i, owner, now)
    {
      var d := DefaultItem(defaults[i], owner, next, now);
      var c := DefaultConsent(defaults[i], owner, next, next + 1, now);
      AddLinkedPairKeepsInvariants(items, consents, d, c, next);
      DefaultsSoFarStep(items0, items, consents0, consents, defaults, i, owner, next, now);
      items, consents := items + [d], consents + [c];
      next := next + 2;
    }
    db.items, db.consents, db.nextId := items, consents, next;
  }

  /** The loop's progress: the first `i` defaults have been appended, each item followed in
      the consent table by its consent. */
  ghost predicate DefaultsSoFar(items0: seq<PersonalData>, items: seq<PersonalData>, consents0: seq<Consent>, consents: seq<Consent>,
                                defaults: seq<DefaultSpec>, i: nat, owner: Id, now: Millis)
  {
    && i <= |defaults|
    && |items| == |items0| + i && items[..|items0|] == items0
    && |consents| == |consents0| + i && consents[..|consents0|] == consents0
    && forall k :: 0 <= k < i ==>
      && items[|items0| + k] == DefaultItem(defaults[k], owner, items[|items0| + k].id, now)
      && consents[|consents0| + k] == DefaultConsent(defaults[k], owner, items[|items0| + k].id, consents[|consents0| + k].id, now)
  }

  /** One more iteration appends the next default's item and consent. */
  lemma DefaultsSoFarStep(items0: seq<PersonalData>, items: seq<PersonalData>, consents0: seq<Consent>, consents: seq<Consent>,
                          defaults: seq<DefaultSpec>, i: nat, owner: Id, next: Id, now: Millis)
    requires DefaultsSoFar(items0, items, consents0, consents, defaults, i, owner, now) && i < |defaults|
    ensures DefaultsSoFar(items0, items + [DefaultItem(defaults[i], owner, next, now)],
                          consents0, consents + [DefaultConsent(defaults[i], owner, next, next + 1, now)],
                          defaults, i + 1, owner, now)
  {
    var items', consents' := items + [DefaultItem(defaults[i], owner, next, now)], consents + [DefaultConsent(defaults[i], owner, next, next + 1, now)];
    assert items'[..|items0|] == items[..|items0|];
    assert consents'[..|consents0|] == consents[..|consents0|];
    forall k | 0 <= k < i + 1
      ensures items'[|items0| + k] == DefaultItem(defaults[k], owner, items'[|items0| + k].id, now)
      ensures consents'[|consents0| + k] == DefaultConsent(defaults[k], owner, items'[|items0| + k].id, consents'[|consents0| + k].id, now)
    {
      if k < i {
        assert items'[|items0| + k] == items[|items0| + k];
        assert consents'[|consents0| + k] == consents[|consents0| + k];
      }
    }
  }

  /** Appending a fresh active item and a consent tied to it, both of one owner and with
      ids at the counter, keeps the store's invariants. */
  lemma AddLinkedPairKeepsInvariants(items: seq<PersonalData>, consents: seq<Consent>, d: PersonalData, c: Consent, n: nat)
    requires ItemTableOk(items, n) && ConsentTableOk(consents, n)
    requires SameOwnerLinks(items, consents) && ErasedNotGranted(items, consents)
    requires d.id == n && d.isActive && c.id == n + 1 && c.personalDataId == Some(n) && c.userId == d.userId
    requires TimestampsAgree(c)
    ensures ItemTableOk(items + [d], n + 2) && ConsentTableOk(consents + [c], n + 2)
    ensures SameOwnerLinks(items + [d], consents + [c]) && ErasedNotGranted(items + [d], consents + [c])
  {
    var its, cs := items + [d], consents + [c];
    forall i, j | 0 <= i < |cs| && 0 <= j < |its| && cs[i].personalDataId == Some(its[j].id)
      ensures its[j].userId == cs[i].userId
    {
    }
  }

  /** `findFirst` of the caller's ACTIVITY item with the given field name, erased or not. */
  function FindActivity(items: seq<PersonalData>, owner: Id, fieldName: string): (r: Option<nat>)
    ensures r.Some? ==> r.value < |items| && IsActivity(items[r.value], owner, fieldName)
    ensures r.Some? ==> forall i :: 0 <= i < r.value ==> !IsActivity(items[i], owner, fieldName)
    ensures r.None? ==> forall i :: 0 <= i < |items| ==> !IsActivity(items[i], owner, fieldName)
  {
    FindFirst(items, (d: PersonalData) => IsActivity(d, owner, fieldName))
  }

  predicate IsActivity(d: PersonalData, owner: Id, fieldName: string)
  {
    d.userId == owner && d.category == Activity && d.fieldName == fieldName
  }

  /** Position `i` holds the caller's first ACTIVITY item with the given field name. */
  ghost predicate FirstActivity(items: seq<PersonalData>, i: int, owner: Id, fieldName: string)
  {
    0 <= i < |items| && IsActivity(items[i], owner, fieldName) && forall j :: 0 <= j < i ==> !IsActivity(items[j], owner, fieldName)
  }

  /** `req.ip || req.headers['x-forwarded-for'] || 'Unknown'`. */
  function ClientAddress(client: Client): (s: string)
    ensures Present(client.ip) ==> s == client.ip.value
    ensures !Present(client.ip) && Present(client.forwardedFor) ==> s == client.forwardedFor.value
    ensures !Present(client.ip) && !Present(client.forwardedFor) ==> s == "Unknown"
  {
    if Present(client.ip) then client.ip.value
    else if Present(client.forwardedFor) then client.forwardedFor.value
    else "Unknown"
  }

  /** The "Last Login" item a first login creates. */
  function LastLoginItem(owner: Id, id: Id, now: Millis): (d: PersonalData)
    ensures d.id == id && d.isActive && IsActivity(d, owner, "Last Login") && !IsActivity(d, owner, "IP Address")
    ensures d.fieldValue == ToIsoString(now) && d.collectedAt == now && d.retentionDays == 30
  {
    assert "Last Login"[0] != "IP Address"[0];
    PersonalData(id, owner, Activity, "Last Login", ToIsoString(now),
                 "Security monitoring and session management", "System Generated", "DataVault Inc.",
                 now, 30, true, now)
  }

  /** The number of the caller's ACTIVITY items with the given field name. */
  function ActivityCount(items: seq<PersonalData>, owner: Id, fieldName: string): nat
  {
    |Filter(items, (d: PersonalData) => IsActivity(d, owner, fieldName))|
  }

  lemma ActivityCountAppend(items: seq<PersonalData>, d: PersonalData, owner: Id, fieldName: string)
    ensures ActivityCount(items + [d], owner, fieldName) == ActivityCount(items, owner, fieldName) + (if IsActivity(d, owner, fieldName) then 1 else 0)
  {
    var p := (e: PersonalData) => IsActivity(e, owner, fieldName);
    FilterAppend(items, [d], p);
    assert [d][..0] == [];
  }

  /** Rewriting an item so that it is a match exactly when it was keeps the count. */
  lemma ActivityCountUpdate(items: seq<PersonalData>, k: nat, d: PersonalData, owner: Id, fieldName: string)
    requires k < |items| && IsActivity(d, owner, fieldName) == IsActivity(items[k], owner, fieldName)
    ensures ActivityCount(items[k := d], owner, fieldName) == ActivityCount(items, owner, fieldName)
  {
    FilterUpdateLength(items, k, d, (e: PersonalData) => IsActivity(e, owner, fieldName));
  }

  /** The item table after the first half of `updateLoginActivity`: the caller's first
      "Last Login" item (active or not) takes the login time, or a new one is appended with
      the next id when there is none. */
  function WithLastLogin(items: seq<PersonalData>, owner: Id, next: Id, now: Millis): (r: seq<PersonalData>)
    ensures |r| == |items| + (if FindActivity(items, owner, "Last Login").None? then 1 else 0)
    ensures forall i :: 0 <= i < |items| ==> r[i] == items[i] || (FirstActivity(items, i, owner, "Last Login") && r[i] == items[i].(fieldValue := ToIsoString(now)))
    ensures (exists i :: 0 <= i < |items| && IsActivity(items[i], owner, "Last Login")) ==>
      exists i :: 0 <= i < |items| && FirstActivity(items, i, owner, "Last Login") && r[i].fieldValue == ToIsoString(now)
    ensures (forall i :: 0 <= i < |items| ==> !IsActivity(items[i], owner, "Last Login")) ==> r == items + [LastLoginItem(owner, next, now)]
  {
    match FindActivity(items, owner, "Last Login")
    case Some(k) => items[k := items[k].(fieldValue := ToIsoString(now))]
    case None => items + [LastLoginItem(owner, next, now)]
  }

  /** The item table after the second half: the caller's first "IP Address" item, if there
      is one, takes the client's address; none is ever created. */
  function WithIpAddress(items: seq<PersonalData>, owner: Id, address: string): (r: seq<PersonalData>)
    ensures |r| == |items|
    ensures forall i :: 0 <= i < |items| ==> r[i] == items[i] || (FirstActivity(items, i, owner, "IP Address") && r[i] == items[i].(fieldValue := address))
    ensures (exists i :: 0 <= i < |items| && IsActivity(items[i], owner, "IP Address")) ==>
      exists i :: 0 <= i < |items| && FirstActivity(items, i, owner, "IP Address") && r[i].fieldValue == address
    ensures (forall i :: 0 <= i < |items| ==> !IsActivity(items[i], owner, "IP Address")) ==> r == items
  {
    match FindActivity(items, owner, "IP Address")
    case Some(k) => items[k := items[k].(fieldValue := address)]
    case None => items
  }

  /** `updateLoginActivity`: both halves in turn; a new "Last Login" item takes the next id. */
  method UpdateLoginActivity(db: Store, owner: Id, now: Millis, client: Client)
    requires db.Valid()
    modifies db
    ensures db.Valid()
    ensures unchanged(db`users, db`consents, db`logs, db`passwords, db`notes, db`files)
    ensures db.items == WithIpAddress(WithLastLogin(old(db.items), owner, old(db.nextId), now), owner, ClientAddress(client))
    ensures db.nextId == old(db.nextId) + (if FindActivity(old(db.items), owner, "Last Login").None? then 1 else 0)
  {
    UpsertLastLogin(db, owner, now);
    UpdateIpAddress(db, owner, ClientAddress(client));
  }

  method UpsertLastLogin(db: Store, owner: Id, now: Millis)
    requires db.Valid()
    modifies db
    ensures db.Valid()
    ensures unchanged(db`users, db`consents, db`logs, db`passwords, db`notes, db`files)
    ensures db.items == WithLastLogin(old(db.items), owner, old(db.nextId), now)
    ensures db.nextId == old(db.nextId) + (if FindActivity(old(db.items), owner, "Last Login").None? then 1 else 0)
  {
    var last := FindActivity(db.items, owner, "Last Login");
    if last.Some? {
      RewriteItem(db, last.value, db.items[last.value].(fieldValue := ToIsoString(now)));
    } else {
      AddActiveItem(db, LastLoginItem(owner, db.nextId, now));
    }
  }

  method UpdateIpAddress(db: Store, owner: Id, address: string)
    requires db.Valid()
    modifies db
    ensures db.Valid()
    ensures unchanged(db`users, db`consents, db`logs, db`passwords, db`notes, db`files, db`nextId)
    ensures db.items == WithIpAddress(old(db.items), owner, address)
  {
    var ipItem := FindActivity(db.items, owner, "IP Address");
    if ipItem.Some? {
      RewriteItem(db, ipItem.value, db.items[ipItem.value].(fieldValue := address));
    }
  }

  /** Rewrites the item at `k` with `d`, which keeps its id, owner and activity. */
  method RewriteItem(db: Store, k: nat, d: PersonalData)
    requires db.Valid() && k < |db.items|
    requires d.id == db.items[k].id && d.userId == db.items[k].userId && d.isActive == db.items[k].isActive
    modifies db
    ensures db.Valid()
    ensures unchanged(db`users, db`consents, db`logs, db`passwords, db`notes, db`files, db`nextId)
    ensures db.items == old(db.items)[k := d]
  {
    ItemUpdateKeepsInvariants(db.items, db.consents, k, d, db.nextId);
    db.items := db.items[k := d];
  }

  /** Appends an active item that takes the next id. */
  method AddActiveItem(db: Store, d: PersonalData)
    requires db.Valid() && d.id == db.nextId && d.isActive
    modifies db
    ensures db.Valid()
    ensures unchanged(db`users, db`consents, db`logs, db`passwords, db`notes, db`files)
    ensures db.items == old(db.items) + [d] && db.nextId == old(db.nextId) + 1
  {
    ItemAppendKeepsInvariants(db.items, db.consents, d, db.nextId);
    RaiseCounter(db.users, db.passwords, db.notes, db.files, db.nextId, db.nextId + 1);
    db.items, db.nextId := db.items + [d], db.nextId + 1;
  }

  /** The first half leaves exactly one "Last Login" item behind it when there was none and
      as many as before otherwise, so repeated logins never add a second one; it changes no
      "IP Address" item and no item that is not a "Last Login" item. */
  lemma LastLoginCounts(items: seq<PersonalData>, owner: Id, next: Id, now: Millis)
    ensures var r := WithLastLogin(items, owner, next, now);
      && ActivityCount(r, owner, "Last Login") == (if ActivityCount(items, owner, "Last Login") == 0 then 1 else ActivityCount(items, owner, "Last Login"))
      && ActivityCount(r, owner, "IP Address") == ActivityCount(items, owner, "IP Address")
      && FindActivity(r, owner, "IP Address") == FindActivity(items, owner, "IP Address")
      && (forall i :: 0 <= i < |items| && !IsActivity(items[i], owner, "Last Login") ==> r[i] == items[i])
  {
    ActivityCountFound(items, owner, "Last Login");
    match FindActivity(items, owner, "Last Login")
    case Some(k) =>
      var d := items[k].(fieldValue := ToIsoString(now));
      ActivityCountUpdate(items, k, d, owner, "Last Login");
      ActivityCountUpdate(items, k, d, owner, "IP Address");
      FindAfterUpdate(items, k, d, owner, "IP Address");
    case None =>
      var d := LastLoginItem(owner, next, now);
      assert !IsActivity(d, owner, "IP Address") by { assert d.fieldName[0] != "IP Address"[0]; }
      ActivityCountAppend(items, d, owner, "Last Login");
      ActivityCountAppend(items, d, owner, "IP Address");
      FindAfterAppend(items, d, owner, "IP Address");
  }

  /** The second half keeps both counts and changes no item but the "IP Address" one. */
  lemma IpAddressCounts(items: seq<PersonalData>, owner: Id, address: string)
    ensures var r := WithIpAddress(items, owner, address);
      && ActivityCount(r, owner, "Last Login") == ActivityCount(items, owner, "Last Login")
      && ActivityCount(r, owner, "IP Address") == ActivityCount(items, owner, "IP Address")
      && (forall i :: 0 <= i < |items| && !IsActivity(items[i], owner, "IP Address") ==> r[i] == items[i])
  {
    match FindActivity(items, owner, "IP Address")
    case Some(k) =>
      var d := items[k].(fieldValue := address);
      ActivityCountUpdate(items, k, d, owner, "Last Login");
      ActivityCountUpdate(items, k, d, owner, "IP Address");
    case None =>
  }

  /** What a login does to the item table: afterwards the caller has exactly one "Last
      Login" item if they had none, and otherwise as many as before, holding the login time
      in the first one; the first "IP Address" item, if any, holds the client's address, and
      none is created; every other item is left as it was. */
  lemma LoginActivityEffect(items: seq<PersonalData>, owner: Id, next: Id, now: Millis, address: string)
    ensures var mid := WithLastLogin(items, owner, next, now);
      var r := WithIpAddress(mid, owner, address);
      && |r| >= |items|
      && ActivityCount(r, owner, "Last Login") == (if ActivityCount(items, owner, "Last Login") == 0 then 1 else ActivityCount(items, owner, "Last Login"))
      && ActivityCount(r, owner, "IP Address") == ActivityCount(items, owner, "IP Address")
      && (FindActivity(items, owner, "Last Login").Some? ==> r[FindActivity(items, owner, "Last Login").value].fieldValue == ToIsoString(now))
      && (FindActivity(items, owner, "IP Address").Some? ==> r[FindActivity(items, owner, "IP Address").value].fieldValue == address)
      && (forall i :: 0 <= i < |items| && !IsActivity(items[i], owner, "Last Login") && !IsActivity(items[i], owner, "IP Address") ==> r[i] == items[i])
  {
    var mid := WithLastLogin(items, owner, next, now);
    LastLoginCounts(items, owner, next, now);
    IpAddressCounts(mid, owner, address);
    var l := FindActivity(items, owner, "Last Login");
    if l.Some? {
      var k := l.value;
      assert "Last Login"[0] != "IP Address"[0];
      assert !IsActivity(mid[k], owner, "IP Address");
    }
  }

  /** The count of matches is zero exactly when the search finds none. */
  lemma ActivityCountFound(items: seq<PersonalData>, owner: Id, fieldName: string)
    ensures ActivityCount(items, owner, fieldName) == 0 <==> FindActivity(items, owner, fieldName).None?
  {
    var matches := Filter(items, (d: PersonalData) => IsActivity(d, owner, fieldName));
    var f := FindActivity(items, owner, fieldName);
    if f.Some? {
      assert items[f.value] in matches;
    }
    if matches != [] {
      assert IsActivity(matches[0], owner, fieldName);
    }
  }

  /** Rewriting an item so that it is a match exactly when it was leaves the first
      match where it was. */
  lemma FindAfterUpdate(items: seq<PersonalData>, k: nat, d: PersonalData, owner: Id, fieldName: string)
    requires k < |items| && IsActivity(d, owner, fieldName) == IsActivity(items[k], owner, fieldName)
    ensures FindActivity(items[k := d], owner, fieldName) == FindActivity(items, owner, fieldName)
  {
    var a, b := FindActivity(items, owner, fieldName), FindActivity(items[k := d], owner, fieldName);
    if a.Some? {
      assert IsActivity(items[k := d][a.value], owner, fieldName);
    }
    if b.Some? {
      assert IsActivity(items[b.value], owner, fieldName);
    }
  }

  /** Appending an item that is not a match leaves the first match where it was. */
  lemma FindAfterAppend(items: seq<PersonalData>, d: PersonalData, owner: Id, fieldName: string)
    requires !IsActivity(d, owner, fieldName)
    ensures FindActivity(items + [d], owner, fieldName) == FindActivity(items, owner, fieldName)
  {
    var a, b := FindActivity(items, owner, fieldName), FindActivity(items + [d], owner, fieldName);
    if a.Some? {
      assert IsActivity((items + [d])[a.value], owner, fieldName);
    }
    if b.Some? {
      assert IsActivity(items[b.value], owner, fieldName);
    }
  }

  /** `POST /auth/login`. A malformed email or a missing password is refused with 400. An
      unknown email and a wrong password get the same 401 "Invalid credentials" and change
      nothing. On success the login activity is recorded and one LOGIN entry with method
      "password" is logged. */
  method LoginUser(db: Store, email: string, password: Option<string>, emailValid: bool,
                   verify: (string, string) -> bool, now: Millis, client: Client, auditOk: bool)
    returns (r: Reply<PublicUser>)
    requires db.Valid()
    modifies db
    ensures db.Valid()
    ensures unchanged(db`users, db`consents, db`passwords, db`notes, db`files)
    ensures !emailValid || password.None? ==>
      r == Fail(400, "Validation failed") && db.items == old(db.items) && db.logs == old(db.logs)
    ensures emailValid && password.Some? ==>
      var u := FindFirst(db.users, (x: User) => x.email == email);
      && (u.None? || !verify(password.value, db.users[u.value].passwordHash) <==> r.Fail?)
      && (r.Fail? ==> r == Fail(401, "Invalid credentials") && db.items == old(db.items) && db.logs == old(db.logs))
      && (r.Ok? ==> (r == Ok(200, Public(db.users[u.value]))
            && db.items == WithIpAddress(WithLastLogin(old(db.items), r.body.id, old(db.nextId), now), r.body.id, ClientAddress(client))
            && Appended(old(db.logs), db.logs, LoginData(r.body.id, "password", client), now, auditOk)))
  {
    if !emailValid || password.None? {
      return Fail(400, "Validation failed");
    }
    var found := FindFirst(db.users, (x: User) => x.email == email);
    if found.None? {
      return Fail(401, "Invalid credentials");
    }
    var u := db.users[found.value];
    if !verify(password.value, u.passwordHash) {
      return Fail(401, "Invalid credentials");
    }
    UpdateLoginActivity(db, u.id, now, client);
    CreateAuditLog(db, LoginData(u.id, "password", client), now, auditOk);
    r := Ok(200, Public(u));
  }

  /** The reply of `GET /auth/me`: the user with the number of items and consents held. */
  datatype Me = Me(user: PublicUser, personalData: nat, consents: nat)

  /** `GET /auth/me`: counts every item and consent of the caller, erased items included;
      404 when the account does not exist. */
  function CurrentUser(users: seq<User>, items: seq<PersonalData>, consents: seq<Consent>, owner: Id): (r: Reply<Me>)
    ensures r.Fail? <==> forall i :: 0 <= i < |users| ==> users[i].id != owner
    ensures r.Fail? ==> r == Fail(404, "User not found")
    ensures r.Ok? ==> (r.body.user.id == owner && r.body.personalData == |OwnedItems(items, owner)| &&
      r.body.consents == |OwnedConsents(consents, owner)|)
  {
    match FindFirst(users, (u: User) => u.id == owner)
    case None => Fail(404, "User not found")
    case Some(k) => Ok(200, Me(Public(users[k]), |OwnedItems(items, owner)|, |OwnedConsents(consents, owner)|))
  }

  /** `POST /auth/logout`: only logs one LOGOUT entry. */
  method LogoutUser(db: Store, owner: Id, now: Millis, client: Client, auditOk: bool) returns (r: Reply<string>)
    requires db.Valid()
    modifies db
    ensures db.Valid()
    ensures unchanged(db`users, db`items, db`consents, db`passwords, db`notes, db`files)
    ensures r == Ok(200, "Logged out successfully")
    ensures Appended(old(db.logs), db.logs, AuditLogData(owner, Logout, "User", Some(owner), None, IpOrNone(client), client.userAgent), now, auditOk)
  {
    CreateAuditLog(db, AuditLogData(owner, Logout, "User", Some(owner), None, IpOrNone(client), client.userAgent), now, auditOk);
    r := Ok(200, "Logged out successfully");
  }
}
