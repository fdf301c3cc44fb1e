/** The database the handlers share (`req.app.locals.prisma`): one table per record kind,
    each a sequence in insertion order, and the counter that hands out identifiers. */
module Db {
  import opened Common
  import opened Records
  import opened Collections

  ghost predicate UserTableOk(s: seq<User>, n: nat)
  {
    && (forall i :: 0 <= i < |s| ==> s[i].id < n)
    && (forall i, j :: 0 <= i < j < |s| ==> s[i].id != s[j].id && s[i].email != s[j].email)
  }

  ghost predicate ItemTableOk(s: seq<PersonalData>, n: nat)
  {
    && (forall i :: 0 <= i < |s| ==> s[i].id < n)
    && (forall i, j :: 0 <= i < j < |s| ==> s[i].id != s[j].id)
  }

  /** The timestamps agree with the status: a granted consent carries `grantedAt` and no
      `withdrawnAt`, a withdrawn one carries `withdrawnAt`. */
  ghost predicate TimestampsAgree(c: Consent)
  {
    && (c.status == Granted ==> c.grantedAt.Some? && c.withdrawnAt.None?)
    && (c.status == Withdrawn ==> c.withdrawnAt.Some?)
  }

  ghost predicate ConsentTableOk(s: seq<Consent>, n: nat)
  {
    && (forall i :: 0 <= i < |s| ==> s[i].id < n)
    && (forall i :: 0 <= i < |s| && s[i].personalDataId.Some? ==> s[i].personalDataId.value < n)
    && (forall i, j :: 0 <= i < j < |s| ==> s[i].id != s[j].id)
    && (forall i :: 0 <= i < |s| ==> TimestampsAgree(s[i]))
  }

  /** A consent tied to an item belongs to the item's owner. */
  ghost predicate SameOwnerLinks(items: seq<PersonalData>, consents: seq<Consent>)
  {
    forall i, j :: 0 <= i < |consents| && 0 <= j < |items| && consents[i].personalDataId == Some(items[j].id)
      ==> items[j].userId == consents[i].userId
  }

  /** The erasure invariant: no granted consent refers to an erased (inactive) item. */
  ghost predicate ErasedNotGranted(items: seq<PersonalData>, consents: seq<Consent>)
  {
    forall i, j :: 0 <= i < |consents| && 0 <= j < |items|
      && consents[i].status == Granted && consents[i].personalDataId == Some(items[j].id)
      ==> items[j].isActive
  }

  ghost predicate PasswordTableOk(s: seq<PasswordEntry>, n: nat)
  {
    && (forall i :: 0 <= i < |s| ==> s[i].id < n)
    && (forall i, j :: 0 <= i < j < |s| ==> s[i].id != s[j].id)
  }

  ghost predicate NoteTableOk(s: seq<SecureNote>, n: nat)
  {
    && (forall i :: 0 <= i < |s| ==> s[i].id < n)
    && (forall i, j :: 0 <= i < j < |s| ==> s[i].id != s[j].id)
  }

  ghost predicate FileTableOk(s: seq<SecureFile>, n: nat)
  {
    && (forall i :: 0 <= i < |s| ==> s[i].id < n)
    && (forall i, j :: 0 <= i < j < |s| ==> s[i].id != s[j].id)
  }

  /** Only the values the handlers write: every consent is GRANTED or WITHDRAWN. */
  ghost predicate CodeStatuses(consents: seq<Consent>)
  {
    forall i :: 0 <= i < |consents| ==> consents[i].status == Granted || consents[i].status == Withdrawn
  }

  class Store {
    var users: seq<User>
    var items: seq<PersonalData>
    var consents: seq<Consent>
    var logs: seq<AuditEntry>
    var passwords: seq<PasswordEntry>
    var notes: seq<SecureNote>
    var files: seq<SecureFile>
    /** Every identifier handed out so far is below this. */
    var nextId: nat

    ghost predicate Valid()
      reads this
    {
      && UserTableOk(users, nextId)
      && ItemTableOk(items, nextId)
      && ConsentTableOk(consents, nextId)
      && SameOwnerLinks(items, consents)
      && ErasedNotGranted(items, consents)
      && PasswordTableOk(passwords, nextId)
      && NoteTableOk(notes, nextId)
      && FileTableOk(files, nextId)
    }

    /** An empty database. */
    constructor()
      ensures Valid()
      ensures users == [] && items == [] && consents == [] && logs == []
      ensures passwords == [] && notes == [] && files == [] && nextId == 0
    {
      users, items, consents, logs := [], [], [], [];
      passwords, notes, files := [], [], [];
      nextId := 0;
    }
  }

  /** Raising the counter keeps the tables a handler does not touch valid. */
  lemma RaiseCounter(users: seq<User>, passwords: seq<PasswordEntry>, notes: seq<SecureNote>, files: seq<SecureFile>, n: nat, m: nat)
    requires n <= m
    requires UserTableOk(users, n) && PasswordTableOk(passwords, n) && NoteTableOk(notes, n) && FileTableOk(files, n)
    ensures UserTableOk(users, m) && PasswordTableOk(passwords, m) && NoteTableOk(notes, m) && FileTableOk(files, m)
  {
  }

  /** Rewriting an item's other columns (same id, owner and activity) keeps the
      invariants that tie items to consents. */
  lemma ItemUpdateKeepsInvariants(items: seq<PersonalData>, consents: seq<Consent>, k: nat, d: PersonalData, n: nat)
    requires k < |items| && d.id == items[k].id && d.userId == items[k].userId && d.isActive == items[k].isActive
    requires ItemTableOk(items, n) && SameOwnerLinks(items, consents) && ErasedNotGranted(items, consents)
    ensures ItemTableOk(items[k := d], n) && SameOwnerLinks(items[k := d], consents) && ErasedNotGranted(items[k := d], consents)
  {
  }

  /** Appending an active item whose id is the counter keeps the invariants that tie items
      to consents: no consent refers to it yet. */
  lemma ItemAppendKeepsInvariants(items: seq<PersonalData>, consents: seq<Consent>, d: PersonalData, n: nat)
    requires d.id == n && d.isActive
    requires ItemTableOk(items, n) && ConsentTableOk(consents, n)
    requires SameOwnerLinks(items, consents) && ErasedNotGranted(items, consents)
    ensures ItemTableOk(items + [d], n + 1) && ConsentTableOk(consents, n + 1)
    ensures SameOwnerLinks(items + [d], consents) && ErasedNotGranted(items + [d], consents)
  {
    var its := items + [d];
    forall i, j | 0 <= i < |consents| && 0 <= j < |its| && consents[i].personalDataId == Some(its[j].id)
      ensures its[j].userId == consents[i].userId
    {
    }
  }

  /** `findFirst({ where: { id, userId } })` on the personal-data table: no `isActive`
      filter. */
  function FindItem(items: seq<PersonalData>, owner: Id, id: Id): (r: Option<nat>)
    ensures r.Some? ==> r.value < |items| && items[r.value].id == id && items[r.value].userId == owner
    ensures r.None? ==> forall i :: 0 <= i < |items| ==> !(items[i].id == id && items[i].userId == owner)
  {
    FindFirst(items, (d: PersonalData) => d.id == id && d.userId == owner)
  }

  /** `findFirst({ where: { id, userId } })` on the consent table. */
  function FindConsent(consents: seq<Consent>, owner: Id, id: Id): (r: Option<nat>)
    ensures r.Some? ==> r.value < |consents| && consents[r.value].id == id && consents[r.value].userId == owner
    ensures r.None? ==> forall i :: 0 <= i < |consents| ==> !(consents[i].id == id && consents[i].userId == owner)
  {
    FindFirst(consents, (c: Consent) => c.id == id && c.userId == owner)
  }

  /** The item a consent refers to (Prisma's `include: { personalData }`), if any. */
  function LinkedItem(items: seq<PersonalData>, c: Consent): (r: Option<nat>)
    ensures r.Some? ==> r.value < |items| && c.personalDataId == Some(items[r.value].id)
    ensures r.None? ==> forall j :: 0 <= j < |items| ==> c.personalDataId != Some(items[j].id)
  {
    FindFirst(items, (d: PersonalData) => c.personalDataId == Some(d.id))
  }

  /** The personal-data items of one user, in table order. */
  function OwnedItems(items: seq<PersonalData>, owner: Id): (r: seq<PersonalData>)
    ensures forall i :: 0 <= i < |r| ==> r[i] in items && r[i].userId == owner
    ensures forall i :: 0 <= i < |items| && items[i].userId == owner ==> items[i] in r
  {
    Filter(items, (d: PersonalData) => d.userId == owner)
  }

  /** The consents of one user, in table order. */
  function OwnedConsents(consents: seq<Consent>, owner: Id): (r: seq<Consent>)
    ensures forall i :: 0 <= i < |r| ==> r[i] in consents && r[i].userId == owner
    ensures forall i :: 0 <= i < |consents| && consents[i].userId == owner ==> consents[i] in r
  {
    Filter(consents, (c: Consent) => c.userId == owner)
  }

  /** The audit entries of one user, in table order. */
  function OwnedLogs(logs: seq<AuditEntry>, owner: Id): (r: seq<AuditEntry>)
    ensures forall i :: 0 <= i < |r| ==> r[i] in logs && r[i].userId == owner
    ensures forall i :: 0 <= i < |logs| && logs[i].userId == owner ==> logs[i] in r
  {
    Filter(logs, (e: AuditEntry) => e.userId == owner)
  }

  /** A consent after `{ status: 'WITHDRAWN', withdrawnAt: now }` is applied to it. */
  function AsWithdrawn(c: Consent, now: Millis): (r: Consent)
    ensures r.status == Withdrawn && r.withdrawnAt == Some(now) && TimestampsAgree(r)
    ensures r.id == c.id && r.userId == c.userId && r.personalDataId == c.personalDataId
    ensures r.grantedAt == c.grantedAt && r.purpose == c.purpose && r.expiresAt == c.expiresAt
  {
    c.(status := Withdrawn, withdrawnAt := Some(now))
  }

  /** The consent table after a bulk withdrawal of the consents `p` selects. */
  function WithdrawWhere(s: seq<Consent>, p: Consent -> bool, now: Millis): (r: seq<Consent>)
    ensures |r| == |s|
    ensures forall i :: 0 <= i < |s| && p(s[i]) ==> r[i].status == Withdrawn && r[i].withdrawnAt == Some(now)
    ensures forall i :: 0 <= i < |s| ==> r[i].id == s[i].id && r[i].userId == s[i].userId && r[i].personalDataId == s[i].personalDataId
    ensures forall i :: 0 <= i < |s| && !p(s[i]) ==> r[i] == s[i]
  {
    seq(|s|, i requires 0 <= i < |s| => if p(s[i]) then AsWithdrawn(s[i], now) else s[i])
  }

  /** A bulk withdrawal never breaks the table's invariants, nor the erasure invariant:
      it only turns consents into WITHDRAWN ones. */
  lemma {:induction false} WithdrawWhereKeepsInvariants(items: seq<PersonalData>, s: seq<Consent>, p: Consent -> bool, now: Millis, n: nat)
    requires ConsentTableOk(s, n) && SameOwnerLinks(items, s) && ErasedNotGranted(items, s)
    ensures var r := WithdrawWhere(s, p, now);
      ConsentTableOk(r, n) && SameOwnerLinks(items, r) && ErasedNotGranted(items, r)
  {
    var r := WithdrawWhere(s, p, now);
    forall i, j | 0 <= i < |r| && 0 <= j < |items| && r[i].status == Granted && r[i].personalDataId == Some(items[j].id)
      ensures items[j].isActive
    {
      assert !p(s[i]);
    }
    forall i | 0 <= i < |r|
      ensures TimestampsAgree(r[i])
    {
      if p(s[i]) {
        assert r[i] == AsWithdrawn(s[i], now);
      }
    }
  }

  /** `prisma.consent.updateMany({ where: p, data: { status: 'WITHDRAWN', withdrawnAt } })`:
      withdraws, one row at a time, every consent `p` selects and counts them. */
  method WithdrawConsents(db: Store, p: Consent -> bool, now: Millis) returns (count: nat)
    modifies db
    ensures db.consents == WithdrawWhere(old(db.consents), p, now)
    ensures count == |Filter(old(db.consents), p)|
    ensures unchanged(db`users, db`items, db`logs, db`passwords, db`notes, db`files, db`nextId)
  {
    var s := db.consents;
    var cs := s;
    count := 0;
    for i := 0 to |s|
      invariant |cs| == |s|
      invariant forall j :: 0 <= j < i ==> cs[j] == (if p(s[j]) then AsWithdrawn(s[j], now) else s[j])
      invariant forall j :: i <= j < |s| ==> cs[j] == s[j]
      invariant count == |Filter(s[..i], p)|
    {
      assert s[..i + 1][..i] == s[..i];
      if p(cs[i]) {
        cs := cs[i := AsWithdrawn(cs[i], now)];
        count := count + 1;
      }
    }
    assert s[..|s|] == s;
    db.consents := cs;
  }

  /** The item table after `updateMany({ where: p, data: { isActive: false } })`. */
  function DeactivateWhere(s: seq<PersonalData>, p: PersonalData -> bool): (r: seq<PersonalData>)
    ensures |r| == |s|
    ensures forall i :: 0 <= i < |s| && p(s[i]) ==> r[i] == s[i].(isActive := false)
    ensures forall i :: 0 <= i < |s| && !p(s[i]) ==> r[i] == s[i]
  {
    seq(|s|, i requires 0 <= i < |s| => if p(s[i]) then s[i].(isActive := false) else s[i])
  }

  /** `prisma.personalData.updateMany({ where: p, data: { isActive: false } })`, one row at
      a time. */
  method DeactivateItems(db: Store, p: PersonalData -> bool)
    modifies db
    ensures db.items == DeactivateWhere(old(db.items), p)
    ensures unchanged(db`users, db`consents, db`logs, db`passwords, db`notes, db`files, db`nextId)
  {
    var s := db.items;
    var ds := s;
    for i := 0 to |s|
      invariant |ds| == |s|
      invariant forall j :: 0 <= j < i ==> ds[j] == (if p(s[j]) then s[j].(isActive := false) else s[j])
      invariant forall j :: i <= j < |s| ==> ds[j] == s[j]
    {
      if p(ds[i]) {
        ds := ds[i := ds[i].(isActive := false)];
      }
    }
    db.items := ds;
  }

  /** Raising the counter keeps every table valid: identifiers stay below it. */
  lemma RaiseAll(db: Store, m: nat)
    requires db.Valid() && db.nextId <= m
    ensures UserTableOk(db.users, m) && ItemTableOk(db.items, m) && ConsentTableOk(db.consents, m)
    ensures PasswordTableOk(db.passwords, m) && NoteTableOk(db.notes, m) && FileTableOk(db.files, m)
  {
  }

  /** `passwordEntry.create`: the new row takes the next identifier. */
  method AddPassword(db: Store, e: PasswordEntry)
    requires db.Valid() && e.id == db.nextId
    modifies db
    ensures db.Valid()
    ensures db.passwords == old(db.passwords) + [e] && db.nextId == old(db.nextId) + 1
    ensures unchanged(db`users, db`items, db`consents, db`logs, db`notes, db`files)
  {
    RaiseAll(db, db.nextId + 1);
    db.passwords, db.nextId := db.passwords + [e], db.nextId + 1;
  }

  /** `passwordEntry.update` of the row at `k`: its identifier never changes. */
  method SetPassword(db: Store, k: nat, e: PasswordEntry)
    requires db.Valid() && k < |db.passwords| && e.id == db.passwords[k].id
    modifies db
    ensures db.Valid()
    ensures db.passwords == old(db.passwords)[k := e]
    ensures unchanged(db`users, db`items, db`consents, db`logs, db`notes, db`files, db`nextId)
  {
    db.passwords := db.passwords[k := e];
  }

  /** `secureNote.create`. */
  method AddNote(db: Store, n: SecureNote)
    requires db.Valid() && n.id == db.nextId
    modifies db
    ensures db.Valid()
    ensures db.notes == old(db.notes) + [n] && db.nextId == old(db.nextId) + 1
    ensures unchanged(db`users, db`items, db`consents, db`logs, db`passwords, db`files)
  {
    RaiseAll(db, db.nextId + 1);
    db.notes, db.nextId := db.notes + [n], db.nextId + 1;
  }

  /** `secureNote.update` of the row at `k`. */
  method SetNote(db: Store, k: nat, n: SecureNote)
    requires db.Valid() && k < |db.notes| && n.id == db.notes[k].id
    modifies db
    ensures db.Valid()
    ensures db.notes == old(db.notes)[k := n]
    ensures unchanged(db`users, db`items, db`consents, db`logs, db`passwords, db`files, db`nextId)
  {
    db.notes := db.notes[k := n];
  }

  /** `secureFile.create`. */
  method AddFile(db: Store, f: SecureFile)
    requires db.Valid() && f.id == db.nextId
    modifies db
    ensures db.Valid()
    ensures db.files == old(db.files) + [f] && db.nextId == old(db.nextId) + 1
    ensures unchanged(db`users, db`items, db`consents, db`logs, db`passwords, db`notes)
  {
    RaiseAll(db, db.nextId + 1);
    db.files, db.nextId := db.files + [f], db.nextId + 1;
  }

  /** `secureFile.update` of the row at `k`. */
  method SetFile(db: Store, k: nat, f: SecureFile)
    requires db.Valid() && k < |db.files| && f.id == db.files[k].id
    modifies db
    ensures db.Valid()
    ensures db.files == old(db.files)[k := f]
    ensures unchanged(db`users, db`items, db`consents, db`logs, db`passwords, db`notes, db`nextId)
  {
    db.files := db.files[k := f];
  }
}
