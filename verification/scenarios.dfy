/** Request sequences that the handlers' contracts, taken together, decide: what a second
    request sees of the first one's effect. */
module Scenarios {
  import opened Common
  import opened Records
  import opened Db
  import ConsentRoutes
  import PasswordRoutes
  import NoteRoutes
  import Codec

  /** Withdrawing a consent twice: the first request withdraws it, the second is refused
      as already withdrawn and changes nothing more. */
  method WithdrawTwice(db: Store, owner: Id, id: Id, first: Millis, second: Millis, client: Client, auditOk: bool)
    returns (r1: Reply<ConsentRoutes.ConsentWithItem>, r2: Reply<ConsentRoutes.ConsentWithItem>)
    requires db.Valid()
    requires FindConsent(db.consents, owner, id).Some?
    requires db.consents[FindConsent(db.consents, owner, id).value].status != Withdrawn
    modifies db
    ensures db.Valid()
    ensures r1.Ok? && r1.body.consent.status == Withdrawn && r1.body.consent.withdrawnAt == Some(first)
    ensures r2 == Fail(400, "Consent already withdrawn")
  {
    var k := FindConsent(db.consents, owner, id).value;
    r1 := ConsentRoutes.Withdraw(db, owner, id, first, client, auditOk);
    assert db.consents[k].id == id && db.consents[k].userId == owner && db.consents[k].status == Withdrawn;
    r2 := ConsentRoutes.Withdraw(db, owner, id, second, client, auditOk);
  }

  /** Storing a password and then asking for it decoded gives back the same password. */
  method RevealAfterCreate(db: Store, owner: Id, websiteName: string, username: string, password: string,
                           now: Millis, later: Millis, client: Client, auditOk: bool)
    returns (created: Reply<PasswordEntry>, shown: Reply<PasswordRoutes.Shown>)
    requires db.Valid()
    requires websiteName != "" && username != "" && password != ""
    modifies db
    ensures db.Valid()
    ensures created.Ok? && created.body.encryptedPassword == PasswordRoutes.Mask
    ensures shown.Ok? && shown.body.Revealed? && shown.body.password == password
    ensures shown.body.entry.id == created.body.id
  {
    var id := db.nextId;
    created := PasswordRoutes.Create(db, owner, Given(websiteName), Undefined, Given(username), Given(password),
                                     Undefined, Undefined, now, client, auditOk);
    var k := |db.passwords| - 1;
    assert db.passwords[k].id == id && db.passwords[k].userId == owner && db.passwords[k].isActive;
    shown := PasswordRoutes.Get(db, owner, id, Some("true"), later, client, auditOk);
  }

  /** Pinning a note twice leaves its pin as it was, and its content unchanged. */
  method PinTwice(db: Store, owner: Id, id: Id, first: Millis, second: Millis)
    returns (r1: Reply<NoteRoutes.ShownNote>, r2: Reply<NoteRoutes.ShownNote>)
    requires db.Valid()
    requires NoteRoutes.FindActive(db.notes, owner, id).Some?
    modifies db
    ensures db.Valid()
    ensures var n := old(db.notes)[NoteRoutes.FindActive(old(db.notes), owner, id).value];
      && r1.Ok? && r1.body.isPinned == !n.isPinned
      && r2.Ok? && r2.body.isPinned == n.isPinned
      && r2.body.content == Codec.Decode(n.encryptedContent)
  {
    var k := NoteRoutes.FindActive(db.notes, owner, id).value;
    r1 := NoteRoutes.TogglePin(db, owner, id, first);
    assert db.notes[k].id == id && db.notes[k].userId == owner && db.notes[k].isActive;
    r2 := NoteRoutes.TogglePin(db, owner, id, second);
  }
}
