/** The secure-notes vault: notes whose text is stored encoded, shown decoded to their
    owner, pinned notes first. Every note is soft-deleted. The note table's `updatedAt`
    column is the database's automatic update stamp, so every write moves it to now. */
module NoteRoutes {
  import opened Common
  import opened Records
  import opened Collections
  import opened Db
  import opened AuditService
  import Codec

  /** A note as every reply shows it: its columns with the stored encoding replaced by
      the decoded `content`. */
  datatype ShownNote = ShownNote(
    id: Id, userId: Id, title: string, content: string, category: Option<string>,
    isPinned: bool, isActive: bool, createdAt: Millis, updatedAt: Millis)

  /** `{ ...note, content: decodeContent(note.encryptedContent), encryptedContent: undefined }`. */
  function Shown(n: SecureNote): (v: ShownNote)
  {
    ShownNote(n.id, n.userId, n.title, Codec.Decode(n.encryptedContent), n.category,
             n.isPinned, n.isActive, n.createdAt, n.updatedAt)
  }

  /** The view of a note keeps every column but the stored encoding, and the encoding can
      be recovered from the view: it is the encoding of the content shown. */
  lemma ShownKeepsColumns(n: SecureNote, content: string)
    requires n.encryptedContent == Codec.Encode(content)
    ensures Shown(n).content == content
    ensures n == SecureNote(Shown(n).id, Shown(n).userId, Shown(n).title, Codec.Encode(Shown(n).content),
                            Shown(n).category, Shown(n).isPinned, Shown(n).isActive, Shown(n).createdAt, Shown(n).updatedAt)
  {
    Codec.DecodeEncode(content);
  }

  /** `isPinned || false` for a JSON boolean. */
  function PinnedOrFalse(isPinned: Input<bool>): bool
  {
    isPinned == Given(true)
  }

  function CreateLog(owner: Id, n: SecureNote, client: Client): AuditLogData
  {
    AuditLogData(owner, NoteCreate, "SecureNote", Some(n.id), Some(map["title" := Str(n.title)]),
                 client.ip, client.userAgent)
  }

  /** `POST /notes`: refused with 400 unless both the title and the content are given and
      non-empty. Otherwise one active note is stored with the encoded content (unpinned
      unless `isPinned` is true, an empty category becoming null), one NOTE_CREATE entry
      naming the title is logged, and the reply shows the note with the content as sent. */
  method Create(db: Store, owner: Id, title: Input<string>, content: Input<string>, category: Input<string>,
                isPinned: Input<bool>, now: Millis, client: Client, auditOk: bool)
    returns (r: Reply<ShownNote>)
    requires db.Valid()
    modifies db
    ensures db.Valid()
    ensures unchanged(db`users, db`items, db`consents, db`passwords, db`files)
    ensures !(Truthy(title) && Truthy(content)) ==>
      && r == Fail(400, "Title and content are required")
      && db.notes == old(db.notes) && db.logs == old(db.logs)
    ensures Truthy(title) && Truthy(content) ==>
      var n := SecureNote(old(db.nextId), owner, title.value, Codec.Encode(content.value), OrNull(category),
                          PinnedOrFalse(isPinned), true, now, now);
      && db.notes == old(db.notes) + [n]
      && Appended(old(db.logs), db.logs, CreateLog(owner, n, client), now, auditOk)
      && r == Ok(201, Shown(n))
      && r.body.content == content.value
  {
    if !(Truthy(title) && Truthy(content)) {
      return Fail(400, "Title and content are required");
    }
    var n := SecureNote(db.nextId, owner, title.value, Codec.Encode(content.value), OrNull(category),
                        PinnedOrFalse(isPinned), true, now, now);
    Codec.DecodeEncode(content.value);
    AddNote(db, n);
    CreateAuditLog(db, CreateLog(owner, n, client), now, auditOk);
    r := Ok(201, Shown(n));
  }

  /** The notes `GET /notes` selects: the caller's active notes, narrowed to a category
      when one is given and to pinned notes when `pinned` is exactly "true". */
  predicate Listed(n: SecureNote, owner: Id, category: Option<string>, pinned: Option<string>)
  {
    && n.userId == owner && n.isActive
    && (Present(category) ==> n.category == Some(category.value))
    && (pinned == Some("true") ==> n.isPinned)
  }

  /** `orderBy: [{ isPinned: 'desc' }, { updatedAt: 'desc' }]` as an ascending key. */
  function PinnedFirst(n: SecureNote): (int, int)
  {
    (if n.isPinned then 0 else 1, -n.updatedAt)
  }

  /** The selected notes, pinned ones first and, within each group, the most recently
      updated first. */
  function Selection(notes: seq<SecureNote>, owner: Id, category: Option<string>, pinned: Option<string>): (r: seq<SecureNote>)
    ensures forall i :: 0 <= i < |r| ==> r[i] in notes && Listed(r[i], owner, category, pinned)
    ensures forall i :: 0 <= i < |notes| && Listed(notes[i], owner, category, pinned) ==> notes[i] in r
    ensures forall i, j :: 0 <= i < j < |r| && r[j].isPinned ==> r[i].isPinned
    ensures forall i, j :: 0 <= i < j < |r| && r[i].isPinned == r[j].isPinned ==> r[i].updatedAt >= r[j].updatedAt
    ensures forall x :: multiset(r)[x] == if Listed(x, owner, category, pinned) then multiset(notes)[x] else 0
  {
    var s := Filter(notes, (n: SecureNote) => Listed(n, owner, category, pinned));
    SortedFilterMultiset(notes, (n: SecureNote) => Listed(n, owner, category, pinned), PinnedFirst);
    SortedFilterMembers(notes, (n: SecureNote) => Listed(n, owner, category, pinned), PinnedFirst);
    var r := SortByKey(s, PinnedFirst);
    forall i, j | 0 <= i < j < |r|
      ensures KeyLe(PinnedFirst(r[i]), PinnedFirst(r[j]))
    {
    }
    r
  }

  /** `content.substring(0, 100)`: the first hundred characters, or all of a shorter text. */
  function Preview(content: string): (p: string)
    ensures |p| == (if |content| < 100 then |content| else 100)
    ensures p == content[..|p|]
  {
    if |content| < 100 then content else content[..100]
  }

  /** One element of the `GET /notes` reply. */
  datatype ListedNote = ListedNote(note: ShownNote, contentPreview: string)

  /** One note as the list shows it: decoded, with a preview that starts its content and
      is all of it when the content is at most a hundred characters long. */
  function Listing(n: SecureNote): (l: ListedNote)
    ensures l.note == Shown(n)
    ensures |l.contentPreview| <= 100 && |l.contentPreview| <= |l.note.content|
    ensures l.contentPreview == l.note.content[..|l.contentPreview|]
    ensures |l.note.content| <= 100 ==> l.contentPreview == l.note.content
  {
    ListedNote(Shown(n), Preview(Codec.Decode(n.encryptedContent)))
  }

  /** `GET /notes`: the selection in order, each note listed with its preview. */
  function List(notes: seq<SecureNote>, owner: Id, category: Option<string>, pinned: Option<string>): (r: seq<ListedNote>)
    ensures |r| == |Selection(notes, owner, category, pinned)|
    ensures forall i :: 0 <= i < |r| ==> r[i] == Listing(Selection(notes, owner, category, pinned)[i])
  {
    var s := Selection(notes, owner, category, pinned);
    seq(|s|, i requires 0 <= i < |s| => Listing(s[i]))
  }

  /** An active note of the caller's with a non-empty category. */
  predicate Categorised(n: SecureNote, owner: Id)
  {
    n.userId == owner && n.isActive && n.category.Some? && n.category.value != ""
  }

  /** The category of an active note of the caller's; other notes have none. */
  function OwnCategory(n: SecureNote, owner: Id): Option<string>
  {
    if n.userId == owner && n.isActive then n.category else None
  }

  /** `GET /notes/categories/list`: each non-empty category of the caller's active notes
      once, in order of first appearance. */
  function Categories(notes: seq<SecureNote>, owner: Id): (r: seq<string>)
    ensures NoDups(r)
    ensures forall i :: 0 <= i < |r| ==> exists j :: 0 <= j < |notes| && Categorised(notes[j], owner) && notes[j].category == Some(r[i])
    ensures forall j :: 0 <= j < |notes| && Categorised(notes[j], owner) ==> notes[j].category.value in r
  {
    var labels := Labels(notes, (n: SecureNote) => OwnCategory(n, owner));
    var r := Distinct(labels);
    forall i | 0 <= i < |r|
      ensures r[i] in labels
    {
    }
    r
  }

  /** The reply of `GET /notes/stats/summary`. */
  datatype NoteStats = NoteStats(totalNotes: nat, pinnedNotes: nat, byCategory: map<string, nat>)

  function Active(notes: seq<SecureNote>, owner: Id): (r: seq<SecureNote>)
    ensures forall i :: 0 <= i < |r| ==> r[i] in notes && r[i].userId == owner && r[i].isActive
    ensures forall i :: 0 <= i < |notes| && notes[i].userId == owner && notes[i].isActive ==> notes[i] in r
  {
    Filter(notes, (n: SecureNote) => n.userId == owner && n.isActive)
  }

  /** `n.category || 'Uncategorized'` for each note. */
  function StatsLabels(s: seq<SecureNote>): (r: seq<string>)
    ensures |r| == |s| && forall i :: 0 <= i < |s| ==> r[i] == OrElse(s[i].category, "Uncategorized")
  {
    seq(|s|, i requires 0 <= i < |s| => OrElse(s[i].category, "Uncategorized"))
  }

  /** `GET /notes/stats/summary`: counts the caller's active notes and the pinned ones
      among them, and tallies them by category (a note without one counting as
      "Uncategorized"). No more notes are pinned than there are, and the tally's counts add
      up to the total. */
  method Stats(notes: seq<SecureNote>, owner: Id) returns (r: NoteStats)
    ensures r.totalNotes == |Active(notes, owner)|
    ensures r.pinnedNotes == |Filter(Active(notes, owner), (n: SecureNote) => n.isPinned)|
    ensures r.pinnedNotes <= r.totalNotes
    ensures r.byCategory == GroupCount(StatsLabels(Active(notes, owner)))
    ensures forall k :: k in r.byCategory ==> r.byCategory[k] > 0
    ensures SumOver(r.byCategory, Distinct(StatsLabels(Active(notes, owner)))) == r.totalNotes
  {
    var active := Active(notes, owner);
    var byCategory := Tally(StatsLabels(active));
    GroupCountTotal(StatsLabels(active));
    r := NoteStats(|active|, |Filter(active, (n: SecureNote) => n.isPinned)|, byCategory);
  }

  /** `findFirst({ where: { id, userId, isActive: true } })`. */
  function FindActive(notes: seq<SecureNote>, owner: Id, id: Id): (r: Option<nat>)
    ensures r.Some? ==> r.value < |notes| && notes[r.value].id == id && notes[r.value].userId == owner && notes[r.value].isActive
    ensures r.Some? ==> forall i :: 0 <= i < r.value ==> !(notes[i].id == id && notes[i].userId == owner && notes[i].isActive)
    ensures r.None? ==> forall i :: 0 <= i < |notes| ==> !(notes[i].id == id && notes[i].userId == owner && notes[i].isActive)
  {
    FindFirst(notes, (n: SecureNote) => n.id == id && n.userId == owner && n.isActive)
  }

  /** `findFirst({ where: { id, userId } })`: deleted notes included. */
  function FindOwned(notes: seq<SecureNote>, owner: Id, id: Id): (r: Option<nat>)
    ensures r.Some? ==> r.value < |notes| && notes[r.value].id == id && notes[r.value].userId == owner
    ensures r.Some? ==> forall i :: 0 <= i < r.value ==> !(notes[i].id == id && notes[i].userId == owner)
    ensures r.None? ==> forall i :: 0 <= i < |notes| ==> !(notes[i].id == id && notes[i].userId == owner)
  {
    FindFirst(notes, (n: SecureNote) => n.id == id && n.userId == owner)
  }

  /** The audit entry of a view, an update or a delete of note `n`, naming its title. */
  function NoteLog(owner: Id, action: AuditAction, n: SecureNote, client: Client): AuditLogData
  {
    AuditLogData(owner, action, "SecureNote", Some(n.id), Some(map["title" := Str(n.title)]),
                 client.ip, client.userAgent)
  }

  /** `GET /notes/:id`: 404 unless the caller holds the active note; otherwise one
      NOTE_VIEW entry is logged and the note is shown decoded. The notes are not touched. */
  method Get(db: Store, owner: Id, id: Id, now: Millis, client: Client, auditOk: bool)
    returns (r: Reply<ShownNote>)
    requires db.Valid()
    modifies db
    ensures db.Valid()
    ensures unchanged(db`users, db`items, db`consents, db`passwords, db`notes, db`files)
    ensures var k := FindActive(old(db.notes), owner, id);
      && (k.None? ==> r == Fail(404, "Note not found") && db.logs == old(db.logs))
      && (k.Some? ==>
            && Appended(old(db.logs), db.logs, NoteLog(owner, NoteView, old(db.notes)[k.value], client), now, auditOk)
            && r == Ok(200, Shown(old(db.notes)[k.value])))
  {
    var k := FindActive(db.notes, owner, id);
    if k.None? {
      return Fail(404, "Note not found");
    }
    CreateAuditLog(db, NoteLog(owner, NoteView, db.notes[k.value], client), now, auditOk);
    r := Ok(200, Shown(db.notes[k.value]));
  }

  /** The note after `PUT /notes/:id`'s partial update, for a body whose `isPinned` is not
      null: the title and content change only when given non-empty, the category and the
      pin whenever the body names them (`false` and `null` included), and the update stamp
      becomes now. Nothing else changes, and new content decodes back to itself. */
  function Updated(n: SecureNote, title: Input<string>, content: Input<string>, category: Input<string>,
                   isPinned: Input<bool>, now: Millis): (u: SecureNote)
    requires !isPinned.Null?
    ensures u.id == n.id && u.userId == n.userId && u.isActive == n.isActive && u.createdAt == n.createdAt
    ensures u.updatedAt == now
    ensures u.title == (if Truthy(title) then title.value else n.title)
    ensures Truthy(content) ==> Codec.Decode(u.encryptedContent) == content.value
    ensures !Truthy(content) ==> u.encryptedContent == n.encryptedContent
    ensures category.Undefined? ==> u.category == n.category
    ensures !category.Undefined? ==> u.category == (if category.Given? then Some(category.value) else None)
    ensures u.isPinned == (if isPinned.Given? then isPinned.value else n.isPinned)
    ensures (!Truthy(title) && !Truthy(content) && category.Undefined? && isPinned.Undefined?) ==>
      u == n.(updatedAt := now)
  {
    var encoded :=
      if Truthy(content) then
        Codec.DecodeEncode(content.value);
        Codec.Encode(content.value)
      else n.encryptedContent;
    n.(title := if Truthy(title) then title.value else n.title,
       encryptedContent := encoded,
       category := Assign(n.category, category),
       isPinned := if isPinned.Given? then isPinned.value else n.isPinned,
       updatedAt := now)
  }

  /** `PUT /notes/:id`: 404 unless the caller holds the active note. A body with
      `isPinned: null` asks the database to store null in a required column; the write is
      refused and the handler answers 500 with nothing changed. Otherwise the partial
      update, one NOTE_UPDATE entry naming the updated title, and the updated note
      decoded. */
  method Update(db: Store, owner: Id, id: Id, title: Input<string>, content: Input<string>, category: Input<string>,
                isPinned: Input<bool>, now: Millis, client: Client, auditOk: bool)
    returns (r: Reply<ShownNote>)
    requires db.Valid()
    modifies db
    ensures db.Valid()
    ensures unchanged(db`users, db`items, db`consents, db`passwords, db`files)
    ensures var k := FindActive(old(db.notes), owner, id);
      && (k.None? ==> r == Fail(404, "Note not found") && db.notes == old(db.notes) && db.logs == old(db.logs))
      && (k.Some? && isPinned.Null? ==>
            r == Fail(500, "Failed to update note") && db.notes == old(db.notes) && db.logs == old(db.logs))
      && (k.Some? && !isPinned.Null? ==>
            var u := Updated(old(db.notes)[k.value], title, content, category, isPinned, now);
            && db.notes == old(db.notes)[k.value := u]
            && Appended(old(db.logs), db.logs, NoteLog(owner, NoteUpdate, u, client), now, auditOk)
            && r == Ok(200, Shown(u)))
  {
    var k := FindActive(db.notes, owner, id);
    if k.None? {
      return Fail(404, "Note not found");
    }
    if isPinned.Null? {
      return Fail(500, "Failed to update note");
    }
    var u := Updated(db.notes[k.value], title, content, category, isPinned, now);
    SetNote(db, k.value, u);
    CreateAuditLog(db, NoteLog(owner, NoteUpdate, u, client), now, auditOk);
    r := Ok(200, Shown(u));
  }

  /** The note with its pin flipped and its update stamp moved to now. */
  function Toggled(n: SecureNote, now: Millis): (u: SecureNote)
    ensures u.isPinned == !n.isPinned
    ensures u.(isPinned := n.isPinned, updatedAt := n.updatedAt) == n
  {
    n.(isPinned := !n.isPinned, updatedAt := now)
  }

  /** Toggling twice gives back the note as it was, but for its update stamp. */
  lemma ToggleTwice(n: SecureNote, now: Millis, later: Millis)
    ensures Toggled(Toggled(n, now), later) == n.(updatedAt := later)
  {
  }

  /** `PATCH /notes/:id/pin`: 404 unless the caller holds the active note; otherwise the
      pin is flipped and the note shown decoded. No audit entry is written. */
  method TogglePin(db: Store, owner: Id, id: Id, now: Millis) returns (r: Reply<ShownNote>)
    requires db.Valid()
    modifies db
    ensures db.Valid()
    ensures unchanged(db`users, db`items, db`consents, db`logs, db`passwords, db`files, db`nextId)
    ensures var k := FindActive(old(db.notes), owner, id);
      && (k.None? ==> r == Fail(404, "Note not found") && db.notes == old(db.notes))
      && (k.Some? ==>
            && db.notes == old(db.notes)[k.value := Toggled(old(db.notes)[k.value], now)]
            && r == Ok(200, Shown(Toggled(old(db.notes)[k.value], now))))
  {
    var k := FindActive(db.notes, owner, id);
    if k.None? {
      return Fail(404, "Note not found");
    }
    var u := Toggled(db.notes[k.value], now);
    SetNote(db, k.value, u);
    r := Ok(200, Shown(u));
  }

  /** `DELETE /notes/:id`: 404 unless the caller owns the note (a deleted one included);
      otherwise the note is deactivated, kept in the table, and one NOTE_DELETE entry naming
      its title is logged. */
  method Delete(db: Store, owner: Id, id: Id, now: Millis, client: Client, auditOk: bool) returns (r: Reply<string>)
    requires db.Valid()
    modifies db
    ensures db.Valid()
    ensures unchanged(db`users, db`items, db`consents, db`passwords, db`files)
    ensures var k := FindOwned(old(db.notes), owner, id);
      && (k.None? ==> r == Fail(404, "Note not found") && db.notes == old(db.notes) && db.logs == old(db.logs))
      && (k.Some? ==>
            && db.notes == old(db.notes)[k.value := old(db.notes)[k.value].(isActive := false, updatedAt := now)]
            && Appended(old(db.logs), db.logs, NoteLog(owner, NoteDelete, old(db.notes)[k.value], client), now, auditOk)
            && r == Ok(200, "Note deleted successfully"))
  {
    var k := FindOwned(db.notes, owner, id);
    if k.None? {
      return Fail(404, "Note not found");
    }
    var n := db.notes[k.value];
    SetNote(db, k.value, n.(isActive := false, updatedAt := now));
    CreateAuditLog(db, NoteLog(owner, NoteDelete, n, client), now, auditOk);
    r := Ok(200, "Note deleted successfully");
  }

  /** A deleted note can no longer be viewed, updated or pinned: the active-note lookup no
      longer finds it. */
  lemma DeletedNotFound(notes: seq<SecureNote>, k: nat, owner: Id, now: Millis)
    requires k < |notes| && forall i, j :: 0 <= i < j < |notes| ==> notes[i].id != notes[j].id
    ensures FindActive(notes[k := notes[k].(isActive := false, updatedAt := now)], owner, notes[k].id).None?
  {
  }
}
