/** The personal-data routes: the filtered list, statistics, single read, export, and the
    two erasure operations (one item, or everything the user holds). */
module DataRoutes {
  import opened Common
  import opened Records
  import opened Collections
  import opened Text
  import opened IsoDate
  import opened Db
  import opened AuditService

  /** The fields of a granted consent that the list selects. */
  datatype ConsentBrief = ConsentBrief(id: Id, status: ConsentStatus, purpose: string)

  datatype DataListing = DataListing(item: PersonalData, consents: seq<ConsentBrief>)

  /** The category filter: a query value that names a category, else none. */
  function CategoryFilter(category: Option<string>): Option<DataCategory>
  {
    if category.Some? then ParseCategory(category.value) else None
  }

  /** The search filter: a case-insensitive substring of the field name, the value or the
      purpose. */
  predicate Matches(d: PersonalData, q: string)
  {
    ContainsInsensitive(d.fieldName, q) || ContainsInsensitive(d.fieldValue, q) || ContainsInsensitive(d.purpose, q)
  }

  predicate Shown(d: PersonalData, owner: Id, cat: Option<DataCategory>, search: Option<string>)
  {
    && d.userId == owner && d.isActive
    && (cat.Some? ==> d.category == cat.value)
    && (Present(search) ==> Matches(d, search.value))
  }

  /** `orderBy: [{ category: 'asc' }, { createdAt: 'desc' }]` as a sort key. */
  function ListOrder(d: PersonalData): (int, int) { (CategoryRank(d.category), -d.createdAt) }

  /** The items `GET /data` returns: the caller's active items, narrowed to a category only
      when the query names a valid one and to a search only when one is given, in category
      order and newest first within a category. */
  function ListItems(items: seq<PersonalData>, owner: Id, category: Option<string>, search: Option<string>): (r: seq<PersonalData>)
    ensures forall i :: 0 <= i < |r| ==> r[i] in items && r[i].userId == owner && r[i].isActive
    ensures forall i :: 0 <= i < |r| ==> Shown(r[i], owner, CategoryFilter(category), search)
    ensures forall i :: 0 <= i < |items| && Shown(items[i], owner, CategoryFilter(category), search) ==> items[i] in r
    ensures forall i, j :: 0 <= i < j < |r| ==>
      CategoryRank(r[i].category) < CategoryRank(r[j].category)
      || (r[i].category == r[j].category && r[i].createdAt >= r[j].createdAt)
    ensures forall x :: multiset(r)[x] == if Shown(x, owner, CategoryFilter(category), search) then multiset(items)[x] else 0
    ensures |r| == |Filter(items, (d: PersonalData) => Shown(d, owner, CategoryFilter(category), search))|
  {
    var cat := CategoryFilter(category);
    var s := Filter(items, (d: PersonalData) => Shown(d, owner, cat, search));
    SortedFilterMultiset(items, (d: PersonalData) => Shown(d, owner, cat, search), ListOrder);
    SortedFilterMembers(items, (d: PersonalData) => Shown(d, owner, cat, search), ListOrder);
    var r := SortByKey(s, ListOrder);
    forall i, j | 0 <= i < j < |r|
      ensures CategoryRank(r[i].category) < CategoryRank(r[j].category)
        || (r[i].category == r[j].category && r[i].createdAt >= r[j].createdAt)
    {
      assert KeyLe(ListOrder(r[i]), ListOrder(r[j]));
      RankInjective(r[i].category, r[j].category);
    }
    r
  }

  lemma RankInjective(a: DataCategory, b: DataCategory)
    ensures CategoryRank(a) == CategoryRank(b) ==> a == b
  {
  }

  /** The granted consents of an item, as the list includes them: one brief per granted
      consent that refers to the item, and no other. */
  function GrantedFor(consents: seq<Consent>, id: Id): (r: seq<ConsentBrief>)
    ensures forall i :: 0 <= i < |r| ==> r[i].status == Granted
    ensures forall i :: 0 <= i < |r| ==> exists c :: c in consents && c.personalDataId == Some(id) && c.status == Granted && r[i] == ConsentBrief(c.id, Granted, c.purpose)
    ensures forall c :: c in consents && c.personalDataId == Some(id) && c.status == Granted ==> ConsentBrief(c.id, Granted, c.purpose) in r
    ensures |r| == |Filter(consents, (c: Consent) => c.personalDataId == Some(id) && c.status == Granted)|
  {
    var s := Filter(consents, (c: Consent) => c.personalDataId == Some(id) && c.status == Granted);
    var r := seq(|s|, i requires 0 <= i < |s| => ConsentBrief(s[i].id, s[i].status, s[i].purpose));
    forall c | c in consents && c.personalDataId == Some(id) && c.status == Granted
      ensures ConsentBrief(c.id, Granted, c.purpose) in r
    {
      var k :| 0 <= k < |consents| && consents[k] == c;
      var j :| 0 <= j < |s| && s[j] == c;
      assert r[j] == ConsentBrief(c.id, Granted, c.purpose);
    }
    r
  }

  /** The body of the `GET /data` reply. */
  function ListReply(items: seq<PersonalData>, consents: seq<Consent>, owner: Id, category: Option<string>, search: Option<string>): (r: seq<DataListing>)
    ensures |r| == |ListItems(items, owner, category, search)|
    ensures forall i :: 0 <= i < |r| ==> r[i].item == ListItems(items, owner, category, search)[i]
    ensures forall i :: 0 <= i < |r| ==> r[i].consents == GrantedFor(consents, r[i].item.id)
  {
    var l := ListItems(items, owner, category, search);
    seq(|l|, i requires 0 <= i < |l| => DataListing(l[i], GrantedFor(consents, l[i].id)))
  }

  /** `GET /data`: the filtered list, and one DATA_VIEW entry recording the raw category
      query (or "all") and the number of items shown. */
  method List(db: Store, owner: Id, category: Option<string>, search: Option<string>, now: Millis, client: Client, auditOk: bool)
    returns (r: Reply<seq<DataListing>>)
    requires db.Valid()
    modifies db
    ensures db.Valid()
    ensures unchanged(db`users, db`items, db`consents, db`passwords, db`notes, db`files)
    ensures r == Ok(200, ListReply(db.items, db.consents, owner, category, search))
    ensures Appended(old(db.logs), db.logs, ViewLog(owner, category, |r.body|, client), now, auditOk)
  {
    var data := ListReply(db.items, db.consents, owner, category, search);
    CreateAuditLog(db, ViewLog(owner, category, |data|, client), now, auditOk);
    r := Ok(200, data);
  }

  function ViewLog(owner: Id, category: Option<string>, count: nat, client: Client): AuditLogData
  {
    var shown := if Present(category) then category.value else "all";
    AuditLogData(owner, DataView, "PersonalData", None,
                 Some(map["category" := Str(shown), "count" := Num(count)]), IpOrNone(client), client.userAgent)
  }

  datatype DataStats = DataStats(totalData: nat, byCategory: map<DataCategory, nat>, activeConsents: nat, recentActivity: nat)

  const AllCategories: seq<DataCategory> := [Identity, Contact, Financial, Usage, Activity, Sensitive]

  const WeekMs: int := 7 * DayMs

  function ActiveOwned(items: seq<PersonalData>, owner: Id): seq<PersonalData>
  {
    Filter(items, (d: PersonalData) => d.userId == owner && d.isActive)
  }

  function Categories(s: seq<PersonalData>): (r: seq<DataCategory>)
    ensures |r| == |s| && forall i :: 0 <= i < |s| ==> r[i] == s[i].category
  {
    seq(|s|, i requires 0 <= i < |s| => s[i].category)
  }

  /** `GET /data/stats`: the caller's active items, grouped by category with counts that
      add up to the total; the caller's granted consents; and the caller's audit entries
      of the last seven days, which are never more than all of them. */
  function Stats(items: seq<PersonalData>, consents: seq<Consent>, logs: seq<AuditEntry>, owner: Id, now: Millis): (r: DataStats)
    ensures r.totalData == |ActiveOwned(items, owner)|
    ensures SumOver(r.byCategory, AllCategories) == r.totalData
    ensures forall k :: k in r.byCategory ==> r.byCategory[k] == Count(Categories(ActiveOwned(items, owner)), k) > 0
    ensures r.activeConsents == |Filter(consents, (c: Consent) => c.userId == owner && c.status == Granted)|
    ensures r.recentActivity == |Filter(logs, (e: AuditEntry) => e.userId == owner && e.timestamp >= now - WeekMs)|
    ensures r.recentActivity <= |OwnedLogs(logs, owner)|
  {
    var active := ActiveOwned(items, owner);
    var labels := Categories(active);
    forall x | x in labels
      ensures x in AllCategories
    {
      assert x == Identity || x == Contact || x == Financial || x == Usage || x == Activity || x == Sensitive;
    }
    GroupCountSums(labels, AllCategories);
    var recentP := (e: AuditEntry) => e.userId == owner && e.timestamp >= now - WeekMs;
    FilterMonotone(logs, recentP, (e: AuditEntry) => e.userId == owner);
    DataStats(|active|, GroupCount(labels),
              |Filter(consents, (c: Consent) => c.userId == owner && c.status == Granted)|,
              |Filter(logs, recentP)|)
  }

  datatype ItemWithConsents = ItemWithConsents(item: PersonalData, consents: seq<Consent>)

  function LinkedConsents(consents: seq<Consent>, id: Id): (r: seq<Consent>)
    ensures forall i :: 0 <= i < |r| ==> r[i] in consents && r[i].personalDataId == Some(id)
    ensures forall i :: 0 <= i < |consents| && consents[i].personalDataId == Some(id) ==> consents[i] in r
    ensures forall x :: multiset(r)[x] == if x.personalDataId == Some(id) then multiset(consents)[x] else 0
  {
    FilterMultiset(consents, (c: Consent) => c.personalDataId == Some(id));
    Filter(consents, (c: Consent) => c.personalDataId == Some(id))
  }

  /** `GET /data/:id`: the caller's item with all its consents, whether or not the item
      has been erased; 404 only when the caller has no item with that id. */
  function GetItem(items: seq<PersonalData>, consents: seq<Consent>, owner: Id, id: Id): (r: Reply<ItemWithConsents>)
    ensures r.Fail? <==> forall i :: 0 <= i < |items| ==> !(items[i].id == id && items[i].userId == owner)
    ensures r.Fail? ==> r == Fail(404, "Data not found")
    ensures r.Ok? ==> r.status == 200 && r.body.item in items && r.body.item.id == id && r.body.item.userId == owner
    ensures r.Ok? ==> r.body.consents == LinkedConsents(consents, id)
  {
    match FindItem(items, owner, id)
    case None => Fail(404, "Data not found")
    case Some(k) => Ok(200, ItemWithConsents(items[k], LinkedConsents(consents, id)))
  }

  /** The consent fields an export selects. */
  datatype ConsentSummary = ConsentSummary(status: ConsentStatus, purpose: string, grantedAt: Option<Millis>)

  datatype ExportedItem = ExportedItem(item: PersonalData, consents: seq<ConsentSummary>)

  /** The selected fields of every consent that refers to an item, one per consent. */
  function Summaries(consents: seq<Consent>, id: Id): (r: seq<ConsentSummary>)
    ensures |r| == |LinkedConsents(consents, id)|
    ensures forall i :: 0 <= i < |r| ==> exists c :: c in consents && c.personalDataId == Some(id) && r[i] == ConsentSummary(c.status, c.purpose, c.grantedAt)
    ensures forall c :: c in consents && c.personalDataId == Some(id) ==> ConsentSummary(c.status, c.purpose, c.grantedAt) in r
  {
    var s := LinkedConsents(consents, id);
    var r := seq(|s|, i requires 0 <= i < |s| => ConsentSummary(s[i].status, s[i].purpose, s[i].grantedAt));
    forall c | c in consents && c.personalDataId == Some(id)
      ensures ConsentSummary(c.status, c.purpose, c.grantedAt) in r
    {
      var k :| 0 <= k < |consents| && consents[k] == c;
      var j :| 0 <= j < |s| && s[j] == c;
      assert r[j] == ConsentSummary(c.status, c.purpose, c.grantedAt);
    }
    r
  }

  /** What an export covers: every item of the caller, erased ones included. */
  function ExportData(items: seq<PersonalData>, consents: seq<Consent>, owner: Id): (r: seq<ExportedItem>)
    ensures |r| == |OwnedItems(items, owner)|
    ensures forall i :: 0 <= i < |r| ==> r[i].item in items && r[i].item.userId == owner
    ensures forall i :: 0 <= i < |items| && items[i].userId == owner ==> exists j :: 0 <= j < |r| && r[j].item == items[i]
    ensures forall i :: 0 <= i < |r| ==> r[i].item == OwnedItems(items, owner)[i]
    ensures forall i :: 0 <= i < |r| ==> r[i].consents == Summaries(consents, r[i].item.id)
  {
    var s := OwnedItems(items, owner);
    var r := seq(|s|, i requires 0 <= i < |s| => ExportedItem(s[i], Summaries(consents, s[i].id)));
    forall i | 0 <= i < |items| && items[i].userId == owner
      ensures exists j :: 0 <= j < |r| && r[j].item == items[i]
    {
      var j :| 0 <= j < |s| && s[j] == items[i];
      assert r[j].item == items[i];
    }
    r
  }

  /** The columns of the CSV export, in order. */
  const DataCsvFields: seq<string> := ["id", "category", "fieldName", "fieldValue", "purpose",
    "source", "dataController", "collectedAt", "retentionDays", "isActive"]

  /** The cell json2csv writes for the column called `name`: the item's field of that
      name as text; a name that is no field gives an empty cell. */
  function DataFieldText(d: PersonalData, name: string): string
  {
    if name == "id" then NatText(d.id)
    else if name == "category" then CategoryName(d.category)
    else if name == "fieldName" then d.fieldName
    else if name == "fieldValue" then d.fieldValue
    else if name == "purpose" then d.purpose
    else if name == "source" then d.source
    else if name == "dataController" then d.dataController
    else if name == "collectedAt" then ToIsoString(d.collectedAt)
    else if name == "retentionDays" then IntText(d.retentionDays)
    else if name == "isActive" then BoolText(d.isActive)
    else ""
  }

  /** One CSV row: under each column of `DataCsvFields`, the item's field of that name. */
  function DataCsvRow(d: PersonalData): (row: seq<string>)
    ensures |row| == |DataCsvFields|
    ensures forall j :: 0 <= j < |row| ==> row[j] == DataFieldText(d, DataCsvFields[j])
  {
    var row := [NatText(d.id), CategoryName(d.category), d.fieldName, d.fieldValue, d.purpose, d.source,
      d.dataController, ToIsoString(d.collectedAt), IntText(d.retentionDays), BoolText(d.isActive)];
    DataFieldsByName(d);
    forall j | 0 <= j < |row|
      ensures row[j] == DataFieldText(d, DataCsvFields[j])
    {
      if j < 5 {
        assert j == 0 || j == 1 || j == 2 || j == 3 || j == 4;
      } else {
        assert j == 5 || j == 6 || j == 7 || j == 8 || j == 9;
      }
    }
    row
  }

  /** The cell of each export column, looked up by its name. */
  lemma DataFieldsByName(d: PersonalData)
    ensures DataFieldText(d, DataCsvFields[0]) == NatText(d.id)
    ensures DataFieldText(d, DataCsvFields[1]) == CategoryName(d.category)
    ensures DataFieldText(d, DataCsvFields[2]) == d.fieldName
    ensures DataFieldText(d, DataCsvFields[3]) == d.fieldValue
    ensures DataFieldText(d, DataCsvFields[4]) == d.purpose
    ensures DataFieldText(d, DataCsvFields[5]) == d.source
    ensures DataFieldText(d, DataCsvFields[6]) == d.dataController
    ensures DataFieldText(d, DataCsvFields[7]) == ToIsoString(d.collectedAt)
    ensures DataFieldText(d, DataCsvFields[8]) == IntText(d.retentionDays)
    ensures DataFieldText(d, DataCsvFields[9]) == BoolText(d.isActive)
  {
    assert "category"[0] != "isActive"[0];
  }

  datatype Export =
    | JsonExport(exportedAt: string, userId: Id, itemCount: nat, data: seq<ExportedItem>)
    | CsvExport(header: seq<string>, rows: seq<seq<string>>)

  /** `format || 'json'`. */
  function FormatOf(format: Option<string>): string
  {
    if Present(format) then format.value else "json"
  }

  /** `GET /data/export/all`: a CSV of the item columns when the format is "csv", else the
      JSON document; the items and consents are left as they are, and one DATA_EXPORT entry
      records the format and how many items went out. */
  method ExportAll(db: Store, owner: Id, format: Option<string>, now: Millis, client: Client, auditOk: bool)
    returns (r: Export)
    requires db.Valid()
    modifies db
    ensures db.Valid()
    ensures unchanged(db`users, db`items, db`consents, db`passwords, db`notes, db`files)
    ensures Appended(old(db.logs), db.logs, ExportLog(owner, FormatOf(format), |OwnedItems(db.items, owner)|, client), now, auditOk)
    ensures FormatOf(format) == "csv" ==>
      && r.CsvExport? && r.header == DataCsvFields && |r.rows| == |OwnedItems(db.items, owner)|
      && forall i :: 0 <= i < |r.rows| ==> r.rows[i] == DataCsvRow(OwnedItems(db.items, owner)[i])
    ensures FormatOf(format) != "csv" ==> r.JsonExport? && r.itemCount == |r.data| && r.data == ExportData(db.items, db.consents, owner)
    ensures r.JsonExport? ==> r.exportedAt == ToIsoString(now) && r.userId == owner
  {
    var data := ExportData(db.items, db.consents, owner);
    var fmt := FormatOf(format);
    CreateAuditLog(db, ExportLog(owner, fmt, |data|, client), now, auditOk);
    if fmt == "csv" {
      var rows := seq(|data|, i requires 0 <= i < |data| => DataCsvRow(data[i].item));
      return CsvExport(DataCsvFields, rows);
    }
    r := JsonExport(ToIsoString(now), owner, |data|, data);
  }

  function ExportLog(owner: Id, format: string, count: nat, client: Client): AuditLogData
  {
    AuditLogData(owner, DataExport, "PersonalData", None,
                 Some(map["format" := Str(format), "itemCount" := Num(count)]), IpOrNone(client), client.userAgent)
  }

  /** Erasing one item (deactivating it and withdrawing every consent that refers to it)
      keeps the store's invariants, the erasure invariant included. */
  lemma EraseOneKeepsInvariants(items: seq<PersonalData>, consents: seq<Consent>, k: nat, now: Millis, n: nat)
    requires k < |items| && ItemTableOk(items, n) && ConsentTableOk(consents, n)
    requires SameOwnerLinks(items, consents) && ErasedNotGranted(items, consents)
    ensures var items' := items[k := items[k].(isActive := false)];
      var consents' := WithdrawWhere(consents, (c: Consent) => c.personalDataId == Some(items[k].id), now);
      && ItemTableOk(items', n) && ConsentTableOk(consents', n)
      && SameOwnerLinks(items', consents') && ErasedNotGranted(items', consents')
  {
    var id := items[k].id;
    var p := (c: Consent) => c.personalDataId == Some(id);
    var items' := items[k := items[k].(isActive := false)];
    var consents' := WithdrawWhere(consents, p, now);
    WithdrawWhereKeepsInvariants(items, consents, p, now, n);
    forall i, j | 0 <= i < |consents'| && 0 <= j < |items'|
      && consents'[i].status == Granted && consents'[i].personalDataId == Some(items'[j].id)
      ensures items'[j].isActive
    {
      assert !p(consents[i]);
      assert j != k;
    }
  }

  /** `DELETE /data/:id`, the right to erasure for one item: the caller's item (active or
      not) is marked inactive, every consent referring to it is withdrawn at `now`, and one
      DATA_DELETE entry is logged; other items are untouched. */
  method Delete(db: Store, owner: Id, id: Id, now: Millis, client: Client, auditOk: bool) returns (r: Reply<string>)
    requires db.Valid()
    modifies db
    ensures db.Valid()
    ensures unchanged(db`users, db`passwords, db`notes, db`files)
    ensures old(CodeStatuses(db.consents)) ==> CodeStatuses(db.consents)
    ensures var k := FindItem(old(db.items), owner, id);
      && (k.None? ==> r == Fail(404, "Data not found") && db.items == old(db.items) && db.consents == old(db.consents) && db.logs == old(db.logs))
      && (k.Some? ==>
            && r == Ok(200, "Data deleted successfully")
            && db.items == old(db.items)[k.value := old(db.items)[k.value].(isActive := false)]
            && db.consents == WithdrawWhere(old(db.consents), (c: Consent) => c.personalDataId == Some(id), now)
            && Appended(old(db.logs), db.logs, DeleteLog(owner, old(db.items)[k.value], client), now, auditOk))
  {
    var k := FindItem(db.items, owner, id);
    if k.None? {
      return Fail(404, "Data not found");
    }
    var d := db.items[k.value];
    EraseOneKeepsInvariants(db.items, db.consents, k.value, now, db.nextId);
    db.items := db.items[k.value := d.(isActive := false)];
    var _ := WithdrawConsents(db, (c: Consent) => c.personalDataId == Some(id), now);
    CreateAuditLog(db, DeleteLog(owner, d, client), now, auditOk);
    r := Ok(200, "Data deleted successfully");
  }

  function DeleteLog(owner: Id, d: PersonalData, client: Client): AuditLogData
  {
    AuditLogData(owner, DataDelete, "PersonalData", Some(d.id),
                 Some(map["fieldName" := Str(d.fieldName), "category" := Str(CategoryName(d.category))]),
                 IpOrNone(client), client.userAgent)
  }

  /** Erasing everything a user holds (all the user's items deactivated, all the user's
      consents withdrawn) keeps the store's invariants: a consent of another user never
      refers to this user's items. */
  lemma EraseAllKeepsInvariants(items: seq<PersonalData>, consents: seq<Consent>, owner: Id, now: Millis, n: nat)
    requires ItemTableOk(items, n) && ConsentTableOk(consents, n)
    requires SameOwnerLinks(items, consents) && ErasedNotGranted(items, consents)
    ensures var items' := DeactivateWhere(items, (d: PersonalData) => d.userId == owner);
      var consents' := WithdrawWhere(consents, (c: Consent) => c.userId == owner, now);
      && ItemTableOk(items', n) && ConsentTableOk(consents', n)
      && SameOwnerLinks(items', consents') && ErasedNotGranted(items', consents')
  {
    var p := (c: Consent) => c.userId == owner;
    var q := (d: PersonalData) => d.userId == owner;
    var items' := DeactivateWhere(items, q);
    var consents' := WithdrawWhere(consents, p, now);
    WithdrawWhereKeepsInvariants(items, consents, p, now, n);
    forall i, j | 0 <= i < |consents'| && 0 <= j < |items'|
      && consents'[i].status == Granted && consents'[i].personalDataId == Some(items'[j].id)
      ensures items'[j].isActive
    {
      assert !p(consents[i]);
      assert consents'[i] == consents[i];
      assert items[j].userId == consents[i].userId;
      assert !q(items[j]);
    }
  }

  /** `DELETE /data/delete-all/confirm`, complete erasure: reports how many of the caller's
      items were active before, leaves none of them active and every consent of the caller
      WITHDRAWN, and logs one DATA_DELETE entry carrying that count. */
  method DeleteAll(db: Store, owner: Id, now: Millis, client: Client, auditOk: bool) returns (r: Reply<nat>)
    requires db.Valid()
    modifies db
    ensures db.Valid()
    ensures unchanged(db`users, db`passwords, db`notes, db`files)
    ensures old(CodeStatuses(db.consents)) ==> CodeStatuses(db.consents)
    ensures r == Ok(200, |ActiveOwned(old(db.items), owner)|)
    ensures db.items == DeactivateWhere(old(db.items), (d: PersonalData) => d.userId == owner)
    ensures db.consents == WithdrawWhere(old(db.consents), (c: Consent) => c.userId == owner, now)
    ensures forall i :: 0 <= i < |db.items| && db.items[i].userId == owner ==> !db.items[i].isActive
    ensures forall i :: 0 <= i < |db.consents| && db.consents[i].userId == owner ==> db.consents[i].status == Withdrawn
    ensures Appended(old(db.logs), db.logs, EraseAllLog(owner, r.body, client), now, auditOk)
  {
    var count := |ActiveOwned(db.items, owner)|;
    EraseAllKeepsInvariants(db.items, db.consents, owner, now, db.nextId);
    DeactivateItems(db, (d: PersonalData) => d.userId == owner);
    var _ := WithdrawConsents(db, (c: Consent) => c.userId == owner, now);
    CreateAuditLog(db, EraseAllLog(owner, count, client), now, auditOk);
    r := Ok(200, count);
  }

  function EraseAllLog(owner: Id, count: nat, client: Client): AuditLogData
  {
    AuditLogData(owner, DataDelete, "PersonalData", None,
                 Some(map["type" := Str("complete_erasure"), "itemCount" := Num(count)]), IpOrNone(client), client.userAgent)
  }
}
