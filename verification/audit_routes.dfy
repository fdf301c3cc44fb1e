/** The audit routes, all read-only: the paginated and filtered trail, its statistics, its
    export, and the list of action names. */
module AuditRoutes {
  import opened Common
  import opened Records
  import opened Collections
  import opened Text
  import opened IsoDate
  import opened Db

  /** The query string of `GET /audit`, already parsed: dates as instants. */
  datatype AuditQuery = AuditQuery(
    action: Option<string>, page: Option<int>, limit: Option<int>,
    startDate: Option<Millis>, endDate: Option<Millis>)

  /** The page and limit must be positive numbers. */
  predicate QueryOk(q: AuditQuery)
  {
    (q.page.Some? ==> q.page.value >= 1) && (q.limit.Some? ==> q.limit.value >= 1)
  }

  const MaxLimit: int := 100

  /** The page number, 1 by default. */
  function PageOf(q: AuditQuery): int
  {
    if q.page.Some? then q.page.value else 1
  }

  /** `Math.min(limit, 100)` with `limit` 20 by default. */
  function LimitOf(q: AuditQuery): (l: int)
    requires QueryOk(q)
    ensures 1 <= l <= MaxLimit
    ensures q.limit.None? ==> l == 20
    ensures q.limit.Some? ==> l == if q.limit.value < MaxLimit then q.limit.value else MaxLimit
  {
    var l := if q.limit.Some? then q.limit.value else 20;
    if l < MaxLimit then l else MaxLimit
  }

  /** `Math.ceil(total / limit)`. */
  function CeilDiv(total: nat, limit: int): (n: nat)
    requires limit >= 1
    ensures n * limit >= total
    ensures n > 0 ==> (n - 1) * limit < total
  {
    (total + limit - 1) / limit
  }

  /** The `where` of the query: the caller's entries, of one action when the query names a
      valid action, between the given bounds (both inclusive). */
  predicate Selected(e: AuditEntry, owner: Id, q: AuditQuery)
  {
    && e.userId == owner
    && (Present(q.action) && ParseAction(q.action.value).Some? ==> e.action == ParseAction(q.action.value).value)
    && (q.startDate.Some? ==> e.timestamp >= q.startDate.value)
    && (q.endDate.Some? ==> e.timestamp <= q.endDate.value)
  }

  function NewestFirst(e: AuditEntry): (int, int) { (-e.timestamp, 0) }

  /** The selected entries, newest first. */
  function Selection(logs: seq<AuditEntry>, owner: Id, q: AuditQuery): (r: seq<AuditEntry>)
    ensures forall i :: 0 <= i < |r| ==> r[i] in logs && Selected(r[i], owner, q)
    ensures forall i :: 0 <= i < |logs| && Selected(logs[i], owner, q) ==> logs[i] in r
    ensures forall i, j :: 0 <= i < j < |r| ==> r[i].timestamp >= r[j].timestamp
    ensures forall x :: multiset(r)[x] == if Selected(x, owner, q) then multiset(logs)[x] else 0
    ensures |r| == |Filter(logs, (e: AuditEntry) => Selected(e, owner, q))|
  {
    var s := Filter(logs, (e: AuditEntry) => Selected(e, owner, q));
    SortedFilterMultiset(logs, (e: AuditEntry) => Selected(e, owner, q), NewestFirst);
    SortedFilterMembers(logs, (e: AuditEntry) => Selected(e, owner, q), NewestFirst);
    SortByKey(s, NewestFirst)
  }

  /** `skip(from)` then `take(to - from)` on a list. */
  function Slice<T>(s: seq<T>, from: int, to: int): (r: seq<T>)
    ensures 0 <= from <= to ==> |r| <= to - from
  {
    var a := if from < 0 then 0 else if from < |s| then from else |s|;
    var b := if to < a then a else if to < |s| then to else |s|;
    s[a..b]
  }

  /** The bounds of page `page`: its first position is not negative and the page spans
      exactly `limit` positions. Kept apart so that the products stay out of `Query`. */
  lemma PageBounds(page: int, limit: int)
    requires page >= 1 && limit >= 1
    ensures 0 <= (page - 1) * limit <= page * limit
    ensures page * limit - (page - 1) * limit == limit
  {
  }

  datatype Pagination = Pagination(page: int, limit: int, total: nat, totalPages: nat)

  datatype AuditPage = AuditPage(logs: seq<AuditEntry>, pagination: Pagination)

  /** `GET /audit`: page p holds positions [(p-1)*limit, p*limit) of the selected entries,
      newest first, with limit capped at 100; `total` counts every selected entry and
      `totalPages` is the ceiling of total over limit. */
  function Query(logs: seq<AuditEntry>, owner: Id, q: AuditQuery): (r: AuditPage)
    requires QueryOk(q)
    ensures r.pagination.page == PageOf(q) && r.pagination.limit == LimitOf(q) <= MaxLimit
    ensures |r.logs| <= r.pagination.limit
    ensures r.logs == Slice(Selection(logs, owner, q), (PageOf(q) - 1) * LimitOf(q), PageOf(q) * LimitOf(q))
    ensures r.pagination.total == |Selection(logs, owner, q)|
    ensures r.pagination.totalPages * r.pagination.limit >= r.pagination.total
    ensures r.pagination.totalPages > 0 ==> (r.pagination.totalPages - 1) * r.pagination.limit < r.pagination.total
  {
    var page, limit := PageOf(q), LimitOf(q);
    var sel := Selection(logs, owner, q);
    PageBounds(page, limit);
    AuditPage(Slice(sel, (page - 1) * limit, page * limit),
              Pagination(page, limit, |sel|, CeilDiv(|sel|, limit)))
  }

  /** Pages 1..n of a list, one after the other. */
  function PagesUpTo<T>(s: seq<T>, limit: int, n: nat): seq<T>
    requires limit >= 1
  {
    if n == 0 then [] else PagesUpTo(s, limit, n - 1) + Slice(s, (n - 1) * limit, n * limit)
  }

  lemma {:induction false} PagesUpToPrefix<T>(s: seq<T>, limit: int, n: nat)
    requires limit >= 1
    ensures PagesUpTo(s, limit, n) == s[..if n * limit < |s| then n * limit else |s|]
  {
    if n > 0 {
      PagesUpToPrefix(s, limit, n - 1);
      assert n * limit == (n - 1) * limit + limit;
      var a := if (n - 1) * limit < |s| then (n - 1) * limit else |s|;
      var b := if n * limit < |s| then n * limit else |s|;
      assert s[..a] + s[a..b] == s[..b];
    }
  }

  /** Reading pages 1 to `totalPages` one after another yields every selected entry, in
      order, each exactly once. */
  lemma AllPagesCoverSelection(logs: seq<AuditEntry>, owner: Id, q: AuditQuery)
    requires QueryOk(q)
    ensures var sel := Selection(logs, owner, q);
      PagesUpTo(sel, LimitOf(q), Query(logs, owner, q).pagination.totalPages) == sel
  {
    var sel := Selection(logs, owner, q);
    var n := CeilDiv(|sel|, LimitOf(q));
    PagesUpToPrefix(sel, LimitOf(q), n);
    assert sel[..|sel|] == sel;
  }

  datatype AuditStats = AuditStats(byAction: map<AuditAction, nat>, recentCount: nat, totalCount: nat)

  function Actions(s: seq<AuditEntry>): (r: seq<AuditAction>)
    ensures |r| == |s| && forall i :: 0 <= i < |s| ==> r[i] == s[i].action
  {
    seq(|s|, i requires 0 <= i < |s| => s[i].action)
  }

  /** The action enumeration lists every action once. */
  lemma AllActionsComplete(a: AuditAction)
    ensures a in AllActions && NoDups(AllActions)
  {
    ActionListed(a);
    ActionsDistinct();
  }

  lemma ActionListed(a: AuditAction)
    ensures a in AllActions
  {
  }

  lemma ActionsDistinct()
    ensures NoDups(AllActions)
  {
    forall i, j | 0 <= i < j < |AllActions|
      ensures AllActions[i] != AllActions[j]
    {
      ActionPosition(i);
      ActionPosition(j);
    }
  }

  /** The position of an action in `AllActions`. */
  function ActionIndex(a: AuditAction): nat
  {
    match a
    case DataView => 0 case DataCreate => 1 case DataUpdate => 2 case DataDelete => 3 case DataExport => 4
    case ConsentGrant => 5 case ConsentWithdraw => 6
    case Login => 7 case Logout => 8 case ProfileUpdate => 9
    case FileUpload => 10 case FileView => 11 case FileDownload => 12 case FileDelete => 13
    case PasswordCreate => 14 case PasswordView => 15 case PasswordUpdate => 16 case PasswordDelete => 17
    case NoteCreate => 18 case NoteView => 19 case NoteUpdate => 20 case NoteDelete => 21
  }

  lemma ActionPosition(i: int)
    requires 0 <= i < |AllActions|
    ensures ActionIndex(AllActions[i]) == i
  {
    assert i < 11 ==> i == 0 || i == 1 || i == 2 || i == 3 || i == 4 || i == 5 || i == 6 || i == 7 || i == 8 || i == 9 || i == 10;
    assert i >= 11 ==> i == 11 || i == 12 || i == 13 || i == 14 || i == 15 || i == 16 || i == 17 || i == 18 || i == 19 || i == 20 || i == 21;
  }

  const WeekMs: int := 7 * DayMs

  /** `GET /audit/stats`: the per-action counts add up to `totalCount`, all of the caller's
      entries; `recentCount`, the entries at most seven days old, never exceeds it. */
  function Stats(logs: seq<AuditEntry>, owner: Id, now: Millis): (r: AuditStats)
    ensures r.totalCount == |OwnedLogs(logs, owner)|
    ensures SumOver(r.byAction, AllActions) == r.totalCount
    ensures forall a :: a in r.byAction ==> r.byAction[a] == Count(Actions(OwnedLogs(logs, owner)), a) > 0
    ensures r.recentCount == |Filter(logs, (e: AuditEntry) => e.userId == owner && e.timestamp >= now - WeekMs)|
    ensures r.recentCount <= r.totalCount
  {
    var mine := OwnedLogs(logs, owner);
    var labels := Actions(mine);
    forall x | x in labels
      ensures x in AllActions
    {
      AllActionsComplete(x);
    }
    AllActionsComplete(DataView);
    GroupCountSums(labels, AllActions);
    var recentP := (e: AuditEntry) => e.userId == owner && e.timestamp >= now - WeekMs;
    FilterMonotone(logs, recentP, (e: AuditEntry) => e.userId == owner);
    AuditStats(GroupCount(labels), |Filter(logs, recentP)|, |mine|)
  }

  /** The columns of the CSV export, in order. */
  const AuditCsvFields: seq<string> := ["id", "action", "entityType", "entityId", "ipAddress", "userAgent", "timestamp"]

  function OrEmpty(s: Option<string>): string { if s.Some? then s.value else "" }

  /** The cell json2csv writes for the column called `name`: the entry's field of that
      name as text, empty when the field is null or the name is no field. */
  function AuditFieldText(e: AuditEntry, name: string): string
  {
    if name == "id" then NatText(e.id)
    else if name == "action" then ActionName(e.action)
    else if name == "entityType" then e.entityType
    else if name == "entityId" then (if e.entityId.Some? then NatText(e.entityId.value) else "")
    else if name == "ipAddress" then OrEmpty(e.ipAddress)
    else if name == "userAgent" then OrEmpty(e.userAgent)
    else if name == "timestamp" then ToIsoString(e.timestamp)
    else ""
  }

  /** One CSV row: under each column of `AuditCsvFields`, the entry's field of that name. */
  function AuditCsvRow(e: AuditEntry): (row: seq<string>)
    ensures |row| == |AuditCsvFields|
    ensures forall j :: 0 <= j < |row| ==> row[j] == AuditFieldText(e, AuditCsvFields[j])
  {
    var row := [NatText(e.id), ActionName(e.action), e.entityType,
      (if e.entityId.Some? then NatText(e.entityId.value) else ""),
      OrEmpty(e.ipAddress), OrEmpty(e.userAgent), ToIsoString(e.timestamp)];
    AuditFieldsByName(e);
    forall j | 0 <= j < |row|
      ensures row[j] == AuditFieldText(e, AuditCsvFields[j])
    {
      assert j == 0 || j == 1 || j == 2 || j == 3 || j == 4 || j == 5 || j == 6;
    }
    row
  }

  /** Each column name of `AuditCsvFields` looks up the field it names. */
  lemma AuditFieldsByName(e: AuditEntry)
    ensures AuditFieldText(e, AuditCsvFields[0]) == NatText(e.id)
    ensures AuditFieldText(e, AuditCsvFields[1]) == ActionName(e.action)
    ensures AuditFieldText(e, AuditCsvFields[2]) == e.entityType
    ensures AuditFieldText(e, AuditCsvFields[3]) == (if e.entityId.Some? then NatText(e.entityId.value) else "")
    ensures AuditFieldText(e, AuditCsvFields[4]) == OrEmpty(e.ipAddress)
    ensures AuditFieldText(e, AuditCsvFields[5]) == OrEmpty(e.userAgent)
    ensures AuditFieldText(e, AuditCsvFields[6]) == ToIsoString(e.timestamp)
  {
  }

  datatype AuditExport =
    | JsonLogs(exportedAt: string, userId: Id, totalLogs: nat, logs: seq<AuditEntry>)
    | CsvLogs(header: seq<string>, rows: seq<seq<string>>)

  /** Every entry of the caller, newest first: the selection of an empty query. */
  function AllOwned(logs: seq<AuditEntry>, owner: Id): seq<AuditEntry>
  {
    Selection(logs, owner, AuditQuery(None, None, None, None, None))
  }

  /** `GET /audit/export`: all of the caller's entries, newest first, as CSV when the format
      is "csv" and as a JSON document whose `totalLogs` is their number otherwise. */
  function Export(logs: seq<AuditEntry>, owner: Id, format: Option<string>, now: Millis): (r: AuditExport)
    ensures r.JsonLogs? <==> !(Present(format) && format.value == "csv")
    ensures r.JsonLogs? ==> r.totalLogs == |r.logs| && r.logs == AllOwned(logs, owner) && r.userId == owner
    ensures r.CsvLogs? ==> r.header == AuditCsvFields && |r.rows| == |AllOwned(logs, owner)|
    ensures r.CsvLogs? ==> forall i :: 0 <= i < |r.rows| ==> r.rows[i] == AuditCsvRow(AllOwned(logs, owner)[i])
    ensures r.JsonLogs? ==> r.exportedAt == ToIsoString(now)
    ensures forall i :: 0 <= i < |logs| && logs[i].userId == owner ==> logs[i] in AllOwned(logs, owner)
  {
    var all := AllOwned(logs, owner);
    if Present(format) && format.value == "csv" then
      CsvLogs(AuditCsvFields, seq(|all|, i requires 0 <= i < |all| => AuditCsvRow(all[i])))
    else
      JsonLogs(ToIsoString(now), owner, |all|, all)
  }

  /** `GET /audit/actions`: the name of every action, in declaration order. */
  function ActionNames(): (r: seq<string>)
    ensures |r| == |AllActions|
    ensures forall a :: ActionName(a) in r
  {
    var r := seq(|AllActions|, i requires 0 <= i < |AllActions| => ActionName(AllActions[i]));
    forall a
      ensures ActionName(a) in r
    {
      AllActionsComplete(a);
      var i :| 0 <= i < |AllActions| && AllActions[i] == a;
      assert r[i] == ActionName(a);
    }
    r
  }
}
