/** The consent routes: listing and counting a user's consents, and the three transitions
    of the consent state machine (withdraw, grant, withdraw all). */
module ConsentRoutes {
  import opened Common
  import opened Records
  import opened Collections
  import opened Db
  import opened AuditService

  /** The fields of the linked item that the list selects. */
  datatype ItemBrief = ItemBrief(id: Id, fieldName: string, category: DataCategory, isActive: bool)

  datatype ConsentListing = ConsentListing(consent: Consent, personalData: Option<ItemBrief>)

  /** A consent with its whole linked item. */
  datatype ConsentWithItem = ConsentWithItem(consent: Consent, personalData: Option<PersonalData>)

  /** The status filter of the list: a query value that names a status, else none. */
  function StatusFilter(status: Option<string>): Option<ConsentStatus>
  {
    if status.Some? then ParseStatus(status.value) else None
  }

  predicate Listed(c: Consent, owner: Id, filter: Option<ConsentStatus>)
  {
    c.userId == owner && (filter.Some? ==> c.status == filter.value)
  }

  function NewestFirst(c: Consent): (int, int) { (-c.createdAt, 0) }

  /** `GET /consent`: the caller's consents, narrowed to one status only when the query
      names a valid one, newest first. */
  function ListConsents(consents: seq<Consent>, owner: Id, status: Option<string>): (r: seq<Consent>)
    ensures forall i :: 0 <= i < |r| ==> r[i] in consents && r[i].userId == owner
    ensures StatusFilter(status).Some? ==> forall i :: 0 <= i < |r| ==> r[i].status == StatusFilter(status).value
    ensures StatusFilter(status).None? ==> forall i :: 0 <= i < |consents| && consents[i].userId == owner ==> consents[i] in r
    ensures forall i :: 0 <= i < |consents| && Listed(consents[i], owner, StatusFilter(status)) ==> consents[i] in r
    ensures forall i, j :: 0 <= i < j < |r| ==> r[i].createdAt >= r[j].createdAt
    ensures forall x :: multiset(r)[x] == if Listed(x, owner, StatusFilter(status)) then multiset(consents)[x] else 0
  {
    var f := StatusFilter(status);
    var s := Filter(consents, (c: Consent) => Listed(c, owner, f));
    SortedFilterMultiset(consents, (c: Consent) => Listed(c, owner, f), NewestFirst);
    SortedFilterMembers(consents, (c: Consent) => Listed(c, owner, f), NewestFirst);
    SortByKey(s, NewestFirst)
  }

  /** The selected fields of the item a consent refers to, or none when it refers to no
      item. */
  function Brief(items: seq<PersonalData>, c: Consent): (r: Option<ItemBrief>)
    ensures r.None? ==> forall j :: 0 <= j < |items| ==> c.personalDataId != Some(items[j].id)
    ensures r.Some? ==> exists j :: 0 <= j < |items| && c.personalDataId == Some(items[j].id) && r.value == ItemBrief(items[j].id, items[j].fieldName, items[j].category, items[j].isActive)
  {
    match LinkedItem(items, c)
    case None => None
    case Some(j) => Some(ItemBrief(items[j].id, items[j].fieldName, items[j].category, items[j].isActive))
  }

  /** The list's reply: each listed consent with the selected fields of its item. */
  function ListConsentsReply(items: seq<PersonalData>, consents: seq<Consent>, owner: Id, status: Option<string>): (r: seq<ConsentListing>)
    ensures |r| == |ListConsents(consents, owner, status)|
    ensures forall i :: 0 <= i < |r| ==> r[i].consent == ListConsents(consents, owner, status)[i]
    ensures forall i :: 0 <= i < |r| ==> r[i].personalData == Brief(items, r[i].consent)
  {
    var l := ListConsents(consents, owner, status);
    seq(|l|, i requires 0 <= i < |l| => ConsentListing(l[i], Brief(items, l[i])))
  }

  /** The reply of `GET /consent/stats`: one counter per status. */
  datatype StatusCounts = StatusCounts(granted: nat, withdrawn: nat, expired: nat, pending: nat)

  function Statuses(s: seq<Consent>): (r: seq<ConsentStatus>)
    ensures |r| == |s| && forall i :: 0 <= i < |s| ==> r[i] == s[i].status
  {
    seq(|s|, i requires 0 <= i < |s| => s[i].status)
  }

  /** A counter of the reply: the grouped count, or the initial 0 when the status has no
      group. */
  function Lookup(m: map<ConsentStatus, nat>, k: ConsentStatus): nat
  {
    if k in m then m[k] else 0
  }

  /** `GET /consent/stats`: each status counts the caller's consents in it, and the four
      counters add up to the caller's number of consents. */
  function ConsentStats(consents: seq<Consent>, owner: Id): (r: StatusCounts)
    ensures r.granted == Count(Statuses(OwnedConsents(consents, owner)), Granted)
    ensures r.withdrawn == Count(Statuses(OwnedConsents(consents, owner)), Withdrawn)
    ensures r.expired == Count(Statuses(OwnedConsents(consents, owner)), Expired)
    ensures r.pending == Count(Statuses(OwnedConsents(consents, owner)), Pending)
    ensures r.granted + r.withdrawn + r.expired + r.pending == |OwnedConsents(consents, owner)|
  {
    var labels := Statuses(OwnedConsents(consents, owner));
    var g := GroupCount(labels);
    StatusTallySums(labels);
    StatusCounts(Lookup(g, Granted), Lookup(g, Withdrawn), Lookup(g, Expired), Lookup(g, Pending))
  }

  /** The four status counters of a tally add up to the number of labels tallied. */
  lemma StatusTallySums(labels: seq<ConsentStatus>)
    ensures var g := GroupCount(labels);
      Lookup(g, Granted) + Lookup(g, Withdrawn) + Lookup(g, Expired) + Lookup(g, Pending) == |labels|
  {
    var g := GroupCount(labels);
    var keys := [Granted, Withdrawn, Expired, Pending];
    assert forall x :: x in labels ==> x in keys by {
      forall x | x in labels ensures x in keys {
        assert x == Granted || x == Withdrawn || x == Expired || x == Pending;
      }
    }
    GroupCountSums(labels, keys);
    assert SumOver(g, keys[..1]) == Lookup(g, Granted) by {
      assert keys[..1][..0] == [];
    }
    assert SumOver(g, keys[..2]) == Lookup(g, Granted) + Lookup(g, Withdrawn) by {
      assert keys[..2][..1] == keys[..1];
    }
    assert SumOver(g, keys[..3]) == Lookup(g, Granted) + Lookup(g, Withdrawn) + Lookup(g, Expired) by {
      assert keys[..3][..2] == keys[..2];
    }
    assert keys[..4] == keys;
  }

  /** `GET /consent/:id`: the caller's consent with its item, or 404 when the caller has
      no consent with that id. */
  function GetConsent(items: seq<PersonalData>, consents: seq<Consent>, owner: Id, id: Id): (r: Reply<ConsentWithItem>)
    ensures r.Fail? <==> forall i :: 0 <= i < |consents| ==> !(consents[i].id == id && consents[i].userId == owner)
    ensures r.Fail? ==> r == Fail(404, "Consent not found")
    ensures r.Ok? ==> r.status == 200 && r.body.consent in consents && r.body.consent.id == id && r.body.consent.userId == owner
    ensures r.Ok? && r.body.personalData.Some? ==>
      r.body.personalData.value in items && r.body.consent.personalDataId == Some(r.body.personalData.value.id)
    ensures r.Ok? && r.body.personalData.None? ==>
      forall j :: 0 <= j < |items| ==> r.body.consent.personalDataId != Some(items[j].id)
  {
    match FindConsent(consents, owner, id)
    case None => Fail(404, "Consent not found")
    case Some(k) => Ok(200, WithItem(items, consents[k]))
  }

  /** A consent with the item it refers to, if any: `include: { personalData: true }`. */
  function WithItem(items: seq<PersonalData>, c: Consent): (r: ConsentWithItem)
    ensures r.consent == c
    ensures r.personalData.Some? ==> r.personalData.value in items && c.personalDataId == Some(r.personalData.value.id)
    ensures r.personalData.None? ==> forall j :: 0 <= j < |items| ==> c.personalDataId != Some(items[j].id)
  {
    ConsentWithItem(c, match LinkedItem(items, c) case None => None case Some(j) => Some(items[j]))
  }

  /** The audit details of a single transition. */
  function TransitionDetails(items: seq<PersonalData>, c: Consent): Details
  {
    map[
      "purpose" := Str(c.purpose),
      "personalDataId" := (if c.personalDataId.Some? then Num(c.personalDataId.value) else Nothing),
      "fieldName" := (match LinkedItem(items, c) case Some(j) => Str(items[j].fieldName) case None => Nothing)
    ]
  }

  function TransitionLog(items: seq<PersonalData>, c: Consent, action: AuditAction, owner: Id, client: Client): AuditLogData
  {
    AuditLogData(owner, action, "Consent", Some(c.id), Some(TransitionDetails(items, c)), IpOrNone(client), client.userAgent)
  }

  /** A consent after `{ status: 'GRANTED', grantedAt: now, withdrawnAt: null }`. */
  function AsGranted(c: Consent, now: Millis): (r: Consent)
    ensures r.status == Granted && r.grantedAt == Some(now) && r.withdrawnAt.None? && TimestampsAgree(r)
    ensures r.id == c.id && r.userId == c.userId && r.personalDataId == c.personalDataId && r.purpose == c.purpose
    ensures r.expiresAt == c.expiresAt && r.createdAt == c.createdAt
  {
    c.(status := Granted, grantedAt := Some(now), withdrawnAt := None)
  }

  /** `POST /consent/:id/withdraw`. A consent the caller does not own is "not found"; an
      already withdrawn one is refused; any other (granted, pending, expired) becomes
      WITHDRAWN at `now`, keeping its `grantedAt`, and one CONSENT_WITHDRAW entry is
      logged. Nothing else changes. */
  method Withdraw(db: Store, owner: Id, id: Id, now: Millis, client: Client, auditOk: bool) returns (r: Reply<ConsentWithItem>)
    requires db.Valid()
    modifies db
    ensures db.Valid()
    ensures unchanged(db`users, db`items, db`passwords, db`notes, db`files)
    ensures old(CodeStatuses(db.consents)) ==> CodeStatuses(db.consents)
    ensures var k := FindConsent(old(db.consents), owner, id);
      && (k.None? ==> r == Fail(404, "Consent not found") && db.consents == old(db.consents) && db.logs == old(db.logs))
      && (k.Some? && old(db.consents)[k.value].status == Withdrawn ==>
            r == Fail(400, "Consent already withdrawn") && db.consents == old(db.consents) && db.logs == old(db.logs))
      && (k.Some? && old(db.consents)[k.value].status != Withdrawn ==>
            && db.consents == old(db.consents)[k.value := AsWithdrawn(old(db.consents)[k.value], now)]
            && r == Ok(200, WithItem(db.items, db.consents[k.value]))
            && Appended(old(db.logs), db.logs, TransitionLog(db.items, old(db.consents)[k.value], ConsentWithdraw, owner, client), now, auditOk))
  {
    var k := FindConsent(db.consents, owner, id);
    if k.None? {
      return Fail(404, "Consent not found");
    }
    var c := db.consents[k.value];
    if c.status == Withdrawn {
      return Fail(400, "Consent already withdrawn");
    }
    var updated := AsWithdrawn(c, now);
    db.consents := db.consents[k.value := updated];
    CreateAuditLog(db, TransitionLog(db.items, c, ConsentWithdraw, owner, client), now, auditOk);
    r := Ok(200, WithItem(db.items, updated));
  }

  /** `POST /consent/:id/grant`. A consent the caller does not own is "not found"; an
      already granted one is refused; so is one whose linked item has been erased (a
      consent without an item skips that check). Otherwise it becomes GRANTED at `now`
      with `withdrawnAt` cleared, and one CONSENT_GRANT entry is logged. */
  method Grant(db: Store, owner: Id, id: Id, now: Millis, client: Client, auditOk: bool) returns (r: Reply<ConsentWithItem>)
    requires db.Valid()
    modifies db
    ensures db.Valid()
    ensures unchanged(db`users, db`items, db`passwords, db`notes, db`files)
    ensures old(CodeStatuses(db.consents)) ==> CodeStatuses(db.consents)
    ensures var k := FindConsent(old(db.consents), owner, id);
      && (k.None? ==> r == Fail(404, "Consent not found") && db.consents == old(db.consents) && db.logs == old(db.logs))
      && (k.Some? && old(db.consents)[k.value].status == Granted ==>
            r == Fail(400, "Consent already granted") && db.consents == old(db.consents) && db.logs == old(db.logs))
      && (k.Some? && old(db.consents)[k.value].status != Granted && !LinkedActive(db.items, old(db.consents)[k.value]) ==>
            r == Fail(400, "Cannot grant consent for deleted data") && db.consents == old(db.consents) && db.logs == old(db.logs))
      && (k.Some? && old(db.consents)[k.value].status != Granted && LinkedActive(db.items, old(db.consents)[k.value]) ==>
            && db.consents == old(db.consents)[k.value := AsGranted(old(db.consents)[k.value], now)]
            && r == Ok(200, WithItem(db.items, db.consents[k.value]))
            && Appended(old(db.logs), db.logs, TransitionLog(db.items, old(db.consents)[k.value], ConsentGrant, owner, client), now, auditOk))
  {
    var k := FindConsent(db.consents, owner, id);
    if k.None? {
      return Fail(404, "Consent not found");
    }
    var c := db.consents[k.value];
    if c.status == Granted {
      return Fail(400, "Consent already granted");
    }
    if !LinkedActive(db.items, c) {
      return Fail(400, "Cannot grant consent for deleted data");
    }
    GrantKeepsErasure(db.items, db.consents, k.value, now, db.nextId);
    var updated := AsGranted(c, now);
    db.consents := db.consents[k.value := updated];
    CreateAuditLog(db, TransitionLog(db.items, c, ConsentGrant, owner, client), now, auditOk);
    r := Ok(200, WithItem(db.items, updated));
  }

  /** The grant check: the consent has no linked item, or its item is still active. */
  function LinkedActive(items: seq<PersonalData>, c: Consent): (b: bool)
    ensures (forall j :: 0 <= j < |items| && c.personalDataId == Some(items[j].id) ==> items[j].isActive) ==> b
    ensures b && (forall i, j :: 0 <= i < j < |items| ==> items[i].id != items[j].id) ==>
      forall j :: 0 <= j < |items| && c.personalDataId == Some(items[j].id) ==> items[j].isActive
  {
    match LinkedItem(items, c)
    case None => true
    case Some(j) => items[j].isActive
  }

  /** Granting a consent that passes the check keeps the erasure invariant: with unique
      item ids, the item the check looked at is the only one the consent refers to. */
  lemma GrantKeepsErasure(items: seq<PersonalData>, consents: seq<Consent>, k: nat, now: Millis, n: nat)
    requires k < |consents| && ItemTableOk(items, n) && ErasedNotGranted(items, consents)
    requires LinkedActive(items, consents[k])
    ensures ErasedNotGranted(items, consents[k := AsGranted(consents[k], now)])
  {
    var c := consents[k];
    var cs := consents[k := AsGranted(c, now)];
    forall i, j | 0 <= i < |cs| && 0 <= j < |items| && cs[i].status == Granted && cs[i].personalDataId == Some(items[j].id)
      ensures items[j].isActive
    {
      if i == k {
        var l := LinkedItem(items, c);
        assert l.Some?;
        assert items[l.value].id == items[j].id;
      }
    }
  }

  predicate GrantedBy(owner: Id, c: Consent) { c.userId == owner && c.status == Granted }

  /** `POST /consent/withdraw-all/confirm`: every GRANTED consent of the caller becomes
      WITHDRAWN at `now`; other users' consents and the caller's non-granted ones are left
      alone. The reply and the single CONSENT_WITHDRAW entry carry how many changed. */
  method WithdrawAll(db: Store, owner: Id, now: Millis, client: Client, auditOk: bool) returns (r: Reply<nat>)
    requires db.Valid()
    modifies db
    ensures db.Valid()
    ensures unchanged(db`users, db`items, db`passwords, db`notes, db`files)
    ensures old(CodeStatuses(db.consents)) ==> CodeStatuses(db.consents)
    ensures db.consents == WithdrawWhere(old(db.consents), c => GrantedBy(owner, c), now)
    ensures r.Ok? && r.status == 200 && r.body == |Filter(old(db.consents), c => GrantedBy(owner, c))|
    ensures Appended(old(db.logs), db.logs, WithdrawAllLog(owner, r.body, client), now, auditOk)
  {
    WithdrawWhereKeepsInvariants(db.items, db.consents, c => GrantedBy(owner, c), now, db.nextId);
    var count := WithdrawConsents(db, c => GrantedBy(owner, c), now);
    CreateAuditLog(db, WithdrawAllLog(owner, count, client), now, auditOk);
    r := Ok(200, count);
  }

  function WithdrawAllLog(owner: Id, count: nat, client: Client): AuditLogData
  {
    AuditLogData(owner, ConsentWithdraw, "Consent", None,
                 Some(map["type" := Str("withdraw_all"), "count" := Num(count)]), IpOrNone(client), client.userAgent)
  }

  /** After withdraw-all the caller holds no granted consent, and the number it reported is
      the number of consents that left the GRANTED state. */
  lemma WithdrawAllLeavesNoneGranted(s: seq<Consent>, owner: Id, now: Millis)
    ensures var r := WithdrawWhere(s, c => GrantedBy(owner, c), now);
      forall i :: 0 <= i < |r| && r[i].userId == owner ==> r[i].status != Granted
  {
  }
}
