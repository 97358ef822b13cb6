/**
 * The authenticated QR API: create, list, read, update, delete and statistics. Every
 * per-record operation looks the record up by id AND owner, so a record of another user
 * is answered exactly like a missing one. Errors thrown by the store go through the
 * error middleware.
 */
module QrController {
  import opened JsText
  import opened ErrorHandling
  import opened Validators
  import opened QRCodeModel
  import opened ScanLog
  import opened Store

  /** A JSON reply: a success status with its data, or an error body. */
  datatype Reply<T> = Success(status: int, data: T) | Failure(error: ErrorResponse)

  const NotFoundError: ErrorResponse := ErrorResponse(404, false, "QR_NOT_FOUND", "QR code not found")
  const MissingUrlError: ErrorResponse := ErrorResponse(400, false, "MISSING_REQUIRED_FIELD", "target_url is required")
  const InvalidUrlError: ErrorResponse := ErrorResponse(400, false, "INVALID_URL", "Please provide a valid URL")
  const InvalidExpiryError: ErrorResponse :=
    ErrorResponse(400, false, "INVALID_EXPIRY_DATE", "Expiry date must be in the future")

  /** `${BASE_URL}/q/${id}`, the address a QR code encodes. */
  function RedirectUrl(baseUrl: string, id: string): (u: string)
    ensures |u| == |baseUrl| + 3 + |id|
    ensures u[..|baseUrl|] == baseUrl && u[|baseUrl| + 3..] == id
  {
    baseUrl + "/q/" + id
  }

  /** Different ids get different redirect addresses. */
  lemma RedirectUrlInjective(baseUrl: string, a: string, b: string)
    requires RedirectUrl(baseUrl, a) == RedirectUrl(baseUrl, b)
    ensures a == b
  {
    assert a == RedirectUrl(baseUrl, a)[|baseUrl| + 3..];
  }

  // ---------------------------------------------------------------------------
  // createQR

  /** The body fields `createQR` reads; `None` is an absent field, `expiresAt` a parsed date. */
  datatype CreateBody = CreateBody(targetUrl: JsValue, name: Option<string>, qrType: Option<string>, expiresAt: Option<int>)

  /** The created record and its redirect address (the reply also carries a QR image of that address). */
  datatype Created = Created(record: QRRecord, redirectUrl: string)

  /**
   * The request checks of `createQR`, first failure wins: a missing `target_url`, one that is not
   * an http(s) URL, an expiry before the request time.
   */
  function CreateCheck(body: CreateBody, now: int, parse: UrlParser): (e: Option<ErrorResponse>)
    ensures !Truthy(body.targetUrl) ==> e == Some(MissingUrlError)
    ensures Truthy(body.targetUrl) && !ValidateUrl(body.targetUrl, parse) ==> e == Some(InvalidUrlError)
    ensures ValidateUrl(body.targetUrl, parse) && body.expiresAt.Some? && body.expiresAt.value < now ==>
      e == Some(InvalidExpiryError)
    ensures e.None? <==>
      ValidateUrl(body.targetUrl, parse) && (body.expiresAt.None? || body.expiresAt.value >= now)
    ensures e.None? ==> body.targetUrl.Str? && body.targetUrl.s != ""
  {
    if !Truthy(body.targetUrl) then Some(MissingUrlError)
    else if !ValidateUrl(body.targetUrl, parse) then Some(InvalidUrlError)
    else if body.expiresAt.Some? && body.expiresAt.value < now then Some(InvalidExpiryError)
    else None
  }

  /**
   * `createQR`: the checks, then `QRCode.create` of the defaulted document under the fresh id
   * `newId`; a schema or duplicate-key failure of the store is answered by the error middleware.
   */
  method CreateQR(db: Database, owner: string, body: CreateBody, now: int, newId: string,
                  baseUrl: string, parse: UrlParser, nodeEnv: Option<string>) returns (reply: Reply<Created>)
    requires db.Valid()
    modifies db
    ensures db.Valid() && db.scans == old(db.scans)
    ensures reply.Failure? ==> db.records == old(db.records)
    ensures CreateCheck(body, now, parse).Some? ==> reply == Failure(CreateCheck(body, now, parse).value)
    ensures CreateCheck(body, now, parse).None? ==>
      var doc := NewDocument(newId, owner, body.name, body.targetUrl.s, body.qrType, body.expiresAt, now);
      && (!Conforms(doc) ==> reply == Failure(HandleError(ValidationFailure(SchemaErrors(doc)), nodeEnv)))
      && (Conforms(doc) && newId in old(db.records) ==> reply == Failure(HandleError(DuplicateKeyFailure, nodeEnv)))
      && (Conforms(doc) && newId !in old(db.records) ==>
            reply == Success(201, Created(doc, RedirectUrl(baseUrl, newId)))
            && db.records == old(db.records)[newId := doc])
  {
    var check := CreateCheck(body, now, parse);
    if check.Some? {
      reply := Failure(check.value);
      return;
    }
    var doc := NewDocument(newId, owner, body.name, body.targetUrl.s, body.qrType, body.expiresAt, now);
    var err := db.Create(doc, now);
    if err.Some? {
      reply := Failure(HandleError(err.value, nodeEnv));
      return;
    }
    assert PreSave(doc, now) == doc;
    reply := Success(201, Created(doc, RedirectUrl(baseUrl, newId)));
  }

  /** A record that passed the checks redirects at its creation time, to its trimmed, validated URL. */
  lemma {:induction false} CreatedRecordIsLive(body: CreateBody, now: int, parse: UrlParser, id: string, owner: string)
    requires CreateCheck(body, now, parse).None?
    ensures var doc := NewDocument(id, owner, body.name, body.targetUrl.s, body.qrType, body.expiresAt, now);
      && IsValidForRedirect(doc, now) == Valid
      && doc.targetUrl == Trim(body.targetUrl.s)
      && ValidateUrl(Str(body.targetUrl.s), parse)
  {
    NewDocumentRedirects(id, owner, body.name, body.targetUrl.s, body.qrType, body.expiresAt, now);
  }

  // ---------------------------------------------------------------------------
  // getAllQRs

  /** `parseInt(x) || d`: `None` stands for NaN (an absent or unparsable parameter); 0 also gives `d`. */
  function OrDefault(p: Option<int>, d: int): (r: int)
    requires d != 0
    ensures r != 0
    ensures r == d <==> p.None? || p == Some(0) || p == Some(d)
  {
    if p.None? || p.value == 0 then d else p.value
  }

  /**
   * The `status` filter of the listing query; any other value (including `all`) filters nothing.
   * `active` keeps the records that redirect, except one at its very expiry instant; `inactive`
   * keeps the disabled ones; `expired` keeps those whose `is_expired` virtual holds.
   */
  function MatchesStatus(r: QRRecord, status: string, now: int): (b: bool)
    ensures status == "active" ==> (b <==> IsValidForRedirect(r, now) == Valid && r.expiresAt != Some(now))
    ensures status == "inactive" ==> (b <==> IsValidForRedirect(r, now) == Invalid(Disabled))
    ensures status == "expired" ==> (b <==> IsExpired(r, now))
    ensures status != "active" && status != "inactive" && status != "expired" ==> b
  {
    if status == "active" then r.isActive && (r.expiresAt.None? || r.expiresAt.value > now)
    else if status == "inactive" then !r.isActive
    else if status == "expired" then r.expiresAt.Some? && r.expiresAt.value < now
    else true
  }

  /** The `expired` filter selects exactly the records whose `is_expired` virtual is true, active or not. */
  lemma ExpiredFilterIsExpiredVirtual(r: QRRecord, now: int)
    ensures MatchesStatus(r, "expired", now) <==> IsExpired(r, now)
  {
  }

  /** Away from the expiry instant, the `active` filter selects exactly the records that redirect. */
  lemma ActiveFilterMatchesValidity(r: QRRecord, now: int)
    requires r.expiresAt != Some(now)
    ensures MatchesStatus(r, "active", now) <==> IsValidForRedirect(r, now) == Valid
  {
  }

  /**
   * At the instant an active record expires it still redirects, yet it is listed under
   * neither `active` nor `expired` (nor `inactive`): only `all` shows it.
   */
  lemma ExpiryInstantGap(r: QRRecord, now: int)
    requires r.isActive && r.expiresAt == Some(now)
    ensures IsValidForRedirect(r, now) == Valid
    ensures !MatchesStatus(r, "active", now) && !MatchesStatus(r, "expired", now)
    ensures !MatchesStatus(r, "inactive", now) && MatchesStatus(r, "all", now)
  {
  }

  /** `active` and `inactive` never overlap, and outside the expiry instant every record is in `active`, `inactive` or `expired`. */
  lemma StatusFiltersCover(r: QRRecord, now: int)
    ensures !(MatchesStatus(r, "active", now) && MatchesStatus(r, "inactive", now))
    ensures !(MatchesStatus(r, "active", now) && MatchesStatus(r, "expired", now))
    ensures r.expiresAt != Some(now) ==>
      MatchesStatus(r, "active", now) || MatchesStatus(r, "inactive", now) || MatchesStatus(r, "expired", now)
  {
  }

  /** The listing query `{ user, ...status filter }`. */
  predicate Selected(r: QRRecord, owner: string, status: string, now: int) {
    r.owner == owner && MatchesStatus(r, status, now)
  }

  /** `order` is the store's sort order of the collection: every id exactly once. */
  ghost predicate ListsKeys(order: seq<string>, records: map<string, QRRecord>) {
    && (forall id :: id in records <==> id in order)
    && (forall i, j :: 0 <= i < j < |order| ==> order[i] != order[j])
  }

  /** The positions in `order` of the records the query selects, ascending. */
  function SelectedPositions(records: map<string, QRRecord>, order: seq<string>, owner: string, status: string, now: int)
      : (ps: seq<int>)
    requires forall i :: 0 <= i < |order| ==> order[i] in records
    ensures forall k :: 0 <= k < |ps| ==> 0 <= ps[k] < |order|
    ensures forall k, l :: 0 <= k < l < |ps| ==> ps[k] < ps[l]
    ensures forall i :: 0 <= i < |order| ==> (i in ps <==> Selected(records[order[i]], owner, status, now))
  {
    if order == [] then []
    else
      var n := |order| - 1;
      var rest := SelectedPositions(records, order[..n], owner, status, now);
      if Selected(records[order[n]], owner, status, now) then rest + [n] else rest
  }

  /**
   * The records the query matches, in the sort order `order` of the collection's ids: the k-th
   * of them is the record at the k-th position of `order` that the query selects.
   */
  function Matching(records: map<string, QRRecord>, order: seq<string>, owner: string, status: string, now: int)
      : (m: seq<QRRecord>)
    requires forall i :: 0 <= i < |order| ==> order[i] in records
    ensures var ps := SelectedPositions(records, order, owner, status, now);
      |m| == |ps| && forall k :: 0 <= k < |ps| ==> m[k] == records[order[ps[k]]]
    ensures forall r :: r in m ==> Selected(r, owner, status, now)
  {
    if order == [] then []
    else
      var n := |order| - 1;
      var rest := Matching(records, order[..n], owner, status, now);
      assert forall i :: 0 <= i < n ==> order[..n][i] == order[i];
      var r := records[order[n]];
      if Selected(r, owner, status, now) then rest + [r] else rest
  }

  /** The ids of `order` that the query selects. */
  ghost function SelectedIds(records: map<string, QRRecord>, order: seq<string>, owner: string, status: string, now: int)
      : set<string>
  {
    set id | id in records && id in order && Selected(records[id], owner, status, now)
  }

  /** Over an order that lists each id once, the matched records are as many as the selected ids. */
  lemma {:induction false} MatchingCount(records: map<string, QRRecord>, order: seq<string>, owner: string,
                                         status: string, now: int)
    requires forall i :: 0 <= i < |order| ==> order[i] in records
    requires forall i, j :: 0 <= i < j < |order| ==> order[i] != order[j]
    ensures |Matching(records, order, owner, status, now)| == |SelectedIds(records, order, owner, status, now)|
  {
    if order != [] {
      var n := |order| - 1;
      var init := order[..n];
      MatchingCount(records, init, owner, status, now);
      var before := SelectedIds(records, init, owner, status, now);
      var x := order[n];
      assert order == init + [x];
      assert x !in init;
      if Selected(records[x], owner, status, now) {
        assert SelectedIds(records, order, owner, status, now) == before + {x};
      } else {
        assert SelectedIds(records, order, owner, status, now) == before;
      }
    }
  }

  /** `countDocuments(query)` over a sort order of the whole collection: the number of selected records. */
  lemma TotalIsSelectedCount(records: map<string, QRRecord>, order: seq<string>, owner: string, status: string, now: int)
    requires ListsKeys(order, records)
    ensures |Matching(records, order, owner, status, now)|
         == |set id | id in records && Selected(records[id], owner, status, now)|
  {
    MatchingCount(records, order, owner, status, now);
    assert SelectedIds(records, order, owner, status, now)
        == set id | id in records && Selected(records[id], owner, status, now);
  }

  /** `Math.ceil(a / b)` in exact arithmetic. */
  function CeilDiv(a: int, b: int): (q: int)
    requires b != 0
    ensures b > 0 ==> (q - 1) * b < a <= q * b
    ensures b < 0 ==> q * b <= a < (q - 1) * b
  {
    if b > 0 then
      var q := (a + b - 1) / b;
      assert a + b - 1 == q * b + (a + b - 1) % b;
      q
    else
      var q := (-a - b - 1) / -b;
      assert -a - b - 1 == q * -b + (-a - b - 1) % -b;
      q
  }

  /** `.skip(skip).limit(n)` over the matched sequence, for a non-negative skip. */
  function PageSlice<T>(m: seq<T>, skip: nat, n: nat): (p: seq<T>)
    ensures |p| <= n
    ensures skip >= |m| ==> p == []
    ensures skip < |m| ==> p == m[skip..Min(skip + n, |m|)]
  {
    if skip >= |m| then [] else m[skip..Min(skip + n, |m|)]
  }

  function Abs(x: int): nat {
    if x < 0 then -x else x
  }

  /** A listed record with its scan figures. */
  datatype ListItem = ListItem(record: QRRecord, totalScans: nat, lastScannedAt: Option<int>)

  datatype Pagination = Pagination(currentPage: int, totalPages: int, totalItems: nat, itemsPerPage: int)

  datatype Listing = Listing(items: seq<ListItem>, pagination: Pagination)

  /** What the store throws for a negative `skip`; the middleware answers it with 500. */
  const NegativeSkipFailure: JsError :=
    JsError("MongoServerError", None, [], None, "skip value must be non-negative")

  /** Attaches `total_scans` and `last_scanned_at` to each listed record. */
  function WithScanFigures(rs: seq<QRRecord>, scans: seq<Scan>): (items: seq<ListItem>)
    ensures |items| == |rs|
    ensures forall i :: 0 <= i < |rs| ==>
      items[i] == ListItem(rs[i], ScanCount(scans, rs[i].qrCodeId), LastScan(scans, rs[i].qrCodeId))
  {
    seq(|rs|, i requires 0 <= i < |rs| => ListItem(rs[i], ScanCount(scans, rs[i].qrCodeId), LastScan(scans, rs[i].qrCodeId)))
  }

  /**
   * `getAllQRs`: `page` and `limit` default to 1 and 10, the page is `(page - 1) * limit`
   * records in, holds at most `|limit|` records (the store reads a negative limit as its
   * absolute value), and a negative skip is a store error. `total_pages` is
   * `Math.ceil(total / limit)` over the unpaged count.
   */
  function ListQRs(records: map<string, QRRecord>, scans: seq<Scan>, order: seq<string>, owner: string,
                   status: string, pageParam: Option<int>, limitParam: Option<int>, now: int,
                   nodeEnv: Option<string>): (reply: Reply<Listing>)
    requires ListsKeys(order, records)
    ensures var page := OrDefault(pageParam, 1);
      var limit := OrDefault(limitParam, 10);
      var m := Matching(records, order, owner, status, now);
      && (reply.Failure? <==> (page - 1) * limit < 0)
      && (reply.Failure? ==> reply.error == HandleError(NegativeSkipFailure, nodeEnv))
      && (reply.Success? ==>
            && reply.status == 200
            && reply.data.pagination == Pagination(page, CeilDiv(|m|, limit), |m|, limit)
            && |m| == |set id | id in records && Selected(records[id], owner, status, now)|
            && |reply.data.items| <= Abs(limit)
            && var shown := PageSlice(m, (page - 1) * limit, Abs(limit));
            && |reply.data.items| == |shown|
            && (forall i :: 0 <= i < |shown| ==>
                  && reply.data.items[i].record == shown[i]
                  && reply.data.items[i].totalScans == ScanCount(scans, shown[i].qrCodeId)
                  && reply.data.items[i].lastScannedAt == LastScan(scans, shown[i].qrCodeId))
            && (|reply.data.items| > 0 ==> (page - 1) * limit < |m|))
  {
    assert forall i :: 0 <= i < |order| ==> order[i] in records;
    TotalIsSelectedCount(records, order, owner, status, now);
    var page := OrDefault(pageParam, 1);
    var limit := OrDefault(limitParam, 10);
    var skip := (page - 1) * limit;
    if skip < 0 then Failure(HandleError(NegativeSkipFailure, nodeEnv))
    else
      var m := Matching(records, order, owner, status, now);
      var pageRecords := PageSlice(m, skip, Abs(limit));
      Success(200, Listing(WithScanFigures(pageRecords, scans), Pagination(page, CeilDiv(|m|, limit), |m|, limit)))
  }

  /** The first `k` pages of `n` records each, concatenated. */
  function Pages<T>(m: seq<T>, n: nat, k: nat): seq<T> {
    if k == 0 then [] else Pages(m, n, k - 1) + PageSlice(m, (k - 1) * n, n)
  }

  /** The first `k` pages are the first `k * n` records. */
  lemma {:induction false} PagesArePrefix<T>(m: seq<T>, n: nat, k: nat)
    ensures Pages(m, n, k) == m[..Min(k * n, |m|)]
  {
    if k > 0 {
      PagesArePrefix(m, n, k - 1);
      assert k * n == (k - 1) * n + n;
    }
  }

  /** Multiplying by a non-negative number keeps the order. */
  lemma MulMonotone(a: int, b: int, n: nat)
    requires a <= b
    ensures a * n <= b * n
  {
    assert b * n - a * n == (b - a) * n;
  }

  /** With a positive limit, total_pages is 0 for no records and at least 1 otherwise. */
  lemma TotalPagesBounds(total: nat, n: nat)
    requires n > 0
    ensures CeilDiv(total, n) >= 0
    ensures total > 0 ==> CeilDiv(total, n) >= 1
  {
    var q := CeilDiv(total, n);
    if q < 1 {
      MulMonotone(q, 0, n);
    }
  }

  /**
   * With a positive limit the pages 1 .. total_pages partition the matched records in order:
   * together they are the whole sequence, the last of them is not empty, and every later page is.
   */
  lemma PagesPartitionListing<T>(m: seq<T>, n: nat, p: nat)
    requires n > 0
    ensures Pages(m, n, CeilDiv(|m|, n)) == m
    ensures |m| > 0 ==> (CeilDiv(|m|, n) - 1) * n >= 0 && PageSlice(m, (CeilDiv(|m|, n) - 1) * n, n) != []
    ensures p > CeilDiv(|m|, n) ==> (p - 1) * n >= 0 && PageSlice(m, (p - 1) * n, n) == []
  {
    var q := CeilDiv(|m|, n);
    TotalPagesBounds(|m|, n);
    PagesArePrefix(m, n, q);
    if |m| > 0 {
      MulMonotone(0, q - 1, n);
    }
    if p > q {
      MulMonotone(q, p - 1, n);
    }
  }

  // ---------------------------------------------------------------------------
  // getQR and getQRStats

  /** A record with its redirect address and scan figures (the reply also carries a QR image). */
  datatype QRDetail = QRDetail(record: QRRecord, redirectUrl: string, totalScans: nat, lastScannedAt: Option<int>)

  /** `getQR`: the caller's record, its redirect address, its scan count and its latest scan time. */
  function GetQR(records: map<string, QRRecord>, scans: seq<Scan>, owner: string, id: string, baseUrl: string)
      : (reply: Reply<QRDetail>)
    ensures reply.Failure? <==> !(id in records && records[id].owner == owner)
    ensures reply.Failure? ==> reply.error == NotFoundError
    ensures reply.Success? ==>
      && reply.status == 200
      && reply.data.record == records[id]
      && reply.data.redirectUrl == RedirectUrl(baseUrl, id)
      && reply.data.totalScans == ScanCount(scans, id)
      && reply.data.lastScannedAt == LastScan(scans, id)
  {
    match FindOwned(records, id, owner)
    case None => Failure(NotFoundError)
    case Some(r) => Success(200, QRDetail(r, RedirectUrl(baseUrl, id), ScanCount(scans, id), LastScan(scans, id)))
  }

  /** The statistics reply: the id, the record's name and the scan statistics. */
  datatype QRStats = QRStats(qrCodeId: string, name: string, stats: Stats)

  /** `group_by || 'day'`. */
  function GroupByOrDay(groupBy: Option<string>): (g: Option<string>)
    ensures g.Some? && g.value != ""
    ensures groupBy.Some? && groupBy.value != "" ==> g == groupBy
  {
    if groupBy.None? || groupBy.value == "" then Some("day") else groupBy
  }

  /** `getQRStats`: the caller's record's name and `getStats` over the log, grouped by day unless told otherwise. */
  function GetQRStats(records: map<string, QRRecord>, scans: seq<Scan>, owner: string, id: string,
                      from: Option<int>, to: Option<int>, groupBy: Option<string>): (reply: Reply<QRStats>)
    ensures reply.Failure? <==> !(id in records && records[id].owner == owner)
    ensures reply.Failure? ==> reply.error == NotFoundError
    ensures reply.Success? ==>
      && reply.status == 200
      && reply.data.qrCodeId == id && reply.data.name == records[id].name
      && reply.data.stats == GetStats(scans, id, from, to, GroupByOrDay(groupBy))
  {
    match FindOwned(records, id, owner)
    case None => Failure(NotFoundError)
    case Some(r) => Success(200, QRStats(id, r.name, GetStats(scans, id, from, to, GroupByOrDay(groupBy))))
  }

  /** The statistics are grouped by day when `group_by` is absent, empty or `day`. */
  lemma DefaultGroupingIsDaily(records: map<string, QRRecord>, scans: seq<Scan>, owner: string, id: string,
                               from: Option<int>, to: Option<int>)
    ensures GetQRStats(records, scans, owner, id, from, to, None)
         == GetQRStats(records, scans, owner, id, from, to, Some(""))
         == GetQRStats(records, scans, owner, id, from, to, Some("day"))
  {
  }

  /** Another user's record cannot be told apart from a missing one, by reading it or its statistics. */
  lemma ForeignRecordLooksMissing(records: map<string, QRRecord>, scans: seq<Scan>, owner: string, id: string,
                                  baseUrl: string, from: Option<int>, to: Option<int>, groupBy: Option<string>)
    requires id in records && records[id].owner != owner
    ensures GetQR(records, scans, owner, id, baseUrl) == GetQR(records - {id}, scans, owner, id, baseUrl)
    ensures GetQRStats(records, scans, owner, id, from, to, groupBy)
         == GetQRStats(records - {id}, scans, owner, id, from, to, groupBy)
  {
  }

  // ---------------------------------------------------------------------------
  // updateQR

  /** A body field that may be absent, `null`, or a value. */
  datatype Field<T> = Absent | Null | Given(value: T)

  /** The body fields `updateQR` reads; `None` is an absent field, `expiresAt` a parsed date. */
  datatype UpdateBody = UpdateBody(targetUrl: JsValue, name: Option<string>, isActive: Option<bool>, expiresAt: Field<int>)

  /**
   * The string the `target_url` path holds after `qrCode.target_url = v`: the store casts
   * numbers and booleans to their text, and the setter trims; `null` is held as no value,
   * which `required` refuses like the empty string.
   */
  function AssignedUrl(v: JsValue): (s: string)
    ensures v.Str? ==> s == Trim(v.s)
    ensures v.Null? || v.Undefined? ==> s == ""
    ensures v.Number? ==> s == IntToDecimal(v.n)
    ensures v.Bool? ==> s == (if v.b then "true" else "false")
  {
    match v
    case Str(t) => Trim(t)
    case Number(n) => IntToDecimal(n)
    case Bool(b) => if b then "true" else "false"
    case _ => ""
  }

  /** The field assignments of `updateQR`: each supplied field replaces the stored one, nothing else changes. */
  function Patch(r: QRRecord, body: UpdateBody): (p: QRRecord)
    ensures p.qrCodeId == r.qrCodeId && p.owner == r.owner && p.qrType == r.qrType
    ensures p.createdAt == r.createdAt && p.updatedAt == r.updatedAt
    ensures body.targetUrl.Undefined? ==> p.targetUrl == r.targetUrl
    ensures !body.targetUrl.Undefined? ==> p.targetUrl == AssignedUrl(body.targetUrl)
    ensures body.name.None? ==> p.name == r.name
    ensures body.isActive.None? ==> p.isActive == r.isActive
    ensures body.expiresAt.Absent? ==> p.expiresAt == r.expiresAt
    ensures body.expiresAt.Null? ==> p.expiresAt.None?
    ensures body.expiresAt.Given? ==> p.expiresAt == Some(body.expiresAt.value)
    ensures body.isActive.Some? ==> p.isActive == body.isActive.value
    ensures body.name.Some? ==> p.name == Trim(body.name.value)
  {
    r.(
      targetUrl := if body.targetUrl.Undefined? then r.targetUrl else AssignedUrl(body.targetUrl),
      name := if body.name.Some? then Trim(body.name.value) else r.name,
      isActive := if body.isActive.Some? then body.isActive.value else r.isActive,
      expiresAt := match body.expiresAt
        case Absent => r.expiresAt
        case Null => None
        case Given(t) => Some(t))
  }

  /** The URL guard as the source writes it, `target_url && !validateUrl(target_url)`: true means refuse. */
  function RefusesUrlAsWritten(v: JsValue, parse: UrlParser): (refuse: bool)
    ensures !Truthy(v) ==> !refuse
    ensures Truthy(v) ==> (refuse <==> !ValidateUrl(v, parse))
  {
    Truthy(v) && !ValidateUrl(v, parse)
  }

  /** The intended URL guard: any supplied `target_url`, falsy or not, must be a valid URL. */
  function RefusesUrl(v: JsValue, parse: UrlParser): (refuse: bool)
    ensures !refuse <==> v.Undefined? || ValidateUrl(v, parse)
    ensures !refuse ==> v.Undefined? || (v.Str? && v.s != "")
  {
    !v.Undefined? && !ValidateUrl(v, parse)
  }

  /** The intended guard refuses all the as-written one refuses, and in addition exactly the supplied falsy values. */
  lemma GuardsDifferOnFalsyValues(v: JsValue, parse: UrlParser)
    ensures RefusesUrl(v, parse) <==> RefusesUrlAsWritten(v, parse) || (!v.Undefined? && !Truthy(v))
  {
  }

  /** The expiry guard shared by both versions: a supplied date before the request time. */
  predicate ExpiryInPast(e: Field<int>, now: int) {
    e.Given? && e.value < now
  }

  /** The request checks of `updateQR` as the source writes them. */
  function UpdateCheckAsWritten(body: UpdateBody, now: int, parse: UrlParser): (e: Option<ErrorResponse>)
    ensures e.None? <==> !RefusesUrlAsWritten(body.targetUrl, parse) && !ExpiryInPast(body.expiresAt, now)
    ensures RefusesUrlAsWritten(body.targetUrl, parse) ==> e == Some(InvalidUrlError)
    ensures !RefusesUrlAsWritten(body.targetUrl, parse) && ExpiryInPast(body.expiresAt, now) ==> e == Some(InvalidExpiryError)
  {
    if RefusesUrlAsWritten(body.targetUrl, parse) then Some(InvalidUrlError)
    else if ExpiryInPast(body.expiresAt, now) then Some(InvalidExpiryError)
    else None
  }

  /** The request checks of `updateQR` with the intended URL guard, which `UpdateQRIntended` uses. */
  function UpdateCheck(body: UpdateBody, now: int, parse: UrlParser): (e: Option<ErrorResponse>)
    ensures e.None? <==> !RefusesUrl(body.targetUrl, parse) && !ExpiryInPast(body.expiresAt, now)
    ensures RefusesUrl(body.targetUrl, parse) ==> e == Some(InvalidUrlError)
    ensures !RefusesUrl(body.targetUrl, parse) && ExpiryInPast(body.expiresAt, now) ==> e == Some(InvalidExpiryError)
  {
    if RefusesUrl(body.targetUrl, parse) then Some(InvalidUrlError)
    else if ExpiryInPast(body.expiresAt, now) then Some(InvalidExpiryError)
    else None
  }

  /**
   * As written, `target_url: 0` passes the URL guard; the store casts it to the string "0",
   * the record still conforms to the schema, and it is saved with a target that is not a URL.
   */
  lemma AsWrittenUpdateStoresNonUrl(r: QRRecord, now: int, parse: UrlParser)
    requires ParserNeedsScheme(parse) && Conforms(r)
    ensures var body := UpdateBody(Number(0), None, None, Absent);
      && UpdateCheckAsWritten(body, now, parse).None?
      && Patch(r, body).targetUrl == "0"
      && Conforms(Patch(r, body))
      && !ValidateUrl(Str(Patch(r, body).targetUrl), parse)
  {
    var zero: string := "0";
    assert NatToDecimal(0) == zero;
    assert zero[0] != ':';
    assert parse(zero) == None;
  }

  /**
   * With the intended guard, an update that passes the checks either leaves `target_url`
   * alone or stores the trimmed text of a validated http(s) URL.
   */
  lemma UpdatedUrlWasValidated(r: QRRecord, body: UpdateBody, now: int, parse: UrlParser)
    requires UpdateCheck(body, now, parse).None?
    ensures body.targetUrl.Undefined? ==> Patch(r, body).targetUrl == r.targetUrl
    ensures !body.targetUrl.Undefined? ==>
      && body.targetUrl.Str? && ValidateUrl(body.targetUrl, parse)
      && Patch(r, body).targetUrl == Trim(body.targetUrl.s)
  {
  }

  /** An update that supplies no field changes no field. */
  lemma EmptyPatchIsIdentity(r: QRRecord)
    ensures Patch(r, UpdateBody(Undefined, None, None, Absent)) == r
  {
  }

  /**
   * The shared steps of `updateQR` once the request checks have given `check`: the owner-scoped
   * lookup, the checks' reply, the field assignments and `save()`, whose schema failure is
   * answered by the error middleware. The reply carries the saved record.
   */
  method ApplyUpdate(db: Database, owner: string, id: string, body: UpdateBody, check: Option<ErrorResponse>,
                     now: int, nodeEnv: Option<string>) returns (reply: Reply<QRRecord>)
    requires db.Valid()
    modifies db
    ensures db.Valid() && db.scans == old(db.scans)
    ensures reply.Failure? ==> db.records == old(db.records)
    ensures FindOwned(old(db.records), id, owner).None? ==> reply == Failure(NotFoundError)
    ensures FindOwned(old(db.records), id, owner).Some? ==>
      var p := Patch(old(db.records)[id], body);
      && (check.Some? ==> reply == Failure(check.value))
      && (check.None? && !Conforms(p) ==> reply == Failure(HandleError(ValidationFailure(SchemaErrors(p)), nodeEnv)))
      && (check.None? && Conforms(p) ==>
            reply == Success(200, PreSave(p, now)) && db.records == old(db.records)[id := PreSave(p, now)])
  {
    var found := FindOwned(db.records, id, owner);
    if found.None? {
      reply := Failure(NotFoundError);
      return;
    }
    if check.Some? {
      reply := Failure(check.value);
      return;
    }
    var p := Patch(found.value, body);
    var err := db.Save(p, now);
    if err.Some? {
      reply := Failure(HandleError(err.value, nodeEnv));
      return;
    }
    reply := Success(200, PreSave(p, now));
  }

  /**
   * `updateQR` as written, with the guard `target_url && !validateUrl(target_url)`. A falsy
   * `target_url` skips the URL check: `""` and `null` are then refused by the schema's `required`
   * (a 400 `VALIDATION_ERROR`), while `0` and `false` are stored as "0" and "false".
   */
  method UpdateQR(db: Database, owner: string, id: string, body: UpdateBody, now: int,
                  parse: UrlParser, nodeEnv: Option<string>) returns (reply: Reply<QRRecord>)
    requires db.Valid()
    modifies db
    ensures db.Valid() && db.scans == old(db.scans)
    ensures reply.Failure? ==> db.records == old(db.records)
    ensures FindOwned(old(db.records), id, owner).None? ==> reply == Failure(NotFoundError)
    ensures FindOwned(old(db.records), id, owner).Some? ==>
      var p := Patch(old(db.records)[id], body);
      var check := UpdateCheckAsWritten(body, now, parse);
      && (check.Some? ==> reply == Failure(check.value))
      && (check.None? && !Conforms(p) ==> reply == Failure(HandleError(ValidationFailure(SchemaErrors(p)), nodeEnv)))
      && (check.None? && Conforms(p) ==>
            reply == Success(200, PreSave(p, now)) && db.records == old(db.records)[id := PreSave(p, now)])
  {
    reply := ApplyUpdate(db, owner, id, body, UpdateCheckAsWritten(body, now, parse), now, nodeEnv);
  }

  /**
   * `updateQR` with the intended guard: every supplied `target_url` must be a valid URL, so an
   * update that succeeds stores either the old target or the trimmed text of a validated URL.
   */
  method UpdateQRIntended(db: Database, owner: string, id: string, body: UpdateBody, now: int,
                          parse: UrlParser, nodeEnv: Option<string>) returns (reply: Reply<QRRecord>)
    requires db.Valid()
    modifies db
    ensures db.Valid() && db.scans == old(db.scans)
    ensures reply.Failure? ==> db.records == old(db.records)
    ensures FindOwned(old(db.records), id, owner).None? ==> reply == Failure(NotFoundError)
    ensures FindOwned(old(db.records), id, owner).Some? ==>
      var p := Patch(old(db.records)[id], body);
      var check := UpdateCheck(body, now, parse);
      && (check.Some? ==> reply == Failure(check.value))
      && (check.None? && !Conforms(p) ==> reply == Failure(HandleError(ValidationFailure(SchemaErrors(p)), nodeEnv)))
      && (check.None? && Conforms(p) ==>
            reply == Success(200, PreSave(p, now)) && db.records == old(db.records)[id := PreSave(p, now)])
    ensures reply.Success? ==>
      id in old(db.records) && id in db.records
      && (body.targetUrl.Undefined? ==> db.records[id].targetUrl == old(db.records)[id].targetUrl)
      && (!body.targetUrl.Undefined? ==>
            ValidateUrl(body.targetUrl, parse) && db.records[id].targetUrl == Trim(body.targetUrl.s))
  {
    reply := ApplyUpdate(db, owner, id, body, UpdateCheck(body, now, parse), now, nodeEnv);
    if reply.Success? {
      UpdatedUrlWasValidated(old(db.records)[id], body, now, parse);
    }
  }

  /**
   * As written, an empty or `null` `target_url` gets past the URL guard and is refused by the
   * schema instead: 400 `VALIDATION_ERROR` with the message "Target URL is required".
   */
  lemma AsWrittenEmptyUrlFailsSchema(r: QRRecord, v: JsValue, now: int, parse: UrlParser, nodeEnv: Option<string>)
    requires v == Str("") || v == JsValue.Null
    ensures var body := UpdateBody(v, None, None, Absent);
      && UpdateCheckAsWritten(body, now, parse).None?
      && !Conforms(Patch(r, body))
      && var reply := HandleError(ValidationFailure(SchemaErrors(Patch(r, body))), nodeEnv);
      && reply.status == 400 && reply.code == "VALIDATION_ERROR"
      && FieldMessage(TargetUrlRequired) in Messages(SchemaErrors(Patch(r, body)))
  {
    var p := Patch(r, UpdateBody(v, None, None, Absent));
    assert Trim("") == "";
    assert TargetUrlRequired in SchemaErrors(p);
  }

  // ---------------------------------------------------------------------------
  // deleteQR

  /** `deleteQR`: the owner-scoped lookup, then the record's scans, then the record itself. */
  method DeleteQR(db: Database, owner: string, id: string) returns (reply: Reply<()>)
    requires db.Valid()
    modifies db
    ensures db.Valid()
    ensures FindOwned(old(db.records), id, owner).None? ==>
      reply == Failure(NotFoundError) && db.records == old(db.records) && db.scans == old(db.scans)
    ensures FindOwned(old(db.records), id, owner).Some? ==>
      && reply == Success(200, ())
      && db.records == old(db.records) - {id}
      && db.scans == RemoveScansOf(old(db.scans), id)
  {
    var found := FindOwned(db.records, id, owner);
    if found.None? {
      reply := Failure(NotFoundError);
      return;
    }
    db.DeleteScansOf(id);
    db.DeleteRecord(id);
    reply := Success(200, ());
  }
}
