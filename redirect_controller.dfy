/**
 * The public redirect endpoint `GET /q/:qrCodeId`: look the record up by id alone, refuse
 * missing, disabled and expired records with an error page, otherwise record the scan
 * and then answer with a 302 to the target URL.
 */
module RedirectController {
  import opened JsText
  import opened QRCodeModel
  import opened ScanLog
  import opened Store

  /** The text an error page is built from. */
  datatype PageText = PageText(title: string, message: string, icon: string)

  /** The page for the `error` key, also used for any key that has no page of its own. */
  const GenericPage: PageText := PageText(
    "Something Went Wrong",
    "An error occurred while processing your request.",
    "\U{26A0}\U{FE0F}")

  /** The page keys `getErrorPage` knows. */
  predicate IsPageKey(kind: string) {
    kind == "not_found" || kind == "expired" || kind == "disabled" || kind == "error"
  }

  /** `getErrorPage(type)`: the title, message and icon for a page key; unknown keys fall back to `error`. */
  function ErrorPage(kind: string): (p: PageText)
    ensures kind == "not_found" ==> p == PageText(
      "QR Code Not Found", "This QR code does not exist or has been deleted.", "\U{1F50D}")
    ensures kind == "expired" ==> p == PageText(
      "QR Code Expired", "This QR code has expired and is no longer active.", "\U{23F0}")
    ensures kind == "disabled" ==> p == PageText(
      "QR Code Disabled", "This QR code has been disabled by its owner.", "\U{1F6AB}")
    ensures !IsPageKey(kind) || kind == "error" ==> p == GenericPage
  {
    if kind == "not_found" then
      PageText("QR Code Not Found", "This QR code does not exist or has been deleted.", "\U{1F50D}")
    else if kind == "expired" then
      PageText("QR Code Expired", "This QR code has expired and is no longer active.", "\U{23F0}")
    else if kind == "disabled" then
      PageText("QR Code Disabled", "This QR code has been disabled by its owner.", "\U{1F6AB}")
    else GenericPage
  }

  /** The four keys give four different pages, and both refusal reasons have a page of their own. */
  lemma PagesAreDistinct(r: Reason)
    ensures ErrorPage("not_found") != ErrorPage("expired")
    ensures ErrorPage("not_found") != ErrorPage("disabled")
    ensures ErrorPage("not_found") != ErrorPage("error")
    ensures ErrorPage("expired") != ErrorPage("disabled")
    ensures ErrorPage("expired") != ErrorPage("error")
    ensures ErrorPage("disabled") != ErrorPage("error")
    ensures IsPageKey(ReasonKey(r)) && ErrorPage(ReasonKey(r)) != GenericPage
  {
    assert ErrorPage("not_found").icon[0] == '\U{1F50D}';
    assert ErrorPage("expired").icon[0] == '\U{23F0}';
    assert ErrorPage("disabled").icon[0] == '\U{1F6AB}';
    assert ErrorPage("error").icon[0] == '\U{26A0}';
  }

  /** What the endpoint sends: a redirect, or an HTML page with a status. */
  datatype Response = Redirect(status: int, location: string) | Html(status: int, page: PageText)

  /** A store call that throws: the lookup, or the scan insert. */
  datatype StoreFault = NoFault | LookupFails | AppendFails

  /** The observable order of the handler's store calls and reply. */
  datatype Step = LookedUp(id: string) | ScanAppended(id: string) | Responded(status: int)

  /**
   * `handleRedirect`. The lookup ignores the owner. A refused record is answered 404 or 410
   * and logs nothing; a valid one gets exactly one scan stamped `now`, appended before the
   * 302 is sent; a store failure is answered 500 with the generic page.
   */
  method HandleRedirect(db: Database, qrCodeId: string, now: int, fault: StoreFault)
      returns (resp: Response, steps: seq<Step>)
    requires db.Valid()
    modifies db
    ensures db.Valid() && db.records == old(db.records)
    ensures fault == LookupFails ==>
      resp == Html(500, GenericPage) && db.scans == old(db.scans) && steps == [Responded(500)]
    ensures fault != LookupFails && qrCodeId !in old(db.records) ==>
      resp == Html(404, ErrorPage("not_found")) && db.scans == old(db.scans)
    ensures fault != LookupFails && qrCodeId in old(db.records) ==>
      var v := IsValidForRedirect(old(db.records)[qrCodeId], now);
      && (v.Invalid? ==> resp == Html(410, ErrorPage(ReasonKey(v.reason))) && db.scans == old(db.scans))
      && (v == Valid && fault == AppendFails ==> resp == Html(500, GenericPage) && db.scans == old(db.scans))
      && (v == Valid && fault == NoFault ==>
            resp == Redirect(302, old(db.records)[qrCodeId].targetUrl)
            && db.scans == old(db.scans) + [Scan(qrCodeId, now)])
    ensures resp.Redirect? <==>
      steps == [LookedUp(qrCodeId), ScanAppended(qrCodeId), Responded(302)]
    ensures resp.Redirect? ==> resp.location == old(db.records)[qrCodeId].targetUrl
    ensures db.scans == old(db.scans) + (if resp.Redirect? then [Scan(qrCodeId, now)] else [])
  {
    if fault == LookupFails {
      resp := Html(500, ErrorPage("error"));
      steps := [Responded(500)];
      return;
    }
    steps := [LookedUp(qrCodeId)];
    if qrCodeId !in db.records {
      resp := Html(404, ErrorPage("not_found"));
      steps := steps + [Responded(404)];
      return;
    }
    var qrCode := db.records[qrCodeId];
    var validity := IsValidForRedirect(qrCode, now);
    if validity.Invalid? {
      resp := Html(410, ErrorPage(ReasonKey(validity.reason)));
      steps := steps + [Responded(410)];
      return;
    }
    if fault == AppendFails {
      resp := Html(500, ErrorPage("error"));
      steps := steps + [Responded(500)];
      return;
    }
    db.AppendScan(qrCodeId, now);
    steps := steps + [ScanAppended(qrCodeId)];
    resp := Redirect(302, qrCode.targetUrl);
    steps := steps + [Responded(302)];
  }

  /**
   * A successful redirect raises the scanned record's total by one and leaves every other
   * record's statistics unchanged; a refused one changes nothing.
   */
  lemma RedirectCountsOneScan(before: seq<Scan>, after: seq<Scan>, id: string, now: int, redirected: bool,
                              other: string, from: Option<int>, to: Option<int>, groupBy: Option<string>)
    requires after == before + (if redirected then [Scan(id, now)] else [])
    requires other != id
    ensures GetStats(after, id, from, to, groupBy).totalScans
         == GetStats(before, id, from, to, groupBy).totalScans + (if redirected then 1 else 0)
    ensures GetStats(after, other, from, to, groupBy) == GetStats(before, other, from, to, groupBy)
  {
    if redirected {
      StatsAfterScan(before, id, now, other, from, to, groupBy);
    } else {
      assert after == before;
    }
  }
}
