# QR code service backend — a verified model

This project models the core of a QR-code redirect and tracking backend. Owners create QR
records that point at a target URL, optionally with an expiry time. A public endpoint
`GET /q/:qrCodeId` checks the record, logs one scan event and answers with a 302 to the target.
Owners list, read, update and delete their records and read aggregate scan statistics.

The model has one module per part of the backend:

- `JsText` holds the JavaScript primitives the backend relies on. These are JSON body
  values and their truthiness, `String.prototype.trim`, the UTF-16 `length`, `join`, and the
  decimal text of integers.
- `Validators` holds `validateUrl`, `validateQRType` and `sanitizeString`.
- `ErrorHandling` is the global error middleware.
- `QRCodeModel` is the QR record. It covers the schema defaults and constraints, the
  `pre('save')` hook, the `is_expired` virtual and `isValidForRedirect`.
- `PeriodLabel` gives the `$dateToString` labels that statistics are grouped by. It uses UTC
  civil-date arithmetic and `%U` Sunday-based weeks.
- `ScanLog` covers `getScanCount` and `getStats`: the window, the per-period tally sorted by
  label, first and last scan, and the ten most recent scans.
- `Store` is the document store, a class `Database`. It holds the record collection, keyed by
  its unique `qr_code_id`, and the append-only scan log. Each method is one store call.
- `RedirectController` covers `handleRedirect` and `getErrorPage`.
- `QrController` covers `createQR`, `getAllQRs`, `getQR`, `updateQR`, `deleteQR` and
  `getQRStats`.

Times are integer milliseconds since the epoch. The request time `now` is a parameter.
Several inputs are parameters too: the id that `uuid` would generate, `BASE_URL`,
`NODE_ENV` and the authenticated user's id. The WHATWG URL parser is an abstract function
from text to an optional protocol. The only thing assumed about it is that text without a
':' does not parse.

Where the design description and the code disagree, the model follows the code:

- At the exact instant `now == expires_at` the code still redirects. It refuses only once
  `now > expires_at`.
- A failed scan insert makes the code answer 500 with the generic page. It does not still
  redirect.
- Another user's record is answered 404 `QR_NOT_FOUND`, not "forbidden". This assumes the
  owner is stored with each record, as the controller intends. The QR schema itself declares
  no `user` path (see "## Left out").

## Model

| member | source | states |
|---|---|---|
| JsText.Trim | backend/src/models/QRCode.js:13 | The `trim: true` setter keeps an infix of the input that neither starts nor ends with white space. Only white space is dropped, from both ends. |
| JsText.TrimIdempotent | backend/src/models/QRCode.js:19 | Trimming a value that was already trimmed changes nothing. |
| JsText.Utf16Length | backend/src/models/QRCode.js:14 | `maxlength` counts UTF-16 units. There are between one and two per character. |
| JsText.Truthy | backend/src/utils/validators.js:7 | A value is falsy exactly when it is `undefined`, `null`, `false`, `0` or the empty string. |
| JsText.Join | backend/src/middleware/errorHandler.js:14 | `messages.join(', ')`: empty for no parts; otherwise it starts with the first part and ends with the last. |
| JsText.JoinPrepend | backend/src/middleware/errorHandler.js:14 | Joining is also right-nested: the first part, the separator, then the join of the remaining parts. |
| JsText.NatToDecimal | backend/src/controllers/qrController.js:230 | The decimal text a number is cast to is all digits and has no leading zero. |
| JsText.DecimalRoundTrip | backend/src/controllers/qrController.js:230 | Reading the decimal text of a number back gives the number. |
| JsText.IntToDecimal | backend/src/controllers/qrController.js:230 | `String(i)` is '-' exactly for a negative number, followed by digits whose value is the magnitude. |
| Validators.ValidateUrl | backend/src/utils/validators.js:6-18 | Falsy or non-string input is refused. A non-empty string is accepted exactly when it parses with protocol `http:` or `https:`. |
| Validators.ValidUrlHasScheme | backend/src/utils/validators.js:11-17 | Under any parser that needs a scheme, an accepted URL contains ':'. |
| Validators.ValidateQRType | backend/src/utils/validators.js:25-28 | Accepts exactly the four strings `url`, `form`, `video` and `document`. |
| Validators.RemoveAngles | backend/src/utils/validators.js:39 | Every '<' and '>' is removed. Every other character keeps its multiplicity. Text without brackets is unchanged. |
| Validators.RemoveAnglesConcat | backend/src/utils/validators.js:39 | Removal works piecewise and keeps order: on a concatenation it is the removal of each part, in order; a single character is dropped exactly when it is a bracket. |
| Validators.SanitizeString | backend/src/utils/validators.js:35-40 | Falsy or non-string input gives ''. A non-empty string gives its trimmed text with the brackets removed, so the result has no angle brackets and is not longer than the input. |
| Validators.SanitizeIsTrimWithoutAngles | backend/src/utils/validators.js:35-40 | On text without angle brackets, sanitising equals trimming. |
| Validators.SanitizeNotIdempotent | backend/src/utils/validators.js:39 | Sanitising is not idempotent: " < a" becomes " a", and a second pass gives "a". |
| ErrorHandling.HandleError | backend/src/middleware/errorHandler.js:4-51 | The first matching rule wins: validation error, then duplicate key 11000, then cast error, each 400 with its own code and message. The default status is the error's own non-zero status, else 500, with `INTERNAL_ERROR`, showing the error's message only in development. `success` is always false. |
| ErrorHandling.MessageHiddenOutsideDevelopment | backend/src/middleware/errorHandler.js:42-50 | Outside development, the reply does not depend on the error's message. |
| ErrorHandling.BadRequestSources | backend/src/middleware/errorHandler.js:8-50 | A 400 reply arises exactly from the three client-error rules or from an error carrying status 400. |
| PeriodLabel.GranularityOf | backend/src/models/ScanLog.js:38-50 | `hour`, `week` and `month` select their formats. An absent `groupBy` selects the day format. |
| PeriodLabel.CivilFromDays | backend/src/models/ScanLog.js:57 | The UTC date of a day number has a month 1..12 and a day 1..31, and converting the date back gives the day number. |
| PeriodLabel.YearLength | backend/src/models/ScanLog.js:57 | A (March-based) Gregorian year has 365 or 366 days. |
| PeriodLabel.SundayWeekOfYear | backend/src/models/ScanLog.js:43 | The `%U` week of any day lies between 0 and 53. |
| PeriodLabel.FormatSpells | backend/src/models/ScanLog.js:37-50 | Each format lays out 'YYYY-MM', 'YYYY-MM-DD', 'YYYY-MM-DD HH:00' or 'YYYY-WUU', and its digit fields spell the date, hour and week, when these fit their widths. |
| PeriodLabel.Label | backend/src/models/ScanLog.js:57 | For a four-digit year, the label of a time is its format's layout spelling the time's UTC date, hour of day and `%U` week. |
| PeriodLabel.DayLabelsIdentifyDays | backend/src/models/ScanLog.js:57 | For four-digit years, two times share a day label exactly when they fall on the same UTC day. |
| PeriodLabel.HourLabelsIdentifyHours | backend/src/models/ScanLog.js:57 | For four-digit years, two times share an hour label exactly when they fall in the same UTC hour. |
| PeriodLabel.FormatsNest | backend/src/models/ScanLog.js:37-50 | '%Y-%m' is a proper prefix of '%Y-%m-%d', which is a proper prefix of '%Y-%m-%d %H:00'. |
| PeriodLabel.LabelsNest | backend/src/models/ScanLog.js:57 | For any time, its month label starts its day label, which starts its hour label. |
| PeriodLabel.SameDaySameLabels | backend/src/models/ScanLog.js:57 | Two times on the same UTC day share their day, week and month labels. |
| PeriodLabel.EpochDate | backend/src/models/ScanLog.js:57 | Day 0 is 1970-01-01. |
| PeriodLabel.SampleDate | backend/src/models/ScanLog.js:57 | Day 19675 is 2023-11-14. |
| PeriodLabel.SampleWeek | backend/src/models/ScanLog.js:43 | Under `%U`, 2023-11-14 is in week 46. |
| ScanLog.ScanCount | backend/src/models/ScanLog.js:20-22 | `getScanCount` is never more than the log's length. |
| ScanLog.ScanCountIsEntryCount | backend/src/models/ScanLog.js:20-22 | The count is the number of log positions that carry the id. |
| ScanLog.ScanCountAppend | backend/src/models/ScanLog.js:20-22 | Appending one scan adds one to its QR's count and nothing to any other QR's count. |
| ScanLog.RemoveScansOf | backend/src/controllers/qrController.js:272 | `deleteMany` leaves the log's length minus the QR's count. None of them carries the id, every other id keeps its count, and every kept scan comes from the log. |
| ScanLog.RemoveKeepsOtherTimes | backend/src/controllers/qrController.js:272 | Deleting one QR's scans leaves every other QR's scan times unchanged and in order. |
| ScanLog.AllTimes | backend/src/models/ScanLog.js:29 | There is one scan time per matching log entry. Each is the time of a scan of that QR in the log, and every scan of that QR contributes its time. |
| ScanLog.AllTimesAppend | backend/src/models/ScanLog.js:29 | A new scan adds its time at the end of its own QR's times, and to no other QR's. |
| ScanLog.Window | backend/src/models/ScanLog.js:29-34 | Each time is kept exactly when it lies in the inclusive `[from, to]` window, with the same multiplicity. With no bounds the window is everything. |
| ScanLog.StrLessIrreflexive | backend/src/models/ScanLog.js:61 | The label order used by `$sort` is irreflexive. |
| ScanLog.StrLessTransitive | backend/src/models/ScanLog.js:61 | The label order is transitive. |
| ScanLog.StrLessTotal | backend/src/models/ScanLog.js:61 | Any two distinct labels are ordered one way or the other. |
| ScanLog.Insert | backend/src/models/ScanLog.js:56-61 | Counting one more label keeps the rows strictly ascending with positive counts. It adds one to that label's row and leaves the other rows alone. |
| ScanLog.Tally | backend/src/models/ScanLog.js:53-69 | `$group` then `$sort`: rows strictly ascending by label with positive counts. Each label's count is its multiplicity, and the counts sum to the number of labels. |
| ScanLog.LabelsOf | backend/src/models/ScanLog.js:57 | There is one label per scan time, in order. |
| ScanLog.MinOf | backend/src/models/ScanLog.js:75-77 | The result is an element that no element is below. |
| ScanLog.MaxOf | backend/src/models/ScanLog.js:79-81 | The result is an element that no element is above. |
| ScanLog.SortDesc | backend/src/models/ScanLog.js:85 | `sort({ scanned_at: -1 })` gives a descending permutation. |
| ScanLog.Recent | backend/src/models/ScanLog.js:84-87 | `limit(10)` returns `min(10, n)` times, newest first, drawn from the scans. No omitted scan is newer than a returned one. |
| ScanLog.FirstScan | backend/src/models/ScanLog.js:75-77 | Absent exactly when there are no scans. Otherwise it is the earliest scan time. |
| ScanLog.LastScan | backend/src/models/ScanLog.js:79-81 | Absent exactly when there are no scans. Otherwise it is the latest scan time. |
| ScanLog.GetStats | backend/src/models/ScanLog.js:25-96 | The total is the count. First and last are absent exactly without scans, and first <= last. There are `min(10, total)` recent scans. Period rows are ascending and positive, and sum to the windowed scans, never more than the total. |
| ScanLog.FirstAndLastAreExtremes | backend/src/models/ScanLog.js:75-81 | With scans present, `first_scan` and `last_scan` are the earliest and latest scan times. |
| ScanLog.RecentAreTheLatest | backend/src/models/ScanLog.js:84-87 | `recent_scans` is descending, drawn from the QR's scans, and no omitted scan is newer. |
| ScanLog.WindowAffectsOnlyPeriods | backend/src/models/ScanLog.js:26-87 | `from`/`to` change only `scans_by_period`. Total, first, last and recent ignore the window. |
| ScanLog.UnwindowedPeriodsCoverAllScans | backend/src/models/ScanLog.js:53-72 | Without a window, the period counts add up to `total_scans`. |
| ScanLog.PeriodRowsMatchLabels | backend/src/models/ScanLog.js:53-69 | Each row counts exactly the windowed scans with its label. There is one row per distinct label. |
| ScanLog.StatsFollowTimes | backend/src/models/ScanLog.js:25-96 | A QR's statistics depend only on its own scan times: equal times give equal statistics. |
| ScanLog.StatsAfterScan | backend/src/controllers/redirectController.js:29-31 | A logged scan raises that QR's total by one and leaves every other QR's statistics identical. |
| ScanLog.StatsAfterDelete | backend/src/controllers/qrController.js:272 | After the cascade delete, the QR's statistics are empty and every other QR's are unchanged. |
| QRCodeModel.IsValidForRedirect | backend/src/models/QRCode.js:69-77 | Inactive gives `disabled` whatever the expiry. Active and past expiry gives `expired`. Otherwise valid, including at the expiry instant. |
| QRCodeModel.IsExpired | backend/src/models/QRCode.js:63-66 | False without an expiry. Otherwise true exactly when now is after it. |
| QRCodeModel.ActiveInvalidIffExpired | backend/src/models/QRCode.js:63-77 | An active record is refused exactly when `is_expired` holds, and then with reason `expired`. |
| QRCodeModel.ValidIffActiveAndNotExpired | backend/src/models/QRCode.js:69-77 | Valid exactly when active and not expired. When both inactive and expired, the reason is `disabled`. |
| QRCodeModel.TypeEnumMatchesValidator | backend/src/models/QRCode.js:21-25 | The schema's type enum and `validateQRType` accept the same strings. |
| QRCodeModel.Conforms | backend/src/models/QRCode.js:10-25 | A record conforms exactly when its name has at most 100 UTF-16 units, its target URL is non-empty and its type passes `validateQRType`; its name then has at most 100 characters. |
| QRCodeModel.SchemaErrors | backend/src/models/QRCode.js:10-25 | No failures exactly when the document conforms. Each failure appears exactly when its constraint is broken: name over 100 UTF-16 units, empty target URL, type outside the enum. |
| QRCodeModel.ValidationFailure | backend/src/models/QRCode.js:18 | A non-conforming document raises a `ValidationError` carrying one message per failed path. |
| QRCodeModel.SchemaFailureReply | backend/src/middleware/errorHandler.js:8-17 | A rejected document is answered 400 `VALIDATION_ERROR` with its messages joined by ', '. |
| QRCodeModel.PreSave | backend/src/models/QRCode.js:45-48 | `updated_at` becomes the save time and no other field changes. |
| QRCodeModel.NewDocument | backend/src/controllers/qrController.js:53-60 | The created document takes name 'Untitled QR' and type 'url' when those are falsy. Name and URL are trimmed. It is active, carries the given expiry, and both timestamps are the creation time. |
| QRCodeModel.DefaultNameConforms | backend/src/models/QRCode.js:10-15 | The default name needs no trimming and fits the 100-unit limit. |
| QRCodeModel.DefaultsConform | backend/src/models/QRCode.js:10-25 | A document built from defaults conforms whenever its trimmed URL is non-empty. |
| QRCodeModel.NewDocumentRedirects | backend/src/controllers/qrController.js:31-60 | A new record whose expiry is not before now redirects at creation time. |
| Store.Database.Create | backend/src/models/QRCode.js:3-48 | A schema failure or a taken id leaves the collection unchanged and yields the store error. Otherwise the record is inserted as the save hook leaves it. |
| Store.Database.Save | backend/src/models/QRCode.js:45-48 | A schema failure leaves the collection unchanged. Otherwise the record is replaced by its hooked version. |
| Store.Database.AppendScan | backend/src/controllers/redirectController.js:29-31 | The scan log gains exactly one event at its end, and the records are unchanged. |
| Store.Database.DeleteScansOf | backend/src/controllers/qrController.js:272 | The log loses exactly that QR's scans, and the records are unchanged. |
| Store.Database.DeleteRecord | backend/src/controllers/qrController.js:275 | Only that id leaves the collection, and the log is unchanged. |
| Store.FindOwned | backend/src/controllers/qrController.js:157 | Found exactly when the id exists and belongs to the caller. The answer does not depend on other users' records. |
| RedirectController.ErrorPage | backend/src/controllers/redirectController.js:45-69 | Each of the four keys has its title, message and icon. Any unknown key gets the `error` page. |
| RedirectController.PagesAreDistinct | backend/src/controllers/redirectController.js:46-67 | The four pages differ. Both refusal reasons map to a page key of their own. |
| RedirectController.HandleRedirect | backend/src/controllers/redirectController.js:9-40 | The lookup ignores the owner. Missing gives 404. A refused record gives 410 with its reason's page. A store failure gives 500. None of these logs a scan. Otherwise exactly one scan stamped now is appended before the 302 to the target URL. Records never change. |
| RedirectController.RedirectCountsOneScan | backend/src/controllers/redirectController.js:28-34 | After a redirect, the QR's total is one higher and other QRs are untouched. After a refusal, nothing changes. |
| QrController.RedirectUrl | backend/src/controllers/qrController.js:40 | The address is the base URL, then "/q/", then the id. |
| QrController.RedirectUrlInjective | backend/src/controllers/qrController.js:40 | Different ids get different redirect addresses. |
| QrController.CreateCheck | backend/src/controllers/qrController.js:16-36 | Checks in order: a falsy URL gives `MISSING_REQUIRED_FIELD`, an invalid one `INVALID_URL`, an expiry before now `INVALID_EXPIRY_DATE`. All pass exactly for a valid URL and a non-past expiry. |
| QrController.CreateQR | backend/src/controllers/qrController.js:11-80 | A failed check changes nothing. Otherwise the defaulted document is created under the fresh id and answered 201 with its redirect URL. A schema or duplicate-key failure is answered by the middleware and changes nothing. Scans are untouched. |
| QrController.CreatedRecordIsLive | backend/src/controllers/qrController.js:31-60 | A record that passes the checks redirects at creation time, to the trimmed text of a validated URL. |
| QrController.OrDefault | backend/src/controllers/qrController.js:88-89 | parseInt(x), or d when that is falsy, is never 0. It is the default exactly for NaN, 0 or the default itself. |
| QrController.ExpiredFilterIsExpiredVirtual | backend/src/controllers/qrController.js:106-107 | The `expired` filter selects exactly the records whose `is_expired` is true. |
| QrController.ActiveFilterMatchesValidity | backend/src/controllers/qrController.js:98-103 | Away from the expiry instant, the `active` filter selects exactly the records that redirect. |
| QrController.ExpiryInstantGap | backend/src/controllers/qrController.js:98-108 | At its expiry instant an active record still redirects, yet only `all` lists it. |
| QrController.StatusFiltersCover | backend/src/controllers/qrController.js:98-108 | `active` overlaps neither `inactive` nor `expired`. Away from the expiry instant, every record is in one of the three. |
| QrController.MatchesStatus | backend/src/controllers/qrController.js:98-108 | `active` keeps the records that redirect, except one at its expiry instant. `inactive` keeps the disabled ones, `expired` those whose `is_expired` holds, and any other status keeps everything. |
| QrController.SelectedPositions | backend/src/controllers/qrController.js:95-112 | The positions of the sort order whose records the query selects, ascending: a position is included exactly when its record is selected. |
| QrController.Matching | backend/src/controllers/qrController.js:95-112 | The k-th matched record is the record at the k-th selected position of the sort order, so the query keeps exactly the caller's records that pass the status filter, in sort order. |
| QrController.MatchingCount | backend/src/controllers/qrController.js:113 | Over an order that lists each id once, the matched records are as many as the selected ids. |
| QrController.TotalIsSelectedCount | backend/src/controllers/qrController.js:113 | Over a sort order of the whole collection, the number of matched records is the number of the caller's records the status filter selects. |
| QrController.CeilDiv | backend/src/controllers/qrController.js:138 | `Math.ceil(a / b)`: the least q with a <= q*b for positive b, and the mirrored bound for negative b. |
| QrController.PageSlice | backend/src/controllers/qrController.js:112 | `skip(s).limit(n)`: at most n records, empty past the end, otherwise the records from s on. |
| QrController.WithScanFigures | backend/src/controllers/qrController.js:117-130 | Each listed record carries its scan count and latest scan time. |
| QrController.ListQRs | backend/src/controllers/qrController.js:86-147 | A negative skip is a store error answered by the middleware. Otherwise the items are exactly the page slice of the matching records (at most the absolute value of `limit` of them, from the skip on), each with its scan count and latest scan time. Pagination is (page, ceil(total/limit), total, limit), where total is the number of selected records. |
| QrController.PagesArePrefix | backend/src/controllers/qrController.js:111-112 | The first k pages of n records are the first k*n matching records. |
| QrController.TotalPagesBounds | backend/src/controllers/qrController.js:138 | `total_pages` is 0 without records and at least 1 with records. |
| QrController.PagesPartitionListing | backend/src/controllers/qrController.js:88-138 | Pages 1..total_pages together are the whole listing in order, the last is non-empty, and every later page is empty. |
| QrController.GetQR | backend/src/controllers/qrController.js:153-192 | A missing or foreign record gives 404. Otherwise the record, its redirect URL, its scan count, and its latest scan time (`LastScan`: absent exactly without scans, else the newest scan time). |
| QrController.GroupByOrDay | backend/src/controllers/qrController.js:309 | The grouping, defaulted to 'day' when falsy, is never empty, and a non-empty value passes through. |
| QrController.GetQRStats | backend/src/controllers/qrController.js:290-323 | A missing or foreign record gives 404. Otherwise the id, the name and exactly `getStats` of that QR over the window, grouped by `group_by` or by day. |
| QrController.DefaultGroupingIsDaily | backend/src/controllers/qrController.js:309 | An absent, empty or `day` grouping gives the same statistics. |
| QrController.ForeignRecordLooksMissing | backend/src/controllers/qrController.js:157-164 | Reading another user's record, or its statistics, gives the same reply as if it did not exist. |
| QrController.AssignedUrl | backend/src/controllers/qrController.js:230 | Assigning `target_url` stores a string trimmed, a number or boolean as its text, and null as no value. |
| QrController.Patch | backend/src/controllers/qrController.js:230-233 | Each supplied field replaces the stored one: a supplied `target_url` becomes its assigned text, a name is trimmed, `expires_at: null` clears the expiry. Nothing else changes. |
| QrController.EmptyPatchIsIdentity | backend/src/controllers/qrController.js:230-233 | An update supplying no field changes nothing. |
| QrController.RefusesUrlAsWritten | backend/src/controllers/qrController.js:214 | As written, the guard never refuses a falsy value. A truthy value is refused exactly when it is not a valid URL. |
| QrController.RefusesUrl | backend/src/controllers/qrController.js:214 | The intended guard admits exactly an absent value or a valid URL. |
| QrController.GuardsDifferOnFalsyValues | backend/src/controllers/qrController.js:214 | The intended guard refuses what the as-written one refuses, plus exactly the supplied falsy values. |
| QrController.UpdateCheckAsWritten | backend/src/controllers/qrController.js:213-227 | The checks as written: the URL guard, then an expiry before now. |
| QrController.UpdateCheck | backend/src/controllers/qrController.js:213-227 | The checks with the intended URL guard, then an expiry before now. |
| QrController.AsWrittenUpdateStoresNonUrl | backend/src/controllers/qrController.js:214-235 | As written, `target_url: 0` passes the checks and the record still conforms, but it saves "0", which is not a valid URL. |
| QrController.UpdatedUrlWasValidated | backend/src/controllers/qrController.js:214-230 | With the intended guard, an update either keeps `target_url` or stores the trimmed text of a validated URL. |
| QrController.ApplyUpdate | backend/src/controllers/qrController.js:203-252 | Given the checks' outcome: a missing or foreign record gives 404, a failed check its error, a schema failure the middleware's reply, each changing nothing. Otherwise the patched record, after the save hook, replaces the old one and is returned. |
| QrController.UpdateQR | backend/src/controllers/qrController.js:198-252 | `updateQR` as written, with the guard at :214: 404, the as-written checks' error, the schema failure's reply, or the saved patched record. So `""` and `null` get 400 `VALIDATION_ERROR`, and `0` and `false` are stored. |
| QrController.AsWrittenEmptyUrlFailsSchema | backend/src/controllers/qrController.js:214-235 | As written, an empty or null `target_url` passes the URL guard and is refused by `required`: 400 `VALIDATION_ERROR` including "Target URL is required". |
| QrController.UpdateQRIntended | backend/src/controllers/qrController.js:198-252 | `updateQR` with the intended guard: the same steps, and a successful update keeps the old target or stores the trimmed text of a validated URL. |
| QrController.DeleteQR | backend/src/controllers/qrController.js:258-284 | A missing or foreign record gives 404 and changes nothing. Otherwise the QR's scans and then the record are removed, and nothing else changes. |

## Left out

- QR image generation (`qrcode.toDataURL`) is not modelled. Replies omit `qr_image`.
- The fresh id comes from `uuid`, which is a parameter here. A colliding id takes the duplicate-key path.
- `BASE_URL`, `NODE_ENV`, the authenticated user's id and the clock are parameters.
- In the redirect, validity and the scan's timestamp use one `now`; the source reads the clock twice, milliseconds apart.
- The HTML around the error pages is not modelled, only its title, message and icon. So are `console.error` logging and the JSON `message` strings of the success replies.
- The WHATWG URL parser is an abstract function. Only "no ':' means no parse" is assumed about it.
- `getErrorPage` looked up with an inherited object key (`constructor`, `toString`) is not modelled. Its callers only pass the four keys.
- The `pre('findOneAndUpdate')` hook is left out: nothing in the core calls `findOneAndUpdate`.
- Date parsing is not modelled. `from`, `to` and `expires_at` arrive as parsed millisecond times.
- Unparsable dates (NaN) and a numeric `0` given as `expires_at`, which JavaScript treats as falsy, are not modelled.
- PeriodLabel.Label: its layout is stated only for years 0–9999. Other years are written with a sign or more digits, and how the store formats them is not modelled.
- The listing's `sort` parameter is not parsed. The store's order for it is the input `order` of `QrController.ListQRs`.
- In `updateQR`, `name` is a string or absent and `is_active` a boolean or absent. In `createQR`, `name` and `type` are strings or absent. Casting other JSON types into those paths (for example a numeric `name` or `type` at qrController.js:56 and :58) is not modelled.
- QrController.AssignedUrl: a `null` target is held as the empty string. Both fail `required` alike.
- `QRCodeModel.SchemaErrors` lists failures in schema declaration order. The ODM's own message order is assumed to match.
- QrController.NegativeSkipFailure: the store's error text for a negative skip is approximated. Only its 500 `INTERNAL_ERROR` reply outside development is faithful.
- A negative `limit` is read as its absolute value. The store's single-batch cut-off is not modelled.
- Store failures are modelled only in `RedirectController.HandleRedirect`, through a fault parameter. Network failures of the other endpoints are not modelled.
- `recent_scans` is modelled as a list of times. The source returns documents holding `scanned_at` and `_id`. `first_scan` and `last_scan` are times in the source too (`firstScan?.scanned_at \|\| null`), as they are here.
- Numbers in request bodies are integers. Fractional numbers are not modelled.
- Store.FindOwned: the model assumes each record stores its owner, as `user: req.user.id` at qrController.js:55 intends. The QR schema (QRCode.js:3-42) declares no `user` path. Under the ODM's default strict mode that field would not be stored, and the owner filters at qrController.js:95, 157, 204, 262 and 296 would then either be dropped (any user reaches any id) or match nothing (every owner-scoped call gives 404). Which one happens depends on connection settings outside the modelled files.
- QrController.ListQRs: the store's sort order is an input `order` that must list every id exactly once.
- Concurrency is not modelled. That covers `Promise.all` and concurrent requests: every operation is one atomic step on the store.

## Findings

| source | as written | input that shows it | evidently intended | confidence | as-written member | corrected member |
|---|---|---|---|---|---|---|
| backend/src/controllers/qrController.js:214 | The URL guard checks only truthy values, so a falsy non-string `target_url` skips validation. It is then assigned, cast to text by the store, and saved. | `PATCH /api/qr/:id` with body `{ "target_url": 0 }` (or `false`) on a conforming record stores the target "0" (or "false"), which is not a URL. | Every supplied `target_url` is validated (guard on `!== undefined`), so a stored target is always a validated http(s) URL. | not executed | QrController.AsWrittenUpdateStoresNonUrl | QrController.UpdateQRIntended |
