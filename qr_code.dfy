/**
 * The QR record: its fields, their defaults and schema constraints, the save hook,
 * the `is_expired` virtual and the redirect-validity rule.
 * Times are integer milliseconds since the epoch; `now` is passed in.
 */
module QRCodeModel {
  import opened JsText
  import opened ErrorHandling
  import Validators

  /** A stored QR record (`qr_code_id` is its unique key; `owner` is the creating user's id). */
  datatype QRRecord = QRRecord(
    qrCodeId: string,
    owner: string,
    name: string,
    targetUrl: string,
    qrType: string,
    isActive: bool,
    createdAt: int,
    updatedAt: int,
    expiresAt: Option<int>)

  // ---------------------------------------------------------------------------
  // Validity

  datatype Reason = Disabled | Expired
  datatype Validity = Valid | Invalid(reason: Reason)

  /** The reason as the error-page key it selects. */
  function ReasonKey(r: Reason): string {
    match r
    case Disabled => "disabled"
    case Expired => "expired"
  }

  /**
   * `isValidForRedirect()`: an inactive record is `disabled` whatever its expiry; an active one
   * is `expired` once `now` is strictly after `expires_at`; otherwise it is valid, so the
   * expiry instant itself still redirects.
   */
  function IsValidForRedirect(r: QRRecord, now: int): (v: Validity)
    ensures !r.isActive ==> v == Invalid(Disabled)
    ensures r.isActive && r.expiresAt.Some? && now > r.expiresAt.value ==> v == Invalid(Expired)
    ensures r.isActive && (r.expiresAt.None? || now <= r.expiresAt.value) ==> v == Valid
  {
    if !r.isActive then Invalid(Disabled)
    else if r.expiresAt.Some? && now > r.expiresAt.value then Invalid(Expired)
    else Valid
  }

  /** The `is_expired` virtual: false without an expiry, otherwise `now > expires_at`. */
  function IsExpired(r: QRRecord, now: int): (e: bool)
    ensures r.expiresAt.None? ==> !e
    ensures r.expiresAt.Some? ==> (e <==> now > r.expiresAt.value)
  {
    r.expiresAt.Some? && now > r.expiresAt.value
  }

  /** For an active record, redirecting is refused exactly when the record is expired. */
  lemma ActiveInvalidIffExpired(r: QRRecord, now: int)
    requires r.isActive
    ensures IsValidForRedirect(r, now) != Valid <==> IsExpired(r, now)
    ensures IsExpired(r, now) <==> IsValidForRedirect(r, now) == Invalid(Expired)
  {
  }

  /** A record refuses to redirect exactly when it is inactive or expired, and inactivity is the reason reported first. */
  lemma ValidIffActiveAndNotExpired(r: QRRecord, now: int)
    ensures IsValidForRedirect(r, now) == Valid <==> r.isActive && !IsExpired(r, now)
    ensures !r.isActive && IsExpired(r, now) ==> IsValidForRedirect(r, now) == Invalid(Disabled)
  {
  }

  // ---------------------------------------------------------------------------
  // Schema: defaults and constraints

  const DefaultName: string := "Untitled QR"
  const DefaultType: string := "url"
  const NameMaxLength: nat := 100

  /** The schema's `enum` for `type`. */
  const TypeEnum: seq<string> := ["url", "form", "video", "document"]

  /** The schema enum and the API's type validator accept the same strings. */
  lemma TypeEnumMatchesValidator(t: string)
    ensures t in TypeEnum <==> Validators.ValidateQRType(Str(t))
  {
  }

  /** A failed schema constraint, one per offending path. */
  datatype FieldError = NameTooLong(value: string) | TargetUrlRequired | TypeNotInEnum(value: string)

  /** The message the schema attaches to each failure (the custom one for `target_url`, the ODM's default otherwise). */
  function FieldMessage(e: FieldError): string {
    match e
    case NameTooLong(v) => "Path `name` (`" + v + "`) is longer than the maximum allowed length (100)."
    case TargetUrlRequired => "Target URL is required"
    case TypeNotInEnum(v) => "`" + v + "` is not a valid enum value for path `type`."
  }

  /**
   * `name` has at most 100 UTF-16 units, `target_url` is not empty and `type` is in the enum,
   * which is the set of types the API's validator accepts; a conforming name has at most 100 characters.
   */
  predicate Conforms(r: QRRecord): (ok: bool)
    ensures ok <==> Utf16Length(r.name) <= NameMaxLength && r.targetUrl != "" && Validators.ValidateQRType(Str(r.qrType))
    ensures ok ==> |r.name| <= NameMaxLength
  {
    Utf16Length(r.name) <= NameMaxLength && r.targetUrl != "" && r.qrType in TypeEnum
  }

  /** The schema validation failures of a document, in schema path order. */
  function SchemaErrors(r: QRRecord): (errs: seq<FieldError>)
    ensures errs == [] <==> Conforms(r)
    ensures |errs| <= 3
    ensures Utf16Length(r.name) > NameMaxLength <==> NameTooLong(r.name) in errs
    ensures r.targetUrl == "" <==> TargetUrlRequired in errs
    ensures r.qrType !in TypeEnum <==> TypeNotInEnum(r.qrType) in errs
  {
    (if Utf16Length(r.name) > NameMaxLength then [NameTooLong(r.name)] else [])
    + (if r.targetUrl == "" then [TargetUrlRequired] else [])
    + (if r.qrType !in TypeEnum then [TypeNotInEnum(r.qrType)] else [])
  }

  function Messages(errs: seq<FieldError>): (ms: seq<string>)
    ensures |ms| == |errs|
    ensures forall i :: 0 <= i < |errs| ==> ms[i] == FieldMessage(errs[i])
  {
    if errs == [] then [] else [FieldMessage(errs[0])] + Messages(errs[1..])
  }

  /** The validation error the store throws for a non-conforming document. */
  function ValidationFailure(errs: seq<FieldError>): (e: JsError)
    ensures IsValidationError(e) && e.fieldMessages == Messages(errs)
  {
    JsError("ValidationError", None, Messages(errs), None, "QRCode validation failed")
  }

  /** The store's unique-index violation on `qr_code_id`. */
  const DuplicateKeyFailure: JsError :=
    JsError("MongoServerError", Some(DuplicateKeyCode), [], None, "E11000 duplicate key error")

  /** A rejected document is answered 400 VALIDATION_ERROR with the failures' messages joined by ', '. */
  lemma SchemaFailureReply(r: QRRecord, nodeEnv: Option<string>)
    requires !Conforms(r)
    ensures var reply := HandleError(ValidationFailure(SchemaErrors(r)), nodeEnv);
      reply.status == 400 && reply.code == "VALIDATION_ERROR"
      && reply.message == Join(Messages(SchemaErrors(r)), ", ")
  {
  }

  /** The string setters (`trim: true`) have been applied to `name` and `target_url`. */
  predicate Trimmed(r: QRRecord) {
    r.name == Trim(r.name) && r.targetUrl == Trim(r.targetUrl)
  }

  /** The `pre('save')` hook: `updated_at` becomes the save time and no other field changes. */
  function PreSave(r: QRRecord, now: int): (s: QRRecord)
    ensures s.updatedAt == now
    ensures s.(updatedAt := r.updatedAt) == r
  {
    r.(updatedAt := now)
  }

  /**
   * The document `createQR` hands to the store: `name || 'Untitled QR'` and `target_url`
   * trimmed by their setters, `type || 'url'`, `is_active` true, `expires_at || null`, both
   * timestamps the creation time.
   */
  function NewDocument(id: string, owner: string, name: Option<string>, targetUrl: string,
                       qrType: Option<string>, expiresAt: Option<int>, now: int): (d: QRRecord)
    ensures d.qrCodeId == id && d.owner == owner
    ensures d.isActive && d.createdAt == now && d.updatedAt == now && d.expiresAt == expiresAt
    ensures Trimmed(d) && d.targetUrl == Trim(targetUrl)
    ensures name.None? || name == Some("") ==> d.name == Trim(DefaultName)
    ensures name.Some? && name.value != "" ==> d.name == Trim(name.value)
    ensures qrType.None? || qrType == Some("") ==> d.qrType == DefaultType
    ensures qrType.Some? && qrType.value != "" ==> d.qrType == qrType.value
  {
    TrimIdempotent(targetUrl);
    var n := if name.None? || name == Some("") then DefaultName else name.value;
    TrimIdempotent(n);
    QRRecord(
      id, owner, Trim(n), Trim(targetUrl),
      if qrType.None? || qrType == Some("") then DefaultType else qrType.value,
      true, now, now, expiresAt)
  }

  /** The default name needs no trimming and is within the length limit. */
  lemma DefaultNameConforms()
    ensures Trim(DefaultName) == DefaultName
    ensures Utf16Length(DefaultName) <= NameMaxLength
  {
    assert !IsWhiteSpace(DefaultName[0]);
    assert TrimStart(DefaultName) == DefaultName;
    assert !IsWhiteSpace(DefaultName[|DefaultName| - 1]);
    assert TrimEnd(DefaultName) == DefaultName;
  }

  /** A document built from defaults alone conforms to the schema once its URL survives trimming. */
  lemma DefaultsConform(id: string, owner: string, targetUrl: string, expiresAt: Option<int>, now: int)
    requires Trim(targetUrl) != ""
    ensures Conforms(NewDocument(id, owner, None, targetUrl, None, expiresAt, now))
  {
    DefaultNameConforms();
  }

  /** A record whose expiry is not before its creation time redirects at its creation time. */
  lemma NewDocumentRedirects(id: string, owner: string, name: Option<string>, targetUrl: string,
                             qrType: Option<string>, expiresAt: Option<int>, now: int)
    requires expiresAt.None? || expiresAt.value >= now
    ensures IsValidForRedirect(NewDocument(id, owner, name, targetUrl, qrType, expiresAt, now), now) == Valid
  {
  }
}
