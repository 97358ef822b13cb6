/**
 * The document store the controllers talk to: the QR collection, keyed by its unique
 * `qr_code_id`, and the append-only scan log. Each method is one store call of the
 * source and states the whole new state.
 */
module Store {
  import opened JsText
  import opened ErrorHandling
  import opened QRCodeModel
  import opened ScanLog

  class Database {
    /** The QR collection; the key is the unique index on `qr_code_id`. */
    var records: map<string, QRRecord>
    /** The scan log, oldest insert first. */
    var scans: seq<Scan>

    /** Every record is stored under its own `qr_code_id`. */
    ghost predicate Valid()
      reads this
    {
      forall id :: id in records ==> records[id].qrCodeId == id
    }

    constructor ()
      ensures Valid() && records == map[] && scans == []
    {
      records := map[];
      scans := [];
    }

    /**
     * `QRCode.create(doc)`: schema validation first, then the `pre('save')` hook and the
     * insert, which the unique index on `qr_code_id` refuses for a taken id.
     */
    method Create(doc: QRRecord, now: int) returns (err: Option<JsError>)
      requires Valid()
      modifies this
      ensures Valid() && scans == old(scans)
      ensures !Conforms(doc) ==>
        err == Some(ValidationFailure(SchemaErrors(doc))) && records == old(records)
      ensures Conforms(doc) && doc.qrCodeId in old(records) ==>
        err == Some(DuplicateKeyFailure) && records == old(records)
      ensures Conforms(doc) && doc.qrCodeId !in old(records) ==>
        err == None && records == old(records)[doc.qrCodeId := PreSave(doc, now)]
    {
      var errs := SchemaErrors(doc);
      if errs != [] {
        err := Some(ValidationFailure(errs));
        return;
      }
      if doc.qrCodeId in records {
        err := Some(DuplicateKeyFailure);
        return;
      }
      records := records[doc.qrCodeId := PreSave(doc, now)];
      err := None;
    }

    /** `doc.save()` on a record read from the store: validation, then the hook and the write. */
    method Save(doc: QRRecord, now: int) returns (err: Option<JsError>)
      requires Valid() && doc.qrCodeId in records
      modifies this
      ensures Valid() && scans == old(scans)
      ensures !Conforms(doc) ==>
        err == Some(ValidationFailure(SchemaErrors(doc))) && records == old(records)
      ensures Conforms(doc) ==>
        err == None && records == old(records)[doc.qrCodeId := PreSave(doc, now)]
    {
      var errs := SchemaErrors(doc);
      if errs != [] {
        err := Some(ValidationFailure(errs));
        return;
      }
      records := records[doc.qrCodeId := PreSave(doc, now)];
      err := None;
    }

    /** `ScanLog.create({ qr_code_id })`: one event, stamped with the insert time, at the end of the log. */
    method AppendScan(id: string, now: int)
      modifies this
      ensures records == old(records) && scans == old(scans) + [Scan(id, now)]
    {
      scans := scans + [Scan(id, now)];
    }

    /** `ScanLog.deleteMany({ qr_code_id })`. */
    method DeleteScansOf(id: string)
      modifies this
      ensures records == old(records) && scans == RemoveScansOf(old(scans), id)
    {
      scans := RemoveScansOf(scans, id);
    }

    /** `QRCode.deleteOne({ qr_code_id })`. */
    method DeleteRecord(id: string)
      requires Valid()
      modifies this
      ensures Valid() && scans == old(scans) && records == old(records) - {id}
    {
      records := records - {id};
    }
  }

  /**
   * `findOne({ qr_code_id, user })`: the record with that id, but only when the caller owns it;
   * a record owned by someone else is reported exactly as a missing one.
   */
  function FindOwned(records: map<string, QRRecord>, id: string, owner: string): (r: Option<QRRecord>)
    ensures r.Some? <==> id in records && records[id].owner == owner
    ensures r.Some? ==> r.value == records[id]
    ensures r == FindOwned(records - (set k | k in records && records[k].owner != owner), id, owner)
  {
    if id in records && records[id].owner == owner then Some(records[id]) else None
  }
}
