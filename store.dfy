/** The two record collections the backend keeps in MongoDB (the `Invoice`
    and `VatFile` models), as an in-memory store.  Record ids stand for
    MongoDB ObjectIds and are handed out by a counter; timestamps are
    integer milliseconds. */
module Store {
  import opened Common

  type Id = nat
  type Millis = int

  /** A JSON value as `extractedData` may hold it (numbers restricted to
      integers). */
  datatype Json =
    | JNull
    | JBool(b: bool)
    | JNumber(n: int)
    | JString(s: string)
    | JArray(items: seq<Json>)
    | JObject(fields: map<string, Json>)

  datatype InvoiceStatus = Pending | Processed

  datatype Invoice = Invoice(
    id: Id,
    senderEmail: string,
    subject: string,
    receivedDate: Millis,
    status: InvoiceStatus,
    createdAt: Millis)

  datatype VatFile = VatFile(
    id: Id,
    invoiceId: Id,
    fileName: string,
    localPath: Option<string>,
    driveFileId: Option<string>,
    source: string,
    uploadedDate: Millis,
    extractedData: map<string, Json>,
    isPublished: bool)

  /** `receivedDate` after `receivedDate ? new Date(receivedDate) : ...`:
      absent (falsy), a valid date, or a text that parses to an invalid
      date, which the store's date cast rejects with the given message. */
  datatype ReceivedDate = NoDate | ParsedDate(ms: Millis) | UnparsableDate(castError: string)

  /** What `uploadFileToDrive` resolves to (an object whose `id` may be
      missing) or the message it rejects with. */
  datatype DriveResult = DriveOk(id: Option<string>) | DriveError(message: string)

  /** Observable side effects of a request handler, in the order they
      happen. */
  datatype Effect =
    | InvoiceCreated(invoiceId: Id)
    | FileFetched(url: string)
    | FileWritten(path: string, bytes: seq<Byte>)
    | DriveUploaded(driveName: string, driveBytes: seq<Byte>)
    | VatFileCreated(vatId: Id)
    | RecordSaved(savedId: Id)
    | Notified(notifiedFile: string, notifiedSource: string)

  predicate InvoiceIdsDistinct(s: seq<Invoice>) {
    forall i, j :: 0 <= i < j < |s| ==> s[i].id != s[j].id
  }

  predicate VatIdsDistinct(s: seq<VatFile>) {
    forall i, j :: 0 <= i < j < |s| ==> s[i].id != s[j].id
  }

  /** `VatFile.findById(id)`. */
  function FindVatFile(files: seq<VatFile>, id: Id): (r: Option<VatFile>)
    ensures r.Some? ==> r.value in files && r.value.id == id
    ensures r.None? ==> forall k :: 0 <= k < |files| ==> files[k].id != id
  {
    if files == [] then None
    else if files[0].id == id then Some(files[0])
    else FindVatFile(files[1..], id)
  }

  /** `Invoice.findById(id)`, as `populate('invoiceId')` uses it. */
  function FindInvoice(invoices: seq<Invoice>, id: Id): (r: Option<Invoice>)
    ensures r.Some? ==> r.value in invoices && r.value.id == id
    ensures r.None? ==> forall k :: 0 <= k < |invoices| ==> invoices[k].id != id
  {
    if invoices == [] then None
    else if invoices[0].id == id then Some(invoices[0])
    else FindInvoice(invoices[1..], id)
  }

  /** The collection after `item.isPublished = true; item.save()` on the
      record with id `id`. */
  function PublishIn(files: seq<VatFile>, id: Id): (r: seq<VatFile>)
    ensures |r| == |files|
    ensures forall k :: 0 <= k < |files| ==>
              r[k] == if files[k].id == id then files[k].(isPublished := true) else files[k]
  {
    seq(|files|, k requires 0 <= k < |files| =>
      if files[k].id == id then files[k].(isPublished := true) else files[k])
  }

  /** Publishing twice leaves the collection as publishing once. */
  lemma PublishInIdempotent(files: seq<VatFile>, id: Id)
    ensures PublishIn(PublishIn(files, id), id) == PublishIn(files, id)
  {
  }

  /** Publishing an id that is not in the collection changes nothing. */
  lemma PublishInAbsent(files: seq<VatFile>, id: Id)
    requires FindVatFile(files, id).None?
    ensures PublishIn(files, id) == files
  {
  }

  /** Publishing sets the flag of the record with that id and touches no
      other field of it and no other record. */
  lemma PublishInChangesOnlyFlag(files: seq<VatFile>, id: Id, k: nat)
    requires k < |files|
    ensures PublishIn(files, id)[k].isPublished == (files[k].isPublished || files[k].id == id)
    ensures PublishIn(files, id)[k].(isPublished := files[k].isPublished) == files[k]
  {
  }

  /** The invoice and VAT-file collections with the id counter. */
  class VatStore {
    var invoices: seq<Invoice>
    var vatFiles: seq<VatFile>
    var nextId: Id

    ghost predicate Valid()
      reads this
    {
      && (forall k :: 0 <= k < |invoices| ==> invoices[k].id < nextId)
      && (forall k :: 0 <= k < |vatFiles| ==> vatFiles[k].id < nextId)
      && InvoiceIdsDistinct(invoices)
      && VatIdsDistinct(vatFiles)
    }

    constructor ()
      ensures Valid()
      ensures invoices == [] && vatFiles == []
    {
      invoices, vatFiles, nextId := [], [], 0;
    }

    /** `Invoice.create({...})`: the new record gets a fresh id. */
    method CreateInvoice(senderEmail: string, subject: string, receivedDate: Millis,
                         status: InvoiceStatus, createdAt: Millis)
      returns (inv: Invoice)
      requires Valid()
      modifies this
      ensures Valid()
      ensures inv == Invoice(old(nextId), senderEmail, subject, receivedDate, status, createdAt)
      ensures invoices == old(invoices) + [inv] && vatFiles == old(vatFiles)
      ensures nextId == old(nextId) + 1
    {
      inv := Invoice(nextId, senderEmail, subject, receivedDate, status, createdAt);
      invoices := invoices + [inv];
      nextId := nextId + 1;
    }

    /** `VatFile.create({...})`: the new record gets a fresh id. */
    method CreateVatFile(invoiceId: Id, fileName: string, localPath: Option<string>,
                         driveFileId: Option<string>, source: string, uploadedDate: Millis,
                         extractedData: map<string, Json>, isPublished: bool)
      returns (vat: VatFile)
      requires Valid()
      modifies this
      ensures Valid()
      ensures vat == VatFile(old(nextId), invoiceId, fileName, localPath, driveFileId, source,
                             uploadedDate, extractedData, isPublished)
      ensures vatFiles == old(vatFiles) + [vat] && invoices == old(invoices)
      ensures nextId == old(nextId) + 1
    {
      vat := VatFile(nextId, invoiceId, fileName, localPath, driveFileId, source,
                     uploadedDate, extractedData, isPublished);
      vatFiles := vatFiles + [vat];
      nextId := nextId + 1;
    }

    /** `item.isPublished = true; await item.save()` for a stored record. */
    method SavePublished(id: Id)
      requires Valid()
      modifies this
      ensures Valid()
      ensures vatFiles == PublishIn(old(vatFiles), id)
      ensures invoices == old(invoices) && nextId == old(nextId)
    {
      vatFiles := PublishIn(vatFiles, id);
    }
  }
}
