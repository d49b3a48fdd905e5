/** The VAT controller: the multipart upload (`uploadHandler`), the list
    sorted newest first (`listVat`), the lookup by id (`getVat`) and the
    publish flag (`publishVat`), over the Invoice and VatFile collections. */
module VatController {
  import opened Common
  import opened Store

  // ---------------------------------------------------------------------
  // Request identifiers
  // ---------------------------------------------------------------------

  /** The `:id` route parameter: a well-formed ObjectId, or a text the
      store's id cast rejects (a CastError, answered with 500). */
  datatype IdParam = ValidId(id: Id) | MalformedId(castError: string)

  /** A VatFile with `populate('invoiceId')` applied: the referenced
      Invoice, or nothing when it no longer exists (`null`). */
  datatype PopulatedVat = PopulatedVat(file: VatFile, invoice: Option<Invoice>)

  function Populate(invoices: seq<Invoice>, f: VatFile): (r: PopulatedVat)
    ensures r.file == f
    ensures r.invoice.Some? ==> r.invoice.value in invoices && r.invoice.value.id == f.invoiceId
    ensures r.invoice.None? ==> forall k :: 0 <= k < |invoices| ==> invoices[k].id != f.invoiceId
  {
    PopulatedVat(f, FindInvoice(invoices, f.invoiceId))
  }

  // ---------------------------------------------------------------------
  // uploadHandler
  // ---------------------------------------------------------------------

  /** What multer hands over as `req.file`: the client's name, the stored
      name in the upload directory, the stored path and the MIME type. */
  datatype MulterFile = MulterFile(originalname: string, filename: string, path: string, mimetype: string)

  /** The form fields, the file (absent when none was sent) and
      `req.user?.email` ("" when absent). */
  datatype UploadRequest = UploadRequest(
    file: Option<MulterFile>,
    senderEmail: string,
    subject: string,
    receivedDate: ReceivedDate,
    userEmail: string)

  /** Which operation throws, if any: creating the Invoice, reading the
      stored file back for Drive, creating the VatFile. */
  datatype UploadFault =
    | NoUploadFault
    | InvoiceFails(message: string)
    | ReadFails(message: string)
    | VatFails(message: string)

  datatype UploadEnv = UploadEnv(
    now: nat,
    driveConfigured: bool,
    drive: DriveResult,
    fileBytes: seq<Byte>,
    fault: UploadFault)

  datatype UploadResponse =
    | Uploaded(invoice: Invoice, vat: VatFile)
    | UploadFailure(status: int, message: string)

  datatype UploadOutcome = UploadOutcome(
    response: UploadResponse,
    invoice: Option<Invoice>,
    vatFile: Option<VatFile>,
    trace: seq<Effect>)

  const FileRequired: string := "File is required"

  /** `senderEmail || req.user?.email || 'unknown'`. */
  function UploadSender(req: UploadRequest): string {
    if req.senderEmail != "" then req.senderEmail
    else if req.userEmail != "" then req.userEmail
    else "unknown"
  }

  /** `senderEmail || 'unknown'`: the signed-in user is not consulted. */
  function UploadSource(req: UploadRequest): string {
    if req.senderEmail != "" then req.senderEmail else "unknown"
  }

  /** The upload as a function of the request, the environment and the
      store's next id. */
  function Upload(req: UploadRequest, env: UploadEnv, nextId: Id): (r: UploadOutcome)
    // no file: 400 and nothing is created
    ensures req.file.None? ==> r == UploadOutcome(UploadFailure(400, FileRequired), None, None, [])
    ensures r.response.Uploaded? <==> r.vatFile.Some?
    ensures r.response.Uploaded? ==> r.invoice == Some(r.response.invoice) && r.vatFile == Some(r.response.vat)
    ensures r.vatFile.Some? ==> r.invoice.Some? && r.vatFile.value.invoiceId == r.invoice.value.id
    ensures req.file.Some? && r.response.UploadFailure? ==> r.response.status == 500
    // the Invoice is created first
    ensures r.invoice.Some? ==> |r.trace| >= 1 && r.trace[0] == InvoiceCreated(r.invoice.value.id)
    ensures r.invoice.None? ==> r.trace == []
    // Invoice defaults
    ensures r.invoice.Some? ==>
              r.invoice.value.senderEmail == (if req.senderEmail != "" then req.senderEmail
                                              else if req.userEmail != "" then req.userEmail else "unknown") &&
              r.invoice.value.subject == (if req.subject != "" then req.subject else req.file.value.originalname) &&
              r.invoice.value.status == Pending
    // VatFile defaults: the bare stored name, not a path
    ensures r.vatFile.Some? ==>
              r.vatFile.value.fileName == req.file.value.originalname &&
              r.vatFile.value.localPath == Some(req.file.value.filename) &&
              r.vatFile.value.source == (if req.senderEmail != "" then req.senderEmail else "unknown") &&
              r.vatFile.value.extractedData == map[] &&
              !r.vatFile.value.isPublished
    // Drive: only when configured, its failure leaves no id
    ensures r.vatFile.Some? && (!env.driveConfigured || env.drive.DriveError?) ==>
              r.vatFile.value.driveFileId == None
    ensures r.vatFile.Some? && env.driveConfigured && env.drive.DriveOk? ==>
              r.vatFile.value.driveFileId == env.drive.id
  {
    match req.file
    case None => UploadOutcome(UploadFailure(400, FileRequired), None, None, [])
    case Some(file) =>
      if req.receivedDate.UnparsableDate? then
        UploadOutcome(UploadFailure(500, req.receivedDate.castError), None, None, [])
      else if env.fault.InvoiceFails? then
        UploadOutcome(UploadFailure(500, env.fault.message), None, None, [])
      else
        var received := if req.receivedDate.ParsedDate? then req.receivedDate.ms else env.now;
        var inv := Invoice(nextId, UploadSender(req),
                           if req.subject != "" then req.subject else file.originalname,
                           received, Pending, env.now);
        if env.driveConfigured && env.fault.ReadFails? then
          UploadOutcome(UploadFailure(500, env.fault.message), Some(inv), None, [InvoiceCreated(inv.id)])
        else
          var driveId := if env.driveConfigured && env.drive.DriveOk? then env.drive.id else None;
          var driveTrace := if env.driveConfigured then [DriveUploaded(file.filename, env.fileBytes)] else [];
          var trace := [InvoiceCreated(inv.id)] + driveTrace;
          if env.fault.VatFails? then
            UploadOutcome(UploadFailure(500, env.fault.message), Some(inv), None, trace)
          else
            var vat := VatFile(nextId + 1, inv.id, file.originalname, Some(file.filename), driveId,
                               UploadSource(req), env.now, map[], false);
            UploadOutcome(Uploaded(inv, vat), Some(inv), Some(vat),
                          trace + [VatFileCreated(vat.id), Notified(vat.fileName, vat.source)])
  }

  /** A failing Drive upload is swallowed: the outcome is that of an upload
      that returned nothing. */
  lemma UploadDriveFailureIsHarmless(req: UploadRequest, env: UploadEnv, nextId: Id, msg: string)
    ensures Upload(req, env.(drive := DriveError(msg)), nextId) == Upload(req, env.(drive := DriveOk(None)), nextId)
  {
  }

  /** With a file, a date that parses and no exception the upload succeeds. */
  lemma UploadSucceeds(req: UploadRequest, env: UploadEnv, nextId: Id)
    requires req.file.Some? && !req.receivedDate.UnparsableDate? && env.fault == NoUploadFault
    ensures Upload(req, env, nextId).response.Uploaded?
  {
  }

  method UploadHandler(store: VatStore, req: UploadRequest, env: UploadEnv)
    returns (resp: UploadResponse, trace: seq<Effect>)
    requires store.Valid()
    modifies store
    ensures store.Valid()
    ensures var o := Upload(req, env, old(store.nextId));
            && resp == o.response
            && trace == o.trace
            && store.invoices == old(store.invoices) + (if o.invoice.Some? then [o.invoice.value] else [])
            && store.vatFiles == old(store.vatFiles) + (if o.vatFile.Some? then [o.vatFile.value] else [])
  {
    trace := [];
    if req.file.None? {
      return UploadFailure(400, FileRequired), trace;
    }
    var file := req.file.value;
    var received: Millis;
    match req.receivedDate {
      case NoDate => received := env.now;
      case ParsedDate(ms) => received := ms;
      case UnparsableDate(castError) => return UploadFailure(500, castError), trace;
    }
    if env.fault.InvoiceFails? {
      return UploadFailure(500, env.fault.message), trace;
    }
    var invoice := store.CreateInvoice(UploadSender(req),
                                       if req.subject != "" then req.subject else file.originalname,
                                       received, Pending, env.now);
    trace := [InvoiceCreated(invoice.id)];

    var driveFileId: Option<string> := None;
    if env.driveConfigured {
      if env.fault.ReadFails? {
        return UploadFailure(500, env.fault.message), trace;
      }
      trace := trace + [DriveUploaded(file.filename, env.fileBytes)];
      match env.drive {
        case DriveOk(id) => driveFileId := id;
        case DriveError(_) =>
      }
    }
    if env.fault.VatFails? {
      return UploadFailure(500, env.fault.message), trace;
    }
    var vat := store.CreateVatFile(invoice.id, file.originalname, Some(file.filename), driveFileId,
                                   UploadSource(req), env.now, map[], false);
    trace := trace + [VatFileCreated(vat.id), Notified(vat.fileName, vat.source)];
    resp := Uploaded(invoice, vat);
  }

  // ---------------------------------------------------------------------
  // listVat: every VatFile, newest upload first, with its Invoice
  // ---------------------------------------------------------------------

  predicate NewestFirst(s: seq<VatFile>) {
    forall i, j :: 0 <= i < j < |s| ==> s[i].uploadedDate >= s[j].uploadedDate
  }

  /** Place `x` before the first record uploaded strictly earlier. */
  function InsertByDate(x: VatFile, s: seq<VatFile>): (r: seq<VatFile>)
    ensures |r| == |s| + 1
  {
    if s == [] || s[0].uploadedDate < x.uploadedDate then [x] + s
    else [s[0]] + InsertByDate(x, s[1..])
  }

  /** The order of `sort({ uploadedDate: -1 })`. */
  function SortNewestFirst(s: seq<VatFile>): (r: seq<VatFile>)
    ensures |r| == |s|
  {
    if s == [] then [] else InsertByDate(s[0], SortNewestFirst(s[1..]))
  }

  lemma {:induction false} InsertByDateKeepsOrder(x: VatFile, s: seq<VatFile>)
    requires NewestFirst(s)
    ensures NewestFirst(InsertByDate(x, s))
    ensures |s| > 0 ==> InsertByDate(x, s)[0] == x || InsertByDate(x, s)[0] == s[0]
  {
    if s != [] && s[0].uploadedDate >= x.uploadedDate {
      InsertByDateKeepsOrder(x, s[1..]);
    }
  }

  lemma {:induction false} InsertByDatePermutes(x: VatFile, s: seq<VatFile>)
    ensures multiset(InsertByDate(x, s)) == multiset(s) + multiset{x}
  {
    if s != [] && s[0].uploadedDate >= x.uploadedDate {
      InsertByDatePermutes(x, s[1..]);
      assert s == [s[0]] + s[1..];
    }
  }

  /** The list is sorted newest first and holds exactly the stored records. */
  lemma {:induction false} SortNewestFirstCorrect(s: seq<VatFile>)
    ensures NewestFirst(SortNewestFirst(s))
    ensures multiset(SortNewestFirst(s)) == multiset(s)
  {
    SortNewestFirstOrders(s);
    SortNewestFirstPermutes(s);
  }

  lemma {:induction false} SortNewestFirstOrders(s: seq<VatFile>)
    ensures NewestFirst(SortNewestFirst(s))
  {
    if s != [] {
      SortNewestFirstOrders(s[1..]);
      InsertByDateKeepsOrder(s[0], SortNewestFirst(s[1..]));
    }
  }

  lemma {:induction false} SortNewestFirstPermutes(s: seq<VatFile>)
    ensures multiset(SortNewestFirst(s)) == multiset(s)
  {
    if s != [] {
      SortNewestFirstPermutes(s[1..]);
      InsertByDatePermutes(s[0], SortNewestFirst(s[1..]));
      assert s == [s[0]] + s[1..];
    }
  }

  datatype ListResponse = Listed(items: seq<PopulatedVat>) | ListFailure(status: int, message: string)

  /** `listVat`; `fault` is the message of a failing query, if any. */
  function ListVat(invoices: seq<Invoice>, files: seq<VatFile>, fault: Option<string>): (r: ListResponse)
    ensures fault.Some? ==> r == ListFailure(500, fault.value)
    ensures fault.None? ==> r.Listed? && |r.items| == |files|
  {
    match fault
    case Some(msg) => ListFailure(500, msg)
    case None =>
      var sorted := SortNewestFirst(files);
      Listed(seq(|sorted|, k requires 0 <= k < |sorted| => Populate(invoices, sorted[k])))
  }

  /** The listed records are the stored ones, newest first, each with its
      own Invoice. */
  lemma ListVatCorrect(invoices: seq<Invoice>, files: seq<VatFile>)
    ensures var r := ListVat(invoices, files, None);
            r.Listed? && |r.items| == |files| &&
            NewestFirst(seq(|r.items|, k requires 0 <= k < |r.items| => r.items[k].file)) &&
            multiset(seq(|r.items|, k requires 0 <= k < |r.items| => r.items[k].file)) == multiset(files) &&
            forall k :: 0 <= k < |r.items| ==> r.items[k].invoice == FindInvoice(invoices, r.items[k].file.invoiceId)
  {
    var r := ListVat(invoices, files, None);
    var sorted := SortNewestFirst(files);
    SortNewestFirstCorrect(files);
    assert seq(|r.items|, k requires 0 <= k < |r.items| => r.items[k].file) == sorted;
  }

  // ---------------------------------------------------------------------
  // getVat
  // ---------------------------------------------------------------------

  datatype GetResponse = Found(item: PopulatedVat) | GetFailure(status: int, message: string)

  const NotFound: string := "Not found"

  function GetVat(invoices: seq<Invoice>, files: seq<VatFile>, param: IdParam): (r: GetResponse)
    ensures r.Found? <==> param.ValidId? && exists k :: 0 <= k < |files| && files[k].id == param.id
    ensures r.Found? ==> r.item.file in files && r.item.file.id == param.id &&
                         r.item == Populate(invoices, r.item.file)
    ensures r.GetFailure? ==> r.status == (if param.ValidId? then 404 else 500)
    ensures param.MalformedId? ==> r == GetFailure(500, param.castError)
    ensures param.ValidId? && r.GetFailure? ==> r == GetFailure(404, NotFound)
  {
    match param
    case MalformedId(msg) => GetFailure(500, msg)
    case ValidId(id) =>
      match FindVatFile(files, id)
      case None => GetFailure(404, NotFound)
      case Some(f) => Found(Populate(invoices, f))
  }

  // ---------------------------------------------------------------------
  // publishVat
  // ---------------------------------------------------------------------

  datatype PublishResponse = Published(item: VatFile) | PublishFailure(status: int, message: string)

  /** The answer of `publishVat`; `saveFault` is the message of a failing
      `save()`, if any. */
  function PublishResult(files: seq<VatFile>, param: IdParam, saveFault: Option<string>): (r: PublishResponse)
    ensures r.Published? ==> param.ValidId? && FindVatFile(files, param.id).Some? &&
                             r.item == FindVatFile(files, param.id).value.(isPublished := true)
    ensures param.ValidId? && FindVatFile(files, param.id).None? ==> r == PublishFailure(404, NotFound)
    ensures param.ValidId? && FindVatFile(files, param.id).Some? && saveFault.None? ==> r.Published?
    ensures param.ValidId? && FindVatFile(files, param.id).Some? && saveFault.Some? ==>
              r == PublishFailure(500, saveFault.value)
    ensures param.MalformedId? ==> r == PublishFailure(500, param.castError)
  {
    match param
    case MalformedId(msg) => PublishFailure(500, msg)
    case ValidId(id) =>
      match FindVatFile(files, id)
      case None => PublishFailure(404, NotFound)
      case Some(f) =>
        if saveFault.Some? then PublishFailure(500, saveFault.value)
        else Published(f.(isPublished := true))
  }

  /** The collection after `publishVat`: changed only by a successful save. */
  function PublishState(files: seq<VatFile>, param: IdParam, saveFault: Option<string>): seq<VatFile>
  {
    if PublishResult(files, param, saveFault).Published? then PublishIn(files, param.id) else files
  }

  /** Publishing twice leaves the collection as publishing once, and the
      second call answers with the same record. */
  lemma PublishTwiceIsPublishOnce(files: seq<VatFile>, param: IdParam)
    ensures var once := PublishState(files, param, None);
            PublishState(once, param, None) == once &&
            PublishResult(once, param, None) == PublishResult(files, param, None)
  {
    var once := PublishState(files, param, None);
    if param.ValidId? {
      var id := param.id;
      PublishInIdempotent(files, id);
      PublishedFileStaysFound(files, id);
    }
  }

  /** After publishing, the record with that id is found again with the
      flag set and every other field as before. */
  lemma {:induction false} PublishedFileStaysFound(files: seq<VatFile>, id: Id)
    ensures FindVatFile(PublishIn(files, id), id).Some? <==> FindVatFile(files, id).Some?
    ensures FindVatFile(files, id).Some? ==>
              FindVatFile(PublishIn(files, id), id).value == FindVatFile(files, id).value.(isPublished := true)
    decreases |files|
  {
    if files != [] {
      var published := PublishIn(files, id);
      if files[0].id == id {
        assert published[0] == files[0].(isPublished := true);
      } else {
        assert published[0] == files[0];
        assert published[1..] == PublishIn(files[1..], id);
        PublishedFileStaysFound(files[1..], id);
      }
    }
  }

  /** A stored id and a successful save: the record comes back with the
      flag set, and the collection is the one with that record published. */
  lemma PublishSucceeds(files: seq<VatFile>, id: Id)
    requires FindVatFile(files, id).Some?
    ensures PublishResult(files, ValidId(id), None) == Published(FindVatFile(files, id).value.(isPublished := true))
    ensures PublishState(files, ValidId(id), None) == PublishIn(files, id)
  {
  }

  /** An unknown id, a malformed id or a failing save leaves the collection
      unchanged. */
  lemma PublishFailureChangesNothing(files: seq<VatFile>, param: IdParam, saveFault: Option<string>)
    requires PublishResult(files, param, saveFault).PublishFailure?
    ensures PublishState(files, param, saveFault) == files
  {
  }

  method PublishVat(store: VatStore, param: IdParam, saveFault: Option<string>) returns (resp: PublishResponse)
    requires store.Valid()
    modifies store
    ensures store.Valid()
    ensures resp == PublishResult(old(store.vatFiles), param, saveFault)
    ensures store.vatFiles == PublishState(old(store.vatFiles), param, saveFault)
    ensures store.invoices == old(store.invoices) && store.nextId == old(store.nextId)
  {
    match param {
      case MalformedId(msg) =>
        return PublishFailure(500, msg);
      case ValidId(id) =>
        var item := FindVatFile(store.vatFiles, id);
        if item.None? {
          return PublishFailure(404, NotFound);
        }
        if saveFault.Some? {
          return PublishFailure(500, saveFault.value);
        }
        store.SavePublished(id);
        resp := Published(item.value.(isPublished := true));
    }
  }
}
