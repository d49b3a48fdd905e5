/** The n8n webhook ingestion handler (`n8nWebhookHandler`).

    It validates the JSON payload, creates the Invoice, stores the file
    (inline base64 `fileData` before `fileUrl`), creates the VatFile and
    notifies.  Everything the handler takes from its surroundings is an
    input: the clock and the random suffix, the base64 decoder, whether
    Google Drive is configured and what the upload returns, how the URL
    download ends, and which store or disk operation throws. */
module N8nController {
  import opened Common
  import opened StoredName
  import opened Store

  // ---------------------------------------------------------------------
  // The `data:` prefix: `fileData.replace(/^data:.*,/, '')`
  // ---------------------------------------------------------------------

  /** The characters `.` does not match in a JavaScript regular expression. */
  predicate IsLineTerminator(c: char) {
    c == '\n' || c == '\r' || c == '\U{2028}' || c == '\U{2029}'
  }

  predicate NoLineTerminator(s: string) {
    forall k :: 0 <= k < |s| ==> !IsLineTerminator(s[k])
  }

  /** The longest prefix of `s` that `.*` can match. */
  function FirstLine(s: string): (r: string)
    ensures StartsWith(s, r) && NoLineTerminator(r)
    ensures |r| == |s| || IsLineTerminator(s[|r|])
  {
    if s == [] || IsLineTerminator(s[0]) then []
    else
      var r := [s[0]] + FirstLine(s[1..]);
      assert s[..|r|] == [s[0]] + s[1..][..|r| - 1];
      r
  }

  /** Index of the last `c` in `s`. */
  function LastIndexOf(s: string, c: char): (r: Option<nat>)
    ensures r.Some? ==> r.value < |s| && s[r.value] == c &&
                        forall k :: r.value < k < |s| ==> s[k] != c
    ensures r.None? ==> forall k :: 0 <= k < |s| ==> s[k] != c
  {
    if s == [] then None
    else if s[|s| - 1] == c then Some(|s| - 1)
    else LastIndexOf(s[..|s| - 1], c)
  }

  /** The regular expression `^data:.*,` is anchored at the start and `.*`
      is greedy: it matches up to the last comma before the first line
      terminator.  Without a match the string is left as it is. */
  function StripDataPrefix(s: string): string
  {
    if !StartsWith(s, "data:") then s
    else match LastIndexOf(FirstLine(s[5..]), ',')
      case None => s
      case Some(j) => s[5 + j + 1..]
  }

  predicate NoCommaInFirstLine(r: string) {
    forall k :: 0 <= k < |FirstLine(r)| ==> FirstLine(r)[k] != ','
  }

  lemma {:induction false} FirstLineConcat(a: string, b: string)
    requires NoLineTerminator(a)
    ensures FirstLine(a + b) == a + FirstLine(b)
    decreases |a|
  {
    if a != [] {
      assert (a + b)[1..] == a[1..] + b;
      FirstLineConcat(a[1..], b);
    } else {
      assert a + b == b;
    }
  }

  lemma {:induction false} FirstLineDrop(t: string, i: nat)
    requires i <= |FirstLine(t)|
    ensures FirstLine(t[i..]) == FirstLine(t)[i..]
    decreases i
  {
    if i > 0 {
      assert FirstLine(t) == [t[0]] + FirstLine(t[1..]);
      FirstLineDrop(t[1..], i - 1);
      assert t[1..][i - 1..] == t[i..];
    }
  }

  lemma {:induction false} LastIndexOfAfter(a: string, c: char, b: string)
    requires forall k :: 0 <= k < |b| ==> b[k] != c
    ensures LastIndexOf(a + [c] + b, c) == Some(|a|)
    decreases |b|
  {
    if b != [] {
      var s := a + [c] + b;
      assert s[..|s| - 1] == a + [c] + b[..|b| - 1];
      LastIndexOfAfter(a, c, b[..|b| - 1]);
    }
  }

  /** What the regular expression removes: a string that it changes is
      `data:` + text without line terminator + `,` + the result, and the
      result's first line holds no comma (the match was the longest). */
  lemma StripDataPrefixShape(s: string)
    ensures !StartsWith(s, "data:") ==> StripDataPrefix(s) == s
    ensures EndsWith(s, StripDataPrefix(s))
    ensures StripDataPrefix(s) != s ==>
              NoCommaInFirstLine(StripDataPrefix(s)) &&
              exists m :: NoLineTerminator(m) && s == "data:" + m + "," + StripDataPrefix(s)
  {
    if StartsWith(s, "data:") {
      var t := s[5..];
      var line := FirstLine(t);
      var f := LastIndexOf(line, ',');
      if f.Some? {
        var j := f.value;
        var r := s[5 + j + 1..];
        var m := line[..j];
        assert m == s[5..5 + j];
        assert s == "data:" + m + "," + r;
        FirstLineDrop(t, j + 1);
        assert t[j + 1..] == r;
        assert FirstLine(r) == line[j + 1..];
      }
    }
  }

  /** Conversely, a `data:` header followed by a comma is stripped up to
      that comma when nothing after it on the same line is a comma. */
  lemma StripDataPrefixOfPrefixed(m: string, r: string)
    requires NoLineTerminator(m) && NoCommaInFirstLine(r)
    ensures StripDataPrefix("data:" + m + "," + r) == r
  {
    var s := "data:" + m + "," + r;
    assert s[..5] == "data:";
    assert s[5..] == m + [','] + r;
    assert NoLineTerminator(m + [',']);
    FirstLineConcat(m + [','], r);
    assert FirstLine(s[5..]) == m + [','] + FirstLine(r);
    LastIndexOfAfter(m, ',', FirstLine(r));
    assert s[5 + |m| + 1..] == r;
  }

  /** Stripping twice is stripping once. */
  lemma StripDataPrefixIdempotent(s: string)
    ensures StripDataPrefix(StripDataPrefix(s)) == StripDataPrefix(s)
  {
    var r := StripDataPrefix(s);
    StripDataPrefixShape(s);
    if r != s && StartsWith(r, "data:") {
      assert r == "data:" + r[5..];
      assert NoLineTerminator("data:");
      FirstLineConcat("data:", r[5..]);
      FirstLineDrop(r, 5);
      assert FirstLine(r[5..]) == FirstLine(r)[5..];
      assert LastIndexOf(FirstLine(r[5..]), ',').None?;
    }
  }

  // ---------------------------------------------------------------------
  // Request, environment and response
  // ---------------------------------------------------------------------

  /** The JSON body.  An empty string stands for an absent or empty field
      (both are falsy). */
  datatype Payload = Payload(
    fileName: string,
    fileData: string,
    fileUrl: string,
    senderEmail: string,
    subject: string,
    receivedDate: ReceivedDate,
    source: string,
    extractedData: Option<map<string, Json>>,
    isPublished: Option<bool>)

  /** How the URL download ends: the bytes streamed to disk and read back,
      or a failure (bad URL, status other than 200, network error). */
  datatype DownloadResult = Downloaded(bytes: seq<Byte>) | DownloadFailed(reason: string)

  /** Which operation throws, if any. */
  datatype Fault =
    | NoFault
    | InvoiceCreateFails(message: string)
    | WriteFails(message: string)
    | VatFileCreateFails(message: string)

  datatype Env = Env(
    now: nat,
    rnd: RandomSuffix,
    driveConfigured: bool,
    drive: DriveResult,
    download: DownloadResult,
    fault: Fault)

  datatype InvoiceSummary = InvoiceSummary(id: Id, senderEmail: string, subject: string, receivedDate: Millis)
  datatype VatFileSummary = VatFileSummary(id: Id, fileName: string, source: string, isPublished: bool)

  datatype N8nResponse =
    | N8nFailure(status: int, message: string)
    | N8nSuccess(invoice: InvoiceSummary, vatFile: VatFileSummary)
  {
    function Status(): int {
      if N8nFailure? then status else 200
    }
  }

  const SuccessMessage: string := "Invoice received and processed successfully"
  const MissingFileName: string := "fileName is required"
  const MissingFile: string := "Either fileData (base64) or fileUrl is required"

  // ---------------------------------------------------------------------
  // The handler's decisions, as functions
  // ---------------------------------------------------------------------

  /** The 400 checks, in the order the handler makes them. */
  function RejectReason(p: Payload): (r: Option<string>)
    ensures r.None? <==> p.fileName != "" && (p.fileData != "" || p.fileUrl != "")
  {
    if p.fileName == "" then Some(MissingFileName)
    else if p.fileData == "" && p.fileUrl == "" then Some(MissingFile)
    else None
  }

  /** `err.message || 'Internal server error'`. */
  function ErrorMessage(msg: string): (r: string)
    ensures r != ""
    ensures msg != "" ==> r == msg
  {
    if msg == "" then "Internal server error" else msg
  }

  /** The Invoice fields `senderEmail || 'n8n@automation'` and
      `subject || fileName`. */
  function InvoiceSender(p: Payload): string {
    if p.senderEmail != "" then p.senderEmail else "n8n@automation"
  }

  function InvoiceSubject(p: Payload): string {
    if p.subject != "" then p.subject else p.fileName
  }

  /** The VatFile fields `source || senderEmail || 'n8n'`,
      `extractedData || {}` and `isPublished = false`. */
  function VatSource(p: Payload): string {
    if p.source != "" then p.source else if p.senderEmail != "" then p.senderEmail else "n8n"
  }

  function ExtractedOrEmpty(p: Payload): map<string, Json> {
    match p.extractedData
    case None => map[]
    case Some(d) => d
  }

  function PublishedOrDefault(p: Payload): bool {
    match p.isPublished
    case None => false
    case Some(b) => b
  }

  /** The best-effort Drive upload: attempted only when configured; a
      failure is swallowed and leaves no id. */
  function DriveStage(env: Env, name: string, bytes: seq<Byte>): (r: (Option<string>, seq<Effect>))
    ensures !env.driveConfigured ==> r == (None, [])
    ensures env.driveConfigured ==> r.1 == [DriveUploaded(name, bytes)]
    ensures env.drive.DriveError? ==> r.0 == None
    ensures env.driveConfigured && env.drive.DriveOk? ==> r.0 == env.drive.id
  {
    if !env.driveConfigured then (None, [])
    else match env.drive
      case DriveOk(id) => (id, [DriveUploaded(name, bytes)])
      case DriveError(_) => (None, [DriveUploaded(name, bytes)])
  }

  /** The outcome of the file step: the stored `localPath` and
      `driveFileId`, the effects, and the message of an exception that
      escapes it. */
  datatype FileStage = FileStage(
    localPath: Option<string>,
    driveFileId: Option<string>,
    trace: seq<Effect>,
    failure: Option<string>)

  function FileStageOf(p: Payload, env: Env, decode: string -> seq<Byte>): FileStage
  {
    var name := UniqueFilename(env.now, env.rnd, p.fileName);
    var path := UploadPath(name);
    if p.fileData != "" then
      var bytes := decode(StripDataPrefix(p.fileData));
      if env.fault.WriteFails? then FileStage(Some(path), None, [], Some(env.fault.message))
      else
        var drive := DriveStage(env, name, bytes);
        FileStage(Some(path), drive.0, [FileWritten(path, bytes)] + drive.1, None)
    else if p.fileUrl != "" then
      match env.download
      case DownloadFailed(_) => FileStage(Some(p.fileUrl), None, [FileFetched(p.fileUrl)], None)
      case Downloaded(bytes) =>
        var drive := DriveStage(env, name, bytes);
        FileStage(Some(path), drive.0, [FileFetched(p.fileUrl), FileWritten(path, bytes)] + drive.1, None)
    else FileStage(None, None, [], None)
  }

  /** Everything one call produces: the response, the records created (in
      the order Invoice then VatFile) and the effects. */
  datatype Outcome = Outcome(
    response: N8nResponse,
    invoice: Option<Invoice>,
    vatFile: Option<VatFile>,
    trace: seq<Effect>)

  function OptionToSeq<T>(o: Option<T>): (r: seq<T>)
    ensures |r| <= 1
  {
    match o
    case None => []
    case Some(x) => [x]
  }

  /** The handler as a function of the payload, the environment, the
      decoder and the store's next id. */
  function Ingest(p: Payload, env: Env, decode: string -> seq<Byte>, nextId: Id): (r: Outcome)
    // 400: nothing is created and nothing happens
    ensures RejectReason(p).Some? ==>
              r == Outcome(N8nFailure(400, RejectReason(p).value), None, None, [])
    // a VatFile exists only together with its Invoice, and refers to it
    ensures r.vatFile.Some? ==> r.invoice.Some? && r.vatFile.value.invoiceId == r.invoice.value.id
    // success exactly when both records were created
    ensures r.response.N8nSuccess? <==> r.vatFile.Some?
    // every failure after validation is a 500 with a non-empty message
    ensures RejectReason(p).None? && r.response.N8nFailure? ==>
              r.response.status == 500 && r.response.message != ""
    // the Invoice is created first, before any fetch, write or upload
    ensures r.invoice.Some? ==> |r.trace| >= 1 && r.trace[0] == InvoiceCreated(r.invoice.value.id)
    ensures r.invoice.None? ==> r.trace == []
    // defaults of the Invoice
    ensures r.invoice.Some? ==>
              r.invoice.value.senderEmail == (if p.senderEmail != "" then p.senderEmail else "n8n@automation") &&
              r.invoice.value.subject == (if p.subject != "" then p.subject else p.fileName) &&
              r.invoice.value.status == Processed
    // defaults of the VatFile
    ensures r.vatFile.Some? ==>
              r.vatFile.value.fileName == p.fileName &&
              r.vatFile.value.source == (if p.source != "" then p.source
                                         else if p.senderEmail != "" then p.senderEmail else "n8n") &&
              r.vatFile.value.extractedData == (if p.extractedData.Some? then p.extractedData.value else map[]) &&
              r.vatFile.value.isPublished == (p.isPublished == Some(true))
  {
    match RejectReason(p)
    case Some(msg) => Outcome(N8nFailure(400, msg), None, None, [])
    case None =>
      if p.receivedDate.UnparsableDate? then
        Outcome(N8nFailure(500, ErrorMessage(p.receivedDate.castError)), None, None, [])
      else if env.fault.InvoiceCreateFails? then
        Outcome(N8nFailure(500, ErrorMessage(env.fault.message)), None, None, [])
      else
        var received := if p.receivedDate.ParsedDate? then p.receivedDate.ms else env.now;
        var inv := Invoice(nextId, InvoiceSender(p), InvoiceSubject(p), received, Processed, env.now);
        var stage := FileStageOf(p, env, decode);
        var trace := [InvoiceCreated(inv.id)] + stage.trace;
        if stage.failure.Some? then
          Outcome(N8nFailure(500, ErrorMessage(stage.failure.value)), Some(inv), None, trace)
        else if env.fault.VatFileCreateFails? then
          Outcome(N8nFailure(500, ErrorMessage(env.fault.message)), Some(inv), None, trace)
        else
          var vat := VatFile(nextId + 1, inv.id, p.fileName, stage.localPath, stage.driveFileId,
                             VatSource(p), env.now, ExtractedOrEmpty(p), PublishedOrDefault(p));
          Outcome(
            N8nSuccess(InvoiceSummary(inv.id, inv.senderEmail, inv.subject, inv.receivedDate),
                       VatFileSummary(vat.id, vat.fileName, vat.source, vat.isPublished)),
            Some(inv), Some(vat),
            trace + [VatFileCreated(vat.id), Notified(vat.fileName, vat.source)])
  }

  // ---------------------------------------------------------------------
  // Properties of the handler
  // ---------------------------------------------------------------------

  /** No exception, a date that parses: the conditions under which a
      validated request succeeds. */
  predicate Healthy(p: Payload, env: Env) {
    env.fault == NoFault && !p.receivedDate.UnparsableDate?
  }

  /** A validated request on a healthy store always succeeds, whatever the
      download and the Drive upload do. */
  lemma HealthyRequestSucceeds(p: Payload, env: Env, decode: string -> seq<Byte>, nextId: Id)
    requires RejectReason(p).None? && Healthy(p, env)
    ensures Ingest(p, env, decode, nextId).response.N8nSuccess?
  {
  }

  /** With `fileData` present the URL is never fetched: neither the URL nor
      the download outcome has any influence. */
  lemma FileDataWinsOverUrl(p: Payload, env: Env, decode: string -> seq<Byte>, nextId: Id,
                            otherUrl: string, otherDownload: DownloadResult)
    requires p.fileName != "" && p.fileData != "" && Healthy(p, env)
    ensures var r := Ingest(p, env, decode, nextId);
            r == Ingest(p.(fileUrl := otherUrl), env.(download := otherDownload), decode, nextId) &&
            (forall k :: 0 <= k < |r.trace| ==> !r.trace[k].FileFetched?)
  {
    var p2, env2 := p.(fileUrl := otherUrl), env.(download := otherDownload);
    assert RejectReason(p2).None? && Healthy(p2, env2);
    assert FileStageOf(p2, env2, decode) == FileStageOf(p, env, decode);
  }

  /** With `fileData` present the file is the decoded data, stored under
      the unique name. */
  lemma FileDataIsStored(p: Payload, env: Env, decode: string -> seq<Byte>, nextId: Id)
    requires p.fileName != "" && p.fileData != "" && Healthy(p, env)
    ensures var r := Ingest(p, env, decode, nextId);
            r.vatFile.value.localPath == Some(UploadPath(UniqueFilename(env.now, env.rnd, p.fileName))) &&
            r.trace[1] == FileWritten(UploadPath(UniqueFilename(env.now, env.rnd, p.fileName)),
                                      decode(StripDataPrefix(p.fileData)))
  {
  }

  /** A failed download stores the literal URL as `localPath`, leaves
      `driveFileId` empty, writes nothing, and the request still succeeds. */
  lemma FailedDownloadFallsBackToUrl(p: Payload, env: Env, decode: string -> seq<Byte>, nextId: Id)
    requires p.fileName != "" && p.fileData == "" && p.fileUrl != ""
    requires env.download.DownloadFailed? && Healthy(p, env)
    ensures var r := Ingest(p, env, decode, nextId);
            r.response.N8nSuccess? &&
            r.vatFile.value.localPath == Some(p.fileUrl) &&
            r.vatFile.value.driveFileId == None &&
            forall k :: 0 <= k < |r.trace| ==> !r.trace[k].FileWritten? && !r.trace[k].DriveUploaded?
  {
  }

  /** Drive is contacted only when it is configured. */
  lemma DriveOnlyWhenConfigured(p: Payload, env: Env, decode: string -> seq<Byte>, nextId: Id)
    requires !env.driveConfigured
    ensures var t := Ingest(p, env, decode, nextId).trace;
            forall k :: 0 <= k < |t| ==> !t[k].DriveUploaded?
  {
  }

  lemma DriveErrorFileStage(p: Payload, env: Env, decode: string -> seq<Byte>, msg: string)
    ensures FileStageOf(p, env.(drive := DriveError(msg)), decode) ==
            FileStageOf(p, env.(drive := DriveOk(None)), decode)
  {
  }

  /** A failing Drive upload is swallowed: the outcome is exactly that of an
      upload that returned no id (same status, same records, same effects). */
  lemma DriveFailureIsHarmless(p: Payload, env: Env, decode: string -> seq<Byte>, nextId: Id, msg: string)
    ensures var r := Ingest(p, env.(drive := DriveError(msg)), decode, nextId);
            r == Ingest(p, env.(drive := DriveOk(None)), decode, nextId) &&
            (r.vatFile.Some? ==> r.vatFile.value.driveFileId == None)
  {
    DriveErrorFileStage(p, env, decode, msg);
  }

  /** Once the Invoice is created, a later exception answers 500 with the
      error's message (or 'Internal server error') and the Invoice stays. */
  lemma LateFailureKeepsInvoice(p: Payload, env: Env, decode: string -> seq<Byte>, nextId: Id, msg: string)
    requires RejectReason(p).None? && !p.receivedDate.UnparsableDate?
    requires env.fault == VatFileCreateFails(msg) || (env.fault == WriteFails(msg) && p.fileData != "")
    ensures var r := Ingest(p, env, decode, nextId);
            r.response == N8nFailure(500, ErrorMessage(msg)) &&
            r.invoice.Some? && r.vatFile.None?
  {
  }

  /** The stored name of a fileData or downloaded file is the unique name in
      the upload directory, and the original name can be read back from it. */
  lemma StoredPathCarriesName(p: Payload, env: Env, decode: string -> seq<Byte>, nextId: Id)
    requires RejectReason(p).None? && Healthy(p, env)
    requires p.fileData != "" || env.download.Downloaded?
    ensures var path := Ingest(p, env, decode, nextId).vatFile.value.localPath.value;
            path == UploadDir + "/" + UniqueFilename(env.now, env.rnd, p.fileName) &&
            ParseUniqueFilename(path[|UploadDir + "/"|..]) == Some(Parts(env.now, env.rnd, p.fileName))
  {
    var path := Ingest(p, env, decode, nextId).vatFile.value.localPath.value;
    assert path[|UploadDir + "/"|..] == UniqueFilename(env.now, env.rnd, p.fileName);
    ParseUniqueFilenameRoundTrip(env.now, env.rnd, p.fileName);
  }

  // ---------------------------------------------------------------------
  // The handler itself, over the store
  // ---------------------------------------------------------------------

  /** The optional Drive upload after the file is on disk. */
  method UploadToDrive(env: Env, uniqueFilename: string, buffer: seq<Byte>)
    returns (driveFileId: Option<string>, trace: seq<Effect>)
    ensures (driveFileId, trace) == DriveStage(env, uniqueFilename, buffer)
  {
    driveFileId, trace := None, [];
    if env.driveConfigured {
      trace := [DriveUploaded(uniqueFilename, buffer)];
      match env.drive {
        case DriveOk(id) => driveFileId := id;
        case DriveError(_) =>
      }
    }
  }

  /** The file branch of the handler: decode and write `fileData`, or
      download `fileUrl` and fall back to the URL itself. */
  method SaveFile(p: Payload, env: Env, decode: string -> seq<Byte>) returns (stage: FileStage)
    ensures stage == FileStageOf(p, env, decode)
  {
    var localPath: Option<string> := None;
    var driveFileId: Option<string> := None;
    var trace: seq<Effect> := [];
    if p.fileData != "" {
      var base64Data := StripDataPrefix(p.fileData);
      var buffer := decode(base64Data);
      var uniqueFilename := UniqueFilename(env.now, env.rnd, p.fileName);
      localPath := Some(UploadPath(uniqueFilename));
      if env.fault.WriteFails? {
        return FileStage(localPath, None, [], Some(env.fault.message));
      }
      trace := [FileWritten(localPath.value, buffer)];
      var driveTrace;
      driveFileId, driveTrace := UploadToDrive(env, uniqueFilename, buffer);
      trace := trace + driveTrace;
    } else if p.fileUrl != "" {
      var uniqueFilename := UniqueFilename(env.now, env.rnd, p.fileName);
      localPath := Some(UploadPath(uniqueFilename));
      trace := [FileFetched(p.fileUrl)];
      match env.download {
        case DownloadFailed(_) =>
          localPath := Some(p.fileUrl);
        case Downloaded(buffer) =>
          trace := trace + [FileWritten(localPath.value, buffer)];
          var driveTrace;
          driveFileId, driveTrace := UploadToDrive(env, uniqueFilename, buffer);
          trace := trace + driveTrace;
      }
    }
    stage := FileStage(localPath, driveFileId, trace, None);
  }

  method N8nWebhookHandler(store: VatStore, p: Payload, env: Env, decode: string -> seq<Byte>)
    returns (resp: N8nResponse, trace: seq<Effect>)
    requires store.Valid()
    modifies store
    ensures store.Valid()
    ensures var o := Ingest(p, env, decode, old(store.nextId));
            && resp == o.response
            && trace == o.trace
            && store.invoices == old(store.invoices) + OptionToSeq(o.invoice)
            && store.vatFiles == old(store.vatFiles) + OptionToSeq(o.vatFile)
  {
    trace := [];
    if p.fileName == "" {
      return N8nFailure(400, MissingFileName), trace;
    }
    if p.fileData == "" && p.fileUrl == "" {
      return N8nFailure(400, MissingFile), trace;
    }

    var received: Millis;
    match p.receivedDate {
      case NoDate => received := env.now;
      case ParsedDate(ms) => received := ms;
      case UnparsableDate(castError) =>
        return N8nFailure(500, ErrorMessage(castError)), trace;
    }
    if env.fault.InvoiceCreateFails? {
      return N8nFailure(500, ErrorMessage(env.fault.message)), trace;
    }
    var invoice := store.CreateInvoice(InvoiceSender(p), InvoiceSubject(p), received, Processed, env.now);
    trace := [InvoiceCreated(invoice.id)];

    var stage := SaveFile(p, env, decode);
    trace := trace + stage.trace;
    if stage.failure.Some? {
      return N8nFailure(500, ErrorMessage(stage.failure.value)), trace;
    }

    if env.fault.VatFileCreateFails? {
      return N8nFailure(500, ErrorMessage(env.fault.message)), trace;
    }
    var vat := store.CreateVatFile(invoice.id, p.fileName, stage.localPath, stage.driveFileId, VatSource(p),
                                   env.now, ExtractedOrEmpty(p), PublishedOrDefault(p));
    trace := trace + [VatFileCreated(vat.id), Notified(vat.fileName, vat.source)];
    resp := N8nSuccess(InvoiceSummary(invoice.id, invoice.senderEmail, invoice.subject, invoice.receivedDate),
                       VatFileSummary(vat.id, vat.fileName, vat.source, vat.isPublished));
  }
}
