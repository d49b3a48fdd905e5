/** The VAT router: multer's disk storage (destination and file name),
    its MIME filter and size limit, and the order in which routes and
    their guards are registered. */
module VatRoutes {
  import opened Common
  import opened Decimal
  import opened StoredName

  // ---------------------------------------------------------------------
  // multer configuration
  // ---------------------------------------------------------------------

  const AllowedTypes: seq<string> := ["application/pdf", "image/jpeg", "image/png"]
  const FilterError: string := "Only PDF / JPG / PNG allowed"

  datatype FilterResult = Accept | RejectFile(message: string)

  /** `fileFilter`: membership of the MIME type in the allow-list. */
  function FileFilter(mimetype: string): (r: FilterResult)
    ensures r == Accept <==>
              mimetype == "application/pdf" || mimetype == "image/jpeg" || mimetype == "image/png"
    ensures r.RejectFile? ==> r.message == FilterError
  {
    if mimetype in AllowedTypes then Accept else RejectFile(FilterError)
  }

  /** `storage.destination`: always the upload directory. */
  function Destination(originalname: string): (r: string)
    ensures r == "uploads/vat_files"
  {
    UploadDir
  }

  /** `storage.filename`: `Date.now() + '-' + Math.round(Math.random()*1e9)`
      followed by `'-' + originalname`.  The name can be read back into its
      three parts and ends with `-` and the original name. */
  function MulterFilename(ms: nat, rnd: RandomSuffix, originalname: string): (r: string)
    ensures EndsWith(r, "-" + originalname)
    ensures ParseUniqueFilename(r) == Some(Parts(ms, rnd, originalname))
  {
    ParseUniqueFilenameRoundTrip(ms, rnd, originalname);
    UniqueFilename(ms, rnd, originalname)
  }

  /** `parseInt(process.env.FILE_MAX_SIZE_MB || '10', 10) * 1024 * 1024`;
      `None` is NaN (a value without leading digits), which multer then
      never exceeds. */
  function MaxFileSize(envValue: string): (r: Option<int>)
    ensures r.Some? ==> r.value % 1048576 == 0
  {
    var mb := ParseInt(if envValue != "" then envValue else "10");
    match mb
    case None => None
    case Some(n) => WholeMiB(n); Some(n * 1024 * 1024)
  }

  lemma WholeMiB(n: int)
    ensures (n * 1024 * 1024) % 1048576 == 0
  {
    assert n * 1024 * 1024 == n * 1048576;
  }

  /** Unset, the limit is 10 MiB; set to a number, it is that many MiB. */
  lemma MaxFileSizeDefault(n: nat)
    ensures MaxFileSize("") == Some(10485760)
    ensures MaxFileSize(NatToString(n)) == Some(n * 1048576)
  {
    ParseIntOfNatToString(10);
    assert NatToString(10) == "10" by {
      assert NatToString(1) == "1";
    }
    ParseIntOfNatToString(n);
    assert NatToString(n) != "";
    assert n * 1024 * 1024 == n * 1048576;
  }

  // ---------------------------------------------------------------------
  // Route table
  // ---------------------------------------------------------------------

  datatype Verb = GET | POST | PUT

  /** One segment of a route pattern: a literal or the `:id` parameter,
      which matches any non-empty segment. */
  datatype Segment = Lit(text: string) | Param

  datatype Guard = Auth | N8nAuth | Open

  datatype Handler = UploadHandler | ListVat | N8nWebhook | WebhookProbe | GetVat | PublishVat

  datatype Route = Route(verb: Verb, pattern: seq<Segment>, guard: Guard, handler: Handler)

  /** The routes in registration order, relative to the router's mount. */
  const Routes: seq<Route> := [
    Route(POST, [Lit("upload")], Auth, UploadHandler),
    Route(GET, [], Auth, ListVat),
    Route(POST, [Lit("webhook")], N8nAuth, N8nWebhook),
    Route(GET, [Lit("webhook")], Open, WebhookProbe),
    Route(GET, [Param], Auth, GetVat),
    Route(PUT, [Param, Lit("publish")], Auth, PublishVat)
  ]

  predicate SegmentMatches(p: Segment, s: string) {
    match p
    case Lit(t) => s == t
    case Param => s != ""
  }

  predicate Matches(r: Route, verb: Verb, path: seq<string>) {
    r.verb == verb && |r.pattern| == |path| &&
    forall k :: 0 <= k < |path| ==> SegmentMatches(r.pattern[k], path[k])
  }

  /** First-match dispatch: the index of the first route that matches. */
  function Dispatch(routes: seq<Route>, verb: Verb, path: seq<string>): (r: Option<nat>)
    ensures r.Some? ==> r.value < |routes| && Matches(routes[r.value], verb, path) &&
                        forall k :: 0 <= k < r.value ==> !Matches(routes[k], verb, path)
    ensures r.None? ==> forall k :: 0 <= k < |routes| ==> !Matches(routes[k], verb, path)
  {
    if routes == [] then None
    else if Matches(routes[0], verb, path) then Some(0)
    else match Dispatch(routes[1..], verb, path)
      case None => None
      case Some(i) => Some(i + 1)
  }

  /** The guard and handler a request reaches, if any route matches. */
  function Resolve(verb: Verb, path: seq<string>): (r: Option<(Guard, Handler)>)
    ensures r.Some? <==> exists k :: 0 <= k < |Routes| && Matches(Routes[k], verb, path)
    ensures r.Some? ==> exists k :: 0 <= k < |Routes| && Matches(Routes[k], verb, path) &&
                          (forall m :: 0 <= m < k ==> !Matches(Routes[m], verb, path)) &&
                          r.value == (Routes[k].guard, Routes[k].handler)
  {
    match Dispatch(Routes, verb, path)
    case None => None
    case Some(i) => Some((Routes[i].guard, Routes[i].handler))
  }

  /** `POST /webhook` goes to the n8n handler behind `n8nAuth`, and
      `GET /webhook` to the open probe: neither reaches `getVat` with
      `webhook` as an id. */
  lemma WebhookBeforeId()
    ensures Resolve(POST, ["webhook"]) == Some((N8nAuth, N8nWebhook))
    ensures Resolve(GET, ["webhook"]) == Some((Open, WebhookProbe))
  {
    assert Matches(Routes[2], POST, ["webhook"]);
    assert !SegmentMatches(Lit("upload"), "webhook") by { assert "webhook"[0] != "upload"[0]; }
    assert Routes[0].pattern[0] == Lit("upload") && ["webhook"][0] == "webhook";
    assert !Matches(Routes[0], POST, ["webhook"]);
    assert !Matches(Routes[1], POST, ["webhook"]);
    assert !Matches(Routes[0], GET, ["webhook"]);
    assert Matches(Routes[3], GET, ["webhook"]);
    assert !Matches(Routes[1], GET, ["webhook"]);
    assert !Matches(Routes[2], GET, ["webhook"]);
  }

  /** Any other single segment is an id for `getVat`, behind `auth`. */
  lemma OtherSegmentIsId(id: string)
    requires id != "" && id != "webhook"
    ensures Resolve(GET, [id]) == Some((Auth, GetVat))
  {
    assert Matches(Routes[4], GET, [id]);
    assert !Matches(Routes[1], GET, [id]);
    assert !SegmentMatches(Routes[3].pattern[0], [id][0]);
  }

  /** `PUT /<id>/publish` reaches `publishVat` behind `auth` for every id. */
  lemma PublishRoute(id: string)
    requires id != ""
    ensures Resolve(PUT, [id, "publish"]) == Some((Auth, PublishVat))
  {
    assert Matches(Routes[5], PUT, [id, "publish"]);
  }

  /** Every VAT operation is guarded by `auth`; only the n8n webhook is
      guarded by `n8nAuth`, and only the probe is open. */
  lemma GuardsOfHandlers()
    ensures forall k :: 0 <= k < |Routes| ==>
              (Routes[k].guard == N8nAuth <==> Routes[k].handler == N8nWebhook) &&
              (Routes[k].guard == Open <==> Routes[k].handler == WebhookProbe)
  {
  }
}
