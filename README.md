# FinalAI VAT invoices — a Dafny model

FinalAI collects VAT invoice files. They arrive in two ways: an n8n
automation posts them to a webhook, or a signed-in user uploads them. The
server keeps two collections. An **Invoice** holds the sender, the subject,
the date and a status. A **VatFile** holds the file's name, where it is
stored (`localPath`, and a Google Drive id when Drive is configured), its
source, the extracted data and an `isPublished` flag. Users register and log
in with a bcrypt-hashed password and get a JWT. A maintenance script
rewrites stored paths to bare file names. The server gives PDF files a
`Content-Disposition` header that carries the encoded file name.

A React client shows the invoices in a feed. The feed offers search and
filters. Each invoice is a card with a download link. The client also has
sign-in forms, posts with likes and comments, and a route guard.

The model has one module per source file, plus four shared modules:

- `Common`: JavaScript string operations. This covers `split`, `pop`,
  `includes`, `trim` with JavaScript's whitespace set, ASCII case mapping
  and UTF-16 length.
- `Decimal`: decimal digits and `parseInt`.
- `StoredName`: the `<ms>-<random>-<name>` stored-file name, which the
  multer storage and the n8n controller share.
- `Store`: the two collections, as the class `VatStore` over sequences.

Handlers return a trace of their effects in order: records created, file
fetched, file written, Drive upload, notification. The inputs of the
outside world are parameters:

- the clock and the random number;
- the Drive result and the download result;
- injected store faults;
- the base64 decoder, bcrypt's hash and compare, and JWT signing.

Three behaviours of the code a reader might not expect:

- An unparsable `receivedDate` does not fall back to the ingestion time.
  It becomes an invalid `Date`, the Invoice insert fails to cast it, and
  the request answers 500 before anything is stored (`ReceivedDate.UnparsableDate`).
- Malformed base64 in `fileData` is not reported as a 400: Node's decoder
  never throws, so decoding is a total function parameter.
- A malformed id in `GET /:id` or `PUT /:id/publish` is a cast error, which
  answers 500, not 404.

## Model

| member | source | states |
|---|---|---|
| Common.Split | client-app/src/components/InvoiceCard.jsx:19 | `split` on separator characters always yields at least one piece |
| Common.JoinSplit | src/middleware/n8nAuth.js:37 | gluing the pieces of a split back with the separator gives the original string |
| Common.SplitPiecesFree | src/middleware/n8nAuth.js:37 | no piece of a split contains a separator |
| Common.LastSegmentProperties | fix-localpath.js:32 | `split(...).pop()` holds no separator, is a suffix of the string, and is the whole string when there is no separator |
| Common.TrimEmptyIffAllSpace | client-app/src/utils/validation.js:52 | `trim()` is empty exactly when the string is all JavaScript whitespace |
| Common.Utf16Length | client-app/src/utils/validation.js:8 | the UTF-16 length lies between the number of characters and twice that |
| Common.Utf16LengthOfBmp | client-app/src/utils/validation.js:8 | without characters outside the Basic Multilingual Plane the UTF-16 length is the number of characters |
| Decimal.DigitsValueOfNatToString | src/routes/vat.js:17 | the decimal text of a number reads back as that number |
| Decimal.ParseIntOfNatToString | src/routes/vat.js:29 | `parseInt` of a number's decimal text is that number |
| Decimal.LeadingDigitsStopAtNonDigit | src/routes/vat.js:29 | `parseInt` reads the leading digits and stops at the first non-digit |
| Decimal.ParseInt | src/routes/vat.js:28 | text that is empty after leading whitespace is NaN, and a negative value needs a leading `-` |
| Decimal.ParseIntOfSignedPrefix | src/routes/vat.js:28 | leading whitespace is skipped, one `-` or `+` is read, and reading stops at the first non-digit: `" -12px"` is -12, `"+7"` is 7, `"10MB"` is 10 |
| Decimal.ParseIntOfNoDigits | src/routes/vat.js:28 | without a digit after the whitespace and one sign the result is NaN: `"abc"`, `"-x"` and `"+"` |
| StoredName.UniqueFilename | src/routes/vat.js:16-19 | the stored name ends with `-` and the original name |
| StoredName.ParseUniqueFilenameRoundTrip | src/controllers/n8nController.js:66 | the timestamp, random number and original name can be read back from a stored name |
| StoredName.UniqueFilenameInjective | src/routes/vat.js:16-19 | different (time, random, name) triples give different stored names |
| StoredName.UploadPath | src/controllers/n8nController.js:67 | the stored path lies in `uploads/vat_files/` and ends with the name |
| Store.FindVatFile | src/controllers/vatController.js:71 | a found record has the id; no record is found only when none has it |
| Store.FindInvoice | src/controllers/vatController.js:50 | a found invoice has the id; none is found only when none has it |
| Store.PublishIn | src/controllers/vatController.js:74-75 | publishing keeps the length and sets only the flag of the record with the id |
| Store.VatStore.CreateInvoice | src/controllers/n8nController.js:44-49 | appends the invoice with a fresh id and keeps ids distinct |
| Store.VatStore.CreateVatFile | src/controllers/n8nController.js:132-141 | appends the record with a fresh id and keeps ids distinct |
| Store.VatStore.SavePublished | src/controllers/vatController.js:74-75 | the collection becomes `PublishIn` of the old one; invoices are unchanged |
| N8nController.FirstLine | src/controllers/n8nController.js:57 | the prefix of the string up to the first line terminator, as `.` in the regex sees it |
| N8nController.StripDataPrefixShape | src/controllers/n8nController.js:57 | without `data:` the text is unchanged; otherwise what remains is a suffix that starts after a comma on the first line |
| N8nController.StripDataPrefixOfPrefixed | src/controllers/n8nController.js:57 | `data:<mime>,<payload>` gives back the payload when the payload's first line has no comma |
| N8nController.StripDataPrefixIdempotent | src/controllers/n8nController.js:57 | stripping twice is stripping once |
| N8nController.RejectReason | src/controllers/n8nController.js:29-41 | a request is rejected exactly when the name is missing or both the data and the URL are missing |
| N8nController.ErrorMessage | src/controllers/n8nController.js:165-170 | the 500 message is never empty and is the error's own message when it has one |
| N8nController.DriveStage | src/controllers/n8nController.js:71-78 | Drive is called only when configured; a Drive id is kept as the record's `driveFileId`, and a Drive error leaves no id |
| N8nController.Ingest | src/controllers/n8nController.js:29-170 | 400 creates nothing; the Invoice comes first in the trace; a VatFile exists only with its Invoice and refers to it; success exactly when both exist; the source, sender, subject and flag defaults |
| N8nController.HealthyRequestSucceeds | src/controllers/n8nController.js:44-164 | a valid request with no fault succeeds |
| N8nController.FileDataWinsOverUrl | src/controllers/n8nController.js:55-78 | with `fileData` the URL is never fetched, and neither the URL nor the download outcome changes anything |
| N8nController.FileDataIsStored | src/controllers/n8nController.js:55-68 | with `fileData` the decoded bytes are written under the stored name, which becomes `localPath` |
| N8nController.FailedDownloadFallsBackToUrl | src/controllers/n8nController.js:124-128 | a failed download stores the URL itself, writes nothing, skips Drive and still succeeds |
| N8nController.DriveOnlyWhenConfigured | src/controllers/n8nController.js:71 | without Drive configuration there is no Drive upload |
| N8nController.DriveFailureIsHarmless | src/controllers/n8nController.js:75-77 | a failing Drive upload gives the same outcome as one that returned no id |
| N8nController.LateFailureKeepsInvoice | src/controllers/n8nController.js:165-170 | a failure after the Invoice insert answers 500 and leaves the Invoice |
| N8nController.StoredPathCarriesName | src/controllers/n8nController.js:66-67 | the stored path is the upload directory plus the unique name, from which the original name reads back |
| N8nController.UploadToDrive | src/controllers/n8nController.js:71-78 | the Drive step computes what `DriveStage` says |
| N8nController.SaveFile | src/controllers/n8nController.js:55-128 | the file stage computes what `FileStageOf` says |
| N8nController.N8nWebhookHandler | src/controllers/n8nController.js:27-171 | the response, trace and store change are those of `Ingest` |
| N8nAuth.Decide | src/middleware/n8nAuth.js:13-76 | a denial is always 401 or 403 |
| N8nAuth.BasicToken | src/middleware/n8nAuth.js:35 | the token after `Basic ` holds no space |
| N8nAuth.Credentials | src/middleware/n8nAuth.js:37 | neither the user nor the password holds a `:`, and text without `:` is all user with no password |
| N8nAuth.NoConfigPassesAll | src/middleware/n8nAuth.js:18-22 | with nothing configured every request passes |
| N8nAuth.BasicIgnoresApiKey | src/middleware/n8nAuth.js:25-47 | once Basic credentials are configured, API keys play no part |
| N8nAuth.BasicNeedsBasicHeader | src/middleware/n8nAuth.js:27-32 | without a `Basic ` header the answer is 401 |
| N8nAuth.BasicDecision | src/middleware/n8nAuth.js:35-46 | the decision depends on the first two `:` pieces of the decoded token: 403 on a mismatch, pass on a match |
| N8nAuth.ExtraPiecesAccepted | src/middleware/n8nAuth.js:37 | a decoded token `user:password:anything` is accepted |
| N8nAuth.ApiKeyDecision | src/middleware/n8nAuth.js:50-69 | the header key wins over the query key; no key is 401; the request passes exactly when the chosen key matches, and any other present key, from the header or the query, is 403 |
| N8nAuth.HalfBasicConfigDeniesAll | src/middleware/n8nAuth.js:71-75 | a half-configured Basic pair without an API key denies everything with 401 |
| N8nAuth.ColonPasswordNeverAccepted | src/middleware/n8nAuth.js:37-39 | a configured password containing `:` is never matched |
| N8nAuth.CredentialsRfc | src/middleware/n8nAuth.js:37 | the split at the first `:` puts the text back together exactly and leaves the user-id free of `:` |
| N8nAuth.DecideBasicRfcAccepts | src/middleware/n8nAuth.js:35-46 | with the first-colon split, exactly the configured `user:password` passes |
| VatController.Populate | src/controllers/vatController.js:50 | the linked invoice is the one with the record's invoice id, or none when it no longer exists |
| VatController.Upload | src/controllers/vatController.js:7-46 | no file is a 400 that creates nothing; the Invoice comes first; the record links to it; the sender, subject, source and `Pending` defaults; the bare stored name is the path; a Drive id is kept as `driveFileId` and a Drive failure leaves no id |
| VatController.UploadDriveFailureIsHarmless | src/controllers/vatController.js:20-28 | a Drive error gives the same outcome as an upload that returned no id |
| VatController.UploadSucceeds | src/controllers/vatController.js:7-41 | a request with a file, a readable date and no fault succeeds |
| VatController.UploadHandler | src/controllers/vatController.js:7-46 | the response and store change are those of `Upload` |
| VatController.SortNewestFirstCorrect | src/controllers/vatController.js:50 | the sort yields a newest-first permutation of the records |
| VatController.InsertByDatePermutes | src/controllers/vatController.js:50 | insertion adds exactly the inserted record |
| VatController.SortNewestFirst | src/controllers/vatController.js:50 | the sort keeps the number of records (order and permutation in `SortNewestFirstCorrect`) |
| VatController.ListVat | src/controllers/vatController.js:48-55 | a failing query is a 500 with its message; otherwise one listed item per stored record |
| VatController.ListVatCorrect | src/controllers/vatController.js:48-55 | the list holds every stored record, newest first, each with its own invoice |
| VatController.GetVat | src/controllers/vatController.js:57-66 | found exactly when the id is well-formed and stored, with that record and its own invoice; a stored-id miss is 404 `Not found`; a malformed id is 500 with the cast error's message |
| VatController.PublishResult | src/controllers/vatController.js:68-82 | a stored id with a successful save is published as the stored record with the flag set; an unknown id is 404; a failing save or a malformed id is 500 with its message |
| VatController.PublishSucceeds | src/controllers/vatController.js:71-79 | a stored id and a successful save publish the stored record with the flag set and give `PublishIn` as the new collection |
| VatController.PublishTwiceIsPublishOnce | src/controllers/vatController.js:74-75 | publishing twice leaves the same collection and the same answer as publishing once |
| VatController.PublishedFileStaysFound | src/controllers/vatController.js:74-75 | after publishing, the record is found again with only the flag changed |
| VatController.PublishFailureChangesNothing | src/controllers/vatController.js:71-81 | a failed publish leaves the collection unchanged |
| VatController.PublishVat | src/controllers/vatController.js:68-82 | the answer and store change are those of `PublishResult` and `PublishState` |
| VatRoutes.FileFilter | src/routes/vat.js:22-26 | a file is accepted exactly when its type is PDF, JPEG or PNG |
| VatRoutes.Destination | src/routes/vat.js:13-15 | files always go to `uploads/vat_files` |
| VatRoutes.MulterFilename | src/routes/vat.js:16-19 | the stored name ends with `-` and the original name, and reads back into its three parts |
| VatRoutes.MaxFileSizeDefault | src/routes/vat.js:28-29 | the size limit is 10 MiB when unset and n MiB when set to n |
| VatRoutes.MaxFileSize | src/routes/vat.js:28-29 | a limit, when there is one, is a whole number of MiB |
| VatRoutes.Dispatch | src/routes/vat.js:60-209 | the first matching route wins |
| VatRoutes.Resolve | src/routes/vat.js:60-209 | a request is routed exactly when some route matches, and then to the guard and handler of the first matching one |
| VatRoutes.WebhookBeforeId | src/routes/vat.js:144-154 | `POST /webhook` reaches the n8n handler behind n8n auth, and `GET /webhook` reaches the open probe; neither is taken as an id |
| VatRoutes.OtherSegmentIsId | src/routes/vat.js:183 | any other single segment is an id for `getVat` behind auth |
| VatRoutes.PublishRoute | src/routes/vat.js:209 | `PUT /<id>/publish` reaches `publishVat` behind auth |
| VatRoutes.GuardsOfHandlers | src/routes/vat.js:60-209 | only the webhook uses n8n auth, only the probe is open, and every other route uses auth |
| AuthController.FindByEmail | src/controllers/authController.js:9 | a found user has the email; no user is found only when none has it |
| AuthController.RegisterResult | src/controllers/authController.js:5-17 | missing fields and a taken email are 400s; otherwise a fault is a 500 with its own message, and no fault answers `Registered` |
| AuthController.UserStore.Register | src/controllers/authController.js:5-17 | the user is stored with the hashed password only on success; emails stay unique |
| AuthController.RegisterKeepsEmailsUnique | src/controllers/authController.js:9-12 | a successful registration keeps emails unique |
| AuthController.Login | src/controllers/authController.js:19-32 | an unknown email or a wrong password is 400 `Invalid credentials`; a missing password is a 500; a known email with a matching password gets a token signed over its id, email and role, or a 500 when the secret is unset |
| AuthController.LoginFailureIsUniform | src/controllers/authController.js:22-25 | an unknown email and a wrong password get the same answer |
| AuthController.RegisterThenLogin | src/controllers/authController.js:5-32 | after registering, logging in with the same password returns that account |
| FixLocalPath.RemoveAll | fix-localpath.js:24-26 | no `uploads/vat_files/` is left |
| FixLocalPath.TrimLeadingSeps | fix-localpath.js:29 | only leading separators are removed, and none is left at the front |
| FixLocalPath.NormalisePath | fix-localpath.js:20-32 | the loop computes `Normalise` |
| FixLocalPath.NormaliseIsBare | fix-localpath.js:20-32 | the result has no separator and no prefix |
| FixLocalPath.NormaliseOfBare | fix-localpath.js:20-32 | a bare name is left as it is |
| FixLocalPath.NormaliseIdempotent | fix-localpath.js:20-32 | normalising twice is normalising once |
| FixLocalPath.NormalisePrefixed | fix-localpath.js:24-26 | a leading prefix makes no difference |
| FixLocalPath.FixedChangesOnlyPath | fix-localpath.js:35-40 | only `localPath` changes, and only when the new name is non-empty and different |
| FixLocalPath.FixedAllAt | fix-localpath.js:15-41 | in the fixed collection each record is fixed on its own, whatever the others are |
| FixLocalPath.FixRecord | fix-localpath.js:19-41 | one loop step gives `Fixed` and saves exactly when the record changes |
| FixLocalPath.FixLocalPaths | fix-localpath.js:15-41 | the records become `FixedAll` of the records before, and `fixed` counts the changed records |
| FixLocalPath.SecondRunFixesNothing | fix-localpath.js:19-41 | a second run changes no record |
| PdfHeaders.Utf8RoundTrip | server.js:31 | UTF-8 encoding decodes back to the string |
| PdfHeaders.Basename | server.js:30 | the base name holds no `/`, ends the path, and is the path itself when it has no `/` |
| PdfHeaders.EncodeURIComponent | server.js:31 | the encoded name decodes back to the name |
| PdfHeaders.ContentDisposition | server.js:32 | the header starts with `inline; filename*=UTF-8''` and what follows decodes back to the name |
| PdfHeaders.EncodeRoundTrip | server.js:31 | the percent-encoded name decodes back to the name |
| PdfHeaders.EncodedIsHeaderSafe | server.js:31-32 | the encoded name has no space, `;`, `,` or `"` |
| PdfHeaders.ContentDispositionRoundTrip | server.js:30-32 | the header holds the encoded base name after `inline; filename*=UTF-8''`, and that decodes back to the base name |
| PdfHeaders.ResponseHeaders.SetHeaders | server.js:25-34 | a `.pdf` gets the PDF type and the disposition of its base name; other files get no header change |
| PdfHeaders.UriEncodingLeavesParenthesis | server.js:31 | for every base name holding a `(`, `encodeURIComponent` keeps the `(`, so the value is outside the RFC 5987 grammar |
| PdfHeaders.ContentDispositionRfc5987 | server.js:31-32 | with attr-char encoding, the value is inside the grammar and decodes back to the name |
| Validation.ValidateEmailIsPattern | client-app/src/utils/constants.js:3 | the email check accepts exactly the strings of the shape `local@host.tld`, each part a non-empty run of non-space, non-`@` characters |
| Validation.ValidEmailShape | client-app/src/utils/validation.js:3-5 | a valid address has no whitespace and exactly one `@` |
| Validation.ValidateEmail | client-app/src/utils/validation.js:3-5 | an accepted address has at least five characters |
| Validation.ValidatePassword | client-app/src/utils/validation.js:7-9 | a password of at least the minimum number of characters is accepted, and none under half of it is |
| Validation.ValidatePasswordThreshold | client-app/src/utils/validation.js:7-9 | for text without astral characters, a password is accepted exactly when it has at least six characters |
| Validation.ValidateName | client-app/src/utils/validation.js:11-13 | an accepted name is not all whitespace |
| Validation.ValidateNameThreshold | client-app/src/utils/validation.js:11-13 | for text without astral characters, a name is accepted exactly when it has at least two characters once trimmed |
| Validation.BlankNameInvalid | client-app/src/utils/validation.js:11-13 | a name made only of whitespace is invalid however long it is |
| Validation.ValidateLoginForm | client-app/src/utils/validation.js:15-25 | valid exactly when both fields are present and the email is valid; empty fields are reported first |
| Validation.LoginIgnoresPasswordLength | client-app/src/utils/validation.js:15-25 | the login check never looks at the password's length |
| Validation.ValidateRegisterForm | client-app/src/utils/validation.js:27-49 | each error is reported exactly when every earlier check passes and its own check fails; valid exactly when all pass |
| Validation.RegisterValidImpliesLoginValid | client-app/src/utils/validation.js:15-49 | a valid registration is also a valid login |
| Validation.ValidatePostForm | client-app/src/utils/validation.js:51-57 | valid exactly when title and content are not blank; the error is always the empty-title one |
| Feed.FromPopulated | client-app/src/pages/Feed.jsx:154-157 | the fields the feed reads from a listed record, with "" for a missing invoice |
| Feed.Filtered | client-app/src/pages/Feed.jsx:151-191 | the filtered list is never longer than the list (order and members in the two lemmas below) |
| Feed.FilteredIsSubsequence | client-app/src/pages/Feed.jsx:151-191 | the filtered list is an order-preserving sub-list of the invoices |
| Feed.FilteredMembers | client-app/src/pages/Feed.jsx:151-191 | an invoice is shown exactly when it is listed and passes search, status, source and date |
| Feed.DefaultsKeepAll | client-app/src/pages/Feed.jsx:159-190 | with no search and default filters every invoice is shown, in order |
| Feed.SearchIgnoresCase | client-app/src/pages/Feed.jsx:153-163 | upper- or lower-casing the search term changes nothing |
| Feed.SourceFilterDropsMissing | client-app/src/pages/Feed.jsx:171-172 | a source filter drops invoices without a source |
| Feed.DateFilterIsDayWindow | client-app/src/pages/Feed.jsx:175-188 | the same from and to day keep exactly the invoices uploaded during that day |
| Feed.UniqueSources | client-app/src/pages/Feed.jsx:149 | the source list has no empty entry and no duplicate |
| Feed.UniqueSourcesMembers | client-app/src/pages/Feed.jsx:149 | every non-empty source is listed, and nothing else |
| Feed.BadgeCount | client-app/src/pages/Feed.jsx:322 | the badge counts at most 4, and is 0 exactly when no filter is active |
| Feed.HasActiveFilters | client-app/src/pages/Feed.jsx:193 | a filter is active exactly when the four filters are not all at their defaults |
| Feed.InactiveFiltersOnlySearch | client-app/src/pages/Feed.jsx:166-193 | with no active filter only the search decides |
| Feed.FeedFilters.ClearFilters | client-app/src/pages/Feed.jsx:141-146 | the four filters return to their defaults and the search stays; afterwards nothing is active and the badge is 0 |
| InvoiceCard.FileUrl | client-app/src/components/InvoiceCard.jsx:16-23 | no link exactly when `localPath` is empty; otherwise the files route followed by a `/`-free suffix of the path |
| InvoiceCard.FileUrlOfLastSegment | client-app/src/components/InvoiceCard.jsx:19-20 | a path ending in `/x`, with `x` free of `/`, links to the files route followed by `x` |
| InvoiceCard.PrefixedPathSameUrl | client-app/src/components/InvoiceCard.jsx:18-20 | `uploads/vat_files/x` and `x` link to the same file |
| InvoiceCard.StoredPathLinksToFile | client-app/src/components/InvoiceCard.jsx:19-20 | the path the server stores links to the file, and so does the name the fix script makes of it |
| InvoiceCard.FormatDate | client-app/src/components/InvoiceCard.jsx:4-14 | a missing date shows `N/A` |
| AuthSidebar.SubmitVerdict | client-app/src/components/AuthSidebar.jsx:29-37 | login mode uses the login check, register mode the full check |
| AuthSidebar.LoginIgnoresRegisterFields | client-app/src/components/AuthSidebar.jsx:31-34 | in login mode the name and the confirmation play no part |
| AuthSidebar.LoginNameIsLocalPart | client-app/src/components/AuthSidebar.jsx:46 | for a valid email the login name is its non-empty local part before `@` |
| AuthSidebar.DisplayName | client-app/src/components/AuthSidebar.jsx:46 | registering uses the typed name; logging in uses the email's text before the first `@`, which holds no `@` and is the whole email when it has none |
| AuthSidebar.Initials | client-app/src/components/AuthSidebar.jsx:65-67 | the initials are at most two characters (the first two words' first letters, by `InitialsOfTwoWords` and `InitialsOfLongName`) |
| AuthSidebar.InitialsOfOneWord | client-app/src/components/AuthSidebar.jsx:65-67 | a one-word name gives its first letter, upper-cased |
| AuthSidebar.InitialsOfTwoWords | client-app/src/components/AuthSidebar.jsx:65-67 | a two-word name gives both first letters, upper-cased |
| AuthSidebar.InitialsOfLongName | client-app/src/components/AuthSidebar.jsx:65-67 | a name of three or more words gives the upper-cased first letters of the first two words |
| AuthSidebar.Panel.HandleChange | client-app/src/components/AuthSidebar.jsx:17-24 | only the named field changes and the error is cleared |
| AuthSidebar.Panel.HandleSubmit | client-app/src/components/AuthSidebar.jsx:26-55 | a failing form shows its error, keeps the form and logs nobody in; a passing one is handed on with the right name, cleared, and greeted with the mode's message |
| AuthSidebar.Panel.ToggleForm | client-app/src/components/AuthSidebar.jsx:57-62 | the mode flips and form, error and success message are cleared |
| AuthSidebar.EmptyFormFails | client-app/src/components/AuthSidebar.jsx:51 | the cleared form fails with the empty-fields error in either mode |
| PostCard.Like | client-app/src/components/PostCard.jsx:11-18 | a like is taken back when liked and added otherwise, and the flag flips |
| PostCard.AddComment | client-app/src/components/PostCard.jsx:20-25 | the count grows by one exactly for a non-blank comment, which clears the input; a blank one changes nothing; the count never decreases |
| PostCard.LikeKeepsConsistent | client-app/src/components/PostCard.jsx:5-18 | the count stays the post's count plus one while liked |
| PostCard.LikeTwiceRestores | client-app/src/components/PostCard.jsx:11-18 | liking twice restores the state |
| PostCard.Card.constructor | client-app/src/components/PostCard.jsx:5-9 | the card starts from the post's counts, not liked |
| PostCard.Card.HandleLike | client-app/src/components/PostCard.jsx:11-18 | the card's state becomes `Like` of the old one and stays consistent |
| PostCard.Card.HandleAddComment | client-app/src/components/PostCard.jsx:20-25 | the card's state becomes `AddComment` of the old one |
| PostCard.Card.SetNewComment | client-app/src/components/PostCard.jsx:136 | only the comment being typed changes |
| PostCard.Card.ToggleComments | client-app/src/components/PostCard.jsx:104 | only the comment box's visibility flips |
| CreatePost.CanSubmitIsPostValid | client-app/src/components/CreatePost.jsx:23 | the component's own check accepts exactly what the post validator accepts |
| CreatePost.CanSubmit | client-app/src/components/CreatePost.jsx:23 | a post can be submitted exactly when neither title nor content is all whitespace |
| CreatePost.ImageIsOptional | client-app/src/components/CreatePost.jsx:23 | the image never affects whether a post can be submitted |
| CreatePost.Composer.HandleChange | client-app/src/components/CreatePost.jsx:12-18 | only the named field changes |
| CreatePost.Composer.HandleSubmit | client-app/src/components/CreatePost.jsx:20-31 | a blank title or content sets the error and keeps the form; otherwise the form is submitted, then cleared with the error |
| App.Render | client-app/src/App.jsx:27-57 | the feed renders only when signed in, and the sign-in pages only when not; redirects go to `/feed` when signed in and to `/login` otherwise |
| App.GuardRedirects | client-app/src/App.jsx:27-57 | signed in, `/login`, `/register` and `/` redirect to `/feed`; signed out, `/feed` and `/` redirect to `/login` |
| App.RedirectsSettle | client-app/src/App.jsx:27-57 | every redirect reaches a page in one step |
| App.Shell.constructor | client-app/src/App.jsx:9-11 | the app starts signed in exactly when session storage holds a user |
| App.Shell.HandleLogin | client-app/src/App.jsx:13-16 | the user is stored and the app is signed in |
| App.Shell.HandleLogout | client-app/src/App.jsx:18-22 | the user and the token are removed and the app is signed out |

## Left out

- I/O is left out: the file system, HTTP streaming, MongoDB, Google Drive and Telegram. Their outcomes are parameters, and Telegram is a no-op that never fails.
- Concurrency is left out. Each handler runs alone on the store.
- bcrypt, JWT signing and the base64 and UTF-8 decoders are uninterpreted function parameters. Node's lenient base64 decoding is not modelled.
- `Date.now`, `Math.random` and `new Date(...)` parsing are integer inputs. The uniqueness of stored names across requests is not modelled, since it is only probabilistic.
- Case mapping covers ASCII letters only, with no Unicode case folding.
- Strings are sequences of Unicode scalar values. Lone UTF-16 surrogates are left out, and so is `encodeURIComponent`'s error on them.
- `path.join` and `path.basename` normalisation of `.` and `..` is left out. The base name is the last `/` segment.
- Express routing is matched exactly. Case-insensitive matching and trailing slashes are left out.
- The user model's file is not part of this model, so the default role of a new user is a parameter.
- The `FILE_MAX_SIZE_MB` limit that is not a number is `None`, meaning no limit. Multer's enforcement of the limit is left out.
- A partly written download file is left out. A failed download writes nothing.
- MongoDB's order for records with the same upload date is left out. The model puts such ties in one fixed order.
- Feed dates are day numbers in UTC. Time zones are left out, and so is the locale text of `toLocaleDateString`, which is a parameter of `FormatDate`.
- React rendering, the Toast timer and the fetch-driven pages (Login, Register and the feed's own login and loading) are left out.
- App.Render: paths are matched exactly, because react-router's case-insensitive and trailing-slash matching is left out.
- AuthSidebar.Initials: it counts characters, not UTF-16 units, so a name starting with a character outside the Basic Multilingual Plane is not modelled as JavaScript would cut it.
- App.Shell.HandleLogin: it requires a non-empty serialised user, which `JSON.stringify` of an object always is.

## Findings

| source | as written | input that shows it | evidently intended | confidence | as-written member | corrected member |
|---|---|---|---|---|---|---|
| src/middleware/n8nAuth.js:37 | the decoded credentials are split on every `:` and only the first two pieces are compared | a configured password `pa:ss` with the token for `user:pa:ss` is refused with 403 | section 2 of RFC 7617: split at the first `:` only, so the password may contain `:` | not executed | N8nAuth.ColonPasswordNeverAccepted | N8nAuth.DecideBasicRfcAccepts |
| server.js:31 | `encodeURIComponent` builds the `filename*` value and leaves `'`, `(`, `)` and `*` unescaped | a stored file `a(1).pdf` gets `filename*=UTF-8''a(1).pdf` | section 3.2.1 of RFC 5987: only attr-chars and `%XX` triples in an ext-value | not executed | PdfHeaders.UriEncodingLeavesParenthesis | PdfHeaders.ContentDispositionRfc5987 |
