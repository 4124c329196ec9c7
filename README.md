# Payment hook fiscalisation, modelled in Dafny

The payment hook receives Stripe `payment_intent.succeeded` webhooks. It
fiscalises each payment with FINA, the Croatian tax authority's fiscalisation
service, and keeps a ledger of receipts in the `fina_receipt` table. Each
payment goes through the same steps:

- reserve the next receipt number as a `processing` row;
- compute the ZKI, the issuer's protection code over a fixed concatenation of
  the receipt's fields;
- build, sign and envelope the `RacunZahtjev` document and post it;
- read the JIR, the authority's confirmation code, from the answer;
- reconcile the row to `completed` or `failed`.

The operator commands retry failed receipts, create manual receipts and
generate PDFs. Every upload to object storage passes a key validator. A small
migration runner keeps the database schema in step with the SQL files of
`migrations/`.

The project is split into one Dafny module per concern:

| file | module | models |
|---|---|---|
| `wrappers.dfy` | `Wrappers` | `Option` and `Result` |
| `strings.dfy` | `Strings` | the Python string idioms the code relies on (`split`, `join`, `strip`, `startswith`, `in`, number formatting) |
| `timestamps.dfy` | `Timestamps` | the three `strftime` layouts and their inverses |
| `py_values.dfy` | `PyValues` | JSON values as Python sees them (truthiness, `isinstance(x, int)`, `dict.get`) |
| `fina_documents.dfy` | `FinaDocuments` | the ZKI message, the `RacunZahtjev` template and the SOAP envelope |
| `fina_xml.dfy` | `FinaXml` | `extract_jir` and the two `element_to_dict` conversions over parsed elements |
| `fina.dfy` | `Fina` | the receipt ledger as a class (`Ledger`), the control flow of `fiscalize`, `process_fina_fiscalization` |
| `fina_cli.dfy` | `FinaCli` | `retry_receipt`, `create_receipt`, `sanitize_filename`, the verification URL, the display number and the PDF bookkeeping |
| `app.dfy` | `App` | payment-intent validation, the `invoice_id` fallback, the idempotency gate, the EUR gate and the webhook handler |
| `s3_storage.dfy` | `S3Storage` | `validate_s3_key` and the two upload wrappers over a bucket map |
| `migrate.dfy` | `Migrate` | versions, sorting, pending files, statement splitting, the application loop, `create_migration` |

### Modelling choices

- **Amounts** are integer cents.
- **Timestamps** are broken-down local times (`Timestamps.DateTime`), and the
  clock is an integer `now`.
- **Foreign calls.** The FINA side is the `Fina.Gateway` record of functions,
  whose result is `None` where the call raises. It covers:
  - the certificate bundle;
  - the RSA/MD5 protection code;
  - the XML signature. The signer receives the `Fina.ReceiptRequest` whose
    text `Fina.Render` produces (`build_receipt`) rather than that text.
    The text is a function of the request, so any signer of texts is such a
    signer;
  - the mutual-TLS POST;
  - the XML parser.
- **Other parameters:**
  - what the webhook handler gets from outside the payload is the record
    `App.Environment`: the Stripe signature check, the conversion to the
    FINA time zone (`None` where it overflows), a failing idempotency lookup,
    and an S3 error that escapes the upload wrappers while the handler saves
    its webhook copies;
  - the outcome of an S3 upload is a boolean;
  - whether PDF rendering and the upload call complete without raising is a
    boolean, and the result the upload call returns is another;
  - whether the database accepts a SQL statement is a function.
- **The receipt table** belongs to the class `Fina.Ledger`:
  - `rows` are the table;
  - `nextNumber` is the receipt-number sequence;
  - `nextId` is the id sequence.

  The three SQL writers of `fina.py` are its methods. The commands of
  `fina_cli.py` and the handler of `app.py` are methods that take the ledger.
- **The migrations directory** and the `schema_migrations` table belong to the
  class `Migrate.Workspace`.

### Where the code and its documentation disagree, the code is followed

- The reconciling UPDATE overwrites every row with the payment's `stripe_id`,
  `completed` ones included (fina.py:88-95).
- `stripe_id` is not unique.
- The `e.zki` branch of `process_fina_fiscalization` (fina.py:199-204) never
  records a ZKI, because the errors `fiscalize` raises carry none.
- A validated intent with `"metadata": null` makes the handler raise before
  the idempotency lookup (app.py:117-118), so it answers 500 with nothing
  reserved (`App.Gate`). The corrected lookup `App.InvoiceId` (see
  "Findings") gives `App.PaymentOf` its order id. It equals the code's
  value on every payment that reaches fiscalisation.

## Model

| member | source | states |
|---|---|---|
| Strings.Split | migrate.py:82 | `str.split` on one separator gives at least one piece, and no piece contains the separator |
| Strings.JoinSplit | migrate.py:82 | joining the pieces of a split with the same separator gives back the original text |
| Strings.SplitConcat | migrate.py:82 | splitting two texts joined by the separator gives the pieces of the first followed by the pieces of the second |
| Strings.StripUntouched | s3_storage.py:29 | `str.strip` leaves a string alone when neither end is whitespace |
| Strings.TrimUntouched | fina_cli.py:219 | `strip("-")` leaves a string alone when neither end is a hyphen |
| Strings.NatToString | fina_cli.py:241-243 | the decimal form of a natural number is a non-empty digit string without a leading zero that reads back to the number |
| Strings.NatToStringInjective | fina_cli.py:241-243 | different amounts print differently |
| Timestamps.CompactStamp | fina.py:417 | `%Y%m%d_%H%M%S` is 15 characters: eight digits, `_`, six digits |
| Timestamps.CompactStampRoundTrip | migrate.py:140 | the compact stamp reads back to the same timestamp, so it determines the timestamp |
| Timestamps.MinuteStamp | fina_cli.py:240 | `%Y%m%d_%H%M` is the compact stamp without its seconds |
| Timestamps.XmlStamp | fina.py:416-422 | `%d.%m.%YT%H:%M:%S` is 19 characters, with its separators at fixed positions |
| Timestamps.XmlStampRoundTrip | fina.py:416-422 | the XML stamp reads back to the same timestamp |
| FinaDocuments.FormatCents | fina.py:456 | `:.2f` of an amount is digits, a dot, then exactly two digits |
| FinaDocuments.FormatCentsRoundTrip | fina.py:228 | the two-decimal text reads back to the same number of cents |
| FinaDocuments.ZkiMessageDetectsSingleChange | fina.py:227-230 | changing any single one of the six ZKI fields changes the message the authority recomputes |
| FinaDocuments.OibChangesMessage | fina.py:228 | a different company OIB gives a different ZKI message |
| FinaDocuments.PaymentTimeChangesMessage | fina.py:228 | a different payment time gives a different ZKI message |
| FinaDocuments.ReceiptNumberChangesMessage | fina.py:228 | a different receipt number gives a different ZKI message |
| FinaDocuments.LocationChangesMessage | fina.py:228 | a different location id gives a different ZKI message |
| FinaDocuments.RegisterChangesMessage | fina.py:228 | a different register id gives a different ZKI message |
| FinaDocuments.AmountChangesMessage | fina.py:228 | a different amount gives a different ZKI message |
| FinaDocuments.ZkiMessageLocationRegisterBoundary | fina.py:228 | with no separator, location `1` with register `23` gives the same message as location `12` with register `3`, whatever the other four fields are |
| FinaDocuments.FlattenDetectsOneChange | fina.py:228 | two piece lists that differ in exactly one piece concatenate to different strings |
| FinaDocuments.BuildReceiptCarriesFields | fina.py:233-261 | the `RacunZahtjev` document holds each checked value in its own element |
| FinaDocuments.WrapSoap | fina.py:299-305 | the envelope is the fixed SOAP head, the signed document, then the fixed tail |
| FinaDocuments.WrapSoapRoundTrip | fina.py:299-305 | taking the envelope off gives back exactly the signed document |
| FinaXml.LocalNameShape | fina.py:366 | the local name has no `}`, is a suffix of the tag, and is preceded by `}` when shorter than the tag |
| FinaXml.LocalNameIsLastPiece | fina.py:366 | the local name is the last piece of `tag.split("}")` |
| FinaXml.LocalNameOfQualified | fina.py:366 | a tag in Clark notation loses exactly its `{namespace}` part |
| FinaXml.LocalNameOfPlain | fina.py:370 | a tag without a namespace is its own local name |
| FinaXml.Preorder | fina.py:405-406 | `iter()` yields the element first, then its descendants |
| FinaXml.FirstWhere | fina.py:406-408 | the search returns the first matching node, and none exactly when no node matches |
| FinaXml.FindBody | fina.py:404 | a found Body is a SOAP Body element |
| FinaXml.ExtractJir | fina.py:402-409 | the search loop returns the text of the first element under the Body whose tag ends in `Jir`, or None |
| FinaXml.NoJirElementMeansNone | fina.py:402-409 | a Body without an element ending in `Jir` yields no JIR |
| FinaXml.Put | fina.py:367 | `result[tag] = v` binds the key to the value and leaves every other key as it was |
| FinaXml.LastNamedFindsLast | fina.py:365-367 | the index found is that of the last child with the given local name, and none is found exactly when no child has it |
| FinaXml.ChildEntriesLastWins | fina.py:360-368 | among children with the same local name, the last one's value is kept |
| FinaXml.XmlToDict | fina.py:356-376 | a parsed document becomes a one-entry dictionary keyed by the root's local name; a parse failure gives None |
| FinaXml.ResponseValueSignatureFree | fina.py:387-395 | the response conversion drops `*Signature` elements at every depth |
| FinaXml.ResponseEntriesSignatureFree | fina.py:392-395 | no key among a response element's children names a signature |
| FinaXml.SoapResponseToDict | fina.py:379-399 | fails exactly when the Body is missing or empty; otherwise gives the first Body child under its local name, with no signature anywhere |
| Fina.MatchCountZeroIff | fina.py:96-98 | no row matches a `stripe_id` exactly when the UPDATE's row count is zero |
| Fina.Reconciled | fina.py:88-95 | the reconciling UPDATE keeps the number of rows |
| Fina.ReconciledFrame | fina.py:88-95 | every row with the `stripe_id` gets the outcome, and no other row changes |
| Fina.ReconciledNoMatch | fina.py:96-98 | an UPDATE that matches no row changes nothing |
| Fina.ReconcileOverwritesCompleted | fina.py:88-95 | a `completed` row is overwritten to `failed`, because the UPDATE has no status guard |
| Fina.ReconciledKeepsCompletedCarryJir | fina.py:88-95 | recording a completion only together with a truthy JIR keeps every completed row carrying a JIR |
| Fina.Reaped | fina.py:117-126 | the cleanup UPDATE keeps the number of rows |
| Fina.CountStatus | fina.py:117-126 | a status count is at most the number of rows |
| Fina.ReapedMovesStaleCount | fina.py:117-129 | cleanup moves exactly the stale rows from `processing` to `failed` |
| Fina.ReapedFrame | fina.py:117-126 | exactly the `processing` rows created before the cutoff become `failed`, and every other row is unchanged |
| Fina.ReapedIdempotent | fina.py:104-136 | cleanup leaves no stale row, so running it again changes nothing |
| Fina.ReapedKeepsInvariants | fina.py:117-126 | cleanup keeps the table well formed, and keeps every completed row carrying a JIR |
| Fina.ReservationIsFresh | fina.py:63-73 | the next sequence number is held by no row, and appending the reservation keeps the table well formed |
| Fina.Ledger.Reserve | fina.py:52-79 | appends exactly one `processing` row with a fresh number, advances both sequences, and leaves the other rows unchanged |
| Fina.Ledger.Update | fina.py:82-101 | with no matching row, fails and changes nothing; otherwise reconciles exactly the rows with the `stripe_id` |
| Fina.Ledger.Cleanup | fina.py:104-136 | reaps the stale rows, returns how many there were, and keeps completed rows carrying a JIR |
| Fina.FiscalizeReturnedSentReceipt | fina.py:412-497 | a returned outcome carries the protection code of this receipt's ZKI message, and the JIR found in the answer to this signed, enveloped receipt |
| Fina.RenderCarriesZkiInputs | fina.py:424-458 | the signed document carries the ZKI, number, payment time, total, OIB, location and register |
| Fina.FiscalizeFirstFailureDecides | fina.py:424-475 | the first failing step decides the error, and nothing is posted unless the certificate, ZKI and signature all succeeded |
| Fina.FiscalizeWithoutJirElement | fina.py:402-409 | an answer with no JIR element still returns, with no JIR |
| Fina.RecordFor | fina.py:186-204 | `completed` with the JIR exactly for a returned truthy JIR; otherwise `failed` with no JIR; the ZKI is kept exactly when `fiscalize` returned |
| Fina.ProcessSettlesReservation | fina.py:139-215 | the reserved row never stays `processing`, ends `completed` exactly for a truthy JIR, and other payments' rows are untouched |
| Fina.ProcessFiscalization | fina.py:139-215 | reserve, fiscalise, reconcile: the receipt-number and id sequences each advance by one, and the new table is `AfterProcess`; it returns the result exactly when `fiscalize` returned, and re-raises otherwise |
| FinaCli.FirstRow | fina_cli.py:41-50 | `fetchone` gives the first row satisfying the WHERE clause, or none when no row does |
| FinaCli.RetriedSettles | fina_cli.py:78-99 | a retried row keeps its id and number, and is `completed` with the JIR exactly when the JIR is truthy, otherwise `failed` |
| FinaCli.RetryContract | fina_cli.py:35-109 | answers "not found" exactly when no row has the number; refuses a completed receipt and survives a raised `fiscalize` without change; otherwise updates only the found row, under its own number, and reserves no number |
| FinaCli.RetryFiscalisesAgain | fina_cli.py:58-109 | a processing or failed receipt is fiscalised again with its own payment time, amount and number: the retry succeeds exactly when `fiscalize` returns, reports that call's ZKI and JIR with the row's amount and currency and writes them to that row, and passes a raised failure on with the table unchanged |
| FinaCli.RetryRefusesCompleted | fina_cli.py:55-56 | a completed receipt is refused and the table is unchanged |
| FinaCli.RetryReceipt | fina_cli.py:35-111 | the method's result and new table are those of `Retry`, and the sequences do not move |
| FinaCli.PyPrefix | fina_cli.py:137 | `s[:n]` is a prefix of `s` of length `min(n, len(s))` |
| FinaCli.ManualPaymentId | fina_cli.py:134-137 | a truthy `stripe_id` is kept; otherwise the id is `manual_` followed by the first 16 hex digits |
| FinaCli.ManualPaymentIdShape | fina_cli.py:137 | a generated id starts with `manual_` and is 23 characters long |
| FinaCli.CreateReceipt | fina_cli.py:112-201 | runs the webhook flow with currency `eur` and the defaulted id, taking the next receipt number and row id, and reports success exactly when the JIR is truthy |
| FinaCli.ReplaceSpecial | fina_cli.py:215 | every character outside `[\w\-.]` becomes a hyphen, position by position |
| FinaCli.CollapseHyphens | fina_cli.py:217 | hyphen runs become one hyphen; the ends and the alphabet are kept |
| FinaCli.CollapseHyphensUntouched | fina_cli.py:217 | a string with no hyphen run is its own collapse |
| FinaCli.SanitizeFilenameChars | fina_cli.py:215-219 | a sanitized name holds only word characters, `-` and `.` |
| FinaCli.SanitizeFilenameNoDoubleHyphen | fina_cli.py:217 | a sanitized name never contains `--` |
| FinaCli.SanitizeFilenameShape | fina_cli.py:202-220 | allowed characters only, no `--`, and no hyphen at either end |
| FinaCli.SanitizeFilenameIdempotent | fina_cli.py:202-220 | sanitizing twice is sanitizing once |
| FinaCli.VerificationUrlFields | fina_cli.py:240-243 | the URL splits on `&` into `jir=`, `datv=` with a 13-character minute stamp, and `izn=` with the cents |
| FinaCli.MinuteStampHasNo | fina_cli.py:240 | a minute stamp contains no `&` |
| FinaCli.DisplayNumberFields | fina_cli.py:360-361 | the printed number splits on `/` into year, location, register and number |
| FinaCli.PdfRunContract | fina_cli.py:306-468 | a PDF run succeeds exactly when the row exists, is completed with a JIR and a folder, and renders; a missing row raises with no change; otherwise exactly the found row becomes its `PdfOutcome` (unchanged when a guard refuses it, else `completed` with the creation time, or `failed`); the table stays well formed |
| FinaCli.PdfRunIgnoresUpload | fina_cli.py:428-444 | the S3 upload's result is ignored: a run whose upload failed still marks the row `completed` and reports success |
| FinaCli.GeneratePdf | fina_cli.py:280-477 | the method passes through `processing` and ends with the result and table of `PdfRun`, whatever the upload's outcome; the sequences do not move |
| FinaCli.PendingIds | fina_cli.py:494-499 | there are at most as many pending ids as rows |
| FinaCli.PendingSelection | fina_cli.py:494-499 | the batch is the first `limit` pending ids, or all of them when there are fewer |
| FinaCli.PendingIdsSelectPending | fina_cli.py:495-498 | every selected id belongs to a completed row whose PDF is pending |
| FinaCli.PendingIdsHasRow | fina_cli.py:495-497 | every completed row whose PDF is pending has its id among the pending ids |
| FinaCli.PendingIdsExactly | fina_cli.py:495-497 | the pending ids are exactly the ids of completed rows whose PDF is pending |
| FinaCli.PendingIdsIncrease | fina_cli.py:498 | with ids increasing down the table, the pending ids come in strictly increasing order |
| FinaCli.SelectionFresh | fina_cli.py:494-499 | no id is selected twice in one batch |
| FinaCli.SucceedingCount | fina_cli.py:514-520 | a batch completes at most as many receipts as it selected |
| FinaCli.SameExceptPdfFindsSameRow | fina_cli.py:296-306 | PDF runs do not change which row an id finds |
| FinaCli.PdfSucceedsIgnoresPdfColumns | fina_cli.py:308-318 | the guards read only columns a PDF run never writes |
| FinaCli.RowWithIdFindsRow | fina_cli.py:293-306 | with ids increasing, the row `WHERE id = ?` selects for a row's id is that row |
| FinaCli.PdfOutcomeDecided | fina_cli.py:308-468 | a run leaves its row `completed` with the creation time exactly when the run succeeds, `failed` when the row passes the guards and does not render, and untouched when a guard refuses it; only PDF columns change |
| FinaCli.BatchDoneSameExceptPdf | fina_cli.py:514-520 | a batch in progress has changed only PDF columns |
| FinaCli.BatchDoneStep | fina_cli.py:514-520 | running one more id, not run before, adds exactly that id's outcome to the batch state |
| FinaCli.TryGeneratePdf | fina_cli.py:514-520 | one iteration adds its id's outcome to the batch state and reports whether the run returned, as it would have on the table before the batch |
| FinaCli.GeneratePendingPdfs | fina_cli.py:478-531 | every selected row ends with its own run's outcome (`BatchDone`) and every other row is unchanged; `processed` counts the runs that succeed, `processed + failed == total`, with `total` the size of the selection and at most `limit`; an empty batch gives zeros; the sequences do not move |
| App.ValidationAcceptsExactly | app.py:14-52 | an intent is accepted exactly when all six field checks pass |
| App.ValidationFirstFailureDecides | app.py:24-52 | the first failing check, in source order, decides the error |
| App.AcceptedIntentShape | app.py:25-47 | an accepted intent has a string id of 1 to 200 characters, an amount in 1..999999900, a 3-letter currency, a positive `created`, and a status |
| App.InvoiceIdFallback | app.py:117-118 | `invoice_id` is the first truthy value of `metadata.invoice_id`, `metadata.order_id` and `description`, else the last of them |
| App.InvoiceIdAgrees | app.py:117-118 | the lookup as written crashes exactly when metadata is present but not an object; otherwise it agrees with the corrected one; among validated intents, only `null` metadata crashes |
| App.NullMetadataCrashesAsWritten | app.py:117-118 | a validated intent with `"metadata": null` crashes the lookup as written |
| App.AsOrderId | app.py:118 | a string becomes the order id, and anything else becomes none |
| App.ExistingReply | app.py:129-172 | an existing row answers 200 with its ZKI/JIR when `completed`, 202 when `processing`, 422 otherwise, always with its receipt number |
| App.IsEurSpellings | app.py:207 | `currency.upper() == "EUR"` accepts exactly the eight case spellings of `eur` |
| App.Gate | app.py:85-215 | the handler only goes on to fiscalise a verified, succeeded, valid EUR event whose timestamp and metadata were read without a crash and whose webhook copies were saved |
| App.CrashesAnswerServerError | app.py:108-118 | a validated intent with `"metadata": null`, or created at 10^12 seconds, is answered 500 before the table is read, so nothing is reserved |
| App.GateAnswersExistingRow | app.py:121-172 | for a valid event read without a crash and a working lookup, an existing row answers with its reply, before the S3 copies and the currency check |
| App.LookupFailureIgnoresRows | app.py:173-175 | a failing lookup behaves as if no row existed |
| App.GateCurrency | app.py:196-215 | a valid new payment goes on to fiscalise exactly when its webhook copies are saved and its currency is EUR; an escaping S3 error answers 500, any other currency 422 |
| App.PaymentOf | app.py:109-118 | the payment handed over carries the intent's id, amount in cents, currency, local time, and the order id, which is the one the code computes whenever its lookup does not crash |
| App.HandleWebhook | app.py:73-238 | when the gate answers, the table and the sequences are unchanged; otherwise it takes the next receipt number and row id, runs `process_fina_fiscalization`, answers 200 with its result or 500 when it raises, and keeps completed rows carrying a JIR |
| App.RedeliveryIsIdempotent | app.py:121-172 | after a payment is processed, a redelivery whose lookup works answers from the row it left (200 for a truthy JIR, 422 otherwise), whatever the S3 copies do |
| S3Storage.Utf8Width | s3_storage.py:41 | a character takes 1 to 4 UTF-8 bytes, and exactly 1 when it is ASCII |
| S3Storage.Utf8LenBounds | s3_storage.py:41-42 | the UTF-8 length is at least the character count, and equal to it exactly for ASCII |
| S3Storage.CheckKeyAcceptsSafe | s3_storage.py:32-48 | the ordered checks accept exactly the non-empty keys of at most 1000 key characters, free of `..`, with no `/` at either end, and return them unchanged |
| S3Storage.ValidateS3KeyAcceptsExactly | s3_storage.py:12-48 | a key is accepted exactly when it is a string whose stripped form is safe, and the stripped form is returned |
| S3Storage.ValidateS3KeyIdempotent | s3_storage.py:25-48 | a returned key validates again to itself |
| S3Storage.WhitespaceKeyRejected | s3_storage.py:25-46 | an all-whitespace key is refused: as empty when it is empty, for its alphabet otherwise |
| S3Storage.UploadContract | s3_storage.py:62-123 | an upload reports success exactly for a valid key and a succeeding store; the object then sits under the stripped key and every other key keeps its presence and its object; on failure the bucket is unchanged |
| S3Storage.InvalidKeyNeverUploads | s3_storage.py:77-111 | with an invalid key, both wrappers answer False and store nothing |
| Migrate.Version | migrate.py:88 | the version is the name without a trailing `.sql`, and the name itself otherwise |
| Migrate.VersionRoundTrip | migrate.py:88 | stripping `.sql` undoes appending it, and two `.sql` files with the same version are the same file |
| Migrate.LexLtStrictTotalOrder | migrate.py:60 | Python's `<` on strings is a strict total order |
| Migrate.LexLeTransitive | migrate.py:60 | `<=` on strings is transitive |
| Migrate.InsertSorted | migrate.py:60 | inserting into a sorted list keeps it sorted |
| Migrate.InsertPermutes | migrate.py:60 | insertion adds exactly the one element |
| Migrate.SortStringsSortsAndPermutes | migrate.py:60 | `sorted` returns an ordered permutation of its input |
| Migrate.Lookup | migrate.py:65-73 | reading `migrations/<name>` fails exactly when no such file exists |
| Migrate.Globbed | migrate.py:59 | the glob matches exactly the `.sql` files of the directory |
| Migrate.MigrationFilesContract | migrate.py:57-60 | the migration files are sorted and are exactly the matching files of the directory |
| Migrate.PendingContract | migrate.py:109-113 | the pending files are an order-preserving subsequence of the files, holding exactly those whose version is not applied, and sorted when the files are |
| Migrate.PendingMigrations | migrate.py:109-113 | the collecting loop computes exactly `Pending` |
| Migrate.PieceShape | migrate.py:82 | a kept piece is non-blank, has no whitespace at either end, and holds only characters of its part |
| Migrate.StrippedPiecesAppend | migrate.py:82 | the comprehension distributes over concatenation |
| Migrate.StatementsShape | migrate.py:82 | every statement is non-blank, holds no `;`, and is its own strip |
| Migrate.StatementsConcat | migrate.py:82 | the statements of two texts joined by `;` are those of the first, then those of the second |
| Migrate.MigrateRecordsOnlyAfterCommit | migrate.py:63-95 | a version is recorded only for an existing file, after every statement was accepted and committed |
| Migrate.MigrateFailureRecordsNothing | migrate.py:67-95 | a failure records no version; the committed schema is unchanged, except when every statement was committed and the INSERT of an already-recorded version then failed, which leaves it extended by exactly the file's statements |
| Migrate.MigrateSilentSuccessIsBlank | migrate.py:75-77 | a success that records nothing was a blank file |
| Migrate.BlankMigrationStaysPending | migrate.py:75-77 | a blank migration succeeds but stays pending |
| Migrate.ApplyAllAppend | migrate.py:121-124 | running two lists in turn runs the second only when the first succeeded |
| Migrate.ApplyAllStopsAtFailure | migrate.py:121-124 | once a file fails, the later files are never attempted |
| Migrate.ApplyAllSuccessRecords | migrate.py:121-127 | a successful run keeps every recorded version and records each applied file that was not blank |
| Migrate.SuccessfulRunLeavesOnlyBlank | migrate.py:98-127 | after a successful run, only blank migrations are still pending |
| Migrate.CreatedMigrationIsPending | migrate.py:140-159 | a created file is a migration file whose version is `<stamp>_<name>`, and it is pending |
| Migrate.ExecuteStatements | migrate.py:82-85 | the loop succeeds exactly when every statement is accepted after the ones before it |
| Migrate.Workspace.RunMigration | migrate.py:63-95 | the new state and the result are those of `Migrate` |
| Migrate.Workspace.RunMigrations | migrate.py:98-127 | the new state and the result are those of `RunAll` |
| Migrate.Workspace.CreateMigration | migrate.py:130-165 | refuses an empty name or an existing file; otherwise adds exactly the file `<stamp>_<name>.sql` with the template |

## Left out

- **Network and signing:** the Stripe HMAC verification, the mutual-TLS POST
  and its CA bundle, PKCS#12 loading, RSA-SHA1/MD5 and XML-DSig. They are
  foreign libraries, modelled as the boolean `signatureValid` and the
  functions of `Fina.Gateway`.
- **Floating-point amounts:** `amount / 100` (app.py:113), `int(amount * 100)`
  (fina_cli.py:241) and `float(amount):.2f`. Amounts are integer cents, and
  the formats are stated over cents. Rounding of the floats is not modelled.
- **Time-zone conversion** with `ZoneInfo`, and `datetime.now()`. Local
  timestamps and `now` are inputs: `localTime` in `App.Environment` gives the
  local time of a `created` value, or `None` where `astimezone` overflows.
  The range of `datetime.fromtimestamp` itself is modelled
  (`App.LastUtcSecond`).
- **Audit copies.** `fiscalize` saves four copies inside a `try` that
  swallows every failure (fina.py:477-495), so the bucket is not threaded
  through the fiscalisation model. The handler saves two copies outside any
  `try` (app.py:196-199). Its wrappers return `False` only for `ClientError`,
  `NoCredentialsError` and `ValueError` (s3_storage.py:89 and 121), which the
  handler ignores. Any other error escapes and answers 500. That case is
  `auditSaveRaises` in `App.Environment`, decided after the idempotency
  lookup and before the currency check. What the copies hold is not
  modelled. The key check and the upload wrappers themselves are modelled
  in `S3Storage`.
- **Folder paths.** The folder path with hostname and process id
  (app.py:189-193, fina_cli.py:66-72 and 140-145) is the parameter `folder`.
- **PDF, QR, Jinja2 and Markdown rendering**, templates, fonts and temporary
  files (fina_cli.py:320-431). Whether rendering and the upload call
  complete without raising is the boolean `renders`. The result the upload
  returns is the boolean `uploaded`. The code ignores that result
  (fina_cli.py:431), so a refused upload still ends `completed`
  (`FinaCli.PdfRunIgnoresUpload`). The guards and the `pdf_status`
  transitions are modelled.
- **Row order.** `fetchone` without `ORDER BY` may return any matching row;
  the model returns the first in table order.
- **Concurrency:** the atomicity of the Postgres sequences, and the race
  between the idempotency check and the reservation. The model is
  single-threaded.
- **Plumbing:** the health check, argparse and `main`, logging, environment
  variables, and psycopg2 connection handling.
- **Migration set-up and status:** `ensure_migrations_table`, the `status`
  command, and a failure of the separate connection in
  `mark_migration_applied`. The tracking table is assumed present, and the
  separate connection is assumed to open. The INSERT that the `UNIQUE`
  constraint refuses for an already-recorded version is modelled: the
  statements stay committed and the run fails.
- **`create_migration` paths.** `os.makedirs` and names containing `/`: the
  directory is a flat list of files.
- **YAML:** the dump of `xml_to_yaml` and `soap_response_to_yaml`. The model
  stops at the dictionary the dump would receive.
- App.CurrencyOk: models `isalpha` on ASCII letters only, where Python also
  accepts non-ASCII letters, because the model has no Unicode character
  database.
- FinaCli.SanitizeFilenameShape: treats `\w` as ASCII letters, digits and
  `_`, where Python's `re` also matches non-ASCII word characters, for the
  same reason.
- FinaCli.ReplaceSpecial: treats `\w` as ASCII letters, digits and `_`.
  Python's `re` also keeps non-ASCII word characters such as `č`, which this
  member turns into `-`. The model has no Unicode character database.
- App.AsOrderId: a non-string `invoice_id` (a number in the metadata, say)
  becomes no order id, where the code would pass the value on unchanged.
- S3Storage.UploadContract: the upload is a boolean outcome, covering the
  errors the wrappers catch. Errors they let escape (a connection error, or
  `S3_BUCKET_NAME` missing) are not part of this member; the handler's
  case is `auditSaveRaises`. The boto3 client, its credentials and the
  bucket name are not modelled.

## Findings

| source | as written | input that shows it | evidently intended | confidence | as-written member | corrected member |
|---|---|---|---|---|---|---|
| app.py:50-52, 117-118 | validation lets `metadata` be `None`, but the handler then calls `metadata.get(...)`. `payment_intent.get("metadata", {})` returns `None` when the key is present with a null value, so the call raises `AttributeError` and the webhook answers 500 after validation succeeded | a valid `payment_intent.succeeded` event whose intent has `"metadata": null` | treat null metadata as an empty dictionary and fall back to `description` | not executed | App.InvoiceIdAsWritten, App.CrashesAnswerServerError | App.InvoiceId |

