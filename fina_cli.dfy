/** The operator commands of fina_cli.py over the receipt ledger: retrying
    a receipt that did not complete, creating a receipt by hand, the
    filename, verification-URL and display-number formats of the printed
    receipt, and the `pdf_status` bookkeeping of single and batch PDF
    generation. Rendering the PDF (template, QR code, Markdown, fonts)
    and uploading it are foreign; whether rendering succeeds is a
    parameter. */
module FinaCli {
  import opened Wrappers
  import opened Strings
  import opened Timestamps
  import opened FinaDocuments
  import opened Fina

  // ------------------------------------------------------------ row lookup

  /** The index of the first row satisfying `p`, as `fetchone` returns it. */
  function FirstRow(rows: seq<Receipt>, p: Receipt -> bool): (r: Option<nat>)
    ensures r.Some? ==> r.value < |rows| && p(rows[r.value]) && forall k :: 0 <= k < r.value ==> !p(rows[k])
    ensures r.None? ==> forall k :: 0 <= k < |rows| ==> !p(rows[k])
  {
    if rows == [] then None
    else if p(rows[0]) then Some(0)
    else match FirstRow(rows[1..], p)
      case None => None
      case Some(k) => Some(k + 1)
  }

  /** The row `WHERE receipt_number = ?` selects. */
  function RowWithNumber(rows: seq<Receipt>, receiptNumber: nat): Option<nat> {
    FirstRow(rows, (x: Receipt) => x.receiptNumber == receiptNumber)
  }

  /** The row `WHERE id = ?` selects. */
  function RowWithId(rows: seq<Receipt>, id: nat): Option<nat> {
    FirstRow(rows, (x: Receipt) => x.id == id)
  }

  // ----------------------------------------------------------------- retry

  datatype RetryError = ReceiptNotFound(number: nat) | AlreadyCompleted(number: nat) | RetryRaised(failure: Failure)

  datatype RetryResult = RetryResult(
    receiptNumber: nat, status: Status, zki: string, jir: Option<string>, amountCents: nat, currency: string)

  /** The row after a retry that returned: with a truthy JIR it is
      completed with ZKI and JIR; otherwise it is failed with the new ZKI
      and its old JIR column is left as it was. */
  function Retried(r: Receipt, zki: string, jir: Option<string>, now: int): Receipt {
    if Truthy(jir) then r.(zki := Some(zki), jir := jir, status := Completed, updated := now)
    else r.(zki := Some(zki), status := Failed, updated := now)
  }

  /** A retried row keeps its id, number and payment; it is completed
      exactly when the JIR is truthy, and only a completed retry writes
      the JIR column. */
  lemma RetriedSettles(r: Receipt, zki: string, jir: Option<string>, now: int)
    ensures var after := Retried(r, zki, jir, now);
      && after.id == r.id && after.receiptNumber == r.receiptNumber && after.amountCents == r.amountCents
      && after.zki == Some(zki)
      && (after.status == Completed <==> Truthy(jir))
      && (after.status != Completed ==> after.status == Failed && after.jir == r.jir)
      && (after.status == Completed ==> after.jir == jir && Truthy(after.jir))
  {
  }

  /** The outcome of `retry_receipt` and the table after it. */
  function Retry(rows: seq<Receipt>, g: Gateway, cfg: Config, ids: RequestIds, receiptNumber: nat, now: int)
    : (Result<RetryResult, RetryError>, seq<Receipt>)
  {
    match RowWithNumber(rows, receiptNumber)
    case None => (Err(ReceiptNotFound(receiptNumber)), rows)
    case Some(i) =>
      var row := rows[i];
      if row.status == Completed then (Err(AlreadyCompleted(receiptNumber)), rows)
      else match Fiscalize(g, cfg, ids, row.paymentTime, row.amountCents, receiptNumber)
        case Raised(f) => (Err(RetryRaised(f)), rows)
        case Returned(zki, jir) =>
          var after := Retried(row, zki, jir, now);
          (Ok(RetryResult(receiptNumber, after.status, zki, jir, row.amountCents, row.currency)), rows[i := after])
  }

  /** A retry refuses a missing or completed receipt and survives a
      raised `fiscalize` without touching the table. Otherwise it changes
      one row, the first with that number and one that was processing or
      failed, under the same number: no row is added, the number is the
      one asked for, and the status reported is the row's new status. */
  lemma RetryContract(rows: seq<Receipt>, nextNumber: nat, nextId: nat, g: Gateway, cfg: Config, ids: RequestIds,
                      receiptNumber: nat, now: int)
    requires WellFormed(rows, nextNumber, nextId)
    ensures var (r, after) := Retry(rows, g, cfg, ids, receiptNumber, now);
      && WellFormed(after, nextNumber, nextId)
      && (CompletedCarryJir(rows) ==> CompletedCarryJir(after))
      && ((forall i :: 0 <= i < |rows| ==> rows[i].receiptNumber != receiptNumber) <==> r == Err(ReceiptNotFound(receiptNumber)))
      && (r.Err? ==> after == rows)
      && (r.Ok? ==> exists i :: 0 <= i < |rows| && rows[i].receiptNumber == receiptNumber
                       && rows[i].status != Completed
                       && after == rows[i := Retried(rows[i], r.value.zki, r.value.jir, now)]
                       && r.value.receiptNumber == receiptNumber && r.value.status == after[i].status)
  {
    var found := RowWithNumber(rows, receiptNumber);
    if found.Some? {
      var i := found.value;
      var o := Fiscalize(g, cfg, ids, rows[i].paymentTime, rows[i].amountCents, receiptNumber);
      if rows[i].status != Completed && o.Returned? {
        RetriedSettles(rows[i], o.zki, o.jir, now);
      }
    }
  }

  /** A retry of a completed receipt is refused. */
  lemma RetryRefusesCompleted(rows: seq<Receipt>, g: Gateway, cfg: Config, ids: RequestIds,
                              receiptNumber: nat, now: int, i: nat)
    requires i < |rows| && rows[i].receiptNumber == receiptNumber && rows[i].status == Completed
    requires forall k :: 0 <= k < i ==> rows[k].receiptNumber != receiptNumber
    ensures Retry(rows, g, cfg, ids, receiptNumber, now) == (Err(AlreadyCompleted(receiptNumber)), rows)
  {
  }

  /** A retry of a processing or failed receipt fiscalises it again under
      its own number, with the row's payment time and amount: it succeeds
      exactly when `fiscalize` returns, reporting that call's ZKI and JIR
      with the row's amount and currency and writing them to that row, and
      it passes a raised failure on with the table as it was. */
  lemma RetryFiscalisesAgain(rows: seq<Receipt>, g: Gateway, cfg: Config, ids: RequestIds,
                             receiptNumber: nat, now: int, i: nat)
    requires i < |rows| && rows[i].receiptNumber == receiptNumber && rows[i].status != Completed
    requires forall k :: 0 <= k < i ==> rows[k].receiptNumber != receiptNumber
    ensures var o := Fiscalize(g, cfg, ids, rows[i].paymentTime, rows[i].amountCents, receiptNumber);
            var (r, after) := Retry(rows, g, cfg, ids, receiptNumber, now);
      && (r.Ok? <==> o.Returned?)
      && (o.Returned? ==>
            && r.value == RetryResult(receiptNumber, Retried(rows[i], o.zki, o.jir, now).status, o.zki, o.jir,
                                      rows[i].amountCents, rows[i].currency)
            && after == rows[i := Retried(rows[i], o.zki, o.jir, now)])
      && (o.Raised? ==> r == Err(RetryRaised(o.failure)) && after == rows)
  {
    assert RowWithNumber(rows, receiptNumber) == Some(i);
  }

  /** `retry_receipt`: looks the row up by receipt number, refuses a
      missing or completed one, fiscalises again under the same number
      (no reservation) and updates that row by id. An exception from
      `fiscalize` propagates and leaves the table as it was. */
  method RetryReceipt(ledger: Ledger, g: Gateway, cfg: Config, ids: RequestIds, receiptNumber: nat, now: int)
    returns (r: Result<RetryResult, RetryError>)
    requires ledger.Valid()
    modifies ledger
    ensures ledger.Valid()
    ensures ledger.nextNumber == old(ledger.nextNumber) && ledger.nextId == old(ledger.nextId)
    ensures (r, ledger.rows) == Retry(old(ledger.rows), g, cfg, ids, receiptNumber, now)
  {
    RetryContract(ledger.rows, ledger.nextNumber, ledger.nextId, g, cfg, ids, receiptNumber, now);
    var found := RowWithNumber(ledger.rows, receiptNumber);
    if found.None? {
      return Err(ReceiptNotFound(receiptNumber));
    }
    var i := found.value;
    var row := ledger.rows[i];
    if row.status == Completed {
      return Err(AlreadyCompleted(receiptNumber));
    }
    var o := Fiscalize(g, cfg, ids, row.paymentTime, row.amountCents, receiptNumber);
    match o {
      case Raised(f) =>
        return Err(RetryRaised(f));
      case Returned(zki, jir) =>
        var after := Retried(row, zki, jir, now);
        ledger.rows := ledger.rows[i := after];
        return Ok(RetryResult(receiptNumber, after.status, zki, jir, row.amountCents, row.currency));
    }
  }

  // ---------------------------------------------------------------- create

  /** Python's `s[:n]`. */
  function PyPrefix(s: string, n: nat): (r: string)
    ensures r <= s && |r| == if |s| < n then |s| else n
  {
    if |s| < n then s else s[..n]
  }

  /** The payment id of a manual receipt: the given one when it is
      truthy, otherwise `manual_` and the first 16 hex digits of a fresh
      UUID. */
  function ManualPaymentId(stripeId: Option<string>, uuidHex: string): (r: string)
    ensures Truthy(stripeId) ==> r == stripeId.value
    ensures !Truthy(stripeId) ==> r == "manual_" + PyPrefix(uuidHex, 16)
  {
    if Truthy(stripeId) then stripeId.value else "manual_" + PyPrefix(uuidHex, 16)
  }

  /** A generated id starts with `manual_` and, for a 32-digit UUID, is 23
      characters long. */
  lemma ManualPaymentIdShape(uuidHex: string)
    requires |uuidHex| == 32
    ensures var r := ManualPaymentId(None, uuidHex);
      |r| == 23 && StartsWith(r, "manual_") && r[7..] == uuidHex[..16]
  {
  }

  datatype CreateResult =
    | Created(receiptNumber: nat, status: Status, zki: Option<string>, jir: Option<string>, amountCents: nat,
              currency: string, stripeId: string, orderId: Option<string>)
    | NotFiscalized(receiptNumber: nat, status: Status, zki: Option<string>, stripeId: string)

  /** `create_receipt`: a manual payment in `eur` run through the same
      reserve -> fiscalize -> reconcile flow; the reported row is the
      first one holding the payment id. Errors from the flow are
      re-raised. */
  method CreateReceipt(ledger: Ledger, g: Gateway, cfg: Config, ids: RequestIds, amountCents: nat,
                       paymentTime: DateTime, orderId: Option<string>, stripeId: Option<string>,
                       uuidHex: string, folder: string, now: int)
    returns (r: Result<CreateResult, ProcessError>)
    requires ledger.Valid()
    modifies ledger
    ensures ledger.Valid()
    ensures ledger.nextNumber == old(ledger.nextNumber) + 1 && ledger.nextId == old(ledger.nextId) + 1
    ensures var sid := ManualPaymentId(stripeId, uuidHex);
      var p := Payment(sid, orderId, amountCents, "eur", paymentTime, folder);
      var o := Fiscalize(g, cfg, ids, paymentTime, amountCents, old(ledger.nextNumber));
      && ledger.rows == AfterProcess(old(ledger.rows), old(ledger.nextNumber), old(ledger.nextId),
                                     paymentTime.year, cfg.locationId, cfg.registerId, p, o, now)
      && (r.Err? <==> o.Raised?)
      && (r.Ok? ==> (r.value.Created? <==> Truthy(o.jir)) && r.value.stripeId == sid)
      && (r.Ok? && r.value.Created? ==> r.value.currency == "eur" && r.value.amountCents == amountCents)
      && (r.Ok? && (forall i :: 0 <= i < |old(ledger.rows)| ==> old(ledger.rows)[i].stripeId != sid) ==>
            r.value.receiptNumber == old(ledger.nextNumber))
  {
    var sid := ManualPaymentId(stripeId, uuidHex);
    var p := Payment(sid, orderId, amountCents, "eur", paymentTime, folder);
    ghost var before := ledger.rows;
    ghost var number := ledger.nextNumber;
    ghost var id := ledger.nextId;
    var result := ProcessFiscalization(ledger, g, cfg, ids, p, now);
    if result.Err? {
      return Err(result.error);
    }
    ProcessSettlesReservation(before, number, id, paymentTime.year, cfg.locationId, cfg.registerId, p,
                              Fiscalize(g, cfg, ids, paymentTime, amountCents, number), now);
    var found := FirstRow(ledger.rows, (x: Receipt) => x.stripeId == sid);
    if found.None? {
      assert false;
    }
    var row := ledger.rows[found.value];
    if found.value < |before| {
      assert before[found.value].stripeId == sid;
    }
    if Truthy(result.value.jir) {
      r := Ok(Created(row.receiptNumber, row.status, row.zki, row.jir, amountCents, "eur", sid, orderId));
    } else {
      r := Ok(NotFiscalized(row.receiptNumber, row.status, row.zki, sid));
    }
  }

  // -------------------------------------------------------------- sanitize

  /** A character of Python's `\w` class, restricted to ASCII. */
  predicate IsWordChar(c: char) { IsAsciiAlnum(c) || c == '_' }

  /** What survives `re.sub(r"[^\w\-.]", "-", text)` unchanged. */
  predicate IsFilenameChar(c: char) { IsWordChar(c) || c == '-' || c == '.' }

  predicate IsHyphen(c: char) { c == '-' }

  /** Every character outside the class becomes a hyphen. */
  function ReplaceSpecial(s: string): (r: string)
    ensures |r| == |s|
    ensures forall i :: 0 <= i < |s| ==> r[i] == if IsFilenameChar(s[i]) then s[i] else '-'
  {
    seq(|s|, i requires 0 <= i < |s| => if IsFilenameChar(s[i]) then s[i] else '-')
  }

  /** No two hyphens in a row. */
  predicate NoDoubleHyphen(s: string) {
    forall i :: 0 <= i < |s| - 1 ==> !(s[i] == '-' && s[i + 1] == '-')
  }

  /** `re.sub(r"-+", "-", s)`: every run of hyphens becomes one. */
  function CollapseHyphens(s: string): (r: string)
    ensures |r| <= |s|
    ensures |s| > 0 ==> |r| > 0 && r[0] == s[0]
    ensures |s| > 0 ==> r[|r| - 1] == s[|s| - 1]
    ensures NoDoubleHyphen(r)
    ensures forall c :: c in r ==> c in s
    decreases |s|
  {
    if |s| <= 1 then s
    else if s[0] == '-' && s[1] == '-' then CollapseHyphens(s[1..])
    else
      var rest := CollapseHyphens(s[1..]);
      assert forall c :: c in rest ==> c in s[1..];
      [s[0]] + rest
  }

  /** A string with no hyphen run is its own collapse. */
  lemma {:induction false} CollapseHyphensUntouched(s: string)
    requires NoDoubleHyphen(s)
    ensures CollapseHyphens(s) == s
    decreases |s|
  {
    if |s| > 1 {
      assert NoDoubleHyphen(s[1..]) by {
        forall i | 0 <= i < |s[1..]| - 1 ensures !(s[1..][i] == '-' && s[1..][i + 1] == '-') {
          assert s[1..][i] == s[i + 1] && s[1..][i + 1] == s[i + 2];
        }
      }
      CollapseHyphensUntouched(s[1..]);
    }
  }

  /** `sanitize_filename`. */
  function SanitizeFilename(text: string): string {
    Trim(CollapseHyphens(ReplaceSpecial(text)), IsHyphen)
  }

  /** A string of allowed characters keeps them in any slice. */
  lemma FilenameCharsSlice(s: string, lo: nat, hi: nat)
    requires forall i :: 0 <= i < |s| ==> IsFilenameChar(s[i])
    requires lo <= hi <= |s|
    ensures forall i :: 0 <= i < hi - lo ==> IsFilenameChar(s[lo..hi][i])
  {
    forall i | 0 <= i < hi - lo ensures IsFilenameChar(s[lo..hi][i]) {
      assert s[lo..hi][i] == s[lo + i];
    }
  }

  /** Every character of a sanitized name is allowed. */
  lemma SanitizeFilenameChars(text: string)
    ensures var r := SanitizeFilename(text);
      forall i :: 0 <= i < |r| ==> IsFilenameChar(r[i])
  {
    var replaced := ReplaceSpecial(text);
    var collapsed := CollapseHyphens(replaced);
    forall i | 0 <= i < |collapsed| ensures IsFilenameChar(collapsed[i]) {
      assert collapsed[i] in replaced;
    }
    var r := Trim(collapsed, IsHyphen);
    var lo := |collapsed| - |TrimStart(collapsed, IsHyphen)|;
    FilenameCharsSlice(collapsed, lo, lo + |r|);
  }

  /** A slice of a string with no hyphen run has none either. */
  lemma NoDoubleHyphenSlice(s: string, lo: nat, hi: nat)
    requires NoDoubleHyphen(s) && lo <= hi <= |s|
    ensures NoDoubleHyphen(s[lo..hi])
  {
    forall i | 0 <= i < hi - lo - 1 ensures !(s[lo..hi][i] == '-' && s[lo..hi][i + 1] == '-') {
      assert s[lo..hi][i] == s[lo + i] && s[lo..hi][i + 1] == s[lo + i + 1];
    }
  }

  /** No hyphen run survives sanitizing. */
  lemma SanitizeFilenameNoDoubleHyphen(text: string)
    ensures NoDoubleHyphen(SanitizeFilename(text))
  {
    var collapsed := CollapseHyphens(ReplaceSpecial(text));
    var r := Trim(collapsed, IsHyphen);
    var lo := |collapsed| - |TrimStart(collapsed, IsHyphen)|;
    NoDoubleHyphenSlice(collapsed, lo, lo + |r|);
  }

  /** A sanitized name holds only word characters, `-` and `.`, never two
      hyphens in a row, and neither starts nor ends with a hyphen. */
  lemma SanitizeFilenameShape(text: string)
    ensures var r := SanitizeFilename(text);
      && (forall i :: 0 <= i < |r| ==> IsFilenameChar(r[i]))
      && NoDoubleHyphen(r)
      && (|r| > 0 ==> r[0] != '-' && r[|r| - 1] != '-')
  {
    SanitizeFilenameChars(text);
    SanitizeFilenameNoDoubleHyphen(text);
  }

  /** A name of allowed characters with no hyphen run and no hyphen at
      either end is left as it is by sanitizing. */
  lemma SanitizeFilenameKeepsShaped(r: string)
    requires forall i :: 0 <= i < |r| ==> IsFilenameChar(r[i])
    requires NoDoubleHyphen(r)
    requires |r| > 0 ==> r[0] != '-' && r[|r| - 1] != '-'
    ensures SanitizeFilename(r) == r
  {
    assert ReplaceSpecial(r) == r;
    CollapseHyphensUntouched(r);
    TrimUntouched(r, IsHyphen);
  }

  /** Sanitizing twice is sanitizing once. */
  lemma SanitizeFilenameIdempotent(text: string)
    ensures SanitizeFilename(SanitizeFilename(text)) == SanitizeFilename(text)
  {
    SanitizeFilenameShape(text);
    SanitizeFilenameKeepsShaped(SanitizeFilename(text));
  }

  // ------------------------------------------------------ printed formats

  const VerificationBase: string := "https://porezna.gov.hr/rn?jir="

  /** `generate_verification_url` over cents: JIR, payment time to the
      minute as `%Y%m%d_%H%M`, and the amount in cents with no
      separator. */
  function VerificationUrl(jir: string, paymentTime: DateTime, amountCents: nat): string {
    VerificationBase + jir + "&datv=" + MinuteStamp(paymentTime) + "&izn=" + NatToString(amountCents)
  }

  /** For a JIR without `&` the URL splits into exactly its three
      parameters, the date has 13 characters and the amount reads back as
      the cents. */
  lemma VerificationUrlFields(jir: string, paymentTime: DateTime, amountCents: nat)
    requires '&' !in jir
    ensures Split(VerificationUrl(jir, paymentTime, amountCents), '&')
         == [VerificationBase + jir, "datv=" + MinuteStamp(paymentTime), "izn=" + NatToString(amountCents)]
    ensures |MinuteStamp(paymentTime)| == 13
    ensures DigitsValue(NatToString(amountCents)) == amountCents
  {
    MinuteStampHasNo(paymentTime, '&');
    DigitsHaveNo(NatToString(amountCents), '&');
    QueryWithoutAmpersandSplits(jir, MinuteStamp(paymentTime), NatToString(amountCents));
  }

  /** The query string over any `&`-free values splits into its three
      parameters. */
  lemma QueryWithoutAmpersandSplits(jir: string, date: string, amount: string)
    requires '&' !in jir && '&' !in date && '&' !in amount
    ensures Split(VerificationBase + jir + "&datv=" + date + "&izn=" + amount, '&')
         == [VerificationBase + jir, "datv=" + date, "izn=" + amount]
  {
    var a, b, c := VerificationBase + jir, "datv=" + date, "izn=" + amount;
    assert '&' !in VerificationBase;
    assert VerificationBase + jir + "&datv=" + date + "&izn=" + amount == a + ['&'] + (b + ['&'] + c);
    SplitThree(a, b, c, '&');
  }

  lemma DigitsHaveNo(s: string, c: char)
    requires IsDigits(s) && !IsDigit(c)
    ensures c !in s
  {
  }

  /** A minute stamp is digits around one underscore. */
  lemma MinuteStampHasNo(t: DateTime, c: char)
    requires !IsDigit(c) && c != '_'
    ensures c !in MinuteStamp(t)
  {
    var m, full := MinuteStamp(t), CompactStamp(t);
    forall i | 0 <= i < 13 ensures m[i] != c {
      if i < 8 { assert full[..8][i] == full[i]; } else if i > 8 { assert full[9..][i - 9] == full[i]; }
    }
  }

  /** The receipt number as printed: `year/location/register/number`. */
  function DisplayNumber(year: nat, locationId: string, registerId: string, number: nat): string {
    NatToString(year) + "/" + locationId + "/" + registerId + "/" + NatToString(number)
  }

  /** Without `/` in the location and register the printed number splits
      back into its four parts. */
  lemma DisplayNumberFields(year: nat, locationId: string, registerId: string, number: nat)
    requires '/' !in locationId && '/' !in registerId
    ensures Split(DisplayNumber(year, locationId, registerId, number), '/')
         == [NatToString(year), locationId, registerId, NatToString(number)]
  {
    var y, n := NatToString(year), NatToString(number);
    DigitsHaveNo(y, '/');
    DigitsHaveNo(n, '/');
    assert DisplayNumber(year, locationId, registerId, number)
        == y + ['/'] + (locationId + ['/'] + (registerId + ['/'] + n));
    SplitConcat(y, '/', locationId + ['/'] + (registerId + ['/'] + n));
    SplitConcat(locationId, '/', registerId + ['/'] + n);
    SplitConcat(registerId, '/', n);
    SplitNoSeparator(y, '/');
    SplitNoSeparator(locationId, '/');
    SplitNoSeparator(registerId, '/');
    SplitNoSeparator(n, '/');
  }

  // ------------------------------------------------------------------ PDFs

  datatype PdfError = PdfReceiptNotFound | NotCompleted | NoJir | NoFolder | RenderingFailed

  datatype PdfResult = PdfResult(receiptId: nat, receiptNumber: nat, s3Path: string)

  /** Where the PDF of a receipt is uploaded: under the receipt's audit
      folder, named after the sanitized order id, or `no-order-id`. */
  function PdfPath(r: Receipt): string {
    var orderSafe := if Truthy(r.orderId) then SanitizeFilename(r.orderId.value) else "no-order-id";
    r.s3FolderPath + "/fina-receipt-" + orderSafe + ".pdf"
  }

  /** The guards of `generate_pdf_for_receipt`, in their order. */
  function PdfGuard(r: Receipt): Option<PdfError> {
    if r.status != Completed then Some(NotCompleted)
    else if !Truthy(r.jir) then Some(NoJir)
    else if r.s3FolderPath == "" then Some(NoFolder)
    else None
  }

  /** The table differs at most in the PDF columns. */
  predicate SameExceptPdf(rows: seq<Receipt>, before: seq<Receipt>) {
    && |rows| == |before|
    && forall i :: 0 <= i < |rows| ==>
         rows[i] == before[i].(pdfStatus := rows[i].pdfStatus, pdfCreated := rows[i].pdfCreated)
  }

  /** Whether a PDF run on receipt `id` ends completed: the row exists,
      passes the guards and renders. */
  predicate PdfSucceeds(rows: seq<Receipt>, id: nat, renders: bool) {
    var found := RowWithId(rows, id);
    found.Some? && PdfGuard(rows[found.value]).None? && renders
  }

  /** The row a PDF run leaves behind once it has found it: as it was when
      a guard refuses it, otherwise completed with this creation time when
      it renders, and failed when it does not. */
  function PdfOutcome(row: Receipt, renders: bool, now: int): Receipt {
    if PdfGuard(row).Some? then row
    else if renders then row.(pdfStatus := PdfCompleted, pdfCreated := Some(now))
    else row.(pdfStatus := PdfFailed)
  }

  /** The outcome of `generate_pdf_for_receipt` and the table after it: a
      missing row or a failed guard raises with no change; otherwise the
      row's `pdf_status` ends completed (with its creation time) when
      rendering succeeds, or failed when it raises. `uploaded` is the
      result of the S3 upload, which the code does not look at. */
  function PdfRun(rows: seq<Receipt>, receiptId: nat, renders: bool, uploaded: bool, now: int)
    : (Result<PdfResult, PdfError>, seq<Receipt>)
  {
    match RowWithId(rows, receiptId)
    case None => (Err(PdfReceiptNotFound), rows)
    case Some(i) =>
      var row := rows[i];
      if PdfGuard(row).Some? then (Err(PdfGuard(row).value), rows)
      else if renders then
        (Ok(PdfResult(receiptId, row.receiptNumber, PdfPath(row))),
         rows[i := row.(pdfStatus := PdfCompleted, pdfCreated := Some(now))])
      else (Err(RenderingFailed), rows[i := row.(pdfStatus := PdfFailed)])
  }

  /** A PDF run succeeds exactly when the row exists, passes the guards and
      renders; it writes the outcome of the run into the row it found and
      changes no other row, and only when it got past the guards does that
      row change at all. The table stays well formed. */
  lemma PdfRunContract(rows: seq<Receipt>, nextNumber: nat, nextId: nat, receiptId: nat, renders: bool,
                       uploaded: bool, now: int)
    requires WellFormed(rows, nextNumber, nextId)
    ensures var (r, after) := PdfRun(rows, receiptId, renders, uploaded, now);
      && WellFormed(after, nextNumber, nextId)
      && SameExceptPdf(after, rows)
      && (r.Ok? <==> PdfSucceeds(rows, receiptId, renders))
      && (r.Err? && r.error != RenderingFailed ==> after == rows)
      && (RowWithId(rows, receiptId).None? ==> r == Err(PdfReceiptNotFound) && after == rows)
      && (RowWithId(rows, receiptId).Some? ==> var i := RowWithId(rows, receiptId).value;
            after == rows[i := PdfOutcome(rows[i], renders, now)])
      && (r.Ok? ==> var i := RowWithId(rows, receiptId).value;
            after[i].pdfStatus == PdfCompleted && after[i].pdfCreated == Some(now) && r.value.receiptId == rows[i].id)
      && (r == Err(RenderingFailed) ==> var i := RowWithId(rows, receiptId).value;
            PdfGuard(rows[i]).None? && after[i].pdfStatus == PdfFailed)
  {
    var (r, after) := PdfRun(rows, receiptId, renders, uploaded, now);
    assert SameExceptPdf(after, rows);
    assert SameKeys(after, rows);
    SameKeysWellFormed(after, rows, nextNumber, nextId);
  }

  /** The upload's outcome is not looked at: a PDF whose upload was refused
      still marks the row completed and reports success with its path. */
  lemma PdfRunIgnoresUpload(rows: seq<Receipt>, receiptId: nat, renders: bool, now: int)
    ensures PdfRun(rows, receiptId, renders, false, now) == PdfRun(rows, receiptId, renders, true, now)
    ensures PdfSucceeds(rows, receiptId, renders) ==>
      var (r, after) := PdfRun(rows, receiptId, renders, false, now);
      r.Ok? && after[RowWithId(rows, receiptId).value].pdfStatus == PdfCompleted
  {
  }

  /** `generate_pdf_for_receipt`: `pdf_status` goes to processing before
      rendering, then to its final value; the result and the final table
      are those of `PdfRun`. */
  method GeneratePdf(ledger: Ledger, receiptId: nat, renders: bool, uploaded: bool, now: int)
    returns (r: Result<PdfResult, PdfError>)
    requires ledger.Valid()
    modifies ledger
    ensures ledger.Valid()
    ensures ledger.nextNumber == old(ledger.nextNumber) && ledger.nextId == old(ledger.nextId)
    ensures (r, ledger.rows) == PdfRun(old(ledger.rows), receiptId, renders, uploaded, now)
  {
    PdfRunContract(ledger.rows, ledger.nextNumber, ledger.nextId, receiptId, renders, uploaded, now);
    var found := RowWithId(ledger.rows, receiptId);
    if found.None? {
      return Err(PdfReceiptNotFound);
    }
    var i := found.value;
    var row := ledger.rows[i];
    var guard := PdfGuard(row);
    if guard.Some? {
      return Err(guard.value);
    }
    ghost var start := ledger.rows;
    ledger.rows := ledger.rows[i := row.(pdfStatus := PdfProcessing)];
    if renders {
      ledger.rows := ledger.rows[i := row.(pdfStatus := PdfCompleted, pdfCreated := Some(now))];
      assert ledger.rows == start[i := row.(pdfStatus := PdfCompleted, pdfCreated := Some(now))];
      return Ok(PdfResult(receiptId, row.receiptNumber, PdfPath(row)));
    } else {
      ledger.rows := ledger.rows[i := row.(pdfStatus := PdfFailed)];
      assert ledger.rows == start[i := row.(pdfStatus := PdfFailed)];
      return Err(RenderingFailed);
    }
  }

  /** Ids of the completed rows whose PDF is pending, in id order. */
  function PendingIds(rows: seq<Receipt>): (ids: seq<nat>)
    ensures |ids| <= |rows|
  {
    if rows == [] then []
    else (if rows[0].pdfStatus == PdfPending && rows[0].status == Completed then [rows[0].id] else [])
         + PendingIds(rows[1..])
  }

  /** The batch: `... ORDER BY id ASC LIMIT limit`. */
  function PendingSelection(rows: seq<Receipt>, limit: nat): (ids: seq<nat>)
    ensures |ids| <= limit
    ensures |ids| <= |PendingIds(rows)| && ids == PendingIds(rows)[..|ids|]
    ensures |ids| == if |PendingIds(rows)| <= limit then |PendingIds(rows)| else limit
  {
    var all := PendingIds(rows);
    if |all| <= limit then all else all[..limit]
  }

  /** Every selected id is that of a completed row with a pending PDF. */
  lemma {:induction false} PendingIdsSelectPending(rows: seq<Receipt>, k: nat)
    requires k < |PendingIds(rows)|
    ensures exists i :: 0 <= i < |rows| && rows[i].id == PendingIds(rows)[k]
                        && rows[i].pdfStatus == PdfPending && rows[i].status == Completed
  {
    var head := if rows[0].pdfStatus == PdfPending && rows[0].status == Completed then [rows[0].id] else [];
    if k < |head| {
      assert PendingIds(rows)[k] == rows[0].id;
    } else {
      PendingIdsSelectPending(rows[1..], k - |head|);
      var i :| 0 <= i < |rows[1..]| && rows[1..][i].id == PendingIds(rows[1..])[k - |head|]
               && rows[1..][i].pdfStatus == PdfPending && rows[1..][i].status == Completed;
      assert rows[i + 1] == rows[1..][i];
    }
  }

  /** The pending ids are exactly the ids of the completed rows whose PDF
      is pending. */
  lemma {:induction false} PendingIdsExactly(rows: seq<Receipt>, x: nat)
    ensures x in PendingIds(rows) <==>
      exists i :: 0 <= i < |rows| && rows[i].id == x && rows[i].pdfStatus == PdfPending && rows[i].status == Completed
  {
    if x in PendingIds(rows) {
      var k :| 0 <= k < |PendingIds(rows)| && PendingIds(rows)[k] == x;
      PendingIdsSelectPending(rows, k);
    }
    if exists i :: 0 <= i < |rows| && rows[i].id == x && rows[i].pdfStatus == PdfPending && rows[i].status == Completed {
      var i :| 0 <= i < |rows| && rows[i].id == x && rows[i].pdfStatus == PdfPending && rows[i].status == Completed;
      PendingIdsHasRow(rows, i);
    }
  }

  /** A completed row whose PDF is pending has its id among the pending
      ids. */
  lemma {:induction false} PendingIdsHasRow(rows: seq<Receipt>, i: nat)
    requires i < |rows| && rows[i].pdfStatus == PdfPending && rows[i].status == Completed
    ensures rows[i].id in PendingIds(rows)
  {
    if i > 0 {
      assert rows[1..][i - 1] == rows[i];
      PendingIdsHasRow(rows[1..], i - 1);
    }
  }

  /** With ids increasing down the table, the pending ids come in strictly
      increasing order, as `ORDER BY id ASC` returns them. */
  lemma {:induction false} PendingIdsIncrease(rows: seq<Receipt>)
    requires forall i, j :: 0 <= i < j < |rows| ==> rows[i].id < rows[j].id
    ensures forall a, b :: 0 <= a < b < |PendingIds(rows)| ==> PendingIds(rows)[a] < PendingIds(rows)[b]
  {
    if rows != [] {
      var tail := PendingIds(rows[1..]);
      assert forall i, j :: 0 <= i < j < |rows[1..]| ==> rows[1..][i].id < rows[1..][j].id by {
        forall i, j | 0 <= i < j < |rows[1..]| ensures rows[1..][i].id < rows[1..][j].id {
          assert rows[1..][i] == rows[i + 1] && rows[1..][j] == rows[j + 1];
        }
      }
      PendingIdsIncrease(rows[1..]);
      forall b | 0 <= b < |tail| ensures rows[0].id < tail[b] {
        PendingIdsSelectPending(rows[1..], b);
        var i :| 0 <= i < |rows[1..]| && rows[1..][i].id == tail[b]
                 && rows[1..][i].pdfStatus == PdfPending && rows[1..][i].status == Completed;
        assert rows[1..][i] == rows[i + 1];
      }
    }
  }

  /** How many of the selected receipts a batch run completes. */
  function SucceedingCount(rows: seq<Receipt>, ids: seq<nat>, renders: nat -> bool): (n: nat)
    ensures n <= |ids|
  {
    if ids == [] then 0
    else SucceedingCount(rows, ids[..|ids| - 1], renders)
         + (if PdfSucceeds(rows, ids[|ids| - 1], renders(ids[|ids| - 1])) then 1 else 0)
  }

  /** Tables that differ only in PDF columns find the same row for an id. */
  lemma {:induction false} SameExceptPdfFindsSameRow(rows: seq<Receipt>, before: seq<Receipt>, id: nat)
    requires SameExceptPdf(rows, before)
    ensures RowWithId(rows, id) == RowWithId(before, id)
    decreases |rows|
  {
    if rows != [] {
      assert rows[0].id == before[0].id;
      assert SameExceptPdf(rows[1..], before[1..]) by {
        forall i | 0 <= i < |rows| - 1
          ensures rows[1..][i] == before[1..][i].(pdfStatus := rows[1..][i].pdfStatus, pdfCreated := rows[1..][i].pdfCreated)
        {
          assert rows[1..][i] == rows[i + 1] && before[1..][i] == before[i + 1];
        }
      }
      SameExceptPdfFindsSameRow(rows[1..], before[1..], id);
    }
  }

  /** A PDF run decides on columns it never writes, so earlier runs in a
      batch do not change whether a later one succeeds. */
  lemma PdfSucceedsIgnoresPdfColumns(rows: seq<Receipt>, before: seq<Receipt>, id: nat, renders: bool)
    requires SameExceptPdf(rows, before)
    ensures PdfSucceeds(rows, id, renders) == PdfSucceeds(before, id, renders)
  {
    SameExceptPdfFindsSameRow(rows, before, id);
    var found := RowWithId(before, id);
    if found.Some? {
      assert rows[found.value].status == before[found.value].status;
    }
  }

  /** Differing only in PDF columns is transitive. */
  lemma SameExceptPdfTrans(a: seq<Receipt>, b: seq<Receipt>, c: seq<Receipt>)
    requires SameExceptPdf(a, b) && SameExceptPdf(b, c)
    ensures SameExceptPdf(a, c)
  {
    forall i | 0 <= i < |a| ensures a[i] == c[i].(pdfStatus := a[i].pdfStatus, pdfCreated := a[i].pdfCreated) {
      assert a[i] == b[i].(pdfStatus := a[i].pdfStatus, pdfCreated := a[i].pdfCreated);
      assert b[i] == c[i].(pdfStatus := b[i].pdfStatus, pdfCreated := b[i].pdfCreated);
    }
  }

  /** The count over one more selected id. */
  lemma SucceedingCountStep(rows: seq<Receipt>, ids: seq<nat>, k: nat, renders: nat -> bool)
    requires k < |ids|
    ensures SucceedingCount(rows, ids[..k + 1], renders)
            == SucceedingCount(rows, ids[..k], renders) + (if PdfSucceeds(rows, ids[k], renders(ids[k])) then 1 else 0)
  {
    assert ids[..k + 1][..k] == ids[..k];
  }

  /** With ids increasing down the table, the row `WHERE id = ?` selects
      for a row's id is that row. */
  lemma RowWithIdFindsRow(rows: seq<Receipt>, i: nat)
    requires i < |rows|
    requires forall a, b :: 0 <= a < b < |rows| ==> rows[a].id < rows[b].id
    ensures RowWithId(rows, rows[i].id) == Some(i)
  {
    forall k | 0 <= k < |rows| && k != i ensures rows[k].id != rows[i].id {
      if k < i { assert rows[k].id < rows[i].id; } else { assert rows[i].id < rows[k].id; }
    }
  }

  /** What a run leaves in the row it found, by what the run decides on:
      completed with this creation time exactly when the run on that
      table succeeds, failed when the row passes the guards and does not
      render, and untouched when a guard refuses it. Only PDF columns
      change. */
  lemma PdfOutcomeDecided(rows: seq<Receipt>, i: nat, renders: bool, now: int)
    requires i < |rows|
    requires forall a, b :: 0 <= a < b < |rows| ==> rows[a].id < rows[b].id
    ensures var after := PdfOutcome(rows[i], renders, now);
      && after == rows[i].(pdfStatus := after.pdfStatus, pdfCreated := after.pdfCreated)
      && (PdfSucceeds(rows, rows[i].id, renders) <==> PdfGuard(rows[i]).None? && renders)
      && (PdfSucceeds(rows, rows[i].id, renders) ==> after.pdfStatus == PdfCompleted && after.pdfCreated == Some(now))
      && (PdfGuard(rows[i]).None? && !renders ==> after.pdfStatus == PdfFailed)
      && (PdfGuard(rows[i]).Some? ==> after == rows[i])
  {
    RowWithIdFindsRow(rows, i);
  }

  /** The table once the batch has run the ids in `done` over `before`:
      each row whose id was run holds that run's outcome, and every other
      row is as it was. */
  predicate BatchDone(rows: seq<Receipt>, before: seq<Receipt>, done: seq<nat>, renders: nat -> bool, now: int) {
    && |rows| == |before|
    && forall i :: 0 <= i < |rows| ==>
         rows[i] == if before[i].id in done then PdfOutcome(before[i], renders(before[i].id), now) else before[i]
  }

  /** Running one more id, not run before, on a table in that state
      reaches the state with that id run as well. */
  lemma BatchDoneStep(rows: seq<Receipt>, before: seq<Receipt>, done: seq<nat>, id: nat, renders: nat -> bool, now: int)
    requires forall a, b :: 0 <= a < b < |before| ==> before[a].id < before[b].id
    requires BatchDone(rows, before, done, renders, now) && id !in done
    ensures var found := RowWithId(rows, id);
      BatchDone(if found.None? then rows else rows[found.value := PdfOutcome(rows[found.value], renders(id), now)],
                before, done + [id], renders, now)
  {
    var found := RowWithId(rows, id);
    forall i | 0 <= i < |rows| ensures rows[i].id == before[i].id {
    }
    if found.Some? {
      var j := found.value;
      forall i | 0 <= i < |rows| && i != j ensures before[i].id != id {
        if i < j { assert before[i].id < before[j].id; } else { assert before[j].id < before[i].id; }
      }
    }
  }

  /** A table in a batch state differs from the one before the batch only
      in PDF columns. */
  lemma BatchDoneSameExceptPdf(rows: seq<Receipt>, before: seq<Receipt>, done: seq<nat>, renders: nat -> bool, now: int)
    requires BatchDone(rows, before, done, renders, now)
    ensures SameExceptPdf(rows, before)
  {
    forall i | 0 <= i < |rows| ensures rows[i] == before[i].(pdfStatus := rows[i].pdfStatus, pdfCreated := rows[i].pdfCreated) {
    }
  }

  /** A selected id was not selected earlier in the batch. */
  lemma SelectionFresh(rows: seq<Receipt>, limit: nat, k: nat)
    requires forall a, b :: 0 <= a < b < |rows| ==> rows[a].id < rows[b].id
    requires k < |PendingSelection(rows, limit)|
    ensures PendingSelection(rows, limit)[k] !in PendingSelection(rows, limit)[..k]
  {
    var selection := PendingSelection(rows, limit);
    PendingIdsIncrease(rows);
    forall a | 0 <= a < k ensures selection[..k][a] != selection[k] {
      assert selection[a] == PendingIds(rows)[a] && selection[k] == PendingIds(rows)[k];
    }
  }

  /** One iteration of the batch: the PDF run inside its `try`, on a
      table that holds the outcomes of the ids run so far over `before`;
      afterwards it holds this id's outcome as well, and the iteration
      reports whether the run returned, which is what it would have done
      on `before`. */
  method TryGeneratePdf(ledger: Ledger, id: nat, renders: nat -> bool, uploaded: bool, now: int,
                        ghost before: seq<Receipt>, ghost done: seq<nat>)
    returns (ok: bool)
    requires ledger.Valid() && WellFormed(before, ledger.nextNumber, ledger.nextId)
    requires BatchDone(ledger.rows, before, done, renders, now) && id !in done
    modifies ledger
    ensures ledger.Valid() && ledger.nextNumber == old(ledger.nextNumber) && ledger.nextId == old(ledger.nextId)
    ensures BatchDone(ledger.rows, before, done + [id], renders, now)
    ensures ok == PdfSucceeds(before, id, renders(id))
  {
    ghost var current := ledger.rows;
    BatchDoneSameExceptPdf(current, before, done, renders, now);
    PdfRunContract(current, ledger.nextNumber, ledger.nextId, id, renders(id), uploaded, now);
    BatchDoneStep(current, before, done, id, renders, now);
    var result := GeneratePdf(ledger, id, renders(id), uploaded, now);
    PdfSucceedsIgnoresPdfColumns(current, before, id, renders(id));
    ok := result.Ok?;
  }

  /** `generate_pending_pdfs`: runs the PDF generation on each selected
      receipt, counting successes and failures; an empty selection yields
      zeros. Each selected row ends with its own run's outcome, every
      other row is as it was. */
  method GeneratePendingPdfs(ledger: Ledger, limit: nat, renders: nat -> bool, uploads: nat -> bool, now: int)
    returns (processed: nat, failed: nat, total: nat)
    requires ledger.Valid()
    modifies ledger
    ensures ledger.Valid()
    ensures ledger.nextNumber == old(ledger.nextNumber) && ledger.nextId == old(ledger.nextId)
    ensures BatchDone(ledger.rows, old(ledger.rows), PendingSelection(old(ledger.rows), limit), renders, now)
    ensures SameExceptPdf(ledger.rows, old(ledger.rows))
    ensures total == |PendingSelection(old(ledger.rows), limit)| && total <= limit
    ensures processed + failed == total
    ensures processed == SucceedingCount(old(ledger.rows), PendingSelection(old(ledger.rows), limit), renders)
    ensures total == 0 ==> processed == 0 && failed == 0
  {
    var selection := PendingSelection(ledger.rows, limit);
    ghost var before := ledger.rows;
    assert BatchDone(ledger.rows, before, selection[..0], renders, now);
    processed, failed := 0, 0;
    var k := 0;
    while k < |selection|
      invariant 0 <= k <= |selection|
      invariant ledger.Valid() && WellFormed(before, ledger.nextNumber, ledger.nextId)
      invariant ledger.nextNumber == old(ledger.nextNumber) && ledger.nextId == old(ledger.nextId)
      invariant BatchDone(ledger.rows, before, selection[..k], renders, now)
      invariant processed + failed == k
      invariant processed == SucceedingCount(before, selection[..k], renders)
    {
      SelectionFresh(before, limit, k);
      var ok := TryGeneratePdf(ledger, selection[k], renders, uploads(selection[k]), now, before, selection[..k]);
      SucceedingCountStep(before, selection, k, renders);
      assert selection[..k + 1] == selection[..k] + [selection[k]];
      if ok {
        processed := processed + 1;
      } else {
        failed := failed + 1;
      }
      k := k + 1;
    }
    assert selection[..k] == selection;
    BatchDoneSameExceptPdf(ledger.rows, before, selection, renders, now);
    total := |selection|;
  }
}
