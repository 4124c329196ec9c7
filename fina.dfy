/** The issuance protocol of fina.py: the `fina_receipt` table as a
    ledger that reserves receipt numbers, records fiscalisation outcomes
    and reaps stale reservations (fina.py:52-136), the control flow of
    `fiscalize` (fina.py:412-497) and the reserve -> fiscalize ->
    reconcile sequence of `process_fina_fiscalization` (fina.py:139-215).
    Timestamps the database sets (`receipt_created`, `receipt_updated`)
    are integer seconds passed in as `now`. */
module Fina {
  import opened Wrappers
  import opened Strings
  import opened Timestamps
  import opened FinaXml
  import opened FinaDocuments

  // ------------------------------------------------------------- the table

  datatype Status = Processing | Completed | Failed

  /** The PDF sub-machine: pending -> processing -> completed | failed. */
  datatype PdfStatus = PdfPending | PdfProcessing | PdfCompleted | PdfFailed

  /** One row of `fina_receipt`. Amounts are cents. An empty string
      stands for a NULL or empty text column where the code only tests
      truthiness. */
  datatype Receipt = Receipt(
    id: nat, year: nat, locationId: string, registerId: string, receiptNumber: nat,
    orderId: Option<string>, stripeId: string, amountCents: nat, currency: string,
    zki: Option<string>, jir: Option<string>, paymentTime: DateTime,
    status: Status, created: int, updated: int, s3FolderPath: string,
    pdfStatus: PdfStatus, pdfCreated: Option<int>)

  /** Python truthiness of an optional text column. */
  predicate Truthy(s: Option<string>) { s.Some? && s.value != "" }

  /** Row ids and receipt numbers come from two sequences: both are below
      the next value each sequence hands out and strictly increase in
      insertion order. */
  predicate WellFormed(rows: seq<Receipt>, nextNumber: nat, nextId: nat) {
    && (forall i :: 0 <= i < |rows| ==> rows[i].id < nextId && rows[i].receiptNumber < nextNumber)
    && (forall i, j :: 0 <= i < j < |rows| ==> rows[i].id < rows[j].id && rows[i].receiptNumber < rows[j].receiptNumber)
  }

  /** Two tables of the same length whose rows agree on id and receipt
      number, row by row. */
  predicate SameKeys(a: seq<Receipt>, b: seq<Receipt>) {
    |a| == |b| && forall i :: 0 <= i < |a| ==> a[i].id == b[i].id && a[i].receiptNumber == b[i].receiptNumber
  }

  /** Well-formedness only looks at ids and numbers. */
  lemma SameKeysWellFormed(a: seq<Receipt>, b: seq<Receipt>, nextNumber: nat, nextId: nat)
    requires SameKeys(a, b) && WellFormed(b, nextNumber, nextId)
    ensures WellFormed(a, nextNumber, nextId)
  {
    forall i, j | 0 <= i < j < |a| ensures a[i].id < a[j].id && a[i].receiptNumber < a[j].receiptNumber {
      assert b[i].id < b[j].id && b[i].receiptNumber < b[j].receiptNumber;
    }
  }

  /** A completed row always carries a non-empty JIR. */
  predicate CompletedCarryJir(rows: seq<Receipt>) {
    forall i :: 0 <= i < |rows| && rows[i].status == Completed ==> Truthy(rows[i].jir)
  }

  /** Number of rows whose `stripe_id` equals `stripeId`: the row count
      the UPDATE of fina.py:88-95 reports. */
  function MatchCount(rows: seq<Receipt>, stripeId: string): nat
  {
    if rows == [] then 0
    else (if rows[0].stripeId == stripeId then 1 else 0) + MatchCount(rows[1..], stripeId)
  }

  lemma {:induction false} MatchCountZeroIff(rows: seq<Receipt>, stripeId: string)
    ensures MatchCount(rows, stripeId) == 0 <==> forall i :: 0 <= i < |rows| ==> rows[i].stripeId != stripeId
  {
    if rows != [] {
      MatchCountZeroIff(rows[1..], stripeId);
      if MatchCount(rows, stripeId) == 0 {
        forall i | 0 <= i < |rows| ensures rows[i].stripeId != stripeId {
          if i > 0 { assert rows[i] == rows[1..][i - 1]; }
        }
      } else if rows[0].stripeId != stripeId {
        var i :| 0 <= i < |rows[1..]| && rows[1..][i].stripeId == stripeId;
        assert rows[i + 1].stripeId == stripeId;
      }
    }
  }

  /** The row the reconciling UPDATE writes: ZKI, JIR, status and the
      update time change; nothing else does. */
  function Reconcile(r: Receipt, zki: Option<string>, jir: Option<string>, status: Status, now: int): Receipt {
    r.(zki := zki, jir := jir, status := status, updated := now)
  }

  /** `update_receipt_with_fiscalization` on the table: every row with the
      given `stripe_id` is reconciled, whatever its current status. */
  function Reconciled(rows: seq<Receipt>, stripeId: string, zki: Option<string>, jir: Option<string>,
                      status: Status, now: int): (r: seq<Receipt>)
    ensures |r| == |rows|
  {
    seq(|rows|, i requires 0 <= i < |rows| =>
      if rows[i].stripeId == stripeId then Reconcile(rows[i], zki, jir, status, now) else rows[i])
  }

  /** Reconciling touches only the rows with that `stripe_id`, keeps every
      row's id, number, payment and PDF state, and so keeps the table well
      formed. */
  lemma ReconciledFrame(rows: seq<Receipt>, nextNumber: nat, nextId: nat, stripeId: string,
                        zki: Option<string>, jir: Option<string>, status: Status, now: int)
    requires WellFormed(rows, nextNumber, nextId)
    ensures var r := Reconciled(rows, stripeId, zki, jir, status, now);
      && WellFormed(r, nextNumber, nextId)
      && (forall i :: 0 <= i < |rows| && rows[i].stripeId != stripeId ==> r[i] == rows[i])
      && (forall i :: 0 <= i < |rows| && rows[i].stripeId == stripeId ==>
            r[i].zki == zki && r[i].jir == jir && r[i].status == status
            && r[i] == rows[i].(zki := zki, jir := jir, status := status, updated := now))
  {
    var r := Reconciled(rows, stripeId, zki, jir, status, now);
    assert SameKeys(r, rows);
    SameKeysWellFormed(r, rows, nextNumber, nextId);
  }

  /** With no matching row the table is unchanged. */
  lemma ReconciledNoMatch(rows: seq<Receipt>, stripeId: string, zki: Option<string>, jir: Option<string>,
                          status: Status, now: int)
    requires MatchCount(rows, stripeId) == 0
    ensures Reconciled(rows, stripeId, zki, jir, status, now) == rows
  {
    MatchCountZeroIff(rows, stripeId);
  }

  /** The update has no guard on the current status: a completed row is
      overwritten, JIR included, when the same `stripe_id` is reconciled
      again. */
  lemma ReconcileOverwritesCompleted(r: Receipt, now: int)
    requires r.status == Completed && Truthy(r.jir)
    ensures var after := Reconciled([r], r.stripeId, None, None, Failed, now);
      after[0].status == Failed && after[0].jir == None && after[0].receiptNumber == r.receiptNumber
  {
  }

  /** A reconciliation that writes `completed` only together with a
      truthy JIR keeps every completed row carrying its JIR. */
  lemma ReconciledKeepsCompletedCarryJir(rows: seq<Receipt>, stripeId: string, zki: Option<string>,
                                         jir: Option<string>, status: Status, now: int)
    requires CompletedCarryJir(rows)
    requires status == Completed ==> Truthy(jir)
    ensures CompletedCarryJir(Reconciled(rows, stripeId, zki, jir, status, now))
  {
  }

  // --------------------------------------------------------------- cleanup

  /** A reservation left in `processing` since before the cutoff. */
  predicate IsStale(r: Receipt, cutoff: int) {
    r.status == Processing && r.created < cutoff
  }

  /** The cleanup UPDATE on one row. */
  function Reap(r: Receipt, cutoff: int, now: int): Receipt {
    if IsStale(r, cutoff) then r.(status := Failed, updated := now) else r
  }

  function Reaped(rows: seq<Receipt>, cutoff: int, now: int): (r: seq<Receipt>)
    ensures |r| == |rows|
  {
    seq(|rows|, i requires 0 <= i < |rows| => Reap(rows[i], cutoff, now))
  }

  /** The number of rows the cleanup's RETURNING clause yields. */
  function StaleCount(rows: seq<Receipt>, cutoff: int): nat
  {
    if rows == [] then 0
    else (if IsStale(rows[0], cutoff) then 1 else 0) + StaleCount(rows[1..], cutoff)
  }

  function CountStatus(rows: seq<Receipt>, s: Status): (n: nat)
    ensures n <= |rows|
  {
    if rows == [] then 0
    else (if rows[0].status == s then 1 else 0) + CountStatus(rows[1..], s)
  }

  /** `NOW() - INTERVAL 'max_age minutes'` in seconds. */
  function Cutoff(now: int, maxAgeMinutes: int): int {
    now - maxAgeMinutes * 60
  }

  /** Cleanup moves exactly the stale rows from `processing` to `failed`:
      the reported count leaves the processing count and joins the failed
      count, and the completed count does not move. */
  lemma {:induction false} ReapedMovesStaleCount(rows: seq<Receipt>, cutoff: int, now: int)
    ensures var r := Reaped(rows, cutoff, now);
      && CountStatus(r, Processing) + StaleCount(rows, cutoff) == CountStatus(rows, Processing)
      && CountStatus(r, Failed) == CountStatus(rows, Failed) + StaleCount(rows, cutoff)
      && CountStatus(r, Completed) == CountStatus(rows, Completed)
  {
    if rows != [] {
      ReapedMovesStaleCount(rows[1..], cutoff, now);
      assert Reaped(rows, cutoff, now)[1..] == Reaped(rows[1..], cutoff, now);
    }
  }

  /** Cleanup changes a row only when it is stale, and then only its
      status (to failed) and its update time. */
  lemma ReapedFrame(rows: seq<Receipt>, cutoff: int, now: int)
    ensures var r := Reaped(rows, cutoff, now);
      forall i :: 0 <= i < |rows| ==>
        if IsStale(rows[i], cutoff) then r[i] == rows[i].(status := Failed, updated := now)
        else r[i] == rows[i]
  {
  }

  /** A second cleanup with the same cutoff finds nothing to do. */
  lemma {:induction false} ReapedIdempotent(rows: seq<Receipt>, cutoff: int, now: int, later: int)
    ensures StaleCount(Reaped(rows, cutoff, now), cutoff) == 0
    ensures Reaped(Reaped(rows, cutoff, now), cutoff, later) == Reaped(rows, cutoff, now)
  {
    if rows != [] {
      ReapedIdempotent(rows[1..], cutoff, now, later);
      assert Reaped(rows, cutoff, now)[1..] == Reaped(rows[1..], cutoff, now);
    }
  }

  lemma ReapedKeepsInvariants(rows: seq<Receipt>, nextNumber: nat, nextId: nat, cutoff: int, now: int)
    requires WellFormed(rows, nextNumber, nextId)
    requires CompletedCarryJir(rows)
    ensures WellFormed(Reaped(rows, cutoff, now), nextNumber, nextId)
    ensures CompletedCarryJir(Reaped(rows, cutoff, now))
  {
    ReapedFrame(rows, cutoff, now);
    SameKeysWellFormed(Reaped(rows, cutoff, now), rows, nextNumber, nextId);
  }

  // ---------------------------------------------------------------- ledger

  datatype LedgerError = NoReceiptForStripeId(stripeId: string)

  /** What the caller inserts for a new reservation. */
  datatype Payment = Payment(
    stripeId: string, orderId: Option<string>, amountCents: nat, currency: string,
    paymentTime: DateTime, s3FolderPath: string)

  /** The row `reserve_receipt_number` inserts: the database assigns the
      id, the number and both timestamps; ZKI and JIR are NULL, status is
      `processing` and the PDF is pending. */
  function ReservedRow(id: nat, number: nat, year: nat, locationId: string, registerId: string,
                       p: Payment, now: int): Receipt
  {
    Receipt(id, year, locationId, registerId, number, p.orderId, p.stripeId, p.amountCents, p.currency,
            None, None, p.paymentTime, Processing, now, now, p.s3FolderPath, PdfPending, None)
  }

  /** The receipt number a reservation takes is held by no row yet, and
      the table with the new row appended is well formed again. */
  lemma ReservationIsFresh(rows: seq<Receipt>, nextNumber: nat, nextId: nat, year: nat,
                           locationId: string, registerId: string, p: Payment, now: int)
    requires WellFormed(rows, nextNumber, nextId)
    ensures forall i :: 0 <= i < |rows| ==> rows[i].receiptNumber != nextNumber
    ensures WellFormed(rows + [ReservedRow(nextId, nextNumber, year, locationId, registerId, p, now)],
                       nextNumber + 1, nextId + 1)
  {
  }

  /** The `fina_receipt` table with its two sequences. */
  class Ledger {
    var rows: seq<Receipt>
    var nextNumber: nat
    var nextId: nat

    predicate Valid()
      reads this
    {
      WellFormed(rows, nextNumber, nextId)
    }

    constructor ()
      ensures Valid() && rows == []
    {
      rows := [];
      nextNumber := 1;
      nextId := 1;
    }

    /** `reserve_receipt_number`: one INSERT, committed at once. */
    method Reserve(year: nat, locationId: string, registerId: string, p: Payment, now: int)
      returns (number: nat)
      requires Valid()
      modifies this
      ensures Valid()
      ensures number == old(nextNumber) && nextNumber == number + 1 && nextId == old(nextId) + 1
      ensures forall i :: 0 <= i < |old(rows)| ==> old(rows)[i].receiptNumber != number
      ensures rows == old(rows) + [ReservedRow(old(nextId), number, year, locationId, registerId, p, now)]
    {
      ReservationIsFresh(rows, nextNumber, nextId, year, locationId, registerId, p, now);
      number := nextNumber;
      rows := rows + [ReservedRow(nextId, number, year, locationId, registerId, p, now)];
      nextNumber := nextNumber + 1;
      nextId := nextId + 1;
    }

    /** `update_receipt_with_fiscalization`: an error, and no change, when
        no row has the `stripe_id`; otherwise every such row is
        reconciled. */
    method Update(stripeId: string, zki: Option<string>, jir: Option<string>, status: Status, now: int)
      returns (r: Result<(), LedgerError>)
      requires Valid()
      modifies this
      ensures Valid()
      ensures nextNumber == old(nextNumber) && nextId == old(nextId)
      ensures r.Err? <==> forall i :: 0 <= i < |old(rows)| ==> old(rows)[i].stripeId != stripeId
      ensures r.Err? ==> rows == old(rows) && r.error == NoReceiptForStripeId(stripeId)
      ensures r.Ok? ==> rows == Reconciled(old(rows), stripeId, zki, jir, status, now)
    {
      MatchCountZeroIff(rows, stripeId);
      if MatchCount(rows, stripeId) == 0 {
        return Err(NoReceiptForStripeId(stripeId));
      }
      ReconciledFrame(rows, nextNumber, nextId, stripeId, zki, jir, status, now);
      rows := Reconciled(rows, stripeId, zki, jir, status, now);
      return Ok(());
    }

    /** `cleanup_stale_processing_records`: marks every `processing` row
        created before `now - maxAgeMinutes` as failed and returns how
        many there were. */
    method Cleanup(maxAgeMinutes: int, now: int) returns (count: nat)
      requires Valid()
      modifies this
      ensures Valid()
      ensures nextNumber == old(nextNumber) && nextId == old(nextId)
      ensures rows == Reaped(old(rows), Cutoff(now, maxAgeMinutes), now)
      ensures count == StaleCount(old(rows), Cutoff(now, maxAgeMinutes))
      ensures CompletedCarryJir(old(rows)) ==> CompletedCarryJir(rows)
    {
      var cutoff := Cutoff(now, maxAgeMinutes);
      count := StaleCount(rows, cutoff);
      if CompletedCarryJir(rows) {
        ReapedKeepsInvariants(rows, nextNumber, nextId, cutoff, now);
      }
      ReapedFrame(rows, cutoff, now);
      rows := Reaped(rows, cutoff, now);
    }
  }

  // ------------------------------------------------------------- fiscalize

  /** What `fiscalize` draws from `uuid4` and the clock. */
  datatype RequestIds = RequestIds(requestId: string, nodeId: string, requestTime: DateTime)

  /** The values `fiscalize` fills into its unsigned `RacunZahtjev`. */
  datatype ReceiptRequest = ReceiptRequest(cfg: Config, ids: RequestIds, paymentTime: DateTime,
                                           number: nat, amountCents: nat, zki: string)

  /** The unsigned `RacunZahtjev` of a request, as `build_receipt` fills it
      in: both timestamps as `%d.%m.%YT%H:%M:%S`, the total with two
      decimals. */
  function Render(req: ReceiptRequest): string
  {
    BuildReceipt(req.ids.requestId, req.ids.nodeId, XmlStamp(req.ids.requestTime), XmlStamp(req.paymentTime),
                 req.zki, FormatCents(req.amountCents), req.number, req.cfg)
  }

  /** The foreign code `fiscalize` calls, as functions of their inputs:
      loading the PKCS#12 bundle, the RSA-SHA1 + MD5 protection code of a
      ZKI message, the XML-DSig signature of a request's rendered document
      (`Render`) under a node id, the mutual-TLS POST to the endpoint, and
      the XML parser. `None` stands for the call raising. The signer is
      handed the request rather than its rendering: the rendering is a
      function of the request, so every signer of texts is one of these. */
  datatype Gateway = Gateway(
    certificateLoads: bool,
    protectionCode: string -> Option<string>,
    sign: (ReceiptRequest, string) -> Option<string>,
    post: string -> Option<string>,
    parse: string -> Option<Element>)

  /** The step whose failure `fiscalize` reports. Each is a `ValueError`
      without a `zki` attribute, except that a response the XML parser
      rejects propagates the parser's own error. */
  datatype Failure = CertificateExtraction | ZkiGeneration | ReceiptBuilding | Communication | ResponseUnparsable

  /** `fiscalize` either returns `{payment_amount, ZKI, JIR}` or raises. */
  datatype FiscalizeOutcome = Returned(zki: string, jir: Option<string>) | Raised(failure: Failure)

  /** The ZKI input `fiscalize` assembles for a receipt. */
  function ZkiInputFor(cfg: Config, paymentTime: DateTime, number: nat, amountCents: nat): ZkiInput {
    ZkiInput(cfg.oibCompany, paymentTime, number, cfg.locationId, cfg.registerId, amountCents)
  }

  /** The control flow of `fiscalize`: certificate, ZKI, build + sign +
      wrap, POST, then the JIR search in the parsed response. Saving the
      audit copies to S3 cannot change the outcome and is not modelled. */
  function Fiscalize(g: Gateway, cfg: Config, ids: RequestIds, paymentTime: DateTime,
                     amountCents: nat, number: nat): FiscalizeOutcome
  {
    if !g.certificateLoads then Raised(CertificateExtraction)
    else match g.protectionCode(ZkiMessage(ZkiInputFor(cfg, paymentTime, number, amountCents)))
    case None => Raised(ZkiGeneration)
    case Some(zki) =>
      match g.sign(ReceiptRequest(cfg, ids, paymentTime, number, amountCents, zki), ids.nodeId)
      case None => Raised(ReceiptBuilding)
      case Some(signed) =>
        match g.post(WrapSoap(signed))
        case None => Raised(Communication)
        case Some(response) =>
          match g.parse(response)
          case None => Raised(ResponseUnparsable)
          case Some(root) => Returned(zki, JirOf(root))
  }

  /** A returned outcome carries the protection code of exactly this
      receipt's ZKI message, and its JIR is what `extract_jir` finds in
      the response to the enveloped, signed receipt document. */
  lemma FiscalizeReturnedSentReceipt(g: Gateway, cfg: Config, ids: RequestIds, paymentTime: DateTime,
                                     amountCents: nat, number: nat)
    requires Fiscalize(g, cfg, ids, paymentTime, amountCents, number).Returned?
    ensures var o := Fiscalize(g, cfg, ids, paymentTime, amountCents, number);
      var signed := g.sign(ReceiptRequest(cfg, ids, paymentTime, number, amountCents, o.zki), ids.nodeId);
      && g.certificateLoads
      && g.protectionCode(ZkiMessage(ZkiInputFor(cfg, paymentTime, number, amountCents))) == Some(o.zki)
      && signed.Some?
      && g.post(WrapSoap(signed.value)).Some?
      && g.parse(g.post(WrapSoap(signed.value)).value).Some?
      && o.jir == JirOf(g.parse(g.post(WrapSoap(signed.value)).value).value)
  {
  }

  /** The document `fiscalize` signs carries the ZKI, the receipt number,
      the payment time and the total (as the exempt and the total amount),
      each in its own element, next to the company OIB, location and
      register the ZKI was computed over. */
  lemma RenderCarriesZkiInputs(cfg: Config, ids: RequestIds, paymentTime: DateTime, number: nat,
                                   amountCents: nat, zki: string)
    ensures var doc := Render(ReceiptRequest(cfg, ids, paymentTime, number, amountCents, zki));
      && IsSubstring(Field("ZastKod", zki), doc)
      && IsSubstring(Field("BrOznRac", NatToString(number)), doc)
      && IsSubstring(Field("DatVrijeme", XmlStamp(paymentTime)), doc)
      && IsSubstring(Field("IznosUkupno", FormatCents(amountCents)), doc)
      && IsSubstring(Field("Oib", cfg.oibCompany), doc)
      && IsSubstring(Field("OznPosPr", cfg.locationId), doc)
      && IsSubstring(Field("OznNapUr", cfg.registerId), doc)
  {
    BuildReceiptCarriesZkiInputs(ids.requestId, ids.nodeId, XmlStamp(ids.requestTime), XmlStamp(paymentTime),
                                 zki, FormatCents(amountCents), number, cfg);
  }

  /** The first step that fails decides the failure, and nothing after it
      is attempted: no request is sent unless the certificate loaded, the
      ZKI was computed and the document was signed. */
  lemma FiscalizeFirstFailureDecides(g: Gateway, cfg: Config, ids: RequestIds, paymentTime: DateTime,
                                     amountCents: nat, number: nat)
    ensures var o := Fiscalize(g, cfg, ids, paymentTime, amountCents, number);
      var code := g.protectionCode(ZkiMessage(ZkiInputFor(cfg, paymentTime, number, amountCents)));
      && (o == Raised(CertificateExtraction) <==> !g.certificateLoads)
      && (o == Raised(ZkiGeneration) <==> g.certificateLoads && code.None?)
      && (o == Raised(ReceiptBuilding) <==>
            g.certificateLoads && code.Some?
            && g.sign(ReceiptRequest(cfg, ids, paymentTime, number, amountCents, code.value), ids.nodeId).None?)
      && (o.Returned? || o == Raised(Communication) || o == Raised(ResponseUnparsable) ==>
            g.certificateLoads && code.Some?
            && g.sign(ReceiptRequest(cfg, ids, paymentTime, number, amountCents, code.value), ids.nodeId).Some?)
  {
  }

  /** A response without a JIR element still returns, with no JIR. */
  lemma FiscalizeWithoutJirElement(g: Gateway, cfg: Config, ids: RequestIds, paymentTime: DateTime,
                                   amountCents: nat, number: nat, root: Element, body: Element)
    requires Fiscalize(g, cfg, ids, paymentTime, amountCents, number).Returned?
    requires var o := Fiscalize(g, cfg, ids, paymentTime, amountCents, number);
      var signed := g.sign(ReceiptRequest(cfg, ids, paymentTime, number, amountCents, o.zki), ids.nodeId).value;
      g.parse(g.post(WrapSoap(signed)).value) == Some(root)
    requires FindBody(root) == Some(body)
    requires forall k :: 0 <= k < |Preorder(body)| ==> !IsJir(Preorder(body)[k])
    ensures Fiscalize(g, cfg, ids, paymentTime, amountCents, number).jir == None
  {
    NoJirElementMeansNone(root, body);
  }

  // ----------------------------------------------------------- process

  /** What the reconciling update records for an outcome: a truthy JIR
      completes the receipt; a returned outcome without one fails it but
      keeps the ZKI; a raised one fails it with neither, since the errors
      `fiscalize` raises carry no `zki` attribute. */
  datatype Record = Record(zki: Option<string>, jir: Option<string>, status: Status)

  function RecordFor(o: FiscalizeOutcome): (r: Record)
    ensures r.status == Completed <==> o.Returned? && Truthy(o.jir)
    ensures r.status == Completed ==> r.jir == o.jir && Truthy(r.jir)
    ensures r.status != Completed ==> r.status == Failed && r.jir == None
    ensures r.zki.Some? <==> o.Returned?
    ensures o.Returned? ==> r.zki == Some(o.zki)
  {
    match o
    case Returned(zki, jir) => if Truthy(jir) then Record(Some(zki), jir, Completed) else Record(Some(zki), None, Failed)
    case Raised(_) => Record(None, None, Failed)
  }

  datatype FiscalResult = FiscalResult(amountCents: nat, zki: string, jir: Option<string>)
  datatype ProcessError = FiscalizationFailed(paymentId: string, failure: Failure)

  /** The table after `process_fina_fiscalization`: the reservation is
      appended, then every row with the payment's `stripe_id`, the new one
      included, is reconciled with the outcome's record. */
  function AfterProcess(rows: seq<Receipt>, nextNumber: nat, nextId: nat, year: nat, locationId: string,
                        registerId: string, p: Payment, o: FiscalizeOutcome, now: int): seq<Receipt>
  {
    var rec := RecordFor(o);
    Reconciled(rows + [ReservedRow(nextId, nextNumber, year, locationId, registerId, p, now)],
               p.stripeId, rec.zki, rec.jir, rec.status, now)
  }

  /** The reserved row never stays `processing`: it keeps its number and
      ends completed with the JIR exactly when the outcome returned a
      truthy JIR, failed otherwise; it keeps the ZKI exactly when
      `fiscalize` returned. Rows of other payments are untouched. */
  lemma ProcessSettlesReservation(rows: seq<Receipt>, nextNumber: nat, nextId: nat, year: nat,
                                  locationId: string, registerId: string, p: Payment, o: FiscalizeOutcome, now: int)
    requires WellFormed(rows, nextNumber, nextId)
    ensures var after := AfterProcess(rows, nextNumber, nextId, year, locationId, registerId, p, o, now);
      && |after| == |rows| + 1
      && WellFormed(after, nextNumber + 1, nextId + 1)
      && after[|rows|].receiptNumber == nextNumber && after[|rows|].stripeId == p.stripeId
      && after[|rows|].status != Processing
      && (after[|rows|].status == Completed <==> o.Returned? && Truthy(o.jir))
      && (after[|rows|].status == Completed ==> after[|rows|].jir == o.jir)
      && (after[|rows|].zki.Some? <==> o.Returned?)
      && (forall i :: 0 <= i < |rows| && rows[i].stripeId != p.stripeId ==> after[i] == rows[i])
  {
    var rec := RecordFor(o);
    var row := ReservedRow(nextId, nextNumber, year, locationId, registerId, p, now);
    ReservationIsFresh(rows, nextNumber, nextId, year, locationId, registerId, p, now);
    ReconciledFrame(rows + [row], nextNumber + 1, nextId + 1, p.stripeId, rec.zki, rec.jir, rec.status, now);
  }

  /** `process_fina_fiscalization`: reserve a number (committed at once),
      call `fiscalize` with it, and reconcile the row. A raised outcome
      marks the row failed and is re-raised; the number is never
      released. The reconciling update cannot miss, since the reservation
      holds the `stripe_id`. */
  method ProcessFiscalization(ledger: Ledger, g: Gateway, cfg: Config, ids: RequestIds, p: Payment, now: int)
    returns (r: Result<FiscalResult, ProcessError>)
    requires ledger.Valid()
    modifies ledger
    ensures ledger.Valid()
    ensures ledger.nextNumber == old(ledger.nextNumber) + 1 && ledger.nextId == old(ledger.nextId) + 1
    ensures var o := Fiscalize(g, cfg, ids, p.paymentTime, p.amountCents, old(ledger.nextNumber));
      && ledger.rows == AfterProcess(old(ledger.rows), old(ledger.nextNumber), old(ledger.nextId),
                                     p.paymentTime.year, cfg.locationId, cfg.registerId, p, o, now)
      && (r.Ok? <==> o.Returned?)
      && (r.Ok? ==> r.value == FiscalResult(p.amountCents, o.zki, o.jir))
      && (r.Err? ==> r.error == FiscalizationFailed(p.stripeId, o.failure))
    ensures CompletedCarryJir(old(ledger.rows)) ==> CompletedCarryJir(ledger.rows)
  {
    var number := ledger.Reserve(p.paymentTime.year, cfg.locationId, cfg.registerId, p, now);
    var o := Fiscalize(g, cfg, ids, p.paymentTime, p.amountCents, number);
    var rec := RecordFor(o);
    ghost var reserved := ledger.rows;
    assert reserved[|reserved| - 1].stripeId == p.stripeId;
    if CompletedCarryJir(old(ledger.rows)) {
      assert CompletedCarryJir(reserved);
      ReconciledKeepsCompletedCarryJir(reserved, p.stripeId, rec.zki, rec.jir, rec.status, now);
    }
    var u := ledger.Update(p.stripeId, rec.zki, rec.jir, rec.status, now);
    match o
    case Returned(zki, jir) =>
      r := Ok(FiscalResult(p.amountCents, zki, jir));
    case Raised(failure) =>
      r := Err(FiscalizationFailed(p.stripeId, failure));
  }
}
