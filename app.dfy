/** The Stripe webhook front door: validation of the decoded
    `payment_intent`, the order id taken from its metadata, the
    idempotency gate over the receipt table, the EUR-only gate, and the
    hand-over to the fiscalisation flow. The Stripe signature check, the
    database lookup's failure, the time-zone conversion, an S3 error that
    escapes while the webhook copies are saved, and the S3 folder name
    arrive as parameters. */
module App {
  import opened Wrappers
  import opened Strings
  import opened Timestamps
  import opened PyValues
  import opened FinaDocuments
  import opened Fina
  import opened FinaCli

  // ------------------------------------------------------------ validation

  datatype ValidationError =
    | InvalidPaymentId
    | InvalidAmount
    | InvalidCurrency
    | InvalidTimestamp
    | StatusNotSucceeded
    | InvalidMetadata

  /** A truthy `str` of at most 200 characters. */
  predicate PaymentIdOk(v: Json) { IsTruthy(v) && v.Str? && |v.s| <= 200 }

  /** An `int` (a `bool` passes `isinstance`) in 1 ..= 999999900 cents. */
  predicate AmountOk(v: Json) { IsInt(v) && 0 < IntValue(v) <= 999999900 }

  /** A truthy `str` of exactly three letters. */
  predicate CurrencyOk(v: Json) {
    IsTruthy(v) && v.Str? && |v.s| == 3 && forall i :: 0 <= i < |v.s| ==> IsAsciiLetter(v.s[i])
  }

  /** A positive `int` (again, `bool` passes). */
  predicate CreatedOk(v: Json) { IsInt(v) && IntValue(v) > 0 }

  predicate StatusOk(v: Json) { v == Str("succeeded") }

  /** Absent (read as None) or a dict. */
  predicate MetadataOk(v: Json) { v.Null? || v.Object? }

  const CheckCount: nat := 6

  /** The k-th check, in the order the validator runs them. */
  predicate Passes(pi: map<string, Json>, k: nat)
    requires k < CheckCount
  {
    if k == 0 then PaymentIdOk(Get(pi, "id"))
    else if k == 1 then AmountOk(Get(pi, "amount"))
    else if k == 2 then CurrencyOk(Get(pi, "currency"))
    else if k == 3 then CreatedOk(Get(pi, "created"))
    else if k == 4 then StatusOk(Get(pi, "status"))
    else MetadataOk(Get(pi, "metadata"))
  }

  /** The error the k-th check raises. */
  function ErrorOf(k: nat): ValidationError
    requires k < CheckCount
  {
    if k == 0 then InvalidPaymentId
    else if k == 1 then InvalidAmount
    else if k == 2 then InvalidCurrency
    else if k == 3 then InvalidTimestamp
    else if k == 4 then StatusNotSucceeded
    else InvalidMetadata
  }

  /** `validate_payment_intent_data`: None when the intent is accepted,
      otherwise the error of the first check that fails. */
  function ValidatePaymentIntent(pi: map<string, Json>): Option<ValidationError>
  {
    if !PaymentIdOk(Get(pi, "id")) then Some(InvalidPaymentId)
    else if !AmountOk(Get(pi, "amount")) then Some(InvalidAmount)
    else if !CurrencyOk(Get(pi, "currency")) then Some(InvalidCurrency)
    else if !CreatedOk(Get(pi, "created")) then Some(InvalidTimestamp)
    else if !StatusOk(Get(pi, "status")) then Some(StatusNotSucceeded)
    else if !MetadataOk(Get(pi, "metadata")) then Some(InvalidMetadata)
    else None
  }

  /** The six checks, named. */
  lemma PassesUnfold(pi: map<string, Json>)
    ensures Passes(pi, 0) == PaymentIdOk(Get(pi, "id")) && Passes(pi, 1) == AmountOk(Get(pi, "amount"))
    ensures Passes(pi, 2) == CurrencyOk(Get(pi, "currency")) && Passes(pi, 3) == CreatedOk(Get(pi, "created"))
    ensures Passes(pi, 4) == StatusOk(Get(pi, "status")) && Passes(pi, 5) == MetadataOk(Get(pi, "metadata"))
  {
  }

  /** An intent is accepted exactly when every check passes. */
  lemma ValidationAcceptsExactly(pi: map<string, Json>)
    ensures ValidatePaymentIntent(pi).None? <==> forall k :: 0 <= k < CheckCount ==> Passes(pi, k)
  {
    PassesUnfold(pi);
  }

  /** The reported error is that of the first failing check: check k is
      reported exactly when it fails and every earlier one passes. */
  lemma ValidationFirstFailureDecides(pi: map<string, Json>, k: nat)
    requires k < CheckCount
    ensures ValidatePaymentIntent(pi) == Some(ErrorOf(k))
            <==> !Passes(pi, k) && forall j :: 0 <= j < k ==> Passes(pi, j)
  {
    PassesUnfold(pi);
    if ValidatePaymentIntent(pi) == Some(ErrorOf(k)) {
      forall j | 0 <= j < k ensures Passes(pi, j) {
        assert ErrorOf(j) != ErrorOf(k);
      }
    }
  }

  /** An accepted intent carries a payment id of 1 to 200 characters, an
      amount of 1 to 999999900 cents, a three-letter currency and a
      positive creation time. */
  lemma AcceptedIntentShape(pi: map<string, Json>)
    requires ValidatePaymentIntent(pi).None?
    ensures "id" in pi && pi["id"].Str? && 1 <= |pi["id"].s| <= 200
    ensures "amount" in pi && 1 <= IntValue(pi["amount"]) <= 999999900
    ensures "currency" in pi && pi["currency"].Str? && |pi["currency"].s| == 3
    ensures "created" in pi && IntValue(pi["created"]) >= 1
    ensures "status" in pi
  {
  }

  // ------------------------------------------------------------ invoice id

  /** What goes wrong when the handler reads the order id. */
  datatype Crash = MetadataHasNoGet

  /** The order-id lookup as written: `pi.get("metadata", {})` yields the
      stored None for `"metadata": null`, and `.get` on None raises. */
  function InvoiceIdAsWritten(pi: map<string, Json>): Result<Json, Crash>
  {
    var metadata := if "metadata" in pi then pi["metadata"] else Object(map[]);
    if !metadata.Object? then Err(MetadataHasNoGet)
    else Ok(Or(Or(Get(metadata.fields, "invoice_id"), Get(metadata.fields, "order_id")), Get(pi, "description")))
  }

  /** The metadata dict, with a null or absent value read as empty. */
  function MetadataOf(pi: map<string, Json>): map<string, Json>
  {
    if "metadata" in pi && pi["metadata"].Object? then pi["metadata"].fields else map[]
  }

  /** The order id as intended: the first truthy of `metadata.invoice_id`,
      `metadata.order_id` and `description`, else `description` itself. */
  function InvoiceId(pi: map<string, Json>): Json
  {
    var metadata := MetadataOf(pi);
    Or(Or(Get(metadata, "invoice_id"), Get(metadata, "order_id")), Get(pi, "description"))
  }

  /** The fallback chain: the result is one of the three candidates, the
      first truthy one when there is one, and truthy exactly when one of
      them is. */
  lemma InvoiceIdFallback(pi: map<string, Json>)
    ensures var inv := Get(MetadataOf(pi), "invoice_id");
            var ord := Get(MetadataOf(pi), "order_id");
            var desc := Get(pi, "description");
            var r := InvoiceId(pi);
      && (r == inv || r == ord || r == desc)
      && (IsTruthy(inv) ==> r == inv)
      && (!IsTruthy(inv) && IsTruthy(ord) ==> r == ord)
      && (!IsTruthy(inv) && !IsTruthy(ord) ==> r == desc)
      && (IsTruthy(r) <==> IsTruthy(inv) || IsTruthy(ord) || IsTruthy(desc))
  {
  }

  /** Wherever the lookup as written does not crash, it agrees with the
      corrected one; it crashes exactly on a metadata value that is present
      and not a dict, which validation lets through only as null. */
  lemma InvoiceIdAgrees(pi: map<string, Json>)
    ensures InvoiceIdAsWritten(pi).Err? <==> "metadata" in pi && !pi["metadata"].Object?
    ensures InvoiceIdAsWritten(pi).Ok? ==> InvoiceIdAsWritten(pi).value == InvoiceId(pi)
    ensures ValidatePaymentIntent(pi).None? && InvoiceIdAsWritten(pi).Err? ==> pi["metadata"] == Null
  {
  }

  /** A payment intent with `"metadata": null` passes validation, yet the
      lookup as written raises on it; the corrected lookup reads it as an
      intent without metadata. */
  lemma NullMetadataCrashesAsWritten()
    ensures var pi := map["id" := Str("pi_1"), "amount" := Int(1250), "currency" := Str("eur"),
                          "created" := Int(1700000000), "status" := Str("succeeded"), "metadata" := Null];
      && ValidatePaymentIntent(pi).None?
      && InvoiceIdAsWritten(pi) == Err(MetadataHasNoGet)
      && InvoiceId(pi) == Null
  {
    var pi := map["id" := Str("pi_1"), "amount" := Int(1250), "currency" := Str("eur"),
                  "created" := Int(1700000000), "status" := Str("succeeded"), "metadata" := Null];
    assert Get(pi, "id") == Str("pi_1");
    assert Get(pi, "currency") == Str("eur");
    assert Get(pi, "metadata") == Null;
    assert "description" !in pi;
  }

  /** The `order_id` column the order id ends up in: a string is stored as
      it is; None stays NULL. */
  function AsOrderId(v: Json): (r: Option<string>)
    ensures r.Some? <==> v.Str?
    ensures r.Some? ==> r.value == v.s
  {
    if v.Str? then Some(v.s) else None
  }

  // --------------------------------------------------------------- handler

  /** The decoded Stripe event: its type, its id and `data.object`. */
  datatype Event = Event(eventType: string, eventId: Option<string>, intent: map<string, Json>)

  const SucceededEvent := "payment_intent.succeeded"

  /** The handler's answers. */
  datatype Reply =
    | BadSignature
    | Ignored(eventType: string)
    | InvalidData
    | AlreadyProcessed(amountCents: int, zki: Option<string>, jir: Option<string>, receiptNumber: nat)
    | StillProcessing(receiptNumber: nat)
    | PreviouslyFailed(receiptNumber: nat)
    | CurrencyNotSupported(paymentId: string, currency: string)
    | Fiscalized(result: FiscalResult)
    | ServerError

  function StatusCode(r: Reply): nat
  {
    match r
    case BadSignature => 400
    case Ignored(_) => 200
    case InvalidData => 400
    case AlreadyProcessed(_, _, _, _) => 200
    case StillProcessing(_) => 202
    case PreviouslyFailed(_) => 422
    case CurrencyNotSupported(_, _) => 422
    case Fiscalized(_) => 200
    case ServerError => 500
  }

  /** The answer for a payment that already has a row, by that row's
      status. */
  function ExistingReply(row: Receipt, amountCents: int): (r: Reply)
    ensures StatusCode(r) == (if row.status == Completed then 200 else if row.status == Processing then 202 else 422)
    ensures r.AlreadyProcessed? ==> r.zki == row.zki && r.jir == row.jir
    ensures (r.AlreadyProcessed? || r.StillProcessing? || r.PreviouslyFailed?) && r.receiptNumber == row.receiptNumber
  {
    match row.status
    case Completed => AlreadyProcessed(amountCents, row.zki, row.jir, row.receiptNumber)
    case Processing => StillProcessing(row.receiptNumber)
    case Failed => PreviouslyFailed(row.receiptNumber)
  }

  /** `currency.upper() == "EUR"`. */
  predicate IsEur(c: string) {
    |c| == 3 && UpperAscii(c[0]) == 'E' && UpperAscii(c[1]) == 'U' && UpperAscii(c[2]) == 'R'
  }

  /** The EUR test ignores case and nothing else: it accepts exactly the
      eight spellings of "eur". */
  lemma IsEurSpellings(c: string)
    ensures IsEur(c) <==> c in {"eur", "euR", "eUr", "eUR", "Eur", "EuR", "EUr", "EUR"}
  {
    if IsEur(c) {
      assert c[0] == 'e' || c[0] == 'E';
      assert c[1] == 'u' || c[1] == 'U';
      assert c[2] == 'r' || c[2] == 'R';
      assert c == [c[0], c[1], c[2]];
    }
  }

  function StripeIdIs(id: string): Receipt -> bool
  {
    (x: Receipt) => x.stripeId == id
  }

  /** The last second `datetime.fromtimestamp` can represent:
      9999-12-31 23:59:59 UTC. */
  const LastUtcSecond := 253402300799

  /** What the handler learns from outside the payload: whether the Stripe
      signature checks out, the conversion of a UTC timestamp to the FINA
      time zone (None where `astimezone` overflows), whether the
      idempotency lookup raises, and whether saving one of the two webhook
      copies to S3 raises an error its wrapper does not catch (a connection
      error, or `S3_BUCKET_NAME` missing). */
  datatype Environment = Environment(signatureValid: bool, localTime: nat -> Option<DateTime>,
                                     lookupFails: bool, auditSaveRaises: bool)

  /** The steps between validation and the lookup raise, and the framework
      answers 500: `created` beyond what `datetime` holds, its local time
      overflowing, or `.get` on a metadata value that is not a dict. */
  predicate ExtractionRaises(pi: map<string, Json>, localTime: nat -> Option<DateTime>)
    requires ValidatePaymentIntent(pi).None?
  {
    var created := IntValue(Get(pi, "created"));
    created > LastUtcSecond || localTime(created).None? || InvoiceIdAsWritten(pi).Err?
  }

  /** Everything the handler decides before any row is written, in the
      order the code takes it: a bad signature, another event type, invalid
      data, a crash while reading the payload, an existing row (found
      unless the lookup fails), a crash while saving the webhook copies,
      or a non-EUR currency answers at once; None lets the payment through
      to fiscalisation. */
  function Gate(rows: seq<Receipt>, e: Event, env: Environment): (r: Option<Reply>)
    ensures r.None? ==>
      && env.signatureValid && e.eventType == SucceededEvent
      && ValidatePaymentIntent(e.intent).None? && !ExtractionRaises(e.intent, env.localTime)
      && !env.auditSaveRaises && IsEur(Get(e.intent, "currency").s)
  {
    if !env.signatureValid then Some(BadSignature)
    else if e.eventType != SucceededEvent then Some(Ignored(e.eventType))
    else if ValidatePaymentIntent(e.intent).Some? then Some(InvalidData)
    else if ExtractionRaises(e.intent, env.localTime) then Some(ServerError)
    else
      var id := Get(e.intent, "id").s;
      var existing := if env.lookupFails then None else FirstRow(rows, StripeIdIs(id));
      if existing.Some? then Some(ExistingReply(rows[existing.value], IntValue(Get(e.intent, "amount"))))
      else if env.auditSaveRaises then Some(ServerError)
      else if !IsEur(Get(e.intent, "currency").s) then Some(CurrencyNotSupported(id, Get(e.intent, "currency").s))
      else None
  }

  /** Two validated intents that the handler answers with 500 before it
      reads the table, whatever the table holds and whatever the lookup and
      the S3 copies would do: one with `"metadata": null`, and one created
      at 10^12 seconds, in the year 33658. */
  lemma CrashesAnswerServerError(rows: seq<Receipt>, env: Environment)
    requires env.signatureValid
    ensures var pi := map["id" := Str("pi_1"), "amount" := Int(1250), "currency" := Str("eur"),
                          "created" := Int(1700000000), "status" := Str("succeeded"), "metadata" := Null];
      Gate(rows, Event(SucceededEvent, None, pi), env) == Some(ServerError)
    ensures var pi := map["id" := Str("pi_1"), "amount" := Int(1250), "currency" := Str("eur"),
                          "created" := Int(1000000000000), "status" := Str("succeeded")];
      && ValidatePaymentIntent(pi).None?
      && Gate(rows, Event(SucceededEvent, None, pi), env) == Some(ServerError)
  {
    NullMetadataCrashesAsWritten();
    var pi := map["id" := Str("pi_1"), "amount" := Int(1250), "currency" := Str("eur"),
                  "created" := Int(1000000000000), "status" := Str("succeeded")];
    assert Get(pi, "id") == Str("pi_1");
    assert Get(pi, "currency") == Str("eur");
    assert Get(pi, "created") == Int(1000000000000);
    assert "metadata" !in pi;
  }

  /** A payment with a row is answered from the first such row, with 200,
      202 or 422 by its status, and never reaches fiscalisation. */
  lemma GateAnswersExistingRow(rows: seq<Receipt>, e: Event, env: Environment, i: nat)
    requires env.signatureValid && !env.lookupFails
    requires e.eventType == SucceededEvent && ValidatePaymentIntent(e.intent).None?
    requires !ExtractionRaises(e.intent, env.localTime)
    requires i < |rows| && rows[i].stripeId == e.intent["id"].s
    requires forall j :: 0 <= j < i ==> rows[j].stripeId != e.intent["id"].s
    ensures Gate(rows, e, env) == Some(ExistingReply(rows[i], IntValue(e.intent["amount"])))
    ensures StatusCode(Gate(rows, e, env).value)
            == (if rows[i].status == Completed then 200 else if rows[i].status == Processing then 202 else 422)
  {
    var found := FirstRow(rows, StripeIdIs(e.intent["id"].s));
    assert StripeIdIs(e.intent["id"].s)(rows[i]);
    assert found == Some(i) by {
      if found.Some? && found.value < i {
        assert !StripeIdIs(e.intent["id"].s)(rows[found.value]);
      }
    }
  }

  /** When the lookup fails the handler carries on as if the table held
      no row for the payment. */
  lemma LookupFailureIgnoresRows(rows: seq<Receipt>, e: Event, env: Environment)
    ensures Gate(rows, e, env.(lookupFails := true)) == Gate([], e, env.(lookupFails := false))
  {
  }

  /** A new, valid payment with no row found passes the gate exactly when
      its webhook copies are saved and its currency is EUR; a crash while
      saving answers 500, any other currency 422. */
  lemma GateCurrency(rows: seq<Receipt>, e: Event, env: Environment)
    requires env.signatureValid
    requires e.eventType == SucceededEvent && ValidatePaymentIntent(e.intent).None?
    requires !ExtractionRaises(e.intent, env.localTime)
    requires env.lookupFails || forall j :: 0 <= j < |rows| ==> rows[j].stripeId != e.intent["id"].s
    ensures Gate(rows, e, env).None? <==> !env.auditSaveRaises && IsEur(e.intent["currency"].s)
    ensures env.auditSaveRaises ==> Gate(rows, e, env) == Some(ServerError)
    ensures !env.auditSaveRaises && !IsEur(e.intent["currency"].s) ==>
      Gate(rows, e, env) == Some(CurrencyNotSupported(e.intent["id"].s, e.intent["currency"].s))
      && StatusCode(Gate(rows, e, env).value) == 422
  {
  }

  /** The payment handed to fiscalisation: the intent's id, the corrected
      order id, its amount in cents, its currency as sent, its creation
      time in local time, and the S3 folder. */
  function PaymentOf(pi: map<string, Json>, localTime: nat -> Option<DateTime>, folder: string): (p: Payment)
    requires ValidatePaymentIntent(pi).None? && localTime(IntValue(Get(pi, "created"))).Some?
    ensures 1 <= |p.stripeId| <= 200 && 1 <= p.amountCents <= 999999900 && |p.currency| == 3
    ensures p.stripeId == pi["id"].s && p.currency == pi["currency"].s
    ensures p.orderId == AsOrderId(InvoiceId(pi))
    ensures InvoiceIdAsWritten(pi).Ok? ==> p.orderId == AsOrderId(InvoiceIdAsWritten(pi).value)
    ensures p.paymentTime == localTime(IntValue(pi["created"])).value
  {
    Payment(Get(pi, "id").s, AsOrderId(InvoiceId(pi)), IntValue(Get(pi, "amount")), Get(pi, "currency").s,
            localTime(IntValue(Get(pi, "created"))).value, folder)
  }

  /** `process_payment_intent_webhook`. Every answer the gate gives leaves
      the table alone; a payment that passes takes the next receipt number
      and row id, is reserved, fiscalised and reconciled, and is answered
      with 200 (whether or not a JIR came back) or, when `fiscalize`
      raised, with the server error an uncaught exception becomes. */
  method HandleWebhook(ledger: Ledger, e: Event, env: Environment, folder: string,
                       g: Gateway, cfg: Config, ids: RequestIds, now: int)
    returns (reply: Reply)
    requires ledger.Valid()
    modifies ledger
    ensures ledger.Valid()
    ensures var gate := Gate(old(ledger.rows), e, env);
      gate.Some? ==> reply == gate.value && ledger.rows == old(ledger.rows)
                     && ledger.nextNumber == old(ledger.nextNumber) && ledger.nextId == old(ledger.nextId)
    ensures var gate := Gate(old(ledger.rows), e, env);
      gate.None? ==>
        var p := PaymentOf(e.intent, env.localTime, folder);
        var o := Fiscalize(g, cfg, ids, p.paymentTime, p.amountCents, old(ledger.nextNumber));
        && ledger.nextNumber == old(ledger.nextNumber) + 1 && ledger.nextId == old(ledger.nextId) + 1
        && ledger.rows == AfterProcess(old(ledger.rows), old(ledger.nextNumber), old(ledger.nextId),
                                       p.paymentTime.year, cfg.locationId, cfg.registerId, p, o, now)
        && reply == (if o.Returned? then Fiscalized(FiscalResult(p.amountCents, o.zki, o.jir)) else ServerError)
    ensures CompletedCarryJir(old(ledger.rows)) ==> CompletedCarryJir(ledger.rows)
  {
    var gate := Gate(ledger.rows, e, env);
    if gate.Some? {
      reply := gate.value;
      return;
    }
    var p := PaymentOf(e.intent, env.localTime, folder);
    var r := ProcessFiscalization(ledger, g, cfg, ids, p, now);
    match r
    case Ok(result) =>
      reply := Fiscalized(result);
    case Err(_) =>
      reply := ServerError;
  }

  /** Redelivering an event after it was processed is answered from the
      row the first delivery wrote, whether or not the S3 copies would
      save this time: 200 with its ZKI and JIR when fiscalisation
      completed, 422 when it failed, and no second receipt number is
      taken. */
  lemma RedeliveryIsIdempotent(rows: seq<Receipt>, nextNumber: nat, nextId: nat, e: Event,
                               env: Environment, redelivery: Environment, folder: string, cfg: Config,
                               o: FiscalizeOutcome, now: int)
    requires WellFormed(rows, nextNumber, nextId)
    requires !env.lookupFails && Gate(rows, e, env).None?
    requires redelivery.signatureValid && !redelivery.lookupFails
    requires redelivery.localTime(IntValue(Get(e.intent, "created"))).Some?
    ensures var p := PaymentOf(e.intent, env.localTime, folder);
            var after := AfterProcess(rows, nextNumber, nextId, p.paymentTime.year, cfg.locationId,
                                      cfg.registerId, p, o, now);
      && |after| == |rows| + 1
      && Gate(after, e, redelivery) == Some(ExistingReply(after[|rows|], p.amountCents))
      && after[|rows|].receiptNumber == nextNumber
      && StatusCode(Gate(after, e, redelivery).value) == (if o.Returned? && Truthy(o.jir) then 200 else 422)
  {
    var p := PaymentOf(e.intent, env.localTime, folder);
    var after := AfterProcess(rows, nextNumber, nextId, p.paymentTime.year, cfg.locationId,
                              cfg.registerId, p, o, now);
    ProcessSettlesReservation(rows, nextNumber, nextId, p.paymentTime.year, cfg.locationId,
                              cfg.registerId, p, o, now);
    var id := e.intent["id"].s;
    assert FirstRow(rows, StripeIdIs(id)).None?;
    forall j | 0 <= j < |rows| ensures after[j].stripeId != id {
      assert !StripeIdIs(id)(rows[j]);
    }
    GateAnswersExistingRow(after, e, redelivery, |rows|);
  }
}
