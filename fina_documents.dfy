/** The strings the fiscalisation client builds (fina.py:227-305): the
    ZKI input message, the `RacunZahtjev` fiscal document and its SOAP
    envelope. The RSA-SHA1 signature and MD5 digest that turn the message
    into the ZKI, and the XML-DSig signature of the document, are foreign
    code and appear in the model as parameters of the callers. Amounts
    are integer cents. */
module FinaDocuments {
  import opened Wrappers
  import opened Strings
  import opened Timestamps

  /** Jurisdiction and device identifiers read from the environment. */
  datatype Config = Config(oibCompany: string, oibOperator: string, locationId: string, registerId: string)

  // ----------------------------------------------------------------- amounts

  /** `f"{amount:.2f}"` of an amount held as cents: whole units, a dot,
      exactly two digits. */
  function FormatCents(cents: nat): (r: string)
    ensures |r| >= 4 && r[|r| - 3] == '.'
    ensures IsDigits(r[..|r| - 3]) && IsDigits(r[|r| - 2..])
  {
    var r := NatToString(cents / 100) + "." + Pad2(cents % 100);
    assert r[..|r| - 3] == NatToString(cents / 100);
    assert r[|r| - 2..] == Pad2(cents % 100);
    r
  }

  /** Reads a two-decimal amount back into cents. */
  function ParseCents(s: string): Option<nat>
  {
    if |s| >= 4 && s[|s| - 3] == '.' && IsDigits(s[..|s| - 3]) && IsDigits(s[|s| - 2..])
    then Some(DigitsValue(s[..|s| - 3]) * 100 + DigitsValue(s[|s| - 2..]))
    else None
  }

  lemma FormatCentsRoundTrip(cents: nat)
    ensures ParseCents(FormatCents(cents)) == Some(cents)
  {
    var r := FormatCents(cents);
    assert r[..|r| - 3] == NatToString(cents / 100);
    assert r[|r| - 2..] == Pad2(cents % 100);
  }

  // ------------------------------------------------------- concatenation

  /** Concatenation of a list of pieces. */
  function Flatten(pieces: seq<string>): string
  {
    if pieces == [] then [] else pieces[0] + Flatten(pieces[1..])
  }

  /** The concatenation, cut around its k-th piece. */
  lemma {:induction false} FlattenAround(pieces: seq<string>, k: nat)
    requires k < |pieces|
    ensures Flatten(pieces) == Flatten(pieces[..k]) + pieces[k] + Flatten(pieces[k + 1..])
  {
    if k > 0 {
      var tail := pieces[1..];
      FlattenAround(tail, k - 1);
      assert tail[..k - 1] == pieces[..k][1..];
      assert tail[k..] == pieces[k + 1..];
      assert Flatten(pieces[..k]) == pieces[0] + Flatten(tail[..k - 1]);
    }
  }

  /** Every piece of the list appears in the concatenation. */
  lemma PieceInFlatten(pieces: seq<string>, k: nat)
    requires k < |pieces|
    ensures IsSubstring(pieces[k], Flatten(pieces))
  {
    FlattenAround(pieces, k);
    SubstringOfConcat(Flatten(pieces[..k]), pieces[k], Flatten(pieces[k + 1..]));
  }

  lemma CancelAround(a: string, x: string, y: string, b: string)
    requires a + x + b == a + y + b
    ensures x == y
  {
    var s := a + x + b;
    assert |x| == |y|;
    assert s[|a|..|a| + |x|] == x;
    assert (a + y + b)[|a|..|a| + |y|] == y;
  }

  /** Two lists that differ in exactly one piece concatenate to
      different strings. */
  lemma FlattenDetectsOneChange(p: seq<string>, q: seq<string>, k: nat)
    requires |p| == |q| && k < |p| && p[k] != q[k]
    requires p[..k] == q[..k] && p[k + 1..] == q[k + 1..]
    ensures Flatten(p) != Flatten(q)
  {
    FlattenAround(p, k);
    FlattenAround(q, k);
    if Flatten(p) == Flatten(q) {
      CancelAround(Flatten(p[..k]), p[k], q[k], Flatten(p[k + 1..]));
    }
  }

  // ------------------------------------------------------------ ZKI message

  /** The six fields `generate_zki` concatenates. */
  datatype ZkiInput = ZkiInput(
    oib: string, paymentTime: DateTime, receiptNumber: nat,
    locationId: string, registerId: string, amountCents: nat)

  /** Company OIB, payment time as `%Y%m%d_%H%M%S`, receipt number,
      location, register and the amount with two decimals, in this order. */
  function ZkiPieces(z: ZkiInput): seq<string>
  {
    [z.oib, CompactStamp(z.paymentTime), NatToString(z.receiptNumber),
     z.locationId, z.registerId, FormatCents(z.amountCents)]
  }

  /** The exact string the authority recomputes before comparing the
      protection code: the six pieces with no separators. */
  function ZkiMessage(z: ZkiInput): string
  {
    Flatten(ZkiPieces(z))
  }

  /** Exactly one of the six fields differs. */
  predicate DifferInOneField(z: ZkiInput, w: ZkiInput) {
    || (z.oib != w.oib && w == z.(oib := w.oib))
    || (z.paymentTime != w.paymentTime && w == z.(paymentTime := w.paymentTime))
    || (z.receiptNumber != w.receiptNumber && w == z.(receiptNumber := w.receiptNumber))
    || (z.locationId != w.locationId && w == z.(locationId := w.locationId))
    || (z.registerId != w.registerId && w == z.(registerId := w.registerId))
    || (z.amountCents != w.amountCents && w == z.(amountCents := w.amountCents))
  }

  lemma OibChangesMessage(z: ZkiInput, oib: string)
    requires oib != z.oib
    ensures ZkiMessage(z) != ZkiMessage(z.(oib := oib))
  {
    var p, q := ZkiPieces(z), ZkiPieces(z.(oib := oib));
    assert p[1..] == q[1..];
    FlattenDetectsOneChange(p, q, 0);
  }

  lemma PaymentTimeChangesMessage(z: ZkiInput, t: DateTime)
    requires t != z.paymentTime
    ensures ZkiMessage(z) != ZkiMessage(z.(paymentTime := t))
  {
    var p, q := ZkiPieces(z), ZkiPieces(z.(paymentTime := t));
    CompactStampRoundTrip(z.paymentTime);
    CompactStampRoundTrip(t);
    assert p[..1] == q[..1] && p[2..] == q[2..];
    FlattenDetectsOneChange(p, q, 1);
  }

  lemma ReceiptNumberChangesMessage(z: ZkiInput, n: nat)
    requires n != z.receiptNumber
    ensures ZkiMessage(z) != ZkiMessage(z.(receiptNumber := n))
  {
    var p, q := ZkiPieces(z), ZkiPieces(z.(receiptNumber := n));
    if NatToString(z.receiptNumber) == NatToString(n) {
      NatToStringInjective(z.receiptNumber, n);
    }
    assert p[..2] == q[..2] && p[3..] == q[3..];
    FlattenDetectsOneChange(p, q, 2);
  }

  lemma LocationChangesMessage(z: ZkiInput, loc: string)
    requires loc != z.locationId
    ensures ZkiMessage(z) != ZkiMessage(z.(locationId := loc))
  {
    var p, q := ZkiPieces(z), ZkiPieces(z.(locationId := loc));
    assert p[..3] == q[..3] && p[4..] == q[4..];
    FlattenDetectsOneChange(p, q, 3);
  }

  lemma RegisterChangesMessage(z: ZkiInput, reg: string)
    requires reg != z.registerId
    ensures ZkiMessage(z) != ZkiMessage(z.(registerId := reg))
  {
    var p, q := ZkiPieces(z), ZkiPieces(z.(registerId := reg));
    assert p[..4] == q[..4] && p[5..] == q[5..];
    FlattenDetectsOneChange(p, q, 4);
  }

  lemma AmountChangesMessage(z: ZkiInput, cents: nat)
    requires cents != z.amountCents
    ensures ZkiMessage(z) != ZkiMessage(z.(amountCents := cents))
  {
    var p, q := ZkiPieces(z), ZkiPieces(z.(amountCents := cents));
    FormatCentsRoundTrip(z.amountCents);
    FormatCentsRoundTrip(cents);
    assert p[..5] == q[..5] && p[6..] == q[6..];
    FlattenDetectsOneChange(p, q, 5);
  }

  /** Changing any single field changes the message the authority checks,
      so it changes the input of the protection-code computation. */
  lemma ZkiMessageDetectsSingleChange(z: ZkiInput, w: ZkiInput)
    requires DifferInOneField(z, w)
    ensures ZkiMessage(z) != ZkiMessage(w)
  {
    if z.oib != w.oib && w == z.(oib := w.oib) {
      OibChangesMessage(z, w.oib);
    } else if z.paymentTime != w.paymentTime && w == z.(paymentTime := w.paymentTime) {
      PaymentTimeChangesMessage(z, w.paymentTime);
    } else if z.receiptNumber != w.receiptNumber && w == z.(receiptNumber := w.receiptNumber) {
      ReceiptNumberChangesMessage(z, w.receiptNumber);
    } else if z.locationId != w.locationId && w == z.(locationId := w.locationId) {
      LocationChangesMessage(z, w.locationId);
    } else if z.registerId != w.registerId && w == z.(registerId := w.registerId) {
      RegisterChangesMessage(z, w.registerId);
    } else {
      AmountChangesMessage(z, w.amountCents);
    }
  }

  /** Six pieces concatenate in order. */
  lemma FlattenSix(a: string, b: string, c: string, d: string, e: string, f: string)
    ensures Flatten([a, b, c, d, e, f]) == a + b + c + d + e + f
  {
    var p := [a, b, c, d, e, f];
    assert p[1..][1..][1..][1..][1..][1..] == [];
    assert Flatten(p[1..][1..][1..][1..][1..]) == f;
    assert Flatten(p[1..][1..][1..][1..]) == e + f;
    assert Flatten(p[1..][1..][1..]) == d + (e + f);
    assert Flatten(p[1..][1..]) == c + (d + (e + f));
    assert Flatten(p[1..]) == b + (c + (d + (e + f)));
  }

  /** The converse does not hold for two fields at once: with no
      separator between them, location `1` with register `23` gives the
      same message as location `12` with register `3`, whatever the other
      fields are. */
  lemma ZkiMessageLocationRegisterBoundary(z: ZkiInput)
    requires z.locationId == "1" && z.registerId == "23"
    ensures ZkiMessage(z) == ZkiMessage(z.(locationId := "12", registerId := "3"))
  {
    var o, t, n, amt := z.oib, CompactStamp(z.paymentTime), NatToString(z.receiptNumber), FormatCents(z.amountCents);
    FlattenSix(o, t, n, "1", "23", amt);
    FlattenSix(o, t, n, "12", "3", amt);
    assert o + t + n + "1" + "23" == o + t + n + "12" + "3";
  }

  // ---------------------------------------------------- the fiscal document

  /** One `<tns:Tag>value</tns:Tag>` line of the document. */
  function Field(tag: string, value: string): string {
    "<tns:" + tag + ">" + value + "</tns:" + tag + ">"
  }

  const Indent12: string := "\n            "
  const Indent16: string := "\n                "
  const ReceiptOpen: string := "<tns:RacunZahtjev xmlns:tns=\"http://www.apis-it.hr/fin/2012/types/f73\"\n             Id=\""
  const ReceiptSchema: string := "\"\n             xmlns:xsi=\"http://www.w3.org/2001/XMLSchema-instance\"\n             xsi:schemaLocation=\"http://www.apis-it.hr/fin/2012/types/f73 ../schema/FiskalizacijaSchema.xsd\">\n        <tns:Zaglavlje>"
  const HeaderClose: string := "\n        </tns:Zaglavlje>\n        <tns:Racun>"
  const ReceiptClose: string := "\n        </tns:Racun>\n    </tns:RacunZahtjev>"

  /** The `RacunZahtjev` template of `build_receipt`, whitespace included,
      cut at its placeholders; the odd indices from 3 to 23 hold the
      filled-in elements. */
  function ReceiptPieces(messageId: string, nodeId: string, requestTime: string, paymentTime: string,
                         zki: string, total: string, receiptNumber: nat, cfg: Config): seq<string>
  {
    [ ReceiptOpen
    , nodeId
    , ReceiptSchema + Indent12
    , Field("IdPoruke", messageId)
    , Indent12
    , Field("DatumVrijeme", requestTime)
    , HeaderClose + Indent12
    , Field("Oib", cfg.oibCompany)
    , Indent12 + Field("USustPdv", "true") + Indent12
    , Field("DatVrijeme", paymentTime)
    , Indent12 + Field("OznSlijed", "P") + Indent12 + "<tns:BrRac>" + Indent16
    , Field("BrOznRac", NatToString(receiptNumber))
    , Indent16
    , Field("OznPosPr", cfg.locationId)
    , Indent16
    , Field("OznNapUr", cfg.registerId)
    , Indent12 + "</tns:BrRac>" + Indent12
    , Field("IznosOslobPdv", total)
    , Indent12
    , Field("IznosUkupno", total)
    , Indent12 + Field("NacinPlac", "K") + Indent12
    , Field("OibOper", cfg.oibOperator)
    , Indent12
    , Field("ZastKod", zki)
    , Indent12 + Field("NakDost", "false") + ReceiptClose
    ]
  }

  /** `build_receipt`: the filled-in template. */
  function BuildReceipt(messageId: string, nodeId: string, requestTime: string, paymentTime: string,
                        zki: string, total: string, receiptNumber: nat, cfg: Config): string
  {
    Flatten(ReceiptPieces(messageId, nodeId, requestTime, paymentTime, zki, total, receiptNumber, cfg))
  }

  /** The elements holding the values the authority checks: message id
      and request time in the header; company OIB, payment time, receipt
      number, location, register, the total (twice), operator OIB and the
      ZKI in the receipt. */
  function CheckedFields(messageId: string, requestTime: string, paymentTime: string,
                         zki: string, total: string, receiptNumber: nat, cfg: Config): seq<string>
  {
    [Field("IdPoruke", messageId), Field("DatumVrijeme", requestTime), Field("Oib", cfg.oibCompany),
     Field("DatVrijeme", paymentTime), Field("BrOznRac", NatToString(receiptNumber)),
     Field("OznPosPr", cfg.locationId), Field("OznNapUr", cfg.registerId),
     Field("IznosOslobPdv", total), Field("IznosUkupno", total), Field("OibOper", cfg.oibOperator),
     Field("ZastKod", zki)]
  }

  /** The document carries every checked value, each inside its own
      element. */
  lemma BuildReceiptCarriesFields(messageId: string, nodeId: string, requestTime: string, paymentTime: string,
                                  zki: string, total: string, receiptNumber: nat, cfg: Config)
    ensures var fields := CheckedFields(messageId, requestTime, paymentTime, zki, total, receiptNumber, cfg);
      forall i :: 0 <= i < |fields| ==>
        IsSubstring(fields[i], BuildReceipt(messageId, nodeId, requestTime, paymentTime, zki, total, receiptNumber, cfg))
  {
    var fields := CheckedFields(messageId, requestTime, paymentTime, zki, total, receiptNumber, cfg);
    var pieces := ReceiptPieces(messageId, nodeId, requestTime, paymentTime, zki, total, receiptNumber, cfg);
    forall i | 0 <= i < |fields| ensures IsSubstring(fields[i], Flatten(pieces)) {
      assert fields[i] == pieces[2 * i + 3];
      PieceInFlatten(pieces, 2 * i + 3);
    }
  }

  /** The values the ZKI was computed over, and the ZKI itself, each in
      its own element of the document. */
  lemma BuildReceiptCarriesZkiInputs(messageId: string, nodeId: string, requestTime: string, paymentTime: string,
                                     zki: string, total: string, receiptNumber: nat, cfg: Config)
    ensures var doc := BuildReceipt(messageId, nodeId, requestTime, paymentTime, zki, total, receiptNumber, cfg);
      && IsSubstring(Field("ZastKod", zki), doc)
      && IsSubstring(Field("BrOznRac", NatToString(receiptNumber)), doc)
      && IsSubstring(Field("DatVrijeme", paymentTime), doc)
      && IsSubstring(Field("IznosUkupno", total), doc)
      && IsSubstring(Field("Oib", cfg.oibCompany), doc)
      && IsSubstring(Field("OznPosPr", cfg.locationId), doc)
      && IsSubstring(Field("OznNapUr", cfg.registerId), doc)
  {
    var fields := CheckedFields(messageId, requestTime, paymentTime, zki, total, receiptNumber, cfg);
    BuildReceiptCarriesFields(messageId, nodeId, requestTime, paymentTime, zki, total, receiptNumber, cfg);
    assert IsSubstring(fields[10], BuildReceipt(messageId, nodeId, requestTime, paymentTime, zki, total, receiptNumber, cfg));
    assert IsSubstring(fields[4], BuildReceipt(messageId, nodeId, requestTime, paymentTime, zki, total, receiptNumber, cfg));
    assert IsSubstring(fields[3], BuildReceipt(messageId, nodeId, requestTime, paymentTime, zki, total, receiptNumber, cfg));
    assert IsSubstring(fields[8], BuildReceipt(messageId, nodeId, requestTime, paymentTime, zki, total, receiptNumber, cfg));
    assert IsSubstring(fields[2], BuildReceipt(messageId, nodeId, requestTime, paymentTime, zki, total, receiptNumber, cfg));
    assert IsSubstring(fields[5], BuildReceipt(messageId, nodeId, requestTime, paymentTime, zki, total, receiptNumber, cfg));
    assert IsSubstring(fields[6], BuildReceipt(messageId, nodeId, requestTime, paymentTime, zki, total, receiptNumber, cfg));
  }

  // ------------------------------------------------------- SOAP envelope

  const SoapHead: string := "<?xml version=\"1.0\" encoding=\"UTF-8\"?>\n<soapenv:Envelope xmlns:soapenv=\"http://schemas.xmlsoap.org/soap/envelope/\">\n  <soapenv:Body>\n  "
  const SoapTail: string := "\n  </soapenv:Body>\n</soapenv:Envelope>"

  /** `wrap_soap`: the signed document inside a SOAP 1.1 Body. */
  function WrapSoap(signed: string): (r: string)
    ensures StartsWith(r, SoapHead) && EndsWith(r, SoapTail)
    ensures |r| == |SoapHead| + |signed| + |SoapTail|
  {
    var r := SoapHead + signed + SoapTail;
    assert r[..|SoapHead|] == SoapHead;
    assert r[|r| - |SoapTail|..] == SoapTail;
    r
  }

  /** Takes the envelope off again; None for text that is not an
      envelope of this shape. */
  function UnwrapSoap(s: string): Option<string>
  {
    if |s| >= |SoapHead| + |SoapTail| && StartsWith(s, SoapHead) && EndsWith(s, SoapTail)
    then Some(s[|SoapHead|..|s| - |SoapTail|])
    else None
  }

  lemma WrapSoapRoundTrip(signed: string)
    ensures UnwrapSoap(WrapSoap(signed)) == Some(signed)
  {
    var r := WrapSoap(signed);
    assert r[|SoapHead|..|r| - |SoapTail|] == signed;
  }
}
