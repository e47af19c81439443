/** The payment routes: the Stripe checkout, the verification that renders
    and stores the report document, the webhook and the status read. Stripe,
    the browser that prints the document and the blob store are oracles
    given as parameters. */
module PaymentRoutes {
  import opened Common
  import opened Records
  import opened Store
  import opened R2
  import opened JsString
  import opened Grouping
  import opened Pdf

  /** `metadata` of a checkout session. */
  datatype Metadata = Metadata(reportId: Id, userId: Id)

  /** The parts of `stripe.checkout.sessions.create`'s argument that depend on
      the request: the redirect URLs and the metadata. Card payment, one unit
      of the configured price and `mode: 'payment'` are fixed. */
  datatype CheckoutRequest = CheckoutRequest(successUrl: string, cancelUrl: string, metadata: Metadata)

  /** What Stripe answers to the creation: an error, or the session. */
  datatype CreatedSession = CreateFailed | Created(sessionId: string, url: string)

  datatype CheckoutSession = CheckoutSession(sessionId: string, url: string)

  /** The session asked for on behalf of `userId` for `reportId`, with
      `frontendUrl` the `FRONTEND_URL` setting. */
  function CheckoutRequestFor(frontendUrl: string, reportId: Id, userId: Id): CheckoutRequest {
    CheckoutRequest(
      frontendUrl + "/report/" + reportId + "/success?session_id={CHECKOUT_SESSION_ID}",
      frontendUrl + "/report/" + reportId + "/review",
      Metadata(reportId, userId))
  }

  /** POST /api/payment/checkout/:reportId. It creates a session only for an
      owned, unpaid report with at least one snag, asks Stripe for exactly
      the session of that report and user, and changes nothing stored. */
  function Checkout(reports: seq<Report>, snags: seq<Snag>, userId: Id, reportId: Id,
                    frontendUrl: string, stripe: CheckoutRequest -> CreatedSession): (r: Result<CheckoutSession>)
    ensures FindOwned(reports, reportId, userId).None? ==> r == Err(NotFound("Report not found"))
    ensures FindOwned(reports, reportId, userId).Some? ==>
      var report := reports[FindOwned(reports, reportId, userId).value];
      var created := stripe(CheckoutRequestFor(frontendUrl, reportId, userId));
      && (report.paymentStatus == PAID ==> r == Err(BadRequest("Report already paid")))
      && (report.paymentStatus == UNPAID && SnagsOf(snags, reportId) == [] ==>
            r == Err(BadRequest("No snags in report")))
      && (report.paymentStatus == UNPAID && SnagsOf(snags, reportId) != [] ==>
            if created.CreateFailed? then r == Err(ServerError("Failed to create checkout session"))
            else r == Ok(CheckoutSession(created.sessionId, created.url)))
    ensures r.Ok? ==> exists k :: 0 <= k < |reports| && reports[k].id == reportId && reports[k].userId == userId
                                  && reports[k].paymentStatus == UNPAID
  {
    match FindOwned(reports, reportId, userId)
    case None => Err(NotFound("Report not found"))
    case Some(i) =>
      if reports[i].paymentStatus == PAID then Err(BadRequest("Report already paid"))
      else if SnagsOf(snags, reportId) == [] then Err(BadRequest("No snags in report"))
      else match stripe(CheckoutRequestFor(frontendUrl, reportId, userId))
        case CreateFailed => Err(ServerError("Failed to create checkout session"))
        case Created(id, url) => Ok(CheckoutSession(id, url))
  }

  /** What `stripe.checkout.sessions.retrieve(sessionId)` gives: an error, or
      the session's `payment_status`, its `metadata.reportId` (undefined when
      absent) and its `payment_intent`. */
  datatype RetrievedSession =
    | RetrieveFailed
    | Retrieved(paymentStatus: string, metadataReportId: Option<Id>, paymentIntent: Option<string>)

  /** A session created by checkout for a report passes verification's
      session check for that report once it is paid. */
  lemma CheckoutSessionMatches(frontendUrl: string, reportId: Id, userId: Id, intent: Option<string>)
    ensures var s := Retrieved("paid", Some(CheckoutRequestFor(frontendUrl, reportId, userId).metadata.reportId), intent);
            !SessionRejected(s, reportId)
  {
  }

  /** The session check of verification: not paid, or paid for another
      report. */
  predicate SessionRejected(s: RetrievedSession, reportId: Id)
    requires s.Retrieved?
  {
    s.paymentStatus != "paid" || s.metadataReportId != Some(reportId)
  }

  /** `report.paymentStatus === 'PAID' && report.pdfUrl`: verification
      returns the stored document without looking at the session. */
  predicate ShortCircuits(r: Report) {
    r.paymentStatus == PAID && Present(r.pdfUrl)
  }

  /** The first write: GENERATING and PAID together, with the session's
      payment intent. */
  function Generating(r: Report, intent: Option<string>): Report {
    r.(status := GENERATING, paymentStatus := PAID, stripePaymentId := intent)
  }

  /** The second write: COMPLETE and the document URL together. */
  function Completed(r: Report, url: string): Report {
    r.(status := COMPLETE, pdfUrl := Some(url))
  }

  /** What printing the document and putting it in the blob store gives: a
      failure of the browser or of the put, or the uuid the object was
      stored under. */
  datatype Printed = PrintFailed | Stored(uuid: string)

  const PDF_MIME_TYPE: string := "application/pdf"

  /** The folder of a report's document. */
  function PdfFolder(reportId: Id): string {
    "pdfs/" + reportId
  }

  /** `generateReportPDF(report)`: the public URL of the stored document, or
      `None` when generating the markup throws or printing or storing
      fails. */
  function GeneratedPdf(r: Report, snags: seq<Snag>, printer: Document -> Printed, publicBase: string): (url: Option<string>)
    ensures url.None? <==> ReportDocument(r, snags).None? || printer(ReportDocument(r, snags).value).PrintFailed?
  {
    match ReportDocument(r, snags)
    case None => None
    case Some(d) =>
      match printer(d)
      case PrintFailed => None
      case Stored(uuid) => Some(UploadToR2(publicBase, PDF_MIME_TYPE, uuid, PdfFolder(r.id)).publicUrl)
  }

  /** A generated document is served from `<base>/pdfs/<report id>/<uuid>.pdf`. */
  lemma GeneratedPdfUrl(r: Report, snags: seq<Snag>, printer: Document -> Printed, publicBase: string)
    ensures GeneratedPdf(r, snags, printer, publicBase).Some? ==>
            GeneratedPdf(r, snags, printer, publicBase).value
            == publicBase + "/pdfs/" + r.id + "/" + printer(ReportDocument(r, snags).value).uuid + ".pdf"
  {
    if GeneratedPdf(r, snags, printer, publicBase).Some? {
      PdfExtension();
      PdfUrlShape(publicBase, PDF_MIME_TYPE, printer(ReportDocument(r, snags).value).uuid, r.id);
    }
  }

  /** Generating the document fails exactly when some snag has no severity,
      some room or trade name is inherited by every object, or printing or
      storing fails. */
  lemma GeneratedPdfFails(r: Report, snags: seq<Snag>, printer: Document -> Printed, publicBase: string)
    ensures GeneratedPdf(r, snags, printer, publicBase).None? <==>
      || !Rated(snags) || Throws(snags, Room) || Throws(snags, Trade)
      || printer(ReportDocument(r, snags).value).PrintFailed?
  {
  }

  /** The document of a report is stored as `pdfs/<report id>/<uuid>.pdf`
      and served from under the public base URL. */
  lemma PdfUrlShape(publicBase: string, mimeType: string, uuid: string, reportId: Id)
    requires FileExtension(mimeType) == "pdf"
    ensures UploadToR2(publicBase, mimeType, uuid, PdfFolder(reportId)).publicUrl
            == publicBase + "/pdfs/" + reportId + "/" + uuid + ".pdf"
  {
    PublicUrlOf(publicBase, mimeType, uuid, PdfFolder(reportId), "pdf");
    assert "/" + "pdfs/" == "/pdfs/";
    assert "." + "pdf" == ".pdf";
    SlashFolderAssoc(publicBase, reportId, uuid);
  }

  lemma SlashFolderAssoc(publicBase: string, reportId: Id, uuid: string)
    ensures publicBase + "/" + ("pdfs/" + reportId) + "/" + uuid + "." + "pdf"
            == publicBase + ("/" + "pdfs/") + reportId + "/" + uuid + ("." + "pdf")
  {
  }

  lemma PdfExtension()
    ensures FileExtension(PDF_MIME_TYPE) == "pdf"
  {
    ExtensionIsSubtype("application", "pdf", []);
    assert "application" + "/" + "pdf" + [] == PDF_MIME_TYPE;
  }

  /** POST /api/payment/verify/:reportId.

      A paid report with a document returns its URL and changes nothing.
      Otherwise the session must be paid and belong to this report; then
      GENERATING and PAID are written, the document is rendered from the
      report and its snags in display order as they were read, and COMPLETE
      with the URL is written. A failed rendering leaves the report
      GENERATING and PAID without a document. No prior status is required. */
  method VerifyPayment(db: Database, userId: Id, reportId: Id, sessionId: Input,
                       sessions: Input -> RetrievedSession, printer: Document -> Printed, publicBase: string)
    returns (res: Result<string>)
    requires db.Valid()
    modifies db
    ensures db.Valid()
    ensures db.snags == old(db.snags)
    ensures FindOwned(old(db.reports), reportId, userId).None? ==>
      res == Err(NotFound("Report not found")) && unchanged(db)
    ensures FindOwned(old(db.reports), reportId, userId).Some? ==>
      var i := FindOwned(old(db.reports), reportId, userId).value;
      var report := old(db.reports)[i];
      var session := sessions(sessionId);
      if ShortCircuits(report) then
        res == Ok(report.pdfUrl.value) && unchanged(db)
      else if session.RetrieveFailed? then
        res == Err(ServerError("Failed to verify payment")) && unchanged(db)
      else if session.paymentStatus != "paid" then
        res == Err(BadRequest("Payment not completed")) && unchanged(db)
      else if session.metadataReportId != Some(reportId) then
        res == Err(BadRequest("Invalid session")) && unchanged(db)
      else
        var generating := Generating(report, session.paymentIntent);
        var url := GeneratedPdf(report, OrderedSnagsOf(old(db.snags), reportId), printer, publicBase);
        if url.None? then
          && db.reports == old(db.reports)[i := generating]
          && db.log == old(db.log) + [UpdateReportRow(generating)]
          && res == Err(ServerError("Failed to verify payment"))
        else
          && db.reports == old(db.reports)[i := Completed(generating, url.value)]
          && db.log == old(db.log) + [UpdateReportRow(generating), UpdateReportRow(Completed(generating, url.value))]
          && res == Ok(url.value)
  {
    var found := FindOwned(db.reports, reportId, userId);
    if found.None? {
      return Err(NotFound("Report not found"));
    }
    var i := found.value;
    var report := db.reports[i];
    if ShortCircuits(report) {
      return Ok(report.pdfUrl.value);
    }
    var session := sessions(sessionId);
    if session.RetrieveFailed? {
      return Err(ServerError("Failed to verify payment"));
    }
    if session.paymentStatus != "paid" {
      return Err(BadRequest("Payment not completed"));
    }
    if session.metadataReportId != Some(reportId) {
      return Err(BadRequest("Invalid session"));
    }
    var url := GeneratedPdf(report, OrderedSnagsOf(db.snags, reportId), printer, publicBase);
    res := Deliver(db, i, session.paymentIntent, url);
  }

  /** The writes around the rendering, once the session is accepted.
      `url` is what `generateReportPDF` gave; it reads nothing the first
      write changes, so it is taken as a value. */
  method Deliver(db: Database, i: nat, intent: Option<string>, url: Option<string>)
    returns (res: Result<string>)
    requires db.Valid() && i < |db.reports|
    modifies db
    ensures db.Valid()
    ensures db.snags == old(db.snags)
    ensures var generating := Generating(old(db.reports)[i], intent);
            if url.None? then
              && db.reports == old(db.reports)[i := generating]
              && db.log == old(db.log) + [UpdateReportRow(generating)]
              && res == Err(ServerError("Failed to verify payment"))
            else
              && db.reports == old(db.reports)[i := Completed(generating, url.value)]
              && db.log == old(db.log) + [UpdateReportRow(generating), UpdateReportRow(Completed(generating, url.value))]
              && res == Ok(url.value)
  {
    var generating := Generating(db.reports[i], intent);
    db.UpdateReportAt(i, generating);
    if url.None? {
      return Err(ServerError("Failed to verify payment"));
    }
    db.UpdateReportAt(i, Completed(generating, url.value));
    res := Ok(url.value);
  }

  /** After a successful verification the report is COMPLETE and PAID with a
      document, so the next verification returns it. */
  lemma DeliveredShortCircuits(r: Report, intent: Option<string>, publicBase: string, uuid: string)
    ensures var url := UploadToR2(publicBase, PDF_MIME_TYPE, uuid, PdfFolder(r.id)).publicUrl;
            var after := Completed(Generating(r, intent), url);
            && after.status == COMPLETE && after.paymentStatus == PAID && after.pdfUrl == Some(url)
            && ShortCircuits(after)
  {
    var u := UploadToR2(publicBase, PDF_MIME_TYPE, uuid, PdfFolder(r.id));
    assert u.publicUrl[|publicBase|] == '/';
  }

  /** After a failed rendering the report is GENERATING and PAID but has no
      document, so the next verification checks the session and renders
      again. */
  lemma FailedRenderIsRetried(r: Report, intent: Option<string>)
    requires PaidIfRendered(r) && !ShortCircuits(r)
    ensures var after := Generating(r, intent);
            && after.status == GENERATING && after.paymentStatus == PAID
            && after.pdfUrl == r.pdfUrl
            && !ShortCircuits(after)
  {
  }

  /** What `stripe.webhooks.constructEvent` gives: a signature failure with
      its message, or an event of some type. */
  datatype WebhookEvent = BadSignature(message: string) | Event(kind: string)

  datatype WebhookResponse = SignatureRejected(body: string) | Received

  /** POST /api/payment/webhook. It only logs: every event with a valid
      signature is acknowledged and nothing is written. */
  function Webhook(event: WebhookEvent): (r: WebhookResponse)
    ensures r.SignatureRejected? <==> event.BadSignature?
    ensures event.BadSignature? ==> r.body == "Webhook Error: " + event.message
  {
    match event
    case BadSignature(message) => SignatureRejected("Webhook Error: " + message)
    case Event(_) => Received
  }

  /** The columns GET /api/payment/status/:reportId selects. */
  datatype StatusView = StatusView(id: Id, paymentStatus: PaymentStatus, pdfUrl: Option<string>, status: Status)

  /** GET /api/payment/status/:reportId: the payment columns of an owned
      report. */
  function StatusOf(reports: seq<Report>, userId: Id, reportId: Id): (r: Result<StatusView>)
    ensures r.Err? <==> forall k :: 0 <= k < |reports| ==> !(reports[k].id == reportId && reports[k].userId == userId)
    ensures r.Err? ==> r.error == NotFound("Report not found")
    ensures r.Ok? ==> exists k :: 0 <= k < |reports| && reports[k].id == reportId && reports[k].userId == userId
                                  && r.value == StatusView(reportId, reports[k].paymentStatus, reports[k].pdfUrl, reports[k].status)
  {
    match FindOwned(reports, reportId, userId)
    case None => Err(NotFound("Report not found"))
    case Some(i) => Ok(StatusView(reports[i].id, reports[i].paymentStatus, reports[i].pdfUrl, reports[i].status))
  }
}
