/**
 * The application driver: `run` connects, selects the inbox, processes
 * every unread email and writes a summary; `process_email` keeps the
 * processed/failed counters; `process_attachment` is the gated pipeline
 * validate → save raw → extract → save text → parse → validate → save invoice.
 *
 * The collaborators are given as an environment: the outcomes of the IMAP
 * calls, the PDF and OCR libraries, the header codecs and the clock. What
 * the application does to the outside world is recorded as a sequence of
 * effects, in order.
 */
module App {
  import opened Wrappers
  import opened Bytes
  import opened Text
  import opened InvoiceParser
  import opened DataManager
  import opened PdfProcessor
  import opened EmailClient

  /** The settings the driver reads. */
  datatype Config = Config(
    outputDir: string,
    maxPdfMb: int,
    saveRawEmails: bool,
    saveExtractedText: bool,
    allowedExtensions: seq<string>)

  /** The settings as shipped: output under `output`, 50 MB, raw PDFs not kept, text kept, `.pdf`/`.PDF`. */
  function ShippedConfig(): (c: Config)
    ensures c.allowedExtensions == PdfExtensions && c.maxPdfMb == 50
    ensures !c.saveRawEmails && c.saveExtractedText
  {
    Config("output", 50, false, true, PdfExtensions)
  }

  /**
   * The collaborators. `clock(n)` is the timestamp read when the `n`-th
   * effect (counting from 0) is produced. `extract` and `parse` are the PDF
   * processor's text extraction and the invoice parser the application
   * holds; `Wired` says they are the ones the application is built with.
   */
  datatype Env = Env(
    connectOk: bool,
    selectOk: bool,
    search: Outcome<SearchReply>,
    fetch: bytes -> Option<Message>,
    codecs: Codecs,
    plumber: bytes -> Outcome<seq<Option<string>>>,
    ocr: bytes -> Outcome<string>,
    extract: (string, bytes) -> ExtractionResult,
    clock: nat -> string,
    parse: string -> InvoiceData)

  /**
   * The application's own collaborators: extraction is `extract_text_from_pdf`
   * over the PDF and OCR libraries, and parsing is `parse_invoice`.
   */
  ghost predicate Wired(env: Env) {
    && (forall filename, data :: env.extract(filename, data) == Extracted(filename, env.plumber(data), env.ocr(data)))
    && env.parse == ParseInvoice
  }

  /** The invoice record saved: the parsed fields plus the email metadata, the filename and the extraction method. */
  datatype InvoiceRecord = InvoiceRecord(
    invoice: InvoiceData,
    emailMetadata: EmailMetadata,
    filename: string,
    extractionMethod: ExtractionMethod)

  /**
   * What the application does to the outside world. A save records the
   * clock reading and the original filename it was made with; the file it
   * writes is `SavedPath` of it.
   */
  datatype Effect =
    | SavePdf(timestamp: string, filename: string, data: bytes)
    | SaveText(timestamp: string, filename: string, text: string)
    | SaveInvoice(timestamp: string, filename: string, record: InvoiceRecord)
    | MarkRead(id: bytes)
    | Report(processed: nat, failed: nat)
    | Disconnect
    | Cleanup

  predicate IsSave(e: Effect) {
    e.SavePdf? || e.SaveText? || e.SaveInvoice?
  }

  /** The file a save writes: `save_pdf`, `save_extracted_text` and `save_invoice_data`'s output paths. */
  function SavedPath(c: Config, e: Effect): string
    requires IsSave(e)
  {
    match e
    case SavePdf(t, f, _) => PdfPath(c.outputDir, t, f)
    case SaveText(t, f, _) => TextPath(c.outputDir, t, f)
    case SaveInvoice(t, f, _) => InvoicePath(c.outputDir, t, f)
  }

  predicate OnlySaves(e: seq<Effect>) {
    forall k :: 0 <= k < |e| ==> IsSave(e[k])
  }

  lemma OnlySavesAppend(a: seq<Effect>, b: seq<Effect>)
    requires OnlySaves(a) && OnlySaves(b)
    ensures OnlySaves(a + b)
  {
  }

  /** The payload passes `validate_pdf` (a missing payload makes `len` raise, which the attachment handler catches). */
  predicate Acceptable(c: Config, a: Attachment) {
    a.payload.Some? && ValidatePdf(a.payload.value, c.maxPdfMb)
  }

  /** What extraction makes of an acceptable attachment. */
  function ExtractionOf(env: Env, a: Attachment): ExtractionResult
    requires a.payload.Some?
  {
    env.extract(a.filename, a.payload.value)
  }

  /** The record `process_attachment` builds from the extracted text. */
  function RecordOf(env: Env, ex: ExtractionResult, meta: EmailMetadata, filename: string): InvoiceRecord {
    InvoiceRecord(env.parse(ex.text), meta, filename, ex.via)
  }

  /** The raw PDF saved, when raw saving is on. */
  function RawSave(c: Config, env: Env, a: Attachment, at: nat): (r: seq<Effect>)
    requires a.payload.Some?
    ensures |r| <= 1 && (r != [] ==> r[0].SavePdf?)
    ensures r != [] <==> c.saveRawEmails
  {
    if c.saveRawEmails then [SavePdf(env.clock(at), a.filename, a.payload.value)] else []
  }

  /** The extracted text saved, when text saving is on. */
  function TextSave(c: Config, env: Env, a: Attachment, ex: ExtractionResult, at: nat): (r: seq<Effect>)
    ensures |r| <= 1 && (r != [] ==> r[0].SaveText?)
    ensures r != [] <==> c.saveExtractedText
  {
    if c.saveExtractedText then [SaveText(env.clock(at), a.filename, ex.text)] else []
  }

  /** The invoice record saved, when the parsed fields pass validation. */
  function InvoiceSave(c: Config, env: Env, a: Attachment, ex: ExtractionResult, meta: EmailMetadata, at: nat): (r: seq<Effect>)
    ensures |r| <= 1 && (r != [] ==> r[0].SaveInvoice? && r[0].record == RecordOf(env, ex, meta, a.filename))
    ensures r != [] <==> ValidateInvoiceData(env.parse(ex.text))
  {
    var record := RecordOf(env, ex, meta, a.filename);
    if ValidateInvoiceData(record.invoice) then [SaveInvoice(env.clock(at), a.filename, record)] else []
  }

  /** Only saves, at most three, a raw PDF only first and an invoice only last. */
  predicate SaveShaped(e: seq<Effect>) {
    && |e| <= 3
    && OnlySaves(e)
    && (forall k :: 0 < k < |e| ==> !e[k].SavePdf?)
    && (forall k :: 0 <= k < |e| - 1 ==> !e[k].SaveInvoice?)
  }

  lemma SavesShape(raw: seq<Effect>, txt: seq<Effect>, inv: seq<Effect>)
    requires |raw| <= 1 && (raw != [] ==> raw[0].SavePdf?)
    requires |txt| <= 1 && (txt != [] ==> txt[0].SaveText?)
    requires |inv| <= 1 && (inv != [] ==> inv[0].SaveInvoice?)
    ensures SaveShaped(raw + txt + inv)
  {
  }

  /**
   * The effects of `process_attachment`, the first of them being the `at`-th
   * effect of the run: it only ever saves files, at most one of each kind,
   * the raw PDF first and the invoice last.
   */
  function AttachmentEffects(c: Config, env: Env, a: Attachment, meta: EmailMetadata, at: nat): (r: seq<Effect>)
    ensures SaveShaped(r)
  {
    if !Acceptable(c, a) then []
    else
      var raw := RawSave(c, env, a, at);
      var ex := ExtractionOf(env, a);
      if !ex.success then
        SavesShape(raw, [], []);
        assert raw + [] + [] == raw;
        raw
      else
        var txt := TextSave(c, env, a, ex, at + |raw|);
        var inv := InvoiceSave(c, env, a, ex, meta, at + |raw| + |txt|);
        SavesShape(raw, txt, inv);
        raw + txt + inv
  }

  /** The effects of processing the attachments in order: nothing but saves. */
  function AttachmentsEffects(c: Config, env: Env, atts: seq<Attachment>, meta: EmailMetadata, at: nat): (r: seq<Effect>)
    ensures OnlySaves(r)
    decreases |atts|
  {
    if atts == [] then []
    else
      var n := |atts| - 1;
      var init := AttachmentsEffects(c, env, atts[..n], meta, at);
      var last := AttachmentEffects(c, env, atts[n], meta, at + |init|);
      OnlySavesAppend(init, last);
      init + last
  }

  /** The driver's state: the two counters and the effects so far. */
  datatype State = State(processed: nat, failed: nat, effects: seq<Effect>)

  function Total(s: State): nat {
    s.processed + s.failed
  }

  /** The message `fetch_email` returns, if it is truthy (a message without header fields is falsy). */
  function Fetched(env: Env, id: bytes): Option<Message> {
    match env.fetch(id)
    case Some(msg) => if msg.headers == [] then None else Some(msg)
    case None => None
  }

  /**
   * The state after `process_email(id)` once the message is fetched and its
   * attachments `atts` and metadata `meta` are read: the attachments are
   * processed in order, the message is marked read, and it counts as
   * processed when it had attachments.
   */
  function MessageStep(c: Config, env: Env, id: bytes, atts: seq<Attachment>, meta: EmailMetadata, s: State): State {
    if atts == [] then s.(effects := s.effects + [MarkRead(id)])
    else
      var done := AttachmentsEffects(c, env, atts, meta, |s.effects|);
      State(s.processed + 1, s.failed, s.effects + done + [MarkRead(id)])
  }

  /** The state after `process_email(id)`. */
  function EmailStep(c: Config, env: Env, id: bytes, s: State): State {
    if !IsUtf8(id) then s.(failed := s.failed + 1)
    else
      match Fetched(env, id)
      case None => s.(failed := s.failed + 1)
      case Some(msg) =>
        MessageStep(c, env, id, Selected(msg.parts, c.allowedExtensions, env.codecs), GetEmailMetadata(msg, env.codecs), s)
  }

  /** The state after processing the ids in order. */
  function EmailsStep(c: Config, env: Env, ids: seq<bytes>, s: State): State
    decreases |ids|
  {
    if ids == [] then s
    else
      var n := |ids| - 1;
      EmailStep(c, env, ids[n], EmailsStep(c, env, ids[..n], s))
  }

  /** What `run` returns and the state it leaves. */
  function RunStep(c: Config, env: Env, s: State): (bool, State) {
    var last := [Disconnect, Cleanup];
    if !env.connectOk || !env.selectOk then (false, s.(effects := s.effects + last))
    else
      var ids := SearchEmails(env.search);
      if ids == [] then (true, s.(effects := s.effects + last))
      else
        var t := EmailsStep(c, env, ids, s);
        (true, t.(effects := t.effects + [Report(t.processed, t.failed)] + last))
  }
}
