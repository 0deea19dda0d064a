/**
 * What the driver guarantees: the gates of the attachment pipeline, the
 * counters of `process_email` and the shape of `run`, proved about the
 * specification in `App`; and the driver class itself, whose methods are
 * proved to follow that specification.
 */
module Driver {
  import opened Wrappers
  import opened Bytes
  import opened InvoiceParser
  import opened PdfProcessor
  import opened EmailClient
  import opened App

  // ---------------------------------------------------------------------
  // The attachment pipeline's gates

  /** An invalid or missing payload stops the pipeline before anything is saved. */
  lemma InvalidSavesNothing(c: Config, env: Env, a: Attachment, meta: EmailMetadata, at: nat)
    requires !Acceptable(c, a)
    ensures AttachmentEffects(c, env, a, meta, at) == []
  {
  }

  /** The raw PDF is saved exactly when it is acceptable and raw saving is on, and it is then the first effect. */
  lemma RawSavedIff(c: Config, env: Env, a: Attachment, meta: EmailMetadata, at: nat)
    ensures var e := AttachmentEffects(c, env, a, meta, at);
      (e != [] && e[0].SavePdf?) <==> Acceptable(c, a) && c.saveRawEmails
  {
  }

  /** A failed extraction saves neither text nor invoice. */
  lemma FailedExtractionSavesNoInvoice(c: Config, env: Env, a: Attachment, meta: EmailMetadata, at: nat)
    requires Acceptable(c, a) && !ExtractionOf(env, a).success
    ensures forall e :: e in AttachmentEffects(c, env, a, meta, at) ==> e.SavePdf?
  {
  }

  /**
   * An invoice is saved exactly when the payload is acceptable, text was
   * extracted and the parsed fields pass `validate_invoice_data`; the saved
   * record is the parse of the extracted text.
   */
  lemma InvoiceSavedIff(c: Config, env: Env, a: Attachment, meta: EmailMetadata, at: nat)
    ensures var e := AttachmentEffects(c, env, a, meta, at);
      (e != [] && e[|e| - 1].SaveInvoice?) <==>
        && Acceptable(c, a)
        && ExtractionOf(env, a).success
        && ValidateInvoiceData(env.parse(ExtractionOf(env, a).text))
    ensures var e := AttachmentEffects(c, env, a, meta, at);
      e != [] && e[|e| - 1].SaveInvoice? ==>
        e[|e| - 1].record == RecordOf(env, ExtractionOf(env, a), meta, a.filename)
  {
  }

  /**
   * With the application's parser, a saved invoice has a non-empty invoice
   * number and a non-zero total, some invoice-number pattern matched the
   * extracted text, and the total is what the total patterns find there.
   */
  lemma SavedInvoiceIsValid(c: Config, env: Env, a: Attachment, meta: EmailMetadata, at: nat)
    requires env.parse == ParseInvoice
    ensures var e := AttachmentEffects(c, env, a, meta, at);
      e != [] && e[|e| - 1].SaveInvoice? ==>
        var text := ExtractionOf(env, a).text;
        var inv := e[|e| - 1].record.invoice;
        && inv == ParseInvoice(text)
        && inv.invoiceNumber.Some? && inv.invoiceNumber.value != ""
        && inv.totalAmount == ExtractTotalAmount(text) && inv.totalAmount.Some? && inv.totalAmount.value > 0
        && !NoRuleMatches(InvoiceNumberRules, text, true)
  {
    var e := AttachmentEffects(c, env, a, meta, at);
    InvoiceSavedIff(c, env, a, meta, at);
    if e != [] && e[|e| - 1].SaveInvoice? {
      ParseInvoiceValid(ExtractionOf(env, a).text);
    }
  }

  /**
   * Processing one more attachment appends its effects, stamped from where
   * the earlier ones end, to what the earlier attachments left behind.
   */
  lemma AttachmentsEffectsStep(c: Config, env: Env, atts: seq<Attachment>, i: nat, meta: EmailMetadata, before: seq<Effect>)
    requires i < |atts|
    ensures var prior := before + AttachmentsEffects(c, env, atts[..i], meta, |before|);
      before + AttachmentsEffects(c, env, atts[..i + 1], meta, |before|)
      == prior + AttachmentEffects(c, env, atts[i], meta, |prior|)
  {
    var earlier := AttachmentsEffects(c, env, atts[..i], meta, |before|);
    var next := AttachmentEffects(c, env, atts[i], meta, |before + earlier|);
    assert AttachmentsEffects(c, env, atts[..i + 1], meta, |before|) == earlier + next by {
      assert atts[..i + 1][..i] == atts[..i];
    }
    AppendAssoc(before, earlier, next);
  }

  lemma AppendAssoc<T>(a: seq<T>, b: seq<T>, c: seq<T>)
    ensures a + (b + c) == a + b + c
  {
  }

  // ---------------------------------------------------------------------
  // The counters of process_email

  /** A message that cannot be fetched counts as failed and is not marked read. */
  lemma FetchFailureCounted(c: Config, env: Env, id: bytes, s: State)
    requires IsUtf8(id) && Fetched(env, id).None?
    ensures EmailStep(c, env, id, s) == s.(failed := s.failed + 1)
  {
  }

  /** An id that is not UTF-8 makes `decode` raise before anything else: it counts as failed. */
  lemma UndecodableIdCounted(c: Config, env: Env, id: bytes, s: State)
    requires !IsUtf8(id)
    ensures EmailStep(c, env, id, s) == s.(failed := s.failed + 1)
  {
  }

  /** An email without accepted attachments is marked read and leaves both counters alone. */
  lemma NoAttachmentsMarkedRead(c: Config, env: Env, id: bytes, s: State, msg: Message)
    requires IsUtf8(id) && Fetched(env, id) == Some(msg)
    requires Selected(msg.parts, c.allowedExtensions, env.codecs) == []
    ensures EmailStep(c, env, id, s) == s.(effects := s.effects + [MarkRead(id)])
  {
  }

  /**
   * An email with attachments has them processed in order, is then marked
   * read, and counts as processed.
   */
  lemma AttachmentsProcessedThenMarked(c: Config, env: Env, id: bytes, s: State, msg: Message)
    requires IsUtf8(id) && Fetched(env, id) == Some(msg)
    requires Selected(msg.parts, c.allowedExtensions, env.codecs) != []
    ensures EmailStep(c, env, id, s)
      == State(s.processed + 1, s.failed,
               s.effects
               + AttachmentsEffects(c, env, Selected(msg.parts, c.allowedExtensions, env.codecs),
                                    GetEmailMetadata(msg, env.codecs), |s.effects|)
               + [MarkRead(id)])
  {
  }

  /**
   * Each email raises processed + failed by at most one, never lowers
   * either counter, and leaves the total unchanged exactly when the email
   * was fetched and had no accepted attachments.
   */
  lemma EmailStepCounts(c: Config, env: Env, id: bytes, s: State)
    ensures var t := EmailStep(c, env, id, s);
      && s.processed <= t.processed && s.failed <= t.failed
      && (Total(t) == Total(s) || Total(t) == Total(s) + 1)
      && (Total(t) == Total(s) <==>
            IsUtf8(id) && Fetched(env, id).Some?
            && Selected(Fetched(env, id).value.parts, c.allowedExtensions, env.codecs) == [])
  {
  }

  /** Processing only appends effects. */
  lemma EmailStepExtends(c: Config, env: Env, id: bytes, s: State)
    ensures var t := EmailStep(c, env, id, s);
      |s.effects| <= |t.effects| && t.effects[..|s.effects|] == s.effects
  {
  }

  /** Over a batch, the counters never go down and their sum rises by at most the number of emails. */
  lemma {:induction false} EmailsStepCounts(c: Config, env: Env, ids: seq<bytes>, s: State)
    ensures var t := EmailsStep(c, env, ids, s);
      && s.processed <= t.processed && s.failed <= t.failed
      && Total(s) <= Total(t) <= Total(s) + |ids|
      && |s.effects| <= |t.effects| && t.effects[..|s.effects|] == s.effects
    decreases |ids|
  {
    if ids != [] {
      var n := |ids| - 1;
      EmailsStepCounts(c, env, ids[..n], s);
      var m := EmailsStep(c, env, ids[..n], s);
      EmailStepCounts(c, env, ids[n], m);
      EmailStepExtends(c, env, ids[n], m);
      assert m.effects[..|s.effects|] == s.effects;
    }
  }

  /** When every email fails to fetch, each counts as failed. */
  lemma {:induction false} AllFetchesFail(c: Config, env: Env, ids: seq<bytes>, s: State)
    requires forall k :: 0 <= k < |ids| ==> IsUtf8(ids[k]) && Fetched(env, ids[k]).None?
    ensures EmailsStep(c, env, ids, s) == s.(failed := s.failed + |ids|)
    decreases |ids|
  {
    if ids != [] {
      var n := |ids| - 1;
      AllFetchesFail(c, env, ids[..n], s);
    }
  }

  // ---------------------------------------------------------------------
  // run

  /** `run` always disconnects and cleans up, whatever happened before. */
  lemma RunAlwaysCleansUp(c: Config, env: Env, s: State)
    ensures var t := RunStep(c, env, s).1;
      |t.effects| >= 2 && t.effects[|t.effects| - 2..] == [Disconnect, Cleanup]
  {
  }

  /** `run` fails exactly when connecting or selecting the inbox fails, and then it processes nothing. */
  lemma RunFailsOnlyBeforeProcessing(c: Config, env: Env, s: State)
    ensures !RunStep(c, env, s).0 <==> !env.connectOk || !env.selectOk
    ensures !RunStep(c, env, s).0 ==> RunStep(c, env, s).1 == s.(effects := s.effects + [Disconnect, Cleanup])
  {
  }

  /** With no unread emails `run` succeeds without writing a report. */
  lemma NoUnreadNoReport(c: Config, env: Env, s: State)
    requires env.connectOk && env.selectOk && SearchEmails(env.search) == []
    ensures RunStep(c, env, s) == (true, s.(effects := s.effects + [Disconnect, Cleanup]))
  {
  }

  /**
   * With unread emails the report is written just before disconnecting; it
   * carries the final counters, whose sum grew by at most the number of ids.
   */
  lemma ReportCounts(c: Config, env: Env, s: State)
    requires env.connectOk && env.selectOk && SearchEmails(env.search) != []
    ensures var (ok, t) := RunStep(c, env, s);
      && ok
      && |t.effects| >= 3
      && t.effects[|t.effects| - 3] == Report(t.processed, t.failed)
      && Total(s) <= Total(t) <= Total(s) + |SearchEmails(env.search)|
  {
    EmailsStepCounts(c, env, SearchEmails(env.search), s);
  }

  // ---------------------------------------------------------------------
  // The driver itself

  class EmailFilterApp {
    const config: Config
    const env: Env
    var processedCount: nat
    var failedCount: nat
    var effects: seq<Effect>

    function Current(): State
      reads this
    {
      State(processedCount, failedCount, effects)
    }

    constructor(config: Config, env: Env)
      requires Wired(env)
      ensures this.config == config && this.env == env
      ensures Current() == State(0, 0, [])
    {
      this.config := config;
      this.env := env;
      processedCount := 0;
      failedCount := 0;
      effects := [];
    }

    /** `process_attachment`: each gate returns early; the counters are not touched. */
    method ProcessAttachment(a: Attachment, meta: EmailMetadata)
      modifies this
      ensures processedCount == old(processedCount) && failedCount == old(failedCount)
      ensures effects == old(effects) + AttachmentEffects(config, env, a, meta, |old(effects)|)
    {
      var at := |effects|;
      if a.payload.None? {
        return;
      }
      var data := a.payload.value;
      if !ValidatePdf(data, config.maxPdfMb) {
        return;
      }
      if config.saveRawEmails {
        effects := effects + [SavePdf(env.clock(|effects|), a.filename, data)];
      }
      var ex := env.extract(a.filename, data);
      if !ex.success {
        return;
      }
      if config.saveExtractedText {
        effects := effects + [SaveText(env.clock(|effects|), a.filename, ex.text)];
      }
      var invoice := env.parse(ex.text);
      var record := InvoiceRecord(invoice, meta, a.filename, ex.via);
      if ValidateInvoiceData(invoice) {
        effects := effects + [SaveInvoice(env.clock(|effects|), a.filename, record)];
      }
    }

    /** `process_email`: an id that cannot be decoded or fetched counts as failed; otherwise the message is processed. */
    method ProcessEmail(id: bytes)
      modifies this
      ensures Current() == EmailStep(config, env, id, old(Current()))
    {
      if !IsUtf8(id) {
        failedCount := failedCount + 1;
        return;
      }
      var msg := env.fetch(id);
      if msg.None? || msg.value.headers == [] {
        failedCount := failedCount + 1;
        return;
      }
      var meta := GetEmailMetadata(msg.value, env.codecs);
      var attachments := GetAttachments(msg.value, config.allowedExtensions, env.codecs);
      ProcessMessage(id, attachments, meta);
    }

    /** The rest of `process_email`: process the attachments in order, mark read, count. */
    method ProcessMessage(id: bytes, attachments: seq<Attachment>, meta: EmailMetadata)
      modifies this
      ensures Current() == MessageStep(config, env, id, attachments, meta, old(Current()))
    {
      if attachments == [] {
        effects := effects + [MarkRead(id)];
        return;
      }
      ProcessAttachments(attachments, meta);
      effects, processedCount := effects + [MarkRead(id)], processedCount + 1;
    }

    /** The loop of `process_email` over the selected attachments, in order. */
    method ProcessAttachments(attachments: seq<Attachment>, meta: EmailMetadata)
      modifies this
      ensures processedCount == old(processedCount) && failedCount == old(failedCount)
      ensures effects == old(effects) + AttachmentsEffects(config, env, attachments, meta, |old(effects)|)
    {
      ghost var before := effects;
      for i := 0 to |attachments|
        invariant processedCount == old(processedCount) && failedCount == old(failedCount)
        invariant effects == before + AttachmentsEffects(config, env, attachments[..i], meta, |before|)
      {
        ProcessAttachment(attachments[i], meta);
        AttachmentsEffectsStep(config, env, attachments, i, meta, before);
      }
      assert attachments[..|attachments|] == attachments;
    }

    /** `run`: returns whether the run succeeded; disconnect and cleanup run on every path. */
    method Run() returns (ok: bool)
      modifies this
      ensures (ok, Current()) == RunStep(config, env, old(Current()))
    {
      if !env.connectOk || !env.selectOk {
        ok := false;
      } else {
        var ids := SearchEmails(env.search);
        if ids == [] {
          ok := true;
        } else {
          for i := 0 to |ids|
            invariant Current() == EmailsStep(config, env, ids[..i], old(Current()))
          {
            assert ids[..i + 1][..i] == ids[..i];
            ProcessEmail(ids[i]);
          }
          assert ids[..|ids|] == ids;
          effects := effects + [Report(processedCount, failedCount)];
          ok := true;
        }
      }
      effects := effects + [Disconnect, Cleanup];
    }
  }
}
