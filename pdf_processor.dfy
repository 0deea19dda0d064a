/**
 * PDF acceptance and text extraction. The PDF library and the OCR engine
 * are not modelled: what they return (or the exception they raise) is an
 * input. What is modelled is the size and signature check, the choice
 * between the digital-text extractor and OCR, and the joining of page texts.
 */
module PdfProcessor {
  import opened Wrappers
  import opened Text
  import opened Bytes

  /** The largest accepted size, in bytes, for a limit of `maxMb` megabytes (1 MB = 1024 * 1024 bytes). */
  function MaxBytes(maxMb: int): int {
    maxMb * 1048576
  }

  /** The four bytes `%PDF` every accepted file starts with. */
  const PdfSignature: bytes := [0x25, 0x50, 0x44, 0x46]

  /** The size in megabytes as the source computes it: a true division by 1024 * 1024. */
  function SizeMb(n: nat): real {
    n as real / 1048576.0
  }

  /** Comparing the megabyte size with a whole number of megabytes is an exact comparison of byte counts. */
  lemma SizeCheckExact(n: nat, maxMb: int)
    ensures SizeMb(n) > maxMb as real <==> n > MaxBytes(maxMb)
  {
    var q := SizeMb(n);
    assert q * 1048576.0 == n as real;
    if n > MaxBytes(maxMb) {
      assert q * 1048576.0 > MaxBytes(maxMb) as real;
    } else {
      assert q * 1048576.0 <= MaxBytes(maxMb) as real;
    }
  }

  /**
   * `validate_pdf`: the data is rejected when it is larger than `maxMb`
   * megabytes, and otherwise accepted exactly when it starts with `%PDF`.
   */
  function ValidatePdf(data: bytes, maxMb: int): (r: bool)
    ensures r <==> |data| <= MaxBytes(maxMb) && |data| >= 4 && data[..4] == PdfSignature
  {
    SizeCheckExact(|data|, maxMb);
    if SizeMb(|data|) > maxMb as real then false
    else |PdfSignature| <= |data| && data[..|PdfSignature|] == PdfSignature
  }

  datatype ExtractionMethod = NoMethod | Pdfplumber | Ocr

  /** The dictionary `extract_text_from_pdf` returns; `error` is the optional `'error'` key. */
  datatype ExtractionResult = ExtractionResult(
    filename: string,
    text: string,
    via: ExtractionMethod,
    pageCount: nat,
    success: bool,
    error: Option<string>)

  /** The text of a page counts when the library gave one and it is not empty. */
  predicate HasText(page: Option<string>) {
    page.Some? && page.value != ""
  }

  /** The accumulated text before the final strip: each page with text, followed by a line feed, in page order. */
  function Joined(pages: seq<Option<string>>): string {
    if pages == [] then ""
    else
      var last := pages[|pages| - 1];
      Joined(pages[..|pages| - 1]) + (if HasText(last) then last.value + "\n" else "")
  }

  /** Joining distributes over concatenation of the page list. */
  lemma {:induction false} JoinedAppend(a: seq<Option<string>>, b: seq<Option<string>>)
    ensures Joined(a + b) == Joined(a) + Joined(b)
    decreases |b|
  {
    if b == [] {
      assert a + b == a;
    } else {
      var c := b[..|b| - 1];
      assert (a + b)[..|a + b| - 1] == a + c;
      JoinedAppend(a, c);
    }
  }

  /** Pages without text contribute nothing. */
  lemma {:induction false} JoinedNoText(pages: seq<Option<string>>)
    requires forall k :: 0 <= k < |pages| ==> !HasText(pages[k])
    ensures Joined(pages) == ""
  {
    if pages != [] {
      JoinedNoText(pages[..|pages| - 1]);
    }
  }

  /** Every page with text appears, followed by a line feed, at the place its predecessors end. */
  lemma JoinedContainsPage(pages: seq<Option<string>>, k: nat)
    requires k < |pages| && HasText(pages[k])
    ensures OccursAt(Joined(pages), pages[k].value + "\n", |Joined(pages[..k])|)
  {
    var t := pages[k].value + "\n";
    assert pages == pages[..k] + [pages[k]] + pages[k + 1..];
    JoinedAppend(pages[..k] + [pages[k]], pages[k + 1..]);
    JoinedAppend(pages[..k], [pages[k]]);
    assert Joined([pages[k]]) == t by {
      assert [pages[k]][..0] == [];
    }
    var j := Joined(pages);
    var p := Joined(pages[..k]);
    assert j == p + t + Joined(pages[k + 1..]);
    assert j[|p|..|p| + |t|] == t;
  }

  /**
   * The joining loop of `_extract_with_pdfplumber`: each page's text plus a
   * line feed is appended in page order, skipping pages without text, and
   * the whole is stripped.
   */
  method JoinPageTexts(pages: seq<Option<string>>) returns (r: string)
    ensures r == Strip(Joined(pages))
  {
    var text := "";
    for i := 0 to |pages|
      invariant text == Joined(pages[..i])
    {
      assert pages[..i + 1][..i] == pages[..i];
      var page := pages[i];
      if page.Some? && page.value != "" {
        text := text + page.value + "\n";
      }
    }
    assert pages[..|pages|] == pages;
    r := Strip(text);
  }

  /** Stripped text longer than this many characters counts as meaningful digital text. */
  const MeaningfulLength: nat := 50

  /** The text the digital extractor yields for the given pages. */
  function PlumberText(pages: seq<Option<string>>): string {
    Strip(Joined(pages))
  }

  /** The digital extractor's text is used: it returned, and its text is long enough. */
  predicate UsesPlumber(plumber: Outcome<seq<Option<string>>>) {
    plumber.Returned? && |Strip(PlumberText(plumber.value))| > MeaningfulLength
  }

  /**
   * The dictionary `extract_text_from_pdf` returns. `plumber` is what the
   * PDF library does with the data (it raises, or yields each page's text,
   * possibly none), `ocr` is what the OCR path does (it raises, or yields
   * the stripped OCR text).
   */
  function Extracted(filename: string, plumber: Outcome<seq<Option<string>>>, ocr: Outcome<string>): ExtractionResult {
    var initial := ExtractionResult(filename, "", NoMethod, 0, false, None);
    match plumber
    case Raised(e) => initial.(error := Some(e))
    case Returned(pages) =>
      var text := PlumberText(pages);
      if text != "" && |Strip(text)| > MeaningfulLength then
        initial.(text := text, via := Pdfplumber, success := true)
      else
        match ocr
        case Raised(e) => initial.(error := Some(e))
        case Returned(t) => initial.(text := t, via := Ocr, success := t != "")
  }

  /** The decision `extract_text_from_pdf` makes, case by case. */
  lemma ExtractedSpec(filename: string, plumber: Outcome<seq<Option<string>>>, ocr: Outcome<string>)
    ensures var result := Extracted(filename, plumber, ocr);
      && result.filename == filename && result.pageCount == 0
      // the digital text wins when it is long enough
      && (result.via == Pdfplumber <==> UsesPlumber(plumber))
      && (UsesPlumber(plumber) ==>
            result.text == PlumberText(plumber.value) && result.success && result.error == None)
      // otherwise OCR decides, and succeeds exactly when it yields text
      && (result.via == Ocr <==> plumber.Returned? && !UsesPlumber(plumber) && ocr.Returned?)
      && (result.via == Ocr ==> result.text == ocr.value && result.error == None)
      // an exception in either extractor leaves the initial values and records its message
      && (result.error.Some? <==> plumber.Raised? || (!UsesPlumber(plumber) && ocr.Raised?))
      && (result.error.Some? ==>
            result.via == NoMethod && result.text == "" && !result.success
            && result.error.value == (if plumber.Raised? then plumber.message else ocr.message))
      // in every case success means some text was extracted
      && (result.success <==> result.text != "")
  {
  }

  /** `extract_text_from_pdf`: the result starts empty and is filled in step by step. */
  method ExtractTextFromPdf(filename: string, plumber: Outcome<seq<Option<string>>>, ocr: Outcome<string>)
    returns (result: ExtractionResult)
    ensures result == Extracted(filename, plumber, ocr)
  {
    result := ExtractionResult(filename, "", NoMethod, 0, false, None);
    match plumber {
      case Raised(e) =>
        result := result.(error := Some(e));
      case Returned(pages) =>
        var text := JoinPageTexts(pages);
        if text != "" && |Strip(text)| > MeaningfulLength {
          result := result.(text := text, via := Pdfplumber, success := true);
        } else {
          match ocr {
            case Raised(e) =>
              result := result.(error := Some(e));
            case Returned(t) =>
              result := result.(text := t, via := Ocr, success := t != "");
          }
        }
    }
  }

  /** A document the PDF library opened: its page count and its metadata dictionary. */
  datatype PdfDocument = PdfDocument(pageCount: nat, info: map<string, string>)

  datatype InfoFields = InfoFields(
    title: string, author: string, subject: string,
    creator: string, producer: string, creationDate: string)

  /** The dictionary `get_pdf_metadata` returns; `info` holds the six optional document fields. */
  datatype PdfMetadata = PdfMetadata(pageCount: nat, sizeBytes: nat, info: Option<InfoFields>)

  /** Python's `d.get(key, '')`. */
  function GetOrEmpty(d: map<string, string>, key: string): (v: string)
    ensures key in d ==> v == d[key]
    ensures key !in d ==> v == ""
  {
    if key in d then d[key] else ""
  }

  /**
   * `get_pdf_metadata`: the size is always the input's length; the page count
   * and the document fields come from the library when it opens the data,
   * and the fields only when the document has a non-empty metadata dictionary.
   */
  function GetPdfMetadata(data: bytes, doc: Outcome<PdfDocument>): (m: PdfMetadata)
    ensures m.sizeBytes == |data|
    ensures m.pageCount == (if doc.Returned? then doc.value.pageCount else 0)
    ensures m.info.Some? <==> doc.Returned? && doc.value.info != map[]
    ensures m.info.Some? ==>
      var d := doc.value.info;
      && ("Title" in d ==> m.info.value.title == d["Title"])
      && ("Title" !in d ==> m.info.value.title == "")
      && ("Author" in d ==> m.info.value.author == d["Author"])
      && ("Author" !in d ==> m.info.value.author == "")
      && ("Subject" in d ==> m.info.value.subject == d["Subject"])
      && ("Subject" !in d ==> m.info.value.subject == "")
      && ("Creator" in d ==> m.info.value.creator == d["Creator"])
      && ("Creator" !in d ==> m.info.value.creator == "")
      && ("Producer" in d ==> m.info.value.producer == d["Producer"])
      && ("Producer" !in d ==> m.info.value.producer == "")
      && ("CreationDate" in d ==> m.info.value.creationDate == d["CreationDate"])
      && ("CreationDate" !in d ==> m.info.value.creationDate == "")
  {
    var m := PdfMetadata(0, |data|, None);
    match doc
    case Raised(_) => m
    case Returned(pdf) =>
      var m := m.(pageCount := pdf.pageCount);
      if pdf.info == map[] then m
      else
        var d := pdf.info;
        m.(info := Some(InfoFields(
          GetOrEmpty(d, "Title"), GetOrEmpty(d, "Author"), GetOrEmpty(d, "Subject"),
          GetOrEmpty(d, "Creator"), GetOrEmpty(d, "Producer"), GetOrEmpty(d, "CreationDate"))))
  }
}
