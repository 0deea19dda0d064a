/**
 * Output naming of the data manager (data_manager.py): filename
 * sanitising, extension stripping with the rules of `os.path.splitext`,
 * path joining with the rules of `os.path.join` on POSIX, the names of the
 * saved PDF, text and invoice files, and the text of the summary report.
 * Writing the files is left out; the timestamps are parameters.
 */
module DataManager {
  import opened Wrappers
  import opened Text

  /** The characters `_sanitize_filename` replaces, in the order it replaces them. */
  const UnsafeChars: string := "<>:\"/\\|?*"

  const MaxNameLength: nat := 200

  predicate IsUnsafe(c: char) {
    c in UnsafeChars
  }

  /** `c` replaced by `_` wherever it occurs: Python's `s.replace(c, '_')` for one character. */
  function ReplaceChar(s: string, c: char): (r: string)
    ensures |r| == |s|
    ensures forall k :: 0 <= k < |s| ==> r[k] == (if s[k] == c then '_' else s[k])
  {
    seq(|s|, k requires 0 <= k < |s| => if s[k] == c then '_' else s[k])
  }

  /** Every character of `cs` replaced by `_`. */
  function ReplaceAll(s: string, cs: string): (r: string)
    ensures |r| == |s|
  {
    seq(|s|, k requires 0 <= k < |s| => if s[k] in cs then '_' else s[k])
  }

  /** The sanitised name: each unsafe character replaced by `_`, then cut to 200 characters. */
  function Sanitized(s: string): string {
    var r := ReplaceAll(s, UnsafeChars);
    if |r| <= MaxNameLength then r else r[..MaxNameLength]
  }

  /** `_sanitize_filename` */
  method SanitizeFilename(filename: string) returns (r: string)
    ensures r == Sanitized(filename)
  {
    var name := filename;
    for n := 0 to |UnsafeChars|
      invariant name == ReplaceAll(filename, UnsafeChars[..n])
    {
      assert UnsafeChars[..n + 1] == UnsafeChars[..n] + [UnsafeChars[n]];
      name := ReplaceChar(name, UnsafeChars[n]);
    }
    assert UnsafeChars[..|UnsafeChars|] == UnsafeChars;
    r := if |name| <= MaxNameLength then name else name[..MaxNameLength];
  }

  /**
   * What sanitising promises: no unsafe character survives, the result is at
   * most 200 characters, every unsafe character becomes `_` in place and
   * every other character is kept in place, and a name of at most 200
   * characters keeps its length.
   */
  lemma SanitizedSpec(s: string)
    ensures var r := Sanitized(s);
      && |r| <= MaxNameLength
      && (|s| <= MaxNameLength ==> |r| == |s|)
      && (|s| > MaxNameLength ==> |r| == MaxNameLength)
      && (forall k :: 0 <= k < |r| ==> !IsUnsafe(r[k]))
      && (forall k :: 0 <= k < |r| ==> r[k] == if IsUnsafe(s[k]) then '_' else s[k])
  {
  }

  /** Sanitising twice gives what sanitising once gives. */
  lemma SanitizeIdempotent(s: string)
    ensures Sanitized(Sanitized(s)) == Sanitized(s)
  {
    var r := Sanitized(s);
    SanitizedSpec(s);
    SanitizedSpec(r);
    assert ReplaceAll(r, UnsafeChars) == r;
  }

  /** The index of the last occurrence of `c` in `s`, if any (`str.rfind`). */
  function LastIndex(s: string, c: char): (r: Option<nat>)
    ensures r.Some? ==> r.value < |s| && s[r.value] == c && forall k :: r.value < k < |s| ==> s[k] != c
    ensures r.None? ==> !HasChar(s, c)
  {
    if s == [] then None
    else if s[|s| - 1] == c then Some(|s| - 1)
    else
      LastIndex(s[..|s| - 1], c)
  }

  /**
   * The root `os.path.splitext` returns: the name up to its last dot when
   * that dot comes after the last `/` and some character other than a dot
   * stands between them; otherwise the whole name.
   */
  function StripExtension(p: string): (r: string)
    ensures |r| <= |p| && r == p[..|r|]
  {
    var sep := match LastIndex(p, '/') case None => -1 case Some(i) => i as int;
    match LastIndex(p, '.')
    case None => p
    case Some(dot) =>
      if dot > sep && exists k | sep + 1 <= k < dot :: p[k] != '.' then p[..dot] else p
  }

  /** What extension stripping removes is either nothing or a dot followed by neither dot nor `/`. */
  lemma StripExtensionSpec(p: string)
    ensures var r := StripExtension(p);
      r == p || (p[|r|] == '.' && forall k :: |r| < k < |p| ==> p[k] != '.' && p[k] != '/')
  {
  }

  /** Stripping the extension from `name + ext` gives `name` back, for a name with a character other than `.` and `/` and an extension `.x` without either. */
  lemma StripAddedExtension(name: string, ext: string)
    requires exists k | 0 <= k < |name| :: name[k] != '.' && name[k] != '/'
    requires |ext| >= 1 && ext[0] == '.' && forall k :: 1 <= k < |ext| ==> ext[k] != '.' && ext[k] != '/'
    requires !HasChar(name, '/')
    ensures StripExtension(name + ext) == name
  {
    var p := name + ext;
    assert p[|name|] == '.';
    var dot := LastIndex(p, '.').value;
    assert dot == |name|;
    assert LastIndex(p, '/').None?;
    var k :| 0 <= k < |name| && name[k] != '.' && name[k] != '/';
    assert p[k] != '.';
  }

  /** A name whose characters before its last dot are all dots keeps its whole name: `.pdf` and `..x` have no extension. */
  lemma StripLeadingDotsOnly(dots: string, ext: string)
    requires forall k :: 0 <= k < |dots| ==> dots[k] == '.'
    requires forall k :: 0 <= k < |ext| ==> ext[k] != '.' && ext[k] != '/'
    ensures StripExtension(dots + "." + ext) == dots + "." + ext
  {
    var p := dots + "." + ext;
    assert p[|dots|] == '.';
    assert forall k :: |dots| < k < |p| ==> p[k] == ext[k - |dots| - 1];
    var dot := LastIndex(p, '.').value;
    assert dot == |dots|;
    assert forall k :: 0 <= k < dot ==> p[k] == dots[k];
  }

  /** `os.path.join(a, b)` on POSIX: an absolute `b` replaces `a`; otherwise a `/` is put between unless `a` is empty or ends with one. */
  function Join(a: string, b: string): (r: string)
    ensures StartsWith(b, "/") ==> r == b
    ensures !StartsWith(b, "/") ==> EndsWith(r, b)
  {
    if StartsWith(b, "/") then b
    else if a == [] || EndsWith(a, "/") then a + b
    else a + "/" + b
  }

  /** `{timestamp}_{sanitised name}`, the name of a saved PDF. */
  function PdfFileName(timestamp: string, filename: string): string {
    timestamp + "_" + Sanitized(filename)
  }

  /** `{timestamp}_{base}.txt`, the name of a saved text. */
  function TextFileName(timestamp: string, filename: string): string {
    timestamp + "_" + StripExtension(Sanitized(filename)) + ".txt"
  }

  /** `{timestamp}_{base}.json`, the name of a saved invoice. */
  function InvoiceFileName(timestamp: string, filename: string): string {
    timestamp + "_" + StripExtension(Sanitized(filename)) + ".json"
  }

  /** Where `save_pdf` writes. */
  function PdfPath(outputDir: string, timestamp: string, filename: string): string {
    Join(Join(outputDir, "pdfs"), PdfFileName(timestamp, filename))
  }

  /** Where `save_extracted_text` writes. */
  function TextPath(outputDir: string, timestamp: string, filename: string): string {
    Join(Join(outputDir, "text"), TextFileName(timestamp, filename))
  }

  /** Where `save_invoice_data` writes. */
  function InvoicePath(outputDir: string, timestamp: string, filename: string): string {
    Join(Join(outputDir, "invoices"), InvoiceFileName(timestamp, filename))
  }

  /** A timestamp as `%Y%m%d_%H%M%S` writes it: digits and underscores, never empty. */
  predicate IsTimestamp(t: string) {
    |t| > 0 && forall k :: 0 <= k < |t| ==> IsDigit(t[k]) || t[k] == '_'
  }

  /** Joining a name that does not start with `/` onto a non-empty directory that does not end with one puts one `/` between. */
  lemma JoinBelow(dir: string, name: string)
    requires dir != [] && !EndsWith(dir, "/") && !HasChar(name, '/')
    ensures Join(dir, name) == dir + "/" + name
  {
  }

  /** A subdirectory of the output directory: non-empty, not ending with `/`. */
  lemma SubdirectoryShape(outputDir: string, sub: string)
    requires sub != [] && sub[0] != '/' && sub[|sub| - 1] != '/'
    ensures Join(outputDir, sub) != [] && !EndsWith(Join(outputDir, sub), "/")
  {
    assert sub[..1] == [sub[0]];
    var d := Join(outputDir, sub);
    assert d[|d| - |sub|..] == sub;
    assert d[|d| - 1] == sub[|sub| - 1] by {
      assert d[|d| - |sub|..][|sub| - 1] == d[|d| - 1];
    }
    assert d[|d| - 1..] == [d[|d| - 1]];
  }

  /** The saved file names never contain `/`, whatever the original filename. */
  lemma FileNamesHaveNoSlash(timestamp: string, filename: string)
    requires IsTimestamp(timestamp)
    ensures !HasChar(PdfFileName(timestamp, filename), '/')
    ensures !HasChar(TextFileName(timestamp, filename), '/')
    ensures !HasChar(InvoiceFileName(timestamp, filename), '/')
  {
    SanitizedSpec(filename);
    var s := Sanitized(filename);
    var b := StripExtension(s);
    assert !HasChar(s, '/') by {
      assert forall k :: 0 <= k < |s| ==> s[k] != '/';
    }
    assert !HasChar(b, '/') by {
      assert forall k :: 0 <= k < |b| ==> b[k] == s[k];
    }
    NoSlashJoin(timestamp + "_", s);
    NoSlashJoin(timestamp + "_", b + ".txt");
    NoSlashJoin(timestamp + "_", b + ".json");
    assert timestamp + "_" + b + ".txt" == timestamp + "_" + (b + ".txt");
    assert timestamp + "_" + b + ".json" == timestamp + "_" + (b + ".json");
  }

  /**
   * A saved file always lands directly inside its subdirectory: its path is
   * the subdirectory, a `/`, and a file name with no `/` in it, however the
   * original filename looks.
   */
  lemma SavedFilesStayInSubdirectory(outputDir: string, timestamp: string, filename: string)
    requires IsTimestamp(timestamp)
    ensures PdfPath(outputDir, timestamp, filename) == Join(outputDir, "pdfs") + "/" + PdfFileName(timestamp, filename)
    ensures TextPath(outputDir, timestamp, filename) == Join(outputDir, "text") + "/" + TextFileName(timestamp, filename)
    ensures InvoicePath(outputDir, timestamp, filename) == Join(outputDir, "invoices") + "/" + InvoiceFileName(timestamp, filename)
    ensures !HasChar(PdfFileName(timestamp, filename), '/')
    ensures !HasChar(TextFileName(timestamp, filename), '/')
    ensures !HasChar(InvoiceFileName(timestamp, filename), '/')
  {
    FileNamesHaveNoSlash(timestamp, filename);
    var pdf, text, invoice := PdfFileName(timestamp, filename), TextFileName(timestamp, filename), InvoiceFileName(timestamp, filename);
    SubdirectoryShape(outputDir, "pdfs");
    SubdirectoryShape(outputDir, "text");
    SubdirectoryShape(outputDir, "invoices");
    JoinBelow(Join(outputDir, "pdfs"), pdf);
    JoinBelow(Join(outputDir, "text"), text);
    JoinBelow(Join(outputDir, "invoices"), invoice);
  }

  lemma NoSlashJoin(a: string, b: string)
    requires !HasChar(a, '/') && !HasChar(b, '/')
    ensures !HasChar(a + b, '/')
  {
  }

  /** The text and invoice files are named after the same base, so dropping their extension gives the same stem. */
  lemma TextAndInvoiceShareStem(timestamp: string, filename: string)
    requires IsTimestamp(timestamp)
    ensures StripExtension(TextFileName(timestamp, filename)) == timestamp + "_" + StripExtension(Sanitized(filename))
    ensures StripExtension(InvoiceFileName(timestamp, filename)) == timestamp + "_" + StripExtension(Sanitized(filename))
  {
    var s := Sanitized(filename);
    var stem := timestamp + "_" + StripExtension(s);
    SanitizedSpec(filename);
    assert !HasChar(StripExtension(s), '/') by {
      assert forall k :: 0 <= k < |StripExtension(s)| ==> StripExtension(s)[k] == s[k];
    }
    NoSlashJoin(timestamp + "_", StripExtension(s));
    assert stem[0] != '.' && stem[0] != '/';
    assert TextFileName(timestamp, filename) == stem + ".txt";
    assert InvoiceFileName(timestamp, filename) == stem + ".json";
    StripAddedExtension(stem, ".txt");
    StripAddedExtension(stem, ".json");
  }

  /** The indentation the report's continuation lines carry. */
  const Indent: string := "            "

  /** The text `create_summary_report` writes. */
  function SummaryReport(generated: string, processed: nat, failed: nat): string {
    "Email Processing Summary\n"
    + Indent + "============================\n"
    + Indent + "Generated: " + generated + "\n"
    + Indent + "\n"
    + Indent + "Successfully Processed: " + Decimal(processed) + "\n"
    + Indent + "Failed: " + Decimal(failed) + "\n"
    + Indent + "Total: " + Decimal(processed + failed) + "\n"
    + Indent
  }

  /** The report's last figure is the total, and it reads back as processed plus failed. */
  lemma SummaryTotal(generated: string, processed: nat, failed: nat)
    ensures var total := Decimal(processed + failed);
      EndsWith(SummaryReport(generated, processed, failed), "Total: " + total + "\n" + Indent)
      && DigitsValue(total) == processed + failed
  {
    DecimalRoundTrip(processed + failed);
    var total := Decimal(processed + failed);
    var r := SummaryReport(generated, processed, failed);
    var tail := "Total: " + total + "\n" + Indent;
    var head := "Email Processing Summary\n"
      + Indent + "============================\n"
      + Indent + "Generated: " + generated + "\n"
      + Indent + "\n"
      + Indent + "Successfully Processed: " + Decimal(processed) + "\n"
      + Indent + "Failed: " + Decimal(failed) + "\n"
      + Indent;
    assert r == head + tail;
  }
}
