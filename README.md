# Invoice email filter — a Dafny model

This project models the decision logic of a batch invoice-extraction pipeline and its small web backend. The pipeline works like this:

1. It connects to an IMAP mailbox, selects the inbox and searches for unread messages.
2. For every message it reads five headers and picks out the PDF attachments.
3. For each attachment it:
   - validates the PDF (size limit, then the `%PDF` signature);
   - optionally saves the raw file;
   - extracts text (the digital text layer when it has more than 50 meaningful characters, OCR otherwise);
   - optionally saves the text;
   - parses the invoice fields with ordered, case-insensitive regular expressions;
   - saves the record as JSON when the invoice number and total are present.
4. It marks the message read and keeps processed/failed counters.
5. It writes a summary report, then always disconnects and cleans up.

The backend has two parts:
- two read endpoints over an in-memory quarantine store;
- a list of upstream mailbox accounts, with endpoints to list, add, update and delete them and a lookup of a user's upstream route.

The code has no IMAP proxy and no quarantine approve/delete lifecycle: the quarantine store is only ever read.

Modules, one per source file or concern:

- `Wrappers`, `Http`, `Bytes`, `Text`: option/result values, error answers, byte strings, and the Python string operations the code uses.
  - Whitespace is `str.isspace`; `strip`, `split`, `upper` and `str(n)` are modelled.
  - UTF-8 well-formedness decides whether `email_id.decode()` raises.
- `Regex`: the fragment of Python's `re` the extractors use.
  - Patterns are sequences of greedy-quantified character classes.
  - `MatchFrom` follows the engine's backtracking order (longest count first).
  - The matcher is proved sound and complete against a declarative notion of parse.
  - `Search` is proved leftmost; `FindAll` is `re.finditer`, with non-overlapping matches and none skipped.
- `InvoiceParser` (invoice_parser.py): the seven extractors and `validate_invoice_data`, as pure functions. Amounts are integer cents.
- `QuarantineApi` (backend/main.py): the store as a class with a `map` field and its two endpoints.
- `AccountsApi` (backend/accounts_api.py): the account list as a class with a `seq` field.
  - The endpoints are methods; the route lookup and password masking are functions.
  - Email uniqueness is proved to be preserved by add, update and delete.
- `DataManager` (data_manager.py):
  - the sanitising loop, as a method;
  - `os.path.splitext` and `os.path.join`;
  - the three output paths and the summary report text.
- `PdfProcessor` (pdf_processor.py):
  - `validate_pdf`;
  - the decision made by `extract_text_from_pdf`, as a method that fills the result step by step;
  - the page-joining loop;
  - `get_pdf_metadata`.
- `EmailClient` (email_client.py):
  - `_decode_header` and `get_attachments`, as loop methods;
  - `get_email_metadata` and `search_emails`, as functions.
- `App` (main.py): the specification of the driver.
  - An environment holds the collaborators (IMAP outcomes, PDF/OCR libraries, codecs, clock).
  - The driver's effects on the outside world are a sequence: saves, mark-read, report, disconnect, cleanup.
  - The per-attachment, per-email and per-run steps are functions over counters and effects.
- `Driver` (main.py): the properties of that specification, plus the `EmailFilterApp` class.
  - The class holds the two counters and the effect log.
  - Its methods are proved to follow `App`.

## Model

| member | source | states |
|---|---|---|
| Text.Strip | invoice_parser.py:62 | `str.strip()`: the result is no longer than the input and neither starts nor ends with whitespace |
| Text.StripDropsOnlySpace | invoice_parser.py:62 | what `strip()` keeps is a piece of the input, with only whitespace before and after it |
| Text.FirstLine | invoice_parser.py:136 | `text.split('\n')[0]` is a prefix of the text with no line feed, followed by a line feed when shorter |
| Text.RemoveChar | invoice_parser.py:107 | `replace(',', '')` leaves no comma, never lengthens, and changes nothing when there is no comma; with Text.RemoveCharSingle and Text.RemoveCharAppend, every other character is kept, in order |
| Text.RemoveCharAppend | invoice_parser.py:107 | removal distributes over concatenation, so the surviving characters keep their order |
| Text.RemoveCharSingle | invoice_parser.py:107 | a single character is dropped exactly when it is the removed one |
| Text.DecimalRoundTrip | data_manager.py:189-191 | the decimal digits written for a count read back as that count |
| Bytes.Split | email_client.py:102 | `bytes.split()` yields non-empty words without whitespace; with Bytes.SplitEmpty, Bytes.SplitWord and Bytes.SplitAtSpace, the words are exactly the maximal runs, in order |
| Bytes.SplitEmpty | email_client.py:102 | an empty line has no ids |
| Bytes.SplitWord | email_client.py:102 | a non-empty run without whitespace is a single id |
| Bytes.SplitAtSpace | email_client.py:102 | a whitespace byte ends one id and starts the next: the two sides split independently |
| Bytes.SplitKeepsEverythingElse | email_client.py:102 | the words, concatenated, are the input with its whitespace dropped |
| Bytes.AsciiIsUtf8 | main.py:96 | an ASCII id always decodes |
| Regex.RunLength | invoice_parser.py:60 | the run a greedy quantifier tries first is allowed by its bound, consists of class members, and cannot be extended |
| Regex.MatchFrom | invoice_parser.py:60 | soundness: whatever the backtracking matcher returns is a parse of the pattern |
| Regex.MatchComplete | invoice_parser.py:60 | completeness: whenever a parse exists at a position, the matcher finds one there |
| Regex.SearchFrom | invoice_parser.py:60 | `re.search` from a position: a hit starts at or after it and is a parse |
| Regex.SearchFindsLeftmost | invoice_parser.py:60 | the search misses nothing and returns the leftmost start |
| Regex.SearchNone | invoice_parser.py:60 | a failed search means the pattern parses nowhere |
| Regex.FindAll | invoice_parser.py:156-157 | `re.finditer`: every hit is a parse, and each hit starts at or after the previous hit's end |
| Regex.SearchFromSkips | invoice_parser.py:156 | a search skips no parse: none starts before its hit, or anywhere when it fails |
| Regex.FindAllFromMissesNone | invoice_parser.py:156 | `re.finditer` skips no match: no parse starts in any gap between its hits |
| Regex.MissesNoneGaps | invoice_parser.py:156 | those gaps, position by position: before the first hit, between consecutive hits, after the last |
| Regex.FindAllComplete | invoice_parser.py:156 | over the whole text, no parse starts before the first hit, between hits or after the last, and no hit means no parse |
| Regex.GroupOccurs | invoice_parser.py:62 | a capture group is a piece of the searched text at its boundary |
| InvoiceParser.FirstMatch | invoice_parser.py:59-64 | patterns are tried in order: the result comes from the first whose search succeeds and whose group converts; no earlier one fires; no result means none fires |
| InvoiceParser.NoneIffNoMatch | invoice_parser.py:59-64 | when conversion cannot fail, no result exactly when no pattern matches anywhere |
| InvoiceParser.SuffixShadowed | invoice_parser.py:59-62 | a pattern whose tail is an earlier pattern never decides |
| InvoiceParser.InvoiceNumberSpec | invoice_parser.py:43-64 | the invoice number is a non-empty run of letters, digits and hyphens taken from the text, unchanged by `strip()`; none exactly when no pattern matches |
| InvoiceParser.IdCaptured | invoice_parser.py:53-56 | an identifier group is a non-empty piece of the text made of `[A-Z0-9\-]` characters under case folding |
| InvoiceParser.NumberLabelMatchesInvoice | invoice_parser.py:53-55 | wherever `invoice number …` matches, `invoice …` matches too (its group takes the word after `invoice`) |
| InvoiceParser.InvoiceNumberLabelNeverDecides | invoice_parser.py:52-62 | the third invoice-number pattern never decides the result |
| InvoiceParser.DateSpec | invoice_parser.py:66-86 | the date is a literal `d{1,2}[/-]d{1,2}[/-]d{2,4}` taken from the text; none exactly when no pattern matches |
| InvoiceParser.DateGroupShape | invoice_parser.py:76-78 | a date group spans a date literal |
| InvoiceParser.InvoiceDateNeverDecides | invoice_parser.py:75-84 | `invoice date` never decides: the `date` pattern tried first matches its tail |
| InvoiceParser.LiteralConverts | invoice_parser.py:107-109 | `float(g.replace(',', ''))` on an amount literal never fails and gives its digits without commas, times 100, plus the two fraction digits |
| InvoiceParser.AmountGroupShape | invoice_parser.py:98 | a group matched by `[0-9,]+\.\d{2}` is an amount literal |
| InvoiceParser.AmountFound | invoice_parser.py:104-113 | an amount extractor returns the value of an amount literal occurring in the text; none exactly when no pattern matches |
| InvoiceParser.TotalAmountSpec | invoice_parser.py:88-113 | `total_amount` is the cents value of an amount literal in the text; none exactly when none of the four labels is followed by an amount |
| InvoiceParser.GrandTotalNeverDecides | invoice_parser.py:97-105 | `grand total: X` is always read by the `total` pattern, so the third pattern never decides |
| InvoiceParser.TaxSpec | invoice_parser.py:166-190 | `tax_amount` is the cents value of an amount literal in the text; none exactly when no tax label is followed by an amount |
| InvoiceParser.SalesTaxNeverDecides | invoice_parser.py:175-182 | `sales tax` never decides: `tax` is tried first and matches its tail |
| InvoiceParser.VendorSpec | invoice_parser.py:115-140 | a labelled vendor wins when any label matches; otherwise the stripped first line is returned exactly when its length is strictly between 3 and 100; the vendor is stripped, occurs in the text, and a first-line vendor has no line feed |
| InvoiceParser.LabelledVendorOccurs | invoice_parser.py:130-133 | a labelled vendor is the stripped group and occurs in the text |
| InvoiceParser.FirstLineVendorOccurs | invoice_parser.py:136-138 | the stripped first line has no line feed and occurs in the first line and in the text |
| InvoiceParser.FirstCode | invoice_parser.py:201-205 | the first currency of the priority list whose code occurs in the upper-cased text, none earlier occurring |
| InvoiceParser.Rank | invoice_parser.py:201 | each currency's place in the order USD, EUR, GBP, CAD, AUD |
| InvoiceParser.CurrencySpec | invoice_parser.py:192-215 | a code in the text wins by priority; otherwise `$` before `€` before `£`, defaulting to USD, never CAD or AUD |
| InvoiceParser.CurrencyIgnoresCase | invoice_parser.py:204 | upper-casing the text first changes nothing |
| InvoiceParser.ItemSpec | invoice_parser.py:157-162 | a line item is a stripped description, a digit-string quantity and an amount literal, all pieces of the text |
| InvoiceParser.LineItemHitsAdvance | invoice_parser.py:156-157 | line-item matches come left to right without overlapping |
| InvoiceParser.LineItemsSpec | invoice_parser.py:142-164 | one item per match, matches in text order without overlap and none skipped, each item built from pieces of the text |
| InvoiceParser.ParseInvoiceValid | invoice_parser.py:217-233 | a parsed invoice is valid exactly when some invoice-number pattern matches and a non-zero total is found |
| QuarantineApi.NewEmailContent | backend/main.py:33-36 | the status is `"held"` unless one is given |
| QuarantineApi.Listing | backend/main.py:45-48 | one entry per stored key, each tagged with its own key |
| QuarantineApi.Lookup | backend/main.py:50-62 | a missing id answers 404 `Email not found`; a present one answers its meta, content and status with the id |
| QuarantineApi.ListingMatchesLookup | backend/main.py:45-62 | every listed entry is what getting its key answers |
| QuarantineApi.QuarantineStore.constructor | backend/main.py:26 | the store starts empty |
| QuarantineApi.QuarantineStore.ListQuarantinedEmails | backend/main.py:45-48 | the listing of the current store, which it does not change |
| QuarantineApi.QuarantineStore.GetQuarantinedEmail | backend/main.py:50-62 | the lookup in the current store, which it does not change |
| AccountsApi.RouteOf | backend/accounts_api.py:23-27 | host and port from the account; TLS on unless the account's `proxy` says otherwise |
| AccountsApi.FirstIndex | backend/accounts_api.py:21-22 | the first account with the email, none exactly when no account has it |
| AccountsApi.ProxyConfigForUser | backend/accounts_api.py:18-28 | the route of the first account whose email is the user name; none exactly when no account has it |
| AccountsApi.MaskPasswords | backend/accounts_api.py:33-37 | every password becomes `****`; count, order and the other fields are kept |
| AccountsApi.RemoveEmail | backend/accounts_api.py:63 | keeps exactly the accounts with another email; no change when none matches |
| AccountsApi.RemoveEmailAppend | backend/accounts_api.py:63 | removal works piece by piece, so the kept accounts keep their order |
| AccountsApi.AddKeepsUnique | backend/accounts_api.py:43-45 | an add that passed the duplicate check keeps emails unique |
| AccountsApi.UpdateKeepsUnique | backend/accounts_api.py:53-55 | replacing the first match keeps emails unique |
| AccountsApi.DeleteKeepsUnique | backend/accounts_api.py:63 | deleting keeps emails unique |
| AccountsApi.RouteAfterAdd | backend/accounts_api.py:39-47 | adding never changes an existing user's route and routes the new user to the new account |
| AccountsApi.RouteAfterUpdate | backend/accounts_api.py:49-58 | the updated user is routed by the new account; other users keep their routes |
| AccountsApi.RouteAfterDelete | backend/accounts_api.py:60-65 | the deleted user has no route; other users keep theirs |
| AccountsApi.AccountDirectory.constructor | backend/accounts_api.py:8-12 | the directory holds the stored list |
| AccountsApi.AccountDirectory.GetAccounts | backend/accounts_api.py:33-37 | answers the masked list |
| AccountsApi.AccountDirectory.AddAccount | backend/accounts_api.py:39-47 | a known email answers 400 `Account already exists` and changes nothing; otherwise appends and answers the account masked |
| AccountsApi.AccountDirectory.UpdateAccount | backend/accounts_api.py:49-58 | replaces the first account with the email; none answers 404 `Account not found` and changes nothing |
| AccountsApi.AccountDirectory.DeleteAccount | backend/accounts_api.py:60-65 | removes every account with the email and always succeeds |
| DataManager.ReplaceChar | data_manager.py:165 | `s.replace(c, '_')`: same length, `c` becomes `_`, every other character kept |
| DataManager.SanitizeFilename | data_manager.py:153-166 | the replacement loop over the unsafe characters then the cut to 200 gives the sanitised name |
| DataManager.SanitizedSpec | data_manager.py:162-166 | no unsafe character survives; at most 200 characters; one-for-one replacement; a short name keeps its length |
| DataManager.SanitizeIdempotent | data_manager.py:163-166 | sanitising twice equals sanitising once |
| DataManager.LastIndex | data_manager.py:83 | the last occurrence of a character, none exactly when absent |
| DataManager.StripExtension | data_manager.py:83 | `os.path.splitext(name)[0]` is a prefix of the name; with DataManager.StripExtensionSpec, DataManager.StripAddedExtension and DataManager.StripLeadingDotsOnly it is fixed on every name without `/` |
| DataManager.StripLeadingDotsOnly | data_manager.py:83 | a name with only dots before its last dot, such as `.pdf`, keeps its whole name |
| DataManager.StripExtensionSpec | data_manager.py:83 | what is removed is nothing, or a dot followed by neither dot nor `/` |
| DataManager.StripAddedExtension | data_manager.py:83 | stripping `.txt`/`.json`-like extensions from `name + ext` gives `name` back |
| DataManager.Join | data_manager.py:55-59 | `os.path.join`: an absolute part replaces the path; otherwise the result ends with the part |
| DataManager.JoinBelow | data_manager.py:55-59 | joining a plain name onto a directory inserts one `/` |
| DataManager.SubdirectoryShape | data_manager.py:55-57 | the `pdfs`, `text` and `invoices` directories are non-empty and do not end with `/` |
| DataManager.FileNamesHaveNoSlash | data_manager.py:53-58 | the saved file names never contain `/`, whatever the attachment's filename |
| DataManager.SavedFilesStayInSubdirectory | data_manager.py:42-126 | each saved file's path is its subdirectory, `/`, and a name without `/` |
| DataManager.TextAndInvoiceShareStem | data_manager.py:81-117 | the text and invoice files share the stem `{timestamp}_{base}` |
| DataManager.SummaryTotal | data_manager.py:185-192 | the report's last figure is the total and reads back as processed plus failed |
| PdfProcessor.SizeCheckExact | pdf_processor.py:167-168 | the megabyte comparison is exactly a comparison of byte counts against the limit times 1048576 |
| PdfProcessor.ValidatePdf | pdf_processor.py:157-177 | accepted exactly when not over the size limit and starting with `%PDF` |
| PdfProcessor.JoinedAppend | pdf_processor.py:85-88 | joining distributes over concatenation of the page list |
| PdfProcessor.JoinedNoText | pdf_processor.py:86-87 | pages without text contribute nothing |
| PdfProcessor.JoinedContainsPage | pdf_processor.py:85-88 | each page with text appears, followed by a line feed, where the earlier pages end |
| PdfProcessor.JoinPageTexts | pdf_processor.py:82-90 | the loop yields the stripped join of the page texts |
| PdfProcessor.ExtractedSpec | pdf_processor.py:32-71 | digital text wins exactly when it returned and its stripped length exceeds 50; otherwise OCR decides and succeeds exactly when it yields text; an exception keeps the initial values and records its message; success exactly when text is non-empty |
| PdfProcessor.ExtractTextFromPdf | pdf_processor.py:32-71 | filling the result step by step gives that decision |
| PdfProcessor.GetOrEmpty | pdf_processor.py:200-205 | `d.get(key, '')` |
| PdfProcessor.GetPdfMetadata | pdf_processor.py:179-211 | size is the input length; page count from the library when it opens the data, else 0; document fields only for a non-empty metadata dictionary, title, author, subject, creator, producer and creation date each copied when present and empty when missing |
| EmailClient.CharsetOf | email_client.py:166 | a fragment's charset, or `utf-8` when it has none |
| EmailClient.FragmentText | email_client.py:163-170 | plain text as is; bytes decoded strictly, else with errors ignored |
| EmailClient.ConcatenatedAppend | email_client.py:163-170 | decoding distributes over the fragment list |
| EmailClient.ConcatenatedPlain | email_client.py:169-170 | a header without encoded words decodes to its texts put back together |
| EmailClient.DecodeHeader | email_client.py:148-172 | an empty header gives `''`; otherwise the fragments' texts concatenated in order |
| EmailClient.GetHeader | email_client.py:139-145 | `msg.get(name)`: the value of the first field with that name, ignoring case; none exactly when no field has it |
| EmailClient.GetEmailMetadataSpec | email_client.py:130-146 | Subject, From and To decoded; Date and Message-ID as they are; a missing header gives `''` |
| EmailClient.AttachmentOf | email_client.py:195-199 | an attachment's filename is the part's decoded filename, and it carries the part's payload and content type |
| EmailClient.Selected | email_client.py:183-202 | every attachment comes from an accepted part, at most one per part |
| EmailClient.SelectedAppend | email_client.py:185 | selection distributes over the walk |
| EmailClient.SelectedPosition | email_client.py:185-199 | walk order is kept: an accepted part's attachment follows those of the parts before it |
| EmailClient.SelectedSkips | email_client.py:186-194 | a multipart part, one without Content-Disposition, or one without an allowed filename adds nothing |
| EmailClient.MixedCaseRejected | email_client.py:194 | a filename ending in `.Pdf` is never accepted |
| EmailClient.GetAttachments | email_client.py:174-202 | the loop with its `continue` guards yields exactly the selected attachments |
| EmailClient.SearchEmails | email_client.py:90-108 | a non-OK status, an exception or a reply without data gives no ids; otherwise the ids are `Split` of the first data line, whose concatenation is that line without whitespace |
| App.ShippedConfig | config.py:45-83 | the shipped settings: 50 MB, `.pdf`/`.PDF`, raw PDFs not kept, text kept |
| App.RawSave | main.py:149-150 | the raw PDF is saved exactly when raw saving is on |
| App.TextSave | main.py:165-166 | the text is saved exactly when text saving is on |
| App.InvoiceSave | main.py:168-178 | the record (parse plus metadata, filename, method) is saved exactly when it validates |
| App.SavesShape | main.py:143-181 | the three gated saves make at most three saves, raw first, invoice last |
| App.AttachmentEffects | main.py:130-184 | processing an attachment only saves files: at most three, a raw PDF only first, an invoice only last |
| App.AttachmentsEffects | main.py:119-120 | processing the attachments in order only saves files |
| App.OnlySavesAppend | main.py:119-120 | saves followed by saves are saves |
| Driver.InvalidSavesNothing | main.py:144-146 | an invalid or missing payload saves nothing |
| Driver.RawSavedIff | main.py:148-150 | the raw PDF is saved, first, exactly when acceptable and raw saving is on |
| Driver.FailedExtractionSavesNoInvoice | main.py:158-160 | a failed extraction saves neither text nor invoice |
| Driver.InvoiceSavedIff | main.py:176-181 | an invoice is saved exactly when acceptable, extracted and valid, and the record is the parse of the extracted text |
| Driver.SavedInvoiceIsValid | main.py:169-178 | with the application's parser a saved invoice has a non-empty number, a non-zero total found in the text, and a matching invoice-number pattern |
| Driver.AttachmentsEffectsStep | main.py:119-120 | one more attachment appends its effects where the earlier ones end |
| Driver.FetchFailureCounted | main.py:99-103 | a failed fetch counts as failed and marks nothing read |
| Driver.UndecodableIdCounted | main.py:95-128 | an id that is not UTF-8 raises in `decode`, which counts as failed |
| Driver.NoAttachmentsMarkedRead | main.py:113-116 | no accepted attachment: marked read, counters unchanged |
| Driver.AttachmentsProcessedThenMarked | main.py:118-124 | attachments processed in order, then marked read, then counted as processed |
| Driver.EmailStepCounts | main.py:89-128 | each email raises processed + failed by at most one and lowers neither; the total stays the same exactly when the message was fetched and had no accepted attachments |
| Driver.EmailStepExtends | main.py:89-128 | processing an email only appends effects |
| Driver.EmailsStepCounts | main.py:69-70 | over a batch the counters never go down and their sum rises by at most the number of ids |
| Driver.AllFetchesFail | main.py:69-70 | when no message can be fetched, each counts as failed |
| Driver.RunAlwaysCleansUp | main.py:85-87 | every run ends with disconnect and cleanup |
| Driver.RunFailsOnlyBeforeProcessing | main.py:51-58 | `run` returns false exactly when connect or select fails, and then processes nothing |
| Driver.NoUnreadNoReport | main.py:64-66 | no unread emails: success, no report |
| Driver.ReportCounts | main.py:69-79 | the report carries the final counters, written just before disconnecting |
| Driver.EmailFilterApp.constructor | main.py:34-43 | both counters start at 0 and nothing has been done |
| Driver.EmailFilterApp.ProcessAttachment | main.py:130-184 | the gated pipeline appends exactly the attachment's effects and leaves the counters alone |
| Driver.EmailFilterApp.ProcessEmail | main.py:89-128 | the new counters and effects are the email step of the old ones |
| Driver.EmailFilterApp.ProcessMessage | main.py:110-124 | a fetched message's attachments are processed, it is marked read and counted |
| Driver.EmailFilterApp.ProcessAttachments | main.py:119-120 | the loop appends the attachments' effects in order |
| Driver.EmailFilterApp.Run | main.py:45-87 | the result and the new state are the run step of the old state |

## Left out

- The mailbox proxy, its session state and the quarantine approve/delete lifecycle: they do not exist in the code.
- IMAP I/O (connect, login, select, fetch, store, copy, expunge, logout): their outcomes are inputs. Connect and select are booleans, the search reply is a value, and fetching is a function from id to an optional message.
- `move_email` and `mark_as_read`'s own error handling: mark-read is recorded as an effect and never fails.
- The MIME parser and `walk()`: a message is given as its header fields and its parts in walk order. `get_payload(decode=True)` and `get_filename()` are part fields.
- `email.header.decode_header` and the charset codecs: they are functions in the environment. An exception from the lenient UTF-8 decode is not modelled.
- Python's truthiness of a message: a message with no header fields is treated as falsy, like an empty `email.message.Message`.
- pdfplumber, pdf2image, pytesseract and PIL:
  - the libraries' results or exception messages are inputs;
  - the OCR path is given as its final stripped text, so the OCR page loop is not modelled;
  - `extract_images_from_pdf` and `save_text_to_file` are not modelled.
- The `page_count` key: `extract_text_from_pdf` never sets it, and the model keeps it at 0.
- Floating point:
  - amounts are integer cents;
  - `size_mb` in `get_pdf_metadata` and its rounding are dropped;
  - the size check is proved exact against an exact real division.
- The quarantine `amount` float is kept as cents.
- The clock: `datetime.now()` is the environment's `clock`, read by the index of the effect being produced. The summary report's generation time is a parameter.
- File and JSON persistence:
  - writing and serialising the PDF, text, invoice and report files;
  - `save_email_metadata`, `save_invoice_json`, `ensure_directories`, `cleanup_temp_files`;
  - `load_accounts` and `save_accounts`.
  Saves are recorded as effects carrying their timestamp and original filename, and a save never fails.
- Accounts and request bodies are fixed records. Missing keys (`KeyError`), extra keys and a missing `email` in an update body are not modelled.
- FastAPI routing, async handlers and `HTTPException`: errors are result values with status and detail.
- Logging, `setup_logging`, `validate_config` and the `main()` entry point.
- The outer `except` of `run`: no collaborator in the model raises there. Inside `process_email`, only the `decode` of a non-UTF-8 id is modelled as raising.
- Configuration loading from the environment: the settings are a `Config` value, with the shipped defaults in `App.ShippedConfig`. `INVOICE_AMOUNT_THRESHOLD` and the other unused settings are not modelled.
- Unicode behaviour of the regular expressions and string methods:
  - `re.IGNORECASE` folds ASCII letters only;
  - `\d` and `int`/`float` accept ASCII digits only;
  - `str.upper()` maps ASCII letters only.
  Python also folds and converts other Unicode letters and digits.
- Amount conversion: Python's `float` accepts more than the `[0-9,]+\.\d{2}` literals the patterns capture. `ParseCents` is exact only on those shapes, which are the only ones the extractors pass it.
- InvoiceParser.LineItemsSpec: states that each item's description, quantity and amount come from pieces of the text, not that they come from that item's own match.
- InvoiceParser.ItemSpec: likewise, states pieces of the text rather than the match's own groups.
- Driver.EmailFilterApp.ProcessMessage and Driver.EmailFilterApp.ProcessAttachments: `process_email` is written as three methods (decode/fetch, then message handling, then the attachment loop). Together they do what the one function does.
