/**
 * The parts of the mail client that decide something: header defaults,
 * the concatenation of decoded header fragments, the attachment filter and
 * the result of a search. Parsing of messages, the MIME walk and charset
 * codecs are not modelled: a message is given as its headers and its parts
 * in walk order, and decoding is given as functions.
 */
module EmailClient {
  import opened Wrappers
  import opened Text
  import opened Bytes

  /** One fragment of `email.header.decode_header`'s output: text as is, or bytes with their declared charset. */
  datatype Fragment = Plain(text: string) | Encoded(data: bytes, charset: Option<string>)

  /**
   * The codecs the client relies on. `split` is `decode_header`;
   * `decode(charset, data)` is a strict `data.decode(charset)`, None when it
   * raises; `lossy` is `data.decode('utf-8', errors='ignore')`.
   */
  datatype Codecs = Codecs(
    split: string -> seq<Fragment>,
    decode: (string, bytes) -> Option<string>,
    lossy: bytes -> string)

  /** The charset a fragment is decoded with: its own, or UTF-8 when it has none. */
  function CharsetOf(f: Fragment): (cs: string)
    requires f.Encoded?
    ensures f.charset.None? || f.charset.value == "" ==> cs == "utf-8"
    ensures f.charset.Some? && f.charset.value != "" ==> cs == f.charset.value
  {
    if f.charset.Some? && f.charset.value != "" then f.charset.value else "utf-8"
  }

  /** The text one fragment contributes. */
  function FragmentText(f: Fragment, codecs: Codecs): (t: string)
    ensures f.Plain? ==> t == f.text
    ensures f.Encoded? && codecs.decode(CharsetOf(f), f.data).Some? ==>
      t == codecs.decode(CharsetOf(f), f.data).value
    ensures f.Encoded? && codecs.decode(CharsetOf(f), f.data).None? ==> t == codecs.lossy(f.data)
  {
    match f
    case Plain(s) => s
    case Encoded(data, _) =>
      match codecs.decode(CharsetOf(f), data)
      case Some(s) => s
      case None => codecs.lossy(data)
  }

  /** The fragments' texts concatenated in order. */
  function Concatenated(fs: seq<Fragment>, codecs: Codecs): string {
    if fs == [] then ""
    else Concatenated(fs[..|fs| - 1], codecs) + FragmentText(fs[|fs| - 1], codecs)
  }

  lemma {:induction false} ConcatenatedAppend(a: seq<Fragment>, b: seq<Fragment>, codecs: Codecs)
    ensures Concatenated(a + b, codecs) == Concatenated(a, codecs) + Concatenated(b, codecs)
    decreases |b|
  {
    if b == [] {
      assert a + b == a;
    } else {
      assert (a + b)[..|a + b| - 1] == a + b[..|b| - 1];
      ConcatenatedAppend(a, b[..|b| - 1], codecs);
    }
  }

  /** A header with no encoded words decodes to its fragments put back together. */
  lemma {:induction false} ConcatenatedPlain(fs: seq<Fragment>, codecs: Codecs, texts: seq<string>)
    requires |texts| == |fs|
    requires forall k :: 0 <= k < |fs| ==> fs[k] == Plain(texts[k])
    ensures Concatenated(fs, codecs) == Flatten(texts)
  {
    if fs != [] {
      var n := |fs| - 1;
      ConcatenatedPlain(fs[..n], codecs, texts[..n]);
      FlattenSnoc(texts[..n], texts[n]);
      assert texts[..n] + [texts[n]] == texts;
    }
  }

  function Flatten(ss: seq<string>): string {
    if ss == [] then "" else ss[0] + Flatten(ss[1..])
  }

  lemma {:induction false} FlattenSnoc(ss: seq<string>, s: string)
    ensures Flatten(ss + [s]) == Flatten(ss) + s
  {
    if ss == [] {
      assert [] + [s] == [s];
      assert [s][1..] == [];
    } else {
      assert (ss + [s])[1..] == ss[1..] + [s];
      FlattenSnoc(ss[1..], s);
    }
  }

  /** What `_decode_header` returns: the empty string for an empty header, else the decoded fragments concatenated. */
  function DecodedHeader(header: string, codecs: Codecs): string {
    if header == "" then "" else Concatenated(codecs.split(header), codecs)
  }

  /** `_decode_header`: appends each fragment's text, in order. */
  method DecodeHeader(header: string, codecs: Codecs) returns (r: string)
    ensures header == "" ==> r == ""
    ensures r == DecodedHeader(header, codecs)
  {
    if header == "" {
      return "";
    }
    var fragments := codecs.split(header);
    r := "";
    for i := 0 to |fragments|
      invariant r == Concatenated(fragments[..i], codecs)
    {
      assert fragments[..i + 1][..i] == fragments[..i];
      var f := fragments[i];
      match f {
        case Plain(s) =>
          r := r + s;
        case Encoded(data, _) =>
          var decoded := codecs.decode(CharsetOf(f), data);
          if decoded.Some? {
            r := r + decoded.value;
          } else {
            r := r + codecs.lossy(data);
          }
      }
    }
    assert fragments[..|fragments|] == fragments;
  }

  function LowerAscii(s: string): (r: string)
    ensures |r| == |s|
    ensures forall k :: 0 <= k < |s| ==> r[k] == ToLower(s[k])
  {
    seq(|s|, k requires 0 <= k < |s| => ToLower(s[k]))
  }

  /** Header names are compared without regard to ASCII case. */
  predicate SameName(a: string, b: string) {
    LowerAscii(a) == LowerAscii(b)
  }

  /** A message: its header fields in order, and its MIME parts in `walk()` order. */
  datatype Message = Message(headers: seq<(string, string)>, parts: seq<MimePart>)

  /** `value` is the value of the first header field named `name`. */
  ghost predicate FirstWithName(headers: seq<(string, string)>, name: string, value: string) {
    exists k :: (0 <= k < |headers| && SameName(headers[k].0, name) && headers[k].1 == value
      && forall j :: 0 <= j < k ==> !SameName(headers[j].0, name))
  }

  /** `msg.get(name)`: the value of the first header field with that name, if any. */
  function GetHeader(headers: seq<(string, string)>, name: string): (r: Option<string>)
    ensures r.None? <==> forall k :: 0 <= k < |headers| ==> !SameName(headers[k].0, name)
    ensures r.Some? ==> FirstWithName(headers, name, r.value)
  {
    if headers == [] then None
    else if SameName(headers[0].0, name) then Some(headers[0].1)
    else
      var r := GetHeader(headers[1..], name);
      assert r.Some? ==> FirstWithName(headers, name, r.value) by {
        if r.Some? {
          var k :| 0 <= k < |headers[1..]| && SameName(headers[1..][k].0, name)
            && headers[1..][k].1 == r.value
            && forall j :: 0 <= j < k ==> !SameName(headers[1..][j].0, name);
          forall j | 0 <= j < k + 1 ensures !SameName(headers[j].0, name) {
            if j > 0 {
              assert headers[j] == headers[1..][j - 1];
            }
          }
          assert headers[k + 1] == headers[1..][k];
        }
      }
      assert r.None? ==> forall k :: 0 <= k < |headers| ==> !SameName(headers[k].0, name) by {
        if r.None? {
          forall k | 0 <= k < |headers| ensures !SameName(headers[k].0, name) {
            if k > 0 {
              assert headers[k] == headers[1..][k - 1];
            }
          }
        }
      }
      r
  }

  /** `msg.get(name, '')`. */
  function HeaderOrEmpty(msg: Message, name: string): string {
    match GetHeader(msg.headers, name)
    case Some(v) => v
    case None => ""
  }

  datatype EmailMetadata = EmailMetadata(
    subject: string, sender: string, recipient: string, date: string, messageId: string)

  /** `get_email_metadata`: the five headers the pipeline records. */
  function GetEmailMetadata(msg: Message, codecs: Codecs): EmailMetadata {
    EmailMetadata(
      DecodedHeader(HeaderOrEmpty(msg, "Subject"), codecs),
      DecodedHeader(HeaderOrEmpty(msg, "From"), codecs),
      DecodedHeader(HeaderOrEmpty(msg, "To"), codecs),
      HeaderOrEmpty(msg, "Date"),
      HeaderOrEmpty(msg, "Message-ID"))
  }

  /**
   * Subject, From and To are decoded, Date and Message-ID kept as they are,
   * and a header the message lacks gives the empty string.
   */
  lemma GetEmailMetadataSpec(msg: Message, codecs: Codecs)
    ensures var m := GetEmailMetadata(msg, codecs);
      && (GetHeader(msg.headers, "Subject").None? ==> m.subject == "")
      && (GetHeader(msg.headers, "From").None? ==> m.sender == "")
      && (GetHeader(msg.headers, "To").None? ==> m.recipient == "")
      && (GetHeader(msg.headers, "Date").None? ==> m.date == "")
      && (GetHeader(msg.headers, "Message-ID").None? ==> m.messageId == "")
      && (GetHeader(msg.headers, "Subject").Some? ==>
            m.subject == DecodedHeader(GetHeader(msg.headers, "Subject").value, codecs))
      && (GetHeader(msg.headers, "From").Some? ==>
            m.sender == DecodedHeader(GetHeader(msg.headers, "From").value, codecs))
      && (GetHeader(msg.headers, "To").Some? ==>
            m.recipient == DecodedHeader(GetHeader(msg.headers, "To").value, codecs))
      && (GetHeader(msg.headers, "Date").Some? ==> m.date == GetHeader(msg.headers, "Date").value)
      && (GetHeader(msg.headers, "Message-ID").Some? ==>
            m.messageId == GetHeader(msg.headers, "Message-ID").value)
  {
  }

  /**
   * One MIME part as the attachment filter sees it: its main type, its full
   * content type, its Content-Disposition header, its raw filename and its
   * transfer-decoded payload (None when the library gives none).
   */
  datatype MimePart = MimePart(
    maintype: string,
    contentType: string,
    disposition: Option<string>,
    filename: Option<string>,
    payload: Option<bytes>)

  datatype Attachment = Attachment(filename: string, payload: Option<bytes>, contentType: string)

  /** The filename ends with one of the allowed extensions (a case-sensitive suffix test). */
  predicate HasAllowedExtension(filename: string, allowed: seq<string>) {
    exists k :: 0 <= k < |allowed| && EndsWith(filename, allowed[k])
  }

  /** A part is kept: not a multipart container, has a Content-Disposition, and a non-empty filename with an allowed extension. */
  predicate Accepted(part: MimePart, allowed: seq<string>) {
    && part.maintype != "multipart"
    && part.disposition.Some?
    && part.filename.Some? && part.filename.value != ""
    && HasAllowedExtension(part.filename.value, allowed)
  }

  /** The entry an accepted part gives: its filename decoded, its payload and content type. */
  function AttachmentOf(part: MimePart, codecs: Codecs): (a: Attachment)
    requires part.filename.Some?
    ensures a.filename == DecodedHeader(part.filename.value, codecs)
    ensures a.payload == part.payload && a.contentType == part.contentType
  {
    Attachment(DecodedHeader(part.filename.value, codecs), part.payload, part.contentType)
  }

  /** `a` is the entry of one of the accepted parts. */
  predicate FromAccepted(a: Attachment, parts: seq<MimePart>, allowed: seq<string>, codecs: Codecs) {
    exists k :: 0 <= k < |parts| && Accepted(parts[k], allowed) && a == AttachmentOf(parts[k], codecs)
  }

  /** The attachments `get_attachments` returns for the parts: one per accepted part, in walk order. */
  function Selected(parts: seq<MimePart>, allowed: seq<string>, codecs: Codecs): (r: seq<Attachment>)
    ensures |r| <= |parts|
    ensures forall i :: 0 <= i < |r| ==> FromAccepted(r[i], parts, allowed, codecs)
  {
    if parts == [] then []
    else
      var n := |parts| - 1;
      var init := Selected(parts[..n], allowed, codecs);
      forall i | 0 <= i < |init| ensures FromAccepted(init[i], parts, allowed, codecs) {
        var k :| 0 <= k < n && Accepted(parts[..n][k], allowed) && init[i] == AttachmentOf(parts[..n][k], codecs);
        assert parts[..n][k] == parts[k];
      }
      if Accepted(parts[n], allowed) then init + [AttachmentOf(parts[n], codecs)] else init
  }

  lemma {:induction false} SelectedAppend(a: seq<MimePart>, b: seq<MimePart>, allowed: seq<string>, codecs: Codecs)
    ensures Selected(a + b, allowed, codecs) == Selected(a, allowed, codecs) + Selected(b, allowed, codecs)
    decreases |b|
  {
    if b == [] {
      assert a + b == a;
    } else {
      assert (a + b)[..|a + b| - 1] == a + b[..|b| - 1];
      SelectedAppend(a, b[..|b| - 1], allowed, codecs);
    }
  }

  /**
   * Walk order is kept with one entry per accepted part: the attachment of
   * the accepted part `k` sits right after those of the parts before it.
   */
  lemma SelectedPosition(parts: seq<MimePart>, k: nat, allowed: seq<string>, codecs: Codecs)
    requires k < |parts| && Accepted(parts[k], allowed)
    ensures var before := |Selected(parts[..k], allowed, codecs)|;
      before < |Selected(parts, allowed, codecs)|
      && Selected(parts, allowed, codecs)[before] == AttachmentOf(parts[k], codecs)
  {
    assert parts == parts[..k + 1] + parts[k + 1..];
    SelectedAppend(parts[..k + 1], parts[k + 1..], allowed, codecs);
    assert parts[..k + 1][..k] == parts[..k];
  }

  /** A part that is not accepted adds nothing. */
  lemma SelectedSkips(parts: seq<MimePart>, k: nat, allowed: seq<string>, codecs: Codecs)
    requires k < |parts| && !Accepted(parts[k], allowed)
    ensures Selected(parts[..k + 1], allowed, codecs) == Selected(parts[..k], allowed, codecs)
  {
    assert parts[..k + 1][..k] == parts[..k];
  }

  /** The extensions the pipeline allows. */
  const PdfExtensions: seq<string> := [".pdf", ".PDF"]

  /** The suffix test is case-sensitive: a filename ending in `.Pdf` is never accepted. */
  lemma MixedCaseRejected(part: MimePart)
    requires part.filename.Some? && EndsWith(part.filename.value, ".Pdf")
    ensures !Accepted(part, PdfExtensions)
  {
    var f := part.filename.value;
    assert f[|f| - 2] == 'd';
    assert !EndsWith(f, ".pdf") && !EndsWith(f, ".PDF") by {
      assert f[|f| - 4..][1] == 'P';
      assert f[|f| - 4..][3] == 'f';
    }
  }

  /** `get_attachments`: walks the parts, skipping containers, parts without a disposition, and unwanted filenames. */
  method GetAttachments(msg: Message, allowed: seq<string>, codecs: Codecs) returns (attachments: seq<Attachment>)
    ensures attachments == Selected(msg.parts, allowed, codecs)
  {
    var parts := msg.parts;
    attachments := [];
    for i := 0 to |parts|
      invariant attachments == Selected(parts[..i], allowed, codecs)
    {
      assert parts[..i + 1][..i] == parts[..i];
      var part := parts[i];
      if part.maintype == "multipart" {
        continue;
      }
      if part.disposition.None? {
        continue;
      }
      var filename := part.filename;
      if filename.Some? && filename.value != "" {
        if exists k :: 0 <= k < |allowed| && EndsWith(filename.value, allowed[k]) {
          var name := DecodeHeader(filename.value, codecs);
          attachments := attachments + [Attachment(name, part.payload, part.contentType)];
        }
      }
    }
    assert parts[..|parts|] == parts;
  }

  /** The server's answer to a SEARCH: its status word and its data lines. */
  datatype SearchReply = SearchReply(status: string, data: seq<bytes>)

  /**
   * `search_emails`: the ids in the first data line, split on whitespace,
   * when the status is OK; otherwise, or when the call raises (including a
   * reply without data lines), no ids.
   */
  function SearchEmails(reply: Outcome<SearchReply>): (ids: seq<bytes>)
    ensures reply.Raised? || reply.value.status != "OK" || reply.value.data == [] ==> ids == []
    ensures reply.Returned? && reply.value.status == "OK" && reply.value.data != [] ==>
      ids == Split(reply.value.data[0]) && Concat(ids) == DropSpaces(reply.value.data[0])
    ensures forall id :: id in ids ==> |id| > 0 && forall k :: 0 <= k < |id| ==> !IsAsciiSpace(id[k])
  {
    match reply
    case Raised(_) => []
    case Returned(SearchReply(status, data)) =>
      if status != "OK" then []
      else if data == [] then []
      else
        SplitKeepsEverythingElse(data[0]);
        Split(data[0])
  }
}
