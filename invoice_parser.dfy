/**
 * Invoice field extraction (invoice_parser.py): ordered first-match pattern
 * extraction of the invoice number, date, total, vendor and tax, currency
 * detection with a fixed priority, line items, and the required-field check.
 * Amounts are integer cents.
 */
module InvoiceParser {
  import opened Wrappers
  import opened Text
  import opened Regex

  /** A pattern with one capture group: `before (group) after`. */
  datatype Rule = Rule(before: Pattern, group: Pattern, after: Pattern) {
    function Atoms(): Pattern {
      before + group + after
    }
  }

  /** The result of the first rule that fired: which rule, where, what it captured, what it yielded. */
  datatype Found<T> = Found(rule: nat, hit: Hit, group: string, value: T)

  datatype LineItem = LineItem(description: string, quantity: nat, amount: nat)

  datatype Currency = USD | EUR | GBP | CAD | AUD

  /** The record `parse_invoice` returns: its seven keys. */
  datatype InvoiceData = InvoiceData(
    invoiceNumber: Option<string>,
    date: Option<string>,
    totalAmount: Option<nat>,
    vendor: Option<string>,
    items: seq<LineItem>,
    taxAmount: Option<nat>,
    currency: Currency)

  // ---------------------------------------------------------------------
  // Pattern building blocks
  // ---------------------------------------------------------------------

  /** A literal character. */
  function Lit(c: char): Atom {
    Atom([Single(c)], 1, AtMost(1))
  }

  /** An optional literal character: `c?`. */
  function Opt(c: char): Atom {
    Atom([Single(c)], 0, AtMost(1))
  }

  /** A literal word, one atom per letter. */
  function Word(w: string): (p: Pattern)
    ensures |p| == |w|
  {
    seq(|w|, k requires 0 <= k < |w| => Lit(w[k]))
  }

  /** `\s*` */
  const Ws: Atom := Atom([AnySpace], 0, Unbounded)

  /** `\s*:?\s*`, the separator after a label. */
  const Colon: Pattern := [Ws, Opt(':'), Ws]

  /** `[A-Z0-9\-]` */
  const IdClass: CharClass := [Span('A', 'Z'), Span('0', '9'), Single('-')]

  /** `[/-]` */
  const DateSep: CharClass := [Single('/'), Single('-')]

  /** `[0-9,]` */
  const AmountClass: CharClass := [Span('0', '9'), Single(',')]

  /** `[A-Za-z0-9\s&.,]` */
  const VendorClass: CharClass :=
    [Span('A', 'Z'), Span('a', 'z'), Span('0', '9'), AnySpace, Single('&'), Single('.'), Single(',')]

  /** `[A-Za-z0-9\s\-]` */
  const DescriptionClass: CharClass :=
    [Span('A', 'Z'), Span('a', 'z'), Span('0', '9'), AnySpace, Single('-')]

  /** `\d{1,2}[/-]\d{1,2}[/-]\d{y,Y}` */
  function DateBody(yearMin: nat, yearMax: nat): Pattern {
    [Atom([AnyDigit], 1, AtMost(2)), Lit2(DateSep), Atom([AnyDigit], 1, AtMost(2)), Lit2(DateSep),
     Atom([AnyDigit], yearMin, AtMost(yearMax))]
  }

  /** Exactly one character of a class. */
  function Lit2(cls: CharClass): Atom {
    Atom(cls, 1, AtMost(1))
  }

  /** `\s*:?\s*\$?`, the separator before an amount. */
  const AmountLead: Pattern := Colon + [Opt('$')]

  /** `[0-9,]+\.\d{2}` */
  const AmountBody: Pattern := [Atom(AmountClass, 1, Unbounded), Lit('.'), Atom([AnyDigit], 2, AtMost(2))]

  /** `label\s*#?\s*:?\s*([A-Z0-9\-]+)` */
  function LabelledId(key: Pattern): Rule {
    Rule(key + [Ws, Opt('#'), Ws, Opt(':'), Ws], [Atom(IdClass, 1, Unbounded)], [])
  }

  /** `label\s*:?\s*\$?([0-9,]+\.\d{2})` */
  function LabelledAmount(key: Pattern): Rule {
    Rule(key + AmountLead, AmountBody, [])
  }

  /** `label\s*:?\s*([A-Za-z0-9\s&.,]+)(?:\n|\r)` */
  function LabelledVendor(key: Pattern): Rule {
    Rule(key + Colon, [Atom(VendorClass, 1, Unbounded)], [Lit2([Single('\n'), Single('\r')])])
  }

  /** Two words separated by `\s*`. */
  function Words(a: string, b: string): Pattern {
    Word(a) + [Ws] + Word(b)
  }

  // ---------------------------------------------------------------------
  // The pattern lists, in the order the extractors try them
  // ---------------------------------------------------------------------

  const InvoiceNumberRules: seq<Rule> := [
    LabelledId(Word("invoice")),
    LabelledId(Word("inv")),
    Rule(Words("invoice", "number") + Colon, [Atom(IdClass, 1, Unbounded)], []),
    Rule([Lit('#'), Ws], [Atom(IdClass, 5, Unbounded)], [])
  ]

  const DateRules: seq<Rule> := [
    Rule(Word("date") + Colon, DateBody(2, 4), []),
    Rule(Words("invoice", "date") + Colon, DateBody(2, 4), []),
    Rule([], DateBody(4, 4), [])
  ]

  const TotalRules: seq<Rule> := [
    LabelledAmount(Word("total")),
    LabelledAmount(Words("amount", "due")),
    LabelledAmount(Words("grand", "total")),
    LabelledAmount(Words("balance", "due"))
  ]

  const VendorRules: seq<Rule> := [
    LabelledVendor(Word("from")),
    LabelledVendor(Word("vendor")),
    LabelledVendor(Words("billed", "by"))
  ]

  const TaxRules: seq<Rule> := [
    LabelledAmount(Word("tax")),
    LabelledAmount(Word("vat")),
    LabelledAmount(Words("sales", "tax"))
  ]

  /** `([A-Za-z0-9\s\-]+)\s+(\d+)\s+\$?([0-9,]+\.\d{2})`: groups are atoms 0, 2 and 5..8. */
  const LineItemPattern: Pattern := [
    Atom(DescriptionClass, 1, Unbounded), Atom([AnySpace], 1, Unbounded),
    Atom([AnyDigit], 1, Unbounded), Atom([AnySpace], 1, Unbounded), Opt('$')
  ] + AmountBody

  const CurrencyPriority: seq<Currency> := [USD, EUR, GBP, CAD, AUD]

  function Code(c: Currency): string {
    match c
    case USD => "USD"
    case EUR => "EUR"
    case GBP => "GBP"
    case CAD => "CAD"
    case AUD => "AUD"
  }

  // ---------------------------------------------------------------------
  // Ordered first match
  // ---------------------------------------------------------------------

  /** Group 1 of a rule's hit. */
  function Captured(rule: Rule, s: string, icase: bool, h: Hit): string
    requires h.start <= |s| && IsParse(rule.Atoms(), 0, s, icase, h.start, h.ends)
  {
    Group(rule.Atoms(), s, icase, h, |rule.before|, |rule.before| + |rule.group|)
  }

  /** The rule at index `n` fires: its search succeeds and its group converts. */
  predicate Fires<T>(rules: seq<Rule>, n: nat, s: string, icase: bool, convert: string -> Option<T>)
    requires n < |rules|
  {
    match Search(rules[n].Atoms(), s, icase)
    case None => false
    case Some(h) => convert(Captured(rules[n], s, icase, h)).Some?
  }

  /**
   * The extractors' loop `for pattern in patterns: match = re.search(...)`:
   * the rules are tried in order from index `n`, each searched over the whole
   * text; the first whose group converts decides, and a rule whose group does
   * not convert is skipped (`continue`).
   */
  function FirstMatch<T>(rules: seq<Rule>, n: nat, s: string, icase: bool, convert: string -> Option<T>): (r: Option<Found<T>>)
    requires n <= |rules|
    ensures r.Some? ==>
      && n <= r.value.rule < |rules|
      && Search(rules[r.value.rule].Atoms(), s, icase) == Some(r.value.hit)
      && r.value.hit.start <= |s|
      && IsParse(rules[r.value.rule].Atoms(), 0, s, icase, r.value.hit.start, r.value.hit.ends)
      && r.value.group == Captured(rules[r.value.rule], s, icase, r.value.hit)
      && convert(r.value.group) == Some(r.value.value)
    ensures r.Some? ==> forall q :: n <= q < r.value.rule ==> !Fires(rules, q, s, icase, convert)
    ensures r.None? ==> forall q :: n <= q < |rules| ==> !Fires(rules, q, s, icase, convert)
    decreases |rules| - n
  {
    if n == |rules| then None
    else
      match Search(rules[n].Atoms(), s, icase)
      case None => FirstMatch(rules, n + 1, s, icase, convert)
      case Some(h) =>
        var g := Captured(rules[n], s, icase, h);
        match convert(g)
        case Some(v) => Some(Found(n, h, g, v))
        case None => FirstMatch(rules, n + 1, s, icase, convert)
  }

  /** The value of a first match, if any. */
  function ValueOf<T>(f: Option<Found<T>>): Option<T> {
    match f
    case None => None
    case Some(x) => Some(x.value)
  }

  // ---------------------------------------------------------------------
  // Conversions
  // ---------------------------------------------------------------------

  /** `match.group(1).strip()` */
  function StripGroup(g: string): Option<string> {
    Some(Strip(g))
  }

  /**
   * Python's `float(t)` in cents, for the literals `digits . digit digit`
   * (the integer part may be empty, as in `.50`); any other string is
   * reported as the `ValueError` the extractors catch.
   */
  function ParseCents(t: string): Option<nat> {
    if |t| >= 3 && t[|t| - 3] == '.' && AllDigits(t[..|t| - 3]) && AllDigits(t[|t| - 2..])
    then Some(DigitsValue(t[..|t| - 3]) * 100 + DigitsValue(t[|t| - 2..]))
    else None
  }

  /** `float(match.group(1).replace(',', ''))` */
  function AmountOf(g: string): Option<nat> {
    ParseCents(RemoveChar(g, ','))
  }

  /** The text shape `[0-9,]+ . d d` an amount group always has. */
  predicate IsAmountLiteral(g: string) {
    && |g| >= 4 && g[|g| - 3] == '.' && IsDigit(g[|g| - 2]) && IsDigit(g[|g| - 1])
    && forall k :: 0 <= k < |g| - 3 ==> IsDigit(g[k]) || g[k] == ','
  }

  /** What an amount literal is worth in cents: its integer part with commas dropped, then two fraction digits. */
  function LiteralCents(g: string): nat
    requires IsAmountLiteral(g)
  {
    CommaFreeDigits(g[..|g| - 3]);
    DigitsValue(RemoveChar(g[..|g| - 3], ',')) * 100 + DigitsValue(g[|g| - 2..])
  }

  // ---------------------------------------------------------------------
  // The extractors
  // ---------------------------------------------------------------------

  function ExtractInvoiceNumber(text: string): Option<string> {
    ValueOf(FirstMatch(InvoiceNumberRules, 0, text, true, StripGroup))
  }

  function ExtractDate(text: string): Option<string> {
    ValueOf(FirstMatch(DateRules, 0, text, true, StripGroup))
  }

  function ExtractTotalAmount(text: string): Option<nat> {
    ValueOf(FirstMatch(TotalRules, 0, text, true, AmountOf))
  }

  function ExtractTax(text: string): Option<nat> {
    ValueOf(FirstMatch(TaxRules, 0, text, true, AmountOf))
  }

  /** A labelled vendor if one matches; otherwise the stripped first line when its length is strictly between 3 and 100. */
  function ExtractVendor(text: string): Option<string> {
    match FirstMatch(VendorRules, 0, text, true, StripGroup)
    case Some(f) => Some(f.value)
    case None =>
      var firstLine := Strip(FirstLine(text));
      if 3 < |firstLine| < 100 then Some(firstLine) else None
  }

  /** One item per non-overlapping match, in text order (`re.finditer`, case-sensitive). */
  function ExtractLineItems(text: string): seq<LineItem> {
    var hits := FindAll(LineItemPattern, text, false);
    seq(|hits|, k requires 0 <= k < |hits| => ItemOf(text, hits[k]))
  }

  /** The item a line-item hit describes. */
  function ItemOf(text: string, h: Hit): LineItem
    requires h.start <= |text| && IsParse(LineItemPattern, 0, text, false, h.start, h.ends)
  {
    var description := Group(LineItemPattern, text, false, h, 0, 1);
    var quantity := Group(LineItemPattern, text, false, h, 2, 3);
    var amount := Group(LineItemPattern, text, false, h, 5, 8);
    AmountGroupShape(LineItemPattern, 5, text, false, h);
    LiteralConverts(amount);
    DigitGroup(text, h);
    LineItem(Strip(description), DigitsValue(quantity), AmountOf(amount).value)
  }

  /** The first currency of `codes` whose code occurs in `upper`, if any. */
  function FirstCode(codes: seq<Currency>, upper: string): (r: Option<Currency>)
    ensures r.Some? ==> exists n :: (0 <= n < |codes| && codes[n] == r.value && Contains(upper, Code(r.value))
                                     && forall m :: 0 <= m < n ==> !Contains(upper, Code(codes[m])))
    ensures r.None? ==> forall m :: 0 <= m < |codes| ==> !Contains(upper, Code(codes[m]))
  {
    if codes == [] then None
    else if Contains(upper, Code(codes[0])) then Some(codes[0])
    else
      var r := FirstCode(codes[1..], upper);
      assert r.Some? ==> exists n :: (0 <= n < |codes| && codes[n] == r.value && Contains(upper, Code(r.value))
                                       && forall m :: 0 <= m < n ==> !Contains(upper, Code(codes[m]))) by {
        if r.Some? {
          var n :| 0 <= n < |codes[1..]| && codes[1..][n] == r.value && Contains(upper, Code(r.value))
            && forall m :: 0 <= m < n ==> !Contains(upper, Code(codes[1..][m]));
          assert forall m :: 0 <= m < n + 1 ==> !Contains(upper, Code(codes[m])) by {
            forall m | 0 <= m < n + 1 ensures !Contains(upper, Code(codes[m])) {
              if m > 0 { assert codes[m] == codes[1..][m - 1]; }
            }
          }
        }
      }
      r
  }

  function ExtractCurrency(text: string): Currency {
    match FirstCode(CurrencyPriority, Upper(text))
    case Some(c) => c
    case None =>
      if HasChar(text, '$') then USD
      else if HasChar(text, '€') then EUR
      else if HasChar(text, '£') then GBP
      else USD
  }

  function ParseInvoice(text: string): InvoiceData {
    InvoiceData(
      ExtractInvoiceNumber(text),
      ExtractDate(text),
      ExtractTotalAmount(text),
      ExtractVendor(text),
      ExtractLineItems(text),
      ExtractTax(text),
      ExtractCurrency(text))
  }

  /** Both required fields, `invoice_number` and `total_amount`, are present and truthy. */
  predicate ValidateInvoiceData(d: InvoiceData) {
    && d.invoiceNumber.Some? && d.invoiceNumber.value != ""
    && d.totalAmount.Some? && d.totalAmount.value != 0
  }

  // ---------------------------------------------------------------------
  // Lemmas
  // ---------------------------------------------------------------------

  lemma {:induction false} CommaFreeDigits(s: string)
    requires forall k :: 0 <= k < |s| ==> IsDigit(s[k]) || s[k] == ','
    ensures AllDigits(RemoveChar(s, ','))
  {
    if s != [] {
      CommaFreeDigits(s[1..]);
    }
  }

  /** Converting an amount literal never fails, and yields its value in cents. */
  lemma LiteralConverts(g: string)
    requires IsAmountLiteral(g)
    ensures AmountOf(g) == Some(LiteralCents(g))
  {
    var n := |g| - 3;
    assert g == g[..n] + g[n..];
    RemoveCharAppend(g[..n], g[n..], ',');
    assert RemoveChar(g[n..], ',') == g[n..] by {
      assert !HasChar(g[n..], ',');
    }
    CommaFreeDigits(g[..n]);
    var t := RemoveChar(g, ',');
    var m := |RemoveChar(g[..n], ',')|;
    assert t[..m] == RemoveChar(g[..n], ',');
    assert t[m..] == g[n..];
    assert t[|t| - 2..] == g[|g| - 2..];
  }

  /** Case folding never turns a non-letter into a member of a class without letters. */
  lemma NonLetterClass(cls: CharClass, c: char, icase: bool)
    requires forall k :: 0 <= k < |cls| ==> cls[k].AnyDigit? || (cls[k].Single? && !('A' <= cls[k].c <= 'Z') && !('a' <= cls[k].c <= 'z'))
    requires InClass(cls, c, icase)
    ensures ClassHas(cls, c)
  {
  }

  lemma AmountChar(c: char, icase: bool)
    requires InClass(AmountClass, c, icase)
    ensures IsDigit(c) || c == ','
  {
  }

  lemma DigitClassChar(c: char, icase: bool)
    requires InClass([AnyDigit], c, icase)
    ensures IsDigit(c)
  {
    NonLetterClass([AnyDigit], c, icase);
  }

  lemma DotChar(c: char, icase: bool)
    requires InClass([Single('.')], c, icase)
    ensures c == '.'
  {
    NonLetterClass([Single('.')], c, icase);
  }

  /** Text that the three atoms of `[0-9,]+\.\d{2}` span one after another is an amount literal. */
  lemma AmountSpans(s: string, icase: bool, a0: nat, a1: nat, a2: nat, a3: nat)
    requires Spans(AmountBody[0], s, icase, a0, a1)
    requires Spans(AmountBody[1], s, icase, a1, a2)
    requires Spans(AmountBody[2], s, icase, a2, a3)
    ensures IsAmountLiteral(s[a0..a3])
  {
    var g := s[a0..a3];
    assert a1 - a0 >= 1 && a2 - a1 == 1 && a3 - a2 == 2;
    forall k | 0 <= k < |g| - 3 ensures IsDigit(g[k]) || g[k] == ',' {
      assert g[k] == s[a0 + k];
      AmountChar(s[a0 + k], icase);
    }
    DotChar(s[a1], icase);
    DigitClassChar(s[a2], icase);
    DigitClassChar(s[a2 + 1], icase);
    assert g[|g| - 3] == s[a1] && g[|g| - 2] == s[a2] && g[|g| - 1] == s[a2 + 1];
  }

  /** An amount group `[0-9,]+\.\d{2}` spanning atoms `lo..lo+3` of a parse is an amount literal. */
  lemma AmountGroupShape(p: Pattern, lo: nat, s: string, icase: bool, h: Hit)
    requires lo + 3 <= |p| && p[lo..lo + 3] == AmountBody
    requires h.start <= |s| && IsParse(p, 0, s, icase, h.start, h.ends)
    ensures IsAmountLiteral(Group(p, s, icase, h, lo, lo + 3))
  {
    ParseShape(p, 0, s, icase, h.start, h.ends);
    assert p[lo] == AmountBody[0] && p[lo + 1] == AmountBody[1] && p[lo + 2] == AmountBody[2];
    ParseAtom(p, 0, s, icase, h.start, h.ends, lo);
    ParseAtom(p, 0, s, icase, h.start, h.ends, lo + 1);
    ParseAtom(p, 0, s, icase, h.start, h.ends, lo + 2);
    AmountSpans(s, icase, Boundary(h.start, h.ends, lo), Boundary(h.start, h.ends, lo + 1),
      Boundary(h.start, h.ends, lo + 2), Boundary(h.start, h.ends, lo + 3));
  }

  /** The quantity group of a line item is a string of digits. */
  lemma DigitGroup(text: string, h: Hit)
    requires h.start <= |text| && IsParse(LineItemPattern, 0, text, false, h.start, h.ends)
    ensures AllDigits(Group(LineItemPattern, text, false, h, 2, 3))
  {
    ParseShape(LineItemPattern, 0, text, false, h.start, h.ends);
    ParseAtom(LineItemPattern, 0, text, false, h.start, h.ends, 2);
    var g := Group(LineItemPattern, text, false, h, 2, 3);
    forall k | 0 <= k < |g| ensures IsDigit(g[k]) {
      DigitClassChar(text[Boundary(h.start, h.ends, 2) + k], false);
    }
  }

  // ---------------------------------------------------------------------
  // First match: absence and shadowing
  // ---------------------------------------------------------------------

  /** Every rule whose search succeeds also fires: the conversion accepts whatever the rules capture. */
  predicate AlwaysConverts<T>(rules: seq<Rule>, s: string, icase: bool, convert: string -> Option<T>) {
    forall q :: 0 <= q < |rules| ==> Search(rules[q].Atoms(), s, icase).None? || Fires(rules, q, s, icase, convert)
  }

  /** No rule of the list matches anywhere in the text. */
  ghost predicate NoRuleMatches(rules: seq<Rule>, s: string, icase: bool) {
    forall q: nat, k: nat, ends: seq<nat> :: q < |rules| && k <= |s| ==> !IsParse(rules[q].Atoms(), 0, s, icase, k, ends)
  }

  /** When conversion never fails, the extractors find nothing exactly when no rule matches anywhere. */
  lemma NoneIffNoMatch<T>(rules: seq<Rule>, s: string, icase: bool, convert: string -> Option<T>)
    requires AlwaysConverts(rules, s, icase, convert)
    ensures FirstMatch(rules, 0, s, icase, convert).None? <==> NoRuleMatches(rules, s, icase)
  {
    var r := FirstMatch(rules, 0, s, icase, convert);
    if r.None? {
      forall q: nat, k: nat, ends: seq<nat> | q < |rules| && k <= |s|
        ensures !IsParse(rules[q].Atoms(), 0, s, icase, k, ends)
      {
        assert !Fires(rules, q, s, icase, convert);
        SearchNone(rules[q].Atoms(), s, icase, k, ends);
      }
    } else {
      var f := r.value;
      assert IsParse(rules[f.rule].Atoms(), 0, s, icase, f.hit.start, f.hit.ends);
    }
  }

  /**
   * Rule `b` never decides when an earlier rule `a` is a tail of it (`b`'s
   * atoms from `d` on are `a`'s atoms): wherever `b` matches, `a` matches too.
   */
  lemma SuffixShadowed<T>(rules: seq<Rule>, a: nat, b: nat, d: nat, s: string, icase: bool, convert: string -> Option<T>)
    requires a < b < |rules| && d <= |rules[b].Atoms()| && rules[b].Atoms()[d..] == rules[a].Atoms()
    requires AlwaysConverts(rules, s, icase, convert)
    ensures FirstMatch(rules, 0, s, icase, convert).Some? ==> FirstMatch(rules, 0, s, icase, convert).value.rule != b
  {
    var r := FirstMatch(rules, 0, s, icase, convert);
    if r.Some? && r.value.rule == b {
      var h := r.value.hit;
      var p := rules[b].Atoms();
      ParseShape(p, 0, s, icase, h.start, h.ends);
      ParseSuffix(p, 0, s, icase, h.start, h.ends, d);
      var k := Boundary(h.start, h.ends, d);
      ParseDrop(p, d, 0, s, icase, k, h.ends[d..]);
      SearchFindsLeftmost(rules[a].Atoms(), s, icase, 0, k, h.ends[d..]);
      assert false;
    }
  }

  /** Stripping a group never fails. */
  lemma StripConverts(rules: seq<Rule>, s: string, icase: bool)
    ensures AlwaysConverts(rules, s, icase, StripGroup)
  {
  }

  /** The amount rules capture `[0-9,]+\.\d{2}` as their whole tail. */
  predicate AmountRules(rules: seq<Rule>) {
    forall q :: 0 <= q < |rules| ==> rules[q].group == AmountBody && rules[q].after == []
  }

  /** An amount rule's group is an amount literal, which always converts. */
  lemma AmountCaptured(rule: Rule, s: string, icase: bool, h: Hit)
    requires rule.group == AmountBody && rule.after == []
    requires h.start <= |s| && IsParse(rule.Atoms(), 0, s, icase, h.start, h.ends)
    ensures IsAmountLiteral(Captured(rule, s, icase, h))
    ensures AmountOf(Captured(rule, s, icase, h)) == Some(LiteralCents(Captured(rule, s, icase, h)))
  {
    var p := rule.Atoms();
    var lo := |rule.before|;
    assert p[lo..lo + 3] == AmountBody;
    AmountGroupShape(p, lo, s, icase, h);
    LiteralConverts(Captured(rule, s, icase, h));
  }

  lemma AmountConverts(rules: seq<Rule>, s: string, icase: bool)
    requires AmountRules(rules)
    ensures AlwaysConverts(rules, s, icase, AmountOf)
  {
    forall q | 0 <= q < |rules| && Search(rules[q].Atoms(), s, icase).Some?
      ensures Fires(rules, q, s, icase, AmountOf)
    {
      AmountCaptured(rules[q], s, icase, Search(rules[q].Atoms(), s, icase).value);
    }
  }

  /**
   * What an amount extractor returns: the cents value of an amount literal
   * that occurs in the text, captured by the first rule that matches; and
   * nothing exactly when no rule matches anywhere.
   */
  lemma AmountFound(rules: seq<Rule>, text: string)
    requires AmountRules(rules)
    ensures var r := FirstMatch(rules, 0, text, true, AmountOf);
      r.Some? ==> IsAmountLiteral(r.value.group) && Contains(text, r.value.group) && r.value.value == LiteralCents(r.value.group)
    ensures FirstMatch(rules, 0, text, true, AmountOf).None? <==> NoRuleMatches(rules, text, true)
  {
    AmountConverts(rules, text, true);
    NoneIffNoMatch(rules, text, true, AmountOf);
    AmountLiteralFound(rules, text);
  }

  lemma AmountLiteralFound(rules: seq<Rule>, text: string)
    requires AmountRules(rules)
    ensures var r := FirstMatch(rules, 0, text, true, AmountOf);
      r.Some? ==> IsAmountLiteral(r.value.group) && Contains(text, r.value.group) && r.value.value == LiteralCents(r.value.group)
  {
    var r := FirstMatch(rules, 0, text, true, AmountOf);
    if r.Some? {
      var f := r.value;
      var rule := rules[f.rule];
      AmountCaptured(rule, text, true, f.hit);
      GroupOccurs(rule.Atoms(), text, true, f.hit, |rule.before|, |rule.before| + |rule.group|);
    }
  }

  // ---------------------------------------------------------------------
  // What each extractor returns
  // ---------------------------------------------------------------------

  /**
   * `total_amount`: the cents value of an amount literal occurring in the
   * text, or nothing exactly when none of the four labels is followed by an
   * amount anywhere.
   */
  lemma TotalAmountSpec(text: string)
    ensures ExtractTotalAmount(text).Some? ==>
      exists g :: IsAmountLiteral(g) && Contains(text, g) && ExtractTotalAmount(text).value == LiteralCents(g)
    ensures ExtractTotalAmount(text).None? <==> NoRuleMatches(TotalRules, text, true)
  {
    AmountFound(TotalRules, text);
  }

  /** `tax_amount`, likewise over the three tax labels. */
  lemma TaxSpec(text: string)
    ensures ExtractTax(text).Some? ==>
      exists g :: IsAmountLiteral(g) && Contains(text, g) && ExtractTax(text).value == LiteralCents(g)
    ensures ExtractTax(text).None? <==> NoRuleMatches(TaxRules, text, true)
  {
    AmountFound(TaxRules, text);
  }

  /**
   * The `grand total` rule never decides: its tail is the `total` rule,
   * which is tried first, so a grand total is always read by `total`.
   */
  lemma GrandTotalNeverDecides(text: string)
    ensures FirstMatch(TotalRules, 0, text, true, AmountOf).Some? ==>
      FirstMatch(TotalRules, 0, text, true, AmountOf).value.rule != 2
  {
    AmountConverts(TotalRules, text, true);
    GrandTotalTail();
    SuffixShadowed(TotalRules, 0, 2, 6, text, true, AmountOf);
  }

  /** `grand total` ends with the whole `total` rule. */
  lemma GrandTotalTail()
    ensures TotalRules[2].Atoms()[6..] == TotalRules[0].Atoms()
  {
  }

  /** The `sales tax` rule never decides: `tax` is tried first and matches its tail. */
  lemma SalesTaxNeverDecides(text: string)
    ensures FirstMatch(TaxRules, 0, text, true, AmountOf).Some? ==>
      FirstMatch(TaxRules, 0, text, true, AmountOf).value.rule != 2
  {
    AmountConverts(TaxRules, text, true);
    SalesTaxTail();
    SuffixShadowed(TaxRules, 0, 2, 6, text, true, AmountOf);
  }

  /** `sales tax` ends with the whole `tax` rule. */
  lemma SalesTaxTail()
    ensures TaxRules[2].Atoms()[6..] == TaxRules[0].Atoms()
  {
  }

  /** Letters of either case, digits and hyphens: what `[A-Z0-9\-]` accepts under `re.IGNORECASE`. */
  predicate IsIdChar(c: char) {
    'A' <= c <= 'Z' || 'a' <= c <= 'z' || IsDigit(c) || c == '-'
  }

  lemma IdChar(c: char)
    requires InClass(IdClass, c, true)
    ensures IsIdChar(c)
  {
  }

  /** A one-atom group with a minimum of at least one captures a non-empty run of class members. */
  lemma RunGroup(rule: Rule, s: string, icase: bool, h: Hit)
    requires |rule.group| == 1 && rule.group[0].min >= 1
    requires h.start <= |s| && IsParse(rule.Atoms(), 0, s, icase, h.start, h.ends)
    ensures var g := Captured(rule, s, icase, h);
      |g| >= 1 && forall k :: 0 <= k < |g| ==> InClass(rule.group[0].cls, g[k], icase)
  {
    var p := rule.Atoms();
    var lo := |rule.before|;
    assert p[lo] == rule.group[0];
    ParseShape(p, 0, s, icase, h.start, h.ends);
    ParseAtom(p, 0, s, icase, h.start, h.ends, lo);
  }

  /** The invoice-number rules all capture one run `[A-Z0-9\-]{m,}` with `m >= 1`. */
  lemma IdRules(q: nat)
    requires q < |InvoiceNumberRules|
    ensures |InvoiceNumberRules[q].group| == 1 && InvoiceNumberRules[q].group[0].cls == IdClass
    ensures InvoiceNumberRules[q].group[0].min >= 1
  {
  }

  /** An identifier group is a non-empty run of identifier characters from the text, unchanged by stripping. */
  lemma IdCaptured(rule: Rule, s: string, h: Hit)
    requires |rule.group| == 1 && rule.group[0].cls == IdClass && rule.group[0].min >= 1
    requires h.start <= |s| && IsParse(rule.Atoms(), 0, s, true, h.start, h.ends)
    ensures var g := Captured(rule, s, true, h);
      |g| >= 1 && Strip(g) == g && Contains(s, g) && forall k :: 0 <= k < |g| ==> IsIdChar(g[k])
  {
    var g := Captured(rule, s, true, h);
    RunGroup(rule, s, true, h);
    forall k | 0 <= k < |g| ensures IsIdChar(g[k]) {
      IdChar(g[k]);
    }
    StripNoSpace(g);
    GroupOccurs(rule.Atoms(), s, true, h, |rule.before|, |rule.before| + |rule.group|);
  }

  /**
   * `invoice_number`: a non-empty run of letters, digits and hyphens taken
   * from the text (so `strip()` never shortens it), or nothing exactly when
   * no rule matches anywhere.
   */
  lemma InvoiceNumberSpec(text: string)
    ensures ExtractInvoiceNumber(text).Some? ==>
      var n := ExtractInvoiceNumber(text).value;
      |n| >= 1 && Contains(text, n) && forall k :: 0 <= k < |n| ==> IsIdChar(n[k])
    ensures ExtractInvoiceNumber(text).None? <==> NoRuleMatches(InvoiceNumberRules, text, true)
  {
    StripConverts(InvoiceNumberRules, text, true);
    NoneIffNoMatch(InvoiceNumberRules, text, true, StripGroup);
    var r := FirstMatch(InvoiceNumberRules, 0, text, true, StripGroup);
    if r.Some? {
      var f := r.value;
      IdRules(f.rule);
      IdCaptured(InvoiceNumberRules[f.rule], text, f.hit);
    }
  }

  /** The identifier `[A-Z0-9\-]+` may start right after `invoice\s*` with the `n` of `number`. */
  lemma IdTailParse(text: string, b: nat, x: nat)
    requires Spans(Ws, text, true, b, x) && x < |text| && (text[x] == 'n' || text[x] == 'N')
    ensures IsParse(InvoiceTail, 0, text, true, b, [x, x, x, x, x, x + 1])
  {
    var tail := InvoiceTail;
    assert ItemHas(IdClass[0], ToUpper(text[x]));
    assert IsParse(tail, 6, text, true, x + 1, []);
    assert IsParse(tail, 5, text, true, x, [x + 1]);
    assert IsParse(tail, 4, text, true, x, [x, x + 1]);
    assert IsParse(tail, 3, text, true, x, [x, x, x + 1]);
    assert IsParse(tail, 2, text, true, x, [x, x, x, x + 1]);
    assert IsParse(tail, 1, text, true, x, [x, x, x, x, x + 1]);
  }

  /** `invoice` followed by the separator and identifier of the first rule. */
  const InvoiceTail: Pattern := [Ws, Opt('#'), Ws, Opt(':'), Ws, Atom(IdClass, 1, Unbounded)]

  lemma InvoiceRulesShape()
    ensures Word("invoice") + InvoiceTail == InvoiceNumberRules[0].Atoms()
    ensures var p2 := InvoiceNumberRules[2].Atoms();
      |p2| == 18 && p2 == Word("invoice") + p2[7..] && p2[7] == Ws && p2[8] == Lit('n')
  {
  }

  /** Wherever `invoice\s*number\s*:?\s*([A-Z0-9\-]+)` matches, `invoice\s*#?\s*:?\s*([A-Z0-9\-]+)` matches too. */
  lemma NumberLabelMatchesInvoice(text: string, k: nat, e: seq<nat>)
    requires k <= |text| && IsParse(InvoiceNumberRules[2].Atoms(), 0, text, true, k, e)
    ensures Search(InvoiceNumberRules[0].Atoms(), text, true).Some?
  {
    var p2 := InvoiceNumberRules[2].Atoms();
    var w := Word("invoice");
    InvoiceRulesShape();
    ParsePrefix(w, p2[7..], 0, text, true, k, e);
    ParseAtom(p2, 0, text, true, k, e, 7);
    ParseAtom(p2, 0, text, true, k, e, 8);
    IdTailParse(text, e[6], e[7]);
    var t := [e[7], e[7], e[7], e[7], e[7], e[7] + 1];
    ParseConcat(w, InvoiceTail, 0, text, true, k, e[..7], t);
    SearchFindsLeftmost(w + InvoiceTail, text, true, 0, k, e[..7] + t);
  }

  /**
   * The `invoice number` rule never decides: wherever it matches, the
   * `invoice` rule tried first matches at the same place, taking the `N` of
   * `Number` as its identifier.
   */
  lemma InvoiceNumberLabelNeverDecides(text: string)
    ensures FirstMatch(InvoiceNumberRules, 0, text, true, StripGroup).Some? ==>
      FirstMatch(InvoiceNumberRules, 0, text, true, StripGroup).value.rule != 2
  {
    var r := FirstMatch(InvoiceNumberRules, 0, text, true, StripGroup);
    if r.Some? && r.value.rule == 2 {
      NumberLabelMatchesInvoice(text, r.value.hit.start, r.value.hit.ends);
      assert Fires(InvoiceNumberRules, 0, text, true, StripGroup);
    }
  }

  /** `d{1,2} sep d{1,2} sep d{2,4}`, the separators `/` or `-` at indices `i` and `j`. */
  predicate DateAt(d: string, i: int, j: int) {
    && 1 <= i <= 2 && i + 2 <= j <= i + 3 && j + 3 <= |d| <= j + 5
    && (d[i] == '/' || d[i] == '-') && (d[j] == '/' || d[j] == '-')
    && forall k :: 0 <= k < |d| && k != i && k != j ==> IsDigit(d[k])
  }

  ghost predicate IsDateLiteral(d: string) {
    exists i, j :: DateAt(d, i, j)
  }

  lemma SepChar(c: char, icase: bool)
    requires InClass(DateSep, c, icase)
    ensures c == '/' || c == '-'
  {
    NonLetterClass(DateSep, c, icase);
  }

  /** A digit run `\d{m,n}` under any case mode is ASCII digits. */
  lemma DigitRun(s: string, icase: bool, m: nat, n: nat, a: nat, b: nat)
    requires Spans(Atom([AnyDigit], m, AtMost(n)), s, icase, a, b)
    ensures forall k :: a <= k < b ==> IsDigit(s[k])
  {
    forall k | a <= k < b ensures IsDigit(s[k]) {
      DigitClassChar(s[k], icase);
    }
  }

  /** Five consecutive spans of the date atoms make a date literal. */
  lemma DateChars(s: string, icase: bool, yearMin: nat, b0: nat, b1: nat, b2: nat, b3: nat, b4: nat, b5: nat)
    requires 2 <= yearMin
    requires Spans(Atom([AnyDigit], 1, AtMost(2)), s, icase, b0, b1)
    requires Spans(Lit2(DateSep), s, icase, b1, b2)
    requires Spans(Atom([AnyDigit], 1, AtMost(2)), s, icase, b2, b3)
    requires Spans(Lit2(DateSep), s, icase, b3, b4)
    requires Spans(Atom([AnyDigit], yearMin, AtMost(4)), s, icase, b4, b5)
    ensures DateAt(s[b0..b5], b1 - b0, b3 - b0) && IsDateLiteral(s[b0..b5])
  {
    DigitRun(s, icase, 1, 2, b0, b1);
    DigitRun(s, icase, 1, 2, b2, b3);
    DigitRun(s, icase, yearMin, 4, b4, b5);
    SepChar(s[b1], icase);
    SepChar(s[b3], icase);
    var g := s[b0..b5];
    forall k | 0 <= k < |g| && k != b1 - b0 && k != b3 - b0 ensures IsDigit(g[k]) {
      assert g[k] == s[b0 + k];
    }
    assert DateAt(g, b1 - b0, b3 - b0);
  }

  /** The five atoms of a date body, one by one. */
  lemma DateBodyAtoms(p: Pattern, lo: nat, yearMin: nat)
    requires lo + 5 <= |p| && p[lo..lo + 5] == DateBody(yearMin, 4)
    ensures var d2, sep := Atom([AnyDigit], 1, AtMost(2)), Lit2(DateSep);
      p[lo] == d2 && p[lo + 1] == sep && p[lo + 2] == d2 && p[lo + 3] == sep
      && p[lo + 4] == Atom([AnyDigit], yearMin, AtMost(4))
  {
    assert p[lo..lo + 5][0] == p[lo];
    assert p[lo..lo + 5][1] == p[lo + 1];
    assert p[lo..lo + 5][2] == p[lo + 2];
    assert p[lo..lo + 5][3] == p[lo + 3];
    assert p[lo..lo + 5][4] == p[lo + 4];
  }

  /** A date group spanning atoms `lo..lo+5` of a parse is a date literal. */
  lemma DateGroupShape(p: Pattern, lo: nat, yearMin: nat, s: string, icase: bool, h: Hit)
    requires 2 <= yearMin && lo + 5 <= |p| && p[lo..lo + 5] == DateBody(yearMin, 4)
    requires h.start <= |s| && IsParse(p, 0, s, icase, h.start, h.ends)
    ensures IsDateLiteral(Group(p, s, icase, h, lo, lo + 5))
  {
    ParseShape(p, 0, s, icase, h.start, h.ends);
    DateBodyAtoms(p, lo, yearMin);
    var b0, b1, b2 := Boundary(h.start, h.ends, lo), Boundary(h.start, h.ends, lo + 1), Boundary(h.start, h.ends, lo + 2);
    var b3, b4, b5 := Boundary(h.start, h.ends, lo + 3), Boundary(h.start, h.ends, lo + 4), Boundary(h.start, h.ends, lo + 5);
    ParseAtom(p, 0, s, icase, h.start, h.ends, lo);
    ParseAtom(p, 0, s, icase, h.start, h.ends, lo + 1);
    ParseAtom(p, 0, s, icase, h.start, h.ends, lo + 2);
    ParseAtom(p, 0, s, icase, h.start, h.ends, lo + 3);
    ParseAtom(p, 0, s, icase, h.start, h.ends, lo + 4);
    DateChars(s, icase, yearMin, b0, b1, b2, b3, b4, b5);
  }

  lemma DateNoSpace(d: string)
    requires IsDateLiteral(d)
    ensures Strip(d) == d
  {
    var i, j :| DateAt(d, i, j);
    StripNoSpace(d);
  }

  lemma DateRuleShape(q: nat)
    requires q < |DateRules|
    ensures var rule := DateRules[q];
      rule.after == [] && |rule.group| == 5 && rule.Atoms()[|rule.before|..|rule.before| + 5] == rule.group
      && (rule.group == DateBody(2, 4) || rule.group == DateBody(4, 4))
  {
  }

  /**
   * `date`: a date literal `d{1,2}[/-]d{1,2}[/-]d{2,4}` taken from the text
   * (so `strip()` never shortens it), or nothing exactly when no rule
   * matches anywhere.
   */
  lemma DateSpec(text: string)
    ensures ExtractDate(text).Some? ==> IsDateLiteral(ExtractDate(text).value) && Contains(text, ExtractDate(text).value)
    ensures ExtractDate(text).None? <==> NoRuleMatches(DateRules, text, true)
  {
    StripConverts(DateRules, text, true);
    NoneIffNoMatch(DateRules, text, true, StripGroup);
    var r := FirstMatch(DateRules, 0, text, true, StripGroup);
    if r.Some? {
      var f := r.value;
      var rule := DateRules[f.rule];
      var p := rule.Atoms();
      var lo := |rule.before|;
      DateRuleShape(f.rule);
      ParseShape(p, 0, text, true, f.hit.start, f.hit.ends);
      DateGroupShape(p, lo, if rule.group == DateBody(2, 4) then 2 else 4, text, true, f.hit);
      DateNoSpace(f.group);
      GroupOccurs(p, text, true, f.hit, lo, lo + 5);
    }
  }

  /** The `invoice date` rule never decides: its tail is the `date` rule, which is tried first. */
  lemma InvoiceDateNeverDecides(text: string)
    ensures FirstMatch(DateRules, 0, text, true, StripGroup).Some? ==>
      FirstMatch(DateRules, 0, text, true, StripGroup).value.rule != 1
  {
    StripConverts(DateRules, text, true);
    assert DateRules[1].Atoms()[8..] == DateRules[0].Atoms();
    SuffixShadowed(DateRules, 0, 1, 8, text, true, StripGroup);
  }

  /** A stripped piece of an occurrence occurs at the same place or later. */
  lemma StripOccurs(s: string, g: string, a: int)
    requires OccursAt(s, g, a)
    ensures Contains(s, Strip(g))
  {
    var b := StripDropsOnlySpace(g);
    OccursWithin(s, g, Strip(g), a, b);
  }

  /**
   * `vendor`: a labelled vendor wins whenever any vendor label matches, and
   * is a stripped piece of the text. Otherwise the vendor is the stripped
   * first line exactly when that is longer than 3 and shorter than 100
   * characters; it then contains no line break.
   */
  lemma VendorSpec(text: string)
    ensures ExtractVendor(text).Some? ==>
      var v := ExtractVendor(text).value;
      (v == [] || (!IsSpace(v[0]) && !IsSpace(v[|v| - 1]))) && Contains(text, v)
    ensures !NoRuleMatches(VendorRules, text, true) ==> ExtractVendor(text).Some?
    ensures NoRuleMatches(VendorRules, text, true) ==>
      (ExtractVendor(text).Some? <==> 3 < |Strip(FirstLine(text))| < 100)
    ensures NoRuleMatches(VendorRules, text, true) && ExtractVendor(text).Some? ==>
      var v := ExtractVendor(text).value;
      3 < |v| < 100 && !HasChar(v, '\n') && Contains(FirstLine(text), v)
  {
    StripConverts(VendorRules, text, true);
    NoneIffNoMatch(VendorRules, text, true, StripGroup);
    var r := FirstMatch(VendorRules, 0, text, true, StripGroup);
    if r.Some? {
      LabelledVendorOccurs(text);
    } else {
      FirstLineVendorOccurs(text);
    }
  }

  lemma LabelledVendorOccurs(text: string)
    requires FirstMatch(VendorRules, 0, text, true, StripGroup).Some?
    ensures var v := FirstMatch(VendorRules, 0, text, true, StripGroup).value.value;
      v == Strip(FirstMatch(VendorRules, 0, text, true, StripGroup).value.group) && Contains(text, v)
  {
    var f := FirstMatch(VendorRules, 0, text, true, StripGroup).value;
    var rule := VendorRules[f.rule];
    GroupOccurs(rule.Atoms(), text, true, f.hit, |rule.before|, |rule.before| + |rule.group|);
    StripOccurs(text, f.group, Boundary(f.hit.start, f.hit.ends, |rule.before|));
  }

  lemma FirstLineVendorOccurs(text: string)
    ensures var v := Strip(FirstLine(text));
      !HasChar(v, '\n') && Contains(FirstLine(text), v) && Contains(text, v)
  {
    var line := FirstLine(text);
    var v := Strip(line);
    assert OccursAt(text, line, 0);
    StripOccurs(text, line, 0);
    StripOccurs(line, line, 0);
  }

  /** A currency's place in the priority order `USD, EUR, GBP, CAD, AUD`. */
  function Rank(c: Currency): (n: nat)
    ensures n < |CurrencyPriority| && CurrencyPriority[n] == c
  {
    match c
    case USD => 0
    case EUR => 1
    case GBP => 2
    case CAD => 3
    case AUD => 4
  }

  /**
   * `currency`: when some currency code occurs in the upper-cased text, the
   * one earliest in the priority order; otherwise decided by the symbols,
   * `$` before `€` before `£`, defaulting to USD (never CAD or AUD).
   */
  lemma CurrencySpec(text: string)
    ensures var c, u := ExtractCurrency(text), Upper(text);
      (exists d :: Contains(u, Code(d))) ==>
        Contains(u, Code(c)) && forall d :: Rank(d) < Rank(c) ==> !Contains(u, Code(d))
    ensures var c, u := ExtractCurrency(text), Upper(text);
      (forall d :: !Contains(u, Code(d))) ==>
        && (c == EUR <==> !HasChar(text, '$') && HasChar(text, '€'))
        && (c == GBP <==> !HasChar(text, '$') && !HasChar(text, '€') && HasChar(text, '£'))
        && c != CAD && c != AUD
  {
    var u := Upper(text);
    var r := FirstCode(CurrencyPriority, u);
    if r.Some? {
      var n :| 0 <= n < |CurrencyPriority| && CurrencyPriority[n] == r.value && Contains(u, Code(r.value))
        && forall m :: 0 <= m < n ==> !Contains(u, Code(CurrencyPriority[m]));
      assert Rank(r.value) == n;
      forall d | Rank(d) < n ensures !Contains(u, Code(d)) {
        assert CurrencyPriority[Rank(d)] == d;
      }
    } else {
      forall d ensures !Contains(u, Code(d)) {
        assert CurrencyPriority[Rank(d)] == d;
      }
    }
  }

  lemma UpperIdempotent(s: string)
    ensures Upper(Upper(s)) == Upper(s)
  {
  }

  lemma UpperKeepsSymbol(s: string, c: char)
    requires !('a' <= c <= 'z') && !('A' <= c <= 'Z')
    ensures HasChar(Upper(s), c) <==> HasChar(s, c)
  {
    if HasChar(Upper(s), c) {
      var k :| 0 <= k < |s| && Upper(s)[k] == c;
      assert s[k] == c;
    }
    if HasChar(s, c) {
      var k :| 0 <= k < |s| && s[k] == c;
      assert Upper(s)[k] == c;
    }
  }

  /** Currency detection ignores letter case: upper-casing the text first changes nothing. */
  lemma CurrencyIgnoresCase(text: string)
    ensures ExtractCurrency(Upper(text)) == ExtractCurrency(text)
  {
    var u := Upper(text);
    UpperIdempotent(text);
    UpperKeepsSymbol(text, '$');
    UpperKeepsSymbol(text, '€');
    UpperKeepsSymbol(text, '£');
    assert FirstCode(CurrencyPriority, Upper(u)) == FirstCode(CurrencyPriority, u);
  }

  /** A stripped description, a digit-string quantity and an amount literal, all pieces of the text. */
  ghost predicate ItemFromText(text: string, item: LineItem) {
    && (exists d :: Contains(text, d) && item.description == Strip(d))
    && (exists q :: AllDigits(q) && |q| >= 1 && Contains(text, q) && item.quantity == DigitsValue(q))
    && (exists g :: IsAmountLiteral(g) && Contains(text, g) && item.amount == LiteralCents(g))
  }

  /** What one line-item match yields is built from pieces of the text. */
  lemma ItemSpec(text: string, h: Hit)
    requires h.start <= |text| && IsParse(LineItemPattern, 0, text, false, h.start, h.ends)
    ensures ItemFromText(text, ItemOf(text, h))
  {
    var p := LineItemPattern;
    var item := ItemOf(text, h);
    ParseShape(p, 0, text, false, h.start, h.ends);
    var d := Group(p, text, false, h, 0, 1);
    var q := Group(p, text, false, h, 2, 3);
    var g := Group(p, text, false, h, 5, 8);
    DigitGroup(text, h);
    QuantityGroup(text, h);
    LineItemAmountAtoms();
    AmountGroupShape(p, 5, text, false, h);
    LiteralConverts(g);
    assert item == LineItem(Strip(d), DigitsValue(q), AmountOf(g).value);
    GroupOccurs(p, text, false, h, 0, 1);
    GroupOccurs(p, text, false, h, 2, 3);
    GroupOccurs(p, text, false, h, 5, 8);
    assert Contains(text, d) && item.description == Strip(d);
    assert AllDigits(q) && |q| >= 1 && Contains(text, q) && item.quantity == DigitsValue(q);
    assert IsAmountLiteral(g) && Contains(text, g) && item.amount == LiteralCents(g);
  }

  lemma LineItemAmountAtoms()
    ensures |LineItemPattern| == 8 && LineItemPattern[5..8] == AmountBody
  {
  }

  lemma QuantityGroup(text: string, h: Hit)
    requires h.start <= |text| && IsParse(LineItemPattern, 0, text, false, h.start, h.ends)
    ensures |Group(LineItemPattern, text, false, h, 2, 3)| >= 1
  {
    ParseShape(LineItemPattern, 0, text, false, h.start, h.ends);
    ParseAtom(LineItemPattern, 0, text, false, h.start, h.ends, 2);
  }

  /** The line-item matches are taken left to right without overlapping. */
  lemma LineItemHitsAdvance(text: string)
    ensures var hits := FindAll(LineItemPattern, text, false);
      forall t :: 0 <= t < |hits| - 1 ==>
        hits[t].start < hits[t + 1].start && EndOf(LineItemPattern, hits[t].start, hits[t].ends) <= hits[t + 1].start
  {
    var hits := FindAll(LineItemPattern, text, false);
    forall t | 0 <= t < |hits| - 1
      ensures hits[t].start < hits[t + 1].start
    {
      assert hits[t] in hits;
      ParseLength(LineItemPattern, 0, text, false, hits[t].start, hits[t].ends);
    }
  }

  /**
   * `items`: one item per match, the matches taken left to right without
   * overlapping and none skipped, each item built from pieces of the text.
   */
  lemma LineItemsSpec(text: string)
    ensures var hits, items := FindAll(LineItemPattern, text, false), ExtractLineItems(text);
      && |items| == |hits|
      && (forall t :: 0 <= t < |hits| - 1 ==>
            hits[t].start < hits[t + 1].start && EndOf(LineItemPattern, hits[t].start, hits[t].ends) <= hits[t + 1].start)
      && MissesNone(LineItemPattern, text, false, hits, 0)
      && forall t :: 0 <= t < |items| ==> ItemFromText(text, items[t])
  {
    var hits := FindAll(LineItemPattern, text, false);
    LineItemHitsAdvance(text);
    FindAllFromMissesNone(LineItemPattern, text, false, 0);
    forall t | 0 <= t < |hits| ensures ItemFromText(text, ExtractLineItems(text)[t]) {
      assert hits[t] in hits;
      assert ItemOf(text, hits[t]) == ExtractLineItems(text)[t];
      ItemSpec(text, hits[t]);
    }
  }

  /**
   * `validate_invoice_data` on a parsed invoice: valid exactly when some
   * invoice-number rule matches and a total amount is found and is not zero.
   */
  lemma ParseInvoiceValid(text: string)
    ensures ValidateInvoiceData(ParseInvoice(text)) <==>
      !NoRuleMatches(InvoiceNumberRules, text, true) && ExtractTotalAmount(text).Some? && ExtractTotalAmount(text).value > 0
  {
    InvoiceNumberSpec(text);
  }
}
