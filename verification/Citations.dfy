/** Evidence citations: validating an item, printing it, reading a citation back, verifying it. */
module Citations {
  import opened Common
  import opened DelimitedText
  import opened Numerals
  import opened Ordering
  import Text

  const MAX_ITEMS := 24
  const MAX_CITATION_BYTES := 600
  const ALLOWED_STATUSES := ["VERIFIED", "DISCREPANCY", "NOT_FOUND", "DENIED"]

  /** An item as the tool reports it: a field is None when it is missing or of the wrong type. */
  datatype Item = Item(path: Option<string>, sha256: Option<string>, lineStart: Option<int>, lineEnd: Option<int>,
                       status: Option<string>, trust: Option<string>)

  /** A validated, normalized item. */
  datatype Evidence = Evidence(path: string, sha256: string, lineStart: nat, lineEnd: nat, status: string, trust: string)

  /** What a citation says: its source label and the evidence fields. */
  datatype Parsed = Parsed(source: string, evidence: Evidence)

  // ---- Validation

  predicate Plain(c: char) { c != ';' && c != ']' }
  predicate Hex(c: char) { '0' <= c <= '9' || 'a' <= c <= 'f' }
  predicate Shout(c: char) { 'A' <= c <= 'Z' || c == '_' }

  function Lower(s: string): (r: string)
    ensures |r| == |s|
  {
    seq(|s|, i requires 0 <= i < |s| => if 'A' <= s[i] <= 'Z' then (s[i] as int + 32) as char else s[i])
  }

  function Slashes(path: string): (r: string)
    ensures |r| == |path|
  {
    seq(|path|, i requires 0 <= i < |path| => if path[i] == '\\' then '/' else path[i])
  }

  /** str.split on a slash. */
  function Parts(path: string): (parts: seq<string>)
    ensures |parts| > 0
  {
    if path == "" then [""]
    else
      var rest := Parts(path[1..]);
      if path[0] == '/' then [""] + rest else [[path[0]] + rest[0]] + rest[1..]
  }

  /** Relative, without parent steps, and free of the citation's own punctuation. */
  predicate SafePath(path: string) {
    && AllIn(path, Plain)
    && (Slashes(path) == "" || Slashes(path)[0] != '/')
    && ".." !in Parts(Slashes(path))
  }

  predicate Present(field: Option<string>) { field.Some? && field.value != "" }

  function Validated(item: Item): Option<Evidence> {
    if !(Present(item.path) && Present(item.sha256) && Present(item.status) && Present(item.trust)) then None
    else if item.lineStart.None? || item.lineEnd.None? then None
    else if item.lineStart.value < 1 || item.lineEnd.value < item.lineStart.value then None
    else if !(|item.sha256.value| == 64 && AllIn(Lower(item.sha256.value), Hex)) then None
    else if item.status.value !in ALLOWED_STATUSES then None
    else if !(SafePath(item.path.value) && AllIn(item.trust.value, Plain)) then None
    else Some(Evidence(item.path.value, Lower(item.sha256.value), item.lineStart.value, item.lineEnd.value,
                       item.status.value, item.trust.value))
  }

  // ---- Printing

  function Utf8Length(s: string): nat {
    if s == "" then 0
    else
      var n := s[0] as int;
      (if n < 0x80 then 1 else if n < 0x800 then 2 else if n < 0x1_0000 then 3 else 4) + Utf8Length(s[1..])
  }

  function CitationText(source: string, e: Evidence): string {
    "[source: " + (source +
    ("; file: " + (e.path +
    ("; lines: " + (Decimal(e.lineStart) +
    ("-" + (Decimal(e.lineEnd) +
    ("; sha256: " + (e.sha256 +
    ("; status: " + (e.status +
    ("; trust: " + (e.trust + "]")))))))))))))
  }

  function Render(item: Item, source: string): Option<string> {
    var validated := Validated(item);
    if validated.None? || source == "" || !AllIn(source, Plain) then None
    else
      var citation := CitationText(source, validated.value);
      if Utf8Length(citation) > MAX_CITATION_BYTES then None else Some(citation)
  }

  // ---- Reading

  /** The pattern's literals and groups; `digit` is what the pattern engine takes for a decimal digit. */
  function Pattern(digit: char -> Option<nat>, trust: char -> bool): seq<Segment> {
    [Segment("[source: ", Plain)] +
    ([Segment("; file: ", Plain)] +
     ([Segment("; lines: ", (c: char) => digit(c).Some?)] +
      ([Segment("-", (c: char) => digit(c).Some?)] +
       ([Segment("; sha256: ", Hex)] +
        ([Segment("; status: ", Shout)] +
         ([Segment("; trust: ", trust)] + []))))))
  }

  function Fields(source: string, e: Evidence): seq<string> {
    [source] + ([e.path] + ([Decimal(e.lineStart)] + ([Decimal(e.lineEnd)] +
    ([e.sha256] + ([e.status] + ([e.trust] + []))))))
  }

  /** The groups of a full match. */
  ghost predicate Matches(s: string, f: seq<string>, digit: char -> Option<nat>) {
    && |f| == 7 && Fits(Pattern(digit, Shout), f) && s == Join(Pattern(digit, Shout), f)
    && |f[4]| == 64 && f[5] in ALLOWED_STATUSES
  }

  lemma PatternDigits(f: seq<string>, digit: char -> Option<nat>, trust: char -> bool)
    requires Fits(Pattern(digit, trust), f)
    ensures |f| == 7 && Digits(f[2], digit) && Digits(f[3], digit)
  {
    var p := Pattern(digit, trust);
    assert p[0..] == p && f[0..] == f;
    FitsAt(p, f, 0, 2);
    FitsAt(p, f, 0, 3);
  }

  function Read(f: seq<string>, digit: char -> Option<nat>): Parsed
    requires |f| == 7 && Digits(f[2], digit) && Digits(f[3], digit)
  {
    Parsed(f[0], Evidence(f[1], f[4], Number(f[2], digit), Number(f[3], digit), f[5], f[6]))
  }

  function Parse(value: string, digit: char -> Option<nat>): Option<Parsed> {
    var fields := Split(Text.Strip(value), Pattern(digit, Shout));
    if fields.None? then None
    else
      JoinSplit(Text.Strip(value), Pattern(digit, Shout));
      PatternDigits(fields.value, digit, Shout);
      if |fields.value[4]| != 64 || fields.value[5] !in ALLOWED_STATUSES then None
      else Some(Read(fields.value, digit))
  }

  lemma PatternIsDelimited(digit: char -> Option<nat>, trust: char -> bool)
    requires DigitTable(digit) && !trust(']')
    ensures Delimited(Pattern(digit, trust))
  {
    var p := Pattern(digit, trust);
    DelimitedCons(p[6], []);
    DelimitedCons(p[5], [p[6]] + []);
    DelimitedCons(p[4], [p[5]] + ([p[6]] + []));
    DelimitedCons(p[3], [p[4]] + ([p[5]] + ([p[6]] + [])));
    DelimitedCons(p[2], [p[3]] + ([p[4]] + ([p[5]] + ([p[6]] + []))));
    DelimitedCons(p[1], [p[2]] + ([p[3]] + ([p[4]] + ([p[5]] + ([p[6]] + [])))));
    DelimitedCons(p[0], [p[1]] + ([p[2]] + ([p[3]] + ([p[4]] + ([p[5]] + ([p[6]] + []))))));
  }

  lemma DelimitedCons(s: Segment, rest: seq<Segment>)
    requires Delimited(rest) && (rest != [] ==> rest[0].literal != "")
    requires !s.allowed(if rest == [] then CLOSE[0] else rest[0].literal[0])
    ensures Delimited([s] + rest)
  {
    assert ([s] + rest)[1..] == rest;
  }

  /** Reading is matching: the groups are determined by the text, and nothing else is accepted. */
  lemma ParseIsTheMatch(value: string, digit: char -> Option<nat>, f: seq<string>)
    requires DigitTable(digit)
    ensures Parse(value, digit).Some? ==> exists g :: Matches(Text.Strip(value), g, digit)
    ensures Matches(Text.Strip(value), f, digit) ==>
              Digits(f[2], digit) && Digits(f[3], digit) && Parse(value, digit) == Some(Read(f, digit))
  {
    hide Pattern, Join, Fits;
    var pattern, s := Pattern(digit, Shout), Text.Strip(value);
    PatternIsDelimited(digit, Shout);
    if Parse(value, digit).Some? {
      JoinSplit(s, pattern);
      PatternDigits(Split(s, pattern).value, digit, Shout);
      assert Matches(s, Split(s, pattern).value, digit);
    }
    if Matches(s, f, digit) {
      SplitJoin(pattern, f);
      PatternDigits(f, digit, Shout);
    }
  }

  // ---- Printing and reading undo each other

  lemma JoinFrom(p: seq<Segment>, f: seq<string>, i: nat)
    requires i < |p| == |f|
    ensures Join(p[i..], f[i..]) == p[i].literal + (f[i] + Join(p[i + 1..], f[i + 1..]))
  {
    assert p[i..][1..] == p[i + 1..] && f[i..][1..] == f[i + 1..];
  }

  lemma LiteralsAre(digit: char -> Option<nat>, trust: char -> bool)
    ensures var p := Pattern(digit, trust);
            |p| == 7 && p[0].literal == "[source: " && p[1].literal == "; file: " && p[2].literal == "; lines: " &&
            p[3].literal == "-" && p[4].literal == "; sha256: " && p[5].literal == "; status: " &&
            p[6].literal == "; trust: "
  {
  }

  /** The printed text is the pattern filled with the item's fields. */
  lemma TextIsJoin(source: string, e: Evidence, digit: char -> Option<nat>, trust: char -> bool)
    ensures CitationText(source, e) == Join(Pattern(digit, trust), Fields(source, e))
  {
    hide Join, Pattern, Fields, Decimal;
    var p, f := Pattern(digit, trust), Fields(source, e);
    LiteralsAre(digit, trust);
    FieldsAre(source, e);
    JoinFrom(p, f, 6);
    JoinFrom(p, f, 5);
    JoinFrom(p, f, 4);
    JoinFrom(p, f, 3);
    JoinFrom(p, f, 2);
    JoinFrom(p, f, 1);
    JoinFrom(p, f, 0);
    JoinNothing(p[7..], f[7..]);
    assert p[0..] == p && f[0..] == f;
  }

  lemma JoinNothing(p: seq<Segment>, f: seq<string>)
    requires |p| == |f| == 0
    ensures Join(p, f) == "]"
  {
  }

  lemma StatusesShout(status: string)
    requires status in ALLOWED_STATUSES
    ensures status != "" && AllIn(status, Shout)
  {
  }

  /** A citation's fields as the pattern demands them, its trust over a given class. */
  predicate WellFormed(source: string, e: Evidence, trust: char -> bool) {
    && source != "" && AllIn(source, Plain) && e.path != "" && AllIn(e.path, Plain)
    && |e.sha256| == 64 && AllIn(e.sha256, Hex) && e.status in ALLOWED_STATUSES
    && e.trust != "" && AllIn(e.trust, trust)
  }

  lemma RenderedIsWellFormed(item: Item, source: string)
    requires Render(item, source).Some?
    ensures Validated(item).Some? && WellFormed(source, Validated(item).value, Plain)
    ensures Render(item, source).value == CitationText(source, Validated(item).value)
  {
  }

  lemma DecimalFits(n: nat, digit: char -> Option<nat>)
    requires DigitTable(digit)
    ensures Decimal(n) != "" && AllIn(Decimal(n), (c: char) => digit(c).Some?)
  {
    hide Decimal, Number;
    NumberOfDecimal(n, digit);
  }

  lemma FieldsFit(source: string, e: Evidence, digit: char -> Option<nat>, trust: char -> bool)
    requires DigitTable(digit) && WellFormed(source, e, trust)
    ensures Fits(Pattern(digit, trust), Fields(source, e))
  {
    hide Decimal, Fits, Hex, Shout, Plain, Number, AllIn, Digits;
    var p, f := Pattern(digit, trust), Fields(source, e);
    DecimalFits(e.lineStart, digit);
    DecimalFits(e.lineEnd, digit);
    StatusesShout(e.status);
    FieldsAre(source, e);
    assert p[0..] == p && f[0..] == f;
    FitsFrom(p, f, 0);
  }

  /** Splitting a printed text gives its fields back. */
  lemma SplitText(source: string, e: Evidence, digit: char -> Option<nat>, trust: char -> bool)
    requires DigitTable(digit) && WellFormed(source, e, trust) && !trust(']')
    ensures Split(CitationText(source, e), Pattern(digit, trust)) == Some(Fields(source, e))
  {
    hide Pattern, Fields, Join, Split, CitationText, WellFormed;
    TextIsJoin(source, e, digit, trust);
    FieldsFit(source, e, digit, trust);
    PatternIsDelimited(digit, trust);
    SplitJoin(Pattern(digit, trust), Fields(source, e));
  }

  lemma TextIsStripped(source: string, e: Evidence)
    ensures Text.Strip(CitationText(source, e)) == CitationText(source, e)
  {
    hide Decimal;
    var s := CitationText(source, e);
    assert s[0] == '[' && s[|s| - 1] == ']';
    Text.StripIdentity(s);
  }

  lemma ReadsFields(source: string, e: Evidence, digit: char -> Option<nat>)
    requires DigitTable(digit)
    ensures var f := Fields(source, e);
            |f| == 7 && Digits(f[2], digit) && Digits(f[3], digit) && Read(f, digit) == Parsed(source, e)
  {
    NumberOfDecimal(e.lineStart, digit);
    NumberOfDecimal(e.lineEnd, digit);
  }

  /** A printed citation with a trust over capitals and underscores reads back as what was printed. */
  lemma CitationReadsBack(item: Item, source: string, digit: char -> Option<nat>)
    requires DigitTable(digit) && Render(item, source).Some? && AllIn(Validated(item).value.trust, Shout)
    ensures Parse(Render(item, source).value, digit) == Some(Parsed(source, Validated(item).value))
  {
    hide Render, Split, Pattern, CitationText, Number, Fields, Read;
    RenderedIsWellFormed(item, source);
    var e := Validated(item).value;
    TextIsStripped(source, e);
    SplitText(source, e, digit, Shout);
    ReadsFields(source, e, digit);
    assert Fields(source, e)[4] == e.sha256 && Fields(source, e)[5] == e.status by { FieldsAre(source, e); }
  }

  lemma FieldsAre(source: string, e: Evidence)
    ensures var f := Fields(source, e);
            |f| == 7 && f[0] == source && f[1] == e.path && f[2] == Decimal(e.lineStart) && f[3] == Decimal(e.lineEnd) &&
            f[4] == e.sha256 && f[5] == e.status && f[6] == e.trust
  {
    hide Decimal;
  }

  lemma PatternsDifferInTrust(digit: char -> Option<nat>, f: seq<string>, a: char -> bool, b: char -> bool)
    requires Fits(Pattern(digit, a), f) && |f| == 7 && AllIn(f[6], b)
    ensures Fits(Pattern(digit, b), f) && AllIn(f[6], a) && Join(Pattern(digit, a), f) == Join(Pattern(digit, b), f)
  {
    var p, q := Pattern(digit, a), Pattern(digit, b);
    SameButLast(p, q, f, 0);
  }

  lemma {:induction false} SameButLast(p: seq<Segment>, q: seq<Segment>, f: seq<string>, i: nat)
    requires |p| == |q| == |f| && i < |p|
    requires p[..|p| - 1] == q[..|p| - 1] && p[|p| - 1].literal == q[|p| - 1].literal
    requires Fits(p[i..], f[i..]) && AllIn(f[|p| - 1], q[|p| - 1].allowed)
    ensures Fits(q[i..], f[i..]) && Join(p[i..], f[i..]) == Join(q[i..], f[i..])
    ensures AllIn(f[|p| - 1], p[|p| - 1].allowed)
    decreases |p| - i
  {
    assert p[i..][1..] == p[i + 1..] && q[i..][1..] == q[i + 1..] && f[i..][1..] == f[i + 1..];
    if i + 1 < |p| {
      assert p[i] == p[..|p| - 1][i] == q[..|p| - 1][i] == q[i];
      SameButLast(p, q, f, i + 1);
    }
  }

  /** The fields a reader accepts are the ones printed, so the printed trust is over capitals and underscores. */
  lemma AcceptedTrustShouts(source: string, e: Evidence, f: seq<string>, digit: char -> Option<nat>)
    requires DigitTable(digit) && WellFormed(source, e, Plain)
    requires Fits(Pattern(digit, Shout), f) && CitationText(source, e) == Join(Pattern(digit, Shout), f)
    ensures AllIn(e.trust, Shout)
  {
    hide Pattern, Join, Fits, CitationText, Fields, AllIn, Split, WellFormed;
    PatternDigits(f, digit, Shout);
    LastFits(digit, Shout, f);
    PatternsDifferInTrust(digit, f, Shout, Plain);
    PatternIsDelimited(digit, Plain);
    SplitJoin(Pattern(digit, Plain), f);
    SplitText(source, e, digit, Plain);
    FieldsAre(source, e);
  }

  lemma ParsedIsJoin(text: string, digit: char -> Option<nat>)
    requires Text.Strip(text) == text && Parse(text, digit).Some?
    ensures exists f :: Fits(Pattern(digit, Shout), f) && text == Join(Pattern(digit, Shout), f)
  {
    hide Pattern, Join, Fits, Number, Split;
    JoinSplit(text, Pattern(digit, Shout));
  }

  /** Whatever its trust, a printed citation is accepted exactly when the trust is over capitals and underscores. */
  lemma ReadableExactlyWhenTrustShouts(item: Item, source: string, digit: char -> Option<nat>)
    requires DigitTable(digit) && Render(item, source).Some?
    ensures Parse(Render(item, source).value, digit).Some? <==> AllIn(Validated(item).value.trust, Shout)
  {
    hide Render, Parse, Split, Pattern, Join, CitationText, Validated, AllIn, WellFormed;
    RenderedIsWellFormed(item, source);
    var e, text := Validated(item).value, Render(item, source).value;
    if AllIn(e.trust, Shout) {
      CitationReadsBack(item, source, digit);
    }
    if Parse(text, digit).Some? {
      TextIsStripped(source, e);
      ParsedIsJoin(text, digit);
      var f :| Fits(Pattern(digit, Shout), f) && text == Join(Pattern(digit, Shout), f);
      AcceptedTrustShouts(source, e, f, digit);
    }
  }

  lemma LastFits(digit: char -> Option<nat>, trust: char -> bool, f: seq<string>)
    requires Fits(Pattern(digit, trust), f) && |f| == 7
    requires forall c :: trust(c) ==> Plain(c)
    ensures AllIn(f[6], trust) && AllIn(f[6], Plain)
  {
    var p := Pattern(digit, trust);
    assert p[0..] == p && f[0..] == f;
    FitsAt(p, f, 0, 6);
  }

  /** Different normalized items or labels print differently, whatever their trust. */
  lemma RenderingIsInjective(a: Item, b: Item, sourceA: string, sourceB: string, digit: char -> Option<nat>)
    requires DigitTable(digit)
    requires Render(a, sourceA).Some? && Render(a, sourceA) == Render(b, sourceB)
    ensures sourceA == sourceB && Validated(a) == Validated(b)
  {
    hide Render, Split, Pattern, CitationText, Number, Fields, Validated;
    RenderedIsWellFormed(a, sourceA);
    RenderedIsWellFormed(b, sourceB);
    var e, g := Validated(a).value, Validated(b).value;
    SplitText(sourceA, e, digit, Plain);
    SplitText(sourceB, g, digit, Plain);
    ReadsFields(sourceA, e, digit);
    ReadsFields(sourceB, g, digit);
  }

  // ---- From citation to item and back

  /** The item a parsed citation describes. */
  function ItemOf(e: Evidence): Item {
    Item(Some(e.path), Some(e.sha256), Some(e.lineStart), Some(e.lineEnd), Some(e.status), Some(e.trust))
  }

  lemma HexIsLower(s: string)
    requires AllIn(s, Hex)
    ensures Lower(s) == s
  {
    forall i | 0 <= i < |s| ensures Lower(s)[i] == s[i] {
      assert Hex(s[i]);
    }
  }

  /** What the printer asks of a parsed citation beyond what the reader already checked. */
  predicate Printable(p: Parsed) {
    && 1 <= p.evidence.lineStart <= p.evidence.lineEnd && SafePath(p.evidence.path)
    && Utf8Length(CitationText(p.source, p.evidence)) <= MAX_CITATION_BYTES
  }

  lemma MatchedFields(s: string, f: seq<string>, digit: char -> Option<nat>)
    requires Matches(s, f, digit)
    ensures Digits(f[2], digit) && Digits(f[3], digit)
    ensures var p := Read(f, digit); WellFormed(p.source, p.evidence, Shout)
  {
    PatternDigits(f, digit, Shout);
    var p := Pattern(digit, Shout);
    assert p[0..] == p && f[0..] == f;
    FitsAt(p, f, 0, 0);
    FitsAt(p, f, 0, 1);
    FitsAt(p, f, 0, 4);
    FitsAt(p, f, 0, 6);
  }

  lemma ShoutIsPlain(s: string)
    requires AllIn(s, Shout)
    ensures AllIn(s, Plain)
  {
    forall i | 0 <= i < |s| ensures Plain(s[i]) {
      assert Shout(s[i]);
    }
  }

  lemma ItemOfValidates(p: Parsed)
    requires WellFormed(p.source, p.evidence, Shout)
    ensures Render(ItemOf(p.evidence), p.source) ==
            if Printable(p) then Some(CitationText(p.source, p.evidence)) else None
  {
    hide Decimal, CitationText, Utf8Length, Lower;
    HexIsLower(p.evidence.sha256);
    ShoutIsPlain(p.evidence.trust);
  }

  lemma CanonicalFields(s: string, f: seq<string>, digit: char -> Option<nat>)
    requires DigitTable(digit) && Matches(s, f, digit)
    requires Canonical(f[2]) && Canonical(f[3])
    ensures Digits(f[2], digit) && Digits(f[3], digit)
    ensures var p := Read(f, digit); CitationText(p.source, p.evidence) == s
  {
    hide Number, CitationText, Join, Fits, Canonical, Pattern;
    PatternDigits(f, digit, Shout);
    var p := Read(f, digit);
    DecimalOfNumber(f[2], digit);
    DecimalOfNumber(f[3], digit);
    FieldsAre(p.source, p.evidence);
    assert Fields(p.source, p.evidence) == f;
    TextIsJoin(p.source, p.evidence, digit, Shout);
  }

  lemma SameTextSameNumerals(s: string, f: seq<string>, digit: char -> Option<nat>)
    requires DigitTable(digit) && Matches(s, f, digit) && Digits(f[2], digit) && Digits(f[3], digit)
    requires var p := Read(f, digit); CitationText(p.source, p.evidence) == s
    ensures Canonical(f[2]) && Canonical(f[3])
  {
    hide Number, CitationText, Join, Fits, Pattern, Canonical, Decimal;
    var p := Read(f, digit);
    MatchedFields(s, f, digit);
    PatternIsDelimited(digit, Shout);
    SplitJoin(Pattern(digit, Shout), f);
    SplitText(p.source, p.evidence, digit, Shout);
    FieldsAre(p.source, p.evidence);
    NumberOfDecimal(p.evidence.lineStart, digit);
    NumberOfDecimal(p.evidence.lineEnd, digit);
  }

  /** A citation that is read prints back unchanged exactly when its line numbers are plain decimals without leading
      zeros and the printer accepts its path, lines and length. */
  lemma ReadCitationPrintsBackExactlyWhen(value: string, f: seq<string>, digit: char -> Option<nat>)
    requires DigitTable(digit) && Matches(Text.Strip(value), f, digit)
    ensures Parse(value, digit).Some?
    ensures var p := Parse(value, digit).value;
            Render(ItemOf(p.evidence), p.source) == Some(Text.Strip(value)) <==>
            Canonical(f[2]) && Canonical(f[3]) && Printable(p)
  {
    hide Render, Matches, Parse, Pattern, Canonical, Printable, CitationText, Read, Number, WellFormed;
    var s := Text.Strip(value);
    ParseIsTheMatch(value, digit, f);
    MatchedFields(s, f, digit);
    PatternSize(s, f, digit);
    var p := Read(f, digit);
    ItemOfValidates(p);
    if Canonical(f[2]) && Canonical(f[3]) {
      CanonicalFields(s, f, digit);
    }
    if CitationText(p.source, p.evidence) == s {
      SameTextSameNumerals(s, f, digit);
    }
  }

  lemma PatternSize(s: string, f: seq<string>, digit: char -> Option<nat>)
    requires Matches(s, f, digit)
    ensures |f| == 7
  {
  }

  // ---- Verifying

  /** The citation reads, names the expected label if one is given, and agrees with some item in every field. */
  ghost predicate Verifies(citation: string, items: seq<Item>, expected: Option<string>, digit: char -> Option<nat>) {
    var parsed := Parse(citation, digit);
    && parsed.Some?
    && (expected.None? || expected.value == parsed.value.source)
    && exists i :: 0 <= i < |items| && Validated(items[i]) == Some(parsed.value.evidence)
  }

  method VerifyEvidenceCitation(citation: string, items: seq<Item>, expected: Option<string>,
                                digit: char -> Option<nat>) returns (ok: bool)
    ensures ok <==> Verifies(citation, items, expected, digit)
  {
    hide Parse, Validated;
    var parsed := Parse(citation, digit);
    if parsed.None? { return false; }
    if expected.Some? && parsed.value.source != expected.value { return false; }
    var said := parsed.value.evidence;
    for i := 0 to |items|
      invariant forall j :: 0 <= j < i ==> Validated(items[j]) != Some(said)
    {
      var validated := Validated(items[i]);
      if validated.None? { continue; }
      var e := validated.value;
      if said.path == e.path && said.sha256 == e.sha256 && said.lineStart == e.lineStart
         && said.lineEnd == e.lineEnd && said.status == e.status && said.trust == e.trust {
        return true;
      }
    }
    ok := false;
  }

  /** A printed citation verifies against a collection holding its item exactly when its trust is over capitals and
      underscores. */
  lemma OwnCitationVerifiesExactlyWhen(items: seq<Item>, i: nat, source: string, digit: char -> Option<nat>)
    requires DigitTable(digit) && i < |items| && Render(items[i], source).Some?
    ensures Validated(items[i]).Some?
    ensures Verifies(Render(items[i], source).value, items, Some(source), digit) <==>
            AllIn(Validated(items[i]).value.trust, Shout)
  {
    hide Render, Parse, Validated;
    RenderedIsWellFormed(items[i], source);
    ReadableExactlyWhenTrustShouts(items[i], source, digit);
    if AllIn(Validated(items[i]).value.trust, Shout) {
      CitationReadsBack(items[i], source, digit);
    }
  }

  // ---- Printing a collection

  /** The citations of the items, in order, each once. */
  function CitationList(items: seq<Item>, source: string): seq<string> {
    if items == [] then []
    else
      var before := CitationList(items[..|items| - 1], source);
      var citation := Render(items[|items| - 1], source);
      if citation.Some? && citation.value !in before then before + [citation.value] else before
  }

  /** Exactly the printable items are cited, none twice. */
  lemma {:induction false} CitationsAreTheRendered(items: seq<Item>, source: string)
    ensures Distinct(CitationList(items, source))
    ensures forall c :: c in CitationList(items, source) <==> RenderedFrom(items, source, c)
  {
    hide Render;
    if items != [] {
      var front, last := items[..|items| - 1], items[|items| - 1];
      CitationsAreTheRendered(front, source);
      forall c
        ensures RenderedFrom(items, source, c) <==> RenderedFrom(front, source, c) || Render(last, source) == Some(c)
      {
        RenderedFromNext(items, source, c);
      }
    }
  }

  ghost predicate RenderedFrom(items: seq<Item>, source: string, c: string) {
    exists i :: 0 <= i < |items| && Render(items[i], source) == Some(c)
  }

  lemma RenderedFromNext(items: seq<Item>, source: string, c: string)
    requires items != []
    ensures RenderedFrom(items, source, c) <==>
            RenderedFrom(items[..|items| - 1], source, c) || Render(items[|items| - 1], source) == Some(c)
  {
    hide Render;
    var front := items[..|items| - 1];
    if RenderedFrom(front, source, c) {
      var i :| 0 <= i < |front| && Render(front[i], source) == Some(c);
      assert Render(items[i], source) == Some(c);
    }
    if RenderedFrom(items, source, c) {
      var i :| 0 <= i < |items| && Render(items[i], source) == Some(c);
      assert i < |front| ==> front[i] == items[i];
    }
  }

  /** At most the first 24 items are looked at. */
  method RenderEvidenceCitations(items: seq<Item>, source: string) returns (citations: seq<string>)
    ensures citations == CitationList(FirstN(items, MAX_ITEMS), source)
  {
    hide Render;
    var first := FirstN(items, MAX_ITEMS);
    citations := [];
    assert first[..0] == [];
    for i := 0 to |first|
      invariant citations == CitationList(first[..i], source)
    {
      assert first[..i + 1][..i] == first[..i];
      var citation := Render(first[i], source);
      if citation.Some? && citation.value !in citations {
        citations := citations + [citation.value];
      }
    }
    assert first[..|first|] == first;
  }
}
