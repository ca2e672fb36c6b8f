/** Carrying citations through a report: what the evaluation side extracts is what was printed. */
module CitationTransport {
  import opened Common
  import opened DelimitedText
  import opened Numerals
  import opened Ordering
  import opened Citations
  import Text

  const DEFAULT_LABEL := "Ahmed Agent project files"

  /** A tool envelope: a field is None when it is missing or of the wrong type. */
  datatype Envelope = Envelope(target: Option<string>, status: Option<string>, sourceLabel: Option<string>,
                               items: seq<Item>)

  // ---- The report

  predicate Usable(e: Envelope) { e.target.Some? && e.status.Some? }

  function Label(e: Envelope): string { if e.sourceLabel.Some? then e.sourceLabel.value else DEFAULT_LABEL }

  function CitationsOf(e: Envelope): seq<string> { CitationList(FirstN(e.items, MAX_ITEMS), Label(e)) }

  function Section(e: Envelope): string
    requires Usable(e)
  {
    var citations := CitationsOf(e);
    if citations != [] then e.target.value + (": " + JoinWith(" ", citations))
    else e.target.value + (": evidence status " + (e.status.value +
           ("; no evidence item is available, " + "so no source claim is asserted.")))
  }

  function Sections(envelopes: seq<Envelope>): seq<string> {
    if envelopes == [] then []
    else (if Usable(envelopes[0]) then [Section(envelopes[0])] else []) + Sections(envelopes[1..])
  }

  function Report(envelopes: seq<Envelope>): string {
    var sections := Sections(FirstN(envelopes, MAX_ITEMS));
    if sections == [] then "" else "\n\nEvidence references:\n" + JoinWith("\n", sections)
  }

  // ---- The extraction

  predicate NotClose(c: char) { c != ']' }

  /** Length of a source or numeric marker at the start of a text, zero when there is none. */
  function Marker(s: string, digit: char -> Option<nat>): (n: nat)
    ensures n <= |s|
  {
    if "[source:" <= s then
      var n := Run(s[8..], NotClose);
      if n > 0 && 8 + n < |s| then 9 + n else 0
    else if "[" <= s then
      var n := Run(s[1..], (c: char) => digit(c).Some?);
      if n > 0 && 1 + n < |s| && s[1 + n] == ']' then 2 + n else 0
    else 0
  }

  /** All markers, left to right, not overlapping. */
  function Markers(s: string, digit: char -> Option<nat>): seq<string> {
    if s == "" then []
    else
      var n := Marker(s, digit);
      if n > 0 then [s[..n]] + Markers(s[n..], digit) else Markers(s[1..], digit)
  }

  /** A text starts with an http or https scheme; the number of characters it takes. */
  function Scheme(s: string): (n: nat)
    ensures n <= |s|
  {
    if |s| >= 7 && s[0] == 'h' && s[1] == 't' && s[2] == 't' && s[3] == 'p' then
      if s[4] == ':' && s[5] == '/' && s[6] == '/' then 7
      else if |s| >= 8 && s[4] == 's' && s[5] == ':' && s[6] == '/' && s[7] == '/' then 8
      else 0
    else 0
  }

  predicate UrlChar(c: char) { !Text.IsSpace(c) && c != ')' && c != ']' && c != '}' }

  function Urls(s: string): seq<string> {
    if s == "" then []
    else
      var n := Scheme(s);
      var m := if n > 0 then Run(s[n..], UrlChar) else 0;
      if m > 0 then [s[..n + m]] + Urls(s[n + m..]) else Urls(s[1..])
  }

  /** The elements, each once. */
  function Unique(s: seq<string>): seq<string> {
    if s == [] then [] else
      var front := Unique(s[..|s| - 1]);
      if s[|s| - 1] in front then front else front + [s[|s| - 1]]
  }

  function ExtractTraceSources(output: string, digit: char -> Option<nat>): seq<string> {
    Sort(StringLe, Unique(Markers(output, digit) + Urls(output)))
  }

  lemma {:induction false} UniqueMembers(s: seq<string>)
    ensures Distinct(Unique(s)) && forall x :: x in Unique(s) <==> x in s
  {
    if s != [] {
      UniqueMembers(s[..|s| - 1]);
      assert s == s[..|s| - 1] + [s[|s| - 1]];
    }
  }

  lemma ExtractedMembers(output: string, digit: char -> Option<nat>, x: string)
    ensures x in ExtractTraceSources(output, digit) <==> x in Markers(output, digit) || x in Urls(output)
  {
    var all := Markers(output, digit) + Urls(output);
    UniqueMembers(all);
    SortMembers(StringLe, Unique(all));
  }

  /** What is extracted is in code-point order, each text once. */
  lemma ExtractedOnceInOrder(output: string, digit: char -> Option<nat>)
    ensures var sources := ExtractTraceSources(output, digit);
            SortedBy(StringLe, sources) && DistinctKeys((x: string) => x, sources)
  {
    hide StringLe, SortedBy;
    var unique := Unique(Markers(output, digit) + Urls(output));
    UniqueMembers(Markers(output, digit) + Urls(output));
    StringLeOrder();
    SortSorted(StringLe, unique);
    KeysStayDistinct((x: string) => x, unique, Sort(StringLe, unique));
  }

  // ---- Finding the citations again

  lemma {:induction false} MarkersSkip(a: string, b: string, digit: char -> Option<nat>)
    requires '[' !in a
    ensures Markers(a + b, digit) == Markers(b, digit)
  {
    if a == "" {
      assert a + b == b;
    } else {
      assert (a + b)[0] == a[0] && a[0] in a;
      assert (a + b)[1..] == a[1..] + b;
      MarkersSkip(a[1..], b, digit);
    }
  }

  /** A source marker: bracketed, no closing bracket inside. */
  predicate IsSourceMarker(c: string) {
    |c| > 9 && "[source:" <= c && c[|c| - 1] == ']' && AllIn(c[..|c| - 1], NotClose)
  }

  lemma MarkersTake(c: string, b: string, digit: char -> Option<nat>)
    requires IsSourceMarker(c)
    ensures Markers(c + b, digit) == [c] + Markers(b, digit)
  {
    var s, body := c + b, c[8..|c| - 1];
    forall i | 0 <= i < |body| ensures NotClose(body[i]) {
      assert body[i] == c[..|c| - 1][8 + i];
    }
    assert s[8..] == body + ("]" + b);
    RunStops(body, "]" + b, NotClose);
    assert "[source:" <= s by { assert s[..8] == c[..8]; }
    assert s[..|c|] == c && s[|c|..] == b;
  }

  lemma {:induction false} JoinClosesOnce(segments: seq<Segment>, fields: seq<string>)
    requires |segments| == |fields|
    requires forall i :: 0 <= i < |segments| ==> AllIn(segments[i].literal, NotClose) && AllIn(fields[i], NotClose)
    ensures var s := Join(segments, fields); s != "" && s[|s| - 1] == ']' && AllIn(s[..|s| - 1], NotClose)
  {
    if segments != [] {
      JoinClosesOnce(segments[1..], fields[1..]);
      var tail := Join(segments[1..], fields[1..]);
      var s := Join(segments, fields);
      var front := segments[0].literal + (fields[0] + tail[..|tail| - 1]);
      assert s[..|s| - 1] == front;
    }
  }

  lemma PlainNotClose(s: string)
    ensures AllIn(s, Plain) || AllIn(s, Hex) || AllIn(s, Shout) || Canonical(s) ==> AllIn(s, NotClose)
  {
    forall i | 0 <= i < |s| && (Plain(s[i]) || Hex(s[i]) || Shout(s[i]) || AsciiDigit(s[i])) ensures NotClose(s[i]) {
    }
  }

  /** The fields of a printed citation hold no closing bracket. */
  lemma FieldsNotClose(source: string, e: Evidence, digit: char -> Option<nat>)
    requires DigitTable(digit) && WellFormed(source, e, Plain)
    ensures var f := Fields(source, e); |f| == 7 && forall i :: 0 <= i < 7 ==> AllIn(f[i], NotClose)
  {
    hide AllIn, Hex, Plain, Shout, Canonical, Fields, Decimal, Number;
    FieldsAre(source, e);
    NumberOfDecimal(e.lineStart, digit);
    NumberOfDecimal(e.lineEnd, digit);
    StatusesShout(e.status);
    var f := Fields(source, e);
    PlainNotClose(f[0]);
    PlainNotClose(f[1]);
    PlainNotClose(f[2]);
    PlainNotClose(f[3]);
    PlainNotClose(f[4]);
    PlainNotClose(f[5]);
    PlainNotClose(f[6]);
  }

  lemma LiteralsNotClose(digit: char -> Option<nat>)
    ensures var p := Pattern(digit, Plain); forall i :: 0 <= i < 7 ==> AllIn(p[i].literal, NotClose)
  {
    LiteralsAre(digit, Plain);
  }

  lemma CitationIsMarker(item: Item, source: string, digit: char -> Option<nat>)
    requires DigitTable(digit) && Render(item, source).Some?
    ensures IsSourceMarker(Render(item, source).value)
  {
    hide Render, Join, Fields, Pattern, WellFormed, Decimal, AllIn, CitationText, Validated, NotClose;
    RenderedIsWellFormed(item, source);
    var e := Validated(item).value;
    FieldsNotClose(source, e, digit);
    LiteralsNotClose(digit);
    LiteralsAre(digit, Plain);
    JoinClosesOnce(Pattern(digit, Plain), Fields(source, e));
    TextIsJoin(source, e, digit, Plain);
    TextStart(source, e);
  }

  lemma TextStart(source: string, e: Evidence)
    ensures var s := CitationText(source, e); |s| > 9 && "[source:" <= s
  {
    hide Decimal;
  }

  predicate AllMarkers(citations: seq<string>) {
    forall c :: c in citations ==> IsSourceMarker(c)
  }

  lemma CitationsAreMarkers(e: Envelope, digit: char -> Option<nat>)
    requires DigitTable(digit)
    ensures AllMarkers(CitationsOf(e))
  {
    var items := FirstN(e.items, MAX_ITEMS);
    CitationsAreTheRendered(items, Label(e));
    forall c | c in CitationsOf(e) ensures IsSourceMarker(c) {
      assert RenderedFrom(items, Label(e), c);
      var i :| 0 <= i < |items| && Render(items[i], Label(e)) == Some(c);
      CitationIsMarker(items[i], Label(e), digit);
    }
  }

  /** Markers joined by a quiet separator are found one by one. */
  lemma {:induction false} MarkersOfJoined(citations: seq<string>, rest: string, digit: char -> Option<nat>)
    requires citations != [] && AllMarkers(citations)
    ensures Markers(JoinWith(" ", citations) + rest, digit) == citations + Markers(rest, digit)
  {
    hide IsSourceMarker, Markers;
    var c, tail := citations[0], citations[1..];
    if tail == [] {
      MarkersTake(c, rest, digit);
      assert citations == [c];
    } else {
      var joined := JoinWith(" ", tail);
      assert JoinWith(" ", citations) + rest == c + (" " + (joined + rest));
      MarkersTake(c, " " + (joined + rest), digit);
      MarkersSkip(" ", joined + rest, digit);
      MarkersOfJoined(tail, rest, digit);
      assert citations + Markers(rest, digit) == [c] + (tail + Markers(rest, digit));
    }
  }

  /** No opening bracket in what the report prints outside citations. */
  predicate NoBracket(e: Envelope) {
    Usable(e) ==> '[' !in e.target.value && '[' !in e.status.value
  }

  lemma SectionMarkers(e: Envelope, rest: string, digit: char -> Option<nat>)
    requires DigitTable(digit) && Usable(e) && NoBracket(e)
    ensures Markers(Section(e) + rest, digit) == CitationsOf(e) + Markers(rest, digit)
  {
    hide Markers, CitationsOf;
    var citations, target := CitationsOf(e), e.target.value;
    CitationsAreMarkers(e, digit);
    if citations != [] {
      assert Section(e) + rest == (target + ": ") + (JoinWith(" ", citations) + rest);
      MarkersSkip(target + ": ", JoinWith(" ", citations) + rest, digit);
      MarkersOfJoined(citations, rest, digit);
    } else {
      var status, none, claim := e.status.value, "; no evidence item is available, ", "so no source claim is asserted.";
      var end := none + claim;
      Regroup(target, ": evidence status ", status, end, rest);
      MarkersSkip(target, ": evidence status " + (status + (end + rest)), digit);
      MarkersSkip(": evidence status ", status + (end + rest), digit);
      MarkersSkip(status, end + rest, digit);
      MarkersSkip(none, claim + rest, digit);
      MarkersSkip(claim, rest, digit);
      assert end + rest == none + (claim + rest);
    }
  }

  lemma Regroup(a: string, b: string, c: string, d: string, e: string)
    ensures (a + (b + (c + d))) + e == a + (b + (c + (d + e)))
  {
  }

  /** The citations of the usable envelopes, in order. */
  function AllCitations(envelopes: seq<Envelope>): seq<string> {
    if envelopes == [] then []
    else (if Usable(envelopes[0]) then CitationsOf(envelopes[0]) else []) + AllCitations(envelopes[1..])
  }

  /** One more section in front of the joined ones. */
  lemma SectionThenRest(e: Envelope, sections: seq<string>, digit: char -> Option<nat>)
    requires DigitTable(digit) && Usable(e) && NoBracket(e)
    ensures Markers(JoinWith("\n", [Section(e)] + sections), digit) ==
            CitationsOf(e) + Markers(JoinWith("\n", sections), digit)
  {
    hide Markers, CitationsOf, Section, NoBracket;
    assert ([Section(e)] + sections)[1..] == sections;
    NoMarkers(digit);
    if sections == [] {
      SectionMarkers(e, "", digit);
      assert Section(e) + "" == Section(e);
    } else {
      SectionMarkers(e, "\n" + JoinWith("\n", sections), digit);
      MarkersSkip("\n", JoinWith("\n", sections), digit);
    }
  }

  lemma {:induction false} SectionsMarkers(envelopes: seq<Envelope>, digit: char -> Option<nat>)
    requires DigitTable(digit) && forall e :: e in envelopes ==> NoBracket(e)
    ensures Markers(JoinWith("\n", Sections(envelopes)), digit) == AllCitations(envelopes)
  {
    hide Markers, CitationsOf, Section, NoBracket, JoinWith;
    if envelopes == [] {
      NothingJoined();
      NoMarkers(digit);
    } else {
      var e, tail := envelopes[0], envelopes[1..];
      SectionsMarkers(tail, digit);
      if Usable(e) {
        SectionThenRest(e, Sections(tail), digit);
      } else {
        assert [] + Sections(tail) == Sections(tail) && [] + AllCitations(tail) == AllCitations(tail);
      }
    }
  }

  lemma NothingJoined()
    ensures JoinWith("\n", []) == ""
  {
  }

  lemma NoMarkers(digit: char -> Option<nat>)
    ensures Markers("", digit) == []
  {
  }

  /** The markers found in a report are exactly its citations, in order. */
  lemma ReportMarkers(envelopes: seq<Envelope>, digit: char -> Option<nat>)
    requires DigitTable(digit) && forall e :: e in envelopes ==> NoBracket(e)
    ensures Markers(Report(envelopes), digit) == AllCitations(FirstN(envelopes, MAX_ITEMS))
  {
    hide Markers, NoBracket;
    var first := FirstN(envelopes, MAX_ITEMS);
    var sections := Sections(first);
    SectionsMarkers(first, digit);
    if sections != [] {
      MarkersSkip("\n\nEvidence references:\n", JoinWith("\n", sections), digit);
    }
  }

  // ---- No stray URLs

  /** No http or https scheme anywhere. */
  predicate NoScheme(s: string) {
    s == "" || (Scheme(s) == 0 && NoScheme(s[1..]))
  }

  predicate SchemeChar(c: char) { c == 'h' || c == 't' || c == 'p' || c == 's' || c == ':' || c == '/' }

  /** No scheme can run over the seam: one side of it has a character a scheme cannot have there. */
  predicate Seam(a: string, b: string) {
    || a == "" || b == "" || !SchemeChar(a[|a| - 1]) || !SchemeChar(b[0])
    || (b[0] == ':' && |b| > 1 && b[1] != '/')
  }

  lemma SchemeStaysInside(a: string, b: string)
    requires a != "" && Seam(a, b) && Scheme(a) == 0
    ensures Scheme(a + b) == 0
  {
    var s := a + b;
    var n := Scheme(s);
    assert forall i :: 0 <= i < |a| ==> s[i] == a[i];
    assert forall i :: 0 <= i < |b| ==> s[|a| + i] == b[i];
  }

  lemma {:induction false} NoSchemeConcat(a: string, b: string)
    requires NoScheme(a) && NoScheme(b) && Seam(a, b)
    ensures NoScheme(a + b)
  {
    if a == "" {
      assert a + b == b;
    } else {
      SchemeStaysInside(a, b);
      assert (a + b)[1..] == a[1..] + b;
      NoSchemeConcat(a[1..], b);
    }
  }

  lemma {:induction false} NoSlashNoScheme(s: string)
    requires '/' !in s
    ensures NoScheme(s)
  {
    if s != "" {
      NoSlashNoScheme(s[1..]);
    }
  }

  lemma {:induction false} NoSchemeNoUrls(s: string)
    requires NoScheme(s)
    ensures Urls(s) == []
  {
    if s != "" {
      NoSchemeNoUrls(s[1..]);
    }
  }

  /** A literal no scheme can enter: it has none and neither end of it can belong to one. */
  predicate Buffer(s: string) {
    && |s| > 0 && NoScheme(s) && !SchemeChar(s[|s| - 1])
    && (!SchemeChar(s[0]) || (s[0] == ':' && |s| > 1 && s[1] != '/'))
  }

  /** A field between buffers adds no scheme. */
  lemma BetweenBuffers(literal: string, field: string, rest: string)
    requires Buffer(literal) && NoScheme(field) && NoScheme(rest)
    requires rest == "" || !SchemeChar(rest[0]) || (rest[0] == ':' && |rest| > 1 && rest[1] != '/')
    ensures NoScheme(literal + (field + rest))
  {
    NoSchemeConcat(field, rest);
    NoSchemeConcat(literal, field + rest);
  }

  lemma {:induction false} JoinNoScheme(segments: seq<Segment>, fields: seq<string>)
    requires |segments| == |fields|
    requires forall i :: 0 <= i < |segments| ==> Buffer(segments[i].literal) && NoScheme(fields[i])
    ensures var s := Join(segments, fields);
            NoScheme(s) && s != "" && (!SchemeChar(s[0]) || (s[0] == ':' && |s| > 1 && s[1] != '/'))
  {
    hide NoScheme;
    if segments == [] {
      NoSlashNoScheme("]");
    } else {
      JoinNoScheme(segments[1..], fields[1..]);
      BetweenBuffers(segments[0].literal, fields[0], Join(segments[1..], fields[1..]));
      BufferStarts(segments[0].literal, fields[0] + Join(segments[1..], fields[1..]));
    }
  }

  lemma BufferStarts(literal: string, rest: string)
    requires Buffer(literal)
    ensures var s := literal + rest; !SchemeChar(s[0]) || (s[0] == ':' && |s| > 1 && s[1] != '/')
  {
    hide NoScheme;
  }

  lemma IsBuffer(s: string)
    requires s != "" && '/' !in s && !SchemeChar(s[|s| - 1])
    requires !SchemeChar(s[0]) || (s[0] == ':' && |s| > 1 && s[1] != '/')
    ensures Buffer(s)
  {
    NoSlashNoScheme(s);
  }

  lemma FirstLiteralsAreBuffers()
    ensures Buffer("[source: ") && Buffer("; file: ") && Buffer("; lines: ") && Buffer("-")
  {
    hide Buffer;
    IsBuffer("[source: ");
    IsBuffer("; file: ");
    IsBuffer("; lines: ");
    IsBuffer("-");
  }

  lemma LastLiteralsAreBuffers()
    ensures Buffer("; sha256: ") && Buffer("; status: ") && Buffer("; trust: ")
  {
    hide Buffer;
    IsBuffer("; sha256: ");
    IsBuffer("; status: ");
    IsBuffer("; trust: ");
  }

  lemma LiteralsAreBuffers(digit: char -> Option<nat>)
    ensures var p := Pattern(digit, Plain); |p| == 7 && forall i :: 0 <= i < 7 ==> Buffer(p[i].literal)
  {
    hide Buffer, Pattern;
    LiteralsAre(digit, Plain);
    FirstLiteralsAreBuffers();
    LastLiteralsAreBuffers();
  }

  lemma HarmlessNoScheme(s: string)
    requires AllIn(s, Hex) || AllIn(s, Shout) || Canonical(s)
    ensures NoScheme(s)
  {
    hide NoScheme;
    forall i | 0 <= i < |s| ensures s[i] != '/' {
      assert Hex(s[i]) || Shout(s[i]) || AsciiDigit(s[i]);
    }
    NoSlashNoScheme(s);
  }

  /** An item whose path and trust hold no URL. */
  predicate ItemNoScheme(item: Item) {
    (item.path.Some? ==> NoScheme(item.path.value)) && (item.trust.Some? ==> NoScheme(item.trust.value))
  }

  lemma CitationNoScheme(item: Item, source: string, digit: char -> Option<nat>)
    requires DigitTable(digit) && Render(item, source).Some? && NoScheme(source) && ItemNoScheme(item)
    ensures NoScheme(Render(item, source).value) && Render(item, source).value[0] == '['
  {
    hide Join, Fields, Pattern, Decimal, NoScheme, AllIn, Hex, Shout, Canonical, Buffer, Number;
    RenderedIsWellFormed(item, source);
    var e := Validated(item).value;
    var f := Fields(source, e);
    FieldsAre(source, e);
    NumberOfDecimal(e.lineStart, digit);
    NumberOfDecimal(e.lineEnd, digit);
    StatusesShout(e.status);
    HarmlessNoScheme(f[2]);
    HarmlessNoScheme(f[3]);
    HarmlessNoScheme(f[4]);
    HarmlessNoScheme(f[5]);
    LiteralsAreBuffers(digit);
    LiteralsAre(digit, Plain);
    JoinNoScheme(Pattern(digit, Plain), f);
    TextIsJoin(source, e, digit, Plain);
    TextStart(source, e);
  }

  /** An envelope none of whose printed texts holds an opening bracket outside citations, or a URL. */
  predicate Quiet(e: Envelope) {
    && NoBracket(e)
    && (Usable(e) ==> NoScheme(e.target.value) && NoScheme(e.status.value) && NoScheme(Label(e)))
    && forall item :: item in e.items ==> ItemNoScheme(item)
  }

  predicate Bracketed(citations: seq<string>) {
    forall i :: 0 <= i < |citations| ==> citations[i] != "" && citations[i][0] == '[' && NoScheme(citations[i])
  }

  lemma CitationsBracketed(e: Envelope, digit: char -> Option<nat>)
    requires DigitTable(digit) && Usable(e) && Quiet(e)
    ensures Bracketed(CitationsOf(e))
  {
    hide Render, NoScheme, CitationList, IsSourceMarker;
    var items, citations := FirstN(e.items, MAX_ITEMS), CitationsOf(e);
    CitationsAreTheRendered(items, Label(e));
    forall i | 0 <= i < |citations|
      ensures citations[i] != "" && citations[i][0] == '[' && NoScheme(citations[i])
    {
      assert citations[i] in CitationList(items, Label(e));
      assert RenderedFrom(items, Label(e), citations[i]);
      var j :| 0 <= j < |items| && Render(items[j], Label(e)) == Some(citations[i]);
      assert items[j] in e.items;
      CitationIsMarker(items[j], Label(e), digit);
      assert citations[i] != "" by { MarkerIsNonempty(citations[i]); }
      CitationNoScheme(items[j], Label(e), digit);
    }
  }

  lemma MarkerIsNonempty(c: string)
    requires IsSourceMarker(c)
    ensures c != ""
  {
  }

  lemma {:induction false} JoinedNoScheme(separator: string, parts: seq<string>)
    requires |separator| == 1 && !SchemeChar(separator[0])
    requires forall i :: 0 <= i < |parts| ==> NoScheme(parts[i])
    ensures NoScheme(JoinWith(separator, parts))
  {
    hide NoScheme;
    if |parts| == 0 {
      NoSlashNoScheme("");
    } else if |parts| > 1 {
      var tail := JoinWith(separator, parts[1..]);
      JoinedNoScheme(separator, parts[1..]);
      NoSlashNoScheme(separator);
      NoSchemeConcat(separator, tail);
      NoSchemeConcat(parts[0], separator + tail);
    }
  }

  lemma CitedSectionNoScheme(target: string, citations: seq<string>)
    requires NoScheme(target) && Bracketed(citations)
    ensures NoScheme(target + (": " + JoinWith(" ", citations)))
  {
    hide NoScheme, JoinWith;
    var joined := JoinWith(" ", citations);
    JoinedNoScheme(" ", citations);
    NoSlashNoScheme(": ");
    NoSchemeConcat(": ", joined);
    NoSchemeConcat(target, ": " + joined);
  }

  lemma NoneNoScheme()
    ensures NoScheme("; no evidence item is available, ")
  {
    hide NoScheme;
    NoSlashNoScheme("; no evidence item is available, ");
  }

  lemma ClaimNoScheme()
    ensures NoScheme("so no source claim is asserted.")
  {
    hide NoScheme;
    NoSlashNoScheme("so no source claim is asserted.");
  }

  lemma LimitationNoScheme()
    ensures NoScheme("; no evidence item is available, " + "so no source claim is asserted.")
  {
    hide NoScheme;
    NoneNoScheme();
    ClaimNoScheme();
    NoSchemeConcat("; no evidence item is available, ", "so no source claim is asserted.");
  }

  lemma UncitedSectionNoScheme(target: string, status: string, end: string)
    requires NoScheme(target) && NoScheme(status) && NoScheme(end) && end != "" && !SchemeChar(end[0])
    ensures NoScheme(target + (": evidence status " + (status + end)))
  {
    hide NoScheme;
    var middle := ": evidence status ";
    NoSchemeConcat(status, end);
    NoSlashNoScheme(middle);
    NoSchemeConcat(middle, status + end);
    NoSchemeConcat(target, middle + (status + end));
  }

  lemma SectionNoScheme(e: Envelope, digit: char -> Option<nat>)
    requires DigitTable(digit) && Usable(e) && Quiet(e)
    ensures NoScheme(Section(e))
  {
    hide NoScheme, CitationsOf, JoinWith, Bracketed;
    if CitationsOf(e) != [] {
      CitationsBracketed(e, digit);
      CitedSectionNoScheme(e.target.value, CitationsOf(e));
    } else {
      LimitationNoScheme();
      UncitedSectionNoScheme(e.target.value, e.status.value,
                             "; no evidence item is available, " + "so no source claim is asserted.");
    }
  }

  lemma {:induction false} SectionsNoScheme(envelopes: seq<Envelope>, digit: char -> Option<nat>)
    requires DigitTable(digit) && forall e :: e in envelopes ==> Quiet(e)
    ensures forall i :: 0 <= i < |Sections(envelopes)| ==> NoScheme(Sections(envelopes)[i])
  {
    hide NoScheme, Section, Quiet;
    if envelopes != [] {
      SectionsNoScheme(envelopes[1..], digit);
      if Usable(envelopes[0]) {
        SectionNoScheme(envelopes[0], digit);
      }
    }
  }

  lemma ReportNoScheme(envelopes: seq<Envelope>, digit: char -> Option<nat>)
    requires DigitTable(digit) && forall e :: e in envelopes ==> Quiet(e)
    ensures NoScheme(Report(envelopes))
  {
    hide NoScheme, Quiet, Sections;
    var sections := Sections(FirstN(envelopes, MAX_ITEMS));
    SectionsNoScheme(FirstN(envelopes, MAX_ITEMS), digit);
    JoinedNoScheme("\n", sections);
    NoSlashNoScheme("");
    NoSlashNoScheme("\n\nEvidence references:\n");
    NoSchemeConcat("\n\nEvidence references:\n", JoinWith("\n", sections));
  }

  // ---- Transport

  /** From a report of quiet envelopes exactly the printed citations are extracted. */
  lemma CitationsSurviveTheReport(envelopes: seq<Envelope>, digit: char -> Option<nat>, x: string)
    requires DigitTable(digit) && forall e :: e in envelopes ==> Quiet(e)
    ensures x in ExtractTraceSources(Report(envelopes), digit) <==> x in AllCitations(FirstN(envelopes, MAX_ITEMS))
  {
    hide Report, Quiet, ExtractTraceSources, AllCitations, Markers, Urls;
    assert forall e :: e in envelopes ==> NoBracket(e) by {
      forall e | e in envelopes ensures NoBracket(e) {
        QuietNoBracket(e);
      }
    }
    ReportMarkers(envelopes, digit);
    ReportNoScheme(envelopes, digit);
    NoSchemeNoUrls(Report(envelopes));
    ExtractedMembers(Report(envelopes), digit, x);
  }

  lemma QuietNoBracket(e: Envelope)
    requires Quiet(e)
    ensures NoBracket(e)
  {
  }

  /** Some usable envelope prints this citation. */
  ghost predicate PrintedFrom(envelopes: seq<Envelope>, x: string, e: Envelope) {
    e in envelopes && Usable(e) && x in CitationsOf(e)
  }

  lemma {:induction false} AllCitationsArePrinted(envelopes: seq<Envelope>, x: string)
    requires x in AllCitations(envelopes)
    ensures exists e :: PrintedFrom(envelopes, x, e)
  {
    hide CitationsOf;
    if Usable(envelopes[0]) && x in CitationsOf(envelopes[0]) {
      assert PrintedFrom(envelopes, x, envelopes[0]);
    } else {
      AllCitationsArePrinted(envelopes[1..], x);
      var e :| PrintedFrom(envelopes[1..], x, e);
      assert PrintedFrom(envelopes, x, e);
    }
  }

  /** Every item's trust is over capitals and underscores. */
  predicate TrustsShout(e: Envelope) {
    forall item :: item in e.items && item.trust.Some? ==> AllIn(item.trust.value, Shout)
  }

  lemma PrintedVerifies(e: Envelope, x: string, digit: char -> Option<nat>)
    requires DigitTable(digit) && TrustsShout(e) && x in CitationsOf(e)
    ensures Verifies(x, e.items, Some(Label(e)), digit)
  {
    hide Render, Verifies, AllIn, CitationList;
    var items := FirstN(e.items, MAX_ITEMS);
    CitationsAreTheRendered(items, Label(e));
    assert RenderedFrom(items, Label(e), x);
    var i :| 0 <= i < |items| && Render(items[i], Label(e)) == Some(x);
    assert items[i] == e.items[i];
    RenderedIsWellFormed(items[i], Label(e));
    TrustIsItems(items[i]);
    OwnCitationVerifiesExactlyWhen(e.items, i, Label(e), digit);
  }

  lemma TrustIsItems(item: Item)
    requires Validated(item).Some?
    ensures item.trust == Some(Validated(item).value.trust)
  {
  }

  /** Whatever is extracted was printed for some envelope and verifies against that envelope's items. */
  lemma ExtractedCitationsVerify(envelopes: seq<Envelope>, digit: char -> Option<nat>, x: string)
    requires DigitTable(digit) && forall e :: e in envelopes ==> Quiet(e) && TrustsShout(e)
    requires x in ExtractTraceSources(Report(envelopes), digit)
    ensures exists e :: PrintedFrom(envelopes, x, e) && Verifies(x, e.items, Some(Label(e)), digit)
  {
    hide Report, Quiet, ExtractTraceSources, AllCitations, Verifies, TrustsShout, CitationsOf;
    var first := FirstN(envelopes, MAX_ITEMS);
    CitationsSurviveTheReport(envelopes, digit, x);
    AllCitationsArePrinted(first, x);
    var e :| PrintedFrom(first, x, e);
    assert PrintedFrom(envelopes, x, e);
    PrintedVerifies(e, x, digit);
  }

  // ---- The loop

  lemma {:induction false} SectionsAppend(front: seq<Envelope>, e: Envelope)
    ensures Sections(front + [e]) == Sections(front) + if Usable(e) then [Section(e)] else []
  {
    hide Section;
    if front == [] {
      assert front + [e] == [e] && [e][1..] == [];
    } else {
      SectionsAppend(front[1..], e);
      assert (front + [e])[1..] == front[1..] + [e];
    }
  }

  lemma SectionsNext(envelopes: seq<Envelope>)
    requires envelopes != []
    ensures var last := envelopes[|envelopes| - 1];
            Sections(envelopes) == Sections(envelopes[..|envelopes| - 1]) + if Usable(last) then [Section(last)] else []
  {
    hide Section, Sections;
    SectionsAppend(envelopes[..|envelopes| - 1], envelopes[|envelopes| - 1]);
    assert envelopes == envelopes[..|envelopes| - 1] + [envelopes[|envelopes| - 1]];
  }

  method RenderEvidenceReport(envelopes: seq<Envelope>) returns (report: string)
    ensures report == Report(envelopes)
  {
    hide Section, CitationsOf;
    var first := FirstN(envelopes, MAX_ITEMS);
    var sections: seq<string> := [];
    assert first[..0] == [];
    for i := 0 to |first|
      invariant sections == Sections(first[..i])
    {
      var e := first[i];
      assert first[..i + 1][..i] == first[..i];
      SectionsNext(first[..i + 1]);
      if e.target.None? || e.status.None? { continue; }
      var section := RenderSection(e);
      sections := sections + [section];
    }
    assert first[..|first|] == first;
    if sections == [] { return ""; }
    report := "\n\nEvidence references:\n" + JoinWith("\n", sections);
  }

  method RenderSection(e: Envelope) returns (section: string)
    requires Usable(e)
    ensures section == Section(e)
  {
    var citations := RenderEvidenceCitations(e.items, Label(e));
    if citations != [] {
      section := e.target.value + (": " + JoinWith(" ", citations));
    } else {
      section := e.target.value + (": evidence status " + (e.status.value +
                 ("; no evidence item is available, " + "so no source claim is asserted.")));
    }
  }
}
