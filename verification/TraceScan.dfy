/** What the trace extraction takes for a marker and for a URL, as patterns, and that it is their leftmost scan. */
module TraceScan {
  import opened Common
  import opened DelimitedText
  import opened Ordering
  import opened CitationTransport
  import Text

  // ---- Scanning for a pattern

  /** Some nonempty text of the pattern begins at p. */
  ghost predicate BeginsAt(s: string, p: nat, pattern: string -> bool) {
    exists q :: p < q <= |s| && pattern(s[p..q])
  }

  /** No text of the pattern begins from p up to q. */
  ghost predicate NoneBegins(s: string, p: nat, q: nat, pattern: string -> bool) {
    forall i :: p <= i < q ==> !BeginsAt(s, i, pattern)
  }

  function EndOf(found: seq<string>, at: seq<nat>, k: nat): nat
    requires k <= |found| == |at|
  {
    if k == 0 then 0 else at[k - 1] + |found[k - 1]|
  }

  /** The k-th text found begins at at[k], is the longest one there, and none begins between the end of its
      predecessor and its own beginning. */
  ghost predicate FoundAt(s: string, found: seq<string>, at: seq<nat>, k: nat, pattern: string -> bool)
    requires k < |found| == |at|
  {
    var p, q := at[k], at[k] + |found[k]|;
    && EndOf(found, at, k) <= p < q <= |s| && s[p..q] == found[k] && pattern(found[k])
    && (forall r :: q < r <= |s| ==> !pattern(s[p..r]))
    && NoneBegins(s, EndOf(found, at, k), p, pattern)
  }

  /** The texts of the pattern, left to right, not overlapping, at these positions. */
  ghost predicate Scan(s: string, found: seq<string>, at: seq<nat>, pattern: string -> bool) {
    && |at| == |found|
    && (forall k :: 0 <= k < |found| ==> FoundAt(s, found, at, k, pattern))
    && NoneBegins(s, EndOf(found, at, |found|), |s|, pattern)
  }

  function Shift(at: seq<nat>, n: nat): seq<nat> {
    seq(|at|, i requires 0 <= i < |at| => at[i] + n)
  }

  lemma BeginsShifted(s: string, n: nat, p: nat, pattern: string -> bool)
    requires n <= |s|
    ensures BeginsAt(s[n..], p, pattern) <==> BeginsAt(s, p + n, pattern)
  {
    if q :| p < q <= |s[n..]| && pattern(s[n..][p..q]) {
      assert s[n..][p..q] == s[p + n..q + n];
    }
    var m := p + n;
    if q :| m < q <= |s| && pattern(s[m..q]) {
      assert s[n..][p..q - n] == s[m..q];
    }
  }

  lemma NoneShifted(s: string, n: nat, p: nat, q: nat, pattern: string -> bool)
    requires n <= |s| && NoneBegins(s[n..], p, q, pattern)
    ensures NoneBegins(s, p + n, q + n, pattern)
  {
    hide BeginsAt;
    forall i | p + n <= i < q + n ensures !BeginsAt(s, i, pattern) {
      BeginsShifted(s, n, i - n, pattern);
    }
  }

  lemma FoundShifted(s: string, n: nat, found: seq<string>, at: seq<nat>, k: nat, pattern: string -> bool)
    requires n <= |s| && k < |found| == |at| && FoundAt(s[n..], found, at, k, pattern)
    ensures var p, q := at[k] + n, at[k] + n + |found[k]|;
            && EndOf(found, at, k) + n <= p < q <= |s| && s[p..q] == found[k] && pattern(found[k])
            && (forall r :: q < r <= |s| ==> !pattern(s[p..r]))
            && NoneBegins(s, EndOf(found, at, k) + n, p, pattern)
  {
    var p, q := at[k] + n, at[k] + n + |found[k]|;
    assert s[n..][at[k]..at[k] + |found[k]|] == s[p..q];
    forall r | q < r <= |s| ensures !pattern(s[p..r]) {
      assert s[n..][at[k]..r - n] == s[p..r];
    }
    NoneShifted(s, n, EndOf(found, at, k), at[k], pattern);
  }

  lemma ScanSkips(s: string, found: seq<string>, at: seq<nat>, pattern: string -> bool)
    requires s != "" && Scan(s[1..], found, at, pattern) && !BeginsAt(s, 0, pattern)
    ensures Scan(s, found, Shift(at, 1), pattern)
  {
    hide BeginsAt;
    forall k | 0 <= k < |found| ensures FoundAt(s, found, Shift(at, 1), k, pattern) {
      FoundShifted(s, 1, found, at, k, pattern);
    }
    NoneShifted(s, 1, EndOf(found, at, |found|), |s| - 1, pattern);
  }

  lemma ScanTakes(s: string, n: nat, found: seq<string>, at: seq<nat>, pattern: string -> bool)
    requires 0 < n <= |s| && Scan(s[n..], found, at, pattern)
    requires pattern(s[..n]) && forall r :: n < r <= |s| ==> !pattern(s[..r])
    ensures Scan(s, [s[..n]] + found, [0] + Shift(at, n), pattern)
  {
    hide BeginsAt;
    var texts, places := [s[..n]] + found, [0] + Shift(at, n);
    forall k | 0 <= k < |texts| ensures FoundAt(s, texts, places, k, pattern) {
      if k > 0 {
        FoundShifted(s, n, found, at, k - 1, pattern);
        assert EndOf(texts, places, k) == EndOf(found, at, k - 1) + n;
      } else {
        assert forall r :: n <= r <= |s| ==> s[0..r] == s[..r];
      }
    }
    NoneShifted(s, n, EndOf(found, at, |found|), |s| - n, pattern);
    assert EndOf(texts, places, |texts|) == EndOf(found, at, |found|) + n;
  }

  // ---- Markers

  /** In brackets: `source:` and anything but a closing bracket, or digits. */
  ghost predicate MarkerText(t: string, digit: char -> Option<nat>) {
    || (|t| >= 10 && t[..8] == "[source:" && t[|t| - 1] == ']' && forall i :: 8 <= i < |t| - 1 ==> t[i] != ']')
    || (|t| >= 3 && t[0] == '[' && t[|t| - 1] == ']' && forall i :: 1 <= i < |t| - 1 ==> digit(t[i]).Some?)
  }

  ghost function MarkerPattern(digit: char -> Option<nat>): string -> bool {
    t => MarkerText(t, digit)
  }

  /** The digits a runtime knows include neither the closing bracket nor the letter that begins `source`. */
  predicate NoBracketDigits(digit: char -> Option<nat>) {
    digit('s').None? && digit(']').None?
  }

  lemma SourceMarkerFound(s: string, digit: char -> Option<nat>, m: nat)
    requires "[source:" <= s && NoBracketDigits(digit) && m <= |s|
    ensures var n := Marker(s, digit);
            (n > 0 ==> MarkerText(s[..n], digit)) && (MarkerText(s[..m], digit) ==> m == n)
  {
    var r := Run(s[8..], NotClose);
    assert forall i :: 0 <= i < r ==> s[8..][..r][i] == s[8 + i];
    assert s[8..][..r] == s[8..8 + r];
    var n := Marker(s, digit);
    if n > 0 {
      assert s[..n][..8] == s[..8];
      assert s[8..][r] == s[8 + r];
    }
    var t := s[..m];
    if m >= 3 {
      assert t[1] == s[1] == 's';
    }
    if MarkerText(t, digit) {
      assert forall i :: 8 <= i < m - 1 ==> t[i] == s[i];
      assert t[m - 1] == s[m - 1];
      assert 8 + r < |s| ==> s[8..][r] == s[8 + r] == ']';
    }
  }

  lemma NumberMarkerFound(s: string, digit: char -> Option<nat>, m: nat)
    requires !("[source:" <= s) && "[" <= s && NoBracketDigits(digit) && m <= |s|
    ensures var n := Marker(s, digit);
            (n > 0 ==> MarkerText(s[..n], digit)) && (MarkerText(s[..m], digit) ==> m == n)
  {
    var isDigit := (c: char) => digit(c).Some?;
    var r := Run(s[1..], isDigit);
    assert forall i :: 0 <= i < r ==> s[1..][..r][i] == s[1 + i];
    var n, t := Marker(s, digit), s[..m];
    if n > 0 {
      assert s[..n][0] == s[0] == '[' && s[..n][n - 1] == s[1 + r];
      assert forall i :: 1 <= i < n - 1 ==> s[..n][i] == s[1..][..r][i - 1];
    }
    if MarkerText(t, digit) {
      assert m >= 8 ==> t[..8] == s[..8];
      assert forall i :: 1 <= i < m - 1 ==> t[i] == s[i];
      assert t[m - 1] == s[m - 1];
      assert 1 + r < |s| ==> s[1..][r] == s[1 + r];
    }
  }

  /** A marker begins a text exactly when the reader finds one, and it is the one it finds. */
  lemma MarkerIsTheMatch(s: string, digit: char -> Option<nat>, m: nat)
    requires NoBracketDigits(digit) && m <= |s|
    ensures var n := Marker(s, digit);
            (n > 0 ==> MarkerText(s[..n], digit)) && (MarkerText(s[..m], digit) ==> m == n > 0)
  {
    if "[source:" <= s {
      SourceMarkerFound(s, digit, m);
    } else if "[" <= s {
      NumberMarkerFound(s, digit, m);
    } else if MarkerText(s[..m], digit) {
      assert s[..m][0] == s[0];
      assert |s[..m]| >= 8 ==> s[..m][..8][0] == s[0];
    }
  }

  /** The markers are the leftmost scan for their pattern. */
  lemma {:induction false} MarkersAreTheScan(s: string, digit: char -> Option<nat>) returns (at: seq<nat>)
    requires NoBracketDigits(digit)
    ensures Scan(s, Markers(s, digit), at, MarkerPattern(digit))
  {
    var pattern := MarkerPattern(digit);
    if s == "" {
      return [];
    }
    hide Scan, Marker, MarkerText;
    var n := Marker(s, digit);
    forall m | 0 <= m <= |s| ensures (n > 0 ==> pattern(s[..n])) && (pattern(s[..m]) ==> m == n > 0) {
      MarkerIsTheMatch(s, digit, m);
    }
    if n > 0 {
      var rest := MarkersAreTheScan(s[n..], digit);
      ScanTakes(s, n, Markers(s[n..], digit), rest, pattern);
      at := [0] + Shift(rest, n);
    } else {
      var rest := MarkersAreTheScan(s[1..], digit);
      assert forall q :: 0 < q <= |s| ==> s[0..q] == s[..q];
      ScanSkips(s, Markers(s[1..], digit), rest, pattern);
      at := Shift(rest, 1);
    }
  }

  // ---- URLs

  predicate EndsUrl(c: char) {
    Text.IsSpace(c) || c == ')' || c == ']' || c == '}'
  }

  /** A scheme and at least one character, none of them whitespace or a closing bracket. */
  ghost predicate UrlText(t: string) {
    || (|t| > 7 && t[..7] == "http://" && forall i :: 7 <= i < |t| ==> !EndsUrl(t[i]))
    || (|t| > 8 && t[..8] == "https://" && forall i :: 8 <= i < |t| ==> !EndsUrl(t[i]))
  }

  ghost function UrlPattern(): string -> bool {
    t => UrlText(t)
  }

  /** How far the URL at the beginning of a text reaches. */
  function UrlLength(s: string): (n: nat)
    ensures n <= |s|
  {
    var n := Scheme(s);
    var m := if n > 0 then Run(s[n..], UrlChar) else 0;
    if m > 0 then n + m else 0
  }

  lemma SchemeIs(s: string)
    ensures Scheme(s) == if "http://" <= s then 7 else if "https://" <= s then 8 else 0
  {
    assert "http://" <= s ==> s[..7] == "http://";
    assert "https://" <= s ==> s[..8] == "https://";
    assert |s| >= 7 && s[..7] == "http://" ==> s[4] == ':';
    if |s| >= 7 && s[0] == 'h' && s[1] == 't' && s[2] == 't' && s[3] == 'p' {
      if s[4] == ':' && s[5] == '/' && s[6] == '/' {
        assert s[..7] == "http://";
      }
      if |s| >= 8 && s[4] == 's' && s[5] == ':' && s[6] == '/' && s[7] == '/' {
        assert s[..8] == "https://";
      }
    }
  }

  /** The longest URL that begins a text. */
  lemma UrlIsTheMatch(s: string, m: nat)
    requires m <= |s|
    ensures var n := UrlLength(s);
            (n > 0 ==> UrlText(s[..n])) && (UrlText(s[..m]) ==> m <= n)
  {
    SchemeIs(s);
    hide Scheme;
    var k := Scheme(s);
    var r := if k > 0 then Run(s[k..], UrlChar) else 0;
    var n, t := UrlLength(s), s[..m];
    if n > 0 {
      assert s[..n][..k] == s[..k];
      assert forall i :: k <= i < n ==> s[..n][i] == s[k..][..r][i - k];
    }
    if UrlText(t) {
      assert m > 8 ==> t[..8] == s[..8];
      assert t[..7] == s[..7];
      assert forall i :: 7 <= i < m ==> t[i] == s[i];
      assert k + r < |s| ==> s[k..][r] == s[k + r];
    }
  }

  /** The URLs are the leftmost scan for their pattern. */
  lemma {:induction false} UrlsAreTheScan(s: string) returns (at: seq<nat>)
    ensures Scan(s, Urls(s), at, UrlPattern())
  {
    var pattern := UrlPattern();
    if s == "" {
      return [];
    }
    hide Scan, Scheme, UrlText;
    var n := UrlLength(s);
    forall m | 0 <= m <= |s| ensures (n > 0 ==> pattern(s[..n])) && (pattern(s[..m]) ==> m <= n) {
      UrlIsTheMatch(s, m);
    }
    if n > 0 {
      var rest := UrlsAreTheScan(s[n..]);
      ScanTakes(s, n, Urls(s[n..]), rest, pattern);
      at := [0] + Shift(rest, n);
    } else {
      var rest := UrlsAreTheScan(s[1..]);
      assert forall q :: 0 < q <= |s| ==> s[0..q] == s[..q];
      ScanSkips(s, Urls(s[1..]), rest, pattern);
      at := Shift(rest, 1);
    }
  }

  // ---- The extraction

  /** What is extracted from any text is every marker and every URL of the two leftmost scans, and nothing else. */
  lemma ExtractionIsTheScans(output: string, digit: char -> Option<nat>)
    returns (markers: seq<string>, places: seq<nat>, urls: seq<string>, urlPlaces: seq<nat>)
    requires NoBracketDigits(digit)
    ensures Scan(output, markers, places, MarkerPattern(digit)) && Scan(output, urls, urlPlaces, UrlPattern())
    ensures forall x :: x in ExtractTraceSources(output, digit) <==> x in markers || x in urls
  {
    hide Scan, Markers, Urls, ExtractTraceSources;
    markers, urls := Markers(output, digit), Urls(output);
    places := MarkersAreTheScan(output, digit);
    urlPlaces := UrlsAreTheScan(output);
    forall x ensures x in ExtractTraceSources(output, digit) <==> x in markers || x in urls {
      ExtractedMembers(output, digit, x);
    }
  }

  /** There is only one scan of a text for a pattern. */
  lemma {:induction false} ScanIsUnique(s: string, a: seq<string>, aAt: seq<nat>, b: seq<string>, bAt: seq<nat>,
                                        pattern: string -> bool, n: nat)
    requires Scan(s, a, aAt, pattern) && Scan(s, b, bAt, pattern) && n <= |a|
    ensures n <= |b| && a[..n] == b[..n] && aAt[..n] == bAt[..n]
    ensures n == |a| ==> a == b && aAt == bAt
  {
    if n > 0 {
      ScanIsUnique(s, a, aAt, b, bAt, pattern, n - 1);
      SameNext(s, a, aAt, b, bAt, pattern, n - 1);
    }
    if n == |a| && n < |b| {
      assert FoundAt(s, b, bAt, n, pattern);
      assert EndOf(a, aAt, n) == EndOf(b, bAt, n);
      assert BeginsAt(s, bAt[n], pattern);
    }
  }

  lemma SameNext(s: string, a: seq<string>, aAt: seq<nat>, b: seq<string>, bAt: seq<nat>, pattern: string -> bool,
                 k: nat)
    requires Scan(s, a, aAt, pattern) && Scan(s, b, bAt, pattern) && k < |a|
    requires k <= |b| && a[..k] == b[..k] && aAt[..k] == bAt[..k]
    ensures k < |b| && a[..k + 1] == b[..k + 1] && aAt[..k + 1] == bAt[..k + 1]
  {
    assert FoundAt(s, a, aAt, k, pattern);
    assert k > 0 ==> a[k - 1] == a[..k][k - 1] && aAt[k - 1] == aAt[..k][k - 1];
    assert k > 0 ==> b[k - 1] == b[..k][k - 1] && bAt[k - 1] == bAt[..k][k - 1];
    assert EndOf(a, aAt, k) == EndOf(b, bAt, k);
    assert BeginsAt(s, aAt[k], pattern);
    if k < |b| {
      assert FoundAt(s, b, bAt, k, pattern);
      assert BeginsAt(s, bAt[k], pattern);
      assert aAt[k] == bAt[k];
      var p := aAt[k];
      assert pattern(s[p..p + |a[k]|]) && pattern(s[p..p + |b[k]|]);
    }
  }
}
