/** The hybrid ranking in terms of the two lists alone: what a row scores, and that the answer runs from the best. */
module RankingOrder {
  import opened Common
  import opened Ordering
  import opened HybridRanking
  import Text

  // ---- The order of the answer

  /** The better score comes first; equal ones go by document in code-point order, then by chunk. */
  ghost predicate ComesFirst(a: Item, b: Item) {
    var x, y := a.row.key, b.row.key;
    || a.rerank > b.rerank
    || (a.rerank == b.rerank && x.document != y.document && Lexicographic(x.document, y.document))
    || (a.rerank == b.rerank && x.document == y.document && x.chunk < y.chunk)
  }

  lemma BeforeComesFirst(a: Item, b: Item)
    requires Before(a, b) && a.row.key != b.row.key
    ensures ComesFirst(a, b)
  {
    StringLeIsLexicographic(a.row.key.document, b.row.key.document);
  }

  /** For any top_k the answer runs from the best row to the worst, and every row of either list that it leaves out
      comes after all those it gives. */
  lemma ResultsAreBestFirst(results: seq<Item>, full: seq<Item>, fts: seq<Row>, vector: seq<Row>, k: nat,
                            bonus: Row -> real, topK: int)
    requires IsRanking(full, fts, vector, k, bonus) && results == Prefix(full, topK)
    ensures forall i, j :: 0 <= i < j < |results| ==> ComesFirst(results[i], results[j])
    ensures forall key, i :: (Has(fts, key) || Has(vector, key)) && !Listed(results, key) && 0 <= i < |results| ==>
              Ideal(fts, vector, key, k, bonus).Some? &&
              ComesFirst(results[i], Ideal(fts, vector, key, k, bonus).value)
  {
    hide Before, ComesFirst, Ideal, Has;
    var n := |results|;
    assert results == full[..n];
    forall i, j | 0 <= i < j < |full| ensures ComesFirst(full[i], full[j]) {
      BeforeComesFirst(full[i], full[j]);
    }
    forall key, i | (Has(fts, key) || Has(vector, key)) && !Listed(results, key) && 0 <= i < n
      ensures Ideal(fts, vector, key, k, bonus).Some?
      ensures ComesFirst(results[i], Ideal(fts, vector, key, k, bonus).value)
    {
      assert Listed(full, key);
      var j :| 0 <= j < |full| && full[j].row.key == key;
      assert full[j].row.key != results[i].row.key ==> i != j;
      assert forall m :: 0 <= m < n ==> results[m] == full[m];
    }
  }

  // ---- The score

  /** The position of a key in a list that has it once or not at all. */
  ghost predicate Once(rows: seq<Row>, key: Key, i: nat) {
    i < |rows| && rows[i].key == key && forall j :: 0 <= j < |rows| && j != i ==> rows[j].key != key
  }

  /** What a list adds to a key: 1 / (k + 1) for its first row, 1 / (k + 2) for the second, and so on. */
  lemma ListAdds(rows: seq<Row>, key: Key, k: nat)
    ensures forall i: nat :: Once(rows, key, i) ==> ListScore(rows, key, k) == 1.0 / ((k + i + 1) as real)
    ensures !Has(rows, key) ==> ListScore(rows, key, k) == 0.0
  {
    hide ListScore;
    FirstRowHas(rows, key);
    forall i: nat | Once(rows, key, i) ensures ListScore(rows, key, k) == 1.0 / ((k + i + 1) as real) {
      OneShareEach(rows, i, k);
    }
  }

  /** The first row of a list with this key. */
  ghost predicate FirstAt(rows: seq<Row>, key: Key, i: nat) {
    i < |rows| && rows[i].key == key && forall j :: 0 <= j < i ==> rows[j].key != key
  }

  lemma {:induction false} FirstRowIsFirst(rows: seq<Row>, key: Key, i: nat)
    requires FirstAt(rows, key, i)
    ensures FirstRow(rows, key) == Some(rows[i])
  {
    var front := rows[..|rows| - 1];
    if i < |front| {
      assert FirstAt(front, key, i);
      FirstRowIsFirst(front, key, i);
    } else {
      FirstRowHas(front, key);
    }
  }

  /** A row found by both lists keeps what the text list says of it and earns a share from each; its final score adds
      the bonus of that row. */
  lemma ItemExactly(fts: seq<Row>, vector: seq<Row>, key: Key, k: nat, bonus: Row -> real, i: nat, j: nat)
    ensures Once(fts, key, i) && Once(vector, key, j) ==>
              Ideal(fts, vector, key, k, bonus) ==
              var rrf := 1.0 / ((k + i + 1) as real) + 1.0 / ((k + j + 1) as real);
              Some(Item(fts[i], rrf, rrf + bonus(fts[i])))
    ensures Once(fts, key, i) && !Has(vector, key) ==>
              Ideal(fts, vector, key, k, bonus) ==
              Some(Item(fts[i], 1.0 / ((k + i + 1) as real), 1.0 / ((k + i + 1) as real) + bonus(fts[i])))
    ensures !Has(fts, key) && Once(vector, key, j) ==>
              Ideal(fts, vector, key, k, bonus) ==
              Some(Item(vector[j], 1.0 / ((k + j + 1) as real), 1.0 / ((k + j + 1) as real) + bonus(vector[j])))
    ensures !Has(fts, key) && !Has(vector, key) ==> Ideal(fts, vector, key, k, bonus) == None
  {
    hide ListScore, FirstRow;
    ListAdds(fts, key, k);
    ListAdds(vector, key, k);
    FirstRowHas(fts, key);
    FirstRowHas(vector, key);
    if Once(fts, key, i) {
      FirstRowIsFirst(fts, key, i);
    }
    if Once(vector, key, j) {
      FirstRowIsFirst(vector, key, j);
    }
  }

  // ---- The bonus

  /** The line's first character that is no whitespace is a number sign. */
  ghost predicate Heading(line: string) {
    exists n :: 0 <= n < |line| && line[n] == '#' && forall i :: 0 <= i < n ==> Text.IsSpace(line[i])
  }

  lemma HeadingIsHeading(line: string)
    ensures IsHeading(line) <==> Heading(line)
  {
    Text.LeadingSpacesAreSpaces(line);
    var n := Text.LeadingSpaces(line);
    assert line[n..] != "" ==> line[n..][0] == line[n];
    assert !Text.IsSpace('#');
  }

  /** The heading lines among these, in order. */
  ghost function Headings(lines: seq<string>): seq<string> {
    if lines == [] then []
    else if Heading(lines[0]) then [lines[0]] + Headings(lines[1..])
    else Headings(lines[1..])
  }

  lemma {:induction false} FilteredAreHeadings(lines: seq<string>)
    ensures Filter(IsHeading, lines) == Headings(lines)
  {
    hide IsHeading, Heading;
    if lines != [] {
      FilteredAreHeadings(lines[1..]);
      HeadingIsHeading(lines[0]);
    }
  }

  function Matched(query: set<string>, terms: set<string>): nat {
    |query * terms|
  }

  /** In hundredths: a point for each query term in the content, two for each in the filename, two for each in the
      heading lines, and one when some line has them all. */
  lemma BonusInHundredths(query: set<string>, row: Row, lex: Lexer)
    ensures var lines := lex.lines(row.content);
            100.0 * Bonus(query, row, lex) ==
            (Matched(query, lex.terms(row.content)) + 2 * Matched(query, lex.terms(row.filename)) +
             2 * Matched(query, lex.terms(JoinWith("\n", Headings(lines)))) +
             if exists i :: 0 <= i < |lines| && forall t :: t in query ==> t in lex.terms(lines[i])
             then 1 else 0) as real
  {
    FilteredAreHeadings(lex.lines(row.content));
  }
}
