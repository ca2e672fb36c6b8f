/** Fusing the full-text and the vector candidate lists into one ranking. */
module HybridRanking {
  import opened Common
  import opened Ordering
  import Text

  /** A candidate's identity. */
  datatype Key = Key(document: string, chunk: int)

  /** A candidate row: its identity and everything else it carries. */
  datatype Row = Row(key: Key, content: string, filename: string)

  /** A fused row while and after scoring. */
  datatype Item = Item(row: Row, rrf: real, rerank: real)

  function Share(k: nat, rank: nat): real
    requires rank >= 1
  {
    1.0 / ((k + rank) as real)
  }

  /** What one list gives a key: a share for every position it holds there. */
  function ListScore(rows: seq<Row>, key: Key, k: nat): real {
    if rows == [] then 0.0
    else
      ListScore(rows[..|rows| - 1], key, k) +
      if rows[|rows| - 1].key == key then Share(k, |rows|) else 0.0
  }

  predicate Has(rows: seq<Row>, key: Key) {
    exists i :: 0 <= i < |rows| && rows[i].key == key
  }

  /** The first row with a key. */
  function FirstRow(rows: seq<Row>, key: Key): Option<Row> {
    if rows == [] then None
    else
      var front := FirstRow(rows[..|rows| - 1], key);
      if front.None? && rows[|rows| - 1].key == key then Some(rows[|rows| - 1]) else front
  }

  /** The fused table after some rows of a list: setdefault, then add the share. */
  function Fuse(fused: map<Key, Item>, rows: seq<Row>, k: nat): map<Key, Item> {
    if rows == [] then fused
    else
      var before, row := Fuse(fused, rows[..|rows| - 1], k), rows[|rows| - 1];
      var item := if row.key in before then before[row.key] else Item(row, 0.0, 0.0);
      before[row.key := item.(rrf := item.rrf + Share(k, |rows|))]
  }

  function Fused(fts: seq<Row>, vector: seq<Row>, k: nat): map<Key, Item> {
    Fuse(Fuse(map[], fts, k), vector, k)
  }

  // ---- The declarative ranking

  /** A key's row is the one of the first list that has it, its score the sum over both lists. */
  function Ideal(fts: seq<Row>, vector: seq<Row>, key: Key, k: nat, bonus: Row -> real): Option<Item> {
    var row := if FirstRow(fts, key).Some? then FirstRow(fts, key) else FirstRow(vector, key);
    if row.None? then None
    else
      var rrf := ListScore(fts, key, k) + ListScore(vector, key, k);
      Some(Item(row.value, rrf, rrf + bonus(row.value)))
  }

  /** Best rerank score first, then document, then chunk. */
  predicate Before(a: Item, b: Item) {
    a.rerank > b.rerank ||
    (a.rerank == b.rerank &&
     if a.row.key.document == b.row.key.document then a.row.key.chunk <= b.row.key.chunk
     else StringLe(a.row.key.document, b.row.key.document))
  }

  lemma BeforeIsOrder()
    ensures TotalPreorder(Before)
  {
    StringLeOrder();
    forall a: Item, b: Item ensures Before(a, b) || Before(b, a) {
      assert StringLe(a.row.key.document, b.row.key.document) || StringLe(b.row.key.document, a.row.key.document);
    }
    forall a: Item, b: Item, c: Item | Before(a, b) && Before(b, c) ensures Before(a, c) {
      BeforeTransitive(a, b, c);
    }
  }

  lemma BeforeTransitive(a: Item, b: Item, c: Item)
    requires Before(a, b) && Before(b, c)
    ensures Before(a, c)
  {
    var x, y, z := a.row.key.document, b.row.key.document, c.row.key.document;
    if StringLe(x, y) && StringLe(y, z) {
      StringLeTransitive(x, y, z);
    }
    StringLeTotal(x, y);
    StringLeTotal(y, z);
  }

  lemma BeforeAntisymmetric(a: Item, b: Item)
    requires Before(a, b) && Before(b, a)
    ensures a.row.key == b.row.key
  {
    StringLeTotal(a.row.key.document, b.row.key.document);
  }

  // ---- The rerank bonus

  /** How text is cut: the search terms of a text, and its lines. */
  datatype Lexer = Lexer(terms: string -> set<string>, lines: string -> seq<string>)

  predicate IsHeading(line: string) {
    var rest := line[Text.LeadingSpaces(line)..];
    rest != "" && rest[0] == '#'
  }

  /** All query terms on one line. */
  ghost predicate SameLine(query: set<string>, content: string, lex: Lexer) {
    exists i :: 0 <= i < |lex.lines(content)| && query <= lex.terms(lex.lines(content)[i])
  }

  /** Matches in the content, the filename and the headings, and all terms on one line. */
  ghost function Bonus(query: set<string>, row: Row, lex: Lexer): real {
    var headings := JoinWith("\n", Filter(IsHeading, lex.lines(row.content)));
    0.01 * (|query * lex.terms(row.content)| as real) +
    0.02 * (|query * lex.terms(row.filename)| as real) +
    0.02 * (|query * lex.terms(headings)| as real) +
    if SameLine(query, row.content, lex) then 0.01 else 0.0
  }

  ghost function BonusOf(query: set<string>, lex: Lexer): Row -> real {
    (row: Row) => Bonus(query, row, lex)
  }

  lemma OverlapIsSmaller(query: set<string>, terms: set<string>)
    ensures |query * terms| <= |query|
  {
    assert query == query * terms + (query - terms);
  }

  /** Whatever the texts, the bonus is at most a twentieth per query term and a hundredth more, and reaches that only
      when content and filename hold every term and one line holds them all. */
  lemma BonusIsBounded(query: set<string>, row: Row, lex: Lexer)
    ensures 0.0 <= Bonus(query, row, lex) <= 0.05 * (|query| as real) + 0.01
    ensures Bonus(query, row, lex) == 0.05 * (|query| as real) + 0.01 ==>
              query <= lex.terms(row.content) && query <= lex.terms(row.filename) && SameLine(query, row.content, lex)
  {
    var headings := JoinWith("\n", Filter(IsHeading, lex.lines(row.content)));
    OverlapIsSmaller(query, lex.terms(row.content));
    OverlapIsSmaller(query, lex.terms(row.filename));
    OverlapIsSmaller(query, lex.terms(headings));
    FullOverlap(query, lex.terms(row.content));
    FullOverlap(query, lex.terms(row.filename));
  }

  lemma FullOverlap(query: set<string>, terms: set<string>)
    ensures |query * terms| == |query| ==> query <= terms
  {
    assert query == query * terms + (query - terms);
  }

  method RerankScore(query: set<string>, row: Row, rrf: real, lex: Lexer) returns (score: real)
    ensures score == rrf + Bonus(query, row, lex)
  {
    var lines := lex.lines(row.content);
    var exactTermMatch := |query * lex.terms(row.content)|;
    var filenameRelevance := |query * lex.terms(row.filename)|;
    var headingMatch := |query * lex.terms(JoinWith("\n", Filter(IsHeading, lines)))|;
    var proximity := 0;
    for i := 0 to |lines|
      invariant proximity == 0 && forall j :: 0 <= j < i ==> !(query <= lex.terms(lines[j]))
    {
      if query <= lex.terms(lines[i]) {
        proximity := 1;
        break;
      }
    }
    score := rrf + 0.01 * (exactTermMatch as real) + 0.02 * (filenameRelevance as real) + 0.02 * (headingMatch as real)
             + 0.01 * (proximity as real);
  }

  // ---- The fused table

  lemma {:induction false} FirstRowHas(rows: seq<Row>, key: Key)
    ensures FirstRow(rows, key).Some? <==> Has(rows, key)
    ensures FirstRow(rows, key).Some? ==> FirstRow(rows, key).value.key == key
    ensures !Has(rows, key) ==> forall k :: ListScore(rows, key, k) == 0.0
  {
    if rows != [] {
      var front, last := rows[..|rows| - 1], rows[|rows| - 1];
      FirstRowHas(front, key);
      if Has(front, key) {
        var i :| 0 <= i < |front| && front[i].key == key;
        assert rows[i].key == key;
      }
      if Has(rows, key) && last.key != key {
        var i :| 0 <= i < |rows| && rows[i].key == key;
        assert front[i].key == key;
      }
    }
  }

  /** What a pass over one list leaves for one key. */
  ghost predicate FusedAt(before: map<Key, Item>, after: map<Key, Item>, rows: seq<Row>, key: Key, k: nat) {
    && (key in after <==> key in before || FirstRow(rows, key).Some?)
    && (key in after ==>
          if key in before then after[key] == before[key].(rrf := before[key].rrf + ListScore(rows, key, k))
          else after[key] == Item(FirstRow(rows, key).value, ListScore(rows, key, k), 0.0))
  }

  lemma {:induction false} FuseAt(before: map<Key, Item>, rows: seq<Row>, key: Key, k: nat)
    ensures FusedAt(before, Fuse(before, rows, k), rows, key, k)
  {
    if rows != [] {
      FuseAt(before, rows[..|rows| - 1], key, k);
      FirstRowHas(rows[..|rows| - 1], key);
    }
  }

  function Scored(item: Item, bonus: Row -> real): Item {
    item.(rerank := item.rrf + bonus(item.row))
  }

  /** The two in-place passes leave exactly the declarative score of every key in either list. */
  lemma FusedIsIdeal(fts: seq<Row>, vector: seq<Row>, key: Key, k: nat, bonus: Row -> real)
    ensures var fused := Fused(fts, vector, k);
            && (key in fused <==> Has(fts, key) || Has(vector, key))
            && (key in fused ==> fused[key].row.key == key &&
                                 Ideal(fts, vector, key, k, bonus) == Some(Scored(fused[key], bonus)))
  {
    FuseAt(map[], fts, key, k);
    FuseAt(Fuse(map[], fts, k), vector, key, k);
    FirstRowHas(fts, key);
    FirstRowHas(vector, key);
  }

  /** The full ranking of two lists: in order, every key of either list once, with its ideal item. */
  ghost predicate IsRanking(full: seq<Item>, fts: seq<Row>, vector: seq<Row>, k: nat, bonus: Row -> real) {
    && SortedBy(Before, full)
    && (forall i, j :: 0 <= i < j < |full| ==> full[i].row.key != full[j].row.key)
    && (forall i :: 0 <= i < |full| ==> Ideal(fts, vector, full[i].row.key, k, bonus) == Some(full[i]))
    && (forall key :: Has(fts, key) || Has(vector, key) ==> Listed(full, key))
  }

  ghost predicate Listed(full: seq<Item>, key: Key) {
    exists i :: 0 <= i < |full| && full[i].row.key == key
  }

  lemma SameItems(a: seq<Item>, b: seq<Item>, fts: seq<Row>, vector: seq<Row>, k: nat, bonus: Row -> real, x: Item)
    requires IsRanking(a, fts, vector, k, bonus) && IsRanking(b, fts, vector, k, bonus) && x in a
    ensures x in b
  {
    var i :| 0 <= i < |a| && a[i] == x;
    assert Ideal(fts, vector, a[i].row.key, k, bonus) == Some(a[i]);
    FirstRowHas(fts, x.row.key);
    FirstRowHas(vector, x.row.key);
    assert Listed(b, x.row.key);
    var j :| 0 <= j < |b| && b[j].row.key == x.row.key;
    assert Ideal(fts, vector, b[j].row.key, k, bonus) == Some(b[j]);
  }

  lemma RankingNoTies(a: seq<Item>, fts: seq<Row>, vector: seq<Row>, k: nat, bonus: Row -> real)
    requires IsRanking(a, fts, vector, k, bonus)
    ensures NoTies(Before, multiset(a)) && Distinct(a)
  {
    forall x, y | x in multiset(a) && y in multiset(a) && Before(x, y) && Before(y, x) ensures x == y {
      BeforeAntisymmetric(x, y);
      var i :| 0 <= i < |a| && a[i] == x;
      var j :| 0 <= j < |a| && a[j] == y;
    }
  }

  /** There is only one ranking. */
  lemma RankingIsUnique(a: seq<Item>, b: seq<Item>, fts: seq<Row>, vector: seq<Row>, k: nat, bonus: Row -> real)
    requires IsRanking(a, fts, vector, k, bonus) && IsRanking(b, fts, vector, k, bonus)
    ensures a == b
  {
    RankingNoTies(a, fts, vector, k, bonus);
    RankingNoTies(b, fts, vector, k, bonus);
    forall x ensures x in a <==> x in b {
      if x in a {
        SameItems(a, b, fts, vector, k, bonus, x);
      }
      if x in b {
        SameItems(b, a, fts, vector, k, bonus, x);
      }
    }
    SameElementsSameMultiset(a, b);
    SortedUnique(Before, a, b);
  }

  /** Swapping the lists changes nothing when rows they share agree. */
  lemma RankingIgnoresListOrder(full: seq<Item>, fts: seq<Row>, vector: seq<Row>, k: nat, bonus: Row -> real)
    requires forall key :: FirstRow(fts, key).Some? && FirstRow(vector, key).Some? ==>
               FirstRow(fts, key) == FirstRow(vector, key)
    ensures IsRanking(full, fts, vector, k, bonus) <==> IsRanking(full, vector, fts, k, bonus)
  {
    forall key ensures Ideal(fts, vector, key, k, bonus) == Ideal(vector, fts, key, k, bonus) {
    }
  }

  /** In a list without repeated keys a key earns one share, for the one position it holds. */
  lemma {:induction false} OneShareEach(rows: seq<Row>, i: nat, k: nat)
    requires i < |rows|
    requires forall j :: 0 <= j < |rows| && j != i ==> rows[j].key != rows[i].key
    ensures ListScore(rows, rows[i].key, k) == Share(k, i + 1)
  {
    var front := rows[..|rows| - 1];
    if i == |front| {
      FirstRowHas(front, rows[i].key);
      forall j | 0 <= j < |front| ensures front[j].key != rows[i].key {
        assert front[j] == rows[j];
      }
    } else {
      OneShareEach(front, i, k);
    }
  }

  // ---- The loops

  /** One pass: setdefault and add, remembering new keys in insertion order. */
  method FuseList(fused0: map<Key, Item>, order0: seq<Key>, rows: seq<Row>, k: nat)
    returns (fused: map<Key, Item>, order: seq<Key>)
    requires Distinct(order0) && forall key :: key in order0 <==> key in fused0
    ensures fused == Fuse(fused0, rows, k)
    ensures Distinct(order) && forall key :: key in order <==> key in fused
  {
    fused, order := fused0, order0;
    assert rows[..0] == [];
    for i := 0 to |rows|
      invariant fused == Fuse(fused0, rows[..i], k)
      invariant Distinct(order) && forall key :: key in order <==> key in fused
    {
      assert rows[..i + 1][..i] == rows[..i];
      var row := rows[i];
      if row.key !in fused {
        fused := fused[row.key := Item(row, 0.0, 0.0)];
        order := order + [row.key];
      }
      var item := fused[row.key];
      fused := fused[row.key := item.(rrf := item.rrf + 1.0 / ((k + (i + 1)) as real))];
    }
    assert rows[..|rows|] == rows;
  }

  /** The top_k prefix of the one ranking of the two lists. */
  method HybridResults(fts: seq<Row>, vector: seq<Row>, topK: int, k: nat, query: set<string>, lex: Lexer)
    returns (results: seq<Item>)
    ensures exists full :: IsRanking(full, fts, vector, k, BonusOf(query, lex)) && results == Prefix(full, topK)
  {
    hide Bonus;
    var fused, order := FuseList(map[], [], fts, k);
    fused, order := FuseList(fused, order, vector, k);
    assert fused == Fused(fts, vector, k);
    var items: seq<Item> := [];
    for i := 0 to |order|
      invariant |items| == i
      invariant forall j :: 0 <= j < i ==> items[j] == Scored(fused[order[j]], BonusOf(query, lex))
    {
      var item := fused[order[i]];
      var score := RerankScore(query, item.row, item.rrf, lex);
      items := items + [item.(rerank := score)];
    }
    var ranked := Sort(Before, items);
    SortedItemsRank(items, order, fts, vector, k, BonusOf(query, lex));
    results := Prefix(ranked, topK);
  }

  /** Items that score each fused key once sort into the ranking. */
  lemma {:induction false} SortedItemsRank(items: seq<Item>, order: seq<Key>, fts: seq<Row>, vector: seq<Row>, k: nat,
                                           bonus: Row -> real)
    requires Distinct(order) && |items| == |order|
    requires forall key :: key in order <==> key in Fused(fts, vector, k)
    requires forall j :: 0 <= j < |items| ==> items[j] == Scored(Fused(fts, vector, k)[order[j]], bonus)
    ensures IsRanking(Sort(Before, items), fts, vector, k, bonus)
  {
    var full := Sort(Before, items);
    BeforeIsOrder();
    SortSorted(Before, items);
    SortMembers(Before, items);
    ItemsHaveKeys(items, order, fts, vector, k, bonus);
    SortKeepsKeysDistinct(items);
    forall i | 0 <= i < |full| ensures Ideal(fts, vector, full[i].row.key, k, bonus) == Some(full[i]) {
      assert full[i] in items;
    }
    forall key | Has(fts, key) || Has(vector, key) ensures Listed(full, key) {
      FusedIsIdeal(fts, vector, key, k, bonus);
      var j :| 0 <= j < |order| && order[j] == key;
      assert items[j] in full;
      var i :| 0 <= i < |full| && full[i] == items[j];
      assert full[i].row.key == key;
    }
  }

  lemma ItemsHaveKeys(items: seq<Item>, order: seq<Key>, fts: seq<Row>, vector: seq<Row>, k: nat, bonus: Row -> real)
    requires Distinct(order) && |items| == |order|
    requires forall key :: key in order <==> key in Fused(fts, vector, k)
    requires forall j :: 0 <= j < |items| ==> items[j] == Scored(Fused(fts, vector, k)[order[j]], bonus)
    ensures forall j :: 0 <= j < |items| ==>
              items[j].row.key == order[j] && Ideal(fts, vector, order[j], k, bonus) == Some(items[j])
  {
    forall j | 0 <= j < |items|
      ensures items[j].row.key == order[j] && Ideal(fts, vector, order[j], k, bonus) == Some(items[j])
    {
      assert order[j] in order;
      FusedIsIdeal(fts, vector, order[j], k, bonus);
    }
  }

  lemma SortKeepsKeysDistinct(items: seq<Item>)
    requires forall i, j :: 0 <= i < j < |items| ==> items[i].row.key != items[j].row.key
    ensures var full := Sort(Before, items);
            forall i, j :: 0 <= i < j < |full| ==> full[i].row.key != full[j].row.key
  {
    var key := (item: Item) => item.row.key;
    KeysStayDistinct(key, items, Sort(Before, items));
  }
}
