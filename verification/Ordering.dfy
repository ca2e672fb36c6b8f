/** Stable sorting by a comparison, as the builtin `sorted` and SQL `ORDER BY` provide it. */
module Ordering {

  /** Total and transitive: what a sort key gives. */
  ghost predicate TotalPreorder<T(!new)>(le: (T, T) -> bool) {
    && (forall x, y :: le(x, y) || le(y, x))
    && (forall x, y, z :: le(x, y) && le(y, z) ==> le(x, z))
  }

  ghost predicate SortedBy<T>(le: (T, T) -> bool, s: seq<T>) {
    forall i, j :: 0 <= i < j < |s| ==> le(s[i], s[j])
  }

  /** No two elements tie, so the order of the result is forced. */
  ghost predicate NoTies<T>(le: (T, T) -> bool, s: multiset<T>) {
    forall x, y :: x in s && y in s && le(x, y) && le(y, x) ==> x == y
  }

  /** x goes before the first element it is not greater than. */
  function Insert<T>(le: (T, T) -> bool, x: T, s: seq<T>): (r: seq<T>)
    ensures multiset(r) == multiset(s) + multiset{x}
    ensures |r| == |s| + 1
  {
    if s == [] then [x]
    else if le(x, s[0]) then [x] + s
    else
      assert s == [s[0]] + s[1..];
      [s[0]] + Insert(le, x, s[1..])
  }

  function Sort<T>(le: (T, T) -> bool, s: seq<T>): (r: seq<T>)
    ensures multiset(r) == multiset(s)
    ensures |r| == |s|
  {
    if s == [] then []
    else
      assert s == [s[0]] + s[1..];
      Insert(le, s[0], Sort(le, s[1..]))
  }

  lemma InsertMembers<T>(le: (T, T) -> bool, x: T, s: seq<T>)
    ensures forall y :: y in Insert(le, x, s) <==> y == x || y in s
  {
    forall y ensures y in Insert(le, x, s) <==> y == x || y in s {
      assert y in multiset(Insert(le, x, s)) <==> y in multiset(s) + multiset{x};
    }
  }

  lemma SortMembers<T>(le: (T, T) -> bool, s: seq<T>)
    ensures forall y :: y in Sort(le, s) <==> y in s
  {
    forall y ensures y in Sort(le, s) <==> y in s {
      assert y in multiset(Sort(le, s)) <==> y in multiset(s);
    }
  }

  lemma {:induction false} InsertSorted<T(!new)>(le: (T, T) -> bool, x: T, s: seq<T>)
    requires TotalPreorder(le) && SortedBy(le, s)
    ensures SortedBy(le, Insert(le, x, s))
  {
    if s != [] && !le(x, s[0]) {
      InsertSorted(le, x, s[1..]);
      InsertMembers(le, x, s[1..]);
      var t := Insert(le, x, s[1..]);
      forall j | 0 <= j < |t| ensures le(s[0], t[j]) {
        assert t[j] in t;
      }
    }
  }

  lemma {:induction false} SortSorted<T(!new)>(le: (T, T) -> bool, s: seq<T>)
    requires TotalPreorder(le)
    ensures SortedBy(le, Sort(le, s))
  {
    if s != [] {
      SortSorted(le, s[1..]);
      InsertSorted(le, s[0], Sort(le, s[1..]));
    }
  }

  function Filter<T>(p: T -> bool, s: seq<T>): seq<T> {
    if s == [] then [] else (if p(s[0]) then [s[0]] else []) + Filter(p, s[1..])
  }

  lemma FilterCons<T>(p: T -> bool, x: T, s: seq<T>)
    ensures Filter(p, [x] + s) == (if p(x) then [x] else []) + Filter(p, s)
  {
    assert ([x] + s)[1..] == s;
  }

  lemma {:induction false} InsertIsStable<T(!new)>(le: (T, T) -> bool, p: T -> bool, x: T, s: seq<T>)
    requires forall a, b :: p(a) && p(b) ==> le(a, b)
    ensures Filter(p, Insert(le, x, s)) == (if p(x) then [x] else []) + Filter(p, s)
  {
    hide Filter;
    if s == [] || le(x, s[0]) {
      FilterCons(p, x, s);
      assert s == [] ==> [x] + s == [x];
    } else {
      assert s == [s[0]] + s[1..];
      assert !(p(x) && p(s[0]));
      InsertIsStable(le, p, x, s[1..]);
      FilterCons(p, s[0], s[1..]);
      FilterCons(p, s[0], Insert(le, x, s[1..]));
    }
  }

  /** Elements that tie keep their order. */
  lemma {:induction false} SortIsStable<T(!new)>(le: (T, T) -> bool, p: T -> bool, s: seq<T>)
    requires forall a, b :: p(a) && p(b) ==> le(a, b)
    ensures Filter(p, Sort(le, s)) == Filter(p, s)
  {
    if s != [] {
      SortIsStable(le, p, s[1..]);
      InsertIsStable(le, p, s[0], Sort(le, s[1..]));
    }
  }

  lemma HeadIsLeast<T>(le: (T, T) -> bool, a: seq<T>, x: T)
    requires SortedBy(le, a) && x in a
    ensures x == a[0] || le(a[0], x)
  {
    var i :| 0 <= i < |a| && a[i] == x;
  }

  lemma TailMultiset<T>(a: seq<T>)
    requires a != []
    ensures multiset(a[1..]) == multiset(a) - multiset{a[0]}
  {
    assert a == [a[0]] + a[1..];
  }

  lemma HeadsAgree<T>(le: (T, T) -> bool, a: seq<T>, b: seq<T>)
    requires SortedBy(le, a) && SortedBy(le, b) && a != [] && b != []
    requires multiset(a) == multiset(b) && NoTies(le, multiset(a))
    ensures a[0] == b[0]
  {
    assert a[0] in multiset(b) && b[0] in multiset(a);
    HeadIsLeast(le, a, b[0]);
    HeadIsLeast(le, b, a[0]);
  }

  lemma TailStaysInOrder<T>(le: (T, T) -> bool, a: seq<T>)
    requires SortedBy(le, a) && NoTies(le, multiset(a)) && a != []
    ensures SortedBy(le, a[1..]) && NoTies(le, multiset(a[1..]))
  {
    TailMultiset(a);
  }

  lemma SameHeadAndTail<T>(a: seq<T>, b: seq<T>)
    requires a != [] && b != [] && a[0] == b[0] && a[1..] == b[1..]
    ensures a == b
  {
    assert a == [a[0]] + a[1..] && b == [b[0]] + b[1..];
  }

  /** Two sorted arrangements of the same tie-free elements are equal. */
  lemma {:induction false} SortedUnique<T>(le: (T, T) -> bool, a: seq<T>, b: seq<T>)
    requires SortedBy(le, a) && SortedBy(le, b)
    requires multiset(a) == multiset(b) && NoTies(le, multiset(a))
    ensures a == b
  {
    hide *;
    assert |a| == |multiset(a)| == |multiset(b)| == |b|;
    if a != [] {
      HeadsAgree(le, a, b);
      TailMultiset(a);
      TailMultiset(b);
      TailStaysInOrder(le, a);
      TailStaysInOrder(le, b);
      SortedUnique(le, a[1..], b[1..]);
      SameHeadAndTail(a, b);
    }
  }

  predicate Distinct<T(==)>(s: seq<T>) {
    forall i, j :: 0 <= i < j < |s| ==> s[i] != s[j]
  }

  lemma {:induction false} DistinctCounts<T>(s: seq<T>, x: T)
    requires Distinct(s)
    ensures multiset(s)[x] == if x in s then 1 else 0
  {
    if s != [] {
      var front, last := s[..|s| - 1], s[|s| - 1];
      DistinctCounts(front, x);
      assert s == front + [last];
      assert multiset(s) == multiset(front) + multiset{last};
    }
  }

  lemma TwiceCounts<T>(s: seq<T>, i: nat, j: nat)
    requires i < j < |s| && s[i] == s[j]
    ensures multiset(s)[s[i]] >= 2
  {
    assert s == s[..j] + [s[j]] + s[j + 1..];
    assert s[i] in s[..j];
  }

  predicate DistinctKeys<T, K(==)>(key: T -> K, s: seq<T>) {
    forall i, j :: 0 <= i < j < |s| ==> key(s[i]) != key(s[j])
  }

  /** Rearranging elements with distinct keys leaves the keys distinct. */
  lemma KeysStayDistinct<T, K>(key: T -> K, s: seq<T>, t: seq<T>)
    requires DistinctKeys(key, s) && multiset(s) == multiset(t)
    ensures DistinctKeys(key, t)
  {
    assert Distinct(s) by {
      forall i, j | 0 <= i < j < |s| ensures s[i] != s[j] {
        assert key(s[i]) != key(s[j]);
      }
    }
    forall i, j | 0 <= i < j < |t| ensures key(t[i]) != key(t[j]) {
      assert t[i] in multiset(s) && t[j] in multiset(s);
      var a :| 0 <= a < |s| && s[a] == t[i];
      var b :| 0 <= b < |s| && s[b] == t[j];
      DistinctCounts(s, t[i]);
      if t[i] == t[j] {
        TwiceCounts(t, i, j);
      }
    }
  }

  /** Without repetitions, having the same elements is having the same multiset. */
  lemma SameElementsSameMultiset<T>(a: seq<T>, b: seq<T>)
    requires Distinct(a) && Distinct(b) && forall x :: x in a <==> x in b
    ensures multiset(a) == multiset(b)
  {
    forall x ensures multiset(a)[x] == multiset(b)[x] {
      DistinctCounts(a, x);
      DistinctCounts(b, x);
    }
  }

  /** Sorting depends only on which elements are given, when no two tie. */
  lemma SortIsUnique<T(!new)>(le: (T, T) -> bool, s: seq<T>, sorted: seq<T>)
    requires TotalPreorder(le) && SortedBy(le, sorted)
    requires multiset(s) == multiset(sorted) && NoTies(le, multiset(s))
    ensures Sort(le, s) == sorted
  {
    SortSorted(le, s);
    SortedUnique(le, Sort(le, s), sorted);
  }

  /** Code-point order of strings. */
  predicate StringLe(a: string, b: string) {
    a == [] || (b != [] && (a[0] < b[0] || (a[0] == b[0] && StringLe(a[1..], b[1..]))))
  }

  lemma {:induction false} StringLeTotal(a: string, b: string)
    ensures StringLe(a, b) || StringLe(b, a)
    ensures StringLe(a, b) && StringLe(b, a) ==> a == b
  {
    if a != [] && b != [] && a[0] == b[0] {
      StringLeTotal(a[1..], b[1..]);
      assert a == [a[0]] + a[1..] && b == [b[0]] + b[1..];
    }
  }

  lemma {:induction false} StringLeTransitive(a: string, b: string, c: string)
    requires StringLe(a, b) && StringLe(b, c)
    ensures StringLe(a, c)
  {
    if a != [] && a[0] == b[0] == c[0] {
      StringLeTransitive(a[1..], b[1..], c[1..]);
    }
  }

  lemma StringLeOrder()
    ensures TotalPreorder(StringLe)
    ensures forall a, b :: StringLe(a, b) && StringLe(b, a) ==> a == b
  {
    forall a, b ensures (StringLe(a, b) || StringLe(b, a)) && (StringLe(a, b) && StringLe(b, a) ==> a == b) {
      StringLeTotal(a, b);
    }
    forall a, b, c | StringLe(a, b) && StringLe(b, c) ensures StringLe(a, c) {
      StringLeTransitive(a, b, c);
    }
  }

  /** The strings agree up to some point, where the first one ends or has the smaller character. */
  predicate Lexicographic(a: string, b: string) {
    exists n :: 0 <= n <= |a| && n <= |b| && a[..n] == b[..n] && (n == |a| || (n < |b| && a[n] < b[n]))
  }

  lemma SharedHead(c: char, a: string, b: string)
    ensures Lexicographic([c] + a, [c] + b) <==> Lexicographic(a, b)
  {
    var x, y := [c] + a, [c] + b;
    if n :| 0 <= n <= |a| && n <= |b| && a[..n] == b[..n] && (n == |a| || (n < |b| && a[n] < b[n])) {
      assert x[..n + 1] == [c] + a[..n] && y[..n + 1] == [c] + b[..n];
    }
    if n :| 0 < n <= |x| && n <= |y| && x[..n] == y[..n] && (n == |x| || (n < |y| && x[n] < y[n])) {
      assert a[..n - 1] == x[..n][1..] && b[..n - 1] == y[..n][1..];
    }
  }

  lemma {:induction false} StringLeIsLexicographic(a: string, b: string)
    ensures StringLe(a, b) <==> Lexicographic(a, b)
  {
    if a == [] {
      assert a[..0] == b[..0];
    } else if b != [] && a[0] == b[0] {
      hide Lexicographic;
      StringLeIsLexicographic(a[1..], b[1..]);
      SharedHead(a[0], a[1..], b[1..]);
      assert a == [a[0]] + a[1..] && b == [b[0]] + b[1..];
    } else if b != [] {
      assert a[..0] == b[..0];
      assert forall n :: 0 < n <= |a| && n <= |b| ==> a[..n][0] != b[..n][0];
    }
  }
}
