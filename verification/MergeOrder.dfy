/** The merged answer in terms of the results alone: what a fused result is, and that the answer runs from the best. */
module MergeOrder {
  import opened Common
  import opened Ordering
  import opened SearchMerge

  // ---- A fused result

  /** The result at `i` has the longest content, among those a primary source if any is, among those the least rank, and
      is the first such one. */
  ghost predicate BestAt(group: seq<Result>, i: nat)
    requires i < |group|
  {
    forall j :: 0 <= j < |group| && j != i ==>
      var best, other := group[i], group[j];
      || |other.content| < |best.content|
      || (|other.content| == |best.content| && best.primary && !other.primary)
      || (|other.content| == |best.content| && best.primary == other.primary && best.rank < other.rank)
      || (|other.content| == |best.content| && best.primary == other.primary && best.rank == other.rank && i < j)
  }

  ghost predicate IsBest(group: seq<Result>, best: Result) {
    exists i :: 0 <= i < |group| && group[i] == best && BestAt(group, i)
  }

  lemma RepresentativeIsBest(group: seq<Result>)
    requires group != []
    ensures IsBest(group, Representative(group))
  {
    hide Representative;
    RepresentativeIsFirstMaximal(group);
    var i: nat :| FirstMaximal(group, i) && group[i] == Representative(group);
    assert BestAt(group, i);
  }

  /** Every provider of the group, and none else, at the least rank it gave. */
  ghost predicate LeastRanks(group: seq<Result>, ranks: map<string, Rank>) {
    && (forall i :: 0 <= i < |group| ==> group[i].provider in ranks && ranks[group[i].provider] <= group[i].rank)
    && (forall p :: p in ranks ==> exists i :: 0 <= i < |group| && group[i].provider == p && group[i].rank == ranks[p])
  }

  lemma RanksAreLeast(group: seq<Result>)
    ensures LeastRanks(group, RanksOf(group))
  {
    hide RanksOf;
    var ranks := RanksOf(group);
    forall i | 0 <= i < |group|
      ensures group[i].provider in ranks && ranks[group[i].provider] <= group[i].rank
    {
      assert Offers(group, group[i].provider, group[i].rank);
      RanksAreMinima(group, group[i].provider, group[i].rank);
    }
    forall p | p in ranks
      ensures exists i :: 0 <= i < |group| && group[i].provider == p && group[i].rank == ranks[p]
    {
      RanksAreMinima(group, p, ranks[p]);
    }
  }

  /** The providers, each once, in order of their first result. */
  ghost predicate ByFirstResult(group: seq<Result>, providers: seq<string>) {
    forall i, j :: 0 <= i < j < |providers| ==> SeenBefore(group, providers[i], providers[j])
  }

  ghost predicate SeenBefore(group: seq<Result>, p: string, q: string) {
    exists a :: 0 <= a < |group| && group[a].provider == p && forall b :: 0 <= b <= a ==> group[b].provider != q
  }

  lemma SeenBeforeNext(group: seq<Result>, p: string, q: string)
    requires group != [] && SeenBefore(group[..|group| - 1], p, q)
    ensures SeenBefore(group, p, q)
  {
    var front := group[..|group| - 1];
    var a :| 0 <= a < |front| && front[a].provider == p && forall b :: 0 <= b <= a ==> front[b].provider != q;
    assert group[a].provider == p && forall b :: 0 <= b <= a ==> group[b] == front[b];
  }

  lemma {:induction false} ProvidersByFirstResult(group: seq<Result>)
    ensures ByFirstResult(group, ProvidersOf(group))
    ensures forall p :: p in ProvidersOf(group) <==> exists i :: 0 <= i < |group| && group[i].provider == p
  {
    if group != [] {
      var n := |group| - 1;
      var front, known := group[..n], ProvidersOf(group[..n]);
      ProvidersByFirstResult(front);
      assert forall i :: 0 <= i < n ==> front[i] == group[i];
      var providers := ProvidersOf(group);
      forall i, j | 0 <= i < j < |providers| ensures SeenBefore(group, providers[i], providers[j]) {
        if j < |known| {
          SeenBeforeNext(group, providers[i], providers[j]);
        } else {
          assert providers[i] in known;
          var a :| 0 <= a < n && front[a].provider == providers[i];
          assert forall b :: 0 <= b <= a ==> group[b].provider != providers[j];
        }
      }
    }
  }

  /** The sum of 1 / (k + rank) over a set of providers. */
  ghost function Shares(providers: set<string>, ranks: map<string, Rank>, k: nat): real
    requires providers <= ranks.Keys
  {
    if providers == {} then 0.0
    else
      var p :| p in providers;
      1.0 / ((k + ranks[p]) as real) + Shares(providers - {p}, ranks, k)
  }

  /** Which provider is added first does not matter. */
  lemma {:induction false} SharesWithout(providers: set<string>, ranks: map<string, Rank>, k: nat, p: string)
    requires p in providers && providers <= ranks.Keys
    ensures Shares(providers, ranks, k) == 1.0 / ((k + ranks[p]) as real) + Shares(providers - {p}, ranks, k)
    decreases |providers|
  {
    var q :| q in providers &&
             Shares(providers, ranks, k) == 1.0 / ((k + ranks[q]) as real) + Shares(providers - {q}, ranks, k);
    if q != p {
      SharesWithout(providers - {q}, ranks, k, p);
      SharesWithout(providers - {p}, ranks, k, q);
      assert providers - {q} - {p} == providers - {p} - {q};
    }
  }

  function Names(order: seq<string>): set<string> {
    set p | p in order
  }

  lemma {:induction false} SumIsShares(order: seq<string>, ranks: map<string, Rank>, k: nat)
    requires Distinct(order) && forall p :: p in order ==> p in ranks
    ensures ReciprocalRanks(order, ranks, k) == Shares(Names(order), ranks, k)
  {
    if order != [] {
      var front, last := order[..|order| - 1], order[|order| - 1];
      SumIsShares(front, ranks, k);
      SharesWithout(Names(order), ranks, k, last);
      assert Names(order) - {last} == Names(front) by {
        assert order == front + [last];
      }
    }
  }

  /** A group's fused result: its best result, every provider's least rank, the least of them, and the score. */
  ghost predicate IsFused(f: Fused, group: seq<Result>, official: bool, recent: string -> real, k: nat) {
    && IsBest(group, f.best)
    && LeastRanks(group, f.ranks)
    && (exists i :: 0 <= i < |group| && group[i].rank == f.rank)
    && (forall i :: 0 <= i < |group| ==> f.rank <= group[i].rank)
    && Distinct(f.foundBy) && Names(f.foundBy) == f.ranks.Keys && ByFirstResult(group, f.foundBy)
    && f.score == Shares(f.ranks.Keys, f.ranks, k) + (if f.best.primary then 0.03 else 0.0) +
                  (if f.best.primary && official then 0.12 else 0.0) + recent(f.best.publishedAt)
  }

  lemma FuseGroupIsFused(group: seq<Result>, official: bool, recent: string -> real, k: nat)
    requires group != []
    ensures IsFused(FuseGroup(group, official, recent, k), group, official, recent, k)
  {
    hide Representative, LeastRank, RanksOf, ProvidersOf, ReciprocalRanks, IsBest, LeastRanks, ByFirstResult, Shares;
    ProvidersAreRanked(group);
    RepresentativeIsBest(group);
    RanksAreLeast(group);
    LeastRankIsLeast(group);
    ProvidersByFirstResult(group);
    SumIsShares(ProvidersOf(group), RanksOf(group), k);
    assert Names(ProvidersOf(group)) == RanksOf(group).Keys;
  }

  // ---- The answer

  /** The better score comes first; equal ones go to the primary source, then the lower rank, then the URL that is
      earlier in code-point order. */
  ghost predicate ComesFirst(a: Fused, b: Fused) {
    || a.score > b.score
    || (a.score == b.score && a.best.primary && !b.best.primary)
    || (a.score == b.score && a.best.primary == b.best.primary && a.rank < b.rank)
    || (a.score == b.score && a.best.primary == b.best.primary && a.rank == b.rank && a.best.url != b.best.url &&
        Lexicographic(a.best.url, b.best.url))
  }

  lemma PrecedesComesFirst(a: Fused, b: Fused)
    requires Precedes(a, b) && a.best.url != b.best.url
    ensures ComesFirst(a, b)
  {
    StringLeIsLexicographic(a.best.url, b.best.url);
  }

  /** The groups' fused results, those of the answer from the best to the worst and before all those cut off. */
  ghost predicate BestFirst(answer: seq<Fused>, fused: seq<Fused>) {
    && (forall i :: 0 <= i < |answer| ==> answer[i] in fused)
    && (forall i, j :: 0 <= i < j < |answer| ==> ComesFirst(answer[i], answer[j]))
    && (forall f :: f in fused ==> f in answer || forall i :: 0 <= i < |answer| ==> ComesFirst(answer[i], f))
  }

  lemma PrefixIsBestFirst(fused: seq<Fused>, full: seq<Fused>, n: nat)
    requires multiset(full) == multiset(fused) && SortedBy(Precedes, full) && n <= |full|
    requires DistinctKeys((f: Fused) => f.best.url, full)
    ensures BestFirst(full[..n], fused)
  {
    hide Precedes, ComesFirst;
    var key := (f: Fused) => f.best.url;
    forall i, j | 0 <= i < j < |full| ensures ComesFirst(full[i], full[j]) {
      assert key(full[i]) != key(full[j]);
      PrecedesComesFirst(full[i], full[j]);
    }
    forall f | f in fused ensures f in full[..n] || forall i :: 0 <= i < n ==> ComesFirst(full[i], f) {
      assert f in multiset(full);
      var j :| 0 <= j < |full| && full[j] == f;
      if j < n {
        assert full[..n][j] == f;
      }
    }
    forall i | 0 <= i < n ensures full[i] in fused {
      assert full[i] in multiset(fused);
    }
  }

  /** The answer runs from the best fused result to the worst, and no group that is cut off comes before one that is
      kept, for any requested length. */
  lemma MergeIsBestFirst(answer: seq<Fused>, results: seq<Result>, similar: (string, string) -> bool, official: bool,
                         recent: string -> real, k: nat, maxResults: int)
    requires IsMerge(answer, results, similar, official, recent, k, maxResults)
    ensures var groups := GroupAll(results, similar).groups;
            exists fused: seq<Fused> ::
              && |fused| == |groups|
              && (forall h :: 0 <= h < |groups| ==> IsFused(fused[h], groups[h], official, recent, k))
              && BestFirst(answer, fused)
  {
    hide GroupAll, FuseGroup, SortedBy, Precedes, IsFused, BestFirst;
    var groups := GroupAll(results, similar).groups;
    var fused, full :| FusesGroups(fused, groups, official, recent, k) && multiset(full) == multiset(fused) &&
                       SortedBy(Precedes, full) && answer == Prefix(full, maxResults);
    forall h | 0 <= h < |groups| ensures IsFused(fused[h], groups[h], official, recent, k) {
      FuseGroupIsFused(groups[h], official, recent, k);
    }
    FusedUrlsDiffer(results, similar, fused, official, recent, k);
    KeysStayDistinct((f: Fused) => f.best.url, fused, full);
    PrefixIsTake(full, maxResults);
    PrefixIsBestFirst(fused, full, |answer|);
  }

  lemma PrefixIsTake<T>(s: seq<T>, n: int)
    ensures |Prefix(s, n)| <= |s| && Prefix(s, n) == s[..|Prefix(s, n)|]
  {
  }
}
