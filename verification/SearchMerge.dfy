/** Merging the results of several search providers: grouping, then rank fusion, then one order. */
module SearchMerge {
  import opened Common
  import opened Ordering

  /** Ranks count from one. */
  type Rank = n: nat | n >= 1 witness 1

  /** A search result: provider, canonical URL, domain and what else the merge reads. */
  datatype Result = Result(provider: string, title: string, url: string, domain: string, content: string,
                           primary: bool, rank: Rank, publishedAt: string)

  datatype Fused = Fused(best: Result, rank: Rank, foundBy: seq<string>, ranks: map<string, Rank>, score: real)

  // ---- Grouping

  /** The groups, and for every URL met so far the group it went to. */
  datatype Grouping = Grouping(groups: seq<seq<Result>>, byUrl: map<string, nat>)

  /** The group's first result has r's domain and a similar title. */
  predicate NearHead(group: seq<Result>, r: Result, similar: (string, string) -> bool) {
    group != [] && group[0].domain == r.domain && similar(group[0].title, r.title)
  }

  function FirstNear(groups: seq<seq<Result>>, r: Result, similar: (string, string) -> bool): (i: nat)
    ensures i <= |groups|
    ensures i < |groups| ==> NearHead(groups[i], r, similar)
    ensures forall j :: 0 <= j < i ==> !NearHead(groups[j], r, similar)
  {
    if groups == [] || NearHead(groups[0], r, similar) then 0 else 1 + FirstNear(groups[1..], r, similar)
  }

  /** The group a result joins; one past the last is a new group. */
  function Place(g: Grouping, r: Result, similar: (string, string) -> bool): nat {
    if r.url in g.byUrl then g.byUrl[r.url] else FirstNear(g.groups, r, similar)
  }

  function AddTo(groups: seq<seq<Result>>, i: nat, r: Result): seq<seq<Result>> {
    if i < |groups| then groups[i := groups[i] + [r]] else groups + [[r]]
  }

  function Add(g: Grouping, r: Result, similar: (string, string) -> bool): Grouping {
    var i := Place(g, r, similar);
    Grouping(AddTo(g.groups, i, r), if r.url in g.byUrl then g.byUrl else g.byUrl[r.url := i])
  }

  function GroupAll(results: seq<Result>, similar: (string, string) -> bool): Grouping {
    if results == [] then Grouping([], map[])
    else Add(GroupAll(results[..|results| - 1], similar), results[|results| - 1], similar)
  }

  /** For each result, the group it joins when it is met. */
  function Assigned(results: seq<Result>, similar: (string, string) -> bool): (a: seq<nat>)
    ensures |a| == |results|
  {
    if results == [] then []
    else
      var front, last := results[..|results| - 1], results[|results| - 1];
      Assigned(front, similar) + [Place(GroupAll(front, similar), last, similar)]
  }

  /** The results assigned to one group, in the order met. */
  function Members(results: seq<Result>, places: seq<nat>, h: nat): seq<Result>
    requires |results| == |places|
  {
    if results == [] then []
    else
      var n := |results| - 1;
      Members(results[..n], places[..n], h) + if places[n] == h then [results[n]] else []
  }

  ghost predicate UrlKnown(results: seq<Result>, url: string) {
    exists i :: 0 <= i < |results| && results[i].url == url
  }

  /** Every result is in exactly the group it is assigned to, and the URL index agrees. */
  ghost predicate Grouped(results: seq<Result>, g: Grouping, places: seq<nat>) {
    && |places| == |results|
    && (forall h :: 0 <= h < |g.groups| ==> g.groups[h] == Members(results, places, h) && g.groups[h] != [])
    && (forall i :: 0 <= i < |results| ==> IndexedAt(results[i].url, g, places[i]))
    && (forall url :: url in g.byUrl ==> UrlKnown(results, url))
  }

  predicate IndexedAt(url: string, g: Grouping, h: nat) {
    h < |g.groups| && url in g.byUrl && g.byUrl[url] == h
  }

  lemma MembersNext(results: seq<Result>, places: seq<nat>, r: Result, at: nat, h: nat)
    requires |results| == |places|
    ensures Members(results + [r], places + [at], h) == Members(results, places, h) + if at == h then [r] else []
  {
    var rs, a := results + [r], places + [at];
    assert rs[..|rs| - 1] == results && a[..|rs| - 1] == places;
  }

  lemma {:induction false} NoMembers(results: seq<Result>, places: seq<nat>, h: nat)
    requires |results| == |places| && forall i :: 0 <= i < |places| ==> places[i] != h
    ensures Members(results, places, h) == []
  {
    if results != [] {
      NoMembers(results[..|results| - 1], places[..|results| - 1], h);
    }
  }

  lemma PlaceInRange(results: seq<Result>, g: Grouping, places: seq<nat>, r: Result,
                     similar: (string, string) -> bool)
    requires Grouped(results, g, places)
    ensures Place(g, r, similar) <= |g.groups|
    ensures r.url in g.byUrl ==> Place(g, r, similar) < |g.groups|
  {
    if r.url in g.byUrl {
      var i :| 0 <= i < |results| && results[i].url == r.url;
      assert IndexedAt(r.url, g, places[i]);
    }
  }

  lemma GroupsNext(results: seq<Result>, g: Grouping, places: seq<nat>, r: Result, at: nat, h: nat)
    requires Grouped(results, g, places) && at <= |g.groups| && h < |AddTo(g.groups, at, r)|
    ensures AddTo(g.groups, at, r)[h] == Members(results + [r], places + [at], h)
    ensures AddTo(g.groups, at, r)[h] != []
  {
    MembersNext(results, places, r, at, h);
    if h == |g.groups| {
      forall i | 0 <= i < |places| ensures places[i] != h {
        assert IndexedAt(results[i].url, g, places[i]);
      }
      NoMembers(results, places, h);
    }
  }

  lemma IndexNext(results: seq<Result>, g: Grouping, places: seq<nat>, r: Result, similar: (string, string) -> bool)
    requires Grouped(results, g, places)
    ensures var after, at := Add(g, r, similar), Place(g, r, similar);
            && IndexedAt(r.url, after, at)
            && (forall i :: 0 <= i < |results| ==> IndexedAt(results[i].url, after, places[i]))
            && (forall url :: url in after.byUrl ==> UrlKnown(results + [r], url))
  {
    hide Members;
    PlaceInRange(results, g, places, r, similar);
    forall i | 0 <= i < |results| ensures IndexedAt(results[i].url, Add(g, r, similar), places[i]) {
      assert IndexedAt(results[i].url, g, places[i]);
    }
    forall url | url in Add(g, r, similar).byUrl ensures UrlKnown(results + [r], url) {
      if url in g.byUrl {
        var i :| 0 <= i < |results| && results[i].url == url;
        assert (results + [r])[i].url == url;
      } else {
        assert (results + [r])[|results|].url == url;
      }
    }
  }

  lemma AddKeepsGrouped(results: seq<Result>, g: Grouping, places: seq<nat>, r: Result,
                        similar: (string, string) -> bool)
    requires Grouped(results, g, places)
    ensures Grouped(results + [r], Add(g, r, similar), places + [Place(g, r, similar)])
  {
    hide Members, IndexedAt, UrlKnown, Place, AddTo;
    var at := Place(g, r, similar);
    PlaceInRange(results, g, places, r, similar);
    forall h | 0 <= h < |AddTo(g.groups, at, r)|
      ensures AddTo(g.groups, at, r)[h] == Members(results + [r], places + [at], h)
      ensures AddTo(g.groups, at, r)[h] != []
    {
      GroupsNext(results, g, places, r, at, h);
    }
    IndexNext(results, g, places, r, similar);
  }

  /** The groups partition the input. */
  lemma {:induction false} GroupsPartition(results: seq<Result>, similar: (string, string) -> bool)
    ensures Grouped(results, GroupAll(results, similar), Assigned(results, similar))
  {
    if results != [] {
      var front, last := results[..|results| - 1], results[|results| - 1];
      GroupsPartition(front, similar);
      AddKeepsGrouped(front, GroupAll(front, similar), Assigned(front, similar), last, similar);
      assert results == front + [last];
    }
  }

  /** Equal canonical URLs share a group. */
  lemma EqualUrlsShareAGroup(results: seq<Result>, similar: (string, string) -> bool, i: nat, j: nat)
    requires i < |results| && j < |results| && results[i].url == results[j].url
    ensures Assigned(results, similar)[i] == Assigned(results, similar)[j]
  {
    GroupsPartition(results, similar);
    var g, places := GroupAll(results, similar), Assigned(results, similar);
    assert IndexedAt(results[i].url, g, places[i]) && IndexedAt(results[j].url, g, places[j]);
  }

  /** Groups only grow at their end, so heads never change. */
  lemma HeadsStay(g: Grouping, r: Result, similar: (string, string) -> bool, h: nat)
    requires h < |g.groups| && g.groups[h] != []
    ensures h < |Add(g, r, similar).groups| && Add(g, r, similar).groups[h] != []
    ensures Add(g, r, similar).groups[h][0] == g.groups[h][0]
  {
  }

  /** r heads group h or is near its head, and no earlier group's head is near. */
  ghost predicate FirstNearGroup(groups: seq<seq<Result>>, h: nat, r: Result, similar: (string, string) -> bool) {
    && h < |groups| && groups[h] != []
    && (groups[h][0] == r || (groups[h][0].domain == r.domain && similar(groups[h][0].title, r.title)))
    && forall m :: 0 <= m < h && groups[m] != [] ==>
         groups[m][0].domain != r.domain || !similar(groups[m][0].title, r.title)
  }

  lemma StaysFirstNear(results: seq<Result>, similar: (string, string) -> bool, last: Result, h: nat, r: Result)
    requires FirstNearGroup(GroupAll(results, similar).groups, h, r, similar)
    ensures FirstNearGroup(Add(GroupAll(results, similar), last, similar).groups, h, r, similar)
  {
    hide Add, GroupAll, Members;
    var g := GroupAll(results, similar);
    GroupsPartition(results, similar);
    HeadsStay(g, last, similar, h);
    forall m | 0 <= m < h ensures !NearHead(Add(g, last, similar).groups[m], r, similar) {
      HeadsStay(g, last, similar, m);
    }
  }

  lemma JoinsFirstNear(results: seq<Result>, similar: (string, string) -> bool, r: Result)
    requires !UrlKnown(results, r.url)
    ensures var g := GroupAll(results, similar);
            FirstNearGroup(Add(g, r, similar).groups, Place(g, r, similar), r, similar)
  {
    hide GroupAll, Members, UrlKnown;
    GroupsPartition(results, similar);
  }

  /** A URL met for the first time joins the first group whose head is near, and starts one only when none is. */
  lemma {:induction false} NewUrlsJoinTheFirstNearGroup(results: seq<Result>, similar: (string, string) -> bool, i: nat)
    requires i < |results| && !UrlKnown(results[..i], results[i].url)
    ensures FirstNearGroup(GroupAll(results, similar).groups, Assigned(results, similar)[i], results[i], similar)
  {
    hide FirstNearGroup, UrlKnown, Add, Place;
    var front, last := results[..|results| - 1], results[|results| - 1];
    if i == |front| {
      JoinsFirstNear(front, similar, last);
    } else {
      assert front[..i] == results[..i];
      NewUrlsJoinTheFirstNearGroup(front, similar, i);
      StaysFirstNear(front, similar, last, Assigned(front, similar)[i], results[i]);
    }
  }

  // ---- One fused result per group

  /** Longer content wins, then a primary source, then a better rank. */
  predicate Exceeds(a: Result, b: Result) {
    if |a.content| != |b.content| then |a.content| > |b.content|
    else if a.primary != b.primary then a.primary
    else a.rank < b.rank
  }

  /** The builtin `max`: the first result no other exceeds. */
  function Representative(group: seq<Result>): Result
    requires group != []
  {
    var last := group[|group| - 1];
    if |group| == 1 then last
    else
      var best := Representative(group[..|group| - 1]);
      if Exceeds(last, best) then last else best
  }

  /** No result exceeds the one at i, and it exceeds every earlier one. */
  ghost predicate FirstMaximal(group: seq<Result>, i: nat) {
    && i < |group|
    && (forall j :: 0 <= j < i ==> Exceeds(group[i], group[j]))
    && (forall j :: 0 <= j < |group| ==> !Exceeds(group[j], group[i]))
  }

  lemma ExceedsOrder(a: Result, b: Result, c: Result)
    ensures Exceeds(a, b) && !Exceeds(c, b) ==> Exceeds(a, c)
    ensures Exceeds(a, b) ==> !Exceeds(b, a)
  {
  }

  lemma MaximalNext(group: seq<Result>, i: nat)
    requires group != [] && FirstMaximal(group[..|group| - 1], i)
    ensures FirstMaximal(group, if Exceeds(group[|group| - 1], group[i]) then |group| - 1 else i)
  {
    hide Exceeds;
    var n := |group| - 1;
    var front := group[..n];
    forall j | 0 <= j < n
      ensures group[j] == front[j] && !Exceeds(group[j], group[i])
      ensures Exceeds(group[n], group[i]) ==> Exceeds(group[n], group[j]) && !Exceeds(group[j], group[n])
    {
      assert group[j] == front[j];
      ExceedsOrder(group[n], group[i], group[j]);
      ExceedsOrder(group[n], group[j], group[n]);
    }
    ExceedsOrder(group[n], group[n], group[n]);
  }

  lemma {:induction false} RepresentativeIsFirstMaximal(group: seq<Result>)
    requires group != []
    ensures exists i: nat :: FirstMaximal(group, i) && group[i] == Representative(group)
  {
    var n := |group| - 1;
    if n == 0 {
      assert FirstMaximal(group, 0);
    } else {
      var front := group[..n];
      RepresentativeIsFirstMaximal(front);
      var i: nat :| FirstMaximal(front, i) && front[i] == Representative(front);
      MaximalNext(group, i);
    }
  }

  lemma RepresentativeIsMember(group: seq<Result>)
    requires group != []
    ensures Representative(group) in group
  {
    RepresentativeIsFirstMaximal(group);
    var i: nat :| FirstMaximal(group, i) && group[i] == Representative(group);
  }

  /** Each provider's best rank in a group. */
  function RanksOf(group: seq<Result>): map<string, Rank> {
    if group == [] then map[]
    else
      var ranks, last := RanksOf(group[..|group| - 1]), group[|group| - 1];
      ranks[last.provider := if last.provider in ranks && ranks[last.provider] < last.rank then ranks[last.provider]
                             else last.rank]
  }

  /** The providers in order of first appearance. */
  function ProvidersOf(group: seq<Result>): seq<string> {
    if group == [] then []
    else
      var providers, last := ProvidersOf(group[..|group| - 1]), group[|group| - 1];
      if last.provider in providers then providers else providers + [last.provider]
  }

  ghost predicate Offers(group: seq<Result>, provider: string, rank: Rank) {
    exists i :: 0 <= i < |group| && group[i].provider == provider && group[i].rank == rank
  }

  lemma OffersNext(group: seq<Result>, provider: string, rank: Rank)
    requires group != []
    ensures Offers(group, provider, rank) <==>
            Offers(group[..|group| - 1], provider, rank) ||
            (group[|group| - 1].provider == provider && group[|group| - 1].rank == rank)
  {
    var front := group[..|group| - 1];
    if Offers(front, provider, rank) {
      var i :| 0 <= i < |front| && front[i].provider == provider && front[i].rank == rank;
      assert group[i].provider == provider;
    }
    if Offers(group, provider, rank) {
      var i :| 0 <= i < |group| && group[i].provider == provider && group[i].rank == rank;
      assert i < |front| ==> front[i] == group[i];
    }
  }

  /** A provider is ranked exactly when it offers something, at the least rank it offers. */
  lemma {:induction false} RanksAreMinima(group: seq<Result>, provider: string, rank: Rank)
    ensures provider in RanksOf(group) ==> Offers(group, provider, RanksOf(group)[provider])
    ensures Offers(group, provider, rank) ==> provider in RanksOf(group) && RanksOf(group)[provider] <= rank
  {
    hide Offers;
    if group == [] {
      NoOffers(provider, rank);
    } else {
      RanksAreMinima(group[..|group| - 1], provider, rank);
      OffersNext(group, provider, rank);
      if provider in RanksOf(group) {
        OffersNext(group, provider, RanksOf(group)[provider]);
      }
    }
  }

  lemma NoOffers(provider: string, rank: Rank)
    ensures !Offers([], provider, rank)
  {
  }

  lemma {:induction false} ProvidersAreRanked(group: seq<Result>)
    ensures forall p :: p in ProvidersOf(group) <==> p in RanksOf(group)
    ensures Distinct(ProvidersOf(group))
    ensures group != [] ==> ProvidersOf(group) != []
  {
    if group != [] {
      ProvidersAreRanked(group[..|group| - 1]);
    }
  }

  /** The reciprocal-rank sum over the providers. */
  function ReciprocalRanks(providers: seq<string>, ranks: map<string, Rank>, k: nat): real
    requires forall p :: p in providers ==> p in ranks
  {
    if providers == [] then 0.0
    else
      var last := providers[|providers| - 1];
      ReciprocalRanks(providers[..|providers| - 1], ranks, k) + 1.0 / ((k + ranks[last]) as real)
  }

  function LeastRank(group: seq<Result>): Rank
    requires group != []
  {
    var last := group[|group| - 1];
    if |group| == 1 then last.rank
    else
      var least := LeastRank(group[..|group| - 1]);
      if last.rank < least then last.rank else least
  }

  lemma {:induction false} LeastRankIsLeast(group: seq<Result>)
    requires group != []
    ensures exists i :: 0 <= i < |group| && group[i].rank == LeastRank(group)
    ensures forall i :: 0 <= i < |group| ==> LeastRank(group) <= group[i].rank
  {
    var n := |group| - 1;
    if n == 0 {
      assert group[0].rank == LeastRank(group);
    } else {
      var front := group[..n];
      LeastRankIsLeast(front);
      var i :| 0 <= i < |front| && front[i].rank == LeastRank(front);
      assert group[i].rank == LeastRank(front);
      assert group[n].rank == group[n].rank;
    }
  }

  /** What a representative adds to its group's score. */
  function Quality(best: Result, official: bool, recent: string -> real): real {
    (if best.primary then 0.03 else 0.0) + (if official && best.primary then 0.12 else 0.0) + recent(best.publishedAt)
  }

  function FuseGroup(group: seq<Result>, official: bool, recent: string -> real, k: nat): Fused
    requires group != []
  {
    ProvidersAreRanked(group);
    var best, providers, ranks := Representative(group), ProvidersOf(group), RanksOf(group);
    Fused(best, LeastRank(group), providers, ranks,
          ReciprocalRanks(providers, ranks, k) + Quality(best, official, recent))
  }

  // ---- The order of the answer

  predicate Precedes(a: Fused, b: Fused) {
    if a.score != b.score then a.score > b.score
    else if a.best.primary != b.best.primary then a.best.primary
    else if a.rank != b.rank then a.rank < b.rank
    else StringLe(a.best.url, b.best.url)
  }

  lemma PrecedesTransitive(a: Fused, b: Fused, c: Fused)
    requires Precedes(a, b) && Precedes(b, c)
    ensures Precedes(a, c)
  {
    if StringLe(a.best.url, b.best.url) && StringLe(b.best.url, c.best.url) {
      StringLeTransitive(a.best.url, b.best.url, c.best.url);
    }
  }

  lemma PrecedesIsOrder()
    ensures TotalPreorder(Precedes)
  {
    forall a: Fused, b: Fused ensures Precedes(a, b) || Precedes(b, a) {
      StringLeTotal(a.best.url, b.best.url);
    }
    forall a: Fused, b: Fused, c: Fused | Precedes(a, b) && Precedes(b, c) ensures Precedes(a, c) {
      PrecedesTransitive(a, b, c);
    }
  }

  lemma PrecedesAntisymmetric(a: Fused, b: Fused)
    requires Precedes(a, b) && Precedes(b, a)
    ensures a.best.url == b.best.url
  {
    StringLeTotal(a.best.url, b.best.url);
  }

  /** The groups of the input, one fused result each. */
  ghost predicate FusesGroups(fused: seq<Fused>, groups: seq<seq<Result>>, official: bool, recent: string -> real,
                              k: nat) {
    |fused| == |groups| &&
    forall h :: 0 <= h < |groups| ==> groups[h] != [] && fused[h] == FuseGroup(groups[h], official, recent, k)
  }

  lemma {:induction false} MemberOf(results: seq<Result>, places: seq<nat>, h: nat, r: Result)
    requires |results| == |places| && r in Members(results, places, h)
    ensures exists i :: 0 <= i < |results| && results[i] == r && places[i] == h
  {
    var n := |results| - 1;
    if r in Members(results[..n], places[..n], h) {
      MemberOf(results[..n], places[..n], h, r);
      var i :| 0 <= i < n && results[..n][i] == r && places[..n][i] == h;
      assert results[i] == r && places[i] == h;
    } else {
      assert results[n] == r && places[n] == h;
    }
  }

  /** No URL is in two groups. */
  lemma GroupsShareNoUrl(results: seq<Result>, similar: (string, string) -> bool, g: nat, h: nat, a: Result, b: Result)
    requires var groups := GroupAll(results, similar).groups;
             g < |groups| && h < |groups| && a in groups[g] && b in groups[h] && a.url == b.url
    ensures g == h
  {
    hide GroupAll, Assigned, Members;
    GroupsPartition(results, similar);
    var places := Assigned(results, similar);
    MemberOf(results, places, g, a);
    MemberOf(results, places, h, b);
    var i :| 0 <= i < |results| && results[i] == a && places[i] == g;
    var j :| 0 <= j < |results| && results[j] == b && places[j] == h;
    EqualUrlsShareAGroup(results, similar, i, j);
  }

  /** The fused results have pairwise distinct URLs. */
  lemma {:induction false} FusedUrlsDiffer(results: seq<Result>, similar: (string, string) -> bool, fused: seq<Fused>,
                                           official: bool, recent: string -> real, k: nat)
    requires FusesGroups(fused, GroupAll(results, similar).groups, official, recent, k)
    ensures DistinctKeys((f: Fused) => f.best.url, fused)
  {
    hide GroupAll, Representative, LeastRank, RanksOf, ProvidersOf, ReciprocalRanks, Quality;
    var groups := GroupAll(results, similar).groups;
    forall i, j | 0 <= i < j < |fused| ensures fused[i].best.url != fused[j].best.url {
      RepresentativeIsMember(groups[i]);
      RepresentativeIsMember(groups[j]);
      if fused[i].best.url == fused[j].best.url {
        GroupsShareNoUrl(results, similar, i, j, fused[i].best, fused[j].best);
      }
    }
  }

  lemma KeysForceOrder(fused: seq<Fused>)
    requires DistinctKeys((f: Fused) => f.best.url, fused)
    ensures NoTies(Precedes, multiset(fused))
  {
    forall x, y | x in multiset(fused) && y in multiset(fused) && Precedes(x, y) && Precedes(y, x) ensures x == y {
      PrecedesAntisymmetric(x, y);
      var i :| 0 <= i < |fused| && fused[i] == x;
      var j :| 0 <= j < |fused| && fused[j] == y;
      var key := (f: Fused) => f.best.url;
      assert key(fused[i]) == key(fused[j]);
    }
  }

  /** The answer: the groups' fused results in the one order there is, cut to the requested length. */
  ghost predicate IsMerge(answer: seq<Fused>, results: seq<Result>, similar: (string, string) -> bool,
                          official: bool, recent: string -> real, k: nat, maxResults: int) {
    exists fused, full ::
      && FusesGroups(fused, GroupAll(results, similar).groups, official, recent, k)
      && multiset(full) == multiset(fused) && SortedBy(Precedes, full)
      && answer == Prefix(full, maxResults)
  }

  /** There is only one answer. */
  lemma {:induction false} MergeIsUnique(a: seq<Fused>, b: seq<Fused>, results: seq<Result>,
                                         similar: (string, string) -> bool, official: bool, recent: string -> real,
                                         k: nat, maxResults: int)
    requires IsMerge(a, results, similar, official, recent, k, maxResults)
    requires IsMerge(b, results, similar, official, recent, k, maxResults)
    ensures a == b
    ensures var count := |GroupAll(results, similar).groups|;
            |a| == if maxResults >= 0 then Min(maxResults, count) else Max(0, count + maxResults)
  {
    hide GroupAll, FuseGroup, SortedBy, Precedes;
    var groups := GroupAll(results, similar).groups;
    var fa, xa :| FusesGroups(fa, groups, official, recent, k) && multiset(xa) == multiset(fa) &&
                  SortedBy(Precedes, xa) && a == Prefix(xa, maxResults);
    var fb, xb :| FusesGroups(fb, groups, official, recent, k) && multiset(xb) == multiset(fb) &&
                  SortedBy(Precedes, xb) && b == Prefix(xb, maxResults);
    assert fa == fb;
    FusedUrlsDiffer(results, similar, fa, official, recent, k);
    KeysForceOrder(fa);
    SortedUnique(Precedes, xa, xb);
    assert |xa| == |multiset(xa)| == |multiset(fa)| == |fa|;
  }

  // ---- The loops

  method FindGroup(groups: seq<seq<Result>>, r: Result, similar: (string, string) -> bool) returns (i: nat)
    ensures i == FirstNear(groups, r, similar)
  {
    i := 0;
    while i < |groups| && !NearHead(groups[i], r, similar)
      invariant i <= |groups|
      invariant forall j :: 0 <= j < i ==> !NearHead(groups[j], r, similar)
    {
      i := i + 1;
    }
  }

  /** Exact URL first, then the first near group, then a new one. */
  method GroupResults(results: seq<Result>, similar: (string, string) -> bool)
    returns (groups: seq<seq<Result>>, byUrl: map<string, nat>)
    ensures Grouping(groups, byUrl) == GroupAll(results, similar)
  {
    groups, byUrl := [], map[];
    assert results[..0] == [];
    for n := 0 to |results|
      invariant Grouping(groups, byUrl) == GroupAll(results[..n], similar)
    {
      var r := results[n];
      assert results[..n + 1][..n] == results[..n];
      GroupsPartition(results[..n], similar);
      PlaceInRange(results[..n], Grouping(groups, byUrl), Assigned(results[..n], similar), r, similar);
      if r.url in byUrl {
        var i := byUrl[r.url];
        groups := groups[i := groups[i] + [r]];
        continue;
      }
      var i := FindGroup(groups, r, similar);
      ghost var before := groups;
      if i == |groups| {
        groups := groups + [[]];
        assert groups[i] + [r] == [r];
      }
      groups := groups[i := groups[i] + [r]];
      assert forall h :: 0 <= h < |groups| ==> groups[h] == AddTo(before, i, r)[h];
      byUrl := byUrl[r.url := i];
    }
    assert results[..|results|] == results;
  }

  /** Each provider's best rank, with the providers in insertion order. */
  method RankProviders(group: seq<Result>) returns (ranks: map<string, Rank>, order: seq<string>)
    ensures ranks == RanksOf(group) && order == ProvidersOf(group)
  {
    ranks, order := map[], [];
    assert group[..0] == [];
    for n := 0 to |group|
      invariant ranks == RanksOf(group[..n]) && order == ProvidersOf(group[..n])
    {
      var item := group[n];
      assert group[..n + 1][..n] == group[..n];
      ProvidersAreRanked(group[..n]);
      if item.provider !in ranks {
        order := order + [item.provider];
      }
      var known := if item.provider in ranks then ranks[item.provider] else item.rank;
      ranks := ranks[item.provider := if item.rank < known then item.rank else known];
    }
    assert group[..|group|] == group;
  }

  method FuseAll(groups: seq<seq<Result>>, official: bool, recent: string -> real, k: nat) returns (fused: seq<Fused>)
    requires forall h :: 0 <= h < |groups| ==> groups[h] != []
    ensures FusesGroups(fused, groups, official, recent, k)
  {
    hide FuseGroup;
    fused := [];
    for h := 0 to |groups|
      invariant |fused| == h
      invariant forall i :: 0 <= i < h ==> fused[i] == FuseGroup(groups[i], official, recent, k)
    {
      var f := FuseOne(groups[h], official, recent, k);
      fused := fused + [f];
    }
  }

  method MergeResults(results: seq<Result>, similar: (string, string) -> bool, official: bool,
                      recent: string -> real, k: nat, maxResults: int)
    returns (answer: seq<Fused>, count: nat)
    ensures IsMerge(answer, results, similar, official, recent, k, maxResults)
    ensures count == |GroupAll(results, similar).groups|
  {
    hide GroupAll, Members, FusesGroups, SortedBy, TotalPreorder, Precedes;
    var groups, byUrl := GroupResults(results, similar);
    GroupsPartition(results, similar);
    var fused := FuseAll(groups, official, recent, k);
    PrecedesIsOrder();
    SortSorted(Precedes, fused);
    var full := Sort(Precedes, fused);
    answer, count := Prefix(full, maxResults), |groups|;
  }

  method Represent(group: seq<Result>) returns (best: Result)
    requires group != []
    ensures best == Representative(group)
  {
    best := group[0];
    assert group[..1] == [group[0]];
    for n := 1 to |group|
      invariant best == Representative(group[..n])
    {
      assert group[..n + 1][..n] == group[..n];
      if Exceeds(group[n], best) {
        best := group[n];
      }
    }
    assert group[..|group|] == group;
  }

  method Score(ranks: map<string, Rank>, order: seq<string>, k: nat) returns (score: real)
    requires forall p :: p in order ==> p in ranks
    ensures score == ReciprocalRanks(order, ranks, k)
  {
    score := 0.0;
    assert order[..0] == [];
    for n := 0 to |order|
      invariant score == ReciprocalRanks(order[..n], ranks, k)
    {
      assert order[..n + 1][..n] == order[..n];
      score := score + 1.0 / ((k + ranks[order[n]]) as real);
    }
    assert order[..|order|] == order;
  }

  method FuseOne(group: seq<Result>, official: bool, recent: string -> real, k: nat) returns (fused: Fused)
    requires group != []
    ensures fused == FuseGroup(group, official, recent, k)
  {
    hide RanksOf, ProvidersOf, Representative, LeastRank, ReciprocalRanks;
    var representative := Represent(group);
    var ranks, order := RankProviders(group);
    ProvidersAreRanked(group);
    var score := Score(ranks, order, k);
    var bonus := if representative.primary then 0.03 else 0.0;
    if official && representative.primary {
      bonus := bonus + 0.12;
    }
    bonus := bonus + recent(representative.publishedAt);
    var least := LeastOf(group, ranks, order);
    fused := Fused(representative, least, order, ranks, score + bonus);
  }

  lemma LeastAmongProviders(group: seq<Result>, least: Rank)
    requires group != []
    requires exists p :: p in RanksOf(group) && RanksOf(group)[p] == least
    requires forall p :: p in RanksOf(group) ==> least <= RanksOf(group)[p]
    ensures least == LeastRank(group)
  {
    LeastRankIsLeast(group);
    var p :| p in RanksOf(group) && RanksOf(group)[p] == least;
    RanksAreMinima(group, p, least);
    var j :| 0 <= j < |group| && group[j].provider == p && group[j].rank == least;
    var i :| 0 <= i < |group| && group[i].rank == LeastRank(group);
    assert Offers(group, group[i].provider, group[i].rank);
    RanksAreMinima(group, group[i].provider, group[i].rank);
  }

  /** The least of the providers' ranks. */
  method LeastOf(group: seq<Result>, ranks: map<string, Rank>, order: seq<string>) returns (least: Rank)
    requires group != [] && ranks == RanksOf(group) && order == ProvidersOf(group)
    ensures least == LeastRank(group)
  {
    ProvidersAreRanked(group);
    least := ranks[order[0]];
    for n := 1 to |order|
      invariant exists p :: p in ranks && ranks[p] == least
      invariant forall m :: 0 <= m < n ==> least <= ranks[order[m]]
    {
      if ranks[order[n]] < least {
        least := ranks[order[n]];
      }
    }
    forall p | p in ranks ensures least <= ranks[p] {
      var m :| 0 <= m < |order| && order[m] == p;
    }
    LeastAmongProviders(group, least);
  }
}
