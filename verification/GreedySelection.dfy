/** Choosing research sources: best candidate per URL, then greedily, at most two per domain. */
module GreedySelection {
  import opened Ordering

  const MAX_DEEP_SOURCES := 6
  const PER_DOMAIN := 2

  datatype Mode = FAST | DEEP

  /** An enriched candidate: its normalized URL, its domain, its priority and the rest of the record. */
  datatype Candidate = Candidate(url: string, domain: string, priority: real, title: string)

  function Limit(mode: Mode): nat { if mode.FAST? then 5 else MAX_DEEP_SOURCES }

  // ---- The best candidate of each URL, in order of first appearance

  function IndexOf(best: seq<Candidate>, url: string): (i: nat)
    ensures i <= |best|
    ensures i < |best| ==> best[i].url == url
    ensures forall j :: 0 <= j < i ==> best[j].url != url
  {
    if best == [] then 0 else if best[0].url == url then 0 else 1 + IndexOf(best[1..], url)
  }

  function Keep(best: seq<Candidate>, c: Candidate): seq<Candidate> {
    var i := IndexOf(best, c.url);
    if c.url == "" then best
    else if i == |best| then best + [c]
    else if c.priority > best[i].priority then best[i := c]
    else best
  }

  function BestByUrl(candidates: seq<Candidate>): seq<Candidate> {
    if candidates == [] then []
    else Keep(BestByUrl(candidates[..|candidates| - 1]), candidates[|candidates| - 1])
  }

  predicate DistinctUrls(s: seq<Candidate>) {
    forall i, j :: 0 <= i < j < |s| ==> s[i].url != s[j].url
  }

  /** Some kept candidate has this one's URL and at least its priority. */
  ghost predicate Represented(best: seq<Candidate>, c: Candidate) {
    exists i :: 0 <= i < |best| && best[i].url == c.url && best[i].priority >= c.priority
  }

  lemma KeepRepresents(best: seq<Candidate>, last: Candidate, c: Candidate)
    requires c.url != "" && (c == last || Represented(best, c))
    ensures Represented(Keep(best, last), c)
  {
    var at, after := IndexOf(best, last.url), Keep(best, last);
    if c == last {
      assert after[at].url == c.url;
    } else {
      var i :| 0 <= i < |best| && best[i].url == c.url && best[i].priority >= c.priority;
      assert after[i].url == c.url;
    }
  }

  lemma KeepOnce(best: seq<Candidate>, last: Candidate)
    requires DistinctUrls(best)
    ensures DistinctUrls(Keep(best, last))
  {
  }

  lemma KeepMembers(best: seq<Candidate>, last: Candidate, c: Candidate)
    requires c in Keep(best, last)
    ensures c in best || (c == last && c.url != "")
  {
  }

  /** One kept candidate per URL, each from the input, none beaten by another with its URL. */
  lemma {:induction false} BestIsBest(candidates: seq<Candidate>)
    ensures DistinctUrls(BestByUrl(candidates))
    ensures forall c :: c in BestByUrl(candidates) ==> c in candidates && c.url != ""
    ensures forall c :: c in candidates && c.url != "" ==> Represented(BestByUrl(candidates), c)
  {
    hide DistinctUrls, Keep, Represented;
    if candidates == [] {
      NoneKept();
    } else {
      var front, last := candidates[..|candidates| - 1], candidates[|candidates| - 1];
      BestIsBest(front);
      KeepOnce(BestByUrl(front), last);
      forall c | c in BestByUrl(candidates) ensures c in candidates && c.url != "" {
        KeepMembers(BestByUrl(front), last, c);
      }
      forall c | c in candidates && c.url != "" ensures Represented(BestByUrl(candidates), c) {
        assert c == last || c in front;
        KeepRepresents(BestByUrl(front), last, c);
      }
    }
  }

  lemma NoneKept()
    ensures DistinctUrls([])
  {
  }

  /** c is the first candidate of its URL to reach the highest priority that URL reaches. */
  ghost predicate FirstBest(candidates: seq<Candidate>, c: Candidate) {
    exists i :: 0 <= i < |candidates| && candidates[i] == c && BeatsEarlier(candidates, i) && BeatenByNone(candidates, i)
  }

  ghost predicate BeatsEarlier(candidates: seq<Candidate>, i: nat)
    requires i < |candidates|
  {
    forall j :: 0 <= j < i && candidates[j].url == candidates[i].url ==> candidates[j].priority < candidates[i].priority
  }

  ghost predicate BeatenByNone(candidates: seq<Candidate>, i: nat)
    requires i < |candidates|
  {
    forall j :: 0 <= j < |candidates| && candidates[j].url == candidates[i].url ==>
                  candidates[j].priority <= candidates[i].priority
  }

  lemma FirstBestStays(candidates: seq<Candidate>, c: Candidate)
    requires candidates != [] && FirstBest(candidates[..|candidates| - 1], c)
    requires var last := candidates[|candidates| - 1]; last.url == c.url ==> last.priority <= c.priority
    ensures FirstBest(candidates, c)
  {
    var front := candidates[..|candidates| - 1];
    var i :| 0 <= i < |front| && front[i] == c && BeatsEarlier(front, i) && BeatenByNone(front, i);
    assert candidates[i] == c;
    forall j | 0 <= j < |front| ensures front[j] == candidates[j] {
    }
    assert BeatsEarlier(candidates, i);
  }

  lemma LastIsFirstBest(candidates: seq<Candidate>)
    requires candidates != []
    requires forall j :: 0 <= j < |candidates| - 1 && candidates[j].url == candidates[|candidates| - 1].url ==>
               candidates[j].priority < candidates[|candidates| - 1].priority
    ensures FirstBest(candidates, candidates[|candidates| - 1])
  {
    assert BeatsEarlier(candidates, |candidates| - 1);
  }

  /** Ties go to the candidate met first. */
  lemma {:induction false} KeepsTheFirstBest(candidates: seq<Candidate>, c: Candidate)
    requires c in BestByUrl(candidates)
    ensures FirstBest(candidates, c)
  {
    hide FirstBest;
    var front, last := candidates[..|candidates| - 1], candidates[|candidates| - 1];
    var best := BestByUrl(front);
    BestIsBest(front);
    if c in best && !(c.url == last.url && last.priority > c.priority) {
      KeepsTheFirstBest(front, c);
      FirstBestStays(candidates, c);
    } else {
      OnlyLastIsNew(best, last, c);
      LastBeats(front, best, last);
      LastIsFirstBest(candidates);
    }
  }

  lemma OnlyLastIsNew(best: seq<Candidate>, last: Candidate, c: Candidate)
    requires DistinctUrls(best) && c in Keep(best, last) && forall x :: x in best ==> x.url != ""
    requires c !in best || (c.url == last.url && last.priority > c.priority)
    ensures c == last && last.url != "" && forall x :: x in best && x.url == last.url ==> x.priority < last.priority
  {
    var at := IndexOf(best, last.url);
    forall x | x in best && x.url == last.url ensures at < |best| && x == best[at] {
      var i :| 0 <= i < |best| && best[i] == x;
    }
    var i :| 0 <= i < |Keep(best, last)| && Keep(best, last)[i] == c;
  }

  lemma LastBeats(front: seq<Candidate>, best: seq<Candidate>, last: Candidate)
    requires last.url != "" && forall x :: x in best && x.url == last.url ==> x.priority < last.priority
    requires forall c :: c in front && c.url != "" ==> Represented(best, c)
    ensures forall c :: c in front && c.url == last.url ==> c.priority < last.priority
  {
    forall c | c in front && c.url == last.url ensures c.priority < last.priority {
      assert Represented(best, c);
      var i :| 0 <= i < |best| && best[i].url == c.url && best[i].priority >= c.priority;
      assert best[i] in best;
    }
  }

  // ---- Greedy choice under the caps

  predicate ByPriority(a: Candidate, b: Candidate) { a.priority >= b.priority }

  function DomainCount(s: seq<Candidate>, domain: string): nat {
    if s == [] then 0
    else DomainCount(s[..|s| - 1], domain) + if s[|s| - 1].domain == domain then 1 else 0
  }

  function Pick(ordered: seq<Candidate>, limit: nat): seq<Candidate> {
    if ordered == [] then []
    else
      var front, last := Pick(ordered[..|ordered| - 1], limit), ordered[|ordered| - 1];
      if |front| >= limit || DomainCount(front, last.domain) >= PER_DOMAIN then front else front + [last]
  }

  function Ordered(candidates: seq<Candidate>): seq<Candidate> {
    Sort(ByPriority, BestByUrl(candidates))
  }

  function Selected(candidates: seq<Candidate>, limit: nat): seq<Candidate> {
    Pick(Ordered(candidates), limit)
  }

  /** A selection the caps allow: known URLs, none twice, at most two per domain, at most the limit. */
  ghost predicate Feasible(selection: seq<Candidate>, candidates: seq<Candidate>, limit: nat) {
    && (forall c :: c in selection ==> c in candidates && c.url != "")
    && DistinctUrls(selection)
    && (forall domain :: DomainCount(selection, domain) <= PER_DOMAIN)
    && |selection| <= limit
  }

  /** The domain is read off the URL, so one URL has one domain. */
  ghost predicate DomainFollowsUrl(candidates: seq<Candidate>, domainOf: string -> string) {
    forall c :: c in candidates ==> c.domain == domainOf(c.url)
  }

  // ---- Order of the input to the greedy pass

  lemma ByPriorityIsOrder()
    ensures TotalPreorder(ByPriority)
  {
  }

  lemma UrlsStayDistinct(s: seq<Candidate>, t: seq<Candidate>)
    requires multiset(s) == multiset(t) && DistinctUrls(s)
    ensures DistinctUrls(t)
  {
    KeysStayDistinct((c: Candidate) => c.url, s, t);
  }

  lemma OrderedFacts(candidates: seq<Candidate>)
    ensures SortedBy(ByPriority, Ordered(candidates)) && DistinctUrls(Ordered(candidates))
    ensures forall c :: c in Ordered(candidates) ==> c in candidates && c.url != ""
    ensures forall c :: c in candidates && c.url != "" ==> Represented(Ordered(candidates), c)
  {
    hide SortedBy, DistinctUrls, BestByUrl, Sort, TotalPreorder, ByPriority, Represented;
    var best := BestByUrl(candidates);
    ByPriorityIsOrder();
    SortSorted(ByPriority, best);
    SortMembers(ByPriority, best);
    BestIsBest(candidates);
    UrlsStayDistinct(best, Ordered(candidates));
    forall c | c in candidates && c.url != "" ensures Represented(Ordered(candidates), c) {
      StillRepresented(best, Ordered(candidates), c);
    }
  }

  lemma StillRepresented(s: seq<Candidate>, t: seq<Candidate>, c: Candidate)
    requires Represented(s, c) && forall x :: x in t <==> x in s
    ensures Represented(t, c)
  {
    var i :| 0 <= i < |s| && s[i].url == c.url && s[i].priority >= c.priority;
    assert s[i] in t;
    var j :| 0 <= j < |t| && t[j] == s[i];
  }

  // ---- What the greedy pass keeps

  lemma {:induction false} PickedWasOffered(ordered: seq<Candidate>, limit: nat, c: Candidate)
    requires c in Pick(ordered, limit)
    ensures c in ordered
  {
    var front, last := ordered[..|ordered| - 1], ordered[|ordered| - 1];
    if c in Pick(front, limit) {
      PickedWasOffered(front, limit, c);
    }
    assert c == last || c in front;
  }

  lemma LastIsLast(ordered: seq<Candidate>, c: Candidate)
    requires SortedBy(ByPriority, ordered) && DistinctUrls(ordered) && ordered != [] && c in ordered[..|ordered| - 1]
    ensures c.url != ordered[|ordered| - 1].url && ByPriority(c, ordered[|ordered| - 1])
  {
    var j :| 0 <= j < |ordered| - 1 && ordered[j] == c;
  }

  lemma AppendInOrder(s: seq<Candidate>, c: Candidate)
    requires SortedBy(ByPriority, s) && DistinctUrls(s)
    requires forall x :: x in s ==> x.url != c.url && ByPriority(x, c)
    ensures SortedBy(ByPriority, s + [c]) && DistinctUrls(s + [c])
  {
  }

  lemma PrefixInOrder(s: seq<Candidate>, n: nat)
    requires n <= |s| && SortedBy(ByPriority, s) && DistinctUrls(s)
    ensures SortedBy(ByPriority, s[..n]) && DistinctUrls(s[..n])
  {
  }

  /** The choice keeps the order of what was offered. */
  lemma {:induction false} PickKeepsOrder(ordered: seq<Candidate>, limit: nat)
    requires SortedBy(ByPriority, ordered) && DistinctUrls(ordered)
    ensures SortedBy(ByPriority, Pick(ordered, limit)) && DistinctUrls(Pick(ordered, limit))
  {
    hide SortedBy, DistinctUrls;
    if ordered == [] {
      PrefixInOrder(ordered, 0);
    } else {
      var front, last := ordered[..|ordered| - 1], ordered[|ordered| - 1];
      PrefixInOrder(ordered, |ordered| - 1);
      PickKeepsOrder(front, limit);
      forall x | x in Pick(front, limit) ensures x.url != last.url && ByPriority(x, last) {
        PickedWasOffered(front, limit, x);
        LastIsLast(ordered, x);
      }
      AppendInOrder(Pick(front, limit), last);
    }
  }

  lemma {:induction false} PickObeysCaps(ordered: seq<Candidate>, limit: nat, domain: string)
    ensures |Pick(ordered, limit)| <= limit && DomainCount(Pick(ordered, limit), domain) <= PER_DOMAIN
  {
    if ordered != [] {
      PickObeysCaps(ordered[..|ordered| - 1], limit, domain);
    }
  }

  /** Below the limit, whatever was passed over belongs to a full domain. */
  lemma {:induction false} PassedOverOnlyWhenFull(ordered: seq<Candidate>, limit: nat, c: Candidate)
    requires c in ordered && |Pick(ordered, limit)| < limit
    ensures c in Pick(ordered, limit) || DomainCount(Pick(ordered, limit), c.domain) >= PER_DOMAIN
  {
    var front, last := ordered[..|ordered| - 1], ordered[|ordered| - 1];
    if c in front {
      PassedOverOnlyWhenFull(front, limit, c);
    }
    assert c == last || c in front;
  }

  /** Choosing from a longer list only adds at the end. */
  lemma {:induction false} PickGrows(ordered: seq<Candidate>, n: nat, limit: nat)
    requires n <= |ordered|
    ensures Pick(ordered[..n], limit) <= Pick(ordered, limit)
    ensures |Pick(ordered[..n], limit)| >= limit ==> Pick(ordered, limit) == Pick(ordered[..n], limit)
  {
    if n == |ordered| {
      assert ordered[..n] == ordered;
    } else {
      PickGrows(ordered[..|ordered| - 1], n, limit);
      assert ordered[..|ordered| - 1][..n] == ordered[..n];
    }
  }

  // ---- Counting by domain

  function Urls(s: seq<Candidate>): set<string> { set i | 0 <= i < |s| :: s[i].url }

  function InDomain(urls: set<string>, domainOf: string -> string, domain: string): set<string> {
    set u | u in urls && domainOf(u) == domain
  }

  lemma {:induction false} UrlsCount(s: seq<Candidate>)
    requires DistinctUrls(s)
    ensures |Urls(s)| == |s|
  {
    if s != [] {
      var front, last := s[..|s| - 1], s[|s| - 1];
      UrlsCount(front);
      UrlsGrow(s);
      assert last.url !in Urls(front);
    }
  }

  lemma UrlsGrow(s: seq<Candidate>)
    requires s != []
    ensures Urls(s) == Urls(s[..|s| - 1]) + {s[|s| - 1].url}
  {
    var front, last := s[..|s| - 1], s[|s| - 1];
    forall u ensures u in Urls(s) <==> u in Urls(front) + {last.url} {
      if u in Urls(s) {
        var i :| 0 <= i < |s| && s[i].url == u;
        assert i < |front| ==> front[i].url == u;
      }
      if u in Urls(front) {
        var i :| 0 <= i < |front| && front[i].url == u;
        assert s[i].url == u;
      }
      assert s[|s| - 1].url == last.url;
    }
  }

  lemma UrlIsNew(s: seq<Candidate>)
    requires DistinctUrls(s) && s != []
    ensures s[|s| - 1].url !in Urls(s[..|s| - 1])
  {
  }

  lemma InDomainGrows(urls: set<string>, u: string, domainOf: string -> string, domain: string)
    requires u !in urls
    ensures |InDomain(urls + {u}, domainOf, domain)| ==
            |InDomain(urls, domainOf, domain)| + if domainOf(u) == domain then 1 else 0
  {
    if domainOf(u) == domain {
      assert InDomain(urls + {u}, domainOf, domain) == InDomain(urls, domainOf, domain) + {u};
    } else {
      assert InDomain(urls + {u}, domainOf, domain) == InDomain(urls, domainOf, domain);
    }
  }

  lemma {:induction false} DomainCountsUrls(s: seq<Candidate>, domainOf: string -> string, domain: string)
    requires DistinctUrls(s) && DomainFollowsUrl(s, domainOf)
    ensures DomainCount(s, domain) == |InDomain(Urls(s), domainOf, domain)|
  {
    hide Urls;
    if s == [] {
      NoUrls(domainOf, domain);
    } else {
      var front, last := s[..|s| - 1], s[|s| - 1];
      DomainCountsUrls(front, domainOf, domain);
      UrlsGrow(s);
      UrlIsNew(s);
      InDomainGrows(Urls(front), last.url, domainOf, domain);
    }
  }

  lemma NoUrls(domainOf: string -> string, domain: string)
    ensures InDomain(Urls([]), domainOf, domain) == {}
  {
  }

  lemma SubsetIsSmaller(a: set<string>, b: set<string>)
    requires a <= b
    ensures |a| <= |b|
  {
    assert b == a + (b - a);
  }

  /** No more in any domain means no more in all. */
  lemma {:induction false} DomainByDomain(a: set<string>, b: set<string>, domainOf: string -> string)
    requires forall domain :: |InDomain(a, domainOf, domain)| <= |InDomain(b, domainOf, domain)|
    ensures |a| <= |b|
    decreases |a|
  {
    if a != {} {
      var u :| u in a;
      var domain := domainOf(u);
      var ad, bd := InDomain(a, domainOf, domain), InDomain(b, domainOf, domain);
      assert u in ad;
      assert |a| == |ad| + |a - ad| by { assert a == ad + (a - ad); }
      assert |b| == |bd| + |b - bd| by { assert b == bd + (b - bd); }
      forall other ensures |InDomain(a - ad, domainOf, other)| <= |InDomain(b - bd, domainOf, other)| {
        if other == domain {
          assert InDomain(a - ad, domainOf, other) == {};
        } else {
          assert InDomain(a - ad, domainOf, other) == InDomain(a, domainOf, other);
          assert InDomain(b - bd, domainOf, other) == InDomain(b, domainOf, other);
        }
      }
      DomainByDomain(a - ad, b - bd, domainOf);
    }
  }

  // ---- Optimality

  /** No selection within the per-domain cap takes more from an offered prefix than the greedy pass does. */
  lemma PickIsLargest(offered: seq<Candidate>, selection: seq<Candidate>, limit: nat, domainOf: string -> string)
    requires DistinctUrls(offered) && SortedBy(ByPriority, offered) && DomainFollowsUrl(offered, domainOf)
    requires DistinctUrls(selection) && DomainFollowsUrl(selection, domainOf) && Urls(selection) <= Urls(offered)
    requires forall domain :: DomainCount(selection, domain) <= PER_DOMAIN
    requires |selection| <= limit
    ensures |Pick(offered, limit)| >= |selection|
  {
    var chosen := Pick(offered, limit);
    if |chosen| < limit {
      PickKeepsOrder(offered, limit);
      forall domain
        ensures |InDomain(Urls(selection), domainOf, domain)| <= |InDomain(Urls(chosen), domainOf, domain)|
      {
        ChosenFillsDomain(offered, selection, limit, domainOf, domain);
      }
      DomainByDomain(Urls(selection), Urls(chosen), domainOf);
      UrlsCount(selection);
      UrlsCount(chosen);
    }
  }

  lemma ChosenFillsDomain(offered: seq<Candidate>, selection: seq<Candidate>, limit: nat,
                          domainOf: string -> string, domain: string)
    requires DistinctUrls(offered) && SortedBy(ByPriority, offered) && DomainFollowsUrl(offered, domainOf)
    requires DistinctUrls(selection) && DomainFollowsUrl(selection, domainOf) && Urls(selection) <= Urls(offered)
    requires DomainCount(selection, domain) <= PER_DOMAIN && |Pick(offered, limit)| < limit
    ensures |InDomain(Urls(selection), domainOf, domain)| <= |InDomain(Urls(Pick(offered, limit)), domainOf, domain)|
  {
    var chosen := Pick(offered, limit);
    PickKeepsOrder(offered, limit);
    forall c | c in chosen ensures c in offered {
      PickedWasOffered(offered, limit, c);
    }
    DomainCountsUrls(selection, domainOf, domain);
    DomainCountsUrls(chosen, domainOf, domain);
    if DomainCount(chosen, domain) < PER_DOMAIN {
      forall u | u in InDomain(Urls(selection), domainOf, domain)
        ensures u in InDomain(Urls(chosen), domainOf, domain)
      {
        var i :| 0 <= i < |offered| && offered[i].url == u;
        PassedOverOnlyWhenFull(offered, limit, offered[i]);
        var j :| 0 <= j < |chosen| && chosen[j] == offered[i];
        assert chosen[j].url == u;
      }
      SubsetIsSmaller(InDomain(Urls(selection), domainOf, domain), InDomain(Urls(chosen), domainOf, domain));
    }
  }

  /** How many leading candidates reach a priority. */
  function Above(ordered: seq<Candidate>, p: real): (n: nat)
    ensures n <= |ordered|
    ensures forall i :: 0 <= i < n ==> ordered[i].priority >= p
    ensures n < |ordered| ==> ordered[n].priority < p
  {
    if ordered == [] || ordered[0].priority < p then 0 else 1 + Above(ordered[1..], p)
  }

  lemma {:induction false} FirstOnesCount(s: seq<Candidate>, n: nat, domain: string)
    requires n <= |s|
    ensures DomainCount(s[..n], domain) <= DomainCount(s, domain)
  {
    if n == |s| {
      assert s[..n] == s;
    } else {
      FirstOnesCount(s[..|s| - 1], n, domain);
      assert s[..|s| - 1][..n] == s[..n];
    }
  }

  /** What is selected satisfies the caps. */
  lemma SelectionIsFeasible(candidates: seq<Candidate>, limit: nat)
    ensures Feasible(Selected(candidates, limit), candidates, limit)
  {
    hide Ordered, DistinctUrls, SortedBy, Represented;
    OrderedFacts(candidates);
    PickKeepsOrder(Ordered(candidates), limit);
    forall c | c in Selected(candidates, limit) ensures c in Ordered(candidates) {
      PickedWasOffered(Ordered(candidates), limit, c);
    }
    forall domain ensures DomainCount(Selected(candidates, limit), domain) <= PER_DOMAIN {
      PickObeysCaps(Ordered(candidates), limit, domain);
    }
    PickObeysCaps(Ordered(candidates), limit, "");
  }

  lemma {:induction false} ThreeOfADomain(s: seq<Candidate>, i: nat, j: nat, k: nat, domain: string)
    requires i < j < k < |s| && s[i].domain == s[j].domain == s[k].domain == domain
    ensures DomainCount(s, domain) >= 3
  {
    var front := s[..|s| - 1];
    if k < |front| {
      ThreeOfADomain(front, i, j, k, domain);
    } else {
      TwoOfADomain(front, i, j, domain);
    }
  }

  lemma {:induction false} TwoOfADomain(s: seq<Candidate>, i: nat, j: nat, domain: string)
    requires i < j < |s| && s[i].domain == s[j].domain == domain
    ensures DomainCount(s, domain) >= 2
  {
    var front := s[..|s| - 1];
    if j < |front| {
      TwoOfADomain(front, i, j, domain);
    } else {
      OneOfADomain(front, i, domain);
    }
  }

  lemma {:induction false} OneOfADomain(s: seq<Candidate>, i: nat, domain: string)
    requires i < |s| && s[i].domain == domain
    ensures DomainCount(s, domain) >= 1
  {
    if i < |s| - 1 {
      OneOfADomain(s[..|s| - 1], i, domain);
    }
  }

  /** At most five sources in the fast mode and six in the deep one, no three of them from one domain. */
  lemma SelectionSizes(candidates: seq<Candidate>, mode: Mode)
    ensures var selected := Selected(candidates, Limit(mode));
            && |selected| <= (match mode case FAST => 5 case DEEP => 6)
            && forall i, j, k :: 0 <= i < j < k < |selected| ==>
                 !(selected[i].domain == selected[j].domain == selected[k].domain)
  {
    hide Selected;
    var selected := Selected(candidates, Limit(mode));
    SelectionIsFeasible(candidates, Limit(mode));
    forall i, j, k | 0 <= i < j < k < |selected|
      ensures !(selected[i].domain == selected[j].domain == selected[k].domain)
    {
      if selected[i].domain == selected[j].domain == selected[k].domain {
        ThreeOfADomain(selected, i, j, k, selected[i].domain);
      }
    }
  }

  /** The i-th best of any allowed selection has its URL among the offered candidates of its priority. */
  lemma FirstOnesOffered(candidates: seq<Candidate>, selection: seq<Candidate>, limit: nat, i: nat)
    requires Feasible(selection, candidates, limit) && SortedBy(ByPriority, selection) && i < |selection|
    ensures var ordered := Ordered(candidates);
            Urls(selection[..i + 1]) <= Urls(ordered[..Above(ordered, selection[i].priority)])
  {
    hide Ordered, SortedBy, Represented, DistinctUrls;
    OrderedFacts(candidates);
    var ordered, p := Ordered(candidates), selection[i].priority;
    forall u | u in Urls(selection[..i + 1]) ensures u in Urls(ordered[..Above(ordered, p)]) {
      var j :| 0 <= j < i + 1 && selection[j].url == u;
      assert selection[j] in selection;
      InOrderAt(selection, j, i);
      RepresentedAbove(ordered, selection[j], p);
    }
  }

  lemma InOrderAt(s: seq<Candidate>, i: nat, j: nat)
    requires SortedBy(ByPriority, s) && i <= j < |s|
    ensures s[i].priority >= s[j].priority
  {
    assert i < j ==> ByPriority(s[i], s[j]);
  }

  lemma RepresentedAbove(ordered: seq<Candidate>, c: Candidate, p: real)
    requires SortedBy(ByPriority, ordered) && Represented(ordered, c) && c.priority >= p
    ensures c.url in Urls(ordered[..Above(ordered, p)])
  {
    hide SortedBy;
    var n := Above(ordered, p);
    var m :| 0 <= m < |ordered| && ordered[m].url == c.url && ordered[m].priority >= c.priority;
    if n <= m {
      InOrderAt(ordered, n, m);
    }
    assert ordered[..n][m].url == c.url;
  }

  /** Every allowed selection is matched: the greedy one is at least as long, and as good in every place. */
  lemma {:induction false} GreedyIsOptimal(candidates: seq<Candidate>, selection: seq<Candidate>, limit: nat,
                                           domainOf: string -> string)
    requires DomainFollowsUrl(candidates, domainOf)
    requires Feasible(selection, candidates, limit) && SortedBy(ByPriority, selection)
    ensures |Selected(candidates, limit)| >= |selection|
    ensures forall i :: 0 <= i < |selection| ==> Selected(candidates, limit)[i].priority >= selection[i].priority
  {
    forall i | 0 <= i < |selection|
      ensures i < |Selected(candidates, limit)| && Selected(candidates, limit)[i].priority >= selection[i].priority
    {
      PlaceIsMatched(candidates, selection, limit, domainOf, i);
    }
    if selection != [] {
      PlaceIsMatched(candidates, selection, limit, domainOf, |selection| - 1);
    }
  }

  /** The candidates of at least some priority. */
  function Offered(candidates: seq<Candidate>, p: real): seq<Candidate> {
    Ordered(candidates)[..Above(Ordered(candidates), p)]
  }

  lemma OfferedFacts(candidates: seq<Candidate>, p: real, domainOf: string -> string)
    requires DomainFollowsUrl(candidates, domainOf)
    ensures var offered := Offered(candidates, p);
            && DistinctUrls(offered) && SortedBy(ByPriority, offered) && DomainFollowsUrl(offered, domainOf)
            && forall c :: c in offered ==> c.priority >= p
  {
    hide Ordered, Represented;
    OrderedFacts(candidates);
  }

  /** The selection's first ones obey the caps as well. */
  lemma FirstOnesFeasible(candidates: seq<Candidate>, selection: seq<Candidate>, limit: nat, n: nat,
                          domainOf: string -> string)
    requires DomainFollowsUrl(candidates, domainOf) && Feasible(selection, candidates, limit) && n <= |selection|
    ensures var first := selection[..n];
            && DistinctUrls(first) && DomainFollowsUrl(first, domainOf) && |first| <= limit
            && forall domain :: DomainCount(first, domain) <= PER_DOMAIN
  {
    hide DomainCount;
    forall domain ensures DomainCount(selection[..n], domain) <= PER_DOMAIN {
      FirstOnesCount(selection, n, domain);
    }
  }

  lemma {:induction false} PlaceIsMatched(candidates: seq<Candidate>, selection: seq<Candidate>, limit: nat,
                                          domainOf: string -> string, i: nat)
    requires DomainFollowsUrl(candidates, domainOf)
    requires Feasible(selection, candidates, limit) && SortedBy(ByPriority, selection) && i < |selection|
    ensures i < |Selected(candidates, limit)| && Selected(candidates, limit)[i].priority >= selection[i].priority
  {
    var offered, first := Offered(candidates, selection[i].priority), selection[..i + 1];
    FirstOnesOffered(candidates, selection, limit, i);
    PickGrows(Ordered(candidates), Above(Ordered(candidates), selection[i].priority), limit);
    hide Pick, Offered, Ordered, DistinctUrls, SortedBy, DomainFollowsUrl, DomainCount, Urls;
    OfferedFacts(candidates, selection[i].priority, domainOf);
    FirstOnesFeasible(candidates, selection, limit, i + 1, domainOf);
    hide Feasible;
    PickIsLargest(offered, first, limit, domainOf);
    PickedWasOffered(offered, limit, Pick(offered, limit)[i]);
  }

  // ---- The loops

  /** A dictionary in insertion order holds a list of candidates under their URLs. */
  ghost predicate Holds(order: seq<string>, best: map<string, Candidate>, values: seq<Candidate>) {
    && |order| == |values|
    && (forall url :: url in best <==> url in order)
    && (forall i :: 0 <= i < |order| ==> order[i] == values[i].url && order[i] in best && best[order[i]] == values[i])
  }

  lemma KeepNew(order: seq<string>, best: map<string, Candidate>, values: seq<Candidate>, c: Candidate)
    requires Holds(order, best, values) && c.url != "" && c.url !in best
    ensures Holds(order + [c.url], best[c.url := c], Keep(values, c))
  {
    forall j | 0 <= j < |order| ensures values[j].url != c.url {
      assert order[j] in order;
    }
  }

  lemma KeepKnown(order: seq<string>, best: map<string, Candidate>, values: seq<Candidate>, c: Candidate)
    requires Holds(order, best, values) && DistinctUrls(values) && c.url != "" && c.url in best
    ensures Holds(order, if c.priority > best[c.url].priority then best[c.url := c] else best, Keep(values, c))
  {
    var i :| 0 <= i < |order| && order[i] == c.url;
    var n := IndexOf(values, c.url);
    assert values[i].url == c.url;
    assert n == i;
  }

  /** The dictionary of best candidates, as its keys in insertion order and its values. */
  method KeepBest(candidates: seq<Candidate>) returns (order: seq<string>, best: map<string, Candidate>)
    ensures Holds(order, best, BestByUrl(candidates))
  {
    hide Holds, Keep;
    order, best := [], map[];
    assert candidates[..0] == [];
    assert Holds(order, best, []) by { HoldsNothing(); }
    for n := 0 to |candidates|
      invariant Holds(order, best, BestByUrl(candidates[..n]))
    {
      var c := candidates[n];
      ghost var before := BestByUrl(candidates[..n]);
      assert candidates[..n + 1][..n] == candidates[..n];
      assert BestByUrl(candidates[..n + 1]) == Keep(before, c);
      if c.url == "" {
        KeepSkips(before, c);
      } else if c.url !in best {
        KeepNew(order, best, before, c);
        order, best := order + [c.url], best[c.url := c];
      } else {
        BestIsBest(candidates[..n]);
        KeepKnown(order, best, before, c);
        if c.priority > best[c.url].priority {
          best := best[c.url := c];
        }
      }
    }
    assert candidates[..|candidates|] == candidates;
  }

  lemma HoldsNothing()
    ensures Holds([], map[], [])
  {
  }

  lemma KeepSkips(best: seq<Candidate>, c: Candidate)
    requires c.url == ""
    ensures Keep(best, c) == best
  {
  }

  function Used(domainsUsed: map<string, nat>, domain: string): nat {
    if domain in domainsUsed then domainsUsed[domain] else 0
  }

  lemma CountOneMore(s: seq<Candidate>, item: Candidate, domain: string)
    ensures DomainCount(s + [item], domain) == DomainCount(s, domain) + if item.domain == domain then 1 else 0
  {
    assert (s + [item])[..|s|] == s;
  }

  lemma PickNext(ordered: seq<Candidate>, n: nat, limit: nat)
    requires n < |ordered|
    ensures var front := Pick(ordered[..n], limit);
            Pick(ordered[..n + 1], limit) ==
            if |front| >= limit || DomainCount(front, ordered[n].domain) >= PER_DOMAIN then front
            else front + [ordered[n]]
  {
    assert ordered[..n + 1][..n] == ordered[..n];
  }

  /** The greedy pass with its counter per domain. */
  method PickLoop(ordered: seq<Candidate>, limit: nat) returns (selected: seq<Candidate>)
    requires limit > 0
    ensures selected == Pick(ordered, limit)
  {
    hide Pick, DomainCount;
    var domainsUsed: map<string, nat> := map[];
    selected := [];
    NothingPicked(ordered, limit);
    for n := 0 to |ordered|
      invariant selected == Pick(ordered[..n], limit) && |selected| < limit
      invariant forall domain :: Used(domainsUsed, domain) == DomainCount(selected, domain)
    {
      var item := ordered[n];
      PickNext(ordered, n, limit);
      var used := Used(domainsUsed, item.domain);
      if used >= PER_DOMAIN { continue; }
      forall domain { CountOneMore(selected, item, domain); }
      domainsUsed := domainsUsed[item.domain := used + 1];
      selected := selected + [item];
      if |selected| >= limit {
        PickGrows(ordered, n + 1, limit);
        return;
      }
    }
    assert ordered[..|ordered|] == ordered;
  }

  lemma NothingPicked(ordered: seq<Candidate>, limit: nat)
    ensures Pick(ordered[..0], limit) == [] && forall domain :: DomainCount([], domain) == 0
  {
  }

  /** The selection and the number of candidates seen. */
  method RankAndDeduplicate(candidates: seq<Candidate>, mode: Mode) returns (selected: seq<Candidate>, seen: nat)
    ensures selected == Selected(candidates, Limit(mode)) && seen == |candidates|
  {
    var order, best := KeepBest(candidates);
    var values := seq(|order|, i requires 0 <= i < |order| && order[i] in best => best[order[i]]);
    assert values == BestByUrl(candidates);
    selected := PickLoop(Sort(ByPriority, values), Limit(mode));
    seen := |candidates|;
  }
}
