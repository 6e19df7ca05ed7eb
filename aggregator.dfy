/** `aggregateResults` (packages/domain/src/aggregator.ts): for each generated
    project name, count its available domains and pick a best domain (.com
    first, then cheapest), then rank the names by available count and
    confidence. Both orderings are JavaScript's stable comparator sort,
    modelled by Sorting.Sort. */
module Aggregator {
  import opened Strings
  import opened DomainChecker
  import Sorting

  /** A generated project name with its checked domains. */
  datatype Project = Project(
    id: string,
    name: string,
    nameType: string,
    confidence: real,
    reasoning: string,
    domains: seq<DomainInfo>)

  /** The project's own fields plus the two computed ones. */
  datatype Suggestion = Suggestion(
    project: Project,
    availableDomainCount: nat,
    bestDomain: Option<DomainInfo>)

  // ---------------------------------------------------------- best domain

  predicate IsCom(d: DomainInfo) {
    EndsWith(d.domain, ".com")
  }

  /** `d.price || 999`: a missing or zero price counts as 999. */
  function PriceKey(d: DomainInfo): real {
    if d.price.Some? && d.price.value != 0.0 then d.price.value else 999.0
  }

  /** The domain comparator returns a value <= 0: `a` is .com and `b` is not, or
      both are in the same class and `a`'s price key is not larger. */
  predicate DomainLe(a: DomainInfo, b: DomainInfo) {
    (IsCom(a) && !IsCom(b)) || (IsCom(a) == IsCom(b) && PriceKey(a) <= PriceKey(b))
  }

  lemma DomainLeIsPreorder()
    ensures Sorting.TotalPreorder(DomainLe)
  {
  }

  /** `domains.filter(d => d.available)`. */
  function Available(ds: seq<DomainInfo>): (r: seq<DomainInfo>)
    ensures |r| <= |ds|
    ensures forall d :: d in r <==> d in ds && d.available
  {
    if |ds| == 0 then []
    else
      var init, last := ds[..|ds| - 1], ds[|ds| - 1];
      assert ds == init + [last];
      Available(init) + (if last.available then [last] else [])
  }

  /** The indices of the available domains. */
  function AvailableIndices(ds: seq<DomainInfo>): set<nat> {
    set i: nat | i < |ds| && ds[i].available
  }

  /** The count is the number of positions holding an available domain. */
  lemma {:induction false} AvailableCount(ds: seq<DomainInfo>)
    ensures |Available(ds)| == |AvailableIndices(ds)|
  {
    if |ds| > 0 {
      var init := ds[..|ds| - 1];
      AvailableCount(init);
      IndicesSnoc(ds);
      var a := AvailableIndices(init);
      assert |ds| - 1 !in a;
      if ds[|ds| - 1].available {
        assert |a + {|ds| - 1}| == |a| + 1;
      } else {
        assert a + {} == a;
      }
    }
  }

  lemma IndicesSnoc(ds: seq<DomainInfo>)
    requires |ds| > 0
    ensures AvailableIndices(ds)
         == AvailableIndices(ds[..|ds| - 1]) + (if ds[|ds| - 1].available then {|ds| - 1} else {})
  {
    var init := ds[..|ds| - 1];
    assert forall i :: 0 <= i < |ds| - 1 ==> ds[i] == init[i];
  }

  /** The first element of the stable sort of the available domains. */
  function BestDomain(ds: seq<DomainInfo>): Option<DomainInfo> {
    var avail := Available(ds);
    if |avail| == 0 then None else Some(Sorting.Sort(avail, DomainLe)[0])
  }

  /** The best domain is undefined exactly when nothing is available; otherwise
      it is an available domain, a .com one whenever one is available, and its
      price key is minimal within its class (among all available domains, if it
      is .com). Among equally good domains it is the first in the list. */
  lemma BestDomainChoice(ds: seq<DomainInfo>)
    ensures BestDomain(ds).None? <==> forall d :: d in ds ==> !d.available
    ensures BestDomain(ds).Some? ==> BestDomain(ds).value in ds && BestDomain(ds).value.available
    ensures BestDomain(ds).Some? && (exists d :: d in ds && d.available && IsCom(d)) ==>
      IsCom(BestDomain(ds).value)
    ensures BestDomain(ds).Some? ==> forall d :: d in ds && d.available && IsCom(d) == IsCom(BestDomain(ds).value) ==>
      PriceKey(BestDomain(ds).value) <= PriceKey(d)
    ensures BestDomain(ds).Some? ==>
      exists i :: 0 <= i < |Available(ds)| && BestDomain(ds).value == Available(ds)[i]
        && forall k :: 0 <= k < i ==> !DomainLe(Available(ds)[k], Available(ds)[i])
  {
    var avail := Available(ds);
    if |avail| == 0 {
      assert forall d :: d in ds ==> !d.available;
    } else {
      assert avail[0] in ds;
      DomainLeIsPreorder();
      Sorting.SortHead(avail, DomainLe);
      var i :| 0 <= i < |avail| && Sorting.Sort(avail, DomainLe)[0] == avail[i]
        && Sorting.FirstMinimalAt(avail, i, DomainLe);
      var best := avail[i];
      assert BestDomain(ds) == Some(best);
      assert best in avail;
      forall d | d in ds && d.available ensures DomainLe(best, d) {
        assert d in avail;
        var k :| 0 <= k < |avail| && avail[k] == d;
      }
    }
  }

  // ---------------------------------------------------------- ranking

  /** One element of the `map` step. */
  function Summarize(p: Project): Suggestion {
    Suggestion(p, |Available(p.domains)|, BestDomain(p.domains))
  }

  function SummarizeAll(ps: seq<Project>): (r: seq<Suggestion>)
    ensures |r| == |ps|
    ensures forall k :: 0 <= k < |ps| ==> r[k] == Summarize(ps[k])
  {
    seq(|ps|, k requires 0 <= k < |ps| => Summarize(ps[k]))
  }

  /** The ranking comparator returns a value <= 0: more available domains
      first, then higher confidence. */
  predicate RankLe(a: Suggestion, b: Suggestion) {
    || a.availableDomainCount > b.availableDomainCount
    || (a.availableDomainCount == b.availableDomainCount && a.project.confidence >= b.project.confidence)
  }

  lemma RankLeIsPreorder()
    ensures Sorting.TotalPreorder(RankLe)
  {
  }

  /** `aggregateResults`. */
  function AggregateResults(ps: seq<Project>): seq<Suggestion> {
    Sorting.Sort(SummarizeAll(ps), RankLe)
  }

  /** The output is ranked by available count descending, ties by confidence
      descending; it is a permutation of the summaries, each of which keeps its
      project's fields and domain list and the count of its available domains. */
  lemma AggregateRanked(ps: seq<Project>)
    ensures |AggregateResults(ps)| == |ps|
    ensures forall i, j :: 0 <= i < j < |AggregateResults(ps)| ==>
      var a, b := AggregateResults(ps)[i], AggregateResults(ps)[j];
      a.availableDomainCount > b.availableDomainCount
      || (a.availableDomainCount == b.availableDomainCount && a.project.confidence >= b.project.confidence)
    ensures multiset(AggregateResults(ps)) == multiset(SummarizeAll(ps))
    ensures forall s :: s in AggregateResults(ps) ==>
      exists k :: 0 <= k < |ps| && s.project == ps[k] && s.availableDomainCount == |AvailableIndices(ps[k].domains)|
  {
    AggregateSorted(ps);
    var r := AggregateResults(ps);
    forall s | s in r
      ensures exists k :: 0 <= k < |ps| && s.project == ps[k] && s.availableDomainCount == |AvailableIndices(ps[k].domains)|
    {
      assert s in multiset(r);
      SummaryOrigin(ps, s);
    }
  }

  lemma AggregateSorted(ps: seq<Project>)
    ensures Sorting.Sorted(AggregateResults(ps), RankLe)
    ensures multiset(AggregateResults(ps)) == multiset(SummarizeAll(ps))
  {
    RankLeIsPreorder();
    Sorting.SortSorted(SummarizeAll(ps), RankLe);
  }

  lemma SummaryOrigin(ps: seq<Project>, s: Suggestion)
    requires s in multiset(SummarizeAll(ps))
    ensures exists k :: 0 <= k < |ps| && s.project == ps[k] && s.availableDomainCount == |AvailableIndices(ps[k].domains)|
  {
    assert s in SummarizeAll(ps);
    var k :| 0 <= k < |ps| && SummarizeAll(ps)[k] == s;
    AvailableCount(ps[k].domains);
  }

  /** Suggestions with the same count and confidence keep their input order. */
  lemma AggregateStable(ps: seq<Project>, z: Suggestion)
    ensures Sorting.TiedWith(AggregateResults(ps), z, RankLe) == Sorting.TiedWith(SummarizeAll(ps), z, RankLe)
  {
    RankLeIsPreorder();
    Sorting.SortStable(SummarizeAll(ps), z, RankLe);
  }
}
