/**
 * Hot handoff of a realtime scan. Every feed is dispatched as soon as it
 * completes, by a preview of the selection that touches none of the scan's
 * bookkeeping; later the full pass over the page decides what is listed.
 */
module OlxHotHandoff {
  import opened Maybe
  import opened OlxTypes
  import opened OlxSelection
  import opened Ordering

  datatype Config = Config(
    publishedAfter: Option<int>,
    includeRefreshed: bool,
    known: set<string>,
    continuityKnown: set<string>,
    maxCandidates: nat
  )

  /** `handedOff` lists the ids given to onHotCandidates, in order; `overflowed` says that some full pass hit its limit. */
  datatype Scan = Scan(
    seen: set<string>,
    hot: set<string>,
    handedOff: seq<string>,
    listings: seq<Ad>,
    overflowed: bool
  )

  /** A completed feed is previewed, or the full pass reaches it. */
  datatype Event = Dispatch(ads: seq<Ad>) | Commit(ads: seq<Ad>)

  const START := Scan({}, {}, [], [], false)

  function Preview(cfg: Config, s: Scan): (o: Options) {
    Options(cfg.publishedAfter, cfg.includeRefreshed, cfg.known, cfg.known, {},
      Max(0, cfg.maxCandidates - |s.listings| - |s.hot - s.seen|))
  }

  function Full(cfg: Config, s: Scan): (o: Options) {
    Options(cfg.publishedAfter, cfg.includeRefreshed, cfg.known, cfg.continuityKnown, {},
      Max(0, cfg.maxCandidates - |s.listings|))
  }

  function Apply(cfg: Config, s: Scan, e: Event): (t: Scan) {
    match e
    case Dispatch(ads) =>
      var ids := Ids(Select(Preview(cfg, s), ads, s.seen + s.hot).listings);
      s.(hot := s.hot + (set id | id in ids), handedOff := s.handedOff + ids)
    case Commit(ads) =>
      var r := Select(Full(cfg, s), ads, s.seen);
      s.(seen := s.seen + CountedIds(Full(cfg, s), ads),
         listings := s.listings + r.listings,
         overflowed := s.overflowed || r.candidateLimitReached)
  }

  function Run(cfg: Config, s: Scan, events: seq<Event>): (t: Scan) {
    if events == [] then s
    else Apply(cfg, Run(cfg, s, events[..|events| - 1]), events[|events| - 1])
  }

  /** The adverts of several feeds, one feed after the other. */
  function Joined(feeds: seq<seq<Ad>>): (ads: seq<Ad>) {
    if feeds == [] then [] else Joined(feeds[..|feeds| - 1]) + feeds[|feeds| - 1]
  }

  lemma NothingJoined()
    ensures Joined([]) == []
  {
  }

  lemma JoinedOne(ads: seq<Ad>)
    ensures Joined([ads]) == ads
  {
    assert [ads][..0] == [];
  }

  lemma JoinedStep(feeds: seq<seq<Ad>>, i: nat)
    requires i < |feeds|
    ensures Joined(feeds[..i + 1]) == Joined(feeds[..i]) + feeds[i]
  {
    assert feeds[..i + 1][..i] == feeds[..i];
  }

  lemma {:induction false} FullBudgetEnds(o: Options, feeds: seq<seq<Ad>>, i: nat, seen: set<string>)
    requires i <= |feeds| && |Select(o, Joined(feeds[..i]), seen).listings| >= o.maxCandidates
    ensures Select(o, Joined(feeds), seen).listings == Select(o, Joined(feeds[..i]), seen).listings
    decreases |feeds| - i
  {
    hide *;
    assert feeds[..|feeds|] == feeds;
    if i < |feeds| {
      var first := Select(o, Joined(feeds[..i]), seen).listings;
      JoinedStep(feeds, i);
      SelectionJoins(o, Joined(feeds[..i]), feeds[i], seen);
      LimitMeansFullBudget(Remaining(o, |first|), feeds[i], seen + CountedIds(o, Joined(feeds[..i])));
      NothingRemains(o, |first|);
      FullBudgetEnds(o, feeds, i + 1, seen);
    }
  }

  /** selectHotOlxCandidates: previews the selection over some feeds on a copy of the seen set. */
  method SelectHotOlxCandidates(o: Options, feeds: seq<seq<Ad>>, seen: set<string>) returns (candidates: seq<Ad>)
    ensures candidates == Select(o, Joined(feeds), seen).listings
  {
    hide *;
    candidates := [];
    var previewSeen := new IdSet(seen);
    NothingSelected(o, seen);
    NothingJoined();
    for i := 0 to |feeds|
      invariant candidates == Select(o, Joined(feeds[..i]), seen).listings
      invariant previewSeen.ids == seen + CountedIds(o, Joined(feeds[..i]))
    {
      var rest := Remaining(o, |candidates|);
      var selection := SelectOlxCandidates(rest, feeds[i], previewSeen);
      JoinedStep(feeds, i);
      SelectionJoins(o, Joined(feeds[..i]), feeds[i], seen);
      NothingRemains(o, |candidates|);
      SameCountedIds(o, rest, feeds[i]);
      candidates := candidates + selection.listings;
      if |candidates| >= o.maxCandidates {
        FullBudgetEnds(o, feeds, i + 1, seen);
        return;
      }
    }
    assert feeds[..|feeds|] == feeds;
  }

  /** The collector's mutable bookkeeping. */
  class RealtimeScan {
    const cfg: Config
    const seenExternalIds: IdSet
    var hotDispatchedExternalIds: set<string>
    var handedOff: seq<string>
    var listings: seq<Ad>
    ghost var overflowed: bool

    ghost function View(): (s: Scan)
      reads this, seenExternalIds
    {
      Scan(seenExternalIds.ids, hotDispatchedExternalIds, handedOff, listings, overflowed)
    }

    constructor (cfg: Config)
      ensures this.cfg == cfg && fresh(seenExternalIds) && View() == START
    {
      this.cfg := cfg;
      var initial := new IdSet({});
      seenExternalIds := initial;
      hotDispatchedExternalIds, handedOff, listings, overflowed := {}, [], [], false;
    }

    method MarkHot(ids: seq<string>)
      modifies `hotDispatchedExternalIds
      ensures hotDispatchedExternalIds == old(hotDispatchedExternalIds) + set id | id in ids
    {
      for i := 0 to |ids|
        invariant hotDispatchedExternalIds == old(hotDispatchedExternalIds) + set id | id in ids[..i]
      {
        assert ids[..i + 1] == ids[..i] + [ids[i]];
        hotDispatchedExternalIds := hotDispatchedExternalIds + {ids[i]};
      }
      assert ids[..|ids|] == ids;
    }

    /** dispatchHotFeedResult. */
    method DispatchHotFeedResult(ads: seq<Ad>)
      modifies this
      ensures View() == Apply(cfg, old(View()), Dispatch(ads))
    {
      hide Select, Ids, CountedIds;
      var uncommitted := |hotDispatchedExternalIds - seenExternalIds.ids|;
      var options := Options(cfg.publishedAfter, cfg.includeRefreshed, cfg.known, cfg.known, {},
        Max(0, cfg.maxCandidates - |listings| - uncommitted));
      var hotCandidates := SelectHotOlxCandidates(options, [ads], seenExternalIds.ids + hotDispatchedExternalIds);
      JoinedOne(ads);
      var ids := Ids(hotCandidates);
      MarkHot(ids);
      if |ids| > 0 {
        handedOff := handedOff + ids;
      }
    }

    /** The full pass over one successful feed. */
    method CommitFeed(ads: seq<Ad>)
      modifies this, seenExternalIds
      ensures View() == Apply(cfg, old(View()), Commit(ads))
    {
      hide Select, CountedIds;
      var options := Options(cfg.publishedAfter, cfg.includeRefreshed, cfg.known, cfg.continuityKnown, {},
        Max(0, cfg.maxCandidates - |listings|));
      var selection := SelectOlxCandidates(options, ads, seenExternalIds);
      listings := listings + selection.listings;
      overflowed := overflowed || selection.candidateLimitReached;
    }
  }

  // ----- what every event keeps

  /** An advert worth dispatching, by the configuration alone. */
  predicate Wanted(cfg: Config, ad: Ad) {
    Candidate(Options(cfg.publishedAfter, cfg.includeRefreshed, cfg.known, {}, {}, 0), ad)
  }

  function WantedIds(cfg: Config, ads: seq<Ad>): (ids: set<string>) {
    set ad | ad in ads && Wanted(cfg, ad) :: ad.id
  }

  function IdentifiedIds(ads: seq<Ad>): (ids: set<string>) {
    set ad | ad in ads && ad.id != "" :: ad.id
  }

  function ListingIds(listings: seq<Ad>): (ids: set<string>) {
    set id | id in Ids(listings)
  }

  function Adverts(events: seq<Event>): (ads: set<Ad>) {
    set e, ad | e in events && ad in e.ads :: ad
  }

  /** Each of the ids belongs to a wanted advert. */
  ghost predicate AllWanted(cfg: Config, universe: set<Ad>, ids: set<string>) {
    forall id :: id in ids ==> exists ad :: ad in universe && ad.id == id && Wanted(cfg, ad)
  }

  ghost predicate Kept(cfg: Config, universe: set<Ad>, s: Scan) {
    && AllWanted(cfg, universe, s.hot)
    && Distinct(s.handedOff)
    && s.hot == (set id | id in s.handedOff)
    && Distinct(Ids(s.listings))
    && ListingIds(s.listings) <= s.seen
    && |s.listings| <= cfg.maxCandidates
    && (s.overflowed ==> |s.listings| == cfg.maxCandidates)
    && |s.hot| <= cfg.maxCandidates
    && (!s.overflowed ==> s.hot * s.seen <= ListingIds(s.listings))
  }

  predicate SameConfig(cfg: Config, o: Options) {
    o.publishedAfter == cfg.publishedAfter && o.includeRefreshed == cfg.includeRefreshed && o.known == cfg.known && o.ignore == {}
  }

  lemma SameCounted(cfg: Config, o: Options, ads: seq<Ad>)
    requires SameConfig(cfg, o)
    ensures CountedIds(o, ads) == IdentifiedIds(ads)
    ensures CandidateIds(o, ads) == WantedIds(cfg, ads)
    ensures forall ad :: Candidate(o, ad) <==> Wanted(cfg, ad)
  {
    hide BeforeCutoff, PublishedAt;
    assert forall ad :: Candidate(o, ad) <==> Wanted(cfg, ad);
    hide Candidate, Wanted;
  }

  lemma ListingsAreIds(o: Options, ads: seq<Ad>, seen: set<string>)
    ensures IdsOf(Listed, o, ads, seen) == set id | id in Ids(Select(o, ads, seen).listings)
  {
    hide Classes, Chosen;
    var listings := Select(o, ads, seen).listings;
    forall id | id in IdsOf(Listed, o, ads, seen) ensures id in Ids(listings) {
      var i :| 0 <= i < |listings| && listings[i].id == id;
      assert Ids(listings)[i] == id;
    }
  }

  /** What a selection lists, under one record per id. */
  lemma SelectionFacts(cfg: Config, universe: set<Ad>, o: Options, ads: seq<Ad>, seen: set<string>)
    requires OneRecordPerId(universe) && forall ad :: ad in ads ==> ad in universe
    requires SameConfig(cfg, o)
    ensures var r := Select(o, ads, seen);
            var ids := set id | id in Ids(r.listings);
            && Distinct(Ids(r.listings))
            && |ids| == |r.listings| <= Budget(o)
            && ids <= WantedIds(cfg, ads) - seen
            && (r.candidateLimitReached ==> |r.listings| == Budget(o))
            && (!r.candidateLimitReached <==> ids == WantedIds(cfg, ads) - seen)
  {
    hide *;
    ListingsAreIds(o, ads, seen);
    ListedOrOverflowed(o, ads, seen, universe);
    LimitMeansFullBudget(o, ads, seen);
    ListedAreDistinct(o, ads, seen);
    SameCounted(cfg, o, ads);
    var r := Select(o, ads, seen);
    DistinctCardinality(Ids(r.listings));
    IdsLength(r.listings);
  }

  lemma IdsLength(ads: seq<Ad>)
    ensures |Ids(ads)| == |ads|
  {
  }

  lemma DistinctAppend(a: seq<string>, b: seq<string>)
    requires Distinct(a) && Distinct(b)
    requires forall x :: x in a ==> x !in b
    ensures Distinct(a + b)
  {
    var c := a + b;
    forall i, j | 0 <= i < j < |c| ensures c[i] != c[j] {
      if i < |a| && |a| <= j {
        assert c[i] in a && c[j] in b;
      }
    }
  }

  lemma DispatchKeeps(cfg: Config, universe: set<Ad>, s: Scan, ads: seq<Ad>)
    requires OneRecordPerId(universe) && forall ad :: ad in ads ==> ad in universe
    requires Kept(cfg, universe, s)
    ensures Kept(cfg, universe, Apply(cfg, s, Dispatch(ads)))
  {
    hide Select, WantedIds, Wanted, OneRecordPerId, Ids, Budget, ListingIds, AllWanted;
    var o, t := Preview(cfg, s), Apply(cfg, s, Dispatch(ads));
    var fresh' := Ids(Select(o, ads, s.seen + s.hot).listings);
    var ids := set id | id in fresh';
    SelectionFacts(cfg, universe, o, ads, s.seen + s.hot);
    BudgetIs(o);
    assert t.hot == s.hot + ids && ids !! s.hot && ids !! s.seen;
    assert forall x :: x in s.handedOff ==> x in s.hot;
    DistinctAppend(s.handedOff, fresh');
    assert t.hot * t.seen == s.hot * s.seen;
    ListingIdCount(s);
    UncommittedFits(s, ids, cfg.maxCandidates);
    MoreWanted(cfg, universe, s.hot, ids, ads);
  }

  lemma MoreWanted(cfg: Config, universe: set<Ad>, hot: set<string>, ids: set<string>, ads: seq<Ad>)
    requires forall ad :: ad in ads ==> ad in universe
    requires AllWanted(cfg, universe, hot) && ids <= WantedIds(cfg, ads)
    ensures AllWanted(cfg, universe, hot + ids)
  {
    hide Wanted;
  }

  /** The preview's budget leaves room for what was dispatched but not yet listed. */
  lemma UncommittedFits(s: Scan, ids: set<string>, max: nat)
    requires ids !! s.hot
    requires |ids| <= Max(0, max - |s.listings| - |s.hot - s.seen|)
    requires |s.hot| <= max
    requires s.overflowed ==> |s.listings| == max
    requires !s.overflowed ==> s.hot * s.seen <= ListingIds(s.listings)
    requires |ListingIds(s.listings)| == |s.listings|
    ensures |s.hot + ids| <= max
  {
    hide Ids;
    assert |s.hot + ids| == |s.hot| + |ids|;
    assert s.hot == (s.hot * s.seen) + (s.hot - s.seen);
    assert |s.hot| == |s.hot * s.seen| + |s.hot - s.seen|;
    if !s.overflowed {
      SubsetSize(s.hot * s.seen, ListingIds(s.listings));
    }
  }

  lemma BudgetIs(o: Options)
    ensures Budget(o) == Max(0, o.maxCandidates)
  {
  }

  lemma SubsetSize(a: set<string>, b: set<string>)
    requires a <= b
    ensures |a| <= |b|
  {
    assert b == a + (b - a);
  }

  lemma ListingIdCount(s: Scan)
    requires Distinct(Ids(s.listings))
    ensures |ListingIds(s.listings)| == |s.listings|
  {
    DistinctCardinality(Ids(s.listings));
  }

  lemma IdsAppend(a: seq<Ad>, b: seq<Ad>)
    ensures Ids(a + b) == Ids(a) + Ids(b)
    ensures (set id | id in Ids(a + b)) == (set id | id in Ids(a)) + (set id | id in Ids(b))
  {
    assert Ids(a + b) == Ids(a) + Ids(b);
  }

  lemma CommitKeeps(cfg: Config, universe: set<Ad>, s: Scan, ads: seq<Ad>)
    requires OneRecordPerId(universe) && forall ad :: ad in ads ==> ad in universe
    requires Kept(cfg, universe, s)
    ensures Kept(cfg, universe, Apply(cfg, s, Commit(ads)))
  {
    hide Select, WantedIds, Wanted, Ids, Budget, CountedIds, IdentifiedIds;
    var o, t := Full(cfg, s), Apply(cfg, s, Commit(ads));
    var r := Select(o, ads, s.seen);
    var ids := set id | id in Ids(r.listings);
    SelectionFacts(cfg, universe, o, ads, s.seen);
    BudgetIs(o);
    SameCounted(cfg, o, ads);
    IdsAppend(s.listings, r.listings);
    assert forall x :: x in Ids(s.listings) ==> x in ListingIds(s.listings);
    DistinctAppend(Ids(s.listings), Ids(r.listings));
    WantedAreIdentified(cfg, ads);
    assert ListingIds(t.listings) == ListingIds(s.listings) + ids;
    if !t.overflowed {
      forall id | id in t.hot * t.seen ensures id in ListingIds(t.listings) {
        if id !in s.seen {
          assert id in IdentifiedIds(ads);
          HotIsWanted(cfg, universe, s, ads, id);
        }
      }
    }
  }

  lemma WantedAreIdentified(cfg: Config, ads: seq<Ad>)
    ensures WantedIds(cfg, ads) <= IdentifiedIds(ads)
  {
    hide BeforeCutoff, PublishedAt;
  }

  /** With one record per id, a dispatched advert is wanted wherever it shows up. */
  lemma HotIsWanted(cfg: Config, universe: set<Ad>, s: Scan, ads: seq<Ad>, id: string)
    requires OneRecordPerId(universe) && forall ad :: ad in ads ==> ad in universe
    requires Kept(cfg, universe, s)
    requires id in s.hot && id in IdentifiedIds(ads)
    ensures id in WantedIds(cfg, ads)
  {
    hide Candidate, Wanted;
    var twin :| twin in universe && twin.id == id && Wanted(cfg, twin);
    var ad :| ad in ads && ad.id == id && ad.id != "";
    assert twin == ad;
  }

  // ----- the bound on handoffs

  /** Handed-off ids that the full pass saw without listing them: their place in the budget is free again. */
  function Displaced(s: Scan): (ids: set<string>) {
    s.hot * s.seen - ListingIds(s.listings)
  }

  /** Handed-off ids that still hold their place. */
  function Outstanding(s: Scan): (ids: set<string>) {
    s.hot - Displaced(s)
  }

  ghost predicate Bounded(cfg: Config, s: Scan) {
    && Distinct(s.handedOff) && s.hot == (set id | id in s.handedOff)
    && Distinct(Ids(s.listings)) && ListingIds(s.listings) <= s.seen
    && |s.listings| <= cfg.maxCandidates
    && |Outstanding(s)| <= cfg.maxCandidates
  }

  /** What a selection lists, whatever the records. */
  lemma SelectionBounds(o: Options, ads: seq<Ad>, seen: set<string>)
    ensures var r := Select(o, ads, seen).listings;
            var ids := set id | id in Ids(r);
            && Distinct(Ids(r)) && |ids| == |r| <= Max(0, o.maxCandidates)
            && ids !! seen && ids <= CountedIds(o, ads)
  {
    hide *;
    var r := Select(o, ads, seen).listings;
    LimitMeansFullBudget(o, ads, seen);
    BudgetIs(o);
    ListedAreDistinct(o, ads, seen);
    DistinctCardinality(Ids(r));
    IdsLength(r);
    forall id | id in Ids(r) ensures id !in seen && id in CountedIds(o, ads) {
      var ad := ListedWith(r, id);
      ListedAreCandidates(o, ads, seen, ad);
    }
  }

  ghost function ListedWith(listings: seq<Ad>, id: string): (ad: Ad)
    requires id in Ids(listings)
    ensures ad in listings && ad.id == id
  {
    var i :| 0 <= i < |listings| && Ids(listings)[i] == id;
    listings[i]
  }

  lemma DispatchIsBounded(cfg: Config, s: Scan, ads: seq<Ad>)
    requires Bounded(cfg, s)
    ensures Bounded(cfg, Apply(cfg, s, Dispatch(ads)))
  {
    hide Select, Ids, CountedIds, ListingIds, Outstanding;
    var o, t := Preview(cfg, s), Apply(cfg, s, Dispatch(ads));
    var new' := Ids(Select(o, ads, s.seen + s.hot).listings);
    var ids := set id | id in new';
    SelectionBounds(o, ads, s.seen + s.hot);
    assert t.hot == s.hot + ids && ids !! s.hot && ids !! s.seen;
    assert forall x :: x in s.handedOff ==> x in s.hot;
    DistinctAppend(s.handedOff, new');
    ListingIdCount(s);
    OutstandingGrows(s, t, ids, cfg.maxCandidates);
  }

  lemma OutstandingGrows(s: Scan, t: Scan, ids: set<string>, max: nat)
    requires t.hot == s.hot + ids && ids !! s.hot && ids !! s.seen && t.seen == s.seen && t.listings == s.listings
    requires ListingIds(s.listings) <= s.seen && |ListingIds(s.listings)| == |s.listings|
    requires |ids| <= Max(0, max - |s.listings| - |s.hot - s.seen|)
    requires |Outstanding(s)| <= max
    ensures |Outstanding(t)| <= max
  {
    hide ListingIds;
    var listed := s.hot * ListingIds(s.listings);
    assert Outstanding(t) == Outstanding(s) + ids;
    assert |Outstanding(t)| == |Outstanding(s)| + |ids|;
    assert Outstanding(s) == (s.hot - s.seen) + listed;
    assert |Outstanding(s)| == |s.hot - s.seen| + |listed|;
    SubsetSize(listed, ListingIds(s.listings));
  }

  lemma CommitIsBounded(cfg: Config, s: Scan, ads: seq<Ad>)
    requires Bounded(cfg, s)
    ensures Bounded(cfg, Apply(cfg, s, Commit(ads)))
  {
    hide Select, Ids, CountedIds, Outstanding, ListingIds;
    var o, t := Full(cfg, s), Apply(cfg, s, Commit(ads));
    var listed := Select(o, ads, s.seen).listings;
    SelectionBounds(o, ads, s.seen);
    IdsAppend(s.listings, listed);
    ListingIdsAre(s.listings);
    ListingIdsAre(t.listings);
    DistinctAppend(Ids(s.listings), Ids(listed));
    OutstandingShrinks(s, t, set id | id in Ids(listed));
  }

  lemma ListingIdsAre(listings: seq<Ad>)
    ensures ListingIds(listings) == set id | id in Ids(listings)
    ensures forall id :: id in Ids(listings) <==> id in ListingIds(listings)
  {
  }

  lemma OutstandingShrinks(s: Scan, t: Scan, listed: set<string>)
    requires t.hot == s.hot && s.seen <= t.seen && listed !! s.seen
    requires ListingIds(t.listings) == ListingIds(s.listings) + listed
    ensures |Outstanding(t)| <= |Outstanding(s)|
  {
    hide ListingIds;
    SubsetSize(Outstanding(t), Outstanding(s));
  }

  lemma {:induction false} RunIsBounded(cfg: Config, events: seq<Event>)
    ensures Bounded(cfg, Run(cfg, START, events))
  {
    if events == [] {
      assert ListingIds(START.listings) == {};
    } else {
      var n := |events| - 1;
      RunIsBounded(cfg, events[..n]);
      hide Bounded, Apply;
      match events[n] {
        case Dispatch(ads) => DispatchIsBounded(cfg, Run(cfg, START, events[..n]), ads);
        case Commit(ads) => CommitIsBounded(cfg, Run(cfg, START, events[..n]), ads);
      }
    }
  }

  /**
   * Whatever the records, the feeds and the order they complete in: no advert is
   * handed off twice, no more than maxCandidates are listed, and the handoffs
   * exceed maxCandidates by no more than the adverts that the full pass saw again
   * without listing them. With one record per id they never exceed it.
   */
  lemma HandoffIsBounded(cfg: Config, events: seq<Event>)
    ensures var s := Run(cfg, START, events);
            && Distinct(s.handedOff)
            && |s.handedOff| <= cfg.maxCandidates + |Displaced(s)|
            && |s.listings| <= cfg.maxCandidates
            && (OneRecordPerId(Adverts(events)) ==> |s.handedOff| <= cfg.maxCandidates)
  {
    RunIsBounded(cfg, events);
    var s := Run(cfg, START, events);
    DistinctCardinality(s.handedOff);
    assert s.hot == Outstanding(s) + Displaced(s);
    assert |s.hot| == |Outstanding(s)| + |Displaced(s)|;
    if OneRecordPerId(Adverts(events)) {
      RunKeeps(cfg, Adverts(events), events);
    }
  }

  lemma {:induction false} RunKeeps(cfg: Config, universe: set<Ad>, events: seq<Event>)
    requires OneRecordPerId(universe) && Adverts(events) <= universe
    ensures Kept(cfg, universe, Run(cfg, START, events))
  {
    if events == [] {
      assert ListingIds(START.listings) == {};
    } else {
      var n := |events| - 1;
      var e := events[n];
      assert e in events;
      forall x, ad | x in events[..n] && ad in x.ads ensures ad in universe {
        assert x in events;
        assert ad in Adverts(events);
      }
      assert Adverts(events[..n]) <= universe;
      forall ad | ad in e.ads ensures ad in universe {
        assert ad in Adverts(events);
      }
      RunKeeps(cfg, universe, events[..n]);
      hide Kept, Apply;
      match e {
        case Dispatch(ads) => DispatchKeeps(cfg, universe, Run(cfg, START, events[..n]), ads);
        case Commit(ads) => CommitKeeps(cfg, universe, Run(cfg, START, events[..n]), ads);
      }
    }
  }

  // ----- whole scans

  /**
   * One page of a realtime scan. `completed` is the completion order of the
   * direct feeds; `hedge` holds the freshness hedge, if it ran; `coverage` the
   * feeds that only the full pass reads.
   */
  datatype Page = Page(
    direct: seq<seq<Ad>>,
    completed: seq<seq<Ad>>,
    hedge: seq<seq<Ad>>,
    saved: seq<seq<Ad>>,
    coverage: seq<seq<Ad>>
  ) {
    function Dispatched(): (feeds: seq<seq<Ad>>) {
      completed + hedge + saved
    }

    function Committed(): (feeds: seq<seq<Ad>>) {
      saved + direct + hedge + coverage
    }

    predicate Valid() {
      multiset(completed) == multiset(direct)
    }
  }

  function Dispatches(feeds: seq<seq<Ad>>): (events: seq<Event>) {
    seq(|feeds|, i requires 0 <= i < |feeds| => Dispatch(feeds[i]))
  }

  function Commits(feeds: seq<seq<Ad>>): (events: seq<Event>) {
    seq(|feeds|, i requires 0 <= i < |feeds| => Commit(feeds[i]))
  }

  function PageEvents(page: Page): (events: seq<Event>) {
    Dispatches(page.Dispatched()) + Commits(page.Committed())
  }

  function ScanEvents(pages: seq<Page>): (events: seq<Event>) {
    if pages == [] then [] else ScanEvents(pages[..|pages| - 1]) + PageEvents(pages[|pages| - 1])
  }

  function AllIdentified'(feeds: seq<seq<Ad>>): (ids: set<string>) {
    if feeds == [] then {} else AllIdentified'(feeds[..|feeds| - 1]) + IdentifiedIds(feeds[|feeds| - 1])
  }

  function AllWantedIds(cfg: Config, feeds: seq<seq<Ad>>): (ids: set<string>) {
    if feeds == [] then {} else AllWantedIds(cfg, feeds[..|feeds| - 1]) + WantedIds(cfg, feeds[|feeds| - 1])
  }

  lemma {:induction false} AllIdsOf(cfg: Config, feeds: seq<seq<Ad>>, id: string)
    ensures id in AllIdentified'(feeds) <==> exists f :: f in feeds && id in IdentifiedIds(f)
    ensures id in AllWantedIds(cfg, feeds) <==> exists f :: f in feeds && id in WantedIds(cfg, f)
  {
    hide IdentifiedIds, WantedIds;
    if feeds != [] {
      var n := |feeds| - 1;
      AllIdsOf(cfg, feeds[..n], id);
      assert feeds == feeds[..n] + [feeds[n]];
      assert forall f :: f in feeds <==> f in feeds[..n] || f == feeds[n];
    }
  }

  lemma {:induction false} RunConcat(cfg: Config, s: Scan, a: seq<Event>, b: seq<Event>)
    ensures Run(cfg, s, a + b) == Run(cfg, Run(cfg, s, a), b)
  {
    hide Apply;
    if b == [] {
      assert a + b == a;
    } else {
      var n := |b| - 1;
      RunConcat(cfg, s, a, b[..n]);
      assert (a + b)[..|a + b| - 1] == a + b[..n];
    }
  }

  lemma {:induction false} DispatchesOnlyDispatch(cfg: Config, s: Scan, feeds: seq<seq<Ad>>)
    ensures var t := Run(cfg, s, Dispatches(feeds));
            && t.seen == s.seen && t.listings == s.listings && t.overflowed == s.overflowed
            && s.hot <= t.hot <= s.hot + AllIdentified'(feeds)
  {
    hide Select, IdentifiedIds, Wanted, Preview, Ids;
    if feeds != [] {
      var n := |feeds| - 1;
      var s' := Run(cfg, s, Dispatches(feeds[..n]));
      DispatchesOnlyDispatch(cfg, s, feeds[..n]);
      assert Dispatches(feeds)[..n] == Dispatches(feeds[..n]);
      PreviewIsIdentified(cfg, s', feeds[n]);
      assert Run(cfg, s, Dispatches(feeds)) == Apply(cfg, s', Dispatch(feeds[n]));
    }
  }

  lemma PreviewIsIdentified(cfg: Config, s: Scan, ads: seq<Ad>)
    ensures s.hot <= Apply(cfg, s, Dispatch(ads)).hot <= s.hot + IdentifiedIds(ads)
  {
    hide Select;
    var o, seen := Preview(cfg, s), s.seen + s.hot;
    var listings := Select(o, ads, seen).listings;
    forall id | id in Ids(listings) ensures id in IdentifiedIds(ads) {
      var i :| 0 <= i < |listings| && listings[i].id == id;
      ListedAreCandidates(o, ads, seen, listings[i]);
    }
  }

  lemma {:induction false} CommitsSee(cfg: Config, s: Scan, feeds: seq<seq<Ad>>)
    ensures var t := Run(cfg, s, Commits(feeds));
            && t.hot == s.hot && t.handedOff == s.handedOff
            && t.seen == s.seen + AllIdentified'(feeds)
            && (s.overflowed ==> t.overflowed)
  {
    hide Select, IdentifiedIds, Wanted;
    if feeds != [] {
      var n := |feeds| - 1;
      CommitsSee(cfg, s, feeds[..n]);
      assert Commits(feeds)[..n] == Commits(feeds[..n]);
      SameCounted(cfg, Full(cfg, Run(cfg, s, Commits(feeds[..n]))), feeds[n]);
    }
  }

  /** After a page every dispatched advert has also been seen by the full pass. */
  lemma PageSettles(cfg: Config, s: Scan, page: Page)
    requires page.Valid() && s.hot <= s.seen
    ensures var t := Run(cfg, s, PageEvents(page));
            t.hot <= t.seen && (s.overflowed ==> t.overflowed)
  {
    hide IdentifiedIds, Apply, Run;
    var mid := Run(cfg, s, Dispatches(page.Dispatched()));
    RunConcat(cfg, s, Dispatches(page.Dispatched()), Commits(page.Committed()));
    DispatchesOnlyDispatch(cfg, s, page.Dispatched());
    CommitsSee(cfg, mid, page.Committed());
    SameMembers(page.completed, page.direct);
    forall id | id in AllIdentified'(page.Dispatched()) ensures id in AllIdentified'(page.Committed()) {
      AllIdsOf(cfg, page.Dispatched(), id);
      AllIdsOf(cfg, page.Committed(), id);
      assert forall f :: f in page.Dispatched() ==> f in page.Committed();
    }
  }

  lemma {:induction false} ScanSettles(cfg: Config, pages: seq<Page>)
    requires forall p :: p in pages ==> p.Valid()
    ensures var t := Run(cfg, START, ScanEvents(pages)); t.hot <= t.seen
  {
    if pages != [] {
      hide Apply, Run, PageEvents;
      var n := |pages| - 1;
      ScanSettles(cfg, pages[..n]);
      RunConcat(cfg, START, ScanEvents(pages[..n]), PageEvents(pages[n]));
      PageSettles(cfg, Run(cfg, START, ScanEvents(pages[..n])), pages[n]);
    }
  }

  /** The ids that some full pass would have listed, had there been room. */
  function OverflowedIn(cfg: Config, events: seq<Event>): (ids: set<string>) {
    if events == [] then {}
    else
      var before, e := events[..|events| - 1], events[|events| - 1];
      var s := Run(cfg, START, before);
      OverflowedIn(cfg, before) + if e.Commit? then IdsOf(Overflowed, Full(cfg, s), e.ads, s.seen) else {}
  }

  /** Each handed-off id that was seen is either listed or overflowed. */
  ghost predicate Divided(s: Scan, overflowed: set<string>) {
    && s.hot * s.seen <= ListingIds(s.listings) + overflowed
    && ListingIds(s.listings) !! overflowed
    && ListingIds(s.listings) + overflowed <= s.seen
    && (s.overflowed <==> overflowed != {})
  }

  lemma CommitDivides(cfg: Config, universe: set<Ad>, s: Scan, ads: seq<Ad>, overflowed: set<string>)
    requires OneRecordPerId(universe) && forall ad :: ad in ads ==> ad in universe
    requires Kept(cfg, universe, s) && Divided(s, overflowed)
    ensures Divided(Apply(cfg, s, Commit(ads)), overflowed + IdsOf(Overflowed, Full(cfg, s), ads, s.seen))
  {
    hide *;
    var o, t := Full(cfg, s), Apply(cfg, s, Commit(ads));
    var listed, full, wanted := IdsOf(Listed, o, ads, s.seen), IdsOf(Overflowed, o, ads, s.seen), WantedIds(cfg, ads);
    CommitIs(cfg, s, ads);
    ListedOrOverflowed(o, ads, s.seen, universe);
    LimitMeansFullBudget(o, ads, s.seen);
    SameCounted(cfg, o, ads);
    WantedAreIdentified(cfg, ads);
    forall id | id in s.hot && id in IdentifiedIds(ads) ensures id in wanted {
      HotIsWanted(cfg, universe, s, ads, id);
    }
    StaysDivided(s, t, overflowed, IdentifiedIds(ads), wanted, listed, full);
  }

  lemma CommitIs(cfg: Config, s: Scan, ads: seq<Ad>)
    ensures var o, t := Full(cfg, s), Apply(cfg, s, Commit(ads));
            && SameConfig(cfg, o) && t.hot == s.hot && t.seen == s.seen + CountedIds(o, ads)
            && ListingIds(t.listings) == ListingIds(s.listings) + IdsOf(Listed, o, ads, s.seen)
            && t.overflowed == (s.overflowed || Select(o, ads, s.seen).candidateLimitReached)
  {
    hide Select, Ids, IdsOf, CountedIds;
    ListingsAreIds(Full(cfg, s), ads, s.seen);
    IdsAppend(s.listings, Select(Full(cfg, s), ads, s.seen).listings);
  }

  /** A full pass over some feed divides its new wanted ids into listed and overflowed ones. */
  lemma StaysDivided(s: Scan, t: Scan, overflowed: set<string>, identified: set<string>, wanted: set<string>, listed: set<string>, full: set<string>)
    requires Divided(s, overflowed) && t.hot == s.hot && t.seen == s.seen + identified
    requires ListingIds(t.listings) == ListingIds(s.listings) + listed
    requires t.overflowed <==> s.overflowed || full != {}
    requires listed + full == wanted - s.seen && listed !! full && wanted <= identified
    requires forall id :: id in s.hot && id in identified ==> id in wanted
    ensures Divided(t, overflowed + full)
  {
    hide ListingIds;
  }

  lemma {:induction false} RunDivides(cfg: Config, universe: set<Ad>, events: seq<Event>)
    requires OneRecordPerId(universe) && Adverts(events) <= universe
    ensures Divided(Run(cfg, START, events), OverflowedIn(cfg, events))
  {
    hide *;
    if events == [] {
      NothingDivides(cfg);
    } else {
      var n := |events| - 1;
      AdvertsOfPrefix(events, universe);
      RunDivides(cfg, universe, events[..n]);
      RunKeeps(cfg, universe, events[..n]);
      RunSnoc(cfg, events);
      var s, overflowed := Run(cfg, START, events[..n]), OverflowedIn(cfg, events[..n]);
      match events[n] {
        case Dispatch(ads) => DispatchDivides(cfg, s, ads, overflowed);
        case Commit(ads) => CommitDivides(cfg, universe, s, ads, overflowed);
      }
    }
  }

  lemma NothingDivides(cfg: Config)
    ensures Divided(Run(cfg, START, []), OverflowedIn(cfg, []))
  {
    assert ListingIds(START.listings) == {};
  }

  lemma RunSnoc(cfg: Config, events: seq<Event>)
    requires events != []
    ensures var before, e := events[..|events| - 1], events[|events| - 1];
            var s := Run(cfg, START, before);
            && Run(cfg, START, events) == Apply(cfg, s, e)
            && OverflowedIn(cfg, events)
               == OverflowedIn(cfg, before) + if e.Commit? then IdsOf(Overflowed, Full(cfg, s), e.ads, s.seen) else {}
  {
    hide Apply, IdsOf;
  }

  lemma AdvertsOfPrefix(events: seq<Event>, universe: set<Ad>)
    requires events != [] && Adverts(events) <= universe
    ensures Adverts(events[..|events| - 1]) <= universe
    ensures forall ad :: ad in events[|events| - 1].ads ==> ad in universe
  {
    var e := events[|events| - 1];
    assert events == events[..|events| - 1] + [e];
    AdvertsConcat(events[..|events| - 1], [e]);
    forall ad | ad in e.ads ensures ad in universe {
      assert e in events && ad in Adverts(events);
    }
  }

  lemma DispatchDivides(cfg: Config, s: Scan, ads: seq<Ad>, overflowed: set<string>)
    requires Divided(s, overflowed)
    ensures Divided(Apply(cfg, s, Dispatch(ads)), overflowed + {})
  {
    hide Select, Ids;
    SelectionBounds(Preview(cfg, s), ads, s.seen + s.hot);
    assert overflowed + {} == overflowed;
  }

  /**
   * No silent loss of a hot advert: over a whole scan, for every completion order
   * of the direct feeds, an advert that was handed off early is in the final
   * listings exactly unless some full pass had no room for it.
   */
  lemma HotIsListed(cfg: Config, pages: seq<Page>)
    requires forall p :: p in pages ==> p.Valid()
    requires OneRecordPerId(Adverts(ScanEvents(pages)))
    ensures var t := Run(cfg, START, ScanEvents(pages));
            && (forall id :: id in t.handedOff ==> (id in Ids(t.listings) <==> id !in OverflowedIn(cfg, ScanEvents(pages))))
            && (t.overflowed <==> OverflowedIn(cfg, ScanEvents(pages)) != {})
  {
    hide Run, ScanEvents, OneRecordPerId, Ids, OverflowedIn, Apply;
    var events := ScanEvents(pages);
    RunIsBounded(cfg, events);
    RunDivides(cfg, Adverts(events), events);
    ScanSettles(cfg, pages);
    var t := Run(cfg, START, events);
    forall id | id in t.handedOff ensures id in Ids(t.listings) <==> id !in OverflowedIn(cfg, events) {
      assert id in t.hot && id in t.hot * t.seen;
      assert id in Ids(t.listings) <==> id in ListingIds(t.listings);
    }
  }

  // ----- the preview and the full pass agree

  lemma {:induction false} CommitsList(cfg: Config, universe: set<Ad>, s: Scan, feeds: seq<seq<Ad>>)
    requires OneRecordPerId(universe) && forall f, ad :: f in feeds && ad in f ==> ad in universe
    requires !Run(cfg, s, Commits(feeds)).overflowed
    ensures ListingIds(Run(cfg, s, Commits(feeds)).listings) == ListingIds(s.listings) + (AllWantedIds(cfg, feeds) - s.seen)
  {
    hide Select, IdentifiedIds, WantedIds, Wanted, OneRecordPerId, Ids;
    if feeds != [] {
      var n := |feeds| - 1;
      var mid := Run(cfg, s, Commits(feeds[..n]));
      assert Commits(feeds)[..n] == Commits(feeds[..n]);
      assert feeds[n] in feeds && forall f :: f in feeds[..n] ==> f in feeds;
      CommitsList(cfg, universe, s, feeds[..n]);
      CommitsSee(cfg, s, feeds[..n]);
      SelectionFacts(cfg, universe, Full(cfg, mid), feeds[n], mid.seen);
      IdsAppend(mid.listings, Select(Full(cfg, mid), feeds[n], mid.seen).listings);
      WantedAreSeen(cfg, feeds[..n]);
      WantedMeetsIdentified(cfg, universe, feeds[..n], feeds[n]);
    }
  }

  lemma {:induction false} WantedAreSeen(cfg: Config, feeds: seq<seq<Ad>>)
    ensures AllWantedIds(cfg, feeds) <= AllIdentified'(feeds)
  {
    hide IdentifiedIds, WantedIds;
    if feeds != [] {
      WantedAreSeen(cfg, feeds[..|feeds| - 1]);
      WantedAreIdentified(cfg, feeds[|feeds| - 1]);
    }
  }

  /** With one record per id, an id wanted in one feed is wanted wherever it was identified. */
  lemma WantedMeetsIdentified(cfg: Config, universe: set<Ad>, feeds: seq<seq<Ad>>, ads: seq<Ad>)
    requires OneRecordPerId(universe)
    requires (forall f, ad :: f in feeds && ad in f ==> ad in universe) && forall ad :: ad in ads ==> ad in universe
    ensures WantedIds(cfg, ads) * AllIdentified'(feeds) <= AllWantedIds(cfg, feeds)
  {
    forall id | id in WantedIds(cfg, ads) * AllIdentified'(feeds) ensures id in AllWantedIds(cfg, feeds) {
      AllIdsOf(cfg, feeds, id);
      hide Wanted, AllIdentified', AllWantedIds;
      var f :| f in feeds && id in IdentifiedIds(f);
      var a :| a in ads && a.id == id && Wanted(cfg, a);
      var b :| b in f && b.id == id && b.id != "";
      assert a == b;
      assert id in WantedIds(cfg, f);
    }
  }

  /** While the page's wanted adverts fit the budget, no preview is ever cut short. */
  lemma {:induction false} PreviewsAreComplete(cfg: Config, universe: set<Ad>, s: Scan, feeds: seq<seq<Ad>>, wanted: set<string>)
    requires OneRecordPerId(universe) && forall f, ad :: f in feeds && ad in f ==> ad in universe
    requires s.hot <= s.seen
    requires AllWantedIds(cfg, feeds) - s.seen <= wanted && wanted !! s.seen
    requires |s.listings| + |wanted| <= cfg.maxCandidates
    ensures Run(cfg, s, Dispatches(feeds)).hot == s.hot + (AllWantedIds(cfg, feeds) - s.seen)
  {
    hide *;
    if feeds == [] {
      NothingDispatched(cfg, s);
    } else {
      var n := |feeds| - 1;
      var mid := Run(cfg, s, Dispatches(feeds[..n]));
      assert feeds[n] in feeds && forall f :: f in feeds[..n] ==> f in feeds;
      DispatchStep(cfg, s, feeds);
      PreviewsAreComplete(cfg, universe, s, feeds[..n], wanted);
      DispatchesOnlyDispatch(cfg, s, feeds[..n]);
      PreviewIsComplete(cfg, universe, mid, feeds[n], wanted);
      PreviewAdds(mid.hot, s.hot, s.seen, AllWantedIds(cfg, feeds[..n]), WantedIds(cfg, feeds[n]));
    }
  }

  lemma NothingDispatched(cfg: Config, s: Scan)
    ensures Run(cfg, s, Dispatches([])) == s && AllWantedIds(cfg, []) == {}
  {
  }

  lemma DispatchStep(cfg: Config, s: Scan, feeds: seq<seq<Ad>>)
    requires feeds != []
    ensures var n := |feeds| - 1;
            && Run(cfg, s, Dispatches(feeds)) == Apply(cfg, Run(cfg, s, Dispatches(feeds[..n])), Dispatch(feeds[n]))
            && AllWantedIds(cfg, feeds) == AllWantedIds(cfg, feeds[..n]) + WantedIds(cfg, feeds[n])
  {
    hide Apply, WantedIds;
    assert Dispatches(feeds)[..|feeds| - 1] == Dispatches(feeds[..|feeds| - 1]);
  }

  /** While all that is wanted fits the budget, a preview lists every new wanted advert. */
  lemma PreviewIsComplete(cfg: Config, universe: set<Ad>, s: Scan, ads: seq<Ad>, wanted: set<string>)
    requires OneRecordPerId(universe) && forall ad :: ad in ads ==> ad in universe
    requires s.hot - s.seen <= wanted && WantedIds(cfg, ads) - (s.seen + s.hot) <= wanted
    requires |s.listings| + |wanted| <= cfg.maxCandidates
    ensures Apply(cfg, s, Dispatch(ads)).hot == s.hot + (WantedIds(cfg, ads) - (s.seen + s.hot))
  {
    hide Select, WantedIds, OneRecordPerId, Ids, Budget;
    var o := Preview(cfg, s);
    SelectionFacts(cfg, universe, o, ads, s.seen + s.hot);
    BudgetIs(o);
    PreviewFits(cfg, s, wanted, WantedIds(cfg, ads) - (s.seen + s.hot), set id | id in Ids(Select(o, ads, s.seen + s.hot).listings));
  }

  lemma PreviewAdds(hot: set<string>, before: set<string>, seen: set<string>, a: set<string>, b: set<string>)
    requires before <= seen && hot == before + (a - seen)
    ensures hot + (b - (seen + hot)) == before + ((a + b) - seen)
  {
  }

  lemma PreviewFits(cfg: Config, s: Scan, wanted: set<string>, new': set<string>, ids: set<string>)
    requires s.hot - s.seen <= wanted && new' <= wanted && new' !! s.hot
    requires |s.listings| + |wanted| <= cfg.maxCandidates
    requires ids <= new'
    requires ids != new' ==> |ids| == Max(0, cfg.maxCandidates - |s.listings| - |s.hot - s.seen|)
    ensures ids == new'
  {
    SubsetSize(new' + (s.hot - s.seen), wanted);
    assert |new' + (s.hot - s.seen)| == |new'| + |s.hot - s.seen|;
    assert new' == ids + (new' - ids);
    assert |new'| == |ids| + |new' - ids|;
  }

  lemma PageAgrees(cfg: Config, universe: set<Ad>, s: Scan, page: Page)
    requires page.Valid() && page.coverage == []
    requires OneRecordPerId(universe) && Adverts(PageEvents(page)) <= universe
    requires Kept(cfg, universe, s) && s.hot <= s.seen && s.hot == ListingIds(s.listings)
    requires !Run(cfg, s, PageEvents(page)).overflowed
    requires Kept(cfg, universe, Run(cfg, s, PageEvents(page)))
    ensures var t := Run(cfg, s, PageEvents(page)); t.hot == ListingIds(t.listings)
  {
    hide Apply, Run, Wanted, IdentifiedIds, WantedIds, OneRecordPerId, AllWanted;
    var dispatched, committed := page.Dispatched(), page.Committed();
    var mid := Run(cfg, s, Dispatches(dispatched));
    var t := Run(cfg, s, PageEvents(page));
    RunConcat(cfg, s, Dispatches(dispatched), Commits(committed));
    DispatchesOnlyDispatch(cfg, s, dispatched);
    CommitsSee(cfg, mid, committed);
    PageAdverts(page, universe);
    CommitsList(cfg, universe, mid, committed);
    SamePageWanted(cfg, page);
    var wanted := AllWantedIds(cfg, committed) - s.seen;
    ListingIdCount(s);
    ListingIdCount(t);
    assert ListingIds(s.listings) !! wanted;
    assert |ListingIds(t.listings)| == |ListingIds(s.listings)| + |wanted|;
    PreviewsAreComplete(cfg, universe, s, dispatched, wanted);
  }

  lemma SamePageWanted(cfg: Config, page: Page)
    requires page.Valid() && page.coverage == []
    ensures AllWantedIds(cfg, page.Dispatched()) == AllWantedIds(cfg, page.Committed())
  {
    hide WantedIds, IdentifiedIds;
    SameMembers(page.completed, page.direct);
    forall id ensures id in AllWantedIds(cfg, page.Dispatched()) <==> id in AllWantedIds(cfg, page.Committed()) {
      AllIdsOf(cfg, page.Dispatched(), id);
      AllIdsOf(cfg, page.Committed(), id);
      assert forall f :: f in page.Dispatched() <==> f in page.Committed();
    }
  }

  lemma PageAdverts(page: Page, universe: set<Ad>)
    requires Adverts(PageEvents(page)) <= universe
    ensures forall f, ad :: f in page.Dispatched() && ad in f ==> ad in universe
    ensures forall f, ad :: f in page.Committed() && ad in f ==> ad in universe
  {
    var events := PageEvents(page);
    forall f, ad | f in page.Dispatched() && ad in f ensures ad in universe {
      var i :| 0 <= i < |page.Dispatched()| && page.Dispatched()[i] == f;
      assert events[i] == Dispatch(f);
      assert ad in Adverts(events);
    }
    forall f, ad | f in page.Committed() && ad in f ensures ad in universe {
      var i :| 0 <= i < |page.Committed()| && page.Committed()[i] == f;
      assert events[|page.Dispatched()| + i] == Commit(f);
      assert ad in Adverts(events);
    }
  }

  /**
   * The preview agrees with the full pass: when no full pass hit the candidate
   * limit and every feed was dispatched, exactly the listed adverts were handed off.
   */
  lemma {:induction false} PreviewAgreesWithFullPass(cfg: Config, universe: set<Ad>, pages: seq<Page>)
    requires forall p :: p in pages ==> p.Valid() && p.coverage == []
    requires OneRecordPerId(universe) && Adverts(ScanEvents(pages)) <= universe
    requires !Run(cfg, START, ScanEvents(pages)).overflowed
    ensures var t := Run(cfg, START, ScanEvents(pages));
            forall id :: id in t.handedOff <==> id in Ids(t.listings)
  {
    hide Ids, Apply, Wanted, OneRecordPerId;
    HotIsListings(cfg, universe, pages);
    RunKeeps(cfg, universe, ScanEvents(pages));
    var t := Run(cfg, START, ScanEvents(pages));
    assert forall id :: id in t.handedOff <==> id in t.hot;
    assert forall id :: id in Ids(t.listings) <==> id in ListingIds(t.listings);
  }

  lemma {:induction false} HotIsListings(cfg: Config, universe: set<Ad>, pages: seq<Page>)
    requires forall p :: p in pages ==> p.Valid() && p.coverage == []
    requires OneRecordPerId(universe) && Adverts(ScanEvents(pages)) <= universe
    requires !Run(cfg, START, ScanEvents(pages)).overflowed
    ensures var t := Run(cfg, START, ScanEvents(pages)); t.hot == ListingIds(t.listings)
  {
    if pages == [] {
      assert ListingIds(START.listings) == {};
    } else {
      hide Apply, Run, PageEvents, Kept, OneRecordPerId, ListingIds;
      var n := |pages| - 1;
      var before, events := ScanEvents(pages[..n]), PageEvents(pages[n]);
      var mid := Run(cfg, START, before);
      RunConcat(cfg, START, before, events);
      ScanSettles(cfg, pages[..n]);
      PageSettles(cfg, mid, pages[n]);
      assert Adverts(before) <= universe && Adverts(events) <= universe by {
        AdvertsConcat(before, events);
      }
      HotIsListings(cfg, universe, pages[..n]);
      RunKeeps(cfg, universe, before);
      RunKeeps(cfg, universe, before + events);
      PageAgrees(cfg, universe, mid, pages[n]);
    }
  }

  lemma AdvertsConcat(a: seq<Event>, b: seq<Event>)
    ensures Adverts(a + b) == Adverts(a) + Adverts(b)
  {
    assert forall e :: e in a + b <==> e in a || e in b;
  }

  // ----- what a scan lists

  /** A preview hands off the first new wishes that fit beside what is listed and what is handed off but not yet seen. */
  lemma PreviewHandsOffFirstWishes(cfg: Config, s: Scan, ads: seq<Ad>)
    ensures var o := Options(cfg.publishedAfter, cfg.includeRefreshed, cfg.known, cfg.known, {}, cfg.maxCandidates);
            var room := Max(0, cfg.maxCandidates - |s.listings| - |s.hot - s.seen|);
            Apply(cfg, s, Dispatch(ads)).handedOff == s.handedOff + Ids(FirstOf(NewWishes(o, ads, s.seen + s.hot), room))
  {
    ListingsAreFirstWishes(Preview(cfg, s), ads, s.seen + s.hot);
    SameWishes(Options(cfg.publishedAfter, cfg.includeRefreshed, cfg.known, cfg.known, {}, cfg.maxCandidates), Preview(cfg, s), ads, s.seen + s.hot);
    hide Select, NewWishes, Ids, FirstOf;
  }

  /** All adverts the full passes of a run read, in order. */
  function CommittedAds(events: seq<Event>): (ads: seq<Ad>) {
    if events == [] then []
    else
      var e := events[|events| - 1];
      CommittedAds(events[..|events| - 1]) + if e.Commit? then e.ads else []
  }

  /**
   * Whatever is previewed and in whatever order, the scan lists the first
   * maxCandidates adverts that are identified, unknown, normalisable and not
   * certainly old, each id once, of all that the full passes read; the limit is
   * hit exactly when there are more.
   */
  lemma {:induction false} ScanListsFirstWishes(cfg: Config, events: seq<Event>)
    ensures var t := Run(cfg, START, events);
            var o := Options(cfg.publishedAfter, cfg.includeRefreshed, cfg.known, cfg.continuityKnown, {}, cfg.maxCandidates);
            var wishes := NewWishes(o, CommittedAds(events), {});
            && t.listings == FirstOf(wishes, cfg.maxCandidates)
            && (t.overflowed <==> |wishes| > cfg.maxCandidates)
  {
    hide *;
    var o := Options(cfg.publishedAfter, cfg.includeRefreshed, cfg.known, cfg.continuityKnown, {}, cfg.maxCandidates);
    ScanIsOnePass(cfg, events, o);
    ListingsAreFirstWishes(o, CommittedAds(events), {});
    assert Max(0, cfg.maxCandidates) == cfg.maxCandidates by {
      MaxOfNat(cfg.maxCandidates);
    }
  }

  lemma MaxOfNat(n: nat)
    ensures Max(0, n) == n
  {
  }

  lemma {:induction false} ScanIsOnePass(cfg: Config, events: seq<Event>, o: Options)
    requires o == Options(cfg.publishedAfter, cfg.includeRefreshed, cfg.known, cfg.continuityKnown, {}, cfg.maxCandidates)
    ensures var t, r := Run(cfg, START, events), Select(o, CommittedAds(events), {});
            t.listings == r.listings && t.overflowed == r.candidateLimitReached && t.seen == CountedIds(o, CommittedAds(events))
  {
    hide *;
    if events == [] {
      NothingSelected(o, {});
      NothingRun(cfg);
    } else {
      var n := |events| - 1;
      var s, e, ads := Run(cfg, START, events[..n]), events[n], CommittedAds(events[..n]);
      ScanIsOnePass(cfg, events[..n], o);
      RunSnoc(cfg, events);
      CommittedSnoc(events);
      if e.Commit? {
        FullIs(cfg, s, e.ads);
        SelectionJoins(o, ads, e.ads, {});
        NothingRemains(o, |s.listings|);
        SameCountedIds(o, Full(cfg, s), e.ads);
        assert {} + CountedIds(o, ads) == s.seen;
      } else {
        DispatchIs(cfg, s, e.ads);
        assert ads + [] == ads;
      }
    }
  }

  lemma NothingRun(cfg: Config)
    ensures Run(cfg, START, []) == START && CommittedAds([]) == []
    ensures START.listings == [] && START.seen == {} && !START.overflowed
  {
  }

  lemma CommittedSnoc(events: seq<Event>)
    requires events != []
    ensures var e := events[|events| - 1];
            CommittedAds(events) == CommittedAds(events[..|events| - 1]) + if e.Commit? then e.ads else []
  {
  }

  lemma FullIs(cfg: Config, s: Scan, ads: seq<Ad>)
    ensures var o := Options(cfg.publishedAfter, cfg.includeRefreshed, cfg.known, cfg.continuityKnown, {}, cfg.maxCandidates);
            var r, t := Select(Full(cfg, s), ads, s.seen), Apply(cfg, s, Commit(ads));
            && Full(cfg, s) == Remaining(o, |s.listings|)
            && t.listings == s.listings + r.listings && t.overflowed == (s.overflowed || r.candidateLimitReached)
            && t.seen == s.seen + CountedIds(Full(cfg, s), ads)
  {
    hide Select, CountedIds;
  }

  lemma DispatchIs(cfg: Config, s: Scan, ads: seq<Ad>)
    ensures var t := Apply(cfg, s, Dispatch(ads)); t.listings == s.listings && t.seen == s.seen && t.overflowed == s.overflowed
  {
    hide Select;
  }

  // ----- where the guarantees end

  lemma DispatchOne(cfg: Config, s: Scan, ad: Ad)
    ensures Apply(cfg, s, Dispatch([ad]))
            == if Wanted(cfg, ad) && ad.id !in s.seen + s.hot && |s.listings| + |s.hot - s.seen| < cfg.maxCandidates
               then s.(hot := s.hot + {ad.id}, handedOff := s.handedOff + [ad.id]) else s
  {
    hide Select, CountedIds, Wanted, Candidate, Ids, Budget;
    SameCounted(cfg, Preview(cfg, s), [ad]);
    SelectOne(Preview(cfg, s), ad, s.seen + s.hot);
    BudgetIs(Preview(cfg, s));
    IdsOfOne(ad);
  }

  lemma IdsOfOne(ad: Ad)
    ensures Ids([ad]) == [ad.id] && Ids([]) == []
    ensures (set id | id in Ids([ad])) == {ad.id}
    ensures (set id | id in Ids([])) == {}
  {
    assert Ids([ad]) == [ad.id];
  }

  lemma CommitOne(cfg: Config, s: Scan, ad: Ad)
    requires ad.id != ""
    ensures var listed, room := Wanted(cfg, ad) && ad.id !in s.seen, |s.listings| < cfg.maxCandidates;
            Apply(cfg, s, Commit([ad]))
            == Scan(s.seen + {ad.id}, s.hot, s.handedOff, if listed && room then s.listings + [ad] else s.listings,
                 s.overflowed || (listed && !room))
  {
    hide Select, CountedIds, Wanted, Candidate;
    SameCounted(cfg, Full(cfg, s), [ad]);
    SelectOne(Full(cfg, s), ad, s.seen);
    assert Counted(Full(cfg, s), ad);
  }

  lemma RunTwo(cfg: Config, s: Scan, a: Event, b: Event)
    ensures Run(cfg, s, [a, b]) == Apply(cfg, Apply(cfg, s, a), b)
  {
    hide Apply;
    assert [a, b][..1] == [a] && [a][..0] == [];
    assert Run(cfg, s, [a]) == Apply(cfg, Run(cfg, s, []), a);
  }

  const AD_1 := Ad("1", None, None, None, false, true)
  const AD_1_BROKEN := Ad("1", None, None, None, false, false)
  const AD_2 := Ad("2", None, None, None, false, true)
  const ROOM_FOR_ONE := Config(None, false, {}, {}, 1)

  lemma WantedExamples()
    ensures Wanted(ROOM_FOR_ONE, AD_1) && !Wanted(ROOM_FOR_ONE, AD_1_BROKEN) && Wanted(ROOM_FOR_ONE, AD_2)
    ensures AD_1.id == AD_1_BROKEN.id == "1" && AD_2.id == "2" && "1" != "2" && "1" != "" && "2" != ""
  {
  }

  /** Two direct feeds, of which the second completes first. */
  const CROWDED_PAGE := Page([[AD_1], [AD_2]], [[AD_2], [AD_1]], [], [], [])

  /**
   * The limit matters: with room for one listing, the feed that completes first
   * is handed off and then crowded out by the feed that the full pass reads first.
   */
  lemma HandoffCanOutrunListings()
    ensures CROWDED_PAGE.Valid() && Adverts(PageEvents(CROWDED_PAGE)) <= {AD_1, AD_2} && OneRecordPerId({AD_1, AD_2})
    ensures var t := Run(ROOM_FOR_ONE, START, PageEvents(CROWDED_PAGE));
            t.overflowed && t.handedOff == ["2"] && Ids(t.listings) == ["1"]
  {
    CrowdedPageIsValid();
    CrowdedRun();
  }

  lemma CrowdedPageIsValid()
    ensures CROWDED_PAGE.Valid() && Adverts(PageEvents(CROWDED_PAGE)) <= {AD_1, AD_2} && OneRecordPerId({AD_1, AD_2})
  {
    assert multiset([[AD_2], [AD_1]]) == multiset([[AD_1], [AD_2]]);
    assert PageEvents(CROWDED_PAGE) == [Dispatch([AD_2]), Dispatch([AD_1]), Commit([AD_1]), Commit([AD_2])];
    assert "1" != "2";
  }

  const CROWDED_MIDDLE := Scan({}, {"2"}, ["2"], [], false)

  lemma CrowdedRun()
    ensures var t := Run(ROOM_FOR_ONE, START, PageEvents(CROWDED_PAGE));
            t.overflowed && t.handedOff == ["2"] && Ids(t.listings) == ["1"]
  {
    hide Apply, Run, Wanted, Ids;
    var e1, e2, e3, e4 := Dispatch([AD_2]), Dispatch([AD_1]), Commit([AD_1]), Commit([AD_2]);
    assert PageEvents(CROWDED_PAGE) == [e1, e2] + [e3, e4];
    RunConcat(ROOM_FOR_ONE, START, [e1, e2], [e3, e4]);
    CrowdedDispatches();
    CrowdedCommits();
  }

  lemma CrowdedDispatches()
    ensures Run(ROOM_FOR_ONE, START, [Dispatch([AD_2]), Dispatch([AD_1])]) == CROWDED_MIDDLE
  {
    hide Apply, Run, Wanted;
    WantedExamples();
    RunTwo(ROOM_FOR_ONE, START, Dispatch([AD_2]), Dispatch([AD_1]));
    DispatchOne(ROOM_FOR_ONE, START, AD_2);
    assert Apply(ROOM_FOR_ONE, START, Dispatch([AD_2])) == CROWDED_MIDDLE;
    DispatchOne(ROOM_FOR_ONE, CROWDED_MIDDLE, AD_1);
    assert CROWDED_MIDDLE.hot - CROWDED_MIDDLE.seen == {"2"};
  }

  lemma CrowdedCommits()
    ensures var t := Run(ROOM_FOR_ONE, CROWDED_MIDDLE, [Commit([AD_1]), Commit([AD_2])]);
            t.overflowed && t.handedOff == ["2"] && Ids(t.listings) == ["1"]
  {
    hide Apply, Run, Wanted;
    WantedExamples();
    var s3 := Scan({"1"}, {"2"}, ["2"], [AD_1], false);
    RunTwo(ROOM_FOR_ONE, CROWDED_MIDDLE, Commit([AD_1]), Commit([AD_2]));
    CommitOne(ROOM_FOR_ONE, CROWDED_MIDDLE, AD_1);
    assert Apply(ROOM_FOR_ONE, CROWDED_MIDDLE, Commit([AD_1])) == s3;
    CommitOne(ROOM_FOR_ONE, s3, AD_2);
    IdsOfOne(AD_1);
  }

  /** A page whose saved search shows advert 1 in a form that cannot be normalised, and a second page. */
  const CONFLICTING_PAGES := [
    Page([[AD_1]], [[AD_1]], [], [[AD_1_BROKEN]], []),
    Page([[AD_2]], [[AD_2]], [], [], [])
  ]

  /**
   * One record per id matters: when the full pass meets an advert handed off
   * moments ago in a form that cannot be normalised, its place in the budget
   * is given away, and more than maxCandidates are handed off.
   */
  lemma ConflictingRecordsBreakTheBound()
    ensures forall p :: p in CONFLICTING_PAGES ==> p.Valid()
    ensures var t := Run(ROOM_FOR_ONE, START, ScanEvents(CONFLICTING_PAGES));
            t.handedOff == ["1", "2"] && Displaced(t) == {"1"} && !t.overflowed
  {
    hide Apply, Run, Wanted, Displaced;
    var first := [Dispatch([AD_1]), Dispatch([AD_1_BROKEN])] + [Commit([AD_1_BROKEN]), Commit([AD_1])];
    ConflictingEvents();
    RunConcat(ROOM_FOR_ONE, START, first, [Dispatch([AD_2]), Commit([AD_2])]);
    FirstConflictingPage();
    SecondConflictingPage();
    OneIsDisplaced(Run(ROOM_FOR_ONE, START, ScanEvents(CONFLICTING_PAGES)));
  }

  const CONFLICTED := Scan({"1"}, {"1"}, ["1"], [], false)

  lemma FirstConflictingPage()
    ensures Run(ROOM_FOR_ONE, START, [Dispatch([AD_1]), Dispatch([AD_1_BROKEN])] + [Commit([AD_1_BROKEN]), Commit([AD_1])]) == CONFLICTED
  {
    hide Apply, Run, Wanted;
    WantedExamples();
    var e1, e2, e3, e4 := Dispatch([AD_1]), Dispatch([AD_1_BROKEN]), Commit([AD_1_BROKEN]), Commit([AD_1]);
    RunConcat(ROOM_FOR_ONE, START, [e1, e2], [e3, e4]);
    var s1 := Scan({}, {"1"}, ["1"], [], false);
    RunTwo(ROOM_FOR_ONE, START, e1, e2);
    DispatchOne(ROOM_FOR_ONE, START, AD_1);
    assert Apply(ROOM_FOR_ONE, START, e1) == s1;
    DispatchOne(ROOM_FOR_ONE, s1, AD_1_BROKEN);
    RunTwo(ROOM_FOR_ONE, s1, e3, e4);
    CommitOne(ROOM_FOR_ONE, s1, AD_1_BROKEN);
    assert Apply(ROOM_FOR_ONE, s1, e3) == CONFLICTED;
    CommitOne(ROOM_FOR_ONE, CONFLICTED, AD_1);
    assert CONFLICTED.seen + {"1"} == CONFLICTED.seen;
  }

  lemma SecondConflictingPage()
    ensures Run(ROOM_FOR_ONE, CONFLICTED, [Dispatch([AD_2]), Commit([AD_2])])
         == Scan({"1", "2"}, {"1", "2"}, ["1", "2"], [AD_2], false)
  {
    hide Apply, Run, Wanted;
    WantedExamples();
    RunTwo(ROOM_FOR_ONE, CONFLICTED, Dispatch([AD_2]), Commit([AD_2]));
    DispatchOne(ROOM_FOR_ONE, CONFLICTED, AD_2);
    assert CONFLICTED.hot - CONFLICTED.seen == {};
    var dispatched := Scan({"1"}, {"1", "2"}, ["1", "2"], [], false);
    assert Apply(ROOM_FOR_ONE, CONFLICTED, Dispatch([AD_2])) == dispatched;
    CommitOne(ROOM_FOR_ONE, dispatched, AD_2);
  }

  lemma OneIsDisplaced(s: Scan)
    requires s.hot == {"1", "2"} && s.seen == {"1", "2"} && s.listings == [AD_2]
    ensures Displaced(s) == {"1"}
  {
    IdsOfOne(AD_2);
    assert AD_2.id == "2" && "1" != "2";
  }

  lemma ConflictingEvents()
    ensures ScanEvents(CONFLICTING_PAGES)
            == [Dispatch([AD_1]), Dispatch([AD_1_BROKEN])] + [Commit([AD_1_BROKEN]), Commit([AD_1])]
               + [Dispatch([AD_2]), Commit([AD_2])]
  {
    var pages := CONFLICTING_PAGES;
    assert pages[..1] == [pages[0]] && [pages[0]][..0] == [];
    assert PageEvents(pages[0]) == [Dispatch([AD_1]), Dispatch([AD_1_BROKEN])] + [Commit([AD_1_BROKEN]), Commit([AD_1])];
    assert PageEvents(pages[1]) == [Dispatch([AD_2]), Commit([AD_2])];
    assert ScanEvents([pages[0]]) == PageEvents(pages[0]);
  }
}
