/**
 * Mutable-offset recovery. An attempt reads one new page, rereads the page
 * before it and commits the new page only if the reread page is unchanged; the
 * cursor, the overlap page and its evidence are carried to the next attempt.
 */
module OlxRecovery {
  import opened Maybe
  import opened OlxTypes
  import opened OlxSelection
  import opened OlxEvidence
  import opened Ordering

  // ----- the page window

  datatype Window = Window(startPage: int, endPage: int)

  function BackfillPageWindow(pageBudget: int, maxOffsetPages: int, recovery: bool, resume: Option<int>): (w: Window) {
    var cap, budget := Max(1, maxOffsetPages), Max(1, pageBudget);
    var start := if recovery then Min(cap, Max(1, if resume.Some? then resume.value else 1)) else 1;
    Window(start, Min(cap, start + budget - 1))
  }

  /**
   * Every window is a nonempty range of public pages, as long as the budget unless
   * the cap cuts it; it starts at the page to resume from, brought into the
   * public range, and at 1 without one or outside recovery.
   */
  lemma WindowIsBounded(pageBudget: int, maxOffsetPages: int, recovery: bool, resume: Option<int>)
    ensures var w := BackfillPageWindow(pageBudget, maxOffsetPages, recovery, resume);
            && 1 <= w.startPage <= w.endPage <= Max(1, maxOffsetPages)
            && w.endPage - w.startPage < Max(1, pageBudget)
            && (w.endPage == Max(1, maxOffsetPages) || w.endPage - w.startPage + 1 == Max(1, pageBudget))
            && (!recovery || resume.None? || resume.value < 1 ==> w.startPage == 1)
            && (recovery && resume.Some? && 1 <= resume.value <= maxOffsetPages ==> w.startPage == resume.value)
            && (recovery && resume.Some? && resume.value > Max(1, maxOffsetPages) ==> w.startPage == Max(1, maxOffsetPages))
  {
  }

  function NextRecoveryResumePage(startPage: int, lastPageScanned: int): (page: int) {
    if lastPageScanned < startPage then Max(1, startPage) else Max(1, lastPageScanned + 1)
  }

  // ----- what an attempt is given

  datatype Config = Config(
    maxOffsetPages: nat,
    stopThreshold: int,
    minExpectedItems: nat,
    includeRefreshed: bool,
    collation: Collation
  ) {
    ghost predicate Valid() {
      maxOffsetPages >= 1 && collation.Valid()
    }
  }

  /** The durable recovery fields of a search shard. */
  datatype Shard = Shard(
    pending: bool,
    progressPage: Option<int>,
    lastPage: Option<int>,
    overlapPage: Option<int>,
    evidence: seq<Item>
  )

  /** What one page request returned; `extra` holds the feeds that coverage lanes add outside the evidence. */
  datatype PageRead = PageRead(direct: seq<FeedResult>, regional: seq<FeedResult>, extra: seq<FeedResult>) {
    function Core(): (feeds: seq<FeedResult>) {
      direct + regional
    }

    function Feeds(): (feeds: seq<FeedResult>) {
      direct + regional + extra
    }

    predicate HasErrors() {
      exists f :: f in Feeds() && !f.Ads?
    }

    /** The attempt ends without a result: the primary feed is protected, or no feed delivered. */
    predicate Aborts() {
      || (exists f :: f in direct && f.Blocked? && f.primary)
      || (forall f :: f in Feeds() ==> !f.Ads?)
    }

    predicate AllEmpty() {
      forall f :: f in Feeds() && f.Ads? ==> f.ads == []
    }

    predicate Short(minimum: nat) {
      forall f :: f in Feeds() && f.Ads? ==> |f.ads| < minimum
    }
  }

  /** What surrounds an attempt: journals, budget, admission, deadlines and the two page reads. */
  datatype Input = Input(
    publishedAfter: Option<int>,
    known: set<string>,
    anchors: set<string>,
    maxCandidates: nat,
    priorAttempts: nat,
    slot: bool,
    lateForNew: bool,
    lateForOverlap: bool,
    newPage: PageRead,
    overlapRead: PageRead
  )

  datatype Unresolved = UnstablePagination | PublicOffsetCap | SourceExhaustedBeforeBoundary

  datatype NoProgress =
    | BackgroundSlotUnavailable
    | ScanDeadlineReached
    | IncompleteOverlapFeeds
    | IncompletePageFeeds
    | IncompletePageEvidence
    | CandidateBudgetExhausted

  // ----- the tally of one page

  datatype Tally = Tally(
    seen: set<string>,
    listings: seq<Ad>,
    observed: nat,
    limit: bool,
    anchored: bool,
    cutoff: bool
  )

  function FeedOptions(cfg: Config, i: Input, seenBefore: set<string>, room: int): (o: Options) {
    Options(i.publishedAfter, cfg.includeRefreshed, i.known + i.anchors, i.anchors,
      (i.known - i.anchors) + seenBefore, room)
  }

  predicate TailAnchored(cfg: Config, r: Selection) {
    r.identifiableCount > 0 && (r.allKnown || r.knownTailStreak >= Max(1, cfg.stopThreshold))
  }

  function AddFeed(cfg: Config, i: Input, seenBefore: set<string>, t: Tally, ads: seq<Ad>): (u: Tally) {
    var o := FeedOptions(cfg, i, seenBefore, Max(0, i.maxCandidates - |t.listings|));
    var r := Select(o, ads, t.seen);
    Tally(
      t.seen + CountedIds(o, ads),
      t.listings + r.listings,
      t.observed + r.observedCount,
      t.limit || r.candidateLimitReached,
      t.anchored && (ads == [] || TailAnchored(cfg, r)) && !r.candidateLimitReached,
      t.cutoff && (ads == [] || r.fullyBeforeCutoff) && !r.candidateLimitReached)
  }

  function TallyFeeds(cfg: Config, i: Input, seenBefore: set<string>, start: Tally, feeds: seq<FeedResult>): (t: Tally) {
    if feeds == [] then start
    else
      var n := |feeds| - 1;
      var t := TallyFeeds(cfg, i, seenBefore, start, feeds[..n]);
      if feeds[n].Ads? then AddFeed(cfg, i, seenBefore, t, feeds[n].ads) else t
  }

  function PageTally(cfg: Config, i: Input, read: PageRead, seen: set<string>, listings: seq<Ad>): (t: Tally) {
    TallyFeeds(cfg, i, seen, Tally(seen, listings, 0, false, true, i.publishedAfter.Some?), read.Feeds())
  }

  /** The selection loop over the successful feeds of a page. */
  method TallyPage(cfg: Config, i: Input, read: PageRead, seen: IdSet, listings: seq<Ad>) returns (t: Tally)
    modifies seen
    ensures t == PageTally(cfg, i, read, old(seen.ids), listings)
    ensures seen.ids == t.seen
  {
    hide Select, CountedIds, TailAnchored;
    var seenBefore := seen.ids;
    var feeds := read.Feeds();
    t := Tally(seen.ids, listings, 0, false, true, i.publishedAfter.Some?);
    ghost var start := t;
    assert feeds[..0] == [];
    for k := 0 to |feeds|
      invariant t == TallyFeeds(cfg, i, seenBefore, start, feeds[..k])
      invariant seen.ids == t.seen
    {
      assert feeds[..k + 1][..k] == feeds[..k];
      if feeds[k].Ads? {
        var ads := feeds[k].ads;
        ghost var before := t;
        var selection := SelectOlxCandidates(FeedOptions(cfg, i, seenBefore, Max(0, i.maxCandidates - |t.listings|)), ads, seen);
        t := Tally(
          seen.ids,
          t.listings + selection.listings,
          t.observed + selection.observedCount,
          t.limit || selection.candidateLimitReached,
          t.anchored && (ads == [] || TailAnchored(cfg, selection)) && !selection.candidateLimitReached,
          t.cutoff && (ads == [] || selection.fullyBeforeCutoff) && !selection.candidateLimitReached);
        assert t == AddFeed(cfg, i, seenBefore, before, ads);
      }
    }
    assert feeds[..|feeds|] == feeds;
  }

  // ----- one attempt

  /** The variables an attempt reports from; `limited` says that a degraded reason was set. */
  datatype Report = Report(
    progressPage: int,
    overlapPage: Option<int>,
    evidence: seq<Item>,
    anchored: bool,
    cutoffReached: bool,
    unresolved: Option<Unresolved>,
    noProgress: Option<NoProgress>,
    lastPageScanned: int,
    parserDegraded: bool,
    limited: bool,
    observed: nat
  )

  /** What the new page would commit once the overlap is revalidated. */
  datatype Pending = Pending(evidence: seq<Item>, anchored: bool, cutoff: bool)

  datatype Visit = Abort | Stop(report: Report) | Continue(report: Report, tally: Tally, pending: Option<Pending>)

  datatype Outcome = Aborted | Finished(verified: bool, report: Report)

  function StartPage(cfg: Config, s: Shard): (page: int) {
    BackfillPageWindow(1, cfg.maxOffsetPages, true, if s.progressPage.Some? then s.progressPage else s.lastPage).startPage
  }

  predicate UsableOverlap(cfg: Config, s: Shard) {
    var start := StartPage(cfg, s);
    start > 1 && s.overlapPage == Some(start - 1) && |s.evidence| > 0 && s.evidence[0] == Tag(EVIDENCE_VERSION)
  }

  /** A page to validate, but nothing to validate it with. */
  predicate DeadEnd(cfg: Config, s: Shard) {
    StartPage(cfg, s) > 1 && !UsableOverlap(cfg, s)
  }

  function Initially(cfg: Config, s: Shard): (v: Report) {
    var start := StartPage(cfg, s);
    Report(start, s.overlapPage, s.evidence, false, false,
      if DeadEnd(cfg, s) then Some(UnstablePagination) else None, None, start - 1, false, DeadEnd(cfg, s), 0)
  }

  function EvidenceFor(cfg: Config, read: PageRead): (e: seq<Item>) {
    EvidenceOf(cfg.collation, read.Core())
  }

  /** Complete transport and unambiguous evidence. */
  predicate Complete(cfg: Config, read: PageRead) {
    !read.HasErrors() && |EvidenceFor(cfg, read)| > 1
  }

  function NewTally(cfg: Config, i: Input): (t: Tally) {
    PageTally(cfg, i, i.newPage, {}, [])
  }

  /** The new page may move the cursor past itself. */
  predicate Committable(cfg: Config, i: Input) {
    Complete(cfg, i.newPage) && NewTally(cfg, i).observed > 0 && !NewTally(cfg, i).limit
  }

  function EmptyPageReason(observed: nat, priorAttempts: nat): (r: Option<Unresolved>) {
    if observed > 0 || priorAttempts >= 2 then Some(SourceExhaustedBeforeBoundary) else None
  }

  function Commit(v: Report, page: int, evidence: seq<Item>): (w: Report) {
    v.(progressPage := NextRecoveryResumePage(page, page), overlapPage := Some(page), evidence := evidence)
  }

  function VisitNew(cfg: Config, s: Shard, i: Input): (visit: Visit) {
    var start, v := StartPage(cfg, s), Initially(cfg, s);
    if !i.slot then Stop(v.(noProgress := Some(BackgroundSlotUnavailable), limited := true))
    else if i.lateForNew then Stop(v.(noProgress := Some(ScanDeadlineReached), limited := true))
    else if i.newPage.Aborts() then Abort
    else
      var t, e := NewTally(cfg, i), EvidenceFor(cfg, i.newPage);
      var complete, committable, usable := Complete(cfg, i.newPage), Committable(cfg, i), UsableOverlap(cfg, s);
      var read := v.(
        lastPageScanned := start,
        parserDegraded := start == 1 && i.newPage.Short(cfg.minExpectedItems),
        limited := i.newPage.HasErrors() || (start == 1 && i.newPage.Short(cfg.minExpectedItems)),
        observed := t.observed,
        noProgress :=
          if |e| < 2 then Some(IncompletePageEvidence)
          else if i.newPage.HasErrors() then Some(IncompletePageFeeds) else None);
      var w := if committable && !usable then Commit(read, start, e) else read;
      if i.newPage.AllEmpty() then Stop(w.(unresolved := EmptyPageReason(t.observed, i.priorAttempts), limited := true))
      else if t.limit then Stop(w.(noProgress := Some(CandidateBudgetExhausted), limited := true))
      else if usable && committable then Continue(w, t, Some(Pending(e, t.anchored, t.cutoff)))
      else if complete && t.cutoff then Stop(w.(cutoffReached := true))
      else if complete && t.anchored then Stop(w.(anchored := true))
      else if |t.listings| >= i.maxCandidates || !usable then Stop(w)
      else Continue(w, t, None)
  }

  predicate OverlapUnchanged(cfg: Config, s: Shard, i: Input) {
    !i.overlapRead.HasErrors() && Matches(s.evidence, EvidenceFor(cfg, i.overlapRead))
  }

  function VisitOverlap(cfg: Config, s: Shard, i: Input, v: Report, t: Tally, pending: Option<Pending>): (visit: Visit) {
    var start := StartPage(cfg, s);
    if i.lateForOverlap then Stop(v.(noProgress := Some(ScanDeadlineReached), limited := true))
    else if i.overlapRead.Aborts() then Abort
    else
      var short := start == 2 && i.overlapRead.Short(cfg.minExpectedItems);
      var w := v.(parserDegraded := v.parserDegraded || short, limited := v.limited || i.overlapRead.HasErrors() || short);
      Stop(Revalidated(cfg, s, i, w, t.seen, t.listings, pending))
  }

  function Revalidated(cfg: Config, s: Shard, i: Input, v: Report, seen: set<string>, listings: seq<Ad>, pending: Option<Pending>)
    : (w: Report)
  {
    if pending.Some? && OverlapUnchanged(cfg, s, i) then
      Commit(v, StartPage(cfg, s), pending.value.evidence).(
        cutoffReached := v.cutoffReached || pending.value.cutoff,
        anchored := v.anchored || (!pending.value.cutoff && pending.value.anchored))
    else
      var t := PageTally(cfg, i, i.overlapRead, seen, listings);
      var w := v.(limited := true, observed := v.observed + t.observed);
      if t.limit then w.(noProgress := Some(CandidateBudgetExhausted))
      else if !i.overlapRead.HasErrors() && pending.Some? then w.(unresolved := Some(UnstablePagination))
      else w.(noProgress := Some(IncompleteOverlapFeeds))
  }

  /** The offset ceiling, and the verdict. */
  function Conclude(cfg: Config, v: Report): (o: Outcome) {
    var capped :=
      !v.anchored && !v.cutoffReached && v.unresolved.None? && v.noProgress.None? && v.lastPageScanned >= cfg.maxOffsetPages;
    var unresolved := if capped then Some(PublicOffsetCap) else v.unresolved;
    Finished(!v.parserDegraded && unresolved.None? && (v.anchored || v.cutoffReached),
      v.(unresolved := unresolved, limited := v.limited || capped))
  }

  function Ended(cfg: Config, visit: Visit): (o: Outcome) {
    match visit
    case Abort => Aborted
    case Stop(v) => Conclude(cfg, v)
    case Continue(v, _, _) => Conclude(cfg, v)
  }

  function Attempt(cfg: Config, s: Shard, i: Input): (o: Outcome) {
    if DeadEnd(cfg, s) then Conclude(cfg, Initially(cfg, s))
    else
      var first := VisitNew(cfg, s, i);
      if first.Continue? then Ended(cfg, VisitOverlap(cfg, s, i, first.report, first.tally, first.pending))
      else Ended(cfg, first)
  }

  /** The overlap branch of the loop: commit what is pending, or journal the shifted page and give up. */
  method RevalidateOverlap(cfg: Config, s: Shard, i: Input, before: Report, evidence: seq<Item>, pending: Option<Pending>,
    seen: IdSet, listings: seq<Ad>)
    returns (v: Report)
    requires evidence == EvidenceFor(cfg, i.overlapRead)
    modifies seen
    ensures v == Revalidated(cfg, s, i, before, old(seen.ids), listings, pending)
  {
    hide PageTally, EvidenceOf, Matches, BackfillPageWindow;
    var start, read := StartPage(cfg, s), i.overlapRead;
    v := before;
    if pending.Some? && !read.HasErrors() && Matches(s.evidence, evidence) {
      v := v.(progressPage := NextRecoveryResumePage(start, start), overlapPage := Some(start), evidence := pending.value.evidence);
      if pending.value.cutoff {
        v := v.(cutoffReached := true);
      } else if pending.value.anchored {
        v := v.(anchored := true);
      }
      return;
    }
    // A shifted overlap is still journaled before the attempt gives up.
    var tally := TallyPage(cfg, i, read, seen, listings);
    v := v.(limited := true, observed := v.observed + tally.observed);
    if tally.limit {
      v := v.(noProgress := Some(CandidateBudgetExhausted));
    } else if !read.HasErrors() && pending.Some? {
      v := v.(unresolved := Some(UnstablePagination));
    } else {
      v := v.(noProgress := Some(IncompleteOverlapFeeds));
    }
  }

  /** The rest of the loop body for a page that is no overlap: what it commits, keeps pending or ends with. */
  method JudgeNewPage(cfg: Config, s: Shard, i: Input, before: Report, t: Tally, evidence: seq<Item>, usable: bool)
    returns (v: Report, pending: Option<Pending>, stop: bool)
    requires ReadsNew(i) && StartPage(cfg, s) >= 1
    requires t == NewTally(cfg, i) && evidence == EvidenceFor(cfg, i.newPage) && usable == UsableOverlap(cfg, s)
    requires before == Initially(cfg, s).(
      lastPageScanned := StartPage(cfg, s),
      parserDegraded := StartPage(cfg, s) == 1 && i.newPage.Short(cfg.minExpectedItems),
      limited := before.limited,
      observed := t.observed)
    requires before.limited == (i.newPage.HasErrors() || before.parserDegraded)
    ensures VisitNew(cfg, s, i) == if stop then Stop(v) else Continue(v, t, pending)
  {
    hide NewTally, EvidenceFor, StartPage, UsableOverlap, DeadEnd, EmptyPageReason;
    hide PageRead.HasErrors, PageRead.Aborts, PageRead.AllEmpty, PageRead.Short;
    var start, read := StartPage(cfg, s), i.newPage;
    v, pending, stop := before, None, true;
    var anchored, cutoff := t.anchored, t.cutoff;
    if read.HasErrors() {
      anchored, cutoff := false, false;
      v := v.(noProgress := Some(IncompletePageFeeds));
    }
    if |evidence| < 2 {
      anchored, cutoff := false, false;
      v := v.(noProgress := Some(IncompletePageEvidence));
    }
    if t.observed > 0 && !read.HasErrors() && |evidence| > 1 && !t.limit {
      if usable {
        pending := Some(Pending(evidence, anchored, cutoff));
      } else {
        v := v.(progressPage := NextRecoveryResumePage(start, start), overlapPage := Some(start), evidence := evidence);
      }
    }
    if read.AllEmpty() {
      v := v.(unresolved := EmptyPageReason(t.observed, i.priorAttempts), limited := true);
      return;
    }
    if t.limit {
      v := v.(noProgress := Some(CandidateBudgetExhausted), limited := true);
      return;
    }
    if !(usable && pending.Some?) {
      if cutoff {
        v := v.(cutoffReached := true);
        return;
      }
      if anchored {
        v := v.(anchored := true);
        return;
      }
      if |t.listings| >= i.maxCandidates {
        return;
      }
    }
    stop := !usable;
  }

  lemma UsableIs(cfg: Config, s: Shard)
    ensures UsableOverlap(cfg, s) ==> StartPage(cfg, s) > 1 && s.overlapPage == Some(StartPage(cfg, s) - 1)
  {
  }

  /** The recovery part of OlxCollector.collect: a loop over the pages of the attempt. */
  method CollectRecovery(cfg: Config, s: Shard, i: Input) returns (o: Outcome)
    requires cfg.Valid()
    ensures o == Attempt(cfg, s, i)
  {
    hide PageTally, EvidenceOf, Matches, BackfillPageWindow, EmptyPageReason, NextRecoveryResumePage;
    hide Revalidated, PageRead.HasErrors, PageRead.Aborts, PageRead.AllEmpty, PageRead.Short;
    hide StartPage, Conclude, PageRead.Core, PageRead.Feeds, UsableOverlap;
    StartPageBounds(cfg, s);
    var start := StartPage(cfg, s);
    var usable := UsableOverlap(cfg, s);
    UsableIs(cfg, s);
    var v := Report(start, s.overlapPage, s.evidence, false, false, None, None, start - 1, false, false, 0);
    if start > 1 && !usable {
      v := v.(unresolved := Some(UnstablePagination), limited := true);
    }
    var pages: seq<int> := if v.unresolved.Some? then [] else if usable then [start, start - 1] else [start];
    var seen := new IdSet({});
    var listings: seq<Ad> := [];
    var pending: Option<Pending> := None;
    ghost var first := VisitNew(cfg, s, i);
    ghost var tally := Tally({}, [], 0, false, false, false);
    var k := 0;
    while k < |pages|
      invariant 0 <= k <= |pages| && k <= 1
      invariant k == 0 ==> v == Initially(cfg, s) && pending.None? && seen.ids == {} && listings == []
      invariant k == 1 && usable ==> first == Continue(v, tally, pending) && seen.ids == tally.seen && listings == tally.listings
      invariant k == 1 && !usable ==> first == Stop(v)
    {
      var page := pages[k];
      if k == 0 && !i.slot {
        v := v.(noProgress := Some(BackgroundSlotUnavailable), limited := true);
        break;
      }
      if (if k == 0 then i.lateForNew else i.lateForOverlap) {
        v := v.(noProgress := Some(ScanDeadlineReached), limited := true);
        break;
      }
      var read := if k == 0 then i.newPage else i.overlapRead;
      if read.Aborts() {
        return Aborted;
      }
      if page == 1 && read.Short(cfg.minExpectedItems) {
        v := v.(parserDegraded := true, limited := true);
      }
      if read.HasErrors() {
        v := v.(limited := true);
      }
      v := v.(lastPageScanned := Max(v.lastPageScanned, page));
      var evidence := PageEvidence(cfg.collation, read.Core());
      if usable && Some(page) == s.overlapPage {
        v := RevalidateOverlap(cfg, s, i, v, evidence, pending, seen, listings);
        break;
      }
      var t := TallyPage(cfg, i, read, seen, listings);
      listings := t.listings;
      var stop: bool;
      v, pending, stop := JudgeNewPage(cfg, s, i, v.(observed := v.observed + t.observed), t, evidence, usable);
      if stop {
        break;
      }
      tally := t;
      k := k + 1;
    }
    o := Conclude(cfg, v);
  }

  // ----- what the signals of a page mean

  /** The stop signals of a feed, which depend neither on what was seen before nor on the budget. */
  function Signals(cfg: Config, i: Input, seenBefore: set<string>, ads: seq<Ad>): (r: Selection) {
    Select(FeedOptions(cfg, i, seenBefore, 0), ads, {})
  }

  predicate FeedAnchored(cfg: Config, i: Input, seenBefore: set<string>, ads: seq<Ad>) {
    ads == [] || TailAnchored(cfg, Signals(cfg, i, seenBefore, ads))
  }

  predicate FeedBeforeCutoff(cfg: Config, i: Input, seenBefore: set<string>, ads: seq<Ad>) {
    ads == [] || Signals(cfg, i, seenBefore, ads).fullyBeforeCutoff
  }

  predicate AllAnchored(cfg: Config, i: Input, seenBefore: set<string>, feeds: seq<FeedResult>) {
    forall f :: f in feeds && f.Ads? ==> FeedAnchored(cfg, i, seenBefore, f.ads)
  }

  predicate AllBeforeCutoff(cfg: Config, i: Input, seenBefore: set<string>, feeds: seq<FeedResult>) {
    i.publishedAfter.Some? && forall f :: f in feeds && f.Ads? ==> FeedBeforeCutoff(cfg, i, seenBefore, f.ads)
  }

  lemma {:induction false} SameCountedAds(o: Options, p: Options, ads: seq<Ad>)
    requires o.publishedAfter == p.publishedAfter && o.includeRefreshed == p.includeRefreshed && o.ignore == p.ignore
    ensures CountedAds(o, ads) == CountedAds(p, ads)
    ensures forall ad :: Before(o, ad) <==> Before(p, ad)
  {
    if ads != [] {
      hide BeforeCutoff, PublishedAt;
      SameCountedAds(o, p, ads[..|ads| - 1]);
    }
  }

  lemma SignalsAreIndependent(cfg: Config, i: Input, seenBefore: set<string>, room: int, ads: seq<Ad>, seen: set<string>)
    ensures var r, q := Select(FeedOptions(cfg, i, seenBefore, room), ads, seen), Signals(cfg, i, seenBefore, ads);
            && r.identifiableCount == q.identifiableCount && r.allKnown == q.allKnown
            && r.knownTailStreak == q.knownTailStreak && r.fullyBeforeCutoff == q.fullyBeforeCutoff
            && TailAnchored(cfg, r) == TailAnchored(cfg, q)
  {
    hide BeforeCutoff, PublishedAt, Before, CountedAds, TailStreak, Classes, Chosen, ScannedIds, Oldest, CountedIds;
    var o, p := FeedOptions(cfg, i, seenBefore, room), FeedOptions(cfg, i, seenBefore, 0);
    SameCountedAds(o, p, ads);
    NoIdClass(o, ads, seen);
    NoIdClass(p, ads, {});
  }

  lemma AddFeedSignals(cfg: Config, i: Input, seenBefore: set<string>, t: Tally, ads: seq<Ad>)
    ensures var u := AddFeed(cfg, i, seenBefore, t, ads);
            && (t.limit ==> u.limit)
            && (u.cutoff ==> t.cutoff)
            && (!u.limit ==> (u.anchored <==> t.anchored && FeedAnchored(cfg, i, seenBefore, ads)))
            && (!u.limit ==> (u.cutoff <==> t.cutoff && FeedBeforeCutoff(cfg, i, seenBefore, ads)))
  {
    hide Select, CountedIds, Signals, TailAnchored, FeedOptions;
    SignalsAreIndependent(cfg, i, seenBefore, Max(0, i.maxCandidates - |t.listings|), ads, t.seen);
  }

  lemma AllSignalsSplit(cfg: Config, i: Input, seenBefore: set<string>, feeds: seq<FeedResult>)
    requires feeds != []
    ensures var rest, f := feeds[..|feeds| - 1], feeds[|feeds| - 1];
            && (AllAnchored(cfg, i, seenBefore, feeds)
                <==> AllAnchored(cfg, i, seenBefore, rest) && (f.Ads? ==> FeedAnchored(cfg, i, seenBefore, f.ads)))
            && (AllBeforeCutoff(cfg, i, seenBefore, feeds)
                <==> AllBeforeCutoff(cfg, i, seenBefore, rest) && (f.Ads? ==> FeedBeforeCutoff(cfg, i, seenBefore, f.ads)))
  {
    hide FeedAnchored, FeedBeforeCutoff;
    var rest, last := feeds[..|feeds| - 1], feeds[|feeds| - 1];
    assert feeds == rest + [last];
    assert forall f :: f in feeds <==> f in rest || f == last;
  }

  /** A page is anchored, or before the cutoff, exactly when each of its feeds is, and nothing overflowed. */
  lemma {:induction false} TallySignals(cfg: Config, i: Input, seenBefore: set<string>, start: Tally, feeds: seq<FeedResult>)
    ensures var t := TallyFeeds(cfg, i, seenBefore, start, feeds);
            && (start.limit ==> t.limit)
            && (!t.limit ==> (t.anchored <==> start.anchored && AllAnchored(cfg, i, seenBefore, feeds)))
            && (!t.limit && i.publishedAfter.Some? ==> (t.cutoff <==> start.cutoff && AllBeforeCutoff(cfg, i, seenBefore, feeds)))
            && (t.cutoff ==> start.cutoff)
  {
    if feeds != [] {
      hide AddFeed, FeedAnchored, FeedBeforeCutoff, AllAnchored, AllBeforeCutoff;
      var n := |feeds| - 1;
      TallySignals(cfg, i, seenBefore, start, feeds[..n]);
      AllSignalsSplit(cfg, i, seenBefore, feeds);
      if feeds[n].Ads? {
        AddFeedSignals(cfg, i, seenBefore, TallyFeeds(cfg, i, seenBefore, start, feeds[..n]), feeds[n].ads);
      }
    }
  }

  /** Signals need adverts: a nonempty feed whose adverts all fail to count is neither anchored nor before the cutoff. */
  lemma UncountedFeedSignalsNothing(cfg: Config, i: Input, seenBefore: set<string>, ads: seq<Ad>)
    requires ads != [] && CountedIds(FeedOptions(cfg, i, seenBefore, 0), ads) == {}
    ensures !FeedAnchored(cfg, i, seenBefore, ads) && !FeedBeforeCutoff(cfg, i, seenBefore, ads)
  {
    hide BeforeCutoff, PublishedAt, Before, Neutral, CountedAds, TailStreak, Classes, Chosen, ScannedIds, Oldest;
    var o := FeedOptions(cfg, i, seenBefore, 0);
    CountedMembers(o, ads);
    assert forall ad :: ad in ads && Counted(o, ad) ==> ad.id in CountedIds(o, ads);
  }

  lemma {:induction false} ObservesEveryCounted(cfg: Config, i: Input, seenBefore: set<string>, feeds: seq<FeedResult>, start: Tally)
    requires start.seen == {} && start.observed == 0
    ensures var t := TallyFeeds(cfg, i, seenBefore, start, feeds);
            t.observed == 0 ==>
              t.seen == {} && forall f :: f in feeds && f.Ads? ==> CountedIds(FeedOptions(cfg, i, seenBefore, 0), f.ads) == {}
  {
    if feeds != [] {
      hide CountedIds, TailAnchored, Classes, Chosen, ScannedIds, Oldest, CountedAds, TailStreak;
      var n := |feeds| - 1;
      ObservesEveryCounted(cfg, i, seenBefore, feeds[..n], start);
      assert forall f :: f in feeds <==> f in feeds[..n] || f == feeds[n];
      if feeds[n].Ads? {
        var t := TallyFeeds(cfg, i, seenBefore, start, feeds[..n]);
        var o := FeedOptions(cfg, i, seenBefore, Max(0, i.maxCandidates - |t.listings|));
        SameCountedIds(o, FeedOptions(cfg, i, seenBefore, 0), feeds[n].ads);
        if t.observed == 0 && Select(o, feeds[n].ads, t.seen).observedCount == 0 {
          assert CountedIds(o, feeds[n].ads) - {} == {};
        }
      }
    }
  }

  lemma SameCountedIds(o: Options, p: Options, ads: seq<Ad>)
    requires o.publishedAfter == p.publishedAfter && o.includeRefreshed == p.includeRefreshed && o.ignore == p.ignore
    ensures CountedIds(o, ads) == CountedIds(p, ads)
  {
    hide BeforeCutoff, PublishedAt;
    assert forall ad :: Counted(o, ad) <==> Counted(p, ad);
  }

  /** The boundary of the missing range lies on this page, by its known tail or by the cutoff. */
  predicate BoundaryReached(cfg: Config, i: Input) {
    AllAnchored(cfg, i, {}, i.newPage.Feeds()) || AllBeforeCutoff(cfg, i, {}, i.newPage.Feeds())
  }

  lemma BoundarySignals(cfg: Config, i: Input)
    ensures var t := NewTally(cfg, i);
            && (!t.limit ==> (t.anchored || t.cutoff <==> BoundaryReached(cfg, i)))
            && (!t.limit ==> (t.cutoff <==> AllBeforeCutoff(cfg, i, {}, i.newPage.Feeds())))
            && (t.observed == 0 && !i.newPage.AllEmpty() ==> !BoundaryReached(cfg, i))
  {
    hide AllAnchored, TallyFeeds;
    var start := Tally({}, [], 0, false, true, i.publishedAfter.Some?);
    var feeds := i.newPage.Feeds();
    TallySignals(cfg, i, {}, start, feeds);
    ObservesEveryCounted(cfg, i, {}, feeds, start);
    if NewTally(cfg, i).observed == 0 && !i.newPage.AllEmpty() {
      SilentPage(cfg, i);
    }
  }

  lemma SilentPage(cfg: Config, i: Input)
    requires NewTally(cfg, i).observed == 0 && !i.newPage.AllEmpty()
    ensures !BoundaryReached(cfg, i)
  {
    hide Signals, CountedIds, TallyFeeds, FeedAnchored, FeedBeforeCutoff;
    ObservesEveryCounted(cfg, i, {}, i.newPage.Feeds(), Tally({}, [], 0, false, true, i.publishedAfter.Some?));
    var f :| f in i.newPage.Feeds() && f.Ads? && f.ads != [];
    UncountedFeedSignalsNothing(cfg, i, {}, f.ads);
  }

  // ----- the tally, stated over the adverts

  /** All adverts of the successful feeds, feed after feed. */
  function JoinedAds(feeds: seq<FeedResult>): (ads: seq<Ad>) {
    if feeds == [] then []
    else
      var f := feeds[|feeds| - 1];
      JoinedAds(feeds[..|feeds| - 1]) + if f.Ads? then f.ads else []
  }

  lemma {:induction false} TallyIsJoint(cfg: Config, i: Input, seenBefore: set<string>, start: Tally, feeds: seq<FeedResult>)
    ensures var t, ads := TallyFeeds(cfg, i, seenBefore, start, feeds), JoinedAds(feeds);
            var o := FeedOptions(cfg, i, seenBefore, Max(0, i.maxCandidates - |start.listings|));
            var r := Select(o, ads, start.seen);
            && t.listings == start.listings + r.listings
            && t.limit == (start.limit || r.candidateLimitReached)
            && t.seen == start.seen + CountedIds(o, ads)
            && t.observed == start.observed + |CountedIds(o, ads) - start.seen|
  {
    hide *;
    if feeds == [] {
      NothingTallied(cfg, i, seenBefore, start);
    } else {
      var n := |feeds| - 1;
      TallyIsJoint(cfg, i, seenBefore, start, feeds[..n]);
      TallyStep(cfg, i, seenBefore, start, feeds);
      if feeds[n].Ads? {
        JointStep(cfg, i, seenBefore, start, TallyFeeds(cfg, i, seenBefore, start, feeds[..n]), JoinedAds(feeds[..n]), feeds[n].ads);
      }
    }
  }

  lemma NothingTallied(cfg: Config, i: Input, seenBefore: set<string>, start: Tally)
    ensures TallyFeeds(cfg, i, seenBefore, start, []) == start && JoinedAds([]) == []
    ensures var o := FeedOptions(cfg, i, seenBefore, Max(0, i.maxCandidates - |start.listings|));
            && Select(o, [], start.seen).listings == [] && !Select(o, [], start.seen).candidateLimitReached
            && CountedIds(o, []) == {} && |CountedIds(o, []) - start.seen| == 0
  {
    NothingSelected(FeedOptions(cfg, i, seenBefore, Max(0, i.maxCandidates - |start.listings|)), start.seen);
  }

  lemma TallyStep(cfg: Config, i: Input, seenBefore: set<string>, start: Tally, feeds: seq<FeedResult>)
    requires feeds != []
    ensures var f, t := feeds[|feeds| - 1], TallyFeeds(cfg, i, seenBefore, start, feeds[..|feeds| - 1]);
            && TallyFeeds(cfg, i, seenBefore, start, feeds) == (if f.Ads? then AddFeed(cfg, i, seenBefore, t, f.ads) else t)
            && JoinedAds(feeds) == (if f.Ads? then JoinedAds(feeds[..|feeds| - 1]) + f.ads else JoinedAds(feeds[..|feeds| - 1]))
  {
    hide AddFeed;
  }

  /** One more feed read with what is left of the budget is one longer feed. */
  lemma JointStep(cfg: Config, i: Input, seenBefore: set<string>, start: Tally, t: Tally, before: seq<Ad>, ads: seq<Ad>)
    requires var o := FeedOptions(cfg, i, seenBefore, Max(0, i.maxCandidates - |start.listings|));
             var r := Select(o, before, start.seen);
             && t.listings == start.listings + r.listings
             && t.limit == (start.limit || r.candidateLimitReached)
             && t.seen == start.seen + CountedIds(o, before)
             && t.observed == start.observed + |CountedIds(o, before) - start.seen|
    ensures var o := FeedOptions(cfg, i, seenBefore, Max(0, i.maxCandidates - |start.listings|));
            var u, r := AddFeed(cfg, i, seenBefore, t, ads), Select(o, before + ads, start.seen);
            && u.listings == start.listings + r.listings
            && u.limit == (start.limit || r.candidateLimitReached)
            && u.seen == start.seen + CountedIds(o, before + ads)
            && u.observed == start.observed + |CountedIds(o, before + ads) - start.seen|
  {
    hide *;
    var o := FeedOptions(cfg, i, seenBefore, Max(0, i.maxCandidates - |start.listings|));
    var first := Select(o, before, start.seen).listings;
    var rest := FeedOptions(cfg, i, seenBefore, Max(0, i.maxCandidates - |t.listings|));
    RestIsRemaining(cfg, i, seenBefore, |start.listings|, |first|);
    AddedFeed(cfg, i, seenBefore, t, ads);
    SelectionJoins(o, before, ads, start.seen);
    RestCounts(o, rest, ads, |first|);
    ObservedAre(rest, ads, t.seen);
    CountedIdsAre(rest, ads);
    NewlyCounted(CountedIds(o, before), CountedIds(o, ads), start.seen);
    assert start.listings + (first + Select(rest, ads, t.seen).listings) == start.listings + first + Select(rest, ads, t.seen).listings;
  }

  lemma RestIsRemaining(cfg: Config, i: Input, seenBefore: set<string>, before: nat, more: nat)
    ensures var o := FeedOptions(cfg, i, seenBefore, Max(0, i.maxCandidates - before));
            FeedOptions(cfg, i, seenBefore, Max(0, i.maxCandidates - (before + more))) == Remaining(o, more)
  {
  }

  lemma AddedFeed(cfg: Config, i: Input, seenBefore: set<string>, t: Tally, ads: seq<Ad>)
    ensures var o := FeedOptions(cfg, i, seenBefore, Max(0, i.maxCandidates - |t.listings|));
            var u, r := AddFeed(cfg, i, seenBefore, t, ads), Select(o, ads, t.seen);
            && u.listings == t.listings + r.listings && u.limit == (t.limit || r.candidateLimitReached)
            && u.seen == t.seen + CountedIds(o, ads) && u.observed == t.observed + r.observedCount
  {
    hide Select, CountedIds, FeedOptions, TailAnchored;
  }

  lemma RestCounts(o: Options, rest: Options, ads: seq<Ad>, listed: nat)
    requires rest == Remaining(o, listed)
    ensures CountedIds(rest, ads) == CountedIds(o, ads)
  {
    SameCountedIds(rest, o, ads);
  }

  lemma NewlyCounted(a: set<string>, b: set<string>, seen: set<string>)
    ensures |(a + b) - seen| == |a - seen| + |b - (seen + a)|
    ensures seen + (a + b) == seen + a + b
  {
    assert (a + b) - seen == (a - seen) + (b - (seen + a));
  }

  /**
   * What a page read adds, for any number of feeds: of the identified adverts
   * that are unknown, normalisable and not certainly old, the first that fit are
   * listed, each id once; the limit is hit exactly when there are more; and the
   * observed count is the number of new ids that count.
   */
  lemma PageTallyMeans(cfg: Config, i: Input, read: PageRead, seen: set<string>, listings: seq<Ad>)
    ensures var room := Max(0, i.maxCandidates - |listings|);
            var o := Options(i.publishedAfter, cfg.includeRefreshed, i.known + i.anchors, i.anchors, (i.known - i.anchors) + seen, room);
            var t, ads := PageTally(cfg, i, read, seen, listings), JoinedAds(read.Feeds());
            && t.listings == listings + FirstOf(NewWishes(o, ads, seen), room)
            && (t.limit <==> |NewWishes(o, ads, seen)| > room)
            && t.seen == seen + CountingIds(o, ads)
            && t.observed == |CountingIds(o, ads) - seen|
  {
    hide *;
    var room := Max(0, i.maxCandidates - |listings|);
    var o := Options(i.publishedAfter, cfg.includeRefreshed, i.known + i.anchors, i.anchors, (i.known - i.anchors) + seen, room);
    PageStart(cfg, i, read, seen, listings, room);
    TallyIsJoint(cfg, i, seen, Tally(seen, listings, 0, false, true, i.publishedAfter.Some?), read.Feeds());
    ListingsAreFirstWishes(o, JoinedAds(read.Feeds()), seen);
    CountedIdsAre(o, JoinedAds(read.Feeds()));
  }

  lemma PageStart(cfg: Config, i: Input, read: PageRead, seen: set<string>, listings: seq<Ad>, room: int)
    requires room == Max(0, i.maxCandidates - |listings|)
    ensures FeedOptions(cfg, i, seen, room)
         == Options(i.publishedAfter, cfg.includeRefreshed, i.known + i.anchors, i.anchors, (i.known - i.anchors) + seen, room)
    ensures PageTally(cfg, i, read, seen, listings)
         == TallyFeeds(cfg, i, seen, Tally(seen, listings, 0, false, true, i.publishedAfter.Some?), read.Feeds())
    ensures Max(0, room) == room
  {
    hide TallyFeeds;
  }

  // ----- the boundary, stated over the adverts

  /** Certainly published before the recovery cutoff. */
  ghost predicate OldHere(cfg: Config, i: Input, ad: Ad) {
    i.publishedAfter.Some? && CertainlyBefore(ad, cfg.includeRefreshed, i.publishedAfter.value)
  }

  /** Already journaled, no anchor, dated and not certainly old: it says nothing about the boundary. */
  ghost predicate Passing(cfg: Config, i: Input, ad: Ad) {
    ad.id in i.known && ad.id !in i.anchors && Dated(ad, cfg.includeRefreshed) && !OldHere(cfg, i, ad)
  }

  ghost predicate Speaks(cfg: Config, i: Input, ad: Ad) {
    ad.id != "" && !Passing(cfg, i, ad)
  }

  ghost function Speaking(cfg: Config, i: Input, ads: seq<Ad>): (r: seq<Ad>) {
    if ads == [] then []
    else Speaking(cfg, i, ads[..|ads| - 1]) + if Speaks(cfg, i, ads[|ads| - 1]) then [ads[|ads| - 1]] else []
  }

  /** The feed ends in the known tail: it speaks of anchors only, or its last adverts that speak, as many as the threshold asks, are anchors. */
  ghost predicate EndsInAnchors(cfg: Config, i: Input, ads: seq<Ad>) {
    var speaking, threshold := Speaking(cfg, i, ads), if cfg.stopThreshold < 1 then 1 else cfg.stopThreshold;
    || (&& (exists ad :: ad in ads && Speaks(cfg, i, ad))
        && (forall ad :: ad in ads ==> ad.id != "" && (Passing(cfg, i, ad) || ad.id in i.anchors)))
    || (threshold <= |speaking| && forall k :: |speaking| - threshold <= k < |speaking| ==> speaking[k].id in i.anchors)
  }

  /** Some advert speaks, and each is certainly old or passing. */
  ghost predicate IsOld(cfg: Config, i: Input, ads: seq<Ad>) {
    && (exists ad :: ad in ads && Speaks(cfg, i, ad))
    && (forall ad :: ad in ads ==> ad.id != "" && (Passing(cfg, i, ad) || OldHere(cfg, i, ad)))
  }

  lemma {:induction false} SpeakingIs(cfg: Config, i: Input, ads: seq<Ad>, room: int)
    ensures var o := FeedOptions(cfg, i, {}, room);
            && (forall ad :: (Counts(o, ad) <==> Speaks(cfg, i, ad)) && (IsNeutral(o, ad) <==> Passing(cfg, i, ad)) && (Old(o, ad) <==> OldHere(cfg, i, ad)))
            && Counting(o, ads) == Speaking(cfg, i, ads)
  {
    hide CertainlyBefore, Dated;
    if ads != [] {
      SpeakingIs(cfg, i, ads[..|ads| - 1], room);
    }
  }

  lemma FeedSignalsMean(cfg: Config, i: Input, ads: seq<Ad>)
    ensures FeedAnchored(cfg, i, {}, ads) <==> ads == [] || EndsInAnchors(cfg, i, ads)
    ensures i.publishedAfter.Some? ==> (FeedBeforeCutoff(cfg, i, {}, ads) <==> ads == [] || IsOld(cfg, i, ads))
  {
    var o := FeedOptions(cfg, i, {}, 0);
    SpeakingIs(cfg, i, ads, 0);
    OptionsAre(cfg, i);
    hide Select, FeedOptions, Speaks, Passing, OldHere, Speaking, Counts, IsNeutral, Old, Counting;
    CutoffSignalIsExact(o, ads, {});
    AllKnownIsExact(o, ads, {});
    KnownTailIsLongest(o, ads, {});
    SpeakingIsFound(cfg, i, ads);
    LongEnough(Speaking(cfg, i, ads), i.anchors, Select(o, ads, {}).knownTailStreak, if cfg.stopThreshold < 1 then 1 else cfg.stopThreshold);
  }

  lemma {:induction false} SpeakingIsFound(cfg: Config, i: Input, ads: seq<Ad>)
    ensures (exists ad :: ad in ads && Speaks(cfg, i, ad)) ==> Speaking(cfg, i, ads) != []
  {
    hide Speaks;
    if ads != [] {
      var n := |ads| - 1;
      assert ads == ads[..n] + [ads[n]];
      SpeakingIsFound(cfg, i, ads[..n]);
    }
  }

  /** The longest known suffix has a given length exactly when the last elements of that number are all known. */
  lemma LongEnough(c: seq<Ad>, known: set<string>, streak: nat, n: int)
    requires n >= 1 && streak <= |c|
    requires forall k :: |c| - streak <= k < |c| ==> c[k].id in known
    requires streak < |c| ==> c[|c| - streak - 1].id !in known
    ensures streak >= n <==> n <= |c| && forall k :: |c| - n <= k < |c| ==> c[k].id in known
  {
    if streak < n <= |c| {
      var k := |c| - streak - 1;
      assert |c| - n <= k < |c| && c[k].id !in known;
    }
  }

  lemma OptionsAre(cfg: Config, i: Input)
    ensures var o := FeedOptions(cfg, i, {}, 0);
            o.continuityKnown == i.anchors && o.publishedAfter == i.publishedAfter
  {
  }

  /**
   * The boundary is reached exactly when every nonempty feed of the new page
   * ends in the known tail, or every one is certainly old.
   */
  lemma BoundaryMeans(cfg: Config, i: Input)
    ensures AllAnchored(cfg, i, {}, i.newPage.Feeds()) <==> TailPage(cfg, i)
    ensures AllBeforeCutoff(cfg, i, {}, i.newPage.Feeds()) <==> OldPage(cfg, i)
    ensures BoundaryReached(cfg, i) <==> TailPage(cfg, i) || OldPage(cfg, i)
  {
    forall f | f in i.newPage.Feeds() && f.Ads?
      ensures FeedAnchored(cfg, i, {}, f.ads) <==> f.ads == [] || EndsInAnchors(cfg, i, f.ads)
      ensures i.publishedAfter.Some? ==> (FeedBeforeCutoff(cfg, i, {}, f.ads) <==> f.ads == [] || IsOld(cfg, i, f.ads))
    {
      FeedSignalsMean(cfg, i, f.ads);
    }
    hide FeedAnchored, FeedBeforeCutoff, EndsInAnchors, IsOld;
  }

  ghost predicate TailPage(cfg: Config, i: Input) {
    forall f :: f in i.newPage.Feeds() && f.Ads? && f.ads != [] ==> EndsInAnchors(cfg, i, f.ads)
  }

  ghost predicate OldPage(cfg: Config, i: Input) {
    i.publishedAfter.Some? && forall f :: f in i.newPage.Feeds() && f.Ads? && f.ads != [] ==> IsOld(cfg, i, f.ads)
  }

  // ----- when an attempt reports coverage

  /** The reads of the attempt were admitted, in time and delivered, and the new page is a complete, fully listed boundary page. */
  predicate NewPageProves(cfg: Config, i: Input) {
    && i.slot && !i.lateForNew && !i.newPage.Aborts()
    && Complete(cfg, i.newPage)
    && !NewTally(cfg, i).limit
    && !i.newPage.AllEmpty()
    && BoundaryReached(cfg, i)
  }

  /** Past page 1, the page before was reread in time, without error and unchanged. */
  predicate OverlapProves(cfg: Config, s: Shard, i: Input) {
    && !i.lateForOverlap && !i.overlapRead.Aborts()
    && OverlapUnchanged(cfg, s, i)
    && (StartPage(cfg, s) == 2 ==> !i.overlapRead.Short(cfg.minExpectedItems))
  }

  /**
   * For every feed behaviour: an attempt reports its coverage verified exactly
   * when the new page is a proven boundary and, past page 1, the page before
   * it was reread without error and showed exactly the stored evidence.
   */
  lemma VerifiedExactlyWhen(cfg: Config, s: Shard, i: Input)
    requires cfg.Valid()
    ensures var o, start := Attempt(cfg, s, i), StartPage(cfg, s);
            o.Finished? && o.verified
            <==> && NewPageProves(cfg, i)
                 && if start == 1 then !i.newPage.Short(cfg.minExpectedItems)
                    else UsableOverlap(cfg, s) && OverlapProves(cfg, s, i)
  {
    WindowIsBounded(1, cfg.maxOffsetPages, true, if s.progressPage.Some? then s.progressPage else s.lastPage);
    if StartPage(cfg, s) == 1 {
      VerifiedFromPageOne(cfg, s, i);
    } else if !DeadEnd(cfg, s) {
      VerifiedFromLaterPage(cfg, s, i);
    }
  }

  /** The new page alone settles an attempt without overlap, and otherwise decides what is pending. */
  lemma NewVisitVerdict(cfg: Config, s: Shard, i: Input)
    requires cfg.Valid() && !DeadEnd(cfg, s)
    ensures var visit, usable := VisitNew(cfg, s, i), UsableOverlap(cfg, s);
            && (visit.Stop? ==>
                  (visit.report.unresolved.None? && (visit.report.anchored || visit.report.cutoffReached)
                   <==> !usable && NewPageProves(cfg, i)))
            && (visit.Continue? ==>
                  && usable && !visit.report.anchored && !visit.report.cutoffReached && visit.report.unresolved.None?
                  && (visit.pending.Some? && (visit.pending.value.anchored || visit.pending.value.cutoff)
                      <==> NewPageProves(cfg, i)))
            && (visit.Abort? ==> !NewPageProves(cfg, i))
            && (NewPageProves(cfg, i) ==> usable == visit.Continue?)
  {
    hide NewTally, EvidenceFor, BoundaryReached, StartPage, UsableOverlap, DeadEnd, Complete, AllBeforeCutoff;
    hide PageRead.HasErrors, PageRead.Aborts, PageRead.AllEmpty, PageRead.Short, PageRead.Feeds, PageRead.Core;
    BoundarySignals(cfg, i);
  }

  lemma NewVisitHealth(cfg: Config, s: Shard, i: Input)
    ensures var visit := VisitNew(cfg, s, i);
            && (NewPageProves(cfg, i) && !visit.Abort? ==>
                  visit.report.parserDegraded == (StartPage(cfg, s) == 1 && i.newPage.Short(cfg.minExpectedItems)))
  {
    hide NewTally, EvidenceFor, BoundaryReached, StartPage, UsableOverlap, DeadEnd, Complete, Committable, EmptyPageReason;
  }

  lemma VerifiedFromPageOne(cfg: Config, s: Shard, i: Input)
    requires cfg.Valid() && StartPage(cfg, s) == 1
    ensures var o := Attempt(cfg, s, i);
            o.Finished? && o.verified <==> NewPageProves(cfg, i) && !i.newPage.Short(cfg.minExpectedItems)
  {
    NewVisitVerdict(cfg, s, i);
    NewVisitHealth(cfg, s, i);
    hide VisitNew, VisitOverlap, NewPageProves, StartPage;
  }

  lemma VerifiedFromLaterPage(cfg: Config, s: Shard, i: Input)
    requires cfg.Valid() && StartPage(cfg, s) > 1 && UsableOverlap(cfg, s)
    ensures var o := Attempt(cfg, s, i);
            o.Finished? && o.verified <==> NewPageProves(cfg, i) && OverlapProves(cfg, s, i)
  {
    NewVisitVerdict(cfg, s, i);
    NewVisitHealth(cfg, s, i);
    var visit := VisitNew(cfg, s, i);
    if visit.Continue? {
      OverlapVerdict(cfg, s, i, visit.report, visit.tally, visit.pending);
    }
    hide VisitNew, VisitOverlap, NewPageProves, StartPage, OverlapProves, UsableOverlap;
  }

  lemma OverlapVerdict(cfg: Config, s: Shard, i: Input, v: Report, t: Tally, pending: Option<Pending>)
    requires !v.anchored && !v.cutoffReached && v.unresolved.None?
    ensures var o := Ended(cfg, VisitOverlap(cfg, s, i, v, t, pending));
            o.Finished? && o.verified
            <==> pending.Some? && (pending.value.anchored || pending.value.cutoff) && OverlapProves(cfg, s, i) && !v.parserDegraded
  {
    hide OverlapUnchanged, StartPage, PageTally;
  }

  /** Every feed delivered, in an unambiguous page. */
  predicate Whole(read: PageRead) {
    (forall f :: f in read.Feeds() ==> f.Ads?) && Usable(read.Core()) && PageableKeys(read.Core()) != []
  }

  lemma CompleteIsWhole(cfg: Config, read: PageRead)
    ensures Complete(cfg, read) <==> Whole(read)
    ensures Whole(read) ==> !read.Aborts()
  {
    if Usable(read.Core()) {
      EvidenceLength(cfg.collation, read.Core());
    }
    if Whole(read) {
      KeysNeedFeeds(read.Core());
      var f :| f in read.Core();
      assert f in read.Feeds();
      assert forall g :: g in read.direct ==> g in read.Feeds();
    }
    hide Usable, PageableKeys;
    if read.HasErrors() {
      var f :| f in read.Feeds() && !f.Ads?;
    }
  }

  lemma KeysNeedFeeds(feeds: seq<FeedResult>)
    requires PageableKeys(feeds) != []
    ensures exists f :: f in feeds
  {
    assert feeds[0] in feeds;
  }

  /**
   * Verified coverage in terms of the feeds alone. Both pages were admitted and
   * in time; every feed of the new page delivered, at least one an advert, each
   * ending in the known tail or each certainly old, with no more new adverts than
   * fit; page 1 is not suspiciously short; and past page 1 every feed of the page
   * before delivered again, exactly as the stored evidence says.
   */
  lemma VerifiedMeans(cfg: Config, s: Shard, i: Input)
    requires cfg.Valid()
    ensures var o, start := Attempt(cfg, s, i), StartPage(cfg, s);
            var options := Options(i.publishedAfter, cfg.includeRefreshed, i.known + i.anchors, i.anchors, i.known - i.anchors, i.maxCandidates);
            o.Finished? && o.verified
            <==> && i.slot && !i.lateForNew
                 && Whole(i.newPage)
                 && (exists f :: f in i.newPage.Feeds() && f.Ads? && f.ads != [])
                 && (TailPage(cfg, i) || OldPage(cfg, i))
                 && |NewWishes(options, JoinedAds(i.newPage.Feeds()), {})| <= i.maxCandidates
                 && if start == 1 then exists f :: f in i.newPage.Feeds() && f.Ads? && |f.ads| >= cfg.minExpectedItems
                    else && s.overlapPage == Some(start - 1) && !i.lateForOverlap && Whole(i.overlapRead)
                         && Matches(s.evidence, EvidenceFor(cfg, i.overlapRead))
                         && (start == 2 ==> exists f :: f in i.overlapRead.Feeds() && f.Ads? && |f.ads| >= cfg.minExpectedItems)
  {
    hide *;
    var o, start := Attempt(cfg, s, i), StartPage(cfg, s);
    VerifiedExactlyWhen(cfg, s, i);
    StartPageBounds(cfg, s);
    CompleteIsWhole(cfg, i.newPage);
    NewPageMeans(cfg, i);
    ShortMeans(i.newPage, cfg.minExpectedItems);
    OverlapMeans(cfg, s, i);
  }

  lemma ShortMeans(read: PageRead, minimum: nat)
    ensures !read.Short(minimum) <==> exists f :: f in read.Feeds() && f.Ads? && |f.ads| >= minimum
  {
  }

  lemma NewPageMeans(cfg: Config, i: Input)
    ensures var options := Options(i.publishedAfter, cfg.includeRefreshed, i.known + i.anchors, i.anchors, i.known - i.anchors, i.maxCandidates);
            NewPageProves(cfg, i)
            <==> && i.slot && !i.lateForNew && Whole(i.newPage)
                 && (exists f :: f in i.newPage.Feeds() && f.Ads? && f.ads != [])
                 && (TailPage(cfg, i) || OldPage(cfg, i))
                 && |NewWishes(options, JoinedAds(i.newPage.Feeds()), {})| <= i.maxCandidates
  {
    hide *;
    CompleteIsWhole(cfg, i.newPage);
    BoundaryMeans(cfg, i);
    PageTallyMeans(cfg, i, i.newPage, {}, []);
    assert (i.known - i.anchors) + {} == i.known - i.anchors;
    NewPageProvesIs(cfg, i);
  }

  lemma NewPageProvesIs(cfg: Config, i: Input)
    ensures NewPageProves(cfg, i)
       <==> && i.slot && !i.lateForNew && !i.newPage.Aborts() && Complete(cfg, i.newPage)
            && !PageTally(cfg, i, i.newPage, {}, []).limit
            && (exists f :: f in i.newPage.Feeds() && f.Ads? && f.ads != [])
            && BoundaryReached(cfg, i)
    ensures Max(0, i.maxCandidates - 0) == i.maxCandidates
  {
    hide PageTally, BoundaryReached, Complete, PageRead.Aborts;
  }

  lemma OverlapMeans(cfg: Config, s: Shard, i: Input)
    requires cfg.Valid() && StartPage(cfg, s) >= 1
    ensures var start := StartPage(cfg, s);
            start != 1 ==>
              (UsableOverlap(cfg, s) && OverlapProves(cfg, s, i)
               <==> && s.overlapPage == Some(start - 1) && !i.lateForOverlap && Whole(i.overlapRead)
                    && Matches(s.evidence, EvidenceFor(cfg, i.overlapRead))
                    && (start == 2 ==> exists f :: f in i.overlapRead.Feeds() && f.Ads? && |f.ads| >= cfg.minExpectedItems))
  {
    CompleteIsWhole(cfg, i.overlapRead);
    ShortMeans(i.overlapRead, cfg.minExpectedItems);
    MatchedIsComplete(cfg, s, i);
    hide StartPage, Whole, EvidenceFor, Matches, PageRead.Aborts, PageRead.Short, PageRead.HasErrors;
  }

  lemma MatchedIsComplete(cfg: Config, s: Shard, i: Input)
    ensures Matches(s.evidence, EvidenceFor(cfg, i.overlapRead)) ==>
              |s.evidence| > 1 && s.evidence[0] == Tag(EVIDENCE_VERSION) && |EvidenceFor(cfg, i.overlapRead)| > 1
  {
    hide EvidenceOf;
  }

  /**
   * What a verdict says about the source: verified coverage rests on the cutoff
   * exactly when every nonempty feed of the new page is certainly old, and
   * otherwise on the known tail, in which every nonempty feed then ends.
   */
  lemma VerdictMeaning(cfg: Config, s: Shard, i: Input)
    requires cfg.Valid()
    requires var o := Attempt(cfg, s, i); o.Finished? && o.verified
    ensures var o := Attempt(cfg, s, i);
            && (o.report.cutoffReached <==> OldPage(cfg, i))
            && (o.report.anchored <==> !OldPage(cfg, i))
            && (o.report.anchored ==> TailPage(cfg, i))
  {
    VerdictSignals(cfg, s, i);
    BoundaryMeans(cfg, i);
    hide Attempt, AllBeforeCutoff, AllAnchored, TailPage, OldPage;
  }

  lemma VerdictSignals(cfg: Config, s: Shard, i: Input)
    requires cfg.Valid()
    requires var o := Attempt(cfg, s, i); o.Finished? && o.verified
    ensures var o := Attempt(cfg, s, i);
            && (o.report.cutoffReached <==> AllBeforeCutoff(cfg, i, {}, i.newPage.Feeds()))
            && (o.report.anchored <==> !AllBeforeCutoff(cfg, i, {}, i.newPage.Feeds()))
            && (o.report.anchored ==> AllAnchored(cfg, i, {}, i.newPage.Feeds()))
  {
    hide NewTally, EvidenceFor, BoundaryReached, OverlapUnchanged, PageTally, BackfillPageWindow, AllBeforeCutoff, AllAnchored;
    hide PageRead.HasErrors, PageRead.Aborts, PageRead.AllEmpty, PageRead.Short, PageRead.Feeds, PageRead.Core;
    BoundarySignals(cfg, i);
    AnchoredSignal(cfg, i);
  }

  lemma AnchoredSignal(cfg: Config, i: Input)
    ensures var t := NewTally(cfg, i); !t.limit ==> (t.anchored <==> AllAnchored(cfg, i, {}, i.newPage.Feeds()))
  {
    hide AllAnchored, TallyFeeds, AllBeforeCutoff;
    TallySignals(cfg, i, {}, Tally({}, [], 0, false, true, i.publishedAfter.Some?), i.newPage.Feeds());
  }

  /** The new page was admitted, read in time and delivered. */
  predicate ReadsNew(i: Input) {
    i.slot && !i.lateForNew && !i.newPage.Aborts()
  }

  /** The reread page, ingested after the new one, fits the candidate budget. */
  predicate OverlapListed(cfg: Config, i: Input) {
    !PageTally(cfg, i, i.overlapRead, NewTally(cfg, i).seen, NewTally(cfg, i).listings).limit
  }

  lemma {:induction false} EmptyFeedsObserveNothing(cfg: Config, i: Input, seenBefore: set<string>, start: Tally, feeds: seq<FeedResult>)
    requires forall f :: f in feeds && f.Ads? ==> f.ads == []
    ensures var t := TallyFeeds(cfg, i, seenBefore, start, feeds);
            t.observed == start.observed && t.limit == start.limit
  {
    if feeds != [] {
      hide Select;
      var n := |feeds| - 1;
      assert feeds == feeds[..n] + [feeds[n]];
      EmptyFeedsObserveNothing(cfg, i, seenBefore, start, feeds[..n]);
      var t := TallyFeeds(cfg, i, seenBefore, start, feeds[..n]);
      if feeds[n].Ads? {
        NothingSelected(FeedOptions(cfg, i, seenBefore, Max(0, i.maxCandidates - |t.listings|)), t.seen);
      }
    }
  }

  /**
   * Unstable pagination is concluded exactly in a dead end, or when both pages
   * were delivered, the new page was committable, the reread page came without
   * error and fits the budget, and it did not match. Failed transport and an
   * overfull page are retried instead.
   */
  lemma UnstableExactlyWhen(cfg: Config, s: Shard, i: Input)
    requires cfg.Valid()
    ensures var o := Attempt(cfg, s, i);
            o.Finished? && o.report.unresolved == Some(UnstablePagination)
            <==> || (StartPage(cfg, s) > 1 && !HoldsEvidence(s, StartPage(cfg, s) - 1))
                 || (&& UsableOverlap(cfg, s) && ReadsNew(i) && Committable(cfg, i)
                     && !i.lateForOverlap && !i.overlapRead.Aborts() && !i.overlapRead.HasErrors()
                     && !OverlapUnchanged(cfg, s, i) && OverlapListed(cfg, i))
  {
    EmptyNewPage(cfg, i);
    DeadEndMeans(cfg, s);
    if !DeadEnd(cfg, s) {
      var visit := VisitNew(cfg, s, i);
      NewVisitReasons(cfg, s, i);
      if visit.Continue? {
        OverlapReasons(cfg, s, i, visit.report, visit.tally, visit.pending);
      }
      hide VisitNew, VisitOverlap, NewTally, EvidenceFor, StartPage, DeadEnd, UsableOverlap, Committable, PageTally, HoldsEvidence;
    }
  }

  /** The shard has evidence of the current version for the page. */
  predicate HoldsEvidence(s: Shard, page: int) {
    s.overlapPage == Some(page) && s.evidence != [] && s.evidence[0] == Tag("olx-offset-evidence-v2")
  }

  lemma DeadEndMeans(cfg: Config, s: Shard)
    ensures DeadEnd(cfg, s) <==> StartPage(cfg, s) > 1 && !HoldsEvidence(s, StartPage(cfg, s) - 1)
  {
    hide StartPage;
  }

  lemma EmptyNewPage(cfg: Config, i: Input)
    ensures i.newPage.AllEmpty() ==> NewTally(cfg, i).observed == 0 && !NewTally(cfg, i).limit && !Committable(cfg, i)
  {
    hide EvidenceFor;
    if i.newPage.AllEmpty() {
      EmptyFeedsObserveNothing(cfg, i, {}, Tally({}, [], 0, false, true, i.publishedAfter.Some?), i.newPage.Feeds());
    }
  }

  lemma NewVisitReasons(cfg: Config, s: Shard, i: Input)
    requires !DeadEnd(cfg, s)
    requires i.newPage.AllEmpty() ==> NewTally(cfg, i).observed == 0 && !Committable(cfg, i)
    ensures var visit := VisitNew(cfg, s, i);
            && (visit.Abort? ==> !ReadsNew(i))
            && (visit.Stop? ==>
                  && !(UsableOverlap(cfg, s) && ReadsNew(i) && Committable(cfg, i))
                  && (visit.report.unresolved == Some(SourceExhaustedBeforeBoundary)
                      <==> ReadsNew(i) && i.newPage.AllEmpty() && i.priorAttempts >= 2)
                  && (visit.report.unresolved.None? || visit.report.unresolved == Some(SourceExhaustedBeforeBoundary)))
            && (visit.Continue? ==>
                  && UsableOverlap(cfg, s) && ReadsNew(i) && !i.newPage.AllEmpty() && visit.report.unresolved.None?
                  && visit.tally == NewTally(cfg, i)
                  && (visit.pending.Some? <==> Committable(cfg, i)))
  {
    hide NewTally, EvidenceFor, StartPage, UsableOverlap, Complete;
  }

  lemma OverlapReasons(cfg: Config, s: Shard, i: Input, v: Report, t: Tally, pending: Option<Pending>)
    requires v.unresolved.None?
    ensures var visit := VisitOverlap(cfg, s, i, v, t, pending);
            && !visit.Continue?
            && (visit.Abort? <==> !i.lateForOverlap && i.overlapRead.Aborts())
            && (visit.Stop? ==>
                  && (visit.report.unresolved.None? || visit.report.unresolved == Some(UnstablePagination))
                  && (visit.report.unresolved == Some(UnstablePagination)
                      <==> && pending.Some? && !i.lateForOverlap && !i.overlapRead.Aborts() && !i.overlapRead.HasErrors()
                           && !OverlapUnchanged(cfg, s, i)
                           && !PageTally(cfg, i, i.overlapRead, t.seen, t.listings).limit))
  {
    hide StartPage, PageTally, OverlapUnchanged;
  }

  /**
   * The source counts as exhausted exactly when the new page is delivered with
   * no advert in any successful feed and this is at least the third attempt.
   */
  lemma ExhaustedExactlyWhen(cfg: Config, s: Shard, i: Input)
    requires cfg.Valid()
    ensures var o := Attempt(cfg, s, i);
            o.Finished? && o.report.unresolved == Some(SourceExhaustedBeforeBoundary)
            <==> !DeadEnd(cfg, s) && ReadsNew(i) && i.newPage.AllEmpty() && i.priorAttempts >= 2
  {
    EmptyNewPage(cfg, i);
    if !DeadEnd(cfg, s) {
      var visit := VisitNew(cfg, s, i);
      NewVisitReasons(cfg, s, i);
      if visit.Continue? {
        OverlapReasons(cfg, s, i, visit.report, visit.tally, visit.pending);
      }
      hide VisitNew, VisitOverlap, NewTally, EvidenceFor, StartPage, DeadEnd, UsableOverlap, Committable, PageTally;
    }
  }

  /** The new page was read completely and listed fully, and shows no boundary. */
  predicate ReadsOnInVain(cfg: Config, i: Input) {
    && Complete(cfg, i.newPage) && !NewTally(cfg, i).limit
    && if i.newPage.AllEmpty() then i.priorAttempts < 2 else !BoundaryReached(cfg, i)
  }

  /** The page before does not stand in the way: there is none, it was not asked for, or it was found unchanged. */
  predicate OverlapPasses(cfg: Config, s: Shard, i: Input) {
    || !UsableOverlap(cfg, s)
    || i.newPage.AllEmpty()
    || (if Committable(cfg, i) then !i.lateForOverlap && !i.overlapRead.Aborts() && OverlapUnchanged(cfg, s, i)
        else |NewTally(cfg, i).listings| >= i.maxCandidates)
  }

  /**
   * The offset cap is blamed exactly from the last public page, after a complete
   * and fully listed read without a boundary, when the overlap does not object.
   */
  lemma OffsetCapExactlyWhen(cfg: Config, s: Shard, i: Input)
    requires cfg.Valid()
    ensures var o := Attempt(cfg, s, i);
            o.Finished? && o.report.unresolved == Some(PublicOffsetCap)
            <==> && !DeadEnd(cfg, s) && StartPage(cfg, s) == cfg.maxOffsetPages
                 && ReadsNew(i) && ReadsOnInVain(cfg, i) && OverlapPasses(cfg, s, i)
  {
    hide StartPage, DeadEnd, UsableOverlap, VisitNew, VisitOverlap, NewTally, ReadsOnInVain, OverlapPasses, ReadsNew, OverlapUnchanged;
    StartPageBounds(cfg, s);
    if !DeadEnd(cfg, s) {
      var visit := VisitNew(cfg, s, i);
      EmptyNewPage(cfg, i);
      CalmNewVisit(cfg, s, i);
      if visit.Continue? {
        CalmOverlapVisit(cfg, s, i, visit.report, visit.tally, visit.pending);
      }
    }
  }

  /** Nothing stands against blaming the cap. */
  predicate Calm(v: Report) {
    !v.anchored && !v.cutoffReached && v.unresolved.None? && v.noProgress.None?
  }

  /** An attempt starts at the cursor, or at the last page where there is none, brought into the public range. */
  lemma StartPageMeans(cfg: Config, s: Shard)
    requires cfg.Valid()
    ensures var start, resume := StartPage(cfg, s), if s.progressPage.Some? then s.progressPage else s.lastPage;
            && (resume.None? || resume.value < 1 ==> start == 1)
            && (resume.Some? && 1 <= resume.value <= cfg.maxOffsetPages ==> start == resume.value)
            && (resume.Some? && resume.value > cfg.maxOffsetPages ==> start == cfg.maxOffsetPages)
  {
  }

  lemma StartPageBounds(cfg: Config, s: Shard)
    requires cfg.Valid()
    ensures 1 <= StartPage(cfg, s) <= cfg.maxOffsetPages
  {
    WindowIsBounded(1, cfg.maxOffsetPages, true, if s.progressPage.Some? then s.progressPage else s.lastPage);
  }

  lemma CalmNewVisit(cfg: Config, s: Shard, i: Input)
    requires cfg.Valid() && !DeadEnd(cfg, s)
    requires i.newPage.AllEmpty() ==> NewTally(cfg, i).observed == 0 && !NewTally(cfg, i).limit && !Committable(cfg, i)
    ensures var visit := VisitNew(cfg, s, i);
            && (visit.Abort? ==> !ReadsNew(i))
            && (!visit.Abort? ==> visit.report.unresolved != Some(PublicOffsetCap))
            && (visit.Stop? ==>
                  && (Calm(visit.report) <==> ReadsNew(i) && ReadsOnInVain(cfg, i) && OverlapPasses(cfg, s, i))
                  && (Calm(visit.report) ==> visit.report.lastPageScanned == StartPage(cfg, s)))
            && (visit.Continue? ==>
                  && ReadsNew(i) && visit.report.lastPageScanned == StartPage(cfg, s)
                  && visit.report.unresolved.None? && !visit.report.anchored && !visit.report.cutoffReached
                  && (visit.pending.Some? ==> visit.report.noProgress.None?)
                  && (ReadsOnInVain(cfg, i) && OverlapPasses(cfg, s, i)
                      <==> && visit.pending.Some? && !visit.pending.value.anchored && !visit.pending.value.cutoff
                           && !i.lateForOverlap && !i.overlapRead.Aborts() && OverlapUnchanged(cfg, s, i)))
  {
    hide NewTally, EvidenceFor, StartPage, UsableOverlap, OverlapUnchanged, BoundaryReached, AllBeforeCutoff;
    hide PageRead.HasErrors, PageRead.Aborts, PageRead.AllEmpty, PageRead.Short, PageRead.Feeds, PageRead.Core;
    BoundarySignals(cfg, i);
  }

  lemma CalmOverlapVisit(cfg: Config, s: Shard, i: Input, v: Report, t: Tally, pending: Option<Pending>)
    requires v.unresolved.None? && !v.anchored && !v.cutoffReached && (pending.Some? ==> v.noProgress.None?)
    ensures var visit := VisitOverlap(cfg, s, i, v, t, pending);
            && !visit.Continue?
            && (visit.Abort? ==> i.overlapRead.Aborts())
            && (visit.Stop? ==>
                  && visit.report.unresolved != Some(PublicOffsetCap)
                  && visit.report.lastPageScanned == v.lastPageScanned
                  && (Calm(visit.report)
                      <==> && pending.Some? && !pending.value.anchored && !pending.value.cutoff
                           && !i.lateForOverlap && !i.overlapRead.Aborts() && OverlapUnchanged(cfg, s, i)))
  {
    hide StartPage, PageTally, OverlapUnchanged;
  }

  // ----- aborted attempts and attempts without progress

  /** A page read that ends the attempt: a primary direct feed is protected, or no feed at all delivered. */
  lemma AbortsMeans(read: PageRead)
    ensures read.Aborts()
       <==> || (exists k :: 0 <= k < |read.direct| && read.direct[k].Blocked? && read.direct[k].primary)
            || |JoinedResults(read.direct + read.regional + read.extra)| == 0
  {
    JoinedResultsAre(read.Feeds());
    if f :| f in read.direct && f.Blocked? && f.primary {
      var k :| 0 <= k < |read.direct| && read.direct[k] == f;
    }
  }

  /** The feeds that delivered. */
  function JoinedResults(feeds: seq<FeedResult>): (r: seq<FeedResult>) {
    if feeds == [] then []
    else JoinedResults(feeds[..|feeds| - 1]) + if feeds[|feeds| - 1].Ads? then [feeds[|feeds| - 1]] else []
  }

  lemma {:induction false} JoinedResultsAre(feeds: seq<FeedResult>)
    ensures |JoinedResults(feeds)| == 0 <==> forall f :: f in feeds ==> !f.Ads?
  {
    if feeds != [] {
      var n := |feeds| - 1;
      JoinedResultsAre(feeds[..n]);
      assert feeds == feeds[..n] + [feeds[n]];
    }
  }

  /** The attempt goes on to reread the page before. */
  predicate GoesOn(cfg: Config, s: Shard, i: Input) {
    && UsableOverlap(cfg, s) && ReadsNew(i) && !i.newPage.AllEmpty() && !NewTally(cfg, i).limit
    && (Committable(cfg, i) || |NewTally(cfg, i).listings| < i.maxCandidates)
  }

  /** An attempt has no result exactly when one of the pages it gets to read aborts it. */
  lemma AbortedExactlyWhen(cfg: Config, s: Shard, i: Input)
    requires cfg.Valid()
    ensures Attempt(cfg, s, i).Aborted?
       <==> && !DeadEnd(cfg, s) && i.slot && !i.lateForNew
            && (i.newPage.Aborts() || (GoesOn(cfg, s, i) && !i.lateForOverlap && i.overlapRead.Aborts()))
  {
    if !DeadEnd(cfg, s) {
      GoesOnExactly(cfg, s, i);
      var visit := VisitNew(cfg, s, i);
      if visit.Continue? {
        OverlapNoProgress(cfg, s, i, visit.report, visit.tally, visit.pending);
      }
      hide VisitNew, VisitOverlap, NewTally, StartPage, DeadEnd, UsableOverlap, Committable, GoesOn, ReadsNew;
    }
  }

  lemma GoesOnExactly(cfg: Config, s: Shard, i: Input)
    requires cfg.Valid() && !DeadEnd(cfg, s)
    ensures var visit := VisitNew(cfg, s, i);
            && (visit.Continue? <==> GoesOn(cfg, s, i))
            && (visit.Abort? <==> i.slot && !i.lateForNew && i.newPage.Aborts())
            && (visit.Continue? ==> visit.tally == NewTally(cfg, i) && (visit.pending.Some? <==> Committable(cfg, i)))
            && (!visit.Abort? ==> visit.report.noProgress == NewReason(cfg, i))
  {
    hide NewTally, EvidenceFor, StartPage, UsableOverlap, BoundaryReached, AllBeforeCutoff;
    hide PageRead.HasErrors, PageRead.Aborts, PageRead.AllEmpty, PageRead.Short, PageRead.Feeds, PageRead.Core;
    BoundarySignals(cfg, i);
  }

  /** Why a read of the new page alone makes no progress. */
  function NewReason(cfg: Config, i: Input): (r: Option<NoProgress>) {
    if !i.slot then Some(BackgroundSlotUnavailable)
    else if i.lateForNew then Some(ScanDeadlineReached)
    else if !i.newPage.AllEmpty() && NewTally(cfg, i).limit then Some(CandidateBudgetExhausted)
    else if |EvidenceFor(cfg, i.newPage)| < 2 then Some(IncompletePageEvidence)
    else if i.newPage.HasErrors() then Some(IncompletePageFeeds)
    else None
  }

  lemma OverlapNoProgress(cfg: Config, s: Shard, i: Input, v: Report, t: Tally, pending: Option<Pending>)
    ensures var visit := VisitOverlap(cfg, s, i, v, t, pending);
            && !visit.Continue?
            && (visit.Abort? <==> !i.lateForOverlap && i.overlapRead.Aborts())
            && (visit.Stop? && pending.Some? && v.noProgress.None? ==>
                  visit.report.noProgress
                  == if i.lateForOverlap then Some(ScanDeadlineReached)
                     else if OverlapUnchanged(cfg, s, i) then None
                     else if PageTally(cfg, i, i.overlapRead, t.seen, t.listings).limit then Some(CandidateBudgetExhausted)
                     else if i.overlapRead.HasErrors() then Some(IncompleteOverlapFeeds)
                     else None)
            && (visit.Stop? && pending.None? ==>
                  visit.report.noProgress
                  == if i.lateForOverlap then Some(ScanDeadlineReached)
                     else if PageTally(cfg, i, i.overlapRead, t.seen, t.listings).limit then Some(CandidateBudgetExhausted)
                     else Some(IncompleteOverlapFeeds))
  {
    hide StartPage, PageTally, OverlapUnchanged;
  }

  /**
   * Why an attempt made no progress: the reason of the new page, unless the page
   * before was to be reread; then a deadline, an overfull reread, or a reread that
   * failed or has nothing to confirm. A reread that came whole and differs gives none.
   */
  lemma NoProgressExactly(cfg: Config, s: Shard, i: Input)
    requires cfg.Valid() && Attempt(cfg, s, i).Finished? && !DeadEnd(cfg, s)
    ensures Attempt(cfg, s, i).report.noProgress
         == if !GoesOn(cfg, s, i) then NewReason(cfg, i)
            else if i.lateForOverlap then Some(ScanDeadlineReached)
            else if Committable(cfg, i) && OverlapUnchanged(cfg, s, i) then None
            else if !OverlapListed(cfg, i) then Some(CandidateBudgetExhausted)
            else if !Committable(cfg, i) || i.overlapRead.HasErrors() then Some(IncompleteOverlapFeeds)
            else None
  {
    GoesOnExactly(cfg, s, i);
    CommittableIsCalm(cfg, i);
    var visit := VisitNew(cfg, s, i);
    if visit.Continue? {
      OverlapNoProgress(cfg, s, i, visit.report, visit.tally, visit.pending);
    }
    hide VisitNew, VisitOverlap, NewTally, StartPage, DeadEnd, UsableOverlap, Committable, GoesOn, ReadsNew, NewReason, PageTally, OverlapUnchanged;
  }

  lemma CommittableIsCalm(cfg: Config, i: Input)
    ensures Committable(cfg, i) && ReadsNew(i) ==> NewReason(cfg, i).None?
    ensures forall s :: GoesOn(cfg, s, i) ==> ReadsNew(i)
  {
    hide NewTally, EvidenceFor, UsableOverlap;
  }

  lemma NewObserved(cfg: Config, s: Shard, i: Input)
    requires !DeadEnd(cfg, s)
    ensures var visit := VisitNew(cfg, s, i);
            !visit.Abort? ==> visit.report.observed == if ReadsNew(i) then NewTally(cfg, i).observed else 0
  {
    hide NewTally, EvidenceFor, StartPage, UsableOverlap;
    hide PageRead.HasErrors, PageRead.Aborts, PageRead.AllEmpty, PageRead.Short, PageRead.Feeds, PageRead.Core;
  }

  lemma OverlapObserved(cfg: Config, s: Shard, i: Input, v: Report, t: Tally, pending: Option<Pending>)
    ensures var visit := VisitOverlap(cfg, s, i, v, t, pending);
            visit.Stop? ==>
              visit.report.observed
              == if i.lateForOverlap || (pending.Some? && OverlapUnchanged(cfg, s, i)) then v.observed
                 else v.observed + PageTally(cfg, i, i.overlapRead, t.seen, t.listings).observed
  {
    hide StartPage, PageTally, OverlapUnchanged;
  }

  lemma ObservedByTallies(cfg: Config, s: Shard, i: Input)
    requires cfg.Valid() && Attempt(cfg, s, i).Finished?
    ensures var t := NewTally(cfg, i);
            Attempt(cfg, s, i).report.observed
            == if DeadEnd(cfg, s) || !i.slot || i.lateForNew then 0
               else if !GoesOn(cfg, s, i) || i.lateForOverlap || (Committable(cfg, i) && OverlapUnchanged(cfg, s, i)) then t.observed
               else t.observed + PageTally(cfg, i, i.overlapRead, t.seen, t.listings).observed
  {
    if !DeadEnd(cfg, s) {
      GoesOnExactly(cfg, s, i);
      NewObserved(cfg, s, i);
      CommittableIsCalm(cfg, i);
      var visit := VisitNew(cfg, s, i);
      if visit.Continue? {
        OverlapObserved(cfg, s, i, visit.report, visit.tally, visit.pending);
      }
    }
    hide VisitNew, VisitOverlap, NewTally, StartPage, DeadEnd, UsableOverlap, Committable, GoesOn, NewReason, PageTally, OverlapUnchanged, PageRead.Aborts;
  }

  /**
   * What an attempt reports as observed: the distinct ids that count on the new page,
   * and those that only the page before shows when its reread is journaled, not when it confirms.
   */
  lemma ObservedExactly(cfg: Config, s: Shard, i: Input)
    requires cfg.Valid() && Attempt(cfg, s, i).Finished?
    ensures var o := Options(i.publishedAfter, cfg.includeRefreshed, i.known + i.anchors, i.anchors, i.known - i.anchors, i.maxCandidates);
            var ids := CountingIds(o, JoinedAds(i.newPage.Feeds()));
            var room := Max(0, i.maxCandidates - |NewTally(cfg, i).listings|);
            var p := Options(i.publishedAfter, cfg.includeRefreshed, i.known + i.anchors, i.anchors, (i.known - i.anchors) + ids, room);
            Attempt(cfg, s, i).report.observed
            == if DeadEnd(cfg, s) || !i.slot || i.lateForNew then 0
               else if !GoesOn(cfg, s, i) || i.lateForOverlap || (Committable(cfg, i) && OverlapUnchanged(cfg, s, i)) then |ids|
               else |ids| + |CountingIds(p, JoinedAds(i.overlapRead.Feeds())) - ids|
  {
    hide *;
    var o := Options(i.publishedAfter, cfg.includeRefreshed, i.known + i.anchors, i.anchors, i.known - i.anchors, i.maxCandidates);
    NewTallyCounts(cfg, i, o);
    ObservedByTallies(cfg, s, i);
    PageTallyMeans(cfg, i, i.overlapRead, NewTally(cfg, i).seen, NewTally(cfg, i).listings);
  }

  lemma NewTallyCounts(cfg: Config, i: Input, o: Options)
    requires o == Options(i.publishedAfter, cfg.includeRefreshed, i.known + i.anchors, i.anchors, i.known - i.anchors, i.maxCandidates)
    ensures var ids := CountingIds(o, JoinedAds(i.newPage.Feeds()));
            NewTally(cfg, i).seen == ids && NewTally(cfg, i).observed == |ids|
  {
    hide CountingIds, JoinedAds, PageTally, PageRead.Feeds, NewWishes, FirstOf;
    PageTallyMeans(cfg, i, i.newPage, {}, []);
    assert (i.known - i.anchors) + {} == i.known - i.anchors;
    var ids := CountingIds(o, JoinedAds(i.newPage.Feeds()));
    assert ids - {} == ids && {} + ids == ids;
  }

  // ----- the durable write

  /** advanceSuccessBoundary: neither a degraded parser nor a limited scan that observed nothing is trusted with a conclusion. */
  predicate Trusted(v: Report) {
    !v.parserDegraded && !(v.limited && v.observed == 0)
  }

  /** The write ends the recovery: coverage was verified and accepted, or a trusted report gives up. */
  predicate Concludes(o: Outcome, accepted: bool)
    requires o.Finished?
  {
    Trusted(o.report) && ((o.verified && accepted) || o.report.unresolved.Some?)
  }

  /** decideRecoveryProgress and the durable write: the cursor never moves back, and a stale report keeps the newer overlap. */
  function Persist(s: Shard, o: Outcome, accepted: bool): (t: Shard)
    requires o.Finished?
  {
    var current := Max(1, if s.progressPage.Some? then s.progressPage.value else if s.lastPage.Some? then s.lastPage.value else 1);
    var progress := Max(current, Max(1, o.report.progressPage));
    var newest := o.report.progressPage >= progress;
    Shard(
      !Concludes(o, accepted),
      Some(progress),
      Some(progress),
      if newest && o.report.overlapPage.Some? then o.report.overlapPage else s.overlapPage,
      if newest then Stored(o.report.evidence) else s.evidence)
  }

  /** What a write leaves of the cursor: a report from behind it changes nothing, any other one puts its own page, overlap and evidence in place. */
  lemma PersistMeans(s: Shard, o: Outcome, accepted: bool)
    requires o.Finished? && s.progressPage.Some? && s.progressPage.value >= 1
    ensures var t := Persist(s, o, accepted);
            && t.lastPage == t.progressPage
            && (o.report.progressPage < s.progressPage.value ==>
                  t.progressPage == s.progressPage && t.overlapPage == s.overlapPage && t.evidence == s.evidence)
            && (o.report.progressPage >= s.progressPage.value ==>
                  && t.progressPage == Some(o.report.progressPage)
                  && t.overlapPage == (if o.report.overlapPage.Some? then o.report.overlapPage else s.overlapPage)
                  && (|o.report.evidence| <= 100 ==> t.evidence == o.report.evidence)
                  && (|o.report.evidence| > 100 ==> t.evidence == o.report.evidence[..100]))
  {
    hide Concludes;
  }

  const STORED_ITEMS := 100

  /** The bounded string list keeps the first hundred items. */
  function Stored(e: seq<Item>): (f: seq<Item>) {
    if |e| <= STORED_ITEMS then e else e[..STORED_ITEMS]
  }

  // ----- runs of attempts

  /** A recovery window opens, or an operator or a new collector generation re-arms it. */
  const REARMED := Shard(true, Some(1), Some(1), None, [])

  /** One durable advance of the cursor past `page`, made by the attempt with this input. */
  datatype Advance = Advance(page: int, input: Input)

  /** An attempt under way: the shard it read, and whether the shard was re-armed since. */
  datatype Flight = Flight(shard: Shard, input: Input, overtaken: bool)

  /** A re-arm may come at any time; an attempt reads the shard when it begins and writes it when it finishes. */
  datatype Event = Rearm | Begin(input: Input) | Finish(accepted: bool)

  /** `log` holds the advances since the shard was last re-armed. */
  datatype History = History(shard: Shard, log: seq<Advance>, flight: Option<Flight>)

  const FRESH := History(REARMED, [], None)

  function Landed(cfg: Config, h: History, f: Flight, o: Outcome, accepted: bool): (g: History)
    requires o.Finished?
  {
    var start := StartPage(cfg, f.shard);
    History(Persist(h.shard, o, accepted),
      if !f.overtaken && o.report.progressPage == start + 1 && 0 <= start - 1 <= |h.log|
      then h.log[..start - 1] + [Advance(start, f.input)] else h.log,
      None)
  }

  function Next(cfg: Config, h: History, e: Event): (g: History) {
    match e
    case Rearm => History(REARMED, [], if h.flight.Some? then Some(h.flight.value.(overtaken := true)) else None)
    case Begin(i) => if h.shard.pending && h.flight.None? then h.(flight := Some(Flight(h.shard, i, false))) else h
    case Finish(accepted) =>
      if h.flight.None? then h
      else
        var o := Attempt(cfg, h.flight.value.shard, h.flight.value.input);
        if o.Aborted? then h.(flight := None) else Landed(cfg, h, h.flight.value, o, accepted)
  }

  function RunOf(cfg: Config, events: seq<Event>): (h: History) {
    if events == [] then FRESH else Next(cfg, RunOf(cfg, events[..|events| - 1]), events[|events| - 1])
  }

  /** Page k was passed by a complete, fully listed read, and by then page k - 1 had been reread unchanged. */
  ghost predicate Justified(cfg: Config, log: seq<Advance>, k: int)
    requires 0 <= k < |log|
  {
    && log[k].page == k + 1
    && Committable(cfg, log[k].input)
    && (k > 0 ==>
          && !log[k].input.overlapRead.HasErrors()
          && Matches(Stored(EvidenceFor(cfg, log[k - 1].input.newPage)), EvidenceFor(cfg, log[k].input.overlapRead)))
  }

  /** The cursor is the page after the last advance, with the evidence of that advance. */
  ghost predicate Earned(cfg: Config, s: Shard, log: seq<Advance>) {
    && s.progressPage == Some(|log| + 1)
    && |log| <= cfg.maxOffsetPages
    && (forall k :: 0 <= k < |log| ==> Justified(cfg, log, k))
    && (log != [] ==>
          && s.overlapPage == Some(|log|)
          && s.evidence == Stored(EvidenceFor(cfg, log[|log| - 1].input.newPage)))
  }

  ghost predicate Sound(cfg: Config, h: History) {
    && Earned(cfg, h.shard, h.log)
    && (h.flight.Some? ==> if h.flight.value.overtaken then h.log == [] && h.shard == REARMED else h.shard == h.flight.value.shard)
  }

  /** The cursor fields of a report are those the attempt started from. */
  predicate Unmoved(cfg: Config, s: Shard, v: Report) {
    v.progressPage == StartPage(cfg, s) && v.overlapPage == s.overlapPage && v.evidence == s.evidence
  }

  /** The report commits the start page, after the overlap was found unchanged if there was one. */
  predicate Moved(cfg: Config, s: Shard, i: Input, v: Report) {
    var start := StartPage(cfg, s);
    && v.progressPage == start + 1 && v.overlapPage == Some(start)
    && v.evidence == EvidenceFor(cfg, i.newPage)
    && Committable(cfg, i)
    && (start > 1 ==> OverlapUnchanged(cfg, s, i))
  }

  lemma NewVisitMoves(cfg: Config, s: Shard, i: Input)
    requires cfg.Valid() && !DeadEnd(cfg, s) && StartPage(cfg, s) >= 1
    ensures var visit := VisitNew(cfg, s, i);
            && (visit.Stop? ==> Unmoved(cfg, s, visit.report) || (StartPage(cfg, s) == 1 && Moved(cfg, s, i, visit.report)))
            && (visit.Continue? ==>
                  && Unmoved(cfg, s, visit.report)
                  && (visit.pending.Some? ==> Committable(cfg, i) && visit.pending.value.evidence == EvidenceFor(cfg, i.newPage)))
  {
    hide NewTally, EvidenceFor, Committable, StartPage, EmptyPageReason, Complete;
  }

  lemma OverlapVisitMoves(cfg: Config, s: Shard, i: Input, v: Report, t: Tally, pending: Option<Pending>)
    requires StartPage(cfg, s) >= 1 && Unmoved(cfg, s, v)
    requires pending.Some? ==> Committable(cfg, i) && pending.value.evidence == EvidenceFor(cfg, i.newPage)
    ensures var visit := VisitOverlap(cfg, s, i, v, t, pending);
            !visit.Continue? && (visit.Stop? ==> Unmoved(cfg, s, visit.report) || Moved(cfg, s, i, visit.report))
  {
    hide StartPage, Revalidated, PageRead.HasErrors, PageRead.Aborts, PageRead.Short, Unmoved, Moved;
    var visit := VisitOverlap(cfg, s, i, v, t, pending);
    if i.lateForOverlap {
      SameCursor(cfg, s, v, visit.report);
    } else if visit.Stop? {
      var short := StartPage(cfg, s) == 2 && i.overlapRead.Short(cfg.minExpectedItems);
      var w := v.(parserDegraded := v.parserDegraded || short, limited := v.limited || i.overlapRead.HasErrors() || short);
      SameCursor(cfg, s, v, w);
      RevalidatedMoves(cfg, s, i, w, t.seen, t.listings, pending);
    }
  }

  lemma SameCursor(cfg: Config, s: Shard, v: Report, w: Report)
    requires Unmoved(cfg, s, v)
    requires v.progressPage == w.progressPage && v.overlapPage == w.overlapPage && v.evidence == w.evidence
    ensures Unmoved(cfg, s, w)
  {
  }

  lemma RevalidatedMoves(cfg: Config, s: Shard, i: Input, v: Report, seen: set<string>, listings: seq<Ad>, pending: Option<Pending>)
    requires StartPage(cfg, s) >= 1 && Unmoved(cfg, s, v)
    requires pending.Some? ==> Committable(cfg, i) && pending.value.evidence == EvidenceFor(cfg, i.newPage)
    ensures var w := Revalidated(cfg, s, i, v, seen, listings, pending);
            Unmoved(cfg, s, w) || Moved(cfg, s, i, w)
  {
    hide OverlapUnchanged, StartPage, PageTally, Committable, EvidenceFor;
  }

  lemma ConcludeKeeps(cfg: Config, s: Shard, i: Input, v: Report)
    ensures Conclude(cfg, v).Finished?
    ensures Unmoved(cfg, s, Conclude(cfg, v).report) == Unmoved(cfg, s, v)
    ensures Moved(cfg, s, i, Conclude(cfg, v).report) == Moved(cfg, s, i, v)
  {
    hide OverlapUnchanged, StartPage, Committable, EvidenceFor;
  }

  /** What an attempt can report: it commits exactly its start page, or leaves the cursor alone. */
  lemma AttemptMoves(cfg: Config, s: Shard, i: Input)
    requires cfg.Valid()
    requires Attempt(cfg, s, i).Finished?
    ensures var r := Attempt(cfg, s, i).report;
            Unmoved(cfg, s, r) || (!DeadEnd(cfg, s) && Moved(cfg, s, i, r))
  {
    WindowIsBounded(1, cfg.maxOffsetPages, true, if s.progressPage.Some? then s.progressPage else s.lastPage);
    assert StartPage(cfg, s) >= 1;
    if DeadEnd(cfg, s) {
      assert Unmoved(cfg, s, Initially(cfg, s));
      ConcludeKeeps(cfg, s, i, Initially(cfg, s));
    } else {
      NewVisitMoves(cfg, s, i);
      var first := VisitNew(cfg, s, i);
      if first.Stop? {
        ConcludeKeeps(cfg, s, i, first.report);
      } else if first.Continue? {
        OverlapVisitMoves(cfg, s, i, first.report, first.tally, first.pending);
        var second := VisitOverlap(cfg, s, i, first.report, first.tally, first.pending);
        if second.Stop? {
          ConcludeKeeps(cfg, s, i, second.report);
        }
      }
    }
    hide VisitNew, VisitOverlap, Conclude, Unmoved, Moved, DeadEnd, StartPage, Initially;
  }

  lemma NewVisitCommits(cfg: Config, s: Shard, i: Input)
    requires cfg.Valid() && !DeadEnd(cfg, s) && StartPage(cfg, s) >= 1 && Committable(cfg, i)
    ensures var visit := VisitNew(cfg, s, i);
            && (visit.Stop? && ReadsNew(i) && !i.newPage.AllEmpty() && !UsableOverlap(cfg, s) ==>
                  visit.report.progressPage == StartPage(cfg, s) + 1)
            && (visit.Continue? ==> visit.pending.Some? && visit.report.progressPage == StartPage(cfg, s))
  {
    hide NewTally, EvidenceFor, StartPage, UsableOverlap, Complete;
  }

  /** Verified coverage always comes with the commit of the page it was read from. */
  lemma VerifiedCommits(cfg: Config, s: Shard, i: Input)
    requires cfg.Valid()
    requires Attempt(cfg, s, i).Finished? && Attempt(cfg, s, i).verified
    ensures !DeadEnd(cfg, s) && Moved(cfg, s, i, Attempt(cfg, s, i).report)
  {
    hide StartPage, NewTally, BoundaryReached, Complete, Moved, OverlapUnchanged, EvidenceFor, UsableOverlap, VisitNew, Committable, PageTally;
    hide PageRead.HasErrors, PageRead.Aborts, PageRead.AllEmpty, PageRead.Short, PageRead.Feeds, PageRead.Core;
    VerifiedExactlyWhen(cfg, s, i);
    AttemptMoves(cfg, s, i);
    StartPageBounds(cfg, s);
    ProvenIsCommittable(cfg, i);
    NewVisitVerdict(cfg, s, i);
    NewVisitCommits(cfg, s, i);
  }

  lemma CommittedEvidence(cfg: Config, i: Input)
    requires Committable(cfg, i)
    ensures var e := Stored(EvidenceFor(cfg, i.newPage)); |e| > 1 && e[0] == Tag(EVIDENCE_VERSION)
  {
    hide NewTally, Usable, SortedIds, Entries, Snapshot, PageableKeys;
  }

  /** While the cursor is within the offset cap, the shard always holds the evidence the next attempt needs. */
  lemma DeadEndExactly(cfg: Config, s: Shard, log: seq<Advance>)
    requires cfg.Valid() && Earned(cfg, s, log)
    ensures DeadEnd(cfg, s) <==> s.progressPage.value > cfg.maxOffsetPages > 1
  {
    hide EvidenceFor, Matches, Committable;
    if log != [] {
      assert Justified(cfg, log, |log| - 1);
      CommittedEvidence(cfg, log[|log| - 1].input);
    }
  }

  lemma CursorWithinCap(cfg: Config, s: Shard, log: seq<Advance>)
    requires cfg.Valid() && Earned(cfg, s, log)
    ensures StartPage(cfg, s) == Min(cfg.maxOffsetPages, |log| + 1) >= 1
    ensures StartPage(cfg, s) == |log| + 1 || (StartPage(cfg, s) == cfg.maxOffsetPages == |log|)
    ensures !DeadEnd(cfg, s) && StartPage(cfg, s) > 1 ==> StartPage(cfg, s) == |log| + 1
  {
    hide EvidenceFor, Matches, Committable, Justified;
  }

  lemma ExtendLog(cfg: Config, log: seq<Advance>, i: Input)
    requires forall k :: 0 <= k < |log| ==> Justified(cfg, log, k)
    requires Committable(cfg, i)
    requires log != [] ==>
      && !i.overlapRead.HasErrors()
      && Matches(Stored(EvidenceFor(cfg, log[|log| - 1].input.newPage)), EvidenceFor(cfg, i.overlapRead))
    ensures var longer := log + [Advance(|log| + 1, i)];
            forall k :: 0 <= k < |longer| ==> Justified(cfg, longer, k)
  {
    hide EvidenceFor, Matches, Committable, Stored;
    var longer := log + [Advance(|log| + 1, i)];
    forall k | 0 <= k < |longer| ensures Justified(cfg, longer, k) {
      if k < |log| {
        assert Justified(cfg, log, k);
      }
    }
  }

  lemma PersistCommits(s: Shard, o: Outcome, accepted: bool, start: int)
    requires o.Finished? && o.report.progressPage == start + 1 && o.report.overlapPage == Some(start)
    requires s.progressPage.Some? && 1 <= start && s.progressPage.value <= start + 1
    ensures var t := Persist(s, o, accepted);
            t.progressPage == Some(start + 1) && t.overlapPage == Some(start) && t.evidence == Stored(o.report.evidence)
  {
    hide Stored, Concludes;
  }

  /** A page-1 attempt that commits starts its log over; otherwise the log grows by the start page. */
  lemma CommitIsEarned(cfg: Config, s: Shard, log: seq<Advance>, i: Input, accepted: bool)
    requires cfg.Valid() && Earned(cfg, s, log)
    requires Attempt(cfg, s, i).Finished?
    requires !DeadEnd(cfg, s) && Moved(cfg, s, i, Attempt(cfg, s, i).report)
    ensures var start := StartPage(cfg, s);
            && start >= 1 && start - 1 <= |log| <= start
            && Earned(cfg, Persist(s, Attempt(cfg, s, i), accepted), log[..start - 1] + [Advance(start, i)])
  {
    hide EvidenceFor, Matches, Committable, Attempt, Stored, DeadEnd, StartPage, Justified, Persist;
    CursorWithinCap(cfg, s, log);
    var start := StartPage(cfg, s);
    if start == |log| + 1 {
      assert log[..start - 1] == log;
    } else {
      assert log[..start - 1] == [];
    }
    var base := log[..start - 1];
    var longer := base + [Advance(|base| + 1, i)];
    assert Advance(|base| + 1, i) == Advance(start, i);
    ExtendLog(cfg, base, i);
    assert |longer| == start && longer[start - 1].input == i;
    PersistCommits(s, Attempt(cfg, s, i), accepted, start);
  }

  lemma RetryIsEarned(cfg: Config, s: Shard, log: seq<Advance>, o: Outcome, accepted: bool)
    requires cfg.Valid() && Earned(cfg, s, log)
    requires o.Finished? && Unmoved(cfg, s, o.report)
    ensures Earned(cfg, Persist(s, o, accepted), log)
  {
    CursorWithinCap(cfg, s, log);
    hide EvidenceFor, Matches, Committable, Justified, DeadEnd, StartPage, Stored, Concludes;
    if log != [] {
      StoredTwice(EvidenceFor(cfg, log[|log| - 1].input.newPage));
    }
  }

  lemma StoredTwice(e: seq<Item>)
    ensures Stored(Stored(e)) == Stored(e)
  {
  }

  /** One attempt and its write: the cursor stays earned, and the committed pages advance by at most one. */
  lemma TryIsSound(cfg: Config, h: History, accepted: bool)
    requires cfg.Valid() && Sound(cfg, h)
    requires h.flight.Some? && !h.flight.value.overtaken
    ensures var g := Next(cfg, h, Finish(accepted));
            Sound(cfg, g) && |h.log| <= |g.log| <= |h.log| + 1
  {
    hide *;
    var s, i := h.shard, h.flight.value.input;
    FlightOf(cfg, h);
    FinishIs(cfg, h, accepted);
    if Attempt(cfg, s, i).Finished? {
      AttemptMoves(cfg, s, i);
      CursorWithinCap(cfg, s, h.log);
      if !DeadEnd(cfg, s) && Moved(cfg, s, i, Attempt(cfg, s, i).report) {
        CommitIsEarned(cfg, s, h.log, i, accepted);
      } else {
        RetryIsEarned(cfg, s, h.log, Attempt(cfg, s, i), accepted);
      }
    }
  }

  lemma FlightOf(cfg: Config, h: History)
    requires Sound(cfg, h)
    ensures Earned(cfg, h.shard, h.log)
    ensures h.flight.Some? ==>
              if h.flight.value.overtaken then h.log == [] && h.shard == REARMED else h.shard == h.flight.value.shard
  {
  }

  lemma FinishIs(cfg: Config, h: History, accepted: bool)
    requires h.flight.Some?
    ensures var f, g := h.flight.value, Next(cfg, h, Finish(accepted));
            var o, start := Attempt(cfg, f.shard, f.input), StartPage(cfg, f.shard);
            && g.flight.None?
            && (Earned(cfg, g.shard, g.log) ==> Sound(cfg, g))
            && (o.Aborted? ==> g.shard == h.shard && g.log == h.log)
            && (o.Finished? ==>
                  && g.shard == Persist(h.shard, o, accepted)
                  && (Unmoved(cfg, f.shard, o.report) ==> g.log == h.log)
                  && (f.overtaken ==> g.log == h.log)
                  && (!f.overtaken && Moved(cfg, f.shard, f.input, o.report) && 1 <= start <= |h.log| + 1 ==>
                        g.log == h.log[..start - 1] + [Advance(start, f.input)]))
  {
    hide Attempt, StartPage, Persist, Earned, OverlapUnchanged, Committable, EvidenceFor;
  }

  /** An attempt that was under way when its shard was re-armed writes a cursor beyond page 1. */
  predicate LateWrite(cfg: Config, h: History, e: Event) {
    && e.Finish? && h.flight.Some? && h.flight.value.overtaken
    && var o := Attempt(cfg, h.flight.value.shard, h.flight.value.input);
       o.Finished? && o.report.progressPage > 1
  }

  /** A write that was overtaken leaves the cursor earned exactly when it stays on page 1. */
  lemma OvertakenWrite(cfg: Config, h: History, accepted: bool)
    requires cfg.Valid() && Sound(cfg, h)
    requires h.flight.Some? && h.flight.value.overtaken
    ensures Sound(cfg, Next(cfg, h, Finish(accepted))) <==> !LateWrite(cfg, h, Finish(accepted))
  {
    hide *;
    FlightOf(cfg, h);
    FinishIs(cfg, h, accepted);
    LateIs(cfg, h, accepted);
    SoundIsEarned(cfg, Next(cfg, h, Finish(accepted)));
    var o := Attempt(cfg, h.flight.value.shard, h.flight.value.input);
    if o.Finished? {
      OvertakenCursor(cfg, o, accepted);
    }
  }

  lemma SoundIsEarned(cfg: Config, h: History)
    ensures Sound(cfg, h) ==> Earned(cfg, h.shard, h.log)
  {
  }

  lemma LateIs(cfg: Config, h: History, accepted: bool)
    requires h.flight.Some? && h.flight.value.overtaken
    ensures var o := Attempt(cfg, h.flight.value.shard, h.flight.value.input);
            LateWrite(cfg, h, Finish(accepted)) <==> o.Finished? && o.report.progressPage > 1
  {
    hide Attempt;
  }

  lemma OvertakenCursor(cfg: Config, o: Outcome, accepted: bool)
    requires o.Finished?
    ensures Earned(cfg, Persist(REARMED, o, accepted), []) <==> o.report.progressPage <= 1
  {
    hide Stored, Concludes;
  }

  lemma StepIsSoundExactly(cfg: Config, h: History, e: Event)
    requires cfg.Valid() && Sound(cfg, h)
    ensures Sound(cfg, Next(cfg, h, e)) <==> !LateWrite(cfg, h, e)
  {
    match e {
      case Rearm => FreshIsEarned(cfg);
      case Begin(i) =>
      case Finish(accepted) =>
        hide Sound, Next, Attempt;
        if h.flight.Some? {
          if h.flight.value.overtaken {
            OvertakenWrite(cfg, h, accepted);
          } else {
            TryIsSound(cfg, h, accepted);
          }
        } else {
          NothingFinishes(cfg, h, accepted);
        }
    }
  }

  lemma NothingFinishes(cfg: Config, h: History, accepted: bool)
    requires h.flight.None?
    ensures Next(cfg, h, Finish(accepted)) == h
  {
  }

  lemma FreshIsEarned(cfg: Config)
    requires cfg.Valid()
    ensures Earned(cfg, REARMED, []) && Sound(cfg, FRESH)
  {
  }

  ghost predicate SoundAt(cfg: Config, events: seq<Event>, n: nat)
    requires n <= |events|
  {
    Sound(cfg, RunOf(cfg, events[..n]))
  }

  predicate LateAt(cfg: Config, events: seq<Event>, n: nat)
    requires n < |events|
  {
    LateWrite(cfg, RunOf(cfg, events[..n]), events[n])
  }

  predicate NeverLate(cfg: Config, events: seq<Event>) {
    forall n :: 0 <= n < |events| ==> !LateAt(cfg, events, n)
  }

  lemma RunStep(cfg: Config, events: seq<Event>, n: nat)
    requires n < |events|
    ensures RunOf(cfg, events[..n + 1]) == Next(cfg, RunOf(cfg, events[..n]), events[n])
  {
    assert events[..n + 1][..n] == events[..n];
  }

  /**
   * No page is ever skipped. After every sequence of attempts and re-arms in
   * which no overtaken attempt writes late, each page below the cursor was
   * committed since the last re-arm from a complete, error-free read in which
   * nothing overflowed, and each but the first only after the page before it had
   * been reread and found unchanged; the stored overlap is the page just below
   * the cursor with that page's own evidence.
   */
  lemma {:induction false} NoPageIsSkipped(cfg: Config, events: seq<Event>)
    requires cfg.Valid() && NeverLate(cfg, events)
    ensures Sound(cfg, RunOf(cfg, events))
  {
    SoundUntilLate(cfg, events, |events|);
    assert events[..|events|] == events;
  }

  lemma {:induction false} SoundUntilLate(cfg: Config, events: seq<Event>, n: nat)
    requires cfg.Valid() && n <= |events| && forall k :: 0 <= k < n ==> !LateAt(cfg, events, k)
    ensures SoundAt(cfg, events, n)
  {
    hide Next, Sound, LateWrite;
    if n == 0 {
      FreshIsEarned(cfg);
    } else {
      SoundUntilLate(cfg, events, n - 1);
      RunStep(cfg, events, n - 1);
      assert !LateAt(cfg, events, n - 1);
      StepIsSoundExactly(cfg, RunOf(cfg, events[..n - 1]), events[n - 1]);
    }
  }

  /** The boundary is exact: the cursor is earned throughout a run just when no overtaken attempt writes late. */
  lemma CursorIsEarnedExactlyWhen(cfg: Config, events: seq<Event>)
    requires cfg.Valid()
    ensures (forall n :: 0 <= n <= |events| ==> SoundAt(cfg, events, n)) <==> NeverLate(cfg, events)
  {
    hide Next, Sound, LateWrite;
    if forall n :: 0 <= n <= |events| ==> SoundAt(cfg, events, n) {
      forall n | 0 <= n < |events| ensures !LateAt(cfg, events, n) {
        assert SoundAt(cfg, events, n) && SoundAt(cfg, events, n + 1);
        RunStep(cfg, events, n);
        StepIsSoundExactly(cfg, RunOf(cfg, events[..n]), events[n]);
      }
    }
    if NeverLate(cfg, events) {
      forall n | 0 <= n <= |events| ensures SoundAt(cfg, events, n) {
        SoundUntilLate(cfg, events, n);
      }
    }
  }

  /**
   * The "no compatible evidence" dead end is met in a run exactly when the
   * cursor has already passed the last public page (and there is more than one).
   */
  lemma DeadEndOnlyPastTheCap(cfg: Config, events: seq<Event>)
    requires cfg.Valid() && NeverLate(cfg, events)
    ensures var s := RunOf(cfg, events).shard;
            s.progressPage.Some? && (DeadEnd(cfg, s) <==> s.progressPage.value > cfg.maxOffsetPages > 1)
  {
    hide DeadEnd, RunOf;
    NoPageIsSkipped(cfg, events);
    DeadEndExactly(cfg, RunOf(cfg, events).shard, RunOf(cfg, events).log);
  }

  // ----- which conclusions are stored

  lemma NewVisitLimits(cfg: Config, s: Shard, i: Input)
    requires !DeadEnd(cfg, s)
    ensures var visit := VisitNew(cfg, s, i);
            && (visit.Stop? && visit.report.unresolved.Some? ==>
                  && visit.report.limited && ReadsNew(i)
                  && (visit.report.unresolved == Some(SourceExhaustedBeforeBoundary) ==> i.newPage.AllEmpty()))
            && (visit.Continue? ==> visit.report.unresolved.None? && ReadsNew(i))
            && (ReadsNew(i) && !visit.Abort? ==> visit.report.observed == NewTally(cfg, i).observed)
  {
    hide NewTally, EvidenceFor, StartPage, UsableOverlap, Complete, Committable;
  }

  lemma OverlapVisitLimits(cfg: Config, s: Shard, i: Input, v: Report, t: Tally, pending: Option<Pending>)
    requires v.unresolved.None?
    ensures var visit := VisitOverlap(cfg, s, i, v, t, pending);
            && !visit.Continue?
            && (visit.Stop? ==>
                  && visit.report.observed >= v.observed
                  && visit.report.unresolved != Some(SourceExhaustedBeforeBoundary)
                  && (visit.report.unresolved.Some? ==> visit.report.limited))
  {
    hide StartPage, Revalidated, PageRead.HasErrors, PageRead.Aborts, PageRead.Short;
    var visit := VisitOverlap(cfg, s, i, v, t, pending);
    if !i.lateForOverlap && visit.Stop? {
      var short := StartPage(cfg, s) == 2 && i.overlapRead.Short(cfg.minExpectedItems);
      RevalidatedLimits(cfg, s, i, v.(parserDegraded := v.parserDegraded || short,
        limited := v.limited || i.overlapRead.HasErrors() || short), t.seen, t.listings, pending);
    }
  }

  lemma RevalidatedLimits(cfg: Config, s: Shard, i: Input, v: Report, seen: set<string>, listings: seq<Ad>, pending: Option<Pending>)
    requires v.unresolved.None?
    ensures var w := Revalidated(cfg, s, i, v, seen, listings, pending);
            && w.observed >= v.observed
            && w.unresolved != Some(SourceExhaustedBeforeBoundary)
            && (w.unresolved.Some? ==> w.limited)
  {
    hide StartPage, PageTally, OverlapUnchanged;
  }

  lemma ConcludeLimits(cfg: Config, v: Report)
    requires v.unresolved.Some? ==> v.limited
    ensures var o := Conclude(cfg, v);
            && o.Finished? && o.report.observed == v.observed
            && (o.report.unresolved.Some? ==> o.report.limited)
            && (o.report.unresolved == Some(SourceExhaustedBeforeBoundary) ==> v.unresolved == o.report.unresolved)
            && (o.verified ==> !o.report.parserDegraded && o.report.unresolved.None?)
  {
  }

  /** A report that gives up carries a degraded reason; in a dead end or at an exhausted source it observed nothing. */
  lemma AttemptLimits(cfg: Config, s: Shard, i: Input)
    requires cfg.Valid() && Attempt(cfg, s, i).Finished?
    ensures var o := Attempt(cfg, s, i);
            && (o.report.unresolved.Some? ==> o.report.limited)
            && (o.verified ==> !o.report.parserDegraded && o.report.unresolved.None?)
            && (DeadEnd(cfg, s) || o.report.unresolved == Some(SourceExhaustedBeforeBoundary) ==> o.report.observed == 0)
            && (!DeadEnd(cfg, s) && ReadsNew(i) ==> o.report.observed >= NewTally(cfg, i).observed)
  {
    EmptyNewPage(cfg, i);
    if DeadEnd(cfg, s) {
      ConcludeLimits(cfg, Initially(cfg, s));
    } else {
      NewVisitLimits(cfg, s, i);
      var first := VisitNew(cfg, s, i);
      if first.Stop? {
        ConcludeLimits(cfg, first.report);
      } else if first.Continue? {
        OverlapVisitLimits(cfg, s, i, first.report, first.tally, first.pending);
        var second := VisitOverlap(cfg, s, i, first.report, first.tally, first.pending);
        if second.Stop? {
          ConcludeLimits(cfg, second.report);
        }
      }
    }
    hide VisitNew, VisitOverlap, Conclude, DeadEnd, StartPage, NewTally, ReadsNew;
  }

  /**
   * Which attempts end a recovery: accepted verified coverage, or a report that
   * gives up after adverts were observed by a healthy parser. A dead end and an
   * exhausted source are never stored: such a window stays pending.
   */
  lemma ConcludesExactlyWhen(cfg: Config, s: Shard, i: Input, accepted: bool)
    requires cfg.Valid() && Attempt(cfg, s, i).Finished?
    ensures var o := Attempt(cfg, s, i);
            && (!Persist(s, o, accepted).pending
                <==> (o.verified && accepted) || (o.report.unresolved.Some? && !o.report.parserDegraded && o.report.observed > 0))
            && (DeadEnd(cfg, s) || o.report.unresolved == Some(SourceExhaustedBeforeBoundary) ==> Persist(s, o, accepted).pending)
  {
    hide *;
    AttemptLimits(cfg, s, i);
    VerifiedExactlyWhen(cfg, s, i);
    StartPageBounds(cfg, s);
    DeadEndIs(cfg, s);
    if NewPageProves(cfg, i) {
      ProvenIsCommittable(cfg, i);
      ProvenObserves(cfg, i);
    }
    PendingIs(s, Attempt(cfg, s, i), accepted);
  }

  lemma DeadEndIs(cfg: Config, s: Shard)
    ensures DeadEnd(cfg, s) <==> StartPage(cfg, s) > 1 && !UsableOverlap(cfg, s)
  {
    hide StartPage, UsableOverlap;
  }

  lemma ProvenObserves(cfg: Config, i: Input)
    requires NewPageProves(cfg, i) && Committable(cfg, i)
    ensures ReadsNew(i) && NewTally(cfg, i).observed > 0
  {
    hide NewTally, BoundaryReached, Complete;
  }

  /** A dead end is for good: attempts leave such a shard pending where it is, and only a re-arm leads out. */
  lemma DeadEndStays(cfg: Config, s: Shard, log: seq<Advance>, i: Input, accepted: bool)
    requires cfg.Valid() && Earned(cfg, s, log) && DeadEnd(cfg, s)
    ensures Attempt(cfg, s, i).Finished?
    ensures var t := Persist(s, Attempt(cfg, s, i), accepted);
            && t.pending && t.progressPage == s.progressPage && t.overlapPage == s.overlapPage && t.evidence == s.evidence
            && DeadEnd(cfg, t) && Earned(cfg, t, log)
  {
    ConcludeLimits(cfg, Initially(cfg, s));
    AttemptLimits(cfg, s, i);
    ConcludesExactlyWhen(cfg, s, i, accepted);
    DeadEndExactly(cfg, s, log);
    hide Stored, Justified, Concludes, EvidenceFor, UsableOverlap, Matches, VisitNew, VisitOverlap, DeadEnd;
    var t := Persist(s, Attempt(cfg, s, i), accepted);
    assert Earned(cfg, t, log);
    DeadEndExactly(cfg, t, log);
  }

  lemma PendingIs(s: Shard, o: Outcome, accepted: bool)
    requires o.Finished?
    ensures Persist(s, o, accepted).pending
       <==> !(!o.report.parserDegraded && !(o.report.limited && o.report.observed == 0)
              && ((o.verified && accepted) || o.report.unresolved.Some?))
  {
    hide Stored;
  }

  // ----- stored evidence and page membership

  /** What the bounded list keeps of a page: the version tag and the first 99 feeds. */
  ghost function KeptMembership(cfg: Config, read: PageRead): (m: map<string, multiset<string>>) {
    FirstMembership(cfg.collation, read.Core(), 99)
  }

  /**
   * What a match against stored evidence means, for pages of any size: both pages
   * are unambiguous, and the reread page consists of exactly the feeds that were
   * kept of the stored one, with the same adverts.
   */
  lemma StoredEvidenceMatches(cfg: Config, a: PageRead, b: PageRead)
    requires cfg.Valid()
    ensures Matches(Stored(EvidenceFor(cfg, a)), EvidenceFor(cfg, b))
            <==> Usable(a.Core()) && Usable(b.Core()) && PageableKeys(a.Core()) != []
                 && KeptMembership(cfg, a) == Membership(b.Core())
  {
    hide Usable, Membership, PageableKeys, FirstMembership, EvidenceOf, Matches;
    CutEvidenceMatches(cfg.collation, a.Core(), 99, b.Core());
    assert Stored(EvidenceFor(cfg, a)) == CutEvidence(cfg.collation, a.Core(), 99);
  }

  /** Up to 99 feeds everything is kept. */
  lemma SmallPagesAreKept(cfg: Config, a: PageRead)
    requires |PageableKeys(a.Core())| < 100
    ensures KeptMembership(cfg, a) == Membership(a.Core())
  {
    hide Sort, PageableKeys, Snapshot;
    var keys := Sort(cfg.collation.keys, PageableKeys(a.Core()));
    SameMembers(keys, PageableKeys(a.Core()));
    assert FirstSnapshot(cfg.collation, a.Core(), 99) == Snapshot(a.Core());
  }

  /**
   * An unchanged page revalidates exactly when it has at most 99 feeds: the
   * bounded list has room for the version tag and 99 targets.
   */
  lemma UnchangedPageRevalidates(cfg: Config, a: PageRead, b: PageRead)
    requires cfg.Valid()
    requires Usable(a.Core()) && Usable(b.Core()) && Membership(a.Core()) == Membership(b.Core())
    ensures Matches(Stored(EvidenceFor(cfg, a)), EvidenceFor(cfg, b)) <==> 0 < |PageableKeys(a.Core())| < 100
  {
    hide Usable, Membership;
    EvidenceIsCanonical(cfg.collation, a.Core(), b.Core());
    EvidenceLength(cfg.collation, a.Core());
    EvidenceLength(cfg.collation, b.Core());
    SameFeedCount(a.Core(), b.Core());
  }

  lemma EvidenceLength(c: Collation, feeds: seq<FeedResult>)
    requires Usable(feeds)
    ensures |EvidenceOf(c, feeds)| == |PageableKeys(feeds)| + 1
  {
    SameMembers(Sort(c.keys, PageableKeys(feeds)), PageableKeys(feeds));
  }

  lemma SameFeedCount(a: seq<FeedResult>, b: seq<FeedResult>)
    requires Usable(a) && Usable(b) && Membership(a) == Membership(b)
    ensures |PageableKeys(a)| == |PageableKeys(b)|
  {
    hide PageableKeys;
    DistinctCardinality(PageableKeys(a));
    DistinctCardinality(PageableKeys(b));
    assert Snapshot(a).Keys == Membership(a).Keys == Membership(b).Keys == Snapshot(b).Keys;
  }

  // ----- what a finished recovery rests on

  /** Page k was read completely and listed fully, and by then what was kept of page k - 1 still held exactly its adverts. */
  ghost predicate Linked(cfg: Config, log: seq<Advance>, k: nat)
    requires k < |log|
  {
    && log[k].page == k + 1
    && Committable(cfg, log[k].input)
    && (k > 0 ==>
          && !log[k].input.overlapRead.HasErrors()
          && KeptMembership(cfg, log[k - 1].input.newPage) == Membership(log[k].input.overlapRead.Core()))
  }

  /**
   * When an attempt of a run verifies coverage from page p, pages 1 to p - 1 form
   * an unbroken chain in which each page still held the same adverts, in its
   * first 99 feeds, after the next page had been read.
   */
  lemma VerifiedCoverageIsUnbroken(cfg: Config, events: seq<Event>, i: Input)
    requires cfg.Valid() && NeverLate(cfg, events)
    requires |RunOf(cfg, events).log| < cfg.maxOffsetPages
    requires var o := Attempt(cfg, RunOf(cfg, events).shard, i); o.Finished? && o.verified
    ensures NewPageProves(cfg, i)
    ensures var log := RunOf(cfg, events).log + [Advance(|RunOf(cfg, events).log| + 1, i)];
            forall k :: 0 <= k < |log| ==> Linked(cfg, log, k)
  {
    hide *;
    var h := RunOf(cfg, events);
    NoPageIsSkipped(cfg, events);
    FlightOf(cfg, h);
    VerifiedExactlyWhen(cfg, h.shard, i);
    CursorWithinCap(cfg, h.shard, h.log);
    VerifiedExtendsLog(cfg, h, i);
    ChainOf(cfg, h.log + [Advance(|h.log| + 1, i)]);
  }

  lemma VerifiedExtendsLog(cfg: Config, h: History, i: Input)
    requires cfg.Valid() && Sound(cfg, h) && StartPage(cfg, h.shard) == |h.log| + 1
    requires NewPageProves(cfg, i)
    requires h.log != [] ==> OverlapProves(cfg, h.shard, i)
    ensures var longer := h.log + [Advance(|h.log| + 1, i)];
            forall k :: 0 <= k < |longer| ==> Justified(cfg, longer, k)
  {
    hide *;
    ProvenIsCommittable(cfg, i);
    LogOf(cfg, h, i);
    ExtendLog(cfg, h.log, i);
  }

  lemma ProvenIsCommittable(cfg: Config, i: Input)
    requires NewPageProves(cfg, i)
    ensures Committable(cfg, i)
  {
    hide EvidenceFor, NewTally, BoundaryReached, Complete;
    BoundarySignals(cfg, i);
  }

  lemma LogOf(cfg: Config, h: History, i: Input)
    requires Sound(cfg, h)
    ensures forall k :: 0 <= k < |h.log| ==> Justified(cfg, h.log, k)
    ensures h.log != [] && OverlapProves(cfg, h.shard, i) ==>
              && !i.overlapRead.HasErrors()
              && Matches(Stored(EvidenceFor(cfg, h.log[|h.log| - 1].input.newPage)), EvidenceFor(cfg, i.overlapRead))
  {
    hide EvidenceFor, Matches, Stored, Justified;
  }

  lemma ChainOf(cfg: Config, log: seq<Advance>)
    requires cfg.Valid()
    requires forall k :: 0 <= k < |log| ==> Justified(cfg, log, k)
    ensures forall k :: 0 <= k < |log| ==> Linked(cfg, log, k)
  {
    hide EvidenceFor, Matches, Committable, Stored, Membership, PageableKeys, Justified, KeptMembership;
    forall k | 0 <= k < |log| ensures Linked(cfg, log, k) {
      LogEntry(cfg, log, k);
      if k > 0 {
        StoredEvidenceMatches(cfg, log[k - 1].input.newPage, log[k].input.overlapRead);
      }
    }
  }

  lemma LogEntry(cfg: Config, log: seq<Advance>, k: nat)
    requires k < |log| && Justified(cfg, log, k)
    ensures log[k].page == k + 1 && Committable(cfg, log[k].input)
    ensures k > 0 ==> !log[k].input.overlapRead.HasErrors()
                      && Matches(Stored(EvidenceFor(cfg, log[k - 1].input.newPage)), EvidenceFor(cfg, log[k].input.overlapRead))
  {
    hide EvidenceFor, Matches, Committable, Stored;
  }

  // ----- pages with many feeds

  const API := "OLX_PUBLIC_API"

  function Xs(n: nat): (target: string) {
    seq(n, _ => 'x')
  }

  /** A page of n empty feeds with different targets. */
  function WidePage(n: nat): (read: PageRead) {
    PageRead(seq(n, k requires 0 <= k < n => Ads(k == 0, Xs(k), API, [])), [], [])
  }

  lemma {:induction false} WideKeys(feeds: seq<FeedResult>)
    requires forall k :: 0 <= k < |feeds| ==> feeds[k] == Ads(k == 0, Xs(k), API, [])
    ensures |PageableKeys(feeds)| == |feeds| && Usable(feeds)
    ensures forall k :: 0 <= k < |feeds| ==> PageableKeys(feeds)[k] == Key(Xs(k), API)
  {
    if feeds != [] {
      var n := |feeds| - 1;
      WideKeys(feeds[..n]);
      forall i, j | 0 <= i < j < |feeds| ensures Key(Xs(i), API) != Key(Xs(j), API) {
        assert |Key(Xs(i), API)| != |Key(Xs(j), API)|;
      }
    }
  }

  /** Read twice without any change, such a page revalidates exactly when it has between 1 and 99 feeds; with 100 it never does. */
  lemma WidePageRevalidates(cfg: Config, n: nat)
    requires cfg.Valid()
    ensures Matches(Stored(EvidenceFor(cfg, WidePage(n))), EvidenceFor(cfg, WidePage(n))) <==> 0 < n < 100
  {
    assert WidePage(n).Core() == WidePage(n).direct;
    WideKeys(WidePage(n).Core());
    hide Usable, PageableKeys, EvidenceFor, Matches, Stored, Membership;
    UnchangedPageRevalidates(cfg, WidePage(n), WidePage(n));
  }
}
