/**
 * Concrete runs of the recovery that show where its guarantees end: past the
 * last public page, at a source that only seems exhausted, and when an attempt
 * is overtaken by a re-arm.
 */
module OlxRecoveryWitnesses {
  import opened Maybe
  import opened OlxTypes
  import opened OlxSelection
  import opened OlxEvidence
  import opened OlxRecovery
  import opened Ordering

  /** Two public pages. */
  function Small(c: Collation): (cfg: Config) {
    Config(2, 1, 0, false, c)
  }

  const CUTOFF := 5

  const NEW_AD := Ad("1", Some(10), None, Some(High), false, true)
  const OLD_AD := Ad("2", Some(1), None, Some(High), false, true)

  function OneAd(ad: Ad): (read: PageRead) {
    PageRead([Ads(true, "t", API, [ad])], [], [])
  }

  function Reading(newPage: PageRead, overlapRead: PageRead): (i: Input) {
    Input(Some(CUTOFF), {}, {}, 10, 0, true, false, false, newPage, overlapRead)
  }

  lemma OneAdIs(ad: Ad)
    requires ad.id != ""
    ensures var read := OneAd(ad);
            && read.Core() == read.Feeds() == [Ads(true, "t", API, [ad])]
            && !read.HasErrors() && !read.Aborts() && !read.AllEmpty() && !read.Short(0)
            && Usable(read.Core()) && |PageableKeys(read.Core())| == 1
  {
    var feed := Ads(true, "t", API, [ad]);
    var feeds := [feed];
    assert feed in feeds && feeds[..0] == [];
    assert feed.ads == [ad] && Ids([ad]) == [ad.id];
    assert OneAd(ad).Core() == feeds && OneAd(ad).Feeds() == feeds;
    assert feed in OneAd(ad).direct;
    assert PageableKeys(feeds) == [Key("t", API)];
  }

  lemma OneAdComplete(cfg: Config, ad: Ad)
    requires ad.id != ""
    ensures Complete(cfg, OneAd(ad))
  {
    OneAdIs(ad);
    EvidenceLength(cfg.collation, OneAd(ad).Core());
  }

  /** A new page of one unknown advert is observed; it reaches the cutoff exactly when the advert is older. */
  lemma OneAdTally(c: Collation, ad: Ad, overlapRead: PageRead)
    requires ad == NEW_AD || ad == OLD_AD
    ensures var t := NewTally(Small(c), Reading(OneAd(ad), overlapRead));
            t.observed == 1 && !t.limit && !t.anchored && (t.cutoff <==> ad == OLD_AD)
  {
    var cfg, i := Small(c), Reading(OneAd(ad), overlapRead);
    var start := Tally({}, [], 0, false, true, true);
    OneFeedTally(cfg, i, start, ad);
    var o := FeedOptions(cfg, i, {}, 10);
    OneAdCounts(o, ad);
    hide *;
    SelectOne(o, ad, {});
    OneAdSignals(o, ad);
    NewTallyIs(c, ad, overlapRead);
    AddOne(cfg, i, start, ad);
  }

  lemma OneAdCounts(o: Options, ad: Ad)
    requires ad == NEW_AD || ad == OLD_AD
    requires o.publishedAfter == Some(CUTOFF) && !o.includeRefreshed && o.known == {} && o.ignore == {} && o.maxCandidates == 10
    ensures Counted(o, ad) && (Before(o, ad) <==> ad == OLD_AD) && (Candidate(o, ad) <==> ad == NEW_AD) && Budget(o) > 0
  {
  }

  lemma OneFeedTally(cfg: Config, i: Input, start: Tally, ad: Ad)
    ensures TallyFeeds(cfg, i, {}, start, [Ads(true, "t", API, [ad])]) == AddFeed(cfg, i, {}, start, [ad])
  {
    hide AddFeed;
    assert [Ads(true, "t", API, [ad])][..0] == [];
  }

  lemma NewTallyIs(c: Collation, ad: Ad, overlapRead: PageRead)
    requires ad.id != ""
    ensures var cfg, i := Small(c), Reading(OneAd(ad), overlapRead);
            NewTally(cfg, i) == TallyFeeds(cfg, i, {}, Tally({}, [], 0, false, true, true), [Ads(true, "t", API, [ad])])
  {
    hide TallyFeeds;
    OneAdIs(ad);
  }

  lemma AddOne(cfg: Config, i: Input, start: Tally, ad: Ad)
    requires start == Tally({}, [], 0, false, true, true) && cfg.stopThreshold == 1 && i.maxCandidates == 10
    ensures var r, u := Select(FeedOptions(cfg, i, {}, 10), [ad], {}), AddFeed(cfg, i, {}, start, [ad]);
            && u.observed == r.observedCount && u.limit == r.candidateLimitReached
            && (u.anchored <==> r.identifiableCount > 0 && (r.allKnown || r.knownTailStreak >= 1) && !r.candidateLimitReached)
            && (u.cutoff <==> r.fullyBeforeCutoff && !r.candidateLimitReached)
  {
    hide Select, CountedIds, FeedOptions;
  }

  lemma OneAdSignals(o: Options, ad: Ad)
    requires Counted(o, ad) && o.ignore == {} && ad.id !in o.continuityKnown && o.publishedAfter.Some?
    ensures var r := Select(o, [ad], {});
            && !r.allKnown && r.knownTailStreak == 0
            && (r.fullyBeforeCutoff <==> Before(o, ad))
  {
    hide *;
    OneNeutral(o, ad);
    RecordMeaning(o, ad);
    OneCounting(o, ad);
    assert forall a :: a in [ad] <==> a == ad;
    CutoffSignalIsExact(o, [ad], {});
    AllKnownIsExact(o, [ad], {});
    KnownTailIsLongest(o, [ad], {});
  }

  lemma OneNeutral(o: Options, ad: Ad)
    requires Counted(o, ad) && o.ignore == {}
    ensures !Neutral(o, ad) && ad.id != ""
  {
  }

  lemma OneCounting(o: Options, ad: Ad)
    requires Counted(o, ad)
    ensures Counting(o, [ad]) == [ad]
  {
    RecordMeaning(o, ad);
    assert [ad][..0] == [];
  }

  // ----- past the last public page

  /** Page 1 shows a new advert. */
  function FirstInput(): (i: Input) {
    Reading(OneAd(NEW_AD), OneAd(NEW_AD))
  }

  /** Page 2 is older than the cutoff, and page 1 is unchanged. */
  function SecondInput(): (i: Input) {
    Reading(OneAd(OLD_AD), OneAd(NEW_AD))
  }

  function FirstEvidence(c: Collation): (e: seq<Item>) {
    EvidenceFor(Small(c), OneAd(NEW_AD))
  }

  function AfterFirst(c: Collation): (s: Shard) {
    Shard(true, Some(2), Some(2), Some(1), Stored(FirstEvidence(c)))
  }

  lemma Reads(ad: Ad, overlapRead: PageRead)
    requires ad == NEW_AD || ad == OLD_AD
    ensures var i := Reading(OneAd(ad), overlapRead);
            ReadsNew(i) && !i.newPage.AllEmpty() && !i.newPage.Short(0) && i.publishedAfter == Some(CUTOFF)
  {
    OneAdIs(ad);
  }

  lemma IsCommittable(c: Collation, ad: Ad, overlapRead: PageRead)
    requires c.Valid() && (ad == NEW_AD || ad == OLD_AD)
    ensures var cfg, i := Small(c), Reading(OneAd(ad), overlapRead);
            && Committable(cfg, i) && ReadsNew(i) && !i.newPage.AllEmpty()
            && (BoundaryReached(cfg, i) <==> ad == OLD_AD)
            && (NewPageProves(cfg, i) <==> ad == OLD_AD)
  {
    var cfg, i := Small(c), Reading(OneAd(ad), overlapRead);
    OneAdTally(c, ad, overlapRead);
    OneAdComplete(cfg, ad);
    BoundarySignals(cfg, i);
    Reads(ad, overlapRead);
    hide NewTally, Complete, BoundaryReached, PageRead.HasErrors, PageRead.Aborts, PageRead.AllEmpty, OneAd;
  }

  /** The first attempt commits page 1 and concludes nothing. */
  lemma FirstAttempt(c: Collation)
    requires c.Valid()
    ensures var o := Attempt(Small(c), REARMED, FirstInput());
            && o.Finished? && !o.verified && o.report.unresolved.None?
            && o.report.progressPage == 2 && o.report.overlapPage == Some(1) && o.report.evidence == FirstEvidence(c)
  {
    hide *;
    var cfg, i := Small(c), FirstInput();
    FirstStarts(c);
    AdsDiffer();
    IsCommittable(c, NEW_AD, OneAd(NEW_AD));
    FirstIs(c);
    NewVisitCommits(cfg, REARMED, i);
    FirstVisitStops(cfg, i);
    VerifiedExactlyWhen(cfg, REARMED, i);
    UnstableExactlyWhen(cfg, REARMED, i);
    ExhaustedExactlyWhen(cfg, REARMED, i);
    OffsetCapExactlyWhen(cfg, REARMED, i);
    FirstOutcome(cfg, i);
    AttemptMoves(cfg, REARMED, i);
    MovedIs(cfg, REARMED, i, Attempt(cfg, REARMED, i).report);
    ThreeReasons(Attempt(cfg, REARMED, i).report.unresolved);
  }

  lemma ThreeReasons(r: Option<Unresolved>)
    ensures r.None? || r == Some(UnstablePagination) || r == Some(PublicOffsetCap) || r == Some(SourceExhaustedBeforeBoundary)
  {
    if r.Some? {
      match r.value {
        case UnstablePagination =>
        case PublicOffsetCap =>
        case SourceExhaustedBeforeBoundary =>
      }
    }
  }

  lemma AdsDiffer()
    ensures NEW_AD != OLD_AD
  {
  }

  lemma FirstStarts(c: Collation)
    requires c.Valid()
    ensures Small(c).Valid() && Small(c).maxOffsetPages == 2
    ensures StartPage(Small(c), REARMED) == 1 && !DeadEnd(Small(c), REARMED) && !UsableOverlap(Small(c), REARMED)
  {
  }

  lemma FirstIs(c: Collation)
    ensures FirstInput() == Reading(OneAd(NEW_AD), OneAd(NEW_AD)) && FirstInput().newPage == OneAd(NEW_AD)
    ensures FirstEvidence(c) == EvidenceFor(Small(c), OneAd(NEW_AD))
  {
    hide EvidenceFor;
  }

  lemma MovedIs(cfg: Config, s: Shard, i: Input, v: Report)
    ensures Moved(cfg, s, i, v) ==>
              v.progressPage == StartPage(cfg, s) + 1 && v.overlapPage == Some(StartPage(cfg, s)) && v.evidence == EvidenceFor(cfg, i.newPage)
    ensures Unmoved(cfg, s, v) ==> v.progressPage == StartPage(cfg, s)
  {
    hide StartPage, EvidenceFor, Committable, OverlapUnchanged;
  }

  lemma FirstVisitStops(cfg: Config, i: Input)
    requires ReadsNew(i) && !UsableOverlap(cfg, REARMED)
    ensures VisitNew(cfg, REARMED, i).Stop?
  {
    hide NewTally, EvidenceFor, UsableOverlap, StartPage, Complete, Committable;
  }

  lemma FirstOutcome(cfg: Config, i: Input)
    requires !DeadEnd(cfg, REARMED) && VisitNew(cfg, REARMED, i).Stop?
    ensures var o := Attempt(cfg, REARMED, i);
            o.Finished? && o.report.progressPage == VisitNew(cfg, REARMED, i).report.progressPage
  {
    hide VisitNew, DeadEnd;
  }

  lemma FirstWrite(c: Collation, accepted: bool)
    requires c.Valid()
    ensures var o := Attempt(Small(c), REARMED, FirstInput());
            o.Finished? && Persist(REARMED, o, accepted) == AfterFirst(c)
  {
    FirstAttempt(c);
    hide Attempt, Stored, FirstEvidence;
  }

  /** The second attempt verifies coverage and commits page 2. */
  lemma SecondAttempt(c: Collation)
    requires c.Valid()
    ensures var o := Attempt(Small(c), AfterFirst(c), SecondInput());
            && o.Finished? && o.verified && o.report.unresolved.None?
            && o.report.progressPage == 3 && o.report.overlapPage == Some(2)
  {
    var cfg, s, i := Small(c), AfterFirst(c), SecondInput();
    SecondStarts(c);
    IsCommittable(c, OLD_AD, OneAd(NEW_AD));
    OneAdIs(NEW_AD);
    UnchangedPageRevalidates(cfg, OneAd(NEW_AD), OneAd(NEW_AD));
    SecondOverlap(c);
    VerifiedExactlyWhen(cfg, s, i);
    VerifiedCommits(cfg, s, i);
    AttemptLimits(cfg, s, i);
    hide Attempt, StartPage, UsableOverlap, OverlapProves, NewPageProves, EvidenceFor, Committable, OverlapUnchanged, AfterFirst, SecondInput;
  }

  lemma SecondStarts(c: Collation)
    requires c.Valid()
    ensures AfterFirst(c).pending && StartPage(Small(c), AfterFirst(c)) == 2 && UsableOverlap(Small(c), AfterFirst(c))
  {
    IsCommittable(c, NEW_AD, OneAd(NEW_AD));
    CommittedEvidence(Small(c), FirstInput());
    hide EvidenceFor, Stored, Committable;
  }

  lemma SecondOverlap(c: Collation)
    requires Matches(Stored(EvidenceFor(Small(c), OneAd(NEW_AD))), EvidenceFor(Small(c), OneAd(NEW_AD)))
    ensures OverlapProves(Small(c), AfterFirst(c), SecondInput())
  {
    OneAdIs(NEW_AD);
    hide EvidenceFor, Stored, Matches, PageRead.HasErrors, PageRead.Aborts, PageRead.Short;
  }

  const CAP_RUN: seq<Event> := [Begin(FirstInput()), Finish(true), Begin(SecondInput()), Finish(false)]

  /**
   * A run within the rules that ends pending and past the last public page: page
   * 2 of 2 verifies coverage, but the write does not accept the verification.
   */
  lemma PastTheCapIsReached(c: Collation)
    requires c.Valid()
    ensures NeverLate(Small(c), CAP_RUN)
    ensures var s := RunOf(Small(c), CAP_RUN).shard;
            s.pending && s.progressPage == Some(3) && DeadEnd(Small(c), s)
  {
    var cfg := Small(c);
    var first, second := FirstInput(), SecondInput();
    hide *;
    CapRun();
    FourSteps(cfg, CAP_RUN);
    FirstFlight(c, true);
    SecondFlight(c, Next(cfg, Next(cfg, FRESH, Begin(first)), Finish(true)));
    forall n | 0 <= n < 4 ensures !LateAt(cfg, CAP_RUN, n) {
      OnTime(cfg, CAP_RUN, n);
    }
    NeverLateIs(cfg, CAP_RUN);
  }

  lemma CapRun()
    ensures CAP_RUN == [Begin(FirstInput()), Finish(true), Begin(SecondInput()), Finish(false)]
    ensures FRESH.flight.None?
  {
    hide FirstInput, SecondInput;
  }

  lemma NeverLateIs(cfg: Config, events: seq<Event>)
    requires forall n :: 0 <= n < |events| ==> !LateAt(cfg, events, n)
    ensures NeverLate(cfg, events)
  {
    hide LateAt;
  }

  lemma OnTime(cfg: Config, events: seq<Event>, n: nat)
    requires n < |events|
    requires var h := RunOf(cfg, events[..n]); h.flight.Some? ==> !h.flight.value.overtaken
    ensures !LateAt(cfg, events, n)
  {
    hide RunOf;
  }

  lemma FourSteps(cfg: Config, events: seq<Event>)
    requires |events| == 4
    ensures RunOf(cfg, events[..0]) == FRESH
    ensures RunOf(cfg, events[..1]) == Next(cfg, FRESH, events[0])
    ensures RunOf(cfg, events[..2]) == Next(cfg, Next(cfg, FRESH, events[0]), events[1])
    ensures RunOf(cfg, events[..3]) == Next(cfg, Next(cfg, Next(cfg, FRESH, events[0]), events[1]), events[2])
    ensures RunOf(cfg, events) == Next(cfg, Next(cfg, Next(cfg, Next(cfg, FRESH, events[0]), events[1]), events[2]), events[3])
  {
    hide Next;
    assert events[..4] == events;
    RunStep(cfg, events, 0);
    RunStep(cfg, events, 1);
    RunStep(cfg, events, 2);
    RunStep(cfg, events, 3);
  }

  lemma FirstFlight(c: Collation, accepted: bool)
    requires c.Valid()
    ensures var cfg := Small(c);
            var a := Next(cfg, FRESH, Begin(FirstInput()));
            var b := Next(cfg, a, Finish(accepted));
            && a == History(REARMED, [], Some(Flight(REARMED, FirstInput(), false)))
            && b.shard == AfterFirst(c) && b.flight.None?
  {
    hide Attempt, Persist, AfterFirst, FirstInput, Small;
    FirstAttempt(c);
    FirstWrite(c, accepted);
  }

  lemma SecondFlight(c: Collation, h: History)
    requires c.Valid() && h.shard == AfterFirst(c) && h.flight.None?
    ensures var cfg := Small(c);
            var a := Next(cfg, h, Begin(SecondInput()));
            var s := Next(cfg, a, Finish(false)).shard;
            && a.flight == Some(Flight(h.shard, SecondInput(), false))
            && s.pending && s.progressPage == Some(3) && DeadEnd(cfg, s)
  {
    hide *;
    var cfg, i := Small(c), SecondInput();
    SecondStarts(c);
    BeginIs(cfg, h, i);
    SecondAttempt(c);
    FinishIs(cfg, Next(cfg, h, Begin(i)), false);
    SecondWrite(c, Attempt(cfg, AfterFirst(c), i));
  }

  lemma BeginIs(cfg: Config, h: History, i: Input)
    requires h.shard.pending && h.flight.None?
    ensures Next(cfg, h, Begin(i)) == h.(flight := Some(Flight(h.shard, i, false)))
  {
  }

  lemma SecondWrite(c: Collation, o: Outcome)
    requires o.Finished? && o.verified && o.report.unresolved.None?
    requires o.report.progressPage == 3 && o.report.overlapPage == Some(2)
    ensures var s := Persist(AfterFirst(c), o, false);
            s.pending && s.progressPage == Some(3) && DeadEnd(Small(c), s)
  {
    hide Stored;
  }

  // ----- an attempt overtaken by a re-arm

  const OVERTAKEN: seq<Event> := [Begin(FirstInput()), Rearm, Finish(true)]

  /** The cursor stands at page 2 although no page was read since the re-arm. */
  lemma OvertakenAttemptSkips(c: Collation)
    requires c.Valid()
    ensures LateAt(Small(c), OVERTAKEN, 2)
    ensures var h := RunOf(Small(c), OVERTAKEN);
            h.shard.progressPage == Some(2) && h.log == [] && !Sound(Small(c), h)
  {
    hide *;
    var cfg, i := Small(c), FirstInput();
    ThreeSteps(cfg, i);
    OvertakenIs(cfg, i);
    FirstAttempt(c);
    FirstWrite(c, true);
    var h := History(REARMED, [], Some(Flight(REARMED, i, true)));
    FinishIs(cfg, h, true);
    SecondPage(c);
    LateIs(cfg, h, true);
    FirstStarts(c);
    StaysUnsound(cfg, Next(cfg, h, Finish(true)));
  }

  lemma OvertakenIs(cfg: Config, i: Input)
    ensures Next(cfg, Next(cfg, FRESH, Begin(i)), Rearm) == History(REARMED, [], Some(Flight(REARMED, i, true)))
  {
  }

  lemma ThreeSteps(cfg: Config, i: Input)
    requires i == FirstInput()
    ensures var h := Next(cfg, Next(cfg, FRESH, Begin(i)), Rearm);
            && RunOf(cfg, OVERTAKEN) == Next(cfg, h, Finish(true))
            && |OVERTAKEN| == 3 && (LateAt(cfg, OVERTAKEN, 2) <==> LateWrite(cfg, h, Finish(true)))
  {
    hide Next, LateWrite, FirstInput;
    assert OVERTAKEN[..3] == OVERTAKEN && OVERTAKEN[..0] == [];
    RunStep(cfg, OVERTAKEN, 0);
    RunStep(cfg, OVERTAKEN, 1);
    RunStep(cfg, OVERTAKEN, 2);
  }

  lemma SecondPage(c: Collation)
    ensures AfterFirst(c).progressPage == Some(2)
  {
  }

  lemma StaysUnsound(cfg: Config, h: History)
    requires h.shard.progressPage == Some(2) && h.log == []
    ensures !Sound(cfg, h)
  {
  }

  // ----- a source that only seems exhausted

  /** One feed is empty and another failed. */
  const HALF_READ := PageRead([Ads(true, "t", API, []), Failed(false)], [], [])

  const AT_PAGE_TWO := Shard(true, Some(2), Some(2), Some(1), [Tag(EVIDENCE_VERSION)])

  /** On the third attempt an empty page exhausts the source even though one of its feeds failed; the verdict is not stored. */
  lemma ExhaustedDespiteFailedFeed(c: Collation, accepted: bool)
    requires c.Valid()
    ensures var cfg, i := Small(c), Reading(HALF_READ, HALF_READ).(priorAttempts := 2);
            var o := Attempt(cfg, AT_PAGE_TWO, i);
            && i.newPage.HasErrors()
            && o.Finished? && o.report.unresolved == Some(SourceExhaustedBeforeBoundary)
            && Persist(AT_PAGE_TWO, o, accepted).pending
  {
    var cfg, i := Small(c), Reading(HALF_READ, HALF_READ).(priorAttempts := 2);
    HalfRead();
    assert StartPage(cfg, AT_PAGE_TWO) == 2 && !DeadEnd(cfg, AT_PAGE_TWO);
    ExhaustedExactlyWhen(cfg, AT_PAGE_TWO, i);
    ConcludesExactlyWhen(cfg, AT_PAGE_TWO, i, accepted);
    hide Attempt, DeadEnd, StartPage, Persist;
  }

  lemma HalfRead()
    ensures HALF_READ.HasErrors() && !HALF_READ.Aborts() && HALF_READ.AllEmpty()
  {
    var feeds := HALF_READ.Feeds();
    assert feeds == [Ads(true, "t", API, []), Failed(false)];
    assert feeds[0] in feeds && feeds[1] in feeds;
  }
}
