# Verified model of the recovery and selection engine

This project models the part of the marketplace monitor that must not lose
adverts silently, and proves what it keeps:

* **OLX recovery** (`OlxRecovery`, `OlxEvidence`, `OlxMovingFeed`): an interrupted
  scan resumes over a feed whose page offsets move. Each attempt reads one new
  page, rereads the page before it, and advances only if the reread page is
  unchanged. `OlxRecoveryWitnesses` holds concrete runs at the limits.
* **OLX selection and hot handoff** (`OlxTypes`, `OlxSelection`,
  `OlxHotHandoff`): one pass classifies every advert of a feed and computes the
  signals that stop pagination; a preview hands adverts off as soon as a feed
  completes and must agree with the later full pass.
* **AUTO.RIA catch-up** (`PublicCatchup`), **card parsing** (`PublicCards`), **page
  ingestion** (`PublicScan`) and **known-tail selection** (`KnownTail`).
* **Page source scanners and decoders** (`CodeUnits`, `JsonScan`,
  `HtmlEntities`), on UTF-16 code units as the source's strings are.
* **Single-flight request sharing** (`FeedSharing`) and the **operator
  transactions on recovery windows** with the coverage report
  (`RecoveryWindows`).

Loops and mutable collections of the source are methods and classes; each is
proved equal to a function of its inputs or of the old state, and the results
are lemmas about those functions, about all inputs and all runs. Fetches,
clocks, admission to the background lane, deadlines, completion orders,
interleavings and the answers of `JSON.parse` to whole objects are arbitrary
inputs. What a decision means (too old, known tail, a valid card, a repeated page)
is defined once more over the plain records, dates and reads, and the code's
functions are equated with it. `dafny verify dfyconfig.toml` checks everything.

## Findings

Where a natural expectation is not true of the code, the project keeps the code
and proves the exact boundary, with an input that crosses it.

* **Recovery past the cap.** The "no compatible evidence" dead end is met in a
  run without late writes exactly when the cursor has passed the last public page
  and there is more than one (`OlxRecovery.DeadEndOnlyPastTheCap`). A verified attempt at the last
  page whose verification is not accepted gets there
  (`OlxRecoveryWitnesses.PastTheCapIsReached`), and only a re-arm leads out
  (`OlxRecovery.DeadEndStays`).
* **Conclusions that are not stored.** The writer drops the reason of a limited
  report without observed adverts (`apps/worker/src/processors/collector-run.ts:462-465`,
  `apps/worker/src/modules/source-search-plan.ts:608-612`), so a dead end and an
  exhausted source leave their window pending; `OlxRecovery.ConcludesExactlyWhen`
  says which attempts end a recovery.
* **Late writes.** A re-arm does not wait for an attempt under way. Its write
  then lifts the cursor over pages that were not read since the re-arm, exactly
  when it reports a page beyond 1 (`OlxRecovery.CursorIsEarnedExactlyWhen`,
  `OlxRecoveryWitnesses.OvertakenAttemptSkips`).
* **Stored evidence** is cut to 100 strings
  (`apps/worker/src/modules/source-search-plan.ts:881`), although the comment at
  `apps/worker/src/collectors/olx.ts:148-156` says the full page is retained. An
  unchanged page revalidates exactly when it has at most 99 feeds
  (`OlxRecovery.UnchangedPageRevalidates`; pages of every width:
  `OlxRecovery.WidePageRevalidates`), and a wider page matches a reread that
  holds only its first 99 (`OlxRecovery.StoredEvidenceMatches`).
* **A page that changes and changes back** between its two reads goes unnoticed
  (`OlxMovingFeed.ChangedBackIsMissed`); a page that keeps its adverts in between
  lets no staying advert pass (`OlxMovingFeed.EveryStayingAdvertIsRead`).
* The comment at `apps/worker/src/collectors/base.ts:171-175` says the resume
  page overlaps scanned depth; the code resumes at the next page never scanned
  and keeps the overlap as separate evidence. The model follows the code.
* **Exhaustion** is concluded by the attempt count alone, and other feeds of the
  page may have failed (`OlxRecovery.ExhaustedExactlyWhen`,
  `OlxRecoveryWitnesses.ExhaustedDespiteFailedFeed`).
* **Hot handoff.** With one record per id, a handed-off advert is listed exactly
  unless some full pass had no room for it (`OlxHotHandoff.HotIsListed`,
  `OlxHotHandoff.HandoffCanOutrunListings`). With conflicting records the
  handoffs exceed the limit by at most the adverts a full pass saw again without
  listing them (`OlxHotHandoff.HandoffIsBounded`,
  `OlxHotHandoff.ConflictingRecordsBreakTheBound`).
* **Catch-up cursor.** Every cursor that a call can store is accepted again
  exactly when no feed is at depth 50 without being done
  (`PublicCatchup.AcceptedExactlyWhenShallow`,
  `PublicCatchup.ValidatorAdmitsTooDeep`); no run from a fresh start stores such
  a feed (`PublicCatchup.NoFeedPageIsSkipped`).
* **Entities.** Any text is decoded exactly once just when no loose ampersand,
  raw or from a numeric reference, is followed by something a later pass decodes
  (`HtmlEntities.DecodesOnceExactlyWhen`); `&#38;lt;` becomes `<`
  (`HtmlEntities.NumericAmpersandDecodesTwice`).
* **Operator retry.** The retry handler decides by the cutoff it read before it
  asked for the lock, while a worker may give the window an older one. The
  shard's cutoff then falls short of its pending window exactly when such a
  report came in between and the shard's own cutoff does not reach it
  (`RecoveryWindows.StaleExactlyWhenLowered`,
  `RecoveryWindows.OvertakenRetryFallsShort`); the next report of the shard mends
  it (`RecoveryWindows.ReportMends`).
* The coverage report consults only the latest window of a shard: coverage can
  count as proved while an older window is still unresolved
  (`RecoveryWindows.OlderUnresolvedWindowIsNotConsulted`).

## Model

| member | source | states |
|---|---|---|
| `OlxTypes.BeforeCutoffIsExact` | apps/worker/src/collectors/olx-normalization.ts:329-353 | stated over the record alone: an advert is before the cutoff exactly when every publication time its dates, its confidence and its origin allow is before it; without a stated confidence a listing card may be from any time and any other advert only from its stamp |
| `OlxTypes.PublishedAtIsExact` | apps/worker/src/collectors/olx-normalization.ts:329-353 | a trustworthy publication time is the latest date that applies, and exists exactly for dated adverts whose dates are not only to the day |
| `OlxEvidence.PageEvidence` | apps/worker/src/collectors/olx.ts:157-176 | the map-filling loop with its early exits yields the canonical evidence of the page |
| `OlxEvidence.EvidenceIsCanonical` | apps/worker/src/collectors/olx.ts:157-186 | two page reads match exactly when both are unambiguous, a feed is pageable, and the same feed keys hold the same adverts with the same multiplicity |
| `OlxEvidence.CutEvidenceMatches` | apps/worker/src/collectors/olx.ts:157-186 | evidence cut to m targets matches a reread page exactly when that page consists of the first m feeds with the same adverts |
| `OlxEvidence.SnapshotOfFeed` | apps/worker/src/collectors/olx.ts:158-169 | in an unambiguous page the snapshot holds, under each feed's key, exactly that feed's ids |
| `OlxEvidence.KeyIsInjective` | apps/worker/src/collectors/olx.ts:139-161 | evidence keys never collide: a key determines target and channel |
| `OlxEvidence.EvidenceHasNoRepeats` | apps/worker/src/collectors/olx.ts:170-175 | evidence strings are pairwise different, so storing them in a set keeps them all in order |
| `OlxEvidence.EvidenceIsTagged` | apps/worker/src/collectors/olx.ts:138-146 | evidence is kept exactly for usable pages, begins with the version tag, and covers the six public channels and no other |
| `OlxSelection.SelectOlxCandidates` | apps/worker/src/collectors/olx.ts:1342-1437 | the pass computes every field of the selection as a fact about the whole feed, and adds exactly the counted ids to the shared seen set |
| `OlxSelection.RecordMeaning` | apps/worker/src/collectors/olx.ts:1363-1392 | too old, neutral, counted and worth listing are equated with conditions on the fields of the record |
| `OlxSelection.ListingsAreFirstWishes` | apps/worker/src/collectors/olx.ts:1387-1415 | what a pass lists is, in feed order, the first of the new adverts worth listing that fit the budget, and the limit flag says that there were more |
| `OlxSelection.ScannedAreSettled` | apps/worker/src/collectors/olx.ts:1387-1416 | an id is reported as scanned exactly when a counted advert has it known, too old or listed; the observed count is the number of newly counted ids |
| `OlxSelection.SelectionJoins` | apps/worker/src/collectors/olx.ts:1184-1205 | two feeds read one after the other with a shared seen set and budget select what one joint feed would, and exceed the budget when it would |
| `OlxSelection.KnownTail` | apps/worker/src/collectors/olx.ts:1419-1423 | the backward loop over ordering signals measures the known suffix |
| `OlxSelection.Accounting` | apps/worker/src/collectors/olx.ts:1355-1417 | every advert has one of eight fates, and the observed, identifiable and listed counts are the sums of the right ones |
| `OlxSelection.LimitMeansFullBudget` | apps/worker/src/collectors/olx.ts:1411-1415 | the limit flag is raised exactly when an advert overflowed, and then the budget is full |
| `OlxSelection.ListedAreCandidates` | apps/worker/src/collectors/olx.ts:1387-1415 | a listed advert comes from the feed, is unknown, normalisable, not before the cutoff and new to the scan |
| `OlxSelection.ListedAreDistinct` | apps/worker/src/collectors/olx.ts:1388-1415 | no id is listed twice |
| `OlxSelection.ListedOrOverflowed` | apps/worker/src/collectors/olx.ts:1388-1416 | with one record per id, the new candidate ids split into listed and overflowed ones |
| `OlxSelection.OverflowIsNotScanned` | apps/worker/src/collectors/olx.ts:1387-1416 | within one pass an overflowed id is unknown, was never seen before and is not reported as scanned |
| `OlxSelection.EveryNewIdIsAccounted` | apps/worker/src/collectors/olx.ts:1387-1416 | a newly counted id is scanned, overflowed or unnormalisable; none disappears |
| `OlxSelection.OverflowIsNeverScanned` | apps/worker/src/collectors/olx.ts:896-919 | over all passes of a scan sharing the seen set, overflowed ids never enter the scanned ids |
| `OlxSelection.CutoffSignalIsExact` | apps/worker/src/collectors/olx.ts:1363-1385 | the cutoff signal is raised exactly when some advert counts, all are identified, and each is neutral or certainly published before the cutoff |
| `OlxSelection.KnownTailIsLongest` | apps/worker/src/collectors/olx.ts:1379-1423 | the streak is the longest all-known suffix of the counted adverts |
| `OlxSelection.AllKnownIsExact` | apps/worker/src/collectors/olx.ts:1357-1382 | a feed is all known exactly when some advert counts, all are identified and each is neutral or known |
| `OlxSelection.OldestIsLeast` | apps/worker/src/collectors/olx.ts:1373-1375 | the oldest stamp is attained by a counted advert and bounds all their trustworthy stamps |
| `OlxHotHandoff.SelectHotOlxCandidates` | apps/worker/src/collectors/olx.ts:1170-1206 | the loop over feeds, with its early exit, lists what one pass over all their adverts would list with the same seen set, leaving that set untouched |
| `OlxHotHandoff.RealtimeScan.constructor` | apps/worker/src/collectors/olx.ts:201-203 | a scan starts with nothing seen, handed off or listed |
| `OlxHotHandoff.RealtimeScan.MarkHot` | apps/worker/src/collectors/olx.ts:440-443 | every previewed id, and no other, is added to the dispatched ids |
| `OlxHotHandoff.RealtimeScan.DispatchHotFeedResult` | apps/worker/src/collectors/olx.ts:420-445 | a completed feed changes only the dispatched ids and the handoff, as the dispatch event prescribes |
| `OlxHotHandoff.RealtimeScan.CommitFeed` | apps/worker/src/collectors/olx.ts:896-919 | the full pass over a feed changes seen ids, listings and the limit flag as the commit event prescribes |
| `OlxHotHandoff.PreviewHandsOffFirstWishes` | apps/worker/src/collectors/olx.ts:420-445 | a completed feed hands off the first new adverts worth listing, up to the room that listings and outstanding handoffs leave |
| `OlxHotHandoff.ScanListsFirstWishes` | apps/worker/src/collectors/olx.ts:896-919 | a whole scan lists the first maxCandidates new adverts worth listing among all adverts it committed, for every interleaving with previews, and knows whether there were more |
| `OlxHotHandoff.HandoffIsBounded` | apps/worker/src/collectors/olx.ts:420-445 | for every sequence of completions and full passes, whatever the records: nothing is handed off twice, at most maxCandidates are listed, and handoffs exceed maxCandidates by at most the adverts seen again without being listed; with one record per id they never do |
| `OlxHotHandoff.HotIsListed` | apps/worker/src/collectors/olx.ts:446-474 | over a whole scan, for every completion order, an advert handed off is in the final listings exactly unless some full pass overflowed it |
| `OlxHotHandoff.PreviewAgreesWithFullPass` | apps/worker/src/collectors/olx.ts:420-445 | if every feed was dispatched and no full pass overflowed, exactly the listed adverts were handed off |
| `OlxHotHandoff.HandoffCanOutrunListings` | apps/worker/src/collectors/olx.ts:425-438 | with room for one, the feed that completes first is handed off and then crowded out of the listings |
| `OlxHotHandoff.ConflictingRecordsBreakTheBound` | apps/worker/src/collectors/olx.ts:422-438 | with two records for one id, a scan with room for one hands off two, one of them displaced |
| `OlxRecovery.WindowIsBounded` | apps/worker/src/collectors/olx.ts:69-84 | a page window is a nonempty public range within the budget, starts at 1 outside recovery, and resumes at any stored page within the cap |
| `OlxRecovery.StartPageMeans` | apps/worker/src/collectors/olx.ts:280-304 | an attempt starts at the stored page within the public range, else at the nearest end of it |
| `OlxRecovery.TallyPage` | apps/worker/src/collectors/olx.ts:890-936 | the loop over successful feeds yields the page's tally and the scan's seen set |
| `OlxRecovery.PageTallyMeans` | apps/worker/src/collectors/olx.ts:890-936 | the feeds of a page together list, count and overflow as one joint feed would |
| `OlxRecovery.RevalidateOverlap` | apps/worker/src/collectors/olx.ts:856-949 | the overlap branch commits what is pending, or journals the shifted page and reports why it stopped |
| `OlxRecovery.JudgeNewPage` | apps/worker/src/collectors/olx.ts:926-1016 | the rest of the loop body for a new page: what it commits, keeps pending or ends the attempt with |
| `OlxRecovery.CollectRecovery` | apps/worker/src/collectors/olx.ts:280-344 | the attempt loop over at most two pages yields the attempt's outcome |
| `OlxRecovery.TallySignals` | apps/worker/src/collectors/olx.ts:926-936 | unless something overflowed, a page is anchored, or before the cutoff, exactly when each of its feeds is |
| `OlxRecovery.BoundarySignals` | apps/worker/src/collectors/olx.ts:926-1016 | the page signals decide whether the boundary was reached, and a page on which nothing was observed never reaches it |
| `OlxRecovery.BoundaryMeans` | apps/worker/src/collectors/olx.ts:926-936 | stated over adverts: the boundary is reached exactly when every nonempty feed speaks only of known adverts or ends in a full stop threshold of anchors, or every nonempty feed is certainly older than the cutoff |
| `OlxRecovery.VerifiedExactlyWhen` | apps/worker/src/collectors/olx.ts:1076-1079 | for every feed behaviour, coverage is verified exactly when the new page is a complete, fully listed, nonempty boundary page and, past page 1, the page before was reread without error and matched the stored evidence |
| `OlxRecovery.VerifiedMeans` | apps/worker/src/collectors/olx.ts:855-1079 | stated over feeds and adverts: coverage is verified exactly when slot and time allow, the new page is whole and within the budget, its adverts reach the boundary, the short-page guard of page 1 does not object, and past page 1 the page before was read again whole with the stored evidence |
| `OlxRecovery.VerdictMeaning` | apps/worker/src/collectors/olx.ts:929-1016 | which reason a verified attempt reports: the cutoff exactly when every feed is certainly older than it, the anchors otherwise |
| `OlxRecovery.UnstableExactlyWhen` | apps/worker/src/collectors/olx.ts:324-328 | unstable pagination is concluded exactly in a dead end or after two complete reads whose overlap differs and fits the budget; failed transport is retried |
| `OlxRecovery.ExhaustedExactlyWhen` | apps/worker/src/collectors/olx.ts:981-992 | exhaustion is concluded exactly when the new page is delivered without adverts on at least the third attempt |
| `OlxRecovery.OffsetCapExactlyWhen` | apps/worker/src/collectors/olx.ts:1037-1055 | the offset cap is blamed exactly from the last public page, after a complete and fully listed read without a boundary, when the overlap does not object |
| `OlxRecovery.AbortedExactlyWhen` | apps/worker/src/collectors/olx.ts:689-759 | an attempt ends without a result exactly when a page it asks for is refused or delivers nothing |
| `OlxRecovery.NoProgressExactly` | apps/worker/src/collectors/olx.ts:941-1016 | the reason for no progress, in every case, from what was asked for and what came back |
| `OlxRecovery.ObservedExactly` | apps/worker/src/collectors/olx.ts:896-949 | an attempt reports as observed the distinct counted ids of the new page and, when the reread page is journaled, those only that page shows |
| `OlxRecovery.AttemptMoves` | apps/worker/src/collectors/olx.ts:876-879 | an attempt leaves the cursor fields alone, or commits exactly its start page with that page's evidence after the overlap was found unchanged |
| `OlxRecovery.VerifiedCommits` | apps/worker/src/collectors/olx.ts:876-888 | verified coverage always comes with the commit of the page it was read from |
| `OlxRecovery.PersistMeans` | apps/worker/src/modules/source-search-plan.ts:709-729 | a write from behind the cursor changes nothing of it; any other puts its page, overlap and at most 100 evidence strings in place |
| `OlxRecovery.TryIsSound` | apps/worker/src/modules/source-search-plan.ts:709-729 | an attempt and its durable write keep the cursor earned and advance the committed pages by at most one |
| `OlxRecovery.ConcludesExactlyWhen` | apps/worker/src/modules/source-search-plan.ts:608-612 | a write ends the recovery exactly for accepted verified coverage, or a reason given by a healthy parser after adverts were observed; dead ends and exhausted sources stay pending |
| `OlxRecovery.DeadEndStays` | apps/worker/src/collectors/olx.ts:320-328 | no attempt leads out of a dead end: the shard stays pending where it is |
| `OlxRecovery.CursorIsEarnedExactlyWhen` | apps/worker/src/modules/source-search-plan.ts:617-729 | over every run, with re-arms at any moment, the cursor is earned throughout exactly when no overtaken attempt writes a page beyond 1 |
| `OlxRecovery.NoPageIsSkipped` | apps/worker/src/collectors/olx.ts:963-980 | after every such run, every page below the cursor was committed since the last re-arm from a complete, non-overflowing read, each after the page before it was reread unchanged, and the stored overlap is the page below the cursor with its own evidence |
| `OlxRecovery.DeadEndOnlyPastTheCap` | apps/worker/src/collectors/olx.ts:320-328 | in every run without late writes the dead end is met exactly when the cursor has passed the last of several public pages |
| `OlxRecovery.UnchangedPageRevalidates` | apps/worker/src/modules/source-search-plan.ts:881-882 | an unchanged page matches its stored evidence exactly when it has between 1 and 99 feeds |
| `OlxRecovery.StoredEvidenceMatches` | apps/worker/src/modules/source-search-plan.ts:881-882 | for pages of any size, a match with stored evidence means exactly that the reread page consists of the kept feeds of the stored one with the same adverts |
| `OlxRecovery.SmallPagesAreKept` | apps/worker/src/modules/source-search-plan.ts:881-882 | up to 99 feeds everything of a page is kept |
| `OlxRecovery.WidePageRevalidates` | apps/worker/src/modules/source-search-plan.ts:881-882 | a page of n different targets, reread unchanged, revalidates exactly for n between 1 and 99 |
| `OlxRecovery.VerifiedCoverageIsUnbroken` | apps/worker/src/collectors/olx.ts:329-344 | when an attempt of a run without late writes verifies coverage, all pages up to its own form an unbroken chain of complete reads, each page still holding its kept adverts after the next one was read |
| `OlxRecoveryWitnesses.PastTheCapIsReached` | apps/worker/src/collectors/olx.ts:320-328 | a run of two attempts ends pending and past the last of two pages |
| `OlxRecoveryWitnesses.OvertakenAttemptSkips` | apps/worker/src/modules/source-search-plan.ts:617-729 | an attempt overtaken by a re-arm leaves the cursor at page 2 with no page read since |
| `OlxRecoveryWitnesses.ExhaustedDespiteFailedFeed` | apps/worker/src/collectors/olx.ts:981-992 | on the third attempt an empty feed beside a failed one exhausts the source, and the verdict is not stored |
| `OlxMovingFeed.EveryStayingAdvertIsRead` | apps/worker/src/collectors/olx.ts:329-344 | over every sequence of edits to a feed, if each page keeps its adverts until the next is read, an advert that stays in the feed is read or lies behind the last page read |
| `OlxMovingFeed.StaysBehind` | apps/worker/src/collectors/olx.ts:329-344 | an advert behind a page that keeps its adverts cannot pass it |
| `OlxMovingFeed.ChangedBackIsMissed` | apps/worker/src/collectors/olx.ts:855-888 | a page that changes while the next one is read and changes back shows nothing, and an advert that stayed was never read |
| `PublicCatchup.StoredCursorIsRestored` | apps/worker/src/collectors/auto-ria-public-recovery.ts:19-32 | a stored cursor that fits the configured feeds is restored unchanged |
| `PublicCatchup.CollectPublicRecovery` | apps/worker/src/collectors/auto-ria-public-recovery.ts:47-103 | the scheduler loop over the restored cursor ends in the specified cursor, progress, reason and stop reason |
| `PublicCatchup.TurnDescends` | apps/worker/src/collectors/auto-ria-public-recovery.ts:53-57 | every turn spends a request or comes closer to an unfinished feed, so every call terminates |
| `PublicCatchup.TurnMovesCursor` | apps/worker/src/collectors/auto-ria-public-recovery.ts:58-98 | a turn leaves a cursor, moves it past exactly the page just read complete and nonempty, or restarts it because a saved id is gone from the page reread |
| `PublicCatchup.StalledCallChangesNothingElse` | apps/worker/src/collectors/auto-ria-public-recovery.ts:53-98 | a call without progress left every feed as it was or restarted a single moved one |
| `PublicCatchup.NoFeedPageIsSkipped` | apps/worker/src/collectors/auto-ria-public-recovery.ts:52-98 | over every sequence of calls the stored cursor is accepted unchanged, every page below a feed's nextPage was read complete and nonempty since its last restart, saved ids are those of the last such page, and depth 50 means done |
| `PublicCatchup.DepthIsDeserved` | apps/worker/src/collectors/auto-ria-public-recovery.ts:58-83 | in every call, a page below the first is read only after the page above it was read in the same call, complete, with all saved ids on it |
| `PublicCatchup.ConclusionsAreExact` | apps/worker/src/collectors/auto-ria-public-recovery.ts:69-98 | over every sequence of calls a feed is done, and with which reason, exactly as its last read ends it: empty, repeated, at least three ids and half of them anchors, or the depth limit; otherwise it is open without a reason |
| `PublicCatchup.ReasonIsExact` | apps/worker/src/collectors/auto-ria-public-recovery.ts:99-102 | after every sequence of calls the reason is absent exactly while a feed is open, and then unstable exactly when some feed ended in a page read again unchanged at the next offset |
| `PublicCatchup.CallEndsExactly` | apps/worker/src/collectors/auto-ria-public-recovery.ts:53-98 | the progress and the stop reason of a call are those of its reads, and it stops only for a refusal, its request budget, its time, or when all feeds are done |
| `PublicCatchup.RereadsComeFirst` | apps/worker/src/collectors/auto-ria-public-recovery.ts:58-83 | a read asks for the page before the next one exactly when it is the first of its feed in the call and the feed is past its first page |
| `PublicCatchup.RestoreExactly` | apps/worker/src/collectors/auto-ria-public-recovery.ts:19-32 | field by field, which stored values are taken over, which give a fresh cursor and which one makes the call fail |
| `PublicCatchup.DoneIsFinal` | apps/worker/src/collectors/auto-ria-public-recovery.ts:54-57 | a finished feed stays finished |
| `PublicCatchup.CallProgresses` | apps/worker/src/collectors/auto-ria-public-recovery.ts:53-90 | with two requests, no stop and friendly answers, a call with work left makes progress |
| `PublicCatchup.CatchUpFinishes` | apps/worker/src/collectors/auto-ria-public-recovery.ts:53-99 | under these conditions n feeds are done after 50 n calls |
| `PublicCatchup.AcceptedExactlyWhenShallow` | apps/worker/src/collectors/auto-ria-public-recovery.ts:19-98 | for every accepted cursor, all cursors a call can store from it are accepted unchanged exactly when no feed is at depth 50 without being done |
| `PublicCatchup.RestoredExactlyWhenFits` | apps/worker/src/collectors/auto-ria-public-recovery.ts:19-32 | a stored cursor is taken back unchanged exactly when it fits the configured feeds |
| `PublicCatchup.ValidatorAdmitsTooDeep` | apps/worker/src/collectors/auto-ria-public-recovery.ts:19-32 | a cursor at depth 50 that is not done is accepted, leads to depth 51, and is then rejected |
| `PublicCards.ParseAutoRiaPublicCards` | apps/worker/src/collectors/auto-ria-public.ts:250-277 | the loop over matches, resuming behind each, keeps the first valid card per id and counts the malformed objects among all markers of the page |
| `PublicCards.JudgeMeans` | apps/worker/src/collectors/auto-ria-public.ts:258-275 | stated over the parsed fields: an object is a card exactly when its data has type Auto, a digit id, a string link and a string title content, foreign exactly when its data has another type, and malformed otherwise |
| `PublicCards.MarkersAreDisjoint` | apps/worker/src/collectors/auto-ria-public.ts:253-255 | no marker starts inside another, so the non-overlapping search misses none |
| `PublicCards.EveryMarkerIsAccounted` | apps/worker/src/collectors/auto-ria-public.ts:255-276 | an id is kept exactly when some marker carries a valid card with it, once; nothing is malformed exactly when every marker is a valid card or a foreign widget |
| `PublicCards.CardsAreFirsts` | apps/worker/src/collectors/auto-ria-public.ts:272-274 | the kept cards are exactly the first valid ones of each id |
| `PublicCards.CompleteMeansEveryMarker` | apps/worker/src/collectors/auto-ria-public.ts:83-132 | from page source to scan result: an ingested page is complete exactly when each of its markers is a foreign widget or a valid card that is known or listed |
| `PublicCards.PrintedPageIsRead` | apps/worker/src/collectors/auto-ria-public.ts:250-276 | for every page of printed card objects with no other marker, each object reaches the parser whole and in order, and one over 128 KiB is malformed |
| `PublicCards.PrintedPageIsKept` | apps/worker/src/collectors/auto-ria-public.ts:250-276 | for every page of printed objects the parser returns, in order, the first card of each id among the offered ones, and counts exactly the objects that are neither offered cards nor of another type |
| `PublicCards.StringsForgeNoMarker` | apps/worker/src/collectors/auto-ria-public.ts:253-255 | a printed string that is not a key holds no marker, whatever text an advert puts into it |
| `PublicScan.PublicCollector.constructor` | apps/worker/src/collectors/auto-ria-public.ts:51-53 | a scan starts empty |
| `PublicScan.PublicCollector.IngestSearchPage` | apps/worker/src/collectors/auto-ria-public.ts:91-129 | ingesting a page changes the shared collections as one atomic classification followed by the handoff of what it listed |
| `PublicScan.EveryOrderIsKept` | apps/worker/src/collectors/auto-ria-public.ts:99-129 | for every ingestion order, listings have distinct unknown ids, the scanned ids are the observed known and the listed ones, the budget holds outside recovery, and each listing is handed off once |
| `PublicScan.ListingsAreFirstNew` | apps/worker/src/collectors/auto-ria-public.ts:99-127 | for every ingestion order the listings are the first listable unknown cards of distinct ids, up to the budget outside recovery |
| `PublicScan.NewCardsAreListed` | apps/worker/src/collectors/auto-ria-public.ts:99-127 | with one card per id, an unknown listable card of an ingested page is listed unless the budget is used up |
| `PublicScan.CompleteMeansAccounted` | apps/worker/src/collectors/auto-ria-public.ts:130-132 | a page asked at any later moment is complete exactly when nothing was malformed and each card is known or listed |
| `PublicScan.CompleteStaysComplete` | apps/worker/src/collectors/auto-ria-public.ts:130-132 | a complete page stays complete whatever is ingested later |
| `PublicScan.RecoveryPagesAreNotStarved` | apps/worker/src/collectors/auto-ria-public.ts:92-112 | in recovery, with one card per id, completeness depends on the page alone: no budget or other page holds it back |
| `KnownTail.SelectAutoRiaCandidateIds` | apps/worker/src/collectors/auto-ria.ts:231-255 | the loop selects the first limit new ids of the prefix that ends with the first known run |
| `KnownTail.CutIsFirstRun` | apps/worker/src/collectors/auto-ria.ts:244-249 | that prefix is the shortest one ending in tailLimit consecutive known ids, or the whole feed |
| `KnownTail.SelectionIsComplete` | apps/worker/src/collectors/auto-ria.ts:231-255 | selected ids are distinct, nonempty, unknown and from the prefix, and every such id is selected unless the limit is used up |
| `KnownTail.SelectionIsFirst` | apps/worker/src/collectors/auto-ria.ts:231-255 | selected ids come in the order of the feed, and no new id is passed over for a later one |
| `KnownTail.KnownFeedSelectsNothing` | apps/worker/src/collectors/auto-ria.ts:225-255 | a feed of known ids selects nothing |
| `JsonScan.ReadJsonObject` | apps/worker/src/collectors/auto-ria-public.ts:280-295 | the index loop returns what the scanner specification returns from its start |
| `JsonScan.PrintedObjectIsCutOut` | apps/worker/src/collectors/auto-ria-public.ts:280-295 | for every JSON object, every printing of it and any surrounding text, the scanner returns exactly that text when it is at most 128 KiB long and nothing when it is longer |
| `JsonScan.NothingWithoutOpening` | apps/worker/src/collectors/auto-ria-public.ts:280-295 | without an opening brace nothing is cut out |
| `JsonScan.StringIsInert` | apps/worker/src/collectors/auto-ria-public.ts:286-290 | a string literal leaves the scanner's depth alone whatever braces, quotes and escapes it contains |
| `JsonScan.ExtractPrerenderedState` | apps/worker/src/collectors/olx-normalization.ts:124-147 | marker search, white space, quote scan and literal parsing give the specified text or error |
| `JsonScan.NotFoundExactlyWhen` | apps/worker/src/collectors/olx-normalization.ts:124-128 | the state is missing exactly when its marker is nowhere on the page |
| `JsonScan.PrintedStringParses` | apps/worker/src/collectors/olx-normalization.ts:147-147 | parsing a string literal undoes printing it, whatever escapes were chosen |
| `JsonScan.ParsedStringIsPrinted` | apps/worker/src/collectors/olx-normalization.ts:147-147 | whatever parses is a printing of the string it parses to |
| `JsonScan.HexStringParses` | apps/worker/src/collectors/olx-normalization.ts:147-147 | every string written as four hexadecimal digits per unit is read back |
| `JsonScan.EscapesAre` | apps/worker/src/collectors/olx-normalization.ts:147-147 | the eight short escapes and what each stands for |
| `JsonScan.PrintedStateIsExtracted` | apps/worker/src/collectors/olx-normalization.ts:124-147 | for every string and every way of writing it after the first marker, exactly its literal is cut out and the string comes back |
| `JsonScan.DoubleEncodingRoundTrips` | apps/worker/src/collectors/olx-normalization.ts:147-148 | decoding twice undoes encoding twice |
| `HtmlEntities.NumericPass` | apps/worker/src/collectors/html-utils.ts:150-151 | a numeric pass over any written text resolves the references of its base and those that raw characters happen to spell; only the latter change its meaning, and make it shorter |
| `HtmlEntities.LiteralPass` | apps/worker/src/collectors/html-utils.ts:152-159 | a literal pass resolves its own entity and every occurrence that raw characters happen to spell; only the latter change the meaning |
| `HtmlEntities.DecodesOnceExactlyWhen` | apps/worker/src/collectors/html-utils.ts:148-165 | for every mixture of raw characters, ampersands included, names and numeric references, the chain of passes reads the text as one pass would exactly when no loose ampersand is followed by something to be decoded |
| `HtmlEntities.DecodesExactlyOnce` | apps/worker/src/collectors/html-utils.ts:148-165 | a writer that puts every ampersand by name has every character decoded exactly once |
| `HtmlEntities.DecodeUndoesEscape` | apps/worker/src/collectors/html-utils.ts:148-160 | decoding undoes the five-entity escaper for every string |
| `HtmlEntities.ReferenceIsDecoded` | apps/worker/src/collectors/html-utils.ts:148-165 | every number but 38, written in either base, is decoded to its character |
| `HtmlEntities.CodePointIs` | apps/worker/src/collectors/html-utils.ts:162-165 | a character is one unit or the surrogate pair that stands for it, and nothing beyond the code space |
| `HtmlEntities.NumericAmpersandDecodesTwice` | apps/worker/src/collectors/html-utils.ts:148-160 | an ampersand written as a number lets the text after it be decoded again |
| `FeedSharing.PendingRequests.constructor` | apps/worker/src/collectors/olx-feed.ts:61-62 | the module starts with nothing pending and nothing shared |
| `FeedSharing.PendingRequests.Subscribe` | apps/worker/src/collectors/olx-feed.ts:69-72 | a call joins the pending request of its key or registers a new one |
| `FeedSharing.PendingRequests.Continue` | apps/worker/src/collectors/olx-feed.ts:73-86 | a settled call returns its request count, and the owner alone removes the entry |
| `FeedSharing.EveryInterleavingIsKept` | apps/worker/src/collectors/olx-feed.ts:64-87 | under every interleaving calls equal fetches plus joins, pending entries name live fetches of their key, and every live fetch is pending |
| `FeedSharing.OneLiveFetchPerKey` | apps/worker/src/collectors/olx-feed.ts:69-72 | at most one fetch per key is live |
| `FeedSharing.OwnerFindsItsOwnEntry` | apps/worker/src/collectors/olx-feed.ts:84-86 | the owner's cleanup always finds and removes its own entry |
| `FeedSharing.RequestCountsBalance` | apps/worker/src/collectors/olx-feed.ts:78-83 | the counts returned to a fetch's subscribers add up to its own count once its owner went on after success, and to nothing otherwise |
| `FeedSharing.CallsJoinLiveFetches` | apps/worker/src/collectors/olx-feed.ts:69-77 | a call waits for a fetch issued now or still owned, and fetches afresh when none of its key is live |
| `FeedSharing.SettledFetchGainsNoSubscriber` | apps/worker/src/collectors/olx-feed.ts:75-86 | after the owner's cleanup nobody joins the fetch any more |
| `RecoveryWindows.Tables.AcknowledgeWindow` | apps/api/src/routes/search-plan.ts:300-315 | acknowledging succeeds exactly on an unresolved window and changes only its acknowledgement |
| `RecoveryWindows.Tables.RetryWindow` | apps/api/src/routes/search-plan.ts:317-362 | an uninterrupted retry succeeds exactly on an unresolved window and writes what the stepwise transaction writes |
| `RecoveryWindows.UninterruptedRetry` | apps/api/src/routes/search-plan.ts:318-359 | alone, a retry re-arms the window and its shard at the older cutoff and touches no other row |
| `RecoveryWindows.EveryInterleavingIsSound` | apps/api/src/routes/search-plan.ts:317-359 | under every interleaving of acknowledge, retry steps, worker reports and shard re-arms, a pending window's shard is pending, re-arms never outnumber unresolved conclusions, and what a retry read is never older than what its window requires |
| `RecoveryWindows.CutoffReachesExactlyWhen` | apps/api/src/routes/search-plan.ts:339-347 | over every run, the shard's cutoff reaches all its pending windows throughout exactly when no retry commits stale |
| `RecoveryWindows.StaleExactlyWhenLowered` | apps/api/src/routes/search-plan.ts:318-342 | a retry commits stale exactly when a worker's report lowered its window's cutoff after the retry read it and the shard's own cutoff does not reach the lowered one |
| `RecoveryWindows.OnlyReportsLower` | apps/worker/src/modules/source-search-plan.ts:755-802 | only a worker's report changes what a window requires, only to an older cutoff, and never while a retry holds the shard |
| `RecoveryWindows.ReportMeans` | apps/worker/src/modules/source-search-plan.ts:735-875 | what a report writes: the oldest of the cutoffs it knows, the verdict on every pending window, the page of a backfill, and nothing on other shards |
| `RecoveryWindows.RearmMeans` | apps/api/src/modules/monitoring/orchestrator.ts:873-917 | a re-arm sets exactly the eligible windows pending, restarts the shard at page 1, and gives it the older of its own and their oldest cutoff |
| `RecoveryWindows.WithoutReportsIsKept` | apps/api/src/routes/search-plan.ts:300-359 | operators and re-arms alone keep the agreement under every interleaving |
| `RecoveryWindows.OvertakenRetryFallsShort` | apps/api/src/routes/search-plan.ts:317-359 | a run in which a retry overtaken by a re-arm and a report leaves the window requiring 100 and its shard recovering to 200 |
| `RecoveryWindows.ReportMends` | apps/worker/src/modules/source-search-plan.ts:755-875 | whatever came before, a worker's report leaves its shard with a cutoff that reaches all its pending windows |
| `RecoveryWindows.RearmedAtMostOnce` | apps/api/src/routes/search-plan.ts:319-334 | without worker reports an unresolved window is re-armed at most once |
| `RecoveryWindows.VerifiedIsFinal` | apps/api/src/modules/monitoring/orchestrator.ts:877-896 | a verified window is never touched again under any interleaving of reports, retries, acknowledgements and re-arms |
| `RecoveryWindows.AcknowledgeOnlyAcknowledges` | apps/api/src/routes/search-plan.ts:303-310 | acknowledging never changes status, cutoff or any shard |
| `RecoveryWindows.OperatorsNeverMoveCutoffLater` | apps/api/src/routes/search-plan.ts:339-347 | no operator step and no re-arm moves a shard's cutoff later or clears its pending flag |
| `RecoveryWindows.CommitRearms` | apps/api/src/routes/search-plan.ts:335-357 | at commit the window is still unresolved and the shard gets the older of its current cutoff and the one the retry read, which is the older of the current ones exactly unless the commit is stale |
| `RecoveryWindows.ProvedExactlyWhen` | apps/api/src/routes/search-plan.ts:265-271 | global coverage is proved exactly when there is an active shard and each is settled with a verified latest window |
| `RecoveryWindows.CoverageMeans` | apps/api/src/routes/search-plan.ts:120-126 | each coverage status is equated with a condition on the shard and its latest window |
| `RecoveryWindows.RearmedShardBlocksProof` | apps/api/src/routes/search-plan.ts:120-126 | from a retry's commit until a worker reports on its shard, coverage is not proved while the shard is active |
| `RecoveryWindows.OlderUnresolvedWindowIsNotConsulted` | apps/api/src/routes/search-plan.ts:107-126 | coverage can be proved while an older window of the shard is unresolved |

## Left out

- HTTP transport, the request coordinator, queues and database access: a fetch is an arbitrary result, persistence is the write of the collector's outputs.
- Scraping, price, date, city and attribute inference and time zones: whether a record normalises is a property of the record.
- Normalising a card, including the error an unparsable link raises: whether a card is listable is a property of the card, and pages whose normalisation throws end the scan and are not ingested in the model.
- `JSON.parse` of a whole card object: a parameter; the model proves which text it is given and what is made of each answer.
- Coverage-only and private lanes, network metrics, telemetry stamps and log texts: extra feeds of a page stand for what the lanes add to a recovery page.
- Newest-first ordering of a handoff batch and of the final listings: membership, multiplicity and counts are modelled, not display order.
- Errors thrown by `onHotCandidates` and by deep copies of results: the model's handoffs and copies succeed.
- JSON beyond one level of the prerendered state: parsing the extracted state text itself is not modelled.
- `localeCompare` and array sort order: any total order, given as a parameter.
- Retry delays, counters of attempts without progress and backoff: single-branch arithmetic.
- Opening of recovery windows in `OlxRecovery`: a run starts from the fields that opening and re-arming both write; `RecoveryWindows` models the opening itself.
- OlxHotHandoff.SelectHotOlxCandidates: the candidates come in feed order, without the final newest-first sort, because membership and counts are what later steps use.
- PublicCatchup.CatchUpFinishes: assumes friendly answers, since an upstream that always moves its pages restarts a feed for ever.
