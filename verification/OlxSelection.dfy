/**
 * Candidate selection: one pass over the adverts of a feed classifies each of
 * them, lists the new ones and computes the signals that stop pagination.
 */
module OlxSelection {
  import opened Maybe
  import opened OlxTypes
  import opened Ordering

  datatype Options = Options(
    publishedAfter: Option<int>,
    includeRefreshed: bool,
    known: set<string>,
    continuityKnown: set<string>,
    ignore: set<string>,
    maxCandidates: int
  )

  datatype Selection = Selection(
    listings: seq<Ad>,
    observedCount: nat,
    cutoffEncountered: bool,
    knownEncountered: bool,
    identifiableCount: nat,
    knownTailStreak: nat,
    allKnown: bool,
    fullyBeforeCutoff: bool,
    candidateLimitReached: bool,
    oldestObservedAt: Option<int>,
    scannedExternalIds: seq<string>
  )

  /** What becomes of one advert. */
  datatype Class = NoId | Ignored | AlreadySeen | KnownId | Unnormalisable | TooOld | Listed | Overflowed

  predicate Before(o: Options, ad: Ad) {
    o.publishedAfter.Some? && BeforeCutoff(ad, o.includeRefreshed, o.publishedAfter.value)
  }

  /** A fresh placement that an earlier page already showed is neutral. */
  predicate Neutral(o: Options, ad: Ad) {
    ad.id in o.ignore && PublishedAt(ad, o.includeRefreshed).Some? && !Before(o, ad)
  }

  predicate Counted(o: Options, ad: Ad) {
    ad.id != "" && !Neutral(o, ad)
  }

  /** An advert the collector would like to list. */
  predicate Candidate(o: Options, ad: Ad) {
    Counted(o, ad) && ad.id !in o.known && ad.normalizes && !Before(o, ad)
  }

  function Budget(o: Options): (n: nat) {
    if o.maxCandidates < 0 then 0 else o.maxCandidates
  }

  // ----- the same, stated over the record alone

  ghost predicate Old(o: Options, ad: Ad) {
    o.publishedAfter.Some? && CertainlyBefore(ad, o.includeRefreshed, o.publishedAfter.value)
  }

  /** Ignored, dated and not certainly old. */
  ghost predicate IsNeutral(o: Options, ad: Ad) {
    ad.id in o.ignore && Dated(ad, o.includeRefreshed) && !Old(o, ad)
  }

  ghost predicate Counts(o: Options, ad: Ad) {
    ad.id != "" && !IsNeutral(o, ad)
  }

  ghost predicate Wished(o: Options, ad: Ad) {
    Counts(o, ad) && ad.id !in o.known && ad.normalizes && !Old(o, ad)
  }

  lemma RecordMeaning(o: Options, ad: Ad)
    ensures Before(o, ad) <==> Old(o, ad)
    ensures Neutral(o, ad) <==> IsNeutral(o, ad)
    ensures Counted(o, ad) <==> Counts(o, ad)
    ensures Candidate(o, ad) <==> Wished(o, ad)
  {
    PublishedAtIsExact(ad, o.includeRefreshed);
    if o.publishedAfter.Some? {
      BeforeCutoffIsExact(ad, o.includeRefreshed, o.publishedAfter.value);
    }
    hide BeforeCutoff, PublishedAt, CertainlyBefore, Dated;
  }

  function CountedAds(o: Options, ads: seq<Ad>): (r: seq<Ad>) {
    if ads == [] then []
    else
      var n := |ads| - 1;
      CountedAds(o, ads[..n]) + if Counted(o, ads[n]) then [ads[n]] else []
  }

  function CountedIds(o: Options, ads: seq<Ad>): (r: set<string>) {
    set ad | ad in ads && Counted(o, ad) :: ad.id
  }

  function Classify(o: Options, seen: set<string>, listed: nat, ad: Ad): (c: Class) {
    if ad.id == "" then NoId
    else if Neutral(o, ad) then Ignored
    else if ad.id in seen then AlreadySeen
    else if ad.id in o.known then KnownId
    else if !ad.normalizes then Unnormalisable
    else if Before(o, ad) then TooOld
    else if listed < Budget(o) then Listed
    else Overflowed
  }

  function Classes(o: Options, ads: seq<Ad>, seen: set<string>): (cs: seq<Class>)
    ensures |cs| == |ads|
  {
    if ads == [] then []
    else
      var n := |ads| - 1;
      var cs := Classes(o, ads[..n], seen);
      cs + [Classify(o, seen + CountedIds(o, ads[..n]), multiset(cs)[Listed], ads[n])]
  }

  function Chosen(c: Class, ads: seq<Ad>, cs: seq<Class>): (r: seq<Ad>)
    requires |ads| == |cs|
    ensures |r| == multiset(cs)[c]
  {
    if ads == [] then []
    else
      var n := |ads| - 1;
      assert cs == cs[..n] + [cs[n]];
      Chosen(c, ads[..n], cs[..n]) + if cs[n] == c then [ads[n]] else []
  }

  predicate Scanned(o: Options, ad: Ad, c: Class) {
    (Counted(o, ad) && ad.id in o.known) || c == TooOld || c == Listed
  }

  function ScannedIds(o: Options, ads: seq<Ad>, cs: seq<Class>): (r: seq<string>)
    requires |ads| == |cs|
  {
    if ads == [] then []
    else
      var n := |ads| - 1;
      ScannedIds(o, ads[..n], cs[..n]) + if Scanned(o, ads[n], cs[n]) then [ads[n].id] else []
  }

  /** The earlier of the oldest stamp so far and one more stamp, if any. */
  function Earlier(oldest: Option<int>, at: Option<int>): (r: Option<int>) {
    if at.Some? && (oldest.None? || at.value < oldest.value) then at else oldest
  }

  function Oldest(o: Options, ads: seq<Ad>): (r: Option<int>) {
    if ads == [] then None
    else
      var n := |ads| - 1;
      var rest := Oldest(o, ads[..n]);
      if Counted(o, ads[n]) then Earlier(rest, PublishedAt(ads[n], o.includeRefreshed)) else rest
  }

  /** Length of the longest suffix whose adverts are all known. */
  function TailStreak(known: set<string>, ads: seq<Ad>): (k: nat) {
    if ads == [] || ads[|ads| - 1].id !in known then 0 else 1 + TailStreak(known, ads[..|ads| - 1])
  }

  /** The selection, field by field, as a fact about the whole feed. */
  function Select(o: Options, ads: seq<Ad>, seen: set<string>): (r: Selection) {
    var cs := Classes(o, ads, seen);
    var counted := CountedAds(o, ads);
    Selection(
      Chosen(Listed, ads, cs),
      |CountedIds(o, ads) - seen|,
      exists ad :: ad in counted && Before(o, ad),
      exists ad :: ad in counted && ad.id in o.continuityKnown,
      |counted|,
      TailStreak(o.continuityKnown, counted),
      counted != [] && NoId !in cs && forall ad :: ad in counted ==> ad.id in o.continuityKnown,
      counted != [] && NoId !in cs && o.publishedAfter.Some? && forall ad :: ad in counted ==> Before(o, ad),
      Overflowed in cs,
      Oldest(o, ads),
      ScannedIds(o, ads, cs)
    )
  }

  /** A set shared by reference between the passes of one scan. */
  class IdSet {
    var ids: set<string>

    constructor (initial: set<string>)
      ensures ids == initial
    {
      ids := initial;
    }
  }

  /** The loop's variables after some prefix of the feed. */
  datatype Pass = Pass(
    seen: set<string>,
    listings: seq<Ad>,
    observed: nat,
    cutoff: bool,
    known: bool,
    allKnown: bool,
    fully: bool,
    limit: bool,
    oldest: Option<int>,
    scanned: seq<string>,
    signals: seq<bool>
  )

  function Visit(o: Options, p: Pass, ad: Ad): (q: Pass) {
    var b, k := Before(o, ad), ad.id in o.continuityKnown;
    var c := Classify(o, p.seen, |p.listings|, ad);
    match c
    case NoId => p.(allKnown := false, fully := false)
    case Ignored => p
    case _ =>
      Pass(
        if c == AlreadySeen then p.seen else p.seen + {ad.id},
        if c == Listed then p.listings + [ad] else p.listings,
        if c == AlreadySeen then p.observed else p.observed + 1,
        p.cutoff || b,
        p.known || k,
        p.allKnown && k,
        p.fully && b,
        p.limit || c == Overflowed,
        Earlier(p.oldest, PublishedAt(ad, o.includeRefreshed)),
        if Scanned(o, ad, c) then p.scanned + [ad.id] else p.scanned,
        p.signals + [k])
  }

  lemma VisitFields(o: Options, p: Pass, ad: Ad)
    ensures var q := Visit(o, p, ad);
            var c, k, b := Classify(o, p.seen, |p.listings|, ad), ad.id in o.continuityKnown, Before(o, ad);
            if c == NoId then q == p.(allKnown := false, fully := false)
            else if c == Ignored then q == p
            else
              && q.seen == (if c == AlreadySeen then p.seen else p.seen + {ad.id})
              && q.observed == (if c == AlreadySeen then p.observed else p.observed + 1)
              && q.listings == (if c == Listed then p.listings + [ad] else p.listings)
              && q.limit == (p.limit || c == Overflowed)
              && q.scanned == (if ad.id in o.known || c == TooOld || c == Listed then p.scanned + [ad.id] else p.scanned)
              && q.oldest == Earlier(p.oldest, PublishedAt(ad, o.includeRefreshed))
              && q.signals == p.signals + [k] && q.cutoff == (p.cutoff || b) && q.known == (p.known || k)
              && q.allKnown == (p.allKnown && k) && q.fully == (p.fully && b)
  {
  }

  function PassOver(o: Options, ads: seq<Ad>, seen: set<string>): (p: Pass) {
    if ads == [] then Pass(seen, [], 0, false, false, true, o.publishedAfter.Some?, false, None, [], [])
    else Visit(o, PassOver(o, ads[..|ads| - 1], seen), ads[|ads| - 1])
  }

  function Result(p: Pass, streak: nat): (r: Selection) {
    var n := |p.signals|;
    Selection(p.listings, p.observed, p.cutoff, p.known, n, streak, n > 0 && p.allKnown, n > 0 && p.fully,
      p.limit, p.oldest, p.scanned)
  }

  /** selectOlxCandidates: the single pass, updating the scan's `seen` set in place. */
  method SelectOlxCandidates(o: Options, ads: seq<Ad>, seen: IdSet) returns (r: Selection)
    modifies seen
    ensures r == Select(o, ads, old(seen.ids))
    ensures seen.ids == old(seen.ids) + CountedIds(o, ads)
  {
    hide Visit, Before, PublishedAt, Earlier, Select, CountedIds, CountedAds, Budget, TailStreak, KnownFlags;
    ghost var before := seen.ids;
    var listings: seq<Ad> := [];
    var observedCount, identifiableCount := 0, 0;
    var cutoffEncountered, knownEncountered := false, false;
    var allKnown, fullyBeforeCutoff := true, o.publishedAfter.Some?;
    var candidateLimitReached := false;
    var oldestObservedAt: Option<int> := None;
    var scannedExternalIds: seq<string> := [];
    var orderingSignals: seq<bool> := [];
    assert ads[..0] == [];
    for i := 0 to |ads|
      invariant identifiableCount == |orderingSignals|
      invariant Pass(seen.ids, listings, observedCount, cutoffEncountered, knownEncountered, allKnown, fullyBeforeCutoff,
                  candidateLimitReached, oldestObservedAt, scannedExternalIds, orderingSignals)
                == PassOver(o, ads[..i], before)
    {
      var ad := ads[i];
      assert ads[..i + 1][..i] == ads[..i];
      VisitFields(o, PassOver(o, ads[..i], before), ad);
      if ad.id == "" {
        allKnown, fullyBeforeCutoff := false, false;
        continue;
      }
      var publishedAt := PublishedAt(ad, o.includeRefreshed);
      var beforeCutoff := Before(o, ad);
      if ad.id in o.ignore && publishedAt.Some? && !beforeCutoff {
        continue;
      }
      oldestObservedAt := Earlier(oldestObservedAt, publishedAt);
      identifiableCount := identifiableCount + 1;
      var known := ad.id in o.known;
      var continuityKnown := ad.id in o.continuityKnown;
      orderingSignals := orderingSignals + [continuityKnown];
      knownEncountered := knownEncountered || continuityKnown;
      allKnown := allKnown && continuityKnown;
      cutoffEncountered := cutoffEncountered || beforeCutoff;
      fullyBeforeCutoff := fullyBeforeCutoff && beforeCutoff;
      if known {
        scannedExternalIds := scannedExternalIds + [ad.id];
      }
      if ad.id in seen.ids {
        continue;
      }
      seen.ids := seen.ids + {ad.id};
      observedCount := observedCount + 1;
      if known || !ad.normalizes {
        continue;
      }
      if beforeCutoff {
        scannedExternalIds := scannedExternalIds + [ad.id];
        continue;
      }
      if |listings| >= Budget(o) {
        candidateLimitReached := true;
        continue;
      }
      listings := listings + [ad];
      scannedExternalIds := scannedExternalIds + [ad.id];
    }
    assert ads[..|ads|] == ads;
    PassIsSelect(o, ads, before);
    var knownTailStreak := KnownTail(o.continuityKnown, CountedAds(o, ads), orderingSignals);
    r := Selection(listings, observedCount, cutoffEncountered, knownEncountered, identifiableCount, knownTailStreak,
      identifiableCount > 0 && allKnown, identifiableCount > 0 && fullyBeforeCutoff, candidateLimitReached,
      oldestObservedAt, scannedExternalIds);
  }

  /** The pass, variable by variable, against facts about the whole feed. */
  lemma {:induction false} PassIsSelection(o: Options, ads: seq<Ad>, seen: set<string>)
    ensures var p := PassOver(o, ads, seen);
            && p.seen == seen + CountedIds(o, ads)
            && p.observed == |CountedIds(o, ads) - seen|
            && Tallied(o, ads, seen, p.listings, p.limit, p.scanned)
            && Signalled(o, ads, p.signals, p.cutoff, p.known, p.allKnown, p.fully)
            && p.oldest == Oldest(o, ads)
  {
    if ads == [] {
      assert CountedIds(o, ads) == {};
    } else {
      PassIsSelection(o, ads[..|ads| - 1], seen);
      PassStep(o, ads, seen);
      OldestStep(o, ads, seen);
    }
  }

  lemma PassStep(o: Options, ads: seq<Ad>, seen: set<string>)
    requires ads != []
    requires var rest := ads[..|ads| - 1];
             var p := PassOver(o, rest, seen);
             && p.seen == seen + CountedIds(o, rest)
             && p.observed == |CountedIds(o, rest) - seen|
             && Tallied(o, rest, seen, p.listings, p.limit, p.scanned)
             && Signalled(o, rest, p.signals, p.cutoff, p.known, p.allKnown, p.fully)
    ensures var p := PassOver(o, ads, seen);
            && p.seen == seen + CountedIds(o, ads)
            && p.observed == |CountedIds(o, ads) - seen|
            && Tallied(o, ads, seen, p.listings, p.limit, p.scanned)
            && Signalled(o, ads, p.signals, p.cutoff, p.known, p.allKnown, p.fully)
  {
    hide BeforeCutoff, PublishedAt, Tallied, Signalled, Classify, Scanned, Before, Neutral, CountedIds, PassOver;
    var n := |ads| - 1;
    assert ads[..n + 1] == ads;
    var p := PassOver(o, ads[..n], seen);
    SeenStep(o, ads, seen, n);
    TallyStep(o, ads, seen, n, p.listings, p.limit, p.scanned);
    SignalStep(o, ads, n, p.signals, p.cutoff, p.known, p.allKnown, p.fully);
    VisitStep(o, ads, seen);
  }

  lemma OldestStep(o: Options, ads: seq<Ad>, seen: set<string>)
    requires ads != []
    requires PassOver(o, ads[..|ads| - 1], seen).oldest == Oldest(o, ads[..|ads| - 1])
    ensures PassOver(o, ads, seen).oldest == Oldest(o, ads)
  {
    hide BeforeCutoff, PublishedAt;
  }

  lemma PassIsSelect(o: Options, ads: seq<Ad>, seen: set<string>)
    ensures var p := PassOver(o, ads, seen);
            && Select(o, ads, seen) == Result(p, TailStreak(o.continuityKnown, CountedAds(o, ads)))
            && p.seen == seen + CountedIds(o, ads)
            && p.signals == KnownFlags(o.continuityKnown, CountedAds(o, ads))
  {
    hide BeforeCutoff, PublishedAt, Classify, Scanned, Before, Neutral, CountedIds, PassOver;
    PassIsSelection(o, ads, seen);
    NoIdClass(o, ads, seen);
  }

  lemma VisitStep(o: Options, ads: seq<Ad>, seen: set<string>)
    requires ads != []
    ensures var n := |ads| - 1;
            var p, q, ad := PassOver(o, ads[..n], seen), PassOver(o, ads, seen), ads[n];
            var c, k, b := Classify(o, p.seen, |p.listings|, ad), ad.id in o.continuityKnown, Before(o, ad);
            && q.seen == (if Counted(o, ad) then p.seen + {ad.id} else p.seen)
            && q.observed == (if Counted(o, ad) && ad.id !in p.seen then p.observed + 1 else p.observed)
            && q.listings == (if c == Listed then p.listings + [ad] else p.listings)
            && q.limit == (p.limit || c == Overflowed)
            && q.scanned == (if Scanned(o, ad, c) then p.scanned + [ad.id] else p.scanned)
            && (ad.id == "" ==> q == p.(allKnown := false, fully := false))
            && (Neutral(o, ad) && ad.id != "" ==> q == p)
            && (Counted(o, ad) ==> q.signals == p.signals + [k] && q.cutoff == (p.cutoff || b) && q.known == (p.known || k)
                                   && q.allKnown == (p.allKnown && k) && q.fully == (if b then p.fully else false))
  {
    hide Visit, Classify, Before, Neutral, Budget, CountedIds, CountedAds, Earlier;
    var n := |ads| - 1;
    var p := PassOver(o, ads[..n], seen);
    VisitFields(o, p, ads[n]);
    ClassMeaning(o, p.seen, |p.listings|, ads[n]);
    assert PassOver(o, ads, seen) == Visit(o, p, ads[n]);
  }

  ghost predicate Tallied(o: Options, ads: seq<Ad>, seen: set<string>,
    listings: seq<Ad>, limit: bool, scanned: seq<string>) {
    var cs := Classes(o, ads, seen);
    && listings == Chosen(Listed, ads, cs)
    && limit == (Overflowed in cs)
    && scanned == ScannedIds(o, ads, cs)
  }

  ghost predicate Signalled(o: Options, ads: seq<Ad>, signals: seq<bool>,
    cutoff: bool, known: bool, allKnown: bool, fully: bool) {
    var counted := CountedAds(o, ads);
    && signals == KnownFlags(o.continuityKnown, counted)
    && (cutoff <==> exists ad :: ad in counted && Before(o, ad))
    && (known <==> exists ad :: ad in counted && ad.id in o.continuityKnown)
    && (allKnown <==> AllIdentified(ads) && forall ad :: ad in counted ==> ad.id in o.continuityKnown)
    && (fully <==> AllIdentified(ads) && o.publishedAfter.Some? && forall ad :: ad in counted ==> Before(o, ad))
  }

  function KnownFlags(known: set<string>, ads: seq<Ad>): (flags: seq<bool>) {
    seq(|ads|, i requires 0 <= i < |ads| => ads[i].id in known)
  }

  predicate AllIdentified(ads: seq<Ad>) {
    forall ad :: ad in ads ==> ad.id != ""
  }

  /** The backward loop over the ordering signals. */
  method KnownTail(ghost known: set<string>, ghost counted: seq<Ad>, signals: seq<bool>) returns (streak: nat)
    requires signals == KnownFlags(known, counted)
    ensures streak == TailStreak(known, counted)
  {
    streak := 0;
    var index := |signals|;
    assert counted[..index] == counted;
    while index > 0
      invariant 0 <= index <= |signals|
      invariant TailStreak(known, counted) == streak + TailStreak(known, counted[..index])
    {
      if !signals[index - 1] {
        break;
      }
      assert counted[..index][..index - 1] == counted[..index - 1];
      streak, index := streak + 1, index - 1;
    }
  }

  lemma PrefixStep(o: Options, ads: seq<Ad>, i: nat)
    requires i < |ads|
    ensures ads[..i + 1][..i] == ads[..i]
    ensures CountedAds(o, ads[..i + 1]) == CountedAds(o, ads[..i]) + if Counted(o, ads[i]) then [ads[i]] else []
    ensures CountedIds(o, ads[..i + 1]) == CountedIds(o, ads[..i]) + if Counted(o, ads[i]) then {ads[i].id} else {}
    ensures AllIdentified(ads[..i + 1]) <==> AllIdentified(ads[..i]) && ads[i].id != ""
  {
    assert ads[..i + 1][..i] == ads[..i];
    assert forall ad :: ad in ads[..i + 1] <==> ad in ads[..i] || ad == ads[i];
  }

  lemma SeenStep(o: Options, ads: seq<Ad>, seen: set<string>, i: nat)
    requires i < |ads|
    ensures CountedIds(o, ads[..i + 1]) == CountedIds(o, ads[..i]) + if Counted(o, ads[i]) then {ads[i].id} else {}
    ensures |CountedIds(o, ads[..i + 1]) - seen|
            == |CountedIds(o, ads[..i]) - seen|
               + if Counted(o, ads[i]) && ads[i].id !in seen + CountedIds(o, ads[..i]) then 1 else 0
  {
    PrefixStep(o, ads, i);
    var prev, next := CountedIds(o, ads[..i]) - seen, CountedIds(o, ads[..i + 1]) - seen;
    if Counted(o, ads[i]) && ads[i].id !in seen + CountedIds(o, ads[..i]) {
      assert next == prev + {ads[i].id};
    } else {
      assert next == prev;
    }
  }

  function ClassAt(o: Options, ads: seq<Ad>, seen: set<string>, i: nat): (c: Class)
    requires i < |ads|
  {
    Classify(o, seen + CountedIds(o, ads[..i]), |Chosen(Listed, ads[..i], Classes(o, ads[..i], seen))|, ads[i])
  }

  lemma ClassesStep(o: Options, ads: seq<Ad>, seen: set<string>, i: nat)
    requires i < |ads|
    ensures Classes(o, ads[..i + 1], seen) == Classes(o, ads[..i], seen) + [ClassAt(o, ads, seen, i)]
  {
    assert ads[..i + 1][..i] == ads[..i];
  }

  lemma TallyStep(o: Options, ads: seq<Ad>, seen: set<string>, i: nat, listings: seq<Ad>, limit: bool, scanned: seq<string>)
    requires i < |ads|
    requires Tallied(o, ads[..i], seen, listings, limit, scanned)
    ensures var c := Classify(o, seen + CountedIds(o, ads[..i]), |listings|, ads[i]);
            Tallied(o, ads[..i + 1], seen,
              if c == Listed then listings + [ads[i]] else listings,
              limit || c == Overflowed,
              if Scanned(o, ads[i], c) then scanned + [ads[i].id] else scanned)
  {
    hide Classify, CountedIds, Scanned, Classes;
    ClassesStep(o, ads, seen, i);
    var next, cs := ads[..i + 1], Classes(o, ads[..i + 1], seen);
    assert next[..i] == ads[..i] && cs[..i] == Classes(o, ads[..i], seen);
  }

  lemma SignalStep(o: Options, ads: seq<Ad>, i: nat, signals: seq<bool>,
    cutoff: bool, known: bool, allKnown: bool, fully: bool)
    requires i < |ads|
    requires Signalled(o, ads[..i], signals, cutoff, known, allKnown, fully)
    ensures var k, b := ads[i].id in o.continuityKnown, Before(o, ads[i]);
            if ads[i].id == "" then Signalled(o, ads[..i + 1], signals, cutoff, known, false, false)
            else if Neutral(o, ads[i]) then Signalled(o, ads[..i + 1], signals, cutoff, known, allKnown, fully)
            else Signalled(o, ads[..i + 1], signals + [k], cutoff || b, known || k, allKnown && k, if b then fully else false)
  {
    PrefixStep(o, ads, i);
    var prev, next := CountedAds(o, ads[..i]), CountedAds(o, ads[..i + 1]);
    if Counted(o, ads[i]) {
      assert next == prev + [ads[i]];
      assert ads[i] in next;
      assert forall ad :: ad in next <==> ad in prev || ad == ads[i];
    }
  }

  /** A feed has an unidentified advert exactly when some advert is classified so. */
  lemma {:induction false} NoIdClass(o: Options, ads: seq<Ad>, seen: set<string>)
    ensures NoId in Classes(o, ads, seen) <==> !AllIdentified(ads)
  {
    if ads != [] {
      var n := |ads| - 1;
      NoIdClass(o, ads[..n], seen);
      assert ads[..n + 1] == ads;
      ClassesStep(o, ads, seen, n);
      PrefixStep(o, ads, n);
    }
  }

  function IdsOf(c: Class, o: Options, ads: seq<Ad>, seen: set<string>): (ids: set<string>) {
    set ad | ad in Chosen(c, ads, Classes(o, ads, seen)) :: ad.id
  }

  function Tally(o: Options, ads: seq<Ad>, seen: set<string>, c: Class): (n: nat) {
    multiset(Classes(o, ads, seen))[c]
  }

  lemma ClassMeaning(o: Options, seen: set<string>, listed: nat, ad: Ad)
    ensures var c, unseen := Classify(o, seen, listed, ad), Candidate(o, ad) && ad.id !in seen;
            && (c == NoId <==> ad.id == "")
            && (c == Ignored <==> ad.id != "" && !Counted(o, ad))
            && (c == AlreadySeen <==> Counted(o, ad) && ad.id in seen)
            && (c == KnownId ==> ad.id in o.known)
            && (c == TooOld ==> ad.id !in o.known && !Candidate(o, ad))
            && (c == Unnormalisable ==> ad.id !in o.known && !Candidate(o, ad))
            && (c == Listed <==> unseen && listed < Budget(o))
            && (c == Overflowed <==> unseen && listed >= Budget(o))
            && (Candidate(o, ad) ==> Counted(o, ad) && ad.id !in o.known)
            && (Counted(o, ad) ==> ad.id != "")
            && (Scanned(o, ad, c) <==> (Counted(o, ad) && ad.id in o.known) || c == TooOld || c == Listed)
  {
    hide BeforeCutoff, PublishedAt;
  }

  /** How one more advert changes a selection. */
  lemma SelectStep(o: Options, ads: seq<Ad>, seen: set<string>, i: nat)
    requires i < |ads|
    ensures var r, q := Select(o, ads[..i], seen), Select(o, ads[..i + 1], seen);
            var ad, c := ads[i], ClassAt(o, ads, seen, i);
            && c == Classify(o, seen + CountedIds(o, ads[..i]), |r.listings|, ad)
            && q.listings == (if c == Listed then r.listings + [ad] else r.listings)
            && q.candidateLimitReached == (r.candidateLimitReached || c == Overflowed)
            && q.scannedExternalIds == (if Scanned(o, ad, c) then r.scannedExternalIds + [ad.id] else r.scannedExternalIds)
            && q.observedCount
               == r.observedCount + (if Counted(o, ad) && ad.id !in seen + CountedIds(o, ads[..i]) then 1 else 0)
            && q.identifiableCount == r.identifiableCount + (if Counted(o, ad) then 1 else 0)
    ensures CountedIds(o, ads[..i + 1]) == CountedIds(o, ads[..i]) + if Counted(o, ads[i]) then {ads[i].id} else {}
  {
    hide BeforeCutoff, PublishedAt, Classify, CountedIds, Counted, Scanned, Oldest, TailStreak, Before, ScannedIds, Chosen;
    ClassesStep(o, ads, seen, i);
    ChosenStep(Listed, o, ads, seen, i);
    ScannedStep(o, ads, seen, i);
    SeenStep(o, ads, seen, i);
    PrefixStep(o, ads, i);
  }

  lemma TallyOf(o: Options, ads: seq<Ad>, seen: set<string>, i: nat, c: Class)
    requires i < |ads|
    ensures Tally(o, ads[..i + 1], seen, c) == Tally(o, ads[..i], seen, c) + if ClassAt(o, ads, seen, i) == c then 1 else 0
  {
    hide Classify, CountedIds, ClassAt;
    ClassesStep(o, ads, seen, i);
  }

  lemma NothingSelected(o: Options, seen: set<string>)
    ensures var r := Select(o, [], seen);
            && r.listings == [] && r.observedCount == 0 && r.identifiableCount == 0
            && !r.candidateLimitReached && r.scannedExternalIds == []
    ensures CountedIds(o, []) == {}
    ensures forall c :: IdsOf(c, o, [], seen) == {} && Tally(o, [], seen, c) == 0
  {
    assert CountedIds(o, []) == {};
    assert CountedIds(o, []) - seen == {};
  }

  /** Every advert has exactly one class, and the counts of a selection are sums of class counts. */
  lemma {:induction false} Accounting(o: Options, ads: seq<Ad>, seen: set<string>)
    ensures var r := Select(o, ads, seen);
            && |ads| == Tally(o, ads, seen, NoId) + Tally(o, ads, seen, Ignored) + r.identifiableCount
            && r.identifiableCount == Tally(o, ads, seen, AlreadySeen) + r.observedCount
            && r.observedCount == Tally(o, ads, seen, KnownId) + Tally(o, ads, seen, Unnormalisable)
                                  + Tally(o, ads, seen, TooOld) + Tally(o, ads, seen, Listed) + Tally(o, ads, seen, Overflowed)
            && |r.listings| == Tally(o, ads, seen, Listed)
  {
    NothingSelected(o, seen);
    if ads != [] {
      hide *;
      var n := |ads| - 1;
      assert ads[..n + 1] == ads;
      Accounting(o, ads[..n], seen);
      SelectStep(o, ads, seen, n);
      ClassMeaning(o, seen + CountedIds(o, ads[..n]), |Select(o, ads[..n], seen).listings|, ads[n]);
      TallyOf(o, ads, seen, n, NoId);
      TallyOf(o, ads, seen, n, Ignored);
      TallyOf(o, ads, seen, n, AlreadySeen);
      TallyOf(o, ads, seen, n, KnownId);
      TallyOf(o, ads, seen, n, Unnormalisable);
      TallyOf(o, ads, seen, n, TooOld);
      TallyOf(o, ads, seen, n, Listed);
      TallyOf(o, ads, seen, n, Overflowed);
    }
  }

  /** The candidate limit is hit exactly when an advert overflows, and then the budget is full. */
  lemma {:induction false} LimitMeansFullBudget(o: Options, ads: seq<Ad>, seen: set<string>)
    ensures var r := Select(o, ads, seen);
            && |r.listings| <= Budget(o)
            && (r.candidateLimitReached ==> |r.listings| == Budget(o))
            && (r.candidateLimitReached <==> IdsOf(Overflowed, o, ads, seen) != {})
  {
    NothingSelected(o, seen);
    if ads != [] {
      hide *;
      var n := |ads| - 1;
      assert ads[..n + 1] == ads;
      LimitMeansFullBudget(o, ads[..n], seen);
      SelectStep(o, ads, seen, n);
      ChosenStep(Overflowed, o, ads, seen, n);
      ClassMeaning(o, seen + CountedIds(o, ads[..n]), |Select(o, ads[..n], seen).listings|, ads[n]);
    }
  }

  lemma ChosenStep(c: Class, o: Options, ads: seq<Ad>, seen: set<string>, i: nat)
    requires i < |ads|
    ensures var was, now := Chosen(c, ads[..i], Classes(o, ads[..i], seen)), Chosen(c, ads[..i + 1], Classes(o, ads[..i + 1], seen));
            now == if ClassAt(o, ads, seen, i) == c then was + [ads[i]] else was
    ensures IdsOf(c, o, ads[..i + 1], seen)
            == IdsOf(c, o, ads[..i], seen) + if ClassAt(o, ads, seen, i) == c then {ads[i].id} else {}
  {
    hide Chosen, Classes, ClassAt;
    ChosenSnoc(c, o, ads, seen, i);
    var was, now := Chosen(c, ads[..i], Classes(o, ads[..i], seen)), Chosen(c, ads[..i + 1], Classes(o, ads[..i + 1], seen));
    if ClassAt(o, ads, seen, i) == c {
      assert forall ad :: ad in now <==> ad in was || ad == ads[i];
    }
  }

  lemma ChosenSnoc(c: Class, o: Options, ads: seq<Ad>, seen: set<string>, i: nat)
    requires i < |ads|
    ensures var was, now := Chosen(c, ads[..i], Classes(o, ads[..i], seen)), Chosen(c, ads[..i + 1], Classes(o, ads[..i + 1], seen));
            now == if ClassAt(o, ads, seen, i) == c then was + [ads[i]] else was
  {
    hide Classes, ClassAt;
    ClassesStep(o, ads, seen, i);
    var next, cs := ads[..i + 1], Classes(o, ads[..i + 1], seen);
    assert next[..i] == ads[..i] && cs[..i] == Classes(o, ads[..i], seen);
  }

  lemma ScannedStep(o: Options, ads: seq<Ad>, seen: set<string>, i: nat)
    requires i < |ads|
    ensures var was, now := ScannedIds(o, ads[..i], Classes(o, ads[..i], seen)), ScannedIds(o, ads[..i + 1], Classes(o, ads[..i + 1], seen));
            now == if Scanned(o, ads[i], ClassAt(o, ads, seen, i)) then was + [ads[i].id] else was
  {
    hide BeforeCutoff, PublishedAt, Classify, CountedIds, ClassAt, Scanned;
    ClassesStep(o, ads, seen, i);
    var next, cs := ads[..i + 1], Classes(o, ads[..i + 1], seen);
    assert next[..i] == ads[..i] && cs[..i] == Classes(o, ads[..i], seen);
  }

  /** Listed adverts are candidates and new to the scan. */
  lemma {:induction false} ListedAreCandidates(o: Options, ads: seq<Ad>, seen: set<string>, ad: Ad)
    requires ad in Select(o, ads, seen).listings
    ensures ad in ads && Candidate(o, ad) && ad.id !in seen && ad.id in CountedIds(o, ads)
  {
    NothingSelected(o, seen);
    if ads != [] {
      hide *;
      var n := |ads| - 1;
      assert ads[..n + 1] == ads;
      SelectStep(o, ads, seen, n);
      var was := Select(o, ads[..n], seen).listings;
      if ad in was {
        ListedAreCandidates(o, ads[..n], seen, ad);
      } else {
        assert ad == ads[n];
        ClassMeaning(o, seen + CountedIds(o, ads[..n]), |was|, ad);
      }
    }
  }

  /** No advert is listed twice. */
  lemma {:induction false} ListedAreDistinct(o: Options, ads: seq<Ad>, seen: set<string>)
    ensures Distinct(Ids(Select(o, ads, seen).listings))
  {
    if ads == [] {
      NothingSelected(o, seen);
    } else {
      hide *;
      var n := |ads| - 1;
      assert ads[..n + 1] == ads;
      ListedAreDistinct(o, ads[..n], seen);
      SelectStep(o, ads, seen, n);
      var was := Select(o, ads[..n], seen).listings;
      if Select(o, ads, seen).listings != was {
        ClassMeaning(o, seen + CountedIds(o, ads[..n]), |was|, ads[n]);
        forall a | a in was ensures a.id != ads[n].id {
          ListedAreCandidates(o, ads[..n], seen, a);
        }
        DistinctIdsExtend(was, ads[n]);
      }
    }
  }

  lemma DistinctIdsExtend(ads: seq<Ad>, ad: Ad)
    requires Distinct(Ids(ads))
    requires forall a :: a in ads ==> a.id != ad.id
    ensures Distinct(Ids(ads + [ad]))
  {
    var was, now := Ids(ads), Ids(ads + [ad]);
    forall i, j | 0 <= i < j < |now| ensures now[i] != now[j] {
      assert ads[i] in ads;
      assert was[i] == now[i];
      if j < |ads| {
        assert was[j] == now[j];
      }
    }
  }

  /** A feed of one advert. */
  lemma SelectOne(o: Options, ad: Ad, seen: set<string>)
    ensures Candidate(o, ad) && ad.id !in seen && Budget(o) > 0 ==>
              Select(o, [ad], seen).listings == [ad] && !Select(o, [ad], seen).candidateLimitReached
    ensures Candidate(o, ad) && ad.id !in seen && Budget(o) == 0 ==>
              Select(o, [ad], seen).listings == [] && Select(o, [ad], seen).candidateLimitReached
    ensures !Candidate(o, ad) || ad.id in seen ==>
              Select(o, [ad], seen).listings == [] && !Select(o, [ad], seen).candidateLimitReached
    ensures CountedIds(o, [ad]) == if Counted(o, ad) then {ad.id} else {}
    ensures Counted(o, ad) ==>
              && Select(o, [ad], seen).observedCount == (if ad.id in seen then 0 else 1)
              && Select(o, [ad], seen).identifiableCount == 1
  {
    hide *;
    NothingSelected(o, seen);
    assert [ad][..0] == [] && [ad][..1] == [ad];
    SelectStep(o, [ad], seen, 0);
    ClassMeaning(o, seen + CountedIds(o, []), 0, ad);
  }

  /** What one pass scans and what it overflows never meet; an overflowed id was never seen before and is unknown. */
  lemma {:induction false} OverflowIsNotScanned(o: Options, ads: seq<Ad>, seen: set<string>)
    ensures var over, scanned := IdsOf(Overflowed, o, ads, seen), Select(o, ads, seen).scannedExternalIds;
            && (forall id :: id in over ==> id in CountedIds(o, ads) && id !in seen && id !in o.known && id !in scanned)
            && (forall id :: id in scanned ==> id in CountedIds(o, ads) && (id in o.known || id !in seen))
  {
    NothingSelected(o, seen);
    if ads != [] {
      hide *;
      var n := |ads| - 1;
      assert ads[..n + 1] == ads;
      OverflowIsNotScanned(o, ads[..n], seen);
      SelectStep(o, ads, seen, n);
      ChosenStep(Overflowed, o, ads, seen, n);
      ClassMeaning(o, seen + CountedIds(o, ads[..n]), |Select(o, ads[..n], seen).listings|, ads[n]);
      ClassMeaningAll(o, seen + CountedIds(o, ads[..n]), |Select(o, ads[..n], seen).listings|, ads[n]);
    }
  }

  lemma ClassMeaningAll(o: Options, seen: set<string>, listed: nat, ad: Ad)
    ensures var c := Classify(o, seen, listed, ad);
            c == TooOld || c == Listed || c == Unnormalisable || c == KnownId || c == Overflowed
            <==> Counted(o, ad) && ad.id !in seen
  {
    hide BeforeCutoff, PublishedAt;
  }

  /** No identified advert disappears: a newly counted id is scanned, overflowed or could not be normalised. */
  lemma {:induction false} EveryNewIdIsAccounted(o: Options, ads: seq<Ad>, seen: set<string>, id: string)
    requires id in CountedIds(o, ads) && id !in seen
    ensures id in Select(o, ads, seen).scannedExternalIds
            || id in IdsOf(Overflowed, o, ads, seen)
            || id in IdsOf(Unnormalisable, o, ads, seen)
  {
    NothingSelected(o, seen);
    if ads != [] {
      hide *;
      var n := |ads| - 1;
      assert ads[..n + 1] == ads;
      SelectStep(o, ads, seen, n);
      ChosenStep(Overflowed, o, ads, seen, n);
      ChosenStep(Unnormalisable, o, ads, seen, n);
      ClassMeaning(o, seen + CountedIds(o, ads[..n]), |Select(o, ads[..n], seen).listings|, ads[n]);
      ClassMeaningAll(o, seen + CountedIds(o, ads[..n]), |Select(o, ads[..n], seen).listings|, ads[n]);
      if id in CountedIds(o, ads[..n]) {
        EveryNewIdIsAccounted(o, ads[..n], seen, id);
      }
    }
  }

  function CandidateIds(o: Options, ads: seq<Ad>): (ids: set<string>) {
    set ad | ad in ads && Candidate(o, ad) :: ad.id
  }

  /** Each identified advert of the scan has a single record. */
  predicate OneRecordPerId(universe: set<Ad>) {
    forall a, b :: a in universe && b in universe && a.id == b.id && a.id != "" ==> a == b
  }

  /** With one record per id, the new candidate ids split into the listed and the overflowed ones. */
  lemma {:induction false} ListedOrOverflowed(o: Options, ads: seq<Ad>, seen: set<string>, universe: set<Ad>)
    requires OneRecordPerId(universe) && forall ad :: ad in ads ==> ad in universe
    ensures IdsOf(Listed, o, ads, seen) + IdsOf(Overflowed, o, ads, seen) == CandidateIds(o, ads) - seen
    ensures IdsOf(Listed, o, ads, seen) !! IdsOf(Overflowed, o, ads, seen)
  {
    NothingSelected(o, seen);
    if ads == [] {
      assert CandidateIds(o, ads) == {};
    } else {
      var n := |ads| - 1;
      var rest, ad := ads[..n], ads[n];
      assert ads == rest + [ad];
      assert ads[..n + 1] == ads;
      assert CandidateIds(o, ads) == CandidateIds(o, rest) + if Candidate(o, ad) then {ad.id} else {} by {
        hide Candidate;
        assert forall a :: a in ads <==> a in rest || a == ad;
      }
      ListedOrOverflowed(o, rest, seen, universe);
      if ad.id in CountedIds(o, rest) && Candidate(o, ad) {
        var twin :| twin in rest && Counted(o, twin) && twin.id == ad.id;
        assert twin in ads;
        assert twin == ad;
        assert ad.id in CandidateIds(o, rest);
      }
      assert CandidateIds(o, rest) <= CountedIds(o, rest);
      SplitStep(o, ads, seen);
    }
  }

  lemma SplitStep(o: Options, ads: seq<Ad>, seen: set<string>)
    requires ads != []
    requires var rest, ad := ads[..|ads| - 1], ads[|ads| - 1];
             && IdsOf(Listed, o, rest, seen) + IdsOf(Overflowed, o, rest, seen) == CandidateIds(o, rest) - seen
             && IdsOf(Listed, o, rest, seen) !! IdsOf(Overflowed, o, rest, seen)
             && CandidateIds(o, rest) <= CountedIds(o, rest)
             && CandidateIds(o, ads) == CandidateIds(o, rest) + (if Candidate(o, ad) then {ad.id} else {})
             && (ad.id in CountedIds(o, rest) && Candidate(o, ad) ==> ad.id in CandidateIds(o, rest))
    ensures IdsOf(Listed, o, ads, seen) + IdsOf(Overflowed, o, ads, seen) == CandidateIds(o, ads) - seen
    ensures IdsOf(Listed, o, ads, seen) !! IdsOf(Overflowed, o, ads, seen)
  {
    hide *;
    var n := |ads| - 1;
    assert ads[..n + 1] == ads;
    SelectStep(o, ads, seen, n);
    ChosenStep(Listed, o, ads, seen, n);
    ChosenStep(Overflowed, o, ads, seen, n);
    ClassMeaning(o, seen + CountedIds(o, ads[..n]), |Select(o, ads[..n], seen).listings|, ads[n]);
  }

  // ----- several feeds in one pass

  /** The options for reading on with what is left of the budget. */
  function Remaining(o: Options, listed: nat): (rest: Options) {
    o.(maxCandidates := Max(0, o.maxCandidates - listed))
  }

  /** Two feeds read one after the other, with a shared seen set and budget, select what one joint feed would. */
  lemma {:induction false} SelectionJoins(o: Options, a: seq<Ad>, b: seq<Ad>, seen: set<string>)
    ensures var first := Select(o, a, seen).listings;
            Select(o, a + b, seen).listings
            == first + Select(Remaining(o, |first|), b, seen + CountedIds(o, a)).listings
    ensures Select(o, a + b, seen).candidateLimitReached
       <==> || Select(o, a, seen).candidateLimitReached
            || Select(Remaining(o, |Select(o, a, seen).listings|), b, seen + CountedIds(o, a)).candidateLimitReached
    ensures CountedIds(o, a + b) == CountedIds(o, a) + CountedIds(o, b)
  {
    hide *;
    if b == [] {
      assert a + b == a;
      NothingSelected(o, seen + CountedIds(o, a));
      NothingSelected(Remaining(o, |Select(o, a, seen).listings|), seen + CountedIds(o, a));
    } else {
      SelectionJoins(o, a, b[..|b| - 1], seen);
      JoinStep(o, a, b, seen);
    }
  }

  lemma JoinStep(o: Options, a: seq<Ad>, b: seq<Ad>, seen: set<string>)
    requires b != []
    requires var first, most := Select(o, a, seen).listings, b[..|b| - 1];
             && Select(o, a + most, seen).listings
                == first + Select(Remaining(o, |first|), most, seen + CountedIds(o, a)).listings
             && (Select(o, a + most, seen).candidateLimitReached
                 <==> || Select(o, a, seen).candidateLimitReached
                      || Select(Remaining(o, |first|), most, seen + CountedIds(o, a)).candidateLimitReached)
             && CountedIds(o, a + most) == CountedIds(o, a) + CountedIds(o, most)
    ensures var first := Select(o, a, seen).listings;
            Select(o, a + b, seen).listings
            == first + Select(Remaining(o, |first|), b, seen + CountedIds(o, a)).listings
    ensures Select(o, a + b, seen).candidateLimitReached
       <==> || Select(o, a, seen).candidateLimitReached
            || Select(Remaining(o, |Select(o, a, seen).listings|), b, seen + CountedIds(o, a)).candidateLimitReached
    ensures CountedIds(o, a + b) == CountedIds(o, a) + CountedIds(o, b)
  {
    hide *;
    var n, first, both, later := |b| - 1, Select(o, a, seen).listings, a + b, seen + CountedIds(o, a);
    var rest, most := Remaining(o, |first|), b[..n];
    LimitMeansFullBudget(o, a, seen);
    PrefixesOf(a, b);
    SelectStep(o, both, seen, |a| + n);
    SelectStep(rest, b, later, n);
    SelectStep(o, b, later, n);
    NothingRemains(o, |first|);
    SameCountedIds(o, rest, most);
    SameClass(o, |first|, later + CountedIds(o, most), |Select(rest, most, later).listings|, b[n]);
    assert seen + (CountedIds(o, a) + CountedIds(o, most)) == later + CountedIds(o, most);
    Associates(first, Select(rest, most, later).listings, b[n]);
  }

  lemma Associates(a: seq<Ad>, b: seq<Ad>, ad: Ad)
    ensures a + (b + [ad]) == (a + b) + [ad]
  {
  }

  lemma PrefixesOf(a: seq<Ad>, b: seq<Ad>)
    requires b != []
    ensures var n, both := |b| - 1, a + b;
            && both[..|a| + n] == a + b[..n] && both[..|a| + n + 1] == both && b[..n + 1] == b && both[|a| + n] == b[n]
  {
  }

  lemma SameClass(o: Options, listed: nat, seen: set<string>, n: nat, ad: Ad)
    requires listed <= Budget(o)
    ensures Classify(o, seen, listed + n, ad) == Classify(Remaining(o, listed), seen, n, ad)
  {
    hide BeforeCutoff, PublishedAt;
  }

  lemma SameCountedIds(o: Options, rest: Options, ads: seq<Ad>)
    requires rest == o.(maxCandidates := rest.maxCandidates)
    ensures CountedIds(rest, ads) == CountedIds(o, ads)
  {
    hide BeforeCutoff, PublishedAt;
    assert forall ad :: Counted(rest, ad) <==> Counted(o, ad);
  }

  lemma NothingRemains(o: Options, listed: nat)
    ensures Remaining(o, listed) == o.(maxCandidates := Remaining(o, listed).maxCandidates)
    ensures listed >= o.maxCandidates ==> Budget(Remaining(o, listed)) == 0
  {
  }

  /** One pass of a scan: its options and the feed it reads. */
  datatype FeedPass = FeedPass(o: Options, ads: seq<Ad>)

  function SeenAcross(passes: seq<FeedPass>, seen: set<string>): (r: set<string>) {
    if passes == [] then seen
    else
      var n := |passes| - 1;
      SeenAcross(passes[..n], seen) + CountedIds(passes[n].o, passes[n].ads)
  }

  function ScannedAcross(passes: seq<FeedPass>, seen: set<string>): (r: set<string>) {
    if passes == [] then {}
    else
      var n := |passes| - 1;
      var r := Select(passes[n].o, passes[n].ads, SeenAcross(passes[..n], seen));
      ScannedAcross(passes[..n], seen) + set id | id in r.scannedExternalIds
  }

  function OverflowedAcross(passes: seq<FeedPass>, seen: set<string>): (r: set<string>) {
    if passes == [] then {}
    else
      var n := |passes| - 1;
      OverflowedAcross(passes[..n], seen) + IdsOf(Overflowed, passes[n].o, passes[n].ads, SeenAcross(passes[..n], seen))
  }

  /**
   * Over a whole scan, whatever the feeds, budgets, cutoffs and ignore sets of
   * its passes, an advert that overflowed once is never reported as scanned:
   * the next scan will meet it again.
   */
  lemma {:induction false} OverflowIsNeverScanned(passes: seq<FeedPass>, known: set<string>, seen: set<string>)
    requires forall p :: p in passes ==> p.o.known == known
    ensures OverflowedAcross(passes, seen) !! ScannedAcross(passes, seen)
    ensures OverflowedAcross(passes, seen) <= SeenAcross(passes, seen) - known
    ensures ScannedAcross(passes, seen) <= SeenAcross(passes, seen)
  {
    if passes != [] {
      var n := |passes| - 1;
      OverflowIsNeverScanned(passes[..n], known, seen);
      OverflowIsNotScanned(passes[n].o, passes[n].ads, SeenAcross(passes[..n], seen));
      hide CountedIds, Select, IdsOf;
    }
  }

  lemma {:induction false} CountedAdsAre(o: Options, ads: seq<Ad>, ad: Ad)
    ensures ad in CountedAds(o, ads) <==> ad in ads && Counted(o, ad)
  {
    if ads != [] {
      hide Counted;
      var n := |ads| - 1;
      CountedAdsAre(o, ads[..n], ad);
      assert ads == ads[..n] + [ads[n]];
    }
  }

  lemma CountedMembers(o: Options, ads: seq<Ad>)
    ensures forall ad :: ad in CountedAds(o, ads) <==> ad in ads && Counted(o, ad)
    ensures CountedAds(o, ads) != [] <==> exists ad :: ad in ads && Counted(o, ad)
  {
    hide *;
    forall ad ensures ad in CountedAds(o, ads) <==> ad in ads && Counted(o, ad) {
      CountedAdsAre(o, ads, ad);
    }
    var counted := CountedAds(o, ads);
    if counted != [] {
      assert counted[0] in counted;
    }
  }

  lemma {:induction false} TailStreakIsLongest(known: set<string>, ads: seq<Ad>)
    ensures var k := TailStreak(known, ads);
            && k <= |ads|
            && (forall i :: |ads| - k <= i < |ads| ==> ads[i].id in known)
            && (k < |ads| ==> ads[|ads| - k - 1].id !in known)
  {
    if ads != [] && ads[|ads| - 1].id in known {
      TailStreakIsLongest(known, ads[..|ads| - 1]);
    }
  }

  /**
   * The cutoff signal is sound and complete: it is raised exactly when some
   * advert counts, every advert is identified, and each is either a neutral
   * placement or certainly published before the cutoff, whatever its true
   * publication time within the precision of its stamp.
   */
  lemma CutoffSignalIsExact(o: Options, ads: seq<Ad>, seen: set<string>)
    ensures Select(o, ads, seen).fullyBeforeCutoff
            <==> && o.publishedAfter.Some?
                 && (exists ad :: ad in ads && Counts(o, ad))
                 && (forall ad :: ad in ads ==> ad.id != "" && (IsNeutral(o, ad) || Old(o, ad)))
    ensures Select(o, ads, seen).cutoffEncountered <==> exists ad :: ad in ads && Counts(o, ad) && Old(o, ad)
  {
    RecordsMeaning(o);
    NoIdClass(o, ads, seen);
    CountedMembers(o, ads);
    hide BeforeCutoff, PublishedAt, Before, Neutral, CountedAds, IsNeutral, Old, TailStreak;
  }

  lemma RecordsMeaning(o: Options)
    ensures forall ad :: Before(o, ad) <==> Old(o, ad)
    ensures forall ad :: Neutral(o, ad) <==> IsNeutral(o, ad)
    ensures forall ad :: Counted(o, ad) <==> Counts(o, ad)
    ensures forall ad :: Candidate(o, ad) <==> Wished(o, ad)
  {
    forall ad
      ensures (Before(o, ad) <==> Old(o, ad)) && (Neutral(o, ad) <==> IsNeutral(o, ad))
      ensures (Counted(o, ad) <==> Counts(o, ad)) && (Candidate(o, ad) <==> Wished(o, ad))
    {
      RecordMeaning(o, ad);
    }
  }

  /** The adverts that count, in feed order. */
  ghost function Counting(o: Options, ads: seq<Ad>): (r: seq<Ad>) {
    if ads == [] then []
    else Counting(o, ads[..|ads| - 1]) + if Counts(o, ads[|ads| - 1]) then [ads[|ads| - 1]] else []
  }

  lemma {:induction false} CountedAreCounting(o: Options, ads: seq<Ad>)
    ensures CountedAds(o, ads) == Counting(o, ads)
  {
    if ads != [] {
      CountedAreCounting(o, ads[..|ads| - 1]);
      RecordMeaning(o, ads[|ads| - 1]);
      hide Counted, Counts;
    }
  }

  /** The known tail is exactly the longest all-known suffix of the counting adverts. */
  lemma KnownTailIsLongest(o: Options, ads: seq<Ad>, seen: set<string>)
    ensures var r, counting := Select(o, ads, seen), Counting(o, ads);
            && r.identifiableCount == |counting|
            && r.knownTailStreak <= |counting|
            && (forall i :: |counting| - r.knownTailStreak <= i < |counting| ==> counting[i].id in o.continuityKnown)
            && (r.knownTailStreak < |counting| ==> counting[|counting| - r.knownTailStreak - 1].id !in o.continuityKnown)
  {
    CountedAreCounting(o, ads);
    hide BeforeCutoff, PublishedAt, Neutral, CountedAds, TailStreak, Before, Counting;
    TailStreakIsLongest(o.continuityKnown, CountedAds(o, ads));
  }

  /** A feed is all known exactly when an advert counts, all are identified and each is neutral or known. */
  lemma AllKnownIsExact(o: Options, ads: seq<Ad>, seen: set<string>)
    ensures Select(o, ads, seen).allKnown
            <==> && (exists ad :: ad in ads && Counts(o, ad))
                 && (forall ad :: ad in ads ==> ad.id != "" && (IsNeutral(o, ad) || ad.id in o.continuityKnown))
    ensures Select(o, ads, seen).knownEncountered <==> exists ad :: ad in ads && Counts(o, ad) && ad.id in o.continuityKnown
  {
    RecordsMeaning(o);
    NoIdClass(o, ads, seen);
    CountedMembers(o, ads);
    hide BeforeCutoff, PublishedAt, Neutral, CountedAds, TailStreak, Before, IsNeutral, Old;
  }

  // ----- what a pass lists, counts and scans, stated over the records

  /** The advert at an index is wished for and its id has not counted before, in this pass or an earlier one. */
  ghost predicate NewlyWished(o: Options, ads: seq<Ad>, seen: set<string>, i: nat)
    requires i < |ads|
  {
    Wished(o, ads[i]) && FirstCounting(o, ads, seen, i)
  }

  ghost predicate FirstCounting(o: Options, ads: seq<Ad>, seen: set<string>, i: nat)
    requires i < |ads|
  {
    Counts(o, ads[i]) && ads[i].id !in seen && forall j :: 0 <= j < i && Counts(o, ads[j]) ==> ads[j].id != ads[i].id
  }

  ghost function NewWishes(o: Options, ads: seq<Ad>, seen: set<string>): (r: seq<Ad>) {
    if ads == [] then []
    else
      var n := |ads| - 1;
      NewWishes(o, ads[..n], seen) + if NewlyWished(o, ads, seen, n) then [ads[n]] else []
  }

  ghost function CountingIds(o: Options, ads: seq<Ad>): (ids: set<string>) {
    set ad | ad in ads && Counts(o, ad) :: ad.id
  }

  lemma CountedIdsAre(o: Options, ads: seq<Ad>)
    ensures CountedIds(o, ads) == CountingIds(o, ads)
  {
    RecordsMeaning(o);
    hide Counted, Counts, Before, Neutral, Candidate, Old, IsNeutral, Wished;
  }

  lemma NewHere(o: Options, ads: seq<Ad>, seen: set<string>)
    requires ads != []
    ensures var n := |ads| - 1;
            && (FirstCounting(o, ads, seen, n) <==> Counted(o, ads[n]) && ads[n].id !in seen + CountedIds(o, ads[..n]))
            && (NewlyWished(o, ads, seen, n) <==> Candidate(o, ads[n]) && ads[n].id !in seen + CountedIds(o, ads[..n]))
  {
    var n := |ads| - 1;
    RecordMeaning(o, ads[n]);
    CountedIdsAre(o, ads[..n]);
    WishesCount(o, ads[n]);
    hide Counted, Counts, Candidate, Wished, CountedIds;
    assert forall j :: 0 <= j < n ==> ads[..n][j] == ads[j] && ads[j] in ads[..n];
  }

  lemma WishesCount(o: Options, ad: Ad)
    ensures Wished(o, ad) ==> Counts(o, ad)
  {
  }

  /** What is wished for does not depend on the budget or on the ids that continuity goes by. */
  lemma {:induction false} SameWishes(o: Options, p: Options, ads: seq<Ad>, seen: set<string>)
    requires p == o.(maxCandidates := p.maxCandidates, continuityKnown := p.continuityKnown)
    ensures NewWishes(p, ads, seen) == NewWishes(o, ads, seen)
    ensures CountingIds(p, ads) == CountingIds(o, ads)
    ensures Counting(p, ads) == Counting(o, ads)
  {
    assert forall ad :: Counts(p, ad) <==> Counts(o, ad);
    assert forall ad :: Wished(p, ad) <==> Wished(o, ad);
    if ads != [] {
      hide Counts, Wished;
      SameWishes(o, p, ads[..|ads| - 1], seen);
    }
  }

  /**
   * The listings are the first maxCandidates adverts wished for, each id where it
   * counts first, and the limit is reported exactly when there are more of them.
   */
  lemma {:induction false} ListingsAreFirstWishes(o: Options, ads: seq<Ad>, seen: set<string>)
    ensures var r, wishes, room := Select(o, ads, seen), NewWishes(o, ads, seen), Max(0, o.maxCandidates);
            && r.listings == FirstOf(wishes, room)
            && (r.candidateLimitReached <==> |wishes| > room)
  {
    hide *;
    RoomIs(o);
    if ads == [] {
      NothingSelected(o, seen);
      NothingWished(o, seen);
    } else {
      var n := |ads| - 1;
      assert ads[..n + 1] == ads;
      ListingsAreFirstWishes(o, ads[..n], seen);
      SelectStep(o, ads, seen, n);
      NewHere(o, ads, seen);
      WishesStep(o, ads, seen);
      ClassMeaning(o, seen + CountedIds(o, ads[..n]), |Select(o, ads[..n], seen).listings|, ads[n]);
      FirstSnoc(NewWishes(o, ads[..n], seen), ads[n], Budget(o));
    }
  }

  /** The first n adverts, or all if there are fewer. */
  function FirstOf(ads: seq<Ad>, n: nat): (r: seq<Ad>) {
    if |ads| <= n then ads else ads[..n]
  }

  lemma FirstSnoc(ads: seq<Ad>, ad: Ad, n: nat)
    ensures |FirstOf(ads, n)| == (if |ads| <= n then |ads| else n)
    ensures FirstOf(ads + [ad], n) == if |ads| < n then FirstOf(ads, n) + [ad] else FirstOf(ads, n)
    ensures ads + [] == ads
  {
  }

  lemma NothingWished(o: Options, seen: set<string>)
    ensures NewWishes(o, [], seen) == [] && FirstOf([], Budget(o)) == []
  {
  }

  lemma WishesStep(o: Options, ads: seq<Ad>, seen: set<string>)
    requires ads != []
    ensures var n := |ads| - 1;
            NewWishes(o, ads, seen) == NewWishes(o, ads[..n], seen) + if NewlyWished(o, ads, seen, n) then [ads[n]] else []
  {
  }

  lemma RoomIs(o: Options)
    ensures Budget(o) == Max(0, o.maxCandidates) == if o.maxCandidates < 0 then 0 else o.maxCandidates
  {
  }

  ghost predicate KnownIn(o: Options, ads: seq<Ad>, id: string) {
    id in o.known && exists i :: 0 <= i < |ads| && ads[i].id == id && Counts(o, ads[i])
  }

  /** The id counts first in a record that is unknown, normalisable and certainly too old. */
  ghost predicate TooOldIn(o: Options, ads: seq<Ad>, seen: set<string>, id: string) {
    id !in o.known && exists i :: 0 <= i < |ads| && ads[i].id == id && FirstCounting(o, ads, seen, i) && ads[i].normalizes && Old(o, ads[i])
  }

  /**
   * The pass observes the ids that count and were not seen before, and scans
   * the known, the too old and the listed ones.
   */
  lemma {:induction false} ScannedAreSettled(o: Options, ads: seq<Ad>, seen: set<string>, id: string)
    ensures var r := Select(o, ads, seen);
            && r.observedCount == |CountingIds(o, ads) - seen|
            && (id in r.scannedExternalIds <==> KnownIn(o, ads, id) || TooOldIn(o, ads, seen, id) || id in Ids(r.listings))
  {
    hide *;
    ObservedAre(o, ads, seen);
    if ads == [] {
      NothingSelected(o, seen);
      NothingSettled(o, seen, id);
    } else {
      var n := |ads| - 1;
      assert ads[..n + 1] == ads;
      ScannedAreSettled(o, ads[..n], seen, id);
      SelectStep(o, ads, seen, n);
      SettledStep(o, ads, seen, id);
      var r := Select(o, ads[..n], seen);
      ClassMeaning(o, seen + CountedIds(o, ads[..n]), |r.listings|, ads[n]);
      TooOldClass(o, seen + CountedIds(o, ads[..n]), |r.listings|, ads[n]);
      IdsSnoc(r.listings, ads[n]);
    }
  }

  lemma NothingSettled(o: Options, seen: set<string>, id: string)
    ensures !KnownIn(o, [], id) && !TooOldIn(o, [], seen, id) && Ids([]) == []
  {
  }

  lemma ObservedAre(o: Options, ads: seq<Ad>, seen: set<string>)
    ensures Select(o, ads, seen).observedCount == |CountingIds(o, ads) - seen|
  {
    CountedIdsAre(o, ads);
    hide CountedIds, Classes, CountedAds, Chosen, TailStreak, Oldest, ScannedIds, Before, CountingIds;
  }

  lemma IdsSnoc(ads: seq<Ad>, ad: Ad)
    ensures Ids(ads + [ad]) == Ids(ads) + [ad.id]
  {
  }

  lemma TooOldClass(o: Options, seen: set<string>, listed: nat, ad: Ad)
    ensures Classify(o, seen, listed, ad) == TooOld
       <==> Counted(o, ad) && ad.id !in seen && ad.id !in o.known && ad.normalizes && Before(o, ad)
  {
    hide BeforeCutoff, PublishedAt;
  }

  lemma SettledStep(o: Options, ads: seq<Ad>, seen: set<string>, id: string)
    requires ads != []
    ensures var n := |ads| - 1;
            var new' := Counted(o, ads[n]) && ads[n].id !in seen + CountedIds(o, ads[..n]);
            && (KnownIn(o, ads, id) <==> KnownIn(o, ads[..n], id) || (ads[n].id == id && id in o.known && Counted(o, ads[n])))
            && (TooOldIn(o, ads, seen, id)
                <==> || TooOldIn(o, ads[..n], seen, id)
                     || (ads[n].id == id && id !in o.known && new' && ads[n].normalizes && Before(o, ads[n])))
  {
    var n := |ads| - 1;
    NewHere(o, ads, seen);
    RecordMeaning(o, ads[n]);
    hide Counted, Counts, Candidate, Wished, CountedIds, Before, Old;
    forall i | 0 <= i < n ensures ads[..n][i] == ads[i] && (FirstCounting(o, ads[..n], seen, i) <==> FirstCounting(o, ads, seen, i)) {
      assert forall j :: 0 <= j < i ==> ads[..n][j] == ads[j];
    }
    KnownSnoc(o, ads, id);
    hide FirstCounting;
    if TooOldIn(o, ads, seen, id) {
      var i :| 0 <= i < |ads| && ads[i].id == id && FirstCounting(o, ads, seen, i) && ads[i].normalizes && Old(o, ads[i]);
      assert i < n ==> ads[..n][i] == ads[i];
    }
    if TooOldIn(o, ads[..n], seen, id) {
      var i :| 0 <= i < n && ads[..n][i].id == id && FirstCounting(o, ads[..n], seen, i) && ads[..n][i].normalizes && Old(o, ads[..n][i]);
      assert ads[..n][i] == ads[i];
    }
  }

  lemma KnownSnoc(o: Options, ads: seq<Ad>, id: string)
    requires ads != []
    ensures var n := |ads| - 1;
            KnownIn(o, ads, id) <==> KnownIn(o, ads[..n], id) || (ads[n].id == id && id in o.known && Counts(o, ads[n]))
  {
    hide Counts;
    var n := |ads| - 1;
    assert forall i :: 0 <= i < n ==> ads[..n][i] == ads[i];
  }

  /** The oldest stamp reported is the least of the stamps of counting, dated adverts, and absent only when there is none. */
  lemma OldestIsLeast(o: Options, ads: seq<Ad>, seen: set<string>)
    ensures var oldest := Select(o, ads, seen).oldestObservedAt;
            && (forall ad, t :: ad in ads && IsCountingStamp(o, ad, t) ==> oldest.Some? && oldest.value <= t)
            && (oldest.Some? ==> exists ad :: ad in ads && IsCountingStamp(o, ad, oldest.value))
  {
    OldestOf(o, ads);
    forall ad ensures Counted(o, ad) <==> Counts(o, ad) {
      RecordMeaning(o, ad);
    }
    forall ad, t ensures IsCountingStamp(o, ad, t) <==> Counted(o, ad) && PublishedAt(ad, o.includeRefreshed) == Some(t) {
      PublishedAtIsExact(ad, o.includeRefreshed);
    }
    hide IsCountingStamp, Counted, Counts, PublishedAt, CountedAds, TailStreak, Classes, Chosen, ScannedIds, CountedIds, Before;
  }

  ghost predicate IsCountingStamp(o: Options, ad: Ad, t: int) {
    Counts(o, ad) && Dated(ad, o.includeRefreshed) && IsStamp(ad, o.includeRefreshed, t)
  }

  lemma {:induction false} OldestOf(o: Options, ads: seq<Ad>)
    ensures var oldest := Oldest(o, ads);
            && (forall ad :: ad in ads && Counted(o, ad) && PublishedAt(ad, o.includeRefreshed).Some? ==>
                  oldest.Some? && oldest.value <= PublishedAt(ad, o.includeRefreshed).value)
            && (oldest.Some? ==> exists ad :: ad in ads && Counted(o, ad) && PublishedAt(ad, o.includeRefreshed) == oldest)
  {
    hide PublishedAt, Counted;
    if ads != [] {
      var n := |ads| - 1;
      OldestOf(o, ads[..n]);
      assert ads == ads[..n] + [ads[n]];
      assert forall ad :: ad in ads <==> ad in ads[..n] || ad == ads[n];
    }
  }
}
