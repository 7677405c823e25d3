/**
 * The records that the OLX feeds deliver. Whether normalizeOlxAd accepts an
 * advert is a property of the record alone (`normalizes`).
 */
module OlxTypes {
  import opened Maybe

  datatype Confidence = High | Medium | Low | Unknown

  datatype Ad = Ad(
    id: string,
    createdAt: Option<int>,
    refreshedAt: Option<int>,
    confidence: Option<Confidence>,
    htmlCardOnly: bool,
    normalizes: bool
  )

  datatype FeedResult =
    | Ads(primary: bool, target: string, channel: string, ads: seq<Ad>)
    | Blocked(primary: bool)
    | Failed(primary: bool)

  function Ids(ads: seq<Ad>): (ids: seq<string>) {
    seq(|ads|, i requires 0 <= i < |ads| => ads[i].id)
  }

  const MINUTE_MS := 60_000

  function Latest(a: Option<int>, b: Option<int>): (r: Option<int>) {
    if a.None? then b
    else if b.None? then a
    else if a.value >= b.value then a else b
  }

  function StampedAt(ad: Ad, includeRefreshed: bool): (at: Option<int>) {
    if includeRefreshed then Latest(ad.createdAt, ad.refreshedAt) else ad.createdAt
  }

  function ConfidenceOf(ad: Ad, at: Option<int>): (c: Confidence) {
    if at.None? then Unknown
    else match ad.confidence
      case Some(c) => c
      case None => if ad.htmlCardOnly then Low else High
  }

  /** Day-only and unknown stamps are not publication evidence. */
  function PublishedAt(ad: Ad, includeRefreshed: bool): (at: Option<int>) {
    var at := StampedAt(ad, includeRefreshed);
    var c := ConfidenceOf(ad, at);
    if c == Low || c == Unknown then None else at
  }

  predicate BeforeCutoff(ad: Ad, includeRefreshed: bool, cutoff: int) {
    var at := PublishedAt(ad, includeRefreshed);
    if at.None? then false
    else if ConfidenceOf(ad, at) == Medium then at.value + MINUTE_MS <= cutoff
    else at.value < cutoff
  }

  // ----- what a stamp says, stated over the record

  /** The relevant stamp: of the creation, or with refreshes included the later of the two that are there. */
  predicate IsStamp(ad: Ad, includeRefreshed: bool, t: int) {
    if includeRefreshed then
      && (ad.createdAt == Some(t) || ad.refreshedAt == Some(t))
      && (ad.createdAt.Some? ==> ad.createdAt.value <= t)
      && (ad.refreshedAt.Some? ==> ad.refreshedAt.value <= t)
    else ad.createdAt == Some(t)
  }

  /** A stated precision counts; without one only day-only HTML cards are imprecise. */
  predicate IsExact(ad: Ad) {
    ad.confidence == Some(High) || (ad.confidence == None && !ad.htmlCardOnly)
  }

  predicate IsToTheMinute(ad: Ad) {
    ad.confidence == Some(Medium)
  }

  /** The record says when it was published, at least to the minute. */
  predicate Dated(ad: Ad, includeRefreshed: bool) {
    && (IsExact(ad) || IsToTheMinute(ad))
    && (ad.createdAt.Some? || (includeRefreshed && ad.refreshedAt.Some?))
  }

  /**
   * The moments at which the advert may really have been published: exactly the
   * stamp when it is exact, anywhere in the stamped minute when only the minute
   * is known, and anywhere at all when the record is not dated.
   */
  ghost predicate MayBePublishedAt(ad: Ad, includeRefreshed: bool, t: int) {
    Dated(ad, includeRefreshed) ==>
      exists stamp :: IsStamp(ad, includeRefreshed, stamp) && if IsToTheMinute(ad) then stamp <= t < stamp + 60 * 1000 else t == stamp
  }

  /** Every moment the record allows is before the cutoff. */
  ghost predicate CertainlyBefore(ad: Ad, includeRefreshed: bool, cutoff: int) {
    forall t: int :: MayBePublishedAt(ad, includeRefreshed, t) ==> t < cutoff
  }

  /** The trustworthy stamp is the relevant one, of dated records only. */
  lemma PublishedAtIsExact(ad: Ad, includeRefreshed: bool)
    ensures PublishedAt(ad, includeRefreshed).Some? <==> Dated(ad, includeRefreshed)
    ensures forall t :: PublishedAt(ad, includeRefreshed) == Some(t) <==> Dated(ad, includeRefreshed) && IsStamp(ad, includeRefreshed, t)
  {
  }

  /** The cutoff test is exact: it holds just when every possible publication time is before the cutoff. */
  lemma BeforeCutoffIsExact(ad: Ad, includeRefreshed: bool, cutoff: int)
    ensures BeforeCutoff(ad, includeRefreshed, cutoff) <==> CertainlyBefore(ad, includeRefreshed, cutoff)
  {
    PublishedAtIsExact(ad, includeRefreshed);
    var at := PublishedAt(ad, includeRefreshed);
    if !BeforeCutoff(ad, includeRefreshed, cutoff) {
      var latest := if at.None? then cutoff else if IsToTheMinute(ad) then at.value + 60 * 1000 - 1 else at.value;
      assert at.Some? ==> IsStamp(ad, includeRefreshed, at.value);
      assert MayBePublishedAt(ad, includeRefreshed, latest);
      assert !(latest < cutoff);
    }
  }
}
