/**
 * Recovery page evidence: a compact snapshot of every pageable feed of a page,
 * and the comparison that decides whether a reread page is unchanged.
 */
module OlxEvidence {
  import opened OlxTypes
  import opened Ordering

  const EVIDENCE_VERSION := "olx-offset-evidence-v2"
  const EVIDENCE_CHANNELS := {
    "OLX_PUBLIC_API", "OLX_REGIONAL_API", "OLX_PRIVATE_API",
    "OLX_PUBLIC_HTML", "OLX_REGIONAL_HTML", "OLX_HTML_FALLBACK"
  }

  /** One stored string: the version tag, or the serialised pair of a feed key and its sorted ids. */
  datatype Item = Tag(text: string) | Target(key: string, ids: seq<string>)

  /** The order of Array.sort on ids and of localeCompare on keys. */
  datatype Collation = Collation(ids: (string, string) -> bool, keys: (string, string) -> bool) {
    ghost predicate Valid() {
      TotalOrder(ids) && TotalOrder(keys)
    }
  }

  predicate Pageable(feed: FeedResult) {
    feed.Ads? && feed.channel in EVIDENCE_CHANNELS
  }

  function Key(target: string, channel: string): (key: string) {
    target + ";channel:" + channel
  }

  /** Keys of the pageable feeds, in feed order. */
  function PageableKeys(feeds: seq<FeedResult>): (keys: seq<string>) {
    if feeds == [] then []
    else
      var f := feeds[|feeds| - 1];
      PageableKeys(feeds[..|feeds| - 1]) + if Pageable(f) then [Key(f.target, f.channel)] else []
  }

  /** What each pageable feed holds, by key. */
  function Snapshot(feeds: seq<FeedResult>): (m: map<string, seq<string>>)
    ensures m.Keys == set k | k in PageableKeys(feeds)
  {
    if feeds == [] then map[]
    else
      var f := feeds[|feeds| - 1];
      var m := Snapshot(feeds[..|feeds| - 1]);
      if Pageable(f) then m[Key(f.target, f.channel) := Ids(f.ads)] else m
  }

  /** Every pageable feed has a key of its own and only identified adverts. */
  predicate Usable(feeds: seq<FeedResult>) {
    && Distinct(PageableKeys(feeds))
    && forall f :: f in feeds && Pageable(f) ==> "" !in Ids(f.ads)
  }

  function SortedIds(c: Collation, m: map<string, seq<string>>): (r: map<string, seq<string>>) {
    map k | k in m :: Sort(c.ids, m[k])
  }

  function Entries(keys: seq<string>, m: map<string, seq<string>>): (items: seq<Item>)
    requires forall k :: k in keys ==> k in m
  {
    seq(|keys|, i requires 0 <= i < |keys| => Target(keys[i], m[keys[i]]))
  }

  function EvidenceOf(c: Collation, feeds: seq<FeedResult>): (evidence: seq<Item>) {
    if Usable(feeds) then
      var keys := Sort(c.keys, PageableKeys(feeds));
      SameMembers(keys, PageableKeys(feeds));
      [Tag(EVIDENCE_VERSION)] + Entries(keys, SortedIds(c, Snapshot(feeds)))
    else []
  }

  predicate Matches(expected: seq<Item>, actual: seq<Item>) {
    && |expected| > 1
    && expected[0] == Tag(EVIDENCE_VERSION)
    && |expected| == |actual|
    && forall i :: 0 <= i < |expected| ==> expected[i] == actual[i]
  }

  /** Membership of a page: for each pageable feed key, how often each advert id occurs. */
  ghost function Membership(feeds: seq<FeedResult>): (m: map<string, multiset<string>>) {
    Bags(Snapshot(feeds))
  }

  ghost function Bags(s: map<string, seq<string>>): (m: map<string, multiset<string>>) {
    map k | k in s :: multiset(s[k])
  }

  /** olxRecoveryPageEvidence: fills a keyed map feed by feed and gives up on the first ambiguity. */
  method PageEvidence(c: Collation, feeds: seq<FeedResult>) returns (evidence: seq<Item>)
    ensures evidence == EvidenceOf(c, feeds)
  {
    var targets: map<string, seq<string>> := map[];
    var order: seq<string> := [];
    assert feeds[..0] == [];
    for i := 0 to |feeds|
      invariant Usable(feeds[..i])
      invariant order == PageableKeys(feeds[..i])
      invariant targets == SortedIds(c, Snapshot(feeds[..i]))
    {
      var feed := feeds[i];
      UsableStep(feeds, i);
      PrefixStep(feeds, i);
      if Pageable(feed) {
        var key := Key(feed.target, feed.channel);
        if key in targets || "" in Ids(feed.ads) {
          UsablePrefix(feeds, i + 1);
          return [];
        }
        SortedIdsUpdate(c, Snapshot(feeds[..i]), key, Ids(feed.ads));
        targets := targets[key := Sort(c.ids, Ids(feed.ads))];
        order := order + [key];
      }
    }
    assert feeds[..|feeds|] == feeds;
    var keys := Sort(c.keys, order);
    SameMembers(keys, order);
    evidence := [Tag(EVIDENCE_VERSION)]
      + Entries(keys, targets);
  }

  lemma SortedIdsUpdate(c: Collation, m: map<string, seq<string>>, key: string, ids: seq<string>)
    ensures SortedIds(c, m[key := ids]) == SortedIds(c, m)[key := Sort(c.ids, ids)]
  {
  }

  lemma PrefixStep(feeds: seq<FeedResult>, i: nat)
    requires i < |feeds|
    ensures PageableKeys(feeds[..i + 1])
            == PageableKeys(feeds[..i]) + if Pageable(feeds[i]) then [Key(feeds[i].target, feeds[i].channel)] else []
    ensures Snapshot(feeds[..i + 1])
            == if Pageable(feeds[i]) then Snapshot(feeds[..i])[Key(feeds[i].target, feeds[i].channel) := Ids(feeds[i].ads)]
               else Snapshot(feeds[..i])
  {
    assert feeds[..i + 1][..i] == feeds[..i];
  }

  lemma UsableStep(feeds: seq<FeedResult>, i: nat)
    requires i < |feeds|
    ensures Usable(feeds[..i + 1])
            <==> Usable(feeds[..i])
                 && (Pageable(feeds[i]) ==> Key(feeds[i].target, feeds[i].channel) !in PageableKeys(feeds[..i])
                                            && "" !in Ids(feeds[i].ads))
  {
    PrefixStep(feeds, i);
    var f := feeds[i];
    var shorter, longer := PageableKeys(feeds[..i]), PageableKeys(feeds[..i + 1]);
    assert forall g :: g in feeds[..i + 1] <==> g in feeds[..i] || g == f;
    if Distinct(longer) {
      assert forall j :: 0 <= j < |shorter| ==> shorter[j] == longer[j];
      assert Pageable(f) ==> forall j :: 0 <= j < |shorter| ==> longer[j] != longer[|shorter|];
    }
  }

  lemma {:induction false} UsablePrefix(feeds: seq<FeedResult>, n: nat)
    requires n <= |feeds|
    ensures Usable(feeds) ==> Usable(feeds[..n])
    decreases |feeds| - n
  {
    if n == |feeds| {
      assert feeds[..n] == feeds;
    } else {
      UsablePrefix(feeds, n + 1);
      UsableStep(feeds, n);
    }
  }

  /** In a usable page the snapshot gives, under each feed's key, exactly that feed's ids. */
  lemma {:induction false} SnapshotOfFeed(feeds: seq<FeedResult>, f: FeedResult)
    requires Usable(feeds) && f in feeds && Pageable(f)
    ensures Key(f.target, f.channel) in Snapshot(feeds)
    ensures Snapshot(feeds)[Key(f.target, f.channel)] == Ids(f.ads)
  {
    var n := |feeds| - 1;
    assert feeds[..n + 1] == feeds;
    UsableStep(feeds, n);
    PrefixStep(feeds, n);
    if f in feeds[..n] {
      SnapshotOfFeed(feeds[..n], f);
    }
  }

  lemma LastColon(target: string, channel: string)
    requires ':' !in channel
    ensures Key(target, channel)[|target| + 8] == ':'
    ensures forall i :: |target| + 8 < i < |Key(target, channel)| ==> Key(target, channel)[i] != ':'
    ensures Key(target, channel)[..|target|] == target
    ensures Key(target, channel)[|target| + 9..] == channel
  {
    forall i | |target| + 8 < i < |Key(target, channel)| ensures Key(target, channel)[i] != ':' {
      assert Key(target, channel)[i] == channel[i - |target| - 9];
    }
  }

  /** Feed keys never collide: a key determines the target and the channel it was built from. */
  lemma KeyIsInjective(t1: string, c1: string, t2: string, c2: string)
    requires c1 in EVIDENCE_CHANNELS && c2 in EVIDENCE_CHANNELS
    ensures Key(t1, c1) == Key(t2, c2) <==> t1 == t2 && c1 == c2
  {
    assert forall c :: c in EVIDENCE_CHANNELS ==> ':' !in c;
    LastColon(t1, c1);
    LastColon(t2, c2);
  }

  /**
   * Evidence is a canonical form: two page reads match exactly when both are
   * unambiguous, there is a pageable feed, and the same feeds hold the same
   * adverts the same number of times.
   */
  lemma EvidenceIsCanonical(c: Collation, a: seq<FeedResult>, b: seq<FeedResult>)
    requires c.Valid()
    ensures Matches(EvidenceOf(c, a), EvidenceOf(c, b))
            <==> Usable(a) && Usable(b) && PageableKeys(a) != [] && Membership(a) == Membership(b)
  {
    if Usable(a) && Usable(b) {
      hide *;
      var ka, kb := Sort(c.keys, PageableKeys(a)), Sort(c.keys, PageableKeys(b));
      var sa, sb := SortedIds(c, Snapshot(a)), SortedIds(c, Snapshot(b));
      WholeIs(c, a);
      WholeIs(c, b);
      EntriesAreInjective(ka, sa, kb, sb);
      SameKeys(c, a, b);
      SameIds(c, Snapshot(a), Snapshot(b));
      MatchesIsEquality(Entries(ka, sa), Entries(kb, sb));
      EntriesCount(ka, sa);
      MembershipIs(a, b);
    } else {
      hide Snapshot, PageableKeys, Usable, Sort;
    }
  }

  lemma MembershipIs(a: seq<FeedResult>, b: seq<FeedResult>)
    ensures Membership(a) == Membership(b) <==> Bags(Snapshot(a)) == Bags(Snapshot(b))
    ensures Membership(a) == Membership(b) ==> Snapshot(a).Keys == Snapshot(b).Keys
  {
    hide Snapshot;
    assert Bags(Snapshot(a)).Keys == Snapshot(a).Keys && Bags(Snapshot(b)).Keys == Snapshot(b).Keys;
  }

  lemma MatchesIsEquality(x: seq<Item>, y: seq<Item>)
    ensures Matches([Tag(EVIDENCE_VERSION)] + x, [Tag(EVIDENCE_VERSION)] + y) <==> x != [] && x == y
  {
    var ex, ey := [Tag(EVIDENCE_VERSION)] + x, [Tag(EVIDENCE_VERSION)] + y;
    assert x == ex[1..] && y == ey[1..];
    if Matches(ex, ey) {
      assert ex == ey;
    }
  }

  /** The entry list determines, and is determined by, the key list and each key's ids. */
  lemma EntriesAreInjective(ka: seq<string>, ma: map<string, seq<string>>, kb: seq<string>, mb: map<string, seq<string>>)
    requires forall k :: k in ka <==> k in ma
    requires forall k :: k in kb <==> k in mb
    ensures Entries(ka, ma) == Entries(kb, mb) <==> ka == kb && ma == mb
  {
    var ea, eb := Entries(ka, ma), Entries(kb, mb);
    if ea == eb {
      forall i | 0 <= i < |ka| ensures ka[i] == kb[i] && ma[ka[i]] == mb[ka[i]] {
        assert ea[i] == eb[i];
      }
      assert ka == kb;
      forall k | k in ma ensures k in mb && ma[k] == mb[k] {
        var i :| 0 <= i < |ka| && ka[i] == k;
      }
    }
  }

  lemma SameKeys(c: Collation, a: seq<FeedResult>, b: seq<FeedResult>)
    requires c.Valid() && Usable(a) && Usable(b)
    ensures Sort(c.keys, PageableKeys(a)) == Sort(c.keys, PageableKeys(b)) <==> Snapshot(a).Keys == Snapshot(b).Keys
  {
    SortIsCanonical(c.keys, PageableKeys(a), PageableKeys(b));
    DistinctMultiset(PageableKeys(a));
    DistinctMultiset(PageableKeys(b));
    if multiset(PageableKeys(a)) == multiset(PageableKeys(b)) {
      SameMembers(PageableKeys(a), PageableKeys(b));
    }
  }

  lemma SameIds(c: Collation, a: map<string, seq<string>>, b: map<string, seq<string>>)
    requires c.Valid()
    ensures SortedIds(c, a) == SortedIds(c, b) <==> Bags(a) == Bags(b)
  {
    forall k | k in a && k in b ensures SortedIds(c, a)[k] == SortedIds(c, b)[k] <==> Bags(a)[k] == Bags(b)[k] {
      SortIsCanonical(c.ids, a[k], b[k]);
    }
    AgreesByKey(SortedIds(c, a), SortedIds(c, b), Bags(a), Bags(b));
  }

  lemma AgreesByKey<X, Y>(a: map<string, X>, b: map<string, X>, p: map<string, Y>, q: map<string, Y>)
    requires a.Keys == p.Keys && b.Keys == q.Keys
    requires forall k :: k in a && k in b ==> (a[k] == b[k] <==> p[k] == q[k])
    ensures a == b <==> p == q
  {
    if p == q {
      assert forall k :: k in a ==> k in p;
      assert a == b;
    }
    if a == b {
      assert p == q;
    }
  }

  /** The first keys of a page in collation order. */
  function FirstKeys(c: Collation, feeds: seq<FeedResult>, m: nat): (keys: seq<string>)
    ensures forall k :: k in keys ==> k in Snapshot(feeds)
  {
    var keys := Sort(c.keys, PageableKeys(feeds));
    SameMembers(keys, PageableKeys(feeds));
    if m < |keys| then keys[..m] else keys
  }

  /** Membership of the first keys alone. */
  ghost function FirstMembership(c: Collation, feeds: seq<FeedResult>, m: nat): (r: map<string, multiset<string>>) {
    Bags(FirstSnapshot(c, feeds, m))
  }

  function FirstSnapshot(c: Collation, feeds: seq<FeedResult>, m: nat): (r: map<string, seq<string>>) {
    map k | k in FirstKeys(c, feeds, m) :: Snapshot(feeds)[k]
  }

  /** Evidence cut to m targets. */
  function CutEvidence(c: Collation, feeds: seq<FeedResult>, m: nat): (evidence: seq<Item>) {
    var e := EvidenceOf(c, feeds);
    if |e| <= m + 1 then e else e[..m + 1]
  }

  lemma CutIs(c: Collation, feeds: seq<FeedResult>, m: nat)
    requires Usable(feeds)
    ensures forall k :: k in FirstKeys(c, feeds, m) <==> k in SortedIds(c, FirstSnapshot(c, feeds, m))
    ensures CutEvidence(c, feeds, m) == [Tag(EVIDENCE_VERSION)] + Entries(FirstKeys(c, feeds, m), SortedIds(c, FirstSnapshot(c, feeds, m)))
  {
    hide Sort, Snapshot, PageableKeys;
    var keys := Sort(c.keys, PageableKeys(feeds));
    SameMembers(keys, PageableKeys(feeds));
  }

  lemma WholeIs(c: Collation, feeds: seq<FeedResult>)
    requires Usable(feeds)
    ensures var keys := Sort(c.keys, PageableKeys(feeds));
            && |keys| == |PageableKeys(feeds)|
            && (forall k :: k in keys <==> k in SortedIds(c, Snapshot(feeds)))
            && EvidenceOf(c, feeds) == [Tag(EVIDENCE_VERSION)] + Entries(keys, SortedIds(c, Snapshot(feeds)))
  {
    hide Sort, Snapshot, PageableKeys;
    SameMembers(Sort(c.keys, PageableKeys(feeds)), PageableKeys(feeds));
  }

  /** Prefixes of a sorted key list are determined by their members. */
  lemma FirstKeysAgree(c: Collation, a: seq<FeedResult>, m: nat, b: seq<FeedResult>)
    requires c.Valid() && Usable(a) && Usable(b)
    ensures FirstKeys(c, a, m) == Sort(c.keys, PageableKeys(b)) <==> FirstSnapshot(c, a, m).Keys == Snapshot(b).Keys
  {
    hide *;
    var first, other := FirstKeys(c, a, m), Sort(c.keys, PageableKeys(b));
    FirstKeysAre(c, a, m);
    SortedKeysAre(c, b);
    if FirstSnapshot(c, a, m).Keys == Snapshot(b).Keys {
      DistinctMultiset(first);
      DistinctMultiset(other);
      SortedIsCanonical(c.keys, first, other);
    }
  }

  lemma SortedKeysAre(c: Collation, feeds: seq<FeedResult>)
    requires c.Valid() && Usable(feeds)
    ensures var keys := Sort(c.keys, PageableKeys(feeds));
            TotalOrder(c.keys) && Distinct(keys) && Sorted(c.keys, keys) && Snapshot(feeds).Keys == set k | k in keys
  {
    var p, keys := PageableKeys(feeds), Sort(c.keys, PageableKeys(feeds));
    SortIsSorted(c.keys, p);
    SameMembers(keys, p);
    DistinctMultiset(p);
    hide Sort, PageableKeys;
    assert (set k | k in keys) == (set k | k in p);
    OncePerElement(keys);
  }

  lemma FirstKeysAre(c: Collation, feeds: seq<FeedResult>, m: nat)
    requires c.Valid() && Usable(feeds)
    ensures var keys := FirstKeys(c, feeds, m);
            Distinct(keys) && Sorted(c.keys, keys) && FirstSnapshot(c, feeds, m).Keys == set k | k in keys
  {
    SortedKeysAre(c, feeds);
    hide Sort, Snapshot, PageableKeys, Usable;
  }

  /**
   * Cut evidence matches a reread page exactly when the latter consists of the
   * first m feeds of the former, each with the same adverts the same number of times.
   */
  lemma CutEvidenceMatches(c: Collation, a: seq<FeedResult>, m: nat, b: seq<FeedResult>)
    requires c.Valid() && m > 0
    ensures Matches(CutEvidence(c, a, m), EvidenceOf(c, b))
            <==> Usable(a) && Usable(b) && PageableKeys(a) != [] && FirstMembership(c, a, m) == Membership(b)
  {
    if Usable(a) && Usable(b) {
      CutIs(c, a, m);
      WholeIs(c, a);
      WholeIs(c, b);
      FirstKeysAgree(c, a, m, b);
      FirstKeysCount(c, a, m);
      hide Sort, Snapshot, PageableKeys, Usable, Entries, SortedIds, Matches, FirstKeys, FirstSnapshot, CutEvidence, EvidenceOf;
      var ka, kb := FirstKeys(c, a, m), Sort(c.keys, PageableKeys(b));
      var sa, sb := SortedIds(c, FirstSnapshot(c, a, m)), SortedIds(c, Snapshot(b));
      EntriesAreInjective(ka, sa, kb, sb);
      SameIds(c, FirstSnapshot(c, a, m), Snapshot(b));
      MatchesIsEquality(Entries(ka, sa), Entries(kb, sb));
      EntriesCount(ka, sa);
    } else {
      hide Snapshot, PageableKeys, Usable, Sort;
    }
  }

  lemma FirstKeysCount(c: Collation, feeds: seq<FeedResult>, m: nat)
    requires m > 0
    ensures FirstKeys(c, feeds, m) == [] <==> PageableKeys(feeds) == []
  {
    hide Sort, Snapshot, PageableKeys;
    SameMembers(Sort(c.keys, PageableKeys(feeds)), PageableKeys(feeds));
  }

  lemma EntriesCount(keys: seq<string>, m: map<string, seq<string>>)
    requires forall k :: k in keys ==> k in m
    ensures |Entries(keys, m)| == |keys|
  {
  }

  /** The feeds and the tag that evidence goes by. */
  lemma EvidenceIsTagged(c: Collation, feeds: seq<FeedResult>)
    ensures forall f :: Pageable(f) <==> f.Ads? && f.channel in {
              "OLX_PUBLIC_API", "OLX_REGIONAL_API", "OLX_PRIVATE_API", "OLX_PUBLIC_HTML", "OLX_REGIONAL_HTML", "OLX_HTML_FALLBACK"
            }
    ensures EvidenceOf(c, feeds) != [] ==> EvidenceOf(c, feeds)[0] == Tag("olx-offset-evidence-v2")
    ensures EvidenceOf(c, feeds) != [] <==> Usable(feeds)
  {
    hide Usable, Sort, PageableKeys, Snapshot, SortedIds;
  }

  /** Stored entries are pairwise different, so keeping them in an insertion-ordered set loses nothing. */
  lemma EvidenceHasNoRepeats(c: Collation, feeds: seq<FeedResult>)
    ensures Distinct(EvidenceOf(c, feeds))
  {
    if Usable(feeds) {
      var p := PageableKeys(feeds);
      SameMembers(Sort(c.keys, p), p);
      DistinctMultiset(p);
      OncePerElement(Sort(c.keys, p));
      EntriesAreDistinct(Sort(c.keys, p), SortedIds(c, Snapshot(feeds)));
      hide Sort, PageableKeys, Snapshot, SortedIds, Entries;
    }
  }

  lemma EntriesAreDistinct(keys: seq<string>, m: map<string, seq<string>>)
    requires Distinct(keys) && forall k :: k in keys ==> k in m
    ensures Distinct([Tag(EVIDENCE_VERSION)] + Entries(keys, m))
  {
    var items := [Tag(EVIDENCE_VERSION)] + Entries(keys, m);
    forall i, j | 0 <= i < j < |items| ensures items[i] != items[j] {
      assert items[j] == Target(keys[j - 1], m[keys[j - 1]]);
      if i > 0 {
        assert items[i] == Target(keys[i - 1], m[keys[i - 1]]);
      }
    }
  }

  lemma OncePerElement(s: seq<string>)
    requires multiset(s) == multiset(set x | x in s)
    ensures Distinct(s)
  {
    forall i, j | 0 <= i < j < |s| ensures s[i] != s[j] {
      assert s == s[..i] + [s[i]] + s[i + 1..j] + [s[j]] + s[j + 1..];
      assert multiset(s)[s[i]] <= 1;
    }
  }
}
