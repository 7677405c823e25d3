/**
 * AUTO.RIA public catch-up: a resumable round robin over several paged feeds.
 * A feed read in an earlier call is first reread one page back; only if that
 * page still holds the saved ids may the call go deeper.
 */
module PublicCatchup {
  import opened Maybe

  const RECOVERY_DEPTH := 50

  // ----- the durable cursor and its validation

  datatype Json =
    | JNull
    | JBool(b: bool)
    | JNum(n: real)
    | JStr(s: string)
    | JArr(items: seq<Json>)
    | JObj(fields: map<string, Json>)

  datatype Feed = Feed(url: string, nextPage: nat, overlapIds: seq<string>, done: bool, reason: Option<string>)

  datatype Cursor = Cursor(feedIndex: nat, feeds: seq<Feed>)

  /** Reading a property of a null feed throws. */
  datatype Restored = Restored(cursor: Cursor) | Crash

  datatype Check = Yes | No | Throws

  function Field(j: Json, name: string): (v: Json) {
    if j.JObj? && name in j.fields then j.fields[name] else JNull
  }

  predicate IntegerIn(j: Json, low: int, high: int) {
    j.JNum? && j.n == j.n.Floor as real && low <= j.n.Floor <= high
  }

  predicate AllStrings(items: seq<Json>) {
    forall x :: x in items ==> x.JStr?
  }

  function CheckFeed(j: Json, url: string): (c: Check) {
    if j.JNull? then Throws
    else if Field(j, "url") == JStr(url)
      && IntegerIn(Field(j, "nextPage"), 0, RECOVERY_DEPTH)
      && Field(j, "overlapIds").JArr? && AllStrings(Field(j, "overlapIds").items)
      && Field(j, "done").JBool? then Yes
    else No
  }

  function CheckFeeds(items: seq<Json>, urls: seq<string>): (c: Check)
    requires |items| == |urls|
  {
    if items == [] then Yes
    else
      var c := CheckFeed(items[0], urls[0]);
      if c == Yes then CheckFeeds(items[1..], urls[1..]) else c
  }

  function Strings(items: seq<Json>): (s: seq<string>)
    requires AllStrings(items)
  {
    seq(|items|, i requires 0 <= i < |items| => items[i].s)
  }

  function ReadFeed(j: Json, url: string): (f: Feed)
    requires CheckFeed(j, url) == Yes
  {
    Feed(url, Field(j, "nextPage").n.Floor, Strings(Field(j, "overlapIds").items), Field(j, "done").b,
      if Field(j, "reason").JStr? then Some(Field(j, "reason").s) else None)
  }

  function ReadFeeds(items: seq<Json>, urls: seq<string>): (feeds: seq<Feed>)
    requires |items| == |urls| && CheckFeeds(items, urls) == Yes
  {
    if items == [] then [] else [ReadFeed(items[0], urls[0])] + ReadFeeds(items[1..], urls[1..])
  }

  function FreshCursor(urls: seq<string>): (c: Cursor) {
    Cursor(0, seq(|urls|, i requires 0 <= i < |urls| => Feed(urls[i], 0, [], false, None)))
  }

  /** publicRecoveryCursor: resume a stored cursor only if it fits the configured feeds. */
  function Restore(value: Json, urls: seq<string>): (r: Restored) {
    var feeds := Field(value, "feeds");
    if Field(value, "version") == JNum(1.0) && feeds.JArr? && |feeds.items| == |urls| then
      match CheckFeeds(feeds.items, urls)
      case Throws => Crash
      case No => Restored(FreshCursor(urls))
      case Yes =>
        if IntegerIn(Field(value, "feedIndex"), 0, |urls| - 1)
        then Restored(Cursor(Field(value, "feedIndex").n.Floor, ReadFeeds(feeds.items, urls)))
        else Restored(FreshCursor(urls))
    else Restored(FreshCursor(urls))
  }

  function StoreStrings(s: seq<string>): (items: seq<Json>) {
    seq(|s|, i requires 0 <= i < |s| => JStr(s[i]))
  }

  function StoreFeed(f: Feed): (j: Json) {
    var fields := map["url" := JStr(f.url), "nextPage" := JNum(f.nextPage as real),
      "overlapIds" := JArr(StoreStrings(f.overlapIds)), "done" := JBool(f.done)];
    JObj(if f.reason.Some? then fields["reason" := JStr(f.reason.value)] else fields)
  }

  function Store(c: Cursor): (j: Json) {
    JObj(map["version" := JNum(1.0), "feedIndex" := JNum(c.feedIndex as real),
      "feeds" := JArr(seq(|c.feeds|, i requires 0 <= i < |c.feeds| => StoreFeed(c.feeds[i])))])
  }

  predicate Fits(c: Cursor, urls: seq<string>) {
    && |c.feeds| == |urls| && c.feedIndex < |urls|
    && forall i :: 0 <= i < |urls| ==> c.feeds[i].url == urls[i] && c.feeds[i].nextPage <= RECOVERY_DEPTH
  }

  lemma StoredFeedReadsBack(f: Feed)
    requires f.nextPage <= RECOVERY_DEPTH
    ensures CheckFeed(StoreFeed(f), f.url) == Yes && ReadFeed(StoreFeed(f), f.url) == f
  {
    var j := StoreFeed(f);
    assert (f.nextPage as real).Floor == f.nextPage;
    assert AllStrings(StoreStrings(f.overlapIds));
    assert Strings(StoreStrings(f.overlapIds)) == f.overlapIds;
  }

  lemma {:induction false} StoredFeedsReadBack(feeds: seq<Feed>, urls: seq<string>, items: seq<Json>)
    requires |feeds| == |urls| == |items|
    requires forall i :: 0 <= i < |urls| ==> items[i] == StoreFeed(feeds[i])
    requires forall i :: 0 <= i < |urls| ==> feeds[i].url == urls[i] && feeds[i].nextPage <= RECOVERY_DEPTH
    ensures CheckFeeds(items, urls) == Yes && ReadFeeds(items, urls) == feeds
  {
    hide StoreFeed, CheckFeed, ReadFeed;
    if feeds != [] {
      StoredFeedReadsBack(feeds[0]);
      StoredFeedsReadBack(feeds[1..], urls[1..], items[1..]);
    }
  }

  /** A stored cursor that fits the configured feeds is restored unchanged. */
  lemma StoredCursorIsRestored(c: Cursor, urls: seq<string>)
    requires Fits(c, urls)
    ensures Restore(Store(c), urls) == Restored(c)
  {
    hide StoreFeed;
    StoredFeedsReadBack(c.feeds, urls, Field(Store(c), "feeds").items);
    assert (c.feedIndex as real).Floor == c.feedIndex;
  }

  // ----- what is accepted, stated over the stored value

  ghost predicate IsInteger(j: Json, n: int) {
    j == JNum(n as real)
  }

  /** A stored feed fits its url. */
  ghost predicate FitsUrl(j: Json, url: string) {
    && j.JObj?
    && "url" in j.fields && j.fields["url"] == JStr(url)
    && "nextPage" in j.fields && (exists n :: 0 <= n <= 50 && IsInteger(j.fields["nextPage"], n))
    && "overlapIds" in j.fields && j.fields["overlapIds"].JArr?
    && (forall k :: 0 <= k < |j.fields["overlapIds"].items| ==> j.fields["overlapIds"].items[k].JStr?)
    && "done" in j.fields && j.fields["done"].JBool?
  }

  /** The value is a cursor of version 1 with as many feeds as there are urls. */
  ghost predicate HasFeeds(value: Json, urls: seq<string>) {
    && value.JObj? && "version" in value.fields && value.fields["version"] == JNum(1.0)
    && "feeds" in value.fields && value.fields["feeds"].JArr? && |value.fields["feeds"].items| == |urls|
  }

  lemma FeedCheckMeans(j: Json, url: string)
    ensures CheckFeed(j, url) == Throws <==> j == JNull
    ensures CheckFeed(j, url) == Yes <==> FitsUrl(j, url)
    ensures CheckFeed(j, url) == Yes ==>
              var f := ReadFeed(j, url);
              && f.url == url && IsInteger(j.fields["nextPage"], f.nextPage) && j.fields["done"] == JBool(f.done)
              && |f.overlapIds| == |j.fields["overlapIds"].items|
              && (forall k :: 0 <= k < |f.overlapIds| ==> j.fields["overlapIds"].items[k] == JStr(f.overlapIds[k]))
              && (forall r :: f.reason == Some(r) <==> "reason" in j.fields && j.fields["reason"] == JStr(r))
  {
    var page := Field(j, "nextPage");
    if page.JNum? {
      assert IsInteger(page, page.n.Floor) <==> page.n == page.n.Floor as real;
    }
    if j.JObj? && "nextPage" in j.fields {
      forall n | IsInteger(j.fields["nextPage"], n) ensures j.fields["nextPage"].n.Floor == n {
        assert (n as real).Floor == n;
      }
    }
    assert Field(j, "overlapIds").JArr? ==>
      (AllStrings(Field(j, "overlapIds").items) <==> forall k :: 0 <= k < |Field(j, "overlapIds").items| ==> Field(j, "overlapIds").items[k].JStr?);
  }

  lemma {:induction false} FeedsCheckMeans(items: seq<Json>, urls: seq<string>)
    requires |items| == |urls|
    ensures CheckFeeds(items, urls) == Yes <==> forall k :: 0 <= k < |urls| ==> FitsUrl(items[k], urls[k])
    ensures CheckFeeds(items, urls) == Throws <==> NullFirst(items, urls)
    ensures CheckFeeds(items, urls) == Yes ==>
              |ReadFeeds(items, urls)| == |urls| && forall k :: 0 <= k < |urls| ==> CheckFeed(items[k], urls[k]) == Yes && ReadFeeds(items, urls)[k] == ReadFeed(items[k], urls[k])
  {
    if items != [] {
      FeedCheckMeans(items[0], urls[0]);
      FeedsCheckMeans(items[1..], urls[1..]);
      hide CheckFeed, FitsUrl, ReadFeed;
      FirstNull(items, urls);
      assert items == [items[0]] + items[1..] && urls == [urls[0]] + urls[1..];
    }
  }

  /** The first feed that does not fit is null. */
  ghost predicate NullFirst(items: seq<Json>, urls: seq<string>)
    requires |items| == |urls|
  {
    exists k :: NullAt(items, urls, k)
  }

  ghost predicate NullAt(items: seq<Json>, urls: seq<string>, k: int)
    requires |items| == |urls|
  {
    0 <= k < |urls| && items[k] == JNull && forall j :: 0 <= j < k ==> FitsUrl(items[j], urls[j])
  }

  lemma FirstNull(items: seq<Json>, urls: seq<string>)
    requires |items| == |urls| && items != []
    ensures NullFirst(items, urls) <==> items[0] == JNull || (FitsUrl(items[0], urls[0]) && NullFirst(items[1..], urls[1..]))
  {
    NullDoesNotFit(urls[0]);
    hide FitsUrl;
    if k :| NullAt(items, urls, k) {
      if k > 0 {
        forall j | 0 <= j < k - 1 ensures FitsUrl(items[1..][j], urls[1..][j]) {
          assert FitsUrl(items[j + 1], urls[j + 1]);
        }
        assert NullAt(items[1..], urls[1..], k - 1);
      }
    }
    if items[0] == JNull {
      assert NullAt(items, urls, 0);
    } else if FitsUrl(items[0], urls[0]) && NullFirst(items[1..], urls[1..]) {
      var k :| NullAt(items[1..], urls[1..], k);
      forall j | 0 <= j < k + 1 ensures FitsUrl(items[j], urls[j]) {
        if j > 0 {
          assert FitsUrl(items[1..][j - 1], urls[1..][j - 1]);
        }
      }
      assert NullAt(items, urls, k + 1);
    }
  }

  lemma NullDoesNotFit(url: string)
    ensures !FitsUrl(JNull, url)
  {
  }

  /**
   * Restoring a cursor, for every stored value: it throws exactly when a feed is
   * null and all before it fit; it resumes the value exactly when every feed fits its url and the
   * index names one of them; and it starts afresh otherwise.
   */
  lemma RestoreExactly(value: Json, urls: seq<string>)
    ensures var items := if HasFeeds(value, urls) then value.fields["feeds"].items else [];
            var fits := HasFeeds(value, urls) && forall k :: 0 <= k < |urls| ==> FitsUrl(items[k], urls[k]);
            var r := Restore(value, urls);
            && (r == Crash <==> HasFeeds(value, urls) && NullFirst(items, urls))
            && (fits && IndexIn(value, |urls|) ==>
                  && r.Restored? && IsInteger(value.fields["feedIndex"], r.cursor.feedIndex) && |r.cursor.feeds| == |urls|
                  && forall k :: 0 <= k < |urls| ==> CheckFeed(items[k], urls[k]) == Yes && r.cursor.feeds[k] == ReadFeed(items[k], urls[k]))
            && (r != Crash && !(fits && IndexIn(value, |urls|)) ==> r == Restored(FreshCursor(urls)))
  {
    if HasFeeds(value, urls) {
      FeedsCheckMeans(value.fields["feeds"].items, urls);
    }
    IndexMeans(value, |urls|);
    hide CheckFeed, FitsUrl, CheckFeeds, ReadFeeds, ReadFeed, IntegerIn, NullFirst;
  }

  ghost predicate IndexIn(value: Json, n: nat) {
    value.JObj? && "feedIndex" in value.fields && exists i :: 0 <= i < n && IsInteger(value.fields["feedIndex"], i)
  }

  lemma IndexMeans(value: Json, n: nat)
    ensures IntegerIn(Field(value, "feedIndex"), 0, n - 1) <==> IndexIn(value, n)
    ensures IndexIn(value, n) ==> IsInteger(value.fields["feedIndex"], Field(value, "feedIndex").n.Floor)
  {
    var j := Field(value, "feedIndex");
    if j.JNum? {
      assert IsInteger(j, j.n.Floor) <==> j.n == j.n.Floor as real;
    }
    forall i | IsInteger(j, i) ensures j.n.Floor == i {
      assert (i as real).Floor == i;
    }
  }

  // ----- one call

  datatype PageResult = PageResult(ids: seq<string>, complete: bool, blocked: bool)

  /** A request made by a call: which page, why, which ids were saved and which anchored at that moment, and the answer. */
  datatype Read = Read(feed: nat, page: nat, overlap: bool, saved: seq<string>, anchors: set<string>, result: PageResult)

  /**
   * `ingest` answers the k-th request of the call for a page of a feed;
   * `canContinue` is asked at every turn of the loop.
   */
  datatype Input = Input(
    anchors: set<string>,
    maxRequests: int,
    canContinue: nat -> bool,
    ingest: (nat, nat, nat) -> PageResult
  )

  /**
   * The loop's variables. `log` is the request log of the call; `history`
   * keeps, per feed, the committed log since the feed last started at page 0.
   */
  datatype Call = Call(
    feeds: seq<Feed>,
    feedIndex: nat,
    validated: set<nat>,
    log: seq<Read>,
    turns: nat,
    progressed: nat,
    noProgress: Option<string>,
    stopped: bool,
    history: seq<seq<Read>>
  )

  const EMPTY_PAGE := "EMPTY_PUBLIC_PAGE_UNPROVEN"
  const REPEATED_PAGE := "REPEATED_PUBLIC_PAGE"
  const ANCHOR_OVERLAP := "ANCHOR_OVERLAP_UNPROVEN_ORDER"
  const DEPTH_BUDGET := "LOCAL_DEPTH_BUDGET"
  const PAGE_INCOMPLETE := "PUBLIC_PAGE_INCOMPLETE"
  const OVERLAP_MOVED := "PUBLIC_OVERLAP_MOVED"

  predicate Indexed(c: Call) {
    |c.feeds| == |c.history| && (c.feeds == [] || c.feedIndex < |c.feeds|)
  }

  predicate Unfinished(feeds: seq<Feed>) {
    exists i :: 0 <= i < |feeds| && !feeds[i].done
  }

  predicate Guard(input: Input, c: Call) {
    !c.stopped && |c.log| < input.maxRequests && input.canContinue(c.turns) && Unfinished(c.feeds)
  }

  function AnchorCount(ids: seq<string>, anchors: set<string>): (n: nat) {
    if ids == [] then 0 else (if ids[0] in anchors then 1 else 0) + AnchorCount(ids[1..], anchors)
  }

  predicate AllIn(ids: seq<string>, others: seq<string>) {
    forall id :: id in ids ==> id in others
  }

  predicate IsOverlap(c: Call)
    requires c.feeds != [] && Indexed(c)
  {
    c.feeds[c.feedIndex].nextPage > 0 && c.feedIndex !in c.validated
  }

  /** The request of the current turn. */
  function Request(input: Input, c: Call): (r: Read)
    requires c.feeds != [] && Indexed(c)
  {
    var feed := c.feeds[c.feedIndex];
    var page := if IsOverlap(c) then feed.nextPage - 1 else feed.nextPage;
    Read(c.feedIndex, page, IsOverlap(c), feed.overlapIds, input.anchors, input.ingest(|c.log|, c.feedIndex, page))
  }

  /** The feed after a page is committed. */
  function Advanced(anchors: set<string>, feed: Feed, page: nat, ids: seq<string>): (f: Feed) {
    var n := AnchorCount(ids, anchors);
    var next := feed.(nextPage := page + 1, overlapIds := ids);
    if n >= 3 && n >= (|ids| + 1) / 2 then next.(done := true, reason := Some(ANCHOR_OVERLAP))
    else if next.nextPage >= RECOVERY_DEPTH then next.(done := true, reason := Some(DEPTH_BUDGET))
    else next
  }

  function NextIndex(i: nat, n: nat): (j: nat)
    requires i < n
    ensures j == if i + 1 == n then 0 else i + 1
  {
    (i + 1) % n
  }

  /** One turn of the loop. */
  function Turn(input: Input, c: Call): (d: Call)
    requires c.feeds != [] && Indexed(c)
    ensures Indexed(d) && |d.feeds| == |c.feeds|
  {
    var index := c.feedIndex;
    var feed := c.feeds[index];
    var moved := c.(feedIndex := NextIndex(index, |c.feeds|), turns := c.turns + 1);
    if feed.done then moved
    else
      var r := Request(input, c);
      var ids := r.result.ids;
      var asked := moved.(log := c.log + [r]);
      if r.result.blocked then asked.(stopped := true)
      else if !r.result.complete then asked.(noProgress := Some(PAGE_INCOMPLETE), stopped := true)
      else if ids == [] then
        asked.(feeds := c.feeds[index := feed.(done := true, reason := Some(EMPTY_PAGE))], progressed := c.progressed + 1)
      else if r.overlap then
        if !AllIn(feed.overlapIds, ids) then
          asked.(feeds := c.feeds[index := feed.(nextPage := 0, overlapIds := [])], history := c.history[index := []],
            noProgress := Some(OVERLAP_MOVED), stopped := true)
        else asked.(validated := c.validated + {index}, feedIndex := index)
      else if feed.nextPage > 0 && |ids| == |feed.overlapIds| && AllIn(ids, feed.overlapIds) then
        asked.(feeds := c.feeds[index := feed.(done := true, reason := Some(REPEATED_PAGE))], progressed := c.progressed + 1)
      else
        asked.(feeds := c.feeds[index := Advanced(input.anchors, feed, r.page, ids)], validated := c.validated + {index},
          progressed := c.progressed + 1, history := c.history[index := c.history[index] + [r]])
  }

  /** The first unfinished feed; only meaningful while there is one. */
  function FirstUnfinished(feeds: seq<Feed>): (i: nat)
    ensures Unfinished(feeds) ==> i < |feeds| && !feeds[i].done
  {
    if feeds == [] then 0 else if !feeds[0].done then 0
    else
      assert Unfinished(feeds) ==> Unfinished(feeds[1..]) by {
        if i :| 0 <= i < |feeds| && !feeds[i].done {
          assert feeds[1..][i - 1] == feeds[i];
        }
      }
      1 + FirstUnfinished(feeds[1..])
  }

  /** Circular distance from the current feed to an unfinished one. */
  function Distance(c: Call): (d: nat)
    requires Indexed(c)
  {
    if !Unfinished(c.feeds) then 0
    else
      var target := FirstUnfinished(c.feeds);
      if target >= c.feedIndex then target - c.feedIndex else target - c.feedIndex + |c.feeds|
  }

  function RequestsLeft(input: Input, c: Call): (n: nat) {
    if input.maxRequests <= |c.log| then 0 else input.maxRequests - |c.log|
  }

  /** Each turn either spends a request or comes closer to an unfinished feed. */
  lemma TurnDescends(input: Input, c: Call)
    requires Indexed(c) && Guard(input, c)
    ensures var d := Turn(input, c);
            || RequestsLeft(input, d) < RequestsLeft(input, c)
            || (RequestsLeft(input, d) == RequestsLeft(input, c) && Distance(d) < Distance(c))
  {
    if c.feeds[c.feedIndex].done {
      hide Turn, NextIndex, FirstUnfinished;
      SkipTurn(input, c);
    } else {
      AskingTurn(input, c);
    }
  }

  lemma SkipTurn(input: Input, c: Call)
    requires c.feeds != [] && Indexed(c) && c.feeds[c.feedIndex].done
    ensures Turn(input, c) == c.(feedIndex := NextIndex(c.feedIndex, |c.feeds|), turns := c.turns + 1)
  {
  }

  lemma AskingTurn(input: Input, c: Call)
    requires c.feeds != [] && Indexed(c) && !c.feeds[c.feedIndex].done
    ensures Turn(input, c).log == c.log + [Request(input, c)]
    ensures Turn(input, c).turns == c.turns + 1
  {
    hide Advanced, Request, AllIn;
  }

  /** The loop, run to its end. */
  function Drive(input: Input, c: Call): (d: Call)
    requires Indexed(c)
    ensures Indexed(d) && |d.feeds| == |c.feeds|
    decreases RequestsLeft(input, c), Distance(c)
  {
    if Guard(input, c) then
      TurnDescends(input, c);
      Drive(input, Turn(input, c))
    else c
  }

  function Begin(cursor: Cursor, history: seq<seq<Read>>): (c: Call) {
    Call(cursor.feeds, cursor.feedIndex, {}, [], 0, 0, None, false, history)
  }

  datatype Outcome = Outcome(cursor: Cursor, progressed: nat, reason: Option<string>, noProgress: Option<string>) | Failed

  function Verdict(feeds: seq<Feed>): (reason: Option<string>) {
    if Unfinished(feeds) then None
    else if exists i :: 0 <= i < |feeds| && feeds[i].reason == Some(REPEATED_PAGE) then Some("UNSTABLE_PAGINATION")
    else Some("NON_PARTITIONABLE_RANGE")
  }

  function Report(d: Call): (o: Outcome) {
    Outcome(Cursor(d.feedIndex, d.feeds), d.progressed, Verdict(d.feeds), d.noProgress)
  }

  function NoHistory(feeds: seq<Feed>): (h: seq<seq<Read>>) {
    seq(|feeds|, i => [])
  }

  lemma {:induction false} RestoredIsIndexed(value: Json, urls: seq<string>)
    ensures Restore(value, urls).Restored? ==>
              var c := Restore(value, urls).cursor;
              |c.feeds| == |urls| && (urls != [] ==> c.feedIndex < |c.feeds|)
  {
    var feeds := Field(value, "feeds");
    if feeds.JArr? && |feeds.items| == |urls| && CheckFeeds(feeds.items, urls) == Yes {
      FeedsRead(feeds.items, urls);
    }
  }

  lemma {:induction false} FeedsRead(items: seq<Json>, urls: seq<string>)
    requires |items| == |urls| && CheckFeeds(items, urls) == Yes
    ensures |ReadFeeds(items, urls)| == |urls|
  {
    if items != [] {
      FeedsRead(items[1..], urls[1..]);
    }
  }

  /** The commit of a page, with the two ways it can finish the feed. */
  method AdvanceFeed(anchors: set<string>, feed: Feed, page: nat, ids: seq<string>) returns (next: Feed)
    ensures next == Advanced(anchors, feed, page, ids)
  {
    next := feed.(nextPage := page + 1, overlapIds := ids);
    var anchorCount := AnchorCount(ids, anchors);
    if anchorCount >= 3 && anchorCount >= (|ids| + 1) / 2 {
      next := next.(done := true, reason := Some(ANCHOR_OVERLAP));
    } else if next.nextPage >= RECOVERY_DEPTH {
      next := next.(done := true, reason := Some(DEPTH_BUDGET));
    }
  }

  /** collectPublicRecovery: the scheduler loop over a restored cursor. */
  method CollectPublicRecovery(urls: seq<string>, value: Json, input: Input) returns (o: Outcome)
    ensures Restore(value, urls).Crash? ==> o == Failed
    ensures Restore(value, urls).Restored? ==>
              var c := Restore(value, urls).cursor;
              && Indexed(Begin(c, NoHistory(c.feeds)))
              && o == Report(Drive(input, Begin(c, NoHistory(c.feeds))))
  {
    RestoredIsIndexed(value, urls);
    var restored := Restore(value, urls);
    if restored.Crash? {
      return Failed;
    }
    hide Restore, FirstUnfinished, Distance, Drive, AllIn, Advanced, Unfinished, Verdict, RequestsLeft, NoHistory;
    var feeds, feedIndex := restored.cursor.feeds, restored.cursor.feedIndex;
    var validated: set<nat> := {};
    var progressed, requests, turns := 0, 0, 0;
    var noProgress: Option<string> := None;
    ghost var c := Begin(restored.cursor, NoHistory(feeds));
    ghost var start := c;
    while requests < input.maxRequests && input.canContinue(turns) && Unfinished(feeds)
      invariant Indexed(c) && c.feeds == feeds && c.feedIndex == feedIndex && c.validated == validated
      invariant |c.log| == requests && c.turns == turns && c.progressed == progressed && c.noProgress == noProgress
      invariant !c.stopped
      invariant Drive(input, c) == Drive(input, start)
      decreases RequestsLeft(input, c), Distance(c)
    {
      TurnDescends(input, c);
      DriveStep(input, c);
      ghost var r := Request(input, c);
      c := Turn(input, c);
      var index := feedIndex;
      var feed := feeds[index];
      feedIndex := NextIndex(index, |feeds|);
      turns := turns + 1;
      if feed.done {
        continue;
      }
      var overlap := feed.nextPage > 0 && index !in validated;
      var page := if overlap then feed.nextPage - 1 else feed.nextPage;
      var result := input.ingest(requests, index, page);
      requests := requests + 1;
      assert r.overlap == overlap && r.page == page && r.result == result && r.saved == feed.overlapIds;
      if result.blocked {
        break;
      }
      if !result.complete {
        noProgress := Some(PAGE_INCOMPLETE);
        break;
      }
      if result.ids == [] {
        feeds := feeds[index := feed.(done := true, reason := Some(EMPTY_PAGE))];
        progressed := progressed + 1;
        continue;
      }
      if overlap {
        if !AllIn(feed.overlapIds, result.ids) {
          feeds := feeds[index := feed.(nextPage := 0, overlapIds := [])];
          noProgress := Some(OVERLAP_MOVED);
          break;
        }
        validated := validated + {index};
        feedIndex := index;
        continue;
      }
      if feed.nextPage > 0 && |result.ids| == |feed.overlapIds| && AllIn(result.ids, feed.overlapIds) {
        feeds := feeds[index := feed.(done := true, reason := Some(REPEATED_PAGE))];
        progressed := progressed + 1;
        continue;
      }
      validated := validated + {index};
      progressed := progressed + 1;
      var next := AdvanceFeed(input.anchors, feed, page, result.ids);
      feeds := feeds[index := next];
    }
    DriveStep(input, c);
    o := Outcome(Cursor(feedIndex, feeds), progressed, Verdict(feeds), noProgress);
  }

  lemma DriveStep(input: Input, c: Call)
    requires Indexed(c)
    ensures Guard(input, c) ==> Drive(input, c) == Drive(input, Turn(input, c))
    ensures !Guard(input, c) ==> Drive(input, c) == c
  {
    if Guard(input, c) {
      TurnDescends(input, c);
    }
  }

  // ----- which reads are rereads

  predicate ReadBefore(log: seq<Read>, k: nat, feed: nat)
    requires k <= |log|
  {
    exists j :: 0 <= j < k && log[j].feed == feed
  }

  /** A read goes one page back exactly when it is the first of its feed in the call and the feed was past page 0. */
  predicate RereadFits(start: seq<Feed>, r: Read, before: bool) {
    && r.feed < |start|
    && (r.overlap <==> !before && start[r.feed].nextPage > 0)
    && (!before ==>
          && r.page == (if r.overlap then start[r.feed].nextPage - 1 else start[r.feed].nextPage)
          && r.saved == start[r.feed].overlapIds)
  }

  ghost predicate RereadsFirst(start: seq<Feed>, log: seq<Read>) {
    forall k :: 0 <= k < |log| ==> RereadFits(start, log[k], ReadBefore(log, k, log[k].feed))
  }

  ghost predicate Tracked(start: seq<Feed>, c: Call) {
    && Indexed(c) && |start| == |c.feeds| && RereadsFirst(start, c.log)
    && (forall i :: 0 <= i < |start| && !ReadBefore(c.log, |c.log|, i) ==> c.feeds[i] == start[i] && i !in c.validated)
    && (!c.stopped ==> forall i :: 0 <= i < |start| && ReadBefore(c.log, |c.log|, i) && !c.feeds[i].done ==> i in c.validated)
  }

  lemma TurnTracks(input: Input, c: Call, start: seq<Feed>)
    requires c.feeds != [] && !c.stopped && Tracked(start, c)
    ensures Tracked(start, Turn(input, c))
  {
    var d, i := Turn(input, c), c.feedIndex;
    TouchesOnlyCurrent(input, c);
    TurnValidates(input, c);
    LogGrows(input, c);
    hide Turn, RereadsFirst, ReadBefore;
    if !c.feeds[i].done {
      var r := Request(input, c);
      forall feed ensures ReadBefore(d.log, |d.log|, feed) <==> ReadBefore(c.log, |c.log|, feed) || feed == i {
        ReadSnoc(c.log, r, feed);
      }
      RereadsSnoc(start, c.log, r);
    }
  }

  lemma ReadSnoc(log: seq<Read>, r: Read, feed: nat)
    ensures ReadBefore(log + [r], |log| + 1, feed) <==> ReadBefore(log, |log|, feed) || feed == r.feed
  {
    var all := log + [r];
    assert all[|log|] == r && forall j :: 0 <= j < |log| ==> all[j] == log[j];
  }

  lemma RereadsSnoc(start: seq<Feed>, log: seq<Read>, r: Read)
    requires RereadsFirst(start, log) && RereadFits(start, r, ReadBefore(log, |log|, r.feed))
    ensures RereadsFirst(start, log + [r])
  {
    var all := log + [r];
    forall k: nat, feed | k <= |log| ensures ReadBefore(all, k, feed) <==> ReadBefore(log, k, feed) {
      assert forall j :: 0 <= j < k ==> all[j] == log[j];
    }
    hide ReadBefore, RereadFits;
    forall k | 0 <= k < |all| ensures RereadFits(start, all[k], ReadBefore(all, k, all[k].feed)) {
      if k < |log| {
        assert all[k] == log[k];
        assert RereadFits(start, log[k], ReadBefore(log, k, log[k].feed));
      }
    }
  }

  lemma TurnValidates(input: Input, c: Call)
    requires c.feeds != [] && Indexed(c)
    ensures var d, i := Turn(input, c), c.feedIndex;
            && (forall j :: j != i ==> (j in d.validated <==> j in c.validated))
            && (c.feeds[i].done ==> d.validated == c.validated)
            && (!c.feeds[i].done && !d.stopped && !d.feeds[i].done ==> i in d.validated)
            && (c.feeds[i].done ==> d.stopped == c.stopped)
  {
    hide AllIn, NextIndex, Advanced;
  }

  lemma {:induction false} DriveTracks(input: Input, c: Call, start: seq<Feed>)
    requires Tracked(start, c)
    ensures Tracked(start, Drive(input, c))
    decreases RequestsLeft(input, c), Distance(c)
  {
    hide Turn, Guard, Distance, RequestsLeft, Tracked;
    TrackedIsIndexed(start, c);
    DriveStep(input, c);
    if Guard(input, c) {
      TurnDescends(input, c);
      GuardedIsNonempty(input, c);
      TurnTracks(input, c, start);
      DriveTracks(input, Turn(input, c), start);
    }
  }

  lemma TrackedIsIndexed(start: seq<Feed>, c: Call)
    requires Tracked(start, c)
    ensures Indexed(c)
  {
  }

  /** In every call, a feed past page 0 is reread once, one page back and before anything else of it is read; nothing else is reread. */
  lemma RereadsComeFirst(input: Input, cursor: Cursor)
    requires cursor.feedIndex < |cursor.feeds|
    ensures RereadsFirst(cursor.feeds, Drive(input, Begin(cursor, NoHistory(cursor.feeds))).log)
  {
    DriveTracks(input, Begin(cursor, NoHistory(cursor.feeds)), cursor.feeds);
    hide Drive;
  }

  // ----- what every turn keeps

  predicate Good(r: PageResult) {
    r.complete && !r.blocked && r.ids != []
  }

  /** The read shows the given page of the feed, complete, with all the saved ids still on it. */
  predicate Vouches(r: Read, feed: nat, page: nat, saved: seq<string>) {
    r.feed == feed && r.page == page && Good(r.result) && AllIn(saved, r.result.ids)
  }

  predicate Vouched(log: seq<Read>, feed: nat, page: nat, saved: seq<string>) {
    exists r :: r in log && Vouches(r, feed, page, saved)
  }

  /** Read k of a call goes below page 0 only with the page above it vouched for earlier in the same call. */
  predicate Deserved(log: seq<Read>, k: nat)
    requires k < |log|
  {
    !log[k].overlap && log[k].page > 0 ==> Vouched(log[..k], log[k].feed, log[k].page - 1, log[k].saved)
  }

  /** The committed pages of a feed: 0, 1, 2, ..., each read complete and nonempty, and the saved ids are those of the last. */
  ghost predicate FeedKept(f: Feed, h: seq<Read>, feed: nat) {
    && |h| == f.nextPage <= RECOVERY_DEPTH
    && (f.nextPage == RECOVERY_DEPTH ==> f.done)
    && (h != [] ==> f.overlapIds == h[|h| - 1].result.ids)
    && forall k :: 0 <= k < |h| ==> h[k].feed == feed && h[k].page == k && !h[k].overlap && Good(h[k].result)
  }

  ghost predicate FeedsKept(c: Call) {
    |c.feeds| == |c.history| && forall i :: 0 <= i < |c.feeds| ==> FeedKept(c.feeds[i], c.history[i], i)
  }

  ghost predicate Grounded(history: seq<seq<Read>>, past: seq<Read>) {
    forall h, r :: h in history && r in h ==> r in past
  }

  ghost predicate ValidatedKept(c: Call) {
    forall i :: i in c.validated && i < |c.feeds| && c.feeds[i].nextPage > 0 ==>
      Vouched(c.log, i, c.feeds[i].nextPage - 1, c.feeds[i].overlapIds)
  }

  ghost predicate Kept(c: Call, past: seq<Read>) {
    && Indexed(c) && c.feeds != []
    && FeedsKept(c)
    && ValidatedKept(c)
    && (forall k :: 0 <= k < |c.log| ==> Deserved(c.log, k))
    && Grounded(c.history, past + c.log)
  }

  lemma AdvancedFeed(input: Input, feed: Feed, r: Read)
    ensures var f := Advanced(input.anchors, feed, r.page, r.result.ids);
            && f.url == feed.url && f.nextPage == r.page + 1 && f.overlapIds == r.result.ids
            && (feed.done ==> f.done) && (f.nextPage >= RECOVERY_DEPTH ==> f.done)
  {
  }

  lemma TurnKeepsFeeds(input: Input, c: Call)
    requires c.feeds != [] && Indexed(c) && FeedsKept(c)
    ensures FeedsKept(Turn(input, c))
  {
    hide AllIn, Advanced, NextIndex;
    var index := c.feedIndex;
    assert FeedKept(c.feeds[index], c.history[index], index);
    if !c.feeds[index].done {
      AdvancedFeed(input, c.feeds[index], Request(input, c));
      AskedFeedKept(input, c);
    }
    var d := Turn(input, c);
    hide FeedKept, Turn;
    TouchesOnlyCurrent(input, c);
    forall i | 0 <= i < |d.feeds| ensures FeedKept(d.feeds[i], d.history[i], i) {
      if i != index {
        assert FeedKept(c.feeds[i], c.history[i], i);
      }
    }
  }

  lemma TouchesOnlyCurrent(input: Input, c: Call)
    requires c.feeds != [] && Indexed(c)
    ensures var d := Turn(input, c);
            && |d.feeds| == |c.feeds| == |d.history|
            && (forall i :: 0 <= i < |c.feeds| && i != c.feedIndex ==> d.feeds[i] == c.feeds[i] && d.history[i] == c.history[i])
            && (c.feeds[c.feedIndex].done ==> d.feeds == c.feeds && d.history == c.history)
  {
    hide AllIn, Advanced, NextIndex, Request;
  }

  lemma AskedFeedKept(input: Input, c: Call)
    requires c.feeds != [] && Indexed(c) && !c.feeds[c.feedIndex].done
    requires FeedKept(c.feeds[c.feedIndex], c.history[c.feedIndex], c.feedIndex)
    ensures var d := Turn(input, c); FeedKept(d.feeds[c.feedIndex], d.history[c.feedIndex], c.feedIndex)
  {
    hide AllIn, Advanced, NextIndex;
    var r := Request(input, c);
    AdvancedFeed(input, c.feeds[c.feedIndex], r);
  }

  lemma TurnKeepsHistory(input: Input, c: Call, past: seq<Read>)
    requires c.feeds != [] && Indexed(c) && Grounded(c.history, past + c.log)
    ensures Grounded(Turn(input, c).history, past + Turn(input, c).log)
  {
    var d, index := Turn(input, c), c.feedIndex;
    TouchesOnlyCurrent(input, c);
    LogGrows(input, c);
    HistoryOfCurrent(input, c);
    hide Turn, Request;
    forall h, r | h in d.history && r in h ensures r in past + d.log {
      var i :| 0 <= i < |d.history| && d.history[i] == h;
      assert c.history[i] in c.history;
      if r in c.history[i] {
        assert r in past + c.log;
      }
    }
  }

  lemma LogGrows(input: Input, c: Call)
    requires c.feeds != [] && Indexed(c)
    ensures Turn(input, c).log == if c.feeds[c.feedIndex].done then c.log else c.log + [Request(input, c)]
  {
    if !c.feeds[c.feedIndex].done {
      AskingTurn(input, c);
    }
  }

  lemma HistoryOfCurrent(input: Input, c: Call)
    requires c.feeds != [] && Indexed(c)
    ensures forall r :: r in Turn(input, c).history[c.feedIndex] ==>
              r in c.history[c.feedIndex] || (!c.feeds[c.feedIndex].done && r == Request(input, c))
  {
    hide AllIn, Advanced, NextIndex, Request;
  }

  lemma VouchedGrows(a: seq<Read>, b: seq<Read>, feed: nat, page: nat, saved: seq<string>)
    requires Vouched(a, feed, page, saved)
    ensures Vouched(a + b, feed, page, saved)
  {
    var r :| r in a && Vouches(r, feed, page, saved);
    assert r in a + b;
  }

  lemma TurnKeepsValidated(input: Input, c: Call)
    requires c.feeds != [] && Indexed(c) && FeedsKept(c) && ValidatedKept(c)
    ensures ValidatedKept(Turn(input, c))
  {
    var d, index := Turn(input, c), c.feedIndex;
    TouchesOnlyCurrent(input, c);
    LogGrows(input, c);
    CurrentValidated(input, c);
    hide Turn, Request, Vouched, FeedsKept;
    forall i | i in d.validated && i < |d.feeds| && d.feeds[i].nextPage > 0
      ensures Vouched(d.log, i, d.feeds[i].nextPage - 1, d.feeds[i].overlapIds)
    {
      if i != index {
        VouchedGrows(c.log, d.log[|c.log|..], i, c.feeds[i].nextPage - 1, c.feeds[i].overlapIds);
        assert d.log == c.log + d.log[|c.log|..];
      }
    }
  }

  /** The feed of the turn: if it is validated afterwards, its last page was vouched for before or just now. */
  lemma CurrentValidated(input: Input, c: Call)
    requires c.feeds != [] && Indexed(c) && FeedsKept(c) && ValidatedKept(c)
    ensures var d, i := Turn(input, c), c.feedIndex;
            && (forall j :: j in d.validated && j != i ==> j in c.validated)
            && (i in d.validated && d.feeds[i].nextPage > 0 ==>
                  Vouched(d.log, i, d.feeds[i].nextPage - 1, d.feeds[i].overlapIds))
  {
    var d, i := Turn(input, c), c.feedIndex;
    assert FeedKept(c.feeds[i], c.history[i], i);
    hide FeedsKept, FeedKept, NextIndex, Advanced, Vouched;
    if c.feeds[i].done {
      SkipTurn(input, c);
    } else {
      var r := Request(input, c);
      AskingTurn(input, c);
      AdvancedFeed(input, c.feeds[i], r);
      if i in c.validated && c.feeds[i].nextPage > 0 {
        VouchedGrows(c.log, [r], i, c.feeds[i].nextPage - 1, c.feeds[i].overlapIds);
      }
      if Vouches(r, i, r.page, r.result.ids) {
        NewlyVouched(c.log, r, r.result.ids);
      }
      if Vouches(r, i, r.page, c.feeds[i].overlapIds) {
        NewlyVouched(c.log, r, c.feeds[i].overlapIds);
      }
    }
  }

  lemma NewlyVouched(log: seq<Read>, r: Read, saved: seq<string>)
    requires Vouches(r, r.feed, r.page, saved)
    ensures Vouched(log + [r], r.feed, r.page, saved)
  {
    assert r in log + [r];
  }

  lemma TurnKeepsDeserved(input: Input, c: Call)
    requires c.feeds != [] && Indexed(c) && ValidatedKept(c)
    requires forall k :: 0 <= k < |c.log| ==> Deserved(c.log, k)
    ensures var log := Turn(input, c).log; forall k :: 0 <= k < |log| ==> Deserved(log, k)
  {
    LogGrows(input, c);
    hide Turn, Vouched;
    if !c.feeds[c.feedIndex].done {
      var r := Request(input, c);
      var log := c.log + [r];
      assert log[..|c.log|] == c.log;
      forall k | 0 <= k < |log| ensures Deserved(log, k) {
        if k < |c.log| {
          assert Deserved(c.log, k);
          assert log[..k] == c.log[..k];
        }
      }
    }
  }

  lemma TurnKeeps(input: Input, c: Call, past: seq<Read>)
    requires Kept(c, past)
    ensures Kept(Turn(input, c), past)
  {
    hide Turn, FeedsKept, ValidatedKept, Grounded, Deserved;
    TurnKeepsFeeds(input, c);
    TurnKeepsHistory(input, c, past);
    TurnKeepsValidated(input, c);
    TurnKeepsDeserved(input, c);
    TouchesOnlyCurrent(input, c);
  }

  lemma {:induction false} DriveKeeps(input: Input, c: Call, past: seq<Read>)
    requires Kept(c, past)
    ensures Kept(Drive(input, c), past)
    decreases RequestsLeft(input, c), Distance(c)
  {
    hide Kept, Turn, Guard, Distance, RequestsLeft;
    KeptIsIndexed(c, past);
    DriveStep(input, c);
    if Guard(input, c) {
      TurnDescends(input, c);
      TurnKeeps(input, c, past);
      DriveKeeps(input, Turn(input, c), past);
    }
  }

  lemma KeptIsIndexed(c: Call, past: seq<Read>)
    requires Kept(c, past)
    ensures Indexed(c) && c.feeds != []
  {
  }

  /**
   * What one turn may do to a cursor: leave it, move it past exactly the page
   * just read complete and nonempty, or send it back to the start, and that
   * only when the page reread complete had lost a saved id.
   */
  lemma TurnMovesCursor(input: Input, c: Call, i: nat)
    requires c.feeds != [] && Indexed(c) && i < |c.feeds|
    ensures var d, r := Turn(input, c), Request(input, c);
            var was, now := c.feeds[i], d.feeds[i];
            || (now.nextPage == was.nextPage && now.overlapIds == was.overlapIds)
            || (&& i == c.feedIndex && r.feed == i && !r.overlap && r.page == was.nextPage && Good(r.result)
                && now.nextPage == was.nextPage + 1 && now.overlapIds == r.result.ids)
            || (&& i == c.feedIndex && r.feed == i && r.overlap && r.page + 1 == was.nextPage && Good(r.result)
                && !AllIn(was.overlapIds, r.result.ids)
                && now == was.(nextPage := 0, overlapIds := []) && d.noProgress == Some(OVERLAP_MOVED) && d.stopped)
  {
    hide NextIndex, AllIn, AnchorCount;
    TouchesOnlyCurrent(input, c);
  }

  /** A call that reports no progress left every feed as it was, or restarted a single one whose overlap had moved. */
  lemma {:induction false} StalledCallChangesNothingElse(input: Input, c: Call)
    requires Indexed(c)
    requires Drive(input, c).progressed == c.progressed
    ensures var d := Drive(input, c);
            || d.feeds == c.feeds
            || (&& d.noProgress == Some(OVERLAP_MOVED)
                && exists i :: 0 <= i < |c.feeds| && d.feeds == c.feeds[i := c.feeds[i].(nextPage := 0, overlapIds := [])])
    decreases RequestsLeft(input, c), Distance(c)
  {
    hide Turn, Guard, Distance, RequestsLeft;
    DriveStep(input, c);
    if Guard(input, c) {
      TurnDescends(input, c);
      GuardedIsNonempty(input, c);
      var t := Turn(input, c);
      DriveExtends(input, t);
      TurnCounts(input, c);
      StalledTurn(input, c);
      if t.stopped {
        DriveStep(input, t);
        StoppedIsOver(input, t);
      } else {
        StalledCallChangesNothingElse(input, t);
      }
    }
  }

  lemma StoppedIsOver(input: Input, c: Call)
    requires c.stopped
    ensures !Guard(input, c)
  {
  }

  lemma StalledTurn(input: Input, c: Call)
    requires c.feeds != [] && Indexed(c) && Turn(input, c).progressed == c.progressed
    ensures var d := Turn(input, c);
            || d.feeds == c.feeds
            || (&& d.stopped && d.noProgress == Some(OVERLAP_MOVED)
                && d.feeds == c.feeds[c.feedIndex := c.feeds[c.feedIndex].(nextPage := 0, overlapIds := [])])
  {
    hide NextIndex, AllIn, Request, Advanced;
  }

  // ----- sequences of calls

  /** The durable cursor between calls, with everything read so far. */
  datatype Session = Session(cursor: Cursor, history: seq<seq<Read>>, past: seq<Read>)

  /** Each call restores the stored cursor; a cursor that was not resumed has no history. */
  function CallOn(urls: seq<string>, s: Session, input: Input): (t: Session) {
    match Restore(Store(s.cursor), urls)
    case Crash => s
    case Restored(cursor) =>
      var c := Begin(cursor, if cursor == s.cursor then s.history else NoHistory(cursor.feeds));
      if Indexed(c) then
        var d := Drive(input, c);
        Session(Cursor(d.feedIndex, d.feeds), d.history, s.past + d.log)
      else s
  }

  function Calls(urls: seq<string>, inputs: seq<Input>): (s: Session) {
    if inputs == [] then Session(FreshCursor(urls), NoHistory(FreshCursor(urls).feeds), [])
    else CallOn(urls, Calls(urls, inputs[..|inputs| - 1]), inputs[|inputs| - 1])
  }

  ghost predicate SessionKept(urls: seq<string>, s: Session) {
    Fits(s.cursor, urls) && Kept(Begin(s.cursor, s.history), s.past)
  }

  lemma {:induction false} DriveKeepsUrls(input: Input, c: Call)
    requires Indexed(c)
    ensures var d := Drive(input, c);
            forall i :: 0 <= i < |c.feeds| ==> d.feeds[i].url == c.feeds[i].url && (c.feeds[i].done ==> d.feeds[i].done)
    decreases RequestsLeft(input, c), Distance(c)
  {
    hide Turn, Guard, Distance, RequestsLeft;
    DriveStep(input, c);
    if Guard(input, c) {
      TurnDescends(input, c);
      GuardedIsNonempty(input, c);
      TurnKeepsUrls(input, c);
      DriveKeepsUrls(input, Turn(input, c));
    }
  }

  lemma GuardedIsNonempty(input: Input, c: Call)
    requires Guard(input, c)
    ensures c.feeds != [] && !c.stopped && |c.log| < input.maxRequests
  {
  }

  lemma TurnKeepsUrls(input: Input, c: Call)
    requires Indexed(c) && c.feeds != []
    ensures var d := Turn(input, c);
            forall i :: 0 <= i < |c.feeds| ==> d.feeds[i].url == c.feeds[i].url && (c.feeds[i].done ==> d.feeds[i].done)
  {
    hide AllIn, NextIndex, Request;
  }

  lemma FreshSession(urls: seq<string>)
    requires urls != []
    ensures SessionKept(urls, Calls(urls, []))
  {
  }

  /** One call on a kept session: the stored cursor is resumed as it was, and the session stays kept. */
  lemma CallKeeps(urls: seq<string>, s: Session, input: Input)
    requires SessionKept(urls, s)
    ensures Restore(Store(s.cursor), urls) == Restored(s.cursor)
    ensures var d := Drive(input, Begin(s.cursor, s.history));
            && CallOn(urls, s, input) == Session(Cursor(d.feedIndex, d.feeds), d.history, s.past + d.log)
            && (forall k :: 0 <= k < |d.log| ==> Deserved(d.log, k))
    ensures SessionKept(urls, CallOn(urls, s, input))
  {
    StoredCursorIsRestored(s.cursor, urls);
    var c := Begin(s.cursor, s.history);
    DriveKeeps(input, c, s.past);
    DriveKeepsUrls(input, c);
    var d := Drive(input, c);
    hide Drive, Store, Restore, Deserved, Vouched;
    assert Kept(d, s.past);
    assert FeedsKept(d);
    forall i | 0 <= i < |urls| ensures d.feeds[i].url == urls[i] && d.feeds[i].nextPage <= RECOVERY_DEPTH {
      assert FeedKept(d.feeds[i], d.history[i], i);
    }
    var again := Begin(Cursor(d.feedIndex, d.feeds), d.history);
    assert s.past + d.log + [] == s.past + d.log;
    assert Kept(again, s.past + d.log) by {
      assert FeedsKept(again);
    }
  }

  /**
   * Over every sequence of calls from a fresh start: each stored cursor is
   * accepted unchanged by the next call; every page below a feed's nextPage was
   * read complete and nonempty since that feed last started at page 0, and the
   * saved ids are those of the last such page; a feed at the depth limit is done.
   */
  lemma {:induction false} NoFeedPageIsSkipped(urls: seq<string>, inputs: seq<Input>)
    requires urls != []
    ensures var s := Calls(urls, inputs);
            && SessionKept(urls, s)
            && Restore(Store(s.cursor), urls) == Restored(s.cursor)
            && (forall i :: 0 <= i < |urls| ==> FeedKept(s.cursor.feeds[i], s.history[i], i))
            && Grounded(s.history, s.past)
  {
    hide Store, Restore;
    if inputs == [] {
      FreshSession(urls);
    } else {
      hide CallOn;
      var n := |inputs| - 1;
      NoFeedPageIsSkipped(urls, inputs[..n]);
      CallKeeps(urls, Calls(urls, inputs[..n]), inputs[n]);
    }
    var s := Calls(urls, inputs);
    StoredCursorIsRestored(s.cursor, urls);
    assert FeedsKept(Begin(s.cursor, s.history));
    assert s.past + [] == s.past;
  }

  /** In every call of every sequence, depth is read only below a page vouched for in that same call. */
  lemma DepthIsDeserved(urls: seq<string>, inputs: seq<Input>, input: Input)
    requires urls != []
    ensures var s := Calls(urls, inputs);
            && Indexed(Begin(s.cursor, s.history))
            && var log := Drive(input, Begin(s.cursor, s.history)).log;
               forall k :: 0 <= k < |log| ==> Deserved(log, k)
  {
    NoFeedPageIsSkipped(urls, inputs);
    CallKeeps(urls, Calls(urls, inputs), input);
  }

  /** A finished feed stays finished. */
  lemma DoneIsFinal(urls: seq<string>, inputs: seq<Input>, input: Input)
    requires urls != []
    ensures var s, t := Calls(urls, inputs), Calls(urls, inputs + [input]);
            && |s.cursor.feeds| == |t.cursor.feeds| == |urls|
            && forall i :: 0 <= i < |urls| && s.cursor.feeds[i].done ==> t.cursor.feeds[i].done
  {
    hide Store, Restore, Kept;
    NoFeedPageIsSkipped(urls, inputs);
    var s := Calls(urls, inputs);
    assert (inputs + [input])[..|inputs|] == inputs;
    CallKeeps(urls, s, input);
    KeptIsIndexed(Begin(s.cursor, s.history), s.past);
    DriveKeepsUrls(input, Begin(s.cursor, s.history));
  }

  // ----- why a feed is done

  /** At least three of the ids, and at least half of them, are anchors. */
  predicate Anchored(ids: seq<string>, anchors: set<string>) {
    var n := |AnchorIndices(ids, anchors)|;
    n >= 3 && 2 * n >= |ids|
  }

  function AnchorIndices(ids: seq<string>, anchors: set<string>): (ks: set<int>) {
    set k | 0 <= k < |ids| && ids[k] in anchors
  }

  lemma {:induction false} AnchorCountIs(ids: seq<string>, anchors: set<string>)
    ensures AnchorCount(ids, anchors) == |AnchorIndices(ids, anchors)|
  {
    if ids != [] {
      var n := |ids| - 1;
      AnchorCountIs(ids[..n], anchors);
      AnchorCountSnoc(ids, anchors);
      hide AnchorCount, AnchorIndices;
      IndicesSnoc(ids, anchors);
    }
  }

  lemma IndicesSnoc(ids: seq<string>, anchors: set<string>)
    requires ids != []
    ensures var n := |ids| - 1;
            |AnchorIndices(ids, anchors)| == |AnchorIndices(ids[..n], anchors)| + if ids[n] in anchors then 1 else 0
  {
    var n := |ids| - 1;
    assert AnchorIndices(ids, anchors) == AnchorIndices(ids[..n], anchors) + if ids[n] in anchors then {n} else {};
  }

  lemma {:induction false} AnchorCountSnoc(ids: seq<string>, anchors: set<string>)
    requires ids != []
    ensures var n := |ids| - 1;
            AnchorCount(ids, anchors) == AnchorCount(ids[..n], anchors) + if ids[n] in anchors then 1 else 0
  {
    var n := |ids| - 1;
    if n > 0 {
      AnchorCountSnoc(ids[1..], anchors);
      assert ids[1..][..n - 1] == ids[..n][1..];
    }
  }

  /** The feed ended: a complete page without ids. */
  predicate Ends(r: Read) {
    r.result.complete && !r.result.blocked && r.result.ids == []
  }

  /** The page after the saved one shows the saved ids again. */
  predicate Repeats(r: Read) {
    && !r.overlap && r.page > 0 && Good(r.result)
    && |r.result.ids| == |r.saved| && forall id :: id in r.result.ids ==> id in r.saved
  }

  /** A new page that was committed. */
  predicate Commits(r: Read) {
    !r.overlap && Good(r.result) && !Repeats(r)
  }

  /** The read finishes its feed, and why. */
  function Conclusion(r: Read): (reason: Option<string>) {
    if Ends(r) then Some("EMPTY_PUBLIC_PAGE_UNPROVEN")
    else if Repeats(r) then Some("REPEATED_PUBLIC_PAGE")
    else if Commits(r) && Anchored(r.result.ids, r.anchors) then Some("ANCHOR_OVERLAP_UNPROVEN_ORDER")
    else if Commits(r) && r.page + 1 >= 50 then Some("LOCAL_DEPTH_BUDGET")
    else None
  }

  function LastRead(log: seq<Read>, feed: nat): (r: Option<Read>) {
    if log == [] then None
    else if log[|log| - 1].feed == feed then Some(log[|log| - 1])
    else LastRead(log[..|log| - 1], feed)
  }

  /** A feed is done exactly when its last read concludes it, for the reason given, and stands where that read left it. */
  predicate Settled(f: Feed, last: Option<Read>) {
    && f.reason == (if last.Some? then Conclusion(last.value) else None)
    && (f.done <==> f.reason.Some?)
    && (last.Some? && Commits(last.value) ==> f.nextPage == last.value.page + 1 && f.overlapIds == last.value.result.ids)
    && (last.Some? && Repeats(last.value) ==> f.nextPage == last.value.page && f.overlapIds == last.value.saved)
  }

  ghost predicate AllSettled(c: Call, past: seq<Read>) {
    forall i :: 0 <= i < |c.feeds| ==> Settled(c.feeds[i], LastRead(past + c.log, i))
  }

  lemma AskedFeedSettles(input: Input, c: Call)
    requires c.feeds != [] && Indexed(c) && !c.feeds[c.feedIndex].done && c.feeds[c.feedIndex].reason.None?
    ensures Settled(Turn(input, c).feeds[c.feedIndex], Some(Request(input, c)))
  {
    AnchorCountIs(Request(input, c).result.ids, input.anchors);
    hide NextIndex, AnchorCount;
  }

  lemma LastSnoc(log: seq<Read>, r: Read, feed: nat)
    ensures LastRead(log + [r], feed) == if r.feed == feed then Some(r) else LastRead(log, feed)
  {
    assert (log + [r])[..|log|] == log;
  }

  lemma TurnKeepsSettled(input: Input, c: Call, past: seq<Read>)
    requires c.feeds != [] && Indexed(c) && AllSettled(c, past)
    ensures AllSettled(Turn(input, c), past)
  {
    hide Turn, Request, Settled, LastRead;
    var d, index := Turn(input, c), c.feedIndex;
    TouchesOnlyCurrent(input, c);
    LogGrows(input, c);
    assert Settled(c.feeds[index], LastRead(past + c.log, index));
    forall i | 0 <= i < |d.feeds| ensures Settled(d.feeds[i], LastRead(past + d.log, i)) {
      assert Settled(c.feeds[i], LastRead(past + c.log, i));
      if !c.feeds[index].done {
        var r := Request(input, c);
        RequestFeed(input, c);
        assert past + d.log == (past + c.log) + [r];
        LastSnoc(past + c.log, r, i);
        if i == index {
          OpenHasNoReason(c.feeds[i], LastRead(past + c.log, i));
          AskedFeedSettles(input, c);
        }
      }
    }
  }

  lemma RequestFeed(input: Input, c: Call)
    requires c.feeds != [] && Indexed(c)
    ensures Request(input, c).feed == c.feedIndex
  {
  }

  lemma OpenHasNoReason(f: Feed, last: Option<Read>)
    requires Settled(f, last) && !f.done
    ensures f.reason.None?
  {
  }

  lemma {:induction false} DriveKeepsSettled(input: Input, c: Call, past: seq<Read>)
    requires Indexed(c) && AllSettled(c, past)
    ensures AllSettled(Drive(input, c), past)
    decreases RequestsLeft(input, c), Distance(c)
  {
    hide Turn, Guard, Distance, RequestsLeft, AllSettled;
    DriveStep(input, c);
    if Guard(input, c) {
      TurnDescends(input, c);
      GuardedIsNonempty(input, c);
      TurnKeepsSettled(input, c, past);
      DriveKeepsSettled(input, Turn(input, c), past);
    }
  }

  /**
   * No feed is concluded without grounds, and none with grounds is left open:
   * over every sequence of calls, a feed is done exactly when the last page read
   * of it was empty, repeated the page before, had anchors in at least half of its
   * ids and in three of them, or was the last within the depth limit.
   */
  lemma {:induction false} ConclusionsAreExact(urls: seq<string>, inputs: seq<Input>)
    requires urls != []
    ensures var s := Calls(urls, inputs);
            && |s.cursor.feeds| == |urls|
            && forall i :: 0 <= i < |urls| ==> Settled(s.cursor.feeds[i], LastRead(s.past, i))
  {
    hide Store, Restore, Settled, Drive, CallOn, LastRead;
    if inputs == [] {
      FreshSettled(urls);
    } else {
      var n := |inputs| - 1;
      var s, input := Calls(urls, inputs[..n]), inputs[n];
      ConclusionsAreExact(urls, inputs[..n]);
      NoFeedPageIsSkipped(urls, inputs[..n]);
      CallKeeps(urls, s, input);
      var c := Begin(s.cursor, s.history);
      assert s.past + c.log == s.past;
      DriveKeepsSettled(input, c, s.past);
    }
  }

  lemma FreshSettled(urls: seq<string>)
    ensures var s := Calls(urls, []);
            && |s.cursor.feeds| == |urls|
            && forall i :: 0 <= i < |urls| ==> Settled(s.cursor.feeds[i], LastRead(s.past, i))
  {
  }

  /**
   * What a call reports, in every sequence of calls: no reason while a feed is
   * open; otherwise unstable pagination exactly when the last page read of some feed
   * repeated the page before, and a range that cannot be partitioned when none did.
   */
  lemma ReasonIsExact(urls: seq<string>, inputs: seq<Input>, input: Input)
    requires urls != []
    ensures var s := Calls(urls, inputs);
            && Indexed(Begin(s.cursor, s.history))
            && var d := Drive(input, Begin(s.cursor, s.history));
               var reason, all := Report(d).reason, s.past + d.log;
               && |d.feeds| == |urls|
               && (reason == None <==> exists i :: 0 <= i < |urls| && !d.feeds[i].done)
               && (reason == Some("UNSTABLE_PAGINATION")
                   <==> (forall i :: 0 <= i < |urls| ==> d.feeds[i].done) && exists i :: 0 <= i < |urls| && LastRepeats(all, i))
               && (reason == Some("NON_PARTITIONABLE_RANGE")
                   <==> (forall i :: 0 <= i < |urls| ==> d.feeds[i].done) && forall i :: 0 <= i < |urls| ==> !LastRepeats(all, i))
  {
    NoFeedPageIsSkipped(urls, inputs);
    ConclusionsAreExact(urls, inputs);
    var s := Calls(urls, inputs);
    CallKeeps(urls, s, input);
    var c := Begin(s.cursor, s.history);
    assert s.past + c.log == s.past;
    hide Settled, Drive, Calls, Kept, Store, Restore, LastRead;
    DriveKeepsSettled(input, c, s.past);
    var d := Drive(input, c);
    KeptIsIndexed(c, s.past);
    forall i | 0 <= i < |d.feeds| ensures d.feeds[i].reason == Some(REPEATED_PAGE) <==> LastRepeats(s.past + d.log, i) {
      RepeatedIs(d.feeds[i], LastRead(s.past + d.log, i));
    }
    ReportIs(d);
  }

  predicate LastRepeats(log: seq<Read>, i: nat) {
    LastRead(log, i).Some? && Repeats(LastRead(log, i).value)
  }

  lemma RepeatedIs(f: Feed, last: Option<Read>)
    requires Settled(f, last)
    ensures f.reason == Some(REPEATED_PAGE) <==> last.Some? && Repeats(last.value)
  {
    assert |"EMPTY_PUBLIC_PAGE_UNPROVEN"| == 26 && |"REPEATED_PUBLIC_PAGE"| == 20;
    assert |"ANCHOR_OVERLAP_UNPROVEN_ORDER"| == 29 && |"LOCAL_DEPTH_BUDGET"| == 18;
    hide Anchored;
  }

  lemma ReportIs(d: Call)
    ensures var reason := Report(d).reason;
            && (reason == None <==> exists i :: 0 <= i < |d.feeds| && !d.feeds[i].done)
            && (reason == Some("UNSTABLE_PAGINATION")
                <==> (forall i :: 0 <= i < |d.feeds| ==> d.feeds[i].done) && exists i :: 0 <= i < |d.feeds| && d.feeds[i].reason == Some(REPEATED_PAGE))
            && (reason == Some("NON_PARTITIONABLE_RANGE")
                <==> (forall i :: 0 <= i < |d.feeds| ==> d.feeds[i].done) && forall i :: 0 <= i < |d.feeds| ==> d.feeds[i].reason != Some(REPEATED_PAGE))
  {
    assert |"UNSTABLE_PAGINATION"| != |"NON_PARTITIONABLE_RANGE"|;
  }

  // ----- how a call ends

  /** An incomplete answer; a saved id that is gone from the page reread. */
  function StopReason(r: Read): (reason: Option<string>) {
    if r.result.blocked then None
    else if !r.result.complete then Some("PUBLIC_PAGE_INCOMPLETE")
    else if r.overlap && r.result.ids != [] && exists id :: id in r.saved && id !in r.result.ids then Some("PUBLIC_OVERLAP_MOVED")
    else None
  }

  predicate Stops(r: Read) {
    r.result.blocked || StopReason(r).Some?
  }

  /** The reads that count as progress: new pages that answered, and pages found empty. */
  function Progress(log: seq<Read>): (n: nat) {
    if log == [] then 0
    else
      var r := log[|log| - 1];
      Progress(log[..|log| - 1]) + if r.result.complete && !r.result.blocked && (r.result.ids == [] || !r.overlap) then 1 else 0
  }

  ghost predicate Accounted(input: Input, c: Call) {
    var n := |c.log|;
    && c.progressed == Progress(c.log)
    && n <= (if input.maxRequests < 0 then 0 else input.maxRequests)
    && (forall t :: 0 <= t < c.turns ==> input.canContinue(t))
    && (forall k :: 0 <= k < n - 1 ==> !Stops(c.log[k]))
    && (c.stopped <==> n > 0 && Stops(c.log[n - 1]))
    && c.noProgress == if n > 0 then StopReason(c.log[n - 1]) else None
  }

  lemma TurnAccounts(input: Input, c: Call)
    requires Indexed(c) && Guard(input, c) && Accounted(input, c)
    ensures Accounted(input, Turn(input, c))
  {
    GuardedIsNonempty(input, c);
    GuardedMayGoOn(input, c);
    LogGrows(input, c);
    TurnReports(input, c);
    var d := Turn(input, c);
    hide Turn, Request, Stops, StopReason, Guard;
    if !c.feeds[c.feedIndex].done {
      assert d.log[..|c.log|] == c.log;
    }
  }

  lemma GuardedMayGoOn(input: Input, c: Call)
    requires Guard(input, c)
    ensures input.canContinue(c.turns)
  {
  }

  lemma TurnReports(input: Input, c: Call)
    requires c.feeds != [] && Indexed(c) && !c.stopped && c.noProgress.None?
    ensures var d, r := Turn(input, c), Request(input, c);
            && d.turns == c.turns + 1
            && (c.feeds[c.feedIndex].done ==> !d.stopped && d.noProgress.None? && d.progressed == c.progressed)
            && (!c.feeds[c.feedIndex].done ==>
                  && d.stopped == Stops(r) && d.noProgress == StopReason(r)
                  && d.progressed == c.progressed
                     + if r.result.complete && !r.result.blocked && (r.result.ids == [] || !r.overlap) then 1 else 0)
  {
    hide NextIndex, Advanced, AnchorCount;
  }

  lemma {:induction false} DriveAccounts(input: Input, c: Call)
    requires Indexed(c) && Accounted(input, c)
    ensures Accounted(input, Drive(input, c)) && !Guard(input, Drive(input, c))
    decreases RequestsLeft(input, c), Distance(c)
  {
    hide Turn, Guard, Distance, RequestsLeft, Accounted;
    DriveStep(input, c);
    if Guard(input, c) {
      TurnDescends(input, c);
      GuardedIsNonempty(input, c);
      TurnAccounts(input, c);
      DriveAccounts(input, Turn(input, c));
    }
  }

  /**
   * How every call ends: it keeps to its requests and goes on only as long as it may;
   * it stops at the first blocked or incomplete answer or moved page and reports
   * which; it counts each new or empty page as progress; and it ends early for no
   * other reason than that no request is left, it may not go on, or all feeds are done.
   */
  lemma CallEndsExactly(input: Input, cursor: Cursor)
    requires Runnable(cursor)
    ensures var d := Drive(input, Begin(cursor, NoHistory(cursor.feeds)));
            && Accounted(input, d)
            && (|| d.stopped || |d.log| >= input.maxRequests || !input.canContinue(d.turns)
                || forall i :: 0 <= i < |d.feeds| ==> d.feeds[i].done)
  {
    DriveAccounts(input, Begin(cursor, NoHistory(cursor.feeds)));
    hide Drive, Accounted;
  }

  predicate Runnable(c: Cursor) {
    c.feedIndex < |c.feeds|
  }

  // ----- progress

  /** A friendly answer: a complete page which, when reread, is empty or still holds what was saved from it. */
  predicate Friendly(r: Read) {
    && r.result.complete && !r.result.blocked
    && (r.overlap && r.result.ids != [] ==> AllIn(r.saved, r.result.ids))
  }

  predicate AllFriendly(log: seq<Read>) {
    forall r :: r in log ==> Friendly(r)
  }

  lemma {:induction false} DriveExtends(input: Input, c: Call)
    requires Indexed(c)
    ensures var d := Drive(input, c);
            && |c.log| <= |d.log| && d.log[..|c.log|] == c.log
            && d.progressed >= c.progressed
    decreases RequestsLeft(input, c), Distance(c)
  {
    hide Turn, Guard, Distance, RequestsLeft;
    DriveStep(input, c);
    if Guard(input, c) {
      TurnDescends(input, c);
      GuardedIsNonempty(input, c);
      LogGrows(input, c);
      TurnCounts(input, c);
      DriveExtends(input, Turn(input, c));
    }
  }

  lemma TurnCounts(input: Input, c: Call)
    requires c.feeds != [] && Indexed(c)
    ensures c.progressed <= Turn(input, c).progressed <= c.progressed + 1
  {
    hide AllIn, NextIndex, Request, Advanced;
  }

  lemma FriendlyRead(input: Input, c: Call)
    requires Indexed(c) && Guard(input, c) && AllFriendly(Drive(input, c).log)
    ensures c.feeds != []
    ensures !c.feeds[c.feedIndex].done ==> Friendly(Request(input, c))
    ensures AllFriendly(Drive(input, Turn(input, c)).log)
  {
    GuardedIsNonempty(input, c);
    DriveStep(input, c);
    LogGrows(input, c);
    var d := Turn(input, c);
    DriveExtends(input, d);
    hide Turn, Drive, Friendly, Request;
    if !c.feeds[c.feedIndex].done {
      var log := Drive(input, d).log;
      assert log[|c.log|] == d.log[|c.log|] == Request(input, c);
      assert log[|c.log|] in log;
    }
  }

  /** A friendly turn on an unfinished feed makes progress, or validates the feed and stays on it. */
  lemma FriendlyTurn(input: Input, c: Call)
    requires c.feeds != [] && Indexed(c) && !c.feeds[c.feedIndex].done && Friendly(Request(input, c))
    ensures var d := Turn(input, c);
            && d.stopped == c.stopped
            && (|| d.progressed == c.progressed + 1
                || (IsOverlap(c) && d.feedIndex == c.feedIndex && c.feedIndex in d.validated && d.feeds == c.feeds))
  {
    hide AllIn, NextIndex, Advanced;
  }

  ghost predicate NotYetAsked(c: Call) {
    c.log == [] && c.validated == {}
  }

  ghost predicate AskedOnce(c: Call) {
    |c.log| == 1 && c.feeds != [] && c.feedIndex in c.validated && Indexed(c) && !c.feeds[c.feedIndex].done
  }

  /** With two requests to spend, nothing to stop it and friendly answers, a call with work left makes progress. */
  lemma {:induction false} CallProgresses(input: Input, c: Call)
    requires Indexed(c) && !c.stopped && (NotYetAsked(c) || AskedOnce(c)) && Unfinished(c.feeds)
    requires input.maxRequests >= 2 && forall t :: input.canContinue(t)
    requires AllFriendly(Drive(input, c).log)
    ensures Drive(input, c).progressed > c.progressed
    decreases RequestsLeft(input, c), Distance(c)
  {
    assert Guard(input, c);
    TurnDescends(input, c);
    DriveStep(input, c);
    FriendlyRead(input, c);
    LogGrows(input, c);
    var d := Turn(input, c);
    if c.feeds[c.feedIndex].done {
      SkipTurn(input, c);
      CallProgresses(input, d);
    } else {
      FriendlyTurn(input, c);
      DriveExtends(input, d);
      if d.progressed == c.progressed {
        hide Turn, Drive, Distance, RequestsLeft, Friendly, AllIn;
        CallProgresses(input, d);
      }
    }
  }

  function Weight(f: Feed): (w: int) {
    if f.done then 0 else RECOVERY_DEPTH - f.nextPage
  }

  /** How much depth is left over all feeds. */
  function Potential(feeds: seq<Feed>): (p: int) {
    if feeds == [] then 0 else Potential(feeds[..|feeds| - 1]) + Weight(feeds[|feeds| - 1])
  }

  lemma {:induction false} PotentialUpdate(feeds: seq<Feed>, i: nat, f: Feed)
    requires i < |feeds|
    ensures Potential(feeds[i := f]) == Potential(feeds) - Weight(feeds[i]) + Weight(f)
  {
    hide Weight;
    var n := |feeds| - 1;
    if i < n {
      PotentialUpdate(feeds[..n], i, f);
      assert feeds[i := f][..n] == feeds[..n][i := f];
    } else {
      assert feeds[i := f][..n] == feeds[..n];
    }
  }

  /** Each unfinished feed weighs something, so no potential means nothing left to do. */
  lemma {:induction false} PotentialBounds(feeds: seq<Feed>)
    requires forall f :: f in feeds ==> f.nextPage <= RECOVERY_DEPTH && (f.nextPage == RECOVERY_DEPTH ==> f.done)
    ensures 0 <= Potential(feeds) <= RECOVERY_DEPTH * |feeds|
    ensures Potential(feeds) == 0 ==> !Unfinished(feeds)
  {
    if feeds != [] {
      var n := |feeds| - 1;
      assert feeds == feeds[..n] + [feeds[n]];
      PotentialBounds(feeds[..n]);
    }
  }

  lemma FriendlyTurnPays(input: Input, c: Call, past: seq<Read>)
    requires Kept(c, past) && (!c.feeds[c.feedIndex].done ==> Friendly(Request(input, c)))
    ensures var d := Turn(input, c);
            Potential(d.feeds) + d.progressed <= Potential(c.feeds) + c.progressed
  {
    var feed, i := c.feeds[c.feedIndex], c.feedIndex;
    assert FeedKept(feed, c.history[i], i);
    if feed.done {
      SkipTurn(input, c);
    } else {
      var r := Request(input, c);
      AdvancedFeed(input, feed, r);
      PotentialUpdate(c.feeds, i, feed.(done := true, reason := Some(EMPTY_PAGE)));
      PotentialUpdate(c.feeds, i, feed.(done := true, reason := Some(REPEATED_PAGE)));
      PotentialUpdate(c.feeds, i, Advanced(input.anchors, feed, r.page, r.result.ids));
      hide AllIn, NextIndex, Advanced, Potential, Kept, FeedsKept;
    }
  }

  lemma {:induction false} DrivePays(input: Input, c: Call, past: seq<Read>)
    requires Kept(c, past) && AllFriendly(Drive(input, c).log)
    ensures var d := Drive(input, c);
            Potential(d.feeds) + d.progressed <= Potential(c.feeds) + c.progressed
    decreases RequestsLeft(input, c), Distance(c)
  {
    hide Kept, Turn, Guard, Distance, RequestsLeft, Potential, AllFriendly, Friendly;
    KeptIsIndexed(c, past);
    DriveStep(input, c);
    if Guard(input, c) {
      TurnDescends(input, c);
      TurnKeeps(input, c, past);
      FriendlyRead(input, c);
      FriendlyTurnPays(input, c, past);
      DrivePays(input, Turn(input, c), past);
    }
  }

  /** Every call of the sequence may spend two requests, is never told to stop and gets friendly answers. */
  predicate FriendlyCalls(urls: seq<string>, inputs: seq<Input>) {
    inputs == [] ||
    (var n := |inputs| - 1;
     var s := Calls(urls, inputs[..n]);
     && FriendlyCalls(urls, inputs[..n])
     && FriendlyCall(s, inputs[n]))
  }

  predicate FriendlyCall(s: Session, input: Input) {
    && input.maxRequests >= 2
    && Indexed(Begin(s.cursor, s.history))
    && AllFriendly(Drive(input, Begin(s.cursor, s.history)).log)
  }

  ghost predicate NeverStopped(input: Input) {
    forall t :: input.canContinue(t)
  }

  /**
   * Catch-up finishes: n feeds are all done after 50 n calls, if every call may
   * spend two requests, none is stopped and the pages reread still hold what
   * was saved from them.
   */
  lemma {:induction false} CatchUpFinishes(urls: seq<string>, inputs: seq<Input>)
    requires urls != [] && FriendlyCalls(urls, inputs)
    requires forall k :: 0 <= k < |inputs| ==> NeverStopped(inputs[k])
    ensures var feeds := Calls(urls, inputs).cursor.feeds;
            && |feeds| == |urls|
            && (!Unfinished(feeds) || Potential(feeds) <= RECOVERY_DEPTH * |urls| - |inputs|)
            && (|inputs| >= RECOVERY_DEPTH * |urls| ==> !Unfinished(feeds))
  {
    var s := Calls(urls, inputs);
    NoFeedPageIsSkipped(urls, inputs);
    CursorBounds(urls, s);
    PotentialBounds(s.cursor.feeds);
    if inputs != [] {
      var n := |inputs| - 1;
      CatchUpFinishes(urls, inputs[..n]);
      FriendlyCallPays(urls, inputs[..n], inputs[n]);
    }
  }

  lemma CursorBounds(urls: seq<string>, s: Session)
    requires SessionKept(urls, s)
    ensures |s.cursor.feeds| == |urls|
    ensures forall f :: f in s.cursor.feeds ==> f.nextPage <= RECOVERY_DEPTH && (f.nextPage == RECOVERY_DEPTH ==> f.done)
  {
    assert FeedsKept(Begin(s.cursor, s.history));
    forall f | f in s.cursor.feeds ensures f.nextPage <= RECOVERY_DEPTH && (f.nextPage == RECOVERY_DEPTH ==> f.done) {
      var i :| 0 <= i < |s.cursor.feeds| && s.cursor.feeds[i] == f;
      assert FeedKept(f, s.history[i], i);
    }
  }

  lemma FriendlyCallPays(urls: seq<string>, inputs: seq<Input>, input: Input)
    requires urls != [] && FriendlyCall(Calls(urls, inputs), input) && NeverStopped(input)
    ensures var s := Calls(urls, inputs);
            var t := CallOn(urls, s, input);
            && (Unfinished(s.cursor.feeds) ==> Potential(t.cursor.feeds) < Potential(s.cursor.feeds))
            && (!Unfinished(s.cursor.feeds) ==> !Unfinished(t.cursor.feeds))
  {
    var s := Calls(urls, inputs);
    NoFeedPageIsSkipped(urls, inputs);
    CallKeeps(urls, s, input);
    var c := Begin(s.cursor, s.history);
    hide Calls, CallOn, Turn, Kept, Potential, Drive, Friendly;
    DrivePays(input, c, s.past);
    if Unfinished(s.cursor.feeds) {
      CallProgresses(input, c);
    } else {
      DriveStep(input, c);
    }
  }

  // ----- what the validator alone does not ensure

  /** The cursor that a call stores. */
  function After(c: Cursor, input: Input): (next: Cursor)
    requires Runnable(c)
  {
    var d := Drive(input, Begin(c, NoHistory(c.feeds)));
    Cursor(d.feedIndex, d.feeds)
  }

  predicate IsShallow(f: Feed) {
    f.nextPage <= RECOVERY_DEPTH && (f.nextPage == RECOVERY_DEPTH ==> f.done)
  }

  /** No feed is at the depth limit without being done. */
  predicate Shallow(feeds: seq<Feed>) {
    forall i :: 0 <= i < |feeds| ==> IsShallow(feeds[i])
  }

  /** The validator takes a stored cursor back unchanged exactly when it fits the configured feeds. */
  lemma RestoredExactlyWhenFits(c: Cursor, urls: seq<string>)
    requires urls != []
    ensures Restore(Store(c), urls) == Restored(c) <==> Fits(c, urls)
  {
    if Fits(c, urls) {
      StoredCursorIsRestored(c, urls);
    }
    if Restore(Store(c), urls) == Restored(c) {
      RestoredFits(Store(c), urls);
    }
  }

  lemma RestoredFits(value: Json, urls: seq<string>)
    requires urls != [] && Restore(value, urls).Restored?
    ensures Fits(Restore(value, urls).cursor, urls)
  {
    var feeds := Field(value, "feeds");
    if feeds.JArr? && |feeds.items| == |urls| && CheckFeeds(feeds.items, urls) == Yes {
      ReadFeedsFit(feeds.items, urls);
    }
  }

  lemma {:induction false} ReadFeedsFit(items: seq<Json>, urls: seq<string>)
    requires |items| == |urls| && CheckFeeds(items, urls) == Yes
    ensures var feeds := ReadFeeds(items, urls);
            && |feeds| == |urls|
            && forall i :: 0 <= i < |urls| ==> feeds[i].url == urls[i] && feeds[i].nextPage <= RECOVERY_DEPTH
  {
    if items != [] {
      ReadFeedsFit(items[1..], urls[1..]);
    }
  }

  lemma TurnKeepsShallow(input: Input, c: Call)
    requires c.feeds != [] && Indexed(c) && Shallow(c.feeds)
    ensures Shallow(Turn(input, c).feeds)
  {
    hide AllIn, NextIndex, AnchorCount;
    TouchesOnlyCurrent(input, c);
    var d, index := Turn(input, c), c.feedIndex;
    assert IsShallow(c.feeds[index]);
    forall i | 0 <= i < |d.feeds| ensures IsShallow(d.feeds[i]) {
      if i != index {
        assert IsShallow(c.feeds[i]);
      }
    }
  }

  lemma {:induction false} DriveKeepsShallow(input: Input, c: Call)
    requires Indexed(c) && Shallow(c.feeds)
    ensures Shallow(Drive(input, c).feeds)
    decreases RequestsLeft(input, c), Distance(c)
  {
    hide Turn, Guard, Distance, RequestsLeft, Shallow;
    DriveStep(input, c);
    if Guard(input, c) {
      TurnDescends(input, c);
      GuardedIsNonempty(input, c);
      TurnKeepsShallow(input, c);
      DriveKeepsShallow(input, Turn(input, c));
    }
  }

  lemma {:induction false} DoneFeedRests(input: Input, c: Call, i: nat)
    requires Indexed(c) && i < |c.feeds| && c.feeds[i].done
    ensures Drive(input, c).feeds[i] == c.feeds[i]
    decreases RequestsLeft(input, c), Distance(c)
  {
    hide Turn, Guard, Distance, RequestsLeft;
    DriveStep(input, c);
    if Guard(input, c) {
      TurnDescends(input, c);
      TouchesOnlyCurrent(input, c);
      DoneFeedRests(input, Turn(input, c), i);
    }
  }

  /** An upstream where the one feed still holds what was saved from it and has more to show, and all others have ended. */
  function MoreOf(j: nat, saved: seq<string>, n: nat): (input: Input) {
    Input({}, n + 2, (turn: nat) => true,
      (k: nat, feed: nat, page: nat) => PageResult(if feed == j then saved + ["next"] else [], true, false))
  }

  /** How many turns the round robin is away from a feed. */
  function Away(c: Call, j: nat): (d: nat)
    requires Indexed(c) && j < |c.feeds|
  {
    if j >= c.feedIndex then j - c.feedIndex else j - c.feedIndex + |c.feeds|
  }

  /** Feed j is open at some depth and unread in this call, with requests enough to come round to it. */
  predicate OnTheWay(c: Call, j: nat, page: nat, saved: seq<string>, n: nat) {
    && Indexed(c) && j < |c.feeds| && j !in c.validated && !c.stopped
    && !c.feeds[j].done && c.feeds[j].nextPage == page && c.feeds[j].overlapIds == saved
    && |c.log| + Away(c, j) <= n
  }

  lemma NotYetThere(c: Call, j: nat, page: nat, saved: seq<string>, n: nat)
    requires OnTheWay(c, j, page, saved, n) && c.feedIndex != j
    ensures Guard(MoreOf(j, saved, n), c)
    ensures var d := Turn(MoreOf(j, saved, n), c); OnTheWay(d, j, page, saved, n) && Away(d, j) < Away(c, j)
  {
    hide AllIn, Advanced;
    assert Unfinished(c.feeds);
  }

  /** Arrived, the feed is read one page back and then one page on. */
  lemma ReadsOn(c: Call, j: nat, page: nat, saved: seq<string>, n: nat)
    requires OnTheWay(c, j, page, saved, n) && c.feedIndex == j && page > 0
    ensures var input := MoreOf(j, saved, n);
            && Guard(input, c)
            && var d := Turn(input, c);
               && Guard(input, d)
               && d.feeds[j].nextPage == page && Turn(input, d).feeds[j].nextPage == page + 1
  {
    assert Unfinished(c.feeds);
    assert AllIn(saved, saved + ["next"]);
    var input := MoreOf(j, saved, n);
    var d := Turn(input, c);
    assert d.feeds == c.feeds && d.feedIndex == j && j in d.validated && |d.log| == |c.log| + 1;
    assert Unfinished(d.feeds);
  }

  lemma {:induction false} DriveReadsOn(c: Call, j: nat, page: nat, saved: seq<string>, n: nat)
    requires OnTheWay(c, j, page, saved, n) && page >= RECOVERY_DEPTH
    ensures Drive(MoreOf(j, saved, n), c).feeds[j].nextPage == page + 1
    decreases Away(c, j)
  {
    var input := MoreOf(j, saved, n);
    hide Turn, Guard, MoreOf;
    DriveStep(input, c);
    if c.feedIndex != j {
      NotYetThere(c, j, page, saved, n);
      DriveReadsOn(Turn(input, c), j, page, saved, n);
    } else {
      ReadsOn(c, j, page, saved, n);
      var d := Turn(input, c);
      DriveStep(input, d);
      TooDeepIsDone(input, d, j, page);
      DoneFeedRests(input, Turn(input, d), j);
    }
  }

  lemma TooDeepIsDone(input: Input, c: Call, j: nat, page: nat)
    requires c.feeds != [] && Indexed(c) && j < |c.feeds| && page >= RECOVERY_DEPTH
    requires c.feeds[j].nextPage == page && Turn(input, c).feeds[j].nextPage == page + 1
    ensures Turn(input, c).feeds[j].done
  {
    hide AllIn, NextIndex, AnchorCount;
    TouchesOnlyCurrent(input, c);
  }

  /**
   * For every accepted cursor: all cursors that a next call can store are
   * accepted unchanged exactly when no feed is at the depth limit without being
   * done, and then the same holds of what is stored.
   */
  lemma AcceptedExactlyWhenShallow(c: Cursor, urls: seq<string>)
    requires Fits(c, urls)
    ensures (forall input: Input :: Restore(Store(After(c, input)), urls) == Restored(After(c, input))) <==> Shallow(c.feeds)
    ensures Shallow(c.feeds) ==> forall input: Input :: Shallow(After(c, input).feeds)
  {
    hide Store, Restore, Drive;
    if Shallow(c.feeds) {
      forall input: Input ensures Restore(Store(After(c, input)), urls) == Restored(After(c, input)) && Shallow(After(c, input).feeds) {
        var start := Begin(c, NoHistory(c.feeds));
        DriveKeepsShallow(input, start);
        DriveKeepsUrls(input, start);
        assert forall i :: 0 <= i < |urls| ==> IsShallow(After(c, input).feeds[i]);
        RestoredExactlyWhenFits(After(c, input), urls);
      }
    } else {
      var j :| 0 <= j < |c.feeds| && !IsShallow(c.feeds[j]);
      var input := MoreOf(j, c.feeds[j].overlapIds, |c.feeds|);
      DriveReadsOn(Begin(c, NoHistory(c.feeds)), j, RECOVERY_DEPTH, c.feeds[j].overlapIds, |c.feeds|);
      assert After(c, input).feeds[j].nextPage == RECOVERY_DEPTH + 1;
      RestoredExactlyWhenFits(After(c, input), urls);
    }
  }

  const ONE_URL := ["u"]

  /** A stored cursor at the depth limit that does not say it is done. */
  const PAST_DEPTH := Cursor(0, [Feed("u", RECOVERY_DEPTH, ["a"], false, None)])

  /**
   * Such a cursor is accepted; a call then commits page 50 and stores depth 51,
   * which the next call rejects, so that the whole catch-up starts over.
   */
  lemma ValidatorAdmitsTooDeep()
    ensures Restore(Store(PAST_DEPTH), ONE_URL) == Restored(PAST_DEPTH)
    ensures var next := After(PAST_DEPTH, MoreOf(0, ["a"], 1));
            && next.feeds[0].nextPage == RECOVERY_DEPTH + 1
            && Restore(Store(next), ONE_URL) == Restored(FreshCursor(ONE_URL))
  {
    StoredCursorIsRestored(PAST_DEPTH, ONE_URL);
    DriveReadsOn(Begin(PAST_DEPTH, NoHistory(PAST_DEPTH.feeds)), 0, RECOVERY_DEPTH, ["a"], 1);
    hide Store, Restore, Drive;
    var next := After(PAST_DEPTH, MoreOf(0, ["a"], 1));
    DriveKeepsUrls(MoreOf(0, ["a"], 1), Begin(PAST_DEPTH, NoHistory(PAST_DEPTH.feeds)));
    TooDeepIsRejected(next);
  }

  lemma TooDeepIsRejected(c: Cursor)
    requires |c.feeds| == 1 && c.feeds[0].nextPage > RECOVERY_DEPTH
    ensures Restore(Store(c), ONE_URL) == Restored(FreshCursor(ONE_URL))
  {
    var j := StoreFeed(c.feeds[0]);
    assert (c.feeds[0].nextPage as real).Floor == c.feeds[0].nextPage;
    assert CheckFeed(j, "u") == No;
    assert Field(Store(c), "feeds").items == [j];
  }
}
