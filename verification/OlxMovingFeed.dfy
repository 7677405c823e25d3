/**
 * What reread pages say about a feed that moves under the scan. The feed is a
 * list that other people edit one entry at a time; page k holds its entries
 * from (k - 1) * size on. Recovery reads page 1, then page 2, and so on, and
 * rereads each page after the next one.
 */
module OlxMovingFeed {
  import opened Ordering

  /** One edit: an entry is placed or taken away, and those behind it move by one. */
  ghost predicate Edited(before: seq<string>, after: seq<string>) {
    || after == before
    || (exists at, id :: 0 <= at <= |before| && after == Placed(before, at, id))
    || (exists at :: 0 <= at < |before| && after == Taken(before, at))
  }

  function Placed(feed: seq<string>, at: int, id: string): (r: seq<string>)
    requires 0 <= at <= |feed|
  {
    feed[..at] + [id] + feed[at..]
  }

  function Taken(feed: seq<string>, at: int): (r: seq<string>)
    requires 0 <= at < |feed|
  {
    feed[..at] + feed[at + 1..]
  }

  /** The feed at each moment; an advert is in it at most once. */
  ghost predicate Moving(trace: seq<seq<string>>) {
    && (forall t :: 0 <= t < |trace| ==> Distinct(trace[t]))
    && (forall t :: 0 < t < |trace| ==> Edited(trace[t - 1], trace[t]))
  }

  predicate At(feed: seq<string>, p: int, id: string) {
    0 <= p < |feed| && feed[p] == id
  }

  predicate OnPage(feed: seq<string>, size: nat, k: nat, id: string) {
    exists p :: At(feed, p, id) && (k - 1) * size <= p < k * size
  }

  /** From one moment to another the page never gains or loses an advert. */
  ghost predicate Steady(trace: seq<seq<string>>, size: nat, k: nat, start: nat, end: nat)
    requires start <= end < |trace|
  {
    forall t, id :: start <= t <= end ==> (OnPage(trace[t], size, k, id) <==> OnPage(trace[start], size, k, id))
  }

  lemma MovesByOne(before: seq<string>, after: seq<string>, p: int, q: int, id: string)
    requires Distinct(before) && Distinct(after) && Edited(before, after)
    requires At(before, p, id) && At(after, q, id)
    ensures p - 1 <= q <= p + 1
  {
    if at, new' :| 0 <= at <= |before| && after == Placed(before, at, new') {
      PlacedMoves(before, at, new', p);
      assert after[q] == id;
    } else if at :| 0 <= at < |before| && after == Taken(before, at) {
      TakenMoves(before, at, q);
      assert after[q] == id;
    }
  }

  lemma PlacedMoves(feed: seq<string>, at: int, new': string, p: int)
    requires 0 <= at <= |feed| && 0 <= p < |feed|
    ensures var q := if p < at then p else p + 1; At(Placed(feed, at, new'), q, feed[p])
  {
  }

  lemma TakenMoves(feed: seq<string>, at: int, q: int)
    requires 0 <= at < |feed| && 0 <= q < |feed| - 1
    ensures var p := if q < at then q else q + 1; p < |feed| && At(Taken(feed, at), q, feed[p])
  {
  }

  /** An advert that is behind a steady page stays behind it: it cannot pass without appearing on it. */
  lemma {:induction false} StaysBehind(trace: seq<seq<string>>, size: nat, k: nat, start: nat, end: nat, id: string, p: int) returns (q: int)
    requires Moving(trace) && size > 0 && k > 0 && start <= end < |trace|
    requires Steady(trace, size, k, start, end)
    requires forall t :: start <= t <= end ==> id in trace[t]
    requires At(trace[start], p, id) && p >= k * size
    ensures At(trace[end], q, id) && q >= k * size
    decreases end - start
  {
    if start == end {
      q := p;
    } else {
      var r := StaysBehind(trace, size, k, start, end - 1, id, p);
      assert id in trace[end] && Edited(trace[end - 1], trace[end]);
      NotOnPage(trace[start], size, k, id, p);
      assert !OnPage(trace[end], size, k, id);
      q := StepsBehind(trace[end - 1], trace[end], size, k, id, r);
    }
  }

  lemma StepsBehind(before: seq<string>, after: seq<string>, size: nat, k: nat, id: string, r: int) returns (q: int)
    requires Distinct(before) && Distinct(after) && Edited(before, after) && size > 0 && k > 0
    requires At(before, r, id) && r >= k * size && id in after && !OnPage(after, size, k, id)
    ensures At(after, q, id) && q >= k * size
  {
    q :| 0 <= q < |after| && after[q] == id;
    assert At(after, q, id);
    hide Edited, Distinct;
    MovesByOne(before, after, r, q, id);
    if q < k * size {
      JustBefore(size, k, q);
      assert false;
    }
  }

  lemma JustBefore(size: nat, k: nat, q: int)
    requires size > 0 && k > 0 && q == k * size - 1
    ensures (k - 1) * size <= q
  {
    assert (k - 1) * size == k * size - size;
  }

  lemma NotOnPage(feed: seq<string>, size: nat, k: nat, id: string, p: int)
    requires Distinct(feed) && At(feed, p, id) && p >= k * size
    ensures !OnPage(feed, size, k, id)
  {
  }

  /** Some page shows the advert at the moment it is read. */
  ghost predicate IsRead(trace: seq<seq<string>>, size: nat, times: seq<nat>, id: string)
    requires forall k :: 0 <= k < |times| ==> times[k] < |trace|
  {
    exists k :: 0 <= k < |times| && OnPage(trace[times[k]], size, k + 1, id)
  }

  /** Page k + 1 is read at the moment times[k], in this order, and keeps its adverts until the next page has been read. */
  ghost predicate Chained(trace: seq<seq<string>>, size: nat, times: seq<nat>) {
    && (forall k :: 0 <= k < |times| ==> times[k] < |trace|)
    && (forall k :: 0 < k < |times| ==> times[k - 1] <= times[k] && Steady(trace, size, k, times[k - 1], times[k]))
  }

  lemma {:induction false} ReadInOrder(trace: seq<seq<string>>, size: nat, times: seq<nat>, k: nat)
    requires Chained(trace, size, times) && k < |times|
    ensures times[0] <= times[k]
    decreases k
  {
    if k > 0 {
      ReadInOrder(trace, size, times, k - 1);
    }
  }

  /**
   * No advert that stays in the feed is lost: over every sequence of edits, if
   * each page keeps its adverts until the next one is read, then an advert that is in the
   * feed all the while has been read, or lies behind the last page read.
   */
  lemma {:induction false} EveryStayingAdvertIsRead(trace: seq<seq<string>>, size: nat, times: seq<nat>, id: string) returns (p: int)
    requires Moving(trace) && size > 0 && times != [] && Chained(trace, size, times)
    requires forall t :: times[0] <= t <= times[|times| - 1] && t < |trace| ==> id in trace[t]
    ensures At(trace[times[|times| - 1]], p, id)
    ensures IsRead(trace, size, times, id) || p >= |times| * size
    decreases |times|
  {
    var n := |times| - 1;
    ReadInOrder(trace, size, times, n);
    var now := trace[times[n]];
    if n == 0 {
      p :| 0 <= p < |now| && now[p] == id;
      assert At(now, p, id);
      if p < size {
        assert (1 - 1) * size <= p < 1 * size;
        assert OnPage(now, size, 1, id);
      }
    } else {
      var earlier := times[..n];
      ReadInOrder(trace, size, times, n - 1);
      assert Chained(trace, size, earlier);
      var r := EveryStayingAdvertIsRead(trace, size, earlier, id);
      if IsRead(trace, size, earlier, id) {
        var k :| 0 <= k < n && OnPage(trace[earlier[k]], size, k + 1, id);
        assert OnPage(trace[times[k]], size, k + 1, id);
        p :| 0 <= p < |now| && now[p] == id;
      } else {
        p := StaysBehind(trace, size, n, times[n - 1], times[n], id, r);
        if p < (n + 1) * size {
          assert OnPage(now, size, n + 1, id);
        }
      }
    }
  }

  // ----- a page that changes and changes back

  const FULL := ["a", "x", "y"]
  const WITHOUT_A := ["x", "y"]
  const PASSING: seq<seq<string>> := [FULL, WITHOUT_A, FULL]

  /**
   * Comparing a page only at its two reads is weaker: its first advert leaves
   * while page 2 is read and is placed again before page 1 is reread. Page 1 then shows
   * exactly what it showed, every page was read, and yet "x" never was.
   */
  lemma ChangedBackIsMissed()
    ensures Moving(PASSING)
    ensures forall id :: OnPage(PASSING[0], 1, 1, id) <==> OnPage(PASSING[2], 1, 1, id)
    ensures forall t :: 0 <= t < 3 ==> "x" in PASSING[t]
    ensures !IsRead(PASSING, 1, [0, 1], "x") && At(PASSING[2], 1, "x")
  {
    ThreeDiffer();
    PassingEdits();
    PageOne();
    PageTwo();
    hide OnPage, Edited, Distinct;
    assert FULL[1] == "x" && WITHOUT_A[0] == "x";
  }

  lemma PassingEdits()
    ensures Distinct(FULL) && Distinct(WITHOUT_A) && Edited(FULL, WITHOUT_A) && Edited(WITHOUT_A, FULL)
  {
    ThreeDiffer();
    assert WITHOUT_A == Taken(FULL, 0) && FULL == Placed(WITHOUT_A, 0, "a");
  }

  lemma PageOne()
    ensures !OnPage(FULL, 1, 1, "x")
  {
    ThreeDiffer();
  }

  lemma PageTwo()
    ensures !OnPage(WITHOUT_A, 1, 2, "x")
  {
    ThreeDiffer();
  }

  lemma ThreeDiffer()
    ensures "a" != "x" && "x" != "y" && "a" != "y"
  {
    assert "a"[0] != "x"[0] && "x"[0] != "y"[0] && "a"[0] != "y"[0];
  }
}
