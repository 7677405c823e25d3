/**
 * Known-tail selection of AUTO.RIA candidates: new ids in feed order, up to a
 * limit, until a run of consecutive known ids shows that the feed is stable.
 */
module KnownTail {
  import opened Maybe
  import opened Ordering

  /** The last `tail` of the first k ids are all known. */
  predicate RunEndsAt(ids: seq<string>, known: set<string>, tail: nat, k: nat)
    requires k <= |ids|
  {
    tail <= k && forall j :: k - tail <= j < k ==> ids[j] in known
  }

  /** Length of the prefix that ends where the first run of `tail` known ids completes, counted from index i after `run` known ids. */
  function CutFrom(ids: seq<string>, known: set<string>, tail: nat, i: nat, run: nat): (cut: nat)
    requires i <= |ids|
    ensures i <= cut <= |ids|
    decreases |ids| - i
  {
    if i == |ids| then i
    else if ids[i] in known then
      if run + 1 >= tail then i + 1 else CutFrom(ids, known, tail, i + 1, run + 1)
    else CutFrom(ids, known, tail, i + 1, 0)
  }

  /** The distinct, nonempty, unknown ids in order of first appearance. */
  function NewIds(ids: seq<string>, known: set<string>): (r: seq<string>) {
    if ids == [] then []
    else
      var n := |ids| - 1;
      var rest := NewIds(ids[..n], known);
      if ids[n] != "" && ids[n] !in known && ids[n] !in rest then rest + [ids[n]] else rest
  }

  function Take(ids: seq<string>, n: nat): (r: seq<string>) {
    if |ids| <= n then ids else ids[..n]
  }

  function Selection(ids: seq<string>, known: set<string>, maxCandidates: int, threshold: int): (r: seq<string>) {
    Take(NewIds(ids[..CutFrom(ids, known, Max(1, threshold), 0, 0)], known), Max(0, maxCandidates))
  }

  /** selectAutoRiaCandidateIds: the loop with its early exits. */
  method SelectAutoRiaCandidateIds(ids: seq<string>, known: set<string>, maxCandidates: int, threshold: int)
    returns (selected: seq<string>)
    ensures selected == Selection(ids, known, maxCandidates, threshold)
  {
    selected := [];
    var knownTail := 0;
    var limit: nat, tailLimit: nat := Max(0, maxCandidates), Max(1, threshold);
    ghost var cut := CutFrom(ids, known, tailLimit, 0, 0);
    if limit == 0 {
      return;
    }
    assert ids[..0] == [];
    for i := 0 to |ids|
      invariant 0 <= knownTail < tailLimit
      invariant cut == CutFrom(ids, known, tailLimit, i, knownTail)
      invariant selected == NewIds(ids[..i], known) && |selected| < limit
    {
      assert ids[..i + 1][..i] == ids[..i];
      var id := ids[i];
      if id in known {
        knownTail := knownTail + 1;
        if knownTail >= tailLimit {
          return;
        }
        continue;
      }
      knownTail := 0;
      if id == "" || id in selected {
        continue;
      }
      selected := selected + [id];
      if |selected| >= limit {
        NewIdsGrow(ids, known, i + 1, cut);
        return;
      }
    }
    assert ids[..|ids|] == ids;
  }

  lemma {:induction false} NewIdsGrow(ids: seq<string>, known: set<string>, i: nat, j: nat)
    requires i <= j <= |ids|
    ensures var a, b := NewIds(ids[..i], known), NewIds(ids[..j], known);
            |a| <= |b| && b[..|a|] == a
    decreases j - i
  {
    if i < j {
      NewIdsGrow(ids, known, i, j - 1);
      assert ids[..j][..j - 1] == ids[..j - 1];
    }
  }

  /** The cut is where the first run completes: no earlier prefix ends in a run, and a shorter cut ends in one. */
  lemma CutIsFirstRun(ids: seq<string>, known: set<string>, tail: nat)
    requires tail >= 1
    ensures var cut := CutFrom(ids, known, tail, 0, 0);
            && (forall k :: 0 <= k < cut ==> !RunEndsAt(ids, known, tail, k))
            && (cut < |ids| ==> RunEndsAt(ids, known, tail, cut))
  {
    CutFromIsFirstRun(ids, known, tail, 0, 0);
  }

  lemma {:induction false} CutFromIsFirstRun(ids: seq<string>, known: set<string>, tail: nat, i: nat, run: nat)
    requires run < tail && run <= i <= |ids|
    requires forall j :: i - run <= j < i ==> ids[j] in known
    requires run < i ==> ids[i - run - 1] !in known
    ensures var cut := CutFrom(ids, known, tail, i, run);
            && (forall k :: i <= k < cut ==> !RunEndsAt(ids, known, tail, k))
            && (cut < |ids| ==> RunEndsAt(ids, known, tail, cut))
    decreases |ids| - i
  {
    assert !RunEndsAt(ids, known, tail, i) by {
      if tail <= i {
        assert i - tail <= i - run - 1 < i;
      }
    }
    if i < |ids| && ids[i] in known && run + 1 < tail {
      CutFromIsFirstRun(ids, known, tail, i + 1, run + 1);
    } else if i < |ids| && ids[i] !in known {
      CutFromIsFirstRun(ids, known, tail, i + 1, 0);
    }
  }

  lemma {:induction false} NewIdsAre(ids: seq<string>, known: set<string>)
    ensures Distinct(NewIds(ids, known))
    ensures forall id :: id in NewIds(ids, known) <==> id in ids && id != "" && id !in known
  {
    if ids != [] {
      var n := |ids| - 1;
      NewIdsAre(ids[..n], known);
      assert ids == ids[..n] + [ids[n]];
    }
  }

  /**
   * What is selected: distinct, nonempty, unknown ids from before the cut, at
   * most the limit, and every such id unless the limit is used up.
   */
  lemma SelectionIsComplete(ids: seq<string>, known: set<string>, maxCandidates: int, threshold: int)
    ensures var r, cut := Selection(ids, known, maxCandidates, threshold), CutFrom(ids, known, Max(1, threshold), 0, 0);
            && Distinct(r) && |r| <= Max(0, maxCandidates)
            && (forall id :: id in r ==> id in ids[..cut] && id != "" && id !in known)
            && (|r| < Max(0, maxCandidates) ==> forall id :: id in ids[..cut] && id != "" && id !in known ==> id in r)
  {
    var cut := CutFrom(ids, known, Max(1, threshold), 0, 0);
    NewIdsAre(ids[..cut], known);
  }

  /** Where an id appears first. */
  function FirstAt(ids: seq<string>, id: string): (i: nat)
    requires id in ids
    ensures i < |ids| && ids[i] == id && forall j :: 0 <= j < i ==> ids[j] != id
  {
    if ids[0] == id then 0 else 1 + FirstAt(ids[1..], id)
  }

  predicate Precedes(ids: seq<string>, x: string, y: string) {
    x in ids && y in ids && FirstAt(ids, x) < FirstAt(ids, y)
  }

  /** The elements come in the order of their first appearance in the feed. */
  predicate InOrder(ids: seq<string>, r: seq<string>) {
    forall a, b :: 0 <= a < b < |r| ==> Precedes(ids, r[a], r[b])
  }

  lemma {:induction false} NewIdsInOrder(ids: seq<string>, known: set<string>)
    ensures InOrder(ids, NewIds(ids, known))
  {
    if ids != [] {
      var n := |ids| - 1;
      var r, front := NewIds(ids, known), NewIds(ids[..n], known);
      NewIdsInOrder(ids[..n], known);
      NewIdsAre(ids[..n], known);
      hide Precedes;
      forall a, b | 0 <= a < b < |r| ensures Precedes(ids, r[a], r[b]) {
        assert r[a] == front[a] && front[a] in front;
        if b < |front| {
          assert r[b] == front[b] && Precedes(ids[..n], front[a], front[b]);
          PrefixPrecedes(ids, n, r[a], r[b]);
        } else {
          assert r[b] == ids[n];
          LastFollows(ids, r[a]);
        }
      }
    }
  }

  lemma FirstInPrefix(ids: seq<string>, n: nat, id: string)
    requires n <= |ids| && id in ids[..n]
    ensures id in ids && FirstAt(ids, id) == FirstAt(ids[..n], id) < n
  {
    var i := FirstAt(ids[..n], id);
    assert ids[i] == id && forall j :: 0 <= j < i ==> ids[j] == ids[..n][j];
  }

  lemma PrefixPrecedes(ids: seq<string>, n: nat, x: string, y: string)
    requires n <= |ids| && Precedes(ids[..n], x, y)
    ensures Precedes(ids, x, y)
  {
    FirstInPrefix(ids, n, x);
    FirstInPrefix(ids, n, y);
  }

  lemma LastFollows(ids: seq<string>, x: string)
    requires ids != [] && x in ids[..|ids| - 1] && ids[|ids| - 1] !in ids[..|ids| - 1]
    ensures Precedes(ids, x, ids[|ids| - 1])
  {
    var n := |ids| - 1;
    FirstInPrefix(ids, n, x);
    assert forall j :: 0 <= j < n ==> ids[..n][j] == ids[j];
  }

  /** The selected ids are the first ones: in the order of the feed, and no eligible id that appears before a selected one is left out. */
  lemma SelectionIsFirst(ids: seq<string>, known: set<string>, maxCandidates: int, threshold: int)
    ensures var r, prefix := Selection(ids, known, maxCandidates, threshold), ids[..CutFrom(ids, known, Max(1, threshold), 0, 0)];
            && InOrder(prefix, r)
            && (forall id, s :: id in prefix && id != "" && id !in known && s in r && Precedes(prefix, id, s) ==> id in r)
  {
    var prefix := ids[..CutFrom(ids, known, Max(1, threshold), 0, 0)];
    var r, all := Selection(ids, known, maxCandidates, threshold), NewIds(prefix, known);
    NewIdsAre(prefix, known);
    NewIdsInOrder(prefix, known);
    assert |r| <= |all| && r == all[..|r|];
    hide NewIds, CutFrom, Precedes, Selection;
    forall id, s | id in prefix && id != "" && id !in known && s in r && Precedes(prefix, id, s) ensures id in r {
      var a :| 0 <= a < |r| && r[a] == s;
      var b :| 0 <= b < |all| && all[b] == id;
      OrderDecides(prefix, all, a, b);
      assert r[b] == id;
    }
  }

  lemma OrderDecides(ids: seq<string>, r: seq<string>, a: nat, b: nat)
    requires InOrder(ids, r) && a < |r| && b < |r| && Precedes(ids, r[b], r[a])
    ensures b < a
  {
    hide Precedes;
    NotBoth(ids, r[b], r[a]);
  }

  lemma NotBoth(ids: seq<string>, x: string, y: string)
    ensures !(Precedes(ids, x, y) && (Precedes(ids, y, x) || x == y))
  {
  }

  /** A feed of known ids costs nothing. */
  lemma KnownFeedSelectsNothing(ids: seq<string>, known: set<string>, maxCandidates: int, threshold: int)
    requires forall id :: id in ids ==> id in known
    ensures Selection(ids, known, maxCandidates, threshold) == []
  {
    NothingNew(ids[..CutFrom(ids, known, Max(1, threshold), 0, 0)], known);
  }

  lemma {:induction false} NothingNew(ids: seq<string>, known: set<string>)
    requires forall id :: id in ids ==> id in known
    ensures NewIds(ids, known) == []
  {
    if ids != [] {
      NothingNew(ids[..|ids| - 1], known);
    }
  }
}
