/**
 * Single-flight sharing of feed requests: concurrent calls for the same key
 * wait for one fetch, and only its owner removes it from the pending map.
 */
module FeedSharing {
  import opened Maybe

  datatype Outcome = Success(requestCount: nat) | Rejected

  /** A request that was issued; `owner` is the call that issued it. */
  datatype Fetch = Fetch(key: string, owner: nat, outcome: Option<Outcome>)

  /** A call of sharePendingFeedRequest; `delivered` is the request count it returned, if it returned. */
  datatype Caller = Caller(key: string, fetch: nat, resumed: bool, delivered: Option<nat>)

  datatype State = State(pending: map<string, nat>, fetches: seq<Fetch>, callers: seq<Caller>, shared: nat)

  /** The points at which the event loop may interleave: a call runs to its await, a fetch settles, a waiting call goes on. */
  datatype Event = Call(key: string) | Settle(fetch: nat, outcome: Outcome) | Resume(caller: nat)

  const IDLE := State(map[], [], [], 0)

  predicate CanResume(s: State, c: nat) {
    && c < |s.callers| && !s.callers[c].resumed
    && s.callers[c].fetch < |s.fetches| && s.fetches[s.callers[c].fetch].outcome.Some?
  }

  function Delivery(s: State, c: nat): (d: Option<nat>)
    requires CanResume(s, c)
  {
    var fetch := s.fetches[s.callers[c].fetch];
    if fetch.outcome.value.Rejected? then None
    else Some(if fetch.owner == c then fetch.outcome.value.requestCount else 0)
  }

  function Step(s: State, e: Event): (t: State) {
    match e
    case Call(key) =>
      if key in s.pending then
        s.(callers := s.callers + [Caller(key, s.pending[key], false, None)], shared := s.shared + 1)
      else
        State(s.pending[key := |s.fetches|], s.fetches + [Fetch(key, |s.callers|, None)],
          s.callers + [Caller(key, |s.fetches|, false, None)], s.shared)
    case Settle(f, outcome) =>
      if f < |s.fetches| && s.fetches[f].outcome.None?
      then s.(fetches := s.fetches[f := s.fetches[f].(outcome := Some(outcome))])
      else s
    case Resume(c) =>
      if CanResume(s, c) then
        var caller := s.callers[c];
        var cleanup := s.fetches[caller.fetch].owner == c && caller.key in s.pending && s.pending[caller.key] == caller.fetch;
        s.(callers := s.callers[c := caller.(resumed := true, delivered := Delivery(s, c))],
           pending := if cleanup then s.pending - {caller.key} else s.pending)
      else s
  }

  function Run(events: seq<Event>): (s: State) {
    if events == [] then IDLE else Step(Run(events[..|events| - 1]), events[|events| - 1])
  }

  /** The module's map and counter; promises and waiting calls are ghost. */
  class PendingRequests {
    var pendingFeedRequests: map<string, nat>
    var sharedFeedRequests: nat
    ghost var fetches: seq<Fetch>
    ghost var callers: seq<Caller>

    ghost function View(): (s: State)
      reads this
    {
      State(pendingFeedRequests, fetches, callers, sharedFeedRequests)
    }

    constructor ()
      ensures View() == IDLE
    {
      pendingFeedRequests, sharedFeedRequests, fetches, callers := map[], 0, [], [];
    }

    /** The part before the await; `fresh'` names the promise a new fetch would have. */
    method Subscribe(key: string, fresh': nat) returns (promise: nat, existing: bool)
      requires fresh' == |fetches|
      modifies this
      ensures View() == Step(old(View()), Call(key))
      ensures promise == View().callers[|View().callers| - 1].fetch
      ensures existing == (key in old(pendingFeedRequests))
    {
      existing := key in pendingFeedRequests;
      promise := if existing then pendingFeedRequests[key] else fresh';
      if existing {
        sharedFeedRequests := sharedFeedRequests + 1;
      } else {
        pendingFeedRequests := pendingFeedRequests[key := promise];
        fetches := fetches + [Fetch(key, |callers|, None)];
      }
      callers := callers + [Caller(key, promise, false, None)];
    }

    /** The part after the await, with the owner's cleanup in its finally block. */
    method Continue(ghost caller: nat, key: string, promise: nat, existing: bool, outcome: Outcome)
      returns (delivered: Option<nat>)
      requires CanResume(View(), caller)
      requires callers[caller].key == key && callers[caller].fetch == promise
      requires existing == (fetches[promise].owner != caller) && fetches[promise].outcome == Some(outcome)
      modifies this
      ensures View() == Step(old(View()), Resume(caller))
      ensures delivered == View().callers[caller].delivered
    {
      delivered := if outcome.Rejected? then None else Some(if existing then 0 else outcome.requestCount);
      if !existing && key in pendingFeedRequests && pendingFeedRequests[key] == promise {
        pendingFeedRequests := pendingFeedRequests - {key};
      }
      callers := callers[caller := callers[caller].(resumed := true, delivered := delivered)];
    }
  }

  // ----- invariants

  /** The owner of the fetch has not cleaned up yet. */
  predicate Live(s: State, f: nat) {
    f < |s.fetches| && s.fetches[f].owner < |s.callers| && !s.callers[s.fetches[f].owner].resumed
  }

  predicate FetchKept(s: State, f: nat)
    requires f < |s.fetches|
  {
    var fetch := s.fetches[f];
    && fetch.owner < |s.callers|
    && s.callers[fetch.owner].fetch == f && s.callers[fetch.owner].key == fetch.key
    && (Live(s, f) ==> fetch.key in s.pending && s.pending[fetch.key] == f)
  }

  predicate CallerKept(s: State, c: nat)
    requires c < |s.callers|
  {
    var caller := s.callers[c];
    && caller.fetch < |s.fetches|
    && s.fetches[caller.fetch].key == caller.key
    && (!caller.resumed ==> caller.delivered.None?)
    && (caller.resumed ==>
          var fetch := s.fetches[caller.fetch];
          && fetch.outcome.Some?
          && caller.delivered == if fetch.outcome.value.Rejected? then None
                                 else Some(if fetch.owner == c then fetch.outcome.value.requestCount else 0))
  }

  predicate PendingKept(s: State, key: string)
    requires key in s.pending
  {
    Live(s, s.pending[key]) && s.fetches[s.pending[key]].key == key
  }

  ghost predicate Kept(s: State) {
    && (forall f :: 0 <= f < |s.fetches| ==> FetchKept(s, f))
    && (forall c :: 0 <= c < |s.callers| ==> CallerKept(s, c))
    && (forall key :: key in s.pending ==> PendingKept(s, key))
    && |s.callers| == |s.fetches| + s.shared
  }

  lemma CallKeeps(s: State, key: string)
    requires Kept(s)
    ensures Kept(Step(s, Call(key)))
  {
    var t := Step(s, Call(key));
    forall f | 0 <= f < |t.fetches| ensures FetchKept(t, f) {
      if f < |s.fetches| {
        assert FetchKept(s, f);
      }
    }
    forall c | 0 <= c < |t.callers| ensures CallerKept(t, c) {
      if c < |s.callers| {
        assert CallerKept(s, c);
      } else if key in s.pending {
        assert PendingKept(s, key);
      }
    }
    forall k | k in t.pending ensures PendingKept(t, k) {
      if k in s.pending {
        assert PendingKept(s, k);
      }
    }
  }

  lemma SettleKeeps(s: State, f: nat, outcome: Outcome)
    requires Kept(s)
    ensures Kept(Step(s, Settle(f, outcome)))
  {
    var t := Step(s, Settle(f, outcome));
    forall g | 0 <= g < |t.fetches| ensures FetchKept(t, g) {
      assert FetchKept(s, g);
    }
    forall c | 0 <= c < |t.callers| ensures CallerKept(t, c) {
      assert CallerKept(s, c);
    }
    forall k | k in t.pending ensures PendingKept(t, k) {
      assert PendingKept(s, k);
    }
  }

  lemma ResumeKeeps(s: State, c: nat)
    requires Kept(s) && CanResume(s, c)
    ensures Kept(Step(s, Resume(c)))
  {
    var t := Step(s, Resume(c));
    assert CallerKept(s, c);
    forall f | 0 <= f < |t.fetches| ensures FetchKept(t, f) {
      assert FetchKept(s, f);
      assert FetchKept(s, s.callers[c].fetch);
    }
    forall d | 0 <= d < |t.callers| ensures CallerKept(t, d) {
      assert CallerKept(s, d);
    }
    forall k | k in t.pending ensures PendingKept(t, k) {
      assert PendingKept(s, k);
      assert FetchKept(s, s.pending[k]);
    }
  }

  /**
   * Under every interleaving: each call either issued a fetch or joined one;
   * a pending entry always names a fetch of its own key whose owner is still
   * waiting; and every fetch whose owner is waiting is the pending one.
   */
  lemma {:induction false} EveryInterleavingIsKept(events: seq<Event>)
    ensures Kept(Run(events))
    ensures |Run(events).callers| == |Run(events).fetches| + Run(events).shared
  {
    if events != [] {
      hide Step, Kept, CanResume;
      var s, e := Run(events[..|events| - 1]), events[|events| - 1];
      EveryInterleavingIsKept(events[..|events| - 1]);
      StepKeeps(s, e);
      KeptBalances(Run(events));
    }
  }

  lemma KeptBalances(s: State)
    requires Kept(s)
    ensures |s.callers| == |s.fetches| + s.shared
  {
  }

  lemma StepKeeps(s: State, e: Event)
    requires Kept(s)
    ensures Kept(Step(s, e))
  {
    hide Kept;
    match e {
      case Call(key) => CallKeeps(s, key);
      case Settle(f, outcome) => SettleKeeps(s, f, outcome);
      case Resume(c) =>
        if CanResume(s, c) {
          ResumeKeeps(s, c);
        }
    }
  }

  /** At most one fetch per key is live at any time. */
  lemma OneLiveFetchPerKey(events: seq<Event>, f: nat, g: nat)
    requires Live(Run(events), f) && Live(Run(events), g)
    requires Run(events).fetches[f].key == Run(events).fetches[g].key
    ensures f == g
  {
    var s := Run(events);
    EveryInterleavingIsKept(events);
    assert FetchKept(s, f) && FetchKept(s, g);
  }

  /** The guard of the owner's cleanup never fails: the entry it finds is its own, and it removes it. */
  lemma OwnerFindsItsOwnEntry(events: seq<Event>, c: nat)
    requires CanResume(Run(events), c)
    requires Run(events).fetches[Run(events).callers[c].fetch].owner == c
    ensures var s, t := Run(events), Step(Run(events), Resume(c));
            var key := s.callers[c].key;
            && key in s.pending && s.pending[key] == s.callers[c].fetch
            && t.pending == s.pending - {key}
  {
    var s := Run(events);
    EveryInterleavingIsKept(events);
    assert FetchKept(s, s.callers[c].fetch) && CallerKept(s, c);
  }

  /** Sum of the request counts returned so far by the callers of a fetch. */
  function Delivered(callers: seq<Caller>, f: nat): (n: nat) {
    if callers == [] then 0
    else
      var last := callers[|callers| - 1];
      Delivered(callers[..|callers| - 1], f) + if last.fetch == f && last.delivered.Some? then last.delivered.value else 0
  }

  lemma {:induction false} OnlyTheOwnerPays(s: State, f: nat, n: nat)
    requires Kept(s) && f < |s.fetches| && n <= |s.callers|
    ensures var owner := s.fetches[f].owner;
            && owner < |s.callers|
            && Delivered(s.callers[..n], f)
               == if owner < n && s.callers[owner].delivered.Some? then s.callers[owner].delivered.value else 0
  {
    assert FetchKept(s, f);
    if n > 0 {
      OnlyTheOwnerPays(s, f, n - 1);
      assert s.callers[..n][..n - 1] == s.callers[..n - 1];
      assert CallerKept(s, n - 1);
    }
  }

  /**
   * Request accounting balances: once a fetch has succeeded and its owner has
   * gone on, the counts returned to all its subscribers add up to its own
   * count, however many joined and in whatever order they went on; until then,
   * and for a rejected fetch, they add up to nothing.
   */
  lemma RequestCountsBalance(events: seq<Event>, f: nat)
    requires f < |Run(events).fetches|
    ensures var s := Run(events);
            var fetch := s.fetches[f];
            Delivered(s.callers, f)
            == if !Live(s, f) && fetch.outcome.Some? && fetch.outcome.value.Success? then fetch.outcome.value.requestCount else 0
  {
    var s := Run(events);
    EveryInterleavingIsKept(events);
    OnlyTheOwnerPays(s, f, |s.callers|);
    assert s.callers[..|s.callers|] == s.callers;
    assert FetchKept(s, f);
    assert CallerKept(s, s.fetches[f].owner);
  }

  /** A call never gets a stale response: the fetch it waits for is issued now, or its owner is still waiting. */
  lemma CallsJoinLiveFetches(events: seq<Event>, key: string)
    ensures var s, t := Run(events), Step(Run(events), Call(key));
            var f := t.callers[|s.callers|].fetch;
            && Live(t, f) && t.fetches[f].key == key
            && (f == |s.fetches| || (f < |s.fetches| && Live(s, f)))
            && ((forall g :: 0 <= g < |s.fetches| && s.fetches[g].key == key ==> !Live(s, g)) ==> f == |s.fetches|)
  {
    var s := Run(events);
    EveryInterleavingIsKept(events);
    CallKeeps(s, key);
    if key in s.pending {
      assert PendingKept(s, key);
    }
  }

  function Subscribers(s: State, f: nat): (cs: set<nat>) {
    set c | 0 <= c < |s.callers| && s.callers[c].fetch == f
  }

  /** After the owner's cleanup nobody joins the fetch any more. */
  lemma {:induction false} SettledFetchGainsNoSubscriber(before: seq<Event>, later: seq<Event>, f: nat)
    requires f < |Run(before).fetches| && !Live(Run(before), f)
    ensures var s, t := Run(before), Run(before + later);
            f < |t.fetches| && !Live(t, f) && Subscribers(t, f) == Subscribers(s, f)
  {
    if later == [] {
      assert before + later == before;
    } else {
      var n := |later| - 1;
      var all, most := before + later, before + later[..n];
      assert all[..|all| - 1] == most && all[|all| - 1] == later[n];
      SettledFetchGainsNoSubscriber(before, later[..n], f);
      EveryInterleavingIsKept(most);
      hide Kept, Run;
      StaysSettled(Run(most), later[n], f);
      assert Run(all) == Step(Run(most), later[n]) by {
        RunStep(all);
      }
    }
  }

  lemma RunStep(events: seq<Event>)
    requires events != []
    ensures Run(events) == Step(Run(events[..|events| - 1]), events[|events| - 1])
  {
  }

  lemma StaysSettled(s: State, e: Event, f: nat)
    requires Kept(s) && f < |s.fetches| && !Live(s, f)
    ensures var t := Step(s, e); f < |t.fetches| && !Live(t, f) && Subscribers(t, f) == Subscribers(s, f)
  {
    var t := Step(s, e);
    assert FetchKept(s, f);
    if e.Call? && e.key in s.pending {
      assert PendingKept(s, e.key);
    }
  }
}
