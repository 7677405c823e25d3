/**
 * Recovery windows: operators acknowledge and re-arm unresolved windows, workers
 * report on their shard's windows, a new collector generation re-arms whole
 * shards, and the search plan derives what coverage is proved. Transactions
 * interleave step by step; a retry reads its window before it locks the shard,
 * and holds that lock until it commits.
 */
module RecoveryWindows {
  import opened Maybe

  datatype Status = Pending | Verified | Unresolved

  /** `rearmed` counts how often a window was re-armed, `concluded` how often a worker left it unresolved. */
  datatype Window = Window(
    shard: string,
    status: Status,
    requiredCutoff: int,
    detectedAt: int,
    acknowledgedBy: Option<string>,
    rearmed: nat,
    concluded: nat
  )

  datatype Shard = Shard(pending: bool, cutoff: Option<int>, progressPage: int, overlapPage: Option<int>)

  /** How far a retry transaction has come. */
  datatype Phase = Read | Locked | Transitioned | Measured(cutoff: Option<int>) | Committed | Refused

  /** `requiredCutoff` is what the retry read before it asked for the lock. */
  datatype Retry = Retry(window: string, shard: string, requiredCutoff: int, phase: Phase)

  datatype Store = Store(
    windows: map<string, Window>,
    shards: map<string, Shard>,
    locks: map<string, nat>,
    retries: seq<Retry>
  )

  datatype Lane = Realtime | Backfill | CoverageOnly

  /**
   * What a worker reports: `extra` is the oldest of a new request's safety cutoff
   * and the freshness cutoff of a shard that never succeeded; `boundary` stands in
   * where no cutoff is known; Pending as a verdict means neither conclusion.
   */
  datatype Report = Report(
    lane: Lane,
    newRequest: bool,
    extra: Option<int>,
    boundary: int,
    now: int,
    verdict: Status,
    progressPage: int,
    overlapPage: Option<int>
  )

  /**
   * `Write` names the oldest pending window of the shard, or the window it opens
   * when none is pending; `RearmShard` names the oldest of the windows it re-arms.
   */
  datatype Event =
    | Acknowledge(window: string, by': string)
    | Begin(window: string)
    | Lock(retry: nat)
    | Transition(retry: nat)
    | Measure(retry: nat)
    | Commit(retry: nat)
    | Write(shard: string, first: string, report: Report)
    | RearmShard(shard: string, eligible: set<string>, oldest: string)

  predicate InPhase(s: Store, r: nat, phase: Phase) {
    r < |s.retries| && s.retries[r].phase == phase
  }

  predicate Measuring(s: Store, r: nat) {
    r < |s.retries| && s.retries[r].phase.Measured?
  }

  /** The status row of a window is locked between a retry's conditional update and its commit. */
  predicate RowLocked(s: Store, window: string) {
    exists r :: 0 <= r < |s.retries| && s.retries[r].window == window
      && (s.retries[r].phase.Transitioned? || s.retries[r].phase.Measured?)
  }

  function Advance(s: Store, r: nat, phase: Phase): (t: Store)
    requires r < |s.retries|
  {
    s.(retries := s.retries[r := s.retries[r].(phase := phase)])
  }

  /** The oldest of the shard's own cutoff and the one the window requires. */
  function OlderCutoff(current: Option<int>, required: int): (c: int) {
    if current.Some? && current.value < required then current.value else required
  }

  function Oldest(a: Option<int>, b: Option<int>): (c: Option<int>) {
    if b.None? then a else Some(OlderCutoff(a, b.value))
  }

  function Rearmed(cutoff: int): (shard: Shard) {
    Shard(true, Some(cutoff), 1, None)
  }

  // ----- a worker's report

  predicate IsPending(s: Store, shard: string, id: string) {
    id in s.windows && s.windows[id].shard == shard && s.windows[id].status == Pending
  }

  /** First among the shard's pending windows, by required cutoff and then by detection. */
  predicate IsFirst(s: Store, shard: string, id: string) {
    && IsPending(s, shard, id)
    && forall other :: other in s.windows && IsPending(s, shard, other) ==>
         || s.windows[id].requiredCutoff < s.windows[other].requiredCutoff
         || (s.windows[id].requiredCutoff == s.windows[other].requiredCutoff && s.windows[id].detectedAt <= s.windows[other].detectedAt)
  }

  predicate Picks(s: Store, shard: string, id: string) {
    || IsFirst(s, shard, id)
    || (id !in s.windows && forall other :: other in s.windows ==> !IsPending(s, shard, other))
  }

  /** The report continues or starts a recovery. */
  predicate Asked(h: Shard, report: Report) {
    h.pending || report.newRequest
  }

  function Verdict(h: Shard, report: Report): (verdict: Status) {
    if Asked(h, report) && report.lane == Backfill then report.verdict else Pending
  }

  /** The cutoff a worker writes to the shard and to its oldest pending window. */
  function DurableCutoff(s: Store, shard: string, id: string, report: Report): (cutoff: int)
    requires shard in s.shards
  {
    var first := if id in s.windows then Some(s.windows[id].requiredCutoff) else None;
    var oldest := Oldest(Oldest(s.shards[shard].cutoff, first), report.extra);
    if oldest.Some? then oldest.value else report.boundary
  }

  /** All pending windows of a shard share the verdict; the first also takes the durable cutoff. */
  function Settled(windows: map<string, Window>, shard: string, first: string, durable: int, verdict: Status): (settled: map<string, Window>) {
    map id | id in windows ::
      var w := windows[id];
      if w.shard != shard || w.status != Pending then w
      else
        w.(status := verdict,
           requiredCutoff := if id == first then durable else w.requiredCutoff,
           acknowledgedBy := if id == first && verdict == Unresolved then None else w.acknowledgedBy,
           concluded := w.concluded + if verdict == Unresolved then 1 else 0)
  }

  function Written(s: Store, shard: string, first: string, report: Report): (t: Store)
    requires shard in s.shards
  {
    var h := s.shards[shard];
    if !Asked(h, report) then s.(shards := s.shards[shard := h.(pending := false, cutoff := None)])
    else
      var durable := DurableCutoff(s, shard, first, report);
      var verdict := Verdict(h, report);
      var windows := if first in s.windows then s.windows
                     else s.windows[first := Window(shard, Pending, durable, report.now, None, 0, 0)];
      var records := report.lane == Backfill || (report.lane == Realtime && !h.pending);
      var pending := verdict == Pending;
      var (page, overlap) :=
        if !h.pending && report.lane != Backfill then (1, None)
        else if report.lane == Backfill then (report.progressPage, report.overlapPage)
        else (h.progressPage, h.overlapPage);
      s.(windows := if records then Settled(windows, shard, first, durable, verdict) else windows,
         shards := s.shards[shard := Shard(pending, if pending then Some(durable) else None, page, overlap)])
  }

  // ----- re-arming a whole shard

  predicate Eligible(s: Store, shard: string, eligible: set<string>, oldest: string) {
    && oldest in eligible
    && (forall id :: id in eligible ==> id in s.windows && s.windows[id].shard == shard && s.windows[id].status != Verified)
    && (forall id :: id in s.windows && IsPending(s, shard, id) ==> id in eligible)
    && (forall id :: id in eligible ==> s.windows[oldest].requiredCutoff <= s.windows[id].requiredCutoff)
  }

  function RearmAll(windows: map<string, Window>, eligible: set<string>): (rearmed: map<string, Window>) {
    map id | id in windows ::
      var w := windows[id];
      if id !in eligible then w
      else w.(status := Pending, acknowledgedBy := None, rearmed := w.rearmed + if w.status == Unresolved then 1 else 0)
  }

  function Step(s: Store, e: Event): (t: Store) {
    match e
    case Acknowledge(id, by') =>
      if id in s.windows && s.windows[id].status == Unresolved && !RowLocked(s, id)
      then s.(windows := s.windows[id := s.windows[id].(acknowledgedBy := Some(by'))])
      else s
    case Begin(id) =>
      if id in s.windows && s.windows[id].status == Unresolved
      then s.(retries := s.retries + [Retry(id, s.windows[id].shard, s.windows[id].requiredCutoff, Read)])
      else s
    case Lock(r) =>
      if InPhase(s, r, Read) && s.retries[r].shard !in s.locks
      then Advance(s.(locks := s.locks[s.retries[r].shard := r]), r, Locked)
      else s
    case Transition(r) =>
      if !InPhase(s, r, Locked) then s
      else if s.retries[r].window in s.windows && s.windows[s.retries[r].window].status == Unresolved
      then Advance(s, r, Transitioned)
      else Advance(s.(locks := s.locks - {s.retries[r].shard}), r, Refused)
    case Measure(r) =>
      if !InPhase(s, r, Transitioned) then s
      else Advance(s, r, Measured(if s.retries[r].shard in s.shards then s.shards[s.retries[r].shard].cutoff else None))
    case Commit(r) =>
      if !Measuring(s, r) || s.retries[r].shard !in s.shards || s.retries[r].window !in s.windows then s
      else
        var retry := s.retries[r];
        var w := s.windows[retry.window];
        Advance(
          s.(windows := s.windows[retry.window := w.(status := Pending, acknowledgedBy := None, rearmed := w.rearmed + 1)],
             shards := s.shards[retry.shard := Rearmed(OlderCutoff(retry.phase.cutoff, retry.requiredCutoff))],
             locks := s.locks - {retry.shard}),
          r, Committed)
    case Write(shard, first, report) =>
      if shard in s.locks || shard !in s.shards || !Picks(s, shard, first) then s
      else Written(s, shard, first, report)
    case RearmShard(shard, eligible, oldest) =>
      if shard in s.locks || shard !in s.shards || !Eligible(s, shard, eligible, oldest) then s
      else
        s.(windows := RearmAll(s.windows, eligible),
           shards := s.shards[shard := Rearmed(OlderCutoff(s.shards[shard].cutoff, s.windows[oldest].requiredCutoff))])
  }

  function Run(s: Store, events: seq<Event>): (t: Store) {
    if events == [] then s else Step(Run(s, events[..|events| - 1]), events[|events| - 1])
  }

  // ----- what every step keeps

  predicate WindowSound(s: Store, id: string)
    requires id in s.windows
  {
    var w := s.windows[id];
    && w.shard in s.shards
    && (w.status == Pending ==> s.shards[w.shard].pending && s.shards[w.shard].cutoff.Some?)
    && w.rearmed + (if w.status == Unresolved then 1 else 0) <= w.concluded
  }

  predicate Holding(phase: Phase) {
    phase.Locked? || phase.Transitioned? || phase.Measured?
  }

  /** A window's required cutoff only gets older, so what a retry read is never older than it. */
  predicate RetrySound(s: Store, r: nat)
    requires r < |s.retries|
  {
    var retry := s.retries[r];
    && retry.window in s.windows
    && s.windows[retry.window].shard == retry.shard
    && s.windows[retry.window].requiredCutoff <= retry.requiredCutoff
    && (Holding(retry.phase) ==> retry.shard in s.locks && s.locks[retry.shard] == r)
    && (retry.phase.Transitioned? || retry.phase.Measured? ==> s.windows[retry.window].status == Unresolved)
    && (retry.phase.Measured? ==> retry.shard in s.shards && s.shards[retry.shard].cutoff == retry.phase.cutoff)
  }

  ghost predicate Sound(s: Store) {
    && (forall id :: id in s.windows ==> WindowSound(s, id))
    && (forall r :: 0 <= r < |s.retries| ==> RetrySound(s, r))
    && (forall shard :: shard in s.locks ==>
          s.locks[shard] < |s.retries| && s.retries[s.locks[shard]].shard == shard && Holding(s.retries[s.locks[shard]].phase))
  }

  lemma AcknowledgeIsSound(s: Store, id: string, by': string)
    requires Sound(s)
    ensures Sound(Step(s, Acknowledge(id, by')))
  {
    var t := Step(s, Acknowledge(id, by'));
    forall w | w in t.windows ensures WindowSound(t, w) {
      assert WindowSound(s, w);
    }
    forall r | 0 <= r < |t.retries| ensures RetrySound(t, r) {
      assert RetrySound(s, r);
    }
  }

  lemma BeginIsSound(s: Store, id: string)
    requires Sound(s)
    ensures Sound(Step(s, Begin(id)))
  {
    var t := Step(s, Begin(id));
    forall w | w in t.windows ensures WindowSound(t, w) {
      assert WindowSound(s, w);
    }
    forall r | 0 <= r < |t.retries| ensures RetrySound(t, r) {
      if r < |s.retries| {
        assert RetrySound(s, r);
      }
    }
  }

  lemma LockIsSound(s: Store, r: nat)
    requires Sound(s)
    ensures Sound(Step(s, Lock(r)))
  {
    var t := Step(s, Lock(r));
    forall w | w in t.windows ensures WindowSound(t, w) {
      assert WindowSound(s, w);
    }
    forall q | 0 <= q < |t.retries| ensures RetrySound(t, q) {
      assert RetrySound(s, q);
    }
  }

  lemma TransitionIsSound(s: Store, r: nat)
    requires Sound(s)
    ensures Sound(Step(s, Transition(r)))
  {
    var t := Step(s, Transition(r));
    if InPhase(s, r, Locked) {
      assert RetrySound(s, r);
      assert t.windows == s.windows && t.shards == s.shards;
      forall w | w in t.windows ensures WindowSound(t, w) {
        assert WindowSound(s, w);
      }
      forall q | 0 <= q < |t.retries| ensures RetrySound(t, q) {
        assert RetrySound(s, q);
      }
    }
  }

  lemma MeasureIsSound(s: Store, r: nat)
    requires Sound(s)
    ensures Sound(Step(s, Measure(r)))
  {
    var t := Step(s, Measure(r));
    forall w | w in t.windows ensures WindowSound(t, w) {
      assert WindowSound(s, w);
    }
    forall q | 0 <= q < |t.retries| ensures RetrySound(t, q) {
      assert RetrySound(s, q);
      assert WindowSound(s, s.retries[q].window);
    }
  }

  lemma CommitIsSound(s: Store, r: nat)
    requires Sound(s) && Measuring(s, r)
    ensures Sound(Step(s, Commit(r)))
  {
    assert RetrySound(s, r);
    var retry := s.retries[r];
    assert WindowSound(s, retry.window);
    var t := Step(s, Commit(r));
    forall w | w in t.windows ensures WindowSound(t, w) {
      assert WindowSound(s, w);
    }
    forall q | 0 <= q < |t.retries| ensures RetrySound(t, q) {
      assert RetrySound(s, q);
    }
  }

  /** What a worker's report does to one window. */
  lemma WriteOnWindow(s: Store, shard: string, first: string, report: Report, id: string)
    requires shard in s.shards && Picks(s, shard, first) && id in s.windows && WindowSound(s, id)
    ensures var t := Written(s, shard, first, report);
            && id in t.windows && WindowSound(t, id)
            && t.windows[id].shard == s.windows[id].shard
            && t.windows[id].requiredCutoff <= s.windows[id].requiredCutoff
            && (s.windows[id].shard != shard || s.windows[id].status != Pending ==> t.windows[id] == s.windows[id])
            && (t.windows[id].status == Pending ==> s.windows[id].status == Pending)
  {
  }

  /** A report leaves every pending window of its shard with a shard cutoff that reaches it. */
  lemma WriteReaches(s: Store, shard: string, first: string, report: Report, id: string)
    requires shard in s.shards && Picks(s, shard, first)
    requires forall w :: w in s.windows ==> WindowSound(s, w)
    ensures var t := Written(s, shard, first, report);
            id in t.windows && IsPending(t, shard, id) ==>
              && t.shards[shard].pending && t.shards[shard].cutoff.Some?
              && t.shards[shard].cutoff.value <= t.windows[id].requiredCutoff
  {
    assert id in s.windows ==> WindowSound(s, id);
    assert first in s.windows ==> WindowSound(s, first);
  }

  lemma WriteIsSound(s: Store, shard: string, first: string, report: Report)
    requires Sound(s)
    ensures Sound(Step(s, Write(shard, first, report)))
  {
    var t := Step(s, Write(shard, first, report));
    if shard in s.locks || shard !in s.shards || !Picks(s, shard, first) {
      assert t == s;
    } else {
      forall w | w in t.windows ensures WindowSound(t, w) {
        if w in s.windows {
          WriteOnWindow(s, shard, first, report, w);
        }
      }
      forall r | 0 <= r < |t.retries| ensures RetrySound(t, r) {
        assert RetrySound(s, r);
        WriteOnWindow(s, shard, first, report, s.retries[r].window);
      }
    }
  }

  lemma RearmIsSound(s: Store, shard: string, eligible: set<string>, oldest: string)
    requires Sound(s)
    ensures Sound(Step(s, RearmShard(shard, eligible, oldest)))
  {
    var t := Step(s, RearmShard(shard, eligible, oldest));
    forall w | w in t.windows ensures WindowSound(t, w) {
      assert WindowSound(s, w);
    }
    forall r | 0 <= r < |t.retries| ensures RetrySound(t, r) {
      assert RetrySound(s, r);
    }
  }

  lemma StepIsSound(s: Store, e: Event)
    requires Sound(s)
    ensures Sound(Step(s, e))
  {
    hide Sound;
    match e {
      case Acknowledge(id, by') => AcknowledgeIsSound(s, id, by');
      case Begin(id) => BeginIsSound(s, id);
      case Lock(r) => LockIsSound(s, r);
      case Transition(r) => TransitionIsSound(s, r);
      case Measure(r) => MeasureIsSound(s, r);
      case Commit(r) =>
        if Measuring(s, r) {
          CommitIsSound(s, r);
        }
      case Write(shard, first, report) => WriteIsSound(s, shard, first, report);
      case RearmShard(shard, eligible, oldest) => RearmIsSound(s, shard, eligible, oldest);
    }
  }

  /**
   * Under every interleaving of operators, workers and re-arms: a pending window
   * belongs to a pending shard, a window is re-armed at most once for each time
   * it became unresolved, and what a retry read is never older than what its
   * window requires now.
   */
  lemma {:induction false} EveryInterleavingIsSound(s: Store, events: seq<Event>)
    requires Sound(s)
    ensures Sound(Run(s, events))
  {
    if events != [] {
      hide Sound, Step;
      EveryInterleavingIsSound(s, events[..|events| - 1]);
      StepIsSound(Run(s, events[..|events| - 1]), events[|events| - 1]);
    }
  }

  // ----- what a report and a shard re-arm write

  /** The oldest of the values that are there, and another value where none is. */
  ghost predicate IsOldestOf(cutoff: int, a: Option<int>, b: Option<int>, c: Option<int>, otherwise: int) {
    if a.None? && b.None? && c.None? then cutoff == otherwise
    else
      && (a == Some(cutoff) || b == Some(cutoff) || c == Some(cutoff))
      && (a.Some? ==> cutoff <= a.value) && (b.Some? ==> cutoff <= b.value) && (c.Some? ==> cutoff <= c.value)
  }

  function RequiredBy(s: Store, id: string): (cutoff: Option<int>) {
    if id in s.windows then Some(s.windows[id].requiredCutoff) else None
  }

  /**
   * A report on a shard without recovery that asks for none clears its cutoff.
   * Any other takes the oldest cutoff known: it opens a window where none is
   * pending, from page 1 unless the backfill reports its own page; only the
   * backfill concludes, and then it concludes all pending windows of the shard,
   * and gives the oldest of them the cutoff.
   */
  lemma ReportMeans(s: Store, shard: string, first: string, report: Report)
    requires shard in s.shards && Picks(s, shard, first) && forall id :: id in s.windows ==> WindowSound(s, id)
    ensures var t, h, g := Written(s, shard, first, report), s.shards[shard], Written(s, shard, first, report).shards;
            var opens := first !in s.windows;
            var concludes := report.lane == Backfill && report.verdict != Pending;
            && shard in g && t.locks == s.locks && t.retries == s.retries && g == s.shards[shard := g[shard]]
            && (!h.pending && !report.newRequest ==> g[shard] == h.(cutoff := None) && t.windows == s.windows)
            && (h.pending || report.newRequest ==>
                  && g[shard].pending == !concludes
                  && (g[shard].cutoff.Some? <==> g[shard].pending)
                  && (!h.pending && report.lane != Backfill ==> g[shard].progressPage == 1 && g[shard].overlapPage == None)
                  && (report.lane == Backfill ==> g[shard].progressPage == report.progressPage && g[shard].overlapPage == report.overlapPage)
                  && t.windows.Keys == s.windows.Keys + {first}
                  && (exists cutoff ::
                        && IsOldestOf(cutoff, h.cutoff, RequiredBy(s, first), report.extra, report.boundary)
                        && (g[shard].pending ==> g[shard].cutoff == Some(cutoff))
                        && (opens || report.lane == Backfill ==> t.windows[first].requiredCutoff == cutoff)
                        && (opens ==> t.windows[first].shard == shard && t.windows[first].detectedAt == report.now)))
    ensures var t := Written(s, shard, first, report);
            forall id :: id in t.windows && t.windows[id].shard == shard && (id == first || IsPending(s, shard, id)) && (s.shards[shard].pending || report.newRequest) ==>
              && t.windows[id].status == (if report.lane == Backfill then report.verdict else Pending)
              && (id in s.windows && t.windows[id].acknowledgedBy != s.windows[id].acknowledgedBy
                  ==> id == first && t.windows[id].acknowledgedBy == None && t.windows[id].status == Unresolved)
              && (id == first && t.windows[id].status == Unresolved ==> t.windows[id].acknowledgedBy == None)
              && (id in s.windows && id != first ==> t.windows[id].requiredCutoff == s.windows[id].requiredCutoff)
  {
    var h := s.shards[shard];
    if Asked(h, report) {
      var cutoff := DurableCutoff(s, shard, first, report);
      assert IsOldestOf(cutoff, h.cutoff, RequiredBy(s, first), report.extra, report.boundary);
    }
  }

  /** A shard re-arm makes each eligible window pending and unacknowledged, and touches no other. */
  lemma RearmMeans(s: Store, shard: string, eligible: set<string>, oldest: string)
    requires shard in s.shards && shard !in s.locks && Eligible(s, shard, eligible, oldest)
    ensures var t := Step(s, RearmShard(shard, eligible, oldest));
            && t.windows.Keys == s.windows.Keys
            && (forall id :: id in s.windows && id !in eligible ==> t.windows[id] == s.windows[id])
            && (forall id :: id in eligible ==>
                  && t.windows[id].status == Pending && t.windows[id].acknowledgedBy == None
                  && t.windows[id].requiredCutoff == s.windows[id].requiredCutoff)
            && t.shards == s.shards[shard := Shard(true, t.shards[shard].cutoff, 1, None)]
            && t.shards[shard].cutoff.Some?
            && (forall id :: id in eligible ==> t.shards[shard].cutoff.value <= s.windows[id].requiredCutoff)
            && (s.shards[shard].cutoff.Some? ==> t.shards[shard].cutoff.value <= s.shards[shard].cutoff.value)
            && (t.shards[shard].cutoff == s.shards[shard].cutoff || t.shards[shard].cutoff == Some(s.windows[oldest].requiredCutoff))
  {
  }

  // ----- when the shard's cutoff reaches its pending windows

  predicate Reaches(s: Store, id: string)
    requires id in s.windows
  {
    var w := s.windows[id];
    w.status == Pending ==> w.shard in s.shards && s.shards[w.shard].cutoff.Some? && s.shards[w.shard].cutoff.value <= w.requiredCutoff
  }

  /** Sound, and no pending window asks for adverts older than its shard's cutoff. */
  ghost predicate Kept(s: Store) {
    Sound(s) && forall id :: id in s.windows ==> Reaches(s, id)
  }

  /**
   * The commit of a retry whose window was given an older cutoff after the retry
   * had read it, unless the shard's own cutoff is old enough already.
   */
  predicate StaleCommit(s: Store, e: Event) {
    && e.Commit? && Measuring(s, e.retry)
    && s.retries[e.retry].window in s.windows
    && s.windows[s.retries[e.retry].window].requiredCutoff < s.retries[e.retry].requiredCutoff
    && var current := s.retries[e.retry].phase.cutoff;
       current.None? || s.windows[s.retries[e.retry].window].requiredCutoff < current.value
  }

  lemma OperatorsKeep(s: Store, e: Event)
    requires Kept(s) && (e.Acknowledge? || e.Begin? || e.Lock? || e.Transition? || e.Measure?)
    ensures Kept(Step(s, e))
  {
    StepIsSound(s, e);
    var t := Step(s, e);
    hide Sound, RowLocked, Written, Picks, Eligible;
    assert t.shards == s.shards;
    forall id | id in t.windows ensures Reaches(t, id) {
      assert id in s.windows && Reaches(s, id);
    }
  }

  lemma CommitKeepsExactly(s: Store, r: nat)
    requires Kept(s) && Measuring(s, r)
    ensures Kept(Step(s, Commit(r))) <==> !StaleCommit(s, Commit(r))
  {
    StepIsSound(s, Commit(r));
    assert RetrySound(s, r);
    var retry, t := s.retries[r], Step(s, Commit(r));
    assert WindowSound(s, retry.window);
    hide Sound;
    assert Reaches(t, retry.window) <==> !StaleCommit(s, Commit(r));
    forall id | id in t.windows && id != retry.window ensures Reaches(t, id) {
      assert Reaches(s, id);
    }
  }

  /** Reports and re-arms bring the cutoff of their shard into line, whatever it was before. */
  lemma WriteKeeps(s: Store, shard: string, first: string, report: Report)
    requires Kept(s)
    ensures Kept(Step(s, Write(shard, first, report)))
  {
    var t := Step(s, Write(shard, first, report));
    WriteIsSound(s, shard, first, report);
    if t != s {
      forall id | id in t.windows ensures Reaches(t, id) {
        WriteReaches(s, shard, first, report, id);
        if id in s.windows {
          WriteOnWindow(s, shard, first, report, id);
          assert Reaches(s, id);
        }
      }
    }
  }

  lemma RearmKeeps(s: Store, shard: string, eligible: set<string>, oldest: string)
    requires Kept(s)
    ensures Kept(Step(s, RearmShard(shard, eligible, oldest)))
  {
    var t := Step(s, RearmShard(shard, eligible, oldest));
    RearmIsSound(s, shard, eligible, oldest);
    hide Sound;
    forall id | id in t.windows ensures Reaches(t, id) {
      assert Reaches(s, id);
    }
  }

  /** One step breaks the agreement exactly when it is a stale commit. */
  lemma StepKeepsExactly(s: Store, e: Event)
    requires Kept(s)
    ensures Kept(Step(s, e)) <==> !StaleCommit(s, e)
  {
    if e.Commit? && Measuring(s, e.retry) {
      CommitKeepsExactly(s, e.retry);
    } else {
      hide Kept;
      match e {
        case Write(shard, first, report) => WriteKeeps(s, shard, first, report);
        case RearmShard(shard, eligible, oldest) => RearmKeeps(s, shard, eligible, oldest);
        case Commit(r) => assert Step(s, e) == s;
        case _ => OperatorsKeep(s, e);
      }
    }
  }

  ghost predicate StaleAt(s: Store, events: seq<Event>, n: nat)
    requires n < |events|
  {
    StaleCommit(Run(s, events[..n]), events[n])
  }

  /**
   * Over every run: the shard's cutoff reaches every pending window throughout
   * exactly when no retry commits stale.
   */
  lemma CutoffReachesExactlyWhen(s: Store, events: seq<Event>)
    requires Kept(s)
    ensures (forall n :: 0 <= n <= |events| ==> KeptAt(s, events, n)) <==> (forall n :: 0 <= n < |events| ==> !StaleAt(s, events, n))
  {
    hide Kept, Step, StaleCommit;
    if forall n :: 0 <= n <= |events| ==> KeptAt(s, events, n) {
      forall n | 0 <= n < |events| ensures !StaleAt(s, events, n) {
        assert KeptAt(s, events, n) && KeptAt(s, events, n + 1);
        StepKeepsExactly(Run(s, events[..n]), events[n]);
        RunStep(s, events, n);
      }
    }
    if forall n :: 0 <= n < |events| ==> !StaleAt(s, events, n) {
      forall n | 0 <= n <= |events| ensures KeptAt(s, events, n) {
        KeptUntilStale(s, events, n);
      }
    }
  }

  ghost predicate KeptAt(s: Store, events: seq<Event>, n: nat)
    requires n <= |events|
  {
    Kept(Run(s, events[..n]))
  }

  lemma RunStep(s: Store, events: seq<Event>, n: nat)
    requires n < |events|
    ensures Run(s, events[..n + 1]) == Step(Run(s, events[..n]), events[n])
  {
    assert events[..n + 1][..n] == events[..n];
  }

  lemma {:induction false} KeptUntilStale(s: Store, events: seq<Event>, n: nat)
    requires Kept(s) && n <= |events| && forall k :: 0 <= k < n ==> !StaleAt(s, events, k)
    ensures KeptAt(s, events, n)
  {
    hide Kept, Step, StaleCommit;
    if n > 0 {
      KeptUntilStale(s, events, n - 1);
      RunStep(s, events, n - 1);
      assert !StaleAt(s, events, n - 1);
      StepKeepsExactly(Run(s, events[..n - 1]), events[n - 1]);
    }
  }

  // ----- who makes a retry stale

  /** The window of a retry, its shard and what the retry read never change. */
  lemma {:induction false} RetryRemembers(s: Store, events: seq<Event>, r: nat)
    requires r < |s.retries|
    ensures var t := Run(s, events);
            && r < |t.retries|
            && t.retries[r].window == s.retries[r].window
            && t.retries[r].shard == s.retries[r].shard
            && t.retries[r].requiredCutoff == s.retries[r].requiredCutoff
  {
    if events != [] {
      RetryRemembers(s, events[..|events| - 1], r);
      StepRemembers(Run(s, events[..|events| - 1]), events[|events| - 1], r);
    }
  }

  lemma StepRemembers(s: Store, e: Event, r: nat)
    requires r < |s.retries|
    ensures var t := Step(s, e);
            && r < |t.retries|
            && t.retries[r].(phase := Read) == s.retries[r].(phase := Read)
  {
    hide RowLocked, Picks, Eligible, Written, RearmAll;
    if e.Write? && e.shard in s.shards {
      WrittenKeepsRetries(s, e.shard, e.first, e.report);
    }
  }

  lemma WrittenKeepsRetries(s: Store, shard: string, first: string, report: Report)
    requires shard in s.shards
    ensures Written(s, shard, first, report).retries == s.retries
  {
  }

  /** Only a worker's report changes what a window requires, and never while a retry holds the window's shard. */
  lemma OnlyReportsLower(s: Store, e: Event, id: string)
    requires Sound(s) && id in s.windows
    ensures var t := Step(s, e);
            && id in t.windows
            && t.windows[id].requiredCutoff <= s.windows[id].requiredCutoff
            && (t.windows[id].requiredCutoff != s.windows[id].requiredCutoff ==>
                  && e.Write? && e.shard == s.windows[id].shard && e.first == id
                  && s.windows[id].shard !in s.locks && s.windows[id].status == Pending)
  {
    assert WindowSound(s, id);
    if e.Write? && e.shard in s.shards && Picks(s, e.shard, e.first) && e.shard !in s.locks {
      WriteOnWindow(s, e.shard, e.first, e.report, id);
      if id != e.first {
        WriteLowersFirst(s, e.shard, e.first, e.report, id);
      }
    }
    hide RowLocked, Written, Sound, Picks;
  }

  lemma WriteLowersFirst(s: Store, shard: string, first: string, report: Report, id: string)
    requires shard in s.shards && id in s.windows && id != first
    ensures var t := Written(s, shard, first, report);
            id in t.windows && t.windows[id].requiredCutoff == s.windows[id].requiredCutoff
  {
  }

  /** The reports of a run that gave this window an older cutoff. */
  ghost predicate LoweredAt(s: Store, events: seq<Event>, n: nat, id: string)
    requires n < |events|
  {
    var before, after := Run(s, events[..n]), Run(s, events[..n + 1]);
    && events[n].Write? && id in before.windows && id in after.windows
    && after.windows[id].requiredCutoff < before.windows[id].requiredCutoff
  }

  lemma {:induction false} UnloweredIsUnchanged(s: Store, events: seq<Event>, id: string)
    requires Sound(s) && id in s.windows
    ensures var t := Run(s, events);
            && id in t.windows && t.windows[id].requiredCutoff <= s.windows[id].requiredCutoff
            && (t.windows[id].requiredCutoff == s.windows[id].requiredCutoff <==> forall n :: 0 <= n < |events| ==> !LoweredAt(s, events, n, id))
  {
    hide Sound, Step;
    if events != [] {
      var m := |events| - 1;
      var front := events[..m];
      UnloweredIsUnchanged(s, front, id);
      EveryInterleavingIsSound(s, front);
      OnlyReportsLower(Run(s, front), events[m], id);
      assert events[..m + 1] == events;
      assert LoweredAt(s, events, m, id) <==> Run(s, events).windows[id].requiredCutoff < Run(s, front).windows[id].requiredCutoff;
      forall n | 0 <= n < m ensures LoweredAt(s, front, n, id) <==> LoweredAt(s, events, n, id) {
        assert front[..n] == events[..n] && front[..n + 1] == events[..n + 1];
      }
      hide LoweredAt, Run;
      assert (forall n :: 0 <= n < |events| ==> !LoweredAt(s, events, n, id))
        <==> (forall n :: 0 <= n < m ==> !LoweredAt(s, front, n, id)) && !LoweredAt(s, events, m, id);
    }
  }

  /**
   * A retry that begins now is stale when it commits exactly when a worker's
   * report lowered its window's cutoff in between and the shard's own cutoff does
   * not reach the lowered one.
   */
  lemma StaleExactlyWhenLowered(s: Store, id: string, events: seq<Event>)
    requires Sound(s) && id in s.windows && s.windows[id].status == Unresolved
    requires Measuring(Run(Step(s, Begin(id)), events), |s.retries|)
    ensures var n, begun := |s.retries|, Step(s, Begin(id));
            var t := Run(begun, events);
            && id in t.windows && t.windows[id].shard in t.shards
            && (StaleCommit(t, Commit(n))
                <==> && (exists k :: 0 <= k < |events| && LoweredAt(begun, events, k, id))
                     && !(t.shards[t.windows[id].shard].cutoff.Some? && t.shards[t.windows[id].shard].cutoff.value <= t.windows[id].requiredCutoff))
  {
    var n, begun := |s.retries|, Step(s, Begin(id));
    StepIsSound(s, Begin(id));
    EveryInterleavingIsSound(begun, events);
    RetryRemembers(begun, events, n);
    UnloweredIsUnchanged(begun, events, id);
    var t := Run(begun, events);
    assert RetrySound(t, n) && WindowSound(t, id);
    hide Sound, LoweredAt, Run;
  }

  /** Every retry that has begun read what its window requires now. */
  ghost predicate UpToDate(s: Store) {
    forall r :: 0 <= r < |s.retries| ==>
      s.retries[r].window in s.windows && s.windows[s.retries[r].window].requiredCutoff == s.retries[r].requiredCutoff
  }

  lemma StaysUpToDate(s: Store, e: Event)
    requires Sound(s) && UpToDate(s) && !e.Write?
    ensures UpToDate(Step(s, e))
  {
    var t := Step(s, e);
    forall r | 0 <= r < |t.retries|
      ensures t.retries[r].window in t.windows && t.windows[t.retries[r].window].requiredCutoff == t.retries[r].requiredCutoff
    {
      if r < |s.retries| {
        StepRemembers(s, e, r);
        OnlyReportsLower(s, e, s.retries[r].window);
      }
    }
  }

  /** Without reports, operators and re-arms keep the agreement under every interleaving. */
  lemma {:induction false} WithoutReportsIsKept(s: Store, events: seq<Event>)
    requires Kept(s) && UpToDate(s) && forall e :: e in events ==> !e.Write?
    ensures Kept(Run(s, events)) && UpToDate(Run(s, events))
  {
    if events != [] {
      var m := |events| - 1;
      var t, e := Run(s, events[..m]), events[m];
      assert e in events && forall f :: f in events[..m] ==> f in events;
      WithoutReportsIsKept(s, events[..m]);
      hide Sound, Step, Run;
      StepKeepsExactly(t, e);
      StaysUpToDate(t, e);
      RunStep(s, events, m);
      assert events[..m + 1] == events;
    }
  }

  const WINDOW := Window("s", Unresolved, 200, 1, None, 0, 1)

  /** One unresolved window, required back to 200. */
  const UNRESOLVED := Store(map["w" := WINDOW], map["s" := Shard(false, None, 1, None)], map[], [])

  /** A worker that found its known ids reset gives up with an older cutoff. */
  const GIVE_UP := Report(Backfill, true, Some(100), 0, 9, Unresolved, 1, None)

  /** Two operators retry the same window; between the first one's read and its lock the other's re-arm is concluded with an older cutoff. */
  const OVERTAKEN: seq<Event> := [
    Begin("w"), Begin("w"), Lock(1), Transition(1), Measure(1), Commit(1), Write("s", "w", GIVE_UP),
    Lock(0), Transition(0), Measure(0), Commit(0)
  ]

  /** The window then waits for adverts back to 100 while its shard only recovers back to 200. */
  lemma OvertakenRetryFallsShort()
    ensures Kept(UNRESOLVED)
    ensures var t := Run(UNRESOLVED, OVERTAKEN);
            && t.windows == map["w" := Window("s", Pending, 100, 1, None, 2, 2)]
            && t.shards == map["s" := Shard(true, Some(200), 1, None)]
            && !Kept(t)
  {
    hide Step, RunAlone, Kept;
    BothRead();
    var begun := Step(Step(UNRESOLVED, Begin("w")), Begin("w"));
    FinishesAlone(begun, 1);
    var other := RunAlone(begun, 1);
    GivesUp(other);
    var lowered := Step(other, Write("s", "w", GIVE_UP));
    FinishesAlone(lowered, 0);
    RunUnrolled();
    FallsShort(RunAlone(lowered, 0));
  }

  lemma BothRead()
    ensures Kept(UNRESOLVED)
    ensures Step(Step(UNRESOLVED, Begin("w")), Begin("w")) == UNRESOLVED.(retries := [Retry("w", "s", 200, Read), Retry("w", "s", 200, Read)])
  {
  }

  lemma FallsShort(s: Store)
    requires s.windows == map["w" := Window("s", Pending, 100, 1, None, 2, 2)]
    requires s.shards == map["s" := Shard(true, Some(200), 1, None)]
    ensures !Kept(s)
  {
    assert !Reaches(s, "w");
  }

  lemma GivesUp(s: Store)
    requires s.windows == map["w" := Window("s", Pending, 200, 1, None, 1, 1)]
    requires s.shards == map["s" := Shard(true, Some(200), 1, None)] && s.locks == map[]
    ensures var t := Step(s, Write("s", "w", GIVE_UP));
            && t.windows == map["w" := Window("s", Unresolved, 100, 1, None, 1, 2)]
            && t.shards == map["s" := Shard(false, None, 1, None)]
            && t.locks == map[] && t.retries == s.retries
  {
    assert IsFirst(s, "s", "w");
  }

  /** The four steps of a retry that has begun, with nothing in between. */
  function RunAlone(s: Store, r: nat): (t: Store) {
    Step(Step(Step(Step(s, Lock(r)), Transition(r)), Measure(r)), Commit(r))
  }

  /** With nothing in between, a retry that has begun re-arms its window and its shard at the older cutoff it knows of. */
  lemma FinishesAlone(s: Store, r: nat)
    requires InPhase(s, r, Read) && s.retries[r].shard !in s.locks && s.retries[r].shard in s.shards
    requires s.retries[r].window in s.windows && s.windows[s.retries[r].window].status == Unresolved
    ensures var retry, t := s.retries[r], RunAlone(s, r);
            var w := s.windows[retry.window];
            && t.windows == s.windows[retry.window := w.(status := Pending, acknowledgedBy := None, rearmed := w.rearmed + 1)]
            && t.shards == s.shards[retry.shard := Rearmed(OlderCutoff(s.shards[retry.shard].cutoff, retry.requiredCutoff))]
            && t.locks == s.locks
            && t.retries == s.retries[r := retry.(phase := Committed)]
  {
    var retry := s.retries[r];
    var a := Step(s, Lock(r));
    assert a.retries[r].phase == Locked && a.shards == s.shards && a.windows == s.windows;
    var b := Step(a, Transition(r));
    assert b.retries[r].phase == Transitioned && b.shards == s.shards && b.windows == s.windows;
    var c := Step(b, Measure(r));
    assert c.retries[r].phase == Measured(s.shards[retry.shard].cutoff) && c.shards == s.shards && c.windows == s.windows;
    assert Step(c, Commit(r)).locks == s.locks;
  }

  lemma RunUnrolled()
    ensures Run(UNRESOLVED, OVERTAKEN)
         == RunAlone(Step(RunAlone(Step(Step(UNRESOLVED, Begin("w")), Begin("w")), 1), Write("s", "w", GIVE_UP)), 0)
  {
    hide Step;
    assert OVERTAKEN[..11] == OVERTAKEN && OVERTAKEN[..0] == [];
    RunStep(UNRESOLVED, OVERTAKEN, 0);
    RunStep(UNRESOLVED, OVERTAKEN, 1);
    RunsAlone(UNRESOLVED, OVERTAKEN, 2, 1);
    RunStep(UNRESOLVED, OVERTAKEN, 6);
    RunsAlone(UNRESOLVED, OVERTAKEN, 7, 0);
  }

  lemma RunsAlone(s: Store, events: seq<Event>, n: nat, r: nat)
    requires n + 4 <= |events|
    requires events[n] == Lock(r) && events[n + 1] == Transition(r) && events[n + 2] == Measure(r) && events[n + 3] == Commit(r)
    ensures Run(s, events[..n + 4]) == RunAlone(Run(s, events[..n]), r)
  {
    hide Step, Run;
    RunStep(s, events, n);
    RunStep(s, events, n + 1);
    RunStep(s, events, n + 2);
    RunStep(s, events, n + 3);
  }

  // ----- operators

  lemma VerifiedRowIsKept(s: Store, e: Event, id: string)
    requires Sound(s) && id in s.windows && s.windows[id].status == Verified
    ensures id in Step(s, e).windows && Step(s, e).windows[id] == s.windows[id]
  {
    if e.Commit? && Measuring(s, e.retry) {
      assert RetrySound(s, e.retry);
    }
    hide RowLocked, Sound, IsFirst, DurableCutoff, OlderCutoff;
  }

  /** A verified window is never touched again, under any interleaving of reports, retries and re-arms. */
  lemma {:induction false} VerifiedIsFinal(s: Store, events: seq<Event>, id: string)
    requires Sound(s) && id in s.windows && s.windows[id].status == Verified
    ensures id in Run(s, events).windows && Run(s, events).windows[id] == s.windows[id]
  {
    if events != [] {
      hide Sound, Step;
      var front := events[..|events| - 1];
      VerifiedIsFinal(s, front, id);
      EveryInterleavingIsSound(s, front);
      VerifiedRowIsKept(Run(s, front), events[|events| - 1], id);
    }
  }

  lemma RearmedAtMostOnce(s: Store, events: seq<Event>, id: string)
    requires Sound(s) && id in s.windows
    requires s.windows[id].rearmed == 0 && s.windows[id].concluded == 1
    requires forall e :: e in events ==> !e.Write?
    ensures id in Run(s, events).windows && Run(s, events).windows[id].rearmed <= 1
  {
    EveryInterleavingIsSound(s, events);
    WithoutWorkers(s, events, id);
    assert WindowSound(Run(s, events), id);
  }

  lemma {:induction false} WithoutWorkers(s: Store, events: seq<Event>, id: string)
    requires id in s.windows && forall e :: e in events ==> !e.Write?
    ensures id in Run(s, events).windows && Run(s, events).windows[id].concluded == s.windows[id].concluded
  {
    if events != [] {
      hide Step;
      var n := |events| - 1;
      assert events[n] in events && forall e :: e in events[..n] ==> e in events;
      WithoutWorkers(s, events[..n], id);
      OperatorsDoNotConclude(Run(s, events[..n]), events[n], id);
    }
  }

  lemma OperatorsDoNotConclude(s: Store, e: Event, id: string)
    requires id in s.windows && !e.Write?
    ensures id in Step(s, e).windows && Step(s, e).windows[id].concluded == s.windows[id].concluded
  {
    hide RowLocked, OlderCutoff, InPhase, Eligible;
  }

  /** An acknowledgement changes nothing but the acknowledgement. */
  lemma AcknowledgeOnlyAcknowledges(s: Store, id: string, by': string)
    ensures var t := Step(s, Acknowledge(id, by'));
            && t.shards == s.shards && t.retries == s.retries && t.windows.Keys == s.windows.Keys
            && forall w :: w in s.windows ==> t.windows[w].(acknowledgedBy := None) == s.windows[w].(acknowledgedBy := None)
  {
  }

  /** No operator step and no re-arm ever makes a shard's recovery cutoff later, or forgets that it is pending. */
  lemma OperatorsNeverMoveCutoffLater(s: Store, e: Event, shard: string)
    requires Sound(s) && shard in s.shards && !e.Write?
    ensures shard in Step(s, e).shards
    ensures s.shards[shard].cutoff.Some? ==>
              Step(s, e).shards[shard].cutoff.Some? && Step(s, e).shards[shard].cutoff.value <= s.shards[shard].cutoff.value
    ensures s.shards[shard].pending ==> Step(s, e).shards[shard].pending
  {
    if e.Commit? && Measuring(s, e.retry) {
      assert RetrySound(s, e.retry);
    }
  }

  /**
   * At commit the window is still unresolved, and the shard is re-armed from page
   * 1 at the older of its current cutoff and the one the retry read. That is the
   * older of the two current cutoffs exactly unless the commit is stale.
   */
  lemma CommitRearms(s: Store, r: nat)
    requires Sound(s) && Measuring(s, r)
    ensures var retry, t := s.retries[r], Step(s, Commit(r));
            && retry.window in s.windows && retry.shard in s.shards
            && retry.window in t.windows && retry.shard in t.shards
            && s.windows[retry.window].status == Unresolved
            && t.windows[retry.window].status == Pending
            && t.shards[retry.shard] == Rearmed(OlderCutoff(s.shards[retry.shard].cutoff, retry.requiredCutoff))
            && (t.shards[retry.shard] == Rearmed(OlderCutoff(s.shards[retry.shard].cutoff, s.windows[retry.window].requiredCutoff))
                <==> !StaleCommit(s, Commit(r)))
            && retry.shard !in t.locks
  {
    assert RetrySound(s, r);
    assert WindowSound(s, s.retries[r].window);
  }

  /**
   * A shard that fell short is mended by its next report, whatever is pending by
   * then: the report decides by, and stores, the oldest cutoff any of its pending windows requires.
   */
  lemma ReportMends(s: Store, shard: string, first: string, report: Report)
    requires Sound(s) && shard in s.shards && shard !in s.locks && Picks(s, shard, first)
    ensures var t := Step(s, Write(shard, first, report));
            && (forall id :: id in t.windows && t.windows[id].shard == shard ==> Reaches(t, id))
            && (forall id :: id in s.windows && IsPending(s, shard, id) ==> DurableCutoff(s, shard, first, report) <= s.windows[id].requiredCutoff)
  {
    var t := Step(s, Write(shard, first, report));
    WriteIsSound(s, shard, first, report);
    forall id | id in t.windows && t.windows[id].shard == shard ensures Reaches(t, id) {
      WriteReaches(s, shard, first, report, id);
    }
  }

  // ----- the handlers, when nothing interleaves

  /** The tables behind the operator routes. */
  class Tables {
    var windows: map<string, Window>
    var shards: map<string, Shard>

    /** POST /search-plan/recovery/:id/acknowledge; false stands for the 409 answer. */
    method AcknowledgeWindow(id: string, by': string) returns (ok: bool)
      modifies `windows
      ensures ok == (id in old(windows) && old(windows)[id].status == Unresolved)
      ensures ok ==> windows == old(windows)[id := old(windows)[id].(acknowledgedBy := Some(by'))]
      ensures !ok ==> windows == old(windows)
    {
      ok := id in windows && windows[id].status == Unresolved;
      if ok {
        windows := windows[id := windows[id].(acknowledgedBy := Some(by'))];
      }
    }

    /** POST /search-plan/recovery/:id/retry, as one transaction; false stands for the 409 answer. */
    method RetryWindow(id: string) returns (ok: bool)
      requires forall w :: w in windows ==> windows[w].shard in shards
      modifies this
      ensures ok == (id in old(windows) && old(windows)[id].status == Unresolved)
      ensures var t := Alone(Store(old(windows), old(shards), map[], []), id);
              windows == t.windows && shards == t.shards
    {
      ghost var s := Store(windows, shards, map[], []);
      UninterruptedRetry(s, id);
      if id !in windows || windows[id].status != Unresolved {
        return false;
      }
      var window := windows[id];
      windows := windows[id := window.(status := Pending, acknowledgedBy := None, rearmed := window.rearmed + 1)];
      var current := shards[window.shard].cutoff;
      var cutoff := if current.Some? && current.value < window.requiredCutoff then current.value else window.requiredCutoff;
      shards := shards[window.shard := Shard(true, Some(cutoff), 1, None)];
      ok := true;
    }
  }

  /** The steps of one retry with nothing in between. */
  function Alone(s: Store, id: string): (t: Store) {
    RunAlone(Step(s, Begin(id)), |s.retries|)
  }

  /** Run alone on an unlocked shard, a retry re-arms an unresolved window and touches no other row; otherwise it changes nothing. */
  lemma UninterruptedRetry(s: Store, id: string)
    requires id in s.windows ==> s.windows[id].shard in s.shards && s.windows[id].shard !in s.locks
    ensures var t := Alone(s, id);
            if id in s.windows && s.windows[id].status == Unresolved then
              var w := s.windows[id];
              && t.windows == s.windows[id := w.(status := Pending, acknowledgedBy := None, rearmed := w.rearmed + 1)]
              && t.shards == s.shards[w.shard := Rearmed(OlderCutoff(s.shards[w.shard].cutoff, w.requiredCutoff))]
              && t.locks == s.locks
            else t == s
  {
    if id in s.windows && s.windows[id].status == Unresolved {
      FinishesAlone(Step(s, Begin(id)), |s.retries|);
    }
  }

  // ----- what the search plan reports

  datatype Coverage = PendingCoverage | UnresolvedCoverage | VerifiedCoverage | CurrentOnly

  /** The most recently detected window of a shard decides, unless the shard itself is pending. */
  ghost predicate IsLatest(s: Store, shard: string, id: string) {
    && id in s.windows && s.windows[id].shard == shard
    && forall w :: w in s.windows && s.windows[w].shard == shard ==> s.windows[w].detectedAt <= s.windows[id].detectedAt
  }

  function CoverageOf(pending: bool, latest: Option<Status>): (c: Coverage) {
    if pending || latest == Some(Pending) then PendingCoverage
    else if latest == Some(Unresolved) then UnresolvedCoverage
    else if latest == Some(Verified) then VerifiedCoverage
    else CurrentOnly
  }

  /** `latest` gives the status of each shard's most recent window, if it has one. */
  function ShardCoverage(s: Store, latest: map<string, Status>, shard: string): (c: Coverage)
    requires shard in s.shards
  {
    CoverageOf(s.shards[shard].pending, if shard in latest then Some(latest[shard]) else None)
  }

  /** What is reported of a shard, status by status. */
  lemma CoverageMeans(s: Store, latest: map<string, Status>, shard: string)
    requires shard in s.shards
    ensures var c, settled := ShardCoverage(s, latest, shard), !s.shards[shard].pending;
            && (c == PendingCoverage <==> !settled || (shard in latest && latest[shard] == Pending))
            && (c == UnresolvedCoverage <==> settled && shard in latest && latest[shard] == Unresolved)
            && (c == VerifiedCoverage <==> settled && shard in latest && latest[shard] == Verified)
            && (c == CurrentOnly <==> settled && shard !in latest)
  {
  }

  function CountOf(s: Store, latest: map<string, Status>, active: seq<string>, c: Coverage): (n: nat)
    requires forall shard :: shard in active ==> shard in s.shards
  {
    if active == [] then 0
    else CountOf(s, latest, active[1..], c) + if ShardCoverage(s, latest, active[0]) == c then 1 else 0
  }

  /** globalCoverageProof, from the counts of the active shards. */
  function Proved(s: Store, latest: map<string, Status>, active: seq<string>): (proved: bool)
    requires forall shard :: shard in active ==> shard in s.shards
  {
    && active != []
    && CountOf(s, latest, active, PendingCoverage) == 0
    && CountOf(s, latest, active, UnresolvedCoverage) == 0
    && forall shard :: shard in active ==> ShardCoverage(s, latest, shard) == VerifiedCoverage
  }

  lemma {:induction false} CountIsZero(s: Store, latest: map<string, Status>, active: seq<string>, c: Coverage)
    requires forall shard :: shard in active ==> shard in s.shards
    ensures CountOf(s, latest, active, c) == 0 <==> forall shard :: shard in active ==> ShardCoverage(s, latest, shard) != c
  {
    if active != [] {
      assert active == [active[0]] + active[1..];
      CountIsZero(s, latest, active[1..], c);
    }
  }

  /** Global coverage is proved exactly when there is an active shard and each is settled with a verified latest window. */
  lemma ProvedExactlyWhen(s: Store, latest: map<string, Status>, active: seq<string>)
    requires forall shard :: shard in active ==> shard in s.shards
    ensures Proved(s, latest, active)
            <==> active != [] && forall shard :: shard in active ==>
                   !s.shards[shard].pending && shard in latest && latest[shard] == Verified
  {
    CountIsZero(s, latest, active, PendingCoverage);
    CountIsZero(s, latest, active, UnresolvedCoverage);
  }

  /**
   * From the moment a retry commits until a worker reports on the shard, and
   * whatever operators do meanwhile and whatever its latest window says, the
   * global proof does not hold while the shard is active.
   */
  lemma {:induction false} RearmedShardBlocksProof(s: Store, r: nat, events: seq<Event>, latest: map<string, Status>, active: seq<string>)
    requires Sound(s) && Measuring(s, r)
    requires forall e :: e in events ==> !e.Write?
    requires s.retries[r].shard in active
    requires var t := Run(Step(s, Commit(r)), events); forall shard :: shard in active ==> shard in t.shards
    ensures !Proved(Run(Step(s, Commit(r)), events), latest, active)
  {
    var after := Step(s, Commit(r));
    CommitRearms(s, r);
    StepIsSound(s, Commit(r));
    assert RetrySound(s, r);
    StaysPending(after, events, s.retries[r].shard);
    ProvedExactlyWhen(Run(after, events), latest, active);
  }

  lemma {:induction false} StaysPending(s: Store, events: seq<Event>, shard: string)
    requires Sound(s) && shard in s.shards && s.shards[shard].pending
    requires forall e :: e in events ==> !e.Write?
    ensures shard in Run(s, events).shards && Run(s, events).shards[shard].pending
  {
    if events != [] {
      hide Sound, Step;
      var n := |events| - 1;
      assert events[n] in events && forall e :: e in events[..n] ==> e in events;
      StaysPending(s, events[..n], shard);
      EveryInterleavingIsSound(s, events[..n]);
      OperatorsNeverMoveCutoffLater(Run(s, events[..n]), events[n], shard);
    }
  }

  const OLDER := Window("s", Unresolved, 100, 1, None, 0, 1)
  const NEWER := Window("s", Verified, 200, 2, None, 0, 0)

  /** A shard with an older unresolved window and a newer verified one. */
  const SHADOWED := Store(map["old" := OLDER, "new" := NEWER], map["s" := Shard(false, None, 1, None)], map[], [])

  /** Only the latest window of a shard is consulted: an older window may still be unresolved when coverage counts as proved. */
  lemma OlderUnresolvedWindowIsNotConsulted()
    ensures Kept(SHADOWED) && IsLatest(SHADOWED, "s", "new")
    ensures Proved(SHADOWED, map["s" := SHADOWED.windows["new"].status], ["s"])
    ensures SHADOWED.windows["old"].status == Unresolved
  {
    ProvedExactlyWhen(SHADOWED, map["s" := Verified], ["s"]);
  }
}
