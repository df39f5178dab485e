/** Watching the capture for evidence that a switch changed the picture: a debounced verdict over an
    unbounded sequence of reads. Times are milliseconds. */
module VideoWatch {
  import opened Wrappers

  const VIDEO_CHECK_MS := 12000
  const VIDEO_POLL_MS := 250
  const VIDEO_SETTLE_MS := 750
  const STREAM_READ_TIMEOUT_MS := 1200

  datatype Stream = Stream(signal: bool, online: bool, width: int, height: int, frameRate: Option<real>)

  /** One read, finished at `at`: a stream state, or None for a read that failed. */
  datatype Sample = Sample(at: int, state: Option<Stream>)

  datatype Kind = Returned | Appeared | Changed
  datatype Key = Key(kind: Kind, width: int, height: int, frameRate: Option<real>)
  datatype Idle = Unavailable | NoSignal | NotReady | Unchanged
  datatype Verdict = Positive(key: Key) | Negative(idle: Idle)

  // ---------------------------------------------------------------- over the whole history

  predicate Valid(s: Sample) { s.state.Some? }

  predicate HadSignal(baseline: Option<Stream>) { baseline.Some? && baseline.value.signal }

  /** The signal was seen, by the baseline or an earlier read, and then seen gone, by read `n` at
      the latest. */
  predicate Lost(baseline: Option<Stream>, trace: seq<Sample>, n: nat)
    requires n <= |trace|
  {
    exists q | 0 <= q < n && Valid(trace[q]) && !trace[q].state.value.signal ::
      HadSignal(baseline) || exists p | 0 <= p < q :: Valid(trace[p]) && trace[p].state.value.signal
  }

  predicate DiffersFrom(baseline: Stream, s: Stream) {
    || s.width != baseline.width || s.height != baseline.height
    || (s.frameRate.Some? && baseline.frameRate.Some? && s.frameRate != baseline.frameRate)
  }

  /** What read `j` is evidence of, given everything up to it. */
  function KeyAt(baseline: Option<Stream>, trace: seq<Sample>, j: nat): Option<Key>
    requires j < |trace|
  {
    match trace[j].state
    case None => None
    case Some(s) =>
      if !s.signal || !s.online then None
      else if Lost(baseline, trace, j + 1) then Some(Key(Returned, s.width, s.height, s.frameRate))
      else if baseline.Some? && !baseline.value.signal then Some(Key(Appeared, s.width, s.height, s.frameRate))
      else if baseline.Some? && baseline.value.online && DiffersFrom(baseline.value, s) then
        Some(Key(Changed, s.width, s.height, s.frameRate))
      else None
  }

  /** Reads `i` to `j`, without exception, are evidence of the same thing. */
  predicate Same(baseline: Option<Stream>, trace: seq<Sample>, i: nat, j: nat)
    requires i <= j < |trace|
  {
    && KeyAt(baseline, trace, j).Some?
    && forall k | i <= k <= j :: KeyAt(baseline, trace, k) == KeyAt(baseline, trace, j)
  }

  /** Consecutive reads of one kind and mode, ending with read `j`, span the settling time. */
  predicate Settled(baseline: Option<Stream>, trace: seq<Sample>, j: nat)
    requires j < |trace|
  {
    exists i | 0 <= i <= j :: Same(baseline, trace, i, j) && trace[j].at - trace[i].at >= VIDEO_SETTLE_MS
  }

  predicate InTime(trace: seq<Sample>, deadline: int) {
    && (forall i, j | 0 <= i <= j < |trace| :: trace[i].at <= trace[j].at)
    && (forall i | 0 <= i < |trace| :: trace[i].at < deadline)
  }

  /** The latest read that told anything. */
  function LastValid(trace: seq<Sample>): Option<Sample> {
    if trace == [] then None
    else if Valid(trace[|trace| - 1]) then Some(trace[|trace| - 1])
    else LastValid(trace[..|trace| - 1])
  }

  /** What may be said when nothing settled: "unchanged" only against a live reference, with no loss
      ever seen, from a recent read of live video. */
  predicate Justified(idle: Idle, baseline: Option<Stream>, trace: seq<Sample>, now: int) {
    var last := LastValid(trace);
    var recent := last.Some? && last.value.state.Some? && now - last.value.at < STREAM_READ_TIMEOUT_MS + VIDEO_POLL_MS * 2;
    match idle
    case NoSignal => recent && baseline.Some? && !last.value.state.value.signal
    case NotReady => recent && baseline.Some? && last.value.state.value.signal && !last.value.state.value.online
    case Unchanged => && recent && baseline.Some? && baseline.value.online
                      && last.value.state.value.signal && last.value.state.value.online
                      && !Lost(baseline, trace, |trace|)
    case Unavailable => || !recent || baseline.None?
                        || (&& last.value.state.value.signal && last.value.state.value.online
                            && (Lost(baseline, trace, |trace|) || !baseline.value.online))
  }

  // ---------------------------------------------------------------- one more read

  lemma {:induction false} KeyAtPrefix(baseline: Option<Stream>, trace: seq<Sample>, s: Sample, j: nat)
    requires j < |trace|
    ensures KeyAt(baseline, trace + [s], j) == KeyAt(baseline, trace, j)
  {
    LostPrefix(baseline, trace, s, j + 1);
  }

  lemma LostPrefix(baseline: Option<Stream>, trace: seq<Sample>, s: Sample, n: nat)
    requires n <= |trace|
    ensures Lost(baseline, trace + [s], n) <==> Lost(baseline, trace, n)
  {
    var more := trace + [s];
    assert forall k | 0 <= k < |trace| :: more[k] == trace[k];
    if Lost(baseline, trace, n) {
      var q :| 0 <= q < n && Valid(trace[q]) && !trace[q].state.value.signal
               && (HadSignal(baseline) || exists p | 0 <= p < q :: Valid(trace[p]) && trace[p].state.value.signal);
      if !HadSignal(baseline) {
        var p :| 0 <= p < q && Valid(trace[p]) && trace[p].state.value.signal;
        assert Valid(more[p]) && more[p].state.value.signal;
      }
      assert Valid(more[q]) && !more[q].state.value.signal;
    }
    if Lost(baseline, more, n) {
      var q :| 0 <= q < n && Valid(more[q]) && !more[q].state.value.signal
               && (HadSignal(baseline) || exists p | 0 <= p < q :: Valid(more[p]) && more[p].state.value.signal);
      if !HadSignal(baseline) {
        var p :| 0 <= p < q && Valid(more[p]) && more[p].state.value.signal;
        assert Valid(trace[p]) && trace[p].state.value.signal;
      }
      assert Valid(trace[q]) && !trace[q].state.value.signal;
    }
  }

  /** The signal of the latest valid read, or of the baseline. */
  function LastSignal(baseline: Option<Stream>, trace: seq<Sample>): Option<bool> {
    match LastValid(trace)
    case Some(s) => if s.state.Some? then Some(s.state.value.signal) else None
    case None => if baseline.Some? then Some(baseline.value.signal) else None
  }

  /** Read `m` is the latest that told anything. */
  predicate IsLatest(trace: seq<Sample>, m: nat)
    requires m < |trace|
  {
    Valid(trace[m]) && forall k | m < k < |trace| :: !Valid(trace[k])
  }

  lemma {:induction false} LastValidIsValid(trace: seq<Sample>)
    ensures LastValid(trace).None? ==> forall k | 0 <= k < |trace| :: !Valid(trace[k])
    ensures LastValid(trace).Some? ==> exists m | 0 <= m < |trace| :: IsLatest(trace, m) && trace[m] == LastValid(trace).value
  {
    if trace != [] && Valid(trace[|trace| - 1]) {
      assert IsLatest(trace, |trace| - 1);
    } else if trace != [] {
      var init := trace[..|trace| - 1];
      LastValidIsValid(init);
      assert forall k | 0 <= k < |init| :: init[k] == trace[k];
      if LastValid(trace).Some? {
        var m :| 0 <= m < |init| && IsLatest(init, m) && init[m] == LastValid(init).value;
        assert IsLatest(trace, m);
      }
    }
  }

  /** A transition between consecutive valid reads is the only way a loss can first appear. */
  lemma LostStep(baseline: Option<Stream>, trace: seq<Sample>, s: Sample)
    ensures Lost(baseline, trace + [s], |trace| + 1) <==>
              Lost(baseline, trace, |trace|)
              || (LastSignal(baseline, trace) == Some(true) && Valid(s) && !s.state.value.signal)
  {
    var more := trace + [s];
    LastValidIsValid(trace);
    LostPrefix(baseline, trace, s, |trace|);
    if LastSignal(baseline, trace) == Some(true) && Valid(s) && !s.state.value.signal {
      assert Valid(more[|trace|]) && !more[|trace|].state.value.signal;
      if LastValid(trace).Some? {
        var m :| 0 <= m < |trace| && IsLatest(trace, m) && trace[m] == LastValid(trace).value;
        assert Valid(more[m]) && more[m].state.value.signal;
      }
    }
    if Lost(baseline, more, |more|) && !Lost(baseline, trace, |trace|) {
      LostNow(baseline, trace, s);
    }
  }

  lemma LostNow(baseline: Option<Stream>, trace: seq<Sample>, s: Sample)
    requires Lost(baseline, trace + [s], |trace| + 1) && !Lost(baseline, trace, |trace|)
    ensures LastSignal(baseline, trace) == Some(true) && Valid(s) && !s.state.value.signal
  {
    var more := trace + [s];
    LostPrefix(baseline, trace, s, |trace|);
    var q :| 0 <= q < |more| && Valid(more[q]) && !more[q].state.value.signal
             && (HadSignal(baseline) || exists p | 0 <= p < q :: Valid(more[p]) && more[p].state.value.signal);
    assert q == |trace|;
    LastValidIsValid(trace);
    if LastValid(trace).Some? {
      var m :| 0 <= m < |trace| && IsLatest(trace, m) && trace[m] == LastValid(trace).value;
      assert trace[m].state.value.signal by {
        assert more[m] == trace[m];
        assert forall p | 0 <= p < |trace| && Valid(more[p]) :: more[p] == trace[p] && p <= m;
      }
    }
  }

  // ---------------------------------------------------------------- the debouncing

  /** The streaming state against the history: `candidate` is what the latest read is evidence of,
      `stableSince` when the run of such reads began, at read `start`; nothing has settled. */
  ghost predicate Tracking(baseline: Option<Stream>, trace: seq<Sample>, candidate: Option<Key>, stableSince: int, start: nat) {
    && (forall j | 0 <= j < |trace| :: !Settled(baseline, trace, j))
    && (candidate.Some? ==>
          && start < |trace| && Same(baseline, trace, start, |trace| - 1) && stableSince == trace[start].at
          && KeyAt(baseline, trace, |trace| - 1) == candidate
          && (start > 0 ==> KeyAt(baseline, trace, start - 1) != candidate))
    && (candidate.None? && trace != [] ==> KeyAt(baseline, trace, |trace| - 1).None?)
  }

  lemma SettledPrefix(baseline: Option<Stream>, trace: seq<Sample>, s: Sample, j: nat)
    requires j < |trace|
    ensures Settled(baseline, trace + [s], j) <==> Settled(baseline, trace, j)
  {
    hide KeyAt;
    var more := trace + [s];
    forall k | 0 <= k < |trace| ensures more[k] == trace[k] && KeyAt(baseline, more, k) == KeyAt(baseline, trace, k) {
      KeyAtPrefix(baseline, trace, s, k);
    }
    forall i | 0 <= i <= j ensures Same(baseline, more, i, j) <==> Same(baseline, trace, i, j) {
    }
  }

  /** A read that is evidence of something else, or of nothing, starts over. */
  lemma StartsOver(baseline: Option<Stream>, trace: seq<Sample>, s: Sample, candidate: Option<Key>, stableSince: int, start: nat)
    requires Tracking(baseline, trace, candidate, stableSince, start)
    requires KeyAt(baseline, trace + [s], |trace|) != candidate || candidate.None?
    ensures Tracking(baseline, trace + [s], KeyAt(baseline, trace + [s], |trace|), s.at, |trace|)
  {
    var more := trace + [s];
    var key := KeyAt(baseline, more, |trace|);
    forall j | 0 <= j < |more| ensures !Settled(baseline, more, j) {
      if j < |trace| {
        SettledPrefix(baseline, trace, s, j);
      } else {
        forall i | 0 <= i < j ensures !Same(baseline, more, i, j) {
          KeyAtPrefix(baseline, trace, s, j - 1);
        }
      }
    }
    if |trace| > 0 {
      KeyAtPrefix(baseline, trace, s, |trace| - 1);
    }
  }

  /** A read that is evidence of the same thing extends the run, which settles exactly when it is
      long enough. */
  lemma Continues(baseline: Option<Stream>, trace: seq<Sample>, s: Sample, candidate: Option<Key>, stableSince: int, start: nat)
    requires Tracking(baseline, trace, candidate, stableSince, start)
    requires candidate.Some? && KeyAt(baseline, trace + [s], |trace|) == candidate
    requires forall i, j | 0 <= i <= j < |trace + [s]| :: (trace + [s])[i].at <= (trace + [s])[j].at
    ensures Settled(baseline, trace + [s], |trace|) <==> s.at - stableSince >= VIDEO_SETTLE_MS
    ensures s.at - stableSince < VIDEO_SETTLE_MS ==> Tracking(baseline, trace + [s], candidate, stableSince, start)
    ensures forall j | 0 <= j < |trace| :: !Settled(baseline, trace + [s], j)
  {
    hide KeyAt;
    var more := trace + [s];
    var n := |trace|;
    forall k | 0 <= k < n ensures more[k] == trace[k] && KeyAt(baseline, more, k) == KeyAt(baseline, trace, k) {
      KeyAtPrefix(baseline, trace, s, k);
    }
    forall j | 0 <= j < n ensures !Settled(baseline, more, j) {
      SettledPrefix(baseline, trace, s, j);
    }
    assert Same(baseline, more, start, n);
    assert more[n] == s && more[start] == trace[start];
    if start > 0 {
      assert KeyAt(baseline, more, start - 1) != KeyAt(baseline, more, n);
    }
    forall i | 0 <= i < start ensures !Same(baseline, more, i, n) {
    }
    if s.at - stableSince < VIDEO_SETTLE_MS {
      forall i | 0 <= i <= n && Same(baseline, more, i, n) ensures more[n].at - more[i].at < VIDEO_SETTLE_MS {
        assert more[start].at <= more[i].at;
      }
    }
  }

  /** The stream state as it is read. `readings` is every read that finished, `pauses` counts the
      pauses between reads; the watch may be aborted during either. */
  class Feed {
    var now: int
    var aborted: bool
    ghost var readings: seq<Sample>
    ghost var pauses: nat

    method Pause()
      modifies this`now, this`aborted, this`pauses
      ensures now > old(now) && (old(aborted) ==> aborted) && pauses == old(pauses) + 1
    {
      Await();
      pauses := pauses + 1;
    }

    /** Time passes. */
    method Await()
      modifies this`now, this`aborted
      ensures now > old(now) && (old(aborted) ==> aborted)
    {
      var t :| now < t;
      now := t;
      var aborts: bool := *;
      aborted := aborted || aborts;
    }

    /** A read begins only while the watch is on. */
    method Read(ghost deadline: int) returns (s: Sample)
      requires !aborted && now < deadline
      modifies this`now, this`aborted, this`readings
      ensures now > old(now) && (old(aborted) ==> aborted)
      ensures s.at == now && readings == old(readings) + [s]
    {
      Await();
      var state: Option<Stream> := *;
      s := Sample(now, state);
      readings := readings + [s];
    }
  }

  /** Watch until something settles, the deadline passes or the watch is aborted. `trace` is what was
      read: every reading of the watch, but for one that finished too late to count. Every pause
      follows a reading of its own. */
  method WatchVideoChange(baseline: Option<Stream>, feed: Feed) returns (verdict: Verdict, ghost trace: seq<Sample>)
    modifies feed
    ensures InTime(trace, old(feed.now) + VIDEO_CHECK_MS)
    ensures forall j | 0 <= j < |trace| - 1 :: !Settled(baseline, trace, j)
    ensures verdict.Positive? <==> trace != [] && Settled(baseline, trace, |trace| - 1)
    ensures verdict.Positive? ==> KeyAt(baseline, trace, |trace| - 1) == Some(verdict.key)
    ensures verdict.Negative? ==> Justified(verdict.idle, baseline, trace, feed.now)
    ensures verdict.Negative? ==> feed.aborted || feed.now >= old(feed.now) + VIDEO_CHECK_MS
    ensures feed.pauses - old(feed.pauses) <= |feed.readings| - |old(feed.readings)|
    ensures verdict.Negative? && !feed.aborted ==> |feed.readings| > |old(feed.readings)|
    ensures || feed.readings == old(feed.readings) + trace
            || (&& verdict.Negative? && |feed.readings| == |old(feed.readings)| + |trace| + 1
                && old(feed.readings) + trace <= feed.readings
                && (feed.aborted || feed.readings[|feed.readings| - 1].at >= old(feed.now) + VIDEO_CHECK_MS))
  {
    hide KeyAt, Settled, Lost, LastSignal, LastValid, Same;
    var deadline := feed.now + VIDEO_CHECK_MS;
    var lastSignal := if baseline.Some? then Some(baseline.value.signal) else None;
    var sawLoss := false;
    var candidate: Option<Key>, stableSince := None, 0;
    var latest: Option<Sample> := None;
    ghost var start: nat := 0;
    trace := [];
    NothingYet(baseline);
    assert feed.readings + trace == feed.readings;
    while !feed.aborted && feed.now < deadline
      invariant old(feed.now) <= feed.now && feed.readings == old(feed.readings) + trace
      invariant feed.pauses == old(feed.pauses) + |trace| && (trace == [] ==> feed.now == old(feed.now))
      invariant InTime(trace, deadline) && forall i | 0 <= i < |trace| :: trace[i].at <= feed.now
      invariant lastSignal == LastSignal(baseline, trace)
      invariant sawLoss == Lost(baseline, trace, |trace|)
      invariant latest == LastValid(trace)
      invariant Tracking(baseline, trace, candidate, stableSince, start)
      decreases deadline - feed.now
    {
      var s := feed.Read(deadline);
      var now, current := feed.now, s.state;
      assert feed.readings == old(feed.readings) + (trace + [s]);
      if feed.aborted || now >= deadline { break; }
      LostStep(baseline, trace, s);
      LatestStep(baseline, trace, s);
      if current.Some? {
        latest := Some(s);
        if lastSignal == Some(true) && !current.value.signal {
          sawLoss := true;
        }
        lastSignal := Some(current.value.signal);
      }
      var key := Evidence(baseline, current, sawLoss);
      EvidenceIsKey(baseline, trace, s, sawLoss);
      if key != candidate || key.None? {
        StartsOver(baseline, trace, s, candidate, stableSince, start);
        start := |trace|;
        candidate, stableSince := key, now;
      } else {
        Continues(baseline, trace, s, candidate, stableSince, start);
        if now - stableSince >= VIDEO_SETTLE_MS {
          trace := trace + [s];
          return Positive(key.value), trace;
        }
      }
      trace := trace + [s];
      feed.Pause();
    }
    var recent := latest.Some? && feed.now - latest.value.at < STREAM_READ_TIMEOUT_MS + VIDEO_POLL_MS * 2;
    LastValidIsValid(trace);
    TrackedIsUnsettled(baseline, trace, candidate, stableSince, start);
    var idle :=
      if !recent || baseline.None? then Unavailable
      else if !latest.value.state.value.signal then NoSignal
      else if !latest.value.state.value.online then NotReady
      else if sawLoss || !baseline.value.online then Unavailable
      else Unchanged;
    return Negative(idle), trace;
  }

  /** What one read is evidence of, from the loss flag kept so far. */
  function Evidence(baseline: Option<Stream>, current: Option<Stream>, sawLoss: bool): Option<Key> {
    match current
    case None => None
    case Some(s) =>
      if !(s.signal && s.online) then None
      else if sawLoss then Some(Key(Returned, s.width, s.height, s.frameRate))
      else if baseline.Some? && !baseline.value.signal then Some(Key(Appeared, s.width, s.height, s.frameRate))
      else if baseline.Some? && baseline.value.signal && baseline.value.online
              && (|| s.width != baseline.value.width || s.height != baseline.value.height
                  || (s.frameRate.Some? && baseline.value.frameRate.Some? && s.frameRate != baseline.value.frameRate))
      then Some(Key(Changed, s.width, s.height, s.frameRate))
      else None
  }

  lemma EvidenceIsKey(baseline: Option<Stream>, trace: seq<Sample>, s: Sample, sawLoss: bool)
    requires sawLoss == Lost(baseline, trace + [s], |trace| + 1)
    ensures Evidence(baseline, s.state, sawLoss) == KeyAt(baseline, trace + [s], |trace|)
  {
  }

  lemma NothingYet(baseline: Option<Stream>)
    ensures !Lost(baseline, [], 0) && LastValid([]).None? && Tracking(baseline, [], None, 0, 0)
    ensures LastSignal(baseline, []) == if baseline.Some? then Some(baseline.value.signal) else None
  {
  }

  lemma LatestStep(baseline: Option<Stream>, trace: seq<Sample>, s: Sample)
    ensures LastValid(trace + [s]) == if Valid(s) then Some(s) else LastValid(trace)
    ensures LastSignal(baseline, trace + [s]) == if Valid(s) then Some(s.state.value.signal) else LastSignal(baseline, trace)
  {
    assert (trace + [s])[..|trace|] == trace;
  }

  lemma TrackedIsUnsettled(baseline: Option<Stream>, trace: seq<Sample>, candidate: Option<Key>, stableSince: int, start: nat)
    requires Tracking(baseline, trace, candidate, stableSince, start)
    ensures forall j | 0 <= j < |trace| :: !Settled(baseline, trace, j)
  {
  }

  /** A "returned" verdict rests on a signal seen and then seen gone. */
  lemma ReturnedMeansLost(baseline: Option<Stream>, trace: seq<Sample>, j: nat)
    requires j < |trace| && KeyAt(baseline, trace, j).Some? && KeyAt(baseline, trace, j).value.kind == Returned
    ensures Lost(baseline, trace, j) && Valid(trace[j]) && trace[j].state.value.signal && trace[j].state.value.online
  {
  }

  lemma LostBy(baseline: Option<Stream>, trace: seq<Sample>, p: nat, q: nat, j: nat)
    requires p <= q <= j < |trace| && Valid(trace[q]) && !trace[q].state.value.signal
    requires HadSignal(baseline) || (p < q && Valid(trace[p]) && trace[p].state.value.signal)
    ensures Lost(baseline, trace, j + 1)
  {
  }

  /** An "appeared" verdict rests on a reference without a signal and on reads that, once they showed
      a signal, kept showing it. */
  lemma AppearedMeansNeverLost(baseline: Option<Stream>, trace: seq<Sample>, j: nat)
    requires j < |trace| && KeyAt(baseline, trace, j).Some? && KeyAt(baseline, trace, j).value.kind == Appeared
    ensures baseline.Some? && !baseline.value.signal && Live(trace[j])
    ensures forall p, q | 0 <= p < q <= j && Valid(trace[p]) && Valid(trace[q]) && trace[p].state.value.signal :: trace[q].state.value.signal
  {
    hide Lost;
    forall p, q | 0 <= p < q <= j && Valid(trace[p]) && Valid(trace[q]) && trace[p].state.value.signal
      ensures trace[q].state.value.signal
    {
      if !trace[q].state.value.signal {
        LostBy(baseline, trace, p, q, j);
      }
    }
  }

  /** A "changed" verdict rests on a live reference, on a signal in every read, and on a size or a
      known frame rate other than the reference's. */
  lemma ChangedMeansOtherMode(baseline: Option<Stream>, trace: seq<Sample>, j: nat)
    requires j < |trace| && KeyAt(baseline, trace, j).Some? && KeyAt(baseline, trace, j).value.kind == Changed
    ensures baseline.Some? && baseline.value.signal && baseline.value.online && Live(trace[j])
    ensures forall q | 0 <= q <= j && Valid(trace[q]) :: trace[q].state.value.signal
    ensures var now, was := trace[j].state.value, baseline.value;
            (now.width, now.height) != (was.width, was.height)
            || (now.frameRate.Some? && was.frameRate.Some? && now.frameRate.value != was.frameRate.value)
  {
    hide Lost;
    forall q | 0 <= q <= j && Valid(trace[q]) ensures trace[q].state.value.signal {
      if !trace[q].state.value.signal {
        LostBy(baseline, trace, q, q, j);
      }
    }
  }

  predicate Live(s: Sample) { Valid(s) && s.state.value.signal && s.state.value.online }

  /** Live video is evidence of something unless it cannot be told from the reference, and of what is
      on screen; anything else is evidence of nothing. */
  lemma EvidenceIsLive(baseline: Option<Stream>, trace: seq<Sample>, j: nat)
    requires j < |trace|
    ensures KeyAt(baseline, trace, j).Some? ==>
              && Live(trace[j])
              && var k, s := KeyAt(baseline, trace, j).value, trace[j].state.value;
                 k.width == s.width && k.height == s.height && k.frameRate == s.frameRate
    ensures Live(trace[j]) && (forall q | 0 <= q < j :: !Valid(trace[q])) ==>
              (KeyAt(baseline, trace, j).None? <==>
                 || baseline.None? || (baseline.value.signal && !baseline.value.online)
                 || (baseline.value.signal && baseline.value.online && !DiffersFrom(baseline.value, trace[j].state.value)))
  {
    if Live(trace[j]) && forall q | 0 <= q < j :: !Valid(trace[q]) {
      assert !Lost(baseline, trace, j + 1);
    }
  }
}
