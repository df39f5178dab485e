/** The two invariants of the collector: what the store and the pending records account for, and
    what the process remembers of what it sent; and how each step keeps them. */
module Accounting {
  import opened Arithmetic
  import opened Wrappers
  import opened WindowReading
  import opened PageByPage
  import opened Delivery
  import opened Resending
  import opened ConsoleSession
  import opened Journal

  /** What is stored, with the gaps still pending, covers every instant from the start of the chain
      to the watermark, and every persisted checkpoint is backed. */
  ghost predicate Accounted(records: seq<Record>, history: seq<WindowRead>, sinkOrigin: int, cap: nat,
                            pending: seq<Record>, watermark: Option<int>, origin: int)
  {
    match watermark
    case None => Safe(records, history, cap, sinkOrigin) && pending == []
    case Some(w) =>
      && Safe(records, history, cap, sinkOrigin)
      && (forall i | 0 <= i < |pending| :: pending[i].Gap?)
      && origin <= w && (HasCheckpoint(records) ==> sinkOrigin == origin)
      && Covered(records + pending, history, cap, origin, w)
  }

  /** Nothing sent is forgotten while it could be shown again. */
  ghost predicate Recalled(records: seq<Record>, earlier: seq<Record>, sent: seq<Row>, definite: bool,
                           watermark: Option<int>, seen: map<FlowId, int>, resumedAt: int, overlap: nat)
  {
    match watermark
    case None => Faithful(records, earlier, sent, definite) && seen == map[] && sent == []
    case Some(w) =>
      && Faithful(records, earlier, sent, definite)
      && resumedAt <= w && Memory(records, sent, seen, w - overlap, resumedAt - overlap)
  }

  // ---------------------------------------------------------------- sending

  lemma AccountShipped(rows: seq<Row>, known: map<FlowId, int>, posts: seq<seq<Row>>, lost: seq<Row>,
                       before: seq<Record>, after: seq<Record>, seen: map<FlowId, int>,
                       history: seq<WindowRead>, sinkOrigin: int, cap: nat,
                       pending: seq<Record>, watermark: Option<int>, origin: int)
    requires Accounted(before, history, sinkOrigin, cap, pending, watermark, origin) && watermark.Some?
    requires Shipped(rows, known, posts, lost, before, after, seen)
    ensures Accounted(after, history, sinkOrigin, cap, pending, watermark, origin)
    ensures Subsumes(before, after)
  {
    ShippedRecords(rows, known, posts, lost, before, after, seen);
    ShippedKeepsSafe(before, Flatten(posts), lost, pending, history, cap, sinkOrigin, origin, watermark.value);
  }

  lemma RecallShipped(rows: seq<Row>, known: map<FlowId, int>, posts: seq<seq<Row>>, lost: seq<Row>,
                      before: seq<Record>, after: seq<Record>, seen: map<FlowId, int>,
                      earlier: seq<Record>, sent: seq<Row>, definite: bool,
                      watermark: Option<int>, resumedAt: int, overlap: nat)
    requires Recalled(before, earlier, sent, definite, watermark, known, resumedAt, overlap) && watermark.Some?
    requires Shipped(rows, known, posts, lost, before, after, seen)
    requires Distinct(rows) && forall i | 0 <= i < |rows| :: watermark.value - overlap <= rows[i].time
    ensures Recalled(after, earlier, sent + Flatten(posts), definite && lost == [], watermark, seen, resumedAt, overlap)
  {
    ShippedRecords(rows, known, posts, lost, before, after, seen);
    ShippedKeepsMemory(rows, known, posts, lost, before, after, seen, sent,
                       watermark.value - overlap, resumedAt - overlap);
    ShippedKeepsFaithful(before, Flatten(posts), lost, earlier, sent, definite);
  }

  lemma RecallHeld(records: seq<Record>, earlier: seq<Record>, sent: seq<Row>, definite: bool,
                   watermark: Option<int>, seen: map<FlowId, int>, resumedAt: int, overlap: nat)
    requires Recalled(records, earlier, sent, definite, watermark, seen, resumedAt, overlap)
    ensures SeenHeld(records, seen)
  {
  }

  // ---------------------------------------------------------------- starting and persisting

  /** A process that resumes from a persisted checkpoint inherits what backs it. */
  lemma AccountRestored(records: seq<Record>, history: seq<WindowRead>, sinkOrigin: int, cap: nat, stored: int)
    requires Safe(records, history, cap, sinkOrigin)
    requires exists i | 0 <= i < |records| && records[i].Checkpoint? :: records[i].watermark == stored
    ensures Accounted(records, history, sinkOrigin, cap, [], Some(stored), sinkOrigin)
  {
    var i :| 0 <= i < |records| && records[i].Checkpoint? && records[i].watermark == stored;
    SubsumesConcat(records[..i], records[i..], []);
    assert records[..i] + records[i..] == records == records + [];
    CoveredMonotone(records[..i], records, history, history, cap, sinkOrigin, stored);
  }

  lemma AccountStarted(records: seq<Record>, history: seq<WindowRead>, sinkOrigin: int, cap: nat, start: int)
    requires Safe(records, history, cap, sinkOrigin) && !HasCheckpoint(records)
    ensures Accounted(records, history, sinkOrigin, cap, [], Some(start), start)
  {
  }

  lemma RecallStarted(records: seq<Record>, earlier: seq<Record>, definite: bool, start: int, overlap: nat)
    requires Recalled(records, earlier, [], definite, None, map[], start, overlap)
    ensures Recalled(records, earlier, [], definite, Some(start), map[], start, overlap)
  {
  }

  /** The request that persists a checkpoint: the pending gaps, then the checkpoint they justify. */
  function Commit(pending: seq<Record>, at: int, watermark: int, result: CycleResult): (r: seq<Record>)
    ensures |r| == |pending| + 1
  {
    pending + [Checkpoint(at, watermark, result)]
  }

  /** Whatever prefix of that request persists, the store stays safe and the account stands; if all
      of it does, nothing is pending any more. */
  lemma AccountCommitted(records: seq<Record>, history: seq<WindowRead>, sinkOrigin: int, cap: nat,
                         pending: seq<Record>, watermark: int, origin: int, at: int, result: CycleResult, n: nat)
    requires Accounted(records, history, sinkOrigin, cap, pending, Some(watermark), origin)
    requires n <= |pending| + 1
    ensures var after := records + Commit(pending, at, watermark, result)[..n];
            && Accounted(after, history, origin, cap, pending, Some(watermark), origin)
            && (n == |pending| + 1 ==> Accounted(after, history, origin, cap, [], Some(watermark), origin))
  {
    var lines := Commit(pending, at, watermark, result);
    var after := records + lines[..n];
    SafeFromOrigin(records, history, cap, sinkOrigin, origin);
    assert forall i | 0 <= i < |lines| && lines[i].Checkpoint? :: i == |pending|;
    assert lines[..|pending|] == pending;
    PrefixKeepsSafe(records, lines, n, history, cap, origin);
    SubsumesConcat(records, lines[..n], pending);
    CoveredMonotone(records + pending, after + pending, history, history, cap, origin, watermark);
    if n == |pending| + 1 {
      SubsumesConcat(records + pending, [Checkpoint(at, watermark, result)], []);
      assert after == records + pending + [Checkpoint(at, watermark, result)];
      assert after + [] == after;
      CoveredMonotone(records + pending, after, history, history, cap, origin, watermark);
    }
  }

  lemma OriginStands(records: seq<Record>, history: seq<WindowRead>, sinkOrigin: int, cap: nat,
                     pending: seq<Record>, watermark: Option<int>, origin: int)
    requires Accounted(records, history, sinkOrigin, cap, pending, watermark, origin) && watermark.Some?
    ensures HasCheckpoint(records) ==> origin == sinkOrigin
  {
  }

  lemma CommitIsNoFlow(pending: seq<Record>, at: int, watermark: int, result: CycleResult, n: nat)
    requires n <= |pending| + 1 && forall i | 0 <= i < |pending| :: pending[i].Gap?
    ensures FlowLines(Commit(pending, at, watermark, result)[..n]) == []
    ensures forall i | 0 <= i < n :: !Commit(pending, at, watermark, result)[i].FlowLine?
  {
    NoFlowLines(Commit(pending, at, watermark, result)[..n]);
  }

  lemma PendingAreGaps(records: seq<Record>, history: seq<WindowRead>, sinkOrigin: int, cap: nat,
                       pending: seq<Record>, watermark: Option<int>, origin: int)
    requires Accounted(records, history, sinkOrigin, cap, pending, watermark, origin)
    ensures forall i | 0 <= i < |pending| :: pending[i].Gap?
  {
  }

  lemma SafeIn(records: seq<Record>, history: seq<WindowRead>, sinkOrigin: int, cap: nat,
               pending: seq<Record>, watermark: Option<int>, origin: int)
    requires Accounted(records, history, sinkOrigin, cap, pending, watermark, origin)
    ensures Safe(records, history, cap, sinkOrigin)
  {
  }

  /** Before the first checkpoint the start of the chain is still open. */
  lemma SafeFromOrigin(records: seq<Record>, history: seq<WindowRead>, cap: nat, sinkOrigin: int, origin: int)
    requires Safe(records, history, cap, sinkOrigin) && (HasCheckpoint(records) ==> sinkOrigin == origin)
    ensures Safe(records, history, cap, origin)
  {
  }

  /** Gaps and checkpoints are no flow rows. */
  lemma RecallCommitted(records: seq<Record>, pending: seq<Record>, at: int, result: CycleResult, n: nat,
                        earlier: seq<Record>, sent: seq<Row>, definite: bool,
                        watermark: int, seen: map<FlowId, int>, resumedAt: int, overlap: nat)
    requires Recalled(records, earlier, sent, definite, Some(watermark), seen, resumedAt, overlap)
    requires n <= |pending| + 1 && forall i | 0 <= i < |pending| :: pending[i].Gap?
    ensures Recalled(records + Commit(pending, at, watermark, result)[..n], earlier, sent, definite, Some(watermark),
                     seen, resumedAt, overlap)
  {
    var lines := Commit(pending, at, watermark, result)[..n];
    NoFlowLines(lines);
    FlowLinesAppend(records, lines);
    assert FlowLines(records) + [] == FlowLines(records);
    SubsumesConcat(records, lines, []);
    forall id | id in seen ensures Holds(records + lines, id) {
      HoldsMonotone(records, records + lines, id);
    }
  }

  lemma {:induction false} NoFlowLines(lines: seq<Record>)
    requires forall i | 0 <= i < |lines| :: !lines[i].FlowLine?
    ensures FlowLines(lines) == []
  {
    if lines != [] {
      NoFlowLines(lines[..|lines| - 1]);
    }
  }

  // ---------------------------------------------------------------- moving the watermark

  lemma AccountCompleted(records: seq<Record>, history: seq<WindowRead>, sinkOrigin: int, cap: nat,
                         pending: seq<Record>, watermark: Option<int>, origin: int,
                         window: Window, gaps: seq<Record>, read: WindowRead)
    requires Accounted(records, history, sinkOrigin, cap, pending, watermark, origin)
    requires 0 < cap && watermark == Some(read.lo) && read.lo < read.hi
    requires Chained(read.docs) && ReadToTheEnd(read.docs, window, read.start, read.hi, cap, true)
    requires AllHeld(records, window.rows) && IsCapGap(window, read.lo, gaps)
    ensures Accounted(records, history + [read], sinkOrigin, cap, pending + gaps, Some(read.hi), origin)
  {
    WindowExtends(records, pending, gaps, window, read, history, cap, origin);
    SafeWithMoreReads(records, history, history + [read], cap, sinkOrigin);
  }

  lemma RecallPruned(records: seq<Record>, earlier: seq<Record>, sent: seq<Row>, definite: bool,
                     watermark: Option<int>, seen: map<FlowId, int>, resumedAt: int, overlap: nat, from: int)
    requires Recalled(records, earlier, sent, definite, watermark, seen, resumedAt, overlap)
    requires watermark.Some? && from <= watermark.value - overlap
    ensures Recalled(records, earlier, sent, definite, watermark, Prune(seen, from), resumedAt, overlap)
  {
    MemoryPruned(records, sent, seen, watermark.value - overlap, resumedAt - overlap, from);
  }

  lemma AccountGivenUp(records: seq<Record>, history: seq<WindowRead>, sinkOrigin: int, cap: nat,
                       pending: seq<Record>, watermark: Option<int>, origin: int, oldest: int)
    requires Accounted(records, history, sinkOrigin, cap, pending, watermark, origin)
    requires watermark.Some? && watermark.value < oldest
    ensures Accounted(records, history, sinkOrigin, cap, pending + [Gap(watermark.value, oldest, BeyondCatchup)],
                      Some(oldest), origin)
  {
    var gap := Gap(watermark.value, oldest, BeyondCatchup);
    GapExtends(records + pending, history, cap, origin, watermark.value, oldest);
    assert records + pending + [gap] == records + (pending + [gap]);
  }

  lemma RecallLater(records: seq<Record>, earlier: seq<Record>, sent: seq<Row>, definite: bool,
                    watermark: Option<int>, seen: map<FlowId, int>, resumedAt: int, overlap: nat, later: int)
    requires Recalled(records, earlier, sent, definite, watermark, seen, resumedAt, overlap)
    requires watermark.Some? && watermark.value <= later
    ensures Recalled(records, earlier, sent, definite, Some(later), seen, resumedAt, overlap)
  {
    MemoryLater(records, sent, seen, watermark.value - overlap, resumedAt - overlap, later - overlap);
  }

  /** A truncated window leaves one gap, from the old watermark to the oldest row read. */
  ghost predicate IsCapGap(window: Window, lo: int, gaps: seq<Record>) {
    if !window.capped then gaps == [] else
      && |gaps| == 1 && gaps[0].Gap? && gaps[0].start == lo && gaps[0].reason == QueryCap
      && (forall i | 0 <= i < |window.rows| :: gaps[0].end <= window.rows[i].time)
      && (exists i | 0 <= i < |window.rows| :: gaps[0].end == window.rows[i].time)
  }

  /** A window read to the end and held whole, with its gap, extends coverage to its end. */
  lemma WindowExtends(records: seq<Record>, pending: seq<Record>, gaps: seq<Record>, window: Window, read: WindowRead,
                      history: seq<WindowRead>, cap: nat, origin: int)
    requires 0 < cap && Chained(read.docs) && ReadToTheEnd(read.docs, window, read.start, read.hi, cap, true)
    requires AllHeld(records, window.rows) && IsCapGap(window, read.lo, gaps)
    requires Covered(records + pending, history, cap, origin, read.lo) && origin <= read.lo < read.hi
    ensures Covered(records + (pending + gaps), history + [read], cap, origin, read.hi)
    ensures forall i | 0 <= i < |gaps| :: gaps[i].Gap?
  {
    hide Covered, ReadCovers, InGap, Chained, AllHeld;
    if window.capped {
      CappedWindowCovered(records, pending, window, read, cap, gaps[0].end);
      assert gaps == [Gap(read.lo, gaps[0].end, QueryCap)];
    } else {
      FullWindowCovered(records, pending, window, read, cap);
      assert pending + gaps == pending;
    }
    ReadExtends(records + pending, records + (pending + gaps), history, read, cap, origin);
  }

  lemma MoreHeld(records: seq<Record>, more: seq<Record>, rows: seq<Row>)
    requires AllHeld(records, rows)
    ensures AllHeld(records + more, rows) && Subsumes(records, records + more)
  {
    SubsumesConcat(records, more, []);
    forall i | 0 <= i < |rows| ensures Holds(records + more, rows[i].id) {
      HoldsMonotone(records, records + more, rows[i].id);
    }
  }

  lemma FullWindowCovered(records: seq<Record>, pending: seq<Record>, window: Window, read: WindowRead, cap: nat)
    requires 0 < cap && Chained(read.docs) && !window.capped
    requires ReadToTheEnd(read.docs, window, read.start, read.hi, cap, true)
    requires AllHeld(records, window.rows)
    ensures Subsumes(records + pending, records + pending)
    ensures forall t | read.lo <= t <= read.hi ::
              InGap(records + pending, t) || ReadCovers(records + pending, read, cap, t)
  {
    MoreHeld(records, pending, window.rows);
    forall t | read.lo <= t <= read.hi ensures ReadCovers(records + pending, read, cap, t) {
      FullReadCovers(records + pending, read, cap, window.rows, t);
    }
  }

  lemma CappedWindowCovered(records: seq<Record>, pending: seq<Record>, window: Window, read: WindowRead, cap: nat, oldest: int)
    requires 0 < cap && Chained(read.docs) && window.capped
    requires ReadToTheEnd(read.docs, window, read.start, read.hi, cap, true)
    requires AllHeld(records, window.rows)
    requires forall i | 0 <= i < |window.rows| :: oldest <= window.rows[i].time
    requires exists i | 0 <= i < |window.rows| :: oldest == window.rows[i].time
    ensures var more := records + (pending + [Gap(read.lo, oldest, QueryCap)]);
            && Subsumes(records + pending, more)
            && forall t | read.lo <= t <= read.hi :: InGap(more, t) || ReadCovers(more, read, cap, t)
  {
    var gap := [Gap(read.lo, oldest, QueryCap)];
    var more := records + (pending + gap);
    assert more == records + pending + gap;
    SubsumesConcat(records + pending, gap, []);
    MoreHeld(records, pending + gap, window.rows);
    DictFacts(AllRows(read.docs));
    assert more[|more| - 1] == gap[0];
    forall t | read.lo <= t <= read.hi ensures InGap(more, t) || ReadCovers(more, read, cap, t) {
      CappedReadCovers(more, read, cap, window.rows, oldest, t);
    }
  }

  // ---------------------------------------------------------------- what the records say is so

  /** Completed reads are stored whole, and gaps, stored or pending, are recorded only for time
      beyond the catch-up limit or hidden by the query cap. */
  ghost predicate Truthful(records: seq<Record>, pending: seq<Record>, history: seq<WindowRead>, cap: nat, horizon: int) {
    HistoryKept(records, history, cap) && GapsJustified(records + pending, history, cap, horizon)
  }

  /** Flow rows, or what was pending already, may be added to the store. */
  lemma TruthGrows(records: seq<Record>, lines: seq<Record>, pending: seq<Record>, rest: seq<Record>,
                   history: seq<WindowRead>, cap: nat, horizon: int)
    requires Truthful(records, pending, history, cap, horizon)
    requires forall i | 0 <= i < |lines| && lines[i].Gap? :: lines[i] in pending
    requires forall i | 0 <= i < |rest| && rest[i].Gap? :: rest[i] in pending
    ensures Truthful(records + lines, rest, history, cap, horizon)
  {
    SubsumesConcat(records, lines, []);
    KeptMonotone(records, records + lines, history, cap);
    var more := records + lines + rest;
    forall i | 0 <= i < |more| && more[i].Gap? ensures more[i] in records + pending {
      if i < |records| {
        assert (records + pending)[i] == more[i];
      } else {
        assert more[i] in lines || more[i] in rest;
      }
    }
    JustifiedFrom(records + pending, more, history, cap, horizon);
  }

  lemma TruthShipped(rows: seq<Row>, known: map<FlowId, int>, posts: seq<seq<Row>>, lost: seq<Row>,
                     before: seq<Record>, after: seq<Record>, seen: map<FlowId, int>,
                     pending: seq<Record>, history: seq<WindowRead>, cap: nat, horizon: int)
    requires Truthful(before, pending, history, cap, horizon)
    requires Shipped(rows, known, posts, lost, before, after, seen)
    ensures Truthful(after, pending, history, cap, horizon)
  {
    hide Truthful, Shipped;
    ShippedRecords(rows, known, posts, lost, before, after, seen);
    var lines := Lines(Flatten(posts)) + Lines(lost);
    assert after == before + lines;
    TruthGrows(before, lines, pending, pending, history, cap, horizon);
  }

  lemma TruthCommitted(records: seq<Record>, pending: seq<Record>, at: int, watermark: int, result: CycleResult, n: nat,
                       history: seq<WindowRead>, cap: nat, horizon: int)
    requires Truthful(records, pending, history, cap, horizon) && n <= |pending| + 1
    ensures Truthful(records + Commit(pending, at, watermark, result)[..n], pending, history, cap, horizon)
    ensures n == |pending| + 1 ==> Truthful(records + Commit(pending, at, watermark, result)[..n], [], history, cap, horizon)
  {
    hide Truthful;
    var lines := Commit(pending, at, watermark, result)[..n];
    TruthGrows(records, lines, pending, pending, history, cap, horizon);
    TruthGrows(records, lines, pending, [], history, cap, horizon);
  }

  lemma TruthGivenUp(records: seq<Record>, pending: seq<Record>, history: seq<WindowRead>, cap: nat,
                     horizon: int, watermark: int, oldest: int)
    requires Truthful(records, pending, history, cap, horizon) && watermark < oldest
    ensures Truthful(records, pending + [Gap(watermark, oldest, BeyondCatchup)], history, cap, Max(horizon, oldest))
  {
    var gap := Gap(watermark, oldest, BeyondCatchup);
    var more := records + (pending + [gap]);
    JustifiedMonotone(records + pending, history, history, cap, horizon, Max(horizon, oldest));
    assert more == records + pending + [gap];
    forall i | 0 <= i < |more| && more[i].Gap? ensures more[i] in records + pending || GapJustified(more[i], history, cap, Max(horizon, oldest)) {
      if i < |records + pending| {
        assert more[i] == (records + pending)[i];
      } else {
        assert more[i] == gap;
      }
    }
    JustifiedFrom(records + pending, more, history, cap, Max(horizon, oldest));
  }

  lemma TruthCompleted(records: seq<Record>, pending: seq<Record>, history: seq<WindowRead>, cap: nat, horizon: int,
                       window: Window, gaps: seq<Record>, read: WindowRead)
    requires Truthful(records, pending, history, cap, horizon) && 0 < cap && read.start <= Max(read.lo, 0) && read.lo < read.hi
    requires Chained(read.docs) && ReadToTheEnd(read.docs, window, read.start, read.hi, cap, true)
    requires AllHeld(records, window.rows) && IsCapGap(window, read.lo, gaps)
    ensures Truthful(records, pending + gaps, history + [read], cap, horizon)
  {
    var newer := history + [read];
    ReadIsKept(records, window, read, cap);
    hide ReadToTheEnd, AllHeld, ReadKept, TruncatedAt, Chained;
    assert newer[|history|] == read;
    forall k | 0 <= k < |newer| ensures ReadKept(records, newer[k], cap) {
      if k < |history| { assert newer[k] == history[k]; }
    }
    JustifiedMonotone(records + pending, history, newer, cap, horizon, horizon);
    var more := records + (pending + gaps);
    assert more == records + pending + gaps;
    forall i | 0 <= i < |more| && more[i].Gap? ensures more[i] in records + pending || GapJustified(more[i], newer, cap, horizon) {
      if i < |records + pending| {
        assert more[i] == (records + pending)[i];
      } else {
        assert more[i] == gaps[0] && newer[|history|].lo == gaps[0].start;
      }
    }
    JustifiedFrom(records + pending, more, newer, cap, horizon);
  }

  /** A window read to its end and held whole is a read kept. */
  lemma ReadIsKept(records: seq<Record>, window: Window, read: WindowRead, cap: nat)
    requires 0 < cap && Chained(read.docs) && ReadToTheEnd(read.docs, window, read.start, read.hi, cap, true)
    requires AllHeld(records, window.rows) && read.start <= Max(read.lo, 0) && read.lo < read.hi
    ensures ReadKept(records, read, cap)
    ensures forall lo: int, gaps: seq<Record> | window.capped && IsCapGap(window, lo, gaps) :: TruncatedAt(read, gaps[0].end, cap)
  {
    var rows := AllRows(read.docs);
    if window.capped {
      DictFacts(rows);
      forall i | 0 <= i < |rows| ensures Holds(records, rows[i].id) {
        assert rows[i].id in Ids(rows);
        var j :| 0 <= j < |window.rows| && window.rows[j].id == rows[i].id;
      }
    } else {
      FullPagesCount(read.docs, read.start, read.hi, cap);
    }
  }

  /** Persisting the pending gaps and a checkpoint keeps all three invariants, whatever prefix of the
      request persists; when all of it does, nothing needs to be pending any more. */
  lemma CommitKeeps(records: seq<Record>, history: seq<WindowRead>, sinkOrigin: int, cap: nat, horizon: int,
                    pending: seq<Record>, watermark: Option<int>, origin: int, at: int, result: CycleResult, n: nat, after: seq<Record>,
                    earlier: seq<Record>, sent: seq<Row>, definite: bool, seen: map<FlowId, int>, resumedAt: int, overlap: nat)
    requires Accounted(records, history, sinkOrigin, cap, pending, watermark, origin) && watermark.Some?
    requires Recalled(records, earlier, sent, definite, watermark, seen, resumedAt, overlap)
    requires Truthful(records, pending, history, cap, horizon)
    requires n <= |pending| + 1 && after == records + Commit(pending, at, watermark.value, result)[..n]
    ensures Accounted(after, history, origin, cap, pending, watermark, origin)
    ensures n == |pending| + 1 ==> Accounted(after, history, origin, cap, [], watermark, origin)
    ensures Recalled(after, earlier, sent, definite, watermark, seen, resumedAt, overlap)
    ensures Truthful(after, pending, history, cap, horizon) && (n == |pending| + 1 ==> Truthful(after, [], history, cap, horizon))
    ensures records <= after && forall i | |records| <= i < |after| :: !after[i].FlowLine?
    ensures FlowLines(Commit(pending, at, watermark.value, result)[..n]) == []
    ensures HasCheckpoint(records) ==> origin == sinkOrigin && HasCheckpoint(after)
  {
    hide *;
    var lines := Commit(pending, at, watermark.value, result)[..n];
    OriginStands(records, history, sinkOrigin, cap, pending, watermark, origin);
    TruthCommitted(records, pending, at, watermark.value, result, n, history, cap, horizon);
    AccountCommitted(records, history, sinkOrigin, cap, pending, watermark.value, origin, at, result, n);
    PendingAreGaps(records, history, sinkOrigin, cap, pending, watermark, origin);
    RecallCommitted(records, pending, at, result, n, earlier, sent, definite, watermark.value, seen, resumedAt, overlap);
    CommitIsNoFlow(pending, at, watermark.value, result, n);
    assert forall i | |records| <= i < |after| :: after[i] == lines[i - |records|];
    if HasCheckpoint(records) { CheckpointStays(records, after); }
  }

  lemma ShippedIsStored(a: Log, b: Log, rows: seq<Row>, known: map<FlowId, int>, posts: seq<seq<Row>>, lost: seq<Row>,
                        seen: map<FlowId, int>)
    requires Distinct(rows) && Shipped(rows, known, posts, lost, a.records, b.records, seen)
    requires b == a.(records := b.records, sent := a.sent + Flatten(posts), strays := a.strays + |lost|,
                     definite := a.definite && lost == [], troubles := b.troubles) && a.troubles <= b.troubles
    ensures HasStored(a, b, rows)
  {
    ShippedFromRows(rows, known, posts, lost, a.records, b.records, seen);
    hide Shipped, Distinct, Flatten;
    forall i | |a.records| <= i < |b.records| ensures exists j | 0 <= j < |rows| :: IsLineOf(b.records[i], rows[j]) {
      var j :| 0 <= j < |rows| && rows[j].line.Some? && b.records[i] == FlowLine(rows[j].id, rows[j].time, rows[j].line.value);
      assert IsLineOf(b.records[i], rows[j]);
    }
  }

  /** Sending a window, to the end or not, keeps all three invariants, and to the end it is held whole. */
  lemma WindowSent(rows: seq<Row>, known: map<FlowId, int>, posts: seq<seq<Row>>, lost: seq<Row>,
                   before: seq<Record>, after: seq<Record>, seen: map<FlowId, int>,
                   history: seq<WindowRead>, sinkOrigin: int, cap: nat, horizon: int,
                   pending: seq<Record>, watermark: Option<int>, origin: int,
                   earlier: seq<Record>, sent: seq<Row>, definite: bool, resumedAt: int, overlap: nat)
    requires Accounted(before, history, sinkOrigin, cap, pending, watermark, origin)
    requires Recalled(before, earlier, sent, definite, watermark, known, resumedAt, overlap)
    requires Truthful(before, pending, history, cap, horizon)
    requires watermark.Some? && Distinct(rows) && Shipped(rows, known, posts, lost, before, after, seen)
    requires forall i | 0 <= i < |rows| :: watermark.value - overlap <= rows[i].time
    ensures Accounted(after, history, sinkOrigin, cap, pending, watermark, origin)
    ensures Recalled(after, earlier, sent + Flatten(posts), definite && lost == [], watermark, seen, resumedAt, overlap)
    ensures Truthful(after, pending, history, cap, horizon)
    ensures lost == [] && Flatten(posts) == Unseen(rows, known) ==> AllHeld(after, rows)
  {
    hide *;
    TruthShipped(rows, known, posts, lost, before, after, seen, pending, history, cap, horizon);
    AccountShipped(rows, known, posts, lost, before, after, seen, history, sinkOrigin, cap, pending, watermark, origin);
    RecallShipped(rows, known, posts, lost, before, after, seen, earlier, sent, definite, watermark, resumedAt, overlap);
    RecallHeld(before, earlier, sent, definite, watermark, known, resumedAt, overlap);
    if lost == [] && Flatten(posts) == Unseen(rows, known) {
      ShippedAll(rows, known, posts, before, after, seen);
    }
  }

  /** Moving the watermark over a window read to its end and held whole keeps all three invariants. */
  lemma WindowCompleted(records: seq<Record>, history: seq<WindowRead>, sinkOrigin: int, cap: nat, horizon: int,
                        pending: seq<Record>, watermark: Option<int>, origin: int, window: Window, gaps: seq<Record>, read: WindowRead,
                        earlier: seq<Record>, sent: seq<Row>, definite: bool, seen: map<FlowId, int>, resumedAt: int, overlap: nat)
    requires Accounted(records, history, sinkOrigin, cap, pending, watermark, origin)
    requires Recalled(records, earlier, sent, definite, watermark, seen, resumedAt, overlap)
    requires Truthful(records, pending, history, cap, horizon)
    requires 0 < cap && watermark == Some(read.lo) && read.lo < read.hi && read.start <= Max(read.lo, 0)
    requires Chained(read.docs) && ReadToTheEnd(read.docs, window, read.start, read.hi, cap, true)
    requires AllHeld(records, window.rows) && IsCapGap(window, read.lo, gaps)
    ensures Accounted(records, history + [read], sinkOrigin, cap, pending + gaps, Some(read.hi), origin)
    ensures Recalled(records, earlier, sent, definite, Some(read.hi), seen, resumedAt, overlap)
    ensures Truthful(records, pending + gaps, history + [read], cap, horizon)
  {
    hide *;
    TruthCompleted(records, pending, history, cap, horizon, window, gaps, read);
    AccountCompleted(records, history, sinkOrigin, cap, pending, watermark, origin, window, gaps, read);
    RecallLater(records, earlier, sent, definite, watermark, seen, resumedAt, overlap, read.hi);
  }

  /** The invariants of a process, at the end of its life. */
  lemma EndOfLife(found: Store, l: Log, watermark: Option<int>, seen: map<FlowId, int>, resumedAt: int,
                  terms: Terms)
    requires Later(Born(found), l, terms) && Kept(l.trace, terms.poll) && Settled(l.trace)
    requires Recalled(l.records, l.earlier, l.sent, l.definite, watermark, seen, resumedAt, terms.overlap)
    requires l.resumedAt == if watermark.Some? then Some(resumedAt) else None
    ensures Lived(found, l, terms)
  {
    KeptIsSpaced(l.trace, terms.poll);
    KeptIsHeeded(l.trace, terms.poll);
    hide Kept, Settled, Heeded, Spaced, Measured, OneLoginEach, Remembered, SeenHeld, ReadsServed, RowsServed, ReadsInTurn, HasCheckpoint;
    if watermark.Some? && OneTime(l.sent) {
      OneTimeSentOnce(l.sent);
    }
  }

  lemma OnlyGrows(found: Store, l: Log, terms: Terms)
    requires Later(Born(found), l, terms)
    ensures found.records <= l.records && found.history <= l.history
  {
  }
}
