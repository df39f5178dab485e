/** What the log store holds, and what it means for it to account for a span of time. */
module Delivery {
  import opened Arithmetic
  import opened Wrappers
  import opened WindowReading

  datatype GapReason = BeyondCatchup | QueryCap

  /** One stored JSON line. */
  datatype Record =
    | FlowLine(id: FlowId, time: int, length: nat)
    | Gap(start: int, end: int, reason: GapReason)
    | Checkpoint(at: int, watermark: int, result: CycleResult)

  datatype CycleResult =
    | Done | NoRows | Backlog | Incomplete | AuthFailed | AccessDenied | RateLimited
    | ReadFailed | IngestFailed | StateUnavailable

  /** A window the collector treated as complete: the watermark moved from `lo` to `hi` after
      the pages `docs` were received for [start, hi]. */
  datatype WindowRead = WindowRead(lo: int, start: int, hi: int, docs: seq<Document>)

  ghost predicate Holds(records: seq<Record>, id: FlowId) {
    exists i | 0 <= i < |records| :: records[i].FlowLine? && records[i].id == id
  }

  ghost predicate InGap(records: seq<Record>, t: int) {
    exists i | 0 <= i < |records| :: records[i].Gap? && records[i].start <= t <= records[i].end
  }

  /** Every row of the instant `t` in `list` is stored. */
  ghost predicate InstantStored(records: seq<Record>, list: seq<Row>, t: int) {
    forall j | 0 <= j < |list| && list[j].time == t :: Holds(records, list[j].id)
  }

  /** The read spans `t`, and if the console answered it honestly, from whatever list, every row
      of that list at `t` is stored, rows beyond the query cap included. */
  ghost predicate ReadCovers(records: seq<Record>, read: WindowRead, cap: nat, t: int) {
    && read.lo <= t <= read.hi
    && forall list: seq<Row> | Honest(read.docs, list, read.start, read.hi, cap) ::
         InstantStored(records, list, t)
  }

  ghost predicate InstantCovered(records: seq<Record>, history: seq<WindowRead>, cap: nat, t: int) {
    || InGap(records, t)
    || exists k | 0 <= k < |history| :: ReadCovers(records, history[k], cap, t)
  }

  /** Every instant from `from` to `to` lies in a stored gap record or in a completed read whose
      rows at that instant are stored. */
  ghost predicate Covered(records: seq<Record>, history: seq<WindowRead>, cap: nat, from: int, to: int) {
    from < to ==> forall t | from <= t <= to :: InstantCovered(records, history, cap, t)
  }

  /** A completed read asked for the time it spans, and got every page up to the last one, or up to
      the query cap. No window asks for time before zero. */
  ghost predicate Whole(read: WindowRead, cap: nat) {
    && read.start <= Max(read.lo, 0) && read.lo < read.hi
    && read.docs != [] && Chained(read.docs) && Fits(read.docs, read.start, read.hi, cap)
    && Min(read.docs[0].total, cap) <= |read.docs| * PAGE_SIZE
  }

  /** Every row on a page of a completed read is stored, rows of the overlap included, whatever
      became of the checkpoint after it. */
  ghost predicate ReadKept(records: seq<Record>, read: WindowRead, cap: nat) {
    Whole(read, cap) && AllHeld(records, AllRows(read.docs))
  }

  ghost predicate HistoryKept(records: seq<Record>, history: seq<WindowRead>, cap: nat) {
    forall k | 0 <= k < |history| :: ReadKept(records, history[k], cap)
  }

  /** The read was truncated at the query cap, and `oldest` is the time of the oldest row it got. */
  ghost predicate TruncatedAt(read: WindowRead, oldest: int, cap: nat) {
    && Whole(read, cap) && cap <= read.docs[0].total
    && var rows := Dict(AllRows(read.docs));
       && (forall i | 0 <= i < |rows| :: oldest <= rows[i].time)
       && (exists i | 0 <= i < |rows| :: oldest == rows[i].time)
  }

  /** A gap is recorded for time no later than `horizon`, the catch-up limit, or for what the query
      cap hid from a completed read, and for nothing else. */
  ghost predicate GapsJustified(records: seq<Record>, history: seq<WindowRead>, cap: nat, horizon: int) {
    forall i | 0 <= i < |records| && records[i].Gap? :: GapJustified(records[i], history, cap, horizon)
  }

  ghost predicate GapJustified(gap: Record, history: seq<WindowRead>, cap: nat, horizon: int)
    requires gap.Gap?
  {
    match gap.reason
    case BeyondCatchup => gap.start < gap.end <= horizon
    case QueryCap => exists k | 0 <= k < |history| :: history[k].lo == gap.start && TruncatedAt(history[k], gap.end, cap)
  }

  ghost predicate Subsumes(less: seq<Record>, more: seq<Record>) {
    forall i | 0 <= i < |less| :: less[i] in more
  }

  lemma InstantCoveredMonotone(less: seq<Record>, more: seq<Record>, history: seq<WindowRead>, newer: seq<WindowRead>,
                               cap: nat, t: int)
    requires Subsumes(less, more) && history <= newer
    requires InstantCovered(less, history, cap, t)
    ensures InstantCovered(more, newer, cap, t)
  {
    if InGap(less, t) {
      var i :| 0 <= i < |less| && less[i].Gap? && less[i].start <= t <= less[i].end;
      assert less[i] in more;
    } else {
      var k :| 0 <= k < |history| && ReadCovers(less, history[k], cap, t);
      forall list: seq<Row> | Honest(history[k].docs, list, history[k].start, history[k].hi, cap)
        ensures InstantStored(more, list, t)
      {
        assert InstantStored(less, list, t);
        forall j | 0 <= j < |list| && list[j].time == t ensures Holds(more, list[j].id) {
          HoldsMonotone(less, more, list[j].id);
        }
      }
      assert ReadCovers(more, newer[k], cap, t);
    }
  }

  lemma HoldsMonotone(less: seq<Record>, more: seq<Record>, id: FlowId)
    requires Subsumes(less, more) && Holds(less, id)
    ensures Holds(more, id)
  {
    var i :| 0 <= i < |less| && less[i].FlowLine? && less[i].id == id;
    assert less[i] in more;
  }

  lemma CoveredMonotone(less: seq<Record>, more: seq<Record>, history: seq<WindowRead>, newer: seq<WindowRead>,
                        cap: nat, from: int, to: int)
    requires Subsumes(less, more) && history <= newer
    requires Covered(less, history, cap, from, to)
    ensures Covered(more, newer, cap, from, to)
  {
    if from < to {
      forall t | from <= t <= to ensures InstantCovered(more, newer, cap, t) {
        InstantCoveredMonotone(less, more, history, newer, cap, t);
      }
    }
  }

  lemma SubsumesConcat(a: seq<Record>, b: seq<Record>, c: seq<Record>)
    ensures Subsumes(a + c, a + b + c) && Subsumes(a, a + b)
  {
    forall i | 0 <= i < |a + c| ensures (a + c)[i] in a + b + c {
      if i < |a| {
        assert (a + b + c)[i] == (a + c)[i];
      } else {
        assert (a + b + c)[|b| + i] == (a + c)[i];
      }
    }
    forall i | 0 <= i < |a| ensures a[i] in a + b {
      assert (a + b)[i] == a[i];
    }
  }

  /** The gap record `beyond_catchup` accounts for the time it abandons. */
  lemma GapExtends(records: seq<Record>, history: seq<WindowRead>, cap: nat, from: int, to: int, next: int)
    requires Covered(records, history, cap, from, to) && from <= to < next
    ensures Covered(records + [Gap(to, next, BeyondCatchup)], history, cap, from, next)
  {
    var more := records + [Gap(to, next, BeyondCatchup)];
    SubsumesConcat(records, [Gap(to, next, BeyondCatchup)], []);
    forall t | from <= t <= next ensures InstantCovered(more, history, cap, t) {
      if t < to {
        InstantCoveredMonotone(records, more, history, history, cap, t);
      } else {
        assert more[|records|].Gap?;
      }
    }
  }

  /** A completed read whose every honest list is accounted for extends coverage to its end. */
  lemma ReadExtends(records: seq<Record>, more: seq<Record>, history: seq<WindowRead>, read: WindowRead,
                    cap: nat, from: int)
    requires Subsumes(records, more)
    requires Covered(records, history, cap, from, read.lo) && from <= read.lo < read.hi
    requires forall t | read.lo <= t <= read.hi :: InGap(more, t) || ReadCovers(more, read, cap, t)
    ensures Covered(more, history + [read], cap, from, read.hi)
  {
    var newer := history + [read];
    forall t | from <= t <= read.hi ensures InstantCovered(more, newer, cap, t) {
      if t < read.lo {
        InstantCoveredMonotone(records, more, history, newer, cap, t);
      } else {
        assert newer[|history|] == read;
      }
    }
  }

  ghost predicate AllHeld(records: seq<Record>, rows: seq<Row>) {
    forall i | 0 <= i < |rows| :: Holds(records, rows[i].id)
  }

  /** An uncapped read, run to its last page and stored, covers its whole window. */
  lemma FullReadCovers(records: seq<Record>, read: WindowRead, cap: nat, rows: seq<Row>, t: int)
    requires 0 < cap && read.docs != [] && Chained(read.docs)
    requires ReadsInFull(read.docs, read.start, read.hi, cap)
    requires rows == AllRows(read.docs) && AllHeld(records, rows)
    requires read.lo <= t <= read.hi
    ensures ReadCovers(records, read, cap, t)
  {
    forall list: seq<Row> | Honest(read.docs, list, read.start, read.hi, cap)
      ensures InstantStored(records, list, t)
    {
      HonestIsGood(read.docs, list, read.start, read.hi, cap);
      HonestReadIsExact(read.docs, list, read.start, read.hi, cap);
    }
  }

  /** A read truncated at the query cap, run to its last page and stored, together with a gap from
      the old watermark to the oldest row read, covers its whole window. */
  lemma CappedReadCovers(records: seq<Record>, read: WindowRead, cap: nat, rows: seq<Row>, oldest: int, t: int)
    requires 0 < cap && read.docs != [] && Chained(read.docs) && read.docs[0].Page?
    requires cap <= read.docs[0].total
    requires GoodSoFar(read.docs, read.start, read.hi, cap) ==>
               rows == AllRows(read.docs) && (|read.docs| * PAGE_SIZE >= Min(read.docs[0].total, cap))
    requires AllHeld(records, rows)
    requires forall i | 0 <= i < |rows| :: oldest <= rows[i].time
    requires exists i | 0 <= i < |rows| :: oldest == rows[i].time
    requires Gap(read.lo, oldest, QueryCap) in records
    requires read.lo <= t <= read.hi
    ensures InGap(records, t) || ReadCovers(records, read, cap, t)
  {
    if t <= oldest {
      var i :| 0 <= i < |records| && records[i] == Gap(read.lo, oldest, QueryCap);
      assert InGap(records, t);
    } else {
      forall list: seq<Row> | Honest(read.docs, list, read.start, read.hi, cap)
        ensures InstantStored(records, list, t)
      {
        HonestIsGood(read.docs, list, read.start, read.hi, cap);
        FullPagesCount(read.docs, read.start, read.hi, cap);
        TruncatedReadIsNewest(read.docs, list, read.start, read.hi, cap, oldest);
        forall j | 0 <= j < |list| && list[j].time == t ensures Holds(records, list[j].id) {
          var i :| 0 <= i < |rows| && rows[i] == list[j];
        }
      }
    }
  }

  /** Safety of the store, whatever has crashed or failed: each persisted checkpoint is backed by
      the records persisted before it, from the start of its chain of watermarks. */
  ghost predicate Safe(records: seq<Record>, history: seq<WindowRead>, cap: nat, origin: int) {
    forall i | 0 <= i < |records| && records[i].Checkpoint? ::
      origin <= records[i].watermark && Covered(records[..i], history, cap, origin, records[i].watermark)
  }

  ghost predicate HasCheckpoint(records: seq<Record>) {
    exists i | 0 <= i < |records| :: records[i].Checkpoint?
  }

  /** Completing further reads takes nothing away. */
  lemma SafeWithMoreReads(records: seq<Record>, history: seq<WindowRead>, newer: seq<WindowRead>, cap: nat, origin: int)
    requires Safe(records, history, cap, origin) && history <= newer
    ensures Safe(records, newer, cap, origin)
  {
    forall i | 0 <= i < |records| && records[i].Checkpoint?
      ensures Covered(records[..i], newer, cap, origin, records[i].watermark)
    {
      CoveredMonotone(records[..i], records[..i], history, newer, cap, origin, records[i].watermark);
    }
  }

  /** Any prefix of a request may persist. A request of flow rows keeps the store safe; so does a
      request of gap records followed by the checkpoint they justify, because the gaps come first. */
  lemma PrefixKeepsSafe(records: seq<Record>, lines: seq<Record>, n: nat, history: seq<WindowRead>, cap: nat, origin: int)
    requires Safe(records, history, cap, origin) && n <= |lines|
    requires forall i | 0 <= i < |lines| && lines[i].Checkpoint? ::
               && i == |lines| - 1 && origin <= lines[i].watermark
               && Covered(records + lines[..i], history, cap, origin, lines[i].watermark)
    ensures Safe(records + lines[..n], history, cap, origin)
  {
    var after := records + lines[..n];
    forall i | 0 <= i < |after| && after[i].Checkpoint?
      ensures origin <= after[i].watermark && Covered(after[..i], history, cap, origin, after[i].watermark)
    {
      if i < |records| {
        assert after[..i] == records[..i];
      } else {
        assert after[i] == lines[i - |records|];
        assert after[..i] == records + lines[..i - |records|];
      }
    }
  }

  /** A row a console had for a completed read is stored if the read showed it, on whatever page
      and from whatever part of the window. */
  lemma ShownIsStored(records: seq<Record>, history: seq<WindowRead>, cap: nat, k: nat, list: seq<Row>, j: nat)
    requires HistoryKept(records, history, cap) && k < |history|
    requires Honest(history[k].docs, list, history[k].start, history[k].hi, cap) && j < Min(|list|, cap)
    ensures Holds(records, list[j].id)
  {
    var read := history[k];
    assert ReadKept(records, read, cap);
    HonestRows(read.docs, list, read.start, read.hi, cap);
    assert read.docs[0] == PageOf(list, cap, 0);
    assert AllRows(read.docs)[j] == list[j];
  }

  /** The read asked for the row's time, and no list of the console's that explains its pages has
      the row. */
  ghost predicate LeftOut(read: WindowRead, row: Row, cap: nat) {
    && read.start <= row.time <= read.hi && read.lo <= row.time
    && forall list: seq<Row> | Honest(read.docs, list, read.start, read.hi, cap) :: row !in list
  }

  /** What a persisted checkpoint means for one row before it: the row was stored or is in a gap
      record, both persisted before the checkpoint, or a completed read that asked for its time was
      answered without it. */
  lemma BackedRow(records: seq<Record>, history: seq<WindowRead>, cap: nat, origin: int, i: nat, row: Row)
    requires Safe(records, history, cap, origin) && HistoryKept(records, history, cap)
    requires i < |records| && records[i].Checkpoint?
    requires Max(origin, 0) <= row.time <= records[i].watermark && origin < records[i].watermark
    ensures Holds(records[..i], row.id) || InGap(records[..i], row.time)
            || exists m | 0 <= m < |history| :: LeftOut(history[m], row, cap)
  {
    var t := row.time;
    assert InstantCovered(records[..i], history, cap, t);
    if !InGap(records[..i], t) {
      var m :| 0 <= m < |history| && ReadCovers(records[..i], history[m], cap, t);
      assert ReadKept(records, history[m], cap);
      if !LeftOut(history[m], row, cap) {
        var list: seq<Row> :| Honest(history[m].docs, list, history[m].start, history[m].hi, cap) && row in list;
        assert InstantStored(records[..i], list, t);
        var j :| 0 <= j < |list| && list[j] == row;
      }
    }
  }

  /** Any one completed read the console had the row for is enough, whether its checkpoint was
      lost in a crash and whether the row came through the overlap: the row is stored, or lies in
      a gap record persisted before the checkpoint. The one exception is a row which that read hid
      beyond the query cap and which another read that asked for its time was answered without. */
  lemma RowAccountedFor(records: seq<Record>, history: seq<WindowRead>, cap: nat, origin: int, i: nat, row: Row,
                        k: nat, list: seq<Row>)
    requires Safe(records, history, cap, origin) && HistoryKept(records, history, cap)
    requires i < |records| && records[i].Checkpoint?
    requires Max(origin, 0) <= row.time <= records[i].watermark && origin < records[i].watermark
    requires k < |history| && Honest(history[k].docs, list, history[k].start, history[k].hi, cap) && row in list
    ensures || Holds(records, row.id) || InGap(records[..i], row.time)
            || (row !in list[..Min(|list|, cap)] && exists m | 0 <= m < |history| :: LeftOut(history[m], row, cap))
  {
    var j :| 0 <= j < |list| && list[j] == row;
    if row in list[..Min(|list|, cap)] {
      var shown :| 0 <= shown < Min(|list|, cap) && list[..Min(|list|, cap)][shown] == row;
      ShownIsStored(records, history, cap, k, list, shown);
    } else {
      BackedRow(records, history, cap, origin, i, row);
      if Holds(records[..i], row.id) {
        SubsumesConcat(records[..i], records[i..], []);
        assert records[..i] + records[i..] == records;
        HoldsMonotone(records[..i], records, row.id);
      }
    }
  }

  /** The exception is real: a row hidden by the cap in a read whose gap record was lost in a crash,
      and no longer shown when the window was read again. */
  lemma HiddenThenGone(a: Row, b: Row)
    requires a.id != b.id && a.time == 5 && b.time == 6 && b.line.Some?
    ensures var list, none: seq<Row> := [b, a], [];
            var hidden, again := WindowRead(0, 0, 10, [PageOf(list, 1, 0)]), WindowRead(0, 0, 10, [PageOf(none, 1, 0)]);
            var records := [FlowLine(b.id, b.time, b.line.value), Checkpoint(20, 10, NoRows)];
            && Safe(records, [hidden, again], 1, 0) && HistoryKept(records, [hidden, again], 1)
            && Honest(hidden.docs, list, 0, 10, 1) && Honest(again.docs, none, 0, 10, 1)
            && !Holds(records, a.id) && !InGap(records, a.time)
  {
    var list, none: seq<Row> := [b, a], [];
    var hidden, again := WindowRead(0, 0, 10, [PageOf(list, 1, 0)]), WindowRead(0, 0, 10, [PageOf(none, 1, 0)]);
    var records, history := [FlowLine(b.id, b.time, b.line.value), Checkpoint(20, 10, NoRows)], [hidden, again];
    assert records[0].id == b.id && Holds(records, b.id);
    SingleRead(records, list, hidden);
    SingleRead(records, none, again);
    forall t | 0 <= t <= 10 ensures InstantCovered(records[..1], history, 1, t) {
      forall shown: seq<Row> | Honest(again.docs, shown, 0, 10, 1) ensures shown == [] {
        assert again.docs[0] == PageOf(shown, 1, 0);
      }
      assert ReadCovers(records[..1], history[1], 1, t);
    }
  }

  lemma SingleRead(records: seq<Record>, list: seq<Row>, read: WindowRead)
    requires Distinct(list) && InWindow(list, 0, 10) && NewestFirst(list) && |list| <= 2
    requires read == WindowRead(0, 0, 10, [PageOf(list, 1, 0)])
    requires forall j | 0 <= j < Min(|list|, 1) :: Holds(records, list[j].id)
    ensures Honest(read.docs, list, 0, 10, 1) && ReadKept(records, read, 1)
  {
    HonestIsGood(read.docs, list, 0, 10, 1);
    HonestRows(read.docs, list, 0, 10, 1);
    assert AllRows(read.docs) == list[..Min(|list|, 1)];
  }

  // ---------------------------------------------------------------- keeping it

  lemma HeldMonotone(less: seq<Record>, more: seq<Record>, rows: seq<Row>)
    requires Subsumes(less, more) && AllHeld(less, rows)
    ensures AllHeld(more, rows)
  {
    forall i | 0 <= i < |rows| ensures Holds(more, rows[i].id) {
      HoldsMonotone(less, more, rows[i].id);
    }
  }

  lemma KeptMonotone(less: seq<Record>, more: seq<Record>, history: seq<WindowRead>, cap: nat)
    requires Subsumes(less, more) && HistoryKept(less, history, cap)
    ensures HistoryKept(more, history, cap)
  {
    hide Whole;
    forall k | 0 <= k < |history| ensures ReadKept(more, history[k], cap) {
      assert ReadKept(less, history[k], cap);
      WholeRows(history[k], cap);
      HeldMonotone(less, more, AllRows(history[k].docs));
    }
  }

  lemma WholeRows(read: WindowRead, cap: nat)
    requires Whole(read, cap)
    ensures forall i | 0 <= i < |read.docs| :: read.docs[i].Page? && AllFlows(read.docs[i].data)
  {
  }

  /** More reads and a later horizon justify what was justified. */
  lemma JustifiedMonotone(records: seq<Record>, history: seq<WindowRead>, newer: seq<WindowRead>, cap: nat, horizon: int, later: int)
    requires GapsJustified(records, history, cap, horizon) && history <= newer && horizon <= later
    ensures GapsJustified(records, newer, cap, later)
  {
    forall i | 0 <= i < |records| && records[i].Gap? ensures GapJustified(records[i], newer, cap, later) {
      assert GapJustified(records[i], history, cap, horizon);
      if records[i].reason == QueryCap {
        var k :| 0 <= k < |history| && history[k].lo == records[i].start && TruncatedAt(history[k], records[i].end, cap);
        assert newer[k] == history[k];
      }
    }
  }

  lemma JustifiedFrom(records: seq<Record>, more: seq<Record>, history: seq<WindowRead>, cap: nat, horizon: int)
    requires GapsJustified(records, history, cap, horizon)
    requires forall i | 0 <= i < |more| && more[i].Gap? :: more[i] in records || GapJustified(more[i], history, cap, horizon)
    ensures GapsJustified(more, history, cap, horizon)
  {
  }
}
