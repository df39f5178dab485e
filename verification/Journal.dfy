/** What one process leaves behind, and what it was told: a log that only grows, whatever fails. */
module Journal {
  import opened Arithmetic
  import opened Wrappers
  import opened WindowReading
  import opened PageByPage
  import opened Delivery
  import opened ConsoleSession
  import opened Resending

  /** The store with its history, what the process was told the store accepted (`sent`), what it
      resumed from, and its exchanges with the console. `strays` counts the flow rows that writes
      persisted without acknowledging them; `definite` says this process made none. `troubles` counts
      the requests that the store did not answer or acknowledge, `unreadable` the failures to read
      the password. */
  datatype Log = Log(records: seq<Record>, history: seq<WindowRead>, origin: int, strays: nat,
                     sent: seq<Row>, earlier: seq<Record>, definite: bool, resumedAt: Option<int>,
                     trace: seq<Exchange>, served: seq<Served>, now: int,
                     troubles: nat, unreadable: nat)

  /** The settings a life is judged by: the poll in seconds, the others in milliseconds. */
  datatype Terms = Terms(poll: nat, overlap: nat, lookback: int, settle: int)

  /** Every read completed after the first `n` moved on, asked for the overlap before it too, and
      did not reach beyond what has settled by now. */
  ghost predicate ReadsInTurn(history: seq<WindowRead>, n: nat, terms: Terms, now: int) {
    forall k | n <= k < |history| ::
      && history[k].lo < history[k].hi <= now - terms.settle
      && history[k].start == Max(history[k].lo - terms.overlap, 0)
  }

  /** From position `j` on, the console served exactly the pages of this read. */
  ghost predicate ServedAt(read: WindowRead, served: seq<Served>, j: nat) {
    && j + |read.docs| <= |served|
    && forall p | 0 <= p < |read.docs| :: served[j + p] == Served(read.start, read.hi, p, read.docs[p])
  }

  ghost predicate ReadServed(read: WindowRead, served: seq<Served>, m: nat) {
    exists j | m <= j <= |served| :: ServedAt(read, served, j)
  }

  /** Every read completed after the first `n` was answered by pages served after the first `m`. */
  ghost predicate ReadsServed(history: seq<WindowRead>, n: nat, served: seq<Served>, m: nat) {
    forall k | n <= k < |history| :: ReadServed(history[k], served, m)
  }

  predicate IsLineOf(r: Record, row: Row) { row.line.Some? && r == FlowLine(row.id, row.time, row.line.value) }

  ghost predicate LineServed(r: Record, served: seq<Served>, m: nat) {
    exists j, row | m <= j < |served| && served[j].document.Page? && Flow(row) in served[j].document.data :: IsLineOf(r, row)
  }

  /** Every flow row stored after the first `n` records is on a page served after the first `m`. */
  ghost predicate RowsServed(records: seq<Record>, n: nat, served: seq<Served>, m: nat) {
    forall i | n <= i < |records| && records[i].FlowLine? :: LineServed(records[i], served, m)
  }

  /** The watermark of a newest checkpoint or, if there is none, a fixed time before now. */
  ghost predicate ResumesFrom(records: seq<Record>, watermark: int, from: int, to: int, lookback: int) {
    if HasCheckpoint(records) then
      exists i | 0 <= i < |records| && records[i].Checkpoint? ::
        watermark == records[i].watermark
        && forall j | 0 <= j < |records| && records[j].Checkpoint? :: records[j].at <= records[i].at
    else from - lookback <= watermark <= to - lookback
  }

  /** `b` can follow `a` in one process: nothing stored, read, sent or exchanged is undone; reads
      are answered and rows are served by the console; the process resumes once, from what it finds
      stored, and stores nothing before that; a chain of watermarks starts where its process started. */
  ghost predicate Later(a: Log, b: Log, terms: Terms) {
    && a.records <= b.records && a.history <= b.history && a.trace <= b.trace && a.served <= b.served
    && a.sent <= b.sent && a.earlier == b.earlier && a.now <= b.now
    && a.troubles <= b.troubles && a.unreadable <= b.unreadable
    && (HasCheckpoint(a.records) ==> b.origin == a.origin)
    && (!HasCheckpoint(a.records) && HasCheckpoint(b.records) ==> b.resumedAt == Some(b.origin))
    && a.strays <= b.strays && b.definite == (a.definite && b.strays == a.strays)
    && (a.resumedAt.Some? ==> b.resumedAt == a.resumedAt)
    && (a.resumedAt.None? && b.resumedAt.Some? ==> ResumesFrom(a.records, b.resumedAt.value, a.now, b.now, terms.lookback))
    && (b.resumedAt.None? ==> b.records == a.records && b.sent == a.sent && b.origin == a.origin)
    && ReadsInTurn(b.history, |a.history|, terms, b.now)
    && ReadsServed(b.history, |a.history|, b.served, |a.served|)
    && RowsServed(b.records, |a.records|, b.served, |a.served|)
  }

  lemma LaterSelf(a: Log, terms: Terms)
    ensures Later(a, a, terms)
  {
  }

  lemma LaterTroubles(a: Log, b: Log, terms: Terms)
    requires Later(a, b, terms)
    ensures a.troubles <= b.troubles
  {
  }

  lemma ServedLater(read: WindowRead, served: seq<Served>, more: seq<Served>, j: nat)
    requires ServedAt(read, served, j) && served <= more
    ensures ServedAt(read, more, j)
  {
  }

  lemma ReadsServedTrans(a: seq<WindowRead>, b: seq<WindowRead>, c: seq<WindowRead>,
                         la: seq<Served>, lb: seq<Served>, lc: seq<Served>)
    requires a <= b <= c && la <= lb <= lc
    requires ReadsServed(b, |a|, lb, |la|) && ReadsServed(c, |b|, lc, |lb|)
    ensures ReadsServed(c, |a|, lc, |la|)
  {
    forall k | |a| <= k < |c| ensures ReadServed(c[k], lc, |la|) {
      if k < |b| {
        assert c[k] == b[k];
        assert ReadServed(b[k], lb, |la|);
        var j :| |la| <= j <= |lb| && ServedAt(b[k], lb, j);
        ServedLater(b[k], lb, lc, j);
      } else {
        assert ReadServed(c[k], lc, |lb|);
        var j :| |lb| <= j <= |lc| && ServedAt(c[k], lc, j);
      }
    }
  }

  lemma RowsServedTrans(a: seq<Record>, b: seq<Record>, c: seq<Record>,
                        la: seq<Served>, lb: seq<Served>, lc: seq<Served>)
    requires a <= b <= c && la <= lb <= lc
    requires RowsServed(b, |a|, lb, |la|) && RowsServed(c, |b|, lc, |lb|)
    ensures RowsServed(c, |a|, lc, |la|)
  {
    forall i | |a| <= i < |c| && c[i].FlowLine? ensures LineServed(c[i], lc, |la|) {
      if i < |b| {
        assert c[i] == b[i] && LineServed(b[i], lb, |la|);
        var j, row :| |la| <= j < |lb| && lb[j].document.Page? && Flow(row) in lb[j].document.data && IsLineOf(b[i], row);
        assert lc[j] == lb[j];
      } else {
        assert LineServed(c[i], lc, |lb|);
        var j, row :| |lb| <= j < |lc| && lc[j].document.Page? && Flow(row) in lc[j].document.data && IsLineOf(c[i], row);
      }
    }
  }

  lemma TurnsTrans(a: seq<WindowRead>, b: seq<WindowRead>, c: seq<WindowRead>, terms: Terms, now: int, later: int)
    requires a <= b <= c && now <= later && ReadsInTurn(b, |a|, terms, now) && ReadsInTurn(c, |b|, terms, later)
    ensures ReadsInTurn(c, |a|, terms, later)
  {
    forall k | |a| <= k < |c|
      ensures c[k].lo < c[k].hi <= later - terms.settle && c[k].start == Max(c[k].lo - terms.overlap, 0)
    {
      if k < |b| { assert c[k] == b[k]; }
    }
  }

  lemma CheckpointStays(a: seq<Record>, b: seq<Record>)
    requires a <= b && HasCheckpoint(a)
    ensures HasCheckpoint(b)
  {
    var i :| 0 <= i < |a| && a[i].Checkpoint?;
    assert b[i] == a[i];
  }

  lemma LaterTrans(a: Log, b: Log, c: Log, terms: Terms)
    requires Later(a, b, terms) && Later(b, c, terms)
    ensures Later(a, c, terms)
  {
    TurnsTrans(a.history, b.history, c.history, terms, b.now, c.now);
    hide HasCheckpoint, ReadsServed, RowsServed, ReadsInTurn;
    ReadsServedTrans(a.history, b.history, c.history, a.served, b.served, c.served);
    RowsServedTrans(a.records, b.records, c.records, a.served, b.served, c.served);
    if HasCheckpoint(a.records) {
      CheckpointStays(a.records, b.records);
    }
    if HasCheckpoint(b.records) {
      CheckpointStays(b.records, c.records);
    }
  }

  // ---------------------------------------------------------------- the steps of a process

  function PagesOf(start: int, end: int, docs: seq<Document>): (r: seq<Served>)
    ensures |r| == |docs|
  {
    seq(|docs|, p requires 0 <= p < |docs| => Served(start, end, p, docs[p]))
  }

  /** A cycle began. */
  lemma BegunLater(a: Log, b: Log, terms: Terms)
    requires b == a.(trace := b.trace) && a.trace <= b.trace
    ensures Later(a, b, terms)
  {
  }

  /** Time passed, and the store may not have answered. */
  lemma WaitedLater(a: Log, b: Log, terms: Terms)
    requires b == a.(now := b.now, troubles := b.troubles) && a.now <= b.now && a.troubles <= b.troubles
    ensures Later(a, b, terms)
  {
  }

  /** The console was asked for a page, and served `pages`: that one or none. */
  ghost predicate HasAsked(a: Log, b: Log, pages: seq<Served>) {
    && b == a.(trace := b.trace, served := a.served + pages, now := b.now, unreadable := b.unreadable)
    && a.trace <= b.trace && a.now <= b.now && a.unreadable <= b.unreadable
  }

  /** Some of a window was read. */
  ghost predicate HasRead(a: Log, b: Log, start: int, end: int, docs: seq<Document>) {
    HasAsked(a, b, PagesOf(start, end, docs))
  }

  lemma NothingRead(a: Log, start: int, end: int)
    ensures HasRead(a, a, start, end, [])
  {
    assert a.served + [] == a.served;
  }

  lemma ReadNothing(a: Log, b: Log, c: Log, start: int, end: int, docs: seq<Document>)
    requires HasRead(a, b, start, end, docs) && HasAsked(b, c, [])
    ensures HasRead(a, c, start, end, docs)
  {
  }

  lemma ReadOne(a: Log, b: Log, c: Log, start: int, end: int, docs: seq<Document>, doc: Document)
    requires HasRead(a, b, start, end, docs) && HasAsked(b, c, [Served(start, end, |docs|, doc)])
    ensures HasRead(a, c, start, end, docs + [doc])
  {
    assert PagesOf(start, end, docs + [doc]) == PagesOf(start, end, docs) + [Served(start, end, |docs|, doc)];
  }

  /** Some of these rows were sent. */
  ghost predicate HasStored(a: Log, b: Log, rows: seq<Row>) {
    && b == a.(records := b.records, sent := b.sent, strays := b.strays, definite := b.definite, troubles := b.troubles)
    && a.records <= b.records && a.sent <= b.sent && a.troubles <= b.troubles
    && a.strays <= b.strays && b.definite == (a.definite && b.strays == a.strays)
    && forall i | |a.records| <= i < |b.records| :: exists j | 0 <= j < |rows| :: IsLineOf(b.records[i], rows[j])
  }

  /** The rows of the window were sent and, if it was whole, it was completed. */
  ghost predicate HasTaken(a: Log, b: Log, read: WindowRead, rows: seq<Row>) {
    HasStored(a, b.(history := a.history), rows) && (b.history == a.history || b.history == a.history + [read])
  }

  lemma StoredTaken(a: Log, b: Log, read: WindowRead, rows: seq<Row>)
    requires HasStored(a, b, rows)
    ensures HasTaken(a, b, read, rows) && b.history == a.history
  {
    assert b.(history := a.history) == b;
  }

  lemma CompletedTaken(a: Log, b: Log, c: Log, read: WindowRead, rows: seq<Row>)
    requires HasStored(a, b, rows) && c == b.(history := b.history + [read])
    ensures HasTaken(a, c, read, rows)
  {
    assert c.(history := a.history) == b;
  }

  /** Flow rows are no checkpoints. */
  lemma RowsAreNoCheckpoint(a: seq<Record>, b: seq<Record>)
    requires a <= b && forall i | |a| <= i < |b| :: b[i].FlowLine?
    ensures HasCheckpoint(b) <==> HasCheckpoint(a)
  {
    if HasCheckpoint(a) { CheckpointStays(a, b); }
    if HasCheckpoint(b) {
      var i :| 0 <= i < |b| && b[i].Checkpoint?;
      assert a[i] == b[i];
    }
  }

  lemma StoredRowsOnly(a: Log, b: Log, rows: seq<Row>)
    requires HasStored(a, b, rows)
    ensures a.records <= b.records && forall i | |a.records| <= i < |b.records| :: b.records[i].FlowLine?
    ensures HasCheckpoint(b.records) <==> HasCheckpoint(a.records)
  {
    forall i | |a.records| <= i < |b.records| ensures b.records[i].FlowLine? {
      var j :| 0 <= j < |rows| && IsLineOf(b.records[i], rows[j]);
    }
    RowsAreNoCheckpoint(a.records, b.records);
  }

  lemma ReadLater(a: Log, b: Log, start: int, end: int, docs: seq<Document>, terms: Terms)
    requires HasRead(a, b, start, end, docs)
    ensures Later(a, b, terms)
  {
  }

  lemma StoredRowsServed(a: Log, b: Log, start: int, end: int, docs: seq<Document>, rows: seq<Row>, served: seq<Served>)
    requires HasStored(a, b, rows) && AllShown(docs, rows)
    ensures RowsServed(b.records, |a.records|, served + PagesOf(start, end, docs), |served|)
  {
    var all := served + PagesOf(start, end, docs);
    forall i | |a.records| <= i < |b.records| && b.records[i].FlowLine? ensures LineServed(b.records[i], all, |served|) {
      var j :| 0 <= j < |rows| && IsLineOf(b.records[i], rows[j]);
      assert Shown(docs, rows[j]);
      var d :| 0 <= d < |docs| && docs[d].Page? && Flow(rows[j]) in docs[d].data;
      assert all[|served| + d].document == docs[d];
    }
  }

  lemma CompletedServed(history: seq<WindowRead>, read: WindowRead, served: seq<Served>)
    ensures ReadsServed(history + [read], |history|, served + PagesOf(read.start, read.hi, read.docs), |served|)
  {
    assert ServedAt(read, served + PagesOf(read.start, read.hi, read.docs), |served|);
  }

  lemma TakenLater(a: Log, b: Log, c: Log, read: WindowRead, rows: seq<Row>, terms: Terms)
    requires a.resumedAt.Some? && HasRead(a, b, read.start, read.hi, read.docs) && HasTaken(b, c, read, rows)
    requires AllShown(read.docs, rows)
    requires read.lo < read.hi <= c.now - terms.settle && read.start == Max(read.lo - terms.overlap, 0)
    ensures Later(a, c, terms)
  {
    StoredRowsOnly(b, c.(history := b.history), rows);
    hide AllShown, RowsServed, ReadsServed, HasCheckpoint;
    StoredRowsServed(b, c.(history := b.history), read.start, read.hi, read.docs, rows, a.served);
    if c.history == b.history {
      NoReads(a.history, a.served, c.served);
    } else {
      CompletedServed(a.history, read, a.served);
    }
  }

  lemma NoReads(history: seq<WindowRead>, served: seq<Served>, more: seq<Served>)
    ensures ReadsServed(history, |history|, more, |served|)
  {
  }

  /** Records that are no flow rows were added. */
  lemma CommittedLater(a: Log, b: Log, terms: Terms)
    requires a.resumedAt.Some? && b == a.(records := b.records, origin := b.origin, now := b.now, troubles := b.troubles)
    requires a.records <= b.records && a.now <= b.now && a.troubles <= b.troubles && (HasCheckpoint(a.records) ==> b.origin == a.origin)
    requires !HasCheckpoint(a.records) && HasCheckpoint(b.records) ==> b.resumedAt == Some(b.origin)
    requires forall i | |a.records| <= i < |b.records| :: !b.records[i].FlowLine?
    ensures Later(a, b, terms)
  {
  }

  // ---------------------------------------------------------------- why a poll falls short

  /** From position `j` on the console served these pages of one window, one after the other. */
  ghost predicate RunOfPages(served: seq<Served>, j: nat, start: int, end: int, docs: seq<Document>) {
    j + |docs| <= |served| && served[j..j + |docs|] == PagesOf(start, end, docs) && Chained(docs)
  }

  /** Pages served after the first `m` contradict every complete window. */
  ghost predicate Contradicted(served: seq<Served>, m: nat, cap: nat) {
    exists j: nat, start: int, end: int, docs: seq<Document> :: m <= j && RunOfPages(served, j, start, end, docs) && !GoodSoFar(docs, start, end, cap)
  }

  /** A page served after the first `m` shows a row that cannot be rendered. */
  ghost predicate Unrenderable(served: seq<Served>, m: nat) {
    exists j, row | m <= j < |served| && served[j].document.Page? && Flow(row) in served[j].document.data :: row.line.None?
  }

  /** What an error between `a` and `b` rests on. */
  ghost predicate Faulted(fault: Fault, a: Log, b: Log, cap: nat) {
    match fault
    case Crashed => a.troubles < b.troubles
    case BadShape => Contradicted(b.served, |a.served|, cap) || Unrenderable(b.served, |a.served|)
    case Failed(result) =>
      if result in {IngestFailed, StateUnavailable} then a.troubles < b.troubles
      else Blamed(fault, b.trace, a.now, a.unreadable, b.unreadable)
  }

  lemma ContradictedSince(served: seq<Served>, m: nat, earlier: nat, cap: nat)
    requires Contradicted(served, m, cap) && earlier <= m
    ensures Contradicted(served, earlier, cap)
  {
    var j: nat, start: int, end: int, docs: seq<Document> :| m <= j && RunOfPages(served, j, start, end, docs) && !GoodSoFar(docs, start, end, cap);
  }

  lemma UnrenderableSince(served: seq<Served>, m: nat, earlier: nat)
    requires Unrenderable(served, m) && earlier <= m
    ensures Unrenderable(served, earlier)
  {
    var j, row :| m <= j < |served| && served[j].document.Page? && Flow(row) in served[j].document.data && row.line.None?;
  }

  /** A window is not stored to the end only because a write was not acknowledged or a row cannot be
      rendered. */
  ghost predicate StoreFails(fault: Option<Fault>, rows: seq<Row>, before: nat, after: nat) {
    match fault
    case None => after == before
    case Some(BadShape) => after == before && exists i | 0 <= i < |rows| :: rows[i].line.None?
    case Some(f) => after > before && f in {Failed(CycleResult.IngestFailed), Crashed}
  }

  lemma ReadFaulted(fault: Fault, a: Log, b: Log, start: int, end: int, docs: seq<Document>, cap: nat)
    requires HasRead(a, b, start, end, docs)
    requires if fault.BadShape? then Chained(docs) && !GoodSoFar(docs, start, end, cap)
             else Blamed(fault, b.trace, a.now, a.unreadable, b.unreadable)
    ensures Faulted(fault, a, b, cap)
  {
    if fault.BadShape? {
      ReadContradicts(a, b, b, start, end, docs, cap);
    }
  }

  lemma StoreFaulted(fault: Fault, a: Log, b: Log, c: Log, start: int, end: int, docs: seq<Document>, rows: seq<Row>, cap: nat)
    requires HasRead(a, b, start, end, docs) && b.served == c.served && AllShown(docs, rows)
    requires StoreFails(Some(fault), rows, b.troubles, c.troubles)
    ensures Faulted(fault, a, c, cap)
  {
    if fault.BadShape? {
      var i :| 0 <= i < |rows| && rows[i].line.None?;
      ReadUnrenderable(a, b, c, start, end, docs, rows, i);
    }
  }

  /** A read completed after the first `n` had rows. */
  ghost predicate SomeRows(history: seq<WindowRead>, n: nat) {
    exists k | n <= k < |history| :: HasRows(history[k].docs)
  }

  lemma SomeRowsNext(history: seq<WindowRead>, n: nat, read: WindowRead)
    requires n <= |history|
    ensures SomeRows(history + [read], n) <==> SomeRows(history, n) || HasRows(read.docs)
  {
    var more := history + [read];
    assert more[|history|] == read;
    if SomeRows(history, n) {
      var k :| n <= k < |history| && HasRows(history[k].docs);
      assert more[k] == history[k];
    }
  }

  /** What a result of advancing between `a` and `b`, or the error that ended it, rests on: no more
      could be asked for, pages contradicted every complete window, or the windows had rows or not. */
  ghost predicate Told(result: CycleResult, fault: Option<Fault>, a: Log, b: Log, over: bool, cap: nat) {
    match fault
    case Some(f) => Faulted(f, a, b, cap)
    case None =>
      match result
      case Backlog => over
      case Incomplete => Contradicted(b.served, |a.served|, cap)
      case Done => SomeRows(b.history, |a.history|)
      case NoRows => !SomeRows(b.history, |a.history|)
      case _ => false
  }

  lemma ToldSince(result: CycleResult, fault: Option<Fault>, a: Log, b: Log, c: Log, over: bool, cap: nat, terms: Terms)
    requires Later(a, b, terms) && Told(result, fault, b, c, over, cap)
    requires fault.None? ==> result in {Backlog, Incomplete} || a.history == b.history
    ensures Told(result, fault, a, c, over, cap)
  {
    match fault
    case Some(f) => FaultedSince(f, a, b, c, cap, terms);
    case None =>
      if result.Incomplete? {
        ContradictedSince(c.served, |b.served|, |a.served|, cap);
      }
  }

  /** What a poll's result rests on. */
  ghost predicate Ended(result: CycleResult, crashed: bool, a: Log, b: Log, over: bool, cap: nat) {
    if crashed then a.troubles < b.troubles
    else
      match result
      case Done => SomeRows(b.history, |a.history|)
      case NoRows => !SomeRows(b.history, |a.history|)
      case Backlog => over
      case Incomplete => Contradicted(b.served, |a.served|, cap) || Unrenderable(b.served, |a.served|)
      case IngestFailed => a.troubles < b.troubles
      case StateUnavailable => a.troubles < b.troubles
      case _ => Blamed(Failed(result), b.trace, a.now, a.unreadable, b.unreadable)
  }

  /** The result that a poll makes of how advancing ended. */
  lemma ToldEnds(result: CycleResult, fault: Option<Fault>, a: Log, b: Log, over: bool, cap: nat)
    requires Told(result, fault, a, b, over, cap)
    ensures match fault
            case None => Ended(result, false, a, b, over, cap)
            case Some(Crashed) => Ended(result, true, a, b, over, cap)
            case Some(BadShape) => Ended(Incomplete, false, a, b, over, cap)
            case Some(Failed(failed)) => Ended(failed, false, a, b, over, cap) && failed !in {Done, NoRows, Backlog, Incomplete}
  {
  }

  lemma EndedSince(result: CycleResult, crashed: bool, a: Log, b: Log, c: Log, over: bool, after: bool, cap: nat)
    requires b == a.(trace := b.trace) && Ended(result, crashed, b, c, over, cap) && (over ==> after)
    ensures Ended(result, crashed, a, c, after, cap)
  {
  }

  /** The commit after a poll leaves a good result only if the store acknowledged it. */
  lemma EndedUntil(polled: CycleResult, result: CycleResult, crashed: bool, a: Log, b: Log, c: Log, over: bool, after: bool, cap: nat)
    requires Ended(polled, false, a, b, over, cap) && (over ==> after)
    requires c == b.(records := c.records, origin := c.origin, strays := c.strays, now := c.now, troubles := c.troubles)
    requires a.troubles <= b.troubles
    requires if crashed || result != polled then b.troubles < c.troubles && (crashed || result == IngestFailed) else b.troubles <= c.troubles
    ensures Ended(result, crashed, a, c, after, cap)
  {
  }

  /** The console answered every request with success, and had asked for no wait. */
  ghost predicate AnswersWell(a: Log, b: Log) {
    && b.trace != [] && (b.trace[|b.trace| - 1].CycleBegun? || b.trace[|b.trace| - 1].ReadDone?)
    && LimitEnd(b.trace) <= a.now && RefusalEnd(b.trace) <= a.now
  }

  /** A poll goes well, which means that it reached what had settled, unless something is to blame: a
      page that contradicts an honest console or shows a row that cannot be rendered, an answer other
      than a success, a wait the console asked for, the password, a write that was not acknowledged, or
      the limits of the poll. */
  lemma PollGoesWell(result: CycleResult, crashed: bool, a: Log, b: Log, over: bool, cap: nat)
    requires 0 < cap && Ended(result, crashed, a, b, over, cap)
    requires !over && a.troubles == b.troubles && a.unreadable == b.unreadable && AnswersWell(a, b)
    requires AllHonest(b.served, |a.served|, cap) && !Unrenderable(b.served, |a.served|)
    ensures !crashed && result in {Done, NoRows}
  {
    HonestPagesFit(b.served, |a.served|, cap);
  }

  /** What explains an error since a later moment explains it since an earlier one. */
  lemma FaultedSince(fault: Fault, a: Log, b: Log, c: Log, cap: nat, terms: Terms)
    requires Later(a, b, terms) && Faulted(fault, b, c, cap)
    ensures Faulted(fault, a, c, cap)
  {
    match fault
    case Crashed =>
    case BadShape =>
      if Contradicted(c.served, |b.served|, cap) {
        ContradictedSince(c.served, |b.served|, |a.served|, cap);
      } else {
        UnrenderableSince(c.served, |b.served|, |a.served|);
      }
    case Failed(result) =>
      if result !in {IngestFailed, StateUnavailable} {
        BlamedSince(fault, c.trace, b.now, a.now, b.unreadable, a.unreadable, c.unreadable);
      }
  }

  lemma ReadContradicts(a: Log, b: Log, c: Log, start: int, end: int, docs: seq<Document>, cap: nat)
    requires HasRead(a, b, start, end, docs) && b.served == c.served && Chained(docs) && !GoodSoFar(docs, start, end, cap)
    ensures Contradicted(c.served, |a.served|, cap)
  {
    assert c.served[|a.served|..|a.served| + |docs|] == PagesOf(start, end, docs);
    assert RunOfPages(c.served, |a.served|, start, end, docs);
  }

  lemma ReadUnrenderable(a: Log, b: Log, c: Log, start: int, end: int, docs: seq<Document>, rows: seq<Row>, i: nat)
    requires HasRead(a, b, start, end, docs) && b.served == c.served && AllShown(docs, rows)
    requires i < |rows| && rows[i].line.None?
    ensures Unrenderable(c.served, |a.served|)
  {
    assert Shown(docs, rows[i]);
    var d :| 0 <= d < |docs| && docs[d].Page? && Flow(rows[i]) in docs[d].data;
    assert c.served[|a.served| + d].document == docs[d];
  }

  /** Whatever pages of one window the console served after the first `m`, one list explains them. */
  ghost predicate AllHonest(served: seq<Served>, m: nat, cap: nat) {
    forall j: nat, start: int, end: int, docs: seq<Document> | m <= j && RunOfPages(served, j, start, end, docs) ::
      exists list: seq<Row> :: Honest(docs, list, start, end, cap)
  }

  /** An honest console never contradicts a complete window. */
  lemma HonestPagesFit(served: seq<Served>, m: nat, cap: nat)
    requires 0 < cap && AllHonest(served, m, cap)
    ensures !Contradicted(served, m, cap)
  {
    if Contradicted(served, m, cap) {
      var j: nat, start: int, end: int, docs: seq<Document> :|
        m <= j && RunOfPages(served, j, start, end, docs) && !GoodSoFar(docs, start, end, cap);
      var list: seq<Row> :| Honest(docs, list, start, end, cap);
      HonestIsGood(docs, list, start, end, cap);
    }
  }

  // ---------------------------------------------------------------- a whole life

  /** The store and the clock, between two processes. */
  datatype Store = Store(records: seq<Record>, history: seq<WindowRead>, origin: int, strays: nat, now: int, troubles: nat)

  function Born(s: Store): Log {
    Log(s.records, s.history, s.origin, s.strays, [], FlowLines(s.records), true, None, [], [], s.now, s.troubles, 0)
  }

  function Left(l: Log): Store { Store(l.records, l.history, l.origin, l.strays, l.now, l.troubles) }

  /** One life of the process, from the store it found to the log it left. Exactly once: if no
      unacknowledged write persisted a flow row, the flow rows it added are those it was told were
      accepted, in order, and none twice if identities carry one time. Bounded replay: every row it
      sent is no older than the overlap before the watermark it resumed from, which is a newest
      checkpoint's of the store it found. Its requests kept to the session's spacing, with at most one login between
      two beginnings of a cycle, and every answer of the console was heeded. */
  ghost predicate Lived(found: Store, l: Log, terms: Terms) {
    && Later(Born(found), l, terms)
    && Rendered(l.sent)
    && (l.strays == found.strays ==> FlowLines(l.records) == FlowLines(found.records) + Lines(l.sent))
    && (OneTime(l.sent) ==> Distinct(l.sent))
    && (l.resumedAt.None? ==> l.sent == [])
    && (l.resumedAt.Some? ==> forall i | 0 <= i < |l.sent| :: l.resumedAt.value - terms.overlap <= l.sent[i].time)
    && Spaced(l.trace) && Measured(l.trace, terms.poll) && OneLoginEach(l.trace) && Heeded(l.trace)
  }

  /** Exactly once: in a life without strays, if every identity carries one time, the flow rows added
      to the store are the accepted ones, in order, no two with the same identity. */
  lemma ExactlyOnce(found: Store, l: Log, terms: Terms)
    requires Lived(found, l, terms) && l.strays == found.strays && OneTime(l.sent)
    ensures Rendered(l.sent) && FlowLines(l.records) == FlowLines(found.records) + Lines(l.sent)
    ensures forall i, j | 0 <= i < j < |l.sent| :: Lines(l.sent)[i].id != Lines(l.sent)[j].id
  {
  }

  /** Bounded replay: a life that finds a checkpoint sends only rows from the overlap before a newest
      one's watermark on, so only those can be stored a second time. */
  lemma BoundedReplay(found: Store, l: Log, terms: Terms)
    requires Lived(found, l, terms) && HasCheckpoint(found.records) && l.sent != []
    ensures exists c | 0 <= c < |found.records| && found.records[c].Checkpoint? ::
              && (forall j | 0 <= j < |found.records| && found.records[j].Checkpoint? :: found.records[j].at <= found.records[c].at)
              && forall i | 0 <= i < |l.sent| :: found.records[c].watermark - terms.overlap <= l.sent[i].time
  {
    assert ResumesFrom(found.records, l.resumedAt.value, found.now, l.now, terms.lookback);
    var c :| && 0 <= c < |found.records| && found.records[c].Checkpoint? && l.resumedAt.value == found.records[c].watermark
             && forall j | 0 <= j < |found.records| && found.records[j].Checkpoint? :: found.records[j].at <= found.records[c].at;
  }

  /** The store the `k`-th life finds. */
  function Finds(found: Store, logs: seq<Log>, k: nat): Store
    requires k <= |logs|
  {
    if k == 0 then found else Left(logs[k - 1])
  }

  /** Life after life, each finding the store as the one before left it. */
  ghost predicate Lives(found: Store, logs: seq<Log>, terms: Terms) {
    forall k | 0 <= k < |logs| :: Lived(Finds(found, logs, k), logs[k], terms)
  }

  lemma NoLives(found: Store, terms: Terms)
    ensures Lives(found, [], terms)
  {
  }

  lemma LivesStep(found: Store, logs: seq<Log>, log: Log, terms: Terms)
    requires Lives(found, logs, terms)
    requires Lived(Finds(found, logs, |logs|), log, terms)
    ensures Lives(found, logs + [log], terms)
  {
    hide Lived;
    var more := logs + [log];
    forall k | 0 <= k < |more| ensures Lived(Finds(found, more, k), more[k], terms) {
      assert Finds(found, more, k) == Finds(found, logs, k);
    }
  }
}
