/** The collector process: it reads fixed windows, stores their rows, and moves a watermark that
    survives it only as a checkpoint in the log store. */
module FlowCollector {
  import opened Arithmetic
  import opened Wrappers
  import opened WindowReading
  import opened PageByPage
  import opened Delivery
  import opened ConsoleSession
  import opened Resending
  import opened Accounting
  import opened Journal

  datatype Config = Config(pollS: nat, overlapS: nat, settleS: int, lookbackS: int, catchupS: nat,
                           maxWindowS: nat, minWindowS: nat, cap: nat, maxPages: int, maxCycleS: int)
  {
    predicate Sane() { 0 < minWindowS <= maxWindowS && 0 < cap }

    function Overlap(): nat { overlapS * 1000 }

    function Lookback(): int { lookbackS * 1000 }

    function AsTerms(): Terms { Terms(pollS, Overlap(), Lookback(), settleS * 1000) }

    /** How long before now time may be given up. */
    function GivenUpAfter(): int { settleS * 1000 + catchupS * 1000 }
  }

  datatype Counters = Counters(rowsRead: nat, rowsWritten: nat, rowsDuplicate: nat, rowsLate: nat,
                               pagesRead: nat, windowsShifted: nat)

  datatype WriteOutcome = Accepted | Rejected | Died

  /** The append-only log store. A write that is not acknowledged may still have persisted any
      prefix of its lines, and the process may die with it. */
  class Sink {
    var records: seq<Record>
    // Auxiliary history: it outlives every process, as the records do.
    ghost var history: seq<WindowRead>  // windows treated as complete
    ghost var origin: int               // where the chain of watermarks starts
    ghost var strays: nat               // flow rows persisted by writes it did not acknowledge
    ghost var horizon: int              // no later time was ever given up
    ghost var troubles: nat             // requests it did not acknowledge or answer

    constructor (ghost horizon: int)
      ensures records == [] && history == [] && strays == 0 && this.horizon == horizon && troubles == 0
    {
      records, history, origin, strays, troubles := [], [], 0, 0, 0;
      this.horizon := horizon;
    }

    method Write(lines: seq<Record>) returns (outcome: WriteOutcome, ghost persisted: nat)
      modifies this`records, this`strays, this`troubles
      ensures troubles == old(troubles) + (if outcome.Accepted? then 0 else 1)
      ensures persisted <= |lines| && records == old(records) + lines[..persisted]
      ensures outcome.Accepted? ==> persisted == |lines|
      ensures strays == old(strays) + (if outcome.Accepted? then 0 else |FlowLines(lines[..persisted])|)
    {
      var n: nat :| n <= |lines|;
      outcome := *;
      if outcome.Accepted? {
        n := |lines|;
      }
      records := records + lines[..n];
      strays := strays + (if outcome.Accepted? then 0 else |FlowLines(lines[..n])|);
      troubles := troubles + (if outcome.Accepted? then 0 else 1);
      persisted := n;
    }

    /** A watermark no checkpoint is newer than. An answer of None says the store holds no checkpoint. */
    method LastWatermark() returns (answered: bool, watermark: Option<int>)
      modifies this`troubles
      ensures troubles == old(troubles) + (if answered then 0 else 1)
      ensures watermark.None? ==> !answered || !HasCheckpoint(records)
      ensures watermark.Some? ==> exists i | 0 <= i < |records| && records[i].Checkpoint? ::
                watermark.value == records[i].watermark
                && forall j | 0 <= j < |records| && records[j].Checkpoint? :: records[j].at <= records[i].at
    {
      answered := *;
      watermark := None;
      if !answered {
        troubles := troubles + 1;
        return;
      }
      ghost var best := 0;
      var newest := 0;
      for k := 0 to |records|
        invariant watermark.None? ==> forall j | 0 <= j < k :: !records[j].Checkpoint?
        invariant watermark.Some? ==> && 0 <= best < k && records[best].Checkpoint?
                                      && watermark.value == records[best].watermark && newest == records[best].at
        invariant watermark.Some? ==> forall j | 0 <= j < k && records[j].Checkpoint? :: records[j].at <= newest
      {
        var tie: bool := *;
        if records[k].Checkpoint? {
          if watermark.None? || newest < records[k].at || (newest == records[k].at && tie) {
            watermark, newest, best := Some(records[k].watermark), records[k].at, k;
          }
        }
      }
    }
  }

  /** The pages and the time that a poll may still use. */
  class Budget {
    var pages: int
    const deadline: int

    constructor (pages: int, deadline: int)
      ensures this.pages == pages && this.deadline == deadline
    {
      this.pages, this.deadline := pages, deadline;
    }

    method Spent(clock: Clock) returns (spent: bool)
      modifies clock
      ensures spent == (pages <= 0 || clock.now >= deadline) && clock.now >= old(clock.now)
    {
      var now := clock.Read();
      spent := pages <= 0 || now >= deadline;
    }
  }

  class Collector {
    const config: Config
    const clock: Clock
    const console: Console
    const sink: Sink
    var watermark: Option<int>
    var windowMs: int
    var seen: map<FlowId, int>
    var primed: bool
    var pending: seq<Record>
    var counters: Counters
    var stop: bool                // the stop event; once set it stays
    ghost var dead: bool          // a write killed the process
    // Auxiliary history of this process.
    ghost var sent: seq<Row>      // rows of acknowledged writes
    ghost var resumedAt: int      // the watermark the process started from
    ghost var origin: int         // where its chain of watermarks starts
    ghost var earlier: seq<Record> // flow rows stored before the process
    ghost var definite: bool      // no unacknowledged write of flow rows persisted anything

    constructor (config: Config, console: Console, sink: Sink, clock: Clock)
      ensures this.config == config && this.console == console && this.sink == sink && this.clock == clock
      ensures watermark.None? && windowMs == config.maxWindowS * 1000 && seen == map[] && !primed && pending == [] && !stop && !dead
      ensures counters == Counters(0, 0, 0, 0, 0, 0)
      ensures sent == [] && definite && earlier == FlowLines(sink.records)
    {
      this.config, this.console, this.sink, this.clock := config, console, sink, clock;
      watermark, windowMs, seen, primed, pending := None, config.maxWindowS * 1000, map[], false, [];
      counters := Counters(0, 0, 0, 0, 0, 0);
      stop, dead := false, false;
      sent, resumedAt, origin, definite, earlier := [], 0, 0, true, FlowLines(sink.records);
    }

    /** Nothing more may be asked for in this poll. */
    ghost predicate Over(budget: Budget)
      reads this, budget, clock
    {
      stop || budget.pages <= 0 || clock.now >= budget.deadline
    }

    method IsStopping() returns (stopping: bool)
      modifies this`stop
      ensures stopping == stop && (old(stop) ==> stop)
    {
      var signalled: bool := *;
      stop := stop || signalled;
      stopping := stop;
    }

    // -------------------------------------------------------------- reading

    /** Ask for one page, if the budget allows. */
    method ReadPage(start: int, end: int, page: nat, budget: Budget) returns (stopped: bool, fetch: Fetch)
      requires console.Valid() && console.Live() && console.clock == clock
      modifies this`counters, this`stop, console, clock, budget`pages
      ensures console.Valid() && clock.now >= old(clock.now) && Cycles(console.trace) == Cycles(old(console.trace))
      ensures HasAsked(old(Past()), Past(), if !stopped && fetch.Fetched? then [Served(start, end, page, fetch.document)] else [])
      ensures fetch.Raised? ==> Blamed(fetch.fault, console.trace, old(clock.now), old(console.unreadable), console.unreadable)
      ensures (stopped ==> Over(budget)) && (old(Over(budget)) ==> stopped)
      ensures !stopped && fetch.Fetched? <==> budget.pages == old(budget.pages) - 1
      ensures !stopped && fetch.Fetched? ==> old(budget.pages) > 0
      ensures stopped || fetch.Fetched? ==> console.Live()
      ensures stopped || fetch.Raised? ==> budget.pages == old(budget.pages)
      ensures counters == old(counters).(pagesRead := old(counters).pagesRead + if !stopped && fetch.Fetched? then 1 else 0)
    {
      fetch := Fetched(Shapeless);
      var spent := budget.Spent(clock);
      var stopping := IsStopping();
      stopped := spent || stopping;
      if !stopped {
        fetch := console.Flows(start, end, page);
        if fetch.Raised? {
          BlamedSince(fetch.fault, console.trace, clock.now, old(clock.now), old(console.unreadable), old(console.unreadable), console.unreadable);
        }
        if fetch.Fetched? {
          budget.pages := budget.pages - 1;
          counters := counters.(pagesRead := counters.pagesRead + 1);
        }
      }
    }

    /** Ask for the pages of a window in turn until one is the last, is objected to, or is one too many. */
    method ReadWindow(start: int, end: int, budget: Budget, acceptCap: bool)
      returns (window: Window, fault: Option<Fault>, ghost docs: seq<Document>)
      requires config.Sane() && console.Valid() && console.Live() && console.clock == clock
      modifies this`counters, this`stop, console, clock, budget`pages
      ensures console.Valid() && clock.now >= old(clock.now) && Cycles(console.trace) == Cycles(old(console.trace))
      ensures HasRead(old(Past()), Past(), start, end, docs)
      ensures budget.pages == old(budget.pages) - |docs| && |docs| <= Max(0, old(budget.pages))
      ensures counters == old(counters).(pagesRead := old(counters).pagesRead + |docs|)
      ensures fault.None? ==> console.Live() && Outcome(docs, window, start, end, config.cap, acceptCap)
      ensures fault.Some? ==>
                if fault.value.BadShape? then Chained(docs) && !GoodSoFar(docs, start, end, config.cap)
                else Blamed(fault.value, console.trace, old(clock.now), old(console.unreadable), console.unreadable)
      ensures fault.None? && window.problem == Some(CycleBudget) ==> Over(budget)
      ensures fault.None? && window.problem == Some(CycleBudget) && old(budget.pages) > config.cap / PAGE_SIZE ==>
                budget.pages > 0
      ensures old(Over(budget)) ==> docs == []
    {
      hide Outcome, GoodSoFar, Reading, HasRead, HasAsked, Cycles, Console.Valid;
      NothingRead(Past(), start, end);
      StartOfRead(start, end, config.cap, acceptCap);
      var progress := Progress([], None, None, false, 0);
      docs := [];
      while true
        invariant console.Valid() && console.Live() && clock.now >= old(clock.now) && Cycles(console.trace) == Cycles(old(console.trace))
        invariant HasRead(old(Past()), Past(), start, end, docs) && progress.page == |docs|
        invariant Reading(docs, progress, start, end, config.cap, acceptCap)
        invariant progress.page <= Max(0, old(budget.pages))
        invariant budget.pages == old(budget.pages) - progress.page && (old(Over(budget)) ==> Over(budget) && docs == [])
        invariant old(console.unreadable) <= console.unreadable
        invariant counters == old(counters).(pagesRead := old(counters).pagesRead + progress.page)
        decreases config.cap - progress.page * PAGE_SIZE
      {
        ReadingPage(docs, progress, start, end, config.cap, acceptCap);
        ghost var before := Past();
        var stopped, fetch := ReadPage(start, end, progress.page, budget);
        if stopped {
          ReadNothing(old(Past()), before, Past(), start, end, docs);
          OutOfBudget(docs, progress, start, end, config.cap, acceptCap);
          window := Window(progress.rows, Some(CycleBudget), progress.capped, false);
          return window, None, docs;
        }
        if fetch.Raised? {
          ReadNothing(old(Past()), before, Past(), start, end, docs);
          BlamedSince(fetch.fault, console.trace, before.now, old(clock.now), before.unreadable, old(console.unreadable), console.unreadable);
          return Window([], None, false, false), Some(fetch.fault), docs;
        }
        ReadOne(old(Past()), before, Past(), start, end, docs, fetch.document);
        var next, verdict := TakePage(progress, fetch.document, start, end, config.cap, acceptCap, docs);
        docs := docs + [fetch.document];
        match verdict {
          case Finished(problem) =>
            window := Window(next.rows, problem, next.capped, problem == Some(ChangingTotal));
            return window, None, docs;
          case Raise =>
            return Window([], None, false, false), Some(BadShape), docs;
          case More =>
            ReadingPage(docs, next, start, end, config.cap, acceptCap);
            progress := next;
        }
      }
    }

    // -------------------------------------------------------------- storing

    /** Post one batch. Unless the store acknowledges it, none of its rows counts as sent. */
    method Flush(batch: seq<Row>) returns (fault: Option<Fault>, ghost lost: seq<Row>)
      requires Postable(batch)
      modifies this`seen, this`counters, this`sent, this`definite, sink`records, sink`strays, sink`troubles
      ensures fault.None? ==> && sink.records == old(sink.records) + Lines(batch)
                              && seen == Remember(old(seen), batch) && sent == old(sent) + batch
                              && counters == old(counters).(rowsWritten := old(counters).rowsWritten + |batch|)
      ensures fault.Some? ==> && lost <= batch && sink.records == old(sink.records) + Lines(lost)
                              && seen == old(seen) && sent == old(sent) && counters == old(counters)
                              && fault.value in {Failed(CycleResult.IngestFailed), Crashed}
      ensures fault.None? ==> lost == []
      ensures sink.troubles == old(sink.troubles) + if fault.None? then 0 else 1
      ensures definite == (old(definite) && lost == []) && sink.strays == old(sink.strays) + |lost|
    {
      hide FlowLines, Remember, Bytes;
      var outcome, persisted := sink.Write(Lines(batch));
      lost := batch[..persisted];
      assert Lines(batch)[..persisted] == Lines(lost);
      FlowLinesOfLines(lost);
      definite := definite && (outcome.Accepted? || lost == []);
      match outcome {
        case Rejected => fault := Some(Failed(CycleResult.IngestFailed));
        case Died => fault := Some(Crashed);
        case Accepted =>
          assert lost == batch;
          lost := [];
          seen := Remember(seen, batch);
          sent := sent + batch;
          counters := counters.(rowsWritten := counters.rowsWritten + |batch|);
          fault := None;
      }
    }

    /** Send the unseen rows of a window in order, each once, in postable batches. */
    method Store(rows: seq<Row>) returns (fault: Option<Fault>, ghost posts: seq<seq<Row>>, ghost lost: seq<Row>)
      requires watermark.Some? && Distinct(rows)
      modifies this`seen, this`counters, this`sent, this`definite, sink`records, sink`strays, sink`troubles
      ensures Shipped(rows, old(seen), posts, lost, old(sink.records), sink.records, seen)
      ensures sent == old(sent) + Flatten(posts)
      ensures fault.None? ==> Flatten(posts) == Unseen(rows, old(seen)) && lost == []
      ensures definite == (old(definite) && lost == []) && sink.strays == old(sink.strays) + |lost|
      ensures counters.rowsRead == old(counters).rowsRead + |rows|
      ensures counters.rowsWritten == old(counters).rowsWritten + |Flatten(posts)|
      ensures fault.None? ==> counters.rowsDuplicate - old(counters).rowsDuplicate == |rows| - |Flatten(posts)|
      ensures counters.pagesRead == old(counters).pagesRead && counters.windowsShifted == old(counters).windowsShifted
      ensures StoreFails(fault, rows, old(sink.troubles), sink.troubles)
    {
      counters := counters.(rowsRead := counters.rowsRead + |rows|);
      ghost var known, before := seen, sink.records;
      var floor := watermark.value;
      var batch: seq<Row>, size: nat := [], 0;
      posts, lost := [], [];
      SendingStart(rows, known);
      hide Sending, Shipped, Flatten, Remember, Unseen, StoreFails, Distinct, Bytes;
      for k := 0 to |rows|
        invariant Sending(rows, k, known, posts, batch, size) && Rendered(Flatten(posts))
        invariant seen == Remember(known, Flatten(posts)) && sent == old(sent) + Flatten(posts)
        invariant sink.records == before + Lines(Flatten(posts))
        invariant definite == old(definite) && sink.strays == old(sink.strays) && sink.troubles == old(sink.troubles)
        invariant counters.rowsRead == old(counters).rowsRead + |rows|
        invariant counters.rowsWritten == old(counters).rowsWritten + |Flatten(posts)|
        invariant counters.rowsDuplicate - old(counters).rowsDuplicate == k - |Unseen(rows[..k], known)|
        invariant counters.pagesRead == old(counters).pagesRead && counters.windowsShifted == old(counters).windowsShifted
      {
        SendingFacts(rows, k, known, posts, batch, size);
        AcceptingEarlier(rows, k, known, Flatten(posts));
        SendingRow(rows, k, known, posts, batch, size);
        if rows[k].id in seen {
          counters := counters.(rowsDuplicate := counters.rowsDuplicate + 1);
          continue;
        }
        fault, batch, size, posts, lost := Offer(rows[k], floor, batch, size, posts, rows, k, known, before, old(sent));
        if fault.Some? {
          NotStored(fault, rows, k, old(sink.troubles), sink.troubles);
          return;
        }
      }
      SendingFacts(rows, |rows|, known, posts, batch, size);
      SendingAll(rows, known, posts, batch);
      fault, posts, lost := FlushBatch(batch, posts, rows, |rows|, known, before, old(sent));
      NotStored(fault, rows, 0, old(sink.troubles), sink.troubles);
    }

    /** Render one unseen row into the batch, posting the batch first if the row would overfill it. */
    method Offer(row: Row, floor: int, batch: seq<Row>, size: nat, ghost posts: seq<seq<Row>>,
                 ghost rows: seq<Row>, ghost k: nat, ghost known: map<FlowId, int>, ghost before: seq<Record>, ghost base: seq<Row>)
      returns (fault: Option<Fault>, filled: seq<Row>, filledSize: nat, ghost after: seq<seq<Row>>, ghost lost: seq<Row>)
      requires Sending(rows, k, known, posts, batch, size)
      requires k < |rows| && row == rows[k] && row.id !in known
      requires seen == Remember(known, Flatten(posts)) && sink.records == before + Lines(Flatten(posts))
      requires sent == base + Flatten(posts)
      modifies this`seen, this`counters, this`sent, this`definite, sink`records, sink`strays, sink`troubles
      ensures fault.None? ==> Sending(rows, k + 1, known, after, filled, filledSize)
      ensures fault.None? ==> seen == Remember(known, Flatten(after)) && sink.records == before + Lines(Flatten(after))
      ensures fault.Some? ==> Shipped(rows, known, after, lost, before, sink.records, seen)
      ensures fault.Some? ==> fault.value in {Failed(CycleResult.IngestFailed), BadShape, Crashed}
      ensures fault == Some(BadShape) ==> row.line.None?
      ensures sink.troubles == old(sink.troubles) + if fault.None? || fault.value.BadShape? then 0 else 1
      ensures sent == base + Flatten(after)
      ensures definite == (old(definite) && lost == []) && (fault.None? ==> lost == [])
      ensures sink.strays == old(sink.strays) + |lost|
      ensures counters == old(counters).(rowsLate := counters.rowsLate, rowsWritten := counters.rowsWritten)
      ensures counters.rowsLate == old(counters).rowsLate + if primed && row.time < floor then 1 else 0
      ensures counters.rowsWritten - old(counters).rowsWritten == |Flatten(after)| - |Flatten(posts)|
    {
      hide Sending, Shipped, Flatten, Remember, Bytes, Postable, Unseen;
      SendingFacts(rows, k, known, posts, batch, size);
      if primed && row.time < floor {
        counters := counters.(rowsLate := counters.rowsLate + 1);
      }
      if row.line.None? {
        ShippedSoFar(rows, k, known, posts, batch, [], before);
        return Some(BadShape), batch, size, posts, [];
      }
      filled, filledSize, after, lost, fault := batch, size, posts, [], None;
      if size + row.line.value > MAX_BATCH_BYTES {
        fault, after, lost := FlushBatch(batch, posts, rows, k, known, before, base);
        if fault.Some? {
          return;
        }
        filled, filledSize := [], 0;
      }
      SendingRow(rows, k, known, after, filled, filledSize);
      filled, filledSize := filled + [row], filledSize + row.line.value + 1;
    }

    /** `flush()`: nothing for an empty batch. */
    method FlushBatch(batch: seq<Row>, ghost posts: seq<seq<Row>>, ghost rows: seq<Row>, ghost k: nat,
                      ghost known: map<FlowId, int>, ghost before: seq<Record>, ghost base: seq<Row>)
      returns (fault: Option<Fault>, ghost after: seq<seq<Row>>, ghost lost: seq<Row>)
      requires Rendered(batch) && Sending(rows, k, known, posts, batch, Bytes(batch))
      requires seen == Remember(known, Flatten(posts)) && sink.records == before + Lines(Flatten(posts))
      requires sent == base + Flatten(posts)
      modifies this`seen, this`counters, this`sent, this`definite, sink`records, sink`strays, sink`troubles
      ensures fault.None? ==> Sending(rows, k, known, after, [], 0) && lost == []
      ensures Rendered(Flatten(after)) && (fault.None? ==> sink.records == before + Lines(Flatten(after)))
      ensures seen == Remember(known, Flatten(after))
      ensures fault.Some? ==> after == posts
      ensures fault.Some? ==> fault.value in {Failed(CycleResult.IngestFailed), Crashed}
      ensures sink.troubles == old(sink.troubles) + if fault.None? then 0 else 1
      ensures Shipped(rows, known, after, lost, before, sink.records, seen)
      ensures var accepted := if fault.None? then batch else [];
              && sent == base + Flatten(after) && Flatten(after) == Flatten(posts) + accepted
              && counters == old(counters).(rowsWritten := old(counters).rowsWritten + |accepted|)
      ensures definite == (old(definite) && lost == []) && sink.strays == old(sink.strays) + |lost|
    {
      hide Sending, Shipped, Remember, Unseen;
      if batch == [] {
        ShippedSoFar(rows, k, known, posts, batch, [], before);
        return None, posts, [];
      }
      SendingFacts(rows, k, known, posts, batch, Bytes(batch));
      fault, lost := Flush(batch);
      if fault.Some? {
        ShippedSoFar(rows, k, known, posts, batch, lost, before);
        return fault, posts, lost;
      }
      SendingFlushed(rows, k, known, posts, batch, Bytes(batch), before);
      assert base + Flatten(posts) + batch == base + Flatten(posts + [batch]);
      RememberAppend(known, Flatten(posts), batch);
      ShippedSoFar(rows, k, known, posts + [batch], [], [], before);
      return None, posts + [batch], [];
    }

    // -------------------------------------------------------------- advancing

    ghost predicate Account()
      reads this, sink
    {
      Accounted(sink.records, sink.history, sink.origin, config.cap, pending, watermark, origin)
    }

    ghost predicate Recall()
      reads this, sink
    {
      Recalled(sink.records, earlier, sent, definite, watermark, seen, resumedAt, config.Overlap())
    }

    ghost predicate Truth()
      reads this, sink
    {
      Truthful(sink.records, pending, sink.history, config.cap, sink.horizon)
    }

    ghost predicate Wired()
      reads this, sink, clock
    {
      && config.Sane() && console.clock == clock && console.poll == config.pollS
      && config.minWindowS * 1000 <= windowMs <= config.maxWindowS * 1000
      && sink.horizon + config.GivenUpAfter() <= clock.now
      && (watermark.Some? && !HasCheckpoint(sink.records) ==> origin == resumedAt)
    }

    ghost function Past(): Log
      reads this, sink, console, clock
    {
      Log(sink.records, sink.history, sink.origin, sink.strays, sent, earlier, definite,
              if watermark.Some? then Some(resumedAt) else None, console.trace, console.served, clock.now,
              sink.troubles, console.unreadable)
    }

    ghost predicate Valid()
      reads this, sink, console, clock
    {
      Wired() && console.Valid() && Account() && Recall() && Truth()
    }

    method OldestTime(rows: seq<Row>) returns (oldest: int)
      requires rows != []
      ensures forall i | 0 <= i < |rows| :: oldest <= rows[i].time
      ensures exists i | 0 <= i < |rows| :: oldest == rows[i].time
    {
      oldest := rows[0].time;
      ghost var at := 0;
      for k := 1 to |rows|
        invariant 0 <= at < k && oldest == rows[at].time
        invariant forall i | 0 <= i < k :: oldest <= rows[i].time
      {
        if rows[k].time < oldest {
          oldest, at := rows[k].time, k;
        }
      }
    }

    /** Send a window's rows. Whatever happens, the account and the memory stand. */
    method StoreWindow(rows: seq<Row>, ghost start: int) returns (fault: Option<Fault>)
      requires Valid() && watermark.Some? && Distinct(rows)
      requires start == Max(watermark.value - config.Overlap(), 0)
      requires forall i | 0 <= i < |rows| :: start <= rows[i].time
      modifies this`seen, this`counters, this`sent, this`definite, sink`records, sink`strays, sink`troubles
      ensures Valid() && HasStored(old(Past()), Past(), rows)
      ensures fault.None? ==> AllHeld(sink.records, rows)
      ensures counters.pagesRead == old(counters).pagesRead && counters.windowsShifted == old(counters).windowsShifted
      ensures StoreFails(fault, rows, old(sink.troubles), sink.troubles)
    {
      hide Accounted, Recalled, Truthful, Shipped, AllHeld, Unseen, Flatten, HasStored, HasCheckpoint, Distinct, Console.Valid;
      ghost var known, before := seen, Past();
      var f, posts, lost := Store(rows);
      fault := f;
      ShippedIsStored(before, Past(), rows, known, posts, lost, seen);
      StoredRowsOnly(before, Past(), rows);
      WindowSent(rows, known, posts, lost, before.records, sink.records, seen, sink.history, sink.origin, config.cap, sink.horizon,
                 pending, watermark, origin, earlier, before.sent, before.definite, resumedAt, config.Overlap());
    }

    /** What the query cap hid is no newer than the oldest row of the read. */
    method CapGap(window: Window) returns (gaps: seq<Record>)
      requires watermark.Some? && (window.capped ==> window.rows != [])
      ensures IsCapGap(window, watermark.value, gaps)
    {
      if window.capped {
        var oldest := OldestTime(window.rows);
        return [Gap(watermark.value, oldest, QueryCap)];
      }
      return [];
    }

    /** A window read to the end and held whole moves the watermark to its end; what the query cap
        hid becomes a pending gap first. */
    method Complete(window: Window, start: int, end: int, ghost docs: seq<Document>)
      requires Valid() && watermark.Some? && watermark.value < end
      requires start == Max(watermark.value - config.Overlap(), 0)
      requires Chained(docs) && ReadToTheEnd(docs, window, start, end, config.cap, true)
      requires AllHeld(sink.records, window.rows)
      modifies this`watermark, this`pending, this`primed, this`seen, this`windowMs, sink`history
      ensures Valid() && watermark == Some(end) && primed && old(pending) <= pending && seen == Prune(old(seen), end - 2 * config.Overlap())
      ensures windowMs == Min(old(windowMs) * 2, config.maxWindowS * 1000)
      ensures sink.history == old(sink.history) + [WindowRead(old(watermark).value, start, end, docs)]
      ensures Past() == old(Past()).(history := sink.history)
    {
      hide Accounted, Recalled, Truthful, Chained, ReadToTheEnd, AllHeld, IsCapGap, Console.Valid, Prune;
      RowsOfCapped(window, start, end, docs, config.cap);
      var gaps := CapGap(window);
      MoveWatermark(window, gaps, start, end, docs);
      Forget(end - 2 * config.Overlap());
      windowMs := Min(windowMs * 2, config.maxWindowS * 1000);
    }

    method MoveWatermark(ghost window: Window, gaps: seq<Record>, ghost start: int, end: int, ghost docs: seq<Document>)
      requires Valid() && watermark.Some? && watermark.value < end
      requires start == Max(watermark.value - config.Overlap(), 0)
      requires Chained(docs) && ReadToTheEnd(docs, window, start, end, config.cap, true)
      requires AllHeld(sink.records, window.rows)
      requires IsCapGap(window, watermark.value, gaps)
      modifies this`watermark, this`pending, this`primed, sink`history
      ensures Valid() && watermark == Some(end) && primed && old(pending) <= pending
      ensures sink.history == old(sink.history) + [WindowRead(old(watermark).value, start, end, docs)]
    {
      ghost var read := WindowRead(watermark.value, start, end, docs);
      hide Accounted, Recalled, Truthful, Chained, ReadToTheEnd, AllHeld, IsCapGap, Console.Valid, HasCheckpoint;
      WindowCompleted(sink.records, sink.history, sink.origin, config.cap, sink.horizon, pending, watermark, origin, window, gaps, read,
                      earlier, sent, definite, seen, resumedAt, config.Overlap());
      pending := pending + gaps;
      sink.history := sink.history + [read];
      watermark := Some(end);
      primed := true;
      assert Account() && Recall() && Truth();
    }

    /** Forget identities older than `from`: no later window starts that early. */
    method Forget(from: int)
      requires Valid() && watermark.Some? && from <= watermark.value - config.Overlap()
      modifies this`seen
      ensures Valid() && seen == Prune(old(seen), from)
    {
      hide Accounted, Recalled, Truthful, Console.Valid;
      RecallPruned(sink.records, earlier, sent, definite, watermark, seen, resumedAt, config.Overlap(), from);
      seen := Prune(seen, from);
    }

    /** Move the watermark over time given up on, recording it as a gap. */
    method GiveUp(oldest: int)
      requires Valid() && watermark.Some? && watermark.value < oldest && oldest + config.GivenUpAfter() <= clock.now
      modifies this`watermark, this`pending, sink`horizon
      ensures Valid() && watermark == Some(oldest)
      ensures pending == old(pending) + [Gap(old(watermark).value, oldest, BeyondCatchup)]
    {
      hide Accounted, Recalled, Truthful, Console.Valid;
      TruthGivenUp(sink.records, pending, sink.history, config.cap, sink.horizon, watermark.value, oldest);
      AccountGivenUp(sink.records, sink.history, sink.origin, config.cap, pending, watermark, origin, oldest);
      RecallLater(sink.records, earlier, sent, definite, watermark, seen, resumedAt, config.Overlap(), oldest);
      pending := pending + [Gap(watermark.value, oldest, BeyondCatchup)];
      sink.horizon := Max(sink.horizon, oldest);
      watermark := Some(oldest);
    }

    /** Where the process stands: its log, and what a poll moves. */
    ghost function Here(budget: Budget): Stand
      requires watermark.Some?
      reads this, sink, console, clock, budget
    {
      Stand(Past(), watermark.value, budget.pages, counters.pagesRead, pending, Cycles(console.trace))
    }

    /** The watermark moved over one completed window, the next window is wider. */
    ghost predicate Moved(history: seq<WindowRead>, wm: int, width: int, endLimit: int)
      reads this, sink
    {
      && watermark == Some(Min(wm + width, endLimit)) && windowMs == Min(width * 2, config.maxWindowS * 1000)
      && |sink.history| == |history| + 1 && history <= sink.history
      && var read := sink.history[|history|];
         read.lo == wm && read.start == Max(wm - config.Overlap(), 0) && Some(read.hi) == watermark
    }

    /** The console truncated the window, whose pages began after the first `m`, so the next one is
        narrower. */
    ghost predicate Narrowed(history: seq<WindowRead>, wm: Option<int>, width: int, m: nat)
      reads this, sink, console
    {
      && m < |console.served| && console.served[m].document.Page? && config.cap <= console.served[m].document.total
      && watermark == wm && sink.history == history && width > config.minWindowS * 1000
      && windowMs == Max(width / 2, config.minWindowS * 1000)
    }

    /** Read one window and, if it is whole, move over it. */
    method Step(budget: Budget, endLimit: int) returns (step: StepResult)
      requires Valid() && console.Live() && watermark.Some? && watermark.value < endLimit
      requires endLimit + config.settleS * 1000 <= clock.now
      modifies this, console, clock, budget`pages, sink
      ensures Valid() && watermark.Some? && clock.now >= old(clock.now)
      ensures Onward(old(Here(budget)), Here(budget), endLimit, config.AsTerms())
      ensures step.Go? ==> console.Live()
      ensures step.Go? ==> if sink.history != old(sink.history)
                           then Moved(old(sink.history), old(watermark).value, old(windowMs), endLimit)
                                && (step.rows > 0 <==> HasRows(sink.history[|old(sink.history)|].docs))
                           else Narrowed(old(sink.history), old(watermark), old(windowMs), |old(console.served)|) && step.rows == 0
      ensures !step.Go? ==> watermark == old(watermark) && windowMs == old(windowMs) && sink.history == old(sink.history)
      ensures step.Return? ==> step.result in {Backlog, Incomplete}
      ensures step == Return(Backlog) && old(budget.pages) > config.cap / PAGE_SIZE ==> budget.pages > 0
      ensures !step.Go? ==> Told(step.Result(), step.Fault(), old(Past()), Past(), Over(budget), config.cap)
    {
      hide Accounted, Recalled, Truthful, Outcome, Kept, Cycles, LoginsSince, GoodSoFar, Later, Onward, HasRead;
      hide Told, Blamed, Chained, HasRows, Console.Valid, Console.Live, HasCheckpoint;
      ghost var stood := Here(budget);
      var end := Min(watermark.value + windowMs, endLimit);
      var start := Max(watermark.value - config.Overlap(), 0);
      var atFloor := windowMs <= config.minWindowS * 1000;
      var window, fault, docs := ReadWindow(start, end, budget, atFloor);
      OnwardRead(stood, Here(budget), start, end, docs, endLimit, config.AsTerms());
      if fault.Some? {
        ReadTold(fault.value, stood.past, Past(), start, end, docs, Over(budget), config.cap);
        return Abort(fault.value);
      }
      step := Proceed(window, start, end, atFloor, docs, endLimit, budget, stood);
    }

    /** A window was read: narrow the next one if it was truncated, or take it. */
    method Proceed(window: Window, start: int, end: int, atFloor: bool, ghost docs: seq<Document>, ghost endLimit: int,
                   ghost budget: Budget, ghost stood: Stand) returns (step: StepResult)
      requires Valid() && watermark.Some? && endLimit + config.settleS * 1000 <= clock.now
      requires watermark.value < end <= endLimit && end == Min(watermark.value + windowMs, endLimit)
      requires start == Max(watermark.value - config.Overlap(), 0) && atFloor == (windowMs <= config.minWindowS * 1000)
      requires Outcome(docs, window, start, end, config.cap, atFloor) && HasRead(stood.past, Past(), start, end, docs)
      requires Here(budget) == stood.(past := Past(), pages := budget.pages, pagesRead := counters.pagesRead)
      requires stood.past.history == sink.history && stood.past.resumedAt == Some(resumedAt)
      requires counters.pagesRead - stood.pagesRead == stood.pages - budget.pages <= Max(0, stood.pages)
      requires window.problem == Some(CycleBudget) ==> Over(budget)
      requires Onward(stood, Here(budget), endLimit, config.AsTerms())
      modifies this`seen, this`counters, this`sent, this`definite, this`watermark, this`pending, this`primed, this`windowMs
      modifies sink`records, sink`strays, sink`troubles, sink`history
      ensures Valid() && watermark.Some? && Onward(stood, Here(budget), endLimit, config.AsTerms())
      ensures step.Go? ==> if sink.history != old(sink.history)
                           then Moved(old(sink.history), old(watermark).value, old(windowMs), endLimit)
                                && (step.rows > 0 <==> HasRows(sink.history[|old(sink.history)|].docs))
                           else Narrowed(old(sink.history), old(watermark), old(windowMs), |stood.past.served|) && step.rows == 0
      ensures !step.Go? ==> watermark == old(watermark) && windowMs == old(windowMs) && sink.history == old(sink.history)
      ensures step.Return? ==> step.result == (if window.problem == Some(CycleBudget) then Backlog else Incomplete)
      ensures step.Return? ==> window.problem.Some?
      ensures !step.Go? ==> Told(step.Result(), step.Fault(), stood.past, Past(), Over(budget), config.cap)
    {
      hide Accounted, Recalled, Truthful, Outcome, Kept, Cycles, GoodSoFar, Later, Onward, HasRead, HasTaken, AllShown;
      hide Told, StoreFails, HasRows, Chained, ReadToTheEnd, Console.Valid, HasCheckpoint;
      ghost var between := Past();
      WholeWindow(docs, window, start, end, config.cap, atFloor);
      ServedFirst(stood.past, between, start, end, docs);
      if window.capped && !atFloor {
        windowMs := Max(windowMs / 2, config.minWindowS * 1000);
        return Go(0);
      }
      step := TakeWindow(window, start, end, atFloor, docs);
      TakenLater(stood.past, between, Past(), WindowRead(stood.watermark, start, end, docs), window.rows, config.AsTerms());
      OnwardOne(stood, Here(budget), endLimit, config.AsTerms());
      StepTold(step, window, stood.past, between, Past(), start, end, docs, Over(budget), config.cap);
    }

    /** Store what a window read gave; if it was whole, move over it. */
    method TakeWindow(window: Window, start: int, end: int, atFloor: bool, ghost docs: seq<Document>) returns (step: StepResult)
      requires Valid() && watermark.Some? && watermark.value < end && (window.capped ==> atFloor)
      requires start == Max(watermark.value - config.Overlap(), 0)
      requires Outcome(docs, window, start, end, config.cap, atFloor)
      modifies this`seen, this`counters, this`sent, this`definite, this`watermark, this`pending, this`primed, this`windowMs
      modifies sink`records, sink`strays, sink`troubles, sink`history
      ensures Valid() && counters.pagesRead == old(counters.pagesRead) && old(pending) <= pending
      ensures HasTaken(old(Past()), Past(), WindowRead(old(watermark).value, start, end, docs), window.rows)
      ensures step.Go? ==> windowMs == Min(old(windowMs) * 2, config.maxWindowS * 1000)
      ensures step.Go? ==> watermark == Some(end) && window.problem.None?
                           && sink.history == old(sink.history) + [WindowRead(old(watermark).value, start, end, docs)]
      ensures !step.Go? ==> watermark == old(watermark) && windowMs == old(windowMs) && sink.history == old(sink.history)
      ensures step.Return? ==> step.result == if window.problem == Some(CycleBudget) then Backlog else Incomplete
      ensures step.Return? ==> window.problem.Some?
      ensures !step.Abort? ==> AllHeld(sink.records, window.rows)
      ensures step.Go? ==> step.rows == |window.rows| && (step.rows > 0 <==> HasRows(docs))
      ensures StoreFails(if step.Abort? then Some(step.fault) else None, window.rows, old(sink.troubles), sink.troubles)
      ensures counters.windowsShifted == old(counters.windowsShifted) + if window.shifted && !step.Abort? then 1 else 0
    {
      WholeWindow(docs, window, start, end, config.cap, atFloor);
      hide Outcome, ReadToTheEnd, Accounted, Recalled, Truthful, HasStored, HasTaken, AllShown, Chained, AllHeld;
      hide Console.Valid, HasCheckpoint, HasRows, StoreFails, Distinct;
      ghost var before, read := Past(), WindowRead(watermark.value, start, end, docs);
      var fault := StoreWindow(window.rows, start);
      ghost var between := Past();
      StoredTaken(before, between, read, window.rows);
      if fault.Some? {
        return Abort(fault.value);
      }
      step := MoveOver(window, start, end, docs);
      if step.Go? {
        CompletedTaken(before, between, Past(), read, window.rows);
      }
    }

    /** A stored window: move over it if it was read without a problem. */
    method MoveOver(window: Window, start: int, end: int, ghost docs: seq<Document>) returns (step: StepResult)
      requires Valid() && watermark.Some? && watermark.value < end
      requires start == Max(watermark.value - config.Overlap(), 0)
      requires window.problem.None? ==> Chained(docs) && ReadToTheEnd(docs, window, start, end, config.cap, true)
      requires AllHeld(sink.records, window.rows)
      modifies this`counters, this`watermark, this`pending, this`primed, this`seen, this`windowMs, sink`history
      ensures Valid() && old(pending) <= pending && Past() == old(Past()).(history := sink.history) && !step.Abort?
      ensures counters == old(counters).(windowsShifted := old(counters.windowsShifted) + if window.shifted then 1 else 0)
      ensures step.Go? <==> window.problem.None?
      ensures step.Go? ==> && windowMs == Min(old(windowMs) * 2, config.maxWindowS * 1000) && watermark == Some(end)
                           && sink.history == old(sink.history) + [WindowRead(old(watermark).value, start, end, docs)]
                           && step.rows == |window.rows| && (step.rows > 0 <==> HasRows(docs))
      ensures step.Return? ==> && watermark == old(watermark) && windowMs == old(windowMs) && sink.history == old(sink.history)
                               && step.result == if window.problem == Some(CycleBudget) then Backlog else Incomplete
    {
      hide ReadToTheEnd, Accounted, Recalled, Truthful, Chained, AllHeld, Console.Valid, HasCheckpoint, HasRows, Prune;
      if window.shifted {
        counters := counters.(windowsShifted := counters.windowsShifted + 1);
      }
      if window.problem == Some(CycleBudget) {
        return Return(Backlog);
      }
      if window.problem.Some? {
        return Return(Incomplete);
      }
      RowsAreStated(docs, window, start, end, config.cap);
      Complete(window, start, end, docs);
      step := Go(|window.rows|);
    }

    /** Complete window after window until the settled present, the budget or a failure stops it. */
    method Advance(budget: Budget) returns (result: CycleResult, fault: Option<Fault>, ghost endLimit: int)
      requires Valid() && console.Live() && watermark.Some?
      modifies this, console, clock, budget`pages, sink
      ensures Valid() && watermark.Some?
      ensures counters.pagesRead - old(counters.pagesRead) == old(budget.pages) - budget.pages <= Max(0, old(budget.pages))
      ensures old(watermark).value <= watermark.value
      ensures old(clock.now) <= endLimit + config.settleS * 1000 <= clock.now
      ensures Later(old(Past()), Past(), config.AsTerms()) && Cycles(console.trace) == Cycles(old(console.trace))
      ensures watermark.value <= Max(old(watermark).value, endLimit)
      ensures Told(result, fault, old(Past()), Past(), Over(budget), config.cap)
      ensures fault.None? && result in {Done, NoRows} ==> endLimit <= watermark.value
      ensures var oldest := endLimit - config.catchupS * 1000;
              && Walked(old(sink.history), sink.history, Max(old(watermark).value, oldest), watermark.value, endLimit, config.Overlap())
              && (old(watermark).value < oldest ==>
                    old(pending) + [Gap(old(watermark).value, oldest, BeyondCatchup)] <= pending)
      ensures (fault.None? && result == Backlog && sink.history == old(sink.history) && windowMs == old(windowMs)
               && old(budget.pages) > config.cap / PAGE_SIZE) ==> budget.pages > 0
    {
      hide Accounted, Recalled, Truthful, Later, Onward, Walked, Kept, Cycles, LoginsSince, Told;
      ghost var before := Past();
      var now := clock.Read();
      var limit := now - config.settleS * 1000;
      endLimit := limit;
      var oldest := limit - config.catchupS * 1000;
      if watermark.value < oldest {
        GiveUp(oldest);
      }
      ghost var between := Past();
      WaitedLater(before, between, config.AsTerms());
      ghost var stood := Here(budget);
      result, fault := AdvanceTo(limit, budget);
      OnwardMeans(stood, Here(budget), limit, config.AsTerms());
      ToldSince(result, fault, before, between, Past(), Over(budget), config.cap, config.AsTerms());
      LaterTrans(before, between, Past(), config.AsTerms());
    }

    /** Window after window, up to a fixed time. */
    method AdvanceTo(endLimit: int, budget: Budget) returns (result: CycleResult, fault: Option<Fault>)
      requires Valid() && console.Live() && watermark.Some?
      requires endLimit + config.settleS * 1000 <= clock.now
      modifies this, console, clock, budget`pages, sink
      ensures Valid() && watermark.Some? && clock.now >= old(clock.now)
      ensures Onward(old(Here(budget)), Here(budget), endLimit, config.AsTerms())
      ensures Told(result, fault, old(Past()), Past(), Over(budget), config.cap)
      ensures fault.None? && result in {Done, NoRows} ==> endLimit <= watermark.value
      ensures (fault.None? && result == Backlog && sink.history == old(sink.history) && windowMs == old(windowMs)
               && old(budget.pages) > config.cap / PAGE_SIZE) ==> budget.pages > 0
    {
      var rows := 0;
      result, fault := NoRows, None;
      OnwardSelf(Here(budget), endLimit, config.AsTerms());
      hide Past, Accounted, Recalled, Truthful, Onward, Console.Valid, Cycles, Later, HasCheckpoint, Told, SomeRows, HasRows, Here;
      NoReadsYet(Past());
      while watermark.value < endLimit
        invariant Valid() && console.Live() && watermark.Some? && clock.now >= old(clock.now)
        invariant Onward(old(Here(budget)), Here(budget), endLimit, config.AsTerms())
        invariant |sink.history| >= |old(sink.history)| && rows >= 0
        invariant rows > 0 <==> SomeRows(sink.history, |old(sink.history)|)
        invariant |sink.history| == |old(sink.history)| ==>
                    windowMs <= old(windowMs) && (windowMs == old(windowMs) ==> budget.pages == old(budget.pages))
        decreases endLimit - watermark.value, windowMs
      {
        ghost var before := Here(budget);
        var step := Step(budget, endLimit);
        OnwardTrans(old(Here(budget)), before, Here(budget), endLimit, config.AsTerms());
        if !step.Go? {
          ToldSince(step.Result(), step.Fault(), old(Past()), before.past, Past(), Over(budget), config.cap, config.AsTerms());
          return step.Result(), step.Fault();
        }
        rows := rows + step.rows;
        RowsSoFar(before.past.history, sink.history, |old(sink.history)|);
      }
      result := if rows > 0 then Done else NoRows;
      RowsTold(rows > 0, old(Past()), Past(), Over(budget), config.cap);
    }

    /** Take up the chain of a newest checkpoint or, in an empty store, start one a while ago. */
    method Restore() returns (fault: Option<Fault>)
      requires Valid()
      modifies this`watermark, this`resumedAt, this`origin, sink`troubles, clock
      ensures if fault.Some? then sink.troubles > old(sink.troubles) else sink.troubles == old(sink.troubles)
      ensures clock.now >= old(clock.now)
      ensures Valid() && (fault.None? ==> watermark.Some?) && (old(watermark).Some? ==> watermark == old(watermark))
      ensures fault.Some? ==> fault == Some(Failed(CycleResult.StateUnavailable)) && watermark.None?
      ensures Later(old(Past()), Past(), config.AsTerms())
      ensures old(watermark).None? && watermark.Some? ==>
                && watermark == Some(resumedAt)
                && ResumesFrom(sink.records, resumedAt, old(clock.now), clock.now, config.Lookback())
    {
      if watermark.Some? {
        return None;
      }
      ghost var begun := Past();
      var answered, stored := sink.LastWatermark();
      WaitedLater(begun, Past(), config.AsTerms());
      if !answered {
        return Some(Failed(CycleResult.StateUnavailable));
      }
      hide Accounted, Truthful, Later;
      if stored.Some? {
        AccountRestored(sink.records, sink.history, sink.origin, config.cap, stored.value);
        Resume(stored.value, sink.origin);
      } else {
        ghost var before := Past();
        var now := clock.Read();
        ghost var between := Past();
        WaitedLater(before, between, config.AsTerms());
        AccountStarted(sink.records, sink.history, sink.origin, config.cap, now - config.Lookback());
        Resume(now - config.Lookback(), now - config.Lookback());
        LaterTrans(before, between, Past(), config.AsTerms());
      }
      fault := None;
    }

    method Resume(from: int, ghost chain: int)
      requires Valid() && watermark.None?
      requires Accounted(sink.records, sink.history, sink.origin, config.cap, [], Some(from), chain)
      requires ResumesFrom(sink.records, from, clock.now, clock.now, config.Lookback())
      requires !HasCheckpoint(sink.records) ==> chain == from
      modifies this`watermark, this`resumedAt, this`origin
      ensures Valid() && watermark == Some(from) && resumedAt == from
      ensures Later(old(Past()), Past(), config.AsTerms())
    {
      hide Truthful, Faithful, ResumesFrom, HasCheckpoint, Kept;
      RecallStarted(sink.records, earlier, definite, from, config.Overlap());
      watermark, resumedAt, origin := Some(from), from, chain;
    }

    /** Persist the watermark together with the gaps that explain it, in one request. Unless the
        request is acknowledged, the gaps stay pending. */
    method Persist(result: CycleResult) returns (outcome: WriteOutcome, ghost at: int, ghost persisted: nat)
      requires Valid() && watermark.Some?
      modifies this`pending, sink`records, sink`strays, sink`troubles, sink`origin, clock
      ensures Valid() && clock.now >= old(clock.now) && at == clock.now
      ensures Later(old(Past()), Past(), config.AsTerms())
      ensures persisted <= |old(pending)| + 1
      ensures sink.records == old(sink.records) + Commit(old(pending), at, watermark.value, result)[..persisted]
      ensures outcome.Accepted? ==> persisted == |old(pending)| + 1
      ensures sink.troubles == old(sink.troubles) + if outcome.Accepted? then 0 else 1
      ensures pending == if outcome.Accepted? then [] else old(pending)
    {
      ghost var before := Past();
      hide Accounted, Recalled, Truthful, Later, HasCheckpoint, Kept, Refusals, LimitEnd, RefusalEnd, Backoff, Commit, FlowLines;
      var now := clock.Read();
      at := now;
      outcome, persisted := sink.Write(Commit(pending, now, watermark.value, result));
      CommitKeeps(before.records, sink.history, sink.origin, config.cap, sink.horizon, pending, watermark, origin, now, result, persisted,
                  sink.records, earlier, sent, definite, seen, resumedAt, config.Overlap());
      sink.origin := origin;
      if outcome.Accepted? {
        pending := [];
      }
      CommittedLater(before, Past(), config.AsTerms());
    }

    /** Restore and advance: the result to report, unless the process died, and what it rests on. */
    method Poll(budget: Budget) returns (result: CycleResult, crashed: bool)
      requires Valid() && console.Live()
      modifies this, console, clock, budget`pages, sink
      ensures Valid() && Later(old(Past()), Past(), config.AsTerms())
      ensures Cycles(console.trace) == Cycles(old(console.trace))
      ensures old(watermark).Some? ==> watermark.Some? && old(watermark).value <= watermark.value
      ensures counters.pagesRead - old(counters.pagesRead) == old(budget.pages) - budget.pages <= Max(0, old(budget.pages))
      ensures Ended(result, crashed, old(Past()), Past(), Over(budget), config.cap)
      ensures !crashed && result in {Done, NoRows} ==> watermark.Some? && old(clock.now) - config.settleS * 1000 <= watermark.value
    {
      hide Accounted, Recalled, Truthful, Later, Kept, Cycles, LoginsSince, Told, Ended, Walked;
      ghost var before := Past();
      var fault := Restore();
      ghost var between := Past();
      result := StateUnavailable;
      if fault.Some? {
        NotRestored(before, between, Over(budget), config.cap);
        return StateUnavailable, false;
      }
      ghost var endLimit: int;
      result, fault, endLimit := Advance(budget);
      ToldSince(result, fault, before, between, Past(), Over(budget), config.cap, config.AsTerms());
      LaterTrans(before, between, Past(), config.AsTerms());
      ToldEnds(result, fault, before, Past(), Over(budget), config.cap);
      crashed := false;
      match fault {
        case Some(Crashed) => crashed := true;
        case Some(BadShape) => result := Incomplete;
        case Some(Failed(r)) => result := r;
        case None =>
      }
    }

    ghost predicate IsCheckpoint(records: seq<Record>, watermark: int, result: CycleResult) {
      && records != [] && records[|records| - 1].Checkpoint?
      && records[|records| - 1].watermark == watermark && records[|records| - 1].result == result
    }

    /** One poll. Whatever the console and the store do, the process that survives it is sound, and
        if it does not survive, the store is. */
    method Cycle() returns (result: CycleResult, crashed: bool)
      requires Valid() && !dead
      modifies this, console, clock, sink
      ensures Valid() && Safe(sink.records, sink.history, config.cap, sink.origin) && dead == crashed
      ensures Later(old(Past()), Past(), config.AsTerms())
      ensures old(watermark).Some? ==> watermark.Some? && old(watermark).value <= watermark.value
      ensures Cycles(console.trace) == Cycles(old(console.trace)) + 1
      ensures counters.pagesRead - old(counters).pagesRead <= Max(config.maxPages, config.cap / PAGE_SIZE + 1)
      ensures Ended(result, crashed, old(Past()), Past(), Exhausted(old(counters.pagesRead), old(clock.now)), config.cap)
      ensures !crashed && result in {Done, NoRows} ==> watermark.Some? && old(clock.now) - config.settleS * 1000 <= watermark.value
      ensures !crashed && result in {Done, NoRows, Backlog} && watermark.Some? ==> pending == []
      ensures !crashed && watermark.Some? && (result in {Done, NoRows, Backlog} || sink.troubles == old(sink.troubles)) ==>
                pending == [] && (watermark != old(watermark) ==> IsCheckpoint(sink.records, watermark.value, result))
    {
      hide Accounted, Recalled, Truthful, Safe, Kept, Cycles, LoginsSince, Refusals, LimitEnd, RefusalEnd, Backoff, Later, IsCheckpoint, Ended;
      ghost var start := Past();
      console.BeginCycle();
      ghost var begun := Past();
      BegunLater(start, begun, config.AsTerms());
      var pages := Max(config.maxPages, config.cap / PAGE_SIZE + 1);
      var budget := new Budget(pages, clock.now + config.maxCycleS * 1000);
      result, crashed := PollAndCommit(budget);
      LaterTrans(start, begun, Past(), config.AsTerms());
      EndedSince(result, crashed, start, begun, Past(), Over(budget), Exhausted(old(counters.pagesRead), old(clock.now)), config.cap);
      dead := crashed;
      SafeIn(sink.records, sink.history, sink.origin, config.cap, pending, watermark, origin);
    }

    /** A poll may ask for nothing more: the process is stopping, or the pages or the time since it
        began are used up. */
    ghost predicate Exhausted(pagesBefore: int, begunAt: int)
      reads this, clock
    {
      || stop || counters.pagesRead - pagesBefore >= Max(config.maxPages, config.cap / PAGE_SIZE + 1)
      || clock.now >= begunAt + config.maxCycleS * 1000
    }

    /** A poll, and its commit if there is anything to commit. */
    method PollAndCommit(budget: Budget) returns (result: CycleResult, crashed: bool)
      requires Valid() && console.Live()
      modifies this, console, clock, budget`pages, sink
      ensures Valid() && Later(old(Past()), Past(), config.AsTerms())
      ensures Cycles(console.trace) == Cycles(old(console.trace))
      ensures old(watermark).Some? ==> watermark.Some? && old(watermark).value <= watermark.value
      ensures counters.pagesRead - old(counters.pagesRead) == old(budget.pages) - budget.pages <= Max(0, old(budget.pages))
      ensures Ended(result, crashed, old(Past()), Past(), Over(budget), config.cap)
      ensures !crashed && result in {Done, NoRows} ==> watermark.Some? && old(clock.now) - config.settleS * 1000 <= watermark.value
      ensures !crashed && watermark.Some? && (result in {Done, NoRows, Backlog} || sink.troubles == old(sink.troubles)) ==>
                pending == [] && (watermark != old(watermark) ==> IsCheckpoint(sink.records, watermark.value, result))
    {
      hide Accounted, Recalled, Truthful, Kept, Cycles, LoginsSince, Later, IsCheckpoint, Ended, Console.Valid, Console.Live, HasCheckpoint;
      ghost var start := Past();
      var before := watermark;
      result, crashed := Poll(budget);
      ghost var polled, over := Past(), Over(budget);
      if !crashed && watermark.Some? && (watermark != before || pending != []) {
        ghost var said := result;
        LaterTroubles(start, polled, config.AsTerms());
        result, crashed := Conclude(result);
        LaterTrans(start, polled, Past(), config.AsTerms());
        EndedUntil(said, result, crashed, start, polled, Past(), over, Over(budget), config.cap);
      }
    }

    /** A poll's result stands only if its checkpoint was persisted. */
    method Conclude(polled: CycleResult) returns (result: CycleResult, crashed: bool)
      requires Valid() && watermark.Some?
      modifies this`pending, sink`records, sink`strays, sink`troubles, sink`origin, clock
      ensures Valid() && Later(old(Past()), Past(), config.AsTerms()) && clock.now >= old(clock.now)
      ensures if sink.troubles == old(sink.troubles)
              then !crashed && result == polled && pending == [] && IsCheckpoint(sink.records, watermark.value, polled)
              else sink.troubles > old(sink.troubles)
                   && (crashed || result == if polled in {Done, NoRows, Backlog} then CycleResult.IngestFailed else polled)
    {
      hide Accounted, Recalled, Truthful, Kept, Later;
      var outcome, _, _ := Persist(polled);
      result, crashed := polled, false;
      match outcome {
        case Accepted =>
        case Died => crashed := true;
        case Rejected =>
          if result in {Done, NoRows, Backlog} {
            result := CycleResult.IngestFailed;
          }
      }
    }
  }

  lemma ReadTold(fault: Fault, a: Log, b: Log, start: int, end: int, docs: seq<Document>, over: bool, cap: nat)
    requires HasRead(a, b, start, end, docs)
    requires if fault.BadShape? then Chained(docs) && !GoodSoFar(docs, start, end, cap)
             else Blamed(fault, b.trace, a.now, a.unreadable, b.unreadable)
    ensures Told(NoRows, Some(fault), a, b, over, cap)
  {
    ReadFaulted(fault, a, b, start, end, docs, cap);
  }

  /** Why a window that was read did not let the loop go on. */
  lemma StepTold(step: StepResult, window: Window, a: Log, b: Log, c: Log, start: int, end: int, docs: seq<Document>, over: bool, cap: nat)
    requires HasRead(a, b, start, end, docs) && b.served == c.served && Chained(docs) && AllShown(docs, window.rows)
    requires step.Abort? ==> StoreFails(Some(step.fault), window.rows, b.troubles, c.troubles)
    requires step.Return? ==> window.problem.Some? && step.result == if window.problem == Some(CycleBudget) then Backlog else Incomplete
    requires window.problem == Some(CycleBudget) ==> over
    requires window.problem.Some? && window.problem != Some(CycleBudget) ==> !GoodSoFar(docs, start, end, cap)
    ensures !step.Go? ==> Told(step.Result(), step.Fault(), a, c, over, cap)
  {
    if step.Abort? {
      StoreFaulted(step.fault, a, b, c, start, end, docs, window.rows, cap);
    } else if step == Return(Incomplete) {
      ReadContradicts(a, b, c, start, end, docs, cap);
    }
  }

  lemma NoReadsYet(l: Log)
    ensures !SomeRows(l.history, |l.history|)
  {
  }

  lemma RowsSoFar(before: seq<WindowRead>, after: seq<WindowRead>, n: nat)
    requires n <= |before| && before <= after && |after| <= |before| + 1
    ensures SomeRows(after, n) <==> SomeRows(before, n) || (after != before && HasRows(after[|before|].docs))
  {
    if after != before {
      SomeRowsNext(before, n, after[|before|]);
      assert after == before + [after[|before|]];
    }
  }

  lemma RowsTold(rows: bool, a: Log, b: Log, over: bool, cap: nat)
    requires rows <==> SomeRows(b.history, |a.history|)
    ensures Told(if rows then Done else NoRows, None, a, b, over, cap)
  {
  }

  lemma NotRestored(a: Log, b: Log, over: bool, cap: nat)
    requires a.troubles < b.troubles
    ensures Ended(StateUnavailable, false, a, b, over, cap)
  {
  }

  lemma SendingAll(rows: seq<Row>, known: map<FlowId, int>, posts: seq<seq<Row>>, batch: seq<Row>)
    requires Rendered(batch) && Sending(rows, |rows|, known, posts, batch, Bytes(batch))
    ensures rows[..|rows|] == rows && Flatten(posts) + batch == Unseen(rows, known)
  {
    assert rows[..|rows|] == rows;
  }

  lemma RowsOfCapped(window: Window, start: int, end: int, docs: seq<Document>, cap: nat)
    requires ReadToTheEnd(docs, window, start, end, cap, true)
    ensures window.capped ==> window.rows != []
  {
  }

  lemma NotStored(fault: Option<Fault>, rows: seq<Row>, k: nat, before: nat, after: nat)
    requires fault.Some? ==> fault.value in {Failed(CycleResult.IngestFailed), BadShape, Crashed}
    requires fault == Some(BadShape) ==> k < |rows| && rows[k].line.None?
    requires after == before + if fault.None? || fault.value.BadShape? then 0 else 1
    ensures StoreFails(fault, rows, before, after)
  {
  }

  lemma ServedFirst(a: Log, b: Log, start: int, end: int, docs: seq<Document>)
    requires HasRead(a, b, start, end, docs)
    ensures |b.served| == |a.served| + |docs| && (docs != [] ==> b.served[|a.served|].document == docs[0])
  {
  }

  /** Completed windows that follow each other without a hole, each read from an overlap earlier. */
  ghost predicate Tiles(history: seq<WindowRead>, from: int, to: int, overlap: nat) {
    if history == [] then from == to else
      var last := history[|history| - 1];
      && last.hi == to && last.lo < last.hi && last.start == Max(last.lo - overlap, 0)
      && Tiles(history[..|history| - 1], from, last.lo, overlap)
  }

  /** The watermark moved from `from` to `to`, not past `limit` unless it was there already, over
      windows that tile the time between. */
  ghost predicate Walked(before: seq<WindowRead>, after: seq<WindowRead>, from: int, to: int, limit: int, overlap: nat) {
    before <= after && from <= to <= Max(from, limit) && Tiles(after[|before|..], from, to, overlap)
  }

  lemma WalkedNowhere(history: seq<WindowRead>, at: int, limit: int, overlap: nat)
    ensures Walked(history, history, at, at, limit, overlap)
  {
    assert history[|history|..] == [];
  }

  lemma WalkedOn(start: seq<WindowRead>, before: seq<WindowRead>, after: seq<WindowRead>,
                 from: int, here: int, to: int, limit: int, overlap: nat)
    requires Walked(start, before, from, here, limit, overlap) && before <= after && |after| <= |before| + 1
    requires after == before ==> to == here
    requires after != before ==>
               var read := after[|before|];
               read.lo == here && read.hi == to && here < to <= limit && read.start == Max(here - overlap, 0)
    ensures Walked(start, after, from, to, limit, overlap)
  {
    if after != before {
      assert after[|start|..][..|after[|start|..]| - 1] == before[|start|..];
    }
  }

  /** What a poll moves: the log, the watermark, the pages left and the pages read, the gaps pending,
      and the number of cycles begun. */
  datatype Stand = Stand(past: Log, watermark: int, pages: int, pagesRead: int, pending: seq<Record>, cycles: nat)

  /** From one stand to a later one of the same poll. */
  ghost predicate Onward(a: Stand, b: Stand, limit: int, terms: Terms) {
    && Later(a.past, b.past, terms)
    && Walked(a.past.history, b.past.history, a.watermark, b.watermark, limit, terms.overlap)
    && b.pagesRead - a.pagesRead == a.pages - b.pages <= Max(0, a.pages)
    && a.pending <= b.pending && a.cycles == b.cycles
  }

  lemma OnwardMeans(a: Stand, b: Stand, limit: int, terms: Terms)
    requires Onward(a, b, limit, terms)
    ensures Later(a.past, b.past, terms)
    ensures Walked(a.past.history, b.past.history, a.watermark, b.watermark, limit, terms.overlap)
    ensures a.watermark <= b.watermark <= Max(a.watermark, limit)
    ensures b.pagesRead - a.pagesRead == a.pages - b.pages <= Max(0, a.pages)
    ensures a.pending <= b.pending && a.cycles == b.cycles
  {
  }

  lemma OnwardSelf(a: Stand, limit: int, terms: Terms)
    ensures Onward(a, a, limit, terms)
  {
    LaterSelf(a.past, terms);
    WalkedNowhere(a.past.history, a.watermark, limit, terms.overlap);
  }

  /** A window was read. */
  lemma OnwardRead(a: Stand, b: Stand, start: int, end: int, docs: seq<Document>, limit: int, terms: Terms)
    requires HasRead(a.past, b.past, start, end, docs) && b == a.(past := b.past, pages := b.pages, pagesRead := b.pagesRead)
    requires b.pagesRead - a.pagesRead == a.pages - b.pages <= Max(0, a.pages)
    ensures Onward(a, b, limit, terms)
  {
    ReadLater(a.past, b.past, start, end, docs, terms);
    OnwardOne(a, b, limit, terms);
  }

  /** Nothing was completed, or one window was. */
  lemma OnwardOne(a: Stand, b: Stand, limit: int, terms: Terms)
    requires Later(a.past, b.past, terms)
    requires b.pagesRead - a.pagesRead == a.pages - b.pages <= Max(0, a.pages)
    requires a.pending <= b.pending && a.cycles == b.cycles
    requires |b.past.history| <= |a.past.history| + 1
    requires b.past.history == a.past.history ==> b.watermark == a.watermark
    requires b.past.history != a.past.history ==>
               var read := b.past.history[|a.past.history|];
               && read.lo == a.watermark && read.hi == b.watermark && a.watermark < b.watermark <= limit
               && read.start == Max(a.watermark - terms.overlap, 0)
    ensures Onward(a, b, limit, terms)
  {
    WalkedNowhere(a.past.history, a.watermark, limit, terms.overlap);
    WalkedOn(a.past.history, a.past.history, b.past.history, a.watermark, a.watermark, b.watermark, limit, terms.overlap);
  }

  lemma OnwardTrans(a: Stand, b: Stand, c: Stand, limit: int, terms: Terms)
    requires Onward(a, b, limit, terms) && Onward(b, c, limit, terms)
    ensures Onward(a, c, limit, terms)
  {
    hide Later, Tiles;
    LaterTrans(a.past, b.past, c.past, terms);
    WalkedTrans(a.past.history, b.past.history, c.past.history, a.watermark, b.watermark, c.watermark, limit, terms.overlap);
  }

  lemma WalkedTrans(a: seq<WindowRead>, b: seq<WindowRead>, c: seq<WindowRead>, from: int, here: int, to: int, limit: int, overlap: nat)
    requires Walked(a, b, from, here, limit, overlap) && Walked(b, c, here, to, limit, overlap)
    ensures Walked(a, c, from, to, limit, overlap)
  {
    TilesAppend(b[|a|..], c[|b|..], from, here, to, overlap);
    assert c[|a|..] == b[|a|..] + c[|b|..];
  }

  lemma {:induction false} TilesAppend(a: seq<WindowRead>, b: seq<WindowRead>, from: int, here: int, to: int, overlap: nat)
    requires Tiles(a, from, here, overlap) && Tiles(b, here, to, overlap)
    ensures Tiles(a + b, from, to, overlap)
  {
    if b == [] {
      assert a + b == a;
    } else {
      TilesAppend(a, b[..|b| - 1], from, here, b[|b| - 1].lo, overlap);
      assert (a + b)[..|a + b| - 1] == a + b[..|b| - 1];
    }
  }

  datatype StepResult = Go(rows: nat) | Return(result: CycleResult) | Abort(fault: Fault)
  {
    /** What the loop returns or raises when it does not go on. */
    function Result(): CycleResult { if Return? then result else NoRows }
    function Fault(): Option<Fault> { if Abort? then Some(fault) else None }
  }

  /** What the store holds between two processes: every checkpoint is backed, every completed read
      is stored whole, and every gap is for time beyond the catch-up limit or behind the cap. */
  ghost predicate Sound(sink: Sink, clock: Clock, config: Config)
    reads sink, clock
  {
    && Safe(sink.records, sink.history, config.cap, sink.origin)
    && Truthful(sink.records, [], sink.history, config.cap, sink.horizon)
    && sink.horizon + config.settleS * 1000 + config.catchupS * 1000 <= clock.now
  }

  ghost function StoreNow(sink: Sink, clock: Clock): Store
    reads sink, clock
  {
    Store(sink.records, sink.history, sink.origin, sink.strays, clock.now, sink.troubles)
  }

  /** One process: it polls any number of times and dies whenever a write may kill it. */
  method Life(config: Config, sink: Sink, clock: Clock, polls: nat) returns (ghost log: Log)
    requires config.Sane() && Sound(sink, clock, config)
    modifies sink, clock
    ensures Sound(sink, clock, config)
    ensures old(sink.records) <= sink.records && old(sink.history) <= sink.history
    ensures Lived(old(StoreNow(sink, clock)), log,
                  Terms(config.pollS, config.overlapS * 1000, config.lookbackS * 1000, config.settleS * 1000))
    ensures Left(log) == StoreNow(sink, clock)
  {
    hide Safe, Kept;
    var console := new Console(config.pollS, clock);
    var collector := new Collector(config, console, sink, clock);
    ghost var found := old(StoreNow(sink, clock));
    assert collector.Past() == Born(found);
    LaterSelf(Born(found), config.AsTerms());
    assert sink.records + [] == sink.records && FlowLines(sink.records) + Lines([]) == FlowLines(sink.records);
    hide Later, Accounted, Recalled, Truthful;
    for poll := 0 to polls
      invariant collector.Valid() && collector.config == config && collector.sink == sink && collector.clock == clock
      invariant fresh(collector) && fresh(collector.console) && !collector.dead
      invariant Later(Born(found), collector.Past(), config.AsTerms())
    {
      ghost var before := collector.Past();
      var _, crashed := collector.Cycle();
      LaterTrans(Born(found), before, collector.Past(), config.AsTerms());
      if crashed {
        break;
      }
    }
    log := collector.Past();
    EndOfLife(found, log, collector.watermark, collector.seen, collector.resumedAt, config.AsTerms());
    SafeIn(sink.records, sink.history, sink.origin, config.cap, collector.pending, collector.watermark, collector.origin);
    TruthGrows(sink.records, [], collector.pending, [], sink.history, config.cap, sink.horizon);
    assert sink.records + [] == sink.records;
    OnlyGrows(found, log, config.AsTerms());
  }

  /** Any number of processes, one after the other: the store only grows and stays sound, and each
      life sends exactly once and replays only the overlap before what it resumed from. */
  method Run(config: Config, sink: Sink, clock: Clock, lives: seq<nat>) returns (ghost logs: seq<Log>)
    requires config.Sane() && Sound(sink, clock, config)
    modifies sink, clock
    ensures Sound(sink, clock, config)
    ensures old(sink.records) <= sink.records && old(sink.history) <= sink.history
    ensures |logs| == |lives|
    ensures Lives(old(StoreNow(sink, clock)), logs,
                  Terms(config.pollS, config.overlapS * 1000, config.lookbackS * 1000, config.settleS * 1000))
    ensures Finds(old(StoreNow(sink, clock)), logs, |logs|) == StoreNow(sink, clock)
  {
    hide Lived, Lives, Safe, Truthful;
    NoLives(StoreNow(sink, clock), config.AsTerms());
    logs := [];
    ghost var found := StoreNow(sink, clock);
    for life := 0 to |lives|
      invariant Sound(sink, clock, config) && |logs| == life
      invariant old(sink.records) <= sink.records && old(sink.history) <= sink.history
      invariant Lives(found, logs, config.AsTerms())
      invariant StoreNow(sink, clock) == Finds(found, logs, |logs|)
    {
      ghost var log := Life(config, sink, clock, lives[life]);
      LivesStep(found, logs, log, config.AsTerms());
      logs := logs + [log];
    }
  }
}
