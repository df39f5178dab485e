/** Which rows of a window are sent, in which requests, and why none is sent twice. */
module Resending {
  import opened Wrappers
  import opened WindowReading
  import opened Delivery

  const MAX_BATCH_BYTES := 1024 * 1024

  /** The rows of a window whose identity has not been accepted yet, in the window's order. */
  function Unseen(rows: seq<Row>, seen: map<FlowId, int>): seq<Row> {
    if rows == [] then [] else
      var last := rows[|rows| - 1];
      Unseen(rows[..|rows| - 1], seen) + (if last.id in seen then [] else [last])
  }

  predicate Rendered(rows: seq<Row>) { forall i | 0 <= i < |rows| :: rows[i].line.Some? }

  function Lines(rows: seq<Row>): (lines: seq<Record>)
    requires Rendered(rows)
    ensures |lines| == |rows|
    ensures forall i | 0 <= i < |rows| :: lines[i] == FlowLine(rows[i].id, rows[i].time, rows[i].line.value)
  {
    seq(|rows|, i requires 0 <= i < |rows| => FlowLine(rows[i].id, rows[i].time, rows[i].line.value))
  }

  /** The size of a request body: every line and its newline. */
  function Bytes(rows: seq<Row>): nat
    requires Rendered(rows)
  {
    if rows == [] then 0 else Bytes(rows[..|rows| - 1]) + rows[|rows| - 1].line.value + 1
  }

  predicate Postable(batch: seq<Row>) {
    Rendered(batch) && batch != [] && (|batch| == 1 || Bytes(batch) <= MAX_BATCH_BYTES + 1)
  }

  function Flatten(batches: seq<seq<Row>>): seq<Row> {
    if batches == [] then [] else Flatten(batches[..|batches| - 1]) + batches[|batches| - 1]
  }

  lemma FlattenStep(batches: seq<seq<Row>>, batch: seq<Row>)
    ensures Flatten(batches + [batch]) == Flatten(batches) + batch
  {
    assert (batches + [batch])[..|batches|] == batches;
  }

  lemma UnseenStep(rows: seq<Row>, k: nat, seen: map<FlowId, int>)
    requires k < |rows|
    ensures Unseen(rows[..k + 1], seen) == Unseen(rows[..k], seen) + (if rows[k].id in seen then [] else [rows[k]])
  {
    assert rows[..k + 1][..k] == rows[..k];
  }

  lemma BytesStep(rows: seq<Row>, row: Row)
    requires Rendered(rows) && row.line.Some?
    ensures Bytes(rows + [row]) == Bytes(rows) + row.line.value + 1
  {
    assert (rows + [row])[..|rows|] == rows;
  }

  /** `seen` extended by accepted rows. */
  function Remember(seen: map<FlowId, int>, rows: seq<Row>): map<FlowId, int> {
    if rows == [] then seen
    else Remember(seen, rows[..|rows| - 1])[rows[|rows| - 1].id := rows[|rows| - 1].time]
  }

  lemma {:induction false} RememberAppend(seen: map<FlowId, int>, a: seq<Row>, b: seq<Row>)
    ensures Remember(seen, a + b) == Remember(Remember(seen, a), b)
  {
    if b == [] {
      assert a + b == a;
    } else {
      RememberAppend(seen, a, b[..|b| - 1]);
      assert (a + b)[..|a + b| - 1] == a + b[..|b| - 1];
    }
  }

  lemma {:induction false} RememberKeys(seen: map<FlowId, int>, rows: seq<Row>)
    ensures Remember(seen, rows).Keys == seen.Keys + Ids(rows)
  {
    if rows != [] {
      var init, last := rows[..|rows| - 1], rows[|rows| - 1];
      RememberKeys(seen, init);
      assert rows == init + [last];
      IdsSplit(init, last);
    }
  }

  /** The unseen rows of a window are a sub-list of it: distinct, unseen and every unseen one. */
  lemma {:induction false} UnseenIsSelection(rows: seq<Row>, seen: map<FlowId, int>)
    requires Distinct(rows)
    ensures Distinct(Unseen(rows, seen)) && |Unseen(rows, seen)| <= |rows|
    ensures forall i | 0 <= i < |Unseen(rows, seen)| ::
              Unseen(rows, seen)[i] in rows && Unseen(rows, seen)[i].id !in seen
    ensures forall i | 0 <= i < |rows| :: rows[i].id in seen || rows[i] in Unseen(rows, seen)
    ensures Ids(Unseen(rows, seen)) <= Ids(rows)
  {
    if rows != [] {
      var init, last := rows[..|rows| - 1], rows[|rows| - 1];
      assert rows == init + [last];
      DistinctSplit(init, last);
      UnseenIsSelection(init, seen);
      IdsSplit(init, last);
      if last.id !in seen {
        DistinctSplit(Unseen(init, seen), last);
        IdsSplit(Unseen(init, seen), last);
      }
    }
  }

  lemma {:induction false} UnseenPrefix(rows: seq<Row>, k: nat, seen: map<FlowId, int>)
    requires k <= |rows|
    ensures Unseen(rows[..k], seen) <= Unseen(rows, seen)
  {
    if k == |rows| {
      assert rows[..k] == rows;
    } else {
      UnseenPrefix(rows[..|rows| - 1], k, seen);
      assert rows[..|rows| - 1][..k] == rows[..k];
    }
  }

  /** Among distinct rows, accepting earlier ones does not change whether a later one is seen. */
  lemma AcceptingEarlier(rows: seq<Row>, k: nat, seen: map<FlowId, int>, accepted: seq<Row>)
    requires Distinct(rows) && k < |rows| && accepted <= Unseen(rows[..k], seen)
    ensures rows[k].id in Remember(seen, accepted) <==> rows[k].id in seen
  {
    var before := rows[..k];
    forall i, j | 0 <= i < j < k ensures before[i].id != before[j].id {
      assert rows[i].id != rows[j].id;
    }
    UnseenIsSelection(before, seen);
    RememberKeys(seen, accepted);
    forall id | id in Ids(accepted) ensures id in Ids(Unseen(before, seen)) {
      var i :| 0 <= i < |accepted| && accepted[i].id == id;
      assert Unseen(before, seen)[i].id == id;
    }
    assert rows[k].id !in Ids(before);
  }

  lemma LinesAppend(a: seq<Row>, b: seq<Row>)
    requires Rendered(a) && Rendered(b)
    ensures Rendered(a + b) && Lines(a + b) == Lines(a) + Lines(b)
  {
  }

  /** Where sending a window stands after its first `k` rows: `posts` have been accepted, `batch`
      of `size` bytes is being filled. */
  ghost predicate Sending(rows: seq<Row>, k: nat, known: map<FlowId, int>, posts: seq<seq<Row>>, batch: seq<Row>, size: nat) {
    && k <= |rows|
    && (forall i | 0 <= i < |posts| :: Postable(posts[i])) && Rendered(Flatten(posts))
    && Rendered(batch) && size == Bytes(batch) && (batch != [] ==> Postable(batch))
    && Flatten(posts) + batch == Unseen(rows[..k], known)
  }

  lemma SendingStart(rows: seq<Row>, known: map<FlowId, int>)
    ensures Sending(rows, 0, known, [], [], 0)
    ensures Unseen(rows[..0], known) == [] && Flatten([]) == [] && Remember(known, []) == known
  {
  }

  lemma SendingFacts(rows: seq<Row>, k: nat, known: map<FlowId, int>, posts: seq<seq<Row>>, batch: seq<Row>, size: nat)
    requires Sending(rows, k, known, posts, batch, size)
    ensures Rendered(batch) && size == Bytes(batch) && Rendered(Flatten(posts))
    ensures batch != [] ==> Postable(batch)
  {
  }

  lemma SendingFlushed(rows: seq<Row>, k: nat, known: map<FlowId, int>, posts: seq<seq<Row>>, batch: seq<Row>, size: nat,
                       before: seq<Record>)
    requires Sending(rows, k, known, posts, batch, size) && batch != []
    ensures Sending(rows, k, known, posts + [batch], [], 0)
    ensures Flatten(posts + [batch]) == Flatten(posts) + batch
    ensures before + Lines(Flatten(posts + [batch])) == before + Lines(Flatten(posts)) + Lines(batch)
  {
    FlattenStep(posts, batch);
    LinesAppend(Flatten(posts), batch);
  }

  lemma SendingRow(rows: seq<Row>, k: nat, known: map<FlowId, int>, posts: seq<seq<Row>>, batch: seq<Row>, size: nat)
    requires Sending(rows, k, known, posts, batch, size) && k < |rows|
    ensures rows[k].id in known ==> Sending(rows, k + 1, known, posts, batch, size)
    ensures rows[k].id !in known && rows[k].line.Some?
              && (batch == [] || size + rows[k].line.value <= MAX_BATCH_BYTES) ==>
              Sending(rows, k + 1, known, posts, batch + [rows[k]], size + rows[k].line.value + 1)
    ensures |Unseen(rows[..k + 1], known)| == |Unseen(rows[..k], known)| + (if rows[k].id in known then 0 else 1)
  {
    UnseenStep(rows, k, known);
    if rows[k].line.Some? {
      BytesStep(batch, rows[k]);
    }
  }

  /** What sending a window has done, whether it finished or not: the batches `posts` were accepted
      and `lost` is what an unacknowledged one persisted. Together they are the beginning of the
      unseen rows, in order; only accepted rows are remembered and counted as sent. */
  ghost predicate Shipped(rows: seq<Row>, known: map<FlowId, int>, posts: seq<seq<Row>>, lost: seq<Row>,
                          before: seq<Record>, after: seq<Record>, seen: map<FlowId, int>)
  {
    && (forall i | 0 <= i < |posts| :: Postable(posts[i]))
    && Flatten(posts) + lost <= Unseen(rows, known)
    && Rendered(Flatten(posts)) && Rendered(lost)
    && after == before + Lines(Flatten(posts)) + Lines(lost)
    && seen == Remember(known, Flatten(posts))
  }

  lemma ShippedSoFar(rows: seq<Row>, k: nat, known: map<FlowId, int>, posts: seq<seq<Row>>, batch: seq<Row>, lost: seq<Row>,
                     before: seq<Record>)
    requires Rendered(batch) && Sending(rows, k, known, posts, batch, Bytes(batch)) && lost <= batch
    ensures Shipped(rows, known, posts, lost, before, before + Lines(Flatten(posts)) + Lines(lost),
                    Remember(known, Flatten(posts)))
    ensures lost == [] ==> before + Lines(Flatten(posts)) + Lines(lost) == before + Lines(Flatten(posts))
  {
    UnseenPrefix(rows, k, known);
    assert Flatten(posts) + lost <= Flatten(posts) + batch;
  }

  // ---------------------------------------------------------------- sent once

  /** No identity is sent twice with the same time. */
  ghost predicate SentOnce(sent: seq<Row>) {
    forall i, j | 0 <= i < j < |sent| && sent[i].id == sent[j].id :: sent[i].time != sent[j].time
  }

  /** A row sent is still remembered, unless it is older than every window still to be read. */
  ghost predicate Remembered(sent: seq<Row>, seen: map<FlowId, int>, floor: int) {
    forall i | 0 <= i < |sent| ::
      sent[i].time < floor || (sent[i].id in seen && seen[sent[i].id] == sent[i].time)
  }

  /** Sending distinct unseen rows of a window at or after the floor sends nothing again. */
  lemma {:induction false} SendingKeeps(sent: seq<Row>, seen: map<FlowId, int>, floor: int, rows: seq<Row>)
    requires SentOnce(sent) && Remembered(sent, seen, floor)
    requires Distinct(rows) && forall i | 0 <= i < |rows| :: rows[i].id !in seen && floor <= rows[i].time
    ensures SentOnce(sent + rows) && Remembered(sent + rows, Remember(seen, rows), floor)
  {
    if rows == [] {
      assert sent + rows == sent;
    } else {
      var init, last := rows[..|rows| - 1], rows[|rows| - 1];
      assert rows == init + [last];
      DistinctSplit(init, last);
      SendingKeeps(sent, seen, floor, init);
      RememberKeys(seen, init);
      assert sent + rows == (sent + init) + [last];
      assert last.id !in Remember(seen, init);
    }
  }

  function Prune(seen: map<FlowId, int>, from: int): map<FlowId, int> {
    map id | id in seen && seen[id] >= from :: seen[id]
  }

  /** Each identity carries one time. */
  ghost predicate OneTime(rows: seq<Row>) {
    forall i, j | 0 <= i < j < |rows| && rows[i].id == rows[j].id :: rows[i].time == rows[j].time
  }

  /** If every identity carries one time, it is sent once. */
  lemma OneTimeSentOnce(sent: seq<Row>)
    requires SentOnce(sent) && OneTime(sent)
    ensures Distinct(sent)
  {
  }

  // ---------------------------------------------------------------- the store and the memory

  ghost predicate SeenHeld(records: seq<Record>, seen: map<FlowId, int>) {
    forall id | id in seen :: Holds(records, id)
  }

  /** What the process remembers of what it sent. `floor` is the earliest time a later window can
      start at, `reach` the earliest any window of this process started at. */
  ghost predicate Memory(records: seq<Record>, sent: seq<Row>, seen: map<FlowId, int>, floor: int, reach: int) {
    && SentOnce(sent) && Remembered(sent, seen, floor) && SeenHeld(records, seen)
    && reach <= floor && forall i | 0 <= i < |sent| :: reach <= sent[i].time
  }

  /** The stored flow rows, in order. */
  function FlowLines(records: seq<Record>): seq<Record> {
    if records == [] then [] else
      FlowLines(records[..|records| - 1])
      + (if records[|records| - 1].FlowLine? then [records[|records| - 1]] else [])
  }

  lemma {:induction false} FlowLinesAppend(a: seq<Record>, b: seq<Record>)
    ensures FlowLines(a + b) == FlowLines(a) + FlowLines(b)
  {
    if b == [] {
      assert a + b == a;
    } else {
      FlowLinesAppend(a, b[..|b| - 1]);
      assert (a + b)[..|a + b| - 1] == a + b[..|b| - 1];
    }
  }

  lemma {:induction false} FlowLinesOfLines(rows: seq<Row>)
    requires Rendered(rows)
    ensures FlowLines(Lines(rows)) == Lines(rows)
  {
    if rows != [] {
      FlowLinesOfLines(rows[..|rows| - 1]);
      assert Lines(rows)[..|rows| - 1] == Lines(rows[..|rows| - 1]);
    }
  }

  /** Until some unacknowledged write persists something, the flow rows this process stored are
      exactly those it was told were accepted. */
  ghost predicate Faithful(records: seq<Record>, earlier: seq<Record>, sent: seq<Row>, definite: bool) {
    Rendered(sent) && (definite ==> FlowLines(records) == earlier + Lines(sent))
  }

  lemma HeldLines(records: seq<Record>, rows: seq<Row>, more: seq<Record>)
    requires Rendered(rows)
    ensures AllHeld(records + Lines(rows) + more, rows)
  {
    var after := records + Lines(rows) + more;
    forall i | 0 <= i < |rows| ensures Holds(after, rows[i].id) {
      assert after[|records| + i] == Lines(rows)[i];
    }
  }

  /** Sending, finished or not, leaves the store safe and the account of time as it was. */
  lemma ShippedKeepsSafe(before: seq<Record>, accepted: seq<Row>, lost: seq<Row>, pending: seq<Record>,
                         history: seq<WindowRead>, cap: nat, origin: int, from: int, to: int)
    requires Rendered(accepted) && Rendered(lost)
    requires Safe(before, history, cap, origin) && Covered(before + pending, history, cap, from, to)
    ensures var after := before + Lines(accepted) + Lines(lost);
            && Safe(after, history, cap, origin) && Covered(after + pending, history, cap, from, to)
            && (HasCheckpoint(after) <==> HasCheckpoint(before)) && Subsumes(before, after)
  {
    var lines := Lines(accepted) + Lines(lost);
    var after := before + lines;
    assert after == before + Lines(accepted) + Lines(lost);
    PrefixKeepsSafe(before, lines, |lines|, history, cap, origin);
    assert lines[..|lines|] == lines;
    SubsumesConcat(before, lines, pending);
    CoveredMonotone(before + pending, after + pending, history, history, cap, from, to);
    if HasCheckpoint(before) {
      var i :| 0 <= i < |before| && before[i].Checkpoint?;
      assert after[i].Checkpoint?;
    }
    if HasCheckpoint(after) {
      var i :| 0 <= i < |after| && after[i].Checkpoint?;
      assert i < |before| && before[i].Checkpoint?;
    }
  }

  /** The accepted rows of a window are distinct, were unseen and lie in the window. */
  lemma AcceptedFresh(rows: seq<Row>, known: map<FlowId, int>, accepted: seq<Row>, floor: int)
    requires Distinct(rows) && forall i | 0 <= i < |rows| :: floor <= rows[i].time
    requires accepted <= Unseen(rows, known)
    ensures Distinct(accepted)
    ensures forall i | 0 <= i < |accepted| :: accepted[i].id !in known && floor <= accepted[i].time
  {
    UnseenIsSelection(rows, known);
    var all := Unseen(rows, known);
    hide Unseen;
    assert all == accepted + all[|accepted|..];
    DistinctPrefix(accepted, all[|accepted|..]);
    forall i | 0 <= i < |accepted| ensures accepted[i].id !in known && floor <= accepted[i].time {
      assert accepted[i] == all[i];
    }
  }

  lemma IdHeldAfter(before: seq<Record>, accepted: seq<Row>, more: seq<Record>, id: FlowId)
    requires Rendered(accepted) && (Holds(before, id) || id in Ids(accepted))
    ensures Holds(before + Lines(accepted) + more, id)
  {
    var after := before + Lines(accepted) + more;
    if Holds(before, id) {
      var i :| 0 <= i < |before| && before[i].FlowLine? && before[i].id == id;
      assert after[i] == before[i];
    } else {
      HeldLines(before, accepted, more);
      var i :| 0 <= i < |accepted| && accepted[i].id == id;
    }
  }

  lemma SeenHeldAfter(before: seq<Record>, accepted: seq<Row>, more: seq<Record>, known: map<FlowId, int>)
    requires SeenHeld(before, known) && Rendered(accepted)
    ensures SeenHeld(before + Lines(accepted) + more, Remember(known, accepted))
  {
    RememberKeys(known, accepted);
    hide Remember, Holds, Ids, Rendered;
    forall id | id in Remember(known, accepted) ensures Holds(before + Lines(accepted) + more, id) {
      IdHeldAfter(before, accepted, more, id);
    }
  }

  /** Sending, finished or not, keeps the memory of what was sent. */
  lemma ShippedKeepsMemory(rows: seq<Row>, known: map<FlowId, int>, posts: seq<seq<Row>>, lost: seq<Row>,
                           before: seq<Record>, after: seq<Record>, seen: map<FlowId, int>,
                           sent: seq<Row>, floor: int, reach: int)
    requires Memory(before, sent, known, floor, reach)
    requires Distinct(rows) && forall i | 0 <= i < |rows| :: floor <= rows[i].time
    requires Shipped(rows, known, posts, lost, before, after, seen)
    ensures Memory(after, sent + Flatten(posts), seen, floor, reach)
  {
    var accepted := Flatten(posts);
    hide Unseen, Flatten, Remember, SentOnce, Remembered, SeenHeld;
    assert accepted <= Unseen(rows, known);
    AcceptedFresh(rows, known, accepted, floor);
    SendingKeeps(sent, known, floor, accepted);
    SeenHeldAfter(before, accepted, Lines(lost), known);
  }

  lemma ShippedKeepsFaithful(before: seq<Record>, accepted: seq<Row>, lost: seq<Row>, earlier: seq<Record>,
                             sent: seq<Row>, definite: bool)
    requires Faithful(before, earlier, sent, definite) && Rendered(accepted) && Rendered(lost)
    ensures Faithful(before + Lines(accepted) + Lines(lost), earlier, sent + accepted, definite && lost == [])
  {
    hide FlowLines;
    LinesAppend(sent, accepted);
    if definite && lost == [] {
      assert before + Lines(accepted) + Lines(lost) == before + Lines(accepted);
      FlowLinesAppend(before, Lines(accepted));
      FlowLinesOfLines(accepted);
      assert earlier + Lines(sent) + Lines(accepted) == earlier + (Lines(sent) + Lines(accepted));
    }
  }

  /** A window sent to the end is held whole. */
  lemma ShippedAll(rows: seq<Row>, known: map<FlowId, int>, posts: seq<seq<Row>>,
                   before: seq<Record>, after: seq<Record>, seen: map<FlowId, int>)
    requires Distinct(rows) && SeenHeld(before, known)
    requires Shipped(rows, known, posts, [], before, after, seen) && Flatten(posts) == Unseen(rows, known)
    ensures AllHeld(after, rows)
  {
    var accepted := Flatten(posts);
    UnseenIsSelection(rows, known);
    SeenHeldAfter(before, accepted, Lines([]), known);
    RememberKeys(known, accepted);
    hide Unseen, Flatten, Remember, Distinct;
    forall i | 0 <= i < |rows| ensures Holds(after, rows[i].id) {
      if rows[i].id !in known {
        var j :| 0 <= j < |accepted| && accepted[j] == rows[i];
        assert rows[i].id in Ids(accepted);
      }
      assert rows[i].id in Remember(known, accepted);
    }
  }

  lemma ShippedRecords(rows: seq<Row>, known: map<FlowId, int>, posts: seq<seq<Row>>, lost: seq<Row>,
                       before: seq<Record>, after: seq<Record>, seen: map<FlowId, int>)
    requires Shipped(rows, known, posts, lost, before, after, seen)
    ensures Rendered(Flatten(posts)) && Rendered(lost)
    ensures after == before + Lines(Flatten(posts)) + Lines(lost)
  {
  }

  /** Forgetting what is older than the floor forgets nothing a later window can show. */
  lemma MemoryPruned(records: seq<Record>, sent: seq<Row>, seen: map<FlowId, int>, floor: int, reach: int, from: int)
    requires Memory(records, sent, seen, floor, reach) && from <= floor
    ensures Memory(records, sent, Prune(seen, from), floor, reach)
  {
  }

  lemma MemoryLater(records: seq<Record>, sent: seq<Row>, seen: map<FlowId, int>, floor: int, reach: int, later: int)
    requires Memory(records, sent, seen, floor, reach) && floor <= later
    ensures Memory(records, sent, seen, later, reach)
  {
  }

  /** Whatever was persisted is lines of rows of the window. */
  lemma ShippedFromRows(rows: seq<Row>, known: map<FlowId, int>, posts: seq<seq<Row>>, lost: seq<Row>,
                        before: seq<Record>, after: seq<Record>, seen: map<FlowId, int>)
    requires Distinct(rows) && Shipped(rows, known, posts, lost, before, after, seen)
    ensures before <= after
    ensures forall i | |before| <= i < |after| :: exists j | 0 <= j < |rows| ::
              rows[j].line.Some? && after[i] == FlowLine(rows[j].id, rows[j].time, rows[j].line.value)
  {
    UnseenIsSelection(rows, known);
    var sent := Flatten(posts) + lost;
    LinesAppend(Flatten(posts), lost);
    assert after == before + Lines(sent);
    forall i | |before| <= i < |after|
      ensures exists j | 0 <= j < |rows| ::
                rows[j].line.Some? && after[i] == FlowLine(rows[j].id, rows[j].time, rows[j].line.value)
    {
      var row := sent[i - |before|];
      assert row == Unseen(rows, known)[i - |before|];
      var j :| 0 <= j < |rows| && rows[j] == row;
    }
  }
}
