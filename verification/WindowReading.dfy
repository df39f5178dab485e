/** The pages a console may send for a fixed span of time.

    The adversary may answer a page request with any `Document`. `ReadsInFull` says when the
    pages received amount to a complete window; `Honest` says when they are what a console
    paging one fixed list, newest first and truncated at its query cap, would have sent. */
module WindowReading {
  import opened Arithmetic
  import opened Wrappers

  const PAGE_SIZE := 100

  type FlowId = string

  /** One Flow View row: its identity, its time in milliseconds and the length of the JSON line
      it renders to, or None when rendering it raises. */
  datatype Row = Row(id: FlowId, time: int, line: Option<nat>)

  /** An element of a page's `data`: not an object with an integer time, an object whose
      identity cannot be computed, or a row. */
  datatype Item = Junk | Unnamed(at: int) | Flow(row: Row)

  /** A decoded 200 reply: no list of data, wrongly typed pagination fields, or a page. */
  datatype Document =
    | Shapeless
    | Untyped
    | Page(data: seq<Item>, total: int, pages: int, number: int, hasNext: bool, orMore: bool)

  datatype Problem =
    | CycleBudget | UnexpectedShape | InvalidPagination | IgnoredPage | ChangingTotal
    | UnexpectedRow | WindowIgnored | RepeatedPage | EmptyPage | ShortCount

  /** The result of reading a window. */
  datatype Window = Window(rows: seq<Row>, problem: Option<Problem>, capped: bool, shifted: bool)

  // ---------------------------------------------------------------- rows and identities

  predicate AllFlows(data: seq<Item>) { forall i | 0 <= i < |data| :: data[i].Flow? }

  function RowsOf(data: seq<Item>): (rows: seq<Row>)
    requires AllFlows(data)
    ensures |rows| == |data|
    ensures forall i | 0 <= i < |data| :: rows[i] == data[i].row
  {
    seq(|data|, i requires 0 <= i < |data| => data[i].row)
  }

  predicate InWindow(rows: seq<Row>, start: int, end: int) {
    forall i | 0 <= i < |rows| :: start <= rows[i].time <= end
  }

  predicate Distinct(rows: seq<Row>) {
    forall i, j | 0 <= i < j < |rows| :: rows[i].id != rows[j].id
  }

  function Ids(rows: seq<Row>): set<FlowId> { set i | 0 <= i < |rows| :: rows[i].id }

  function IdList(rows: seq<Row>): (ids: seq<FlowId>)
    ensures |ids| == |rows|
    ensures forall i | 0 <= i < |rows| :: ids[i] == rows[i].id
  {
    seq(|rows|, i requires 0 <= i < |rows| => rows[i].id)
  }

  function IndexOf(rows: seq<Row>, id: FlowId): (k: nat)
    ensures k <= |rows|
    ensures k < |rows| ==> rows[k].id == id
    ensures k == |rows| ==> forall i | 0 <= i < |rows| :: rows[i].id != id
  {
    if rows == [] then 0 else if rows[0].id == id then 0 else 1 + IndexOf(rows[1..], id)
  }

  /** Insertion into a Python dict keyed by identity: a known key keeps its place. */
  function Put(rows: seq<Row>, row: Row): seq<Row> {
    var k := IndexOf(rows, row.id);
    if k < |rows| then rows[k := row] else rows + [row]
  }

  function PutAll(rows: seq<Row>, more: seq<Row>): seq<Row> {
    if more == [] then rows else Put(PutAll(rows, more[..|more| - 1]), more[|more| - 1])
  }

  lemma PutKeepsDistinct(rows: seq<Row>, row: Row)
    requires Distinct(rows)
    ensures Distinct(Put(rows, row))
    ensures Ids(Put(rows, row)) == Ids(rows) + {row.id}
    ensures |Put(rows, row)| == |rows| + (if row.id in Ids(rows) then 0 else 1)
  {
    var k := IndexOf(rows, row.id);
    var out := Put(rows, row);
    forall id | id in Ids(rows) + {row.id} ensures id in Ids(out) {
      if id == row.id {
        assert out[if k < |rows| then k else |rows|].id == id;
      } else {
        var i :| 0 <= i < |rows| && rows[i].id == id;
        assert out[i].id == id;
      }
    }
    forall id | id in Ids(out) ensures id in Ids(rows) + {row.id} {
      var i :| 0 <= i < |out| && out[i].id == id;
      assert i < |rows| ==> rows[i].id in Ids(rows);
    }
  }

  /** A dict filled from a list keeps every identity, has one entry for each, and is the list
      itself exactly when no identity repeats. */
  lemma {:induction false} PutAllKeepsDistinct(rows: seq<Row>, more: seq<Row>)
    requires Distinct(rows)
    ensures Distinct(PutAll(rows, more))
    ensures Ids(PutAll(rows, more)) == Ids(rows) + Ids(more)
    ensures |PutAll(rows, more)| <= |rows| + |more|
    ensures |PutAll(rows, more)| == |rows| + |more| <==> Distinct(rows + more)
    ensures Distinct(rows + more) ==> PutAll(rows, more) == rows + more
  {
    if more == [] {
      assert rows + more == rows;
    } else {
      var init, last := more[..|more| - 1], more[|more| - 1];
      PutAllKeepsDistinct(rows, init);
      PutKeepsDistinct(PutAll(rows, init), last);
      IdsSplit(init, last);
      assert more == init + [last];
      assert rows + more == (rows + init) + [last];
      DistinctSplit(rows + init, last);
      IdsAppend(rows, init);
    }
  }

  lemma IdsSplit(rows: seq<Row>, last: Row)
    ensures Ids(rows + [last]) == Ids(rows) + {last.id}
  {
    var all := rows + [last];
    assert all[|rows|] == last;
    forall id | id in Ids(rows) ensures id in Ids(all) {
      var i :| 0 <= i < |rows| && rows[i].id == id;
      assert all[i].id == id;
    }
  }

  lemma {:induction false} IdsAppend(a: seq<Row>, b: seq<Row>)
    ensures Ids(a + b) == Ids(a) + Ids(b)
  {
    if b == [] {
      assert a + b == a;
    } else {
      var init, last := b[..|b| - 1], b[|b| - 1];
      IdsAppend(a, init);
      IdsSplit(a + init, last);
      IdsSplit(init, last);
      assert a + b == (a + init) + [last];
      assert b == init + [last];
    }
  }

  lemma DistinctSplit(rows: seq<Row>, last: Row)
    ensures Distinct(rows + [last]) <==> Distinct(rows) && last.id !in Ids(rows)
  {
    var all := rows + [last];
    if Distinct(all) {
      forall i, j | 0 <= i < j < |rows| ensures rows[i].id != rows[j].id {
        assert all[i].id != all[j].id;
      }
      forall i | 0 <= i < |rows| ensures rows[i].id != last.id {
        assert all[i].id != all[|rows|].id;
      }
    }
    if Distinct(rows) && last.id !in Ids(rows) {
      forall i, j | 0 <= i < j < |all| ensures all[i].id != all[j].id {
        if j == |rows| { assert rows[i].id in Ids(rows); }
      }
    }
  }

  lemma DistinctPrefix(a: seq<Row>, b: seq<Row>)
    requires Distinct(a + b)
    ensures Distinct(a)
  {
    forall i, j | 0 <= i < j < |a| ensures a[i].id != a[j].id {
      assert (a + b)[i].id != (a + b)[j].id;
    }
  }

  // ---------------------------------------------------------------- a window's pages

  function PageCount(total: int): int { (total + PAGE_SIZE - 1) / PAGE_SIZE }

  /** Page `i` of a window of `total` rows carries exactly the pagination fields and the number
      of rows that arithmetic gives. */
  predicate PageFits(doc: Document, i: nat, total: int, cap: int) {
    && doc.Page? && doc.number == i && doc.total == total && 0 <= total && 0 <= doc.pages
    && (total == 0 ==> doc.data == [] && i == 0 && doc.pages <= 1 && !doc.hasNext && !doc.orMore)
    && (total > 0 ==> && doc.pages == PageCount(total) && i < doc.pages
                      && doc.hasNext == (i + 1 < doc.pages)
                      && |doc.data| == Min(PAGE_SIZE, total - i * PAGE_SIZE))
    && (doc.orMore ==> cap <= total)
  }

  predicate RowsFit(doc: Document, start: int, end: int) {
    doc.Page? && AllFlows(doc.data) && InWindow(RowsOf(doc.data), start, end)
  }

  ghost predicate Fits(docs: seq<Document>, start: int, end: int, cap: int) {
    forall i | 0 <= i < |docs| ::
      docs[0].Page? && PageFits(docs[i], i, docs[0].total, cap) && RowsFit(docs[i], start, end)
  }

  function AllRows(docs: seq<Document>): seq<Row>
    requires forall i | 0 <= i < |docs| :: docs[i].Page? && AllFlows(docs[i].data)
  {
    if docs == [] then [] else AllRows(docs[..|docs| - 1]) + RowsOf(docs[|docs| - 1].data)
  }

  /** Nothing in the pages received so far contradicts a complete window. */
  ghost predicate GoodSoFar(docs: seq<Document>, start: int, end: int, cap: int) {
    Fits(docs, start, end, cap) && Distinct(AllRows(docs))
  }

  /** Every page but the last announced another one: the pages were asked for in turn. */
  predicate Chained(docs: seq<Document>) {
    forall i | 0 <= i < |docs| - 1 :: docs[i].Page? && docs[i].hasNext
  }

  /** The pages are a complete, uncapped window: as many distinct rows as every page's stated
      total, all inside the window, and no further page. */
  ghost predicate ReadsInFull(docs: seq<Document>, start: int, end: int, cap: int) {
    && docs != [] && GoodSoFar(docs, start, end, cap)
    && docs[0].total < cap && !docs[|docs| - 1].hasNext
  }

  lemma {:induction false} FullPagesCount(docs: seq<Document>, start: int, end: int, cap: int)
    requires Fits(docs, start, end, cap) && Chained(docs)
    requires docs != []
    ensures |AllRows(docs)| == Min(|docs| * PAGE_SIZE, docs[0].total)
    ensures docs[|docs| - 1].hasNext <==> |docs| * PAGE_SIZE < docs[0].total
  {
    var init := docs[..|docs| - 1];
    if init == [] {
      assert AllRows(init) == [];
    } else {
      assert docs[|init| - 1].hasNext;
      FullPagesCount(init, start, end, cap);
    }
  }

  /** The rows of a window read in full are exactly as many as stated, pairwise distinct and all
      inside the window, whatever the console is. */
  lemma FullWindowIsSound(docs: seq<Document>, start: int, end: int, cap: int)
    requires ReadsInFull(docs, start, end, cap) && Chained(docs)
    ensures |AllRows(docs)| == docs[0].total && Distinct(AllRows(docs))
    ensures InWindow(AllRows(docs), start, end)
    ensures forall i | 0 <= i < |docs| :: docs[i].total == docs[0].total
    ensures |docs| == Max(1, PageCount(docs[0].total))
  {
    FullPagesCount(docs, start, end, cap);
    AllRowsInWindow(docs, start, end, cap);
  }

  lemma {:induction false} AllRowsInWindow(docs: seq<Document>, start: int, end: int, cap: int)
    requires Fits(docs, start, end, cap)
    ensures InWindow(AllRows(docs), start, end)
  {
    if docs != [] {
      var init, last := docs[..|docs| - 1], RowsOf(docs[|docs| - 1].data);
      AllRowsInWindow(init, start, end, cap);
      assert AllRows(docs) == AllRows(init) + last;
      assert RowsFit(docs[|docs| - 1], start, end);
    }
  }

  /** The console showed the row on one of these pages. */
  ghost predicate Shown(docs: seq<Document>, row: Row) {
    exists d | 0 <= d < |docs| :: docs[d].Page? && Flow(row) in docs[d].data
  }

  ghost predicate AllShown(docs: seq<Document>, rows: seq<Row>) {
    forall i | 0 <= i < |rows| :: Shown(docs, rows[i])
  }

  lemma {:induction false} AllRowsShown(docs: seq<Document>)
    requires forall i | 0 <= i < |docs| :: docs[i].Page? && AllFlows(docs[i].data)
    ensures AllShown(docs, AllRows(docs))
  {
    if docs != [] {
      var init, last := docs[..|docs| - 1], docs[|docs| - 1];
      AllRowsShown(init);
      forall i | 0 <= i < |AllRows(docs)| ensures Shown(docs, AllRows(docs)[i]) {
        if i < |AllRows(init)| {
          assert Shown(init, AllRows(init)[i]);
          var d :| 0 <= d < |init| && init[d].Page? && Flow(AllRows(init)[i]) in init[d].data;
          assert docs[d] == init[d];
        } else {
          assert last.data[i - |AllRows(init)|] == Flow(AllRows(docs)[i]);
          assert docs[|docs| - 1] == last;
        }
      }
    }
  }

  lemma AllRowsStep(docs: seq<Document>, doc: Document)
    requires forall i | 0 <= i < |docs| :: docs[i].Page? && AllFlows(docs[i].data)
    requires doc.Page? && AllFlows(doc.data)
    ensures AllRows(docs + [doc]) == AllRows(docs) + RowsOf(doc.data)
  {
    assert (docs + [doc])[..|docs|] == docs;
  }

  /** The dict the rows of a list of pages fill. */
  function Dict(rows: seq<Row>): seq<Row> { PutAll([], rows) }

  lemma {:induction false} PutAllAppend(rows: seq<Row>, a: seq<Row>, b: seq<Row>)
    ensures PutAll(rows, a + b) == PutAll(PutAll(rows, a), b)
  {
    if b == [] {
      assert a + b == a;
    } else {
      PutAllAppend(rows, a, b[..|b| - 1]);
      assert (a + b)[..|a + b| - 1] == a + b[..|b| - 1];
    }
  }

  lemma EmptyRows()
    ensures Distinct([]) && Ids([]) == {}
  {
  }

  lemma DictFacts(rows: seq<Row>)
    ensures Distinct(Dict(rows)) && Ids(Dict(rows)) == Ids(rows)
    ensures |Dict(rows)| == |rows| <==> Distinct(rows)
    ensures Distinct(rows) ==> Dict(rows) == rows
  {
    hide Distinct, PutAll;
    assert [] + rows == rows;
    assert Distinct([]) && Ids([]) == {} by { EmptyRows(); }
    PutAllKeepsDistinct([], rows);
  }

  lemma {:induction false} DictDraws(rows: seq<Row>)
    ensures forall i | 0 <= i < |Dict(rows)| :: Dict(rows)[i] in rows
  {
    if rows != [] {
      var init, last := rows[..|rows| - 1], rows[|rows| - 1];
      DictDraws(init);
      forall i | 0 <= i < |Dict(rows)| ensures Dict(rows)[i] in rows {
        assert Dict(rows)[i] == last || Dict(rows)[i] in Dict(init);
        assert last in rows && forall r | r in init :: r in rows;
      }
    }
  }

  /** What a read has collected so far the console has shown. */
  lemma DictShown(docs: seq<Document>)
    requires forall i | 0 <= i < |docs| :: docs[i].Page? && AllFlows(docs[i].data)
    ensures AllShown(docs, Dict(AllRows(docs)))
  {
    AllRowsShown(docs);
    DictDraws(AllRows(docs));
    hide Dict, AllRows, Shown;
    forall i | 0 <= i < |Dict(AllRows(docs))| ensures Shown(docs, Dict(AllRows(docs))[i]) {
      var j :| 0 <= j < |AllRows(docs)| && AllRows(docs)[j] == Dict(AllRows(docs))[i];
    }
  }

  lemma ShownLater(docs: seq<Document>, more: seq<Document>, rows: seq<Row>)
    requires AllShown(docs, rows)
    ensures AllShown(docs + more, rows)
  {
    forall i | 0 <= i < |rows| ensures Shown(docs + more, rows[i]) {
      assert Shown(docs, rows[i]);
      var d :| 0 <= d < |docs| && docs[d].Page? && Flow(rows[i]) in docs[d].data;
      assert (docs + more)[d] == docs[d];
    }
  }

  lemma {:induction false} DictInWindow(rows: seq<Row>, start: int, end: int)
    requires InWindow(rows, start, end)
    ensures InWindow(Dict(rows), start, end)
  {
    if rows != [] {
      DictInWindow(rows[..|rows| - 1], start, end);
    }
  }

  /** A page of a distinct window brings identities no earlier page had. */
  lemma FreshPage(before: seq<Row>, more: seq<Row>)
    requires Distinct(before + more) && more != []
    ensures !(Ids(more) <= Ids(before))
  {
    assert more[0].id in Ids(more);
    forall i | 0 <= i < |before| ensures before[i].id != more[0].id {
      assert (before + more)[i].id != (before + more)[|before|].id;
    }
  }

  /** Two pages with the same identities repeat one. */
  lemma SamePage(before: seq<Row>, page: seq<Row>, more: seq<Row>)
    requires IdList(page) == IdList(more) && more != []
    ensures !Distinct(before + page + more)
  {
    var all := before + page + more;
    assert IdList(page)[0] == IdList(more)[0];
    assert all[|before|] == page[0] && all[|before| + |page|] == more[0];
  }

  // ---------------------------------------------------------------- the honest console

  predicate NewestFirst(list: seq<Row>) {
    forall i, j | 0 <= i <= j < |list| :: list[i].time >= list[j].time
  }

  /** Page `i` of `list` as the console serves it: rows beyond the query cap are never shown. */
  function PageOf(list: seq<Row>, cap: nat, i: nat): Document {
    var total := Min(|list|, cap);
    var from, to := Min(i * PAGE_SIZE, total), Min((i + 1) * PAGE_SIZE, total);
    Page(seq(to - from, k requires 0 <= k < to - from => Flow(list[from + k])),
         total, PageCount(total), i, (i + 1) * PAGE_SIZE < total, |list| > cap)
  }

  /** The pages received are those of one fixed list of the window's rows, newest first. */
  ghost predicate Honest(docs: seq<Document>, list: seq<Row>, start: int, end: int, cap: nat) {
    && Distinct(list) && InWindow(list, start, end) && NewestFirst(list)
    && forall i | 0 <= i < |docs| :: docs[i] == PageOf(list, cap, i)
  }

  lemma {:induction false} HonestRows(docs: seq<Document>, list: seq<Row>, start: int, end: int, cap: nat)
    requires Honest(docs, list, start, end, cap)
    ensures AllRows(docs) == list[..Min(|docs| * PAGE_SIZE, Min(|list|, cap))]
  {
    if docs != [] {
      var init := docs[..|docs| - 1];
      HonestRows(init, list, start, end, cap);
      var total := Min(|list|, cap);
      var from, to := Min(|init| * PAGE_SIZE, total), Min(|docs| * PAGE_SIZE, total);
      assert docs[|docs| - 1] == PageOf(list, cap, |init|);
      assert RowsOf(docs[|docs| - 1].data) == list[from..to];
      assert list[..from] + list[from..to] == list[..to];
    }
  }

  /** An honest console's pages, asked for in turn, never contradict a complete window: reading
      them can end with no problem except running out of budget. */
  lemma HonestIsGood(docs: seq<Document>, list: seq<Row>, start: int, end: int, cap: nat)
    requires Honest(docs, list, start, end, cap) && Chained(docs) && 0 < cap
    ensures GoodSoFar(docs, start, end, cap)
    ensures docs != [] ==> docs[0].total == Min(|list|, cap)
  {
    var total := Min(|list|, cap);
    forall i | 0 <= i < |docs|
      ensures PageFits(docs[i], i, total, cap) && RowsFit(docs[i], start, end)
    {
      assert docs[i] == PageOf(list, cap, i);
      if i > 0 {
        assert docs[i - 1].hasNext;
        assert docs[i - 1] == PageOf(list, cap, i - 1);
      }
    }
    HonestRows(docs, list, start, end, cap);
    var n := Min(|docs| * PAGE_SIZE, total);
    forall i, j | 0 <= i < j < n ensures list[..n][i].id != list[..n][j].id {
      assert list[i].id != list[j].id;
    }
  }

  /** Reading an honest console under its cap to the end yields exactly its list. */
  lemma HonestReadIsExact(docs: seq<Document>, list: seq<Row>, start: int, end: int, cap: nat)
    requires Honest(docs, list, start, end, cap) && Chained(docs) && docs != []
    requires !docs[|docs| - 1].hasNext && |list| < cap
    ensures ReadsInFull(docs, start, end, cap) && AllRows(docs) == list
  {
    HonestIsGood(docs, list, start, end, cap);
    HonestRows(docs, list, start, end, cap);
    FullPagesCount(docs, start, end, cap);
  }

  /** Reading an honest console over its cap to the end yields its newest `cap` rows, so every
      row not read is at or before the oldest row read. */
  lemma TruncatedReadIsNewest(docs: seq<Document>, list: seq<Row>, start: int, end: int, cap: nat, oldest: int)
    requires Honest(docs, list, start, end, cap) && Chained(docs) && docs != []
    requires !docs[|docs| - 1].hasNext && 0 < cap <= |list|
    requires forall i | 0 <= i < |AllRows(docs)| :: oldest <= AllRows(docs)[i].time
    requires exists i | 0 <= i < |AllRows(docs)| :: oldest == AllRows(docs)[i].time
    ensures AllRows(docs) == list[..cap]
    ensures forall j | 0 <= j < |list| :: list[j] in AllRows(docs) || list[j].time <= oldest
  {
    HonestIsGood(docs, list, start, end, cap);
    HonestRows(docs, list, start, end, cap);
    FullPagesCount(docs, start, end, cap);
    var rows := AllRows(docs);
    assert rows == list[..cap];
    forall j | 0 <= j < |list| ensures list[j] in rows || list[j].time <= oldest {
      if j < cap {
        assert rows[j] == list[j];
      } else {
        var i :| 0 <= i < |rows| && oldest == rows[i].time;
        assert list[i].time >= list[j].time;
      }
    }
  }
}
