/** One window read as the collector reads it: page after page, each judged before the next is
    asked for. */
module PageByPage {
  import opened Arithmetic
  import opened Wrappers
  import opened WindowReading

  /** The local state of a read in progress. */
  datatype Progress = Progress(rows: seq<Row>, previous: Option<seq<FlowId>>, firstTotal: Option<int>,
                               capped: bool, page: nat)

  datatype Verdict = More | Finished(problem: Option<Problem>) | Raise

  /** Every page after the first that has rows shows an identity that no page before it showed. */
  ghost predicate NoRepeats(docs: seq<Document>)
    requires forall i | 0 <= i < |docs| :: docs[i].Page? && AllFlows(docs[i].data)
  {
    forall i | 0 < i < |docs| :: docs[i].data == [] || !(Ids(RowsOf(docs[i].data)) <= Ids(AllRows(docs[..i])))
  }

  lemma NoRepeatsNext(docs: seq<Document>, doc: Document)
    requires forall i | 0 <= i < |docs| :: docs[i].Page? && AllFlows(docs[i].data)
    requires NoRepeats(docs) && doc.Page? && AllFlows(doc.data)
    requires docs != [] && doc.data != [] ==> !(Ids(RowsOf(doc.data)) <= Ids(AllRows(docs)))
    ensures NoRepeats(docs + [doc])
  {
    hide Ids, AllRows;
    var all := docs + [doc];
    forall i | 0 < i < |all| && all[i].data != [] ensures !(Ids(RowsOf(all[i].data)) <= Ids(AllRows(all[..i]))) {
      assert all[..i] == docs[..i];
      assert docs[..|docs|] == docs;
    }
  }

  /** `progress` is where a read stands after the pages `docs`, none of which was objectionable. */
  ghost predicate Reading(docs: seq<Document>, progress: Progress, start: int, end: int, cap: nat, acceptCap: bool) {
    && progress.page == |docs| && Chained(docs) && Fits(docs, start, end, cap) && NoRepeats(docs)
    && progress.rows == Dict(AllRows(docs))
    && (docs == [] ==> progress.previous.None? && progress.firstTotal.None? && !progress.capped)
    && (docs != [] ==>
          && docs[|docs| - 1].hasNext && |docs| * PAGE_SIZE < cap
          && progress.firstTotal == Some(docs[0].total)
          && progress.previous == Some(IdList(RowsOf(docs[|docs| - 1].data)))
          && progress.capped == (cap <= docs[0].total) && (progress.capped ==> acceptCap))
  }

  /** What a read that ended with no problem got: everything, or, at the query cap, either the
      news of it or every page up to it, none of them a repetition. */
  ghost predicate ReadToTheEnd(docs: seq<Document>, window: Window, start: int, end: int, cap: nat, acceptCap: bool) {
    && docs != [] && docs[0].Page?
    && (window.capped <==> cap <= docs[0].total)
    && (window.capped && !acceptCap ==> window.rows == [])
    && (window.capped && acceptCap ==>
          && Fits(docs, start, end, cap) && NoRepeats(docs) && window.rows == Dict(AllRows(docs)) && window.rows != []
          && |docs| * PAGE_SIZE >= Min(docs[0].total, cap))
    && (!window.capped ==> ReadsInFull(docs, start, end, cap) && window.rows == AllRows(docs))
  }

  /** A finished read. It is uncapped with no problem exactly when the pages are a complete
      window, and pages that do not contradict one never raise a problem but the budget's. */
  ghost predicate Outcome(docs: seq<Document>, window: Window, start: int, end: int, cap: nat, acceptCap: bool) {
    && Chained(docs) && Distinct(window.rows) && InWindow(window.rows, start, end)
    && (window.problem.None? && !window.capped <==> ReadsInFull(docs, start, end, cap))
    && (GoodSoFar(docs, start, end, cap) ==> window.problem in {None, Some(CycleBudget)})
    && (window.problem.None? ==> ReadToTheEnd(docs, window, start, end, cap, acceptCap))
    && (window.capped && !acceptCap ==> window.problem.None?)
    && (window.shifted <==> window.problem == Some(ChangingTotal))
    && window.problem != Some(EmptyPage)
    && AllShown(docs, window.rows)
  }

  /** A page's pagination fields, judged as the collector judges them. */
  function Pagination(doc: Document, page: nat, firstTotal: Option<int>, cap: int): (problem: Option<Problem>)
    ensures problem.None? <==> PageFits(doc, page, if doc.Page? then firstTotal.GetOr(doc.total) else 0, cap)
    ensures problem == Some(ChangingTotal) ==> doc.Page? && PageFits(doc, page, doc.total, cap)
  {
    match doc
    case Shapeless => Some(UnexpectedShape)
    case Untyped => Some(InvalidPagination)
    case Page(data, total, pages, number, hasNext, orMore) =>
      if number != page then Some(IgnoredPage)
      else if || total < 0 || pages < 0
              || (total == 0 && (data != [] || page != 0 || pages !in {0, 1} || hasNext || orMore))
              || (total > 0 && (|| pages != (total + PAGE_SIZE - 1) / PAGE_SIZE
                                || page >= pages || hasNext != (page + 1 < pages)
                                || |data| != Min(PAGE_SIZE, total - page * PAGE_SIZE)))
              || (orMore && total < cap)
      then Some(InvalidPagination)
      else if firstTotal.Some? && total != firstTotal.value then Some(ChangingTotal)
      else None
  }

  /** The rows of a page, or why the page cannot be used. */
  method Identify(data: seq<Item>, start: int, end: int)
    returns (rows: seq<Row>, problem: Option<Problem>, raised: bool)
    ensures problem.None? && !raised <==> AllFlows(data) && InWindow(RowsOf(data), start, end)
    ensures problem.None? && !raised ==> rows == RowsOf(data)
    ensures problem in {None, Some(UnexpectedRow), Some(WindowIgnored)}
  {
    rows, problem, raised := [], None, false;
    for k := 0 to |data|
      invariant AllFlows(data[..k]) && rows == RowsOf(data[..k]) && InWindow(rows, start, end)
    {
      match data[k] {
        case Junk =>
          problem := Some(UnexpectedRow);
          return;
        case Unnamed(at) =>
          if !(start <= at <= end) {
            problem := Some(WindowIgnored);
            return;
          }
          raised := true;
          return;
        case Flow(row) =>
          if !(start <= row.time <= end) {
            assert RowsOf(data[..k + 1])[k] == row;
            problem := Some(WindowIgnored);
            assert AllFlows(data) ==> RowsOf(data)[k] == row;
            return;
          }
          rows := rows + [row];
      }
      assert data[..k + 1] == data[..k] + [data[k]];
    }
    assert data[..|data|] == data;
  }

  lemma RepeatIsBad(docs: seq<Document>, more: seq<Row>)
    requires forall i | 0 <= i < |docs| :: docs[i].Page? && AllFlows(docs[i].data)
    requires docs != [] && more != []
    requires IdList(more) == IdList(RowsOf(docs[|docs| - 1].data)) || Ids(more) <= Ids(AllRows(docs))
    ensures !Distinct(AllRows(docs) + more)
  {
    hide Distinct, Ids;
    var init, last := AllRows(docs[..|docs| - 1]), RowsOf(docs[|docs| - 1].data);
    assert AllRows(docs) == init + last;
    if IdList(more) == IdList(last) {
      SamePage(init, last, more);
    } else if Distinct(AllRows(docs) + more) {
      FreshPage(AllRows(docs), more);
    }
  }

  lemma ReadingRows(docs: seq<Document>, progress: Progress, start: int, end: int, cap: nat, acceptCap: bool)
    requires Reading(docs, progress, start, end, cap, acceptCap)
    ensures Distinct(progress.rows) && InWindow(progress.rows, start, end)
    ensures Ids(progress.rows) == Ids(AllRows(docs))
  {
    DictFacts(AllRows(docs));
    AllRowsInWindow(docs, start, end, cap);
    DictInWindow(AllRows(docs), start, end);
  }

  lemma StartOfRead(start: int, end: int, cap: nat, acceptCap: bool)
    ensures Reading([], Progress([], None, None, false, 0), start, end, cap, acceptCap)
  {
  }

  lemma ReadingPage(docs: seq<Document>, progress: Progress, start: int, end: int, cap: nat, acceptCap: bool)
    requires Reading(docs, progress, start, end, cap, acceptCap)
    ensures progress.page == |docs| && (docs != [] ==> |docs| * PAGE_SIZE < cap)
  {
  }

  /** A read stopped between two pages has its rows so far. */
  lemma OutOfBudget(docs: seq<Document>, progress: Progress, start: int, end: int, cap: nat, acceptCap: bool)
    requires Reading(docs, progress, start, end, cap, acceptCap)
    ensures Outcome(docs, Window(progress.rows, Some(CycleBudget), progress.capped, false), start, end, cap, acceptCap)
  {
    ReadingRows(docs, progress, start, end, cap, acceptCap);
    DictShown(docs);
  }

  /** A page that does not fit ends the read with the rows of the pages before it. */
  lemma Objection(docs: seq<Document>, doc: Document, progress: Progress, problem: Problem,
                  start: int, end: int, cap: nat, acceptCap: bool)
    requires Reading(docs, progress, start, end, cap, acceptCap)
    requires problem != CycleBudget && problem != EmptyPage
    requires !GoodSoFar(docs + [doc], start, end, cap)
    ensures Outcome(docs + [doc], Window(progress.rows, Some(problem), progress.capped, problem == ChangingTotal),
                    start, end, cap, acceptCap)
  {
    DictShown(docs);
    ShownLater(docs, [doc], progress.rows);
    ReadingRows(docs, progress, start, end, cap, acceptCap);
  }

  /** A page whose fields or rows do not fit contradicts a complete window. */
  lemma BadPage(docs: seq<Document>, doc: Document, progress: Progress, start: int, end: int, cap: nat, acceptCap: bool)
    requires Reading(docs, progress, start, end, cap, acceptCap)
    requires !PageFits(doc, |docs|, if doc.Page? then progress.firstTotal.GetOr(doc.total) else 0, cap)
             || !RowsFit(doc, start, end)
    ensures !GoodSoFar(docs + [doc], start, end, cap)
  {
    var all := docs + [doc];
    assert all[|docs|] == doc;
    if docs != [] {
      assert all[0] == docs[0];
    }
  }

  /** Once there is a problem, the capped flag decides nothing. */
  lemma CappedAnyway(docs: seq<Document>, progress: Progress, problem: Problem, capped: bool,
                     start: int, end: int, cap: nat, acceptCap: bool)
    requires capped ==> acceptCap
    requires Outcome(docs, Window(progress.rows, Some(problem), progress.capped, problem == ChangingTotal),
                     start, end, cap, acceptCap)
    ensures Outcome(docs, Window(progress.rows, Some(problem), capped, problem == ChangingTotal), start, end, cap, acceptCap)
  {
  }

  lemma NotDistinct(docs: seq<Document>, start: int, end: int, cap: nat)
    requires forall i | 0 <= i < |docs| :: docs[i].Page? && AllFlows(docs[i].data)
    requires !Distinct(AllRows(docs))
    ensures !GoodSoFar(docs, start, end, cap)
  {
  }

  /** At a first page over the cap, a read that may be narrowed stops with the news. */
  lemma CapNews(doc: Document, start: int, end: int, cap: nat)
    requires doc.Page? && cap <= doc.total
    ensures Outcome([doc], Window([], None, true, false), start, end, cap, false)
  {
  }

  /** The pages so far and one more that fits. */
  lemma OneMore(docs: seq<Document>, doc: Document, progress: Progress, start: int, end: int, cap: nat, acceptCap: bool)
    requires Reading(docs, progress, start, end, cap, acceptCap)
    requires doc.Page? && PageFits(doc, |docs|, progress.firstTotal.GetOr(doc.total), cap) && RowsFit(doc, start, end)
    ensures Fits(docs + [doc], start, end, cap) && Chained(docs + [doc])
    ensures AllRows(docs + [doc]) == AllRows(docs) + RowsOf(doc.data)
    ensures Dict(AllRows(docs + [doc])) == PutAll(progress.rows, RowsOf(doc.data))
    ensures (docs + [doc])[0].total == doc.total
    ensures |AllRows(docs + [doc])| == Min((|docs| + 1) * PAGE_SIZE, doc.total)
    ensures doc.hasNext <==> (|docs| + 1) * PAGE_SIZE < doc.total
  {
    var all := docs + [doc];
    AllRowsStep(docs, doc);
    PutAllAppend([], AllRows(docs), RowsOf(doc.data));
    FullPagesCount(all, start, end, cap);
  }

  /** The last page of a window, judged with all its rows in hand. */
  lemma LastPage(docs: seq<Document>, rows: seq<Row>, capped: bool, problem: Option<Problem>,
                 start: int, end: int, cap: nat, acceptCap: bool)
    requires docs != [] && Chained(docs) && Fits(docs, start, end, cap) && NoRepeats(docs) && 0 < cap
    requires rows == Dict(AllRows(docs)) && |AllRows(docs)| == Min(|docs| * PAGE_SIZE, docs[0].total)
    requires capped == (cap <= docs[0].total) && (capped ==> acceptCap)
    requires docs[|docs| - 1].hasNext ==> capped && cap <= |docs| * PAGE_SIZE
    requires !docs[|docs| - 1].hasNext ==> docs[0].total <= |docs| * PAGE_SIZE
    requires problem == if !capped && |rows| != docs[0].total then Some(ShortCount) else None
    ensures Outcome(docs, Window(rows, problem, capped, false), start, end, cap, acceptCap)
  {
    DictShown(docs);
    DictFacts(AllRows(docs));
    AllRowsInWindow(docs, start, end, cap);
    DictInWindow(AllRows(docs), start, end);
    if capped {
      assert AllRows(docs)[0].id in Ids(AllRows(docs));
    }
  }

  /** What storing and completing a window need of its outcome. */
  lemma WholeWindow(docs: seq<Document>, window: Window, start: int, end: int, cap: nat, acceptCap: bool)
    requires Outcome(docs, window, start, end, cap, acceptCap)
    ensures Chained(docs) && Distinct(window.rows)
    ensures forall i | 0 <= i < |window.rows| :: start <= window.rows[i].time
    ensures AllShown(docs, window.rows)
    ensures window.problem.None? && (window.capped ==> acceptCap) ==> ReadToTheEnd(docs, window, start, end, cap, true)
    ensures window.capped && !acceptCap ==> docs != [] && docs[0].Page? && cap <= docs[0].total
    ensures window.problem.Some? && window.problem != Some(CycleBudget) ==> !GoodSoFar(docs, start, end, cap)
  {
  }

  /** A window read to its end has rows exactly if its pages state any. */
  lemma RowsAreStated(docs: seq<Document>, window: Window, start: int, end: int, cap: nat)
    requires 0 < cap && Chained(docs) && ReadToTheEnd(docs, window, start, end, cap, true)
    ensures window.rows != [] <==> HasRows(docs)
  {
    FullPagesCount(docs, start, end, cap);
    DictFacts(AllRows(docs));
  }

  /** The first page states that there are rows. */
  predicate HasRows(docs: seq<Document>) { docs != [] && docs[0].Page? && docs[0].total > 0 }

  /** Judge one more page: `GoodSoFar` fails whenever it is objected to. */
  method TakePage(progress: Progress, doc: Document, start: int, end: int, cap: nat, acceptCap: bool,
                  ghost docs: seq<Document>)
    returns (next: Progress, verdict: Verdict)
    requires 0 < cap && Reading(docs, progress, start, end, cap, acceptCap)
    ensures verdict.More? ==> Reading(docs + [doc], next, start, end, cap, acceptCap)
    ensures verdict.Finished? ==>
              Outcome(docs + [doc], Window(next.rows, verdict.problem, next.capped, verdict.problem == Some(ChangingTotal)),
                      start, end, cap, acceptCap)
    ensures verdict.Finished? ==> verdict.problem != Some(CycleBudget)
    ensures verdict.Raise? ==> Chained(docs + [doc]) && !GoodSoFar(docs + [doc], start, end, cap)
  {
    hide Outcome, GoodSoFar, ReadsInFull, Dict, Distinct;
    ghost var all := docs + [doc];
    var wrong := Pagination(doc, progress.page, progress.firstTotal, cap);
    if wrong.Some? {
      BadPage(docs, doc, progress, start, end, cap, acceptCap);
      Objection(docs, doc, progress, wrong.value, start, end, cap, acceptCap);
      return progress, Finished(wrong);
    }
    var capped := progress.capped;
    if progress.page == 0 && (doc.orMore || doc.total >= cap) {
      capped := true;
      if !acceptCap {
        CapNews(doc, start, end, cap);
        assert all == [doc];
        return Progress([], None, None, true, 0), Finished(None);
      }
    }
    var more, problem, raised := Identify(doc.data, start, end);
    if raised {
      BadPage(docs, doc, progress, start, end, cap, acceptCap);
      return progress, Raise;
    }
    if problem.Some? {
      BadPage(docs, doc, progress, start, end, cap, acceptCap);
      Objection(docs, doc, progress, problem.value, start, end, cap, acceptCap);
      CappedAnyway(all, progress, problem.value, capped, start, end, cap, acceptCap);
      return progress.(capped := capped), Finished(problem);
    }
    next, verdict := TakeRows(progress, doc, more, capped, start, end, cap, acceptCap, docs);
  }

  /** The rows of a page that fits: repeated, the last, or neither. */
  method TakeRows(progress: Progress, doc: Document, more: seq<Row>, capped: bool,
                  start: int, end: int, cap: nat, acceptCap: bool, ghost docs: seq<Document>)
    returns (next: Progress, verdict: Verdict)
    requires 0 < cap && Reading(docs, progress, start, end, cap, acceptCap)
    requires doc.Page? && PageFits(doc, |docs|, progress.firstTotal.GetOr(doc.total), cap) && RowsFit(doc, start, end)
    requires more == RowsOf(doc.data) && capped == (cap <= doc.total) && (capped ==> acceptCap)
    ensures verdict.More? ==> Reading(docs + [doc], next, start, end, cap, acceptCap)
    ensures verdict.Finished? ==>
              && verdict.problem in {None, Some(RepeatedPage), Some(ShortCount)}
              && Outcome(docs + [doc], Window(next.rows, verdict.problem, next.capped, false), start, end, cap, acceptCap)
    ensures !verdict.Raise?
  {
    hide Outcome, GoodSoFar, ReadsInFull, Dict, Distinct, PutAll, AllRows, NoRepeats;
    ghost var all := docs + [doc];
    assert all[|docs|] == doc;
    OneMore(docs, doc, progress, start, end, cap, acceptCap);
    ReadingRows(docs, progress, start, end, cap, acceptCap);
    var ids := IdList(more);
    if progress.page > 0 && ids != [] && (Some(ids) == progress.previous || Ids(more) <= Ids(progress.rows)) {
      RepeatIsBad(docs, more);
      NotDistinct(all, start, end, cap);
      Objection(docs, doc, progress, RepeatedPage, start, end, cap, acceptCap);
      return progress, Finished(Some(RepeatedPage));
    }
    NoRepeatsNext(docs, doc);
    next := Progress(PutAll(progress.rows, more), Some(ids), Some(doc.total), capped, progress.page + 1);
    if doc.hasNext {
      if doc.data == [] {
        assert false;
      }
      if next.page * PAGE_SIZE < cap {
        return next, More;
      }
      next := next.(capped := true);
    }
    var short := if !next.capped && |next.rows| != doc.total then Some(ShortCount) else None;
    LastPage(all, next.rows, next.capped, short, start, end, cap, acceptCap);
    return next, Finished(short);
  }
}
