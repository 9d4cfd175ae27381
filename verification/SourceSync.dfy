/** Checkpointed traversal of a source: pages of questions, a saved (page, offset) cursor, and the
    watermark that a finished incremental traversal sets. */
module SourceSync {
  import opened Common

  datatype Mode = INITIAL | INCREMENTAL

  /** A question of the listing; ingestion skips some of them instead of storing a document. */
  datatype Item = Item(id: nat, skipped: bool)

  datatype Page = Page(items: seq<Item>, hasMore: bool)

  /** One pass over the source, bounded above by a fixed date. Its listing is taken not to change meanwhile. */
  datatype Traversal = Traversal(mode: Mode, todate: nat)

  datatype Position = Position(traversal: Traversal, page: nat, index: nat)

  /** The first question not yet accounted for: pages count from one, offsets from zero. */
  datatype Cursor = Cursor(page: nat, offset: nat)

  type Listings = Traversal -> seq<Page>

  /** The question iterator: no page is empty, and only the last one may say that there are no more. */
  predicate Listing(pages: seq<Page>) {
    && (forall p :: 0 <= p < |pages| ==> pages[p].items != [])
    && (forall p :: 0 <= p < |pages| - 1 ==> pages[p].hasMore)
  }

  // ---------- what a cursor promises ----------

  predicate Exists(pages: seq<Page>, page: nat, index: nat) {
    1 <= page <= |pages| && index < |pages[page - 1].items|
  }

  predicate Precedes(page: nat, index: nat, c: Cursor) {
    page < c.page || (page == c.page && index < c.offset)
  }

  /** Every question before the cursor was ingested or skipped. */
  ghost predicate Covered(pages: seq<Page>, t: Traversal, c: Cursor, done: set<Position>) {
    forall page: nat, index: nat {:trigger Position(t, page, index)} ::
      Exists(pages, page, index) && Precedes(page, index, c) ==> Position(t, page, index) in done
  }

  /** Every question of the listing was ingested or skipped. */
  ghost predicate Complete(pages: seq<Page>, t: Traversal, done: set<Position>) {
    forall page: nat, index: nat {:trigger Position(t, page, index)} ::
      Exists(pages, page, index) ==> Position(t, page, index) in done
  }

  /** A saved offset points at a question of its page. */
  predicate WellPlaced(pages: seq<Page>, c: Cursor) {
    c.page >= 1 && (c.offset == 0 || Exists(pages, c.page, c.offset))
  }

  predicate Advanced(a: Cursor, b: Cursor) {
    a.page < b.page || (a.page == b.page && a.offset < b.offset)
  }

  // ---------- one batch ----------

  datatype Limits = Limits(mode: Mode, maxDocuments: nat, target: nat)

  /** _remaining_documents */
  function Remaining(l: Limits, questions: nat, documentsCount: nat): nat {
    var byJob := l.maxDocuments - questions;
    var byTarget := l.target - documentsCount;
    var remaining := if l.mode == INITIAL && byTarget < byJob then byTarget else byJob;
    if remaining > 0 then remaining else 0
  }

  /** The page's questions from the offset on, as many as are still wanted. */
  function Questions(page: Page, offset: nat, remaining: nat): seq<Item> {
    if offset >= |page.items| then []
    else if remaining < |page.items| - offset then page.items[offset..offset + remaining]
    else page.items[offset..]
  }

  predicate ConsumesPage(page: Page, offset: nat, questions: seq<Item>) {
    offset + |questions| >= |page.items|
  }

  function NextCursor(page: Page, number: nat, offset: nat, questions: seq<Item>): Cursor {
    if ConsumesPage(page, offset, questions) then Cursor(number + 1, 0)
    else Cursor(number, offset + |questions|)
  }

  function Handled(t: Traversal, number: nat, offset: nat, n: nat): set<Position> {
    set i | offset <= i < offset + n :: Position(t, number, i)
  }

  function Stored(questions: seq<Item>): set<nat> {
    set q | q in questions && !q.skipped :: q.id
  }

  /** The cursor stands behind the last page, and that says that there is no more. */
  predicate AtLastEnd(pages: seq<Page>, c: Cursor) {
    pages != [] && c.page > |pages| && !pages[|pages| - 1].hasMore
  }

  lemma EndOfLast(pages: seq<Page>, number: nat, offset: nat, batch: seq<Item>)
    requires Listing(pages) && 1 <= number <= |pages|
    ensures var page := pages[number - 1];
            AtLastEnd(pages, NextCursor(page, number, offset, batch))
            <==> !page.hasMore && ConsumesPage(page, offset, batch)
  {
  }

  lemma LastPage(pages: seq<Page>, number: nat)
    requires Listing(pages) && 1 <= number <= |pages|
    ensures !pages[number - 1].hasMore ==> number == |pages|
  {
  }

  lemma FirstOfPage(pages: seq<Page>, number: nat)
    requires number >= 1
    ensures WellPlaced(pages, Cursor(number, 0))
  {
  }

  lemma StoredNothing()
    ensures Stored([]) == {}
  {
  }

  lemma QuestionsOfThePage(page: Page, offset: nat, remaining: nat)
    ensures var questions := Questions(page, offset, remaining);
            questions != [] ==>
              offset + |questions| <= |page.items| && questions == page.items[offset..offset + |questions|]
  {
  }

  /** A cursor past the last page says that the traversal is complete. */
  lemma WholeIsComplete(pages: seq<Page>, t: Traversal, c: Cursor, done: set<Position>)
    requires c.page > |pages| && Covered(pages, t, c, done)
    ensures Complete(pages, t, done)
  {
  }

  /** The saved cursor never passes a question that the batch did not handle. */
  lemma SavedCursorIsCovered(pages: seq<Page>, t: Traversal, number: nat, offset: nat, remaining: nat,
          done: set<Position>)
    requires 1 <= number <= |pages| && Covered(pages, t, Cursor(number, offset), done)
    ensures var page := pages[number - 1];
            var questions := Questions(page, offset, remaining);
            Covered(pages, t, NextCursor(page, number, offset, questions),
                    done + Handled(t, number, offset, |questions|))
  {
    var page := pages[number - 1];
    var questions := Questions(page, offset, remaining);
    var next, after := NextCursor(page, number, offset, questions), done + Handled(t, number, offset, |questions|);
    forall p: nat, i: nat {:trigger Position(t, p, i)} | Exists(pages, p, i) && Precedes(p, i, next)
      ensures Position(t, p, i) in after
    {
      if !Precedes(p, i, Cursor(number, offset)) {
        assert Position(t, p, i) in Handled(t, number, offset, |questions|);
      }
    }
  }

  /** The next cursor is well placed, and ahead when the batch is not empty. */
  lemma NextIsAhead(pages: seq<Page>, number: nat, offset: nat, remaining: nat)
    requires 1 <= number <= |pages|
    ensures var page := pages[number - 1];
            var questions := Questions(page, offset, remaining);
            questions != [] ==>
              WellPlaced(pages, NextCursor(page, number, offset, questions))
              && Advanced(Cursor(number, offset), NextCursor(page, number, offset, questions))
  {
  }

  /** A page that is read from a well-placed offset has questions left. */
  lemma BatchIsNotEmpty(pages: seq<Page>, number: nat, offset: nat, remaining: nat)
    requires Listing(pages) && 1 <= number <= |pages| && remaining > 0 && WellPlaced(pages, Cursor(number, offset))
    ensures Questions(pages[number - 1], offset, remaining) != []
  {
  }

  /** Going on with the next page is safe exactly when the batch took the rest of this one. */
  lemma NextPageIsCoveredIff(pages: seq<Page>, t: Traversal, number: nat, offset: nat, remaining: nat,
          done: set<Position>)
    requires 1 <= number <= |pages| && Covered(pages, t, Cursor(number, offset), done)
    requires forall i: nat {:trigger Position(t, number, i)} :: offset <= i ==> Position(t, number, i) !in done
    ensures var page := pages[number - 1];
            var questions := Questions(page, offset, remaining);
            Covered(pages, t, Cursor(number + 1, 0), done + Handled(t, number, offset, |questions|))
            <==> ConsumesPage(page, offset, questions)
  {
    var page := pages[number - 1];
    var questions := Questions(page, offset, remaining);
    var after := done + Handled(t, number, offset, |questions|);
    SavedCursorIsCovered(pages, t, number, offset, remaining, done);
    if !ConsumesPage(page, offset, questions) {
      var left := offset + |questions|;
      assert Exists(pages, number, left) && Precedes(number, left, Cursor(number + 1, 0));
      assert Position(t, number, left) !in after;
    }
  }

  /** A batch never passes the job's limit, nor, in initial mode, the target. */
  lemma BatchIsWanted(l: Limits, page: Page, offset: nat, questions: nat, documentsCount: nat)
    ensures var batch := Questions(page, offset, Remaining(l, questions, documentsCount));
            batch != [] ==>
              && questions + |batch| <= l.maxDocuments
              && (l.mode == INITIAL ==> documentsCount + |batch| <= l.target)
  {
  }

  // ---------- when the program goes on after a cut ----------

  /** In incremental mode a cut batch uses up the job's documents, so no next page is read. */
  lemma IncrementalCutStops(l: Limits, page: Page, offset: nat, questions: nat, documentsCount: nat, newCount: nat)
    requires l.mode == INCREMENTAL
    ensures var batch := Questions(page, offset, Remaining(l, questions, documentsCount));
            !ConsumesPage(page, offset, batch) ==> Remaining(l, questions + |batch|, newCount) == 0
  {
  }

  /** Question i of the batch adds no document: it is skipped, stored before, or there twice. */
  predicate AddsNothing(documents: set<nat>, batch: seq<Item>, i: nat)
    requires i < |batch|
  {
    batch[i].skipped || batch[i].id in documents + Stored(batch[..i])
  }

  lemma {:induction false} StoredCount(documents: set<nat>, batch: seq<Item>)
    ensures |documents + Stored(batch)| <= |documents| + |batch|
    ensures |documents + Stored(batch)| < |documents| + |batch| <==>
        exists i :: 0 <= i < |batch| && AddsNothing(documents, batch, i)
  {
    if batch == [] {
      assert documents + Stored(batch) == documents;
    } else {
      var n := |batch| - 1;
      var front, last := batch[..n], batch[n];
      StoredCount(documents, front);
      StoredSnoc(front, last);
      assert batch == front + [last];
      assert documents + Stored(batch) == (documents + Stored(front)) + (if last.skipped then {} else {last.id});
      assert forall i :: 0 <= i < n ==> batch[..i] == front[..i];
      assert forall i :: 0 <= i < n ==> (AddsNothing(documents, batch, i) <==> AddsNothing(documents, front, i));
      assert AddsNothing(documents, batch, n) <==> last.skipped || last.id in documents + Stored(front);
    }
  }

  lemma StoredSnoc(front: seq<Item>, last: Item)
    ensures Stored(front + [last]) == Stored(front) + (if last.skipped then {} else {last.id})
  {
    assert forall q :: q in front + [last] <==> q in front || q == last;
  }

  /** The target, and not the job's own limit, made the batch as short as it is. */
  predicate CutByTarget(l: Limits, questions: nat, documents: set<nat>) {
    l.mode == INITIAL && l.target - |documents| < l.maxDocuments - questions
  }

  /** After a cut the program goes on with the next page exactly when the target made the cut and some question
      of the batch adds no document. */
  lemma GoesOnAfterCutIff(l: Limits, page: Page, offset: nat, questions: nat, documents: set<nat>)
    ensures var batch := Questions(page, offset, Remaining(l, questions, |documents|));
            !ConsumesPage(page, offset, batch) ==>
              (Remaining(l, questions + |batch|, |documents + Stored(batch)|) > 0 <==>
                 CutByTarget(l, questions, documents)
                 && exists i :: 0 <= i < |batch| && AddsNothing(documents, batch, i))
  {
    hide Stored;
    var batch := Questions(page, offset, Remaining(l, questions, |documents|));
    StoredCount(documents, batch);
  }

  /** A batch leaves questions behind, in that the program goes on and its next cursor passes a question that
      was not handled, exactly when it does not reach the end of the page, the target made the cut, and some
      question of it adds no document. */
  lemma BatchLosesIff(l: Limits, pages: seq<Page>, t: Traversal, number: nat, offset: nat, questions: nat,
                      documents: set<nat>, done: set<Position>)
    requires 1 <= number <= |pages| && Covered(pages, t, Cursor(number, offset), done)
    requires forall i: nat {:trigger Position(t, number, i)} :: offset <= i ==> Position(t, number, i) !in done
    ensures var page := pages[number - 1];
            var batch := Questions(page, offset, Remaining(l, questions, |documents|));
            (&& Remaining(l, questions + |batch|, |documents + Stored(batch)|) > 0
             && !Covered(pages, t, Cursor(number + 1, 0), done + Handled(t, number, offset, |batch|)))
            <==> (&& !ConsumesPage(page, offset, batch)
                  && CutByTarget(l, questions, documents)
                  && exists i :: 0 <= i < |batch| && AddsNothing(documents, batch, i))
  {
    hide Stored, Covered, Handled, Remaining, Questions, ConsumesPage, AddsNothing;
    NextPageIsCoveredIff(pages, t, number, offset, Remaining(l, questions, |documents|), done);
    GoesOnAfterCutIff(l, pages[number - 1], offset, questions, documents);
  }

  /** Whether a run from this cursor that is not interrupted leaves a question behind a saved cursor: pages are
      read while documents are wanted, and some page but the last one read is cut and gone past. `count` is
      the document count saved before, and `documents` what is stored. */
  function Loses(l: Limits, pages: seq<Page>, c: Cursor, questions: nat, count: nat,
                 documents: set<nat>, maxPages: nat): bool
    decreases maxPages
  {
    if maxPages == 0 || !(1 <= c.page <= |pages|) || Remaining(l, questions, count) == 0 then false
    else
      var page := pages[c.page - 1];
      var batch := Questions(page, c.offset, Remaining(l, questions, count));
      var after := documents + Stored(batch);
      if Remaining(l, questions + |batch|, |after|) == 0 || !page.hasMore then false
      else if !ConsumesPage(page, c.offset, batch) then maxPages > 1 && c.page < |pages|
      else Loses(l, pages, Cursor(c.page + 1, 0), questions + |batch|, |after|, after, maxPages - 1)
  }

  lemma {:induction false} IncrementalNeverLoses(l: Limits, pages: seq<Page>, c: Cursor, questions: nat,
                                                 count: nat, documents: set<nat>, maxPages: nat)
    requires l.mode == INCREMENTAL
    ensures !Loses(l, pages, c, questions, count, documents, maxPages)
    decreases maxPages
  {
    hide Stored;
    if maxPages > 0 && 1 <= c.page <= |pages| {
      var batch := Questions(pages[c.page - 1], c.offset, Remaining(l, questions, count));
      var after := documents + Stored(batch);
      IncrementalCutStops(l, pages[c.page - 1], c.offset, questions, count, |after|);
      IncrementalNeverLoses(l, pages, Cursor(c.page + 1, 0), questions + |batch|, |after|, after, maxPages - 1);
    }
  }

  /** Two documents are wanted; the first page holds three questions, of which the first is skipped. The batch
      takes two of them, one document is still wanted, the second page is read, and its checkpoint passes
      the third question, which nobody handled. */
  lemma InitialCutLosesAQuestion()
    ensures var l := Limits(INITIAL, 100, 2);
            var pages := [Page([Item(1, true), Item(2, false), Item(3, false)], true), Page([Item(4, false)], false)];
            var t := Traversal(INITIAL, 7);
            var done := Handled(t, 1, 0, 2) + Handled(t, 2, 0, 1);
            && Listing(pages) && Loses(l, pages, Cursor(1, 0), 0, 0, {}, 25)
            && !Covered(pages, t, Cursor(3, 0), done)
  {
    var l := Limits(INITIAL, 100, 2);
    var pages := [Page([Item(1, true), Item(2, false), Item(3, false)], true), Page([Item(4, false)], false)];
    var t := Traversal(INITIAL, 7);
    var batch := Questions(pages[0], 0, 2);
    assert batch == [Item(1, true), Item(2, false)];
    assert {} + Stored(batch) == {2};
    assert Exists(pages, 1, 2) && Precedes(1, 2, Cursor(3, 0));
    assert Position(t, 1, 2) !in Handled(t, 1, 0, 2) + Handled(t, 2, 0, 1);
  }

  lemma CutStops(l: Limits, page: Page, offset: nat, questions: nat, documentsCount: nat, newCount: nat)
    ensures var batch := Questions(page, offset, Remaining(l, questions, documentsCount));
            l.mode == INCREMENTAL && !ConsumesPage(page, offset, batch) ==>
                Remaining(l, questions + |batch|, newCount) == 0
  {
    if l.mode == INCREMENTAL { IncrementalCutStops(l, page, offset, questions, documentsCount, newCount); }
  }

  lemma NothingLost(l: Limits, pages: seq<Page>, c: Cursor, questions: nat, count: nat, documents: set<nat>,
          maxPages: nat)
    ensures maxPages == 0 || !(1 <= c.page <= |pages|) || Remaining(l, questions, count) == 0 ==>
              !Loses(l, pages, c, questions, count, documents, maxPages)
  {
  }

  lemma LosesStep(l: Limits, pages: seq<Page>, c: Cursor, questions: nat, count: nat, documents: set<nat>,
          maxPages: nat)
    requires maxPages > 0 && 1 <= c.page <= |pages| && Remaining(l, questions, count) > 0
    ensures var page := pages[c.page - 1];
            var batch := Questions(page, c.offset, Remaining(l, questions, count));
            var after := documents + Stored(batch);
            Loses(l, pages, c, questions, count, documents, maxPages) <==>
              if Remaining(l, questions + |batch|, |after|) == 0 || !page.hasMore then false
              else if !ConsumesPage(page, c.offset, batch) then maxPages > 1 && c.page < |pages|
              else Loses(l, pages, Cursor(c.page + 1, 0), questions + |batch|, |after|, after, maxPages - 1)
  {
    hide Stored, Questions;
  }

  // ---------- what was handled, and what was left ----------

  /** What is new belongs to this traversal and does not lie before the cursor. */
  ghost predicate OnlyFrom(before: set<Position>, after: set<Position>, t: Traversal, c: Cursor) {
    forall p :: p in after && p !in before ==> p.traversal == t && !Precedes(p.page, p.index, c)
  }

  ghost predicate OnlyBefore(done: set<Position>, t: Traversal, c: Cursor) {
    forall p :: p in done && p.traversal == t ==> Precedes(p.page, p.index, c)
  }

  /** What a run did: `cut` when a batch did not reach the end of its page, at question `index` of page `page`;
      `lost` when a cursor was saved after that. `unread` and `kept` say how the run began. */
  datatype Trace = Trace(cut: bool, lost: bool, page: nat, index: nat, unread: bool, kept: bool)

  function Other(mode: Mode): Mode { if mode == INITIAL then INCREMENTAL else INITIAL }

  lemma HandledFrom(start: set<Position>, before: set<Position>, after: set<Position>, t: Traversal, c: Cursor,
                    number: nat, offset: nat, n: nat)
    requires OnlyFrom(start, before, t, c) && after <= before + Handled(t, number, offset, n)
    requires c.page < number || (c.page == number && c.offset <= offset)
    ensures OnlyFrom(start, after, t, c)
  {
  }

  lemma FurtherStill(a: Cursor, b: Cursor)
    requires Advanced(a, b)
    ensures forall c {:trigger Advanced(b, c)} :: Advanced(b, c) ==> Advanced(a, c)
    ensures forall page: nat, index: nat {:trigger Precedes(page, index, b)} ::
              Precedes(page, index, a) ==> Precedes(page, index, b)
  {
  }

  lemma NotAhead(c: Cursor)
    ensures !Advanced(c, c)
  {
  }

  lemma OnlyFromIs(before: set<Position>, after: set<Position>, t: Traversal, c: Cursor)
    requires OnlyFrom(before, after, t, c)
    ensures forall p :: p in after && p !in before ==> p.traversal == t && !Precedes(p.page, p.index, c)
  {
  }

  lemma FirstIsHandled(t: Traversal, number: nat, offset: nat, n: nat)
    requires n > 0
    ensures Position(t, number, offset) in Handled(t, number, offset, n)
  {
  }

  lemma HandledBefore(before: set<Position>, after: set<Position>, t: Traversal, number: nat, offset: nat, n: nat)
    requires OnlyBefore(before, t, Cursor(number, offset)) && after <= before + Handled(t, number, offset, n)
    ensures OnlyBefore(after, t, Cursor(number + 1, 0))
  {
  }

  lemma CutLeaves(pages: seq<Page>, before: set<Position>, after: set<Position>, t: Traversal, number: nat, offset: nat,
                  remaining: nat, unread: bool)
    requires 1 <= number <= |pages| && (unread ==> OnlyBefore(before, t, Cursor(number, offset)))
    requires var batch := Questions(pages[number - 1], offset, remaining);
             !ConsumesPage(pages[number - 1], offset, batch) && after <= before + Handled(t, number, offset, |batch|)
    ensures var left := offset + |Questions(pages[number - 1], offset, remaining)|;
            Exists(pages, number, left) && (unread ==> Position(t, number, left) !in after)
  {
    hide Questions;
    if unread {
      assert Position(t, number, offset + |Questions(pages[number - 1], offset, remaining)|) !in before;
    }
  }

  lemma StillNotHandled(before: set<Position>, after: set<Position>, t: Traversal, page: nat, index: nat,
                        number: nat, offset: nat, n: nat)
    requires page < number && after <= before + Handled(t, number, offset, n)
    ensures Position(t, page, index) !in before ==> Position(t, page, index) !in after
  {
  }

  lemma NextPasses(page: nat, index: nat, p: Page, number: nat, offset: nat, batch: seq<Item>)
    requires page < number
    ensures Precedes(page, index, NextCursor(p, number, offset, batch))
  {
  }

  lemma FurtherOn(start: Cursor, number: nat, offset: nat, next: Cursor)
    requires start == Cursor(number, offset) || start.page < number
    ensures Advanced(Cursor(number, offset), next) ==> Advanced(start, next)
  {
  }

  lemma ConsumedPage(page: Page, number: nat, offset: nat, batch: seq<Item>)
    ensures ConsumesPage(page, offset, batch) ==> NextCursor(page, number, offset, batch) == Cursor(number + 1, 0)
  {
  }

  lemma WantedIff(l: Limits, questions: nat, count: nat)
    ensures Remaining(l, questions, count) > 0 <==>
        questions < l.maxDocuments && !(l.mode == INITIAL && count >= l.target)
  {
  }

  // ---------- the persisted state and the handler ----------

  /** job.checkpoint */
  datatype Checkpoint = Checkpoint(cursor: Cursor, todate: nat, questions: nat)

  /** The sync state row. */
  datatype Row = Row(mode: Option<Mode>, cursor: Cursor, todate: Option<nat>)

  datatype Outcome = Completed(syncComplete: bool, traversal: Traversal) | Interrupted

  class Sync {
    const listings: Listings
    var checkpoint: Option<Checkpoint>
    var row: Row
    var watermark: Option<nat>
    var documents: set<nat>
    var documentsCount: nat
    ghost var done: set<Position>
    /** Every watermark there ever was. */
    ghost var watermarks: set<nat>

    constructor (listings: Listings)
      ensures this.listings == listings && checkpoint == None && watermark == None
      ensures forall mode :: Placed(mode) && Kept(mode)
      ensures DoneIsStored() && WatermarksComplete()
    {
      this.listings := listings;
      checkpoint, row, watermark := None, Row(None, Cursor(1, 0), None), None;
      documents, documentsCount, done, watermarks := {}, 0, {}, {};
    }

    /** What is done and was not skipped has its document. */
    ghost predicate DoneIsStored()
      reads this`done, this`documents
    {
      forall t: Traversal, page: nat, index: nat {:trigger Position(t, page, index)} ::
        Position(t, page, index) in done && Exists(listings(t), page, index) ==>
          var q := listings(t)[page - 1].items[index];
          q.skipped || q.id in documents
    }

    /** Saved offsets point at questions of their pages. */
    ghost predicate Placed(mode: Mode)
      reads this`checkpoint, this`row
    {
      && (checkpoint.Some? ==> WellPlaced(listings(Traversal(mode, checkpoint.value.todate)), checkpoint.value.cursor))
      && (row.mode.Some? ==>
            row.todate.Some? && WellPlaced(listings(Traversal(row.mode.value, row.todate.value)), row.cursor))
    }

    ghost predicate CheckpointCovered(mode: Mode)
      reads this`checkpoint, this`done
    {
      checkpoint.Some? ==>
        var t := Traversal(mode, checkpoint.value.todate);
        Covered(listings(t), t, checkpoint.value.cursor, done)
    }

    /** The state row matters to the mode it was written in. */
    ghost predicate RowCovered(mode: Mode)
      reads this`row, this`done
    {
      row.mode == Some(mode) && row.todate.Some? ==>
        var t := Traversal(mode, row.todate.value);
        Covered(listings(t), t, row.cursor, done)
    }

    /** No saved cursor of this mode passes a question that was not handled. */
    ghost predicate Kept(mode: Mode)
      reads this`checkpoint, this`row, this`done
    {
      CheckpointCovered(mode) && RowCovered(mode)
    }

    /** Every watermark is a date whose whole listing was processed. */
    ghost predicate WatermarksComplete()
      reads this`watermark, this`watermarks, this`done
    {
      && (watermark.Some? ==> watermark.value in watermarks)
      && forall date :: date in watermarks ==>
           var t := Traversal(INCREMENTAL, date);
           Complete(listings(t), t, done)
    }

    twostate lemma HandlingKeeps()
      requires old(done) <= done
      requires unchanged(`checkpoint) && unchanged(`row) && unchanged(`watermark) && unchanged(`watermarks)
      ensures forall mode :: old(RowCovered(mode)) ==> RowCovered(mode)
      ensures forall mode :: old(Kept(mode)) ==> Kept(mode)
      ensures old(WatermarksComplete()) ==> WatermarksComplete()
    {
    }

    predicate Continues(mode: Mode)
      reads this`row
    {
      row.mode == Some(mode)
    }

    /** _start_page and _item_offset */
    function StartCursor(mode: Mode): Cursor
      reads this`checkpoint, this`row
    {
      if checkpoint.Some? then checkpoint.value.cursor
      else if Continues(mode) then row.cursor
      else Cursor(1, 0)
    }

    /** The state row names what the checkpoint names, so that the next job goes on from there. */
    predicate RowFollows(mode: Mode)
      reads this`checkpoint, this`row
    {
      checkpoint.Some? && row == Row(Some(mode), checkpoint.value.cursor, Some(checkpoint.value.todate))
    }

    /** The questions that the job has fetched before (_restore_counters). */
    function Fetched(): nat
      reads this`checkpoint
    {
      if checkpoint.Some? then checkpoint.value.questions else 0
    }

    /** _fixed_todate */
    function FixedTodate(mode: Mode, now: nat): nat
      reads this`checkpoint, this`row
    {
      if checkpoint.Some? then checkpoint.value.todate
      else if Continues(mode) && row.todate.Some? then row.todate.value
      else now
    }

    lemma StartIsCovered(mode: Mode, now: nat)
      requires Placed(mode)
      ensures var t := Traversal(mode, FixedTodate(mode, now));
              && WellPlaced(listings(t), StartCursor(mode)) && StartCursor(mode).page >= 1
              && (Kept(mode) ==> Covered(listings(t), t, StartCursor(mode), done))
    {
    }

    /** A run starts at the saved place: the job's own, or else that of a row of the same mode. */
    lemma StartsWhereSaved(mode: Mode, now: nat)
      requires Placed(mode)
      ensures checkpoint.Some? ==>
                && StartCursor(mode) == checkpoint.value.cursor && FixedTodate(mode, now) == checkpoint.value.todate
                && Fetched() == checkpoint.value.questions
      ensures checkpoint == None && row.mode == Some(mode) ==>
                && StartCursor(mode) == row.cursor && Some(FixedTodate(mode, now)) == row.todate && Fetched() == 0
      ensures checkpoint == None && row.mode != Some(mode) ==>
                && StartCursor(mode) == Cursor(1, 0) && FixedTodate(mode, now) == now && Fetched() == 0
    {
    }

    lemma FollowsIs(mode: Mode)
      ensures RowFollows(mode) ==> checkpoint.Some? && row.cursor == checkpoint.value.cursor
    {
    }

    lemma SavedIs(t: Traversal, start: Cursor, fetched: nat, maxDocuments: nat)
      requires SavedAhead(t, start, fetched, maxDocuments)
      ensures RowFollows(t.mode) && checkpoint.Some? && Advanced(start, checkpoint.value.cursor)
      ensures checkpoint.value.todate == t.todate && fetched < checkpoint.value.questions <= maxDocuments
      ensures row == Row(Some(t.mode), checkpoint.value.cursor, Some(t.todate))
    {
    }

    /** _ingest_one in its own transaction, or _record_ingestion_skip. */
    method IngestOrSkip(t: Traversal, number: nat, index: nat, q: Item)
      requires Exists(listings(t), number, index) && q == listings(t)[number - 1].items[index]
      modifies this`documents, this`done
      ensures documents == old(documents) + (if q.skipped then {} else {q.id})
      ensures done == old(done) + {Position(t, number, index)}
      ensures old(DoneIsStored()) ==> DoneIsStored()
    {
      if !q.skipped {
        documents := documents + {q.id};
      }
      done := done + {Position(t, number, index)};
    }

    /** _process_batch: the questions commit one by one; the process may stop between any two. */
    method ProcessBatch(t: Traversal, number: nat, offset: nat, questions: seq<Item>) returns (stopped: bool)
      requires 1 <= number <= |listings(t)| && offset + |questions| <= |listings(t)[number - 1].items|
      requires questions == listings(t)[number - 1].items[offset..offset + |questions|]
      modifies this`documents, this`done
      ensures old(done) <= done <= old(done) + Handled(t, number, offset, |questions|)
      ensures !stopped ==> done == old(done) + Handled(t, number, offset, |questions|)
      ensures stopped ==> exists k :: 0 <= k < |questions| && done == old(done) + Handled(t, number, offset, k)
      ensures !stopped ==> documents == old(documents) + Stored(questions)
      ensures old(DoneIsStored()) ==> DoneIsStored()
    {
      hide DoneIsStored, Stored;
      var k := 0;
      StoredNothing();
      while k < |questions|
        invariant 0 <= k <= |questions|
        invariant done == old(done) + Handled(t, number, offset, k)
        invariant documents == old(documents) + Stored(questions[..k])
        invariant old(DoneIsStored()) ==> DoneIsStored()
      {
        if * { return true; }
        assert questions[..k + 1] == questions[..k] + [questions[k]];
        StoredSnoc(questions[..k], questions[k]);
        IngestOrSkip(t, number, offset + k, questions[k]);
        k := k + 1;
      }
      assert questions[..k] == questions;
      stopped := false;
    }

    /** _save_checkpoint: the job's checkpoint, the state row and the document count in one transaction. */
    method SaveCheckpoint(t: Traversal, cursor: Cursor, questions: nat)
      modifies this`checkpoint, this`row, this`documentsCount
      ensures checkpoint == Some(Checkpoint(cursor, t.todate, questions))
      ensures RowFollows(t.mode)
      ensures documentsCount == |documents|
      ensures WellPlaced(listings(t), cursor) ==> Placed(t.mode)
      ensures Kept(t.mode) <==> Covered(listings(t), t, cursor, done)
      ensures forall mode :: mode != t.mode ==> RowCovered(mode)
    {
      checkpoint := Some(Checkpoint(cursor, t.todate, questions));
      row := Row(Some(t.mode), cursor, Some(t.todate));
      documentsCount := |documents|;
    }

    /** The batch of one page and then its checkpoint; the process may stop before the batch is whole, and
        between the two. Stopped, it has saved nothing. */
    method CommitBatch(t: Traversal, number: nat, offset: nat, remaining: nat, questions: nat) returns (stopped: bool)
      requires DoneIsStored() && WatermarksComplete() && Placed(t.mode) && 1 <= number <= |listings(t)|
      requires Questions(listings(t)[number - 1], offset, remaining) != []
      modifies this`documents, this`done, this`checkpoint, this`row, this`documentsCount
      ensures DoneIsStored() && WatermarksComplete() && Placed(t.mode)
      ensures forall mode :: mode != t.mode && old(RowCovered(mode)) ==> RowCovered(mode)
      ensures stopped ==> checkpoint == old(checkpoint) && row == old(row) && (old(Kept(t.mode)) ==> Kept(t.mode))
      ensures var page := listings(t)[number - 1];
              var batch := Questions(page, offset, remaining);
              var next := NextCursor(page, number, offset, batch);
              && old(done) <= done <= old(done) + Handled(t, number, offset, |batch|)
              && Advanced(Cursor(number, offset), next)
              && (!stopped ==>
                    && done == old(done) + Handled(t, number, offset, |batch|)
                    && documents == old(documents) + Stored(batch) && documentsCount == |documents|
                    && checkpoint == Some(Checkpoint(next, t.todate, questions)) && RowFollows(t.mode)
                    && (Kept(t.mode) <==> Covered(listings(t), t, next, done))
                    && (old(Covered(listings(t), t, Cursor(number, offset), done)) ==>
                        Covered(listings(t), t, next, done)))
    {
      hide WellPlaced, Advanced, NextCursor, Covered, Handled, Stored, Questions, DoneIsStored, Placed;
      hide Kept, RowCovered, WatermarksComplete;
      var page := listings(t)[number - 1];
      var batch := Questions(page, offset, remaining);
      QuestionsOfThePage(page, offset, remaining);
      NextIsAhead(listings(t), number, offset, remaining);
      stopped := ProcessBatch(t, number, offset, batch);
      HandlingKeeps();
      if stopped { return; }
      if * { return true; }
      if old(Covered(listings(t), t, Cursor(number, offset), done)) {
        SavedCursorIsCovered(listings(t), t, number, offset, remaining, old(done));
      }
      SaveCheckpoint(t, NextCursor(page, number, offset, batch), questions);
    }

    /** None of the traversal's questions from the start cursor on was handled before. */
    ghost predicate Unread(mode: Mode, now: nat)
      reads this`checkpoint, this`row, this`done
    {
      OnlyBefore(done, Traversal(mode, FixedTodate(mode, now)), StartCursor(mode))
    }

    /** What every step keeps, whether or not questions were lost. */
    ghost predicate Steady(t: Traversal, start: Cursor, before: set<Position>, otherKept: bool)
      reads this
    {
      && Placed(t.mode) && DoneIsStored() && WatermarksComplete()
      && before <= done && OnlyFrom(before, done, t, start)
      && (otherKept ==> RowCovered(Other(t.mode)))
    }

    /** While no cut was gone past the saved cursors are as good as they were; after that they are not. */
    ghost predicate Tracked(t: Traversal, g: Trace)
      reads this
    {
      && (g.lost ==> g.cut)
      && (g.kept && !g.lost ==> Kept(t.mode))
      && (g.cut ==> Exists(listings(t), g.page, g.index) && (g.unread ==> Position(t, g.page, g.index) !in done))
      && (g.lost ==>
            checkpoint.Some? && checkpoint.value.todate == t.todate
                && Precedes(g.page, g.index, checkpoint.value.cursor))
    }

    /** What a run saves lies ahead of its start, for the same traversal, and counts what the job has fetched. */
    ghost predicate SavedAhead(t: Traversal, start: Cursor, fetched: nat, maxDocuments: nat)
      reads this`checkpoint, this`row
    {
      && RowFollows(t.mode) && Advanced(start, checkpoint.value.cursor) && checkpoint.value.todate == t.todate
      && fetched < checkpoint.value.questions <= maxDocuments
    }

    /** The iterator stands at this cursor. */
    ghost predicate AtCursor(t: Traversal, g: Trace, c: Cursor)
      reads this`done
    {
      && (g.cut ==> g.page < c.page)
      && (g.kept && !g.cut ==> Covered(listings(t), t, c, done))
      && (g.unread ==> OnlyBefore(done, t, c))
    }

    /** One page: its batch, its checkpoint, and what they mean for the cursors. */
    method CommitPage(t: Traversal, start: Cursor, number: nat, offset: nat, remaining: nat, questions: nat,
                      ghost before: set<Position>, ghost otherKept: bool, ghost g: Trace)
      returns (stopped: bool, ghost h: Trace)
      requires Steady(t, start, before, otherKept) && Tracked(t, g) && AtCursor(t, g, Cursor(number, offset))
      requires 1 <= number <= |listings(t)| && (start == Cursor(number, offset) || start.page < number)
      requires Questions(listings(t)[number - 1], offset, remaining) != []
      modifies this`documents, this`done, this`checkpoint, this`row, this`documentsCount
      ensures Steady(t, start, before, otherKept) && Tracked(t, h)
      ensures h.kept == g.kept && h.unread == g.unread
      ensures old(done) <= done
      ensures stopped ==> h == g && checkpoint == old(checkpoint) && row == old(row)
      ensures !stopped ==>
                var page := listings(t)[number - 1];
                var batch := Questions(page, offset, remaining);
                && AtCursor(t, h, Cursor(number + 1, 0))
                && h.lost == g.cut && h.cut == (g.cut || !ConsumesPage(page, offset, batch))
                && documents == old(documents) + Stored(batch) && documentsCount == |documents|
                && RowFollows(t.mode) && Advanced(start, row.cursor)
                && checkpoint == Some(Checkpoint(NextCursor(page, number, offset, batch), t.todate, questions))
                && Position(t, number, offset) in done
    {
      hide WellPlaced, Covered, Handled, Stored, Questions, DoneIsStored, Placed, NextCursor, ConsumesPage;
      hide Kept, RowCovered, WatermarksComplete, OnlyFrom, OnlyBefore, Precedes, Advanced;
      var page := listings(t)[number - 1];
      ghost var batch, was := Questions(page, offset, remaining), done;
      FirstIsHandled(t, number, offset, |batch|);
      stopped := CommitBatch(t, number, offset, remaining, questions);
      HandledFrom(before, was, done, t, start, number, offset, |batch|);
      if g.unread { HandledBefore(was, done, t, number, offset, |batch|); }
      if g.cut { StillNotHandled(was, done, t, g.page, g.index, number, offset, |batch|); }
      h := g;
      if stopped { return; }
      FurtherOn(start, number, offset, row.cursor);
      ConsumedPage(page, number, offset, batch);
      if g.cut {
        NextPasses(g.page, g.index, page, number, offset, batch);
        h := g.(lost := true);
      } else if !ConsumesPage(page, offset, batch) {
        CutLeaves(listings(t), was, done, t, number, offset, remaining, g.unread);
        h := g.(cut := true, page := number, index := offset + |batch|);
      }
    }

    /** SourceSyncHandler.run. `lost` reports that a cursor was saved which passes a question left behind by a
        cut. Every `*` is a crash, a cancel, a shutdown or a failing request. */
    method Run(l: Limits, maxPages: nat, now: nat) returns (outcome: Outcome, ghost lost: bool)
      requires Placed(l.mode) && DoneIsStored() && WatermarksComplete() && maxPages >= 1
      requires forall t :: Listing(listings(t))
      modifies this`checkpoint, this`row, this`documents, this`documentsCount, this`done
      ensures Placed(l.mode) && DoneIsStored() && WatermarksComplete()
      ensures old(done) <= done
      ensures OnlyFrom(old(done), done, Traversal(l.mode, old(FixedTodate(l.mode, now))), old(StartCursor(l.mode)))
      ensures old(RowCovered(Other(l.mode))) ==> RowCovered(Other(l.mode))
      ensures l.mode == INCREMENTAL ==> !lost
      ensures old(Kept(l.mode)) && !lost ==> Kept(l.mode)
      ensures old(Unread(l.mode, now)) && lost ==> !Kept(l.mode)
      ensures outcome.Completed? ==>
                && outcome.traversal == Traversal(l.mode, old(FixedTodate(l.mode, now)))
                && (lost <==> Loses(l, listings(outcome.traversal), old(StartCursor(l.mode)), old(Fetched()),
                                    old(documentsCount), old(documents), maxPages))
      ensures outcome.Completed? && old(Kept(l.mode)) && old(Unread(l.mode, now)) ==>
                (Kept(l.mode) <==> !Loses(l, listings(outcome.traversal), old(StartCursor(l.mode)), old(Fetched()),
                                          old(documentsCount), old(documents), maxPages))
      ensures outcome.Completed? && outcome.syncComplete && old(Kept(l.mode)) && !lost ==>
                || Complete(listings(outcome.traversal), outcome.traversal, done)
                || (l.mode == INITIAL && documentsCount >= l.target)
      // The run goes on where the checkpoint, or else a row of the same mode, says, with the same traversal;
      // otherwise it begins with the first question of a new one.
      ensures old(checkpoint).Some? ==>
                forall p :: p in done && p !in old(done) ==>
                  && p.traversal == Traversal(l.mode, old(checkpoint).value.todate)
                  && !Precedes(p.page, p.index, old(checkpoint).value.cursor)
      ensures old(checkpoint) == None && old(row).mode == Some(l.mode) ==>
                forall p :: p in done && p !in old(done) ==>
                  && Some(p.traversal.todate) == old(row).todate && p.traversal.mode == l.mode
                  && !Precedes(p.page, p.index, old(row).cursor)
      ensures old(checkpoint) == None && old(row).mode != Some(l.mode) ==>
                && (forall p :: p in done && p !in old(done) ==> p.traversal == Traversal(l.mode, now))
                && (&& outcome.Completed? && l.maxDocuments > 0
                    && !(l.mode == INITIAL && old(documentsCount) >= l.target)
                    && listings(Traversal(l.mode, now)) != []
                    ==> Position(Traversal(l.mode, now), 1, 0) in done)
      // What it saves is ahead of that, and counts on from the questions fetched before.
      ensures (checkpoint == old(checkpoint) && row == old(row))
              || (&& RowFollows(l.mode) && checkpoint.value.questions <= l.maxDocuments
                  && (old(checkpoint).Some? ==>
                        && Advanced(old(checkpoint).value.cursor, checkpoint.value.cursor)
                        && checkpoint.value.todate == old(checkpoint).value.todate
                        && checkpoint.value.questions > old(checkpoint).value.questions)
                  && (old(checkpoint) == None && old(row).mode == Some(l.mode) ==>
                        && Advanced(old(row).cursor, checkpoint.value.cursor)
                        && Some(checkpoint.value.todate) == old(row).todate))
      // It says that the source is complete exactly when the target is reached, or it went behind the last page, or
      // stood there from the beginning.
      ensures outcome.Completed?
              && (if old(checkpoint).Some? then old(checkpoint).value.questions else 0) < l.maxDocuments ==>
                var pages := listings(outcome.traversal);
                (outcome.syncComplete <==>
                   || (l.mode == INITIAL && documentsCount >= l.target)
                   || old(StartCursor(l.mode)).page > |pages|
                   || (checkpoint.Some? && checkpoint != old(checkpoint) && AtLastEnd(pages, checkpoint.value.cursor)))
      // An uninterrupted run that is not complete has saved something, unless the job has no documents left.
      ensures outcome.Completed? && !outcome.syncComplete
              && (if old(checkpoint).Some? then old(checkpoint).value.questions else 0) < l.maxDocuments ==>
                RowFollows(l.mode) && checkpoint != old(checkpoint)
    {
      hide *;
      var t := Traversal(l.mode, FixedTodate(l.mode, now));
      var start := StartCursor(l.mode);
      var questions: nat := Fetched();
      StartIsCovered(l.mode, now);
      StartsWhereSaved(l.mode, now);
      ghost var fetched := questions;
      ghost var g := Trace(false, false, 0, 0, Unread(l.mode, now), Kept(l.mode));
      ghost var before, otherKept := done, RowCovered(Other(l.mode));
      AtTheStart(t, start, before, otherKept, g, now);
      WantedIff(l, questions, documentsCount);
      NothingLost(l, listings(t), start, questions, documentsCount, documents, maxPages);
      var stopped, traversalComplete := false, false;
      ghost var read := false;
      if l.mode == INITIAL && documentsCount >= l.target {
        traversalComplete := true;
      } else if questions < l.maxDocuments {
        stopped, traversalComplete, g := ReadPages(l, t, start, questions, maxPages, before, otherKept, g);
        read := !stopped;
      }
      lost := g.lost;
      SteadyIs(t, start, before, otherKept, g);
      OnlyFromIs(before, done, t, start);
      NotAhead(start);
      FollowsIs(l.mode);
      if checkpoint != old(checkpoint) || row != old(row) || (read && start.page <= |listings(t)|) {
        SavedIs(t, start, fetched, l.maxDocuments);
      }
      if stopped { return Interrupted, lost; }
      if * { return Interrupted, lost; }
      var syncComplete := traversalComplete || (l.mode == INITIAL && documentsCount >= l.target);
      outcome := Completed(syncComplete, t);
    }

    /** The loop over the pages, as far as it gets; an interrupted one says nothing of completeness. */
    method ReadPages(l: Limits, t: Traversal, start: Cursor, fetched: nat, maxPages: nat,
                     ghost before: set<Position>, ghost otherKept: bool, ghost first: Trace)
      returns (stopped: bool, traversalComplete: bool, ghost g: Trace)
      requires l.mode == t.mode && maxPages >= 1 && Listing(listings(t)) && WellPlaced(listings(t), start)
          && start.page >= 1
      requires Steady(t, start, before, otherKept) && Tracked(t, first) && AtCursor(t, first, start) && !first.cut
          && !first.lost
      requires Remaining(l, fetched, documentsCount) > 0 && fetched < l.maxDocuments
      modifies this`checkpoint, this`row, this`documents, this`documentsCount, this`done
      ensures Steady(t, start, before, otherKept) && Tracked(t, g)
      ensures g.kept == first.kept && g.unread == first.unread && (l.mode == INCREMENTAL ==> !g.lost)
      ensures !stopped ==>
                (g.lost <==> Loses(l, listings(t), start, fetched, old(documentsCount), old(documents), maxPages))
      ensures !stopped && traversalComplete && g.kept && !g.lost ==> Complete(listings(t), t, done)
      ensures !stopped && !traversalComplete ==> RowFollows(l.mode) && Advanced(start, row.cursor)
      ensures (checkpoint == old(checkpoint) && row == old(row)) || SavedAhead(t, start, fetched, l.maxDocuments)
      ensures !stopped && start.page > |listings(t)| ==>
                traversalComplete && checkpoint == old(checkpoint) && row == old(row)
      ensures !stopped && start.page <= |listings(t)| ==>
                && SavedAhead(t, start, fetched, l.maxDocuments)
                && (traversalComplete <==> AtLastEnd(listings(t), checkpoint.value.cursor))
      ensures !stopped && start.page <= |listings(t)| ==> Position(t, start.page, start.offset) in done
    {
      hide Listing, Stored, Questions, Loses, Remaining, WellPlaced, Complete, Covered, Placed, Kept, OnlyBefore;
      hide Steady, Tracked, AtCursor, ConsumesPage, Advanced;
      var pages, questions: nat := listings(t), fetched;
      ghost var predicted := Loses(l, pages, start, questions, documentsCount, documents, maxPages);
      var yieldedPage, lastHasMore, exhausted := false, false, false;
      stopped, traversalComplete, g := false, false, first;
      var cursor, emitted: nat := start, 0;
      while emitted < maxPages && !exhausted
        invariant !stopped && emitted <= maxPages && WellPlaced(pages, cursor) && cursor.page >= 1
        invariant if emitted == 0 then cursor == start else start.page < cursor.page
        invariant Steady(t, start, before, otherKept) && Tracked(t, g)
        invariant g.kept == first.kept && g.unread == first.unread && (g.lost ==> g.cut)
        invariant !exhausted ==> AtCursor(t, g, cursor) && Remaining(l, questions, documentsCount) > 0
        invariant yieldedPage <==> emitted > 0
        invariant fetched <= questions <= l.maxDocuments && (yieldedPage ==> questions > fetched)
        invariant if yieldedPage
                  then SavedAhead(t, start, fetched, l.maxDocuments) && checkpoint.value.questions == questions
                  else checkpoint == old(checkpoint) && row == old(row)
        invariant yieldedPage ==> Position(t, start.page, start.offset) in done
        invariant yieldedPage ==> (!lastHasMore <==> AtLastEnd(pages, checkpoint.value.cursor))
        invariant traversalComplete ==> yieldedPage && !lastHasMore
        invariant start.page > |pages| ==> !yieldedPage
        invariant if yieldedPage then RowFollows(l.mode) && Advanced(start, row.cursor)
                  else questions == fetched && !g.cut && !exhausted
        invariant l.mode == INCREMENTAL ==> !g.lost && (g.cut ==> exhausted)
        invariant !g.cut && !exhausted ==>
            predicted == Loses(l, pages, cursor, questions, documentsCount, documents, maxPages - emitted)
        invariant !g.cut && exhausted ==> !predicted
        invariant g.cut && !g.lost ==> (predicted <==> !exhausted && emitted < maxPages && cursor.page <= |pages|)
        invariant g.lost ==> predicted
        invariant g.cut && !g.lost ==> !traversalComplete && lastHasMore
        invariant g.kept && !g.cut && (traversalComplete || (yieldedPage && !lastHasMore)) ==> Complete(pages, t, done)
        decreases maxPages - emitted, !exhausted
      {
        NothingLost(l, pages, cursor, questions, documentsCount, documents, maxPages - emitted);
        if cursor.page > |pages| {
          AtTheEnd(t, g, cursor);
          break;
        }
        var page := pages[cursor.page - 1];
        LastPage(pages, cursor.page);
        if * {
          stopped := true;
          return;
        }
        var remaining := Remaining(l, questions, documentsCount);
        var batch := Questions(page, cursor.offset, remaining);
        BatchIsNotEmpty(pages, cursor.page, cursor.offset, remaining);
        if remaining == 0 || batch == [] {
          // The program would stop here, or skip the page. Before the first page, and after every other, it
          // has made sure that documents are wanted, and a saved offset always names a question.
          assert false;
        }
        LosesStep(l, pages, cursor, questions, documentsCount, documents, maxPages - emitted);
        var consumedPage := ConsumesPage(page, cursor.offset, batch);
        CutStops(l, page, cursor.offset, questions, documentsCount, |documents + Stored(batch)|);
        BatchIsWanted(l, page, cursor.offset, questions, documentsCount);
        stopped, g :=
          CommitPage(t, start, cursor.page, cursor.offset, remaining, questions + |batch|, before, otherKept, g);
        if stopped { return; }
        yieldedPage := true;
        lastHasMore := page.hasMore || !consumedPage;
        questions := questions + |batch|;
        traversalComplete := !page.hasMore && consumedPage;
        EndOfLast(pages, cursor.page, cursor.offset, batch);
        cursor := Cursor(cursor.page + 1, 0);
        if traversalComplete { AtTheEnd(t, g, cursor); }
        exhausted := Remaining(l, questions, documentsCount) == 0 || !page.hasMore;
        emitted := emitted + 1;
        FirstOfPage(pages, cursor.page);
      }
      NothingLost(l, pages, cursor, questions, documentsCount, documents, maxPages - emitted);
      if !yieldedPage && questions < l.maxDocuments {
        traversalComplete := true;
      } else if yieldedPage && !lastHasMore {
        traversalComplete := true;
      }
    }

    lemma AtTheStart(t: Traversal, start: Cursor, before: set<Position>, otherKept: bool, g: Trace, now: nat)
      requires t == Traversal(t.mode, FixedTodate(t.mode, now)) && start == StartCursor(t.mode)
      requires Placed(t.mode) && DoneIsStored() && WatermarksComplete()
      requires before == done && otherKept == RowCovered(Other(t.mode))
      requires !g.cut && !g.lost && g.kept == Kept(t.mode)
      requires g.unread == Unread(t.mode, now)
      requires g.kept ==> Covered(listings(t), t, start, done)
      ensures Steady(t, start, before, otherKept) && Tracked(t, g) && AtCursor(t, g, start)
    {
      hide Covered, OnlyBefore, Kept, RowCovered;
    }

    lemma AtTheEnd(t: Traversal, g: Trace, c: Cursor)
      requires AtCursor(t, g, c) && c.page > |listings(t)|
      ensures g.kept && !g.cut ==> Complete(listings(t), t, done)
    {
      hide Complete, Covered;
      if g.kept && !g.cut { WholeIsComplete(listings(t), t, c, done); }
    }

    lemma SteadyIs(t: Traversal, start: Cursor, before: set<Position>, otherKept: bool, g: Trace)
      requires Steady(t, start, before, otherKept) && Tracked(t, g)
      ensures Placed(t.mode) && DoneIsStored() && WatermarksComplete()
      ensures before <= done && OnlyFrom(before, done, t, start)
      ensures otherKept ==> RowCovered(Other(t.mode))
      ensures g.kept && !g.lost ==> Kept(t.mode)
      ensures g.unread && g.lost ==> !Kept(t.mode)
    {
    }

    /** WorkerRunner._finalize and _update_sync_completion. An interrupted job keeps its checkpoint when it
        is queued again; any other end leaves the next job without one. */
    method Finalize(outcome: Outcome, requeued: bool)
      modifies this`checkpoint, this`row, this`watermark, this`watermarks
      ensures outcome.Interrupted? && requeued ==> checkpoint == old(checkpoint)
      ensures !(outcome.Interrupted? && requeued) ==> checkpoint == None
      ensures if outcome.Completed? && outcome.syncComplete && outcome.traversal.mode == INCREMENTAL
              then watermark == Some(outcome.traversal.todate) && watermarks == old(watermarks) + {watermark.value}
              else watermark == old(watermark) && watermarks == old(watermarks)
      ensures outcome.Completed? && outcome.syncComplete ==>
          row == Row(None, Cursor(1, 0), Some(outcome.traversal.todate))
      ensures !(outcome.Completed? && outcome.syncComplete) ==> row == old(row)
      ensures old(watermarks) <= watermarks
      ensures old(WatermarksComplete())
              && (outcome.Completed? && outcome.syncComplete && outcome.traversal.mode == INCREMENTAL ==>
                    Complete(listings(outcome.traversal), outcome.traversal, done))
              ==> WatermarksComplete()
      ensures forall mode :: old(Placed(mode)) ==> Placed(mode)
      ensures forall mode :: old(RowCovered(mode)) ==> RowCovered(mode)
      ensures forall mode :: old(Kept(mode)) ==> Kept(mode)
    {
      hide Covered, Complete, WellPlaced;
      if outcome.Interrupted? {
        if !requeued { checkpoint := None; }
        return;
      }
      checkpoint := None;
      if outcome.syncComplete {
        if outcome.traversal.mode == INCREMENTAL {
          watermark := Some(outcome.traversal.todate);
          watermarks := watermarks + {outcome.traversal.todate};
        }
        row := Row(None, Cursor(1, 0), Some(outcome.traversal.todate));
      }
    }

    /** Between two jobs: no checkpoint, and no saved incremental cursor passes a question. */
    ghost predicate Ready()
      reads this
    {
      checkpoint == None && Placed(INCREMENTAL) && RowCovered(INCREMENTAL) && DoneIsStored() && WatermarksComplete()
    }

    /** One job over all its attempts; a job that is not queued again is over. */
    method RunJob(l: Limits, maxPages: nat, attempts: nat) returns (outcome: Outcome)
      requires Ready() && maxPages >= 1
      requires forall t :: Listing(listings(t))
      modifies this
      ensures Ready()
      ensures old(watermarks) <= watermarks && old(done) <= done
      // The last attempt decides: the watermark moves with a complete incremental traversal, the row starts afresh
      // with any complete one.
      ensures outcome.Completed? && outcome.syncComplete ==>
                && row == Row(None, Cursor(1, 0), Some(outcome.traversal.todate))
                && (l.mode == INCREMENTAL ==> watermark == Some(outcome.traversal.todate))
      ensures !(outcome.Completed? && outcome.syncComplete && l.mode == INCREMENTAL) ==> watermark == old(watermark)
      // A job of the row's mode goes on from the row, over all attempts, and leaves a row no further back.
      ensures old(row).mode == Some(l.mode) ==>
                forall p :: p in done && p !in old(done) ==>
                  && p.traversal.mode == l.mode && Some(p.traversal.todate) == old(row).todate
                  && !Precedes(p.page, p.index, old(row).cursor)
      ensures old(row).mode == Some(l.mode) && row.mode.Some? ==>
                && row.mode == Some(l.mode) && row.todate == old(row).todate
                && (row.cursor == old(row).cursor || Advanced(old(row).cursor, row.cursor))
    {
      hide Advanced, Precedes, Fetched, StartCursor;
      hide RowCovered, DoneIsStored, WatermarksComplete, Complete, Covered, Listing, Unread, OnlyFrom, Loses,
              WellPlaced;
      NoCheckpoint(l.mode);
      outcome := Interrupted;
      var n := 0;
      while n < attempts
        invariant outcome == Interrupted && watermark == old(watermark)
        invariant Placed(l.mode) && DoneIsStored() && WatermarksComplete() && RowCovered(INCREMENTAL)
        invariant l.mode == INCREMENTAL ==> Kept(INCREMENTAL)
        invariant old(watermarks) <= watermarks && old(done) <= done
        invariant (checkpoint == None && row == old(row)) || RowFollows(l.mode)
        invariant old(row).mode == Some(l.mode) && checkpoint.Some? ==>
            Some(checkpoint.value.todate) == old(row).todate && Advanced(old(row).cursor, checkpoint.value.cursor)
        invariant old(row).mode == Some(l.mode) ==>
            forall p :: p in done && p !in old(done) ==>
              && p.traversal.mode == l.mode && Some(p.traversal.todate) == old(row).todate
              && !Precedes(p.page, p.index, old(row).cursor)
      {
        var now: nat, requeued: bool := *, *;
        ghost var saved := checkpoint;
        ghost var lost;
        outcome, lost := Run(l, maxPages, now);
        if old(row).mode == Some(l.mode) && saved.Some? {
          FurtherStill(old(row).cursor, saved.value.cursor);
        }
        Finalize(outcome, requeued);
        if !(outcome.Interrupted? && requeued) { break; }
        n := n + 1;
      }
      Finalize(Interrupted, false);
      NoCheckpoint(INCREMENTAL);
    }

    /** Without a checkpoint the mode of the next job does not matter. */
    lemma NoCheckpoint(mode: Mode)
      requires checkpoint == None
      ensures forall m :: Placed(m) <==> Placed(mode)
      ensures Kept(mode) <==> RowCovered(mode)
    {
    }
  }

  /** Any history of jobs in either mode, each with its own limits and clock and any number of attempts, and
      also when initial jobs lose questions: every question of every listing that a watermark ever stood for
      was skipped or has its document. */
  method MixedHistory(s: Sync, jobs: nat)
    requires s.Ready()
    requires forall t :: Listing(s.listings(t))
    modifies s
    ensures s.Ready() && old(s.watermarks) <= s.watermarks
    ensures forall date :: date in s.watermarks ==>
              var pages := s.listings(Traversal(INCREMENTAL, date));
              forall page: nat, index: nat :: Exists(pages, page, index) ==>
                var q := pages[page - 1].items[index];
                q.skipped || q.id in s.documents
  {
    var k := 0;
    while k < jobs
      invariant s.Ready() && old(s.watermarks) <= s.watermarks
    {
      hide *;
      var mode: Mode, maxDocuments: nat, target: nat, maxPages: nat, attempts: nat := *, *, *, *, *;
      if maxPages >= 1 {
        var outcome := s.RunJob(Limits(mode, maxDocuments, target), maxPages, attempts);
      }
      k := k + 1;
    }
    forall date, page: nat, index: nat | date in s.watermarks
        && Exists(s.listings(Traversal(INCREMENTAL, date)), page, index)
      ensures var q := s.listings(Traversal(INCREMENTAL, date))[page - 1].items[index]; q.skipped || q.id in s.documents
    {
      assert Position(Traversal(INCREMENTAL, date), page, index) in s.done;
    }
  }
}
