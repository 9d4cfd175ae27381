/** Reindexing one document in the active version: its points in Qdrant, its entries in PostgreSQL, and
    the counters of the version, kept by deltas. */
module DocumentReindex {
  import opened Common

  /** A chunk belongs to its document for good; replacing chunks makes new ones. */
  datatype ChunkId = ChunkId(document: nat, serial: nat)

  datatype Status = PENDING | INDEXED | FAILED | REMOVED

  /** stable_point_id, and the document in the payload. */
  datatype Point = Point(chunk: ChunkId, documentVersion: nat, contentHash: nat)

  datatype IndexStatus = READY | PENDING_INDEX | FAILED_INDEX | NOT_INDEXED | OUTDATED

  /** `shown` is the index status of each document; this job writes the two columns of it together. */
  datatype Index = Index(
    entries: map<ChunkId, Status>, points: set<Point>, pointCount: nat, eligibleCount: nat,
    shown: map<nat, IndexStatus>)

  datatype DocumentStatus = ACTIVE | HIDDEN | WAITING | BROKEN | STALE

  datatype Deduplication = UNIQUE | EXACT_DUPLICATE | POSSIBLE_DUPLICATE

  /** A document with its chunk rows. `chunked` is processing_status == CHUNKED, `failed` says that there is a
      processing error. WAITING, BROKEN and STALE are the program's PENDING, FAILED and OUTDATED. */
  datatype Document = Document(version: nat, chunked: bool, status: DocumentStatus, deduplication: Deduplication,
                               failed: bool, chunks: map<ChunkId, Chunk>)

  datatype Chunk = Chunk(documentVersion: nat, contentHash: nat, blankText: bool, blankContext: bool)

  /** document_is_eligible; `possible` is the setting that admits possible duplicates. */
  predicate Listed(d: Document, possible: bool) {
    && d.chunked && !d.failed
    && d.status in {ACTIVE, STALE}
    && d.deduplication in (if possible then {UNIQUE, POSSIBLE_DUPLICATE} else {UNIQUE})
  }

  /** chunk_is_eligible */
  function EligibleChunks(d: Document, possible: bool): set<ChunkId> {
    set c | c in d.chunks && Listed(d, possible) && d.chunks[c].documentVersion == d.version
            && !d.chunks[c].blankText && !d.chunks[c].blankContext
  }

  /** _prepare_points */
  function PreparedPoints(d: Document, possible: bool): set<Point> {
    set c | c in EligibleChunks(d, possible) :: Point(c, d.version, d.chunks[c].contentHash)
  }

  predicate Owns(document: nat, d: Document) {
    forall c :: c in d.chunks ==> c.document == document
  }

  function IndexedChunks(entries: map<ChunkId, Status>): set<ChunkId> {
    set c | c in entries && entries[c] == INDEXED
  }

  /** _indexed_document_entry_count */
  function IndexedOf(entries: map<ChunkId, Status>, document: nat): set<ChunkId> {
    set c | c in entries && entries[c] == INDEXED && c.document == document
  }

  function PointsOf(points: set<Point>, document: nat): set<Point> {
    set p | p in points && p.chunk.document == document
  }

  /** The points prepared for a document: one for each of its eligible chunks. */
  predicate Prepared(prepared: set<Point>, document: nat) {
    && (forall p :: p in prepared ==> p.chunk.document == document)
    && (forall p, q :: p in prepared && q in prepared && p.chunk == q.chunk ==> p == q)
  }

  function ChunksOf(prepared: set<Point>): set<ChunkId> {
    set p | p in prepared :: p.chunk
  }

  lemma PreparedOfEligible(d: Document, document: nat, possible: bool)
    requires Owns(document, d)
    ensures Prepared(PreparedPoints(d, possible), document)
    ensures ChunksOf(PreparedPoints(d, possible)) == EligibleChunks(d, possible)
    ensures PreparedPoints(d, possible) == {} <==> EligibleChunks(d, possible) == {}
  {
    hide Listed;
    var points := PreparedPoints(d, possible);
    forall c | c in EligibleChunks(d, possible) ensures c in ChunksOf(points) {
      assert Point(c, d.version, d.chunks[c].contentHash) in points;
    }
  }

  /** A chunk row of the document's version, neither blank nor without context, of a document that is searchable,
      has its one point; and nothing else has one. */
  lemma EligibleArePrepared(d: Document, possible: bool)
    ensures forall p :: p in PreparedPoints(d, possible) <==>
              && p.chunk in d.chunks && p == Point(p.chunk, d.version, d.chunks[p.chunk].contentHash)
              && d.chunked && !d.failed && (d.status == ACTIVE || d.status == STALE)
              && (d.deduplication == UNIQUE || (possible && d.deduplication == POSSIBLE_DUPLICATE))
              && d.chunks[p.chunk].documentVersion == d.version
              && !d.chunks[p.chunk].blankText && !d.chunks[p.chunk].blankContext
  {
    forall p: Point | p.chunk in EligibleChunks(d, possible)
                      && p == Point(p.chunk, d.version, d.chunks[p.chunk].contentHash)
      ensures p in PreparedPoints(d, possible)
    {
      assert Point(p.chunk, d.version, d.chunks[p.chunk].contentHash) in PreparedPoints(d, possible);
    }
  }

  // ---------- the transaction ----------

  /** The document's entries become REMOVED, then the prepared ones INDEXED (_store_entries). */
  function StoredEntries(entries: map<ChunkId, Status>, document: nat, chunks: set<ChunkId>): map<ChunkId, Status> {
    map c | c in entries.Keys + chunks ::
      if c in chunks then INDEXED
      else if c.document == document then REMOVED
      else entries[c]
  }

  /** A counter never falls below zero. */
  function Clamped(count: nat, delta: int): nat {
    if count + delta >= 0 then count + delta else 0
  }

  /** What a committed reindex leaves in both stores. */
  function Reindexed(ix: Index, document: nat, prepared: set<Point>): Index {
    var delta := |prepared| - |IndexedOf(ix.entries, document)|;
    Index(StoredEntries(ix.entries, document, ChunksOf(prepared)),
          (ix.points - PointsOf(ix.points, document)) + prepared,
          Clamped(ix.pointCount, delta), Clamped(ix.eligibleCount, delta),
          WithShown(ix.shown, document, if prepared == {} then NOT_INDEXED else READY))
  }

  /** The points of every other document are as they were. */
  ghost predicate OnlyPoints(before: set<Point>, after: set<Point>, document: nat) {
    forall d :: d != document ==> PointsOf(after, d) == PointsOf(before, d)
  }

  predicate OnlyShown(before: map<nat, IndexStatus>, after: map<nat, IndexStatus>, document: nat) {
    after.Keys == before.Keys && forall d :: d in before && d != document ==> after[d] == before[d]
  }

  /** A document that is gone has no status to write. */
  function WithShown(shown: map<nat, IndexStatus>, document: nat, status: IndexStatus): map<nat, IndexStatus> {
    if document in shown then shown[document := status] else shown
  }

  lemma {:induction false} CountChunks(prepared: set<Point>, document: nat)
    requires Prepared(prepared, document)
    ensures |ChunksOf(prepared)| == |prepared|
  {
    if prepared == {} {
      assert ChunksOf(prepared) == {};
    } else {
      var p :| p in prepared;
      CountChunks(prepared - {p}, document);
      assert ChunksOf(prepared) == ChunksOf(prepared - {p}) + {p.chunk};
      assert p.chunk !in ChunksOf(prepared - {p});
    }
  }

  lemma EntriesAfter(entries: map<ChunkId, Status>, document: nat, chunks: set<ChunkId>)
    requires forall c :: c in chunks ==> c.document == document
    ensures var t := StoredEntries(entries, document, chunks);
            && IndexedOf(t, document) == chunks
            && (forall d :: d != document ==> IndexedOf(t, d) == IndexedOf(entries, d))
            && IndexedChunks(t) == (IndexedChunks(entries) - IndexedOf(entries, document)) + chunks
  {
  }

  lemma EntriesCount(entries: map<ChunkId, Status>, document: nat, chunks: set<ChunkId>)
    requires forall c :: c in chunks ==> c.document == document
    ensures |IndexedChunks(StoredEntries(entries, document, chunks))|
            == |IndexedChunks(entries)| + |chunks| - |IndexedOf(entries, document)|
  {
    hide StoredEntries;
    EntriesAfter(entries, document, chunks);
    var mine := IndexedOf(entries, document);
    var others := IndexedChunks(entries) - mine;
    assert IndexedChunks(entries) == others + mine;
    assert others !! chunks;
  }

  lemma PreparedCount(entries: map<ChunkId, Status>, document: nat, prepared: set<Point>)
    requires Prepared(prepared, document)
    ensures |IndexedChunks(StoredEntries(entries, document, ChunksOf(prepared)))|
            == |IndexedChunks(entries)| + |prepared| - |IndexedOf(entries, document)|
  {
    hide StoredEntries, IndexedChunks, IndexedOf;
    CountChunks(prepared, document);
    EntriesCount(entries, document, ChunksOf(prepared));
  }

  lemma CascadeCount(entries: map<ChunkId, Status>, chunks: set<ChunkId>)
    ensures |IndexedChunks(entries - chunks)| == |IndexedChunks(entries)| - |IndexedChunks(entries) * chunks|
  {
    assert IndexedChunks(entries - chunks) == IndexedChunks(entries) - IndexedChunks(entries) * chunks;
  }

  lemma OnlyThese(points: set<Point>, document: nat)
    ensures OnlyPoints(points, points, document)
  {
  }

  lemma NoneOfNone(prepared: set<Point>)
    ensures prepared == {} <==> |prepared| == 0
  {
  }

  lemma PartOfPrepared(prepared: set<Point>, document: nat, written: set<Point>)
    requires Prepared(prepared, document) && written <= prepared
    ensures forall p :: p in written ==> p.chunk.document == document
  {
  }

  lemma OnlyThisDocument(points: set<Point>, document: nat, written: set<Point>)
    requires forall p :: p in written ==> p.chunk.document == document
    ensures var t := (points - PointsOf(points, document)) + written;
            && PointsOf(t, document) == written
            && forall d :: d != document ==> PointsOf(t, d) == PointsOf(points, d)
  {
  }

  /** The delta is the exact change in INDEXED entries; other documents keep theirs; and Qdrant holds for
      this document the prepared points and nothing else. */
  lemma DeltaIsExact(ix: Index, document: nat, prepared: set<Point>)
    requires Prepared(prepared, document)
    ensures var t := Reindexed(ix, document, prepared);
            && IndexedOf(t.entries, document) == ChunksOf(prepared)
            && (forall d :: d != document ==> IndexedOf(t.entries, d) == IndexedOf(ix.entries, d))
            && |IndexedChunks(t.entries)|
               == |IndexedChunks(ix.entries)| + |prepared| - |IndexedOf(ix.entries, document)|
            && PointsOf(t.points, document) == prepared
            && (forall d :: d != document ==> PointsOf(t.points, d) == PointsOf(ix.points, d))
  {
    hide StoredEntries, IndexedChunks, IndexedOf, PointsOf;
    CountChunks(prepared, document);
    EntriesAfter(ix.entries, document, ChunksOf(prepared));
    EntriesCount(ix.entries, document, ChunksOf(prepared));
    OnlyThisDocument(ix.points, document, prepared);
  }

  /** The transaction does not read the points; they were published before it. */
  lemma PublishedBefore(ix: Index, document: nat, prepared: set<Point>, points: set<Point>)
    requires points == (ix.points - PointsOf(ix.points, document)) + prepared
    ensures Reindexed(ix.(points := points), document, prepared).(points := points) == Reindexed(ix, document, prepared)
  {
    hide StoredEntries, IndexedOf, PointsOf, WithShown, Clamped;
  }

  lemma NothingShown(shown: map<nat, IndexStatus>, document: nat)
    ensures OnlyShown(shown, shown, document)
  {
  }

  /** A committed document is shown READY exactly when it has INDEXED entries. */
  lemma ReadyIffIndexed(ix: Index, document: nat, prepared: set<Point>)
    requires Prepared(prepared, document)
    ensures var t := Reindexed(ix, document, prepared);
            document in t.shown ==> (t.shown[document] == READY <==> IndexedOf(t.entries, document) != {})
  {
    hide StoredEntries, IndexedOf, PointsOf;
    CountChunks(prepared, document);
    EntriesAfter(ix.entries, document, ChunksOf(prepared));
  }

  // ---------- the handler ----------

  datatype Outcome = Committed | Died | BatchTooLarge | DocumentMissing | AliasMismatch | DocumentChanged

  /** The check of a document with eligible chunks under the lock. */
  predicate Unchanged(read: Document, locked: Option<Document>, possible: bool) {
    locked.Some? && locked.value.version == read.version && Listed(locked.value, possible)
  }

  /** A job that commits has checked the document, unless it had no eligible chunk when it was read. */
  predicate MayCommit(read: Document, locked: Option<Document>, possible: bool) {
    EligibleChunks(read, possible) == {} || Unchanged(read, locked, possible)
  }

  /** The committed entries are the eligible chunks of the document as it is locked, exactly when it had some when
      it was read or has none now. A version pins the chunk rows. */
  lemma CommittedIsCurrentIff(ix: Index, document: nat, read: Document, locked: Document, possible: bool)
    requires Owns(document, read) && MayCommit(read, Some(locked), possible)
    requires locked.version == read.version ==> locked.chunks == read.chunks
    ensures IndexedOf(Reindexed(ix, document, PreparedPoints(read, possible)).entries, document)
            == EligibleChunks(locked, possible)
            <==> EligibleChunks(read, possible) != {} || EligibleChunks(locked, possible) == {}
  {
    hide StoredEntries, IndexedOf, PointsOf, PreparedPoints, Prepared, Listed;
    PreparedOfEligible(read, document, possible);
    DeltaIsExact(ix, document, PreparedPoints(read, possible));
    if EligibleChunks(read, possible) != {} {
      var c :| c in EligibleChunks(read, possible);
      assert Listed(read, possible);
      assert EligibleChunks(locked, possible) == EligibleChunks(read, possible);
    }
  }

  /** What a committed job leaves, on the rows themselves. */
  lemma CommittedRows(ix: Index, document: nat, d: Document, possible: bool)
    requires Owns(document, d)
    ensures var t := Reindexed(ix, document, PreparedPoints(d, possible));
            && (forall c :: c in t.entries && t.entries[c] == INDEXED && c.document == document <==>
                  && c in d.chunks
                  && d.chunked && !d.failed && (d.status == ACTIVE || d.status == STALE)
                  && (d.deduplication == UNIQUE || (possible && d.deduplication == POSSIBLE_DUPLICATE))
                  && d.chunks[c].documentVersion == d.version
                  && !d.chunks[c].blankText && !d.chunks[c].blankContext)
            && (forall p :: p in t.points && p.chunk.document == document <==>
                  && p.chunk in t.entries && t.entries[p.chunk] == INDEXED && p.chunk.document == document
                  && p.chunk in d.chunks && p == Point(p.chunk, d.version, d.chunks[p.chunk].contentHash))
            && (document in t.shown ==>
                  t.shown[document] ==
                  if exists c :: c in t.entries && t.entries[c] == INDEXED && c.document == document
                  then READY else NOT_INDEXED)
    ensures var t := Reindexed(ix, document, PreparedPoints(d, possible));
            && ix.entries.Keys <= t.entries.Keys
            && (forall c :: c in t.entries && c.document == document && t.entries[c] != INDEXED ==>
                  c in ix.entries && t.entries[c] == REMOVED)
            && (forall c :: c in t.entries && c.document != document ==>
                  c in ix.entries && t.entries[c] == ix.entries[c])
  {
    hide IndexedOf, Clamped, ChunksOf, PreparedPoints, Prepared;
    var prepared := PreparedPoints(d, possible);
    PreparedOfEligible(d, document, possible);
    EligibleArePrepared(d, possible);
    var t := Reindexed(ix, document, prepared);
    assert t.entries == StoredEntries(ix.entries, document, EligibleChunks(d, possible));
    forall p: Point ensures p in t.points && p.chunk.document == document <==>
                  && p.chunk in t.entries && t.entries[p.chunk] == INDEXED && p.chunk.document == document
                  && p.chunk in d.chunks && p == Point(p.chunk, d.version, d.chunks[p.chunk].contentHash)
    {
      assert p in t.points && p.chunk.document == document <==> p in prepared;
    }
    if prepared != {} {
      var c :| c in EligibleChunks(d, possible);
      assert c in t.entries && t.entries[c] == INDEXED && c.document == document;
    }
  }

  class ActiveIndex {
    var entries: map<ChunkId, Status>
    var points: set<Point>
    var pointCount: nat
    var eligibleCount: nat
    var shown: map<nat, IndexStatus>
    /** INDEXED entries that cascades took away. */
    ghost var lost: nat

    ghost function View(): Index
      reads this
    {
      Index(entries, points, pointCount, eligibleCount, shown)
    }

    /** Both counters count the INDEXED entries, and besides them those that cascades took away. */
    ghost predicate Counted()
      reads this`entries, this`pointCount, this`eligibleCount, this`lost
    {
      pointCount == |IndexedChunks(entries)| + lost == eligibleCount
    }

    constructor (entries: map<ChunkId, Status>, points: set<Point>, pointCount: nat, eligibleCount: nat,
                 shown: map<nat, IndexStatus>)
      ensures View() == Index(entries, points, pointCount, eligibleCount, shown)
      ensures pointCount == |IndexedChunks(entries)| == eligibleCount ==> Counted() && lost == 0
    {
      this.entries, this.points, this.pointCount, this.eligibleCount := entries, points, pointCount, eligibleCount;
      this.shown, lost := shown, 0;
    }

    /** qdrant.delete_document_points */
    method DeleteDocumentPoints(document: nat)
      modifies this`points
      ensures points == old(points) - PointsOf(old(points), document)
    {
      points := points - PointsOf(points, document);
    }

    /** _mark_failure for a job that names a document */
    method MarkFailure(document: nat, retryable: bool)
      modifies this`shown
      ensures shown == WithShown(old(shown), document, if retryable then OUTDATED else FAILED_INDEX)
      ensures document in shown ==> shown[document] == if retryable then OUTDATED else FAILED_INDEX
      ensures OnlyShown(old(shown), shown, document)
    {
      shown := WithShown(shown, document, if retryable then OUTDATED else FAILED_INDEX);
    }

    /** Deletes the document's points and upserts the prepared ones. An upsert above the configured batch size
        is refused after the deletion; the process may stop anywhere, also within the upsert. */
    method Publish(document: nat, prepared: set<Point>, batchLimit: nat) returns (outcome: Option<Outcome>)
      requires Prepared(prepared, document)
      modifies this`points
      ensures OnlyPoints(old(points), points, document)
      ensures PointsOf(points, document) <= prepared || points == old(points)
      ensures outcome == None ==>
                points == (old(points) - PointsOf(old(points), document)) + prepared
                && (prepared == {} || |prepared| <= batchLimit)
      ensures outcome == Some(BatchTooLarge) ==> PointsOf(points, document) == {} && |prepared| > batchLimit
      ensures outcome.Some? ==> outcome.value == Died || outcome.value == BatchTooLarge
    {
      hide PointsOf, Prepared;
      OnlyThisDocument(points, document, {});
      if * { return Some(Died); }
      ghost var start := points;
      DeleteDocumentPoints(document);
      assert (start - PointsOf(start, document)) + {} == points;
      if prepared != {} {
        if * { return Some(Died); }
        if |prepared| > batchLimit { return Some(BatchTooLarge); }
        var written :| written <= prepared;
        if * { written := prepared; }
        points := points + written;
        PartOfPrepared(prepared, document, written);
        OnlyThisDocument(start, document, written);
        if written != prepared { return Some(Died); }
      }
      outcome := None;
    }

    /** The transaction: entries, counters and the document's status. */
    method CommitEntries(document: nat, prepared: set<Point>)
      requires Prepared(prepared, document)
      modifies this`entries, this`pointCount, this`eligibleCount, this`shown
      ensures var t := Reindexed(old(View()), document, prepared);
              View() == t.(points := points)
      ensures OnlyShown(old(shown), shown, document)
      ensures document in shown ==> (shown[document] == READY <==> IndexedOf(entries, document) != {})
      ensures old(Counted()) ==>
                && Counted()
                && pointCount == old(pointCount) + |prepared| - |IndexedOf(old(entries), document)|
                && eligibleCount == old(eligibleCount) + |prepared| - |IndexedOf(old(entries), document)|
    {
      hide StoredEntries, IndexedOf, IndexedChunks, PointsOf, ChunksOf, Prepared;
      ReadyIffIndexed(View(), document, prepared);
      var previousPoints := |IndexedOf(entries, document)|;
      PreparedCount(entries, document, prepared);
      entries := StoredEntries(entries, document, ChunksOf(prepared));
      ApplyActiveVersionDelta(|prepared| - previousPoints);
      shown := WithShown(shown, document, if prepared == {} then NOT_INDEXED else READY);
    }

    /** The part of _document_reindex that follows the alias check. */
    method PublishAndCommit(document: nat, read: Document, locked: Option<Document>, possible: bool, batchLimit: nat)
      returns (outcome: Outcome)
      requires Owns(document, read)
      modifies this
      ensures outcome == Committed ==>
                && MayCommit(read, locked, possible)
                && View() == Reindexed(old(View()), document, PreparedPoints(read, possible))
                && (old(Counted()) ==>
                      && pointCount
                         == old(pointCount) + |IndexedOf(entries, document)| - |IndexedOf(old(entries), document)|
                      && eligibleCount
                         == old(eligibleCount) + |IndexedOf(entries, document)| - |IndexedOf(old(entries), document)|)
      ensures outcome != Committed ==> View() == old(View()).(points := points, shown := shown)
      ensures OnlyShown(old(shown), shown, document) && OnlyPoints(old(points), points, document)
      ensures old(Counted()) ==> Counted() && lost == old(lost)
      ensures PointsOf(points, document) <= PreparedPoints(read, possible) || points == old(points)
      ensures |EligibleChunks(read, possible)| > batchLimit ==> outcome != Committed
      ensures outcome != AliasMismatch
      ensures outcome == BatchTooLarge ==> PointsOf(points, document) == {}
      ensures outcome == DocumentMissing && document in shown ==> shown[document] == FAILED_INDEX
      ensures outcome == DocumentChanged ==>
                && locked.Some? && !MayCommit(read, locked, possible)
                && (document in shown ==> shown[document] == OUTDATED)
    {
      hide StoredEntries, IndexedOf, IndexedChunks, PointsOf, ChunksOf, Prepared, Clamped, WithShown, OnlyShown,
              OnlyPoints, Counted, Reindexed, EligibleChunks, PreparedPoints, Unchanged, Listed, Owns;
      ghost var start := View();
      NothingShown(shown, document);
      var prepared := PreparedPoints(read, possible);
      PreparedOfEligible(read, document, possible);
      CountChunks(prepared, document);
      DeltaIsExact(start, document, prepared);
      NoneOfNone(prepared);
      var stopped := Publish(document, prepared, batchLimit);
      if stopped.Some? {
        if * {
          var retryable: bool := *;
          MarkFailure(document, retryable);
        }
        return stopped.value;
      }
      if prepared != {} && !Unchanged(read, locked, possible) {
        MarkFailure(document, locked.Some?);
        return if locked.Some? then DocumentChanged else DocumentMissing;
      }
      if * {
        if * { MarkFailure(document, true); }
        return Died;
      }
      CommitEntries(document, prepared);
      PublishedBefore(start, document, prepared, points);
      outcome := Committed;
    }

    /** _document_reindex: the document as it is read at the start and as it is locked in the transaction. Every
        `*` is a place where the process may die, be cancelled, lose its lease or fail; a failure that is reported
        marks the document. */
    method Reindex(document: nat, aliasMatches: bool, read: Option<Document>, locked: Option<Document>,
                   possible: bool, batchLimit: nat) returns (outcome: Outcome)
      requires read.Some? ==> Owns(document, read.value)
      modifies this
      // A committed job: the INDEXED entries and the points of the document are those of its searchable chunks.
      ensures outcome == Committed ==>
                && read.Some? && aliasMatches && MayCommit(read.value, locked, possible)
                && (forall c :: c in entries && entries[c] == INDEXED && c.document == document <==>
                      && c in read.value.chunks
                      && read.value.chunked && !read.value.failed
                      && (read.value.status == ACTIVE || read.value.status == STALE)
                      && (read.value.deduplication == UNIQUE
                          || (possible && read.value.deduplication == POSSIBLE_DUPLICATE))
                      && read.value.chunks[c].documentVersion == read.value.version
                      && !read.value.chunks[c].blankText && !read.value.chunks[c].blankContext)
                && (forall p :: p in points && p.chunk.document == document <==>
                      && p.chunk in entries && entries[p.chunk] == INDEXED && p.chunk.document == document
                      && p.chunk in read.value.chunks
                      && p == Point(p.chunk, read.value.version, read.value.chunks[p.chunk].contentHash))
                && (document in shown ==>
                      shown[document] == if exists c :: c in entries && entries[c] == INDEXED && c.document == document
                                         then READY else NOT_INDEXED)
      // Its entries that are not INDEXED are REMOVED, none is dropped, and those of other documents stay.
      ensures outcome == Committed ==>
                && old(entries).Keys <= entries.Keys
                && (forall c :: c in entries && c.document == document && entries[c] != INDEXED ==>
                      c in old(entries) && entries[c] == REMOVED)
                && (forall c :: c in entries && c.document != document ==>
                      c in old(entries) && entries[c] == old(entries)[c])
      ensures outcome == Committed && old(Counted()) ==>
                && pointCount == old(pointCount) + |IndexedOf(entries, document)| - |IndexedOf(old(entries), document)|
                && eligibleCount
                   == old(eligibleCount) + |IndexedOf(entries, document)| - |IndexedOf(old(entries), document)|
      // Any other job changes only points and status of this document.
      ensures outcome != Committed ==>
                entries == old(entries) && pointCount == old(pointCount) && eligibleCount == old(eligibleCount)
      ensures OnlyShown(old(shown), shown, document) && OnlyPoints(old(points), points, document)
      ensures old(Counted()) ==> Counted() && lost == old(lost)
      ensures read == None ==> outcome == DocumentMissing || outcome == Died
      ensures read.Some? && !aliasMatches ==> outcome == AliasMismatch || outcome == Died
      ensures read == None || !aliasMatches ==> points == old(points)
      ensures read.Some? ==> PointsOf(points, document) <= PreparedPoints(read.value, possible) || points == old(points)
      ensures read.Some? && |EligibleChunks(read.value, possible)| > batchLimit ==> outcome != Committed
      ensures outcome == BatchTooLarge ==> PointsOf(points, document) == {}
      ensures outcome == AliasMismatch && document in shown ==> shown[document] == OUTDATED
      ensures outcome == DocumentMissing && document in shown ==> shown[document] == FAILED_INDEX
      ensures outcome == DocumentChanged ==>
                && read.Some? && locked.Some? && !MayCommit(read.value, locked, possible)
                && (document in shown ==> shown[document] == OUTDATED)
    {
      hide StoredEntries, IndexedOf, IndexedChunks, PointsOf, WithShown, OnlyShown, OnlyPoints, Counted, Reindexed,
              EligibleChunks, PreparedPoints, MayCommit, Owns;
      ghost var start := View();
      NothingShown(shown, document);
      OnlyThese(points, document);
      if * { return Died; }
      if read == None {
        MarkFailure(document, false);
        return DocumentMissing;
      }
      if !aliasMatches {
        MarkFailure(document, true);
        return AliasMismatch;
      }
      outcome := PublishAndCommit(document, read.value, locked, possible, batchLimit);
      CommittedRows(start, document, read.value, possible);
    }

    /** _apply_active_version_delta: when the entries have just grown by the delta, counters that counted them
        before count them again, and move by the delta exactly. */
    method ApplyActiveVersionDelta(delta: int)
      modifies this`pointCount, this`eligibleCount
      ensures old(pointCount) == |IndexedChunks(entries)| - delta + lost == old(eligibleCount) ==>
                Counted() && pointCount == old(pointCount) + delta && eligibleCount == old(eligibleCount) + delta
      ensures pointCount == Clamped(old(pointCount), delta) && eligibleCount == Clamped(old(eligibleCount), delta)
    {
      pointCount := if pointCount + delta > 0 then pointCount + delta else 0;
      eligibleCount := if eligibleCount + delta > 0 then eligibleCount + delta else 0;
    }

    /** Ingestion deletes chunk rows, and their entries go with them; the counters stay. */
    method Cascade(chunks: set<ChunkId>)
      modifies this`entries, this`lost
      ensures entries == old(entries) - chunks
      ensures lost == old(lost) + |IndexedChunks(old(entries)) * chunks|
      ensures old(Counted()) ==> Counted()
    {
      CascadeCount(entries, chunks);
      lost := lost + |IndexedChunks(entries) * chunks|;
      entries := entries - chunks;
    }
  }

  // ---------- over every run ----------

  /** Reindexed: a job that committed. Interrupted: one that did not; only Qdrant may have changed.
      Cascaded: ingestion replaced chunk rows, and their entries went with them. Editor edits keep the
      chunk rows and leave this state alone. */
  datatype Event =
    | Reindexing(document: nat, prepared: set<Point>)
    | Interrupted(points: set<Point>)
    | Cascaded(chunks: set<ChunkId>)

  predicate PossibleEvent(e: Event) {
    e.Reindexing? ==> Prepared(e.prepared, e.document)
  }

  function Apply(ix: Index, e: Event): Index {
    match e
    case Reindexing(document, prepared) => Reindexed(ix, document, prepared)
    case Interrupted(points) => ix.(points := points)
    case Cascaded(chunks) => ix.(entries := ix.entries - chunks)
  }

  function After(ix: Index, events: seq<Event>): Index {
    if events == [] then ix
    else Apply(After(ix, events[..|events| - 1]), events[|events| - 1])
  }

  /** INDEXED entries that cascades took away without a delta. */
  function Lost(ix: Index, events: seq<Event>): nat {
    if events == [] then 0
    else
      var before, e := After(ix, events[..|events| - 1]), events[|events| - 1];
      Lost(ix, events[..|events| - 1])
      + (if e.Cascaded? then |IndexedChunks(before.entries) * e.chunks| else 0)
  }

  /** In every run the counter exceeds the INDEXED entries by exactly those that cascades took away, so the
      clamp never acts, and the two are equal exactly when no INDEXED entry was ever cascaded. */
  lemma {:induction false} CounterDrift(ix: Index, events: seq<Event>)
    requires ix.pointCount == |IndexedChunks(ix.entries)| == ix.eligibleCount
    requires forall i :: 0 <= i < |events| ==> PossibleEvent(events[i])
    ensures var t := After(ix, events);
            && t.pointCount == |IndexedChunks(t.entries)| + Lost(ix, events)
            && t.eligibleCount == t.pointCount
            && (t.pointCount == |IndexedChunks(t.entries)| <==> Lost(ix, events) == 0)
  {
    if events != [] {
      var front, e := events[..|events| - 1], events[|events| - 1];
      CounterDrift(ix, front);
      assert PossibleEvent(e);
      var before := After(ix, front);
      match e {
        case Reindexing(document, prepared) =>
          DeltaIsExact(before, document, prepared);
          Smaller(IndexedOf(before.entries, document), IndexedChunks(before.entries));
        case Interrupted(_) =>
        case Cascaded(chunks) =>
          CascadeCount(before.entries, chunks);
      }
    }
  }

  /** A run without cascades keeps the counters equal to the INDEXED entries. */
  lemma {:induction false} NoCascadeNoDrift(ix: Index, events: seq<Event>)
    requires forall i :: 0 <= i < |events| ==> !events[i].Cascaded?
    ensures Lost(ix, events) == 0
  {
    if events != [] {
      NoCascadeNoDrift(ix, events[..|events| - 1]);
    }
  }

  /** One cascade of an INDEXED entry is enough: the counter says one, and there is none. */
  lemma CascadeDrifts()
    ensures var c := ChunkId(1, 1);
            var ix := Index(map[c := INDEXED], {Point(c, 1, 7)}, 1, 1, map[1 := READY]);
            var t := After(ix, [Cascaded({c})]);
            && ix.pointCount == |IndexedChunks(ix.entries)|
            && t.pointCount == 1 && IndexedChunks(t.entries) == {}
  {
    var c := ChunkId(1, 1);
    var ix := Index(map[c := INDEXED], {Point(c, 1, 7)}, 1, 1, map[1 := READY]);
    assert IndexedChunks(ix.entries) == {c};
    assert [Cascaded({c})][..0] == [];
    assert After(ix, []) == ix;
  }
}
