/** The life of a document: ingestion, editor operations, versions, revisions and chunks. */
module Documents {
  import opened Common

  datatype Status = ACTIVE | HIDDEN | PENDING | FAILED | OUTDATED

  datatype IndexStatus = READY | PENDING | FAILED | NOT_INDEXED | OUTDATED

  /** What the content hash is computed from. */
  datatype Content = Content(title: string, tags: seq<string>, sections: seq<string>)

  /** SHA-256 as an injective function; a new row carries the empty string. */
  datatype Hash = Empty | Sha(content: Content)

  /** A question with its answers after preparation, or one that preparation refuses (IngestionSkip). */
  datatype Thread = Usable(id: nat, title: string, tags: seq<string>, sections: seq<string>) | Unusable(id: nat)

  /** stable_chunk_key, injective, within one document */
  datatype Key = Key(documentVersion: nat, ordinal: nat, text: string)

  datatype Chunk = Chunk(documentVersion: nat, ordinal: nat, text: string, key: Key)

  datatype Record = Record(
    status: Status, version: nat, contentHash: Hash, normalizedTitle: string, edited: bool,
    chunks: seq<Chunk>, chunksCount: nat, revisions: map<nat, Hash>,
    bm25: IndexStatus, vector: IndexStatus)

  /** The chunker with its settings, and document_revision_limit. */
  datatype Settings = Settings(chunker: Content -> seq<string>, revisionLimit: nat)

  // ---------- revisions ----------

  function NewerThan(versions: set<nat>, v: nat): set<nat> {
    set w | w in versions && w > v
  }

  /** The newest revisions by version; the query deletes what lies beyond the limit. */
  function Newest(revisions: map<nat, Hash>, limit: nat): map<nat, Hash> {
    map v | v in revisions && |NewerThan(revisions.Keys, v)| < limit :: revisions[v]
  }

  /** At most `limit` revisions are kept, all of them while they fit, and every dropped one is older than
      every kept one. */
  lemma RetentionKeepsTheNewest(revisions: map<nat, Hash>, limit: nat)
    ensures var kept := Newest(revisions, limit);
            && |kept| <= limit
            && (|revisions| <= limit ==> kept == revisions)
            && (forall v, w :: v in kept && w in revisions && w !in kept ==> w < v)
  {
    var kept := Newest(revisions, limit);
    if kept.Keys != {} {
      var m := Least(kept.Keys);
      assert kept.Keys - {m} <= NewerThan(revisions.Keys, m);
      Smaller(kept.Keys - {m}, NewerThan(revisions.Keys, m));
    }
    assert |kept| == |kept.Keys|;
    if |revisions| <= limit {
      forall v | v in revisions ensures v in kept {
        Smaller(NewerThan(revisions.Keys, v), revisions.Keys - {v});
        assert |revisions.Keys| == |revisions|;
      }
      assert kept.Keys == revisions.Keys;
    }
    forall v, w | v in kept && w in revisions && w !in kept ensures w < v {
      if v <= w {
        Smaller(NewerThan(revisions.Keys, w), NewerThan(revisions.Keys, v));
      }
    }
  }

  ghost predicate IsNewest(revisions: map<nat, Hash>, hash: Hash) {
    exists v :: v in revisions && revisions[v] == hash && forall w :: w in revisions ==> w <= v
  }

  lemma NewRevision(revisions: map<nat, Hash>, version: nat, hash: Hash, limit: nat)
    requires limit >= 1 && forall v :: v in revisions ==> v < version
    ensures var t := Newest(revisions[version := hash], limit);
            |t| <= limit && IsNewest(t, hash) && t.Keys <= revisions.Keys + {version}
  {
    var all := revisions[version := hash];
    RetentionKeepsTheNewest(all, limit);
    assert NewerThan(all.Keys, version) == {};
    assert version in Newest(all, limit);
  }

  // ---------- one operation, as a function of the row ----------

  predicate IsBlank(s: string) {
    forall i :: 0 <= i < |s| ==> s[i] in {' ', '\t', '\n', '\r'}
  }

  lemma BlankIff(s: string)
    ensures !IsBlank(s) <==> exists i :: 0 <= i < |s| && s[i] !in {' ', '\t', '\n', '\r'}
  {
  }

  function OutdatedIndex(s: IndexStatus): IndexStatus {
    if s == NOT_INDEXED then NOT_INDEXED else IndexStatus.OUTDATED
  }

  function Chunked(version: nat, texts: seq<string>): seq<Chunk> {
    seq(|texts|, i requires 0 <= i < |texts| => Chunk(version, i, texts[i], Key(version, i, texts[i])))
  }

  function RebasedChunk(chunk: Chunk, version: nat): Chunk {
    chunk.(documentVersion := version, key := Key(version, chunk.ordinal, chunk.text))
  }

  function Rebased(chunks: seq<Chunk>, version: nat): seq<Chunk> {
    seq(|chunks|, i requires 0 <= i < |chunks| => RebasedChunk(chunks[i], version))
  }

  /** _new_document */
  function NewDocument(title: string): Record {
    Record(ACTIVE, 1, Empty, title, false, [], 0, map[], NOT_INDEXED, NOT_INDEXED)
  }

  function EffectiveTitle(r: Record, title: string): string {
    if r.edited && !IsBlank(r.normalizedTitle) then r.normalizedTitle else title
  }

  function ContentOf(r: Record, thread: Thread): Content
    requires thread.Usable?
  {
    Content(EffectiveTitle(r, thread.title), thread.tags, thread.sections)
  }

  /** ingest_question_thread */
  function Ingested(existing: Option<Record>, thread: Thread, s: Settings): Record
    requires thread.Usable?
  {
    var r := if existing.Some? then existing.value else NewDocument(thread.title);
    var content := ContentOf(r, thread);
    var titled := if r.edited then r else r.(normalizedTitle := thread.title);
    if existing.Some? && r.contentHash == Sha(content) then titled
    else
      var version := if existing.Some? then r.version + 1 else r.version;
      titled.(version := version, contentHash := Sha(content),
              revisions := Newest(r.revisions[version := Sha(content)], s.revisionLimit),
              chunks := Chunked(version, s.chunker(content)), chunksCount := |s.chunker(content)|,
              bm25 := if existing.Some? then OutdatedIndex(r.bm25) else NOT_INDEXED,
              vector := if existing.Some? then OutdatedIndex(r.vector) else NOT_INDEXED)
  }

  /** What every editor operation does besides its own field. */
  function Edited(r: Record): Record {
    r.(version := r.version + 1, edited := true, chunks := Rebased(r.chunks, r.version + 1),
       bm25 := OutdatedIndex(r.bm25), vector := OutdatedIndex(r.vector))
  }

  predicate CanHide(r: Record) { r.status in {ACTIVE, Status.OUTDATED} }

  function RestoredStatus(r: Record): Status {
    if IndexStatus.OUTDATED in {r.bm25, r.vector} then Status.OUTDATED else ACTIVE
  }

  /** Operations on a stored document. The bulk restore always makes it ACTIVE; the single one looks at the
      index statuses. IndexingEnds is the index worker writing the two statuses. */
  datatype Operation =
    | Ingest(thread: Thread)
    | UpdateMetadata(title: string)
    | Hide
    | Restore
    | BulkRestore
    | Reindex
    | IndexingEnds(bm25: IndexStatus, vector: IndexStatus)

  function Apply(r: Record, op: Operation, s: Settings): Record {
    match op
    case Ingest(thread) => if thread.Usable? then Ingested(Some(r), thread, s) else r
    case UpdateMetadata(title) => Edited(r).(normalizedTitle := title)
    case Hide => if CanHide(r) then Edited(r).(status := HIDDEN) else r
    case Restore => if r.status == HIDDEN then Edited(r).(status := RestoredStatus(r)) else r
    case BulkRestore => if r.status == HIDDEN then Edited(r).(status := ACTIVE) else r
    case Reindex => r.(bm25 := IndexStatus.PENDING, vector := IndexStatus.PENDING)
    case IndexingEnds(bm25, vector) => r.(bm25 := bm25, vector := vector)
  }

  function After(r: Record, ops: seq<Operation>, s: Settings): Record {
    if ops == [] then r
    else Apply(After(r, ops[..|ops| - 1], s), ops[|ops| - 1], s)
  }

  // ---------- the invariant over every interleaving ----------

  ghost predicate Consistent(r: Record, s: Settings) {
    && r.version >= 1
    && r.contentHash.Sha?
    && r.chunks == Chunked(r.version, s.chunker(r.contentHash.content))
    && r.chunksCount == |r.chunks|
    && (forall v :: v in r.revisions ==> 1 <= v <= r.version)
    && |r.revisions| <= s.revisionLimit
    && IsNewest(r.revisions, r.contentHash)
  }

  /** Chunks carry the document's version and consecutive ordinals, and their keys are distinct. */
  lemma ConsistentChunks(r: Record, s: Settings)
    requires Consistent(r, s)
    ensures r.chunksCount == |r.chunks|
    ensures forall i :: 0 <= i < |r.chunks| ==> r.chunks[i].documentVersion == r.version && r.chunks[i].ordinal == i
    ensures forall i, j :: 0 <= i < j < |r.chunks| ==> r.chunks[i].key != r.chunks[j].key
  {
  }

  lemma ChunkedLength(version: nat, texts: seq<string>)
    ensures |Chunked(version, texts)| == |texts|
  {
  }

  lemma FirstIngestIsConsistent(thread: Thread, s: Settings)
    requires thread.Usable? && s.revisionLimit >= 1
    ensures Consistent(Ingested(None, thread, s), s)
  {
    hide Newest, IsNewest;
    var content := ContentOf(NewDocument(thread.title), thread);
    NewRevision(map[], 1, Sha(content), s.revisionLimit);
  }

  lemma IngestIsConsistent(r: Record, thread: Thread, s: Settings)
    requires Consistent(r, s) && thread.Usable? && s.revisionLimit >= 1
    ensures Consistent(Ingested(Some(r), thread, s), s)
  {
    hide Newest, IsNewest, ContentOf, OutdatedIndex, Chunked;
    ChunkedLength(r.version + 1, s.chunker(ContentOf(r, thread)));
    if r.contentHash != Sha(ContentOf(r, thread)) {
      NewRevision(r.revisions, r.version + 1, Sha(ContentOf(r, thread)), s.revisionLimit);
    }
  }

  lemma EditIsConsistent(r: Record, s: Settings)
    requires Consistent(r, s)
    ensures Consistent(Edited(r), s)
  {
    hide IsNewest;
    assert Rebased(Chunked(r.version, s.chunker(r.contentHash.content)), r.version + 1)
        == Chunked(r.version + 1, s.chunker(r.contentHash.content));
  }

  /** Any interleaving of ingestion, edits, hiding, restoring, bulk operations and indexing. */
  lemma {:induction false} EveryHistoryIsConsistent(thread: Thread, ops: seq<Operation>, s: Settings)
    requires thread.Usable? && s.revisionLimit >= 1
    ensures Consistent(After(Ingested(None, thread, s), ops, s), s)
  {
    hide Consistent, Ingested, Edited;
    if ops == [] {
      FirstIngestIsConsistent(thread, s);
    } else {
      EveryHistoryIsConsistent(thread, ops[..|ops| - 1], s);
      OperationIsConsistent(After(Ingested(None, thread, s), ops[..|ops| - 1], s), ops[|ops| - 1], s);
    }
  }

  lemma OperationIsConsistent(r: Record, op: Operation, s: Settings)
    requires Consistent(r, s) && s.revisionLimit >= 1
    ensures Consistent(Apply(r, op, s), s)
  {
    hide Ingested, Edited, Chunked, IsNewest;
    EditIsConsistent(r, s);
    if op.Ingest? && op.thread.Usable? { IngestIsConsistent(r, op.thread, s); }
  }

  lemma OperationKeepsOrBumps(r: Record, op: Operation, s: Settings)
    ensures var t := Apply(r, op, s);
            || t.version == r.version + 1
            || (t.version == r.version && t.chunks == r.chunks && t.contentHash == r.contentHash
                && t.revisions == r.revisions && t.status == r.status)
  {
    hide Newest, Rebased, Chunked, ContentOf;
  }

  /** A version number stands for one content: while the version stays, so do chunks, hash and revisions. */
  lemma {:induction false} VersionPinsContent(r: Record, ops: seq<Operation>, s: Settings)
    ensures var t := After(r, ops, s);
            && t.version >= r.version
            && (t.version == r.version ==>
                  t.chunks == r.chunks && t.contentHash == r.contentHash && t.revisions == r.revisions
                  && t.status == r.status)
  {
    hide Ingested, Edited;
    if ops != [] {
      VersionPinsContent(r, ops[..|ops| - 1], s);
      OperationKeepsOrBumps(After(r, ops[..|ops| - 1], s), ops[|ops| - 1], s);
    }
  }

  /** The thread that was ingested last. */
  function LastThread(first: Thread, ops: seq<Operation>): Thread {
    if ops == [] then first
    else
      var op := ops[|ops| - 1];
      if op.Ingest? && op.thread.Usable? then op.thread else LastThread(first, ops[..|ops| - 1])
  }

  /** After any history the document holds the content of the thread that was ingested last, under some title. */
  lemma {:induction false} HoldsTheLastThread(first: Thread, ops: seq<Operation>, s: Settings)
    requires first.Usable?
    ensures LastThread(first, ops).Usable?
    ensures exists title :: After(Ingested(None, first, s), ops, s).contentHash
                            == Sha(Content(title, LastThread(first, ops).tags, LastThread(first, ops).sections))
  {
    hide Newest, Chunked, IsBlank, Rebased;
    if ops == [] {
      var t := Ingested(None, first, s);
      assert t.contentHash == Sha(Content(t.contentHash.content.title, first.tags, first.sections));
    } else {
      var front, op := ops[..|ops| - 1], ops[|ops| - 1];
      HoldsTheLastThread(first, front, s);
      var t := After(Ingested(None, first, s), ops, s);
      if op.Ingest? && op.thread.Usable? {
        assert t.contentHash == Sha(Content(t.contentHash.content.title, op.thread.tags, op.thread.sections));
      }
    }
  }

  // ---------- ingesting again ----------

  /** The second ingestion of a thread changes nothing at all, whatever an editor did before the first. */
  lemma IngestAgain(existing: Option<Record>, thread: Thread, s: Settings)
    requires thread.Usable?
    ensures var r := Ingested(existing, thread, s);
            Ingested(Some(r), thread, s) == r
  {
    hide Newest, Chunked, IsBlank;
  }

  /** A second thread keeps the version of the first exactly when it has the same tags and sections, and the same
      title or an editor's title stands in for it. */
  lemma IngestAnother(existing: Option<Record>, first: Thread, second: Thread, s: Settings)
    requires first.Usable? && second.Usable?
    ensures var r := Ingested(existing, first, s);
            Ingested(Some(r), second, s).version == r.version <==>
              && first.tags == second.tags && first.sections == second.sections
              && (first.title == second.title
                  || (r.edited && exists i :: 0 <= i < |r.normalizedTitle|
                                              && r.normalizedTitle[i] !in {' ', '\t', '\n', '\r'}))
  {
    hide Newest, Chunked, IsBlank;
    BlankIff(Ingested(existing, first, s).normalizedTitle);
  }

  predicate EditorOnly(ops: seq<Operation>) {
    forall i :: 0 <= i < |ops| ==> !ops[i].Ingest?
  }

  lemma {:induction false} EditsKeepContent(r: Record, ops: seq<Operation>, s: Settings)
    requires EditorOnly(ops)
    ensures After(r, ops, s).contentHash == r.contentHash
    ensures After(r, ops, s).revisions == r.revisions
  {
    hide Rebased;
    if ops != [] {
      EditsKeepContent(r, ops[..|ops| - 1], s);
    }
  }

  /** After any editor operations the same thread makes a new version exactly when the edits changed the
      title that counts; hiding, restoring and reindexing do not, although they freeze the title. */
  lemma IngestAfterEdits(existing: Option<Record>, thread: Thread, ops: seq<Operation>, s: Settings)
    requires thread.Usable? && EditorOnly(ops)
    ensures var r := Ingested(existing, thread, s);
            var edited := After(r, ops, s);
            var again := Ingested(Some(edited), thread, s);
            && (again.version == edited.version <==>
                EffectiveTitle(edited, thread.title) == EffectiveTitle(r, thread.title))
            && (again.version == edited.version ==>
                  again.chunks == edited.chunks && again.contentHash == edited.contentHash
                  && again.revisions == edited.revisions)
  {
    hide Newest, Chunked, IsBlank, Rebased, After;
    EditsKeepContent(Ingested(existing, thread, s), ops, s);
  }

  lemma {:induction false} FreezingIsHarmless(existing: Option<Record>, thread: Thread, ops: seq<Operation>,
          s: Settings)
    requires thread.Usable?
    requires forall i :: 0 <= i < |ops| ==> !ops[i].Ingest? && !ops[i].UpdateMetadata?
    ensures var r := Ingested(existing, thread, s);
            var edited := After(r, ops, s);
            EffectiveTitle(edited, thread.title) == EffectiveTitle(r, thread.title)
  {
    hide Newest, Chunked, IsBlank, Rebased;
    var r := Ingested(existing, thread, s);
    if ops != [] {
      var front := ops[..|ops| - 1];
      FreezingIsHarmless(existing, thread, front, s);
      TitleStays(r, front, s);
    }
  }

  lemma {:induction false} TitleStays(r: Record, ops: seq<Operation>, s: Settings)
    requires forall i :: 0 <= i < |ops| ==> !ops[i].Ingest? && !ops[i].UpdateMetadata?
    ensures After(r, ops, s).normalizedTitle == r.normalizedTitle
    ensures r.edited ==> After(r, ops, s).edited
  {
    hide Rebased;
    if ops != [] {
      TitleStays(r, ops[..|ops| - 1], s);
    }
  }

  // ---------- a batch replayed after a crash ----------

  type Db = map<nat, Record>

  function Lookup(db: Db, id: nat): Option<Record> {
    if id in db then Some(db[id]) else None
  }

  function IngestOne(db: Db, thread: Thread, s: Settings): Db {
    if thread.Usable? then db[thread.id := Ingested(Lookup(db, thread.id), thread, s)] else db
  }

  function IngestAll(db: Db, batch: seq<Thread>, s: Settings): Db {
    if batch == [] then db
    else IngestOne(IngestAll(db, batch[..|batch| - 1], s), batch[|batch| - 1], s)
  }

  predicate Distinct(batch: seq<Thread>) {
    forall i, j :: 0 <= i < j < |batch| ==> batch[i].id != batch[j].id
  }

  function OneOf(existing: Option<Record>, thread: Thread, s: Settings): Option<Record> {
    if thread.Usable? then Some(Ingested(existing, thread, s)) else existing
  }

  lemma {:induction false} Untouched(db: Db, batch: seq<Thread>, id: nat, s: Settings)
    requires forall i :: 0 <= i < |batch| ==> batch[i].id != id
    ensures Lookup(IngestAll(db, batch, s), id) == Lookup(db, id)
  {
    hide Ingested;
    if batch != [] {
      Untouched(db, batch[..|batch| - 1], id, s);
    }
  }

  lemma {:induction false} TouchedOnce(db: Db, batch: seq<Thread>, i: nat, s: Settings)
    requires Distinct(batch) && i < |batch|
    ensures Lookup(IngestAll(db, batch, s), batch[i].id) == OneOf(Lookup(db, batch[i].id), batch[i], s)
  {
    hide Ingested;
    var front := batch[..|batch| - 1];
    if i == |batch| - 1 {
      Untouched(db, front, batch[i].id, s);
    } else {
      TouchedOnce(db, front, i, s);
    }
  }

  lemma SameRows(a: Db, b: Db)
    requires forall id {:trigger Lookup(a, id)} :: Lookup(a, id) == Lookup(b, id)
    ensures a == b
  {
    assert forall id :: id in a <==> Lookup(a, id).Some?;
    assert forall id :: id in b ==> Lookup(a, id).Some?;
    assert a.Keys == b.Keys;
    forall id | id in a ensures a[id] == b[id] {
      assert Lookup(a, id) == Lookup(b, id);
    }
  }

  /** Processing the first k threads, and then the whole batch, is processing the batch. */
  lemma ReplayOnce(db: Db, batch: seq<Thread>, k: nat, s: Settings)
    requires Distinct(batch) && k <= |batch|
    ensures IngestAll(IngestAll(db, batch[..k], s), batch, s) == IngestAll(db, batch, s)
  {
    hide Ingested, IngestAll;
    var half := IngestAll(db, batch[..k], s);
    var whole, again := IngestAll(db, batch, s), IngestAll(half, batch, s);
    forall id {:trigger Lookup(again, id)} ensures Lookup(again, id) == Lookup(whole, id) {
      if i :| 0 <= i < |batch| && batch[i].id == id {
        TouchedOnce(half, batch, i, s);
        TouchedOnce(db, batch, i, s);
        if i < k {
          TouchedOnce(db, batch[..k], i, s);
          if batch[i].Usable? { IngestAgain(Lookup(db, id), batch[i], s); }
        } else {
          Untouched(db, batch[..k], id, s);
        }
      } else {
        Untouched(half, batch, id, s);
        Untouched(db, batch, id, s);
        Untouched(db, batch[..k], id, s);
      }
    }
    SameRows(again, whole);
  }

  /** Attempts that crashed after crashes[0], crashes[1], ... threads of the batch. */
  function Attempts(db: Db, batch: seq<Thread>, crashes: seq<nat>, s: Settings): Db {
    if crashes == [] then db
    else
      var before := Attempts(db, batch, crashes[..|crashes| - 1], s);
      var k := crashes[|crashes| - 1];
      IngestAll(before, if k <= |batch| then batch[..k] else batch, s)
  }

  /** However often a batch is started over from the last cursor, it ends as if nothing had happened. */
  lemma {:induction false} ReplayIsExact(db: Db, batch: seq<Thread>, crashes: seq<nat>, s: Settings)
    requires Distinct(batch)
    ensures IngestAll(Attempts(db, batch, crashes, s), batch, s) == IngestAll(db, batch, s)
  {
    hide IngestAll;
    if crashes != [] {
      var front, k := crashes[..|crashes| - 1], crashes[|crashes| - 1];
      ReplayIsExact(db, batch, front, s);
      assert batch[..|batch|] == batch;
      ReplayOnce(Attempts(db, batch, front, s), batch, if k <= |batch| then k else |batch|, s);
    }
  }

  /** A traversal: each batch is attempted, crashes, and is at last processed whole before the cursor moves. */
  datatype Attempted = Attempted(batch: seq<Thread>, crashes: seq<nat>)

  function Traversed(db: Db, run: seq<Attempted>, s: Settings): Db {
    if run == [] then db
    else
      var last := run[|run| - 1];
      IngestAll(Attempts(Traversed(db, run[..|run| - 1], s), last.batch, last.crashes, s), last.batch, s)
  }

  function CrashFree(run: seq<Attempted>): seq<Attempted> {
    seq(|run|, i requires 0 <= i < |run| => Attempted(run[i].batch, []))
  }

  /** Version, hash, chunks and revisions of every document are those of the crash-free traversal. */
  lemma {:induction false} CrashesLeaveNoTrace(db: Db, run: seq<Attempted>, s: Settings)
    requires forall i :: 0 <= i < |run| ==> Distinct(run[i].batch)
    ensures Traversed(db, run, s) == Traversed(db, CrashFree(run), s)
  {
    hide IngestAll, Distinct;
    if run != [] {
      var front, last := run[..|run| - 1], run[|run| - 1];
      CrashesLeaveNoTrace(db, front, s);
      assert CrashFree(run)[..|run| - 1] == CrashFree(front);
      ReplayIsExact(Traversed(db, front, s), last.batch, last.crashes, s);
    }
  }

  lemma RevisionsAfter(revisions: map<nat, Hash>, version: nat, hash: Hash, limit: nat)
    ensures var t := Newest(revisions[version := hash], limit);
            && |t| <= limit
            && (forall v :: v in t ==> if v == version then t[v] == hash else v in revisions && t[v] == revisions[v])
            && (limit >= 1 && (forall v :: v in revisions ==> v < version) ==> version in t)
  {
    RetentionKeepsTheNewest(revisions[version := hash], limit);
    if limit >= 1 && forall v :: v in revisions ==> v < version {
      assert NewerThan(revisions[version := hash].Keys, version) == {};
    }
  }

  lemma NewRow(title: string)
    ensures var r := NewDocument(title);
            && !r.edited && r.bm25 == NOT_INDEXED && r.vector == NOT_INDEXED && r.version == 1 && r.status == ACTIVE
            && r.normalizedTitle == title && r.revisions == map[] && r.chunks == []
  {
  }

  /** What an ingestion stores, on the fields of the row. */
  lemma IngestedRow(existing: Option<Record>, thread: Thread, s: Settings)
    requires thread.Usable?
    ensures var r := if existing.Some? then existing.value else NewDocument(thread.title);
            var t := Ingested(existing, thread, s);
            var title := if r.edited && exists i :: 0 <= i < |r.normalizedTitle|
                                                    && r.normalizedTitle[i] !in {' ', '\t', '\n', '\r'}
                         then r.normalizedTitle else thread.title;
            var changed := existing.None? || r.contentHash != t.contentHash;
            && t.contentHash == Sha(Content(title, thread.tags, thread.sections))
            && t.version == (if changed && existing.Some? then r.version + 1 else r.version)
            && t.normalizedTitle == (if r.edited then r.normalizedTitle else thread.title)
            && t.status == r.status && t.edited == r.edited
            && (changed ==>
                  && |t.chunks| == |s.chunker(t.contentHash.content)| == t.chunksCount
                  && (forall i :: 0 <= i < |t.chunks| ==>
                        && t.chunks[i].documentVersion == t.version && t.chunks[i].ordinal == i
                        && t.chunks[i].text == s.chunker(t.contentHash.content)[i]
                        && t.chunks[i].key == Key(t.version, i, t.chunks[i].text))
                  && (forall v :: v in t.revisions ==>
                        if v == t.version then t.revisions[v] == t.contentHash
                        else v in r.revisions && t.revisions[v] == r.revisions[v])
                  && (s.revisionLimit >= 1 && (forall v :: v in r.revisions ==> v < t.version) ==>
                        t.version in t.revisions)
                  && |t.revisions| <= s.revisionLimit
                  && t.bm25 == (if existing.None? || r.bm25 == NOT_INDEXED then NOT_INDEXED else IndexStatus.OUTDATED)
                  && t.vector
                     == (if existing.None? || r.vector == NOT_INDEXED then NOT_INDEXED else IndexStatus.OUTDATED))
            && (!changed ==> t == r.(normalizedTitle := t.normalizedTitle))
  {
    hide Newest, IsBlank;
    var r := if existing.Some? then existing.value else NewDocument(thread.title);
    var t := Ingested(existing, thread, s);
    BlankIff(r.normalizedTitle);
    RevisionsAfter(r.revisions, t.version, t.contentHash, s.revisionLimit);
  }

  // ---------- the row ----------

  class DocumentRow {
    var status: Status
    var version: nat
    var contentHash: Hash
    var normalizedTitle: string
    var lastEdited: bool
    var chunks: seq<Chunk>
    var chunksCount: nat
    var revisions: map<nat, Hash>
    var bm25: IndexStatus
    var vector: IndexStatus

    ghost function View(): Record
      reads this
    {
      Record(status, version, contentHash, normalizedTitle, lastEdited, chunks, chunksCount, revisions, bm25, vector)
    }

    constructor (title: string)
      ensures View() == NewDocument(title)
    {
      status, version, contentHash, normalizedTitle, lastEdited := ACTIVE, 1, Empty, title, false;
      chunks, chunksCount, revisions, bm25, vector := [], 0, map[], NOT_INDEXED, NOT_INDEXED;
    }

    /** ingest_question_thread on a loaded row, or on the row just made when the document is new. */
    method Ingest(isNew: bool, thread: Thread, s: Settings) returns (contentChanged: bool)
      requires thread.Usable? && (isNew ==> View() == NewDocument(thread.title))
      modifies this
      ensures View() == Ingested(if isNew then None else Some(old(View())), thread, s)
      // The stored content is the thread's, under an editor's title unless that is blank.
      ensures var title := if old(lastEdited)
                              && exists i :: 0 <= i < |old(normalizedTitle)|
                                             && old(normalizedTitle)[i] !in {' ', '\t', '\n', '\r'}
                           then old(normalizedTitle) else thread.title;
              contentHash == Sha(Content(title, thread.tags, thread.sections))
      ensures contentChanged <==> isNew || old(contentHash) != contentHash
      ensures version == if contentChanged && !isNew then old(version) + 1 else old(version)
      ensures normalizedTitle == if old(lastEdited) then old(normalizedTitle) else thread.title
      ensures status == old(status) && lastEdited == old(lastEdited)
      // New content: its chunks, numbered at the new version, its revision, and statuses that fall behind.
      ensures contentChanged ==>
                && |chunks| == |s.chunker(contentHash.content)| == chunksCount
                && (forall i :: 0 <= i < |chunks| ==>
                      && chunks[i].documentVersion == version && chunks[i].ordinal == i
                      && chunks[i].text == s.chunker(contentHash.content)[i]
                      && chunks[i].key == Key(version, i, chunks[i].text))
                && (forall v :: v in revisions ==>
                      if v == version then revisions[v] == contentHash
                      else v in old(revisions) && revisions[v] == old(revisions)[v])
                && (s.revisionLimit >= 1 && (forall v :: v in old(revisions) ==> v < version) ==> version in revisions)
                && |revisions| <= s.revisionLimit
                && bm25 == (if isNew || old(bm25) == NOT_INDEXED then NOT_INDEXED else IndexStatus.OUTDATED)
                && vector == (if isNew || old(vector) == NOT_INDEXED then NOT_INDEXED else IndexStatus.OUTDATED)
      ensures !contentChanged ==>
                && chunks == old(chunks) && chunksCount == old(chunksCount) && revisions == old(revisions)
                && bm25 == old(bm25) && vector == old(vector)
    {
      hide Ingested, NewDocument;
      contentChanged := StoreThread(isNew, thread, s);
      IngestedRow(if isNew then None else Some(old(View())), thread, s);
      if isNew { NewRow(thread.title); }
    }

    /** The steps of ingest_question_thread on the row. */
    method StoreThread(isNew: bool, thread: Thread, s: Settings) returns (contentChanged: bool)
      requires thread.Usable? && (isNew ==> View() == NewDocument(thread.title))
      modifies this
      ensures View() == Ingested(if isNew then None else Some(old(View())), thread, s)
      ensures contentChanged <==> isNew || old(contentHash) != contentHash
    {
      hide Newest, Chunked, IsBlank;
      var effectiveTitle := if lastEdited && !IsBlank(normalizedTitle) then normalizedTitle else thread.title;
      var content := Content(effectiveTitle, thread.tags, thread.sections);
      contentChanged := isNew || contentHash != Sha(content);
      if contentChanged && !isNew {
        version := version + 1;
      }
      if isNew || !lastEdited {
        normalizedTitle := thread.title;
      }
      contentHash := Sha(content);
      if contentChanged {
        CreateRevision(s.revisionLimit);
        chunksCount := ReplaceChunks(s.chunker(content));
        if isNew {
          bm25, vector := NOT_INDEXED, NOT_INDEXED;
        } else {
          bm25, vector := OutdatedIndex(bm25), OutdatedIndex(vector);
        }
      }
    }

    /** _create_revision */
    method CreateRevision(limit: nat)
      modifies this`revisions
      ensures revisions == Newest(old(revisions)[version := contentHash], limit)
    {
      revisions := revisions[version := contentHash];
      var obsolete := set v | v in revisions && |NewerThan(revisions.Keys, v)| >= limit;
      revisions := revisions - obsolete;
    }

    /** _replace_chunks */
    method ReplaceChunks(drafts: seq<string>) returns (count: nat)
      modifies this`chunks
      ensures chunks == Chunked(version, drafts) && count == |drafts|
    {
      chunks := [];
      for ordinal := 0 to |drafts|
        invariant chunks == Chunked(version, drafts[..ordinal])
      {
        chunks := chunks + [Chunk(version, ordinal, drafts[ordinal], Key(version, ordinal, drafts[ordinal]))];
      }
      assert drafts[..|drafts|] == drafts;
      count := |drafts|;
    }

    /** _rebase_chunks_after_editor_change */
    method RebaseChunks()
      modifies this`chunks
      ensures chunks == Rebased(old(chunks), version)
      ensures |chunks| == |old(chunks)|
      ensures forall i :: 0 <= i < |chunks| ==>
                && chunks[i].documentVersion == version
                && chunks[i].ordinal == old(chunks)[i].ordinal && chunks[i].text == old(chunks)[i].text
                && chunks[i].key == Key(version, chunks[i].ordinal, chunks[i].text)
    {
      for i := 0 to |chunks|
        invariant |chunks| == |old(chunks)|
        invariant forall j :: 0 <= j < i ==> chunks[j] == RebasedChunk(old(chunks)[j], version)
        invariant forall j :: i <= j < |chunks| ==> chunks[j] == old(chunks)[j]
      {
        chunks := chunks[i := RebasedChunk(chunks[i], version)];
      }
    }

    /** What every change by an editor does: a new version that the chunks move to, and statuses that fall behind. */
    method Edit()
      modifies this`version, this`lastEdited, this`chunks, this`bm25, this`vector
      ensures View() == Edited(old(View()))
      ensures version == old(version) + 1 && lastEdited
      ensures |chunks| == |old(chunks)|
      ensures forall i :: 0 <= i < |chunks| ==>
                && chunks[i].documentVersion == version
                && chunks[i].ordinal == old(chunks)[i].ordinal && chunks[i].text == old(chunks)[i].text
                && chunks[i].key == Key(version, chunks[i].ordinal, chunks[i].text)
      ensures bm25 == if old(bm25) == NOT_INDEXED then NOT_INDEXED else IndexStatus.OUTDATED
      ensures vector == if old(vector) == NOT_INDEXED then NOT_INDEXED else IndexStatus.OUTDATED
    {
      version := version + 1;
      lastEdited := true;
      RebaseChunks();
      bm25, vector := OutdatedIndex(bm25), OutdatedIndex(vector);
    }

    /** update_metadata */
    method UpdateMetadata(title: string, ghost s: Settings)
      modifies this
      ensures View() == Apply(old(View()), Operation.UpdateMetadata(title), s)
      ensures normalizedTitle == title && version == old(version) + 1 && lastEdited
      ensures status == old(status) && contentHash == old(contentHash) && revisions == old(revisions)
      ensures |chunks| == |old(chunks)|
      ensures forall i :: 0 <= i < |chunks| ==>
                && chunks[i].documentVersion == version
                && chunks[i].ordinal == old(chunks)[i].ordinal && chunks[i].text == old(chunks)[i].text
                && chunks[i].key == Key(version, chunks[i].ordinal, chunks[i].text)
      ensures bm25 == if old(bm25) == NOT_INDEXED then NOT_INDEXED else IndexStatus.OUTDATED
      ensures vector == if old(vector) == NOT_INDEXED then NOT_INDEXED else IndexStatus.OUTDATED
    {
      normalizedTitle := title;
      Edit();
    }

    /** hide_document */
    method Hide(ghost s: Settings) returns (conflict: bool)
      modifies this
      ensures View() == Apply(old(View()), Operation.Hide, s)
      ensures conflict <==> old(status) != ACTIVE && old(status) != Status.OUTDATED
      ensures conflict ==> View() == old(View())
      ensures !conflict ==>
                && status == HIDDEN && version == old(version) + 1 && lastEdited
                && normalizedTitle == old(normalizedTitle) && contentHash == old(contentHash)
                && chunks == Rebased(old(chunks), version)
    {
      if status !in {ACTIVE, Status.OUTDATED} { return true; }
      status := HIDDEN;
      Edit();
      conflict := false;
    }

    /** restore_document: the statuses are read before they become outdated themselves. */
    method Restore(ghost s: Settings) returns (conflict: bool)
      modifies this
      ensures View() == Apply(old(View()), Operation.Restore, s)
      ensures conflict <==> old(status) != HIDDEN
      ensures conflict ==> View() == old(View())
      ensures !conflict ==>
                && status == (if old(bm25) == IndexStatus.OUTDATED || old(vector) == IndexStatus.OUTDATED
                              then Status.OUTDATED else ACTIVE)
                && version == old(version) + 1 && lastEdited
                && normalizedTitle == old(normalizedTitle) && contentHash == old(contentHash)
                && chunks == Rebased(old(chunks), version)
    {
      if status != HIDDEN { return true; }
      status := if IndexStatus.OUTDATED in {bm25, vector} then Status.OUTDATED else ACTIVE;
      Edit();
      conflict := false;
    }
  }

  // ---------- bulk operations ----------

  datatype BulkAction = HideAll | RestoreAll

  datatype Outcome = SUCCESS | SKIPPED | FAILED

  function OperationOf(a: BulkAction): Operation {
    if a == HideAll then Hide else BulkRestore
  }

  predicate Compatible(r: Record, a: BulkAction) {
    if a == HideAll then CanHide(r) else r.status == HIDDEN
  }

  /** The outcome for a document that is named after `earlier` ones. */
  function OutcomeOf(db: Db, action: BulkAction, id: nat, earlier: set<nat>): Outcome {
    if id !in db then Outcome.FAILED
    else if Compatible(db[id], action) && id !in earlier then SUCCESS
    else SKIPPED
  }

  /** The first n of the named documents. */
  function Named(ids: seq<nat>, n: nat): set<nat>
    requires n <= |ids|
  {
    set i | 0 <= i < n :: ids[i]
  }

  lemma NoneNamed(ids: seq<nat>)
    ensures Named(ids, 0) == {}
  {
  }

  lemma OneMoreNamed(ids: seq<nat>, n: nat)
    requires n < |ids|
    ensures Named(ids, n + 1) == Named(ids, n) + {ids[n]}
  {
  }

  lemma BulkStep(r: Record, a: BulkAction, s: Settings)
    ensures var t := Apply(r, OperationOf(a), s);
            && !Compatible(t, a)
            && t == if Compatible(r, a) then Edited(r).(status := if a == HideAll then HIDDEN else ACTIVE) else r
  {
  }

  lemma NamedAre(ids: seq<nat>, n: nat)
    requires n <= |ids|
    ensures forall id :: id in Named(ids, n) <==> id in ids[..n]
  {
    forall id | id in ids[..n] ensures id in Named(ids, n) {
      var i :| 0 <= i < n && ids[i] == id;
    }
  }

  lemma BulkRow(r: Record, a: BulkAction, s: Settings)
    ensures var t := Apply(r, OperationOf(a), s);
            if (a == HideAll && (r.status == ACTIVE || r.status == Status.OUTDATED))
               || (a == RestoreAll && r.status == HIDDEN)
            then Compatible(r, a) && t.status == (if a == HideAll then HIDDEN else ACTIVE)
                 && t.version == r.version + 1 && t.contentHash == r.contentHash && t != r
            else !Compatible(r, a) && t == r
  {
  }

  /** bulk_documents. A document named twice is changed once: it succeeds where it is named first, and the
      second time its status no longer fits. */
  method BulkDocuments(db: Db, ids: seq<nat>, action: BulkAction, s: Settings)
          returns (after: Db, outcomes: seq<Outcome>)
    ensures after.Keys == db.Keys && |outcomes| == |ids|
    ensures forall id :: id in db ==>
              after[id] == if id in Named(ids, |ids|) then Apply(db[id], OperationOf(action), s) else db[id]
    ensures forall i :: 0 <= i < |ids| ==> outcomes[i] == OutcomeOf(db, action, ids[i], Named(ids, i))
    // On the rows: hiding takes ACTIVE and OUTDATED to HIDDEN, restoring takes HIDDEN to ACTIVE, each with one new
    // version; every other row stays.
    ensures forall id :: id in db && id !in ids ==> after[id] == db[id]
    ensures forall id :: id in db && id in ids ==>
              if (action == HideAll && (db[id].status == ACTIVE || db[id].status == Status.OUTDATED))
                 || (action == RestoreAll && db[id].status == HIDDEN)
              then after[id].status == (if action == HideAll then HIDDEN else ACTIVE)
                   && after[id].version == db[id].version + 1 && after[id].contentHash == db[id].contentHash
              else after[id] == db[id]
    ensures forall i :: 0 <= i < |ids| ==>
              && (outcomes[i] == Outcome.FAILED <==> ids[i] !in db)
              && (outcomes[i] == SUCCESS <==>
                    && ids[i] in db && after[ids[i]] != db[ids[i]] && ids[i] !in ids[..i])
  {
    hide Edited, Apply, Compatible, OperationOf, Named;
    after, outcomes := db, [];
    NoneNamed(ids);
    for i := 0 to |ids|
      invariant after.Keys == db.Keys && |outcomes| == i
      invariant forall id :: id in db ==>
                  after[id] == if id in Named(ids, i) then Apply(db[id], OperationOf(action), s) else db[id]
      invariant forall j :: 0 <= j < i ==> outcomes[j] == OutcomeOf(db, action, ids[j], Named(ids, j))
    {
      var id := ids[i];
      OneMoreNamed(ids, i);
      if id !in after {
        outcomes := outcomes + [Outcome.FAILED];
      } else {
        BulkStep(db[id], action, s);
        if !Compatible(after[id], action) {
          outcomes := outcomes + [SKIPPED];
        } else {
          after := after[id := Edited(after[id]).(status := if action == HideAll then HIDDEN else ACTIVE)];
          outcomes := outcomes + [SUCCESS];
        }
      }
    }
    forall i: nat | i <= |ids| ensures forall id :: id in Named(ids, i) <==> id in ids[..i] { NamedAre(ids, i); }
    assert ids[..|ids|] == ids;
    forall id | id in db
      ensures var t := Apply(db[id], OperationOf(action), s);
              if (action == HideAll && (db[id].status == ACTIVE || db[id].status == Status.OUTDATED))
                 || (action == RestoreAll && db[id].status == HIDDEN)
              then Compatible(db[id], action) && t != db[id]
                   && t.status == (if action == HideAll then HIDDEN else ACTIVE)
                   && t.version == db[id].version + 1 && t.contentHash == db[id].contentHash
              else !Compatible(db[id], action) && t == db[id]
    {
      BulkRow(db[id], action, s);
    }
  }
}
