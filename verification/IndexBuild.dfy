/** The batch loop of a full reindex: two stores without a common transaction, and a checkpoint. */
module IndexBuild {
  import opened Common

  /** A chunk that the eligibility filters select. */
  datatype ChunkRow = ChunkRow(id: nat, documentVersion: nat, contentHash: nat)

  /** stable_point_id: a function of the chunk that takes different chunks to different points. */
  datatype Point = Point(id: nat, documentVersion: nat, contentHash: nat)

  function PointOf(row: ChunkRow): Point {
    Point(row.id, row.documentVersion, row.contentHash)
  }

  /** The eligible chunks in the order of their ids, as the snapshot froze them. */
  predicate Corpus(eligible: seq<ChunkRow>) {
    forall i, j :: 0 <= i < j < |eligible| ==> eligible[i].id < eligible[j].id
  }

  predicate Before(row: ChunkRow, last: Option<nat>) {
    last.Some? && row.id <= last.value
  }

  /** The rows with an id above the last one that was committed. */
  function After(eligible: seq<ChunkRow>, last: Option<nat>): seq<ChunkRow> {
    if eligible == [] then []
    else if Before(eligible[0], last) then After(eligible[1..], last)
    else [eligible[0]] + After(eligible[1..], last)
  }

  /** _load_eligible_batch */
  function Batch(eligible: seq<ChunkRow>, last: Option<nat>, size: nat): seq<ChunkRow> {
    var rest := After(eligible, last);
    if |rest| <= size then rest else rest[..size]
  }

  function Ids(rows: seq<ChunkRow>): set<nat> {
    set row | row in rows :: row.id
  }

  function Points(rows: seq<ChunkRow>): set<Point> {
    set row | row in rows :: PointOf(row)
  }

  /** The Qdrant collection, the INDEXED entries and the checkpoint in PostgreSQL. */
  datatype Stores = Stores(points: set<Point>, entries: set<nat>, last: Option<nat>)

  /** Where the handler stands: it has loaded nothing yet, or has sent its batch to Qdrant. */
  datatype Handler = Loading | Uploaded(batch: seq<ChunkRow>)

  datatype State = State(stores: Stores, processed: nat, handler: Handler)

  // ---------- the steps ----------

  /** Any part of the batch may reach Qdrant before the process dies. */
  ghost predicate CrashInUpsert(eligible: seq<ChunkRow>, size: nat, s: State, t: State) {
    && s.handler == Loading
    && (exists written :: written <= Points(Batch(eligible, s.stores.last, size))
                          && t.stores == s.stores.(points := s.stores.points + written))
    && Restarted(t)
  }

  /** qdrant.upsert of the loaded batch. */
  ghost predicate Upsert(eligible: seq<ChunkRow>, size: nat, s: State, t: State) {
    var batch := Batch(eligible, s.stores.last, size);
    && s.handler == Loading && batch != []
    && t == s.(stores := s.stores.(points := s.stores.points + Points(batch)), handler := Uploaded(batch))
  }

  /** Entries and checkpoint in one transaction. */
  ghost predicate Commit(s: State, t: State) {
    && s.handler.Uploaded? && s.handler.batch != []
    && var batch := s.handler.batch;
       t == State(s.stores.(entries := s.stores.entries + Ids(batch), last := Some(batch[|batch| - 1].id)),
                  s.processed + |batch|, Loading)
  }

  /** A crash, a cancel or a lost lease between two writes; the next attempt counts the entries again. */
  ghost predicate Restart(s: State, t: State) {
    t.stores == s.stores && Restarted(t)
  }

  ghost predicate Restarted(t: State) {
    t.handler == Loading && t.processed == |t.stores.entries|
  }

  ghost predicate Step(eligible: seq<ChunkRow>, size: nat, s: State, t: State) {
    || CrashInUpsert(eligible, size, s, t)
    || Upsert(eligible, size, s, t)
    || Commit(s, t)
    || Restart(s, t)
  }

  const EMPTY := State(Stores({}, {}, None), 0, Loading)

  ghost predicate Run(eligible: seq<ChunkRow>, size: nat, trace: seq<State>) {
    && trace != [] && trace[0] == EMPTY
    && forall i :: 0 <= i < |trace| - 1 ==> Step(eligible, size, trace[i], trace[i + 1])
  }

  // ---------- what every run keeps ----------

  /** The chunks up to the checkpoint. */
  ghost function Indexed(eligible: seq<ChunkRow>, last: Option<nat>): set<nat> {
    set row | row in eligible && Before(row, last) :: row.id
  }

  ghost function IndexedPoints(eligible: seq<ChunkRow>, last: Option<nat>): set<Point> {
    set row | row in eligible && Before(row, last) :: PointOf(row)
  }

  /** Entries are exactly the eligible chunks up to the checkpoint; Qdrant holds their points, and beyond
      them nothing but points of the batch in flight. */
  ghost predicate Consistent(eligible: seq<ChunkRow>, size: nat, stores: Stores) {
    && stores.entries == Indexed(eligible, stores.last)
    && IndexedPoints(eligible, stores.last) <= stores.points
    && stores.points <= IndexedPoints(eligible, stores.last) + Points(Batch(eligible, stores.last, size))
  }

  ghost predicate Inv(eligible: seq<ChunkRow>, size: nat, s: State) {
    && Consistent(eligible, size, s.stores)
    && s.processed == |s.stores.entries|
    && (s.handler.Uploaded? ==>
          && s.handler.batch == Batch(eligible, s.stores.last, size)
          && s.handler.batch != []
          && Points(s.handler.batch) <= s.stores.points)
  }

  lemma {:induction false} AfterIs(eligible: seq<ChunkRow>, last: Option<nat>)
    requires Corpus(eligible)
    ensures Corpus(After(eligible, last))
    ensures forall row :: row in After(eligible, last) <==> row in eligible && !Before(row, last)
  {
    if eligible != [] {
      var rest := eligible[1..];
      AfterIs(rest, last);
      assert eligible == [eligible[0]] + rest;
      forall row | row in rest ensures eligible[0].id < row.id {
      }
    }
  }

  lemma BatchIs(eligible: seq<ChunkRow>, last: Option<nat>, size: nat)
    requires Corpus(eligible)
    ensures var batch := Batch(eligible, last, size);
            && Corpus(batch)
            && (forall row :: row in batch ==> row in eligible && !Before(row, last))
            && (batch != [] ==>
                  var next := Some(batch[|batch| - 1].id);
                  forall row :: row in eligible ==> (Before(row, next) <==> Before(row, last) || row in batch))
  {
    AfterIs(eligible, last);
    var rest, batch := After(eligible, last), Batch(eligible, last, size);
    if batch != [] {
      var next := Some(batch[|batch| - 1].id);
      forall row | row in eligible ensures Before(row, next) <==> Before(row, last) || row in batch {
        if Before(row, last) {
          assert batch[|batch| - 1] == rest[|batch| - 1];
          assert rest[|batch| - 1] in rest;
        } else {
          assert row in rest;
          var i :| 0 <= i < |rest| && rest[i] == row;
          assert rest[|batch| - 1].id == next.value;
          if i < |batch| { assert batch[i] == row; }
        }
      }
    }
  }

  lemma AdvanceIds(eligible: seq<ChunkRow>, last: Option<nat>, next: Option<nat>, batch: seq<ChunkRow>)
    requires forall row :: row in batch ==> row in eligible
    requires forall row :: row in eligible ==> (Before(row, next) <==> Before(row, last) || row in batch)
    ensures Indexed(eligible, next) == Indexed(eligible, last) + Ids(batch)
  {
  }

  lemma AdvancePoints(eligible: seq<ChunkRow>, last: Option<nat>, next: Option<nat>, batch: seq<ChunkRow>)
    requires forall row :: row in batch ==> row in eligible
    requires forall row :: row in eligible ==> (Before(row, next) <==> Before(row, last) || row in batch)
    ensures IndexedPoints(eligible, next) == IndexedPoints(eligible, last) + Points(batch)
  {
  }

  lemma BatchIsNew(eligible: seq<ChunkRow>, last: Option<nat>, batch: seq<ChunkRow>)
    requires forall row :: row in batch ==> !Before(row, last)
    ensures Indexed(eligible, last) !! Ids(batch)
  {
    assert forall id :: id in Indexed(eligible, last) ==> last.Some? && id <= last.value;
    assert forall id :: id in Ids(batch) ==> !(last.Some? && id <= last.value);
  }

  /** Committing a batch moves the checkpoint past exactly the chunks of the batch. */
  lemma CommitAdvances(eligible: seq<ChunkRow>, last: Option<nat>, size: nat)
    requires Corpus(eligible) && Batch(eligible, last, size) != []
    ensures var batch := Batch(eligible, last, size);
            var next := Some(batch[|batch| - 1].id);
            && Indexed(eligible, next) == Indexed(eligible, last) + Ids(batch)
            && IndexedPoints(eligible, next) == IndexedPoints(eligible, last) + Points(batch)
            && |Ids(batch)| == |batch|
            && Indexed(eligible, last) !! Ids(batch)
  {
    hide *;
    var batch := Batch(eligible, last, size);
    var next := Some(batch[|batch| - 1].id);
    BatchIs(eligible, last, size);
    CountIds(batch);
    AdvanceIds(eligible, last, next, batch);
    AdvancePoints(eligible, last, next, batch);
    BatchIsNew(eligible, last, batch);
  }

  lemma {:induction false} CountIds(rows: seq<ChunkRow>)
    requires Corpus(rows)
    ensures |Ids(rows)| == |rows| && |Points(rows)| == |rows|
  {
    if rows == [] {
      assert Ids(rows) == {} && Points(rows) == {};
    } else {
      var n := |rows| - 1;
      CountIds(rows[..n]);
      assert rows == rows[..n] + [rows[n]];
      assert Ids(rows) == Ids(rows[..n]) + {rows[n].id};
      assert Points(rows) == Points(rows[..n]) + {PointOf(rows[n])};
      forall row | row in rows[..n] ensures row.id != rows[n].id {
      }
    }
  }

  lemma StepKeepsInv(eligible: seq<ChunkRow>, size: nat, s: State, t: State)
    requires Corpus(eligible) && Inv(eligible, size, s) && Step(eligible, size, s, t)
    ensures Inv(eligible, size, t)
  {
    hide After, Batch, Ids, Points, Indexed, IndexedPoints, Before;
    if Commit(s, t) {
      CommitAdvances(eligible, s.stores.last, size);
    }
  }

  /** Over every run, with crashes, cancels and resumes anywhere. */
  lemma {:induction false} EveryRunIsConsistent(eligible: seq<ChunkRow>, size: nat, trace: seq<State>)
    requires Corpus(eligible) && Run(eligible, size, trace)
    ensures Inv(eligible, size, trace[|trace| - 1])
  {
    var n := |trace| - 1;
    if n == 0 {
      assert Indexed(eligible, None) == {} && IndexedPoints(eligible, None) == {};
    } else {
      EveryRunIsConsistent(eligible, size, trace[..n]);
      assert trace[..n][n - 1] == trace[n - 1];
      StepKeepsInv(eligible, size, trace[n - 1], trace[n]);
    }
  }

  /** Qdrant is ahead of the entries by at most one batch. */
  lemma AheadByOneBatch(eligible: seq<ChunkRow>, size: nat, stores: Stores)
    requires Corpus(eligible) && Consistent(eligible, size, stores)
    ensures |stores.points - IndexedPoints(eligible, stores.last)| <= size
    ensures |IndexedPoints(eligible, stores.last)| == |stores.entries|
  {
    var batch := Batch(eligible, stores.last, size);
    BatchIs(eligible, stores.last, size);
    CountIds(batch);
    Smaller(stores.points - IndexedPoints(eligible, stores.last), Points(batch));
    CountIndexed(eligible, stores.last);
  }

  /** The rows up to the checkpoint. */
  function Upto(eligible: seq<ChunkRow>, last: Option<nat>): seq<ChunkRow> {
    if eligible == [] || !Before(eligible[0], last) then []
    else [eligible[0]] + Upto(eligible[1..], last)
  }

  lemma {:induction false} UptoIs(eligible: seq<ChunkRow>, last: Option<nat>)
    requires Corpus(eligible)
    ensures Corpus(Upto(eligible, last))
    ensures forall row :: row in Upto(eligible, last) <==> row in eligible && Before(row, last)
  {
    if eligible != [] {
      assert eligible == [eligible[0]] + eligible[1..];
      UptoIs(eligible[1..], last);
      forall row | row in eligible[1..] ensures eligible[0].id < row.id {
      }
    }
  }

  lemma CountIndexed(eligible: seq<ChunkRow>, last: Option<nat>)
    requires Corpus(eligible)
    ensures |IndexedPoints(eligible, last)| == |Indexed(eligible, last)|
  {
    UptoIs(eligible, last);
    CountIds(Upto(eligible, last));
    assert Indexed(eligible, last) == Ids(Upto(eligible, last));
    assert IndexedPoints(eligible, last) == Points(Upto(eligible, last));
  }

  /** When no chunk is left to load, both stores hold exactly the eligible chunks: the count gate passes. */
  lemma GatePasses(eligible: seq<ChunkRow>, size: nat, s: State)
    requires Corpus(eligible) && size >= 1 && Inv(eligible, size, s)
    requires s.handler == Loading && Batch(eligible, s.stores.last, size) == []
    ensures s.stores.entries == Ids(eligible) && s.stores.points == Points(eligible)
    ensures |s.stores.points| == |eligible| && s.processed == |eligible|
  {
    AfterIs(eligible, s.stores.last);
    assert After(eligible, s.stores.last) == [];
    forall row | row in eligible ensures Before(row, s.stores.last) {
      assert row !in After(eligible, s.stores.last);
    }
    CountIds(eligible);
  }

  // ---------- the handler ----------

  datatype Outcome = GatePassed | CountMismatch | Interrupted

  class FullReindex {
    var points: set<Point>
    var entries: set<nat>
    var checkpoint: Option<nat>

    ghost function View(): Stores
      reads this
    {
      Stores(points, entries, checkpoint)
    }

    constructor ()
      ensures View() == EMPTY.stores
    {
      points, entries, checkpoint := {}, {}, None;
    }

    /** One attempt of _full_reindex up to the count gate. Every `*` is a place where the process may die,
        be cancelled or lose its lease. */
    method Attempt(eligible: seq<ChunkRow>, size: nat) returns (outcome: Outcome)
      requires Corpus(eligible) && size >= 1 && Consistent(eligible, size, View())
      modifies this
      ensures Consistent(eligible, size, View())
      ensures old(entries) <= entries
      ensures outcome != CountMismatch
      ensures outcome == GatePassed ==> points == Points(eligible) && entries == Ids(eligible)
    {
      hide After, Batch, Points, Ids, Indexed, IndexedPoints, Consistent, Corpus;
      var lastChunkId := checkpoint;
      var processed: nat := |entries|;
      var total := |eligible|;
      while true
        invariant lastChunkId == checkpoint
        invariant Inv(eligible, size, State(View(), processed, Loading))
        invariant old(entries) <= entries
        decreases |After(eligible, lastChunkId)|
      {
        ghost var s := State(View(), processed, Loading);
        if * { return Interrupted; }
        var chunks := Batch(eligible, lastChunkId, size);
        if chunks == [] { break; }
        if * {
          var written :| written <= Points(chunks);
          points := points + written;
          assert CrashInUpsert(eligible, size, s, State(View(), |entries|, Loading));
          StepKeepsInv(eligible, size, s, State(View(), |entries|, Loading));
          return Interrupted;
        }
        points := points + Points(chunks);
        ghost var t := State(View(), processed, Uploaded(chunks));
        StepKeepsInv(eligible, size, s, t);
        if * { return Interrupted; }
        processed := processed + |chunks|;
        lastChunkId := Some(chunks[|chunks| - 1].id);
        if * { return Interrupted; }
        ShrinksAfter(eligible, checkpoint, size);
        entries, checkpoint := entries + Ids(chunks), lastChunkId;
        StepKeepsInv(eligible, size, t, State(View(), processed, Loading));
      }
      GatePasses(eligible, size, State(View(), processed, Loading));
      if |points| != total || processed != total {
        return CountMismatch;
      }
      outcome := GatePassed;
    }
  }

  lemma ShrinksAfter(eligible: seq<ChunkRow>, last: Option<nat>, size: nat)
    requires Corpus(eligible) && Batch(eligible, last, size) != []
    ensures var batch := Batch(eligible, last, size);
            |After(eligible, Some(batch[|batch| - 1].id))| < |After(eligible, last)|
  {
    var batch := Batch(eligible, last, size);
    var next := Some(batch[|batch| - 1].id);
    AfterIs(eligible, last);
    AfterIs(eligible, next);
    BatchIs(eligible, last, size);
    CountIds(After(eligible, last));
    CountIds(After(eligible, next));
    var x := batch[|batch| - 1];
    assert x in batch;
    assert Ids(After(eligible, next)) <= Ids(After(eligible, last)) - {x.id} by {
      forall id | id in Ids(After(eligible, next)) ensures id in Ids(After(eligible, last)) && id != x.id {
        var row :| row in After(eligible, next) && row.id == id;
        assert !Before(row, next);
      }
    }
    assert x.id in Ids(After(eligible, last));
    Smaller(Ids(After(eligible, next)), Ids(After(eligible, last)) - {x.id});
  }

  /** A job over all its attempts: however often it is interrupted, what an attempt leaves behind is what
      the next one can continue from. */
  method RunJob(job: FullReindex, eligible: seq<ChunkRow>, size: nat, attempts: nat) returns (outcome: Outcome)
    requires Corpus(eligible) && size >= 1 && Consistent(eligible, size, job.View())
    modifies job
    ensures Consistent(eligible, size, job.View())
    ensures outcome != CountMismatch
    ensures outcome == GatePassed ==> job.points == Points(eligible) && job.entries == Ids(eligible)
  {
    outcome := Interrupted;
    var attempt := 0;
    while attempt < attempts && outcome == Interrupted
      invariant Consistent(eligible, size, job.View())
      invariant outcome != CountMismatch
      invariant outcome == GatePassed ==> job.points == Points(eligible) && job.entries == Ids(eligible)
    {
      outcome := job.Attempt(eligible, size);
      attempt := attempt + 1;
    }
  }
}
