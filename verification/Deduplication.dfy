/** Exact deduplication: a transaction takes the lock of its content hash, reads the committed rows, and
    commits its verdict later. */
module Deduplication {
  import opened Common

  /** deduplication_status and duplicate_of_document_id are written together. */
  datatype Verdict = Unique | DuplicateOf(target: nat)

  /** Documents are numbered in the order of (created_at, id). */
  datatype Doc = Doc(hash: nat, verdict: Verdict)

  /** An ingestion between its lock and its commit. */
  datatype Open = Open(hash: nat, verdict: Verdict)

  datatype Database = Database(docs: map<nat, Doc>, open: map<nat, Open>)

  // ---------- the query ----------

  predicate IsOriginal(docs: map<nat, Doc>, id: nat, hash: nat) {
    id in docs && docs[id] == Doc(hash, Unique)
  }

  function Originals(docs: map<nat, Doc>, self: nat, hash: nat): set<nat> {
    set id | id in docs && id != self && IsOriginal(docs, id, hash)
  }

  /** ORDER BY created_at, id LIMIT 1 */
  ghost predicate IsVerdict(docs: map<nat, Doc>, self: nat, hash: nat, v: Verdict) {
    var originals := Originals(docs, self, hash);
    match v
    case Unique => originals == {}
    case DuplicateOf(target) => target in originals && forall x :: x in originals ==> target <= x
  }

  // ---------- the steps of any interleaving ----------

  datatype Step = Begin(id: nat, hash: nat, verdict: Verdict) | Commit(id: nat) | Abort(id: nat)

  /** The row lock keeps a document in one transaction; the advisory lock keeps a hash in one. */
  ghost predicate CanTake(db: Database, step: Step) {
    match step
    case Begin(id, hash, verdict) =>
      && id !in db.open
      && (forall other :: other in db.open ==> db.open[other].hash != hash)
      && IsVerdict(db.docs, id, hash, verdict)
    case Commit(id) => id in db.open
    case Abort(id) => id in db.open
  }

  function Take(db: Database, step: Step): Database {
    match step
    case Begin(id, hash, verdict) => db.(open := db.open[id := Open(hash, verdict)])
    case Commit(id) =>
      if id in db.open then Database(db.docs[id := Doc(db.open[id].hash, db.open[id].verdict)], db.open - {id}) else db
    case Abort(id) => db.(open := db.open - {id})
  }

  ghost predicate IsRun(db: Database, steps: seq<Step>)
    decreases |steps|
  {
    steps == [] || (CanTake(db, steps[0]) && IsRun(Take(db, steps[0]), steps[1..]))
  }

  function After(db: Database, steps: seq<Step>): Database
    decreases |steps|
  {
    if steps == [] then db else After(Take(db, steps[0]), steps[1..])
  }

  lemma NoSteps(db: Database)
    ensures IsRun(db, []) && After(db, []) == db
  {
  }

  lemma OneStep(db: Database, step: Step, rest: seq<Step>)
    requires CanTake(db, step) && IsRun(Take(db, step), rest)
    ensures IsRun(db, [step] + rest) && After(db, [step] + rest) == After(Take(db, step), rest)
  {
    hide CanTake, Take;
    assert ([step] + rest)[1..] == rest;
  }

  lemma {:induction false} OneMoreStep(db: Database, steps: seq<Step>, step: Step)
    requires IsRun(db, steps) && CanTake(After(db, steps), step)
    ensures IsRun(db, steps + [step]) && After(db, steps + [step]) == Take(After(db, steps), step)
    decreases |steps|
  {
    hide CanTake, Take;
    if steps == [] {
      NoSteps(Take(db, step));
      OneStep(db, step, []);
      assert [step] + [] == steps + [step];
    } else {
      var first, rest := steps[0], steps[1..];
      OneMoreStep(Take(db, first), rest, step);
      OneStep(db, first, rest + [step]);
      assert [first] + (rest + [step]) == steps + [step];
    }
  }

  // ---------- where a verdict comes from ----------

  /** What the query of document `id` says of these rows. */
  ghost predicate Judged(docs: map<nat, Doc>, id: nat, d: Doc) {
    && (d.verdict == Unique <==> forall x :: x in docs && x != id ==> docs[x] != Doc(d.hash, Unique))
    && (d.verdict.DuplicateOf? ==>
          && d.verdict.target in docs && d.verdict.target != id
          && docs[d.verdict.target] == Doc(d.hash, Unique)
          && forall x :: x in docs && x != id && docs[x] == Doc(d.hash, Unique) ==> d.verdict.target <= x)
  }

  /** Over every run: a row that is not one from before, nor of an ingestion that was open before, was judged at the
      state that its lock found. So a duplicate has the hash of its target, which was an original then. */
  lemma {:induction false} EveryVerdictWasJudged(db: Database, steps: seq<Step>, id: nat) returns (j: nat)
    requires IsRun(db, steps) && id in After(db, steps).docs
    ensures var d := After(db, steps).docs[id];
            || (id in db.docs && db.docs[id] == d)
            || (id in db.open && db.open[id] == Open(d.hash, d.verdict))
            || (&& j < |steps| && steps[j] == Begin(id, d.hash, d.verdict)
                && Judged(After(db, steps[..j]).docs, id, d))
    decreases |steps|
  {
    if steps == [] {
      j := 0;
    } else {
      var t, rest := Take(db, steps[0]), steps[1..];
      var i := EveryVerdictWasJudged(t, rest, id);
      var d := After(db, steps).docs[id];
      if id in t.docs && t.docs[id] == d {
        j := 0;
      } else if id in t.open && t.open[id] == Open(d.hash, d.verdict) {
        j := 0;
        assert steps[..0] == [];
        if steps[0].Begin? && steps[0].id == id { QueryJudges(db.docs, id, d); }
      } else {
        j := i + 1;
        assert steps[..j][1..] == rest[..i];
      }
    }
  }

  lemma QueryJudges(docs: map<nat, Doc>, id: nat, d: Doc)
    requires IsVerdict(docs, id, d.hash, d.verdict)
    ensures Judged(docs, id, d)
  {
    assert forall x: nat :: x in Originals(docs, id, d.hash) <==>
        x in docs && x != id && docs[x] == Doc(d.hash, Unique);
  }

  // ---------- at most one original per hash ----------

  ghost predicate OneOriginal(docs: map<nat, Doc>) {
    forall a, b, hash :: IsOriginal(docs, a, hash) && IsOriginal(docs, b, hash) ==> a == b
  }

  /** An open ingestion that will be an original has no rival, and nobody else holds its hash. */
  ghost predicate Safe(db: Database) {
    && OneOriginal(db.docs)
    && (forall a, b :: a in db.open && b in db.open && db.open[a].hash == db.open[b].hash ==> a == b)
    && (forall a :: a in db.open && db.open[a].verdict == Unique ==>
          forall b :: IsOriginal(db.docs, b, db.open[a].hash) ==> a == b)
  }

  lemma NoRival(docs: map<nat, Doc>, id: nat, hash: nat, verdict: Verdict)
    requires IsVerdict(docs, id, hash, verdict) && verdict == Unique
    ensures forall b :: IsOriginal(docs, b, hash) ==> b == id
  {
    assert forall b :: IsOriginal(docs, b, hash) && b != id ==> b in Originals(docs, id, hash);
  }

  lemma StepIsSafe(db: Database, step: Step)
    requires Safe(db) && CanTake(db, step)
    ensures Safe(Take(db, step))
  {
    var t := Take(db, step);
    if step.Begin? {
      assert t.docs == db.docs;
      if step.verdict == Unique { NoRival(db.docs, step.id, step.hash, step.verdict); }
    } else {
      assert forall b, hash :: IsOriginal(t.docs, b, hash) ==>
          || IsOriginal(db.docs, b, hash)
          || (b == step.id && db.open[b] == Open(hash, Unique));
      forall a, b, hash | IsOriginal(t.docs, a, hash) && IsOriginal(t.docs, b, hash) ensures a == b {
        assert IsOriginal(db.docs, a, hash) || IsOriginal(db.docs, b, hash) || a == b;
      }
    }
  }

  /** In every state of any interleaving at most one document of a hash is not a duplicate. */
  lemma {:induction false} EveryRunHasOneOriginal(db: Database, steps: seq<Step>)
    requires Safe(db) && IsRun(db, steps)
    ensures Safe(After(db, steps)) && OneOriginal(After(db, steps).docs)
    decreases |steps|
  {
    hide Safe, CanTake, Take;
    if steps != [] {
      StepIsSafe(db, steps[0]);
      EveryRunHasOneOriginal(Take(db, steps[0]), steps[1..]);
    } else {
      SafeHasOneOriginal(db);
    }
  }

  lemma SafeHasOneOriginal(db: Database)
    requires Safe(db)
    ensures OneOriginal(db.docs)
  {
  }

  // ---------- chains of duplicate_of ----------

  /** The document reached from id in n steps. */
  function Steps(docs: map<nat, Doc>, id: nat, n: nat): Option<nat> {
    if n == 0 then Some(id)
    else
      var before := Steps(docs, id, n - 1);
      if before.Some? && before.value in docs && docs[before.value].verdict.DuplicateOf?
      then Some(docs[before.value].verdict.target)
      else None
  }

  ghost predicate Reaches(docs: map<nat, Doc>, a: nat, b: nat) {
    exists n: nat :: Steps(docs, a, n) == Some(b)
  }

  ghost predicate Acyclic(docs: map<nat, Doc>) {
    forall id: nat, n: nat :: n >= 1 ==> Steps(docs, id, n) != Some(id)
  }

  lemma {:induction false} StepsCompose(docs: map<nat, Doc>, id: nat, m: nat, n: nat)
    requires Steps(docs, id, m).Some?
    ensures Steps(docs, id, m + n) == Steps(docs, Steps(docs, id, m).value, n)
  {
    if n > 0 {
      StepsCompose(docs, id, m, n - 1);
    }
  }

  /** Where two states differ only in document d, a walk is the same up to its first visit of d. */
  lemma {:induction false} SameUntil(docs: map<nat, Doc>, other: map<nat, Doc>, d: nat, id: nat, n: nat)
          returns (k: nat)
    requires forall x :: x != d ==> (x in docs <==> x in other) && (x in docs ==> docs[x] == other[x])
    ensures k <= n && Steps(docs, id, k) == Steps(other, id, k)
    ensures k < n ==> Steps(docs, id, k) == Some(d)
  {
    if n == 0 {
      k := 0;
    } else {
      k := SameUntil(docs, other, d, id, n - 1);
      if k == n - 1 && Steps(docs, id, k) != Some(d) {
        k := n;
      }
    }
  }

  /** Making d a duplicate of c closes a cycle exactly when d is already reached from c. */
  lemma ClosesCycleIff(docs: map<nat, Doc>, d: nat, c: nat, hash: nat)
    requires Acyclic(docs)
    ensures Acyclic(docs[d := Doc(hash, DuplicateOf(c))]) <==> !Reaches(docs, c, d)
  {
    var t := docs[d := Doc(hash, DuplicateOf(c))];
    if Reaches(docs, c, d) {
      var n: nat :| Steps(docs, c, n) == Some(d);
      var k := SameUntil(docs, t, d, c, n);
      assert Steps(t, c, k) == Some(d);
      assert Steps(t, d, 1) == Some(c) by { assert Steps(t, d, 0) == Some(d); }
      StepsCompose(t, d, 1, k);
      assert Steps(t, d, 1 + k) == Some(d);
    } else {
      forall id: nat, n: nat | n >= 1 ensures Steps(t, id, n) != Some(id) {
        if Steps(t, id, n) == Some(id) {
          CycleGoesThrough(docs, d, c, hash, id, n);
        }
      }
    }
  }

  lemma CycleGoesThrough(docs: map<nat, Doc>, d: nat, c: nat, hash: nat, id: nat, n: nat)
    requires Acyclic(docs) && n >= 1
    requires Steps(docs[d := Doc(hash, DuplicateOf(c))], id, n) == Some(id)
    ensures Reaches(docs, c, d)
  {
    var t := docs[d := Doc(hash, DuplicateOf(c))];
    var k := SameUntil(docs, t, d, id, n);
    assert k < n && Steps(t, id, k) == Some(d);
    assert Steps(t, id, k + 1) == Some(c);
    StepsCompose(t, id, n, k);
    StepsCompose(t, id, k + 1, n - 1);
    assert n + k == (k + 1) + (n - 1);
    assert Steps(t, c, n - 1) == Some(d);
    var j := SameUntil(docs, t, d, c, n - 1);
    assert Steps(docs, c, j) == Some(d);
  }

  lemma BecomingOriginal(docs: map<nat, Doc>, d: nat, hash: nat)
    requires Acyclic(docs)
    ensures Acyclic(docs[d := Doc(hash, Unique)])
  {
    var t := docs[d := Doc(hash, Unique)];
    forall id: nat, n: nat | n >= 1 ensures Steps(t, id, n) != Some(id) {
      if Steps(t, id, n) == Some(id) {
        var k := SameUntil(docs, t, d, id, n);
        assert Steps(t, id, k) == Some(d);
        assert Steps(t, id, k + 1) == None;
        StepsStop(t, id, k + 1, n);
      }
    }
  }

  lemma {:induction false} StepsStop(docs: map<nat, Doc>, id: nat, m: nat, n: nat)
    requires m <= n && Steps(docs, id, m) == None
    ensures Steps(docs, id, n) == None
  {
    if m < n {
      StepsStop(docs, id, m, n - 1);
    }
  }

  /** A commit keeps the graph acyclic exactly when its target does not lead back to the document. */
  lemma CommitKeepsAcyclicIff(db: Database, id: nat)
    requires Acyclic(db.docs) && id in db.open
    ensures Acyclic(Take(db, Commit(id)).docs) <==>
              (db.open[id].verdict.DuplicateOf? ==> !Reaches(db.docs, db.open[id].verdict.target, id))
  {
    hide Acyclic, Reaches;
    var o := db.open[id];
    if o.verdict == Unique {
      BecomingOriginal(db.docs, id, o.hash);
    } else {
      ClosesCycleIff(db.docs, id, o.verdict.target, o.hash);
    }
  }

  /** A target that is still an original at the commit leads nowhere. */
  lemma OriginalLeadsNowhere(docs: map<nat, Doc>, target: nat, id: nat, hash: nat)
    requires IsOriginal(docs, target, hash) && target != id
    ensures !Reaches(docs, target, id)
  {
    forall n: nat ensures Steps(docs, target, n) != Some(id) {
      assert Steps(docs, target, 0) == Some(target);
      if n > 0 {
        assert Steps(docs, target, 1) == None;
        StepsStop(docs, target, 1, n);
      }
    }
  }

  // ---------- serial ingestion ----------

  /** One ingestion after the other: every transaction commits or aborts before the next begins. */
  datatype Ingestion = Ingestion(id: nat, hash: nat, verdict: Verdict, commits: bool)

  ghost predicate IsSerialRun(docs: map<nat, Doc>, run: seq<Ingestion>)
    decreases |run|
  {
    run == [] || (IsVerdict(docs, run[0].id, run[0].hash, run[0].verdict)
        && IsSerialRun(Ingested(docs, run[0]), run[1..]))
  }

  function Ingested(docs: map<nat, Doc>, i: Ingestion): map<nat, Doc> {
    if i.commits then docs[i.id := Doc(i.hash, i.verdict)] else docs
  }

  function AfterSerial(docs: map<nat, Doc>, run: seq<Ingestion>): map<nat, Doc>
    decreases |run|
  {
    if run == [] then docs else AfterSerial(Ingested(docs, run[0]), run[1..])
  }

  function AsSteps(run: seq<Ingestion>): seq<Step> {
    if run == [] then []
    else
      var i := run[0];
      [Begin(i.id, i.hash, i.verdict), if i.commits then Commit(i.id) else Abort(i.id)] + AsSteps(run[1..])
  }

  /** A serial run is one of the interleavings. */
  lemma {:induction false} SerialIsARun(docs: map<nat, Doc>, run: seq<Ingestion>)
    requires IsSerialRun(docs, run)
    ensures IsRun(Database(docs, map[]), AsSteps(run))
    ensures After(Database(docs, map[]), AsSteps(run)) == Database(AfterSerial(docs, run), map[])
    decreases |run|
  {
    if run != [] {
      var i := run[0];
      var steps, first := AsSteps(run), Database(docs, map[]);
      var second := Take(first, steps[0]);
      SerialIsARun(Ingested(docs, i), run[1..]);
      assert steps[1..][1..] == AsSteps(run[1..]);
      assert Take(second, steps[1]) == Database(Ingested(docs, i), map[]);
      assert IsRun(second, steps[1..]);
    }
  }

  /** When ingestion is serial the duplicate_of graph stays acyclic. */
  lemma {:induction false} SerialStaysAcyclic(docs: map<nat, Doc>, run: seq<Ingestion>)
    requires Acyclic(docs) && IsSerialRun(docs, run)
    ensures Acyclic(AfterSerial(docs, run))
    decreases |run|
  {
    hide Acyclic, Reaches, Steps;
    if run != [] {
      var i := run[0];
      if i.commits {
        match i.verdict {
          case Unique => BecomingOriginal(docs, i.id, i.hash);
          case DuplicateOf(target) =>
            OriginalLeadsNowhere(docs, target, i.id, i.hash);
            ClosesCycleIff(docs, i.id, target, i.hash);
        }
      }
      SerialStaysAcyclic(Ingested(docs, i), run[1..]);
    }
  }

  /** Two documents that swap their hashes at the same time: each takes the other for the original. */
  lemma SwapMakesACycle()
    ensures var db := Database(map[1 := Doc(10, Unique), 2 := Doc(20, Unique)], map[]);
            var steps := [Begin(1, 20, DuplicateOf(2)), Begin(2, 10, DuplicateOf(1)), Commit(1), Commit(2)];
            Safe(db) && Acyclic(db.docs) && IsRun(db, steps) && !Acyclic(After(db, steps).docs)
  {
    var db0 := Database(map[1 := Doc(10, Unique), 2 := Doc(20, Unique)], map[]);
    forall id: nat, n: nat | n >= 1 ensures Steps(db0.docs, id, n) != Some(id) {
      assert Steps(db0.docs, id, 0) == Some(id);
      assert Steps(db0.docs, id, 1) == None;
      StepsStop(db0.docs, id, 1, n);
    }
    var s1, s2, s3, s4 := Begin(1, 20, DuplicateOf(2)), Begin(2, 10, DuplicateOf(1)), Commit(1), Commit(2);
    var steps := [s1, s2, s3, s4];
    assert Originals(db0.docs, 1, 20) == {2} && Originals(db0.docs, 2, 10) == {1};
    var db1 := Take(db0, s1);
    var db2 := Take(db1, s2);
    var db3 := Take(db2, s3);
    var db4 := Take(db3, s4);
    hide IsRun, After;
    NoSteps(db4);
    OneStep(db3, s4, []);
    OneStep(db2, s3, [s4]);
    OneStep(db1, s2, [s3, s4]);
    OneStep(db0, s1, [s2, s3, s4]);
    assert [s4] + [] == [s4] && [s3] + [s4] == [s3, s4] && [s2] + [s3, s4] == [s2, s3, s4]
        && [s1] + [s2, s3, s4] == steps;
    assert Steps(db4.docs, 1, 0) == Some(1);
    assert Steps(db4.docs, 1, 1) == Some(2);
    assert Steps(db4.docs, 1, 2) == Some(1);
  }

  // ---------- the store ----------

  class Store {
    var docs: map<nat, Doc>
    var open: map<nat, Open>

    ghost function View(): Database
      reads this
    {
      Database(docs, open)
    }

    constructor ()
      ensures View() == Database(map[], map[]) && Safe(View()) && Acyclic(docs)
    {
      docs, open := map[], map[];
      new;
      forall id: nat, n: nat | n >= 1 ensures Steps(docs, id, n) != Some(id) {
        assert Steps(docs, id, 0) == Some(id);
        assert Steps(docs, id, 1) == None;
        StepsStop(docs, id, 1, n);
      }
    }

    /** _apply_exact_deduplication */
    method Deduplicate(id: nat, hash: nat) returns (verdict: Verdict)
      requires id !in open && forall other :: other in open ==> open[other].hash != hash
      modifies this`open
      ensures verdict == Unique <==> !exists x :: x in docs && x != id && docs[x] == Doc(hash, Unique)
      ensures forall t :: verdict == DuplicateOf(t) <==>
                && t in docs && t != id && docs[t] == Doc(hash, Unique)
                && forall x :: x in docs && x != id && docs[x] == Doc(hash, Unique) ==> t <= x
      ensures open == old(open)[id := Open(hash, verdict)]
      ensures CanTake(old(View()), Begin(id, hash, verdict))
      ensures View() == Take(old(View()), Begin(id, hash, verdict))
    {
      var originals := Originals(docs, id, hash);
      assert forall x: nat :: x in originals <==> x in docs && x != id && docs[x] == Doc(hash, Unique);
      if originals == {} {
        verdict := Unique;
      } else {
        ghost var least := Least(originals);
        var first :| first in originals && forall x :: x in originals ==> first <= x;
        verdict := DuplicateOf(first);
        assert first in docs && first != id && docs[first] == Doc(hash, Unique);
      }
      open := open[id := Open(hash, verdict)];
      assert verdict == Unique ==> !exists x :: x in docs && x != id && docs[x] == Doc(hash, Unique);
      assert verdict.DuplicateOf? ==> exists x :: x in docs && x != id && docs[x] == Doc(hash, Unique);
    }

    method CommitIngestion(id: nat)
      requires id in open
      modifies this
      ensures View() == Take(old(View()), Commit(id))
    {
      docs := docs[id := Doc(open[id].hash, open[id].verdict)];
      open := open - {id};
    }

    method AbortIngestion(id: nat)
      requires id in open
      modifies this`open
      ensures View() == Take(old(View()), Abort(id))
    {
      open := open - {id};
    }

    /** Ingestions of any documents with any contents, interleaved in any way: a document whose row or content
        lock is taken waits. */
    method Ingestions(steps: nat) returns (ghost run: seq<Step>)
      requires Safe(View())
      modifies this
      ensures IsRun(old(View()), run) && View() == After(old(View()), run)
      ensures Safe(View()) && OneOriginal(docs)
    {
      hide Safe, OneOriginal, Take, CanTake, IsRun, After;
      NoSteps(View());
      run := [];
      var k := 0;
      while k < steps
        invariant Safe(View()) && IsRun(old(View()), run) && View() == After(old(View()), run)
      {
        var id: nat, hash: nat := *, *;
        ghost var before := View();
        if id in open {
          StepCanEnd(before, id);
          if * {
            CommitIngestion(id);
            StepIsSafe(before, Commit(id));
            OneMoreStep(old(View()), run, Commit(id));
            run := run + [Commit(id)];
          } else {
            AbortIngestion(id);
            StepIsSafe(before, Abort(id));
            OneMoreStep(old(View()), run, Abort(id));
            run := run + [Abort(id)];
          }
        } else if forall other :: other in open ==> open[other].hash != hash {
          var verdict := Deduplicate(id, hash);
          StepIsSafe(before, Begin(id, hash, verdict));
          OneMoreStep(old(View()), run, Begin(id, hash, verdict));
          run := run + [Begin(id, hash, verdict)];
        }
        k := k + 1;
      }
      SafeHasOneOriginal(View());
    }
  }

  lemma StepCanEnd(db: Database, id: nat)
    requires id in db.open
    ensures CanTake(db, Commit(id)) && CanTake(db, Abort(id))
  {
  }
}
