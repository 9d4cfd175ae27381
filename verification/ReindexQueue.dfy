/** The queue of one document's reindex jobs: a change of the document asks for a job, and at most one job of a
    document is queued or running. Changes and the steps of the job interleave in any way. */
module ReindexQueue {
  import opened Common

  /** `eligible`: the document has an eligible chunk. */
  datatype Document = Document(version: nat, eligible: bool)

  /** The job that the unique index admits. `seen` is the document as the handler read it; a Finished job has
      committed its transaction and is still marked RUNNING. */
  datatype Job =
    | Absent
    | Queued(attempt: nat)
    | Claimed(attempt: nat)
    | Holding(attempt: nat, seen: Document)
    | Finished(attempt: nat)

  /** `held` is the version that the document's INDEXED entries are of; None when it has none. */
  datatype State = State(document: Document, held: Option<nat>, job: Job)

  /** An editor rebases the chunk rows. Ingestion replaces them when the content is new, and their entries go with
      them; it asks for no job when that content is an exact duplicate. When the content is the same, ingestion
      only judges again whether it is a duplicate, with neither a new version nor a job. */
  datatype Edit = Rebased(eligible: bool) | Replaced(eligible: bool) | Duplicated | Judged(eligible: bool)

  /** Changes, a user's request, the steps of the job, and its end by an error, a cancel, a crash or a lost lease,
      after which it may be tried again. */
  datatype Event = Changed(edit: Edit) | Asked | Claim | Read | Commit | Complete | Broken(retry: bool)

  function Wanted(d: Document): Option<nat> {
    if d.eligible then Some(d.version) else None
  }

  /** The index holds what the document wants. */
  predicate Current(s: State) {
    s.held == Wanted(s.document)
  }

  // ---------- the steps ----------

  function Edited(d: Document, edit: Edit): Document {
    Document(if edit.Judged? then d.version else d.version + 1, !edit.Duplicated? && edit.eligible)
  }

  predicate AsksForJob(edit: Edit) {
    edit.Rebased? || edit.Replaced?
  }

  /** enqueue_document_reindex: the job that is queued or running already is taken for the new one. */
  function Enqueued(job: Job): Job {
    if job.Absent? then Queued(0) else job
  }

  function HeldAfter(held: Option<nat>, edit: Edit): Option<nat> {
    if edit.Rebased? || edit.Judged? then held else None
  }

  /** A document that was eligible when it was read must be so still, at the same version; one that was not is not
      checked. */
  predicate Refused(s: State)
    requires s.job.Holding?
  {
    s.job.seen.eligible && !(s.document.version == s.job.seen.version && s.document.eligible)
  }

  function Retried(job: Job, maximum: nat): Job
    requires !job.Absent?
  {
    if job.attempt < maximum then Queued(job.attempt) else Absent
  }

  predicate Possible(s: State, e: Event, maximum: nat) {
    match e
    case Changed(_) => true
    case Asked => true
    case Claim => s.job.Queued?
    case Read => s.job.Claimed?
    case Commit => s.job.Holding?
    case Complete => s.job.Finished?
    case Broken(_) => !s.job.Absent?
  }

  function Step(s: State, e: Event, maximum: nat): State
    requires Possible(s, e, maximum)
  {
    match e
    case Changed(edit) =>
      State(Edited(s.document, edit), HeldAfter(s.held, edit), if AsksForJob(edit) then Enqueued(s.job) else s.job)
    case Asked => s.(job := Enqueued(s.job))
    case Claim => s.(job := Claimed(s.job.attempt + 1))
    case Read => s.(job := Holding(s.job.attempt, s.document))
    case Commit =>
      if Refused(s) then s.(job := Retried(s.job, maximum))
      else s.(held := Wanted(s.job.seen), job := Finished(s.job.attempt))
    case Complete => s.(job := Absent)
    case Broken(retry) => s.(job := if retry then Retried(s.job, maximum) else Absent)
  }

  // ---------- one job to its end ----------

  predicate Valid(s: State, maximum: nat) {
    && maximum >= 1
    && (s.job.Queued? ==> s.job.attempt < maximum)
    && (!s.job.Absent? ==> s.job.attempt <= maximum)
    && (s.held.Some? ==> s.held.value <= s.document.version)
    && (s.job.Holding? ==> s.job.seen.version <= s.document.version)
  }

  function StepsLeft(s: State): nat {
    match s.job
    case Absent => 0
    case Finished(_) => 1
    case Holding(_, _) => if Refused(s) then 5 else 2
    case Claimed(_) => 3
    case Queued(_) => 4
  }

  /** The job's next step when nothing goes wrong. */
  function Next(s: State): Event
    requires !s.job.Absent?
  {
    match s.job
    case Queued(_) => Claim
    case Claimed(_) => Read
    case Holding(_, _) => Commit
    case Finished(_) => Complete
  }

  /** The job runs to its end, with no change of the document and no failure but its own refusals. */
  function Settled(s: State, maximum: nat): State
    decreases StepsLeft(s)
  {
    if s.job.Absent? then s
    else
      Settled(Step(s, Next(s), maximum), maximum)
  }

  /** Nothing is lost: a job will read the document, or the index is current, or the job that has read it will bring
      the index up to date or see that it cannot. */
  predicate Pending(s: State, maximum: nat) {
    match s.job
    case Absent => Current(s)
    case Finished(_) => Current(s)
    case Queued(_) => true
    case Claimed(_) => true
    case Holding(attempt, seen) =>
      if !seen.eligible then !s.document.eligible
      else !Refused(s) || attempt < maximum || Current(s)
  }

  /** The job, left alone, makes the index current exactly when nothing is lost. */
  lemma {:induction false} SettledIsCurrentIff(s: State, maximum: nat)
    requires Valid(s, maximum)
    ensures Current(Settled(s, maximum)) <==> Pending(s, maximum)
    decreases StepsLeft(s)
  {
    if !s.job.Absent? {
      var t := Step(s, Next(s), maximum);
      StepIsValid(s, Next(s), maximum);
      SettledIsCurrentIff(t, maximum);
      StepKeepsPending(s, Next(s), maximum);
    }
  }

  lemma StepIsValid(s: State, e: Event, maximum: nat)
    requires Valid(s, maximum) && Possible(s, e, maximum)
    ensures Valid(Step(s, e, maximum), maximum)
  {
  }

  // ---------- over every run ----------

  /** The change alone keeps the index current. */
  predicate NeedsNoJob(s: State, edit: Edit) {
    match edit
    case Rebased(eligible) => !eligible && s.held == None
    case Replaced(eligible) => !eligible
    case Duplicated => true
    case Judged(eligible) => s.held == if eligible then Some(s.document.version) else None
  }

  /** Whether the change will be seen, by the job that it meets. */
  predicate ChangeIsPending(s: State, edit: Edit, maximum: nat) {
    match s.job
    case Absent => AsksForJob(edit) || NeedsNoJob(s, edit)
    case Queued(_) => true
    case Claimed(_) => true
    case Holding(attempt, seen) =>
      if !seen.eligible then edit.Duplicated? || !edit.eligible
      else attempt < maximum || NeedsNoJob(s, edit)
           || (edit.Judged? && edit.eligible && seen.version == s.document.version)
    case Finished(_) => NeedsNoJob(s, edit)
  }

  predicate StaysPending(s: State, e: Event, maximum: nat, before: bool) {
    match e
    case Changed(edit) => ChangeIsPending(s, edit, maximum)
    case Asked => s.job.Absent? || before
    case Broken(retry) => (retry && !s.job.Absent? && s.job.attempt < maximum) || Current(s)
    case _ => before
  }

  lemma StepKeepsPending(s: State, e: Event, maximum: nat)
    requires Valid(s, maximum) && Possible(s, e, maximum)
    ensures Pending(Step(s, e, maximum), maximum) <==> StaysPending(s, e, maximum, Pending(s, maximum))
  {
  }

  /** A change reaches the index, when the job is then left alone, exactly when it needs no job, or gets a new one,
      or meets one that has not read the document, or one that will notice the change and be tried again. */
  lemma ChangeIsIndexedIff(s: State, edit: Edit, maximum: nat)
    requires Valid(s, maximum)
    ensures Current(Settled(Step(s, Changed(edit), maximum), maximum)) <==> ChangeIsPending(s, edit, maximum)
  {
    var t := Step(s, Changed(edit), maximum);
    StepIsValid(s, Changed(edit), maximum);
    StepKeepsPending(s, Changed(edit), maximum);
    SettledIsCurrentIff(t, maximum);
  }

  /** Before the document is first stored. */
  const NOTHING := State(Document(0, false), None, Absent)

  function After(events: seq<Event>, maximum: nat): State
    requires IsRun(events, maximum)
    decreases |events|, 1
  {
    if events == [] then NOTHING
    else Step(After(events[..|events| - 1], maximum), events[|events| - 1], maximum)
  }

  predicate IsRun(events: seq<Event>, maximum: nat)
    decreases |events|, 0
  {
    events == []
    || (IsRun(events[..|events| - 1], maximum)
        && Possible(After(events[..|events| - 1], maximum), events[|events| - 1], maximum))
  }

  lemma {:induction false} RunIsValid(events: seq<Event>, maximum: nat)
    requires IsRun(events, maximum) && maximum >= 1
    ensures Valid(After(events, maximum), maximum)
  {
    hide Valid, Step;
    if events == [] {
      assert Valid(NOTHING, maximum) by { NothingIsValid(maximum); }
    } else {
      var front := events[..|events| - 1];
      RunIsValid(front, maximum);
      StepIsValid(After(front, maximum), events[|events| - 1], maximum);
    }
  }

  lemma NothingIsValid(maximum: nat)
    requires maximum >= 1
    ensures Valid(NOTHING, maximum) && Current(NOTHING)
  {
  }

  /** Whether nothing is lost after a run, read off the places where changes and failures met the job. */
  predicate NothingLost(events: seq<Event>, maximum: nat)
    requires IsRun(events, maximum)
  {
    events == []
    || var front := events[..|events| - 1];
       StaysPending(After(front, maximum), events[|events| - 1], maximum, NothingLost(front, maximum))
  }

  /** Over every run: leaving the job alone makes the index current exactly when no change was lost. */
  lemma {:induction false} EveryRunIsCurrentIff(events: seq<Event>, maximum: nat)
    requires IsRun(events, maximum) && maximum >= 1
    ensures Current(Settled(After(events, maximum), maximum)) <==> NothingLost(events, maximum)
    ensures Pending(After(events, maximum), maximum) <==> NothingLost(events, maximum)
  {
    hide Valid, Step, Pending, StaysPending, Settled, Current;
    RunIsValid(events, maximum);
    SettledIsCurrentIff(After(events, maximum), maximum);
    if events == [] {
      NothingIsPending(maximum);
    } else {
      var front := events[..|events| - 1];
      RunIsValid(front, maximum);
      EveryRunIsCurrentIff(front, maximum);
      StepKeepsPending(After(front, maximum), events[|events| - 1], maximum);
    }
  }

  lemma NothingIsPending(maximum: nat)
    ensures Pending(NOTHING, maximum)
  {
  }

  /** No change meets a job that has committed, or holds a document that was not eligible, or is in its last attempt;
      no job ends for good without completing; and no document is judged otherwise without a new version. */
  predicate Undisturbed(s: State, e: Event, maximum: nat) {
    match e
    case Changed(edit) =>
      && !s.job.Finished? && (s.job.Holding? ==> s.job.seen.eligible && s.job.attempt < maximum)
      && (edit.Judged? ==> edit.eligible == s.document.eligible)
    case Broken(retry) => retry && !s.job.Absent? && s.job.attempt < maximum
    case _ => true
  }

  predicate AllUndisturbed(events: seq<Event>, maximum: nat)
    requires IsRun(events, maximum)
  {
    events == []
    || var front := events[..|events| - 1];
       AllUndisturbed(front, maximum) && Undisturbed(After(front, maximum), events[|events| - 1], maximum)
  }

  /** Then the index is current whenever the document has no job. */
  lemma {:induction false} UndisturbedIsCurrent(events: seq<Event>, maximum: nat)
    requires IsRun(events, maximum) && maximum >= 1 && AllUndisturbed(events, maximum)
    ensures NothingLost(events, maximum)
    ensures After(events, maximum).job.Absent? ==> Current(After(events, maximum))
  {
    EveryRunIsCurrentIff(events, maximum);
    if events != [] {
      UndisturbedIsCurrent(events[..|events| - 1], maximum);
      EveryRunIsCurrentIff(events[..|events| - 1], maximum);
    }
  }

  /** How often the job there is has been claimed. */
  function Claims(events: seq<Event>, maximum: nat): nat
    requires IsRun(events, maximum)
  {
    if events == [] then 0
    else
      var front, last := events[..|events| - 1], events[|events| - 1];
      if After(front, maximum).job.Absent? then 0
      else Claims(front, maximum) + (if last.Claim? then 1 else 0)
  }

  /** Every claim counts as an attempt, and no job is claimed more often than it may be tried. */
  lemma {:induction false} ClaimsAreCounted(events: seq<Event>, maximum: nat)
    requires IsRun(events, maximum) && maximum >= 1 && !After(events, maximum).job.Absent?
    ensures After(events, maximum).job.attempt == Claims(events, maximum) <= maximum
  {
    RunIsValid(events, maximum);
    if events != [] {
      var front := events[..|events| - 1];
      if !After(front, maximum).job.Absent? { ClaimsAreCounted(front, maximum); }
    }
  }

  /** What a user asks for is indexed when the document has no job; a job that is there already is not replaced. */
  lemma RequestIsIndexed(s: State, maximum: nat)
    requires Valid(s, maximum)
    ensures Possible(s, Asked, maximum)
    ensures s.job.Absent? ==> Current(Settled(Step(s, Asked, maximum), maximum))
    ensures !s.job.Absent? ==> Step(s, Asked, maximum) == s
  {
    StepIsValid(s, Asked, maximum);
    StepKeepsPending(s, Asked, maximum);
    SettledIsCurrentIff(Step(s, Asked, maximum), maximum);
  }

  // ---------- changes that are lost ----------

  /** A stored and indexed document. */
  function Stored(version: nat): State {
    State(Document(version, true), Some(version), Absent)
  }

  /** Hidden, and restored while the job for the hiding holds it: the job for the restoring is the same one. */
  lemma RestoreIsLost(maximum: nat)
    requires maximum >= 1
    ensures Current(Stored(1)) && Stored(1).document.eligible
    ensures var s1 := Step(Stored(1), Changed(Rebased(false)), maximum);
            var s3 := Step(Step(s1, Claim, maximum), Read, maximum);
            var end := Settled(Step(s3, Changed(Rebased(true)), maximum), maximum);
            end.job.Absent? && end.document == Document(3, true) && end.held == None
  {
    var s1 := Step(Stored(1), Changed(Rebased(false)), maximum);
    var s3 := Step(Step(s1, Claim, maximum), Read, maximum);
    var s4 := Step(s3, Changed(Rebased(true)), maximum);
    var s5 := Step(s4, Commit, maximum);
    assert s5.held == None && Settled(s4, maximum) == Settled(s5, maximum);
    assert Settled(s5, maximum) == Step(s5, Complete, maximum);
  }

  /** A document without a job that is judged otherwise stays in the index, or out of it. */
  lemma JudgedOtherwiseIsLost(s: State, edit: Edit, maximum: nat)
    requires Valid(s, maximum) && s.job.Absent? && Current(s) && edit.Judged?
    ensures Current(Settled(Step(s, Changed(edit), maximum), maximum)) <==> edit.eligible == s.document.eligible
  {
    ChangeIsIndexedIff(s, edit, maximum);
  }

  /** A change between the commit of a job and its completion is lost: the index keeps the version before it. */
  lemma ChangeAfterCommitIsLost(s: State, maximum: nat)
    requires Valid(s, maximum) && s.job.Holding? && s.job.seen == s.document && s.document.eligible
    ensures var end := Settled(Step(Step(s, Commit, maximum), Changed(Rebased(true)), maximum), maximum);
            && end.job.Absent? && end.document == Document(s.document.version + 1, true)
            && end.held == Some(s.document.version)
  {
    var s1 := Step(Step(s, Commit, maximum), Changed(Rebased(true)), maximum);
    assert s1.job.Finished?;
    assert Settled(s1, maximum) == Step(s1, Complete, maximum);
  }
}
