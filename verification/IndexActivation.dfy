/** Switching the search alias to a new index version: the alias lives in Qdrant, the statuses in
    PostgreSQL, and anything may fail, or the process die, between any two writes. */
module IndexActivation {
  import opened Common

  datatype Status = BUILDING | READY | ACTIVE | FAILED | RETIRED

  /** A version stands for its collection too: collection names are unique. `gated` are the versions whose
      collection passed the count gate. */
  datatype World = World(alias: Option<nat>, status: map<nat, Status>, gated: set<nat>)

  predicate IsActive(w: World, v: nat) {
    v in w.status && w.status[v] == ACTIVE
  }

  /** The alias names the collection of the active version, and there is one exactly when there is the other. */
  ghost predicate Aligned(w: World) {
    forall v: nat :: IsActive(w, v) <==> w.alias == Some(v)
  }

  ghost predicate Safe(w: World) {
    && (forall u, v :: IsActive(w, u) && IsActive(w, v) ==> u == v)
    && (w.alias.Some? ==> w.alias.value in w.gated)
    && (forall v :: IsActive(w, v) ==> v in w.gated && w.alias.Some?)
    && w.gated <= w.status.Keys
  }

  function WithStatus(w: World, v: nat, status: Status): World {
    w.(status := w.status[v := status])
  }

  /** The count gate passed and the version is marked READY. */
  function Marked(w: World, v: nat): World {
    WithStatus(w, v, READY).(gated := w.gated + {v})
  }

  function Switched(w: World, alias: Option<nat>): World {
    w.(alias := alias)
  }

  // ---------- the activating transaction ----------

  /** What the transaction leaves: every other active version retires and this one becomes active. */
  function Activated(w: World, v: nat): World {
    w.(status := map u | u in w.status.Keys + {v} ::
      if u == v then ACTIVE else if w.status[u] == ACTIVE then RETIRED else w.status[u])
  }

  predicate OtherActive(w: World, v: nat) {
    exists u :: u in w.status && u != v && w.status[u] == ACTIVE
  }

  lemma MarkKeepsOthers(w: World, v: nat)
    ensures OtherActive(Switched(Marked(w, v), Some(v)), v) <==> OtherActive(w, v)
  {
    var t := Switched(Marked(w, v), Some(v));
    assert forall u: nat :: u != v && u in w.status ==> u in t.status && t.status[u] == w.status[u];
    assert forall u: nat :: u != v && u in t.status ==> u in w.status;
  }

  /** The rows are written one by one, and a unique index admits one active version after every write. */
  datatype Write = Write(version: nat, status: Status)

  predicate Unique(status: map<nat, Status>) {
    forall u, v :: u in status && v in status && status[u] == ACTIVE && status[v] == ACTIVE ==> u == v
  }

  function Written(status: map<nat, Status>, writes: seq<Write>): Option<map<nat, Status>>
    decreases |writes|
  {
    if writes == [] then Some(status)
    else
      var first := status[writes[0].version := writes[0].status];
      if Unique(first) then Written(first, writes[1..]) else None
  }

  function InOrder(u: nat, v: nat, retiresFirst: bool): seq<Write> {
    if retiresFirst then [Write(u, RETIRED), Write(v, ACTIVE)] else [Write(v, ACTIVE), Write(u, RETIRED)]
  }

  /** The writes of the activation, in one order or the other. */
  ghost predicate ActivatingWrites(w: World, v: nat, writes: seq<Write>, retiresFirst: bool) {
    if exists u :: IsActive(w, u) && u != v then
      exists u :: IsActive(w, u) && u != v && writes == InOrder(u, v, retiresFirst)
    else
      writes == [Write(v, ACTIVE)]
  }

  /** With a working database the transaction commits exactly when there is nothing to retire, or that is
      written first. */
  lemma CommitsIff(w: World, v: nat, writes: seq<Write>, retiresFirst: bool)
    requires Safe(w) && ActivatingWrites(w, v, writes, retiresFirst)
    ensures Written(w.status, writes).Some? <==> retiresFirst || !OtherActive(w, v)
    ensures Written(w.status, writes).Some? ==> Written(w.status, writes).value == Activated(w, v).status
  {
    if exists u :: IsActive(w, u) && u != v {
      var u: nat :| IsActive(w, u) && u != v && writes == InOrder(u, v, retiresFirst);
      if retiresFirst {
        RetiringFirst(w, v, u, writes);
      } else {
        var first := w.status[v := ACTIVE];
        assert u in first && v in first && first[u] == ACTIVE && first[v] == ACTIVE;
      }
    } else {
      var first := w.status[v := ACTIVE];
      assert forall x :: x in w.status && w.status[x] == ACTIVE ==> IsActive(w, x) && x == v;
      assert Unique(first) && writes[1..] == [];
      assert first == Activated(w, v).status;
    }
  }

  lemma RetiringFirst(w: World, v: nat, u: nat, writes: seq<Write>)
    requires Safe(w) && IsActive(w, u) && u != v && writes == [Write(u, RETIRED), Write(v, ACTIVE)]
    ensures Written(w.status, writes) == Some(Activated(w, v).status)
  {
    var first := w.status[u := RETIRED];
    var second := first[v := ACTIVE];
    assert writes[1..] == [Write(v, ACTIVE)] && writes[1..][1..] == [];
    assert forall x :: x in first && first[x] == ACTIVE ==> IsActive(w, x) && x != u;
    assert forall x :: x in first ==> first[x] != ACTIVE;
    assert Unique(first) && Unique(second);
    assert second == Activated(w, v).status;
    assert Written(second, []) == Some(second);
    assert Written(first, writes[1..]) == Some(second);
  }

  // ---------- one attempt to activate a version ----------

  /** How far the process gets before it dies. */
  datatype Place = BeforeTheMark | AfterTheMark | AfterTheSwitch

  datatype Back = Restores | RaisesRestoring | RaisesInVain

  /** What is going to happen to an attempt. Stops: cancelled, or failed before the switch. A switch that raises
      may have taken effect. givesUp: the failure is final, and the version is marked FAILED.
      Transacts: retiresFirst is the order in which the rows are written; when the transaction fails the alias
      is switched back, unless the process dies. */
  datatype Fate =
    | Dies(place: Place)
    | FailsGate
    | Stops(marked: bool, givesUp: bool)
    | SwitchRaises(effective: bool, givesUp: bool)
    | Transacts(databaseWorks: bool, retiresFirst: bool, diesAfter: bool, back: Back, givesUp: bool)

  datatype Outcome = Committed | Compensated | GateFailed | Stopped | SwitchFailed | Died

  predicate Commits(w: World, v: nat, f: Fate) {
    f.Transacts? && f.databaseWorks && (f.retiresFirst || !OtherActive(w, v))
  }

  function Failure(w: World, v: nat, givesUp: bool): World {
    if givesUp then WithStatus(w, v, FAILED) else w
  }

  /** Where the attempt leaves both stores. */
  function Ended(w: World, v: nat, f: Fate): World {
    var marked := Marked(w, v);
    var switched := Switched(marked, Some(v));
    match f
    case Dies(BeforeTheMark) => w
    case Dies(AfterTheMark) => marked
    case Dies(AfterTheSwitch) => switched
    case FailsGate => WithStatus(w, v, FAILED)
    case Stops(wasMarked, givesUp) => Failure(if wasMarked then marked else w, v, givesUp)
    case SwitchRaises(effective, givesUp) => Failure(if effective then switched else marked, v, givesUp)
    case Transacts(_, _, diesAfter, back, givesUp) =>
      if Commits(w, v, f) then Activated(switched, v)
      else if diesAfter then switched
      else Failure(if back == RaisesInVain then switched else marked, v, givesUp)
  }

  function OutcomeOf(w: World, v: nat, f: Fate): Outcome {
    match f
    case Dies(_) => Died
    case FailsGate => GateFailed
    case Stops(_, _) => Stopped
    case SwitchRaises(_, _) => SwitchFailed
    case Transacts(_, _, diesAfter, back, _) =>
      if diesAfter then Died
      else if Commits(w, v, f) then Committed
      else if back == Restores then Compensated
      else SwitchFailed
  }

  /** The process gets past the count gate and marks the version READY. */
  predicate PassesGate(f: Fate) {
    match f
    case Dies(place) => place != BeforeTheMark
    case FailsGate => false
    case Stops(marked, _) => marked
    case SwitchRaises(_, _) => true
    case Transacts(_, _, _, _, _) => true
  }

  /** The version after an attempt: ACTIVE exactly after a commit (or when it was and nothing was touched), FAILED
      exactly after a failed gate or a final failure (or when it was), READY when it only passed the gate. Of the
      others only active ones change, and those retire exactly with a commit. */
  lemma StatusesAfter(w: World, v: nat, f: Fate)
    requires v in w.status
    ensures var t, o := Ended(w, v, f), OutcomeOf(w, v, f);
            && t.status.Keys == w.status.Keys
            && (Commits(w, v, f) ==> t.status[v] == ACTIVE)
            && (o == GateFailed ==> t.status[v] == FAILED)
            && (o in {Stopped, SwitchFailed, Compensated} ==>
                  t.status[v] == if f.givesUp then FAILED else if PassesGate(f) then READY else w.status[v])
            && (o == Died && !Commits(w, v, f) ==> t.status[v] == if PassesGate(f) then READY else w.status[v])
            && (forall u :: u in w.status && u != v ==>
                  t.status[u] == if Commits(w, v, f) && w.status[u] == ACTIVE then RETIRED else w.status[u])
            && t.gated == (if PassesGate(f) then w.gated + {v} else w.gated)
    ensures OutcomeOf(w, v, f) == Committed ==> Commits(w, v, f)
    ensures OutcomeOf(w, v, f) in {GateFailed, Stopped, Compensated} ==> Ended(w, v, f).alias == w.alias
  {
  }

  // ---------- what an attempt keeps ----------

  lemma AttemptIsSafe(w: World, v: nat, f: Fate)
    requires Safe(w) && v in w.status
    ensures Safe(Ended(w, v, f))
  {
    var t := Ended(w, v, f);
    if Commits(w, v, f) {
      assert forall u :: IsActive(t, u) ==> u == v;
    } else {
      assert forall u :: IsActive(t, u) ==> IsActive(w, u);
    }
  }

  /** However an attempt ends the alias is where it was, or on the pending collection, which passed the gate. */
  lemma AliasIsOldOrPending(w: World, v: nat, f: Fate)
    requires Safe(w) && v in w.status
    ensures var t := Ended(w, v, f);
            && (t.alias == w.alias || (t.alias == Some(v) && v in t.gated))
            && (forall u :: u != v && IsActive(t, u) ==> IsActive(w, u))
            && (OutcomeOf(w, v, f) == Committed ==> t.alias == Some(v) && IsActive(t, v) && !OtherActive(t, v))
  {
  }

  /** The attempt touches neither store. */
  predicate LeavesAll(f: Fate) {
    f == Dies(BeforeTheMark) || f == Stops(false, false)
  }

  /** The alias is moved and stays moved, without a commit. */
  predicate StrandsTheAlias(w: World, v: nat, f: Fate) {
    && !Commits(w, v, f)
    && (|| f == Dies(AfterTheSwitch)
        || (f.SwitchRaises? && f.effective)
        || (f.Transacts? && (f.diesAfter || f.back == RaisesInVain)))
  }

  /** Alias and active version are equal after an attempt exactly when it commits, or it touches nothing and they
      were equal, or it does not strand the alias, they were equal, and the version was not the active one. */
  lemma AlignedAfterIff(w: World, v: nat, f: Fate)
    requires Safe(w) && v in w.status
    ensures Aligned(Ended(w, v, f)) <==>
              || Commits(w, v, f)
              || (Aligned(w) && (LeavesAll(f) || (!StrandsTheAlias(w, v, f) && !IsActive(w, v))))
  {
    var t := Ended(w, v, f);
    if Commits(w, v, f) {
      assert forall u :: IsActive(t, u) <==> u == v;
    } else if !LeavesAll(f) {
      assert !IsActive(t, v);
      assert forall u :: u != v ==> (IsActive(t, u) <==> IsActive(w, u));
      if StrandsTheAlias(w, v, f) {
        assert t.alias == Some(v);
      } else {
        assert t.alias == w.alias;
        if IsActive(w, v) { ActiveLost(w, v, t); }
      }
    }
  }

  lemma ActiveLost(w: World, v: nat, t: World)
    requires Safe(w) && IsActive(w, v) && t.alias == w.alias && !IsActive(t, v)
    requires forall u :: u != v ==> (IsActive(t, u) <==> IsActive(w, u))
    ensures !Aligned(t)
  {
    assert forall u :: !IsActive(t, u);
    assert t.alias.Some? && !IsActive(t, t.alias.value);
  }

  predicate Orderly(w: World, v: nat, f: Fate) {
    OutcomeOf(w, v, f) != Died && OutcomeOf(w, v, f) != SwitchFailed
  }

  /** Every attempt on this version that neither dies nor has a raising switch ends with them equal, exactly when
      they are equal before it and the version is not the active one. */
  lemma OrderlyAttemptsAlignIff(w: World, v: nat)
    requires Safe(w) && v in w.status
    ensures (forall f {:trigger Ended(w, v, f)} :: Orderly(w, v, f) ==> Aligned(Ended(w, v, f)))
            <==> Aligned(w) && !IsActive(w, v)
  {
    forall f {:trigger Ended(w, v, f)}
      ensures Aligned(w) && !IsActive(w, v) && Orderly(w, v, f) ==> Aligned(Ended(w, v, f))
    {
      AlignedAfterIff(w, v, f);
    }
    AlignedAfterIff(w, v, FailsGate);
    assert Orderly(w, v, FailsGate);
  }

  /** A crash between the switch and the commit is enough. */
  lemma CrashStrandsTheAlias() returns (start: World)
    ensures Safe(start) && Aligned(start) && 2 in start.status && !IsActive(start, 2)
    ensures var t := Ended(start, 2, Dies(AfterTheSwitch));
            t.alias == Some(2) && IsActive(t, 1) && !Aligned(t)
  {
    start := World(Some(1), map[1 := ACTIVE, 2 := BUILDING], {1});
    AlignedAfterIff(start, 2, Dies(AfterTheSwitch));
    assert IsActive(Ended(start, 2, Dies(AfterTheSwitch)), 1);
  }

  /** The alias names a version that is marked FAILED: the switch took effect and then raised. */
  lemma AliasOnFailedVersion() returns (start: World)
    ensures Safe(start) && Aligned(start) && 2 in start.status && !IsActive(start, 2)
    ensures var t := Ended(start, 2, SwitchRaises(true, true));
            t.alias == Some(2) && t.status[2] == FAILED && IsActive(t, 1) && !Aligned(t)
  {
    start := World(Some(1), map[1 := ACTIVE, 2 := BUILDING], {1});
    AlignedAfterIff(start, 2, SwitchRaises(true, true));
    assert IsActive(Ended(start, 2, SwitchRaises(true, true)), 1);
  }

  /** After a crash past the commit the pending version is the active one, and a re-run that fails takes it away. */
  lemma RerunOfActivated(w: World, v: nat, f: Fate)
    requires Safe(w) && Aligned(w) && IsActive(w, v) && !LeavesAll(f) && !Commits(w, v, f)
    ensures var t := Ended(w, v, f);
            t.alias == Some(v) && !Aligned(t) && forall u :: !IsActive(t, u)
  {
    var t := Ended(w, v, f);
    assert w.alias == Some(v);
    AlignedAfterIff(w, v, f);
    assert forall u :: IsActive(t, u) ==> IsActive(w, u) && u != v;
  }

  /** The double failure: after the crash of CrashStrandsTheAlias the compensation of a failing re-run restores
      the new collection, because that is what it finds. */
  lemma DoubleFailure() returns (start: World, crashed: World, f: Fate)
    ensures Safe(start) && Aligned(start) && crashed == Ended(start, 2, Dies(AfterTheSwitch))
    ensures OutcomeOf(crashed, 2, f) == Compensated
    ensures var end := Ended(crashed, 2, f);
            end.alias == Some(2) && IsActive(end, 1) && !Aligned(end)
  {
    start := CrashStrandsTheAlias();
    crashed := Ended(start, 2, Dies(AfterTheSwitch));
    f := Transacts(false, true, false, Restores, false);
    AttemptIsSafe(start, 2, Dies(AfterTheSwitch));
    AlignedAfterIff(crashed, 2, f);
    assert IsActive(Ended(crashed, 2, f), 1) by { assert IsActive(crashed, 1); }
  }

  // ---------- over every run of jobs ----------

  /** One entry of a history: a new version enters BUILDING, or a job attempts to activate a known one. */
  datatype Event = NewVersion(v: nat) | Tried(v: nat, fate: Fate)

  predicate Possible(w: World, e: Event) {
    match e
    case NewVersion(v) => v !in w.status
    case Tried(v, _) => v in w.status
  }

  function Applied(w: World, e: Event): World {
    match e
    case NewVersion(v) => WithStatus(w, v, BUILDING)
    case Tried(v, f) => Ended(w, v, f)
  }

  const NOTHING := World(None, map[], {})

  function After(events: seq<Event>): World {
    if events == [] then NOTHING else Applied(After(events[..|events| - 1]), events[|events| - 1])
  }

  predicate IsHistory(events: seq<Event>) {
    events == [] || (IsHistory(events[..|events| - 1]) && Possible(After(events[..|events| - 1]), events[|events| - 1]))
  }

  /** At most one version is active and the alias names only a collection that passed the gate. */
  lemma {:induction false} EveryHistoryIsSafe(events: seq<Event>)
    requires IsHistory(events)
    ensures Safe(After(events))
  {
    hide Ended;
    if events != [] {
      var w, e := After(events[..|events| - 1]), events[|events| - 1];
      EveryHistoryIsSafe(events[..|events| - 1]);
      if e.Tried? {
        AttemptIsSafe(w, e.v, e.fate);
      } else {
        assert forall u :: IsActive(Applied(w, e), u) <==> IsActive(w, u);
      }
    }
  }

  /** Whether alias and active version agree after a history, read off the fates and the statuses alone. */
  predicate Agrees(events: seq<Event>) {
    events == []
    || var front, e := events[..|events| - 1], events[|events| - 1];
       match e
       case NewVersion(_) => Agrees(front)
       case Tried(v, f) =>
         || Commits(After(front), v, f)
         || (Agrees(front) && (LeavesAll(f) || (!StrandsTheAlias(After(front), v, f) && !IsActive(After(front), v))))
  }

  /** Over every history, with crashes and failures anywhere. */
  lemma {:induction false} HistoryAlignedIff(events: seq<Event>)
    requires IsHistory(events)
    ensures Aligned(After(events)) <==> Agrees(events)
  {
    hide Ended, Commits, LeavesAll, StrandsTheAlias;
    if events != [] {
      var front, e := events[..|events| - 1], events[|events| - 1];
      HistoryAlignedIff(front);
      EveryHistoryIsSafe(front);
      match e {
        case Tried(v, f) => AlignedAfterIff(After(front), v, f);
        case NewVersion(v) => NewIsNeutral(After(front), v);
      }
    }
  }

  lemma NewIsNeutral(w: World, v: nat)
    requires Safe(w) && v !in w.status
    ensures Aligned(WithStatus(w, v, BUILDING)) <==> Aligned(w)
  {
    assert forall u :: IsActive(WithStatus(w, v, BUILDING), u) <==> IsActive(w, u);
  }

  /** No attempt of these events died or had a raising switch, and none was made on a version that was active
      already. Cancels, failures before the switch, failed gates and failed transactions are all allowed. */
  predicate Undisturbed(events: seq<Event>) {
    events == []
    || var front, e := events[..|events| - 1], events[|events| - 1];
       Undisturbed(front) && (e.Tried? ==> Orderly(After(front), e.v, e.fate) && !IsActive(After(front), e.v))
  }

  /** Then the alias names the active version's collection after every job. */
  lemma {:induction false} UndisturbedIsAligned(events: seq<Event>)
    requires IsHistory(events) && Undisturbed(events)
    ensures Aligned(After(events))
  {
    hide Ended;
    if events != [] {
      var front, e := events[..|events| - 1], events[|events| - 1];
      UndisturbedIsAligned(front);
      HistoryAlignedIff(front);
      HistoryAlignedIff(events);
    }
  }

  /** A commit puts alias and active version together again, whatever came before it, and retires the others. */
  lemma CommitRealigns(w: World, v: nat, f: Fate)
    requires Safe(w) && v in w.status && Commits(w, v, f)
    ensures var t := Ended(w, v, f);
            && Aligned(t) && t.alias == Some(v)
            && forall u :: IsActive(w, u) && u != v ==> t.status[u] == RETIRED
  {
    AlignedAfterIff(w, v, f);
  }

  // ---------- the handler ----------

  class SearchIndex {
    var alias: Option<nat>
    var status: map<nat, Status>
    ghost var gated: set<nat>

    ghost function View(): World
      reads this
    {
      World(alias, status, gated)
    }

    constructor ()
      ensures View() == NOTHING && Safe(View())
    {
      alias, status, gated := None, map[], {};
    }

    /** _full_reindex after the batch loop. */
    method Activate(v: nat, f: Fate) returns (outcome: Outcome)
      requires v in status && Safe(View())
      modifies this
      ensures View() == Ended(old(View()), v, f)
      ensures outcome == OutcomeOf(old(View()), v, f)
      ensures outcome == GateFailed ==> status == old(status)[v := FAILED] && alias == old(alias)
      ensures outcome == Committed ==>
                && alias == Some(v) && status.Keys == old(status).Keys
                && forall u :: u in status ==>
                     status[u] == if u == v then ACTIVE
                                  else if old(status)[u] == ACTIVE then RETIRED else old(status)[u]
      ensures outcome == Compensated || outcome == Stopped || outcome == SwitchFailed ==>
                && (f.givesUp ==> status[v] == FAILED)
                && (outcome != SwitchFailed ==> alias == old(alias))
                && forall u :: u in old(status) && u != v ==> u in status && status[u] == old(status)[u]
    {
      hide Safe, OtherActive, Activated;
      StatusesAfter(View(), v, f);
      ghost var start := View();
      if f.Dies? && f.place == BeforeTheMark { return Died; }
      if f == FailsGate {
        MarkFailure(v, true);
        return GateFailed;
      }
      if f.Stops? && !f.marked {
        MarkFailure(v, f.givesUp);
        return Stopped;
      }
      status := status[v := READY];
      gated := gated + {v};
      if f.Dies? && f.place == AfterTheMark { return Died; }
      if f.Stops? {
        MarkFailure(v, f.givesUp);
        return Stopped;
      }
      var previousAliasTarget := alias;
      if f.SwitchRaises? {
        if f.effective { alias := Some(v); }
        MarkFailure(v, f.givesUp);
        return SwitchFailed;
      }
      SwitchAlias(Some(v));
      MarkKeepsOthers(start, v);
      assert View() == Switched(Marked(start, v), Some(v));
      if f.Dies? && f.place == AfterTheSwitch { return Died; }
      var committed := WriteActivation(v, f.databaseWorks, f.retiresFirst);
      if f.diesAfter { return Died; }
      if !committed {
        if f.back != RaisesInVain { SwitchAlias(previousAliasTarget); }
        MarkFailure(v, f.givesUp);
        return if f.back == Restores then Compensated else SwitchFailed;
      }
      outcome := Committed;
    }

    /** The transaction: the rows of the other active versions and of this one, each checked by the unique index. */
    method WriteActivation(v: nat, databaseWorks: bool, retiresFirst: bool) returns (committed: bool)
      requires v in status && status[v] == READY
      modifies this`status
      ensures committed <==> databaseWorks && (retiresFirst || !OtherActive(old(View()), v))
      ensures View() == if committed then Activated(old(View()), v) else old(View())
    {
      if !databaseWorks { return false; }
      var rows := status;
      if retiresFirst {
        rows := map u | u in rows.Keys :: if rows[u] == ACTIVE then RETIRED else rows[u];
        rows := rows[v := ACTIVE];
      } else {
        var others := exists u :: u in rows && u != v && rows[u] == ACTIVE;
        rows := rows[v := ACTIVE];
        if others { return false; }
      }
      status := rows;
      committed := true;
    }

    /** switch_alias, or remove_alias when there is no target. */
    method SwitchAlias(target: Option<nat>)
      modifies this`alias
      ensures alias == target
    {
      alias := target;
    }

    method MarkFailure(v: nat, givesUp: bool)
      requires v in status
      modifies this`status
      ensures status == if givesUp then old(status)[v := FAILED] else old(status)
    {
      if givesUp {
        status := status[v := FAILED];
      }
    }
  }
}
