/** The sliding-window limiter: per key, the times of the accepted calls that are still in the window. */
module RateLimit {

  /** The calls of one key: when each was made, and whether it was accepted. */
  datatype Call = Call(time: real, accepted: bool)

  predicate Sorted(times: seq<real>) {
    forall i, j :: 0 <= i < j < |times| ==> times[i] <= times[j]
  }

  /** The accepted times inside the window that ends now; a call exactly `window` ago is outside. */
  function InWindow(times: seq<real>, now: real, window: real): (inside: seq<real>) {
    if times == [] then []
    else
      var front := InWindow(times[..|times| - 1], now, window);
      if now - times[|times| - 1] < window then front + [times[|times| - 1]] else front
  }

  /** The times from the first one that is still inside: what popping from the left leaves. */
  function Recent(times: seq<real>, now: real, window: real): seq<real> {
    if times == [] then []
    else if now - times[0] >= window then Recent(times[1..], now, window)
    else times
  }

  lemma {:induction false} AllInside(times: seq<real>, now: real, window: real)
    requires forall i :: 0 <= i < |times| ==> now - times[i] < window
    ensures InWindow(times, now, window) == times
  {
    if times != [] {
      AllInside(times[..|times| - 1], now, window);
    }
  }

  lemma {:induction false} FirstOutside(times: seq<real>, now: real, window: real)
    requires times != [] && now - times[0] >= window
    ensures InWindow(times, now, window) == InWindow(times[1..], now, window)
  {
    if |times| > 1 {
      var front := times[..|times| - 1];
      FirstOutside(front, now, window);
      assert times[1..][..|times| - 2] == front[1..];
    } else {
      assert times[..0] == [];
    }
  }

  /** Popping expired entries from the left of sorted times leaves exactly those inside the window. */
  lemma {:induction false} RecentIsInWindow(times: seq<real>, now: real, window: real)
    requires Sorted(times)
    ensures Recent(times, now, window) == InWindow(times, now, window)
  {
    if times != [] {
      if now - times[0] >= window {
        FirstOutside(times, now, window);
        RecentIsInWindow(times[1..], now, window);
      } else {
        AllInside(times, now, window);
      }
    }
  }

  /** What an earlier call popped would have been popped by this one. */
  lemma {:induction false} RecentTwice(times: seq<real>, earlier: real, now: real, window: real)
    requires earlier <= now
    ensures Recent(Recent(times, earlier, window), now, window) == Recent(times, now, window)
  {
    if times != [] && earlier - times[0] >= window {
      RecentTwice(times[1..], earlier, now, window);
    }
  }

  // ---------- the naive limiter ----------

  function Accepted(calls: seq<Call>): seq<real> {
    if calls == [] then []
    else
      var front, last := Accepted(calls[..|calls| - 1]), calls[|calls| - 1];
      if last.accepted then front + [last.time] else front
  }

  /** It keeps every accepted call for ever and counts those in the window anew. */
  predicate Allows(accepted: seq<real>, now: real, limit: int, window: real) {
    |InWindow(accepted, now, window)| < limit
  }

  predicate Monotone(calls: seq<Call>) {
    forall i, j :: 0 <= i < j < |calls| ==> calls[i].time <= calls[j].time
  }

  predicate DecidedNaively(calls: seq<Call>, limit: int, window: real) {
    forall i :: 0 <= i < |calls| ==>
      (calls[i].accepted <==> Allows(Accepted(calls[..i]), calls[i].time, limit, window))
  }

  lemma {:induction false} AcceptedSorted(calls: seq<Call>)
    requires Monotone(calls)
    ensures Sorted(Accepted(calls))
    ensures forall i :: 0 <= i < |Accepted(calls)| ==> calls != [] && Accepted(calls)[i] <= calls[|calls| - 1].time
  {
    if calls != [] {
      AcceptedSorted(calls[..|calls| - 1]);
    }
  }

  // ---------- the guarantee ----------

  /** The accepted times t with start <= t < start + window. */
  function InInterval(times: seq<real>, start: real, window: real): seq<real> {
    if times == [] then []
    else
      var front, last := InInterval(times[..|times| - 1], start, window), times[|times| - 1];
      if start <= last < start + window then front + [last] else front
  }

  lemma {:induction false} IntervalWithinWindow(times: seq<real>, start: real, now: real, window: real)
    requires start <= now < start + window
    ensures |InInterval(times, start, window)| <= |InWindow(times, now, window)|
  {
    if times != [] {
      IntervalWithinWindow(times[..|times| - 1], start, now, window);
    }
  }

  lemma {:induction false} NoneAccepted(calls: seq<Call>, limit: int, window: real)
    requires limit <= 0 && DecidedNaively(calls, limit, window)
    ensures Accepted(calls) == []
  {
    if calls != [] {
      var front := calls[..|calls| - 1];
      assert forall i :: 0 <= i < |front| ==> front[..i] == calls[..i];
      NoneAccepted(front, limit, window);
    }
  }

  /** No half-open interval as long as the window holds more than `limit` accepted calls. */
  lemma {:induction false} EveryIntervalWithinLimit(calls: seq<Call>, limit: int, window: real, start: real)
    requires DecidedNaively(calls, limit, window)
    ensures |InInterval(Accepted(calls), start, window)| <= if limit > 0 then limit else 0
  {
    if limit <= 0 {
      NoneAccepted(calls, limit, window);
    } else if calls != [] {
      var front, last := calls[..|calls| - 1], calls[|calls| - 1];
      assert forall i :: 0 <= i < |front| ==> front[..i] == calls[..i];
      EveryIntervalWithinLimit(front, limit, window, start);
      if last.accepted && start <= last.time < start + window {
        IntervalWithinWindow(Accepted(front), start, last.time, window);
      }
    }
  }

  // ---------- the limiter ----------

  /** The deque of a key holds of its accepted calls those that its last call had not expired. */
  ghost predicate Mirrors(entries: seq<real>, calls: seq<Call>, limit: int, window: real) {
    && Monotone(calls)
    && DecidedNaively(calls, limit, window)
    && (forall now {:trigger Recent(entries, now, window)} :: (calls == [] || now >= calls[|calls| - 1].time) ==>
          Recent(entries, now, window) == Recent(Accepted(calls), now, window))
  }

  /** The limiter decides as the naive one, and its deque goes on mirroring the history. */
  lemma CheckMirrors(entries: seq<real>, calls: seq<Call>, now: real, limit: int, window: real)
    requires Mirrors(entries, calls, limit, window) && (calls != [] ==> calls[|calls| - 1].time <= now)
    ensures var kept := Recent(entries, now, window);
            var accepted := |kept| < limit;
            && accepted == Allows(Accepted(calls), now, limit, window)
            && Mirrors(if accepted then kept + [now] else kept, calls + [Call(now, accepted)], limit, window)
  {
    hide Recent, InWindow, DecidedNaively, Sorted, Accepted, Monotone;
    var kept := Recent(entries, now, window);
    var accepted := |kept| < limit;
    var after, next := calls + [Call(now, accepted)], if accepted then kept + [now] else kept;
    AcceptedSorted(calls);
    RecentIsInWindow(Accepted(calls), now, window);
    OneMoreDecision(calls, Call(now, accepted), limit, window);
    OneMoreCall(calls, Call(now, accepted));
    AcceptedSnoc(calls, Call(now, accepted));
    forall later {:trigger Recent(next, later, window)} | later >= now
      ensures Recent(next, later, window) == Recent(Accepted(after), later, window)
    {
      RecentTwice(Accepted(calls), now, later, window);
      RecentAppend(Accepted(calls), now, later, window);
    }
  }

  lemma OneMoreCall(calls: seq<Call>, call: Call)
    requires Monotone(calls) && (calls != [] ==> calls[|calls| - 1].time <= call.time)
    ensures Monotone(calls + [call])
  {
  }

  lemma AcceptedSnoc(calls: seq<Call>, call: Call)
    ensures Accepted(calls + [call]) == if call.accepted then Accepted(calls) + [call.time] else Accepted(calls)
  {
    var all := calls + [call];
    assert all[..|all| - 1] == calls && all[|all| - 1] == call;
  }

  lemma OneMoreDecision(calls: seq<Call>, call: Call, limit: int, window: real)
    requires DecidedNaively(calls, limit, window)
    requires call.accepted <==> Allows(Accepted(calls), call.time, limit, window)
    ensures DecidedNaively(calls + [call], limit, window)
  {
    var after := calls + [call];
    assert after[..|calls|] == calls && forall i :: 0 <= i < |calls| ==> after[..i] == calls[..i];
  }

  class InMemoryRateLimiter {
    const limit: int
    const window: real
    const enabled: bool
    var requests: map<string, seq<real>>
    ghost var history: map<string, seq<Call>>

    constructor (limit: int, window: real, enabled: bool)
      ensures this.limit == limit && this.window == window && this.enabled == enabled
      ensures Valid() && history == map[]
    {
      this.limit, this.window, this.enabled := limit, window, enabled;
      requests, history := map[], map[];
    }

    ghost function Calls(key: string): seq<Call>
      reads this
    {
      if key in history then history[key] else []
    }

    ghost predicate Valid()
      reads this
    {
      && requests.Keys == history.Keys
      && forall key :: key in requests ==> Mirrors(requests[key], history[key], limit, window)
    }

    /** check: false is the 429 answer. The clock does not run backwards between the calls of one key. */
    method Check(key: string, now: real) returns (accepted: bool)
      requires Valid() && (Calls(key) != [] ==> Calls(key)[|Calls(key)| - 1].time <= now)
      modifies this
      ensures Valid()
      ensures !enabled ==> accepted && requests == old(requests) && history == old(history)
      ensures enabled ==> accepted == Allows(Accepted(old(Calls(key))), now, limit, window)
      ensures enabled ==> history == old(history)[key := old(Calls(key)) + [Call(now, accepted)]]
    {
      hide Mirrors, Accepted, Allows;
      if !enabled { return true; }
      var entries := if key in requests then requests[key] else [];
      NewKeyMirrors(limit, window);
      CheckMirrors(entries, Calls(key), now, limit, window);
      ghost var start := entries;
      while entries != [] && now - entries[0] >= window
        invariant Recent(entries, now, window) == Recent(start, now, window)
        decreases |entries|
      {
        entries := entries[1..];
      }
      accepted := |entries| < limit;
      history := history[key := Calls(key) + [Call(now, accepted)]];
      requests := requests[key := if accepted then entries + [now] else entries];
    }
  }

  lemma NewKeyMirrors(limit: int, window: real)
    ensures Mirrors([], [], limit, window)
  {
  }

  /** Expiring before or after a new call is appended leaves the same. */
  lemma {:induction false} RecentAppend(times: seq<real>, now: real, later: real, window: real)
    requires now <= later
    ensures Recent(Recent(times, now, window) + [now], later, window) == Recent(times + [now], later, window)
    decreases |times|
  {
    if times == [] {
    } else if now - times[0] >= window {
      RecentAppend(times[1..], now, later, window);
      assert (times + [now])[1..] == times[1..] + [now];
    }
  }
}
