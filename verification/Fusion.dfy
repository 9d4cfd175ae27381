/** Weighted reciprocal rank fusion of two result lists, over real numbers. */
module Fusion {
  import opened Common
  import opened Sorting

  /** Ids are numbered in the order of their string form. */
  datatype Candidate = Candidate(id: nat, score: real, payload: nat)

  datatype Row = Row(
    payload: nat, fusion: real, bm25Score: Option<real>, bm25Rank: Option<nat>,
    vectorScore: Option<real>, vectorRank: Option<nat>)

  datatype Ranked = Ranked(id: nat, row: Row)

  datatype Config = Config(k: int, bm25Weight: real, vectorWeight: real, limit: int)

  predicate ValidConfig(c: Config) {
    c.k >= 1 && c.limit >= 1 && c.bm25Weight > 0.0 && c.vectorWeight > 0.0
  }

  // ---------- what a row should hold ----------

  function Share(weight: real, k: int, rank: nat): real
    requires k >= 1
  {
    weight / (k + rank) as real
  }

  /** The sum of weight / (k + rank) over the places of this id; ranks count from one. */
  function Contribution(list: seq<Candidate>, id: nat, weight: real, k: int): real
    requires k >= 1
  {
    if list == [] then 0.0
    else
      Contribution(list[..|list| - 1], id, weight, k)
      + (if list[|list| - 1].id == id then Share(weight, k, |list|) else 0.0)
  }

  function LastRank(list: seq<Candidate>, id: nat): Option<nat> {
    if list == [] then None
    else if list[|list| - 1].id == id then Some(|list|)
    else LastRank(list[..|list| - 1], id)
  }

  function LastScore(list: seq<Candidate>, id: nat): Option<real> {
    if list == [] then None
    else if list[|list| - 1].id == id then Some(list[|list| - 1].score)
    else LastScore(list[..|list| - 1], id)
  }

  function FirstPayload(list: seq<Candidate>, id: nat): Option<nat> {
    if list == [] then None
    else
      var earlier := FirstPayload(list[..|list| - 1], id);
      if earlier == None && list[|list| - 1].id == id then Some(list[|list| - 1].payload) else earlier
  }

  function Ids(list: seq<Candidate>): set<nat> {
    set c | c in list :: c.id
  }

  function RowOf(bm25: seq<Candidate>, vector: seq<Candidate>, id: nat, c: Config): Row
    requires c.k >= 1
  {
    var first, second := FirstPayload(bm25, id), FirstPayload(vector, id);
    Row(if first.Some? then first.value else if second.Some? then second.value else 0,
        Contribution(bm25, id, c.bm25Weight, c.k) + Contribution(vector, id, c.vectorWeight, c.k),
        LastScore(bm25, id), LastRank(bm25, id), LastScore(vector, id), LastRank(vector, id))
  }

  // ---------- the order of the result ----------

  const NO_RANK: int := 1_000_000_000

  function BestRank(r: Row): int {
    var a := if r.bm25Rank.Some? then r.bm25Rank.value else NO_RANK;
    var b := if r.vectorRank.Some? then r.vectorRank.value else NO_RANK;
    if a <= b then a else b
  }

  /** The larger sum comes first, then the better rank, then the smaller id. */
  predicate Before(a: Ranked, b: Ranked) {
    || a.row.fusion > b.row.fusion
    || (a.row.fusion == b.row.fusion && BestRank(a.row) < BestRank(b.row))
    || (a.row.fusion == b.row.fusion && BestRank(a.row) == BestRank(b.row) && a.id < b.id)
  }

  predicate NotAfter(a: Ranked, b: Ranked) {
    !Before(b, a)
  }

  lemma NotAfterIsTotal()
    ensures TotalOrder(NotAfter)
  {
  }

  function Union(bm25: seq<Candidate>, vector: seq<Candidate>): set<nat> {
    Ids(bm25) + Ids(vector)
  }

  function RankedOf(bm25: seq<Candidate>, vector: seq<Candidate>, id: nat, c: Config): Ranked
    requires c.k >= 1
  {
    Ranked(id, RowOf(bm25, vector, id, c))
  }

  /** The first candidates of the union under the strict order, with the right rows. */
  ghost predicate IsFusion(result: seq<Ranked>, bm25: seq<Candidate>, vector: seq<Candidate>, c: Config)
    requires ValidConfig(c)
  {
    && |result| == (if c.limit < |Union(bm25, vector)| then c.limit else |Union(bm25, vector)|)
    && (forall r :: r in result ==> r.id in Union(bm25, vector) && r == RankedOf(bm25, vector, r.id, c))
    && (forall i, j :: 0 <= i < j < |result| ==> Before(result[i], result[j]))
    && (forall id :: id in Union(bm25, vector) && RankedOf(bm25, vector, id, c) !in result ==>
          forall r :: r in result ==> Before(r, RankedOf(bm25, vector, id, c)))
  }

  // ---------- the algorithm ----------

  datatype Result = Fused(ranked: seq<Ranked>) | InvalidConfiguration

  /** The rows after n candidates of the first list and m of the second, in order of insertion. */
  ghost predicate RowsAre(rows: map<nat, Row>, order: seq<nat>, bm25: seq<Candidate>, vector: seq<Candidate>, c: Config)
    requires c.k >= 1
  {
    && rows.Keys == Union(bm25, vector)
    && (forall id :: id in rows ==> rows[id] == RowOf(bm25, vector, id, c))
    && (forall i, j :: 0 <= i < j < |order| ==> order[i] != order[j])
    && (forall id :: id in order <==> id in rows)
  }

  lemma {:induction false} AbsentIn(list: seq<Candidate>, id: nat, weight: real, k: int)
    requires k >= 1 && id !in Ids(list)
    ensures Contribution(list, id, weight, k) == 0.0
    ensures LastRank(list, id) == None && LastScore(list, id) == None && FirstPayload(list, id) == None
  {
    if list != [] {
      assert list[|list| - 1] in list;
      AbsentIn(list[..|list| - 1], id, weight, k);
    }
  }

  lemma {:induction false} PresentIn(list: seq<Candidate>, id: nat)
    requires id in Ids(list)
    ensures FirstPayload(list, id).Some? && LastRank(list, id).Some?
  {
    var front, last := list[..|list| - 1], list[|list| - 1];
    assert list == front + [last];
    if last.id != id || id in Ids(front) {
      PresentIn(front, id);
    }
  }

  lemma NoIds(list: seq<Candidate>)
    ensures list == [] ==> Ids(list) == {}
  {
  }

  lemma OneMore(list: seq<Candidate>, x: Candidate, id: nat, weight: real, k: int)
    requires k >= 1
    ensures Contribution(list + [x], id, weight, k)
            == Contribution(list, id, weight, k) + (if x.id == id then Share(weight, k, |list| + 1) else 0.0)
    ensures LastRank(list + [x], id) == if x.id == id then Some(|list| + 1) else LastRank(list, id)
    ensures LastScore(list + [x], id) == if x.id == id then Some(x.score) else LastScore(list, id)
    ensures FirstPayload(list + [x], id)
            == if FirstPayload(list, id) == None && x.id == id then Some(x.payload) else FirstPayload(list, id)
    ensures Ids(list + [x]) == Ids(list) + {x.id}
  {
    assert (list + [x])[..|list|] == list;
    assert x in list + [x] && forall y :: y in list + [x] <==> y in list || y == x;
  }

  function Created(rows: map<nat, Row>, x: Candidate): Row {
    if x.id in rows then rows[x.id] else Row(x.payload, 0.0, None, None, None, None)
  }

  function FoundByBm25(row: Row, x: Candidate, rank: nat, c: Config): Row
    requires c.k >= 1
  {
    row.(bm25Score := Some(x.score), bm25Rank := Some(rank),
         fusion := row.fusion + Share(c.bm25Weight, c.k, rank))
  }

  function FoundByVector(row: Row, x: Candidate, rank: nat, c: Config): Row
    requires c.k >= 1
  {
    row.(vectorScore := Some(x.score), vectorRank := Some(rank),
         fusion := row.fusion + Share(c.vectorWeight, c.k, rank))
  }

  /** A candidate creates its row if there is none, and fills the fields of its list; one step for both lists. */
  lemma RowAfter(rows: map<nat, Row>, order: seq<nat>, bm25: seq<Candidate>, vector: seq<Candidate>,
                 x: Candidate, c: Config, first: bool)
    requires c.k >= 1 && RowsAre(rows, order, bm25, vector, c) && (first ==> vector == [])
    ensures var row := Created(rows, x);
            var next := if first
              then FoundByBm25(row, x, |bm25| + 1, c)
              else FoundByVector(row, x, |vector| + 1, c);
            RowsAre(rows[x.id := next], if x.id in rows then order else order + [x.id],
                    if first then bm25 + [x] else bm25, if first then vector else vector + [x], c)
  {
    hide Contribution, LastRank, LastScore, FirstPayload, Ids, Share;
    NoIds(vector);
    var left, right := if first then bm25 + [x] else bm25, if first then vector else vector + [x];
    OneMore(if first then bm25 else vector, x, x.id, if first then c.bm25Weight else c.vectorWeight, c.k);
    if x.id !in rows {
      AbsentIn(bm25, x.id, c.bm25Weight, c.k);
      AbsentIn(vector, x.id, c.vectorWeight, c.k);
    } else if x.id in Ids(bm25) {
      PresentIn(bm25, x.id);
    } else {
      PresentIn(vector, x.id);
    }
    var row := Created(rows, x);
    var next := if first then FoundByBm25(row, x, |bm25| + 1, c) else FoundByVector(row, x, |vector| + 1, c);
    assert next == RowOf(left, right, x.id, c);
    forall id | id in rows && id != x.id ensures RowOf(left, right, id, c) == RowOf(bm25, vector, id, c) {
      OneMore(if first then bm25 else vector, x, id, if first then c.bm25Weight else c.vectorWeight, c.k);
    }
    assert Union(left, right) == Union(bm25, vector) + {x.id};
  }

  /** Cutting the sorted rows gives the fusion. */
  lemma CutIsFusion(rows: map<nat, Row>, order: seq<nat>, ranked: seq<Ranked>,
                    bm25: seq<Candidate>, vector: seq<Candidate>, c: Config)
    requires ValidConfig(c) && RowsAre(rows, order, bm25, vector, c)
    requires |ranked| == |order| && forall i :: 0 <= i < |order| ==> ranked[i] == RankedOf(bm25, vector, order[i], c)
    ensures var sorted := Sort(ranked, NotAfter);
            IsFusion(if c.limit < |sorted| then sorted[..c.limit] else sorted, bm25, vector, c)
  {
    hide RowOf, BestRank, Sort, Before, NotAfter, Union, TotalOrder, RankedOf, RowsAre;
    var sorted := Sort(ranked, NotAfter);
    NotAfterIsTotal();
    SortIsSorted(ranked, NotAfter);
    OrderFacts(rows, order, ranked, bm25, vector, c);
    CountOrder(order, Union(bm25, vector));
    DistinctSorted(order, ranked, sorted);
    StrictlySorted(sorted);
    var n := if c.limit < |sorted| then c.limit else |sorted|;
    assert sorted[..|sorted|] == sorted;
    CutOrder(sorted, n);
    assert forall id :: id in Union(bm25, vector) ==> RankedOf(bm25, vector, id, c) in sorted;
  }

  /** Whatever is cut off comes after everything that is kept. */
  lemma CutOrder(sorted: seq<Ranked>, n: nat)
    requires n <= |sorted| && forall i, j :: 0 <= i < j < |sorted| ==> Before(sorted[i], sorted[j])
    ensures forall r :: r in sorted[..n] ==> r in sorted
    ensures forall r, x :: r in sorted[..n] && x in sorted && x !in sorted[..n] ==> Before(r, x)
  {
    hide Before;
    forall r, x | r in sorted[..n] && x in sorted && x !in sorted[..n] ensures Before(r, x) {
      var i :| 0 <= i < n && sorted[..n][i] == r;
      var j :| 0 <= j < |sorted| && sorted[j] == x;
      assert forall k :: 0 <= k < n ==> sorted[..n][k] == sorted[k] && sorted[k] in sorted[..n];
    }
  }

  lemma OrderFacts(rows: map<nat, Row>, order: seq<nat>, ranked: seq<Ranked>,
                   bm25: seq<Candidate>, vector: seq<Candidate>, c: Config)
    requires c.k >= 1 && RowsAre(rows, order, bm25, vector, c)
    requires |ranked| == |order| && forall i :: 0 <= i < |order| ==> ranked[i] == RankedOf(bm25, vector, order[i], c)
    ensures forall i, j :: 0 <= i < j < |order| ==> order[i] != order[j]
    ensures forall id :: id in order <==> id in Union(bm25, vector)
    ensures forall i :: 0 <= i < |order| ==> ranked[i].id == order[i]
    ensures forall r :: r in ranked ==> r.id in Union(bm25, vector) && r == RankedOf(bm25, vector, r.id, c)
    ensures forall id :: id in Union(bm25, vector) ==> RankedOf(bm25, vector, id, c) in ranked
  {
    hide RowOf, Union;
    forall id | id in Union(bm25, vector) ensures RankedOf(bm25, vector, id, c) in ranked {
      var k :| 0 <= k < |order| && order[k] == id;
      assert ranked[k] == RankedOf(bm25, vector, id, c);
    }
  }

  lemma StrictlySorted(sorted: seq<Ranked>)
    requires Sorted(sorted, NotAfter) && forall i, j :: 0 <= i < j < |sorted| ==> sorted[i].id != sorted[j].id
    ensures forall i, j :: 0 <= i < j < |sorted| ==> Before(sorted[i], sorted[j])
  {
    hide BestRank;
    forall i, j | 0 <= i < j < |sorted| ensures Before(sorted[i], sorted[j]) {
      assert NotAfter(sorted[i], sorted[j]);
    }
  }

  lemma {:induction false} CountOrder(order: seq<nat>, ids: set<nat>)
    requires forall i, j :: 0 <= i < j < |order| ==> order[i] != order[j]
    requires forall id :: id in order <==> id in ids
    ensures |order| == |ids|
  {
    if order != [] {
      var front, last := order[..|order| - 1], order[|order| - 1];
      assert order == front + [last];
      assert last !in front;
      CountOrder(front, ids - {last});
    } else {
      assert ids == {};
    }
  }

  lemma DistinctSorted(order: seq<nat>, ranked: seq<Ranked>, sorted: seq<Ranked>)
    requires |ranked| == |order| && forall i :: 0 <= i < |order| ==> ranked[i].id == order[i]
    requires forall i, j :: 0 <= i < j < |order| ==> order[i] != order[j]
    requires multiset(sorted) == multiset(ranked)
    ensures forall i, j :: 0 <= i < j < |sorted| ==> sorted[i].id != sorted[j].id
  {
    forall i, j | 0 <= i < j < |sorted| ensures sorted[i].id != sorted[j].id {
      if sorted[i].id == sorted[j].id {
        assert sorted[i] in multiset(ranked) && sorted[j] in multiset(ranked);
        OnlyOnce(ranked, sorted[i]);
        Twice(sorted, i, j);
      }
    }
  }

  lemma {:induction false} OnlyOnce(ranked: seq<Ranked>, x: Ranked)
    requires forall i, j :: 0 <= i < j < |ranked| ==> ranked[i].id != ranked[j].id
    ensures multiset(ranked)[x] <= 1
  {
    if ranked != [] {
      var front, last := ranked[..|ranked| - 1], ranked[|ranked| - 1];
      assert ranked == front + [last];
      OnlyOnce(front, x);
      if last == x {
        assert x !in front;
      }
    }
  }

  lemma Twice(s: seq<Ranked>, i: nat, j: nat)
    requires i < j < |s|
    ensures s[i] == s[j] ==> multiset(s)[s[i]] >= 2
  {
    assert s == s[..j] + s[j..];
    assert s[i] in multiset(s[..j]) && s[j] in multiset(s[j..]);
  }

  /** weighted_rrf */
  method WeightedRrf(bm25: seq<Candidate>, vector: seq<Candidate>, c: Config) returns (result: Result)
    ensures result.InvalidConfiguration? <==> c.k < 1 || c.limit < 1 || c.bm25Weight <= 0.0 || c.vectorWeight <= 0.0
    ensures result.Fused? ==> ValidConfig(c) && IsFusion(result.ranked, bm25, vector, c)
  {
    hide RowsAre, IsFusion, Share;
    if c.k < 1 || c.limit < 1 || c.bm25Weight <= 0.0 || c.vectorWeight <= 0.0 {
      return InvalidConfiguration;
    }
    var rows: map<nat, Row>, order: seq<nat> := map[], [];
    NoRows(c);
    for n := 0 to |bm25|
      invariant RowsAre(rows, order, bm25[..n], [], c)
    {
      var x := bm25[n];
      RowAfter(rows, order, bm25[..n], [], x, c, true);
      assert bm25[..n + 1] == bm25[..n] + [x];
      var row := Created(rows, x);
      order := if x.id in rows then order else order + [x.id];
      rows := rows[x.id := FoundByBm25(row, x, n + 1, c)];
    }
    assert bm25[..|bm25|] == bm25;
    for n := 0 to |vector|
      invariant RowsAre(rows, order, bm25, vector[..n], c)
    {
      var x := vector[n];
      RowAfter(rows, order, bm25, vector[..n], x, c, false);
      assert vector[..n + 1] == vector[..n] + [x];
      var row := Created(rows, x);
      order := if x.id in rows then order else order + [x.id];
      rows := rows[x.id := FoundByVector(row, x, n + 1, c)];
    }
    assert vector[..|vector|] == vector;
    OrderIsRows(rows, order, bm25, vector, c);
    var ranked := seq(|order|, i requires 0 <= i < |order| => Ranked(order[i], rows[order[i]]));
    CutIsFusion(rows, order, ranked, bm25, vector, c);
    var sorted := Sort(ranked, NotAfter);
    result := Fused(if c.limit < |sorted| then sorted[..c.limit] else sorted);
  }

  lemma NoRows(c: Config)
    requires c.k >= 1
    ensures RowsAre(map[], [], [], [], c)
  {
  }

  lemma OrderIsRows(rows: map<nat, Row>, order: seq<nat>, bm25: seq<Candidate>, vector: seq<Candidate>, c: Config)
    requires c.k >= 1 && RowsAre(rows, order, bm25, vector, c)
    ensures forall i :: 0 <= i < |order| ==> order[i] in rows && rows[order[i]] == RowOf(bm25, vector, order[i], c)
  {
  }

  // ---------- rows and order, written out ----------

  predicate DistinctIds(list: seq<Candidate>) {
    forall i, j :: 0 <= i < j < |list| ==> list[i].id != list[j].id
  }

  /** The best rank of a row: the smaller of its two ranks, a missing one counting as the thousand-millionth. */
  predicate IsBest(r: Row, n: int) {
    && (if r.bm25Rank.Some? then n <= r.bm25Rank.value else n <= 1_000_000_000)
    && (if r.vectorRank.Some? then n <= r.vectorRank.value else n <= 1_000_000_000)
    && (|| (if r.bm25Rank.Some? then n == r.bm25Rank.value else n == 1_000_000_000)
        || (if r.vectorRank.Some? then n == r.vectorRank.value else n == 1_000_000_000))
  }

  lemma BestRankIsBest(r: Row, n: int)
    ensures IsBest(r, n) <==> n == BestRank(r)
  {
  }

  /** One candidate is returned before another exactly when its sum is larger, or, with equal sums, its best rank
      is smaller, or, with equal best ranks too, its id is. */
  lemma OrderIsBySumRankId(a: Ranked, b: Ranked, m: int, n: int)
    requires IsBest(a.row, m) && IsBest(b.row, n)
    ensures Before(a, b) <==>
              || a.row.fusion > b.row.fusion
              || (a.row.fusion == b.row.fusion && (m < n || (m == n && a.id < b.id)))
    ensures exists k :: IsBest(a.row, k)
  {
    BestRankIsBest(a.row, BestRank(a.row));
    BestRankIsBest(a.row, m);
    BestRankIsBest(b.row, n);
  }

  lemma {:induction false} LastPlace(list: seq<Candidate>, id: nat)
    ensures match LastRank(list, id)
            case None => LastScore(list, id) == None && forall i :: 0 <= i < |list| ==> list[i].id != id
            case Some(n) =>
              && 1 <= n <= |list| && list[n - 1].id == id && LastScore(list, id) == Some(list[n - 1].score)
              && forall i :: n <= i < |list| ==> list[i].id != id
  {
    if list != [] && list[|list| - 1].id != id {
      LastPlace(list[..|list| - 1], id);
    }
  }

  lemma {:induction false} FirstPlace(list: seq<Candidate>, id: nat)
    ensures match FirstPayload(list, id)
            case None => forall i :: 0 <= i < |list| ==> list[i].id != id
            case Some(p) =>
              exists n :: 0 <= n < |list| && list[n].id == id && list[n].payload == p
                          && forall i :: 0 <= i < n ==> list[i].id != id
  {
    if list != [] {
      var front := list[..|list| - 1];
      FirstPlace(front, id);
      if FirstPayload(front, id).Some? {
        var n :| 0 <= n < |front| && front[n].id == id && front[n].payload == FirstPayload(front, id).value
                 && forall i :: 0 <= i < n ==> front[i].id != id;
        assert list[n] == front[n] && forall i :: 0 <= i < n ==> list[i] == front[i];
      } else {
        assert forall i :: 0 <= i < |front| ==> list[i] == front[i];
      }
    }
  }

  /** The row of a candidate that stands at place i of the first list and at place j of the second, counted from
      zero, in lists of distinct ids; None where it does not stand in the list. */
  lemma RowAtPlaces(bm25: seq<Candidate>, vector: seq<Candidate>, id: nat, c: Config, i: Option<nat>, j: Option<nat>)
    requires ValidConfig(c) && DistinctIds(bm25) && DistinctIds(vector)
    requires match i case Some(n) => n < |bm25| && bm25[n].id == id
                     case None => forall n :: 0 <= n < |bm25| ==> bm25[n].id != id
    requires match j case Some(n) => n < |vector| && vector[n].id == id
                     case None => forall n :: 0 <= n < |vector| ==> vector[n].id != id
    ensures var r := RowOf(bm25, vector, id, c);
            && r.bm25Rank == (if i.Some? then Some(i.value + 1) else None)
            && r.bm25Score == (if i.Some? then Some(bm25[i.value].score) else None)
            && r.vectorRank == (if j.Some? then Some(j.value + 1) else None)
            && r.vectorScore == (if j.Some? then Some(vector[j.value].score) else None)
            && (i.Some? ==> r.payload == bm25[i.value].payload)
            && (i.None? && j.Some? ==> r.payload == vector[j.value].payload)
            && r.fusion
               == (if i.Some? then c.bm25Weight / (c.k + i.value + 1) as real else 0.0)
                  + (if j.Some? then c.vectorWeight / (c.k + j.value + 1) as real else 0.0)
  {
    hide Contribution, LastRank, LastScore, FirstPayload;
    LastPlace(bm25, id);
    LastPlace(vector, id);
    FirstPlace(bm25, id);
    FirstPlace(vector, id);
    SingleShare(bm25, id, c.bm25Weight, c.k);
    SingleShare(vector, id, c.vectorWeight, c.k);
  }

  // ---------- dominance ----------

  /** In a list of distinct ids the contribution is the single share of the id's rank. */
  lemma {:induction false} SingleShare(list: seq<Candidate>, id: nat, weight: real, k: int)
    requires k >= 1 && DistinctIds(list)
    ensures var rank := LastRank(list, id);
            && Contribution(list, id, weight, k) == (if rank.Some? then Share(weight, k, rank.value) else 0.0)
            && (rank.Some? ==> 1 <= rank.value <= |list| && list[rank.value - 1].id == id)
  {
    hide Share;
    if list != [] {
      var front, last := list[..|list| - 1], list[|list| - 1];
      SingleShare(front, id, weight, k);
      assert forall i :: 0 <= i < |front| ==> front[i] == list[i] && front[i].id != last.id;
    }
  }

  /** Ranked no worse: absent counts as last. */
  predicate NoWorse(a: Option<nat>, b: Option<nat>) {
    b == None || (a.Some? && a.value <= b.value)
  }

  predicate Better(a: Option<nat>, b: Option<nat>) {
    a.Some? && (b == None || a.value < b.value)
  }

  lemma ShareFalls(weight: real, k: int, a: nat, b: nat)
    requires weight > 0.0 && k >= 1 && a < b
    ensures Share(weight, k, a) > Share(weight, k, b) > 0.0
  {
    var x, y := (k + a) as real, (k + b) as real;
    assert 0.0 < x < y;
    QuotientFalls(weight, x, y);
  }

  lemma QuotientFalls(w: real, x: real, y: real)
    requires w > 0.0 && 0.0 < x < y
    ensures w / x > w / y > 0.0
  {
    var p, q := w / x, w / y;
    assert p * x == w == q * y;
    Product(q, y);
    Product(q, y - x);
    assert (p - q) * x == q * (y - x);
    Product(p - q, x);
  }

  /** A product with a positive number has the sign of the other factor. */
  lemma Product(p: real, x: real)
    requires x > 0.0
    ensures p > 0.0 <==> p * x > 0.0
  {
  }

  lemma NoWorseShare(list: seq<Candidate>, a: nat, b: nat, weight: real, k: int)
    requires k >= 1 && weight > 0.0 && DistinctIds(list)
    ensures var ra, rb := LastRank(list, a), LastRank(list, b);
            && (NoWorse(ra, rb) ==> Contribution(list, a, weight, k) >= Contribution(list, b, weight, k))
            && (Better(ra, rb) ==> Contribution(list, a, weight, k) > Contribution(list, b, weight, k))
  {
    hide Share, Contribution, LastRank;
    SingleShare(list, a, weight, k);
    SingleShare(list, b, weight, k);
    var ra, rb := LastRank(list, a), LastRank(list, b);
    if ra.Some? {
      ShareFalls(weight, k, ra.value, ra.value + 1);
      if rb.Some? && ra.value < rb.value { ShareFalls(weight, k, ra.value, rb.value); }
    }
  }

  /** A candidate ranked no worse in both lists and better in one comes first: wherever the other is
      returned, it is returned before. */
  lemma DominantComesFirst(result: seq<Ranked>, bm25: seq<Candidate>, vector: seq<Candidate>, c: Config, a: nat, j: nat)
    requires ValidConfig(c) && IsFusion(result, bm25, vector, c)
    requires DistinctIds(bm25) && DistinctIds(vector) && j < |result|
    requires NoWorse(LastRank(bm25, a), LastRank(bm25, result[j].id))
    requires NoWorse(LastRank(vector, a), LastRank(vector, result[j].id))
    requires || Better(LastRank(bm25, a), LastRank(bm25, result[j].id))
             || Better(LastRank(vector, a), LastRank(vector, result[j].id))
    ensures exists i :: 0 <= i < j && result[i].id == a
  {
    hide RankedOf, LastRank, Union, Before, NoWorse, Better, DistinctIds;
    var b := result[j].id;
    var ra, rb := RankedOf(bm25, vector, a, c), RankedOf(bm25, vector, b, c);
    DominantIsBefore(bm25, vector, c, a, b);
    assert result[j] in result && result[j] == rb;
    assert ra in result;
    var i :| 0 <= i < |result| && result[i] == ra;
    assert !Before(result[j], result[i]) && i != j;
  }

  lemma DominantIsBefore(bm25: seq<Candidate>, vector: seq<Candidate>, c: Config, a: nat, b: nat)
    requires ValidConfig(c) && DistinctIds(bm25) && DistinctIds(vector)
    requires NoWorse(LastRank(bm25, a), LastRank(bm25, b)) && NoWorse(LastRank(vector, a), LastRank(vector, b))
    requires Better(LastRank(bm25, a), LastRank(bm25, b)) || Better(LastRank(vector, a), LastRank(vector, b))
    ensures a in Union(bm25, vector) && RankedOf(bm25, vector, a, c).id == a
    ensures Before(RankedOf(bm25, vector, a, c), RankedOf(bm25, vector, b, c))
    ensures !Before(RankedOf(bm25, vector, b, c), RankedOf(bm25, vector, a, c))
  {
    hide Contribution, LastRank, LastScore, FirstPayload, Ids, Share, BestRank, DistinctIds;
    NoWorseShare(bm25, a, b, c.bm25Weight, c.k);
    NoWorseShare(vector, a, b, c.vectorWeight, c.k);
    if a !in Ids(bm25) { AbsentIn(bm25, a, c.bm25Weight, c.k); }
    if a !in Ids(vector) { AbsentIn(vector, a, c.vectorWeight, c.k); }
  }
}
