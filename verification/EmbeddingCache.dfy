/** The cache of query embeddings: least recently used entries are evicted, old ones expire. */
module EmbeddingCache {
  import opened Common

  type Vector = seq<real>

  /** What the SHA-256 key is computed from. */
  datatype Key = Key(query: string, model: string, dimensions: nat, configuration: string)

  /** An item of the ordered dictionary; the least recently used comes first. */
  datatype Entry = Entry(key: Key, expiresAt: real, value: Vector)

  // ---------- the ordered dictionary ----------

  function KeysOf(entries: seq<Entry>): set<Key> {
    set e | e in entries :: e.key
  }

  predicate Distinct(entries: seq<Entry>) {
    forall i, j :: 0 <= i < j < |entries| ==> entries[i].key != entries[j].key
  }

  function Find(entries: seq<Entry>, key: Key): (item: Option<Entry>)
    ensures item.Some? <==> key in KeysOf(entries)
    ensures item.Some? ==> item.value in entries && item.value.key == key
  {
    if entries == [] then None
    else if entries[0].key == key then Some(entries[0])
    else Find(entries[1..], key)
  }

  function Without(entries: seq<Entry>, key: Key): seq<Entry> {
    if entries == [] then []
    else if entries[0].key == key then Without(entries[1..], key)
    else [entries[0]] + Without(entries[1..], key)
  }

  lemma {:induction false} WithoutKeeps(entries: seq<Entry>, key: Key)
    ensures forall e :: e in Without(entries, key) <==> e in entries && e.key != key
    ensures key !in KeysOf(entries) ==> forall e :: e in entries ==> e.key != key
  {
    if entries != [] {
      WithoutKeeps(entries[1..], key);
      assert entries == [entries[0]] + entries[1..];
    }
  }

  /** The keys behind this one: those used after it. */
  function Behind(entries: seq<Entry>, key: Key): set<Key> {
    if entries == [] then {}
    else if entries[0].key == key then KeysOf(entries[1..])
    else Behind(entries[1..], key)
  }

  lemma WithoutStep(entries: seq<Entry>, key: Key)
    ensures Without(entries, key) ==
            if entries == [] then []
            else if entries[0].key == key then Without(entries[1..], key)
            else [entries[0]] + Without(entries[1..], key)
  {
  }

  lemma HeadKey(entries: seq<Entry>)
    requires entries != []
    ensures KeysOf(entries) == {entries[0].key} + KeysOf(entries[1..])
    ensures forall e :: e in entries <==> e == entries[0] || e in entries[1..]
    ensures Distinct(entries) ==> Distinct(entries[1..]) && entries[0].key !in KeysOf(entries[1..])
  {
    assert entries == [entries[0]] + entries[1..];
  }

  lemma {:induction false} WithoutFacts(entries: seq<Entry>, key: Key)
    requires Distinct(entries)
    ensures var rest := Without(entries, key);
            && Distinct(rest) && KeysOf(rest) == KeysOf(entries) - {key}
            && (forall e :: e in rest <==> e in entries && e.key != key)
            && (key !in KeysOf(entries) ==> rest == entries)
            && (key in KeysOf(entries) ==> |rest| == |entries| - 1)
  {
    hide KeysOf, Distinct, Without;
    WithoutStep(entries, key);
    if entries == [] {
      NoKeys(entries);
    } else {
      var tail := entries[1..];
      HeadKey(entries);
      WithoutFacts(tail, key);
      if entries[0].key != key { PrependFacts(entries[0], Without(tail, key)); }
    }
  }

  lemma NoKeys(entries: seq<Entry>)
    requires entries == []
    ensures KeysOf(entries) == {} && Distinct(entries)
  {
  }

  lemma PrependFacts(e: Entry, rest: seq<Entry>)
    requires Distinct(rest) && e.key !in KeysOf(rest)
    ensures Distinct([e] + rest) && KeysOf([e] + rest) == {e.key} + KeysOf(rest)
    ensures forall x :: x in [e] + rest <==> x == e || x in rest
  {
    assert forall i :: 0 <= i < |rest| ==> rest[i].key in KeysOf(rest);
  }

  lemma {:induction false} BehindWithout(entries: seq<Entry>, removed: Key, key: Key)
    requires Distinct(entries) && key != removed && key in KeysOf(entries)
    ensures Behind(Without(entries, removed), key) <= Behind(entries, key)
  {
    assert entries != [] by { if entries == [] { NoKeys(entries); } }
    hide KeysOf, Distinct;
    var tail := entries[1..];
    HeadKey(entries);
    WithoutFacts(tail, removed);
    if entries[0].key == key {
      assert Without(entries, removed)[1..] == Without(tail, removed);
    } else {
      assert key in KeysOf(tail);
      BehindWithout(tail, removed, key);
      if entries[0].key != removed {
        assert Without(entries, removed)[1..] == Without(tail, removed);
      }
    }
  }

  lemma {:induction false} BehindAppend(entries: seq<Entry>, e: Entry, key: Key)
    requires key in KeysOf(entries)
    ensures Behind(entries + [e], key) == Behind(entries, key) + {e.key}
  {
    var tail := entries[1..];
    assert entries == [entries[0]] + tail;
    assert (entries + [e])[1..] == tail + [e];
    if entries[0].key != key {
      assert key in KeysOf(tail);
      BehindAppend(tail, e, key);
    } else {
      assert KeysOf(tail + [e]) == KeysOf(tail) + {e.key};
    }
  }

  lemma {:induction false} BehindNew(entries: seq<Entry>, e: Entry)
    requires e.key !in KeysOf(entries)
    ensures Behind(entries + [e], e.key) == {}
  {
    if entries == [] {
      assert (entries + [e])[1..] == [];
    } else {
      assert entries[0].key in KeysOf(entries);
      assert (entries + [e])[1..] == entries[1..] + [e];
      BehindNew(entries[1..], e);
    }
  }

  lemma {:induction false} CountKeys(entries: seq<Entry>)
    requires Distinct(entries)
    ensures |KeysOf(entries)| == |entries|
  {
    hide KeysOf, Distinct;
    if entries == [] {
      NoKeys(entries);
    } else {
      HeadKey(entries);
      CountKeys(entries[1..]);
    }
  }

  // ---------- the naive cache it is compared with ----------

  /** The last put of a key. */
  datatype Slot = Slot(expiresAt: real, value: Vector)

  /** The naive cache forgets nothing. `touched` lists the keys put or hit, `now` is the latest time. */
  datatype Naive = Naive(slots: map<Key, Slot>, touched: seq<Key>, now: real)

  /** The distinct keys touched since this one was. */
  function Since(touched: seq<Key>, key: Key): set<Key> {
    if touched == [] || touched[|touched| - 1] == key then {}
    else Since(touched[..|touched| - 1], key) + {touched[|touched| - 1]}
  }

  ghost predicate Refines(entries: seq<Entry>, naive: Naive, capacity: nat) {
    && Distinct(entries) && |entries| <= capacity
    && (forall e :: e in entries ==> e.key in naive.slots && naive.slots[e.key] == Slot(e.expiresAt, e.value))
    && (forall key :: key in naive.slots ==>
          if key in KeysOf(entries) then Behind(entries, key) <= Since(naive.touched, key)
          else naive.slots[key].expiresAt <= naive.now || |Since(naive.touched, key)| >= capacity)
  }

  lemma TouchGrows(touched: seq<Key>, touch: Key, key: Key)
    ensures Since(touched + [touch], key) == if touch == key then {} else Since(touched, key) + {touch}
  {
    var all := touched + [touch];
    assert all[|all| - 1] == touch && all[..|all| - 1] == touched;
  }

  /** Moving a key to the end, with a new slot or the old one, keeps the refinement while there is room. */
  lemma TouchRefines(entries: seq<Entry>, naive: Naive, e: Entry, now: real, capacity: nat)
    requires Refines(entries, naive, capacity) && naive.now <= now
    ensures var after := Without(entries, e.key) + [e];
            var next := Naive(naive.slots[e.key := Slot(e.expiresAt, e.value)], naive.touched + [e.key], now);
            && |after| <= capacity + 1 && (e.key in KeysOf(entries) ==> |after| <= capacity)
            && (|after| <= capacity ==> Refines(after, next, capacity))
            && (|after| == capacity + 1 && capacity > 0 ==> Refines(after[1..], next, capacity))
  {
    hide Without, Behind, Since, KeysOf, Distinct;
    WithoutFacts(entries, e.key);
    var rest := Without(entries, e.key);
    var after := rest + [e];
    var next := Naive(naive.slots[e.key := Slot(e.expiresAt, e.value)], naive.touched + [e.key], now);
    AppendFacts(rest, e);
    forall key | key in next.slots
      ensures if key in KeysOf(after) then Behind(after, key) <= Since(next.touched, key)
              else next.slots[key].expiresAt <= now || |Since(next.touched, key)| >= capacity
    {
      TouchGrows(naive.touched, e.key, key);
      if key == e.key {
        BehindNew(rest, e);
      } else if key in KeysOf(rest) {
        BehindAppend(rest, e, key);
        BehindWithout(entries, e.key, key);
      } else {
        Smaller(Since(naive.touched, key), Since(next.touched, key));
      }
    }
    if |after| == capacity + 1 && capacity > 0 {
      EvictionRefines(after, next, capacity);
    }
  }

  lemma AppendFacts(rest: seq<Entry>, e: Entry)
    requires Distinct(rest) && e.key !in KeysOf(rest)
    ensures Distinct(rest + [e]) && KeysOf(rest + [e]) == KeysOf(rest) + {e.key}
  {
    assert forall i :: 0 <= i < |rest| ==> rest[i].key in KeysOf(rest);
  }

  lemma OldestFacts(entries: seq<Entry>)
    requires Distinct(entries) && entries != []
    ensures var oldest, rest := entries[0].key, entries[1..];
            && Distinct(rest) && KeysOf(rest) == KeysOf(entries) - {oldest} && oldest in KeysOf(entries)
            && Behind(entries, oldest) == KeysOf(rest) && |KeysOf(rest)| == |rest|
            && (forall e :: e in rest ==> e in entries)
            && (forall key :: key in KeysOf(rest) ==> Behind(rest, key) == Behind(entries, key))
  {
    hide KeysOf, Distinct;
    HeadKey(entries);
    CountKeys(entries[1..]);
  }

  /** The evicted entry has as many distinct keys touched since as the cache has room for. */
  lemma EvictionRefines(entries: seq<Entry>, naive: Naive, capacity: nat)
    requires |entries| == capacity + 1 && Distinct(entries)
    requires forall e :: e in entries ==> e.key in naive.slots && naive.slots[e.key] == Slot(e.expiresAt, e.value)
    requires forall key :: key in naive.slots ==>
               if key in KeysOf(entries) then Behind(entries, key) <= Since(naive.touched, key)
               else naive.slots[key].expiresAt <= naive.now || |Since(naive.touched, key)| >= capacity
    ensures Refines(entries[1..], naive, capacity)
  {
    hide Since, Behind, KeysOf, Distinct;
    var oldest, rest := entries[0].key, entries[1..];
    OldestFacts(entries);
    if oldest in naive.slots {
      Smaller(KeysOf(rest), Since(naive.touched, oldest));
    }
  }

  /** Dropping an expired entry keeps the refinement. */
  lemma ExpiryRefines(entries: seq<Entry>, naive: Naive, key: Key, now: real, capacity: nat)
    requires Refines(entries, naive, capacity) && naive.now <= now
    requires key in naive.slots && naive.slots[key].expiresAt <= now
    ensures Refines(Without(entries, key), naive.(now := now), capacity)
  {
    hide Without, Behind, Since, KeysOf, Distinct;
    WithoutFacts(entries, key);
    var rest := Without(entries, key);
    forall other | other in KeysOf(rest) ensures Behind(rest, other) <= Behind(entries, other) {
      BehindWithout(entries, key, other);
    }
  }

  // ---------- the class ----------

  class QueryEmbeddingCache {
    const capacity: nat
    const ttl: real
    var values: seq<Entry>
    ghost var naive: Naive

    constructor (capacity: nat, ttl: real, ghost now: real)
      ensures this.capacity == capacity && this.ttl == ttl
      ensures values == [] && naive == Naive(map[], [], now) && Valid()
    {
      this.capacity, this.ttl, values, naive := capacity, ttl, [], Naive(map[], [], now);
    }

    ghost predicate Valid()
      reads this
    {
      Refines(values, naive, capacity)
    }

    /** A hit is the last value put for the key, before its expiry. A miss of a key that was put means that
        it expired, or that at least `capacity` other keys were put or hit since it was. */
    method Get(key: Key, now: real) returns (value: Option<Vector>)
      requires Valid() && naive.now <= now
      modifies this
      ensures Valid() && |values| <= capacity
      ensures value.Some? ==>
                key in old(naive).slots && old(naive).slots[key].value == value.value
                    && now < old(naive).slots[key].expiresAt
      ensures value == None && key in old(naive).slots ==>
                old(naive).slots[key].expiresAt <= now || |Since(old(naive).touched, key)| >= capacity
      ensures naive == Naive(old(naive).slots, old(naive).touched + (if value.Some? then [key] else []), now)
      ensures value == None ==> forall e :: e in values ==> e.key != key
      ensures value.Some? ==>
                values != [] && values[|values| - 1].key == key && values[|values| - 1].value == value.value
                && now < values[|values| - 1].expiresAt
      ensures forall e :: e in values ==> e in old(values)
      ensures forall e :: e in old(values) && e.key != key ==> e in values
    {
      hide Without, Behind, Since, KeysOf, Distinct;
      WithoutKeeps(values, key);
      var item := Find(values, key);
      assert naive.touched + [] == naive.touched;
      if item == None {
        naive := naive.(now := now);
        return None;
      }
      WithoutFacts(values, key);
      assert naive.slots[key] == Slot(item.value.expiresAt, item.value.value);
      if item.value.expiresAt <= now {
        ExpiryRefines(values, naive, key, now, capacity);
        values := Without(values, key);
        naive := naive.(now := now);
        return None;
      }
      TouchRefines(values, naive, item.value, now, capacity);
      assert naive.slots[key := naive.slots[key]] == naive.slots;
      values := Without(values, key) + [item.value];
      naive := Naive(naive.slots, naive.touched + [key], now);
      value := Some(item.value.value);
    }

    method Put(key: Key, value: Vector, now: real)
      requires Valid() && naive.now <= now
      modifies this
      ensures Valid() && |values| <= capacity
      ensures naive == Naive(old(naive).slots[key := Slot(now + ttl, value)], old(naive).touched + [key], now)
      ensures capacity > 0 ==> Entry(key, now + ttl, value) in values
    {
      hide Without, Behind, Since, KeysOf, Distinct;
      ghost var next := Naive(naive.slots[key := Slot(now + ttl, value)], naive.touched + [key], now);
      if capacity == 0 {
        naive := next;
        NothingRefines(values, naive);
        return;
      }
      var e := Entry(key, now + ttl, value);
      TouchRefines(values, naive, e, now, capacity);
      WithoutFacts(values, key);
      values := Without(values, key) + [e];
      ghost var all := values;
      while |values| > capacity
        invariant values == all || (|all| == capacity + 1 && values == all[1..])
        invariant values != [] && values[|values| - 1] == e
        decreases |values|
      {
        values := values[1..];
      }
      naive := next;
    }
  }

  lemma NothingRefines(entries: seq<Entry>, naive: Naive)
    requires entries == []
    ensures Refines(entries, naive, 0)
  {
  }

  // ---------- the embedding of a query ----------

  /** The module's cache and the configuration it was made for. */
  class QueryEmbedding {
    var cache: QueryEmbeddingCache?
    /** The provider, which always gives the same embedding. */
    const embed: Key -> Vector

    constructor (embed: Key -> Vector)
      ensures this.embed == embed && cache == null && Valid()
    {
      this.embed, cache := embed, null;
    }

    ghost predicate Valid()
      reads this, cache
    {
      cache != null ==>
        && cache.Valid()
        && forall key :: key in cache.naive.slots ==> cache.naive.slots[key].value == embed(key)
    }

    /** The clock has not yet passed this time. */
    ghost predicate NotAfter(now: real)
      reads this, cache
    {
      cache != null ==> cache.naive.now <= now
    }

    /** The part of _query_embedding before the provider is asked; another configuration means a new cache. */
    method LookUp(capacity: nat, ttl: real, key: Key, now: real) returns (cached: Option<Vector>)
      requires Valid() && NotAfter(now)
      modifies this, cache
      ensures Valid() && NotAfter(now) && (cache == old(cache) || fresh(cache))
      ensures cache != null && |cache.values| <= cache.capacity == capacity && cache.ttl == ttl
      ensures cached.Some? ==> cached.value == embed(key)
      ensures cached.Some? ==>
                exists e :: e in cache.values && e.key == key && e.value == embed(key) && now < e.expiresAt
    {
      if cache == null || cache.capacity != capacity || cache.ttl != ttl {
        cache := new QueryEmbeddingCache(capacity, ttl, now);
      }
      cached := cache.Get(key, now);
    }

    /** The part after it; the cache is the one of that time. */
    method Remember(key: Key, now: real)
      requires Valid() && NotAfter(now) && cache != null
      modifies cache
      ensures Valid() && NotAfter(now) && |cache.values| <= cache.capacity
      ensures cache.capacity > 0 ==> Entry(key, now + cache.ttl, embed(key)) in cache.values
    {
      cache.Put(key, embed(key), now);
    }

    /** Any number of steps of other requests, each with its own configuration. */
    method OtherRequests(from: real, to: real)
      requires Valid() && NotAfter(from) && cache != null && from <= to
      modifies this, cache
      ensures Valid() && NotAfter(to) && cache != null && (cache == old(cache) || fresh(cache))
    {
      var steps: nat, k: nat, clock := *, 0, from;
      while k < steps
        invariant Valid() && NotAfter(clock) && cache != null && clock <= to
        invariant cache == old(cache) || fresh(cache)
      {
        var next: real, key: Key, capacity: nat, ttl: real := *, *, *, *;
        if clock <= next <= to {
          if * {
            var cached := LookUp(capacity, ttl, key, next);
          } else {
            Remember(key, next);
          }
          clock := next;
        }
        k := k + 1;
      }
    }

    /** _query_embedding: whatever other requests do while the provider is asked, the answer is the direct
        embedding. */
    method Query(capacity: nat, ttl: real, key: Key, asked: real, answered: real) returns (vector: Vector)
      requires Valid() && NotAfter(asked) && asked <= answered
      modifies this, cache
      ensures Valid() && NotAfter(answered) && (cache == old(cache) || fresh(cache))
      ensures cache != null && vector == embed(key)
      ensures (cache.capacity > 0 && Entry(key, answered + cache.ttl, embed(key)) in cache.values)
              || cache.capacity == 0
              || exists e :: e in cache.values && e.key == key && e.value == embed(key) && asked < e.expiresAt
    {
      var cached := LookUp(capacity, ttl, key, asked);
      if cached.Some? {
        return cached.value;
      }
      OtherRequests(asked, answered);
      vector := embed(key);
      Remember(key, answered);
    }
  }
}
