/** The response store: one object that owns the tables and the published usage counter. */
module ResponseStore {
  import opened Wrappers
  import opened Ordering
  import opened Digests
  import opened Fingerprint
  import opened Text
  import opened CacheTables
  import opened Eviction

  const CLEANUP_BATCH: nat := 1000
  const EVICTION_BATCH: nat := 512
  const MAX_BATCHES: nat := 8
  const TOUCH_BATCH: nat := 256

  function AccessRank(access: map<string, Access>): Rank {
    map key | key in access :: access[key].accessedAt
  }

  function ExpiryRank(t: Tables, now: int): Rank {
    map key | key in t.entries && key in t.access && t.entries[key].expiresAt <= now :: t.entries[key].expiresAt
  }

  function ResourceRank(resources: map<BaseKey, Resource>, now: int): Rank {
    map base: string | |base| == 16 && base in resources && resources[base].expiresAt <= now :: resources[base].expiresAt
  }

  /** Part way through the rows: the first `n` are chosen, and fewer would not have been enough. */
  ghost predicate Choosing(rank: Rank, access: map<string, Access>, stopAfter: int, rows: seq<string>, n: nat,
                           chosen: set<string>, bytes: nat) {
    && n <= |rows| && chosen == Elements(rows[..n]) && |chosen| == n && chosen <= rank.Keys <= access.Keys
    && bytes == Bytes(access, chosen) && Shortest(rank, access, stopAfter, chosen)
  }

  lemma {:induction false} ChooseNext(rank: Rank, access: map<string, Access>, stopAfter: int, batch: nat,
          rows: seq<string>,
                                      n: nat, chosen: set<string>, bytes: nat)
    requires Rows(rank, batch, rows) && Choosing(rank, access, stopAfter, rows, n, chosen, bytes) && n < |rows|
    requires stopAfter > 0 ==> bytes < stopAfter
    ensures rows[n] in access
    ensures Choosing(rank, access, stopAfter, rows, n + 1, chosen + {rows[n]}, bytes + access[rows[n]].size)
  {
    var more := chosen + {rows[n]};
    RowAppended(rank, batch, rows, n);
    BytesOf(access, more, rows[n]);
    assert more - {rows[n]} == chosen;
    forall key | Newest(rank, more, key) ensures key == rows[n] {
      NewestIsLastRow(rank, batch, rows, n + 1, key);
    }
  }

  lemma {:induction false} Chosen(rank: Rank, access: map<string, Access>, stopAfter: int, batch: nat,
          rows: seq<string>,
                                  n: nat, chosen: set<string>, bytes: nat)
    requires Rows(rank, batch, rows) && Choosing(rank, access, stopAfter, rows, n, chosen, bytes)
    requires n == |rows| || (stopAfter > 0 && bytes >= stopAfter)
    ensures Selected(rank, access, stopAfter, batch, chosen)
  {
    PrefixIsFirst(rank, batch, rows, n);
    assert rows[..|rows|] == rows;
  }

  /** Reads the ordered rows one by one, stopping once enough bytes are found. */
  method ChooseRows(rank: Rank, access: map<string, Access>, stopAfter: int, batch: nat)
    returns (chosen: set<string>, bytes: nat)
    requires rank.Keys <= access.Keys
    ensures Selected(rank, access, stopAfter, batch, chosen) && bytes == Bytes(access, chosen)
  {
    var rows := Query(rank, batch);
    var n, stop := 0, false;
    chosen, bytes := {}, 0;
    while n < |rows| && !stop
      invariant Choosing(rank, access, stopAfter, rows, n, chosen, bytes)
      invariant stop <==> stopAfter > 0 && bytes >= stopAfter
      decreases |rows| - n
    {
      ChooseNext(rank, access, stopAfter, batch, rows, n, chosen, bytes);
      chosen := chosen + {rows[n]};
      bytes := bytes + access[rows[n]].size;
      n := n + 1;
      stop := stopAfter > 0 && bytes >= stopAfter;
    }
    Chosen(rank, access, stopAfter, batch, rows, n, chosen, bytes);
  }

  /** The key that a request has under the resource's present policy. */
  function CurrentKey(digest: Digest, t: Tables, base: BaseKey, request: Headers): string {
    if base in t.resources then EntryKey(digest, base, t.resources[base].generation, request, t.resources[base].vary) else ""
  }

  /** Less recently used: accessed earlier, or at the same time and first in key order. */
  predicate LessRecent(access: map<string, Access>, a: string, b: string)
    requires a in access && b in access
  {
    access[a].accessedAt < access[b].accessedAt || (access[a].accessedAt == access[b].accessedAt && Before(a, b))
  }

  /** Every entry that went was less recently used than every entry that stayed. */
  ghost predicate EvictsOldest(before: Tables, after: Tables) {
    && after.access.Keys <= before.access.Keys
    && (forall a, b :: a in before.access && a !in after.access && b in after.access ==> LessRecent(before.access, a, b))
  }

  /** Longer expired: expired earlier, or at the same time and first in key order. */
  predicate LongerExpired(entries: map<string, Entry>, a: string, b: string)
    requires a in entries && b in entries
  {
    entries[a].expiresAt < entries[b].expiresAt || (entries[a].expiresAt == entries[b].expiresAt && Before(a, b))
  }

  /** Only expired entries went, the longest expired first. */
  ghost predicate DropsExpired(before: Tables, now: int, after: Tables) {
    && after.entries.Keys <= before.entries.Keys
    && (forall a :: a in before.entries && a !in after.entries ==> before.entries[a].expiresAt <= now)
    && (forall a, b :: a in before.entries && a !in after.entries && b in after.entries && before.entries[b].expiresAt <= now ==>
          LongerExpired(before.entries, a, b))
  }

  lemma {:induction false} RemovesOldest(before: Tables, need: int, limit: nat, keys: set<string>, after: Tables)
    requires Removes(AccessRank(before.access), before, need, limit, keys, after)
    ensures EvictsOldest(before, after)
  {
    var rank := AccessRank(before.access);
    assert after.access == before.access - keys;
    forall a, b | a in before.access && a !in after.access && b in after.access ensures LessRecent(before.access, a, b) {
      assert a in keys && b in rank.Keys - keys;
      assert Older(rank, a, b);
    }
  }

  lemma {:induction false} RemovesExpired(before: Tables, now: int, limit: nat, keys: set<string>, after: Tables)
    requires Accounted(before) && Removes(ExpiryRank(before, now), before, 0, limit, keys, after)
    ensures DropsExpired(before, now, after)
  {
    var rank := ExpiryRank(before, now);
    assert after.entries == before.entries - keys;
    forall a, b | a in before.entries && a !in after.entries && b in after.entries && before.entries[b].expiresAt <= now
      ensures LongerExpired(before.entries, a, b)
    {
      assert a in keys && a in rank;
      assert b in rank.Keys - keys && Older(rank, a, b);
    }
  }

  lemma {:induction false} RemovesAllExpired(before: Tables, now: int, limit: nat, keys: set<string>, after: Tables)
    requires Accounted(before) && Removes(ExpiryRank(before, now), before, 0, limit, keys, after)
    ensures |before.entries.Keys - after.entries.Keys| == limit
            || forall key :: key in after.entries ==> after.entries[key].expiresAt > now
  {
    var rank := ExpiryRank(before, now);
    assert keys <= before.entries.Keys;
    WhatWent(before.entries, keys);
    if |keys| != limit {
      assert keys == rank.Keys;
      forall key | key in after.entries ensures after.entries[key].expiresAt > now { assert key !in rank; }
    }
  }

  lemma {:induction false} WhatWent(entries: map<string, Entry>, keys: set<string>)
    requires keys <= entries.Keys
    ensures entries.Keys - (entries - keys).Keys == keys
  {
    assert (entries - keys).Keys == entries.Keys - keys;
  }

  /** Of the expired resource rows, those that went had expired no later than those that stayed. */
  ghost predicate DropsRows(before: map<BaseKey, Resource>, now: int, after: map<BaseKey, Resource>) {
    && after.Keys <= before.Keys
    && (forall a :: a in before && a !in after ==> before[a].expiresAt <= now)
    && (forall b :: b in after ==> after[b] == before[b])
    && (forall a, b :: a in before && a !in after && b in after && before[b].expiresAt <= now ==>
          before[a].expiresAt <= before[b].expiresAt)
  }

  class Store {
    const digest: Digest
    const limit: int
    const lowWater: nat
    var tables: Tables
    var usage: int
    var touches: seq<string>

    ghost predicate Valid() reads this {
      Accounted(tables) && usage == tables.totalBytes && lowWater <= limit
    }

    constructor (digest: Digest, limit: nat, percent: nat)
      requires 1 <= percent < 100
      ensures Valid() && tables == EMPTY && touches == []
      ensures this.digest == digest && this.limit == limit && lowWater == limit * percent / 100
    {
      this.digest, this.limit := digest, limit;
      lowWater := PercentageBytes(limit, percent);
      tables, usage, touches := EMPTY, 0, [];
      PercentageExact(limit, percent);
    }

    method KeyFor(base: BaseKey, generation: nat, request: Headers, vary: seq<string>) returns (key: string)
      ensures key == EntryKey(digest, base, generation, request, vary)
    {
      var text := WriteRequest(request, vary);
      key := digest(DOMAIN + base + Part(Decimal(generation)) + text);
    }

    /** `noted` says whether the touch filter and the bounded queue take the hit. */
    method Get(base: BaseKey, request: Headers, now: int, noted: bool) returns (r: Option<Entry>)
      modifies this`touches
      ensures r == Find(digest, tables, base, request, now)
      ensures touches == old(touches) + if r.Some? && noted then [CurrentKey(digest, tables, base, request)] else []
    {
      if base !in tables.resources || tables.resources[base].expiresAt <= now { return None; }
      var row := tables.resources[base];
      var key := KeyFor(base, row.generation, request, row.vary);
      if key !in tables.entries || tables.entries[key].expiresAt <= now { return None; }
      if noted { touches := touches + [key]; }
      r := Some(tables.entries[key]);
    }

    /** The write transaction; a rolled back one leaves no trace. */
    method Commit(offer: Offer) returns (stored: bool)
      requires Valid()
      modifies this`tables, this`usage
      ensures Valid()
      ensures Write(digest, old(tables), offer, limit) == if stored then Some(tables) else None
      ensures !stored ==> tables == old(tables) && usage == old(usage)
      ensures usage <= Max(old(usage), limit)
    {
      var after := Prepare(offer);
      if after.None? { return false; }
      WriteAccounted(digest, tables, offer, limit);
      usage := usage + (after.value.totalBytes - tables.totalBytes);
      tables := after.value;
      stored := true;
    }

    /** Builds the rows of a write, or rolls back when they would not fit. */
    method Prepare(offer: Offer) returns (after: Option<Tables>)
      ensures after == Write(digest, tables, offer, limit)
    {
      var size := EntrySize(offer.response);
      var row := UpdatedResource(tables.resources, offer);
      var key := KeyFor(offer.base, row.generation, offer.request, offer.vary);
      var former := if key in tables.access then tables.access[key].size else 0;
      var projected := tables.totalBytes - former + size;
      if projected > limit && size > former { return None; }
      after := Some(Tables(tables.resources[offer.base := row],
                           tables.entries[key := Entry(offer.response, offer.storedAt, offer.expiresAt)],
                           tables.access[key := Access(offer.storedAt, size)],
                           projected,
                           tables.entryCount + if key in tables.access then 0 else 1));
    }

    /** Accepted exactly when the whole new entry fits beside everything stored. */
    method Put(offer: Offer) returns (stored: bool)
      requires Valid()
      modifies this`tables, this`usage
      ensures Valid()
      ensures stored <==> old(usage) + EntrySize(offer.response) <= limit
      ensures stored ==> Write(digest, old(tables), offer, limit) == Some(tables)
      ensures !stored ==> tables == old(tables) && usage == old(usage)
      ensures usage <= Max(old(usage), limit)
    {
      if ExceedsCapacity(usage, KEY_BYTES + |offer.response.body|, limit) { return false; }
      var size := EntrySize(offer.response);
      if size > limit { return false; }
      if ExceedsCapacity(usage, size, limit) { return false; }
      assert Write(digest, tables, offer, limit).Some?;
      stored := Commit(offer);
    }

    /** Removes the first rows of the ordered selection until enough bytes are freed or the batch is full. */
    method DeleteEntryBatch(rank: Rank, stopAfter: int, batch: nat) returns (removed: nat, bytes: nat,
            ghost keys: set<string>)
      requires Valid() && rank.Keys <= tables.access.Keys && batch > 0
      modifies this`tables, this`usage
      ensures Valid()
      ensures Selected(rank, old(tables).access, stopAfter, batch, keys)
      ensures removed == |keys| && bytes == Bytes(old(tables).access, keys)
      ensures tables == Remove(old(tables), keys, bytes) && usage == old(usage) - bytes
    {
      var chosen;
      chosen, bytes := ChooseRows(rank, tables.access, stopAfter, batch);
      removed, keys := |chosen|, chosen;
      RemoveAccounted(tables, chosen);
      if chosen == {} {
        NothingRemoved(tables);
        return;
      }
      tables := Remove(tables, chosen, bytes);
      usage := usage - bytes;
    }

    /** Removes expired entries, the longest expired first; all of them unless eight full batches were not enough. */
    method DeleteExpiredEntries(now: int) returns (ghost keys: set<string>)
      requires Valid()
      modifies this`tables, this`usage
      ensures Valid()
      ensures Removes(ExpiryRank(old(tables), now), old(tables), 0, MAX_BATCHES * CLEANUP_BATCH, keys, tables)
      ensures DropsExpired(old(tables), now, tables)
      ensures |old(tables).entries.Keys - tables.entries.Keys| == MAX_BATCHES * CLEANUP_BATCH
              || forall key :: key in tables.entries ==> tables.entries[key].expiresAt > now
    {
      keys := {};
      ghost var before, rank := tables, ExpiryRank(tables, now);
      NothingRemoved(tables);
      NothingSelected(rank, tables.access, 0);
      var batch := 0;
      while batch < MAX_BATCHES
        invariant batch <= MAX_BATCHES && Valid()
        invariant Removes(rank, before, 0, batch * CLEANUP_BATCH, keys, tables)
        decreases MAX_BATCHES - batch
      {
        assert ExpiryRank(tables, now) == rank - keys;
        var removed, bytes, chosen := DeleteEntryBatch(ExpiryRank(tables, now), 0, CLEANUP_BATCH);
        RemovesMore(rank, before, 0, batch * CLEANUP_BATCH, keys, CLEANUP_BATCH, chosen);
        keys := keys + chosen;
        batch := batch + 1;
        if removed < CLEANUP_BATCH { break; }
      }
      RemovesWidely(rank, before, 0, batch * CLEANUP_BATCH, keys, tables, MAX_BATCHES * CLEANUP_BATCH);
      RemovesExpired(before, now, MAX_BATCHES * CLEANUP_BATCH, keys, tables);
      RemovesAllExpired(before, now, MAX_BATCHES * CLEANUP_BATCH, keys, tables);
    }

    /** Drops one batch of expired resource rows, the longest expired first. */
    method DropExpiredBatch(now: int) returns (removed: nat, ghost bases: set<BaseKey>)
      requires Valid()
      modifies this`tables
      ensures Valid() && tables == DropResources(old(tables), bases) && removed == |bases| <= CLEANUP_BATCH
      ensures bases <= ExpiredBases(old(tables).resources, now)
      ensures removed < CLEANUP_BATCH ==> ExpiredBases(tables.resources, now) == {}
      ensures DropsRows(old(tables).resources, now, tables.resources)
    {
      var rank := ResourceRank(tables.resources, now);
      var rows := Query(rank, CLEANUP_BATCH);
      var chosen := set base: BaseKey | base in tables.resources && base in rows;
      RowsAreBases(tables.resources, now, rows, chosen);
      RowsAreOldest(tables.resources, now, rows, chosen);
      tables := tables.(resources := tables.resources - chosen);
      removed, bases := |rows|, chosen;
    }

    /** Drops expired resource rows in batches; all of them unless eight full batches were not enough. */
    method DeleteExpiredRows(now: int) returns (ghost bases: set<BaseKey>)
      requires Valid()
      modifies this`tables
      ensures Valid() && tables == DropResources(old(tables), bases)
      ensures bases <= ExpiredBases(old(tables).resources, now)
      ensures |bases| == MAX_BATCHES * CLEANUP_BATCH || ExpiredBases(tables.resources, now) == {}
      ensures DropsRows(old(tables).resources, now, tables.resources)
    {
      bases := {};
      DropTwice(tables, {}, {});
      var batch := 0;
      while batch < MAX_BATCHES
        invariant batch <= MAX_BATCHES && Valid() && |bases| == batch * CLEANUP_BATCH
        invariant tables == DropResources(old(tables), bases) && bases <= ExpiredBases(old(tables).resources, now)
        invariant DropsRows(old(tables).resources, now, tables.resources)
        decreases MAX_BATCHES - batch
      {
        ghost var between := tables.resources;
        var removed, chosen := DropExpiredBatch(now);
        DropsMore(old(tables).resources, now, between, tables.resources);
        DropTwice(old(tables), bases, chosen);
        DisjointDrop(old(tables).resources, now, bases, chosen);
        bases := bases + chosen;
        batch := batch + 1;
        if removed < CLEANUP_BATCH { break; }
      }
    }

    /** Moves one batch of queued touches into the access table. */
    method FlushTouches(now: int, window: int)
      requires Valid()
      modifies this`tables, this`touches
      ensures Valid()
      ensures var n := Min(|old(touches)|, TOUCH_BATCH);
        touches == old(touches)[n..] && tables == Touch(old(tables), Elements(old(touches)[..n]), now, window)
    {
      var n := Min(|touches|, TOUCH_BATCH);
      var keys := Elements(touches[..n]);
      touches := touches[n..];
      TouchAccounted(tables, keys, now, window);
      tables := Touch(tables, keys, now, window);
    }

    /** One more batch of an eviction that began at `before` and has removed `keys` so far. */
    method EvictBatch(ghost before: Tables, ghost m: nat, ghost keys: set<string>) returns (removed: nat, ghost more: set<string>)
      requires Valid() && Accounted(before) && usage > lowWater
      requires Removes(AccessRank(before.access), before, before.totalBytes - lowWater, m, keys, tables)
      modifies this`tables, this`usage
      ensures Valid() && (removed == 0 ==> |keys + more| < m + EVICTION_BATCH)
      ensures Removes(AccessRank(before.access), before, before.totalBytes - lowWater, m + EVICTION_BATCH, keys + more, tables)
    {
      RemoveAccounted(before, keys);
      RankWithout(before.access, keys);
      var bytes;
      removed, bytes, more := DeleteEntryBatch(AccessRank(tables.access), usage - lowWater, EVICTION_BATCH);
      RemovesMore(AccessRank(before.access), before, before.totalBytes - lowWater, m, keys, EVICTION_BATCH, more);
    }

    /** Up to eight batches, each continuing where the last one stopped. */
    method EvictBatches() returns (ghost keys: set<string>)
      requires Valid() && usage > lowWater
      modifies this`tables, this`usage
      ensures Valid()
      ensures Removes(AccessRank(old(tables).access), old(tables), old(usage) - lowWater,
                      MAX_BATCHES * EVICTION_BATCH, keys, tables)
    {
      keys := {};
      ghost var before, rank := tables, AccessRank(tables.access);
      NothingRemoved(tables);
      NothingSelected(rank, tables.access, usage - lowWater);
      var batch := 0;
      while batch < MAX_BATCHES && usage > lowWater
        invariant batch <= MAX_BATCHES && Valid()
        invariant Removes(rank, before, before.totalBytes - lowWater, batch * EVICTION_BATCH, keys, tables)
        invariant usage == tables.totalBytes
        decreases MAX_BATCHES - batch
      {
        var removed, more := EvictBatch(before, batch * EVICTION_BATCH, keys);
        keys := keys + more;
        batch := batch + 1;
        if removed == 0 { break; }
      }
      EvictionStops(before, lowWater, batch * EVICTION_BATCH, keys, tables, MAX_BATCHES * EVICTION_BATCH);
    }

    /**
     * Above the mark that triggers it, removes the shortest run of least recently used entries that brings usage
     * to the low-water mark, cut off after eight batches; asks for another round exactly if the mark was not reached.
     */
    method EnforceCapacity(force: bool) returns (again: bool, ghost keys: set<string>)
      requires Valid()
      modifies this`tables, this`usage
      ensures Valid()
      ensures old(usage) <= (if force then lowWater else limit) ==> tables == old(tables) && !again
      ensures old(usage) > (if force then lowWater else limit) ==>
                Removes(AccessRank(old(tables).access), old(tables), old(usage) - lowWater, MAX_BATCHES * EVICTION_BATCH, keys, tables)
                && (again <==> usage > lowWater)
      ensures EvictsOldest(old(tables), tables)
    {
      keys, again := {}, false;
      if (!force && usage <= limit) || (force && usage <= lowWater) { return; }
      keys := EvictBatches();
      RemovesOldest(old(tables), old(usage) - lowWater, MAX_BATCHES * EVICTION_BATCH, keys, tables);
      again := usage > lowWater;
    }
  }

  /** `after` is what remains of `before` without the selection `keys`. */
  ghost predicate Removes(rank: Rank, before: Tables, need: int, limit: nat, keys: set<string>, after: Tables) {
    && Selected(rank, before.access, need, limit, keys)
    && after == Remove(before, keys, Bytes(before.access, keys))
  }

  lemma {:induction false} RemovesMore(rank: Rank, before: Tables, need: int, m: nat, a: set<string>, n: nat,
          b: set<string>)
    requires Accounted(before)
    requires Selected(rank, before.access, need, m, a) && (need > 0 ==> Bytes(before.access, a) < need)
    requires var left := if need > 0 then need - Bytes(before.access, a) else need;
      Selected(rank - a, before.access - a, left, n, b)
    ensures var first := Remove(before, a, Bytes(before.access, a));
      && Removes(rank, before, need, m + n, a + b, Remove(first, b, Bytes(first.access, b)))
      && Bytes(before.access, a + b) == Bytes(before.access, a) + Bytes(first.access, b)
      && |a + b| == |a| + |b|
  {
    SelectedContinues(rank, before.access, need, m, a, n, b);
    RemoveTwice(before, a, b);
  }

  lemma {:induction false} RankWithout(access: map<string, Access>, keys: set<string>)
    ensures AccessRank(access - keys) == AccessRank(access) - keys
  {
  }

  /** An eviction that ran out of need or of rows is complete under the overall limit. */
  lemma {:induction false} EvictionStops(before: Tables, low: nat, m: nat, keys: set<string>, after: Tables, limit: nat)
    requires Accounted(before) && before.totalBytes > low && m <= limit
    requires Removes(AccessRank(before.access), before, before.totalBytes - low, m, keys, after)
    requires m == limit || after.totalBytes <= low || |keys| < m
    ensures Removes(AccessRank(before.access), before, before.totalBytes - low, limit, keys, after)
  {
    RemoveAccounted(before, keys);
    RemovesWidely(AccessRank(before.access), before, before.totalBytes - low, m, keys, after, limit);
  }

  lemma {:induction false} RemovesWidely(rank: Rank, before: Tables, need: int, limit: nat, keys: set<string>,
          after: Tables, wider: nat)
    requires Removes(rank, before, need, limit, keys, after) && limit <= wider
    requires limit == wider || Enough(rank, before.access, need, keys)
    ensures Removes(rank, before, need, wider, keys, after)
  {
    if limit < wider { SelectedWidens(rank, before.access, need, limit, keys, wider); }
  }

  /** The low-water mark is reached whenever some admissible run of least recently used entries frees enough. */
  lemma {:induction false} EvictionReaches(before: Tables, low: nat, limit: nat, keys: set<string>, after: Tables,
          enough: set<string>)
    requires Accounted(before)
    requires Removes(AccessRank(before.access), before, before.totalBytes - low, limit, keys, after)
    requires First(AccessRank(before.access), enough) && |enough| <= limit
    requires Bytes(before.access, enough) >= before.totalBytes - low
    ensures after.totalBytes <= low || before.totalBytes <= low
  {
    var rank := AccessRank(before.access);
    RemoveAccounted(before, keys);
    if keys != rank.Keys && |keys| == limit {
      FirstNested(rank, enough, keys);
      BytesMonotone(before.access, enough, keys);
    } else if keys == rank.Keys {
      BytesMonotone(before.access, enough, keys);
    }
  }

  function ExpiredBases(resources: map<BaseKey, Resource>, now: int): set<BaseKey> {
    set base | base in resources && resources[base].expiresAt <= now
  }

  lemma {:induction false} DropTwice(t: Tables, a: set<BaseKey>, b: set<BaseKey>)
    ensures DropResources(DropResources(t, a), b) == DropResources(t, a + b)
    ensures DropResources(t, {}) == t
  {
    assert t.resources - a - b == t.resources - (a + b);
    assert t.resources - {} == t.resources;
  }

  lemma {:induction false} DisjointDrop(resources: map<BaseKey, Resource>, now: int, a: set<BaseKey>, b: set<BaseKey>)
    requires b <= ExpiredBases(resources - a, now)
    ensures a !! b && |a + b| == |a| + |b| && b <= ExpiredBases(resources, now)
  {
  }

  lemma {:induction false} RowsAreBases(resources: map<BaseKey, Resource>, now: int, rows: seq<string>,
          chosen: set<BaseKey>)
    requires Rows(ResourceRank(resources, now), CLEANUP_BATCH, rows)
    requires chosen == set base: BaseKey | base in resources && base in rows
    ensures |chosen| == |rows| && chosen <= ExpiredBases(resources, now)
    ensures |rows| < CLEANUP_BATCH ==> ExpiredBases(resources - chosen, now) == {}
  {
    var rank := ResourceRank(resources, now);
    var keys := Elements(rows);
    assert rows[..|rows|] == rows;
    RowsDistinct(rank, CLEANUP_BATCH, rows, |rows|);
    SameSize(chosen, keys);
    if |rows| < CLEANUP_BATCH {
      forall base | base in ExpiredBases(resources, now) ensures base in chosen {
        assert base in rank.Keys;
      }
    }
  }

  lemma {:induction false} DropsMore(before: map<BaseKey, Resource>, now: int, between: map<BaseKey, Resource>,
          after: map<BaseKey, Resource>)
    requires DropsRows(before, now, between) && DropsRows(between, now, after)
    ensures DropsRows(before, now, after)
  {
  }

  lemma {:induction false} RowsAreOldest(resources: map<BaseKey, Resource>, now: int, rows: seq<string>,
          chosen: set<BaseKey>)
    requires Rows(ResourceRank(resources, now), CLEANUP_BATCH, rows)
    requires chosen == set base: BaseKey | base in resources && base in rows
    ensures DropsRows(resources, now, resources - chosen)
  {
    var rank := ResourceRank(resources, now);
    forall a, b | a in chosen && b in resources - chosen && resources[b].expiresAt <= now
      ensures resources[a].expiresAt <= resources[b].expiresAt
    {
      var i :| 0 <= i < |rows| && rows[i] == a;
      assert b in rank && b !in rows && Older(rank, rows[i], b);
    }
    forall a | a in chosen ensures resources[a].expiresAt <= now {
      var i :| 0 <= i < |rows| && rows[i] == a;
      assert rows[i] in rank;
    }
  }

  lemma {:induction false} SameSize(chosen: set<BaseKey>, keys: set<string>)
    requires (forall base :: base in chosen ==> base in keys) && forall key :: key in keys ==> |key| == 16 && key in chosen
    ensures |chosen| == |keys|
  {
    if chosen != {} {
      var base :| base in chosen;
      SameSize(chosen - {base}, keys - {base});
    } else {
      assert keys == {};
    }
  }

  lemma {:induction false} RowsDistinct(rank: Rank, limit: nat, rows: seq<string>, n: nat)
    requires Rows(rank, limit, rows) && n <= |rows|
    ensures |Elements(rows[..n])| == n
  {
    if n > 0 {
      var m := n - 1;
      RowsDistinct(rank, limit, rows, m);
      RowAppended(rank, limit, rows, m);
    } else {
      assert rows[..0] == [] && Elements([]) == {};
    }
  }

  lemma {:induction false} NothingRemoved(t: Tables)
    requires Accounted(t)
    ensures Remove(t, {}, 0) == t
  {
    assert t.entries - {} == t.entries && t.access - {} == t.access;
  }

  lemma {:induction false} MinusTwice<V>(m: map<string, V>, a: set<string>, b: set<string>)
    ensures m - a - b == m - (a + b)
  {
  }

  lemma {:induction false} RemoveTwice(t: Tables, a: set<string>, b: set<string>)
    requires Accounted(t) && a <= t.access.Keys && b <= t.access.Keys - a
    ensures var first := Remove(t, a, Bytes(t.access, a));
      && b <= first.access.Keys
      && Remove(first, b, Bytes(first.access, b)) == Remove(t, a + b, Bytes(t.access, a + b))
  {
    var first := Remove(t, a, Bytes(t.access, a));
    RemoveAccounted(t, a);
    assert first.access.Keys == t.access.Keys - a;
    RemoveAccounted(first, b);
    RemoveAccounted(t, a + b);
    BytesUnion(t.access, a, b);
    BytesAgree(t.access, first.access, b);
    MinusTwice(t.entries, a, b);
    MinusTwice(t.access, a, b);
  }
}
