/** Every interleaving of lookups, writes, evictions, expiry and touches on the response cache. */
module CacheRuns {
  import opened Wrappers
  import opened Ordering
  import opened Digests
  import opened Fingerprint
  import opened CacheTables
  import opened VaryPolicy

  /** An accepted write, with the generation and key it was filed under. */
  datatype Stored = Stored(offer: Offer, generation: nat, key: string)

  /** A lookup that has read the clock and not yet its resource row; `arrived` counts the readings shown before. */
  datatype Arrival = Arrival(base: BaseKey, request: Headers, arrived: nat, now: int)

  /**
   * A lookup that has read its row and not yet its entry; `shown` holds every reading of the clock until it read the
   * row, and `seen` counts the writes until then.
   */
  datatype Lookup = Lookup(base: BaseKey, request: Headers, vary: seq<string>, generation: nat, now: int,
                           arrived: nat, shown: seq<int>, seen: nat)

  /** Committed transactions whose effect on the usage counter is still to be published are `pending`. */
  datatype World = World(tables: Tables, usage: int, pending: seq<int>, past: seq<int>, clock: int, log: seq<Stored>,
                         arrivals: seq<Arrival>, lookups: seq<Lookup>)

  /** Every reading the clock has shown, the present one last. */
  function Shown(w: World): seq<int> { w.past + [w.clock] }

  /**
   * The wall clock may be set to any reading. A lookup and a cleanup read it some time before they use it, so both
   * may work with an earlier reading.
   */
  datatype Step =
    | Wait(now: int)
    | Commit(offer: Offer)
    | Publish
    | Arrive(base: BaseKey, request: Headers)
    | ReadRow(n: nat)
    | Delete(keys: set<string>)
    | Expire(bases: set<BaseKey>, read: nat)
    | Touched(keys: set<string>, now: int, window: int)

  predicate Enabled(w: World, step: Step) {
    match step
    case Publish => w.pending != []
    case ReadRow(n) => n < |w.arrivals|
    case Delete(keys) => keys <= w.tables.access.Keys
    case Expire(bases, read) =>
      && read < |Shown(w)|
      && forall base :: base in bases ==> base in w.tables.resources && w.tables.resources[base].expiresAt <= Shown(w)[read]
    case _ => true
  }

  function CommitOffer(digest: Digest, limit: int, w: World, offer: Offer): World {
    match Write(digest, w.tables, offer, limit)
    case None => w
    case Some(after) =>
      var record := Stored(offer, after.resources[offer.base].generation, OfferKey(digest, w.tables, offer));
      w.(tables := after, pending := w.pending + [after.totalBytes - w.tables.totalBytes], log := w.log + [record])
  }

  /** The first read of a lookup. */
  function LookUp(w: World, a: Arrival): World {
    if a.base in w.tables.resources && w.tables.resources[a.base].expiresAt > a.now then
      var row := w.tables.resources[a.base];
      w.(lookups := w.lookups + [Lookup(a.base, a.request, row.vary, row.generation, a.now, a.arrived, Shown(w), |w.log|)])
    else w
  }

  ghost function DeleteKeys(w: World, keys: set<string>): World
    requires keys <= w.tables.access.Keys
  {
    var bytes := Bytes(w.tables.access, keys);
    w.(tables := Remove(w.tables, keys, bytes), pending := w.pending + [0 - bytes])
  }

  ghost function Apply(digest: Digest, limit: int, w: World, step: Step): World
    requires Enabled(w, step)
  {
    match step
    case Wait(now) => w.(past := Shown(w), clock := now)
    case Commit(offer) => CommitOffer(digest, limit, w, offer)
    case Publish => w.(usage := w.usage + w.pending[0], pending := w.pending[1..])
    case Arrive(base, request) => w.(arrivals := w.arrivals + [Arrival(base, request, |w.past|, w.clock)])
    case ReadRow(n) => LookUp(w, w.arrivals[n])
    case Delete(keys) => DeleteKeys(w, keys)
    case Expire(bases, _) => w.(tables := DropResources(w.tables, bases))
    case Touched(keys, now, window) => w.(tables := Touch(w.tables, keys, now, window))
  }

  /** The second read of a lookup. */
  function Fetch(digest: Digest, t: Tables, look: Lookup): Option<Entry> {
    var key := EntryKey(digest, look.base, look.generation, look.request, look.vary);
    if key in t.entries && t.entries[key].expiresAt > look.now then Some(t.entries[key]) else None
  }

  function Start(clock: int): World { World(EMPTY, 0, [], [], clock, [], [], []) }

  ghost predicate Runs(digest: Digest, limit: int, w: World, steps: seq<Step>, end: World)
    decreases |steps|
  {
    if steps == [] then end == w
    else Enabled(w, steps[0]) && Runs(digest, limit, Apply(digest, limit, w, steps[0]), steps[1..], end)
  }

  // ----- usage -----

  function Sum(deltas: seq<int>): int {
    if deltas == [] then 0 else deltas[0] + Sum(deltas[1..])
  }

  lemma {:induction false} SumSnoc(deltas: seq<int>, delta: int)
    ensures Sum(deltas + [delta]) == Sum(deltas) + delta
  {
    if deltas == [] {
      assert deltas + [delta] == [delta] && [delta][1..] == [];
    } else {
      assert (deltas + [delta])[1..] == deltas[1..] + [delta];
      SumSnoc(deltas[1..], delta);
    }
  }

  ghost predicate Balanced(w: World) {
    Accounted(w.tables) && w.usage + Sum(w.pending) == w.tables.totalBytes
  }

  lemma {:induction false} CommitBalanced(digest: Digest, limit: int, w: World, offer: Offer)
    requires Balanced(w)
    ensures Balanced(CommitOffer(digest, limit, w, offer))
    ensures CommitOffer(digest, limit, w, offer).tables.totalBytes <= Max(w.tables.totalBytes, limit)
  {
    WriteAccounted(digest, w.tables, offer, limit);
    var after := CommitOffer(digest, limit, w, offer);
    SumSnoc(w.pending, after.tables.totalBytes - w.tables.totalBytes);
  }

  lemma {:induction false} DeleteBalanced(w: World, keys: set<string>)
    requires Balanced(w) && keys <= w.tables.access.Keys
    ensures Balanced(DeleteKeys(w, keys)) && DeleteKeys(w, keys).tables.totalBytes <= w.tables.totalBytes
  {
    RemoveAccounted(w.tables, keys);
    SumSnoc(w.pending, 0 - Bytes(w.tables.access, keys));
  }

  lemma {:induction false} PublishBalanced(w: World)
    requires Balanced(w) && w.pending != []
    ensures Balanced(w.(usage := w.usage + w.pending[0], pending := w.pending[1..]))
  {
  }

  lemma {:induction false} TouchBalanced(w: World, keys: set<string>, now: int, window: int)
    requires Balanced(w)
    ensures Balanced(w.(tables := Touch(w.tables, keys, now, window)))
  {
    TouchAccounted(w.tables, keys, now, window);
  }

  lemma {:induction false} ExpireBalanced(w: World, bases: set<BaseKey>)
    requires Balanced(w)
    ensures Balanced(w.(tables := DropResources(w.tables, bases)))
  {
  }

  lemma {:induction false} IdleBalanced(w: World, after: World)
    requires Balanced(w) && after.tables == w.tables && after.usage == w.usage && after.pending == w.pending
    ensures Balanced(after)
  {
  }

  lemma {:induction false} ApplyBalanced(digest: Digest, limit: int, w: World, step: Step)
    requires Balanced(w) && Enabled(w, step)
    ensures Balanced(Apply(digest, limit, w, step))
    ensures Apply(digest, limit, w, step).tables.totalBytes <= Max(w.tables.totalBytes, limit)
  {
    match step
    case Commit(offer) => CommitBalanced(digest, limit, w, offer);
    case Delete(keys) => DeleteBalanced(w, keys);
    case Touched(keys, now, window) => TouchBalanced(w, keys, now, window);
    case Publish => PublishBalanced(w);
    case Expire(bases, _) => ExpireBalanced(w, bases);
    case Wait(now) => IdleBalanced(w, w.(past := Shown(w), clock := now));
    case Arrive(_, _) => IdleBalanced(w, Apply(digest, limit, w, step));
    case ReadRow(n) => IdleBalanced(w, LookUp(w, w.arrivals[n]));
  }

  /** In every run the accounts agree, and usage stays within the limit; with nothing pending the counter is exact. */
  lemma {:induction false} RunsBalanced(digest: Digest, limit: int, w: World, steps: seq<Step>, end: World)
    requires Balanced(w) && Runs(digest, limit, w, steps, end)
    ensures Balanced(end) && end.tables.totalBytes <= Max(w.tables.totalBytes, limit)
    ensures end.pending == [] ==> end.usage == end.tables.totalBytes
    decreases |steps|
  {
    if steps != [] {
      ApplyBalanced(digest, limit, w, steps[0]);
      RunsBalanced(digest, limit, Apply(digest, limit, w, steps[0]), steps[1..], end);
    }
  }

  // ----- what a lookup may return -----

  /** Since the i-th write, every write before the `n`-th to its resource kept its field list and generation. */
  ghost predicate SamePolicy(log: seq<Stored>, i: nat, n: nat) {
    forall j :: i < j < n <= |log| && i < |log| && log[j].offer.base == log[i].offer.base ==>
      log[j].offer.vary == log[i].offer.vary && log[j].generation == log[i].generation
  }

  /** The row of an unexpired response outlives it, and still has its generation only while its policy lasts. */
  ghost predicate Covered(resources: map<BaseKey, Resource>, log: seq<Stored>, i: nat)
    requires i < |log|
  {
    var base := log[i].offer.base;
    && base in resources
    && resources[base].expiresAt >= log[i].offer.expiresAt
    && resources[base].generation >= log[i].generation
    && (resources[base].generation == log[i].generation ==>
          resources[base].vary == log[i].offer.vary && SamePolicy(log, i, |log|))
  }

  /** Later than every one of the readings. */
  predicate Outlasts(expiresAt: int, shown: seq<int>) {
    forall t :: t in shown ==> t < expiresAt
  }

  /** No reading so far, however old the one a cleanup works with, has let the row of such a response go. */
  ghost predicate AllCovered(w: World) {
    forall i :: 0 <= i < |w.log| && Outlasts(w.log[i].offer.expiresAt, Shown(w)) ==> Covered(w.tables.resources, w.log, i)
  }

  ghost predicate Filed(digest: Digest, log: seq<Stored>) {
    forall i :: 0 <= i < |log| ==>
      log[i].key == EntryKey(digest, log[i].offer.base, log[i].generation, log[i].offer.request, log[i].offer.vary)
  }

  /** The i-th write is the last one under its key. */
  ghost predicate Last(log: seq<Stored>, i: nat) {
    i < |log| && forall j :: i < j < |log| ==> log[j].key != log[i].key
  }

  ghost predicate Backed(log: seq<Stored>, key: string, entry: Entry) {
    exists i: nat :: Last(log, i) && log[i].key == key
      && entry == Entry(log[i].offer.response, log[i].offer.storedAt, log[i].offer.expiresAt)
  }

  ghost predicate AllBacked(w: World) {
    forall key :: key in w.tables.entries ==> Backed(w.log, key, w.tables.entries[key])
  }

  predicate Findable(stored: Stored, look: Lookup) {
    && Outlasts(stored.offer.expiresAt, look.shown)
    && stored.offer.base == look.base && stored.generation == look.generation
  }

  /** A write that outlasts the readings until the row was read was made under the policy the lookup read. */
  ghost predicate LookupSound(log: seq<Stored>, look: Lookup) {
    && look.seen <= |log|
    && forall i :: 0 <= i < look.seen && Findable(log[i], look) ==> SamePolicy(log, i, look.seen)
  }

  ghost predicate AllLookupsSound(w: World) {
    forall k :: 0 <= k < |w.lookups| ==> LookupSound(w.log, w.lookups[k])
  }

  /** Every lookup works with the reading that was shown when it arrived. */
  ghost predicate Timed(w: World) {
    && (forall n :: 0 <= n < |w.arrivals| ==>
          w.arrivals[n].arrived < |Shown(w)| && w.arrivals[n].now == Shown(w)[w.arrivals[n].arrived])
    && (forall k :: 0 <= k < |w.lookups| ==>
          && w.lookups[k].seen <= |w.log| && w.lookups[k].arrived < |w.lookups[k].shown|
          && w.lookups[k].now == w.lookups[k].shown[w.lookups[k].arrived])
  }

  /** Every entry is the last write filed under its key. */
  ghost predicate Matched(digest: Digest, w: World) {
    Filed(digest, w.log) && AllBacked(w) && Timed(w)
  }

  ghost predicate Coherent(digest: Digest, w: World) {
    Matched(digest, w) && AllCovered(w) && AllLookupsSound(w)
  }

  lemma {:induction false} CommitCovered(digest: Digest, limit: int, w: World, offer: Offer)
    requires AllCovered(w)
    ensures AllCovered(CommitOffer(digest, limit, w, offer))
  {
    var after := CommitOffer(digest, limit, w, offer);
    if after != w {
      forall i | 0 <= i < |after.log| && Outlasts(after.log[i].offer.expiresAt, Shown(after))
        ensures Covered(after.tables.resources, after.log, i)
      {
        if i < |w.log| { assert after.log[i] == w.log[i] && Covered(w.tables.resources, w.log, i); }
      }
    }
  }

  lemma {:induction false} CommitBacked(digest: Digest, limit: int, w: World, offer: Offer)
    requires Matched(digest, w)
    ensures Matched(digest, CommitOffer(digest, limit, w, offer))
  {
    var after := CommitOffer(digest, limit, w, offer);
    if after != w {
      var record := after.log[|w.log|];
      forall key | key in after.tables.entries ensures Backed(after.log, key, after.tables.entries[key]) {
        if key == record.key {
          assert Last(after.log, |w.log|);
        } else {
          var i: nat :| Last(w.log, i) && w.log[i].key == key
            && w.tables.entries[key] == Entry(w.log[i].offer.response, w.log[i].offer.storedAt, w.log[i].offer.expiresAt);
          assert Last(after.log, i);
        }
      }
    }
  }

  lemma {:induction false} LogGrows(log: seq<Stored>, more: seq<Stored>, look: Lookup)
    requires LookupSound(log, look)
    ensures LookupSound(log + more, look)
  {
    var grown := log + more;
    forall i | 0 <= i < look.seen && Findable(grown[i], look)
      ensures SamePolicy(grown, i, look.seen)
    {
      assert grown[i] == log[i] && SamePolicy(log, i, look.seen);
    }
  }

  lemma {:induction false} CommitCoherent(digest: Digest, limit: int, w: World, offer: Offer)
    requires Coherent(digest, w)
    ensures Coherent(digest, CommitOffer(digest, limit, w, offer))
  {
    var after := CommitOffer(digest, limit, w, offer);
    CommitCovered(digest, limit, w, offer);
    CommitBacked(digest, limit, w, offer);
    if after != w {
      forall k | 0 <= k < |w.lookups| ensures LookupSound(after.log, w.lookups[k]) {
        LogGrows(w.log, [after.log[|w.log|]], w.lookups[k]);
      }
    }
  }

  lemma {:induction false} LookCoherent(digest: Digest, w: World, n: nat)
    requires Coherent(digest, w) && n < |w.arrivals|
    ensures Coherent(digest, LookUp(w, w.arrivals[n]))
  {
    var after := LookUp(w, w.arrivals[n]);
    if after != w {
      var look := after.lookups[|w.lookups|];
      forall i | 0 <= i < look.seen && Findable(w.log[i], look)
        ensures SamePolicy(w.log, i, look.seen)
      {
        assert Covered(w.tables.resources, w.log, i);
      }
      assert LookupSound(w.log, look);
    }
  }

  lemma {:induction false} WaitCoherent(digest: Digest, w: World, now: int)
    requires Matched(digest, w)
    ensures Matched(digest, w.(past := Shown(w), clock := now))
    ensures AllCovered(w) ==> AllCovered(w.(past := Shown(w), clock := now))
  {
    var after := w.(past := Shown(w), clock := now);
    assert Shown(after) == Shown(w) + [now];
    assert forall t :: t in Shown(w) ==> t in Shown(after);
  }

  lemma {:induction false} ApplyMatched(digest: Digest, limit: int, w: World, step: Step)
    requires Matched(digest, w) && Enabled(w, step)
    ensures Matched(digest, Apply(digest, limit, w, step))
  {
    match step
    case Commit(offer) => CommitBacked(digest, limit, w, offer);
    case Wait(now) => WaitCoherent(digest, w, now);
    case _ =>
  }

  lemma {:induction false} RunsMatched(digest: Digest, limit: int, w: World, steps: seq<Step>, end: World)
    requires Matched(digest, w) && Runs(digest, limit, w, steps, end)
    ensures Matched(digest, end)
    decreases |steps|
  {
    if steps != [] {
      ApplyMatched(digest, limit, w, steps[0]);
      RunsMatched(digest, limit, Apply(digest, limit, w, steps[0]), steps[1..], end);
    }
  }

  lemma {:induction false} ApplyCoherent(digest: Digest, limit: int, w: World, step: Step)
    requires Coherent(digest, w) && Enabled(w, step)
    ensures Coherent(digest, Apply(digest, limit, w, step))
  {
    ApplyMatched(digest, limit, w, step);
    match step
    case Commit(offer) => CommitCoherent(digest, limit, w, offer);
    case ReadRow(n) => LookCoherent(digest, w, n);
    case Expire(bases, read) => ExpireCovered(w, bases, read);
    case Wait(now) => WaitCoherent(digest, w, now);
    case _ =>
  }

  lemma {:induction false} ExpireCovered(w: World, bases: set<BaseKey>, read: nat)
    requires AllCovered(w) && Enabled(w, Expire(bases, read))
    ensures AllCovered(w.(tables := DropResources(w.tables, bases)))
  {
    assert Shown(w)[read] in Shown(w);
    forall i | 0 <= i < |w.log| && Outlasts(w.log[i].offer.expiresAt, Shown(w))
      ensures Covered(w.tables.resources - bases, w.log, i)
    {
      assert Covered(w.tables.resources, w.log, i);
    }
  }

  lemma {:induction false} RunsCoherent(digest: Digest, limit: int, w: World, steps: seq<Step>, end: World)
    requires Coherent(digest, w) && Runs(digest, limit, w, steps, end)
    ensures Coherent(digest, end)
    decreases |steps|
  {
    if steps != [] {
      ApplyCoherent(digest, limit, w, steps[0]);
      RunsCoherent(digest, limit, Apply(digest, limit, w, steps[0]), steps[1..], end);
    }
  }

  /** The write that a lookup's result comes from: same resource, the fields the lookup read, equal values for them. */
  ghost predicate Answers(log: seq<Stored>, look: Lookup, entry: Entry, i: nat) {
    && i < |log|
    && log[i].offer.base == look.base && log[i].generation == look.generation
    && SameFields(log[i].offer.vary, look.vary)
    && SameValues(log[i].offer.request, look.request, look.vary)
    && entry == Entry(log[i].offer.response, log[i].offer.storedAt, log[i].offer.expiresAt)
  }

  /** No later write of the same generation answered the same request. */
  ghost predicate Newest(log: seq<Stored>, look: Lookup, i: nat) {
    forall j :: i < j < |log| && log[j].offer.base == look.base && log[j].generation == look.generation
                && SameFields(log[j].offer.vary, look.vary) ==>
      !SameValues(log[j].offer.request, look.request, look.vary)
  }

  /** No write since then and before the lookup changed the policy or answered the same request. */
  ghost predicate Current(log: seq<Stored>, look: Lookup, i: nat) {
    && look.seen <= |log| && i < |log|
    && forall j :: i < j < look.seen && log[j].offer.base == look.base ==>
         log[j].offer.vary == log[i].offer.vary && !SameValues(log[j].offer.request, look.request, look.vary)
  }

  lemma {:induction false} SameKeySameRequest(digest: Digest, stored: Stored, look: Lookup)
    requires Injective(digest)
    requires stored.key == EntryKey(digest, stored.offer.base, stored.generation, stored.offer.request, stored.offer.vary)
    ensures stored.key == EntryKey(digest, look.base, look.generation, look.request, look.vary) <==>
            (&& stored.offer.base == look.base && stored.generation == look.generation
             && SameFields(stored.offer.vary, look.vary)
             && SameValues(stored.offer.request, look.request, look.vary))
  {
    EntryTextInjective(stored.offer.base, stored.generation, stored.offer.request, stored.offer.vary,
                       look.base, look.generation, look.request, look.vary);
    if SameFields(stored.offer.vary, look.vary) {
      SpellingIsFree(stored.offer.request, look.request, stored.offer.vary, look.vary);
    }
  }

  lemma {:induction false} FetchMatches(digest: Digest, w: World, look: Lookup) returns (i: nat)
    requires Injective(digest) && Matched(digest, w) && Fetch(digest, w.tables, look).Some?
    ensures Answers(w.log, look, Fetch(digest, w.tables, look).value, i) && Newest(w.log, look, i)
  {
    var entry := Fetch(digest, w.tables, look).value;
    var key := EntryKey(digest, look.base, look.generation, look.request, look.vary);
    assert Backed(w.log, key, entry);
    i :| Last(w.log, i) && w.log[i].key == key
      && entry == Entry(w.log[i].offer.response, w.log[i].offer.storedAt, w.log[i].offer.expiresAt);
    SameKeySameRequest(digest, w.log[i], look);
    forall j | i < j < |w.log| && w.log[j].offer.base == look.base && w.log[j].generation == look.generation
               && SameFields(w.log[j].offer.vary, look.vary)
      ensures !SameValues(w.log[j].offer.request, look.request, look.vary)
    {
      assert w.log[j].key != key;
      SameKeySameRequest(digest, w.log[j], look);
    }
  }

  /**
   * In every run, whatever a pending lookup finds is unexpired and is the newest answer to its request that was
   * written in the generation it read.
   */
  lemma {:induction false} GetMatches(digest: Digest, limit: int, clock: int, steps: seq<Step>, end: World, k: nat)
    requires Injective(digest) && Runs(digest, limit, Start(clock), steps, end) && k < |end.lookups|
    ensures var r := Fetch(digest, end.tables, end.lookups[k]);
      r.Some? ==> r.value.expiresAt > end.lookups[k].now
                  && exists i :: Answers(end.log, end.lookups[k], r.value, i) && Newest(end.log, end.lookups[k], i)
  {
    RunsMatched(digest, limit, Start(clock), steps, end);
    if Fetch(digest, end.tables, end.lookups[k]).Some? {
      var i := FetchMatches(digest, end, end.lookups[k]);
    }
  }

  lemma {:induction false} NewestIsCurrent(log: seq<Stored>, look: Lookup, entry: Entry, i: nat)
    requires Answers(log, look, entry, i) && Newest(log, look, i) && LookupSound(log, look)
    requires Outlasts(entry.expiresAt, look.shown)
    ensures Current(log, look, i)
  {
    if i < look.seen {
      assert Findable(log[i], look) && SamePolicy(log, i, look.seen);
      forall j | i < j < look.seen && log[j].offer.base == look.base
        ensures log[j].offer.vary == log[i].offer.vary && !SameValues(log[j].offer.request, look.request, look.vary)
      {
        assert SameFields(log[j].offer.vary, look.vary);
      }
    }
  }

  /** What the lookup finds, if anything, answers it by the newest write and under the policy it read. */
  ghost predicate FindsCurrent(digest: Digest, w: World, look: Lookup) {
    var r := Fetch(digest, w.tables, look);
    r.Some? ==> exists i :: Answers(w.log, look, r.value, i) && Newest(w.log, look, i) && Current(w.log, look, i)
  }

  /**
   * In every run, whatever the clock does, a found response that outlasts every reading shown until the row was read
   * was written under the policy the lookup read.
   */
  lemma {:induction false} GetIsCurrent(digest: Digest, limit: int, clock: int, steps: seq<Step>, end: World, k: nat)
    requires Injective(digest) && Runs(digest, limit, Start(clock), steps, end) && k < |end.lookups|
    ensures var look := end.lookups[k];
      var r := Fetch(digest, end.tables, look);
      r.Some? && Outlasts(r.value.expiresAt, look.shown) ==> FindsCurrent(digest, end, look)
  {
    RunsCoherent(digest, limit, Start(clock), steps, end);
    var look := end.lookups[k];
    var r := Fetch(digest, end.tables, look);
    if r.Some? && Outlasts(r.value.expiresAt, look.shown) {
      var i := FetchMatches(digest, end, look);
      NewestIsCurrent(end.log, look, r.value, i);
    }
  }

  predicate Ascending(shown: seq<int>) {
    forall i, j :: 0 <= i < j < |shown| ==> shown[i] <= shown[j]
  }

  /** With readings that never decrease, a found response still unexpired when the row was read is current. */
  lemma {:induction false} UnexpiredIsCurrent(digest: Digest, limit: int, clock: int, steps: seq<Step>, end: World, k: nat)
    requires Injective(digest) && Runs(digest, limit, Start(clock), steps, end) && k < |end.lookups|
    ensures var look := end.lookups[k];
      var r := Fetch(digest, end.tables, look);
      look.shown != [] && (Ascending(look.shown) && r.Some? && r.value.expiresAt > look.shown[|look.shown| - 1]
                           ==> FindsCurrent(digest, end, look))
  {
    ShownIsSome(digest, limit, clock, steps, end, k);
    GetIsCurrent(digest, limit, clock, steps, end, k);
    LastIsLatest(end.lookups[k].shown);
  }

  lemma {:induction false} ShownIsSome(digest: Digest, limit: int, clock: int, steps: seq<Step>, end: World, k: nat)
    requires Runs(digest, limit, Start(clock), steps, end) && k < |end.lookups|
    ensures end.lookups[k].shown != []
  {
    RunsMatched(digest, limit, Start(clock), steps, end);
  }

  lemma {:induction false} LastIsLatest(shown: seq<int>)
    requires shown != []
    ensures Ascending(shown) ==> forall t :: t in shown ==> t <= shown[|shown| - 1]
  {
    if Ascending(shown) {
      forall t | t in shown ensures t <= shown[|shown| - 1] {
        var i :| 0 <= i < |shown| && shown[i] == t;
      }
    }
  }

  // ----- a lookup that works with an earlier reading than another one -----

  const A_FIELD := ["A"]
  const NOTHING := Response(200, "", "")

  function Sent(value: string): Headers { map["A" := [value]] }

  lemma {:induction false} SentValues(value: string)
    ensures Values(Sent(value), "A") == [value]
  {
    assert Capitalised("", false) == "";
    assert Capitalised("A", true) == "A";
  }

  function Asked(base: BaseKey, vary: seq<string>, value: string, storedAt: int, expiresAt: int): Offer {
    Offer(base, vary, Sent(value), NOTHING, storedAt, expiresAt)
  }

  lemma {:induction false} CommitFresh(digest: Digest, limit: int, w: World, offer: Offer)
    requires offer.base !in w.tables.resources && offer.response == NOTHING
    requires w.tables.totalBytes + KEY_BYTES <= limit
    ensures var after := CommitOffer(digest, limit, w, offer);
      var key := EntryKey(digest, offer.base, 1, offer.request, offer.vary);
      && after.tables.resources == w.tables.resources[offer.base := Resource(offer.vary, 1, offer.expiresAt)]
      && after.tables.entries == w.tables.entries[key := Entry(offer.response, offer.storedAt, offer.expiresAt)]
      && after.tables.totalBytes <= w.tables.totalBytes + KEY_BYTES
      && after.log == w.log + [Stored(offer, 1, key)] && after.lookups == w.lookups
      && Shown(after) == Shown(w) && after.clock == w.clock && after.arrivals == w.arrivals
  {
  }

  lemma {:induction false} RunsThen(digest: Digest, limit: int, w: World, steps: seq<Step>, mid: World, step: Step)
    requires Runs(digest, limit, w, steps, mid) && Enabled(mid, step)
    ensures Runs(digest, limit, w, steps + [step], Apply(digest, limit, mid, step))
    decreases |steps|
  {
    if steps == [] {
      assert steps + [step] == [step] && [step][1..] == [];
    } else {
      assert (steps + [step])[1..] == steps[1..] + [step];
      RunsThen(digest, limit, Apply(digest, limit, w, steps[0]), steps[1..], mid, step);
    }
  }

  /** A first response for the resource is stored, and its row dropped because it has expired. */
  lemma {:induction false} Round(digest: Digest, limit: int, w: World, steps: seq<Step>, mid: World, offer: Offer)
      returns (more: seq<Step>, end: World)
    requires Runs(digest, limit, w, steps, mid) && offer.base !in mid.tables.resources && offer.response == NOTHING
    requires mid.tables.totalBytes + KEY_BYTES <= limit && offer.expiresAt <= mid.clock
    ensures Runs(digest, limit, w, more, end) && end == AfterRound(digest, limit, mid, offer)
  {
    CommitFresh(digest, limit, mid, offer);
    var stored := CommitOffer(digest, limit, mid, offer);
    RunsCommit(digest, limit, w, steps, mid, offer);
    var expire := Expire({offer.base}, |stored.past|);
    assert Shown(stored)[|stored.past|] == stored.clock;
    RunsThen(digest, limit, w, steps + [Commit(offer)], stored, expire);
    more, end := steps + [Commit(offer)] + [expire], Apply(digest, limit, stored, expire);
  }

  /** Two responses of the resource, the second under another policy, whose rows are gone and whose entries are not. */
  ghost predicate Former(digest: Digest, base: BaseKey, high: int, tables: Tables, log: seq<Stored>) {
    var first, second := Asked(base, A_FIELD, "x", high - 1, high), Asked(base, [], "x", high - 1, high);
    var key := EntryKey(digest, base, 1, first.request, A_FIELD);
    && base !in tables.resources && tables.totalBytes <= 2 * KEY_BYTES
    && |log| == 2 && log[0] == Stored(first, 1, key) && log[1].offer == second
    && key in tables.entries && tables.entries[key] == Entry(NOTHING, high - 1, high)
  }

  lemma {:induction false} KeysDiffer(digest: Digest, base: BaseKey)
    requires Injective(digest)
    ensures var key := EntryKey(digest, base, 1, Sent("x"), A_FIELD);
      key != EntryKey(digest, base, 1, Sent("x"), []) && key != EntryKey(digest, base, 1, Sent("y"), A_FIELD)
  {
    EntryTextInjective(base, 1, Sent("x"), A_FIELD, base, 1, Sent("x"), []);
    EntryTextInjective(base, 1, Sent("x"), A_FIELD, base, 1, Sent("y"), A_FIELD);
    SentValues("x");
    SentValues("y");
    assert "A" in A_FIELD;
  }

  ghost function AfterRound(digest: Digest, limit: int, w: World, offer: Offer): World {
    var stored := CommitOffer(digest, limit, w, offer);
    stored.(tables := DropResources(stored.tables, {offer.base}))
  }

  lemma {:induction false} RoundsLeave(digest: Digest, limit: int, w: World, base: BaseKey)
    requires Injective(digest) && limit >= 3 * KEY_BYTES && w.tables == EMPTY && w.log == []
    ensures var one := AfterRound(digest, limit, w, Asked(base, A_FIELD, "x", w.clock - 1, w.clock));
      var two := AfterRound(digest, limit, one, Asked(base, [], "x", w.clock - 1, w.clock));
      && base !in one.tables.resources && one.tables.totalBytes <= KEY_BYTES && one.clock == w.clock
      && Former(digest, base, w.clock, two.tables, two.log)
      && Shown(two) == Shown(w) && two.arrivals == w.arrivals && two.lookups == w.lookups
  {
    KeysDiffer(digest, base);
    CommitFresh(digest, limit, w, Asked(base, A_FIELD, "x", w.clock - 1, w.clock));
    var one := AfterRound(digest, limit, w, Asked(base, A_FIELD, "x", w.clock - 1, w.clock));
    CommitFresh(digest, limit, one, Asked(base, [], "x", w.clock - 1, w.clock));
  }

  lemma {:induction false} TwoRounds(digest: Digest, limit: int, w: World, steps: seq<Step>, mid: World, base: BaseKey)
      returns (more: seq<Step>, end: World)
    requires Injective(digest) && limit >= 3 * KEY_BYTES && Runs(digest, limit, w, steps, mid)
    requires mid.tables == EMPTY && mid.log == []
    ensures Runs(digest, limit, w, more, end) && Former(digest, base, mid.clock, end.tables, end.log)
    ensures Shown(end) == Shown(mid) && end.arrivals == mid.arrivals && end.lookups == mid.lookups
  {
    RoundsLeave(digest, limit, mid, base);
    var one;
    more, one := Round(digest, limit, w, steps, mid, Asked(base, A_FIELD, "x", mid.clock - 1, mid.clock));
    more, end := Round(digest, limit, w, more, one, Asked(base, [], "x", mid.clock - 1, mid.clock));
  }

  /** After the p-th reading: the lookup has arrived at its own, and the two responses came and went at the peak. */
  ghost predicate Stage(digest: Digest, base: BaseKey, shown: seq<int>, arrived: nat, peak: nat, p: nat, w: World)
    requires arrived < |shown| && peak < |shown| && p < |shown|
  {
    && Shown(w) == shown[..p + 1] && w.clock == shown[p] && w.lookups == []
    && w.arrivals == (if arrived <= p then [Arrival(base, Sent("x"), arrived, shown[arrived])] else [])
    && (if peak <= p then Former(digest, base, shown[peak], w.tables, w.log) else w.tables == EMPTY && w.log == [])
  }

  /** What happens at the p-th reading. */
  lemma {:induction false} StageActs(digest: Digest, limit: int, base: BaseKey, shown: seq<int>, arrived: nat, peak: nat,
          p: nat, w: World, steps: seq<Step>, mid: World) returns (more: seq<Step>, end: World)
    requires Injective(digest) && limit >= 3 * KEY_BYTES && Runs(digest, limit, w, steps, mid)
    requires arrived < |shown| && peak < |shown| && p < |shown| && arrived != peak
    requires Shown(mid) == shown[..p + 1] && mid.clock == shown[p] && |mid.past| == p && mid.lookups == []
    requires mid.arrivals == (if arrived < p then [Arrival(base, Sent("x"), arrived, shown[arrived])] else [])
    requires if peak < p then Former(digest, base, shown[peak], mid.tables, mid.log) else mid.tables == EMPTY && mid.log == []
    ensures Runs(digest, limit, w, more, end) && Stage(digest, base, shown, arrived, peak, p, end)
  {
    more, end := steps, mid;
    if p == arrived {
      var arrive := Arrive(base, Sent("x"));
      RunsThen(digest, limit, w, steps, mid, arrive);
      more, end := steps + [arrive], Apply(digest, limit, mid, arrive);
    } else if p == peak {
      more, end := TwoRounds(digest, limit, w, steps, mid, base);
      assert end.clock == Shown(end)[|Shown(end)| - 1] == mid.clock;
    }
  }

  lemma {:induction false} StageRuns(digest: Digest, limit: int, base: BaseKey, shown: seq<int>, arrived: nat, peak: nat,
          p: nat) returns (steps: seq<Step>, w: World)
    requires Injective(digest) && limit >= 3 * KEY_BYTES
    requires arrived < |shown| && peak < |shown| && p < |shown| && arrived != peak
    ensures Runs(digest, limit, Start(shown[0]), steps, w) && Stage(digest, base, shown, arrived, peak, p, w)
  {
    var start := Start(shown[0]);
    if p == 0 {
      assert Shown(start) == shown[..1];
      steps, w := StageActs(digest, limit, base, shown, arrived, peak, p, start, [], start);
    } else {
      steps, w := StageRuns(digest, limit, base, shown, arrived, peak, p - 1);
      var wait := Wait(shown[p]);
      RunsThen(digest, limit, start, steps, w, wait);
      assert |w.past| + 1 == |Shown(w)| == p;
      assert Shown(w) + [shown[p]] == shown[..p + 1];
      steps, w := StageActs(digest, limit, base, shown, arrived, peak, p, start, steps + [wait], Apply(digest, limit, w, wait));
    }
  }

  /** A third response is stored, and only then the row is read. */
  ghost function Returned(digest: Digest, limit: int, offer: Offer, w: World): World
    requires |w.arrivals| == 1
  {
    LookUp(CommitOffer(digest, limit, w, offer), w.arrivals[0])
  }

  /** It has the first policy. */
  function Third(base: BaseKey, high: int): Offer { Asked(base, A_FIELD, "y", high, high + 1) }

  lemma {:induction false} RunsCommit(digest: Digest, limit: int, w: World, steps: seq<Step>, mid: World, offer: Offer)
    requires Runs(digest, limit, w, steps, mid)
    ensures Runs(digest, limit, w, steps + [Commit(offer)], CommitOffer(digest, limit, mid, offer))
  {
    RunsThen(digest, limit, w, steps, mid, Commit(offer));
  }

  lemma {:induction false} RunsRead(digest: Digest, limit: int, w: World, steps: seq<Step>, mid: World, n: nat)
    requires Runs(digest, limit, w, steps, mid) && n < |mid.arrivals|
    ensures Runs(digest, limit, w, steps + [ReadRow(n)], LookUp(mid, mid.arrivals[n]))
  {
    RunsThen(digest, limit, w, steps, mid, ReadRow(n));
  }

  lemma {:induction false} CommitKeepsArrivals(digest: Digest, limit: int, w: World, offer: Offer)
    ensures CommitOffer(digest, limit, w, offer).arrivals == w.arrivals
  {
  }

  lemma {:induction false} ReturnRuns(digest: Digest, limit: int, offer: Offer, start: World, steps: seq<Step>, w: World)
    requires Runs(digest, limit, start, steps, w) && |w.arrivals| == 1
    ensures Runs(digest, limit, start, steps + [Commit(offer)] + [ReadRow(0)],
                 Returned(digest, limit, offer, w))
  {
    CommitKeepsArrivals(digest, limit, w, offer);
    RunsCommit(digest, limit, start, steps, w, offer);
    RunsRead(digest, limit, start, steps + [Commit(offer)], CommitOffer(digest, limit, w, offer), 0);
  }

  lemma {:induction false} ReturnFinds(digest: Digest, limit: int, base: BaseKey, high: int, a: Arrival, w: World)
    requires Injective(digest) && limit >= 3 * KEY_BYTES && Former(digest, base, high, w.tables, w.log)
    requires w.arrivals == [a] && w.lookups == [] && a.base == base && a.request == Sent("x") && a.now < high
    ensures var end := Returned(digest, limit, Third(base, high), w);
      && |end.lookups| == 1 && end.lookups[0].shown == Shown(w) && end.lookups[0].arrived == a.arrived
      && !FindsCurrent(digest, end, end.lookups[0])
  {
    KeysDiffer(digest, base);
    CommitFresh(digest, limit, w, Third(base, high));
    var end := Returned(digest, limit, Third(base, high), w);
    assert end.log[1] == w.log[1] && end.log[0] == w.log[0];
    assert end.log[2].offer == Third(base, high);
    assert A_FIELD != [];
    assert Fetch(digest, end.tables, end.lookups[0]) == Some(Entry(NOTHING, high - 1, high));
  }

  lemma {:induction false} StageFinds(digest: Digest, limit: int, base: BaseKey, shown: seq<int>, arrived: nat, peak: nat,
          w: World)
    requires Injective(digest) && limit >= 3 * KEY_BYTES
    requires arrived < |shown| && peak < |shown| && shown[arrived] < shown[peak]
    requires Stage(digest, base, shown, arrived, peak, |shown| - 1, w)
    ensures |w.arrivals| == 1
    ensures var end := Returned(digest, limit, Third(base, shown[peak]), w);
      && |end.lookups| == 1 && end.lookups[0].shown == shown && end.lookups[0].arrived == arrived
      && !FindsCurrent(digest, end, end.lookups[0])
  {
    assert shown[..|shown|] == shown;
    ReturnFinds(digest, limit, base, shown[peak], w.arrivals[0], w);
  }

  /**
   * A lookup that works with an earlier reading than one shown until it reads its row can be answered by a response
   * from before the policy was changed: the row was dropped, its generations began again, and the entry had not been
   * deleted yet.
   */
  lemma {:induction false} EarlierReadingServesFormer(digest: Digest, limit: int, base: BaseKey, shown: seq<int>,
          arrived: nat, peak: nat) returns (steps: seq<Step>, end: World)
    requires Injective(digest) && limit >= 3 * KEY_BYTES
    requires arrived < |shown| && peak < |shown| && shown[arrived] < shown[peak]
    ensures Runs(digest, limit, Start(shown[0]), steps, end) && |end.lookups| == 1
    ensures end.lookups[0].shown == shown && end.lookups[0].arrived == arrived
    ensures !FindsCurrent(digest, end, end.lookups[0])
  {
    var start, w := StageRuns(digest, limit, base, shown, arrived, peak, |shown| - 1);
    StageFinds(digest, limit, base, shown, arrived, peak, w);
    var offer := Third(base, shown[peak]);
    ReturnRuns(digest, limit, offer, Start(shown[0]), start, w);
    steps, end := start + [Commit(offer)] + [ReadRow(0)], Returned(digest, limit, offer, w);
  }

  /** The clock steps back before the lookup arrives. */
  lemma {:induction false} RollbackServesFormer(digest: Digest, base: BaseKey) returns (steps: seq<Step>, end: World)
    requires Injective(digest)
    ensures Runs(digest, 48, Start(10), steps, end) && |end.lookups| == 1 && end.lookups[0].shown == [10, 9]
    ensures end.lookups[0].now == 9 && !FindsCurrent(digest, end, end.lookups[0])
  {
    steps, end := EarlierReadingServesFormer(digest, 48, base, [10, 9], 1, 0);
    RunsMatched(digest, 48, Start(10), steps, end);
  }

  /** The clock only moves forward, between the lookup's clock reading and its row read. */
  lemma {:induction false} LagServesFormer(digest: Digest, base: BaseKey) returns (steps: seq<Step>, end: World)
    requires Injective(digest)
    ensures Runs(digest, 48, Start(9), steps, end) && |end.lookups| == 1 && end.lookups[0].shown == [9, 10]
    ensures end.lookups[0].now == 9 && !FindsCurrent(digest, end, end.lookups[0])
  {
    steps, end := EarlierReadingServesFormer(digest, 48, base, [9, 10], 0, 1);
    RunsMatched(digest, 48, Start(9), steps, end);
  }

  /** Some lookup of the run arrived at the given one of these readings, shown until it read its row. */
  ghost predicate LookedAt(w: World, look: Lookup, shown: seq<int>, arrived: nat) {
    look in w.lookups && look.shown == shown && look.arrived == arrived
  }

  /** In all runs, lookups with these readings find current responses. */
  ghost predicate AlwaysCurrent(digest: Digest, limit: int, shown: seq<int>, arrived: nat)
    requires arrived < |shown|
  {
    forall steps, end, look :: Runs(digest, limit, Start(shown[0]), steps, end) && LookedAt(end, look, shown, arrived) ==>
      FindsCurrent(digest, end, look)
  }

  lemma {:induction false} LatestReadingIsCurrent(digest: Digest, limit: int, shown: seq<int>, arrived: nat)
    requires Injective(digest) && arrived < |shown| && forall t :: t in shown ==> t <= shown[arrived]
    ensures AlwaysCurrent(digest, limit, shown, arrived)
  {
    forall steps, end, look | Runs(digest, limit, Start(shown[0]), steps, end) && LookedAt(end, look, shown, arrived)
      ensures FindsCurrent(digest, end, look)
    {
      var k :| 0 <= k < |end.lookups| && end.lookups[k] == look;
      RunsMatched(digest, limit, Start(shown[0]), steps, end);
      GetIsCurrent(digest, limit, shown[0], steps, end, k);
      assert look.now == shown[arrived];
    }
  }

  /**
   * The exact condition on the clock: in all runs, a lookup finds current responses if and only if no reading shown
   * until it read its row was later than its own.
   */
  lemma {:induction false} CurrentExactly(digest: Digest, limit: int, shown: seq<int>, arrived: nat)
    requires Injective(digest) && limit >= 3 * KEY_BYTES && arrived < |shown|
    ensures AlwaysCurrent(digest, limit, shown, arrived) <==> forall t :: t in shown ==> t <= shown[arrived]
  {
    if forall t :: t in shown ==> t <= shown[arrived] {
      LatestReadingIsCurrent(digest, limit, shown, arrived);
    } else {
      var peak :| 0 <= peak < |shown| && shown[peak] > shown[arrived];
      var base: BaseKey := "0123456789abcdef";
      var steps, end := EarlierReadingServesFormer(digest, limit, base, shown, arrived, peak);
      var look := end.lookups[0];
      assert LookedAt(end, look, shown, arrived) && !FindsCurrent(digest, end, look);
    }
  }

  /** An uninterrupted lookup is its clock reading and its two reads in a row. */
  lemma {:induction false} FindIsLookAndFetch(digest: Digest, limit: int, w: World, base: BaseKey, request: Headers)
    ensures var asked := Apply(digest, limit, w, Arrive(base, request));
      var after := Apply(digest, limit, asked, ReadRow(|w.arrivals|));
      Find(digest, w.tables, base, request, w.clock)
      == if after.lookups == w.lookups then None else Fetch(digest, w.tables, after.lookups[|w.lookups|])
  {
    var asked := Apply(digest, limit, w, Arrive(base, request));
    var after := Apply(digest, limit, asked, ReadRow(|w.arrivals|));
    assert after != asked ==> |after.lookups| == |w.lookups| + 1;
  }

  /** An accepted, unexpired response is found by every request with the same values for its fields. */
  lemma {:induction false} ReadBack(digest: Digest, limit: int, t: Tables, offer: Offer, request: Headers, now: int)
    requires Write(digest, t, offer, limit).Some? && offer.expiresAt > now
    requires SameValues(offer.request, request, offer.vary)
    ensures Find(digest, Write(digest, t, offer, limit).value, offer.base, request, now)
            == Some(Entry(offer.response, offer.storedAt, offer.expiresAt))
  {
    SameRequestSameText(offer.request, offer.vary, request, offer.vary);
  }
}
