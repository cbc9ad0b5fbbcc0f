/** The response cache's tables and the transactions that change them. */
module CacheTables {
  import opened Wrappers
  import opened Ordering
  import opened Digests
  import opened Fingerprint

  const KEY_BYTES: nat := 16

  datatype Response = Response(status: nat, headers: string, body: string)

  datatype Resource = Resource(vary: seq<string>, generation: nat, expiresAt: int)

  datatype Entry = Entry(response: Response, storedAt: int, expiresAt: int)

  datatype Access = Access(accessedAt: int, size: nat)

  /** The three tables and the usage row. */
  datatype Tables = Tables(
    resources: map<BaseKey, Resource>,
    entries: map<string, Entry>,
    access: map<string, Access>,
    totalBytes: int,
    entryCount: int)

  const EMPTY := Tables(map[], map[], map[], 0, 0)

  /** One response offered to the cache, with the request that produced it. */
  datatype Offer = Offer(base: BaseKey, vary: seq<string>, request: Headers, response: Response, storedAt: int, expiresAt: int)

  function EntryKey(digest: Digest, base: BaseKey, generation: nat, request: Headers, vary: seq<string>): string {
    digest(EntryText(base, generation, request, vary))
  }

  function EntrySize(response: Response): nat {
    KEY_BYTES + |response.headers| + |response.body|
  }

  predicate ExceedsCapacity(current: int, candidate: int, limit: int) {
    current >= limit || candidate > limit - current
  }

  // ----- a write transaction -----

  function UpdatedResource(resources: map<BaseKey, Resource>, offer: Offer): Resource {
    if offer.base !in resources then Resource(offer.vary, 1, offer.expiresAt)
    else
      var row := resources[offer.base];
      Resource(offer.vary,
               row.generation + (if row.vary == offer.vary then 0 else 1),
               Max(row.expiresAt, offer.expiresAt))
  }

  function OfferKey(digest: Digest, t: Tables, offer: Offer): string {
    EntryKey(digest, offer.base, UpdatedResource(t.resources, offer).generation, offer.request, offer.vary)
  }

  function FormerSize(t: Tables, key: string): nat {
    if key in t.access then t.access[key].size else 0
  }

  /** None when the transaction is rolled back for want of room. */
  function Write(digest: Digest, t: Tables, offer: Offer, limit: int): Option<Tables> {
    var key, size := OfferKey(digest, t, offer), EntrySize(offer.response);
    var projected := t.totalBytes - FormerSize(t, key) + size;
    if projected > limit && size > FormerSize(t, key) then None
    else Some(Tables(
      t.resources[offer.base := UpdatedResource(t.resources, offer)],
      t.entries[key := Entry(offer.response, offer.storedAt, offer.expiresAt)],
      t.access[key := Access(offer.storedAt, size)],
      projected,
      t.entryCount + if key in t.access then 0 else 1))
  }

  /** The response for a request, if its resource row and its entry are both unexpired. */
  function Find(digest: Digest, t: Tables, base: BaseKey, request: Headers, now: int): Option<Entry> {
    if base !in t.resources || t.resources[base].expiresAt <= now then None
    else
      var row := t.resources[base];
      var key := EntryKey(digest, base, row.generation, request, row.vary);
      if key in t.entries && t.entries[key].expiresAt > now then Some(t.entries[key]) else None
  }

  // ----- removal and touches -----

  /** Bytes charged to a set of entries. */
  ghost function Bytes(access: map<string, Access>, keys: set<string>): nat
    requires keys <= access.Keys
  {
    if keys == {} then 0 else
      var key :| key in keys;
      access[key].size + Bytes(access, keys - {key})
  }

  /** Deletes a batch of selected entries; the usage row is clamped at zero. */
  function Remove(t: Tables, keys: set<string>, bytes: nat): Tables {
    t.(entries := t.entries - keys,
       access := t.access - keys,
       totalBytes := Max(0, t.totalBytes - bytes),
       entryCount := Max(0, t.entryCount - |keys|))
  }

  function DropResources(t: Tables, bases: set<BaseKey>): Tables {
    t.(resources := t.resources - bases)
  }

  function Touch(t: Tables, keys: set<string>, now: int, window: int): Tables {
    t.(access := map key | key in t.access ::
                   if key in keys && t.access[key].accessedAt < now - window then t.access[key].(accessedAt := now)
                   else t.access[key])
  }

  // ----- accounting -----

  ghost predicate Accounted(t: Tables) {
    && t.entries.Keys == t.access.Keys
    && t.totalBytes == Bytes(t.access, t.access.Keys)
    && t.entryCount == |t.access|
  }

  lemma {:induction false} BytesOf(access: map<string, Access>, keys: set<string>, key: string)
    requires keys <= access.Keys && key in keys
    ensures Bytes(access, keys) == access[key].size + Bytes(access, keys - {key})
  {
    var first :| first in keys && Bytes(access, keys) == access[first].size + Bytes(access, keys - {first});
    if first != key {
      BytesOf(access, keys - {first}, key);
      BytesOf(access, keys - {key}, first);
      assert keys - {first} - {key} == keys - {key} - {first};
    }
  }

  lemma {:induction false} BytesAgree(a: map<string, Access>, b: map<string, Access>, keys: set<string>)
    requires keys <= a.Keys && keys <= b.Keys
    requires forall key :: key in keys ==> a[key].size == b[key].size
    ensures Bytes(a, keys) == Bytes(b, keys)
  {
    if keys != {} {
      var key :| key in keys;
      BytesOf(a, keys, key);
      BytesOf(b, keys, key);
      BytesAgree(a, b, keys - {key});
    }
  }

  lemma {:induction false} BytesUnion(access: map<string, Access>, a: set<string>, b: set<string>)
    requires a <= access.Keys && b <= access.Keys && a !! b
    ensures Bytes(access, a + b) == Bytes(access, a) + Bytes(access, b)
  {
    if a == {} {
      assert a + b == b;
    } else {
      var key :| key in a;
      BytesOf(access, a, key);
      BytesOf(access, a + b, key);
      assert a + b - {key} == (a - {key}) + b;
      BytesUnion(access, a - {key}, b);
    }
  }

  lemma {:induction false} ChargedUpdate(access: map<string, Access>, key: string, row: Access)
    ensures var after := access[key := row];
      && Bytes(after, after.Keys) == Bytes(access, access.Keys) + row.size - (if key in access then access[key].size else 0)
      && |after| == |access| + (if key in access then 0 else 1)
  {
    var after := access[key := row];
    var others := access.Keys - {key};
    assert after.Keys - {key} == others;
    BytesOf(after, after.Keys, key);
    BytesAgree(access, after, others);
    if key in access {
      BytesOf(access, access.Keys, key);
      assert after.Keys == access.Keys;
    } else {
      assert others == access.Keys && after.Keys == access.Keys + {key};
    }
    assert |after| == |after.Keys| && |access| == |access.Keys|;
  }

  lemma {:induction false} ChargedRemoval(access: map<string, Access>, keys: set<string>)
    requires keys <= access.Keys
    ensures var after := access - keys;
      Bytes(after, after.Keys) + Bytes(access, keys) == Bytes(access, access.Keys) && |after| + |keys| == |access|
  {
    var after := access - keys;
    var rest := access.Keys - keys;
    assert after.Keys == rest && access.Keys == keys + rest;
    BytesUnion(access, keys, rest);
    BytesAgree(access, after, rest);
    assert |access| == |access.Keys| && |after| == |after.Keys|;
  }

  /**
   * A write is rolled back exactly if it grows its entry and would lift usage above the limit. Otherwise its entry is
   * charged by its size in place of what was under its key; the resource row takes its field list, keeps its generation
   * exactly if the list is the same, and expires no earlier than before.
   */
  lemma {:induction false} WriteExactly(digest: Digest, t: Tables, offer: Offer, limit: int)
    ensures var key, w := OfferKey(digest, t, offer), Write(digest, t, offer, limit);
      var size := 16 + |offer.response.headers| + |offer.response.body|;
      var former := if key in t.access then t.access[key].size else 0;
      && (w.None? <==> size > former && t.totalBytes - former + size > limit)
      && (w.Some? ==>
            && w.value.totalBytes == t.totalBytes - former + size
            && w.value.entryCount == t.entryCount + (if key in t.access then 0 else 1)
            && w.value.entries == t.entries[key := Entry(offer.response, offer.storedAt, offer.expiresAt)]
            && w.value.access == t.access[key := Access(offer.storedAt, size)]
            && offer.base in w.value.resources
            && w.value.resources == t.resources[offer.base := w.value.resources[offer.base]]
            && var row := w.value.resources[offer.base];
               && row.vary == offer.vary && row.expiresAt >= offer.expiresAt
               && (offer.base !in t.resources ==> row.generation == 1 && row.expiresAt == offer.expiresAt)
               && (offer.base in t.resources ==>
                     var former := t.resources[offer.base];
                     && row.expiresAt >= former.expiresAt && (row.expiresAt == former.expiresAt || row.expiresAt == offer.expiresAt)
                     && row.generation == (if former.vary == offer.vary then former.generation else former.generation + 1)))
  {
  }

  /** A write keeps the accounts, and never lifts usage above the limit or its previous value. */
  lemma {:induction false} WriteAccounted(digest: Digest, t: Tables, offer: Offer, limit: int)
    requires Accounted(t)
    ensures var w := Write(digest, t, offer, limit);
      w.Some? ==> Accounted(w.value) && w.value.totalBytes <= Max(t.totalBytes, limit)
  {
    var key := OfferKey(digest, t, offer);
    var row := Access(offer.storedAt, EntrySize(offer.response));
    ChargedUpdate(t.access, key, row);
    var entry := Entry(offer.response, offer.storedAt, offer.expiresAt);
    assert t.entries[key := entry].Keys == t.access[key := row].Keys;
  }

  lemma {:induction false} SameKeysRemoved(entries: map<string, Entry>, access: map<string, Access>, keys: set<string>)
    requires entries.Keys == access.Keys
    ensures (entries - keys).Keys == (access - keys).Keys
  {
    assert (entries - keys).Keys == entries.Keys - keys;
    assert (access - keys).Keys == access.Keys - keys;
  }

  /** Removing selected entries keeps the accounts, and neither clamp fires. */
  lemma {:induction false} RemoveAccounted(t: Tables, keys: set<string>)
    requires Accounted(t) && keys <= t.access.Keys
    ensures var bytes := Bytes(t.access, keys);
      && Accounted(Remove(t, keys, bytes))
      && Remove(t, keys, bytes).totalBytes == t.totalBytes - bytes
      && Remove(t, keys, bytes).entryCount == t.entryCount - |keys|
  {
    var bytes := Bytes(t.access, keys);
    var after := Remove(t, keys, bytes);
    ChargedRemoval(t.access, keys);
    assert after.access == t.access - keys;
    SameKeysRemoved(t.entries, t.access, keys);
    assert after.totalBytes == t.totalBytes - bytes;
  }

  /** A queued hit on an entry accessed longer ago than the window is accessed now; nothing else changes. */
  lemma {:induction false} TouchExactly(t: Tables, keys: set<string>, now: int, window: int)
    ensures var after := Touch(t, keys, now, window);
      && after == t.(access := after.access) && after.access.Keys == t.access.Keys
      && forall key :: key in t.access ==>
           && after.access[key].size == t.access[key].size
           && (key in keys && now - t.access[key].accessedAt > window ==> after.access[key].accessedAt == now)
           && (key !in keys || now - t.access[key].accessedAt <= window ==> after.access[key] == t.access[key])
  {
  }

  lemma {:induction false} TouchAccounted(t: Tables, keys: set<string>, now: int, window: int)
    requires Accounted(t)
    ensures Accounted(Touch(t, keys, now, window))
  {
    var after := Touch(t, keys, now, window);
    assert after.access.Keys == t.access.Keys;
    BytesAgree(t.access, after.access, t.access.Keys);
    assert |t.access| == |t.access.Keys| && |after.access| == |after.access.Keys|;
  }
}
