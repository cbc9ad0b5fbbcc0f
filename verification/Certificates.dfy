/** A gateway's certificate files, and the snapshot of them that a replacement gateway restores. */
module Certificates {
  import opened Wrappers
  import opened Ordering
  import opened Digests
  import opened Text
  import KvPaths

  type Files = map<string, string>

  datatype Object = Object(key: string, size: nat, digest: string)

  datatype Manifest = Manifest(gateway: string, objects: seq<Object>)

  // ----- which files belong to a snapshot -----

  predicate SnapshotKey(key: string) {
    var k := Trim(key);
    k != "" && k != "instance.uuid" && k != "last_clean.json" && k != "locks" && !("locks/" <= k)
  }

  function Eligible(files: Files): Files {
    map key | key in files && SnapshotKey(key) :: files[key]
  }

  function Private(files: Files): Files {
    map key | key in files && !SnapshotKey(key) :: files[key]
  }

  /** What is left when a file or a whole directory is removed. */
  function Removed(files: Files, key: string): Files {
    map k | k in files && !KvPaths.AtOrBelow(k, key) :: files[k]
  }

  /** The names that stay on the gateway: its own identity, the time of its last clean-up, and locks. */
  predicate Transient(name: string) {
    name in ["", "instance.uuid", "last_clean.json", "locks"] || (|name| >= 6 && name[..6] == "locks/")
  }

  lemma {:induction false} SnapshotKeyExactly(key: string)
    ensures SnapshotKey(key) <==> !Transient(Trim(key))
  {
    var k := Trim(key);
    assert "locks/" <= k <==> |k| >= 6 && k[..6] == "locks/";
  }

  lemma {:induction false} SamePrivate(before: Files, after: Files)
    ensures Private(before) == Private(after) ==>
              forall key :: Transient(Trim(key)) ==>
                (key in after <==> key in before) && (key in after ==> after[key] == before[key])
  {
    if Private(before) == Private(after) {
      forall key | Transient(Trim(key)) ensures (key in after <==> key in before) && (key in after ==> after[key] == before[key]) {
        SnapshotKeyExactly(key);
        assert key in before <==> key in Private(before);
        assert key in after <==> key in Private(after);
      }
    }
  }

  lemma {:induction false} ListsPersistent(digest: Digest, objects: seq<Object>, local: Files)
    requires Lists(digest, objects, Eligible(local))
    ensures forall key :: (exists item :: item in objects && item.key == key) <==> key in local && !Transient(Trim(key))
    ensures forall item :: item in objects ==>
              item.key in local && item == Object(item.key, |local[item.key]|, digest(local[item.key]))
  {
    forall key ensures (exists item :: item in objects && item.key == key) <==> key in local && !Transient(Trim(key)) {
      SnapshotKeyExactly(key);
      if key in Eligible(local) {
        var i :| 0 <= i < |objects| && objects[i].key == key;
        assert objects[i] in objects;
      }
      if item :| item in objects && item.key == key {
        var i :| 0 <= i < |objects| && objects[i] == item;
      }
    }
  }

  /** Removing a key takes the file of that name and everything in the directory of that name, and nothing else. */
  lemma {:induction false} RemovedExactly(files: Files, key: string, other: string)
    ensures var after := Removed(files, key);
      && (other in after <==> other in files && other != key && key != "" && !(key + "/" <= other))
      && (other in after ==> after[other] == files[other])
  {
  }

  function Describe(digest: Digest, key: string, value: string): Object {
    Object(key, |value|, digest(value))
  }

  /** The objects of the listed files, in order. */
  function Described(digest: Digest, files: Files, keys: seq<string>): seq<Object>
    requires forall key :: key in keys ==> key in files
  {
    if keys == [] then []
    else
      assert forall key :: key in keys[..|keys| - 1] ==> key in keys;
      Described(digest, files, keys[..|keys| - 1]) + [Describe(digest, keys[|keys| - 1], files[keys[|keys| - 1]])]
  }

  /** The manifest of a set of files. */
  ghost function Snapshot(digest: Digest, gateway: string, files: Files): Manifest {
    OrderedContents(files.Keys);
    assert forall key :: key in Ordered(files.Keys) ==> key in Elements(Ordered(files.Keys));
    Manifest(gateway, Described(digest, files, Ordered(files.Keys)))
  }

  lemma {:induction false} DescribedAt(digest: Digest, files: Files, keys: seq<string>)
    requires forall key :: key in keys ==> key in files
    ensures |Described(digest, files, keys)| == |keys|
    ensures forall i :: 0 <= i < |keys| ==> Described(digest, files, keys)[i] == Describe(digest, keys[i], files[keys[i]])
  {
    if keys != [] {
      assert forall key :: key in keys[..|keys| - 1] ==> key in keys;
      DescribedAt(digest, files, keys[..|keys| - 1]);
    }
  }

  /** What a manifest says: its objects are exactly these files, each described by size and digest. */
  ghost predicate Lists(digest: Digest, objects: seq<Object>, files: Files) {
    && (forall i :: 0 <= i < |objects| ==>
          objects[i].key in files && objects[i] == Describe(digest, objects[i].key, files[objects[i].key]))
    && (forall key :: key in files ==> exists i :: 0 <= i < |objects| && objects[i].key == key)
  }

  lemma {:induction false} DescribedLists(digest: Digest, files: Files, keys: seq<string>)
    requires forall key :: key in keys <==> key in files
    ensures Lists(digest, Described(digest, files, keys), files)
  {
    DescribedAt(digest, files, keys);
    var objects := Described(digest, files, keys);
    forall key | key in files ensures exists i :: 0 <= i < |objects| && objects[i].key == key {
      var i :| 0 <= i < |keys| && keys[i] == key;
      assert objects[i].key == key;
    }
  }

  lemma {:induction false} SnapshotLists(digest: Digest, gateway: string, files: Files)
    ensures Lists(digest, Snapshot(digest, gateway, files).objects, files)
  {
    OrderedContents(files.Keys);
    assert forall key :: key in Ordered(files.Keys) <==> key in Elements(Ordered(files.Keys));
    DescribedLists(digest, files, Ordered(files.Keys));
  }

  /** A manifest determines the files it lists. */
  lemma {:induction false} ListsOnce(digest: Digest, objects: seq<Object>, a: Files, b: Files)
    requires Injective(digest) && Lists(digest, objects, a) && Lists(digest, objects, b)
    ensures a == b
  {
    forall key | key in a ensures key in b && a[key] == b[key] {
      var i :| 0 <= i < |objects| && objects[i].key == key;
      assert objects[i] == Describe(digest, key, a[key]) == Describe(digest, key, b[key]);
    }
    forall key | key in b ensures key in a {
      var i :| 0 <= i < |objects| && objects[i].key == key;
    }
  }

  /** Accepting one more verified object extends the restored part. */
  lemma {:induction false} ListsMore(digest: Digest, objects: seq<Object>, item: Object, files: Files, value: string)
    requires Lists(digest, objects, files) && item == Describe(digest, item.key, value)
    requires forall i :: 0 <= i < |objects| ==> objects[i].key != item.key
    ensures Lists(digest, objects + [item], files[item.key := value])
  {
    var after, more := files[item.key := value], objects + [item];
    forall key | key in after ensures exists i :: 0 <= i < |more| && more[i].key == key {
      if key == item.key {
        assert more[|objects|].key == key;
      } else {
        var i :| 0 <= i < |objects| && objects[i].key == key;
        assert more[i].key == key;
      }
    }
  }

  lemma {:induction false} EligibleStored(local: Files, key: string, value: string)
    requires SnapshotKey(key)
    ensures Eligible(local[key := value]) == Eligible(local)[key := value]
    ensures Private(local[key := value]) == Private(local)
  {
  }

  lemma {:induction false} Cleared(local: Files)
    ensures Eligible(Private(local)) == map[] && Private(Private(local)) == Private(local)
  {
  }

  /** A directory lies at the same place in the coordinator's tree as in the local one. */
  lemma {:induction false} NamespaceKeepsTree(k: string, key: string)
    ensures KvPaths.AtOrBelow(Namespaced(k), Namespaced(key)) <==> KvPaths.AtOrBelow(k, key)
  {
    var root := NAMESPACE + "/";
    if k != "" && key != "" {
      assert Namespaced(k)[|root|..] == k && Namespaced(key)[|root|..] == key;
      assert Namespaced(key) + "/" == root + (key + "/");
      if root + (key + "/") <= root + k { assert (root + k)[..|root| + |key| + 1][|root|..] == key + "/"; }
      if key + "/" <= k { assert (root + k)[..|root| + |key| + 1] == root + (key + "/"); }
    } else if k != "" {
      assert NAMESPACE + "/" <= root + k;
    }
  }

  // ----- one gateway's storage -----

  const NAMESPACE := "caddy"

  function Namespaced(key: string): string { if key == "" then NAMESPACE else NAMESPACE + "/" + key }

  /** A request to the coordinator; its failure is ignored. */
  datatype Request = PutObject(key: string, value: string) | DeleteObject(key: string, recursive: bool)

  /** What the coordinator answers to the n-th request of an operation; other gateways write between requests. */
  type Answers = nat -> Option<string>

  /** The n-th object may be restored: an eligible key, listed once, whose answer has the listed size and digest. */
  predicate Acceptable(digest: Digest, objects: seq<Object>, answers: Answers, n: nat) {
    && n < |objects|
    && SnapshotKey(objects[n].key)
    && (forall i :: 0 <= i < n ==> objects[i].key != objects[n].key)
    && answers(n).Some?
    && objects[n] == Describe(digest, objects[n].key, answers(n).value)
  }

  ghost predicate Verified(digest: Digest, objects: seq<Object>, answers: Answers) {
    forall n :: 0 <= n < |objects| ==> Acceptable(digest, objects, answers, n)
  }

  /** Every upload was taken and read back unchanged. */
  ghost predicate Echoed(files: Files, keys: seq<string>, put: nat -> bool, echo: Answers) {
    forall n :: 0 <= n < |keys| ==> put(n) && keys[n] in files && echo(n) == Some(files[keys[n]])
  }

  /** Uploads the files one by one, reading each back, and describes them. */
  method Upload(digest: Digest, files: Files, keys: seq<string>, put: nat -> bool, echo: Answers)
    returns (objects: Option<seq<Object>>)
    requires forall key :: key in keys ==> key in files
    ensures objects.Some? <==> Echoed(files, keys, put, echo)
    ensures objects.Some? ==> objects.value == Described(digest, files, keys)
  {
    var described: seq<Object> := [];
    for n := 0 to |keys|
      invariant described == Described(digest, files, keys[..n])
      invariant forall i :: 0 <= i < n ==> put(i) && echo(i) == Some(files[keys[i]])
    {
      assert keys[..n + 1][..n] == keys[..n];
      var value := files[keys[n]];
      if !put(n) || echo(n) != Some(value) { return None; }
      described := described + [Describe(digest, keys[n], value)];
    }
    assert keys[..|keys|] == keys;
    objects := Some(described);
  }

  function KeysOf(objects: seq<Object>): set<string> { set item | item in objects :: item.key }

  method CheckObject(digest: Digest, objects: seq<Object>, answers: Answers, n: nat, seen: set<string>)
    returns (value: Option<string>)
    requires n < |objects| && seen == KeysOf(objects[..n])
    ensures value == if Acceptable(digest, objects, answers, n) then answers(n) else None
  {
    var item := objects[n];
    assert forall i :: 0 <= i < n ==> objects[..n][i] == objects[i];
    if !SnapshotKey(item.key) || item.key in seen { return None; }
    if answers(n).None? { return None; }
    var found := answers(n).value;
    if |found| != item.size || digest(found) != item.digest { return None; }
    value := Some(found);
  }

  class Storage {
    const digest: Digest
    const gateway: string
    var local: Files
    var quiesced: bool

    constructor (digest: Digest, gateway: string)
      ensures this.digest == digest && this.gateway == gateway && local == map[] && !quiesced
    {
      this.digest, this.gateway, local, quiesced := digest, gateway, map[], false;
    }

    /** None when the storage refuses; otherwise the upload that follows the local write. */
    method Store(key: string, value: string) returns (sent: Option<Request>)
      modifies this`local
      ensures sent == if quiesced then None else Some(PutObject(Namespaced(key), value))
      ensures local == if quiesced then old(local) else old(local)[key := value]
    {
      if quiesced { return None; }
      local := local[key := value];
      sent := Some(PutObject(Namespaced(key), value));
    }

    /** A remote copy is kept locally unless the storage is quiesced. */
    method Load(key: string, remote: Option<string>) returns (value: Option<string>)
      modifies this`local
      ensures value == if key in old(local) then Some(old(local)[key]) else remote
      ensures local == if key !in old(local) && remote.Some? && !quiesced then old(local)[key := remote.value] else old(local)
    {
      if key in local { return Some(local[key]); }
      if remote.None? { return None; }
      if !quiesced { local := local[key := remote.value]; }
      value := remote;
    }

    /** Removes a file or a directory with all below it, here and then at the coordinator. */
    method Delete(key: string) returns (sent: Option<Request>)
      modifies this`local
      ensures sent == if quiesced then None else Some(DeleteObject(Namespaced(key), true))
      ensures local == if quiesced then old(local) else Removed(old(local), key)
    {
      if quiesced { return None; }
      local := Removed(local, key);
      sent := Some(DeleteObject(Namespaced(key), true));
    }

    /**
     * Uploads every eligible file and reads it back, then uploads the manifest and reads that back. `put` says which
     * uploads the coordinator takes, `echo` what it answers, `sealed` whether the manifest came back unchanged.
     */
    method Push(put: nat -> bool, echo: Answers, sealed: bool) returns (result: Option<Manifest>)
      modifies this`quiesced
      ensures result.Some? ==> quiesced && result.value == Snapshot(digest, gateway, Eligible(local))
      ensures result.None? ==> quiesced == old(quiesced)
      ensures result.Some? <==> sealed && Echoed(Eligible(local), Ordered(Eligible(local).Keys), put, echo)
      ensures result.Some? ==> forall key :: (exists item :: item in result.value.objects && item.key == key) <==>
                                             key in local && !Transient(Trim(key))
      ensures result.Some? ==> forall item :: item in result.value.objects ==>
                                 item.key in local && item == Object(item.key, |local[item.key]|, digest(local[item.key]))
    {
      var files := Eligible(local);
      var keys := SortIds(files.Keys);
      OrderedContents(files.Keys);
      assert forall key :: key in keys ==> key in Elements(keys);
      var objects := Upload(digest, files, keys, put, echo);
      if objects.None? || !sealed { return None; }
      quiesced := true;
      result := Some(Manifest(gateway, objects.value));
      SnapshotLists(digest, gateway, files);
      ListsPersistent(digest, result.value.objects, local);
    }

    /** Replaces the eligible files by the manifest's objects; a failure may leave a part of them. */
    method Restore(manifest: Manifest, answers: Answers) returns (ok: bool)
      modifies this`local
      ensures Private(local) == Private(old(local))
      ensures ok <==> manifest.gateway == gateway && Verified(digest, manifest.objects, answers)
      ensures ok ==> Lists(digest, manifest.objects, Eligible(local))
      ensures manifest.gateway != gateway ==> !ok && local == old(local)
      ensures forall key :: Transient(Trim(key)) ==>
                (key in local <==> key in old(local)) && (key in local ==> local[key] == old(local)[key])
      ensures ok ==> forall key :: key in local && !Transient(Trim(key)) <==>
                                   exists item :: item in manifest.objects && item.key == key
    {
      if manifest.gateway != gateway { return false; }
      Cleared(local);
      local := Private(local);
      ok := RestoreObjects(manifest.objects, answers);
      SamePrivate(old(local), local);
      if ok { ListsPersistent(digest, manifest.objects, local); }
    }

    method RestoreObjects(objects: seq<Object>, answers: Answers) returns (ok: bool)
      requires Eligible(local) == map[]
      modifies this`local
      ensures Private(local) == Private(old(local))
      ensures ok <==> Verified(digest, objects, answers)
      ensures ok ==> Lists(digest, objects, Eligible(local))
    {
      var seen: set<string> := {};
      for n := 0 to |objects|
        invariant Private(local) == Private(old(local))
        invariant Restoring(digest, objects, answers, n, seen, local)
      {
        var value := CheckObject(digest, objects, answers, n, seen);
        if value.None? { return false; }
        RestoreNext(digest, objects, answers, n, seen, local);
        seen := seen + {objects[n].key};
        local := local[objects[n].key := value.value];
      }
      assert objects[..|objects|] == objects;
      ok := true;
    }
  }

  /** The first n objects were acceptable and are exactly the eligible files. */
  ghost predicate Restoring(digest: Digest, objects: seq<Object>, answers: Answers, n: nat, seen: set<string>,
          local: Files) {
    && n <= |objects| && seen == KeysOf(objects[..n])
    && Lists(digest, objects[..n], Eligible(local))
    && forall i :: 0 <= i < n ==> Acceptable(digest, objects, answers, i)
  }

  lemma {:induction false} RestoreNext(digest: Digest, objects: seq<Object>, answers: Answers, n: nat,
          seen: set<string>, local: Files)
    requires Restoring(digest, objects, answers, n, seen, local) && n < |objects| && Acceptable(digest, objects, answers, n)
    ensures var after := local[objects[n].key := answers(n).value];
      && Restoring(digest, objects, answers, n + 1, seen + {objects[n].key}, after)
      && Private(after) == Private(local)
  {
    var item, value := objects[n], answers(n).value;
    assert objects[..n + 1] == objects[..n] + [item];
    KeysOfSnoc(objects[..n], item);
    ListsMore(digest, objects[..n], item, Eligible(local), value);
    EligibleStored(local, item.key, value);
  }

  lemma {:induction false} KeysOfSnoc(objects: seq<Object>, item: Object)
    ensures KeysOf(objects + [item]) == KeysOf(objects) + {item.key}
  {
  }

  /** Whatever the coordinator answered, files that match a pushed manifest are the pushed files. */
  lemma {:induction false} RestoreReproducesPush(digest: Digest, gateway: string, source: Files, local: Files)
    requires Injective(digest)
    requires Lists(digest, Snapshot(digest, gateway, Eligible(source)).objects, Eligible(local))
    ensures Eligible(local) == Eligible(source)
  {
    SnapshotLists(digest, gateway, Eligible(source));
    ListsOnce(digest, Snapshot(digest, gateway, Eligible(source)).objects, Eligible(source), Eligible(local));
  }

  /** If the coordinator still has the pushed files, every object of the manifest is restored. */
  lemma {:induction false} PushedIsVerified(digest: Digest, gateway: string, files: Files, answers: Answers)
    requires Eligible(files) == files
    requires var objects := Snapshot(digest, gateway, files).objects;
      forall n :: 0 <= n < |objects| && objects[n].key in files ==> answers(n) == Some(files[objects[n].key])
    ensures Verified(digest, Snapshot(digest, gateway, files).objects, answers)
  {
    var keys, objects := Ordered(files.Keys), Snapshot(digest, gateway, files).objects;
    OrderedContents(files.Keys);
    OrderedIsSorted(files.Keys);
    forall key | key in keys ensures key in files { assert key in Elements(keys); }
    DescribedAt(digest, files, keys);
    forall n | 0 <= n < |objects| ensures Acceptable(digest, objects, answers, n) {
      assert objects[n] == Describe(digest, keys[n], files[keys[n]]) && keys[n] in keys && keys[n] in Eligible(files);
      forall i | 0 <= i < n ensures objects[i].key != objects[n].key {
        assert objects[i] == Describe(digest, keys[i], files[keys[i]]) && Before(keys[i], keys[n]);
        BeforeIrreflexive(keys[n]);
      }
    }
  }
}
