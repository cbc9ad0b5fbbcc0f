/** Gateways pushing, restoring and writing certificates through one shared remote store, in any interleaving. */
module HandoffRuns {
  import opened Wrappers
  import opened Ordering
  import opened Digests
  import opened Certificates
  import opened Text

  /** A manifest, with the files its push had before it. */
  datatype Record = Record(manifest: Manifest, origin: Files)

  /** What the holder of a gateway's data lock is doing. */
  datatype Phase =
    | Idle
    | Pushing(done: nat, sent: bool)
    | Sealing
    | Restoring(record: Record, restored: nat)

  /** `waiting` holds the manifests that restore requests have read before taking the lock. */
  datatype Gateway = Gateway(id: string, local: Files, quiesced: bool, phase: Phase, waiting: set<Record>)

  /** Certificate objects and manifests live in disjoint namespaces; manifests are kept by gateway id. */
  datatype Remote = Remote(objects: Files, manifests: map<string, Record>)

  datatype World = World(gateways: map<string, Gateway>, remote: Remote)

  datatype Step =
    | Store(g: string, key: string, value: string, reaches: bool)
    | Load(g: string, key: string)
    | Delete(g: string, key: string, reaches: bool)
    | BeginPush(g: string)
    | SendObject(g: string)
    | EchoObject(g: string)
    | SendManifest(g: string)
    | EchoManifest(g: string)
    | Abandon(g: string)
    | ReadManifest(g: string)
    | BeginRestore(g: string, record: Record)
    | RestoreObject(g: string)
    | EndRestore(g: string)
    | Resume(g: string)
    | Foreign(g: string, key: string, change: Option<string>)

  ghost function PushKeys(gw: Gateway): seq<string> { Ordered(Eligible(gw.local).Keys) }

  ghost predicate Enabled(w: World, step: Step) {
    step.Foreign? || (step.g in w.gateways &&
      var gw := w.gateways[step.g];
      match step
      case Store(_, _, _, _) => gw.phase.Idle?
      case Load(_, _) => gw.phase.Idle?
      case Delete(_, _, _) => gw.phase.Idle?
      case BeginPush(_) => gw.phase.Idle?
      case SendObject(_) => gw.phase.Pushing? && !gw.phase.sent && gw.phase.done < |PushKeys(gw)|
      case EchoObject(_) => gw.phase.Pushing? && gw.phase.sent && gw.phase.done < |PushKeys(gw)|
      case SendManifest(_) => gw.phase.Pushing? && !gw.phase.sent && gw.phase.done == |PushKeys(gw)|
      case EchoManifest(_) => gw.phase.Sealing?
      case ReadManifest(_) => gw.id in w.remote.manifests
      case BeginRestore(_, record) => gw.phase.Idle? && record in gw.waiting
      case RestoreObject(_) => gw.phase.Restoring? && gw.phase.restored < |gw.phase.record.manifest.objects|
      case EndRestore(_) => gw.phase.Restoring? && gw.phase.restored == |gw.phase.record.manifest.objects|
      case _ => true)
  }

  function Loaded(gw: Gateway, remote: Remote, key: string): Gateway {
    if key !in gw.local && key in remote.objects && !gw.quiesced then gw.(local := gw.local[key := remote.objects[key]])
    else gw
  }

  ghost function Echoed(gw: Gateway, remote: Remote): Gateway
    requires gw.phase.Pushing? && gw.phase.done < |PushKeys(gw)|
  {
    var key := PushKeys(gw)[gw.phase.done];
    if key in gw.local && key in remote.objects && remote.objects[key] == gw.local[key]
    then gw.(phase := Pushing(gw.phase.done + 1, false))
    else gw.(phase := Idle)
  }

  ghost function Sealed(digest: Digest, gw: Gateway, remote: Remote): Gateway {
    if gw.id in remote.manifests && remote.manifests[gw.id].manifest == Snapshot(digest, gw.id, Eligible(gw.local))
    then gw.(phase := Idle, quiesced := true)
    else gw.(phase := Idle)
  }

  function RestoredOne(digest: Digest, gw: Gateway, remote: Remote): Gateway
    requires gw.phase.Restoring? && gw.phase.restored < |gw.phase.record.manifest.objects|
  {
    var objects, n := gw.phase.record.manifest.objects, gw.phase.restored;
    var item := objects[n];
    if SnapshotKey(item.key) && item.key !in KeysOf(objects[..n]) && item.key in remote.objects
       && item == Describe(digest, item.key, remote.objects[item.key])
    then gw.(local := gw.local[item.key := remote.objects[item.key]], phase := Restoring(gw.phase.record, n + 1))
    else gw.(phase := Idle)
  }

  /** How a step changes its own gateway. */
  ghost function Moved(digest: Digest, w: World, step: Step): Gateway
    requires Enabled(w, step) && step.g in w.gateways
  {
    var gw := w.gateways[step.g];
    match step
    case Store(_, key, value, _) => if gw.quiesced then gw else gw.(local := gw.local[key := value])
    case Load(_, key) => Loaded(gw, w.remote, key)
    case Delete(_, key, _) => if gw.quiesced then gw else gw.(local := Removed(gw.local, key))
    case BeginPush(_) => gw.(phase := Pushing(0, false))
    case SendObject(_) => gw.(phase := gw.phase.(sent := true))
    case EchoObject(_) => Echoed(gw, w.remote)
    case SendManifest(_) => gw.(phase := Sealing)
    case EchoManifest(_) => Sealed(digest, gw, w.remote)
    case Abandon(_) => gw.(phase := Idle)
    case ReadManifest(_) => gw.(waiting := gw.waiting + {w.remote.manifests[gw.id]})
    case BeginRestore(_, record) => gw.(local := Private(gw.local), phase := Restoring(record, 0))
    case RestoreObject(_) => RestoredOne(digest, gw, w.remote)
    case EndRestore(_) => gw.(phase := Idle)
    case Resume(_) => gw.(quiesced := false)
    case Foreign(_, _, _) => gw
  }

  /** How a step changes the remote store; an upload that fails to reach it changes nothing. */
  ghost function Published(digest: Digest, w: World, step: Step): Remote
    requires Enabled(w, step)
  {
    var remote := w.remote;
    match step
    case Store(g, key, value, reaches) =>
      if reaches && !w.gateways[g].quiesced then remote.(objects := remote.objects[key := value]) else remote
    case Delete(g, key, reaches) =>
      if reaches && !w.gateways[g].quiesced then remote.(objects := Removed(remote.objects, key)) else remote
    case SendObject(g) =>
      var gw := w.gateways[g];
      var key := PushKeys(gw)[gw.phase.done];
      if key in gw.local then remote.(objects := remote.objects[key := gw.local[key]]) else remote
    case SendManifest(g) =>
      var gw := w.gateways[g];
      var files := Eligible(gw.local);
      remote.(manifests := remote.manifests[gw.id := Record(Snapshot(digest, gw.id, files), files)])
    case Foreign(_, key, change) =>
      remote.(objects := if change.Some? then remote.objects[key := change.value] else remote.objects - {key})
    case _ => remote
  }

  ghost function Apply(digest: Digest, w: World, step: Step): World
    requires Enabled(w, step)
  {
    World(if step.g in w.gateways then w.gateways[step.g := Moved(digest, w, step)] else w.gateways,
          Published(digest, w, step))
  }

  ghost predicate Runs(digest: Digest, w: World, steps: seq<Step>, end: World)
    decreases |steps|
  {
    if steps == [] then end == w
    else Enabled(w, steps[0]) && Runs(digest, Apply(digest, w, steps[0]), steps[1..], end)
  }

  ghost predicate Initial(w: World) {
    w.remote.manifests == map[] && forall g :: g in w.gateways ==> w.gateways[g].phase.Idle? && w.gateways[g].waiting == {}
  }

  // ----- a restore ends with the pushed files -----

  ghost predicate Faithful(digest: Digest, id: string, record: Record) {
    record.manifest == Snapshot(digest, id, record.origin)
  }

  ghost predicate GatewaySound(digest: Digest, gw: Gateway) {
    && (forall record :: record in gw.waiting ==> Faithful(digest, gw.id, record))
    && (gw.phase.Restoring? ==>
          && Faithful(digest, gw.id, gw.phase.record)
          && gw.phase.restored <= |gw.phase.record.manifest.objects|
          && Lists(digest, gw.phase.record.manifest.objects[..gw.phase.restored], Eligible(gw.local)))
  }

  ghost predicate Sound(digest: Digest, w: World) {
    && (forall id :: id in w.remote.manifests ==> Faithful(digest, id, w.remote.manifests[id]))
    && (forall g :: g in w.gateways ==> GatewaySound(digest, w.gateways[g]))
  }

  lemma {:induction false} RestoredFurther(digest: Digest, objects: seq<Object>, n: nat, local: Files, value: string)
    requires n < |objects| && Lists(digest, objects[..n], Eligible(local))
    requires SnapshotKey(objects[n].key) && objects[n].key !in KeysOf(objects[..n])
    requires objects[n] == Describe(digest, objects[n].key, value)
    ensures Lists(digest, objects[..n + 1], Eligible(local[objects[n].key := value]))
  {
    assert forall i :: 0 <= i < n ==> objects[..n][i].key in KeysOf(objects[..n]);
    ListsMore(digest, objects[..n], objects[n], Eligible(local), value);
    EligibleStored(local, objects[n].key, value);
    assert objects[..n + 1] == objects[..n] + [objects[n]];
  }

  lemma {:induction false} RestoredOneSound(digest: Digest, gw: Gateway, remote: Remote)
    requires GatewaySound(digest, gw) && gw.phase.Restoring? && gw.phase.restored < |gw.phase.record.manifest.objects|
    ensures GatewaySound(digest, RestoredOne(digest, gw, remote))
  {
    var objects, n := gw.phase.record.manifest.objects, gw.phase.restored;
    if RestoredOne(digest, gw, remote).phase.Restoring? {
      RestoredFurther(digest, objects, n, gw.local, remote.objects[objects[n].key]);
    }
  }

  lemma {:induction false} MovedSound(digest: Digest, w: World, step: Step)
    requires Sound(digest, w) && Enabled(w, step) && step.g in w.gateways
    ensures GatewaySound(digest, Moved(digest, w, step)) && Moved(digest, w, step).id == w.gateways[step.g].id
  {
    var gw := w.gateways[step.g];
    assert GatewaySound(digest, gw);
    match step
    case RestoreObject(_) => RestoredOneSound(digest, gw, w.remote);
    case BeginRestore(_, record) =>
      Cleared(gw.local);
      assert record.manifest.objects[..0] == [];
    case _ =>
  }

  lemma {:induction false} ApplySound(digest: Digest, w: World, step: Step)
    requires Sound(digest, w) && Enabled(w, step)
    ensures Sound(digest, Apply(digest, w, step))
  {
    if step.g in w.gateways { MovedSound(digest, w, step); }
  }

  lemma {:induction false} RunsSound(digest: Digest, w: World, steps: seq<Step>, end: World)
    requires Sound(digest, w) && Runs(digest, w, steps, end)
    ensures Sound(digest, end)
    decreases |steps|
  {
    if steps != [] {
      ApplySound(digest, w, steps[0]);
      RunsSound(digest, Apply(digest, w, steps[0]), steps[1..], end);
    }
  }

  /** In every run, a restore that ends has exactly the files of the push that wrote its manifest. */
  lemma {:induction false} RestoreIsExact(digest: Digest, w: World, steps: seq<Step>, end: World, g: string)
    requires Injective(digest) && Initial(w) && Runs(digest, w, steps, end)
    requires g in end.gateways && Enabled(end, EndRestore(g))
    ensures Eligible(end.gateways[g].local) == end.gateways[g].phase.record.origin
  {
    RunsSound(digest, w, steps, end);
    RestoredExactly(digest, end.gateways[g]);
  }

  // ----- a quiesced source -----

  ghost predicate Frozen(w: World, g: string, local: Files) {
    g in w.gateways && w.gateways[g].quiesced && !w.gateways[g].phase.Restoring? && w.gateways[g].local == local
  }

  predicate Unfreezes(step: Step, g: string) {
    step.g == g && (step.Resume? || step.BeginRestore?)
  }

  lemma {:induction false} ApplyFrozen(digest: Digest, w: World, step: Step, g: string, local: Files)
    requires Frozen(w, g, local) && Enabled(w, step) && !Unfreezes(step, g)
    ensures Frozen(Apply(digest, w, step), g, local)
  {
  }

  /** After a successful push, until a resume or a restore on the same storage, nothing changes the local files. */
  lemma {:induction false} QuiescedStays(digest: Digest, w: World, steps: seq<Step>, end: World, g: string,
          local: Files)
    requires Frozen(w, g, local) && Runs(digest, w, steps, end)
    requires forall i :: 0 <= i < |steps| ==> !Unfreezes(steps[i], g)
    ensures Frozen(end, g, local)
    decreases |steps|
  {
    if steps != [] {
      ApplyFrozen(digest, w, steps[0], g, local);
      QuiescedStays(digest, Apply(digest, w, steps[0]), steps[1..], end, g, local);
    }
  }

  /** A restore does not look at the quiesced flag: it drops the files of a quiesced source whenever there are any. */
  lemma {:induction false} RestoreIgnoresQuiesce(digest: Digest, w: World, g: string, record: Record)
    requires g in w.gateways && w.gateways[g].quiesced && Enabled(w, BeginRestore(g, record))
    ensures Apply(digest, w, BeginRestore(g, record)).gateways[g].local == w.gateways[g].local
            <==> Eligible(w.gateways[g].local) == map[]
  {
    var local := w.gateways[g].local;
    if Eligible(local) == map[] {
      forall key | key in local ensures key in Private(local) {
        assert SnapshotKey(key) ==> key in Eligible(local);
      }
      assert Private(local) == local;
    } else {
      assert exists key :: key in Eligible(local);
      var key :| key in Eligible(local);
      assert key in local && key !in Private(local);
    }
  }

  // A gateway with one certificate pushes it, reads its own manifest and restores from it.

  function OneFile(): Files { map["cert" := "pem"] }

  function Single(remote: Remote, phase: Phase, quiesced: bool, waiting: set<Record>): World {
    World(map["g" := Gateway("id", OneFile(), quiesced, phase, waiting)], remote)
  }

  ghost function OneRecord(digest: Digest): Record { Record(Snapshot(digest, "id", OneFile()), OneFile()) }

  function BareRemote(): Remote { Remote(OneFile(), map[]) }

  ghost function SealedRemote(digest: Digest): Remote { Remote(OneFile(), map["id" := OneRecord(digest)]) }

  lemma {:induction false} OneFileKeys()
    ensures Eligible(OneFile()) == OneFile() && Private(OneFile()) == map[]
    ensures Ordered(OneFile().Keys) == ["cert"]
  {
    assert Trim("cert") == "cert";
    assert SnapshotKey("cert");
    OrderedContents({"cert"});
    var keys := Ordered({"cert"});
    assert forall key :: key in keys <==> key in Elements(keys);
    assert OneFile().Keys == {"cert"};
  }

  lemma {:induction false} RunsStep(digest: Digest, w: World, step: Step, rest: seq<Step>, end: World)
    requires Enabled(w, step) && Runs(digest, Apply(digest, w, step), rest, end)
    ensures Runs(digest, w, [step] + rest, end)
  {
    assert ([step] + rest)[1..] == rest;
  }

  lemma {:induction false} ObjectSteps(digest: Digest)
    ensures var start := Single(Remote(map[], map[]), Idle, false, {});
      var begun := Single(Remote(map[], map[]), Pushing(0, false), false, {});
      var sent := Single(BareRemote(), Pushing(0, true), false, {});
      && Enabled(start, BeginPush("g")) && Apply(digest, start, BeginPush("g")) == begun
      && Enabled(begun, SendObject("g")) && Apply(digest, begun, SendObject("g")) == sent
      && Enabled(sent, EchoObject("g"))
      && Apply(digest, sent, EchoObject("g")) == Single(BareRemote(), Pushing(1, false), false, {})
  {
    OneFileKeys();
  }

  lemma {:induction false} ManifestSteps(digest: Digest)
    ensures var pushed := Single(BareRemote(), Pushing(1, false), false, {});
      var sealing := Single(SealedRemote(digest), Sealing, false, {});
      && Enabled(pushed, SendManifest("g")) && Apply(digest, pushed, SendManifest("g")) == sealing
      && Enabled(sealing, EchoManifest("g"))
      && Apply(digest, sealing, EchoManifest("g")) == Single(SealedRemote(digest), Idle, true, {})
  {
    OneFileKeys();
  }

  lemma {:induction false} OwnRestoreSteps(digest: Digest)
    ensures var quiet := Single(SealedRemote(digest), Idle, true, {});
      var asked := Single(SealedRemote(digest), Idle, true, {OneRecord(digest)});
      && Enabled(quiet, ReadManifest("g")) && Apply(digest, quiet, ReadManifest("g")) == asked
      && Enabled(asked, BeginRestore("g", OneRecord(digest)))
      && Apply(digest, asked, BeginRestore("g", OneRecord(digest))).gateways["g"].local == map[]
  {
    OneFileKeys();
    var none: set<Record> := {};
    assert none + {OneRecord(digest)} == {OneRecord(digest)};
  }

  /** From a fresh start, a quiesced gateway can lose the file it had just handed over. */
  lemma {:induction false} QuiescedLosesFiles(digest: Digest) returns (w: World, steps: seq<Step>, last: Step, before: World)
    ensures Initial(w) && (forall g :: g in w.gateways ==> !w.gateways[g].quiesced) && Runs(digest, w, steps, before)
    ensures "g" in before.gateways && before.gateways["g"].quiesced && Eligible(before.gateways["g"].local) != map[]
    ensures last.BeginRestore? && last.g == "g" && Enabled(before, last)
    ensures Eligible(Apply(digest, before, last).gateways["g"].local) == map[]
  {
    w := Single(Remote(map[], map[]), Idle, false, {});
    before := Single(SealedRemote(digest), Idle, true, {OneRecord(digest)});
    last := BeginRestore("g", OneRecord(digest));
    OneFileKeys();
    ObjectSteps(digest);
    ManifestSteps(digest);
    OwnRestoreSteps(digest);
    assert "cert" in OneFile();
    steps := [];
    RunsStep(digest, Single(SealedRemote(digest), Idle, true, {}), ReadManifest("g"), steps, before);
    steps := [ReadManifest("g")] + steps;
    RunsStep(digest, Single(SealedRemote(digest), Sealing, false, {}), EchoManifest("g"), steps, before);
    steps := [EchoManifest("g")] + steps;
    RunsStep(digest, Single(BareRemote(), Pushing(1, false), false, {}), SendManifest("g"), steps, before);
    steps := [SendManifest("g")] + steps;
    RunsStep(digest, Single(BareRemote(), Pushing(0, true), false, {}), EchoObject("g"), steps, before);
    steps := [EchoObject("g")] + steps;
    RunsStep(digest, Single(Remote(map[], map[]), Pushing(0, false), false, {}), SendObject("g"), steps, before);
    steps := [SendObject("g")] + steps;
    RunsStep(digest, w, BeginPush("g"), steps, before);
    steps := [BeginPush("g")] + steps;
  }

  // ----- the handoff -----

  /** Candidate `c` of source `s`: every manifest it may restore lists the source's frozen files. */
  ghost predicate HandingOver(w: World, s: string, c: string, local: Files) {
    && s != c && c in w.gateways && Frozen(w, s, local)
    && w.gateways[c].id == w.gateways[s].id
    && w.gateways[s].id in w.remote.manifests
    && w.remote.manifests[w.gateways[s].id].origin == Eligible(local)
    && (forall record :: record in w.gateways[c].waiting ==> record.origin == Eligible(local))
    && (w.gateways[c].phase.Restoring? ==> w.gateways[c].phase.record.origin == Eligible(local))
  }

  /** A read-back manifest is this push's own, so its record is of these files. */
  lemma {:induction false} SealRecords(digest: Digest, w: World, s: string)
    requires Injective(digest) && Sound(digest, w) && s in w.gateways && Enabled(w, EchoManifest(s))
    ensures var gw := w.gateways[s];
      Sealed(digest, gw, w.remote).quiesced && !gw.quiesced ==>
        gw.id in w.remote.manifests && w.remote.manifests[gw.id].origin == Eligible(gw.local)
  {
    var gw := w.gateways[s];
    if Sealed(digest, gw, w.remote).quiesced && !gw.quiesced {
      var record := w.remote.manifests[gw.id];
      SnapshotLists(digest, gw.id, record.origin);
      SnapshotLists(digest, gw.id, Eligible(gw.local));
      ListsOnce(digest, record.manifest.objects, record.origin, Eligible(gw.local));
    }
  }

  /** Steps that would end the handoff: unfreezing the source, or another push for the same gateway id. */
  ghost predicate Disturbs(w: World, step: Step, s: string) {
    || Unfreezes(step, s)
    || (step.SendManifest? && step.g != s && step.g in w.gateways && s in w.gateways
        && w.gateways[step.g].id == w.gateways[s].id)
  }

  /** A run without such a step. */
  ghost predicate UndisturbedRun(digest: Digest, w: World, steps: seq<Step>, end: World, s: string)
    decreases |steps|
  {
    if steps == [] then end == w
    else Enabled(w, steps[0]) && !Disturbs(w, steps[0], s)
         && UndisturbedRun(digest, Apply(digest, w, steps[0]), steps[1..], end, s)
  }

  lemma {:induction false} ApplyHandingOver(digest: Digest, w: World, step: Step, s: string, c: string, local: Files)
    requires HandingOver(w, s, c, local) && Enabled(w, step) && !Disturbs(w, step, s)
    ensures HandingOver(Apply(digest, w, step), s, c, local)
  {
    ApplyFrozen(digest, w, step, s, local);
    var after := Apply(digest, w, step);
    assert after.gateways[c].id == w.gateways[c].id && after.gateways[s].id == w.gateways[s].id;
  }

  lemma {:induction false} RunsHandingOver(digest: Digest, w: World, steps: seq<Step>, end: World, s: string,
          c: string, local: Files)
    requires HandingOver(w, s, c, local) && Sound(digest, w) && UndisturbedRun(digest, w, steps, end, s)
    ensures HandingOver(end, s, c, local) && Sound(digest, end)
    decreases |steps|
  {
    if steps != [] {
      ApplyHandingOver(digest, w, steps[0], s, c, local);
      ApplySound(digest, w, steps[0]);
      RunsHandingOver(digest, Apply(digest, w, steps[0]), steps[1..], end, s, c, local);
    }
  }

  lemma {:induction false} RestoredExactly(digest: Digest, gw: Gateway)
    requires Injective(digest) && GatewaySound(digest, gw) && gw.phase.Restoring?
    requires gw.phase.restored == |gw.phase.record.manifest.objects|
    ensures Eligible(gw.local) == gw.phase.record.origin
  {
    var record := gw.phase.record;
    assert record.manifest.objects[..|record.manifest.objects|] == record.manifest.objects;
    SnapshotLists(digest, gw.id, record.origin);
    ListsOnce(digest, record.manifest.objects, record.origin, Eligible(gw.local));
  }

  /** A candidate whose restore ends during an undisturbed handoff holds the source's present files. */
  lemma {:induction false} HandoffIsExact(digest: Digest, w: World, steps: seq<Step>, end: World, s: string,
          c: string, local: Files)
    requires Injective(digest) && Sound(digest, w) && HandingOver(w, s, c, local)
    requires UndisturbedRun(digest, w, steps, end, s)
    ensures c in end.gateways && s in end.gateways
    ensures Enabled(end, EndRestore(c)) ==>
              Eligible(end.gateways[c].local) == Eligible(end.gateways[s].local) == Eligible(local)
  {
    RunsHandingOver(digest, w, steps, end, s, c, local);
    if Enabled(end, EndRestore(c)) { RestoredExactly(digest, end.gateways[c]); }
  }

  // ----- what a gateway's own requests do -----

  /** Unless it is quiesced, a gateway writes locally, and if the request arrives to the shared store; others are untouched. */
  lemma {:induction false} StoreExactly(digest: Digest, w: World, g: string, key: string, value: string, reaches: bool)
    requires Enabled(w, Store(g, key, value, reaches))
    ensures var after, quiesced := Apply(digest, w, Store(g, key, value, reaches)), w.gateways[g].quiesced;
      && after.gateways == w.gateways[g := w.gateways[g].(local := if quiesced then w.gateways[g].local
                                                                   else w.gateways[g].local[key := value])]
      && after.remote == w.remote.(objects := if reaches && !quiesced then w.remote.objects[key := value] else w.remote.objects)
  {
  }

  /** Unless it is quiesced, a gateway deletes a file or directory locally, and if the request arrives in the shared store. */
  lemma {:induction false} DeleteExactly(digest: Digest, w: World, g: string, key: string, reaches: bool, other: string)
    requires Enabled(w, Delete(g, key, reaches))
    ensures var before, after := w.gateways[g], Apply(digest, w, Delete(g, key, reaches));
      var below := other == key || key == "" || key + "/" <= other;
      && g in after.gateways && after.gateways[g].phase == before.phase && after.gateways[g].quiesced == before.quiesced
      && (other in after.gateways[g].local <==> other in before.local && (before.quiesced || !below))
      && (other in after.remote.objects <==> other in w.remote.objects && (before.quiesced || !reaches || !below))
      && after.remote.manifests == w.remote.manifests
  {
    RemovedExactly(w.gateways[g].local, key, other);
    RemovedExactly(w.remote.objects, key, other);
  }

  /** A gateway loads what another one stored, and keeps a copy unless it is quiesced. */
  lemma {:induction false} StoredIsLoaded(digest: Digest, w: World, g: string, h: string, key: string, value: string)
    requires g != h && h in w.gateways && Enabled(w, Store(g, key, value, true)) && !w.gateways[g].quiesced
    requires w.gateways[h].phase.Idle? && key !in w.gateways[h].local
    ensures var stored := Apply(digest, w, Store(g, key, value, true));
      && Enabled(stored, Load(h, key))
      && var loaded := Apply(digest, stored, Load(h, key));
         && loaded.remote == stored.remote
         && loaded.gateways[h].local == if w.gateways[h].quiesced then w.gateways[h].local else w.gateways[h].local[key := value]
  {
  }

  /** A load never replaces a local file. */
  lemma {:induction false} LoadKeepsLocal(digest: Digest, w: World, g: string, key: string)
    requires Enabled(w, Load(g, key)) && key in w.gateways[g].local
    ensures Apply(digest, w, Load(g, key)).gateways[g] == w.gateways[g]
  {
  }
}
