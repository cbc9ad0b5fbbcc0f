/** The controller's table of configuration blobs and its collector. */
module ConfigBlobs {
  import opened Wrappers
  import opened Digests
  import opened Collectors

  datatype Blob = Blob(content: string, since: Option<int>)

  type Blobs = map<string, Blob>

  datatype Stats = Stats(referenced: nat, marked: nat, retained: nat, deleted: nat)

  function VerdictOn(blobs: Blobs, referenced: set<string>, now: int, grace: int, item: string): Verdict
    requires item in blobs
  {
    Judge(blobs[item].since, item in referenced, now, grace)
  }

  function With(blobs: Blobs, referenced: set<string>, now: int, grace: int, verdict: Verdict): set<string> {
    set item | item in blobs && VerdictOn(blobs, referenced, now, grace, item) == verdict
  }

  function Settled(blob: Blob, verdict: Verdict, now: int): Blob {
    if verdict.Referenced? then blob.(since := None) else if verdict.Marked? then blob.(since := Some(now)) else blob
  }

  function Sweep(blobs: Blobs, referenced: set<string>, now: int, grace: int): Blobs {
    map item | item in blobs && !VerdictOn(blobs, referenced, now, grace, item).Expired? ::
      Settled(blobs[item], VerdictOn(blobs, referenced, now, grace, item), now)
  }

  function Unmark(blobs: Blobs, items: set<string>): Blobs {
    map item | item in blobs :: if item in items then blobs[item].(since := None) else blobs[item]
  }

  predicate Storable(digest: Digest, blobs: Blobs, offered: map<string, string>) {
    forall item :: item in offered ==>
      digest(offered[item]) == item && (item in blobs ==> blobs[item].content == offered[item])
  }

  function Stored(blobs: Blobs, offered: map<string, string>): Blobs {
    blobs + map item | item in offered :: Blob(offered[item], None)
  }

  function Counted(blobs: Blobs, referenced: set<string>, now: int, grace: int): Stats {
    Stats(|With(blobs, referenced, now, grace, Referenced)|, |With(blobs, referenced, now, grace, Marked)|,
          |With(blobs, referenced, now, grace, Waiting)|, |With(blobs, referenced, now, grace, Expired)|)
  }

  function CountOne(stats: Stats, verdict: Verdict): Stats {
    match verdict
    case Referenced => stats.(referenced := stats.referenced + 1)
    case Marked => stats.(marked := stats.marked + 1)
    case Waiting => stats.(retained := stats.retained + 1)
    case Expired => stats.(deleted := stats.deleted + 1)
  }

  lemma {:induction false} WithOne(blobs: Blobs, referenced: set<string>, now: int, grace: int, item: string,
          blob: Blob, verdict: Verdict)
    requires item !in blobs
    ensures |With(blobs[item := blob], referenced, now, grace, verdict)|
            == |With(blobs, referenced, now, grace, verdict)|
               + if Judge(blob.since, item in referenced, now, grace) == verdict then 1 else 0
  {
    var before, after := With(blobs, referenced, now, grace, verdict), With(blobs[item := blob], referenced, now, grace, verdict);
    if Judge(blob.since, item in referenced, now, grace) == verdict {
      assert after == before + {item};
    } else {
      assert after == before;
    }
  }

  lemma {:induction false} CountedOne(blobs: Blobs, referenced: set<string>, now: int, grace: int, item: string,
          blob: Blob)
    requires item !in blobs
    ensures Counted(blobs[item := blob], referenced, now, grace)
            == CountOne(Counted(blobs, referenced, now, grace), Judge(blob.since, item in referenced, now, grace))
  {
    WithOne(blobs, referenced, now, grace, item, blob, Referenced);
    WithOne(blobs, referenced, now, grace, item, blob, Marked);
    WithOne(blobs, referenced, now, grace, item, blob, Waiting);
    WithOne(blobs, referenced, now, grace, item, blob, Expired);
  }

  lemma {:induction false} SweepOne(blobs: Blobs, referenced: set<string>, now: int, grace: int, item: string,
          blob: Blob)
    requires item !in blobs
    ensures var verdict := Judge(blob.since, item in referenced, now, grace);
      Sweep(blobs[item := blob], referenced, now, grace)
      == if verdict.Expired? then Sweep(blobs, referenced, now, grace)
         else Sweep(blobs, referenced, now, grace)[item := Settled(blob, verdict, now)]
  {
  }

  /** Part way through a pass: `entries` are still to be visited, the others are settled and counted. */
  ghost predicate Sweeping(all: Blobs, entries: Blobs, blobs: Blobs, counts: Stats,
                           referenced: set<string>, now: int, grace: int) {
    && entries.Keys <= all.Keys && (forall item :: item in entries ==> entries[item] == all[item])
    && counts == Counted(all - entries.Keys, referenced, now, grace)
    && blobs == entries + Sweep(all - entries.Keys, referenced, now, grace)
    && (forall item :: item in entries ==> item in blobs && blobs[item] == entries[item])
  }

  lemma {:induction false} SweepBegins(all: Blobs, referenced: set<string>, now: int, grace: int)
    ensures Sweeping(all, all, all, Stats(0, 0, 0, 0), referenced, now, grace)
  {
    assert all - all.Keys == map[];
    assert Sweep(map[], referenced, now, grace) == map[];
    assert all + map[] == all;
  }

  lemma {:induction false} SweepEnds(all: Blobs, entries: Blobs, blobs: Blobs, counts: Stats,
                                     referenced: set<string>, now: int, grace: int)
    requires Sweeping(all, entries, blobs, counts, referenced, now, grace) && entries.Keys == {}
    ensures blobs == Sweep(all, referenced, now, grace) && counts == Counted(all, referenced, now, grace)
  {
    assert all - entries.Keys == all;
  }

  lemma {:induction false} SweepContinues(all: Blobs, entries: Blobs, blobs: Blobs, counts: Stats,
                       referenced: set<string>, now: int, grace: int, item: string)
    requires Sweeping(all, entries, blobs, counts, referenced, now, grace) && item in entries
    ensures var verdict := Judge(entries[item].since, item in referenced, now, grace);
      var after := if verdict.Expired? then blobs - {item} else blobs[item := Settled(entries[item], verdict, now)];
      Sweeping(all, entries - {item}, after, CountOne(counts, verdict), referenced, now, grace)
  {
    var done, rest := all - entries.Keys, entries - {item};
    var verdict := Judge(entries[item].since, item in referenced, now, grace);
    assert all - rest.Keys == done[item := entries[item]];
    CountedOne(done, referenced, now, grace, item, entries[item]);
    SweepOne(done, referenced, now, grace, item, entries[item]);
    MergedVisit(entries, Sweep(done, referenced, now, grace), item, Settled(entries[item], verdict, now));
  }

  lemma {:induction false} MergedVisit(entries: Blobs, swept: Blobs, item: string, settled: Blob)
    requires item in entries && entries.Keys !! swept.Keys
    ensures (entries + swept) - {item} == (entries - {item}) + swept
    ensures (entries + swept)[item := settled] == (entries - {item}) + swept[item := settled]
    ensures forall other :: other in entries && other != item ==>
              && (entries + swept - {item})[other] == entries[other]
              && (entries + swept)[item := settled][other] == entries[other]
  {
  }

  lemma {:induction false} StoredNone(blobs: Blobs, offered: map<string, string>)
    ensures offered - offered.Keys == map[] && Stored(blobs, map[]) == blobs
  {
  }

  lemma {:induction false} StoredOne(blobs: Blobs, offered: map<string, string>, todo: set<string>, item: string)
    requires item in todo && todo <= offered.Keys
    ensures var part := offered - todo;
      && offered - (todo - {item}) == part[item := offered[item]]
      && Stored(blobs, part[item := offered[item]]) == Stored(blobs, part)[item := Blob(offered[item], None)]
      && (item in Stored(blobs, part) <==> item in blobs)
      && (item in blobs ==> Stored(blobs, part)[item] == blobs[item])
  {
  }

  /** The four counters split the table: each blob is counted once. */
  lemma {:induction false} CountsPartition(blobs: Blobs, referenced: set<string>, now: int, grace: int)
    ensures |With(blobs, referenced, now, grace, Referenced)| + |With(blobs, referenced, now, grace, Marked)|
            + |With(blobs, referenced, now, grace, Waiting)| + |With(blobs, referenced, now, grace, Expired)| == |blobs|
  {
    var a := With(blobs, referenced, now, grace, Referenced);
    var b := With(blobs, referenced, now, grace, Marked);
    var c := With(blobs, referenced, now, grace, Waiting);
    var d := With(blobs, referenced, now, grace, Expired);
    forall item | item in blobs ensures item in a + b + c + d {
      var v := VerdictOn(blobs, referenced, now, grace, item);
      assert v.Referenced? || v.Marked? || v.Waiting? || v.Expired?;
    }
    assert a + b + c + d == blobs.Keys;
    DisjointSizes(a, b, c, d);
    assert |blobs| == |blobs.Keys|;
  }

  lemma {:induction false} DisjointSizes(a: set<string>, b: set<string>, c: set<string>, d: set<string>)
    requires a !! b !! c !! d
    ensures |a + b + c + d| == |a| + |b| + |c| + |d|
  {
  }

  class BlobTable {
    const digest: Digest
    var blobs: Blobs

    constructor (digest: Digest)
      ensures this.digest == digest && blobs == map[]
    {
      this.digest, blobs := digest, map[];
    }

    /** Stores every offered blob and clears its mark, or stores none. */
    method PutBlobs(offered: map<string, string>) returns (ok: bool)
      modifies this
      ensures ok <==> Storable(digest, old(blobs), offered)
      ensures blobs == if ok then Stored(old(blobs), offered) else old(blobs)
    {
      var after, todo := blobs, offered.Keys;
      StoredNone(blobs, offered);
      while todo != {}
        invariant todo <= offered.Keys && unchanged(this)
        invariant after == Stored(blobs, offered - todo) && Storable(digest, blobs, offered - todo)
        decreases todo
      {
        var item :| item in todo;
        StoredOne(blobs, offered, todo, item);
        if digest(offered[item]) != item { return false; }
        if item in after {
          if after[item].content != offered[item] { return false; }
          after := after[item := after[item].(since := None)];
        } else {
          after := after[item := Blob(offered[item], None)];
        }
        todo := todo - {item};
      }
      assert offered - todo == offered;
      blobs := after;
      ok := true;
    }

    /** Clears the marks of blobs that must all still be there. */
    method PinBlobs(items: set<string>) returns (ok: bool)
      modifies this
      ensures ok <==> items <= old(blobs).Keys
      ensures blobs == if ok then Unmark(old(blobs), items) else old(blobs)
    {
      var after, todo := blobs, items;
      while todo != {}
        invariant todo <= items && items - todo <= blobs.Keys && unchanged(this)
        invariant after == Unmark(blobs, items - todo)
        decreases todo
      {
        var item :| item in todo;
        if item !in after { return false; }
        after := after[item := after[item].(since := None)];
        todo := todo - {item};
      }
      assert items - todo == items;
      blobs := after;
      ok := true;
    }

    /** One pass; a negative grace period is refused. */
    method Collect(referenced: set<string>, now: int, grace: int) returns (stats: Option<Stats>)
      modifies this
      ensures stats.None? <==> grace < 0
      ensures blobs == if grace < 0 then old(blobs) else Sweep(old(blobs), referenced, now, grace)
      ensures stats.Some? ==> stats.value == Counted(old(blobs), referenced, now, grace)
    {
      if grace < 0 { return None; }
      ghost var all := blobs;
      var entries := blobs;
      var counts := Stats(0, 0, 0, 0);
      SweepBegins(all, referenced, now, grace);
      while entries.Keys != {}
        invariant Sweeping(all, entries, blobs, counts, referenced, now, grace)
        decreases entries.Keys
      {
        var item :| item in entries.Keys;
        SweepContinues(all, entries, blobs, counts, referenced, now, grace, item);
        var verdict := Visit(item, entries[item], item in referenced, now, grace);
        counts := CountOne(counts, verdict);
        entries := entries - {item};
      }
      SweepEnds(all, entries, blobs, counts, referenced, now, grace);
      stats := Some(counts);
    }

    /** Clears, sets or honours the mark of one listed blob. */
    method Visit(item: string, blob: Blob, referenced: bool, now: int, grace: int) returns (verdict: Verdict)
      requires item in blobs && blobs[item] == blob
      modifies this
      ensures verdict == Judge(blob.since, referenced, now, grace)
      ensures blobs == if verdict.Expired? then old(blobs) - {item} else old(blobs)[item := Settled(blob, verdict, now)]
    {
      if referenced {
        if blob.since.Some? { blobs := blobs[item := blob.(since := None)]; }
        return Referenced;
      }
      match blob.since
      case None =>
        blobs := blobs[item := blob.(since := Some(now))];
        verdict := Marked;
      case Some(since) =>
        if SaturatingSub(now, since) >= grace {
          blobs := blobs - {item};
          verdict := Expired;
        } else {
          verdict := Waiting;
        }
    }
  }

  // ----- runs -----

  function Marks(blobs: Blobs): map<string, int> {
    map item | item in blobs && blobs[item].since.Some? :: blobs[item].since.value
  }

  datatype Operation =
    | Put(offered: map<string, string>)
    | Pin(items: set<string>)
    | Gc(referenced: set<string>, now: int, grace: int)

  /** The table and the events so far; an operation that fails changes neither. */
  datatype World = World(blobs: Blobs, history: seq<Event>)

  function Apply(digest: Digest, w: World, op: Operation): World {
    match op
    case Put(offered) =>
      if Storable(digest, w.blobs, offered)
      then World(Stored(w.blobs, offered), w.history + [Used(offered.Keys)]) else w
    case Pin(items) =>
      if items <= w.blobs.Keys then World(Unmark(w.blobs, items), w.history + [Used(items)]) else w
    case Gc(referenced, now, grace) =>
      if grace < 0 then w
      else World(Sweep(w.blobs, referenced, now, grace), w.history + [Swept(now, w.blobs.Keys, referenced)])
  }

  function Run(digest: Digest, w: World, ops: seq<Operation>): World
    decreases |ops|
  {
    if ops == [] then w else Run(digest, Apply(digest, w, ops[0]), ops[1..])
  }

  lemma {:induction false} ApplyFaithful(digest: Digest, w: World, op: Operation)
    requires Faithful(w.history, Marks(w.blobs))
    ensures var after := Apply(digest, w, op); Faithful(after.history, Marks(after.blobs))
  {
    var after := Apply(digest, w, op);
    if after != w {
      var event := after.history[|w.history|];
      assert Follows(event, Marks(w.blobs), Marks(after.blobs));
      StillFaithful(w.history, event, Marks(w.blobs), Marks(after.blobs));
    }
  }

  lemma {:induction false} RunFaithful(digest: Digest, w: World, ops: seq<Operation>)
    requires Faithful(w.history, Marks(w.blobs))
    ensures Faithful(Run(digest, w, ops).history, Marks(Run(digest, w, ops).blobs))
    decreases |ops|
  {
    if ops != [] {
      ApplyFaithful(digest, w, ops[0]);
      RunFaithful(digest, Apply(digest, w, ops[0]), ops[1..]);
    }
  }

  /** In every run a pass deletes a blob only if it is unreferenced now and has been quiet for the grace period. */
  lemma {:induction false} DeletedAfterGrace(digest: Digest, ops: seq<Operation>, referenced: set<string>, now: int,
          grace: int, item: string)
    requires 0 <= grace <= MAX_I64
    requires var w := Run(digest, World(map[], []), ops);
      item in w.blobs && item !in Sweep(w.blobs, referenced, now, grace)
    ensures item !in referenced
    ensures Justified(Run(digest, World(map[], []), ops).history, item, now, grace)
  {
    RunFaithful(digest, World(map[], []), ops);
    var w := Run(digest, World(map[], []), ops);
    var since := w.blobs[item].since.value;
    SaturationHarmless(now, since, grace);
    assert Marks(w.blobs)[item] == since;
    assert QuietSince(w.history, item, since);
  }

  /** Conversely, a blob marked that long ago and still unreferenced does not survive the pass. */
  lemma {:induction false} ExpiredIsDeleted(blobs: Blobs, referenced: set<string>, now: int, grace: int, item: string)
    requires 0 <= grace <= MAX_I64 && item in blobs && item !in referenced
    requires blobs[item].since.Some? && blobs[item].since.value <= now - grace
    ensures item !in Sweep(blobs, referenced, now, grace)
  {
    SaturationHarmless(now, blobs[item].since.value, grace);
  }

  // ----- what an operation does, item by item -----

  /**
   * A pass takes the mark off a referenced blob, marks an unreferenced one, and deletes it once the mark is as old as
   * the grace period; contents never change and nothing appears.
   */
  lemma {:induction false} SweepExactly(blobs: Blobs, referenced: set<string>, now: int, grace: int, item: string)
    requires 0 <= grace <= MAX_I64
    ensures var after := Sweep(blobs, referenced, now, grace);
      && (item !in blobs ==> item !in after)
      && (item in blobs ==>
            var since := blobs[item].since;
            && (item in after <==> item in referenced || since.None? || now - since.value < grace)
            && (item in after ==>
                  && after[item].content == blobs[item].content
                  && after[item].since == (if item in referenced then None else if since.None? then Some(now) else since)))
  {
    if item in blobs && blobs[item].since.Some? { SaturationHarmless(now, blobs[item].since.value, grace); }
  }

  /** The counters of a pass, over the marks before it. */
  lemma {:induction false} CountedExactly(blobs: Blobs, referenced: set<string>, now: int, grace: int)
    requires 0 <= grace <= MAX_I64
    ensures var stats := Counted(blobs, referenced, now, grace);
      && stats.referenced == |set item | item in blobs && item in referenced|
      && stats.marked == |set item | item in blobs && item !in referenced && blobs[item].since.None?|
      && stats.deleted == |blobs.Keys - Sweep(blobs, referenced, now, grace).Keys|
  {
    forall item | item in blobs && blobs[item].since.Some? ensures
      SaturatingSub(now, blobs[item].since.value) >= grace <==> now - blobs[item].since.value >= grace
    {
      SaturationHarmless(now, blobs[item].since.value, grace);
    }
    assert With(blobs, referenced, now, grace, Referenced) == set item | item in blobs && item in referenced;
    assert With(blobs, referenced, now, grace, Marked)
           == set item | item in blobs && item !in referenced && blobs[item].since.None?;
    assert With(blobs, referenced, now, grace, Expired) == blobs.Keys - Sweep(blobs, referenced, now, grace).Keys;
  }

  /** A put stores all that is offered, unmarked, if every item is the digest of its content; otherwise it changes nothing. */
  lemma {:induction false} PutExactly(digest: Digest, w: World, offered: map<string, string>)
    ensures var after := Apply(digest, w, Put(offered));
      if (forall item :: item in offered ==> item == digest(offered[item]) && (item in w.blobs ==> w.blobs[item].content == offered[item]))
      then
        && after.history == w.history + [Used(offered.Keys)]
        && (forall item :: item in after.blobs <==> item in w.blobs || item in offered)
        && (forall item :: item in offered ==> after.blobs[item] == Blob(offered[item], None))
        && (forall item :: item in w.blobs && item !in offered ==> after.blobs[item] == w.blobs[item])
      else after == w
  {
  }

  /** A pin takes the marks off all the items if all are stored; otherwise it changes nothing. */
  lemma {:induction false} PinExactly(digest: Digest, w: World, items: set<string>)
    ensures var after := Apply(digest, w, Pin(items));
      if (forall item :: item in items ==> item in w.blobs)
      then
        && after.history == w.history + [Used(items)] && after.blobs.Keys == w.blobs.Keys
        && (forall item :: item in w.blobs ==>
              after.blobs[item] == Blob(w.blobs[item].content, if item in items then None else w.blobs[item].since))
      else after == w
  {
    var after := Apply(digest, w, Pin(items));
    if forall item :: item in items ==> item in w.blobs {
      assert items <= w.blobs.Keys;
      forall item | item in w.blobs
        ensures after.blobs[item] == Blob(w.blobs[item].content, if item in items then None else w.blobs[item].since)
      {
        assert w.blobs[item] == Blob(w.blobs[item].content, w.blobs[item].since);
      }
    }
  }

  /** A pass with a grace period that is not negative takes place and is remembered. */
  lemma {:induction false} GcExactly(digest: Digest, w: World, referenced: set<string>, now: int, grace: int)
    ensures var after := Apply(digest, w, Gc(referenced, now, grace));
      && (grace < 0 ==> after == w)
      && (grace >= 0 ==> after == World(Sweep(w.blobs, referenced, now, grace), w.history + [Swept(now, w.blobs.Keys, referenced)]))
  {
  }

  ghost predicate Addressed(digest: Digest, blobs: Blobs) {
    forall item :: item in blobs ==> item == digest(blobs[item].content)
  }

  lemma {:induction false} ApplyAddressed(digest: Digest, w: World, op: Operation)
    requires Addressed(digest, w.blobs)
    ensures Addressed(digest, Apply(digest, w, op).blobs)
  {
    match op
    case Put(offered) => PutExactly(digest, w, offered);
    case Pin(items) => PinExactly(digest, w, items);
    case Gc(_, _, _) =>
  }

  /** In every run each blob is stored under the digest of its content. */
  lemma {:induction false} RunsAreAddressed(digest: Digest, ops: seq<Operation>, w: World)
    requires Addressed(digest, w.blobs)
    ensures Addressed(digest, Run(digest, w, ops).blobs)
    decreases |ops|
  {
    if ops != [] {
      ApplyAddressed(digest, w, ops[0]);
      RunsAreAddressed(digest, ops[1..], Apply(digest, w, ops[0]));
    }
  }
}
