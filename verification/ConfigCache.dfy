/** An agent's cache of materialised configuration files and its collector. */
module ConfigCache {
  import opened Wrappers
  import opened Collectors

  datatype Removal = Removed | NotFound | Refused

  /** What became of one cached file. */
  datatype Fate = InUse | NewlyMarked | InGrace | Deleted | Vanished | Failed

  datatype Stats = Stats(referenced: nat, marked: nat, retained: nat, deleted: nat, failures: nat)

  function Decide(mark: Option<int>, referenced: bool, now: int, grace: int, removal: Removal): Fate {
    match Judge(mark, referenced, now, grace)
    case Referenced => InUse
    case Marked => NewlyMarked
    case Waiting => InGrace
    case Expired => match removal case Removed => Deleted case NotFound => Vanished case Refused => Failed
  }

  function MarkOf(marks: map<string, int>, name: string): Option<int> {
    if name in marks then Some(marks[name]) else None
  }

  /** The fates of a set of files. */
  function Fates(files: set<string>, marks: map<string, int>, referenced: set<string>, now: int, grace: int,
                 removal: string -> Removal): map<string, Fate> {
    map name | name in files :: Decide(MarkOf(marks, name), name in referenced, now, grace, removal(name))
  }

  function Having(fates: map<string, Fate>, fate: Fate): set<string> {
    set name | name in fates && fates[name] == fate
  }

  function Counted(fates: map<string, Fate>): Stats {
    Stats(|Having(fates, InUse)|, |Having(fates, NewlyMarked)|, |Having(fates, InGrace)|,
          |Having(fates, Deleted)|, |Having(fates, Failed)|)
  }

  predicate Stays(fate: Fate) { !fate.Deleted? && !fate.Vanished? }

  predicate KeepsMark(fate: Fate) { fate.NewlyMarked? || fate.InGrace? || fate.Failed? }

  /** The marks a pass leaves. */
  function MarksAfter(fates: map<string, Fate>, marks: map<string, int>, now: int): map<string, int> {
    map name | name in fates && KeepsMark(fates[name]) :: if name in marks then marks[name] else now
  }

  lemma {:induction false} HavingOne(fates: map<string, Fate>, name: string, fate: Fate, other: Fate)
    requires name !in fates
    ensures |Having(fates[name := fate], other)| == |Having(fates, other)| + if fate == other then 1 else 0
  {
    if fate == other {
      assert Having(fates[name := fate], other) == Having(fates, other) + {name};
    } else {
      assert Having(fates[name := fate], other) == Having(fates, other);
    }
  }

  function CountOne(stats: Stats, fate: Fate): Stats {
    match fate
    case InUse => stats.(referenced := stats.referenced + 1)
    case NewlyMarked => stats.(marked := stats.marked + 1)
    case InGrace => stats.(retained := stats.retained + 1)
    case Deleted => stats.(deleted := stats.deleted + 1)
    case Failed => stats.(failures := stats.failures + 1)
    case Vanished => stats
  }

  lemma {:induction false} CountedOne(fates: map<string, Fate>, name: string, fate: Fate)
    requires name !in fates
    ensures Counted(fates[name := fate]) == CountOne(Counted(fates), fate)
  {
    HavingOne(fates, name, fate, InUse);
    HavingOne(fates, name, fate, NewlyMarked);
    HavingOne(fates, name, fate, InGrace);
    HavingOne(fates, name, fate, Deleted);
    HavingOne(fates, name, fate, Failed);
  }

  /** The counters and the vanished files together count each file once. */
  lemma {:induction false} CountsPartition(fates: map<string, Fate>)
    ensures var s := Counted(fates);
      s.referenced + s.marked + s.retained + s.deleted + s.failures + |Having(fates, Vanished)| == |fates|
  {
    if fates == map[] {
      assert Having(fates, Vanished) == {};
    } else {
      assert exists name :: name in fates;
      var name :| name in fates;
      var rest := fates - {name};
      assert fates == rest[name := fates[name]] && fates.Keys == rest.Keys + {name};
      assert |fates| == |fates.Keys| && |rest| == |rest.Keys|;
      CountsPartition(rest);
      CountedOne(rest, name, fates[name]);
      HavingOne(rest, name, fates[name], Vanished);
    }
  }

  /** Part way through a pass, the names in `todo` are still to be visited. */
  ghost predicate Passing(files: set<string>, marks: map<string, int>, fates: map<string, Fate>, now: int,
                          todo: set<string>, candidates: map<string, int>, stats: Stats) {
    && todo <= files && fates.Keys == files
    && (forall name :: name in todo ==> (name in candidates <==> name in marks) && (name in marks ==> candidates[name] == marks[name]))
    && (forall name :: name !in todo ==> (name in candidates <==> name in MarksAfter(fates, marks, now)))
    && (forall name :: name in candidates && name !in todo ==> candidates[name] == MarksAfter(fates, marks, now)[name])
    && stats == Counted(fates - todo)
  }

  function Visited(candidates: map<string, int>, name: string, fate: Fate, now: int): map<string, int> {
    if fate.NewlyMarked? then candidates[name := now]
    else if KeepsMark(fate) then candidates
    else candidates - {name}
  }

  lemma {:induction false} PassContinues(files: set<string>, marks: map<string, int>, fates: map<string, Fate>,
          now: int,
                      todo: set<string>, candidates: map<string, int>, stats: Stats, name: string)
    requires Passing(files, marks, fates, now, todo, candidates, stats) && name in todo
    requires fates[name].NewlyMarked? <==> KeepsMark(fates[name]) && name !in marks
    ensures Passing(files, marks, fates, now, todo - {name}, Visited(candidates, name, fates[name], now),
                    CountOne(stats, fates[name]))
  {
    CountedOne(fates - todo, name, fates[name]);
    assert fates - (todo - {name}) == (fates - todo)[name := fates[name]];
  }

  lemma {:induction false} PassBegins(files: set<string>, marks: map<string, int>, fates: map<string, Fate>, now: int)
    requires fates.Keys == files
    ensures Passing(files, marks, fates, now, files, map name | name in marks && name in files :: marks[name], Stats(0, 0, 0, 0, 0))
  {
    assert fates - files == map[];
  }

  lemma {:induction false} PassEnds(files: set<string>, marks: map<string, int>, fates: map<string, Fate>, now: int,
                 candidates: map<string, int>, stats: Stats)
    requires Passing(files, marks, fates, now, {}, candidates, stats)
    ensures candidates == MarksAfter(fates, marks, now) && stats == Counted(fates)
  {
    assert fates - {} == fates;
  }

  /** The files left when those in `todo` have not been visited yet. */
  function Left(fates: map<string, Fate>, todo: set<string>): set<string> {
    set name | name in fates && (name in todo || Stays(fates[name]))
  }

  lemma {:induction false} LeftOne(fates: map<string, Fate>, todo: set<string>, name: string)
    requires name in todo && name in fates
    ensures Left(fates, todo - {name}) == if Stays(fates[name]) then Left(fates, todo) else Left(fates, todo) - {name}
  {
  }

  class Cache {
    var files: set<string>
    var saved: map<string, int>

    constructor ()
      ensures files == {} && saved == map[]
    {
      files, saved := {}, map[];
    }

    /** Visits one listed file, removing it once its mark has outlived the grace period. */
    method Visit(candidates: map<string, int>, name: string, referenced: bool, now: int, grace: int, removal: Removal)
      returns (after: map<string, int>, fate: Fate)
      modifies this`files
      ensures fate == Decide(MarkOf(candidates, name), referenced, now, grace, removal)
      ensures after == Visited(candidates, name, fate, now)
      ensures files == if Stays(fate) then old(files) else old(files) - {name}
    {
      if referenced { return candidates - {name}, InUse; }
      if name !in candidates { return candidates[name := now], NewlyMarked; }
      if SaturatingSub(now, candidates[name]) < grace { return candidates, InGrace; }
      match removal
      case Removed =>
        files := files - {name};
        return candidates - {name}, Deleted;
      case NotFound =>
        files := files - {name};
        return candidates - {name}, Vanished;
      case Refused =>
        return candidates, Failed;
    }

    /** Lists the files, drops the marks of absent ones, and visits each. */
    method Pass(referenced: set<string>, now: int, grace: int, removal: string -> Removal)
      returns (candidates: map<string, int>, stats: Stats)
      modifies this`files
      ensures var fates := Fates(old(files), saved, referenced, now, grace, removal);
        files == Left(fates, {}) && candidates == MarksAfter(fates, saved, now) && stats == Counted(fates)
    {
      ghost var all, fates := files, Fates(files, saved, referenced, now, grace, removal);
      candidates := map name | name in saved && name in files :: saved[name];
      stats := Stats(0, 0, 0, 0, 0);
      var todo := files;
      PassBegins(files, saved, fates, now);
      while todo != {}
        invariant Passing(all, saved, fates, now, todo, candidates, stats)
        invariant files == Left(fates, todo)
        decreases todo
      {
        var name :| name in todo;
        PassContinues(all, saved, fates, now, todo, candidates, stats, name);
        LeftOne(fates, todo, name);
        assert MarkOf(candidates, name) == MarkOf(saved, name);
        var fate;
        candidates, fate := Visit(candidates, name, name in referenced, now, grace, removal(name));
        assert fate == fates[name];
        stats := CountOne(stats, fate);
        todo := todo - {name};
      }
      PassEnds(all, saved, fates, now, candidates, stats);
    }

    /**
     * One pass. `mounted` says whether the directory exists, `removal` how the file system answers each removal,
     * and `written` whether a changed list of candidates could be saved.
     */
    method Collect(mounted: bool, referenced: set<string>, now: int, grace: int, removal: string -> Removal,
            written: bool)
      returns (ok: bool, stats: Stats)
      modifies this
      ensures grace < 0 || !mounted ==> files == old(files) && saved == old(saved) && (ok <==> grace >= 0)
      ensures grace >= 0 && mounted ==>
                var fates := Fates(old(files), old(saved), referenced, now, grace, removal);
                var after := MarksAfter(fates, old(saved), now);
                && files == Left(fates, {})
                && (ok <==> after == old(saved) || written)
                && saved == (if ok then after else old(saved))
                && (ok ==> stats == Counted(fates))
    {
      stats := Stats(0, 0, 0, 0, 0);
      if grace < 0 { return false, stats; }
      if !mounted { return true, stats; }
      var candidates;
      candidates, stats := Pass(referenced, now, grace, removal);
      ok := candidates == saved || written;
      if ok { saved := candidates; }
    }
  }

  // ----- runs -----

  /** A pass as it happened; between passes files come and go. */
  datatype Pass = Pass(mounted: bool, files: set<string>, referenced: set<string>, now: int, grace: nat,
                       removal: string -> Removal, written: bool)

  /** The directory was listed and the outcome saved. */
  predicate Complete(pass: Pass) { pass.mounted && pass.written }

  function Seen(pass: Pass): Event { Swept(pass.now, if pass.mounted then pass.files else {}, pass.referenced) }

  function FatesIn(pass: Pass, saved: map<string, int>): map<string, Fate> {
    if pass.mounted then Fates(pass.files, saved, pass.referenced, pass.now, pass.grace, pass.removal) else map[]
  }

  function SavedAfter(pass: Pass, saved: map<string, int>): map<string, int> {
    if Complete(pass) then MarksAfter(FatesIn(pass, saved), saved, pass.now) else saved
  }

  /** The saved marks and the passes seen so far. */
  datatype World = World(saved: map<string, int>, history: seq<Event>)

  function Step(w: World, pass: Pass): World {
    World(SavedAfter(pass, w.saved), w.history + [Seen(pass)])
  }

  function Run(passes: seq<Pass>): World {
    if passes == [] then World(map[], []) else Step(Run(passes[..|passes| - 1]), passes[|passes| - 1])
  }

  lemma {:induction false} RunNext(passes: seq<Pass>, k: nat)
    requires k < |passes|
    ensures Run(passes[..k + 1]) == Step(Run(passes[..k]), passes[k])
  {
    assert passes[..k + 1][..k] == passes[..k];
  }

  /** The pass completed, or every saved mark was quiet in it anyway. */
  ghost predicate Settled(pass: Pass, saved: map<string, int>) {
    Complete(pass) || forall name :: name in saved ==> Quiet(Seen(pass), name)
  }

  /** No event can be justified by marks older than an event that was not quiet. */
  lemma {:induction false} LoudEndsQuiet(history: seq<Event>, event: Event, name: string, since: int)
    requires !Quiet(event, name)
    ensures !QuietSince(history + [event], name, since)
  {
    var longer := history + [event];
    forall p | 0 <= p < |longer| ensures !QuietFrom(longer, p, name) {
      assert !Quiet(longer[|history|], name);
    }
  }

  /** From justified marks, a pass leaves justified marks if and only if it is settled. */
  lemma {:induction false} PassKeepsFaithful(w: World, pass: Pass)
    requires Faithful(w.history, w.saved)
    ensures Faithful(Step(w, pass).history, Step(w, pass).saved) <==> Settled(pass, w.saved)
  {
    if Settled(pass, w.saved) {
      assert Follows(Seen(pass), w.saved, SavedAfter(pass, w.saved));
      StillFaithful(w.history, Seen(pass), w.saved, SavedAfter(pass, w.saved));
    } else {
      var name :| name in w.saved && !Quiet(Seen(pass), name);
      LoudEndsQuiet(w.history, Seen(pass), name, w.saved[name]);
    }
  }

  /** Every pass of the run was settled in its state. */
  ghost predicate AllSettled(passes: seq<Pass>) {
    forall k :: 0 <= k < |passes| ==> Settled(passes[k], Run(passes[..k]).saved)
  }

  ghost predicate FaithfulAt(passes: seq<Pass>, k: nat)
    requires k <= |passes|
  {
    Faithful(Run(passes[..k]).history, Run(passes[..k]).saved)
  }

  lemma {:induction false} SettledIsFaithful(passes: seq<Pass>, k: nat)
    requires AllSettled(passes) && k <= |passes|
    ensures FaithfulAt(passes, k)
  {
    if k == 0 {
      assert passes[..0] == [];
    } else {
      var m := k - 1;
      SettledIsFaithful(passes, m);
      RunNext(passes, m);
      PassKeepsFaithful(Run(passes[..m]), passes[m]);
    }
  }

  /** The marks are justified after every part of a run if and only if every pass was settled. */
  lemma {:induction false} FaithfulExactly(passes: seq<Pass>)
    ensures (forall k :: 0 <= k <= |passes| ==> FaithfulAt(passes, k)) <==> AllSettled(passes)
  {
    if AllSettled(passes) {
      forall k | 0 <= k <= |passes| ensures FaithfulAt(passes, k) { SettledIsFaithful(passes, k); }
    }
    if forall k :: 0 <= k <= |passes| ==> FaithfulAt(passes, k) {
      forall k | 0 <= k < |passes| ensures Settled(passes[k], Run(passes[..k]).saved) {
        var m := k + 1;
        assert FaithfulAt(passes, k) && FaithfulAt(passes, m);
        RunNext(passes, k);
        PassKeepsFaithful(Run(passes[..k]), passes[k]);
      }
    }
  }

  predicate Deletes(pass: Pass, saved: map<string, int>, name: string) {
    var fates := FatesIn(pass, saved);
    name in fates && fates[name].Deleted?
  }

  /** The file is unreferenced now, and was present and unreferenced in every pass since a mark that old. */
  ghost predicate Rightly(w: World, pass: Pass, name: string) {
    Quiet(Seen(pass), name) && Justified(w.history, name, pass.now, pass.grace)
  }

  lemma {:induction false} FaithfulDeletes(w: World, pass: Pass, name: string)
    requires Faithful(w.history, w.saved) && pass.grace <= MAX_I64 && Deletes(pass, w.saved, name)
    ensures Rightly(w, pass, name)
  {
    SaturationHarmless(pass.now, w.saved[name], pass.grace);
    assert QuietSince(w.history, name, w.saved[name]);
  }

  /** After a run of settled passes, a file is deleted only if it was quiet for the grace period. */
  lemma {:induction false} DeletedAfterGrace(passes: seq<Pass>, pass: Pass, name: string)
    requires AllSettled(passes) && pass.grace <= MAX_I64 && Deletes(pass, Run(passes).saved, name)
    ensures Rightly(Run(passes), pass, name)
  {
    SettledIsFaithful(passes, |passes|);
    assert passes[..|passes|] == passes;
    FaithfulDeletes(Run(passes), pass, name);
  }

  /** A pass that deletes a marked file as soon as its mark allows. */
  function Sweeper(name: string, since: int): Pass { Pass(true, {name}, {}, since, 0, _ => Removed, true) }

  /** After an unsettled pass, the next one may delete a file that was not quiet. */
  lemma {:induction false} UnsettledDeletes(w: World, pass: Pass) returns (name: string)
    requires !Settled(pass, w.saved)
    ensures var after := Step(w, pass);
      && name in after.saved && Deletes(Sweeper(name, after.saved[name]), after.saved, name)
      && !Rightly(after, Sweeper(name, after.saved[name]), name)
  {
    name :| name in w.saved && !Quiet(Seen(pass), name);
    var after := Step(w, pass);
    SaturationHarmless(after.saved[name], after.saved[name], 0);
    forall since ensures !QuietSince(after.history, name, since) {
      LoudEndsQuiet(w.history, Seen(pass), name, since);
    }
  }

  /** Every deletion that any part of a run could be followed by is right. */
  ghost predicate AllRight(passes: seq<Pass>) {
    forall k, pass: Pass, name :: 0 <= k <= |passes| && pass.grace <= MAX_I64 && Deletes(pass, Run(passes[..k]).saved, name) ==>
      Rightly(Run(passes[..k]), pass, name)
  }

  /** The exact condition: deletions are right after every part of a run if and only if every pass was settled. */
  lemma {:induction false} DeletionsAreRightExactly(passes: seq<Pass>)
    ensures AllRight(passes) <==> AllSettled(passes)
  {
    if AllSettled(passes) {
      forall k, pass: Pass, name | 0 <= k <= |passes| && pass.grace <= MAX_I64 && Deletes(pass, Run(passes[..k]).saved, name)
        ensures Rightly(Run(passes[..k]), pass, name)
      {
        SettledIsFaithful(passes, k);
        FaithfulDeletes(Run(passes[..k]), pass, name);
      }
    } else {
      var k :| 0 <= k < |passes| && !Settled(passes[k], Run(passes[..k]).saved);
      var name := UnsettledDeletes(Run(passes[..k]), passes[k]);
      var m := k + 1;
      RunNext(passes, k);
      var w := Run(passes[..m]);
      assert Deletes(Sweeper(name, w.saved[name]), w.saved, name) && !Rightly(w, Sweeper(name, w.saved[name]), name);
    }
  }

  /** If saving fails after a pass that saw a file referenced, the next pass deletes it on its old mark. */
  lemma {:induction false} LostWriteDeletesEarly()
    ensures var always: string -> Removal := _ => Removed;
      var first := Pass(true, {"a"}, {}, 0, 10, always, true);
      var second := Pass(true, {"a"}, {"a"}, 10, 10, always, false);
      var third := Pass(true, {"a"}, {}, 11, 10, always, true);
      var w := Run([first, second]);
      Deletes(third, w.saved, "a") && !Rightly(w, third, "a")
  {
    var always: string -> Removal := _ => Removed;
    var first := Pass(true, {"a"}, {}, 0, 10, always, true);
    var second := Pass(true, {"a"}, {"a"}, 10, 10, always, false);
    var passes := [first, second];
    RunNext(passes, 0);
    RunNext(passes, 1);
    assert passes[..0] == [] && passes[..2] == passes;
    var w1, w := Run(passes[..1]), Run(passes);
    assert SavedAfter(first, map[]) == map["a" := 0];
    forall since ensures !QuietSince(w.history, "a", since) {
      LoudEndsQuiet(w1.history, Seen(second), "a", since);
    }
  }

  // ----- what a pass does, file by file -----

  /** Unreferenced, with a mark as old as the grace period. */
  predicate Overdue(pass: Pass, saved: map<string, int>, name: string) {
    name !in pass.referenced && name in saved && pass.now - saved[name] >= pass.grace
  }

  /**
   * A file goes exactly if it is overdue and its removal is not refused. A file that stays keeps its mark, or gets one,
   * exactly if it is unreferenced.
   */
  lemma {:induction false} PassExactly(pass: Pass, saved: map<string, int>, name: string)
    requires pass.mounted && pass.grace <= MAX_I64 && name in pass.files
    ensures var fates := FatesIn(pass, saved);
      var stays, marks := name in Left(fates, {}), MarksAfter(fates, saved, pass.now);
      && (stays <==> !(Overdue(pass, saved, name) && pass.removal(name) != Refused))
      && (name in marks <==> stays && name !in pass.referenced)
      && (name in marks ==> marks[name] == if name in saved then saved[name] else pass.now)
  {
    if name in saved { SaturationHarmless(pass.now, saved[name], pass.grace); }
  }

  /** A pass leaves and marks only files that were there. */
  lemma {:induction false} PassAddsNone(pass: Pass, saved: map<string, int>)
    requires pass.mounted
    ensures var fates := FatesIn(pass, saved);
      Left(fates, {}) <= pass.files && MarksAfter(fates, saved, pass.now).Keys <= pass.files
  {
  }

  /** The counters of a pass. */
  lemma {:induction false} CountedExactly(pass: Pass, saved: map<string, int>)
    requires pass.mounted && pass.grace <= MAX_I64
    ensures var stats := Counted(FatesIn(pass, saved));
      && stats.referenced == |pass.files * pass.referenced|
      && stats.marked == |set name | name in pass.files && name !in pass.referenced && name !in saved|
      && stats.deleted == |set name | name in pass.files && Overdue(pass, saved, name) && pass.removal(name) == Removed|
      && stats.failures == |set name | name in pass.files && Overdue(pass, saved, name) && pass.removal(name) == Refused|
  {
    var fates := FatesIn(pass, saved);
    forall name | name in pass.files && name in saved
      ensures SaturatingSub(pass.now, saved[name]) >= pass.grace <==> pass.now - saved[name] >= pass.grace
    {
      SaturationHarmless(pass.now, saved[name], pass.grace);
    }
    assert Having(fates, InUse) == pass.files * pass.referenced;
    assert Having(fates, NewlyMarked) == set name | name in pass.files && name !in pass.referenced && name !in saved;
    assert Having(fates, Deleted)
           == set name | name in pass.files && Overdue(pass, saved, name) && pass.removal(name) == Removed;
    assert Having(fates, Failed)
           == set name | name in pass.files && Overdue(pass, saved, name) && pass.removal(name) == Refused;
  }
}
