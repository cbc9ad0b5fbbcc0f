/** The reconcile pass as the controller runs it, on its task map and cursors in place. */
module Controller {
  import opened Wrappers
  import opened Cluster
  import opened Ordering
  import opened Scheduler
  import opened Convergence
  import opened Jobs
  import opened Reconcile
  import opened JobRules

  /** Tasks stay or leave the running state for good; new ones may appear. */
  ghost predicate Progress(before: Tasks, after: Tasks) {
    forall id :: id in before ==>
      id in after && (after[id] == before[id] || (before[id].desired.Running? && !after[id].desired.Running?))
  }

  lemma {:induction false} ProgressTransitive(a: Tasks, b: Tasks, c: Tasks)
    requires Progress(a, b) && Progress(b, c)
    ensures Progress(a, c) && (a != b ==> a != c)
  {
    if a != b {
      if id :| id in a && b[id] != a[id] {
        assert c[id] == b[id];
      } else {
        assert a.Keys <= b.Keys;
        assert a.Keys != b.Keys;
      }
    }
  }

  lemma {:induction false} RetireProgress(tasks: Tasks, ids: set<Id>, routed: bool)
    ensures Progress(tasks, Retire(tasks, ids, routed))
    ensures Retire(tasks, ids, routed) != tasks <==> exists id :: id in ids && id in tasks && tasks[id].desired.Running?
  {
    var r := Retire(tasks, ids, routed);
    if id :| id in ids && id in tasks && tasks[id].desired.Running? {
      assert r[id] != tasks[id];
    } else {
      assert r == tasks;
    }
  }

  lemma {:induction false} RetireTwice(tasks: Tasks, a: set<Id>, b: set<Id>, routed: bool)
    ensures Retire(Retire(tasks, a, routed), b, routed) == Retire(tasks, a + b, routed)
  {
  }

  lemma {:induction false} TailElements(ids: seq<Id>, n: nat)
    requires 0 < n <= |ids|
    ensures Elements(ids[n - 1..]) == Elements(ids[n..]) + {ids[n - 1]}
  {
    assert ids[n - 1..] == [ids[n - 1]] + ids[n..];
    ElementsConcat([ids[n - 1]], ids[n..]);
  }

  lemma {:induction false} RetireMore(tasks: Tasks, ids: set<Id>, id: Id, routed: bool)
    ensures var mid := Retire(tasks, ids, routed);
      && Retire(mid, {id}, routed) == Retire(tasks, ids + {id}, routed)
      && (Retire(tasks, ids + {id}, routed) != tasks <==> mid != tasks || Retire(mid, {id}, routed) != mid)
  {
    var mid := Retire(tasks, ids, routed);
    RetireTwice(tasks, ids, {id}, routed);
    RetireProgress(tasks, ids, routed);
    RetireProgress(mid, {id}, routed);
    ProgressTransitive(tasks, mid, Retire(mid, {id}, routed));
  }

  /** A map part way through a visit of every entry: those in `todo` are as before, the others rewritten. */
  ghost function Mixed<V>(before: map<Id, V>, f: (Id, V) -> V, todo: set<Id>): map<Id, V> {
    map id | id in before :: if id in todo then before[id] else f(id, before[id])
  }

  lemma {:induction false} MixedStep<V>(before: map<Id, V>, f: (Id, V) -> V, todo: set<Id>, id: Id)
    requires id in todo && todo <= before.Keys
    ensures var mixed, next := Mixed(before, f, todo), Mixed(before, f, todo - {id});
      && id in mixed && mixed[id] == before[id]
      && next == mixed[id := f(id, before[id])]
      && (f(id, before[id]) == before[id] ==> next == mixed)
      && (next != before <==> mixed != before || f(id, before[id]) != before[id])
  {
    var mixed, next := Mixed(before, f, todo), Mixed(before, f, todo - {id});
    if mixed != before {
      assert exists x :: x in before && mixed[x] != before[x];
      var x :| x in before && mixed[x] != before[x];
      assert next[x] != before[x];
    }
    if f(id, before[id]) != before[id] { assert next[id] != before[id]; }
    if f(id, before[id]) == before[id] { assert next == mixed; }
  }

  lemma {:induction false} MixedEnds<V>(before: map<Id, V>, f: (Id, V) -> V)
    ensures Mixed(before, f, before.Keys) == before
    ensures Mixed(before, f, {}) == map id | id in before :: f(id, before[id])
  {
  }

  class ClusterState {
    var config: Config
    var cursors: map<Id, Cursor>
    var tasks: Tasks
    ghost var log: seq<Created>

    constructor (config: Config, cursors: map<Id, Cursor>, tasks: Tasks)
      ensures this.config == config && this.cursors == cursors && this.tasks == tasks && this.log == []
    {
      this.config, this.cursors, this.tasks, this.log := config, cursors, tasks, [];
    }

    // ----- lost tasks and drains -----

    method StopLostTasks(live: set<Id>) returns (changed: bool)
      modifies this`tasks
      ensures tasks == StopLost(config, live, old(tasks))
      ensures changed <==> tasks != old(tasks)
    {
      changed := false;
      var todo := tasks.Keys;
      ghost var c := config;
      ghost var stop := (id: Id, t: Task) => StopLostTask(c, live, id, t);
      MixedEnds(tasks, stop);
      while todo != {}
        invariant todo <= old(tasks).Keys && tasks == Mixed(old(tasks), stop, todo)
        invariant changed <==> tasks != old(tasks)
        decreases |todo|
      {
        var id :| id in todo;
        MixedStep(old(tasks), stop, todo, id);
        var t := tasks[id];
        if IsLost(config, live, id, t) {
          tasks := tasks[id := t.(desired := Stopped, observed := if t.node in live then t.observed else Lost)];
          changed := true;
        }
        todo := todo - {id};
      }
    }

    method FinishDrainingTasks(now: int) returns (changed: bool)
      modifies this`tasks
      ensures tasks == FinishDrains(old(tasks), now)
      ensures changed <==> tasks != old(tasks)
    {
      changed := false;
      var todo := tasks.Keys;
      ghost var finish := (id: Id, t: Task) => FinishDrain(t, now);
      MixedEnds(tasks, finish);
      while todo != {}
        invariant todo <= old(tasks).Keys && tasks == Mixed(old(tasks), finish, todo)
        invariant changed <==> tasks != old(tasks)
        decreases |todo|
      {
        var id :| id in todo;
        MixedStep(old(tasks), finish, todo, id);
        var t := tasks[id];
        if t.desired.Draining? && t.drainUntil.Some? && t.drainUntil.value <= now {
          tasks := tasks[id := t.(desired := Stopped)];
          changed := true;
        }
        todo := todo - {id};
      }
    }

    // ----- retirement -----

    method RetireOne(id: Id, sid: Id) returns (changed: bool)
      requires id in tasks
      modifies this`tasks
      ensures tasks == Retire(old(tasks), {id}, sid in config.httpRouted)
      ensures changed <==> tasks != old(tasks)
    {
      var routed := sid in config.httpRouted;
      RetireProgress(tasks, {id}, routed);
      changed := tasks[id].desired.Running?;
      if changed {
        tasks := tasks[id := RetireTask(tasks[id], routed)];
      }
      assert tasks == Retire(old(tasks), {id}, routed);
    }

    method RetireIds(ids: seq<Id>, sid: Id) returns (changed: bool)
      requires Elements(ids) <= tasks.Keys
      modifies this`tasks
      ensures tasks == Retire(old(tasks), Elements(ids), sid in config.httpRouted)
      ensures changed <==> tasks != old(tasks)
    {
      changed := false;
      ghost var routed := sid in config.httpRouted;
      assert Retire(tasks, {}, routed) == tasks;
      for i := 0 to |ids|
        invariant tasks == Retire(old(tasks), Elements(ids[..i]), routed)
        invariant changed <==> tasks != old(tasks)
      {
        assert ids[i] in Elements(ids);
        assert ids[..i + 1] == ids[..i] + [ids[i]];
        var c := RetireOne(ids[i], sid);
        ElementsConcat(ids[..i], [ids[i]]);
        RetireMore(old(tasks), Elements(ids[..i]), ids[i], routed);
        changed := changed || c;
      }
      assert ids[..|ids|] == ids;
    }

    /** Pops and retires the last ids until at most `keep` are left. */
    method PopDown(ids: seq<Id>, keep: nat, sid: Id) returns (left: seq<Id>, changed: bool)
      requires Elements(ids) <= tasks.Keys
      modifies this`tasks
      ensures left == ids[..Min(|ids|, keep)]
      ensures tasks == Retire(old(tasks), Elements(ids[|left|..]), sid in config.httpRouted)
      ensures changed <==> tasks != old(tasks)
    {
      changed := false;
      var n := |ids|;
      ghost var routed := sid in config.httpRouted;
      assert Retire(tasks, {}, routed) == tasks;
      while n > keep
        invariant Min(|ids|, keep) <= n <= |ids|
        invariant tasks == Retire(old(tasks), Elements(ids[n..]), routed)
        invariant changed <==> tasks != old(tasks)
      {
        assert ids[n - 1] in Elements(ids);
        var c := RetireOne(ids[n - 1], sid);
        TailElements(ids, n);
        RetireMore(old(tasks), Elements(ids[n..]), ids[n - 1], routed);
        n, changed := n - 1, changed || c;
      }
      left := ids[..n];
    }

    // ----- placement -----

    method AllocateTaskPorts(requested: seq<Port>, sid: Id) returns (ports: seq<Port>)
      ensures ports == AllocatePorts(requested, GatewayPorts(config, sid))
    {
      ports := requested;
      var targets := GatewayPorts(config, sid);
      for i := 0 to |targets|
        invariant AllocatePorts(ports, targets[i..]) == AllocatePorts(requested, targets)
      {
        if !exists j :: 0 <= j < |ports| && ports[j].target == targets[i] && ports[j].protocol == "tcp" {
          ports := ports + [Port(targets[i], None, "tcp")];
        }
        assert targets[i..][1..] == targets[i + 1..];
      }
    }

    /** The preferred node of a nonempty set, by a linear scan. */
    method FindBest(sid: Id, svc: Service, nodes: set<Id>) returns (node: Id)
      requires nodes != {}
      ensures node == Best(sid, svc, tasks, nodes)
    {
      node :| node in nodes;
      var seen, rest := {node}, nodes - {node};
      while rest != {}
        invariant seen + rest == nodes && IsBest(sid, svc, tasks, seen, node)
        decreases |rest|
      {
        var m :| m in rest;
        if Preferred(sid, svc, tasks, m, node) {
          forall x | x in seen && x != m ensures Preferred(sid, svc, tasks, m, x) {
            if x != node { PreferredTransitive(sid, svc, tasks, m, node, x); }
          }
          node := m;
        } else {
          BeforeTotal(node, m);
        }
        seen, rest := seen + {m}, rest - {m};
      }
      assert seen == nodes;
      BestUnique(sid, svc, tasks, nodes, node, Best(sid, svc, tasks, nodes));
    }

    method FindPlacement(sid: Id, svc: Service, live: set<Id>) returns (r: Option<Task>)
      ensures r == ScheduleTask(config, live, sid, svc, tasks)
      ensures r.Some? ==>
                && r.value.node in live && r.value.node in config.nodes
                && Admits(svc.spec.constraints, r.value.node, config.nodes[r.value.node].labels)
    {
      var nodes := Candidates(config, live, sid, svc, tasks);
      if nodes == {} { return None; }
      var node := FindBest(sid, svc, nodes);
      var slot := FreeSlot(UsedSlots(sid, svc, tasks), 0, svc.spec.replicas);
      if slot.None? { return None; }
      var ports := AllocateTaskPorts(svc.spec.ports, sid);
      AdmitsExactly(svc.spec.constraints, node, config.nodes[node]);
      r := Some(Task(sid, svc.revision, slot.value, node, Desired.Running, Pending, ports, None, None));
    }

    method PlaceUpTo(n: nat, sid: Id, svc: Service, live: set<Id>, ids: set<Id> -> Id) returns (changed: bool)
      requires Fresh(ids)
      modifies this`tasks
      ensures tasks == Place(config, live, sid, svc, old(tasks), n, ids)
      ensures Progress(old(tasks), tasks)
      ensures changed <==> tasks != old(tasks)
    {
      changed := false;
      for k := 0 to n
        invariant Place(config, live, sid, svc, tasks, n - k, ids) == Place(config, live, sid, svc, old(tasks), n, ids)
        invariant Progress(old(tasks), tasks)
        invariant changed <==> tasks != old(tasks)
      {
        var r := FindPlacement(sid, svc, live);
        if r.None? { return; }
        var id := ids(tasks.Keys);
        ghost var before := tasks;
        tasks := tasks[id := r.value];
        assert id in tasks && id !in before;
        ProgressTransitive(old(tasks), before, tasks);
        changed := true;
      }
    }

    // ----- one service -----

    method RetireViolating(sid: Id, svc: Service) returns (changed: bool)
      modifies this`tasks
      ensures tasks == WithoutViolating(config, sid, svc, old(tasks))
      ensures changed <==> tasks != old(tasks)
    {
      var violating := SortIds(Violating(config, sid, svc, tasks));
      OrderedContents(Violating(config, sid, svc, tasks));
      changed := RetireIds(violating, sid);
    }

    method ScaleDown(sid: Id, svc: Service, live: set<Id>) returns (kept: seq<Id>, changed: bool)
      modifies this`tasks
      ensures Elements(kept) == KeepSmallest(Current(live, sid, svc, old(tasks)), svc.spec.replicas)
      ensures |kept| == |Elements(kept)|
      ensures tasks == ScaledDown(config, live, sid, svc, old(tasks))
      ensures changed <==> tasks != old(tasks)
    {
      var current := SortIds(Current(live, sid, svc, tasks));
      kept, changed := PopSorted(current, Current(live, sid, svc, tasks), svc.spec.replicas, sid);
    }

    method ReplaceOld(sid: Id, svc: Service, live: set<Id>, keep: nat) returns (kept: seq<Id>, changed: bool)
      modifies this`tasks
      ensures Sorted(kept) && Elements(kept) == KeepSmallest(Old(live, sid, svc, old(tasks)), keep)
      ensures tasks == OldReplaced(config, live, sid, svc, old(tasks), keep)
      ensures changed <==> tasks != old(tasks)
    {
      var former := SortIds(Old(live, sid, svc, tasks));
      kept, changed := PopSorted(former, Old(live, sid, svc, tasks), keep, sid);
    }

    /** Retires what the constraints, the replica count and the rollout no longer want. */
    method RetireVictims(sid: Id, svc: Service, live: set<Id>) returns (changed: bool)
      modifies this`tasks
      ensures tasks == Retire(old(tasks), Victims(config, live, sid, svc, old(tasks)), sid in config.httpRouted)
      ensures changed <==> tasks != old(tasks)
    {
      ghost var t0 := tasks;
      var c1 := RetireViolating(sid, svc);
      ghost var t1 := tasks;
      var current, c2 := ScaleDown(sid, svc, live);
      ghost var t2 := tasks;
      ghost var kept := Elements(current);
      var serving := |Serving(Elements(current), tasks)|;
      var former, c3 := ReplaceOld(sid, svc, live, Surplus(svc.spec.replicas, serving));
      ghost var t3 := tasks;
      VictimStages(config, live, sid, svc, t0);
      var c4 := false;
      if svc.spec.maxSurge == 0 && former != [] && |current| < svc.spec.replicas {
        SortedFirst(former);
        c4 := RetireOne(former[0], sid);
      } else {
        assert former == [] <==> Elements(former) == {} by {
          if former != [] { assert former[0] in Elements(former); }
        }
      }
      changed := c1 || c2 || c3 || c4;
    }

    /** Pops a sorted list of the ids in `s` down to the `keep` smallest. */
    method PopSorted(ids: seq<Id>, ghost s: set<Id>, keep: nat, sid: Id) returns (left: seq<Id>, changed: bool)
      requires ids == Ordered(s) && s <= tasks.Keys
      modifies this`tasks
      ensures Sorted(left) && Elements(left) == KeepSmallest(s, keep) && |left| == |Elements(left)|
      ensures tasks == Retire(old(tasks), s - KeepSmallest(s, keep), sid in config.httpRouted)
      ensures changed <==> tasks != old(tasks)
    {
      OrderedContents(s);
      OrderedIsSorted(s);
      left, changed := PopDown(ids, keep, sid);
      assert ids[..|ids|] == ids;
      PrefixIsSmallest(ids, |ids|, keep);
      PrefixSplit(ids, |left|);
      SortedPrefix(ids, |left|);
      SortedSize(left);
    }

    /** Creates what the replica count and the surge limit still allow. */
    method CreateMissing(sid: Id, svc: Service, live: set<Id>, ids: set<Id> -> Id) returns (changed: bool)
      requires Fresh(ids)
      modifies this`tasks
      ensures tasks == Place(config, live, sid, svc, old(tasks), Quota(live, sid, svc, old(tasks)), ids)
      ensures Progress(old(tasks), tasks)
      ensures changed <==> tasks != old(tasks)
    {
      var occupying := |Occupying(live, sid, tasks)|;
      var current := |Current(live, sid, svc, tasks)|;
      var limit := svc.spec.replicas + if Old(live, sid, svc, tasks) != {} then svc.spec.maxSurge else 0;
      var n := Min(Surplus(svc.spec.replicas, current), Surplus(limit, occupying));
      changed := PlaceUpTo(n, sid, svc, live, ids);
    }

    method ReconcileOne(sid: Id, svc: Service, live: set<Id>, ids: set<Id> -> Id) returns (changed: bool)
      requires Fresh(ids)
      modifies this`tasks
      ensures tasks == ReconcileService(config, live, sid, svc, old(tasks), ids)
      ensures Progress(old(tasks), tasks)
      ensures changed <==> tasks != old(tasks)
    {
      ghost var before := tasks;
      var c1 := RetireVictims(sid, svc, live);
      ghost var retired := tasks;
      RetireProgress(before, Victims(config, live, sid, svc, before), sid in config.httpRouted);
      var c2 := CreateMissing(sid, svc, live, ids);
      ProgressTransitive(before, retired, tasks);
      changed := c1 || c2;
    }

    method StopAll(sid: Id) returns (changed: bool)
      modifies this`tasks
      ensures tasks == Retire(old(tasks), Members(sid, old(tasks)), sid in config.httpRouted)
      ensures Progress(old(tasks), tasks)
      ensures changed <==> tasks != old(tasks)
    {
      var members := SortIds(Members(sid, tasks));
      OrderedContents(Members(sid, tasks));
      RetireProgress(tasks, Members(sid, tasks), sid in config.httpRouted);
      changed := RetireIds(members, sid);
    }

    method ReconcileServices(order: seq<Id>, live: set<Id>, ids: set<Id> -> Id) returns (changed: bool)
      requires Fresh(ids) && forall i :: 0 <= i < |order| ==> order[i] in config.services
      modifies this`tasks
      ensures tasks == StepServices(config, live, order, old(tasks), ids)
      ensures changed <==> tasks != old(tasks)
    {
      changed := false;
      for i := 0 to |order|
        invariant StepServices(config, live, order[i..], tasks, ids) == StepServices(config, live, order, old(tasks), ids)
        invariant Progress(old(tasks), tasks)
        invariant changed <==> tasks != old(tasks)
      {
        var sid := order[i];
        var svc := config.services[sid];
        ghost var before := tasks;
        assert order[i..][1..] == order[i + 1..];
        if svc.spec.job.None? && sid !in config.restartingServices {
          var c;
          if svc.deleted || svc.spec.replicas == 0 {
            c := StopAll(sid);
          } else {
            c := ReconcileOne(sid, svc, live, ids);
          }
          ProgressTransitive(old(tasks), before, tasks);
          changed := changed || c;
        }
      }
    }

    // ----- jobs -----

    ghost function JobView(): JobState
      reads this
    {
      JobState(cursors, tasks, log)
    }

    method ExpireExecution(t: Task, live: set<Id>, now: int) returns (r: Task)
      ensures r == ExpireTask(config, live, now, t)
    {
      r := t;
      if t.job.Some? {
        var missed := now >= t.job.value.startDeadline && (t.observed.Pending? || t.observed.Unknown?);
        if (Orphaned(config, t.service) || missed) && !t.desired.Stopped? {
          r := r.(desired := Stopped);
        }
        if t.node !in live && !t.observed.JobTerminal() && !t.observed.Unknown? {
          r := r.(observed := Unknown);
        }
      }
    }

    method ExpireExecutions(live: set<Id>, now: int) returns (changed: bool)
      modifies this`tasks
      ensures tasks == ExpireTasks(config, live, now, old(tasks))
      ensures changed <==> tasks != old(tasks)
    {
      changed := false;
      var todo := tasks.Keys;
      ghost var c := config;
      ghost var expire := (id: Id, t: Task) => ExpireTask(c, live, now, t);
      MixedEnds(tasks, expire);
      while todo != {}
        invariant todo <= old(tasks).Keys && tasks == Mixed(old(tasks), expire, todo)
        invariant changed <==> tasks != old(tasks)
        decreases |todo|
      {
        var id :| id in todo;
        MixedStep(old(tasks), expire, todo, id);
        var r := ExpireExecution(tasks[id], live, now);
        if r != tasks[id] {
          tasks := tasks[id := r];
          changed := true;
        }
        todo := todo - {id};
      }
    }

    /** The longest time the job's unfinished executions may take to stop. */
    method MeasureGrace(sid: Id) returns (grace: int)
      ensures grace == Grace(sid, tasks)
    {
      grace := 0;
      var todo := tasks.Keys;
      LongestStopIsGrace(tasks, Unfinished(sid, tasks) - todo);
      while todo != {}
        invariant todo <= tasks.Keys
        invariant grace == LongestStop(tasks, Unfinished(sid, tasks) - todo)
        decreases |todo|
      {
        var id :| id in todo;
        GraceStep(sid, tasks, todo, id);
        if IsJobTask(sid, tasks[id]) && !tasks[id].observed.JobTerminal() {
          grace := Max(grace, StopTime(tasks[id]));
        }
        todo := todo - {id};
      }
      assert Unfinished(sid, tasks) - todo == Unfinished(sid, tasks);
    }

    method StopExecutions(sid: Id)
      modifies this`tasks
      ensures tasks == StopJobs(sid, old(tasks))
    {
      var todo := tasks.Keys;
      ghost var stop := (id: Id, t: Task) => StopJob(sid, t);
      MixedEnds(tasks, stop);
      while todo != {}
        invariant todo <= old(tasks).Keys && tasks == Mixed(old(tasks), stop, todo)
        decreases |todo|
      {
        var id :| id in todo;
        MixedStep(old(tasks), stop, todo, id);
        if IsJobTask(sid, tasks[id]) {
          tasks := tasks[id := tasks[id].(desired := Stopped)];
        }
        todo := todo - {id};
      }
    }

    method Trigger(sid: Id, live: set<Id>, now: int, cron: Cron, ids: set<Id> -> Id) returns (changed: bool)
      requires sid in config.services && Fresh(ids)
      modifies this`cursors, this`tasks, this`log
      ensures JobView() == TriggerJob(config, live, now, cron, sid, old(JobView()), ids)
      ensures !changed ==> JobView() == old(JobView())
      ensures Advances(cron) ==> AddedWait(old(tasks), sid, now, tasks)
    {
      changed := false;
      var svc := config.services[sid];
      if svc.deleted || svc.spec.job.None? || svc.spec.job.value.schedule.None? { return; }
      var policy := svc.spec.job.value;
      if PolicyChanged(cursors, sid, policy.schedule.value, policy.timeZone) || policy.suspend {
        var moved := MovedCursor(cursors, sid, policy, now, cron);
        if moved.Some? {
          if sid in cursors && cursors[sid] == moved.value {
            assert cursors[sid := moved.value] == cursors;
          } else {
            cursors := cursors[sid := moved.value];
            changed := true;
          }
        }
        return;
      }
      var scheduled := cursors[sid].nextAt;
      if scheduled > now { return; }
      var next := cron(policy, now);
      if next.None? { return; }
      cursors := cursors[sid := cursors[sid].(nextAt := next.value, last := Some(scheduled))];
      changed := true;
      if now - scheduled >= MISSED_AFTER_MS { return; }
      var grace := MeasureGrace(sid);
      StopExecutions(sid);
      var placed := FindPlacement(sid, SingleReplica(svc), JobNodes(config, live));
      if placed.Some? {
        var execution := NewExecution(svc, scheduled, now, next.value, grace);
        var id := ids(tasks.Keys);
        tasks := tasks[id := placed.value.(job := Some(execution))];
        log := log + [Created(sid, id, execution, now)];
      }
      TriggeredWaits(config, live, now, cron, sid, old(JobView()), ids);
    }

    method FindEarliest(sid: Id, left: set<Id>) returns (m: Id)
      requires left != {} && left <= Finished(sid, tasks)
      ensures m == Earliest(sid, tasks, left)
    {
      m :| m in left;
      var seen, rest := {m}, left - {m};
      while rest != {}
        invariant seen + rest == left && IsEarliest(sid, tasks, seen, m)
        decreases |rest|
      {
        var x :| x in rest;
        BeforeTotal(x, m);
        if Earlier(sid, tasks, x, m) {
          EarliestMoves(sid, tasks, seen, m, x);
          m := x;
        }
        seen, rest := seen + {x}, rest - {x};
      }
      assert seen == left;
      EarliestUnique(sid, tasks, left, m, Earliest(sid, tasks, left));
    }

    /** The finished executions that the history limit keeps. */
    method KeepRecent(sid: Id) returns (left: set<Id>)
      ensures left == Recent(sid, tasks, Finished(sid, tasks), HISTORY) && left <= Finished(sid, tasks)
    {
      left := Finished(sid, tasks);
      while |left| > HISTORY
        invariant left <= Finished(sid, tasks)
        invariant Recent(sid, tasks, left, HISTORY) == Recent(sid, tasks, Finished(sid, tasks), HISTORY)
        decreases |left|
      {
        var m := FindEarliest(sid, left);
        left := left - {m};
      }
    }

    /** Removes the earliest finished executions beyond the history limit. */
    method PruneHistory(sid: Id) returns (changed: bool)
      modifies this`tasks
      ensures tasks == Prune(sid, old(tasks))
      ensures changed <==> tasks != old(tasks)
    {
      var left := KeepRecent(sid);
      var gone := Finished(sid, tasks) - left;
      changed := gone != {};
      RemovalChanges(tasks, gone);
      tasks := tasks - gone;
    }

    /** The jobs' half of a pass. */
    method ReconcileJobs(order: seq<Id>, live: set<Id>, now: int, cron: Cron,
            ids: set<Id> -> Id) returns (changed: bool)
      requires Fresh(ids) && forall i :: 0 <= i < |order| ==> order[i] in config.services
      modifies this`cursors, this`tasks, this`log
      ensures JobView() == JobPass(config, live, now, cron, order, old(JobView()), ids)
      ensures !changed ==> JobView() == old(JobView())
    {
      changed := ExpireExecutions(live, now);
      ghost var expired := JobView();
      for i := 0 to |order|
        invariant TriggerJobs(config, live, now, cron, order[i..], JobView(), ids)
                  == TriggerJobs(config, live, now, cron, order, expired, ids)
        invariant !changed ==> JobView() == old(JobView())
      {
        assert order[i..][1..] == order[i + 1..];
        var c := Trigger(order[i], live, now, cron, ids);
        changed := changed || c;
      }
      ghost var triggered := JobView();
      for i := 0 to |order|
        invariant PruneAll(order[i..], tasks) == PruneAll(order, triggered.tasks)
        invariant cursors == triggered.cursors && log == triggered.log
        invariant !changed ==> JobView() == old(JobView())
      {
        assert order[i..][1..] == order[i + 1..];
        var c := PruneHistory(order[i]);
        changed := changed || c;
      }
    }

    method SkipMissedOccurrences(now: int, cron: Cron) returns (changed: bool)
      requires Advances(cron)
      modifies this`cursors
      ensures cursors == SkipMissed(config, now, cron, old(cursors))
      ensures changed <==> cursors != old(cursors)
    {
      changed := false;
      var todo := cursors.Keys;
      ghost var c := config;
      ghost var skip := (sid: Id, cursor: Cursor) => SkipMissedCursor(c, now, cron, sid, cursor);
      MixedEnds(cursors, skip);
      while todo != {}
        invariant todo <= old(cursors).Keys && cursors == Mixed(old(cursors), skip, todo)
        invariant changed <==> cursors != old(cursors)
        decreases |todo|
      {
        var sid :| sid in todo;
        MixedStep(old(cursors), skip, todo, sid);
        if sid in config.services && config.services[sid].spec.job.Some? && cursors[sid].nextAt <= now {
          var next := cron(config.services[sid].spec.job.value, now);
          if next.Some? {
            cursors := cursors[sid := cursors[sid].(nextAt := next.value)];
            changed := true;
          }
        }
        todo := todo - {sid};
      }
    }

    /** One reconcile pass. A pass that reports no change has changed nothing. */
    method ReconcilePass(live: set<Id>, now: int, cron: Cron, ids: set<Id> -> Id) returns (changed: bool)
      requires Fresh(ids)
      modifies this`cursors, this`tasks, this`log
      ensures Elements(Ordered(config.services.Keys)) == config.services.Keys
      ensures JobView() == Full(config, live, now, cron, Ordered(config.services.Keys), old(JobView()), ids)
      ensures !changed ==> JobView() == old(JobView())
    {
      var order := SortIds(config.services.Keys);
      OrderedContents(config.services.Keys);
      forall i | 0 <= i < |order| ensures order[i] in config.services {
        assert order[i] in Elements(order);
      }
      var c1 := ReconcileJobs(order, live, now, cron, ids);
      var c2 := StopLostTasks(live);
      var c3 := ReconcileServices(order, live, ids);
      changed := c1 || c2 || c3;
    }
  }

  // ----- job executions -----

  lemma {:induction false} RemovalChanges(tasks: Tasks, gone: set<Id>)
    requires gone <= tasks.Keys
    ensures tasks - gone != tasks <==> gone != {}
  {
    if gone != {} {
      var id :| id in gone;
      assert id in tasks && id !in tasks - gone;
    } else {
      assert tasks - gone == tasks;
    }
  }

  lemma {:induction false} GraceGrows(tasks: Tasks, ids: set<Id>, id: Id, g: int)
    requires ids <= tasks.Keys && id in tasks && id !in ids && IsGrace(tasks, ids, g) && tasks[id].job.Some?
    ensures IsGrace(tasks, ids + {id}, Max(g, StopTime(tasks[id])))
  {
    assert id in ids + {id};
    if ids != {} {
      var x :| x in ids && StopTime(tasks[x]) == g;
      assert x in ids + {id};
    }
  }

  lemma {:induction false} GraceStep(sid: Id, tasks: Tasks, todo: set<Id>, id: Id)
    requires todo <= tasks.Keys && id in todo
    ensures var g := LongestStop(tasks, Unfinished(sid, tasks) - todo);
      LongestStop(tasks, Unfinished(sid, tasks) - (todo - {id}))
      == if id in Unfinished(sid, tasks) then Max(g, StopTime(tasks[id])) else g
  {
    var done := Unfinished(sid, tasks) - todo;
    LongestStopIsGrace(tasks, done);
    if id in Unfinished(sid, tasks) {
      assert Unfinished(sid, tasks) - (todo - {id}) == done + {id};
      GraceGrows(tasks, done, id, LongestStop(tasks, done));
      LongestStopIsGrace(tasks, done + {id});
      GraceUnique(tasks, done + {id}, LongestStop(tasks, done + {id}), Max(LongestStop(tasks, done), StopTime(tasks[id])));
    } else {
      assert Unfinished(sid, tasks) - (todo - {id}) == done;
    }
  }

  lemma {:induction false} GraceUnique(tasks: Tasks, ids: set<Id>, g: int, h: int)
    requires ids <= tasks.Keys && IsGrace(tasks, ids, g) && IsGrace(tasks, ids, h)
    ensures g == h
  {
  }

  lemma {:induction false} EarliestMoves(sid: Id, tasks: Tasks, seen: set<Id>, m: Id, x: Id)
    requires seen + {x} <= Finished(sid, tasks) && IsEarliest(sid, tasks, seen, m) && Earlier(sid, tasks, x, m)
    ensures IsEarliest(sid, tasks, seen + {x}, x)
  {
    forall y | y in seen && y != x ensures Earlier(sid, tasks, x, y) {
      if Before(x, m) && Before(m, y) { BeforeTransitive(x, m, y); }
    }
  }

  lemma {:induction false} EarliestUnique(sid: Id, tasks: Tasks, s: set<Id>, m: Id, n: Id)
    requires s <= Finished(sid, tasks) && IsEarliest(sid, tasks, s, m) && IsEarliest(sid, tasks, s, n)
    ensures m == n
  {
    if m != n {
      if Before(m, n) && Before(n, m) { BeforeTransitive(m, n, m); }
      BeforeIrreflexive(m);
    }
  }

  // ----- sorted prefixes -----

  lemma {:induction false} SortedFirst(q: seq<Id>)
    requires Sorted(q) && q != []
    ensures q[0] in Elements(q) && Smallest(Elements(q)) == q[0]
  {
    assert IsSmallest(q[0], Elements(q));
    SmallestUnique(Elements(q), q[0], Smallest(Elements(q)));
  }

  // ----- the stages of retirement -----

  ghost function WithoutViolating(c: Config, sid: Id, svc: Service, tasks: Tasks): Tasks {
    Retire(tasks, Violating(c, sid, svc, tasks), sid in c.httpRouted)
  }

  ghost function ScaledDown(c: Config, live: set<Id>, sid: Id, svc: Service, tasks: Tasks): Tasks {
    var current := Current(live, sid, svc, tasks);
    Retire(tasks, current - KeepSmallest(current, svc.spec.replicas), sid in c.httpRouted)
  }

  ghost function OldReplaced(c: Config, live: set<Id>, sid: Id, svc: Service, tasks: Tasks, keep: nat): Tasks {
    var former := Old(live, sid, svc, tasks);
    Retire(tasks, former - KeepSmallest(former, keep), sid in c.httpRouted)
  }

  lemma {:induction false} FirstStage(c: Config, live: set<Id>, sid: Id, svc: Service, tasks: Tasks)
    ensures var t1 := WithoutViolating(c, sid, svc, tasks);
      && Current(live, sid, svc, t1) == Current(live, sid, svc, tasks) - Violating(c, sid, svc, tasks)
      && Old(live, sid, svc, t1) == Old(live, sid, svc, tasks)
      && forall among :: Serving(among, t1) == Serving(among, tasks)
  {
    RetireGroups(c, live, sid, svc, tasks, Violating(c, sid, svc, tasks), sid in c.httpRouted);
    assert Old(live, sid, svc, tasks) !! Violating(c, sid, svc, tasks);
  }

  lemma {:induction false} SecondStage(c: Config, live: set<Id>, sid: Id, svc: Service, tasks: Tasks)
    ensures var t2 := ScaledDown(c, live, sid, svc, tasks);
      && Old(live, sid, svc, t2) == Old(live, sid, svc, tasks)
      && forall among :: Serving(among, t2) == Serving(among, tasks)
  {
    var current := Current(live, sid, svc, tasks);
    RetireGroups(c, live, sid, svc, tasks, current - KeepSmallest(current, svc.spec.replicas), sid in c.httpRouted);
    assert Old(live, sid, svc, tasks) !! current;
  }

  /** Retiring the victims group by group comes to retiring them all at once. */
  lemma {:induction false} VictimStages(c: Config, live: set<Id>, sid: Id, svc: Service, tasks: Tasks)
    ensures var t1 := WithoutViolating(c, sid, svc, tasks);
      var t2 := ScaledDown(c, live, sid, svc, t1);
      var kept := KeepSmallest(Current(live, sid, svc, t1), svc.spec.replicas);
      var keep := Surplus(svc.spec.replicas, |Serving(kept, t2)|);
      var t3 := OldReplaced(c, live, sid, svc, t2, keep);
      var former := KeepSmallest(Old(live, sid, svc, t2), keep);
      var t4 := if StopsFirst(svc, kept, former) then Retire(t3, {Smallest(former)}, sid in c.httpRouted) else t3;
      && t4 == Retire(tasks, Victims(c, live, sid, svc, tasks), sid in c.httpRouted)
      && (t4 != tasks <==> t1 != tasks || t2 != t1 || t3 != t2 || t4 != t3)
  {
    var routed := sid in c.httpRouted;
    var t1 := WithoutViolating(c, sid, svc, tasks);
    FirstStage(c, live, sid, svc, tasks);
    SecondStage(c, live, sid, svc, t1);
    var kept, former := KeptCurrent(c, live, sid, svc, tasks), KeptOld(c, live, sid, svc, tasks);
    var violating := Violating(c, sid, svc, tasks);
    var surplus := Current(live, sid, svc, t1) - kept;
    var replaced := Old(live, sid, svc, tasks) - former;
    var first := if StopsFirst(svc, kept, former) then {Smallest(former)} else {};
    var t2 := ScaledDown(c, live, sid, svc, t1);
    assert t2 == Retire(t1, surplus, routed);
    assert OldReplaced(c, live, sid, svc, t2, Surplus(svc.spec.replicas, |Serving(kept, t2)|)) == Retire(t2, replaced, routed);
    RetireInStages(tasks, violating, surplus, replaced, first, routed);
    SameVictims(violating, Current(live, sid, svc, tasks), kept, replaced, first);
    RetireNone(Retire(t2, replaced, routed), routed);
  }

  lemma {:induction false} SameVictims(violating: set<Id>, current: set<Id>, kept: set<Id>, replaced: set<Id>,
          first: set<Id>)
    ensures violating + ((current - violating) - kept) + replaced + first
            == violating + (current - kept) + replaced + first
  {
  }

  lemma {:induction false} RetireNone(tasks: Tasks, routed: bool)
    ensures Retire(tasks, {}, routed) == tasks
  {
  }

  lemma {:induction false} RetireInStages(tasks: Tasks, a: set<Id>, b: set<Id>, c: set<Id>, d: set<Id>, routed: bool)
    ensures var t1 := Retire(tasks, a, routed);
      var t2 := Retire(t1, b, routed);
      var t3 := Retire(t2, c, routed);
      var t4 := Retire(t3, d, routed);
      && t4 == Retire(tasks, a + b + c + d, routed)
      && (t4 != tasks <==> t1 != tasks || t2 != t1 || t3 != t2 || t4 != t3)
  {
    var t1 := Retire(tasks, a, routed);
    var t2 := Retire(t1, b, routed);
    var t3 := Retire(t2, c, routed);
    RetireTwice(tasks, a, b, routed);
    RetireTwice(tasks, a + b, c, routed);
    RetireTwice(tasks, a + b + c, d, routed);
    RetireProgress(tasks, a, routed);
    RetireProgress(t1, b, routed);
    RetireProgress(t2, c, routed);
    RetireProgress(t3, d, routed);
    ProgressTransitive(tasks, t1, t2);
    ProgressTransitive(tasks, t2, t3);
    ProgressTransitive(tasks, t3, Retire(t3, d, routed));
  }

  lemma {:induction false} PrefixSplit(q: seq<Id>, n: nat)
    requires Sorted(q) && n <= |q|
    ensures Elements(q[n..]) == Elements(q) - Elements(q[..n])
  {
    assert q == q[..n] + q[n..];
    ElementsConcat(q[..n], q[n..]);
    forall i, j | 0 <= i < n <= j < |q| ensures q[i] != q[j] {
      BeforeIrreflexive(q[i]);
    }
  }
}
