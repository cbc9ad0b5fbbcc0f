/** Slots and ports over the whole pass, jobs included, and the two corner cases of a pass. */
module PassSafety {
  import opened Wrappers
  import opened Cluster
  import opened Scheduler
  import opened Convergence
  import opened Placement
  import opened Jobs
  import opened Reconcile

  /** Jobs declare no ports, so no execution publishes one. */
  ghost predicate JobsUnpublished(c: Config, tasks: Tasks) {
    && (forall id, protocol, published :: id in tasks && tasks[id].job.Some? ==>
          !Publishes(tasks[id].ports, protocol, published))
    && (forall sid, i :: sid in c.services && c.services[sid].spec.job.Some? && 0 <= i < |c.services[sid].spec.ports| ==>
          c.services[sid].spec.ports[i].published.None?)
  }

  ghost predicate Safe(c: Config, tasks: Tasks) {
    SlotsDistinct(tasks) && PortsDisjoint(c, tasks) && JobsUnpublished(c, tasks)
  }

  /** Only observed and desired states change; only executions may come back from being lost. */
  lemma {:induction false} SameShapeSafe(c: Config, tasks: Tasks, after: Tasks)
    requires Safe(c, tasks) && after.Keys <= tasks.Keys
    requires forall id :: id in after ==>
      && after[id].service == tasks[id].service && after[id].revision == tasks[id].revision
      && after[id].slot == tasks[id].slot && after[id].node == tasks[id].node
      && after[id].ports == tasks[id].ports && after[id].job == tasks[id].job
      && (HoldsSlot(after[id]) ==> HoldsSlot(tasks[id]))
      && (tasks[id].job.None? ==> (tasks[id].observed.Gone() ==> after[id].observed.Gone()))
    ensures Safe(c, after)
  {
    assert forall id, node, protocol, published ::
      id in after && HoldsPort(after[id], node, protocol, published) ==> HoldsPort(tasks[id], node, protocol, published);
  }

  lemma {:induction false} StartSafe(c: Config, live: set<Id>, now: int, sid: Id, scheduled: int, next: int,
          s: JobState, ids: set<Id> -> Id)
    requires Safe(c, s.tasks) && Fresh(ids) && sid in c.services && c.services[sid].spec.job.Some?
    ensures Safe(c, StartOccurrence(c, live, now, sid, scheduled, next, s, ids).tasks)
  {
    var stopped, svc := StopJobs(sid, s.tasks), SingleReplica(c.services[sid]);
    SameShapeSafe(c, s.tasks, stopped);
    var r := ScheduleTask(c, JobNodes(c, live), sid, svc, stopped);
    if r.Some? {
      var id, t := ids(stopped.Keys), r.value.(job := Some(NewExecution(c.services[sid], scheduled, now, next, Grace(sid, s.tasks))));
      ScheduledIsPlaced(c, JobNodes(c, live), sid, svc, stopped);
      AddSlots(sid, svc, stopped, id, t);
      AddPorts(c, JobNodes(c, live), sid, svc, stopped, id, t);
      NothingPublished(svc.spec.ports, GatewayPorts(c, sid));
    }
  }

  lemma {:induction false} NothingPublished(requested: seq<Port>, targets: seq<nat>)
    requires forall i :: 0 <= i < |requested| ==> requested[i].published.None?
    ensures forall protocol, published :: !Publishes(AllocatePorts(requested, targets), protocol, published)
  {
    var r := AllocatePorts(requested, targets);
    forall i | 0 <= i < |r| ensures r[i].published.None? {
      if i < |requested| { assert r[i] == r[..|requested|][i]; }
    }
  }

  lemma {:induction false} TriggersSafe(c: Config, live: set<Id>, now: int, cron: Cron, order: seq<Id>, s: JobState,
          ids: set<Id> -> Id)
    requires Safe(c, s.tasks) && Fresh(ids) && forall i :: 0 <= i < |order| ==> order[i] in c.services
    ensures Safe(c, TriggerJobs(c, live, now, cron, order, s, ids).tasks)
  {
    if order != [] {
      var sid := order[0];
      var next := TriggerJob(c, live, now, cron, sid, s, ids);
      if next.tasks != s.tasks {
        var cursor := s.cursors[sid];
        var at := cron(c.services[sid].spec.job.value, now).value;
        StartSafe(c, live, now, sid, cursor.nextAt, at,
                  s.(cursors := s.cursors[sid := cursor.(nextAt := at, last := Some(cursor.nextAt))]), ids);
      }
      TriggersSafe(c, live, now, cron, order[1..], next, ids);
    }
  }

  lemma {:induction false} JobPassSafe(c: Config, live: set<Id>, now: int, cron: Cron, order: seq<Id>, s: JobState,
          ids: set<Id> -> Id)
    requires Safe(c, s.tasks) && Advances(cron) && Fresh(ids) && forall i :: 0 <= i < |order| ==> order[i] in c.services
    ensures Safe(c, JobPass(c, live, now, cron, order, s, ids).tasks)
  {
    var expired := s.(tasks := ExpireTasks(c, live, now, s.tasks));
    SameShapeSafe(c, s.tasks, expired.tasks);
    TriggersSafe(c, live, now, cron, order, expired, ids);
    PrunedSafe(c, order, TriggerJobs(c, live, now, cron, order, expired, ids).tasks);
  }

  lemma {:induction false} PrunedSafe(c: Config, order: seq<Id>, tasks: Tasks)
    requires Safe(c, tasks)
    ensures Safe(c, PruneAll(order, tasks))
  {
    PrunesShort(order, tasks, {});
    SameShapeSafe(c, tasks, PruneAll(order, tasks));
  }

  /**
    A full pass, over all services and jobs, keeps slots distinct and no published
    port shared, as long as jobs publish none.
   */
  lemma {:induction false} FullSafe(c: Config, live: set<Id>, now: int, cron: Cron, order: seq<Id>, s: JobState,
          ids: set<Id> -> Id)
    requires Safe(c, s.tasks) && Advances(cron) && Fresh(ids) && forall i :: 0 <= i < |order| ==> order[i] in c.services
    ensures Safe(c, Full(c, live, now, cron, order, s, ids).tasks)
  {
    JobPassSafe(c, live, now, cron, order, s, ids);
    var j := JobPass(c, live, now, cron, order, s, ids);
    PassInvariants(c, live, order, j.tasks, ids);
    FullRests(c, live, now, cron, order, s, ids);
  }

  /** After a full pass every managed service has used its quota or found no node with room. */
  lemma {:induction false} FullCreatesAllItCan(c: Config, live: set<Id>, now: int, cron: Cron, order: seq<Id>,
          s: JobState, ids: set<Id> -> Id, sid: Id)
    requires Advances(cron) && Fresh(ids) && forall i :: 0 <= i < |order| ==> order[i] in c.services
    requires sid in order && Managed(c, sid)
    ensures var after := Full(c, live, now, cron, order, s, ids).tasks;
      Quota(live, sid, c.services[sid], after) == 0 || Candidates(c, live, sid, c.services[sid], after) == {}
  {
    var after := Full(c, live, now, cron, order, s, ids).tasks;
    FullRests(c, live, now, cron, order, s, ids);
    forall id | id in after && after[id].service == sid && after[id].job.Some? ensures !after[id].desired.Running? {
      assert ExpirySettled(c, live, now, after[id]);
    }
    CreatesAllItCan(c, live, sid, c.services[sid], after);
  }

  // ----- corner cases -----

  const PLAIN := Spec(1, 1, None, [], [], 10, None)
  const MANUAL := PLAIN.(job := Some(JobPolicy(None, "UTC", false)))

  /** A running execution whose node is lost after the start deadline takes two passes to stop. */
  lemma {:induction false} LateLossTakesTwoPasses(cron: Cron, ids: set<Id> -> Id)
    requires Advances(cron) && Fresh(ids)
    ensures var c := Config(map["job" := Service(1, MANUAL, false)], map[], map[], {}, map[], {}, {}, map[]);
      var t := Task("job", 1, 0, "node", Desired.Running, Observed.Running, [], Some(JobExecution(0, 0, 10, MANUAL)), None);
      var first := Full(c, {}, 10, cron, ["job"], JobState(map[], map["task" := t], []), ids);
      Full(c, {}, 10, cron, ["job"], first, ids) != first
  {
    var c := Config(map["job" := Service(1, MANUAL, false)], map[], map[], {}, map[], {}, {}, map[]);
    var t := Task("job", 1, 0, "node", Desired.Running, Observed.Running, [], Some(JobExecution(0, 0, 10, MANUAL)), None);
    var s := JobState(map[], map["task" := t], []);
    var lost := t.(observed := Unknown);
    var expired := s.(tasks := ExpireTasks(c, {}, 10, s.tasks));
    assert ExpireTask(c, {}, 10, t) == lost;
    assert expired.tasks == map["task" := lost];
    TriggersRest(c, {}, 10, cron, ["job"], expired, ids);
    assert Finished("job", expired.tasks) == {};
    PrunesIdle(["job"], expired.tasks);
    assert JobPass(c, {}, 10, cron, ["job"], s, ids) == expired;
    FullRests(c, {}, 10, cron, ["job"], s, ids);
    var first := Full(c, {}, 10, cron, ["job"], s, ids);
    assert first.tasks["task"] == lost;
    SecondFull(c, {}, 10, cron, ["job"], s, ids);
  }

  const SHARED := [Port(80, Some(80), "tcp")]

  function PortConfig(): Config { Config(map["job" := Service(1, MANUAL, false)], map[], map[], {}, map[], {}, {}, map[]) }

  /** A stopped execution whose container was lost, and a container that is still stopping on the same node. */
  function PortTasks(seen: Observed): Tasks {
    map["a" := Task("job", 1, 0, "node", Stopped, seen, SHARED, Some(JobExecution(0, 0, 10, MANUAL)), None),
        "b" := Task("web", 1, 0, "node", Stopped, Healthy, SHARED, None, None)]
  }

  lemma {:induction false} OnePortHolder()
    ensures PortsDisjoint(PortConfig(), PortTasks(Lost)) && !PortsDisjoint(PortConfig(), PortTasks(Unknown))
  {
    var tasks := PortTasks(Unknown);
    assert SHARED[0].published == Some(80) && Publishes(SHARED, "tcp", 80);
    assert HoldsPort(tasks["a"], "node", "tcp", 80) && HoldsPort(tasks["b"], "node", "tcp", 80);
  }

  lemma {:induction false} PortJobPass(cron: Cron, ids: set<Id> -> Id)
    requires Advances(cron) && Fresh(ids)
    ensures JobPass(PortConfig(), {}, 5, cron, ["job"], JobState(map[], PortTasks(Lost), []), ids).tasks == PortTasks(Unknown)
  {
    var c, s := PortConfig(), JobState(map[], PortTasks(Unknown), []);
    assert ExpireTasks(c, {}, 5, PortTasks(Lost)) == s.tasks;
    TriggersRest(c, {}, 5, cron, ["job"], s, ids);
    assert Finished("job", s.tasks) == {};
    PrunesIdle(["job"], s.tasks);
  }

  lemma {:induction false} PortServicesPass(ids: set<Id> -> Id)
    ensures Pass(PortConfig(), {}, ["job"], PortTasks(Unknown), ids) == PortTasks(Unknown)
  {
    OneStep(PortConfig(), {}, "job", PortTasks(Unknown), ids);
  }

  /**
    Jobs publish no ports. If one did, a full pass that loses its node could give the port two holders: the
    execution's container counts again once its state is unknown.
   */
  lemma {:induction false} RevivedJobSharesPort(cron: Cron, ids: set<Id> -> Id)
    requires Advances(cron) && Fresh(ids)
    ensures var s := JobState(map[], PortTasks(Lost), []);
      PortsDisjoint(PortConfig(), s.tasks) && !PortsDisjoint(PortConfig(), Full(PortConfig(), {}, 5, cron, ["job"], s, ids).tasks)
  {
    PortJobPass(cron, ids);
    OnePortHolder();
    PortServicesPass(ids);
  }
}
