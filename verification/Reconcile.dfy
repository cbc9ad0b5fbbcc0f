/** The whole reconcile pass: jobs first, then the replica services. */
module Reconcile {
  import opened Sets
  import opened Wrappers
  import opened Cluster
  import opened Scheduler
  import opened Convergence
  import opened Jobs

  ghost function Full(c: Config, live: set<Id>, now: int, cron: Cron, order: seq<Id>, s: JobState,
          ids: set<Id> -> Id): JobState
    requires forall i :: 0 <= i < |order| ==> order[i] in c.services
  {
    var j := JobPass(c, live, now, cron, order, s, ids);
    j.(tasks := Pass(c, live, order, j.tasks, ids))
  }

  ghost function Fulls(c: Config, live: set<Id>, now: int, cron: Cron, order: seq<Id>, s: JobState,
          ids: set<Id> -> Id, n: nat): JobState
    requires forall i :: 0 <= i < |order| ==> order[i] in c.services
    decreases n
  {
    if n == 0 then s else Fulls(c, live, now, cron, order, Full(c, live, now, cron, order, s, ids), ids, n - 1)
  }

  // ----- job tasks -----

  /** An execution whose state became unknown after its start deadline; the next pass stops it. */
  predicate ExpiryDue(now: int, t: Task) {
    t.job.Some? && t.observed.Unknown? && !t.desired.Stopped? && now >= t.job.value.startDeadline
  }

  /** Expiry leaves the task alone, or stops it and is then done with it. */
  predicate ExpirySettled(c: Config, live: set<Id>, now: int, t: Task) {
    && (ExpireTask(c, live, now, t) == if ExpiryDue(now, t) then t.(desired := Stopped) else t)
    && (t.job.Some? && Orphaned(c, t.service) ==> t.desired.Stopped?)
  }

  lemma {:induction false} ExpireSettles(c: Config, live: set<Id>, now: int, t: Task)
    ensures ExpirySettled(c, live, now, ExpireTask(c, live, now, t))
    ensures ExpirySettled(c, live, now, t) ==> !ExpiryDue(now, ExpireTask(c, live, now, t))
    ensures ExpirySettled(c, live, now, t) ==> ExpirySettled(c, live, now, t.(desired := Stopped))
  {
  }

  ghost predicate TasksSettled(c: Config, live: set<Id>, now: int, tasks: Tasks) {
    forall id :: id in tasks ==> ExpirySettled(c, live, now, tasks[id])
  }

  ghost predicate NoneDue(now: int, tasks: Tasks) {
    forall id :: id in tasks ==> !ExpiryDue(now, tasks[id])
  }

  // ----- cursors -----

  /** The trigger loop has nothing to do for this service. */
  ghost predicate CursorRests(c: Config, now: int, cron: Cron, sid: Id, cursors: map<Id, Cursor>)
    requires sid in c.services
  {
    var svc := c.services[sid];
    svc.deleted || svc.spec.job.None? || svc.spec.job.value.schedule.None? ||
    var policy := svc.spec.job.value;
    if PolicyChanged(cursors, sid, policy.schedule.value, policy.timeZone) || policy.suspend then
      var moved := MovedCursor(cursors, sid, policy, now, cron);
      moved.None? || (sid in cursors && cursors[sid] == moved.value)
    else cursors[sid].nextAt > now || cron(policy, now).None?
  }

  lemma {:induction false} TriggerRests(c: Config, live: set<Id>, now: int, cron: Cron, sid: Id, s: JobState,
          ids: set<Id> -> Id)
    requires sid in c.services && CursorRests(c, now, cron, sid, s.cursors)
    ensures TriggerJob(c, live, now, cron, sid, s, ids) == s
  {
    if sid in s.cursors {
      assert s.cursors[sid := s.cursors[sid]] == s.cursors;
    }
  }

  lemma {:induction false} TriggerSettles(c: Config, live: set<Id>, now: int, cron: Cron, sid: Id, s: JobState,
          ids: set<Id> -> Id)
    requires sid in c.services && Advances(cron)
    ensures CursorRests(c, now, cron, sid, TriggerJob(c, live, now, cron, sid, s, ids).cursors)
  {
  }

  ghost predicate SameCursor(a: map<Id, Cursor>, b: map<Id, Cursor>, sid: Id) {
    (sid in a <==> sid in b) && (sid in a && sid in b ==> a[sid] == b[sid])
  }

  lemma {:induction false} TriggerElsewhere(c: Config, live: set<Id>, now: int, cron: Cron, sid: Id, s: JobState,
          ids: set<Id> -> Id, other: Id)
    requires sid in c.services && other != sid
    ensures SameCursor(TriggerJob(c, live, now, cron, sid, s, ids).cursors, s.cursors, other)
  {
  }

  lemma {:induction false} RestIsLocal(c: Config, now: int, cron: Cron, sid: Id, a: map<Id, Cursor>, b: map<Id, Cursor>)
    requires sid in c.services && SameCursor(a, b, sid) && CursorRests(c, now, cron, sid, a)
    ensures CursorRests(c, now, cron, sid, b)
  {
  }

  lemma {:induction false} TriggersSettle(c: Config, live: set<Id>, now: int, cron: Cron, order: seq<Id>, s: JobState,
          ids: set<Id> -> Id, done: set<Id>)
    requires Advances(cron) && (forall i :: 0 <= i < |order| ==> order[i] in c.services)
    requires forall sid :: sid in done ==> sid in c.services && CursorRests(c, now, cron, sid, s.cursors)
    ensures var after := TriggerJobs(c, live, now, cron, order, s, ids);
      forall sid :: (sid in done || sid in order) && sid in c.services ==> CursorRests(c, now, cron, sid, after.cursors)
  {
    if order != [] {
      var next := TriggerJob(c, live, now, cron, order[0], s, ids);
      forall sid | sid in done + {order[0]} ensures CursorRests(c, now, cron, sid, next.cursors) {
        if sid == order[0] {
          TriggerSettles(c, live, now, cron, sid, s, ids);
        } else {
          TriggerElsewhere(c, live, now, cron, order[0], s, ids, sid);
          RestIsLocal(c, now, cron, sid, s.cursors, next.cursors);
        }
      }
      TriggersSettle(c, live, now, cron, order[1..], next, ids, done + {order[0]});
    }
  }

  lemma {:induction false} TriggersRest(c: Config, live: set<Id>, now: int, cron: Cron, order: seq<Id>, s: JobState,
          ids: set<Id> -> Id)
    requires forall i :: 0 <= i < |order| ==> order[i] in c.services
    requires forall sid :: sid in order ==> CursorRests(c, now, cron, sid, s.cursors)
    ensures TriggerJobs(c, live, now, cron, order, s, ids) == s
  {
    if order != [] {
      TriggerRests(c, live, now, cron, order[0], s, ids);
      TriggersRest(c, live, now, cron, order[1..], s, ids);
    }
  }

  // ----- what a trigger does to the task map -----

  /** Only the service's job tasks are stopped, and at most one execution is added. */
  lemma {:induction false} TriggerTasks(c: Config, live: set<Id>, now: int, cron: Cron, sid: Id, s: JobState,
          ids: set<Id> -> Id)
    requires sid in c.services && Advances(cron) && Fresh(ids) && TasksSettled(c, live, now, s.tasks)
    ensures var after := TriggerJob(c, live, now, cron, sid, s, ids);
      && TasksSettled(c, live, now, after.tasks)
      && Outdated(c, after.tasks) <= Outdated(c, s.tasks)
  {
    var after := TriggerJob(c, live, now, cron, sid, s, ids);
    if after.tasks != s.tasks {
      var policy, cursor := c.services[sid].spec.job.value, s.cursors[sid];
      var next := cron(policy, now).value;
      var consumed := s.(cursors := s.cursors[sid := cursor.(nextAt := next, last := Some(cursor.nextAt))]);
      StartTasks(c, live, now, sid, cursor.nextAt, next, consumed, ids);
    }
  }

  lemma {:induction false} StopJobsTasks(c: Config, live: set<Id>, now: int, sid: Id, tasks: Tasks)
    requires TasksSettled(c, live, now, tasks)
    ensures TasksSettled(c, live, now, StopJobs(sid, tasks))
    ensures Outdated(c, StopJobs(sid, tasks)) <= Outdated(c, tasks)
  {
    forall id | id in tasks ensures ExpirySettled(c, live, now, StopJobs(sid, tasks)[id]) {
      ExpireSettles(c, live, now, tasks[id]);
    }
  }

  lemma {:induction false} StartTasks(c: Config, live: set<Id>, now: int, sid: Id, scheduled: int, next: int,
          s: JobState, ids: set<Id> -> Id)
    requires sid in c.services && Fresh(ids) && TasksSettled(c, live, now, s.tasks)
    requires next > now && !Orphaned(c, sid)
    ensures var after := StartOccurrence(c, live, now, sid, scheduled, next, s, ids);
      && TasksSettled(c, live, now, after.tasks)
      && Outdated(c, after.tasks) <= Outdated(c, s.tasks)
  {
    var stopped := StopJobs(sid, s.tasks);
    StopJobsTasks(c, live, now, sid, s.tasks);
    ScheduledIsPlaced(c, JobNodes(c, live), sid, SingleReplica(c.services[sid]), stopped);
  }

  lemma {:induction false} TriggersTasks(c: Config, live: set<Id>, now: int, cron: Cron, order: seq<Id>, s: JobState,
          ids: set<Id> -> Id)
    requires Advances(cron) && Fresh(ids) && TasksSettled(c, live, now, s.tasks)
    requires forall i :: 0 <= i < |order| ==> order[i] in c.services
    ensures var after := TriggerJobs(c, live, now, cron, order, s, ids);
      && TasksSettled(c, live, now, after.tasks)
      && Outdated(c, after.tasks) <= Outdated(c, s.tasks)
  {
    if order != [] {
      TriggerTasks(c, live, now, cron, order[0], s, ids);
      TriggersTasks(c, live, now, cron, order[1..], TriggerJob(c, live, now, cron, order[0], s, ids), ids);
    }
  }

  // ----- history -----

  lemma {:induction false} PruneShort(sid: Id, tasks: Tasks)
    ensures |Finished(sid, Prune(sid, tasks))| <= HISTORY
    ensures |Finished(sid, tasks)| <= HISTORY ==> Prune(sid, tasks) == tasks
    ensures forall id :: id in Prune(sid, tasks) ==> id in tasks && Prune(sid, tasks)[id] == tasks[id]
    ensures forall other :: Finished(other, Prune(sid, tasks)) <= Finished(other, tasks)
  {
    var finished := Finished(sid, tasks);
    var recent := Recent(sid, tasks, finished, HISTORY);
    assert Finished(sid, Prune(sid, tasks)) == recent;
  }

  ghost predicate HistoriesShort(order: seq<Id>, tasks: Tasks) {
    forall sid :: sid in order ==> |Finished(sid, tasks)| <= HISTORY
  }

  lemma {:induction false} PrunesShort(order: seq<Id>, tasks: Tasks, done: set<Id>)
    requires forall sid :: sid in done ==> |Finished(sid, tasks)| <= HISTORY
    ensures var after := PruneAll(order, tasks);
      && (forall sid :: sid in done || sid in order ==> |Finished(sid, after)| <= HISTORY)
      && (forall id :: id in after ==> id in tasks && after[id] == tasks[id])
  {
    if order != [] {
      var next := Prune(order[0], tasks);
      PruneShort(order[0], tasks);
      forall sid | sid in done + {order[0]} ensures |Finished(sid, next)| <= HISTORY {
        SubsetSize(Finished(sid, next), Finished(sid, tasks));
      }
      PrunesShort(order[1..], next, done + {order[0]});
    }
  }

  lemma {:induction false} PrunesIdle(order: seq<Id>, tasks: Tasks)
    requires HistoriesShort(order, tasks)
    ensures PruneAll(order, tasks) == tasks
  {
    if order != [] {
      PruneShort(order[0], tasks);
      PrunesIdle(order[1..], tasks);
    }
  }

  // ----- the job half at rest -----

  ghost predicate JobsRest(c: Config, live: set<Id>, now: int, cron: Cron, order: seq<Id>, s: JobState) {
    && TasksSettled(c, live, now, s.tasks)
    && HistoriesShort(order, s.tasks)
    && forall sid :: sid in order ==> sid in c.services && CursorRests(c, now, cron, sid, s.cursors)
  }

  lemma {:induction false} JobPassRests(c: Config, live: set<Id>, now: int, cron: Cron, order: seq<Id>, s: JobState,
          ids: set<Id> -> Id)
    requires Advances(cron) && Fresh(ids) && forall i :: 0 <= i < |order| ==> order[i] in c.services
    ensures JobsRest(c, live, now, cron, order, JobPass(c, live, now, cron, order, s, ids))
    ensures Outdated(c, JobPass(c, live, now, cron, order, s, ids).tasks) <= Outdated(c, s.tasks)
  {
    var expired := s.(tasks := ExpireTasks(c, live, now, s.tasks));
    ExpireTasksSettles(c, live, now, s.tasks);
    TriggersSettle(c, live, now, cron, order, expired, ids, {});
    TriggersTasks(c, live, now, cron, order, expired, ids);
    var triggered := TriggerJobs(c, live, now, cron, order, expired, ids).tasks;
    PrunesShort(order, triggered, {});
    SubmapTasks(c, live, now, triggered, PruneAll(order, triggered));
  }

  lemma {:induction false} ExpireTasksSettles(c: Config, live: set<Id>, now: int, tasks: Tasks)
    ensures TasksSettled(c, live, now, ExpireTasks(c, live, now, tasks))
    ensures Outdated(c, ExpireTasks(c, live, now, tasks)) <= Outdated(c, tasks)
  {
    forall id | id in tasks ensures ExpirySettled(c, live, now, ExpireTasks(c, live, now, tasks)[id]) {
      ExpireSettles(c, live, now, tasks[id]);
    }
  }

  lemma {:induction false} SubmapTasks(c: Config, live: set<Id>, now: int, tasks: Tasks, after: Tasks)
    requires TasksSettled(c, live, now, tasks)
    requires forall id :: id in after ==> id in tasks && after[id] == tasks[id]
    ensures TasksSettled(c, live, now, after) && Outdated(c, after) <= Outdated(c, tasks)
  {
  }

  /** At rest, the job half only stops the executions whose expiry is due. */
  lemma {:induction false} JobPassFromRest(c: Config, live: set<Id>, now: int, cron: Cron, order: seq<Id>,
          s: JobState, ids: set<Id> -> Id)
    requires JobsRest(c, live, now, cron, order, s) && forall i :: 0 <= i < |order| ==> order[i] in c.services
    ensures JobPass(c, live, now, cron, order, s, ids) == s.(tasks := ExpireTasks(c, live, now, s.tasks))
    ensures NoneDue(now, s.tasks) ==> JobPass(c, live, now, cron, order, s, ids) == s
  {
    var expired := ExpireTasks(c, live, now, s.tasks);
    TriggersRest(c, live, now, cron, order, s.(tasks := expired), ids);
    forall sid | sid in order ensures Finished(sid, expired) == Finished(sid, s.tasks) {
    }
    PrunesIdle(order, expired);
    if NoneDue(now, s.tasks) {
      assert expired == s.tasks;
    }
  }

  // ----- the replica half leaves job tasks alone -----

  ghost predicate JobTasksStay(tasks: Tasks, after: Tasks) {
    && (forall id :: id in tasks && tasks[id].job.Some? ==> id in after && after[id] == tasks[id])
    && (forall id :: id in after && after[id].job.Some? ==> id in tasks && after[id] == tasks[id])
  }

  /** No execution of a service that is gone, deleted or no longer a job is still wanted. */
  ghost predicate OrphansStopped(c: Config, tasks: Tasks) {
    forall id :: id in tasks && tasks[id].job.Some? && Orphaned(c, tasks[id].service) ==> tasks[id].desired.Stopped?
  }

  lemma {:induction false} RetireJobTasks(tasks: Tasks, ids: set<Id>, routed: bool)
    requires forall id :: id in ids && id in tasks && tasks[id].job.Some? ==> !tasks[id].desired.Running?
    ensures JobTasksStay(tasks, Retire(tasks, ids, routed))
  {
  }

  lemma {:induction false} PlaceJobTasks(c: Config, live: set<Id>, sid: Id, svc: Service, tasks: Tasks, n: nat,
          ids: set<Id> -> Id)
    requires Fresh(ids)
    ensures JobTasksStay(tasks, Place(c, live, sid, svc, tasks, n, ids))
    decreases n
  {
    var r := ScheduleTask(c, live, sid, svc, tasks);
    if n > 0 && r.Some? {
      ScheduledIsPlaced(c, live, sid, svc, tasks);
      PlaceJobTasks(c, live, sid, svc, tasks[ids(tasks.Keys) := r.value], n - 1, ids);
    }
  }

  lemma {:induction false} StepJobTasks(c: Config, live: set<Id>, sid: Id, tasks: Tasks, ids: set<Id> -> Id)
    requires Fresh(ids) && sid in c.services && OrphansStopped(c, tasks)
    ensures JobTasksStay(tasks, StepService(c, live, sid, tasks, ids))
  {
    var svc, routed := c.services[sid], sid in c.httpRouted;
    if svc.spec.job.None? && sid !in c.restartingServices {
      assert Orphaned(c, sid);
      if svc.deleted || svc.spec.replicas == 0 {
        RetireJobTasks(tasks, Members(sid, tasks), routed);
      } else {
        VictimsBelong(c, live, sid, svc, tasks);
        RetireJobTasks(tasks, Victims(c, live, sid, svc, tasks), routed);
        var retired := Retire(tasks, Victims(c, live, sid, svc, tasks), routed);
        PlaceJobTasks(c, live, sid, svc, retired, Quota(live, sid, svc, retired), ids);
      }
    }
  }

  lemma {:induction false} StepsJobTasks(c: Config, live: set<Id>, order: seq<Id>, tasks: Tasks, ids: set<Id> -> Id)
    requires Fresh(ids) && (forall i :: 0 <= i < |order| ==> order[i] in c.services) && OrphansStopped(c, tasks)
    ensures JobTasksStay(tasks, StepServices(c, live, order, tasks, ids))
  {
    if order != [] {
      StepJobTasks(c, live, order[0], tasks, ids);
      StepsJobTasks(c, live, order[1..], StepService(c, live, order[0], tasks, ids), ids);
    }
  }

  lemma {:induction false} PassJobTasks(c: Config, live: set<Id>, order: seq<Id>, tasks: Tasks, ids: set<Id> -> Id)
    requires Fresh(ids) && (forall i :: 0 <= i < |order| ==> order[i] in c.services) && OrphansStopped(c, tasks)
    ensures JobTasksStay(tasks, Pass(c, live, order, tasks, ids))
  {
    StepsJobTasks(c, live, order, StopLost(c, live, tasks), ids);
  }

  // ----- the theorems -----

  lemma {:induction false} FullRests(c: Config, live: set<Id>, now: int, cron: Cron, order: seq<Id>, s: JobState,
          ids: set<Id> -> Id)
    requires Advances(cron) && Fresh(ids) && forall i :: 0 <= i < |order| ==> order[i] in c.services
    ensures var after := Full(c, live, now, cron, order, s, ids);
      && JobsRest(c, live, now, cron, order, after)
      && AtRest(c, live, order, after.tasks)
      && Outdated(c, after.tasks) <= Outdated(c, s.tasks)
      && JobTasksStay(JobPass(c, live, now, cron, order, s, ids).tasks, after.tasks)
  {
    var j := JobPass(c, live, now, cron, order, s, ids);
    JobPassRests(c, live, now, cron, order, s, ids);
    PassRests(c, live, order, j.tasks, ids);
    PassJobTasks(c, live, order, j.tasks, ids);
    JobsRestStays(c, live, now, cron, order, j, Pass(c, live, order, j.tasks, ids));
  }

  lemma {:induction false} JobsRestStays(c: Config, live: set<Id>, now: int, cron: Cron, order: seq<Id>, s: JobState,
          after: Tasks)
    requires JobsRest(c, live, now, cron, order, s) && JobTasksStay(s.tasks, after)
    ensures JobsRest(c, live, now, cron, order, s.(tasks := after))
    ensures NoneDue(now, s.tasks) <==> NoneDue(now, after)
  {
    forall id | id in after ensures ExpirySettled(c, live, now, after[id]) {
    }
    forall sid | sid in order ensures Finished(sid, after) == Finished(sid, s.tasks) {
    }
    if NoneDue(now, after) {
      forall id | id in s.tasks ensures !ExpiryDue(now, s.tasks[id]) {
        assert s.tasks[id].job.Some? ==> after[id] == s.tasks[id];
      }
    }
  }

  /**
    A second full pass with the same nodes and clock changes nothing, exactly when the
    first left no stop-first step and no late expiry due.
   */
  lemma {:induction false} SecondFull(c: Config, live: set<Id>, now: int, cron: Cron, order: seq<Id>, s: JobState,
          ids: set<Id> -> Id)
    requires Advances(cron) && Fresh(ids) && forall i :: 0 <= i < |order| ==> order[i] in c.services
    ensures var first := Full(c, live, now, cron, order, s, ids);
      Full(c, live, now, cron, order, first, ids) == first
      <==> NoneDue(now, first.tasks) && !exists sid :: sid in order && StopFirstDue(c, live, sid, first.tasks)
  {
    var first := Full(c, live, now, cron, order, s, ids);
    FullRests(c, live, now, cron, order, s, ids);
    JobPassFromRest(c, live, now, cron, order, first, ids);
    if NoneDue(now, first.tasks) {
      StopLostIdle(c, live, first.tasks);
      StepsFromReady(c, live, order, first.tasks, ids);
    } else {
      var id :| id in first.tasks && ExpiryDue(now, first.tasks[id]);
      FullRests(c, live, now, cron, order, first, ids);
      assert JobPass(c, live, now, cron, order, first, ids).tasks[id].desired.Stopped?;
    }
  }

  /** An execution that was up when its node went, past its start deadline. */
  predicate LateLoss(live: set<Id>, now: int, t: Task) {
    && t.job.Some? && !t.desired.Stopped? && now >= t.job.value.startDeadline
    && t.node !in live && !t.observed.JobTerminal() && !t.observed.Pending? && !t.observed.Unknown?
  }

  /** The trigger loop replaces the executions of this job: an occurrence is due and not yet missed. */
  predicate Fires(c: Config, now: int, cron: Cron, sid: Id, cursors: map<Id, Cursor>) {
    && sid in c.services && !c.services[sid].deleted && c.services[sid].spec.job.Some?
    && c.services[sid].spec.job.value.schedule.Some?
    && var policy := c.services[sid].spec.job.value;
       && !policy.suspend && !PolicyChanged(cursors, sid, policy.schedule.value, policy.timeZone)
       && cursors[sid].nextAt <= now < cursors[sid].nextAt + MISSED_AFTER_MS
       && cron(policy, now).Some?
  }

  predicate Replaced(c: Config, now: int, cron: Cron, order: seq<Id>, cursors: map<Id, Cursor>, sid: Id) {
    sid in order && Fires(c, now, cron, sid, cursors)
  }

  /** A late loss that the pass neither orphans nor replaces. */
  predicate LeftLate(c: Config, live: set<Id>, now: int, cron: Cron, order: seq<Id>, cursors: map<Id, Cursor>, t: Task) {
    LateLoss(live, now, t) && !Orphaned(c, t.service) && !Replaced(c, now, cron, order, cursors, t.service)
  }

  lemma {:induction false} ExpiredDue(c: Config, live: set<Id>, now: int, t: Task)
    ensures ExpiryDue(now, ExpireTask(c, live, now, t)) <==> LateLoss(live, now, t) && !Orphaned(c, t.service)
    ensures ExpireTask(c, live, now, t).service == t.service
  {
  }

  lemma {:induction false} FiresOnce(c: Config, live: set<Id>, now: int, cron: Cron, sid: Id, s: JobState,
          ids: set<Id> -> Id, other: Id)
    requires Advances(cron) && sid in c.services
    ensures var after := TriggerJob(c, live, now, cron, sid, s, ids).cursors;
      Fires(c, now, cron, other, after) <==> other != sid && Fires(c, now, cron, other, s.cursors)
  {
  }

  lemma {:induction false} FiringStops(c: Config, live: set<Id>, now: int, cron: Cron, sid: Id, s: JobState,
          ids: set<Id> -> Id, id: Id)
    requires Advances(cron) && Fresh(ids) && sid in c.services
    ensures var after := TriggerJob(c, live, now, cron, sid, s, ids).tasks;
      id in after && ExpiryDue(now, after[id])
      <==> id in s.tasks && ExpiryDue(now, s.tasks[id]) && !(s.tasks[id].service == sid && Fires(c, now, cron, sid, s.cursors))
    ensures var after := TriggerJob(c, live, now, cron, sid, s, ids).tasks;
      id in after && ExpiryDue(now, after[id]) ==> id in s.tasks && after[id] == s.tasks[id]
  {
    if Fires(c, now, cron, sid, s.cursors) {
      ScheduledIsPlaced(c, JobNodes(c, live), sid, SingleReplica(c.services[sid]), StopJobs(sid, s.tasks));
      assert StopJobs(sid, s.tasks).Keys == s.tasks.Keys;
    }
  }

  /** The triggers leave an expiry due exactly where one was due and its job is not replaced. */
  lemma {:induction false} TriggersDue(c: Config, live: set<Id>, now: int, cron: Cron, order: seq<Id>, s: JobState,
          ids: set<Id> -> Id, id: Id)
    requires Advances(cron) && Fresh(ids) && forall i :: 0 <= i < |order| ==> order[i] in c.services
    ensures var after := TriggerJobs(c, live, now, cron, order, s, ids).tasks;
      id in after && ExpiryDue(now, after[id])
      <==> id in s.tasks && ExpiryDue(now, s.tasks[id]) && !Replaced(c, now, cron, order, s.cursors, s.tasks[id].service)
  {
    if order != [] {
      var next := TriggerJob(c, live, now, cron, order[0], s, ids);
      FiringStops(c, live, now, cron, order[0], s, ids, id);
      TriggersDue(c, live, now, cron, order[1..], next, ids, id);
      if id in s.tasks {
        FiresOnce(c, live, now, cron, order[0], s, ids, s.tasks[id].service);
        assert s.tasks[id].service in order <==> s.tasks[id].service == order[0] || s.tasks[id].service in order[1..];
      }
    }
  }

  lemma {:induction false} PrunesKeep(order: seq<Id>, tasks: Tasks, id: Id)
    requires id in tasks && !tasks[id].observed.JobTerminal()
    ensures id in PruneAll(order, tasks)
  {
    if order != [] {
      PruneShort(order[0], tasks);
      PrunesKeep(order[1..], Prune(order[0], tasks), id);
    }
  }

  lemma {:induction false} JobPassDue(c: Config, live: set<Id>, now: int, cron: Cron, order: seq<Id>, s: JobState,
          ids: set<Id> -> Id, id: Id)
    requires Advances(cron) && Fresh(ids) && forall i :: 0 <= i < |order| ==> order[i] in c.services
    ensures var after := JobPass(c, live, now, cron, order, s, ids).tasks;
      id in after && ExpiryDue(now, after[id])
      <==> id in s.tasks && LeftLate(c, live, now, cron, order, s.cursors, s.tasks[id])
  {
    var expired := s.(tasks := ExpireTasks(c, live, now, s.tasks));
    var triggered := TriggerJobs(c, live, now, cron, order, expired, ids).tasks;
    if id in s.tasks { ExpiredDue(c, live, now, s.tasks[id]); }
    TriggersDue(c, live, now, cron, order, expired, ids, id);
    PrunesShort(order, triggered, {});
    if id in triggered && ExpiryDue(now, triggered[id]) { PrunesKeep(order, triggered, id); }
  }

  /** With room to surge everywhere, one pass reaches the fixed point exactly when it leaves no execution lost late. */
  lemma {:induction false} OnePassSuffices(c: Config, live: set<Id>, now: int, cron: Cron, order: seq<Id>,
          s: JobState, ids: set<Id> -> Id)
    requires Advances(cron) && Fresh(ids) && forall i :: 0 <= i < |order| ==> order[i] in c.services
    requires forall sid :: sid in order && Managed(c, sid) ==> c.services[sid].spec.maxSurge >= 1
    ensures var first := Full(c, live, now, cron, order, s, ids);
      Full(c, live, now, cron, order, first, ids) == first
      <==> forall id :: id in s.tasks ==> !LeftLate(c, live, now, cron, order, s.cursors, s.tasks[id])
  {
    var first := Full(c, live, now, cron, order, s, ids);
    var jobs := JobPass(c, live, now, cron, order, s, ids).tasks;
    SecondFull(c, live, now, cron, order, s, ids);
    FullRests(c, live, now, cron, order, s, ids);
    JobPassRests(c, live, now, cron, order, s, ids);
    JobsRestStays(c, live, now, cron, order, JobPass(c, live, now, cron, order, s, ids), first.tasks);
    forall id ensures id in jobs && ExpiryDue(now, jobs[id])
                      <==> id in s.tasks && LeftLate(c, live, now, cron, order, s.cursors, s.tasks[id])
    {
      JobPassDue(c, live, now, cron, order, s, ids, id);
    }
  }

  lemma {:induction false} QuietFulls(c: Config, live: set<Id>, now: int, cron: Cron, order: seq<Id>, s: JobState,
          ids: set<Id> -> Id, n: nat)
    requires Advances(cron) && Fresh(ids) && forall i :: 0 <= i < |order| ==> order[i] in c.services
    requires JobsRest(c, live, now, cron, order, s) && NoneDue(now, s.tasks)
    ensures Fulls(c, live, now, cron, order, s, ids, n) == s.(tasks := Passes(c, live, order, s.tasks, ids, n))
    ensures JobsRest(c, live, now, cron, order, Fulls(c, live, now, cron, order, s, ids, n))
    ensures NoneDue(now, Fulls(c, live, now, cron, order, s, ids, n).tasks)
    decreases n
  {
    if n > 0 {
      JobPassFromRest(c, live, now, cron, order, s, ids);
      FullRests(c, live, now, cron, order, s, ids);
      JobsRestStays(c, live, now, cron, order, s, Pass(c, live, order, s.tasks, ids));
      QuietFulls(c, live, now, cron, order, Full(c, live, now, cron, order, s, ids), ids, n - 1);
    }
  }

  lemma {:induction false} RestedFullsStabilise(c: Config, live: set<Id>, now: int, cron: Cron, order: seq<Id>,
          s: JobState, ids: set<Id> -> Id, n: nat)
    requires Advances(cron) && Fresh(ids) && forall i :: 0 <= i < |order| ==> order[i] in c.services
    requires JobsRest(c, live, now, cron, order, s) && NoneDue(now, s.tasks)
    requires Pass(c, live, order, Passes(c, live, order, s.tasks, ids, n), ids) == Passes(c, live, order, s.tasks, ids, n)
    ensures var last := Fulls(c, live, now, cron, order, s, ids, n);
      Full(c, live, now, cron, order, last, ids) == last
  {
    QuietFulls(c, live, now, cron, order, s, ids, n);
    JobPassFromRest(c, live, now, cron, order, Fulls(c, live, now, cron, order, s, ids, n), ids);
  }

  /** Full passes with the same nodes and clock always come to rest. */
  lemma {:induction false} FullsStabilise(c: Config, live: set<Id>, now: int, cron: Cron, order: seq<Id>, s: JobState,
          ids: set<Id> -> Id, n: nat)
    requires Advances(cron) && Fresh(ids) && forall i :: 0 <= i < |order| ==> order[i] in c.services
    requires n > |Outdated(c, s.tasks)| + 1
    ensures var last := Fulls(c, live, now, cron, order, s, ids, n);
      Full(c, live, now, cron, order, last, ids) == last
  {
    var first := Full(c, live, now, cron, order, s, ids);
    var second := Full(c, live, now, cron, order, first, ids);
    FullRests(c, live, now, cron, order, s, ids);
    FullRests(c, live, now, cron, order, first, ids);
    SecondNoneDue(c, live, now, cron, order, first, ids);
    SubsetSize(Outdated(c, first.tasks), Outdated(c, s.tasks));
    SubsetSize(Outdated(c, second.tasks), Outdated(c, first.tasks));
    RestStabilises(c, live, order, second.tasks, ids, n - 2);
    RestedFullsStabilise(c, live, now, cron, order, second, ids, n - 2);
    assert Fulls(c, live, now, cron, order, first, ids, n - 1) == Fulls(c, live, now, cron, order, second, ids, n - 2);
  }

  lemma {:induction false} SecondNoneDue(c: Config, live: set<Id>, now: int, cron: Cron, order: seq<Id>, s: JobState,
          ids: set<Id> -> Id)
    requires Advances(cron) && Fresh(ids) && forall i :: 0 <= i < |order| ==> order[i] in c.services
    requires JobsRest(c, live, now, cron, order, s)
    ensures NoneDue(now, Full(c, live, now, cron, order, s, ids).tasks)
  {
    var j := JobPass(c, live, now, cron, order, s, ids);
    JobPassFromRest(c, live, now, cron, order, s, ids);
    forall id | id in j.tasks ensures !ExpiryDue(now, j.tasks[id]) {
      ExpireSettles(c, live, now, s.tasks[id]);
    }
    FullRests(c, live, now, cron, order, s, ids);
    JobPassRests(c, live, now, cron, order, s, ids);
    JobsRestStays(c, live, now, cron, order, j, Full(c, live, now, cron, order, s, ids).tasks);
  }
}
