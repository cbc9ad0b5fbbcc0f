/** Every run of the job scheduler, over several controllers and one durable document. */
module JobRuns {
  import opened Wrappers
  import opened Cluster
  import opened Scheduler
  import opened Convergence
  import opened Jobs
  import opened Reconcile

  // ----- what the document keeps -----

  /** A stored task. Observed state is kept for job executions only. */
  datatype StoredTask = StoredTask(
    service: Id, revision: nat, slot: nat, node: Id, desired: Desired,
    jobObserved: Option<Observed>, ports: seq<Port>, job: Option<JobExecution>, drainUntil: Option<int>)

  function StoreTask(t: Task): StoredTask {
    StoredTask(t.service, t.revision, t.slot, t.node, t.desired,
               if t.job.Some? then Some(t.observed) else None, t.ports, t.job, t.drainUntil)
  }

  function RestoreTask(t: StoredTask): Task {
    Task(t.service, t.revision, t.slot, t.node, t.desired,
         if t.jobObserved.Some? then t.jobObserved.value else Pending, t.ports, t.job, t.drainUntil)
  }

  datatype Document = Document(services: map<Id, Service>, cursors: map<Id, Cursor>, tasks: map<Id, StoredTask>, log: seq<Created>)

  /** A controller's working copy. */
  datatype Copy = Copy(config: Config, jobs: JobState)

  function Store(m: Copy): Document {
    Document(m.config.services, m.jobs.cursors, map id | id in m.jobs.tasks :: StoreTask(m.jobs.tasks[id]), m.jobs.log)
  }

  /** A restarted controller knows no node until it reports and no container until it is found. */
  function Load(d: Document): Copy {
    Copy(Config(d.services, map[], map[], {}, map[], {}, {}, map[]),
         JobState(d.cursors, map id | id in d.tasks :: RestoreTask(d.tasks[id]), d.log))
  }

  /** A reload keeps every cursor and every execution with all that is known of it. */
  lemma {:induction false} ReloadKeepsExecutions(m: Copy)
    ensures var r := Load(Store(m));
      && r.config.services == m.config.services && r.jobs.cursors == m.jobs.cursors && r.jobs.log == m.jobs.log
      && r.jobs.tasks.Keys == m.jobs.tasks.Keys
      && forall id :: id in m.jobs.tasks ==>
           r.jobs.tasks[id] == if m.jobs.tasks[id].job.Some? then m.jobs.tasks[id] else m.jobs.tasks[id].(observed := Pending)
  {
  }

  // ----- the invariant -----

  /** Occurrences of a service are logged in strictly increasing order. */
  ghost predicate Increasing(log: seq<Created>) {
    forall i, j :: 0 <= i < j < |log| && log[i].service == log[j].service ==>
      log[i].execution.scheduledAt < log[j].execution.scheduledAt
  }

  /** An execution is created while its occurrence is fresh, to start in a window before the next one. */
  predicate WellTimed(e: Created) {
    && e.execution.scheduledAt <= e.at < e.execution.scheduledAt + MISSED_AFTER_MS
    && e.at <= e.execution.notBefore < e.execution.startDeadline
  }

  /** The cursor remembers the last consumed occurrence and points past it. */
  ghost predicate Consumed(s: JobState) {
    && (forall sid :: sid in s.cursors && s.cursors[sid].last.Some? ==> s.cursors[sid].last.value < s.cursors[sid].nextAt)
    && (forall i :: 0 <= i < |s.log| ==>
          && s.log[i].service in s.cursors && s.cursors[s.log[i].service].last.Some?
          && s.log[i].execution.scheduledAt <= s.cursors[s.log[i].service].last.value)
  }

  /** The task map still runs an execution the trigger loop created. */
  ghost predicate Wanted(s: JobState, id: Id, sid: Id) {
    && id in s.tasks && IsJobTask(sid, s.tasks[id]) && s.tasks[id].desired.Running?
    && exists i :: 0 <= i < |s.log| && s.log[i].task == id && s.log[i].service == sid
  }

  ghost predicate OneWanted(s: JobState) {
    forall sid, a, b :: Wanted(s, a, sid) && Wanted(s, b, sid) ==> a == b
  }

  ghost predicate Sound(s: JobState) {
    && Increasing(s.log) && (forall i :: 0 <= i < |s.log| ==> WellTimed(s.log[i]))
    && Consumed(s) && OneWanted(s)
  }

  // ----- every step keeps it -----

  /** Tasks may go, stop or report anything, but nothing restarts an execution. */
  ghost predicate NoRestart(before: Tasks, after: Tasks, log: seq<Created>) {
    forall id, i :: id in after && 0 <= i < |log| && log[i].task == id && log[i].service == after[id].service ==>
      (after[id].job.Some? && after[id].desired.Running? ==>
        id in before && before[id].job.Some? && before[id].service == after[id].service && before[id].desired.Running?)
  }

  lemma {:induction false} NoRestartSound(s: JobState, after: Tasks)
    requires Sound(s) && NoRestart(s.tasks, after, s.log)
    ensures Sound(s.(tasks := after))
  {
    var r := s.(tasks := after);
    forall sid, a, b | Wanted(r, a, sid) && Wanted(r, b, sid) ensures a == b {
      assert Wanted(s, a, sid) && Wanted(s, b, sid);
    }
  }

  lemma {:induction false} CursorSound(s: JobState, cursors: map<Id, Cursor>)
    requires Sound(s)
    requires forall sid :: sid in s.cursors && s.cursors[sid].last.Some? ==>
               sid in cursors && cursors[sid].last.Some? && s.cursors[sid].last.value <= cursors[sid].last.value
    requires forall sid :: sid in cursors && cursors[sid].last.Some? ==> cursors[sid].last.value < cursors[sid].nextAt
    ensures Sound(s.(cursors := cursors))
  {
    var r := s.(cursors := cursors);
    forall sid, a, b | Wanted(r, a, sid) && Wanted(r, b, sid) ensures a == b {
      assert Wanted(s, a, sid) && Wanted(s, b, sid);
    }
  }

  lemma {:induction false} StartSound(c: Config, live: set<Id>, now: int, sid: Id, next: int, s: JobState,
          ids: set<Id> -> Id)
    requires Sound(s) && Fresh(ids) && sid in c.services && sid in s.cursors
    requires s.cursors[sid].nextAt <= now < s.cursors[sid].nextAt + MISSED_AFTER_MS && now < next
    ensures var cursor := s.cursors[sid];
      var consumed := s.(cursors := s.cursors[sid := cursor.(nextAt := next, last := Some(cursor.nextAt))]);
      Sound(StartOccurrence(c, live, now, sid, cursor.nextAt, next, consumed, ids))
  {
    var cursor := s.cursors[sid];
    var consumed := s.(cursors := s.cursors[sid := cursor.(nextAt := next, last := Some(cursor.nextAt))]);
    CursorSound(s, consumed.cursors);
    var stopped := consumed.(tasks := StopJobs(sid, s.tasks));
    NoRestartSound(consumed, stopped.tasks);
    var r := ScheduleTask(c, JobNodes(c, live), sid, SingleReplica(c.services[sid]), stopped.tasks);
    if r.Some? {
      var id, execution := ids(stopped.tasks.Keys), NewExecution(c.services[sid], cursor.nextAt, now, next, Grace(sid, s.tasks));
      ScheduledIsPlaced(c, JobNodes(c, live), sid, SingleReplica(c.services[sid]), stopped.tasks);
      LongestStopIsGrace(s.tasks, Unfinished(sid, s.tasks));
      ExecutionTimed(c.services[sid], cursor.nextAt, now, next, Grace(sid, s.tasks), sid, id);
      AppendSound(stopped, id, r.value.(job := Some(execution)), Created(sid, id, execution, now), s);
    }
  }

  lemma {:induction false} ExecutionTimed(svc: Service, scheduled: int, now: int, next: int, grace: int, sid: Id,
          id: Id)
    requires scheduled <= now < scheduled + MISSED_AFTER_MS && now < next && grace >= 0
    ensures WellTimed(Created(sid, id, NewExecution(svc, scheduled, now, next, grace), now))
  {
  }

  /** Logging the occurrence that the cursor just consumed, after all of the job's tasks stopped. */
  lemma {:induction false} AppendSound(s: JobState, id: Id, t: Task, e: Created, before: JobState)
    requires Sound(s) && Sound(before) && id !in s.tasks && s.log == before.log && WellTimed(e)
    requires IsJobTask(e.service, t) && e.task == id
    requires e.service in s.cursors && s.cursors[e.service].last == Some(e.execution.scheduledAt)
    requires e.service in before.cursors && before.cursors[e.service].nextAt == e.execution.scheduledAt
    requires forall other :: other in s.tasks && IsJobTask(e.service, s.tasks[other]) ==> !s.tasks[other].desired.Running?
    ensures Sound(s.(tasks := s.tasks[id := t], log := s.log + [e]))
  {
    var r := s.(tasks := s.tasks[id := t], log := s.log + [e]);
    forall i | 0 <= i < |s.log| && s.log[i].service == e.service
      ensures s.log[i].execution.scheduledAt < e.execution.scheduledAt
    {
      assert before.cursors[e.service].last.value < before.cursors[e.service].nextAt;
    }
    forall sid, a, b | Wanted(r, a, sid) && Wanted(r, b, sid) ensures a == b {
      if sid != e.service {
        assert a != id && b != id && Wanted(s, a, sid) && Wanted(s, b, sid);
      }
    }
  }

  lemma {:induction false} TriggerSound(c: Config, live: set<Id>, now: int, cron: Cron, sid: Id, s: JobState,
          ids: set<Id> -> Id)
    requires Sound(s) && Advances(cron) && Fresh(ids) && sid in c.services
    ensures Sound(TriggerJob(c, live, now, cron, sid, s, ids))
    ensures s.log <= TriggerJob(c, live, now, cron, sid, s, ids).log
  {
    var svc := c.services[sid];
    if !(svc.deleted || svc.spec.job.None? || svc.spec.job.value.schedule.None?) {
      var policy := svc.spec.job.value;
      if PolicyChanged(s.cursors, sid, policy.schedule.value, policy.timeZone) || policy.suspend {
        var moved := MovedCursor(s.cursors, sid, policy, now, cron);
        if moved.Some? { CursorSound(s, s.cursors[sid := moved.value]); }
      } else if s.cursors[sid].nextAt <= now && cron(policy, now).Some? {
        var cursor, next := s.cursors[sid], cron(policy, now).value;
        if now - cursor.nextAt >= MISSED_AFTER_MS {
          CursorSound(s, s.cursors[sid := cursor.(nextAt := next, last := Some(cursor.nextAt))]);
        } else {
          StartSound(c, live, now, sid, next, s, ids);
        }
      }
    }
  }

  lemma {:induction false} TriggersSound(c: Config, live: set<Id>, now: int, cron: Cron, order: seq<Id>, s: JobState,
          ids: set<Id> -> Id)
    requires Sound(s) && Advances(cron) && Fresh(ids) && forall i :: 0 <= i < |order| ==> order[i] in c.services
    ensures Sound(TriggerJobs(c, live, now, cron, order, s, ids))
    ensures s.log <= TriggerJobs(c, live, now, cron, order, s, ids).log
  {
    if order != [] {
      TriggerSound(c, live, now, cron, order[0], s, ids);
      TriggersSound(c, live, now, cron, order[1..], TriggerJob(c, live, now, cron, order[0], s, ids), ids);
    }
  }

  lemma {:induction false} TickSound(c: Config, live: set<Id>, now: int, cron: Cron, order: seq<Id>, s: JobState,
          ids: set<Id> -> Id)
    requires Sound(s) && Advances(cron) && Fresh(ids) && forall i :: 0 <= i < |order| ==> order[i] in c.services
    ensures Sound(Full(c, live, now, cron, order, s, ids))
    ensures s.log <= Full(c, live, now, cron, order, s, ids).log
  {
    var expired := s.(tasks := ExpireTasks(c, live, now, s.tasks));
    NoRestartSound(s, expired.tasks);
    TriggersSound(c, live, now, cron, order, expired, ids);
    var triggered := TriggerJobs(c, live, now, cron, order, expired, ids);
    PrunesShort(order, triggered.tasks, {});
    NoRestartSound(triggered, PruneAll(order, triggered.tasks));
    var j := JobPass(c, live, now, cron, order, s, ids);
    FullRests(c, live, now, cron, order, s, ids);
    NoRestartSound(j, Full(c, live, now, cron, order, s, ids).tasks);
  }

  lemma {:induction false} SkipSound(c: Config, now: int, cron: Cron, s: JobState)
    requires Sound(s) && Advances(cron)
    ensures Sound(s.(cursors := SkipMissed(c, now, cron, s.cursors)))
  {
    CursorSound(s, SkipMissed(c, now, cron, s.cursors));
  }

  // ----- one controller's work -----

  /**
    What a controller may do to its copy between commits. The clock readings are
    arbitrary. Edits replace the whole configuration: schedules, time zones,
    suspension, deletion, nodes. Reports stand for heartbeats, acknowledgements,
    cancellation and manual runs.
   */
  datatype Work =
    | Tick(live: set<Id>, now: int, order: seq<Id>, ids: set<Id> -> Id)
    | Skip(now: int)
    | Edit(config: Config)
    | Report(tasks: Tasks)

  ghost predicate Allowed(m: Copy, w: Work) {
    match w
    case Tick(_, _, order, ids) => Fresh(ids) && forall i :: 0 <= i < |order| ==> order[i] in m.config.services
    case Report(tasks) => NoRestart(m.jobs.tasks, tasks, m.jobs.log)
    case _ => true
  }

  ghost function Do(m: Copy, w: Work, cron: Cron): Copy
    requires Allowed(m, w)
  {
    match w
    case Tick(live, now, order, ids) => m.(jobs := Full(m.config, live, now, cron, order, m.jobs, ids))
    case Skip(now) => m.(jobs := m.jobs.(cursors := SkipMissed(m.config, now, cron, m.jobs.cursors)))
    case Edit(config) => m.(config := config)
    case Report(tasks) => m.(jobs := m.jobs.(tasks := tasks))
  }

  lemma {:induction false} WorkSound(m: Copy, w: Work, cron: Cron)
    requires Sound(m.jobs) && Advances(cron) && Allowed(m, w)
    ensures Sound(Do(m, w, cron).jobs) && m.jobs.log <= Do(m, w, cron).jobs.log
  {
    match w
    case Tick(live, now, order, ids) => TickSound(m.config, live, now, cron, order, m.jobs, ids);
    case Skip(now) => SkipSound(m.config, now, cron, m.jobs);
    case Edit(_) =>
    case Report(tasks) => NoRestartSound(m.jobs, tasks);
  }

  // ----- several controllers and the durable document -----

  datatype Versioned<T> = Versioned(generation: nat, value: T)

  datatype World = World(durable: Versioned<Document>, controllers: map<Id, Versioned<Copy>>)

  datatype Step =
    | Restart(who: Id)
    | Working(who: Id, work: Work)
    | Commit(who: Id)

  ghost predicate Possible(w: World, step: Step) {
    match step
    case Restart(_) => true
    case Working(who, work) => who in w.controllers && Allowed(w.controllers[who].value, work)
    case Commit(who) => who in w.controllers
  }

  /** A commit replaces the document only if it is still the one the copy came from. */
  ghost function Apply(w: World, step: Step, cron: Cron): World
    requires Possible(w, step)
  {
    match step
    case Restart(who) =>
      w.(controllers := w.controllers[who := Versioned(w.durable.generation, Load(w.durable.value))])
    case Working(who, work) =>
      var m := w.controllers[who];
      w.(controllers := w.controllers[who := m.(value := Do(m.value, work, cron))])
    case Commit(who) =>
      var m := w.controllers[who];
      if m.generation != w.durable.generation then w
      else
        var next := m.generation + 1;
        World(Versioned(next, Store(m.value)), w.controllers[who := m.(generation := next)])
  }

  ghost predicate WorldSound(w: World) {
    && Sound(Load(w.durable.value).jobs)
    && forall who :: who in w.controllers ==>
         && Sound(w.controllers[who].value.jobs)
         && w.controllers[who].generation <= w.durable.generation
         && (w.controllers[who].generation == w.durable.generation ==>
               w.durable.value.log <= w.controllers[who].value.jobs.log)
  }

  lemma {:induction false} ReloadSound(m: Copy)
    requires Sound(m.jobs)
    ensures Sound(Load(Store(m)).jobs)
  {
    ReloadKeepsExecutions(m);
    NoRestartSound(m.jobs, Load(Store(m)).jobs.tasks);
  }

  lemma {:induction false} ApplySound(w: World, step: Step, cron: Cron)
    requires WorldSound(w) && Advances(cron) && Possible(w, step)
    ensures WorldSound(Apply(w, step, cron))
    ensures w.durable.value.log <= Apply(w, step, cron).durable.value.log
  {
    match step
    case Restart(_) =>
    case Working(who, work) => WorkSound(w.controllers[who].value, work, cron);
    case Commit(who) => ReloadSound(w.controllers[who].value);
  }

  ghost predicate Run(worlds: seq<World>, steps: seq<Step>, cron: Cron) {
    && |worlds| == |steps| + 1
    && forall i :: 0 <= i < |steps| ==> Possible(worlds[i], steps[i]) && worlds[i + 1] == Apply(worlds[i], steps[i], cron)
  }

  const EMPTY := Document(map[], map[], map[], [])

  lemma {:induction false} RunSound(worlds: seq<World>, steps: seq<Step>, cron: Cron, i: nat)
    requires Run(worlds, steps, cron) && Advances(cron) && i < |worlds|
    requires worlds[0] == World(Versioned(1, EMPTY), map[])
    ensures WorldSound(worlds[i])
  {
    if i > 0 {
      RunSound(worlds, steps, cron, i - 1);
      ApplySound(worlds[i - 1], steps[i - 1], cron);
    }
  }

  lemma {:induction false} RunLogGrows(worlds: seq<World>, steps: seq<Step>, cron: Cron, i: nat, j: nat)
    requires Run(worlds, steps, cron) && Advances(cron) && i <= j < |worlds|
    requires worlds[0] == World(Versioned(1, EMPTY), map[])
    ensures worlds[i].durable.value.log <= worlds[j].durable.value.log
  {
    if i < j {
      RunLogGrows(worlds, steps, cron, i, j - 1);
      RunSound(worlds, steps, cron, j - 1);
      ApplySound(worlds[j - 1], steps[j - 1], cron);
    }
  }

  /**
    No occurrence runs twice. In every run, whatever the clocks, edits, crashes and
    competing controllers, the committed executions only grow, each service's are
    strictly increasing in scheduled time and well timed, and the durable document
    never wants two of them at once.
   */
  lemma {:induction false} NoReplay(worlds: seq<World>, steps: seq<Step>, cron: Cron, i: nat, j: nat)
    requires Run(worlds, steps, cron) && Advances(cron) && i <= j < |worlds|
    requires worlds[0] == World(Versioned(1, EMPTY), map[])
    ensures var log, s := worlds[j].durable.value.log, Load(worlds[j].durable.value).jobs;
      && worlds[i].durable.value.log <= log
      && Increasing(log) && (forall k :: 0 <= k < |log| ==> WellTimed(log[k]))
      && OneWanted(s)
  {
    RunLogGrows(worlds, steps, cron, i, j);
    RunSound(worlds, steps, cron, j);
  }
}
