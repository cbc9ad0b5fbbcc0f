/** Scheduled jobs: durable trigger cursors, one execution per occurrence, bounded history. */
module Jobs {
  import opened Wrappers
  import opened Cluster
  import opened Ordering
  import opened Scheduler

  const MISSED_AFTER_MS := 60_000
  const MAX_GRACE_MS := 30_000
  const HISTORY := 20

  datatype Cursor = Cursor(last: Option<int>, schedule: string, timeZone: string, nextAt: int)

  /** An execution the trigger loop created, with the clock reading that created it. */
  datatype Created = Created(service: Id, task: Id, execution: JobExecution, at: int)

  /** Cursors by service, the task map, and every execution created so far. */
  datatype JobState = JobState(cursors: map<Id, Cursor>, tasks: Tasks, log: seq<Created>)

  /** The next occurrence strictly after a time, or None where the schedule has none. */
  type Cron = (JobPolicy, int) -> Option<int>

  ghost predicate Advances(cron: Cron) {
    forall policy, t :: cron(policy, t).Some? ==> cron(policy, t).value > t
  }

  // ----- executions that must not start any more -----

  predicate Orphaned(c: Config, sid: Id) {
    sid !in c.services || c.services[sid].deleted || c.services[sid].spec.job.None?
  }

  function ExpireTask(c: Config, live: set<Id>, now: int, t: Task): Task {
    if t.job.None? then t
    else
      var missed := now >= t.job.value.startDeadline && (t.observed.Pending? || t.observed.Unknown?);
      var stopped := if Orphaned(c, t.service) || missed then t.(desired := Stopped) else t;
      if t.node !in live && !t.observed.JobTerminal() then stopped.(observed := Unknown) else stopped
  }

  function ExpireTasks(c: Config, live: set<Id>, now: int, tasks: Tasks): Tasks {
    map id | id in tasks :: ExpireTask(c, live, now, tasks[id])
  }

  // ----- cursors -----

  predicate PolicyChanged(cursors: map<Id, Cursor>, sid: Id, schedule: string, timeZone: string) {
    sid !in cursors || cursors[sid].schedule != schedule || cursors[sid].timeZone != timeZone
  }

  function LastScheduled(cursors: map<Id, Cursor>, sid: Id): Option<int> {
    if sid in cursors then cursors[sid].last else None
  }

  /** The cursor a changed or suspended policy moves to, if the schedule has a next occurrence. */
  function MovedCursor(cursors: map<Id, Cursor>, sid: Id, policy: JobPolicy, now: int, cron: Cron): Option<Cursor>
    requires policy.schedule.Some?
  {
    var last := LastScheduled(cursors, sid);
    var base := if last.Some? then Max(last.value, now) else now;
    match cron(policy, base)
    case None => None
    case Some(next) =>
      var changed := PolicyChanged(cursors, sid, policy.schedule.value, policy.timeZone);
      Some(Cursor(last, policy.schedule.value, policy.timeZone,
                  if changed then next else Max(next, cursors[sid].nextAt)))
  }

  // ----- triggering -----

  predicate IsJobTask(sid: Id, t: Task) { t.service == sid && t.job.Some? }

  function StopJob(sid: Id, t: Task): Task {
    if IsJobTask(sid, t) then t.(desired := Stopped) else t
  }

  function StopJobs(sid: Id, tasks: Tasks): Tasks {
    map id | id in tasks :: StopJob(sid, tasks[id])
  }

  function Unfinished(sid: Id, tasks: Tasks): set<Id> {
    set id | id in tasks && IsJobTask(sid, tasks[id]) && !tasks[id].observed.JobTerminal()
  }

  function StopTime(t: Task): int {
    if t.job.None? then 0 else t.job.value.spec.graceSeconds * 1000 + 5000
  }

  /** `g` is the longest time the unfinished executions may take to stop. */
  ghost predicate IsGrace(tasks: Tasks, ids: set<Id>, g: int)
    requires ids <= tasks.Keys
  {
    && (forall id :: id in ids ==> StopTime(tasks[id]) <= g)
    && (if ids == {} then g == 0 else exists id :: id in ids && StopTime(tasks[id]) == g)
  }

  lemma {:induction false} GraceExists(tasks: Tasks, ids: set<Id>)
    requires ids <= tasks.Keys
    ensures exists g :: IsGrace(tasks, ids, g)
    decreases |ids|
  {
    if ids == {} {
      assert IsGrace(tasks, ids, 0);
    } else {
      var x :| x in ids;
      GraceExists(tasks, ids - {x});
      var g :| IsGrace(tasks, ids - {x}, g);
      assert IsGrace(tasks, ids, Max(g, StopTime(tasks[x])));
    }
  }

  ghost function LongestStop(tasks: Tasks, ids: set<Id>): int
    requires ids <= tasks.Keys
  {
    GraceExists(tasks, ids);
    var g :| IsGrace(tasks, ids, g);
    g
  }

  lemma {:induction false} LongestStopIsGrace(tasks: Tasks, ids: set<Id>)
    requires ids <= tasks.Keys
    ensures IsGrace(tasks, ids, LongestStop(tasks, ids)) && LongestStop(tasks, ids) >= 0
  {
    GraceExists(tasks, ids);
  }

  ghost function Grace(sid: Id, tasks: Tasks): int {
    LongestStop(tasks, Unfinished(sid, tasks))
  }

  function JobNodes(c: Config, live: set<Id>): set<Id> {
    set node | node in live && node in c.nodes && c.nodes[node].supportsJobs
  }

  function SingleReplica(svc: Service): Service {
    svc.(spec := svc.spec.(replicas := 1))
  }

  function NewExecution(svc: Service, scheduled: int, now: int, next: int, grace: int): JobExecution {
    JobExecution(scheduled, now + Min(Min(grace, MAX_GRACE_MS), (next - now) / 2), next, svc.spec)
  }

  /** Replaces the job's executions by one for the due occurrence, if a node can take it. */
  ghost function StartOccurrence(c: Config, live: set<Id>, now: int, sid: Id, scheduled: int, next: int, s: JobState,
          ids: set<Id> -> Id): JobState
    requires sid in c.services
  {
    var svc := c.services[sid];
    var stopped := StopJobs(sid, s.tasks);
    match ScheduleTask(c, JobNodes(c, live), sid, SingleReplica(svc), stopped)
    case None => s.(tasks := stopped)
    case Some(t) =>
      var id, execution := ids(stopped.Keys), NewExecution(svc, scheduled, now, next, Grace(sid, s.tasks));
      s.(tasks := stopped[id := t.(job := Some(execution))], log := s.log + [Created(sid, id, execution, now)])
  }

  ghost function TriggerJob(c: Config, live: set<Id>, now: int, cron: Cron, sid: Id, s: JobState,
          ids: set<Id> -> Id): JobState
    requires sid in c.services
  {
    var svc := c.services[sid];
    if svc.deleted || svc.spec.job.None? || svc.spec.job.value.schedule.None? then s
    else
      var policy := svc.spec.job.value;
      if PolicyChanged(s.cursors, sid, policy.schedule.value, policy.timeZone) || policy.suspend then
        match MovedCursor(s.cursors, sid, policy, now, cron)
        case None => s
        case Some(moved) => s.(cursors := s.cursors[sid := moved])
      else
        var cursor := s.cursors[sid];
        if cursor.nextAt > now then s
        else
          match cron(policy, now)
          case None => s
          case Some(next) =>
            var consumed := s.(cursors := s.cursors[sid := cursor.(nextAt := next, last := Some(cursor.nextAt))]);
            if now - cursor.nextAt >= MISSED_AFTER_MS then consumed
            else StartOccurrence(c, live, now, sid, cursor.nextAt, next, consumed, ids)
  }

  ghost function TriggerJobs(c: Config, live: set<Id>, now: int, cron: Cron, order: seq<Id>, s: JobState,
          ids: set<Id> -> Id): JobState
    requires forall i :: 0 <= i < |order| ==> order[i] in c.services
  {
    if order == [] then s
    else TriggerJobs(c, live, now, cron, order[1..], TriggerJob(c, live, now, cron, order[0], s, ids), ids)
  }

  // ----- bounded history -----

  function Finished(sid: Id, tasks: Tasks): set<Id> {
    set id | id in tasks && IsJobTask(sid, tasks[id]) && tasks[id].observed.JobTerminal()
  }

  /** Order of the history: by scheduled time, then by id. */
  predicate Earlier(sid: Id, tasks: Tasks, a: Id, b: Id)
    requires a in Finished(sid, tasks) && b in Finished(sid, tasks)
  {
    var sa, sb := tasks[a].job.value.scheduledAt, tasks[b].job.value.scheduledAt;
    sa < sb || (sa == sb && Before(a, b))
  }

  ghost predicate IsEarliest(sid: Id, tasks: Tasks, s: set<Id>, m: Id)
    requires s <= Finished(sid, tasks)
  {
    m in s && forall x :: x in s && x != m ==> Earlier(sid, tasks, m, x)
  }

  lemma {:induction false} EarliestExists(sid: Id, tasks: Tasks, s: set<Id>)
    requires s <= Finished(sid, tasks) && s != {}
    ensures exists m :: IsEarliest(sid, tasks, s, m)
    decreases |s|
  {
    var x :| x in s;
    if s - {x} == {} {
      assert s == {x};
      assert IsEarliest(sid, tasks, s, x);
    } else {
      EarliestExists(sid, tasks, s - {x});
      var m :| IsEarliest(sid, tasks, s - {x}, m);
      BeforeTotal(x, m);
      if Earlier(sid, tasks, m, x) {
        assert IsEarliest(sid, tasks, s, m);
      } else {
        forall y | y in s && y != x ensures Earlier(sid, tasks, x, y) {
          assert y == m || (y in s - {x} && Earlier(sid, tasks, m, y));
          if Before(x, m) && Before(m, y) { BeforeTransitive(x, m, y); }
        }
        assert IsEarliest(sid, tasks, s, x);
      }
    }
  }

  ghost function Earliest(sid: Id, tasks: Tasks, s: set<Id>): (m: Id)
    requires s <= Finished(sid, tasks) && s != {}
    ensures IsEarliest(sid, tasks, s, m)
  {
    EarliestExists(sid, tasks, s);
    var m :| IsEarliest(sid, tasks, s, m);
    m
  }

  /** The finished executions left when the earliest go until at most `keep` remain. */
  ghost function Recent(sid: Id, tasks: Tasks, s: set<Id>, keep: nat): (r: set<Id>)
    requires s <= Finished(sid, tasks)
    ensures r <= s && |r| == Min(|s|, keep)
    ensures forall x, y :: x in s - r && y in r ==> Earlier(sid, tasks, x, y)
    decreases |s|
  {
    if |s| <= keep then s
    else
      var m := Earliest(sid, tasks, s);
      var r := Recent(sid, tasks, s - {m}, keep);
      assert forall x, y :: x in s - r && y in r ==> x == m || x in (s - {m}) - r;
      r
  }

  ghost function Prune(sid: Id, tasks: Tasks): Tasks {
    var finished := Finished(sid, tasks);
    tasks - (finished - Recent(sid, tasks, finished, HISTORY))
  }

  ghost function PruneAll(order: seq<Id>, tasks: Tasks): Tasks {
    if order == [] then tasks else PruneAll(order[1..], Prune(order[0], tasks))
  }

  // ----- the job half of a pass, and the restart rule -----

  ghost function JobPass(c: Config, live: set<Id>, now: int, cron: Cron, order: seq<Id>, s: JobState,
          ids: set<Id> -> Id): JobState
    requires forall i :: 0 <= i < |order| ==> order[i] in c.services
  {
    var expired := s.(tasks := ExpireTasks(c, live, now, s.tasks));
    var triggered := TriggerJobs(c, live, now, cron, order, expired, ids);
    triggered.(tasks := PruneAll(order, triggered.tasks))
  }

  /** After a restart, occurrences that fell due while the controller was down are skipped. */
  function SkipMissedCursor(c: Config, now: int, cron: Cron, sid: Id, cursor: Cursor): Cursor {
    if sid !in c.services || c.services[sid].spec.job.None? || cursor.nextAt > now then cursor
    else
      match cron(c.services[sid].spec.job.value, now)
      case None => cursor
      case Some(next) => cursor.(nextAt := next)
  }

  function SkipMissed(c: Config, now: int, cron: Cron, cursors: map<Id, Cursor>): map<Id, Cursor> {
    map sid | sid in cursors :: SkipMissedCursor(c, now, cron, sid, cursors[sid])
  }
}
