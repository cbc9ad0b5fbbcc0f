/** What the job half of a pass decides about single jobs and executions, said over the records themselves. */
module JobRules {
  import opened Wrappers
  import opened Cluster
  import opened Ordering
  import opened Scheduler
  import opened Jobs
  import opened TaskRules

  predicate Ended(t: Task) {
    t.observed.Succeeded? || t.observed.Failed? || t.observed.Cancelled? || t.observed.TimedOut?
  }

  // ----- executions that must not start any more -----

  /**
   * An execution is told to stop exactly if its job is gone or its start deadline passed before it was seen to start. If
   * its node is away and it has not ended, its state becomes unknown. Nothing else about it changes.
   */
  lemma {:induction false} ExpiryExactly(c: Config, live: set<Id>, now: int, tasks: Tasks, id: Id)
    requires id in tasks
    ensures id in ExpireTasks(c, live, now, tasks)
    ensures var t, after := tasks[id], ExpireTasks(c, live, now, tasks)[id];
      && (t.job.None? ==> after == t)
      && (t.job.Some? ==>
            var gone := t.service !in c.services || c.services[t.service].deleted || c.services[t.service].spec.job.None?;
            var late := now >= t.job.value.startDeadline && (t.observed.Pending? || t.observed.Unknown?);
            && after == t.(desired := after.desired, observed := after.observed)
            && after.desired == (if gone || late then Stopped else t.desired)
            && after.observed == (if t.node !in live && !Ended(t) then Unknown else t.observed))
  {
  }

  // ----- when a job fires -----

  /** The job has a schedule, is not suspended, and its cursor is for that schedule and due. */
  predicate Due(c: Config, now: int, sid: Id, cursors: map<Id, Cursor>) {
    && sid in c.services && !c.services[sid].deleted && c.services[sid].spec.job.Some?
    && var policy := c.services[sid].spec.job.value;
       && policy.schedule.Some? && !policy.suspend && sid in cursors
       && cursors[sid].schedule == policy.schedule.value && cursors[sid].timeZone == policy.timeZone
       && cursors[sid].nextAt <= now
  }

  /** An execution of the job that has not ended. */
  predicate Unended(tasks: Tasks, sid: Id, id: Id) {
    id in tasks && tasks[id].service == sid && tasks[id].job.Some? && !Ended(tasks[id])
  }

  /** How long an execution may take to stop. */
  function StopMillis(t: Task): int
    requires t.job.Some?
  {
    t.job.value.spec.graceSeconds * 1000 + 5000
  }

  /**
   * How long the new execution waits: no more than half a minute nor half of the time to the next occurrence, and within
   * these long enough for every execution it replaces to stop.
   */
  ghost predicate Waits(tasks: Tasks, sid: Id, wait: int, half: int) {
    && 0 <= wait <= 30_000 && wait <= half
    && (forall id :: Unended(tasks, sid, id) ==> wait >= StopMillis(tasks[id]) || wait == 30_000 || wait == half)
    && (wait == 30_000 || wait == half
        || (exists id :: Unended(tasks, sid, id) && wait == StopMillis(tasks[id]))
        || (wait == 0 && forall id :: !Unended(tasks, sid, id)))
  }

  lemma {:induction false} GraceWaits(svc: Service, sid: Id, tasks: Tasks, scheduled: int, now: int, next: int)
    requires now < next
    ensures Waits(tasks, sid, NewExecution(svc, scheduled, now, next, Grace(sid, tasks)).notBefore - now, (next - now) / 2)
  {
    var unended := Unfinished(sid, tasks);
    var grace := Grace(sid, tasks);
    LongestStopIsGrace(tasks, unended);
    forall id ensures Unended(tasks, sid, id) <==> id in unended {
    }
    if unended != {} {
      var id :| id in unended && StopTime(tasks[id]) == grace;
      assert Unended(tasks, sid, id) && StopMillis(tasks[id]) == grace;
    }
  }

  /**
   * What a trigger adds: an execution of the due occurrence, on a live node that runs jobs and that the job's
   * constraints admit, which starts after its predecessors had time to stop. These are all told to stop.
   */
  lemma {:induction false} TriggeredExecution(c: Config, live: set<Id>, now: int, cron: Cron, sid: Id, s: JobState,
          ids: set<Id> -> Id, id: Id)
    requires Advances(cron) && Fresh(ids) && sid in c.services
    requires var after := TriggerJob(c, live, now, cron, sid, s, ids); id in after.tasks && id !in s.tasks
    ensures Due(c, now, sid, s.cursors) && now - s.cursors[sid].nextAt < 60_000
    ensures var t := TriggerJob(c, live, now, cron, sid, s, ids).tasks[id];
      && t.service == sid && t.revision == c.services[sid].revision && t.desired.Running? && t.observed.Pending?
      && t.node in live && t.node in c.nodes && c.nodes[t.node].supportsJobs
      && Admits(c.services[sid].spec.constraints, t.node, c.nodes[t.node].labels)
      && t.job.Some?
      && var e := t.job.value;
         && e.scheduledAt == s.cursors[sid].nextAt && e.spec == c.services[sid].spec
         && cron(c.services[sid].spec.job.value, now) == Some(e.startDeadline)
         && Waits(s.tasks, sid, e.notBefore - now, (e.startDeadline - now) / 2)
    ensures forall other :: other in s.tasks && s.tasks[other].service == sid && s.tasks[other].job.Some? ==>
              var after := TriggerJob(c, live, now, cron, sid, s, ids).tasks;
              other in after && after[other].desired.Stopped?
  {
    var svc := c.services[sid];
    var stopped, single := StopJobs(sid, s.tasks), SingleReplica(svc);
    var nodes := JobNodes(c, live);
    var next := cron(svc.spec.job.value, now).value;
    GraceWaits(svc, sid, s.tasks, s.cursors[sid].nextAt, now, next);
    ScheduledTask(c, nodes, sid, single, stopped);
    var t := ScheduleTask(c, nodes, sid, single, stopped).value;
    CandidateExactly(c, nodes, sid, single, stopped, t.node);
  }

  /** Every task added is an execution that waits for those it replaces. */
  ghost predicate AddedWait(before: Tasks, sid: Id, now: int, after: Tasks) {
    forall id :: id in after && id !in before ==>
      && after[id].job.Some?
      && var e := after[id].job.value; Waits(before, sid, e.notBefore - now, (e.startDeadline - now) / 2)
  }

  lemma {:induction false} TriggeredWaits(c: Config, live: set<Id>, now: int, cron: Cron, sid: Id, s: JobState,
          ids: set<Id> -> Id)
    requires Fresh(ids) && sid in c.services
    ensures Advances(cron) ==> AddedWait(s.tasks, sid, now, TriggerJob(c, live, now, cron, sid, s, ids).tasks)
  {
    var after := TriggerJob(c, live, now, cron, sid, s, ids).tasks;
    forall id | Advances(cron) && id in after && id !in s.tasks
      ensures && after[id].job.Some?
              && var e := after[id].job.value; Waits(s.tasks, sid, e.notBefore - now, (e.startDeadline - now) / 2)
    {
      TriggeredExecution(c, live, now, cron, sid, s, ids, id);
    }
  }

  /** Whether or not a node takes it, a due occurrence is consumed: the cursor remembers it and moves past the present. */
  lemma {:induction false} DueIsConsumed(c: Config, live: set<Id>, now: int, cron: Cron, sid: Id, s: JobState,
          ids: set<Id> -> Id)
    requires Advances(cron) && Due(c, now, sid, s.cursors) && cron(c.services[sid].spec.job.value, now).Some?
    ensures var after := TriggerJob(c, live, now, cron, sid, s, ids).cursors;
      && sid in after && after[sid].last == Some(s.cursors[sid].nextAt)
      && Some(after[sid].nextAt) == cron(c.services[sid].spec.job.value, now) && after[sid].nextAt > now
      && after == s.cursors[sid := s.cursors[sid].(last := after[sid].last, nextAt := after[sid].nextAt)]
  {
  }

  /** A job that is not due starts and stops nothing. */
  lemma {:induction false} NotDueIsIdle(c: Config, live: set<Id>, now: int, cron: Cron, sid: Id, s: JobState,
          ids: set<Id> -> Id)
    requires sid in c.services && !Due(c, now, sid, s.cursors)
    ensures var after := TriggerJob(c, live, now, cron, sid, s, ids); after.tasks == s.tasks && after.log == s.log
  {
  }

  /**
   * A new or changed schedule starts at its first occurrence after the present and after the last one consumed; a
   * suspended job's cursor only moves forward, past the present. What was consumed is remembered.
   */
  lemma {:induction false} ChangedPolicyMoves(c: Config, live: set<Id>, now: int, cron: Cron, sid: Id, s: JobState,
          ids: set<Id> -> Id, policy: JobPolicy)
    requires Advances(cron) && sid in c.services && !c.services[sid].deleted && c.services[sid].spec.job == Some(policy)
    requires policy.schedule.Some?
    requires var fits := sid in s.cursors && s.cursors[sid].schedule == policy.schedule.value
                         && s.cursors[sid].timeZone == policy.timeZone;
      !fits || policy.suspend
    ensures var after := TriggerJob(c, live, now, cron, sid, s, ids).cursors;
      var last := if sid in s.cursors then s.cursors[sid].last else None;
      var from := if last.Some? && last.value > now then last.value else now;
      if cron(policy, from).None? then after == s.cursors
      else
        && sid in after && after[sid].last == last
        && after[sid].schedule == policy.schedule.value && after[sid].timeZone == policy.timeZone
        && after[sid].nextAt >= cron(policy, from).value > now
        && (after[sid].nextAt == cron(policy, from).value
            || (policy.suspend && sid in s.cursors && after[sid].nextAt == s.cursors[sid].nextAt))
        && (forall other :: other != sid ==> (other in after <==> other in s.cursors) && (other in after ==> after[other] == s.cursors[other]))
  {
  }

  // ----- after a restart -----

  /** After the skip no cursor of a job whose schedule has a next occurrence is due; other cursors are as they were. */
  lemma {:induction false} SkippedIsAhead(c: Config, now: int, cron: Cron, cursors: map<Id, Cursor>, sid: Id)
    requires Advances(cron) && sid in cursors
    ensures var after := SkipMissed(c, now, cron, cursors);
      && sid in after && after[sid] == cursors[sid].(nextAt := after[sid].nextAt)
      && (if sid in c.services && c.services[sid].spec.job.Some? && cursors[sid].nextAt <= now
             && cron(c.services[sid].spec.job.value, now).Some?
          then after[sid].nextAt > now && Some(after[sid].nextAt) == cron(c.services[sid].spec.job.value, now)
          else after[sid] == cursors[sid])
  {
  }

  // ----- history -----

  /** The ended executions of a job. */
  function EndedOf(tasks: Tasks, sid: Id): set<Id> {
    set id | id in tasks && tasks[id].service == sid && tasks[id].job.Some? && Ended(tasks[id])
  }

  /** Pruning leaves the twenty latest ended executions of the job, by scheduled time and then by id, and all other tasks. */
  lemma {:induction false} PruneKeepsLatest(sid: Id, tasks: Tasks)
    ensures var after := Prune(sid, tasks);
      && (forall id :: id in after ==> id in tasks && after[id] == tasks[id])
      && (forall id :: id in tasks && id !in EndedOf(tasks, sid) ==> id in after)
      && |EndedOf(after, sid)| == Min(20, |EndedOf(tasks, sid)|)
      && (forall a, b :: a in EndedOf(tasks, sid) && a !in after && b in EndedOf(after, sid) ==>
            var earlier, later := tasks[a].job.value.scheduledAt, tasks[b].job.value.scheduledAt;
            earlier < later || (earlier == later && Before(a, b)))
  {
    var finished := Finished(sid, tasks);
    assert finished == EndedOf(tasks, sid);
    var after := Prune(sid, tasks);
    assert EndedOf(after, sid) == Recent(sid, tasks, finished, HISTORY);
  }
}
