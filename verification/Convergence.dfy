/** Repeated passes with the same nodes and clock come to rest. */
module Convergence {
  import opened Sets
  import opened Wrappers
  import opened Cluster
  import opened Ordering
  import opened Scheduler

  /** The service has nothing to retire or create, apart from one stop-first step. */
  ghost predicate Ready(c: Config, live: set<Id>, sid: Id, svc: Service, tasks: Tasks) {
    var current := Current(live, sid, svc, tasks);
    && Violating(c, sid, svc, tasks) == {}
    && |current| <= svc.spec.replicas
    && |Old(live, sid, svc, tasks)| <= Surplus(svc.spec.replicas, |Serving(current, tasks)|)
    && (Quota(live, sid, svc, tasks) == 0 || ScheduleTask(c, live, sid, svc, tasks) == None)
  }

  ghost predicate WillStopFirst(live: set<Id>, sid: Id, svc: Service, tasks: Tasks) {
    StopsFirst(svc, Current(live, sid, svc, tasks), Old(live, sid, svc, tasks))
  }

  lemma {:induction false} ReadyVictims(c: Config, live: set<Id>, sid: Id, svc: Service, tasks: Tasks)
    requires Ready(c, live, sid, svc, tasks)
    ensures KeptCurrent(c, live, sid, svc, tasks) == Current(live, sid, svc, tasks)
    ensures KeptOld(c, live, sid, svc, tasks) == Old(live, sid, svc, tasks)
    ensures Victims(c, live, sid, svc, tasks)
            == if WillStopFirst(live, sid, svc, tasks) then {Smallest(Old(live, sid, svc, tasks))} else {}
  {
    assert Current(live, sid, svc, tasks) - Violating(c, sid, svc, tasks) == Current(live, sid, svc, tasks);
  }

  /** A ready service that has no stop-first step to take is left exactly as it is. */
  lemma {:induction false} ReadyIsFixed(c: Config, live: set<Id>, sid: Id, svc: Service, tasks: Tasks,
          ids: set<Id> -> Id)
    requires Ready(c, live, sid, svc, tasks) && !WillStopFirst(live, sid, svc, tasks)
    ensures ReconcileService(c, live, sid, svc, tasks, ids) == tasks
  {
    ReadyVictims(c, live, sid, svc, tasks);
    assert Retire(tasks, {}, sid in c.httpRouted) == tasks;
  }

  /** What retiring `ids` does to the groups that are counted. */
  lemma {:induction false} RetireGroups(c: Config, live: set<Id>, sid: Id, svc: Service, tasks: Tasks, ids: set<Id>,
          routed: bool)
    ensures var r := Retire(tasks, ids, routed);
      && Current(live, sid, svc, r) == Current(live, sid, svc, tasks) - ids
      && Old(live, sid, svc, r) == Old(live, sid, svc, tasks) - ids
      && Violating(c, sid, svc, r) == Violating(c, sid, svc, tasks) - ids
      && Occupying(live, sid, r) == Occupying(live, sid, tasks)
  {
  }

  lemma {:induction false} RetireServing(tasks: Tasks, ids: set<Id>, routed: bool, among: set<Id>)
    ensures Serving(among, Retire(tasks, ids, routed)) == Serving(among, tasks)
  {
  }

  /** Every container of `tasks` is still there, with its node, observed state and ports. */
  ghost predicate ContainersStay(tasks: Tasks, after: Tasks) {
    forall id :: id in tasks ==>
      && id in after && after[id].node == tasks[id].node
      && after[id].observed == tasks[id].observed && after[id].ports == tasks[id].ports
  }

  lemma {:induction false} PortStaysTaken(c: Config, tasks: Tasks, after: Tasks, node: Id, protocol: string,
          published: nat)
    requires ContainersStay(tasks, after) && PortTaken(c, tasks, node, protocol, published)
    ensures PortTaken(c, after, node, protocol, published)
  {
    if id :| id in tasks && HoldsPort(tasks[id], node, protocol, published) {
      assert HoldsPort(after[id], node, protocol, published);
    }
  }

  lemma {:induction false} PortsWereFree(c: Config, tasks: Tasks, after: Tasks, node: Id, ports: seq<Port>)
    requires ContainersStay(tasks, after) && PortsFree(c, after, node, ports)
    ensures PortsFree(c, tasks, node, ports)
  {
    forall i | 0 <= i < |ports| && ports[i].published.Some?
      ensures !PortTaken(c, tasks, node, ports[i].protocol, ports[i].published.value)
    {
      if PortTaken(c, tasks, node, ports[i].protocol, ports[i].published.value) {
        PortStaysTaken(c, tasks, after, node, ports[i].protocol, ports[i].published.value);
      }
    }
  }

  lemma {:induction false} RetireCapacity(tasks: Tasks, ids: set<Id>, routed: bool, node: Id, sid: Id, svc: Service)
    requires svc.spec.maxSurge == 0
    ensures HasCapacity(node, sid, svc, Retire(tasks, ids, routed)) <==> HasCapacity(node, sid, svc, tasks)
  {
    assert ActiveOn(node, sid, Retire(tasks, ids, routed)) == ActiveOn(node, sid, tasks);
  }

  lemma {:induction false} RetireCandidates(c: Config, live: set<Id>, sid: Id, svc: Service, tasks: Tasks,
          ids: set<Id>, routed: bool)
    requires svc.spec.maxSurge == 0
    ensures Candidates(c, live, sid, svc, Retire(tasks, ids, routed)) == Candidates(c, live, sid, svc, tasks)
  {
    var r := Retire(tasks, ids, routed);
    forall node ensures Eligible(c, live, sid, svc, r, node) <==> Eligible(c, live, sid, svc, tasks, node) {
      RetireCapacity(tasks, ids, routed, node, sid, svc);
      if PortsFree(c, r, node, svc.spec.ports) { PortsWereFree(c, tasks, r, node, svc.spec.ports); }
      if PortsFree(c, tasks, node, svc.spec.ports) { PortsWereFree(c, r, tasks, node, svc.spec.ports); }
    }
  }

  /** Retiring an old task of a stop-first service opens no room and frees no slot. */
  lemma {:induction false} RetireOldStaysBlocked(c: Config, live: set<Id>, sid: Id, svc: Service, tasks: Tasks, x: Id,
          routed: bool)
    requires svc.spec.maxSurge == 0 && x in Old(live, sid, svc, tasks)
    ensures ScheduleTask(c, live, sid, svc, Retire(tasks, {x}, routed)) == None
            <==> ScheduleTask(c, live, sid, svc, tasks) == None
  {
    var r := Retire(tasks, {x}, routed);
    RetireCandidates(c, live, sid, svc, tasks, {x}, routed);
    assert SlotHolders(sid, svc, r) == SlotHolders(sid, svc, tasks);
    assert UsedSlots(sid, svc, r) == UsedSlots(sid, svc, tasks);
  }

  /** A stop-first service gives up one old task, creates nothing, and stays ready. */
  lemma {:induction false} StopFirstStep(c: Config, live: set<Id>, sid: Id, svc: Service, tasks: Tasks,
          ids: set<Id> -> Id)
    requires Ready(c, live, sid, svc, tasks) && WillStopFirst(live, sid, svc, tasks)
    ensures var r := Retire(tasks, {Smallest(Old(live, sid, svc, tasks))}, sid in c.httpRouted);
      && ReconcileService(c, live, sid, svc, tasks, ids) == r
      && Ready(c, live, sid, svc, r)
  {
    ReadyVictims(c, live, sid, svc, tasks);
    StopFirstStaysReady(c, live, sid, svc, tasks);
  }

  lemma {:induction false} StopFirstStaysReady(c: Config, live: set<Id>, sid: Id, svc: Service, tasks: Tasks)
    requires Ready(c, live, sid, svc, tasks) && WillStopFirst(live, sid, svc, tasks)
    ensures var r := Retire(tasks, {Smallest(Old(live, sid, svc, tasks))}, sid in c.httpRouted);
      && Ready(c, live, sid, svc, r)
      && (Quota(live, sid, svc, r) == 0 || ScheduleTask(c, live, sid, svc, r) == None)
  {
    var x, routed := Smallest(Old(live, sid, svc, tasks)), sid in c.httpRouted;
    RetireGroups(c, live, sid, svc, tasks, {x}, routed);
    RetireServing(tasks, {x}, routed, Current(live, sid, svc, tasks));
    RetireOldStaysBlocked(c, live, sid, svc, tasks, x, routed);
    var r := Retire(tasks, {x}, routed);
    assert Current(live, sid, svc, r) == Current(live, sid, svc, tasks);
    assert Quota(live, sid, svc, r) == Quota(live, sid, svc, tasks);
  }

  // ----- after its own step a service is ready -----

  /** `t` is a task the create loop may add for the service. */
  ghost predicate Placed(c: Config, live: set<Id>, sid: Id, svc: Service, tasks: Tasks, t: Task) {
    && t.service == sid && t.revision == svc.revision
    && t.desired.Running? && t.observed.Pending? && t.job.None?
    && Eligible(c, live, sid, svc, tasks, t.node)
    && t.slot < svc.spec.replicas && t.slot !in UsedSlots(sid, svc, tasks)
    && t.ports == AllocatePorts(svc.spec.ports, GatewayPorts(c, sid))
  }

  lemma {:induction false} ScheduledIsPlaced(c: Config, live: set<Id>, sid: Id, svc: Service, tasks: Tasks)
    ensures var r := ScheduleTask(c, live, sid, svc, tasks);
      r.Some? ==> Placed(c, live, sid, svc, tasks, r.value)
  {
  }

  lemma {:induction false} AddGroups(c: Config, live: set<Id>, sid: Id, svc: Service, tasks: Tasks, id: Id, t: Task)
    requires id !in tasks && Placed(c, live, sid, svc, tasks, t)
    ensures var r := tasks[id := t];
      && Current(live, sid, svc, r) == Current(live, sid, svc, tasks) + {id}
      && Old(live, sid, svc, r) == Old(live, sid, svc, tasks)
      && Violating(c, sid, svc, r) == Violating(c, sid, svc, tasks)
      && Occupying(live, sid, r) == Occupying(live, sid, tasks) + {id}
      && Serving(Current(live, sid, svc, r), r) == Serving(Current(live, sid, svc, tasks), tasks)
  {
  }

  /** One placement uses up one unit of the quota. */
  lemma {:induction false} AddQuota(c: Config, live: set<Id>, sid: Id, svc: Service, tasks: Tasks, id: Id, t: Task)
    requires id !in tasks && Placed(c, live, sid, svc, tasks, t) && Quota(live, sid, svc, tasks) > 0
    ensures Quota(live, sid, svc, tasks[id := t]) == Quota(live, sid, svc, tasks) - 1
  {
    AddGroups(c, live, sid, svc, tasks, id, t);
  }

  ghost predicate Trimmed(c: Config, live: set<Id>, sid: Id, svc: Service, tasks: Tasks) {
    var current := Current(live, sid, svc, tasks);
    && Violating(c, sid, svc, tasks) == {}
    && |current| <= svc.spec.replicas
    && |Old(live, sid, svc, tasks)| <= Surplus(svc.spec.replicas, |Serving(current, tasks)|)
  }

  lemma {:induction false} PlaceReady(c: Config, live: set<Id>, sid: Id, svc: Service, tasks: Tasks, n: nat,
          ids: set<Id> -> Id)
    requires Fresh(ids) && Trimmed(c, live, sid, svc, tasks) && Quota(live, sid, svc, tasks) == n
    ensures Ready(c, live, sid, svc, Place(c, live, sid, svc, tasks, n, ids))
    decreases n
  {
    var r := ScheduleTask(c, live, sid, svc, tasks);
    if n > 0 && r.Some? {
      var id := ids(tasks.Keys);
      ScheduledIsPlaced(c, live, sid, svc, tasks);
      AddGroups(c, live, sid, svc, tasks, id, r.value);
      AddQuota(c, live, sid, svc, tasks, id, r.value);
      PlaceReady(c, live, sid, svc, tasks[id := r.value], n - 1, ids);
    }
  }

  lemma {:induction false} SplitVictims(violating: set<Id>, current: set<Id>, keptCurrent: set<Id>, former: set<Id>,
          keptOld: set<Id>, first: set<Id>)
    requires keptCurrent <= current - violating && keptOld <= former && first <= keptOld
    requires current !! former && violating !! former
    ensures var victims := violating + (current - keptCurrent) + (former - keptOld) + first;
      current - victims == keptCurrent && former - victims == keptOld - first && violating - victims == {}
  {
  }

  /** What is left of the counted groups after the victims are retired. */
  lemma {:induction false} RetiredGroups(c: Config, live: set<Id>, sid: Id, svc: Service, tasks: Tasks)
    ensures var r := Retire(tasks, Victims(c, live, sid, svc, tasks), sid in c.httpRouted);
      var keptCurrent := KeptCurrent(c, live, sid, svc, tasks);
      var keptOld := KeptOld(c, live, sid, svc, tasks);
      && Current(live, sid, svc, r) == keptCurrent
      && Old(live, sid, svc, r)
         == keptOld - (if StopsFirst(svc, keptCurrent, keptOld) then {Smallest(keptOld)} else {})
      && Violating(c, sid, svc, r) == {}
      && Occupying(live, sid, r) == Occupying(live, sid, tasks)
      && Serving(keptCurrent, r) == Serving(keptCurrent, tasks)
  {
    var victims := Victims(c, live, sid, svc, tasks);
    var keptCurrent, keptOld := KeptCurrent(c, live, sid, svc, tasks), KeptOld(c, live, sid, svc, tasks);
    RetireGroups(c, live, sid, svc, tasks, victims, sid in c.httpRouted);
    RetireServing(tasks, victims, sid in c.httpRouted, keptCurrent);
    SplitVictims(Violating(c, sid, svc, tasks), Current(live, sid, svc, tasks), keptCurrent,
                 Old(live, sid, svc, tasks), keptOld,
                 if StopsFirst(svc, keptCurrent, keptOld) then {Smallest(keptOld)} else {});
  }

  lemma {:induction false} ReconcileServiceReady(c: Config, live: set<Id>, sid: Id, svc: Service, tasks: Tasks,
          ids: set<Id> -> Id)
    requires Fresh(ids)
    ensures Ready(c, live, sid, svc, ReconcileService(c, live, sid, svc, tasks, ids))
  {
    RetiredGroups(c, live, sid, svc, tasks);
    var r := Retire(tasks, Victims(c, live, sid, svc, tasks), sid in c.httpRouted);
    PlaceReady(c, live, sid, svc, r, Quota(live, sid, svc, r), ids);
  }

  // ----- another service's step keeps a service ready -----

  /** Only other services' tasks differ: some retired, some added, none removed. */
  ghost predicate Foreign(sid: Id, tasks: Tasks, after: Tasks) {
    && (forall id :: id in tasks ==> id in after)
    && (forall id :: id in tasks && tasks[id].service == sid ==> after[id] == tasks[id])
    && (forall id :: id in tasks && tasks[id].service != sid ==>
          after[id] == tasks[id].(desired := after[id].desired, drainUntil := after[id].drainUntil))
    && (forall id :: id in after && id !in tasks ==> after[id].service != sid)
  }

  lemma {:induction false} ForeignTransitive(sid: Id, a: Tasks, b: Tasks, c: Tasks)
    requires Foreign(sid, a, b) && Foreign(sid, b, c)
    ensures Foreign(sid, a, c)
  {
    forall id | id in a && a[id].service != sid
      ensures c[id] == a[id].(desired := c[id].desired, drainUntil := c[id].drainUntil)
    {
      assert b[id].service != sid;
    }
  }

  lemma {:induction false} ForeignGroups(c: Config, live: set<Id>, sid: Id, svc: Service, tasks: Tasks, after: Tasks)
    requires Foreign(sid, tasks, after)
    ensures Current(live, sid, svc, after) == Current(live, sid, svc, tasks)
    ensures Old(live, sid, svc, after) == Old(live, sid, svc, tasks)
    ensures Violating(c, sid, svc, after) == Violating(c, sid, svc, tasks)
    ensures Occupying(live, sid, after) == Occupying(live, sid, tasks)
    ensures Serving(Current(live, sid, svc, after), after) == Serving(Current(live, sid, svc, tasks), tasks)
    ensures Members(sid, after) == Members(sid, tasks)
  {
  }

  lemma {:induction false} ForeignCapacity(sid: Id, svc: Service, tasks: Tasks, after: Tasks, node: Id)
    requires Foreign(sid, tasks, after)
    ensures HasCapacity(node, sid, svc, after) <==> HasCapacity(node, sid, svc, tasks)
  {
    assert ActiveOn(node, sid, after) == ActiveOn(node, sid, tasks);
    assert OldOn(node, sid, svc, after) == OldOn(node, sid, svc, tasks);
  }

  /** Competing services can only take room away: a blocked placement stays blocked. */
  lemma {:induction false} ForeignStaysBlocked(c: Config, live: set<Id>, sid: Id, svc: Service, tasks: Tasks,
          after: Tasks)
    requires Foreign(sid, tasks, after) && ScheduleTask(c, live, sid, svc, tasks) == None
    ensures ScheduleTask(c, live, sid, svc, after) == None
  {
    assert Candidates(c, live, sid, svc, after) <= Candidates(c, live, sid, svc, tasks) by {
      forall node | Eligible(c, live, sid, svc, after, node) ensures Eligible(c, live, sid, svc, tasks, node) {
        ForeignCapacity(sid, svc, tasks, after, node);
        PortsWereFree(c, tasks, after, node, svc.spec.ports);
      }
    }
    assert SlotHolders(sid, svc, after) == SlotHolders(sid, svc, tasks);
    assert UsedSlots(sid, svc, after) == UsedSlots(sid, svc, tasks);
  }

  lemma {:induction false} ForeignReady(c: Config, live: set<Id>, sid: Id, svc: Service, tasks: Tasks, after: Tasks)
    requires Foreign(sid, tasks, after) && Ready(c, live, sid, svc, tasks)
    ensures Ready(c, live, sid, svc, after)
  {
    ForeignGroups(c, live, sid, svc, tasks, after);
    if ScheduleTask(c, live, sid, svc, tasks) == None {
      ForeignStaysBlocked(c, live, sid, svc, tasks, after);
    }
  }

  lemma {:induction false} PlaceForeign(c: Config, live: set<Id>, sid: Id, svc: Service, tasks: Tasks, n: nat,
          ids: set<Id> -> Id, other: Id)
    requires Fresh(ids) && other != sid
    ensures Foreign(other, tasks, Place(c, live, sid, svc, tasks, n, ids))
    decreases n
  {
    var r := ScheduleTask(c, live, sid, svc, tasks);
    if n > 0 && r.Some? {
      var next := tasks[ids(tasks.Keys) := r.value];
      PlaceForeign(c, live, sid, svc, next, n - 1, ids, other);
      ForeignTransitive(other, tasks, next, Place(c, live, sid, svc, next, n - 1, ids));
    }
  }

  /** Every victim belongs to the service being reconciled. */
  lemma {:induction false} RetireForeign(tasks: Tasks, ids: set<Id>, routed: bool, other: Id)
    requires forall id :: id in ids && id in tasks ==> tasks[id].service != other
    ensures Foreign(other, tasks, Retire(tasks, ids, routed))
  {
  }

  lemma {:induction false} VictimsBelong(c: Config, live: set<Id>, sid: Id, svc: Service, tasks: Tasks)
    ensures Victims(c, live, sid, svc, tasks) <= Members(sid, tasks)
  {
    GroupsBelong(c, live, sid, svc, tasks);
    KeptIsOld(c, live, sid, svc, tasks);
  }

  lemma {:induction false} GroupsBelong(c: Config, live: set<Id>, sid: Id, svc: Service, tasks: Tasks)
    ensures Violating(c, sid, svc, tasks) + Current(live, sid, svc, tasks) + Old(live, sid, svc, tasks) <= Members(sid, tasks)
  {
  }

  lemma {:induction false} KeptIsOld(c: Config, live: set<Id>, sid: Id, svc: Service, tasks: Tasks)
    ensures KeptOld(c, live, sid, svc, tasks) <= Old(live, sid, svc, tasks)
  {
  }

  lemma {:induction false} ReconcileServiceForeign(c: Config, live: set<Id>, sid: Id, svc: Service, tasks: Tasks,
          ids: set<Id> -> Id, other: Id)
    requires Fresh(ids) && other != sid
    ensures Foreign(other, tasks, ReconcileService(c, live, sid, svc, tasks, ids))
  {
    var victims := Victims(c, live, sid, svc, tasks);
    VictimsBelong(c, live, sid, svc, tasks);
    RetireForeign(tasks, victims, sid in c.httpRouted, other);
    var retired := Retire(tasks, victims, sid in c.httpRouted);
    var n := Quota(live, sid, svc, retired);
    PlaceForeign(c, live, sid, svc, retired, n, ids, other);
    ForeignTransitive(other, tasks, retired, Place(c, live, sid, svc, retired, n, ids));
  }

  lemma {:induction false} StepForeign(c: Config, live: set<Id>, sid: Id, tasks: Tasks, ids: set<Id> -> Id, other: Id)
    requires Fresh(ids) && sid in c.services && other != sid
    ensures Foreign(other, tasks, StepService(c, live, sid, tasks, ids))
  {
    var svc := c.services[sid];
    if svc.deleted || svc.spec.replicas == 0 {
      RetireForeign(tasks, Members(sid, tasks), sid in c.httpRouted, other);
    } else {
      ReconcileServiceForeign(c, live, sid, svc, tasks, ids, other);
    }
  }

  // ----- whole passes -----

  /** The pass reconciles this service instead of skipping or clearing it. */
  predicate Managed(c: Config, sid: Id) {
    && sid in c.services
    && c.services[sid].spec.job.None? && sid !in c.restartingServices
    && !c.services[sid].deleted && c.services[sid].spec.replicas > 0
  }

  ghost predicate ServiceReady(c: Config, live: set<Id>, sid: Id, tasks: Tasks)
    requires sid in c.services
  {
    var svc := c.services[sid];
    if svc.spec.job.Some? || sid in c.restartingServices then true
    else if svc.deleted || svc.spec.replicas == 0 then
      forall id :: id in tasks && tasks[id].service == sid ==> !tasks[id].desired.Running?
    else Ready(c, live, sid, svc, tasks)
  }

  /** The service is managed and its next step retires one old task. */
  ghost predicate StopFirstDue(c: Config, live: set<Id>, sid: Id, tasks: Tasks) {
    Managed(c, sid) && WillStopFirst(live, sid, c.services[sid], tasks)
  }

  /** Running tasks of a revision that their service has replaced. */
  function Outdated(c: Config, tasks: Tasks): set<Id> {
    set id | id in tasks && tasks[id].desired.Running? && tasks[id].service in c.services
             && tasks[id].revision != c.services[tasks[id].service].revision
  }

  lemma {:induction false} StepReady(c: Config, live: set<Id>, sid: Id, tasks: Tasks, ids: set<Id> -> Id)
    requires Fresh(ids) && sid in c.services
    ensures ServiceReady(c, live, sid, StepService(c, live, sid, tasks, ids))
  {
    if Managed(c, sid) {
      ReconcileServiceReady(c, live, sid, c.services[sid], tasks, ids);
    } else {
      RetireMembers(sid, tasks, sid in c.httpRouted);
    }
  }

  lemma {:induction false} RetireMembers(sid: Id, tasks: Tasks, routed: bool)
    ensures var r := Retire(tasks, Members(sid, tasks), routed);
      forall id :: id in r && r[id].service == sid ==> !r[id].desired.Running?
  {
  }

  lemma {:induction false} StepKeepsReady(c: Config, live: set<Id>, sid: Id, tasks: Tasks, ids: set<Id> -> Id,
          other: Id)
    requires Fresh(ids) && sid in c.services && other in c.services && other != sid
    requires ServiceReady(c, live, other, tasks)
    ensures ServiceReady(c, live, other, StepService(c, live, sid, tasks, ids))
  {
    var after := StepService(c, live, sid, tasks, ids);
    StepForeign(c, live, sid, tasks, ids, other);
    if Managed(c, other) {
      ForeignReady(c, live, other, c.services[other], tasks, after);
    }
  }

  lemma {:induction false} StepsReady(c: Config, live: set<Id>, order: seq<Id>, tasks: Tasks, ids: set<Id> -> Id,
          done: set<Id>)
    requires Fresh(ids) && (forall i :: 0 <= i < |order| ==> order[i] in c.services)
    requires forall sid :: sid in done ==> sid in c.services && ServiceReady(c, live, sid, tasks)
    ensures forall sid :: (sid in done || sid in order) && sid in c.services ==>
              ServiceReady(c, live, sid, StepServices(c, live, order, tasks, ids))
  {
    if order != [] {
      var next := StepService(c, live, order[0], tasks, ids);
      forall sid | sid in done + {order[0]} ensures ServiceReady(c, live, sid, next) {
        if sid == order[0] {
          StepReady(c, live, sid, tasks, ids);
        } else {
          StepKeepsReady(c, live, order[0], tasks, ids, sid);
        }
      }
      StepsReady(c, live, order[1..], next, ids, done + {order[0]});
    }
  }

  lemma {:induction false} PlaceOutdated(c: Config, live: set<Id>, sid: Id, tasks: Tasks, n: nat, ids: set<Id> -> Id)
    requires Fresh(ids) && sid in c.services
    ensures Outdated(c, Place(c, live, sid, c.services[sid], tasks, n, ids)) == Outdated(c, tasks)
    decreases n
  {
    var r := ScheduleTask(c, live, sid, c.services[sid], tasks);
    if n > 0 && r.Some? {
      var next := tasks[ids(tasks.Keys) := r.value];
      assert Outdated(c, next) == Outdated(c, tasks);
      PlaceOutdated(c, live, sid, next, n - 1, ids);
    }
  }

  lemma {:induction false} RetireOutdated(c: Config, tasks: Tasks, ids: set<Id>, routed: bool)
    ensures Outdated(c, Retire(tasks, ids, routed)) == Outdated(c, tasks) - ids
  {
  }

  /** No step ever adds a running task of a replaced revision. */
  lemma {:induction false} StepOutdated(c: Config, live: set<Id>, sid: Id, tasks: Tasks, ids: set<Id> -> Id)
    requires Fresh(ids) && sid in c.services
    ensures Outdated(c, StepService(c, live, sid, tasks, ids)) <= Outdated(c, tasks)
  {
    var svc := c.services[sid];
    RetireOutdated(c, tasks, Members(sid, tasks), sid in c.httpRouted);
    RetireOutdated(c, tasks, Victims(c, live, sid, svc, tasks), sid in c.httpRouted);
    var retired := Retire(tasks, Victims(c, live, sid, svc, tasks), sid in c.httpRouted);
    PlaceOutdated(c, live, sid, retired, Quota(live, sid, svc, retired), ids);
  }

  /** From a ready state a step does nothing, or shrinks the outdated tasks and stays ready. */
  lemma {:induction false} StopFirstShrinks(c: Config, live: set<Id>, sid: Id, tasks: Tasks, ids: set<Id> -> Id)
    requires Fresh(ids) && sid in c.services && ServiceReady(c, live, sid, tasks) && StopFirstDue(c, live, sid, tasks)
    ensures Outdated(c, StepService(c, live, sid, tasks, ids)) < Outdated(c, tasks)
  {
    var svc := c.services[sid];
    StopFirstStep(c, live, sid, svc, tasks, ids);
    var x := Smallest(Old(live, sid, svc, tasks));
    RetireOutdated(c, tasks, {x}, sid in c.httpRouted);
    assert x in Outdated(c, tasks);
  }

  lemma {:induction false} StepFromReady(c: Config, live: set<Id>, sid: Id, tasks: Tasks, ids: set<Id> -> Id)
    requires Fresh(ids) && sid in c.services && ServiceReady(c, live, sid, tasks)
    ensures !StopFirstDue(c, live, sid, tasks) ==> StepService(c, live, sid, tasks, ids) == tasks
    ensures StopFirstDue(c, live, sid, tasks) ==>
              Outdated(c, StepService(c, live, sid, tasks, ids)) < Outdated(c, tasks)
  {
    var svc := c.services[sid];
    if StopFirstDue(c, live, sid, tasks) {
      StopFirstShrinks(c, live, sid, tasks, ids);
    } else if Managed(c, sid) {
      ReadyIsFixed(c, live, sid, svc, tasks, ids);
    } else {
      IdleMembers(sid, tasks, sid in c.httpRouted);
    }
  }

  lemma {:induction false} IdleMembers(sid: Id, tasks: Tasks, routed: bool)
    ensures (forall id :: id in tasks && tasks[id].service == sid ==> !tasks[id].desired.Running?) ==>
              Retire(tasks, Members(sid, tasks), routed) == tasks
  {
  }

  lemma {:induction false} StepsOutdated(c: Config, live: set<Id>, order: seq<Id>, tasks: Tasks, ids: set<Id> -> Id)
    requires Fresh(ids) && (forall i :: 0 <= i < |order| ==> order[i] in c.services)
    ensures Outdated(c, StepServices(c, live, order, tasks, ids)) <= Outdated(c, tasks)
  {
    if order != [] {
      StepOutdated(c, live, order[0], tasks, ids);
      StepsOutdated(c, live, order[1..], StepService(c, live, order[0], tasks, ids), ids);
    }
  }

  /** From a ready state a pass changes something exactly when a stop-first step is due. */
  lemma {:induction false} StepsFromReady(c: Config, live: set<Id>, order: seq<Id>, tasks: Tasks, ids: set<Id> -> Id)
    requires Fresh(ids) && (forall i :: 0 <= i < |order| ==> order[i] in c.services)
    requires forall sid :: sid in order ==> ServiceReady(c, live, sid, tasks)
    ensures (exists sid :: sid in order && StopFirstDue(c, live, sid, tasks)) ==>
              Outdated(c, StepServices(c, live, order, tasks, ids)) < Outdated(c, tasks)
    ensures !(exists sid :: sid in order && StopFirstDue(c, live, sid, tasks)) ==>
              StepServices(c, live, order, tasks, ids) == tasks
  {
    if order != [] {
      var next := StepService(c, live, order[0], tasks, ids);
      StepFromReady(c, live, order[0], tasks, ids);
      if StopFirstDue(c, live, order[0], tasks) {
        StepsOutdated(c, live, order[1..], next, ids);
      } else {
        assert forall sid :: sid in order <==> sid == order[0] || sid in order[1..];
        StepsFromReady(c, live, order[1..], next, ids);
      }
    }
  }

  // ----- the lost-task sweep is idle after the first pass -----

  ghost predicate NoneLost(c: Config, live: set<Id>, tasks: Tasks) {
    forall id :: id in tasks ==> !IsLost(c, live, id, tasks[id])
  }

  lemma {:induction false} StopLostIdle(c: Config, live: set<Id>, tasks: Tasks)
    ensures NoneLost(c, live, StopLost(c, live, tasks))
    ensures NoneLost(c, live, tasks) ==> StopLost(c, live, tasks) == tasks
    ensures Outdated(c, StopLost(c, live, tasks)) <= Outdated(c, tasks)
  {
  }

  lemma {:induction false} PlaceNoneLost(c: Config, live: set<Id>, sid: Id, svc: Service, tasks: Tasks, n: nat,
          ids: set<Id> -> Id)
    requires Fresh(ids) && NoneLost(c, live, tasks)
    ensures NoneLost(c, live, Place(c, live, sid, svc, tasks, n, ids))
    decreases n
  {
    var r := ScheduleTask(c, live, sid, svc, tasks);
    if n > 0 && r.Some? {
      ScheduledIsPlaced(c, live, sid, svc, tasks);
      PlaceNoneLost(c, live, sid, svc, tasks[ids(tasks.Keys) := r.value], n - 1, ids);
    }
  }

  lemma {:induction false} RetireNoneLost(c: Config, live: set<Id>, tasks: Tasks, ids: set<Id>, routed: bool)
    requires NoneLost(c, live, tasks)
    ensures NoneLost(c, live, Retire(tasks, ids, routed))
  {
  }

  lemma {:induction false} StepNoneLost(c: Config, live: set<Id>, sid: Id, tasks: Tasks, ids: set<Id> -> Id)
    requires Fresh(ids) && sid in c.services && NoneLost(c, live, tasks)
    ensures NoneLost(c, live, StepService(c, live, sid, tasks, ids))
  {
    var svc := c.services[sid];
    if svc.deleted || svc.spec.replicas == 0 {
      RetireNoneLost(c, live, tasks, Members(sid, tasks), sid in c.httpRouted);
    } else {
      var victims := Victims(c, live, sid, svc, tasks);
      RetireNoneLost(c, live, tasks, victims, sid in c.httpRouted);
      var retired := Retire(tasks, victims, sid in c.httpRouted);
      PlaceNoneLost(c, live, sid, svc, retired, Quota(live, sid, svc, retired), ids);
    }
  }

  lemma {:induction false} StepsNoneLost(c: Config, live: set<Id>, order: seq<Id>, tasks: Tasks, ids: set<Id> -> Id)
    requires Fresh(ids) && (forall i :: 0 <= i < |order| ==> order[i] in c.services) && NoneLost(c, live, tasks)
    ensures NoneLost(c, live, StepServices(c, live, order, tasks, ids))
  {
    if order != [] {
      StepNoneLost(c, live, order[0], tasks, ids);
      StepsNoneLost(c, live, order[1..], StepService(c, live, order[0], tasks, ids), ids);
    }
  }

  // ----- the theorems -----

  ghost function Pass(c: Config, live: set<Id>, order: seq<Id>, tasks: Tasks, ids: set<Id> -> Id): Tasks
    requires forall i :: 0 <= i < |order| ==> order[i] in c.services
  {
    StepServices(c, live, order, StopLost(c, live, tasks), ids)
  }

  ghost function Passes(c: Config, live: set<Id>, order: seq<Id>, tasks: Tasks, ids: set<Id> -> Id, n: nat): Tasks
    requires forall i :: 0 <= i < |order| ==> order[i] in c.services
    decreases n
  {
    if n == 0 then tasks else Passes(c, live, order, Pass(c, live, order, tasks, ids), ids, n - 1)
  }

  ghost predicate AtRest(c: Config, live: set<Id>, order: seq<Id>, tasks: Tasks) {
    && NoneLost(c, live, tasks)
    && forall sid :: sid in order ==> sid in c.services && ServiceReady(c, live, sid, tasks)
  }

  lemma {:induction false} PassRests(c: Config, live: set<Id>, order: seq<Id>, tasks: Tasks, ids: set<Id> -> Id)
    requires Fresh(ids) && forall i :: 0 <= i < |order| ==> order[i] in c.services
    ensures AtRest(c, live, order, Pass(c, live, order, tasks, ids))
    ensures Outdated(c, Pass(c, live, order, tasks, ids)) <= Outdated(c, tasks)
  {
    StopLostIdle(c, live, tasks);
    StepsReady(c, live, order, StopLost(c, live, tasks), ids, {});
    StepsNoneLost(c, live, order, StopLost(c, live, tasks), ids);
    StepsOutdated(c, live, order, StopLost(c, live, tasks), ids);
  }

  /** A pass over the result of a pass changes something exactly when a stop-first step is due. */
  lemma {:induction false} SecondPass(c: Config, live: set<Id>, order: seq<Id>, tasks: Tasks, ids: set<Id> -> Id)
    requires Fresh(ids) && forall i :: 0 <= i < |order| ==> order[i] in c.services
    ensures var first := Pass(c, live, order, tasks, ids);
      Pass(c, live, order, first, ids) == first
      <==> !exists sid :: sid in order && StopFirstDue(c, live, sid, first)
  {
    var first := Pass(c, live, order, tasks, ids);
    PassRests(c, live, order, tasks, ids);
    StopLostIdle(c, live, first);
    StepsFromReady(c, live, order, first, ids);
  }

  lemma {:induction false} OneStep(c: Config, live: set<Id>, sid: Id, tasks: Tasks, ids: set<Id> -> Id)
    requires sid in c.services && NoneLost(c, live, tasks)
    ensures Pass(c, live, [sid], tasks, ids) == StepService(c, live, sid, tasks, ids)
  {
    StopLostIdle(c, live, tasks);
    var rest: seq<Id> := [];
    assert [sid][1..] == rest;
    assert StepServices(c, live, rest, StepService(c, live, sid, tasks, ids), ids) == StepService(c, live, sid, tasks, ids);
  }

  lemma {:induction false} RetiredStillDue(c: Config, live: set<Id>, sid: Id, tasks: Tasks, x: Id, routed: bool)
    requires StopFirstDue(c, live, sid, tasks) && x in Old(live, sid, c.services[sid], tasks)
    requires |Old(live, sid, c.services[sid], tasks)| >= 2
    ensures StopFirstDue(c, live, sid, Retire(tasks, {x}, routed))
  {
    var svc := c.services[sid];
    var before := Old(live, sid, svc, tasks);
    RetireGroups(c, live, sid, svc, tasks, {x}, routed);
    assert |before - {x}| >= 1;
    assert Current(live, sid, svc, tasks) - {x} == Current(live, sid, svc, tasks);
  }

  /** A stop-first step that leaves an old task makes the next one due. */
  lemma {:induction false} StopFirstRepeats(c: Config, live: set<Id>, sid: Id, tasks: Tasks, ids: set<Id> -> Id)
    requires Fresh(ids) && StopFirstDue(c, live, sid, tasks) && Ready(c, live, sid, c.services[sid], tasks)
    requires NoneLost(c, live, tasks) && |Old(live, sid, c.services[sid], tasks)| >= 2
    ensures StopFirstDue(c, live, sid, Pass(c, live, [sid], tasks, ids))
  {
    var svc := c.services[sid];
    OneStep(c, live, sid, tasks, ids);
    StopFirstStep(c, live, sid, svc, tasks, ids);
    RetiredStillDue(c, live, sid, tasks, Smallest(Old(live, sid, svc, tasks)), sid in c.httpRouted);
  }

  lemma {:induction false} StopFirstTwice(c: Config, live: set<Id>, sid: Id, tasks: Tasks, ids: set<Id> -> Id)
    requires Fresh(ids) && StopFirstDue(c, live, sid, tasks) && Ready(c, live, sid, c.services[sid], tasks)
    requires NoneLost(c, live, tasks) && |Old(live, sid, c.services[sid], tasks)| >= 2
    ensures var first := Pass(c, live, [sid], tasks, ids);
      first != tasks && Pass(c, live, [sid], first, ids) != first
  {
    StopFirstRepeats(c, live, sid, tasks, ids);
    SecondPass(c, live, [sid], tasks, ids);
    OneStep(c, live, sid, tasks, ids);
    StepFromReady(c, live, sid, tasks, ids);
    assert sid in [sid];
  }

  /** A service whose second revision may not surge, and two healthy tasks of its first revision. */
  function Updated(): Service { Service(2, Spec(2, 0, None, [], [], 10, None), false) }

  function Updating(): Config {
    Config(map["web" := Updated()], map["node" := Node(map[], true)], map[], {}, map[], {}, {}, map[])
  }

  function OldTask(slot: nat): Task { Task("web", 1, slot, "node", Desired.Running, Healthy, [], None, None) }

  function OldTasks(): Tasks { map["a" := OldTask(0), "b" := OldTask(1)] }

  lemma {:induction false} OldTasksGroups()
    ensures Old({"node"}, "web", Updated(), OldTasks()) == {"a", "b"}
    ensures Current({"node"}, "web", Updated(), OldTasks()) == {}
    ensures Violating(Updating(), "web", Updated(), OldTasks()) == {}
    ensures Occupying({"node"}, "web", OldTasks()) == {"a", "b"}
  {
    assert OldTasks().Keys == {"a", "b"};
  }

  lemma {:induction false} OldTasksReady()
    ensures Ready(Updating(), {"node"}, "web", Updated(), OldTasks())
    ensures WillStopFirst({"node"}, "web", Updated(), OldTasks())
    ensures |Old({"node"}, "web", Updated(), OldTasks())| == 2 && NoneLost(Updating(), {"node"}, OldTasks())
  {
    OldTasksGroups();
    var none: set<Id> := {};
    var both: set<Id> := {"a", "b"};
    assert Serving(none, OldTasks()) == none;
    assert |both| == 2;
  }

  /** Two passes in a row each stop one of them. */
  lemma {:induction false} StopFirstTakesTwoPasses(ids: set<Id> -> Id)
    requires Fresh(ids)
    ensures var first := Pass(Updating(), {"node"}, ["web"], OldTasks(), ids);
      first != OldTasks() && Pass(Updating(), {"node"}, ["web"], first, ids) != first
  {
    OldTasksReady();
    StopFirstTwice(Updating(), {"node"}, "web", OldTasks(), ids);
  }

  /** With room to surge everywhere, the second pass changes nothing. */
  lemma {:induction false} SecondPassIdle(c: Config, live: set<Id>, order: seq<Id>, tasks: Tasks, ids: set<Id> -> Id)
    requires Fresh(ids) && forall i :: 0 <= i < |order| ==> order[i] in c.services
    requires forall sid :: sid in order && Managed(c, sid) ==> c.services[sid].spec.maxSurge >= 1
    ensures var first := Pass(c, live, order, tasks, ids);
      Pass(c, live, order, first, ids) == first
  {
    SecondPass(c, live, order, tasks, ids);
  }

  /** A pass from rest changes nothing or lowers the number of outdated tasks. */
  lemma {:induction false} RestMoves(c: Config, live: set<Id>, order: seq<Id>, tasks: Tasks, ids: set<Id> -> Id)
    requires Fresh(ids) && (forall i :: 0 <= i < |order| ==> order[i] in c.services) && AtRest(c, live, order, tasks)
    ensures var next := Pass(c, live, order, tasks, ids);
      AtRest(c, live, order, next) && (next == tasks || |Outdated(c, next)| < |Outdated(c, tasks)|)
  {
    StopLostIdle(c, live, tasks);
    StepsFromReady(c, live, order, tasks, ids);
    PassRests(c, live, order, tasks, ids);
    var next := Pass(c, live, order, tasks, ids);
    if next != tasks { SubsetSize(Outdated(c, next), Outdated(c, tasks)); }
  }

  lemma {:induction false} RestStabilises(c: Config, live: set<Id>, order: seq<Id>, tasks: Tasks, ids: set<Id> -> Id,
          n: nat)
    requires Fresh(ids) && (forall i :: 0 <= i < |order| ==> order[i] in c.services)
    requires AtRest(c, live, order, tasks) && |Outdated(c, tasks)| <= n
    ensures var last := Passes(c, live, order, tasks, ids, n);
      Pass(c, live, order, last, ids) == last
    decreases n
  {
    var next := Pass(c, live, order, tasks, ids);
    RestMoves(c, live, order, tasks, ids);
    if next == tasks {
      FixedStays(c, live, order, tasks, ids, n);
    } else {
      RestStabilises(c, live, order, next, ids, n - 1);
    }
  }

  lemma {:induction false} FixedStays(c: Config, live: set<Id>, order: seq<Id>, tasks: Tasks, ids: set<Id> -> Id,
          n: nat)
    requires forall i :: 0 <= i < |order| ==> order[i] in c.services
    requires Pass(c, live, order, tasks, ids) == tasks
    ensures Passes(c, live, order, tasks, ids, n) == tasks
    decreases n
  {
    if n > 0 { FixedStays(c, live, order, tasks, ids, n - 1); }
  }

  /** Passes stabilise after at most one pass per outdated running task, and one more. */
  lemma {:induction false} PassesStabilise(c: Config, live: set<Id>, order: seq<Id>, tasks: Tasks, ids: set<Id> -> Id,
          n: nat)
    requires Fresh(ids) && (forall i :: 0 <= i < |order| ==> order[i] in c.services)
    requires n > |Outdated(c, tasks)|
    ensures var last := Passes(c, live, order, tasks, ids, n);
      Pass(c, live, order, last, ids) == last
  {
    var first := Pass(c, live, order, tasks, ids);
    PassRests(c, live, order, tasks, ids);
    SubsetSize(Outdated(c, first), Outdated(c, tasks));
    RestStabilises(c, live, order, first, ids, n - 1);
  }
}
