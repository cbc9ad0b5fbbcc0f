/** What a pass decides about single nodes and tasks, said over the records themselves. */
module TaskRules {
  import opened Sets
  import opened Wrappers
  import opened Cluster
  import opened Ordering
  import opened Scheduler
  import opened Convergence
  import opened Jobs

  predicate Gone(t: Task) { t.observed.Failed? || t.observed.Lost? }

  // ----- which nodes can take a task -----

  /** Fewer containers than the limit, where a surge adds one place for each old task still running there. */
  ghost predicate HasRoom(svc: Service, sid: Id, tasks: Tasks, node: Id) {
    var here := set id | id in tasks && tasks[id].node == node && tasks[id].service == sid && !Gone(tasks[id]);
    var outdated := set id | id in here && tasks[id].revision != svc.revision && tasks[id].desired.Running?;
    match svc.spec.maxPerNode
    case None => true
    case Some(limit) => limit == 0 || |here| < limit + if svc.spec.maxSurge > 0 then |outdated| else 0
  }

  /** No container on the node, managed or not, publishes this port. */
  ghost predicate PortIsFree(c: Config, tasks: Tasks, node: Id, port: Port) {
    port.published.Some? ==>
      && (forall id, k :: id in tasks && tasks[id].node == node && !Gone(tasks[id]) && 0 <= k < |tasks[id].ports| ==>
            !(tasks[id].ports[k].published == port.published && tasks[id].ports[k].protocol == port.protocol))
      && (forall u, k :: u in c.unclaimed && c.unclaimed[u].node == node && 0 <= k < |c.unclaimed[u].ports| ==>
            !(c.unclaimed[u].ports[k].published == port.published && c.unclaimed[u].ports[k].protocol == port.protocol))
  }

  lemma {:induction false} PortIsFreeExactly(c: Config, tasks: Tasks, node: Id, port: Port)
    requires port.published.Some?
    ensures PortIsFree(c, tasks, node, port) <==> !PortTaken(c, tasks, node, port.protocol, port.published.value)
  {
    if PortTaken(c, tasks, node, port.protocol, port.published.value) {
      if id :| id in tasks && HoldsPort(tasks[id], node, port.protocol, port.published.value) {
        var k :| 0 <= k < |tasks[id].ports| && tasks[id].ports[k].published == port.published
          && tasks[id].ports[k].protocol == port.protocol;
      } else {
        var u :| u in c.unclaimed && c.unclaimed[u].node == node
          && Publishes(c.unclaimed[u].ports, port.protocol, port.published.value);
        var k :| 0 <= k < |c.unclaimed[u].ports| && c.unclaimed[u].ports[k].published == port.published
          && c.unclaimed[u].ports[k].protocol == port.protocol;
      }
    } else {
      forall id, k | id in tasks && tasks[id].node == node && !Gone(tasks[id]) && 0 <= k < |tasks[id].ports|
        ensures !(tasks[id].ports[k].published == port.published && tasks[id].ports[k].protocol == port.protocol)
      {
        assert !HoldsPort(tasks[id], node, port.protocol, port.published.value);
      }
    }
  }

  lemma {:induction false} HasRoomExactly(svc: Service, sid: Id, tasks: Tasks, node: Id)
    ensures HasRoom(svc, sid, tasks, node) <==> HasCapacity(node, sid, svc, tasks)
  {
    var here := set id | id in tasks && tasks[id].node == node && tasks[id].service == sid && !Gone(tasks[id]);
    var outdated := set id | id in here && tasks[id].revision != svc.revision && tasks[id].desired.Running?;
    assert here == ActiveOn(node, sid, tasks);
    assert outdated == OldOn(node, sid, svc, tasks);
  }

  lemma {:induction false} PortsFreeExactly(c: Config, tasks: Tasks, node: Id, ports: seq<Port>)
    ensures PortsFree(c, tasks, node, ports) <==> forall i :: 0 <= i < |ports| ==> PortIsFree(c, tasks, node, ports[i])
  {
    forall i | 0 <= i < |ports| && ports[i].published.Some?
      ensures PortIsFree(c, tasks, node, ports[i]) <==> !PortTaken(c, tasks, node, ports[i].protocol, ports[i].published.value)
    {
      PortIsFreeExactly(c, tasks, node, ports[i]);
    }
  }

  /** A node can take a task of the service exactly under these conditions. */
  lemma {:induction false} CandidateExactly(c: Config, live: set<Id>, sid: Id, svc: Service, tasks: Tasks, node: Id)
    ensures node in Candidates(c, live, sid, svc, tasks) <==>
            && node in c.nodes && node in live
            && Admits(svc.spec.constraints, node, c.nodes[node].labels)
            && ((sid, svc.revision) in c.pins ==> node in c.pins[(sid, svc.revision)])
            && HasRoom(svc, sid, tasks, node)
            && forall i :: 0 <= i < |svc.spec.ports| ==> PortIsFree(c, tasks, node, svc.spec.ports[i])
  {
    if node in c.nodes { AdmitsExactly(svc.spec.constraints, node, c.nodes[node]); }
    HasRoomExactly(svc, sid, tasks, node);
    PortsFreeExactly(c, tasks, node, svc.spec.ports);
  }

  // ----- which of them is taken -----

  /** A container that is to run, and not an execution that has finished. */
  predicate Wanted(t: Task) {
    && t.desired.Running?
    && (t.job.Some? ==> !(t.observed.Succeeded? || t.observed.Failed? || t.observed.Cancelled? || t.observed.TimedOut?))
  }

  /** What a node is to run: of one revision of a service, of a service, or in all. */
  ghost function Hosted(tasks: Tasks, node: Id, sid: Option<Id>, revision: Option<nat>): set<Id> {
    set id | id in tasks && tasks[id].node == node && Wanted(tasks[id])
             && (sid.Some? ==> tasks[id].service == sid.value)
             && (revision.Some? ==> tasks[id].revision == revision.value)
  }

  ghost function Load(tasks: Tasks, node: Id, sid: Option<Id>, revision: Option<nat>): nat {
    |Hosted(tasks, node, sid, revision)|
  }

  /** The better node has fewer tasks of the revision, then of the service, then in all, then the smaller id. */
  ghost predicate Lighter(tasks: Tasks, sid: Id, revision: nat, a: Id, b: Id) {
    var ra, rb := Load(tasks, a, Some(sid), Some(revision)), Load(tasks, b, Some(sid), Some(revision));
    var sa, sb := Load(tasks, a, Some(sid), None), Load(tasks, b, Some(sid), None);
    var ta, tb := Load(tasks, a, None, None), Load(tasks, b, None, None);
    && ra <= rb
    && (ra == rb ==> sa <= sb)
    && (ra == rb && sa == sb ==> ta <= tb)
    && (ra == rb && sa == sb && ta == tb ==> Before(a, b))
  }

  lemma {:induction false} LoadsAgree(tasks: Tasks, node: Id, sid: Id, svc: Service)
    ensures Load(tasks, node, Some(sid), Some(svc.revision)) == RevisionLoad(node, sid, svc, tasks)
    ensures Load(tasks, node, Some(sid), None) == ServiceLoad(node, sid, tasks)
    ensures Load(tasks, node, None, None) == TotalLoad(node, tasks)
  {
    assert Hosted(tasks, node, Some(sid), Some(svc.revision))
           == set id | id in tasks && Loads(tasks[id], node) && tasks[id].service == sid && tasks[id].revision == svc.revision;
    assert Hosted(tasks, node, Some(sid), None) == set id | id in tasks && Loads(tasks[id], node) && tasks[id].service == sid;
    assert Hosted(tasks, node, None, None) == set id | id in tasks && Loads(tasks[id], node);
  }

  /** The scheduled task: a fresh record with the lowest free slot, on the lightest node that can take it. */
  lemma {:induction false} ScheduledTask(c: Config, live: set<Id>, sid: Id, svc: Service, tasks: Tasks)
    ensures var r := ScheduleTask(c, live, sid, svc, tasks);
      r.Some? ==>
        var t, nodes := r.value, Candidates(c, live, sid, svc, tasks);
        && t == Task(sid, svc.revision, t.slot, t.node, Desired.Running, Pending, t.ports, None, None)
        && t.node in nodes && (forall m :: m in nodes && m != t.node ==> Lighter(tasks, sid, svc.revision, t.node, m))
        && Admits(svc.spec.constraints, t.node, c.nodes[t.node].labels)
        && t.slot < svc.spec.replicas && !SlotTaken(tasks, sid, svc.revision, t.slot)
        && forall slot: nat :: slot < t.slot ==> SlotTaken(tasks, sid, svc.revision, slot)
  {
    var r := ScheduleTask(c, live, sid, svc, tasks);
    if r.Some? {
      var t, nodes := r.value, Candidates(c, live, sid, svc, tasks);
      CandidateExactly(c, live, sid, svc, tasks, t.node);
      forall m | m in nodes && m != t.node ensures Lighter(tasks, sid, svc.revision, t.node, m) {
        LoadsAgree(tasks, t.node, sid, svc);
        LoadsAgree(tasks, m, sid, svc);
      }
      forall slot: nat ensures SlotTaken(tasks, sid, svc.revision, slot) <==> slot in UsedSlots(sid, svc, tasks) {
        SlotTakenExactly(tasks, sid, svc, slot);
      }
    }
  }

  /** A container that is to run holds this slot of the revision. */
  ghost predicate SlotTaken(tasks: Tasks, sid: Id, revision: nat, slot: nat) {
    exists id :: id in tasks && tasks[id].service == sid && tasks[id].revision == revision && tasks[id].slot == slot
                 && Wanted(tasks[id])
  }

  lemma {:induction false} SlotTakenExactly(tasks: Tasks, sid: Id, svc: Service, slot: nat)
    ensures SlotTaken(tasks, sid, svc.revision, slot) <==> slot in UsedSlots(sid, svc, tasks)
  {
    if SlotTaken(tasks, sid, svc.revision, slot) {
      var id :| id in tasks && tasks[id].service == sid && tasks[id].revision == svc.revision && tasks[id].slot == slot
                 && Wanted(tasks[id]);
      assert id in SlotHolders(sid, svc, tasks);
    }
  }

  // ----- tasks that a pass adds -----

  /** A task of a service of the list, on a live, known node that its constraints admit. */
  ghost predicate WellPlaced(c: Config, live: set<Id>, order: seq<Id>, t: Task) {
    && t.service in order && t.service in c.services && t.node in c.nodes && t.node in live
    && Admits(c.services[t.service].spec.constraints, t.node, c.nodes[t.node].labels)
  }

  lemma {:induction false} ScheduledAdmits(c: Config, live: set<Id>, sid: Id, tasks: Tasks)
    requires sid in c.services
    ensures var r := ScheduleTask(c, live, sid, c.services[sid], tasks);
      r.Some? ==> WellPlaced(c, live, [sid], r.value)
  {
    var svc := c.services[sid];
    var r := ScheduleTask(c, live, sid, svc, tasks);
    ScheduledTask(c, live, sid, svc, tasks);
    if r.Some? { CandidateExactly(c, live, sid, svc, tasks, r.value.node); }
  }

  /** Every task that the create loop adds was scheduled in some state on the way. */
  lemma {:induction false} PlaceAdds(c: Config, live: set<Id>, sid: Id, svc: Service, tasks: Tasks, n: nat,
          ids: set<Id> -> Id, id: Id) returns (at: Tasks)
    requires Fresh(ids) && id !in tasks && id in Place(c, live, sid, svc, tasks, n, ids)
    ensures ScheduleTask(c, live, sid, svc, at) == Some(Place(c, live, sid, svc, tasks, n, ids)[id])
    decreases n
  {
    var next := PlaceStep(c, live, sid, svc, tasks, n, ids);
    if id in next {
      PlaceGrows(c, live, sid, svc, next, n - 1, ids, id);
      at := tasks;
    } else {
      at := PlaceAdds(c, live, sid, svc, next, n - 1, ids, id);
    }
  }

  lemma {:induction false} PlaceStep(c: Config, live: set<Id>, sid: Id, svc: Service, tasks: Tasks, n: nat,
          ids: set<Id> -> Id) returns (next: Tasks)
    requires Place(c, live, sid, svc, tasks, n, ids) != tasks
    ensures n > 0 && Place(c, live, sid, svc, tasks, n, ids) == Place(c, live, sid, svc, next, n - 1, ids)
    ensures ScheduleTask(c, live, sid, svc, tasks).Some?
    ensures next == tasks[ids(tasks.Keys) := ScheduleTask(c, live, sid, svc, tasks).value]
  {
    next := tasks[ids(tasks.Keys) := ScheduleTask(c, live, sid, svc, tasks).value];
  }

  lemma {:induction false} PlaceGrows(c: Config, live: set<Id>, sid: Id, svc: Service, tasks: Tasks, n: nat,
          ids: set<Id> -> Id, id: Id)
    requires Fresh(ids) && id in tasks
    ensures var after := Place(c, live, sid, svc, tasks, n, ids); id in after && after[id] == tasks[id]
    decreases n
  {
    var r := ScheduleTask(c, live, sid, svc, tasks);
    if n > 0 && r.Some? {
      PlaceGrows(c, live, sid, svc, tasks[ids(tasks.Keys) := r.value], n - 1, ids, id);
    }
  }

  /** A step leaves a task there, with its service and node. */
  lemma {:induction false} StepKeeps(c: Config, live: set<Id>, sid: Id, tasks: Tasks, ids: set<Id> -> Id, id: Id)
    requires Fresh(ids) && sid in c.services && id in tasks
    ensures var after := StepService(c, live, sid, tasks, ids);
      id in after && after[id].node == tasks[id].node && after[id].service == tasks[id].service
  {
    if Managed(c, sid) { StepOnTask(c, live, sid, tasks, ids, id); }
  }

  lemma {:induction false} StepAdmits(c: Config, live: set<Id>, sid: Id, tasks: Tasks, ids: set<Id> -> Id, id: Id)
    requires Fresh(ids) && sid in c.services && id !in tasks
    ensures var after := StepService(c, live, sid, tasks, ids);
      id in after ==> WellPlaced(c, live, [sid], after[id])
  {
    if Managed(c, sid) {
      ReconcileAdmits(c, live, sid, tasks, ids, id);
    } else {
      UnmanagedAddsNone(c, live, sid, tasks, ids);
    }
  }

  lemma {:induction false} ReconcileAdmits(c: Config, live: set<Id>, sid: Id, tasks: Tasks, ids: set<Id> -> Id, id: Id)
    requires Fresh(ids) && sid in c.services && id !in tasks
    ensures var after := ReconcileService(c, live, sid, c.services[sid], tasks, ids);
      id in after ==> WellPlaced(c, live, [sid], after[id])
  {
    var svc := c.services[sid];
    var retired := Retire(tasks, Victims(c, live, sid, svc, tasks), sid in c.httpRouted);
    assert retired.Keys == tasks.Keys;
    if id in ReconcileService(c, live, sid, svc, tasks, ids) {
      var at := PlaceAdds(c, live, sid, svc, retired, Quota(live, sid, svc, retired), ids, id);
      ScheduledAdmits(c, live, sid, at);
    }
  }

  lemma {:induction false} UnmanagedAddsNone(c: Config, live: set<Id>, sid: Id, tasks: Tasks, ids: set<Id> -> Id)
    requires sid in c.services && !Managed(c, sid)
    ensures StepService(c, live, sid, tasks, ids).Keys == tasks.Keys
  {
  }

  lemma {:induction false} StepsKeep(c: Config, live: set<Id>, order: seq<Id>, tasks: Tasks, ids: set<Id> -> Id, id: Id)
    requires Fresh(ids) && (forall i :: 0 <= i < |order| ==> order[i] in c.services) && id in tasks
    ensures var after := StepServices(c, live, order, tasks, ids);
      id in after && after[id].node == tasks[id].node && after[id].service == tasks[id].service
  {
    if order != [] {
      StepKeeps(c, live, order[0], tasks, ids, id);
      StepsKeep(c, live, order[1..], StepService(c, live, order[0], tasks, ids), ids, id);
    }
  }

  lemma {:induction false} StepsAdmit(c: Config, live: set<Id>, order: seq<Id>, tasks: Tasks, ids: set<Id> -> Id, id: Id)
    requires Fresh(ids) && (forall i :: 0 <= i < |order| ==> order[i] in c.services) && id !in tasks
    ensures var after := StepServices(c, live, order, tasks, ids);
      id in after ==> WellPlaced(c, live, order, after[id])
  {
    if order != [] {
      var next := StepService(c, live, order[0], tasks, ids);
      if id in next {
        StepAdmits(c, live, order[0], tasks, ids, id);
        StepsKeep(c, live, order[1..], next, ids, id);
      } else {
        StepsAdmit(c, live, order[1..], next, ids, id);
      }
      assert order == [order[0]] + order[1..];
    }
  }

  /** Every task that a services pass adds sits on a live node that its service's constraints admit. */
  lemma {:induction false} PassAdmits(c: Config, live: set<Id>, order: seq<Id>, tasks: Tasks, ids: set<Id> -> Id, id: Id)
    requires Fresh(ids) && forall i :: 0 <= i < |order| ==> order[i] in c.services
    ensures var after := Pass(c, live, order, tasks, ids);
      id in after && id !in tasks ==> WellPlaced(c, live, order, after[id])
  {
    if id !in tasks { StepsAdmit(c, live, order, StopLost(c, live, tasks), ids, id); }
  }

  // ----- tasks that a step retires -----

  /** The running tasks of a service's present revision on live nodes. */
  ghost function Running(c: Config, live: set<Id>, sid: Id, tasks: Tasks): set<Id>
    requires sid in c.services
  {
    set id | id in tasks && tasks[id].service == sid && tasks[id].revision == c.services[sid].revision
             && tasks[id].desired.Running? && tasks[id].node in live
  }

  lemma {:induction false} RetiredThenPlaced(c: Config, live: set<Id>, sid: Id, svc: Service, tasks: Tasks,
          victims: set<Id>, routed: bool, n: nat, ids: set<Id> -> Id, id: Id)
    requires Fresh(ids) && id in tasks
    ensures var after := Place(c, live, sid, svc, Retire(tasks, victims, routed), n, ids);
      id in after && after[id] == if id in victims then RetireTask(tasks[id], routed) else tasks[id]
  {
    PlaceGrows(c, live, sid, svc, Retire(tasks, victims, routed), n, ids, id);
  }

  lemma {:induction false} StepOnTask(c: Config, live: set<Id>, sid: Id, tasks: Tasks, ids: set<Id> -> Id, id: Id)
    requires Fresh(ids) && Managed(c, sid) && id in tasks
    ensures var after := StepService(c, live, sid, tasks, ids);
      id in after && after[id] == if id in Victims(c, live, sid, c.services[sid], tasks)
                                  then RetireTask(tasks[id], sid in c.httpRouted) else tasks[id]
  {
    var svc, routed := c.services[sid], sid in c.httpRouted;
    var victims := Victims(c, live, sid, svc, tasks);
    var n := Quota(live, sid, svc, Retire(tasks, victims, routed));
    RetiredThenPlaced(c, live, sid, svc, tasks, victims, routed, n, ids, id);
  }

  /** With no more such tasks than wanted, those that their constraints admit are kept. */
  lemma {:induction false} AllAreKept(c: Config, live: set<Id>, sid: Id, tasks: Tasks)
    requires sid in c.services && |Running(c, live, sid, tasks)| <= c.services[sid].spec.replicas
    ensures var svc := c.services[sid];
      KeptCurrent(c, live, sid, svc, tasks) == Current(live, sid, svc, tasks) - Violating(c, sid, svc, tasks)
  {
    var svc := c.services[sid];
    assert Running(c, live, sid, tasks) == Current(live, sid, svc, tasks);
    SubsetSize(Current(live, sid, svc, tasks) - Violating(c, sid, svc, tasks), Current(live, sid, svc, tasks));
  }

  lemma {:induction false} VictimForConstraints(c: Config, live: set<Id>, sid: Id, tasks: Tasks, id: Id)
    requires sid in c.services && id in tasks
    requires tasks[id].service == sid && tasks[id].revision == c.services[sid].revision && tasks[id].desired.Running?
    requires tasks[id].node in c.nodes
    ensures var t, svc := tasks[id], c.services[sid];
      var admitted := Admits(svc.spec.constraints, t.node, c.nodes[t.node].labels);
      && (!admitted ==> id in Victims(c, live, sid, svc, tasks))
      && (admitted && |Running(c, live, sid, tasks)| <= svc.spec.replicas ==> id !in Victims(c, live, sid, svc, tasks))
  {
    var t, svc := tasks[id], c.services[sid];
    AdmitsExactly(svc.spec.constraints, t.node, c.nodes[t.node]);
    assert id in Violating(c, sid, svc, tasks) <==> !Admits(svc.spec.constraints, t.node, c.nodes[t.node].labels);
    assert id !in Old(live, sid, svc, tasks);
    KeptIsOld(c, live, sid, svc, tasks);
    if |Running(c, live, sid, tasks)| <= svc.spec.replicas { AllAreKept(c, live, sid, tasks); }
  }

  /**
   * A running task of the present revision on a known node is retired if its constraints do not admit the node. If they
   * do, and no more than the wanted number of such tasks run, it is left exactly as it is.
   */
  lemma {:induction false} RetiredForConstraints(c: Config, live: set<Id>, sid: Id, tasks: Tasks, ids: set<Id> -> Id, id: Id)
    requires Fresh(ids) && Managed(c, sid) && id in tasks
    requires tasks[id].service == sid && tasks[id].revision == c.services[sid].revision && tasks[id].desired.Running?
    requires tasks[id].node in c.nodes
    ensures var t, after := tasks[id], StepService(c, live, sid, tasks, ids);
      var admitted := Admits(c.services[sid].spec.constraints, t.node, c.nodes[t.node].labels);
      && id in after
      && (!admitted ==> !after[id].desired.Running?)
      && (admitted && |Running(c, live, sid, tasks)| <= c.services[sid].spec.replicas ==> after[id] == t)
  {
    StepOnTask(c, live, sid, tasks, ids, id);
    VictimForConstraints(c, live, sid, tasks, id);
  }

  /** A retired task drains exactly if its service has HTTP routes and it was healthy; otherwise it stops. */
  lemma {:induction false} DrainsExactly(c: Config, live: set<Id>, sid: Id, tasks: Tasks, ids: set<Id> -> Id, id: Id)
    requires Fresh(ids) && sid in c.services && id in tasks
    ensures var t, after := tasks[id], StepService(c, live, sid, tasks, ids);
      id in after && (after[id] != t ==>
        && t.service == sid && t.desired.Running? && after[id].drainUntil.None?
        && (after[id].desired.Draining? <==> sid in c.httpRouted && t.observed.Healthy?)
        && (after[id].desired.Stopped? <==> !(sid in c.httpRouted && t.observed.Healthy?))
        && after[id] == t.(desired := after[id].desired, drainUntil := None))
  {
    if Managed(c, sid) {
      StepOnTask(c, live, sid, tasks, ids, id);
      VictimsBelong(c, live, sid, c.services[sid], tasks);
    }
  }

  /** Deleting a service, or asking for no replicas, leaves none of its tasks running. */
  lemma {:induction false} EmptiedIsRetired(c: Config, live: set<Id>, sid: Id, tasks: Tasks, ids: set<Id> -> Id, id: Id)
    requires sid in c.services && c.services[sid].spec.job.None? && sid !in c.restartingServices
    requires c.services[sid].deleted || c.services[sid].spec.replicas == 0
    requires id in tasks
    ensures var after := StepService(c, live, sid, tasks, ids);
      && after.Keys == tasks.Keys
      && (tasks[id].service == sid ==> !after[id].desired.Running?) && (tasks[id].service != sid ==> after[id] == tasks[id])
  {
  }

  // ----- lost tasks and drains -----

  /** Which tasks are stopped before a services pass: those that failed or lost their node, executions and restarts apart. */
  lemma {:induction false} LostIsStopped(c: Config, live: set<Id>, tasks: Tasks, id: Id)
    requires id in tasks
    ensures var t, after := tasks[id], StopLost(c, live, tasks)[id];
      if t.job.None? && !t.desired.Stopped? && (t.node !in live || (Gone(t) && id !in c.restartingTasks))
      then after == t.(desired := Stopped, observed := if t.node in live then t.observed else Lost)
      else after == t
  {
  }

  /** A drain ends exactly at its deadline; one without a deadline goes on. */
  lemma {:induction false} DrainEnds(tasks: Tasks, now: int, id: Id)
    requires id in tasks
    ensures var t, after := tasks[id], FinishDrains(tasks, now)[id];
      if t.desired == Draining && (exists deadline :: t.drainUntil == Some(deadline) && deadline <= now)
      then after == t.(desired := Stopped) else after == t
  {
  }
}
