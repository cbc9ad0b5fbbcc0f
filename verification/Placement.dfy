/** What placement keeps: distinct slots, disjoint ports, node limits and an even spread. */
module Placement {
  import opened Sets
  import opened Wrappers
  import opened Cluster
  import opened Ordering
  import opened Scheduler
  import opened Convergence

  // ----- slots -----

  predicate HoldsSlot(t: Task) { t.desired.Running? && !t.FinishedJob() }

  /** No two running tasks of one service revision share a slot. */
  ghost predicate SlotsDistinct(tasks: Tasks) {
    forall i, j :: i in tasks && j in tasks && i != j && HoldsSlot(tasks[i]) && HoldsSlot(tasks[j])
      && tasks[i].service == tasks[j].service && tasks[i].revision == tasks[j].revision
      ==> tasks[i].slot != tasks[j].slot
  }

  lemma {:induction false} RetireSlots(tasks: Tasks, ids: set<Id>, routed: bool)
    requires SlotsDistinct(tasks)
    ensures SlotsDistinct(Retire(tasks, ids, routed))
  {
  }

  lemma {:induction false} StopLostSlots(c: Config, live: set<Id>, tasks: Tasks)
    requires SlotsDistinct(tasks)
    ensures SlotsDistinct(StopLost(c, live, tasks))
  {
  }

  lemma {:induction false} AddSlots(sid: Id, svc: Service, tasks: Tasks, id: Id, t: Task)
    requires SlotsDistinct(tasks) && id !in tasks
    requires t.service == sid && t.revision == svc.revision && t.slot !in UsedSlots(sid, svc, tasks)
    ensures SlotsDistinct(tasks[id := t])
  {
    forall i | i in tasks && HoldsSlot(tasks[i]) && tasks[i].service == sid && tasks[i].revision == svc.revision
      ensures tasks[i].slot != t.slot
    {
      assert i in SlotHolders(sid, svc, tasks);
    }
  }

  // ----- pigeonhole -----

  function Below(n: nat): (s: set<nat>)
    ensures |s| == n && forall i: nat :: i in s <==> i < n
  {
    if n == 0 then {} else Below(n - 1) + {n - 1}
  }

  lemma {:induction false} ImageSize(ids: set<Id>, tasks: Tasks)
    requires ids <= tasks.Keys
    ensures |set id | id in ids :: tasks[id].slot| <= |ids|
    decreases |ids|
  {
    if ids != {} {
      var x :| x in ids;
      ImageSize(ids - {x}, tasks);
      var image := set id | id in ids - {x} :: tasks[id].slot;
      assert (set id | id in ids :: tasks[id].slot) == image + {tasks[x].slot};
    }
  }

  /** Fewer running replicas than asked for means that a slot below the replica count is free. */
  lemma {:induction false} SlotAvailable(c: Config, live: set<Id>, sid: Id, svc: Service, tasks: Tasks)
    requires NoneLost(c, live, tasks)
    requires forall id :: id in tasks && tasks[id].service == sid && tasks[id].job.Some? ==> !tasks[id].desired.Running?
    requires |Current(live, sid, svc, tasks)| < svc.spec.replicas
    ensures FreeSlot(UsedSlots(sid, svc, tasks), 0, svc.spec.replicas).Some?
  {
    var holders, used := SlotHolders(sid, svc, tasks), UsedSlots(sid, svc, tasks);
    assert holders <= Current(live, sid, svc, tasks);
    SubsetSize(holders, Current(live, sid, svc, tasks));
    ImageSize(holders, tasks);
    if FreeSlot(used, 0, svc.spec.replicas).None? {
      SubsetSize(Below(svc.spec.replicas), used);
    }
  }

  /**
    After its step a managed service has used up its quota, or no node can take
    another task: the create loop never ends for want of a slot.
   */
  lemma {:induction false} CreatesAllItCan(c: Config, live: set<Id>, sid: Id, svc: Service, tasks: Tasks)
    requires Ready(c, live, sid, svc, tasks) && NoneLost(c, live, tasks)
    requires forall id :: id in tasks && tasks[id].service == sid && tasks[id].job.Some? ==> !tasks[id].desired.Running?
    ensures Quota(live, sid, svc, tasks) == 0 || Candidates(c, live, sid, svc, tasks) == {}
  {
    if Quota(live, sid, svc, tasks) > 0 {
      SlotAvailable(c, live, sid, svc, tasks);
    }
  }

  // ----- published ports -----

  /** No published port of a node is held by two containers, managed or unclaimed. */
  ghost predicate PortsDisjoint(c: Config, tasks: Tasks) {
    && (forall i, j, node, protocol, published :: i in tasks && j in tasks && i != j ==>
          !(HoldsPort(tasks[i], node, protocol, published) && HoldsPort(tasks[j], node, protocol, published)))
    && (forall i, u, protocol, published :: i in tasks && u in c.unclaimed ==>
          !(HoldsPort(tasks[i], c.unclaimed[u].node, protocol, published)
            && Publishes(c.unclaimed[u].ports, protocol, published)))
  }

  /** A change of desired state, or of observed state to failed or lost, takes no port. */
  ghost predicate TakesNoPort(t: Task, after: Task) {
    after.node == t.node && after.ports == t.ports && (t.observed.Gone() ==> after.observed.Gone())
  }

  lemma {:induction false} KeepsPortsDisjoint(c: Config, tasks: Tasks, after: Tasks)
    requires PortsDisjoint(c, tasks) && after.Keys <= tasks.Keys
    requires forall id :: id in after ==> TakesNoPort(tasks[id], after[id])
    ensures PortsDisjoint(c, after)
  {
    assert forall id, node, protocol, published ::
      id in after && HoldsPort(after[id], node, protocol, published) ==> HoldsPort(tasks[id], node, protocol, published);
  }

  lemma {:induction false} AddPorts(c: Config, live: set<Id>, sid: Id, svc: Service, tasks: Tasks, id: Id, t: Task)
    requires PortsDisjoint(c, tasks) && id !in tasks && Eligible(c, live, sid, svc, tasks, t.node)
    requires t.ports == AllocatePorts(svc.spec.ports, GatewayPorts(c, sid))
    ensures PortsDisjoint(c, tasks[id := t])
  {
    forall node, protocol, published: nat | HoldsPort(t, node, protocol, published)
      ensures !PortTaken(c, tasks, node, protocol, published)
    {
      var i :| 0 <= i < |t.ports| && t.ports[i].published == Some(published) && t.ports[i].protocol == protocol;
      assert i < |svc.spec.ports| && svc.spec.ports[i] == t.ports[..|svc.spec.ports|][i];
    }
  }

  // ----- over the create loop and over a pass -----

  lemma {:induction false} PlaceInvariants(c: Config, live: set<Id>, sid: Id, svc: Service, tasks: Tasks, n: nat,
          ids: set<Id> -> Id)
    requires Fresh(ids) && SlotsDistinct(tasks) && PortsDisjoint(c, tasks)
    ensures var after := Place(c, live, sid, svc, tasks, n, ids);
      SlotsDistinct(after) && PortsDisjoint(c, after)
    decreases n
  {
    var r := ScheduleTask(c, live, sid, svc, tasks);
    if n > 0 && r.Some? {
      var id := ids(tasks.Keys);
      ScheduledIsPlaced(c, live, sid, svc, tasks);
      AddSlots(sid, svc, tasks, id, r.value);
      AddPorts(c, live, sid, svc, tasks, id, r.value);
      PlaceInvariants(c, live, sid, svc, tasks[id := r.value], n - 1, ids);
    }
  }

  lemma {:induction false} RetireInvariants(c: Config, tasks: Tasks, ids: set<Id>, routed: bool)
    requires SlotsDistinct(tasks) && PortsDisjoint(c, tasks)
    ensures var after := Retire(tasks, ids, routed);
      SlotsDistinct(after) && PortsDisjoint(c, after)
  {
    RetireSlots(tasks, ids, routed);
    KeepsPortsDisjoint(c, tasks, Retire(tasks, ids, routed));
  }

  lemma {:induction false} ReconcileServiceInvariants(c: Config, live: set<Id>, sid: Id, svc: Service, tasks: Tasks,
          ids: set<Id> -> Id)
    requires Fresh(ids) && SlotsDistinct(tasks) && PortsDisjoint(c, tasks)
    ensures var after := ReconcileService(c, live, sid, svc, tasks, ids);
      SlotsDistinct(after) && PortsDisjoint(c, after)
  {
    var victims := Victims(c, live, sid, svc, tasks);
    RetireInvariants(c, tasks, victims, sid in c.httpRouted);
    var retired := Retire(tasks, victims, sid in c.httpRouted);
    PlaceInvariants(c, live, sid, svc, retired, Quota(live, sid, svc, retired), ids);
  }

  lemma {:induction false} StepsInvariants(c: Config, live: set<Id>, order: seq<Id>, tasks: Tasks, ids: set<Id> -> Id)
    requires Fresh(ids) && (forall i :: 0 <= i < |order| ==> order[i] in c.services)
    requires SlotsDistinct(tasks) && PortsDisjoint(c, tasks)
    ensures var after := StepServices(c, live, order, tasks, ids);
      SlotsDistinct(after) && PortsDisjoint(c, after)
  {
    if order != [] {
      var sid := order[0];
      if Managed(c, sid) {
        ReconcileServiceInvariants(c, live, sid, c.services[sid], tasks, ids);
      } else {
        RetireInvariants(c, tasks, Members(sid, tasks), sid in c.httpRouted);
      }
      StepsInvariants(c, live, order[1..], StepService(c, live, sid, tasks, ids), ids);
    }
  }

  /** A pass keeps slots distinct and ports disjoint across all services. */
  lemma {:induction false} PassInvariants(c: Config, live: set<Id>, order: seq<Id>, tasks: Tasks, ids: set<Id> -> Id)
    requires Fresh(ids) && (forall i :: 0 <= i < |order| ==> order[i] in c.services)
    requires SlotsDistinct(tasks) && PortsDisjoint(c, tasks)
    ensures var after := Pass(c, live, order, tasks, ids);
      SlotsDistinct(after) && PortsDisjoint(c, after)
  {
    var swept := StopLost(c, live, tasks);
    StopLostSlots(c, live, tasks);
    KeepsPortsDisjoint(c, tasks, swept);
    StepsInvariants(c, live, order, swept, ids);
  }

  // ----- node limits -----

  /** The most tasks of the service a placement may leave on a node. */
  function NodeLimit(node: Id, sid: Id, svc: Service, tasks: Tasks): nat
    requires svc.spec.maxPerNode.Some?
  {
    svc.spec.maxPerNode.value + if svc.spec.maxSurge > 0 then |OldOn(node, sid, svc, tasks)| else 0
  }

  lemma {:induction false} AddNode(c: Config, live: set<Id>, sid: Id, svc: Service, tasks: Tasks, id: Id, t: Task,
          node: Id)
    requires id !in tasks && Placed(c, live, sid, svc, tasks, t)
    ensures OldOn(node, sid, svc, tasks[id := t]) == OldOn(node, sid, svc, tasks)
    ensures ActiveOn(node, sid, tasks[id := t]) == ActiveOn(node, sid, tasks) + if t.node == node then {id} else {}
  {
  }

  lemma {:induction false} PlaceNodeLimit(c: Config, live: set<Id>, sid: Id, svc: Service, tasks: Tasks, n: nat,
          ids: set<Id> -> Id, node: Id)
    requires Fresh(ids) && svc.spec.maxPerNode.Some? && svc.spec.maxPerNode.value > 0
    ensures var after := Place(c, live, sid, svc, tasks, n, ids);
      && OldOn(node, sid, svc, after) == OldOn(node, sid, svc, tasks)
      && |ActiveOn(node, sid, after)| <= Max(|ActiveOn(node, sid, tasks)|, NodeLimit(node, sid, svc, tasks))
    decreases n
  {
    var r := ScheduleTask(c, live, sid, svc, tasks);
    if n > 0 && r.Some? {
      var id := ids(tasks.Keys);
      var next := tasks[id := r.value];
      ScheduledIsPlaced(c, live, sid, svc, tasks);
      AddNode(c, live, sid, svc, tasks, id, r.value, node);
      assert |ActiveOn(node, sid, next)| <= Max(|ActiveOn(node, sid, tasks)|, NodeLimit(node, sid, svc, tasks));
      PlaceNodeLimit(c, live, sid, svc, next, n - 1, ids, node);
    }
  }

  // ----- spread -----

  lemma {:induction false} AddLoad(sid: Id, svc: Service, tasks: Tasks, id: Id, t: Task, node: Id)
    requires id !in tasks && t.service == sid && t.revision == svc.revision && t.desired.Running? && t.job.None?
    ensures RevisionLoad(node, sid, svc, tasks[id := t])
            == RevisionLoad(node, sid, svc, tasks) + if t.node == node then 1 else 0
  {
    var before := set i | i in tasks && Loads(tasks[i], node) && tasks[i].service == sid && tasks[i].revision == svc.revision;
    var next := tasks[id := t];
    var after := set i | i in next && Loads(next[i], node) && next[i].service == sid && next[i].revision == svc.revision;
    assert after == before + if t.node == node then {id} else {};
  }

  /** A placement makes no node eligible that was not. */
  lemma {:induction false} AddEligible(c: Config, live: set<Id>, sid: Id, svc: Service, tasks: Tasks, id: Id, t: Task,
          node: Id)
    requires id !in tasks && Placed(c, live, sid, svc, tasks, t)
    requires Eligible(c, live, sid, svc, tasks[id := t], node)
    ensures Eligible(c, live, sid, svc, tasks, node)
  {
    var next := tasks[id := t];
    AddNode(c, live, sid, svc, tasks, id, t, node);
    SubsetSize(ActiveOn(node, sid, tasks), ActiveOn(node, sid, next));
    PortsWereFree(c, tasks, next, node, svc.spec.ports);
  }

  lemma {:induction false} PlaceEligible(c: Config, live: set<Id>, sid: Id, svc: Service, tasks: Tasks, n: nat,
          ids: set<Id> -> Id, node: Id)
    requires Fresh(ids) && Eligible(c, live, sid, svc, Place(c, live, sid, svc, tasks, n, ids), node)
    ensures Eligible(c, live, sid, svc, tasks, node)
    decreases n
  {
    var r := ScheduleTask(c, live, sid, svc, tasks);
    if n > 0 && r.Some? {
      var id := ids(tasks.Keys);
      ScheduledIsPlaced(c, live, sid, svc, tasks);
      PlaceEligible(c, live, sid, svc, tasks[id := r.value], n - 1, ids, node);
      AddEligible(c, live, sid, svc, tasks, id, r.value, node);
    }
  }

  /**
    Greedy balance. A node that can still take a task after the loop is never
    left more than one current task behind any other node, unless it already was.
   */
  lemma {:induction false} PlaceSpread(c: Config, live: set<Id>, sid: Id, svc: Service, tasks: Tasks, n: nat,
          ids: set<Id> -> Id, a: Id, b: Id)
    requires Fresh(ids) && Eligible(c, live, sid, svc, Place(c, live, sid, svc, tasks, n, ids), b)
    ensures var after := Place(c, live, sid, svc, tasks, n, ids);
      RevisionLoad(a, sid, svc, after) - RevisionLoad(b, sid, svc, after)
      <= Max(1, RevisionLoad(a, sid, svc, tasks) - RevisionLoad(b, sid, svc, tasks))
    decreases n
  {
    var r := ScheduleTask(c, live, sid, svc, tasks);
    if n > 0 && r.Some? {
      var id := ids(tasks.Keys);
      ScheduledIsPlaced(c, live, sid, svc, tasks);
      PlaceEligible(c, live, sid, svc, tasks, n, ids, b);
      var nodes := Candidates(c, live, sid, svc, tasks);
      assert b in nodes && r.value.node == Best(sid, svc, tasks, nodes);
      assert RevisionLoad(r.value.node, sid, svc, tasks) <= RevisionLoad(b, sid, svc, tasks);
      AddLoad(sid, svc, tasks, id, r.value, a);
      AddLoad(sid, svc, tasks, id, r.value, b);
      PlaceSpread(c, live, sid, svc, tasks[id := r.value], n - 1, ids, a, b);
    }
  }
}
