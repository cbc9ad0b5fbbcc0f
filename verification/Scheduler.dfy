/** One reconcile pass over the replica services, as a function of the task map. */
module Scheduler {
  import opened Wrappers
  import opened Cluster
  import opened Ordering

  // ----- tasks that lost their node or their container -----

  predicate IsLost(c: Config, live: set<Id>, id: Id, t: Task) {
    && t.job.None?
    && !(t.node in live && id in c.restartingTasks)
    && !t.desired.Stopped?
    && (t.node !in live || t.observed.Gone())
  }

  function StopLostTask(c: Config, live: set<Id>, id: Id, t: Task): Task {
    if !IsLost(c, live, id, t) then t
    else t.(desired := Stopped, observed := if t.node in live then t.observed else Lost)
  }

  function StopLost(c: Config, live: set<Id>, tasks: Tasks): Tasks {
    map id | id in tasks :: StopLostTask(c, live, id, tasks[id])
  }

  // ----- retirement -----

  function RetireTask(t: Task, routed: bool): Task {
    if !t.desired.Running? then t
    else t.(desired := if routed && t.observed.Healthy? then Draining else Stopped, drainUntil := None)
  }

  function Retire(tasks: Tasks, ids: set<Id>, routed: bool): Tasks {
    map id | id in tasks :: if id in ids then RetireTask(tasks[id], routed) else tasks[id]
  }

  function FinishDrain(t: Task, now: int): Task {
    if t.desired.Draining? && t.drainUntil.Some? && t.drainUntil.value <= now
    then t.(desired := Stopped)
    else t
  }

  function FinishDrains(tasks: Tasks, now: int): Tasks {
    map id | id in tasks :: FinishDrain(tasks[id], now)
  }

  // ----- the groups of tasks that rollout decisions count -----

  predicate IsCurrent(live: set<Id>, sid: Id, svc: Service, t: Task) {
    t.service == sid && t.revision == svc.revision && t.desired.Running? && t.node in live
  }

  predicate IsOld(live: set<Id>, sid: Id, svc: Service, t: Task) {
    t.service == sid && t.revision != svc.revision && t.desired.Running? && t.node in live
  }

  predicate Violates(c: Config, sid: Id, svc: Service, t: Task) {
    && t.service == sid && t.revision == svc.revision && t.desired.Running?
    && t.node in c.nodes
    && !MatchesConstraints(t.node, c.nodes[t.node], svc.spec.constraints)
  }

  predicate IsServing(t: Task) {
    t.observed.Healthy? && forall i :: 0 <= i < |t.ports| ==> t.ports[i].published.Some?
  }

  function Current(live: set<Id>, sid: Id, svc: Service, tasks: Tasks): set<Id> {
    set id | id in tasks && IsCurrent(live, sid, svc, tasks[id])
  }

  function Old(live: set<Id>, sid: Id, svc: Service, tasks: Tasks): set<Id> {
    set id | id in tasks && IsOld(live, sid, svc, tasks[id])
  }

  function Violating(c: Config, sid: Id, svc: Service, tasks: Tasks): set<Id> {
    set id | id in tasks && Violates(c, sid, svc, tasks[id])
  }

  function Serving(ids: set<Id>, tasks: Tasks): set<Id> {
    set id | id in ids && id in tasks && IsServing(tasks[id])
  }

  /** Containers of the service that still take up room on a live node. */
  function Occupying(live: set<Id>, sid: Id, tasks: Tasks): set<Id> {
    set id | id in tasks && tasks[id].service == sid && tasks[id].node in live && !tasks[id].observed.Gone()
  }

  function Members(sid: Id, tasks: Tasks): set<Id> {
    set id | id in tasks && tasks[id].service == sid
  }

  // ----- which tasks a pass retires -----

  /** Current-revision tasks that satisfy the constraints, cut to the replica count. */
  ghost function KeptCurrent(c: Config, live: set<Id>, sid: Id, svc: Service, tasks: Tasks): set<Id> {
    KeepSmallest(Current(live, sid, svc, tasks) - Violating(c, sid, svc, tasks), svc.spec.replicas)
  }

  /** Old-revision tasks still needed beside the serving current ones. */
  ghost function KeptOld(c: Config, live: set<Id>, sid: Id, svc: Service, tasks: Tasks): set<Id> {
    var serving := Serving(KeptCurrent(c, live, sid, svc, tasks), tasks);
    KeepSmallest(Old(live, sid, svc, tasks), Surplus(svc.spec.replicas, |serving|))
  }

  /** A stop-first update frees one slot per pass before it starts the replacement. */
  ghost predicate StopsFirst(svc: Service, keptCurrent: set<Id>, keptOld: set<Id>) {
    svc.spec.maxSurge == 0 && keptOld != {} && |keptCurrent| < svc.spec.replicas
  }

  ghost function Victims(c: Config, live: set<Id>, sid: Id, svc: Service, tasks: Tasks): set<Id> {
    var keptCurrent := KeptCurrent(c, live, sid, svc, tasks);
    var keptOld := KeptOld(c, live, sid, svc, tasks);
    Violating(c, sid, svc, tasks)
    + (Current(live, sid, svc, tasks) - keptCurrent)
    + (Old(live, sid, svc, tasks) - keptOld)
    + (if StopsFirst(svc, keptCurrent, keptOld) then {Smallest(keptOld)} else {})
  }

  // ----- placement -----

  /** Tasks that hold a replica slot of the service's current revision. */
  function SlotHolders(sid: Id, svc: Service, tasks: Tasks): set<Id> {
    set id | id in tasks && tasks[id].service == sid && tasks[id].revision == svc.revision
             && tasks[id].desired.Running? && !tasks[id].FinishedJob()
  }

  function UsedSlots(sid: Id, svc: Service, tasks: Tasks): set<nat> {
    set id | id in SlotHolders(sid, svc, tasks) :: tasks[id].slot
  }

  function ActiveOn(node: Id, sid: Id, tasks: Tasks): set<Id> {
    set id | id in tasks && tasks[id].node == node && tasks[id].service == sid && !tasks[id].observed.Gone()
  }

  function OldOn(node: Id, sid: Id, svc: Service, tasks: Tasks): set<Id> {
    set id | id in ActiveOn(node, sid, tasks) && tasks[id].revision != svc.revision && tasks[id].desired.Running?
  }

  predicate HasCapacity(node: Id, sid: Id, svc: Service, tasks: Tasks) {
    match svc.spec.maxPerNode
    case None => true
    case Some(limit) =>
      var active := |ActiveOn(node, sid, tasks)|;
      limit == 0 || active < limit
      || (svc.spec.maxSurge > 0 && active < limit + |OldOn(node, sid, svc, tasks)|)
  }

  predicate PortsFree(c: Config, tasks: Tasks, node: Id, ports: seq<Port>) {
    forall i :: 0 <= i < |ports| && ports[i].published.Some?
      ==> !PortTaken(c, tasks, node, ports[i].protocol, ports[i].published.value)
  }

  predicate Eligible(c: Config, live: set<Id>, sid: Id, svc: Service, tasks: Tasks, node: Id) {
    && node in c.nodes && node in live
    && MatchesConstraints(node, c.nodes[node], svc.spec.constraints)
    && ((sid, svc.revision) in c.pins ==> node in c.pins[(sid, svc.revision)])
    && HasCapacity(node, sid, svc, tasks)
    && PortsFree(c, tasks, node, svc.spec.ports)
  }

  function Candidates(c: Config, live: set<Id>, sid: Id, svc: Service, tasks: Tasks): set<Id> {
    set node | node in c.nodes && Eligible(c, live, sid, svc, tasks, node)
  }

  predicate Loads(t: Task, node: Id) {
    t.node == node && t.desired.Running? && !t.FinishedJob()
  }

  function RevisionLoad(node: Id, sid: Id, svc: Service, tasks: Tasks): nat {
    |set id | id in tasks && Loads(tasks[id], node) && tasks[id].service == sid && tasks[id].revision == svc.revision|
  }

  function ServiceLoad(node: Id, sid: Id, tasks: Tasks): nat {
    |set id | id in tasks && Loads(tasks[id], node) && tasks[id].service == sid|
  }

  function TotalLoad(node: Id, tasks: Tasks): nat {
    |set id | id in tasks && Loads(tasks[id], node)|
  }

  /** Lexicographic comparison of (revision load, service load, total load, node id). */
  predicate Preferred(sid: Id, svc: Service, tasks: Tasks, a: Id, b: Id) {
    var ra, rb := RevisionLoad(a, sid, svc, tasks), RevisionLoad(b, sid, svc, tasks);
    var sa, sb := ServiceLoad(a, sid, tasks), ServiceLoad(b, sid, tasks);
    var ta, tb := TotalLoad(a, tasks), TotalLoad(b, tasks);
    ra < rb || (ra == rb && (sa < sb || (sa == sb && (ta < tb || (ta == tb && Before(a, b))))))
  }

  ghost predicate IsBest(sid: Id, svc: Service, tasks: Tasks, nodes: set<Id>, node: Id) {
    node in nodes && forall m :: m in nodes && m != node ==> Preferred(sid, svc, tasks, node, m)
  }

  lemma {:induction false} PreferredTransitive(sid: Id, svc: Service, tasks: Tasks, x: Id, y: Id, z: Id)
    requires Preferred(sid, svc, tasks, x, y) && Preferred(sid, svc, tasks, y, z)
    ensures Preferred(sid, svc, tasks, x, z)
  {
    if Before(x, y) && Before(y, z) { BeforeTransitive(x, y, z); }
  }

  lemma {:induction false} BestExists(sid: Id, svc: Service, tasks: Tasks, nodes: set<Id>)
    requires nodes != {}
    ensures exists node :: IsBest(sid, svc, tasks, nodes, node)
  {
    var x :| x in nodes;
    var rest := nodes - {x};
    if rest == {} {
      assert nodes == {x};
      assert IsBest(sid, svc, tasks, nodes, x);
    } else {
      BestExists(sid, svc, tasks, rest);
      var y :| IsBest(sid, svc, tasks, rest, y);
      BeforeTotal(x, y);
      if Preferred(sid, svc, tasks, y, x) {
        assert IsBest(sid, svc, tasks, nodes, y);
      } else {
        forall m | m in nodes && m != x ensures Preferred(sid, svc, tasks, x, m) {
          if m != y { PreferredTransitive(sid, svc, tasks, x, y, m); }
        }
        assert IsBest(sid, svc, tasks, nodes, x);
      }
    }
  }

  lemma {:induction false} BestUnique(sid: Id, svc: Service, tasks: Tasks, nodes: set<Id>, x: Id, y: Id)
    requires IsBest(sid, svc, tasks, nodes, x) && IsBest(sid, svc, tasks, nodes, y)
    ensures x == y
  {
    if x != y {
      BeforeIrreflexive(x);
      PreferredTransitive(sid, svc, tasks, x, y, x);
    }
  }

  ghost function Best(sid: Id, svc: Service, tasks: Tasks, nodes: set<Id>): (node: Id)
    requires nodes != {}
    ensures IsBest(sid, svc, tasks, nodes, node)
  {
    BestExists(sid, svc, tasks, nodes);
    var node :| IsBest(sid, svc, tasks, nodes, node);
    node
  }

  /** The spec's ports, then an unpublished binding for every other port the gateway routes to. */
  function AllocatePorts(requested: seq<Port>, targets: seq<nat>): (r: seq<Port>)
    ensures |r| >= |requested| && r[..|requested|] == requested
    ensures forall i :: |requested| <= i < |r| ==> r[i].published.None?
    decreases |targets|
  {
    if targets == [] then requested
    else if Exposes(requested, targets[0])
    then AllocatePorts(requested, targets[1..])
    else
      var r := AllocatePorts(requested + [Port(targets[0], None, "tcp")], targets[1..]);
      assert r[..|requested|] == r[..|requested| + 1][..|requested|];
      r
  }

  predicate Exposes(ports: seq<Port>, target: nat) {
    exists i :: 0 <= i < |ports| && ports[i].target == target && ports[i].protocol == "tcp"
  }

  /**
    The spec's own ports come first and unchanged; what follows is one unpublished tcp binding for each
    gateway target that they do not expose, and nothing else.
   */
  lemma {:induction false} AllocatedPorts(requested: seq<Port>, targets: seq<nat>)
    ensures var r := AllocatePorts(requested, targets);
      && requested <= r
      && (forall target :: target in targets ==> Exposes(r, target))
      && (forall i :: |requested| <= i < |r| ==>
            r[i] == Port(r[i].target, None, "tcp") && r[i].target in targets && !Exposes(r[..i], r[i].target))
    decreases |targets|
  {
    var r := AllocatePorts(requested, targets);
    if targets != [] {
      var more := if Exposes(requested, targets[0]) then requested else requested + [Port(targets[0], None, "tcp")];
      AllocatedPorts(more, targets[1..]);
      assert r == AllocatePorts(more, targets[1..]);
      assert more != requested ==> more[|requested|].target == targets[0] && more[|requested|].protocol == "tcp";
      StaysExposed(more, r, targets[0]);
      forall i | |requested| <= i < |r|
        ensures r[i] == Port(r[i].target, None, "tcp") && r[i].target in targets && !Exposes(r[..i], r[i].target)
      {
        if i < |more| { assert r[i] == more[i] && r[..i] == requested; }
      }
    }
  }

  lemma {:induction false} StaysExposed(ports: seq<Port>, more: seq<Port>, target: nat)
    requires ports <= more && Exposes(ports, target)
    ensures Exposes(more, target)
  {
    var i :| 0 <= i < |ports| && ports[i].target == target && ports[i].protocol == "tcp";
    assert more[i] == ports[i];
  }

  function GatewayPorts(c: Config, sid: Id): seq<nat> {
    if sid in c.gatewayPorts then c.gatewayPorts[sid] else []
  }

  /** The lowest slot from `from` up to `replicas` that is not in use. */
  function FreeSlot(used: set<nat>, from: nat, replicas: nat): (r: Option<nat>)
    ensures r.Some? ==> from <= r.value < replicas && r.value !in used
                        && forall s :: from <= s < r.value ==> s in used
    ensures r.None? ==> forall s :: from <= s < replicas ==> s in used
    decreases Surplus(replicas, from)
  {
    if from >= replicas then None
    else if from !in used then Some(from)
    else FreeSlot(used, from + 1, replicas)
  }

  function NewTask(c: Config, sid: Id, svc: Service, node: Id, slot: nat): Task {
    Task(sid, svc.revision, slot, node, Desired.Running, Pending,
         AllocatePorts(svc.spec.ports, GatewayPorts(c, sid)), None, None)
  }

  ghost function ScheduleTask(c: Config, live: set<Id>, sid: Id, svc: Service, tasks: Tasks): Option<Task> {
    var nodes := Candidates(c, live, sid, svc, tasks);
    if nodes == {} then None
    else
      match FreeSlot(UsedSlots(sid, svc, tasks), 0, svc.spec.replicas)
      case None => None
      case Some(slot) => Some(NewTask(c, sid, svc, Best(sid, svc, tasks, nodes), slot))
  }

  /** A supply of task ids, each different from every id in use. */
  ghost predicate Fresh(ids: set<Id> -> Id) {
    forall used :: ids(used) !in used
  }

  /** The create loop: at most `n` placements, ending at the first that finds no room. */
  ghost function Place(c: Config, live: set<Id>, sid: Id, svc: Service, tasks: Tasks, n: nat, ids: set<Id> -> Id): Tasks
    decreases n
  {
    if n == 0 then tasks
    else
      match ScheduleTask(c, live, sid, svc, tasks)
      case None => tasks
      case Some(t) => Place(c, live, sid, svc, tasks[ids(tasks.Keys) := t], n - 1, ids)
  }

  /** How many tasks the surge limit and the replica count still allow. */
  function Quota(live: set<Id>, sid: Id, svc: Service, tasks: Tasks): nat {
    var limit := svc.spec.replicas + (if Old(live, sid, svc, tasks) != {} then svc.spec.maxSurge else 0);
    Min(Surplus(svc.spec.replicas, |Current(live, sid, svc, tasks)|), Surplus(limit, |Occupying(live, sid, tasks)|))
  }

  ghost function ReconcileService(c: Config, live: set<Id>, sid: Id, svc: Service, tasks: Tasks,
          ids: set<Id> -> Id): Tasks {
    var retired := Retire(tasks, Victims(c, live, sid, svc, tasks), sid in c.httpRouted);
    Place(c, live, sid, svc, retired, Quota(live, sid, svc, retired), ids)
  }

  ghost function StepService(c: Config, live: set<Id>, sid: Id, tasks: Tasks, ids: set<Id> -> Id): Tasks
    requires sid in c.services
  {
    var svc := c.services[sid];
    if svc.spec.job.Some? || sid in c.restartingServices then tasks
    else if svc.deleted || svc.spec.replicas == 0 then
      Retire(tasks, Members(sid, tasks), sid in c.httpRouted)
    else ReconcileService(c, live, sid, svc, tasks, ids)
  }

  ghost function StepServices(c: Config, live: set<Id>, order: seq<Id>, tasks: Tasks, ids: set<Id> -> Id): Tasks
    requires forall i :: 0 <= i < |order| ==> order[i] in c.services
  {
    if order == [] then tasks
    else StepServices(c, live, order[1..], StepService(c, live, order[0], tasks, ids), ids)
  }
}
