/** The controller's records: what one reconcile pass reads and rewrites. */
module Cluster {
  import opened Wrappers

  type Id = string

  datatype Desired = Running | Draining | Stopped

  datatype Observed =
    | Unknown | Pending | Starting | Running | Healthy
    | Failed | Lost
    | Succeeded | Cancelled | TimedOut
  {
    /** A failed or lost container no longer holds its node's ports or capacity. */
    predicate Gone() { Failed? || Lost? }

    predicate JobTerminal() { Succeeded? || Failed? || Cancelled? || TimedOut? }
  }

  datatype Port = Port(target: nat, published: Option<nat>, protocol: string)

  datatype Attribute = NodeIdentity | Label(name: string) | Unrecognised

  datatype Constraint =
    | Equal(attribute: Attribute, expected: string)
    | NotEqual(attribute: Attribute, expected: string)
    | Malformed

  datatype Node = Node(labels: map<string, string>, supportsJobs: bool)

  datatype JobPolicy = JobPolicy(schedule: Option<string>, timeZone: string, suspend: bool)

  datatype Spec = Spec(
    replicas: nat,
    maxSurge: nat,
    maxPerNode: Option<nat>,
    constraints: seq<Constraint>,
    ports: seq<Port>,
    graceSeconds: nat,
    job: Option<JobPolicy>)

  datatype Service = Service(revision: nat, spec: Spec, deleted: bool)

  datatype JobExecution = JobExecution(
    scheduledAt: int,
    notBefore: int,
    startDeadline: int,
    spec: Spec)

  datatype Task = Task(
    service: Id,
    revision: nat,
    slot: nat,
    node: Id,
    desired: Desired,
    observed: Observed,
    ports: seq<Port>,
    job: Option<JobExecution>,
    drainUntil: Option<int>)
  {
    /** A finished job execution keeps its desired state but runs nothing. */
    predicate FinishedJob() { job.Some? && observed.JobTerminal() }
  }

  type Tasks = map<Id, Task>

  /** A container the controller found but does not manage; it still holds its ports. */
  datatype Unclaimed = Unclaimed(node: Id, ports: seq<Port>)

  /**
    Everything a pass only reads. The gateway routes and the service operations
    enter as the answers they give: which services carry HTTP routes, which ports
    the gateway needs, which tasks and services are being restarted, and which
    nodes hold the prepared image of a pinned service revision.
   */
  datatype Config = Config(
    services: map<Id, Service>,
    nodes: map<Id, Node>,
    unclaimed: map<Id, Unclaimed>,
    httpRouted: set<Id>,
    gatewayPorts: map<Id, seq<nat>>,
    restartingTasks: set<Id>,
    restartingServices: set<Id>,
    pins: map<(Id, nat), set<Id>>)

  predicate Satisfies(id: Id, node: Node, constraint: Constraint) {
    match constraint
    case Equal(attribute, expected) => Actual(id, node, attribute) == Some(expected)
    case NotEqual(attribute, expected) => Actual(id, node, attribute) != Some(expected)
    case Malformed => false
  }

  function Actual(id: Id, node: Node, attribute: Attribute): Option<string> {
    match attribute
    case NodeIdentity => Some(id)
    case Label(name) => if name in node.labels then Some(node.labels[name]) else None
    case Unrecognised => None
  }

  predicate MatchesConstraints(id: Id, node: Node, constraints: seq<Constraint>) {
    forall i :: 0 <= i < |constraints| ==> Satisfies(id, node, constraints[i])
  }

  /** What a list of constraints asks of a node, by its id and labels. */
  ghost predicate Admits(constraints: seq<Constraint>, id: Id, labels: map<string, string>) {
    && (forall key, v :: Equal(Label(key), v) in constraints ==> key in labels && labels[key] == v)
    && (forall key, v :: NotEqual(Label(key), v) in constraints ==> key !in labels || labels[key] != v)
    && (forall v :: Equal(NodeIdentity, v) in constraints ==> id == v)
    && (forall v :: NotEqual(NodeIdentity, v) in constraints ==> id != v)
    && (forall v :: Equal(Unrecognised, v) !in constraints)
    && Malformed !in constraints
  }

  lemma {:induction false} AdmitsExactly(constraints: seq<Constraint>, id: Id, node: Node)
    ensures MatchesConstraints(id, node, constraints) <==> Admits(constraints, id, node.labels)
  {
    if MatchesConstraints(id, node, constraints) {
      forall constraint | constraint in constraints ensures Satisfies(id, node, constraint) {
        var i :| 0 <= i < |constraints| && constraints[i] == constraint;
      }
    } else {
      var i :| 0 <= i < |constraints| && !Satisfies(id, node, constraints[i]);
      assert constraints[i] in constraints;
    }
  }

  predicate Publishes(ports: seq<Port>, protocol: string, published: nat) {
    exists i :: 0 <= i < |ports| && ports[i].published == Some(published) && ports[i].protocol == protocol
  }

  /** Some container on the node, managed or not, holds this published port. */
  predicate PortTaken(c: Config, tasks: Tasks, node: Id, protocol: string, published: nat) {
    || (exists id :: id in tasks && HoldsPort(tasks[id], node, protocol, published))
    || (exists u :: u in c.unclaimed && c.unclaimed[u].node == node
                    && Publishes(c.unclaimed[u].ports, protocol, published))
  }

  predicate HoldsPort(t: Task, node: Id, protocol: string, published: nat) {
    t.node == node && !t.observed.Gone() && Publishes(t.ports, protocol, published)
  }
}
