/** What a pass keeps available, how far it may surge, and what placement preserves. */
module Rollout {
  import opened Sets
  import opened Wrappers
  import opened Cluster
  import opened Ordering
  import opened Scheduler
  import opened Convergence

  // ----- one service's step inside a pass -----

  /** A pass is other services' steps, the service's own step, and other services' steps. */
  lemma {:induction false} StepsSplit(c: Config, live: set<Id>, order: seq<Id>, tasks: Tasks, ids: set<Id> -> Id,
          sid: Id)
    returns (mid: Tasks)
    requires Fresh(ids) && (forall i :: 0 <= i < |order| ==> order[i] in c.services)
    requires sid in order && forall i, j :: 0 <= i < j < |order| ==> order[i] != order[j]
    ensures Foreign(sid, tasks, mid)
    ensures Foreign(sid, StepService(c, live, sid, mid, ids), StepServices(c, live, order, tasks, ids))
  {
    var next := StepService(c, live, order[0], tasks, ids);
    if order[0] == sid {
      mid := tasks;
      StepsForeign(c, live, order[1..], next, ids, sid);
    } else {
      StepForeign(c, live, order[0], tasks, ids, sid);
      mid := StepsSplit(c, live, order[1..], next, ids, sid);
      ForeignTransitive(sid, tasks, next, mid);
    }
  }

  lemma {:induction false} StepsForeign(c: Config, live: set<Id>, order: seq<Id>, tasks: Tasks, ids: set<Id> -> Id,
          other: Id)
    requires Fresh(ids) && (forall i :: 0 <= i < |order| ==> order[i] in c.services) && other !in order
    ensures Foreign(other, tasks, StepServices(c, live, order, tasks, ids))
  {
    if order != [] {
      var next := StepService(c, live, order[0], tasks, ids);
      StepForeign(c, live, order[0], tasks, ids, other);
      StepsForeign(c, live, order[1..], next, ids, other);
      ForeignTransitive(other, tasks, next, StepServices(c, live, order, tasks, ids));
    }
  }

  // ----- availability and surge -----

  lemma {:induction false} PlaceGroups(c: Config, live: set<Id>, sid: Id, svc: Service, tasks: Tasks, n: nat,
          ids: set<Id> -> Id)
    requires Fresh(ids)
    ensures var after := Place(c, live, sid, svc, tasks, n, ids);
      && Old(live, sid, svc, after) == Old(live, sid, svc, tasks)
      && Serving(Current(live, sid, svc, after), after) == Serving(Current(live, sid, svc, tasks), tasks)
      && |Occupying(live, sid, tasks)| <= |Occupying(live, sid, after)| <= |Occupying(live, sid, tasks)| + n
    decreases n
  {
    var r := ScheduleTask(c, live, sid, svc, tasks);
    if n > 0 && r.Some? {
      var id := ids(tasks.Keys);
      ScheduledIsPlaced(c, live, sid, svc, tasks);
      AddGroups(c, live, sid, svc, tasks, id, r.value);
      PlaceGroups(c, live, sid, svc, tasks[id := r.value], n - 1, ids);
    }
  }

  /** Tasks that can answer requests during a rollout: serving current ones and running old ones. */
  function Available(live: set<Id>, sid: Id, svc: Service, tasks: Tasks): nat {
    |Serving(Current(live, sid, svc, tasks), tasks)| + |Old(live, sid, svc, tasks)|
  }

  /** What the service could offer at best: its replica count, or all that serves or still runs. */
  ghost function Offered(c: Config, live: set<Id>, sid: Id, svc: Service, tasks: Tasks): int {
    Min(svc.spec.replicas, |Serving(KeptCurrent(c, live, sid, svc, tasks), tasks)| + |Old(live, sid, svc, tasks)|)
  }

  lemma {:induction false} KeptSizes(c: Config, live: set<Id>, sid: Id, svc: Service, tasks: Tasks)
    ensures |Serving(KeptCurrent(c, live, sid, svc, tasks), tasks)| + |KeptOld(c, live, sid, svc, tasks)|
            == Offered(c, live, sid, svc, tasks)
  {
    var keptCurrent := KeptCurrent(c, live, sid, svc, tasks);
    SubsetSize(Serving(keptCurrent, tasks), keptCurrent);
  }

  lemma {:induction false} ReconcileServiceAvailability(c: Config, live: set<Id>, sid: Id, svc: Service, tasks: Tasks,
          ids: set<Id> -> Id)
    requires Fresh(ids)
    ensures var after := ReconcileService(c, live, sid, svc, tasks, ids);
      var keptCurrent, keptOld := KeptCurrent(c, live, sid, svc, tasks), KeptOld(c, live, sid, svc, tasks);
      Available(live, sid, svc, after)
      == Offered(c, live, sid, svc, tasks) - if StopsFirst(svc, keptCurrent, keptOld) then 1 else 0
  {
    RetiredAvailability(c, live, sid, svc, tasks);
    var retired := Retire(tasks, Victims(c, live, sid, svc, tasks), sid in c.httpRouted);
    PlaceGroups(c, live, sid, svc, retired, Quota(live, sid, svc, retired), ids);
  }

  lemma {:induction false} RetiredAvailability(c: Config, live: set<Id>, sid: Id, svc: Service, tasks: Tasks)
    ensures var retired := Retire(tasks, Victims(c, live, sid, svc, tasks), sid in c.httpRouted);
      var keptCurrent, keptOld := KeptCurrent(c, live, sid, svc, tasks), KeptOld(c, live, sid, svc, tasks);
      Available(live, sid, svc, retired)
      == Offered(c, live, sid, svc, tasks) - if StopsFirst(svc, keptCurrent, keptOld) then 1 else 0
  {
    RetiredGroups(c, live, sid, svc, tasks);
    KeptSizes(c, live, sid, svc, tasks);
  }

  lemma {:induction false} ReconcileServiceSurge(c: Config, live: set<Id>, sid: Id, svc: Service, tasks: Tasks,
          ids: set<Id> -> Id)
    requires Fresh(ids)
    ensures var after := ReconcileService(c, live, sid, svc, tasks, ids);
      |Occupying(live, sid, after)|
      <= Max(|Occupying(live, sid, tasks)|,
             svc.spec.replicas + if Old(live, sid, svc, after) != {} then svc.spec.maxSurge else 0)
  {
    RetiredGroups(c, live, sid, svc, tasks);
    var retired := Retire(tasks, Victims(c, live, sid, svc, tasks), sid in c.httpRouted);
    PlaceGroups(c, live, sid, svc, retired, Quota(live, sid, svc, retired), ids);
  }

  lemma {:induction false} ForeignKept(c: Config, live: set<Id>, sid: Id, svc: Service, tasks: Tasks, after: Tasks)
    requires Foreign(sid, tasks, after)
    ensures KeptCurrent(c, live, sid, svc, after) == KeptCurrent(c, live, sid, svc, tasks)
    ensures Serving(KeptCurrent(c, live, sid, svc, after), after) == Serving(KeptCurrent(c, live, sid, svc, tasks), tasks)
    ensures KeptOld(c, live, sid, svc, after) == KeptOld(c, live, sid, svc, tasks)
  {
    ForeignGroups(c, live, sid, svc, tasks, after);
    var kept := KeptCurrent(c, live, sid, svc, tasks);
    assert kept <= Current(live, sid, svc, tasks);
    assert forall id :: id in kept ==> after[id] == tasks[id];
  }

  lemma {:induction false} PassAvailability(c: Config, live: set<Id>, order: seq<Id>, tasks: Tasks,
          ids: set<Id> -> Id, sid: Id)
    requires Fresh(ids) && (forall i :: 0 <= i < |order| ==> order[i] in c.services)
    requires sid in order && Managed(c, sid) && forall i, j :: 0 <= i < j < |order| ==> order[i] != order[j]
    ensures var svc, before, after := c.services[sid], StopLost(c, live, tasks), Pass(c, live, order, tasks, ids);
      && Available(live, sid, svc, after) <= Offered(c, live, sid, svc, before)
      && Available(live, sid, svc, after) >= Offered(c, live, sid, svc, before) - (if svc.spec.maxSurge == 0 then 1 else 0)
  {
    var svc, before := c.services[sid], StopLost(c, live, tasks);
    var mid := StepsSplit(c, live, order, before, ids, sid);
    ReconcileServiceAvailability(c, live, sid, svc, mid, ids);
    ForeignGroups(c, live, sid, svc, before, mid);
    ForeignKept(c, live, sid, svc, before, mid);
    ForeignGroups(c, live, sid, svc, StepService(c, live, sid, mid, ids), Pass(c, live, order, tasks, ids));
  }

  lemma {:induction false} PassSurge(c: Config, live: set<Id>, order: seq<Id>, tasks: Tasks, ids: set<Id> -> Id,
          sid: Id)
    requires Fresh(ids) && (forall i :: 0 <= i < |order| ==> order[i] in c.services)
    requires sid in order && Managed(c, sid) && forall i, j :: 0 <= i < j < |order| ==> order[i] != order[j]
    ensures var svc, before, after := c.services[sid], StopLost(c, live, tasks), Pass(c, live, order, tasks, ids);
      |Occupying(live, sid, after)|
      <= Max(|Occupying(live, sid, before)|,
             svc.spec.replicas + if Old(live, sid, svc, after) != {} then svc.spec.maxSurge else 0)
  {
    var svc, before := c.services[sid], StopLost(c, live, tasks);
    var mid := StepsSplit(c, live, order, before, ids, sid);
    ReconcileServiceSurge(c, live, sid, svc, mid, ids);
    ForeignGroups(c, live, sid, svc, before, mid);
    ForeignGroups(c, live, sid, svc, StepService(c, live, sid, mid, ids), Pass(c, live, order, tasks, ids));
  }

  /**
    Over a whole pass, whatever the other services do: a managed service keeps its
    offer, less one task when it stops first, and its containers stay within the
    surge limit, or within the replica count once no old task is left running.
   */
  lemma {:induction false} PassRollout(c: Config, live: set<Id>, order: seq<Id>, tasks: Tasks, ids: set<Id> -> Id,
          sid: Id)
    requires Fresh(ids) && (forall i :: 0 <= i < |order| ==> order[i] in c.services)
    requires sid in order && Managed(c, sid) && forall i, j :: 0 <= i < j < |order| ==> order[i] != order[j]
    ensures var svc, before, after := c.services[sid], StopLost(c, live, tasks), Pass(c, live, order, tasks, ids);
      && Available(live, sid, svc, after) <= Offered(c, live, sid, svc, before)
      && Available(live, sid, svc, after) >= Offered(c, live, sid, svc, before) - (if svc.spec.maxSurge == 0 then 1 else 0)
      && |Occupying(live, sid, after)|
         <= Max(|Occupying(live, sid, before)|,
                svc.spec.replicas + if Old(live, sid, svc, after) != {} then svc.spec.maxSurge else 0)
  {
    PassAvailability(c, live, order, tasks, ids, sid);
    PassSurge(c, live, order, tasks, ids, sid);
  }
}
